/** Upstream health and failover in internal/resolvers/forwarding_resolver.go: canTryUpstream,
    selectUpstream, markFailed, markHealthy, findUpstreamIndex and the loop of queryAndCache.
    Clock readings are nanoseconds. */
module Upstreams {
  import opened Wire

  type Server = string

  const RECOVERY: int := 3600 * SECOND

  /** When each failed upstream failed first. */
  type Failures = map<Server, int>

  // ---------------------------------------------------------------- single steps

  /** canTryUpstream: a record that has aged out is dropped. */
  function Check(failed: Failures, up: Server, now: int): (Failures, bool) {
    if up !in failed then (failed, true)
    else if now - failed[up] >= RECOVERY then (failed - {up}, true)
    else (failed, false)
  }

  /** markFailed: only the first failure counts. */
  function Fail(failed: Failures, up: Server, now: int): Failures {
    if up in failed then failed else failed[up := now]
  }

  /** selectUpstream from position `i` on; `clock` gives the reading of each check. */
  function Select(ups: seq<Server>, failed: Failures, i: nat, clock: nat -> int): (Failures, Server)
    requires ups != [] && i <= |ups|
    decreases |ups| - i
  {
    if i == |ups| then (map[], ups[0])
    else
      var (f, ok) := Check(failed, ups[i], clock(i));
      if ok then (f, ups[i]) else Select(ups, f, i + 1, clock)
  }

  /** Whatever failed before, the selected upstream is one of the configured ones and is not
      marked as failed when selectUpstream returns. */
  lemma {:induction false} SelectedIsEligible(ups: seq<Server>, failed: Failures, i: nat, clock: nat -> int)
    requires ups != [] && i <= |ups|
    ensures var (f, up) := Select(ups, failed, i, clock); up in ups && up !in f
    decreases |ups| - i
  {
    if i < |ups| {
      SelectedIsEligible(ups, Check(failed, ups[i], clock(i)).0, i + 1, clock);
    }
  }

  /** Never failed, or failed at least an hour ago. */
  predicate Eligible(failed: Failures, up: Server, now: int) {
    up !in failed || now - failed[up] >= 3_600_000_000_000
  }

  /** canTryUpstream tells whether the upstream is eligible, and forgets a failure an hour old. */
  lemma CheckIff(failed: Failures, up: Server, now: int)
    ensures Check(failed, up, now).1 <==> Eligible(failed, up, now)
    ensures Check(failed, up, now).0 == if Eligible(failed, up, now) then failed - {up} else failed
  {
    if up !in failed { assert failed - {up} == failed; }
  }

  /** The first eligible upstream is selected; the whole table is cleared, and the first upstream
      selected, only when all of them are in cooldown. */
  lemma {:induction false} SelectsFirstEligible(ups: seq<Server>, failed: Failures, i: nat, n: nat, clock: nat -> int)
    requires ups != [] && i <= n <= |ups|
    requires forall k :: i <= k < n ==> !Eligible(failed, ups[k], clock(k))
    requires n < |ups| ==> Eligible(failed, ups[n], clock(n))
    ensures Select(ups, failed, i, clock) == if n < |ups| then (failed - {ups[n]}, ups[n]) else (map[], ups[0])
    decreases n - i
  {
    hide Eligible, Check;
    if i < |ups| { CheckIff(failed, ups[i], clock(i)); }
    if i < n { SelectsFirstEligible(ups, failed, i + 1, n, clock); }
  }

  function IndexOf(ups: seq<Server>, up: Server, i: nat): (r: nat)
    requires i <= |ups|
    ensures up in ups[i..] ==> r < |ups| && ups[r] == up
    ensures up !in ups[i..] ==> r == 0
    decreases |ups| - i
  {
    if i == |ups| then 0 else if ups[i] == up then i else IndexOf(ups, up, i + 1)
  }

  // ---------------------------------------------------------------- one query

  /** What the environment does in one round of the loop: whether the context is done, the clock
      at the health check, and what queryOne brings back (None for an error, with its time). */
  datatype Round = Round(cancelled: bool, checkNow: int, reply: Option<seq<Byte>>, failNow: int)

  datatype Outcome = Replied(reply: seq<Byte>) | LastError | Cancelled | NoUpstreams

  /** The loop of queryAndCache from round `j` on: the new failure table, how it ends, and the
      rounds in which an upstream was actually asked. `erred` says that one was asked before. */
  function TryFrom(ups: seq<Server>, failed: Failures, start: nat, j: nat, erred: bool, env: nat -> Round)
    : (Failures, Outcome, seq<nat>)
    requires ups != [] && j <= |ups|
    decreases |ups| - j
  {
    if j == |ups| then (failed, if erred then LastError else NoUpstreams, [])
    else if env(j).cancelled then (failed, Cancelled, [])
    else
      var up := ups[(start + j) % |ups|];
      var (f, ok) := Check(failed, up, env(j).checkNow);
      if !ok then TryFrom(ups, f, start, j + 1, erred, env)
      else
        match env(j).reply
        case Some(r) => (f - {up}, Replied(r), [j])
        case None =>
          var (g, end, tried) := TryFrom(ups, Fail(f, up, env(j).failNow), start, j + 1, true, env);
          (g, end, [j] + tried)
  }

  predicate Increasing(s: seq<nat>, lo: nat, hi: nat) {
    (forall i :: 0 <= i < |s| ==> lo <= s[i] < hi) && (forall i :: 0 < i < |s| ==> s[i - 1] < s[i])
  }

  /** Rounds are asked in rotation order, each at most once. */
  lemma {:induction false} TriedInOrder(ups: seq<Server>, failed: Failures, start: nat, j: nat, erred: bool,
                                        env: nat -> Round)
    requires ups != [] && j <= |ups|
    ensures Increasing(TryFrom(ups, failed, start, j, erred, env).2, j, |ups|)
    ensures TryFrom(ups, failed, start, j, erred, env).1.NoUpstreams? ==>
              !erred && TryFrom(ups, failed, start, j, erred, env).2 == []
    decreases |ups| - j
  {
    if j < |ups| && !env(j).cancelled {
      var up := ups[(start + j) % |ups|];
      var (f, ok) := Check(failed, up, env(j).checkNow);
      if !ok {
        TriedInOrder(ups, f, start, j + 1, erred, env);
      } else if env(j).reply.None? {
        TriedInOrder(ups, Fail(f, up, env(j).failNow), start, j + 1, true, env);
      }
    }
  }

  /** The upstream of round `j`. */
  function Turn(ups: seq<Server>, start: nat, j: nat): Server
    requires ups != []
  {
    ups[(start + j) % |ups|]
  }

  /** The upstreams from round `j` up to round `n` are all different. */
  predicate TurnsDiffer(ups: seq<Server>, start: nat, j: nat, n: nat)
    requires ups != []
  {
    forall a, b :: j <= a < b < n ==> Turn(ups, start, a) != Turn(ups, start, b)
  }

  /** The rounds from `j` up to `n` in which an eligible upstream is asked. */
  function Asked(ups: seq<Server>, failed: Failures, start: nat, j: nat, n: nat, env: nat -> Round): seq<nat>
    requires ups != [] && j <= n
    decreases n - j
  {
    if j == n then []
    else
      (if Eligible(failed, Turn(ups, start, j), env(j).checkNow) then [j] else [])
      + Asked(ups, failed, start, j + 1, n, env)
  }

  lemma {:induction false} AskedElsewhere(ups: seq<Server>, failed: Failures, g: Failures, start: nat, j: nat, n: nat,
                                          env: nat -> Round)
    requires ups != [] && j <= n
    requires forall k :: j <= k < n ==>
               var up := Turn(ups, start, k); (up in g <==> up in failed) && (up in g ==> g[up] == failed[up])
    ensures Asked(ups, g, start, j, n, env) == Asked(ups, failed, start, j, n, env)
    decreases n - j
  {
    hide Turn;
    if j < n { AskedElsewhere(ups, failed, g, start, j + 1, n, env); }
  }

  /** Failover: as long as upstreams fail or are in cooldown the next one is tried, and the reply of
      the first eligible upstream that answers, in round `n`, is returned. When none answers, the
      query ends in the last error, or without one if none was eligible. */
  lemma {:induction false} Failover(ups: seq<Server>, failed: Failures, start: nat, j: nat, n: nat, erred: bool,
                                    env: nat -> Round)
    requires ups != [] && j <= n <= |ups| && TurnsDiffer(ups, start, j, |ups|)
    requires forall k :: j <= k < |ups| ==> !env(k).cancelled
    requires forall k :: j <= k < n ==> !Eligible(failed, Turn(ups, start, k), env(k).checkNow) || env(k).reply.None?
    requires n < |ups| ==> Eligible(failed, Turn(ups, start, n), env(n).checkNow) && env(n).reply.Some?
    ensures var (_, end, tried) := TryFrom(ups, failed, start, j, erred, env);
            var before := Asked(ups, failed, start, j, n, env);
            if n < |ups| then end == Replied(env(n).reply.value) && tried == before + [n]
            else end == (if erred || before != [] then LastError else NoUpstreams) && tried == before
    decreases n - j
  {
    hide Check, Eligible;
    if j < |ups| {
      var up, now := Turn(ups, start, j), env(j).checkNow;
      CheckIff(failed, up, now);
      var (f, ok) := Check(failed, up, now);
      if j < n {
        var g := if ok then Fail(f, up, env(j).failNow) else f;
        forall k | j < k < |ups|
          ensures var x := Turn(ups, start, k); (x in g <==> x in failed) && (x in g ==> g[x] == failed[x])
          ensures var x, t := Turn(ups, start, k), env(k).checkNow; Eligible(g, x, t) == Eligible(failed, x, t)
        {
          assert Turn(ups, start, j) != Turn(ups, start, k);
          SameEligible(failed, g, Turn(ups, start, k), env(k).checkNow);
        }
        AskedElsewhere(ups, failed, g, start, j + 1, n, env);
        Failover(ups, g, start, j + 1, n, erred || ok, env);
      }
    }
  }

  lemma SameEligible(a: Failures, b: Failures, up: Server, now: int)
    requires (up in a <==> up in b) && (up in a ==> a[up] == b[up])
    ensures Eligible(a, up, now) == Eligible(b, up, now)
  {
  }

  /** Upstreams that are configured once each take different turns. */
  lemma DistinctTurns(ups: seq<Server>, start: nat)
    requires start < |ups| && forall a, b :: 0 <= a < b < |ups| ==> ups[a] != ups[b]
    ensures TurnsDiffer(ups, start, 0, |ups|)
  {
    forall a, b | 0 <= a < b < |ups| ensures Turn(ups, start, a) != Turn(ups, start, b) {
      RotationDistinct(|ups|, start, a, b);
    }
  }

  /** Cancellation: from a round with a done context on nothing is asked, and the query ends in the
      context's error unless it had its reply before. */
  lemma {:induction false} CancelledStops(ups: seq<Server>, failed: Failures, start: nat, j: nat, n: nat, erred: bool,
                                          env: nat -> Round)
    requires ups != [] && j <= n < |ups| && env(n).cancelled
    ensures var (_, end, tried) := TryFrom(ups, failed, start, j, erred, env);
            && Increasing(tried, j, n)
            && (end == Cancelled || (tried != [] && end.Replied? && env(tried[|tried| - 1]).reply == Some(end.reply)))
    decreases n - j
  {
    hide Check;
    if !env(j).cancelled {
      var up := ups[(start + j) % |ups|];
      var (f, ok) := Check(failed, up, env(j).checkNow);
      if !ok {
        CancelledStops(ups, f, start, j + 1, n, erred, env);
      } else if env(j).reply.None? {
        CancelledStops(ups, Fail(f, up, env(j).failNow), start, j + 1, n, true, env);
      }
    }
  }

  /** Different rounds ask different positions of the configured list. */
  lemma RotationDistinct(n: nat, start: nat, j: nat, k: nat)
    requires j < k < n && start < n
    ensures (start + j) % n != (start + k) % n
  {
    Wrap(n, start + j);
    Wrap(n, start + k);
  }

  lemma Wrap(n: nat, x: nat)
    requires 0 < n && x < 2 * n
    ensures x % n == if x < n then x else x - n
  {
    if x >= n {
      assert x == 1 * n + (x - n);
    }
  }

  /** A query that starts at an upstream not marked as failed and is not cancelled at once asks
      that upstream first, so it never ends in "no upstream servers available". */
  lemma EligibleStartIsTried(ups: seq<Server>, failed: Failures, start: nat, env: nat -> Round)
    requires start < |ups| && ups[start] !in failed && !env(0).cancelled
    ensures var (_, end, tried) := TryFrom(ups, failed, start, 0, false, env);
            !end.NoUpstreams? && tried != [] && tried[0] == 0
  {
    Wrap(|ups|, start);
    if env(0).reply.None? {
      TriedInOrder(ups, Fail(failed, ups[start], env(0).failNow), start, 1, true, env);
    }
  }

  /** selectUpstream, findUpstreamIndex and the loop together: an uncancelled query asks at least
      one upstream, whatever had failed before. */
  lemma SequentialQueryAsks(ups: seq<Server>, failed: Failures, clock: nat -> int, env: nat -> Round)
    requires ups != [] && !env(0).cancelled
    ensures var (f, up) := Select(ups, failed, 0, clock);
            var (_, end, tried) := TryFrom(ups, f, IndexOf(ups, up, 0), 0, false, env);
            !end.NoUpstreams? && tried != []
  {
    hide TryFrom, Select, IndexOf;
    SelectedIsEligible(ups, failed, 0, clock);
    var (f, up) := Select(ups, failed, 0, clock);
    assert ups[0..] == ups;
    EligibleStartIsTried(ups, f, IndexOf(ups, up, 0), env);
  }

  // ---------------------------------------------------------------- no early retry, in every interleaving

  /** The atomic steps on the failure table, by any number of goroutines. */
  datatype Step =
    | CheckStep(up: Server, now: int)
    | FailStep(up: Server, now: int)
    | HealStep(up: Server)
    | ClearStep

  function Apply(failed: Failures, s: Step): Failures {
    match s
    case CheckStep(up, now) => Check(failed, up, now).0
    case FailStep(up, now) => Fail(failed, up, now)
    case HealStep(up) => failed - {up}
    case ClearStep => map[]
  }

  function After(failed: Failures, steps: seq<Step>): Failures
    decreases steps
  {
    if steps == [] then failed else After(Apply(failed, steps[0]), steps[1..])
  }

  /** Readings at or after `t` that never go back. */
  predicate Timely(steps: seq<Step>, t: int) {
    steps == [] ||
    if steps[0].CheckStep? || steps[0].FailStep? then t <= steps[0].now && Timely(steps[1..], steps[0].now)
    else Timely(steps[1..], t)
  }

  predicate Forgives(s: Step, up: Server) {
    s.ClearStep? || s == HealStep(up)
  }

  /** Up to the recovery time, only forgiving makes an upstream eligible again. */
  lemma {:induction false} StaysFailed(failed: Failures, steps: seq<Step>, up: Server, t: int, now: int)
    requires up in failed && t <= now && now - failed[up] < RECOVERY
    requires Timely(steps + [CheckStep(up, now)], t)
    requires forall i :: 0 <= i < |steps| ==> !Forgives(steps[i], up)
    ensures up in After(failed, steps) && After(failed, steps)[up] == failed[up]
    ensures !Check(After(failed, steps), up, now).1
    decreases steps
  {
    if steps != [] {
      var s, all := steps[0], steps + [CheckStep(up, now)];
      assert all[1..] == steps[1..] + [CheckStep(up, now)];
      var t' := if s.CheckStep? || s.FailStep? then s.now else t;
      LastReading(all[1..], t', up, now);
      assert up in Apply(failed, s) && Apply(failed, s)[up] == failed[up];
      StaysFailed(Apply(failed, s), steps[1..], up, t', now);
    }
  }

  lemma {:induction false} LastReading(steps: seq<Step>, t: int, up: Server, now: int)
    requires steps != [] && Timely(steps, t) && steps[|steps| - 1] == CheckStep(up, now)
    ensures t <= now
    decreases steps
  {
    if |steps| > 1 {
      LastReading(steps[1..], if steps[0].CheckStep? || steps[0].FailStep? then steps[0].now else t, up, now);
    }
  }

  /** No early retry: between a recorded failure and a health check within the hour that lets the
      same upstream through, the whole table was cleared or the upstream answered someone. */
  lemma NoEarlyRetry(failed: Failures, up: Server, failNow: int, steps: seq<Step>, now: int)
    requires up !in failed && now - failNow < RECOVERY
    requires Timely(steps + [CheckStep(up, now)], failNow)
    requires Check(After(Fail(failed, up, failNow), steps), up, now).1
    ensures exists i :: 0 <= i < |steps| && Forgives(steps[i], up)
  {
    var all := steps + [CheckStep(up, now)];
    LastReading(all, failNow, up, now);
    if forall i :: 0 <= i < |steps| ==> !Forgives(steps[i], up) {
      StaysFailed(Fail(failed, up, failNow), steps, up, failNow, now);
    }
  }

  /** One query at a time: an upstream is marked healthy only right after passing its check. */
  predicate Sequential(failed: Failures, steps: seq<Step>) {
    forall i :: 0 <= i < |steps| && steps[i].HealStep? ==> HealsAfterCheck(failed, steps, i)
  }

  predicate HealsAfterCheck(failed: Failures, steps: seq<Step>, i: nat)
    requires i < |steps| && steps[i].HealStep?
  {
    && i > 0
    && steps[i - 1].CheckStep? && steps[i - 1].up == steps[i].up
    && Check(After(failed, steps[..i - 1]), steps[i].up, steps[i - 1].now).1
  }

  lemma {:induction false} TimelyPrefix(steps: seq<Step>, n: nat, t: int)
    requires n <= |steps| && Timely(steps, t)
    ensures Timely(steps[..n], t)
    decreases n
  {
    if n > 0 {
      TimelyPrefix(steps[1..], n - 1, if steps[0].CheckStep? || steps[0].FailStep? then steps[0].now else t);
      assert steps[..n][1..] == steps[1..][..n - 1];
    }
  }

  lemma {:induction false} ReadingsOrdered(steps: seq<Step>, i: nat, t: int, up: Server, now: int)
    requires i < |steps| && Timely(steps, t) && steps[i].CheckStep? && steps[|steps| - 1] == CheckStep(up, now)
    ensures steps[i].now <= now
    decreases steps
  {
    var t' := if steps[0].CheckStep? || steps[0].FailStep? then steps[0].now else t;
    if i > 0 {
      ReadingsOrdered(steps[1..], i - 1, t', up, now);
    } else if |steps| > 1 {
      LastReading(steps[1..], t', up, now);
    }
  }

  /** With one query at a time, only clearing the whole table allows a retry within the hour. */
  lemma {:induction false} NoEarlyRetrySequential(failed: Failures, up: Server, failNow: int, steps: seq<Step>,
                                                  now: int)
    requires up !in failed && now - failNow < RECOVERY
    requires Timely(steps + [CheckStep(up, now)], failNow)
    requires Sequential(Fail(failed, up, failNow), steps)
    requires Check(After(Fail(failed, up, failNow), steps), up, now).1
    ensures ClearStep in steps
    decreases |steps|
  {
    NoEarlyRetry(failed, up, failNow, steps, now);
    var i :| 0 <= i < |steps| && Forgives(steps[i], up);
    if steps[i].HealStep? {
      assert HealsAfterCheck(Fail(failed, up, failNow), steps, i);
      var all, earlier := steps + [CheckStep(up, now)], steps[..i - 1];
      var check := steps[i - 1];
      assert all[..i] == earlier + [CheckStep(up, check.now)];
      TimelyPrefix(all, i, failNow);
      ReadingsOrdered(all, i - 1, failNow, up, now);
      forall k | 0 <= k < |earlier| && earlier[k].HealStep?
        ensures HealsAfterCheck(Fail(failed, up, failNow), earlier, k)
      {
        assert HealsAfterCheck(Fail(failed, up, failNow), steps, k);
        assert earlier[..k - 1] == steps[..k - 1];
      }
      NoEarlyRetrySequential(failed, up, failNow, earlier, check.now);
    }
  }

  // ---------------------------------------------------------------- the steps of queries run one by one

  /** The steps of selectUpstream. */
  function SelectSteps(ups: seq<Server>, failed: Failures, i: nat, clock: nat -> int): seq<Step>
    requires i <= |ups|
    decreases |ups| - i
  {
    if i == |ups| then [ClearStep]
    else
      var (f, ok) := Check(failed, ups[i], clock(i));
      [CheckStep(ups[i], clock(i))] + (if ok then [] else SelectSteps(ups, f, i + 1, clock))
  }

  /** The steps of the loop of queryAndCache. */
  function TrySteps(ups: seq<Server>, failed: Failures, start: nat, j: nat, env: nat -> Round): seq<Step>
    requires ups != [] && j <= |ups|
    decreases |ups| - j
  {
    if j == |ups| || env(j).cancelled then []
    else
      var up := ups[(start + j) % |ups|];
      var (f, ok) := Check(failed, up, env(j).checkNow);
      var check := CheckStep(up, env(j).checkNow);
      if !ok then [check] + TrySteps(ups, f, start, j + 1, env)
      else if env(j).reply.Some? then [check, HealStep(up)]
      else [check, FailStep(up, env(j).failNow)] + TrySteps(ups, Fail(f, up, env(j).failNow), start, j + 1, env)
  }

  /** One call of Resolve; `asks` is false when the cache or another caller's query serves it. */
  datatype Call = Call(clock: nat -> int, asks: bool, env: nat -> Round)

  function CallSteps(ups: seq<Server>, failed: Failures, q: Call): seq<Step>
    requires ups != []
  {
    var (f, up) := Select(ups, failed, 0, q.clock);
    SelectSteps(ups, failed, 0, q.clock)
    + (if q.asks then TrySteps(ups, f, IndexOf(ups, up, 0), 0, q.env) else [])
  }

  function RunSteps(ups: seq<Server>, failed: Failures, qs: seq<Call>): seq<Step>
    requires ups != []
    decreases qs
  {
    if qs == [] then []
    else
      var now := CallSteps(ups, failed, qs[0]);
      now + RunSteps(ups, After(failed, now), qs[1..])
  }

  lemma {:induction false} AfterAppend(failed: Failures, a: seq<Step>, b: seq<Step>)
    ensures After(failed, a + b) == After(After(failed, a), b)
    decreases a
  {
    if a == [] {
      assert a + b == b;
    } else {
      assert (a + b)[1..] == a[1..] + b;
      AfterAppend(Apply(failed, a[0]), a[1..], b);
    }
  }

  lemma SequentialAppend(failed: Failures, a: seq<Step>, b: seq<Step>)
    requires Sequential(failed, a) && Sequential(After(failed, a), b)
    ensures Sequential(failed, a + b)
  {
    var s := a + b;
    forall i | 0 <= i < |s| && s[i].HealStep? ensures HealsAfterCheck(failed, s, i) {
      if i < |a| {
        assert HealsAfterCheck(failed, a, i);
        assert s[..i - 1] == a[..i - 1];
      } else {
        assert HealsAfterCheck(After(failed, a), b, i - |a|);
        assert s[..i - 1] == a + b[..i - |a| - 1];
        AfterAppend(failed, a, b[..i - |a| - 1]);
      }
    }
  }

  lemma NoHeals(failed: Failures, s: Step)
    requires !s.HealStep?
    ensures Sequential(failed, [s]) && After(failed, [s]) == Apply(failed, s)
  {
    assert [s][1..] == [];
  }

  lemma {:induction false} SelectIsSteps(ups: seq<Server>, failed: Failures, i: nat, clock: nat -> int)
    requires ups != [] && i <= |ups|
    ensures Sequential(failed, SelectSteps(ups, failed, i, clock))
    ensures After(failed, SelectSteps(ups, failed, i, clock)) == Select(ups, failed, i, clock).0
    decreases |ups| - i
  {
    hide Sequential, After;
    if i == |ups| {
      NoHeals(failed, ClearStep);
    } else {
      var s := CheckStep(ups[i], clock(i));
      var (f, ok) := Check(failed, ups[i], clock(i));
      NoHeals(failed, s);
      if ok {
        assert [s] + [] == [s];
      } else {
        SelectIsSteps(ups, f, i + 1, clock);
        SequentialAppend(failed, [s], SelectSteps(ups, f, i + 1, clock));
        AfterAppend(failed, [s], SelectSteps(ups, f, i + 1, clock));
      }
    }
  }

  lemma AfterTwo(failed: Failures, a: Step, b: Step)
    ensures After(failed, [a, b]) == Apply(Apply(failed, a), b)
  {
    hide Apply;
    assert [a, b] == [a] + [b];
    AfterAppend(failed, [a], [b]);
    assert [a][1..] == [] && [b][1..] == [];
  }

  lemma CheckedHeal(failed: Failures, up: Server, now: int)
    requires Check(failed, up, now).1
    ensures Sequential(failed, [CheckStep(up, now), HealStep(up)])
    ensures After(failed, [CheckStep(up, now), HealStep(up)]) == Check(failed, up, now).0 - {up}
  {
    var s := [CheckStep(up, now), HealStep(up)];
    assert s[..0] == [];
    assert HealsAfterCheck(failed, s, 1);
    AfterTwo(failed, s[0], s[1]);
  }

  lemma CheckedFail(failed: Failures, up: Server, now: int, failNow: int)
    ensures Sequential(failed, [CheckStep(up, now), FailStep(up, failNow)])
    ensures After(failed, [CheckStep(up, now), FailStep(up, failNow)]) == Fail(Check(failed, up, now).0, up, failNow)
  {
    AfterTwo(failed, CheckStep(up, now), FailStep(up, failNow));
  }

  lemma {:induction false} TryIsSteps(ups: seq<Server>, failed: Failures, start: nat, j: nat, erred: bool,
                                      env: nat -> Round)
    requires ups != [] && j <= |ups|
    ensures Sequential(failed, TrySteps(ups, failed, start, j, env))
    ensures After(failed, TrySteps(ups, failed, start, j, env)) == TryFrom(ups, failed, start, j, erred, env).0
    decreases |ups| - j
  {
    hide Sequential, After, Fail;
    if j == |ups| || env(j).cancelled {
      NothingDone(failed);
    } else {
      var up := ups[(start + j) % |ups|];
      var (f, ok) := Check(failed, up, env(j).checkNow);
      var check := CheckStep(up, env(j).checkNow);
      NoHeals(failed, check);
      if !ok {
        TryIsSteps(ups, f, start, j + 1, erred, env);
        SequentialAppend(failed, [check], TrySteps(ups, f, start, j + 1, env));
        AfterAppend(failed, [check], TrySteps(ups, f, start, j + 1, env));
      } else if env(j).reply.Some? {
        CheckedHeal(failed, up, env(j).checkNow);
      } else {
        var g := Fail(f, up, env(j).failNow);
        CheckedFail(failed, up, env(j).checkNow, env(j).failNow);
        TryIsSteps(ups, g, start, j + 1, true, env);
        SequentialAppend(failed, [check, FailStep(up, env(j).failNow)], TrySteps(ups, g, start, j + 1, env));
        AfterAppend(failed, [check, FailStep(up, env(j).failNow)], TrySteps(ups, g, start, j + 1, env));
      }
    }
  }

  lemma NothingDone(failed: Failures)
    ensures Sequential(failed, []) && After(failed, []) == failed
  {
  }

  /** Calls that run one after the other produce exactly such a sequence of steps. */
  lemma {:induction false} RunIsSequential(ups: seq<Server>, failed: Failures, qs: seq<Call>)
    requires ups != []
    ensures Sequential(failed, RunSteps(ups, failed, qs))
    decreases qs
  {
    hide Sequential, After, SelectSteps, TrySteps, Select;
    if qs == [] {
      NothingDone(failed);
    } else {
      var q := qs[0];
      var (f, up) := Select(ups, failed, 0, q.clock);
      var a := SelectSteps(ups, failed, 0, q.clock);
      var b := if q.asks then TrySteps(ups, f, IndexOf(ups, up, 0), 0, q.env) else [];
      SelectIsSteps(ups, failed, 0, q.clock);
      if q.asks { TryIsSteps(ups, f, IndexOf(ups, up, 0), 0, false, q.env); } else { NothingDone(f); }
      SequentialAppend(failed, a, b);
      var rest := RunSteps(ups, After(failed, a + b), qs[1..]);
      RunIsSequential(ups, After(failed, a + b), qs[1..]);
      SequentialAppend(failed, a + b, rest);
    }
  }

  lemma {:induction false} TimelySuffix(steps: seq<Step>, n: nat, t: int)
    requires n < |steps| && Timely(steps, t) && steps[n].FailStep?
    ensures Timely(steps[n + 1..], steps[n].now)
    decreases n
  {
    if n > 0 {
      TimelySuffix(steps[1..], n - 1, if steps[0].CheckStep? || steps[0].FailStep? then steps[0].now else t);
      assert steps[n + 1..] == steps[1..][n..];
    }
  }

  lemma SequentialMiddle(failed: Failures, steps: seq<Step>, i: nat, j: nat)
    requires i < j <= |steps| && Sequential(failed, steps) && steps[i].FailStep?
    ensures Sequential(After(failed, steps[..i + 1]), steps[i + 1..j])
  {
    var before, mid := steps[..i + 1], steps[i + 1..j];
    forall k | 0 <= k < |mid| && mid[k].HealStep? ensures HealsAfterCheck(After(failed, before), mid, k) {
      assert HealsAfterCheck(failed, steps, i + 1 + k);
      assert steps[..i + k] == before + mid[..k - 1];
      AfterAppend(failed, before, mid[..k - 1]);
    }
  }

  /** In every run of calls one after the other, from any failure table: after a recorded failure
      at step `i`, a check at step `j` within the hour lets the upstream through only if the whole
      table was cleared in between. */
  lemma RunNoEarlyRetry(ups: seq<Server>, failed: Failures, qs: seq<Call>, t: int, i: nat, j: nat)
    requires ups != [] && Timely(RunSteps(ups, failed, qs), t)
    requires i < j < |RunSteps(ups, failed, qs)|
    requires var steps := RunSteps(ups, failed, qs);
             && steps[i].FailStep? && steps[i].up !in After(failed, steps[..i])
             && steps[j].CheckStep? && steps[j].up == steps[i].up
             && Check(After(failed, steps[..j]), steps[j].up, steps[j].now).1
             && steps[j].now - steps[i].now < RECOVERY
    ensures exists k :: i < k < j && RunSteps(ups, failed, qs)[k].ClearStep?
  {
    hide RunSteps, Check, Sequential, Timely, Fail;
    var steps := RunSteps(ups, failed, qs);
    var up := steps[i].up;
    RunIsSequential(ups, failed, qs);
    SequentialMiddle(failed, steps, i, j);
    var before, mid := After(failed, steps[..i]), steps[i + 1..j];
    StepAfter(failed, steps, i);
    assert steps[..i + 1] + mid == steps[..j];
    AfterAppend(failed, steps[..i + 1], mid);
    TimelySuffix(steps, i, t);
    TimelyPrefix(steps[i + 1..], j - i, steps[i].now);
    assert steps[i + 1..][..j - i] == mid + [steps[j]];
    NoEarlyRetrySequential(before, up, steps[i].now, mid, steps[j].now);
    var k :| 0 <= k < |mid| && mid[k] == ClearStep;
    assert steps[i + 1 + k] == mid[k];
  }

  lemma StepAfter(failed: Failures, steps: seq<Step>, i: nat)
    requires i < |steps|
    ensures After(failed, steps[..i + 1]) == Apply(After(failed, steps[..i]), steps[i])
  {
    assert steps[..i + 1] == steps[..i] + [steps[i]];
    AfterAppend(failed, steps[..i], [steps[i]]);
    assert [steps[i]][1..] == [];
  }

  // ---------------------------------------------------------------- the code

  class UpstreamHealth {
    const upstreams: seq<Server>
    var upstreamFailedAt: Failures

    constructor (configured: seq<Server>)
      ensures upstreams == if configured == [] then ["8.8.8.8"]
                           else if |configured| > 3 then configured[..3] else configured
      ensures upstreamFailedAt == map[]
    {
      upstreams := if configured == [] then ["8.8.8.8"] else if |configured| > 3 then configured[..3] else configured;
      upstreamFailedAt := map[];
    }

    method CanTryUpstream(up: Server, now: int) returns (ok: bool)
      modifies this
      ensures (upstreamFailedAt, ok) == Check(old(upstreamFailedAt), up, now)
    {
      if up !in upstreamFailedAt { return true; }
      var failedAt := upstreamFailedAt[up];
      if now - failedAt >= RECOVERY {
        upstreamFailedAt := upstreamFailedAt - {up};
        return true;
      }
      return false;
    }

    method SelectUpstream(clock: nat -> int) returns (up: Server)
      requires upstreams != []
      modifies this
      ensures (upstreamFailedAt, up) == Select(upstreams, old(upstreamFailedAt), 0, clock)
      ensures up in upstreams && up !in upstreamFailedAt
    {
      SelectedIsEligible(upstreams, upstreamFailedAt, 0, clock);
      for i := 0 to |upstreams|
        invariant Select(upstreams, upstreamFailedAt, i, clock) == Select(upstreams, old(upstreamFailedAt), 0, clock)
      {
        var ok := CanTryUpstream(upstreams[i], clock(i));
        if ok { return upstreams[i]; }
      }
      upstreamFailedAt := map[];
      return upstreams[0];
    }

    method MarkFailed(up: Server, now: int)
      modifies this
      ensures upstreamFailedAt == Fail(old(upstreamFailedAt), up, now)
    {
      if up !in upstreamFailedAt {
        upstreamFailedAt := upstreamFailedAt[up := now];
      }
    }

    method MarkHealthy(up: Server)
      modifies this
      ensures upstreamFailedAt == old(upstreamFailedAt) - {up}
    {
      upstreamFailedAt := upstreamFailedAt - {up};
    }

    method FindUpstreamIndex(up: Server) returns (i: nat)
      ensures i == IndexOf(upstreams, up, 0)
    {
      for k := 0 to |upstreams|
        invariant IndexOf(upstreams, up, 0) == IndexOf(upstreams, up, k)
      {
        if upstreams[k] == up { return k; }
      }
      return 0;
    }

    /** The failover loop of queryAndCache, up to the first reply. */
    method QueryUpstreams(keyUp: Server, env: nat -> Round) returns (end: Outcome, ghost tried: seq<nat>)
      requires upstreams != []
      modifies this
      ensures (upstreamFailedAt, end, tried)
           == TryFrom(upstreams, old(upstreamFailedAt), IndexOf(upstreams, keyUp, 0), 0, false, env)
    {
      hide Check, Fail, IndexOf;
      var start := FindUpstreamIndex(keyUp);
      var lastErr := false;
      tried := [];
      ghost var whole := TryFrom(upstreams, upstreamFailedAt, start, 0, false, env);
      assert [] + whole.2 == whole.2;
      for j := 0 to |upstreams|
        invariant var (f, e, more) := TryFrom(upstreams, upstreamFailedAt, start, j, lastErr, env);
                  whole == (f, e, tried + more)
      {
        assert tried + [] == tried;
        if env(j).cancelled { return Cancelled, tried; }
        var u := upstreams[(start + j) % |upstreams|];
        var ok := CanTryUpstream(u, env(j).checkNow);
        if !ok { continue; }
        if env(j).reply.None? {
          lastErr := true;
          MarkFailed(u, env(j).failNow);
          ghost var more := TryFrom(upstreams, upstreamFailedAt, start, j + 1, true, env).2;
          assert tried + ([j] + more) == (tried + [j]) + more;
          tried := tried + [j];
          continue;
        }
        MarkHealthy(u);
        return Replied(env(j).reply.value), tried + [j];
      }
      end := if lastErr then LastError else NoUpstreams;
      assert tried + [] == tried;
    }
  }
}
