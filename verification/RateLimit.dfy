/** Token-bucket admission: internal/server/rate_limit.go. Clock readings and durations are real
    seconds; `now` is the reading taken by the call. */
module RateLimit {

  type Key = string

  /** Where time.Time.Sub saturates: the age of a key that was never seen. */
  const MAX_DURATION: real := 9223372036.854775807

  datatype Config = Config(rate: real, burst: int, interval: real, maxEntries: nat) {
    predicate Enabled() { rate > 0.0 && burst > 0 }

    /** What the constructor guarantees. */
    predicate WellFormed() { 0.0 < interval <= MAX_DURATION && maxEntries > 0 }

    /** An idle bucket is full again before it can be forgotten. */
    predicate RefillsBeforeCleanup() { rate * interval >= burst as real }
  }

  datatype Bucket = Bucket(last: real, tokens: real)

  datatype Limiter = Limiter(buckets: map<Key, Bucket>, lastCleanup: real)

  function Min(a: real, b: real): real { if a < b then a else b }

  // ---------------------------------------------------------------- one request

  /** cleanupLocked: only keys used within the last interval stay. */
  function Recent(m: map<Key, Bucket>, now: real, interval: real): map<Key, Bucket> {
    map k | k in m && m[k].last > now - interval :: m[k]
  }

  function Cleaned(c: Config, s: Limiter, now: real): Limiter {
    Limiter(Recent(s.buckets, now, c.interval), now)
  }

  /** The tokens of `key` at `now`; a missing key reads as an empty bucket of infinite age. */
  function Refilled(c: Config, m: map<Key, Bucket>, key: Key, now: real): real {
    var elapsed := if key in m then now - m[key].last else MAX_DURATION;
    var tokens := if key in m then m[key].tokens else 0.0;
    if elapsed > 0.0 then Min(c.burst as real, tokens + elapsed * c.rate) else tokens
  }

  function Spend(m: map<Key, Bucket>, key: Key, now: real, have: real): (map<Key, Bucket>, bool) {
    if have >= 1.0 then (m[key := Bucket(now, have - 1.0)], true)
    else (m[key := Bucket(now, have)], false)
  }

  /** The periodic cleanup in front of every request. */
  function Tidied(c: Config, s: Limiter, now: real): Limiter {
    if now - s.lastCleanup > c.interval then Cleaned(c, s, now) else s
  }

  function AllowStep(c: Config, s: Limiter, key: Key, now: real): (Limiter, bool) {
    if !c.Enabled() then (s, true)
    else
      var s1 := Tidied(c, s, now);
      if key !in s1.buckets && |s1.buckets| >= c.maxEntries then
        var s2 := Cleaned(c, s1, now);
        if |s2.buckets| >= c.maxEntries then (s2, false)
        else (s2.(buckets := s2.buckets[key := Bucket(now, c.burst as real - 1.0)]), true)
      else
        var (m, ok) := Spend(s1.buckets, key, now, Refilled(c, s1.buckets, key, now));
        (s1.(buckets := m), ok)
  }

  // ---------------------------------------------------------------- what every request keeps

  predicate BucketOk(c: Config, b: Bucket, t: real) {
    0.0 <= b.tokens <= c.burst as real && b.last <= t
  }

  /** At time `t`: token counts within bounds, nothing from the future, no more keys than allowed. */
  predicate Inv(c: Config, s: Limiter, t: real) {
    (forall k :: k in s.buckets ==> BucketOk(c, s.buckets[k], t)) && |s.buckets| <= c.maxEntries
  }

  lemma RecentSize(m: map<Key, Bucket>, now: real, interval: real)
    ensures |Recent(m, now, interval)| <= |m|
  {
    var r := Recent(m, now, interval);
    assert r.Keys <= m.Keys;
    SubsetSize(r.Keys, m.Keys);
  }

  lemma {:induction false} SubsetSize(a: set<Key>, b: set<Key>)
    requires a <= b
    ensures |a| <= |b|
  {
    assert b == a + (b - a);
  }

  lemma Product(x: real, y: real)
    requires x >= 0.0 && y >= 0.0
    ensures x * y >= 0.0
  {
  }

  lemma MulLe(a: real, b: real, r: real)
    requires a <= b && r >= 0.0
    ensures a * r <= b * r
  {
    Product(b - a, r);
    assert (b - a) * r == b * r - a * r;
  }

  lemma RefillBounds(c: Config, m: map<Key, Bucket>, key: Key, now: real)
    requires c.Enabled() && c.WellFormed()
    requires key in m ==> BucketOk(c, m[key], now)
    ensures 0.0 <= Refilled(c, m, key, now) <= c.burst as real
  {
    var elapsed := if key in m then now - m[key].last else MAX_DURATION;
    Product(elapsed, c.rate);
  }

  lemma AllowKeepsInv(c: Config, s: Limiter, t: real, key: Key, now: real)
    requires c.WellFormed() && Inv(c, s, t) && t <= now
    ensures Inv(c, AllowStep(c, s, key, now).0, now)
  {
    hide Refilled, Recent;
    if c.Enabled() {
      RecentSize(s.buckets, now, c.interval);
      RecentOk(c, s.buckets, t, now);
      var s1 := Tidied(c, s, now);
      RecentSize(s1.buckets, now, c.interval);
      RecentOk(c, s1.buckets, now, now);
      RefillBounds(c, s1.buckets, key, now);
      var have := Refilled(c, s1.buckets, key, now);
      PutSize(s1.buckets, key, Bucket(now, have));
      PutSize(s1.buckets, key, Bucket(now, have - 1.0));
      PutSize(Cleaned(c, s1, now).buckets, key, Bucket(now, c.burst as real - 1.0));
    }
  }

  lemma RecentOk(c: Config, m: map<Key, Bucket>, t: real, now: real)
    requires (forall k :: k in m ==> BucketOk(c, m[k], t)) && t <= now
    ensures forall k :: k in Recent(m, now, c.interval) ==> BucketOk(c, Recent(m, now, c.interval)[k], now)
  {
  }

  lemma PutSize(m: map<Key, Bucket>, key: Key, b: Bucket)
    ensures |m[key := b]| == |m| + if key in m then 0 else 1
  {
    assert m[key := b].Keys == m.Keys + {key};
    if key in m { assert m.Keys + {key} == m.Keys; }
  }

  // ---------------------------------------------------------------- forgetting is invisible

  /** A limiter that keeps every key for ever. */
  function RememberStep(c: Config, book: map<Key, Bucket>, key: Key, now: real): (map<Key, Bucket>, bool) {
    if !c.Enabled() then (book, true) else Spend(book, key, now, Refilled(c, book, key, now))
  }

  datatype Request = Request(key: Key, now: real)

  predicate Ordered(rs: seq<Request>, t: real) {
    rs == [] || (t <= rs[0].now && Ordered(rs[1..], rs[0].now))
  }

  function Decisions(c: Config, s: Limiter, rs: seq<Request>): (ds: seq<bool>)
    ensures |ds| == |rs|
    decreases rs
  {
    if rs == [] then []
    else
      var (s', ok) := AllowStep(c, s, rs[0].key, rs[0].now);
      [ok] + Decisions(c, s', rs[1..])
  }

  function RememberedDecisions(c: Config, book: map<Key, Bucket>, rs: seq<Request>): seq<bool>
    decreases rs
  {
    if rs == [] then []
    else
      var (b, ok) := RememberStep(c, book, rs[0].key, rs[0].now);
      [ok] + RememberedDecisions(c, b, rs[1..])
  }

  function KeysOf(rs: seq<Request>): set<Key> {
    if rs == [] then {} else {rs[0].key} + KeysOf(rs[1..])
  }

  /** The limiter remembers what the book says, and has only forgotten idle keys. */
  predicate Remembers(c: Config, s: Limiter, book: map<Key, Bucket>, t: real) {
    && (forall k :: k in s.buckets ==> k in book && s.buckets[k] == book[k])
    && (forall k :: k in book ==> BucketOk(c, book[k], t))
    && (forall k :: k in book && k !in s.buckets ==> book[k].last <= t - c.interval)
  }

  /** A bucket left alone for an interval is full, just as a new one. */
  lemma FullAgain(c: Config, m: map<Key, Bucket>, key: Key, now: real)
    requires c.Enabled() && c.WellFormed() && c.RefillsBeforeCleanup()
    requires key in m ==> m[key].tokens >= 0.0 && m[key].last <= now - c.interval
    ensures Refilled(c, m, key, now) == c.burst as real
  {
    var elapsed := if key in m then now - m[key].last else MAX_DURATION;
    MulLe(c.interval, elapsed, c.rate);
  }

  lemma RecentRemembers(c: Config, s: Limiter, book: map<Key, Bucket>, t: real, now: real)
    requires Remembers(c, s, book, t) && t <= now
    ensures Remembers(c, Cleaned(c, s, now), book, now) && Remembers(c, s, book, now)
  {
  }

  lemma SameStep(c: Config, s: Limiter, book: map<Key, Bucket>, t: real, key: Key, now: real)
    requires c.Enabled() && c.WellFormed() && c.RefillsBeforeCleanup()
    requires Remembers(c, s, book, t) && t <= now
    requires |book.Keys + {key}| <= c.maxEntries
    ensures AllowStep(c, s, key, now).1 == RememberStep(c, book, key, now).1
    ensures Remembers(c, AllowStep(c, s, key, now).0, RememberStep(c, book, key, now).0, now)
    ensures RememberStep(c, book, key, now).0.Keys == book.Keys + {key}
  {
    hide Refilled, Recent, Remembers, Spend, Cleaned;
    RecentRemembers(c, s, book, t, now);
    var s1 := Tidied(c, s, now);
    SameSpend(c, s1, book, key, now);
  }

  lemma SameSpend(c: Config, s: Limiter, book: map<Key, Bucket>, key: Key, now: real)
    requires c.Enabled() && c.WellFormed() && c.RefillsBeforeCleanup() && Remembers(c, s, book, now)
    requires |book.Keys + {key}| <= c.maxEntries
    ensures key in s.buckets || |s.buckets| < c.maxEntries
    ensures var (m, ok) := Spend(s.buckets, key, now, Refilled(c, s.buckets, key, now));
            var (b, ok') := Spend(book, key, now, Refilled(c, book, key, now));
            ok == ok' && Remembers(c, s.(buckets := m), b, now) && b.Keys == book.Keys + {key}
  {
    hide Refilled, Remembers;
    RememberedFacts(c, s, book, now);
    RoomLeft(c, s.buckets, book, key);
    SameRefill(c, s.buckets, book, key, now);
    RefillBounds(c, book, key, now);
    var have := Refilled(c, book, key, now);
    PutRemembers(c, s, book, key, Bucket(now, if have >= 1.0 then have - 1.0 else have), now);
  }

  lemma RememberedFacts(c: Config, s: Limiter, book: map<Key, Bucket>, t: real)
    requires Remembers(c, s, book, t)
    ensures forall k :: k in s.buckets ==> k in book && s.buckets[k] == book[k]
    ensures forall k :: k in book ==> BucketOk(c, book[k], t)
    ensures forall k :: k in book && k !in s.buckets ==> book[k].last <= t - c.interval
  {
  }

  lemma PutRemembers(c: Config, s: Limiter, book: map<Key, Bucket>, key: Key, b: Bucket, t: real)
    requires Remembers(c, s, book, t) && BucketOk(c, b, t)
    ensures Remembers(c, s.(buckets := s.buckets[key := b]), book[key := b], t)
    ensures book[key := b].Keys == book.Keys + {key}
  {
  }

  /** With few enough keys the capacity branch is never taken. */
  lemma RoomLeft(c: Config, m: map<Key, Bucket>, book: map<Key, Bucket>, key: Key)
    requires forall k :: k in m ==> k in book
    requires |book.Keys + {key}| <= c.maxEntries
    ensures key !in m ==> |m| < c.maxEntries
  {
    if key !in m {
      assert m.Keys + {key} <= book.Keys + {key};
      SubsetSize(m.Keys + {key}, book.Keys + {key});
      assert |m| == |m.Keys|;
    }
  }

  lemma SameRefill(c: Config, m: map<Key, Bucket>, book: map<Key, Bucket>, key: Key, now: real)
    requires c.Enabled() && c.WellFormed() && c.RefillsBeforeCleanup()
    requires forall k :: k in m ==> k in book && m[k] == book[k]
    requires forall k :: k in book ==> BucketOk(c, book[k], now)
    requires forall k :: k in book && k !in m ==> book[k].last <= now - c.interval
    ensures Refilled(c, m, key, now) == Refilled(c, book, key, now)
  {
    if key !in m {
      FullAgain(c, m, key, now);
      FullAgain(c, book, key, now);
    }
  }

  /** Forgetting is invisible: when idle buckets refill before they are dropped and there is room
      for every key of the run, every decision of every run is the one of a limiter that never
      forgets. */
  lemma {:induction false} ForgettingInvisible(c: Config, s: Limiter, book: map<Key, Bucket>, t: real, rs: seq<Request>)
    requires c.WellFormed() && (c.Enabled() ==> c.RefillsBeforeCleanup())
    requires Remembers(c, s, book, t) && Ordered(rs, t)
    requires |book.Keys + KeysOf(rs)| <= c.maxEntries
    ensures Decisions(c, s, rs) == RememberedDecisions(c, book, rs)
    decreases rs
  {
    hide Refilled, AllowStep, RememberStep, Remembers;
    if rs != [] {
      var key, now := rs[0].key, rs[0].now;
      if c.Enabled() {
        SubsetSize(book.Keys + {key}, book.Keys + KeysOf(rs));
        SameStep(c, s, book, t, key, now);
        assert book.Keys + {key} + KeysOf(rs[1..]) == book.Keys + KeysOf(rs);
        ForgettingInvisible(c, AllowStep(c, s, key, now).0, RememberStep(c, book, key, now).0, now, rs[1..]);
      } else {
        DisabledSteps(c, s, book, t, key, now);
        SubsetSize(book.Keys + KeysOf(rs[1..]), book.Keys + KeysOf(rs));
        ForgettingInvisible(c, s, book, now, rs[1..]);
      }
    }
  }

  lemma DisabledSteps(c: Config, s: Limiter, book: map<Key, Bucket>, t: real, key: Key, now: real)
    requires !c.Enabled() && Remembers(c, s, book, t) && t <= now
    ensures AllowStep(c, s, key, now) == (s, true) && RememberStep(c, book, key, now) == (book, true)
    ensures Remembers(c, s, book, now)
  {
  }

  // ---------------------------------------------------------------- the rate bound

  /** Tokens `key` could spend at `t`; a key without a bucket could spend a full one. */
  function Level(c: Config, s: Limiter, key: Key, t: real): real {
    if key in s.buckets then BucketLevel(c, s.buckets[key], t) else c.burst as real
  }

  function BucketLevel(c: Config, b: Bucket, t: real): real {
    Min(c.burst as real, b.tokens + c.rate * (t - b.last))
  }

  function Admitted(ds: seq<bool>, rs: seq<Request>, key: Key): nat
    requires |ds| == |rs|
  {
    if rs == [] then 0
    else (if ds[0] && rs[0].key == key then 1 else 0) + Admitted(ds[1..], rs[1..], key)
  }

  /** Tokens earned over a stretch of time. */
  function Earned(rate: real, seconds: real): real { rate * seconds }

  /** Waiting earns at most `rate` per second. */
  lemma LevelLater(c: Config, s: Limiter, key: Key, t: real, now: real)
    requires c.Enabled() && t <= now
    ensures Level(c, s, key, now) <= Level(c, s, key, t) + Earned(c.rate, now - t)
  {
    Product(c.rate, now - t);
    if key in s.buckets {
      var b := s.buckets[key];
      assert c.rate * (now - b.last) == c.rate * (t - b.last) + c.rate * (now - t);
    }
  }

  /** Dropping idle keys never raises a level. */
  lemma LevelCleaned(c: Config, s: Limiter, key: Key, now: real)
    requires c.Enabled() && c.WellFormed() && c.RefillsBeforeCleanup() && Inv(c, s, now)
    ensures Level(c, Cleaned(c, s, now), key, now) == Level(c, s, key, now)
  {
    if key in s.buckets && s.buckets[key].last <= now - c.interval {
      MulLe(c.interval, now - s.buckets[key].last, c.rate);
    }
  }

  lemma LevelIsRefill(c: Config, s: Limiter, key: Key, now: real)
    requires c.Enabled() && c.WellFormed() && c.RefillsBeforeCleanup() && Inv(c, s, now)
    ensures Level(c, s, key, now) == Refilled(c, s.buckets, key, now)
  {
    if key !in s.buckets {
      FullAgain(c, s.buckets, key, now);
    }
  }

  /** Token conservation over one request: what is spent was there or was earned since `t`. */
  lemma RequestConserves(c: Config, s: Limiter, t: real, r: Request, key: Key)
    requires c.Enabled() && c.WellFormed() && c.RefillsBeforeCleanup() && Inv(c, s, t) && t <= r.now
    ensures var (s', ok) := AllowStep(c, s, r.key, r.now);
            Level(c, s', key, r.now) + (if ok && r.key == key then 1.0 else 0.0)
            <= Level(c, s, key, t) + Earned(c.rate, r.now - t)
  {
    hide Refilled, Recent, Level, Inv, Earned;
    LevelLater(c, s, key, t, r.now);
    InvLater(c, s, t, r.now);
    LevelCleaned(c, s, key, r.now);
    var s1 := Tidied(c, s, r.now);
    CleanedInv(c, s, r.now);
    CleanedInv(c, s1, r.now);
    LevelCleaned(c, s1, key, r.now);
    LevelIsRefill(c, s1, r.key, r.now);
    LevelAtMost(c, s1, r.key, r.now);
    LevelAfterPut(c, s1, r.key, Refilled(c, s1.buckets, r.key, r.now), r.now, key);
    LevelMissing(c, Cleaned(c, s1, r.now), r.key, r.now, key);
  }

  lemma InvLater(c: Config, s: Limiter, t: real, now: real)
    requires Inv(c, s, t) && t <= now
    ensures Inv(c, s, now)
  {
  }

  lemma CleanedInv(c: Config, s: Limiter, now: real)
    requires Inv(c, s, now)
    ensures Inv(c, Cleaned(c, s, now), now)
    ensures forall k :: k in Cleaned(c, s, now).buckets ==> k in s.buckets
  {
    RecentSize(s.buckets, now, c.interval);
  }

  lemma LevelNow(c: Config, tokens: real, now: real)
    requires tokens <= c.burst as real
    ensures BucketLevel(c, Bucket(now, tokens), now) == tokens
  {
    assert c.rate * (now - now) == 0.0;
  }

  /** Levels after a bucket was written at `now`. */
  lemma LevelAfterPut(c: Config, s: Limiter, k: Key, have: real, now: real, key: Key)
    requires have <= c.burst as real
    ensures var (m, ok) := Spend(s.buckets, k, now, have);
            var s' := s.(buckets := m);
            && (k != key ==> Level(c, s', key, now) == Level(c, s, key, now))
            && (k == key ==> Level(c, s', key, now) + (if ok then 1.0 else 0.0) == have)
  {
    hide BucketLevel;
    LevelNow(c, have, now);
    LevelNow(c, have - 1.0, now);
  }

  lemma LevelMissing(c: Config, s: Limiter, k: Key, now: real, key: Key)
    ensures var s' := s.(buckets := s.buckets[k := Bucket(now, c.burst as real - 1.0)]);
            && (k != key ==> Level(c, s', key, now) == Level(c, s, key, now))
            && (k == key ==> Level(c, s', key, now) + 1.0 == c.burst as real)
    ensures key !in s.buckets ==> Level(c, s, key, now) == c.burst as real
  {
    hide BucketLevel;
    LevelNow(c, c.burst as real - 1.0, now);
  }

  lemma LevelAtMost(c: Config, s: Limiter, key: Key, t: real)
    ensures Level(c, s, key, t) <= c.burst as real
  {
  }

  lemma BucketAtLeast(c: Config, b: Bucket, t: real)
    requires c.Enabled() && BucketOk(c, b, t)
    ensures BucketLevel(c, b, t) >= 0.0
  {
    var earned := c.rate * (t - b.last);
    assert earned >= 0.0 by { Product(c.rate, t - b.last); }
    assert BucketLevel(c, b, t) == Min(c.burst as real, b.tokens + earned);
  }

  lemma LevelAtLeast(c: Config, s: Limiter, key: Key, t: real)
    requires c.Enabled() && Inv(c, s, t)
    ensures Level(c, s, key, t) >= 0.0
  {
    hide BucketLevel;
    if key in s.buckets {
      BucketAtLeast(c, s.buckets[key], t);
    }
  }

  lemma EarnedNothing(rate: real, t: real)
    ensures Earned(rate, t - t) == 0.0
  {
  }

  /** Two stretches of a run, one after the other. */
  lemma Telescope(start: real, mid: real, spent: real, more: real, rate: real, t: real, now: real, end: real)
    requires mid + spent <= start + Earned(rate, now - t)
    requires more <= mid + Earned(rate, end - now)
    ensures spent + more <= start + Earned(rate, end - t)
  {
    assert rate * (end - t) == rate * (end - now) + rate * (now - t);
  }

  function LastTime(rs: seq<Request>, t: real): real {
    if rs == [] then t else rs[|rs| - 1].now
  }

  /** Over any run from any reachable state, the requests admitted for one key are paid for by
      its level at the start and what it earns until the last request. */
  lemma {:induction false} RunConserves(c: Config, s: Limiter, t: real, rs: seq<Request>, key: Key)
    requires c.Enabled() && c.WellFormed() && c.RefillsBeforeCleanup() && Inv(c, s, t) && Ordered(rs, t)
    ensures Admitted(Decisions(c, s, rs), rs, key) as real <= Level(c, s, key, t) + Earned(c.rate, LastTime(rs, t) - t)
    decreases rs
  {
    hide AllowStep, Level, Inv, Earned;
    if rs == [] {
      LevelAtLeast(c, s, key, t);
      EarnedNothing(c.rate, t);
    } else {
      var now, end := rs[0].now, LastTime(rs, t);
      RequestConserves(c, s, t, rs[0], key);
      AllowKeepsInv(c, s, t, rs[0].key, now);
      RunConserves(c, AllowStep(c, s, rs[0].key, now).0, now, rs[1..], key);
      assert LastTime(rs[1..], now) == end;
      var (s', ok) := AllowStep(c, s, rs[0].key, now);
      assert Decisions(c, s, rs)[1..] == Decisions(c, s', rs[1..]);
      Telescope(Level(c, s, key, t), Level(c, s', key, now), if ok && rs[0].key == key then 1.0 else 0.0,
                Admitted(Decisions(c, s', rs[1..]), rs[1..], key) as real, c.rate, t, now, end);
    }
  }

  // ---------------------------------------------------------------- when the bound fails

  function Repeat(r: Request, n: nat): (rs: seq<Request>)
    ensures |rs| == n && forall i :: 0 <= i < n ==> rs[i] == r
  {
    if n == 0 then [] else [r] + Repeat(r, n - 1)
  }

  function Admits(n: nat): (ds: seq<bool>)
    ensures |ds| == n
  {
    if n == 0 then [] else [true] + Admits(n - 1)
  }

  lemma {:induction false} AdmitsTwice(n: nat, m: nat)
    ensures Admits(n) + Admits(m) == Admits(n + m)
  {
    if n > 0 { AdmitsTwice(n - 1, m); }
  }

  /** One admitted request in front of a run of admitted ones. */
  lemma OneMore(c: Config, s: Limiter, r: Request, n: nat, rest: seq<Request>, s': Limiter, tail: seq<bool>)
    requires n > 0 && AllowStep(c, s, r.key, r.now) == (s', true)
    requires Decisions(c, s', Repeat(r, n - 1) + rest) == Admits(n - 1) + tail
    ensures Decisions(c, s, Repeat(r, n) + rest) == Admits(n) + tail
  {
    hide AllowStep;
    var rs := Repeat(r, n) + rest;
    assert rs[0] == r && rs[1..] == Repeat(r, n - 1) + rest;
    assert [true] + (Admits(n - 1) + tail) == Admits(n) + tail;
  }

  /** A bucket with `n` tokens admits `n` simultaneous requests and is then empty. */
  lemma {:induction false} DrainsBucket(c: Config, s: Limiter, key: Key, now: real, n: nat, rest: seq<Request>)
    requires c.Enabled() && key in s.buckets && s.buckets[key] == Bucket(now, n as real)
    requires now - s.lastCleanup <= c.interval
    ensures var end := s.(buckets := s.buckets[key := Bucket(now, 0.0)]);
            Decisions(c, s, Repeat(Request(key, now), n) + rest) == Admits(n) + Decisions(c, end, rest)
    decreases n
  {
    hide AllowStep;
    var r := Request(key, now);
    if n == 0 {
      assert Repeat(r, 0) + rest == rest;
      assert s.buckets[key := Bucket(now, 0.0)] == s.buckets;
      assert Admits(0) + Decisions(c, s, rest) == Decisions(c, s, rest);
    } else {
      hide Decisions, Admits, Repeat;
      var s' := s.(buckets := s.buckets[key := Bucket(now, n as real - 1.0)]);
      DrainStep(c, s, key, now, n);
      DrainsBucket(c, s', key, now, n - 1, rest);
      assert s'.buckets[key := Bucket(now, 0.0)] == s.buckets[key := Bucket(now, 0.0)];
      OneMore(c, s, r, n, rest, s', Decisions(c, s.(buckets := s.buckets[key := Bucket(now, 0.0)]), rest));
    }
  }

  lemma DrainStep(c: Config, s: Limiter, key: Key, now: real, n: nat)
    requires n > 0 && c.Enabled() && key in s.buckets && s.buckets[key] == Bucket(now, n as real)
    requires now - s.lastCleanup <= c.interval
    ensures AllowStep(c, s, key, now) == (s.(buckets := s.buckets[key := Bucket(now, n as real - 1.0)]), true)
  {
  }

  lemma FreshAdmit(c: Config, s: Limiter, key: Key, now: real)
    requires c.Enabled() && c.rate * MAX_DURATION >= c.burst as real
    requires key !in Tidied(c, s, now).buckets && |Tidied(c, s, now).buckets| < c.maxEntries
    ensures var s1 := Tidied(c, s, now);
            AllowStep(c, s, key, now) == (s1.(buckets := s1.buckets[key := Bucket(now, c.burst as real - 1.0)]), true)
  {
    hide Tidied;
    assert MAX_DURATION * c.rate >= c.burst as real;
  }

  lemma TidiedRecently(c: Config, s: Limiter, now: real)
    requires c.WellFormed()
    ensures now - Tidied(c, s, now).lastCleanup <= c.interval
  {
    hide Recent;
  }

  /** A key without a bucket gets `burst` simultaneous requests through. */
  lemma FreshBurst(c: Config, s: Limiter, key: Key, now: real, rest: seq<Request>)
    requires c.Enabled() && c.WellFormed() && c.rate * MAX_DURATION >= c.burst as real
    requires key !in Tidied(c, s, now).buckets && |Tidied(c, s, now).buckets| < c.maxEntries
    ensures var s1 := Tidied(c, s, now);
            var end := s1.(buckets := s1.buckets[key := Bucket(now, 0.0)]);
            Decisions(c, s, Repeat(Request(key, now), c.burst) + rest) == Admits(c.burst) + Decisions(c, end, rest)
  {
    hide Tidied, AllowStep, Decisions, Admits, Repeat;
    var r, n, s1 := Request(key, now), c.burst, Tidied(c, s, now);
    var s' := s1.(buckets := s1.buckets[key := Bucket(now, n as real - 1.0)]);
    FreshAdmit(c, s, key, now);
    TidiedRecently(c, s, now);
    DrainsBucket(c, s', key, now, n - 1, rest);
    assert s'.buckets[key := Bucket(now, 0.0)] == s1.buckets[key := Bucket(now, 0.0)];
    OneMore(c, s, r, n, rest, s', Decisions(c, s1.(buckets := s1.buckets[key := Bucket(now, 0.0)]), rest));
  }

  lemma {:induction false} AllAdmitted(rs: seq<Request>, key: Key)
    requires forall i :: 0 <= i < |rs| ==> rs[i].key == key
    ensures Admitted(Admits(|rs|), rs, key) == |rs|
  {
    if rs != [] {
      AllAdmitted(rs[1..], key);
      assert Admits(|rs|)[1..] == Admits(|rs| - 1);
    }
  }

  lemma {:induction false} OrderedTwice(a: Request, n: nat, b: Request, m: nat, t: real)
    requires t <= a.now <= b.now
    ensures Ordered(Repeat(a, n) + Repeat(b, m), t)
    decreases n + m
  {
    var rs := Repeat(a, n) + Repeat(b, m);
    if n > 0 {
      assert rs[1..] == Repeat(a, n - 1) + Repeat(b, m);
      OrderedTwice(a, n - 1, b, m, a.now);
    } else if m > 0 {
      assert rs[1..] == Repeat(a, 0) + Repeat(b, m - 1);
      OrderedTwice(Request(a.key, b.now), 0, b, m - 1, b.now);
    }
  }

  /** `burst` requests at once, and as many again once the empty bucket has been forgotten. */
  lemma BurstTwice(c: Config, key: Key, later: real)
    requires c.Enabled() && c.WellFormed() && c.rate * MAX_DURATION >= c.burst as real && later > c.interval
    ensures Decisions(c, Limiter(map[], 0.0), Repeat(Request(key, 0.0), c.burst) + Repeat(Request(key, later), c.burst))
         == Admits(c.burst + c.burst)
  {
    hide AllowStep, Admits, Repeat;
    var n, b := c.burst, Request(key, later);
    var s0, s1 := Limiter(map[], 0.0), Limiter(map[key := Bucket(0.0, 0.0)], 0.0);
    var rest := Repeat(b, n);
    assert Tidied(c, s0, 0.0) == s0;
    FreshBurst(c, s0, key, 0.0, rest);
    assert s0.buckets[key := Bucket(0.0, 0.0)] == s1.buckets;
    assert Recent(s1.buckets, later, c.interval) == map[];
    FreshBurst(c, s1, key, later, []);
    assert rest + [] == rest;
    AdmitsTwice(n, n);
    assert Decisions(c, s1, rest) == Admits(n) + [] == Admits(n);
  }

  /** The condition of the rate bound is exact: for every other enabled configuration whose new
      buckets start full, forgetting an unfinished bucket lets a run exceed the bound. */
  lemma BoundBroken(c: Config, key: Key) returns (rs: seq<Request>)
    requires c.Enabled() && c.WellFormed() && c.rate * MAX_DURATION >= c.burst as real
    requires !c.RefillsBeforeCleanup()
    ensures rs != [] && Ordered(rs, 0.0) && rs[0].now == 0.0
    ensures Admitted(Decisions(c, Limiter(map[], 0.0), rs), rs, key) as real
          > c.burst as real + Earned(c.rate, LastTime(rs, 0.0))
  {
    hide AllowStep, Admits, Repeat, Decisions, Admitted, Earned, Ordered;
    var n := c.burst;
    var later := SlightlyAfter(c);
    var a, b := Request(key, 0.0), Request(key, later);
    rs := Repeat(a, n) + Repeat(b, n);
    BurstTwice(c, key, later);
    OrderedTwice(a, n, b, n, 0.0);
    AllAdmitted(rs, key);
  }

  /** A moment after the cleanup interval, with the bucket still not full. */
  lemma SlightlyAfter(c: Config) returns (later: real)
    requires c.Enabled() && c.WellFormed() && !c.RefillsBeforeCleanup()
    ensures later > c.interval && Earned(c.rate, later) < c.burst as real
  {
    var gap := (c.burst as real - c.rate * c.interval) / (2.0 * c.rate);
    later := c.interval + gap;
    assert c.rate * gap == (c.burst as real - c.rate * c.interval) / 2.0;
    assert c.rate * later == c.rate * c.interval + c.rate * gap;
  }

  // ---------------------------------------------------------------- every interval of time

  /** The requests admitted for `key` with a reading between `from` and `to`. */
  function AdmittedIn(ds: seq<bool>, rs: seq<Request>, key: Key, from: real, to: real): nat
    requires |ds| == |rs|
  {
    if rs == [] then 0
    else (if ds[0] && rs[0].key == key && from <= rs[0].now <= to then 1 else 0)
         + AdmittedIn(ds[1..], rs[1..], key, from, to)
  }

  lemma {:induction false} NoneAfter(ds: seq<bool>, rs: seq<Request>, key: Key, t: real, from: real, to: real)
    requires |ds| == |rs| && Ordered(rs, t) && to < t
    ensures AdmittedIn(ds, rs, key, from, to) == 0
    decreases rs
  {
    if rs != [] { NoneAfter(ds[1..], rs[1..], key, rs[0].now, from, to); }
  }

  lemma EarnedMore(c: Config, t: real, now: real)
    requires c.Enabled() && t <= now
    ensures Earned(c.rate, now - t) >= 0.0
  {
    Product(c.rate, now - t);
  }

  /** From a moment within the interval on. */
  lemma {:induction false} RestOfInterval(c: Config, s: Limiter, t: real, rs: seq<Request>, key: Key,
                                          from: real, to: real)
    requires c.Enabled() && c.WellFormed() && c.RefillsBeforeCleanup() && Inv(c, s, t) && Ordered(rs, t) && t <= to
    ensures AdmittedIn(Decisions(c, s, rs), rs, key, from, to) as real <= Level(c, s, key, t) + Earned(c.rate, to - t)
    decreases rs
  {
    hide AllowStep, Level, Inv, Earned;
    LevelAtLeast(c, s, key, t);
    EarnedMore(c, t, to);
    if rs != [] {
      var now := rs[0].now;
      var (s', ok) := AllowStep(c, s, rs[0].key, now);
      assert Decisions(c, s, rs)[1..] == Decisions(c, s', rs[1..]);
      if to < now {
        NoneAfter(Decisions(c, s', rs[1..]), rs[1..], key, now, from, to);
      } else {
        RequestConserves(c, s, t, rs[0], key);
        AllowKeepsInv(c, s, t, rs[0].key, now);
        RestOfInterval(c, s', now, rs[1..], key, from, to);
        Telescope(Level(c, s, key, t), Level(c, s', key, now), if ok && rs[0].key == key then 1.0 else 0.0,
                  AdmittedIn(Decisions(c, s', rs[1..]), rs[1..], key, from, to) as real, c.rate, t, now, to);
      }
    }
  }

  /** The rate bound of one limiter over its own lock order: in every interval of time of every run,
      at most burst + rate * length requests are admitted per key. */
  lemma {:induction false} IntervalBound(c: Config, s: Limiter, t: real, rs: seq<Request>, key: Key,
                                         from: real, to: real)
    requires c.Enabled() && c.WellFormed() && c.RefillsBeforeCleanup() && Inv(c, s, t) && Ordered(rs, t) && from <= to
    ensures AdmittedIn(Decisions(c, s, rs), rs, key, from, to) as real <= c.burst as real + Earned(c.rate, to - from)
    decreases rs
  {
    hide AllowStep, Level, Inv, Earned;
    EarnedMore(c, from, to);
    if rs != [] {
      var now := rs[0].now;
      if now < from {
        var (s', ok) := AllowStep(c, s, rs[0].key, now);
        AllowKeepsInv(c, s, t, rs[0].key, now);
        assert Decisions(c, s, rs)[1..] == Decisions(c, s', rs[1..]);
        IntervalBound(c, s', now, rs[1..], key, from, to);
      } else if now <= to {
        InvLater(c, s, t, now);
        RestOfInterval(c, s, now, rs, key, from, to);
        LevelAtMost(c, s, key, now);
        EarnedWithin(c, from, now, to);
      } else {
        NoneAfter(Decisions(c, s, rs), rs, key, now, from, to);
      }
    }
  }

  lemma EarnedWithin(c: Config, from: real, now: real, to: real)
    requires c.Enabled() && from <= now
    ensures Earned(c.rate, to - now) <= Earned(c.rate, to - from)
  {
    MulLe(to - now, to - from, c.rate);
  }

  // ---------------------------------------------------------------- three tiers, each under its own lock

  datatype Tier = Global | Prefix | IP

  /** One value per tier. */
  datatype Tiers<T> = Tiers(global: T, prefix: T, ip: T) {
    function Of(tier: Tier): T {
      match tier
      case Global => global
      case Prefix => prefix
      case IP => ip
    }

    function With(tier: Tier, x: T): (r: Tiers<T>)
      ensures forall u :: r.Of(u) == if u == tier then x else Of(u)
    {
      match tier
      case Global => this.(global := x)
      case Prefix => this.(prefix := x)
      case IP => this.(ip := x)
    }
  }

  /** How far a query has come in RateLimiter.Allow. */
  datatype Stage = Asking(tier: Tier) | Refused | Passed

  /** What does not change: the tiers' configurations, where each query comes from, and how an
      address becomes a prefix. */
  datatype Setup = Setup(configs: Tiers<Config>, ip: nat -> Key, prefixKey: Key -> Key) {
    /** The key a tier files a query under. */
    function KeyOf(tier: Tier, q: nat): Key {
      match tier
      case Global => "*"
      case Prefix => prefixKey(ip(q))
      case IP => ip(q)
    }
  }

  /** Query `q` holds the lock of one tier; `now` is its reading there. */
  datatype Visit = Visit(q: nat, tier: Tier, now: real)

  datatype World = World(limiters: Tiers<Limiter>, stages: map<nat, Stage>)

  function StageOf(w: World, q: nat): Stage {
    if q in w.stages then w.stages[q] else Asking(Global)
  }

  /** The three calls in order; a refusal ends the query. */
  function NextStage(tier: Tier, ok: bool): Stage {
    if !ok then Refused
    else
      match tier
      case Global => Asking(Prefix)
      case Prefix => Asking(IP)
      case IP => Passed
  }

  predicate CanVisit(w: World, v: Visit) {
    StageOf(w, v.q) == Asking(v.tier)
  }

  function Ask(u: Setup, w: World, v: Visit): (Limiter, bool) {
    AllowStep(u.configs.Of(v.tier), w.limiters.Of(v.tier), u.KeyOf(v.tier, v.q), v.now)
  }

  function VisitStep(u: Setup, w: World, v: Visit): World {
    var (s, ok) := Ask(u, w, v);
    World(w.limiters.With(v.tier, s), w.stages[v.q := NextStage(v.tier, ok)])
  }

  /** Any interleaving of any number of queries. */
  predicate Visits(u: Setup, w: World, run: seq<Visit>)
    decreases run
  {
    run == [] || (CanVisit(w, run[0]) && Visits(u, VisitStep(u, w, run[0]), run[1..]))
  }

  function AfterVisits(u: Setup, w: World, run: seq<Visit>): World
    decreases run
  {
    if run == [] then w else AfterVisits(u, VisitStep(u, w, run[0]), run[1..])
  }

  /** Whether each visit was admitted by its tier. */
  function Answers(u: Setup, w: World, run: seq<Visit>): (oks: seq<bool>)
    ensures |oks| == |run|
    decreases run
  {
    if run == [] then [] else [Ask(u, w, run[0]).1] + Answers(u, VisitStep(u, w, run[0]), run[1..])
  }

  // ---------------------------------------------------------------- what a passed query means

  /** The tiers a query at this stage still has to pass. */
  function Ahead(stage: Stage): set<Tier> {
    match stage
    case Asking(t) => if t == Global then {Global, Prefix, IP} else if t == Prefix then {Prefix, IP} else {IP}
    case Refused => {}
    case Passed => {}
  }

  ghost predicate PassedAt(run: seq<Visit>, oks: seq<bool>, q: nat, tier: Tier)
    requires |oks| == |run|
  {
    exists k :: 0 <= k < |run| && run[k].q == q && run[k].tier == tier && oks[k]
  }

  lemma PassedAtTail(run: seq<Visit>, oks: seq<bool>, q: nat, tier: Tier)
    requires |oks| == |run| > 0
    ensures PassedAt(run, oks, q, tier)
        <==> (run[0].q == q && run[0].tier == tier && oks[0]) || PassedAt(run[1..], oks[1..], q, tier)
  {
    if k :| 0 <= k < |run| && run[k].q == q && run[k].tier == tier && oks[k] {
      if k > 0 { assert run[1..][k - 1] == run[k] && oks[1..][k - 1] == oks[k]; }
    }
    if k :| 0 <= k < |run[1..]| && run[1..][k].q == q && run[1..][k].tier == tier && oks[1..][k] {
      assert run[k + 1].q == q && run[k + 1].tier == tier && oks[k + 1];
    }
  }

  /** A query visits the tiers in order, each at most once. */
  lemma {:induction false} TiersInOrder(u: Setup, w: World, run: seq<Visit>, k: nat)
    requires Visits(u, w, run) && k < |run|
    ensures run[k].tier in Ahead(StageOf(w, run[k].q))
    ensures forall j :: 0 <= j < k && run[j].q == run[k].q ==> run[j].tier != run[k].tier
    decreases run
  {
    hide Ask;
    if k > 0 {
      TiersInOrder(u, VisitStep(u, w, run[0]), run[1..], k - 1);
      forall j | 0 <= j < k && run[j].q == run[k].q ensures run[j].tier != run[k].tier {
        if j > 0 { assert run[1..][j - 1] == run[j]; }
      }
    }
  }

  /** A query has passed exactly if every tier it had ahead has admitted it. */
  lemma {:induction false} PassedIff(u: Setup, w: World, run: seq<Visit>, q: nat)
    requires Visits(u, w, run)
    ensures StageOf(AfterVisits(u, w, run), q) == Passed
        <==> && !StageOf(w, q).Refused?
             && forall t :: t in Ahead(StageOf(w, q)) ==> PassedAt(run, Answers(u, w, run), q, t)
    decreases run
  {
    hide Ask, PassedAt;
    var oks := Answers(u, w, run);
    if run == [] {
      forall t: Tier ensures !PassedAt(run, oks, q, t) { NothingPassed(q, t); }
      assert StageOf(w, q).Asking? ==> StageOf(w, q).tier in Ahead(StageOf(w, q));
    } else {
      var v, w' := run[0], VisitStep(u, w, run[0]);
      PassedIff(u, w', run[1..], q);
      assert oks[1..] == Answers(u, w', run[1..]);
      forall t: Tier ensures PassedAt(run, oks, q, t)
                         <==> (v.q == q && v.tier == t && oks[0]) || PassedAt(run[1..], oks[1..], q, t) {
        PassedAtTail(run, oks, q, t);
      }
      if v.q == q {
        OnlyOnce(u, w', run[1..], q, v.tier);
        assert v.tier in Ahead(StageOf(w, q));
        assert oks[0] ==> Ahead(StageOf(w, q)) == {v.tier} + Ahead(StageOf(w', q));
      }
    }
  }

  lemma NothingPassed(q: nat, tier: Tier)
    ensures !PassedAt([], [], q, tier)
  {
  }

  /** A tier that is not ahead is not visited any more. */
  lemma OnlyOnce(u: Setup, w: World, run: seq<Visit>, q: nat, tier: Tier)
    requires Visits(u, w, run) && tier !in Ahead(StageOf(w, q))
    ensures !PassedAt(run, Answers(u, w, run), q, tier)
  {
    hide Ask, Visits, AfterVisits, Answers, StageOf;
    forall k | 0 <= k < |run| && run[k].q == q ensures run[k].tier != tier {
      TiersInOrder(u, w, run, k);
    }
  }

  // ---------------------------------------------------------------- each tier by itself

  /** The requests one tier sees, in its own lock order. */
  function Log(u: Setup, run: seq<Visit>, tier: Tier): seq<Request> {
    if run == [] then []
    else (if run[0].tier == tier then [Request(u.KeyOf(tier, run[0].q), run[0].now)] else []) + Log(u, run[1..], tier)
  }

  /** What it answered. */
  function Pick(run: seq<Visit>, oks: seq<bool>, tier: Tier): seq<bool>
    requires |oks| == |run|
  {
    if run == [] then []
    else (if run[0].tier == tier then [oks[0]] else []) + Pick(run[1..], oks[1..], tier)
  }

  /** Whatever the others do, each tier decides like a limiter alone with its own lock order. */
  lemma {:induction false} TierAlone(u: Setup, w: World, run: seq<Visit>, tier: Tier)
    ensures Pick(run, Answers(u, w, run), tier) == Decisions(u.configs.Of(tier), w.limiters.Of(tier), Log(u, run, tier))
    decreases run
  {
    hide AllowStep;
    if run != [] {
      var w' := VisitStep(u, w, run[0]);
      TierAlone(u, w', run[1..], tier);
      assert Answers(u, w, run)[1..] == Answers(u, w', run[1..]);
      var rest := Log(u, run[1..], tier);
      if run[0].tier == tier {
        var r := Request(u.KeyOf(tier, run[0].q), run[0].now);
        assert ([r] + rest)[1..] == rest;
      } else {
        assert [] + rest == rest;
      }
    }
  }

  /** The queries that pass all three tiers in the end, filed under `key` at `tier` with a reading
      there between `from` and `to`; TiersInOrder says that no query is counted twice. */
  function PassedVisits(u: Setup, end: World, run: seq<Visit>, tier: Tier, key: Key, from: real, to: real): nat {
    if run == [] then 0
    else
      var v := run[0];
      var counts := v.tier == tier && u.KeyOf(tier, v.q) == key && from <= v.now <= to && StageOf(end, v.q) == Passed;
      (if counts then 1 else 0) + PassedVisits(u, end, run[1..], tier, key, from, to)
  }

  lemma {:induction false} RefusedStays(u: Setup, w: World, run: seq<Visit>, q: nat)
    requires Visits(u, w, run) && StageOf(w, q) == Refused
    ensures StageOf(AfterVisits(u, w, run), q) == Refused
    decreases run
  {
    hide Ask;
    if run != [] { RefusedStays(u, VisitStep(u, w, run[0]), run[1..], q); }
  }

  /** A query that passes in the end was admitted by every tier it visited. */
  lemma {:induction false} PassedAreAdmitted(u: Setup, w: World, run: seq<Visit>, tier: Tier, key: Key,
                                             from: real, to: real)
    requires Visits(u, w, run)
    ensures |Pick(run, Answers(u, w, run), tier)| == |Log(u, run, tier)|
    ensures PassedVisits(u, AfterVisits(u, w, run), run, tier, key, from, to)
         <= AdmittedIn(Pick(run, Answers(u, w, run), tier), Log(u, run, tier), key, from, to)
    decreases run
  {
    hide Ask;
    if run != [] {
      var v, w' := run[0], VisitStep(u, w, run[0]);
      PassedAreAdmitted(u, w', run[1..], tier, key, from, to);
      assert Answers(u, w, run)[1..] == Answers(u, w', run[1..]);
      if !Ask(u, w, v).1 { RefusedStays(u, w', run[1..], v.q); }
      var log, oks := Log(u, run[1..], tier), Pick(run[1..], Answers(u, w', run[1..]), tier);
      if v.tier == tier {
        var r := Request(u.KeyOf(tier, v.q), v.now);
        assert ([r] + log)[1..] == log && ([Ask(u, w, v).1] + oks)[1..] == oks;
      } else {
        assert [] + log == log && [] + oks == oks;
      }
    }
  }

  /** The rate bound of the three-tier limiter, in every interleaving: of the queries that pass all
      three tiers, at most burst + rate * (to - from) have a reading between `from` and `to` at an
      enabled tier, per key of that tier. Each tier has its own lock order, and its readings are
      ordered by that alone. */
  lemma WindowBound(u: Setup, w: World, run: seq<Visit>, tier: Tier, key: Key, t: real, from: real, to: real)
    requires Visits(u, w, run) && Ordered(Log(u, run, tier), t) && from <= to
    requires var c := u.configs.Of(tier);
             c.Enabled() && c.WellFormed() && c.RefillsBeforeCleanup() && Inv(c, w.limiters.Of(tier), t)
    ensures PassedVisits(u, AfterVisits(u, w, run), run, tier, key, from, to) as real
         <= u.configs.Of(tier).burst as real + u.configs.Of(tier).rate * (to - from)
  {
    hide Visits, AfterVisits, Inv, Answers, Pick, Log, PassedVisits, AdmittedIn, Decisions, Ordered;
    PassedAreAdmitted(u, w, run, tier, key, from, to);
    TierAlone(u, w, run, tier);
    IntervalBound(u.configs.Of(tier), w.limiters.Of(tier), t, Log(u, run, tier), key, from, to);
  }

  /** The queries that pass, whatever their key, with a reading at the global tier between `from`
      and `to`. */
  function PassedGlobally(end: World, run: seq<Visit>, from: real, to: real): nat {
    if run == [] then 0
    else
      var v := run[0];
      (if v.tier == Global && from <= v.now <= to && StageOf(end, v.q) == Passed then 1 else 0)
      + PassedGlobally(end, run[1..], from, to)
  }

  /** The queries that pass from address `ip`, with a reading at the IP tier between `from` and `to`. */
  function PassedFrom(u: Setup, end: World, run: seq<Visit>, ip: Key, from: real, to: real): nat {
    if run == [] then 0
    else
      var v := run[0];
      (if v.tier == IP && u.ip(v.q) == ip && from <= v.now <= to && StageOf(end, v.q) == Passed then 1 else 0)
      + PassedFrom(u, end, run[1..], ip, from, to)
  }

  /** The same for all addresses with prefix `prefix`. */
  function PassedFromPrefix(u: Setup, end: World, run: seq<Visit>, prefix: Key, from: real, to: real): nat {
    if run == [] then 0
    else
      var v := run[0];
      var counts := v.tier == Prefix && u.prefixKey(u.ip(v.q)) == prefix && from <= v.now <= to
                    && StageOf(end, v.q) == Passed;
      (if counts then 1 else 0) + PassedFromPrefix(u, end, run[1..], prefix, from, to)
  }

  lemma {:induction false} CountsByTier(u: Setup, end: World, run: seq<Visit>, key: Key, from: real, to: real)
    ensures PassedGlobally(end, run, from, to) == PassedVisits(u, end, run, Global, u.KeyOf(Global, 0), from, to)
    ensures PassedFromPrefix(u, end, run, key, from, to) == PassedVisits(u, end, run, Prefix, key, from, to)
    ensures PassedFrom(u, end, run, key, from, to) == PassedVisits(u, end, run, IP, key, from, to)
  {
    if run != [] { CountsByTier(u, end, run[1..], key, from, to); }
  }

  /** The tier is enabled, refills before it forgets, and starts in order. */
  predicate Sane(u: Setup, w: World, run: seq<Visit>, tier: Tier, t: real) {
    var c := u.configs.Of(tier);
    && Ordered(Log(u, run, tier), t)
    && c.Enabled() && c.WellFormed() && c.RefillsBeforeCleanup() && Inv(c, w.limiters.Of(tier), t)
  }

  /** The three bounds in every interleaving: over all queries, over the queries of each prefix, and
      over the queries of each address. */
  lemma TierBounds(u: Setup, w: World, run: seq<Visit>, key: Key, t: real, from: real, to: real)
    requires Visits(u, w, run) && from <= to
    ensures var end, cs := AfterVisits(u, w, run), u.configs;
            && (Sane(u, w, run, Global, t) ==>
                  PassedGlobally(end, run, from, to) as real <= cs.global.burst as real + cs.global.rate * (to - from))
            && (Sane(u, w, run, Prefix, t) ==>
                  PassedFromPrefix(u, end, run, key, from, to) as real
                  <= cs.prefix.burst as real + cs.prefix.rate * (to - from))
            && (Sane(u, w, run, IP, t) ==>
                  PassedFrom(u, end, run, key, from, to) as real <= cs.ip.burst as real + cs.ip.rate * (to - from))
  {
    hide Visits, AfterVisits, Inv, Log, PassedVisits, Ordered, PassedGlobally, PassedFrom, PassedFromPrefix;
    CountsByTier(u, AfterVisits(u, w, run), run, key, from, to);
    if Sane(u, w, run, Global, t) { WindowBound(u, w, run, Global, u.KeyOf(Global, 0), t, from, to); }
    if Sane(u, w, run, Prefix, t) { WindowBound(u, w, run, Prefix, key, t, from, to); }
    if Sane(u, w, run, IP, t) { WindowBound(u, w, run, IP, key, t, from, to); }
  }

  // ---------------------------------------------------------------- the limiter is not stricter than that

  /** What a key may spend at `now`: what was left, plus `rate` per second since, up to `burst`; a new
      key starts with `burst`. */
  function Balance(c: Config, s: Limiter, key: Key, now: real): real {
    if key !in s.buckets then c.burst as real
    else
      var b := s.buckets[key];
      var total := b.tokens + c.rate * (now - b.last);
      if total > c.burst as real then c.burst as real else total
  }

  /** With room for its key, a request is admitted if and only if its key can spend one token, which
      is then spent. */
  lemma AdmitsIff(c: Config, s: Limiter, t: real, key: Key, now: real)
    requires c.Enabled() && c.WellFormed() && c.RefillsBeforeCleanup() && Inv(c, s, t) && t <= now
    requires key in s.buckets || |s.buckets| < c.maxEntries
    ensures var (s', ok) := AllowStep(c, s, key, now);
            && (ok <==> Balance(c, s, key, now) >= 1.0)
            && Balance(c, s', key, now) == Balance(c, s, key, now) - (if ok then 1.0 else 0.0)
  {
    hide Recent, Level, Inv, Refilled;
    BalanceIsLevel(c, s, key, now);
    InvLater(c, s, t, now);
    LevelCleaned(c, s, key, now);
    CleanedInv(c, s, now);
    RoomAfterTidying(c, s, key, now);
    var s1 := Tidied(c, s, now);
    var have := Refilled(c, s1.buckets, key, now);
    LevelIsRefill(c, s1, key, now);
    LevelAtMost(c, s1, key, now);
    LevelAfterPut(c, s1, key, have, now, key);
    BalanceIsLevel(c, AllowStep(c, s, key, now).0, key, now);
    if key !in s1.buckets {
      LevelMissing(c, Cleaned(c, s1, now), key, now, key);
      CleanedInv(c, s1, now);
      FullNew(c, s1, key, now);
    }
  }

  lemma FullNew(c: Config, s: Limiter, key: Key, now: real)
    requires key !in s.buckets
    ensures Level(c, s, key, now) == c.burst as real
  {
  }

  lemma BalanceIsLevel(c: Config, s: Limiter, key: Key, now: real)
    ensures Balance(c, s, key, now) == Level(c, s, key, now)
  {
  }

  lemma RoomAfterTidying(c: Config, s: Limiter, key: Key, now: real)
    ensures |Tidied(c, s, now).buckets| <= |s.buckets|
    ensures key !in s.buckets ==> key !in Tidied(c, s, now).buckets
    ensures key in s.buckets && key !in Tidied(c, s, now).buckets ==> |Tidied(c, s, now).buckets| < |s.buckets|
  {
    RecentSize(s.buckets, now, c.interval);
    if key in s.buckets && s.buckets[key].last <= now - c.interval {
      FewerRecent(s.buckets, key, now, c.interval);
    }
  }

  lemma FewerRecent(m: map<Key, Bucket>, key: Key, now: real, interval: real)
    requires key in m && m[key].last <= now - interval
    ensures |Recent(m, now, interval)| < |m|
  {
    var r := Recent(m, now, interval);
    SubsetSize(r.Keys, m.Keys - {key});
    assert |r| == |r.Keys| && |m| == |m.Keys|;
  }

  /** At capacity, a new key is admitted if and only if some key has been idle for an interval. */
  lemma AtCapacityIff(c: Config, s: Limiter, key: Key, now: real)
    requires c.Enabled() && c.WellFormed() && c.rate * MAX_DURATION >= 1.0
    requires key !in s.buckets && |s.buckets| == c.maxEntries
    ensures AllowStep(c, s, key, now).1 <==> exists k :: k in s.buckets && s.buckets[k].last <= now - c.interval
  {
    var r := Recent(s.buckets, now, c.interval);
    if k :| k in s.buckets && s.buckets[k].last <= now - c.interval {
      FewerRecent(s.buckets, k, now, c.interval);
    } else {
      assert r == s.buckets;
      assert Recent(r, now, c.interval) == r;
    }
    assert Recent(r, now, c.interval) == r;
    NewBucket(c, r, key, now);
  }

  lemma NewBucket(c: Config, m: map<Key, Bucket>, key: Key, now: real)
    requires c.Enabled() && c.rate * MAX_DURATION >= 1.0 && key !in m
    ensures Refilled(c, m, key, now) >= 1.0
  {
    assert MAX_DURATION * c.rate >= 1.0;
  }

  // ---------------------------------------------------------------- the limiter object

  class TokenBucketRateLimiter {
    const config: Config
    var lastUpdate: map<Key, real>
    var tokens: map<Key, real>
    var lastCleanup: real

    ghost predicate Valid()
      reads this
    {
      lastUpdate.Keys == tokens.Keys
    }

    ghost function Model(): Limiter
      reads this
      requires Valid()
    {
      Limiter(map k | k in lastUpdate :: Bucket(lastUpdate[k], tokens[k]), lastCleanup)
    }

    constructor (rate: real, burst: int, cleanupInterval: real, maxEntries: int, now: real)
      requires cleanupInterval <= MAX_DURATION
      ensures Valid() && Model() == Limiter(map[], now) && config.WellFormed()
      ensures config == Config(rate, burst, if cleanupInterval <= 0.0 then 60.0 else cleanupInterval,
                               if maxEntries <= 0 then 1 else maxEntries)
      ensures Inv(config, Model(), now)
    {
      config := Config(rate, burst, if cleanupInterval <= 0.0 then 60.0 else cleanupInterval,
                       if maxEntries <= 0 then 1 else maxEntries);
      lastUpdate, tokens, lastCleanup := map[], map[], now;
    }

    /** cleanupLocked: the keys are visited in any order. */
    method CleanupLocked(now: real)
      requires Valid()
      modifies this
      ensures Valid() && Model() == Cleaned(config, old(Model()), now)
    {
      var staleBefore := now - config.interval;
      var todo := lastUpdate.Keys;
      while todo != {}
        invariant Valid() && lastCleanup == old(lastCleanup) && todo <= lastUpdate.Keys <= old(lastUpdate.Keys)
        invariant forall k :: k in lastUpdate ==> lastUpdate[k] == old(lastUpdate[k]) && tokens[k] == old(tokens[k])
        invariant forall k :: k in old(lastUpdate) && k !in todo ==>
                    (k in lastUpdate <==> old(lastUpdate[k]) > staleBefore)
        decreases todo
      {
        var k :| k in todo;
        todo := todo - {k};
        if lastUpdate[k] <= staleBefore {
          lastUpdate := lastUpdate - {k};
          tokens := tokens - {k};
        }
      }
      lastCleanup := now;
    }

    method Put(key: Key, now: real, left: real)
      requires Valid()
      modifies this
      ensures Valid() && Model() == old(Model()).(buckets := old(Model()).buckets[key := Bucket(now, left)])
    {
      lastUpdate := lastUpdate[key := now];
      tokens := tokens[key := left];
    }

    /** Refill by elapsed time, then spend a token if there is one. */
    method Take(key: Key, now: real) returns (ok: bool)
      requires Valid()
      modifies this
      ensures Valid()
      ensures var s := old(Model());
              var (m, spent) := Spend(s.buckets, key, now, Refilled(config, s.buckets, key, now));
              Model() == s.(buckets := m) && ok == spent
    {
      var elapsed := if key in lastUpdate then now - lastUpdate[key] else MAX_DURATION;
      var have := if key in tokens then tokens[key] else 0.0;
      if elapsed > 0.0 {
        have := Min(config.burst as real, have + elapsed * config.rate);
      }
      assert have == Refilled(config, Model().buckets, key, now);
      ok := have >= 1.0;
      Put(key, now, if ok then have - 1.0 else have);
    }

    method Allow(key: Key, now: real) returns (ok: bool)
      requires Valid()
      modifies this
      ensures Valid() && (Model(), ok) == AllowStep(config, old(Model()), key, now)
    {
      hide Recent, Refilled, Spend, Model;
      if !config.Enabled() { return true; }
      ModelKeys();
      if now - lastCleanup > config.interval {
        CleanupLocked(now);
      }
      ModelKeys();
      if key !in lastUpdate && |lastUpdate| >= config.maxEntries {
        CleanupLocked(now);
        ModelKeys();
        if |lastUpdate| >= config.maxEntries { return false; }
        Put(key, now, config.burst as real - 1.0);
        return true;
      }
      ok := Take(key, now);
    }

    lemma ModelKeys()
      requires Valid()
      ensures Model().lastCleanup == lastCleanup
      ensures Model().buckets.Keys == lastUpdate.Keys && |Model().buckets| == |lastUpdate|
    {
      var m := Model().buckets;
      assert m.Keys == lastUpdate.Keys;
      assert |m| == |m.Keys| && |lastUpdate| == |lastUpdate.Keys|;
    }
  }
}
