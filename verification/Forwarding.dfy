/** ForwardingResolver.Resolve as a step system: cache lookup, singleflight, upstream query, cache
    store and return, by any number of goroutines in any interleaving
    (internal/resolvers/forwarding_resolver.go). Each mutex-protected section is one step. */
module Forwarding {
  import opened Wire
  import opened Packets
  import opened Rewrites
  import opened TtlAging
  import opened Responses
  import opened Lifetimes
  import Cache
  import TtlFields

  type Bytes = seq<Byte>
  type Tid = nat
  type CallId = nat

  /** The complete cache key: the question and the selected upstream. */
  datatype CacheKey = CacheKey(question: Question, up: string)

  /** A request: its transaction ID and its question. */
  datatype Asker = Asker(id: U16, question: Question)

  datatype Result = Response(bytes: Bytes) | Error

  /** An inflightCall; the result is readable once `done` is closed. */
  datatype Call = Call(key: CacheKey, leader: Tid, done: bool, result: Result)

  /** Where a goroutine is in Resolve. */
  datatype PC =
    | Looking                                  // upstream selected, before the cache lookup
    | Missed                                   // not cached, before the inflight lock
    | Waiting(call: CallId)                    // joined someone else's call
    | Leading(call: CallId)                    // inserted its own call, asking upstream
    | Storing(call: CallId, norm: Bytes)       // validated and normalized, before the cache store
    | Finishing(call: CallId, result: Result)  // before publishing the result
    | Deleting(call: CallId)                   // published, before removing its inflight entry
    | FromCache(reply: Bytes)                  // returned a cached response
    | FromCall(call: CallId, returned: Result) // returned a call's result, own or shared
    | GaveUp                                   // returned because its context was done

  datatype Thread = Thread(asker: Asker, key: CacheKey, pc: PC)

  datatype State = State(
    capacity: nat,
    cache: Cache.State<CacheKey, Bytes>,
    inflight: map<CacheKey, CallId>,
    calls: map<CallId, Call>,
    threads: map<Tid, Thread>,
    heard: set<Bytes>)   // every message an upstream has sent

  datatype Action =
    | Start(tid: Tid, asker: Asker, up: string)
    | Lookup(tid: Tid, now: int)
    | GiveUp(tid: Tid)
    | JoinOrLead(tid: Tid, newCall: CallId)
    | Answered(tid: Tid, message: Bytes)
    | QueryFailed(tid: Tid)
    | Store(tid: Tid, expiryNow: int, lockNow: int)
    | Publish(tid: Tid)
    | Delete(tid: Tid)
    | Wake(tid: Tid)

  // ---------------------------------------------------------------- steps

  function Moved(s: State, tid: Tid, pc: PC): State
    requires tid in s.threads
  {
    s.(threads := s.threads[tid := s.threads[tid].(pc := pc)])
  }

  function ReplyFor(result: Result, id: U16): Result {
    match result
    case Error => Error
    case Response(b) => Response(Patched(b, id))
  }

  function CallOf(pc: PC): Option<CallId> {
    match pc
    case Leading(c) => Some(c)
    case Storing(c, _) => Some(c)
    case Finishing(c, _) => Some(c)
    case Deleting(c) => Some(c)
    case _ => None
  }

  /** When an action can happen. */
  predicate Enabled(s: State, a: Action) {
    match a
    case Start(t, _, _) => t !in s.threads
    case Lookup(t, _) => t in s.threads && s.threads[t].pc.Looking?
    case GiveUp(t) => t in s.threads && (s.threads[t].pc.Missed? || s.threads[t].pc.Waiting?)
    case JoinOrLead(t, newCall) => t in s.threads && s.threads[t].pc.Missed? && newCall !in s.calls
    case Answered(t, m) => t in s.threads && s.threads[t].pc.Leading?
    case QueryFailed(t) => t in s.threads && s.threads[t].pc.Leading?
    case Store(t, expiryNow, lockNow) => t in s.threads && s.threads[t].pc.Storing? && expiryNow <= lockNow
    case Publish(t) => t in s.threads && s.threads[t].pc.Finishing? && s.threads[t].pc.call in s.calls
    case Delete(t) => t in s.threads && s.threads[t].pc.Deleting? && s.threads[t].pc.call in s.calls
    case Wake(t) => t in s.threads && s.threads[t].pc.Waiting? && s.threads[t].pc.call in s.calls
                    && s.calls[s.threads[t].pc.call].done
  }

  function LookupStep(s: State, t: Tid, now: int): State
    requires t in s.threads
  {
    var th := s.threads[t];
    var (cache, hit) := Cache.GetStep(s.cache, th.key, now);
    var s' := s.(cache := cache);
    match hit
    case None => Moved(s', t, Missed)
    case Some(h) => Moved(s', t, FromCache(Patched(Aged(h.value, h.age), th.asker.id)))
  }

  function JoinStep(s: State, t: Tid, newCall: CallId): State
    requires t in s.threads
  {
    var th := s.threads[t];
    if th.key in s.inflight then Moved(s, t, Waiting(s.inflight[th.key]))
    else
      Moved(s.(inflight := s.inflight[th.key := newCall], calls := s.calls[newCall := Call(th.key, t, false, Error)]),
            t, Leading(newCall))
  }

  /** queryAndCache after a reply: it must validate, and is then normalized to ID 0. */
  function AnsweredStep(s: State, t: Tid, m: Bytes): State
    requires t in s.threads && s.threads[t].pc.Leading?
  {
    var th := s.threads[t];
    var s' := s.(heard := s.heard + {m});
    if Validates(th.asker.question, m) then Moved(s', t, Storing(th.pc.call, Patched(m, 0)))
    else Moved(s', t, Finishing(th.pc.call, Error))
  }

  function StoreStep(s: State, t: Tid, expiryNow: int, lockNow: int): State
    requires t in s.threads && s.threads[t].pc.Storing?
  {
    var th := s.threads[t];
    Moved(s.(cache := Stored(s.cache, s.capacity, th.key, th.pc.norm, expiryNow, lockNow)), t,
          Finishing(th.pc.call, Response(th.pc.norm)))
  }

  /** storeInCache. */
  function Stored(cache: Cache.State<CacheKey, Bytes>, capacity: nat, key: CacheKey, norm: Bytes,
                  expiryNow: int, lockNow: int)
    : Cache.State<CacheKey, Bytes>
  {
    var d := CacheDecision(norm);
    if d.ttlSeconds <= 0 then cache
    else Cache.SetStep(cache, capacity, key, norm, d.ttlSeconds * SECOND, d.kind, true, expiryNow, lockNow)
  }

  function PublishStep(s: State, t: Tid): State
    requires t in s.threads && s.threads[t].pc.Finishing? && s.threads[t].pc.call in s.calls
  {
    var pc := s.threads[t].pc;
    Moved(s.(calls := s.calls[pc.call := s.calls[pc.call].(done := true, result := pc.result)]), t, Deleting(pc.call))
  }

  function DeleteStep(s: State, t: Tid): State
    requires t in s.threads && s.threads[t].pc.Deleting? && s.threads[t].pc.call in s.calls
  {
    var th := s.threads[t];
    Moved(s.(inflight := s.inflight - {th.key}), t,
          FromCall(th.pc.call, ReplyFor(s.calls[th.pc.call].result, th.asker.id)))
  }

  function WakeStep(s: State, t: Tid): State
    requires t in s.threads && s.threads[t].pc.Waiting? && s.threads[t].pc.call in s.calls
  {
    var th := s.threads[t];
    Moved(s, t, FromCall(th.pc.call, ReplyFor(s.calls[th.pc.call].result, th.asker.id)))
  }

  function Next(s: State, a: Action): State
    requires Enabled(s, a)
  {
    match a
    case Start(t, asker, up) =>
      s.(threads := s.threads[t := Thread(asker, CacheKey(asker.question, up), Looking)])
    case Lookup(t, now) => LookupStep(s, t, now)
    case GiveUp(t) => Moved(s, t, GaveUp)
    case JoinOrLead(t, newCall) => JoinStep(s, t, newCall)
    case Answered(t, m) => AnsweredStep(s, t, m)
    case QueryFailed(t) => Moved(s, t, Finishing(s.threads[t].pc.call, Error))
    case Store(t, expiryNow, lockNow) => StoreStep(s, t, expiryNow, lockNow)
    case Publish(t) => PublishStep(s, t)
    case Delete(t) => DeleteStep(s, t)
    case Wake(t) => WakeStep(s, t)
  }

  // ---------------------------------------------------------------- singleflight

  /** A goroutine owns a call from its insert to its delete. */
  predicate Owns(s: State, t: Tid, c: CallId) {
    t in s.threads && CallOf(s.threads[t].pc) == Some(c)
  }

  /** One goroutine's bookkeeping. */
  predicate ThreadLinked(s: State, t: Tid)
    requires t in s.threads
  {
    var th := s.threads[t];
    && th.key.question == th.asker.question
    && (CallOf(th.pc).Some? ==>
          var c := CallOf(th.pc).value;
          && c in s.calls && s.calls[c].leader == t && s.calls[c].key == th.key
          && th.key in s.inflight && s.inflight[th.key] == c
          && (s.calls[c].done <==> th.pc.Deleting?))
    && (th.pc.Waiting? ==> th.pc.call in s.calls && s.calls[th.pc.call].key == th.key)
    && (th.pc.FromCall? ==>
          && th.pc.call in s.calls && s.calls[th.pc.call].key == th.key && s.calls[th.pc.call].done
          && th.pc.returned == ReplyFor(s.calls[th.pc.call].result, th.asker.id))
  }

  ghost predicate Linked(s: State) {
    && (forall t :: t in s.threads ==> ThreadLinked(s, t))
    && (forall k :: k in s.inflight ==>
          s.inflight[k] in s.calls && s.calls[s.inflight[k]].key == k
          && Owns(s, s.calls[s.inflight[k]].leader, s.inflight[k]))
    && (forall c :: c in s.calls && !s.calls[c].done ==> Owns(s, s.calls[c].leader, c))
  }

  function Initial(capacity: nat): State {
    State(capacity, Cache.Empty(), map[], map[], map[], {})
  }

  /** At most one leader per key. */
  lemma OneLeader(s: State, t: Tid, u: Tid)
    requires Linked(s) && t in s.threads && u in s.threads
    requires CallOf(s.threads[t].pc).Some? && CallOf(s.threads[u].pc).Some? && s.threads[t].key == s.threads[u].key
    ensures t == u
  {
    assert ThreadLinked(s, t) && ThreadLinked(s, u);
  }

  /** An inflight entry is there exactly while its leader is between insert and delete. */
  lemma InflightExactly(s: State, k: CacheKey)
    requires Linked(s)
    ensures k in s.inflight <==> exists t :: t in s.threads && s.threads[t].key == k && CallOf(s.threads[t].pc).Some?
  {
    if k in s.inflight {
      var t := s.calls[s.inflight[k]].leader;
      assert Owns(s, t, s.inflight[k]);
      assert ThreadLinked(s, t);
    }
    if t :| t in s.threads && s.threads[t].key == k && CallOf(s.threads[t].pc).Some? {
      assert ThreadLinked(s, t);
    }
  }

  /** A leader deletes its own entry and no other. */
  lemma DeletesOwnEntry(s: State, t: Tid)
    requires Linked(s) && Enabled(s, Delete(t))
    ensures var th := s.threads[t];
            && th.key in s.inflight && s.inflight[th.key] == th.pc.call
            && Next(s, Delete(t)).inflight == s.inflight - {th.key}
  {
    assert ThreadLinked(s, t);
  }

  // ---------------------------------------------------------------- every step keeps the bookkeeping

  /** A step that moves one goroutine without touching calls or inflight entries. */
  lemma MoveKeepsLinked(s: State, s': State, t: Tid, th: Thread)
    requires Linked(s) && s'.calls == s.calls && s'.inflight == s.inflight && s'.threads == s.threads[t := th]
    requires th.key.question == th.asker.question
    requires if t in s.threads then th.key == s.threads[t].key && CallOf(th.pc) == CallOf(s.threads[t].pc)
             else CallOf(th.pc) == None
    requires CallOf(th.pc).Some? ==> (th.pc.Deleting? <==> s.threads[t].pc.Deleting?)
    requires th.pc.Waiting? ==> th.pc.call in s.calls && s.calls[th.pc.call].key == th.key
    requires th.pc.FromCall? ==>
               && th.pc.call in s.calls && s.calls[th.pc.call].key == th.key && s.calls[th.pc.call].done
               && th.pc.returned == ReplyFor(s.calls[th.pc.call].result, th.asker.id)
    ensures Linked(s')
  {
    hide ReplyFor, CallOf;
    forall u | u in s'.threads ensures ThreadLinked(s', u) {
      if u in s.threads { assert ThreadLinked(s, u); }
    }
    forall u, c | Owns(s, u, c) ensures Owns(s', u, c) {
    }
  }

  lemma LookupKeepsLinked(s: State, t: Tid, now: int)
    requires Linked(s) && Enabled(s, Lookup(t, now))
    ensures Linked(Next(s, Lookup(t, now)))
  {
    hide Cache.GetStep, Aged, Patched, Linked;
    assert s.threads[t].key.question == s.threads[t].asker.question by { LinkedThread(s, t); }
    var s' := LookupStep(s, t, now);
    MoveKeepsLinked(s, s', t, s'.threads[t]);
  }

  lemma LinkedThread(s: State, t: Tid)
    requires Linked(s) && t in s.threads
    ensures ThreadLinked(s, t)
  {
  }

  /** Starting, giving up, and the leader's steps up to publishing. */
  lemma QuietKeepsLinked(s: State, a: Action)
    requires Linked(s) && Enabled(s, a)
    requires a.Start? || a.GiveUp? || a.Answered? || a.QueryFailed? || a.Store?
    ensures Linked(Next(s, a))
  {
    hide Linked, Validates, Patched, Stored;
    var s' := Next(s, a);
    if a.tid in s.threads { LinkedThread(s, a.tid); }
    MoveKeepsLinked(s, s', a.tid, s'.threads[a.tid]);
  }

  lemma WakeKeepsLinked(s: State, t: Tid)
    requires Linked(s) && Enabled(s, Wake(t))
    ensures Linked(Next(s, Wake(t)))
  {
    hide Linked, ReplyFor;
    LinkedThread(s, t);
    var s' := WakeStep(s, t);
    MoveKeepsLinked(s, s', t, s'.threads[t]);
  }

  lemma JoinKeepsLinked(s: State, t: Tid, newCall: CallId)
    requires Linked(s) && Enabled(s, JoinOrLead(t, newCall))
    ensures Linked(Next(s, JoinOrLead(t, newCall)))
  {
    hide Linked, ReplyFor;
    LinkedThread(s, t);
    if s.threads[t].key in s.inflight {
      var s' := JoinStep(s, t, newCall);
      LinkedEntry(s, s.threads[t].key);
      MoveKeepsLinked(s, s', t, s'.threads[t]);
    } else {
      LeadKeepsLinked(s, t, newCall);
    }
  }

  lemma LinkedEntry(s: State, k: CacheKey)
    requires Linked(s) && k in s.inflight
    ensures s.inflight[k] in s.calls && s.calls[s.inflight[k]].key == k
  {
  }

  lemma LeadKeepsLinked(s: State, t: Tid, newCall: CallId)
    requires Linked(s) && Enabled(s, JoinOrLead(t, newCall)) && s.threads[t].key !in s.inflight
    ensures Linked(JoinStep(s, t, newCall))
  {
    hide ReplyFor;
    assert ThreadLinked(s, t);
    var s' := JoinStep(s, t, newCall);
    forall u | u in s'.threads ensures ThreadLinked(s', u) {
      assert ThreadLinked(s, u);
    }
    forall u, c | Owns(s, u, c) ensures Owns(s', u, c) {
    }
    assert Owns(s', t, newCall);
  }

  lemma PublishKeepsLinked(s: State, t: Tid)
    requires Linked(s) && Enabled(s, Publish(t))
    ensures Linked(Next(s, Publish(t)))
  {
    hide ReplyFor;
    assert ThreadLinked(s, t);
    var s' := PublishStep(s, t);
    forall u | u in s'.threads ensures ThreadLinked(s', u) {
      assert ThreadLinked(s, u);
    }
    forall u, c | Owns(s, u, c) ensures Owns(s', u, c) {
    }
  }

  lemma DeleteKeepsLinked(s: State, t: Tid)
    requires Linked(s) && Enabled(s, Delete(t))
    ensures Linked(Next(s, Delete(t)))
  {
    hide ReplyFor;
    assert ThreadLinked(s, t);
    var s' := DeleteStep(s, t);
    forall u | u in s'.threads ensures ThreadLinked(s', u) {
      assert ThreadLinked(s, u);
      if u != t && CallOf(s.threads[u].pc).Some? && s.threads[u].key == s.threads[t].key {
        OneLeader(s, t, u);
      }
    }
    forall u, c | Owns(s, u, c) && u != t ensures Owns(s', u, c) {
    }
  }

  lemma StepKeepsLinked(s: State, a: Action)
    requires Linked(s) && Enabled(s, a)
    ensures Linked(Next(s, a))
  {
    hide Linked, Enabled, Next;
    match a
    case Lookup(t, now) => LookupKeepsLinked(s, t, now);
    case JoinOrLead(t, newCall) => JoinKeepsLinked(s, t, newCall);
    case Publish(t) => PublishKeepsLinked(s, t);
    case Delete(t) => DeleteKeepsLinked(s, t);
    case Wake(t) => WakeKeepsLinked(s, t);
    case _ => QuietKeepsLinked(s, a);
  }

  // ---------------------------------------------------------------- soundness of what is shared

  /** `v` is an upstream message that was validated for the question of `k`, with ID 0. */
  ghost predicate NormFor(k: CacheKey, v: Bytes, heard: set<Bytes>) {
    exists m :: m in heard && Validates(k.question, m) && v == Patched(m, 0)
  }

  /** A cached entry holds such a message and does not outlive what the message allows. */
  ghost predicate EntryOk(k: CacheKey, e: Cache.Entry<Bytes>, heard: set<Bytes>) {
    && NormFor(k, e.value, heard)
    && e.kind == CacheDecision(e.value).kind
    && e.expiresAt <= e.cachedAt + Lifetime(e.value)
  }

  ghost predicate CacheSound(cache: Cache.State<CacheKey, Bytes>, heard: set<Bytes>) {
    forall k :: k in cache.data ==> EntryOk(k, cache.data[k], heard)
  }

  ghost predicate ResultOk(k: CacheKey, r: Result, heard: set<Bytes>) {
    r.Response? ==> NormFor(k, r.bytes, heard)
  }

  /** The reply carries the asker's ID and is, outside the ID and TTL fields, byte for byte a
      message heard from upstream that passed validateResponse for the asker's question. */
  ghost predicate ReplyOk(asker: Asker, reply: Bytes, heard: set<Bytes>) {
    exists m :: m in heard && Validates(asker.question, m) && Derived(m, asker.id, reply)
  }

  ghost predicate ThreadSound(th: Thread, heard: set<Bytes>) {
    match th.pc
    case Storing(_, norm) => NormFor(th.key, norm, heard)
    case Finishing(_, r) => ResultOk(th.key, r, heard)
    case FromCache(reply) => ReplyOk(th.asker, reply, heard)
    case _ => true
  }

  ghost predicate Sound(s: State) {
    && CacheSound(s.cache, s.heard)
    && (forall c :: c in s.calls && s.calls[c].done ==> ResultOk(s.calls[c].key, s.calls[c].result, s.heard))
    && (forall t :: t in s.threads ==> ThreadSound(s.threads[t], s.heard))
  }

  lemma HitReplyOk(th: Thread, e: Cache.Entry<Bytes>, age: int, heard: set<Bytes>)
    requires EntryOk(th.key, e, heard) && th.key.question == th.asker.question
    ensures ReplyOk(th.asker, Patched(Aged(e.value, age), th.asker.id), heard)
  {
    hide Validates, Derived, Aged, Patched, CacheDecision, Lifetime;
    var m :| m in heard && Validates(th.key.question, m) && e.value == Patched(m, 0);
    ValidatedLength(th.key.question, m);
    AgedIsDerived(m, th.asker.id, age);
  }

  lemma SharedReplyOk(th: Thread, b: Bytes, heard: set<Bytes>)
    requires NormFor(th.key, b, heard) && th.key.question == th.asker.question
    ensures ReplyOk(th.asker, Patched(b, th.asker.id), heard)
  {
    hide Validates, Derived, Patched;
    var m :| m in heard && Validates(th.key.question, m) && b == Patched(m, 0);
    ValidatedLength(th.key.question, m);
    PatchedIsDerived(m, th.asker.id);
  }

  lemma EvictKeeps(order: seq<CacheKey>, data: map<CacheKey, Cache.Entry<Bytes>>, cap: nat)
    ensures var d := Cache.Evict(order, data, cap).1; forall k :: k in d ==> k in data && d[k] == data[k]
    decreases |order|
  {
    if |data| > cap && order != [] {
      EvictKeeps(order[1..], data - {order[0]}, cap);
    }
  }

  /** Storing adds one sound entry. */
  lemma StoreKeepsCacheSound(cache: Cache.State<CacheKey, Bytes>, capacity: nat, key: CacheKey, norm: Bytes,
                             expiryNow: int, lockNow: int, heard: set<Bytes>)
    requires CacheSound(cache, heard) && NormFor(key, norm, heard) && expiryNow <= lockNow
    ensures CacheSound(Stored(cache, capacity, key, norm, expiryNow, lockNow), heard)
  {
    hide NormFor, CacheDecision, Cache.Evict, Cache.ToBack, Cache.CapTTL;
    var d := CacheDecision(norm);
    var t := Cache.CapTTL(d.ttlSeconds * SECOND, d.kind, true);
    if d.ttlSeconds > 0 && t > 0 {
      var e := Cache.Entry(norm, lockNow, expiryNow + t, d.kind);
      EvictKeeps(cache.order + [key], cache.data[key := e], capacity);
    }
  }

  lemma GetKeepsCacheSound(cache: Cache.State<CacheKey, Bytes>, key: CacheKey, now: int, heard: set<Bytes>)
    requires CacheSound(cache, heard)
    ensures CacheSound(Cache.GetStep(cache, key, now).0, heard)
  {
    hide EntryOk, Cache.Without, Cache.ToBack;
  }

  /** Hearing more does not make anything unsound. */
  lemma HearMore(s: State, m: Bytes)
    requires Sound(s)
    ensures Sound(s.(heard := s.heard + {m}))
  {
    hide NormFor, ReplyOk, Derived, Validates, CacheDecision, Lifetime;
    var h := s.heard + {m};
    forall k, v | NormFor(k, v, s.heard) ensures NormFor(k, v, h) { NormMore(k, v, s.heard, h); }
    forall a, r | ReplyOk(a, r, s.heard) ensures ReplyOk(a, r, h) { ReplyMore(a, r, s.heard, h); }
  }

  lemma NormMore(k: CacheKey, v: Bytes, a: set<Bytes>, b: set<Bytes>)
    requires NormFor(k, v, a) && a <= b
    ensures NormFor(k, v, b)
  {
    hide Validates, Patched;
  }

  lemma ReplyMore(k: Asker, r: Bytes, a: set<Bytes>, b: set<Bytes>)
    requires ReplyOk(k, r, a) && a <= b
    ensures ReplyOk(k, r, b)
  {
    hide Validates, Derived;
  }

  lemma MoveKeepsSound(s: State, t: Tid, th: Thread)
    requires Sound(s) && ThreadSound(th, s.heard)
    ensures Sound(s.(threads := s.threads[t := th]))
  {
    hide CacheSound, ResultOk, ThreadSound;
  }

  lemma LookupKeepsSound(s: State, t: Tid, now: int)
    requires Linked(s) && Sound(s) && Enabled(s, Lookup(t, now))
    ensures Sound(Next(s, Lookup(t, now)))
  {
    hide Linked, EntryOk, ReplyOk, NormFor, ResultOk, Aged, Patched, Cache.Without, Cache.ToBack;
    LinkedThread(s, t);
    var th := s.threads[t];
    GetKeepsCacheSound(s.cache, th.key, now, s.heard);
    var (cache, hit) := Cache.GetStep(s.cache, th.key, now);
    if hit.Some? {
      HitReplyOk(th, s.cache.data[th.key], hit.value.age, s.heard);
    }
    var s1 := s.(cache := cache);
    MoveKeepsSound(s1, t, LookupStep(s, t, now).threads[t]);
  }

  lemma AnsweredKeepsSound(s: State, t: Tid, m: Bytes)
    requires Linked(s) && Sound(s) && Enabled(s, Answered(t, m))
    ensures Sound(Next(s, Answered(t, m)))
  {
    hide Linked, Sound, Validates, Patched;
    LinkedThread(s, t);
    HearMore(s, m);
    var s' := AnsweredStep(s, t, m);
    MoveKeepsSound(s.(heard := s.heard + {m}), t, s'.threads[t]);
  }

  lemma StoreKeepsSound(s: State, t: Tid, expiryNow: int, lockNow: int)
    requires Sound(s) && Enabled(s, Store(t, expiryNow, lockNow))
    ensures Sound(Next(s, Store(t, expiryNow, lockNow)))
  {
    hide CacheSound, NormFor, Stored, ReplyOk;
    var th := s.threads[t];
    assert ThreadSound(th, s.heard);
    StoreKeepsCacheSound(s.cache, s.capacity, th.key, th.pc.norm, expiryNow, lockNow, s.heard);
    var s' := StoreStep(s, t, expiryNow, lockNow);
    MoveKeepsSound(s.(cache := s'.cache), t, s'.threads[t]);
  }

  lemma PublishKeepsSound(s: State, t: Tid)
    requires Linked(s) && Sound(s) && Enabled(s, Publish(t))
    ensures Sound(Next(s, Publish(t)))
  {
    hide Linked, CacheSound, NormFor, ReplyOk, ResultOk;
    LinkedThread(s, t);
    assert ThreadSound(s.threads[t], s.heard);
  }

  lemma StepKeepsSound(s: State, a: Action)
    requires Linked(s) && Sound(s) && Enabled(s, a)
    ensures Sound(Next(s, a))
  {
    hide Linked, CacheSound, NormFor, ReplyOk, ResultOk, ReplyFor;
    match a
    case Lookup(t, now) => LookupKeepsSound(s, t, now);
    case Answered(t, m) => AnsweredKeepsSound(s, t, m);
    case Store(t, e, l) => StoreKeepsSound(s, t, e, l);
    case Publish(t) => PublishKeepsSound(s, t);
    case _ => OtherKeepsSound(s, a);
  }

  lemma OtherKeepsSound(s: State, a: Action)
    requires Sound(s) && Enabled(s, a)
    requires !a.Lookup? && !a.Answered? && !a.Store? && !a.Publish?
    ensures Sound(Next(s, a))
  {
    hide CacheSound, NormFor, ReplyOk, ReplyFor, Validates;
    var s' := Next(s, a);
    if a.JoinOrLead? {
      forall c | c in s'.calls && s'.calls[c].done ensures ResultOk(s'.calls[c].key, s'.calls[c].result, s'.heard) {
      }
    }
  }

  // ---------------------------------------------------------------- whole runs

  /** The actions can happen one after the other. */
  ghost predicate Runs(s: State, run: seq<Action>)
    decreases |run|
  {
    run == [] || (Enabled(s, run[0]) && Runs(Next(s, run[0]), run[1..]))
  }

  ghost function After(s: State, run: seq<Action>): State
    requires Runs(s, run)
    decreases |run|
  {
    if run == [] then s else After(Next(s, run[0]), run[1..])
  }

  lemma {:induction false} RunKeeps(s: State, run: seq<Action>)
    requires Linked(s) && Sound(s) && Runs(s, run)
    ensures Linked(After(s, run)) && Sound(After(s, run))
    decreases |run|
  {
    hide Linked, Sound, Enabled, Next;
    if run != [] {
      StepKeepsLinked(s, run[0]);
      StepKeepsSound(s, run[0]);
      RunKeeps(Next(s, run[0]), run[1..]);
    }
  }

  /** Linked and Sound hold in every reachable state. */
  lemma Reachable(capacity: nat, run: seq<Action>)
    requires Runs(Initial(capacity), run)
    ensures Linked(After(Initial(capacity), run)) && Sound(After(Initial(capacity), run))
  {
    RunKeeps(Initial(capacity), run);
  }

  lemma HeardStep(s: State, a: Action)
    requires Enabled(s, a)
    ensures Next(s, a).heard == s.heard + (if a.Answered? then {a.message} else {})
  {
    hide Cache.GetStep, Validates, Stored, Aged, Patched;
  }

  /** `heard` holds exactly what upstreams sent during the run. */
  lemma {:induction false} HeardExactly(s: State, run: seq<Action>, m: Bytes)
    requires Runs(s, run)
    ensures m in After(s, run).heard
        <==> m in s.heard || exists i :: 0 <= i < |run| && run[i].Answered? && run[i].message == m
    decreases |run|
  {
    hide Enabled, Next;
    if run != [] {
      HeardStep(s, run[0]);
      HeardExactly(Next(s, run[0]), run[1..], m);
      if i :| 0 <= i < |run| && run[i].Answered? && run[i].message == m {
        assert i > 0 ==> run[1..][i - 1] == run[i];
      }
    }
  }

  /** A published result never changes. */
  lemma DoneStays(s: State, a: Action, c: CallId)
    requires Linked(s) && Enabled(s, a) && c in s.calls && s.calls[c].done
    ensures c in Next(s, a).calls && Next(s, a).calls[c] == s.calls[c]
  {
    hide Linked, Cache.GetStep, Validates, Stored, Aged, Patched, ReplyFor;
    if a.tid in s.threads { LinkedThread(s, a.tid); }
  }

  /** The response a goroutine handed to its client. */
  function Returned(pc: PC): Option<Bytes> {
    match pc
    case FromCache(reply) => Some(reply)
    case FromCall(_, r) => if r.Response? then Some(r.bytes) else None
    case _ => None
  }

  /** Cache soundness over runs: in every interleaving, every response handed to a client, from
      upstream, from another goroutine's call or from the cache, carries the asker's ID and is,
      outside the ID and TTL fields, byte for byte a message an upstream sent during the run and
      whose question has the asker's name, type and class. */
  lemma EveryReplySound(capacity: nat, run: seq<Action>, t: Tid)
    requires Runs(Initial(capacity), run)
    requires var s := After(Initial(capacity), run); t in s.threads && Returned(s.threads[t].pc).Some?
    ensures var th := After(Initial(capacity), run).threads[t];
            exists i :: 0 <= i < |run| && run[i].Answered? && Asks(run[i].message, th.asker.question)
                        && Derived(run[i].message, th.asker.id, Returned(th.pc).value)
  {
    hide Linked, Runs, Enabled, Validates, Asks, Derived, NormFor, Patched, EntryOk;
    Reachable(capacity, run);
    var s := After(Initial(capacity), run);
    var th := s.threads[t];
    LinkedThread(s, t);
    assert ThreadSound(th, s.heard);
    if th.pc.FromCall? {
      SharedReplyOk(th, s.calls[th.pc.call].result.bytes, s.heard);
    }
    var reply := Returned(th.pc).value;
    assert ReplyOk(th.asker, reply, s.heard);
    var m :| m in s.heard && Validates(th.asker.question, m) && Derived(m, th.asker.id, reply);
    HeardExactly(Initial(capacity), run, m);
    ValidatesIff(th.asker.question, m);
  }

  /** Singleflight over runs: whoever returns from a call, its leader or a waiter, returns the one
      result the leader published, under its own transaction ID; until then the leader holds the
      only inflight entry of the key. */
  lemma EveryInterleaving(capacity: nat, run: seq<Action>, t: Tid)
    requires Runs(Initial(capacity), run) && t in After(Initial(capacity), run).threads
    ensures var s := After(Initial(capacity), run); var th := s.threads[t];
            && (th.pc.FromCall? ==>
                  && th.pc.call in s.calls && s.calls[th.pc.call].done && s.calls[th.pc.call].key == th.key
                  && th.pc.returned == ReplyFor(s.calls[th.pc.call].result, th.asker.id))
            && (th.pc.Waiting? ==>
                  && th.pc.call in s.calls && s.calls[th.pc.call].key == th.key
                  && (s.calls[th.pc.call].done || Owns(s, s.calls[th.pc.call].leader, th.pc.call)))
            && (CallOf(th.pc).Some? ==>
                  && th.key in s.inflight && Some(s.inflight[th.key]) == CallOf(th.pc)
                  && forall u :: u in s.threads && u != t && s.threads[u].key == th.key ==>
                       CallOf(s.threads[u].pc) == None)
  {
    hide Sound, Runs, ReplyFor, Enabled;
    Reachable(capacity, run);
    var s := After(Initial(capacity), run);
    LinkedThread(s, t);
    forall u | u in s.threads && u != t && s.threads[u].key == s.threads[t].key && CallOf(s.threads[t].pc).Some?
      ensures CallOf(s.threads[u].pc) == None
    {
      if CallOf(s.threads[u].pc).Some? { OneLeader(s, t, u); }
    }
  }

  // ---------------------------------------------------------------- TTLs served over whole runs

  /** A hit is younger than the lifetime its message allows. */
  lemma HitIsLive(s: State, key: CacheKey, now: int)
    requires CacheSound(s.cache, s.heard) && Cache.GetStep(s.cache, key, now).1.Some?
    ensures var h := Cache.GetStep(s.cache, key, now).1.value;
            && key in s.cache.data && h.value == s.cache.data[key].value
            && h.kind == CacheDecision(h.value).kind && h.age < Lifetime(h.value)
  {
    hide NormFor, CacheDecision, Lifetime, Cache.ToBack, Cache.Without;
  }

  /** `v` parses without reading a TTL field. */
  ghost predicate Readable(v: Bytes) {
    |v| >= HEADER_SIZE && Parsed(v).Ok? && TtlFields.NamesClear(v)
  }

  /** Compressed or not, a message whose names read neither a TTL field nor the ID is readable under
      every ID. */
  lemma ReadableUnderId(v: Bytes, id: U16)
    requires Readable(v) && IdUnread(v)
    ensures Readable(Patched(v, id))
  {
    hide PacketAt, TtlFields.NamesClear, IdUnread, Patched;
    ParsesUnderId(v, id, PacketAt(v).value.0, PacketAt(v).value.1);
  }

  /** The bytes served for a live entry `v` of any type, under the asker's ID: every record of every
      section shows ShownTTL. */
  lemma LiveReplyTTLs(v: Bytes, id: U16, age: int, k: nat)
    requires Readable(v) && Readable(Patched(v, id)) && age < Lifetime(v)
    requires k < |Records(Parsed(v).value)| && TypeOf(Records(Parsed(v).value)[k]) != TYPE_OPT
    ensures Parsed(Patched(Aged(v, age), id)).Ok?
    ensures var p, reply := Parsed(v).value, Parsed(Patched(Aged(v, age), id)).value;
            && |reply.answers| == |p.answers| && |Records(reply)| == |Records(p)|
            && Records(reply)[k].h.ttl == ShownTTL(Records(p)[k].h.ttl, AgeSeconds(age))
  {
    hide PacketAt, TtlFields.NamesClear, Aged, Patched, TypeOf, Lifetime, AgedTTL, WholeSeconds, ShownTTL, Records;
    TTLsIgnoreId(v, id, k);
    var w := Patched(v, id);
    if age < SECOND {
      YoungUnchanged(v, age);
      ShownYoung(Records(Parsed(v).value)[k].h.ttl);
    } else {
      AgeBelowCap(v, age);
      AgedUnderId(v, id, age);
      TtlFields.AgingParses(w, PacketAt(w).value.0, PacketAt(w).value.1, age);
      AgedAgain(PacketAt(w).value.0, WholeSeconds(age), k);
      ShownIff(Records(Parsed(v).value)[k].h.ttl, WholeSeconds(age));
    }
  }

  lemma AgedAgain(p: Packet, s: U32, k: nat)
    requires k < |Records(p)| && TypeOf(Records(p)[k]) != TYPE_OPT
    ensures |AgedPacket(p, s).answers| == |p.answers| && |Records(AgedPacket(p, s))| == |Records(p)|
    ensures Records(AgedPacket(p, s))[k].h.ttl == AgedTTL(Records(p)[k].h.ttl, s)
  {
    hide AgedTTL, TypeOf;
  }

  /** A record wraps at some moment of its entry's life exactly if the entry outlives it. */
  lemma EverWrapsIff(v: Bytes, id: U16, k: nat)
    requires Readable(v) && Readable(Patched(v, id))
    requires k < |Records(Parsed(v).value)| && TypeOf(Records(Parsed(v).value)[k]) != TYPE_OPT
    ensures (exists age :: age < Lifetime(v) && ShowsMore(v, id, age, k))
        <==> (Records(Parsed(v).value)[k].h.ttl + 1) * SECOND < Lifetime(v)
  {
    hide PacketAt, TtlFields.NamesClear, Aged, Patched, TypeOf, Lifetime, Records;
    var ttl := Records(Parsed(v).value)[k].h.ttl;
    forall age | age < Lifetime(v) ensures ShowsMore(v, id, age, k) <==> ttl < AgeSeconds(age) {
      LiveReplyTTLs(v, id, age, k);
      SecondsBelow(v, age);
      ShownIff(ttl, AgeSeconds(age));
    }
    var age := (ttl + 1) * SECOND;
    assert age / SECOND == ttl + 1;
    if age < Lifetime(v) {
      assert ShowsMore(v, id, age, k);
    }
  }

  /** The reply shows a larger TTL than the entry holds. */
  predicate ShowsMore(v: Bytes, id: U16, age: int, k: nat) {
    var stored, reply := Parsed(v), Parsed(Patched(Aged(v, age), id));
    && stored.Ok? && reply.Ok? && k < |Records(stored.value)| && k < |Records(reply.value)|
    && Records(reply.value)[k].h.ttl > Records(stored.value)[k].h.ttl
  }

  lemma SecondsBelow(v: Bytes, age: int)
    requires age < Lifetime(v)
    ensures AgeSeconds(age) < 0x1_0000_0000
  {
    hide Lifetime;
    if age >= SECOND { AgeBelowCap(v, age); }
  }

  /** A lookup in `s` that hits a message which is readable as stored and as served. */
  ghost predicate HitsReadable(s: State, t: Tid, now: int) {
    && Enabled(s, Lookup(t, now))
    && Cache.GetStep(s.cache, s.threads[t].key, now).1.Some?
    && var v := Cache.GetStep(s.cache, s.threads[t].key, now).1.value.value;
    && Readable(v) && Readable(Patched(v, s.threads[t].asker.id))
  }

  /** Which records wrap, in any run: on every hit of every entry type, each record of each section
      is served with ShownTTL, so it wraps exactly if it has been cached for longer than its TTL. */
  lemma ServedRecords(capacity: nat, run: seq<Action>, t: Tid, now: int, k: nat)
    requires Runs(Initial(capacity), run) && HitsReadable(After(Initial(capacity), run), t, now)
    requires var s := After(Initial(capacity), run);
             var stored := Records(Parsed(Cache.GetStep(s.cache, s.threads[t].key, now).1.value.value).value);
             k < |stored| && TypeOf(stored[k]) != TYPE_OPT
    ensures var s := After(Initial(capacity), run);
            var h := Cache.GetStep(s.cache, s.threads[t].key, now).1.value;
            var pc := Next(s, Lookup(t, now)).threads[t].pc;
            && pc.FromCache? && Parsed(pc.reply).Ok?
            && var stored, served := Records(Parsed(h.value).value), Records(Parsed(pc.reply).value);
            && |served| == |stored| && |Parsed(pc.reply).value.answers| == |Parsed(h.value).value.answers|
            && served[k].h.ttl == ShownTTL(stored[k].h.ttl, AgeSeconds(h.age))
            && (served[k].h.ttl > stored[k].h.ttl <==> stored[k].h.ttl < AgeSeconds(h.age))
  {
    hide Linked, Runs, PacketAt, TtlFields.NamesClear, Aged, Patched, CacheDecision, Lifetime, Cache.GetStep;
    hide CacheSound;
    hide TypeOf, Records, ShownTTL, AgeSeconds;
    Reachable(capacity, run);
    var s := After(Initial(capacity), run);
    HitIsLive(s, s.threads[t].key, now);
    var h := Cache.GetStep(s.cache, s.threads[t].key, now).1.value;
    LiveReplyTTLs(h.value, s.threads[t].asker.id, h.age, k);
    SecondsBelow(h.value, h.age);
    ShownIff(Records(Parsed(h.value).value)[k].h.ttl, AgeSeconds(h.age));
  }

  /** No wraparound on positive hits, in any run: each answer with a nonzero TTL is served with
      exactly its stored TTL minus the whole seconds the entry has been cached, at least 1. */
  lemma ServedTTLs(capacity: nat, run: seq<Action>, t: Tid, now: int, i: nat)
    requires Runs(Initial(capacity), run) && HitsReadable(After(Initial(capacity), run), t, now)
    requires var s := After(Initial(capacity), run);
             var h := Cache.GetStep(s.cache, s.threads[t].key, now).1.value;
             && h.kind.Positive? && i < |Parsed(h.value).value.answers|
             && var a := Parsed(h.value).value.answers[i]; a.h.ttl != 0 && TypeOf(a) != TYPE_OPT
    ensures var s := After(Initial(capacity), run);
            var h := Cache.GetStep(s.cache, s.threads[t].key, now).1.value;
            var pc := Next(s, Lookup(t, now)).threads[t].pc;
            && pc.FromCache? && Parsed(pc.reply).Ok?
            && var stored, served := Parsed(h.value).value.answers, Parsed(pc.reply).value.answers;
            && |served| == |stored|
            && served[i].h.ttl == stored[i].h.ttl - AgeSeconds(h.age) >= 1
  {
    hide Linked, Runs, PacketAt, TtlFields.NamesClear, Aged, Patched, CacheDecision, Lifetime, Cache.GetStep;
    hide CacheSound;
    hide TypeOf, ShownTTL, AgeSeconds;
    Reachable(capacity, run);
    var s := After(Initial(capacity), run);
    HitIsLive(s, s.threads[t].key, now);
    var h := Cache.GetStep(s.cache, s.threads[t].key, now).1.value;
    ServedRecords(capacity, run, t, now, i);
    PositiveShown(h.value, Parsed(h.value).value, h.age, i);
  }

  /** Every printed message is readable under every ID, so ServedRecords and ServedTTLs cover all of them. */
  lemma PrintedReadable(p: Packet, id: U16)
    requires Printable(p)
    ensures Readable(PacketWire(p).value) && Readable(Patched(PacketWire(p).value, id))
  {
    hide PacketAt, TtlFields.NamesClear, Patched, PacketWire, KindsOk;
    var q := p.(header := p.header.(id := id));
    PatchCommutes(p, id);
    PacketRoundTrip(p);
    PacketRoundTrip(q);
    TtlFields.PrintedClear(p);
    TtlFields.PrintedClear(q);
  }

  // ---------------------------------------------------------------- what can be served is served

  /** One client asks an idle resolver and becomes the leader. */
  function Asking(asker: Asker, up: string, now: int): seq<Action> {
    [Start(0, asker, up), Lookup(0, now), JoinOrLead(0, 0)]
  }

  /** Upstream answers `m`, which is stored, published and returned. */
  function Answering(m: Bytes, expiryNow: int, lockNow: int): seq<Action> {
    [Answered(0, m), Store(0, expiryNow, lockNow), Publish(0), Delete(0)]
  }

  function Missing(key: CacheKey, now: int): Cache.State<CacheKey, Bytes> {
    Cache.GetStep(Cache.Empty(), key, now).0
  }

  function Asked(capacity: nat, asker: Asker, up: string, now: int): State {
    var key := CacheKey(asker.question, up);
    State(capacity, Missing(key, now), map[key := 0], map[0 := Call(key, 0, false, Error)],
          map[0 := Thread(asker, key, Leading(0))], {})
  }

  function Served(capacity: nat, asker: Asker, up: string, m: Bytes, expiryNow: int, lockNow: int): State {
    var key, norm := CacheKey(asker.question, up), Patched(m, 0);
    State(capacity, Stored(Missing(key, expiryNow), capacity, key, norm, expiryNow, lockNow), map[],
          map[0 := Call(key, 0, true, Response(norm))],
          map[0 := Thread(asker, key, FromCall(0, Response(Patched(norm, asker.id))))],
          {m})
  }

  /** One more step in front of a run. */
  lemma RunsFrom(s: State, run: seq<Action>, k: nat, s': State)
    requires k < |run| && Enabled(s, run[k]) && Next(s, run[k]) == s' && Runs(s', run[k + 1..])
    ensures Runs(s, run[k..]) && After(s, run[k..]) == After(s', run[k + 1..])
  {
    hide Enabled, Next;
    assert run[k..][1..] == run[k + 1..];
  }

  lemma {:induction false} RunsAppend(s: State, a: seq<Action>, b: seq<Action>)
    requires Runs(s, a) && Runs(After(s, a), b)
    ensures Runs(s, a + b) && After(s, a + b) == After(After(s, a), b)
    decreases |a|
  {
    hide Enabled, Next;
    if a == [] {
      assert a + b == b;
    } else {
      RunsAppend(Next(s, a[0]), a[1..], b);
      assert (a + b)[1..] == a[1..] + b;
    }
  }

  lemma AskingRuns(capacity: nat, asker: Asker, up: string, now: int)
    ensures Runs(Initial(capacity), Asking(asker, up, now))
    ensures After(Initial(capacity), Asking(asker, up, now)) == Asked(capacity, asker, up, now)
  {
    hide Runs, After;
    var key := CacheKey(asker.question, up);
    var a := Asking(asker, up, now);
    var s0 := Initial(capacity);
    var s1 := s0.(threads := map[0 := Thread(asker, key, Looking)]);
    var s2 := s0.(cache := Missing(key, now), threads := map[0 := Thread(asker, key, Missed)]);
    var s3 := Asked(capacity, asker, up, now);
    assert a[3..] == [] && a[0..] == a;
    NoSteps(s3);
    RunsFrom(s2, a, 2, s3);
    RunsFrom(s1, a, 1, s2);
    RunsFrom(s0, a, 0, s1);
  }

  /** Between the cache store and publishing. */
  function Cached(capacity: nat, asker: Asker, up: string, m: Bytes, expiryNow: int, lockNow: int): State {
    var s := Asked(capacity, asker, up, expiryNow);
    var key, norm := CacheKey(asker.question, up), Patched(m, 0);
    s.(heard := {m}, cache := Stored(s.cache, capacity, key, norm, expiryNow, lockNow),
       threads := map[0 := Thread(asker, key, Finishing(0, Response(norm)))])
  }

  lemma StoringRuns(capacity: nat, asker: Asker, up: string, m: Bytes, expiryNow: int, lockNow: int)
    requires Validates(asker.question, m) && expiryNow <= lockNow
    ensures var s := Asked(capacity, asker, up, expiryNow);
            && Enabled(s, Answered(0, m))
            && Enabled(Next(s, Answered(0, m)), Store(0, expiryNow, lockNow))
            && Next(Next(s, Answered(0, m)), Store(0, expiryNow, lockNow))
               == Cached(capacity, asker, up, m, expiryNow, lockNow)
  {
    hide Validates, Patched, Stored, Missing;
    var s := Asked(capacity, asker, up, expiryNow);
    var key := CacheKey(asker.question, up);
    assert Next(s, Answered(0, m))
        == s.(heard := {m}, threads := map[0 := Thread(asker, key, Storing(0, Patched(m, 0)))]);
  }

  lemma PublishingRuns(capacity: nat, asker: Asker, up: string, m: Bytes, expiryNow: int, lockNow: int)
    ensures var s := Cached(capacity, asker, up, m, expiryNow, lockNow);
            && Enabled(s, Publish(0))
            && Enabled(Next(s, Publish(0)), Delete(0))
            && Next(Next(s, Publish(0)), Delete(0)) == Served(capacity, asker, up, m, expiryNow, lockNow)
  {
    hide Patched, Stored, Missing;
    var s := Cached(capacity, asker, up, m, expiryNow, lockNow);
    var key := CacheKey(asker.question, up);
    assert Next(s, Publish(0)) == s.(calls := map[0 := Call(key, 0, true, Response(Patched(m, 0)))],
                                     threads := map[0 := Thread(asker, key, Deleting(0))]);
  }

  lemma AnsweringRuns(capacity: nat, asker: Asker, up: string, m: Bytes, expiryNow: int, lockNow: int)
    requires Validates(asker.question, m) && expiryNow <= lockNow
    ensures Runs(Asked(capacity, asker, up, expiryNow), Answering(m, expiryNow, lockNow))
    ensures After(Asked(capacity, asker, up, expiryNow), Answering(m, expiryNow, lockNow))
         == Served(capacity, asker, up, m, expiryNow, lockNow)
  {
    hide Validates, Runs, After, Next, Enabled, Asked, Cached, Served;
    StoringRuns(capacity, asker, up, m, expiryNow, lockNow);
    PublishingRuns(capacity, asker, up, m, expiryNow, lockNow);
    var a := Answering(m, expiryNow, lockNow);
    var s3, s5 := Asked(capacity, asker, up, expiryNow), Cached(capacity, asker, up, m, expiryNow, lockNow);
    var s4, s6, s7 := Next(s3, a[0]), Next(s5, a[2]), Served(capacity, asker, up, m, expiryNow, lockNow);
    assert a[4..] == [] && a[0..] == a;
    NoSteps(s7);
    RunsFrom(s6, a, 3, s7);
    RunsFrom(s5, a, 2, s6);
    RunsFrom(s4, a, 1, s5);
    RunsFrom(s3, a, 0, s4);
  }

  /** Every message that validates reaches a client that asks an idle resolver, and the next client
      with the same question is served it from the cache until its lifetime ends. */
  lemma ServesValidated(capacity: nat, asker: Asker, up: string, m: Bytes, expiryNow: int, lockNow: int, now: int)
    requires Validates(asker.question, m) && expiryNow <= lockNow && capacity > 0
    requires 0 < Lifetime(Patched(m, 0)) && now < expiryNow + Lifetime(Patched(m, 0))
    ensures var run := Asking(asker, up, expiryNow) + Answering(m, expiryNow, lockNow);
            && Runs(Initial(capacity), run)
            && var s := After(Initial(capacity), run);
            && 0 in s.threads && Returned(s.threads[0].pc) == Some(Patched(m, asker.id))
            && Cache.GetStep(s.cache, CacheKey(asker.question, up), now).1
               == Some(Cache.Hit(Patched(m, 0), now - lockNow, CacheDecision(Patched(m, 0)).kind))
  {
    hide Validates, Patched, Runs, After, Asking, Answering, Lifetime, CacheDecision, Cache.GetStep, Stored, Asked;
    AskingRuns(capacity, asker, up, expiryNow);
    AnsweringRuns(capacity, asker, up, m, expiryNow, lockNow);
    RunsAppend(Initial(capacity), Asking(asker, up, expiryNow), Answering(m, expiryNow, lockNow));
    PatchTwice(m, 0, asker.id);
    StoredIsFound(CacheKey(asker.question, up), capacity, Patched(m, 0), expiryNow, lockNow, now);
  }

  lemma NoSteps(s: State)
    ensures Runs(s, []) && After(s, []) == s
  {
  }

  lemma StoredIsFound(key: CacheKey, capacity: nat, v: Bytes, expiryNow: int, lockNow: int, now: int)
    requires capacity > 0 && 0 < Lifetime(v) && now < expiryNow + Lifetime(v)
    ensures Cache.GetStep(Stored(Missing(key, expiryNow), capacity, key, v, expiryNow, lockNow), key, now).1
         == Some(Cache.Hit(v, now - lockNow, CacheDecision(v).kind))
  {
    hide CacheDecision, Cache.ToBack, Cache.Evict;
    var d := CacheDecision(v);
    var e := Cache.Entry(v, lockNow, expiryNow + Lifetime(v), d.kind);
    Cache.EvictOnce([key], map[key := e], capacity);
    assert [] + [key] == [key];
  }

  // ---------------------------------------------------------------- from any state on

  /** A client that starts now and whose key is cached returns the cached message, aged and under
      its own ID; one whose key is not cached goes on to ask. */
  lemma NewClientLooksUp(s: State, t: Tid, asker: Asker, up: string, now: int)
    requires t !in s.threads
    ensures Enabled(s, Start(t, asker, up)) && Enabled(Next(s, Start(t, asker, up)), Lookup(t, now))
    ensures var pc := Next(Next(s, Start(t, asker, up)), Lookup(t, now)).threads[t].pc;
            match Cache.GetStep(s.cache, CacheKey(asker.question, up), now).1
            case None => pc == Missed
            case Some(h) => Returned(pc) == Some(Patched(Aged(h.value, h.age), asker.id))
  {
    hide Cache.GetStep, Aged, Patched;
  }

  /** The published result under a client's own ID: an error, or the response patched. */
  predicate IsReply(result: Result, id: U16, returned: Result) {
    if result == Error then returned == Error else returned == Response(Patched(result.bytes, id))
  }

  /** A leader that is done asking publishes, deletes its entry and returns its result. */
  lemma LeaderFinishes(s: State, u: Tid)
    requires Linked(s) && u in s.threads && s.threads[u].pc.Finishing?
    ensures Runs(s, [Publish(u), Delete(u)])
    ensures var pc, end := s.threads[u].pc, After(s, [Publish(u), Delete(u)]);
            && u in end.threads && end.threads[u].pc.FromCall? && end.threads[u].pc.call == pc.call
            && IsReply(pc.result, s.threads[u].asker.id, end.threads[u].pc.returned)
            && s.threads[u].key !in end.inflight
  {
    hide Linked, Patched;
    LinkedThread(s, u);
    var run := [Publish(u), Delete(u)];
    var s1 := Next(s, run[0]);
    var s2 := Next(s1, run[1]);
    hide Enabled, Next;
    assert run[2..] == [] && run[0..] == run;
    NoSteps(s2);
    RunsFrom(s1, run, 1, s2);
    RunsFrom(s, run, 0, s1);
  }

  /** What the leader does with a message from upstream. */
  function LeaderRun(u: Tid, m: Bytes, stores: bool, expiryNow: int, lockNow: int): seq<Action> {
    [Answered(u, m)] + (if stores then [Store(u, expiryNow, lockNow)] else []) + [Publish(u), Delete(u)]
  }

  /** In every reachable state a leader that hears `m` returns it, under its own ID, if it asks the
      leader's question, and an error otherwise; a leader whose upstreams all fail returns an error. */
  lemma LeaderReturns(s: State, u: Tid, m: Bytes, expiryNow: int, lockNow: int)
    requires Linked(s) && u in s.threads && s.threads[u].pc.Leading? && expiryNow <= lockNow
    ensures var run := LeaderRun(u, m, Asks(m, s.threads[u].asker.question), expiryNow, lockNow);
            && Runs(s, run) && u in After(s, run).threads
            && After(s, run).threads[u].pc
               == FromCall(s.threads[u].pc.call, if Asks(m, s.threads[u].asker.question)
                                                 then Response(Patched(m, s.threads[u].asker.id)) else Error)
    ensures var run := [QueryFailed(u), Publish(u), Delete(u)];
            && Runs(s, run) && u in After(s, run).threads
            && After(s, run).threads[u].pc == FromCall(s.threads[u].pc.call, Error)
  {
    hide Linked, Runs, After, Validates, Asks, Patched, Stored;
    var q, id := s.threads[u].asker.question, s.threads[u].asker.id;
    ValidatesIff(q, m);
    var s1 := Next(s, Answered(u, m));
    QuietKeepsLinked(s, Answered(u, m));
    if Asks(m, q) {
      var s2 := Next(s1, Store(u, expiryNow, lockNow));
      QuietKeepsLinked(s1, Store(u, expiryNow, lockNow));
      LeaderFinishes(s2, u);
      PatchTwice(m, 0, id);
      Prepend(s1, Store(u, expiryNow, lockNow), [Publish(u), Delete(u)]);
      Prepend(s, Answered(u, m), [Store(u, expiryNow, lockNow)] + [Publish(u), Delete(u)]);
      assert LeaderRun(u, m, true, expiryNow, lockNow)
          == [Answered(u, m)] + ([Store(u, expiryNow, lockNow)] + [Publish(u), Delete(u)]);
    } else {
      LeaderFinishes(s1, u);
      Prepend(s, Answered(u, m), [Publish(u), Delete(u)]);
      assert LeaderRun(u, m, false, expiryNow, lockNow) == [Answered(u, m)] + [Publish(u), Delete(u)];
    }
    QuietKeepsLinked(s, QueryFailed(u));
    LeaderFinishes(Next(s, QueryFailed(u)), u);
    Prepend(s, QueryFailed(u), [Publish(u), Delete(u)]);
    assert [QueryFailed(u), Publish(u), Delete(u)] == [QueryFailed(u)] + [Publish(u), Delete(u)];
  }

  lemma Prepend(s: State, a: Action, rest: seq<Action>)
    requires Enabled(s, a) && Runs(Next(s, a), rest)
    ensures Runs(s, [a] + rest) && After(s, [a] + rest) == After(Next(s, a), rest)
  {
    hide Enabled, Next;
    assert ([a] + rest)[1..] == rest;
  }

  // ---------------------------------------------------------------- every waiter is served

  /** The goroutine waits for call `c`, or has returned its result. */
  predicate Awaits(s: State, t: Tid, c: CallId) {
    t in s.threads && (s.threads[t].pc == Waiting(c) || (s.threads[t].pc.FromCall? && s.threads[t].pc.call == c))
  }

  /** The goroutine leads call `c`, or has returned its result. */
  predicate Serves(s: State, u: Tid, c: CallId) {
    u in s.threads && (CallOf(s.threads[u].pc) == Some(c) || (s.threads[u].pc.FromCall? && s.threads[u].pc.call == c))
  }

  lemma StepAwaits(s: State, a: Action, t: Tid, c: CallId)
    requires Awaits(s, t, c) && Enabled(s, a) && a != GiveUp(t)
    ensures Awaits(Next(s, a), t, c) && Next(s, a).threads[t].asker == s.threads[t].asker
  {
    hide Cache.GetStep, Aged, Patched, Validates, Stored, ReplyFor;
  }

  lemma StepServes(s: State, a: Action, u: Tid, c: CallId)
    requires Serves(s, u, c) && Enabled(s, a)
    ensures Serves(Next(s, a), u, c) && Next(s, a).threads[u].asker == s.threads[u].asker
  {
    hide Cache.GetStep, Aged, Patched, Validates, Stored, ReplyFor;
  }

  lemma {:induction false} RunAwaits(s: State, run: seq<Action>, t: Tid, u: Tid, c: CallId)
    requires Runs(s, run) && Awaits(s, t, c) && Serves(s, u, c) && GiveUp(t) !in run
    ensures Awaits(After(s, run), t, c) && After(s, run).threads[t].asker == s.threads[t].asker
    ensures Serves(After(s, run), u, c) && After(s, run).threads[u].asker == s.threads[u].asker
    decreases |run|
  {
    hide Enabled, Next, Awaits, Serves;
    if run != [] {
      assert run[0] in run;
      StepAwaits(s, run[0], t, c);
      StepServes(s, run[0], u, c);
      RunAwaits(Next(s, run[0]), run[1..], t, u, c);
    }
  }

  /** A client that finds its key in flight joins the call of the goroutine that leads it. */
  lemma JoinsLeader(s: State, t: Tid, u: Tid, newCall: CallId)
    requires Linked(s) && Enabled(s, JoinOrLead(t, newCall)) && u in s.threads && CallOf(s.threads[u].pc).Some?
    requires s.threads[t].key == s.threads[u].key
    ensures var s' := Next(s, JoinOrLead(t, newCall)); var c := CallOf(s.threads[u].pc).value;
            && Awaits(s', t, c) && Serves(s', u, c)
            && s'.threads[t].asker == s.threads[t].asker && s'.threads[u].asker == s.threads[u].asker
  {
    hide Linked;
    LinkedThread(s, u);
  }

  /** What a waiter returns: what it has returned, or will return when it wakes. */
  function Outcome(s: State, t: Tid): Result
    requires t in s.threads
  {
    if s.threads[t].pc.FromCall? then s.threads[t].pc.returned
    else if Enabled(s, Wake(t)) then Next(s, Wake(t)).threads[t].pc.returned
    else Error
  }

  /** Joiners are served, in every interleaving: if a client asks what another is already asking and
      is not cancelled, then once the leader has returned the client has returned too or can wake,
      and it returns the leader's error, or the leader's response under its own ID. */
  lemma JoinerServed(capacity: nat, run: seq<Action>, t: Tid, u: Tid, newCall: CallId, rest: seq<Action>)
    requires Runs(Initial(capacity), run)
    requires var s := After(Initial(capacity), run);
             && Enabled(s, JoinOrLead(t, newCall)) && u in s.threads && CallOf(s.threads[u].pc).Some?
             && s.threads[t].key == s.threads[u].key
             && Runs(Next(s, JoinOrLead(t, newCall)), rest) && GiveUp(t) !in rest
             && var end := After(Next(s, JoinOrLead(t, newCall)), rest);
             && u in end.threads && end.threads[u].pc.FromCall?
    ensures var s := After(Initial(capacity), run);
            var end := After(Next(s, JoinOrLead(t, newCall)), rest);
            && t in end.threads && (end.threads[t].pc.FromCall? || Enabled(end, Wake(t)))
            && exists result ::
                 && IsReply(result, s.threads[u].asker.id, end.threads[u].pc.returned)
                 && IsReply(result, s.threads[t].asker.id, Outcome(end, t))
  {
    hide Linked, Sound, Runs, After, Patched;
    Reachable(capacity, run);
    var s := After(Initial(capacity), run);
    var c := CallOf(s.threads[u].pc).value;
    var s1 := Next(s, JoinOrLead(t, newCall));
    JoinsLeader(s, t, u, newCall);
    StepKeepsLinked(s, JoinOrLead(t, newCall));
    StepKeepsSound(s, JoinOrLead(t, newCall));
    RunAwaits(s1, rest, t, u, c);
    RunKeeps(s1, rest);
    var end := After(s1, rest);
    LinkedThread(end, u);
    LinkedThread(end, t);
    var result := end.calls[c].result;
    assert IsReply(result, s.threads[u].asker.id, end.threads[u].pc.returned);
    assert IsReply(result, s.threads[t].asker.id, Outcome(end, t));
  }

  /** For example: a client that joins a leader about to publish a response wakes with it. */
  lemma JoinerWakes(s: State, t: Tid, u: Tid, newCall: CallId)
    requires Linked(s) && Enabled(s, JoinOrLead(t, newCall)) && u in s.threads && s.threads[t].key == s.threads[u].key
    requires s.threads[u].pc.Finishing? && s.threads[u].pc.result.Response?
    ensures var s1 := Next(s, JoinOrLead(t, newCall));
            && Enabled(s1, Publish(u)) && Enabled(Next(s1, Publish(u)), Wake(t))
            && Returned(Next(Next(s1, Publish(u)), Wake(t)).threads[t].pc)
               == Some(Patched(s.threads[u].pc.result.bytes, s.threads[t].asker.id))
  {
    hide Linked, Patched;
    LinkedThread(s, u);
  }
}
