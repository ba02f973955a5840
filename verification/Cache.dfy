/** The TTL-aware LRU cache: internal/resolvers/cache.go. Times and durations are nanoseconds. */
module Cache {
  import opened Wire

  datatype EntryType = Positive | NXDomain | NoData | ServFail

  const MAX_TTL: int := 24 * 3600 * SECOND
  const MAX_NEGATIVE_TTL: int := 3600 * SECOND

  datatype Entry<V> = Entry(value: V, cachedAt: int, expiresAt: int, kind: EntryType)

  /** What a successful lookup returns. */
  datatype Hit<V> = Hit(value: V, age: int, kind: EntryType)

  /** `order` lists the keys from least to most recently used. */
  datatype State<K(==), V> = State(order: seq<K>, data: map<K, Entry<V>>, hits: nat, misses: nat, negativeHits: nat)

  /** capTTL: 0 means that the entry must not be stored. */
  function CapTTL(ttl: int, kind: EntryType, negativeEnabled: bool): (t: int)
    ensures t <= ttl || t == 0
  {
    match kind
    case Positive => if ttl > MAX_TTL then MAX_TTL else ttl
    case _ => if !negativeEnabled then 0 else if ttl > MAX_NEGATIVE_TTL then MAX_NEGATIVE_TTL else ttl
  }

  // ---------------------------------------------------------------- one operation

  /** list.Remove of the element that holds `key`. */
  function Without<K(==)>(order: seq<K>, key: K): (r: seq<K>)
    ensures forall x :: x in r ==> x in order
    ensures |r| <= |order|
  {
    if order == [] then []
    else if order[0] == key then order[1..]
    else [order[0]] + Without(order[1..], key)
  }

  /** list.MoveToBack, and also list.PushBack for a key that is not there. */
  function ToBack<K(==)>(order: seq<K>, key: K): seq<K> {
    Without(order, key) + [key]
  }

  /** A lookup at clock reading `now`. */
  function GetStep<K(==), V>(s: State<K, V>, key: K, now: int): (State<K, V>, Option<Hit<V>>) {
    if key !in s.data then (s.(misses := s.misses + 1), None)
    else
      var e := s.data[key];
      if e.expiresAt <= now then
        (s.(order := Without(s.order, key), data := s.data - {key}, misses := s.misses + 1), None)
      else
        (s.(order := ToBack(s.order, key), hits := s.hits + 1,
            negativeHits := s.negativeHits + (if e.kind.Positive? then 0 else 1)),
         Some(Hit(e.value, now - e.cachedAt, e.kind)))
  }

  /** evictOldest: drop from the front while there are too many entries. */
  function Evict<K(==), V>(order: seq<K>, data: map<K, Entry<V>>, cap: nat): (seq<K>, map<K, Entry<V>>)
    decreases |order|
  {
    if |data| > cap && order != [] then Evict(order[1..], data - {order[0]}, cap) else (order, data)
  }

  /** An entry under a known key replaces the old one; a new key may push out the oldest. */
  function Stored<K(==), V>(s: State<K, V>, cap: nat, key: K, e: Entry<V>): State<K, V> {
    if key in s.data then s.(order := ToBack(s.order, key), data := s.data[key := e])
    else
      var (order, data) := Evict(s.order + [key], s.data[key := e], cap);
      s.(order := order, data := data)
  }

  /** A store: `expiryNow` is read before the lock is taken, `lockNow` under it. */
  function SetStep<K(==), V>(s: State<K, V>, cap: nat, key: K, value: V, ttl: int, kind: EntryType,
                             negativeEnabled: bool, expiryNow: int, lockNow: int): State<K, V> {
    var t := CapTTL(ttl, kind, negativeEnabled);
    if ttl <= 0 || t <= 0 then s
    else
      Stored(s, cap, key, Entry(value, lockNow, expiryNow + t, kind))
  }

  // ---------------------------------------------------------------- list and map agree

  predicate NoDup<K(==)>(order: seq<K>) {
    forall i, j :: 0 <= i < j < |order| ==> order[i] != order[j]
  }

  predicate SameKeys<K(==), V>(order: seq<K>, data: map<K, Entry<V>>) {
    (forall k :: k in order ==> k in data) && (forall k :: k in data ==> k in order)
  }

  /** The list and the map hold the same keys, each once, and no more than allowed. */
  ghost predicate Consistent<K, V>(s: State<K, V>, cap: nat) {
    && NoDup(s.order)
    && SameKeys(s.order, s.data)
    && |s.order| <= cap
  }

  lemma {:induction false} WithoutAbsent<K>(order: seq<K>, key: K)
    requires key !in order
    ensures Without(order, key) == order
  {
    if order != [] {
      WithoutAbsent(order[1..], key);
    }
  }

  lemma {:induction false} WithoutNoDup<K>(order: seq<K>, key: K)
    requires NoDup(order)
    ensures NoDup(Without(order, key)) && key !in Without(order, key)
    ensures forall x :: x in order && x != key ==> x in Without(order, key)
    ensures key in order ==> |Without(order, key)| == |order| - 1
  {
    if order != [] {
      var rest := order[1..];
      assert forall i, j :: 0 <= i < j < |rest| ==> rest[i] == order[i + 1] && rest[j] == order[j + 1];
      if order[0] == key {
        assert key !in rest;
      } else {
        WithoutNoDup(rest, key);
        assert order[0] !in rest;
        NoDupCons(order[0], Without(rest, key));
      }
    }
  }

  lemma NoDupCons<K>(x: K, order: seq<K>)
    requires NoDup(order) && x !in order
    ensures NoDup([x] + order)
  {
  }

  lemma NoDupTail<K>(order: seq<K>)
    requires NoDup(order) && order != []
    ensures NoDup(order[1..]) && order[0] !in order[1..]
  {
    var rest := order[1..];
    assert forall i, j :: 0 <= i < j < |rest| ==> rest[i] == order[i + 1] && rest[j] == order[j + 1];
  }

  lemma NoDupSnoc<K>(order: seq<K>, x: K)
    requires NoDup(order) && x !in order
    ensures NoDup(order + [x])
  {
  }

  lemma {:induction false} MapSize<K, V>(order: seq<K>, data: map<K, Entry<V>>)
    requires NoDup(order) && SameKeys(order, data)
    ensures |data| == |order|
    decreases order
  {
    hide NoDup;
    if order == [] {
      assert data.Keys == {};
    } else {
      var rest, less := order[1..], data - {order[0]};
      assert order == [order[0]] + rest;
      NoDupTail(order);
      MapSize(rest, less);
      assert data.Keys == less.Keys + {order[0]};
    }
  }

  lemma GetKeepsConsistent<K, V>(s: State<K, V>, cap: nat, key: K, now: int)
    requires Consistent(s, cap)
    ensures Consistent(GetStep(s, key, now).0, cap)
  {
    hide NoDup, Without;
    WithoutNoDup(s.order, key);
    NoDupSnoc(Without(s.order, key), key);
  }

  /** Eviction after one insertion drops at most the front. */
  lemma EvictOnce<K, V>(order: seq<K>, data: map<K, Entry<V>>, cap: nat)
    requires NoDup(order) && SameKeys(order, data) && |order| <= cap + 1
    ensures Evict(order, data, cap)
         == (if |order| > cap then (order[1..], data - {order[0]}) else (order, data))
    ensures |order| > cap ==> NoDup(order[1..]) && order[0] !in order[1..]
  {
    MapSize(order, data);
    if |order| > cap {
      var rest := order[1..];
      assert forall i, j :: 0 <= i < j < |rest| ==> rest[i] == order[i + 1] && rest[j] == order[j + 1];
      MapSize(rest, data - {order[0]});
    }
  }

  lemma SetKeepsConsistent<K, V>(s: State<K, V>, cap: nat, key: K, value: V, ttl: int, kind: EntryType,
                                 negativeEnabled: bool, expiryNow: int, lockNow: int)
    requires Consistent(s, cap) && cap > 0
    ensures Consistent(SetStep(s, cap, key, value, ttl, kind, negativeEnabled, expiryNow, lockNow), cap)
  {
    hide NoDup, Without, Evict;
    var t := CapTTL(ttl, kind, negativeEnabled);
    if ttl > 0 && t > 0 {
      if key in s.data {
        WithoutNoDup(s.order, key);
        NoDupSnoc(Without(s.order, key), key);
      } else {
        NoDupSnoc(s.order, key);
        EvictOnce(s.order + [key], s.data[key := Entry(value, lockNow, expiryNow + t, kind)], cap);
      }
    }
  }

  // ---------------------------------------------------------------- runs

  datatype Op<K, V> =
    | Get(key: K, now: int)
    | Set(key: K, value: V, ttl: int, kind: EntryType, expiryNow: int, lockNow: int)

  function Step<K(==), V>(s: State<K, V>, cap: nat, op: Op<K, V>): (State<K, V>, Option<Hit<V>>) {
    match op
    case Get(key, now) => GetStep(s, key, now)
    case Set(key, value, ttl, kind, expiryNow, lockNow) =>
      (SetStep(s, cap, key, value, ttl, kind, true, expiryNow, lockNow), None)
  }

  /** The final state of a run and what each operation returned. */
  function Run<K(==), V>(s: State<K, V>, cap: nat, ops: seq<Op<K, V>>): (r: (State<K, V>, seq<Option<Hit<V>>>))
    ensures |r.1| == |ops|
    decreases |ops|
  {
    if ops == [] then (s, [])
    else
      var (s', out) := Step(s, cap, ops[0]);
      var (end, outs) := Run(s', cap, ops[1..]);
      (end, [out] + outs)
  }

  function Empty<K(==), V>(): State<K, V> {
    State([], map[], 0, 0, 0)
  }

  lemma {:induction false} RunKeepsConsistent<K, V>(s: State<K, V>, cap: nat, ops: seq<Op<K, V>>)
    requires Consistent(s, cap) && cap > 0
    ensures Consistent(Run(s, cap, ops).0, cap)
    decreases |ops|
  {
    hide Consistent, GetStep, SetStep;
    if ops != [] {
      StepKeepsConsistent(s, cap, ops[0]);
      RunKeepsConsistent(Step(s, cap, ops[0]).0, cap, ops[1..]);
    }
  }

  lemma StepKeepsConsistent<K, V>(s: State<K, V>, cap: nat, op: Op<K, V>)
    requires Consistent(s, cap) && cap > 0
    ensures Consistent(Step(s, cap, op).0, cap)
  {
    hide Consistent, GetStep, SetStep;
    match op
    case Get(key, now) => GetKeepsConsistent(s, cap, key, now);
    case Set(key, value, ttl, kind, e, l) => SetKeepsConsistent(s, cap, key, value, ttl, kind, true, e, l);
  }

  // ---------------------------------------------------------------- inclusion

  /** The keys of `order` that are in `keys`, in their order. */
  function Restrict<K(==)>(order: seq<K>, keys: set<K>): (r: seq<K>)
    ensures forall x :: x in r ==> x in order && x in keys
  {
    if order == [] then []
    else (if order[0] in keys then [order[0]] else []) + Restrict(order[1..], keys)
  }

  /** The smaller cache's list is a subsequence of the larger one's, with the same entries, and
      room in the smaller cache means at least as much room in the larger one. */
  ghost predicate Within<K, V>(small: State<K, V>, n: nat, large: State<K, V>, m: nat) {
    && Restrict(large.order, small.data.Keys) == small.order
    && (forall k :: k in small.data ==> k in large.data && large.data[k] == small.data[k])
    && |large.order| - |small.order| <= m - n
    && small.hits <= large.hits && large.misses <= small.misses
    && small.hits + small.misses == large.hits + large.misses
  }

  lemma {:induction false} RestrictSnoc<K>(order: seq<K>, k: K, keys: set<K>)
    ensures Restrict(order + [k], keys) == Restrict(order, keys) + (if k in keys then [k] else [])
  {
    if order == [] {
      assert order + [k] == [k] && [k][1..] == [];
    } else {
      assert (order + [k])[1..] == order[1..] + [k];
      RestrictSnoc(order[1..], k, keys);
    }
  }

  lemma {:induction false} RestrictWithout<K>(order: seq<K>, k: K, keys: set<K>)
    ensures Restrict(Without(order, k), keys) == Without(Restrict(order, keys), k)
  {
    if order != [] {
      RestrictWithout(order[1..], k, keys);
      var rest := Restrict(order[1..], keys);
      if order[0] == k {
        if k !in keys { RestrictAbsent(order[1..], k, keys); }
      } else {
        var w := Without(order[1..], k);
        assert ([order[0]] + w)[1..] == w;
        if order[0] in keys {
          assert ([order[0]] + rest)[1..] == rest;
        } else {
          assert [] + rest == rest;
          assert [] + Restrict(w, keys) == Restrict(w, keys);
        }
      }
    }
  }

  lemma RestrictAbsent<K>(order: seq<K>, k: K, keys: set<K>)
    requires k !in keys
    ensures Without(Restrict(order, keys), k) == Restrict(order, keys)
    ensures [] + Restrict(order, keys) == Restrict(order, keys)
  {
    WithoutAbsent(Restrict(order, keys), k);
  }

  /** Keys that are not listed do not matter. */
  lemma {:induction false} RestrictSame<K>(order: seq<K>, a: set<K>, b: set<K>)
    requires forall x :: x in order ==> (x in a <==> x in b)
    ensures Restrict(order, a) == Restrict(order, b)
  {
    if order != [] {
      RestrictSame(order[1..], a, b);
    }
  }

  lemma RestrictMinus<K>(order: seq<K>, k: K, keys: set<K>)
    requires NoDup(order)
    ensures Restrict(order, keys - {k}) == Without(Restrict(order, keys), k)
  {
    hide Without, Restrict, NoDup;
    WithoutNoDup(order, k);
    RestrictSame(Without(order, k), keys, keys - {k});
    RestrictWithout(order, k, keys);
    RestrictWithout(order, k, keys - {k});
    RestrictAbsent(order, k, keys - {k});
  }

  /** A key used again: to the back of both lists, or of the larger one alone. */
  lemma TouchWithin<K>(large: seq<K>, keys: set<K>, k: K)
    ensures Restrict(ToBack(large, k), keys)
         == if k in keys then ToBack(Restrict(large, keys), k) else Restrict(large, keys)
  {
    hide Without, Restrict;
    RestrictSnoc(Without(large, k), k, keys);
    RestrictWithout(large, k, keys);
    if k !in keys { RestrictAbsent(large, k, keys); }
  }

  /** A lookup that finds an expired entry removes it from every cache that holds it. */
  lemma ExpireWithin<K>(large: seq<K>, keys: set<K>, k: K)
    requires NoDup(large)
    ensures Restrict(Without(large, k), keys - {k}) == Without(Restrict(large, keys), k)
    ensures k !in keys ==> Restrict(Without(large, k), keys) == Restrict(large, keys)
  {
    hide NoDup, Without, Restrict;
    WithoutNoDup(large, k);
    RestrictWithout(large, k, keys);
    RestrictSame(Without(large, k), keys, keys - {k});
    if k !in keys { RestrictAbsent(large, k, keys); }
  }

  lemma ListSizes<K>(order: seq<K>, k: K)
    requires NoDup(order) && k in order
    ensures |Without(order, k)| == |order| - 1 && |ToBack(order, k)| == |order|
  {
    WithoutNoDup(order, k);
  }

  lemma GetWithin<K, V>(small: State<K, V>, n: nat, large: State<K, V>, m: nat, key: K, now: int)
    requires Consistent(small, n) && Consistent(large, m) && Within(small, n, large, m)
    ensures Within(GetStep(small, key, now).0, n, GetStep(large, key, now).0, m)
    ensures GetStep(small, key, now).1.Some? ==> GetStep(large, key, now).1 == GetStep(small, key, now).1
  {
    hide NoDup, Without, Restrict, ToBack;
    if key in large.data {
      ListSizes(large.order, key);
      if large.data[key].expiresAt <= now {
        ExpireWithin(large.order, small.data.Keys, key);
        if key in small.data {
          ListSizes(small.order, key);
          assert (small.data - {key}).Keys == small.data.Keys - {key};
        }
      } else {
        TouchWithin(large.order, small.data.Keys, key);
        if key in small.data { ListSizes(small.order, key); }
      }
    }
  }

  /** A key the smaller cache did not hold becomes its newest entry. */
  lemma AddWithin<K>(large: seq<K>, keys: set<K>, k: K)
    requires k !in keys && NoDup(large)
    ensures Restrict(ToBack(large, k), keys + {k}) == Restrict(large, keys) + [k]
  {
    hide Without, Restrict, NoDup;
    WithoutNoDup(large, k);
    RestrictSnoc(Without(large, k), k, keys + {k});
    RestrictSame(Without(large, k), keys, keys + {k});
    RestrictWithout(large, k, keys);
    RestrictAbsent(large, k, keys);
  }

  /** The smaller cache drops its oldest key. */
  lemma DropWithin<K>(large: seq<K>, keys: set<K>)
    requires NoDup(large) && Restrict(large, keys) != []
    ensures Restrict(large, keys - {Restrict(large, keys)[0]}) == Restrict(large, keys)[1..]
  {
    RestrictMinus(large, Restrict(large, keys)[0], keys);
  }

  /** The larger cache drops its oldest key, which the smaller one does not hold any more. */
  lemma DropFront<K>(large: seq<K>, keys: set<K>)
    requires large != [] && large[0] !in keys
    ensures Restrict(large[1..], keys) == Restrict(large, keys)
  {
    assert [] + Restrict(large[1..], keys) == Restrict(large[1..], keys);
  }

  /** A listed front key is the front of every restriction that keeps it. */
  lemma FrontOfBoth<K>(large: seq<K>, keys: set<K>)
    requires large != [] && large[0] in keys
    ensures Restrict(large, keys) != [] && Restrict(large, keys)[0] == large[0]
  {
  }

  function Trim<K>(order: seq<K>, cap: nat): seq<K> {
    if |order| > cap then order[1..] else order
  }

  function Dropped<K>(order: seq<K>, cap: nat): set<K> {
    if |order| > cap then {order[0]} else {}
  }

  /** Storing under a key that is not there. */
  lemma StoredNew<K, V>(s: State<K, V>, cap: nat, key: K, e: Entry<V>)
    requires Consistent(s, cap) && key !in s.data
    ensures var grown := s.order + [key];
            Stored(s, cap, key, e) == s.(order := Trim(grown, cap), data := s.data[key := e] - Dropped(grown, cap))
  {
    hide NoDup, Evict;
    var grown, data := s.order + [key], s.data[key := e];
    NoDupSnoc(s.order, key);
    EvictOnce(grown, data, cap);
    assert data - {} == data;
  }

  /** The larger list after a store: a known key moves, a new one may push out the oldest. */
  function LargeAfter<K(==)>(large: seq<K>, m: nat, key: K): seq<K> {
    if key in large then ToBack(large, key) else Trim(large + [key], m)
  }

  /** The eviction in the larger cache can only hit a key that the smaller one drops as well. */
  lemma StoreLists<K>(small: seq<K>, n: nat, large: seq<K>, m: nat, keys: set<K>, key: K)
    requires 0 < n <= m && NoDup(large) && small == Restrict(large, keys) && key !in keys
    requires |small| <= n && |large| <= m && |large| - |small| <= m - n
    ensures var left := keys + {key} - Dropped(small + [key], n);
            && Restrict(LargeAfter(large, m, key), left) == Trim(small + [key], n)
            && |LargeAfter(large, m, key)| - |Trim(small + [key], n)| <= m - n
            && (key !in large ==> Dropped(large + [key], m) !! left)
  {
    hide NoDup, Without, Restrict, ToBack;
    var grown, touched, all := small + [key], ToBack(large, key), keys + {key};
    AddWithin(large, keys, key);
    ToBackNoDup(large, key);
    if |grown| > n {
      DropWithin(touched, all);
    }
    var left := all - Dropped(grown, n);
    assert Restrict(touched, left) == Trim(grown, n) by {
      if |grown| <= n { assert all - {} == all; }
    }
    if key in large {
      ListSizes(large, key);
    } else {
      PlainSnoc(large, key);
      if |touched| > m {
        if touched[0] in all { FrontOfBoth(touched, all); }
        DropFront(touched, left);
      }
    }
  }

  lemma StoreWithin<K, V>(small: State<K, V>, n: nat, large: State<K, V>, m: nat, key: K, e: Entry<V>)
    requires 0 < n <= m && Consistent(small, n) && Consistent(large, m) && Within(small, n, large, m)
    requires key !in small.data
    ensures Within(Stored(small, n, key, e), n, Stored(large, m, key, e), m)
  {
    hide NoDup, Restrict, Evict, Trim, Dropped, ToBack, Without;
    StoredNew(small, n, key, e);
    StoreLists(small.order, n, large.order, m, small.data.Keys, key);
    var dropped := Dropped(small.order + [key], n);
    assert (small.data[key := e] - dropped).Keys == small.data.Keys + {key} - dropped;
    if key !in large.data {
      StoredNew(large, m, key, e);
    }
  }

  lemma PlainSnoc<K>(order: seq<K>, k: K)
    requires k !in order
    ensures ToBack(order, k) == order + [k]
  {
    WithoutAbsent(order, k);
  }

  lemma ToBackNoDup<K>(order: seq<K>, k: K)
    requires NoDup(order)
    ensures NoDup(ToBack(order, k))
    ensures forall x :: x in ToBack(order, k) <==> x in order || x == k
  {
    hide NoDup, Without;
    WithoutNoDup(order, k);
    NoDupSnoc(Without(order, k), k);
  }

  lemma RestoreWithin<K, V>(small: State<K, V>, n: nat, large: State<K, V>, m: nat, key: K, e: Entry<V>)
    requires Consistent(small, n) && Consistent(large, m) && Within(small, n, large, m)
    requires key in small.data
    ensures Within(Stored(small, n, key, e), n, Stored(large, m, key, e), m)
  {
    hide NoDup, Without, Restrict, ToBack, Evict;
    TouchWithin(large.order, small.data.Keys, key);
    ListSizes(large.order, key);
    ListSizes(small.order, key);
    assert small.data[key := e].Keys == small.data.Keys;
  }

  lemma StepWithin<K, V>(small: State<K, V>, n: nat, large: State<K, V>, m: nat, op: Op<K, V>)
    requires 0 < n <= m && Consistent(small, n) && Consistent(large, m) && Within(small, n, large, m)
    ensures Within(Step(small, n, op).0, n, Step(large, m, op).0, m)
    ensures Step(small, n, op).1.Some? ==> Step(large, m, op).1 == Step(small, n, op).1
  {
    hide Consistent, Within, GetStep, Evict, ToBack;
    match op
    case Get(key, now) => GetWithin(small, n, large, m, key, now);
    case Set(key, value, ttl, kind, expiryNow, lockNow) =>
      var t := CapTTL(ttl, kind, true);
      if ttl > 0 && t > 0 {
        var e := Entry(value, lockNow, expiryNow + t, kind);
        if key in small.data {
          RestoreWithin(small, n, large, m, key, e);
        } else {
          StoreWithin(small, n, large, m, key, e);
        }
      }
  }

  /** LRU inclusion over whole runs: on the same operations and clock readings, whatever a cache
      of capacity `n` finds, a cache of capacity `m >= n` finds too, with the same value, age and
      entry type; so it never has fewer hits. */
  lemma {:induction false} Inclusion<K, V>(small: State<K, V>, n: nat, large: State<K, V>, m: nat, ops: seq<Op<K, V>>)
    requires 0 < n <= m && Consistent(small, n) && Consistent(large, m) && Within(small, n, large, m)
    ensures Within(Run(small, n, ops).0, n, Run(large, m, ops).0, m)
    ensures forall i :: 0 <= i < |ops| && Run(small, n, ops).1[i].Some? ==>
                        Run(large, m, ops).1[i] == Run(small, n, ops).1[i]
    decreases |ops|
  {
    hide Consistent, Within, Step;
    if ops != [] {
      StepWithin(small, n, large, m, ops[0]);
      StepKeepsConsistent(small, n, ops[0]);
      StepKeepsConsistent(large, m, ops[0]);
      Inclusion(Step(small, n, ops[0]).0, n, Step(large, m, ops[0]).0, m, ops[1..]);
    }
  }

  lemma EmptyWithin<K, V>(n: nat, m: nat)
    requires n <= m
    ensures Consistent(Empty<K, V>(), n) && Within(Empty<K, V>(), n, Empty<K, V>(), m)
  {
  }

  // ---------------------------------------------------------------- recency

  /** The keys used more recently than `k`. */
  function Newer<K(==)>(order: seq<K>, k: K): seq<K> {
    if order == [] then [] else if order[0] == k then order[1..] else Newer(order[1..], k)
  }

  lemma {:induction false} NewerSnoc<K>(order: seq<K>, k: K, x: K)
    requires k in order
    ensures Newer(order + [x], k) == Newer(order, k) + [x]
  {
    assert (order + [x])[1..] == order[1..] + [x];
    if order[0] != k { NewerSnoc(order[1..], k, x); }
  }

  lemma {:induction false} NewerWithout<K>(order: seq<K>, k: K, x: K)
    requires x != k
    ensures forall y :: y in Newer(Without(order, x), k) ==> y in Newer(order, k)
    ensures k in order ==> k in Without(order, x)
  {
    if order != [] {
      NewerWithout(order[1..], k, x);
      if order[0] != x {
        assert ([order[0]] + Without(order[1..], x))[1..] == Without(order[1..], x);
      } else {
        NewerTail(order[1..], k);
      }
    }
  }

  lemma NewerTail<K>(order: seq<K>, k: K)
    ensures forall y :: y in Newer(order, k) ==> y in order
  {
  }

  /** The key is there with this entry, and whatever is newer is among `used`. */
  ghost predicate Kept<K, V>(s: State<K, V>, k: K, e: Entry<V>, used: set<K>) {
    k in s.data && s.data[k] == e && forall y :: y in Newer(s.order, k) ==> y in used
  }

  lemma TouchKeeps<K>(order: seq<K>, k: K, x: K, used: set<K>)
    requires x != k && k in order && x in used && forall y :: y in Newer(order, k) ==> y in used
    ensures forall y :: y in Newer(Without(order, x), k) ==> y in used
    ensures forall y :: y in Newer(ToBack(order, x), k) ==> y in used
    ensures forall y :: y in Newer(order + [x], k) ==> y in used
  {
    hide Newer, Without;
    NewerWithout(order, k, x);
    NewerSnoc(Without(order, x), k, x);
    NewerSnoc(order, k, x);
  }

  /** Distinct keys from a set are no more than the set has. */
  lemma {:induction false} DistinctWithin<K>(order: seq<K>, used: set<K>)
    requires NoDup(order) && forall y :: y in order ==> y in used
    ensures |order| <= |used|
    decreases order
  {
    if order != [] {
      NoDupTail(order);
      DistinctWithin(order[1..], used - {order[0]});
    }
  }

  lemma OldestKept<K>(order: seq<K>, k: K, used: set<K>, cap: nat)
    requires NoDup(order) && k in order && |order| > cap && |used| < cap
    requires forall y :: y in Newer(order, k) ==> y in used
    ensures order[0] != k && Newer(order[1..], k) == Newer(order, k)
  {
    if order[0] == k {
      NoDupTail(order);
      DistinctWithin(order[1..], used);
    }
  }

  lemma StepKeeps<K, V>(s: State<K, V>, cap: nat, op: Op<K, V>, k: K, e: Entry<V>, used: set<K>)
    requires cap > 0 && Consistent(s, cap) && Kept(s, k, e, used) && op.key != k && op.key in used && |used| < cap
    ensures Kept(Step(s, cap, op).0, k, e, used)
  {
    hide NoDup, Newer, Without, ToBack, Evict;
    var x := op.key;
    TouchKeeps(s.order, k, x, used);
    if op.Set? && op.ttl > 0 && CapTTL(op.ttl, op.kind, true) > 0 && x !in s.data {
      var entry := Entry(op.value, op.lockNow, op.expiryNow + CapTTL(op.ttl, op.kind, true), op.kind);
      StoredNew(s, cap, x, entry);
      NoDupSnoc(s.order, x);
      if |s.order + [x]| > cap { OldestKept(s.order + [x], k, used, cap); }
    }
  }

  function UsedKeys<K(==), V>(ops: seq<Op<K, V>>): set<K> {
    if ops == [] then {} else {ops[0].key} + UsedKeys(ops[1..])
  }

  lemma {:induction false} RunKeeps<K, V>(s: State<K, V>, cap: nat, ops: seq<Op<K, V>>, k: K, e: Entry<V>, used: set<K>)
    requires cap > 0 && Consistent(s, cap) && Kept(s, k, e, used) && |used| < cap
    requires k !in UsedKeys(ops) && UsedKeys(ops) <= used
    ensures Kept(Run(s, cap, ops).0, k, e, used)
    decreases |ops|
  {
    hide Consistent, Kept, Step;
    if ops != [] {
      StepKeeps(s, cap, ops[0], k, e, used);
      StepKeepsConsistent(s, cap, ops[0]);
      RunKeeps(Step(s, cap, ops[0]).0, cap, ops[1..], k, e, used);
    }
  }

  /** Recency: a key that was just hit or stored survives every run that uses fewer than `cap` other
      keys, and is found again, with the same entry, until it expires. */
  lemma RecentSurvives<K, V>(s: State<K, V>, cap: nat, op: Op<K, V>, ops: seq<Op<K, V>>, now: int)
    requires cap > 0 && Consistent(s, cap)
    requires if op.Get? then Step(s, cap, op).1.Some? else op.ttl > 0
    requires op.key !in UsedKeys(ops) && |UsedKeys(ops)| < cap
    ensures op.key in Step(s, cap, op).0.data
    ensures var e := Step(s, cap, op).0.data[op.key];
            now < e.expiresAt ==>
              GetStep(Run(Step(s, cap, op).0, cap, ops).0, op.key, now).1
              == Some(Hit(e.value, now - e.cachedAt, e.kind))
  {
    hide Consistent, Run, UsedKeys;
    var s1 := Step(s, cap, op).0;
    StepKeepsConsistent(s, cap, op);
    UsedIsNewest(s, cap, op);
    RunKeeps(s1, cap, ops, op.key, s1.data[op.key], UsedKeys(ops));
  }

  lemma UsedIsNewest<K, V>(s: State<K, V>, cap: nat, op: Op<K, V>)
    requires cap > 0 && Consistent(s, cap)
    requires if op.Get? then Step(s, cap, op).1.Some? else op.ttl > 0
    ensures var s' := Step(s, cap, op).0;
            op.key in s'.data && Newer(s'.order, op.key) == [] && s'.order != [] && s'.order[|s'.order| - 1] == op.key
  {
    hide NoDup, Without, Newer, Evict;
    var x := op.key;
    WithoutNoDup(s.order, x);
    LastIsNewest(Without(s.order, x), x);
    if op.Set? && x !in s.data {
      var entry := Entry(op.value, op.lockNow, op.expiryNow + CapTTL(op.ttl, op.kind, true), op.kind);
      StoredNew(s, cap, x, entry);
      LastIsNewest(s.order, x);
      if |s.order + [x]| > cap {
        assert (s.order + [x])[1..] == s.order[1..] + [x];
        LastIsNewest(s.order[1..], x);
      }
    }
  }

  lemma {:induction false} LastIsNewest<K>(order: seq<K>, x: K)
    requires x !in order
    ensures Newer(order + [x], x) == []
  {
    if order != [] {
      assert (order + [x])[1..] == order[1..] + [x];
      LastIsNewest(order[1..], x);
    }
  }

  // ---------------------------------------------------------------- what a trace says about the cache

  /** The operation uses `k`: a store with a positive TTL, or a lookup that hits. */
  predicate Uses<K(==), V>(op: Op<K, V>, out: Option<Hit<V>>, k: K) {
    op.key == k && if op.Set? then op.ttl > 0 else out.Some?
  }

  /** When `k` was used last, -1 if never. */
  function LastUse<K(==), V>(ops: seq<Op<K, V>>, outs: seq<Option<Hit<V>>>, k: K): int
    requires |ops| == |outs|
  {
    if ops == [] then -1
    else if Uses(ops[|ops| - 1], outs[|ops| - 1], k) then |ops| - 1
    else LastUse(ops[..|ops| - 1], outs[..|ops| - 1], k)
  }

  /** When `k` was stored last, -1 if never. */
  function LastSet<K(==), V>(ops: seq<Op<K, V>>, k: K): int {
    if ops == [] then -1
    else if ops[|ops| - 1].Set? && ops[|ops| - 1].ttl > 0 && ops[|ops| - 1].key == k then |ops| - 1
    else LastSet(ops[..|ops| - 1], k)
  }

  /** The entry a store makes: it expires after its TTL, at most a day, or an hour if negative. */
  function EntryOf<K, V>(op: Op<K, V>): Entry<V>
    requires op.Set?
  {
    var most := if op.kind.Positive? then 86400 * SECOND else 3600 * SECOND;
    Entry(op.value, op.lockNow, op.expiryNow + (if op.ttl > most then most else op.ttl), op.kind)
  }

  /** The trace explains the state: the list is in the order of last use, and every entry is the one
      its key was last stored with. */
  ghost predicate Explains<K, V>(ops: seq<Op<K, V>>, outs: seq<Option<Hit<V>>>, s: State<K, V>)
    requires |ops| == |outs|
  {
    && (forall k :: k in s.order ==> 0 <= LastUse(ops, outs, k))
    && Ranked(s.order, k => LastUse(ops, outs, k))
    && (forall k :: k in s.data ==>
          0 <= LastSet(ops, k) < |ops| && ops[LastSet(ops, k)].Set? && s.data[k] == EntryOf(ops[LastSet(ops, k)]))
  }

  lemma LastUseBelow<K, V>(ops: seq<Op<K, V>>, outs: seq<Option<Hit<V>>>, k: K)
    requires |ops| == |outs|
    ensures LastUse(ops, outs, k) < |ops| && LastSet(ops, k) < |ops|
    decreases |ops|
  {
    if ops != [] { LastUseBelow(ops[..|ops| - 1], outs[..|ops| - 1], k); }
  }

  lemma LastSnoc<K, V>(ops: seq<Op<K, V>>, outs: seq<Option<Hit<V>>>, op: Op<K, V>, out: Option<Hit<V>>, k: K)
    requires |ops| == |outs|
    ensures LastUse(ops + [op], outs + [out], k) == if Uses(op, out, k) then |ops| else LastUse(ops, outs, k)
    ensures LastSet(ops + [op], k) == if op.Set? && op.ttl > 0 && op.key == k then |ops| else LastSet(ops, k)
  {
    assert (ops + [op])[..|ops|] == ops && (outs + [out])[..|ops|] == outs;
  }

  function Dropping<K(==)>(order: seq<K>, drop: Option<K>): seq<K> {
    if drop.None? then order else Without(order, drop.value)
  }

  predicate Ranked<K>(order: seq<K>, rank: K -> int) {
    forall i, j :: 0 <= i < j < |order| ==> rank(order[i]) < rank(order[j])
  }

  lemma {:induction false} WithoutRanked<K>(order: seq<K>, x: K, rank: K -> int)
    requires Ranked(order, rank)
    ensures Ranked(Without(order, x), rank)
  {
    if order != [] {
      var rest := order[1..];
      assert forall i :: 0 <= i < |rest| ==> rest[i] == order[i + 1];
      if order[0] != x {
        WithoutRanked(rest, x, rank);
        RankedCons(order[0], Without(rest, x), rank);
      }
    }
  }

  lemma RankedCons<K>(x: K, order: seq<K>, rank: K -> int)
    requires Ranked(order, rank) && forall y :: y in order ==> rank(x) < rank(y)
    ensures Ranked([x] + order, rank)
  {
    var all := [x] + order;
    forall i, j | 0 <= i < j < |all| ensures rank(all[i]) < rank(all[j]) {
      assert all[j] == order[j - 1];
      if i > 0 { assert all[i] == order[i - 1]; }
    }
  }

  lemma RankedAgain<K>(order: seq<K>, rank: K -> int, later: K -> int, used: Option<K>)
    requires Ranked(order, rank) && forall y :: y in order ==> later(y) == rank(y)
    requires used.Some? ==> forall y :: y in order ==> rank(y) < later(used.value)
    ensures Ranked(order + (if used.Some? then [used.value] else []), later)
  {
  }

  /** How a step rearranges the list: a key may go, and a used key comes last. */
  lemma StepRearranges<K, V>(s: State<K, V>, cap: nat, op: Op<K, V>) returns (drop: Option<K>)
    requires cap > 0 && Consistent(s, cap)
    ensures var (s', out) := Step(s, cap, op);
            s'.order == if Uses(op, out, op.key) then Dropping(Without(s.order, op.key), drop) + [op.key]
                        else Dropping(s.order, drop)
  {
    hide NoDup, Evict, Without;
    drop := None;
    if op.Get? && Step(s, cap, op).1.None? && op.key in s.data {
      drop := Some(op.key);
    } else if op.Set? && op.ttl > 0 && op.key !in s.data {
      drop := NewRearranges(s, cap, op.key, EntryOf(op));
    }
  }

  lemma NewRearranges<K, V>(s: State<K, V>, cap: nat, x: K, e: Entry<V>) returns (drop: Option<K>)
    requires cap > 0 && Consistent(s, cap) && x !in s.data
    ensures Stored(s, cap, x, e).order == Dropping(Without(s.order, x), drop) + [x]
  {
    hide NoDup, Evict;
    StoredNew(s, cap, x, e);
    WithoutAbsent(s.order, x);
    drop := None;
    if |s.order + [x]| > cap {
      drop := Some(s.order[0]);
      assert (s.order + [x])[1..] == s.order[1..] + [x];
    }
  }

  /** A step keeps entries, or makes the one that its store says. */
  lemma StepEntries<K, V>(s: State<K, V>, cap: nat, op: Op<K, V>, k: K)
    requires cap > 0 && Consistent(s, cap) && k in Step(s, cap, op).0.data
    ensures var e := Step(s, cap, op).0.data[k];
            if op.Set? && op.ttl > 0 && op.key == k then e == EntryOf(op) else k in s.data && e == s.data[k]
  {
    hide NoDup, Evict, Without;
    if op.Set? && op.ttl > 0 && op.key !in s.data {
      StoredNew(s, cap, op.key, EntryOf(op));
    }
  }

  lemma OrderExplained<K, V>(ops: seq<Op<K, V>>, outs: seq<Option<Hit<V>>>, s: State<K, V>, cap: nat, op: Op<K, V>)
    requires |ops| == |outs| && Explains(ops, outs, s) && cap > 0 && Consistent(s, cap)
    ensures var (s', out) := Step(s, cap, op);
            && (forall k :: k in s'.order ==> 0 <= LastUse(ops + [op], outs + [out], k))
            && Ranked(s'.order, k => LastUse(ops + [op], outs + [out], k))
  {
    hide NoDup, Step, LastUse, LastSet, Without, Ranked;
    var (s', out) := Step(s, cap, op);
    var x, rank: K -> int, later: K -> int :=
      op.key, k => LastUse(ops, outs, k), k => LastUse(ops + [op], outs + [out], k);
    forall k ensures later(k) == (if Uses(op, out, k) then |ops| else rank(k)) && rank(k) < |ops| {
      LastSnoc(ops, outs, op, out, k);
      LastUseBelow(ops, outs, k);
    }
    var drop := StepRearranges(s, cap, op);
    var used := if Uses(op, out, x) then Some(x) else None;
    var base := if used.Some? then Without(s.order, x) else s.order;
    WithoutNoDup(s.order, x);
    WithoutRanked(s.order, x, rank);
    if drop.Some? { WithoutRanked(base, drop.value, rank); }
    var left := Dropping(base, drop);
    assert forall y :: y in left ==> y in base;
    assert forall y :: y in base ==> y in s.order && !Uses(op, out, y);
    RankedAgain(left, rank, later, used);
    assert left + [] == left;
    assert s'.order == left + if used.Some? then [x] else [];
  }

  lemma StepExplained<K, V>(ops: seq<Op<K, V>>, outs: seq<Option<Hit<V>>>, s: State<K, V>, cap: nat, op: Op<K, V>)
    requires |ops| == |outs| && Explains(ops, outs, s) && cap > 0 && Consistent(s, cap)
    ensures Explains(ops + [op], outs + [Step(s, cap, op).1], Step(s, cap, op).0)
  {
    hide NoDup, Step, LastUse, LastSet, EntryOf, Ranked;
    var (s', out) := Step(s, cap, op);
    OrderExplained(ops, outs, s, cap, op);
    forall k | k in s'.data
      ensures var n := LastSet(ops + [op], k);
              0 <= n < |ops| + 1 && (ops + [op])[n].Set? && s'.data[k] == EntryOf((ops + [op])[n])
    {
      LastSnoc(ops, outs, op, out, k);
      StepEntries(s, cap, op, k);
    }
  }

  lemma {:induction false} RunSnoc<K, V>(s: State<K, V>, cap: nat, ops: seq<Op<K, V>>, op: Op<K, V>)
    ensures Run(s, cap, ops + [op]).0 == Step(Run(s, cap, ops).0, cap, op).0
    ensures Run(s, cap, ops + [op]).1 == Run(s, cap, ops).1 + [Step(Run(s, cap, ops).0, cap, op).1]
    decreases |ops|
  {
    hide Step;
    if ops == [] {
      assert ops + [op] == [op] && [op][1..] == [];
    } else {
      assert (ops + [op])[1..] == ops[1..] + [op];
      RunSnoc(Step(s, cap, ops[0]).0, cap, ops[1..], op);
    }
  }

  /** Over every run: the list is in the order of last use, and every entry is the one its key was
      last stored with. */
  lemma {:induction false} RunExplained<K, V>(cap: nat, ops: seq<Op<K, V>>)
    requires cap > 0
    ensures Consistent(Run(Empty(), cap, ops).0, cap)
    ensures Explains(ops, Run(Empty(), cap, ops).1, Run(Empty(), cap, ops).0)
    decreases |ops|
  {
    RunKeepsConsistent(Empty<K, V>(), cap, ops);
    if ops != [] {
      hide Step, Explains, Consistent, Run;
      var front, op := ops[..|ops| - 1], ops[|ops| - 1];
      assert front + [op] == ops;
      RunExplained(cap, front);
      RunSnoc(Empty(), cap, front, op);
      StepExplained(front, Run(Empty(), cap, front).1, Run(Empty(), cap, front).0, cap, op);
    }
  }

  /** A hit returns what its key was last stored with: value, type and the time since. */
  lemma HitIsLastSet<K, V>(cap: nat, ops: seq<Op<K, V>>, k: K, now: int)
    requires cap > 0 && GetStep(Run(Empty(), cap, ops).0, k, now).1.Some?
    ensures var n := LastSet(ops, k);
            && 0 <= n < |ops| && ops[n].Set? && now < EntryOf(ops[n]).expiresAt
            && GetStep(Run(Empty(), cap, ops).0, k, now).1.value == Hit(ops[n].value, now - ops[n].lockNow, ops[n].kind)
  {
    hide Consistent, Run, LastUse, LastSet;
    RunExplained(cap, ops);
  }

  /** Least recently used: when a store pushes a key out, the cache was full and the key is the one
      whose last use in the trace is the oldest; every other key stays. */
  lemma EvictsLeastRecent<K, V>(cap: nat, ops: seq<Op<K, V>>, op: Op<K, V>, d: K)
    requires cap > 0 && op.Set?
    requires d in Run(Empty(), cap, ops).0.data && d !in Step(Run(Empty(), cap, ops).0, cap, op).0.data
    ensures var (s, outs) := Run(Empty(), cap, ops);
            && |s.data| == cap && op.key !in s.data
            && forall k :: k in s.data && k != d ==>
                 LastUse(ops, outs, d) < LastUse(ops, outs, k) && k in Step(s, cap, op).0.data
  {
    hide Consistent, Run, LastUse, LastSet, Step;
    RunExplained(cap, ops);
    var (s, outs) := Run(Empty(), cap, ops);
    PushedOutIsFront(s, cap, op, d);
    forall k | k in s.data && k != d ensures LastUse(ops, outs, d) < LastUse(ops, outs, k) {
      var i :| 0 <= i < |s.order| && s.order[i] == k;
    }
  }

  lemma PushedOutIsFront<K, V>(s: State<K, V>, cap: nat, op: Op<K, V>, d: K)
    requires cap > 0 && Consistent(s, cap) && op.Set? && d in s.data && d !in Step(s, cap, op).0.data
    ensures |s.data| == cap && op.key !in s.data && |s.order| == cap && d == s.order[0]
    ensures forall k :: k in s.data ==> k in s.order && (k != d ==> k in Step(s, cap, op).0.data)
  {
    hide NoDup, Evict, ToBack;
    StoredNew(s, cap, op.key, EntryOf(op));
    MapSize(s.order, s.data);
  }

  /** Without negative caching, a negative response is not stored. */
  lemma NegativeDisabled<K, V>(s: State<K, V>, cap: nat, key: K, value: V, ttl: int, kind: EntryType, e: int, l: int)
    requires kind != Positive
    ensures SetStep(s, cap, key, value, ttl, kind, false, e, l) == s
  {
  }

  /** A lookup that misses leaves nothing under its key. */
  lemma MissLeavesNothing<K, V>(s: State<K, V>, key: K, now: int)
    requires GetStep(s, key, now).1.None?
    ensures key !in GetStep(s, key, now).0.data
  {
    hide Without;
  }

  function Lookups<K, V>(ops: seq<Op<K, V>>, outs: seq<Option<Hit<V>>>, counts: Option<Hit<V>> -> bool): nat
    requires |ops| == |outs|
  {
    if ops == [] then 0 else (if ops[0].Get? && counts(outs[0]) then 1 else 0) + Lookups(ops[1..], outs[1..], counts)
  }

  /** The counters count: hits, misses, and hits on negative entries. */
  lemma {:induction false} CountersExact<K, V>(s: State<K, V>, cap: nat, ops: seq<Op<K, V>>)
    ensures var (end, outs) := Run(s, cap, ops);
            && end.hits == s.hits + Lookups(ops, outs, (h: Option<Hit<V>>) => h.Some?)
            && end.misses == s.misses + Lookups(ops, outs, (h: Option<Hit<V>>) => h.None?)
            && end.negativeHits == s.negativeHits
               + Lookups(ops, outs, (h: Option<Hit<V>>) => h.Some? && h.value.kind != Positive)
    decreases |ops|
  {
    hide Without, ToBack, Evict;
    if ops != [] { CountersExact(Step(s, cap, ops[0]).0, cap, ops[1..]); }
  }

  // ---------------------------------------------------------------- the cache object

  /** The mutex makes every method below one atomic step. */
  class TTLCache<K(==), V> {
    const maxEntries: nat
    const negativeEnabled: bool
    var lru: seq<K>
    var data: map<K, Entry<V>>
    var hits: nat
    var misses: nat
    var negativeHits: nat

    ghost function Model(): State<K, V>
      reads this
    {
      State(lru, data, hits, misses, negativeHits)
    }

    ghost predicate Valid()
      reads this
    {
      maxEntries > 0 && Consistent(Model(), maxEntries)
    }

    constructor (size: int)
      ensures Valid() && Model() == Empty()
      ensures maxEntries == (if size <= 0 then 1 else size) && negativeEnabled
    {
      maxEntries := if size <= 0 then 1 else size;
      negativeEnabled := true;
      lru, data := [], map[];
      hits, misses, negativeHits := 0, 0, 0;
    }

    method GetWithAge(key: K, now: int) returns (hit: Option<Hit<V>>)
      requires Valid()
      modifies this
      ensures Valid()
      ensures (Model(), hit) == GetStep(old(Model()), key, now)
    {
      hide Consistent, Without;
      GetKeepsConsistent(Model(), maxEntries, key, now);
      if key !in data {
        misses := misses + 1;
        return None;
      }
      var e := data[key];
      if e.expiresAt <= now {
        lru := Without(lru, key);
        data := data - {key};
        misses := misses + 1;
        return None;
      }
      var age := now - e.cachedAt;
      lru := ToBack(lru, key);
      hits := hits + 1;
      if !e.kind.Positive? {
        negativeHits := negativeHits + 1;
      }
      return Some(Hit(e.value, age, e.kind));
    }

    method EvictOldest()
      modifies this`lru, this`data
      ensures (lru, data) == Evict(old(lru), old(data), maxEntries)
    {
      while |data| > maxEntries
        invariant Evict(lru, data, maxEntries) == Evict(old(lru), old(data), maxEntries)
        decreases |lru|
      {
        if |lru| == 0 { break; }
        var k := lru[0];
        lru := lru[1..];
        data := data - {k};
      }
    }

    method Set(key: K, value: V, ttl: int, kind: EntryType, expiryNow: int, lockNow: int)
      requires Valid()
      modifies this
      ensures Valid()
      ensures Model() == SetStep(old(Model()), maxEntries, key, value, ttl, kind, negativeEnabled, expiryNow, lockNow)
    {
      hide Consistent, Evict, Without;
      SetKeepsConsistent(Model(), maxEntries, key, value, ttl, kind, negativeEnabled, expiryNow, lockNow);
      if ttl <= 0 { return; }
      var capped := CapTTL(ttl, kind, negativeEnabled);
      if capped <= 0 { return; }
      var e := Entry(value, lockNow, expiryNow + capped, kind);
      if key in data {
        data := data[key := e];
        lru := ToBack(lru, key);
        return;
      }
      lru := lru + [key];
      data := data[key := e];
      EvictOldest();
    }
  }
}
