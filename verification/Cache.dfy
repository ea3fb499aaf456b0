/**
 * The in-memory cache with LRU, LFU and TTL policies. The insertion-ordered Map is a
 * sequence of slots, oldest first; time is an argument of every operation that reads the clock.
 */
module Cache {
  import opened Common

  type Key(==, !new)

  type Value(!new)

  datatype Policy = LRU | LFU | TTL

  datatype Slot = Slot(key: Key, value: Value, expiresAt: Option<int>, frequency: nat)

  type Store = seq<Slot>

  datatype Config = Config(policy: Policy, maxSize: int, defaultTtl: Option<int>)

  // ---- Ordered-map operations -------------------------------------------------

  ghost predicate UniqueKeys(s: Store) {
    forall i, j :: 0 <= i < j < |s| ==> s[i].key != s[j].key
  }

  predicate Has(s: Store, k: Key) {
    exists i :: 0 <= i < |s| && s[i].key == k
  }

  function Find(s: Store, k: Key): Option<Slot> {
    if s == [] then None
    else if s[|s| - 1].key == k then Some(s[|s| - 1])
    else Find(s[..|s| - 1], k)
  }

  /** The slots whose keys are in `keep`, in order. */
  function Restrict(s: Store, keep: set<Key>): Store {
    if s == [] then []
    else
      var r, x := Restrict(s[..|s| - 1], keep), s[|s| - 1];
      if x.key in keep then r + [x] else r
  }

  function Remove(s: Store, k: Key): Store {
    if s == [] then []
    else
      var r, x := Remove(s[..|s| - 1], k), s[|s| - 1];
      if x.key == k then r else r + [x]
  }

  function Bump(s: Store, k: Key): Store {
    if s == [] then []
    else
      var r, x := Bump(s[..|s| - 1], k), s[|s| - 1];
      r + [if x.key == k then x.(frequency := x.frequency + 1) else x]
  }

  predicate Expired(expiresAt: Option<int>, now: int) {
    expiresAt.Some? && expiresAt.value != 0 && expiresAt.value < now
  }

  function Unexpired(s: Store, now: int): Store {
    if s == [] then []
    else
      var r, x := Unexpired(s[..|s| - 1], now), s[|s| - 1];
      if Expired(x.expiresAt, now) then r else r + [x]
  }

  // ---- The operations ---------------------------------------------------------

  function Expiry(c: Config, ttl: Option<int>, now: int): Option<int> {
    var t := if ttl.Some? then ttl else c.defaultTtl;
    if t.Some? && t.value != 0 then Some(now + t.value) else None
  }

  /** The index of the first slot of least frequency. */
  function LeastFrequent(s: Store): (i: nat)
    requires s != []
    ensures i < |s|
  {
    if |s| == 1 then 0
    else
      var i := LeastFrequent(s[..|s| - 1]);
      if s[|s| - 1].frequency < s[i].frequency then |s| - 1 else i
  }

  function Victim(p: Policy, s: Store): (i: nat)
    requires s != []
    ensures i < |s|
  {
    if p == LFU then LeastFrequent(s) else 0
  }

  function Evict(p: Policy, s: Store): Store {
    if s == [] then [] else Remove(s, s[Victim(p, s)].key)
  }

  function Purge(p: Policy, s: Store, now: int): Store {
    if p == TTL then Unexpired(s, now) else s
  }

  /** The store with room made for `k`: its old slot gone, or a victim evicted when full. */
  function MakeRoom(c: Config, s: Store, k: Key): Store {
    if Has(s, k) then Remove(s, k) else if |s| >= c.maxSize then Evict(c.policy, s) else s
  }

  function DoSet(c: Config, s: Store, k: Key, v: Value, ttl: Option<int>, now: int): Store {
    MakeRoom(c, Purge(c.policy, s, now), k) + [Slot(k, v, Expiry(c, ttl, now), 1)]
  }

  function DoGet(c: Config, s: Store, k: Key, now: int): (Store, Option<Value>) {
    match Find(s, k)
    case None => (s, None)
    case Some(x) =>
      if Expired(x.expiresAt, now) then (Remove(s, k), None)
      else (match c.policy
            case LRU => Remove(s, k) + [x]
            case LFU => Bump(s, k)
            case TTL => s,
            Some(x.value))
  }

  datatype Op =
    | Set(key: Key, value: Value, ttl: Option<int>, now: int)
    | Get(key: Key, now: int)
    | Delete(key: Key)
    | Clear

  function Step(c: Config, s: Store, op: Op): Store {
    match op
    case Set(k, v, ttl, now) => DoSet(c, s, k, v, ttl, now)
    case Get(k, now) => DoGet(c, s, k, now).0
    case Delete(k) => Remove(s, k)
    case Clear => []
  }

  function Run(c: Config, s: Store, ops: seq<Op>): Store {
    if ops == [] then s else Step(c, Run(c, s, ops[..|ops| - 1]), ops[|ops| - 1])
  }

  /** Whether a get finds something live to return. */
  predicate Hits(s: Store, k: Key, now: int) {
    var x := Find(s, k); x.Some? && !Expired(x.value.expiresAt, now)
  }

  // ---- Facts about ordered maps -----------------------------------------------

  lemma {:induction false} FindIsTheSlot(s: Store, k: Key)
    ensures Find(s, k).Some? <==> Has(s, k)
    ensures Find(s, k).Some? ==> Find(s, k).value in s && Find(s, k).value.key == k
  {
    if s != [] {
      var rest := s[..|s| - 1];
      FindIsTheSlot(rest, k);
      assert Has(s, k) ==> s[|s| - 1].key == k || Has(rest, k);
      if Has(rest, k) {
        var i :| 0 <= i < |rest| && rest[i].key == k;
        assert s[i].key == k;
      }
    }
  }

  lemma {:induction false} RemoveMembers(s: Store, k: Key)
    ensures forall x :: x in Remove(s, k) <==> x in s && x.key != k
    ensures !Has(Remove(s, k), k)
  {
    if s != [] {
      assert s == s[..|s| - 1] + [s[|s| - 1]];
      RemoveMembers(s[..|s| - 1], k);
    }
  }

  lemma {:induction false} RemoveAbsent(s: Store, k: Key)
    requires !Has(s, k)
    ensures Remove(s, k) == s
  {
    if s != [] {
      assert !Has(s[..|s| - 1], k);
      RemoveAbsent(s[..|s| - 1], k);
      assert s[|s| - 1].key != k;
    }
  }

  lemma {:induction false} RemoveKeepsUnique(s: Store, k: Key)
    requires UniqueKeys(s)
    ensures UniqueKeys(Remove(s, k)) && |Remove(s, k)| == if Has(s, k) then |s| - 1 else |s|
  {
    if s != [] {
      var rest, x := s[..|s| - 1], s[|s| - 1];
      RemoveKeepsUnique(rest, k);
      RemoveMembers(rest, k);
      forall i | 0 <= i < |Remove(rest, k)| ensures Remove(rest, k)[i].key != x.key {
        assert Remove(rest, k)[i] in rest;
      }
      if Has(rest, k) {
        var i :| 0 <= i < |rest| && rest[i].key == k;
        assert s[i].key == k;
      } else if Has(s, k) {
        assert x.key == k;
      }
    }
  }

  /** A slot found under its key in a store with unique keys is the one `Find` returns. */
  lemma FindOfMember(s: Store, x: Slot)
    requires UniqueKeys(s) && x in s
    ensures Find(s, x.key) == Some(x) && Has(s, x.key)
  {
    FindIsTheSlot(s, x.key);
  }

  // ---- What every run keeps ---------------------------------------------------

  function Capacity(c: Config): nat { Max(c.maxSize, 1) }

  ghost predicate Sound(c: Config, s: Store) {
    UniqueKeys(s) && |s| <= Capacity(c)
  }

  lemma {:induction false} UnexpiredKeepsUnique(s: Store, now: int)
    requires UniqueKeys(s)
    ensures UniqueKeys(Unexpired(s, now)) && |Unexpired(s, now)| <= |s|
    ensures forall x :: x in Unexpired(s, now) <==> x in s && !Expired(x.expiresAt, now)
  {
    if s != [] {
      var rest := s[..|s| - 1];
      assert s == rest + [s[|s| - 1]];
      UnexpiredKeepsUnique(rest, now);
      var r := Unexpired(rest, now);
      forall i | 0 <= i < |r| ensures r[i].key != s[|s| - 1].key { assert r[i] in rest; }
    }
  }

  lemma {:induction false} BumpKeepsKeys(s: Store, k: Key)
    ensures |Bump(s, k)| == |s|
    ensures forall i :: 0 <= i < |s| ==>
      Bump(s, k)[i] == s[i].(frequency := if s[i].key == k then s[i].frequency + 1 else s[i].frequency)
  {
    if s != [] { BumpKeepsKeys(s[..|s| - 1], k); }
  }

  lemma MakeRoomKeeps(c: Config, s: Store, k: Key)
    requires Sound(c, s)
    ensures UniqueKeys(MakeRoom(c, s, k)) && |MakeRoom(c, s, k)| < Capacity(c) && !Has(MakeRoom(c, s, k), k)
  {
    RemoveKeepsUnique(s, k);
    RemoveMembers(s, k);
    if !Has(s, k) && |s| >= c.maxSize && s != [] {
      var v := s[Victim(c.policy, s)];
      assert v in s && Has(s, v.key);
      RemoveKeepsUnique(s, v.key);
      RemoveMembers(s, v.key);
      forall i | 0 <= i < |Remove(s, v.key)| ensures Remove(s, v.key)[i].key != k { assert Remove(s, v.key)[i] in s; }
    }
  }

  /** No operation duplicates a key or lets the store outgrow its capacity. */
  lemma StepKeepsSound(c: Config, s: Store, op: Op)
    requires Sound(c, s)
    ensures Sound(c, Step(c, s, op))
  {
    match op
    case Set(k, v, ttl, now) =>
      UnexpiredKeepsUnique(s, now);
      MakeRoomKeeps(c, Purge(c.policy, s, now), k);
    case Get(k, now) =>
      RemoveKeepsUnique(s, k);
      RemoveMembers(s, k);
      BumpKeepsKeys(s, k);
      FindIsTheSlot(s, k);
    case Delete(k) => RemoveKeepsUnique(s, k);
    case Clear =>
  }

  lemma {:induction false} RunKeepsSound(c: Config, s: Store, ops: seq<Op>)
    requires Sound(c, s)
    ensures Sound(c, Run(c, s, ops))
  {
    if ops != [] {
      RunKeepsSound(c, s, ops[..|ops| - 1]);
      StepKeepsSound(c, Run(c, s, ops[..|ops| - 1]), ops[|ops| - 1]);
    }
  }

  // ---- LRU inclusion: a larger cache never misses where a smaller one hits -----

  function KeysOf(s: Store): set<Key> { set i | 0 <= i < |s| :: s[i].key }

  /** `small` is `large` with some keys left out: a subsequence in recency order, slots equal. */
  ghost predicate Within(small: Store, large: Store) {
    small == Restrict(large, KeysOf(small))
  }

  lemma {:induction false} RestrictMembers(s: Store, keep: set<Key>)
    ensures forall x :: x in Restrict(s, keep) <==> x in s && x.key in keep
    ensures |Restrict(s, keep)| <= |s|
  {
    if s != [] {
      assert s == s[..|s| - 1] + [s[|s| - 1]];
      RestrictMembers(s[..|s| - 1], keep);
    }
  }

  lemma {:induction false} RestrictRemove(s: Store, keep: set<Key>, k: Key)
    ensures Restrict(Remove(s, k), keep) == Remove(Restrict(s, keep), k)
    ensures Restrict(s, keep - {k}) == Remove(Restrict(s, keep), k)
  {
    if s != [] {
      var rest, x := s[..|s| - 1], s[|s| - 1];
      RestrictRemove(rest, keep, k);
      assert (Remove(rest, k) + [x])[..|Remove(rest, k)|] == Remove(rest, k);
      assert (Restrict(rest, keep) + [x])[..|Restrict(rest, keep)|] == Restrict(rest, keep);
    }
  }

  lemma {:induction false} RestrictAbsent(s: Store, keep: set<Key>, k: Key)
    requires !Has(s, k)
    ensures Restrict(s, keep + {k}) == Restrict(s, keep)
  {
    if s != [] {
      assert s[|s| - 1].key != k && !Has(s[..|s| - 1], k);
      RestrictAbsent(s[..|s| - 1], keep, k);
    }
  }

  lemma RestrictAppend(s: Store, x: Slot, keep: set<Key>)
    ensures Restrict(s + [x], keep) == if x.key in keep then Restrict(s, keep) + [x] else Restrict(s, keep)
  {
    assert (s + [x])[..|s|] == s;
  }

  lemma KeysOfHas(s: Store, k: Key)
    ensures k in KeysOf(s) <==> Has(s, k)
  {
  }

  lemma KeysOfRemove(s: Store, k: Key)
    ensures KeysOf(Remove(s, k)) == KeysOf(s) - {k}
  {
    RemoveMembers(s, k);
    var r := Remove(s, k);
    forall q ensures q in KeysOf(r) <==> q in KeysOf(s) - {k} {
      if q in KeysOf(r) { var i :| 0 <= i < |r| && r[i].key == q; assert r[i] in s; }
      if q in KeysOf(s) - {k} { var i :| 0 <= i < |s| && s[i].key == q; assert s[i] in r; }
    }
  }

  lemma WithinRemoveSmall(small: Store, large: Store, k: Key)
    requires Within(small, large)
    ensures Within(Remove(small, k), large)
  {
    KeysOfRemove(small, k);
    RestrictRemove(large, KeysOf(small), k);
  }

  lemma WithinRemoveLarge(small: Store, large: Store, k: Key)
    requires Within(small, large) && !Has(small, k)
    ensures Within(small, Remove(large, k))
  {
    RestrictRemove(large, KeysOf(small), k);
    RemoveAbsent(small, k);
  }

  lemma WithinRemoveBoth(small: Store, large: Store, k: Key)
    requires Within(small, large)
    ensures Within(Remove(small, k), Remove(large, k))
  {
    WithinRemoveSmall(small, large, k);
    RemoveMembers(small, k);
    WithinRemoveLarge(Remove(small, k), large, k);
  }

  lemma WithinAppendBoth(small: Store, large: Store, x: Slot)
    requires Within(small, large) && !Has(large, x.key)
    ensures Within(small + [x], large + [x])
  {
    assert KeysOf(small + [x]) == KeysOf(small) + {x.key} by {
      forall q ensures q in KeysOf(small + [x]) <==> q in KeysOf(small) + {x.key} {
        if q in KeysOf(small) { var i :| 0 <= i < |small| && small[i].key == q; assert (small + [x])[i].key == q; }
        if q == x.key { assert (small + [x])[|small|].key == q; }
      }
    }
    RestrictAppend(large, x, KeysOf(small) + {x.key});
    RestrictAbsent(large, KeysOf(small), x.key);
  }

  lemma WithinAppendLarge(small: Store, large: Store, x: Slot)
    requires Within(small, large) && !Has(small, x.key)
    ensures Within(small, large + [x])
  {
    RestrictAppend(large, x, KeysOf(small));
  }

  lemma {:induction false} RestrictHead(s: Store, keep: set<Key>)
    requires s != [] && s[0].key in keep
    ensures Restrict(s, keep) != [] && Restrict(s, keep)[0] == s[0]
  {
    if |s| > 1 { RestrictHead(s[..|s| - 1], keep); }
  }

  lemma WithinMember(small: Store, large: Store, k: Key)
    requires Within(small, large) && UniqueKeys(small) && UniqueKeys(large) && Has(small, k)
    ensures Has(large, k) && Find(large, k) == Find(small, k)
  {
    FindIsTheSlot(small, k);
    RestrictMembers(large, KeysOf(small));
    FindOfMember(large, Find(small, k).value);
  }

  /** What two LRU caches fed the same operations keep to each other. */
  ghost predicate Nested(c: Config, d: Config, small: Store, large: Store) {
    Sound(c, small) && Sound(d, large) && Within(small, large) && |large| - |small| <= Capacity(d) - Capacity(c)
  }

  /** What an LRU cache does to make room for a key it does not hold. */
  lemma MakeRoomForNew(c: Config, s: Store, k: Key)
    requires c.policy == LRU && Sound(c, s) && !Has(s, k)
    ensures |s| < Capacity(c) ==> MakeRoom(c, s, k) == s
    ensures |s| == Capacity(c) ==> MakeRoom(c, s, k) == Remove(s, s[0].key) && |MakeRoom(c, s, k)| == |s| - 1
  {
    if s != [] {
      assert Has(s, s[0].key);
      RemoveKeepsUnique(s, s[0].key);
    }
  }

  lemma WithinEvictBoth(small: Store, large: Store)
    requires small != [] && large != [] && Within(small, large)
    ensures Within(Remove(small, small[0].key), Remove(large, large[0].key))
  {
    var e := large[0].key;
    KeysOfHas(small, e);
    if Has(small, e) {
      RestrictHead(large, KeysOf(small));
      WithinRemoveBoth(small, large, e);
    } else {
      WithinRemoveLarge(small, large, e);
      WithinRemoveSmall(small, Remove(large, e), small[0].key);
    }
  }

  lemma NestedMakeRoom(c: Config, d: Config, small: Store, large: Store, k: Key)
    requires c.policy == d.policy == LRU && c.maxSize <= d.maxSize && Nested(c, d, small, large)
    ensures Within(MakeRoom(c, small, k), MakeRoom(d, large, k))
    ensures |MakeRoom(d, large, k)| - |MakeRoom(c, small, k)| <= Capacity(d) - Capacity(c)
  {
    if Has(small, k) {
      RemoveKeepsUnique(small, k);
      RemoveKeepsUnique(large, k);
      WithinMember(small, large, k);
      WithinRemoveBoth(small, large, k);
    } else {
      MakeRoomForNew(c, small, k);
      if Has(large, k) {
        RemoveKeepsUnique(large, k);
        WithinRemoveLarge(small, large, k);
        if |small| == Capacity(c) { WithinRemoveSmall(small, Remove(large, k), small[0].key); }
      } else {
        MakeRoomForNew(d, large, k);
        if |large| == Capacity(d) {
          WithinEvictBoth(small, large);
        } else if |small| == Capacity(c) {
          WithinRemoveSmall(small, large, small[0].key);
        }
      }
    }
  }

  lemma NestedSet(c: Config, d: Config, small: Store, large: Store, op: Op)
    requires c.policy == d.policy == LRU && c.maxSize <= d.maxSize && c.defaultTtl == d.defaultTtl
    requires Nested(c, d, small, large) && op.Set?
    ensures Nested(c, d, Step(c, small, op), Step(d, large, op))
  {
    StepKeepsSound(c, small, op);
    StepKeepsSound(d, large, op);
    SetKeepsWithin(c, d, small, large, op);
  }

  lemma SetKeepsWithin(c: Config, d: Config, small: Store, large: Store, op: Op)
    requires c.policy == d.policy == LRU && c.maxSize <= d.maxSize && c.defaultTtl == d.defaultTtl
    requires Nested(c, d, small, large) && op.Set?
    ensures Within(Step(c, small, op), Step(d, large, op))
    ensures |Step(d, large, op)| - |Step(c, small, op)| <= Capacity(d) - Capacity(c)
  {
    var x := Slot(op.key, op.value, Expiry(c, op.ttl, op.now), 1);
    SetAppends(c, small, op, x);
    SetAppends(d, large, op, x);
    RoomThenAppend(c, d, small, large, x);
  }

  lemma RoomThenAppend(c: Config, d: Config, small: Store, large: Store, x: Slot)
    requires c.policy == d.policy == LRU && c.maxSize <= d.maxSize && Nested(c, d, small, large)
    ensures Within(MakeRoom(c, small, x.key) + [x], MakeRoom(d, large, x.key) + [x])
    ensures |MakeRoom(d, large, x.key)| - |MakeRoom(c, small, x.key)| <= Capacity(d) - Capacity(c)
  {
    NestedMakeRoom(c, d, small, large, x.key);
    MakeRoomKeeps(d, large, x.key);
    WithinAppendBoth(MakeRoom(c, small, x.key), MakeRoom(d, large, x.key), x);
  }

  lemma SetAppends(c: Config, s: Store, op: Op, x: Slot)
    requires c.policy == LRU && op.Set? && x == Slot(op.key, op.value, Expiry(c, op.ttl, op.now), 1)
    ensures Step(c, s, op) == MakeRoom(c, s, x.key) + [x]
  {
  }

  lemma NestedGet(c: Config, d: Config, small: Store, large: Store, op: Op)
    requires c.policy == d.policy == LRU && c.maxSize <= d.maxSize
    requires Nested(c, d, small, large) && op.Get?
    ensures Nested(c, d, Step(c, small, op), Step(d, large, op))
  {
    var k := op.key;
    StepKeepsSound(c, small, op);
    StepKeepsSound(d, large, op);
    FindIsTheSlot(small, k);
    FindIsTheSlot(large, k);
    RemoveKeepsUnique(small, k);
    RemoveKeepsUnique(large, k);
    RemoveMembers(large, k);
    if Has(small, k) {
      WithinMember(small, large, k);
      WithinRemoveBoth(small, large, k);
      WithinAppendBoth(Remove(small, k), Remove(large, k), Find(large, k).value);
    } else if Has(large, k) {
      WithinRemoveLarge(small, large, k);
      WithinAppendLarge(small, Remove(large, k), Find(large, k).value);
    }
  }

  lemma NestedStep(c: Config, d: Config, small: Store, large: Store, op: Op)
    requires c.policy == d.policy == LRU && c.maxSize <= d.maxSize && c.defaultTtl == d.defaultTtl
    requires Nested(c, d, small, large)
    ensures Nested(c, d, Step(c, small, op), Step(d, large, op))
  {
    match op
    case Set(_, _, _, _) => NestedSet(c, d, small, large, op);
    case Get(_, _) => NestedGet(c, d, small, large, op);
    case Delete(k) =>
      StepKeepsSound(c, small, op);
      StepKeepsSound(d, large, op);
      WithinRemoveBoth(small, large, k);
      RemoveKeepsUnique(small, k);
      RemoveKeepsUnique(large, k);
      if Has(small, k) { WithinMember(small, large, k); }
    case Clear =>
  }

  /** Fed the same operations, the smaller LRU cache is always the larger one with some keys left out. */
  lemma {:induction false} LruInclusion(c: Config, d: Config, ops: seq<Op>)
    requires c.policy == d.policy == LRU && c.maxSize <= d.maxSize && c.defaultTtl == d.defaultTtl
    ensures Nested(c, d, Run(c, [], ops), Run(d, [], ops))
  {
    if ops != [] {
      var before := ops[..|ops| - 1];
      LruInclusion(c, d, before);
      NestedStep(c, d, Run(c, [], before), Run(d, [], before), ops[|ops| - 1]);
    }
  }

  /** So whenever the smaller cache hits, the larger one hits with the same value. */
  lemma LargerNeverMissesMore(c: Config, d: Config, ops: seq<Op>, k: Key, now: int)
    requires c.policy == d.policy == LRU && c.maxSize <= d.maxSize && c.defaultTtl == d.defaultTtl
    requires Hits(Run(c, [], ops), k, now)
    ensures Hits(Run(d, [], ops), k, now)
    ensures DoGet(d, Run(d, [], ops), k, now).1 == DoGet(c, Run(c, [], ops), k, now).1
  {
    LruInclusion(c, d, ops);
    FindIsTheSlot(Run(c, [], ops), k);
    WithinMember(Run(c, [], ops), Run(d, [], ops), k);
  }

  // ---- The cache object -------------------------------------------------------

  lemma {:induction false} RemoveMiddle(a: Store, x: Slot, b: Store)
    requires UniqueKeys(a + [x] + b)
    ensures Remove(a + [x] + b, x.key) == a + b
  {
    var s := a + [x] + b;
    if b == [] {
      assert s[..|a|] == a && s[|a|] == x;
      assert !Has(a, x.key) by { assert forall i :: 0 <= i < |a| ==> s[i] == a[i]; }
      RemoveAbsent(a, x.key);
    } else {
      var b', y := b[..|b| - 1], b[|b| - 1];
      assert s[..|s| - 1] == a + [x] + b';
      assert s[|s| - 1] == y && s[|a|] == x;
      assert UniqueKeys(a + [x] + b') by { assert forall i :: 0 <= i < |s| - 1 ==> (a + [x] + b')[i] == s[i]; }
      RemoveMiddle(a, x, b');
    }
  }

  /** One round of the purge loop: the entry just looked at goes if it has expired. */
  lemma PurgeOne(entries: Store, i: nat, now: int)
    requires UniqueKeys(entries) && i < |entries|
    ensures
      var before := Unexpired(entries[..i], now) + entries[i..];
      var after := if Expired(entries[i].expiresAt, now) then Remove(before, entries[i].key) else before;
      after == Unexpired(entries[..i + 1], now) + entries[i + 1..]
  {
    var kept, x, later := Unexpired(entries[..i], now), entries[i], entries[i + 1..];
    assert entries[..i + 1][..i] == entries[..i];
    assert entries[i..] == [x] + later;
    UnexpiredKeepsUnique(entries[..i], now);
    assert kept + [x] + later == kept + entries[i..];
    if Expired(x.expiresAt, now) {
      KeptIsUnique(entries, i, kept);
      RemoveMiddle(kept, x, later);
    }
  }

  lemma KeptIsUnique(entries: Store, i: nat, kept: Store)
    requires UniqueKeys(entries) && i < |entries| && UniqueKeys(kept)
    requires forall x :: x in kept ==> x in entries[..i]
    ensures UniqueKeys(kept + [entries[i]] + entries[i + 1..])
  {
    var s := kept + [entries[i]] + entries[i + 1..];
    forall a, b | 0 <= a < b < |s| ensures s[a].key != s[b].key {
      if a < |kept| {
        assert s[a] in kept;
        var j :| 0 <= j < i && entries[j] == s[a];
        if b >= |kept| { assert s[b] == entries[b - |kept| + i]; }
      } else {
        assert s[a] == entries[a - |kept| + i] && s[b] == entries[b - |kept| + i];
      }
    }
  }

  class InMemoryCache {
    const config: Config
    var store: Store

    ghost predicate Valid()
      reads this
    {
      Sound(config, store)
    }

    constructor (config: Config)
      ensures Valid() && this.config == config && store == []
    {
      this.config, store := config, [];
    }

    method Put(key: Key, value: Value, ttl: Option<int>, now: int)
      requires Valid()
      modifies this
      ensures Valid() && store == DoSet(config, old(store), key, value, ttl, now)
    {
      StepKeepsSound(config, store, Set(key, value, ttl, now));
      PurgeExpired(now);
      if Contains(key) {
        store := Remove(store, key);
      } else if |store| >= config.maxSize {
        EvictOne();
      }
      var t := if ttl.Some? then ttl else config.defaultTtl;
      var expiresAt := if t.Some? && t.value != 0 then Some(now + t.value) else None;
      store := store + [Slot(key, value, expiresAt, 1)];
    }

    predicate Contains(key: Key)
      reads this
    {
      Has(store, key)
    }

    method Lookup(key: Key, now: int) returns (r: Option<Value>)
      requires Valid()
      modifies this
      ensures Valid() && (store, r) == DoGet(config, old(store), key, now)
    {
      StepKeepsSound(config, store, Get(key, now));
      var entry := Find(store, key);
      if entry == None { return None; }
      if Expired(entry.value.expiresAt, now) {
        store := Remove(store, key);
        return None;
      }
      if config.policy == LRU {
        store := Remove(store, key);
        store := store + [entry.value];
      } else if config.policy == LFU {
        store := Bump(store, key);
      }
      r := Some(entry.value.value);
    }

    method Erase(key: Key) returns (existed: bool)
      requires Valid()
      modifies this
      ensures Valid() && store == Remove(old(store), key) && existed == Has(old(store), key)
    {
      StepKeepsSound(config, store, Delete(key));
      existed := Contains(key);
      store := Remove(store, key);
    }

    method Empty()
      modifies this
      ensures Valid() && store == []
    {
      store := [];
    }

    method PurgeExpired(now: int)
      requires Valid()
      modifies this
      ensures Valid() && store == Purge(config.policy, old(store), now)
    {
      if config.policy != TTL { return; }
      var entries := store;
      UnexpiredKeepsUnique(entries, now);
      for i := 0 to |entries|
        invariant store == Unexpired(entries[..i], now) + entries[i..]
      {
        PurgeOne(entries, i, now);
        if Expired(entries[i].expiresAt, now) {
          store := Remove(store, entries[i].key);
        }
      }
      assert entries[..|entries|] == entries;
    }

    /** Drops the oldest slot, or under LFU the first slot of least frequency. */
    method EvictOne()
      modifies this
      ensures store == Evict(config.policy, old(store))
    {
      if config.policy != LFU {
        if store != [] { store := Remove(store, store[0].key); }
        return;
      }
      var least: Option<Slot> := None;
      for i := 0 to |store|
        invariant store == old(store)
        invariant least == if i == 0 then None else Some(store[LeastFrequent(store[..i])])
      {
        assert store[..i + 1][..i] == store[..i];
        if least == None || store[i].frequency < least.value.frequency {
          least := Some(store[i]);
        }
      }
      assert store[..|store|] == store;
      if least.Some? { store := Remove(store, least.value.key); }
    }
  }
}
