/** What the cache's contents mean in terms of the operations that led to them. */
module CacheHistory {
  import opened Common
  import opened Cache

  // ---- A reference map without capacity ---------------------------------------

  datatype Kept = Kept(value: Value, expiresAt: Option<int>)

  /** The last undeleted setting of every key. */
  function Reference(c: Config, ops: seq<Op>): map<Key, Kept> {
    if ops == [] then map[]
    else
      var before := Reference(c, ops[..|ops| - 1]);
      match ops[|ops| - 1]
      case Set(k, v, ttl, now) => before[k := Kept(v, Expiry(c, ttl, now))]
      case Get(_, _) => before
      case Delete(k) => before - {k}
      case Clear => map[]
  }

  ghost predicate Agrees(s: Store, ref: map<Key, Kept>) {
    forall x :: x in s ==> x.key in ref && ref[x.key] == Kept(x.value, x.expiresAt)
  }

  lemma {:induction false} RunAgrees(c: Config, ops: seq<Op>)
    ensures Agrees(Run(c, [], ops), Reference(c, ops))
  {
    if ops != [] {
      var s := Run(c, [], ops[..|ops| - 1]);
      RunAgrees(c, ops[..|ops| - 1]);
      RunKeepsSound(c, [], ops[..|ops| - 1]);
      match ops[|ops| - 1]
      case Set(k, v, ttl, now) =>
        UnexpiredKeepsUnique(s, now);
        var p := Purge(c.policy, s, now);
        MakeRoomMembers(c, p, k);
      case Get(k, now) =>
        RemoveMembers(s, k);
        FindIsTheSlot(s, k);
        BumpAgrees(s, k, Reference(c, ops));
      case Delete(k) => RemoveMembers(s, k);
      case Clear =>
    }
  }

  lemma BumpAgrees(s: Store, k: Key, ref: map<Key, Kept>)
    requires Agrees(s, ref)
    ensures Agrees(Bump(s, k), ref)
  {
    BumpKeepsKeys(s, k);
    forall x | x in Bump(s, k) ensures x.key in ref && ref[x.key] == Kept(x.value, x.expiresAt) {
      var i :| 0 <= i < |s| && Bump(s, k)[i] == x;
      assert s[i] in s;
    }
  }

  /** Making room only drops slots, never the wanted key's alone. */
  lemma MakeRoomMembers(c: Config, s: Store, k: Key)
    ensures forall x :: x in MakeRoom(c, s, k) ==> x in s && x.key != k
  {
    RemoveMembers(s, k);
    if s != [] { RemoveMembers(s, s[Victim(c.policy, s)].key); }
  }

  /** Every hit returns the latest setting of the key, neither deleted nor expired. */
  lemma HitReturnsLatest(c: Config, ops: seq<Op>, k: Key, now: int)
    ensures
      var ref := Reference(c, ops);
      match DoGet(c, Run(c, [], ops), k, now).1
      case Some(v) => k in ref && ref[k].value == v && !Expired(ref[k].expiresAt, now)
      case None => true
  {
    RunAgrees(c, ops);
    FindIsTheSlot(Run(c, [], ops), k);
  }

  // ---- Nothing is lost while the keys fit -------------------------------------

  function SetKeys(ops: seq<Op>): set<Key> {
    if ops == [] then {}
    else
      var before := SetKeys(ops[..|ops| - 1]);
      if ops[|ops| - 1].Set? then before + {ops[|ops| - 1].key} else before
  }

  ghost predicate NotAfter(ops: seq<Op>, now: int) {
    forall i :: 0 <= i < |ops| ==> (ops[i].Set? || ops[i].Get?) ==> ops[i].now <= now
  }

  lemma {:induction false} ReferenceKeysWereSet(c: Config, ops: seq<Op>)
    ensures Reference(c, ops).Keys <= SetKeys(ops)
  {
    if ops != [] { ReferenceKeysWereSet(c, ops[..|ops| - 1]); }
  }

  lemma {:induction false} KeysOfSize(s: Store)
    requires UniqueKeys(s)
    ensures |KeysOf(s)| == |s|
  {
    if s != [] {
      var rest := s[..|s| - 1];
      KeysOfSize(rest);
      assert KeysOf(s) == KeysOf(rest) + {s[|s| - 1].key} by {
        forall q ensures q in KeysOf(s) <==> q in KeysOf(rest) + {s[|s| - 1].key} {
          if q in KeysOf(rest) { var i :| 0 <= i < |rest| && rest[i].key == q; assert s[i].key == q; }
        }
      }
      assert s[|s| - 1].key !in KeysOf(rest);
    }
  }

  lemma KeysWithin(s: Store, bound: set<Key>)
    requires forall x :: x in s ==> x.key in bound
    ensures KeysOf(s) <= bound
  {
    forall q | q in KeysOf(s) ensures q in bound {
      var i :| 0 <= i < |s| && s[i].key == q;
      assert s[i] in s;
    }
  }

  lemma HasMember(s: Store, t: Store, k: Key)
    requires Has(s, k)
    requires forall x :: x in s && x.key == k ==> x in t
    ensures Has(t, k)
  {
    var i :| 0 <= i < |s| && s[i].key == k;
    assert s[i] in s && s[i] in t;
    var j :| 0 <= j < |t| && t[j] == s[i];
  }

  lemma {:induction false} KeysFitNothingLost(c: Config, ops: seq<Op>, k: Key, now: int)
    requires |SetKeys(ops)| <= Capacity(c) && NotAfter(ops, now)
    requires k in Reference(c, ops) && !Expired(Reference(c, ops)[k].expiresAt, now)
    ensures Has(Run(c, [], ops), k)
  {
    var rest, op := ops[..|ops| - 1], ops[|ops| - 1];
    var s, s' := Run(c, [], rest), Run(c, [], ops);
    assert NotAfter(rest, now) by { assert forall i :: 0 <= i < |rest| ==> rest[i] == ops[i]; }
    SubsetSize(SetKeys(rest), SetKeys(ops));
    if op.Set? && op.key == k {
      assert s'[|s'| - 1].key == k;
    } else {
      KeysFitNothingLost(c, rest, k, now);
      StepLosesNothing(c, rest, op, k, now);
    }
  }

  lemma SetLosesNothing(c: Config, p: Store, k': Key, k: Key, keys: set<Key>)
    requires Sound(c, p) && Has(p, k) && k' != k && KeysOf(p) <= keys && |keys + {k'}| <= Capacity(c)
    ensures Has(MakeRoom(c, p, k'), k)
  {
    if Has(p, k') {
      RemoveMembers(p, k');
      HasMember(p, Remove(p, k'), k);
    } else {
      KeysOfSize(p);
      KeysOfHas(p, k');
      SubsetSize(KeysOf(p) + {k'}, keys + {k'});
    }
  }

  lemma SetKeepsOther(c: Config, s: Store, op: Op, k: Key, keys: set<Key>)
    requires op.Set? && op.key != k && Sound(c, s) && Has(s, k)
    requires forall x :: x in s && x.key == k ==> !Expired(x.expiresAt, op.now)
    requires (forall x :: x in s ==> x.key in keys) && |keys + {op.key}| <= Capacity(c)
    ensures Has(Step(c, s, op), k)
  {
    var p := Purge(c.policy, s, op.now);
    UnexpiredKeepsUnique(s, op.now);
    HasMember(s, p, k);
    KeysWithin(p, keys);
    SetLosesNothing(c, p, op.key, k, keys);
    HasMember(MakeRoom(c, p, op.key), Step(c, s, op), k);
  }

  lemma MovedKeeps(s: Store, k': Key, k: Key)
    requires Has(s, k)
    ensures k' != k ==> Has(Remove(s, k'), k)
    ensures Has(Bump(s, k'), k)
    ensures Find(s, k').Some? ==> Has(Remove(s, k') + [Find(s, k').value], k)
  {
    var i :| 0 <= i < |s| && s[i].key == k;
    BumpKeepsKeys(s, k');
    assert Bump(s, k')[i].key == k;
    FindIsTheSlot(s, k');
    RemoveMembers(s, k');
    if k' != k {
      HasMember(s, Remove(s, k'), k);
      if Find(s, k').Some? { HasMember(Remove(s, k'), Remove(s, k') + [Find(s, k').value], k); }
    } else if Find(s, k').Some? {
      assert (Remove(s, k') + [Find(s, k').value])[|Remove(s, k')|].key == k;
    }
  }

  lemma GetKeepsUnexpired(c: Config, s: Store, op: Op, k: Key)
    requires op.Get? && Has(s, k)
    requires forall x :: x in s && x.key == k ==> !Expired(x.expiresAt, op.now)
    ensures Has(Step(c, s, op), k)
  {
    MovedKeeps(s, op.key, k);
    FindIsTheSlot(s, op.key);
  }

  lemma StepLosesNothing(c: Config, rest: seq<Op>, op: Op, k: Key, now: int)
    requires |SetKeys(rest + [op])| <= Capacity(c) && Has(Run(c, [], rest), k)
    requires !op.Clear? && (op.Set? || op.Delete? ==> op.key != k) && (op.Set? || op.Get? ==> op.now <= now)
    requires k in Reference(c, rest) && !Expired(Reference(c, rest)[k].expiresAt, now)
    ensures Has(Step(c, Run(c, [], rest), op), k)
  {
    var s := Run(c, [], rest);
    RunAgrees(c, rest);
    match op
    case Set(k', _, _, _) =>
      RunKeepsSound(c, [], rest);
      ReferenceKeysWereSet(c, rest);
      assert (rest + [op])[..|rest|] == rest;
      SetKeepsOther(c, s, op, k, SetKeys(rest));
    case Get(_, _) => GetKeepsUnexpired(c, s, op, k);
    case Delete(k') => MovedKeeps(s, k', k);
  }

  /** With room for every key ever set, the cache answers exactly like the unbounded reference. */
  lemma ExactWhileKeysFit(c: Config, ops: seq<Op>, k: Key, now: int)
    requires |SetKeys(ops)| <= Capacity(c) && NotAfter(ops, now)
    ensures
      var ref := Reference(c, ops);
      DoGet(c, Run(c, [], ops), k, now).1 ==
        if k in ref && !Expired(ref[k].expiresAt, now) then Some(ref[k].value) else None
  {
    HitReturnsLatest(c, ops, k, now);
    RunAgrees(c, ops);
    FindIsTheSlot(Run(c, [], ops), k);
    if k in Reference(c, ops) && !Expired(Reference(c, ops)[k].expiresAt, now) {
      KeysFitNothingLost(c, ops, k, now);
    }
  }

  // ---- How long a setting is good for -----------------------------------------

  /** A get at time `u`, made right after the run `ops` and one more set. */
  function ReadBack(c: Config, ops: seq<Op>, op: Op, u: int): Option<Value>
    requires op.Set?
  {
    DoGet(c, Run(c, [], ops + [op]), op.key, u).1
  }

  /**
   * What was just set is found up to and including the time its time to live is over, and for ever without one. The
   * call's own time to live goes before the default, and 0 means none. So does an expiry time of 0.
   */
  lemma GoodUntil(c: Config, ops: seq<Op>, op: Op, u: int)
    requires op.Set?
    ensures op.ttl == Some(0) ==> ReadBack(c, ops, op, u) == Some(op.value)
    ensures op.ttl == None && c.defaultTtl in {None, Some(0)} ==> ReadBack(c, ops, op, u) == Some(op.value)
    ensures op.ttl.Some? && op.ttl.value != 0 ==>
      ReadBack(c, ops, op, u) ==
        if u <= op.now + op.ttl.value || op.now + op.ttl.value == 0 then Some(op.value) else None
    ensures op.ttl == None && c.defaultTtl.Some? && c.defaultTtl.value != 0 ==>
      ReadBack(c, ops, op, u) ==
        if u <= op.now + c.defaultTtl.value || op.now + c.defaultTtl.value == 0 then Some(op.value) else None
  {
    assert (ops + [op])[..|ops|] == ops;
    FindLast(MakeRoom(c, Purge(c.policy, Run(c, [], ops), op.now), op.key),
             Slot(op.key, op.value, Expiry(c, op.ttl, op.now), 1));
  }

  lemma FindLast(s: Store, x: Slot)
    ensures Find(s + [x], x.key) == Some(x)
  {
  }

  // ---- What one operation drops -----------------------------------------------

  lemma HasRemove(s: Store, e: Key, q: Key)
    ensures Has(Remove(s, e), q) <==> Has(s, q) && q != e
  {
    KeysOfRemove(s, e);
    KeysOfHas(s, q);
    KeysOfHas(Remove(s, e), q);
  }

  lemma HasAppend(s: Store, x: Slot, q: Key)
    ensures Has(s + [x], q) <==> Has(s, q) || q == x.key
  {
    KeysOfAppend(s, x);
    KeysOfHas(s, q);
    KeysOfHas(s + [x], q);
  }

  /** The key is held, and not by a slot that has expired. */
  predicate HeldFresh(s: Store, q: Key, now: int) {
    Find(s, q).Some? && !Expired(Find(s, q).value.expiresAt, now)
  }

  /** The purge that comes before a set drops exactly the expired slots, and only under TTL. */
  lemma PurgeDropsExactly(c: Config, s: Store, now: int, q: Key)
    requires UniqueKeys(s)
    ensures Has(Purge(c.policy, s, now), q) <==> if c.policy == TTL then HeldFresh(s, q, now) else Has(s, q)
  {
    var p := Purge(c.policy, s, now);
    UnexpiredKeepsUnique(s, now);
    FindIsTheSlot(s, q);
    if i :| 0 <= i < |p| && p[i].key == q { FindOfMember(s, p[i]); }
    if HeldFresh(s, q, now) && c.policy == TTL {
      var i :| 0 <= i < |p| && p[i] == Find(s, q).value;
    }
  }

  /**
   * After every run a set drops, of the other keys, exactly those the purge drops and, if the key set is new and what
   * is left fills the cache, one victim.
   */
  lemma SetDropsExactly(c: Config, ops: seq<Op>, op: Op, q: Key)
    requires op.Set? && q != op.key
    ensures
      var s := Run(c, [], ops);
      var p := Purge(c.policy, s, op.now);
      var full := p != [] && !Has(p, op.key) && |p| >= c.maxSize;
      Has(Run(c, [], ops + [op]), q)
      <==> (if c.policy == TTL then HeldFresh(s, q, op.now) else Has(s, q))
           && !(full && q == p[Victim(c.policy, p)].key)
  {
    assert (ops + [op])[..|ops|] == ops;
    var s := Run(c, [], ops);
    var p := Purge(c.policy, s, op.now);
    RunKeepsSound(c, [], ops);
    PurgeDropsExactly(c, s, op.now, q);
    HasRemove(p, op.key, q);
    if p != [] { HasRemove(p, p[Victim(c.policy, p)].key, q); }
    HasAppend(MakeRoom(c, p, op.key), Slot(op.key, op.value, Expiry(c, op.ttl, op.now), 1), q);
  }

  lemma HasMoved(c: Config, s: Store, k: Key, q: Key)
    requires Find(s, k).Some?
    ensures Has(Bump(s, k), q) <==> Has(s, q)
    ensures Has(Remove(s, k) + [Find(s, k).value], q) <==> Has(s, q)
  {
    FindIsTheSlot(s, k);
    HasRemove(s, k, q);
    HasAppend(Remove(s, k), Find(s, k).value, q);
    BumpKeepsKeys(s, k);
    if i :| 0 <= i < |s| && s[i].key == q { assert Bump(s, k)[i].key == q; }
    if i :| 0 <= i < |s| && Bump(s, k)[i].key == q { assert s[i].key == q; }
  }

  /** A get drops its own key exactly when it finds it expired, under every policy, and no other key ever. */
  lemma GetDropsExactly(c: Config, s: Store, k: Key, now: int, q: Key)
    ensures Has(DoGet(c, s, k, now).0, q) <==> Has(s, q) && !(q == k && !HeldFresh(s, k, now))
  {
    FindIsTheSlot(s, k);
    HasRemove(s, k, q);
    if HeldFresh(s, k, now) { HasMoved(c, s, k, q); }
  }

  // ---- LRU: how long a key survives -------------------------------------------

  /** The slots behind `k` in recency order. */
  function After(s: Store, k: Key): Store {
    if s == [] || s[|s| - 1].key == k then [] else After(s[..|s| - 1], k) + [s[|s| - 1]]
  }

  lemma {:induction false} AfterRemove(s: Store, k: Key, e: Key)
    requires e != k
    ensures After(Remove(s, e), k) == Remove(After(s, k), e)
  {
    if s != [] {
      var rest, x := s[..|s| - 1], s[|s| - 1];
      AfterRemove(rest, k, e);
      assert (Remove(rest, e) + [x])[..|Remove(rest, e)|] == Remove(rest, e);
      assert (After(rest, k) + [x])[..|After(rest, k)|] == After(rest, k);
    }
  }

  lemma AfterAppend(s: Store, k: Key, x: Slot)
    requires x.key != k
    ensures After(s + [x], k) == After(s, k) + [x]
  {
    assert (s + [x])[..|s|] == s;
  }

  lemma {:induction false} AfterMembers(s: Store, k: Key)
    requires UniqueKeys(s)
    ensures UniqueKeys(After(s, k)) && !Has(After(s, k), k)
    ensures forall x :: x in After(s, k) ==> x in s
    ensures Has(s, k) ==> |After(s, k)| < |s|
    ensures s != [] && s[0].key == k ==> |After(s, k)| == |s| - 1
    ensures s != [] && Has(s, k) ==> !Has(After(s, k), s[0].key)
  {
    if s != [] {
      var rest, x := s[..|s| - 1], s[|s| - 1];
      assert s == rest + [x];
      AfterMembers(rest, k);
      if x.key != k {
        var a := After(rest, k);
        assert Has(s, k) ==> Has(rest, k);
        forall i | 0 <= i < |a| ensures a[i].key != x.key { assert a[i] in rest; }
      }
    }
  }

  predicate Mentions(op: Op, k: Key) {
    op.Clear? || op.key == k
  }

  /** The keys set, or hit by a get, while `ops` run from `s`. */
  function Touched(c: Config, s: Store, ops: seq<Op>): set<Key> {
    if ops == [] then {}
    else
      var rest, op := ops[..|ops| - 1], ops[|ops| - 1];
      var before := Touched(c, s, rest);
      match op
      case Set(k, _, _, _) => before + {k}
      case Get(k, now) => if Hits(Run(c, s, rest), k, now) then before + {k} else before
      case _ => before
  }

  ghost predicate OnlyTouchedAfter(s: Store, k: Key, touched: set<Key>) {
    forall x :: x in After(s, k) ==> x.key in touched
  }

  lemma HeadEvictionNeedsAll(c: Config, s: Store, k: Key, k': Key, touched: set<Key>)
    requires c.policy == LRU && Sound(c, s) && !Has(s, k') && |s| == Capacity(c) && s[0].key == k
    requires OnlyTouchedAfter(s, k, touched) && k' in touched
    ensures |touched| >= Capacity(c)
  {
    AfterMembers(s, k);
    KeysOfSize(After(s, k));
    KeysWithin(After(s, k), touched);
    KeysWithin(After(s, k), KeysOf(s));
    KeysOfHas(s, k');
    SubsetSize(KeysOf(After(s, k)) + {k'}, touched);
  }

  /** Dropping another key keeps `k`, and what lies behind it stays among the touched. */
  lemma RemoveOther(s: Store, k: Key, e: Key, touched: set<Key>)
    requires e != k && Has(s, k) && OnlyTouchedAfter(s, k, touched)
    ensures Has(Remove(s, e), k) && OnlyTouchedAfter(Remove(s, e), k, touched)
  {
    RemoveMembers(s, e);
    HasMember(s, Remove(s, e), k);
    AfterRemove(s, k, e);
    RemoveMembers(After(s, k), e);
  }

  lemma AppendTouched(s: Store, k: Key, x: Slot, touched: set<Key>)
    requires x.key != k && x.key in touched && Has(s, k) && OnlyTouchedAfter(s, k, touched)
    ensures Has(s + [x], k) && OnlyTouchedAfter(s + [x], k, touched)
  {
    AfterAppend(s, k, x);
    HasMember(s, s + [x], k);
  }

  /**
   * Once touched, a key stays until at least `maxSize` distinct other keys have been set or hit,
   * whatever else is deleted or expires meanwhile.
   */
  lemma {:induction false} LruRetains(c: Config, s: Store, ops: seq<Op>, k: Key)
    requires c.policy == LRU && Sound(c, s) && s != [] && s[|s| - 1].key == k
    requires forall i :: 0 <= i < |ops| ==> !Mentions(ops[i], k)
    requires |Touched(c, s, ops)| < Capacity(c)
    ensures Has(Run(c, s, ops), k) && OnlyTouchedAfter(Run(c, s, ops), k, Touched(c, s, ops))
  {
    if ops != [] {
      var rest, op := ops[..|ops| - 1], ops[|ops| - 1];
      var t, touched := Run(c, s, rest), Touched(c, s, ops);
      assert !Mentions(op, k);
      SubsetSize(Touched(c, s, rest), touched);
      LruRetains(c, s, rest, k);
      RunKeepsSound(c, s, rest);
      match op
      case Set(k', v, ttl, now) =>
        if Has(t, k') {
          RemoveOther(t, k, k', touched);
        } else {
          MakeRoomForNew(c, t, k');
          if |t| == Capacity(c) {
            if t[0].key == k { HeadEvictionNeedsAll(c, t, k, k', touched); }
            RemoveOther(t, k, t[0].key, touched);
          }
        }
        AppendTouched(MakeRoom(c, t, k'), k, Slot(k', v, Expiry(c, ttl, now), 1), touched);
      case Get(k', now) =>
        FindIsTheSlot(t, k');
        RemoveOther(t, k, k', touched);
        if Hits(t, k', now) { AppendTouched(Remove(t, k'), k, Find(t, k').value, touched); }
      case Delete(k') => RemoveOther(t, k, k', touched);
    }
  }

  /** Only sets and gets, and nothing that could expire. */
  ghost predicate Plain(c: Config, s: Store, ops: seq<Op>) {
    && (forall x :: x in s ==> x.expiresAt == None)
    && (forall i :: 0 <= i < |ops| ==>
          ops[i].Get? || (ops[i].Set? && Expiry(c, ops[i].ttl, ops[i].now) == None))
  }

  lemma {:induction false} PlainRun(c: Config, s: Store, ops: seq<Op>)
    requires c.policy == LRU && Plain(c, s, ops)
    ensures forall x :: x in Run(c, s, ops) ==> x.expiresAt == None
  {
    if ops != [] {
      var rest, op := ops[..|ops| - 1], ops[|ops| - 1];
      var t := Run(c, s, rest);
      PlainRun(c, s, rest);
      if op.Set? {
        MakeRoomMembers(c, t, op.key);
      } else {
        RemoveMembers(t, op.key);
        FindIsTheSlot(t, op.key);
      }
    }
  }

  /** A set that leaves `k` in place puts its own key behind it. */
  lemma SetLiesBehind(c: Config, t: Store, op: Op, k: Key)
    requires c.policy == LRU && Sound(c, t) && op.Set? && op.key != k && Has(Step(c, t, op), k)
    ensures Has(t, k)
    ensures KeysOf(After(Step(c, t, op), k)) == KeysOf(After(t, k)) + {op.key}
  {
    var x := Slot(op.key, op.value, Expiry(c, op.ttl, op.now), 1);
    MakeRoomMembers(c, t, op.key);
    LastIsOther(MakeRoom(c, t, op.key), x, k);
    HasMember(MakeRoom(c, t, op.key), t, k);
    if Has(t, op.key) {
      BehindAfterMove(t, k, op.key, x);
    } else {
      MakeRoomForNew(c, t, op.key);
      if |t| == Capacity(c) {
        BehindAfterEviction(t, k, x);
      } else {
        BehindAfterMove(t, k, op.key, x);
        RemoveAbsent(t, op.key);
      }
    }
  }

  /** So does a get that hits. */
  lemma HitLiesBehind(c: Config, t: Store, op: Op, k: Key)
    requires c.policy == LRU && op.Get? && op.key != k && Hits(t, op.key, op.now) && Has(Step(c, t, op), k)
    ensures Has(t, k)
    ensures KeysOf(After(Step(c, t, op), k)) == KeysOf(After(t, k)) + {op.key}
  {
    RemoveMembers(t, op.key);
    FindIsTheSlot(t, op.key);
    LastIsOther(Remove(t, op.key), Find(t, op.key).value, k);
    HasMember(Remove(t, op.key), t, k);
    BehindAfterMove(t, k, op.key, Find(t, op.key).value);
  }

  /** While `k` is present, everything touched since lies behind it. */
  lemma {:induction false} TouchedLieBehind(c: Config, s: Store, ops: seq<Op>, k: Key)
    requires c.policy == LRU && Sound(c, s) && s != [] && s[|s| - 1].key == k && Plain(c, s, ops)
    requires forall i :: 0 <= i < |ops| ==> !Mentions(ops[i], k)
    requires Has(Run(c, s, ops), k)
    ensures Touched(c, s, ops) <= KeysOf(After(Run(c, s, ops), k))
  {
    if ops != [] {
      var rest, op := ops[..|ops| - 1], ops[|ops| - 1];
      var t := Run(c, s, rest);
      assert !Mentions(op, k);
      RunKeepsSound(c, s, rest);
      PlainRun(c, s, rest);
      FindIsTheSlot(t, op.key);
      if op.Set? {
        SetLiesBehind(c, t, op, k);
      } else if Hits(t, op.key, op.now) {
        HitLiesBehind(c, t, op, k);
      } else {
        assert Step(c, t, op) == t;
      }
      TouchedLieBehind(c, s, rest, k);
    }
  }

  lemma LastIsOther(s: Store, x: Slot, k: Key)
    requires x.key != k && Has(s + [x], k)
    ensures Has(s, k)
  {
    var i :| 0 <= i < |s + [x]| && (s + [x])[i].key == k;
    assert s[i].key == k;
  }

  lemma KeysOfAppend(s: Store, x: Slot)
    ensures KeysOf(s + [x]) == KeysOf(s) + {x.key}
  {
    forall q ensures q in KeysOf(s + [x]) <==> q in KeysOf(s) + {x.key} {
      if q in KeysOf(s) { var i :| 0 <= i < |s| && s[i].key == q; assert (s + [x])[i].key == q; }
      if q == x.key { assert (s + [x])[|s|].key == q; }
    }
  }

  lemma BehindAfterMove(s: Store, k: Key, e: Key, x: Slot)
    requires e != k && x.key == e
    ensures KeysOf(After(Remove(s, e) + [x], k)) == KeysOf(After(s, k)) + {e}
  {
    AfterAppend(Remove(s, e), k, x);
    AfterRemove(s, k, e);
    KeysOfRemove(After(s, k), e);
    KeysOfAppend(Remove(After(s, k), e), x);
  }

  lemma BehindAfterEviction(s: Store, k: Key, x: Slot)
    requires UniqueKeys(s) && s != [] && x.key != k && Has(Remove(s, s[0].key), k)
    ensures KeysOf(After(Remove(s, s[0].key) + [x], k)) == KeysOf(After(s, k)) + {x.key}
  {
    var e := s[0].key;
    RemoveMembers(s, e);
    HasMember(Remove(s, e), s, k);
    AfterMembers(s, k);
    AfterAppend(Remove(s, e), k, x);
    AfterRemove(s, k, e);
    RemoveAbsent(After(s, k), e);
    KeysOfAppend(After(s, k), x);
  }

  /** Without deletions and expiry, LRU drops a key exactly when `maxSize` distinct others have been touched. */
  lemma LruEvictsExactly(c: Config, s: Store, ops: seq<Op>, k: Key)
    requires c.policy == LRU && Sound(c, s) && s != [] && s[|s| - 1].key == k && Plain(c, s, ops)
    requires forall i :: 0 <= i < |ops| ==> !Mentions(ops[i], k)
    ensures Has(Run(c, s, ops), k) <==> |Touched(c, s, ops)| < Capacity(c)
  {
    var t := Run(c, s, ops);
    RunKeepsSound(c, s, ops);
    if |Touched(c, s, ops)| < Capacity(c) {
      LruRetains(c, s, ops, k);
    }
    if Has(t, k) {
      TouchedLieBehind(c, s, ops, k);
      AfterMembers(t, k);
      KeysOfSize(After(t, k));
      SubsetSize(Touched(c, s, ops), KeysOf(After(t, k)));
    }
  }

  // ---- Who is evicted ---------------------------------------------------------

  datatype Touch = WasSet(key: Key) | WasHit(key: Key)

  /** Every set, and every get that hit, in order. */
  function Log(c: Config, ops: seq<Op>): seq<Touch> {
    if ops == [] then []
    else
      var before := Log(c, ops[..|ops| - 1]);
      match ops[|ops| - 1]
      case Set(k, _, _, _) => before + [WasSet(k)]
      case Get(k, now) => if Hits(Run(c, [], ops[..|ops| - 1]), k, now) then before + [WasHit(k)] else before
      case _ => before
  }

  /** When `k` was last set or, under LRU, last set or hit; -1 if never. */
  function LastUse(p: Policy, log: seq<Touch>, k: Key): (i: int)
    ensures -1 <= i < |log|
  {
    if log == [] then -1
    else if log[|log| - 1].key == k && (p == LRU || log[|log| - 1].WasSet?) then |log| - 1
    else LastUse(p, log[..|log| - 1], k)
  }

  /** How often `k` was hit since it was last set. */
  function HitsSinceSet(log: seq<Touch>, k: Key): nat {
    if log == [] then 0
    else
      var t := log[|log| - 1];
      if t == WasSet(k) then 0
      else HitsSinceSet(log[..|log| - 1], k) + if t == WasHit(k) then 1 else 0
  }

  lemma LogAppend(p: Policy, log: seq<Touch>, t: Touch, k: Key)
    ensures LastUse(p, log + [t], k) ==
      if t.key == k && (p == LRU || t.WasSet?) then |log| else LastUse(p, log, k)
    ensures HitsSinceSet(log + [t], k) ==
      if t == WasSet(k) then 0 else HitsSinceSet(log, k) + if t == WasHit(k) then 1 else 0
  {
    assert (log + [t])[..|log|] == log;
  }

  /** The store lists its slots by last use, the longest unused first. */
  ghost predicate ByLastUse(p: Policy, log: seq<Touch>, s: Store) {
    s == [] || (
      && ByLastUse(p, log, s[..|s| - 1])
      && forall x :: x in s[..|s| - 1] ==> LastUse(p, log, x.key) < LastUse(p, log, s[|s| - 1].key))
  }

  /** The frequency of a slot counts its hits since its last set. */
  ghost predicate CountsHits(log: seq<Touch>, s: Store) {
    forall x :: x in s ==> x.frequency == 1 + HitsSinceSet(log, x.key)
  }

  lemma {:induction false} ByLastUseRemove(p: Policy, log: seq<Touch>, s: Store, k: Key)
    requires ByLastUse(p, log, s)
    ensures ByLastUse(p, log, Remove(s, k))
  {
    if s != [] {
      var rest, x := s[..|s| - 1], s[|s| - 1];
      ByLastUseRemove(p, log, rest, k);
      RemoveMembers(rest, k);
      assert (Remove(rest, k) + [x])[..|Remove(rest, k)|] == Remove(rest, k);
    }
  }

  lemma {:induction false} ByLastUseUnexpired(p: Policy, log: seq<Touch>, s: Store, now: int)
    requires ByLastUse(p, log, s) && UniqueKeys(s)
    ensures ByLastUse(p, log, Unexpired(s, now))
  {
    if s != [] {
      var rest, x := s[..|s| - 1], s[|s| - 1];
      ByLastUseUnexpired(p, log, rest, now);
      UnexpiredKeepsUnique(rest, now);
      assert (Unexpired(rest, now) + [x])[..|Unexpired(rest, now)|] == Unexpired(rest, now);
    }
  }

  lemma {:induction false} ByLastUseLogged(p: Policy, log: seq<Touch>, s: Store, t: Touch)
    requires ByLastUse(p, log, s)
    requires !Has(s, t.key) || (p != LRU && t.WasHit?)
    ensures ByLastUse(p, log + [t], s)
  {
    if s != [] {
      var rest := s[..|s| - 1];
      assert !Has(s, t.key) ==> !Has(rest, t.key) && s[|s| - 1].key != t.key;
      ByLastUseLogged(p, log, rest, t);
      forall x | x in s ensures LastUse(p, log + [t], x.key) == LastUse(p, log, x.key) {
        var i :| 0 <= i < |s| && s[i] == x;
        LogAppend(p, log, t, x.key);
      }
      assert forall x :: x in rest ==> x in s;
    }
  }

  lemma ByLastUseAppend(p: Policy, log: seq<Touch>, s: Store, x: Slot, t: Touch)
    requires ByLastUse(p, log, s) && !Has(s, x.key) && t.key == x.key && (p == LRU || t.WasSet?)
    ensures ByLastUse(p, log + [t], s + [x])
  {
    ByLastUseLogged(p, log, s, t);
    LogAppend(p, log, t, x.key);
    assert (s + [x])[..|s|] == s;
    forall y | y in s ensures LastUse(p, log + [t], y.key) < |log| {
      var i :| 0 <= i < |s| && s[i] == y;
      LogAppend(p, log, t, y.key);
    }
  }

  lemma {:induction false} ByLastUseBump(p: Policy, log: seq<Touch>, s: Store, k: Key)
    requires ByLastUse(p, log, s)
    ensures ByLastUse(p, log, Bump(s, k))
  {
    if s != [] {
      var rest := s[..|s| - 1];
      ByLastUseBump(p, log, rest, k);
      BumpKeepsKeys(rest, k);
      assert Bump(s, k)[..|s| - 1] == Bump(rest, k);
      forall x | x in Bump(rest, k) ensures LastUse(p, log, x.key) < LastUse(p, log, s[|s| - 1].key) {
        var i :| 0 <= i < |rest| && Bump(rest, k)[i] == x;
        assert rest[i] in rest;
      }
    }
  }

  lemma {:induction false} RunIsByLastUse(c: Config, ops: seq<Op>)
    ensures ByLastUse(c.policy, Log(c, ops), Run(c, [], ops))
  {
    if ops != [] {
      var rest, op := ops[..|ops| - 1], ops[|ops| - 1];
      var s, log := Run(c, [], rest), Log(c, rest);
      RunIsByLastUse(c, rest);
      RunKeepsSound(c, [], rest);
      match op
      case Set(k, v, ttl, now) =>
        ByLastUseUnexpired(c.policy, log, s, now);
        UnexpiredKeepsUnique(s, now);
        var p := Purge(c.policy, s, now);
        MakeRoomKeeps(c, p, k);
        ByLastUseRemove(c.policy, log, p, k);
        if p != [] { ByLastUseRemove(c.policy, log, p, p[Victim(c.policy, p)].key); }
        ByLastUseAppend(c.policy, log, MakeRoom(c, p, k), Slot(k, v, Expiry(c, ttl, now), 1), WasSet(k));
      case Get(k, now) =>
        FindIsTheSlot(s, k);
        ByLastUseRemove(c.policy, log, s, k);
        RemoveMembers(s, k);
        if Hits(s, k, now) {
          if c.policy == LRU {
            ByLastUseAppend(LRU, log, Remove(s, k), Find(s, k).value, WasHit(k));
          } else {
            ByLastUseLogged(c.policy, log, s, WasHit(k));
            ByLastUseBump(c.policy, log + [WasHit(k)], s, k);
          }
        }
      case Delete(k) => ByLastUseRemove(c.policy, log, s, k);
      case Clear =>
    }
  }

  lemma {:induction false} RunCountsHits(c: Config, ops: seq<Op>)
    requires c.policy == LFU
    ensures CountsHits(Log(c, ops), Run(c, [], ops))
  {
    if ops != [] {
      var rest, op := ops[..|ops| - 1], ops[|ops| - 1];
      var s, log := Run(c, [], rest), Log(c, rest);
      RunCountsHits(c, rest);
      RunKeepsSound(c, [], rest);
      var s', log' := Run(c, [], ops), Log(c, ops);
      match op
      case Set(k, v, ttl, now) =>
        MakeRoomMembers(c, s, k);
        forall x | x in s' ensures x.frequency == 1 + HitsSinceSet(log', x.key) {
          LogAppend(LFU, log, WasSet(k), x.key);
        }
      case Get(k, now) =>
        FindIsTheSlot(s, k);
        RemoveMembers(s, k);
        BumpKeepsKeys(s, k);
        if Hits(s, k, now) {
          forall x | x in s' ensures x.frequency == 1 + HitsSinceSet(log', x.key) {
            var i :| 0 <= i < |s'| && s'[i] == x;
            assert s[i] in s;
            LogAppend(LFU, log, WasHit(k), x.key);
          }
        }
      case Delete(k) => RemoveMembers(s, k);
      case Clear =>
    }
  }

  lemma {:induction false} ByLastUseIndex(p: Policy, log: seq<Touch>, s: Store, i: nat, j: nat)
    requires ByLastUse(p, log, s) && i < j < |s|
    ensures LastUse(p, log, s[i].key) < LastUse(p, log, s[j].key)
  {
    var rest := s[..|s| - 1];
    if j < |rest| { ByLastUseIndex(p, log, rest, i, j); } else { assert rest[i] in rest; }
  }

  lemma {:induction false} LeastFrequentIsLeast(s: Store, j: nat)
    requires j < |s|
    ensures s[LeastFrequent(s)].frequency <= s[j].frequency
    ensures j < LeastFrequent(s) ==> s[LeastFrequent(s)].frequency < s[j].frequency
  {
    if |s| > 1 {
      var rest := s[..|s| - 1];
      LeastFrequentIsLeast(rest, if j < |rest| then j else 0);
      if LeastFrequent(s) == |rest| && j < |rest| { assert s[|rest|].frequency < rest[LeastFrequent(rest)].frequency; }
      if j == |rest| && LeastFrequent(rest) < |rest| {
        assert LeastFrequent(s) == LeastFrequent(rest) || LeastFrequent(s) == j;
      }
    }
  }

  lemma PurgedRun(c: Config, ops: seq<Op>, now: int)
    ensures
      var s := Purge(c.policy, Run(c, [], ops), now);
      ByLastUse(c.policy, Log(c, ops), s) && (c.policy == LFU ==> CountsHits(Log(c, ops), s))
  {
    RunIsByLastUse(c, ops);
    RunKeepsSound(c, [], ops);
    if c.policy == TTL { ByLastUseUnexpired(TTL, Log(c, ops), Run(c, [], ops), now); }
    if c.policy == LFU { RunCountsHits(c, ops); }
  }

  /**
   * After every run, the slot a set at time `now` would evict is, of those left by the purge that comes first: under
   * LRU the one whose last set or hit is oldest; under TTL the one set longest ago; under LFU one with the fewest
   * hits since its last set and, among those, the one set longest ago.
   */
  lemma VictimMeaning(c: Config, ops: seq<Op>, now: int, j: nat)
    requires j < |Purge(c.policy, Run(c, [], ops), now)|
    ensures
      var s, log := Purge(c.policy, Run(c, [], ops), now), Log(c, ops);
      var v := Victim(c.policy, s);
      if c.policy == LFU then
        && HitsSinceSet(log, s[v].key) <= HitsSinceSet(log, s[j].key)
        && (HitsSinceSet(log, s[v].key) == HitsSinceSet(log, s[j].key) && j != v ==>
              LastUse(LFU, log, s[v].key) < LastUse(LFU, log, s[j].key))
      else j == v || LastUse(c.policy, log, s[v].key) < LastUse(c.policy, log, s[j].key)
  {
    var s, log := Purge(c.policy, Run(c, [], ops), now), Log(c, ops);
    var v := Victim(c.policy, s);
    PurgedRun(c, ops, now);
    if v < j { ByLastUseIndex(c.policy, log, s, v, j); }
    if c.policy == LFU {
      LeastFrequentIsLeast(s, j);
      assert s[v] in s && s[j] in s;
    }
  }
}
