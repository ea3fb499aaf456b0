/** Reading every stream at once, in order of occurrence. */
module EventOrder {
  import opened Common
  import opened EventSourcing

  // ---- The stable sort --------------------------------------------------------

  function Insert(sorted: seq<DomainEvent>, e: DomainEvent): seq<DomainEvent> {
    if sorted == [] || sorted[|sorted| - 1].occurredAt <= e.occurredAt then sorted + [e]
    else Insert(sorted[..|sorted| - 1], e) + [sorted[|sorted| - 1]]
  }

  function SortByTime(events: seq<DomainEvent>): seq<DomainEvent> {
    if events == [] then [] else Insert(SortByTime(events[..|events| - 1]), events[|events| - 1])
  }

  /** The streams one after another, in the order they were first written. */
  function Flat(s: Store, names: seq<string>): seq<DomainEvent> {
    if names == [] then [] else Flat(s, names[..|names| - 1]) + Stream(s, names[|names| - 1])
  }

  function AllEvents(s: Store): seq<DomainEvent> {
    SortByTime(Flat(s, s.names))
  }

  ghost predicate Sorted(events: seq<DomainEvent>) {
    forall i, j :: 0 <= i < j < |events| ==> events[i].occurredAt <= events[j].occurredAt
  }

  /** Those of `events` that `keep` picks, in order. */
  ghost function Filter(events: seq<DomainEvent>, keep: DomainEvent -> bool): (r: seq<DomainEvent>)
    ensures forall e :: e in r <==> e in events && keep(e)
  {
    if events == [] then []
    else
      var rest, last := Filter(events[..|events| - 1], keep), events[|events| - 1];
      assert events == events[..|events| - 1] + [last];
      if keep(last) then rest + [last] else rest
  }

  ghost function Of(id: string): DomainEvent -> bool {
    (e: DomainEvent) => e.streamId == id
  }

  ghost function At(time: int): DomainEvent -> bool {
    (e: DomainEvent) => e.occurredAt == time
  }

  /** In order of time, with events of the same time in the order they had. */
  ghost predicate IsStableSortOf(r: seq<DomainEvent>, events: seq<DomainEvent>) {
    Sorted(r) && SameAtEachTime(r, events)
  }

  lemma FilterAppend(events: seq<DomainEvent>, e: DomainEvent, keep: DomainEvent -> bool)
    ensures Filter(events + [e], keep) == if keep(e) then Filter(events, keep) + [e] else Filter(events, keep)
  {
    assert (events + [e])[..|events|] == events;
  }

  lemma {:induction false} FilterConcat(a: seq<DomainEvent>, b: seq<DomainEvent>, keep: DomainEvent -> bool)
    ensures Filter(a + b, keep) == Filter(a, keep) + Filter(b, keep)
  {
    if b == [] {
      assert a + b == a;
    } else {
      assert (a + b)[..|a + b| - 1] == a + b[..|b| - 1];
      FilterConcat(a, b[..|b| - 1], keep);
    }
  }

  lemma {:induction false} InsertMembers(sorted: seq<DomainEvent>, e: DomainEvent)
    ensures forall x :: x in Insert(sorted, e) <==> x in sorted || x == e
  {
    if sorted != [] && sorted[|sorted| - 1].occurredAt > e.occurredAt {
      InsertMembers(sorted[..|sorted| - 1], e);
      assert sorted == sorted[..|sorted| - 1] + [sorted[|sorted| - 1]];
    }
  }

  lemma {:induction false} InsertSorted(sorted: seq<DomainEvent>, e: DomainEvent)
    requires Sorted(sorted)
    ensures Sorted(Insert(sorted, e))
  {
    if sorted != [] && sorted[|sorted| - 1].occurredAt > e.occurredAt {
      var rest := sorted[..|sorted| - 1];
      InsertSorted(rest, e);
      InsertMembers(rest, e);
      var r := Insert(rest, e);
      forall i | 0 <= i < |r| ensures r[i].occurredAt <= sorted[|sorted| - 1].occurredAt {
        assert r[i] in r;
      }
    }
  }

  /** Inserting puts `e` after every event `keep` picks, if those are no later. */
  lemma {:induction false} FilterInsert(sorted: seq<DomainEvent>, e: DomainEvent, keep: DomainEvent -> bool)
    requires keep(e) ==> forall x :: x in sorted && keep(x) ==> x.occurredAt <= e.occurredAt
    ensures Filter(Insert(sorted, e), keep) == if keep(e) then Filter(sorted, keep) + [e] else Filter(sorted, keep)
  {
    if sorted == [] || sorted[|sorted| - 1].occurredAt <= e.occurredAt {
      FilterAppend(sorted, e, keep);
    } else {
      var rest, last := sorted[..|sorted| - 1], sorted[|sorted| - 1];
      assert sorted == rest + [last];
      FilterInsert(rest, e, keep);
      FilterAppend(rest, last, keep);
      FilterAppend(Insert(rest, e), last, keep);
    }
  }

  lemma {:induction false} SortIsSorted(events: seq<DomainEvent>)
    ensures Sorted(SortByTime(events))
  {
    if events != [] {
      SortIsSorted(events[..|events| - 1]);
      InsertSorted(SortByTime(events[..|events| - 1]), events[|events| - 1]);
    }
  }

  /** Sorting leaves the picked events in order, if they were in order of time. */
  lemma {:induction false} FilterSort(events: seq<DomainEvent>, keep: DomainEvent -> bool)
    requires Sorted(Filter(events, keep))
    ensures Filter(SortByTime(events), keep) == Filter(events, keep)
  {
    if events != [] {
      var rest, last := events[..|events| - 1], events[|events| - 1];
      assert events == rest + [last];
      FilterAppend(rest, last, keep);
      assert Filter(events, keep)[..|Filter(rest, keep)|] == Filter(rest, keep);
      FilterSort(rest, keep);
      forall x | keep(last) && x in SortByTime(rest) && keep(x) ensures x.occurredAt <= last.occurredAt {
        assert x in Filter(rest, keep);
      }
      FilterInsert(SortByTime(rest), last, keep);
    }
  }

  /** The result is the one stable sort there is. */
  lemma StableSortExactly(events: seq<DomainEvent>, r: seq<DomainEvent>)
    ensures IsStableSortOf(r, events) <==> r == SortByTime(events)
  {
    SortIsSorted(events);
    forall t ensures Filter(SortByTime(events), At(t)) == Filter(events, At(t)) {
      forall i | 0 <= i < |Filter(events, At(t))| ensures Filter(events, At(t))[i].occurredAt == t {
        assert Filter(events, At(t))[i] in Filter(events, At(t));
      }
      FilterSort(events, At(t));
    }
    if IsStableSortOf(r, events) {
      forall t ensures Filter(r, At(t)) == Filter(SortByTime(events), At(t)) {
        assert Filter(r, At(t)) == Filter(events, At(t));
      }
      SortedAreEqual(r, SortByTime(events));
    }
  }

  ghost predicate SameAtEachTime(a: seq<DomainEvent>, b: seq<DomainEvent>) {
    forall t :: Filter(a, At(t)) == Filter(b, At(t))
  }

  lemma SameMembers(a: seq<DomainEvent>, b: seq<DomainEvent>, e: DomainEvent)
    requires SameAtEachTime(a, b) && e in a
    ensures e in b
  {
    assert e in Filter(a, At(e.occurredAt));
    assert Filter(a, At(e.occurredAt)) == Filter(b, At(e.occurredAt));
  }

  lemma SnocInjective(p: seq<DomainEvent>, x: DomainEvent, q: seq<DomainEvent>, y: DomainEvent)
    requires p + [x] == q + [y]
    ensures p == q && x == y
  {
    assert |p + [x]| == |q + [y]|;
    assert (p + [x])[..|p|] == p && (q + [y])[..|p|] == q;
    assert (p + [x])[|p|] == x && (q + [y])[|p|] == y;
  }

  lemma SameLast(a: seq<DomainEvent>, x: DomainEvent, b: seq<DomainEvent>, y: DomainEvent)
    requires Sorted(a + [x]) && Sorted(b + [y]) && SameAtEachTime(a + [x], b + [y])
    ensures x == y && SameAtEachTime(a, b)
  {
    SameMembers(a + [x], b + [y], x);
    SameMembers(b + [y], a + [x], y);
    NoLater(a, x, y);
    NoLater(b, y, x);
    var last := At(x.occurredAt);
    assert Filter(a + [x], last) == Filter(b + [y], last);
    FilterAppend(a, x, last);
    FilterAppend(b, y, last);
    SnocInjective(Filter(a, last), x, Filter(b, last), y);
    forall t ensures Filter(a, At(t)) == Filter(b, At(t)) {
      assert Filter(a + [x], At(t)) == Filter(b + [y], At(t));
      FilterAppend(a, x, At(t));
      FilterAppend(b, x, At(t));
    }
  }

  /** Sorted sequences with the same events at every time are equal. */
  lemma {:induction false} SortedAreEqual(a: seq<DomainEvent>, b: seq<DomainEvent>)
    requires Sorted(a) && Sorted(b) && SameAtEachTime(a, b)
    ensures a == b
  {
    if a != [] && b != [] {
      var a', b' := a[..|a| - 1], b[..|b| - 1];
      assert a == a' + [a[|a| - 1]] && b == b' + [b[|b| - 1]];
      SameLast(a', a[|a| - 1], b', b[|b| - 1]);
      SortedAreEqual(a', b');
    } else if a != [] {
      SameMembers(a, b, a[0]);
    } else if b != [] {
      SameMembers(b, a, b[0]);
    }
  }

  lemma NoLater(events: seq<DomainEvent>, last: DomainEvent, e: DomainEvent)
    requires Sorted(events + [last]) && e in events + [last]
    ensures e.occurredAt <= last.occurredAt
  {
    var all := events + [last];
    var i :| 0 <= i < |all| && all[i] == e;
    assert all[|events|] == last;
  }

  // ---- One stream within the whole --------------------------------------------

  lemma {:induction false} FilterAllOrNone(events: seq<DomainEvent>, id: string, other: string)
    requires forall i :: 0 <= i < |events| ==> events[i].streamId == other
    ensures Filter(events, Of(id)) == if other == id then events else []
  {
    if events != [] {
      var rest, last := events[..|events| - 1], events[|events| - 1];
      assert events == rest + [last];
      FilterAllOrNone(rest, id, other);
      FilterAppend(rest, last, Of(id));
    }
  }

  lemma {:induction false} FlatHolds(s: Store, names: seq<string>, id: string)
    requires NoDuplicates(names) && forall id :: id in s.streams ==> History(id, s.streams[id])
    ensures Filter(Flat(s, names), Of(id)) == if id in names then Stream(s, id) else []
  {
    if names != [] {
      var rest, last := names[..|names| - 1], names[|names| - 1];
      assert names == rest + [last];
      FlatHolds(s, rest, id);
      FilterConcat(Flat(s, rest), Stream(s, last), Of(id));
      FilterAllOrNone(Stream(s, last), id, last);
    }
  }

  lemma {:induction false} FilterSorted(events: seq<DomainEvent>, keep: DomainEvent -> bool)
    requires Sorted(events)
    ensures Sorted(Filter(events, keep))
  {
    if events != [] {
      var rest, last := events[..|events| - 1], events[|events| - 1];
      assert events == rest + [last];
      FilterSorted(rest, keep);
      FilterAppend(rest, last, keep);
      forall e | e in Filter(rest, keep) ensures e.occurredAt <= last.occurredAt { NoLater(rest, last, e); }
    }
  }

  /** Among all events, those of one stream are that stream, in order, exactly when its own times never go back. */
  lemma StreamWithinAll(s: Store, id: string)
    requires WellFormed(s)
    ensures Filter(AllEvents(s), Of(id)) == Stream(s, id) <==> Sorted(Stream(s, id))
  {
    var flat := Flat(s, s.names);
    FlatHolds(s, s.names, id);
    if Sorted(Stream(s, id)) { FilterSort(flat, Of(id)); }
    SortIsSorted(flat);
    FilterSorted(AllEvents(s), Of(id));
  }

  // ---- Events of the same time ------------------------------------------------

  lemma StepKeepsWellFormed(b: Behaviour, s: System, e: Event)
    requires WellFormed(s.store)
    ensures WellFormed(Step(b, s, e).store)
  {
    if e.Save? && e.w in s.writers {
      var a := s.writers[e.w];
      if Append(s.store, a.id, a.pending, Some(a.version), e.clock).Ok? {
        AppendKeepsWellFormed(s.store, a.id, a.pending, Some(a.version), e.clock);
      }
    } else if e.AppendTo? && Append(s.store, e.id, e.drafts, e.expected, e.clock).Ok? {
      AppendKeepsWellFormed(s.store, e.id, e.drafts, e.expected, e.clock);
    }
  }

  lemma {:induction false} RunKeepsWellFormed(b: Behaviour, events: seq<Event>)
    ensures WellFormed(Run(b, Initial, events).store)
  {
    if events != [] {
      RunKeepsWellFormed(b, events[..|events| - 1]);
      StepKeepsWellFormed(b, Run(b, Initial, events[..|events| - 1]), events[|events| - 1]);
    }
  }

  /** The number of the event that first wrote to the stream; the number of events if none has. */
  function FirstWrite(b: Behaviour, events: seq<Event>, id: string): (n: nat)
    ensures n <= |events|
  {
    if events == [] then 0
    else
      var rest := events[..|events| - 1];
      var n := FirstWrite(b, rest, id);
      if n < |rest| then n else if id in Run(b, Initial, events).store.streams then |rest| else |events|
  }

  lemma {:induction false} WrittenExactly(b: Behaviour, events: seq<Event>, id: string)
    ensures FirstWrite(b, events, id) < |events| <==> id in Run(b, Initial, events).store.streams
  {
    if events != [] {
      var rest := events[..|events| - 1];
      WrittenExactly(b, rest, id);
      var added := StepNames(b, Run(b, Initial, rest), events[|rest|]);
    }
  }

  lemma FirstWriteAppend(b: Behaviour, events: seq<Event>, e: Event, id: string)
    requires id in Step(b, Run(b, Initial, events), e).store.streams
    ensures FirstWrite(b, events + [e], id) == FirstWrite(b, events, id)
    ensures FirstWrite(b, events, id) < |events| <==> id in Run(b, Initial, events).store.streams
  {
    RunAppend(b, Initial, events, e);
    WrittenExactly(b, events, id);
    assert (events + [e])[..|events|] == events;
  }

  ghost predicate ByFirstWrite(b: Behaviour, events: seq<Event>, names: seq<string>) {
    forall i, j :: 0 <= i < j < |names| ==> FirstWrite(b, events, names[i]) < FirstWrite(b, events, names[j])
  }

  /** A step adds at most one name, at the end, and only for a stream not written before. */
  lemma StepNames(b: Behaviour, s: System, e: Event) returns (added: seq<string>)
    ensures |added| <= 1 && Step(b, s, e).store.names == s.store.names + added
    ensures forall x :: x in added ==> x !in s.store.streams && x in Step(b, s, e).store.streams
    ensures s.store.streams.Keys <= Step(b, s, e).store.streams.Keys
  {
    var names, names' := s.store.names, Step(b, s, e).store.names;
    added := if names' == names then [] else names'[|names|..];
  }

  lemma StepKeepsFirstWrites(b: Behaviour, events: seq<Event>, e: Event)
    requires ByFirstWrite(b, events, Run(b, Initial, events).store.names)
    ensures ByFirstWrite(b, events + [e], Step(b, Run(b, Initial, events), e).store.names)
  {
    var s := Run(b, Initial, events);
    var names := s.store.names;
    var added := StepNames(b, s, e);
    RunKeepsWellFormed(b, events);
    forall i | 0 <= i < |names + added|
      ensures FirstWrite(b, events + [e], (names + added)[i]) == FirstWrite(b, events, (names + added)[i])
      ensures i < |names| ==> FirstWrite(b, events, names[i]) < |events|
      ensures i >= |names| ==> FirstWrite(b, events, (names + added)[i]) == |events|
    {
      var x := (names + added)[i];
      if i < |names| { assert x in names; } else { assert x in added; }
      FirstWriteAppend(b, events, e, x);
    }
  }

  /** In every run the streams are listed in the order in which they were first written. */
  lemma {:induction false} NamesByFirstWrite(b: Behaviour, events: seq<Event>)
    ensures ByFirstWrite(b, events, Run(b, Initial, events).store.names)
  {
    if events != [] {
      var rest := events[..|events| - 1];
      NamesByFirstWrite(b, rest);
      StepKeepsFirstWrites(b, rest, events[|rest|]);
      assert rest + [events[|rest|]] == events;
    }
  }

  /** Each named stream's events of time `t`, one stream after another. */
  ghost function AtOneTime(s: Store, names: seq<string>, t: int): seq<DomainEvent> {
    if names == [] then []
    else AtOneTime(s, names[..|names| - 1], t) + Filter(Stream(s, names[|names| - 1]), At(t))
  }

  lemma {:induction false} FlatAtOneTime(s: Store, names: seq<string>, t: int)
    ensures Filter(Flat(s, names), At(t)) == AtOneTime(s, names, t)
  {
    if names != [] {
      FlatAtOneTime(s, names[..|names| - 1], t);
      FilterConcat(Flat(s, names[..|names| - 1]), Stream(s, names[|names| - 1]), At(t));
    }
  }

  /**
   * In every run, events of the same time are read stream by stream, in the order in which the streams were first
   * written, and within a stream in its own order.
   */
  lemma TiesByFirstWrite(b: Behaviour, events: seq<Event>, t: int)
    ensures
      var s := Run(b, Initial, events).store;
      && Filter(AllEvents(s), At(t)) == AtOneTime(s, s.names, t)
      && ByFirstWrite(b, events, s.names) && Lists(s.names, s.streams.Keys)
  {
    var s := Run(b, Initial, events).store;
    RunKeepsWellFormed(b, events);
    NamesByFirstWrite(b, events);
    StableSortExactly(Flat(s, s.names), AllEvents(s));
    assert Filter(AllEvents(s), At(t)) == Filter(Flat(s, s.names), At(t));
    FlatAtOneTime(s, s.names, t);
  }

  // ---- Under a clock that does not go back ------------------------------------

  /** The clock readings of a step lie between two instants and do not decrease. */
  ghost predicate Reads(e: Event, from: int, to: int) {
    from <= to && match e
      case Save(_, clock) => Steady(clock, from, to)
      case AppendTo(_, _, _, clock) => Steady(clock, from, to)
      case _ => true
  }

  ghost predicate Steady(clock: Clock, from: int, to: int) {
    && (forall i: nat :: from <= clock(i) <= to)
    && (forall i: nat, j: nat :: i <= j ==> clock(i) <= clock(j))
  }

  ghost predicate Clocked(events: seq<Event>, instants: seq<int>) {
    |instants| == |events| + 1 && forall i :: 0 <= i < |events| ==> Reads(events[i], instants[i], instants[i + 1])
  }

  ghost predicate UpTo(s: Store, now: int) {
    forall id :: id in s.streams ==> SortedUpTo(s.streams[id], now)
  }

  ghost predicate SortedUpTo(events: seq<DomainEvent>, now: int) {
    Sorted(events) && forall i :: 0 <= i < |events| ==> events[i].occurredAt <= now
  }

  lemma AppendKeepsOrder(s: Store, id: string, drafts: seq<Draft>, expected: Option<int>, clock: Clock,
                         from: int, to: int)
    requires WellFormed(s) && UpTo(s, from) && Steady(clock, from, to) && from <= to
    requires Append(s, id, drafts, expected, clock).Ok?
    ensures
      var s' := Append(s, id, drafts, expected, clock).value;
      WellFormed(s') && UpTo(s', to)
  {
    AppendKeepsWellFormed(s, id, drafts, expected, clock);
    var stamped := Stamp(id, drafts, |Stream(s, id)|, clock);
    forall i | 0 <= i < |stamped| ensures stamped[i].occurredAt == clock(i) {
      StampAt(id, drafts, |Stream(s, id)|, clock, i);
    }
    assert Sorted(stamped);
    assert SortedUpTo(Stream(s, id) + stamped, to);
  }

  lemma StepKeepsOrder(b: Behaviour, s: System, e: Event, from: int, to: int)
    requires WellFormed(s.store) && UpTo(s.store, from) && Reads(e, from, to)
    ensures WellFormed(Step(b, s, e).store) && UpTo(Step(b, s, e).store, to)
  {
    if e.Save? && e.w in s.writers {
      var a := s.writers[e.w];
      if Append(s.store, a.id, a.pending, Some(a.version), e.clock).Ok? {
        AppendKeepsOrder(s.store, a.id, a.pending, Some(a.version), e.clock, from, to);
      }
    } else if e.AppendTo? && Append(s.store, e.id, e.drafts, e.expected, e.clock).Ok? {
      AppendKeepsOrder(s.store, e.id, e.drafts, e.expected, e.clock, from, to);
    }
  }

  lemma {:induction false} RunKeepsOrder(b: Behaviour, events: seq<Event>, instants: seq<int>)
    requires Clocked(events, instants)
    ensures
      var s := Run(b, Initial, events).store;
      WellFormed(s) && UpTo(s, instants[|events|])
  {
    if events != [] {
      var rest := events[..|events| - 1];
      assert Clocked(rest, instants[..|events|]);
      RunKeepsOrder(b, rest, instants[..|events|]);
      StepKeepsOrder(b, Run(b, Initial, rest), events[|rest|], instants[|rest|], instants[|rest| + 1]);
    }
  }

  /** In every run under a clock that does not go back, all events together show each stream in its own order. */
  lemma StreamsInOrder(b: Behaviour, events: seq<Event>, instants: seq<int>, id: string)
    requires Clocked(events, instants)
    ensures
      var s := Run(b, Initial, events).store;
      Filter(AllEvents(s), Of(id)) == Stream(s, id) && History(id, Stream(s, id))
  {
    RunKeepsOrder(b, events, instants);
    StreamWithinAll(Run(b, Initial, events).store, id);
  }
}
