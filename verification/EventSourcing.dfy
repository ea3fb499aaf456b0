/**
 * The in-memory event store and event-sourced aggregates: optimistic concurrency between writers, and
 * agreement of every aggregate with the replay of its stream. An aggregate's `apply` is any function.
 */
module EventSourcing {
  import opened Common

  type Payload(!new)

  /** What an aggregate folds its events into. */
  type Folded(!new)

  /** An event before the store has given it a place and a time. */
  datatype Draft = Draft(kind: string, payload: Payload)

  datatype DomainEvent = DomainEvent(streamId: string, kind: string, payload: Payload, version: int, occurredAt: int)

  datatype ConcurrencyError = ConcurrencyError(streamId: string, expected: int, actual: int)

  /** `names` lists the streams in the order they were first written. */
  datatype Store = Store(names: seq<string>, streams: map<string, seq<DomainEvent>>)

  const Empty := Store([], map[])

  /** The clock reading taken for the i-th event of one append. */
  type Clock = nat -> int

  function Always(time: int): Clock {
    _ => time
  }

  // ---- The store --------------------------------------------------------------

  function Stream(s: Store, id: string): seq<DomainEvent> {
    if id in s.streams then s.streams[id] else []
  }

  function Stamped(id: string, d: Draft, version: int, time: int): DomainEvent {
    DomainEvent(id, d.kind, d.payload, version, time)
  }

  function Stamp(id: string, drafts: seq<Draft>, base: nat, clock: Clock): (r: seq<DomainEvent>)
    ensures |r| == |drafts|
  {
    seq(|drafts|, i requires 0 <= i < |drafts| => Stamped(id, drafts[i], base + i + 1, clock(i)))
  }

  lemma StampAt(id: string, drafts: seq<Draft>, base: nat, clock: Clock, i: nat)
    requires i < |drafts|
    ensures Stamp(id, drafts, base, clock)[i] == Stamped(id, drafts[i], base + i + 1, clock(i))
  {
  }

  lemma StampOne(id: string, d: Draft, base: nat, clock: Clock)
    ensures Stamp(id, [d], base, clock) == [Stamped(id, d, base + 1, clock(0))]
  {
  }

  function Append(s: Store, id: string, drafts: seq<Draft>, expected: Option<int>, clock: Clock):
    Result<Store, ConcurrencyError>
  {
    var existing := Stream(s, id);
    if expected.Some? && |existing| != expected.value then Err(ConcurrencyError(id, expected.value, |existing|))
    else Ok(Extended(s, id, Stamp(id, drafts, |existing|, clock)))
  }

  function Extended(s: Store, id: string, events: seq<DomainEvent>): Store {
    Store(if id in s.streams then s.names else s.names + [id], s.streams[id := Stream(s, id) + events])
  }

  /** A stream's events carry its name and the versions 1, 2, 3, ... */
  ghost predicate History(id: string, events: seq<DomainEvent>) {
    forall i :: 0 <= i < |events| ==> events[i].streamId == id && events[i].version == i + 1
  }

  ghost predicate WellFormed(s: Store) {
    && NoDuplicates(s.names)
    && Lists(s.names, s.streams.Keys)
    && (forall id :: id in s.streams ==> History(id, s.streams[id]))
  }

  lemma AppendKeepsWellFormed(s: Store, id: string, drafts: seq<Draft>, expected: Option<int>, clock: Clock)
    requires WellFormed(s) && Append(s, id, drafts, expected, clock).Ok?
    ensures WellFormed(Append(s, id, drafts, expected, clock).value)
  {
    StampHistory(id, Stream(s, id), drafts, clock);
  }

  // ---- The aggregate ----------------------------------------------------------

  /** What a subclass supplies: the factory's initial state, and `apply`. */
  datatype Behaviour = Behaviour(init: string -> Folded, apply: (Folded, DomainEvent) -> Folded)

  datatype Snapshot = Snapshot(id: string, state: Folded, version: int, pending: seq<Draft>)

  function Fold(b: Behaviour, id: string, events: seq<DomainEvent>): Folded {
    if events == [] then b.init(id) else b.apply(Fold(b, id, events[..|events| - 1]), events[|events| - 1])
  }

  lemma FoldAppend(b: Behaviour, id: string, events: seq<DomainEvent>, e: DomainEvent)
    ensures Fold(b, id, events + [e]) == b.apply(Fold(b, id, events), e)
  {
    assert (events + [e])[..|events|] == events;
  }

  function Fresh(b: Behaviour, id: string): Snapshot {
    Snapshot(id, b.init(id), 0, [])
  }

  function Replay(b: Behaviour, id: string, events: seq<DomainEvent>): Snapshot {
    Snapshot(id, Fold(b, id, events), if events == [] then 0 else events[|events| - 1].version, [])
  }

  /** Whatever events are replayed, each is applied in turn and leaves its version behind. */
  lemma ReplayOneMore(b: Behaviour, id: string, events: seq<DomainEvent>, e: DomainEvent)
    ensures
      var before, after := Replay(b, id, events), Replay(b, id, events + [e]);
      after == before.(state := b.apply(before.state, e), version := e.version)
  {
    FoldAppend(b, id, events, e);
  }

  function Raise(b: Behaviour, a: Snapshot, d: Draft, time: int): Snapshot {
    a.(state := b.apply(a.state, Stamped(a.id, d, a.version + |a.pending| + 1, time)), pending := a.pending + [d])
  }

  function Commit(a: Snapshot): Snapshot {
    a.(version := a.version + |a.pending|, pending := [])
  }

  // ---- Competing writers ------------------------------------------------------

  datatype System = System(store: Store, writers: map<nat, Snapshot>)

  datatype Event =
    | New(w: nat, id: string)
    | Load(w: nat, id: string)
    | RaiseOn(w: nat, draft: Draft, time: int)
    | Save(w: nat, clock: Clock)
    | AppendTo(id: string, drafts: seq<Draft>, expected: Option<int>, clock: Clock)

  const Initial := System(Empty, map[])

  /** Append what is pending, expecting the version the aggregate is at; commit unless that is refused. */
  function DoSave(s: System, w: nat, clock: Clock): System
    requires w in s.writers
  {
    var a := s.writers[w];
    match Append(s.store, a.id, a.pending, Some(a.version), clock)
    case Ok(store) => System(store, s.writers[w := Commit(a)])
    case Err(_) => s
  }

  function Step(b: Behaviour, s: System, e: Event): System {
    match e
    case New(w, id) => s.(writers := s.writers[w := Fresh(b, id)])
    case Load(w, id) => s.(writers := s.writers[w := Replay(b, id, Stream(s.store, id))])
    case RaiseOn(w, d, time) =>
      if w in s.writers then s.(writers := s.writers[w := Raise(b, s.writers[w], d, time)]) else s
    case Save(w, clock) => if w in s.writers then DoSave(s, w, clock) else s
    case AppendTo(id, drafts, expected, clock) =>
      match Append(s.store, id, drafts, expected, clock)
      case Ok(store) => s.(store := store)
      case Err(_) => s
  }

  function Run(b: Behaviour, s: System, events: seq<Event>): System {
    if events == [] then s else Step(b, Run(b, s, events[..|events| - 1]), events[|events| - 1])
  }

  lemma RunAppend(b: Behaviour, s: System, events: seq<Event>, e: Event)
    ensures Run(b, s, events + [e]) == Step(b, Run(b, s, events), e)
  {
    assert (events + [e])[..|events|] == events;
  }

  function After(b: Behaviour, id: string, h: seq<DomainEvent>, d: Draft, time: int): Folded {
    b.apply(Fold(b, id, h), Stamped(id, d, |h| + 1, time))
  }

  /** Applying an event after any history gives the same state whenever it is said to have occurred. */
  ghost predicate Replayable(b: Behaviour) {
    forall id, h, d, t, u :: History(id, h) ==> After(b, id, h, d, t) == After(b, id, h, d, u)
  }

  ghost predicate IgnoresTime(b: Behaviour) {
    forall state, e: DomainEvent, t :: b.apply(state, e) == b.apply(state, e.(occurredAt := t))
  }

  lemma IgnoringTimeIsEnough(b: Behaviour)
    requires IgnoresTime(b)
    ensures Replayable(b)
  {
    forall id, h, d, t, u | History(id, h) ensures After(b, id, h, d, t) == After(b, id, h, d, u) {
      assert Stamped(id, d, |h| + 1, t).(occurredAt := u) == Stamped(id, d, |h| + 1, u);
    }
  }

  lemma StampExtend(id: string, drafts: seq<Draft>, d: Draft, base: nat, clock: Clock)
    ensures Stamp(id, drafts + [d], base, clock)
         == Stamp(id, drafts, base, clock) + [Stamped(id, d, base + |drafts| + 1, clock(|drafts|))]
  {
  }

  lemma StampHistory(id: string, h: seq<DomainEvent>, drafts: seq<Draft>, clock: Clock)
    requires History(id, h)
    ensures History(id, h + Stamp(id, drafts, |h|, clock))
  {
    var stamped := Stamp(id, drafts, |h|, clock);
    forall i | |h| <= i < |h| + |drafts|
      ensures (h + stamped)[i].streamId == id && (h + stamped)[i].version == i + 1
    {
      StampAt(id, drafts, |h|, clock, i - |h|);
    }
  }

  lemma {:induction false} FoldWhenever(b: Behaviour, id: string, h: seq<DomainEvent>, drafts: seq<Draft>,
                                        c1: Clock, c2: Clock)
    requires Replayable(b) && History(id, h)
    ensures Fold(b, id, h + Stamp(id, drafts, |h|, c1)) == Fold(b, id, h + Stamp(id, drafts, |h|, c2))
  {
    if drafts == [] {
      assert Stamp(id, drafts, |h|, c1) == Stamp(id, drafts, |h|, c2);
    } else {
      var rest, d := drafts[..|drafts| - 1], drafts[|drafts| - 1];
      FoldWhenever(b, id, h, rest, c1, c2);
      StampHistory(id, h, rest, c1);
      FoldExtend(b, id, h, rest, d, c1);
      FoldExtend(b, id, h, rest, d, c2);
      var h1 := h + Stamp(id, rest, |h|, c1);
      assert After(b, id, h1, d, c1(|rest|)) == After(b, id, h1, d, c2(|rest|));
      assert drafts == rest + [d];
    }
  }

  lemma FoldExtend(b: Behaviour, id: string, h: seq<DomainEvent>, drafts: seq<Draft>, d: Draft, clock: Clock)
    ensures Fold(b, id, h + Stamp(id, drafts + [d], |h|, clock))
         == b.apply(Fold(b, id, h + Stamp(id, drafts, |h|, clock)), Stamped(id, d, |h| + |drafts| + 1, clock(|drafts|)))
  {
    var e := Stamped(id, d, |h| + |drafts| + 1, clock(|drafts|));
    StampExtend(id, drafts, d, |h|, clock);
    assert h + Stamp(id, drafts + [d], |h|, clock) == (h + Stamp(id, drafts, |h|, clock)) + [e];
    FoldAppend(b, id, h + Stamp(id, drafts, |h|, clock), e);
  }

  /** The aggregate is its stream up to its version, followed by its pending events. */
  ghost predicate InStep(b: Behaviour, s: Store, a: Snapshot) {
    var stream := Stream(s, a.id);
    && 0 <= a.version <= |stream|
    && a.state == Fold(b, a.id, stream[..a.version] + Stamp(a.id, a.pending, a.version, Always(0)))
  }

  ghost predicate Inv(b: Behaviour, s: System) {
    WellFormed(s.store) && forall w :: w in s.writers ==> InStep(b, s.store, s.writers[w])
  }

  /** Every stream of `s` is a prefix of the same stream of `s'`. */
  ghost predicate Grows(s: Store, s': Store) {
    forall id :: Stream(s, id) <= Stream(s', id)
  }

  lemma AppendGrows(s: Store, id: string, drafts: seq<Draft>, expected: Option<int>, clock: Clock)
    requires Append(s, id, drafts, expected, clock).Ok?
    ensures Grows(s, Append(s, id, drafts, expected, clock).value)
  {
  }

  lemma StaysInStep(b: Behaviour, s: Store, s': Store, a: Snapshot)
    requires InStep(b, s, a) && Grows(s, s')
    ensures InStep(b, s', a)
  {
    assert Stream(s, a.id) <= Stream(s', a.id);
    assert Stream(s', a.id)[..a.version] == Stream(s, a.id)[..a.version];
  }

  lemma LoadedInStep(b: Behaviour, s: Store, id: string)
    requires WellFormed(s)
    ensures InStep(b, s, Replay(b, id, Stream(s, id))) && InStep(b, s, Fresh(b, id))
    ensures Replay(b, id, Stream(s, id)).version == |Stream(s, id)|
  {
    var stream, zero := Stream(s, id), Always(0);
    assert stream[..|stream|] + Stamp(id, [], |stream|, zero) == stream;
    assert stream[..0] + Stamp(id, [], 0, zero) == [];
  }

  lemma RaiseKeepsInStep(b: Behaviour, s: Store, a: Snapshot, d: Draft, time: int)
    requires Replayable(b) && WellFormed(s) && InStep(b, s, a)
    ensures InStep(b, s, Raise(b, a, d, time))
  {
    var h := Stream(s, a.id)[..a.version];
    StampHistory(a.id, h, a.pending, Always(0));
    FoldExtend(b, a.id, h, a.pending, d, Always(0));
    var h' := h + Stamp(a.id, a.pending, |h|, Always(0));
    assert After(b, a.id, h', d, time) == After(b, a.id, h', d, 0);
  }

  /** A save that is not refused leaves the aggregate equal to the replay of its whole stream, in state and version. */
  lemma SavedEqualsReplay(b: Behaviour, s: System, w: nat, clock: Clock)
    requires Replayable(b) && Inv(b, s) && w in s.writers
    requires Append(s.store, s.writers[w].id, s.writers[w].pending, Some(s.writers[w].version), clock).Ok?
    ensures
      var a, s' := s.writers[w], DoSave(s, w, clock);
      && w in s'.writers && s'.writers[w] == Replay(b, a.id, Stream(s'.store, a.id))
      && Stream(s'.store, a.id) == Stream(s.store, a.id) + Stamp(a.id, a.pending, a.version, clock)
  {
    var a, s' := s.writers[w], DoSave(s, w, clock);
    var stream := Stream(s.store, a.id);
    assert a.version == |stream| && stream[..a.version] == stream;
    FoldWhenever(b, a.id, stream, a.pending, Always(0), clock);
    AppendKeepsWellFormed(s.store, a.id, a.pending, Some(a.version), clock);
    LoadedInStep(b, s'.store, a.id);
  }

  lemma SaveKeepsInv(b: Behaviour, s: System, w: nat, clock: Clock)
    requires Replayable(b) && Inv(b, s) && w in s.writers
    ensures Inv(b, DoSave(s, w, clock))
  {
    var a, s' := s.writers[w], DoSave(s, w, clock);
    if Append(s.store, a.id, a.pending, Some(a.version), clock).Ok? {
      AppendKeepsWellFormed(s.store, a.id, a.pending, Some(a.version), clock);
      AppendGrows(s.store, a.id, a.pending, Some(a.version), clock);
      SavedEqualsReplay(b, s, w, clock);
      LoadedInStep(b, s'.store, a.id);
      forall v | v in s'.writers ensures InStep(b, s'.store, s'.writers[v]) {
        if v != w { StaysInStep(b, s.store, s'.store, s.writers[v]); }
      }
    }
  }

  lemma AppendKeepsInv(b: Behaviour, s: System, id: string, drafts: seq<Draft>, expected: Option<int>, clock: Clock)
    requires Inv(b, s) && Append(s.store, id, drafts, expected, clock).Ok?
    ensures Inv(b, s.(store := Append(s.store, id, drafts, expected, clock).value))
  {
    var store := Append(s.store, id, drafts, expected, clock).value;
    AppendKeepsWellFormed(s.store, id, drafts, expected, clock);
    AppendGrows(s.store, id, drafts, expected, clock);
    forall w | w in s.writers ensures InStep(b, store, s.writers[w]) {
      StaysInStep(b, s.store, store, s.writers[w]);
    }
  }

  lemma StepKeepsInv(b: Behaviour, s: System, e: Event)
    requires Replayable(b) && Inv(b, s)
    ensures Inv(b, Step(b, s, e))
  {
    match e
    case New(w, id) => LoadedInStep(b, s.store, id);
    case Load(w, id) => LoadedInStep(b, s.store, id);
    case RaiseOn(w, d, time) => if w in s.writers { RaiseKeepsInStep(b, s.store, s.writers[w], d, time); }
    case Save(w, clock) => if w in s.writers { SaveKeepsInv(b, s, w, clock); }
    case AppendTo(id, drafts, expected, clock) =>
      if Append(s.store, id, drafts, expected, clock).Ok? { AppendKeepsInv(b, s, id, drafts, expected, clock); }
  }

  /** However writers interleave, every aggregate stays in step with its stream, and versions run 1, 2, 3, ... */
  lemma {:induction false} RunKeepsInv(b: Behaviour, s: System, events: seq<Event>)
    requires Replayable(b) && Inv(b, s)
    ensures Inv(b, Run(b, s, events))
  {
    if events != [] {
      RunKeepsInv(b, s, events[..|events| - 1]);
      StepKeepsInv(b, Run(b, s, events[..|events| - 1]), events[|events| - 1]);
    }
  }

  /** The aggregate has nothing pending and has seen its whole stream. */
  predicate UpToDate(s: Store, a: Snapshot) {
    a.pending == [] && a.version == |Stream(s, a.id)|
  }

  /** In `s`, each aggregate with nothing pending that has seen its whole stream equals the replay of that stream. */
  ghost predicate Faithful(b: Behaviour, s: System) {
    forall w :: w in s.writers && UpToDate(s.store, s.writers[w]) ==>
      s.writers[w] == Replay(b, s.writers[w].id, Stream(s.store, s.writers[w].id))
  }

  lemma InStepIsFaithful(b: Behaviour, s: System)
    requires Inv(b, s)
    ensures Faithful(b, s)
  {
    forall w | w in s.writers && UpToDate(s.store, s.writers[w])
      ensures s.writers[w] == Replay(b, s.writers[w].id, Stream(s.store, s.writers[w].id))
    {
      SeenAllIsReplay(b, s.store, s.writers[w]);
    }
  }

  lemma SeenAllIsReplay(b: Behaviour, s: Store, a: Snapshot)
    requires WellFormed(s) && InStep(b, s, a) && UpToDate(s, a)
    ensures a == Replay(b, a.id, Stream(s, a.id))
  {
    var stream := Stream(s, a.id);
    assert stream[..a.version] + Stamp(a.id, a.pending, a.version, Always(0)) == stream;
    LoadedInStep(b, s, a.id);
  }

  function DraftsOf(h: seq<DomainEvent>): seq<Draft> {
    seq(|h|, i requires 0 <= i < |h| => Draft(h[i].kind, h[i].payload))
  }

  function TimesOf(h: seq<DomainEvent>): Clock {
    (i: nat) => if i < |h| then h[i].occurredAt else 0
  }

  /** Write history `h`, load it, raise one event at `t` and save it at `u`. */
  function Witness(id: string, h: seq<DomainEvent>, d: Draft, t: int, u: int): seq<Event> {
    [AppendTo(id, DraftsOf(h), None, TimesOf(h)), Load(0, id), RaiseOn(0, d, t), Save(0, Always(u))]
  }

  lemma RunOfFour(b: Behaviour, s: System, e1: Event, e2: Event, e3: Event, e4: Event)
    ensures Run(b, s, [e1, e2, e3, e4]) == Step(b, Step(b, Step(b, Step(b, s, e1), e2), e3), e4)
  {
    RunAppend(b, s, [], e1);
    assert [] + [e1] == [e1];
    RunAppend(b, s, [e1], e2);
    assert [e1] + [e2] == [e1, e2];
    RunAppend(b, s, [e1, e2], e3);
    assert [e1, e2] + [e3] == [e1, e2, e3];
    RunAppend(b, s, [e1, e2, e3], e4);
    assert [e1, e2, e3] + [e4] == [e1, e2, e3, e4];
  }

  lemma StampOwn(id: string, h: seq<DomainEvent>)
    requires History(id, h)
    ensures Stamp(id, DraftsOf(h), 0, TimesOf(h)) == h
  {
    var stamped := Stamp(id, DraftsOf(h), 0, TimesOf(h));
    forall i | 0 <= i < |h| ensures stamped[i] == h[i] {
      StampAt(id, DraftsOf(h), 0, TimesOf(h), i);
    }
  }

  /** A lone writer loads a history, raises one event and saves it. */
  lemma LoneSave(b: Behaviour, s: Store, id: string, h: seq<DomainEvent>, d: Draft, t: int, clock: Clock)
    requires Stream(s, id) == h && History(id, h)
    ensures
      var s2 := Step(b, Step(b, System(s, map[]), Load(0, id)), RaiseOn(0, d, t));
      var s3 := Step(b, s2, Save(0, clock));
      && Stream(s3.store, id) == h + [Stamped(id, d, |h| + 1, clock(0))]
      && 0 in s3.writers && s3.writers[0] == Snapshot(id, After(b, id, h, d, t), |h| + 1, [])
  {
    var s1 := Step(b, System(s, map[]), Load(0, id));
    assert s1.writers[0] == Snapshot(id, Fold(b, id, h), |h|, []);
    var s2 := Step(b, s1, RaiseOn(0, d, t));
    assert s2.writers[0] == Snapshot(id, After(b, id, h, d, t), |h|, [d]);
    StampOne(id, d, |h|, clock);
  }

  lemma FirstWrite(b: Behaviour, id: string, h: seq<DomainEvent>)
    requires History(id, h)
    ensures Step(b, Initial, AppendTo(id, DraftsOf(h), None, TimesOf(h))) == System(Extended(Empty, id, h), map[])
    ensures Stream(Extended(Empty, id, h), id) == h
  {
    StampOwn(id, h);
  }

  lemma WitnessRun(b: Behaviour, id: string, h: seq<DomainEvent>, d: Draft, t: int, u: int)
    requires History(id, h)
    ensures
      var s := Run(b, Initial, Witness(id, h, d, t, u));
      && Stream(s.store, id) == h + [Stamped(id, d, |h| + 1, u)]
      && 0 in s.writers
      && s.writers[0] == Snapshot(id, After(b, id, h, d, t), |h| + 1, [])
  {
    RunOfFour(b, Initial,
              AppendTo(id, DraftsOf(h), None, TimesOf(h)), Load(0, id), RaiseOn(0, d, t), Save(0, Always(u)));
    FirstWrite(b, id, h);
    LoneSave(b, Extended(Empty, id, h), id, h, d, t, Always(u));
  }

  ghost predicate AlwaysFaithful(b: Behaviour) {
    forall events :: Faithful(b, Run(b, Initial, events))
  }

  lemma FaithfulNeedsReplayable(b: Behaviour)
    requires AlwaysFaithful(b)
    ensures Replayable(b)
  {
    forall id, h, d, t, u | History(id, h) ensures After(b, id, h, d, t) == After(b, id, h, d, u) {
      WitnessRun(b, id, h, d, t, u);
      var s := Run(b, Initial, Witness(id, h, d, t, u));
      assert Faithful(b, s) && s.writers[0].version == |Stream(s.store, id)|;
      assert s.writers[0] == Replay(b, id, Stream(s.store, id));
      FoldAppend(b, id, h, Stamped(id, d, |h| + 1, u));
    }
  }

  /** Aggregates agree with replay in every run exactly when no event's effect depends on when it occurred. */
  lemma FaithfulExactly(b: Behaviour)
    ensures AlwaysFaithful(b) <==> Replayable(b)
  {
    if AlwaysFaithful(b) { FaithfulNeedsReplayable(b); }
    if Replayable(b) {
      forall events ensures Faithful(b, Run(b, Initial, events)) {
        RunKeepsInv(b, Initial, events);
        InStepIsFaithful(b, Run(b, Initial, events));
      }
    }
  }

  /** An aggregate whose state is whether its last event occurred at time 0. */
  function TimeReader(x: Folded, y: Folded): Behaviour {
    Behaviour(_ => x, (_, e: DomainEvent) => if e.occurredAt == 0 then x else y)
  }

  /** Raised at time 0 and stored at time 1, its event is folded into one state and replayed into another. */
  lemma TimeReaderDisagrees(x: Folded, y: Folded, d: Draft)
    requires x != y
    ensures
      var b := TimeReader(x, y);
      var s := Run(b, Initial, Witness("s", [], d, 0, 1));
      && 0 in s.writers && s.writers[0] == Snapshot("s", x, 1, [])
      && Replay(b, "s", Stream(s.store, "s")) == Snapshot("s", y, 1, [])
  {
    var b := TimeReader(x, y);
    WitnessRun(b, "s", [], d, 0, 1);
    FoldAppend(b, "s", [], Stamped("s", d, 1, 1));
  }

  // ---- Who may write ----------------------------------------------------------

  /** A save is refused exactly when the stream has moved past the aggregate's version, and then changes nothing. */
  lemma SaveRefusedExactly(b: Behaviour, s: System, w: nat, clock: Clock)
    requires Inv(b, s) && w in s.writers
    ensures
      var a := s.writers[w];
      var r := Append(s.store, a.id, a.pending, Some(a.version), clock);
      && (r.Err? <==> a.version < |Stream(s.store, a.id)|)
      && (r.Err? ==> r.error == ConcurrencyError(a.id, a.version, |Stream(s.store, a.id)|) && DoSave(s, w, clock) == s)
  {
  }

  lemma GrowsTransitive(s: Store, s': Store, s'': Store)
    requires Grows(s, s') && Grows(s', s'')
    ensures Grows(s, s'')
  {
    forall id ensures Stream(s, id) <= Stream(s'', id) {
      assert Stream(s, id) <= Stream(s', id) && Stream(s', id) <= Stream(s'', id);
    }
  }

  /** Nothing ever rewrites or shortens a stream. */
  lemma {:induction false} RunGrows(b: Behaviour, s: System, events: seq<Event>)
    ensures Grows(s.store, Run(b, s, events).store)
  {
    if events != [] {
      var t, e := Run(b, s, events[..|events| - 1]), events[|events| - 1];
      RunGrows(b, s, events[..|events| - 1]);
      if e.Save? && e.w in t.writers {
        var a := t.writers[e.w];
        if Append(t.store, a.id, a.pending, Some(a.version), e.clock).Ok? {
          AppendGrows(t.store, a.id, a.pending, Some(a.version), e.clock);
        }
      } else if e.AppendTo? && Append(t.store, e.id, e.drafts, e.expected, e.clock).Ok? {
        AppendGrows(t.store, e.id, e.drafts, e.expected, e.clock);
      }
      GrowsTransitive(s.store, t.store, Run(b, s, events).store);
    }
  }

  /**
   * Once an append expecting version `n` has stored something, every later append to that stream that
   * expects `n` is refused, whatever happens in between: of the writers at one version, one wins.
   */
  lemma OneWinnerPerVersion(b: Behaviour, s: System, id: string, n: int, won: seq<Draft>, events: seq<Event>,
                            late: seq<Draft>, clock: Clock, lateClock: Clock)
    requires won != [] && Append(s.store, id, won, Some(n), clock).Ok?
    ensures
      var s' := Run(b, s.(store := Append(s.store, id, won, Some(n), clock).value), events);
      && |Stream(s'.store, id)| > n
      && Append(s'.store, id, late, Some(n), lateClock) == Err(ConcurrencyError(id, n, |Stream(s'.store, id)|))
  {
    var after := s.(store := Append(s.store, id, won, Some(n), clock).value);
    RunGrows(b, after, events);
    assert Stream(after.store, id) <= Stream(Run(b, after, events).store, id);
  }

  /** Saving without an expected version is right exactly when nobody wrote since the aggregate was loaded. */
  lemma UncheckedSaveExactly(b: Behaviour, s: Store, a: Snapshot, clock: Clock)
    requires Replayable(b) && WellFormed(s) && InStep(b, s, a)
    ensures
      var r := Append(s, a.id, a.pending, None, clock);
      r.Ok? && (Commit(a) == Replay(b, a.id, Stream(r.value, a.id)) <==> a.version == |Stream(s, a.id)|)
  {
    var r := Append(s, a.id, a.pending, None, clock);
    AppendKeepsWellFormed(s, a.id, a.pending, None, clock);
    LoadedInStep(b, r.value, a.id);
    if a.version == |Stream(s, a.id)| { CurrentSaveMatches(b, s, a, clock); }
  }

  lemma CurrentSaveMatches(b: Behaviour, s: Store, a: Snapshot, clock: Clock)
    requires Replayable(b) && WellFormed(s) && InStep(b, s, a) && a.version == |Stream(s, a.id)|
    ensures
      var r := Append(s, a.id, a.pending, None, clock);
      r.Ok? && Commit(a) == Replay(b, a.id, Stream(r.value, a.id))
  {
    var system := System(s, map[0 := a]);
    SavedEqualsReplay(b, system, 0, clock);
    assert DoSave(system, 0, clock).store == Append(s, a.id, a.pending, None, clock).value;
  }

  /** Loaded empty, overtaken by another writer, and saved without an expected version. */
  lemma UncheckedSaveCanDisagree(b: Behaviour, d: Draft, clock: Clock)
    ensures
      var overtaken := Append(Empty, "s", [d], None, clock).value;
      var a := Raise(b, Fresh(b, "s"), d, clock(0));
      var saved := Append(overtaken, "s", a.pending, None, clock).value;
      InStep(b, overtaken, Fresh(b, "s")) && Commit(a).version == 1 && Replay(b, "s", Stream(saved, "s")).version == 2
  {
    var overtaken := Append(Empty, "s", [d], None, clock).value;
    var a := Raise(b, Fresh(b, "s"), d, clock(0));
    AppendKeepsWellFormed(Empty, "s", [d], None, clock);
    AppendKeepsWellFormed(overtaken, "s", a.pending, None, clock);
    LoadedInStep(b, overtaken, "s");
    LoadedInStep(b, Append(overtaken, "s", a.pending, None, clock).value, "s");
  }

  /** One event raised and stored, one more raised, and only then the commit. */
  lemma CommitCanLoseAnEvent(b: Behaviour, d: Draft, clock: Clock)
    ensures
      var a := Raise(b, Fresh(b, "s"), d, clock(0));
      var stored := Append(Empty, "s", a.pending, Some(0), clock);
      && stored.Ok?
      && Commit(Raise(b, a, d, clock(1))).version == 2
      && Replay(b, "s", Stream(stored.value, "s")).version == 1
  {
    AppendKeepsWellFormed(Empty, "s", [d], Some(0), clock);
    LoadedInStep(b, Append(Empty, "s", [d], Some(0), clock).value, "s");
  }

  /** An event raised between the append of the pending events and their commit is lost. */
  lemma CommitAfterMoreRaised(b: Behaviour, s: Store, a: Snapshot, more: seq<Draft>, state: Folded, clock: Clock)
    requires Replayable(b) && WellFormed(s) && InStep(b, s, a) && a.version == |Stream(s, a.id)|
    requires more == [] ==> state == a.state
    ensures
      var stored := Append(s, a.id, a.pending, Some(a.version), clock);
      var raised := a.(state := state, pending := a.pending + more);
      stored.Ok? && (Commit(raised) == Replay(b, a.id, Stream(stored.value, a.id)) <==> more == [])
  {
    var stored := Append(s, a.id, a.pending, Some(a.version), clock);
    AppendKeepsWellFormed(s, a.id, a.pending, Some(a.version), clock);
    LoadedInStep(b, stored.value, a.id);
    if more == [] {
      assert a.pending + more == a.pending;
      SavedEqualsReplay(b, System(s, map[0 := a]), 0, clock);
    }
  }
}
