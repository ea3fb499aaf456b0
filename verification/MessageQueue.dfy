/**
 * The in-memory message queue: delayed delivery, visibility timers, retries and dead letters.
 * Visibility timers are never cancelled; each pending one is part of the state and fires at or
 * after its due time.
 */
module MessageQueue {
  import opened Common

  type Payload(!new)

  datatype Message = Message(id: string, payload: Payload, attempts: nat, createdAt: int, availableAt: int)

  /** A pending visibility timer: which delivery set it, for which message, and when it is due. */
  datatype Timer = Timer(delivery: nat, id: string, dueAt: int)

  datatype Config = Config(maxRetries: nat, retryDelayMs: int, visibilityTimeoutMs: int)

  /** `acked`, `known` and `latest` (the timer of each message's latest delivery) record history. */
  datatype State = State(
    queue: seq<Message>,
    inFlight: map<string, Message>,
    dead: seq<Message>,
    timers: set<Timer>,
    acked: set<string>,
    known: set<string>,
    deliveries: nat,
    latest: map<string, Timer>,
    now: int)

  datatype Event =
    | Enqueue(id: string, payload: Payload, delayMs: int, now: int)
    | Dequeue(now: int)
    | Ack(id: string, now: int)
    | Nack(id: string, now: int)
    | Fire(timer: Timer, now: int)

  const Initial := State([], map[], [], {}, {}, {}, 0, map[], 0)

  // ---- The operations ---------------------------------------------------------

  /** The first message already available, or the length of the queue. */
  function FirstAvailable(queue: seq<Message>, now: int): (i: nat)
    ensures i <= |queue|
    ensures i < |queue| ==> queue[i].availableAt <= now
    ensures forall j :: 0 <= j < i ==> queue[j].availableAt > now
  {
    if queue == [] || queue[0].availableAt <= now then 0 else 1 + FirstAvailable(queue[1..], now)
  }

  function DoDequeue(c: Config, s: State): State {
    var i := FirstAvailable(s.queue, s.now);
    if i == |s.queue| then s else Delivered(c, s, i)
  }

  function Delivered(c: Config, s: State, i: nat): State
    requires i < |s.queue|
  {
    WithTimer(TakenOut(s, i), s.queue[i].id, s.now + c.visibilityTimeoutMs)
  }

  /** The message at index `i` moves from the queue into flight. */
  function TakenOut(s: State, i: nat): State
    requires i < |s.queue|
  {
    s.(queue := s.queue[..i] + s.queue[i + 1..], inFlight := s.inFlight[s.queue[i].id := s.queue[i]])
  }

  function WithTimer(s: State, id: string, dueAt: int): State {
    var t := Timer(s.deliveries, id, dueAt);
    s.(timers := s.timers + {t}, deliveries := s.deliveries + 1, latest := s.latest[id := t])
  }

  lemma DequeueFrom(c: Config, s: State, now: int)
    ensures
      var i := FirstAvailable(s.queue, now);
      Step(c, s, Dequeue(now)) == if i == |s.queue| then s.(now := now) else Delivered(c, s.(now := now), i)
  {
  }

  /** The retry delay once for every attempt. */
  function RetryDelay(c: Config, attempts: nat): int {
    if attempts == 0 then 0 else RetryDelay(c, attempts - 1) + c.retryDelayMs
  }

  lemma {:induction false} RetryDelayIs(c: Config, attempts: nat)
    ensures RetryDelay(c, attempts) == c.retryDelayMs * attempts
  {
    if attempts > 0 {
      RetryDelayIs(c, attempts - 1);
      assert c.retryDelayMs * attempts == c.retryDelayMs * (attempts - 1) + c.retryDelayMs;
    }
  }

  /** When a message nacked for the n-th time becomes available again. */
  function RetryAt(c: Config, now: int, attempts: nat): int {
    now + RetryDelay(c, attempts)
  }

  function DoNack(c: Config, s: State, id: string): State {
    if id !in s.inFlight then s else Rejected(c, s.(inFlight := s.inFlight - {id}), s.inFlight[id])
  }

  function Rejected(c: Config, s: State, message: Message): State {
    var m := message.(attempts := message.attempts + 1);
    if m.attempts > c.maxRetries then s.(dead := s.dead + [m])
    else s.(queue := s.queue + [m.(availableAt := RetryAt(c, s.now, m.attempts))])
  }

  function DoFire(s: State, t: Timer): State {
    var s' := s.(timers := s.timers - {t});
    if t.id in s.inFlight then
      s'.(inFlight := s.inFlight - {t.id}, queue := s.queue + [s.inFlight[t.id]])
    else s'
  }

  function Step(c: Config, s: State, e: Event): State {
    var s := s.(now := e.now);
    match e
    case Enqueue(id, payload, delayMs, now) =>
      s.(queue := s.queue + [Message(id, payload, 0, now, now + delayMs)], known := s.known + {id})
    case Dequeue(_) => DoDequeue(c, s)
    case Ack(id, _) =>
      s.(inFlight := s.inFlight - {id}, acked := if id in s.inFlight then s.acked + {id} else s.acked)
    case Nack(id, _) => DoNack(c, s, id)
    case Fire(t, _) => DoFire(s, t)
  }

  /** Identifiers are fresh, time moves forward, and a timer fires once, when due. */
  predicate Enabled(s: State, e: Event) {
    && s.now <= e.now
    && (e.Enqueue? ==> e.id !in s.known)
    && (e.Fire? ==> e.timer in s.timers && e.timer.dueAt <= e.now)
  }

  function Run(c: Config, s: State, events: seq<Event>): State {
    if events == [] then s else Step(c, Run(c, s, events[..|events| - 1]), events[|events| - 1])
  }

  ghost predicate Feasible(c: Config, s: State, events: seq<Event>) {
    events == [] || (
      && Feasible(c, s, events[..|events| - 1])
      && Enabled(Run(c, s, events[..|events| - 1]), events[|events| - 1]))
  }

  lemma RunAppend(c: Config, s: State, events: seq<Event>, e: Event)
    ensures Run(c, s, events + [e]) == Step(c, Run(c, s, events), e)
    ensures Feasible(c, s, events + [e]) <==> Feasible(c, s, events) && Enabled(Run(c, s, events), e)
  {
    assert (events + [e])[..|events|] == events;
  }

  // ---- Conservation -----------------------------------------------------------

  function Ids(messages: seq<Message>): multiset<string> {
    if messages == [] then multiset{} else Ids(messages[..|messages| - 1]) + multiset{messages[|messages| - 1].id}
  }

  lemma IdsAppend(messages: seq<Message>, m: Message)
    ensures Ids(messages + [m]) == Ids(messages) + multiset{m.id}
  {
    assert (messages + [m])[..|messages|] == messages;
  }

  lemma {:induction false} IdsConcat(a: seq<Message>, b: seq<Message>)
    ensures Ids(a + b) == Ids(a) + Ids(b)
  {
    if b == [] {
      assert a + b == a;
    } else {
      assert (a + b)[..|a + b| - 1] == a + b[..|b| - 1];
      IdsConcat(a, b[..|b| - 1]);
    }
  }

  lemma IdsMiddle(a: seq<Message>, m: Message, b: seq<Message>)
    ensures Ids((a + [m]) + b) == Ids(a + b) + multiset{m.id}
  {
    IdsConcat(a + [m], b);
    IdsAppend(a, m);
    IdsConcat(a, b);
  }

  lemma IdsSplice(messages: seq<Message>, i: nat)
    requires i < |messages|
    ensures Ids(messages) == Ids(messages[..i] + messages[i + 1..]) + multiset{messages[i].id}
  {
    IdsMiddle(messages[..i], messages[i], messages[i + 1..]);
    CutAt(messages, i);
  }

  lemma CutAt<T>(s: seq<T>, i: nat)
    requires i < |s|
    ensures s == (s[..i] + [s[i]]) + s[i + 1..]
  {
  }

  lemma {:induction false} IdsMember(messages: seq<Message>, m: Message)
    requires m in messages
    ensures m.id in Ids(messages)
  {
    var last := |messages| - 1;
    if messages[last] != m {
      assert messages == messages[..last] + [messages[last]];
      IdsMember(messages[..last], m);
    }
  }

  /** Every enqueued message is in exactly one place: queued, in flight, dead or acknowledged. */
  ghost predicate Conserved(s: State) {
    Ids(s.queue) + multiset(s.inFlight.Keys) + Ids(s.dead) + multiset(s.acked) == multiset(s.known)
  }

  ghost predicate AttemptsBounded(c: Config, s: State) {
    && (forall m :: m in s.queue ==> m.attempts <= c.maxRetries)
    && (forall id :: id in s.inFlight ==> s.inFlight[id].attempts <= c.maxRetries && s.inFlight[id].id == id)
    && (forall m :: m in s.dead ==> m.attempts == c.maxRetries + 1)
  }

  /** Whatever is in flight still has the timer of its latest delivery pending. */
  ghost predicate TimersPending(s: State) {
    && (forall t :: t in s.timers ==> t.delivery < s.deliveries)
    && (forall id :: id in s.inFlight ==> id in s.latest && s.latest[id] in s.timers && s.latest[id].id == id)
  }

  ghost predicate Inv(c: Config, s: State) {
    Conserved(s) && AttemptsBounded(c, s) && TimersPending(s)
  }

  lemma InFlightIsElsewhereNot(s: State, id: string)
    requires Conserved(s) && id in s.inFlight
    ensures id in s.known && id !in Ids(s.queue) && id !in Ids(s.dead) && id !in s.acked
  {
    var all := Ids(s.queue) + multiset(s.inFlight.Keys) + Ids(s.dead) + multiset(s.acked);
    assert multiset(s.inFlight.Keys)[id] == 1 && all[id] == multiset(s.known)[id];
  }

  lemma QueuedIsNotInFlight(s: State, i: nat)
    requires Conserved(s) && i < |s.queue|
    ensures s.queue[i].id !in s.inFlight
  {
    IdsMember(s.queue, s.queue[i]);
    if s.queue[i].id in s.inFlight { InFlightIsElsewhereNot(s, s.queue[i].id); }
  }

  lemma Regroup(q: multiset<string>, f: multiset<string>, d: multiset<string>, a: multiset<string>, x: string)
    ensures (q + multiset{x}) + f + d + a == q + (f + multiset{x}) + d + a
    ensures q + (f + multiset{x}) + d + a == q + f + (d + multiset{x}) + a
    ensures q + (f + multiset{x}) + d + a == q + f + d + (a + multiset{x})
  {
  }

  lemma EntersFlight(s: State, m: Message)
    requires m.id !in s.inFlight
    ensures multiset(s.inFlight[m.id := m].Keys) == multiset(s.inFlight.Keys) + multiset{m.id}
  {
    assert s.inFlight[m.id := m].Keys == s.inFlight.Keys + {m.id};
  }

  lemma IntoFlightConserves(s: State, i: nat)
    requires Conserved(s) && i < |s.queue|
    ensures Conserved(TakenOut(s, i))
  {
    var m, s' := s.queue[i], TakenOut(s, i);
    IdsSplice(s.queue, i);
    QueuedIsNotInFlight(s, i);
    EntersFlight(s, m);
    Regroup(Ids(s'.queue), multiset(s.inFlight.Keys), Ids(s.dead), multiset(s.acked), m.id);
  }

  lemma DequeueKeepsInv(c: Config, s: State)
    requires Inv(c, s)
    ensures Inv(c, DoDequeue(c, s))
  {
    var i := FirstAvailable(s.queue, s.now);
    if i < |s.queue| {
      IntoFlightConserves(s, i);
      assert s.queue[i] in s.queue;
      assert forall x :: x in s.queue[..i] + s.queue[i + 1..] ==> x in s.queue;
    }
  }

  lemma LeavesFlight(s: State, id: string)
    requires id in s.inFlight
    ensures multiset(s.inFlight.Keys) == multiset((s.inFlight - {id}).Keys) + multiset{id}
  {
    assert s.inFlight.Keys == (s.inFlight - {id}).Keys + {id};
  }

  lemma BackToQueueConserves(s: State, id: string, m: Message)
    requires Conserved(s) && id in s.inFlight && m.id == id
    ensures Conserved(s.(inFlight := s.inFlight - {id}, queue := s.queue + [m]))
  {
    LeavesFlight(s, id);
    IdsAppend(s.queue, m);
    Regroup(Ids(s.queue), multiset((s.inFlight - {id}).Keys), Ids(s.dead), multiset(s.acked), id);
  }

  lemma ToDeadConserves(s: State, id: string, m: Message)
    requires Conserved(s) && id in s.inFlight && m.id == id
    ensures Conserved(s.(inFlight := s.inFlight - {id}, dead := s.dead + [m]))
  {
    LeavesFlight(s, id);
    IdsAppend(s.dead, m);
    Regroup(Ids(s.queue), multiset((s.inFlight - {id}).Keys), Ids(s.dead), multiset(s.acked), id);
  }

  lemma AckedConserves(s: State, id: string)
    requires Conserved(s) && id in s.inFlight
    ensures Conserved(s.(inFlight := s.inFlight - {id}, acked := s.acked + {id}))
  {
    LeavesFlight(s, id);
    InFlightIsElsewhereNot(s, id);
    assert multiset(s.acked + {id}) == multiset(s.acked) + multiset{id};
    Regroup(Ids(s.queue), multiset((s.inFlight - {id}).Keys), Ids(s.dead), multiset(s.acked), id);
  }

  /** Taking a message out of flight and putting it at the end of the queue, or of the dead letters, loses nothing. */
  lemma OutOfFlightConserves(s: State, id: string, m: Message)
    requires Conserved(s) && id in s.inFlight && m.id == id
    ensures Conserved(s.(inFlight := s.inFlight - {id}, queue := s.queue + [m]))
    ensures Conserved(s.(inFlight := s.inFlight - {id}, dead := s.dead + [m]))
    ensures Conserved(s.(inFlight := s.inFlight - {id}, acked := s.acked + {id}))
  {
    BackToQueueConserves(s, id, m);
    ToDeadConserves(s, id, m);
    AckedConserves(s, id);
  }

  lemma NackKeepsInv(c: Config, s: State, id: string)
    requires Inv(c, s)
    ensures Inv(c, DoNack(c, s, id))
  {
    if id in s.inFlight {
      var m := s.inFlight[id].(attempts := s.inFlight[id].attempts + 1);
      var back := m.(availableAt := RetryAt(c, s.now, m.attempts));
      OutOfFlightConserves(s, id, if m.attempts > c.maxRetries then m else back);
    }
  }

  lemma AckKeepsInv(c: Config, s: State, id: string, now: int)
    requires Inv(c, s)
    ensures Inv(c, Step(c, s, Ack(id, now)))
  {
    if id in s.inFlight {
      OutOfFlightConserves(s, id, s.inFlight[id]);
    } else {
      assert s.inFlight - {id} == s.inFlight;
    }
  }

  lemma FireKeepsInv(c: Config, s: State, t: Timer)
    requires Inv(c, s)
    ensures Inv(c, DoFire(s, t))
  {
    if t.id in s.inFlight { OutOfFlightConserves(s, t.id, s.inFlight[t.id]); }
  }

  lemma EnqueueConserves(s: State, m: Message)
    requires Conserved(s) && m.id !in s.known
    ensures Conserved(s.(queue := s.queue + [m], known := s.known + {m.id}))
  {
    IdsAppend(s.queue, m);
    assert multiset(s.known + {m.id}) == multiset(s.known) + multiset{m.id};
  }

  lemma EnqueueKeepsInv(c: Config, s: State, id: string, payload: Payload, delayMs: int, now: int)
    requires Inv(c, s) && id !in s.known
    ensures Inv(c, Step(c, s, Enqueue(id, payload, delayMs, now)))
  {
    EnqueueConserves(s, Message(id, payload, 0, now, now + delayMs));
  }

  lemma StepKeepsInv(c: Config, s: State, e: Event)
    requires Inv(c, s) && Enabled(s, e)
    ensures Inv(c, Step(c, s, e))
  {
    var t := s.(now := e.now);
    assert Inv(c, t);
    match e
    case Enqueue(id, payload, delayMs, now) => EnqueueKeepsInv(c, s, id, payload, delayMs, now);
    case Dequeue(_) => DequeueKeepsInv(c, t);
    case Ack(id, _) => AckKeepsInv(c, s, id, e.now);
    case Nack(id, _) => NackKeepsInv(c, t, id);
    case Fire(timer, _) => FireKeepsInv(c, t, timer);
  }

  /** The invariant holds at the end of every run, stale timers included. */
  lemma {:induction false} RunKeepsInv(c: Config, s: State, events: seq<Event>)
    requires Inv(c, s) && Feasible(c, s, events)
    ensures Inv(c, Run(c, s, events))
  {
    if events != [] {
      RunKeepsInv(c, s, events[..|events| - 1]);
      StepKeepsInv(c, Run(c, s, events[..|events| - 1]), events[|events| - 1]);
    }
  }

  /** In every run a message is in one place at a time; the dead have used one attempt more than allowed. */
  lemma EveryRunConserves(c: Config, events: seq<Event>)
    requires Feasible(c, Initial, events)
    ensures Inv(c, Run(c, Initial, events))
  {
    RunKeepsInv(c, Initial, events);
  }

  /** Once no timer is pending, nothing is in flight: no message can stay hidden for ever. */
  lemma NoTimerNothingInFlight(c: Config, events: seq<Event>)
    requires Feasible(c, Initial, events) && Run(c, Initial, events).timers == {}
    ensures Run(c, Initial, events).inFlight == map[]
  {
    EveryRunConserves(c, events);
  }

  // ---- Attempts and dead letters ----------------------------------------------

  /** How often `id` was rejected while in flight. */
  function Rejections(c: Config, events: seq<Event>, id: string): nat {
    if events == [] then 0
    else
      var rest, e := events[..|events| - 1], events[|events| - 1];
      Rejections(c, rest, id) + if Rejects(Run(c, Initial, rest), e, id) then 1 else 0
  }

  predicate Rejects(s: State, e: Event, id: string) {
    e.Nack? && e.id == id && id in s.inFlight
  }

  ghost predicate AllTallied(messages: seq<Message>, id: string, n: nat) {
    forall i :: 0 <= i < |messages| && messages[i].id == id ==> messages[i].attempts == n
  }

  /** Wherever the message is, it shows `n` attempts; before it is enqueued there are none. */
  ghost predicate Tallied(s: State, id: string, n: nat) {
    && AllTallied(s.queue, id, n)
    && AllTallied(s.dead, id, n)
    && (id in s.inFlight ==> s.inFlight[id].attempts == n)
    && (id !in s.known ==> n == 0)
  }

  lemma NotHeld(messages: seq<Message>, id: string, n: nat)
    requires id !in Ids(messages)
    ensures AllTallied(messages, id, n)
  {
    forall i | 0 <= i < |messages| ensures messages[i].id != id { IdsMember(messages, messages[i]); }
  }

  lemma UnknownIsNowhere(s: State, id: string)
    requires Conserved(s) && id !in s.known
    ensures id !in Ids(s.queue) && id !in Ids(s.dead) && id !in s.inFlight
  {
    var all := Ids(s.queue) + multiset(s.inFlight.Keys) + Ids(s.dead) + multiset(s.acked);
    assert all[id] == 0;
  }

  lemma AppendTallies(messages: seq<Message>, m: Message, id: string, n: nat)
    requires AllTallied(messages, id, n) && (m.id == id ==> m.attempts == n)
    ensures AllTallied(messages + [m], id, n)
  {
  }

  lemma RejectedTallies(c: Config, s: State, m: Message, n: nat)
    requires AllTallied(s.queue, m.id, n + 1) && AllTallied(s.dead, m.id, n + 1)
    requires m.attempts == n && m.id !in s.inFlight && m.id in s.known
    ensures Tallied(Rejected(c, s, m), m.id, n + 1)
  {
    var counted := m.(attempts := n + 1);
    AppendTallies(s.dead, counted, m.id, n + 1);
    AppendTallies(s.queue, counted.(availableAt := RetryAt(c, s.now, n + 1)), m.id, n + 1);
  }

  lemma NackTallies(c: Config, s: State, id: string, n: nat)
    requires Tallied(s, id, n) && id in s.inFlight && s.inFlight[id].id == id && id in s.known
    requires id !in Ids(s.queue) && id !in Ids(s.dead)
    ensures Tallied(DoNack(c, s, id), id, n + 1)
  {
    NotHeld(s.queue, id, n + 1);
    NotHeld(s.dead, id, n + 1);
    RejectedTallies(c, s.(inFlight := s.inFlight - {id}), s.inFlight[id], n);
  }

  lemma OtherNackTallies(c: Config, s: State, other: string, id: string, n: nat)
    requires AttemptsBounded(c, s) && Tallied(s, id, n) && other != id
    ensures Tallied(DoNack(c, s, other), id, n)
  {
  }

  lemma EnqueueTallies(c: Config, s: State, e: Event, n: nat)
    requires Conserved(s) && Enabled(s, e) && e.Enqueue? && Tallied(s, e.id, n)
    ensures Tallied(Step(c, s, e), e.id, n)
  {
    UnknownIsNowhere(s, e.id);
    AppendTallies(s.queue, Message(e.id, e.payload, 0, e.now, e.now + e.delayMs), e.id, 0);
  }

  lemma DequeueTallies(c: Config, s: State, id: string, n: nat)
    requires Tallied(s, id, n)
    ensures Tallied(DoDequeue(c, s), id, n)
  {
  }

  lemma FireTallies(s: State, t: Timer, id: string, n: nat)
    requires Tallied(s, id, n) && (t.id in s.inFlight ==> s.inFlight[t.id].id == t.id)
    ensures Tallied(DoFire(s, t), id, n)
  {
    if t.id in s.inFlight { AppendTallies(s.queue, s.inFlight[t.id], id, n); }
  }

  lemma StepTallies(c: Config, s: State, e: Event, id: string, n: nat)
    requires Inv(c, s) && Enabled(s, e) && Tallied(s, id, n)
    ensures Tallied(Step(c, s, e), id, n + if Rejects(s, e, id) then 1 else 0)
  {
    var t := s.(now := e.now);
    if Rejects(s, e, id) {
      InFlightIsElsewhereNot(s, id);
      NackTallies(c, t, id, n);
    } else if e.Nack? {
      if e.id != id { OtherNackTallies(c, t, e.id, id, n); }
    } else if e.Enqueue? {
      if e.id == id { EnqueueTallies(c, s, e, n); }
    } else if e.Dequeue? {
      DequeueTallies(c, t, id, n);
    } else if e.Fire? {
      FireTallies(t, e.timer, id, n);
    }
  }

  /** In every run a message's `attempts` is the number of times it was rejected while in flight. */
  lemma {:induction false} AttemptsAreRejections(c: Config, events: seq<Event>, id: string)
    requires Feasible(c, Initial, events)
    ensures Tallied(Run(c, Initial, events), id, Rejections(c, events, id))
  {
    if events != [] {
      var rest, e := events[..|events| - 1], events[|events| - 1];
      AttemptsAreRejections(c, rest, id);
      EveryRunConserves(c, rest);
      StepTallies(c, Run(c, Initial, rest), e, id, Rejections(c, rest, id));
    }
  }

  lemma {:induction false} HeldSomewhere(messages: seq<Message>, id: string) returns (i: nat)
    requires id in Ids(messages)
    ensures i < |messages| && messages[i].id == id
  {
    i := |messages| - 1;
    if messages[i].id != id { i := HeldSomewhere(messages[..i], id); }
  }

  /** A message that is not acknowledged is a dead letter exactly when it was rejected `maxRetries + 1` times. */
  lemma DeadExactly(c: Config, events: seq<Event>, id: string)
    requires Feasible(c, Initial, events)
    requires var s := Run(c, Initial, events); id in s.known && id !in s.acked
    ensures id in Ids(Run(c, Initial, events).dead) <==> Rejections(c, events, id) == c.maxRetries + 1
  {
    var s := Run(c, Initial, events);
    EveryRunConserves(c, events);
    AttemptsAreRejections(c, events, id);
    if id in Ids(s.dead) {
      var i := HeldSomewhere(s.dead, id);
      assert s.dead[i] in s.dead;
    } else if id !in s.inFlight {
      var all := Ids(s.queue) + multiset(s.inFlight.Keys) + Ids(s.dead) + multiset(s.acked);
      assert all[id] == 1;
      var i := HeldSomewhere(s.queue, id);
      assert s.queue[i] in s.queue;
    }
  }

  // ---- Where a message is -----------------------------------------------------

  /** An acknowledgement of `id` came while it was in flight. */
  predicate Acknowledged(c: Config, events: seq<Event>, id: string) {
    events != [] &&
    var rest, e := events[..|events| - 1], events[|events| - 1];
    Acknowledged(c, rest, id) || (e.Ack? && e.id == id && id in Run(c, Initial, rest).inFlight)
  }

  /** In every run a message is done with exactly when it was acknowledged in flight: nothing else drops it. */
  lemma {:induction false} AckedExactly(c: Config, events: seq<Event>, id: string)
    ensures id in Run(c, Initial, events).acked <==> Acknowledged(c, events, id)
  {
    if events != [] { AckedExactly(c, events[..|events| - 1], id); }
  }

  /**
   * In every run, where a known message is follows from its acknowledgement and its rejections: until it is
   * acknowledged, or rejected more than `maxRetries` times, it is queued or in flight, and not both.
   */
  lemma NeverLost(c: Config, events: seq<Event>, id: string)
    requires Feasible(c, Initial, events) && id in Run(c, Initial, events).known
    ensures
      var s, rejections := Run(c, Initial, events), Rejections(c, events, id);
      if Acknowledged(c, events, id) then id !in Ids(s.queue) && id !in s.inFlight && id !in Ids(s.dead)
      else if rejections > c.maxRetries then id !in Ids(s.queue) && id !in s.inFlight && id in Ids(s.dead)
      else id !in Ids(s.dead) && (id in Ids(s.queue) <==> id !in s.inFlight)
  {
    var s := Run(c, Initial, events);
    EveryRunConserves(c, events);
    AckedExactly(c, events, id);
    OnePlace(s, id);
    if !Acknowledged(c, events, id) {
      DeadExactly(c, events, id);
      RejectionsBounded(c, events, id);
    }
  }

  lemma OnePlace(s: State, id: string)
    requires Conserved(s) && id in s.known
    ensures Ids(s.queue)[id] + multiset(s.inFlight.Keys)[id] + Ids(s.dead)[id] + multiset(s.acked)[id] == 1
  {
    var all := Ids(s.queue) + multiset(s.inFlight.Keys) + Ids(s.dead) + multiset(s.acked);
    assert all[id] == 1;
  }

  lemma RejectionsBounded(c: Config, events: seq<Event>, id: string)
    requires Feasible(c, Initial, events)
    requires var s := Run(c, Initial, events); id in s.known && id !in s.acked
    ensures Rejections(c, events, id) <= c.maxRetries + 1
  {
    var s := Run(c, Initial, events);
    EveryRunConserves(c, events);
    AttemptsAreRejections(c, events, id);
    OnePlace(s, id);
    if id in Ids(s.queue) {
      var i := HeldSomewhere(s.queue, id);
      assert s.queue[i] in s.queue;
    } else if id in Ids(s.dead) {
      var i := HeldSomewhere(s.dead, id);
      assert s.dead[i] in s.dead;
    }
  }

  /** A timer that fires while its message is in flight puts that message, unchanged, at the end of the queue. */
  lemma FiringReturns(c: Config, s: State, t: Timer, now: int)
    requires Inv(c, s) && Enabled(s, Fire(t, now)) && t.id in s.inFlight
    ensures
      var s' := Step(c, s, Fire(t, now));
      && t.id !in s'.inFlight && t.id in Ids(s'.queue)
      && s'.queue == s.queue + [s.inFlight[t.id]] && s'.dead == s.dead && s'.acked == s.acked
  {
    assert s.inFlight[t.id].id == t.id;
    IdsAppend(s.queue, s.inFlight[t.id]);
    FireFrom(c, s, t, now);
  }

  lemma FireFrom(c: Config, s: State, t: Timer, now: int)
    ensures Step(c, s, Fire(t, now)) == DoFire(s.(now := now), t)
  {
  }

  /** Whoever fails to answer in time gives the message back: its latest timer is there to fire, and returns it. */
  lemma TimeoutReturns(c: Config, events: seq<Event>, id: string, now: int)
    requires Feasible(c, Initial, events) && id in Run(c, Initial, events).inFlight
    requires Run(c, Initial, events).now <= now && DeliveredAt(c, events, id) + c.visibilityTimeoutMs <= now
    ensures
      var s := Run(c, Initial, events);
      && id in s.latest && Enabled(s, Fire(s.latest[id], now))
      && Step(c, s, Fire(s.latest[id], now)).queue == s.queue + [s.inFlight[id]]
  {
    EveryRunConserves(c, events);
    LatestTimerIs(c, events, id);
    FiringReturns(c, Run(c, Initial, events), Run(c, Initial, events).latest[id], now);
  }

  predicate Takes(c: Config, s: State, e: Event, id: string) {
    e.Dequeue? && id !in s.inFlight && id in Step(c, s, e).inFlight
  }

  /** When `id` was last delivered. */
  function DeliveredAt(c: Config, events: seq<Event>, id: string): int {
    if events == [] then 0
    else
      var rest, e := events[..|events| - 1], events[|events| - 1];
      if Takes(c, Run(c, Initial, rest), e, id) then e.now else DeliveredAt(c, rest, id)
  }

  lemma StepTimers(c: Config, s: State, e: Event, id: string)
    requires Inv(c, s) && Enabled(s, e) && id in Step(c, s, e).inFlight
    ensures
      var s' := Step(c, s, e);
      id in s'.latest && if Takes(c, s, e, id) then s'.latest[id].dueAt == e.now + c.visibilityTimeoutMs
                         else id in s.inFlight && id in s.latest && s'.latest[id] == s.latest[id]
  {
    if e.Dequeue? {
      var i := FirstAvailable(s.queue, e.now);
      DequeueFrom(c, s, e.now);
      if i < |s.queue| { QueuedIsNotInFlight(s, i); }
    }
  }

  /** In every run a message in flight has a timer due exactly `visibilityTimeoutMs` after its latest delivery. */
  lemma {:induction false} LatestTimerIs(c: Config, events: seq<Event>, id: string)
    requires Feasible(c, Initial, events) && id in Run(c, Initial, events).inFlight
    ensures
      var s := Run(c, Initial, events);
      id in s.latest && s.latest[id].dueAt == DeliveredAt(c, events, id) + c.visibilityTimeoutMs
  {
    if events != [] {
      var rest, e := events[..|events| - 1], events[|events| - 1];
      EveryRunConserves(c, rest);
      StepTimers(c, Run(c, Initial, rest), e, id);
      if !Takes(c, Run(c, Initial, rest), e, id) { LatestTimerIs(c, rest, id); }
    }
  }

  // ---- What a message carries -------------------------------------------------

  /** The payload and time of the message's own `Enqueue`. */
  function Origin(events: seq<Event>, id: string): Option<(Payload, int)> {
    if events == [] then None
    else
      var e := events[|events| - 1];
      if e.Enqueue? && e.id == id then Some((e.payload, e.now)) else Origin(events[..|events| - 1], id)
  }

  ghost predicate ComesFrom(m: Message, origin: Option<(Payload, int)>) {
    origin == Some((m.payload, m.createdAt))
  }

  ghost predicate AllOriginal(events: seq<Event>, s: State) {
    && (forall m :: m in s.queue ==> ComesFrom(m, Origin(events, m.id)))
    && (forall m :: m in s.dead ==> ComesFrom(m, Origin(events, m.id)))
    && (forall id :: id in s.inFlight ==> ComesFrom(s.inFlight[id], Origin(events, id)))
  }

  lemma OriginAppend(events: seq<Event>, e: Event, id: string)
    ensures Origin(events + [e], id) ==
      if e.Enqueue? && e.id == id then Some((e.payload, e.now)) else Origin(events, id)
  {
    assert (events + [e])[..|events|] == events;
  }

  lemma OriginsKept(c: Config, s: State, events: seq<Event>, e: Event)
    requires Inv(c, s) && Enabled(s, e) && AllOriginal(events, s)
    ensures AllOriginal(events + [e], s)
  {
    forall id ensures !(e.Enqueue? && id == e.id) ==> Origin(events + [e], id) == Origin(events, id) {
      OriginAppend(events, e, id);
    }
    if e.Enqueue? {
      UnknownIsNowhere(s, e.id);
      forall m | m in s.queue ensures m.id != e.id { IdsMember(s.queue, m); }
      forall m | m in s.dead ensures m.id != e.id { IdsMember(s.dead, m); }
    }
  }

  lemma StepKeepsOriginal(c: Config, s: State, events: seq<Event>, e: Event)
    requires Inv(c, s) && Enabled(s, e) && AllOriginal(events, s)
    ensures AllOriginal(events + [e], Step(c, s, e))
  {
    OriginsKept(c, s, events, e);
    if e.Enqueue? { OriginAppend(events, e, e.id); }
    if e.Dequeue? { DequeueKeepsOriginal(c, s, events + [e], e.now); }
  }

  lemma DequeueKeepsOriginal(c: Config, s: State, events: seq<Event>, now: int)
    requires AttemptsBounded(c, s) && AllOriginal(events, s)
    ensures AllOriginal(events, Step(c, s, Dequeue(now)))
  {
    var i := FirstAvailable(s.queue, now);
    DequeueFrom(c, s, now);
    if i < |s.queue| {
      assert s.queue[i] in s.queue;
      assert forall x :: x in s.queue[..i] + s.queue[i + 1..] ==> x in s.queue;
    }
  }

  /** In every run each message, wherever it is, carries the payload and creation time it was enqueued with. */
  lemma {:induction false} MessagesAreOriginal(c: Config, events: seq<Event>)
    requires Feasible(c, Initial, events)
    ensures AllOriginal(events, Run(c, Initial, events))
  {
    if events != [] {
      var rest, e := events[..|events| - 1], events[|events| - 1];
      MessagesAreOriginal(c, rest);
      EveryRunConserves(c, rest);
      StepKeepsOriginal(c, Run(c, Initial, rest), rest, e);
      assert rest + [e] == events;
    }
  }

  // ---- First in, first out ----------------------------------------------------

  /** The event puts `id` at the end of the queue. */
  predicate Enters(c: Config, s: State, e: Event, id: string, rejections: nat) {
    || (e.Enqueue? && e.id == id)
    || (Rejects(s, e, id) && rejections < c.maxRetries)
    || (e.Fire? && e.timer.id == id && id in s.inFlight)
  }

  /** The number of the event that last put `id` in the queue. */
  function EnteredAt(c: Config, events: seq<Event>, id: string): (n: int)
    ensures -1 <= n < |events|
  {
    if events == [] then -1
    else
      var rest := events[..|events| - 1];
      if Enters(c, Run(c, Initial, rest), events[|rest|], id, Rejections(c, rest, id)) then |rest|
      else EnteredAt(c, rest, id)
  }

  ghost predicate InOrderOfEntry(c: Config, events: seq<Event>, queue: seq<Message>) {
    forall i, j :: 0 <= i < j < |queue| ==> EnteredAt(c, events, queue[i].id) < EnteredAt(c, events, queue[j].id)
  }

  ghost predicate EntersNow(c: Config, events: seq<Event>, e: Event, id: string) {
    Enters(c, Run(c, Initial, events), e, id, Rejections(c, events, id))
  }

  lemma EnteredAppend(c: Config, events: seq<Event>, e: Event, id: string)
    ensures EnteredAt(c, events + [e], id) == if EntersNow(c, events, e, id) then |events| else EnteredAt(c, events, id)
  {
    assert (events + [e])[..|events|] == events;
  }

  lemma ShorterInOrder(c: Config, events: seq<Event>, queue: seq<Message>, i: nat)
    requires InOrderOfEntry(c, events, queue) && i < |queue|
    ensures InOrderOfEntry(c, events, queue[..i] + queue[i + 1..])
  {
  }

  /** Nothing already queued enters again. */
  lemma SameOrder(c: Config, events: seq<Event>, e: Event, queue: seq<Message>)
    requires InOrderOfEntry(c, events, queue)
    requires forall k :: 0 <= k < |queue| ==> !EntersNow(c, events, e, queue[k].id)
    ensures InOrderOfEntry(c, events + [e], queue)
  {
    forall k | 0 <= k < |queue| ensures EnteredAt(c, events + [e], queue[k].id) == EnteredAt(c, events, queue[k].id) {
      EnteredAppend(c, events, e, queue[k].id);
    }
  }

  lemma LastInOrder(c: Config, events: seq<Event>, queue: seq<Message>, m: Message)
    requires InOrderOfEntry(c, events, queue)
    requires forall k :: 0 <= k < |queue| ==> EnteredAt(c, events, queue[k].id) < EnteredAt(c, events, m.id)
    ensures InOrderOfEntry(c, events, queue + [m])
  {
  }

  lemma OthersStay(c: Config, events: seq<Event>, e: Event, queue: seq<Message>, id: string)
    requires id !in Ids(queue) && forall x :: EntersNow(c, events, e, x) ==> x == id
    ensures forall k :: 0 <= k < |queue| ==> !EntersNow(c, events, e, queue[k].id)
  {
    forall k | 0 <= k < |queue| ensures queue[k].id != id { IdsMember(queue, queue[k]); }
  }

  /** What enters joins the end, behind all that entered before. */
  lemma JoinsInOrder(c: Config, events: seq<Event>, e: Event, queue: seq<Message>, m: Message)
    requires InOrderOfEntry(c, events, queue) && m.id !in Ids(queue)
    requires EntersNow(c, events, e, m.id) && forall id :: EntersNow(c, events, e, id) ==> id == m.id
    ensures InOrderOfEntry(c, events + [e], queue + [m])
  {
    OthersStay(c, events, e, queue, m.id);
    SameOrder(c, events, e, queue);
    EnteredAppend(c, events, e, m.id);
    forall k | 0 <= k < |queue| ensures EnteredAt(c, events + [e], queue[k].id) < |events| {
      EnteredAppend(c, events, e, queue[k].id);
    }
    LastInOrder(c, events + [e], queue, m);
  }

  lemma EnqueueQueue(c: Config, s: State, e: Event)
    requires Conserved(s) && Enabled(s, e) && e.Enqueue?
    ensures e.id !in Ids(s.queue)
    ensures Step(c, s, e).queue == s.queue + [Message(e.id, e.payload, 0, e.now, e.now + e.delayMs)]
  {
    UnknownIsNowhere(s, e.id);
  }

  lemma EnqueueKeepsOrder(c: Config, events: seq<Event>, e: Event, s: State)
    requires s == Run(c, Initial, events) && Conserved(s) && Enabled(s, e) && e.Enqueue?
    requires InOrderOfEntry(c, events, s.queue)
    ensures InOrderOfEntry(c, events + [e], Step(c, s, e).queue)
  {
    EnqueueQueue(c, s, e);
    assert EntersNow(c, events, e, e.id);
    JoinsInOrder(c, events, e, s.queue, Message(e.id, e.payload, 0, e.now, e.now + e.delayMs));
  }

  lemma DequeueKeepsOrder(c: Config, events: seq<Event>, e: Event, s: State)
    requires s == Run(c, Initial, events) && e.Dequeue? && InOrderOfEntry(c, events, s.queue)
    ensures InOrderOfEntry(c, events + [e], Step(c, s, e).queue)
  {
    var i := FirstAvailable(s.queue, e.now);
    DequeueFrom(c, s, e.now);
    SameOrder(c, events, e, s.queue);
    if i < |s.queue| { ShorterInOrder(c, events + [e], s.queue, i); }
  }

  lemma NackQueue(c: Config, s: State, e: Event) returns (m: Option<Message>)
    requires Inv(c, s) && e.Nack?
    ensures
      if e.id in s.inFlight && s.inFlight[e.id].attempts < c.maxRetries then
        m.Some? && e.id !in Ids(s.queue) && Step(c, s, e).queue == s.queue + [m.value] && m.value.id == e.id
      else Step(c, s, e).queue == s.queue
  {
    m := None;
    if e.id in s.inFlight {
      InFlightIsElsewhereNot(s, e.id);
      var counted := s.inFlight[e.id].(attempts := s.inFlight[e.id].attempts + 1);
      m := Some(counted.(availableAt := RetryAt(c, e.now, counted.attempts)));
    }
  }

  lemma NackEnters(c: Config, events: seq<Event>, e: Event, s: State, id: string)
    requires s == Run(c, Initial, events) && e.Nack? && Tallied(s, e.id, Rejections(c, events, e.id))
    ensures EntersNow(c, events, e, id)
       <==> id == e.id && id in s.inFlight && s.inFlight[id].attempts < c.maxRetries
  {
  }

  lemma NackKeepsOrder(c: Config, events: seq<Event>, e: Event, s: State)
    requires s == Run(c, Initial, events) && Inv(c, s) && e.Nack? && InOrderOfEntry(c, events, s.queue)
    requires Tallied(s, e.id, Rejections(c, events, e.id))
    ensures InOrderOfEntry(c, events + [e], Step(c, s, e).queue)
  {
    var m := NackQueue(c, s, e);
    forall id ensures EntersNow(c, events, e, id)
                 <==> id == e.id && id in s.inFlight && s.inFlight[id].attempts < c.maxRetries
    {
      NackEnters(c, events, e, s, id);
    }
    if e.id in s.inFlight && s.inFlight[e.id].attempts < c.maxRetries {
      JoinsInOrder(c, events, e, s.queue, m.value);
    } else {
      SameOrder(c, events, e, s.queue);
    }
  }

  lemma FireKeepsOrder(c: Config, events: seq<Event>, e: Event, s: State)
    requires s == Run(c, Initial, events) && Inv(c, s) && e.Fire? && InOrderOfEntry(c, events, s.queue)
    ensures InOrderOfEntry(c, events + [e], Step(c, s, e).queue)
  {
    var id := e.timer.id;
    if id in s.inFlight {
      InFlightIsElsewhereNot(s, id);
      assert EntersNow(c, events, e, id);
      JoinsInOrder(c, events, e, s.queue, s.inFlight[id]);
    } else {
      SameOrder(c, events, e, s.queue);
    }
  }

  lemma StepKeepsEntryOrder(c: Config, events: seq<Event>, e: Event)
    requires Feasible(c, Initial, events) && Enabled(Run(c, Initial, events), e)
    requires InOrderOfEntry(c, events, Run(c, Initial, events).queue)
    ensures InOrderOfEntry(c, events + [e], Step(c, Run(c, Initial, events), e).queue)
  {
    var s := Run(c, Initial, events);
    EveryRunConserves(c, events);
    match e
    case Enqueue(_, _, _, _) => EnqueueKeepsOrder(c, events, e, s);
    case Dequeue(_) => DequeueKeepsOrder(c, events, e, s);
    case Nack(id, _) =>
      AttemptsAreRejections(c, events, id);
      NackKeepsOrder(c, events, e, s);
    case Fire(_, _) => FireKeepsOrder(c, events, e, s);
    case Ack(_, _) => SameOrder(c, events, e, s.queue);
  }

  /** In every run the queue holds its messages in the order in which they last entered it. */
  lemma {:induction false} QueueIsInOrder(c: Config, events: seq<Event>)
    requires Feasible(c, Initial, events)
    ensures InOrderOfEntry(c, events, Run(c, Initial, events).queue)
  {
    if events != [] {
      var rest := events[..|events| - 1];
      QueueIsInOrder(c, rest);
      StepKeepsEntryOrder(c, rest, events[|rest|]);
      assert rest + [events[|rest|]] == events;
    }
  }

  ghost predicate SomeAvailable(s: State, now: int) {
    exists i :: 0 <= i < |s.queue| && s.queue[i].availableAt <= now
  }

  /** Available, and in the queue longer than any other message available. */
  ghost predicate OldestAvailable(c: Config, events: seq<Event>, queue: seq<Message>, now: int, d: Message) {
    && d in queue && d.availableAt <= now
    && forall m :: m in queue && m != d && m.availableAt <= now ==>
         EnteredAt(c, events, d.id) < EnteredAt(c, events, m.id)
  }

  lemma FirstIsOldest(c: Config, events: seq<Event>, queue: seq<Message>, now: int)
    requires InOrderOfEntry(c, events, queue) && FirstAvailable(queue, now) < |queue|
    ensures OldestAvailable(c, events, queue, now, queue[FirstAvailable(queue, now)])
  {
    var i := FirstAvailable(queue, now);
    forall m | m in queue && m != queue[i] && m.availableAt <= now
      ensures EnteredAt(c, events, queue[i].id) < EnteredAt(c, events, m.id)
    {
      var j :| 0 <= j < |queue| && queue[j] == m;
      assert !(j < i);
    }
  }

  lemma DeliveryTakesOne(c: Config, s: State, now: int)
    requires Conserved(s) && FirstAvailable(s.queue, now) < |s.queue|
    ensures
      var d := s.queue[FirstAvailable(s.queue, now)];
      d.id !in s.inFlight && Step(c, s, Dequeue(now)).inFlight == s.inFlight[d.id := d]
  {
    DequeueFrom(c, s, now);
    QueuedIsNotInFlight(s, FirstAvailable(s.queue, now));
  }

  /**
   * In every run a dequeue delivers something exactly when some message is available, and then the one that has been
   * in the queue longest of all those available.
   */
  lemma OldestAvailableFirst(c: Config, events: seq<Event>, now: int)
    requires Feasible(c, Initial, events)
    ensures
      var s := Run(c, Initial, events);
      var s' := Step(c, s, Dequeue(now));
      if !SomeAvailable(s, now) then s' == s.(now := now)
      else exists d :: OldestAvailable(c, events, s.queue, now, d)
                       && d.id !in s.inFlight && s'.inFlight == s.inFlight[d.id := d]
  {
    var s := Run(c, Initial, events);
    EveryRunConserves(c, events);
    QueueIsInOrder(c, events);
    if FirstAvailable(s.queue, now) < |s.queue| {
      FirstIsOldest(c, events, s.queue, now);
      DeliveryTakesOne(c, s, now);
    } else {
      DequeueFrom(c, s, now);
    }
  }

  // ---- When a message may be delivered ----------------------------------------

  /** When `id` may be delivered: its delay after it was enqueued, or its retry delay after its last rejection. */
  function DueAt(c: Config, events: seq<Event>, id: string): int {
    if events == [] then 0
    else
      var rest, e := events[..|events| - 1], events[|events| - 1];
      NextDue(c, Run(c, Initial, rest), e, id, DueAt(c, rest, id), Rejections(c, rest, id))
  }

  function NextDue(c: Config, s: State, e: Event, id: string, due: int, rejections: nat): int {
    if e.Enqueue? && e.id == id then e.now + e.delayMs
    else if Rejects(s, e, id) then RetryAt(c, e.now, rejections + 1)
    else due
  }

  ghost predicate AllDue(messages: seq<Message>, id: string, due: int) {
    forall i :: 0 <= i < |messages| && messages[i].id == id ==> messages[i].availableAt == due
  }

  ghost predicate Scheduled(s: State, id: string, due: int) {
    AllDue(s.queue, id, due) && (id in s.inFlight ==> s.inFlight[id].availableAt == due)
  }

  lemma AppendDue(messages: seq<Message>, m: Message, id: string, due: int)
    requires AllDue(messages, id, due) && (m.id == id ==> m.availableAt == due)
    ensures AllDue(messages + [m], id, due)
  {
  }

  lemma NotHeldDue(messages: seq<Message>, id: string, due: int)
    requires id !in Ids(messages)
    ensures AllDue(messages, id, due)
  {
    forall i | 0 <= i < |messages| ensures messages[i].id != id { IdsMember(messages, messages[i]); }
  }

  lemma RejectedDue(c: Config, s: State, id: string, n: nat)
    requires id in s.inFlight && s.inFlight[id].id == id && s.inFlight[id].attempts == n && id !in Ids(s.queue)
    ensures Scheduled(DoNack(c, s, id), id, RetryAt(c, s.now, n + 1))
  {
    var due := RetryAt(c, s.now, n + 1);
    NotHeldDue(s.queue, id, due);
    AppendDue(s.queue, s.inFlight[id].(attempts := n + 1, availableAt := due), id, due);
  }

  lemma EnqueuedDue(c: Config, s: State, e: Event)
    requires Conserved(s) && Enabled(s, e) && e.Enqueue?
    ensures Scheduled(Step(c, s, e), e.id, e.now + e.delayMs)
  {
    UnknownIsNowhere(s, e.id);
    NotHeldDue(s.queue, e.id, e.now + e.delayMs);
    AppendDue(s.queue, Message(e.id, e.payload, 0, e.now, e.now + e.delayMs), e.id, e.now + e.delayMs);
  }

  lemma OtherNackDue(c: Config, s: State, other: string, id: string, due: int)
    requires AttemptsBounded(c, s) && Scheduled(s, id, due) && other != id
    ensures Scheduled(DoNack(c, s, other), id, due)
  {
  }

  lemma DequeueDue(c: Config, s: State, id: string, due: int)
    requires Scheduled(s, id, due)
    ensures Scheduled(DoDequeue(c, s), id, due)
  {
  }

  lemma FireDue(s: State, t: Timer, id: string, due: int)
    requires Scheduled(s, id, due) && (t.id in s.inFlight ==> s.inFlight[t.id].id == t.id)
    ensures Scheduled(DoFire(s, t), id, due)
  {
    if t.id in s.inFlight { AppendDue(s.queue, s.inFlight[t.id], id, due); }
  }

  /** A step that neither enqueues nor rejects the message leaves its due time alone. */
  lemma OtherStepDue(c: Config, s: State, e: Event, id: string, due: int)
    requires Inv(c, s) && Scheduled(s, id, due) && !Rejects(s, e, id) && !(e.Enqueue? && e.id == id)
    ensures Scheduled(Step(c, s, e), id, due)
  {
    var t := s.(now := e.now);
    match e
    case Nack(other, _) => if other != id { OtherNackDue(c, t, other, id, due); }
    case Dequeue(_) => DequeueDue(c, t, id, due);
    case Fire(timer, _) => FireDue(t, timer, id, due);
    case Enqueue(other, payload, delayMs, now) =>
      AppendDue(s.queue, Message(other, payload, 0, now, now + delayMs), id, due);
    case Ack(_, _) =>
  }

  lemma StepDue(c: Config, s: State, e: Event, id: string, due: int, n: nat)
    requires Inv(c, s) && Enabled(s, e) && Scheduled(s, id, due) && Tallied(s, id, n)
    ensures Scheduled(Step(c, s, e), id, NextDue(c, s, e, id, due, n))
  {
    if e.Enqueue? && e.id == id {
      EnqueuedDue(c, s, e);
    } else if Rejects(s, e, id) {
      InFlightIsElsewhereNot(s, id);
      RejectedDue(c, s.(now := e.now), id, n);
    } else {
      OtherStepDue(c, s, e, id, due);
    }
  }

  lemma NextStepDue(c: Config, events: seq<Event>, e: Event, id: string, due: int)
    requires Feasible(c, Initial, events) && Enabled(Run(c, Initial, events), e)
    requires Scheduled(Run(c, Initial, events), id, due)
    ensures
      var s := Run(c, Initial, events);
      Scheduled(Step(c, s, e), id, NextDue(c, s, e, id, due, Rejections(c, events, id)))
  {
    EveryRunConserves(c, events);
    AttemptsAreRejections(c, events, id);
    StepDue(c, Run(c, Initial, events), e, id, due, Rejections(c, events, id));
  }

  /** In every run, a message queued or in flight is available from exactly its due time. */
  lemma {:induction false} AvailableWhenDue(c: Config, events: seq<Event>, id: string)
    requires Feasible(c, Initial, events)
    ensures Scheduled(Run(c, Initial, events), id, DueAt(c, events, id))
  {
    if events != [] {
      var rest := events[..|events| - 1];
      AvailableWhenDue(c, rest, id);
      NextStepDue(c, rest, events[|rest|], id, DueAt(c, rest, id));
    }
  }

  /** Nothing is delivered before its delay, or the retry delay of its last rejection, has passed. */
  lemma NothingDeliveredEarly(c: Config, events: seq<Event>, id: string, now: int)
    requires Feasible(c, Initial, events)
    requires var s := Run(c, Initial, events); id !in s.inFlight && id in Step(c, s, Dequeue(now)).inFlight
    ensures now >= DueAt(c, events, id)
  {
    AvailableWhenDue(c, events, id);
  }

  // ---- How long a delivered message stays hidden ------------------------------

  /** Nobody acknowledges or rejects `id`, and everything happens before `until`. */
  ghost predicate LeftAlone(events: seq<Event>, id: string, until: int) {
    forall i :: 0 <= i < |events| ==>
      events[i].now < until && ((events[i].Ack? || events[i].Nack?) ==> events[i].id != id)
  }

  /** Left alone, the message stays in flight until its visibility timeout. */
  ghost predicate StaysHidden(c: Config, s: State, id: string)
    requires id in s.latest
  {
    forall events :: Feasible(c, s, events) && LeftAlone(events, id, s.latest[id].dueAt) ==>
      id in Run(c, s, events).inFlight
  }

  /** Left alone, the message may be back in the queue before that. */
  ghost predicate ReturnsEarly(c: Config, s: State, id: string)
    requires id in s.latest
  {
    exists events :: Feasible(c, s, events) && LeftAlone(events, id, s.latest[id].dueAt)
      && id in Ids(Run(c, s, events).queue)
  }

  /** No timer left over from an earlier delivery is due before the latest one. */
  ghost predicate NoStaleTimer(s: State, id: string)
    requires id in s.latest
  {
    forall t :: t in s.timers && t.id == id ==> t.dueAt >= s.latest[id].dueAt
  }

  lemma {:induction false} HiddenWithoutStaleTimer(c: Config, s: State, id: string, events: seq<Event>)
    requires Inv(c, s) && id in s.inFlight && NoStaleTimer(s, id)
    requires Feasible(c, s, events) && LeftAlone(events, id, s.latest[id].dueAt)
    ensures HiddenUntil(Run(c, s, events), id, s.latest[id])
  {
    if events != [] {
      var rest, e := events[..|events| - 1], events[|events| - 1];
      assert LeftAlone(rest, id, s.latest[id].dueAt) by { assert forall i :: 0 <= i < |rest| ==> rest[i] == events[i]; }
      HiddenWithoutStaleTimer(c, s, id, rest);
      RunKeepsInv(c, s, rest);
      StillHidden(c, Run(c, s, rest), id, e);
    }
  }

  ghost predicate HiddenUntil(s: State, id: string, latest: Timer) {
    id in s.inFlight && id in s.latest && s.latest[id] == latest && NoStaleTimer(s, id)
  }

  lemma HiddenDespiteDequeue(c: Config, s: State, id: string, now: int)
    requires Inv(c, s) && id in s.latest && HiddenUntil(s, id, s.latest[id]) && now < s.latest[id].dueAt
    ensures HiddenUntil(Step(c, s, Dequeue(now)), id, s.latest[id])
  {
    var i := FirstAvailable(s.queue, now);
    DequeueFrom(c, s, now);
    if i < |s.queue| { QueuedIsNotInFlight(s, i); }
  }

  lemma HiddenDespiteFire(c: Config, s: State, id: string, t: Timer, now: int)
    requires id in s.latest && HiddenUntil(s, id, s.latest[id])
    requires Enabled(s, Fire(t, now)) && now < s.latest[id].dueAt
    ensures HiddenUntil(Step(c, s, Fire(t, now)), id, s.latest[id])
  {
    FireFrom(c, s, t, now);
  }

  lemma HiddenDespiteNack(c: Config, s: State, id: string, other: string, now: int)
    requires id in s.latest && HiddenUntil(s, id, s.latest[id]) && other != id
    ensures HiddenUntil(Step(c, s, Nack(other, now)), id, s.latest[id])
  {
  }

  lemma StillHidden(c: Config, s: State, id: string, e: Event)
    requires Inv(c, s) && id in s.inFlight && NoStaleTimer(s, id) && Enabled(s, e)
    requires e.now < s.latest[id].dueAt && ((e.Ack? || e.Nack?) ==> e.id != id)
    ensures HiddenUntil(Step(c, s, e), id, s.latest[id])
  {
    assert HiddenUntil(s, id, s.latest[id]);
    match e
    case Dequeue(now) => HiddenDespiteDequeue(c, s, id, now);
    case Fire(t, now) => HiddenDespiteFire(c, s, id, t, now);
    case Nack(other, now) => HiddenDespiteNack(c, s, id, other, now);
    case Enqueue(_, _, _, _) =>
    case Ack(_, _) =>
  }

  /**
   * A delivered message is hidden for its full visibility timeout exactly when no timer of an earlier
   * delivery of it is due sooner.
   */
  lemma HiddenExactly(c: Config, s: State, id: string)
    requires Inv(c, s) && id in s.inFlight && s.now < s.latest[id].dueAt
    ensures StaysHidden(c, s, id) <==> NoStaleTimer(s, id)
    ensures ReturnsEarly(c, s, id) <==> !NoStaleTimer(s, id)
  {
    if NoStaleTimer(s, id) {
      forall events | Feasible(c, s, events) && LeftAlone(events, id, s.latest[id].dueAt)
        ensures id in Run(c, s, events).inFlight && id !in Ids(Run(c, s, events).queue)
      {
        HiddenWithoutStaleTimer(c, s, id, events);
        RunKeepsInv(c, s, events);
        InFlightIsElsewhereNot(Run(c, s, events), id);
      }
    } else {
      var t :| t in s.timers && t.id == id && t.dueAt < s.latest[id].dueAt;
      var e := Fire(t, Max(s.now, t.dueAt));
      assert Run(c, s, []) == s && Feasible(c, s, []);
      RunAppend(c, s, [], e);
      assert [] + [e] == [e] && LeftAlone([e], id, s.latest[id].dueAt);
      FiringReturns(c, s, t, e.now);
      assert id !in Run(c, s, [e]).inFlight && id in Ids(Run(c, s, [e]).queue);
    }
  }

  /** A run that leaves such a timer behind: deliver and reject. */
  lemma StaleTimerArises(p: Payload)
    ensures
      var c := Config(3, 1, 30);
      var events := [Enqueue("m", p, 0, 0), Dequeue(0), Nack("m", 1)];
      Feasible(c, Initial, events) &&
      Run(c, Initial, events) ==
        State([Message("m", p, 1, 0, 2)], map[], [], {Timer(0, "m", 30)}, {}, {"m"}, 1,
              map["m" := Timer(0, "m", 30)], 1)
  {
    var c, m := Config(3, 1, 30), Message("m", p, 0, 0, 0);
    RunAppend(c, Initial, [], Enqueue("m", p, 0, 0));
    assert [] + [Enqueue("m", p, 0, 0)] == [Enqueue("m", p, 0, 0)];
    assert Run(c, Initial, [Enqueue("m", p, 0, 0)]) == State([m], map[], [], {}, {}, {"m"}, 0, map[], 0);
    RunAppend(c, Initial, [Enqueue("m", p, 0, 0)], Dequeue(0));
    assert [Enqueue("m", p, 0, 0)] + [Dequeue(0)] == [Enqueue("m", p, 0, 0), Dequeue(0)];
    RunAppend(c, Initial, [Enqueue("m", p, 0, 0), Dequeue(0)], Nack("m", 1));
    assert [Enqueue("m", p, 0, 0), Dequeue(0)] + [Nack("m", 1)] == [Enqueue("m", p, 0, 0), Dequeue(0), Nack("m", 1)];
  }

  /** Delivered again from such a state, a message is back in the queue before its new timeout is up. */
  lemma StaleTimerCutsShort(c: Config, s: State, t: Timer, now: int)
    requires Inv(c, s) && s.now <= now && t in s.timers && t.dueAt < now + c.visibilityTimeoutMs
    requires FirstAvailable(s.queue, now) < |s.queue| && s.queue[FirstAvailable(s.queue, now)].id == t.id
    requires c.visibilityTimeoutMs > 0
    ensures
      var redelivered := Step(c, s, Dequeue(now));
      var e := Fire(t, Max(now, t.dueAt));
      && t.id in redelivered.inFlight && t.id in redelivered.latest && Enabled(redelivered, e)
      && e.now < redelivered.latest[t.id].dueAt && t.id !in Step(c, redelivered, e).inFlight
      && t.id in Ids(Step(c, redelivered, e).queue)
  {
    var redelivered, e := Step(c, s, Dequeue(now)), Fire(t, Max(now, t.dueAt));
    DequeueFrom(c, s, now);
    StepKeepsInv(c, s, Dequeue(now));
    FiringReturns(c, redelivered, t, e.now);
  }

  /** Delivered, rejected, delivered again at time 2 for 30 ms, and back in the queue at time 30. */
  lemma RedeliveryCutShort(p: Payload)
    ensures
      var c := Config(3, 1, 30);
      var s := Run(c, Initial, [Enqueue("m", p, 0, 0), Dequeue(0), Nack("m", 1)]);
      var redelivered, e := Step(c, s, Dequeue(2)), Fire(Timer(0, "m", 30), 30);
      && Enabled(s, Dequeue(2)) && "m" in redelivered.inFlight
      && "m" in redelivered.latest && redelivered.latest["m"].dueAt == 32
      && Enabled(redelivered, e)
      && "m" !in Step(c, redelivered, e).inFlight && "m" in Ids(Step(c, redelivered, e).queue)
  {
    StaleTimerArises(p);
    var c := Config(3, 1, 30);
    EveryRunConserves(c, [Enqueue("m", p, 0, 0), Dequeue(0), Nack("m", 1)]);
    var s := Run(c, Initial, [Enqueue("m", p, 0, 0), Dequeue(0), Nack("m", 1)]);
    assert s.queue[0].availableAt == 2;
    StaleTimerCutsShort(c, s, Timer(0, "m", 30), 2);
  }
}
