/**
 * The bulkhead as an event-driven machine. A call is offered in one segment and finishes in another;
 * the segment in which a call finishes also starts the call that waited longest.
 */
module Bulkhead {
  import opened Common

  /** One call of `execute`, told apart from every other call. */
  type Task(==, !new)

  type Value(==, !new)

  /** What the caller's promise settles with. */
  datatype Outcome = Resolved(value: Value) | Rejected(error: Value) | Refused

  datatype Config = Config(maxConcurrent: nat, maxQueue: nat)

  /** `active` and `queue` are the object's; the rest records history, in order. */
  datatype State = State(
    active: int,
    queue: seq<Task>,
    accepted: seq<Task>,
    started: seq<Task>,
    finished: seq<Task>,
    settled: map<Task, Outcome>)

  datatype Event =
    | Execute(task: Task)
    | Complete(task: Task, outcome: Outcome)

  const Initial := State(0, [], [], [], [], map[])

  // ---- The segments -----------------------------------------------------------

  function Start(s: State, t: Task): State {
    s.(active := s.active + 1, started := s.started + [t])
  }

  function Offer(c: Config, s: State, t: Task): State {
    if s.active < c.maxConcurrent then Start(s.(accepted := s.accepted + [t]), t)
    else if |s.queue| >= c.maxQueue then s.(settled := s.settled[t := Refused])
    else s.(queue := s.queue + [t], accepted := s.accepted + [t])
  }

  function Drain(c: Config, s: State): State {
    if s.queue == [] || s.active >= c.maxConcurrent then s
    else Start(s.(queue := s.queue[1..]), s.queue[0])
  }

  function Finish(c: Config, s: State, t: Task, o: Outcome): State {
    Drain(c, s.(active := s.active - 1, finished := s.finished + [t], settled := s.settled[t := o]))
  }

  function Step(c: Config, s: State, e: Event): State {
    match e
    case Execute(t) => Offer(c, s, t)
    case Complete(t, o) => Finish(c, s, t, o)
  }

  /** Calls are distinct; what completes has started and not yet completed. */
  predicate Enabled(s: State, e: Event) {
    match e
    case Execute(t) => t !in s.accepted && t !in s.settled
    case Complete(t, o) => t in s.started && t !in s.finished && !o.Refused?
  }

  function Run(c: Config, s: State, events: seq<Event>): State {
    if events == [] then s else Step(c, Run(c, s, events[..|events| - 1]), events[|events| - 1])
  }

  ghost predicate Feasible(c: Config, s: State, events: seq<Event>) {
    events == [] || (
      && Feasible(c, s, events[..|events| - 1])
      && Enabled(Run(c, s, events[..|events| - 1]), events[|events| - 1]))
  }

  // ---- The invariant ----------------------------------------------------------

  /** Calls start in the order they were accepted, each once; those accepted and not started wait in that order. */
  ghost predicate InOrder(s: State) {
    NoDuplicates(s.accepted) && s.accepted == s.started + s.queue
  }

  ghost predicate FinishedOnce(s: State) {
    NoDuplicates(s.finished) && forall t :: t in s.finished ==> t in s.started
  }

  ghost predicate Bounded(c: Config, s: State) {
    && s.active == |s.started| - |s.finished|
    && s.active <= c.maxConcurrent
    && |s.queue| <= c.maxQueue
    && (s.queue != [] ==> s.active == c.maxConcurrent)
  }

  /** A promise is settled exactly when its call has finished or was refused. */
  ghost predicate SettledRightly(s: State) {
    && (forall t :: t in s.finished ==> t in s.settled && !s.settled[t].Refused?)
    && (forall t :: t in s.settled && !s.settled[t].Refused? ==> t in s.finished)
    && (forall t :: t in s.settled && s.settled[t].Refused? ==> t !in s.accepted)
  }

  ghost predicate Inv(c: Config, s: State) {
    InOrder(s) && FinishedOnce(s) && Bounded(c, s) && SettledRightly(s)
  }

  lemma StartedIsAccepted(s: State, t: Task)
    requires InOrder(s)
    ensures t in s.accepted <==> t in s.started || t in s.queue
    ensures !(t in s.started && t in s.queue)
  {
    forall i, j | 0 <= i < |s.started| && 0 <= j < |s.queue| ensures s.started[i] != s.queue[j] {
      assert s.accepted[i] == s.started[i] && s.accepted[|s.started| + j] == s.queue[j];
    }
  }

  lemma {:induction false} FewerThan(some: seq<Task>, all: seq<Task>, other: Task)
    requires NoDuplicates(some) && NoDuplicates(all) && (forall t :: t in some ==> t in all)
    requires other in all && other !in some
    ensures |some| < |all|
  {
    var a, b := set t | t in some, set t | t in all;
    NoDuplicatesSize(some, a);
    NoDuplicatesSize(all, b);
    SubsetSize(a, b - {other});
  }

  lemma OfferKeepsInv(c: Config, s: State, t: Task)
    requires Inv(c, s) && Enabled(s, Execute(t))
    ensures Inv(c, Offer(c, s, t))
  {
    StartedIsAccepted(s, t);
    var s' := Offer(c, s, t);
    if s.active < c.maxConcurrent {
      assert s'.accepted == s'.started + s'.queue;
    } else if |s.queue| < c.maxQueue {
      assert s'.accepted == s'.started + s'.queue;
    }
  }

  lemma FinishKeepsOrder(c: Config, s: State, t: Task, o: Outcome)
    requires Inv(c, s) && Enabled(s, Complete(t, o))
    ensures InOrder(Finish(c, s, t, o)) && Bounded(c, Finish(c, s, t, o))
  {
    var s' := Finish(c, s, t, o);
    assert s'.accepted == s'.started + s'.queue;
    assert s.active >= 1 by {
      assert NoDuplicates(s.started) by {
        assert forall i :: 0 <= i < |s.started| ==> s.started[i] == s.accepted[i];
      }
      FewerThan(s.finished, s.started, t);
    }
  }

  lemma FinishKeepsInv(c: Config, s: State, t: Task, o: Outcome)
    requires Inv(c, s) && Enabled(s, Complete(t, o))
    ensures Inv(c, Finish(c, s, t, o))
  {
    FinishKeepsOrder(c, s, t, o);
    StartedIsAccepted(s, t);
    var s' := Finish(c, s, t, o);
    assert forall x :: x in s.started ==> x in s'.started;
  }

  lemma StepKeepsInv(c: Config, s: State, e: Event)
    requires Inv(c, s) && Enabled(s, e)
    ensures Inv(c, Step(c, s, e))
  {
    match e
    case Execute(t) => OfferKeepsInv(c, s, t);
    case Complete(t, o) => FinishKeepsInv(c, s, t, o);
  }

  /** However offers and completions interleave, the limits hold and no accepted call is lost, repeated or reordered. */
  lemma {:induction false} RunKeepsInv(c: Config, s: State, events: seq<Event>)
    requires Inv(c, s) && Feasible(c, s, events)
    ensures Inv(c, Run(c, s, events))
  {
    if events != [] {
      RunKeepsInv(c, s, events[..|events| - 1]);
      StepKeepsInv(c, Run(c, s, events[..|events| - 1]), events[|events| - 1]);
    }
  }

  // ---- What follows for every run ---------------------------------------------

  /** Each call offered is waiting, running, finished or refused, and only one of these. */
  ghost predicate InOnePlace(s: State, t: Task) {
    var waiting, running := t in s.queue, t in s.started && t !in s.finished;
    var finished, refused := t in s.finished, t in s.settled && s.settled[t].Refused?;
    && (t in s.accepted || t in s.settled <==> waiting || running || finished || refused)
    && !(waiting && (running || finished || refused))
    && !(running && (finished || refused))
    && !(finished && refused)
  }

  /** In every run, every call is in one place; an accepted call's promise is settled exactly when it has finished. */
  lemma EachCallInOnePlace(c: Config, events: seq<Event>, t: Task)
    requires Feasible(c, Initial, events)
    ensures
      var s := Run(c, Initial, events);
      InOnePlace(s, t) && (t in s.finished <==> t in s.accepted && t in s.settled)
  {
    RunKeepsInv(c, Initial, events);
    StartedIsAccepted(Run(c, Initial, events), t);
  }

  lemma StartedIsPrefix(c: Config, s: State)
    requires s.accepted == s.started + s.queue && Bounded(c, s)
    ensures s.started == s.accepted[..Min(|s.accepted|, |s.finished| + c.maxConcurrent)]
  {
    assert s.accepted[..|s.started|] == s.started;
  }

  /**
   * The calls started are the first so many accepted: as many as have finished, plus the concurrency limit,
   * or all of them if that is fewer.
   */
  lemma StartedExactly(c: Config, events: seq<Event>)
    requires Feasible(c, Initial, events)
    ensures
      var s := Run(c, Initial, events);
      s.started == s.accepted[..Min(|s.accepted|, |s.finished| + c.maxConcurrent)]
  {
    RunKeepsInv(c, Initial, events);
    StartedIsPrefix(c, Run(c, Initial, events));
  }

  /** A call is refused exactly when the calls accepted and not finished fill every slot and every place to wait. */
  lemma RefusedExactly(c: Config, events: seq<Event>, t: Task)
    requires Feasible(c, Initial, events) && Enabled(Run(c, Initial, events), Execute(t))
    ensures
      var s := Run(c, Initial, events);
      var s' := Offer(c, s, t);
      && |s.accepted| - |s.finished| <= c.maxConcurrent + c.maxQueue
      && (t !in s'.accepted <==> |s.accepted| - |s.finished| == c.maxConcurrent + c.maxQueue)
      && (t !in s'.accepted <==> t in s'.settled)
  {
    RunKeepsInv(c, Initial, events);
  }

  /** While any call waits, every slot is in use; so once no call is running, every accepted call has finished. */
  lemma IdleMeansDone(c: Config, events: seq<Event>)
    requires Feasible(c, Initial, events) && Run(c, Initial, events).active == 0 && c.maxConcurrent >= 1
    ensures forall t :: t in Run(c, Initial, events).accepted ==> t in Run(c, Initial, events).finished
  {
    RunKeepsInv(c, Initial, events);
    var s := Run(c, Initial, events);
    forall t | t in s.accepted ensures t in s.finished {
      StartedIsAccepted(s, t);
      if t !in s.finished {
        assert NoDuplicates(s.started) by {
          assert forall i :: 0 <= i < |s.started| ==> s.started[i] == s.accepted[i];
        }
        FewerThan(s.finished, s.started, t);
      }
    }
  }

  /** A settled promise keeps its outcome. */
  lemma {:induction false} OutcomeIsFinal(c: Config, s: State, events: seq<Event>, t: Task)
    requires Inv(c, s) && Feasible(c, s, events) && t in s.settled
    ensures t in Run(c, s, events).settled && Run(c, s, events).settled[t] == s.settled[t]
  {
    if events != [] {
      var rest := events[..|events| - 1];
      OutcomeIsFinal(c, s, rest, t);
      RunKeepsInv(c, s, rest);
      StartedIsAccepted(Run(c, s, rest), t);
    }
  }

  /** The outcome with which the call itself completed. */
  function OutcomeOf(events: seq<Event>, t: Task): Option<Outcome> {
    if events == [] then None
    else
      var e := events[|events| - 1];
      if e.Complete? && e.task == t then Some(e.outcome) else OutcomeOf(events[..|events| - 1], t)
  }

  /** In every run an accepted call's promise settles with the outcome of that very call, and only once it has one. */
  lemma {:induction false} SettledWithOwnOutcome(c: Config, events: seq<Event>, t: Task)
    requires Feasible(c, Initial, events)
    ensures
      var s, own := Run(c, Initial, events), OutcomeOf(events, t);
      && (t in s.finished <==> own.Some?)
      && (t in s.accepted && t in s.settled <==> own.Some?)
      && (own.Some? ==> t in s.settled && s.settled[t] == own.value)
  {
    RunKeepsInv(c, Initial, events);
    StartedIsAccepted(Run(c, Initial, events), t);
    if events != [] {
      var rest, e := events[..|events| - 1], events[|events| - 1];
      SettledWithOwnOutcome(c, rest, t);
      RunKeepsInv(c, Initial, rest);
      StartedIsAccepted(Run(c, Initial, rest), t);
    }
  }

  // ---- How long a queued call waits -------------------------------------------

  function Completions(events: seq<Event>): nat {
    if events == [] then 0
    else Completions(events[..|events| - 1]) + if events[|events| - 1].Complete? then 1 else 0
  }

  lemma {:induction false} WaitsItsTurn(c: Config, s: State, events: seq<Event>, k: nat)
    requires Inv(c, s) && Feasible(c, s, events) && k < |s.queue|
    ensures
      var s', done := Run(c, s, events), Completions(events);
      if done <= k then |s'.queue| > k - done && s'.queue[k - done] == s.queue[k]
      else s.queue[k] in s'.started
  {
    if events != [] {
      var rest, e := events[..|events| - 1], events[|events| - 1];
      WaitsItsTurn(c, s, rest, k);
      RunKeepsInv(c, s, rest);
      var done := Completions(rest);
      MovesUp(c, Run(c, s, rest), e, if done <= k then k - done else 0, s.queue[k]);
    }
  }

  /** An offer leaves the queue's positions alone, a completion moves every call up by one. */
  lemma MovesUp(c: Config, s: State, e: Event, k: nat, t: Task)
    requires Inv(c, s) && Enabled(s, e)
    ensures t in s.started ==> t in Step(c, s, e).started
    ensures k < |s.queue| && s.queue[k] == t ==>
      var s', ahead := Step(c, s, e), if e.Complete? then k - 1 else k;
      if ahead >= 0 then ahead < |s'.queue| && s'.queue[ahead] == t else t in s'.started
  {
    if e.Complete? { assert s.queue != [] ==> s.active == c.maxConcurrent; }
  }

  /** The call at queue position `k` has started exactly when `k + 1` further calls have completed. */
  lemma StartsAfterExactly(c: Config, s: State, events: seq<Event>, k: nat)
    requires Inv(c, s) && Feasible(c, s, events) && k < |s.queue|
    ensures s.queue[k] in Run(c, s, events).started <==> Completions(events) >= k + 1
  {
    WaitsItsTurn(c, s, events, k);
    RunKeepsInv(c, s, events);
    StartedIsAccepted(Run(c, s, events), s.queue[k]);
  }

  // ---- The bulkhead object ----------------------------------------------------

  class Bulkhead {
    const config: Config
    var active: int
    var queue: seq<Task>
    ghost var accepted: seq<Task>
    ghost var started: seq<Task>
    ghost var finished: seq<Task>
    ghost var settled: map<Task, Outcome>

    ghost function View(): State
      reads this
    {
      State(active, queue, accepted, started, finished, settled)
    }

    ghost predicate Valid()
      reads this
    {
      Inv(config, View())
    }

    constructor (config: Config)
      ensures Valid() && View() == Initial && this.config == config
    {
      this.config := config;
      active, queue, accepted, started, finished, settled := 0, [], [], [], [], map[];
    }

    method Execute(task: Task) returns (admitted: bool)
      requires Valid() && Enabled(View(), Event.Execute(task))
      modifies this
      ensures Valid() && View() == Step(config, old(View()), Event.Execute(task))
      ensures admitted <==> task in accepted
    {
      StepKeepsInv(config, View(), Event.Execute(task));
      if active < config.maxConcurrent {
        accepted := accepted + [task];
        RunTask(task);
        return true;
      }
      if |queue| >= config.maxQueue {
        settled := settled[task := Refused];
        return false;
      }
      queue := queue + [task];
      accepted := accepted + [task];
      admitted := true;
    }

    /** `run` up to the guarded call. */
    method RunTask(task: Task)
      modifies `active, `started
      ensures View() == Start(old(View()), task)
    {
      active := active + 1;
      started := started + [task];
    }

    /** The rest of `run`, once the guarded call has settled either way. */
    method Complete(task: Task, outcome: Outcome)
      requires Valid() && Enabled(View(), Event.Complete(task, outcome))
      modifies this
      ensures Valid() && View() == Step(config, old(View()), Event.Complete(task, outcome))
    {
      StepKeepsInv(config, View(), Event.Complete(task, outcome));
      finished := finished + [task];
      settled := settled[task := outcome];
      active := active - 1;
      DrainQueue();
    }

    method DrainQueue()
      modifies `active, `queue, `started
      ensures View() == Drain(config, old(View()))
    {
      if |queue| == 0 || active >= config.maxConcurrent { return; }
      var next := queue[0];
      queue := queue[1..];
      RunTask(next);
    }
  }
}
