/** The queue object over shared, mutable message objects; pending timer callbacks hold references to them. */
module MessageQueueObject {
  import M = MessageQueue

  class QueuedMessage {
    const id: string
    const payload: M.Payload
    const createdAt: int
    var attempts: nat
    var availableAt: int

    function View(): M.Message
      reads this
    {
      M.Message(id, payload, attempts, createdAt, availableAt)
    }

    constructor (id: string, payload: M.Payload, createdAt: int, availableAt: int)
      ensures View() == M.Message(id, payload, 0, createdAt, availableAt)
    {
      this.id, this.payload, this.createdAt, this.availableAt, attempts := id, payload, createdAt, availableAt, 0;
    }
  }

  /** A scheduled visibility callback. */
  datatype Alarm = Alarm(message: QueuedMessage, dueAt: int)

  /** The objects show these values, in this order. */
  ghost predicate Listed(messages: seq<QueuedMessage>, viewed: seq<M.Message>)
    reads messages
  {
    |messages| == |viewed| && forall i :: 0 <= i < |messages| ==> messages[i].View() == viewed[i]
  }

  ghost predicate Keyed(messages: map<string, QueuedMessage>, viewed: map<string, M.Message>)
    reads set id | id in messages :: messages[id]
  {
    messages.Keys == viewed.Keys &&
    forall id :: id in messages ==> messages[id].id == id && messages[id].View() == viewed[id]
  }

  ghost predicate Pending(alarms: map<nat, Alarm>, deliveries: nat, timers: set<M.Timer>) {
    && (forall d :: d in alarms ==> d < deliveries && ShownAlarm(alarms, d) in timers)
    && (forall t :: t in timers ==> t.delivery in alarms && ShownAlarm(alarms, t.delivery) == t)
  }

  ghost function ShownAlarm(alarms: map<nat, Alarm>, delivery: nat): M.Timer
    requires delivery in alarms
  {
    M.Timer(delivery, alarms[delivery].message.id, alarms[delivery].dueAt)
  }

  lemma ListedWithout(messages: seq<QueuedMessage>, viewed: seq<M.Message>, i: nat)
    requires Listed(messages, viewed) && i < |messages|
    ensures Listed(messages[..i] + messages[i + 1..], viewed[..i] + viewed[i + 1..])
  {
  }

  lemma KeyedWith(messages: map<string, QueuedMessage>, viewed: map<string, M.Message>, m: QueuedMessage)
    requires Keyed(messages, viewed)
    ensures Keyed(messages[m.id := m], viewed[m.id := m.View()])
  {
  }

  lemma PendingWith(alarms: map<nat, Alarm>, n: nat, timers: set<M.Timer>, a: Alarm)
    requires Pending(alarms, n, timers)
    ensures Pending(alarms[n := a], n + 1, timers + {M.Timer(n, a.message.id, a.dueAt)})
  {
    var alarms' := alarms[n := a];
    assert forall d :: d in alarms ==> ShownAlarm(alarms', d) == ShownAlarm(alarms, d);
  }

  class MessageQueue {
    const config: M.Config
    var queue: seq<QueuedMessage>
    var inFlight: map<string, QueuedMessage>
    var deadLetterQueue: seq<QueuedMessage>
    var alarms: map<nat, Alarm>                // by number of the delivery that set them
    var deliveries: nat
    ghost var view: M.State                    // the abstract state
    ghost var Repr: set<QueuedMessage>         // every message ever enqueued

    /** The objects show the abstract state, which is one the queue can get into. */
    ghost predicate Valid()
      reads this, Repr
    {
      Linked() && M.Inv(config, view)
    }

    ghost predicate Linked()
      reads this, Repr
    {
      && Owned()
      && Listed(queue, view.queue)
      && Listed(deadLetterQueue, view.dead)
      && Keyed(inFlight, view.inFlight)
      && deliveries == view.deliveries
      && Pending(alarms, deliveries, view.timers)
    }

    /** Every reference is to a message once enqueued here, and identifiers tell those apart. */
    ghost predicate Owned()
      reads this
    {
      && (forall i :: 0 <= i < |queue| ==> queue[i] in Repr)
      && (forall i :: 0 <= i < |deadLetterQueue| ==> deadLetterQueue[i] in Repr)
      && (forall id :: id in inFlight ==> inFlight[id] in Repr)
      && (forall d :: d in alarms ==> alarms[d].message in Repr)
      && (forall m :: m in Repr ==> m.id in view.known)
      && (forall m, n :: m in Repr && n in Repr && m.id == n.id ==> m == n)
    }

    constructor (config: M.Config)
      ensures Valid() && view == M.Initial && this.config == config && fresh(Repr)
    {
      this.config := config;
      queue, inFlight, deadLetterQueue, alarms, deliveries := [], map[], [], map[], 0;
      view, Repr := M.Initial, {};
    }

    method Enqueue(id: string, payload: M.Payload, delayMs: int, time: int) returns (message: QueuedMessage)
      requires Valid() && M.Enabled(view, M.Enqueue(id, payload, delayMs, time))
      modifies this
      ensures view == M.Step(config, old(view), M.Enqueue(id, payload, delayMs, time))
      ensures Valid() && fresh(message) && Repr == old(Repr) + {message}
      ensures message.View() == view.queue[|view.queue| - 1]
    {
      M.StepKeepsInv(config, view, M.Enqueue(id, payload, delayMs, time));
      message := Add(id, payload, delayMs, time);
    }

    method Add(id: string, payload: M.Payload, delayMs: int, time: int) returns (message: QueuedMessage)
      requires Linked() && id !in view.known
      modifies this
      ensures view == M.Step(config, old(view), M.Enqueue(id, payload, delayMs, time))
      ensures Linked() && fresh(message) && Repr == old(Repr) + {message}
      ensures message.View() == view.queue[|view.queue| - 1]
    {
      message := new QueuedMessage(id, payload, time, time + delayMs);
      queue := queue + [message];
      Repr := Repr + {message};
      view := M.Step(config, view, M.Enqueue(id, payload, delayMs, time));
    }

    /** The index of the first available message, or -1. */
    method FindAvailable(time: int) returns (idx: int)
      requires Linked()
      ensures idx == (var i := M.FirstAvailable(view.queue, time); if i == |queue| then -1 else i)
    {
      for i := 0 to |queue|
        invariant forall j :: 0 <= j < i ==> queue[j].availableAt > time
      {
        if queue[i].availableAt <= time { return i; }
      }
      idx := -1;
    }

    method Dequeue(time: int) returns (message: QueuedMessage?)
      requires Valid() && view.now <= time
      modifies this
      ensures view == M.Step(config, old(view), M.Dequeue(time))
      ensures Valid() && Repr == old(Repr)
      ensures message == null <==> M.FirstAvailable(old(view).queue, time) == |old(view).queue|
      ensures message != null ==>
        message.availableAt <= time && message.id in inFlight && inFlight[message.id] == message
    {
      M.StepKeepsInv(config, view, M.Dequeue(time));
      message := TakeNext(time);
    }

    method TakeNext(time: int) returns (message: QueuedMessage?)
      requires Linked()
      modifies `queue, `inFlight, `alarms, `deliveries, `view
      ensures view == M.Step(config, old(view), M.Dequeue(time))
      ensures Linked()
      ensures message == null <==> M.FirstAvailable(old(view).queue, time) == |old(view).queue|
      ensures message != null ==>
        message.availableAt <= time && message.id in inFlight && inFlight[message.id] == message
    {
      M.DequeueFrom(config, view, time);
      var idx := FindAvailable(time);
      Tick(time);
      if idx == -1 { return null; }
      message := Deliver(idx, time);
    }

    ghost method Tick(time: int)
      requires Linked()
      modifies `view
      ensures Linked() && view == old(view).(now := time)
    {
      view := view.(now := time);
    }

    method Deliver(idx: nat, time: int) returns (message: QueuedMessage)
      requires Linked() && idx < |queue| && view.now == time
      modifies `queue, `inFlight, `alarms, `deliveries, `view
      ensures Linked() && view == M.Delivered(config, old(view), idx)
      ensures message == old(queue[idx]) && message.id in inFlight && inFlight[message.id] == message
    {
      message := TakeOut(idx);
      SetAlarm(message, time + config.visibilityTimeoutMs);
    }

    method TakeOut(idx: nat) returns (message: QueuedMessage)
      requires Linked() && idx < |queue|
      modifies `queue, `inFlight, `view
      ensures Linked() && view == M.TakenOut(old(view), idx)
      ensures message == old(queue[idx]) && inFlight == old(inFlight)[message.id := message]
    {
      message := queue[idx];
      ListedWithout(queue, view.queue, idx);
      KeyedWith(inFlight, view.inFlight, message);
      queue := queue[..idx] + queue[idx + 1..];
      inFlight := inFlight[message.id := message];
      view := M.TakenOut(view, idx);
    }

    method SetAlarm(message: QueuedMessage, dueAt: int)
      requires Linked() && message in Repr
      modifies `alarms, `deliveries, `view
      ensures Linked() && view == M.WithTimer(old(view), message.id, dueAt)
    {
      PendingWith(alarms, deliveries, view.timers, Alarm(message, dueAt));
      alarms := alarms[deliveries := Alarm(message, dueAt)];
      deliveries := deliveries + 1;
      view := M.WithTimer(view, message.id, dueAt);
    }

    method Ack(id: string, time: int)
      requires Valid() && view.now <= time
      modifies `inFlight, `view
      ensures view == M.Step(config, old(view), M.Ack(id, time))
      ensures Valid() && Repr == old(Repr)
    {
      M.StepKeepsInv(config, view, M.Ack(id, time));
      Forget(id, time);
    }

    method Forget(id: string, time: int)
      requires Linked()
      modifies `inFlight, `view
      ensures view == M.Step(config, old(view), M.Ack(id, time))
      ensures Linked()
    {
      inFlight := inFlight - {id};
      view := M.Step(config, view, M.Ack(id, time));
    }

    /** A message in flight is listed neither in the queue nor among the dead. */
    lemma NotListed(id: string)
      requires Valid() && id in inFlight
      ensures inFlight[id] !in queue && inFlight[id] !in deadLetterQueue
    {
      M.InFlightIsElsewhereNot(view, id);
      forall i | 0 <= i < |queue| ensures queue[i] != inFlight[id] { M.IdsMember(view.queue, view.queue[i]); }
      forall i | 0 <= i < |deadLetterQueue| ensures deadLetterQueue[i] != inFlight[id] {
        M.IdsMember(view.dead, view.dead[i]);
      }
    }

    method Remove(id: string) returns (message: QueuedMessage)
      requires Linked() && id in inFlight
      modifies `inFlight, `view
      ensures Linked() && inFlight == old(inFlight) - {id} && message == old(inFlight[id])
      ensures view == old(view).(inFlight := old(view).inFlight - {id})
    {
      message := inFlight[id];
      inFlight := inFlight - {id};
      view := view.(inFlight := view.inFlight - {id});
    }

    method Push(message: QueuedMessage)
      requires Linked() && message in Repr
      modifies `queue, `view
      ensures Linked() && queue == old(queue) + [message]
      ensures view == old(view).(queue := old(view).queue + [message.View()])
    {
      queue := queue + [message];
      view := view.(queue := view.queue + [message.View()]);
    }

    method PushDead(message: QueuedMessage)
      requires Linked() && message in Repr
      modifies `deadLetterQueue, `view
      ensures Linked() && view == old(view).(dead := old(view).dead + [message.View()])
    {
      deadLetterQueue := deadLetterQueue + [message];
      view := view.(dead := view.dead + [message.View()]);
    }

    ghost predicate Loose(message: QueuedMessage)
      reads this
    {
      message !in queue && message !in deadLetterQueue && message.id !in inFlight
    }

    method CountAttempt(message: QueuedMessage)
      requires Linked() && message in Repr && Loose(message)
      modifies message
      ensures Linked() && message.View() == old(message.View()).(attempts := old(message.attempts) + 1)
    {
      message.attempts := message.attempts + 1;
    }

    method Reschedule(message: QueuedMessage, availableAt: int)
      requires Linked() && message in Repr && Loose(message)
      modifies message
      ensures Linked() && message.View() == old(message.View()).(availableAt := availableAt)
    {
      message.availableAt := availableAt;
    }

    method Nack(id: string, time: int)
      requires Valid() && view.now <= time
      modifies this, if id in inFlight then {inFlight[id]} else {}
      ensures view == M.Step(config, old(view), M.Nack(id, time))
      ensures Valid() && Repr == old(Repr)
    {
      M.StepKeepsInv(config, view, M.Nack(id, time));
      if id in inFlight { NotListed(id); }
      TakeBack(id, time);
    }

    method TakeBack(id: string, time: int)
      requires Linked() && (id in inFlight ==> inFlight[id] !in queue && inFlight[id] !in deadLetterQueue)
      modifies this, if id in inFlight then {inFlight[id]} else {}
      ensures view == M.Step(config, old(view), M.Nack(id, time))
      ensures Linked() && Repr == old(Repr)
    {
      Tick(time);
      if id in inFlight {
        var message := Remove(id);
        Reject(message, time);
      }
    }

    /** One more attempt is used up: to the dead letters if that was one too many, else back in the queue for later. */
    method Reject(message: QueuedMessage, time: int)
      requires Linked() && view.now == time && message in Repr && Loose(message)
      modifies `queue, `deadLetterQueue, `view, message
      ensures Linked() && view == M.Rejected(config, old(view), old(message.View()))
    {
      CountAttempt(message);
      if message.attempts > config.maxRetries {
        PushDead(message);
      } else {
        Reschedule(message, M.RetryAt(config, time, message.attempts));
        Push(message);
      }
    }

    /** The callback of one visibility timer: the message it captured goes back, if its id is still in flight. */
    method Fire(delivery: nat, time: int)
      requires Valid() && view.now <= time && delivery in alarms && alarms[delivery].dueAt <= time
      modifies this
      ensures view == M.Step(config, old(view), M.Fire(old(ShownAlarm(alarms, delivery)), time))
      ensures Valid() && Repr == old(Repr) && alarms == old(alarms) - {delivery}
      ensures Returned(old(alarms[delivery].message), old(queue), old(inFlight))
    {
      M.StepKeepsInv(config, view, M.Fire(ShownAlarm(alarms, delivery), time));
      Tick(time);
      RunAlarm(delivery);
    }

    /** The message, if its id was in flight, is out of flight and at the end of the queue; otherwise nothing moved. */
    ghost predicate Returned(message: QueuedMessage, queued: seq<QueuedMessage>, flying: map<string, QueuedMessage>)
      reads this
    {
      && queue == (if message.id in flying then queued + [message] else queued)
      && inFlight == flying - {message.id}
    }

    method RunAlarm(delivery: nat)
      requires Linked() && delivery in alarms
      modifies `inFlight, `queue, `alarms, `view
      ensures view == M.DoFire(old(view), old(ShownAlarm(alarms, delivery)))
      ensures Linked() && alarms == old(alarms) - {delivery}
      ensures Returned(old(alarms[delivery].message), old(queue), old(inFlight))
    {
      var message := alarms[delivery].message;
      Discard(delivery);
      if message.id in inFlight { PutBack(message); }
    }

    method PutBack(message: QueuedMessage)
      requires Linked() && message in Repr && message.id in inFlight
      modifies `inFlight, `queue, `view
      ensures Linked() && queue == old(queue) + [message] && inFlight == old(inFlight) - {message.id}
      ensures view == old(view).(inFlight := old(view).inFlight - {message.id},
                                 queue := old(view).queue + [old(view).inFlight[message.id]])
    {
      var removed := Remove(message.id);
      Push(message);
    }

    method Discard(delivery: nat)
      requires Linked() && delivery in alarms
      modifies `alarms, `view
      ensures Linked() && alarms == old(alarms) - {delivery}
      ensures view == old(view).(timers := old(view).timers - {old(ShownAlarm(alarms, delivery))})
    {
      view := view.(timers := view.timers - {ShownAlarm(alarms, delivery)});
      alarms := alarms - {delivery};
    }
  }
}
