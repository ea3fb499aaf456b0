/** The event store and aggregate objects. */
module EventSourcingObjects {
  import opened Common
  import ES = EventSourcing
  import EventOrder

  class InMemoryEventStore {
    var names: seq<string>                          // insertion order of `streams`
    var streams: map<string, seq<ES.DomainEvent>>

    ghost function View(): ES.Store
      reads this
    {
      ES.Store(names, streams)
    }

    constructor ()
      ensures View() == ES.Empty
    {
      names, streams := [], map[];
    }

    method GetStream(streamId: string) returns (events: seq<ES.DomainEvent>)
      ensures events == ES.Stream(View(), streamId)
    {
      events := if streamId in streams then streams[streamId] else [];
    }

    method Append(streamId: string, events: seq<ES.Draft>, expectedVersion: Option<int>, clock: ES.Clock)
      returns (r: Result<seq<ES.DomainEvent>, ES.ConcurrencyError>)
      requires ES.WellFormed(View())
      modifies this
      ensures ES.WellFormed(View())
      ensures
        var append := ES.Append(old(View()), streamId, events, expectedVersion, clock);
        match r
        case Ok(appended) =>
          append == Ok(View()) && ES.Stream(View(), streamId) == ES.Stream(old(View()), streamId) + appended
        case Err(error) => append == Err(error) && View() == old(View())
    {
      var existing := GetStream(streamId);
      if expectedVersion.Some? && |existing| != expectedVersion.value {
        return Err(ES.ConcurrencyError(streamId, expectedVersion.value, |existing|));
      }
      ES.AppendKeepsWellFormed(View(), streamId, events, expectedVersion, clock);
      var appended := Number(streamId, events, |existing|, clock);
      if streamId !in streams { names := names + [streamId]; }
      streams := streams[streamId := existing + appended];
      r := Ok(appended);
    }

    /** Each event gets its name, its place in the stream and the time. */
    static method Number(streamId: string, events: seq<ES.Draft>, base: nat, clock: ES.Clock)
      returns (appended: seq<ES.DomainEvent>)
      ensures appended == ES.Stamp(streamId, events, base, clock)
    {
      appended := [];
      for i := 0 to |events|
        invariant appended == ES.Stamp(streamId, events[..i], base, clock)
      {
        ES.StampExtend(streamId, events[..i], events[i], base, clock);
        assert events[..i + 1] == events[..i] + [events[i]];
        appended := appended + [ES.Stamped(streamId, events[i], base + i + 1, clock(i))];
      }
      assert events[..|events|] == events;
    }

    method GetAllEvents() returns (events: seq<ES.DomainEvent>)
      ensures events == EventOrder.AllEvents(View())
      ensures EventOrder.IsStableSortOf(events, EventOrder.Flat(View(), names))
    {
      events := EventOrder.SortByTime(EventOrder.Flat(ES.Store(names, streams), names));
      EventOrder.StableSortExactly(EventOrder.Flat(View(), names), events);
    }
  }

  class Aggregate {
    const id: string
    const behaviour: ES.Behaviour
    var state: ES.Folded
    var version: int
    var pendingEvents: seq<ES.Draft>

    ghost function View(): ES.Snapshot
      reads this
    {
      ES.Snapshot(id, state, version, pendingEvents)
    }

    constructor (id: string, behaviour: ES.Behaviour)
      ensures View() == ES.Fresh(behaviour, id) && this.behaviour == behaviour
    {
      this.id, this.behaviour, state, version, pendingEvents := id, behaviour, behaviour.init(id), 0, [];
    }

    method Raise(d: ES.Draft, time: int)
      modifies this
      ensures View() == ES.Raise(behaviour, old(View()), d, time)
    {
      var fakeEvent := ES.DomainEvent(id, d.kind, d.payload, version + |pendingEvents| + 1, time);
      state := behaviour.apply(state, fakeEvent);
      pendingEvents := pendingEvents + [d];
    }

    method MarkEventsAsCommitted()
      modifies this
      ensures View() == ES.Commit(old(View()))
    {
      version := version + |pendingEvents|;
      pendingEvents := [];
    }

    static method Replay(behaviour: ES.Behaviour, id: string, events: seq<ES.DomainEvent>)
      returns (aggregate: Aggregate)
      ensures fresh(aggregate) && aggregate.behaviour == behaviour
      ensures aggregate.View() == ES.Replay(behaviour, id, events)
    {
      aggregate := new Aggregate(id, behaviour);
      for i := 0 to |events|
        invariant aggregate.View() == ES.Replay(behaviour, id, events[..i])
      {
        assert events[..i + 1][..i] == events[..i];
        aggregate.state := aggregate.behaviour.apply(aggregate.state, events[i]);
        aggregate.version := events[i].version;
      }
      assert events[..|events|] == events;
    }
  }
}
