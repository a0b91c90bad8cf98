/** The repository object: its subscriber list, the fan-out of validated
    readings and the routing of incoming messages. Callbacks are external
    calls into subscriber code; each operation that fires callbacks returns
    the trace of the events it fires, in firing order. */
module Repository {
  import opened Telemetry
  import opened Routing
  import opened Subscribers

  class VehicleDataRepository {
    /** The registered subscribers, in registration order. */
    var subscribers: seq<Subscriber>
    /** The client's topic list that `HandleMessage` matches against. */
    const topics: TopicList

    /** A fresh repository starts with no subscribers. */
    constructor (topics: TopicList)
      ensures subscribers == [] && this.topics == topics
    {
      this.topics := topics;
      subscribers := [];
    }

    /** Appends `s`, with no duplicate check. */
    method Register(s: Subscriber)
      modifies this
      ensures subscribers == old(subscribers) + [s]
      ensures multiset(subscribers)[s] == multiset(old(subscribers))[s] + 1
    {
      subscribers := subscribers + [s];
    }

    /** Deletes the first entry equal to `s`, if any. */
    method Remove(s: Subscriber)
      modifies this
      ensures subscribers == RemoveFirst(old(subscribers), s)
      ensures s !in old(subscribers) ==> subscribers == old(subscribers)
      ensures s in old(subscribers) ==>
              var i := IndexOf(old(subscribers), s);
              0 <= i && subscribers == old(subscribers)[..i] + old(subscribers)[i + 1..]
    {
      var i := IndexOf(subscribers, s);
      if i >= 0 {
        RemoveFirstCutsFirstOccurrence(subscribers, s);
        subscribers := subscribers[..i] + subscribers[i + 1..];
      } else {
        RemoveFirstAbsent(subscribers, s);
      }
    }

    /** Fires `c` on every registered entry in order: one event per entry, all
        with the same callback; the subscriber list is left untouched. */
    method Broadcast(c: Callback) returns (trace: seq<Event>)
      ensures |trace| == |subscribers|
      ensures forall i :: 0 <= i < |subscribers| ==> trace[i] == Event(subscribers[i], c)
      ensures trace == Fanout(subscribers, c)
    {
      trace := [];
      for i := 0 to |subscribers|
        invariant |trace| == i
        invariant forall k :: 0 <= k < i ==> trace[k] == Event(subscribers[k], c)
      {
        trace := trace + [Event(subscribers[i], c)];
      }
    }

    method PostVehicleSpeed(speed: real) returns (trace: seq<Event>)
      ensures trace == Fanout(subscribers, OnVehicleSpeed(speed))
    {
      trace := Broadcast(OnVehicleSpeed(speed));
    }

    method PostTotalVehicleDistance(totalDistance: i64) returns (trace: seq<Event>)
      ensures trace == Fanout(subscribers, OnTotalVehicleDistance(totalDistance))
    {
      trace := Broadcast(OnTotalVehicleDistance(totalDistance));
    }

    method PostDistanceToTheObject(distance: i64) returns (trace: seq<Event>)
      ensures trace == Fanout(subscribers, OnVehicleDistanceToObject(distance))
    {
      trace := Broadcast(OnVehicleDistanceToObject(distance));
    }

    /** Routes message `m`: an accepted message is broadcast to every entry on
        its topic's callback, a dropped one fires nothing. */
    method HandleMessage(m: Message) returns (trace: seq<Event>)
      ensures Route(topics, m) == None ==> trace == []
      ensures Route(topics, m).Some? ==> trace == Fanout(subscribers, Route(topics, m).value)
      ensures !m.valuePresent ==> trace == []
    {
      match Route(topics, m)
      case None =>
        trace := [];
      case Some(OnVehicleSpeed(speed)) =>
        trace := PostVehicleSpeed(speed);
      case Some(OnTotalVehicleDistance(d)) =>
        trace := PostTotalVehicleDistance(d);
      case Some(OnVehicleDistanceToObject(d)) =>
        trace := PostDistanceToTheObject(d);
    }
  }

  /** Two subscribers A and B, registered in that order, both receive a valid
      speed of 45 km/h once, A first; an out-of-range speed and a negative
      total distance reach nobody; after removing A only B is called. */
  method SpeedFanoutScenario() {
    var topics := TopicList("speed", "distance", "object");
    var repo := new VehicleDataRepository(topics);
    var a, b := Subscriber(1), Subscriber(2);
    repo.Register(a);
    repo.Register(b);
    var t := repo.HandleMessage(Message(true, "speed", 45.0, 45, Valid));
    assert t == [Event(a, OnVehicleSpeed(45.0)), Event(b, OnVehicleSpeed(45.0))];
    t := repo.HandleMessage(Message(true, "speed", 200.0, 200, Valid));
    assert t == [];
    t := repo.HandleMessage(Message(true, "distance", -5.0, -5, Valid));
    assert t == [];
    repo.Remove(a);
    assert repo.subscribers == [b];
    t := repo.HandleMessage(Message(true, "distance", 10.0, 10, Invalid));
    assert t == [Event(b, OnTotalVehicleDistance(10))];
  }
}
