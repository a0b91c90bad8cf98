/** The accept-or-drop decision that `handleMessage` takes for one message. */
module Routing {
  import opened Telemetry

  /** The callback that every subscriber receives for message `m`, or None
      when the message is dropped. The branches are tried in topic-list order
      and the first topic equal to `m.topic` decides, as a Kotlin `when` does. */
  function Route(topics: TopicList, m: Message): (r: Option<Callback>)
    // a null value is dropped, whatever the topic
    ensures !m.valuePresent ==> r == None
    // a topic outside the list is dropped (the `when` has no else branch)
    ensures (m.topic != topics.speed && m.topic != topics.totalDistance
             && m.topic != topics.distanceToObject) ==> r == None
    // speed: broadcast exactly when in [0, MaxSpeed] and VALID, carrying the float view
    ensures (r.Some? && r.value.OnVehicleSpeed?) <==>
            m.valuePresent && m.topic == topics.speed
            && 0.0 <= m.asFloat <= MaxSpeed && m.validState == Valid
    ensures r.Some? && r.value.OnVehicleSpeed? ==> r.value.speed == m.asFloat
    // total distance: broadcast exactly when the long view is non-negative
    ensures (r.Some? && r.value.OnTotalVehicleDistance?) <==>
            m.valuePresent && m.topic != topics.speed && m.topic == topics.totalDistance
            && m.asLong >= 0
    ensures r.Some? && r.value.OnTotalVehicleDistance? ==> r.value.totalDistance == m.asLong
    // distance to object: the float view is tested, the long view is delivered
    ensures (r.Some? && r.value.OnVehicleDistanceToObject?) <==>
            m.valuePresent && m.topic != topics.speed && m.topic != topics.totalDistance
            && m.topic == topics.distanceToObject && m.asFloat >= 0.0
    ensures r.Some? && r.value.OnVehicleDistanceToObject? ==> r.value.distance == m.asLong
  {
    if !m.valuePresent then None
    else if m.topic == topics.speed then
      if 0.0 <= m.asFloat <= MaxSpeed && m.validState == Valid
      then Some(OnVehicleSpeed(m.asFloat)) else None
    else if m.topic == topics.totalDistance then
      if m.asLong >= 0 then Some(OnTotalVehicleDistance(m.asLong)) else None
    else if m.topic == topics.distanceToObject then
      if m.asFloat >= 0.0 then Some(OnVehicleDistanceToObject(m.asLong)) else None
    else None
  }

  /** Outside the speed branch the validity state plays no part. */
  lemma ValidityOnlyMattersForSpeed(topics: TopicList, m: Message, v: ValidState)
    requires m.topic != topics.speed
    ensures Route(topics, m.(validState := v)) == Route(topics, m)
  {
  }

  /** A speed message that is not VALID is dropped, whatever its value. */
  lemma InvalidSpeedDropped(topics: TopicList, m: Message)
    requires m.topic == topics.speed && m.validState != Valid
    ensures Route(topics, m) == None
  {
  }

  /** On the distance-to-object branch acceptance depends on the float view
      only: changing the long view changes the delivered value, never whether
      something is delivered. */
  lemma DistanceToObjectGuardIgnoresLong(topics: TopicList, m: Message, l: i64)
    requires m.topic != topics.speed && m.topic != topics.totalDistance
    requires m.topic == topics.distanceToObject
    ensures Route(topics, m.(asLong := l)).Some? == Route(topics, m).Some?
    ensures Route(topics, m.(asLong := l)).Some? ==>
            Route(topics, m.(asLong := l)) == Some(OnVehicleDistanceToObject(l))
  {
  }

  /** Consequently a negative long view can reach subscribers as a distance
      to the object, as long as the float view is not negative. */
  lemma NegativeDistanceToObjectDelivered(topics: TopicList)
    requires topics.distanceToObject != topics.speed
    requires topics.distanceToObject != topics.totalDistance
    ensures Route(topics, Message(true, topics.distanceToObject, 0.0, -1, Invalid))
            == Some(OnVehicleDistanceToObject(-1))
  {
  }

  /** When two list entries coincide, the earlier branch takes every message
      on that topic: a total-distance topic equal to the speed topic never
      yields a total-distance callback. */
  lemma EarliestBranchWins(topics: TopicList, m: Message)
    requires topics.totalDistance == topics.speed && m.topic == topics.speed
    ensures Route(topics, m) == (if m.valuePresent && 0.0 <= m.asFloat <= MaxSpeed
                                    && m.validState == Valid
                                 then Some(OnVehicleSpeed(m.asFloat)) else None)
  {
  }
}
