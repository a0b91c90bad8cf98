/** The values exchanged between the vehicle client, the repository and its
    subscribers: topics, incoming vehicle messages and the typed callbacks
    fired on subscribers. */
module Telemetry {

  datatype Option<+T> = None | Some(value: T)

  /** Kotlin `Long`: a signed 64-bit integer. */
  newtype i64 = x: int | -0x8000_0000_0000_0000 <= x < 0x8000_0000_0000_0000

  /** A topic identifier as carried by a vehicle message. */
  type Topic = string

  /** The three topics of interest, in the order of the client's topic list:
      entry 0 is the vehicle speed, entry 1 the total vehicle distance and
      entry 2 the distance to the object ahead. Nothing forces them apart. */
  datatype TopicList = TopicList(speed: Topic, totalDistance: Topic, distanceToObject: Topic)

  /** The validity state the vehicle client attaches to a message. */
  datatype ValidState = Valid | Invalid | NotAvailable

  /** One incoming vehicle message. `valuePresent` is false when the raw value
      is null; `asFloat` and `asLong` are the client's two numeric views of the
      value, taken as independent inputs. */
  datatype Message = Message(
    valuePresent: bool,
    topic: Topic,
    asFloat: real,
    asLong: i64,
    validState: ValidState)

  /** Highest vehicle speed (km/h) that is passed on to subscribers. */
  const MaxSpeed: real := 162.0

  /** A subscriber handle; equality of handles stands for `equals` on the
      subscriber objects. */
  datatype Subscriber = Subscriber(id: nat)

  /** The three callbacks of the subscriber interface, with their argument. */
  datatype Callback =
    | OnVehicleSpeed(speed: real)
    | OnTotalVehicleDistance(totalDistance: i64)
    | OnVehicleDistanceToObject(distance: i64)

  /** One callback fired on one subscriber. */
  datatype Event = Event(subscriber: Subscriber, callback: Callback)
}
