# Vehicle telemetry fan-out

A Dafny model of the in-process telemetry fan-out of the truck demo app's
`VehicleDataRepository` object: the subscriber registry (`register`,
`remove`), the three broadcasts (`postVehicleSpeed`,
`postTotalVehicleDistance`, `postDistanceToTheObject`) and the routing and
validation rule applied to every incoming vehicle message (`handleMessage`,
with `MAX_SPEED = 162`).

- `telemetry.dfy` (module `Telemetry`): topics, the three-entry topic list,
  validity states, messages (a presence flag for the nullable value, the
  topic, the float view as a `real`, the long view as a 64-bit `i64`, the
  validity state), subscribers, callbacks and callback events.
- `routing.dfy` (module `Routing`): `Route`, the pure accept-or-drop decision
  of `handleMessage`, and lemmas about it.
- `subscribers.dfy` (module `Subscribers`): the registry as a sequence:
  first-occurrence lookup, removal of the first occurrence (a recursive
  reference definition, related by lemmas to the index-and-cut form), and
  `Fanout`, the events one broadcast emits.
- `repository.dfy` (module `Repository`): the class
  `VehicleDataRepository`, whose `subscribers` field is a `seq` that
  `Register` and `Remove` reassign. Callbacks are calls into subscriber code
  that is not part of this model, so every operation that fires callbacks
  returns the trace of `(subscriber, callback)` events it fires, in order;
  these operations modify nothing, so handling a message never changes the
  registry. A client method replays a two-subscriber scenario.

The topic list comes from `VehicleClientData`, which is not part of this
model; it is a constructor parameter of the repository, and its three
entries may coincide (then the earliest branch wins, as in a Kotlin `when`).
How the vehicle client computes the float and long views of a value is not
part of this model either: both are independent inputs of a message.

Duplicate registrations are kept and get duplicate callbacks; removing a
subscriber registered more than once leaves its other entries
(`Subscribers.RemoveFirstKeepsDuplicate`), while a subscriber registered at
most once is absent after its removal and no later broadcast reaches it
(`Subscribers.RemoveFirstOfSingleEntry`).

## Model

| member | source | states |
|---|---|---|
| Routing.Route | app/src/main/java/com/daimler/mbtrucks/dummyApp/repository/vehicle/VehicleDataRepository.kt:82-106 | a null value or an unknown topic fires nothing; a speed callback carrying the float view is fired iff the topic is the first entry, 0 <= speed <= 162 (both ends inclusive, 162 being the `MAX_SPEED` of line 30) and the state is VALID; a total-distance callback carrying the long view iff the topic is the second entry (and not the first) and the long view is >= 0; a distance-to-object callback carrying the long view iff the topic is the third entry (and neither earlier one) and the float view is >= 0 |
| Routing.ValidityOnlyMattersForSpeed | app/src/main/java/com/daimler/mbtrucks/dummyApp/repository/vehicle/VehicleDataRepository.kt:95-105 | outside the speed branch, changing the validity state never changes the decision |
| Routing.InvalidSpeedDropped | app/src/main/java/com/daimler/mbtrucks/dummyApp/repository/vehicle/VehicleDataRepository.kt:85-92 | a speed message that is not VALID is dropped whatever its value |
| Routing.DistanceToObjectGuardIgnoresLong | app/src/main/java/com/daimler/mbtrucks/dummyApp/repository/vehicle/VehicleDataRepository.kt:101-105 | on the distance-to-object branch, whether anything is delivered does not depend on the long view, and what is delivered is the long view |
| Routing.NegativeDistanceToObjectDelivered | app/src/main/java/com/daimler/mbtrucks/dummyApp/repository/vehicle/VehicleDataRepository.kt:101-105 | a message with float view 0 and long view -1 is delivered as distance -1 |
| Routing.EarliestBranchWins | app/src/main/java/com/daimler/mbtrucks/dummyApp/repository/vehicle/VehicleDataRepository.kt:84-106 | when the total-distance topic equals the speed topic, messages on it follow the speed rule only |
| Subscribers.IndexOf | app/src/main/java/com/daimler/mbtrucks/dummyApp/repository/vehicle/VehicleDataRepository.kt:126-128 | the result is -1 iff the subscriber is absent, otherwise the position of an equal entry with no equal entry before it |
| Subscribers.RemoveFirst | app/src/main/java/com/daimler/mbtrucks/dummyApp/repository/vehicle/VehicleDataRepository.kt:126-128 | removal shortens the list by one iff the subscriber is present and takes away exactly one copy of it (multiset difference) |
| Subscribers.RemoveFirstAbsent | app/src/main/java/com/daimler/mbtrucks/dummyApp/repository/vehicle/VehicleDataRepository.kt:126-128 | removing an absent subscriber leaves the list unchanged |
| Subscribers.RemoveFirstCutsFirstOccurrence | app/src/main/java/com/daimler/mbtrucks/dummyApp/repository/vehicle/VehicleDataRepository.kt:126-128 | removing a present subscriber cuts out its first occurrence and keeps all other entries in their relative order |
| Subscribers.RemoveFirstOfSingleEntry | app/src/main/java/com/daimler/mbtrucks/dummyApp/repository/vehicle/VehicleDataRepository.kt:110-128 | a subscriber registered at most once is absent after one removal, and no event of a later broadcast goes to it |
| Subscribers.RemoveFirstKeepsDuplicate | app/src/main/java/com/daimler/mbtrucks/dummyApp/repository/vehicle/VehicleDataRepository.kt:122-128 | a subscriber registered two or more times is still present after one removal |
| Subscribers.Fanout | app/src/main/java/com/daimler/mbtrucks/dummyApp/repository/vehicle/VehicleDataRepository.kt:110-120 | one broadcast emits one event per registry entry, the i-th to the i-th entry, all with the same callback |
| Subscribers.FanoutCountsEntries | app/src/main/java/com/daimler/mbtrucks/dummyApp/repository/vehicle/VehicleDataRepository.kt:110-124 | a subscriber receives a broadcast exactly as many times as it is registered (zero when unregistered) |
| Subscribers.FanoutOnlyRegistered | app/src/main/java/com/daimler/mbtrucks/dummyApp/repository/vehicle/VehicleDataRepository.kt:110-120 | every event of a broadcast goes to a registered subscriber and carries the broadcast callback |
| Subscribers.FanoutAppend | app/src/main/java/com/daimler/mbtrucks/dummyApp/repository/vehicle/VehicleDataRepository.kt:110-124 | after a registration the new subscriber is called last, after all earlier ones |
| Repository.VehicleDataRepository.constructor | app/src/main/java/com/daimler/mbtrucks/dummyApp/repository/vehicle/VehicleDataRepository.kt:25 | a new repository has no subscribers |
| Repository.VehicleDataRepository.Register | app/src/main/java/com/daimler/mbtrucks/dummyApp/repository/vehicle/VehicleDataRepository.kt:122-124 | the subscriber is appended at the end, earlier entries unchanged, and its count grows by one even when already registered |
| Repository.VehicleDataRepository.Remove | app/src/main/java/com/daimler/mbtrucks/dummyApp/repository/vehicle/VehicleDataRepository.kt:126-128 | the new list is the old one with the first equal entry cut out, or the old one when there is none |
| Repository.VehicleDataRepository.Broadcast | app/src/main/java/com/daimler/mbtrucks/dummyApp/repository/vehicle/VehicleDataRepository.kt:110-120 | the loop fires the callback once per entry in registry order and changes nothing |
| Repository.VehicleDataRepository.PostVehicleSpeed | app/src/main/java/com/daimler/mbtrucks/dummyApp/repository/vehicle/VehicleDataRepository.kt:110-112 | every entry receives onVehicleSpeed with the given speed, in order |
| Repository.VehicleDataRepository.PostTotalVehicleDistance | app/src/main/java/com/daimler/mbtrucks/dummyApp/repository/vehicle/VehicleDataRepository.kt:114-116 | every entry receives onTotalVehicleDistance with the given distance, in order |
| Repository.VehicleDataRepository.PostDistanceToTheObject | app/src/main/java/com/daimler/mbtrucks/dummyApp/repository/vehicle/VehicleDataRepository.kt:118-120 | every entry receives onVehicleDistanceToObject with the given distance, in order |
| Repository.VehicleDataRepository.HandleMessage | app/src/main/java/com/daimler/mbtrucks/dummyApp/repository/vehicle/VehicleDataRepository.kt:78-108 | a dropped message (including every null-valued one) fires nothing; an accepted one is broadcast on its callback to every entry in order; the registry is not modified |

## Left out

- `initializeSdk`, `deinitializeSdk`, `connectVehicle`, `disconnectVehicle` (lines 32-73): calls into the closed vendor SDK (`SDKInitializer`, `VehicleClient`) whose state is not visible; the installation of `handleMessage` as the message handler is left out with them.
- Logging (`Log.e`, `android.util.Log.i`): output only, no effect on the modelled state.
- Android context and activity wiring: platform plumbing.
- How `valueAsFloat` and `valueAsLong` are computed from the raw value: vendor SDK code; both are independent inputs.
- Float semantics: the float view is a `real`; IEEE rounding, NaN and negative zero are not modelled, only the ordering comparisons.
- An exception thrown by a subscriber callback: the Kotlin loop does not catch it, so later subscribers are skipped; the model treats callbacks as events in a trace and does not represent this.
- A registration or removal made from inside a callback while `forEach` iterates the live list (no snapshot, no lock; the iterator then usually throws `ConcurrentModificationException` at its next step, but some changes, for example one made during the last entries' callbacks, end the loop early without one): the broadcast methods of the model cannot change the list, so this is not represented.
- The concrete validity states of the SDK's `ValidState` enum are not visible; the model has VALID and two other states, which is all the rule distinguishes.
