# MotionManager: a verified model of the motion logger's sensor aggregator

The motion logger keeps one `MotionDataRecord`. The record has one optional
slot per sensor stream (location, heading, device motion, altimeter,
accelerometer, gyroscope, magnetometer), a record timestamp and a fixed
attitude reference frame. `MotionManager` does the following:

- `start` stamps the start time. It then turns on each periodic sensor that
  reports itself available, with the manager's update interval. For each
  unavailable sensor it logs one message instead. Finally it acts on the
  location authorization status.
- Each sensor's update handler writes its own slot of the record. The
  device-motion handler also stamps the record with the current wall-clock
  time and prints (emits) the whole record.
- The location-manager delegate stores the last location of each batch and
  each heading. It also starts or stops location updates when the
  authorization changes.
- `stop` turns every stream off.

The project models this in Dafny, in six modules:

- `Wrappers` (`wrappers.dfy`): `Option`, the model of Swift's `T?`.
- `MotionData` (`motion_data.dfy`): the structs of the source. This covers
  `Location`, `Heading`, `DeviceMotion`, the three raw sensor data types and
  `MotionDataRecord`. It adds `Slot`/`Sample`/`SlotValue`, which view the
  record's optional slots as one sum type. It also models the copy the
  location delegate makes of a framework location (`LocationOf`).
- `MotionSpec` (`motion_spec.dfy`): one pure function per member of
  `MotionManager`. Each maps the manager's observable state before a call to
  the state after it. The module also holds the lemmas about `start`,
  `stop` and the two authorization tables.
- `MotionTrace` (`motion_trace.dfy`): runs, meaning arbitrary interleavings
  of `start`, `stop` and framework callbacks, each taken as one atomic step.
  The lemmas here cover all runs:
  - each slot holds the last sample delivered for it;
  - the record timestamp is the clock reading of the last device-motion
    sample;
  - exactly one record is emitted per device-motion sample, and it is the
    record as it stood right after that sample;
  - the altimeter slot and the reference frame never change.
- `FeasibleRuns` (`feasible_runs.dfy`): the runs that can actually happen.
  A sensor's update handler exists only after a `start` found the sensor
  available. The delegate methods are called only after the lazily created
  location manager exists, which happens on the first `stop`, or the first
  `start` that finds "always" or undetermined authorization; a location
  callback comes only after a call asked for location updates (a `start`
  finding "always", or a change to "always" or "when in use"), and a heading
  callback only after a `start` finding "always". Over such runs, a slot
  with nothing registered to write it is never written. An unavailable gyroscope,
  for example, leaves the gyro slot of every emitted record empty.
- `Motion` (`motion_manager.dfy`): the class `MotionManager`. Its fields are
  the record, the start time, the interval and the state of the two
  frameworks it drives. That framework state is which streams are on, the
  interval set for each sensor and how often "always" authorization was
  requested. The class also has a log and the emitted records. Every method
  is proved to produce exactly the state its `MotionSpec` function gives,
  and to keep the object invariant `Valid()`.

Where more might be expected than the code provides, the model follows the
code:

- The record timestamp is the wall-clock time the device-motion handler
  reads. The code does nothing to make it non-decreasing, so no such
  property is claimed.
- `start` does not clear the record.
- `stop` calls every framework stop method unconditionally.
- Location updates react to authorization changes whether or not `start`
  ran, once the location manager exists.
- Heading updates are started only by `startCoreLocation` with "always"
  authorization, which the program reaches only through `start`.
  Authorization granted later starts location updates but never heading
  updates.

## Model

| member | source | states |
|---|---|---|
| `MotionData.LocationOf` | MotionLoggerZombieIssue/MotionManager.swift:242-249 | the stored location has a floor exactly when the framework location has one, with the same level; every other field is copied unchanged |
| `MotionSpec.StartSensor` | MotionLoggerZombieIssue/MotionManager.swift:148-214 | an available sensor gets the manager's interval and is turned on, with no log entry; an unavailable one gets exactly one unavailability message and keeps its interval and activation; no other stream, interval or field changes |
| `MotionSpec.StartCoreLocation` | MotionLoggerZombieIssue/MotionManager.swift:136-146 | "always" turns on both location and heading updates; "not determined" only requests authorization (one more request); "when in use", "restricted" and "denied" change nothing |
| `MotionSpec.Start` | MotionLoggerZombieIssue/MotionManager.swift:127-134 | the start time becomes the given time; location and heading follow the `startCoreLocation` table; the record, emitted records, interval and reference frame are unchanged |
| `MotionSpec.StartActivatesAvailableSensors` | MotionLoggerZombieIssue/MotionManager.swift:127-134 | after `start`, a periodic sensor's stream is on exactly when the sensor is available or was already on |
| `MotionSpec.StartSetsIntervalOfAvailableSensors` | MotionLoggerZombieIssue/MotionManager.swift:148-214 | `start` gives every available sensor the manager's interval; an unavailable sensor's interval stays as it was, whether set or not |
| `MotionSpec.StartLogsOncePerUnavailableSensor` | MotionLoggerZombieIssue/MotionManager.swift:127-214 | `start` keeps the earlier log as a prefix; it adds exactly one message for each unavailable sensor, none for an available one, and nothing else |
| `MotionSpec.Stop` | MotionLoggerZombieIssue/MotionManager.swift:216-223 | every one of the six streams is off, whatever was on before; nothing else changes |
| `MotionSpec.StopIdempotent` | MotionLoggerZombieIssue/MotionManager.swift:216-223 | a second `stop` changes nothing |
| `MotionSpec.DidChangeAuthorization` | MotionLoggerZombieIssue/MotionManager.swift:234-240 | afterwards, location updates are on exactly when the status is "always" or "when in use"; heading and the periodic streams are untouched; nothing else changes |
| `MotionSpec.AuthorizationTablesDiffer` | MotionLoggerZombieIssue/MotionManager.swift:136-146 | from a state with location and heading off: "when in use" starts location updates through `didChangeAuthorization` (lines 234-240) but not through `startCoreLocation`; heading is started only by `startCoreLocation`, and only for "always" |
| `MotionTrace.StepWritesDeliveredSlot` | MotionLoggerZombieIssue/MotionManager.swift:151-254 | one call or callback writes exactly the slot for which it delivers a sample, with that sample; a callback without data, an empty location batch, `start`, `stop` and authorization changes write no slot |
| `MotionTrace.StepEmits` | MotionLoggerZombieIssue/MotionManager.swift:204-227 | only a device-motion callback with data emits, and it emits exactly one record: the record just updated |
| `MotionTrace.StepTimestamp` | MotionLoggerZombieIssue/MotionManager.swift:207-208 | only a device-motion callback with data changes the record timestamp, to the clock reading it took |
| `MotionTrace.RunSlotIsLastDelivered` | MotionLoggerZombieIssue/MotionManager.swift:151-254 | after any run, each slot holds the last sample delivered for it in the run, or its value from before the run if none was |
| `MotionTrace.RunKeepsAltimeterAndFrame` | MotionLoggerZombieIssue/MotionManager.swift:82-92 | no call or callback writes the altimeter slot or the record's reference frame, so after any run both hold their values from before the run |
| `MotionTrace.RunTimestampIsLastMotionTime` | MotionLoggerZombieIssue/MotionManager.swift:204-209 | after any run, the record timestamp is the clock reading of the run's last device-motion sample, or its value from before the run if there was none |
| `MotionTrace.RunEmitsOncePerMotionSample` | MotionLoggerZombieIssue/MotionManager.swift:204-227 | a run emits exactly as many records as it has device-motion samples, and never rewrites records emitted earlier |
| `MotionTrace.RunEmitsOnlyMotionRecords` | MotionLoggerZombieIssue/MotionManager.swift:204-209 | every record a run emits has its device-motion slot set |
| `MotionTrace.RunPreservesValid` | MotionLoggerZombieIssue/MotionManager.swift:82-92 | through any run, the altimeter slot stays empty and the reference frame stays true-north/Z-vertical, in the record and in every emitted record |
| `MotionTrace.EmittedRecordAtTrigger` | MotionLoggerZombieIssue/MotionManager.swift:204-227 | the record emitted for the device-motion sample at position j is emitted at the position that sample's count gives, and it is the whole record as it stood right after that sample |
| `MotionTrace.EmittedSnapshotAtTrigger` | MotionLoggerZombieIssue/MotionManager.swift:204-227 | that emitted record carries the sample's clock reading as its timestamp; each of its slots holds the last sample delivered up to and including position j |
| `MotionSpec.TextInjective` | MotionLoggerZombieIssue/MotionManager.swift:151-213 | two diagnostics that print the same text are the same diagnostic: the unavailability messages and the error prefixes of the four sensors differ, and an error's text ends with its description |
| `MotionTrace.HeadingStartedOnlyByStartAlways` | MotionLoggerZombieIssue/MotionManager.swift:136-146 | if heading updates are on after a run, they were on before it or some `start` of the run found "always" authorization |
| `MotionTrace.LateGrantStartsLocationOnly` | MotionLoggerZombieIssue/MotionManager.swift:234-240 | `start` with undetermined authorization, then a grant of "always" or "when in use": location updates are on, and heading updates stay off through any later events that contain no `start` finding "always" |
| `FeasibleRuns.InstalledIffStarted` | MotionLoggerZombieIssue/MotionManager.swift:148-214 | a sensor's update handler is installed after a run exactly when some `start` of the run found the sensor available |
| `FeasibleRuns.UnregisteredSlotNeverDelivered` | MotionLoggerZombieIssue/MotionManager.swift:102-109 | in a run where every callback comes after its handler was installed, or after the location delegate was set and its stream asked for, no sample is delivered to a slot that has nothing registered |
| `FeasibleRuns.UnregisteredSlotUnchanged` | MotionLoggerZombieIssue/MotionManager.swift:148-255 | in such a run, a slot with nothing registered keeps its value from before the run, in the record and in every record emitted during the run |
| `FeasibleRuns.UnavailableGyroNeverRecorded` | MotionLoggerZombieIssue/MotionManager.swift:165-178 | from a fresh manager, if no `start` found the gyroscope available, the gyro slot is empty in the record and in every emitted record |
| `FeasibleRuns.NoDelegateNoLocation` | MotionLoggerZombieIssue/MotionManager.swift:102-109 | from a fresh manager, until a `stop`, or a `start` finding "always" or undetermined authorization, has created the location manager, the location and heading slots stay empty in the record and in every emitted record |
| `FeasibleRuns.StepTurnsStreamOnIffRequested` | MotionLoggerZombieIssue/MotionManager.swift:136-240 | a call turns location updates on exactly when it is a `start` finding "always" or a change to "always" or "when in use", and heading updates exactly when it is a `start` finding "always"; otherwise a stream stays as it was, except that `stop` turns both off and an authorization change to another status turns location updates off |
| `FeasibleRuns.HeadingRequestedIffStartAlways` | MotionLoggerZombieIssue/MotionManager.swift:136-146 | heading updates have been asked for in a run exactly when some `start` of the run found "always" authorization |
| `FeasibleRuns.HeadingNeedsStartAlways` | MotionLoggerZombieIssue/MotionManager.swift:234-254 | from a fresh manager, a feasible run in which no `start` finds "always" leaves the heading slot empty in the record and in every emitted record, even when authorization is granted later |
| `FeasibleRuns.InstalledIffIntervalSet` | MotionLoggerZombieIssue/MotionManager.swift:148-214 | a sensor's update handler is installed by a run exactly when the run gave that sensor an update interval (or it had one before) |
| `FeasibleRuns.StepSetsInterval` | MotionLoggerZombieIssue/MotionManager.swift:148-214 | one call gives a sensor an update interval exactly when it is a `start` that finds the sensor available |
| `FeasibleRuns.MotionAccelerometerMotionScenario` | MotionLoggerZombieIssue/MotionManager.swift:127-209 | a `start` that finds device motion and the accelerometer available, then motion M1, accelerometer A1 and motion M2, from a fresh manager: the run is feasible, and it emits two records; the first has M1 and no accelerometer sample, the second has M2 and A1, each with its own clock reading |
| `Motion.MotionManager.constructor` | MotionLoggerZombieIssue/MotionManager.swift:118-123 | an empty record with timestamp 0 and a true-north frame; interval 0.01 s; no start time; nothing started, logged or emitted |
| `Motion.MotionManager.Start` | MotionLoggerZombieIssue/MotionManager.swift:127-134 | sets the start time to the given clock reading, then starts device motion, the accelerometer, the gyroscope, the magnetometer and core location, in that order, as `MotionSpec.Start` |
| `Motion.MotionManager.StartCoreLocation` | MotionLoggerZombieIssue/MotionManager.swift:136-146 | "always" adds location and heading updates; "not determined" adds one authorization request and changes nothing else; the other statuses change nothing |
| `Motion.MotionManager.StartAccelerometer` | MotionLoggerZombieIssue/MotionManager.swift:148-163 | as `MotionSpec.StartSensor` for the accelerometer |
| `Motion.MotionManager.StartGyroscope` | MotionLoggerZombieIssue/MotionManager.swift:165-179 | as `MotionSpec.StartSensor` for the gyroscope |
| `Motion.MotionManager.StartMagnetometer` | MotionLoggerZombieIssue/MotionManager.swift:181-195 | as `MotionSpec.StartSensor` for the magnetometer |
| `Motion.MotionManager.StartDeviceMotion` | MotionLoggerZombieIssue/MotionManager.swift:197-214 | as `MotionSpec.StartSensor` for device motion |
| `Motion.MotionManager.Stop` | MotionLoggerZombieIssue/MotionManager.swift:216-223 | no stream is active afterwards; nothing else changes |
| `Motion.MotionManager.HandleMotionUpdate` | MotionLoggerZombieIssue/MotionManager.swift:225-227 | appends the whole current record to the emitted records |
| `Motion.MotionManager.AccelerometerHandler` | MotionLoggerZombieIssue/MotionManager.swift:151-158 | an error adds exactly one log message; data replaces the accelerometer slot only, even when an error came with it; without data the record is unchanged; nothing is emitted |
| `Motion.MotionManager.GyroHandler` | MotionLoggerZombieIssue/MotionManager.swift:168-175 | the same for the gyro slot |
| `Motion.MotionManager.MagnetometerHandler` | MotionLoggerZombieIssue/MotionManager.swift:184-191 | the same for the magnetometer slot |
| `Motion.MotionManager.DeviceMotionHandler` | MotionLoggerZombieIssue/MotionManager.swift:200-210 | an error adds exactly one log message; data sets the device-motion slot and the timestamp to the given clock reading, leaves every other slot alone and emits the whole record once; without data nothing but the log changes |
| `Motion.MotionManager.DidChangeAuthorization` | MotionLoggerZombieIssue/MotionManager.swift:234-240 | location updates are on afterwards exactly for "always" and "when in use"; heading updates keep their state |
| `Motion.MotionManager.DidUpdateLocations` | MotionLoggerZombieIssue/MotionManager.swift:242-250 | an empty batch leaves the record unchanged; otherwise only the location slot changes, to the copy of the batch's last location |
| `Motion.MotionManager.DidUpdateHeading` | MotionLoggerZombieIssue/MotionManager.swift:252-255 | only the heading slot changes, to the given heading |

## Left out

- The motion and location frameworks are not modelled. This covers
  `CMMotionManager`, `CLLocationManager`, their availability queries and
  `CLLocationManager.authorizationStatus()`. Availability and the
  authorization status are parameters, and what the manager asks of the
  frameworks is recorded as state: which streams are on, the interval set
  per sensor and the number of authorization requests. The frameworks'
  own behaviour is foreign code.
- The general run semantics (`MotionTrace.Run`) accepts any callback at any
  time, including callbacks queued before `stop`. Which runs can happen is
  stated separately, by `FeasibleRuns.Feasible`: a sensor callback comes only
  after some `start` installed that sensor's handler, and a location or
  heading callback only after the location manager was created and some
  earlier call asked for that stream. Whether a stream is still on is not
  part of that condition. The framework may deliver a callback that was
  queued before `stop`, and when it stops delivering is the framework's
  behaviour.
- The operation queue and the threads the callbacks run on are not
  modelled. Each call or callback is one atomic step; interleavings within a
  step and unsynchronized concurrent writes to the record are not captured.
- Wall-clock reads (`Date()`) are parameters (`now`).
- Printing is not modelled. A diagnostic is a `LogMessage` appended to
  `log`, and `Text` gives the string the source prints for it
  (`TextInjective` shows the log can be read back from the printed text). An error
  appears as its description. A printed record is appended to `emitted`;
  the printed format is not modelled.
- Floating-point fields (`Double`, `TimeInterval`, coordinates, ...) are
  `real` values. The manager only copies them.
- The `shared` singleton and the private initializer are left out. The
  model has a public constructor with the same initial field values.
- The lazy configuration of the location manager (delegate, accuracy,
  activity type, distance filter) is left out, because it is framework
  configuration.
- The delegate methods' `manager` argument is not modelled.
- Assigning the public `interval` field is not a method of the source. In
  the model it is a plain field assignment, and it affects only later starts.
- Runs contain only `start`, `stop` and framework callbacks. The class
  also offers `StartCoreLocation`, the four sensor starts and
  `HandleMotionUpdate`, as the source leaves them callable, but no event
  stands for calling them directly. In the program they are reached only
  from `start` and from the device-motion handler, and the only outside
  caller, MotionLoggerZombieIssue/ViewController.swift:18, calls `start()`.
  The run lemmas (for example `HeadingStartedOnlyByStartAlways` and
  `RunEmitsOnlyMotionRecords`) therefore do not cover a direct call of
  those members.
- MotionLoggerZombieIssue/ViewController.swift only calls `start()`, so it is
  not modelled.
