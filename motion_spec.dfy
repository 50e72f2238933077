/**
  The behaviour of `MotionManager`, one pure function per member: each takes
  the manager's observable state before the call and gives the state after
  it. The class in module `Motion` is proved to follow these functions.

  The motion and location frameworks are not modelled; what the manager asks
  of them is kept in the state: which update streams it has turned on
  (`active`), the update interval it set for each periodic sensor
  (`updateInterval`) and how often it asked for "always" authorization
  (`authorizationRequests`). Printed diagnostics go to `log`, printed records
  to `emitted`.
*/
module MotionSpec {
  import opened Wrappers
  import opened MotionData

  /** The four interval-driven sensors of the motion framework. */
  datatype Sensor = DeviceMotionSensor | AccelerometerSensor | GyroSensor | MagnetometerSensor

  /** The six update streams the manager starts and stops. */
  datatype Stream = Periodic(sensor: Sensor) | LocationUpdates | HeadingUpdates

  const AllStreams: set<Stream> := {
    Periodic(DeviceMotionSensor), Periodic(AccelerometerSensor), Periodic(GyroSensor),
    Periodic(MagnetometerSensor), LocationUpdates, HeadingUpdates }

  lemma EveryStreamIsListed(st: Stream)
    ensures st in AllStreams
  {
    match st
    case Periodic(DeviceMotionSensor) =>
    case Periodic(AccelerometerSensor) =>
    case Periodic(GyroSensor) =>
    case Periodic(MagnetometerSensor) =>
    case LocationUpdates =>
    case HeadingUpdates =>
  }

  /** `CLAuthorizationStatus`. */
  datatype AuthorizationStatus = NotDetermined | Restricted | Denied | AuthorizedAlways | AuthorizedWhenInUse

  datatype Manager = Manager(
    record: MotionDataRecord,
    attitudeReferenceFrame: AttitudeReferenceFrame,
    interval: TimeInterval,
    startTime: Option<TimeInterval>,
    active: set<Stream>,
    updateInterval: map<Sensor, TimeInterval>,
    authorizationRequests: nat,
    log: seq<LogMessage>,
    emitted: seq<MotionDataRecord>)

  /** A freshly created manager: empty record, interval 0.01 s, nothing started. */
  const Initial: Manager :=
    Manager(EmptyRecord, XTrueNorthZVertical, 0.01, None, {}, map[], 0, [], [])

  /**
    The manager's invariant: the record's altimeter slot and reference frame
    keep their declared values, and so does every record it has emitted.
  */
  ghost predicate Valid(m: Manager)
  {
    && m.attitudeReferenceFrame == XTrueNorthZVertical
    && FixedFields(m.record)
    && forall i | 0 <= i < |m.emitted| :: FixedFields(m.emitted[i])
  }

  /**
    A diagnostic the manager logs: a sensor found unavailable by `start`, or an
    error passed to a sensor's update handler (kept as its description).
  */
  datatype LogMessage = Unavailable(sensor: Sensor) | SensorError(sensor: Sensor, description: string)

  /** The text printed for each diagnostic. */
  function Text(msg: LogMessage): string
  {
    match msg
    case Unavailable(DeviceMotionSensor) => "Device motion is not available"
    case Unavailable(AccelerometerSensor) => "The accelerometer is not available"
    case Unavailable(GyroSensor) => "The gyroscope is not available"
    case Unavailable(MagnetometerSensor) => "The magnetometer is not available"
    case SensorError(DeviceMotionSensor, description) => "Device Motion Error: " + description
    case SensorError(AccelerometerSensor, description) => "Accelerometer Error: " + description
    case SensorError(GyroSensor, description) => "Gyroscope Error: " + description
    case SensorError(MagnetometerSensor, description) => "Magnetometer Error: " + description
  }

  /** Characters 0, 4 and 7 of a diagnostic's text, which tell the kinds of diagnostic apart. */
  function Key(msg: LogMessage): (char, char, char)
  {
    match msg
    case Unavailable(DeviceMotionSensor) => ('D', 'c', 'm')
    case Unavailable(AccelerometerSensor) => ('T', 'a', 'e')
    case Unavailable(GyroSensor) => ('T', 'g', 'o')
    case Unavailable(MagnetometerSensor) => ('T', 'm', 'n')
    case SensorError(DeviceMotionSensor, _) => ('D', 'c', 'M')
    case SensorError(AccelerometerSensor, _) => ('A', 'l', 'o')
    case SensorError(GyroSensor, _) => ('G', 's', 'p')
    case SensorError(MagnetometerSensor, _) => ('M', 'e', 'm')
  }

  lemma TextKey(msg: LogMessage)
    ensures |Text(msg)| > 7 && (Text(msg)[0], Text(msg)[4], Text(msg)[7]) == Key(msg)
  {
    match msg
    case Unavailable(s) =>
      UnavailableKey(s);
    case SensorError(s, description) =>
      TextEndsWithDescription(s, description);
      ErrorPrefixKey(s);
  }

  lemma UnavailableKey(s: Sensor)
    ensures var text := Text(Unavailable(s));
      |text| > 7 && (text[0], text[4], text[7]) == Key(Unavailable(s))
  {
    var text := Text(Unavailable(s));
    match s
    case DeviceMotionSensor => assert text == "Device motion is not available";
    case AccelerometerSensor => assert text == "The accelerometer is not available";
    case GyroSensor => assert text == "The gyroscope is not available";
    case MagnetometerSensor => assert text == "The magnetometer is not available";
  }

  lemma ErrorPrefixKey(s: Sensor)
    ensures var prefix := Text(SensorError(s, ""));
      |prefix| > 7 && (prefix[0], prefix[4], prefix[7]) == Key(SensorError(s, ""))
  {
  }

  /** The text of an error ends with its description, after a prefix fixed by the sensor. */
  lemma TextEndsWithDescription(s: Sensor, description: string)
    ensures var prefix := Text(SensorError(s, ""));
      Text(SensorError(s, description)) == prefix + description
  {
  }

  /** The key tells the kind of a diagnostic and its sensor. */
  lemma KeyDeterminesKind(a: LogMessage, b: LogMessage)
    ensures Key(a) == Key(b) ==> a.SensorError? == b.SensorError? && a.sensor == b.sensor
  {
  }

  /** Distinct diagnostics print distinct text: the log can be read back. */
  lemma TextInjective(a: LogMessage, b: LogMessage)
    ensures Text(a) == Text(b) ==> a == b
  {
    if Text(a) == Text(b) {
      TextKey(a);
      TextKey(b);
      KeyDeterminesKind(a, b);
      if a.SensorError? {
        var prefix := Text(SensorError(a.sensor, ""));
        TextEndsWithDescription(a.sensor, a.description);
        TextEndsWithDescription(a.sensor, b.description);
        assert (prefix + a.description)[|prefix|..] == a.description;
        assert (prefix + b.description)[|prefix|..] == b.description;
      }
    }
  }

  function LogError(log: seq<LogMessage>, s: Sensor, error: Option<string>): seq<LogMessage>
  {
    if error.Some? then log + [SensorError(s, error.value)] else log
  }

  /** `startAccelerometer`, `startGyroscope`, `startMagnetometer`, `startDeviceMotion`. */
  function StartSensor(m: Manager, s: Sensor, isAvailable: bool): (r: Manager)
    ensures forall st :: st in r.active <==> st in m.active || (isAvailable && st == Periodic(s))
    ensures forall t :: t in r.updateInterval <==> t in m.updateInterval || (isAvailable && t == s)
    ensures forall t | t in r.updateInterval ::
      r.updateInterval[t] == if isAvailable && t == s then m.interval else m.updateInterval[t]
    ensures r.log == if isAvailable then m.log else m.log + [Unavailable(s)]
    ensures r.interval == m.interval
    ensures r == m.(active := r.active, updateInterval := r.updateInterval, log := r.log)
  {
    if isAvailable then
      m.(updateInterval := m.updateInterval[s := m.interval], active := m.active + {Periodic(s)})
    else
      m.(log := m.log + [Unavailable(s)])
  }

  /** `startCoreLocation`: acts on the current authorization status. */
  function StartCoreLocation(m: Manager, status: AuthorizationStatus): (r: Manager)
    ensures forall st :: st in r.active <==>
      st in m.active || (status == AuthorizedAlways && (st == LocationUpdates || st == HeadingUpdates))
    ensures r.authorizationRequests == m.authorizationRequests + (if status == NotDetermined then 1 else 0)
    ensures r == m.(active := r.active, authorizationRequests := r.authorizationRequests)
  {
    match status
    case AuthorizedAlways => m.(active := m.active + {LocationUpdates, HeadingUpdates})
    case NotDetermined => m.(authorizationRequests := m.authorizationRequests + 1)
    case AuthorizedWhenInUse | Restricted | Denied => m
  }

  /** `start`: stamps the start time, then starts every stream in turn. */
  function Start(m: Manager, now: TimeInterval, available: set<Sensor>, status: AuthorizationStatus): (r: Manager)
    ensures r.startTime == Some(now)
    ensures LocationUpdates in r.active <==> LocationUpdates in m.active || status == AuthorizedAlways
    ensures HeadingUpdates in r.active <==> HeadingUpdates in m.active || status == AuthorizedAlways
    ensures r.authorizationRequests == m.authorizationRequests + (if status == NotDetermined then 1 else 0)
    ensures r.record == m.record && r.emitted == m.emitted && r.interval == m.interval
    ensures r.attitudeReferenceFrame == m.attitudeReferenceFrame
  {
    var stamped := m.(startTime := Some(now));
    var withMotion := StartSensor(stamped, DeviceMotionSensor, DeviceMotionSensor in available);
    var withAccelerometer := StartSensor(withMotion, AccelerometerSensor, AccelerometerSensor in available);
    var withGyro := StartSensor(withAccelerometer, GyroSensor, GyroSensor in available);
    var withMagnetometer := StartSensor(withGyro, MagnetometerSensor, MagnetometerSensor in available);
    StartCoreLocation(withMagnetometer, status)
  }

  /** `stop`: turns every stream off, whatever was on before. */
  function Stop(m: Manager): (r: Manager)
    ensures forall st :: st !in r.active
    ensures r.(active := m.active) == m
  {
    m.(active := {})
  }

  /** `handleMotionUpdate`: outputs the whole current record. */
  function HandleMotionUpdate(m: Manager): Manager
  {
    m.(emitted := m.emitted + [m.record])
  }

  /** The accelerometer update handler installed by `startAccelerometer`. */
  function AccelerometerHandler(m: Manager, data: Option<AccelerometerData>, error: Option<string>): Manager
  {
    var logged := m.(log := LogError(m.log, AccelerometerSensor, error));
    match data
    case None => logged
    case Some(_) => logged.(record := logged.record.(accelerometer := data))
  }

  /** The gyroscope update handler installed by `startGyroscope`. */
  function GyroHandler(m: Manager, data: Option<GyroData>, error: Option<string>): Manager
  {
    var logged := m.(log := LogError(m.log, GyroSensor, error));
    match data
    case None => logged
    case Some(_) => logged.(record := logged.record.(gyro := data))
  }

  /** The magnetometer update handler installed by `startMagnetometer`. */
  function MagnetometerHandler(m: Manager, data: Option<MagnetometerData>, error: Option<string>): Manager
  {
    var logged := m.(log := LogError(m.log, MagnetometerSensor, error));
    match data
    case None => logged
    case Some(_) => logged.(record := logged.record.(magnetometer := data))
  }

  /**
    The device-motion update handler installed by `startDeviceMotion`; `now`
    is the wall-clock time the handler reads.
  */
  function DeviceMotionHandler(m: Manager, data: Option<DeviceMotion>, error: Option<string>, now: TimeInterval): Manager
  {
    var logged := m.(log := LogError(m.log, DeviceMotionSensor, error));
    match data
    case None => logged
    case Some(_) => HandleMotionUpdate(logged.(record := logged.record.(deviceMotion := data, timestamp := now)))
  }

  /** The delegate's `didChangeAuthorization`: only the location stream reacts. */
  function DidChangeAuthorization(m: Manager, status: AuthorizationStatus): (r: Manager)
    ensures forall st :: st in r.active <==>
      if st == LocationUpdates then status == AuthorizedAlways || status == AuthorizedWhenInUse else st in m.active
    ensures r == m.(active := r.active)
  {
    if status == AuthorizedAlways || status == AuthorizedWhenInUse then
      m.(active := m.active + {LocationUpdates})
    else
      m.(active := m.active - {LocationUpdates})
  }

  /** The delegate's `didUpdateLocations`: keeps the last location of the batch. */
  function DidUpdateLocations(m: Manager, locations: seq<CLLocation>): Manager
  {
    if |locations| == 0 then m
    else m.(record := m.record.(location := Some(LocationOf(locations[|locations| - 1]))))
  }

  /** The delegate's `didUpdateHeading`. */
  function DidUpdateHeading(m: Manager, heading: Heading): Manager
  {
    m.(record := m.record.(heading := Some(heading)))
  }

  /**
    The two authorization tables disagree: "when in use" makes
    `didChangeAuthorization` start location updates but not `startCoreLocation`,
    and only `startCoreLocation` ever starts heading updates.
  */
  lemma AuthorizationTablesDiffer(m: Manager, status: AuthorizationStatus)
    requires LocationUpdates !in m.active && HeadingUpdates !in m.active
    ensures LocationUpdates in DidChangeAuthorization(m, AuthorizedWhenInUse).active
    ensures LocationUpdates !in StartCoreLocation(m, AuthorizedWhenInUse).active
    ensures HeadingUpdates !in DidChangeAuthorization(m, status).active
    ensures HeadingUpdates in StartCoreLocation(m, status).active <==> status == AuthorizedAlways
  {
  }

  /** `start` turns on exactly the available sensors, leaving the others as they were. */
  lemma {:induction false} StartActivatesAvailableSensors(m: Manager, now: TimeInterval, available: set<Sensor>, status: AuthorizationStatus, s: Sensor)
    ensures Periodic(s) in Start(m, now, available, status).active <==> s in available || Periodic(s) in m.active
  {
    var stamped := m.(startTime := Some(now));
    var withMotion := StartSensor(stamped, DeviceMotionSensor, DeviceMotionSensor in available);
    var withAccelerometer := StartSensor(withMotion, AccelerometerSensor, AccelerometerSensor in available);
    var withGyro := StartSensor(withAccelerometer, GyroSensor, GyroSensor in available);
    var withMagnetometer := StartSensor(withGyro, MagnetometerSensor, MagnetometerSensor in available);
    assert Start(m, now, available, status).active == StartCoreLocation(withMagnetometer, status).active;
    match s
    case DeviceMotionSensor =>
    case AccelerometerSensor =>
    case GyroSensor =>
    case MagnetometerSensor =>
  }

  /**
    `start` gives each available sensor the manager's interval and leaves the
    interval of an unavailable one as it was.
  */
  lemma {:induction false} StartSetsIntervalOfAvailableSensors(m: Manager, now: TimeInterval, available: set<Sensor>, status: AuthorizationStatus, s: Sensor)
    ensures var r := Start(m, now, available, status);
      && (s in available ==> s in r.updateInterval && r.updateInterval[s] == m.interval)
      && (s !in available ==> (s in r.updateInterval <==> s in m.updateInterval))
      && (s !in available && s in m.updateInterval ==> r.updateInterval[s] == m.updateInterval[s])
  {
    var stamped := m.(startTime := Some(now));
    var withMotion := StartSensor(stamped, DeviceMotionSensor, DeviceMotionSensor in available);
    var withAccelerometer := StartSensor(withMotion, AccelerometerSensor, AccelerometerSensor in available);
    var withGyro := StartSensor(withAccelerometer, GyroSensor, GyroSensor in available);
    var withMagnetometer := StartSensor(withGyro, MagnetometerSensor, MagnetometerSensor in available);
    assert Start(m, now, available, status).updateInterval == withMagnetometer.updateInterval;
    StartSensorIntervalAt(stamped, DeviceMotionSensor, DeviceMotionSensor in available, s);
    StartSensorIntervalAt(withMotion, AccelerometerSensor, AccelerometerSensor in available, s);
    StartSensorIntervalAt(withAccelerometer, GyroSensor, GyroSensor in available, s);
    StartSensorIntervalAt(withGyro, MagnetometerSensor, MagnetometerSensor in available, s);
  }

  /** `StartSensor`'s interval contract at the one sensor `s`. */
  lemma StartSensorIntervalAt(m: Manager, t: Sensor, isAvailable: bool, s: Sensor)
    ensures var r := StartSensor(m, t, isAvailable);
      && r.interval == m.interval
      && (s in r.updateInterval <==> s in m.updateInterval || (isAvailable && s == t))
      && (s in r.updateInterval ==> r.updateInterval[s] == if isAvailable && s == t then m.interval else m.updateInterval[s])
  {
  }

  /** A second `stop` changes nothing. */
  lemma StopIdempotent(m: Manager)
    ensures Stop(Stop(m)) == Stop(m)
  {
  }

  /** The messages `start` logs about sensor `t`: one if it is unavailable. */
  function UnavailableLog(available: set<Sensor>, t: Sensor): seq<LogMessage>
  {
    if t in available then [] else [Unavailable(t)]
  }

  /** The messages `start` adds to the log, in the order it starts the sensors. */
  function StartMessages(available: set<Sensor>): seq<LogMessage>
  {
    UnavailableLog(available, DeviceMotionSensor) + UnavailableLog(available, AccelerometerSensor)
    + UnavailableLog(available, GyroSensor) + UnavailableLog(available, MagnetometerSensor)
  }

  lemma AppendAssociative<T>(x: seq<T>, a: seq<T>, b: seq<T>, c: seq<T>, d: seq<T>)
    ensures x + a + b + c + d == x + (a + b + c + d)
  {
    assert x + a + b == x + (a + b);
    assert x + (a + b) + c == x + (a + b + c);
  }

  lemma StartLog(m: Manager, now: TimeInterval, available: set<Sensor>, status: AuthorizationStatus)
    ensures Start(m, now, available, status).log == m.log + StartMessages(available)
  {
    var a, b, c, d := UnavailableLog(available, DeviceMotionSensor), UnavailableLog(available, AccelerometerSensor),
                      UnavailableLog(available, GyroSensor), UnavailableLog(available, MagnetometerSensor);
    var stamped := m.(startTime := Some(now));
    var withMotion := StartSensor(stamped, DeviceMotionSensor, DeviceMotionSensor in available);
    var withAccelerometer := StartSensor(withMotion, AccelerometerSensor, AccelerometerSensor in available);
    var withGyro := StartSensor(withAccelerometer, GyroSensor, GyroSensor in available);
    var withMagnetometer := StartSensor(withGyro, MagnetometerSensor, MagnetometerSensor in available);
    assert Start(m, now, available, status).log == withMagnetometer.log;
    assert withMagnetometer.log == m.log + a + b + c + d;
    AppendAssociative(m.log, a, b, c, d);
  }

  lemma UnavailableLogCount(available: set<Sensor>, t: Sensor, s: Sensor)
    ensures multiset(UnavailableLog(available, t))[Unavailable(s)] == if t == s && t !in available then 1 else 0
  {
  }

  /** `StartMessages` names each unavailable sensor once and no available one. */
  lemma StartMessagesCount(available: set<Sensor>, s: Sensor)
    ensures multiset(StartMessages(available))[Unavailable(s)] == (if s in available then 0 else 1)
  {
    var a, b, c, d := UnavailableLog(available, DeviceMotionSensor), UnavailableLog(available, AccelerometerSensor),
                      UnavailableLog(available, GyroSensor), UnavailableLog(available, MagnetometerSensor);
    assert multiset(StartMessages(available)) == multiset(a) + multiset(b) + multiset(c) + multiset(d);
    UnavailableLogCount(available, DeviceMotionSensor, s);
    UnavailableLogCount(available, AccelerometerSensor, s);
    UnavailableLogCount(available, GyroSensor, s);
    UnavailableLogCount(available, MagnetometerSensor, s);
  }

  /** Every message of `StartMessages` names an unavailable sensor. */
  lemma StartMessagesAreUnavailable(available: set<Sensor>)
    ensures forall msg | msg in StartMessages(available) :: exists t :: t !in available && msg == Unavailable(t)
  {
    forall msg | msg in StartMessages(available) ensures exists t :: t !in available && msg == Unavailable(t) {
      assert msg.Unavailable? && msg.sensor !in available;
    }
  }

  /**
    `start` logs exactly one message for each unavailable sensor, none for an
    available one, and nothing else; earlier log entries stay.
  */
  lemma StartLogsOncePerUnavailableSensor(m: Manager, now: TimeInterval, available: set<Sensor>, status: AuthorizationStatus, s: Sensor)
    ensures var log := Start(m, now, available, status).log;
      && |m.log| <= |log| && log[..|m.log|] == m.log
      && multiset(log[|m.log|..])[Unavailable(s)] == (if s in available then 0 else 1)
      && forall msg | msg in log[|m.log|..] :: exists t :: t !in available && msg == Unavailable(t)
  {
    var log := Start(m, now, available, status).log;
    StartLog(m, now, available, status);
    assert log[..|m.log|] == m.log;
    assert log[|m.log|..] == StartMessages(available);
    StartMessagesCount(available, s);
    StartMessagesAreUnavailable(available);
  }
}
