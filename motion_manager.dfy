/**
  `MotionManager`: the object that owns the motion record, starts and stops
  the sensor streams and receives their callbacks. Each method is one
  atomic step and is proved to produce the state its function in
  `MotionSpec` describes. The lemmas of `MotionSpec` therefore apply to
  every call, and those of `MotionTrace` and `FeasibleRuns` to every
  sequence of `Start`, `Stop` and handler and delegate calls.
*/
module Motion {
  import opened Wrappers
  import opened MotionData
  import opened MotionSpec

  class MotionManager {
    var motionDataRecord: MotionDataRecord
    var attitudeReferenceFrame: AttitudeReferenceFrame
    var interval: TimeInterval
    var startTime: Option<TimeInterval>
    /** The streams the motion and location frameworks have been told to deliver. */
    var active: set<Stream>
    /** The update interval last handed to the motion framework, per sensor. */
    var updateInterval: map<Sensor, TimeInterval>
    /** How many times "always" authorization was requested. */
    var authorizationRequests: nat
    /** Diagnostics, in the order they were logged. */
    var log: seq<LogMessage>
    /** Records output by `HandleMotionUpdate`, in order. */
    var emitted: seq<MotionDataRecord>

    /** The manager's observable state as a value. */
    function State(): Manager
      reads this
    {
      Manager(motionDataRecord, attitudeReferenceFrame, interval, startTime, active,
              updateInterval, authorizationRequests, log, emitted)
    }

    ghost predicate Valid()
      reads this
    {
      MotionSpec.Valid(State())
    }

    constructor ()
      ensures Valid()
      ensures State() == Initial
    {
      motionDataRecord := EmptyRecord;
      attitudeReferenceFrame := XTrueNorthZVertical;
      interval := 0.01;
      startTime := None;
      active := {};
      updateInterval := map[];
      authorizationRequests := 0;
      log := [];
      emitted := [];
    }

    /** `start`, with the clock reading, the sensors that report themselves available and the authorization status. */
    method Start(now: TimeInterval, available: set<Sensor>, status: AuthorizationStatus)
      requires Valid()
      modifies this
      ensures Valid()
      ensures State() == MotionSpec.Start(old(State()), now, available, status)
      ensures startTime == Some(now)
    {
      startTime := Some(now);
      StartDeviceMotion(DeviceMotionSensor in available);
      StartAccelerometer(AccelerometerSensor in available);
      StartGyroscope(GyroSensor in available);
      StartMagnetometer(MagnetometerSensor in available);
      StartCoreLocation(status);
    }

    method StartCoreLocation(status: AuthorizationStatus)
      requires Valid()
      modifies this
      ensures Valid()
      ensures State() == MotionSpec.StartCoreLocation(old(State()), status)
      ensures status == AuthorizedAlways ==> active == old(active) + {LocationUpdates, HeadingUpdates}
      ensures status == NotDetermined ==> authorizationRequests == old(authorizationRequests) + 1 && active == old(active)
      ensures status in {AuthorizedWhenInUse, Restricted, Denied} ==> State() == old(State())
    {
      match status
      case AuthorizedAlways =>
        active := active + {LocationUpdates};
        active := active + {HeadingUpdates};
      case NotDetermined =>
        authorizationRequests := authorizationRequests + 1;
      case AuthorizedWhenInUse | Restricted | Denied =>
    }

    method StartAccelerometer(isAvailable: bool)
      requires Valid()
      modifies this
      ensures Valid()
      ensures State() == StartSensor(old(State()), AccelerometerSensor, isAvailable)
    {
      if isAvailable {
        updateInterval := updateInterval[AccelerometerSensor := interval];
        active := active + {Periodic(AccelerometerSensor)};
      } else {
        log := log + [Unavailable(AccelerometerSensor)];
      }
    }

    method StartGyroscope(isAvailable: bool)
      requires Valid()
      modifies this
      ensures Valid()
      ensures State() == StartSensor(old(State()), GyroSensor, isAvailable)
    {
      if isAvailable {
        updateInterval := updateInterval[GyroSensor := interval];
        active := active + {Periodic(GyroSensor)};
      } else {
        log := log + [Unavailable(GyroSensor)];
      }
    }

    method StartMagnetometer(isAvailable: bool)
      requires Valid()
      modifies this
      ensures Valid()
      ensures State() == StartSensor(old(State()), MagnetometerSensor, isAvailable)
    {
      if isAvailable {
        updateInterval := updateInterval[MagnetometerSensor := interval];
        active := active + {Periodic(MagnetometerSensor)};
      } else {
        log := log + [Unavailable(MagnetometerSensor)];
      }
    }

    method StartDeviceMotion(isAvailable: bool)
      requires Valid()
      modifies this
      ensures Valid()
      ensures State() == StartSensor(old(State()), DeviceMotionSensor, isAvailable)
    {
      if isAvailable {
        updateInterval := updateInterval[DeviceMotionSensor := interval];
        active := active + {Periodic(DeviceMotionSensor)};
      } else {
        log := log + [Unavailable(DeviceMotionSensor)];
      }
    }

    /** `stop`: every stream off, whether or not it was ever started. */
    method Stop()
      requires Valid()
      modifies this
      ensures Valid()
      ensures State() == MotionSpec.Stop(old(State()))
      ensures active == {}
    {
      active := active - {LocationUpdates};
      active := active - {HeadingUpdates};
      active := active - {Periodic(AccelerometerSensor)};
      active := active - {Periodic(GyroSensor)};
      active := active - {Periodic(MagnetometerSensor)};
      active := active - {Periodic(DeviceMotionSensor)};
      forall st ensures st !in active {
        EveryStreamIsListed(st);
      }
    }

    /** `handleMotionUpdate`: outputs the whole record. */
    method HandleMotionUpdate()
      requires Valid()
      modifies this
      ensures Valid()
      ensures State() == MotionSpec.HandleMotionUpdate(old(State()))
      ensures emitted == old(emitted) + [motionDataRecord]
    {
      emitted := emitted + [motionDataRecord];
    }

    /**
      The accelerometer handler: logs an error if there is one, then stores
      the sample if there is one, even after an error. Nothing but the
      accelerometer slot changes in the record and nothing is emitted.
    */
    method AccelerometerHandler(data: Option<AccelerometerData>, error: Option<string>)
      requires Valid()
      modifies this
      ensures Valid()
      ensures State() == MotionSpec.AccelerometerHandler(old(State()), data, error)
      ensures motionDataRecord == if data.Some? then old(motionDataRecord).(accelerometer := data) else old(motionDataRecord)
      ensures log == old(log) + (if error.Some? then [SensorError(AccelerometerSensor, error.value)] else [])
      ensures emitted == old(emitted)
    {
      if error.Some? {
        log := log + [SensorError(AccelerometerSensor, error.value)];
      }
      if data.None? {
        return;
      }
      motionDataRecord := motionDataRecord.(accelerometer := data);
    }

    /** The gyroscope handler: as the accelerometer handler, for the gyro slot. */
    method GyroHandler(data: Option<GyroData>, error: Option<string>)
      requires Valid()
      modifies this
      ensures Valid()
      ensures State() == MotionSpec.GyroHandler(old(State()), data, error)
      ensures motionDataRecord == if data.Some? then old(motionDataRecord).(gyro := data) else old(motionDataRecord)
      ensures log == old(log) + (if error.Some? then [SensorError(GyroSensor, error.value)] else [])
      ensures emitted == old(emitted)
    {
      if error.Some? {
        log := log + [SensorError(GyroSensor, error.value)];
      }
      if data.None? {
        return;
      }
      motionDataRecord := motionDataRecord.(gyro := data);
    }

    /** The magnetometer handler: as the accelerometer handler, for the magnetometer slot. */
    method MagnetometerHandler(data: Option<MagnetometerData>, error: Option<string>)
      requires Valid()
      modifies this
      ensures Valid()
      ensures State() == MotionSpec.MagnetometerHandler(old(State()), data, error)
      ensures motionDataRecord == if data.Some? then old(motionDataRecord).(magnetometer := data) else old(motionDataRecord)
      ensures log == old(log) + (if error.Some? then [SensorError(MagnetometerSensor, error.value)] else [])
      ensures emitted == old(emitted)
    {
      if error.Some? {
        log := log + [SensorError(MagnetometerSensor, error.value)];
      }
      if data.None? {
        return;
      }
      motionDataRecord := motionDataRecord.(magnetometer := data);
    }

    /**
      The device-motion handler, with the clock reading it takes: a sample
      sets the device-motion slot and the record's timestamp, and the whole
      record is then emitted once; no other slot changes.
    */
    method DeviceMotionHandler(data: Option<DeviceMotion>, error: Option<string>, now: TimeInterval)
      requires Valid()
      modifies this
      ensures Valid()
      ensures State() == MotionSpec.DeviceMotionHandler(old(State()), data, error, now)
      ensures data.Some? ==> motionDataRecord == old(motionDataRecord).(deviceMotion := data, timestamp := now)
      ensures data.Some? ==> emitted == old(emitted) + [motionDataRecord]
      ensures data.None? ==> motionDataRecord == old(motionDataRecord) && emitted == old(emitted)
      ensures log == old(log) + (if error.Some? then [SensorError(DeviceMotionSensor, error.value)] else [])
    {
      if error.Some? {
        log := log + [SensorError(DeviceMotionSensor, error.value)];
      }
      if data.None? {
        return;
      }
      motionDataRecord := motionDataRecord.(deviceMotion := data);
      motionDataRecord := motionDataRecord.(timestamp := now);
      HandleMotionUpdate();
    }

    /** The delegate's `didChangeAuthorization`: starts or stops location updates only. */
    method DidChangeAuthorization(status: AuthorizationStatus)
      requires Valid()
      modifies this
      ensures Valid()
      ensures State() == MotionSpec.DidChangeAuthorization(old(State()), status)
      ensures LocationUpdates in active <==> status == AuthorizedAlways || status == AuthorizedWhenInUse
      ensures HeadingUpdates in active <==> HeadingUpdates in old(active)
    {
      if status == AuthorizedAlways || status == AuthorizedWhenInUse {
        active := active + {LocationUpdates};
      } else {
        active := active - {LocationUpdates};
      }
    }

    /** The delegate's `didUpdateLocations`: stores a copy of the batch's last location. */
    method DidUpdateLocations(locations: seq<CLLocation>)
      requires Valid()
      modifies this
      ensures Valid()
      ensures State() == MotionSpec.DidUpdateLocations(old(State()), locations)
      ensures |locations| == 0 ==> motionDataRecord == old(motionDataRecord)
      ensures |locations| > 0 ==>
        motionDataRecord == old(motionDataRecord).(location := Some(LocationOf(locations[|locations| - 1])))
    {
      if |locations| == 0 {
        return;
      }
      var location := locations[|locations| - 1];
      var floor: Option<Floor> := None;
      if location.floor.Some? {
        floor := Some(Floor(location.floor.value.level));
      }
      var locationData := Location(location.timestamp, location.coordinate, location.altitude, floor,
                                   location.horizontalAccuracy, location.verticalAccuracy,
                                   location.speed, location.course);
      motionDataRecord := motionDataRecord.(location := Some(locationData));
    }

    /** The delegate's `didUpdateHeading`: stores the heading. */
    method DidUpdateHeading(heading: Heading)
      requires Valid()
      modifies this
      ensures Valid()
      ensures State() == MotionSpec.DidUpdateHeading(old(State()), heading)
      ensures motionDataRecord == old(motionDataRecord).(heading := Some(heading))
    {
      motionDataRecord := motionDataRecord.(heading := Some(heading));
    }
  }
}
