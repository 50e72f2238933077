/**
  The value types of the motion logger: one struct per sensor stream and the
  `MotionDataRecord` that holds the latest sample of every stream.

  Floating-point quantities (`Double`, `TimeInterval`, `CLLocationDistance`, ...)
  are only copied by the manager, never computed with, so they are modelled
  as `real` values that are moved around unchanged.
*/
module MotionData {
  import opened Wrappers

  /** Seconds; also used for wall-clock dates (seconds since 1970). */
  type TimeInterval = real
  type Double = real

  /** `CMAcceleration`, `CMRotationRate`, `CMMagneticField`: three axes. */
  datatype Vector3 = Vector3(x: Double, y: Double, z: Double)

  datatype RotationMatrix = RotationMatrix(row1: Vector3, row2: Vector3, row3: Vector3)

  datatype Quaternion = Quaternion(x: Double, y: Double, z: Double, w: Double)

  datatype CalibrationAccuracy = Uncalibrated | Low | Medium | High

  datatype CalibratedMagneticField = CalibratedMagneticField(field: Vector3, accuracy: CalibrationAccuracy)

  datatype Coordinate = Coordinate(latitude: Double, longitude: Double)

  datatype Floor = Floor(level: int)

  datatype Location = Location(
    timestamp: TimeInterval,
    coordinate: Coordinate,
    altitude: Double,
    floor: Option<Floor>,
    horizontalAccuracy: Double,
    verticalAccuracy: Double,
    speed: Double,
    course: Double)

  datatype Heading = Heading(
    timestamp: TimeInterval,
    magneticHeading: Double,
    trueHeading: Double,
    headingAccuracy: Double,
    x: Double,
    y: Double,
    z: Double)

  datatype Attitude = Attitude(
    roll: Double,
    pitch: Double,
    yaw: Double,
    rotationMatrix: RotationMatrix,
    quaternion: Quaternion)

  datatype DeviceMotion = DeviceMotion(
    timestamp: TimeInterval,
    attitude: Attitude,
    rotationRate: Vector3,
    gravity: Vector3,
    userAcceleration: Vector3,
    magneticField: CalibratedMagneticField)

  datatype AltitudeData = AltitudeData(timestamp: TimeInterval, relativeAltitude: Double, pressure: Double)

  datatype AccelerometerData = AccelerometerData(timestamp: TimeInterval, acceleration: Vector3)

  datatype GyroData = GyroData(timestamp: TimeInterval, rotationRate: Vector3)

  datatype MagnetometerData = MagnetometerData(timestamp: TimeInterval, magneticField: Vector3)

  /** `CMAttitudeReferenceFrame`. */
  datatype AttitudeReferenceFrame =
    | XArbitraryZVertical
    | XArbitraryCorrectedZVertical
    | XMagneticNorthZVertical
    | XTrueNorthZVertical

  /** The record the manager keeps: one optional slot per stream. */
  datatype MotionDataRecord = MotionDataRecord(
    timestamp: TimeInterval,
    location: Option<Location>,
    heading: Option<Heading>,
    motionAttitudeReferenceFrame: AttitudeReferenceFrame,
    deviceMotion: Option<DeviceMotion>,
    altimeter: Option<AltitudeData>,
    accelerometer: Option<AccelerometerData>,
    gyro: Option<GyroData>,
    magnetometer: Option<MagnetometerData>)

  /** The record as declared: every slot empty, timestamp 0, true-north frame. */
  const EmptyRecord: MotionDataRecord :=
    MotionDataRecord(0.0, None, None, XTrueNorthZVertical, None, None, None, None, None)

  /** The record fields that no write path of the manager assigns. */
  predicate FixedFields(r: MotionDataRecord)
  {
    r.altimeter == None && r.motionAttitudeReferenceFrame == XTrueNorthZVertical
  }

  /** The slots of the record, and the samples they hold, as one sum type. */
  datatype Slot =
    | LocationSlot
    | HeadingSlot
    | DeviceMotionSlot
    | AltimeterSlot
    | AccelerometerSlot
    | GyroSlot
    | MagnetometerSlot

  datatype Sample =
    | LocationSample(location: Location)
    | HeadingSample(heading: Heading)
    | DeviceMotionSample(motion: DeviceMotion)
    | AltitudeSample(altitude: AltitudeData)
    | AccelerometerSample(accelerometer: AccelerometerData)
    | GyroSample(gyro: GyroData)
    | MagnetometerSample(magnetometer: MagnetometerData)

  /** What slot `k` of `r` holds, if anything. */
  function SlotValue(r: MotionDataRecord, k: Slot): Option<Sample>
  {
    match k
    case LocationSlot => if r.location.Some? then Some(LocationSample(r.location.value)) else None
    case HeadingSlot => if r.heading.Some? then Some(HeadingSample(r.heading.value)) else None
    case DeviceMotionSlot => if r.deviceMotion.Some? then Some(DeviceMotionSample(r.deviceMotion.value)) else None
    case AltimeterSlot => if r.altimeter.Some? then Some(AltitudeSample(r.altimeter.value)) else None
    case AccelerometerSlot => if r.accelerometer.Some? then Some(AccelerometerSample(r.accelerometer.value)) else None
    case GyroSlot => if r.gyro.Some? then Some(GyroSample(r.gyro.value)) else None
    case MagnetometerSlot => if r.magnetometer.Some? then Some(MagnetometerSample(r.magnetometer.value)) else None
  }

  /**
    A location as the location framework delivers it (`CLLocation`); its
    floor is an object of its own (`CLFloor`).
  */
  datatype CLFloor = CLFloor(level: int)

  datatype CLLocation = CLLocation(
    timestamp: TimeInterval,
    coordinate: Coordinate,
    altitude: Double,
    floor: Option<CLFloor>,
    horizontalAccuracy: Double,
    verticalAccuracy: Double,
    speed: Double,
    course: Double)

  /** The copy the location delegate stores: every field, the floor re-wrapped. */
  function LocationOf(cl: CLLocation): (r: Location)
    ensures r.floor.Some? <==> cl.floor.Some?
    ensures r.floor.Some? ==> r.floor.value.level == cl.floor.value.level
    ensures r.timestamp == cl.timestamp && r.coordinate == cl.coordinate && r.altitude == cl.altitude
    ensures r.horizontalAccuracy == cl.horizontalAccuracy && r.verticalAccuracy == cl.verticalAccuracy
    ensures r.speed == cl.speed && r.course == cl.course
  {
    var floor := match cl.floor
      case None => None
      case Some(clFloor) => Some(Floor(clFloor.level));
    Location(cl.timestamp, cl.coordinate, cl.altitude, floor,
             cl.horizontalAccuracy, cl.verticalAccuracy, cl.speed, cl.course)
  }
}
