/**
  Runs of the manager: any interleaving of `start`, `stop` and framework callbacks,
  each taken as one atomic step, and what every run guarantees about the
  record and the records it emits.
*/
module MotionTrace {
  import opened Wrappers
  import opened MotionData
  import opened MotionSpec

  /** One call into the manager: `start` or `stop` by its owner, or a framework callback. */
  datatype Event =
    | StartCalled(now: TimeInterval, available: set<Sensor>, status: AuthorizationStatus)
    | StopCalled
    | AccelerometerUpdate(accelerometerData: Option<AccelerometerData>, error: Option<string>)
    | GyroUpdate(gyroData: Option<GyroData>, error: Option<string>)
    | MagnetometerUpdate(magnetometerData: Option<MagnetometerData>, error: Option<string>)
    | DeviceMotionUpdate(motion: Option<DeviceMotion>, error: Option<string>, now: TimeInterval)
    | AuthorizationChanged(status: AuthorizationStatus)
    | LocationsUpdated(locations: seq<CLLocation>)
    | HeadingUpdated(heading: Heading)

  function Step(m: Manager, e: Event): Manager
  {
    match e
    case StartCalled(now, available, status) => Start(m, now, available, status)
    case StopCalled => Stop(m)
    case AccelerometerUpdate(data, error) => AccelerometerHandler(m, data, error)
    case GyroUpdate(data, error) => GyroHandler(m, data, error)
    case MagnetometerUpdate(data, error) => MagnetometerHandler(m, data, error)
    case DeviceMotionUpdate(data, error, now) => DeviceMotionHandler(m, data, error, now)
    case AuthorizationChanged(status) => DidChangeAuthorization(m, status)
    case LocationsUpdated(locations) => DidUpdateLocations(m, locations)
    case HeadingUpdated(heading) => DidUpdateHeading(m, heading)
  }

  function Run(m: Manager, es: seq<Event>): Manager
    decreases |es|
  {
    if es == [] then m else Run(Step(m, es[0]), es[1..])
  }

  /** A device-motion callback that carries a sample: the trigger for output. */
  predicate IsMotionSample(e: Event)
  {
    e.DeviceMotionUpdate? && e.motion.Some?
  }

  /** The sample event `e` hands over for slot `k`, if any. */
  function Delivered(e: Event, k: Slot): Option<Sample>
  {
    match e
    case AccelerometerUpdate(Some(data), _) =>
      if k == AccelerometerSlot then Some(AccelerometerSample(data)) else None
    case GyroUpdate(Some(data), _) =>
      if k == GyroSlot then Some(GyroSample(data)) else None
    case MagnetometerUpdate(Some(data), _) =>
      if k == MagnetometerSlot then Some(MagnetometerSample(data)) else None
    case DeviceMotionUpdate(Some(data), _, _) =>
      if k == DeviceMotionSlot then Some(DeviceMotionSample(data)) else None
    case LocationsUpdated(locations) =>
      if k == LocationSlot && |locations| > 0 then Some(LocationSample(LocationOf(locations[|locations| - 1]))) else None
    case HeadingUpdated(heading) =>
      if k == HeadingSlot then Some(HeadingSample(heading)) else None
    case _ => None
  }

  /** The last sample any event of `es` hands over for slot `k`. */
  function LastDelivered(es: seq<Event>, k: Slot): Option<Sample>
  {
    if es == [] then None
    else if Delivered(es[|es| - 1], k).Some? then Delivered(es[|es| - 1], k)
    else LastDelivered(es[..|es| - 1], k)
  }

  /** The clock reading of the last motion sample in `es`. */
  function LastMotionTime(es: seq<Event>): Option<TimeInterval>
  {
    if es == [] then None
    else if IsMotionSample(es[|es| - 1]) then Some(es[|es| - 1].now)
    else LastMotionTime(es[..|es| - 1])
  }

  function MotionSampleCount(es: seq<Event>): nat
  {
    if es == [] then 0
    else MotionSampleCount(es[..|es| - 1]) + (if IsMotionSample(es[|es| - 1]) then 1 else 0)
  }

  lemma {:induction false} RunSnoc(m: Manager, es: seq<Event>, e: Event)
    ensures Run(m, es + [e]) == Step(Run(m, es), e)
    decreases |es|
  {
    if es == [] {
      assert es + [e] == [e];
    } else {
      assert (es + [e])[1..] == es[1..] + [e];
      RunSnoc(Step(m, es[0]), es[1..], e);
    }
  }

  /** `RunSnoc` for a non-empty run, split at its last event. */
  lemma RunLast(m: Manager, es: seq<Event>)
    requires es != []
    ensures Run(m, es) == Step(Run(m, es[..|es| - 1]), es[|es| - 1])
  {
    assert es == es[..|es| - 1] + [es[|es| - 1]];
    RunSnoc(m, es[..|es| - 1], es[|es| - 1]);
  }

  lemma {:induction false} RunAppend(m: Manager, xs: seq<Event>, ys: seq<Event>)
    ensures Run(m, xs + ys) == Run(Run(m, xs), ys)
    decreases |xs|
  {
    if xs == [] {
      assert xs + ys == ys;
    } else {
      assert (xs + ys)[1..] == xs[1..] + ys;
      RunAppend(Step(m, xs[0]), xs[1..], ys);
    }
  }

  /**
    One step writes exactly the slot its event delivers a sample for, with
    that sample; every other slot keeps its value.
  */
  lemma StepWritesDeliveredSlot(m: Manager, e: Event, k: Slot)
    ensures SlotValue(Step(m, e).record, k) == if Delivered(e, k).Some? then Delivered(e, k) else SlotValue(m.record, k)
  {
  }

  /** Only a device-motion sample moves the record's timestamp, to the clock reading it came with. */
  lemma StepTimestamp(m: Manager, e: Event)
    ensures Step(m, e).record.timestamp == if IsMotionSample(e) then e.now else m.record.timestamp
  {
  }

  /** Only a device-motion sample emits, and it emits the record as just updated. */
  lemma StepEmits(m: Manager, e: Event)
    ensures Step(m, e).emitted == if IsMotionSample(e) then m.emitted + [Step(m, e).record] else m.emitted
  {
  }

  lemma StepPreservesValid(m: Manager, e: Event)
    requires Valid(m)
    ensures Valid(Step(m, e))
  {
  }

  /**
    Latest value wins: after any run, each slot holds the last sample
    delivered for it, or what it held before the run if none was.
  */
  lemma {:induction false} RunSlotIsLastDelivered(m: Manager, es: seq<Event>, k: Slot)
    ensures SlotValue(Run(m, es).record, k) == if LastDelivered(es, k).Some? then LastDelivered(es, k) else SlotValue(m.record, k)
    decreases |es|
  {
    if es != [] {
      var init, e := es[..|es| - 1], es[|es| - 1];
      RunLast(m, es);
      RunSlotIsLastDelivered(m, init, k);
      StepWritesDeliveredSlot(Run(m, init), e, k);
    }
  }

  /**
    No call or callback writes the altimeter slot or the record's reference
    frame: after any run both hold what they held before it.
  */
  lemma {:induction false} RunKeepsAltimeterAndFrame(m: Manager, es: seq<Event>)
    ensures Run(m, es).record.altimeter == m.record.altimeter
    ensures Run(m, es).record.motionAttitudeReferenceFrame == m.record.motionAttitudeReferenceFrame
    decreases |es|
  {
    if es != [] {
      RunKeepsAltimeterAndFrame(Step(m, es[0]), es[1..]);
    }
  }

  /** After any run, the record's timestamp is the clock reading of the last motion sample. */
  lemma {:induction false} RunTimestampIsLastMotionTime(m: Manager, es: seq<Event>)
    ensures Run(m, es).record.timestamp == if LastMotionTime(es).Some? then LastMotionTime(es).value else m.record.timestamp
    decreases |es|
  {
    if es != [] {
      var init, e := es[..|es| - 1], es[|es| - 1];
      RunLast(m, es);
      RunTimestampIsLastMotionTime(m, init);
      StepTimestamp(Run(m, init), e);
    }
  }

  /** A run emits one record per motion sample and never rewrites earlier output. */
  lemma {:induction false} RunEmitsOncePerMotionSample(m: Manager, es: seq<Event>)
    ensures |Run(m, es).emitted| == |m.emitted| + MotionSampleCount(es)
    ensures Run(m, es).emitted[..|m.emitted|] == m.emitted
    decreases |es|
  {
    if es != [] {
      var init, e := es[..|es| - 1], es[|es| - 1];
      RunEmitsOncePerMotionSample(m, init);
      RunLast(m, es);
      StepEmitsOnce(Run(m, init), e, m.emitted);
    }
  }

  lemma StepEmitsOnce(m: Manager, e: Event, prefix: seq<MotionDataRecord>)
    requires |prefix| <= |m.emitted| && m.emitted[..|prefix|] == prefix
    ensures |Step(m, e).emitted| == |m.emitted| + (if IsMotionSample(e) then 1 else 0)
    ensures Step(m, e).emitted[..|prefix|] == prefix
  {
    StepEmits(m, e);
    assert Step(m, e).emitted[..|prefix|] == m.emitted[..|prefix|];
  }

  /** Every record a run emits carries a device-motion sample. */
  lemma {:induction false} RunEmitsOnlyMotionRecords(m: Manager, es: seq<Event>)
    ensures |m.emitted| <= |Run(m, es).emitted|
    ensures forall i | |m.emitted| <= i < |Run(m, es).emitted| :: Run(m, es).emitted[i].deviceMotion.Some?
    decreases |es|
  {
    if es != [] {
      var init, e := es[..|es| - 1], es[|es| - 1];
      RunEmitsOnlyMotionRecords(m, init);
      RunLast(m, es);
      StepEmitsOnlyMotionRecords(Run(m, init), e, |m.emitted|);
    }
  }

  lemma StepEmitsOnlyMotionRecords(m: Manager, e: Event, from: nat)
    requires from <= |m.emitted|
    requires forall i | from <= i < |m.emitted| :: m.emitted[i].deviceMotion.Some?
    ensures from <= |Step(m, e).emitted|
    ensures forall i | from <= i < |Step(m, e).emitted| :: Step(m, e).emitted[i].deviceMotion.Some?
  {
    StepEmits(m, e);
    StepWritesDeliveredSlot(m, e, DeviceMotionSlot);
  }

  /** The invariant holds after any run that starts from a state where it holds. */
  lemma {:induction false} RunPreservesValid(m: Manager, es: seq<Event>)
    requires Valid(m)
    ensures Valid(Run(m, es))
    decreases |es|
  {
    if es != [] {
      StepPreservesValid(m, es[0]);
      RunPreservesValid(Step(m, es[0]), es[1..]);
    }
  }

  /**
    The record emitted for the motion sample at position `j` is the whole
    record right after that sample, at the position its count gives.
  */
  lemma EmittedRecordAtTrigger(m: Manager, es: seq<Event>, j: nat)
    requires j < |es| && IsMotionSample(es[j])
    ensures var n := |m.emitted| + MotionSampleCount(es[..j]);
      n < |Run(m, es).emitted| && Run(m, es).emitted[n] == Run(m, es[..j + 1]).record
  {
    var before, upTo := es[..j], es[..j + 1];
    assert upTo[..j] == before;
    RunLast(m, upTo);
    RunEmitsOncePerMotionSample(m, before);
    StepEmits(Run(m, before), es[j]);
    var mid := Run(m, upTo);
    var n := |m.emitted| + MotionSampleCount(before);
    assert n < |mid.emitted| && mid.emitted[n] == mid.record;
    RunSplit(m, es, j + 1);
    RunEmitsOncePerMotionSample(mid, es[j + 1..]);
    assert Run(m, es).emitted[..|mid.emitted|] == mid.emitted;
  }

  /** A run is its prefix of length `n` followed by the rest. */
  lemma RunSplit(m: Manager, es: seq<Event>, n: nat)
    requires n <= |es|
    ensures Run(m, es) == Run(Run(m, es[..n]), es[n..])
  {
    assert es == es[..n] + es[n..];
    RunAppend(m, es[..n], es[n..]);
  }

  /**
    What a consumer sees: the record emitted for the motion sample at
    position `j` is stamped with that sample's clock reading, and each of its
    slots holds the last sample delivered up to and including position `j`
    (or the slot's value before the run).
  */
  lemma EmittedSnapshotAtTrigger(m: Manager, es: seq<Event>, j: nat, k: Slot)
    requires j < |es| && IsMotionSample(es[j])
    ensures var n := |m.emitted| + MotionSampleCount(es[..j]);
      && n < |Run(m, es).emitted|
      && Run(m, es).emitted[n].timestamp == es[j].now
      && SlotValue(Run(m, es).emitted[n], k)
         == if LastDelivered(es[..j + 1], k).Some? then LastDelivered(es[..j + 1], k) else SlotValue(m.record, k)
  {
    EmittedRecordAtTrigger(m, es, j);
    var before, upTo := es[..j], es[..j + 1];
    assert upTo[..j] == before;
    RunLast(m, upTo);
    StepTimestamp(Run(m, before), es[j]);
    RunSlotIsLastDelivered(m, upTo, k);
  }

  /** Heading updates come on only through a `start` that finds "always" authorization. */
  lemma {:induction false} HeadingStartedOnlyByStartAlways(m: Manager, es: seq<Event>)
    ensures HeadingUpdates in Run(m, es).active ==>
      HeadingUpdates in m.active || exists i | 0 <= i < |es| :: es[i].StartCalled? && es[i].status == AuthorizedAlways
    decreases |es|
  {
    if es != [] && HeadingUpdates !in m.active && HeadingUpdates in Run(m, es).active {
      var e := es[0];
      if HeadingUpdates in Step(m, e).active {
        assert es[0].StartCalled? && es[0].status == AuthorizedAlways;
      } else {
        HeadingStartedOnlyByStartAlways(Step(m, e), es[1..]);
        var i :| 0 <= i < |es[1..]| && es[1..][i].StartCalled? && es[1..][i].status == AuthorizedAlways;
        assert es[i + 1] == es[1..][i];
      }
    }
  }

  /**
    Authorization granted after `start` asked for it: the grant turns
    location updates on, but heading updates stay off through any later
    calls and callbacks unless a later `start` finds "always".
  */
  lemma LateGrantStartsLocationOnly(now: TimeInterval, available: set<Sensor>, granted: AuthorizationStatus, rest: seq<Event>)
    requires granted == AuthorizedAlways || granted == AuthorizedWhenInUse
    requires forall i | 0 <= i < |rest| :: !(rest[i].StartCalled? && rest[i].status == AuthorizedAlways)
    ensures var first := [StartCalled(now, available, NotDetermined), AuthorizationChanged(granted)];
      && LocationUpdates in Run(Initial, first).active
      && HeadingUpdates !in Run(Initial, first + rest).active
  {
    var first := [StartCalled(now, available, NotDetermined), AuthorizationChanged(granted)];
    GrantTurnsLocationOn(first, granted);
    var es := first + rest;
    forall i | 0 <= i < |es| ensures !(es[i].StartCalled? && es[i].status == AuthorizedAlways) {
      if i >= 2 {
        assert es[i] == rest[i - 2];
      }
    }
    HeadingStartedOnlyByStartAlways(Initial, es);
  }

  /** A run that ends with a grant has location updates on. */
  lemma GrantTurnsLocationOn(es: seq<Event>, granted: AuthorizationStatus)
    requires granted == AuthorizedAlways || granted == AuthorizedWhenInUse
    requires es != [] && es[|es| - 1] == AuthorizationChanged(granted)
    ensures LocationUpdates in Run(Initial, es).active
  {
    RunLast(Initial, es);
  }
}
