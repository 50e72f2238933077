/**
  Which runs can actually happen. A sensor's update handler exists only
  once a `start` has found that sensor available and installed it, and the
  location delegate methods are called only once the lazily created
  location manager exists, with the manager as its delegate, and only for a
  stream some earlier call asked it for. A feasible run delivers no callback
  before its source exists; over such runs, a slot whose source never
  existed is never written.
*/
module FeasibleRuns {
  import opened Wrappers
  import opened MotionData
  import opened MotionSpec
  import opened MotionTrace

  /** The slot whose handler or delegate method an event is a call of, with or without data. */
  function Target(e: Event): Option<Slot>
  {
    match e
    case AccelerometerUpdate(_, _) => Some(AccelerometerSlot)
    case GyroUpdate(_, _) => Some(GyroSlot)
    case MagnetometerUpdate(_, _) => Some(MagnetometerSlot)
    case DeviceMotionUpdate(_, _, _) => Some(DeviceMotionSlot)
    case LocationsUpdated(_) => Some(LocationSlot)
    case HeadingUpdated(_) => Some(HeadingSlot)
    case _ => None
  }

  /** The sensors whose update handlers the calls of `es` installed: those some `start` found available. */
  function Installed(es: seq<Event>): set<Sensor>
  {
    if es == [] then {}
    else Installed(es[..|es| - 1]) + (if es[|es| - 1].StartCalled? then es[|es| - 1].available else {})
  }

  /**
    Whether a call touches the lazy location manager and so creates it, with
    the manager as its delegate: `stop` always does, `start` only when the
    status makes `startCoreLocation` use it.
  */
  predicate CreatesDelegate(e: Event)
  {
    e.StopCalled? || (e.StartCalled? && (e.status == AuthorizedAlways || e.status == NotDetermined))
  }

  predicate DelegateSet(es: seq<Event>)
  {
    es != [] && (CreatesDelegate(es[|es| - 1]) || DelegateSet(es[..|es| - 1]))
  }

  /**
    Whether a call asks the location manager for location updates: `start`
    finding "always", or an authorization change to "always" or "when in use".
  */
  predicate RequestsLocation(e: Event)
  {
    || (e.StartCalled? && e.status == AuthorizedAlways)
    || (e.AuthorizationChanged? && (e.status == AuthorizedAlways || e.status == AuthorizedWhenInUse))
  }

  /** Whether a call asks for heading updates: only `start` finding "always". */
  predicate RequestsHeading(e: Event)
  {
    e.StartCalled? && e.status == AuthorizedAlways
  }

  predicate LocationRequested(es: seq<Event>)
  {
    es != [] && (RequestsLocation(es[|es| - 1]) || LocationRequested(es[..|es| - 1]))
  }

  predicate HeadingRequested(es: seq<Event>)
  {
    es != [] && (RequestsHeading(es[|es| - 1]) || HeadingRequested(es[..|es| - 1]))
  }

  /**
    Whether, after the calls `es`, anything exists that can write slot `k`:
    an installed handler, or the delegate of a location manager that has
    been asked for that stream.
  */
  predicate Registered(es: seq<Event>, k: Slot)
  {
    match k
    case AccelerometerSlot => AccelerometerSensor in Installed(es)
    case GyroSlot => GyroSensor in Installed(es)
    case MagnetometerSlot => MagnetometerSensor in Installed(es)
    case DeviceMotionSlot => DeviceMotionSensor in Installed(es)
    case LocationSlot => DelegateSet(es) && LocationRequested(es)
    case HeadingSlot => DelegateSet(es) && HeadingRequested(es)
    case AltimeterSlot => false
  }

  /**
    Event `e` can follow the calls `past`: its handler is installed, or the
    delegate exists and its stream has been asked for.
  */
  predicate CanOccur(past: seq<Event>, e: Event)
  {
    && (Target(e).Some? ==> Registered(past, Target(e).value))
    && (e.AuthorizationChanged? ==> DelegateSet(past))
  }

  predicate Feasible(es: seq<Event>)
  {
    es == [] || (Feasible(es[..|es| - 1]) && CanOccur(es[..|es| - 1], es[|es| - 1]))
  }

  /** A handler is installed exactly when some `start` of the run found its sensor available. */
  lemma {:induction false} InstalledIffStarted(es: seq<Event>, s: Sensor)
    ensures s in Installed(es) <==> exists i | 0 <= i < |es| :: es[i].StartCalled? && s in es[i].available
    decreases |es|
  {
    if es != [] {
      var init := es[..|es| - 1];
      InstalledIffStarted(init, s);
      if s in Installed(init) {
        var i :| 0 <= i < |init| && init[i].StartCalled? && s in init[i].available;
        assert es[i] == init[i];
      } else if exists i | 0 <= i < |es| :: es[i].StartCalled? && s in es[i].available {
        var i :| 0 <= i < |es| && es[i].StartCalled? && s in es[i].available;
        if i < |init| {
          assert init[i] == es[i];
        }
      }
    }
  }

  /**
    The request predicates agree with the modelled framework state: a call
    turns location or heading updates on exactly when it requests them, or
    they were on already.
  */
  lemma StepTurnsStreamOnIffRequested(m: Manager, e: Event)
    ensures LocationUpdates in Step(m, e).active <==>
      RequestsLocation(e) || (LocationUpdates in m.active && !e.StopCalled? && !e.AuthorizationChanged?)
    ensures HeadingUpdates in Step(m, e).active <==> RequestsHeading(e) || (HeadingUpdates in m.active && !e.StopCalled?)
  {
  }

  /** A sensor's handler is installed exactly when the run gave the sensor an update interval. */
  lemma {:induction false} InstalledIffIntervalSet(m: Manager, es: seq<Event>, s: Sensor)
    ensures s in Run(m, es).updateInterval <==> s in m.updateInterval || s in Installed(es)
    decreases |es|
  {
    if es != [] {
      var init := es[..|es| - 1];
      InstalledIffIntervalSet(m, init, s);
      RunLast(m, es);
      StepSetsInterval(Run(m, init), es[|es| - 1], s);
    }
  }

  lemma StepSetsInterval(m: Manager, e: Event, s: Sensor)
    ensures s in Step(m, e).updateInterval <==> s in m.updateInterval || (e.StartCalled? && s in e.available)
  {
    if e.StartCalled? {
      StartSetsIntervalOfAvailableSensors(m, e.now, e.available, e.status, s);
    }
  }

  /** Heading updates are requested in a run exactly when some `start` of it finds "always". */
  lemma {:induction false} HeadingRequestedIffStartAlways(es: seq<Event>)
    ensures HeadingRequested(es) <==> exists i | 0 <= i < |es| :: es[i].StartCalled? && es[i].status == AuthorizedAlways
    decreases |es|
  {
    if es != [] {
      var init := es[..|es| - 1];
      HeadingRequestedIffStartAlways(init);
      if HeadingRequested(init) {
        var i :| 0 <= i < |init| && init[i].StartCalled? && init[i].status == AuthorizedAlways;
        assert es[i] == init[i];
      } else if exists i | 0 <= i < |es| :: es[i].StartCalled? && es[i].status == AuthorizedAlways {
        var i :| 0 <= i < |es| && es[i].StartCalled? && es[i].status == AuthorizedAlways;
        if i < |init| {
          assert init[i] == es[i];
        }
      }
    }
  }

  /** Once something can write a slot, it stays so. */
  lemma RegisteredGrows(es: seq<Event>, k: Slot)
    requires es != []
    ensures Registered(es[..|es| - 1], k) ==> Registered(es, k)
  {
  }

  /** An event delivers a sample only for its own target slot. */
  lemma DeliveredToTarget(e: Event, k: Slot)
    ensures Delivered(e, k).Some? ==> Target(e) == Some(k)
  {
  }

  /** A feasible run delivers no sample to a slot whose source never existed. */
  lemma {:induction false} UnregisteredSlotNeverDelivered(es: seq<Event>, k: Slot)
    requires Feasible(es) && !Registered(es, k)
    ensures LastDelivered(es, k) == None
    decreases |es|
  {
    if es != [] {
      var init, e := es[..|es| - 1], es[|es| - 1];
      RegisteredGrows(es, k);
      UnregisteredSlotNeverDelivered(init, k);
      DeliveredToTarget(e, k);
    }
  }

  /**
    Over a feasible run, a slot whose source never existed keeps the value
    it had before the run, in the record and in every record emitted
    during the run.
  */
  lemma {:induction false} UnregisteredSlotUnchanged(m: Manager, es: seq<Event>, k: Slot)
    requires Feasible(es) && !Registered(es, k)
    ensures SlotValue(Run(m, es).record, k) == SlotValue(m.record, k)
    ensures |m.emitted| <= |Run(m, es).emitted|
    ensures forall i | |m.emitted| <= i < |Run(m, es).emitted| :: SlotValue(Run(m, es).emitted[i], k) == SlotValue(m.record, k)
    decreases |es|
  {
    UnregisteredSlotNeverDelivered(es, k);
    RunSlotIsLastDelivered(m, es, k);
    if es != [] {
      var init := es[..|es| - 1];
      RegisteredGrows(es, k);
      UnregisteredSlotUnchanged(m, init, k);
      RunLast(m, es);
      StepKeepsEmittedSlot(Run(m, init), es[|es| - 1], |m.emitted|, k, SlotValue(m.record, k));
    }
  }

  /** A step whose record keeps slot `k` at `v` emits only records with `v` in that slot. */
  lemma StepKeepsEmittedSlot(m: Manager, e: Event, from: nat, k: Slot, v: Option<Sample>)
    requires from <= |m.emitted| && forall i | from <= i < |m.emitted| :: SlotValue(m.emitted[i], k) == v
    requires SlotValue(Step(m, e).record, k) == v
    ensures from <= |Step(m, e).emitted|
    ensures forall i | from <= i < |Step(m, e).emitted| :: SlotValue(Step(m, e).emitted[i], k) == v
  {
    StepEmits(m, e);
  }

  /**
    A gyroscope that no `start` of a feasible run from a fresh manager found
    available: the gyro slot stays empty, in the record and in every
    emitted record.
  */
  lemma UnavailableGyroNeverRecorded(es: seq<Event>)
    requires Feasible(es)
    requires forall i | 0 <= i < |es| && es[i].StartCalled? :: GyroSensor !in es[i].available
    ensures Run(Initial, es).record.gyro == None
    ensures forall i | 0 <= i < |Run(Initial, es).emitted| :: Run(Initial, es).emitted[i].gyro == None
  {
    InstalledIffStarted(es, GyroSensor);
    UnregisteredSlotUnchanged(Initial, es, GyroSlot);
  }

  /**
    Until some call has created the location manager, no location or
    heading reaches the record or the emitted records.
  */
  lemma NoDelegateNoLocation(es: seq<Event>)
    requires Feasible(es) && !DelegateSet(es)
    ensures Run(Initial, es).record.location == None && Run(Initial, es).record.heading == None
    ensures forall i | 0 <= i < |Run(Initial, es).emitted| ::
      Run(Initial, es).emitted[i].location == None && Run(Initial, es).emitted[i].heading == None
  {
    UnregisteredSlotUnchanged(Initial, es, LocationSlot);
    UnregisteredSlotUnchanged(Initial, es, HeadingSlot);
  }

  /**
    From a fresh manager, a feasible run in which no `start` finds "always"
    never records a heading: authorization granted later starts only
    location updates, so the heading slot stays empty in the record and in
    every emitted record.
  */
  lemma HeadingNeedsStartAlways(es: seq<Event>)
    requires Feasible(es)
    requires forall i | 0 <= i < |es| :: !(es[i].StartCalled? && es[i].status == AuthorizedAlways)
    ensures Run(Initial, es).record.heading == None
    ensures forall i | 0 <= i < |Run(Initial, es).emitted| :: Run(Initial, es).emitted[i].heading == None
  {
    HeadingRequestedIffStartAlways(es);
    UnregisteredSlotUnchanged(Initial, es, HeadingSlot);
  }

  /** A feasible run extended by an event that can occur is feasible. */
  lemma FeasibleSnoc(es: seq<Event>, e: Event)
    requires Feasible(es) && CanOccur(es, e)
    ensures Feasible(es + [e])
  {
    assert (es + [e])[..|es|] == es;
  }

  /**
    A `start` at clock 99 that finds device motion and the accelerometer
    available, then motion sample M1 at clock 100, accelerometer sample A1
    and motion sample M2 at clock 102, from a fresh manager: the run can
    happen, and it emits two records, the first without an accelerometer
    sample, the second with A1.
  */
  lemma MotionAccelerometerMotionScenario(status: AuthorizationStatus, m1: DeviceMotion, a1: AccelerometerData, m2: DeviceMotion)
    ensures var es := [StartCalled(99.0, {DeviceMotionSensor, AccelerometerSensor}, status),
                       DeviceMotionUpdate(Some(m1), None, 100.0),
                       AccelerometerUpdate(Some(a1), None),
                       DeviceMotionUpdate(Some(m2), None, 102.0)];
      && Feasible(es)
      && var r := Run(Initial, es);
      && |r.emitted| == 2
      && r.emitted[0].deviceMotion == Some(m1) && r.emitted[0].accelerometer == None && r.emitted[0].timestamp == 100.0
      && r.emitted[1].deviceMotion == Some(m2) && r.emitted[1].accelerometer == Some(a1) && r.emitted[1].timestamp == 102.0
  {
    var e0 := StartCalled(99.0, {DeviceMotionSensor, AccelerometerSensor}, status);
    var e1, e2, e3 := DeviceMotionUpdate(Some(m1), None, 100.0), AccelerometerUpdate(Some(a1), None), DeviceMotionUpdate(Some(m2), None, 102.0);
    ScenarioIsFeasible(e0, e1, e2, e3);
    var es := [e0, e1, e2, e3];
    RunSplit(Initial, es, 1);
    assert es[..1] == [e0] && es[1..] == [e1, e2, e3];
    assert Run(Initial, [e0]) == Step(Initial, e0);
    MotionAccelerometerMotion(Step(Initial, e0), m1, a1, m2);
  }

  /** The three callbacks of the scenario, from any state with an empty record and no output. */
  lemma MotionAccelerometerMotion(m: Manager, m1: DeviceMotion, a1: AccelerometerData, m2: DeviceMotion)
    requires m.record == EmptyRecord && m.emitted == []
    ensures var r := Run(m, [DeviceMotionUpdate(Some(m1), None, 100.0),
                             AccelerometerUpdate(Some(a1), None),
                             DeviceMotionUpdate(Some(m2), None, 102.0)]);
      && |r.emitted| == 2
      && r.emitted[0].deviceMotion == Some(m1) && r.emitted[0].accelerometer == None && r.emitted[0].timestamp == 100.0
      && r.emitted[1].deviceMotion == Some(m2) && r.emitted[1].accelerometer == Some(a1) && r.emitted[1].timestamp == 102.0
  {
    var e1, e2, e3 := DeviceMotionUpdate(Some(m1), None, 100.0), AccelerometerUpdate(Some(a1), None), DeviceMotionUpdate(Some(m2), None, 102.0);
    var es := [e1, e2, e3];
    var s1 := Step(m, e1);
    var s2 := Step(s1, e2);
    var s3 := Step(s2, e3);
    assert es[1..] == [e2, e3] && es[1..][1..] == [e3];
    assert Run(s2, [e3]) == s3;
    assert Run(m, es) == s3;
  }

  lemma ScenarioIsFeasible(e0: Event, e1: Event, e2: Event, e3: Event)
    requires e0.StartCalled? && e0.available == {DeviceMotionSensor, AccelerometerSensor}
    requires e1.DeviceMotionUpdate? && e2.AccelerometerUpdate? && e3.DeviceMotionUpdate?
    ensures Feasible([e0, e1, e2, e3])
  {
    FeasibleSnoc([], e0);
    assert [] + [e0] == [e0];
    assert Installed([e0]) == {DeviceMotionSensor, AccelerometerSensor} by {
      assert [e0][..0] == [];
    }
    FeasibleSnoc([e0], e1);
    assert [e0] + [e1] == [e0, e1];
    assert Installed([e0, e1]) == Installed([e0]) by {
      assert [e0, e1][..1] == [e0];
    }
    FeasibleSnoc([e0, e1], e2);
    assert [e0, e1] + [e2] == [e0, e1, e2];
    assert Installed([e0, e1, e2]) == Installed([e0, e1]) by {
      assert [e0, e1, e2][..2] == [e0, e1];
    }
    FeasibleSnoc([e0, e1, e2], e3);
    assert [e0, e1, e2] + [e3] == [e0, e1, e2, e3];
  }
}
