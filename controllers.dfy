/** The two base controllers: `IdealController`, which forces exact joint
    values on a robot (from a trajectory or from a desired configuration),
    and `RedirectController`, which forwards to the controller of a robot
    living in another environment and keeps a copy of its "done" flag.

    Each state-changing method of `IdealController` is proved against a pure
    function on `ControllerState` (the controller's fields as a value) and
    `RobotState` (the parts of the robot the controller reads and writes);
    the properties of the controller are lemmas about those functions. */
module Controllers {
  import opened Options
  import opened Geometry
  import opened Streams
  import opened DofScatter
  import opened Errors

  /** A rigid transform: rotation quaternion and translation. */
  datatype Transform = Transform(rot: seq<real>, trans: Vec3)

  /** What a default-constructed `Transform` holds. */
  const Identity := Transform([1.0, 0.0, 0.0, 0.0], Zero)

  /** One trajectory sample (`Trajectory::TPOINT`): joint values and the
      base transform. */
  datatype TPoint = TPoint(q: seq<real>, trans: Transform)

  /** A trajectory as the controller uses it: its DOF count, its total
      duration, and `SampleTrajectory`, which may fail. */
  datatype Trajectory = Trajectory(dof: int, duration: real, sample: real -> Option<TPoint>)

  /** The robot data the controller reads and writes. */
  datatype RobotState = RobotState(
    values: seq<real>,
    velocities: seq<real>,
    transform: Transform,
    linearVel: Vec3,
    angularVel: Vec3)

  /** The robot being controlled. Its DOF limits are fixed here; the
      joint-limit change callback is not part of this model. */
  class Robot {
    var dofValues: seq<real>
    var dofVelocities: seq<real>
    var transform: Transform
    var linearVel: Vec3
    var angularVel: Vec3
    const lowerLimits: seq<real>
    const upperLimits: seq<real>

    function State(): RobotState
      reads this
    {
      RobotState(dofValues, dofVelocities, transform, linearVel, angularVel)
    }
  }

  /** What a controller without a robot stands in for the robot's data. */
  const NoRobot := RobotState([], [], Identity, Zero, Zero)

  /** The fields of an `IdealController` as a value. */
  datatype ControllerState = ControllerState(
    dofIndices: seq<int>,
    controlTransformation: int,
    speed: real,
    time: real,
    traj: Option<Trajectory>,
    desired: seq<real>,
    desiredTransform: Transform,
    lower: seq<real>,
    upper: seq<real>,
    paused: bool,
    done: bool)

  /** What every operation keeps: the limit vectors have one entry per DOF,
      and a trajectory and desired values are never pending together
      (`SetPath` clears the desired values, `SetDesired` drops the
      trajectory). */
  predicate Valid(s: ControllerState) {
    |s.lower| == |s.upper| && (s.traj.None? || s.desired == [])
  }

  /** `_SetDOFValues`, with and without a transform: `None` when one of the
      checked accesses of the scatter loop or of the limit check throws,
      otherwise the robot with the listed DOFs set, their velocities zeroed
      and, with a transform, the base placed there and its velocity zeroed. */
  function ApplySpec(indices: seq<int>, nLimits: nat, rs: RobotState, values: seq<real>, t: Option<Transform>)
    : (r: Option<RobotState>)
    ensures r.Some? <==> CanScatter(|rs.values|, |rs.velocities|, indices, |values|) && nLimits <= |rs.values|
    ensures r.Some? ==> |r.value.values| == |rs.values| && |r.value.velocities| == |rs.velocities|
  {
    if CanScatter(|rs.values|, |rs.velocities|, indices, |values|) && nLimits <= |rs.values| then
      Some(RobotState(
        Scatter(rs.values, indices, values),
        ZeroAt(rs.velocities, indices),
        t.GetOr(rs.transform),
        if t.Some? then Zero else rs.linearVel,
        if t.Some? then Zero else rs.angularVel))
    else None
  }

  /** After a successful application, each listed DOF holds its commanded
      value (indices listed once) and is at rest, and every other DOF keeps
      its value and velocity. */
  lemma ApplyTouchesOnlyListedDofs(indices: seq<int>, nLimits: nat, rs: RobotState, values: seq<real>, t: Option<Transform>)
    requires ApplySpec(indices, nLimits, rs, values, t).Some?
    ensures var r := ApplySpec(indices, nLimits, rs, values, t).value;
      (Distinct(indices) ==> Gather(r.values, indices) == values[..|indices|]) &&
      (forall k :: 0 <= k < |rs.values| && k !in indices ==> r.values[k] == rs.values[k]) &&
      (forall k :: 0 <= k < |rs.velocities| ==> r.velocities[k] == if k in indices then 0.0 else rs.velocities[k])
  {
    if Distinct(indices) {
      GatherAfterScatter(rs.values, indices, values);
    }
    forall k | 0 <= k < |rs.values| && k !in indices
      ensures Scatter(rs.values, indices, values)[k] == rs.values[k]
    {
      ScatterAt(rs.values, indices, values, k);
    }
  }

  /** The transform `_SetDOFValues` is given: the sampled or desired one
      when the controller controls the base, none otherwise. */
  function BaseTarget(s: ControllerState, t: Transform): Option<Transform> {
    if s.controlTransformation != 0 then Some(t) else None
  }

  /** The trajectory clock: past the duration it is pulled back to the
      duration and the controller is done; then it advances by `delta`
      (speed times elapsed time). */
  function ClockTick(time: real, done: bool, duration: real, delta: real): (r: (real, bool))
    ensures r.1 <==> done || time > duration
    ensures time > duration ==> r.0 == duration + delta
    ensures time <= duration ==> r.0 == time + delta
  {
    ((if time > duration then duration else time) + delta, done || time > duration)
  }

  /** The clock after `n` ticks. */
  function Ticks(n: nat, time: real, done: bool, duration: real, delta: real): (real, bool)
    decreases n
  {
    if n == 0 then (time, done)
    else
      var prev := Ticks(n - 1, time, done, duration, delta);
      ClockTick(prev.0, prev.1, duration, delta)
  }

  /** Starting from no more than one step past the duration, the clock
      never gets further than one step past it and never goes below zero. */
  lemma ClockStaysNearDuration(time: real, done: bool, duration: real, delta: real)
    requires 0.0 <= duration && 0.0 <= delta && 0.0 <= time <= duration + delta
    ensures 0.0 <= ClockTick(time, done, duration, delta).0 <= duration + delta
  {
  }

  /** Where `n` unhindered steps of `delta` carry a clock that starts at
      `time`. */
  function Reach(n: nat, time: real, delta: real): real
    decreases n
  {
    if n == 0 then time else Reach(n - 1, time, delta) + delta
  }

  /** `Reach` is `time + n * delta`. */
  lemma {:induction false} ReachIsLinear(n: nat, time: real, delta: real)
    ensures Reach(n, time, delta) == time + n as real * delta
    decreases n
  {
    if n > 0 {
      ReachIsLinear(n - 1, time, delta);
      assert (n - 1) as real * delta + delta == ((n - 1) as real + 1.0) * delta;
    }
  }

  /** After n >= 1 ticks the clock is at least the smaller of the start plus
      n steps and the duration plus one step. */
  lemma {:induction false} TicksLowerBound(n: nat, time: real, done: bool, duration: real, delta: real)
    requires n >= 1 && 0.0 <= delta
    ensures Ticks(n, time, done, duration, delta).0 >= Min(Reach(n, time, delta), duration + delta)
    decreases n
  {
    if n > 1 {
      TicksLowerBound(n - 1, time, done, duration, delta);
    }
  }

  function Min(a: real, b: real): real {
    if a <= b then a else b
  }

  /** A trajectory always finishes: with a positive step, once n steps
      carry the clock past the duration, the following tick sets done. */
  lemma TrajectoryFinishes(n: nat, time: real, done: bool, duration: real, delta: real)
    requires n >= 1 && 0.0 < delta && time + n as real * delta > duration
    ensures Ticks(n + 1, time, done, duration, delta).1
  {
    ReachIsLinear(n, time, delta);
    TicksLowerBound(n, time, done, duration, delta);
  }

  /** Once done, more ticks keep it done. */
  lemma {:induction false} TicksKeepDone(n: nat, time: real, duration: real, delta: real)
    ensures Ticks(n, time, true, duration, delta).1
    decreases n
  {
    if n > 0 {
      TicksKeepDone(n - 1, time, duration, delta);
    }
  }

  /** The constructor: unpaused, done, clock at zero, speed one, no robot. */
  function InitialState(): (s: ControllerState)
    ensures Valid(s) && s.done && !s.paused && s.speed == 1.0 && s.time == 0.0
  {
    ControllerState([], 0, 1.0, 0.0, None, [], Identity, [], [], false, true)
  }

  /** `Init` with a robot: takes the DOF indices, the base-control flag and
      the robot's DOF limits, and unpauses; without one it only unpauses. */
  function InitSpec(s: ControllerState, robot: Option<(seq<real>, seq<real>)>, dofindices: seq<int>, nControl: int)
    : (r: ControllerState)
    requires robot.Some? ==> |robot.value.0| == |robot.value.1|
    ensures Valid(s) ==> Valid(r)
    ensures !r.paused
    ensures robot.Some? ==> r.dofIndices == dofindices && r.controlTransformation == nControl
    ensures robot.Some? ==> r.lower == robot.value.0 && r.upper == robot.value.1
    ensures robot.Some? ==> r.(dofIndices := s.dofIndices, controlTransformation := s.controlTransformation,
                              lower := s.lower, upper := s.upper) == s.(paused := false)
    ensures robot.None? ==> r == s.(paused := false)
  {
    match robot
    case None => s.(paused := false)
    case Some(limits) =>
      s.(dofIndices := dofindices, controlTransformation := nControl,
         lower := limits.0, upper := limits.1, paused := false)
  }

  /** `Reset`: drops the trajectory and the desired values. */
  function ResetSpec(s: ControllerState): (r: ControllerState)
    ensures Valid(s) ==> Valid(r)
    ensures r.traj.None? && r.desired == []
  {
    s.(traj := None, desired := [])
  }

  /** `SetDesired`. */
  function SetDesiredSpec(s: ControllerState, rs: RobotState, values: seq<real>, trans: Option<Transform>)
    : (r: (Outcome<bool>, ControllerState, RobotState))
    ensures Valid(s) ==> Valid(r.1)
    ensures |values| != |s.dofIndices| <==> r.0 == Throw(InvalidArguments)
    ensures r.0 != Throw(OutOfRange) ==> r.2 == rs || r.0 == Return(true)
  {
    if |values| != |s.dofIndices| then (Throw(InvalidArguments), s, rs)
    else
      var cleared := s.(time := 0.0, traj := None);
      if s.paused then (Return(true), cleared, rs)
      else
        var target := if s.controlTransformation != 0 then trans.GetOr(rs.transform) else s.desiredTransform;
        var commanded := cleared.(desired := values, desiredTransform := target);
        match ApplySpec(s.dofIndices, |s.lower|, rs, values, BaseTarget(s, target))
        case None => (Throw(OutOfRange), commanded, rs)
        case Some(moved) => (Return(true), commanded.(done := false), moved)
  }

  /** What `SetDesired` does to the controller: a size mismatch throws
      before anything changes; otherwise the clock restarts and the
      trajectory is dropped; a paused controller keeps its desired values,
      its done flag and the robot; an unpaused one that succeeds holds the
      new values and is no longer done. */
  lemma SetDesiredEffects(s: ControllerState, rs: RobotState, values: seq<real>, trans: Option<Transform>)
    ensures var r := SetDesiredSpec(s, rs, values, trans);
      (r.0 == Throw(InvalidArguments) ==> r.1 == s && r.2 == rs) &&
      (|values| == |s.dofIndices| ==> r.1.time == 0.0 && r.1.traj.None?) &&
      (|values| == |s.dofIndices| && s.paused ==>
         r.0 == Return(true) && r.1.desired == s.desired && r.1.done == s.done && r.2 == rs) &&
      (!s.paused && r.0 == Return(true) ==> r.1.desired == values && !r.1.done)
  {
  }

  /** The controller once `SetDesired` has recorded its command. */
  function Commanded(s: ControllerState, rs: RobotState, values: seq<real>, trans: Option<Transform>): ControllerState {
    var target := if s.controlTransformation != 0 then trans.GetOr(rs.transform) else s.desiredTransform;
    s.(time := 0.0, traj := None, desired := values, desiredTransform := target)
  }

  /** An unpaused `SetDesired` with the right number of values applies
      them, with the base target when the base is controlled. */
  lemma DesiredCommanded(s: ControllerState, rs: RobotState, values: seq<real>, trans: Option<Transform>)
    requires |values| == |s.dofIndices| && !s.paused
    ensures var c, r := Commanded(s, rs, values, trans), SetDesiredSpec(s, rs, values, trans);
      match ApplySpec(s.dofIndices, |s.lower|, rs, values, BaseTarget(s, c.desiredTransform))
      case None => r.0 == Throw(OutOfRange) && r.1 == c && r.2 == rs
      case Some(moved) => r.0 == Return(true) && r.1 == c.(done := false) && r.2 == moved
  {
  }

  /** `SetDesired` resets the clock and drops the trajectory whatever
      they were. */
  lemma DesiredIgnoresClock(s: ControllerState, rs: RobotState, values: seq<real>, trans: Option<Transform>)
    requires |values| == |s.dofIndices| && !s.paused
    ensures var a, b := SetDesiredSpec(s, rs, values, trans), SetDesiredSpec(s.(time := 0.0, traj := None), rs, values, trans);
      a.0 == b.0 && a.1 == b.1 && a.2 == b.2
  {
    DesiredCommanded(s, rs, values, trans);
    DesiredCommanded(s.(time := 0.0, traj := None), rs, values, trans);
    assert Commanded(s, rs, values, trans) == Commanded(s.(time := 0.0, traj := None), rs, values, trans);
  }

  /** `SetPath`. */
  function SetPathSpec(s: ControllerState, t: Option<Trajectory>): (r: (Outcome<bool>, ControllerState))
    ensures Valid(s) ==> Valid(r.1)
    ensures s.paused ==> r.0 == Return(false) && r.1.traj.None? && r.1.done
    ensures r.0 == Return(true) ==> r.1.traj == t && r.1.time == 0.0 && r.1.desired == [] && (r.1.done <==> t.None?)
  {
    if s.paused then (Return(false), s.(traj := None, done := true))
    else if t.Some? && t.value.dof != |s.dofIndices| then (Throw(InvalidArguments), s)
    else (Return(true), s.(traj := t, time := 0.0, done := t.None?, desired := []))
  }

  /** An unpaused `SetPath` throws exactly when a trajectory is given whose
      DOF count differs from the number of controlled DOFs, and then
      changes nothing. */
  lemma SetPathChecksDimension(s: ControllerState, t: Option<Trajectory>)
    requires !s.paused
    ensures var r := SetPathSpec(s, t);
      (r.0 == Throw(InvalidArguments) <==> t.Some? && t.value.dof != |s.dofIndices|) &&
      (r.0 == Throw(InvalidArguments) ==> r.1 == s)
  {
  }

  /** The desired-values half of `SimulationStep`: re-applies the desired
      values, if any, and marks the controller done. */
  function HoldDesired(s: ControllerState, rs: RobotState): (r: (Outcome<()>, ControllerState, RobotState))
    ensures r.1 == s || r.1 == s.(done := true)
    ensures |s.desired| == 0 ==> r == (Return(()), s, rs)
    ensures |s.desired| > 0 ==>
      var moved := ApplySpec(s.dofIndices, |s.lower|, rs, s.desired, BaseTarget(s, s.desiredTransform));
      (moved.Some? ==> r == (Return(()), s.(done := true), moved.value)) &&
      (moved.None? ==> r == (Throw(OutOfRange), s, rs))
  {
    if |s.desired| == 0 then (Return(()), s, rs)
    else
      match ApplySpec(s.dofIndices, |s.lower|, rs, s.desired, BaseTarget(s, s.desiredTransform))
      case None => (Throw(OutOfRange), s, rs)
      case Some(moved) => (Return(()), s.(done := true), moved)
  }

  /** `SimulationStep`: nothing while paused; otherwise follow the
      trajectory (a failed sample ends the step at once, a thrown
      `_SetDOFValues` leaves the clock alone), then hold the desired values.
      `sampled` is what `SampleTrajectory` yields at the controller's time. */
  function StepSpec(s: ControllerState, rs: RobotState, elapsed: real, sampled: Option<TPoint>)
    : (r: (Outcome<()>, ControllerState, RobotState))
    ensures s.done ==> r.1.done
    ensures !s.paused && s.traj.None? ==> r == HoldDesired(s, rs)
  {
    if s.paused then (Return(()), s, rs)
    else if s.traj.None? then HoldDesired(s, rs)
    else if sampled.None? then (Return(()), s, rs)
    else
      var moved := FollowSample(s, rs, sampled.value);
      if moved.None? then (Throw(OutOfRange), s, rs)
      else
        var clock := ClockTick(s.time, s.done, s.traj.value.duration, s.speed * elapsed);
        HoldDesired(s.(time := clock.0, done := clock.1), moved.value)
  }

  /** Placing the robot at one trajectory sample: its joint values through
      `_SetDOFValues` when it has any, otherwise only the base transform
      when the controller controls the base. */
  function FollowSample(s: ControllerState, rs: RobotState, tp: TPoint): (r: Option<RobotState>)
    ensures r.None? ==> |tp.q| > 0
  {
    if |tp.q| > 0 then ApplySpec(s.dofIndices, |s.lower|, rs, tp.q, BaseTarget(s, tp.trans))
    else if s.controlTransformation != 0 then Some(rs.(transform := tp.trans))
    else Some(rs)
  }

  /** A step that reaches a sample holds the desired values from the moved
      robot with the ticked clock. */
  lemma StepFollows(s: ControllerState, rs: RobotState, elapsed: real, tp: TPoint, moved: RobotState)
    requires !s.paused && s.traj.Some? && FollowSample(s, rs, tp) == Some(moved)
    ensures var clock := ClockTick(s.time, s.done, s.traj.value.duration, s.speed * elapsed);
      var r, h := StepSpec(s, rs, elapsed, Some(tp)), HoldDesired(s.(time := clock.0, done := clock.1), moved);
      r.0 == h.0 && r.1 == h.1 && r.2 == h.2
  {
  }

  /** A step changes only the clock and the done flag of the controller,
      so it keeps `Valid`. */
  lemma StepOnlyMovesClock(s: ControllerState, rs: RobotState, elapsed: real, sampled: Option<TPoint>)
    ensures var r := StepSpec(s, rs, elapsed, sampled).1;
      r == s.(time := r.time, done := r.done) && (Valid(s) ==> Valid(r))
  {
  }

  /** A step whose trajectory cannot be sampled changes nothing: the
      clock does not advance and the desired values are not re-applied. */
  lemma FailedSampleIsIdle(s: ControllerState, rs: RobotState, elapsed: real)
    requires s.traj.Some?
    ensures StepSpec(s, rs, elapsed, None) == (Return(()), s, rs)
  {
  }

  /** A paused controller's step changes nothing. */
  lemma PausedStepIsIdle(s: ControllerState, rs: RobotState, elapsed: real, sampled: Option<TPoint>)
    requires s.paused
    ensures StepSpec(s, rs, elapsed, sampled) == (Return(()), s, rs)
  {
  }

  /** While a trajectory plays, each successful step moves the clock by
      exactly one `ClockTick`, and the controller is done once the clock
      was past the duration. */
  lemma TrajectoryStepTicks(s: ControllerState, rs: RobotState, elapsed: real, sampled: Option<TPoint>)
    requires Valid(s) && !s.paused && s.traj.Some? && sampled.Some?
    requires StepSpec(s, rs, elapsed, sampled).0.Return?
    ensures var r := StepSpec(s, rs, elapsed, sampled).1;
      (r.time, r.done) == ClockTick(s.time, s.done, s.traj.value.duration, s.speed * elapsed)
  {
    var clock := ClockTick(s.time, s.done, s.traj.value.duration, s.speed * elapsed);
    var moved := FollowSample(s, rs, sampled.value);
    var s1 := s.(time := clock.0, done := clock.1);
    assert s1.desired == [];
    assert moved.Some?;
    assert HoldDesired(s1, moved.value) == (Return(()), s1, moved.value);
    assert StepSpec(s, rs, elapsed, sampled).1 == s1;
  }

  /** `SetDesired` followed by a step: the step re-applies the same values
      and transform, so the robot stays where `SetDesired` put it, and the
      controller reports done. */
  lemma DesiredHoldsAfterStep(s: ControllerState, rs: RobotState, values: seq<real>, trans: Option<Transform>, elapsed: real, sampled: Option<TPoint>)
    requires Valid(s) && !s.paused && |values| > 0
    requires SetDesiredSpec(s, rs, values, trans).0 == Return(true)
    ensures var (_, s1, rs1) := SetDesiredSpec(s, rs, values, trans);
      StepSpec(s1, rs1, elapsed, sampled) == (Return(()), s1.(done := true), rs1)
  {
    var (_, s1, rs1) := SetDesiredSpec(s, rs, values, trans);
    ScatterTwice(rs.values, s.dofIndices, values);
    var z := ZeroAt(rs.velocities, s.dofIndices);
    assert ZeroAt(z, s.dofIndices) == z;
  }

  /** Without a trajectory, every unpaused step re-applies the desired
      values, if there are any, and then reports done; with none it changes
      nothing. */
  lemma StepHoldsDesired(s: ControllerState, rs: RobotState, elapsed: real, sampled: Option<TPoint>)
    requires !s.paused && s.traj.None?
    ensures var r := StepSpec(s, rs, elapsed, sampled);
      var moved := ApplySpec(s.dofIndices, |s.lower|, rs, s.desired, BaseTarget(s, s.desiredTransform));
      (|s.desired| == 0 ==> r == (Return(()), s, rs)) &&
      (|s.desired| > 0 && moved.Some? ==> r == (Return(()), s.(done := true), moved.value)) &&
      (|s.desired| > 0 && moved.None? ==> r == (Throw(OutOfRange), s, rs))
  {
  }

  /** `SendCommand`: the only command is `pause <bool>`, read the C++11
      way (an unreadable value still stores false). */
  function CommandSpec(s: ControllerState, tokens: seq<string>): (r: (Outcome<bool>, ControllerState))
    ensures r.1 == s.(paused := r.1.paused)
    ensures r.0.Return? <==> |tokens| > 0 && Lower(tokens[0]) == "pause"
    ensures |tokens| == 0 ==> r == (Throw(InvalidArguments), s)
    ensures |tokens| > 0 && Lower(tokens[0]) != "pause" ==> r == (Throw(CommandNotSupported), s)
    ensures |tokens| > 0 && Lower(tokens[0]) == "pause" ==> r == (Return(true), s.(paused := ReadBool(tokens[1..], s.paused).value))
  {
    if |tokens| == 0 then (Throw(InvalidArguments), s)
    else if Lower(tokens[0]) == "pause" then (Return(true), s.(paused := ReadBool(tokens[1..], s.paused).value))
    else (Throw(CommandNotSupported), s)
  }

  /** `PAUSE 1` pauses and `pause 0` resumes, in any letter case. */
  lemma PauseCommand(s: ControllerState, cmd: string, arg: string)
    requires Lower(cmd) == "pause" && arg in {"0", "1"}
    ensures CommandSpec(s, [cmd, arg]).1.paused <==> arg == "1"
  {
    assert [cmd, arg][1..] == [arg];
    assert arg[..0] == [];
    assert DigitsValue(arg) == DigitsValue(arg[..0]) * 10 + (arg[0] as int - '0' as int);
  }

  class IdealController {
    var robot: Robot?
    var dofIndices: seq<int>
    var controlTransformation: int
    var speed: real
    var time: real
    var traj: Option<Trajectory>
    var desired: seq<real>
    var desiredTransform: Transform
    var lower: seq<real>
    var upper: seq<real>
    var paused: bool
    var done: bool

    function State(): ControllerState
      reads this
    {
      ControllerState(dofIndices, controlTransformation, speed, time, traj, desired,
                      desiredTransform, lower, upper, paused, done)
    }

    /** The controlled robot's data; a controller without a robot sees an
        empty one, which no operation that needs the robot reaches. */
    function RobotNow(): RobotState
      reads this, robot
    {
      if robot == null then NoRobot else robot.State()
    }

    constructor ()
      ensures robot == null && State() == InitialState()
    {
      robot := null;
      dofIndices := [];
      controlTransformation := 0;
      speed := 1.0;
      time := 0.0;
      traj := None;
      desired := [];
      desiredTransform := Identity;
      lower := [];
      upper := [];
      paused := false;
      done := true;
    }

    method Init(r: Robot?, dofindices: seq<int>, nControl: int) returns (ok: bool)
      requires r != null ==> |r.lowerLimits| == |r.upperLimits|
      modifies this
      ensures ok && robot == r
      ensures State() == InitSpec(old(State()), if r == null then None else Some((r.lowerLimits, r.upperLimits)), dofindices, nControl)
    {
      robot := r;
      if r != null {
        dofIndices := dofindices;
        controlTransformation := nControl;
        lower := r.lowerLimits;
        upper := r.upperLimits;
      }
      paused := false;
      return true;
    }

    method Reset()
      modifies this
      ensures robot == old(robot) && State() == ResetSpec(old(State()))
    {
      traj := None;
      desired := [];
    }

    /** `_CheckLimits`: the warnings for DOFs 0 .. |lower|-1; `ok` is false
        when the values vector is shorter than the limits. */
    method CheckLimits(curvalues: array<real>) returns (ok: bool, warnings: seq<LimitWarning>)
      requires Valid(State())
      ensures ok == (|lower| <= curvalues.Length)
      ensures warnings == LimitWarnings(curvalues[..], lower, upper, if ok then |lower| else curvalues.Length)
    {
      warnings := [];
      var i := 0;
      while i < |lower|
        invariant 0 <= i <= |lower| && i <= curvalues.Length
        invariant warnings == LimitWarnings(curvalues[..], lower, upper, i)
      {
        if i >= curvalues.Length {
          return false, warnings;
        }
        if curvalues[i] < lower[i] - LimitTolerance {
          warnings := warnings + [BelowLower(i, lower[i], curvalues[i])];
        }
        if curvalues[i] > upper[i] + LimitTolerance {
          warnings := warnings + [AboveUpper(i, upper[i], curvalues[i])];
        }
        i := i + 1;
      }
      return true, warnings;
    }

    /** `_SetDOFValues`: scatter into copies of the robot's vectors, check
        the limits, then write the copies back. */
    method ApplyDOFValues(values: seq<real>, t: Option<Transform>) returns (ok: bool, warnings: seq<LimitWarning>)
      requires robot != null && Valid(State())
      modifies robot
      ensures ApplySpec(dofIndices, |lower|, old(robot.State()), values, t) == (if ok then Some(robot.State()) else None)
      ensures !ok ==> robot.State() == old(robot.State())
      ensures ok ==> warnings == LimitWarnings(robot.dofValues, lower, upper, |lower|)
    {
      var s := robot.State();
      var curvalues := new real[|s.values|](k requires 0 <= k < |s.values| => s.values[k]);
      var curvel := new real[|s.velocities|](k requires 0 <= k < |s.velocities| => s.velocities[k]);
      assert curvalues[..] == s.values;
      assert curvel[..] == s.velocities;
      warnings := [];
      ok := ScatterInto(curvalues, curvel, dofIndices, values);
      if !ok {
        return;
      }
      ok, warnings := CheckLimits(curvalues);
      if !ok {
        return;
      }
      robot.dofValues := curvalues[..];
      robot.dofVelocities := curvel[..];
      if t.Some? {
        robot.transform := t.value;
        robot.linearVel := Zero;
        robot.angularVel := Zero;
      }
    }

    method SetDesired(values: seq<real>, trans: Option<Transform>) returns (r: Outcome<bool>)
      requires Valid(State())
      requires !paused && |values| == |dofIndices| ==> robot != null
      modifies this, robot
      ensures robot == old(robot)
      ensures var spec := SetDesiredSpec(old(State()), old(RobotNow()), values, trans);
        r == spec.0 && State() == spec.1 && RobotNow() == spec.2
    {
      if |values| != |dofIndices| {
        return Throw(InvalidArguments);
      }
      ghost var s0 := State();
      time := 0.0;
      traj := None;
      if !paused {
        DesiredIgnoresClock(s0, RobotNow(), values, trans);
        r := CommandDesired(values, trans);
        return;
      }
      return Return(true);
    }

    /** The unpaused part of `SetDesired`, once the clock is reset and the
        trajectory dropped. */
    method CommandDesired(values: seq<real>, trans: Option<Transform>) returns (r: Outcome<bool>)
      requires robot != null && Valid(State()) && |values| == |dofIndices|
      requires !paused && traj.None? && time == 0.0
      modifies this, robot
      ensures robot == old(robot)
      ensures var spec := SetDesiredSpec(old(State()), old(robot.State()), values, trans);
        r == spec.0 && State() == spec.1 && robot.State() == spec.2
    {
      ghost var s0, rs0 := State(), robot.State();
      desired := values;
      var target := None;
      if controlTransformation != 0 {
        desiredTransform := if trans.Some? then trans.value else robot.transform;
        target := Some(desiredTransform);
      }
      DesiredCommanded(s0, rs0, values, trans);
      assert State() == Commanded(s0, rs0, values, trans);
      var ok, _ := ApplyDOFValues(desired, target);
      if !ok {
        return Throw(OutOfRange);
      }
      done := false;
      return Return(true);
    }

    method SetPath(t: Option<Trajectory>) returns (r: Outcome<bool>)
      modifies this
      ensures robot == old(robot)
      ensures (r, State()) == SetPathSpec(old(State()), t)
    {
      if paused {
        traj := None;
        done := true;
        return Return(false);
      }
      if t.Some? && t.value.dof != |dofIndices| {
        return Throw(InvalidArguments);
      }
      traj := t;
      time := 0.0;
      done := t.None?;
      desired := [];
      return Return(true);
    }

    /** The desired-values half of `SimulationStep`. */
    method HoldDesiredValues() returns (r: Outcome<()>)
      requires Valid(State())
      requires |desired| > 0 ==> robot != null
      modifies this, robot
      ensures robot == old(robot)
      ensures (r, State(), RobotNow()) == HoldDesired(old(State()), old(RobotNow()))
    {
      if |desired| > 0 {
        var target := if controlTransformation != 0 then Some(desiredTransform) else None;
        var ok, _ := ApplyDOFValues(desired, target);
        if !ok {
          return Throw(OutOfRange);
        }
        done := true;
      }
      return Return(());
    }

    method SimulationStep(elapsed: real) returns (r: Outcome<()>)
      requires Valid(State())
      requires NeedsRobot() ==> robot != null
      modifies this, robot
      ensures robot == old(robot)
      ensures (r, State(), RobotNow()) == StepSpec(old(State()), old(RobotNow()), elapsed, old(SampleNow()))
    {
      ghost var s0, rs0, sampled0 := State(), RobotNow(), SampleNow();
      if paused {
        return Return(());
      }
      if traj.Some? {
        var tr := traj.value;
        var sample := tr.sample(time);
        if sample.None? {
          return Return(());
        }
        var ok := MoveToSample(sample.value);
        if !ok {
          return Throw(OutOfRange);
        }
        ghost var moved := RobotNow();
        assert sampled0 == sample;
        assert State() == s0;
        assert FollowSample(s0, rs0, sample.value) == Some(moved);
        assert time == s0.time && speed == s0.speed && done == s0.done;
        AdvanceClock(tr.duration, elapsed);
        assert RobotNow() == moved;
        ghost var clock := ClockTick(s0.time, s0.done, tr.duration, s0.speed * elapsed);
        assert State() == s0.(time := clock.0, done := clock.1);
        assert !s0.paused && s0.traj == Some(tr) && sampled0 == Some(sample.value);
        StepFollows(s0, rs0, elapsed, sample.value, moved);
      }
      r := HoldDesiredValues();
    }

    /** Placing the robot at one trajectory sample; the controller's own
        fields stay as they are. */
    method MoveToSample(tp: TPoint) returns (ok: bool)
      requires Valid(State())
      requires |tp.q| > 0 || controlTransformation != 0 ==> robot != null
      modifies robot
      ensures FollowSample(State(), old(RobotNow()), tp) == (if ok then Some(RobotNow()) else None)
      ensures !ok ==> RobotNow() == old(RobotNow())
    {
      ok := true;
      if |tp.q| > 0 {
        var target := if controlTransformation != 0 then Some(tp.trans) else None;
        var warnings;
        ok, warnings := ApplyDOFValues(tp.q, target);
      } else if controlTransformation != 0 {
        robot.transform := tp.trans;
      }
    }

    /** The clock part of a step along a trajectory of length `duration`. */
    method AdvanceClock(duration: real, elapsed: real)
      modifies this`time, this`done
      ensures var clock := ClockTick(old(time), old(done), duration, old(speed) * elapsed);
        State() == old(State()).(time := clock.0, done := clock.1)
    {
      if time > duration {
        time := duration;
        done := true;
      }
      time := time + speed * elapsed;
    }

    /** Whether the next step writes to the robot: an unpaused step that
        reaches a trajectory sample with joint values or with base control,
        or holds desired values without a trajectory. */
    predicate NeedsRobot()
      reads this
    {
      !paused &&
      ((SampleNow().Some? && (|SampleNow().value.q| > 0 || controlTransformation != 0)) ||
       (traj.None? && |desired| > 0))
    }

    /** What `SampleTrajectory` yields at the current time, if a trajectory
        is set. */
    function SampleNow(): Option<TPoint>
      reads this
    {
      if traj.Some? then traj.value.sample(time) else None
    }

    method SendCommand(tokens: seq<string>) returns (r: Outcome<bool>)
      modifies this
      ensures robot == old(robot)
      ensures (r, State()) == CommandSpec(old(State()), tokens)
    {
      if |tokens| == 0 {
        return Throw(InvalidArguments);
      }
      if Lower(tokens[0]) == "pause" {
        paused := ReadBool(tokens[1..], paused).value;
        return Return(true);
      }
      return Throw(CommandNotSupported);
    }

    /** `IsDone`: the flag the spec functions keep in `done`. */
    function IsDone(): (d: bool)
      reads this
      ensures d <==> State().done
    {
      done
    }

    /** `GetTime`: the trajectory clock the spec functions keep in `time`. */
    function GetTime(): (t: real)
      reads this
      ensures t == State().time
    {
      time
    }
  }

  /** Forwards to the controller of the same-named robot in the original
      environment. With auto-sync on, every forwarded change is followed by
      a sync, which copies that controller's done flag. */
  class RedirectController {
    var dofIndices: seq<int>
    var autoSync: bool
    var syncDone: bool
    var inner: IdealController?

    constructor ()
      ensures autoSync && inner == null && dofIndices == []
    {
      dofIndices := [];
      autoSync := true;
      syncDone := false;
      inner := null;
    }

    /** `Init`: `sameRobot` says the environment's robot of that name is the
        given robot itself, in which case there is nothing to redirect to;
        otherwise the given robot's controller is the target. */
    method Init(sameRobot: bool, robotController: IdealController?) returns (ok: bool)
      modifies this
      ensures ok && autoSync == old(autoSync)
      ensures inner == (if sameRobot then null else robotController)
      ensures dofIndices == (if inner == null then [] else inner.dofIndices)
      ensures syncDone == (if autoSync && inner != null then inner.done else old(syncDone))
    {
      dofIndices := [];
      inner := null;
      if !sameRobot {
        inner := robotController;
        if inner != null {
          dofIndices := inner.dofIndices;
        }
      }
      if autoSync {
        Sync();
      }
      return true;
    }

    /** `_sync`: takes over the target's done flag (copying the body
        transforms is not part of this model). */
    method Sync()
      modifies this`syncDone
      ensures syncDone == if inner == null then old(syncDone) else inner.done
    {
      if inner != null {
        syncDone := inner.done;
      }
    }

    function IsDone(): (d: bool)
      requires inner != null
      reads this, inner
      ensures d ==> inner.done
      ensures d <==> inner.done && (autoSync ==> syncDone)
    {
      if autoSync then syncDone && inner.done else inner.done
    }

    method SetDesired(values: seq<real>, trans: Option<Transform>) returns (r: Outcome<bool>)
      requires inner != null && Valid(inner.State())
      requires !inner.paused && |values| == |inner.dofIndices| ==> inner.robot != null
      modifies this`syncDone, inner, inner.robot
      ensures inner.robot == old(inner.robot)
      ensures (r, inner.State(), inner.RobotNow()) == SetDesiredSpec(old(inner.State()), old(inner.RobotNow()), values, trans)
      ensures syncDone == if r == Return(true) && autoSync then inner.done else old(syncDone)
    {
      r := inner.SetDesired(values, trans);
      if r != Return(true) {
        return;
      }
      if autoSync {
        Sync();
      }
    }

    method SetPath(t: Option<Trajectory>) returns (r: Outcome<bool>)
      requires inner != null
      modifies this`syncDone, inner
      ensures inner.robot == old(inner.robot)
      ensures (r, inner.State()) == SetPathSpec(old(inner.State()), t)
      ensures syncDone == if r == Return(true) && autoSync then inner.done else old(syncDone)
    {
      r := inner.SetPath(t);
      if r != Return(true) {
        return;
      }
      if autoSync {
        Sync();
      }
    }

    method SimulationStep(elapsed: real) returns (r: Outcome<()>)
      requires inner != null ==> Valid(inner.State()) && (inner.NeedsRobot() ==> inner.robot != null)
      modifies this`syncDone, inner, if inner == null then null else inner.robot
      ensures inner == null ==> r == Return(()) && syncDone == old(syncDone)
      ensures inner != null ==>
        inner.robot == old(inner.robot) &&
        (r, inner.State(), inner.RobotNow()) == StepSpec(old(inner.State()), old(inner.RobotNow()), elapsed, old(inner.SampleNow()))
      ensures inner != null ==> syncDone == if r.Return? && autoSync then inner.done else old(syncDone)
    {
      if inner == null {
        return Return(());
      }
      r := inner.SimulationStep(elapsed);
      if r.Throw? {
        return;
      }
      if autoSync {
        Sync();
      }
    }

    /** `SendCommand`: `sync`, `autosync <bool>` (a failed read answers
        false), anything else goes to the target from the first token on. */
    method SendCommand(tokens: seq<string>) returns (r: Outcome<bool>)
      requires inner == null ==> |tokens| == 0 || Lower(tokens[0]) in {"sync", "autosync"}
      modifies this`autoSync, this`syncDone, inner
      ensures |tokens| == 0 ==> r == Throw(InvalidArguments) && autoSync == old(autoSync) && syncDone == old(syncDone)
      ensures |tokens| > 0 && Lower(tokens[0]) == "sync" ==>
        r == Return(true) && autoSync == old(autoSync) && syncDone == (if inner == null then old(syncDone) else inner.done)
      ensures |tokens| > 0 && Lower(tokens[0]) == "autosync" ==>
        var e := ReadBool(tokens[1..], old(autoSync));
        autoSync == e.value && r == Return(e.ok) &&
        syncDone == (if e.ok && e.value && inner != null then inner.done else old(syncDone))
      ensures |tokens| > 0 && Lower(tokens[0]) !in {"sync", "autosync"} ==>
        inner.robot == old(inner.robot) && (r, inner.State()) == CommandSpec(old(inner.State()), tokens) &&
        autoSync == old(autoSync) && syncDone == old(syncDone)
    {
      if |tokens| == 0 {
        return Throw(InvalidArguments);
      }
      var cmd := Lower(tokens[0]);
      if cmd == "sync" {
        Sync();
        return Return(true);
      } else if cmd == "autosync" {
        var e := ReadBool(tokens[1..], autoSync);
        autoSync := e.value;
        if !e.ok {
          return Return(false);
        }
        if autoSync {
          Sync();
        }
        return Return(true);
      }
      r := inner.SendCommand(tokens);
    }
  }

  /** Right after a sync with auto-sync on, the redirect reports exactly
      what its target reports. */
  lemma SyncedRedirectAgrees(rc: RedirectController)
    requires rc.inner != null && rc.autoSync && rc.syncDone == rc.inner.done
    ensures rc.IsDone() == rc.inner.IsDone()
  {
  }
}
