/** The argument parsers of the grasper plug-in's commands: `main`, `Grasp`,
    `ComputeDistanceMap`, `GetStableContacts` and `ConvexHull`. Each one
    (but `main`) is the keyword loop of `Streams.ParseSpec` with a handler
    that says what its keywords read into its options. What the commands do
    with the environment afterwards (planning, sampling, collision checks)
    is not part of this model. */
module GrasperParsers {
  import opened Options
  import opened Geometry
  import opened Streams

  /** `is >> v.x >> v.y >> v.z`: once one read fails, the later ones leave
      their component alone and read nothing. */
  function ReadVec3(ts: seq<string>, current: Vec3): (e: Extracted<Vec3>)
    ensures |e.rest| <= |ts|
    ensures e.ok <==> |ts| >= 3 && ParseReal(ts[0]).Some? && ParseReal(ts[1]).Some? && ParseReal(ts[2]).Some?
    ensures e.ok ==> e.rest == ts[3..]
    ensures e.ok ==> e.value == Vec3(ParseReal(ts[0]).value, ParseReal(ts[1]).value, ParseReal(ts[2]).value)
  {
    var x := ReadReal(ts, current.x);
    if !x.ok then Extracted(current.(x := x.value), false, x.rest)
    else
      var y := ReadReal(x.rest, current.y);
      if !y.ok then Extracted(Vec3(x.value, y.value, current.z), false, y.rest)
      else
        var z := ReadReal(y.rest, current.z);
        Extracted(Vec3(x.value, y.value, z.value), z.ok, z.rest)
  }

  // ---------------------------------------------------------------------
  // main

  /** The planner `main` asks for: `planner <name>` sets it; every other
      word is skipped; the loop ends when a read fails. */
  function PlannerName(ts: seq<string>, name: string): string
    decreases |ts|
  {
    if |ts| == 0 then name
    else if Lower(ts[0]) == "planner" then
      if |ts| == 1 then name else PlannerName(ts[2..], ts[1])
    else PlannerName(ts[1..], name)
  }

  /** The planner is the default unless some word of the arguments is the
      `planner` keyword, and it is always the default or one of the words. */
  lemma {:induction false} PlannerNameChoices(ts: seq<string>, name: string)
    ensures PlannerName(ts, name) == name || PlannerName(ts, name) in ts
    ensures (forall i :: 0 <= i < |ts| ==> Lower(ts[i]) != "planner") ==> PlannerName(ts, name) == name
    decreases |ts|
  {
    if |ts| > 0 {
      if Lower(ts[0]) == "planner" {
        if |ts| > 1 {
          PlannerNameChoices(ts[2..], ts[1]);
          if PlannerName(ts, name) != ts[1] {
            assert PlannerName(ts, name) in ts[2..];
          }
        }
      } else {
        PlannerNameChoices(ts[1..], name);
        assert forall i :: 0 <= i < |ts[1..]| ==> ts[1..][i] == ts[i + 1];
      }
    }
  }

  /** The argument loop of `main`: the robot's name, then the planner's. */
  method ParseMainArgs(args: seq<string>) returns (robot: string, planner: string)
    ensures robot == if |args| > 0 then args[0] else ""
    ensures planner == PlannerName(if |args| > 0 then args[1..] else [], "Grasper")
  {
    robot := "";
    planner := "Grasper";
    if |args| == 0 {
      return;
    }
    robot := args[0];
    var rest := args[1..];
    while |rest| > 0
      invariant PlannerName(rest, planner) == PlannerName(args[1..], "Grasper")
      decreases |rest|
    {
      var cmd := Lower(rest[0]);
      rest := rest[1..];
      if cmd == "planner" {
        if |rest| == 0 {
          break;
        }
        planner := rest[0];
        rest := rest[1..];
      }
    }
  }

  // ---------------------------------------------------------------------
  // Grasp

  /** The target body: not given, looked up by name, or by environment id.
      The look-up itself is not modelled. */
  datatype Target = NoTarget | TargetNamed(name: string) | TargetId(id: int)

  /** The fields of `GraspParameters` the command reads into, and its own
      local settings. */
  datatype GraspOptions = GraspOptions(
    target: Target,
    direction: Vec3,
    avoidLinks: seq<string>,
    transformRobot: bool,
    onlyContactTarget: bool,
    tightGrasp: bool,
    execute: bool,
    saveTrajectory: string,
    outputFinal: bool,
    graspingNoise: real,
    targetRoll: real,
    position: Vec3,
    standoff: real,
    friction: real,
    getLinkCollisions: bool,
    stableContacts: bool,
    forceClosure: bool,
    checker: Option<string>,
    translationStepMult: real)

  /** The values `GraspParameters`' constructor gives the fields the command
      does not initialise itself; that constructor is not part of this
      model. */
  datatype ParameterDefaults = ParameterDefaults(graspingNoise: real, targetRoll: real, position: Vec3, standoff: real, translationStepMult: real)

  /** The options before the first keyword. */
  function GraspStart(p: ParameterDefaults): GraspOptions {
    GraspOptions(NoTarget, Vec3(0.0, 0.0, 1.0), [], true, true, false, true, "", false,
      p.graspingNoise, p.targetRoll, p.position, p.standoff, 0.0, false, false, false, None, p.translationStepMult)
  }

  const GraspKeywords: set<string> := {
    "body", "target", "bodyid", "direction", "avoidlink", "notrans", "transformrobot",
    "onlycontacttarget", "tightgrasp", "execute", "writetraj", "outputfinal", "graspingnoise",
    "roll", "centeroffset", "position", "standoff", "friction", "getlinkcollisions",
    "stablecontacts", "forceclosure", "collision", "translationstepmult"}

  /** The option a keyword of `Grasp` sets; synonyms share one. */
  datatype GraspKey =
    | TargetName | TargetIdKey | DirectionKey | AvoidLink | NoTrans | TransformRobot
    | OnlyContactTarget | TightGrasp | Execute | WriteTraj | OutputFinal | GraspingNoise
    | Roll | PositionKey | Standoff | Friction | GetLinkCollisions | StableContacts
    | ForceClosure | Collision | TranslationStepMult

  /** The keyword comparisons of `Grasp`. */
  function GraspKeyOf(cmd: string): Option<GraspKey> {
    if cmd == "body" || cmd == "target" then Some(TargetName)
    else if cmd == "bodyid" then Some(TargetIdKey)
    else if cmd == "direction" then Some(DirectionKey)
    else if cmd == "avoidlink" then Some(AvoidLink)
    else if cmd == "notrans" then Some(NoTrans)
    else if cmd == "transformrobot" then Some(TransformRobot)
    else if cmd == "onlycontacttarget" then Some(OnlyContactTarget)
    else if cmd == "tightgrasp" then Some(TightGrasp)
    else if cmd == "execute" then Some(Execute)
    else if cmd == "writetraj" then Some(WriteTraj)
    else if cmd == "outputfinal" then Some(OutputFinal)
    else if cmd == "graspingnoise" then Some(GraspingNoise)
    else if cmd == "roll" then Some(Roll)
    else if cmd == "centeroffset" || cmd == "position" then Some(PositionKey)
    else if cmd == "standoff" then Some(Standoff)
    else if cmd == "friction" then Some(Friction)
    else if cmd == "getlinkcollisions" then Some(GetLinkCollisions)
    else if cmd == "stablecontacts" then Some(StableContacts)
    else if cmd == "forceclosure" then Some(ForceClosure)
    else if cmd == "collision" then Some(Collision)
    else if cmd == "translationstepmult" then Some(TranslationStepMult)
    else None
  }

  /** What the branch of one keyword reads and stores. */
  function GraspApply(key: GraspKey, args: seq<string>, o: GraspOptions): (r: Step<GraspOptions>)
    ensures r.Handled? && |r.rest| <= |args|
  {
    match key
    case TargetName =>
      var e := ReadWord(args, ""); Handled(o.(target := TargetNamed(e.value)), e.rest, e.ok)
    case TargetIdKey =>
      var e := ReadInt(args, 0); Handled(o.(target := TargetId(e.value)), e.rest, e.ok)
    case DirectionKey =>
      var e := ReadVec3(args, o.direction); Handled(o.(direction := e.value), e.rest, e.ok)
    case AvoidLink =>
      var e := ReadWord(args, ""); Handled(o.(avoidLinks := o.avoidLinks + [e.value]), e.rest, e.ok)
    case NoTrans =>
      Handled(o.(transformRobot := false), args, true)
    case TransformRobot =>
      var e := ReadBool(args, o.transformRobot); Handled(o.(transformRobot := e.value), e.rest, e.ok)
    case OnlyContactTarget =>
      var e := ReadBool(args, o.onlyContactTarget); Handled(o.(onlyContactTarget := e.value), e.rest, e.ok)
    case TightGrasp =>
      var e := ReadBool(args, o.tightGrasp); Handled(o.(tightGrasp := e.value), e.rest, e.ok)
    case Execute =>
      var e := ReadBool(args, o.execute); Handled(o.(execute := e.value), e.rest, e.ok)
    case WriteTraj =>
      var e := ReadWord(args, o.saveTrajectory); Handled(o.(saveTrajectory := e.value), e.rest, e.ok)
    case OutputFinal =>
      var e := ReadBool(args, o.outputFinal); Handled(o.(outputFinal := e.value), e.rest, e.ok)
    case GraspingNoise =>
      var e := ReadReal(args, o.graspingNoise); Handled(o.(graspingNoise := e.value), e.rest, e.ok)
    case Roll =>
      var e := ReadReal(args, o.targetRoll); Handled(o.(targetRoll := e.value), e.rest, e.ok)
    case PositionKey =>
      var e := ReadVec3(args, o.position); Handled(o.(position := e.value), e.rest, e.ok)
    case Standoff =>
      var e := ReadReal(args, o.standoff); Handled(o.(standoff := e.value), e.rest, e.ok)
    case Friction =>
      var e := ReadReal(args, o.friction); Handled(o.(friction := e.value), e.rest, e.ok)
    case GetLinkCollisions =>
      Handled(o.(getLinkCollisions := true), args, true)
    case StableContacts =>
      var e := ReadBool(args, o.stableContacts); Handled(o.(stableContacts := e.value), e.rest, e.ok)
    case ForceClosure =>
      var e := ReadBool(args, o.forceClosure); Handled(o.(forceClosure := e.value), e.rest, e.ok)
    case Collision =>
      var e := ReadWord(args, ""); Handled(o.(checker := Some(e.value)), e.rest, e.ok)
    case TranslationStepMult =>
      var e := ReadReal(args, o.translationStepMult); Handled(o.(translationStepMult := e.value), e.rest, e.ok)
  }

  /** One keyword of `Grasp`: an unknown keyword ends the parse, a known one
      runs its branch. */
  function GraspStep(cmd: string, args: seq<string>, o: GraspOptions): Step<GraspOptions> {
    match GraspKeyOf(cmd)
    case None => Unknown
    case Some(key) => GraspApply(key, args, o)
  }

  /** `Grasp` knows exactly its keywords, and none of them throws. */
  lemma GraspKeywordsHandled(cmd: string, args: seq<string>, o: GraspOptions)
    ensures GraspStep(cmd, args, o).Unknown? <==> cmd !in GraspKeywords
    ensures !GraspStep(cmd, args, o).Abort?
  {
  }

  /** `body`/`target` and `centeroffset`/`position` are synonyms. */
  lemma GraspSynonyms()
    ensures GraspKeyOf("body") == GraspKeyOf("target") == Some(TargetName)
    ensures GraspKeyOf("centeroffset") == GraspKeyOf("position") == Some(PositionKey)
  {
  }

  lemma GraspConsumes()
    ensures Consumes(GraspStep)
  {
  }

  // ---------------------------------------------------------------------
  // ComputeDistanceMap

  /** `PI` as the source's headers define it. */
  const Pi: real := 3.14159265358979323846

  datatype DistanceMapOptions = DistanceMapOptions(coneWidth: real, mapSamples: int, target: Option<string>, center: Vec3)

  /** A cone of a quarter turn of `PI` and 60000 samples. */
  const DistanceMapStart := DistanceMapOptions(0.25 * Pi, 60000, None, Zero)

  const DistanceMapKeywords: set<string> := {"conewidth", "mapsamples", "target", "center"}

  /** One keyword of `ComputeDistanceMap`. */
  function DistanceMapStep(cmd: string, args: seq<string>, o: DistanceMapOptions): Step<DistanceMapOptions> {
    if cmd == "conewidth" then
      var e := ReadReal(args, o.coneWidth); Handled(o.(coneWidth := e.value), e.rest, e.ok)
    else if cmd == "mapsamples" then
      var e := ReadInt(args, o.mapSamples); Handled(o.(mapSamples := e.value), e.rest, e.ok)
    else if cmd == "target" then
      var e := ReadWord(args, ""); Handled(o.(target := Some(e.value)), e.rest, e.ok)
    else if cmd == "center" then
      var e := ReadVec3(args, o.center); Handled(o.(center := e.value), e.rest, e.ok)
    else Unknown
  }

  lemma DistanceMapKeywordsHandled(cmd: string, args: seq<string>, o: DistanceMapOptions)
    ensures DistanceMapStep(cmd, args, o).Unknown? <==> cmd !in DistanceMapKeywords
    ensures DistanceMapStep(cmd, args, o).Abort? == false
  {
  }

  lemma DistanceMapConsumes()
    ensures Consumes(DistanceMapStep)
  {
  }

  // ---------------------------------------------------------------------
  // GetStableContacts

  datatype StableContactsOptions = StableContactsOptions(direction: Vec3, mu: real, getLinkCollisions: bool)

  const StableContactsStart := StableContactsOptions(Zero, 0.0, false)

  const StableContactsKeywords: set<string> := {"direction", "friction", "getlinkcollisions"}

  /** One keyword of `GetStableContacts`. */
  function StableContactsStep(cmd: string, args: seq<string>, o: StableContactsOptions): Step<StableContactsOptions> {
    if cmd == "direction" then
      var e := ReadVec3(args, o.direction); Handled(o.(direction := e.value), e.rest, e.ok)
    else if cmd == "friction" then
      var e := ReadReal(args, o.mu); Handled(o.(mu := e.value), e.rest, e.ok)
    else if cmd == "getlinkcollisions" then
      Handled(o.(getLinkCollisions := true), args, true)
    else Unknown
  }

  lemma StableContactsKeywordsHandled(cmd: string, args: seq<string>, o: StableContactsOptions)
    ensures StableContactsStep(cmd, args, o).Unknown? <==> cmd !in StableContactsKeywords
    ensures StableContactsStep(cmd, args, o).Abort? == false
  {
  }

  lemma StableContactsConsumes()
    ensures Consumes(StableContactsStep)
  {
  }

  /** The friction coefficient stays 0 unless some keyword sets it. */
  lemma {:induction false} FrictionNeedsKeyword(ts: seq<string>, o: StableContactsOptions)
    requires forall i :: 0 <= i < |ts| ==> Lower(ts[i]) != "friction"
    ensures (StableContactsConsumes(); ParseSpec(ts, o, StableContactsStep).Accepted? ==> ParseSpec(ts, o, StableContactsStep).opts.mu == o.mu)
    decreases |ts|
  {
    StableContactsConsumes();
    if |ts| > 0 {
      match StableContactsStep(Lower(ts[0]), ts[1..], o)
      case Unknown =>
      case Abort =>
      case Handled(next, rest, ok) =>
        if ok {
          assert rest == ts[1..] || rest == ts[4..];
          assert forall i :: 0 <= i < |rest| ==> Lower(rest[i]) != "friction" by {
            forall i | 0 <= i < |rest| ensures Lower(rest[i]) != "friction" {
              if rest == ts[1..] {
                assert rest[i] == ts[i + 1];
              } else {
                assert rest[i] == ts[i + 4];
              }
            }
          }
          FrictionNeedsKeyword(rest, next);
        }
    }
  }

  // ---------------------------------------------------------------------
  // ConvexHull

  /** The points to take the hull of, their dimension, and the three
      output switches. */
  datatype HullOptions = HullOptions(points: seq<real>, dim: int, returnPlanes: bool, returnFaces: bool, returnTriangles: bool)

  const HullStart := HullOptions([], 0, true, true, true)

  const HullKeywords: set<string> := {"points", "returnplanes", "returnfaces", "returntriangles"}

  /** `vector::resize(n)`: keeps the first `n` elements, pads with zeros. */
  function Resize(s: seq<real>, n: nat): (r: seq<real>)
    ensures |r| == n
    ensures forall i :: 0 <= i < n ==> r[i] == if i < |s| then s[i] else 0.0
  {
    if n <= |s| then s[..n] else s + seq(n - |s|, _ => 0.0)
  }

  /** The `points N dim` branch of `ConvexHull`: resizes the point vector
      to `N*dim` (a negative size throws `length_error`) and reads that many
      values. */
  function ReadPoints(args: seq<string>, o: HullOptions): (r: Step<HullOptions>)
    ensures r.Handled? ==> |r.rest| <= |args|
  {
    var n := ReadInt(args, 0);
    var d := if n.ok then ReadInt(n.rest, o.dim) else Extracted(o.dim, false, n.rest);
    var count := n.value * d.value;
    if count < 0 then Abort
    else
      var resized := Resize(o.points, count);
      var p := if n.ok && d.ok then ReadReals(d.rest, resized) else Extracted(resized, false, d.rest);
      Handled(o.(points := p.value, dim := d.value), p.rest, p.ok)
  }

  /** One keyword of `ConvexHull`. `returntriangles` stores its value in the
      faces switch, as the source does, so the triangles switch is never
      changed. */
  function HullStep(cmd: string, args: seq<string>, o: HullOptions): Step<HullOptions> {
    if cmd == "points" then ReadPoints(args, o)
    else if cmd == "returnplanes" then
      var e := ReadBool(args, o.returnPlanes); Handled(o.(returnPlanes := e.value), e.rest, e.ok)
    else if cmd == "returnfaces" then
      var e := ReadBool(args, o.returnFaces); Handled(o.(returnFaces := e.value), e.rest, e.ok)
    else if cmd == "returntriangles" then
      var e := ReadBool(args, o.returnFaces); Handled(o.(returnFaces := e.value), e.rest, e.ok)
    else Unknown
  }

  lemma HullKeywordsHandled(cmd: string, args: seq<string>, o: HullOptions)
    ensures HullStep(cmd, args, o).Unknown? <==> cmd !in HullKeywords
    ensures HullStep(cmd, args, o).Abort? ==> cmd == "points"
  {
  }

  lemma HullConsumes()
    ensures Consumes(HullStep)
  {
  }

  /** `points N dim` followed by `N*dim` numbers stores exactly those
      numbers and the dimension, and reads nothing more. */
  lemma PointsReadsAll(n: string, d: string, values: seq<string>, rest: seq<string>, o: HullOptions)
    requires IsInt32(n) && IsInt32(d)
    requires ParseInt(n).value * ParseInt(d).value == |values|
    requires forall i :: 0 <= i < |values| ==> ParseReal(values[i]).Some?
    ensures ReadPoints([n, d] + values + rest, o) ==
      Handled(o.(points := seq(|values|, i requires 0 <= i < |values| => ParseReal(values[i]).value),
                 dim := ParseInt(d).value), rest, true)
  {
    var args := [n, d] + values + rest;
    ReadsBothInts(n, d, values + rest, o.dim);
    assert args == [n, d] + (values + rest);
    ReadsAllValues(values, rest, Resize(o.points, |values|));
  }

  /** The two counts of `points N dim`, read when both are numbers. */
  lemma ReadsBothInts(n: string, d: string, more: seq<string>, dim: int)
    requires IsInt32(n) && IsInt32(d)
    ensures ReadInt([n, d] + more, 0) == Extracted(ParseInt(n).value, true, [d] + more)
    ensures ReadInt([d] + more, dim) == Extracted(ParseInt(d).value, true, more)
  {
    assert ([n, d] + more)[1..] == [d] + more;
    assert ([d] + more)[1..] == more;
  }

  /** Reading as many values as are given, all numbers, takes exactly
      those values. */
  lemma ReadsAllValues(values: seq<string>, rest: seq<string>, current: seq<real>)
    requires |current| == |values|
    requires forall i :: 0 <= i < |values| ==> ParseReal(values[i]).Some?
    ensures ReadReals(values + rest, current) ==
      Extracted(seq(|values|, i requires 0 <= i < |values| => ParseReal(values[i]).value), true, rest)
  {
    var ts := values + rest;
    var e := ReadReals(ts, current);
    forall i | 0 <= i < |values|
      ensures ParseReal(ts[i]).Some?
    {
      assert ts[i] == values[i];
    }
    assert e.ok;
    assert ts[|values|..] == rest;
    var want := seq(|values|, i requires 0 <= i < |values| => ParseReal(values[i]).value);
    forall i | 0 <= i < |values|
      ensures e.value[i] == want[i]
    {
      assert ts[i] == values[i];
    }
    assert e.value == want;
  }

  /** `points N dim` with a negative `N*dim` throws, whatever follows. */
  lemma NegativePointCountThrows(n: string, d: string, rest: seq<string>, o: HullOptions)
    requires IsInt32(n) && IsInt32(d)
    requires ParseInt(n).value * ParseInt(d).value < 0
    ensures (HullConsumes(); ParseSpec(["points", n, d] + rest, o, HullStep) == Aborted)
  {
    HullConsumes();
    var ts := ["points", n, d] + rest;
    assert ts[1..] == [n, d] + rest;
    assert ts[1..][1..] == [d] + rest;
    assert Lower("points") == "points";
  }

  /** `points N dim` with an `N` beyond the range of `int` never succeeds:
      the failed read stores the bound, `dim` is not read, and the command
      either throws on a negative size or returns false. */
  lemma OversizedPointCountFails(n: string, rest: seq<string>, o: HullOptions)
    requires ParseInt(n).Some? && !IsInt32(n)
    ensures !(ReadPoints([n] + rest, o).Handled? && ReadPoints([n] + rest, o).ok)
  {
    assert ([n] + rest)[1..] == rest;
  }

  /** No keyword changes the triangles switch (the `returntriangles`
      keyword sets the faces switch instead), so after any accepted parse
      triangles are still requested. */
  lemma ParsedHullTriangulates(ts: seq<string>)
    ensures (HullConsumes(); ParseSpec(ts, HullStart, HullStep).Accepted? ==> ParseSpec(ts, HullStart, HullStep).opts.returnTriangles)
  {
    HullConsumes();
    var inv := (o: HullOptions) => o.returnTriangles;
    assert Keeps(HullStep, inv);
    ParseKeeps(ts, HullStart, HullStep, inv);
  }
}
