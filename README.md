# OpenRAVE base controllers and grasper combinatorics, modelled in Dafny

This project models three parts of OpenRAVE in Dafny and proves properties
of them.

**The two base controllers of the `basecontrollers` plug-in.**
- `IdealController` forces exact joint values onto a robot. It follows a
  trajectory sample by sample, or holds a desired configuration. It also
  answers a `pause` command.
- `RedirectController` forwards every call to the controller of a robot
  that lives in another environment. It keeps a copy of that controller's
  "done" flag.

Both are classes whose fields the methods update in place. A `Robot` class
holds the DOF vectors the controller reads and writes. Each state-changing
method is proved against a pure function on the controller's fields, taken as
a value (`ControllerState`), and on the robot's data (`RobotState`). Lemmas
about those functions state what the controller guarantees:
- a step only moves the clock;
- a paused controller is idle;
- the clock reaches the trajectory's end;
- desired values are held after a step;
- only the listed DOFs are touched;
- scattering values and gathering them back is the identity.

**The combinatorial parts of the grasper plug-in.**
- `GenerateSphereTriangulation`. The icosahedron's triangles are oriented by
  a swap of two indices per triangle. Each level then splits every triangle
  into four, with one midpoint vertex per undirected edge, kept in a map
  under a packed 64-bit key. The model proves several properties:
  - every index stays in range;
  - each level creates exactly one vertex per distinct edge;
  - the triangle count quadruples per level;
  - orientation keeps the index range and the edge set, and is its own
    inverse.
- The face list that `_ComputeConvexHull` builds from qhull's facets. It
  holds a face count, then, per face, a vertex count and the vertex ids. The
  model proves that it decodes back to the faces and encodes back to the
  list.
- The two walks `ConvexHull` makes over the face list. One counts the
  triangles; the other emits a triangle fan per face in the face's sorted
  order. The model proves that the fans hold exactly three ids per counted
  triangle, that each fan covers its face and that neighbouring fan
  triangles share an edge.
- The argument parsers of `main`, `Grasp`, `ComputeDistanceMap`,
  `GetStableContacts` and `ConvexHull`. `std::istream` extraction is modelled
  token by token, including its failure values.
- The friction-cone stability test of `_GetStableContacts`.
- The force-closure distance of `_AnalyzeContacts3D`, read off the
  six-dimensional hull of the contact wrenches.

**The arithmetic helpers of the ODE plug-in's `plugindefs.h`.** These are
`CLAMP_ON_RANGE` and the fixed-width integer arithmetic of `timeGetTime` and
`GetMicroTime`.

**How the model is laid out.**
- Exceptions are values: `Outcome` is `Return(value)` or `Throw(error)`.
  Checked `at()` accesses become `OutOfRange`.
- qhull is a function parameter (`HullRun`), constrained by
  `HullFaces.QhullContract`.
- The atan2 angle sort of a face is a function parameter that yields a
  permutation.
- The trajectory is a datatype with a sampling function. The clock of a
  robot, its collision reports and its Jacobians are inputs.

Modules:

| Module | File | What it holds |
|---|---|---|
| `Options` | `options.dfy` | `Option` |
| `Errors` | `errors.dfy` | error codes and `Outcome` |
| `Arith` | `arith.dfy` | machine-word sizes, uniqueness of division |
| `Geometry` | `geometry.dfy` | 3-vectors |
| `PluginDefs` | `plugindefs.dfy` | `CLAMP_ON_RANGE`, the time arithmetic |
| `DofScatter` | `dofscatter.dfy` | writing commanded values into the DOF vector, the limit warnings |
| `Controllers` | `controllers.dfy` | the two controllers |
| `Streams` | `streams.dfy` | token streams, `>>` extraction, the keyword loop |
| `GrasperParsers` | `parsers.dfy` | the grasper's command parsers |
| `Sphere` | `sphere.dfy` | the sphere triangulation |
| `HullFaces` | `hull.dfy` | the face list, triangle counting, fans |
| `ConvexHullCommand` | `convexhull.dfy` | the `ConvexHull` command |
| `Contacts` | `contacts.dfy` | stability test, wrenches, force-closure distance |

## Model

| member | source | states |
|---|---|---|
| PluginDefs.Clamp | trunk/plugins/oderave/plugindefs.h:69-75 | the result is the value, `min` or `max` |
| PluginDefs.ClampInRange | trunk/plugins/oderave/plugindefs.h:69-75 | with `min <= max` the result lies between them |
| PluginDefs.ClampKeepsInRange | trunk/plugins/oderave/plugindefs.h:72-74 | a value already in range is returned unchanged |
| PluginDefs.ClampIdempotent | trunk/plugins/oderave/plugindefs.h:69-75 | with a proper range, clamping twice is clamping once |
| PluginDefs.ClampInvertedRange | trunk/plugins/oderave/plugindefs.h:72-73 | with `min > max`, values below `min` give `min`, all others give `max`, so clamping is no longer idempotent |
| PluginDefs.MillisecondCount | trunk/plugins/oderave/plugindefs.h:77-88 | the `uint32_t` result is below 2^32 |
| PluginDefs.MicrosecondCount | trunk/plugins/oderave/plugindefs.h:92-104 | the `uint64_t` result is below 2^64 |
| PluginDefs.WrapTo32IgnoresWrapTo64 | trunk/plugins/oderave/plugindefs.h:87 | a 64-bit overflow of `t.time*1000` does not change the 32-bit result |
| PluginDefs.MillisecondCountSplits | trunk/plugins/oderave/plugindefs.h:87 | within 32 bits the count divides back into seconds and milliseconds |
| PluginDefs.MicrosecondCountSplits | trunk/plugins/oderave/plugindefs.h:102 | within 64 bits the count divides back into seconds and microseconds |
| PluginDefs.MicrosecondCountMonotonic | trunk/plugins/oderave/plugindefs.h:102 | a later `timeval` gives a strictly larger count |
| DofScatter.Scatter | trunk/plugins/basecontrollers/basecontrollers.h:197-200 | the DOF vector keeps its length |
| DofScatter.LastIndexOf | trunk/plugins/basecontrollers/basecontrollers.h:197-200 | the index found holds the DOF and no later index does |
| DofScatter.ScatterAt | trunk/plugins/basecontrollers/basecontrollers.h:197-200 | a listed DOF holds the value written last for it; an unlisted DOF keeps its old value |
| DofScatter.Gather | trunk/plugins/basecontrollers/basecontrollers.h:197-200 | gathering yields one value per listed DOF |
| DofScatter.GatherAfterScatter | trunk/plugins/basecontrollers/basecontrollers.h:197-200 | with distinct indices, reading the listed DOFs back gives the commanded values |
| DofScatter.ScatterGatherIdentity | trunk/plugins/basecontrollers/basecontrollers.h:197-200 | writing back the values already there changes nothing |
| DofScatter.ScatterTwice | trunk/plugins/basecontrollers/basecontrollers.h:197-200 | applying the same command twice equals applying it once |
| DofScatter.ZeroAtMeaning | trunk/plugins/basecontrollers/basecontrollers.h:199 | exactly the listed DOFs get velocity 0; the others keep theirs |
| DofScatter.ScatterInto | trunk/plugins/basecontrollers/basecontrollers.h:189-220 | the in-place loop fails exactly when a checked access is out of range; otherwise the arrays equal `Scatter` and `ZeroAt` of their old contents |
| DofScatter.WarningsAreViolations | trunk/plugins/basecontrollers/basecontrollers.h:221-232 | every warning names a DOF outside its limit by more than `5e-5`, with that DOF's value and limit |
| DofScatter.NoWarningsWithinLimits | trunk/plugins/basecontrollers/basecontrollers.h:221-232 | values within the limits plus the tolerance give no warning |
| Controllers.ApplySpec | trunk/plugins/basecontrollers/basecontrollers.h:189-232 | `_SetDOFValues` succeeds exactly when every checked access of the scatter and the limit check is in range, and keeps the vector lengths |
| Controllers.ApplyTouchesOnlyListedDofs | trunk/plugins/basecontrollers/basecontrollers.h:189-220 | after success the listed DOFs hold the commanded values and are at rest; every other DOF keeps its value and velocity |
| Controllers.ClockTick | trunk/plugins/basecontrollers/basecontrollers.h:138-143 | done becomes set exactly when it was set or the clock was past the duration; a clock past the duration restarts from the duration, otherwise from where it was, and advances by one step |
| Controllers.ClockStaysNearDuration | trunk/plugins/basecontrollers/basecontrollers.h:138-143 | from a clock within the duration, with non-negative steps, the clock stays between 0 and duration plus one step |
| Controllers.ReachIsLinear | trunk/plugins/basecontrollers/basecontrollers.h:143 | `n` unclipped ticks advance the clock by `n` steps |
| Controllers.TicksLowerBound | trunk/plugins/basecontrollers/basecontrollers.h:138-143 | after `n` ticks the clock is at least the smaller of `n` steps and duration plus one step |
| Controllers.TrajectoryFinishes | trunk/plugins/basecontrollers/basecontrollers.h:138-143 | with a positive step, once the steps carry the clock past the duration the next tick sets done |
| Controllers.TicksKeepDone | trunk/plugins/basecontrollers/basecontrollers.h:138-143 | once done, ticking never clears the flag |
| Controllers.InitialState | trunk/plugins/basecontrollers/basecontrollers.h:21-26 | a new controller is done, not paused, at speed 1 and time 0 |
| Controllers.InitSpec | trunk/plugins/basecontrollers/basecontrollers.h:29-48 | `Init` unpauses; with a robot it takes the DOF indices, the control flag and the robot's lower and upper limits and changes nothing else; without a robot nothing else changes |
| Controllers.ResetSpec | trunk/plugins/basecontrollers/basecontrollers.h:50-58 | `Reset` drops the trajectory and the desired values, keeping the invariant |
| Controllers.SetDesiredSpec | trunk/plugins/basecontrollers/basecontrollers.h:62-90 | a size mismatch throws `InvalidArguments`; the robot only changes on a successful call; the invariant is kept |
| Controllers.SetDesiredEffects | trunk/plugins/basecontrollers/basecontrollers.h:62-90 | a size mismatch throws before any state changes; otherwise the clock restarts and the trajectory is dropped; paused, the desired values, done flag and robot are kept; unpaused and successful, the new values are held and done is cleared |
| Controllers.DesiredCommanded | trunk/plugins/basecontrollers/basecontrollers.h:72-87 | proof step for `SetDesired`: an unpaused call stores the values and transform, applies them, and clears done exactly when the application succeeds |
| Controllers.DesiredIgnoresClock | trunk/plugins/basecontrollers/basecontrollers.h:66-67 | the result does not depend on the clock or trajectory held before the call |
| Controllers.SetPathSpec | trunk/plugins/basecontrollers/basecontrollers.h:92-114 | paused: returns false, drops the trajectory and is done; accepted: stores it, resets the clock, clears the desired values, and is done exactly when there is no trajectory |
| Controllers.SetPathChecksDimension | trunk/plugins/basecontrollers/basecontrollers.h:100-102 | unpaused, the call throws exactly when a trajectory of the wrong DOF count is given, and then changes nothing |
| Controllers.HoldDesired | trunk/plugins/basecontrollers/basecontrollers.h:146-154 | with no desired values nothing changes; otherwise the values are applied with the desired transform when the base is controlled, and on success the robot moves and done is set, while a failed application throws `OutOfRange` and changes nothing |
| Controllers.StepSpec | trunk/plugins/basecontrollers/basecontrollers.h:116-155 | a step never clears the done flag; an unpaused step without a trajectory is `HoldDesired` |
| Controllers.FollowSample | trunk/plugins/basecontrollers/basecontrollers.h:126-137 | only a non-empty sample can fail to apply |
| Controllers.StepFollows | trunk/plugins/basecontrollers/basecontrollers.h:121-154 | proof step for `SimulationStep`: a step that reaches its sample ticks the clock, then holds the desired values from the moved robot |
| Controllers.StepOnlyMovesClock | trunk/plugins/basecontrollers/basecontrollers.h:116-155 | a step changes only the clock and the done flag, and keeps the invariant |
| Controllers.FailedSampleIsIdle | trunk/plugins/basecontrollers/basecontrollers.h:121-125 | when the trajectory cannot be sampled the step changes nothing |
| Controllers.PausedStepIsIdle | trunk/plugins/basecontrollers/basecontrollers.h:118-120 | a paused controller's step changes nothing |
| Controllers.TrajectoryStepTicks | trunk/plugins/basecontrollers/basecontrollers.h:121-144 | a successful trajectory step moves the clock by exactly one tick |
| Controllers.DesiredHoldsAfterStep | trunk/plugins/basecontrollers/basecontrollers.h:146-154 | after `SetDesired`, a step leaves the robot where it was and sets done |
| Controllers.CommandSpec | trunk/plugins/basecontrollers/basecontrollers.h:157-172 | only the pause flag can change; a missing command throws `InvalidArguments`; any word but `pause` (in any case) throws `CommandNotSupported`; `pause` stores the bool read after it and returns true |
| Controllers.PauseCommand | trunk/plugins/basecontrollers/basecontrollers.h:164-166 | `pause 1` pauses and `pause 0` resumes |
| Controllers.StepHoldsDesired | trunk/plugins/basecontrollers/basecontrollers.h:146-154 | without a trajectory every unpaused step, not only the first after `SetDesired`, re-applies non-empty desired values and sets done, throws `OutOfRange` without change when they cannot be applied, and does nothing with no desired values |
| Controllers.IdealController.IsDone | trunk/plugins/basecontrollers/basecontrollers.h:173 | reports the done flag that the spec functions maintain |
| Controllers.IdealController.GetTime | trunk/plugins/basecontrollers/basecontrollers.h:174 | reports the trajectory clock that the spec functions maintain |
| Controllers.IdealController.constructor | trunk/plugins/basecontrollers/basecontrollers.h:21-26 | no robot and the initial state |
| Controllers.IdealController.Init | trunk/plugins/basecontrollers/basecontrollers.h:29-48 | returns true and the new state is `InitSpec` of the old |
| Controllers.IdealController.Reset | trunk/plugins/basecontrollers/basecontrollers.h:50-58 | the new state is `ResetSpec` of the old |
| Controllers.IdealController.CheckLimits | trunk/plugins/basecontrollers/basecontrollers.h:221-232 | succeeds exactly when the limits fit the value array; the warnings are `LimitWarnings` of the checked prefix |
| Controllers.IdealController.ApplyDOFValues | trunk/plugins/basecontrollers/basecontrollers.h:189-220 | the robot's new state is `ApplySpec` of the old, unchanged on failure, with the warnings of the limit check |
| Controllers.IdealController.SetDesired | trunk/plugins/basecontrollers/basecontrollers.h:62-90 | result, controller and robot are `SetDesiredSpec` of the old state; a robot is needed only for an unpaused call with the right number of values |
| Controllers.IdealController.CommandDesired | trunk/plugins/basecontrollers/basecontrollers.h:72-87 | result, controller and robot are `SetDesiredSpec` of the old state |
| Controllers.IdealController.SetPath | trunk/plugins/basecontrollers/basecontrollers.h:92-114 | result and controller are `SetPathSpec` of the old state |
| Controllers.IdealController.HoldDesiredValues | trunk/plugins/basecontrollers/basecontrollers.h:146-154 | result, controller and robot are `HoldDesired` of the old state; a robot is needed only when desired values are set |
| Controllers.IdealController.SimulationStep | trunk/plugins/basecontrollers/basecontrollers.h:116-155 | result, controller and robot are `StepSpec` of the old state and the trajectory sample at the old time; a robot is needed only when the sample writes to it (joint values or base control) or desired values are held |
| Controllers.IdealController.MoveToSample | trunk/plugins/basecontrollers/basecontrollers.h:126-137 | the robot's new state is `FollowSample` of the old, unchanged on failure; a robot is needed only when the sample has joint values or the base is controlled |
| Controllers.IdealController.AdvanceClock | trunk/plugins/basecontrollers/basecontrollers.h:138-143 | clock and done flag become `ClockTick` of their old values; nothing else changes |
| Controllers.IdealController.SendCommand | trunk/plugins/basecontrollers/basecontrollers.h:157-172 | result and controller are `CommandSpec` of the old state |
| Controllers.RedirectController.constructor | trunk/plugins/basecontrollers/basecontrollers.h:255-257 | auto-sync on, no target, no DOF indices |
| Controllers.RedirectController.Init | trunk/plugins/basecontrollers/basecontrollers.h:260-276 | the target is the other robot's controller (none for the same robot); the DOF indices are copied from it; with auto-sync the done copy is refreshed |
| Controllers.RedirectController.Sync | trunk/plugins/basecontrollers/basecontrollers.h:356-365 | with a target, the done copy becomes the target's flag |
| Controllers.RedirectController.IsDone | trunk/plugins/basecontrollers/basecontrollers.h:312 | done exactly when the target is done and, with auto-sync, the synced copy says so |
| Controllers.RedirectController.SetDesired | trunk/plugins/basecontrollers/basecontrollers.h:280-289 | the target runs `SetDesired`; on success with auto-sync the done copy is refreshed |
| Controllers.RedirectController.SetPath | trunk/plugins/basecontrollers/basecontrollers.h:290-299 | the target runs `SetPath`; on success with auto-sync the done copy is refreshed |
| Controllers.RedirectController.SimulationStep | trunk/plugins/basecontrollers/basecontrollers.h:301-309 | without a target nothing happens; otherwise the target steps and, with auto-sync, the copy is refreshed; a robot is needed only when the sample writes to it or desired values are held |
| Controllers.RedirectController.SendCommand | trunk/plugins/basecontrollers/basecontrollers.h:327-353 | an empty command throws; `sync` syncs; `autosync <bool>` sets the flag and syncs when on; anything else goes to the target with the word still in the stream |
| Controllers.SyncedRedirectAgrees | trunk/plugins/basecontrollers/basecontrollers.h:312 | right after a sync with auto-sync on, the redirect reports exactly what its target reports |
| Streams.Lower | openrave_svn/plugins/grasper/grasper.h:97 | lower-casing keeps the length and maps each character |
| Streams.LowerIsLower | openrave_svn/plugins/grasper/grasper.h:144 | the result has no upper-case letter, and lower-casing is idempotent |
| Streams.ReadWord | openrave_svn/plugins/grasper/grasper.h:147 | extracting a word succeeds exactly when a token is left |
| Streams.ReadInt | openrave_svn/plugins/grasper/grasper.h:153 | extracting an `int` succeeds exactly when the next token is an integer within 32 bits, and then stores it; a non-number stores 0, a number beyond the range stores the bound it passed, and the end of the stream keeps the old value |
| Streams.DigitsRoundTrip | openrave_svn/plugins/grasper/grasper.h:153 | the value of the decimal digits of `n` is `n` |
| Streams.ParseIntToken | openrave_svn/plugins/grasper/grasper.h:153 | an integer written in decimal parses back to itself |
| Streams.ReadIntToken | openrave_svn/plugins/grasper/grasper.h:153 | reading a written integer gives it back when it fits in 32 bits and stores the bound it passed, failing, when it does not |
| Streams.ReadRealToken | openrave_svn/plugins/grasper/grasper.h:180 | reading a written integer as a real gives its value |
| Streams.ReadReal | openrave_svn/plugins/grasper/grasper.h:180 | extracting a real succeeds exactly when the next token is one |
| Streams.ReadBool | openrave_svn/plugins/grasper/grasper.h:168 | extracting a `bool` succeeds exactly on 0 or 1; at the end of the stream the target is kept |
| Streams.ReadReals | openrave_svn/plugins/grasper/grasper.h:423-425 | the loop succeeds exactly when enough real tokens follow, and then stores them in order |
| Streams.ParseKeywords | openrave_svn/plugins/grasper/grasper.h:140-209 | the loop computes the keyword-parse specification |
| Streams.StopsAtUnknownKeyword | openrave_svn/plugins/grasper/grasper.h:201-204 | an unknown keyword ends the parse successfully, whatever follows |
| Streams.FailsOnUnreadableArgument | openrave_svn/plugins/grasper/grasper.h:206-209 | an argument that cannot be read makes the command return false |
| Streams.ParseKeeps | openrave_svn/plugins/grasper/grasper.h:140-209 | a property every handled keyword keeps holds of the parsed options |
| Streams.KeywordCaseInsensitive | openrave_svn/plugins/grasper/grasper.h:144 | keywords are matched without regard to case |
| GrasperParsers.ReadVec3 | openrave_svn/plugins/grasper/grasper.h:157 | reading a vector succeeds exactly when three real tokens follow, and then holds them |
| GrasperParsers.PlannerNameChoices | openrave_svn/plugins/grasper/grasper.h:92-105 | the planner is the default `Grasper` or one of the words given, and the default without a `planner` keyword |
| GrasperParsers.ParseMainArgs | openrave_svn/plugins/grasper/grasper.h:81-105 | the robot name is the first word, and the planner is `PlannerName` of the rest |
| GrasperParsers.GraspApply | openrave_svn/plugins/grasper/grasper.h:146-200 | every `Grasp` keyword is handled and consumes no more than it was given |
| GrasperParsers.GraspKeywordsHandled | openrave_svn/plugins/grasper/grasper.h:146-204 | exactly the 23 `Grasp` keywords are known, and none throws |
| GrasperParsers.GraspSynonyms | openrave_svn/plugins/grasper/grasper.h:146-184 | `body`/`target` and `centeroffset`/`position` are synonyms |
| GrasperParsers.GraspConsumes | openrave_svn/plugins/grasper/grasper.h:140-209 | the `Grasp` handler never gives back more tokens than it was given |
| GrasperParsers.DistanceMapKeywordsHandled | openrave_svn/plugins/grasper/grasper.h:320-333 | exactly `conewidth`, `mapsamples`, `target` and `center` are known, and none throws |
| GrasperParsers.DistanceMapConsumes | openrave_svn/plugins/grasper/grasper.h:313-338 | the handler never gives back more tokens than it was given |
| GrasperParsers.StableContactsKeywordsHandled | openrave_svn/plugins/grasper/grasper.h:373-385 | exactly `direction`, `friction` and `getlinkcollisions` are known, and none throws |
| GrasperParsers.StableContactsConsumes | openrave_svn/plugins/grasper/grasper.h:365-390 | the handler never gives back more tokens than it was given |
| GrasperParsers.FrictionNeedsKeyword | openrave_svn/plugins/grasper/grasper.h:360-378 | without a `friction` keyword the friction stays at its starting value |
| GrasperParsers.Resize | openrave_svn/plugins/grasper/grasper.h:422 | `resize` keeps the prefix and pads with zeros |
| GrasperParsers.ReadPoints | openrave_svn/plugins/grasper/grasper.h:419-426 | the `points` handler consumes no more than it was given |
| GrasperParsers.HullKeywordsHandled | openrave_svn/plugins/grasper/grasper.h:419-439 | exactly the four `ConvexHull` keywords are known, and only `points` can throw |
| GrasperParsers.HullConsumes | openrave_svn/plugins/grasper/grasper.h:411-445 | the handler never gives back more tokens than it was given |
| GrasperParsers.PointsReadsAll | openrave_svn/plugins/grasper/grasper.h:419-426 | `points N dim` followed by `N*dim` reals stores them all, with the dimension |
| GrasperParsers.ReadsBothInts | openrave_svn/plugins/grasper/grasper.h:421 | `N` and `dim` are read in order |
| GrasperParsers.ReadsAllValues | openrave_svn/plugins/grasper/grasper.h:423-425 | a run of readable reals is read in full, leaving the rest |
| GrasperParsers.OversizedPointCountFails | openrave_svn/plugins/grasper/grasper.h:421-426 | `points N dim` with `N` beyond the range of `int` never succeeds: the command throws or returns false |
| GrasperParsers.NegativePointCountThrows | openrave_svn/plugins/grasper/grasper.h:421-422 | a negative `N*dim` makes `resize` throw |
| GrasperParsers.ParsedHullTriangulates | openrave_svn/plugins/grasper/grasper.h:409-435 | every accepted `ConvexHull` parse still asks for triangles |
| Sphere.SwapKeyReverses | openrave_svn/plugins/grasper/grasper.h:667-671 | swapping the halves of an edge key gives the key of the reversed edge |
| Sphere.EdgeKeyInjective | openrave_svn/plugins/grasper/grasper.h:667 | distinct directed edges of 32-bit indices have distinct keys |
| Sphere.Undirected | openrave_svn/plugins/grasper/grasper.h:671 | the undirected edge is the pair in ascending order |
| Sphere.UndirectedSame | openrave_svn/plugins/grasper/grasper.h:671 | two directed edges share a midpoint exactly when they are equal or reversed |
| Sphere.EdgesBound | openrave_svn/plugins/grasper/grasper.h:659-683 | a triangle list has at most as many distinct edges as indices |
| Sphere.EdgesAppend | openrave_svn/plugins/grasper/grasper.h:659-683 | the edges of two concatenated triangle lists are the union of their edges |
| Sphere.OrientedAppend | openrave_svn/plugins/grasper/grasper.h:635-641 | orienting two triangle lists is orienting each |
| Sphere.OrientStep | openrave_svn/plugins/grasper/grasper.h:635-641 | one pass of the loop swaps the first two indices of the next triangle |
| Sphere.OrientTriangles | openrave_svn/plugins/grasper/grasper.h:635-641 | the in-place array loop leaves `Oriented` of the old contents |
| Sphere.OrientOne | openrave_svn/plugins/grasper/grasper.h:639-640 | one triangle's conditional swap, in place |
| Sphere.OrientedKeepsRange | openrave_svn/plugins/grasper/grasper.h:635-641 | orientation keeps every index in range |
| Sphere.OrientedKeepsEdges | openrave_svn/plugins/grasper/grasper.h:635-641 | orientation keeps the set of undirected edges |
| Sphere.OrientedTwice | openrave_svn/plugins/grasper/grasper.h:635-641 | applying the same swaps twice restores the indices |
| Sphere.RegistryFound | openrave_svn/plugins/grasper/grasper.h:668-676 | a key already in the map names the midpoint of that undirected edge |
| Sphere.RegistryInsert | openrave_svn/plugins/grasper/grasper.h:670-673 | inserting both keys and appending the midpoint keeps the registry consistent |
| Sphere.MidpointIndex | openrave_svn/plugins/grasper/grasper.h:667-676 | the index returned is the edge's midpoint; earlier vertices and entries are kept; the edge is now registered |
| Sphere.RegisterMidpoint | openrave_svn/plugins/grasper/grasper.h:670-673 | a new edge gets the next vertex index, its midpoint and both keys |
| Sphere.SplitTriangle | openrave_svn/plugins/grasper/grasper.h:661-682 | the three midpoints are registered and the four children are in range |
| Sphere.ChildrenValid | openrave_svn/plugins/grasper/grasper.h:679-682 | the four children use only the corners and midpoints |
| Sphere.Subdivide | openrave_svn/plugins/grasper/grasper.h:650-684 | one level: old vertices kept, one new vertex per distinct edge, four times the indices, all in range, each triangle split into its four children |
| Sphere.IcosahedronInRange | openrave_svn/plugins/grasper/grasper.h:608-630 | the 60 indices of the icosahedron address its 12 corners |
| Sphere.Pow4Monotonic | openrave_svn/plugins/grasper/grasper.h:648 | powers of four grow with the level |
| Sphere.LevelBounds | openrave_svn/plugins/grasper/grasper.h:648-686 | after `d` levels there are `60*4^d` indices and at most `12 + 20*(4^d - 1)` vertices |
| Sphere.InitialMesh | openrave_svn/plugins/grasper/grasper.h:595-644 | the starting mesh is the 12 corners with the oriented icosahedron, in range |
| Sphere.NextLevel | openrave_svn/plugins/grasper/grasper.h:648-686 | one more level keeps the level invariant |
| Sphere.GenerateSphereTriangulation | openrave_svn/plugins/grasper/grasper.h:591-689 | `60*4^levels` indices, all in range, fewer than 2^31 vertices, the 12 corners first |
| HullFaces.EncodeFaces | openrave_svn/plugins/grasper/grasper.h:950-972 | the list starts with the face count |
| HullFaces.DecodeEncode | openrave_svn/plugins/grasper/grasper.h:950-972 | decoding the encoded face list gives back the faces |
| HullFaces.EncodeDecode | openrave_svn/plugins/grasper/grasper.h:471-476 | a list that decodes re-encodes to itself |
| HullFaces.RecordsAppend | openrave_svn/plugins/grasper/grasper.h:962-972 | face records concatenate |
| HullFaces.PlanesOfLength | openrave_svn/plugins/grasper/grasper.h:973-978 | the plane list holds `dim + 1` values per facet with a normal |
| HullFaces.BuildHullLists | openrave_svn/plugins/grasper/grasper.h:948-979 | the facet loop builds exactly the plane list and, when asked, the encoded face list |
| HullFaces.AppendRecord | openrave_svn/plugins/grasper/grasper.h:963-971 | appending one face record and bumping the count encodes one more face |
| HullFaces.CountTriangles | openrave_svn/plugins/grasper/grasper.h:471-476 | the counting walk sums `n - 2` over the faces |
| HullFaces.DecodeStep | openrave_svn/plugins/grasper/grasper.h:473-475 | the walk's face index always points at the next face's vertex count |
| HullFaces.FanPrefixLength | openrave_svn/plugins/grasper/grasper.h:518-520 | a fan over `m` vertices has `3*(m - 2)` ids |
| HullFaces.FanPrefixTriangle | openrave_svn/plugins/grasper/grasper.h:518-520 | the `t`-th triangle is the first sorted vertex with the `t+1`-th and `t+2`-th |
| HullFaces.FanCoversFace | openrave_svn/plugins/grasper/grasper.h:518-520 | a fan over three or more vertices uses exactly the face's vertices |
| HullFaces.FanNeighboursShareEdge | openrave_svn/plugins/grasper/grasper.h:518-520 | consecutive fan triangles share an edge |
| HullFaces.FansMatchCount | openrave_svn/plugins/grasper/grasper.h:471-522 | the fans hold three ids per counted triangle |
| HullFaces.EmitFan | openrave_svn/plugins/grasper/grasper.h:518-520 | the emitting loop writes `Fan` of the face |
| HullFaces.TriangulateFaces | openrave_svn/plugins/grasper/grasper.h:478-523 | the face walk writes the fans of all faces |
| ConvexHullCommand.AngleOrders | openrave_svn/plugins/grasper/grasper.h:481-517 | every face gets an order of its own vertices |
| ConvexHullCommand.WriteTriangles | openrave_svn/plugins/grasper/grasper.h:466-523 | the walks write the triangle count, then the fans |
| ConvexHullCommand.ConvexHull | openrave_svn/plugins/grasper/grasper.h:406-526 | the command's outcome is `HullReply` of its parse |
| ConvexHullCommand.RunHull | openrave_svn/plugins/grasper/grasper.h:447-526 | the command after a successful parse is `HullReply` |
| ConvexHullCommand.OnlyThreeDimensionsTriangulate | openrave_svn/plugins/grasper/grasper.h:466-470 | hulls that are not three-dimensional never report success |
| ConvexHullCommand.PlaneCountIsFacetCount | openrave_svn/plugins/grasper/grasper.h:455-460 | the plane count written is the number of facets with a normal, followed by the planes |
| ConvexHullCommand.TrianglesFollowListing | openrave_svn/plugins/grasper/grasper.h:466-523 | a three-dimensional run succeeds and writes the count, then three ids per triangle |
| Contacts.ConeByLength | openrave_svn/plugins/grasper/grasper.h:862-864 | the test is the friction-cone inequality on cos and sin² |
| Contacts.StableIsFrictionCone | openrave_svn/plugins/grasper/grasper.h:862-864 | a contact is stable exactly when `n·d > 0` and `|n|²|d|² <= (n·d)²(1 + mu²)`: the squeeze direction lies within the cone of half-angle `atan(mu)` around the normal |
| Contacts.ScaledCone | openrave_svn/plugins/grasper/grasper.h:850 | scaling the direction by `k > 0` does not change the test |
| Contacts.StableIgnoresLength | openrave_svn/plugins/grasper/grasper.h:850 | skipping the normalisation of the squeeze direction does not change the verdict |
| Contacts.ConeMonotone | openrave_svn/plugins/grasper/grasper.h:864 | a stable pair stays stable under more friction |
| Contacts.StableMonotoneInFriction | openrave_svn/plugins/grasper/grasper.h:864 | a contact stable at `mu1` is stable at every `mu2 >= mu1` |
| Contacts.StableContactsMembers | openrave_svn/plugins/grasper/grasper.h:818-869 | a contact is kept exactly when one reported contact, facing out of its link, passes the test; no more contacts than reported |
| Contacts.SelectStableContacts | openrave_svn/plugins/grasper/grasper.h:797-870 | the loop keeps `StableContacts`, in order |
| Contacts.TestContact | openrave_svn/plugins/grasper/grasper.h:822-866 | the contact is flipped to face out of its link and tested against the squeeze direction |
| Contacts.Wrench | openrave_svn/plugins/grasper/grasper.h:909-915 | a wrench has six values |
| Contacts.WrenchesLength | openrave_svn/plugins/grasper/grasper.h:906 | six values per contact |
| Contacts.WrenchesLayout | openrave_svn/plugins/grasper/grasper.h:906-916 | the `k`-th block of six is contact `k`'s normal and torque |
| Contacts.ContactWrenches | openrave_svn/plugins/grasper/grasper.h:906-916 | the fill loop writes `Wrenches` |
| Contacts.MarginZeroWhenOriginOutside | openrave_svn/plugins/grasper/grasper.h:921-926 | a plane that leaves the origin outside or on the hull makes the distance 0 |
| Contacts.MarginIsLeastDistance | openrave_svn/plugins/grasper/grasper.h:921-927 | with the origin strictly inside, the distance is the least `-offset`, starting from `1e30` |
| Contacts.MarginNonNegative | openrave_svn/plugins/grasper/grasper.h:921-927 | from a positive start the distance is never negative, and 0 only from a plane that leaves the origin outside |
| Contacts.MarginWithinBounds | openrave_svn/plugins/grasper/grasper.h:922-925 | with seven values per plane the loop never reads past the end |
| Contacts.MinDistance | openrave_svn/plugins/grasper/grasper.h:921-927 | the loop computes `Margin` from `1e30` |
| Contacts.AnalysisOutcome | openrave_svn/plugins/grasper/grasper.h:900-928 | the analysis throws exactly with fewer than seven contacts or a qhull failure; the distance is never negative |
| Contacts.AnalyzeContacts | openrave_svn/plugins/grasper/grasper.h:900-928 | the method computes `AnalysisOf` |

## Left out

- Logging (`RAVELOG_*`), the trajectory log file `flog`, mutex locks and the `GetXMLId` banner. None of them affects the controller's state.
- The joint-limit change callback of `IdealController::Init`. The limits are read once, when `Init` has a robot.
- The body-transform copy in `RedirectController::_sync`. Only the done flag it copies is modelled.
- `RedirectController::Clone`, and `RedirectController::Reset`, which does nothing.
- The target of a `RedirectController` is modelled as an `IdealController`.
- `GetVelocity`, `GetTorque`, `GetRobot`, `GetControlDOFIndices` and `IsControlTransformation`, which only return a field or forward to the target.
- Controllers.IdealController.SimulationStep: the trajectory sample at the current time is an input (`SampleNow`), because `SampleTrajectory` is interpolation code outside this model.
- Robot-side clamping of `SetDOFValues(..., checklimits = true)`. The robot stores the values it is given.
- Floating point is modelled as exact reals: `dReal`, the tolerance `5e-5f` of `_CheckLimits`, `1e-7f`, `1e-15` and `1e30`.
- The clock reads of `timeGetTime` and `GetMicroTime` (`ftime`, `gettimeofday`) are parameters. The Windows branch of `GetMicroTime`, which uses `QueryPerformanceCounter`, is not modelled.
- Sphere.GenerateSphereTriangulation: vertex coordinates and `normalize3` are not modelled. A vertex is a corner or the midpoint of two earlier vertices.
- Sphere.GenerateSphereTriangulation: the orientation test (the sign of a triple product) is an input, one flag per triangle.
- Sphere.GenerateSphereTriangulation: `levels` is required to be at most 13, so that vertex ids fit the `int` of the source and the 32-bit halves of the edge keys.
- Sphere.OrientTriangles: the swaps are shown to keep the index range and the edge set, and to be their own inverse. That the result is a permutation of the input (a multiset statement) is not stated.
- qhull is a parameter. The model assumes only `HullFaces.QhullContract`: on success the dimension is at least 2 and every normal has that dimension.
- The plane-orientation pass at the end of `_ComputeConvexHull` (openrave_svn/plugins/grasper/grasper.h:993-1013). It negates normals using the mean of the points, in floating point, and the planes written by `ConvexHull` are modelled before it. The offsets it leaves alone are all that `_AnalyzeContacts3D` reads.
- The atan2 angle sort of each face (openrave_svn/plugins/grasper/grasper.h:480-517) is a parameter that returns an order of the face's vertices.
- Command output is a sequence of tokens, not formatted text.
- The grasper commands after their parse: planning, execution, collision checks, distance-map sampling and object sampling. These call into the environment, planners and random sampling.
- `_AnalyzeContacts3D(contacts, mu, N)`, which samples a friction cone of `N` directions per contact with trigonometric functions.
- The inputs of the friction-cone test come from the collision checker and the robot's Jacobian, and are given per contact (`LinkContact`).
- The `GetStableContacts` output formatting and the collision check that can end `_GetStableContacts` early.
- `BOOST_ASSERT(mu > 0)` of `_GetStableContacts` is a precondition of `SelectStableContacts`.
- Number syntax: an integer token is an optional sign and decimal digits; a real token adds an optional fraction. Exponents, hexadecimal and locale forms are not accepted.
- One extraction consumes one whole token. Partial token reads of `>>` are not modelled.
- Integer overflow of `N*dim` in the `ConvexHull` parser. The product is an unbounded integer.
- GrasperParsers.GraspApply: the `direction` keyword stores the three values as read; the source normalizes them with `normalize3` (openrave_svn/plugins/grasper/grasper.h:157-158), a square root that exact reals do not model.
- Controllers.ApplySpec: a robot without links is not modelled. The no-transform `_SetDOFValues` reads `GetLinks().at(0)` (trunk/plugins/basecontrollers/basecontrollers.h:195), which throws for such a robot; `ApplySpec` does not fail for that reason.
- Controllers.RedirectController.constructor: sets `syncDone` to false. The source leaves `_bSyncDone` uninitialised (trunk/plugins/basecontrollers/basecontrollers.h:255), so an auto-synced `IsDone` before the first sync reads an indeterminate value there.
- Allocation failure of `resize` is not modelled.
- The target lookups of the `Grasp` and `ComputeDistanceMap` parsers (`GetKinBody`, `GetLink`). The parsed name or id is stored.
