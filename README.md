# NextFTC command engine — a Dafny model

This project models the command engine of NextFTC, a FIRST Tech Challenge
robot-control library. The parts modelled are:

- the `Command` base class: its requirements, its interruptible flag, its
  name, and its fluent setters;
- the two command groups: `SequentialGroup`, whose children run one after
  another, and `ParallelGroup`, whose children run together and may share no
  requirement;
- `LambdaCommand`, which is built from hooks;
- `Delay`;
- the `Subsystem` defaults;
- the `SetPositions` / `SetPosition` instant commands;
- the composition utilities of `Command` (`then`, `and`, `raceWith`,
  `afterTime`, `thenWait`, `endAfter`, `withDeadline`, `asDeadline`,
  `perpetually`, `forcedParallel`).

How the library maps onto the model:

- **Classes.** A Kotlin class that updates fields becomes a Dafny `class`.
  Dafny classes cannot extend classes, and the model uses no traits, so
  each command class holds `base: Command`,
  which carries the state it inherits. A command's identity, as a child of a
  group, is that `base` object.
- **What a group does to its children.** This is recorded in a ghost trace,
  `calls`, of lifecycle calls: `Start`, `Update` and `Stop(interrupted)`.
- **Polling children.** When a group polls a child's `isDone` during an
  update, the answer comes from the parameter `finished`: the set of
  children that report done on that tick.
- **Specification functions.** Each group method is tied to pure step
  functions (`StepChildren`/`StepCalls`, `Survivors`/`UpdateCalls`). A
  run of several ticks (`RunChildren`/`RunCalls`) is built from these
  steps. The run-level guarantees are lemmas about those functions:
  - the sequential group only ever has its head open;
  - the parallel group keeps exactly the children that have not yet
    reported done;
  - the parallel group's conflict check is exactly pairwise disjointness of
    the requirement sets.
- **Inputs from outside.** The monotonic clock of `Delay` is a parameter,
  `now`. The side effects of the `LambdaCommand` start, update and stop
  hooks, and of subsystem hooks, act on a caller-supplied world value `W`.
- **Requirements.** A requirement is any object in the library, most often
  a subsystem. `Resource(id)` stands for any such object, a subsystem
  included. The `Subsystem` datatype is not itself a `Requirement`.

## Model

| member | source | states |
|---|---|---|
| Commands.Command.constructor | main/dev/nextftc/core/commands/Command.kt:48-62 | a new command is interruptible, has no requirements, and is named after its class's simple name, or "Command" when there is none |
| Commands.Command.Requires | main/dev/nextftc/core/commands/Command.kt:119-121 | the arguments are added to the requirements; the flag and the name are unchanged; returns the receiver |
| Commands.Command.SetRequirements | main/dev/nextftc/core/commands/Command.kt:128-131 | the requirements become exactly the arguments; nothing else changes |
| Commands.Command.SetRequirementSet | main/dev/nextftc/core/commands/Command.kt:138-141 | the requirements become exactly the given set; nothing else changes |
| Commands.Command.AddRequirements | main/dev/nextftc/core/commands/Command.kt:147-149 | the arguments are added to the requirements; nothing else changes |
| Commands.Command.AddRequirementSet | main/dev/nextftc/core/commands/Command.kt:155-157 | the set is added to the requirements; nothing else changes |
| Commands.Command.SetInterruptible | main/dev/nextftc/core/commands/Command.kt:159-161 | sets the flag; the requirements and the name are unchanged |
| Commands.Command.Named | main/dev/nextftc/core/commands/Command.kt:166-168 | sets the name; the requirements and the flag are unchanged |
| Commands.Command.SetName | main/dev/nextftc/core/commands/Command.kt:173 | the same effect as `named` |
| Commands.RequirementSets | main/dev/nextftc/core/commands/groups/ParallelGroup.kt:38-39 | lists, in order, the requirement set of each command |
| Commands.AfterAppend | main/dev/nextftc/core/commands/groups/ParallelGroup.kt:45-68 | helper law of the trace functions both groups use: the open set of children after a concatenated trace is the open set after each part in turn |
| Commands.UpdatedAppend | main/dev/nextftc/core/commands/groups/ParallelGroup.kt:51-60 | helper law of the trace functions both groups use: the update targets of a concatenated trace are those of each part, in order |
| Commands.StoppedAppend | main/dev/nextftc/core/commands/groups/ParallelGroup.kt:51-60 | helper law of the trace functions both groups use: the stops of a concatenated trace are those of each part, in order |
| Commands.WithFlag | main/dev/nextftc/core/commands/groups/SequentialGroup.kt:53 | pairs each command, in order, with one `interrupted` flag |
| SequentialGroups.Head | main/dev/nextftc/core/commands/groups/SequentialGroup.kt:40-42 | at most one child, the head, is the running one |
| SequentialGroups.RunKeepsSuffix | main/dev/nextftc/core/commands/groups/SequentialGroup.kt:48-56 | after any run, the remaining children are a suffix of the original list; each update removes at most one child |
| SequentialGroups.RunStopsCompletedInOrder | main/dev/nextftc/core/commands/groups/SequentialGroup.kt:48-56 | the children stopped during a run are exactly the removed prefix, in list order, each with `interrupted = false` |
| SequentialGroups.RunDoneIffAllCompleted | main/dev/nextftc/core/commands/groups/SequentialGroup.kt:33-34 | the group is done after a run exactly when every child has been stopped as completed, in order |
| SequentialGroups.RunExclusive | main/dev/nextftc/core/commands/groups/SequentialGroup.kt:40-56 | during a run, the set of started-and-not-stopped children is exactly the head of the remaining list |
| SequentialGroups.StartedRunExclusive | main/dev/nextftc/core/commands/groups/SequentialGroup.kt:40-56 | from `start` onward, only the current head is ever open; once the group is done, nothing is open |
| SequentialGroups.PushOnceNeedsFourUpdates | TeamCode/src/main/java/org/firstinspires/ftc/teamcode/subsystems/Pushers.java:27-34 | a four-step sequence cannot finish in fewer than four updates |
| SequentialGroups.StepStopped | main/dev/nextftc/core/commands/groups/SequentialGroup.kt:51-53 | the only stop one update makes is the completed head's, with `false`; no stop when the head is not done |
| SequentialGroups.SequentialGroup.IsDone | main/dev/nextftc/core/commands/groups/SequentialGroup.kt:33-34 | done exactly when no child is left to run |
| SequentialGroups.SequentialGroup.constructor | main/dev/nextftc/core/commands/groups/SequentialGroup.kt:26 | the children are the arguments, in order; no call has been made yet |
| SequentialGroups.SequentialGroup.Start | main/dev/nextftc/core/commands/groups/SequentialGroup.kt:40-42 | starts only the head; with no children it fails with NoSuchElement and calls nothing |
| SequentialGroups.SequentialGroup.Update | main/dev/nextftc/core/commands/groups/SequentialGroup.kt:48-56 | updates the head; if the head reports done, pops it, stops it with `false` and starts the next child; with no children it fails with NoSuchElement |
| SequentialGroups.SequentialGroup.Stop | main/dev/nextftc/core/commands/groups/SequentialGroup.kt:58-62 | stops only the current head, passing `interrupted` on; with no children it calls nothing |
| SequentialGroups.SequentialGroup.Then | main/dev/nextftc/core/commands/groups/SequentialGroup.kt:64-65 | a fresh group of the remaining children followed by the arguments |
| ParallelGroups.Flattened | main/dev/nextftc/core/commands/groups/ParallelGroup.kt:38-39 | every command's requirements occur in the flattened list |
| ParallelGroups.NoConflicts | main/dev/nextftc/core/commands/groups/ParallelGroup.kt:38-41 | the group-by-count check; a group of at most one command never conflicts |
| ParallelGroups.InFlattened | main/dev/nextftc/core/commands/groups/ParallelGroup.kt:38-39 | a requirement occurs in the flattened list exactly when some command has it |
| ParallelGroups.NoConflictsIffDisjoint | main/dev/nextftc/core/commands/groups/ParallelGroup.kt:37-43 | the group-by-count check passes exactly when no two commands share a requirement |
| ParallelGroups.SurvivorsSnoc | main/dev/nextftc/core/commands/groups/ParallelGroup.kt:51-60 | removing done children one by one: an appended child survives exactly when it is not done |
| ParallelGroups.UpdateCallsSnoc | main/dev/nextftc/core/commands/groups/ParallelGroup.kt:51-60 | an appended child is updated, and then stopped with `false` exactly when it is done |
| ParallelGroups.StartAllSnoc | main/dev/nextftc/core/commands/groups/ParallelGroup.kt:45-49 | `start` and `stop` call each child once, in list order |
| ParallelGroups.SurvivorsMembers | main/dev/nextftc/core/commands/groups/ParallelGroup.kt:51-60 | after an update, the children kept are exactly those not done, and the children removed are exactly those done |
| ParallelGroups.SurvivorsKeepOrder | main/dev/nextftc/core/commands/groups/ParallelGroup.kt:52-58 | both the kept and the removed children keep their relative order, because removal goes through the iterator |
| ParallelGroups.UpdateCallsOrder | main/dev/nextftc/core/commands/groups/ParallelGroup.kt:51-60 | every child is updated once, in order; the stops are exactly the done children, in order, with `false` |
| ParallelGroups.InReported | main/dev/nextftc/core/commands/groups/ParallelGroup.kt:56 | a child has reported done during a run exactly when it was done on some tick |
| ParallelGroups.SurvivorsTwice | main/dev/nextftc/core/commands/groups/ParallelGroup.kt:51-60 | two updates remove the children done on either tick |
| ParallelGroups.SurvivorsNone | main/dev/nextftc/core/commands/groups/ParallelGroup.kt:51-60 | an update in which no child is done removes nothing |
| ParallelGroups.RunSurvivors | main/dev/nextftc/core/commands/groups/ParallelGroup.kt:51-60 | after a run, the remaining children are the original ones minus every child that reported done on some tick |
| ParallelGroups.RunDoneIffEachReported | main/dev/nextftc/core/commands/groups/ParallelGroup.kt:34-35 | the group ends up with no children exactly when every child reported done on some tick |
| ParallelGroups.RunIsDoneIffEachReported | main/dev/nextftc/core/commands/groups/ParallelGroup.kt:34-35 | after a run of at least one tick, polling `isDone` with the last tick's answers says done exactly when every child reported done on some tick |
| ParallelGroups.AfterUpdateCalls | main/dev/nextftc/core/commands/groups/ParallelGroup.kt:51-60 | an update closes exactly the done children |
| ParallelGroups.AfterStartAll | main/dev/nextftc/core/commands/groups/ParallelGroup.kt:45-49 | `start` opens every child |
| ParallelGroups.AfterStopAll | main/dev/nextftc/core/commands/groups/ParallelGroup.kt:62-68 | `stop` closes every remaining child |
| ParallelGroups.RunOpen | main/dev/nextftc/core/commands/groups/ParallelGroup.kt:51-60 | during a run, the open children are exactly the remaining ones |
| ParallelGroups.StartedRunOpen | main/dev/nextftc/core/commands/groups/ParallelGroup.kt:45-68 | from `start` onward, the open children are exactly the remaining ones; after `stop`, none is open |
| ParallelGroups.ParallelGroup.Init | main/dev/nextftc/core/commands/groups/ParallelGroup.kt:26-43 | only for commands with pairwise disjoint requirements, as the check in `init` demands: the children are the arguments, in order, and are conflict-free; no call has been made yet |
| ParallelGroups.ParallelGroup.New | main/dev/nextftc/core/commands/groups/ParallelGroup.kt:37-43 | construction fails with IllegalState and the conflict message exactly when two commands share a requirement; otherwise it gives a fresh, conflict-free group of the commands |
| ParallelGroups.ParallelGroup.IsDone | main/dev/nextftc/core/commands/groups/ParallelGroup.kt:34-35 | done exactly when an update with the same answers would leave no children |
| ParallelGroups.ParallelGroup.Start | main/dev/nextftc/core/commands/groups/ParallelGroup.kt:45-49 | starts every child, in list order |
| ParallelGroups.ParallelGroup.Update | main/dev/nextftc/core/commands/groups/ParallelGroup.kt:51-60 | updates every child in order; a done child is stopped with `false` and removed; the children kept are `Survivors` |
| ParallelGroups.ParallelGroup.Stop | main/dev/nextftc/core/commands/groups/ParallelGroup.kt:62-68 | stops every remaining child, in order, passing `interrupted` on |
| ParallelGroups.ParallelGroup.And | main/dev/nextftc/core/commands/groups/ParallelGroup.kt:70-71 | a group of the remaining children plus the arguments, refused on a shared requirement |
| Delays.Delay.constructor | main/dev/nextftc/core/commands/delays/Delay.kt:36-41 | a delay claims no requirements and has not started |
| Delays.Delay.Start | main/dev/nextftc/core/commands/delays/Delay.kt:58-60 | records the clock reading; starting again restarts the wait |
| Delays.Delay.IsDone | main/dev/nextftc/core/commands/delays/Delay.kt:53-56 | fails with UninitializedProperty before `start`; otherwise done exactly when at least `time` has elapsed since the start |
| Delays.StaysDone | main/dev/nextftc/core/commands/delays/Delay.kt:55-56 | once done, a delay stays done as the clock advances |
| Delays.ZeroDelayDoneAtStart | main/dev/nextftc/core/commands/delays/Delay.kt:55-56 | a zero-length delay is done on the tick it starts |
| Delays.PositiveDelayNotDoneAtStart | main/dev/nextftc/core/commands/delays/Delay.kt:55-56 | a positive delay is not done on the tick it starts |
| LambdaCommands.ResolvedName | main/dev/nextftc/core/commands/utility/LambdaCommand.kt:32-39 | the name is the given name or the class's name; it is blank only when the class's own name is |
| LambdaCommands.ExplicitNameKept | main/dev/nextftc/core/commands/utility/LambdaCommand.kt:36-37 | a non-blank name other than "LambdaCommand" is kept |
| LambdaCommands.DefaultNameReplaced | main/dev/nextftc/core/commands/utility/LambdaCommand.kt:34-35 | a blank name, or "LambdaCommand" itself, gives way to the class's simple name |
| LambdaCommands.LambdaCommand.constructor | main/dev/nextftc/core/commands/utility/LambdaCommand.kt:32-44 | a fresh command is done immediately, its hooks do nothing, and it is named by `ResolvedName` |
| LambdaCommands.LambdaCommand.IsDone | main/dev/nextftc/core/commands/utility/LambdaCommand.kt:46 | `isDone` is the answer of the current done hook |
| LambdaCommands.LambdaCommand.Start | main/dev/nextftc/core/commands/utility/LambdaCommand.kt:47 | `start` runs the current start hook |
| LambdaCommands.LambdaCommand.Update | main/dev/nextftc/core/commands/utility/LambdaCommand.kt:48 | `update` runs the current update hook |
| LambdaCommands.LambdaCommand.Stop | main/dev/nextftc/core/commands/utility/LambdaCommand.kt:49 | `stop` runs the current stop hook with the `interrupted` flag |
| LambdaCommands.LambdaCommand.SetStart | main/dev/nextftc/core/commands/utility/LambdaCommand.kt:54 | replaces only the start hook |
| LambdaCommands.LambdaCommand.SetUpdate | main/dev/nextftc/core/commands/utility/LambdaCommand.kt:59 | replaces only the update hook |
| LambdaCommands.LambdaCommand.SetStop | main/dev/nextftc/core/commands/utility/LambdaCommand.kt:65 | replaces only the stop hook |
| LambdaCommands.LambdaCommand.SetIsDone | main/dev/nextftc/core/commands/utility/LambdaCommand.kt:88 | replaces only the done hook |
| LambdaCommands.LambdaCommand.Requires | main/dev/nextftc/core/commands/utility/LambdaCommand.kt:70-71 | as written: adds one requirement, a fresh array holding the arguments, and not the arguments themselves |
| LambdaCommands.LambdaCommand.RequiresEach | main/dev/nextftc/core/commands/utility/LambdaCommand.kt:67-71 | as documented: adds each argument to the requirements |
| LambdaCommands.LambdaCommand.SetRequirements | main/dev/nextftc/core/commands/utility/LambdaCommand.kt:82-83 | the requirements become exactly the spread arguments |
| LambdaCommands.LambdaCommand.SetRequirementSet | main/dev/nextftc/core/commands/utility/LambdaCommand.kt:76-77 | the requirements become exactly the given set |
| LambdaCommands.LambdaCommand.SetInterruptible | main/dev/nextftc/core/commands/utility/LambdaCommand.kt:93-94 | sets the flag and leaves the rest |
| LambdaCommands.LambdaCommand.Named | main/dev/nextftc/core/commands/utility/LambdaCommand.kt:100-101 | sets the name and leaves the rest |
| LambdaCommands.LambdaCommand.SetName | main/dev/nextftc/core/commands/utility/LambdaCommand.kt:106 | the same effect as `named` |
| Subsystems.Subsystem.Subsystems | main/dev/nextftc/core/subsystems/Subsystem.kt:44-45 | by default, a subsystem's set of subsystems is exactly itself |
| Subsystems.Subsystem.DefaultCommand | main/dev/nextftc/core/subsystems/Subsystem.kt:30-31 | by default, a fresh null command on every access |
| Subsystems.Subsystem.Initialize | main/dev/nextftc/core/subsystems/Subsystem.kt:37 | by default, `initialize` changes nothing |
| Subsystems.Subsystem.Periodic | main/dev/nextftc/core/subsystems/Subsystem.kt:42 | by default, `periodic` changes nothing |
| Positionables.Assigned | main/dev/nextftc/hardware/positionable/SetPositions.kt:31 | a positionable is assigned a value exactly when some pair names it |
| Positionables.AssignedIsLastPair | main/dev/nextftc/hardware/positionable/SetPositions.kt:31 | the value assigned is that of the last pair naming the positionable: applying the pairs in order, the later write wins |
| Positionables.AssignedSnoc | main/dev/nextftc/hardware/positionable/SetPositions.kt:31 | applying one more pair writes its positionable and leaves the values of all others |
| Positionables.LaterPairWins | main/dev/nextftc/hardware/positionable/SetPositions.kt:31 | a positionable listed twice ends at its later value; the others keep their own |
| Positionables.SetPositions.constructor | main/dev/nextftc/hardware/positionable/SetPositions.kt:30-32 | the command keeps the pairs and claims no requirements |
| Positionables.SetPositions.Run | main/dev/nextftc/hardware/positionable/SetPositions.kt:31 | every listed positionable ends at its `Assigned` value; only listed positionables are written |
| Positionables.SetPosition | main/dev/nextftc/hardware/positionable/SetPositions.kt:34 | a `SetPositions` with the single pair given |
| OpaqueCommands.NullCommand.constructor | main/dev/nextftc/core/subsystems/Subsystem.kt:31 | a fresh null command |
| OpaqueCommands.ParallelRaceGroup.constructor | main/dev/nextftc/core/commands/Command.kt:218-221 | the children are the arguments, in order |
| OpaqueCommands.ParallelDeadlineGroup.constructor | main/dev/nextftc/core/commands/Command.kt:266-278 | keeps the deadline and the other commands |
| OpaqueCommands.PerpetualCommand.constructor | main/dev/nextftc/core/commands/Command.kt:226 | wraps the given command |
| OpaqueCommands.ForcedParallelCommand.constructor | main/dev/nextftc/core/commands/Command.kt:283 | wraps the given command |
| Composition.EndAfter | main/dev/nextftc/core/commands/Command.kt:183-186 | a race of the receiver against a fresh, unstarted delay of `time`, in that order |
| Composition.Then | main/dev/nextftc/core/commands/Command.kt:200-203 | a fresh sequential group: the receiver, then the commands |
| Composition.And | main/dev/nextftc/core/commands/Command.kt:209-212 | a parallel group of the receiver and the commands, refused when two of them share a requirement |
| Composition.RaceWith | main/dev/nextftc/core/commands/Command.kt:218-221 | a race group of the receiver and the commands |
| Composition.Perpetually | main/dev/nextftc/core/commands/Command.kt:226 | wraps the receiver in a fresh `PerpetualCommand` |
| Composition.AfterTime | main/dev/nextftc/core/commands/Command.kt:232-235 | a sequence: a fresh delay of `time`, then the receiver |
| Composition.ThenWait | main/dev/nextftc/core/commands/Command.kt:249-252 | a sequence: the receiver, then a fresh delay of `time` |
| Composition.WithDeadline | main/dev/nextftc/core/commands/Command.kt:266-269 | `deadline` bounds the receiver |
| Composition.AsDeadline | main/dev/nextftc/core/commands/Command.kt:275-278 | the receiver bounds the commands |
| Composition.ForcedParallel | main/dev/nextftc/core/commands/Command.kt:283 | wraps the receiver as a forced-parallel command |
| Composition.ThenWaitRunsReceiverFirst | main/dev/nextftc/core/commands/Command.kt:249-252 | once the receiver reports done, `thenWait`'s sequence stops it and opens only the delay |

## Left out

- `schedule`, `cancel`, `invoke` and `run`: these hand the command to
  `CommandManager`, which is not part of this model. So are the scheduler's
  requirement-based interruption and the `interruptible` flag's effect.
- `toString`, and the names the groups and `Delay` give themselves
  (`"SequentialGroup(a, b)"`, `"Delay(0.3s)"`). The model uses the class
  name instead; names matter only for telemetry. The same goes for the name
  `SetPosition` gives itself as a subclass.
- The `Double` and `String` overloads of `endAfter`, `afterTime`,
  `thenWait` and `Delay`. They only convert the argument to a `Duration`;
  durations here are naturals in a single unit.
- `CommandGroup` is not part of this model:
  - its `children` is taken to be a mutable list of the constructor's
    arguments, in order;
  - its `stop` is taken to change nothing that is modelled, so a group's
    `Stop` leaves `children` unchanged;
  - the requirements a group derives from its children are not modelled.
- `ParallelRaceGroup`, `ParallelDeadlineGroup`, `PerpetualCommand`,
  `ForcedParallelCommand`, `NullCommand` and `InstantCommand` are not part
  of this model. The first five are modelled only by what their constructors
  receive. `SetPositions` is taken to claim no requirements and to run its
  action once, on start.
- The side effects of the `LambdaCommand` start, update and stop hooks,
  and of the `Subsystem` hooks, are modelled as functions on a world value
  the caller passes in. Effects on hardware and the timing of those effects
  are not modelled.
- LambdaCommands.LambdaCommand.IsDone: the done hook is a pure `W -> bool`,
  so any side effect of the `Supplier` behind `isDone` is not modelled.
- Commands.Command.SetRequirementSet: sets are values here, so the call
  `c.setRequirements(c.requirements)` is not captured. In the library the
  argument is then the live set itself: `clear()` empties it before
  `addAll`, and the requirements end up empty. The model keeps them.
- LambdaCommands.LambdaCommand.SetRequirementSet: forwards to
  `Command.setRequirements(Set)`, so the same self-aliased call is not
  captured either.
- `Delay`'s clock is a natural-number reading passed in by the caller, not
  `TimeSource.Monotonic`. Durations are truncated to whole clock units.
- `Positionable` is a plain field `position: real`. How `ServoEx` and
  servo groups forward and cache positions (`ServoEx.kt`) is not modelled.
  `real` stands for `Double`, without floating-point rounding.
- The robot application under `TeamCode` is cited only as a fixture for
  `PushOnceNeedsFourUpdates`.
- Virtual dispatch of the three overridden base methods: `requires`
  (overridden at `LambdaCommand.kt:70-71`), `then` (`SequentialGroup.kt:64-65`)
  and `and` (`ParallelGroup.kt:70-71`). Each override is a member of its own
  class (`LambdaCommand.Requires`, `SequentialGroup.Then`, `ParallelGroup.And`).
  Calling `Commands.Command.Requires`, `Composition.Then` or `Composition.And`
  on such a command's `base` runs the base behaviour, which Kotlin never runs
  for those classes: on a `LambdaCommand` the base `Requires` adds the
  arguments themselves, and on a `SequentialGroup` `g` the base `then` gives
  `[g, c]` where Kotlin gives `g`'s remaining children followed by `c`.
  Callers of the model must pick the subclass member.
- The default no-op `start`, `update` and `stop` of the base `Command`
  are not given members of their own. `LambdaCommand`'s fresh hooks are the
  same no-ops.

## Findings

| source | as written | input that shows it | evidently intended | confidence | as-written member | corrected member |
|---|---|---|---|---|---|---|
| main/dev/nextftc/core/commands/utility/LambdaCommand.kt:70-71 | `super.requires(requirements)` passes the vararg array without the spread operator, so the only requirement added is the array object itself | two lambda commands that each call `requires(arm)` on one shared `arm` (as `TeamCode/src/main/java/org/firstinspires/ftc/teamcode/subsystems/flywheel.java:39` does with `requires(this)`): neither holds `arm`, and `ParallelGroup` accepts them side by side (`RequirementFindings.SharedResourceNotDetected`) | `super.requires(*requirements)`, which adds each argument, as the doc comment and `setRequirements` at line 83 do; the shared `arm` is then a conflict (`RequirementFindings.SharedResourceDetected`) | high, not executed | LambdaCommands.LambdaCommand.Requires | LambdaCommands.LambdaCommand.RequiresEach |
