/**
 * The composition utilities of `Command`: each builds a group or wrapper
 * around the receiver. `self` is the receiver's `Command` state; a
 * `SequentialGroup` receiver's own `then` is `SequentialGroup.Then`, and a
 * `ParallelGroup` receiver's own `and` is `ParallelGroup.And`.
 */
module Composition {
  import opened Wrappers
  import opened Commands
  import opened SequentialGroups
  import opened ParallelGroups
  import opened Delays
  import opened OpaqueCommands

  /** `endAfter(time)`: a race group of the receiver and a fresh delay of `time`. */
  method EndAfter(self: Command, time: nat) returns (g: ParallelRaceGroup, ghost delay: Delay)
    ensures fresh(g) && fresh(delay) && fresh(delay.base)
    ensures delay.time == time && delay.startTime == None
    ensures g.children == [self, delay.base]
  {
    var d := new Delay(time);
    g := new ParallelRaceGroup([self, d.base]);
    delay := d;
  }

  /** `then(commands)`: the receiver followed by the commands, in order. */
  method Then(self: Command, commands: seq<Command>) returns (g: SequentialGroup)
    ensures fresh(g) && fresh(g.base)
    ensures g.children == [self] + commands && g.calls == []
  {
    g := new SequentialGroup([self] + commands);
  }

  /**
   * `and(commands)`: the receiver alongside the commands; refused when two
   * of them share a requirement.
   */
  method And(self: Command, commands: seq<Command>) returns (r: Result<ParallelGroup, Error>)
    ensures r.Failure? <==> !PairwiseDisjoint(RequirementSets([self] + commands))
    ensures r.Failure? ==> r.error == IllegalState(ConflictMessage)
    ensures r.Success? ==> fresh(r.value) && r.value.children == [self] + commands && r.value.calls == []
  {
    r := ParallelGroup.New([self] + commands);
  }

  /** `raceWith(commands)`: a race group of the receiver and the commands. */
  method RaceWith(self: Command, commands: seq<Command>) returns (g: ParallelRaceGroup)
    ensures fresh(g) && g.children == [self] + commands
  {
    g := new ParallelRaceGroup([self] + commands);
  }

  /** `perpetually()`: a `PerpetualCommand` wrapping the receiver. */
  method Perpetually(self: Command) returns (p: PerpetualCommand)
    ensures fresh(p) && p.command == self
  {
    p := new PerpetualCommand(self);
  }

  /** `afterTime(time)`: a fresh delay of `time`, then the receiver. */
  method AfterTime(self: Command, time: nat) returns (g: SequentialGroup, ghost delay: Delay)
    ensures fresh(g) && fresh(delay) && fresh(delay.base)
    ensures delay.time == time && delay.startTime == None
    ensures g.children == [delay.base, self] && g.calls == []
  {
    var d := new Delay(time);
    g := new SequentialGroup([d.base, self]);
    delay := d;
  }

  /** `thenWait(time)`: the receiver, then a fresh delay of `time`. */
  method ThenWait(self: Command, time: nat) returns (g: SequentialGroup, ghost delay: Delay)
    ensures fresh(g) && fresh(delay) && fresh(delay.base)
    ensures delay.time == time && delay.startTime == None
    ensures g.children == [self, delay.base] && g.calls == []
  {
    var d := new Delay(time);
    g := new SequentialGroup([self, d.base]);
    delay := d;
  }

  /** `withDeadline(deadline)`: a deadline group with `deadline` as its deadline and the receiver as the other command. */
  method WithDeadline(self: Command, deadline: Command) returns (g: ParallelDeadlineGroup)
    ensures fresh(g) && g.deadline == deadline && g.others == [self]
  {
    g := new ParallelDeadlineGroup(deadline, [self]);
  }

  /** `asDeadline(commands)`: a deadline group with the receiver as its deadline and the commands as the others. */
  method AsDeadline(self: Command, commands: seq<Command>) returns (g: ParallelDeadlineGroup)
    ensures fresh(g) && g.deadline == self && g.others == commands
  {
    g := new ParallelDeadlineGroup(self, commands);
  }

  /** `forcedParallel()`: a `ForcedParallelCommand` wrapping the receiver. */
  method ForcedParallel(self: Command) returns (f: ForcedParallelCommand)
    ensures fresh(f) && f.command == self
  {
    f := new ForcedParallelCommand(self);
  }

  /**
   * `thenWait` makes the receiver run to completion before the delay starts:
   * after the receiver reports done, the delay is the only open child.
   */
  lemma ThenWaitRunsReceiverFirst(self: Command, delayBase: Command, finished: set<Command>)
    requires self != delayBase && self in finished
    ensures StepChildren([self, delayBase], finished) == [delayBase]
    ensures After({self}, StepCalls([self, delayBase], finished)) == {delayBase}
  {
    var calls := StepCalls([self, delayBase], finished);
    assert calls == [Call.Update(self), Call.Stop(self, false), Call.Start(delayBase)];
    assert After({self}, calls) == After({self}, calls[1..]);
    assert calls[1..][0] == Call.Stop(self, false) && calls[1..][1..] == calls[2..];
    assert {self} - {self} == {};
    assert After({self}, calls[1..]) == After({}, calls[2..]);
    assert After({}, calls[2..]) == After({delayBase}, calls[3..]);
  }
}
