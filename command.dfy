/**
 * The `Command` base class: the configuration state every command carries
 * (requirements, interruptible flag, name) and its fluent setters, together
 * with the vocabulary used to describe what a command group does to its
 * children (lifecycle calls and the traces they form).
 */
module Commands {
  import opened Wrappers

  /**
   * An opaque requirement identity. Requirements are arbitrary objects in the
   * source, most often subsystems; `Resource` stands for any such object (a
   * subsystem included), and `VarargArray` for a
   * vararg array passed on as a single object (see `LambdaCommand.Requires`).
   * An array is an object with identity: two arrays holding the same
   * elements are two different requirements.
   */
  datatype Requirement = Resource(id: nat) | VarargArray(arr: array<Requirement>)

  /** The set of the vararg arguments, duplicates collapsed (`addAll`). */
  function Elements(args: seq<Requirement>): set<Requirement>
  {
    set r | r in args
  }

  /** The configuration state of one command object. */
  class Command {
    var interruptible: bool
    var requirements: set<Requirement>
    var name: string

    /**
     * A fresh command: interruptible, no requirements, and named after the
     * simple name of its runtime class ("Command" when that class has none).
     */
    constructor (simpleName: Option<string>)
      ensures interruptible && requirements == {}
      ensures name == simpleName.GetOr("Command")
    {
      interruptible := true;
      requirements := {};
      name := simpleName.GetOr("Command");
    }

    /** `requires(vararg)`: adds each argument to the requirements. */
    method Requires(args: seq<Requirement>) returns (self: Command)
      modifies this
      ensures self == this
      ensures requirements == old(requirements) + Elements(args)
      ensures interruptible == old(interruptible) && name == old(name)
    {
      requirements := requirements + Elements(args);
      self := this;
    }

    /** `setRequirements(vararg)`: discards the old requirements for the arguments. */
    method SetRequirements(args: seq<Requirement>) returns (self: Command)
      modifies this
      ensures self == this
      ensures requirements == Elements(args)
      ensures interruptible == old(interruptible) && name == old(name)
    {
      requirements := {};
      requirements := requirements + Elements(args);
      self := this;
    }

    /** `setRequirements(Set)`: discards the old requirements for the given set. */
    method SetRequirementSet(reqs: set<Requirement>) returns (self: Command)
      modifies this
      ensures self == this
      ensures requirements == reqs
      ensures interruptible == old(interruptible) && name == old(name)
    {
      requirements := {};
      requirements := requirements + reqs;
      self := this;
    }

    /** `addRequirements(vararg)`: the same union as `requires`. */
    method AddRequirements(args: seq<Requirement>) returns (self: Command)
      modifies this
      ensures self == this
      ensures requirements == old(requirements) + Elements(args)
      ensures interruptible == old(interruptible) && name == old(name)
    {
      requirements := requirements + Elements(args);
      self := this;
    }

    /** `addRequirements(Set)`: adds every member of the set. */
    method AddRequirementSet(reqs: set<Requirement>) returns (self: Command)
      modifies this
      ensures self == this
      ensures requirements == old(requirements) + reqs
      ensures interruptible == old(interruptible) && name == old(name)
    {
      requirements := requirements + reqs;
      self := this;
    }

    method SetInterruptible(interruptible: bool) returns (self: Command)
      modifies this
      ensures self == this
      ensures this.interruptible == interruptible
      ensures requirements == old(requirements) && name == old(name)
    {
      this.interruptible := interruptible;
      self := this;
    }

    method Named(name: string) returns (self: Command)
      modifies this
      ensures self == this
      ensures this.name == name
      ensures requirements == old(requirements) && interruptible == old(interruptible)
    {
      this.name := name;
      self := this;
    }

    /** `setName` is `named` under another name. */
    method SetName(name: string) returns (self: Command)
      modifies this
      ensures self == this
      ensures this.name == name
      ensures requirements == old(requirements) && interruptible == old(interruptible)
    {
      self := Named(name);
    }
  }

  /** The requirement set of each command of `cs`, in order. */
  function RequirementSets(cs: seq<Command>): (r: seq<set<Requirement>>)
    reads set c | c in cs
    ensures |r| == |cs|
    ensures forall i :: 0 <= i < |cs| ==> r[i] == cs[i].requirements
  {
    if cs == [] then [] else [cs[0].requirements] + RequirementSets(cs[1..])
  }

  /** One lifecycle call a group makes on one of its children. */
  datatype Call = Start(target: Command) | Update(target: Command) | Stop(target: Command, interrupted: bool)

  /** The children started and not stopped since, after `calls` on top of `open`. */
  function After(open: set<Command>, calls: seq<Call>): set<Command>
    decreases |calls|
  {
    if calls == [] then open
    else
      var next := match calls[0]
        case Start(c) => open + {c}
        case Update(_) => open
        case Stop(c, _) => open - {c};
      After(next, calls[1..])
  }

  lemma {:induction false} AfterAppend(open: set<Command>, a: seq<Call>, b: seq<Call>)
    ensures After(open, a + b) == After(After(open, a), b)
    decreases |a|
  {
    if a == [] {
      assert a + b == b;
    } else {
      assert (a + b)[0] == a[0];
      assert (a + b)[1..] == a[1..] + b;
      var next := match a[0]
        case Start(c) => open + {c}
        case Update(_) => open
        case Stop(c, _) => open - {c};
      AfterAppend(next, a[1..], b);
    }
  }

  /** The targets of the `Update` calls of a trace, in order. */
  function Updated(calls: seq<Call>): seq<Command>
    decreases |calls|
  {
    if calls == [] then []
    else (if calls[0].Update? then [calls[0].target] else []) + Updated(calls[1..])
  }

  /** The `Stop` calls of a trace, in order, as (target, interrupted) pairs. */
  function Stopped(calls: seq<Call>): seq<(Command, bool)>
    decreases |calls|
  {
    if calls == [] then []
    else (if calls[0].Stop? then [(calls[0].target, calls[0].interrupted)] else []) + Stopped(calls[1..])
  }

  lemma {:induction false} UpdatedAppend(a: seq<Call>, b: seq<Call>)
    ensures Updated(a + b) == Updated(a) + Updated(b)
    decreases |a|
  {
    if a == [] {
      assert a + b == b;
    } else {
      assert (a + b)[0] == a[0];
      assert (a + b)[1..] == a[1..] + b;
      UpdatedAppend(a[1..], b);
    }
  }

  lemma {:induction false} StoppedAppend(a: seq<Call>, b: seq<Call>)
    ensures Stopped(a + b) == Stopped(a) + Stopped(b)
    decreases |a|
  {
    if a == [] {
      assert a + b == b;
    } else {
      assert (a + b)[0] == a[0];
      assert (a + b)[1..] == a[1..] + b;
      StoppedAppend(a[1..], b);
    }
  }

  /** `cs` with each command paired with the same `interrupted` flag. */
  function WithFlag(cs: seq<Command>, interrupted: bool): (r: seq<(Command, bool)>)
    ensures |r| == |cs|
    ensures forall i :: 0 <= i < |cs| ==> r[i] == (cs[i], interrupted)
  {
    if cs == [] then [] else [(cs[0], interrupted)] + WithFlag(cs[1..], interrupted)
  }
}
