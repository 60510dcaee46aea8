/**
 * `LambdaCommand`: a command whose lifecycle hooks are values set through
 * fluent setters instead of overrides. The hooks' side effects are modelled
 * as functions on a world `W` that the caller threads through.
 */
module LambdaCommands {
  import opened Wrappers
  import opened Commands

  /** Kotlin's `Char.isWhitespace`: Java whitespace or a Unicode space separator. */
  predicate IsWhitespace(c: char)
  {
    ('\t' <= c <= '\r') || ('\U{001C}' <= c <= '\U{001F}') || c == ' ' || c == '\U{00A0}' ||
    c == '\U{1680}' || ('\U{2000}' <= c <= '\U{200A}') || c == '\U{2028}' || c == '\U{2029}' ||
    c == '\U{202F}' || c == '\U{205F}' || c == '\U{3000}'
  }

  /** `String.isBlank`: empty or whitespace only. */
  predicate IsBlank(s: string)
  {
    forall i :: 0 <= i < |s| ==> IsWhitespace(s[i])
  }

  /**
   * The name a new `LambdaCommand` takes: the given name, unless it is blank
   * or the default "LambdaCommand", in which case the simple name of the
   * runtime class (falling back to "LambdaCommand" when there is none).
   * The result is blank only when the runtime class's own name is.
   */
  function ResolvedName(given: string, simpleName: Option<string>): (name: string)
    ensures IsBlank(name) ==> simpleName.Some? && name == simpleName.value
    ensures name == given || name == simpleName.GetOr("LambdaCommand")
  {
    if IsBlank(given) || given == "LambdaCommand" then
      assert !IsWhitespace("LambdaCommand"[0]);
      simpleName.GetOr("LambdaCommand")
    else given
  }

  /** A given name that is neither blank nor the default is kept as it is. */
  lemma ExplicitNameKept(given: string, simpleName: Option<string>)
    requires !IsBlank(given) && given != "LambdaCommand"
    ensures ResolvedName(given, simpleName) == given
  {
  }

  /** A blank name, or the default, gives way to the class's simple name. */
  lemma DefaultNameReplaced(given: string, simpleName: Option<string>)
    requires IsBlank(given) || given == "LambdaCommand"
    ensures ResolvedName(given, simpleName) == simpleName.GetOr("LambdaCommand")
  {
  }

  class LambdaCommand<W> {
    const base: Command
    var isDoneHook: W -> bool
    var startHook: W -> W
    var updateHook: W -> W
    var stopHook: (W, bool) -> W

    /**
     * A fresh lambda command is done at once, its other hooks do nothing,
     * and it is named by `ResolvedName`.
     */
    constructor (name: string, simpleName: Option<string>)
      ensures fresh(base) && base.requirements == {} && base.interruptible
      ensures base.name == ResolvedName(name, simpleName)
      ensures forall w :: isDoneHook(w) && startHook(w) == w && updateHook(w) == w
      ensures forall w, interrupted :: stopHook(w, interrupted) == w
    {
      var b := new Command(simpleName);
      if IsBlank(name) || name == "LambdaCommand" {
        b := b.Named(simpleName.GetOr("LambdaCommand"));
      } else {
        b := b.Named(name);
      }
      base := b;
      isDoneHook := (w: W) => true;
      startHook := (w: W) => w;
      updateHook := (w: W) => w;
      stopHook := (w: W, interrupted: bool) => w;
    }

    /** `isDone` asks the current done hook. */
    function IsDone(world: W): (done: bool)
      reads this
      ensures done <==> isDoneHook(world)
    {
      isDoneHook(world)
    }

    method Start(world: W) returns (world': W)
      ensures world' == startHook(world)
    {
      world' := startHook(world);
    }

    method Update(world: W) returns (world': W)
      ensures world' == updateHook(world)
    {
      world' := updateHook(world);
    }

    method Stop(world: W, interrupted: bool) returns (world': W)
      ensures world' == stopHook(world, interrupted)
    {
      world' := stopHook(world, interrupted);
    }

    method SetStart(start: W -> W) returns (self: LambdaCommand<W>)
      modifies this
      ensures self == this && startHook == start
      ensures isDoneHook == old(isDoneHook) && updateHook == old(updateHook) && stopHook == old(stopHook)
    {
      startHook := start;
      self := this;
    }

    method SetUpdate(update: W -> W) returns (self: LambdaCommand<W>)
      modifies this
      ensures self == this && updateHook == update
      ensures isDoneHook == old(isDoneHook) && startHook == old(startHook) && stopHook == old(stopHook)
    {
      updateHook := update;
      self := this;
    }

    method SetStop(stop: (W, bool) -> W) returns (self: LambdaCommand<W>)
      modifies this
      ensures self == this && stopHook == stop
      ensures isDoneHook == old(isDoneHook) && startHook == old(startHook) && updateHook == old(updateHook)
    {
      stopHook := stop;
      self := this;
    }

    method SetIsDone(done: W -> bool) returns (self: LambdaCommand<W>)
      modifies this
      ensures self == this && isDoneHook == done
      ensures startHook == old(startHook) && updateHook == old(updateHook) && stopHook == old(stopHook)
    {
      isDoneHook := done;
      self := this;
    }

    /**
     * `requires(vararg)` as written: the vararg array is handed on without
     * the spread operator, so the one requirement added is a fresh array
     * holding the arguments, not the arguments themselves.
     */
    method Requires(args: seq<Requirement>) returns (self: LambdaCommand<W>, ghost passed: array<Requirement>)
      modifies base
      ensures self == this
      ensures fresh(passed) && passed[..] == args
      ensures base.requirements == old(base.requirements) + {VarargArray(passed)}
      ensures base.interruptible == old(base.interruptible) && base.name == old(base.name)
    {
      var a := new Requirement[|args|](i requires 0 <= i < |args| => args[i]);
      var _ := base.Requires([VarargArray(a)]);
      passed := a;
      self := this;
    }

    /** `requires(vararg)` as intended: each argument becomes a requirement. */
    method RequiresEach(args: seq<Requirement>) returns (self: LambdaCommand<W>)
      modifies base
      ensures self == this
      ensures base.requirements == old(base.requirements) + Elements(args)
      ensures base.interruptible == old(base.interruptible) && base.name == old(base.name)
    {
      var _ := base.Requires(args);
      self := this;
    }

    method SetRequirements(args: seq<Requirement>) returns (self: LambdaCommand<W>)
      modifies base
      ensures self == this
      ensures base.requirements == Elements(args)
      ensures base.interruptible == old(base.interruptible) && base.name == old(base.name)
    {
      var _ := base.SetRequirements(args);
      self := this;
    }

    method SetRequirementSet(reqs: set<Requirement>) returns (self: LambdaCommand<W>)
      modifies base
      ensures self == this
      ensures base.requirements == reqs
      ensures base.interruptible == old(base.interruptible) && base.name == old(base.name)
    {
      var _ := base.SetRequirementSet(reqs);
      self := this;
    }

    method SetInterruptible(interruptible: bool) returns (self: LambdaCommand<W>)
      modifies base
      ensures self == this
      ensures base.interruptible == interruptible
      ensures base.requirements == old(base.requirements) && base.name == old(base.name)
    {
      var _ := base.SetInterruptible(interruptible);
      self := this;
    }

    method Named(name: string) returns (self: LambdaCommand<W>)
      modifies base
      ensures self == this
      ensures base.name == name
      ensures base.requirements == old(base.requirements) && base.interruptible == old(base.interruptible)
    {
      var _ := base.Named(name);
      self := this;
    }

    method SetName(name: string) returns (self: LambdaCommand<W>)
      modifies base
      ensures self == this
      ensures base.name == name
      ensures base.requirements == old(base.requirements) && base.interruptible == old(base.interruptible)
    {
      self := Named(name);
    }
  }
}
