/**
 * `SequentialGroup`: a queue of children of which only the head runs; the
 * head is popped and stopped when it reports done, and the next one started.
 *
 * What the group does to its children is recorded in the ghost trace
 * `calls`; the answer a child gives when its `isDone` is polled during an
 * update is the oracle `finished` (the children that report done this tick).
 */
module SequentialGroups {
  import opened Wrappers
  import opened Commands

  /** The children left after one `update` whose head was polled against `finished`. */
  function StepChildren(children: seq<Command>, finished: set<Command>): seq<Command>
    requires children != []
  {
    if children[0] in finished then children[1..] else children
  }

  /** The calls one `update` makes: update the head; if it is done, stop it and start the next. */
  function StepCalls(children: seq<Command>, finished: set<Command>): seq<Call>
    requires children != []
  {
    [Update(children[0])] +
    if children[0] !in finished then []
    else [Stop(children[0], false)] + (if |children| > 1 then [Start(children[1])] else [])
  }

  /**
   * The children left after one `update` per tick of `ticks`, updating only
   * while the group is not done (the caller retires a done command).
   */
  function RunChildren(children: seq<Command>, ticks: seq<set<Command>>): seq<Command>
    decreases |ticks|
  {
    if ticks == [] || children == [] then children
    else RunChildren(StepChildren(children, ticks[0]), ticks[1..])
  }

  /** The calls made by the updates of `RunChildren(children, ticks)`. */
  function RunCalls(children: seq<Command>, ticks: seq<set<Command>>): seq<Call>
    decreases |ticks|
  {
    if ticks == [] || children == [] then []
    else StepCalls(children, ticks[0]) + RunCalls(StepChildren(children, ticks[0]), ticks[1..])
  }

  /** The running child, as a set: the head, or nothing once the queue is empty. */
  function Head(children: seq<Command>): (r: set<Command>)
    ensures |r| <= 1
  {
    if children == [] then {} else {children[0]}
  }

  /**
   * One update removes at most one child per tick and the remaining children
   * are always a suffix of the original queue, in their original order.
   */
  lemma {:induction false} RunKeepsSuffix(children: seq<Command>, ticks: seq<set<Command>>)
    ensures var rest := RunChildren(children, ticks);
      && |rest| <= |children|
      && |rest| + |ticks| >= |children|
      && rest == children[|children| - |rest|..]
    decreases |ticks|
  {
    if ticks != [] && children != [] {
      var next := StepChildren(children, ticks[0]);
      RunKeepsSuffix(next, ticks[1..]);
      var rest := RunChildren(next, ticks[1..]);
      if children[0] in ticks[0] {
        assert next == children[1..];
        assert children[1..][|next| - |rest|..] == children[|children| - |rest|..];
      }
    }
  }

  /** The only stop one `update` makes is the completed head's, with `false`. */
  lemma StepStopped(children: seq<Command>, finished: set<Command>)
    requires children != []
    ensures Stopped(StepCalls(children, finished))
         == if children[0] in finished then [(children[0], false)] else []
  {
    var step := StepCalls(children, finished);
    if children[0] in finished {
      assert step == [Update(children[0]), Stop(children[0], false)] + (if |children| > 1 then [Start(children[1])] else []);
      assert Stopped(step[2..]) == [];
      assert step[1..][1..] == step[2..];
    } else {
      assert step == [Update(children[0])];
    }
  }

  /** Popping the head shortens the removed prefix by exactly that head. */
  lemma PrefixAfterPop(children: seq<Command>, left: nat)
    requires left < |children|
    ensures children[..|children| - left] == [children[0]] + children[1..][..|children[1..]| - left]
  {
  }

  /**
   * The stops of a run are exactly the completed children, in queue order,
   * each once and each with `interrupted = false`.
   */
  lemma {:induction false} RunStopsCompletedInOrder(children: seq<Command>, ticks: seq<set<Command>>)
    ensures var rest := RunChildren(children, ticks);
      |rest| <= |children| &&
      Stopped(RunCalls(children, ticks)) == WithFlag(children[..|children| - |rest|], false)
    decreases |ticks|
  {
    RunKeepsSuffix(children, ticks);
    if ticks != [] && children != [] {
      var next := StepChildren(children, ticks[0]);
      var step := StepCalls(children, ticks[0]);
      RunStopsCompletedInOrder(next, ticks[1..]);
      RunKeepsSuffix(next, ticks[1..]);
      StoppedAppend(step, RunCalls(next, ticks[1..]));
      var rest := RunChildren(children, ticks);
      assert rest == RunChildren(next, ticks[1..]);
      StepStopped(children, ticks[0]);
      if children[0] in ticks[0] {
        PrefixAfterPop(children, |rest|);
      } else {
        assert next == children;
      }
    }
  }

  /** A sequential group is done after a run iff every child was stopped as completed. */
  lemma RunDoneIffAllCompleted(children: seq<Command>, ticks: seq<set<Command>>)
    ensures RunChildren(children, ticks) == [] <==>
            Stopped(RunCalls(children, ticks)) == WithFlag(children, false)
  {
    RunStopsCompletedInOrder(children, ticks);
    var rest := RunChildren(children, ticks);
    if Stopped(RunCalls(children, ticks)) == WithFlag(children, false) {
      assert |WithFlag(children[..|children| - |rest|], false)| == |WithFlag(children, false)|;
    } else {
      assert children[..|children| - |rest|] != children;
    }
  }

  /**
   * Sequential exclusivity: started from `start` (which starts the head),
   * at most one child is started-but-not-stopped at any point of a run, and
   * it is the current head.
   */
  lemma {:induction false} RunExclusive(children: seq<Command>, ticks: seq<set<Command>>)
    ensures After(Head(children), RunCalls(children, ticks)) == Head(RunChildren(children, ticks))
    decreases |ticks|
  {
    if ticks != [] && children != [] {
      var next := StepChildren(children, ticks[0]);
      var step := StepCalls(children, ticks[0]);
      AfterAppend(Head(children), step, RunCalls(next, ticks[1..]));
      RunExclusive(next, ticks[1..]);
      if children[0] in ticks[0] {
        if |children| > 1 {
          assert step == [Update(children[0]), Stop(children[0], false), Start(children[1])];
          assert After(Head(children), step) == After({children[0]}, step[1..]);
          assert step[1..][1..] == [Start(children[1])];
          assert After({children[0]}, step[1..]) == After({}, [Start(children[1])]);
          assert After({}, [Start(children[1])]) == After({children[1]}, []);
        } else {
          assert step == [Update(children[0]), Stop(children[0], false)];
          assert After(Head(children), step) == After({children[0]}, step[1..]);
          assert step[1..][1..] == [];
          assert After(Head(children), step) == {};
        }
      } else {
        assert step == [Update(children[0])];
        assert After(Head(children), step) == Head(children);
      }
    }
  }

  /** The group as started: `start` opens exactly the head. */
  lemma StartedRunExclusive(children: seq<Command>, ticks: seq<set<Command>>)
    requires children != []
    ensures After({}, [Start(children[0])] + RunCalls(children, ticks)) == Head(RunChildren(children, ticks))
  {
    AfterAppend({}, [Start(children[0])], RunCalls(children, ticks));
    assert After({}, [Start(children[0])]) == After({children[0]}, []) == Head(children);
    RunExclusive(children, ticks);
  }

  /**
   * A four-child sequence such as `Pushers.pushOnce` (extend, hold, retract,
   * hold) cannot finish in fewer than four updates.
   */
  lemma PushOnceNeedsFourUpdates(extend: Command, hold: Command, retract: Command, wait: Command,
                                 ticks: seq<set<Command>>)
    requires |ticks| < 4
    ensures RunChildren([extend, hold, retract, wait], ticks) != []
  {
    RunKeepsSuffix([extend, hold, retract, wait], ticks);
  }

  class SequentialGroup {
    const base: Command
    var children: seq<Command>
    ghost var calls: seq<Call>

    /** The children are the constructor arguments, in order; nothing has been called yet. */
    constructor (commands: seq<Command>)
      ensures fresh(base)
      ensures children == commands && calls == []
    {
      base := new Command(Some("SequentialGroup"));
      children := commands;
      calls := [];
    }

    /** Done once no children remain, that is, once no child is left to run. */
    predicate IsDone(): (done: bool)
      reads this
      ensures done <==> Head(children) == {}
    {
      children == []
    }

    /** Starts the first child only; `first()` fails on an empty group. */
    method Start() returns (outcome: Outcome<Error>)
      modifies this`calls
      ensures children == [] ==> outcome == Fail(NoSuchElement) && calls == old(calls)
      ensures children != [] ==> outcome == Pass && calls == old(calls) + [Call.Start(children[0])]
    {
      if children == [] {
        return Fail(NoSuchElement);
      }
      calls := calls + [Call.Start(children[0])];
      return Pass;
    }

    /**
     * Updates the head; if it then reports done, removes it, stops it with
     * `interrupted = false` and starts the new head, if any.
     */
    method Update(finished: set<Command>) returns (outcome: Outcome<Error>)
      modifies this`children, this`calls
      ensures old(children) == [] ==> outcome == Fail(NoSuchElement) && children == [] && calls == old(calls)
      ensures old(children) != [] ==>
        && outcome == Pass
        && children == StepChildren(old(children), finished)
        && calls == old(calls) + StepCalls(old(children), finished)
    {
      if children == [] {
        return Fail(NoSuchElement);
      }
      calls := calls + [Call.Update(children[0])];
      if children[0] !in finished {
        return Pass;
      }
      var head := children[0];
      children := children[1..];
      calls := calls + [Call.Stop(head, false)];
      if children != [] {
        calls := calls + [Call.Start(children[0])];
      }
      return Pass;
    }

    /**
     * Forwards `interrupted` to the head only, and only when children remain.
     * `CommandGroup.stop`, called after it, is not part of this model.
     */
    method Stop(interrupted: bool)
      modifies this`calls
      ensures calls == old(calls) + (if children == [] then [] else [Call.Stop(children[0], interrupted)])
    {
      if children != [] {
        calls := calls + [Call.Stop(children[0], interrupted)];
      }
    }

    /** A new group of the remaining children followed by `commands`. */
    method Then(commands: seq<Command>) returns (g: SequentialGroup)
      ensures fresh(g) && fresh(g.base)
      ensures g.children == children + commands && g.calls == []
    {
      g := new SequentialGroup(children + commands);
    }
  }
}
