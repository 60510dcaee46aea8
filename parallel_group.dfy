/**
 * `ParallelGroup`: every child runs; a child that reports done after its
 * update is stopped and removed; construction is refused when two children
 * share a requirement.
 *
 * As for the sequential group, `calls` is the ghost trace of what the group
 * does to its children and `finished` the set of children that report done
 * when polled during an update.
 */
module ParallelGroups {
  import opened Wrappers
  import opened Commands

  const ConflictMessage := "Two or more commands passed to ParallelGroup share one or more requirements"

  // ---------------------------------------------------------------------------
  // The requirement-conflict check of `init`

  /** `flatMap { it.requirements }`, kept as a multiset: `groupBy { it }` only counts. */
  function Flattened(reqs: seq<set<Requirement>>): (m: multiset<Requirement>)
    ensures forall i :: 0 <= i < |reqs| ==> multiset(reqs[i]) <= m
    decreases |reqs|
  {
    if reqs == [] then multiset{} else multiset(reqs[0]) + Flattened(reqs[1..])
  }

  /** `.groupBy { it }.none { it.value.size > 1 }`: no requirement occurs twice. */
  predicate NoConflicts(reqs: seq<set<Requirement>>): (ok: bool)
    ensures |reqs| <= 1 ==> ok
  {
    assert |reqs| == 1 ==> Flattened(reqs) == multiset(reqs[0]) + multiset{};
    forall r | r in Flattened(reqs) :: Flattened(reqs)[r] <= 1
  }

  /** The reference reading: no two children share a requirement. */
  ghost predicate PairwiseDisjoint(reqs: seq<set<Requirement>>)
  {
    forall i, j :: 0 <= i < j < |reqs| ==> reqs[i] !! reqs[j]
  }

  lemma {:induction false} InFlattened(reqs: seq<set<Requirement>>, r: Requirement)
    ensures r in Flattened(reqs) <==> exists j :: 0 <= j < |reqs| && r in reqs[j]
    decreases |reqs|
  {
    if reqs != [] {
      InFlattened(reqs[1..], r);
      if r in Flattened(reqs[1..]) {
        var j :| 0 <= j < |reqs[1..]| && r in reqs[1..][j];
        assert r in reqs[j + 1];
      }
      if exists j :: 0 <= j < |reqs| && r in reqs[j] {
        var j :| 0 <= j < |reqs| && r in reqs[j];
        if j > 0 {
          assert r in reqs[1..][j - 1];
        }
      }
    }
  }

  /** The check in `init` passes exactly when the children's requirement sets are pairwise disjoint. */
  lemma {:induction false} NoConflictsIffDisjoint(reqs: seq<set<Requirement>>)
    ensures NoConflicts(reqs) <==> PairwiseDisjoint(reqs)
    decreases |reqs|
  {
    if reqs == [] {
      return;
    }
    var head, tail := reqs[0], reqs[1..];
    assert Flattened(reqs) == multiset(head) + Flattened(tail);
    NoConflictsIffDisjoint(tail);
    if NoConflicts(reqs) {
      assert NoConflicts(tail) by {
        forall r | r in Flattened(tail) ensures Flattened(tail)[r] <= 1 {
          assert Flattened(reqs)[r] >= Flattened(tail)[r];
        }
      }
      forall i, j | 0 <= i < j < |reqs| ensures reqs[i] !! reqs[j] {
        if i == 0 {
          forall r | r in reqs[j] ensures r !in head {
            assert r in tail[j - 1];
            InFlattened(tail, r);
            assert Flattened(reqs)[r] <= 1;
          }
        } else {
          assert reqs[i] == tail[i - 1] && reqs[j] == tail[j - 1];
        }
      }
    } else {
      var r :| r in Flattened(reqs) && Flattened(reqs)[r] > 1;
      if r in head {
        assert r in Flattened(tail);
        InFlattened(tail, r);
        var j :| 0 <= j < |tail| && r in tail[j];
        assert r in reqs[0] && r in reqs[j + 1];
      } else {
        assert !NoConflicts(tail);
        var i, j :| 0 <= i < j < |tail| && !(tail[i] !! tail[j]);
        assert reqs[i + 1] == tail[i] && reqs[j + 1] == tail[j];
      }
    }
  }

  // ---------------------------------------------------------------------------
  // The specification of one lifecycle call on the whole group

  /** The children that are kept by one `update`: those not reporting done, in order. */
  function Survivors(children: seq<Command>, finished: set<Command>): seq<Command>
    decreases |children|
  {
    if children == [] then []
    else (if children[0] in finished then [] else [children[0]]) + Survivors(children[1..], finished)
  }

  /** The children that one `update` stops and removes, in order. */
  function Completed(children: seq<Command>, finished: set<Command>): seq<Command>
    decreases |children|
  {
    if children == [] then []
    else (if children[0] in finished then [children[0]] else []) + Completed(children[1..], finished)
  }

  /** The calls of one `update`: each child is updated and, if then done, stopped. */
  function UpdateCalls(children: seq<Command>, finished: set<Command>): seq<Call>
    decreases |children|
  {
    if children == [] then []
    else [Update(children[0])] + (if children[0] in finished then [Stop(children[0], false)] else [])
         + UpdateCalls(children[1..], finished)
  }

  /** The calls of `start`: every child started, in order. */
  function StartAll(children: seq<Command>): seq<Call>
    decreases |children|
  {
    if children == [] then [] else [Start(children[0])] + StartAll(children[1..])
  }

  /** The calls of `stop(interrupted)`: every child stopped with that flag, in order. */
  function StopAll(children: seq<Command>, interrupted: bool): seq<Call>
    decreases |children|
  {
    if children == [] then [] else [Stop(children[0], interrupted)] + StopAll(children[1..], interrupted)
  }

  /** The commands of a sequence, as a set. */
  function Elems(children: seq<Command>): set<Command>
  {
    set c | c in children
  }

  lemma {:induction false} SurvivorsSnoc(children: seq<Command>, c: Command, finished: set<Command>)
    ensures Survivors(children + [c], finished) == Survivors(children, finished) + (if c in finished then [] else [c])
    decreases |children|
  {
    var last := if c in finished then [] else [c];
    if children == [] {
      assert children + [c] == [c];
      assert Survivors([c], finished) == last + Survivors([], finished);
    } else {
      var whole := children + [c];
      var first := if children[0] in finished then [] else [children[0]];
      assert whole[0] == children[0];
      assert whole[1..] == children[1..] + [c];
      SurvivorsSnoc(children[1..], c, finished);
      calc {
        Survivors(whole, finished);
        first + Survivors(children[1..] + [c], finished);
        first + (Survivors(children[1..], finished) + last);
        (first + Survivors(children[1..], finished)) + last;
      }
    }
  }

  lemma {:induction false} UpdateCallsSnoc(children: seq<Command>, c: Command, finished: set<Command>)
    ensures UpdateCalls(children + [c], finished)
         == UpdateCalls(children, finished) + [Update(c)] + (if c in finished then [Stop(c, false)] else [])
    decreases |children|
  {
    var last := [Update(c)] + (if c in finished then [Stop(c, false)] else []);
    if children == [] {
      assert children + [c] == [c];
      assert UpdateCalls([c], finished) == last + UpdateCalls([], finished);
    } else {
      var whole := children + [c];
      var x := children[0];
      var first := [Update(x)] + (if x in finished then [Stop(x, false)] else []);
      assert whole[0] == x;
      assert whole[1..] == children[1..] + [c];
      UpdateCallsSnoc(children[1..], c, finished);
      calc {
        UpdateCalls(whole, finished);
        first + UpdateCalls(children[1..] + [c], finished);
        first + (UpdateCalls(children[1..], finished) + last);
        (first + UpdateCalls(children[1..], finished)) + last;
      }
    }
  }

  lemma {:induction false} StartAllSnoc(children: seq<Command>, c: Command, interrupted: bool)
    ensures StartAll(children + [c]) == StartAll(children) + [Start(c)]
    ensures StopAll(children + [c], interrupted) == StopAll(children, interrupted) + [Stop(c, interrupted)]
    decreases |children|
  {
    if children == [] {
      assert children + [c] == [c];
    } else {
      assert (children + [c])[0] == children[0];
      assert (children + [c])[1..] == children[1..] + [c];
      StartAllSnoc(children[1..], c, interrupted);
    }
  }

  /**
   * `update` keeps exactly the children that did not report done, and
   * removes exactly those that did.
   */
  lemma {:induction false} SurvivorsMembers(children: seq<Command>, finished: set<Command>)
    ensures forall c | c in Survivors(children, finished) :: c in children && c !in finished
    ensures forall c | c in children && c !in finished :: c in Survivors(children, finished)
    ensures forall c | c in Completed(children, finished) :: c in children && c in finished
    ensures forall c | c in children && c in finished :: c in Completed(children, finished)
    decreases |children|
  {
    if children != [] {
      SurvivorsMembers(children[1..], finished);
      assert forall c :: c in children <==> c == children[0] || c in children[1..];
    }
  }

  /** `s` is `t` with some elements left out, the rest in their order. */
  predicate IsSubsequence(s: seq<Command>, t: seq<Command>)
    decreases |t|
  {
    if t == [] then s == []
    else s == [] || (s[0] == t[0] && IsSubsequence(s[1..], t[1..])) || IsSubsequence(s, t[1..])
  }

  /** The children an `update` keeps stay in their relative order. */
  lemma {:induction false} SurvivorsKeepOrder(children: seq<Command>, finished: set<Command>)
    ensures IsSubsequence(Survivors(children, finished), children)
    ensures IsSubsequence(Completed(children, finished), children)
    decreases |children|
  {
    if children != [] {
      SurvivorsKeepOrder(children[1..], finished);
      var kept, dropped := Survivors(children, finished), Completed(children, finished);
      if children[0] in finished {
        assert kept == Survivors(children[1..], finished);
        assert dropped == [children[0]] + Completed(children[1..], finished);
        assert dropped[0] == children[0] && dropped[1..] == Completed(children[1..], finished);
      } else {
        assert kept == [children[0]] + Survivors(children[1..], finished);
        assert kept[0] == children[0] && kept[1..] == Survivors(children[1..], finished);
        assert dropped == Completed(children[1..], finished);
      }
    }
  }

  /** The calls `update` makes on one child: one update, then a stop if it is done. */
  lemma OneChildCalls(c: Command, finished: set<Command>)
    ensures var calls := [Update(c)] + (if c in finished then [Stop(c, false)] else []);
      Updated(calls) == [c] && Stopped(calls) == if c in finished then [(c, false)] else []
  {
    var stop := [Stop(c, false)];
    assert Updated(stop) == [] + Updated([]) by { assert stop[1..] == []; }
    assert Stopped(stop) == [(c, false)] + Stopped([]) by { assert stop[1..] == []; }
    assert Updated([Update(c)]) == [c] + Updated([]) by { assert [Update(c)][1..] == []; }
    assert Stopped([Update(c)]) == [] + Stopped([]) by { assert [Update(c)][1..] == []; }
    UpdatedAppend([Update(c)], if c in finished then stop else []);
    StoppedAppend([Update(c)], if c in finished then stop else []);
  }

  lemma WithFlagAppend(a: seq<Command>, b: seq<Command>, interrupted: bool)
    ensures WithFlag(a + b, interrupted) == WithFlag(a, interrupted) + WithFlag(b, interrupted)
  {
  }

  /**
   * One `update` calls `update` exactly once on each child, in list order,
   * and stops with `interrupted = false` exactly the children that report
   * done, in list order.
   */
  lemma {:induction false} UpdateCallsOrder(children: seq<Command>, finished: set<Command>)
    ensures Updated(UpdateCalls(children, finished)) == children
    ensures Stopped(UpdateCalls(children, finished)) == WithFlag(Completed(children, finished), false)
    decreases |children|
  {
    if children != [] {
      var c := children[0];
      var head := [Update(c)] + (if c in finished then [Stop(c, false)] else []);
      var tail := UpdateCalls(children[1..], finished);
      UpdateCallsOrder(children[1..], finished);
      assert UpdateCalls(children, finished) == head + tail;
      UpdatedAppend(head, tail);
      StoppedAppend(head, tail);
      OneChildCalls(c, finished);
      assert children == [c] + children[1..];
      var done := if c in finished then [c] else [];
      assert Completed(children, finished) == done + Completed(children[1..], finished);
      WithFlagAppend(done, Completed(children[1..], finished), false);
      assert WithFlag(done, false) == Stopped(head);
    }
  }

  // ---------------------------------------------------------------------------
  // Runs: `start`, then one `update` per tick

  /** Every child that reported done in some tick. */
  function Reported(ticks: seq<set<Command>>): set<Command>
    decreases |ticks|
  {
    if ticks == [] then {} else ticks[0] + Reported(ticks[1..])
  }

  lemma {:induction false} InReported(ticks: seq<set<Command>>, c: Command)
    ensures c in Reported(ticks) <==> exists t :: 0 <= t < |ticks| && c in ticks[t]
    decreases |ticks|
  {
    if ticks != [] {
      InReported(ticks[1..], c);
      if c in Reported(ticks[1..]) {
        var t :| 0 <= t < |ticks[1..]| && c in ticks[1..][t];
        assert c in ticks[t + 1];
      }
      if exists t :: 0 <= t < |ticks| && c in ticks[t] {
        var t :| 0 <= t < |ticks| && c in ticks[t];
        if t > 0 {
          assert c in ticks[1..][t - 1];
        }
      }
    }
  }

  /** The children left after one `update` per tick of `ticks`. */
  function RunChildren(children: seq<Command>, ticks: seq<set<Command>>): seq<Command>
    decreases |ticks|
  {
    if ticks == [] then children else RunChildren(Survivors(children, ticks[0]), ticks[1..])
  }

  /** The calls of those updates. */
  function RunCalls(children: seq<Command>, ticks: seq<set<Command>>): seq<Call>
    decreases |ticks|
  {
    if ticks == [] then []
    else UpdateCalls(children, ticks[0]) + RunCalls(Survivors(children, ticks[0]), ticks[1..])
  }

  lemma {:induction false} SurvivorsTwice(children: seq<Command>, a: set<Command>, b: set<Command>)
    ensures Survivors(Survivors(children, a), b) == Survivors(children, a + b)
    decreases |children|
  {
    if children != [] {
      SurvivorsTwice(children[1..], a, b);
      var c := children[0];
      var once := Survivors(children, a);
      if c in a {
        assert once == Survivors(children[1..], a);
        assert Survivors(children, a + b) == Survivors(children[1..], a + b);
      } else {
        assert once == [c] + Survivors(children[1..], a);
        assert once[0] == c && once[1..] == Survivors(children[1..], a);
        assert Survivors(once, b) == (if c in b then [] else [c]) + Survivors(once[1..], b);
        assert Survivors(children, a + b) == (if c in b then [] else [c]) + Survivors(children[1..], a + b);
      }
    }
  }

  lemma {:induction false} SurvivorsNone(children: seq<Command>)
    ensures Survivors(children, {}) == children
    decreases |children|
  {
    if children != [] {
      SurvivorsNone(children[1..]);
    }
  }

  /**
   * Completion union: after a run, the children still in the group are
   * exactly those that never reported done, in their original order.
   */
  lemma {:induction false} RunSurvivors(children: seq<Command>, ticks: seq<set<Command>>)
    ensures RunChildren(children, ticks) == Survivors(children, Reported(ticks))
    decreases |ticks|
  {
    if ticks != [] {
      var kept := Survivors(children, ticks[0]);
      RunSurvivors(kept, ticks[1..]);
      SurvivorsTwice(children, ticks[0], Reported(ticks[1..]));
      assert Reported(ticks) == ticks[0] + Reported(ticks[1..]);
      assert RunChildren(children, ticks) == RunChildren(kept, ticks[1..]);
    } else {
      assert Reported(ticks) == {};
      SurvivorsNone(children);
    }
  }

  /** A parallel group is done after a run iff each child reported done in some tick. */
  lemma RunDoneIffEachReported(children: seq<Command>, ticks: seq<set<Command>>)
    ensures RunChildren(children, ticks) == [] <==>
            forall c :: c in children ==> exists t :: 0 <= t < |ticks| && c in ticks[t]
  {
    RunSurvivors(children, ticks);
    SurvivorsMembers(children, Reported(ticks));
    var rest := RunChildren(children, ticks);
    if rest == [] {
      forall c | c in children ensures exists t :: 0 <= t < |ticks| && c in ticks[t] {
        assert c !in rest;
        InReported(ticks, c);
      }
    } else {
      var c := rest[0];
      assert c in Survivors(children, Reported(ticks));
      InReported(ticks, c);
      assert c in children;
      assert c !in Reported(ticks);
      assert !exists t :: 0 <= t < |ticks| && c in ticks[t];
    }
  }

  /** How one `update` changes the set of started-and-not-stopped children. */
  lemma {:induction false} AfterUpdateCalls(open: set<Command>, children: seq<Command>, finished: set<Command>)
    ensures After(open, UpdateCalls(children, finished)) == open - (Elems(children) * finished)
    decreases |children|
  {
    if children != [] {
      var c := children[0];
      var head := [Update(c)] + (if c in finished then [Stop(c, false)] else []);
      var next := if c in finished then open - {c} else open;
      assert UpdateCalls(children, finished) == head + UpdateCalls(children[1..], finished);
      AfterAppend(open, head, UpdateCalls(children[1..], finished));
      assert After(open, head) == next by {
        assert head[0] == Update(c);
        assert After(open, head) == After(open, head[1..]);
        if c in finished {
          assert head[1..] == [Stop(c, false)] && head[1..][1..] == [];
          assert After(open, head[1..]) == After(open - {c}, []);
        } else {
          assert head[1..] == [];
        }
      }
      AfterUpdateCalls(next, children[1..], finished);
      assert Elems(children) == {c} + Elems(children[1..]);
    }
  }

  lemma {:induction false} AfterStartAll(open: set<Command>, children: seq<Command>)
    ensures After(open, StartAll(children)) == open + Elems(children)
    decreases |children|
  {
    if children != [] {
      assert StartAll(children) == [Start(children[0])] + StartAll(children[1..]);
      AfterAppend(open, [Start(children[0])], StartAll(children[1..]));
      assert After(open, [Start(children[0])]) == After(open + {children[0]}, []);
      AfterStartAll(open + {children[0]}, children[1..]);
      assert Elems(children) == {children[0]} + Elems(children[1..]);
    }
  }

  lemma {:induction false} AfterStopAll(open: set<Command>, children: seq<Command>, interrupted: bool)
    ensures After(open, StopAll(children, interrupted)) == open - Elems(children)
    decreases |children|
  {
    if children != [] {
      assert StopAll(children, interrupted) == [Stop(children[0], interrupted)] + StopAll(children[1..], interrupted);
      AfterAppend(open, [Stop(children[0], interrupted)], StopAll(children[1..], interrupted));
      assert After(open, [Stop(children[0], interrupted)]) == After(open - {children[0]}, []);
      AfterStopAll(open - {children[0]}, children[1..], interrupted);
      assert Elems(children) == {children[0]} + Elems(children[1..]);
    }
  }

  lemma {:induction false} RunOpen(children: seq<Command>, ticks: seq<set<Command>>)
    ensures After(Elems(children), RunCalls(children, ticks)) == Elems(RunChildren(children, ticks))
    decreases |ticks|
  {
    if ticks != [] {
      var kept := Survivors(children, ticks[0]);
      AfterAppend(Elems(children), UpdateCalls(children, ticks[0]), RunCalls(kept, ticks[1..]));
      AfterUpdateCalls(Elems(children), children, ticks[0]);
      SurvivorsMembers(children, ticks[0]);
      assert Elems(children) - (Elems(children) * ticks[0]) == Elems(kept);
      RunOpen(kept, ticks[1..]);
    }
  }

  /**
   * Started with `start` and updated once per tick, the children that are
   * started and not yet stopped are exactly the children still in the group:
   * a child is stopped when, and only when, it reports done; `stop` then
   * closes every one of them.
   */
  lemma StartedRunOpen(children: seq<Command>, ticks: seq<set<Command>>, interrupted: bool)
    ensures After({}, StartAll(children) + RunCalls(children, ticks)) == Elems(RunChildren(children, ticks))
    ensures After({}, StartAll(children) + RunCalls(children, ticks)
                      + StopAll(RunChildren(children, ticks), interrupted)) == {}
  {
    var calls := StartAll(children) + RunCalls(children, ticks);
    var rest := RunChildren(children, ticks);
    AfterAppend({}, StartAll(children), RunCalls(children, ticks));
    AfterStartAll({}, children);
    assert After({}, StartAll(children)) == Elems(children);
    RunOpen(children, ticks);
    assert After({}, calls) == Elems(rest);
    AfterAppend({}, calls, StopAll(rest, interrupted));
    AfterStopAll(Elems(rest), rest, interrupted);
  }

  /** One iteration of `update`'s loop, as seen from the original list. */
  lemma UpdateStep(original: seq<Command>, j: nat, finished: set<Command>)
    requires j < |original|
    ensures original[j..] == [original[j]] + original[j + 1..]
    ensures Survivors(original[..j + 1], finished)
         == Survivors(original[..j], finished) + (if original[j] in finished then [] else [original[j]])
    ensures UpdateCalls(original[..j + 1], finished)
         == UpdateCalls(original[..j], finished) + [Update(original[j])]
            + (if original[j] in finished then [Stop(original[j], false)] else [])
  {
    assert original[..j + 1] == original[..j] + [original[j]];
    SurvivorsSnoc(original[..j], original[j], finished);
    UpdateCallsSnoc(original[..j], original[j], finished);
  }

  /** Removing the element at the seam of `kept + [c] + rest`. */
  lemma SplitAt(kept: seq<Command>, c: Command, rest: seq<Command>)
    ensures var s := kept + ([c] + rest);
      s[|kept|] == c && s[..|kept|] + s[|kept| + 1..] == kept + rest && s == (kept + [c]) + rest
  {
    var s := kept + ([c] + rest);
    assert s[..|kept|] == kept;
    assert s[|kept| + 1..] == rest;
  }

  /**
   * After a run of at least one tick, polling `isDone` with the answers of
   * the last tick says the group is done exactly when every child reported
   * done on some tick: the children still held all answered "not done".
   */
  lemma RunIsDoneIffEachReported(children: seq<Command>, ticks: seq<set<Command>>)
    requires ticks != []
    ensures (forall c :: c in RunChildren(children, ticks) ==> c in ticks[|ticks| - 1]) <==>
            forall c :: c in children ==> exists t :: 0 <= t < |ticks| && c in ticks[t]
  {
    var rest := RunChildren(children, ticks);
    RunSurvivors(children, ticks);
    SurvivorsMembers(children, Reported(ticks));
    RunDoneIffEachReported(children, ticks);
    if rest != [] {
      InReported(ticks, rest[0]);
      assert rest[0] !in ticks[|ticks| - 1];
    }
  }

  /**
   * The loop of `update`, one iteration: the child under the iterator is
   * the next original child; keeping it advances the iterator, removing it
   * leaves the iterator in place.
   */
  lemma UpdateLoopStep(original: seq<Command>, j: nat, finished: set<Command>, live: seq<Command>, i: nat)
    requires j < |original|
    requires live == Survivors(original[..j], finished) + original[j..]
    requires i == |Survivors(original[..j], finished)|
    ensures i < |live| && live[i] == original[j]
    ensures original[j] !in finished ==>
      live == Survivors(original[..j + 1], finished) + original[j + 1..] &&
      i + 1 == |Survivors(original[..j + 1], finished)|
    ensures original[j] in finished ==>
      live[..i] + live[i + 1..] == Survivors(original[..j + 1], finished) + original[j + 1..] &&
      i == |Survivors(original[..j + 1], finished)|
    ensures UpdateCalls(original[..j + 1], finished)
         == UpdateCalls(original[..j], finished) + [Update(original[j])]
            + (if original[j] in finished then [Stop(original[j], false)] else [])
  {
    UpdateStep(original, j, finished);
    SplitAt(Survivors(original[..j], finished), original[j], original[j + 1..]);
  }

  class ParallelGroup {
    const base: Command
    var children: seq<Command>
    ghost var calls: seq<Call>

    /** Only reached through `New`, after the conflict check. */
    constructor Init(commands: seq<Command>)
      requires PairwiseDisjoint(RequirementSets(commands))
      ensures fresh(base)
      ensures children == commands && calls == []
      ensures PairwiseDisjoint(RequirementSets(children))
    {
      base := new Command(Some("ParallelGroup"));
      children := commands;
      calls := [];
    }

    /**
     * `ParallelGroup(commands)`: refused with the conflict message when some
     * requirement is shared by two of the commands.
     */
    static method New(commands: seq<Command>) returns (r: Result<ParallelGroup, Error>)
      ensures r.Failure? <==> !PairwiseDisjoint(RequirementSets(commands))
      ensures r.Failure? ==> r.error == IllegalState(ConflictMessage)
      ensures r.Success? ==> fresh(r.value) && fresh(r.value.base)
      ensures r.Success? ==> r.value.children == commands && r.value.calls == []
      ensures r.Success? ==> PairwiseDisjoint(RequirementSets(r.value.children))
    {
      var reqs := RequirementSets(commands);
      NoConflictsIffDisjoint(reqs);
      if !NoConflicts(reqs) {
        return Failure(IllegalState(ConflictMessage));
      }
      var g := new ParallelGroup.Init(commands);
      return Success(g);
    }

    /** Done when every remaining child reports done; an empty group is done. */
    predicate IsDone(finished: set<Command>): (done: bool)
      reads this
      ensures done <==> Survivors(children, finished) == []
    {
      SurvivorsMembers(children, finished);
      var kept := Survivors(children, finished);
      assert kept != [] ==> kept[0] in kept;
      forall c :: c in children ==> c in finished
    }

    /** Starts every child, in list order. */
    method Start()
      modifies this`calls
      ensures calls == old(calls) + StartAll(children)
    {
      var i := 0;
      while i < |children|
        invariant 0 <= i <= |children|
        invariant calls == old(calls) + StartAll(children[..i])
      {
        StartAllSnoc(children[..i], children[i], false);
        assert children[..i + 1] == children[..i] + [children[i]];
        calls := calls + [Call.Start(children[i])];
        i := i + 1;
      }
      assert children[..i] == children;
    }

    /**
     * Updates each remaining child in list order; one that reports done is
     * stopped with `interrupted = false` and removed through the iterator.
     */
    method Update(finished: set<Command>)
      modifies this`children, this`calls
      ensures children == Survivors(old(children), finished)
      ensures calls == old(calls) + UpdateCalls(old(children), finished)
    {
      ghost var original := children;
      var i := 0;         // the iterator's position in the live list
      ghost var j := 0;   // the same position in the list as it was
      while i < |children|
        invariant 0 <= j <= |original|
        invariant children == Survivors(original[..j], finished) + original[j..]
        invariant i == |Survivors(original[..j], finished)|
        invariant |children| == i + (|original| - j)
        invariant calls == old(calls) + UpdateCalls(original[..j], finished)
        decreases |original| - j
      {
        UpdateLoopStep(original, j, finished, children, i);
        var command := children[i];
        calls := calls + [Call.Update(command)];
        if command !in finished {
          i, j := i + 1, j + 1;
          continue;
        }
        calls := calls + [Call.Stop(command, false)];
        children := children[..i] + children[i + 1..];
        j := j + 1;
      }
      assert original[..j] == original;
    }

    /** Forwards `interrupted` to every remaining child, in order. */
    method Stop(interrupted: bool)
      modifies this`calls
      ensures calls == old(calls) + StopAll(children, interrupted)
    {
      var i := 0;
      while i < |children|
        invariant 0 <= i <= |children|
        invariant calls == old(calls) + StopAll(children[..i], interrupted)
      {
        StartAllSnoc(children[..i], children[i], interrupted);
        assert children[..i + 1] == children[..i] + [children[i]];
        calls := calls + [Call.Stop(children[i], interrupted)];
        i := i + 1;
      }
      assert children[..i] == children;
    }

    /** A new group of the remaining children and `commands`; the conflict check runs again. */
    method And(commands: seq<Command>) returns (r: Result<ParallelGroup, Error>)
      ensures r.Failure? <==> !PairwiseDisjoint(RequirementSets(children + commands))
      ensures r.Failure? ==> r.error == IllegalState(ConflictMessage)
      ensures r.Success? ==> fresh(r.value) && fresh(r.value.base)
      ensures r.Success? ==> r.value.children == children + commands && r.value.calls == []
    {
      r := New(children + commands);
    }
  }
}
