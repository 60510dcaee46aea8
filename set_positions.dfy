/**
 * `SetPositions` / `SetPosition`: an instant command whose action writes a
 * position to each listed positionable, in argument order.
 */
module Positionables {
  import opened Wrappers
  import opened Commands

  /** Anything with a settable position (a servo, a group of servos, ...). */
  class Positionable {
    var position: real

    constructor (position: real)
      ensures this.position == position
    {
      this.position := position;
    }
  }

  /** The positionables that a list of (positionable, value) pairs writes to. */
  function Targets(states: seq<(Positionable, real)>): set<Positionable>
  {
    set i | 0 <= i < |states| :: states[i].0
  }

  /**
   * The value `p` holds once all pairs are applied in order: the value of
   * the last pair that names `p`, or nothing when no pair names it.
   */
  function Assigned(states: seq<(Positionable, real)>, p: Positionable): (r: Option<real>)
    ensures r.None? <==> forall i :: 0 <= i < |states| ==> states[i].0 != p
    decreases |states|
  {
    if states == [] then None
    else if states[|states| - 1].0 == p then Some(states[|states| - 1].1)
    else
      var earlier := states[..|states| - 1];
      assert forall i :: 0 <= i < |earlier| ==> earlier[i] == states[i];
      Assigned(earlier, p)
  }

  /** A value `Assigned` reports comes from the last pair naming `p`. */
  lemma {:induction false} AssignedIsLastPair(states: seq<(Positionable, real)>, p: Positionable)
    requires Assigned(states, p).Some?
    ensures var x := Assigned(states, p).value;
      exists i :: 0 <= i < |states| && states[i] == (p, x) &&
                  forall j :: i < j < |states| ==> states[j].0 != p
    decreases |states|
  {
    var x := Assigned(states, p).value;
    var last := |states| - 1;
    if states[last].0 == p {
      assert states[last] == (p, x);
    } else {
      var earlier := states[..last];
      AssignedIsLastPair(earlier, p);
      var i :| 0 <= i < |earlier| && earlier[i] == (p, x) &&
               forall j :: i < j < |earlier| ==> earlier[j].0 != p;
      assert states[i] == (p, x);
      forall j | i < j < |states| ensures states[j].0 != p {
        if j < last { assert states[j] == earlier[j]; }
      }
    }
  }

  /** Appending a pair writes its positionable and leaves the others' values. */
  lemma AssignedSnoc(states: seq<(Positionable, real)>, pair: (Positionable, real), p: Positionable)
    ensures Assigned(states + [pair], p) == if pair.0 == p then Some(pair.1) else Assigned(states, p)
    ensures Targets(states + [pair]) == Targets(states) + {pair.0}
  {
    assert (states + [pair])[..|states|] == states;
    var t := Targets(states + [pair]);
    forall q | q in t ensures q in Targets(states) + {pair.0} {
      var i :| 0 <= i < |states| + 1 && (states + [pair])[i].0 == q;
      if i < |states| { assert states[i].0 == q; }
    }
    forall q | q in Targets(states) ensures q in t {
      var i :| 0 <= i < |states| && states[i].0 == q;
      assert (states + [pair])[i].0 == q;
    }
    assert (states + [pair])[|states|].0 == pair.0;
  }

  /** A positionable listed twice ends at the value of its later pair. */
  lemma LaterPairWins(p: Positionable, q: Positionable, first: real, between: real, last: real)
    requires p != q
    ensures Assigned([(p, first), (q, between), (p, last)], p) == Some(last)
    ensures Assigned([(p, first), (q, between), (p, last)], q) == Some(between)
  {
  }

  class SetPositions {
    const base: Command
    const states: seq<(Positionable, real)>

    /** The command claims none of the positionables as requirements. */
    constructor (states: seq<(Positionable, real)>)
      ensures fresh(base) && base.requirements == {} && base.interruptible
      ensures this.states == states
    {
      base := new Command(Some("SetPositions"));
      this.states := states;
    }

    /**
     * The action the instant command runs: each listed positionable ends at
     * the value of its last pair; every other positionable is untouched.
     */
    method Run()
      modifies Targets(states)
      ensures forall p :: p in Targets(states) ==> Assigned(states, p) == Some(p.position)
    {
      var i := 0;
      while i < |states|
        invariant 0 <= i <= |states|
        invariant forall p :: p in Targets(states[..i]) ==> Assigned(states[..i], p) == Some(p.position)
      {
        var target, value := states[i].0, states[i].1;
        assert states[..i + 1] == states[..i] + [(target, value)];
        forall p ensures Assigned(states[..i + 1], p) == (if target == p then Some(value) else Assigned(states[..i], p)) {
          AssignedSnoc(states[..i], (target, value), p);
        }
        AssignedSnoc(states[..i], (target, value), target);
        target.position := value;
        i := i + 1;
      }
      assert states[..i] == states;
    }
  }

  /** `SetPosition(p, x)` is `SetPositions` with the single pair (p, x). */
  method SetPosition(positionable: Positionable, position: real) returns (c: SetPositions)
    ensures fresh(c) && fresh(c.base) && c.base.requirements == {}
    ensures c.states == [(positionable, position)]
  {
    c := new SetPositions([(positionable, position)]);
  }
}
