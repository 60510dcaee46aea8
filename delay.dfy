/**
 * `Delay`: a command that waits until a duration has elapsed since it was
 * started. The monotonic clock is an abstract non-decreasing natural passed
 * in as `now`; durations are naturals in the same unit.
 */
module Delays {
  import opened Wrappers
  import opened Commands

  class Delay {
    const base: Command
    const time: nat
    /** `lateinit var startTime`: `None` until `start` has run. */
    var startTime: Option<nat>

    /** A delay claims no requirements and has not been started. */
    constructor (time: nat)
      ensures fresh(base) && base.requirements == {} && base.interruptible
      ensures this.time == time && startTime == None
    {
      base := new Command(Some("Delay"));
      this.time := time;
      startTime := None;
    }

    /** Records the current clock reading; starting again restarts the wait. */
    method Start(now: nat)
      modifies this`startTime
      ensures startTime == Some(now)
    {
      startTime := Some(now);
    }

    /**
     * Done once the time elapsed since `start` reaches the duration; reading
     * it before `start` fails because `startTime` is uninitialised.
     */
    function IsDone(now: nat): (r: Result<bool, Error>)
      reads this
      ensures r.Failure? <==> startTime == None
      ensures r.Failure? ==> r.error == UninitializedProperty
      ensures r.Success? ==> (r.value <==> startTime.value + time <= now)
    {
      match startTime
      case None => Failure(UninitializedProperty)
      case Some(start) => Success(now - start >= time)
    }
  }

  /** Once done, a delay stays done as the clock advances. */
  lemma StaysDone(d: Delay, now: nat, later: nat)
    requires now <= later
    requires d.IsDone(now) == Success(true)
    ensures d.IsDone(later) == Success(true)
  {
  }

  /** A zero-length delay is done at the very tick it is started. */
  lemma ZeroDelayDoneAtStart(d: Delay, now: nat)
    requires d.time == 0 && d.startTime == Some(now)
    ensures d.IsDone(now) == Success(true)
  {
  }

  /** A delay of positive length is not done at the tick it is started. */
  lemma PositiveDelayNotDoneAtStart(d: Delay, now: nat)
    requires d.time > 0 && d.startTime == Some(now)
    ensures d.IsDone(now) == Success(false)
  {
  }
}
