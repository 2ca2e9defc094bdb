/**
 * The small clock-driven helpers of the frontend: a stopwatch (TimeSince), a
 * rechargeable cooldown (Cooldown) and a countdown (Timer). Every reading of
 * the clock is an explicit `now` argument, in milliseconds.
 */
module Timers {

  /** A stopwatch: the time since it was created or last reset. */
  class TimeSince {
    var timestamp: int

    /** A stopwatch started at `now`. */
    constructor(now: int)
      ensures timestamp == now
      ensures Value(now) == 0
    {
      timestamp := now;
    }

    /** Resets the stopwatch so that it reads `to` at `now`, as if it had been started `to` ms ago. */
    method Reset(now: int, to: int)
      modifies this
      ensures timestamp == now - to
      ensures Value(now) == to
    {
      timestamp := now - to;
    }

    /** The time in ms since the last reset (or the creation): the start time plus the reading is the clock. */
    function Value(now: int): (ms: int)
      reads this
      ensures timestamp + ms == now
    {
      now - timestamp
    }
  }

  /** The stopwatch advances exactly with the clock. */
  lemma ValueAdvancesWithClock(t: TimeSince, now: int, later: int)
    ensures t.Value(later) == t.Value(now) + (later - now)
  {
  }

  /** Whether a new cooldown starts charged or on cooldown. */
  datatype CooldownStart = Ready | Running

  /**
   * A cooldown that takes `duration` ms to charge after each trigger;
   * `timestamp` is the time of the last trigger.
   */
  class Cooldown {
    var timestamp: int
    var duration: int

    /** Starting `Running` triggers the cooldown at `now`; starting `Ready` dates the last trigger at time 0. */
    constructor(duration: int, start: CooldownStart, now: int)
      ensures this.duration == duration
      ensures timestamp == if start == Running then now else 0
    {
      this.duration := duration;
      if start == Running {
        timestamp := now;
      } else {
        timestamp := 0;
      }
    }

    /** The time in ms since the last trigger: the trigger time plus the reading is the clock. */
    function TimeSinceLastTrigger(now: int): (elapsed: int)
      reads this
      ensures timestamp + elapsed == now
    {
      now - timestamp
    }

    /**
     * The time in ms until the cooldown is charged: never negative, zero
     * once `duration` ms have passed since the last trigger, and otherwise
     * the distance from `now` to the moment the charge completes.
     */
    function TimeLeft(now: int): (t: int)
      reads this
      ensures t >= 0
      ensures t == 0 <==> TimeSinceLastTrigger(now) >= duration
      ensures t > 0 ==> now + t == timestamp + duration
    {
      var t := duration - TimeSinceLastTrigger(now);
      if t < 0 then 0 else t
    }

    /** Charged exactly when at least `duration` ms have passed since the last trigger. */
    predicate IsReady(now: int): (ready: bool)
      reads this
      ensures ready <==> now - timestamp >= duration
    {
      TimeLeft(now) <= 0
    }

    /**
     * Uses the cooldown: when it is charged, or when `force` is set, it is
     * triggered at `now` and the call succeeds; otherwise nothing changes.
     */
    method Consume(force: bool, now: int) returns (ok: bool)
      modifies this
      ensures ok == (old(IsReady(now)) || force)
      ensures ok ==> timestamp == now
      ensures !ok ==> timestamp == old(timestamp)
      ensures duration == old(duration)
    {
      if TimeLeft(now) <= 0 || force {
        timestamp := now;
        return true;
      }
      return false;
    }

    /** Forces the cooldown to be charged by dating the last trigger at time 0. */
    method SetReady()
      modifies this
      ensures timestamp == 0
      ensures duration == old(duration)
      ensures forall now | now >= duration :: IsReady(now)
    {
      timestamp := 0;
    }

    /** Triggers the cooldown at `now` whatever its state, like a forced consume. */
    method Restart(now: int)
      modifies this
      ensures timestamp == now
      ensures duration == old(duration)
      ensures duration > 0 ==> !IsReady(now)
    {
      timestamp := now;
    }
  }

  /**
   * Right after a successful consume at `now`, the cooldown is charged again
   * at `later` exactly when `duration` ms have passed.
   */
  lemma ReadyAgainAfterDuration(c: Cooldown, now: int, later: int)
    requires c.timestamp == now
    ensures c.IsReady(later) <==> later >= now + c.duration
    ensures !c.IsReady(later) ==> c.TimeLeft(later) == now + c.duration - later
  {
  }

  /**
   * A charged 1000 ms cooldown (any clock reading from 1000 on) consumed
   * twice at the same instant: the first call succeeds and re-arms it, so
   * the second fails.
   */
  method ReadyCooldownConsumedTwice(now: int) returns (first: bool, second: bool)
    requires now >= 1000
    ensures first && !second
  {
    var c := new Cooldown(1000, Ready, now);
    first := c.Consume(false, now);
    second := c.Consume(false, now);
  }

  /** A cooldown created running is not charged right after construction. */
  method RunningCooldownNotReady(duration: int, now: int) returns (ready: bool)
    requires duration > 0
    ensures !ready
  {
    var c := new Cooldown(duration, Running, now);
    ready := c.IsReady(now);
  }

  /** Whether a new timer starts counting down or already finished. */
  datatype TimerStart = Started | Done

  /** A countdown of `duration` ms that finishes at time `target`. */
  class Timer {
    var target: int
    var duration: int

    /** A started timer finishes `duration` ms after `now`; a done one has target 0. */
    constructor(duration: int, initialState: TimerStart, now: int)
      ensures this.duration == duration
      ensures target == if initialState == Started then now + duration else 0
    {
      this.duration := duration;
      if initialState == Started {
        target := now + duration;
      } else {
        target := 0;
      }
    }

    /**
     * The time in ms until the timer finishes: never negative, zero from
     * `target` on, and before that the distance from `now` to `target`.
     */
    function TimeLeft(now: int): (t: int)
      reads this
      ensures t >= 0
      ensures t == 0 <==> target <= now
      ensures t > 0 ==> now + t == target
    {
      var t := target - now;
      if t < 0 then 0 else t
    }

    /** Finished exactly from `target` on. */
    predicate IsDone(now: int): (done: bool)
      reads this
      ensures done <==> target <= now
    {
      TimeLeft(now) <= 0
    }

    /** Running is the negation of done. */
    predicate IsRunning(now: int): (running: bool)
      reads this
      ensures running <==> now < target
    {
      !IsDone(now)
    }

    /** Starts the countdown again from `now`. */
    method Restart(now: int)
      modifies this
      ensures target == now + duration
      ensures duration == old(duration)
      ensures duration > 0 ==> IsRunning(now) && TimeLeft(now) == duration
    {
      target := now + duration;
    }

    /** Finishes the timer: it reads as done at every time from 0 on. */
    method SetDone()
      modifies this
      ensures target == 0
      ensures duration == old(duration)
      ensures forall now | now >= 0 :: IsDone(now) && TimeLeft(now) == 0
    {
      target := 0;
    }
  }

  /** A running timer keeps running, with less time left, until its target. */
  lemma TimerCountsDown(t: Timer, now: int, later: int)
    requires now <= later < t.target
    ensures t.IsRunning(later)
    ensures t.TimeLeft(later) == t.TimeLeft(now) - (later - now)
  {
  }
}
