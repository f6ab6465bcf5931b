/** loop.c: the frame counters, and the wait that paces every pass of the loop. */
module Loop {
  import opened Words
  import opened Clock

  /** Ticks between successive readings of the counter inside one wait. */
  function Total(delays: seq<nat>): nat {
    if delays == [] then 0 else Total(delays[..|delays| - 1]) + delays[|delays| - 1]
  }

  /** Every reading up to the first past the step is after the clock, by less than a wrap of
      the counter, and there is such a reading. lag is how far the time is ahead already. */
  predicate TimePasses(delays: seq<nat>, step: nat, lag: nat) {
    && lag + Total(delays) > step
    && forall i :: 0 <= i < |delays| && lag + Total(delays[..i]) <= step ==> 1 <= lag + Total(delays[..i + 1]) < WRAP
  }

  /** Within a step the wrapped counter tells how far the time is ahead of the clock. */
  lemma LagShown(clock: nat, now: nat, step: u64)
    requires clock <= now <= clock + step
    ensures Difference(Wrap(now), Wrap(clock)) == now - clock
  {
    WrapMinus(now, clock);
    WrapNear(now - clock);
  }

  class GameLoop {
    const clock: TscClock
    var tscStart: u64
    var sleepUsec: nat
    var frame: nat
    var pauseFrame: nat
    var stallFrame: nat
    var running: bool
    var inputQueue: nat
    var inputQueueMax: nat
    ghost var trueStart: nat  // tscStart before wrapping
    var now: nat              // the true time, which rdtsc shows wrapped

    ghost function Repr(): set<object> { {this, clock} }

    ghost function Waits(): nat
      reads this`frame, this`pauseFrame, this`stallFrame
    {
      frame + pauseFrame + stallFrame
    }

    /** The clock is never more than a step behind, and has moved a step for every counted
        frame and one more for every jerk; without jerks it has moved exactly that far. */
    ghost predicate Ticking()
      reads this`frame, this`pauseFrame, this`stallFrame, this`tscStart, this`trueStart, this`now, clock
    {
      && clock.Valid() && tscStart == Wrap(trueStart)
      && trueStart <= clock.trueClock <= now <= clock.trueClock + clock.tscStep
      && (Waits() + clock.jerk) * clock.tscStep <= clock.trueClock - trueStart <= now - trueStart
      && (clock.jerk == 0 ==> clock.trueClock == trueStart + Waits() * clock.tscStep)
    }

    ghost predicate Passes(delays: seq<nat>)
      reads this`now, clock
    {
      clock.trueClock <= now && TimePasses(delays, clock.tscStep, now - clock.trueClock)
    }

    /** Passes, decided on the counter as the hardware shows it. */
    method WillPass(delays: seq<nat>) returns (ok: bool)
      requires Ticking()
      ensures ok == Passes(delays)
    {
      LagShown(clock.trueClock, now, clock.tscStep);
      ok := TimePasses(delays, clock.tscStep, Difference(Wrap(now), clock.tscClock));
    }

    constructor ()
      ensures fresh(clock) && !running
      ensures frame == pauseFrame == stallFrame == inputQueue == inputQueueMax == 0
    {
      clock := new TscClock();
      tscStart, sleepUsec, trueStart, now := 0, 0, 0, 0;
      frame, pauseFrame, stallFrame, inputQueue, inputQueueMax := 0, 0, 0, 0, 0;
      running := false;
    }

    /** loop_init */
    method Init(framerate: nat, tscPerUsec: u64, time: nat)
      requires 1 <= framerate <= 255 && tscPerUsec >= 1 && 1_000_000 / framerate * tscPerUsec < WRAP
      modifies Repr()
      ensures Ticking() && clock.jerk == 0 && trueStart == now == time
      ensures frame == pauseFrame == stallFrame == 0 && running
      ensures inputQueue == inputQueueMax == framerate
      ensures clock.goal == 1_000_000 / framerate && clock.medianTscPerUsec == tscPerUsec
    {
      clock.Init(1_000_000 / framerate, tscPerUsec, time);
      tscStart := clock.tscClock;
      trueStart, now := time, time;
      frame, pauseFrame, stallFrame := 0, 0, 0;
      running := true;
      inputQueueMax := framerate;
      inputQueue := inputQueueMax;
    }

    /** The loop in loop_one: read the clock until it says the frame is over. */
    method Wait(delays: seq<nat>)
      requires clock.Valid() && clock.trueClock <= now <= clock.trueClock + clock.tscStep
      requires Passes(delays)
      modifies this`now, this`sleepUsec, clock
      ensures clock.Valid() && clock.tscStep == old(clock.tscStep)
      ensures clock.trueClock <= now <= clock.trueClock + clock.tscStep
      ensures old(clock.trueClock) + clock.tscStep < now
      ensures || (clock.jerk == old(clock.jerk) && clock.trueClock == old(clock.trueClock) + clock.tscStep)
              || (clock.jerk == old(clock.jerk) + 1 && clock.trueClock > old(clock.trueClock) + 2 * clock.tscStep)
    {
      ghost var start := now;
      assert delays[..|delays|] == delays;
      var i := 0;
      while i < |delays|
        invariant i <= |delays| && now == start + Total(delays[..i])
        invariant clock.Valid() && clock.tscStep == old(clock.tscStep)
        invariant clock.trueClock == old(clock.trueClock) && clock.jerk == old(clock.jerk)
        invariant clock.trueClock <= now <= clock.trueClock + clock.tscStep
      {
        assert delays[..i + 1][..i] == delays[..i];
        var ok, usec := clock.Sync(now + delays[i]);
        now, i := now + delays[i], i + 1;
        if ok { return; }
        sleepUsec := usec;
      }
      assert false;
    }

    lemma OneMore(n: nat, step: nat)
      ensures (n + 1) * step == n * step + step && (n + 2) * step == n * step + 2 * step
    {
    }

    /** loop_sync */
    method Sync(delays: seq<nat>)
      requires Ticking() && Passes(delays)
      modifies this`frame, this`now, this`sleepUsec, clock
      ensures Ticking() && frame == old(frame) + 1 && clock.tscStep == old(clock.tscStep)
    {
      OneMore(Waits() + clock.jerk, clock.tscStep);
      OneMore(Waits(), clock.tscStep);
      frame := frame + 1;
      Wait(delays);
    }

    /** loop_pause */
    method Pause(delays: seq<nat>)
      requires Ticking() && Passes(delays)
      modifies this`pauseFrame, this`now, this`sleepUsec, clock
      ensures Ticking() && pauseFrame == old(pauseFrame) + 1 && clock.tscStep == old(clock.tscStep)
    {
      OneMore(Waits() + clock.jerk, clock.tscStep);
      OneMore(Waits(), clock.tscStep);
      pauseFrame := pauseFrame + 1;
      Wait(delays);
    }

    /** loop_stall */
    method Stall(delays: seq<nat>)
      requires Ticking() && Passes(delays)
      modifies this`stallFrame, this`now, this`sleepUsec, clock
      ensures Ticking() && stallFrame == old(stallFrame) + 1 && clock.tscStep == old(clock.tscStep)
    {
      OneMore(Waits() + clock.jerk, clock.tscStep);
      OneMore(Waits(), clock.tscStep);
      stallFrame := stallFrame + 1;
      Wait(delays);
    }

    /** The end of a turn in game_simulation: pause once the goal is reached, else sync. */
    method Finish(goal: nat, delays: seq<nat>)
      requires Ticking() && Passes(delays)
      modifies this`frame, this`pauseFrame, this`now, this`sleepUsec, clock
      ensures Ticking() && clock.tscStep == old(clock.tscStep)
      ensures frame == old(frame) + if goal <= old(frame) then 0 else 1
      ensures pauseFrame == old(pauseFrame) + if goal <= old(frame) then 1 else 0
    {
      if goal <= frame {
        Pause(delays);
      } else {
        Sync(delays);
      }
    }

    /** loop_write_frame */
    function WriteFrame(): nat
      reads this`frame, this`pauseFrame, this`inputQueue
    {
      frame + pauseFrame + inputQueue
    }

    /** loop_halt */
    method Halt()
      modifies this`running
      ensures !running
    {
      running := false;
    }
  }
}
