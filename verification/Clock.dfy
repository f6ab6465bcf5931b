/** platform_clock.c: the rhythmic clock over a wrapping 64-bit tick counter, checked
    against a true time that never wraps. */
module Clock {
  import opened Words

  /** __tscdelta_to_usec, with the product wrapped as the hardware does it. */
  function DeltaToUsec(usecPerTsc: u64, delta: u64): (usec: u64) {
    Wrap(delta * usecPerTsc) / 0x2_0000_0000
  }

  /** The fixed-point reciprocal of tsc_per_usec. */
  function Reciprocal(m: u64): u64
    requires m >= 1
  {
    0x2_0000_0000 / m
  }

  lemma MulLe(a: nat, b: nat, c: nat, d: nat)
    requires a <= b && c <= d
    ensures a * c <= b * d
  {
    assert b * d - a * c == (b - a) * d + a * (d - c);
  }

  lemma ReciprocalBounds(m: u64)
    requires m >= 1
    ensures Reciprocal(m) * m <= 0x2_0000_0000 < (Reciprocal(m) + 1) * m
  {
  }

  /** The product in the wait branch cannot overflow: it is below goal << 33. */
  lemma NoOverflow(goal: nat, m: u64, delta: u64)
    requires m >= 1 && 1 <= goal <= 1_000_000 && delta < goal * m
    ensures delta * Reciprocal(m) < goal * 0x2_0000_0000 < WRAP
  {
    ReciprocalBounds(m);
    var r := Reciprocal(m);
    var rm := r * m;
    MulLe(goal, goal, rm, 0x2_0000_0000);
    Regroup(goal, m, r);
    if r > 0 {
      MulLess(delta, goal * m, r);
    }
  }

  lemma Regroup(a: nat, b: nat, c: nat)
    ensures a * b * c == a * (c * b)
  {
  }

  lemma MulLess(a: nat, b: nat, k: nat)
    requires a < b && k > 0
    ensures a * k < b * k
  {
    assert b * k - a * k == (b - a) * k;
  }

  /** sleep microseconds fit into delta ticks, and fall short of them by less than
      1 + delta / 2^33 microseconds. */
  ghost predicate GoodSleep(sleep: nat, m: nat, delta: nat) {
    sleep * m <= delta && delta * 0x2_0000_0000 < (sleep + 1) * m * 0x2_0000_0000 + delta * m
  }

  /** The requested sleep never reaches past the next frame, is as long as the reciprocal's
      precision allows, and is always a legal tv_nsec. */
  lemma SleepArithmetic(goal: nat, m: u64, delta: u64)
    requires m >= 1 && 1 <= goal <= 1_000_000 && delta < goal * m
    ensures var sleep := DeltaToUsec(Reciprocal(m), delta);
            && GoodSleep(sleep, m, delta)
            && sleep <= goal - 1 && sleep * 1000 < 1_000_000_000
  {
    hide Reciprocal, DeltaToUsec;
    var r, sleep := Reciprocal(m), DeltaToUsec(Reciprocal(m), delta);
    ReciprocalBounds(m);
    SleepFloor(goal, m, delta);
    Overshoot(m, delta, r, sleep);
    Shortfall(m, delta, r, sleep);
    CancelMul(sleep, goal, m);
  }

  lemma SleepFloor(goal: nat, m: u64, delta: u64)
    requires m >= 1 && 1 <= goal <= 1_000_000 && delta < goal * m
    ensures var r, sleep := Reciprocal(m), DeltaToUsec(Reciprocal(m), delta);
            sleep * 0x2_0000_0000 <= delta * r < (sleep + 1) * 0x2_0000_0000
  {
    NoOverflow(goal, m, delta);
    TopBits(delta * Reciprocal(m));
  }

  /** A product that does not wrap is cut off below bit 33. */
  lemma TopBits(p: nat)
    requires p < WRAP
    ensures Wrap(p) / 0x2_0000_0000 * 0x2_0000_0000 <= p < (Wrap(p) / 0x2_0000_0000 + 1) * 0x2_0000_0000
  {
    WrapNear(p);
    Floor(p, 0x2_0000_0000);
  }

  lemma Floor(p: nat, k: nat)
    requires k > 0
    ensures p / k * k <= p < (p / k + 1) * k
  {
  }

  lemma CancelMul(a: nat, b: nat, m: nat)
    requires a * m < b * m
    ensures a < b
  {
  }

  lemma Overshoot(m: u64, delta: u64, r: nat, sleep: nat)
    requires r * m <= 0x2_0000_0000 && sleep * 0x2_0000_0000 <= delta * r
    ensures sleep * m <= delta
  {
    MulLe(sleep * 0x2_0000_0000, delta * r, m, m);
    MulLe(delta, delta, r * m, 0x2_0000_0000);
    assert delta * r * m == delta * (r * m);
    assert sleep * 0x2_0000_0000 * m == sleep * m * 0x2_0000_0000;
  }

  lemma Shortfall(m: u64, delta: u64, r: nat, sleep: nat)
    requires m >= 1
    requires 0x2_0000_0000 < (r + 1) * m && delta * r < (sleep + 1) * 0x2_0000_0000
    ensures delta * 0x2_0000_0000 < (sleep + 1) * m * 0x2_0000_0000 + delta * m
  {
    MulLe(delta, delta, 0x2_0000_0000, (r + 1) * m);
    assert delta * ((r + 1) * m) == delta * r * m + delta * m;
    assert delta * r * m < (sleep + 1) * 0x2_0000_0000 * m by {
      assert ((sleep + 1) * 0x2_0000_0000 - delta * r) * m > 0;
    }
    assert (sleep + 1) * 0x2_0000_0000 * m == (sleep + 1) * m * 0x2_0000_0000;
  }

  // ---- clock_sync

  datatype Branch = Wait | Advance | Jerk

  /** Unsigned subtraction. */
  function Difference(a: u64, b: u64): u64 {
    var x: int, y: int := a, b;
    Wrap(x - y)
  }

  /** The three-way branch, on wrapped values as the code compares them. */
  function Choose(step: u64, previous: u64, now: u64): Branch {
    var next := Wrap(previous + step);
    if Difference(next, now) < step then Wait
    else if Difference(now, next) <= step then Advance
    else Jerk
  }

  lemma WrapNear(x: int)
    ensures 0 <= x < WRAP ==> Wrap(x) == x
    ensures -WRAP <= x < 0 ==> Wrap(x) == x + WRAP
  {
  }

  lemma WrapMinus(a: int, b: int)
    ensures Wrap(Wrap(a) - Wrap(b)) == Wrap(a - b)
    ensures Wrap(Wrap(a) + b) == Wrap(a + b)
  {
    assert a == WRAP * (a / WRAP) + Wrap(a) && b == WRAP * (b / WRAP) + Wrap(b);
    var x: int, y: int := Wrap(a), Wrap(b);
    assert x - y == (a - b) + WRAP * (b / WRAP - a / WRAP);
    WrapShift(a - b, b / WRAP - a / WRAP);
    assert x + b == (a + b) + WRAP * (-(a / WRAP));
    WrapShift(a + b, -(a / WRAP));
  }

  /** What the comparisons mean in true time: wait up to and including the goal, advance up
      to a whole step late, and call anything later a jerk. The wrap never shows, except that
      a second reading in the same tick as the clock looks like a jerk. */
  lemma ChooseExact(step: u64, clock: nat, now: nat)
    requires step >= 1 && clock <= now < clock + WRAP
    ensures Choose(step, Wrap(clock), Wrap(now)) ==
            if now == clock then (if 2 * step >= WRAP then Advance else Jerk)
            else if now <= clock + step then Wait
            else if now <= clock + 2 * step then Advance
            else Jerk
  {
    hide Wrap;
    var next := clock + step;
    WrapMinus(clock, step);
    WrapMinus(next, now);
    WrapMinus(now, next);
    WrapNear(next - now);
    WrapNear(now - next);
  }

  lemma NextTick(step: u64, clock: nat, now: nat)
    requires clock <= now
    ensures Wrap(Wrap(clock) + step) == Wrap(clock + step)
    ensures now <= clock + step ==> Difference(Wrap(clock + step), Wrap(now)) == clock + step - now
  {
    WrapMinus(clock, step);
    WrapMinus(clock + step, now);
    WrapNear(clock + step - now);
  }

  class TscClock {
    var medianTscPerUsec: u64
    var medianUsecPerTsc: u64
    var tscStep: u64
    var jerk: nat  // a 64-bit count of at most one per frame
    var tscClock: u64
    var frameToFrameTsc: u64
    ghost var goal: nat       // the frame time in microseconds
    ghost var trueClock: nat  // tscClock before wrapping

    ghost predicate Valid()
      reads this
    {
      && 1 <= goal <= 1_000_000 && medianTscPerUsec >= 1
      && tscStep == goal * medianTscPerUsec >= 1
      && medianUsecPerTsc == Reciprocal(medianTscPerUsec)
      && tscClock == Wrap(trueClock)
    }

    constructor ()
    {
    }

    /** clock_init, given the calibration and the time. */
    method Init(frameGoalUsec: nat, tscPerUsec: u64, now: nat)
      requires 1 <= frameGoalUsec <= 1_000_000 && tscPerUsec >= 1 && frameGoalUsec * tscPerUsec < WRAP
      modifies this
      ensures Valid() && goal == frameGoalUsec && jerk == 0
      ensures trueClock == now && frameToFrameTsc == Wrap(now) && medianTscPerUsec == tscPerUsec
    {
      MulLe(1, frameGoalUsec, 1, tscPerUsec);
      medianTscPerUsec := tscPerUsec;
      tscStep := Wrap(frameGoalUsec * tscPerUsec);
      medianUsecPerTsc := 0x2_0000_0000 / tscPerUsec;
      jerk, tscClock, frameToFrameTsc := 0, Wrap(now), Wrap(now);
      goal, trueClock := frameGoalUsec, now;
    }

    /** clock_sync. The clock stays put until a step has passed, then moves by exactly one
        step, or to the present if it is over a step late. In the clock's own tick it does not
        wait either. */
    method Sync(now: nat) returns (ok: bool, sleepUsec: u64)
      requires Valid() && trueClock <= now < trueClock + WRAP
      modifies this`jerk, this`tscClock, this`frameToFrameTsc, this`trueClock
      ensures Valid()
      ensures ok <==> now > old(trueClock) + tscStep || now == old(trueClock)
      ensures !ok ==> trueClock == old(trueClock) && jerk == old(jerk) && frameToFrameTsc == old(frameToFrameTsc)
                      && GoodSleep(sleepUsec, medianTscPerUsec, old(trueClock) + tscStep - now)
                      && sleepUsec <= goal - 1 && sleepUsec * 1000 < 1_000_000_000
      ensures ok ==> frameToFrameTsc == Wrap(now)
      ensures ok && now > old(trueClock) ==> trueClock <= now <= trueClock + tscStep
      ensures ok && old(trueClock) < now <= old(trueClock) + 2 * tscStep ==>
                trueClock == old(trueClock) + tscStep && jerk == old(jerk)
      ensures now == old(trueClock) ==>
                if 2 * tscStep >= WRAP then trueClock == now + tscStep && jerk == old(jerk)
                else trueClock == now && jerk == old(jerk) + 1
      ensures now > old(trueClock) + 2 * tscStep ==> trueClock == now && jerk == old(jerk) + 1
    {
      var tscNow, tscPrevious := Wrap(now), tscClock;
      var tscNext := Wrap(tscPrevious + tscStep);
      ChooseExact(tscStep, trueClock, now);
      NextTick(tscStep, trueClock, now);
      sleepUsec := 0;
      match Choose(tscStep, tscPrevious, tscNow) {
        case Wait =>
          SleepArithmetic(goal, medianTscPerUsec, trueClock + tscStep - now);
          sleepUsec := DeltaToUsec(medianUsecPerTsc, Difference(tscNext, tscNow));
          return false, sleepUsec;
        case Advance =>
          tscClock, trueClock := tscNext, trueClock + tscStep;
        case Jerk =>
          tscClock, trueClock, jerk := tscNow, now, jerk + 1;
      }
      frameToFrameTsc := tscNow;
      ok := true;
    }
  }
}
