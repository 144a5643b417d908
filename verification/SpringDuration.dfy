/** Bracketing the time a spring needs to settle (`springDurationMs`, src/core/animation.cpp). */
module SpringDuration {
  import opened Reals

  const SETTLE_EPSILON: real := 0.0001
  const MIN_MS: int := 1
  const MAX_MS: int := 10000
  const MAX_SECONDS: real := 10.0
  const HALVINGS: nat := 40

  /** The remaining energy of the unit step never grows; the solver itself is not part of this model. */
  ghost predicate Decays(remaining: real -> real) {
    forall a, b | 0.0 <= a <= b :: remaining(b) <= remaining(a)
  }

  /** `settled` is at rest, and no more than the last halving after a moment that is not (or after the start). */
  ghost predicate Brackets(remaining: real -> real, unsettled: real, settled: real) {
    && 0.0 <= unsettled < settled <= MAX_SECONDS
    && remaining(settled) <= SETTLE_EPSILON
    && (unsettled == 0.0 || remaining(unsettled) > SETTLE_EPSILON)
    && settled - unsettled <= MAX_SECONDS * HalfToThe(HALVINGS)
  }

  ghost predicate IsSettleTime(remaining: real -> real, duration: int) {
    || (duration == MAX_MS && remaining(MAX_SECONDS) > SETTLE_EPSILON)
    || exists unsettled, settled ::
         Brackets(remaining, unsettled, settled) && duration == Ceiling(settled * 1000.0)
  }

  method SpringDurationMs(remaining: real -> real, timescale: real) returns (duration: int)
    requires timescale > 0.0
    ensures 1 <= duration <= 10000
    ensures IsSettleTime(remaining, duration)
  {
    var settled := FirstSettled(remaining, timescale);
    duration := MAX_MS;
    if remaining(settled) <= SETTLE_EPSILON {
      var unsettled := 0.0;
      for i := 0 to HALVINGS
        invariant 0.0 <= unsettled < settled <= MAX_SECONDS
        invariant remaining(settled) <= SETTLE_EPSILON
        invariant unsettled == 0.0 || remaining(unsettled) > SETTLE_EPSILON
        invariant settled - unsettled <= MAX_SECONDS * HalfToThe(i)
      {
        var middle := 0.5 * (unsettled + settled);
        if remaining(middle) > SETTLE_EPSILON {
          unsettled := middle;
        } else {
          settled := middle;
        }
      }
      duration := Ceiling(settled * 1000.0);
      assert Brackets(remaining, unsettled, settled);
    }
    duration := if duration < MIN_MS then MIN_MS else if duration > MAX_MS then MAX_MS else duration;
  }

  /** Doubles from the spring's own timescale until it is at rest or the cap is reached. */
  method FirstSettled(remaining: real -> real, timescale: real) returns (settled: real)
    requires timescale > 0.0
    ensures 0.0 < settled <= MAX_SECONDS
    ensures remaining(settled) <= SETTLE_EPSILON || settled == MAX_SECONDS
  {
    settled := Min(MAX_SECONDS, timescale);
    ghost var doublings: nat := Ceiling(MAX_SECONDS / settled);
    assert settled * TwoToThe(doublings) >= MAX_SECONDS by {
      assert settled * (MAX_SECONDS / settled) == MAX_SECONDS;
    }
    while settled < MAX_SECONDS && remaining(settled) > SETTLE_EPSILON
      invariant 0.0 < settled <= MAX_SECONDS
      invariant settled == MAX_SECONDS || settled * TwoToThe(doublings) >= MAX_SECONDS
      decreases doublings
    {
      settled := Min(MAX_SECONDS, settled * 2.0);
      doublings := doublings - 1;
    }
  }

  /** From the reported duration on the spring is at rest; until little over a millisecond before it is not. */
  lemma DurationIsTight(remaining: real -> real, duration: int, seconds: real)
    requires Decays(remaining) && IsSettleTime(remaining, duration) && 0.0 <= seconds
    requires remaining(10.0) <= 0.0001
    ensures seconds * 1000.0 >= duration as real ==> remaining(seconds) <= 0.0001
    ensures duration > 1 && seconds * 1000.0 <= duration as real - 1.001 ==> remaining(seconds) > 0.0001
  {
    var unsettled, settled :| Brackets(remaining, unsettled, settled) && duration == Ceiling(settled * 1000.0);
    HalvingsAreFine();
    if seconds >= settled {
      assert remaining(seconds) <= remaining(settled);
    }
    if duration > MIN_MS && seconds * 1000.0 <= duration as real - 1.001 {
      assert seconds <= unsettled;
      assert remaining(unsettled) <= remaining(seconds);
    }
  }

  lemma HalvingsAreFine()
    ensures MAX_SECONDS * HalfToThe(HALVINGS) < 0.000001
  {
    TenHalvings(0);
    TenHalvings(10);
    TenHalvings(20);
    TenHalvings(30);
  }

  lemma TenHalvings(n: nat)
    ensures HalfToThe(n + 10) <= HalfToThe(n) / 1000.0
  {
    assert HalfToThe(n + 2) == HalfToThe(n) / 4.0;
    assert HalfToThe(n + 4) == HalfToThe(n + 2) / 4.0;
    assert HalfToThe(n + 6) == HalfToThe(n + 4) / 4.0;
    assert HalfToThe(n + 8) == HalfToThe(n + 6) / 4.0;
    assert HalfToThe(n + 10) == HalfToThe(n + 8) / 4.0;
  }
}
