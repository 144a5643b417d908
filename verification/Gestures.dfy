/** Gestures that settle on a step (`GesturePhysics`, src/input/gesture_physics.h), over the reals. */
module Gestures {
  import opened Reals

  const STIFFNESS: real := 0.5
  const LIMIT: real := 0.05

  // ---------------------------------------------------------------- the rubber band

  /** The share of its speed that travel keeps, squared below, `excess` past an end. */
  function Yield(excess: real, limit: real): (share: real)
    requires excess >= 0.0 && limit > 0.0
    ensures 0.0 < share <= 1.0
  {
    Denominator(excess, limit);
    1.0 / (1.0 + STIFFNESS * excess / limit)
  }

  lemma Denominator(excess: real, limit: real)
    requires excess >= 0.0 && limit > 0.0
    ensures 1.0 + STIFFNESS * excess / limit >= 1.0
    ensures 0.0 < 1.0 / (1.0 + STIFFNESS * excess / limit) <= 1.0
  {
    var d := STIFFNESS * excess / limit;
    assert d * limit == STIFFNESS * excess;
    if d < 0.0 {
      Positive(-d, limit);
    }
  }

  /** Extra steps past an end for `excess` steps of finger travel. */
  function Overscroll(excess: real, limit: real): real
    requires excess >= 0.0 && limit > 0.0
  {
    limit * (1.0 - Yield(excess, limit))
  }

  /** `std::copysign` for a magnitude that is zero whenever the sign is open. */
  function CopySign(magnitude: real, sign: real): real {
    if sign < 0.0 then -magnitude else magnitude
  }

  function RubberBand(position: real, minimum: real, maximum: real, limit: real): real
    requires minimum <= maximum && limit > 0.0
  {
    var clamped := Clamp(position, minimum, maximum);
    clamped + CopySign(Overscroll(Abs(position - clamped), limit), position - clamped)
  }

  function RubberBandDerivative(position: real, minimum: real, maximum: real, limit: real): real
    requires minimum <= maximum && limit > 0.0
  {
    if minimum <= position <= maximum then 1.0
    else
      var excess := Abs(position - Clamp(position, minimum, maximum));
      var denominator := 1.0 + STIFFNESS * excess / limit;
      Denominator(excess, limit);
      Positive(denominator, denominator);
      STIFFNESS / (denominator * denominator)
  }

  // ---------------------------------------------------------------- one end

  /** The slope of the band where travel yields `y`. */
  function SlopeAt(y: real): real {
    STIFFNESS * y * y
  }

  lemma DerivativeIsYieldSquared(excess: real, limit: real)
    requires excess >= 0.0 && limit > 0.0
    ensures var denominator := 1.0 + STIFFNESS * excess / limit;
      denominator * denominator > 0.0
      && STIFFNESS / (denominator * denominator) == SlopeAt(Yield(excess, limit))
  {
    var d, y := 1.0 + STIFFNESS * excess / limit, Yield(excess, limit);
    Denominator(excess, limit);
    Positive(d, d);
    assert y * d == 1.0;
    assert STIFFNESS * y * y * (d * d) == STIFFNESS * ((y * d) * (y * d));
  }

  function Grown(travel: real, y: real, z: real): real {
    STIFFNESS * travel * y * z
  }

  /** The exact growth of the overscroll between two amounts of travel. */
  lemma Growth(a: real, b: real, limit: real)
    requires 0.0 <= a && 0.0 <= b && limit > 0.0
    ensures Overscroll(b, limit) - Overscroll(a, limit)
         == Grown(b - a, Yield(a, limit), Yield(b, limit))
  {
    var p, q := 1.0 + STIFFNESS * a / limit, 1.0 + STIFFNESS * b / limit;
    var y, z := Yield(a, limit), Yield(b, limit);
    Denominator(a, limit);
    Denominator(b, limit);
    assert y * p == 1.0 && z * q == 1.0;
    assert limit * (q - p) == STIFFNESS * (b - a) by {
      assert limit * (STIFFNESS * a / limit) == STIFFNESS * a;
      assert limit * (STIFFNESS * b / limit) == STIFFNESS * b;
    }
    assert y - z == (q - p) * y * z by {
      assert y * z * q == y && y * z * p == z;
    }
  }

  lemma YieldFalls(a: real, b: real, limit: real)
    requires 0.0 <= a < b && limit > 0.0
    ensures Yield(b, limit) < Yield(a, limit)
  {
    Denominator(a, limit);
    Denominator(b, limit);
    var p, q := STIFFNESS * a / limit, STIFFNESS * b / limit;
    assert p * limit == STIFFNESS * a && q * limit == STIFFNESS * b;
    if p >= q {
      Product(p - q, limit);
      assert false;
    }
    ReciprocalsFall(1.0 + p, 1.0 + q);
  }

  lemma ReciprocalsFall(p: real, q: real)
    requires 0.0 < p < q
    ensures 1.0 / q < 1.0 / p
  {
    var y, z := 1.0 / p, 1.0 / q;
    assert y * p == 1.0 && z * q == 1.0;
    if y <= z {
      Product(z - y, p);
      if z > 0.0 {
        Positive(z, q - p);
      } else {
        Product(-z, q);
      }
    }
  }

  /** Between any two amounts of travel past an end the average slope lies between the slopes at the two. */
  lemma GrowthBetweenSlopes(a: real, b: real, limit: real)
    requires 0.0 <= a < b && limit > 0.0
    ensures 0.0 < Overscroll(b, limit) - Overscroll(a, limit) <= STIFFNESS * (b - a)
    ensures Grown(b - a, Yield(b, limit), Yield(b, limit))
         <= Overscroll(b, limit) - Overscroll(a, limit)
         <= Grown(b - a, Yield(a, limit), Yield(a, limit))
  {
    Growth(a, b, limit);
    YieldFalls(a, b, limit);
    hide Yield, Overscroll, Grown;
    Ordered(b - a, Yield(a, limit), Yield(b, limit));
  }

  lemma Ordered(travel: real, y: real, z: real)
    requires travel > 0.0 && 0.0 < z < y <= 1.0
    ensures 0.0 < Grown(travel, y, z) <= STIFFNESS * travel
    ensures Grown(travel, z, z) <= Grown(travel, y, z) <= Grown(travel, y, y)
  {
    var w := STIFFNESS * travel;
    Positive(w, y);
    Positive(w * y, z);
    Positive(w, z);
    Product(w * z, y - z);
    Product(w * y, y - z);
    Product(w, 1.0 - y);
    Product(w * y, 1.0 - z);
  }

  // ---------------------------------------------------------------- the whole band

  predicate Inside(position: real, minimum: real, maximum: real) {
    minimum <= position <= maximum
  }

  function Excess(position: real, minimum: real, maximum: real): (excess: real)
    requires minimum <= maximum
    ensures excess >= 0.0
    ensures excess == 0.0 <==> Inside(position, minimum, maximum)
  {
    Abs(position - Clamp(position, minimum, maximum))
  }

  lemma BandInPieces(position: real, minimum: real, maximum: real, limit: real)
    requires minimum <= maximum && limit > 0.0
    ensures var band := RubberBand(position, minimum, maximum, limit);
      && (Inside(position, minimum, maximum) ==> band == position)
      && (position > maximum ==> band == maximum + Overscroll(position - maximum, limit))
      && (position < minimum ==> band == minimum - Overscroll(minimum - position, limit))
  {
    assert Yield(0.0, limit) == 1.0;
  }

  lemma OverscrollBounds(excess: real, limit: real)
    requires excess >= 0.0 && limit > 0.0
    ensures 0.0 <= Overscroll(excess, limit) < limit
    ensures Overscroll(excess, limit) <= STIFFNESS * excess
    ensures excess > 0.0 ==> Overscroll(excess, limit) > 0.0
  {
    var y := Yield(excess, limit);
    Positive(limit, y);
    assert Overscroll(excess, limit) == limit - limit * y;
    assert Overscroll(0.0, limit) == 0.0 by {
      assert Yield(0.0, limit) == 1.0;
    }
    if excess > 0.0 {
      GrowthBetweenSlopes(0.0, excess, limit);
    }
  }

  /** Inside the range nothing is damped, outside it the band stays strictly within `limit` of the range. */
  lemma BandStaysNearRange(position: real, minimum: real, maximum: real, limit: real)
    requires minimum <= maximum && limit > 0.0
    ensures var band := RubberBand(position, minimum, maximum, limit);
      && (band == position <==> Inside(position, minimum, maximum))
      && (Inside(band, minimum, maximum) <==> Inside(position, minimum, maximum))
      && Abs(band - Clamp(position, minimum, maximum)) < limit
      && Clamp(band, minimum, maximum) == Clamp(position, minimum, maximum)
  {
    BandInPieces(position, minimum, maximum, limit);
    OverscrollBounds(Excess(position, minimum, maximum), limit);
    hide Overscroll, RubberBand;
  }

  /** More travel always moves the content further, and never by more than the fingers. */
  lemma BandIncreases(p: real, q: real, minimum: real, maximum: real, limit: real)
    requires minimum <= maximum && limit > 0.0 && p < q
    ensures 0.0 < RubberBand(q, minimum, maximum, limit) - RubberBand(p, minimum, maximum, limit) <= q - p
  {
    hide Overscroll, RubberBand, Yield, Grown;
    BandInPieces(p, minimum, maximum, limit);
    BandInPieces(q, minimum, maximum, limit);
    OverscrollBounds(Excess(p, minimum, maximum), limit);
    OverscrollBounds(Excess(q, minimum, maximum), limit);
    if p > maximum {
      GrowthBetweenSlopes(p - maximum, q - maximum, limit);
    }
    if q < minimum {
      GrowthBetweenSlopes(minimum - q, minimum - p, limit);
    }
  }

  /** Past one end, the average slope between two positions lies between the derivatives at the two. */
  lemma SlopeBetweenDerivatives(p: real, q: real, minimum: real, maximum: real, limit: real)
    requires minimum <= maximum && limit > 0.0
    requires maximum < p < q || q < p < minimum
    ensures var rise := Abs(RubberBand(q, minimum, maximum, limit) - RubberBand(p, minimum, maximum, limit));
      RubberBandDerivative(q, minimum, maximum, limit) * Abs(q - p) <= rise
      <= RubberBandDerivative(p, minimum, maximum, limit) * Abs(q - p)
  {
    var a, b := Excess(p, minimum, maximum), Excess(q, minimum, maximum);
    RiseOutside(p, q, minimum, maximum, limit);
    DerivativeOutside(p, minimum, maximum, limit);
    DerivativeOutside(q, minimum, maximum, limit);
    hide Overscroll, RubberBand, RubberBandDerivative, Yield, SlopeAt, Grown, Excess, Abs;
    GrowthBetweenSlopes(a, b, limit);
    assert Grown(b - a, Yield(b, limit), Yield(b, limit)) == Grown(Abs(q - p), Yield(b, limit), Yield(b, limit));
    Regroup(RubberBandDerivative(p, minimum, maximum, limit), Abs(q - p), Yield(a, limit));
    Regroup(RubberBandDerivative(q, minimum, maximum, limit), Abs(q - p), Yield(b, limit));
  }

  lemma RiseOutside(p: real, q: real, minimum: real, maximum: real, limit: real)
    requires minimum <= maximum && limit > 0.0
    requires maximum < p < q || q < p < minimum
    ensures var a, b := Excess(p, minimum, maximum), Excess(q, minimum, maximum);
      && 0.0 < a < b && b - a == Abs(q - p)
      && Abs(RubberBand(q, minimum, maximum, limit) - RubberBand(p, minimum, maximum, limit))
         == Overscroll(b, limit) - Overscroll(a, limit)
  {
    hide RubberBand, Overscroll, Yield, Grown;
    var a, b := Excess(p, minimum, maximum), Excess(q, minimum, maximum);
    BandInPieces(p, minimum, maximum, limit);
    BandInPieces(q, minimum, maximum, limit);
    if maximum < p {
      assert a == p - maximum && b == q - maximum;
    } else {
      assert a == minimum - p && b == minimum - q;
    }
    GrowthBetweenSlopes(a, b, limit);
  }

  lemma DerivativeOutside(position: real, minimum: real, maximum: real, limit: real)
    requires minimum <= maximum && limit > 0.0 && !Inside(position, minimum, maximum)
    ensures var y := Yield(Excess(position, minimum, maximum), limit);
      RubberBandDerivative(position, minimum, maximum, limit) == SlopeAt(y)
  {
    DerivativeIsYieldSquared(Excess(position, minimum, maximum), limit);
  }

  lemma Regroup(slope: real, travel: real, y: real)
    requires slope == SlopeAt(y)
    ensures slope * travel == Grown(travel, y, y)
  {
  }

  /** The curve by its equation: past an end the band b for an excess e solves b (limit + e / 2) == limit e / 2. */
  lemma BandExactly(position: real, minimum: real, maximum: real, limit: real)
    requires minimum <= maximum && limit > 0.0
    ensures var band := RubberBand(position, minimum, maximum, limit);
      && (Inside(position, minimum, maximum) ==> band == position)
      && (position > maximum ==> OnCurve(position - maximum, band - maximum, limit))
      && (position < minimum ==> OnCurve(minimum - position, minimum - band, limit))
  {
    BandInPieces(position, minimum, maximum, limit);
    OverscrollOnCurve(Excess(position, minimum, maximum), limit);
    hide RubberBand, Overscroll, OnCurve;
  }

  predicate OnCurve(excess: real, band: real, limit: real) {
    band * (limit + excess / 2.0) == limit * (excess / 2.0)
  }

  lemma OverscrollOnCurve(excess: real, limit: real)
    requires excess >= 0.0 && limit > 0.0
    ensures OnCurve(excess, Overscroll(excess, limit), limit)
  {
    var y := Yield(excess, limit);
    YieldByLimit(excess, limit);
    assert limit * (1.0 - y) * (limit + excess / 2.0)
        == limit * (limit + excess / 2.0) - limit * (y * (limit + excess / 2.0));
    assert limit * (limit + excess / 2.0) - limit * limit == limit * (excess / 2.0);
  }

  lemma YieldByLimit(excess: real, limit: real)
    requires excess >= 0.0 && limit > 0.0
    ensures Yield(excess, limit) * (limit + excess / 2.0) == limit
  {
    var d, y := 1.0 + STIFFNESS * excess / limit, Yield(excess, limit);
    Denominator(excess, limit);
    assert y * d == 1.0;
    assert limit * d == limit + excess / 2.0;
    assert y * (limit * d) == limit * (y * d);
  }

  /** Likewise its slope: one within the range, and past an end s (limit + e / 2)^2 == limit^2 / 2. */
  lemma DerivativeExactly(position: real, minimum: real, maximum: real, limit: real)
    requires minimum <= maximum && limit > 0.0
    ensures var slope := RubberBandDerivative(position, minimum, maximum, limit);
      && (Inside(position, minimum, maximum) ==> slope == 1.0)
      && (position > maximum ==> SlopeOnCurve(position - maximum, slope, limit))
      && (position < minimum ==> SlopeOnCurve(minimum - position, slope, limit))
  {
    if !Inside(position, minimum, maximum) {
      var excess := Excess(position, minimum, maximum);
      DerivativeOutside(position, minimum, maximum, limit);
      SlopeSquared(excess, limit);
      hide RubberBandDerivative, SlopeAt, SlopeOnCurve, Yield;
    }
  }

  predicate SlopeOnCurve(excess: real, slope: real, limit: real) {
    slope * ((limit + excess / 2.0) * (limit + excess / 2.0)) == limit * limit / 2.0
  }

  lemma SlopeSquared(excess: real, limit: real)
    requires excess >= 0.0 && limit > 0.0
    ensures SlopeOnCurve(excess, SlopeAt(Yield(excess, limit)), limit)
  {
    var y, w := Yield(excess, limit), limit + excess / 2.0;
    YieldByLimit(excess, limit);
    assert SlopeAt(y) * (w * w) == STIFFNESS * ((y * w) * (y * w));
  }

  // ---------------------------------------------------------------- letting go

  /** What the tracker knows when the fingers lift, in its own units. */
  datatype Tracker = Tracker(pos: real, projectedEndPos: real, velocity: real)

  datatype StepRelease = StepRelease(target: int, position: real, velocity: real)

  function StepTarget(projected: real, minimum: int, maximum: int): (target: int)
    requires minimum <= maximum
    ensures minimum <= target <= maximum
  {
    Round(Clamp(projected, minimum as real, maximum as real))
  }

  /** The nearest step there is; halfway between two, the one further from zero. */
  lemma TargetIsNearest(projected: real, minimum: int, maximum: int, step: int)
    requires minimum <= step <= maximum
    ensures var target := StepTarget(projected, minimum, maximum);
      && Abs(projected - target as real) <= Abs(projected - step as real)
      && (Abs(projected - target as real) == Abs(projected - step as real) ==>
            target == step || Abs(target as real) > Abs(step as real))
  {
    var clamped := Clamp(projected, minimum as real, maximum as real);
    var target := StepTarget(projected, minimum, maximum);
    assert Abs(clamped - target as real) <= 0.5;
    assert step == target || step <= target - 1 || step >= target + 1;
  }

  /** A place `units` of tracker travel away from `origin`, in steps. */
  function Steps(origin: real, units: real, unitsPerStep: real): real
    requires unitsPerStep != 0.0
  {
    origin + units / unitsPerStep
  }

  function Carried(velocity: real, unitsPerStep: real, factor: real): real
    requires unitsPerStep != 0.0
  {
    velocity / unitsPerStep * factor
  }

  /** The bounds are the whole steps that exist. */
  function Release(tracker: Tracker, unitsPerStep: real, origin: real, minimum: int, maximum: int): StepRelease
    requires unitsPerStep != 0.0 && minimum <= maximum
  {
    var travelled := Steps(origin, tracker.pos, unitsPerStep);
    var position := RubberBand(travelled, minimum as real, maximum as real, LIMIT);
    var projected :=
      RubberBand(Steps(origin, tracker.projectedEndPos, unitsPerStep), minimum as real, maximum as real, LIMIT);
    StepRelease(
      StepTarget(projected, minimum, maximum),
      position,
      Carried(tracker.velocity, unitsPerStep,
              RubberBandDerivative(position, minimum as real, maximum as real, LIMIT)))
  }

  /** What is let go of in the tracker's own units: the damped place, and the speed its slope leaves. */
  lemma ReleaseExactly(tracker: Tracker, unitsPerStep: real, origin: real, minimum: int, maximum: int, travelled: real)
    requires unitsPerStep != 0.0 && minimum <= maximum
    requires travelled * unitsPerStep == origin * unitsPerStep + tracker.pos
    ensures var release := Release(tracker, unitsPerStep, origin, minimum, maximum);
      var low, high := minimum as real, maximum as real;
      && release.position == RubberBand(travelled, low, high, 0.05)
      && release.velocity * unitsPerStep == tracker.velocity * RubberBandDerivative(release.position, low, high, 0.05)
  {
    StepsExactly(travelled, origin, tracker.pos, unitsPerStep);
    var factor := RubberBandDerivative(RubberBand(travelled, minimum as real, maximum as real, LIMIT),
                                       minimum as real, maximum as real, LIMIT);
    CarriedExactly(tracker.velocity, unitsPerStep, factor);
    hide RubberBand, RubberBandDerivative, Steps, Carried;
  }

  lemma StepsExactly(place: real, origin: real, units: real, unitsPerStep: real)
    requires unitsPerStep != 0.0 && place * unitsPerStep == origin * unitsPerStep + units
    ensures Steps(origin, units, unitsPerStep) == place
  {
    assert (place - origin) * unitsPerStep == units;
  }

  lemma CarriedExactly(velocity: real, unitsPerStep: real, factor: real)
    requires unitsPerStep != 0.0
    ensures Carried(velocity, unitsPerStep, factor) * unitsPerStep == velocity * factor
  {
    var v := velocity / unitsPerStep;
    assert v * unitsPerStep == velocity;
    assert v * factor * unitsPerStep == (v * unitsPerStep) * factor;
  }

  /** Damping the projection does not change the step it lands on: the step nearest to where it would coast. */
  lemma DampingKeepsTheTarget(tracker: Tracker, unitsPerStep: real, origin: real, minimum: int, maximum: int,
                              rest: real)
    requires unitsPerStep != 0.0 && minimum <= maximum
    requires rest * unitsPerStep == origin * unitsPerStep + tracker.projectedEndPos
    ensures Release(tracker, unitsPerStep, origin, minimum, maximum).target == StepTarget(rest, minimum, maximum)
  {
    StepsExactly(rest, origin, tracker.projectedEndPos, unitsPerStep);
    BandStaysNearRange(rest, minimum as real, maximum as real, LIMIT);
    hide RubberBand, RubberBandDerivative, Steps, Carried;
  }

  /**
   * A release scales its speed by the derivative at the damped position, not at the finger travel that was damped.
   * That is the speed that was visible exactly when the fingers are within the range (or at rest); past an end the
   * factor is always larger than the visible one.
   */
  lemma CarriesVisibleSpeedExactly(tracker: Tracker, unitsPerStep: real, origin: real, minimum: int, maximum: int)
    requires unitsPerStep != 0.0 && minimum <= maximum
    ensures var travelled := Steps(origin, tracker.pos, unitsPerStep);
      var factor := RubberBandDerivative(travelled, minimum as real, maximum as real, LIMIT);
      var release := Release(tracker, unitsPerStep, origin, minimum, maximum);
      && (release.velocity == Carried(tracker.velocity, unitsPerStep, factor)
          <==> Inside(travelled, minimum as real, maximum as real) || tracker.velocity == 0.0)
      && RubberBandDerivative(release.position, minimum as real, maximum as real, LIMIT) >= factor
  {
    var low, high := minimum as real, maximum as real;
    var travelled := Steps(origin, tracker.pos, unitsPerStep);
    hide RubberBand, RubberBandDerivative, Steps, Carried;
    DampedFactor(travelled, low, high, LIMIT);
    SameProduct(tracker.velocity, unitsPerStep,
                RubberBandDerivative(RubberBand(travelled, low, high, LIMIT), low, high, LIMIT),
                RubberBandDerivative(travelled, low, high, LIMIT));
  }

  lemma SameProduct(velocity: real, units: real, f: real, g: real)
    requires units != 0.0
    ensures Carried(velocity, units, f) == Carried(velocity, units, g) <==> velocity == 0.0 || f == g
  {
    var v := velocity / units;
    assert v * units == velocity;
    if v * f == v * g {
      assert v * (f - g) == 0.0;
    }
  }

  lemma DampedFactor(position: real, minimum: real, maximum: real, limit: real)
    requires minimum <= maximum && limit > 0.0
    ensures var damped := RubberBandDerivative(RubberBand(position, minimum, maximum, limit), minimum, maximum, limit);
      var visible := RubberBandDerivative(position, minimum, maximum, limit);
      damped >= visible && (damped == visible <==> Inside(position, minimum, maximum))
  {
    BandStaysNearRange(position, minimum, maximum, limit);
    hide RubberBand, RubberBandDerivative;
    if !Inside(position, minimum, maximum) {
      DampedIsSteeper(position, minimum, maximum, limit);
    }
  }

  lemma DampedIsSteeper(position: real, minimum: real, maximum: real, limit: real)
    requires minimum <= maximum && limit > 0.0 && !Inside(position, minimum, maximum)
    ensures RubberBandDerivative(RubberBand(position, minimum, maximum, limit), minimum, maximum, limit)
          > RubberBandDerivative(position, minimum, maximum, limit)
  {
    var band := RubberBand(position, minimum, maximum, limit);
    var a, b := Excess(band, minimum, maximum), Excess(position, minimum, maximum);
    BandStaysNearRange(position, minimum, maximum, limit);
    BandInPieces(position, minimum, maximum, limit);
    OverscrollBounds(b, limit);
    DerivativeOutside(band, minimum, maximum, limit);
    DerivativeOutside(position, minimum, maximum, limit);
    hide RubberBand, RubberBandDerivative, Overscroll, Yield, SlopeAt;
    assert 0.0 < a < b;
    YieldFalls(a, b, limit);
    SquaresGrow(Yield(a, limit), Yield(b, limit));
  }

  lemma SquaresGrow(y: real, z: real)
    requires y > z > 0.0
    ensures SlopeAt(y) > SlopeAt(z)
  {
    Positive(y - z, y + z);
    assert (y - z) * (y + z) == y * y - z * z;
  }
}
