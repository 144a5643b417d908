/** Projecting an easing curve onto its travel (`MonotonicEasing`, src/core/animation.cpp), over the reals. */
module MonotonicEasing {
  import opened Reals

  const SAMPLE_COUNT: nat := 512
  const EPSILON: real := 0.0000000000000002220446049250313

  // ---------------------------------------------------------------- what the table holds

  function Sample(curve: real -> real, i: nat): real {
    if i == 0 then 0.0 else if i >= SAMPLE_COUNT then 1.0 else curve(i as real / SAMPLE_COUNT as real)
  }

  /** The distance the curve covers over its first `i` samples, back and forth. */
  function Travel(curve: real -> real, i: nat): (travel: real)
    ensures travel >= 0.0
  {
    if i == 0 then 0.0 else Travel(curve, i - 1) + Abs(Sample(curve, i) - Sample(curve, i - 1))
  }

  /** The share of the whole distance that is covered after `i` samples. */
  function Share(curve: real -> real, i: nat): real
    requires Travel(curve, SAMPLE_COUNT) > 0.0
  {
    Travel(curve, i) / Travel(curve, SAMPLE_COUNT)
  }

  /** The samples already run from 0 to 1 in one direction. */
  ghost predicate Settled(curve: real -> real) {
    forall i | 0 < i <= SAMPLE_COUNT :: 0.0 <= Sample(curve, i) <= 1.0 && Sample(curve, i - 1) <= Sample(curve, i)
  }

  lemma {:induction false} TravelGrows(curve: real -> real, i: nat, j: nat)
    requires i <= j
    ensures Travel(curve, j) - Travel(curve, i) >= Abs(Sample(curve, j) - Sample(curve, i))
    decreases j
  {
    if i == j {
    } else {
      TravelGrows(curve, i, j - 1);
    }
  }

  /** The distance is at least as long as any excursion, so it is never too short to divide by. */
  lemma TravelCoversEverySample(curve: real -> real, i: nat)
    requires i <= SAMPLE_COUNT
    ensures Travel(curve, SAMPLE_COUNT) >= 1.0
    ensures Travel(curve, SAMPLE_COUNT) >= Abs(Sample(curve, i))
  {
    assert Travel(curve, 0) == 0.0 && Sample(curve, 0) == 0.0 && Sample(curve, SAMPLE_COUNT) == 1.0;
    hide Travel, Sample;
    TravelGrows(curve, 0, SAMPLE_COUNT);
    TravelGrows(curve, 0, i);
    TravelGrows(curve, i, SAMPLE_COUNT);
  }

  lemma ShareBounds(curve: real -> real, i: nat, j: nat)
    requires i <= j <= SAMPLE_COUNT
    ensures Travel(curve, SAMPLE_COUNT) >= 1.0
    ensures 0.0 <= Share(curve, i) <= Share(curve, j) <= 1.0
  {
    TravelCoversEverySample(curve, 0);
    TravelGrows(curve, i, j);
    TravelGrows(curve, j, SAMPLE_COUNT);
    Quotients(Travel(curve, i), Travel(curve, j), Travel(curve, SAMPLE_COUNT));
  }

  lemma ShareEnds(curve: real -> real)
    ensures Travel(curve, SAMPLE_COUNT) >= 1.0
    ensures Share(curve, 0) == 0.0 && Share(curve, SAMPLE_COUNT) == 1.0
  {
    TravelCoversEverySample(curve, 0);
    Quotients(0.0, 0.0, Travel(curve, SAMPLE_COUNT));
  }

  /** Projecting a curve that needs no projection changes none of its samples. */
  lemma {:induction false} SettledCurvesAreKept(curve: real -> real, i: nat)
    requires Settled(curve) && i <= SAMPLE_COUNT
    ensures Travel(curve, i) == Sample(curve, i)
  {
    if i == 0 {
    } else {
      SettledCurvesAreKept(curve, i - 1);
    }
  }

  // ---------------------------------------------------------------- reading the table

  /** The table read at `linear`, straight between neighbouring entries. */
  function Interpolated(table: seq<real>, linear: real): real
    requires |table| == SAMPLE_COUNT + 1 && 0.0 <= linear < 1.0
  {
    Point(table, linear * SAMPLE_COUNT as real)
  }

  function Point(table: seq<real>, sample: real): real
    requires |table| == SAMPLE_COUNT + 1 && 0.0 <= sample < SAMPLE_COUNT as real
  {
    var lower := sample.Floor;
    var fraction := sample - lower as real;
    Lerp(table[lower], table[lower + 1], fraction)
  }

  function Lerp(a: real, b: real, f: real): real {
    a + f * (b - a)
  }

  ghost predicate Rises(table: seq<real>) {
    && |table| == SAMPLE_COUNT + 1
    && table[0] == 0.0 && table[SAMPLE_COUNT] == 1.0
    && forall i, j | 0 <= i <= j <= SAMPLE_COUNT :: table[i] <= table[j]
  }

  lemma Between(a: real, b: real, f: real, g: real)
    requires a <= b && 0.0 <= f <= g <= 1.0
    ensures a <= Lerp(a, b, f) <= Lerp(a, b, g) <= b
  {
    Product(f, b - a);
    Product(g - f, b - a);
    Product(1.0 - g, b - a);
  }

  lemma PointsRise(table: seq<real>, s: real, t: real)
    requires Rises(table) && 0.0 <= s <= t < SAMPLE_COUNT as real
    ensures 0.0 <= Point(table, s) <= Point(table, t) <= 1.0
  {
    var i, j := s.Floor, t.Floor;
    PiecesRise(table, i, s - i as real, j, t - j as real);
  }

  lemma PiecesRise(table: seq<real>, i: nat, f: real, j: nat, g: real)
    requires Rises(table) && i <= j < SAMPLE_COUNT && 0.0 <= f < 1.0 && 0.0 <= g < 1.0
    requires i == j ==> f <= g
    ensures 0.0 <= Lerp(table[i], table[i + 1], f) <= Lerp(table[j], table[j + 1], g) <= 1.0
  {
    hide Lerp;
    var a, b, c, d := table[i], table[i + 1], table[j], table[j + 1];
    assert table[0] <= a <= b && c <= d <= table[SAMPLE_COUNT];
    Between(a, b, f, f);
    Between(c, d, g, g);
    if i == j {
      Between(a, b, f, g);
    } else {
      assert b <= c;
    }
  }

  lemma InterpolationRises(table: seq<real>, x: real, y: real)
    requires Rises(table) && 0.0 <= x <= y < 1.0
    ensures 0.0 <= Interpolated(table, x) <= Interpolated(table, y) <= 1.0
  {
    PointsRise(table, x * SAMPLE_COUNT as real, y * SAMPLE_COUNT as real);
  }

  // ---------------------------------------------------------------- the class

  function Linear(x: real): real {
    x
  }

  class Easing {
    var curve: real -> real
    var direct: bool
    const progress: array<real>

    ghost predicate Valid()
      reads this, progress
    {
      && progress.Length == SAMPLE_COUNT + 1
      && (!direct ==> Rises(progress[..]))
    }

    constructor ()
      ensures Valid() && fresh(progress)
      ensures direct && curve == Linear
    {
      curve, direct := Linear, true;
      progress := new real[SAMPLE_COUNT + 1];
    }

    method Reset(newCurve: real -> real)
      requires Valid()
      modifies this, progress
      ensures Valid() && curve == newCurve
      ensures direct <==> Settled(newCurve)
      ensures Travel(newCurve, SAMPLE_COUNT) >= 1.0
      ensures !direct ==> forall i | 0 <= i <= SAMPLE_COUNT :: progress[i] == Share(newCurve, i)
      ensures direct ==> progress[..] == old(progress[..])
    {
      TravelCoversEverySample(newCurve, 0);
      curve := newCurve;
      var raw := new real[SAMPLE_COUNT + 1];
      direct := TakeSamples(newCurve, raw);
      if direct {
        return;
      }
      var scale := Scale(newCurve, raw);
      var total := Accumulate(newCurve, raw, scale);
      TotalIsLarge(Travel(newCurve, SAMPLE_COUNT), scale);
      // The distance always exceeds the threshold below which the source falls back to a straight line.
      assert total > EPSILON;
      Normalize(newCurve, scale, total);
    }

    method Accumulate(newCurve: real -> real, raw: array<real>, scale: real) returns (total: real)
      requires progress.Length == SAMPLE_COUNT + 1 && raw != progress
      requires raw.Length == SAMPLE_COUNT + 1 && scale > 0.0
      requires forall i | 0 <= i <= SAMPLE_COUNT :: raw[i] == Sample(newCurve, i)
      modifies progress
      ensures forall i | 0 <= i <= SAMPLE_COUNT :: progress[i] == Scaled(newCurve, i, scale)
      ensures total == Scaled(newCurve, SAMPLE_COUNT, scale)
    {
      progress[0] := 0.0;
      hide Abs, Sample;
      for i := 1 to SAMPLE_COUNT + 1
        modifies progress
        invariant forall k | 0 <= k < i :: progress[k] == Scaled(newCurve, k, scale)
      {
        hide Scaled;
        var delta := Abs(raw[i] / scale - raw[i - 1] / scale);
        ScaledStep(newCurve, i, scale);
        progress[i] := progress[i - 1] + delta;
      }
      total := progress[SAMPLE_COUNT];
    }

    method Normalize(newCurve: real -> real, scale: real, total: real)
      requires progress.Length == SAMPLE_COUNT + 1 && scale > 0.0
      requires Travel(newCurve, SAMPLE_COUNT) > 0.0 && total == Scaled(newCurve, SAMPLE_COUNT, scale) > 0.0
      requires forall i | 0 <= i <= SAMPLE_COUNT :: progress[i] == Scaled(newCurve, i, scale)
      modifies progress
      ensures Rises(progress[..])
      ensures forall i | 0 <= i <= SAMPLE_COUNT :: progress[i] == Share(newCurve, i)
    {
      hide Scaled, Travel;
      for i := 0 to SAMPLE_COUNT + 1
        modifies progress
        invariant forall k | 0 <= k < i :: progress[k] == Share(newCurve, k)
        invariant forall k | i <= k <= SAMPLE_COUNT :: progress[k] == Scaled(newCurve, k, scale)
      {
        ScaledShare(newCurve, i, SAMPLE_COUNT, scale);
        progress[i] := progress[i] / total;
      }
      ShareEnds(newCurve);
      progress[0] := 0.0;
      progress[SAMPLE_COUNT] := 1.0;
      forall i, j | 0 <= i <= j <= SAMPLE_COUNT
        ensures progress[i] <= progress[j]
      {
        ShareBounds(newCurve, i, j);
      }
    }

    /** The eased progress at `linearProgress`. */
    function Value(linearProgress: real): (value: real)
      requires Valid()
      reads this, progress
      ensures 0.0 <= value <= 1.0
    {
      var linear := Clamp(linearProgress, 0.0, 1.0);
      if linear <= 0.0 then 0.0
      else if linear >= 1.0 then 1.0
      else if direct then Clamp(curve(linear), 0.0, 1.0)
      else InterpolationRises(progress[..], linear, linear); Interpolated(progress[..], linear)
    }
  }

  function Scaled(curve: real -> real, i: nat, scale: real): real
    requires scale > 0.0
  {
    Travel(curve, i) / scale
  }

  lemma ScaledStep(curve: real -> real, i: nat, scale: real)
    requires scale > 0.0 && i > 0
    ensures Scaled(curve, i, scale)
         == Scaled(curve, i - 1, scale) + Abs(Sample(curve, i) / scale - Sample(curve, i - 1) / scale)
  {
    var a, b := Sample(curve, i), Sample(curve, i - 1);
    assert Travel(curve, i) == Travel(curve, i - 1) + Abs(a - b);
    hide Travel, Sample;
    ScalingCancels(a, b, scale);
    Sum(Travel(curve, i - 1), Abs(a - b), scale);
  }

  lemma Sum(a: real, b: real, scale: real)
    requires scale > 0.0
    ensures (a + b) / scale == a / scale + b / scale
  {
  }

  lemma ScalingCancels(a: real, b: real, scale: real)
    requires scale > 0.0
    ensures Abs(a / scale - b / scale) == Abs(a - b) / scale
  {
    Difference(a, b, scale);
  }

  lemma ScaledShare(curve: real -> real, i: nat, n: nat, scale: real)
    requires scale > 0.0 && Travel(curve, n) > 0.0 && Scaled(curve, n, scale) > 0.0
    ensures Scaled(curve, i, scale) / Scaled(curve, n, scale) == Travel(curve, i) / Travel(curve, n)
  {
    CommonDivisor(Travel(curve, i), Travel(curve, n), scale);
  }

  lemma CommonDivisor(a: real, b: real, scale: real)
    requires b > 0.0 && scale > 0.0 && b / scale > 0.0
    ensures (a / scale) / (b / scale) == a / b
  {
  }

  lemma TotalIsLarge(travel: real, scale: real)
    requires 0.0 < scale <= travel
    ensures travel / scale >= 1.0
  {
    Difference(travel, scale, scale);
    assert scale / scale == 1.0;
  }

  method TakeSamples(curve: real -> real, raw: array<real>) returns (direct: bool)
    requires raw.Length == SAMPLE_COUNT + 1
    modifies raw
    ensures forall i | 0 <= i <= SAMPLE_COUNT :: raw[i] == Sample(curve, i)
    ensures direct <==> Settled(curve)
  {
    raw[0], raw[SAMPLE_COUNT] := 0.0, 1.0;
    direct := true;
    var previous := raw[0];
    for i := 1 to SAMPLE_COUNT
      invariant raw[SAMPLE_COUNT] == 1.0
      invariant forall k | 0 <= k < i :: raw[k] == Sample(curve, k)
      invariant previous == raw[i - 1]
      invariant direct <==>
        forall k | 0 < k < i :: 0.0 <= Sample(curve, k) <= 1.0 && Sample(curve, k - 1) <= Sample(curve, k)
    {
      var current := curve(i as real / SAMPLE_COUNT as real);
      raw[i] := current;
      if current < previous || current < 0.0 || current > 1.0 {
        direct := false;
      }
      previous := current;
    }
    if raw[SAMPLE_COUNT] < previous {
      direct := false;
    }
  }

  /** The largest magnitude among the samples, so no difference between them can overflow. */
  method Scale(curve: real -> real, raw: array<real>) returns (scale: real)
    requires raw.Length == SAMPLE_COUNT + 1
    requires forall i | 0 <= i <= SAMPLE_COUNT :: raw[i] == Sample(curve, i)
    ensures 1.0 <= scale <= Travel(curve, SAMPLE_COUNT)
    ensures forall i | 0 <= i <= SAMPLE_COUNT :: Abs(raw[i]) <= scale
  {
    hide Travel, Sample;
    scale := 1.0;
    TravelCoversEverySample(curve, 0);
    for i := 0 to SAMPLE_COUNT + 1
      invariant 1.0 <= scale <= Travel(curve, SAMPLE_COUNT)
      invariant forall k | 0 <= k < i :: Abs(raw[k]) <= scale
    {
      TravelCoversEverySample(curve, i);
      scale := Max(scale, Abs(raw[i]));
    }
  }

  /** Whatever the curve, the projected progress never falls, stays in [0, 1] and is exact at both ends. */
  lemma ValueNeverFalls(easing: Easing, x: real, y: real)
    requires easing.Valid() && !easing.direct && x <= y
    ensures 0.0 <= easing.Value(x) <= easing.Value(y) <= 1.0
    ensures x <= 0.0 ==> easing.Value(x) == 0.0
    ensures y >= 1.0 ==> easing.Value(y) == 1.0
  {
    var a, b := Clamp(x, 0.0, 1.0), Clamp(y, 0.0, 1.0);
    if a < 1.0 && b < 1.0 {
      InterpolationRises(easing.progress[..], a, b);
    } else if a < 1.0 {
      InterpolationRises(easing.progress[..], a, a);
    }
  }

  /** At a sample the projected progress is exactly the share of the distance covered so far. */
  lemma ValueIsShareOfTravel(easing: Easing, i: nat)
    requires easing.Valid() && !easing.direct && i <= 512
    ensures easing.Value(i as real / 512.0) == easing.progress[i]
  {
    var linear := i as real / SAMPLE_COUNT as real;
    if 0 < i < SAMPLE_COUNT {
      assert linear * SAMPLE_COUNT as real == i as real;
      assert 0.0 < linear < 1.0;
    }
  }

  /** Between two samples it goes straight from one to the other. */
  lemma StraightBetweenSamples(easing: Easing, i: nat, x: real)
    requires easing.Valid() && !easing.direct && i < 512 && 0.0 < x < 1.0 && i as real <= x * 512.0 < i as real + 1.0
    ensures easing.Value(x) - easing.progress[i]
         == (x * 512.0 - i as real) * (easing.progress[i + 1] - easing.progress[i])
  {
    assert (x * 512.0).Floor == i;
  }

  /** A curve that needs no projection is used as it is wherever it keeps to the unit interval. */
  lemma DirectCurvesAreUsed(easing: Easing, x: real)
    requires easing.Valid() && easing.direct && 0.0 < x < 1.0
    ensures 0.0 <= easing.curve(x) <= 1.0 ==> easing.Value(x) == easing.curve(x)
    ensures easing.curve(x) < 0.0 ==> easing.Value(x) == 0.0
    ensures easing.curve(x) > 1.0 ==> easing.Value(x) == 1.0
  {
  }
}
