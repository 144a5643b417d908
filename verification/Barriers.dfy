/**
 Which capture barriers are accepted and when a pointer motion crosses one
 (src/input/input_capture_geometry.cpp). The specification speaks of pixels: a barrier edge
 separates a row of pixels inside one zone from a row that no zone covers.
 */
module Barriers {
  import opened Options

  datatype Zone = Zone(x: int, y: int, width: nat, height: nat) {
    predicate Covers(px: int, py: int) {
      x <= px < x + width && y <= py < y + height
    }

    /** The continuous extent of the zone. */
    predicate Holds(px: real, py: real) {
      x as real <= px < (x + width) as real && y as real <= py < (y + height) as real
    }
  }

  datatype Barrier = Barrier(id: nat, x1: int, y1: int, x2: int, y2: int) {
    predicate IsPoint() {
      x1 == x2 && y1 == y2
    }

    predicate Along(horizontal: bool) {
      if horizontal then y1 == y2 else x1 == x2
    }
  }

  /** `direction` points out of the zone: -1 up or left, 1 down or right. */
  datatype Edge = Edge(horizontal: bool, direction: int, coordinate: int, first: int, last: int)

  function Min(a: int, b: int): int {
    if a <= b then a else b
  }

  function Max(a: int, b: int): int {
    if a <= b then b else a
  }

  /** The edge a barrier describes once its orientation and outward direction are known. */
  function EdgeOf(b: Barrier, horizontal: bool, direction: int): Edge {
    if horizontal then Edge(true, direction, b.y1, Min(b.x1, b.x2), Max(b.x1, b.x2) + 1)
    else Edge(false, direction, b.x1, Min(b.y1, b.y2), Max(b.y1, b.y2) + 1)
  }

  // ---------------------------------------------------------------- the search, zone by zone

  predicate FitsHorizontally(z: Zone, b: Barrier) {
    && b.y1 == b.y2 && Min(b.x1, b.x2) >= z.x && Max(b.x1, b.x2) < z.x + z.width
    && (b.y1 == z.y || b.y1 == z.y + z.height)
  }

  predicate FitsVertically(z: Zone, b: Barrier) {
    && b.x1 == b.x2 && Min(b.y1, b.y2) >= z.y && Max(b.y1, b.y2) < z.y + z.height
    && (b.x1 == z.x || b.x1 == z.x + z.width)
  }

  function CandidateEdge(z: Zone, b: Barrier, verticalOnly: bool): Option<Edge> {
    if z.width == 0 || z.height == 0 then None
    else if !verticalOnly && FitsHorizontally(z, b) then Some(EdgeOf(b, true, if b.y1 == z.y then -1 else 1))
    else if FitsVertically(z, b) then Some(EdgeOf(b, false, if b.x1 == z.x then -1 else 1))
    else None
  }

  predicate CoveredBy(edge: Edge, other: Zone) {
    if other.width == 0 || other.height == 0 then false
    else
      var first := if edge.horizontal then other.x else other.y;
      var last := first + if edge.horizontal then other.width else other.height;
      if first >= edge.last || last <= edge.first then false
      else
        var near := if edge.horizontal then other.y else other.x;
        var far := near + if edge.horizontal then other.height else other.width;
        if edge.direction < 0 then near < edge.coordinate && far >= edge.coordinate
        else near <= edge.coordinate && far > edge.coordinate
  }

  predicate Covered(zones: seq<Zone>, edge: Edge) {
    exists other <- zones :: CoveredBy(edge, other)
  }

  function FirstExterior(left: seq<Zone>, zones: seq<Zone>, b: Barrier, verticalOnly: bool): Option<Edge> {
    if left == [] then None
    else
      var edge := CandidateEdge(left[0], b, verticalOnly);
      if edge.Some? && !Covered(zones, edge.value) then edge else FirstExterior(left[1..], zones, b, verticalOnly)
  }

  function ExteriorPass(zones: seq<Zone>, b: Barrier, verticalOnly: bool): Option<Edge> {
    if b.id == 0 || (b.x1 != b.x2 && b.y1 != b.y2) then None else FirstExterior(zones, zones, b, verticalOnly)
  }

  method ExteriorEdge(zones: seq<Zone>, b: Barrier, verticalOnly: bool) returns (edge: Option<Edge>)
    ensures edge == ExteriorPass(zones, b, verticalOnly)
  {
    if b.id == 0 || (b.x1 != b.x2 && b.y1 != b.y2) {
      return None;
    }
    for i := 0 to |zones|
      invariant ExteriorPass(zones, b, verticalOnly) == FirstExterior(zones[i..], zones, b, verticalOnly)
    {
      assert zones[i..][1..] == zones[i + 1..];
      edge := CandidateEdge(zones[i], b, verticalOnly);
      if edge.None? {
        continue;
      }
      if !Covered(zones, edge.value) {
        return;
      }
    }
    return None;
  }

  /** The edges a motion is checked against. */
  function EdgesTried(zones: seq<Zone>, b: Barrier): seq<Edge> {
    var first, second := ExteriorPass(zones, b, false), ExteriorPass(zones, b, true);
    (if first.Some? then [first.value] else []) + (if b.IsPoint() && second.Some? then [second.value] else [])
  }

  predicate ValidBarrier(zones: seq<Zone>, b: Barrier) {
    ExteriorPass(zones, b, false).Some? || (b.IsPoint() && ExteriorPass(zones, b, true).Some?)
  }

  // ---------------------------------------------------------------- what exterior means, in pixels

  predicate ZoneCoversInside(z: Zone, edge: Edge, s: int) {
    var row := if edge.direction < 0 then edge.coordinate else edge.coordinate - 1;
    if edge.horizontal then z.Covers(s, row) else z.Covers(row, s)
  }

  predicate ZoneCoversOutside(z: Zone, edge: Edge, s: int) {
    var row := if edge.direction < 0 then edge.coordinate - 1 else edge.coordinate;
    if edge.horizontal then z.Covers(s, row) else z.Covers(row, s)
  }

  /** One zone has every pixel just inside, and no zone has any pixel just outside. */
  ghost predicate Exterior(zones: seq<Zone>, b: Barrier, horizontal: bool, direction: int) {
    && b.id != 0 && b.Along(horizontal) && (direction == -1 || direction == 1)
    && var edge := EdgeOf(b, horizontal, direction);
       && (exists z <- zones :: forall s :: edge.first <= s < edge.last ==> ZoneCoversInside(z, edge, s))
       && (forall z <- zones, s | edge.first <= s < edge.last :: !ZoneCoversOutside(z, edge, s))
  }

  predicate Between(s: int, a: int, z: int) {
    a <= s <= z || z <= s <= a
  }

  predicate CoversPixel(zone: Zone, horizontal: bool, s: int, row: int) {
    if horizontal then zone.Covers(s, row) else zone.Covers(row, s)
  }

  /** The same, pixel by pixel of the barrier: the row on its line is inside of an upper or left edge, else outside. */
  lemma ExteriorByPixels(zones: seq<Zone>, b: Barrier, horizontal: bool, direction: int)
    ensures var line := if horizontal then b.y1 else b.x1;
      var a, z := if horizontal then b.x1 else b.y1, if horizontal then b.x2 else b.y2;
      var inside, outside := if direction < 0 then line else line - 1, if direction < 0 then line - 1 else line;
      Exterior(zones, b, horizontal, direction) <==>
        && b.id != 0 && (direction == -1 || direction == 1) && (if horizontal then b.y1 == b.y2 else b.x1 == b.x2)
        && (exists zone <- zones :: forall s :: Between(s, a, z) ==> CoversPixel(zone, horizontal, s, inside))
        && (forall zone <- zones, s | Between(s, a, z) :: !CoversPixel(zone, horizontal, s, outside))
  {
    var edge := EdgeOf(b, horizontal, direction);
    var a, z := if horizontal then b.x1 else b.y1, if horizontal then b.x2 else b.y2;
    var line := edge.coordinate;
    var inside, outside := if direction < 0 then line else line - 1, if direction < 0 then line - 1 else line;
    forall s ensures Between(s, a, z) <==> edge.first <= s < edge.last {
    }
    forall zone, s
      ensures ZoneCoversInside(zone, edge, s) <==> CoversPixel(zone, horizontal, s, inside)
      ensures ZoneCoversOutside(zone, edge, s) <==> CoversPixel(zone, horizontal, s, outside)
    {
    }
    hide ZoneCoversInside, ZoneCoversOutside, CoversPixel, Between;
    if zone :| zone in zones && forall s :: edge.first <= s < edge.last ==> ZoneCoversInside(zone, edge, s) {
      assert forall s :: Between(s, a, z) ==> CoversPixel(zone, horizontal, s, inside);
    }
    if zone :| zone in zones && forall s :: Between(s, a, z) ==> CoversPixel(zone, horizontal, s, inside) {
      assert forall s :: edge.first <= s < edge.last ==> ZoneCoversInside(zone, edge, s);
    }
  }

  lemma CoveredExactly(edge: Edge, z: Zone)
    requires edge.first < edge.last
    ensures CoveredBy(edge, z) <==> exists s :: edge.first <= s < edge.last && ZoneCoversOutside(z, edge, s)
  {
    if CoveredBy(edge, z) {
      var near := if edge.horizontal then z.x else z.y;
      assert ZoneCoversOutside(z, edge, Max(edge.first, near));
    }
  }

  lemma UncoveredExactly(zones: seq<Zone>, edge: Edge)
    requires edge.first < edge.last
    ensures !Covered(zones, edge) <==>
      forall z <- zones, s | edge.first <= s < edge.last :: !ZoneCoversOutside(z, edge, s)
  {
    forall z <- zones
      ensures CoveredBy(edge, z) <==> exists s :: edge.first <= s < edge.last && ZoneCoversOutside(z, edge, s)
    {
      CoveredExactly(edge, z);
    }
  }

  /** A zone whose candidate is uncovered makes that candidate exterior. */
  lemma CandidateIsExterior(zones: seq<Zone>, b: Barrier, z: Zone, verticalOnly: bool)
    requires z in zones && b.id != 0 && CandidateEdge(z, b, verticalOnly).Some?
    requires !Covered(zones, CandidateEdge(z, b, verticalOnly).value)
    ensures var edge := CandidateEdge(z, b, verticalOnly).value;
            edge == EdgeOf(b, edge.horizontal, edge.direction) && Exterior(zones, b, edge.horizontal, edge.direction)
  {
    var edge := CandidateEdge(z, b, verticalOnly).value;
    UncoveredExactly(zones, edge);
    assert forall s :: edge.first <= s < edge.last ==> ZoneCoversInside(z, edge, s);
  }

  /** A zone on whose boundary an exterior edge lies proposes that edge. */
  lemma ExteriorIsCandidate(zones: seq<Zone>, b: Barrier, horizontal: bool, direction: int) returns (k: nat)
    requires Exterior(zones, b, horizontal, direction)
    ensures k < |zones| && !Covered(zones, EdgeOf(b, horizontal, direction))
    ensures CandidateEdge(zones[k], b, !horizontal) == Some(EdgeOf(b, horizontal, direction))
  {
    var edge := EdgeOf(b, horizontal, direction);
    UncoveredExactly(zones, edge);
    var z :| z in zones && forall s :: edge.first <= s < edge.last ==> ZoneCoversInside(z, edge, s);
    k :| 0 <= k < |zones| && zones[k] == z;
    assert ZoneCoversInside(z, edge, edge.first) && ZoneCoversInside(z, edge, edge.last - 1);
    assert !ZoneCoversOutside(z, edge, edge.first);
  }

  lemma {:induction false} PassIsExterior(left: seq<Zone>, zones: seq<Zone>, b: Barrier, verticalOnly: bool)
    requires b.id != 0 && forall z <- left :: z in zones
    ensures var found := FirstExterior(left, zones, b, verticalOnly);
            found.Some? ==> && found.value == EdgeOf(b, found.value.horizontal, found.value.direction)
                            && Exterior(zones, b, found.value.horizontal, found.value.direction)
                            && (verticalOnly ==> !found.value.horizontal)
  {
    if left == [] {
    } else {
      var edge := CandidateEdge(left[0], b, verticalOnly);
      if edge.Some? && !Covered(zones, edge.value) {
        CandidateIsExterior(zones, b, left[0], verticalOnly);
      } else {
        PassIsExterior(left[1..], zones, b, verticalOnly);
      }
    }
  }

  lemma {:induction false} PassFinds(left: seq<Zone>, zones: seq<Zone>, b: Barrier, verticalOnly: bool, k: nat)
    requires k < |left| && CandidateEdge(left[k], b, verticalOnly).Some?
    requires !Covered(zones, CandidateEdge(left[k], b, verticalOnly).value)
    ensures FirstExterior(left, zones, b, verticalOnly).Some?
  {
    if k == 0 {
    } else {
      PassFinds(left[1..], zones, b, verticalOnly, k - 1);
    }
  }

  /** Acceptance in pixels; in particular it does not depend on the order of the zones. */
  lemma AcceptedExactly(zones: seq<Zone>, b: Barrier)
    ensures ValidBarrier(zones, b) <==> exists horizontal, direction :: Exterior(zones, b, horizontal, direction)
  {
    if b.id != 0 {
      PassIsExterior(zones, zones, b, false);
      PassIsExterior(zones, zones, b, true);
    }
    if horizontal, direction :| Exterior(zones, b, horizontal, direction) {
      var k := ExteriorIsCandidate(zones, b, horizontal, direction);
      if horizontal || b.IsPoint() {
        PassFinds(zones, zones, b, !horizontal, k);
      } else {
        PassFinds(zones, zones, b, false, k);
      }
    }
  }

  lemma OrderIsIrrelevant(zones: seq<Zone>, others: seq<Zone>, b: Barrier)
    requires forall z :: z in zones <==> z in others
    ensures ValidBarrier(zones, b) <==> ValidBarrier(others, b)
  {
    AcceptedExactly(zones, b);
    AcceptedExactly(others, b);
    forall horizontal, direction
      ensures Exterior(zones, b, horizontal, direction) <==> Exterior(others, b, horizontal, direction)
    {
    }
  }

  /** In each orientation at most one direction is outward. */
  lemma DirectionIsUnique(zones: seq<Zone>, b: Barrier, horizontal: bool, one: int, other: int)
    requires Exterior(zones, b, horizontal, one) && Exterior(zones, b, horizontal, other)
    ensures one == other
  {
    var edge, opposite := EdgeOf(b, horizontal, one), EdgeOf(b, horizontal, other);
    var z :| z in zones && forall s :: edge.first <= s < edge.last ==> ZoneCoversInside(z, edge, s);
    assert ZoneCoversInside(z, edge, edge.first);
    assert !ZoneCoversOutside(z, opposite, edge.first);
  }

  // ---------------------------------------------------------------- which exterior edges are tried

  /** Zone `k` proposes the barrier as an uncovered edge of the given orientation in the first pass. */
  predicate Proposes(zones: seq<Zone>, b: Barrier, k: nat, horizontal: bool)
    requires k < |zones|
  {
    var edge := CandidateEdge(zones[k], b, false);
    edge.Some? && edge.value.horizontal == horizontal && !Covered(zones, edge.value)
  }

  /**
   A single-point barrier on a horizontal exterior edge, but an earlier zone has it on an exterior
   vertical edge only. The first pass stops at that zone and the second looks at vertical edges.
   */
  predicate HorizontalHidden(zones: seq<Zone>, b: Barrier) {
    && b.IsPoint() && b.id != 0
    && exists k, i :: 0 <= i < k < |zones| && Proposes(zones, b, k, true) && Proposes(zones, b, i, false)
                   && forall j :: 0 <= j < i ==> !Proposes(zones, b, j, true)
  }

  ghost predicate AllExteriorTried(zones: seq<Zone>, b: Barrier) {
    forall horizontal, direction ::
      Exterior(zones, b, horizontal, direction) ==> EdgeOf(b, horizontal, direction) in EdgesTried(zones, b)
  }

  /** The first pass returns the proposal of the first zone that has one. */
  lemma {:induction false} PassIsFirst(left: seq<Zone>, zones: seq<Zone>, b: Barrier, verticalOnly: bool)
    returns (k: nat)
    ensures FirstExterior(left, zones, b, verticalOnly).Some? ==>
              k < |left| && FirstExterior(left, zones, b, verticalOnly) == CandidateEdge(left[k], b, verticalOnly)
    ensures FirstExterior(left, zones, b, verticalOnly).None? ==> k == |left|
    ensures k < |left| ==>
              var edge := CandidateEdge(left[k], b, verticalOnly); edge.Some? && !Covered(zones, edge.value)
    ensures forall j :: 0 <= j < k && j < |left| ==>
              var edge := CandidateEdge(left[j], b, verticalOnly); edge.None? || Covered(zones, edge.value)
  {
    if left == [] {
      k := 0;
    } else {
      var edge := CandidateEdge(left[0], b, verticalOnly);
      if edge.Some? && !Covered(zones, edge.value) {
        k := 0;
      } else {
        k := PassIsFirst(left[1..], zones, b, verticalOnly);
        k := k + 1;
      }
    }
  }

  lemma TriedUnlessHidden(zones: seq<Zone>, b: Barrier, horizontal: bool, direction: int)
    requires Exterior(zones, b, horizontal, direction) && (horizontal ==> !HorizontalHidden(zones, b))
    ensures EdgeOf(b, horizontal, direction) in EdgesTried(zones, b)
  {
    var k := ExteriorIsCandidate(zones, b, horizontal, direction);
    PassIsExterior(zones, zones, b, false);
    PassIsExterior(zones, zones, b, true);
    if horizontal {
      PassFinds(zones, zones, b, false, k);
      var first := PassIsFirst(zones, zones, b, false);
      var found := ExteriorPass(zones, b, false).value;
      if !found.horizontal {
        assert Proposes(zones, b, k, true) && Proposes(zones, b, first, false);
        assert false;
      }
      DirectionIsUnique(zones, b, true, direction, found.direction);
    } else if b.IsPoint() {
      PassFinds(zones, zones, b, true, k);
      var found := ExteriorPass(zones, b, true).value;
      DirectionIsUnique(zones, b, false, direction, found.direction);
      assert found in EdgesTried(zones, b);
    } else {
      PassFinds(zones, zones, b, false, k);
      DirectionIsUnique(zones, b, false, direction, ExteriorPass(zones, b, false).value.direction);
    }
  }

  /** A hidden barrier is tried on vertical edges only, although a horizontal one is exterior. */
  lemma HiddenMeansVerticalOnly(zones: seq<Zone>, b: Barrier) returns (direction: int)
    requires HorizontalHidden(zones, b)
    ensures Exterior(zones, b, true, direction)
    ensures forall edge <- EdgesTried(zones, b) :: !edge.horizontal
  {
    var k, i :| 0 <= i < k < |zones| && Proposes(zones, b, k, true) && Proposes(zones, b, i, false)
                && forall j :: 0 <= j < i ==> !Proposes(zones, b, j, true);
    CandidateIsExterior(zones, b, zones[k], false);
    direction := CandidateEdge(zones[k], b, false).value.direction;
    var first := PassIsFirst(zones, zones, b, false);
    PassFinds(zones, zones, b, false, i);
    if CandidateEdge(zones[first], b, false).value.horizontal {
      assert Proposes(zones, b, first, true);
      assert false;
    }
    PassIsExterior(zones, zones, b, true);
  }

  lemma TriedExactly(zones: seq<Zone>, b: Barrier)
    ensures AllExteriorTried(zones, b) <==> !HorizontalHidden(zones, b)
  {
    if HorizontalHidden(zones, b) {
      var direction := HiddenMeansVerticalOnly(zones, b);
    } else {
      forall horizontal, direction | Exterior(zones, b, horizontal, direction)
        ensures EdgeOf(b, horizontal, direction) in EdgesTried(zones, b)
      {
        TriedUnlessHidden(zones, b, horizontal, direction);
      }
    }
  }

  // ---------------------------------------------------------------- crossings

  datatype Motion = Motion(x: real, y: real, dx: real, dy: real)

  datatype Crossing = Crossing(id: nat, fraction: real)

  function Along(edge: Edge, m: Motion): real {
    if edge.horizontal then m.dy else m.dx
  }

  function Origin(edge: Edge, m: Motion): real {
    if edge.horizontal then m.y else m.x
  }

  function Fraction(edge: Edge, m: Motion): real
    requires Along(edge, m) != 0.0
  {
    (edge.coordinate as real - Origin(edge, m)) / Along(edge, m)
  }

  /** Where the motion meets the line of the edge, measured along the edge. */
  function Across(edge: Edge, m: Motion): real
    requires Along(edge, m) != 0.0
  {
    if edge.horizontal then m.x + Fraction(edge, m) * m.dx else m.y + Fraction(edge, m) * m.dy
  }

  /** The checks of the inner loop, in its order. */
  predicate Crosses(edge: Edge, m: Motion) {
    && Along(edge, m) * edge.direction as real > 0.0
    && (if edge.direction < 0 then Origin(edge, m) + Along(edge, m) < edge.coordinate as real
        else Origin(edge, m) + Along(edge, m) >= edge.coordinate as real)
    && 0.0 <= Fraction(edge, m) <= 1.0
    && edge.first as real <= Across(edge, m) < edge.last as real
  }

  /** Moving a fraction of the way along the motion. */
  function PointAt(m: Motion, fraction: real): (real, real) {
    (m.x + fraction * m.dx, m.y + fraction * m.dy)
  }

  // ---------------------------------------------------------------- crossings, by the points of the motion

  /** The coordinate that grows across a barrier of this orientation, and the one that grows along it. */
  function AcrossIt(horizontal: bool, p: (real, real)): real {
    if horizontal then p.1 else p.0
  }

  function AlongIt(horizontal: bool, p: (real, real)): real {
    if horizontal then p.0 else p.1
  }

  /** The point lies on the barrier's line, at one of its pixels. */
  predicate OnBarrier(b: Barrier, horizontal: bool, p: (real, real)) {
    var line := if horizontal then b.y1 else b.x1;
    var a, z := if horizontal then b.x1 else b.y1, if horizontal then b.x2 else b.y2;
    && AcrossIt(horizontal, p) == line as real
    && (a as real <= AlongIt(horizontal, p) || z as real <= AlongIt(horizontal, p))
    && (AlongIt(horizontal, p) < a as real + 1.0 || AlongIt(horizontal, p) < z as real + 1.0)
  }

  /** The motion reaches the barrier a fraction of the way. */
  predicate MeetsAt(b: Barrier, horizontal: bool, m: Motion, fraction: real) {
    0.0 <= fraction <= 1.0 && OnBarrier(b, horizontal, PointAt(m, fraction))
  }

  /** The motion heads out and ends beyond the line; the line itself is inside of an upper or left edge. */
  predicate EndsOutside(b: Barrier, horizontal: bool, direction: int, m: Motion) {
    var line := (if horizontal then b.y1 else b.x1) as real;
    var start, end := AcrossIt(horizontal, PointAt(m, 0.0)), AcrossIt(horizontal, PointAt(m, 1.0));
    if direction < 0 then end < start && end < line else start < end && line <= end
  }

  ghost predicate PassesOut(b: Barrier, horizontal: bool, direction: int, m: Motion) {
    EndsOutside(b, horizontal, direction, m) && exists fraction :: MeetsAt(b, horizontal, m, fraction)
  }

  /** Along a motion across the barrier there is one place to meet it, and the code computes it. */
  lemma MeetsOnce(b: Barrier, horizontal: bool, direction: int, m: Motion, fraction: real)
    requires Along(EdgeOf(b, horizontal, direction), m) != 0.0
    ensures var edge := EdgeOf(b, horizontal, direction);
      MeetsAt(b, horizontal, m, fraction) <==>
        && fraction == Fraction(edge, m) && 0.0 <= fraction <= 1.0
        && edge.first as real <= Across(edge, m) < edge.last as real
  {
    var edge := EdgeOf(b, horizontal, direction);
    MeetsTheLine(edge, m);
    AcrossAt(edge, m, fraction);
    AlongAt(edge, m);
    if AcrossIt(horizontal, PointAt(m, fraction)) == edge.coordinate as real {
      OneFraction(Origin(edge, m), Along(edge, m), fraction, Fraction(edge, m));
    }
    hide Fraction, Across, PointAt, Origin, Along;
  }

  lemma AcrossAt(edge: Edge, m: Motion, fraction: real)
    ensures AcrossIt(edge.horizontal, PointAt(m, fraction)) == Origin(edge, m) + fraction * Along(edge, m)
  {
  }

  lemma AlongAt(edge: Edge, m: Motion)
    requires Along(edge, m) != 0.0
    ensures AlongIt(edge.horizontal, PointAt(m, Fraction(edge, m))) == Across(edge, m)
  {
    hide Fraction;
  }

  lemma OneFraction(origin: real, step: real, s: real, t: real)
    requires step != 0.0 && origin + s * step == origin + t * step
    ensures s == t
  {
    assert (s - t) * step == 0.0;
  }

  /** The checks of the inner loop hold exactly for the motions that pass out over the barrier. */
  lemma CrossesExactly(b: Barrier, horizontal: bool, direction: int, m: Motion)
    requires direction == -1 || direction == 1
    ensures Crosses(EdgeOf(b, horizontal, direction), m) <==> PassesOut(b, horizontal, direction, m)
  {
    var edge := EdgeOf(b, horizontal, direction);
    if Along(edge, m) != 0.0 {
      MeetsOnce(b, horizontal, direction, m, Fraction(edge, m));
      forall fraction | MeetsAt(b, horizontal, m, fraction) ensures fraction == Fraction(edge, m) {
        MeetsOnce(b, horizontal, direction, m, fraction);
      }
      hide Fraction, Across, MeetsAt;
    }
  }

  lemma MeetsTheLine(edge: Edge, m: Motion)
    requires Along(edge, m) != 0.0
    ensures Origin(edge, m) + Fraction(edge, m) * Along(edge, m) == edge.coordinate as real
  {
    var step := Along(edge, m);
    assert Fraction(edge, m) * step == edge.coordinate as real - Origin(edge, m);
  }

  /** A motion starts inside exactly when a zone covers the pixel it starts in. */
  lemma HoldsByPixel(z: Zone, px: real, py: real)
    ensures z.Holds(px, py) <==> z.Covers(px.Floor, py.Floor)
  {
  }

  predicate StartsInside(zones: seq<Zone>, m: Motion) {
    exists z <- zones :: z.Holds(m.x, m.y)
  }

  /** Every edge the code tries is an exterior edge of its barrier. */
  lemma TriedIsExterior(zones: seq<Zone>, b: Barrier, edge: Edge)
    requires edge in EdgesTried(zones, b)
    ensures edge == EdgeOf(b, edge.horizontal, edge.direction) && Exterior(zones, b, edge.horizontal, edge.direction)
  {
    PassIsExterior(zones, zones, b, false);
    PassIsExterior(zones, zones, b, true);
  }

  /** What the loop computes for an edge it tries is where the motion passes out over it, if it does. */
  lemma TriedCrossing(zones: seq<Zone>, b: Barrier, edge: Edge, m: Motion)
    requires edge in EdgesTried(zones, b)
    ensures Crosses(edge, m) ==> CrossedAt(zones, b, m, Fraction(edge, m))
    ensures forall fraction | EndsOutside(b, edge.horizontal, edge.direction, m)
                              && MeetsAt(b, edge.horizontal, m, fraction) ::
              Crosses(edge, m) && fraction == Fraction(edge, m)
  {
    TriedIsExterior(zones, b, edge);
    CrossesExactly(b, edge.horizontal, edge.direction, m);
    if Along(edge, m) != 0.0 {
      forall fraction
        ensures MeetsAt(b, edge.horizontal, m, fraction) ==> fraction == Fraction(edge, m)
        ensures Crosses(edge, m) && fraction == Fraction(edge, m) ==> MeetsAt(b, edge.horizontal, m, fraction)
      {
        MeetsOnce(b, edge.horizontal, edge.direction, m, fraction);
      }
    }
    hide MeetsAt, Fraction, Across;
  }

  /** The crossing a barrier contributes, if any of the edges it is tried on is crossed. */
  ghost predicate CrossedAt(zones: seq<Zone>, b: Barrier, m: Motion, fraction: real) {
    exists edge <- EdgesTried(zones, b) ::
      EndsOutside(b, edge.horizontal, edge.direction, m) && MeetsAt(b, edge.horizontal, m, fraction)
  }

  ghost predicate Contributed(zones: seq<Zone>, barriers: seq<Barrier>, m: Motion, crossing: Crossing) {
    exists b <- barriers :: b.id == crossing.id && CrossedAt(zones, b, m, crossing.fraction)
  }

  method InputCaptureCrossing(zones: seq<Zone>, barriers: seq<Barrier>, m: Motion) returns (nearest: Option<Crossing>)
    ensures nearest.Some? ==> StartsInside(zones, m)
    ensures nearest.Some? ==> Contributed(zones, barriers, m, nearest.value)
    ensures StartsInside(zones, m) ==> forall b <- barriers, fraction | CrossedAt(zones, b, m, fraction) ::
              nearest.Some? && nearest.value.fraction <= fraction
  {
    nearest := None;
    if !StartsInside(zones, m) {
      return;
    }
    for i := 0 to |barriers|
      invariant nearest.Some? ==> Contributed(zones, barriers, m, nearest.value)
      invariant forall k, fraction | 0 <= k < i && CrossedAt(zones, barriers[k], m, fraction) ::
                  nearest.Some? && nearest.value.fraction <= fraction
    {
      var b := barriers[i];
      var first := ExteriorEdge(zones, b, false);
      var edges := if first.Some? then [first.value] else [];
      if b.IsPoint() {
        var second := ExteriorEdge(zones, b, true);
        edges := edges + if second.Some? then [second.value] else [];
      }
      assert edges == EdgesTried(zones, b);
      for j := 0 to |edges|
        invariant nearest.Some? ==> Contributed(zones, barriers, m, nearest.value)
        invariant forall k, fraction | 0 <= k < i && CrossedAt(zones, barriers[k], m, fraction) ::
                    nearest.Some? && nearest.value.fraction <= fraction
        invariant forall k | 0 <= k < j && Crosses(edges[k], m) ::
                    nearest.Some? && nearest.value.fraction <= Fraction(edges[k], m)
      {
        TriedCrossing(zones, b, edges[j], m);
        if !Crosses(edges[j], m) {
          continue;
        }
        var fraction := Fraction(edges[j], m);
        if nearest.None? || fraction < nearest.value.fraction {
          nearest := Some(Crossing(b.id, fraction));
        }
      }
      forall edge <- EdgesTried(zones, b) {
        TriedCrossing(zones, b, edge, m);
      }
    }
  }

  /** The point where an edge is crossed: on its line, within its span, about to enter an uncovered pixel. */
  lemma CrossingGeometry(zones: seq<Zone>, b: Barrier, horizontal: bool, direction: int, m: Motion)
    requires Exterior(zones, b, horizontal, direction) && Crosses(EdgeOf(b, horizontal, direction), m)
    ensures var edge := EdgeOf(b, horizontal, direction);
            var point, pixel := PointAt(m, Fraction(edge, m)), Across(edge, m).Floor;
            && (if horizontal then point.1 else point.0) == edge.coordinate as real
            && edge.first as real <= (if horizontal then point.0 else point.1) < edge.last as real
            && edge.first <= pixel < edge.last
            && (forall z <- zones :: !ZoneCoversOutside(z, edge, pixel))
            && Along(edge, m) * direction as real > 0.0
  {
    var edge := EdgeOf(b, horizontal, direction);
    MeetsTheLine(edge, m);
    hide Fraction;
    FloorInRange(Across(edge, m), edge.first, edge.last);
    assert forall z <- zones, s | edge.first <= s < edge.last :: !ZoneCoversOutside(z, edge, s);
  }

  lemma FloorInRange(value: real, first: int, last: int)
    requires first as real <= value < last as real
    ensures first <= value.Floor < last
  {
  }

  /** The motion crosses some exterior edge of the barrier. */
  ghost predicate CrossesExterior(zones: seq<Zone>, b: Barrier, m: Motion) {
    exists horizontal, direction ::
      Exterior(zones, b, horizontal, direction) && PassesOut(b, horizontal, direction, m)
  }

  ghost predicate NeverMissed(zones: seq<Zone>, b: Barrier) {
    forall m | StartsInside(zones, m) && CrossesExterior(zones, b, m) ::
      exists fraction :: CrossedAt(zones, b, m, fraction)
  }

  /** A motion straight out through the pixel of a point barrier. */
  function StraightOut(b: Barrier, direction: int): Motion {
    if direction < 0 then Motion(b.x1 as real, b.y1 as real, 0.0, -1.0)
    else Motion(b.x1 as real, b.y1 as real - 1.0, 0.0, 1.0)
  }

  lemma StraightOutCrosses(zones: seq<Zone>, b: Barrier, direction: int)
    requires b.IsPoint() && Exterior(zones, b, true, direction)
    ensures StartsInside(zones, StraightOut(b, direction))
    ensures Crosses(EdgeOf(b, true, direction), StraightOut(b, direction))
  {
    var edge, m := EdgeOf(b, true, direction), StraightOut(b, direction);
    var z :| z in zones && forall s :: edge.first <= s < edge.last ==> ZoneCoversInside(z, edge, s);
    assert ZoneCoversInside(z, edge, edge.first);
    assert z.Holds(m.x, m.y);
  }

  /** An exterior crossing from inside is always reported exactly when the barrier is not hidden. */
  lemma NeverMissedExactly(zones: seq<Zone>, b: Barrier)
    ensures NeverMissed(zones, b) <==> !HorizontalHidden(zones, b)
  {
    if HorizontalHidden(zones, b) {
      var direction := HiddenMeansVerticalOnly(zones, b);
      var m := StraightOut(b, direction);
      StraightOutCrosses(zones, b, direction);
      CrossesExactly(b, true, direction, m);
      assert CrossesExterior(zones, b, m);
      assert forall fraction :: !CrossedAt(zones, b, m, fraction);
    } else {
      TriedExactly(zones, b);
      forall m | StartsInside(zones, m) && CrossesExterior(zones, b, m)
        ensures exists fraction :: CrossedAt(zones, b, m, fraction)
      {
        var horizontal, direction :|
          Exterior(zones, b, horizontal, direction) && PassesOut(b, horizontal, direction, m);
        var fraction :| MeetsAt(b, horizontal, m, fraction);
        assert EdgeOf(b, horizontal, direction) in EdgesTried(zones, b);
        assert CrossedAt(zones, b, m, fraction);
      }
    }
  }

  const CORNER := Barrier(1, 10, 10, 10, 10)
  // Two outputs side by side, the left one taller.
  const TALL := Zone(0, 0, 10, 20)
  const SHORT := Zone(10, 0, 10, 10)

  /** At the inner corner between the two outputs the listing order decides whether a crossing is noticed. */
  lemma InnerCornerDependsOnOrder()
    ensures ValidBarrier([TALL, SHORT], CORNER) && ValidBarrier([SHORT, TALL], CORNER)
    ensures HorizontalHidden([TALL, SHORT], CORNER) && !HorizontalHidden([SHORT, TALL], CORNER)
  {
    var zones, others := [TALL, SHORT], [SHORT, TALL];
    assert CandidateEdge(TALL, CORNER, false) == Some(EdgeOf(CORNER, false, 1));
    assert CandidateEdge(SHORT, CORNER, false) == Some(EdgeOf(CORNER, true, 1));
    assert zones[0] == TALL && zones[1] == SHORT && others[0] == SHORT && others[1] == TALL;
    assert Proposes(zones, CORNER, 1, true) && Proposes(zones, CORNER, 0, false);
    assert Proposes(others, CORNER, 0, true) && Proposes(others, CORNER, 1, false);
    PassFinds(zones, zones, CORNER, false, 0);
    PassFinds(others, others, CORNER, false, 0);
  }
}
