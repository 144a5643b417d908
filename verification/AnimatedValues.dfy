/** A single animated scalar (`AnimatedValue`, src/core/animation.cpp), over the reals. */
module AnimatedValues {
  import opened Reals

  datatype SpringConfig = SpringConfig(damping: real, stiffness: real, mass: real)

  type Milliseconds = n: int | 1 <= n witness 1

  /** Every curve but a spring is known only by how it eases. */
  datatype Curve = Eased(shape: nat) | Spring(config: SpringConfig)

  /**
   * The functions a value is driven by. The solution of the spring equation depends on where the spring starts only
   * through the starting displacement and velocity, which is all that is assumed of it here.
   */
  datatype Dynamics = Dynamics(
    ease: (Curve, real) -> real,
    offset: (SpringConfig, real, real, real) -> real,
    speed: (SpringConfig, real, real, real) -> real,
    springDuration: SpringConfig -> Milliseconds
  )

  datatype Motion = Motion(
    from: real,
    target: real,
    current: real,
    velocity: real,
    initialVelocity: real,
    progress: real,
    startMsec: real,
    durationMsec: Milliseconds,
    curve: Curve,
    animating: bool,
    physics: bool
  )

  const REST: real := 0.0001
  const MIN_PARAMETER: real := 0.0001

  const DEFAULT_CURVE: Curve := Eased(0)

  // ---------------------------------------------------------------- the operations

  function Initial(value: real): Motion {
    Motion(value, value, value, 0.0, 0.0, 1.0, 0.0, 1, DEFAULT_CURVE, false, false)
  }

  function Snapped(m: Motion, value: real): Motion {
    m.(from := value, target := value, current := value, velocity := 0.0, initialVelocity := 0.0, progress := 1.0,
       startMsec := 0.0, animating := false, physics := false)
  }

  function Sprung(m: Motion, to: real, config: SpringConfig, initialVelocity: real): Motion {
    m.(from := m.current, target := to, curve := Spring(config), initialVelocity := initialVelocity,
       velocity := initialVelocity, startMsec := 0.0, progress := 0.0, animating := true, physics := true)
  }

  function Retargeted(d: Dynamics, m: Motion, to: real, durationMs: int, curve: Curve): Motion {
    if curve.Spring? && m.animating && m.velocity != 0.0 then
      Sprung(m, to, curve.config, m.velocity)
    else
      m.(from := m.current, target := to,
         durationMsec := if curve.Spring? then d.springDuration(curve.config)
                         else if durationMs < 1 then 1 else durationMs,
         curve := curve, startMsec := 0.0, progress := 0.0, animating := true, physics := false,
         initialVelocity := 0.0, velocity := 0.0)
  }

  function Translated(m: Motion, delta: real): Motion {
    m.(from := m.from + delta, target := m.target + delta, current := m.current + delta)
  }

  /** Position and velocity of a spring `elapsed` seconds after it left `from`. */
  function Solved(d: Dynamics, config: SpringConfig, from: real, to: real, v: real, elapsed: real): (real, real) {
    if elapsed <= 0.0 then (from, v)
    else
      var offset := d.offset(config, from - to, v, elapsed);
      var speed := d.speed(config, from - to, v, elapsed);
      if Abs(offset) < REST && Abs(speed) < REST then (to, 0.0) else (to + offset, speed)
  }

  function Ticked(d: Dynamics, m: Motion, now: real): Motion
    requires m.physics ==> m.curve.Spring?
  {
    if !m.animating then m
    else
      var start := if m.startMsec == 0.0 then now else m.startMsec;
      var elapsed := Max(0.0, now - start);
      if m.physics then SpringTick(d, m.(startMsec := start), elapsed)
      else CurveTick(d, m.(startMsec := start), elapsed)
  }

  function SpringTick(d: Dynamics, m: Motion, elapsed: real): Motion
    requires m.curve.Spring?
  {
    var (current, velocity) := Solved(d, m.curve.config, m.from, m.target, m.initialVelocity, elapsed / 1000.0);
    var span := m.target - m.from;
    var arrived := current == m.target && velocity == 0.0;
    m.(current := current, velocity := velocity, animating := !arrived,
       progress := if arrived || span == 0.0 then 1.0 else Clamp((current - m.from) / span, 0.0, 1.0))
  }

  function CurveTick(d: Dynamics, m: Motion, elapsed: real): Motion
  {
    var linear := Clamp(elapsed / m.durationMsec as real, 0.0, 1.0);
    if linear >= 1.0 then m.(progress := linear, current := m.target, velocity := 0.0, animating := false)
    else
      var eased := d.ease(m.curve, linear);
      var before := Max(0.0, linear - 1.0 / m.durationMsec as real);
      m.(progress := linear,
         current := Along(m.from, m.target - m.from, eased),
         velocity := Slope(d, m.curve, m.durationMsec, m.target - m.from, linear, before))
  }

  function Along(from: real, span: real, eased: real): real {
    from + span * eased
  }

  /** The curve's slope over the last millisecond of curve time, in units per second. */
  function Slope(d: Dynamics, curve: Curve, duration: Milliseconds, span: real, linear: real, before: real): real {
    var sloped := linear - before;
    if sloped <= 0.0 then 0.0
    else
      Stretch(sloped, duration);
      span * (d.ease(curve, linear) - d.ease(curve, before)) / (sloped * duration as real / 1000.0)
  }

  lemma Stretch(sloped: real, duration: Milliseconds)
    requires sloped > 0.0
    ensures sloped * duration as real > 0.0
  {
  }

  // ---------------------------------------------------------------- finishing a spring early

  /** How far `x` is from the edge of the cell that rounds alike. */
  function RoundingMargin(x: real): (margin: real)
    ensures 0.0 <= margin <= 0.5
  {
    0.5 - Abs(x - Round(x) as real)
  }

  /** The square of the displacement the spring's remaining energy allows. */
  function BoundSquared(m: Motion): real
    requires m.curve.Spring?
  {
    var mass := Max(MIN_PARAMETER, m.curve.config.mass);
    var stiffness := Max(MIN_PARAMETER, m.curve.config.stiffness);
    (m.current - m.target) * (m.current - m.target) + m.velocity * m.velocity * (mass / stiffness)
  }

  function Pixels(units: real, pixelsPerUnit: real): real {
    units * pixelsPerUnit
  }

  /** The remaining displacement, in pixels, is short of the margin (compared by their squares). */
  predicate FallsShort(boundSquared: real, pixelsPerUnit: real, margin: real) {
    margin > 0.0 && boundSquared * (pixelsPerUnit * pixelsPerUnit) < margin * margin
  }

  predicate Finishes(m: Motion, pixelsPerUnit: real)
    requires m.physics ==> m.curve.Spring?
  {
    m.animating && m.physics && pixelsPerUnit > 0.0
    && FallsShort(BoundSquared(m), pixelsPerUnit, RoundingMargin(Pixels(m.target, pixelsPerUnit)))
  }

  function TailFinished(m: Motion, pixelsPerUnit: real): Motion
    requires m.physics ==> m.curve.Spring?
  {
    if Finishes(m, pixelsPerUnit) then Snapped(m, m.target) else m
  }

  // ---------------------------------------------------------------- runs

  datatype Event =
    | Tick(now: real)
    | Snap(value: real)
    | Retarget(to: real, durationMs: int, curve: Curve)
    | Settle(to: real, config: SpringConfig, initialVelocity: real)
    | FinishTail(pixelsPerUnit: real)
    | Translate(delta: real)

  /** What a caller learns from one event: where the value is, and the call's own answer. */
  datatype Observed = Observed(current: real, answer: bool)

  ghost predicate WellFormed(m: Motion) {
    && (m.physics ==> m.curve.Spring?)
    && 0.0 <= m.progress <= 1.0
    && (!m.animating ==> m.current == m.target && m.velocity == 0.0 && m.progress == 1.0)
  }

  function Step(d: Dynamics, m: Motion, event: Event): (next: Motion)
    requires WellFormed(m)
    ensures WellFormed(next)
  {
    match event
    case Tick(now) => Ticked(d, m, now)
    case Snap(value) => Snapped(m, value)
    case Retarget(to, durationMs, curve) => Retargeted(d, m, to, durationMs, curve)
    case Settle(to, config, v) => Sprung(m, to, config, v)
    case FinishTail(pixelsPerUnit) => TailFinished(m, pixelsPerUnit)
    case Translate(delta) => Translated(m, delta)
  }

  ghost function Answer(m: Motion, event: Event): bool
    requires WellFormed(m)
  {
    match event
    case Tick(_) => m.animating
    case FinishTail(pixelsPerUnit) => Finishes(m, pixelsPerUnit)
    case _ => false
  }

  ghost function Run(d: Dynamics, m: Motion, events: seq<Event>): (last: Motion)
    requires WellFormed(m)
    ensures WellFormed(last)
    decreases |events|
  {
    if events == [] then m else Run(d, Step(d, m, events[0]), events[1..])
  }

  ghost function Trace(d: Dynamics, m: Motion, events: seq<Event>): (trace: seq<Observed>)
    requires WellFormed(m)
    ensures |trace| == |events|
    decreases |events|
  {
    if events == [] then []
    else
      var next := Step(d, m, events[0]);
      [Observed(next.current, Answer(m, events[0]))] + Trace(d, next, events[1..])
  }

  /** The same event in coordinates moved by `delta`. */
  function Shifted(event: Event, delta: real): Event {
    match event
    case Snap(value) => Snap(value + delta)
    case Retarget(to, durationMs, curve) => Retarget(to + delta, durationMs, curve)
    case Settle(to, config, v) => Settle(to + delta, config, v)
    case _ => event
  }

  function AllShifted(events: seq<Event>, delta: real): seq<Event> {
    seq(|events|, i requires 0 <= i < |events| => Shifted(events[i], delta))
  }

  /** Pixel rounding only commutes with a shift by whole pixels. */
  ghost predicate WholePixels(event: Event, delta: real) {
    event.FinishTail? ==> IsWhole(Pixels(delta, event.pixelsPerUnit))
  }

  predicate IsWhole(x: real) {
    x == x.Floor as real
  }

  lemma MarginIsDistanceToHalf(x: real)
    ensures RoundingMargin(x) == Abs(x - x.Floor as real - 0.5)
  {
    if x < 0.0 {
      assert (-x + 0.5).Floor == if x - x.Floor as real <= 0.5 then -x.Floor else -x.Floor - 1;
    } else {
      assert (x + 0.5).Floor == if x - x.Floor as real < 0.5 then x.Floor else x.Floor + 1;
    }
  }

  lemma RoundingIsPeriodic(x: real, shift: real)
    requires IsWhole(shift)
    ensures RoundingMargin(x + shift) == RoundingMargin(x)
  {
    MarginIsDistanceToHalf(x);
    MarginIsDistanceToHalf(x + shift);
    assert (x + shift).Floor == x.Floor + shift.Floor;
  }

  lemma PixelsAdd(a: real, b: real, pixelsPerUnit: real)
    ensures Pixels(a + b, pixelsPerUnit) == Pixels(a, pixelsPerUnit) + Pixels(b, pixelsPerUnit)
  {
  }

  lemma BoundShifts(m: Motion, delta: real)
    requires m.curve.Spring?
    ensures BoundSquared(Translated(m, delta)) == BoundSquared(m)
  {
    assert (m.current + delta) - (m.target + delta) == m.current - m.target;
  }

  lemma TailCommutes(m: Motion, pixelsPerUnit: real, delta: real)
    requires WellFormed(m) && m.physics && IsWhole(Pixels(delta, pixelsPerUnit))
    ensures Finishes(Translated(m, delta), pixelsPerUnit) == Finishes(m, pixelsPerUnit)
  {
    BoundShifts(m, delta);
    PixelsAdd(m.target, delta, pixelsPerUnit);
    hide BoundSquared, RoundingMargin, Pixels, IsWhole, FallsShort;
    RoundingIsPeriodic(Pixels(m.target, pixelsPerUnit), Pixels(delta, pixelsPerUnit));
  }

  lemma TickCommutes(d: Dynamics, m: Motion, now: real, delta: real)
    requires WellFormed(m)
    ensures Ticked(d, Translated(m, delta), now) == Translated(Ticked(d, m, now), delta)
  {
    if m.animating {
      var start := if m.startMsec == 0.0 then now else m.startMsec;
      var begun := m.(startMsec := start);
      if m.physics {
        SpringTickCommutes(d, begun, Max(0.0, now - start), delta);
      } else {
        CurveTickCommutes(d, begun, Max(0.0, now - start), delta);
      }
    }
  }

  lemma SpringTickCommutes(d: Dynamics, m: Motion, elapsed: real, delta: real)
    requires m.curve.Spring?
    ensures SpringTick(d, Translated(m, delta), elapsed) == Translated(SpringTick(d, m, elapsed), delta)
  {
    var (current, velocity) := Solved(d, m.curve.config, m.from, m.target, m.initialVelocity, elapsed / 1000.0);
    assert (m.from + delta) - (m.target + delta) == m.from - m.target;
    assert Solved(d, m.curve.config, m.from + delta, m.target + delta, m.initialVelocity, elapsed / 1000.0)
        == (current + delta, velocity);
    assert (current + delta) - (m.from + delta) == current - m.from;
    assert (m.target + delta) - (m.from + delta) == m.target - m.from;
  }

  lemma CurveTickCommutes(d: Dynamics, m: Motion, elapsed: real, delta: real)
    ensures CurveTick(d, Translated(m, delta), elapsed) == Translated(CurveTick(d, m, elapsed), delta)
  {
    hide Along, Slope;
    var eased := d.ease(m.curve, Clamp(elapsed / m.durationMsec as real, 0.0, 1.0));
    assert (m.target + delta) - (m.from + delta) == m.target - m.from;
    AlongShifts(m.from, m.target - m.from, eased, delta);
  }

  lemma AlongShifts(from: real, span: real, eased: real, delta: real)
    ensures Along(from + delta, span, eased) == Along(from, span, eased) + delta
  {
  }

  lemma StepCommutes(d: Dynamics, m: Motion, event: Event, delta: real)
    requires WellFormed(m) && WholePixels(event, delta)
    ensures Step(d, Translated(m, delta), Shifted(event, delta)) == Translated(Step(d, m, event), delta)
    ensures Answer(Translated(m, delta), Shifted(event, delta)) == Answer(m, event)
  {
    match event
    case Tick(now) => TickCommutes(d, m, now, delta);
    case FinishTail(pixelsPerUnit) =>
      if m.physics {
        TailCommutes(m, event.pixelsPerUnit, delta);
      }
    case _ =>
  }

  /** Moving the coordinates under a running animation changes nothing but the coordinates, in whatever follows. */
  lemma {:induction false} TranslationCommutes(d: Dynamics, m: Motion, events: seq<Event>, delta: real)
    requires WellFormed(m) && forall i | 0 <= i < |events| :: WholePixels(events[i], delta)
    ensures Run(d, Translated(m, delta), AllShifted(events, delta)) == Translated(Run(d, m, events), delta)
    ensures forall i | 0 <= i < |events| ::
      Trace(d, Translated(m, delta), AllShifted(events, delta))[i]
      == Observed(Trace(d, m, events)[i].current + delta, Trace(d, m, events)[i].answer)
    decreases |events|
  {
    if events == [] {
    } else {
      StepCommutes(d, m, events[0], delta);
      TranslationCommutes(d, Step(d, m, events[0]), events[1..], delta);
      assert AllShifted(events, delta)[1..] == AllShifted(events[1..], delta);
    }
  }

  // ---------------------------------------------------------------- arriving

  lemma {:induction false} RunLast(d: Dynamics, m: Motion, events: seq<Event>, last: Event)
    requires WellFormed(m)
    ensures Run(d, m, events + [last]) == Step(d, Run(d, m, events), last)
    decreases |events|
  {
    if events == [] {
      assert Run(d, m, [last]) == Run(d, Step(d, m, last), []);
    } else {
      RunLast(d, Step(d, m, events[0]), events[1..], last);
      assert (events + [last])[1..] == events[1..] + [last];
    }
  }

  /** Ticks alone neither move the target nor restart a clock that runs. */
  lemma {:induction false} TicksKeepTheClock(d: Dynamics, m: Motion, ticks: seq<Event>)
    requires WellFormed(m) && !m.physics && m.startMsec != 0.0
    requires forall i | 0 <= i < |ticks| :: ticks[i].Tick?
    ensures var last := Run(d, m, ticks);
      last.target == m.target && !last.physics && last.startMsec == m.startMsec
      && last.durationMsec == m.durationMsec
    decreases |ticks|
  {
    if ticks == [] {
    } else {
      TicksKeepTheClock(d, Step(d, m, ticks[0]), ticks[1..]);
    }
  }

  lemma Overdue(d: Dynamics, m: Motion, late: real)
    requires WellFormed(m) && !m.physics && m.startMsec != 0.0
    requires late >= m.startMsec + m.durationMsec as real
    ensures var last := Ticked(d, m, late); !last.animating && last.current == last.target == m.target
  {
    if m.animating {
      Fraction(late - m.startMsec, m.durationMsec);
    }
  }

  lemma Fraction(elapsed: real, duration: Milliseconds)
    ensures elapsed >= duration as real ==> elapsed / duration as real >= 1.0
    ensures elapsed == 0.0 ==> elapsed / duration as real == 0.0
  {
    Difference(elapsed, duration as real, duration as real);
    Quotients(0.0, 0.0, duration as real);
  }

  /** However it is ticked in between, a curve has arrived by the first tick a full duration after its first one. */
  lemma FinishesOnTime(d: Dynamics, m: Motion, first: real, ticks: seq<Event>, late: real)
    requires WellFormed(m) && m.animating && !m.physics && m.startMsec == 0.0 && first != 0.0
    requires forall i | 0 <= i < |ticks| :: ticks[i].Tick?
    requires late >= first + m.durationMsec as real
    ensures var last := Run(d, m, [Tick(first)] + ticks + [Tick(late)]);
      !last.animating && last.current == last.target == m.target
  {
    var begun := Step(d, m, Tick(first));
    assert ([Tick(first)] + ticks)[1..] == ticks;
    RunLast(d, m, [Tick(first)] + ticks, Tick(late));
    TicksKeepTheClock(d, begun, ticks);
    Overdue(d, Run(d, begun, ticks), late);
  }

  /** A note on the sentinel: zero stands for an unstarted clock, so only a tick at another time starts it. */
  lemma ClockStartsUnlessAtZero(d: Dynamics, m: Motion, first: real, late: real)
    requires WellFormed(m) && m.animating && !m.physics && m.startMsec == 0.0
    requires late >= first + m.durationMsec as real
    ensures !Ticked(d, Ticked(d, m, first), late).animating <==> first != 0.0
  {
    Fraction(0.0, m.durationMsec);
    if first != 0.0 {
      Overdue(d, Ticked(d, m, first), late);
    }
  }

  // ---------------------------------------------------------------- where a value is at any time

  /** Time since the clock started; a clock that runs backwards counts as not having moved. */
  function Since(first: real, now: real): (elapsed: real)
    ensures elapsed >= 0.0
  {
    if now < first then 0.0 else now - first
  }

  /** Ticks before the end neither stop a curve nor change where it leads. */
  lemma {:induction false} TicksKeepGoing(d: Dynamics, m: Motion, ticks: seq<Event>)
    requires WellFormed(m) && m.animating && !m.physics && m.startMsec != 0.0
    requires forall i | 0 <= i < |ticks| :: ticks[i].Tick? && Since(m.startMsec, ticks[i].now) < m.durationMsec as real
    ensures Run(d, m, ticks).animating && Run(d, m, ticks).from == m.from && Run(d, m, ticks).curve == m.curve
    decreases |ticks|
  {
    if ticks == [] {
    } else {
      Unfinished(Since(m.startMsec, ticks[0].now), m.durationMsec);
      hide Along, Slope;
      TicksKeepGoing(d, Step(d, m, ticks[0]), ticks[1..]);
    }
  }

  lemma Unfinished(elapsed: real, duration: Milliseconds)
    requires 0.0 <= elapsed
    ensures elapsed < duration as real <==> elapsed / duration as real < 1.0
    ensures elapsed / duration as real >= 0.0
  {
  }

  /** How long a transition to a new target takes. */
  function DurationOf(d: Dynamics, durationMs: int, curve: Curve): Milliseconds {
    if curve.Spring? then d.springDuration(curve.config) else if durationMs > 1 then durationMs else 1
  }

  /**
   Wherever the value was, from the first tick on it is that share of the way to the target which the curve gives for
   the share of the duration that has passed, however it is ticked in between.
   */
  lemma CurveFollowsItsEase(d: Dynamics, m: Motion, to: real, durationMs: int, curve: Curve, first: real,
                            ticks: seq<Event>, now: real)
    requires WellFormed(m) && first != 0.0 && !(curve.Spring? && m.animating && m.velocity != 0.0)
    requires forall i | 0 <= i < |ticks| ::
               ticks[i].Tick? && Since(first, ticks[i].now) < DurationOf(d, durationMs, curve) as real
    ensures var last := Run(d, m, [Retarget(to, durationMs, curve), Tick(first)] + ticks + [Tick(now)]);
      var share := Since(first, now) / DurationOf(d, durationMs, curve) as real;
      && last.target == to && (last.animating <==> share < 1.0)
      && last.progress == (if share < 1.0 then share else 1.0)
      && last.current == if share < 1.0 then m.current + (to - m.current) * d.ease(curve, share) else to
  {
    hide Run, Step, Slope, Along;
    var started := CurveStarts(d, m, to, durationMs, curve, first);
    RunLast(d, m, [Retarget(to, durationMs, curve), Tick(first)] + ticks, Tick(now));
    RunTwo(d, m, Retarget(to, durationMs, curve), Tick(first), ticks);
    TicksKeepTheClock(d, started, ticks);
    TicksKeepGoing(d, started, ticks);
    CurveTickIs(d, Run(d, started, ticks), now);
  }

  lemma RunTwo(d: Dynamics, m: Motion, one: Event, two: Event, rest: seq<Event>)
    requires WellFormed(m)
    ensures Run(d, m, [one, two] + rest) == Run(d, Step(d, Step(d, m, one), two), rest)
  {
    assert ([one, two] + rest)[1..] == [two] + rest && ([two] + rest)[1..] == rest;
    hide Step;
  }

  lemma CurveStarts(d: Dynamics, m: Motion, to: real, durationMs: int, curve: Curve, first: real)
    returns (started: Motion)
    requires WellFormed(m) && first != 0.0 && !(curve.Spring? && m.animating && m.velocity != 0.0)
    ensures started == Step(d, Step(d, m, Retarget(to, durationMs, curve)), Tick(first))
    ensures started.animating && !started.physics && started.startMsec == first && started.curve == curve
    ensures started.from == m.current && started.target == to
    ensures started.durationMsec == DurationOf(d, durationMs, curve)
  {
    Unfinished(0.0, DurationOf(d, durationMs, curve));
    hide Slope, Along;
    started := Step(d, Step(d, m, Retarget(to, durationMs, curve)), Tick(first));
  }

  lemma CurveTickIs(d: Dynamics, m: Motion, now: real)
    requires WellFormed(m) && m.animating && !m.physics && m.startMsec != 0.0
    ensures var last, share := Step(d, m, Tick(now)), Since(m.startMsec, now) / m.durationMsec as real;
      && last.target == m.target && (last.animating <==> share < 1.0)
      && last.progress == (if share < 1.0 then share else 1.0)
      && last.current == if share < 1.0 then m.from + (m.target - m.from) * d.ease(m.curve, share) else m.target
  {
    Unfinished(Since(m.startMsec, now), m.durationMsec);
    hide Slope;
  }

  /** A curve that starts at zero makes no jump: at its first tick the value is where it was. */
  lemma NoJumpAtTheStart(d: Dynamics, m: Motion, to: real, durationMs: int, curve: Curve, first: real)
    requires WellFormed(m) && d.ease(curve, 0.0) == 0.0 && !(curve.Spring? && m.animating && m.velocity != 0.0)
    ensures Ticked(d, Retargeted(d, m, to, durationMs, curve), first).current == m.current
  {
    Unfinished(0.0, DurationOf(d, durationMs, curve));
    hide Slope;
  }

  lemma {:induction false} SpringTicksKeep(d: Dynamics, m: Motion, ticks: seq<Event>)
    requires WellFormed(m) && m.animating && m.physics && m.startMsec != 0.0
    requires forall i | 0 <= i < |ticks| :: ticks[i].Tick?
               && Solved(d, m.curve.config, m.from, m.target, m.initialVelocity,
                         Since(m.startMsec, ticks[i].now) / 1000.0) != (m.target, 0.0)
    ensures var last := Run(d, m, ticks);
      && last.animating && last.physics && last.curve == m.curve && last.startMsec == m.startMsec
      && last.from == m.from && last.target == m.target && last.initialVelocity == m.initialVelocity
    decreases |ticks|
  {
    if ticks == [] {
    } else {
      hide Solved;
      SpringTicksKeep(d, Step(d, m, ticks[0]), ticks[1..]);
    }
  }

  /** Where the spring equation has a spring `seconds` after it left `from` at speed `v`; once close it is at rest. */
  ghost predicate OnSpring(d: Dynamics, config: SpringConfig, from: real, to: real, v: real, seconds: real,
                           position: real, speed: real) {
    if seconds == 0.0 then position == from && speed == v
    else
      var offset', speed' := d.offset(config, from - to, v, seconds), d.speed(config, from - to, v, seconds);
      if -0.0001 < offset' < 0.0001 && -0.0001 < speed' < 0.0001 then position == to && speed == 0.0
      else position == to + offset' && speed == speed'
  }

  /** A spring leaves from where the value was, at the speed it is given, and moves as the spring equation says. */
  lemma SpringFollowsItsSolution(d: Dynamics, m: Motion, to: real, config: SpringConfig, v: real, first: real,
                                 ticks: seq<Event>, now: real)
    requires WellFormed(m) && first != 0.0
    requires Solved(d, config, m.current, to, v, 0.0) != (to, 0.0)
    requires forall i | 0 <= i < |ticks| :: ticks[i].Tick?
               && Solved(d, config, m.current, to, v, Since(first, ticks[i].now) / 1000.0) != (to, 0.0)
    ensures var last := Run(d, m, [Settle(to, config, v), Tick(first)] + ticks + [Tick(now)]);
      && last.target == to
      && OnSpring(d, config, m.current, to, v, Since(first, now) / 1000.0, last.current, last.velocity)
      && (last.animating <==> last.current != to || last.velocity != 0.0)
  {
    hide Run, Step, Solved, OnSpring;
    var started := SpringStarts(d, m, to, config, v, first);
    RunLast(d, m, [Settle(to, config, v), Tick(first)] + ticks, Tick(now));
    RunTwo(d, m, Settle(to, config, v), Tick(first), ticks);
    SpringTicksKeep(d, started, ticks);
    SpringTickIs(d, Run(d, started, ticks), now);
  }

  lemma SpringStarts(d: Dynamics, m: Motion, to: real, config: SpringConfig, v: real, first: real)
    returns (started: Motion)
    requires WellFormed(m) && first != 0.0 && Solved(d, config, m.current, to, v, 0.0) != (to, 0.0)
    ensures started == Step(d, Step(d, m, Settle(to, config, v)), Tick(first))
    ensures started.animating && started.physics && started.startMsec == first && started.curve == Spring(config)
    ensures started.from == m.current && started.target == to && started.initialVelocity == v
    ensures started.durationMsec == m.durationMsec
  {
    started := Step(d, Step(d, m, Settle(to, config, v)), Tick(first));
    hide Solved;
  }

  lemma SpringTickIs(d: Dynamics, m: Motion, now: real)
    requires WellFormed(m) && m.animating && m.physics && m.startMsec != 0.0
    ensures var last := Step(d, m, Tick(now));
      && last.target == m.target && (last.animating <==> last.current != m.target || last.velocity != 0.0)
      && OnSpring(d, m.curve.config, m.from, m.target, m.initialVelocity, Since(m.startMsec, now) / 1000.0,
                  last.current, last.velocity)
      && (last.animating ==> IsShare(m.from, m.target, last.current, last.progress))
  {
    var (current, velocity) :=
      Solved(d, m.curve.config, m.from, m.target, m.initialVelocity, Since(m.startMsec, now) / 1000.0);
    if m.from != m.target {
      ShareOf(m.from, m.target, current);
    }
    hide IsShare;
  }

  /** The place between two ends that is nearest to a position. */
  function Nearest(position: real, a: real, b: real): real {
    if a <= b then Clamp(position, a, b) else Clamp(position, b, a)
  }

  /** How much of the way a position has come; one that overshoots has come all of it. */
  predicate IsShare(from: real, to: real, position: real, share: real) {
    if from == to then share == 1.0 else share * (to - from) == Nearest(position, from, to) - from
  }

  lemma ShareOf(from: real, to: real, position: real)
    requires from != to
    ensures IsShare(from, to, position, Clamp((position - from) / (to - from), 0.0, 1.0))
  {
    if from < to {
      Ratio(position - from, to - from);
    } else {
      Ratio(from - position, from - to);
      SameRatio(position - from, to - from);
    }
  }

  lemma Ratio(way: real, span: real)
    requires span > 0.0
    ensures way / span * span == way
    ensures (way / span < 0.0 <==> way < 0.0) && (way / span > 1.0 <==> way > span)
  {
    var share := way / span;
    assert share * span == way && (share - 1.0) * span == way - span;
    if share < 0.0 {
      Positive(-share, span);
    } else {
      Product(share, span);
    }
    if share > 1.0 {
      Positive(share - 1.0, span);
    } else {
      Product(1.0 - share, span);
    }
  }

  lemma SameRatio(way: real, span: real)
    requires span != 0.0
    ensures way / span == -way / -span
  {
  }

  /** A spring that is in flight bends towards its new target at the speed it has. */
  lemma InFlightSpringBends(d: Dynamics, m: Motion, to: real, durationMs: int, config: SpringConfig)
    requires WellFormed(m)
    ensures Step(d, m, Retarget(to, durationMs, Spring(config))) == Step(d, m, Settle(to, config, m.velocity))
            <==> m.animating && m.velocity != 0.0
  {
  }

  /** A spring retargeted before it was ever ticked sets out for its new target at the speed it was given. */
  lemma UntickedSpringKeepsItsSpeed(d: Dynamics, m: Motion, to: real, config: SpringConfig, v: real, next: real,
                                    durationMs: int, nextConfig: SpringConfig)
    requires WellFormed(m) && v != 0.0
    ensures Step(d, Step(d, m, Settle(to, config, v)), Retarget(next, durationMs, Spring(nextConfig)))
         == Step(d, m, Settle(next, nextConfig, v))
  {
  }

  /** A value that is eased instead forgets its speed, so a spring that follows starts from rest. */
  lemma EasingForgetsSpeed(d: Dynamics, m: Motion, to: real, durationMs: int, shape: nat, next: real, nextMs: int,
                           config: SpringConfig)
    requires WellFormed(m)
    ensures var eased := Step(d, m, Retarget(to, durationMs, Eased(shape)));
      && eased.velocity == 0.0 && eased.current == m.current
      && !Step(d, eased, Retarget(next, nextMs, Spring(config))).physics
  {
  }

  /** A tick answers whether there was anything to do, a finish whether it ended the motion. */
  lemma AnswersExactly(d: Dynamics, m: Motion, event: Event)
    requires WellFormed(m)
    ensures event.Tick? ==> (Answer(m, event) <==> m.animating)
    ensures event.FinishTail? ==> (Answer(m, event) <==> m.animating && !Step(d, m, event).animating)
    ensures !event.Tick? && !event.FinishTail? ==> !Answer(m, event)
  {
    hide FallsShort, RoundingMargin;
  }

  /** Snapping leaves nothing of a motion but the curve and the duration it was given. */
  lemma SnapLeavesNothing(m: Motion, value: real)
    ensures Snapped(m, value) == Initial(value).(durationMsec := m.durationMsec, curve := m.curve)
  {
  }

  // ---------------------------------------------------------------- the speed of a curve

  /** The reported speed of a curve, in units per second, is what the value moved over the last millisecond. */
  lemma VelocityIsTheLastMillisecond(d: Dynamics, m: Motion, now: real)
    requires m.animating && !m.physics && m.startMsec != 0.0
    requires 1.0 <= now - m.startMsec < m.durationMsec as real
    ensures Ticked(d, m, now).velocity / 1000.0 == Ticked(d, m, now).current - Ticked(d, m, now - 1.0).current
  {
    var n := m.durationMsec as real;
    var elapsed, span := now - m.startMsec, m.target - m.from;
    var linear, before := elapsed / n, (elapsed - 1.0) / n;
    Shares(elapsed, n);
    var rise := d.ease(m.curve, linear) - d.ease(m.curve, before);
    assert (linear - before) * n == 1.0 by {
      assert linear * n == elapsed && before * n == elapsed - 1.0;
    }
    assert Slope(d, m.curve, m.durationMsec, span, linear, before) == span * rise / (1.0 / 1000.0);
    Rises(m.from, span, d.ease(m.curve, linear), d.ease(m.curve, before));
  }

  /** In its first millisecond a curve's speed is what it has moved since it started, over the time it took. */
  lemma VelocityAtTheStart(d: Dynamics, m: Motion, now: real)
    requires m.animating && !m.physics && m.startMsec != 0.0 && 0.0 <= now - m.startMsec < 1.0
    ensures var tick := Ticked(d, m, now);
      if now == m.startMsec then tick.velocity == 0.0
      else tick.velocity * ((now - m.startMsec) / 1000.0) == tick.current - Ticked(d, m, m.startMsec).current
  {
    var n, elapsed, span := m.durationMsec as real, now - m.startMsec, m.target - m.from;
    Unfinished(elapsed, m.durationMsec);
    Unfinished(0.0, m.durationMsec);
    var linear := elapsed / n;
    assert linear * n == elapsed;
    assert Max(0.0, linear - 1.0 / n) == 0.0 by {
      Difference(1.0, elapsed, n);
    }
    if elapsed > 0.0 {
      assert linear > 0.0 && (linear - 0.0) * n / 1000.0 == elapsed / 1000.0;
      var rise := d.ease(m.curve, linear) - d.ease(m.curve, 0.0);
      Rises(m.from, span, d.ease(m.curve, linear), d.ease(m.curve, 0.0));
      assert Slope(d, m.curve, m.durationMsec, span, linear, 0.0) == span * rise / (elapsed / 1000.0);
    }
  }

  lemma Shares(elapsed: real, n: real)
    requires 1.0 <= elapsed < n
    ensures 0.0 <= (elapsed - 1.0) / n < elapsed / n < 1.0
    ensures elapsed / n - 1.0 / n == (elapsed - 1.0) / n
  {
    var linear, before := elapsed / n, (elapsed - 1.0) / n;
    assert linear * n == elapsed && before * n == elapsed - 1.0;
    Difference(elapsed, 1.0, n);
    Quotients(elapsed - 1.0, elapsed, n);
    if linear == 1.0 || linear == before {
      assert false;
    }
  }

  lemma Rises(from: real, span: real, after: real, before: real)
    ensures Along(from, span, after) - Along(from, span, before) == span * (after - before)
  {
  }

  // ---------------------------------------------------------------- the tail of a spring

  /** Finishing early is invisible: whatever the remaining energy still reaches rounds to the target's own pixel. */
  lemma FinishedTailIsInvisible(m: Motion, pixelsPerUnit: real, position: real)
    requires WellFormed(m) && Finishes(m, pixelsPerUnit)
    requires (position - m.target) * (position - m.target) <= BoundSquared(m)
    ensures Round(Pixels(position, pixelsPerUnit)) == Round(Pixels(m.target, pixelsPerUnit))
    ensures var rest := TailFinished(m, pixelsPerUnit); !rest.animating && rest.current == rest.target == m.target
    ensures m.animating && m.physics && pixelsPerUnit > 0.0
  {
    var x, y := Pixels(m.target, pixelsPerUnit), Pixels(position, pixelsPerUnit);
    var distance := position - m.target;
    PixelsAdd(m.target, distance, pixelsPerUnit);
    hide BoundSquared, RoundingMargin, Round;
    Scaled(distance, pixelsPerUnit, BoundSquared(m));
    hide Pixels;
    SquareRoots(y - x, RoundingMargin(x));
    WithinMargin(x, y);
  }

  lemma Scaled(distance: real, scale: real, bound: real)
    requires distance * distance <= bound
    ensures Pixels(distance, scale) * Pixels(distance, scale) <= bound * (scale * scale)
  {
    Square(scale);
    Product(bound - distance * distance, scale * scale);
    SquareOfPixels(distance, scale);
  }

  lemma SquareOfPixels(units: real, scale: real)
    ensures Pixels(units, scale) * Pixels(units, scale) == (units * units) * (scale * scale)
  {
    assert (units * scale) * (units * scale) == (units * units) * (scale * scale);
  }

  lemma SquareRoots(a: real, margin: real)
    requires margin > 0.0 && a * a < margin * margin
    ensures -margin < a < margin
  {
    if a >= margin {
      Product(a - margin, a + margin);
    } else if a <= -margin {
      Product(-margin - a, margin - a);
    }
  }

  lemma WithinMargin(x: real, y: real)
    requires Abs(y - x) < RoundingMargin(x)
    ensures Round(y) == Round(x)
  {
  }

  /** The current position is among those, so the value is drawn where it was. */
  lemma CurrentIsReachable(m: Motion)
    requires m.curve.Spring?
    ensures (m.current - m.target) * (m.current - m.target) <= BoundSquared(m)
  {
    var mass := Max(MIN_PARAMETER, m.curve.config.mass);
    var stiffness := Max(MIN_PARAMETER, m.curve.config.stiffness);
    Product(m.velocity * m.velocity, mass / stiffness);
  }

  /** The energy left, a spring's and a mass's, is what the bound has if it is all in the spring. */
  lemma BoundIsEnergy(m: Motion)
    requires m.curve.Spring?
    ensures var mass, stiffness := Max(0.0001, m.curve.config.mass), Max(0.0001, m.curve.config.stiffness);
      stiffness * BoundSquared(m)
      == stiffness * ((m.current - m.target) * (m.current - m.target)) + mass * (m.velocity * m.velocity)
  {
    var mass, stiffness := Max(0.0001, m.curve.config.mass), Max(0.0001, m.curve.config.stiffness);
    var ratio, square := mass / stiffness, m.velocity * m.velocity;
    assert ratio * stiffness == mass;
    assert stiffness * (square * ratio) == square * (ratio * stiffness);
  }

  function Units(pixels: real, pixelsPerUnit: real): (units: real)
    requires pixelsPerUnit > 0.0
    ensures Pixels(units, pixelsPerUnit) == pixels
  {
    pixels / pixelsPerUnit
  }

  lemma Unscaled(distance: real, pixels: real, scale: real, bound: real)
    requires scale > 0.0 && Pixels(distance, scale) == pixels
    requires pixels * pixels <= bound * (scale * scale)
    ensures distance * distance <= bound
  {
    SquareOfPixels(distance, scale);
    if distance * distance > bound {
      Positive(distance * distance - bound, scale);
      Positive((distance * distance - bound) * scale, scale);
    }
  }

  lemma ExtraFits(margin: real, bound: real, excess: real, extra: real)
    requires 0.0 <= margin && margin * margin < bound && 0.0 < extra <= 1.0 && extra <= excess
    requires excess == (bound - margin * margin) / (2.0 * margin + 1.0)
    ensures (margin + extra) * (margin + extra) <= bound
  {
    assert excess * (2.0 * margin + 1.0) == bound - margin * margin;
    Product(excess - extra, 2.0 * margin + 1.0);
    Product(extra, 1.0 - extra);
    assert (margin + extra) * (margin + extra) == margin * margin + 2.0 * margin * extra + extra * extra;
  }

  /** A length beyond `margin` whose square is still within `bound`. */
  ghost function JustBeyond(margin: real, bound: real): (reach: real)
    requires 0.0 <= margin && margin * margin < bound
    ensures reach > margin && reach * reach <= bound
  {
    var excess := (bound - margin * margin) / (2.0 * margin + 1.0);
    var extra := if excess < 1.0 then excess else 1.0;
    ExtraFits(margin, bound, excess, extra);
    margin + extra
  }

  lemma BeyondMargin(x: real, step: real)
    requires x >= Round(x) as real ==> step > RoundingMargin(x)
    requires x < Round(x) as real ==> -step > RoundingMargin(x)
    ensures Round(x + step) != Round(x)
  {
  }

  /** The position that lies `reach` pixels from the target, on the side of the nearer pixel boundary. */
  lemma FarPosition(target: real, pixelsPerUnit: real, reach: real, bound: real) returns (position: real)
    requires pixelsPerUnit > 0.0
    requires reach > RoundingMargin(Pixels(target, pixelsPerUnit))
    requires reach * reach <= bound * (pixelsPerUnit * pixelsPerUnit)
    ensures (position - target) * (position - target) <= bound
    ensures Round(Pixels(position, pixelsPerUnit)) != Round(Pixels(target, pixelsPerUnit))
  {
    hide RoundingMargin, Round, Pixels;
    var x := Pixels(target, pixelsPerUnit);
    var step := if x >= Round(x) as real then reach else -reach;
    BeyondMargin(x, step);
    var distance := Units(step, pixelsPerUnit);
    PixelsAdd(target, distance, pixelsPerUnit);
    Unscaled(distance, step, pixelsPerUnit, bound);
    position := target + distance;
    assert position - target == distance;
  }

  /** The converse: with more energy than the margin takes, some position in reach rounds to another pixel. */
  lemma StrongerTailMightShow(m: Motion, pixelsPerUnit: real)
    requires m.curve.Spring? && pixelsPerUnit > 0.0
    requires var margin := RoundingMargin(Pixels(m.target, pixelsPerUnit));
      BoundSquared(m) * (pixelsPerUnit * pixelsPerUnit) > margin * margin
    ensures exists position ::
      && (position - m.target) * (position - m.target) <= BoundSquared(m)
      && Round(Pixels(position, pixelsPerUnit)) != Round(Pixels(m.target, pixelsPerUnit))
  {
    hide BoundSquared, RoundingMargin, Round, Pixels;
    var bound := BoundSquared(m);
    var reach := JustBeyond(RoundingMargin(Pixels(m.target, pixelsPerUnit)), bound * (pixelsPerUnit * pixelsPerUnit));
    var position := FarPosition(m.target, pixelsPerUnit, reach, bound);
  }

  // ---------------------------------------------------------------- the class

  class AnimatedValue {
    const dynamics: Dynamics
    var from: real
    var target: real
    var current: real
    var velocity: real
    var initialVelocity: real
    var progress: real
    var startMsec: real
    var durationMsec: Milliseconds
    var curve: Curve
    var animating: bool
    var physics: bool

    function Contents(): Motion
      reads this
    {
      Motion(from, target, current, velocity, initialVelocity, progress, startMsec, durationMsec, curve, animating,
             physics)
    }

    ghost predicate Valid()
      reads this
    {
      WellFormed(Contents())
    }

    constructor (dynamics: Dynamics, initialValue: real)
      ensures Valid() && this.dynamics == dynamics && Contents() == Initial(initialValue)
    {
      this.dynamics := dynamics;
      from, target, current := initialValue, initialValue, initialValue;
      velocity, initialVelocity, progress, startMsec, durationMsec := 0.0, 0.0, 1.0, 0.0, 1;
      curve, animating, physics := DEFAULT_CURVE, false, false;
    }

    method Snap(value: real)
      modifies this
      ensures Valid() && Contents() == Snapped(old(Contents()), value)
    {
      from, target, current := value, value, value;
      velocity, initialVelocity, progress, startMsec := 0.0, 0.0, 1.0, 0.0;
      animating, physics := false, false;
    }

    /** The value never jumps, and a spring cut short keeps the speed it had. */
    method Retarget(to: real, durationMs: int, newCurve: Curve)
      requires Valid()
      modifies this
      ensures Valid() && Contents() == Retargeted(dynamics, old(Contents()), to, durationMs, newCurve)
      ensures animating && target == to && current == old(current) == from
      ensures newCurve.Spring? && old(animating) ==> velocity == old(velocity)
      ensures !(newCurve.Spring? && old(animating)) ==> velocity == 0.0
    {
      if newCurve.Spring? && animating && velocity != 0.0 {
        SettleSpring(to, newCurve.config, velocity);
        return;
      }
      from, target := current, to;
      durationMsec := if newCurve.Spring? then dynamics.springDuration(newCurve.config)
                      else if durationMs < 1 then 1 else durationMs;
      curve, startMsec, progress, animating, physics := newCurve, 0.0, 0.0, true, false;
      initialVelocity, velocity := 0.0, 0.0;
    }

    method SettleSpring(to: real, config: SpringConfig, v: real)
      requires Valid()
      modifies this
      ensures Valid() && Contents() == Sprung(old(Contents()), to, config, v)
    {
      from, target := current, to;
      curve, initialVelocity, velocity := Spring(config), v, v;
      startMsec, progress, animating, physics := 0.0, 0.0, true, true;
    }

    /** Finishes exactly when nothing the spring still reaches would be drawn on another pixel, short of a tie. */
    method FinishSpringTail(pixelsPerUnit: real) returns (finished: bool)
      requires Valid()
      modifies this
      ensures Valid() && Contents() == TailFinished(old(Contents()), pixelsPerUnit)
      ensures finished == Finishes(old(Contents()), pixelsPerUnit)
      ensures finished ==> Round(Pixels(current, pixelsPerUnit)) == Round(Pixels(old(current), pixelsPerUnit))
    {
      if !animating || !physics || pixelsPerUnit <= 0.0 {
        return false;
      }
      var targetPixels := Pixels(target, pixelsPerUnit);
      var roundedTarget := Round(targetPixels);
      var roundingMargin := 0.5 - Abs(targetPixels - roundedTarget as real);
      var remaining := BoundSquared(Contents());
      if !FallsShort(remaining, pixelsPerUnit, roundingMargin) {
        return false;
      }
      CurrentIsReachable(Contents());
      FinishedTailIsInvisible(Contents(), pixelsPerUnit, current);
      Snap(target);
      return true;
    }

    method Translate(delta: real)
      requires Valid()
      modifies this
      ensures Valid() && Contents() == Translated(old(Contents()), delta)
    {
      from := from + delta;
      target := target + delta;
      current := current + delta;
    }

    method Tick(now: real) returns (wasAnimating: bool)
      requires Valid()
      modifies this
      ensures Valid() && Contents() == Ticked(dynamics, old(Contents()), now)
      ensures wasAnimating == old(animating)
    {
      ghost var next := Step(dynamics, Contents(), Event.Tick(now));
      assert WellFormed(next) && next == Ticked(dynamics, Contents(), now);
      hide Slope, Along, Solved, WellFormed, Step, Max, Clamp;
      if !animating {
        return false;
      }
      if startMsec == 0.0 {
        startMsec := now;
      }
      var elapsed := Max(0.0, now - startMsec);
      if physics {
        var solved := Solved(dynamics, curve.config, from, target, initialVelocity, elapsed / 1000.0);
        current, velocity := solved.0, solved.1;
        var span := target - from;
        progress := if span != 0.0 then Clamp((current - from) / span, 0.0, 1.0) else 1.0;
        if current == target && velocity == 0.0 {
          progress := 1.0;
          animating := false;
        }
        return true;
      }
      var linear := Clamp(elapsed / durationMsec as real, 0.0, 1.0);
      progress := linear;
      if linear >= 1.0 {
        current, velocity, animating := target, 0.0, false;
        return true;
      }
      current := Along(from, target - from, dynamics.ease(curve, linear));
      var before := Max(0.0, linear - 1.0 / durationMsec as real);
      velocity := Slope(dynamics, curve, durationMsec, target - from, linear, before);
      return true;
    }
  }
}
