/** The timer that scrolls while a drag rests near an edge (src/input/cursor.cpp). */
module EdgeScroll {
  import opened Options
  import opened Reals

  const TICK_MS: nat := 16
  const MAX_ELAPSED_MS: nat := 50
  const CLOCK_WRAP: nat := 0x1_0000_0000

  /** What the pointer's place allows to move right now, each with its signed speed in pixels per second. */
  datatype Targets = Targets(workspace: Option<nat>, speed: real, filmstrip: Option<nat>, filmstripSpeed: real)

  /** Something that scrolls between zero and `maximum`; a filmstrip moves `rate` rows per pixel. */
  datatype StripData = Strip(scroll: real, maximum: real, rate: real)
  type Strip = s: StripData | s.maximum >= 0.0 && s.rate >= 0.0 witness Strip(0.0, 0.0, 0.0)

  datatype State = State(
    workspace: Option<nat>,
    filmstrip: Option<nat>,
    speed: real,
    filmstripSpeed: real,
    lastMsec: nat,
    pending: bool,
    due: Option<nat>,         // the armed timer's delay
    strips: map<nat, Strip>,  // scrolling layouts by workspace
    rows: map<nat, Strip>     // overview filmstrips by output
  )

  // ---------------------------------------------------------------- one call

  function Direction(speed: real): int {
    if speed > 0.0 then 1 else if speed < 0.0 then -1 else 0
  }

  predicate NoTargets(t: Targets) {
    t.workspace.None? && t.filmstrip.None?
  }

  predicate NoSinks(s: State) {
    s.workspace.None? && s.filmstrip.None?
  }

  /** A sink appears or an active one changes direction. */
  predicate Restarts(s: State, t: Targets) {
    || (t.workspace.Some? && (t.workspace != s.workspace || Direction(t.speed) != Direction(s.speed)))
    || (t.filmstrip.Some? && (t.filmstrip != s.filmstrip || Direction(t.filmstripSpeed) != Direction(s.filmstripSpeed)))
  }

  function Aimed(s: State, t: Targets): State {
    s.(workspace := t.workspace, filmstrip := t.filmstrip, speed := t.speed, filmstripSpeed := t.filmstripSpeed)
  }

  function Cancelled(s: State): State {
    s.(workspace := None, filmstrip := None, speed := 0.0, filmstripSpeed := 0.0, lastMsec := 0, pending := false,
       due := None)
  }

  function Updated(s: State, t: Targets, delayMs: int, now: nat): State
    decreases if Restarts(s, t) then 1 else 0, 0
  {
    if NoTargets(t) then Cancelled(s)
    else if !Restarts(s, t) then Aimed(s, t)
    else
      var restarted := Aimed(s, t).(lastMsec := 0, pending := true);
      if delayMs > 0 then restarted.(due := Some(delayMs)) else Handled(restarted, t, delayMs, now)
  }

  function Handled(s: State, t: Targets, delayMs: int, now: nat): State
    decreases if Restarts(s, t) then 1 else 0, 1
  {
    if NoTargets(t) then Cancelled(s)
    else if Restarts(s, t) then Updated(s, t, delayMs, now)
    else
      var aimed := Aimed(s, t);
      if s.pending then aimed.(pending := false, lastMsec := now, due := Some(TICK_MS))
      else Ticked(aimed.(lastMsec := now), Elapsed(s.lastMsec, now))
  }

  /** Milliseconds since the last tick on a 32-bit clock, capped. */
  function Elapsed(last: nat, now: nat): (elapsed: nat)
    ensures elapsed <= MAX_ELAPSED_MS
  {
    var passed := (now - last) % CLOCK_WRAP;
    if passed < MAX_ELAPSED_MS then passed else MAX_ELAPSED_MS
  }

  function Ticked(s: State, elapsed: nat): State {
    if elapsed == 0 then s.(due := Some(TICK_MS))
    else
      var scrolled := WorkspaceScrolled(s, elapsed);
      var moved := FilmstripScrolled(scrolled, elapsed);
      if moved.workspace.None? && moved.filmstrip.None? then Cancelled(moved) else moved.(due := Some(TICK_MS))
  }

  function Advanced(strip: Strip, speed: real, elapsed: nat): real {
    Clamp(strip.scroll + speed * elapsed as real / 1000.0, 0.0, strip.maximum)
  }

  /** A filmstrip's speed in rows. */
  function RowSpeed(speed: real, row: Strip): real {
    speed * row.rate
  }

  function Slid(strip: Strip, speed: real, elapsed: nat): Strip {
    strip.(scroll := Advanced(strip, speed, elapsed))
  }

  /** Moves the workspace's strip, or drops the sink when it has nowhere left to go. */
  function WorkspaceScrolled(s: State, elapsed: nat): State {
    if s.workspace.None? then s
    else
      var w := s.workspace.value;
      if w in s.strips && Slid(s.strips[w], s.speed, elapsed) != s.strips[w]
      then s.(strips := s.strips[w := Slid(s.strips[w], s.speed, elapsed)])
      else s.(workspace := None, speed := 0.0)
  }

  function FilmstripScrolled(s: State, elapsed: nat): State {
    if s.filmstrip.None? then s
    else
      var o := s.filmstrip.value;
      if o in s.rows && Slid(s.rows[o], RowSpeed(s.filmstripSpeed, s.rows[o]), elapsed) != s.rows[o]
      then s.(rows := s.rows[o := Slid(s.rows[o], RowSpeed(s.filmstripSpeed, s.rows[o]), elapsed)])
      else s.(filmstrip := None, filmstripSpeed := 0.0)
  }

  // ---------------------------------------------------------------- a call that starts or keeps a scroll

  /** A call that starts a scroll moves nothing, whichever call it is, and arms the timer for the fresh delay. */
  lemma StartingMovesNothing(s: State, t: Targets, delayMs: int, now: nat)
    requires Restarts(s, t)
    ensures Handled(s, t, delayMs, now) == Updated(s, t, delayMs, now)
    ensures var next := Updated(s, t, delayMs, now);
      && next.strips == s.strips && next.rows == s.rows
      && next == Aimed(s, t).(
        pending := delayMs > 0,
        lastMsec := if delayMs > 0 then 0 else now,
        due := Some(if delayMs > 0 then delayMs else TICK_MS))
  {
  }

  /** The first firing after the delay only starts the clock. */
  lemma DelayMovesNothing(s: State, t: Targets, delayMs: int, now: nat)
    requires s.pending
    ensures var next := Handled(s, t, delayMs, now); next.strips == s.strips && next.rows == s.rows
  {
    if Restarts(s, t) {
      StartingMovesNothing(s, t, delayMs, now);
    }
  }

  predicate Timeline(s: State, u: State) {
    s.pending == u.pending && s.lastMsec == u.lastMsec && s.due == u.due
  }

  predicate Continues(before: Option<nat>, speed: real, after: Option<nat>, newSpeed: real) {
    after.None? || (after == before && Direction(newSpeed) == Direction(speed))
  }

  /** A pointer update leaves the timeline alone exactly when every remaining sink goes on as it was. */
  lemma DroppingOneSinkKeepsTheOther(s: State, t: Targets, delayMs: int, now: nat)
    requires !NoTargets(t)
    ensures Restarts(s, t) <==> !(&& Continues(s.workspace, s.speed, t.workspace, t.speed)
                                  && Continues(s.filmstrip, s.filmstripSpeed, t.filmstrip, t.filmstripSpeed))
    ensures !Restarts(s, t) ==> Timeline(s, Updated(s, t, delayMs, now))
  {
  }

  // ---------------------------------------------------------------- how far a call moves

  predicate InRange(strip: Strip) {
    0.0 <= strip.scroll <= strip.maximum
  }

  /** The strip stays in range, keeps to the speed's direction, and covers at most fifty milliseconds of it. */
  predicate SlidesWithin(before: Strip, after: Strip, speed: real) {
    && after.maximum == before.maximum && after.rate == before.rate
    && InRange(after)
    && (InRange(before) ==>
          && Abs(after.scroll - before.scroll) <= Abs(speed) * MAX_ELAPSED_MS as real / 1000.0
          && (speed >= 0.0 ==> after.scroll >= before.scroll)
          && (speed <= 0.0 ==> after.scroll <= before.scroll))
  }

  lemma SlideBounds(strip: Strip, speed: real, elapsed: nat)
    requires elapsed <= MAX_ELAPSED_MS
    ensures SlidesWithin(strip, Slid(strip, speed, elapsed), speed)
  {
    var e := elapsed as real;
    Product(Abs(speed), e);
    Product(Abs(speed), MAX_ELAPSED_MS as real - e);
    assert speed * e == if speed < 0.0 then -(Abs(speed) * e) else Abs(speed) * e;
  }

  /** Only the two sinks ever move, and each within its bounds. */
  ghost predicate MovesOnlySinks(s: State, next: State, t: Targets) {
    && next.strips.Keys == s.strips.Keys && next.rows.Keys == s.rows.Keys
    && (forall w | w in s.strips && next.strips[w] != s.strips[w] ::
          t.workspace == Some(w) && SlidesWithin(s.strips[w], next.strips[w], t.speed))
    && (forall o | o in s.rows && next.rows[o] != s.rows[o] ::
          t.filmstrip == Some(o) && SlidesWithin(s.rows[o], next.rows[o], RowSpeed(t.filmstripSpeed, s.rows[o])))
  }

  lemma FiringMovesOnlySinks(s: State, t: Targets, delayMs: int, now: nat)
    ensures MovesOnlySinks(s, Handled(s, t, delayMs, now), t)
  {
    hide SlidesWithin, Slid, RowSpeed, WorkspaceScrolled, FilmstripScrolled;
    if Restarts(s, t) {
      if !NoTargets(t) {
        StartingMovesNothing(s, t, delayMs, now);
      }
    } else if !NoTargets(t) && !s.pending {
      var aimed := Aimed(s, t).(lastMsec := now);
      var elapsed := Elapsed(s.lastMsec, now);
      if elapsed > 0 {
        TickMovesOnlySinks(aimed, t, elapsed);
      }
    }
  }

  lemma TickMovesOnlySinks(s: State, t: Targets, elapsed: nat)
    requires s == Aimed(s, t) && 0 < elapsed <= MAX_ELAPSED_MS
    ensures MovesOnlySinks(s, Ticked(s, elapsed), t)
  {
    hide SlidesWithin, Slid, RowSpeed;
    if s.workspace.Some? && s.workspace.value in s.strips {
      SlideBounds(s.strips[s.workspace.value], s.speed, elapsed);
    }
    if s.filmstrip.Some? && s.filmstrip.value in s.rows {
      var row := s.rows[s.filmstrip.value];
      SlideBounds(row, RowSpeed(s.filmstripSpeed, row), elapsed);
    }
  }

  predicate HasRoom(strip: Strip, speed: real) {
    (speed > 0.0 && strip.scroll < strip.maximum) || (speed < 0.0 && strip.scroll > 0.0)
  }

  lemma SlideMoves(strip: Strip, speed: real, elapsed: nat)
    requires InRange(strip) && elapsed > 0
    ensures HasRoom(strip, speed) <==> Slid(strip, speed, elapsed) != strip
    ensures HasRoom(strip, speed) && speed > 0.0 ==> Slid(strip, speed, elapsed).scroll > strip.scroll
    ensures HasRoom(strip, speed) && speed < 0.0 ==> Slid(strip, speed, elapsed).scroll < strip.scroll
  {
    var e := elapsed as real;
    if speed > 0.0 {
      Positive(speed, e);
    } else if speed < 0.0 {
      Positive(-speed, e);
    }
  }

  /** A tick keeps the workspace sink, strictly moving its strip, exactly while there is room in its direction. */
  lemma SinkLastsWhileThereIsRoom(s: State, t: Targets, delayMs: int, now: nat, w: nat)
    requires !Restarts(s, t) && !s.pending && Elapsed(s.lastMsec, now) > 0
    requires t.workspace == Some(w) && w in s.strips && InRange(s.strips[w])
    ensures var next := Handled(s, t, delayMs, now);
      && (next.workspace == Some(w) <==> HasRoom(s.strips[w], t.speed))
      && (!HasRoom(s.strips[w], t.speed) ==>
            next.workspace == None && next.speed == 0.0 && w in next.strips && next.strips[w] == s.strips[w])
      && (HasRoom(s.strips[w], t.speed) ==>
            && next.due == Some(TICK_MS)
            && (t.speed > 0.0 ==> next.strips[w].scroll > s.strips[w].scroll)
            && (t.speed < 0.0 ==> next.strips[w].scroll < s.strips[w].scroll))
  {
    SlideMoves(s.strips[w], t.speed, Elapsed(s.lastMsec, now));
  }

  /** Likewise for the filmstrip sink, whose speed is scaled to its row. */
  lemma FilmstripLastsWhileThereIsRoom(s: State, t: Targets, delayMs: int, now: nat, o: nat)
    requires !Restarts(s, t) && !s.pending && Elapsed(s.lastMsec, now) > 0
    requires t.filmstrip == Some(o) && o in s.rows && InRange(s.rows[o])
    ensures var next, speed := Handled(s, t, delayMs, now), RowSpeed(t.filmstripSpeed, s.rows[o]);
      && (next.filmstrip == Some(o) <==> HasRoom(s.rows[o], speed))
      && (!HasRoom(s.rows[o], speed) ==>
            next.filmstrip == None && next.filmstripSpeed == 0.0 && o in next.rows && next.rows[o] == s.rows[o])
      && (HasRoom(s.rows[o], speed) ==>
            && next.due == Some(TICK_MS)
            && (speed > 0.0 ==> next.rows[o].scroll > s.rows[o].scroll)
            && (speed < 0.0 ==> next.rows[o].scroll < s.rows[o].scroll))
  {
    hide RowSpeed;
    SlideMoves(s.rows[o], RowSpeed(t.filmstripSpeed, s.rows[o]), Elapsed(s.lastMsec, now));
  }

  /** A firing in the millisecond of the last one only waits for the next. */
  lemma NoTimeNoMove(s: State, t: Targets, delayMs: int, now: nat)
    requires !NoTargets(t) && !Restarts(s, t) && !s.pending && Shows(s.lastMsec, 0, now)
    ensures Handled(s, t, delayMs, now)
         == s.(workspace := t.workspace, filmstrip := t.filmstrip, speed := t.speed, filmstripSpeed := t.filmstripSpeed,
               lastMsec := now, due := Some(16))
  {
    ElapsedExactly(s.lastMsec, now);
  }

  // ---------------------------------------------------------------- how far exactly

  const CLOCK: nat := 4294967296

  /** So long after `last` a clock that wraps shows what it shows now. */
  predicate Shows(last: nat, elapsed: nat, now: nat) {
    (last + elapsed) % CLOCK == now % CLOCK
  }

  /** The time since the last tick is the least that takes the wrapping clock to its new value, or fifty at most. */
  lemma ElapsedExactly(last: nat, now: nat)
    ensures var elapsed := Elapsed(last, now);
      && elapsed <= 50
      && (elapsed < 50 ==> Shows(last, elapsed, now))
      && forall shorter | 0 <= shorter < elapsed :: !Shows(last, shorter, now)
  {
    var passed := (now - last) % CLOCK;
    SameClock(last + passed, now, (now - last) / CLOCK);
    forall shorter | 0 <= shorter < Elapsed(last, now) ensures !Shows(last, shorter, now) {
      if Shows(last, shorter, now) {
        var turns := now / CLOCK - (last + shorter) / CLOCK;
        assert now - last == turns * CLOCK + shorter;
        Remainder(now - last, turns, shorter);
      }
    }
  }

  lemma SameClock(a: int, b: int, turns: int)
    requires b == a + turns * CLOCK
    ensures a % CLOCK == b % CLOCK
  {
    Remainder(b, turns + a / CLOCK, a % CLOCK);
  }

  lemma Remainder(x: int, turns: int, rest: nat)
    requires x == turns * CLOCK + rest && rest < CLOCK
    ensures x % CLOCK == rest
  {
  }

  /** How far a speed per second goes in so many milliseconds. */
  function Distance(speed: real, elapsed: int): real {
    speed * (elapsed as real / 1000.0)
  }

  /** Moved by a distance, stopped at whichever end it runs into. */
  ghost predicate MovedBy(before: Strip, after: Strip, distance: real) {
    && after.maximum == before.maximum && after.rate == before.rate
    && var goal := before.scroll + distance;
       && (0.0 <= goal <= before.maximum ==> after.scroll == goal)
       && (goal < 0.0 ==> after.scroll == 0.0)
       && (goal > before.maximum ==> after.scroll == before.maximum)
  }

  /** A tick moves each strip it finds by speed times time; a filmstrip's speed is scaled by its row's rate. */
  lemma TickMovesExactly(s: State, t: Targets, delayMs: int, now: nat)
    requires !NoTargets(t) && !Restarts(s, t) && !s.pending && Elapsed(s.lastMsec, now) > 0
    ensures var next, e := Handled(s, t, delayMs, now), Elapsed(s.lastMsec, now);
      && (t.workspace.Some? && t.workspace.value in s.strips ==>
            var w := t.workspace.value; w in next.strips && MovedBy(s.strips[w], next.strips[w], Distance(t.speed, e)))
      && (t.filmstrip.Some? && t.filmstrip.value in s.rows ==>
            var o := t.filmstrip.value;
            && o in next.rows
            && MovedBy(s.rows[o], next.rows[o], Distance(RowSpeed(t.filmstripSpeed, s.rows[o]), e)))
  {
    var e, aimed := Elapsed(s.lastMsec, now), Aimed(s, t).(lastMsec := now);
    assert Handled(s, t, delayMs, now) == Ticked(aimed, e);
    assert aimed.speed == t.speed && aimed.filmstripSpeed == t.filmstripSpeed && aimed.workspace == t.workspace
           && aimed.filmstrip == t.filmstrip && aimed.strips == s.strips && aimed.rows == s.rows;
    TickSlides(aimed, e);
    hide *;
    if t.workspace.Some? && t.workspace.value in s.strips {
      SlidExactly(s.strips[t.workspace.value], t.speed, e);
    }
    if t.filmstrip.Some? && t.filmstrip.value in s.rows {
      var row := s.rows[t.filmstrip.value];
      SlidExactly(row, RowSpeed(t.filmstripSpeed, row), e);
    }
  }

  lemma RateOfRow(speed: real, row: Strip)
    ensures RowSpeed(speed, row) == speed * row.rate
  {
  }

  lemma TickSlides(s: State, elapsed: nat)
    requires elapsed > 0
    ensures var next := Ticked(s, elapsed);
      && (s.workspace.Some? && s.workspace.value in s.strips ==>
            var w := s.workspace.value; w in next.strips && next.strips[w] == Slid(s.strips[w], s.speed, elapsed))
      && (s.filmstrip.Some? && s.filmstrip.value in s.rows ==>
            var o := s.filmstrip.value;
            && o in next.rows
            && next.rows[o] == Slid(s.rows[o], RowSpeed(s.filmstripSpeed, s.rows[o]), elapsed))
  {
    hide Slid, RowSpeed;
  }

  lemma SlidExactly(strip: Strip, speed: real, elapsed: nat)
    ensures MovedBy(strip, Slid(strip, speed, elapsed), Distance(speed, elapsed))
  {
    assert speed * elapsed as real / 1000.0 == speed * (elapsed as real / 1000.0);
  }

  /** The timer fires at these times, the pointer staying where it is. */
  function Firings(t: Targets, delayMs: int, times: seq<nat>): seq<Event> {
    seq(|times|, i requires 0 <= i < |times| => Fire(t, delayMs, times[i]))
  }

  /** Never twice in the same millisecond, and never more than fifty apart. */
  predicate Prompt(last: nat, times: seq<nat>) {
    times != [] ==> && last < times[0] <= last + 50
                    && forall i, j | 0 <= i < j == i + 1 < |times| :: times[i] < times[j] <= times[i] + 50
  }

  /** Where a strip has got to at a time, if nothing is in its way. */
  function Due(strip: Strip, speed: real, since: nat, now: nat): real {
    strip.scroll + Distance(speed, now - since as int)
  }

  /** Whatever the ticks, a strip moves at its speed from the first to the last, and stops only at an end. */
  lemma {:induction false} ScrollsAtItsSpeed(s: State, t: Targets, delayMs: int, times: seq<nat>, w: nat)
    requires t.workspace == Some(w) && t.filmstrip == None && w in s.strips
    requires s == Aimed(s, t) && !s.pending && s.due.Some?
    requires times != [] && Prompt(s.lastMsec, times)
    requires forall i | 0 <= i < |times| - 1 ::
               0.0 < Due(s.strips[w], t.speed, s.lastMsec, times[i]) < s.strips[w].maximum
    requires HasRoom(s.strips[w], t.speed) && InRange(s.strips[w])
    ensures var next := Run(s, Firings(t, delayMs, times));
      && w in next.strips
      && MovedBy(s.strips[w], next.strips[w], Distance(t.speed, times[|times| - 1] - s.lastMsec as int))
    decreases |times|
  {
    var events, next := Firings(t, delayMs, times), Handled(s.(due := None), t, delayMs, times[0]);
    assert Step(s, events[0]) == next;
    OneFiring(s, t, delayMs, times[0], w);
    hide Handled, Distance;
    if |times| == 1 {
      assert events[1..] == [];
    } else {
      assert events[1..] == Firings(t, delayMs, times[1..]);
      StillDue(s.strips[w], next.strips[w], t.speed, s.lastMsec, times);
      ScrollsAtItsSpeed(next, t, delayMs, times[1..], w);
    }
  }

  lemma OneFiring(s: State, t: Targets, delayMs: int, now: nat, w: nat)
    requires t.workspace == Some(w) && t.filmstrip == None && w in s.strips && s == Aimed(s, t) && !s.pending
    requires s.lastMsec < now <= s.lastMsec + 50 && HasRoom(s.strips[w], t.speed) && InRange(s.strips[w])
    ensures var next := Handled(s.(due := None), t, delayMs, now);
      && next == s.(strips := next.strips, lastMsec := now, due := Some(16))
      && w in next.strips && MovedBy(s.strips[w], next.strips[w], Distance(t.speed, now - s.lastMsec))
  {
    ElapsedSoon(s.lastMsec, now);
    TickMovesExactly(s.(due := None), t, delayMs, now);
    SlideMoves(s.strips[w], t.speed, now - s.lastMsec);
    hide MovedBy, Distance, Slid;
  }

  lemma ElapsedSoon(last: nat, now: nat)
    requires 0 < now - last <= 50
    ensures Elapsed(last, now) == now - last
  {
  }

  /** Having moved for a while, a strip is due where it was due before. */
  lemma StillDue(before: Strip, after: Strip, speed: real, since: nat, times: seq<nat>)
    requires times != [] && after == before.(scroll := Due(before, speed, since, times[0]))
    ensures forall i | 0 <= i < |times| :: Due(after, speed, times[0], times[i]) == Due(before, speed, since, times[i])
  {
    forall i | 0 <= i < |times|
      ensures Due(after, speed, times[0], times[i]) == Due(before, speed, since, times[i])
    {
      var first, then' := times[0] as int - since as int, times[i] as int - times[0] as int;
      var a, b := first as real / 1000.0, then' as real / 1000.0;
      assert a + b == (times[i] as int - since as int) as real / 1000.0;
      assert speed * a + speed * b == speed * (a + b);
    }
  }

  // ---------------------------------------------------------------- runs

  datatype Event =
    | Pointer(targets: Targets, delayMs: int, now: nat)
    | Fire(targets: Targets, delayMs: int, now: nat)
    | Cancel
    | Scene(strips: map<nat, Strip>, rows: map<nat, Strip>)  // anything else that scrolls or resizes

  /** The timer is armed exactly when there is a sink to scroll. */
  predicate ArmedForSinks(s: State) {
    s.due.None? <==> NoSinks(s)
  }

  const IDLE: State := State(None, None, 0.0, 0.0, 0, false, None, map[], map[])

  /** Cancelling leaves nothing of a scroll, as if there had been none. */
  lemma CancelForgets(s: State)
    ensures Step(s, Cancel) == Step(IDLE, Scene(s.strips, s.rows))
  {
  }

  /** Without a sink under the pointer an update or a firing cancels. */
  lemma LeavingTheEdgeCancels(s: State, t: Targets, delayMs: int, now: nat)
    requires t.workspace == None && t.filmstrip == None
    ensures Step(s, Pointer(t, delayMs, now)) == Step(s, Cancel)
    ensures s.due.Some? ==> Step(s, Fire(t, delayMs, now)) == Step(s, Cancel)
  {
  }

  /** A timer fires once and is disarmed when it does; it cannot fire while it is not armed. */
  function Step(s: State, event: Event): State {
    match event
    case Pointer(t, delayMs, now) => Updated(s, t, delayMs, now)
    case Fire(t, delayMs, now) => if s.due.None? then s else Handled(s.(due := None), t, delayMs, now)
    case Cancel => Cancelled(s)
    case Scene(strips, rows) => s.(strips := strips, rows := rows)
  }

  function Run(s: State, events: seq<Event>): State
    decreases |events|
  {
    if events == [] then s else Run(Step(s, events[0]), events[1..])
  }

  lemma FiringArmsForSinks(s: State, t: Targets, delayMs: int, now: nat)
    ensures ArmedForSinks(Handled(s, t, delayMs, now))
  {
    if Restarts(s, t) && !NoTargets(t) {
      StartingMovesNothing(s, t, delayMs, now);
    }
  }

  lemma StepArmsForSinks(s: State, event: Event)
    requires ArmedForSinks(s)
    ensures ArmedForSinks(Step(s, event))
  {
    match event
    case Pointer(t, delayMs, now) =>
      if Restarts(s, t) {
        StartingMovesNothing(s, t, delayMs, now);
      }
    case Fire(t, delayMs, now) => FiringArmsForSinks(s.(due := None), t, delayMs, now);
    case _ =>
  }

  lemma {:induction false} EveryRunArmsForSinks(s: State, events: seq<Event>)
    requires ArmedForSinks(s)
    ensures ArmedForSinks(Run(s, events))
    decreases |events|
  {
    if events == [] {
    } else {
      StepArmsForSinks(s, events[0]);
      EveryRunArmsForSinks(Step(s, events[0]), events[1..]);
    }
  }

  ghost predicate AllInRange(s: State) {
    && (forall w | w in s.strips :: InRange(s.strips[w]))
    && (forall o | o in s.rows :: InRange(s.rows[o]))
  }

  /** As long as everyone else keeps the strips in range, so does the edge scroll, in every run. */
  lemma {:induction false} EveryRunStaysInRange(s: State, events: seq<Event>)
    requires AllInRange(s)
    requires forall i | 0 <= i < |events| && events[i].Scene? ::
      AllInRange(s.(strips := events[i].strips, rows := events[i].rows))
    ensures AllInRange(Run(s, events))
    decreases |events|
  {
    if events == [] {
    } else {
      StepStaysInRange(s, events[0]);
      EveryRunStaysInRange(Step(s, events[0]), events[1..]);
    }
  }

  lemma StepStaysInRange(s: State, event: Event)
    requires AllInRange(s)
    requires event.Scene? ==> AllInRange(s.(strips := event.strips, rows := event.rows))
    ensures AllInRange(Step(s, event))
  {
    match event
    case Pointer(t, delayMs, now) =>
      if Restarts(s, t) {
        StartingMovesNothing(s, t, delayMs, now);
      }
    case Fire(t, delayMs, now) => FiringMovesOnlySinks(s.(due := None), t, delayMs, now);
    case _ =>
  }

  // ---------------------------------------------------------------- the class

  class EdgeScroller {
    var workspace: Option<nat>
    var filmstrip: Option<nat>
    var speed: real
    var filmstripSpeed: real
    var lastMsec: nat
    var pending: bool
    var due: Option<nat>
    var strips: map<nat, Strip>
    var rows: map<nat, Strip>

    function Contents(): State
      reads this
    {
      State(workspace, filmstrip, speed, filmstripSpeed, lastMsec, pending, due, strips, rows)
    }

    constructor ()
      ensures Contents() == IDLE
    {
      workspace, filmstrip, speed, filmstripSpeed := None, None, 0.0, 0.0;
      lastMsec, pending, due, strips, rows := 0, false, None, map[], map[];
    }

    method Cancel()
      modifies this
      ensures Contents() == Cancelled(old(Contents()))
    {
      due := None;
      workspace, filmstrip, speed, filmstripSpeed := None, None, 0.0, 0.0;
      lastMsec, pending := 0, false;
    }

    method Aim(t: Targets) returns (restart: bool)
      modifies this
      ensures Contents() == Aimed(old(Contents()), t) && restart == Restarts(old(Contents()), t)
    {
      restart := Restarts(Contents(), t);
      workspace, filmstrip, speed, filmstripSpeed := t.workspace, t.filmstrip, t.speed, t.filmstripSpeed;
    }

    method Update(t: Targets, delayMs: int, now: nat)
      modifies this
      ensures Contents() == Updated(old(Contents()), t, delayMs, now)
      decreases if Restarts(Contents(), t) then 1 else 0, 0
    {
      if NoTargets(t) {
        Cancel();
        return;
      }
      var restart := Aim(t);
      if !restart {
        return;
      }
      lastMsec, pending := 0, true;
      if delayMs > 0 {
        due := Some(delayMs);
      } else {
        Handle(t, delayMs, now);
      }
    }

    method Handle(t: Targets, delayMs: int, now: nat)
      modifies this
      ensures Contents() == Handled(old(Contents()), t, delayMs, now)
      decreases if Restarts(Contents(), t) then 1 else 0, 1
    {
      if NoTargets(t) {
        Cancel();
        return;
      }
      if Restarts(Contents(), t) {
        Update(t, delayMs, now);
        return;
      }
      var _ := Aim(t);
      if pending {
        pending, lastMsec, due := false, now, Some(TICK_MS);
        return;
      }
      var elapsed := Elapsed(lastMsec, now);
      lastMsec := now;
      if elapsed == 0 {
        due := Some(TICK_MS);
        return;
      }
      var scrolled := ScrollWorkspace(elapsed);
      var slid := ScrollFilmstrip(elapsed);
      if !scrolled && !slid {
        Cancel();
        return;
      }
      due := Some(TICK_MS);
    }

    method ScrollWorkspace(elapsed: nat) returns (moved: bool)
      modifies this
      ensures Contents() == WorkspaceScrolled(old(Contents()), elapsed)
      ensures moved <==> workspace.Some?
      ensures filmstrip == old(filmstrip)
    {
      hide Advanced;
      moved := false;
      if workspace.Some? {
        var w := workspace.value;
        if w in strips && Advanced(strips[w], speed, elapsed) != strips[w].scroll {
          strips := strips[w := strips[w].(scroll := Advanced(strips[w], speed, elapsed))];
          moved := true;
        } else {
          workspace, speed := None, 0.0;
        }
      }
    }

    method ScrollFilmstrip(elapsed: nat) returns (moved: bool)
      modifies this
      ensures Contents() == FilmstripScrolled(old(Contents()), elapsed)
      ensures moved <==> filmstrip.Some?
    {
      hide Advanced, RowSpeed;
      moved := false;
      if filmstrip.Some? {
        var o := filmstrip.value;
        if o in rows && Advanced(rows[o], RowSpeed(filmstripSpeed, rows[o]), elapsed) != rows[o].scroll {
          rows := rows[o := rows[o].(scroll := Advanced(rows[o], RowSpeed(filmstripSpeed, rows[o]), elapsed))];
          moved := true;
        } else {
          filmstrip, filmstripSpeed := None, 0.0;
        }
      }
    }
  }
}
