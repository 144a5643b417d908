/**
 The relay between an input-emulation client and the library behind it (src/input/eis_socket.cpp):
 two channels that forward bytes and file descriptors, with bounded queues, partial writes,
 per-dispatch budgets and half-close.

 What the kernel answers is arbitrary within the socket interface's rules. A channel's life is the
 sequence of its effective steps; the classes below keep that sequence as ghost state, so every
 lemma about runs is a statement about every state the code can reach.
 */
module Relay {
  import opened Lists

  const MAX_QUEUED_BYTES: nat := 65536
  const MAX_QUEUED_FDS: nat := 64
  const MAX_QUEUED_PACKETS: nat := 128
  const READ_SIZE: nat := 8192
  const DISPATCH_BUDGET: nat := 32

  type Fd = nat

  datatype Packet = Packet(bytes: seq<char>, fds: seq<Fd>, offset: nat)

  datatype State = State(packets: seq<Packet>, queuedBytes: nat, queuedFds: nat, eof: bool, shutdown: bool)

  const EMPTY := State([], 0, 0, false, false)

  predicate CanRead(s: State) {
    && !s.eof && s.queuedBytes < MAX_QUEUED_BYTES && s.queuedFds < MAX_QUEUED_FDS
    && |s.packets| < MAX_QUEUED_PACKETS
  }

  /** The buffer length offered to the next receive; never zero, so receiving nothing can only mean the end. */
  function Offer(s: State): (length: nat)
    requires CanRead(s)
    ensures 0 < length <= READ_SIZE && s.queuedBytes + length <= MAX_QUEUED_BYTES
    ensures length == 8192 || s.queuedBytes + length == 65536
  {
    if READ_SIZE <= MAX_QUEUED_BYTES - s.queuedBytes then READ_SIZE else MAX_QUEUED_BYTES - s.queuedBytes
  }

  // ---------------------------------------------------------------- steps

  datatype Step = Arrive(bytes: seq<char>, fds: seq<Fd>) | End | Depart(count: nat) | HalfClose

  predicate Enabled(s: State, step: Step) {
    match step
    case Arrive(bytes, fds) => CanRead(s) && 0 < |bytes| <= Offer(s) && s.queuedFds + |fds| <= MAX_QUEUED_FDS
    case End => CanRead(s)
    case Depart(count) =>
      && s.packets != [] && s.packets[0].offset <= |s.packets[0].bytes|
      && 0 < count <= |s.packets[0].bytes| - s.packets[0].offset
      && count <= s.queuedBytes && |s.packets[0].fds| <= s.queuedFds
    case HalfClose => s.eof && s.packets == [] && !s.shutdown
  }

  function Next(s: State, step: Step): State
    requires Enabled(s, step)
  {
    match step
    case Arrive(bytes, fds) =>
      s.(packets := s.packets + [Packet(bytes, fds, 0)],
         queuedBytes := s.queuedBytes + |bytes|, queuedFds := s.queuedFds + |fds|)
    case End => s.(eof := true)
    case Depart(count) =>
      var front := s.packets[0];
      s.(packets := if front.offset + count == |front.bytes| then s.packets[1..]
                    else s.packets[0 := front.(fds := [], offset := front.offset + count)],
         queuedBytes := s.queuedBytes - count, queuedFds := s.queuedFds - |front.fds|)
    case HalfClose => s.(shutdown := true)
  }

  // ---------------------------------------------------------------- what goes in and what comes out

  /**
   What a channel has done so far. A descriptor is recorded with the offset in the stream of the byte it came with, or
   of the byte the kernel attaches it to, which is the first of the message that carries it.
   */
  datatype History = History(
    state: State,
    received: seq<char>,
    sent: seq<char>,
    receivedFds: seq<(Fd, nat)>,
    sentFds: seq<(Fd, nat)>
  )

  const START := History(EMPTY, [], [], [], [])

  function At(fds: seq<Fd>, offset: nat): seq<(Fd, nat)> {
    if fds == [] then [] else [(fds[0], offset)] + At(fds[1..], offset)
  }

  function After(h: History, step: Step): History
    requires Enabled(h.state, step)
  {
    match step
    case Arrive(bytes, fds) =>
      h.(state := Next(h.state, step),
         received := h.received + bytes,
         receivedFds := h.receivedFds + At(fds, |h.received|))
    case Depart(count) =>
      var front := h.state.packets[0];
      h.(state := Next(h.state, step),
         sent := h.sent + front.bytes[front.offset..front.offset + count],
         sentFds := h.sentFds + At(front.fds, |h.sent|))
    case _ => h.(state := Next(h.state, step))
  }

  predicate Possible(steps: seq<Step>)
    decreases |steps|, 0
  {
    steps == [] || (Possible(steps[..|steps| - 1]) && Enabled(Replay(steps[..|steps| - 1]).state, steps[|steps| - 1]))
  }

  function Replay(steps: seq<Step>): History
    requires Possible(steps)
    decreases |steps|, 1
  {
    if steps == [] then START else After(Replay(steps[..|steps| - 1]), steps[|steps| - 1])
  }

  function Run(steps: seq<Step>): State
    requires Possible(steps)
  {
    Replay(steps).state
  }

  lemma OneMoreStep(steps: seq<Step>, step: Step)
    requires Possible(steps) && Enabled(Run(steps), step)
    ensures Possible(steps + [step]) && Run(steps + [step]) == Next(Run(steps), step)
  {
    assert (steps + [step])[..|steps|] == steps;
    hide Enabled, Next;
  }

  ghost function Pending(packets: seq<Packet>): seq<char>
    requires OffsetsInRange(packets)
  {
    if packets == [] then [] else packets[0].bytes[packets[0].offset..] + Pending(packets[1..])
  }

  /** Queued descriptors, each with the offset at which its packet starts if the queue starts at `offset`. */
  ghost function PendingFds(packets: seq<Packet>, offset: nat): seq<(Fd, nat)>
    requires OffsetsInRange(packets)
  {
    if packets == [] then []
    else At(packets[0].fds, offset) + PendingFds(packets[1..], offset + |packets[0].bytes| - packets[0].offset)
  }

  function PendingFdCount(packets: seq<Packet>): nat {
    if packets == [] then 0 else |packets[0].fds| + PendingFdCount(packets[1..])
  }

  // ---------------------------------------------------------------- the invariant of every run

  ghost predicate WellQueued(s: State) {
    && (forall i :: 0 <= i < |s.packets| ==> s.packets[i].offset < |s.packets[i].bytes|)
    && (forall i :: 0 <= i < |s.packets| && s.packets[i].fds != [] ==> s.packets[i].offset == 0)
    && (forall i :: 1 <= i < |s.packets| ==> s.packets[i].offset == 0)
    && s.queuedBytes == |Pending(s.packets)| <= MAX_QUEUED_BYTES
    && s.queuedFds == PendingFdCount(s.packets) <= MAX_QUEUED_FDS
    && |s.packets| <= MAX_QUEUED_PACKETS
    && (s.shutdown ==> s.eof && s.packets == [])
  }

  ghost predicate OffsetsInRange(packets: seq<Packet>) {
    forall i :: 0 <= i < |packets| ==> packets[i].offset <= |packets[i].bytes|
  }

  lemma {:induction false} PendingAppend(packets: seq<Packet>, last: Packet)
    requires OffsetsInRange(packets) && last.offset == 0
    ensures OffsetsInRange(packets + [last]) && Pending(packets + [last]) == Pending(packets) + last.bytes
  {
    if packets == [] {
      assert [last][1..] == [] && last.bytes[0..] == last.bytes;
    } else {
      assert (packets + [last])[1..] == packets[1..] + [last];
      PendingAppend(packets[1..], last);
      Regroup(packets[0].bytes[packets[0].offset..], Pending(packets[1..]), last.bytes);
    }
  }

  lemma {:induction false} PendingFdCountAppend(packets: seq<Packet>, last: Packet)
    ensures PendingFdCount(packets + [last]) == PendingFdCount(packets) + |last.fds|
  {
    if packets == [] {
      assert [last][1..] == [];
    } else {
      assert (packets + [last])[1..] == packets[1..] + [last];
      PendingFdCountAppend(packets[1..], last);
    }
  }

  lemma OffsetsOfParts(packets: seq<Packet>, last: Packet)
    requires OffsetsInRange(packets) && last.offset == 0
    ensures OffsetsInRange(packets + [last])
    ensures packets != [] ==> packets[0].offset <= |packets[0].bytes| && OffsetsInRange(packets[1..])
    ensures packets != [] ==> (packets + [last])[0] == packets[0] && (packets + [last])[1..] == packets[1..] + [last]
  {
  }

  lemma {:induction false} PendingFdsAppend(packets: seq<Packet>, last: Packet, offset: nat)
    requires OffsetsInRange(packets) && last.offset == 0
    ensures OffsetsInRange(packets + [last])
    ensures PendingFds(packets + [last], offset)
         == PendingFds(packets, offset) + At(last.fds, offset + |Pending(packets)|)
  {
    hide OffsetsInRange;
    OffsetsOfParts(packets, last);
    if packets == [] {
      assert packets + [last] == [last] && [last][1..] == [];
    } else {
      var front, rest := packets[0], packets[1..];
      var next := offset + |front.bytes| - front.offset;
      PendingFdsAppend(rest, last, next);
      Regroup(At(front.fds, offset), PendingFds(rest, next), At(last.fds, next + |Pending(rest)|));
    }
  }

  lemma ArriveKeeps(s: State, step: Step)
    requires WellQueued(s) && step.Arrive? && Enabled(s, step)
    ensures WellQueued(Next(s, step))
  {
    var last := Packet(step.bytes, step.fds, 0);
    var all := s.packets + [last];
    PendingAppend(s.packets, last);
    PendingFdCountAppend(s.packets, last);
    forall i | 0 <= i < |all|
      ensures all[i].offset < |all[i].bytes| && (all[i].fds != [] || i > 0 ==> all[i].offset == 0)
    {
      assert all[i] == if i < |s.packets| then s.packets[i] else last;
    }
    assert Next(s, step).packets == all;
  }

  /** What the queue adds up to when its first packet is replaced. */
  lemma NewFront(packets: seq<Packet>, front: Packet, offset: nat)
    requires packets != [] && OffsetsInRange(packets) && front.offset <= |front.bytes|
    ensures var all, rest := packets[0 := front], packets[1..];
            && OffsetsInRange(all)
            && Pending(all) == front.bytes[front.offset..] + Pending(rest)
            && PendingFdCount(all) == |front.fds| + PendingFdCount(rest)
            && PendingFds(all, offset)
               == At(front.fds, offset) + PendingFds(rest, offset + |front.bytes| - front.offset)
  {
    assert packets[0 := front][1..] == packets[1..];
  }

  lemma DepartKeeps(s: State, step: Step)
    requires WellQueued(s) && step.Depart? && Enabled(s, step)
    ensures WellQueued(Next(s, step))
  {
    var front := s.packets[0];
    var end := front.offset + step.count;
    if end == |front.bytes| {
      FrontGone(s, step);
    } else {
      FrontShortened(s, step);
    }
  }

  lemma FrontGone(s: State, step: Step)
    requires WellQueued(s) && step.Depart? && Enabled(s, step)
    requires s.packets[0].offset + step.count == |s.packets[0].bytes|
    ensures WellQueued(Next(s, step))
  {
    var rest := s.packets[1..];
    assert Next(s, step).packets == rest;
    forall i | 0 <= i < |rest|
      ensures rest[i].offset < |rest[i].bytes| && (rest[i].fds != [] || i > 0 ==> rest[i].offset == 0)
    {
      assert rest[i] == s.packets[i + 1];
    }
  }

  lemma FrontShortened(s: State, step: Step)
    requires WellQueued(s) && step.Depart? && Enabled(s, step)
    requires s.packets[0].offset + step.count < |s.packets[0].bytes|
    ensures WellQueued(Next(s, step))
  {
    var front := s.packets[0].(fds := [], offset := s.packets[0].offset + step.count);
    var all := s.packets[0 := front];
    NewFront(s.packets, front, 0);
    assert Next(s, step).packets == all;
    forall i | 0 <= i < |all|
      ensures all[i].offset < |all[i].bytes| && (all[i].fds != [] || i > 0 ==> all[i].offset == 0)
    {
      assert all[i] == if i == 0 then front else s.packets[i];
    }
  }

  // ---------------------------------------------------------------- every run is a pipe

  /** What was sent, then what is queued, is what was received: bytes, and descriptors with their offsets. */
  ghost predicate IsPipe(h: History) {
    && WellQueued(h.state)
    && h.received == h.sent + Pending(h.state.packets)
    && h.receivedFds == h.sentFds + PendingFds(h.state.packets, |h.sent|)
  }

  /** In every run the channel is a pipe that keeps every descriptor with its byte, however writes are split. */
  lemma {:induction false} EveryRunIsAPipe(steps: seq<Step>)
    requires Possible(steps)
    ensures IsPipe(Replay(steps))
  {
    if steps == [] {
    } else {
      EveryRunIsAPipe(steps[..|steps| - 1]);
      StepKeepsPipe(Replay(steps[..|steps| - 1]), steps[|steps| - 1]);
    }
  }

  lemma StepKeepsPipe(h: History, step: Step)
    requires IsPipe(h) && Enabled(h.state, step)
    ensures IsPipe(After(h, step))
  {
    match step
    case Arrive(_, _) => ArriveKeepsPipe(h, step);
    case Depart(_) => DepartKeepsPipe(h, step);
    case _ =>
  }

  lemma ArriveKeepsPipe(h: History, step: Step)
    requires IsPipe(h) && step.Arrive? && Enabled(h.state, step)
    ensures IsPipe(After(h, step))
  {
    var s, last := h.state, Packet(step.bytes, step.fds, 0);
    ArriveKeeps(s, step);
    PendingAppend(s.packets, last);
    PendingFdsAppend(s.packets, last, |h.sent|);
    Regroup(h.sent, Pending(s.packets), step.bytes);
    Regroup(h.sentFds, PendingFds(s.packets, |h.sent|), At(step.fds, |h.received|));
  }

  lemma DepartKeepsPipe(h: History, step: Step)
    requires IsPipe(h) && step.Depart? && Enabled(h.state, step)
    ensures IsPipe(After(h, step))
  {
    var s, front, end := h.state, h.state.packets[0], After(h, step);
    var moved := front.bytes[front.offset..front.offset + step.count];
    DepartKeeps(s, step);
    DepartMovesBytes(s, step);
    DepartMovesFds(s, step, |h.sent|);
    assert end.state == Next(s, step) && end.sent == h.sent + moved && |end.sent| == |h.sent| + step.count;
    hide WellQueued, Next, Enabled;
    Shift(h.received, h.sent, moved, Pending(end.state.packets));
    Shift(h.receivedFds, h.sentFds, At(front.fds, |h.sent|), PendingFds(end.state.packets, |end.sent|));
  }

  /** Elements that move from the front of what is pending to the end of what was sent. */
  lemma Shift<T>(received: seq<T>, sent: seq<T>, moved: seq<T>, rest: seq<T>)
    requires received == sent + (moved + rest)
    ensures received == sent + moved + rest
  {
  }

  lemma DepartMovesBytes(s: State, step: Step)
    requires WellQueued(s) && step.Depart? && Enabled(s, step) && WellQueued(Next(s, step))
    ensures var front := s.packets[0];
            Pending(s.packets) == front.bytes[front.offset..front.offset + step.count] + Pending(Next(s, step).packets)
  {
    var front := s.packets[0];
    var end := front.offset + step.count;
    if end == |front.bytes| {
      assert front.bytes[front.offset..end] == front.bytes[front.offset..];
      assert Next(s, step).packets == s.packets[1..];
    } else {
      FrontSplits(s.packets, front.offset, end);
      assert Next(s, step).packets == s.packets[0 := front.(fds := [], offset := end)];
    }
  }

  /** The bytes up to `end` leave the front packet, the rest stay. */
  lemma FrontSplits(packets: seq<Packet>, offset: nat, end: nat)
    requires packets != [] && OffsetsInRange(packets)
    requires offset == packets[0].offset <= end <= |packets[0].bytes|
    ensures var shortened := packets[0 := packets[0].(fds := [], offset := end)];
      && OffsetsInRange(shortened)
      && Pending(packets) == packets[0].bytes[offset..end] + Pending(shortened)
  {
    var bytes, rest := packets[0].bytes, Pending(packets[1..]);
    NewFront(packets, packets[0].(fds := [], offset := end), 0);
    assert bytes[offset..] == bytes[offset..end] + bytes[end..];
    Regroup(bytes[offset..end], bytes[end..], rest);
  }

  lemma DepartMovesFds(s: State, step: Step, sent: nat)
    requires WellQueued(s) && step.Depart? && Enabled(s, step) && WellQueued(Next(s, step))
    ensures PendingFds(s.packets, sent)
         == At(s.packets[0].fds, sent) + PendingFds(Next(s, step).packets, sent + step.count)
  {
    var front := s.packets[0];
    var end := front.offset + step.count;
    if end == |front.bytes| {
      assert Next(s, step).packets == s.packets[1..];
    } else {
      RestOfFront(s.packets, front.(fds := [], offset := end), sent + step.count);
      assert Next(s, step).packets == s.packets[0 := front.(fds := [], offset := end)];
    }
  }

  /** A front packet whose descriptors are gone adds none to what is pending. */
  lemma RestOfFront(packets: seq<Packet>, front: Packet, offset: nat)
    requires packets != [] && OffsetsInRange(packets) && front.offset <= |front.bytes| && front.fds == []
    ensures OffsetsInRange(packets[0 := front])
    ensures PendingFds(packets[0 := front], offset) == PendingFds(packets[1..], offset + |front.bytes| - front.offset)
  {
    NewFront(packets, front, offset);
    var rest := PendingFds(packets[1..], offset + |front.bytes| - front.offset);
    assert [] + rest == rest;
  }

  lemma {:induction false} StaysShut(steps: seq<Step>, i: nat)
    requires Possible(steps) && i < |steps| && steps[i].HalfClose?
    ensures Run(steps).shutdown
    decreases |steps|
  {
    if i == |steps| - 1 {
    } else {
      StaysShut(steps[..|steps| - 1], i);
    }
  }

  /** A half-close is the last step of its channel, and everything received was sent before it. */
  lemma HalfCloseIsFinal(steps: seq<Step>, i: nat)
    requires Possible(steps) && i < |steps| && steps[i].HalfClose?
    ensures i == |steps| - 1
    ensures var h := Replay(steps); h.received == h.sent && h.receivedFds == h.sentFds && h.state.eof
  {
    var front := steps[..|steps| - 1];
    EveryRunIsAPipe(steps);
    EveryRunIsAPipe(front);
    StaysShut(steps, i);
    if i < |front| {
      StaysShut(front, i);
      assert false;
    }
  }

  /** The front packet still has bytes to send, and the counters cover it. */
  lemma FrontIsUnsent(steps: seq<Step>)
    requires Possible(steps) && Run(steps).packets != []
    ensures var s := Run(steps); var front := s.packets[0];
      && 0 < |front.bytes| - front.offset <= s.queuedBytes && |front.fds| <= s.queuedFds
  {
    EveryRunIsAPipe(steps);
    var s := Run(steps);
    assert |Pending(s.packets)| == |s.packets[0].bytes| - s.packets[0].offset + |Pending(s.packets[1..])|;
    assert PendingFdCount(s.packets) == |s.packets[0].fds| + PendingFdCount(s.packets[1..]);
  }

  // ---------------------------------------------------------------- watching

  datatype Mask = Mask(readable: bool, writable: bool)

  /** What the endpoint feeding channel `from` and draining channel `to` has to be watched for. */
  function Interest(from: State, to: State): Mask {
    Mask(CanRead(from), to.packets != [])
  }

  /** A run after which one more byte could arrive. */
  ghost predicate TakesMore(steps: seq<Step>)
    requires Possible(steps)
  {
    exists byte :: Enabled(Run(steps), Arrive([byte], []))
  }

  /**
   An endpoint is watched for reading exactly while its channel takes more, and for writing exactly while something
   received for it was not sent.
   */
  ghost predicate WatchedFor(mask: Mask, incoming: seq<Step>, outgoing: seq<Step>)
    requires Possible(incoming) && Possible(outgoing)
  {
    && (mask.readable <==> TakesMore(incoming))
    && (mask.writable <==> Replay(outgoing).received != Replay(outgoing).sent)
  }

  lemma InterestIsRight(incoming: seq<Step>, outgoing: seq<Step>)
    requires Possible(incoming) && Possible(outgoing)
    ensures WatchedFor(Interest(Run(incoming), Run(outgoing)), incoming, outgoing)
  {
    if CanRead(Run(incoming)) {
      assert Enabled(Run(incoming), Arrive(['.'], []));
    }
    EveryRunIsAPipe(outgoing);
    UnsentIsQueued(Replay(outgoing));
  }

  /** A queue is empty exactly when everything received was sent. */
  lemma UnsentIsQueued(h: History)
    requires IsPipe(h)
    ensures h.received != h.sent <==> h.state.packets != []
  {
    if h.state.packets != [] {
      assert |Pending(h.state.packets)| > 0;
    } else {
      assert h.sent + [] == h.sent;
    }
  }

  lemma {:induction false} EndIsRemembered(steps: seq<Step>)
    requires Possible(steps)
    ensures Run(steps).eof <==> End in steps
  {
    if steps == [] {
    } else {
      var front, last := steps[..|steps| - 1], steps[|steps| - 1];
      EndIsRemembered(front);
      assert steps == front + [last];
    }
  }

  lemma {:induction false} DescriptorCount(packets: seq<Packet>, offset: nat)
    requires OffsetsInRange(packets)
    ensures |PendingFds(packets, offset)| == PendingFdCount(packets)
  {
    if packets == [] {
    } else {
      var front := packets[0];
      AtLength(front.fds, offset);
      DescriptorCount(packets[1..], offset + |front.bytes| - front.offset);
    }
  }

  lemma {:induction false} AtLength(fds: seq<Fd>, offset: nat)
    ensures |At(fds, offset)| == |fds|
  {
    if fds == [] {
    } else {
      AtLength(fds[1..], offset);
    }
  }

  /** A channel takes no more exactly after its end or when bytes, descriptors or packets are at their limit. */
  lemma PausedExactly(steps: seq<Step>)
    requires Possible(steps)
    ensures var h := Replay(steps);
      && |h.received| - |h.sent| <= 65536 && |h.receivedFds| - |h.sentFds| <= 64 && |h.state.packets| <= 128
      && (!TakesMore(steps) <==>
            || End in steps
            || |h.received| - |h.sent| == 65536
            || |h.receivedFds| - |h.sentFds| == 64
            || |h.state.packets| == 128)
  {
    var h := Replay(steps);
    EveryRunIsAPipe(steps);
    EndIsRemembered(steps);
    assert OffsetsInRange(h.state.packets);
    DescriptorCount(h.state.packets, |h.sent|);
    assert |h.received| - |h.sent| == h.state.queuedBytes && |h.receivedFds| - |h.sentFds| == h.state.queuedFds;
    if CanRead(h.state) {
      assert Enabled(h.state, Arrive(['.'], []));
    }
    hide Replay, Possible, Pending, PendingFds, PendingFdCount, OffsetsInRange;
  }

  /** At the end of a surviving dispatch a finished channel has been half-closed. */
  predicate Settled(s: State) {
    s.eof && s.packets == [] ==> s.shutdown
  }

  /** While either direction is open, some endpoint can wake the relay up. */
  lemma SomethingIsWatched(a: State, b: State)
    requires WellQueued(a) && WellQueued(b) && Settled(a) && Settled(b)
    requires !(a.shutdown && b.shutdown)
    ensures Interest(a, b) != Mask(false, false) || Interest(b, a) != Mask(false, false)
  {
    assert a.packets == [] ==> |Pending(a.packets)| == 0 && PendingFdCount(a.packets) == 0;
    assert b.packets == [] ==> |Pending(b.packets)| == 0 && PendingFdCount(b.packets) == 0;
  }

  lemma OneOfTwoIsWatched(a: seq<Step>, b: seq<Step>)
    requires Possible(a) && Possible(b)
    ensures Settled(Run(a)) && Settled(Run(b)) && !(Run(a).shutdown && Run(b).shutdown) ==>
      Interest(Run(a), Run(b)) != Mask(false, false) || Interest(Run(b), Run(a)) != Mask(false, false)
  {
    EveryRunIsAPipe(a);
    EveryRunIsAPipe(b);
    if Settled(Run(a)) && Settled(Run(b)) && !(Run(a).shutdown && Run(b).shutdown) {
      SomethingIsWatched(Run(a), Run(b));
    }
  }

  // ---------------------------------------------------------------- the kernel

  datatype RecvOutcome =
    | RecvAgain | RecvInterrupted | RecvFailed
    | Message(bytes: seq<char>, fds: seq<Fd>, malformed: bool)

  datatype SendOutcome = SendAgain | SendInterrupted | SendFailed | Accepted(count: nat)

  /** A receive fails for good, whatever is queued. */
  predicate Broken(outcome: RecvOutcome) {
    outcome.RecvFailed? || (outcome.Message? && outcome.malformed)
  }

  predicate TooManyFds(queuedFds: nat, outcome: RecvOutcome) {
    outcome.Message? && queuedFds + |outcome.fds| > MAX_QUEUED_FDS
  }

  predicate WriteFails(outcome: SendOutcome) {
    outcome.SendFailed? || outcome == Accepted(0)
  }

  /** What a receive hears of an answer: a message fills no more than the buffer. */
  predicate HeardOf(answer: RecvOutcome, outcome: RecvOutcome) {
    if answer.Message? then
      && outcome.Message? && outcome == answer.(bytes := outcome.bytes)
      && outcome.bytes <= answer.bytes && (outcome.bytes == [] <==> answer.bytes == [])
    else outcome == answer
  }

  /** What a send hears: no more is accepted than was offered. */
  predicate AcceptedOf(answer: SendOutcome, outcome: SendOutcome) {
    if answer.Accepted? then
      outcome.Accepted? && outcome.count <= answer.count && (outcome.count == 0 <==> answer.count == 0)
    else outcome == answer
  }

  /** These outcomes answer the receives from the `first` on. */
  ghost predicate Came(received: nat -> RecvOutcome, first: nat, heard: seq<RecvOutcome>) {
    forall i :: 0 <= i < |heard| ==> HeardOf(received(first + i), heard[i])
  }

  ghost predicate Went(sent: nat -> SendOutcome, first: nat, heard: seq<SendOutcome>) {
    forall i :: 0 <= i < |heard| ==> AcceptedOf(sent(first + i), heard[i])
  }

  lemma WentConcat(sent: nat -> SendOutcome, first: nat, a: seq<SendOutcome>, b: seq<SendOutcome>)
    requires Went(sent, first, a) && Went(sent, first + |a|, b)
    ensures Went(sent, first, a + b)
  {
    forall i | 0 <= i < |a + b| ensures AcceptedOf(sent(first + i), (a + b)[i]) {
      if i >= |a| {
        assert AcceptedOf(sent(first + |a| + (i - |a|)), b[i - |a|]);
      }
    }
  }

  lemma NothingCame(received: nat -> RecvOutcome, first: nat)
    ensures Came(received, first, [])
  {
  }

  lemma NothingWent(sent: nat -> SendOutcome, first: nat)
    ensures Went(sent, first, [])
  {
  }

  lemma CameNext(received: nat -> RecvOutcome, first: nat, heard: seq<RecvOutcome>, outcome: RecvOutcome)
    requires Came(received, first, heard) && HeardOf(received(first + |heard|), outcome)
    ensures Came(received, first, heard + [outcome])
  {
    hide HeardOf;
  }

  lemma WentNext(sent: nat -> SendOutcome, first: nat, heard: seq<SendOutcome>, outcome: SendOutcome)
    requires Went(sent, first, heard) && AcceptedOf(sent(first + |heard|), outcome)
    ensures Went(sent, first, heard + [outcome])
  {
    hide AcceptedOf;
  }

  /** Everything the operating system will ever answer; `agreed` is about half-closing and event sources. */
  datatype Script = Script(received: nat -> RecvOutcome, sent: nat -> SendOutcome, agreed: nat -> bool)

  /** How many calls of each sort were made. */
  datatype Calls = Calls(receives: nat, sends: nat, requests: nat)
  {
    predicate UpTo(later: Calls) {
      receives <= later.receives && sends <= later.sends && requests <= later.requests
    }
  }

  /** Nothing was refused from one moment to another. */
  ghost predicate Willing(script: Script, before: Calls, now: Calls) {
    && (forall i :: before.receives <= i < now.receives ==> !Broken(script.received(i)))
    && (forall i :: before.sends <= i < now.sends ==> !WriteFails(script.sent(i)))
    && (forall i :: before.requests <= i < now.requests ==> script.agreed(i))
  }

  lemma WillingNow(script: Script, now: Calls)
    ensures Willing(script, now, now)
  {
  }

  lemma AfterReceive(script: Script, before: Calls, now: Calls)
    requires before.UpTo(now)
    ensures Willing(script, before, now.(receives := now.receives + 1))
        <==> Willing(script, before, now) && !Broken(script.received(now.receives))
  {
    hide Broken, WriteFails;
    if Willing(script, before, now.(receives := now.receives + 1)) {
      assert !Broken(script.received(now.receives));
    }
  }

  lemma AfterSend(script: Script, before: Calls, now: Calls)
    requires before.UpTo(now)
    ensures Willing(script, before, now.(sends := now.sends + 1))
        <==> Willing(script, before, now) && !WriteFails(script.sent(now.sends))
  {
    hide Broken, WriteFails;
    if Willing(script, before, now.(sends := now.sends + 1)) {
      assert !WriteFails(script.sent(now.sends));
    }
  }

  lemma AfterRequest(script: Script, before: Calls, now: Calls)
    requires before.UpTo(now)
    ensures Willing(script, before, now.(requests := now.requests + 1))
        <==> Willing(script, before, now) && script.agreed(now.requests)
  {
    hide Broken, WriteFails;
    if Willing(script, before, now.(requests := now.requests + 1)) {
      assert script.agreed(now.requests);
    }
  }

  lemma WillingThen(script: Script, before: Calls, middle: Calls, now: Calls)
    requires before.UpTo(middle) && middle.UpTo(now)
    ensures Willing(script, before, now) <==> Willing(script, before, middle) && Willing(script, middle, now)
  {
    hide Broken, WriteFails;
  }

  /** The last message brought more descriptors than there is room for. */
  ghost predicate Overfills(script: Script, before: Calls, now: Calls, queuedFds: nat) {
    before.receives < now.receives && TooManyFds(queuedFds, script.received(now.receives - 1))
  }

  /** The operating system: any answers at all, given in order to whoever asks next. */
  class Kernel {
    const script: Script
    var calls: Calls

    constructor (script: Script)
      ensures this.script == script && calls == Calls(0, 0, 0)
    {
      this.script := script;
      calls := Calls(0, 0, 0);
    }

    method RecvMsg(offered: nat) returns (outcome: RecvOutcome)
      requires offered > 0
      modifies this
      ensures calls == old(calls).(receives := old(calls).receives + 1)
      ensures HeardOf(script.received(old(calls).receives), outcome)
      ensures outcome.Message? ==> |outcome.bytes| <= offered
    {
      outcome := script.received(calls.receives);
      calls := calls.(receives := calls.receives + 1);
      if outcome.Message? && |outcome.bytes| > offered {
        outcome := outcome.(bytes := outcome.bytes[..offered]);
      }
    }

    method SendMsg(offered: nat) returns (outcome: SendOutcome)
      requires offered > 0
      modifies this
      ensures calls == old(calls).(sends := old(calls).sends + 1)
      ensures AcceptedOf(script.sent(old(calls).sends), outcome)
      ensures outcome.Accepted? ==> outcome.count <= offered
    {
      outcome := script.sent(calls.sends);
      calls := calls.(sends := calls.sends + 1);
      if outcome.Accepted? && outcome.count > offered {
        outcome := Accepted(offered);
      }
    }

    method Agrees() returns (ok: bool)
      modifies this
      ensures calls == old(calls).(requests := old(calls).requests + 1) && ok == script.agreed(old(calls).requests)
    {
      ok := script.agreed(calls.requests);
      calls := calls.(requests := calls.requests + 1);
    }
  }

  // ---------------------------------------------------------------- what a call does with the answers it hears

  function ReadStep(outcome: RecvOutcome): seq<Step> {
    if !outcome.Message? then []
    else if outcome.bytes == [] then [End]
    else [Arrive(outcome.bytes, outcome.fds)]
  }

  function ReadSteps(heard: seq<RecvOutcome>): seq<Step> {
    if heard == [] then [] else ReadSteps(heard[..|heard| - 1]) + ReadStep(heard[|heard| - 1])
  }

  function WriteStep(outcome: SendOutcome): seq<Step> {
    if outcome.Accepted? then [Depart(outcome.count)] else []
  }

  function WriteSteps(heard: seq<SendOutcome>): seq<Step> {
    if heard == [] then [] else WriteSteps(heard[..|heard| - 1]) + WriteStep(heard[|heard| - 1])
  }

  /** How a loop of receives goes on after one. */
  datatype Attempt = GoOn | Stop | Fail

  predicate ReadFails(s: State, outcome: RecvOutcome) {
    Broken(outcome) || TooManyFds(s.queuedFds, outcome)
  }

  /** Every answer becomes its step, and reading goes on until the budget, the limits or the kernel stop it. */
  ghost predicate ReadTo(before: seq<Step>, heard: seq<RecvOutcome>, ok: bool, after: seq<Step>) {
    && Possible(after) && |heard| <= DISPATCH_BUDGET
    && (forall i | 0 <= i < |heard| - 1 :: !heard[i].RecvAgain?)
    && (!ok ==> heard != [] && ReadFails(Run(after), heard[|heard| - 1]))
    && after == before + ReadSteps(if ok then heard else heard[..|heard| - 1])
    && (ok ==> || |heard| == DISPATCH_BUDGET || !CanRead(Run(after))
               || (heard != [] && heard[|heard| - 1].RecvAgain?))
  }

  /** A loop of receives under way. */
  ghost predicate Reading(before: seq<Step>, heard: seq<RecvOutcome>, after: seq<Step>) {
    && Possible(after) && after == before + ReadSteps(heard)
    && (forall i | 0 <= i < |heard| :: !heard[i].RecvAgain?)
  }

  lemma ReadingStarts(before: seq<Step>)
    requires Possible(before)
    ensures Reading(before, [], before)
  {
    assert before + [] == before;
  }

  lemma ReadNext(before: seq<Step>, heard: seq<RecvOutcome>, outcome: RecvOutcome)
    ensures (heard + [outcome])[..|heard|] == heard
    ensures before + ReadSteps(heard + [outcome]) == before + ReadSteps(heard) + ReadStep(outcome)
  {
    assert (heard + [outcome])[..|heard|] == heard;
    Regroup(before, ReadSteps(heard), ReadStep(outcome));
  }

  lemma ReadingGoesOn(before: seq<Step>, heard: seq<RecvOutcome>, middle: seq<Step>, outcome: RecvOutcome,
                      after: seq<Step>)
    requires Reading(before, heard, middle) && Possible(after) && after == middle + ReadStep(outcome)
    requires !outcome.RecvAgain?
    ensures Reading(before, heard + [outcome], after)
  {
    ReadNext(before, heard, outcome);
  }

  lemma ReadingStops(before: seq<Step>, heard: seq<RecvOutcome>, middle: seq<Step>, outcome: RecvOutcome,
                     after: seq<Step>)
    requires Reading(before, heard, middle) && Possible(after) && after == middle + ReadStep(outcome)
    requires |heard| < DISPATCH_BUDGET && (outcome.RecvAgain? || !CanRead(Run(after)))
    ensures ReadTo(before, heard + [outcome], true, after)
  {
    ReadNext(before, heard, outcome);
  }

  lemma ReadingFails(before: seq<Step>, heard: seq<RecvOutcome>, outcome: RecvOutcome, after: seq<Step>)
    requires Reading(before, heard, after) && |heard| < DISPATCH_BUDGET && ReadFails(Run(after), outcome)
    ensures ReadTo(before, heard + [outcome], false, after)
  {
    ReadNext(before, heard, outcome);
  }

  lemma ReadingIsDone(before: seq<Step>, heard: seq<RecvOutcome>, after: seq<Step>)
    requires Reading(before, heard, after)
    requires |heard| == DISPATCH_BUDGET || (|heard| < DISPATCH_BUDGET && !CanRead(Run(after)))
    ensures ReadTo(before, heard, true, after)
  {
  }

  // ---------------------------------------------------------------- what the answers do to the stream

  function BytesOf(heard: seq<RecvOutcome>): seq<char> {
    if heard == [] then []
    else
      var last := heard[|heard| - 1];
      BytesOf(heard[..|heard| - 1]) + if last.Message? then last.bytes else []
  }

  /** Descriptors that come without a byte are closed. */
  function FdsOf(heard: seq<RecvOutcome>): seq<Fd> {
    if heard == [] then []
    else
      var last := heard[|heard| - 1];
      FdsOf(heard[..|heard| - 1]) + if last.Message? && last.bytes != [] then last.fds else []
  }

  function Handles(fds: seq<(Fd, nat)>): (handles: seq<Fd>)
    ensures |handles| == |fds|
  {
    seq(|fds|, i requires 0 <= i < |fds| => fds[i].0)
  }

  lemma HandlesConcat(a: seq<(Fd, nat)>, b: seq<(Fd, nat)>)
    ensures Handles(a + b) == Handles(a) + Handles(b)
  {
  }

  lemma {:induction false} HandlesOfAt(fds: seq<Fd>, offset: nat)
    ensures Handles(At(fds, offset)) == fds
  {
    if fds == [] {
    } else {
      HandlesOfAt(fds[1..], offset);
      HandlesConcat([(fds[0], offset)], At(fds[1..], offset));
    }
  }

  ghost predicate SaysEnd(outcome: RecvOutcome) {
    outcome.Message? && outcome.bytes == []
  }

  /** What a channel has been told is what it was told before and then what was heard. */
  ghost predicate Hears(before: History, heard: seq<RecvOutcome>, after: History) {
    && after.received == before.received + BytesOf(heard)
    && Handles(after.receivedFds) == Handles(before.receivedFds) + FdsOf(heard)
    && (after.state.eof <==> before.state.eof || exists i :: 0 <= i < |heard| && SaysEnd(heard[i]))
    && after.sent == before.sent && after.sentFds == before.sentFds
  }

  lemma {:induction false} ReadStepsHear(before: seq<Step>, heard: seq<RecvOutcome>)
    requires Possible(before) && Possible(before + ReadSteps(heard))
    ensures Hears(Replay(before), heard, Replay(before + ReadSteps(heard)))
  {
    if heard == [] {
      assert before + ReadSteps(heard) == before;
    } else {
      var front, last := heard[..|heard| - 1], heard[|heard| - 1];
      var middle, all := before + ReadSteps(front), before + ReadSteps(heard);
      Regroup(before, ReadSteps(front), ReadStep(last));
      assert heard == front + [last];
      if ReadStep(last) == [] {
        assert all == middle;
      } else {
        assert all[..|middle|] == middle;
      }
      ReadStepsHear(before, front);
      HearsOneMore(Replay(before), front, Replay(middle), last, Replay(all));
    }
  }

  lemma HearsOneMore(before: History, heard: seq<RecvOutcome>, middle: History, last: RecvOutcome, after: History)
    requires Hears(before, heard, middle)
    requires if !last.Message? then after == middle
             else if last.bytes == [] then Enabled(middle.state, End) && after == After(middle, End)
             else && Enabled(middle.state, Arrive(last.bytes, last.fds))
                  && after == After(middle, Arrive(last.bytes, last.fds))
    ensures Hears(before, heard + [last], after)
  {
    var all := heard + [last];
    assert all[..|heard|] == heard;
    assert all[|heard|] == last;
    if last.Message? {
      if last.bytes != [] {
        HandlesConcat(middle.receivedFds, At(last.fds, |middle.received|));
        HandlesOfAt(last.fds, |middle.received|);
      }
    }
    assert (exists i :: 0 <= i < |all| && SaysEnd(all[i]))
      <==> (exists i :: 0 <= i < |heard| && SaysEnd(heard[i])) || SaysEnd(last) by {
      if i :| 0 <= i < |heard| && SaysEnd(heard[i]) {
        assert SaysEnd(all[i]);
      }
      if SaysEnd(last) {
        assert SaysEnd(all[|heard|]);
      }
    }
  }

  /** A surviving read takes in all it hears, and stops early only for want of room or of more to read. */
  lemma ReadingHears(before: seq<Step>, heard: seq<RecvOutcome>, after: seq<Step>)
    requires Possible(before) && ReadTo(before, heard, true, after)
    ensures Hears(Replay(before), heard, Replay(after))
    ensures |heard| == 32 || (|heard| < 32 && (!TakesMore(after) || (heard != [] && heard[|heard| - 1].RecvAgain?)))
  {
    ReadStepsHear(before, heard);
    if TakesMore(after) {
      assert CanRead(Run(after));
    }
  }

  /** A message is refused exactly when it is malformed or has more descriptors than there is room for. */
  lemma RefusedExactly(steps: seq<Step>, bytes: seq<char>, fds: seq<Fd>, malformed: bool)
    requires Possible(steps)
    ensures ReadFails(Run(steps), Message(bytes, fds, malformed))
         <==> malformed || |Replay(steps).receivedFds| - |Replay(steps).sentFds| + |fds| > 64
  {
    var h := Replay(steps);
    EveryRunIsAPipe(steps);
    DescriptorCount(h.state.packets, |h.sent|);
    hide Replay, Possible, Pending, PendingFds, PendingFdCount;
  }

  /** How many bytes the kernel took. */
  function Taken(heard: seq<SendOutcome>): nat {
    if heard == [] then 0
    else
      var last := heard[|heard| - 1];
      Taken(heard[..|heard| - 1]) + if last.Accepted? then last.count else 0
  }

  lemma {:induction false} WriteStepsSend(before: seq<Step>, heard: seq<SendOutcome>)
    requires Possible(before) && Possible(before + WriteSteps(heard))
    ensures var h, after := Replay(before), Replay(before + WriteSteps(heard));
      && |after.sent| == |h.sent| + Taken(heard) && h.sent <= after.sent
      && after.received == h.received && after.receivedFds == h.receivedFds && after.state.eof == h.state.eof
  {
    if heard == [] {
      assert before + WriteSteps(heard) == before;
    } else {
      var front, last := heard[..|heard| - 1], heard[|heard| - 1];
      var middle, all := before + WriteSteps(front), before + WriteSteps(heard);
      Regroup(before, WriteSteps(front), WriteStep(last));
      if WriteStep(last) == [] {
        assert all == middle;
      } else {
        assert all[..|middle|] == middle;
      }
      WriteStepsSend(before, front);
    }
  }

  /** The next bytes received were passed on, as many as the kernel took, and the end after them. */
  ghost predicate Passes(before: History, heard: seq<SendOutcome>, after: History) {
    && |before.sent| + Taken(heard) <= |before.received|
    && after.sent == before.received[..|before.sent| + Taken(heard)]
    && after.received == before.received && after.receivedFds == before.receivedFds
    && (after.state.shutdown <==> before.state.eof && after.sent == before.received)
  }

  /** The loop of sends ran its full length, or nothing is left, or the kernel took no more. */
  ghost predicate HadToStop(heard: seq<SendOutcome>, after: History) {
    |heard| == 32 || (|heard| < 32 && (after.sent == after.received || (heard != [] && heard[|heard| - 1].SendAgain?)))
  }

  /** A surviving write passes on all the kernel takes, and the end once everything before it has been passed on. */
  lemma WritingSends(before: seq<Step>, heard: seq<SendOutcome>, after: seq<Step>)
    requires Possible(before) && WrittenTo(before, heard, true, after)
    ensures Passes(Replay(before), heard, Replay(after)) && HadToStop(heard, Replay(after))
  {
    var middle := before + WriteSteps(heard);
    if after != middle {
      assert after[..|middle|] == middle;
    }
    WriteStepsSend(before, heard);
    EveryRunIsAPipe(after);
    UnsentIsQueued(Replay(after));
    assert Replay(after).sent == Replay(middle).sent;
  }

  /** A loop of sends under way. */
  ghost predicate Writing(before: seq<Step>, heard: seq<SendOutcome>, after: seq<Step>) {
    && Possible(after) && after == before + WriteSteps(heard)
    && (forall i | 0 <= i < |heard| :: !heard[i].SendAgain?)
  }

  /** A loop of sends that has ended with the channel still up. */
  ghost predicate Drained(before: seq<Step>, heard: seq<SendOutcome>, after: seq<Step>) {
    && Possible(after) && |heard| <= DISPATCH_BUDGET && after == before + WriteSteps(heard)
    && (forall i | 0 <= i < |heard| - 1 :: !heard[i].SendAgain?)
    && (|heard| == DISPATCH_BUDGET || Run(after).packets == []
        || (heard != [] && heard[|heard| - 1].SendAgain?))
  }

  /** Likewise for writing, which ends by half-closing a channel that is finished. */
  ghost predicate WrittenTo(before: seq<Step>, heard: seq<SendOutcome>, ok: bool, after: seq<Step>) {
    && Possible(after) && |heard| <= DISPATCH_BUDGET
    && (forall i | 0 <= i < |heard| - 1 :: !heard[i].SendAgain?)
    && (ok ==> && (after == before + WriteSteps(heard) || after == before + WriteSteps(heard) + [HalfClose])
               && Settled(Run(after))
               && (|heard| == DISPATCH_BUDGET || Run(after).packets == []
                   || (heard != [] && heard[|heard| - 1].SendAgain?)))
    && (!ok ==> || (&& heard != [] && WriteFails(heard[|heard| - 1])
                    && after == before + WriteSteps(heard[..|heard| - 1]))
                || (after == before + WriteSteps(heard) && !Settled(Run(after))))
  }

  lemma WritingStarts(before: seq<Step>)
    requires Possible(before)
    ensures Writing(before, [], before)
  {
    assert before + [] == before;
  }

  lemma WriteNext(before: seq<Step>, heard: seq<SendOutcome>, outcome: SendOutcome)
    ensures (heard + [outcome])[..|heard|] == heard
    ensures before + WriteSteps(heard + [outcome]) == before + WriteSteps(heard) + WriteStep(outcome)
  {
    assert (heard + [outcome])[..|heard|] == heard;
    Regroup(before, WriteSteps(heard), WriteStep(outcome));
  }

  lemma WritingGoesOn(before: seq<Step>, heard: seq<SendOutcome>, middle: seq<Step>, outcome: SendOutcome,
                      after: seq<Step>)
    requires Writing(before, heard, middle) && Possible(after) && after == middle + WriteStep(outcome)
    requires !outcome.SendAgain?
    ensures Writing(before, heard + [outcome], after)
  {
    WriteNext(before, heard, outcome);
  }

  lemma WritingIsDone(before: seq<Step>, heard: seq<SendOutcome>, after: seq<Step>)
    requires Writing(before, heard, after)
    requires |heard| == DISPATCH_BUDGET || (|heard| < DISPATCH_BUDGET && Run(after).packets == [])
    ensures Drained(before, heard, after)
  {
  }

  lemma WritingWaits(before: seq<Step>, heard: seq<SendOutcome>, outcome: SendOutcome, after: seq<Step>)
    requires Writing(before, heard, after) && |heard| < DISPATCH_BUDGET && outcome.SendAgain?
    requires Run(after).packets != []
    ensures WrittenTo(before, heard + [outcome], true, after)
  {
    WriteNext(before, heard, outcome);
  }

  lemma WritingFails(before: seq<Step>, heard: seq<SendOutcome>, outcome: SendOutcome, after: seq<Step>)
    requires Writing(before, heard, after) && |heard| < DISPATCH_BUDGET && WriteFails(outcome)
    ensures WrittenTo(before, heard + [outcome], false, after)
  {
    WriteNext(before, heard, outcome);
  }

  /** With the sends over, the half-close decides how the call ends. */
  lemma WritingEnds(before: seq<Step>, heard: seq<SendOutcome>, middle: seq<Step>, ok: bool, after: seq<Step>)
    requires Drained(before, heard, middle) && Possible(after) && (ok <==> Settled(Run(after)))
    requires after == middle || (ok && after == middle + [HalfClose])
    ensures WrittenTo(before, heard, ok, after)
  {
    if after != middle {
      assert after[..|middle|] == middle;
    }
  }

  /** Drain what the endpoint can take, read what it has, pass that on. */
  ghost predicate Exchange(incoming: seq<Step>, outgoing: seq<Step>, writable: bool, readable: bool,
                           drained: seq<SendOutcome>, answers: seq<RecvOutcome>, middle: seq<Step>,
                           passed: seq<SendOutcome>, incoming': seq<Step>, outgoing': seq<Step>) {
    && (if writable then WrittenTo(outgoing, drained, true, outgoing') else drained == [] && outgoing' == outgoing)
    && (if readable then ReadTo(incoming, answers, true, middle) else answers == [] && middle == incoming)
    && WrittenTo(middle, passed, true, incoming')
  }

  lemma Exchanged(incoming: seq<Step>, outgoing: seq<Step>, writable: bool, readable: bool,
                  drained: seq<SendOutcome>, answers: seq<RecvOutcome>, middle: seq<Step>,
                  passed: seq<SendOutcome>, incoming': seq<Step>, outgoing': seq<Step>)
    requires if writable then WrittenTo(outgoing, drained, true, outgoing') else drained == [] && outgoing' == outgoing
    requires if readable then ReadTo(incoming, answers, true, middle) else answers == [] && middle == incoming
    requires WrittenTo(middle, passed, true, incoming')
    ensures Exchange(incoming, outgoing, writable, readable, drained, answers, middle, passed, incoming', outgoing')
  {
  }

  /** A surviving exchange, on nothing but the answers the kernel gave after `before`. */
  ghost predicate Forwarded(script: Script, before: Calls,
                            incoming: seq<Step>, outgoing: seq<Step>, writable: bool, readable: bool,
                            incoming': seq<Step>, outgoing': seq<Step>) {
    exists drained, answers, middle, passed ::
      && Exchange(incoming, outgoing, writable, readable, drained, answers, middle, passed, incoming', outgoing')
      && Came(script.received, before.receives, answers) && Went(script.sent, before.sends, drained + passed)
  }

  // ---------------------------------------------------------------- the code

  class Channel {
    var packets: seq<Packet>
    var queuedBytes: nat
    var queuedFds: nat
    var eof: bool
    var shutdown: bool
    ghost var steps: seq<Step>

    function Snapshot(): State
      reads this
    {
      State(packets, queuedBytes, queuedFds, eof, shutdown)
    }

    ghost predicate Valid()
      reads this
    {
      Possible(steps) && Run(steps) == Snapshot()
    }

    constructor ()
      ensures Valid() && steps == [] && Snapshot() == EMPTY
    {
      packets, queuedBytes, queuedFds, eof, shutdown := [], 0, 0, false, false;
      steps := [];
    }

    /** Extends the run by the step the fields have just taken. */
    ghost method Took(step: Step)
      requires Possible(steps) && Enabled(Run(steps), step) && Snapshot() == Next(Run(steps), step)
      modifies this`steps
      ensures Valid() && steps == old(steps) + [step]
    {
      OneMoreStep(steps, step);
      hide Possible, Run, Enabled, Next;
      steps := steps + [step];
    }

    /** Receives within the budget; false means the relay has to go. */
    method Read(kernel: Kernel) returns (ok: bool, ghost heard: seq<RecvOutcome>)
      requires Valid()
      modifies this, kernel
      ensures Valid() && ReadTo(old(steps), heard, ok, steps)
      ensures kernel.calls == old(kernel.calls).(receives := old(kernel.calls).receives + |heard|)
      ensures Came(kernel.script.received, old(kernel.calls).receives, heard)
      ensures ok ==> Willing(kernel.script, old(kernel.calls), kernel.calls)
      ensures !ok ==> || !Willing(kernel.script, old(kernel.calls), kernel.calls)
                      || Overfills(kernel.script, old(kernel.calls), kernel.calls, queuedFds)
      ensures shutdown == old(shutdown)
    {
      hide CanRead, ReadFails, ReadStep, ReadTo, Reading, HeardOf, Broken, TooManyFds, Came, Willing;
      ghost var script, before := kernel.script, kernel.calls;
      heard := [];
      NothingCame(script.received, before.receives);
      WillingNow(script, before);
      ReadingStarts(steps);
      for attempt := 0 to DISPATCH_BUDGET
        invariant Valid() && shutdown == old(shutdown)
        invariant |heard| == attempt && Reading(old(steps), heard, steps)
        invariant kernel.calls == before.(receives := before.receives + attempt)
        invariant Came(script.received, before.receives, heard) && Willing(script, before, kernel.calls)
      {
        if !CanRead(Snapshot()) {
          ReadingIsDone(old(steps), heard, steps);
          return true, heard;
        }
        ghost var earlier, middle := heard, steps;
        AfterReceive(script, before, kernel.calls);
        var attempted, outcome := ReadOnce(kernel);
        CameNext(script.received, before.receives, heard, outcome);
        heard := heard + [outcome];
        match attempted
        case GoOn =>
          ReadingGoesOn(old(steps), earlier, middle, outcome, steps);
        case Stop =>
          ReadingStops(old(steps), earlier, middle, outcome, steps);
          return true, heard;
        case Fail =>
          ReadingFails(old(steps), earlier, outcome, steps);
          return false, heard;
      }
      ReadingIsDone(old(steps), heard, steps);
      return true, heard;
    }

    /** One receive and what follows from its answer. */
    method ReadOnce(kernel: Kernel) returns (attempt: Attempt, ghost outcome: RecvOutcome)
      requires Valid() && CanRead(Snapshot())
      modifies this, kernel
      ensures kernel.calls == old(kernel.calls).(receives := old(kernel.calls).receives + 1)
      ensures HeardOf(kernel.script.received(old(kernel.calls).receives), outcome)
      ensures attempt.Fail? <==>
        (match outcome
         case Message(_, fds, malformed) => malformed || old(queuedFds) + |fds| > 64
         case RecvFailed => true
         case _ => false)
      ensures attempt.Fail? <==> || Broken(kernel.script.received(old(kernel.calls).receives))
                                 || TooManyFds(old(queuedFds), kernel.script.received(old(kernel.calls).receives))
      ensures attempt.Fail? ==> Snapshot() == old(Snapshot())
      ensures Valid() && shutdown == old(shutdown)
      ensures attempt.Fail? <==> ReadFails(old(Snapshot()), outcome)
      ensures steps == if attempt.Fail? then old(steps) else old(steps) + ReadStep(outcome)
      ensures attempt.Stop? ==> outcome.RecvAgain? || !CanRead(Run(steps))
      ensures attempt.GoOn? ==> !outcome.RecvAgain?
    {
      var answer := kernel.RecvMsg(Offer(Snapshot()));
      outcome := answer;
      assert steps + [] == steps;
      match answer
      case RecvInterrupted => attempt := GoOn;
      case RecvAgain => attempt := Stop;
      case RecvFailed => attempt := Fail;
      case Message(bytes, fds, malformed) =>
        if malformed || queuedFds + |fds| > MAX_QUEUED_FDS {
          attempt := Fail;
        } else if bytes == [] {
          EndOfStream();
          attempt := Stop;
        } else {
          Enqueue(bytes, fds);
          attempt := GoOn;
        }
    }

    method EndOfStream()
      requires Valid() && CanRead(Snapshot())
      modifies this
      ensures Valid() && steps == old(steps) + [End]
      ensures shutdown == old(shutdown) && eof
    {
      eof := true;
      Took(End);
    }

    method Enqueue(bytes: seq<char>, fds: seq<Fd>)
      requires Valid() && CanRead(Snapshot())
      requires 0 < |bytes| <= Offer(Snapshot()) && queuedFds + |fds| <= MAX_QUEUED_FDS
      modifies this
      ensures Valid() && steps == old(steps) + [Arrive(bytes, fds)]
      ensures shutdown == old(shutdown)
    {
      queuedBytes := queuedBytes + |bytes|;
      queuedFds := queuedFds + |fds|;
      packets := packets + [Packet(bytes, fds, 0)];
      Took(Arrive(bytes, fds));
    }

    /** Sends within the budget and half-closes a finished channel; false means the relay has to go. */
    method Write(kernel: Kernel) returns (ok: bool, ghost heard: seq<SendOutcome>)
      requires Valid()
      modifies this, kernel
      ensures Valid() && WrittenTo(old(steps), heard, ok, steps)
      ensures kernel.calls.receives == old(kernel.calls).receives && old(kernel.calls).UpTo(kernel.calls)
      ensures kernel.calls.sends == old(kernel.calls).sends + |heard|
      ensures Went(kernel.script.sent, old(kernel.calls).sends, heard)
      ensures ok <==> Willing(kernel.script, old(kernel.calls), kernel.calls)
    {
      hide WriteFails, WriteStep, WrittenTo, Writing, Drained, AcceptedOf, Went, Willing;
      ghost var script, before := kernel.script, kernel.calls;
      heard := [];
      NothingWent(script.sent, before.sends);
      WillingNow(script, before);
      WritingStarts(steps);
      for attempt := 0 to DISPATCH_BUDGET
        invariant Valid()
        invariant |heard| == attempt && Writing(old(steps), heard, steps)
        invariant kernel.calls == before.(sends := before.sends + attempt)
        invariant Went(script.sent, before.sends, heard) && Willing(script, before, kernel.calls)
      {
        if packets == [] {
          break;
        }
        ghost var earlier, middle := heard, steps;
        AfterSend(script, before, kernel.calls);
        var attempted, outcome := WriteOnce(kernel);
        WentNext(script.sent, before.sends, heard, outcome);
        heard := heard + [outcome];
        match attempted
        case GoOn =>
          WritingGoesOn(old(steps), earlier, middle, outcome, steps);
        case Stop =>
          WritingWaits(old(steps), earlier, outcome, steps);
          return true, heard;
        case Fail =>
          WritingFails(old(steps), earlier, outcome, steps);
          return false, heard;
      }
      ghost var drained := steps;
      WritingIsDone(old(steps), heard, drained);
      AfterRequest(script, before, kernel.calls);
      ok := CloseIfFinished(kernel);
      WritingEnds(old(steps), heard, drained, ok, steps);
    }

    /** One send from the front of the queue and what follows from its answer. */
    method WriteOnce(kernel: Kernel) returns (attempt: Attempt, ghost outcome: SendOutcome)
      requires Valid() && packets != []
      modifies this, kernel
      ensures kernel.calls == old(kernel.calls).(sends := old(kernel.calls).sends + 1)
      ensures AcceptedOf(kernel.script.sent(old(kernel.calls).sends), outcome)
      ensures attempt.Fail? <==> WriteFails(kernel.script.sent(old(kernel.calls).sends))
      ensures Valid()
      ensures attempt.Fail? <==> WriteFails(outcome)
      ensures attempt.Fail? <==> outcome == SendFailed || outcome == Accepted(0)
      ensures attempt.Stop? <==> outcome.SendAgain?
      ensures steps == if attempt.GoOn? then old(steps) + WriteStep(outcome) else old(steps)
    {
      FrontIsUnsent(steps);
      var packet := packets[0];
      var answer := kernel.SendMsg(|packet.bytes| - packet.offset);
      outcome := answer;
      assert steps + [] == steps;
      match answer
      case SendInterrupted => attempt := GoOn;
      case SendAgain => attempt := Stop;
      case SendFailed => attempt := Fail;
      case Accepted(count) =>
        if count == 0 {
          attempt := Fail;
        } else {
          SendAccepted(count);
          attempt := GoOn;
        }
    }

    /** Half-closes a channel that has nothing left to pass on; false when the kernel refuses. */
    method CloseIfFinished(kernel: Kernel) returns (ok: bool)
      requires Valid()
      modifies this, kernel
      ensures kernel.calls == if Settled(old(Snapshot())) then old(kernel.calls)
                              else old(kernel.calls).(requests := old(kernel.calls).requests + 1)
      ensures ok <==> Settled(old(Snapshot())) || kernel.script.agreed(old(kernel.calls).requests)
      ensures Valid() && (ok <==> Settled(Snapshot()))
      ensures steps == if ok && !Settled(old(Snapshot())) then old(steps) + [HalfClose] else old(steps)
    {
      if eof && packets == [] && !shutdown {
        var agreed := kernel.Agrees();
        if !agreed {
          return false;
        }
        shutdown := true;
        Took(HalfClose);
      }
      return true;
    }

    method SendAccepted(count: nat)
      requires Valid() && Enabled(Snapshot(), Depart(count))
      modifies this
      ensures Valid() && steps == old(steps) + [Depart(count)]
    {
      ghost var before := Snapshot();
      var packet := packets[0];
      queuedFds := queuedFds - |packet.fds|;
      queuedBytes := queuedBytes - count;
      packet := packet.(fds := [], offset := packet.offset + count);
      packets := packets[0 := packet];
      if packet.offset == |packet.bytes| {
        packets := packets[1..];
      }
      assert Snapshot() == Next(before, Depart(count));
      Took(Depart(count));
    }
  }

  class Relay {
    const fromPeer: Channel     // index 0 in the source
    const fromBackend: Channel  // index 1
    var peerMask: Mask
    var backendMask: Mask

    ghost predicate Valid()
      reads this, fromPeer, fromBackend
    {
      fromPeer != fromBackend && fromPeer.Valid() && fromBackend.Valid()
    }

    /** The masks are what the queues call for, and at least one endpoint is watched. */
    ghost predicate Live()
      reads this, fromPeer, fromBackend
    {
      var a, b := fromPeer.Snapshot(), fromBackend.Snapshot();
      && Valid() && Settled(a) && Settled(b) && !(a.shutdown && b.shutdown)
      && WatchedFor(peerMask, fromPeer.steps, fromBackend.steps)
      && WatchedFor(backendMask, fromBackend.steps, fromPeer.steps)
      && (peerMask != Mask(false, false) || backendMask != Mask(false, false))
    }

    constructor ()
      ensures Valid() && fresh(fromPeer) && fresh(fromBackend)
      ensures fromPeer.Snapshot() == EMPTY && fromBackend.Snapshot() == EMPTY
      ensures fromPeer.steps == [] && fromBackend.steps == []
    {
      fromPeer := new Channel();
      fromBackend := new Channel();
      peerMask, backendMask := Mask(false, false), Mask(false, false);
    }

    /** Removing an event source never fails; adding or changing one may. */
    method UpdateSource(kernel: Kernel, current: Mask, mask: Mask) returns (ok: bool)
      modifies kernel
      ensures kernel.calls == if mask == current || mask == Mask(false, false) then old(kernel.calls)
                              else old(kernel.calls).(requests := old(kernel.calls).requests + 1)
      ensures ok <==> Willing(kernel.script, old(kernel.calls), kernel.calls)
    {
      ok := true;
      if mask != current && mask != Mask(false, false) {
        ok := kernel.Agrees();
      }
    }

    /** Brings the event sources in line with the queues, unless the event loop refuses. */
    method Watch(kernel: Kernel) returns (ok: bool)
      requires Valid()
      modifies this, kernel
      ensures old(kernel.calls).UpTo(kernel.calls)
      ensures ok <==> Willing(kernel.script, old(kernel.calls), kernel.calls)
      ensures ok ==> && peerMask == Interest(fromPeer.Snapshot(), fromBackend.Snapshot())
                     && backendMask == Interest(fromBackend.Snapshot(), fromPeer.Snapshot())
      ensures ok ==> && WatchedFor(peerMask, fromPeer.steps, fromBackend.steps)
                     && WatchedFor(backendMask, fromBackend.steps, fromPeer.steps)
      ensures (&& ok && Settled(fromPeer.Snapshot()) && Settled(fromBackend.Snapshot())
               && !(fromPeer.shutdown && fromBackend.shutdown)) ==> Live()
    {
      OneOfTwoIsWatched(fromPeer.steps, fromBackend.steps);
      InterestIsRight(fromPeer.steps, fromBackend.steps);
      InterestIsRight(fromBackend.steps, fromPeer.steps);
      hide WellQueued, Interest, Possible, Run, Replay, Willing, WatchedFor, TakesMore, CanRead, Settled;
      var mask := Interest(fromPeer.Snapshot(), fromBackend.Snapshot());
      ok := UpdateSource(kernel, peerMask, mask);
      if !ok {
        return false;
      }
      peerMask := mask;
      ghost var middle := kernel.calls;
      mask := Interest(fromBackend.Snapshot(), fromPeer.Snapshot());
      ok := UpdateSource(kernel, backendMask, mask);
      WillingThen(kernel.script, old(kernel.calls), middle, kernel.calls);
      if !ok {
        return false;
      }
      backendMask := mask;
      return true;
    }

    method Forward(kernel: Kernel, incoming: Channel, outgoing: Channel, writable: bool, readable: bool)
      returns (ok: bool)
      requires incoming != outgoing && incoming.Valid() && outgoing.Valid() && Settled(outgoing.Snapshot())
      modifies incoming, outgoing, kernel
      ensures incoming.Valid() && outgoing.Valid()
      ensures ok ==> Settled(incoming.Snapshot()) && Settled(outgoing.Snapshot())
      ensures old(kernel.calls).UpTo(kernel.calls)
      ensures ok ==> Forwarded(kernel.script, old(kernel.calls), old(incoming.steps), old(outgoing.steps),
                               writable, readable, incoming.steps, outgoing.steps)
      ensures ok ==> Willing(kernel.script, old(kernel.calls), kernel.calls)
      ensures !ok ==> || !Willing(kernel.script, old(kernel.calls), kernel.calls)
                      || Overfills(kernel.script, old(kernel.calls), kernel.calls, incoming.queuedFds)
    {
      hide ReadTo, WrittenTo, Willing, Came, Went, TooManyFds, Settled, Possible, Run, Exchange;
      ghost var script, before := kernel.script, kernel.calls;
      WillingNow(script, before);
      NothingCame(script.received, before.receives);
      NothingWent(script.sent, before.sends);
      ghost var drained, answers, passed := [], [], [];
      if writable {
        ok, drained := outgoing.Write(kernel);
        WrittenSettles(old(outgoing.steps), drained, outgoing.steps, ok);
        if !ok {
          return false;
        }
      }
      if readable {
        ghost var asked := kernel.calls;
        ok, answers := incoming.Read(kernel);
        WillingThen(script, before, asked, kernel.calls);
        if !ok {
          return false;
        }
      }
      ghost var middle, read := incoming.steps, kernel.calls;
      ok, passed := incoming.Write(kernel);
      WillingThen(script, before, read, kernel.calls);
      WrittenSettles(middle, passed, incoming.steps, ok);
      WentConcat(script.sent, before.sends, drained, passed);
      if ok {
        Exchanged(old(incoming.steps), old(outgoing.steps), writable, readable, drained, answers, middle, passed,
                  incoming.steps, outgoing.steps);
      }
    }

    /** One readiness event at an endpoint; a relay that survives it can be woken again. */
    method Dispatch(kernel: Kernel, atPeer: bool, error: bool, writable: bool, readable: bool, hangup: bool)
      returns (alive: bool)
      requires Valid()
      requires Settled(fromPeer.Snapshot()) && Settled(fromBackend.Snapshot())
      modifies this, fromPeer, fromBackend, kernel
      ensures Valid()
      ensures alive ==> Live() && !error && Willing(kernel.script, old(kernel.calls), kernel.calls)
      ensures !alive ==> || error || (fromPeer.shutdown && fromBackend.shutdown)
                         || !Willing(kernel.script, old(kernel.calls), kernel.calls)
                         || Overfills(kernel.script, old(kernel.calls), kernel.calls,
                                      (if atPeer then fromPeer else fromBackend).queuedFds)
      ensures alive && atPeer ==>
        Forwarded(kernel.script, old(kernel.calls), old(fromPeer.steps), old(fromBackend.steps),
                  writable, readable || hangup, fromPeer.steps, fromBackend.steps)
      ensures alive && !atPeer ==>
        Forwarded(kernel.script, old(kernel.calls), old(fromBackend.steps), old(fromPeer.steps),
                  writable, readable || hangup, fromBackend.steps, fromPeer.steps)
    {
      hide Forwarded, Willing, Overfills;
      if error {
        return false;
      }
      var ok;
      if atPeer {
        ok := Forward(kernel, fromPeer, fromBackend, writable, readable || hangup);
      } else {
        ok := Forward(kernel, fromBackend, fromPeer, writable, readable || hangup);
      }
      if !ok || (fromPeer.shutdown && fromBackend.shutdown) {
        return false;
      }
      ghost var forwarded := kernel.calls;
      alive := Watch(kernel);
      WillingThen(kernel.script, old(kernel.calls), forwarded, kernel.calls);
    }
  }

  /** A fresh connection: nothing has happened on it, and if it is kept, it can be woken up. */
  method Connect(kernel: Kernel) returns (relay: Relay, kept: bool)
    modifies kernel
    ensures kept <==> Willing(kernel.script, old(kernel.calls), kernel.calls)
    ensures fresh(relay) && relay.Valid()
    ensures relay.fromPeer.steps == [] && relay.fromBackend.steps == []
    ensures kept ==> relay.Live()
  {
    relay := new Relay();
    kept := relay.Watch(kernel);
  }

  lemma WrittenSettles(before: seq<Step>, heard: seq<SendOutcome>, after: seq<Step>, ok: bool)
    requires WrittenTo(before, heard, ok, after)
    ensures ok ==> Possible(after) && Settled(Run(after))
  {
  }
}
