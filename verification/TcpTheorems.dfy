/** Safety of the TCP endpoint over every run of its handlers. */
module TcpTheorems {
  import opened Words
  import opened TcpFlows

  // ---------------------------------------------------------------------------------------
  // The invariant of every run
  // ---------------------------------------------------------------------------------------

  /** Our FIN is sent once, on entering the closing states, and numbers what was sent since. */
  predicate Life(f: Flow) {
    && (f.tcb.fin.Some? <==> IsClosed(f.tcb.state))
    && f.h.fins == (if f.tcb.fin.Some? then 1 else 0)
    && (f.tcb.fin.None? ==> f.h.afterFin == 0)
    && (f.tcb.fin.Some? ==> f.tcb.seqNum == Wrap(f.tcb.fin.value + 1 + f.h.afterFin))
  }

  /** A flow leaves the selector once, when it closes, and knows a FIN number in the closing states only. */
  predicate Once(f: Flow) {
    && f.tcb.state != CloseWait && f.h.deregisters == (if f.closed then 1 else 0)
    && (f.tcb.fin.Some? <==> IsClosed(f.tcb.state))
  }

  /** Everything the relay has counted since its initial number. */
  function Counted(h: History): nat { h.synAcks + h.direct + h.fins + h.pulledTotal }

  /** Header bytes of `n` packets. */
  function Overhead(headerLength: nat, n: nat): nat { headerLength * n }

  lemma OverheadSucc(headerLength: nat, n: nat)
    ensures Overhead(headerLength, n + 1) == Overhead(headerLength, n) + headerLength
  {
  }

  predicate Handshaking(s: State) { s == Init || s == SynSent }

  predicate Count(f: Flow) {
    && f.tcb.seqNum == Wrap(f.h.isn + Counted(f.h))
    && f.h.pulledTotal == f.h.pulledPayload + Overhead(f.headerLength, f.h.pulls)
    && (if Handshaking(f.tcb.state) then Counted(f.h) == 0 && f.pending.None? else f.h.synAcks == 1)
  }

  /** The raw length of a packet is the length its header declares. */
  predicate WellFramed(headerLength: nat, w: Wire) { w.image.total == headerLength + |w.payload| }

  /** Sequence space that a list of packets takes up, as the relay counts its data. */
  function Offset(headerLength: nat, ws: seq<Wire>): nat {
    if ws == [] then 0
    else Offset(headerLength, ws[..|ws| - 1]) + Span(headerLength, ws[|ws| - 1])
  }

  function Span(headerLength: nat, w: Wire): nat {
    match w.kind
    case Empty => 0
    case Direct => |w.payload|
    case Pulled => headerLength + |w.payload|
  }

  /** A packet sent at once declares its true length, and data is numbered by what precedes it. */
  predicate Sound(headerLength: nat, isn: u32, before: seq<Wire>, w: Wire) {
    && (w.kind != Pulled ==> WellFramed(headerLength, w))
    && (w.kind == Direct ==> w.image.seqNum == Wrap(isn + 1 + Offset(headerLength, before)))
  }

  predicate AllSound(headerLength: nat, isn: u32, ws: seq<Wire>) {
    ws == [] ||
    (AllSound(headerLength, isn, ws[..|ws| - 1]) && Sound(headerLength, isn, ws[..|ws| - 1], ws[|ws| - 1]))
  }

  /** Packets whose header declares another length than they have. */
  function Misframed(headerLength: nat, ws: seq<Wire>): nat {
    if ws == [] then 0
    else Misframed(headerLength, ws[..|ws| - 1]) + if WellFramed(headerLength, ws[|ws| - 1]) then 0 else 1
  }

  /** The payloads in the order in which the link took them. */
  function Stream(ws: seq<Wire>): seq<byte> {
    if ws == [] then [] else Stream(ws[..|ws| - 1]) + ws[|ws| - 1].payload
  }

  predicate Sent(f: Flow) {
    && Offset(f.headerLength, f.h.wires) == f.h.direct + f.h.pulledTotal
    && Misframed(f.headerLength, f.h.wires) == f.h.clobberedPulls
    && f.h.hostIn == Stream(f.h.wires) + (if f.pending.Some? then f.held else [])
    && (f.tcb.state == Init && !f.closed ==> f.h.wires == [])
  }

  /** The pending packet stands in the buffer, with its own header unless a reply overwrote it. */
  predicate Deferred(f: Flow) {
    f.pending.Some? ==>
      && f.held != []
      && f.pending.value == f.headerLength + |f.held|
      && f.image.total == (if f.h.clobbered then f.headerLength else f.pending.value)
      && (!f.h.clobbered ==> f.image.flags == PSH_ACK && f.image.seqNum == f.tcb.seqNum)
  }

  /** Data is numbered by the data before it. */
  predicate Placed(f: Flow) { AllSound(f.headerLength, f.h.isn, f.h.wires) }

  /** What every event keeps. */
  predicate Tally(f: Flow) { Once(f) && Count(f) && Deferred(f) && Sent(f) }

  /** What every event keeps that puts no packet of its read behind a FIN of its write. */
  predicate Good(f: Flow) { Tally(f) && Life(f) && Placed(f) }

  /** The invariant of all runs, or of the orderly ones. */
  predicate Inv(orderly: bool, f: Flow) { if orderly then Good(f) else Tally(f) }

  function Rank(s: State): nat {
    match s
    case Init => 0
    case SynSent => 1
    case SynReceived => 2
    case Established => 3
    case CloseWait => 3
    case FinWait1 => 4
    case LastAck => 5
    case Closing => 5
    case FinWait2 => 5
  }

  /** A change of state is a step up; header lengths never change. */
  predicate Rises(f: Flow, g: Flow) {
    && (f.tcb.state == g.tcb.state || Rank(f.tcb.state) < Rank(g.tcb.state))
    && f.headerLength == g.headerLength
  }

  // ---------------------------------------------------------------------------------------
  // The primitive changes keep it
  // ---------------------------------------------------------------------------------------

  /** `g` differs from `f` only in what the client sends: ring, acknowledgements, window. */
  predicate Alike(f: Flow, g: Flow) {
    g == f.(tcb := g.tcb, ring := g.ring, h := f.h.(hostOut := g.h.hostOut, finsTaken := g.h.finsTaken)) &&
    g.tcb == f.tcb.(ackNum := g.tcb.ackNum, theirAck := g.tcb.theirAck, window := g.tcb.window,
                    finReceived := g.tcb.finReceived, syn := g.tcb.syn)
  }

  lemma GoodAlike(orderly: bool, f: Flow, g: Flow)
    requires Inv(orderly, f) && Alike(f, g)
    ensures Inv(orderly, g)
  {
  }

  lemma SoundSnoc(headerLength: nat, isn: u32, ws: seq<Wire>, w: Wire)
    requires AllSound(headerLength, isn, ws) && Sound(headerLength, isn, ws, w)
    ensures AllSound(headerLength, isn, ws + [w])
  {
    assert (ws + [w])[..|ws|] == ws;
  }

  lemma WireSnoc(headerLength: nat, ws: seq<Wire>, w: Wire)
    ensures Offset(headerLength, ws + [w]) == Offset(headerLength, ws) + Span(headerLength, w)
    ensures Misframed(headerLength, ws + [w])
            == Misframed(headerLength, ws) + if WellFramed(headerLength, w) then 0 else 1
    ensures Stream(ws + [w]) == Stream(ws) + w.payload
  {
    assert (ws + [w])[..|ws|] == ws;
  }

  lemma GoodReply(orderly: bool, f: Flow, flags: Flags, room: bool)
    requires Inv(orderly, f) && (f.tcb.state == Init ==> f.closed)
    ensures Inv(orderly, Reply(f, flags, room))
    ensures Reply(f, flags, room).tcb == f.tcb && Reply(f, flags, room).closed == f.closed
    ensures Reply(f, flags, room).headerLength == f.headerLength
    ensures Reply(f, flags, room).pending.Some? ==> Reply(f, flags, room).h.clobbered
  {
    SentReply(f, flags, room);
    if orderly {
      PlacedReply(f, flags, room);
    }
    hide Life, Count, Sent, Placed, Wrap, Overhead;
    SameCount(f, Reply(f, flags, room));
    SameLife(f, Reply(f, flags, room));
  }

  /** What the counts depend on. */
  lemma SameCount(f: Flow, g: Flow)
    requires g.tcb == f.tcb && g.headerLength == f.headerLength && g.pending == f.pending
    requires g.h == f.h.(clobbered := g.h.clobbered, wires := g.h.wires)
    ensures Count(g) <==> Count(f)
  {
    hide Wrap, Overhead;
  }

  lemma SameLife(f: Flow, g: Flow)
    requires g.tcb == f.tcb && g.h == f.h.(clobbered := g.h.clobbered, wires := g.h.wires)
    ensures Life(g) <==> Life(f)
  {
  }

  lemma SentReply(f: Flow, flags: Flags, room: bool)
    requires Sent(f) && (f.tcb.state == Init ==> f.closed)
    ensures Sent(Reply(f, flags, room))
  {
    hide Offset, Misframed, Stream;
    WireSnoc(f.headerLength, f.h.wires, Wire(Empty, Image(f.tcb.seqNum, f.tcb.ackNum, flags, f.headerLength), []));
  }

  lemma PlacedReply(f: Flow, flags: Flags, room: bool)
    requires Placed(f)
    ensures Placed(Reply(f, flags, room))
  {
    if room {
      SoundSnoc(f.headerLength, f.h.isn, f.h.wires,
                Wire(Empty, Image(f.tcb.seqNum, f.tcb.ackNum, flags, f.headerLength), []));
    }
  }

  lemma GoodClose(orderly: bool, f: Flow)
    requires Inv(orderly, f) && !f.closed
    ensures Inv(orderly, Close(f)) && Close(f).tcb == f.tcb && Close(f).headerLength == f.headerLength
  {
  }

  lemma GoodCountFin(orderly: bool, f: Flow, s: State)
    requires Inv(orderly, f) && !Handshaking(f.tcb.state) && (orderly ==> f.tcb.state == Established) && IsClosed(s)
    requires f.pending.Some? ==> f.h.clobbered
    ensures Inv(orderly, CountFin(f, s)) && CountFin(f, s).closed == f.closed && CountFin(f, s).tcb.state == s
    ensures CountFin(f, s).headerLength == f.headerLength
  {
    hide Wrap, Overhead;
    WrapAdd(f.h.isn + Counted(f.h), 1);
  }

  /** A change of state inside its class: before, around or after our FIN. */
  lemma GoodState(orderly: bool, f: Flow, s: State)
    requires Inv(orderly, f) && !Handshaking(f.tcb.state) && !Handshaking(s) && s != CloseWait
    requires IsClosed(s) <==> IsClosed(f.tcb.state)
    ensures Inv(orderly, f.(tcb := f.tcb.(state := s)))
  {
  }

  // ---------------------------------------------------------------------------------------
  // The handlers keep it
  // ---------------------------------------------------------------------------------------

  lemma GoodDoHandleFin(orderly: bool, f: Flow, room: bool)
    requires Inv(orderly, f) && !f.closed
    ensures var g := DoHandleFin(f, room);
            Inv(orderly, g) && Rises(f, g) && (g.closed ==> g.tcb.state == FinWait2)
  {
    hide Inv, Reply, Close, CountFin;
    var g := f.(tcb := f.tcb.(ackNum := Wrap(f.tcb.ackNum + 1)),
                h := f.h.(finsTaken := f.h.finsTaken + 1));
    GoodAlike(orderly, f, g);
    match g.tcb.state
    case Established =>
      GoodReply(orderly, g, FIN_ACK, room);
      GoodCountFin(orderly, Reply(g, FIN_ACK, room), LastAck);
    case FinWait1 =>
      GoodReply(orderly, g, ACK, room);
      GoodState(orderly, Reply(g, ACK, room), Closing);
    case FinWait2 =>
      GoodReply(orderly, g, ACK, room);
      GoodClose(orderly, Reply(g, ACK, room));
    case _ =>
  }

  lemma GoodHandleFin(orderly: bool, f: Flow, room: bool)
    requires Inv(orderly, f) && !f.closed
    ensures var g := HandleFin(f, room);
            Inv(orderly, g) && Rises(f, g) && (g.closed ==> g.tcb.state == FinWait2)
  {
    hide Inv, DoHandleFin;
    var g := f.(tcb := f.tcb.(finReceived := true));
    GoodAlike(orderly, f, g);
    GoodDoHandleFin(orderly, g, room);
  }

  lemma GoodHandleAck(orderly: bool, f: Flow, payload: seq<byte>)
    requires Inv(orderly, f)
    ensures var g := HandleAck(f, payload); Inv(orderly, g) && Rises(f, g) && g.closed == f.closed
  {
    hide Inv;
    if f.tcb.state == SynReceived {
      GoodState(orderly, f, Established);
    } else {
      GoodAlike(orderly, f, HandleAck(f, payload));
    }
  }

  lemma GoodHandleFinAck(orderly: bool, f: Flow)
    requires Inv(orderly, f) && (f.closed ==> f.tcb.state == FinWait2)
    ensures Inv(orderly, HandleFinAck(f)) && Rises(f, HandleFinAck(f))
  {
    hide Inv, Close;
    if f.tcb.state == LastAck || f.tcb.state == Closing {
      GoodClose(orderly, f);
    } else if f.tcb.state == FinWait1 {
      GoodState(orderly, f, FinWait2);
    }
  }

  lemma GoodHandleExpected(orderly: bool, f: Flow, seg: Segment, room: bool)
    requires Inv(orderly, f) && !f.closed
    ensures Inv(orderly, HandleExpected(f, seg, room)) && Rises(f, HandleExpected(f, seg, room))
  {
    hide Inv, Close, HandleAck, HandleFin, HandleFinAck;
    if seg.flags.rst {
      GoodClose(orderly, f);
    } else {
      GoodHandleAck(orderly, f, seg.payload);
      var acked := if seg.flags.ack then HandleAck(f, seg.payload) else f;
      GoodHandleFin(orderly, acked, room);
      var finned := if seg.flags.fin then HandleFin(acked, room) else acked;
      GoodHandleFinAck(orderly, finned);
    }
  }

  lemma GoodFirstPacket(orderly: bool, f: Flow, seg: Segment, isn: u32, room: bool)
    requires Inv(orderly, f) && !f.closed && f.tcb.state == Init
    ensures var g := HandleFirstPacket(f, seg, isn, room); Inv(orderly, g) && Rises(f, g)
  {
    hide Overhead;
    WrapSmall(isn);
    WrapSmall(seg.ackNum);
    if !seg.flags.syn {
      var g := f.(tcb := f.tcb.(seqNum := seg.ackNum), h := f.h.(isn := seg.ackNum));
      assert Inv(orderly, g);
      GoodStray(orderly, g, room);
    }
  }

  lemma GoodStray(orderly: bool, f: Flow, room: bool)
    requires Inv(orderly, f) && !f.closed
    ensures Inv(orderly, Close(Reply(f, RST, room)))
  {
    GoodClose(orderly, f);
    GoodReply(orderly, Close(f), RST, room);
    hide Inv;
    assert Close(Reply(f, RST, room)) == Reply(Close(f), RST, room);
  }

  lemma GoodDuplicateSyn(orderly: bool, f: Flow, seg: Segment, room: bool)
    requires Inv(orderly, f) && !f.closed && f.tcb.state != Init
    ensures var g := HandleDuplicateSyn(f, seg, room); Inv(orderly, g) && Rises(f, g)
  {
    hide Inv, Reply, Close;
    if f.tcb.state == SynSent {
      GoodAlike(orderly, f, HandleDuplicateSyn(f, seg, room));
    } else {
      GoodReply(orderly, f, RST, room);
      GoodClose(orderly, Reply(f, RST, room));
    }
  }

  lemma GoodPacket(orderly: bool, f: Flow, seg: Segment, isn: u32, room: bool)
    requires Inv(orderly, f) && !f.closed
    ensures var g := HandlePacket(f, seg, isn, room); Inv(orderly, g) && Rises(f, g)
  {
    hide Inv, HandleFirstPacket, HandleDuplicateSyn, HandleExpected;
    if f.tcb.state == Init {
      GoodFirstPacket(orderly, f, seg, isn, room);
    } else if seg.flags.syn {
      GoodDuplicateSyn(orderly, f, seg, room);
    } else {
      var g := f.(tcb := f.tcb.(window := seg.window, theirAck := seg.ackNum));
      GoodAlike(orderly, f, g);
      GoodHandleExpected(orderly, g, seg, room);
    }
  }

  lemma GoodRefuse(orderly: bool, f: Flow, room: bool)
    requires Inv(orderly, f) && !f.closed
    ensures Inv(orderly, Refuse(f, room)) && Rises(f, Refuse(f, room))
  {
    hide Inv, Reply, Close;
    if f.tcb.state == SynSent || f.tcb.state == SynReceived {
      GoodReply(orderly, f, RST, room);
      GoodClose(orderly, Reply(f, RST, room));
    } else {
      GoodClose(orderly, f);
    }
  }

  lemma GoodConnect(orderly: bool, f: Flow, failed: bool, room: bool)
    requires Inv(orderly, f) && !f.closed && f.tcb.state == SynSent
    ensures var g := ProcessConnect(f, failed, room); Inv(orderly, g) && Rises(f, g)
  {
    hide Inv, Close, Wrap;
    if failed {
      GoodReply(orderly, f, RST, room);
      GoodClose(orderly, Reply(f, RST, room));
    } else {
      GoodReply(orderly, f, SYN_ACK, room);
      GoodSynAck(orderly, Reply(f, SYN_ACK, room));
    }
  }

  lemma GoodSynAck(orderly: bool, f: Flow)
    requires Inv(orderly, f) && f.tcb.state == SynSent
    ensures Inv(orderly, f.(tcb := f.tcb.(state := SynReceived, seqNum := Wrap(f.tcb.seqNum + 1)),
                    h := f.h.(synAcks := f.h.synAcks + 1)))
  {
    hide Wrap, Overhead;
    WrapAdd(f.h.isn, 1);
  }

  lemma GoodSend(orderly: bool, f: Flow, outcome: WriteOutcome, room: bool)
    requires Inv(orderly, f) && !f.closed && f.tcb.state != Init && (outcome.Wrote? ==> outcome.n <= |f.ring|)
    ensures var g := ProcessSend(f, outcome, room); Inv(orderly, g) && Rises(f, g)
  {
    hide Inv, Reply, Close, DoHandleFin;
    match outcome
    case WriteBlocked =>
    case WriteFailed =>
      GoodReply(orderly, f, RST, room);
      GoodClose(orderly, Reply(f, RST, room));
    case Wrote(n) =>
      var g := f.(tcb := f.tcb.(ackNum := Wrap(f.tcb.ackNum + n)), ring := f.ring[n..],
                  h := f.h.(hostOut := f.h.hostOut + f.ring[..n]));
      GoodClose(orderly, f);
      GoodAlike(orderly, f, g);
      GoodDoHandleFin(orderly, g, room);
      GoodReply(orderly, g, ACK, room);
  }

  lemma GoodDirect(orderly: bool, f: Flow, bytes: seq<byte>)
    requires Inv(orderly, f) && !Handshaking(f.tcb.state) && f.pending.None?
    requires orderly ==> f.tcb.state == Established
    ensures Inv(orderly, ProcessReceive(f, Data(bytes), true))
  {
    SentDirect(f, bytes);
    OnceDirect(f, bytes);
    hide Wrap, Overhead, Sent, Placed, Once;
    if orderly {
      PlacedDirect(f, bytes);
    }
    WrapAdd(f.h.isn + Counted(f.h), |bytes|);
  }

  lemma OnceDirect(f: Flow, bytes: seq<byte>)
    requires Once(f)
    ensures Once(ProcessReceive(f, Data(bytes), true))
  {
    hide Wrap;
  }

  lemma SentDirect(f: Flow, bytes: seq<byte>)
    requires Sent(f) && f.tcb.state != Init && f.pending.None?
    ensures Sent(ProcessReceive(f, Data(bytes), true))
  {
    hide Wrap, Offset, Misframed, Stream;
    WireSnoc(f.headerLength, f.h.wires,
             Wire(Direct, Image(f.tcb.seqNum, f.tcb.ackNum, PSH_ACK, f.headerLength + |bytes|), bytes));
  }

  lemma PlacedDirect(f: Flow, bytes: seq<byte>)
    requires Good(f) && f.tcb.state == Established
    ensures Placed(ProcessReceive(f, Data(bytes), true))
  {
    hide Wrap, AllSound, Offset, Misframed, Stream;
    var w := Wire(Direct, Image(f.tcb.seqNum, f.tcb.ackNum, PSH_ACK, f.headerLength + |bytes|), bytes);
    assert Sound(f.headerLength, f.h.isn, f.h.wires, w);
    SoundSnoc(f.headerLength, f.h.isn, f.h.wires, w);
  }

  /** Data that has to wait leaves the number alone, and so may be read even after our FIN. */
  lemma GoodDefer(orderly: bool, f: Flow, bytes: seq<byte>)
    requires Inv(orderly, f) && !Handshaking(f.tcb.state) && f.pending.None? && bytes != []
    ensures Inv(orderly, ProcessReceive(f, Data(bytes), false))
  {
    hide Wrap, Overhead, AllSound, Offset, Misframed, Stream;
  }

  /** A read; behind our FIN, one that puts nothing on the link unless any run will do. */
  lemma GoodReceive(orderly: bool, f: Flow, outcome: ReadOutcome, room: bool)
    requires Inv(orderly, f) && !f.closed && !Handshaking(f.tcb.state) && f.pending.None?
    requires outcome.Data? ==> outcome.bytes != []
    requires orderly ==> f.tcb.state == Established || !(outcome.Eof? || (outcome.Data? && room))
    ensures var g := ProcessReceive(f, outcome, room);
            Inv(orderly, g) && g.headerLength == f.headerLength && (orderly ==> Rises(f, g))
  {
    var g := f.(image := f.image.(seqNum := f.tcb.seqNum, ackNum := f.tcb.ackNum, flags := PSH_ACK));
    GoodHeaders(orderly, f, g);
    assert f.tcb.state != CloseWait;
    hide Inv, Reply, Close, CountFin;
    match outcome
    case ReadBlocked =>
    case ReadFailed =>
      GoodReply(orderly, g, RST, room);
      GoodClose(orderly, Reply(g, RST, room));
    case Eof =>
      GoodReply(orderly, g, FIN_ACK, room);
      GoodCountFin(orderly, Reply(g, FIN_ACK, room), FinWait1);
    case Data(bytes) =>
      if room { GoodDirect(orderly, f, bytes); } else { GoodDefer(orderly, f, bytes); }
  }

  /** With nothing pending, the buffer's headers do not matter. */
  lemma GoodHeaders(orderly: bool, f: Flow, g: Flow)
    requires Inv(orderly, f) && f.pending.None? && g == f.(image := g.image)
    ensures Inv(orderly, g)
  {
  }

  lemma LifeNext(f: Flow)
    requires Life(f) && f.pending.Some? && PendingFits(f)
    ensures Life(Next(f))
  {
    if f.tcb.fin.Some? {
      WrapAdd(f.tcb.fin.value + 1 + f.h.afterFin, f.pending.value);
    }
  }

  lemma CountNext(f: Flow)
    requires Count(f) && f.pending.Some? && PendingFits(f)
    ensures Count(Next(f))
  {
    hide Wrap, Overhead;
    OverheadSucc(f.headerLength, f.h.pulls);
    WrapAdd(f.h.isn + Counted(f.h), f.pending.value);
  }

  lemma SentNext(f: Flow)
    requires Sent(f) && Deferred(f) && f.pending.Some? && PendingFits(f) && !f.closed && f.tcb.state != Init
    ensures Sent(Next(f))
    ensures WellFramed(f.headerLength, PendingWire(f)) <==> !f.h.clobbered
  {
    hide Offset, Misframed, Stream;
    WireSnoc(f.headerLength, f.h.wires, PendingWire(f));
  }

  lemma PlacedNext(f: Flow)
    requires Placed(f) && f.pending.Some? && PendingFits(f)
    ensures Placed(Next(f))
  {
    hide Wrap;
    SoundSnoc(f.headerLength, f.h.isn, f.h.wires, PendingWire(f));
  }

  lemma GoodNext(orderly: bool, f: Flow)
    requires Inv(orderly, f) && f.pending.Some? && !f.closed
    ensures Inv(orderly, Next(f)) && Rises(f, Next(f))
    ensures WellFramed(f.headerLength, PendingWire(f)) <==> !f.h.clobbered
  {
    if orderly {
      LifeNext(f);
      PlacedNext(f);
    }
    CountNext(f);
    SentNext(f);
    hide Life, Count, Sent, Placed;
  }

  /** After the write of an event, reading is still allowed unless the write has sent our FIN. */
  lemma ReadableStill(f: Flow, w: WriteOutcome, room: bool)
    requires f.tcb.state != CloseWait && !f.closed && MayRead(f) && (w.Wrote? ==> w.n <= |f.ring|)
    ensures var g := AfterWrite(f, w, room);
            && (g.closed || MayRead(g) <==> !WritesLast(f, w))
            && (WritesLast(f, w) ==> !g.closed && g.tcb.state == LastAck && g.pending.None?
                                     && g.tcb.fin == Some(f.tcb.seqNum))
            && (MayRead(g) ==> g.tcb.state == Established)
  {
    hide Wrap, RemainingWindow;
    WindowIgnores(f.tcb, AfterWrite(f, w, room).tcb);
  }

  lemma WindowIgnores(t: Tcb, u: Tcb)
    ensures u.theirAck == t.theirAck && u.window == t.window && u.seqNum == t.seqNum ==>
              RemainingWindow(u) == RemainingWindow(t)
  {
  }

  lemma GoodBoth(orderly: bool, f: Flow, w: WriteOutcome, room: bool, r: ReadOutcome, readRoom: bool)
    requires Inv(orderly, f) && !f.closed && Possible(f, Both(w, room, r, readRoom))
    requires orderly ==> Orderly(f, Both(w, room, r, readRoom))
    ensures var g := Step(f, Both(w, room, r, readRoom));
            Inv(orderly, g) && g.headerLength == f.headerLength && (orderly ==> Rises(f, g))
  {
    ReadableStill(f, w, room);
    GoodSend(orderly, f, w, room);
    hide Inv, ProcessSend, ProcessReceive, RemainingWindow;
    if GoesOn(f, w, room) {
      GoodReceive(orderly, AfterWrite(f, w, room), r, readRoom);
    }
  }

  /** Every event keeps the counts; the orderly ones keep the life cycle too. */
  lemma GoodStep(orderly: bool, f: Flow, e: Event)
    requires Inv(orderly, f) && Possible(f, e) && (orderly ==> Orderly(f, e))
    ensures Inv(orderly, Step(f, e)) && Step(f, e).headerLength == f.headerLength
    ensures orderly ==> Rises(f, Step(f, e))
  {
    assert f.tcb.state != CloseWait;
    hide Inv, HandlePacket, Refuse, Close, ProcessConnect, ProcessSend, ProcessReceive, Next, RemainingWindow;
    match e
    case Packet(seg, isn, room) => GoodPacket(orderly, f, seg, isn, room);
    case Expire(room) => GoodRefuse(orderly, f, room);
    case Shut => GoodClose(orderly, f);
    case Hup(room) => if !f.closed { GoodRefuse(orderly, f, room); }
    case Writable(w, room) =>
      if !f.closed && f.tcb.state == SynSent {
        GoodConnect(orderly, f, w.WriteFailed?, room);
      } else if !f.closed {
        GoodSend(orderly, f, w, room);
      }
    case Readable(r, room) => if !f.closed { GoodReceive(orderly, f, r, room); }
    case Both(w, room, r, readRoom) => if !f.closed { GoodBoth(orderly, f, w, room, r, readRoom); }
    case Pull(room) => if room { GoodNext(orderly, f); }
  }

  // ---------------------------------------------------------------------------------------
  // Theorems over every run
  // ---------------------------------------------------------------------------------------

  lemma {:induction false} GoodRun(orderly: bool, f: Flow, es: seq<Event>)
    requires Inv(orderly, f) && Runs(f, es) && (orderly ==> OrderlyRun(f, es))
    ensures Inv(orderly, Run(f, es)) && Run(f, es).headerLength == f.headerLength
    decreases es
  {
    hide Inv, Possible, Orderly, Step;
    if es != [] {
      GoodStep(orderly, f, es[0]);
      GoodRun(orderly, Step(f, es[0]), es[1..]);
    }
  }

  lemma NewFlowIsGood(headerLength: nat)
    ensures Good(NewFlow(headerLength)) && NewFlow(headerLength).headerLength == headerLength
  {
  }

  /** Every run, events of any order included, keeps the counts. */
  lemma {:induction false} ReachedIsTallied(f: Flow, headerLength: nat, es: seq<Event>)
    requires Reached(f, headerLength, es)
    ensures Tally(f) && f.headerLength == headerLength
  {
    NewFlowIsGood(headerLength);
    hide Tally, NewFlow;
    GoodRun(false, NewFlow(headerLength), es);
  }

  lemma {:induction false} ReachedIsGood(f: Flow, headerLength: nat, es: seq<Event>)
    requires Reached(f, headerLength, es) && OrderlyRun(NewFlow(headerLength), es)
    ensures Good(f) && f.headerLength == headerLength
  {
    NewFlowIsGood(headerLength);
    hide Good, NewFlow;
    GoodRun(true, NewFlow(headerLength), es);
  }

  /** In every run a flow leaves the selector once, when it closes, and never waits in CloseWait. */
  lemma {:induction false} DeregistersOnce(f: Flow, headerLength: nat, es: seq<Event>)
    requires Reached(f, headerLength, es)
    ensures f.tcb.state != CloseWait && f.h.deregisters == (if f.closed then 1 else 0)
  {
    hide Reached, Count, Deferred, Sent;
    ReachedIsTallied(f, headerLength, es);
  }

  // ---------------------------------------------------------------------------------------
  // The life cycle
  // ---------------------------------------------------------------------------------------

  /** How many events of a run change the state of the flow. */
  function Changes(f: Flow, es: seq<Event>): nat
    requires Runs(f, es)
    decreases es
  {
    if es == [] then 0
    else (if Step(f, es[0]).tcb.state != f.tcb.state then 1 else 0) + Changes(Step(f, es[0]), es[1..])
  }

  /** Each change of state in an orderly run is a step up in rank. */
  lemma {:induction false} ChangesRise(f: Flow, es: seq<Event>)
    requires Good(f) && Runs(f, es) && OrderlyRun(f, es)
    ensures Rank(f.tcb.state) + Changes(f, es) <= Rank(Run(f, es).tcb.state)
    decreases es
  {
    hide Good, Possible, Orderly, Step;
    if es != [] {
      GoodStep(true, f, es[0]);
      ChangesRise(Step(f, es[0]), es[1..]);
    }
  }

  /**
   * Life cycle.  In every orderly run a flow changes state at most five times, and knows a FIN
   * number exactly in the closing states, one past which it stands but for packets pulled since.
   */
  lemma {:induction false} LifeCycle(f: Flow, headerLength: nat, es: seq<Event>)
    requires Reached(f, headerLength, es) && OrderlyRun(NewFlow(headerLength), es)
    ensures Changes(NewFlow(headerLength), es) <= 5
    ensures f.tcb.state != CloseWait
    ensures f.tcb.fin.Some? <==> f.tcb.state in {FinWait1, FinWait2, Closing, LastAck}
    ensures f.tcb.fin.Some? ==> f.tcb.seqNum == Wrap(f.tcb.fin.value + 1 + f.h.afterFin)
    ensures f.h.deregisters == (if f.closed then 1 else 0)
  {
    hide *;
    ReachedIsGood(f, headerLength, es);
    ReachedChanges(f, headerLength, es);
    GoodLife(f);
  }

  lemma {:induction false} ReachedChanges(f: Flow, headerLength: nat, es: seq<Event>)
    requires Reached(f, headerLength, es) && OrderlyRun(NewFlow(headerLength), es)
    ensures Changes(NewFlow(headerLength), es) <= Rank(f.tcb.state)
  {
    NewFlowIsGood(headerLength);
    hide Good, Step, Changes, Runs, Run;
    ChangesRise(NewFlow(headerLength), es);
  }

  /** What the invariant says of state and FIN. */
  lemma GoodLife(f: Flow)
    requires Good(f)
    ensures Rank(f.tcb.state) <= 5 && f.tcb.state != CloseWait
    ensures f.tcb.fin.Some? <==> f.tcb.state in {FinWait1, FinWait2, Closing, LastAck}
    ensures f.tcb.fin.Some? ==> f.tcb.seqNum == Wrap(f.tcb.fin.value + 1 + f.h.afterFin)
    ensures f.h.deregisters == (if f.closed then 1 else 0)
  {
    hide Wrap, Sent, Count, Deferred;
  }

  // ---------------------------------------------------------------------------------------
  // The sequence number
  // ---------------------------------------------------------------------------------------

  /** Payload bytes that the relay has put on the link, directly or late. */
  function Relayed(h: History): nat { h.direct + h.pulledPayload }

  /** Where the relay stands in the sequence space that the client should see. */
  function TruePosition(h: History): nat { h.isn + h.synAcks + Relayed(h) + h.fins }

  /**
   * Sequence accounting.  The sequence number counts the SYN, the FIN, every payload byte, and
   * the header bytes of every deferred packet besides; so it is the true stream position exactly
   * when those headers add up to a multiple of 2^32.
   */
  lemma {:induction false} SequenceAccounting(f: Flow, headerLength: nat, es: seq<Event>)
    requires Reached(f, headerLength, es)
    ensures f.tcb.seqNum == Wrap(TruePosition(f.h) + Overhead(headerLength, f.h.pulls))
    ensures f.tcb.seqNum == Wrap(TruePosition(f.h)) <==> Wrap(Overhead(headerLength, f.h.pulls)) == 0
  {
    hide *;
    ReachedIsTallied(f, headerLength, es);
    TallyCounts(f);
  }

  lemma TallyCounts(f: Flow)
    requires Tally(f)
    ensures f.tcb.seqNum == Wrap(TruePosition(f.h) + Overhead(f.headerLength, f.h.pulls))
    ensures f.tcb.seqNum == Wrap(TruePosition(f.h)) <==> Wrap(Overhead(f.headerLength, f.h.pulls)) == 0
  {
    hide Wrap, Overhead;
    WrapEqualIff(TruePosition(f.h), Overhead(f.headerLength, f.h.pulls));
  }

  lemma WrapEqualIff(x: int, d: int)
    ensures Wrap(x + d) == Wrap(x) <==> Wrap(d) == 0
  {
    WrapAdd(d, x);
    if Wrap(x + d) == Wrap(x) {
      WrapAdd(x, Wrap(d));
      WrapAdd(d, x);
      assert Wrap(Wrap(x) + Wrap(d)) == Wrap(x);
    }
  }
}
