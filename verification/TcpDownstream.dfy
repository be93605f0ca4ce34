/** What the client receives: numbering, framing, the FIN, the window. */
module TcpDownstream {
  import opened Words
  import opened TcpFlows
  import opened TcpTheorems

  // ---------------------------------------------------------------------------------------
  // Numbering and framing
  // ---------------------------------------------------------------------------------------

  /** Payload bytes of the data packets in a list. */
  function DataBytes(ws: seq<Wire>): nat {
    if ws == [] then 0
    else DataBytes(ws[..|ws| - 1]) + if ws[|ws| - 1].kind == Empty then 0 else |ws[|ws| - 1].payload|
  }

  /** Deferred packets in a list. */
  function Late(ws: seq<Wire>): nat {
    if ws == [] then 0 else Late(ws[..|ws| - 1]) + if ws[|ws| - 1].kind == Pulled then 1 else 0
  }

  lemma {:induction false} OffsetIsDataPlusHeaders(headerLength: nat, ws: seq<Wire>)
    ensures Offset(headerLength, ws) == DataBytes(ws) + headerLength * Late(ws)
  {
    if ws != [] {
      OffsetIsDataPlusHeaders(headerLength, ws[..|ws| - 1]);
      OverheadSucc(headerLength, Late(ws[..|ws| - 1]));
    }
  }

  lemma {:induction false} SoundAt(headerLength: nat, isn: u32, ws: seq<Wire>, i: nat)
    requires AllSound(headerLength, isn, ws) && i < |ws|
    ensures Sound(headerLength, isn, ws[..i], ws[i])
  {
    if i < |ws| - 1 {
      SoundAt(headerLength, isn, ws[..|ws| - 1], i);
      assert ws[..|ws| - 1][..i] == ws[..i];
    }
  }

  /**
   * In every orderly run, a data packet sent at once declares its true length and is numbered by the SYN,
   * the data before it, and one header per deferred packet before it: its true place in the
   * stream exactly when those headers add up to a multiple of 2^32.
   */
  lemma {:induction false} DirectDataPlacement(f: Flow, headerLength: nat, es: seq<Event>, i: nat)
    requires Reached(f, headerLength, es) && OrderlyRun(NewFlow(headerLength), es)
    requires i < |f.h.wires| && f.h.wires[i].kind == Direct
    ensures var w := f.h.wires[i];
            var place := f.h.isn + 1 + DataBytes(f.h.wires[..i]);
            && w.image.total == headerLength + |w.payload|
            && w.image.seqNum == Wrap(place + headerLength * Late(f.h.wires[..i]))
            && (w.image.seqNum == Wrap(place) <==> Wrap(headerLength * Late(f.h.wires[..i])) == 0)
  {
    hide Wrap, Reached;
    ReachedIsGood(f, headerLength, es);
    SoundAt(headerLength, f.h.isn, f.h.wires, i);
    OffsetIsDataPlusHeaders(headerLength, f.h.wires[..i]);
    WrapEqualIff(f.h.isn + 1 + DataBytes(f.h.wires[..i]), headerLength * Late(f.h.wires[..i]));
  }

  /**
   * Downstream delivery.  In every run the payloads that the link took are, in order, what the
   * host sent, but for a packet that still waits; none is lost, doubled or reordered.
   */
  lemma {:induction false} DownstreamDelivery(f: Flow, headerLength: nat, es: seq<Event>)
    requires Reached(f, headerLength, es)
    ensures f.h.hostIn == Stream(f.h.wires) + if f.pending.Some? then f.held else []
  {
    hide Reached;
    ReachedIsTallied(f, headerLength, es);
  }

  lemma {:induction false} NoneMisframed(headerLength: nat, ws: seq<Wire>)
    ensures Misframed(headerLength, ws) == 0 <==> forall i | 0 <= i < |ws| :: WellFramed(headerLength, ws[i])
  {
    if ws != [] {
      NoneMisframed(headerLength, ws[..|ws| - 1]);
    }
  }

  /**
   * In every run all packets on the link declare their own length, as its framing needs, exactly
   * when no deferred packet went out after an empty reply was built over it.
   */
  lemma {:induction false} FramingAccounting(f: Flow, headerLength: nat, es: seq<Event>)
    requires Reached(f, headerLength, es)
    ensures (forall i | 0 <= i < |f.h.wires| :: WellFramed(headerLength, f.h.wires[i])) <==> f.h.clobberedPulls == 0
  {
    hide Reached;
    ReachedIsTallied(f, headerLength, es);
    NoneMisframed(headerLength, f.h.wires);
  }

  /**
   * A deferred packet is the one that was built, with its length, flags and number, exactly when
   * no empty reply was built in between; otherwise its header declares an empty packet.
   */
  lemma DeferredPacketIntactIff(f: Flow)
    requires Tally(f) && f.pending.Some? && !f.closed
    ensures PendingWire(f).payload == f.held
    ensures WellFramed(f.headerLength, PendingWire(f)) <==> !f.h.clobbered
    ensures !f.h.clobbered ==> f.image.flags == PSH_ACK && f.image.seqNum == f.tcb.seqNum
    ensures f.h.clobbered ==> f.image.total == f.headerLength
  {
  }

  // ---------------------------------------------------------------------------------------
  // The FIN comes last
  // ---------------------------------------------------------------------------------------

  /** The events that make the relay send its FIN, told from the flow before them. */
  predicate SendsFin(f: Flow, e: Event) {
    !f.closed &&
    match e
    case Readable(r, _) => r.Eof?
    case Writable(w, _) => WritesLast(f, w)
    case Both(w, _, r, _) => WritesLast(f, w) || (r.Eof? && w.Wrote? && w.n > 0)
    case Packet(seg, _, _) =>
      && (f.tcb.state == Established || (f.tcb.state == SynReceived && seg.flags.ack))
      && seg.seqNum == Expected(f) && seg.flags.fin && !seg.flags.syn && !seg.flags.rst
      && f.ring == []
      && !(seg.flags.ack && f.tcb.state == Established && 0 < |seg.payload| <= RING_CAPACITY)
    case _ => false
  }

  lemma SendsFinExactly(f: Flow, e: Event)
    requires Good(f) && Possible(f, e) && f.tcb.fin.None?
    ensures Step(f, e).tcb.fin.Some? <==> SendsFin(f, e)
  {
    hide Wrap, Sent, Count, Deferred, HandleExpected, RemainingWindow, AfterWrite, ProcessReceive;
    match e
    case Packet(seg, isn, room) =>
      SendsFinInOrder(f.(tcb := f.tcb.(window := seg.window, theirAck := seg.ackNum)), seg, room);
    case Writable(w, room) => if !f.closed { WriteSendsFin(f, w, room); }
    case Readable(r, room) => ReadSendsFin(f, r, room);
    case Both(w, room, r, readRoom) =>
      if !f.closed {
        WriteSendsFin(f, w, room);
        ReadSendsFin(AfterWrite(f, w, room), r, readRoom);
      }
    case _ =>
  }

  lemma WriteSendsFin(f: Flow, w: WriteOutcome, room: bool)
    requires f.tcb.fin.None? && f.tcb.state != Init && (w.Wrote? ==> w.n <= |f.ring|)
    ensures !f.closed ==> (AfterWrite(f, w, room).tcb.fin.Some? <==> WritesLast(f, w))
    ensures !f.closed && MayRead(f) ==> (GoesOn(f, w, room) <==> w.Wrote? && w.n > 0)
  {
    hide Wrap, RemainingWindow;
  }

  lemma ReadSendsFin(f: Flow, r: ReadOutcome, room: bool)
    ensures ProcessReceive(f, r, room).tcb.fin.Some? <==> f.tcb.fin.Some? || r.Eof?
  {
  }

  lemma SendsFinInOrder(f: Flow, seg: Segment, room: bool)
    requires f.tcb.fin.None? && Life(f)
    ensures HandleExpected(f, seg, room).tcb.fin.Some? <==>
            && (f.tcb.state == Established || (f.tcb.state == SynReceived && seg.flags.ack))
            && seg.flags.fin && !seg.flags.rst && f.ring == []
            && !(seg.flags.ack && f.tcb.state == Established && 0 < |seg.payload| <= RING_CAPACITY)
  {
    hide Wrap;
    var acked := if seg.flags.ack then HandleAck(f, seg.payload) else f;
    var finned := if seg.flags.fin then HandleFin(acked, room) else acked;
    assert HandleFinAck(finned).tcb.fin == finned.tcb.fin;
  }

  /** Once our FIN is out with nothing pending, only empty packets follow it, at FIN + 1. */
  lemma {:induction false} NothingFollowsFin(f: Flow, es: seq<Event>)
    requires Good(f) && f.tcb.fin.Some? && f.pending.None? && Runs(f, es)
    ensures Quiet(f, Run(f, es))
  {
    GoodLife(f);
    hide Good, Quiet, Run, Runs;
    ClosingStaysQuiet(f, es);
  }

  lemma {:induction false} ClosingStaysQuiet(f: Flow, es: seq<Event>)
    requires IsClosed(f.tcb.state) && f.pending.None? && Runs(f, es)
    ensures Quiet(f, Run(f, es))
    decreases es
  {
    hide Step, Possible;
    if es != [] {
      FinStep(f, es[0]);
      ClosingStaysQuiet(Step(f, es[0]), es[1..]);
    }
  }

  /** `g` is `f` later on: same FIN, same number, at most empty packets sent. */
  predicate Quiet(f: Flow, g: Flow) {
    && g.tcb.fin == f.tcb.fin && g.tcb.seqNum == f.tcb.seqNum
    && g.pending == f.pending && g.h.afterFin == f.h.afterFin
    && f.h.wires <= g.h.wires
    && (forall i | |f.h.wires| <= i < |g.h.wires| :: g.h.wires[i].kind == Empty)
  }

  lemma QuietReply(f: Flow, flags: Flags, room: bool)
    ensures Quiet(f, Reply(f, flags, room)) && Reply(f, flags, room).tcb == f.tcb
  {
  }

  lemma QuietDoHandleFin(f: Flow, room: bool)
    requires IsClosed(f.tcb.state)
    ensures Quiet(f, DoHandleFin(f, room)) && IsClosed(DoHandleFin(f, room).tcb.state)
  {
  }

  lemma QuietExpected(f: Flow, seg: Segment, room: bool)
    requires IsClosed(f.tcb.state)
    ensures Quiet(f, HandleExpected(f, seg, room)) && IsClosed(HandleExpected(f, seg, room).tcb.state)
  {
    hide DoHandleFin;
    var acked := if seg.flags.ack then HandleAck(f, seg.payload) else f;
    QuietDoHandleFin(acked.(tcb := acked.tcb.(finReceived := true)), room);
  }

  lemma QuietPacket(f: Flow, seg: Segment, isn: u32, room: bool)
    requires IsClosed(f.tcb.state)
    ensures Quiet(f, HandlePacket(f, seg, isn, room)) && IsClosed(HandlePacket(f, seg, isn, room).tcb.state)
  {
    hide HandleExpected, Reply, Wrap;
    QuietReply(f, RST, room);
    QuietExpected(f.(tcb := f.tcb.(window := seg.window, theirAck := seg.ackNum)), seg, room);
  }

  lemma QuietSend(f: Flow, outcome: WriteOutcome, room: bool)
    requires IsClosed(f.tcb.state) && (outcome.Wrote? ==> outcome.n <= |f.ring|)
    ensures Quiet(f, ProcessSend(f, outcome, room)) && IsClosed(ProcessSend(f, outcome, room).tcb.state)
  {
    hide DoHandleFin, Reply;
    QuietReply(f, RST, room);
    if outcome.Wrote? {
      var g := f.(tcb := f.tcb.(ackNum := Wrap(f.tcb.ackNum + outcome.n)), ring := f.ring[outcome.n..],
                  h := f.h.(hostOut := f.h.hostOut + f.ring[..outcome.n]));
      QuietReply(g, ACK, room);
      QuietDoHandleFin(g, room);
    }
  }

  lemma FinStep(f: Flow, e: Event)
    requires IsClosed(f.tcb.state) && f.pending.None? && Possible(f, e)
    ensures Quiet(f, Step(f, e)) && IsClosed(Step(f, e).tcb.state)
  {
    hide HandlePacket, ProcessSend;
    match e
    case Packet(seg, isn, room) => QuietPacket(f, seg, isn, room);
    case Writable(w, room) => QuietSend(f, w, room);
    case _ =>
  }

  /** What was pending when our FIN went out does follow it, one whole packet further on. */
  lemma PendingDataFollowsFin(f: Flow)
    requires Good(f) && f.tcb.fin.Some? && f.pending.Some? && !f.closed
    ensures var g := Step(f, Pull(true));
            && g.h.wires == f.h.wires + [PendingWire(f)] && PendingWire(f).payload == f.held != []
            && g.tcb.seqNum == Wrap(f.tcb.fin.value + 1 + f.h.afterFin + f.pending.value)
  {
    WrapAdd(f.tcb.fin.value + 1 + f.h.afterFin, f.pending.value);
  }

  // ---------------------------------------------------------------------------------------
  // The client's window
  // ---------------------------------------------------------------------------------------

  /** Bytes the relay has numbered beyond what the client acknowledged, across wrap-around. */
  function InFlight(t: Tcb): u32 { Wrap(t.seqNum - t.theirAck) }

  lemma RemainingWindowIsWhatIsLeft(t: Tcb)
    ensures RemainingWindow(t) == if InFlight(t) <= t.window then t.window - InFlight(t) else 0
  {
    var d := t.seqNum - t.theirAck;
    WrapShift(d, 1);
    WrapShift(t.window - d, 1);
  }

  /** Data sent at once stays inside the last window that the client advertised. */
  lemma DirectDataFitsWindow(f: Flow, bytes: seq<byte>)
    requires ReadFits(f, Data(bytes))
    ensures var g := ProcessReceive(f, Data(bytes), true);
            InFlight(g.tcb) == InFlight(f.tcb) + |bytes| <= g.tcb.window == f.tcb.window
  {
    hide Wrap, RemainingWindow, InFlight;
    RemainingWindowIsWhatIsLeft(f.tcb);
    InFlightGrows(f.tcb, |bytes|);
    InFlightIgnores(f.tcb.(seqNum := Wrap(f.tcb.seqNum + |bytes|)), ProcessReceive(f, Data(bytes), true).tcb);
  }

  lemma InFlightGrows(t: Tcb, n: nat)
    requires InFlight(t) + n < TWO32
    ensures InFlight(t.(seqNum := Wrap(t.seqNum + n))) == InFlight(t) + n
  {
    WrapAdd(t.seqNum + n, 0 - t.theirAck);
    WrapAdd(t.seqNum - t.theirAck, n);
    WrapSmall(InFlight(t) + n);
  }

  lemma InFlightIgnores(t: Tcb, u: Tcb)
    requires u.seqNum == t.seqNum && u.theirAck == t.theirAck
    ensures InFlight(u) == InFlight(t)
  {
  }

  /** A deferred packet adds its whole length, and so stays inside the window only if that fits. */
  lemma PulledPacketFitsWindowIff(f: Flow)
    requires f.pending.Some? && PendingFits(f) && InFlight(f.tcb) + f.pending.value < TWO32
    ensures InFlight(Next(f).tcb) == InFlight(f.tcb) + f.pending.value
    ensures InFlight(Next(f).tcb) <= Next(f).tcb.window <==> InFlight(f.tcb) + f.pending.value <= f.tcb.window
  {
    hide Wrap, InFlight;
    InFlightGrows(f.tcb, f.pending.value);
    InFlightIgnores(f.tcb.(seqNum := Wrap(f.tcb.seqNum + f.pending.value)), Next(f).tcb);
  }
}
