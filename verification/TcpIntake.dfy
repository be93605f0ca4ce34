/** What a flow takes from a packet of the client and from a write to the host, and when it resets. */
module TcpIntake {
  import opened Words
  import opened TcpFlows
  import opened TcpTheorems
  import opened TcpWire
  import opened TcpDiagram

  // ---------------------------------------------------------------------------------------
  // SYN
  // ---------------------------------------------------------------------------------------

  /** The first SYN: the flow expects the byte behind it, and waits for the host without a word. */
  lemma FirstSynOpens(f: Flow, seg: Segment, isn: u32, room: bool)
    requires !f.closed && f.tcb.state == Init && seg.flags.syn
    ensures var g := Step(f, Packet(seg, isn, room));
            && g.tcb.syn == seg.seqNum && g.tcb.ackNum == Wrap(seg.seqNum + 1)
            && g.tcb.seqNum == g.h.isn == isn && g.tcb.window == seg.window
            && g.h.wires == f.h.wires && g.ring == f.ring && !g.closed && g.tcb.state == SynSent
  {
  }

  /**
   * A SYN that comes again is taken for the first while the host is not connected; later it is
   * ignored, or resets the flow if its number is another.
   */
  lemma SynAgain(f: Flow, seg: Segment, isn: u32, room: bool)
    requires !f.closed && f.tcb.state != Init && seg.flags.syn
    ensures var g := Step(f, Packet(seg, isn, room));
            if f.tcb.state == SynSent then
              g == f.(tcb := f.tcb.(syn := seg.seqNum, ackNum := Wrap(seg.seqNum + 1)))
            else if seg.seqNum == f.tcb.syn then
              g == f
            else
              && g.closed && g.tcb == f.tcb && g.ring == f.ring
              && (room ==>
                    var rst := Image(f.tcb.seqNum, f.tcb.ackNum, RST, f.headerLength);
                    g.h.wires == f.h.wires + [Wire(Empty, rst, [])])
  {
  }

  // ---------------------------------------------------------------------------------------
  // Segments
  // ---------------------------------------------------------------------------------------

  /** A segment that is not the next one changes nothing at all. */
  lemma OtherSegmentsAreIgnored(f: Flow, seg: Segment, isn: u32, room: bool)
    requires !f.closed && f.tcb.state != Init && !seg.flags.syn && seg.seqNum != Wrap(f.tcb.ackNum + |f.ring|)
    ensures Step(f, Packet(seg, isn, room)) == f
  {
  }

  /**
   * The next segment gives the flow its window and acknowledgement, its payload if that is accepted,
   * and its FIN: at once if nothing is left to give to the host, and otherwise later.
   */
  lemma NextSegmentIsTaken(f: Flow, seg: Segment, isn: u32, room: bool)
    requires !f.closed && InOrder(f, seg)
    ensures var g := Step(f, Packet(seg, isn, room));
            && g.tcb.window == seg.window && g.tcb.theirAck == seg.ackNum
            && g.ring == f.ring + (if Accepts(f, seg) then seg.payload else [])
            && g.h.hostOut == f.h.hostOut
            && (g.tcb.finReceived <==> f.tcb.finReceived || (seg.flags.fin && !seg.flags.rst))
            && g.h.finsTaken == f.h.finsTaken + (if FinIsNext(f, seg) then 1 else 0)
            && g.tcb.ackNum == (if FinIsNext(f, seg) then Wrap(f.tcb.ackNum + 1) else f.tcb.ackNum)
  {
    var g := f.(tcb := f.tcb.(window := seg.window, theirAck := seg.ackNum));
    var acked := if seg.flags.ack then HandleAck(g, seg.payload) else g;
    var finned := if seg.flags.fin then HandleFin(acked, room) else acked;
    AckTakes(g, seg);
    FinTakes(acked, room);
    FinAckTakes(finned);
    assert f.ring + [] == f.ring;
    hide Wrap, HandleAck, HandleFin, HandleFinAck;
  }

  lemma AckTakes(f: Flow, seg: Segment)
    ensures var g := if seg.flags.ack then HandleAck(f, seg.payload) else f;
            && g == f.(tcb := f.tcb.(state := g.tcb.state), ring := g.ring)
            && (InOrder(f, seg) && !seg.flags.rst ==>
                  && g.ring == f.ring + (if Accepts(f, seg) then seg.payload else [])
                  && (g.ring == [] <==> f.ring == [] && (Accepts(f, seg) ==> seg.payload == [])))
  {
    assert f.ring + [] == f.ring;
    hide Wrap;
  }

  lemma FinTakes(f: Flow, room: bool)
    ensures var g := HandleFin(f, room);
            && g.tcb.window == f.tcb.window && g.tcb.theirAck == f.tcb.theirAck && g.ring == f.ring
            && g.h.hostOut == f.h.hostOut && g.tcb.finReceived
            && g.h.finsTaken == f.h.finsTaken + (if f.ring == [] then 1 else 0)
            && g.tcb.ackNum == (if f.ring == [] then Wrap(f.tcb.ackNum + 1) else f.tcb.ackNum)
  {
    hide Wrap, AnswerFin;
    var g := f.(tcb := f.tcb.(finReceived := true));
    AnswerTakes(g.(tcb := g.tcb.(ackNum := Wrap(g.tcb.ackNum + 1)), h := g.h.(finsTaken := g.h.finsTaken + 1)), room);
  }

  /** What answering a FIN leaves alone. */
  lemma AnswerTakes(f: Flow, room: bool)
    ensures var g := AnswerFin(f, room); SameIntake(f, g)
  {
  }

  lemma FinAckTakes(f: Flow)
    ensures SameIntake(f, HandleFinAck(f))
  {
  }

  predicate SameIntake(f: Flow, g: Flow) {
    && g.tcb.window == f.tcb.window && g.tcb.theirAck == f.tcb.theirAck && g.ring == f.ring
    && g.h.hostOut == f.h.hostOut && g.tcb.finReceived == f.tcb.finReceived
    && g.h.finsTaken == f.h.finsTaken && g.tcb.ackNum == f.tcb.ackNum
  }

  /** What the host takes of a write leaves the ring, in order, and is acknowledged; then comes the FIN. */
  lemma WriteIsTaken(f: Flow, n: nat, room: bool)
    requires !f.closed && !Handshaking(f.tcb.state) && 0 < n <= |f.ring|
    ensures var g := Step(f, Writable(Wrote(n), room));
            var fin := f.tcb.finReceived && n == |f.ring|;
            && g.h.hostOut + g.ring == f.h.hostOut + f.ring && |g.ring| == |f.ring| - n
            && g.h.finsTaken == f.h.finsTaken + (if fin then 1 else 0)
            && g.tcb.ackNum == Wrap(f.tcb.ackNum + n + if fin then 1 else 0)
            && g.tcb.window == f.tcb.window && g.tcb.theirAck == f.tcb.theirAck
  {
    hide AnswerFin;
    WrapAdd(f.tcb.ackNum + n, 1);
    var w := f.(tcb := f.tcb.(ackNum := Wrap(f.tcb.ackNum + n)), ring := f.ring[n..],
                h := f.h.(hostOut := f.h.hostOut + f.ring[..n]));
    AnswerTakes(w.(tcb := w.tcb.(ackNum := Wrap(w.tcb.ackNum + 1)), h := w.h.(finsTaken := w.h.finsTaken + 1)), room);
    assert f.ring == f.ring[..n] + f.ring[n..];
  }

  // ---------------------------------------------------------------------------------------
  // Resets
  // ---------------------------------------------------------------------------------------

  /** A packet with RST is among the new ones. */
  ghost predicate SendsRst(f: Flow, g: Flow) {
    exists i: nat :: New(f, g, i) && g.h.wires[i].kind != Pulled && g.h.wires[i].image.flags == RST
  }

  lemma RstOfReset(f: Flow)
    ensures SendsRst(f, Close(Reply(f, RST, true)))
  {
    assert New(f, Close(Reply(f, RST, true)), |f.h.wires|);
  }

  /** Events that neither close the flow nor fail send no reset. */
  lemma RstPacket(f: Flow, seg: Segment, isn: u32)
    requires !f.closed
    ensures SendsRst(f, HandlePacket(f, seg, isn, true)) <==> Resets(f, Packet(seg, isn, true))
  {
    hide Wrap, HandleExpected, Close, Reply, SendsRst;
    RstOfReset(f);
    var g := f.(tcb := f.tcb.(seqNum := seg.ackNum), h := f.h.(isn := seg.ackNum));
    RstOfReset(g);
    RstFrom(f, g, Close(Reply(g, RST, true)));
    RstNothing(f, f);
    RstNothing(f, HandlePacket(f, seg, isn, true));
    var k := f.(tcb := f.tcb.(window := seg.window, theirAck := seg.ackNum));
    RstExpected(k, seg);
    RstFrom(f, k, HandleExpected(k, seg, true));
  }

  lemma RstNothing(f: Flow, g: Flow)
    ensures g.h.wires == f.h.wires ==> !SendsRst(f, g)
  {
  }

  lemma RstFrom(f: Flow, f': Flow, g: Flow)
    ensures f'.h.wires == f.h.wires ==> (SendsRst(f, g) <==> SendsRst(f', g))
  {
    if f'.h.wires == f.h.wires {
      assert forall i: nat :: New(f, g, i) <==> New(f', g, i);
    }
  }

  lemma RstExpected(f: Flow, seg: Segment)
    ensures !SendsRst(f, HandleExpected(f, seg, true))
  {
    hide Wrap, AnswerFin, SendsRst;
    var acked := if seg.flags.ack then HandleAck(f, seg.payload) else f;
    var g := acked.(tcb := acked.tcb.(finReceived := true, ackNum := Wrap(acked.tcb.ackNum + 1)),
                    h := acked.h.(finsTaken := acked.h.finsTaken + 1));
    RstAnswer(g);
    var finned := if seg.flags.fin then HandleFin(acked, true) else acked;
    RstFrom(f, g, finned);
    RstNothing(f, finned);
    RstSame(f, finned, HandleExpected(f, seg, true));
    RstNothing(f, HandleExpected(f, seg, true));
  }

  lemma RstSame(f: Flow, g: Flow, g': Flow)
    ensures g'.h.wires == g.h.wires ==> (SendsRst(f, g') <==> SendsRst(f, g))
  {
    if g'.h.wires == g.h.wires {
      assert forall i: nat :: New(f, g, i) <==> New(f, g', i);
    }
  }

  lemma RstAnswer(f: Flow)
    ensures !SendsRst(f, AnswerFin(f, true))
  {
  }

  lemma RstWrite(f: Flow, w: WriteOutcome)
    requires w.Wrote? ==> w.n <= |f.ring|
    ensures SendsRst(f, AfterWrite(f, w, true)) <==> w.WriteFailed?
  {
    hide Wrap, AnswerFin;
    if w.WriteFailed? {
      RstOfReset(f);
    } else if w.Wrote? {
      var g := f.(tcb := f.tcb.(ackNum := Wrap(f.tcb.ackNum + w.n)), ring := f.ring[w.n..],
                  h := f.h.(hostOut := f.h.hostOut + f.ring[..w.n]));
      var counted := g.(tcb := g.tcb.(ackNum := Wrap(g.tcb.ackNum + 1)), h := g.h.(finsTaken := g.h.finsTaken + 1));
      RstAnswer(counted);
      RstFrom(f, counted, AnswerFin(counted, true));
    }
  }

  lemma RstRead(f: Flow, r: ReadOutcome, room: bool)
    requires room || r.Data?
    ensures SendsRst(f, ProcessReceive(f, r, room)) <==> r.ReadFailed?
  {
    if r.ReadFailed? {
      RstOfReset(f.(image := f.image.(seqNum := f.tcb.seqNum, ackNum := f.tcb.ackNum, flags := PSH_ACK)));
    }
  }

  /**
   * The client is sent a reset exactly when its first packet is no SYN, a later SYN has another
   * number, the host cannot be connected, written or read, or the handshake ends unfinished.
   */
  lemma ResetsAreSent(f: Flow, e: Event)
    requires Possible(f, e) && HasRoom(e)
    ensures SendsRst(f, Step(f, e)) <==> Resets(f, e)
  {
    hide HandlePacket, AfterWrite, ProcessReceive, SendsRst, Close, Reply, RemainingWindow, Next;
    RstNothing(f, Step(f, e));
    match e
    case Packet(seg, isn, _) => RstPacket(f, seg, isn);
    case Writable(w, _) => RstWrite(f, w);
    case Readable(r, room) => RstRead(f, r, room);
    case Both(w, _, r, readRoom) => if !f.closed { RstBoth(f, w, r, readRoom); }
    case Pull(room) => if room { RstPull(f); }
    case Shut => RstClose(f);
    case _ =>
      RstOfReset(f);
      RstClose(f);
  }

  lemma RstClose(f: Flow)
    ensures !SendsRst(f, Close(f))
  {
  }

  lemma RstPull(f: Flow)
    requires f.pending.Some? && PendingFits(f)
    ensures !SendsRst(f, Next(f))
  {
  }

  lemma RstBoth(f: Flow, w: WriteOutcome, r: ReadOutcome, readRoom: bool)
    requires !f.closed && Possible(f, Both(w, true, r, readRoom)) && (readRoom || r.Data?)
    ensures SendsRst(f, Step(f, Both(w, true, r, readRoom))) <==> Resets(f, Both(w, true, r, readRoom))
  {
    hide AfterWrite, ProcessReceive, SendsRst, RemainingWindow;
    var g := AfterWrite(f, w, true);
    RstWrite(f, w);
    WriteExtends(f, w);
    if GoesOn(f, w, true) {
      RstRead(g, r, readRoom);
      ReadExtends(g, r, readRoom);
      RstThen(f, g, ProcessReceive(g, r, readRoom));
      FailedWriteCloses(f, w);
    }
  }

  lemma FailedWriteCloses(f: Flow, w: WriteOutcome)
    requires w.Wrote? ==> w.n <= |f.ring|
    ensures w.WriteFailed? ==> AfterWrite(f, w, true).closed
  {
  }

  lemma WriteExtends(f: Flow, w: WriteOutcome)
    requires w.Wrote? ==> w.n <= |f.ring|
    ensures f.h.wires <= AfterWrite(f, w, true).h.wires
  {
    hide Wrap;
  }

  lemma ReadExtends(f: Flow, r: ReadOutcome, room: bool)
    ensures f.h.wires <= ProcessReceive(f, r, room).h.wires
  {
  }

  lemma RstThen(f: Flow, g: Flow, k: Flow)
    requires f.h.wires <= g.h.wires <= k.h.wires
    ensures SendsRst(f, k) <==> SendsRst(f, g) || SendsRst(g, k)
  {
    if SendsRst(f, g) {
      var i: nat :| New(f, g, i) && g.h.wires[i].kind != Pulled && g.h.wires[i].image.flags == RST;
      assert New(f, k, i);
    }
    if SendsRst(g, k) {
      var i: nat :| New(g, k, i) && k.h.wires[i].kind != Pulled && k.h.wires[i].image.flags == RST;
      assert New(f, k, i);
    }
    if SendsRst(f, k) {
      var i: nat :| New(f, k, i) && k.h.wires[i].kind != Pulled && k.h.wires[i].image.flags == RST;
      assert New(f, g, i) || New(g, k, i);
    }
  }
}
