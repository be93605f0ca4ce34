/** What the host receives: the client's byte stream, and its FIN after all of it. */
module TcpUpstream {
  import opened Words
  import opened TcpFlows
  import opened TcpTheorems

  /** Offset in the client's stream of the next byte expected, counting a processed FIN. */
  function Received(f: Flow): nat { |f.h.hostOut| + |f.ring| + f.h.finsTaken }

  /**
   * `stream` is all that the client ever sends.  Host output and ring are its beginning,
   * the acknowledgement number counts what the host took, and a FIN was seen only at its end;
   * the last states are entered by taking it.
   */
  predicate Upstream(stream: seq<byte>, f: Flow) {
    && f.h.hostOut + f.ring <= stream
    && f.h.finsTaken <= 1
    && (f.h.finsTaken == 1 ==> f.tcb.finReceived && f.ring == [])
    && (f.tcb.finReceived ==> f.h.hostOut + f.ring == stream)
    && (Handshaking(f.tcb.state) ==> Received(f) == 0 && !f.tcb.finReceived)
    && (f.tcb.state != Init ==> f.tcb.ackNum == Wrap(f.tcb.syn + 1 + |f.h.hostOut| + f.h.finsTaken))
    && (Last(f.tcb.state) ==> f.h.finsTaken == 1)
  }

  predicate Last(s: State) { s == LastAck || s == Closing }

  /** The segment carries the slice of the stream that its number names, FIN only at the end. */
  predicate InStream(stream: seq<byte>, f: Flow, seg: Segment, offset: nat) {
    && seg.seqNum == Wrap(f.tcb.syn + 1 + offset)
    && -TWO32 < offset - Received(f) < TWO32
    && offset + |seg.payload| <= |stream|
    && seg.payload == stream[offset..offset + |seg.payload|]
    && (seg.flags.fin ==> offset + |seg.payload| == |stream|)
  }

  /** An in-order segment's payload will enter the ring, or there is none. */
  predicate PayloadKept(f: Flow, seg: Segment) {
    || seg.payload == []
    || (seg.flags.ack && f.tcb.state != SynReceived && |f.ring| + |seg.payload| <= RING_CAPACITY)
  }

  /**
   * The client's part: data and FIN only after the SYN-ACK, each a slice of the stream, and an
   * in-order FIN does not share its segment with payload that the relay has to drop.
   */
  ghost predicate ClientBehaves(stream: seq<byte>, f: Flow, e: Event) {
    e.Packet? && !Handshaking(f.tcb.state) ==>
      (e.seg.payload != [] || e.seg.flags.fin) && !e.seg.flags.syn && !e.seg.flags.rst ==>
        && (exists offset: nat :: InStream(stream, f, e.seg, offset))
        && (e.seg.flags.fin && e.seg.seqNum == Expected(f) ==> PayloadKept(f, e.seg))
  }

  /** A client that waits for the SYN-ACK sends SYN or RST segments only. */
  ghost predicate ClientWaits(f: Flow, e: Event) {
    e.Packet? && f.tcb.state == SynSent ==>
      e.seg.flags.syn || e.seg.flags.rst || (e.seg.payload == [] && !e.seg.flags.fin)
  }

  ghost predicate Behaves(stream: seq<byte>, f: Flow, es: seq<Event>)
    requires Runs(f, es)
    decreases es
  {
    es == [] || (ClientBehaves(stream, f, es[0]) && ClientWaits(f, es[0])
                 && Behaves(stream, Step(f, es[0]), es[1..]))
  }

  // ---------------------------------------------------------------------------------------

  lemma ExpectedIsReceived(stream: seq<byte>, f: Flow)
    requires Upstream(stream, f) && f.tcb.state != Init
    ensures Expected(f) == Wrap(f.tcb.syn + 1 + Received(f))
  {
    WrapAdd(f.tcb.syn + 1 + |f.h.hostOut| + f.h.finsTaken, |f.ring|);
  }

  /** Modulo 2^32 there is no doubt about the place of an in-order segment. */
  lemma InOrderOffset(stream: seq<byte>, f: Flow, seg: Segment, offset: nat)
    requires Upstream(stream, f) && f.tcb.state != Init
    requires InStream(stream, f, seg, offset) && seg.seqNum == Expected(f)
    ensures offset == Received(f)
    ensures seg.payload != [] || seg.flags.fin ==> f.h.finsTaken == 0
    ensures f.tcb.finReceived ==> seg.payload == []
  {
    ExpectedIsReceived(stream, f);
    WrapInjective(f.tcb.syn + 1 + offset, f.tcb.syn + 1 + Received(f));
  }

  lemma UpDoHandleFin(stream: seq<byte>, f: Flow, room: bool)
    requires Upstream(stream, f) && !Handshaking(f.tcb.state)
    requires f.tcb.finReceived && f.ring == [] && f.h.finsTaken == 0
    ensures Upstream(stream, DoHandleFin(f, room))
  {
    hide Wrap;
    WrapAdd(f.tcb.syn + 1 + |f.h.hostOut|, 1);
  }

  lemma UpHandleFin(stream: seq<byte>, f: Flow, room: bool)
    requires Upstream(stream, f) && !Handshaking(f.tcb.state)
    requires f.h.hostOut + f.ring == stream && f.h.finsTaken == 0
    ensures Upstream(stream, HandleFin(f, room))
  {
    hide DoHandleFin;
    var g := f.(tcb := f.tcb.(finReceived := true));
    if g.ring == [] {
      UpDoHandleFin(stream, g, room);
    }
  }

  lemma UpHandleAck(stream: seq<byte>, f: Flow, payload: seq<byte>)
    requires Upstream(stream, f) && !Handshaking(f.tcb.state)
    requires payload == [] ||
             (f.h.finsTaken == 0 && !f.tcb.finReceived && Received(f) + |payload| <= |stream|
              && payload == stream[Received(f)..Received(f) + |payload|])
    ensures var g := HandleAck(f, payload);
            && Upstream(stream, g) && !Handshaking(g.tcb.state) && g.h == f.h
            && g.ring == (if f.tcb.state != SynReceived && |f.ring| + |payload| <= RING_CAPACITY
                          then f.ring + payload else f.ring)
  {
    hide Wrap;
    var out := f.h.hostOut + f.ring;
    if payload == [] {
      assert f.ring + payload == f.ring;
    } else {
      assert f.h.hostOut + (f.ring + payload) == out + payload;
      assert out + payload == stream[..|out| + |payload|];
    }
  }

  lemma UpExpected(stream: seq<byte>, f: Flow, seg: Segment, room: bool, offset: nat)
    requires Upstream(stream, f) && !Handshaking(f.tcb.state) && seg.seqNum == Expected(f)
    requires (seg.payload != [] || seg.flags.fin) && !seg.flags.rst
    requires InStream(stream, f, seg, offset) && (seg.flags.fin ==> PayloadKept(f, seg))
    ensures Upstream(stream, HandleExpected(f, seg, room))
  {
    hide Wrap, HandleFin, HandleAck;
    InOrderOffset(stream, f, seg, offset);
    UpHandleAck(stream, f, seg.payload);
    if seg.flags.fin {
      UpFinal(stream, f, seg, if seg.flags.ack then HandleAck(f, seg.payload) else f, room);
    }
  }

  /** When the last segment is kept, host output and ring are the whole stream, and the FIN is due. */
  lemma UpFinal(stream: seq<byte>, f: Flow, seg: Segment, acked: Flow, room: bool)
    requires Upstream(stream, acked) && !Handshaking(acked.tcb.state) && acked.h == f.h && f.h.finsTaken == 0
    requires Received(f) + |seg.payload| == |stream|
    requires |acked.ring| == |f.ring| + |seg.payload|
    ensures Upstream(stream, HandleFin(acked, room))
  {
    hide Wrap, HandleFin;
    UpHandleFin(stream, acked, room);
  }

  /** The rest of the flow does not matter here. */
  predicate SameUp(f: Flow, g: Flow) {
    && g.h.hostOut == f.h.hostOut && g.h.finsTaken == f.h.finsTaken && g.ring == f.ring
    && g.tcb.syn == f.tcb.syn && g.tcb.ackNum == f.tcb.ackNum && g.tcb.finReceived == f.tcb.finReceived
    && (Handshaking(g.tcb.state) ==> g.tcb.state == f.tcb.state)
    && (Last(g.tcb.state) ==> Last(f.tcb.state))
  }

  lemma UpSame(stream: seq<byte>, f: Flow, g: Flow)
    requires Upstream(stream, f) && SameUp(f, g) && f.tcb.state != Init
    ensures Upstream(stream, g)
  {
  }

  lemma UpFirst(stream: seq<byte>, f: Flow, seg: Segment, isn: u32, room: bool)
    requires Upstream(stream, f) && f.tcb.state == Init
    ensures Upstream(stream, HandleFirstPacket(f, seg, isn, room))
  {
    hide Wrap;
  }

  lemma UpDuplicateSyn(stream: seq<byte>, f: Flow, seg: Segment, room: bool)
    requires Upstream(stream, f) && f.tcb.state != Init
    ensures Upstream(stream, HandleDuplicateSyn(f, seg, room))
  {
    hide Wrap;
  }

  /** A segment with neither data nor FIN, or a reset, leaves the stream alone. */
  lemma UpBare(stream: seq<byte>, f: Flow, seg: Segment, room: bool)
    requires Upstream(stream, f) && f.tcb.state != Init
    requires seg.flags.rst || (seg.payload == [] && !seg.flags.fin)
    ensures Upstream(stream, HandleExpected(f, seg, room))
  {
    hide Wrap, Upstream;
    UpSame(stream, f, HandleExpected(f, seg, room));
  }

  lemma UpPacket(stream: seq<byte>, f: Flow, seg: Segment, isn: u32, room: bool)
    requires Upstream(stream, f)
    requires ClientBehaves(stream, f, Packet(seg, isn, room)) && ClientWaits(f, Packet(seg, isn, room))
    ensures Upstream(stream, HandlePacket(f, seg, isn, room))
  {
    hide HandleExpected, HandleFirstPacket, HandleDuplicateSyn, Wrap;
    var g := f.(tcb := f.tcb.(window := seg.window, theirAck := seg.ackNum));
    if f.tcb.state == Init {
      UpFirst(stream, f, seg, isn, room);
    } else if seg.flags.syn {
      UpDuplicateSyn(stream, f, seg, room);
    } else if seg.seqNum == Expected(f) {
      UpSame(stream, f, g);
      if seg.flags.rst || (seg.payload == [] && !seg.flags.fin) {
        UpBare(stream, g, seg, room);
      } else {
        var offset: nat :| InStream(stream, f, seg, offset);
        UpExpected(stream, g, seg, room, offset);
      }
    }
  }

  lemma UpSend(stream: seq<byte>, f: Flow, outcome: WriteOutcome, room: bool)
    requires Upstream(stream, f) && f.tcb.state != Init && (outcome.Wrote? ==> outcome.n <= |f.ring|)
    requires f.tcb.state == SynSent ==> !outcome.Wrote?
    ensures Upstream(stream, ProcessSend(f, outcome, room))
  {
    hide Wrap, Reply, DoHandleFin, Upstream;
    if outcome.Wrote? && outcome.n > 0 {
      UpWrote(stream, f, outcome.n);
      var g := f.(tcb := f.tcb.(ackNum := Wrap(f.tcb.ackNum + outcome.n)), ring := f.ring[outcome.n..],
                  h := f.h.(hostOut := f.h.hostOut + f.ring[..outcome.n]));
      if g.tcb.finReceived && g.ring == [] {
        NotTakenYet(stream, f);
        UpDoHandleFin(stream, g, room);
      } else {
        UpReply(stream, g, ACK, room);
      }
    } else {
      UpReply(stream, f, RST, room);
      UpSame(stream, Reply(f, RST, room), Close(Reply(f, RST, room)));
      UpSame(stream, f, Close(f));
    }
  }

  lemma UpReply(stream: seq<byte>, f: Flow, flags: Flags, room: bool)
    requires Upstream(stream, f) && f.tcb.state != Init
    ensures Upstream(stream, Reply(f, flags, room)) && Reply(f, flags, room).tcb == f.tcb
  {
    hide Upstream;
    UpSame(stream, f, Reply(f, flags, room));
  }

  lemma NotTakenYet(stream: seq<byte>, f: Flow)
    requires Upstream(stream, f) && f.ring != []
    ensures f.h.finsTaken == 0 && !Handshaking(f.tcb.state)
  {
  }

  lemma UpWrote(stream: seq<byte>, f: Flow, n: nat)
    requires Upstream(stream, f) && !Handshaking(f.tcb.state) && n <= |f.ring|
    ensures Upstream(stream, f.(tcb := f.tcb.(ackNum := Wrap(f.tcb.ackNum + n)), ring := f.ring[n..],
                                h := f.h.(hostOut := f.h.hostOut + f.ring[..n])))
  {
    hide Wrap;
    WrapAdd(f.tcb.syn + 1 + |f.h.hostOut| + f.h.finsTaken, n);
    assert f.h.hostOut + f.ring == (f.h.hostOut + f.ring[..n]) + f.ring[n..];
  }

  lemma UpStep(stream: seq<byte>, f: Flow, e: Event)
    requires Upstream(stream, f) && Possible(f, e) && f.tcb.state != CloseWait
    requires ClientBehaves(stream, f, e) && ClientWaits(f, e)
    ensures Upstream(stream, Step(f, e))
  {
    hide Wrap, Upstream, HandlePacket, ProcessSend, ProcessReceive;
    match e
    case Packet(seg, isn, room) => UpPacket(stream, f, seg, isn, room);
    case Writable(w, room) => if !f.closed { UpWrite(stream, f, w, room); }
    case Readable(r, room) => if !f.closed { UpReceive(stream, f, r, room); }
    case Both(w, room, r, readRoom) =>
      if !f.closed {
        UpWrite(stream, f, w, room);
        if GoesOn(f, w, room) {
          WriteLeaves(f, w, room);
          UpReceive(stream, AfterWrite(f, w, room), r, readRoom);
        }
      }
    case _ => if !f.closed { UpSame(stream, f, Step(f, e)); }
  }

  lemma UpWrite(stream: seq<byte>, f: Flow, w: WriteOutcome, room: bool)
    requires Upstream(stream, f) && f.tcb.state != Init && (w.Wrote? ==> w.n <= |f.ring|)
    ensures Upstream(stream, AfterWrite(f, w, room))
  {
    hide Wrap, Upstream, ProcessSend;
    if f.tcb.state != SynSent {
      UpSend(stream, f, w, room);
    } else {
      UpSame(stream, f, ProcessConnect(f, w.WriteFailed?, room));
    }
  }

  lemma WriteLeaves(f: Flow, w: WriteOutcome, room: bool)
    requires f.tcb.state != Init && f.tcb.state != CloseWait && (w.Wrote? ==> w.n <= |f.ring|)
    ensures var s := AfterWrite(f, w, room).tcb.state; s != Init && s != CloseWait
  {
  }

  /** Reading from the host does not touch the stream to it. */
  lemma UpReceive(stream: seq<byte>, f: Flow, r: ReadOutcome, room: bool)
    requires Upstream(stream, f) && f.tcb.state != Init && f.tcb.state != CloseWait
    ensures Upstream(stream, ProcessReceive(f, r, room))
  {
    hide Upstream, Wrap;
    UpSame(stream, f, ProcessReceive(f, r, room));
  }

  lemma {:induction false} UpRun(stream: seq<byte>, f: Flow, es: seq<Event>)
    requires Upstream(stream, f) && Tally(f) && Runs(f, es) && Behaves(stream, f, es)
    ensures Upstream(stream, Run(f, es))
    decreases es
  {
    assert f.tcb.state != CloseWait;
    hide Upstream, Tally, Step, Possible, ClientBehaves, ClientWaits;
    if es != [] {
      UpStep(stream, f, es[0]);
      GoodStep(false, f, es[0]);
      UpRun(stream, Step(f, es[0]), es[1..]);
    }
  }

  /**
   * Upstream delivery (section 3.3 of RFC 793).  In every run against a well-behaved client the
   * host has received a beginning of the client's stream, what is buffered continues it, the
   * acknowledgement number counts exactly what the host took, and the FIN is acknowledged only
   * when the host has the whole stream.
   */
  lemma {:induction false} UpstreamDelivery(stream: seq<byte>, f: Flow, headerLength: nat, es: seq<Event>)
    requires Reached(f, headerLength, es) && Behaves(stream, NewFlow(headerLength), es)
    ensures f.h.hostOut + f.ring <= stream
    ensures f.tcb.state != Init ==> f.tcb.ackNum == Wrap(f.tcb.syn + 1 + |f.h.hostOut| + f.h.finsTaken)
    ensures f.h.finsTaken <= 1
    ensures f.h.finsTaken == 1 ==> f.h.hostOut == stream
  {
    ReachedUpstream(stream, f, headerLength, es);
  }

  // ---------------------------------------------------------------------------------------
  // The FIN whose own payload is dropped
  // ---------------------------------------------------------------------------------------

  /** The FIN is taken although the host lacks stream bytes. */
  predicate TakesFinShort(stream: seq<byte>, f: Flow) { f.h.finsTaken > 0 && f.h.hostOut < stream }

  /** Whatever a behaving client and the host do from here on, the FIN comes after all of the stream. */
  ghost predicate NeverShort(stream: seq<byte>, f: Flow) {
    forall es | Runs(f, es) && Behaves(stream, f, es) :: !TakesFinShort(stream, Run(f, es))
  }

  lemma KeptIsSafe(stream: seq<byte>, f: Flow, e: Event, offset: nat)
    requires Upstream(stream, f) && Tally(f) && !Handshaking(f.tcb.state)
    requires e.Packet? && Possible(f, e) && PayloadKept(f, e.seg)
    requires InStream(stream, f, e.seg, offset)
    ensures NeverShort(stream, Step(f, e))
  {
    assert f.tcb.state != CloseWait;
    hide Wrap, InStream, PayloadKept, Possible, Step, Tally, Upstream, Run, Runs, Behaves;
    UpStep(stream, f, e);
    GoodStep(false, f, e);
    var g := Step(f, e);
    forall es | Runs(g, es) && Behaves(stream, g, es)
      ensures !TakesFinShort(stream, Run(g, es))
    {
      UpRun(stream, g, es);
      NotShort(stream, Run(g, es));
    }
  }

  lemma NotShort(stream: seq<byte>, f: Flow)
    requires Upstream(stream, f)
    ensures !TakesFinShort(stream, f)
  {
  }

  /** The flow has a FIN to take, and the host lacks more of the stream than is buffered. */
  predicate Missing(stream: seq<byte>, f: Flow) {
    && f.tcb.finReceived && !f.closed && !Handshaking(f.tcb.state)
    && f.h.finsTaken == 0 && f.h.hostOut + f.ring < stream
  }

  /** The segment is dropped but for its FIN, which is taken at once if nothing is buffered. */
  lemma DroppedLeaves(stream: seq<byte>, f: Flow, seg: Segment, room: bool, offset: nat)
    requires Upstream(stream, f) && !f.closed && !Handshaking(f.tcb.state) && seg.seqNum == Expected(f)
    requires InStream(stream, f, seg, offset) && seg.flags.fin && !seg.flags.rst && !PayloadKept(f, seg)
    ensures var g := HandleExpected(f, seg, room);
            if f.ring == [] then TakesFinShort(stream, g) else Missing(stream, g) && g.ring == f.ring
  {
    hide Wrap;
    InOrderOffset(stream, f, seg, offset);
    var acked := if seg.flags.ack then HandleAck(f, seg.payload) else f;
    assert acked == f.(tcb := acked.tcb) && (acked.tcb.state == f.tcb.state || acked.tcb.state == Established);
    assert |f.h.hostOut + f.ring| < |stream|;
    assert f.h.hostOut < stream;
  }

  /** Once the buffer is drained, in one write or cut at the end of the ring, the FIN is taken short. */
  lemma DrainIsShort(stream: seq<byte>, f: Flow, n: nat)
    requires Missing(stream, f) && 0 < n <= |f.ring|
    ensures Possible(f, Writable(Wrote(n), true))
    ensures var g := Step(f, Writable(Wrote(n), true));
            if n == |f.ring| then TakesFinShort(stream, g)
            else Missing(stream, g) && g.ring == f.ring[n..]
  {
    hide Wrap;
    assert f.h.hostOut + f.ring == (f.h.hostOut + f.ring[..n]) + f.ring[n..];
    assert n == |f.ring| ==> f.ring[..n] == f.ring;
  }

  lemma DroppedIsShort(stream: seq<byte>, f: Flow, e: Event, offset: nat)
    requires Upstream(stream, f) && !f.closed && !Handshaking(f.tcb.state)
    requires e.Packet? && Possible(f, e) && e.seg.seqNum == Expected(f) && !PayloadKept(f, e.seg)
    requires InStream(stream, f, e.seg, offset) && e.seg.flags.fin && !e.seg.flags.rst && !e.seg.flags.syn
    ensures !NeverShort(stream, Step(f, e))
  {
    var f' := f.(tcb := f.tcb.(window := e.seg.window, theirAck := e.seg.ackNum));
    UpSame(stream, f, f');
    DroppedLeaves(stream, f', e.seg, e.room, offset);
    hide Wrap, Upstream, InStream, HandleExpected;
    var g := Step(f, e);
    if f.ring == [] {
      assert Runs(g, []) && Behaves(stream, g, []) && Run(g, []) == g;
    } else {
      ShortAfter(stream, g);
    }
  }

  lemma ShortAfter(stream: seq<byte>, g: Flow)
    requires Missing(stream, g) && g.ring != []
    ensures !NeverShort(stream, g)
  {
    DrainIsShort(stream, g, |g.ring|);
    hide Missing, Step, Possible;
    var es := [Writable(Wrote(|g.ring|), true)];
    var t := Step(g, es[0]);
    assert es[1..] == [] && Runs(t, []) && Behaves(stream, t, []) && Run(t, []) == t;
    assert Runs(g, es) && Behaves(stream, g, es) && Run(g, es) == t;
  }

  /**
   * An in-order FIN segment is safe exactly if its payload is kept, in every state that a behaving
   * client can bring about.  If it is, no later run takes the FIN short of the stream; if it is
   * dropped, a run does in which the host takes what is buffered.
   */
  lemma {:induction false} FinWithDroppedPayloadLosesData(stream: seq<byte>, f: Flow, headerLength: nat,
                                                          es: seq<Event>, e: Event, offset: nat)
    requires Reached(f, headerLength, es) && Behaves(stream, NewFlow(headerLength), es)
    requires !Handshaking(f.tcb.state) && e.Packet? && Possible(f, e) && e.seg.seqNum == Expected(f)
    requires InStream(stream, f, e.seg, offset) && e.seg.flags.fin && !e.seg.flags.rst && !e.seg.flags.syn
    ensures NeverShort(stream, Step(f, e)) <==> PayloadKept(f, e.seg)
  {
    ReachedIsTallied(f, headerLength, es);
    ReachedUpstream(stream, f, headerLength, es);
    assert !f.closed;
    hide Wrap, Possible, Step, Tally, Upstream, Reached, Behaves, NeverShort, InStream;
    if PayloadKept(f, e.seg) {
      KeptIsSafe(stream, f, e, offset);
    } else {
      DroppedIsShort(stream, f, e, offset);
    }
  }

  lemma {:induction false} ReachedUpstream(stream: seq<byte>, f: Flow, headerLength: nat, es: seq<Event>)
    requires Reached(f, headerLength, es) && Behaves(stream, NewFlow(headerLength), es)
    ensures Upstream(stream, f)
  {
    NewFlowIsGood(headerLength);
    hide Tally, Step, Possible, Behaves, Runs;
    UpRun(stream, NewFlow(headerLength), es);
  }
}
