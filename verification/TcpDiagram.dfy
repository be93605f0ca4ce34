/**
 * The relay's TCP endpoint against the state diagram of section 3.2 of RFC 793, and what else
 * closes, resets or changes a flow.
 */
module TcpDiagram {
  import opened Words
  import opened TcpFlows
  import opened TcpTheorems

  /** What moves a flow through the diagram. */
  datatype Signal = RcvSyn | HostConnects | RcvAck | HostEof | RcvFin | RcvAckOfFin

  /**
   * The diagram.  The relay answers a FIN of an established flow with its own at once, and so passes
   * CloseWait by; where the diagram waits in TimeWait the relay closes.
   */
  function Diagram(s: State, x: Signal): State {
    match (s, x)
    case (Init, RcvSyn) => SynSent
    case (SynSent, HostConnects) => SynReceived
    case (SynReceived, RcvAck) => Established
    case (Established, HostEof) => FinWait1
    case (Established, RcvFin) => LastAck
    case (FinWait1, RcvFin) => Closing
    case (FinWait1, RcvAckOfFin) => FinWait2
    case _ => s
  }

  /** The arrows of the diagram that lead to the end. */
  predicate Ends(s: State, x: Signal) {
    (s == LastAck && x == RcvAckOfFin) || (s == Closing && x == RcvAckOfFin) || (s == FinWait2 && x == RcvFin)
  }

  function After(s: State, xs: seq<Signal>): State
    decreases xs
  {
    if xs == [] then s else After(Diagram(s, xs[0]), xs[1..])
  }

  predicate EndsIn(s: State, xs: seq<Signal>)
    decreases xs
  {
    xs != [] && (Ends(s, xs[0]) || EndsIn(Diagram(s, xs[0]), xs[1..]))
  }

  // ---------------------------------------------------------------------------------------
  // What an event means, told from the flow before it
  // ---------------------------------------------------------------------------------------

  /** The segment is the next one of its stream, and no SYN. */
  predicate InOrder(f: Flow, seg: Segment) {
    f.tcb.state != Init && !seg.flags.syn && seg.seqNum == Expected(f)
  }

  /** Its payload enters the ring. */
  predicate Accepts(f: Flow, seg: Segment) {
    && InOrder(f, seg) && seg.flags.ack && !seg.flags.rst && f.tcb.state != SynReceived
    && |f.ring| + |seg.payload| <= RING_CAPACITY
  }

  /** Its FIN is processed at once, for nothing is left to give to the host. */
  predicate FinIsNext(f: Flow, seg: Segment) {
    && InOrder(f, seg) && seg.flags.fin && !seg.flags.rst
    && f.ring == [] && (Accepts(f, seg) ==> seg.payload == [])
  }

  /** The number of our FIN, if it has gone out or goes out to answer this segment. */
  function FinNumber(f: Flow, seg: Segment): Option<u32> {
    if f.tcb.fin.Some? then f.tcb.fin
    else if FinIsNext(f, seg) && (f.tcb.state == Established || (f.tcb.state == SynReceived && seg.flags.ack))
    then Some(f.tcb.seqNum)
    else None
  }

  /** The segment acknowledges our FIN. */
  predicate AcksFin(f: Flow, seg: Segment) {
    FinNumber(f, seg).Some? && seg.ackNum == Wrap(FinNumber(f, seg).value + 1)
  }

  function SignalsOf(f: Flow, seg: Segment): seq<Signal> {
    if f.tcb.state == Init then if seg.flags.syn then [RcvSyn] else []
    else if !InOrder(f, seg) || seg.flags.rst then []
    else
      (if seg.flags.ack then [RcvAck] else [])
      + (if FinIsNext(f, seg) then [RcvFin] else [])
      + (if AcksFin(f, seg) then [RcvAckOfFin] else [])
  }

  function SignalsOfWrite(f: Flow, w: WriteOutcome): seq<Signal> {
    if f.tcb.state == SynSent then if w.WriteFailed? then [] else [HostConnects]
    else if f.tcb.finReceived && w.Wrote? && 0 < w.n == |f.ring| then [RcvFin]
    else []
  }

  function Signals(f: Flow, e: Event): seq<Signal>
    requires Possible(f, e)
  {
    if f.closed then []
    else match e
      case Packet(seg, _, _) => SignalsOf(f, seg)
      case Writable(w, _) => SignalsOfWrite(f, w)
      case Readable(r, _) => if r.Eof? then [HostEof] else []
      case Both(w, room, r, _) =>
        SignalsOfWrite(f, w) + if GoesOn(f, w, room) && r.Eof? then [HostEof] else []
      case _ => []
  }

  /** The client is told that the flow is refused or broken. */
  predicate Resets(f: Flow, e: Event)
    requires Possible(f, e)
  {
    !f.closed &&
    match e
    case Packet(seg, _, _) =>
      if f.tcb.state == Init then !seg.flags.syn
      else seg.flags.syn && f.tcb.state != SynSent && seg.seqNum != f.tcb.syn
    case Writable(w, _) => w.WriteFailed?
    case Readable(r, _) => r.ReadFailed?
    case Both(w, room, r, _) => w.WriteFailed? || (GoesOn(f, w, room) && r.ReadFailed?)
    case Hup(_) => f.tcb.state == SynSent || f.tcb.state == SynReceived
    case Expire(_) => f.tcb.state == SynSent || f.tcb.state == SynReceived
    case _ => false
  }

  /** The flow is given up without a word. */
  predicate Drops(f: Flow, e: Event) {
    match e
    case Packet(seg, _, _) => InOrder(f, seg) && seg.flags.rst
    case Writable(w, _) => f.tcb.state != SynSent && w == Wrote(0)
    case Both(w, _, _, _) => w == Wrote(0)
    case Hup(_) => true
    case Expire(_) => true
    case Shut => true
    case _ => false
  }

  // ---------------------------------------------------------------------------------------
  // Every event follows the diagram
  // ---------------------------------------------------------------------------------------

  /** `g` stands where the diagram leads, and is closed if that is its end or `also` holds. */
  predicate Follows(f: Flow, g: Flow, xs: seq<Signal>, also: bool) {
    g.tcb.state == After(f.tcb.state, xs) && (g.closed <==> f.closed || EndsIn(f.tcb.state, xs) || also)
  }

  lemma One(s: State, x: Signal)
    ensures After(s, [x]) == Diagram(s, x) && (EndsIn(s, [x]) <==> Ends(s, x))
    ensures After(s, []) == s && !EndsIn(s, [])
  {
    assert [x][1..] == [];
  }

  lemma {:induction false} AfterBoth(s: State, xs: seq<Signal>, ys: seq<Signal>)
    ensures After(s, xs + ys) == After(After(s, xs), ys)
    ensures EndsIn(s, xs + ys) <==> EndsIn(s, xs) || EndsIn(After(s, xs), ys)
    decreases xs
  {
    if xs == [] {
      assert xs + ys == ys;
    } else {
      assert (xs + ys)[1..] == xs[1..] + ys;
      AfterBoth(Diagram(s, xs[0]), xs[1..], ys);
    }
  }

  lemma FollowsBoth(f: Flow, g: Flow, k: Flow, xs: seq<Signal>, ys: seq<Signal>, also: bool, then': bool)
    requires Follows(f, g, xs, also) && Follows(g, k, ys, then')
    ensures Follows(f, k, xs + ys, also || then')
  {
    AfterBoth(f.tcb.state, xs, ys);
  }

  lemma FollowsAck(f: Flow, seg: Segment)
    requires f.tcb.state != Init
    ensures var g := if seg.flags.ack then HandleAck(f, seg.payload) else f;
            Follows(f, g, if seg.flags.ack then [RcvAck] else [], false)
  {
    One(f.tcb.state, RcvAck);
  }

  lemma FollowsFin(f: Flow, seg: Segment, room: bool)
    requires !f.closed
    ensures var g := if seg.flags.fin then HandleFin(f, room) else f;
            Follows(f, g, if seg.flags.fin && f.ring == [] then [RcvFin] else [], false)
  {
    One(f.tcb.state, RcvFin);
  }

  lemma FollowsAckOfFin(f: Flow, seg: Segment)
    requires f.closed ==> f.tcb.state == FinWait2
    ensures var acks := f.tcb.fin.Some? && seg.ackNum == Wrap(f.tcb.fin.value + 1);
            Follows(f, if acks then HandleFinAck(f) else f, if acks then [RcvAckOfFin] else [], false)
  {
    One(f.tcb.state, RcvAckOfFin);
  }

  /** What the handlers know when they come to the FIN is what `FinIsNext` and `FinNumber` say. */
  lemma FinFacts(f: Flow, seg: Segment, room: bool)
    requires Once(f) && InOrder(f, seg) && !seg.flags.rst && !f.closed
    ensures var acked := if seg.flags.ack then HandleAck(f, seg.payload) else f;
            var finned := if seg.flags.fin then HandleFin(acked, room) else acked;
            && !acked.closed && (finned.closed ==> finned.tcb.state == FinWait2)
            && (seg.flags.fin && acked.ring == [] <==> FinIsNext(f, seg))
            && finned.tcb.fin == FinNumber(f, seg)
  {
    hide Wrap;
  }

  /** What a segment does up to its acknowledgement, and up to its FIN. */
  function Acked(f: Flow, seg: Segment): Flow { if seg.flags.ack then HandleAck(f, seg.payload) else f }

  function Finned(f: Flow, seg: Segment, room: bool): Flow {
    if seg.flags.fin then HandleFin(Acked(f, seg), room) else Acked(f, seg)
  }

  lemma ExpectedIs(f: Flow, seg: Segment, room: bool)
    requires Once(f) && InOrder(f, seg) && !seg.flags.rst && !f.closed
    ensures var finned := Finned(f, seg, room);
            HandleExpected(f, seg, room) == if AcksFin(f, seg) then HandleFinAck(finned) else finned
  {
    FinFacts(f, seg, room);
    hide HandleAck, HandleFin, HandleFinAck, FinIsNext, FinNumber, InOrder, Once;
  }

  lemma SignalsAre(f: Flow, seg: Segment)
    requires InOrder(f, seg) && !seg.flags.rst
    ensures SignalsOf(f, seg) == (if seg.flags.ack then [RcvAck] else [])
                                 + (if FinIsNext(f, seg) then [RcvFin] else [])
                                 + (if AcksFin(f, seg) then [RcvAckOfFin] else [])
  {
    hide FinIsNext, AcksFin, Wrap;
  }

  lemma FollowsExpected(f: Flow, seg: Segment, room: bool)
    requires Once(f) && InOrder(f, seg) && !seg.flags.rst && !f.closed
    ensures Follows(f, HandleExpected(f, seg, room), SignalsOf(f, seg), false)
  {
    hide *;
    var xs := if seg.flags.ack then [RcvAck] else [];
    var ys := if FinIsNext(f, seg) then [RcvFin] else [];
    var zs := if AcksFin(f, seg) then [RcvAckOfFin] else [];
    FollowsParts(f, seg, room, xs, ys, zs);
    SignalsAre(f, seg);
    FollowsBoth(f, Acked(f, seg), Finned(f, seg, room), xs, ys, false, false);
    FollowsBoth(f, Finned(f, seg, room), HandleExpected(f, seg, room), xs + ys, zs, false, false);
  }

  lemma FollowsParts(f: Flow, seg: Segment, room: bool, xs: seq<Signal>, ys: seq<Signal>, zs: seq<Signal>)
    requires Once(f) && InOrder(f, seg) && !seg.flags.rst && !f.closed
    requires xs == if seg.flags.ack then [RcvAck] else []
    requires ys == if FinIsNext(f, seg) then [RcvFin] else []
    requires zs == if AcksFin(f, seg) then [RcvAckOfFin] else []
    ensures Follows(f, Acked(f, seg), xs, false)
    ensures Follows(Acked(f, seg), Finned(f, seg, room), ys, false)
    ensures Follows(Finned(f, seg, room), HandleExpected(f, seg, room), zs, false)
  {
    assert f.tcb.state != Init;
    FollowsAck(f, seg);
    FinFacts(f, seg, room);
    FollowsFin(Acked(f, seg), seg, room);
    FollowsAckOfFin(Finned(f, seg, room), seg);
    ExpectedIs(f, seg, room);
    FinAcked(f, seg, room);
    hide HandleAck, HandleFin, HandleFinAck, HandleExpected, Follows, FinIsNext, FinNumber, AcksFin, InOrder;
    hide Wrap, Once;
  }

  lemma FinAcked(f: Flow, seg: Segment, room: bool)
    requires Once(f) && InOrder(f, seg) && !seg.flags.rst && !f.closed
    ensures var g := Finned(f, seg, room);
            AcksFin(f, seg) <==> g.tcb.fin.Some? && seg.ackNum == Wrap(g.tcb.fin.value + 1)
  {
    FinFacts(f, seg, room);
    hide HandleAck, HandleFin, FinIsNext, FinNumber, InOrder, Once;
  }

  lemma FollowsPacket(f: Flow, seg: Segment, isn: u32, room: bool)
    requires Once(f) && !f.closed
    ensures var e := Packet(seg, isn, room);
            Follows(f, HandlePacket(f, seg, isn, room), SignalsOf(f, seg), Resets(f, e) || Drops(f, e))
  {
    if InOrder(f, seg) && !seg.flags.rst {
      FollowsInOrder(f, seg, isn, room);
    } else if f.tcb.state == Init || seg.flags.syn {
      FollowsSyn(f, seg, isn, room);
    } else {
      FollowsOther(f, seg, isn, room);
    }
  }

  lemma FollowsInOrder(f: Flow, seg: Segment, isn: u32, room: bool)
    requires Once(f) && !f.closed && InOrder(f, seg) && !seg.flags.rst
    ensures Follows(f, HandlePacket(f, seg, isn, room), SignalsOf(f, seg), false)
  {
    var g := f.(tcb := f.tcb.(window := seg.window, theirAck := seg.ackNum));
    assert InOrder(g, seg) && SignalsOf(g, seg) == SignalsOf(f, seg) && Once(g);
    assert HandlePacket(f, seg, isn, room) == HandleExpected(g, seg, room);
    hide HandleExpected, HandlePacket, SignalsOf, InOrder, Once, Wrap;
    FollowsExpected(g, seg, room);
  }

  lemma FollowsSyn(f: Flow, seg: Segment, isn: u32, room: bool)
    requires !f.closed && (f.tcb.state == Init || seg.flags.syn)
    ensures var e := Packet(seg, isn, room);
            Follows(f, HandlePacket(f, seg, isn, room), SignalsOf(f, seg), Resets(f, e) || Drops(f, e))
  {
    hide Wrap, HandleExpected;
    One(f.tcb.state, RcvSyn);
  }

  lemma FollowsOther(f: Flow, seg: Segment, isn: u32, room: bool)
    requires !f.closed && f.tcb.state != Init && !seg.flags.syn && (InOrder(f, seg) ==> seg.flags.rst)
    ensures var e := Packet(seg, isn, room);
            Follows(f, HandlePacket(f, seg, isn, room), SignalsOf(f, seg), Resets(f, e) || Drops(f, e))
  {
    hide Wrap, HandleAck, HandleFin, HandleFinAck;
    One(f.tcb.state, RcvAck);
  }

  lemma FollowsWrite(f: Flow, w: WriteOutcome, room: bool)
    requires !f.closed && f.tcb.state != Init && (w.Wrote? ==> w.n <= |f.ring|)
    ensures Follows(f, AfterWrite(f, w, room), SignalsOfWrite(f, w),
                    w.WriteFailed? || (f.tcb.state != SynSent && w == Wrote(0)))
  {
    hide Wrap;
    One(f.tcb.state, HostConnects);
    One(f.tcb.state, RcvFin);
  }

  lemma FollowsRead(f: Flow, r: ReadOutcome, room: bool)
    requires f.tcb.state == Established || (f.tcb.state == LastAck && !r.Eof?)
    ensures Follows(f, ProcessReceive(f, r, room), if r.Eof? then [HostEof] else [], r.ReadFailed?)
  {
    One(f.tcb.state, HostEof);
  }

  /**
   * Every event takes the flow where the diagram takes its state, and closes it exactly at the end
   * of the diagram, when it is reset, or when it is given up.
   */
  lemma EventsFollowDiagram(f: Flow, e: Event)
    requires Tally(f) && Possible(f, e) && Orderly(f, e)
    ensures Step(f, e).tcb.state == After(f.tcb.state, Signals(f, e))
    ensures Step(f, e).closed <==> f.closed || EndsIn(f.tcb.state, Signals(f, e)) || Resets(f, e) || Drops(f, e)
  {
    assert f.tcb.state != CloseWait && Once(f);
    One(f.tcb.state, RcvSyn);
    hide Tally, HandlePacket, AfterWrite, ProcessReceive, RemainingWindow, SignalsOf, SignalsOfWrite, InOrder;
    if !f.closed {
      match e
      case Packet(seg, isn, room) => FollowsPacket(f, seg, isn, room);
      case Writable(w, room) => FollowsWrite(f, w, room);
      case Readable(r, room) => FollowsRead(f, r, room);
      case Both(w, room, r, readRoom) =>
        ReadableStill(f, w, room);
        FollowsWrite(f, w, room);
        var g := AfterWrite(f, w, room);
        if GoesOn(f, w, room) {
          FollowsRead(g, r, readRoom);
          FollowsBoth(f, g, ProcessReceive(g, r, readRoom), SignalsOfWrite(f, w), if r.Eof? then [HostEof] else [],
                      w.WriteFailed? || w == Wrote(0), r.ReadFailed?);
        } else {
          assert SignalsOfWrite(f, w) + [] == SignalsOfWrite(f, w);
        }
      case _ =>
    }
  }
}
