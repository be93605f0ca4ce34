/**
 * What the relay's TCP endpoint puts on the wire: section 3.3 of RFC 793, where SYN and FIN take
 * up sequence space as bytes do, and every packet acknowledges.
 */
module TcpWire {
  import opened Words
  import opened TcpFlows
  import opened TcpTheorems

  /** SEG.LEN of RFC 793. */
  function SegLen(flags: Flags, payload: seq<byte>): nat {
    |payload| + (if flags.syn then 1 else 0) + (if flags.fin then 1 else 0)
  }

  /** The sequence space that the relay gives to a packet: of a pulled one, its whole length. */
  function Space(headerLength: nat, w: Wire): nat {
    if w.kind == Pulled then headerLength + |w.payload| else SegLen(w.image.flags, w.payload)
  }

  function SpaceOf(headerLength: nat, ws: seq<Wire>): nat {
    if ws == [] then 0 else SpaceOf(headerLength, ws[..|ws| - 1]) + Space(headerLength, ws[|ws| - 1])
  }

  /** Each packet but the pulled ones is numbered by the space of the packets before it. */
  predicate Consecutive(headerLength: nat, isn: u32, ws: seq<Wire>) {
    ws == [] ||
    (var before, w := ws[..|ws| - 1], ws[|ws| - 1];
     && Consecutive(headerLength, isn, before)
     && (w.kind != Pulled ==> w.image.seqNum == Wrap(isn + SpaceOf(headerLength, before))))
  }

  // ---------------------------------------------------------------------------------------
  // One packet at a time
  // ---------------------------------------------------------------------------------------

  /** The kinds of packet there are, and what each goes with. */
  predicate Proper(f: Flow, g: Flow, w: Wire) {
    match w.kind
    case Pulled => g.h.fins == f.h.fins && g.h.synAcks == f.h.synAcks
    case Direct => w.payload != [] && w.image.flags == PSH_ACK && g.h.fins == f.h.fins && g.h.synAcks == f.h.synAcks
    case Empty =>
      && w.payload == []
      && (if w.image.flags.fin then
            w.image.flags == FIN_ACK && g.h.fins == f.h.fins + 1 && g.tcb.fin == Some(w.image.seqNum)
          else g.h.fins == f.h.fins)
      && (if w.image.flags.syn then
            w.image.flags == SYN_ACK && g.h.synAcks == f.h.synAcks + 1 && g.tcb.state == SynReceived
          else g.h.synAcks == f.h.synAcks)
      && (if w.image.flags.rst then w.image.flags == RST && g.closed && !f.closed else w.image.flags.ack)
      && !w.image.flags.psh
  }

  /** Nothing goes out, and nothing is counted. */
  predicate Silent(f: Flow, g: Flow) {
    && g.headerLength == f.headerLength && g.h.isn == f.h.isn
    && g.h.wires == f.h.wires && g.tcb.seqNum == f.tcb.seqNum && g.tcb.fin == f.tcb.fin
    && g.h.fins == f.h.fins && g.h.synAcks == f.h.synAcks
  }

  /** One packet `w` goes out: it is next in number, and acknowledges what the flow does afterwards. */
  predicate Emits(f: Flow, g: Flow, w: Wire) {
    && g.headerLength == f.headerLength && g.h.isn == f.h.isn
    && g.h.wires == f.h.wires + [w]
    && (w.kind != Pulled ==> w.image.seqNum == f.tcb.seqNum && w.image.ackNum == g.tcb.ackNum)
    && g.tcb.seqNum == Wrap(f.tcb.seqNum + Space(f.headerLength, w))
    && (g.h.fins == f.h.fins ==> g.tcb.fin == f.tcb.fin)
    && Proper(f, g, w)
  }

  function LastWire(g: Flow): Wire
    requires g.h.wires != []
  {
    g.h.wires[|g.h.wires| - 1]
  }

  /** At most one packet goes out. */
  predicate Sends(f: Flow, g: Flow) { Silent(f, g) || (g.h.wires != [] && Emits(f, g, LastWire(g))) }

  /** The link takes every packet, or the packet is data that can wait. */
  predicate HasRoom(e: Event) {
    match e
    case Packet(_, _, room) => room
    case Writable(_, room) => room
    case Readable(r, room) => room || r.Data?
    case Both(_, room, r, readRoom) => room && (readRoom || r.Data?)
    case Hup(room) => room
    case Expire(room) => room
    case Shut => true
    case Pull(_) => true
  }

  lemma SendsAnswer(f: Flow)
    requires !f.closed
    ensures Sends(f, AnswerFin(f, true)) && AnswerFin(f, true).h.synAcks == f.h.synAcks
    ensures AnswerFin(f, true).closed ==> AnswerFin(f, true).tcb.state == FinWait2
  {
    WrapSmall(f.tcb.seqNum);
  }

  lemma SendsReset(f: Flow)
    requires !f.closed
    ensures Sends(f, Close(Reply(f, RST, true)))
  {
    WrapSmall(f.tcb.seqNum);
  }

  lemma SendsExpected(f: Flow, seg: Segment)
    requires !f.closed
    ensures Sends(f, HandleExpected(f, seg, true))
  {
    var acked := if seg.flags.ack then HandleAck(f, seg.payload) else f;
    var finned := if seg.flags.fin then HandleFin(acked, true) else acked;
    SilentAck(f, seg.payload);
    SendsFin(acked);
    hide HandleAck, HandleFin, Sends, Wrap;
    SilentSends(f);
    SendsNothing(f, acked);
    SendsNothing(f, Close(f));
    if seg.flags.fin {
      SendsFrom(f, acked, finned);
    }
    SendsThen(f, finned, HandleFinAck(finned));
  }

  lemma SilentAck(f: Flow, payload: seq<byte>)
    ensures Silent(f, HandleAck(f, payload)) && HandleAck(f, payload).closed == f.closed
  {
  }

  lemma SendsFin(f: Flow)
    requires !f.closed
    ensures Sends(f, HandleFin(f, true)) && HandleFin(f, true).h.synAcks == f.h.synAcks
    ensures HandleFin(f, true).closed ==> HandleFin(f, true).tcb.state == FinWait2
  {
    hide AnswerFin, Sends;
    var g := f.(tcb := f.tcb.(finReceived := true));
    var counted := g.(tcb := g.tcb.(ackNum := Wrap(g.tcb.ackNum + 1)), h := g.h.(finsTaken := g.h.finsTaken + 1));
    SendsAnswer(counted);
    SendsFrom(f, counted, AnswerFin(counted, true));
    SendsNothing(f, g);
  }

  /** What the packet leads to besides does not matter either. */
  lemma SendsThen(f: Flow, g: Flow, g': Flow)
    requires Sends(f, g) && g.h.synAcks == f.h.synAcks && (g.closed ==> g'.closed)
    requires g' == g.(tcb := g.tcb.(state := g'.tcb.state), closed := g'.closed,
                      h := g.h.(deregisters := g'.h.deregisters))
    ensures Sends(f, g')
  {
    hide Wrap;
  }

  lemma SendsPacket(f: Flow, seg: Segment, isn: u32)
    requires !f.closed && f.tcb.state != Init
    ensures Sends(f, HandlePacket(f, seg, isn, true))
  {
    hide HandleExpected, Wrap, Sends, Emits;
    SendsReset(f);
    var g := f.(tcb := f.tcb.(window := seg.window, theirAck := seg.ackNum));
    SendsExpected(g, seg);
    SendsFrom(f, g, HandleExpected(g, seg, true));
    SilentSends(f);
    SilentSends(HandleDuplicateSyn(f, seg, true));
    if f.tcb.state == SynSent {
      SendsNothing(f, HandleDuplicateSyn(f, seg, true));
    }
  }

  lemma SilentSends(f: Flow)
    ensures Sends(f, f)
  {
  }

  lemma SendsNothing(f: Flow, g: Flow)
    requires Silent(f, g)
    ensures Sends(f, g)
  {
  }

  /** What comes before a packet without being seen on the wire does not matter. */
  lemma SendsFrom(f: Flow, f': Flow, g: Flow)
    requires Silent(f, f') && f'.closed == f.closed && Sends(f', g)
    ensures Sends(f, g)
  {
    hide Wrap;
  }

  lemma SendsWrite(f: Flow, w: WriteOutcome)
    requires !f.closed && f.tcb.state != Init && (w.Wrote? ==> w.n <= |f.ring|)
    ensures Sends(f, AfterWrite(f, w, true))
  {
    hide AnswerFin, Sends, Wrap;
    SendsReset(f);
    SendsNothing(f, f);
    SendsNothing(f, Close(f));
    if f.tcb.state == SynSent {
      SendsConnect(f, w.WriteFailed?);
    } else if w.Wrote? {
      var g := f.(tcb := f.tcb.(ackNum := Wrap(f.tcb.ackNum + w.n)), ring := f.ring[w.n..],
                  h := f.h.(hostOut := f.h.hostOut + f.ring[..w.n]));
      var counted := g.(tcb := g.tcb.(ackNum := Wrap(g.tcb.ackNum + 1)), h := g.h.(finsTaken := g.h.finsTaken + 1));
      SendsAnswer(counted);
      SendsFrom(f, counted, AnswerFin(counted, true));
      SendsAck(g);
      SendsFrom(f, g, Reply(g, ACK, true));
    }
  }

  lemma SendsConnect(f: Flow, failed: bool)
    requires !f.closed
    ensures Sends(f, ProcessConnect(f, failed, true))
  {
    WrapSmall(f.tcb.seqNum);
  }

  lemma SendsAck(f: Flow)
    ensures Sends(f, Reply(f, ACK, true))
  {
    WrapSmall(f.tcb.seqNum);
  }

  lemma SendsRead(f: Flow, r: ReadOutcome, room: bool)
    requires !f.closed && (room || r.Data?) && (r.Data? ==> r.bytes != [])
    ensures Sends(f, ProcessReceive(f, r, room))
  {
    WrapSmall(f.tcb.seqNum);
  }

  lemma SendsPull(f: Flow)
    requires f.pending.Some? && PendingFits(f)
    ensures Sends(f, Next(f))
  {
  }

  /** Every event but the first and the combined one puts at most one packet on the link. */
  lemma SendsStep(f: Flow, e: Event)
    requires Possible(f, e) && HasRoom(e) && f.tcb.state != Init && !e.Both?
    ensures Sends(f, Step(f, e))
  {
    hide HandlePacket, AfterWrite, ProcessReceive, Sends, Next, RemainingWindow;
    SilentSends(f);
    match e
    case Packet(seg, isn, _) => SendsPacket(f, seg, isn);
    case Writable(w, _) => if !f.closed { SendsWrite(f, w); }
    case Readable(r, room) => if !f.closed { SendsRead(f, r, room); }
    case Pull(room) => if room { SendsPull(f); }
    case Shut => SendsNothing(f, Close(f));
    case _ =>
      if !f.closed {
        SendsReset(f);
        SendsNothing(f, Close(f));
      }
  }

  /** The combined event puts at most one of its write, and then at most one of its read. */
  lemma SendsBoth(f: Flow, e: Event)
    requires e.Both? && Possible(f, e) && HasRoom(e) && f.tcb.state != Init
    ensures var m := if f.closed then f else AfterWrite(f, e.written, e.room);
            Sends(f, m) && Sends(m, Step(f, e))
  {
    hide AfterWrite, ProcessReceive, Sends, RemainingWindow;
    SilentSends(f);
    if !f.closed {
      var m := AfterWrite(f, e.written, e.room);
      SendsWrite(f, e.written);
      SilentSends(m);
      if GoesOn(f, e.written, e.room) {
        SendsRead(m, e.read, e.readRoom);
      }
    }
  }

  // ---------------------------------------------------------------------------------------
  // What one event puts on the wire
  // ---------------------------------------------------------------------------------------

  /** The flow in the middle of a combined event, and before any other. */
  function Between(f: Flow, e: Event): Flow
    requires Possible(f, e)
  {
    if e.Both? && !f.closed then AfterWrite(f, e.written, e.room) else f
  }

  lemma SendsEvent(f: Flow, e: Event)
    requires Possible(f, e) && HasRoom(e) && f.tcb.state != Init
    ensures Sends(f, Between(f, e)) && Sends(Between(f, e), Step(f, e))
  {
    hide Sends, Step, HandlePacket, AfterWrite, ProcessReceive, Next;
    SilentSends(f);
    if e.Both? {
      SendsBoth(f, e);
    } else {
      SendsStep(f, e);
    }
  }

  /** The packets beyond those of `f`. */
  predicate New(f: Flow, g: Flow, i: nat) { |f.h.wires| <= i < |g.h.wires| }

  /**
   * Whenever our FIN is numbered and the link has room, a packet with FIN and ACK bears that number
   * and acknowledges all that the flow has taken; and no packet but such a one bears a FIN.
   */
  lemma FinIsOnTheWire(f: Flow, e: Event)
    requires Possible(f, e) && HasRoom(e) && f.tcb.state != Init
    ensures var g := Step(f, e);
            && (g.tcb.fin != f.tcb.fin ==>
                  exists i: nat :: New(f, g, i) && g.h.wires[i].kind == Empty && g.h.wires[i].image.flags == FIN_ACK
                                && g.tcb.fin == Some(g.h.wires[i].image.seqNum)
                                && g.h.wires[i].image.ackNum == g.tcb.ackNum)
            && (forall i: nat | New(f, g, i) && g.h.wires[i].kind != Pulled && g.h.wires[i].image.flags.fin ::
                  g.h.wires[i].image.flags == FIN_ACK && g.h.fins > f.h.fins)
  {
    SendsEvent(f, e);
    ReadKeepsAck(f, e);
    hide Step, Between, Wrap, Possible;
    var m, g := Between(f, e), Step(f, e);
    if g.h.fins > m.h.fins {
      assert New(f, g, |g.h.wires| - 1);
    } else if m.h.fins > f.h.fins {
      assert New(f, g, |m.h.wires| - 1);
    }
  }

  lemma ReadKeepsAck(f: Flow, e: Event)
    requires Possible(f, e)
    ensures e.Both? ==> Step(f, e).tcb.ackNum == Between(f, e).tcb.ackNum
    ensures !e.Both? ==> Between(f, e) == f
  {
    hide HandlePacket, AfterWrite, Wrap, RemainingWindow;
  }

  /** Every packet that is built for an event acknowledges what the flow has taken by then. */
  lemma PacketsAcknowledge(f: Flow, e: Event, i: nat)
    requires Possible(f, e) && HasRoom(e) && f.tcb.state != Init
    requires New(f, Step(f, e), i) && Step(f, e).h.wires[i].kind != Pulled
    ensures Step(f, e).h.wires[i].image.ackNum == Step(f, e).tcb.ackNum
    ensures Step(f, e).h.wires[i].image.flags.ack || Step(f, e).h.wires[i].image.flags == RST
  {
    SendsEvent(f, e);
    ReadKeepsAck(f, e);
    hide Step, Between, Wrap, Possible;
  }

  /** Without room nothing goes out. */
  lemma NothingWithoutRoom(f: Flow, e: Event)
    requires Possible(f, e)
    requires match e
             case Packet(_, _, room) => !room
             case Writable(_, room) => !room
             case Readable(_, room) => !room
             case Both(_, room, _, readRoom) => !room && !readRoom
             case Hup(room) => !room
             case Expire(room) => !room
             case Shut => true
             case Pull(room) => !room
    ensures Step(f, e).h.wires == f.h.wires
  {
    hide Wrap, RemainingWindow, HandlePacket, AfterWrite, ProcessReceive;
    match e
    case Packet(seg, isn, _) => NoRoomPacket(f, seg, isn);
    case Writable(w, _) => NoRoomWrite(f, w);
    case Readable(r, _) => NoRoomRead(f, r);
    case Both(w, _, r, _) =>
      NoRoomWrite(f, w);
      NoRoomRead(AfterWrite(f, w, false), r);
    case _ =>
  }

  lemma NoRoomPacket(f: Flow, seg: Segment, isn: u32)
    ensures HandlePacket(f, seg, isn, false).h.wires == f.h.wires
  {
    hide Wrap, HandleExpected;
    NoRoomExpected(f.(tcb := f.tcb.(window := seg.window, theirAck := seg.ackNum)), seg);
  }

  lemma NoRoomExpected(f: Flow, seg: Segment)
    ensures HandleExpected(f, seg, false).h.wires == f.h.wires
  {
    hide Wrap, AnswerFin;
    var acked := if seg.flags.ack then HandleAck(f, seg.payload) else f;
    NoRoomFin(acked.(tcb := acked.tcb.(finReceived := true, ackNum := Wrap(acked.tcb.ackNum + 1)),
                     h := acked.h.(finsTaken := acked.h.finsTaken + 1)));
  }

  lemma NoRoomFin(f: Flow)
    ensures AnswerFin(f, false).h.wires == f.h.wires
  {
    hide Wrap;
  }

  lemma NoRoomWrite(f: Flow, w: WriteOutcome)
    requires w.Wrote? ==> w.n <= |f.ring|
    ensures AfterWrite(f, w, false).h.wires == f.h.wires
  {
    hide Wrap;
  }

  lemma NoRoomRead(f: Flow, r: ReadOutcome)
    ensures ProcessReceive(f, r, false).h.wires == f.h.wires
  {
  }

  /** What the host takes is acknowledged at once, by one packet with ACK alone, or with our FIN. */
  lemma WritesAreAcknowledged(f: Flow, n: nat)
    requires Possible(f, Writable(Wrote(n), true)) && !f.closed && f.tcb.state != SynSent && 0 < n
    ensures var g := Step(f, Writable(Wrote(n), true));
            var takesFin := f.tcb.finReceived && n == |f.ring|;
            var fin := Image(f.tcb.seqNum, Wrap(f.tcb.ackNum + n + 1), FIN_ACK, f.headerLength);
            var ack := Image(f.tcb.seqNum, Wrap(f.tcb.ackNum + n + if takesFin then 1 else 0), ACK, f.headerLength);
            && g.ring == f.ring[n..]
            && (takesFin && f.tcb.state == Established ==> g.h.wires == f.h.wires + [Wire(Empty, fin, [])])
            && (takesFin && (f.tcb.state == FinWait1 || f.tcb.state == FinWait2) ==>
                  g.h.wires == f.h.wires + [Wire(Empty, ack, [])])
            && (!takesFin ==> g.h.wires == f.h.wires + [Wire(Empty, ack, [])])
  {
    WrapAdd(f.tcb.ackNum + n, 1);
  }

  // ---------------------------------------------------------------------------------------
  // What a run puts on the wire
  // ---------------------------------------------------------------------------------------

  /** Packets built for a FIN. */
  function Fins(ws: seq<Wire>): nat {
    if ws == [] then 0
    else Fins(ws[..|ws| - 1]) + if ws[|ws| - 1].kind != Pulled && ws[|ws| - 1].image.flags.fin then 1 else 0
  }

  /** Packets built for a SYN. */
  function Syns(ws: seq<Wire>): nat {
    if ws == [] then 0
    else Syns(ws[..|ws| - 1]) + if ws[|ws| - 1].kind != Pulled && ws[|ws| - 1].image.flags.syn then 1 else 0
  }

  predicate Numbered(f: Flow) {
    && Consecutive(f.headerLength, f.h.isn, f.h.wires)
    && f.tcb.seqNum == Wrap(f.h.isn + SpaceOf(f.headerLength, f.h.wires))
    && Fins(f.h.wires) == f.h.fins && Syns(f.h.wires) == f.h.synAcks
  }

  predicate AllRoom(es: seq<Event>) { forall e | e in es :: HasRoom(e) }

  lemma NumberedSnoc(f: Flow, g: Flow)
    requires Numbered(f) && Sends(f, g)
    ensures Numbered(g)
  {
    hide Wrap;
    if !Silent(f, g) {
      var w := LastWire(g);
      assert (f.h.wires + [w])[..|f.h.wires|] == f.h.wires;
      WrapAdd(f.h.isn + SpaceOf(f.headerLength, f.h.wires), Space(f.headerLength, w));
    }
  }

  lemma NumberedFirst(f: Flow, e: Event)
    requires Tally(f) && f.tcb.state == Init && !f.closed && Possible(f, e) && HasRoom(e)
    ensures Numbered(Step(f, e))
  {
    assert f.h.wires == [] && f.h.fins == 0 && f.h.synAcks == 0;
    hide Tally, Sends, Numbered, Close, Reply;
    if e.seg.flags.syn {
      NumberedNothing(Step(f, e));
    } else {
      var g := f.(tcb := f.tcb.(seqNum := e.seg.ackNum), h := f.h.(isn := e.seg.ackNum));
      NumberedNothing(g);
      SendsReset(g);
      NumberedSnoc(g, Step(f, e));
    }
  }

  lemma NumberedNothing(f: Flow)
    requires f.h.wires == [] && f.h.fins == 0 && f.h.synAcks == 0 && f.tcb.seqNum == f.h.isn
    ensures Numbered(f)
  {
    WrapSmall(f.h.isn);
    assert SpaceOf(f.headerLength, []) == 0;
    hide Wrap;
  }

  lemma NumberedStep(f: Flow, e: Event)
    requires Tally(f) && Possible(f, e) && HasRoom(e)
    requires (f.tcb.state == Init && !f.closed) || Numbered(f)
    ensures Numbered(Step(f, e))
  {
    if f.tcb.state == Init && !f.closed {
      NumberedFirst(f, e);
    } else if f.tcb.state == Init {
      assert Step(f, e) == f;
    } else {
      hide Tally, Numbered, Sends, Step, Possible, Between;
      SendsEvent(f, e);
      NumberedSnoc(f, Between(f, e));
      NumberedSnoc(Between(f, e), Step(f, e));
    }
  }

  /**
   * In every run in which the link takes every packet that cannot wait, SYN and FIN are on the wire
   * as often as they were counted, every packet that is not late is numbered by the sequence space
   * of all before it, and the sequence number stands behind the last.
   */
  lemma {:induction false} WireAccounting(f: Flow, headerLength: nat, es: seq<Event>)
    requires Reached(f, headerLength, es) && AllRoom(es) && es != []
    ensures Consecutive(headerLength, f.h.isn, f.h.wires)
    ensures f.tcb.seqNum == Wrap(f.h.isn + SpaceOf(headerLength, f.h.wires))
    ensures Fins(f.h.wires) == f.h.fins && Syns(f.h.wires) == f.h.synAcks
  {
    hide Reached, Consecutive, SpaceOf, Fins, Syns, Wrap, AllRoom, Tally;
    ReachedIsTallied(f, headerLength, es);
    ReachedNumbered(f, headerLength, es);
  }

  lemma {:induction false} ReachedNumbered(f: Flow, headerLength: nat, es: seq<Event>)
    requires Reached(f, headerLength, es) && AllRoom(es) && es != []
    ensures Numbered(f)
  {
    NewFlowIsGood(headerLength);
    assert NewFlow(headerLength).tcb.state == Init && !NewFlow(headerLength).closed;
    hide Tally, NewFlow, Numbered, AllRoom, Runs, Run;
    NumberedRun(NewFlow(headerLength), es);
  }

  lemma {:induction false} NumberedRun(f: Flow, es: seq<Event>)
    requires Tally(f) && Runs(f, es) && AllRoom(es)
    requires Numbered(f) || (f.tcb.state == Init && !f.closed && es != [])
    ensures Numbered(Run(f, es))
    decreases es
  {
    hide Tally, Numbered, Step, Possible, HasRoom;
    if es != [] {
      assert es[0] in es;
      NumberedStep(f, es[0]);
      GoodStep(false, f, es[0]);
      assert forall e | e in es[1..] :: e in es;
      NumberedRun(Step(f, es[0]), es[1..]);
    }
  }
}
