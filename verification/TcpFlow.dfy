/**
 * What each handler of the relay's TCP endpoint does to a flow
 * (relay/src/relay/tcp_connection.rs), as functions on values.  A `History` travels with the
 * flow: what has reached the host and the client, and the counts the theorems talk about.
 */
module TcpFlows {
  import opened Words

  const MAX_PAYLOAD: nat := 0x4000 - 40
  const RING_CAPACITY: nat := 4 * 0x1_0000

  datatype State =
    | Init | SynSent | SynReceived | Established
    | CloseWait | LastAck | Closing | FinWait1 | FinWait2

  datatype Flags = Flags(fin: bool, syn: bool, rst: bool, psh: bool, ack: bool)

  const ACK := Flags(false, false, false, false, true)
  const RST := Flags(false, false, true, false, false)
  const SYN_ACK := Flags(false, true, false, false, true)
  const FIN_ACK := Flags(true, false, false, false, true)
  const PSH_ACK := Flags(false, false, false, true, true)

  /** The transmission control block. */
  datatype Tcb = Tcb(
    state: State,
    syn: u32,
    seqNum: u32,
    ackNum: u32,
    theirAck: u32,
    fin: Option<u32>,
    finReceived: bool,
    window: u16)

  /** A TCP packet of the client, as the handlers see it. */
  datatype Segment = Segment(seqNum: u32, ackNum: u32, flags: Flags, window: u16, payload: seq<byte>)

  /** The header fields standing in the packetizer's one buffer. */
  datatype Image = Image(seqNum: u32, ackNum: u32, flags: Flags, total: nat)

  datatype Kind = Empty | Direct | Pulled

  /** A packet put on the client link: its header fields, and the payload bytes really sent. */
  datatype Wire = Wire(kind: Kind, image: Image, payload: seq<byte>)

  datatype History = History(
    hostOut: seq<byte>,     // bytes written to the host socket
    hostIn: seq<byte>,      // bytes read from it
    wires: seq<Wire>,       // packets accepted by the client link
    isn: u32,
    synAcks: nat,
    direct: nat,            // payload bytes sent without deferral
    fins: nat,
    pulls: nat,             // deferred packets sent
    pulledPayload: nat,     // and their payload bytes
    pulledTotal: nat,       // and their whole lengths
    afterFin: nat,          // whole lengths of the packets pulled after our FIN
    finsTaken: nat,         // client FINs processed
    clobberedPulls: nat,    // deferred packets sent under another header
    clobbered: bool,        // an empty reply was built over the pending packet
    deregisters: nat)

  datatype Flow = Flow(
    headerLength: nat,      // IP and TCP headers of every reply
    tcb: Tcb,
    ring: seq<byte>,        // client_to_network
    pending: Option<nat>,   // packet_for_client_length
    image: Image,
    held: seq<byte>,        // payload region of the packetizer's buffer
    closed: bool,
    h: History)

  function NewHistory(): History {
    History([], [], [], 0, 0, 0, 0, 0, 0, 0, 0, 0, 0, false, 0)
  }

  function NewFlow(headerLength: nat): Flow {
    Flow(headerLength, Tcb(Init, 0, 0, 0, 0, None, false, 0), [], None,
         Image(0, 0, RST, 0), [], false, NewHistory())
  }

  predicate IsConnected(s: State) { s != Init && s != SynSent && s != SynReceived }

  predicate IsClosed(s: State) { s == FinWait1 || s == FinWait2 || s == Closing || s == LastAck }

  function RemainingWindow(t: Tcb): u16 {
    var remaining := Wrap(t.theirAck + t.window - t.seqNum);
    if remaining <= t.window then remaining else 0
  }

  predicate MayRead(f: Flow) {
    && IsConnected(f.tcb.state) && !IsClosed(f.tcb.state)
    && f.pending.None?
    && RemainingWindow(f.tcb) > 0
  }

  function Expected(f: Flow): u32 { Wrap(f.tcb.ackNum + |f.ring|) }

  /** `reply_empty_packet_to_client`: builds over the buffer, and the link may refuse the packet. */
  function Reply(f: Flow, flags: Flags, room: bool): Flow {
    var image := Image(f.tcb.seqNum, f.tcb.ackNum, flags, f.headerLength);
    f.(image := image,
       h := f.h.(clobbered := f.h.clobbered || f.pending.Some?,
                 wires := if room then f.h.wires + [Wire(Empty, image, [])] else f.h.wires))
  }

  function Close(f: Flow): Flow {
    f.(closed := true, h := f.h.(deregisters := f.h.deregisters + 1))
  }

  /** Counts our FIN for one byte and remembers its number. */
  function CountFin(f: Flow, state: State): Flow {
    f.(tcb := f.tcb.(fin := Some(f.tcb.seqNum), seqNum := Wrap(f.tcb.seqNum + 1), state := state),
       h := f.h.(fins := f.h.fins + 1))
  }

  function HandleFirstPacket(f: Flow, seg: Segment, isn: u32, room: bool): Flow {
    if seg.flags.syn then
      f.(tcb := f.tcb.(ackNum := Wrap(seg.seqNum + 1), syn := seg.seqNum, seqNum := isn,
                       window := seg.window, state := SynSent),
         h := f.h.(isn := isn))
    else
      Close(Reply(f.(tcb := f.tcb.(seqNum := seg.ackNum), h := f.h.(isn := seg.ackNum)), RST, room))
  }

  function HandleDuplicateSyn(f: Flow, seg: Segment, room: bool): Flow {
    if f.tcb.state == SynSent then
      f.(tcb := f.tcb.(syn := seg.seqNum, ackNum := Wrap(seg.seqNum + 1)))
    else if seg.seqNum != f.tcb.syn then
      Close(Reply(f, RST, room))
    else
      f
  }

  function HandleAck(f: Flow, payload: seq<byte>): Flow {
    if f.tcb.state == SynReceived then
      f.(tcb := f.tcb.(state := Established))
    else if |payload| == 0 || RING_CAPACITY - |f.ring| < |payload| then
      f
    else
      f.(ring := f.ring + payload)
  }

  function DoHandleFin(f: Flow, room: bool): Flow {
    AnswerFin(f.(tcb := f.tcb.(ackNum := Wrap(f.tcb.ackNum + 1)),
                 h := f.h.(finsTaken := f.h.finsTaken + 1)),
              room)
  }

  /** The rest of `do_handle_fin`, once the client's FIN is counted. */
  function AnswerFin(f: Flow, room: bool): Flow {
    match f.tcb.state
    case Established => CountFin(Reply(f, FIN_ACK, room), LastAck)
    case FinWait1 => var r := Reply(f, ACK, room); r.(tcb := r.tcb.(state := Closing))
    case FinWait2 => Close(Reply(f, ACK, room))
    case _ => f
  }

  function HandleFin(f: Flow, room: bool): Flow {
    var g := f.(tcb := f.tcb.(finReceived := true));
    if g.ring == [] then DoHandleFin(g, room) else g
  }

  function HandleFinAck(f: Flow): Flow {
    if f.tcb.state == LastAck || f.tcb.state == Closing then Close(f)
    else if f.tcb.state == FinWait1 then f.(tcb := f.tcb.(state := FinWait2))
    else f
  }

  function HandlePacket(f: Flow, seg: Segment, isn: u32, room: bool): Flow {
    if f.tcb.state == Init then HandleFirstPacket(f, seg, isn, room)
    else if seg.flags.syn then HandleDuplicateSyn(f, seg, room)
    else if seg.seqNum != Expected(f) then f
    else HandleExpected(f.(tcb := f.tcb.(window := seg.window, theirAck := seg.ackNum)), seg, room)
  }

  /** The rest of `handle_packet`, once the segment is known to be the expected one. */
  function HandleExpected(f: Flow, seg: Segment, room: bool): Flow {
    if seg.flags.rst then Close(f)
    else
      var acked := if seg.flags.ack then HandleAck(f, seg.payload) else f;
      var finned := if seg.flags.fin then HandleFin(acked, room) else acked;
      if finned.tcb.fin.Some? && seg.ackNum == Wrap(finned.tcb.fin.value + 1)
      then HandleFinAck(finned) else finned
  }

  datatype WriteOutcome = Wrote(n: nat) | WriteBlocked | WriteFailed
  datatype ReadOutcome = Data(bytes: seq<byte>) | Eof | ReadBlocked | ReadFailed

  function ProcessConnect(f: Flow, failed: bool, room: bool): Flow {
    if failed then
      Close(Reply(f, RST, room))
    else
      var g := Reply(f.(tcb := f.tcb.(state := SynReceived)), SYN_ACK, room);
      g.(tcb := g.tcb.(seqNum := Wrap(g.tcb.seqNum + 1)), h := g.h.(synAcks := g.h.synAcks + 1))
  }

  function ProcessSend(f: Flow, outcome: WriteOutcome, room: bool): Flow
    requires outcome.Wrote? ==> outcome.n <= |f.ring|
  {
    match outcome
    case WriteBlocked => f
    case WriteFailed => Close(Reply(f, RST, room))
    case Wrote(n) =>
      if n == 0 then Close(f)
      else
        var g := f.(tcb := f.tcb.(ackNum := Wrap(f.tcb.ackNum + n)), ring := f.ring[n..],
                    h := f.h.(hostOut := f.h.hostOut + f.ring[..n]));
        if g.tcb.finReceived && g.ring == [] then DoHandleFin(g, room) else Reply(g, ACK, room)
  }

  function EndOfFile(f: Flow, room: bool): Flow {
    CountFin(Reply(f, FIN_ACK, room), if f.tcb.state == CloseWait then LastAck else FinWait1)
  }

  function ProcessReceive(f: Flow, outcome: ReadOutcome, room: bool): Flow {
    Receive(f.(image := f.image.(seqNum := f.tcb.seqNum, ackNum := f.tcb.ackNum, flags := PSH_ACK)), outcome, room)
  }

  /** The read itself, once the headers of the packet to build are in place. */
  function Receive(f: Flow, outcome: ReadOutcome, room: bool): Flow {
    match outcome
    case ReadBlocked => f
    case ReadFailed => Close(Reply(f, RST, room))
    case Eof => EndOfFile(f, room)
    case Data(bytes) =>
      SendOrDefer(f.(image := f.image.(total := f.headerLength + |bytes|), held := bytes,
                     h := f.h.(hostIn := f.h.hostIn + bytes)),
                  bytes, room)
  }

  /** The built packet goes to the client, or waits for the client to pull it. */
  function SendOrDefer(f: Flow, bytes: seq<byte>, room: bool): Flow {
    if room then
      f.(tcb := f.tcb.(seqNum := Wrap(f.tcb.seqNum + |bytes|)),
         h := f.h.(direct := f.h.direct + |bytes|, wires := f.h.wires + [Wire(Direct, f.image, bytes)]))
    else
      f.(pending := Some(f.headerLength + |bytes|), h := f.h.(clobbered := false))
  }

  /** `PacketSource::get`: the first `pending` bytes of the packetizer's buffer, as they stand. */
  function PendingWire(f: Flow): Wire
    requires f.pending.Some? && f.headerLength <= f.pending.value <= f.headerLength + |f.held|
  {
    Wire(Pulled, f.image, f.held[..f.pending.value - f.headerLength])
  }

  /** `PacketSource::next`, after the link took the pending packet. */
  function Next(f: Flow): Flow
    requires f.pending.Some? && f.headerLength <= f.pending.value <= f.headerLength + |f.held|
  {
    var total := f.pending.value;
    f.(tcb := f.tcb.(seqNum := Wrap(f.tcb.seqNum + total)), pending := None,
       h := f.h.(wires := f.h.wires + [PendingWire(f)],
                 pulls := f.h.pulls + 1,
                 clobberedPulls := f.h.clobberedPulls + if f.h.clobbered then 1 else 0,
                 pulledPayload := f.h.pulledPayload + total - f.headerLength,
                 pulledTotal := f.h.pulledTotal + total,
                 afterFin := if f.tcb.fin.Some? then f.h.afterFin + total else f.h.afterFin))
  }

  function Refuse(f: Flow, room: bool): Flow {
    Close(if !f.closed && (f.tcb.state == SynSent || f.tcb.state == SynReceived) then Reply(f, RST, room) else f)
  }

  /**
   * What can happen to a flow.  `room` says whether the client link takes the packet, and
   * `readRoom` whether it takes the packet of the read in an event that is both writable and
   * readable; `isn` is the random initial number drawn if this is the first SYN.
   */
  datatype Event =
    | Packet(seg: Segment, isn: u32, room: bool)
    | Writable(written: WriteOutcome, room: bool)
    | Readable(read: ReadOutcome, room: bool)
    | Both(written: WriteOutcome, room: bool, read: ReadOutcome, readRoom: bool)
    | Hup(room: bool)
    | Expire(room: bool)
    | Shut
    | Pull(room: bool)

  /** The packet standing in the buffer covers the pending length. */
  predicate PendingFits(f: Flow) {
    f.pending.Some? ==> f.headerLength <= f.pending.value <= f.headerLength + |f.held|
  }

  /** The write part of an event. */
  function AfterWrite(f: Flow, w: WriteOutcome, room: bool): Flow
    requires w.Wrote? ==> w.n <= |f.ring|
  {
    if f.tcb.state == SynSent then ProcessConnect(f, w.WriteFailed?, room) else ProcessSend(f, w, room)
  }

  /** The two assertions of `process_receive`. */
  predicate ReadAsserts(f: Flow) { f.pending.None? && RemainingWindow(f.tcb) > 0 }

  /** A blocked write ends the event, and so does a write that closes the flow. */
  predicate GoesOn(f: Flow, w: WriteOutcome, room: bool)
    requires w.Wrote? ==> w.n <= |f.ring|
  {
    !w.WriteBlocked? && !AfterWrite(f, w, room).closed
  }

  /** After the write of an event that is also readable, the read's assertions fail. */
  predicate ReadPanics(f: Flow, w: WriteOutcome, room: bool)
    requires w.Wrote? ==> w.n <= |f.ring|
  {
    GoesOn(f, w, room) && !ReadAsserts(AfterWrite(f, w, room))
  }

  /** A read brings bytes, and no more than it was given room for. */
  predicate ReadFits(f: Flow, r: ReadOutcome) {
    r.Data? ==> 0 < |r.bytes| <= Min(RemainingWindow(f.tcb), MAX_PAYLOAD)
  }

  /** What is read of an offer: no more than the window and the buffer take. */
  function ReadOf(t: Tcb, r: ReadOutcome): ReadOutcome {
    if r.Data? then Data(r.bytes[..Min(|r.bytes|, Min(RemainingWindow(t), MAX_PAYLOAD))]) else r
  }

  /**
   * What the callers let happen.  The router creates a flow for a packet that it hands over at
   * once, and only addresses open flows; readiness to read is asked for under `may_read`, reads
   * respect the maximum they were given, and a pull that is taken by the link finds an open
   * flow, as `update_interests` asserts.
   */
  predicate Possible(f: Flow, e: Event) {
    (f.tcb.state == Init && !f.closed ==> e.Packet?) &&
    match e
    case Packet(_, _, _) => !f.closed
    case Expire(_) => !f.closed
    case Shut => !f.closed
    case Hup(_) => true
    case Writable(w, _) => w.Wrote? ==> w.n <= |f.ring|
    case Readable(r, _) => f.closed || (MayRead(f) && ReadFits(f, r))
    case Both(w, room, r, _) =>
      && (w.Wrote? ==> w.n <= |f.ring|)
      && (f.closed || (MayRead(f) && !ReadPanics(f, w, room)
                       && (GoesOn(f, w, room) ==> ReadFits(AfterWrite(f, w, room), r))))
    case Pull(room) => f.pending.Some? && PendingFits(f) && (room ==> !f.closed)
  }

  /** The write that takes the last byte before a received FIN, and so sends ours. */
  predicate WritesLast(f: Flow, w: WriteOutcome) {
    !f.closed && f.tcb.state == Established && f.tcb.finReceived && w.Wrote? && 0 < w.n == |f.ring|
  }

  /** In one event, no packet of the read follows a FIN of the write. */
  predicate Orderly(f: Flow, e: Event) {
    e.Both? && WritesLast(f, e.written) ==> !(e.read.Eof? || (e.read.Data? && e.readRoom))
  }

  function Step(f: Flow, e: Event): Flow
    requires Possible(f, e)
  {
    match e
    case Packet(seg, isn, room) => HandlePacket(f, seg, isn, room)
    case Expire(room) => Refuse(f, room)
    case Shut => Close(f)
    case Hup(room) => if f.closed then f else Refuse(f, room)
    case Writable(w, room) => if f.closed then f else AfterWrite(f, w, room)
    case Readable(r, room) => if f.closed then f else ProcessReceive(f, r, room)
    case Both(w, room, r, readRoom) =>
      if f.closed then f
      else if GoesOn(f, w, room) then ProcessReceive(AfterWrite(f, w, room), r, readRoom)
      else AfterWrite(f, w, room)
    case Pull(room) => if room then Next(f) else f
  }

  predicate Runs(f: Flow, es: seq<Event>)
    decreases es
  {
    es == [] || (Possible(f, es[0]) && Runs(Step(f, es[0]), es[1..]))
  }

  function Run(f: Flow, es: seq<Event>): Flow
    requires Runs(f, es)
    decreases es
  {
    if es == [] then f else Run(Step(f, es[0]), es[1..])
  }

  /** No event of the run puts a packet of its read behind a FIN of its write. */
  predicate OrderlyRun(f: Flow, es: seq<Event>)
    requires Runs(f, es)
    decreases es
  {
    es == [] || (Orderly(f, es[0]) && OrderlyRun(Step(f, es[0]), es[1..]))
  }

  /** `f` is what a new flow has become after the events `es`. */
  predicate Reached(f: Flow, headerLength: nat, es: seq<Event>) {
    Runs(NewFlow(headerLength), es) && f == Run(NewFlow(headerLength), es)
  }
}
