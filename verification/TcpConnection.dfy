/**
 * The relay's end of one TCP flow (relay/src/relay/tcp_connection.rs), with its fields updated
 * in place.  Every handler is proved against the function of the same name in `TcpFlows`.
 */
module TcpConnections {
  import opened Words
  import opened StreamBuffers
  import opened Packetizers
  import opened Headers
  import opened WireBytes
  import F = TcpFlows

  class TcpConnection {
    const headerLength: nat
    const clientToNetwork: StreamBuffer
    const networkToClient: Packetizer
    var tcb: F.Tcb
    var packetForClientLength: Option<nat>
    var closed: bool
    ghost var image: F.Image              // header fields of the packet last built
    ghost var held: seq<byte>             // payload last read into the packetizer's buffer
    ghost var h: F.History
    ghost var sent: seq<seq<byte>>        // bytes of the packets that the client link took

    ghost predicate Valid()
      reads this, clientToNetwork, clientToNetwork.buf, networkToClient, networkToClient.buffer
    {
      && clientToNetwork.Valid()
      && clientToNetwork.buf.Length == F.RING_CAPACITY + 1
      && clientToNetwork.buf != networkToClient.buffer
      && Building()
      && (packetForClientLength.Some? ==> Standing())
      && AllRealised(headerLength, sent, h.wires)
    }

    /** The packetizer builds TCP packets behind headers of this length. */
    ghost predicate Building()
      reads networkToClient, networkToClient.buffer
    {
      && networkToClient.Valid() && networkToClient.transport.TcpData? && networkToClient.ipv4.version == 4
      && networkToClient.payloadIndex == headerLength
    }

    /** The pending packet stands in the packetizer's buffer, under the header last built. */
    ghost predicate Standing()
      reads `image, `held, `packetForClientLength, networkToClient, networkToClient.buffer
      requires Building()
    {
      && packetForClientLength == Some(headerLength + |held|)
      && headerLength + |held| < 0x1_0000
      && networkToClient.buffer[headerLength..headerLength + |held|] == held
      && Numbers(networkToClient.transport, image)
      && networkToClient.ipv4.totalLength == image.total
    }

    ghost function View(): (f: F.Flow)
      reads this, clientToNetwork, clientToNetwork.buf
      requires clientToNetwork.Valid()
    {
      F.Flow(headerLength, tcb, clientToNetwork.Contents(), packetForClientLength, image, held, closed, h)
    }

    /** Takes the headers of the first packet, and shrinks the TCP header to 20 bytes. */
    constructor (ipHeader: seq<byte>, tcpHeader: seq<byte>)
      requires |ipHeader| >= 20 && ParseIpv4(ipHeader).headerLength == |ipHeader|
      requires ParseIpv4(ipHeader).version == 4 && ParseIpv4(ipHeader).protocol == Tcp
      requires |tcpHeader| >= 20
      ensures Valid() && fresh(clientToNetwork) && fresh(clientToNetwork.buf)
      ensures fresh(networkToClient) && fresh(networkToClient.buffer)
      ensures View() == F.NewFlow(|ipHeader| + 20) && sent == []
    {
      var shrunk := ShrinkOptions(tcpHeader);
      headerLength := |ipHeader| + 20;
      clientToNetwork := new StreamBuffer(F.RING_CAPACITY);
      networkToClient := new Packetizer(ipHeader, shrunk);
      tcb := F.Tcb(F.Init, 0, 0, 0, 0, None, false, 0);
      image := F.Image(0, 0, F.RST, 0);
      held := [];
      packetForClientLength := None;
      closed := false;
      h := F.NewHistory();
      sent := [];
    }

    method RemainingClientWindow() returns (r: u16)
      ensures r == F.RemainingWindow(tcb)
    {
      var remaining := Wrap(tcb.theirAck + tcb.window - tcb.seqNum);
      if remaining <= tcb.window { r := remaining; } else { r := 0; }
    }

    method MayRead() returns (b: bool)
      requires Valid()
      ensures b <==> F.MayRead(View())
    {
      if !F.IsConnected(tcb.state) || F.IsClosed(tcb.state) {
        return false;
      }
      if packetForClientLength.Some? {
        return false;
      }
      var w := RemainingClientWindow();
      b := w > 0;
    }

    /** Numbers and flags of the next packet, whether or not one is pending. */
    method UpdateHeaders(flags: F.Flags)
      requires Valid()
      modifies `image, networkToClient`transport, networkToClient.buffer
      ensures Valid() && Numbers(networkToClient.transport, image)
      ensures View() == old(View()).(image := F.Image(tcb.seqNum, tcb.ackNum, flags, old(image).total))
    {
      hide ParseIpv4, ParseTcp, ParseUdp, AllRealised;
      ghost var b := networkToClient.buffer[..];
      networkToClient.SetSequenceNumber(tcb.seqNum);
      networkToClient.SetAcknowledgementNumber(tcb.ackNum);
      networkToClient.SetFlags(Bits(flags));
      image := F.Image(tcb.seqNum, tcb.ackNum, flags, image.total);
      assert forall k | headerLength <= k < |b| :: networkToClient.buffer[k] == b[k];
    }

    /** An empty packet, built over the buffer even while a packet is pending there. */
    method ReplyEmptyPacket(flags: F.Flags, room: bool)
      requires Valid()
      modifies `image, `h, `sent, networkToClient, networkToClient.buffer
      ensures Valid() && old(sent) <= sent && View() == F.Reply(old(View()), flags, room)
    {
      hide Building, Standing, AllRealised, Realises, Numbers;
      UpdateHeaders(flags);
      var raw := BuildEmpty();
      ghost var w := F.Wire(F.Empty, image, []);
      RealisedSnoc(headerLength, sent, h.wires, raw, w);
      h := h.(clobbered := h.clobbered || packetForClientLength.Some?,
              wires := if room then h.wires + [w] else h.wires);
      sent := if room then sent + [raw] else sent;
    }

    /** `packetize_empty_payload`. */
    method BuildEmpty() returns (raw: seq<byte>)
      requires Valid() && Numbers(networkToClient.transport, image)
      modifies `image, networkToClient`ipv4, networkToClient.buffer
      ensures Valid() && image == old(image).(total := headerLength)
      ensures Realises(raw, headerLength, F.Wire(F.Empty, image, []))
    {
      hide ParseIpv4, ParseTcp, ParseUdp, IsReply, AllRealised, Realises;
      image := image.(total := headerLength);
      ghost var ipv4, b := networkToClient.ipv4, networkToClient.buffer[..];
      assert networkToClient.buffer[headerLength..headerLength + 0] == [];
      var packet := networkToClient.Build(0);
      raw := packet.value;
      assert networkToClient.buffer[headerLength..] == b[headerLength..];
      BuiltRealises(raw, ipv4, networkToClient.transport, F.Wire(F.Empty, image, []));
    }

    lemma BuiltRealises(raw: seq<byte>, ipv4: Ipv4HeaderData, t: TransportData, w: F.Wire)
      requires IsReply(raw, ipv4, t, w.payload) && ipv4.version == 4 && Numbers(t, w.image)
      requires ipv4.headerLength + TransportHeaderLength(t) == headerLength
      requires w.image.total == headerLength + |w.payload|
      ensures |raw| == headerLength + |w.payload| && Realises(raw, headerLength, w)
    {
      ReplyRealises(raw, ipv4, t, w);
    }

    method Close()
      requires Valid()
      modifies `closed, `h
      ensures Valid() && View() == F.Close(old(View()))
    {
      hide Building, Standing, AllRealised;
      closed := true;
      h := h.(deregisters := h.deregisters + 1);
    }

    method HandleFirstPacket(seg: F.Segment, random: u32, room: bool)
      requires Valid()
      modifies this, networkToClient, networkToClient.buffer
      ensures Valid() && old(sent) <= sent && View() == F.HandleFirstPacket(old(View()), seg, random, room)
    {
      hide Building, Standing, AllRealised;
      if seg.flags.syn {
        tcb := tcb.(ackNum := Wrap(seg.seqNum + 1), syn := seg.seqNum);
        tcb := tcb.(seqNum := random);
        h := h.(isn := random);
        tcb := tcb.(window := seg.window, state := F.SynSent);
      } else {
        tcb := tcb.(seqNum := seg.ackNum);
        h := h.(isn := seg.ackNum);
        Reset(room);
      }
    }

    method HandleDuplicateSyn(seg: F.Segment, room: bool)
      requires Valid()
      modifies this, networkToClient, networkToClient.buffer
      ensures Valid() && old(sent) <= sent && View() == F.HandleDuplicateSyn(old(View()), seg, room)
    {
      hide Building, Standing, AllRealised;
      if tcb.state == F.SynSent {
        tcb := tcb.(syn := seg.seqNum);
        tcb := tcb.(ackNum := Wrap(seg.seqNum + 1));
      } else if seg.seqNum != tcb.syn {
        Reset(room);
      }
    }

    method HandleAck(payload: seq<byte>)
      requires Valid()
      modifies `tcb, clientToNetwork`head, clientToNetwork.buf
      ensures Valid() && View() == F.HandleAck(old(View()), payload)
    {
      hide Building, Standing, AllRealised;
      if tcb.state == F.SynReceived {
        tcb := tcb.(state := F.Established);
        return;
      }
      if |payload| == 0 {
        return;
      }
      var remaining := clientToNetwork.Remaining();
      if remaining < |payload| {
        return;
      }
      clientToNetwork.ReadFrom(payload);
    }

    /** Remembers and counts the FIN just sent. */
    method CountFin(state: F.State)
      requires Valid()
      modifies `tcb, `h
      ensures Valid() && View() == F.CountFin(old(View()), state)
    {
      hide Building, Standing, AllRealised;
      tcb := tcb.(fin := Some(tcb.seqNum));
      tcb := tcb.(seqNum := Wrap(tcb.seqNum + 1));
      tcb := tcb.(state := state);
      h := h.(fins := h.fins + 1);
    }

    method SendFin(state: F.State, room: bool)
      requires Valid()
      modifies `tcb, `image, `h, `sent, networkToClient, networkToClient.buffer
      ensures Valid() && old(sent) <= sent
      ensures View() == F.CountFin(F.Reply(old(View()), F.FIN_ACK, room), state)
    {
      hide F.Reply, F.CountFin, Building, Standing, AllRealised;
      ReplyEmptyPacket(F.FIN_ACK, room);
      CountFin(state);
    }

    method DoHandleFin(room: bool)
      requires Valid()
      modifies `tcb, `closed, `image, `h, `sent, networkToClient, networkToClient.buffer
      ensures Valid() && old(sent) <= sent && View() == F.DoHandleFin(old(View()), room)
    {
      hide F.AnswerFin, Building, Standing, AllRealised;
      tcb := tcb.(ackNum := Wrap(tcb.ackNum + 1));
      h := h.(finsTaken := h.finsTaken + 1);
      AnswerFin(room);
    }

    /** The rest of `do_handle_fin`, once the client's FIN is counted. */
    method AnswerFin(room: bool)
      requires Valid()
      modifies `tcb, `closed, `image, `h, `sent, networkToClient, networkToClient.buffer
      ensures Valid() && old(sent) <= sent && View() == F.AnswerFin(old(View()), room)
    {
      hide F.Reply, F.CountFin, F.Close, Building, Standing, AllRealised;
      if tcb.state == F.Established {
        SendFin(F.LastAck, room);
      } else if tcb.state == F.FinWait1 {
        ReplyEmptyPacket(F.ACK, room);
        tcb := tcb.(state := F.Closing);
      } else if tcb.state == F.FinWait2 {
        ReplyEmptyPacket(F.ACK, room);
        Close();
      }
    }

    method HandleFin(room: bool)
      requires Valid()
      modifies this, networkToClient, networkToClient.buffer
      ensures Valid() && old(sent) <= sent && View() == F.HandleFin(old(View()), room)
    {
      hide Building, Standing, AllRealised;
      tcb := tcb.(finReceived := true);
      var empty := clientToNetwork.IsEmpty();
      if empty {
        DoHandleFin(room);
      }
    }

    method HandleFinAck()
      requires Valid()
      modifies `tcb, `closed, `h
      ensures Valid() && View() == F.HandleFinAck(old(View()))
    {
      hide Building, Standing, AllRealised;
      if tcb.state == F.LastAck || tcb.state == F.Closing {
        Close();
      } else if tcb.state == F.FinWait1 {
        tcb := tcb.(state := F.FinWait2);
      }
    }

    method HandlePacket(seg: F.Segment, random: u32, room: bool)
      requires Valid()
      modifies this, networkToClient, networkToClient.buffer, clientToNetwork`head, clientToNetwork.buf
      ensures Valid() && old(sent) <= sent && View() == F.HandlePacket(old(View()), seg, random, room)
    {
      hide F.HandleFirstPacket, F.HandleDuplicateSyn, F.HandleExpected, Building, Standing, AllRealised;
      if tcb.state == F.Init {
        HandleFirstPacket(seg, random, room);
        return;
      }
      if seg.flags.syn {
        HandleDuplicateSyn(seg, room);
        return;
      }
      var size := clientToNetwork.Size();
      if seg.seqNum != Wrap(tcb.ackNum + size) {
        return;
      }
      tcb := tcb.(window := seg.window, theirAck := seg.ackNum);
      HandleExpected(seg, room);
    }

    /** The rest of `handle_packet`, once the segment is known to be the expected one. */
    method HandleExpected(seg: F.Segment, room: bool)
      requires Valid()
      modifies this, networkToClient, networkToClient.buffer, clientToNetwork`head, clientToNetwork.buf
      ensures Valid() && old(sent) <= sent && View() == F.HandleExpected(old(View()), seg, room)
    {
      hide F.HandleAck, F.HandleFin, F.HandleFinAck, F.Close, Building, Standing, AllRealised;
      if seg.flags.rst {
        Close();
        return;
      }
      if seg.flags.ack {
        HandleAck(seg.payload);
      }
      if seg.flags.fin {
        HandleFin(room);
      }
      if tcb.fin.Some? && seg.ackNum == Wrap(tcb.fin.value + 1) {
        HandleFinAck();
      }
    }

    method ProcessConnect(failed: bool, room: bool)
      requires Valid()
      modifies this, networkToClient, networkToClient.buffer
      ensures Valid() && old(sent) <= sent && View() == F.ProcessConnect(old(View()), failed, room)
    {
      hide Building, Standing, AllRealised;
      if failed {
        Reset(room);
        return;
      }
      tcb := tcb.(state := F.SynReceived);
      ReplyEmptyPacket(F.SYN_ACK, room);
      tcb := tcb.(seqNum := Wrap(tcb.seqNum + 1));
      h := h.(synAcks := h.synAcks + 1);
    }

    /** The host has taken these bytes: they are acknowledged, and then a FIN that waited for them. */
    method Acknowledge(bytes: seq<byte>, room: bool)
      requires Valid()
      modifies `tcb, `closed, `image, `h, `sent, networkToClient, networkToClient.buffer
      ensures Valid() && old(sent) <= sent
      ensures var f := old(View()).(tcb := old(tcb).(ackNum := Wrap(old(tcb).ackNum + |bytes|)),
                                    h := old(h).(hostOut := old(h).hostOut + bytes));
              View() == if f.tcb.finReceived && f.ring == [] then F.DoHandleFin(f, room) else F.Reply(f, F.ACK, room)
    {
      hide F.Reply, F.DoHandleFin, Building, Standing, AllRealised;
      tcb := tcb.(ackNum := Wrap(tcb.ackNum + |bytes|));
      h := h.(hostOut := h.hostOut + bytes);
      var empty := clientToNetwork.IsEmpty();
      if tcb.finReceived && empty {
        DoHandleFin(room);
      } else {
        ReplyEmptyPacket(F.ACK, room);
      }
    }

    /** The host takes up to `budget` bytes, or blocks, or fails. */
    method ProcessSend(budget: nat, fails: bool, blocks: bool, room: bool) returns (outcome: F.WriteOutcome)
      requires Valid()
      modifies this, networkToClient, networkToClient.buffer, clientToNetwork`head, clientToNetwork`tail
      ensures Valid() && old(sent) <= sent
      ensures outcome == if (fails || blocks) && old(View()).ring != []
                         then (if blocks then F.WriteBlocked else F.WriteFailed)
                         else F.Wrote(Min(budget, old(clientToNetwork.Contiguous())))
      ensures outcome.Wrote? ==> outcome.n <= |old(View()).ring|
      ensures View() == F.ProcessSend(old(View()), outcome, room)
    {
      hide F.Reply, F.Close, F.DoHandleFin, Building, Standing, AllRealised;
      ghost var before := clientToNetwork.Contents();
      var written := clientToNetwork.WriteTo(budget, fails || blocks);
      match written
      case Some(bytes) =>
        outcome := F.Wrote(|bytes|);
        assert before[..|bytes|] == bytes && before[|bytes|..] == clientToNetwork.Contents();
        if |bytes| != 0 {
          Acknowledge(bytes, room);
        } else {
          Close();
        }
      case None =>
        if blocks {
          return F.WriteBlocked;
        }
        outcome := F.WriteFailed;
        Reset(room);
    }

    method Eof(room: bool)
      requires Valid()
      modifies this, networkToClient, networkToClient.buffer
      ensures Valid() && old(sent) <= sent && View() == F.EndOfFile(old(View()), room)
    {
      hide Building, Standing, AllRealised;
      var state := if tcb.state == F.CloseWait then F.LastAck else F.FinWait1;
      SendFin(state, room);
    }

    method Reset(room: bool)
      requires Valid()
      modifies this, networkToClient, networkToClient.buffer
      ensures Valid() && old(sent) <= sent && View() == F.Close(F.Reply(old(View()), F.RST, room))
    {
      hide Building, Standing, AllRealised;
      ReplyEmptyPacket(F.RST, room);
      Close();
    }

    /** Builds the packet of `bytes` in the packetizer's buffer. */
    method Packetize(bytes: seq<byte>) returns (raw: seq<byte>)
      requires Valid() && Numbers(networkToClient.transport, image) && packetForClientLength.None?
      requires |bytes| <= F.MAX_PAYLOAD
      modifies `held, `image, `h, networkToClient`ipv4, networkToClient.buffer
      ensures Valid() && headerLength + |bytes| < 0x1_0000
      ensures raw == networkToClient.buffer[..headerLength + |bytes|]
      ensures Realises(raw, headerLength, F.Wire(F.Direct, image, bytes))
      ensures Numbers(networkToClient.transport, image) && networkToClient.ipv4.totalLength == image.total
      ensures View() == old(View()).(held := bytes, image := old(image).(total := headerLength + |bytes|),
                                     h := old(h).(hostIn := old(h).hostIn + bytes))
    {
      hide ParseIpv4, ParseTcp, ParseUdp, IsReply, AllRealised, Realises;
      h := h.(hostIn := h.hostIn + bytes);
      held := bytes;
      image := image.(total := headerLength + |bytes|);
      ghost var ipv4 := networkToClient.ipv4;
      var packet := networkToClient.Packetize(bytes);
      raw := packet.value;
      BuiltRealises(raw, ipv4, networkToClient.transport, F.Wire(F.Direct, image, bytes));
    }

    /** The built packet goes to the client, or waits for the client to pull it. */
    method SendOrDefer(raw: seq<byte>, bytes: seq<byte>, room: bool)
      requires Valid() && held == bytes && Realises(raw, headerLength, F.Wire(F.Direct, image, bytes))
      requires headerLength + |bytes| < 0x1_0000 && raw == networkToClient.buffer[..headerLength + |bytes|]
      requires Numbers(networkToClient.transport, image) && networkToClient.ipv4.totalLength == image.total
      modifies `tcb, `packetForClientLength, `h, `sent
      ensures Valid() && old(sent) <= sent && View() == F.SendOrDefer(old(View()), bytes, room)
    {
      hide ParseIpv4, ParseTcp, ParseUdp, AllRealised, Numbers;
      if room {
        ghost var w := F.Wire(F.Direct, image, bytes);
        RealisedSnoc(headerLength, sent, h.wires, raw, w);
        h := h.(wires := h.wires + [w], direct := h.direct + |bytes|);
        sent := sent + [raw];
        tcb := tcb.(seqNum := Wrap(tcb.seqNum + |bytes|));
      } else {
        assert raw[headerLength..] == networkToClient.buffer[headerLength..headerLength + |bytes|];
        packetForClientLength := Some(headerLength + |bytes|);
        h := h.(clobbered := false);
      }
    }

    method ProcessReceive(outcome: F.ReadOutcome, room: bool)
      requires Valid() && F.ReadAsserts(View()) && F.ReadFits(View(), outcome)
      modifies this, networkToClient, networkToClient.buffer
      ensures Valid() && old(sent) <= sent && View() == F.ProcessReceive(old(View()), outcome, room)
    {
      hide F.Receive, AllRealised, Numbers;
      UpdateHeaders(F.PSH_ACK);
      Receive(outcome, room);
    }

    /** `packetize_read`, and what is done with its outcome. */
    method Receive(outcome: F.ReadOutcome, room: bool)
      requires Valid() && Numbers(networkToClient.transport, image) && packetForClientLength.None?
      requires outcome.Data? ==> |outcome.bytes| <= F.MAX_PAYLOAD
      modifies this, networkToClient, networkToClient.buffer
      ensures Valid() && old(sent) <= sent && View() == F.Receive(old(View()), outcome, room)
    {
      hide F.Reply, F.Close, F.EndOfFile, F.SendOrDefer, AllRealised, Numbers, Realises;
      match outcome
      case ReadBlocked =>
      case Eof => Eof(room);
      case ReadFailed => Reset(room);
      case Data(bytes) =>
        var raw := Packetize(bytes);
        SendOrDefer(raw, bytes, room);
    }

    /** What the host makes of a write, or of a connection attempt that is settled. */
    ghost predicate Takes(w: F.WriteOutcome, budget: nat, outcome: F.WriteOutcome)
      reads this, clientToNetwork, clientToNetwork.buf
      requires clientToNetwork.Valid()
    {
      if tcb.state == F.SynSent then outcome.WriteFailed? <==> w.WriteFailed?
      else outcome == if !w.Wrote? && clientToNetwork.Contents() != [] then w
                      else F.Wrote(Min(budget, clientToNetwork.Contiguous()))
    }

    /** The write part of a poll event; the first one tells that the host is connected. */
    method ProcessWrite(w: F.WriteOutcome, budget: nat, room: bool) returns (outcome: F.WriteOutcome)
      requires Valid()
      modifies this, networkToClient, networkToClient.buffer, clientToNetwork`head, clientToNetwork`tail
      ensures Valid() && old(sent) <= sent && (outcome.Wrote? ==> outcome.n <= |old(View()).ring|)
      ensures old(Takes(w, budget, outcome))
      ensures View() == F.AfterWrite(old(View()), outcome, room)
    {
      hide F.ProcessSend, F.ProcessConnect, Building, Standing, AllRealised;
      if tcb.state == F.SynSent {
        ProcessConnect(w.WriteFailed?, room);
        outcome := if w.WriteFailed? then w else F.Wrote(0);
      } else {
        outcome := ProcessSend(budget, w.WriteFailed?, w.WriteBlocked?, room);
      }
    }

    /**
     * The read part of a poll event.  The host offers `r`, of which no more is read than the
     * window and the buffer take; without window, or over a pending packet, the relay panics.
     */
    method ProcessRead(r: F.ReadOutcome, room: bool) returns (outcome: F.ReadOutcome, panicked: bool)
      requires Valid() && (r.Data? ==> r.bytes != [])
      modifies this, networkToClient, networkToClient.buffer
      ensures Valid() && old(sent) <= sent && (panicked <==> !F.ReadAsserts(old(View())))
      ensures panicked ==> View() == old(View())
      ensures !panicked ==> outcome == F.ReadOf(old(tcb), r) && F.ReadFits(old(View()), outcome)
      ensures !panicked ==> View() == F.ProcessReceive(old(View()), outcome, room)
    {
      hide F.ProcessReceive, Building, Standing, AllRealised;
      outcome := r;
      var window := RemainingClientWindow();
      panicked := packetForClientLength.Some? || window == 0;
      if panicked {
        return;
      }
      if r.Data? {
        var maxPayloadLength := Min(window, F.MAX_PAYLOAD);
        outcome := F.Data(r.bytes[..Min(|r.bytes|, maxPayloadLength)]);
      }
      ProcessReceive(outcome, room);
    }

    /**
     * A poll event: writable, readable, both, or neither.  What the host takes of a write is
     * settled by `budget` and what is read of an offer by the window, so the event that has
     * happened is returned.  Between write and read only `closed` is tested.
     */
    method Process(e: F.Event, budget: nat) returns (event: F.Event, panicked: bool)
      requires Valid() && (e.Writable? || e.Readable? || e.Both? || e.Hup?)
      requires closed || (tcb.state != F.Init && (e.Readable? || e.Both? ==> F.MayRead(View())))
      requires (e.Readable? || e.Both?) && e.read.Data? ==> e.read.bytes != []
      modifies this, networkToClient, networkToClient.buffer, clientToNetwork`head, clientToNetwork`tail
      ensures Valid() && old(sent) <= sent
      ensures (event.Writable? || event.Both?) && event.written.Wrote? ==> event.written.n <= |old(View()).ring|
      ensures !old(closed) ==>
        match e
        case Writable(w, room) => event.Writable? && event.room == room && old(Takes(w, budget, event.written))
        case Readable(r, room) => event == F.Readable(F.ReadOf(old(tcb), r), room)
        case Both(w, room, r, readRoom) =>
          && event.Both? && event.room == room && event.readRoom == readRoom
          && old(Takes(w, budget, event.written))
          && (F.GoesOn(old(View()), event.written, room) && !panicked ==>
                event.read == F.ReadOf(F.AfterWrite(old(View()), event.written, room).tcb, r))
        case _ => event == e
      ensures panicked <==> event.Both? && !old(closed) && F.ReadPanics(old(View()), event.written, event.room)
      ensures !panicked ==> F.Possible(old(View()), event) && View() == F.Step(old(View()), event)
    {
      hide F.AfterWrite, F.ProcessReceive, F.Refuse, F.MayRead, F.ReadAsserts, Building, Standing, AllRealised;
      panicked := false;
      if closed {
        event := F.Hup(false);  // ignored, like any other event
        return;
      }
      match e
      case Writable(w, room) =>
        var written := ProcessWrite(w, budget, room);
        event := F.Writable(written, room);
      case Readable(r, room) =>
        MayReadAsserts();
        var read;
        read, panicked := ProcessRead(r, room);
        event := F.Readable(read, room);
      case Both(w, room, r, readRoom) =>
        var written := ProcessWrite(w, budget, room);
        var read := F.ReadBlocked;
        if !written.WriteBlocked? && !closed {
          read, panicked := ProcessRead(r, readRoom);
        }
        event := F.Both(written, room, read, readRoom);
      case Hup(room) =>
        Expire(room);
        event := e;
    }

    lemma MayReadAsserts()
      requires Valid() && F.MayRead(View())
      ensures F.ReadAsserts(View())
    {
    }

    method Expire(room: bool)
      requires Valid()
      modifies this, networkToClient, networkToClient.buffer
      ensures Valid() && old(sent) <= sent && View() == F.Refuse(old(View()), room)
    {
      hide Building, Standing, AllRealised;
      if !closed && (tcb.state == F.SynSent || tcb.state == F.SynReceived) {
        ReplyEmptyPacket(F.RST, room);
      }
      Close();
    }

    /** The pending packet, as it stands in the packetizer's buffer. */
    method Get() returns (raw: Option<seq<byte>>)
      requires Valid()
      ensures F.PendingFits(View()) && (raw.Some? <==> packetForClientLength.Some?)
      ensures raw.Some? ==> |raw.value| == packetForClientLength.value
      ensures raw.Some? ==> Realises(raw.value, headerLength, F.PendingWire(View()))
    {
      hide ParseIpv4, ParseTcp, ParseUdp, AllRealised, Numbers, Realises;
      match packetForClientLength
      case Some(length) =>
        var late := networkToClient.Inflate(length);
        raw := Some(late);
        ghost var b := networkToClient.buffer[..];
        assert held[..length - headerLength] == held;
        assert b[headerLength..length] == held;
        LateRealises(b, networkToClient.ipv4, networkToClient.transport, headerLength, F.PendingWire(View()));
      case None => raw := None;
    }

    /** The link has taken the packet that `Get` showed. */
    method Next()
      requires Valid() && packetForClientLength.Some? && !closed
      modifies this
      ensures Valid() && old(sent) <= sent && F.PendingFits(old(View())) && View() == F.Next(old(View()))
    {
      hide ParseIpv4, ParseTcp, ParseUdp, AllRealised, Numbers, Realises;
      var raw := Get();
      var length := packetForClientLength.value;
      RealisedSnoc(headerLength, sent, h.wires, raw.value, F.PendingWire(View()));
      sent := sent + [raw.value];
      h := h.(wires := h.wires + [F.PendingWire(View())], pulls := h.pulls + 1,
              clobberedPulls := h.clobberedPulls + if h.clobbered then 1 else 0,
              pulledPayload := h.pulledPayload + length - headerLength,
              pulledTotal := h.pulledTotal + length,
              afterFin := if tcb.fin.Some? then h.afterFin + length else h.afterFin);
      tcb := tcb.(seqNum := Wrap(tcb.seqNum + length));
      packetForClientLength := None;
    }
  }
}
