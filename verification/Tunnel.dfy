/** The phone's tunnel loop between tun device and relay socket (app/entry/src/main/cpp/tunnel.cpp). */
module Tunnels {
  import opened Words
  import opened IpPackets
  import opened Framing
  import opened Icmpv6

  const MAX_PACKET: nat := 65535
  const MAX_QUEUE: nat := 1024 * 1024

  datatype Ipv6Mode = Off | Proxy | Blackhole

  /** What waits for the tun device: a packet of the relay, or the tunnel's own refusal. */
  datatype Item = FromRelay(packet: seq<byte>) | Refusal(packet: seq<byte>)

  function Packets(items: seq<Item>): (ps: seq<seq<byte>>)
    ensures |ps| == |items|
  {
    if items == [] then [] else Packets(items[..|items| - 1]) + [items[|items| - 1].packet]
  }

  function Relayed(items: seq<Item>): seq<seq<byte>> {
    if items == [] then []
    else
      var last := items[|items| - 1];
      Relayed(items[..|items| - 1]) + if last.FromRelay? then [last.packet] else []
  }

  /** The tunnel's own answers among what is queued. */
  function Refusals(items: seq<Item>): seq<seq<byte>> {
    if items == [] then []
    else
      var last := items[|items| - 1];
      Refusals(items[..|items| - 1]) + if last.Refusal? then [last.packet] else []
  }

  lemma ItemsSnoc(items: seq<Item>, item: Item)
    ensures Packets(items + [item]) == Packets(items) + [item.packet]
    ensures Relayed(items + [item]) == Relayed(items) + if item.FromRelay? then [item.packet] else []
    ensures Refusals(items + [item]) == Refusals(items) + if item.Refusal? then [item.packet] else []
  {
    assert (items + [item])[..|items|] == items;
  }

  function TotalSize(ps: seq<seq<byte>>): nat {
    if ps == [] then 0 else |ps[0]| + TotalSize(ps[1..])
  }

  lemma {:induction false} TotalSizeSnoc(ps: seq<seq<byte>>, p: seq<byte>)
    ensures TotalSize(ps + [p]) == TotalSize(ps) + |p|
  {
    if ps == [] {
      assert ps + [p] == [p] && [p][1..] == [];
    } else {
      TotalSizeSnoc(ps[1..], p);
      assert (ps + [p])[1..] == ps[1..] + [p];
    }
  }

  /** What the devices do in one turn of the loop; each acts only if it is asked for. */
  datatype TunRead = NoPacket | GotPacket(bytes: seq<byte>) | TunClosed
  datatype SocketSend = NotSent | Sent(count: nat) | SendFailed
  datatype SocketRead = NoData | GotData(bytes: seq<byte>) | SocketClosed
  datatype TunWrite = NotWritten | Written(count: nat) | WriteFailed

  /** A packet of the tun device that the relay is to see. */
  predicate Forwards(mode: Ipv6Mode, packet: seq<byte>) {
    IsWellFormedIpPacket(packet) && (IsIpv6(packet) ==> mode == Proxy)
  }

  /** A packet of the tun device that the tunnel itself answers, while its queue has room. */
  predicate Refuses(mode: Ipv6Mode, packet: seq<byte>, room: bool) {
    IsWellFormedIpPacket(packet) && IsIpv6(packet) && mode == Blackhole && room && Answerable(packet)
  }

  /** A packet as it was read; `room` says whether the queue for the tun device had room then. */
  datatype Read = Read(packet: seq<byte>, room: bool)

  function Forwarded(mode: Ipv6Mode, tunIn: seq<Read>): seq<seq<byte>> {
    if tunIn == [] then []
    else
      var last := tunIn[|tunIn| - 1];
      Forwarded(mode, tunIn[..|tunIn| - 1]) + if Forwards(mode, last.packet) then [last.packet] else []
  }

  function TurnedAway(mode: Ipv6Mode, tunIn: seq<Read>): seq<seq<byte>> {
    if tunIn == [] then []
    else
      var last := tunIn[|tunIn| - 1];
      TurnedAway(mode, tunIn[..|tunIn| - 1]) + if Refuses(mode, last.packet, last.room) then [last.packet] else []
  }

  /** Each packet has its answer, in order. */
  predicate AnswerEach(replies: seq<seq<byte>>, packets: seq<seq<byte>>) {
    && |replies| == |packets|
    && (forall i | 0 <= i < |packets| :: Answerable(packets[i]) && IsRefusalOf(replies[i], packets[i]))
  }

  /** Of all that was read, what goes to the relay, what is counted as dropped, and what is answered. */
  predicate Handled(mode: Ipv6Mode, tunIn: seq<Read>, accepted: seq<seq<byte>>, dropped: nat,
                    replies: seq<seq<byte>>)
  {
    && accepted == Forwarded(mode, tunIn)
    && dropped + |accepted| == |tunIn|
    && AnswerEach(replies, TurnedAway(mode, tunIn))
  }

  lemma ReadsSnoc(mode: Ipv6Mode, tunIn: seq<Read>, r: Read)
    ensures var all := tunIn + [r];
            && Forwarded(mode, all) == Forwarded(mode, tunIn) + (if Forwards(mode, r.packet) then [r.packet] else [])
            && TurnedAway(mode, all)
               == TurnedAway(mode, tunIn) + if Refuses(mode, r.packet, r.room) then [r.packet] else []
  {
    assert (tunIn + [r])[..|tunIn|] == tunIn;
  }

  /** What is read while the tun device is not asked. */
  function Asked(tunRead: TunRead, gate: bool): TunRead { if gate then tunRead else NoPacket }

  /** The packet that one turn reads. */
  function ReadOf(tunRead: TunRead, room: bool): seq<Read> {
    if tunRead.GotPacket? then [Read(tunRead.bytes, room)] else []
  }

  /** How many packets one turn counts as dropped. */
  function DroppedOf(mode: Ipv6Mode, tunRead: TunRead): nat {
    if tunRead.GotPacket? && !Forwards(mode, tunRead.bytes) then 1 else 0
  }

  /** The packet that one turn takes from the tun device, if the gate was open. */
  function Taken(mode: Ipv6Mode, tunRead: TunRead, gate: bool): seq<seq<byte>> {
    if gate && tunRead.GotPacket? && Forwards(mode, tunRead.bytes) then [tunRead.bytes] else []
  }

  /** How many of the unsent bytes one turn sends. */
  function SentOf(send: SocketSend, gate: bool, unsent: int): nat {
    if gate && send.Sent? && unsent >= 0 then Min(send.count, unsent) else 0
  }

  function Given(recv: SocketRead, gate: bool): seq<byte> {
    if gate && recv.GotData? then recv.bytes else []
  }

  function Granted(grants: seq<nat>): nat {
    if grants == [] then 0 else Granted(grants[..|grants| - 1]) + grants[|grants| - 1]
  }

  lemma {:induction false} GrantedGrows(grants: seq<nat>, i: nat)
    requires i <= |grants|
    ensures Granted(grants[..i]) <= Granted(grants)
    decreases |grants|
  {
    if i < |grants| {
      GrantedGrows(grants[..|grants| - 1], i);
      assert grants[..|grants| - 1][..i] == grants[..i];
    } else {
      assert grants[..i] == grants;
    }
  }

  /**
   * `Connect`, after the connection is made: collects the 4 bytes of the client id from a stream
   * that gives `grants[i]` bytes at the i-th read, and takes no byte of a packet.
   */
  method ReadClientId(stream: seq<byte>, grants: seq<nat>) returns (id: Option<u32>, taken: nat)
    ensures taken == Min(4, Min(|stream|, Granted(grants)))
    ensures id.Some? <==> taken == 4
    ensures id.Some? ==> id.value == FromBe32(stream[0], stream[1], stream[2], stream[3])
  {
    var buffer: seq<byte> := [];
    taken := 0;
    var i := 0;
    while taken < 4 && i < |grants|
      invariant taken <= |stream| && buffer == stream[..taken] && i <= |grants|
      invariant taken == Min(4, Min(|stream|, Granted(grants[..i])))
    {
      assert grants[..i + 1][..i] == grants[..i];
      var n := Min(grants[i], Min(4 - taken, |stream| - taken));
      buffer := buffer + stream[taken..taken + n];
      taken := taken + n;
      i := i + 1;
    }
    GrantedGrows(grants, i);
    assert i == |grants| ==> grants[..i] == grants;
    if taken == 4 {
      id := Some(FromBe32(buffer[0], buffer[1], buffer[2], buffer[3]));
    } else {
      id := None;
    }
  }

  /** What one call of poll leads to. */
  datatype Poll = Poll(tunRead: TunRead, send: SocketSend, recv: SocketRead, tunWrite: TunWrite, hangup: bool)

  predicate Possible(p: Poll) {
    && (p.tunRead.GotPacket? ==> 0 < |p.tunRead.bytes| <= MAX_PACKET)
    && (p.recv.GotData? ==> 0 < |p.recv.bytes| <= MAX_PACKET)
  }

  /** What of a poll makes the first half of a turn fail: a device that was asked and is gone. */
  predicate FailsOut(readTun: bool, writeSocket: bool, tunRead: TunRead, send: SocketSend) {
    (readTun && tunRead.TunClosed?) || (writeSocket && send.SendFailed?)
  }

  /** The socket is gone, or its stream is no sequence of packets. */
  predicate FailsIn(readSocket: bool, recv: SocketRead, socketIn: seq<byte>) {
    readSocket && (recv.SocketClosed? || (recv.GotData? && CutAll(Phone, socketIn + recv.bytes).broken))
  }

  /** The tun device is gone, or takes the front packet in part. */
  predicate FailsWrite(packets: seq<seq<byte>>, tunWrite: TunWrite) {
    packets != [] && (tunWrite.WriteFailed? || (tunWrite.Written? && tunWrite.count != |packets[0]|))
  }

  class Tunnel {
    const mode: Ipv6Mode
    var outbound: seq<byte>
    var sendOffset: nat
    var incoming: seq<byte>
    var packets: seq<seq<byte>>
    var queuedBytes: nat
    var dropped: nat
    var error: bool
    ghost var accepted: seq<seq<byte>>    // tun packets forwarded to the relay
    ghost var socketOut: seq<byte>        // bytes the socket took
    ghost var socketIn: seq<byte>         // bytes the socket gave
    ghost var enqueued: seq<Item>         // all that was ever queued for the tun device
    ghost var tunOut: seq<seq<byte>>      // packets the tun device took
    ghost var tunIn: seq<Read>            // packets the tun device gave

    /** The socket has a beginning of the accepted packets, the unsent outbound bytes are the rest. */
    ghost predicate Outgoing()
      reads `outbound, `sendOffset, `socketOut, `accepted
    {
      && sendOffset <= |outbound|
      && socketOut + outbound[sendOffset..] == Flatten(accepted)
      && AllWellFormed(accepted)
      && (mode != Proxy ==> forall p | p in accepted :: !IsIpv6(p))
    }

    /** The tun device takes packets in the order in which they were queued. */
    ghost predicate Queued()
      reads `packets, `queuedBytes, `enqueued, `tunOut
    {
      && queuedBytes == TotalSize(packets)
      && tunOut + packets == Packets(enqueued)
    }

    /** Every byte of the relay is in a queued packet or still in `incoming`. */
    ghost predicate Incoming()
      reads `incoming, `error, `enqueued, `socketIn
    {
      var c := CutAll(Phone, socketIn);
      && Relayed(enqueued) == c.frames
      && (!error ==> !c.broken && incoming == c.rest)
    }

    /** The two flow gates bound what the loop buffers. */
    ghost predicate Bounded()
      reads `outbound, `sendOffset, `incoming, `queuedBytes, `error
    {
      && |outbound| - sendOffset < MAX_QUEUE
      && (!error ==> queuedBytes + |incoming| <= MAX_QUEUE + 1318)
    }

    /** Nothing that was read is forgotten. */
    ghost predicate Reading()
      reads `tunIn, `accepted, `dropped, `enqueued
    {
      Handled(mode, tunIn, accepted, dropped, Refusals(enqueued))
    }

    ghost predicate Valid()
      reads this
    {
      Outgoing() && Queued() && Incoming() && Bounded() && Reading()
    }

    constructor (mode: Ipv6Mode)
      ensures Valid() && !error && this.mode == mode
      ensures accepted == [] && socketOut == [] && socketIn == [] && enqueued == [] && tunOut == [] && tunIn == []
    {
      this.mode := mode;
      outbound, sendOffset, incoming, packets, queuedBytes, dropped, error := [], 0, [], [], 0, 0, false;
      accepted, socketOut, socketIn, enqueued, tunOut, tunIn := [], [], [], [], [], [];
    }

    method Fail()
      requires Incoming()
      modifies `error
      ensures Incoming() && error
    {
      error := true;
    }

    lemma IncomingIsShort()
      requires Incoming() && !error
      ensures |incoming| < MAX_IP_PACKET_LENGTH
    {
    }

    lemma UnsentIsRest()
      requires Outgoing()
      ensures sendOffset <= |outbound| && |outbound| - sendOffset == |Flatten(accepted)| - |socketOut|
    {
      assert |socketOut + outbound[sendOffset..]| == |Flatten(accepted)|;
    }

    method Enqueue(item: Item)
      requires Queued()
      modifies `packets, `queuedBytes, `enqueued
      ensures Queued()
      ensures packets == old(packets) + [item.packet] && enqueued == old(enqueued) + [item]
      ensures queuedBytes == old(queuedBytes) + |item.packet|
    {
      TotalSizeSnoc(packets, item.packet);
      ItemsSnoc(enqueued, item);
      queuedBytes := queuedBytes + |item.packet|;
      packets := packets + [item.packet];
      enqueued := enqueued + [item];
    }

    /**
     * One packet of the tun device: dropped if malformed, refused if it is IPv6 and not proxied,
     * and otherwise forwarded whole.
     */
    method OnTunPacket(buffer: seq<byte>)
      requires Outgoing() && Queued() && Incoming() && !error && |buffer| <= MAX_PACKET
      modifies `outbound, `sendOffset, `packets, `queuedBytes, `enqueued, `dropped, `accepted
      ensures Outgoing() && Queued() && Incoming()
      ensures var forward := Forwards(mode, buffer);
              var room := old(queuedBytes) + MAX_PACKET < MAX_QUEUE;
              && accepted == (if forward then old(accepted) + [buffer] else old(accepted))
              && |outbound| - sendOffset == old(|outbound| - sendOffset) + (if forward then |buffer| else 0)
              && dropped == old(dropped) + (if forward then 0 else 1)
              && Answered(old(packets), old(enqueued), buffer, Refuses(mode, buffer, room))
              && old(packets) <= packets && old(queuedBytes) <= queuedBytes <= old(queuedBytes) + MAX_ICMPV6_PACKET
              && (queuedBytes > old(queuedBytes) ==> old(queuedBytes) + MAX_PACKET < MAX_QUEUE)
    {
      hide CutAll, Packets, TotalSize, IsWellFormedIpPacket, Answered, Answerable, Outgoing, Queued, Incoming;
      if !IsWellFormedIpPacket(buffer) {
        dropped := dropped + 1;
        Unanswered(buffer);
      } else if IsIpv6(buffer) && mode != Proxy {
        dropped := dropped + 1;
        if mode == Blackhole && queuedBytes + MAX_PACKET < MAX_QUEUE {
          Refuse(buffer);
        } else {
          Unanswered(buffer);
        }
      } else {
        Unanswered(buffer);
        Forward(buffer);
      }
    }

    /** A refusal of `buffer` was queued, or nothing was. */
    ghost predicate Answered(ps: seq<seq<byte>>, items: seq<Item>, buffer: seq<byte>, refuse: bool)
      reads `packets, `enqueued
    {
      if refuse then
        exists reply :: Answerable(buffer) && IsRefusalOf(reply, buffer)
                        && packets == ps + [reply] && enqueued == items + [Refusal(reply)]
      else packets == ps && enqueued == items
    }

    lemma Unanswered(buffer: seq<byte>)
      ensures Answered(packets, enqueued, buffer, false)
    {
    }

    /** Queues the tunnel's own answer, if the packet may be answered. */
    method Refuse(buffer: seq<byte>)
      requires Queued() && Incoming()
      modifies `packets, `queuedBytes, `enqueued
      ensures Queued() && Incoming()
      ensures Answered(old(packets), old(enqueued), buffer, Answerable(buffer)) && old(packets) <= packets
      ensures old(queuedBytes) <= queuedBytes <= old(queuedBytes) + MAX_ICMPV6_PACKET
    {
      hide CutAll, Packets, TotalSize, Answerable;
      var reply := BuildUnreachable(buffer);
      if reply.Some? {
        ItemsSnoc(enqueued, Refusal(reply.value));
        Enqueue(Refusal(reply.value));
      }
    }

    /** Drops the sent part of `outbound` and appends the packet. */
    method Forward(buffer: seq<byte>)
      requires Outgoing() && Forwards(mode, buffer)
      modifies `outbound, `sendOffset, `accepted
      ensures Outgoing() && accepted == old(accepted) + [buffer]
      ensures |outbound| - sendOffset == old(|outbound| - sendOffset) + |buffer|
    {
      hide IsWellFormedIpPacket, IsIpv6;
      FlattenSnoc(accepted, buffer);
      ghost var unsent := outbound[sendOffset..];
      if sendOffset > 0 {
        outbound := outbound[sendOffset..];
        sendOffset := 0;
      }
      assert outbound[sendOffset..] == unsent;
      outbound := outbound + buffer;
      assert outbound[sendOffset..] == unsent + buffer;
      accepted := accepted + [buffer];
    }

    /** The socket takes `count` of the unsent bytes. */
    method OnSocketSent(count: nat)
      requires Outgoing() && count <= |outbound| - sendOffset
      modifies `outbound, `sendOffset, `socketOut
      ensures Outgoing() && |outbound| - sendOffset == old(|outbound| - sendOffset) - count
      ensures old(socketOut) <= socketOut && |socketOut| == |old(socketOut)| + count
    {
      hide AllWellFormed, IsIpv6;
      ghost var sent := outbound[sendOffset..sendOffset + count];
      assert outbound[sendOffset..] == sent + outbound[sendOffset + count..];
      socketOut := socketOut + sent;
      sendOffset := sendOffset + count;
      if sendOffset == |outbound| {
        outbound := [];
        sendOffset := 0;
      }
    }

    /** The deframing loop over what has arrived. */
    method OnSocketData(bytes: seq<byte>)
      requires Queued() && Incoming() && !error
      modifies `incoming, `packets, `queuedBytes, `enqueued, `socketIn, `error
      ensures Queued() && Incoming()
      ensures socketIn == old(socketIn) + bytes && old(packets) <= packets
      ensures Refusals(enqueued) == old(Refusals(enqueued))
      ensures error == CutAll(Phone, socketIn).broken
      ensures !error ==> queuedBytes + |incoming| == old(queuedBytes + |incoming|) + |bytes|
    {
      hide CutAll, Packets, TotalSize, Relayed, Refusals;
      CutInTwo(Phone, socketIn, bytes);
      ghost var before := CutAll(Phone, socketIn);
      socketIn := socketIn + bytes;
      incoming := incoming + bytes;
      ghost var data := incoming;
      var offset: nat := 0;
      ghost var done: seq<seq<byte>> := [];
      StartCutting(CutAll(Phone, data));
      assert data[0..] == data;
      var more := true;
      while more && |incoming| - offset >= 4
        invariant Queued() && incoming == data && offset <= |data| && socketIn == old(socketIn) + bytes
        invariant Relayed(enqueued) == before.frames + done
        invariant queuedBytes == old(queuedBytes) + offset && old(packets) <= packets
        invariant Refusals(enqueued) == old(Refusals(enqueued))
        invariant more ==> !error
        invariant CutAll(Phone, data) == if error then Cut(done, data[offset..], true)
                                         else Then(Cut(done, [], false), CutAll(Phone, data[offset..]))
        invariant !more && !error ==> FrontOf(Phone, data[offset..]).More?
        decreases more, |incoming| - offset
      {
        CutFront(data[offset..], done);
        var ip := incoming[offset..];
        var length := IpPacketLength(ip);
        if length.None? {
          error := true;
          more := false;
        } else if length.value == 0 || |ip| < length.value {
          more := false;
        } else {
          ghost var n := length.value;
          assert FrontOf(Phone, ip) == Frame(n);
          ItemsSnoc(enqueued, FromRelay(ip[..n]));
          Enqueue(FromRelay(ip[..length.value]));
          assert ip[n..] == data[offset + n..];
          done := done + [ip[..n]];
          offset := offset + length.value;
        }
      }
      if !error {
        CutNothing(Phone, data[offset..]);
        StopCutting(done, data[offset..]);
        incoming := incoming[offset..];
      }
    }

    /** The tun device takes the front packet whole, or the loop fails. */
    method OnTunWritten(count: nat)
      requires Queued() && Incoming() && packets != []
      modifies `packets, `queuedBytes, `tunOut, `error
      ensures Queued() && Incoming() && (error <==> old(error) || count != |old(packets)[0]|)
      ensures if count == |old(packets)[0]|
              then tunOut == old(tunOut) + [old(packets)[0]] && packets == old(packets)[1..]
              else tunOut == old(tunOut) && packets == old(packets)
      ensures queuedBytes <= old(queuedBytes)
    {
      hide CutAll, Relayed;
      var packet := packets[0];
      if count == |packet| {
        queuedBytes := queuedBytes - |packet|;
        tunOut := tunOut + [packet];
        packets := packets[1..];
      } else {
        Fail();
      }
    }

    /** Of this poll, a device or the stream has failed. */
    ghost predicate Explained(p: Poll)
      reads `socketIn, `packets
    {
      || p.tunRead.TunClosed? || p.send.SendFailed? || p.recv.SocketClosed? || p.hangup
      || CutAll(Phone, socketIn).broken || FailsWrite(packets, p.tunWrite)
    }

    /**
     * One turn of the loop.  The gates are read first, then the devices act in this order; the
     * loop ends once `error` is set.
     */
    method Turn(tunRead: TunRead, send: SocketSend, recv: SocketRead, tunWrite: TunWrite, hangup: bool)
      requires Valid() && !error
      requires Possible(Poll(tunRead, send, recv, tunWrite, hangup))
      modifies this
      ensures Valid()
      ensures accepted == old(accepted) + Taken(mode, tunRead, old(|outbound| - sendOffset < MAX_QUEUE - MAX_PACKET))
      ensures var asked := Asked(tunRead, old(|outbound| - sendOffset < MAX_QUEUE - MAX_PACKET));
              && tunIn == old(tunIn) + ReadOf(asked, old(queuedBytes) + MAX_PACKET < MAX_QUEUE)
              && dropped == old(dropped) + DroppedOf(mode, asked)
      ensures old(socketOut) <= socketOut
      ensures var gate := old(sendOffset < |outbound|);
              !error ==> |socketOut| == |old(socketOut)| + SentOf(send, gate, |Flatten(accepted)| - |old(socketOut)|)
      ensures var gate := old(queuedBytes + |incoming| < MAX_QUEUE - MAX_PACKET);
              !error ==> socketIn == old(socketIn) + Given(recv, gate)
      ensures old(tunOut) <= tunOut
      ensures !error ==> |tunOut| == |old(tunOut)| + if old(packets) != [] && tunWrite.Written? then 1 else 0
      ensures error <==>
        || FailsOut(old(|outbound| - sendOffset < MAX_QUEUE - MAX_PACKET), old(sendOffset < |outbound|), tunRead, send)
        || FailsIn(old(queuedBytes + |incoming| < MAX_QUEUE - MAX_PACKET), recv, old(socketIn))
        || FailsWrite(old(packets), tunWrite)
        || hangup
      ensures error ==> Explained(Poll(tunRead, send, recv, tunWrite, hangup))
    {
      hide Outgoing, Queued, Incoming, Handled, Refusals, Taken, SentOf, DroppedOf, CutAll, Flatten;
      IncomingIsShort();
      UnsentIsRest();
      var readTun := |outbound| - sendOffset < MAX_QUEUE - MAX_PACKET;
      var writeTun := packets != [];
      var readSocket := queuedBytes + |incoming| < MAX_QUEUE - MAX_PACKET;
      var writeSocket := sendOffset < |outbound|;
      PollOut(readTun, writeSocket, tunRead, send);
      PollIn(readSocket, writeTun, recv, tunWrite);
      if !error && hangup {
        Fail();
      }
    }

    /** The loop, until the first failure or the last poll. */
    method Run(polls: seq<Poll>) returns (turns: nat)
      requires Valid() && !error
      requires forall p | p in polls :: Possible(p)
      modifies this
      ensures Valid() && turns <= |polls| && (turns < |polls| ==> error)
      ensures error ==> turns > 0 && Explained(polls[turns - 1])
      ensures old(accepted) <= accepted && old(socketOut) <= socketOut && old(tunOut) <= tunOut
      ensures old(tunIn) <= tunIn
    {
      hide Valid, Possible, Taken, ReadOf, DroppedOf, SentOf, Given, Explained, FailsOut, FailsIn, FailsWrite;
      turns := 0;
      while turns < |polls| && !error
        invariant turns <= |polls| && Valid()
        invariant old(accepted) <= accepted && old(socketOut) <= socketOut && old(tunOut) <= tunOut
        invariant old(tunIn) <= tunIn
        invariant error ==> turns > 0 && Explained(polls[turns - 1])
        decreases |polls| - turns
      {
        var p := polls[turns];
        assert Possible(p);
        Turn(p.tunRead, p.send, p.recv, p.tunWrite, p.hangup);
        turns := turns + 1;
      }
    }

    /** Tun device to socket. */
    method PollOut(readTun: bool, writeSocket: bool, tunRead: TunRead, send: SocketSend)
      requires Outgoing() && Queued() && Incoming() && Reading() && !error
      requires tunRead.GotPacket? ==> |tunRead.bytes| <= MAX_PACKET
      modifies `outbound, `sendOffset, `packets, `queuedBytes, `enqueued, `dropped, `accepted, `tunIn, `error,
               `socketOut
      ensures Outgoing() && Queued() && Incoming() && Reading() && sendOffset <= |outbound|
      ensures Took(Asked(tunRead, readTun), old(packets), old(enqueued), old(dropped), old(tunIn), old(queuedBytes))
      ensures accepted == old(accepted) + Taken(mode, tunRead, readTun)
      ensures old(socketOut) <= socketOut && old(packets) <= packets
      ensures error <==> FailsOut(readTun, writeSocket, tunRead, send)
      ensures !error ==>
        |socketOut| == |old(socketOut)| + SentOf(send, writeSocket, |Flatten(accepted)| - |old(socketOut)|)
      ensures |outbound| - sendOffset <= old(|outbound| - sendOffset) + if readTun then MAX_PACKET else 0
      ensures old(queuedBytes) <= queuedBytes <= old(queuedBytes) + MAX_ICMPV6_PACKET
      ensures queuedBytes > old(queuedBytes) ==> old(queuedBytes) + MAX_PACKET < MAX_QUEUE
    {
      hide Outgoing, Queued, Incoming, Handled, Forwards, Refuses, Answered, Flatten;
      if readTun {
        ReadTun(tunRead);
      }
      UnsentIsRest();
      if !error && writeSocket {
        SendSocket(send);
        UnsentIsRest();
      }
    }

    /** Socket to tun device; the queue is tested again before the write. */
    method PollIn(readSocket: bool, writeTun: bool, recv: SocketRead, tunWrite: TunWrite)
      requires Queued() && Incoming() && (writeTun ==> packets != [])
      modifies `incoming, `packets, `queuedBytes, `enqueued, `socketIn, `error, `tunOut
      ensures Queued() && Incoming() && (old(error) ==> error)
      ensures Refusals(enqueued) == old(Refusals(enqueued))
      ensures !error ==> socketIn == old(socketIn) + Given(recv, readSocket)
      ensures !error ==>
        queuedBytes + |incoming| <= old(queuedBytes + |incoming|) + |Given(recv, readSocket)|
      ensures old(tunOut) <= tunOut
      ensures !error ==> |tunOut| == |old(tunOut)| + if writeTun && tunWrite.Written? then 1 else 0
      ensures error <==>
        old(error) || FailsIn(readSocket, recv, old(socketIn)) || (writeTun && FailsWrite(old(packets), tunWrite))
      ensures error && !old(error) ==>
        recv.SocketClosed? || CutAll(Phone, socketIn).broken || FailsWrite(packets, tunWrite)
    {
      hide Queued, Incoming, CutAll, Refusals;
      if !error && readSocket {
        ReceiveSocket(recv);
      }
      if !error && writeTun && packets != [] {
        match tunWrite
        case NotWritten =>
        case WriteFailed => Fail();
        case Written(count) => OnTunWritten(count);
      }
    }

    /** What one read of the tun device did to these; `bytes` were queued before it. */
    ghost predicate Took(tunRead: TunRead, ps: seq<seq<byte>>, items: seq<Item>, d: nat, rs: seq<Read>, bytes: nat)
      reads `packets, `enqueued, `dropped, `tunIn
    {
      var room := bytes + MAX_PACKET < MAX_QUEUE;
      && (if tunRead.GotPacket? then Answered(ps, items, tunRead.bytes, Refuses(mode, tunRead.bytes, room))
          else packets == ps && enqueued == items)
      && dropped == d + DroppedOf(mode, tunRead)
      && tunIn == rs + ReadOf(tunRead, room)
    }

    /** One more packet is handled as it should be. */
    lemma ReadingSnoc(items: seq<Item>, d: nat, rs: seq<Read>, acc: seq<seq<byte>>, ps: seq<seq<byte>>, r: Read)
      requires Handled(mode, rs, acc, d, Refusals(items)) && tunIn == rs + [r]
      requires Answered(ps, items, r.packet, Refuses(mode, r.packet, r.room))
      requires accepted == acc + (if Forwards(mode, r.packet) then [r.packet] else [])
      requires dropped == d + if Forwards(mode, r.packet) then 0 else 1
      ensures Reading()
    {
      hide Forwards, Refuses, Refusals, Forwarded, TurnedAway, IsRefusalOf, Answerable;
      ReadsSnoc(mode, rs, r);
      if Refuses(mode, r.packet, r.room) {
        var reply :| Answerable(r.packet) && IsRefusalOf(reply, r.packet) && enqueued == items + [Refusal(reply)];
        ItemsSnoc(items, Refusal(reply));
      }
    }

    method ReadTun(tunRead: TunRead)
      requires Outgoing() && Queued() && Incoming() && Reading() && !error
      requires tunRead.GotPacket? ==> |tunRead.bytes| <= MAX_PACKET
      modifies `outbound, `sendOffset, `packets, `queuedBytes, `enqueued, `dropped, `accepted, `tunIn, `error
      ensures Outgoing() && Queued() && Incoming() && Reading()
      ensures Took(tunRead, old(packets), old(enqueued), old(dropped), old(tunIn), old(queuedBytes))
      ensures accepted == old(accepted) + Taken(mode, tunRead, true)
      ensures error <==> tunRead.TunClosed?
      ensures |outbound| - sendOffset <= old(|outbound| - sendOffset) + MAX_PACKET
      ensures old(packets) <= packets
      ensures old(queuedBytes) <= queuedBytes <= old(queuedBytes) + MAX_ICMPV6_PACKET
      ensures queuedBytes > old(queuedBytes) ==> old(queuedBytes) + MAX_PACKET < MAX_QUEUE
    {
      hide Outgoing, Queued, Incoming, Handled, Answered, Forwards, Refuses, Refusals;
      match tunRead
      case NoPacket =>
      case TunClosed => Fail();
      case GotPacket(bytes) =>
        ghost var r := Read(bytes, queuedBytes + MAX_PACKET < MAX_QUEUE);
        OnTunPacket(bytes);
        tunIn := tunIn + [r];
        ReadingSnoc(old(enqueued), old(dropped), old(tunIn), old(accepted), old(packets), r);
    }

    method SendSocket(send: SocketSend)
      requires Outgoing() && Incoming() && !error && sendOffset <= |outbound|
      modifies `outbound, `sendOffset, `socketOut, `error
      ensures Outgoing() && Incoming()
      ensures |outbound| - sendOffset <= old(|outbound| - sendOffset) && old(socketOut) <= socketOut
      ensures error <==> send.SendFailed?
      ensures !error ==> |socketOut| == |old(socketOut)| + SentOf(send, true, old(|outbound| - sendOffset))
    {
      hide Incoming;
      match send
      case NotSent =>
      case SendFailed => Fail();
      case Sent(count) => OnSocketSent(Min(count, |outbound| - sendOffset));
    }

    method ReceiveSocket(recv: SocketRead)
      requires Queued() && Incoming() && !error
      modifies `incoming, `packets, `queuedBytes, `enqueued, `socketIn, `error
      ensures Queued() && Incoming() && old(packets) <= packets
      ensures Refusals(enqueued) == old(Refusals(enqueued))
      ensures error <==> FailsIn(true, recv, old(socketIn))
      ensures error ==> recv.SocketClosed? || CutAll(Phone, socketIn).broken
      ensures !error ==> socketIn == old(socketIn) + Given(recv, true)
      ensures !error ==> queuedBytes + |incoming| == old(queuedBytes + |incoming|) + |Given(recv, true)|
    {
      hide Queued, Incoming, CutAll, Refusals;
      match recv
      case NoData =>
      case SocketClosed => Fail();
      case GotData(bytes) => OnSocketData(bytes);
    }
  }

  lemma StartCutting(c: Cut)
    ensures Then(Cut([], [], false), c) == c
  {
  }

  lemma StopCutting(done: seq<seq<byte>>, rest: seq<byte>)
    ensures Then(Cut(done, [], false), Cut([], rest, false)) == Cut(done, rest, false)
  {
  }

  /** One turn of the loop against the cut of the bytes that are left. */
  lemma CutFront(now: seq<byte>, done: seq<seq<byte>>)
    ensures var c := Then(Cut(done, [], false), CutAll(Phone, now));
            match FrontOf(Phone, now)
            case More => c == Cut(done, now, false)
            case Bad => c == Cut(done, now, true)
            case Frame(n) => c == Then(Cut(done + [now[..n]], [], false), CutAll(Phone, now[n..]))
  {
    hide FrontOf;
    var f := FrontOf(Phone, now);
    if f.Frame? {
      ThenAssociative(Cut(done, [], false), Cut([now[..f.n]], [], false), CutAll(Phone, now[f.n..]));
    }
  }
}
