/**
 * The relay's end of the link to one phone (relay/src/relay/client.rs, ip_packet_buffer.rs):
 * packets go out over a byte ring behind the 4-byte client id, and packets come in through the
 * relay's deframer.
 */
module Clients {
  import opened Words
  import opened StreamBuffers
  import opened ByteBuffers
  import opened IpPackets
  import opened Framing

  const LINK_CAPACITY: nat := 16 * 0x1_0000

  /** What `IpPacketBuffer::packet` finds at the front of the buffer. */
  datatype Parsed = NoPacket | Whole(raw: seq<byte>, verdict: Verdict) | MalformedFront

  class IpPacketBuffer {
    const buf: ByteBuffer

    ghost predicate Valid()
      reads this, buf
    {
      buf.Valid() && buf.buf.Length == MAX_IP_PACKET_LENGTH
    }

    ghost function Contents(): (s: seq<byte>)
      reads this, buf, buf.buf
      requires Valid()
    {
      buf.Contents()
    }

    constructor ()
      ensures Valid() && fresh(buf) && fresh(buf.buf) && Contents() == []
    {
      buf := new ByteBuffer(MAX_IP_PACKET_LENGTH);
    }

    method Packet() returns (p: Parsed)
      requires Valid()
      ensures match FrontOf(Relay, Contents())
              case More => p == NoPacket
              case Bad => p == MalformedFront
              case Frame(n) => p == Whole(Contents()[..n], ParseVerdict(Contents()[..n]))
    {
      var raw := buf.Peek();
      match RelayFront(raw)
      case More => p := NoPacket;
      case Bad => p := MalformedFront;
      case Frame(n) => p := Whole(raw[..n], ParseVerdict(raw[..n]));
    }

    /** Some(true): a packet was consumed; Some(false): none is complete; None: malformed. */
    method Next() returns (r: Option<bool>)
      requires Valid()
      modifies buf, buf.buf
      ensures Valid()
      ensures match FrontOf(Relay, old(Contents()))
              case More => r == Some(false) && Contents() == old(Contents())
              case Bad => r == None && Contents() == old(Contents())
              case Frame(n) => r == Some(true) && Contents() == old(Contents())[n..]
    {
      var raw := buf.Peek();
      match RelayFront(raw)
      case More => r := Some(false);
      case Bad => r := None;
      case Frame(n) =>
        buf.Consume(n);
        r := Some(true);
    }
  }

  class Client {
    const id: u32
    const clientToNetwork: IpPacketBuffer
    const networkToClient: StreamBuffer
    var pendingIdBytes: nat
    var closed: bool
    ghost var wire: seq<byte>               // bytes written to the phone
    ghost var accepted: seq<seq<byte>>      // packets taken for the phone
    ghost var received: seq<byte>           // bytes read from the phone
    ghost var handled: seq<seq<byte>>       // packets cut off the stream, delivered or dropped
    ghost var delivered: seq<seq<byte>>     // packets given to the router

    ghost predicate Valid()
      reads this, clientToNetwork, clientToNetwork.buf, clientToNetwork.buf.buf
      reads networkToClient, networkToClient.buf
    {
      && clientToNetwork.Valid() && networkToClient.Valid()
      && clientToNetwork.buf.buf != networkToClient.buf
      && networkToClient.buf.Length == LINK_CAPACITY + 1
      && pendingIdBytes <= 4
      && Outgoing()
      && Incoming()
    }

    /** The phone has a beginning of the id and then of the accepted packets; the ring has the rest. */
    ghost predicate Outgoing()
      reads `pendingIdBytes, `wire, `accepted, networkToClient, networkToClient.buf
      requires networkToClient.Valid() && pendingIdBytes <= 4
    {
      var sent := Be32(id)[..4 - pendingIdBytes];
      if pendingIdBytes > 0 then wire == sent && networkToClient.Contents() == Flatten(accepted)
      else sent <= wire && wire[4..] + networkToClient.Contents() == Flatten(accepted)
    }

    /** All that was read has been cut up, and what is left over is in the buffer. */
    ghost predicate Incoming()
      reads `closed, `received, `handled, `delivered, clientToNetwork, clientToNetwork.buf, clientToNetwork.buf.buf
      requires clientToNetwork.Valid()
    {
      var c := CutAll(Relay, received);
      && handled == c.frames && delivered == Delivered(handled)
      && (!closed ==> !c.broken && clientToNetwork.Contents() == c.rest)
    }

    constructor (id: u32)
      ensures Valid() && !closed && pendingIdBytes == 4
      ensures wire == [] && accepted == [] && received == [] && handled == [] && delivered == []
      ensures fresh(clientToNetwork.buf) && fresh(clientToNetwork.buf.buf)
      ensures fresh(networkToClient) && fresh(networkToClient.buf)
    {
      this.id := id;
      clientToNetwork := new IpPacketBuffer();
      networkToClient := new StreamBuffer(LINK_CAPACITY);
      pendingIdBytes := 4;
      closed := false;
      wire, accepted, received, handled, delivered := [], [], [], [], [];
    }

    /** A packet is taken whole, or refused for want of room. */
    method SendRawToClient(raw: seq<byte>) returns (ok: bool)
      requires Valid()
      modifies `accepted, networkToClient`head, networkToClient.buf
      ensures Valid()
      ensures ok <==> |old(networkToClient.Contents())| + |raw| <= LINK_CAPACITY
      ensures accepted == if ok then old(accepted) + [raw] else old(accepted)
      ensures networkToClient.Contents() == old(networkToClient.Contents()) + if ok then raw else []
    {
      hide CutAll;
      var remaining := networkToClient.Remaining();
      ok := |raw| <= remaining;
      if ok {
        FlattenSnoc(accepted, raw);
        networkToClient.ReadFrom(raw);
        accepted := accepted + [raw];
      }
    }

    method Close()
      requires Valid()
      modifies `closed
      ensures Valid() && closed
    {
      closed := true;
    }

    /** The phone's socket takes up to `budget` bytes of the id, or fails. */
    method SendId(budget: nat, fails: bool) returns (ok: bool)
      requires Valid() && pendingIdBytes > 0
      modifies `pendingIdBytes, `wire
      ensures Valid() && ok == !fails
      ensures pendingIdBytes == old(pendingIdBytes) - if fails then 0 else Min(budget, old(pendingIdBytes))
      ensures old(wire) <= wire
    {
      hide CutAll, Be32;
      ok := !fails;
      if ok {
        var w := Min(budget, pendingIdBytes);
        ghost var raw := Be32(id);
        ghost var at := 4 - pendingIdBytes;
        assert raw[..at] + raw[at..at + w] == raw[..at + w];
        wire := wire + raw[at..at + w];
        pendingIdBytes := pendingIdBytes - w;
      }
    }

    /**
     * The phone's socket takes up to `budget` bytes; no packet byte precedes the id.  After a write
     * of packet bytes the waiting packets are offered to the room that there is now.
     */
    method ProcessSend(budget: nat, fails: bool, blocks: bool, waiting: seq<seq<byte>>) returns (kept: seq<seq<byte>>)
      requires Valid() && !closed
      modifies `closed, `pendingIdBytes, `wire, `accepted
      modifies networkToClient`head, networkToClient`tail, networkToClient.buf
      ensures Valid() && old(wire) <= wire
      ensures closed <==> if old(pendingIdBytes) > 0 then fails && !blocks
                          else (fails || blocks) && old(networkToClient.Contents()) != []
      ensures if old(pendingIdBytes) > 0 || closed then kept == waiting && accepted == old(accepted)
              else
                var free := LINK_CAPACITY - |old(networkToClient.Contents())| + |wire| - |old(wire)|;
                free >= 0 && accepted == old(accepted) + Taken(free, waiting) && kept == KeptOf(free, waiting, waiting)
    {
      hide Incoming, Outgoing, Taken, KeptOf;
      kept := waiting;
      if pendingIdBytes > 0 {
        var ok := SendId(budget, fails || blocks);
        if !ok && !blocks {
          Close();
        }
      } else {
        var ok := Write(budget, fails || blocks);
        if ok {
          kept := ProcessPending(waiting);
        } else {
          Close();
        }
      }
    }

    /** Each waiting packet is taken if there is room for it, and otherwise waits on. */
    method ProcessPending(waiting: seq<seq<byte>>) returns (kept: seq<seq<byte>>)
      requires Valid()
      modifies `accepted, networkToClient`head, networkToClient.buf
      ensures Valid()
      ensures var free := LINK_CAPACITY - |old(networkToClient.Contents())|;
              free >= 0 && accepted == old(accepted) + Taken(free, waiting) && kept == KeptOf(free, waiting, waiting)
    {
      hide Outgoing, Incoming, Taken, KeptOf;
      kept := [];
      ghost var free := LINK_CAPACITY - |networkToClient.Contents()|;
      ghost var all, left := Taken(free, waiting), KeptOf(free, waiting, waiting);
      assert waiting[0..] == waiting;
      for i := 0 to |waiting|
        invariant Valid()
        invariant var now := LINK_CAPACITY - |networkToClient.Contents()|;
                  && now >= 0
                  && old(accepted) + all == accepted + Taken(now, waiting[i..])
                  && left == kept + KeptOf(now, waiting[i..], waiting[i..])
      {
        TakeOne(LINK_CAPACITY - |networkToClient.Contents()|, waiting[i..]);
        assert waiting[i..][1..] == waiting[i + 1..];
        var ok := SendRawToClient(waiting[i]);
        if !ok {
          kept := kept + [waiting[i]];
        }
      }
      TakeNothing(LINK_CAPACITY - |networkToClient.Contents()|);
    }

    method Write(budget: nat, fails: bool) returns (ok: bool)
      requires Valid() && pendingIdBytes == 0
      modifies `wire, networkToClient`head, networkToClient`tail
      ensures Valid() && old(wire) <= wire
      ensures !ok <==> fails && old(networkToClient.Contents()) != []
      ensures |networkToClient.Contents()| + |wire| == |old(networkToClient.Contents())| + |old(wire)|
    {
      hide CutAll, Be32;
      ghost var ring := networkToClient.Contents();
      var written := networkToClient.WriteTo(budget, fails);
      ok := written.Some?;
      if ok {
        WireGrows(Be32(id)[..4], wire, ring, written.value, networkToClient.Contents());
        wire := wire + written.value;
      }
    }

    /** Hands a parsed packet to the router, or drops an unsupported one; malformed bytes close. */
    method PushOnePacketToNetwork() returns (handledOne: bool)
      requires clientToNetwork.Valid() && !closed
      modifies `closed, `delivered
      ensures match FrontOf(Relay, clientToNetwork.Contents())
              case More => !handledOne && !closed && delivered == old(delivered)
              case Bad => !handledOne && closed && delivered == old(delivered)
              case Frame(n) =>
                var raw := clientToNetwork.Contents()[..n];
                && handledOne == !Refused(Relay, raw) && closed == !handledOne
                && delivered == old(delivered) + if ParseVerdict(raw) == Deliver then [raw] else []
    {
      var p := clientToNetwork.Packet();
      match p
      case NoPacket => handledOne := false;
      case MalformedFront =>
        closed := true;
        handledOne := false;
      case Whole(raw, verdict) =>
        match verdict {
          case Deliver =>
            delivered := delivered + [raw];
            handledOne := true;
          case Drop(_) => handledOne := true;
          case Malformed =>
            closed := true;
            handledOne := false;
        }
    }

    /** One turn of the loop below: `next` cannot fail after a packet was handled. */
    method PushTurn() returns (more: bool)
      requires clientToNetwork.Valid() && !closed
      modifies `closed, `handled, `delivered, clientToNetwork.buf, clientToNetwork.buf.buf
      ensures clientToNetwork.Valid()
      ensures var now := old(clientToNetwork.Contents());
              var f := FrontOf(Relay, now);
              if f.Frame? && !Refused(Relay, now[..f.n]) then
                && more && !closed && clientToNetwork.Contents() == now[f.n..]
                && handled == old(handled) + [now[..f.n]]
                && delivered == old(delivered) + Delivered([now[..f.n]])
              else
                && !more && closed == !f.More? && clientToNetwork.Contents() == now
                && handled == old(handled) && delivered == old(delivered)
    {
      hide FrontOf;
      ghost var now := clientToNetwork.Contents();
      more := PushOnePacketToNetwork();
      if more {
        ghost var frame := now[..FrontOf(Relay, now).n];
        DeliveredSnoc([], frame);
        assert [] + [frame] == [frame];
        handled := handled + [frame];
        var next := clientToNetwork.Next();
        more := next == Some(true);
      }
    }

    /**
     * Delivers or drops packet after packet until none is complete, and closes the client at the
     * first malformed one.  Each turn consumes at least 20 bytes.
     */
    method PushToNetwork()
      requires clientToNetwork.Valid() && !closed
      modifies `closed, `handled, `delivered, clientToNetwork.buf, clientToNetwork.buf.buf
      ensures clientToNetwork.Valid()
      ensures var c := CutAll(Relay, old(clientToNetwork.Contents()));
              && handled == old(handled) + c.frames
              && delivered == old(delivered) + Delivered(c.frames)
              && closed == c.broken
              && (!closed ==> clientToNetwork.Contents() == c.rest)
    {
      hide CutAll, FrontOf, Refused, Delivered;
      ghost var data := clientToNetwork.Contents();
      ghost var done: seq<seq<byte>> := [];
      ThenNothing(CutAll(Relay, data));
      DeliveredNothing();
      var more := true;
      while more
        invariant clientToNetwork.Valid()
        invariant handled == old(handled) + done && delivered == old(delivered) + Delivered(done)
        invariant more ==> !closed
        invariant CutAll(Relay, data) ==
                  if more then Then(Cut(done, [], false), CutAll(Relay, clientToNetwork.Contents()))
                  else Cut(done, clientToNetwork.Contents(), closed)
        decreases more, |clientToNetwork.Contents()|
      {
        ghost var now := clientToNetwork.Contents();
        CutFront(now, done);
        more := PushTurn();
        if more {
          ghost var frame := now[..FrontOf(Relay, now).n];
          DeliveredAppend(done, [frame]);
          done := done + [frame];
        }
      }
    }

    /**
     * One read of the phone's stream.  There is always room, so only the end of the stream reads
     * nothing.
     */
    method ProcessReceive(incoming: seq<byte>, fails: bool, blocks: bool)
      requires Valid() && !closed
      modifies `closed, `handled, `delivered, `received, clientToNetwork.buf, clientToNetwork.buf.buf
      ensures Valid()
      ensures old(received) <= received <= old(received) + incoming
      ensures incoming != [] && !fails && !blocks ==> old(received) < received
      ensures closed <==> if fails || blocks then !blocks else incoming == [] || CutAll(Relay, received).broken
    {
      hide CutAll, Be32, Outgoing;
      if fails || blocks {
        if !blocks {
          Close();
        }
        return;
      }
      ghost var rest := clientToNetwork.Contents();
      var n := Min(|incoming|, MAX_IP_PACKET_LENGTH - clientToNetwork.buf.head);
      LeftOverIsShort(received);
      CutInTwo(Relay, received, incoming[..n]);
      DeliveredAppend(handled, CutAll(Relay, rest + incoming[..n]).frames);
      var any := clientToNetwork.buf.ReadFrom(incoming);
      received := received + incoming[..n];
      if any {
        PushToNetwork();
      } else {
        assert incoming[..n] == [] && received == old(received);
        Close();
      }
    }
  }

  /** Of packets offered in order to `free` bytes of room, those that are taken. */
  function Taken(free: nat, waiting: seq<seq<byte>>): seq<seq<byte>> {
    if waiting == [] then []
    else if |waiting[0]| <= free then [waiting[0]] + Taken(free - |waiting[0]|, waiting[1..])
    else Taken(free, waiting[1..])
  }

  /** What belongs to the other packets, in order. */
  function KeptOf<T>(free: nat, waiting: seq<seq<byte>>, xs: seq<T>): seq<T>
    requires |xs| == |waiting|
  {
    if waiting == [] then []
    else if |waiting[0]| <= free then KeptOf(free - |waiting[0]|, waiting[1..], xs[1..])
    else [xs[0]] + KeptOf(free, waiting[1..], xs[1..])
  }

  lemma TakeOne(free: nat, waiting: seq<seq<byte>>)
    requires waiting != []
    ensures var p, rest := waiting[0], waiting[1..];
            if |p| <= free then
              && Taken(free, waiting) == [p] + Taken(free - |p|, rest)
              && KeptOf(free, waiting, waiting) == KeptOf(free - |p|, rest, rest)
            else
              && Taken(free, waiting) == Taken(free, rest)
              && KeptOf(free, waiting, waiting) == [p] + KeptOf(free, rest, rest)
  {
  }

  lemma TakeNothing(free: nat)
    ensures Taken(free, []) == [] && KeptOf<seq<byte>>(free, [], []) == []
  {
  }

  /** Moving bytes from the ring to the wire keeps what both hold behind the id. */
  lemma WireGrows(sent: seq<byte>, wire: seq<byte>, ring: seq<byte>, written: seq<byte>, rest: seq<byte>)
    requires |sent| == 4 && sent <= wire && ring == written + rest
    ensures sent <= wire + written
    ensures (wire + written)[4..] + rest == wire[4..] + ring
  {
  }

  /** The packets that the router is given. */
  function Delivered(ps: seq<seq<byte>>): (ds: seq<seq<byte>>) {
    if ps == [] then []
    else
      var p := ps[|ps| - 1];
      Delivered(ps[..|ps| - 1]) + if ParseVerdict(p) == Deliver then [p] else []
  }

  lemma DeliveredNothing()
    ensures Delivered([]) == []
  {
  }

  lemma DeliveredSnoc(ps: seq<seq<byte>>, p: seq<byte>)
    ensures Delivered(ps + [p]) == Delivered(ps) + if ParseVerdict(p) == Deliver then [p] else []
  {
    assert (ps + [p])[..|ps|] == ps;
  }

  lemma {:induction false} DeliveredAppend(ps: seq<seq<byte>>, qs: seq<seq<byte>>)
    ensures Delivered(ps + qs) == Delivered(ps) + Delivered(qs)
  {
    if qs == [] {
      assert ps + qs == ps;
    } else {
      var q, rs := qs[|qs| - 1], qs[..|qs| - 1];
      DeliveredAppend(ps, rs);
      DeliveredSnoc(ps + rs, q);
      DeliveredSnoc(rs, q);
      assert ps + qs == (ps + rs) + [q] && qs == rs + [q];
    }
  }

  lemma LeftOverIsShort(data: seq<byte>)
    ensures !CutAll(Relay, data).broken ==> |CutAll(Relay, data).rest| < MAX_IP_PACKET_LENGTH
  {
  }

  lemma ThenNothing(c: Cut)
    ensures Then(Cut([], [], false), c) == c
  {
  }

  /** One turn of the loop against the cut of the bytes in the buffer. */
  lemma CutFront(now: seq<byte>, done: seq<seq<byte>>)
    ensures var c := Then(Cut(done, [], false), CutAll(Relay, now));
            match FrontOf(Relay, now)
            case More => c == Cut(done, now, false)
            case Bad => c == Cut(done, now, true)
            case Frame(n) =>
              if Refused(Relay, now[..n]) then c == Cut(done, now, true)
              else c == Then(Cut(done + [now[..n]], [], false), CutAll(Relay, now[n..]))
  {
    hide FrontOf, Refused;
    var f := FrontOf(Relay, now);
    if f.Frame? && !Refused(Relay, now[..f.n]) {
      ThenAssociative(Cut(done, [], false), Cut([now[..f.n]], [], false), CutAll(Relay, now[f.n..]));
    }
  }
}
