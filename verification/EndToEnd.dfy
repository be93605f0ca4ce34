/** The link as a whole: what one end takes in, the other end gets. */
module EndToEnd {
  import opened Words
  import opened IpPackets
  import opened Framing
  import opened Headers
  import Packetizers
  import Ipv6Packetizers
  import Clients
  import Tunnels

  // ---------------------------------------------------------------------------------------
  // Everything the relay builds declares its own length
  // ---------------------------------------------------------------------------------------

  lemma Ipv4ReplyIsWellFormed(raw: seq<byte>, ipv4: Ipv4HeaderData, t: TransportData, payload: seq<byte>)
    requires Packetizers.IsReply(raw, ipv4, t, payload) && ipv4.version == 4
    ensures IsWellFormedIpPacket(raw) && !IsIpv6(raw)
  {
    assert ParseIpv4(raw).version == 4 && ParseIpv4(raw).headerLength == ipv4.headerLength;
  }

  lemma Ipv6ReplyIsWellFormed(raw: seq<byte>, nextHeader: byte, source: seq<byte>, destination: seq<byte>,
                              t: TransportData, payload: seq<byte>)
    requires Ipv6Packetizers.IsReply6(raw, nextHeader, source, destination, t, payload)
    ensures IsWellFormedIpPacket(raw) && IsIpv6(raw)
  {
  }

  // ---------------------------------------------------------------------------------------
  // Relay to phone
  // ---------------------------------------------------------------------------------------

  /** What the relay has written is a beginning of its id and the packets that it accepted. */
  lemma WireIsPrefix(c: Clients.Client)
    requires c.Valid()
    ensures c.wire <= Be32(c.id) + Flatten(c.accepted)
  {
    var id := Be32(c.id);
    if c.pendingIdBytes > 0 {
      assert c.wire == id[..4 - c.pendingIdBytes];
    } else {
      assert id[..4] == id;
      assert c.wire == id + c.wire[4..];
      assert c.wire[4..] <= Flatten(c.accepted);
    }
  }

  /**
   * Whatever part of the wire the phone has read, in whatever pieces, it has the id, and then
   * exactly the accepted packets that have arrived whole.
   */
  lemma PhoneRecovers(id: u32, wire: seq<byte>, accepted: seq<seq<byte>>, read: seq<byte>, chunks: seq<seq<byte>>)
    requires wire <= Be32(id) + Flatten(accepted)
    requires read <= wire && |read| >= 4 && Flatten(chunks) == read[4..]
    requires AllWellFormed(accepted)
    ensures FromBe32(read[0], read[1], read[2], read[3]) == id
    ensures |read| - 4 <= |Flatten(accepted)|
    ensures var c := FeedAll(Phone, chunks);
            !c.broken && c.frames == accepted[..WholeWithin(accepted, |read| - 4)]
  {
    var s := Be32(id) + Flatten(accepted);
    assert read == s[..|read|];
    Be32RoundTrip(id);
    assert read[4..] == Flatten(accepted)[..|read| - 4];
    ChunkIndependence(Phone, chunks);
    LinkRecoversPackets(Phone, accepted, |read| - 4);
  }

  // ---------------------------------------------------------------------------------------
  // Phone to relay
  // ---------------------------------------------------------------------------------------

  /** The packets before the first that the relay takes for malformed. */
  function UntilRefused(ps: seq<seq<byte>>): (qs: seq<seq<byte>>)
    ensures qs <= ps
  {
    if ps == [] || Refused(Relay, ps[0]) then [] else [ps[0]] + UntilRefused(ps[1..])
  }

  /**
   * Every tun packet that the tunnel forwards is framed by the relay at exactly its size; only a
   * malformed transport header makes the relay give up, and then at that very packet.
   */
  lemma {:induction false} RelayRecovers(accepted: seq<seq<byte>>)
    requires AllWellFormed(accepted)
    ensures var c := CutAll(Relay, Flatten(accepted));
            && c.frames == UntilRefused(accepted)
            && (c.broken <==> |UntilRefused(accepted)| < |accepted|)
  {
    hide IsWellFormedIpPacket, FrontOf, Refused;
    if accepted == [] {
      EmptyFront(Relay);
      CutNothing(Relay, []);
    } else {
      var p, rest := accepted[0], accepted[1..];
      var data := Flatten(accepted);
      assert p in accepted;
      assert p <= data && data[..|p|] == p && data[|p|..] == Flatten(rest);
      WellFormedFront(Relay, p, data);
      if !Refused(Relay, p) {
        CutFrame(Relay, data, |p|);
        RelayRecovers(rest);
      }
    }
  }

  /** A part of the tunnel's output gives the relay a part of those packets, and nothing else. */
  lemma RelayReadsTunnel(t: Tunnels.Tunnel, c: Clients.Client)
    requires t.Valid() && c.Valid() && c.received <= t.socketOut
    ensures c.handled <= UntilRefused(t.accepted)
  {
    var all := Flatten(t.accepted);
    assert c.received <= all;
    assert c.received + all[|c.received|..] == all;
    CutInTwo(Relay, c.received, all[|c.received|..]);
    RelayRecovers(t.accepted);
  }
}
