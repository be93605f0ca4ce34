/** The packets of a TCP flow as bytes (relay/src/relay/packetizer.rs, tcp_connection.rs). */
module WireBytes {
  import opened Words
  import opened Headers
  import opened IpPackets
  import F = TcpFlows
  import T = TcpTheorems
  import Packetizers

  /** The flag bits of a TCP header. */
  function Bits(f: F.Flags): (b: u16)
    ensures b < 32
  {
    (if f.fin then 1 else 0) + (if f.syn then 2 else 0) + (if f.rst then 4 else 0)
    + (if f.psh then 8 else 0) + (if f.ack then 16 else 0)
  }

  /** Each flag at its place in section 3.1 of RFC 793, and no other: FIN lowest, then SYN, RST, PSH, ACK. */
  lemma BitsStand(f: F.Flags)
    ensures var b := Bits(f);
            && (f.fin <==> b % 2 == 1) && (f.syn <==> b / 2 % 2 == 1) && (f.rst <==> b / 4 % 2 == 1)
            && (f.psh <==> b / 8 % 2 == 1) && (f.ack <==> b / 16 == 1)
  {
  }

  /** No two sets of flags look alike on the wire. */
  lemma BitsTell(f: F.Flags, g: F.Flags)
    ensures Bits(f) == Bits(g) <==> f == g
  {
    BitsStand(f);
    BitsStand(g);
    hide Bits;
  }

  /** The numbers and flags of a TCP header are those of the image. */
  predicate Numbers(t: TransportData, image: F.Image) {
    t.TcpData? && t.seqNum == image.seqNum && t.ackNum == image.ackNum && t.flags == Bits(image.flags)
  }

  /**
   * `raw` is the packet `w` of a flow: its true size and payload, and the length, numbers and flags
   * that its header declares.
   */
  predicate Realises(raw: seq<byte>, headerLength: nat, w: F.Wire) {
    && 40 <= headerLength && |raw| == headerLength + |w.payload| && raw[headerLength..] == w.payload
    && raw[0] / 16 == 4 && Word(raw, 2) == w.image.total
    && var ti := raw[0] % 16 * 4;
       && 20 <= ti && ti + 20 <= headerLength
       && Numbers(ParseTcp(raw, ti), w.image)
  }

  /** What the packetizer builds for a packet that is sent at once is such a packet. */
  lemma ReplyRealises(raw: seq<byte>, ipv4: Ipv4HeaderData, t: TransportData, w: F.Wire)
    requires Packetizers.IsReply(raw, ipv4, t, w.payload) && ipv4.version == 4 && Numbers(t, w.image)
    requires w.image.total == |raw|
    ensures Realises(raw, ipv4.headerLength + TransportHeaderLength(t), w)
  {
    assert t.TcpData?;
    hide Numbers;
    assert ParseIpv4(raw) == ipv4.(totalLength := |raw|);
    assert ParseIpv4(raw).headerLength == raw[0] % 16 * 4;
  }

  /** So is what it inflates from a buffer whose headers were built for another packet since. */
  lemma LateRealises(b: seq<byte>, ipv4: Ipv4HeaderData, t: TransportData, headerLength: nat, w: F.Wire)
    requires |b| >= headerLength + |w.payload| && 40 <= headerLength
    requires ParseIpv4(b) == ipv4 && ipv4.version == 4 && ipv4.totalLength == w.image.total
    requires 20 <= ipv4.headerLength && ipv4.headerLength + 20 <= headerLength
    requires t == ParseTcp(b, ipv4.headerLength) && Numbers(t, w.image)
    requires b[headerLength..headerLength + |w.payload|] == w.payload
    ensures Realises(b[..headerLength + |w.payload|], headerLength, w)
  {
    hide Numbers;
    var raw := b[..headerLength + |w.payload|];
    Packetizers.RawParses(b, |raw|, ipv4.headerLength, t);
    assert ParseIpv4(raw).headerLength == raw[0] % 16 * 4;
  }

  /** The phone takes such bytes for a packet exactly if the flow's packet declares its true length. */
  lemma RealisedIsWellFormedIff(raw: seq<byte>, headerLength: nat, w: F.Wire)
    requires Realises(raw, headerLength, w)
    ensures IsWellFormedIpPacket(raw) <==> T.WellFramed(headerLength, w)
  {
    hide Numbers;
  }

  /** `raws` are the packets `ws` of a flow, one by one. */
  predicate AllRealised(headerLength: nat, raws: seq<seq<byte>>, ws: seq<F.Wire>) {
    |raws| == |ws| && forall i | 0 <= i < |ws| :: Realises(raws[i], headerLength, ws[i])
  }

  lemma RealisedSnoc(headerLength: nat, raws: seq<seq<byte>>, ws: seq<F.Wire>, raw: seq<byte>, w: F.Wire)
    requires AllRealised(headerLength, raws, ws) && Realises(raw, headerLength, w)
    ensures AllRealised(headerLength, raws + [raw], ws + [w])
  {
    hide Realises;
  }
}
