/**
 * Which packets the relay delivers, drops and takes for malformed, in terms of the header fields
 * (relay/src/relay/ip_packet.rs, ipv6_packet.rs).
 */
module Verdicts {
  import opened Words
  import opened Headers
  import opened IpPackets
  import opened Framing
  import opened Packetizers

  /** The TCP header lies within the packet and is no shorter than the fixed part. */
  predicate TcpFits(raw: seq<byte>, at: nat) {
    at + 20 <= |raw| && 20 <= TransportHeaderLength(ParseTcp(raw, at)) <= |raw| - at
  }

  /** The UDP length is that of the datagram. */
  predicate UdpFits(raw: seq<byte>, at: nat) {
    at + UDP_HEADER_LENGTH <= |raw| && at + Word(raw, at + 4) == |raw|
  }

  /** A transport header that the relay can use, of a protocol it looks into. */
  predicate TransportFits(raw: seq<byte>, at: nat, protocol: Protocol) {
    match protocol
    case Tcp => TcpFits(raw, at)
    case Udp => UdpFits(raw, at)
    case Other => true
  }

  /** More Fragments, and the 13 bits of the offset: section 3.1 of RFC 791.  Don't Fragment is not asked. */
  predicate IsFragment(raw: seq<byte>)
    requires |raw| >= 20
  {
    Word(raw, 6) % 0x4000 != 0
  }

  lemma TransportVerdict(raw: seq<byte>, at: nat, protocol: Protocol)
    requires at <= |raw| && protocol != Other
    ensures var v := if protocol == Tcp then TcpVerdict(raw[at..]) else UdpVerdict(raw[at..]);
            v == if TransportFits(raw, at, protocol) then Deliver else Malformed
  {
    var payload := raw[at..];
    if protocol == Tcp && |payload| >= 20 {
      assert payload[12] == raw[at + 12];
      assert Word(raw, at + 12) / 4096 == raw[at + 12] / 16;
    } else if |payload| >= 8 {
      assert payload[4] == raw[at + 4] && payload[5] == raw[at + 5];
    }
  }

  lemma FragmentBits(high: byte, low: byte)
    ensures FromBe16(high, low) % 0x4000 != 0 <==> high / 32 % 2 != 0 || high % 32 != 0 || low != 0
  {
  }

  /**
   * A framed IPv4 packet is dropped exactly if it is a fragment; any other is delivered exactly if
   * its transport header fits, and is malformed otherwise.
   */
  lemma Ipv4VerdictSays(raw: seq<byte>)
    requires IsWellFormedIpPacket(raw) && !IsIpv6(raw)
    ensures var h := ParseIpv4(raw);
            ParseVerdict(raw) ==
            if IsFragment(raw) then Drop(Ipv4Fragment)
            else if TransportFits(raw, h.headerLength, h.protocol) then Deliver
            else Malformed
  {
    var h := ParseIpv4(raw);
    FragmentBits(raw[6], raw[7]);
    assert raw[h.headerLength..h.totalLength] == raw[h.headerLength..];
    if h.protocol != Other {
      TransportVerdict(raw, h.headerLength, h.protocol);
    }
    hide TcpVerdict, UdpVerdict, TransportFits;
  }

  /** The extension headers that RFC 8200 and its companions define, but for the fragment header. */
  predicate IsExtension(h: byte) {
    h == 0 || h == 43 || h == 50 || h == 51 || h == 60 || h == 135
  }

  /**
   * A framed IPv6 packet is delivered exactly if TCP or UDP follows the fixed header at once and
   * fits; of everything else the relay only tells the kind.
   */
  lemma Ipv6VerdictSays(raw: seq<byte>)
    requires IsWellFormedIpPacket(raw) && IsIpv6(raw)
    ensures var protocol := ProtocolOf(raw[6]);
            if protocol != Other then
              ParseVerdict(raw) == if TransportFits(raw, 40, protocol) then Deliver else Malformed
            else if raw[6] == 44 then ParseVerdict(raw) == Drop(Ipv6Fragment)
            else if IsExtension(raw[6]) then ParseVerdict(raw) == Drop(Ipv6Extension(raw[6]))
            else ParseVerdict(raw) == Drop(Ipv6NextHeader(raw[6]))
  {
    assert raw[40..40 + Word(raw, 4)] == raw[40..];
    if ProtocolOf(raw[6]) != Other {
      TransportVerdict(raw, 40, ProtocolOf(raw[6]));
    }
    hide TcpVerdict, UdpVerdict, TransportFits;
  }

  /** What the relay builds over IPv4 the relay's own parser would deliver. */
  lemma Ipv4ReplyIsDelivered(raw: seq<byte>, ipv4: Ipv4HeaderData, t: TransportData, payload: seq<byte>)
    requires IsReply(raw, ipv4, t, payload) && ipv4.version == 4 && ipv4.protocol == KindOf(t)
    requires !IsFragment(raw)
    ensures ParseVerdict(raw) == Deliver
  {
    assert ParseIpv4(raw).version == 4;
    Ipv4VerdictSays(raw);
    hide ParseIpv4, ParseTcp, ParseUdp, ParseVerdict;
  }

  /**
   * A client goes on after a framed packet exactly unless its transport header does not fit: the
   * relay gives up on the stream there.
   */
  lemma GivesUpIff(raw: seq<byte>)
    requires IsWellFormedIpPacket(raw)
    ensures CutAll(Relay, raw).broken <==>
            if IsIpv6(raw) then !TransportFits(raw, 40, ProtocolOf(raw[6]))
            else !IsFragment(raw) && !TransportFits(raw, ParseIpv4(raw).headerLength, ParseIpv4(raw).protocol)
  {
    hide ParseVerdict, TcpFits, UdpFits, FrontOf, ParseIpv4, CutAll, IsFragment;
    if IsIpv6(raw) {
      Ipv6VerdictSays(raw);
    } else {
      Ipv4VerdictSays(raw);
    }
    hide IsIpv6, IsWellFormedIpPacket, IsExtension;
    CutWhole(raw);
  }

  /** The stream that is one framed packet. */
  lemma CutWhole(raw: seq<byte>)
    requires IsWellFormedIpPacket(raw)
    ensures CutAll(Relay, raw).broken <==> ParseVerdict(raw).Malformed?
  {
    hide ParseVerdict, IsWellFormedIpPacket, FrontOf;
    WellFormedFront(Relay, raw, raw);
    assert raw[..|raw|] == raw && raw[|raw|..] == [];
    EmptyFront(Relay);
    CutNothing(Relay, []);
  }

  /** Protocol numbers 6 and 17: a plain TCP segment and a plain UDP datagram are delivered. */
  lemma PlainPacketIsDelivered(raw: seq<byte>)
    requires |raw| >= 28 && raw[0] == 0x45 && Word(raw, 2) == |raw| && (Word(raw, 6) == 0 || Word(raw, 6) == 0x4000)
    requires (raw[9] == 6 && |raw| >= 40 && raw[32] == 0x50) || (raw[9] == 17 && Word(raw, 24) == |raw| - 20)
    ensures ParseVerdict(raw) == Deliver && !CutAll(Relay, raw).broken
  {
    hide CutAll, ParseVerdict, ParseIpv4, IsFragment, Word, ParseTcp, IsWellFormedIpPacket, IsIpv6;
    PlainHeader(raw);
    Ipv4VerdictSays(raw);
    GivesUpIff(raw);
  }

  lemma PlainHeader(raw: seq<byte>)
    requires |raw| >= 28 && raw[0] == 0x45 && Word(raw, 2) == |raw| && (Word(raw, 6) == 0 || Word(raw, 6) == 0x4000)
    ensures IsWellFormedIpPacket(raw) && !IsIpv6(raw) && !IsFragment(raw)
    ensures ParseIpv4(raw).headerLength == 20 && ParseIpv4(raw).protocol == ProtocolOf(raw[9])
    ensures |raw| >= 40 && raw[32] == 0x50 ==> TransportHeaderLength(ParseTcp(raw, 20)) == 20
  {
    hide DoubleWord;
    if |raw| >= 40 && raw[32] == 0x50 {
      assert Word(raw, 32) / 4096 == 5;
    }
  }
}
