/** Replies built over one reused buffer (relay/src/relay/packetizer.rs, ipv4_packet.rs). */
module Packetizers {
  import opened Words
  import opened Splicing
  import opened Checksums
  import opened Headers

  const MAX_PACKET_LENGTH: nat := 0x1_0000

  /** `t` is what a parse of the transport header at `at` gives. */
  predicate TransportCached(b: seq<byte>, at: nat, t: TransportData)
    requires at + 20 <= |b|
  {
    match t
    case TcpData(_, _, _, _, _, _, _) => t == ParseTcp(b, at)
    case UdpData(_, _) => t == ParseUdp(b, at)
  }

  function KindOf(t: TransportData): Protocol { if t.TcpData? then Tcp else Udp }

  /** Offset of the checksum field, and where the length field lies that UDP alone has. */
  function ChecksumOffset(t: TransportData): nat { if t.TcpData? then 16 else 6 }

  lemma SliceKept(b: seq<byte>, c: seq<byte>, at: nat, n: nat, i: nat, j: nat)
    requires OnlyChanged(b, c, at, n) && i <= j <= |b| && (j <= at || at + n <= i)
    ensures b[i..j] == c[i..j]
  {
  }

  /** The IPv4 cache does not depend on the checksum, nor on what follows the fixed header. */
  lemma Ipv4Kept(b: seq<byte>, c: seq<byte>, at: nat, n: nat)
    requires |b| >= 20 && OnlyChanged(b, c, at, n) && (n == 0 || 20 <= at || (at == 10 && n == 2))
    ensures ParseIpv4(c) == ParseIpv4(b)
  {
  }

  /** The transport cache does not depend on the IP header, nor on UDP length and checksums. */
  lemma TransportKept(b: seq<byte>, c: seq<byte>, at: nat, n: nat, ti: nat, t: TransportData)
    requires ti + 20 <= |b| && OnlyChanged(b, c, at, n)
    requires n == 0 || at + n <= ti || ti + 16 <= at || (ti + 4 <= at && t.UdpData?)
    ensures TransportCached(b, ti, t) <==> TransportCached(c, ti, t)
  {
  }

  /** Nine flag bits below the seven bits of offset and reserved flags. */
  lemma FlagBits(x: u16, flags: u16)
    ensures var y := x / 512 * 512 + flags % 512;
            0 <= y < 0x1_0000 && y / 4096 == x / 4096 && y % 512 == flags % 512
  {
    var q := x / 512;
    var y := q * 512 + flags % 512;
    assert y / 512 == q && y / 4096 == q / 8;
  }

  lemma FlagsParse(b: seq<byte>, c: seq<byte>, ti: nat, t: TransportData, flags: u16)
    requires ti + 20 <= |b| && OnlyChanged(b, c, ti + 12, 2)
    requires t.TcpData? && t == ParseTcp(b, ti)
    requires Word(c, ti + 12) == Word(b, ti + 12) / 512 * 512 + flags % 512
    ensures ParseTcp(c, ti) == t.(flags := flags % 512)
  {
    FlagBits(Word(b, ti + 12), flags);
  }

  /** A copied header whose address fields were exchanged parses with exchanged addresses. */
  lemma SwappedIpv4(h: seq<byte>, b: seq<byte>, c: seq<byte>)
    requires 20 <= |h| <= |b| && OnlyChanged(b, c, 12, 8)
    requires forall k | 0 <= k < |h| :: b[k] == h[k]
    requires forall k | 12 <= k < 16 :: c[k] == b[k + 4]
    requires forall k | 16 <= k < 20 :: c[k] == b[k - 4]
    ensures var r := ParseIpv4(h); ParseIpv4(c) == r.(source := r.destination, destination := r.source)
  {
    assert c[12] == b[16] && c[13] == b[17] && c[14] == b[18] && c[15] == b[19];
    assert c[16] == b[12] && c[17] == b[13] && c[18] == b[14] && c[19] == b[15];
  }

  /** The header of the opposite direction. */
  function Turned(t: TransportData): TransportData {
    t.(sourcePort := t.destinationPort, destinationPort := t.sourcePort)
  }

  lemma TurnedParses(b: seq<byte>, ti: nat, h: seq<byte>)
    requires 8 <= |h| && ti + 20 <= |b| && ti + |h| <= |b|
    requires Word(b, ti) == Word(h, 2) && Word(b, ti + 2) == Word(h, 0)
    requires forall k | ti + 4 <= k < ti + |h| :: b[k] == h[k - ti]
    ensures |h| >= 20 ==> ParseTcp(b, ti) == Turned(ParseTcp(h, 0))
    ensures ParseUdp(b, ti) == Turned(ParseUdp(h, 0))
  {
  }

  /** The reference header of a TCP flow: 20 bytes, with the data offset set to 5. */
  method ShrinkOptions(raw: seq<byte>) returns (shrunk: seq<byte>)
    requires |raw| >= 20
    ensures |shrunk| == 20
    ensures var t := ParseTcp(raw, 0); t.TcpData? && ParseTcp(shrunk, 0) == t.(headerLength := 20)
  {
    var buf := new byte[20](i requires 0 <= i < 20 => raw[i]);
    var offsetAndFlags := FromBe16(buf[12], buf[13]);
    OffsetBits(offsetAndFlags, 5);
    Write16(buf, 12, offsetAndFlags % 4096 + 5 * 4096);
    shrunk := buf[..];
  }

  lemma OffsetBits(x: u16, offset: nat)
    requires offset < 16
    ensures var y := x % 4096 + offset * 4096;
            0 <= y < 0x1_0000 && y / 4096 == offset && y % 512 == x % 512
  {
    var r := x % 4096;
    assert x == x / 4096 * 4096 + r;
    assert (r + offset * 4096) % 512 == r % 512;
  }

  class Packetizer {
    const buffer: array<byte>
    const transportIndex: nat
    const payloadIndex: nat
    var ipv4: Ipv4HeaderData
    var transport: TransportData

    /** The cached headers are a parse of the raw ones. */
    ghost predicate Valid()
      reads this, buffer
    {
      && buffer.Length == MAX_PACKET_LENGTH
      && 20 <= transportIndex <= 60
      && transportIndex % 4 == 0
      && ipv4 == ParseIpv4(buffer[..])
      && ipv4.headerLength == transportIndex
      && ipv4.protocol == KindOf(transport)
      && TransportCached(buffer[..], transportIndex, transport)
      && payloadIndex == transportIndex + TransportHeaderLength(transport)
      && 8 <= TransportHeaderLength(transport) <= 60
      && (transport.TcpData? ==> 20 <= transport.headerLength && transport.headerLength % 4 == 0)
    }

    /**
     * Takes the headers of a parsed packet of the client and turns them round: source and
     * destination, addresses and ports, change places.
     */
    constructor (ipHeader: seq<byte>, transportHeader: seq<byte>)
      requires |ipHeader| >= 20 && ParseIpv4(ipHeader).headerLength == |ipHeader|
      requires |transportHeader| >= 8
      requires ParseIpv4(ipHeader).protocol == Tcp ==>
                 |transportHeader| >= 20 && ParseTcp(transportHeader, 0).headerLength == |transportHeader|
      requires ParseIpv4(ipHeader).protocol == Udp ==> |transportHeader| == 8
      requires ParseIpv4(ipHeader).protocol != Other
      ensures Valid() && fresh(buffer)
      ensures var r := ParseIpv4(ipHeader);
              && ipv4 == r.(source := r.destination, destination := r.source)
              && payloadIndex == |ipHeader| + |transportHeader|
              && transport == Turned(if r.protocol == Tcp then ParseTcp(transportHeader, 0)
                                     else ParseUdp(transportHeader, 0))
    {
      var b := new byte[MAX_PACKET_LENGTH](_ => 0);
      var ti := |ipHeader|;
      var r := ParseIpv4(ipHeader);
      buffer := b;
      transportIndex := ti;
      payloadIndex := ti + |transportHeader|;
      ipv4 := r.(source := r.destination, destination := r.source);
      transport := Turned(if r.protocol == Tcp then ParseTcp(transportHeader, 0) else ParseUdp(transportHeader, 0));
      new;
      hide ParseIpv4, ParseTcp, ParseUdp;
      FillHeaders(b, ipHeader, transportHeader);
    }

    /** Writes the IP header at the front of the buffer and swaps its addresses. */
    static method FillIpv4(b: array<byte>, ipHeader: seq<byte>)
      requires b.Length == MAX_PACKET_LENGTH && 20 <= |ipHeader| <= 60
      modifies b
      ensures var r := ParseIpv4(ipHeader);
              ParseIpv4(b[..]) == r.(source := r.destination, destination := r.source)
    {
      hide ParseIpv4, Spliced;
      SplicedInside(b[..], 0, ipHeader);
      CopyInto(b, 0, ipHeader);
      ghost var b1 := b[..];
      SwapFields(b, 12, 4);
      SwappedIpv4(ipHeader, b1, b[..]);
    }

    /** Writes the transport header at `ti` and swaps its ports. */
    static method FillTransport(b: array<byte>, ti: nat, transportHeader: seq<byte>)
      requires b.Length == MAX_PACKET_LENGTH && 20 <= ti <= 60 && 8 <= |transportHeader| <= 60
      modifies b
      ensures OnlyChanged(old(b[..]), b[..], ti, |transportHeader|)
      ensures Word(b[..], ti) == Word(transportHeader, 2) && Word(b[..], ti + 2) == Word(transportHeader, 0)
      ensures forall k | ti + 4 <= k < ti + |transportHeader| :: b[k] == transportHeader[k - ti]
    {
      SplicedInside(b[..], ti, transportHeader);
      CopyInto(b, ti, transportHeader);
      SwapFields(b, ti, 2);
    }

    /** Both headers, turned round. */
    static method FillHeaders(b: array<byte>, ipHeader: seq<byte>, transportHeader: seq<byte>)
      requires b.Length == MAX_PACKET_LENGTH && 20 <= |ipHeader| <= 60 && 8 <= |transportHeader| <= 60
      modifies b
      ensures var r := ParseIpv4(ipHeader);
              ParseIpv4(b[..]) == r.(source := r.destination, destination := r.source)
      ensures |transportHeader| >= 20 ==> ParseTcp(b[..], |ipHeader|) == Turned(ParseTcp(transportHeader, 0))
      ensures ParseUdp(b[..], |ipHeader|) == Turned(ParseUdp(transportHeader, 0))
    {
      hide ParseIpv4, ParseTcp, ParseUdp;
      FillIpv4(b, ipHeader);
      ghost var filled := b[..];
      FillTransport(b, |ipHeader|, transportHeader);
      Ipv4Kept(filled, b[..], |ipHeader|, |transportHeader|);
      TurnedParses(b[..], |ipHeader|, transportHeader);
    }

    // ----- setters --------------------------------------------------------------------------

    method SetTotalLength(totalLength: u16)
      requires Valid()
      modifies `ipv4, buffer
      ensures Valid() && ipv4 == old(ipv4).(totalLength := totalLength)
      ensures OnlyChanged(old(buffer[..]), buffer[..], 2, 2)
    {
      ipv4 := ipv4.(totalLength := totalLength);
      ghost var b := buffer[..];
      Write16(buffer, 2, totalLength);
      TransportKept(b, buffer[..], 2, 2, transportIndex, transport);
    }

    method SetSequenceNumber(x: u32)
      requires Valid() && transport.TcpData?
      modifies `transport, buffer
      ensures Valid() && transport == old(transport).(seqNum := x)
      ensures OnlyChanged(old(buffer[..]), buffer[..], transportIndex + 4, 4)
    {
      transport := transport.(seqNum := x);
      ghost var b := buffer[..];
      Write32(buffer, transportIndex + 4, x);
      Ipv4Kept(b, buffer[..], transportIndex + 4, 4);
    }

    method SetAcknowledgementNumber(x: u32)
      requires Valid() && transport.TcpData?
      modifies `transport, buffer
      ensures Valid() && transport == old(transport).(ackNum := x)
      ensures OnlyChanged(old(buffer[..]), buffer[..], transportIndex + 8, 4)
    {
      transport := transport.(ackNum := x);
      ghost var b := buffer[..];
      Write32(buffer, transportIndex + 8, x);
      Ipv4Kept(b, buffer[..], transportIndex + 8, 4);
    }

    /** The cache agrees with the raw header exactly when the flags fit their nine bits. */
    method SetFlags(flags: u16)
      requires Valid() && transport.TcpData?
      modifies `transport, buffer
      ensures transport == old(transport).(flags := flags)
      ensures ParseTcp(buffer[..], transportIndex) == transport.(flags := flags % 512)
      ensures Valid() <==> flags < 512
      ensures OnlyChanged(old(buffer[..]), buffer[..], transportIndex + 12, 2)
    {
      hide ParseIpv4, ParseTcp;
      ghost var t := transport;
      transport := transport.(flags := flags);
      var offsetAndFlags := FromBe16(buffer[transportIndex + 12], buffer[transportIndex + 13]);
      FlagBits(offsetAndFlags, flags);
      ghost var b := buffer[..];
      Write16(buffer, transportIndex + 12, offsetAndFlags / 512 * 512 + flags % 512);
      Ipv4Kept(b, buffer[..], transportIndex + 12, 2);
      FlagsParse(b, buffer[..], transportIndex, t, flags);
    }

    /** UDP stores its length, TCP does not. */
    method SetPayloadLength(n: u16)
      requires Valid() && UDP_HEADER_LENGTH + n < 0x1_0000
      modifies buffer
      ensures Valid()
      ensures OnlyChanged(old(buffer[..]), buffer[..], transportIndex + 4, if transport.UdpData? then 2 else 0)
      ensures transport.UdpData? ==> Word(buffer[..], transportIndex + 4) == UDP_HEADER_LENGTH + n
    {
      if transport.UdpData? {
        ghost var b := buffer[..];
        Write16(buffer, transportIndex + 4, UDP_HEADER_LENGTH + n);
        Ipv4Kept(b, buffer[..], transportIndex + 4, 2);
        TransportKept(b, buffer[..], transportIndex + 4, 2, transportIndex, transport);
      }
    }

    // ----- building -------------------------------------------------------------------------

    /** Both checksums, computed over the first `total` bytes; the headers stay as they are. */
    method ComputeChecksums(total: nat)
      requires Valid() && payloadIndex <= total < 0x1_0000
      modifies buffer
      ensures Valid()
      ensures forall k | 0 <= k < MAX_PACKET_LENGTH ::
                k in {10, 11} || k in ChecksumField() || buffer[k] == old(buffer[k])
      ensures Fold(WordSum(buffer[..][0..transportIndex])) == 0xffff
      ensures if transport.TcpData? then
                Fold(PseudoSum(ipv4.source, ipv4.destination, total - transportIndex)
                     + WordSum(buffer[..][transportIndex..total])) == 0xffff
              else
                Word(buffer[..], transportIndex + 6) == 0
    {
      hide WordSum, Fold, PseudoSum, Spliced, ParseIpv4, ParseTcp, ParseUdp;
      ghost var b := buffer[..];
      UpdateIpv4Checksum(buffer, transportIndex);
      ghost var c := buffer[..];
      Ipv4Kept(b, c, 10, 2);
      TransportKept(b, c, 10, 2, transportIndex, transport);
      var at := transportIndex + ChecksumOffset(transport);
      if transport.TcpData? {
        UpdateTcpChecksum(buffer, transportIndex, transport.headerLength, total, ipv4.source, ipv4.destination);
      } else {
        Write16(buffer, at, 0);
      }
      Ipv4Kept(c, buffer[..], at, 2);
      TransportKept(c, buffer[..], at, 2, transportIndex, transport);
      SliceKept(c, buffer[..], at, 2, 0, transportIndex);
    }

    ghost function ChecksumField(): set<nat>
      reads this
    {
      {transportIndex + ChecksumOffset(transport), transportIndex + ChecksumOffset(transport) + 1}
    }

    /** The total length, and the length that UDP repeats. */
    method SetLengths(total: u16, n: nat)
      requires Valid() && total == payloadIndex + n
      modifies `ipv4, buffer
      ensures Valid() && ipv4 == old(ipv4).(totalLength := total)
      ensures transport.UdpData? ==> Word(buffer[..], transportIndex + 4) == UDP_HEADER_LENGTH + n
      ensures forall k | payloadIndex <= k < MAX_PACKET_LENGTH :: buffer[k] == old(buffer[k])
    {
      hide ParseIpv4, ParseTcp, ParseUdp;
      SetTotalLength(total);
      SetPayloadLength(n);
    }

    /**
     * Builds the packet whose `n` payload bytes already lie behind the headers.  The total length
     * is added in 16 bits: a payload that fills the whole buffer overflows it, which panics the
     * relay, at the addition or, if that wraps, where the packet of length 0 is split.
     */
    method Build(n: nat) returns (raw: Option<seq<byte>>)
      requires Valid() && payloadIndex + n <= MAX_PACKET_LENGTH
      modifies `ipv4, buffer
      ensures Valid() && buffer[payloadIndex..] == old(buffer[payloadIndex..])
      ensures raw.None? <==> payloadIndex + n == MAX_PACKET_LENGTH
      ensures raw.Some? ==>
        && raw.value == buffer[..payloadIndex + n]
        && IsReply(raw.value, old(ipv4), transport, old(buffer[payloadIndex..payloadIndex + n]))
        && ipv4 == old(ipv4).(totalLength := payloadIndex + n)
    {
      hide WordSum, Fold, PseudoSum, ParseIpv4, ParseTcp, ParseUdp;
      var total := payloadIndex + n;
      if total == 0x1_0000 {
        return None;
      }
      ghost var b := buffer[..];
      SetLengths(total, n);
      ComputeChecksums(total);
      raw := Some(buffer[..total]);
      SameTail(b, buffer[..], payloadIndex, total);
      RawParses(buffer[..], total, transportIndex, transport);
      assert raw.value == buffer[..][..total];
    }

    /** `recv` into the buffer behind the headers, then `build`. */
    method Packetize(payload: seq<byte>) returns (raw: Option<seq<byte>>)
      requires Valid() && payloadIndex + |payload| <= MAX_PACKET_LENGTH
      modifies `ipv4, buffer
      ensures Valid()
      ensures raw.None? <==> payloadIndex + |payload| == MAX_PACKET_LENGTH
      ensures raw.Some? ==>
        && raw.value == buffer[..payloadIndex + |payload|]
        && IsReply(raw.value, old(ipv4), transport, payload)
        && ipv4 == old(ipv4).(totalLength := |raw.value|)
    {
      hide ParseIpv4, ParseTcp, ParseUdp, IsReply;
      ghost var b := buffer[..];
      CopyInto(buffer, payloadIndex, payload);
      SplicedInside(b, payloadIndex, payload);
      Ipv4Kept(b, buffer[..], payloadIndex, |payload|);
      TransportKept(b, buffer[..], payloadIndex, |payload|, transportIndex, transport);
      raw := Build(|payload|);
    }

    /** The first `n` bytes of the buffer, as `PacketSource::get` shows them. */
    method Inflate(n: nat) returns (raw: seq<byte>)
      requires n <= buffer.Length
      ensures raw == buffer[..n]
    {
      raw := buffer[..n];
    }

    /** A packet inflated right after it was built is the packet that was built. */
    method BuildThenInflate(n: nat) returns (built: seq<byte>, inflated: seq<byte>)
      requires Valid() && payloadIndex + n < MAX_PACKET_LENGTH
      modifies `ipv4, buffer
      ensures inflated == built && |built| == ipv4.totalLength
    {
      hide IsReply, ParseIpv4, ParseTcp, ParseUdp;
      var packet := Build(n);
      built := packet.value;
      inflated := Inflate(ipv4.totalLength);
    }

    /**
     * A packet inflated after an empty reply was built over it has its own length and payload, but
     * its header declares the headers alone.
     */
    method BuildReplyInflate(n: nat) returns (late: seq<byte>)
      requires Valid() && payloadIndex + n < MAX_PACKET_LENGTH
      modifies `ipv4, buffer
      ensures Valid() && |late| == payloadIndex + n
      ensures late[payloadIndex..] == old(buffer[payloadIndex..payloadIndex + n])
      ensures ParseIpv4(late) == old(ipv4).(totalLength := payloadIndex)
    {
      hide IsReply, ParseTcp, ParseUdp;
      ghost var b := buffer[..];
      var packet := Build(n);
      packet := Build(0);
      late := Inflate(payloadIndex + n);
      assert buffer[payloadIndex..][..n] == b[payloadIndex..][..n];
      assert late[payloadIndex..] == buffer[payloadIndex..][..n];
    }
  }

  /**
   * `raw` is a reply with these headers and this payload: it declares its own length, carries the
   * caches' endpoints, numbers and flags, and its checksums verify.
   */
  predicate IsReply(raw: seq<byte>, ipv4: Ipv4HeaderData, t: TransportData, payload: seq<byte>) {
    var ti := ipv4.headerLength;
    var pi := ti + TransportHeaderLength(t);
    && 20 <= ti && ti + (if t.TcpData? then 20 else 8) <= pi <= |raw| < 0x1_0000
    && ParseIpv4(raw) == ipv4.(totalLength := |raw|)
    && raw[pi..] == payload
    && Fold(WordSum(raw[0..ti])) == 0xffff
    && if t.TcpData? then
         && ParseTcp(raw, ti) == t
         && Fold(PseudoSum(ipv4.source, ipv4.destination, |raw| - ti) + WordSum(raw[ti..])) == 0xffff
       else
         && ParseUdp(raw, ti) == t
         && Word(raw, ti + 4) == 8 + |payload|
         && Word(raw, ti + 6) == 0
  }

  /**
   * A TCP reply verifies at its receiver, who takes the addresses from the packet itself and puts
   * the pseudo-header of RFC 793 before the segment.
   */
  lemma ReplyVerifies(raw: seq<byte>, ipv4: Ipv4HeaderData, t: TransportData, payload: seq<byte>)
    requires IsReply(raw, ipv4, t, payload) && t.TcpData?
    ensures var segment := raw[ipv4.headerLength..];
            Fold(WordSum(raw[12..20] + [0, 6] + Be16(|segment|) + segment)) == 0xffff
  {
    hide WordSum, Fold, ParseTcp;
    var segment := raw[ipv4.headerLength..];
    AddressBytes(raw);
    assert ipv4.source == ParseIpv4(raw).source && ipv4.destination == ParseIpv4(raw).destination;
    hide IsReply, ParseIpv4, Be32;
    PseudoHeaderSums(ipv4.source, ipv4.destination, segment);
  }

  /** The address fields are the bytes of the addresses. */
  lemma AddressBytes(raw: seq<byte>)
    requires |raw| >= 20
    ensures var ipv4 := ParseIpv4(raw); raw[12..20] == Be32(ipv4.source) + Be32(ipv4.destination)
  {
    hide Be32;
    Be32OfBytes(raw[12], raw[13], raw[14], raw[15]);
    Be32OfBytes(raw[16], raw[17], raw[18], raw[19]);
  }

  lemma SameTail(b: seq<byte>, c: seq<byte>, i: nat, j: nat)
    requires |b| == |c| && i <= j <= |b| && forall k | i <= k < |b| :: c[k] == b[k]
    ensures c[..j][i..] == b[i..j] && c[i..] == b[i..]
  {
  }

  /** The caches hold of the packet as well as of the buffer that it is cut from. */
  lemma RawParses(b: seq<byte>, total: nat, ti: nat, t: TransportData)
    requires 20 <= ti <= total <= |b| && ti + 20 <= |b| && ti + (if t.TcpData? then 20 else 8) <= total
    ensures var raw := b[..total];
            && ParseIpv4(raw) == ParseIpv4(b)
            && (if t.TcpData? then ParseTcp(raw, ti) == ParseTcp(b, ti) else ParseUdp(raw, ti) == ParseUdp(b, ti))
            && Word(raw, ti + 4) == Word(b, ti + 4) && Word(raw, ti + 6) == Word(b, ti + 6)
            && raw[0..ti] == b[0..ti] && raw[ti..] == b[ti..total]
  {
  }
}
