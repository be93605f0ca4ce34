/** IPv6 replies built over one reused buffer (relay/src/relay/ipv6_packetizer.rs). */
module Ipv6Packetizers {
  import opened Words
  import opened Splicing
  import opened Checksums
  import opened Headers
  import opened IpPackets
  import Packetizers

  const BUFFER_LENGTH: nat := 0x1_0000

  /** The pseudo-header of section 8.1 of RFC 8200, over the address bytes of the packet itself. */
  function PseudoSum6(addresses: seq<byte>, length: nat, nextHeader: byte): nat {
    WordSum(addresses) + length / 0x1_0000 + length % 0x1_0000 + nextHeader
  }

  /** The bytes that section 8.1 of RFC 8200 puts before the packet: addresses, length, zeros, next header. */
  function PseudoHeader6(addresses: seq<byte>, length: u32, nextHeader: byte): seq<byte> {
    addresses + Be32(length) + [0, 0, 0, nextHeader]
  }

  /** The sum that relay and tunnel start from is that of the pseudo-header before the packet. */
  lemma PseudoHeader6Sums(addresses: seq<byte>, nextHeader: byte, upper: seq<byte>)
    requires |addresses| == 32 && |upper| < TWO32
    ensures PseudoSum6(addresses, |upper|, nextHeader) + WordSum(upper)
            == WordSum(PseudoHeader6(addresses, |upper|, nextHeader) + upper)
  {
    hide WordSum, Be32;
    var length, last := Be32(|upper|), [0, 0, 0, nextHeader];
    WordSumAppend(addresses + length + last, upper);
    WordSumAppend(addresses + length, last);
    WordSumAppend(addresses, length);
    TwoWords(|upper|);
    assert last == [0, 0] + [0, nextHeader];
    WordSumAppend([0, 0], [0, nextHeader]);
    OneWord([0, 0]);
    OneWord([0, nextHeader]);
  }

  /**
   * `raw` is a packet that the relay's own parser delivers: endpoints `source` and `destination`,
   * transport header `t`, this payload, and a checksum that verifies (for UDP never zero).
   */
  predicate IsReply6(raw: seq<byte>, nextHeader: byte, source: seq<byte>, destination: seq<byte>,
                     t: TransportData, payload: seq<byte>) {
    var pi := 40 + TransportHeaderLength(t);
    && 40 + (if t.TcpData? then 20 else 8) <= pi <= |raw| <= BUFFER_LENGTH
    && raw[0] / 16 == 6 && ParseVerdict(raw) == Deliver
    && Word(raw, 4) == |raw| - 40
    && raw[6] == nextHeader
    && raw[8..24] == source && raw[24..40] == destination
    && (if t.TcpData? then ParseTcp(raw, 40) == t
        else ParseUdp(raw, 40) == t && Word(raw, 44) == 8 + |payload| && Word(raw, 46) != 0)
    && raw[pi..] == payload
    && Fold(PseudoSum6(raw[8..40], |raw| - 40, nextHeader) + WordSum(raw[40..])) == 0xffff
  }

  /** A reply verifies at its receiver, with the pseudo-header made of the packet's own fields. */
  lemma Reply6Verifies(raw: seq<byte>, nextHeader: byte, source: seq<byte>, destination: seq<byte>,
                       t: TransportData, payload: seq<byte>)
    requires IsReply6(raw, nextHeader, source, destination, t, payload)
    ensures Fold(WordSum(raw[8..40] + Be32(|raw| - 40) + [0, 0, 0, raw[6]] + raw[40..])) == 0xffff
  {
    hide WordSum, Fold, ParseTcp, ParseUdp, ParseVerdict, PseudoSum6;
    PseudoHeader6Sums(raw[8..40], raw[6], raw[40..]);
  }

  /** The checksum that is stored: UDP sends all ones for zero. */
  function Stored(t: TransportData, sum: nat): u16 {
    if Complement(sum) == 0 && t.UdpData? then 0xffff else Complement(sum)
  }

  /** Either way the receiver's sum folds to all ones. */
  lemma StoredVerifies(b: seq<byte>, at: nat, start: nat, end: nat, pseudo: nat, t: TransportData)
    requires start <= at && at + 2 <= end <= |b| && (at - start) % 2 == 0 && Word(b, at) == 0
    ensures var sum := pseudo + WordSum(b[start..end]);
            Fold(pseudo + WordSum(Spliced(b, at, Be16(Stored(t, sum)))[start..end])) == 0xffff
  {
    hide WordSum, Fold, Spliced;
    var sum := pseudo + WordSum(b[start..end]);
    var c := Stored(t, sum);
    ComplementVerifies(sum);
    SplicedSlice(b, at, Be16(c), start, end);
    WordSumField(b[start..end], at - start, c);
    SplicedNothing(b[start..end], at - start);
    if Complement(sum) == 0 {
      AllOnesVerifies(sum);
    }
  }

  lemma SplicedNothing(s: seq<byte>, at: nat)
    requires at + 2 <= |s| && Word(s, at) == 0
    ensures Spliced(s, at, Be16(0)) == s
  {
  }

  class Ipv6Packetizer {
    const buffer: array<byte>
    const payloadIndex: nat
    const nextHeader: byte
    const source: seq<byte>
    const destination: seq<byte>
    const transport: TransportData

    /** Header template and caches agree; everything a build rewrites is left open. */
    ghost predicate Valid()
      reads this, buffer
    {
      && buffer.Length == BUFFER_LENGTH
      && |source| == 16 && |destination| == 16
      && buffer[0] / 16 == 6 && buffer[6] == nextHeader
      && buffer[8..24] == source && buffer[24..40] == destination
      && nextHeader == (if transport.TcpData? then 6 else 17)
      && Packetizers.TransportCached(buffer[..], 40, transport)
      && payloadIndex == 40 + TransportHeaderLength(transport)
      && 8 <= TransportHeaderLength(transport) <= 60
      && (transport.TcpData? ==> 20 <= transport.headerLength)
    }

    /** Takes the headers of a packet that the relay's parser delivered, and turns them round. */
    constructor (reference: seq<byte>)
      requires reference != [] && reference[0] / 16 == 6 && ParseVerdict(reference) == Deliver
      ensures Valid() && fresh(buffer)
      ensures source == reference[24..40] && destination == reference[8..24]
      ensures nextHeader == reference[6]
      ensures transport == Packetizers.Turned(if reference[6] == 6 then ParseTcp(reference, 40)
                                              else ParseUdp(reference, 40))
    {
      hide ParseVerdict;
      DeliveredHeader(reference);
      var t := if reference[6] == 6 then ParseTcp(reference, 40) else ParseUdp(reference, 40);
      var n := TransportHeaderLength(t);
      var b := new byte[BUFFER_LENGTH](_ => 0);
      buffer := b;
      payloadIndex := 40 + n;
      nextHeader := reference[6];
      source := reference[24..40];
      destination := reference[8..24];
      transport := Packetizers.Turned(t);
      new;
      hide ParseTcp, ParseUdp;
      FillIpv6(b, reference);
      ghost var filled := b[..];
      Packetizers.Packetizer.FillTransport(b, 40, reference[40..40 + n]);
      Packetizers.SliceKept(filled, b[..], 40, n, 8, 24);
      Packetizers.SliceKept(filled, b[..], 40, n, 24, 40);
      Packetizers.TurnedParses(b[..], 40, reference[40..40 + n]);
      HeaderAt(reference, 40, n);
    }

    /** The fixed header with its addresses exchanged. */
    static method FillIpv6(b: array<byte>, reference: seq<byte>)
      requires b.Length == BUFFER_LENGTH && |reference| >= 40
      modifies b
      ensures b[0] == reference[0] && b[6] == reference[6]
      ensures b[8..24] == reference[24..40] && b[24..40] == reference[8..24]
    {
      SplicedInside(b[..], 0, reference[..40]);
      CopyInto(b, 0, reference[..40]);
      SplicedInside(b[..], 8, reference[24..40]);
      CopyInto(b, 8, reference[24..40]);
      SplicedInside(b[..], 24, reference[8..24]);
      CopyInto(b, 24, reference[8..24]);
    }

    /** Pseudo-header and transport, added up within 32 bits. */
    method Sum(total: nat) returns (sum: u32)
      requires buffer.Length == BUFFER_LENGTH && 40 <= total <= BUFFER_LENGTH
      ensures sum == PseudoSum6(buffer[..][8..40], total - 40, nextHeader) + WordSum(buffer[..][40..total])
    {
      hide WordSum;
      var length := total - 40;
      SumBounds(buffer[..][8..40]);
      SumBounds(buffer[..][40..total]);
      sum := AddWords(buffer, 8, 40, 0);
      sum := sum + length / 0x1_0000;
      sum := sum + length % 0x1_0000;
      sum := sum + nextHeader;
      sum := AddWords(buffer, 40, total, sum);
    }

    /**
     * Zeroes the checksum field, sums pseudo-header and transport, folds, and stores the
     * complement; the sum never exceeds 32 bits.
     */
    method UpdateChecksum(total: nat)
      requires Valid() && payloadIndex <= total <= BUFFER_LENGTH
      modifies buffer
      ensures OnlyChanged(old(buffer[..]), buffer[..], 40 + Packetizers.ChecksumOffset(transport), 2)
      ensures Fold(PseudoSum6(buffer[..][8..40], total - 40, nextHeader) + WordSum(buffer[..][40..total])) == 0xffff
      ensures transport.UdpData? ==> Word(buffer[..], 46) != 0
    {
      hide WordSum, Fold, Spliced, PseudoSum6, Packetizers.TransportCached;
      var at := 40 + Packetizers.ChecksumOffset(transport);
      Write16(buffer, at, 0);
      ghost var b := buffer[..];
      var sum := Sum(total);
      ghost var pseudo := PseudoSum6(b[8..40], total - 40, nextHeader);
      var folded := FoldCarries(sum);
      var checksum := 65535 - folded;
      if checksum == 0 && transport.UdpData? {
        checksum := 0xffff;
      }
      StoredVerifies(b, at, 40, total, pseudo, transport);
      Write16(buffer, at, checksum);
      Packetizers.SliceKept(b, buffer[..], at, 2, 8, 40);
    }

    /** Builds the packet whose `n` payload bytes lie behind the headers; any that fit will do. */
    method Build(n: nat) returns (raw: seq<byte>)
      requires Valid() && payloadIndex + n <= BUFFER_LENGTH
      modifies buffer
      ensures Valid()
      ensures IsReply6(raw, nextHeader, source, destination, transport, old(buffer[payloadIndex..payloadIndex + n]))
    {
      hide WordSum, Fold, PseudoSum6, ParseTcp, ParseUdp, IsReply6;
      ghost var b := buffer[..];
      var transportLength: u16 := payloadIndex - 40 + n;
      var total := 40 + transportLength;
      WriteLengths(transportLength, n);
      ghost var c := buffer[..];
      UpdateChecksum(total);
      ghost var d := buffer[..];
      var at := 40 + Packetizers.ChecksumOffset(transport);
      Packetizers.TransportKept(c, d, at, 2, 40, transport);
      Packetizers.SliceKept(c, d, at, 2, 8, 24);
      Packetizers.SliceKept(c, d, at, 2, 24, 40);
      Packetizers.SliceKept(c, d, at, 2, payloadIndex, BUFFER_LENGTH);
      raw := buffer[..total];
      assert d[payloadIndex..total] == d[payloadIndex..][..n] == b[payloadIndex..][..n]
             == b[payloadIndex..payloadIndex + n];
      CutFromBuffer(d, total, nextHeader, source, destination, transport, d[payloadIndex..total]);
    }

    /** `recv` into the buffer behind the headers, then `build`; earlier payloads leave no trace. */
    method Packetize(payload: seq<byte>) returns (raw: seq<byte>)
      requires Valid() && payloadIndex + |payload| <= BUFFER_LENGTH
      modifies buffer
      ensures Valid() && IsReply6(raw, nextHeader, source, destination, transport, payload)
    {
      hide ParseTcp, ParseUdp, IsReply6;
      ghost var b := buffer[..];
      CopyInto(buffer, payloadIndex, payload);
      SplicedInside(b, payloadIndex, payload);
      Packetizers.TransportKept(b, buffer[..], payloadIndex, |payload|, 40, transport);
      Packetizers.SliceKept(b, buffer[..], payloadIndex, |payload|, 8, 24);
      Packetizers.SliceKept(b, buffer[..], payloadIndex, |payload|, 24, 40);
      assert buffer[payloadIndex..payloadIndex + |payload|] == payload;
      raw := Build(|payload|);
    }

    /** The IPv6 payload length, and the length that UDP repeats. */
    method WriteLengths(transportLength: u16, n: nat)
      requires Valid() && transportLength == payloadIndex - 40 + n
      modifies buffer
      ensures Valid()
      ensures Word(buffer[..], 4) == transportLength
      ensures transport.UdpData? ==> Word(buffer[..], 44) == 8 + n
      ensures buffer[payloadIndex..] == old(buffer[payloadIndex..])
    {
      hide ParseTcp, ParseUdp;
      ghost var b := buffer[..];
      Write16(buffer, 4, transportLength);
      ghost var c := buffer[..];
      Packetizers.TransportKept(b, c, 4, 2, 40, transport);
      Packetizers.SliceKept(b, c, 4, 2, 8, 24);
      Packetizers.SliceKept(b, c, 4, 2, 24, 40);
      Packetizers.SliceKept(b, c, 4, 2, payloadIndex, BUFFER_LENGTH);
      if transport.UdpData? {
        Write16(buffer, 44, 8 + n);
        Packetizers.TransportKept(c, buffer[..], 44, 2, 40, transport);
        Packetizers.SliceKept(c, buffer[..], 44, 2, 8, 24);
        Packetizers.SliceKept(c, buffer[..], 44, 2, 24, 40);
        Packetizers.SliceKept(c, buffer[..], 44, 2, payloadIndex, BUFFER_LENGTH);
      }
    }
  }

  /** A buffer with these headers and this payload gives such a reply. */
  lemma CutFromBuffer(d: seq<byte>, total: nat, nextHeader: byte, source: seq<byte>, destination: seq<byte>,
                      t: TransportData, payload: seq<byte>)
    requires var pi := 40 + TransportHeaderLength(t);
             && 40 + (if t.TcpData? then 20 else 8) <= pi <= total <= BUFFER_LENGTH == |d|
             && d[pi..total] == payload
    requires d[0] / 16 == 6 && Word(d, 4) == total - 40
    requires d[6] == nextHeader == (if t.TcpData? then 6 else 17)
    requires d[8..24] == source && d[24..40] == destination
    requires Packetizers.TransportCached(d, 40, t)
    requires t.UdpData? ==> Word(d, 44) == 8 + |payload| && Word(d, 46) != 0
    requires Fold(PseudoSum6(d[8..40], total - 40, nextHeader) + WordSum(d[40..total])) == 0xffff
    ensures IsReply6(d[..total], nextHeader, source, destination, t, payload)
  {
    hide WordSum, Fold, PseudoSum6, ParseTcp, ParseUdp, ParseVerdict;
    var raw := d[..total];
    Packetizers.RawParses(d, total, 40, t);
    BuiltIsDelivered(raw, t);
    assert raw[8..24] == d[8..24] && raw[24..40] == d[24..40] && raw[8..40] == d[8..40];
    assert raw[40..] == d[40..total] && raw[40 + TransportHeaderLength(t)..] == payload;
  }

  /** What a build leaves behind passes the relay's own parser. */
  lemma BuiltIsDelivered(raw: seq<byte>, t: TransportData)
    requires |raw| >= 40 + (if t.TcpData? then 20 else 8) && |raw| >= 40 + TransportHeaderLength(t)
    requires raw[0] / 16 == 6 && Word(raw, 4) == |raw| - 40
    requires raw[6] == (if t.TcpData? then 6 else 17)
    requires t.TcpData? ==> t == ParseTcp(raw, 40) && t.headerLength >= 20
    requires t.UdpData? ==> Word(raw, 44) == |raw| - 40
    ensures ParseVerdict(raw) == Deliver
  {
    var payload := raw[40..40 + Word(raw, 4)];
    assert payload == raw[40..];
    if t.TcpData? {
      assert payload[12] == raw[52];
    }
  }

  /** A parsed packet has a whole transport header of 20 to 60, or 8, bytes. */
  lemma DeliveredHeader(raw: seq<byte>)
    requires raw != [] && raw[0] / 16 == 6 && ParseVerdict(raw) == Deliver
    ensures |raw| >= 48 && raw[6] in {6, 17}
    ensures raw[6] == 6 ==> |raw| >= 60 && 20 <= ParseTcp(raw, 40).headerLength <= Min(60, |raw| - 40)
  {
    var payload := raw[40..40 + Word(raw, 4)];
    if raw[6] == 6 {
      assert payload[12] == raw[52];
    }
  }

  lemma HeaderAt(raw: seq<byte>, at: nat, n: nat)
    requires at + n <= |raw| && n >= 8
    ensures n >= 20 ==> ParseTcp(raw[at..at + n], 0) == ParseTcp(raw, at)
    ensures ParseUdp(raw[at..at + n], 0) == ParseUdp(raw, at)
  {
  }
}
