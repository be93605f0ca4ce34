/** The tunnel's own refusal of IPv6 packets (app/entry/src/main/cpp/icmpv6.cpp). */
module Icmpv6 {
  import opened Words
  import opened Splicing
  import opened Checksums
  import opened Headers
  import opened IpPackets
  import opened Ipv6Packetizers

  const ICMPV6_HEADER_LENGTH: nat := 8
  const MAX_ICMPV6_PACKET: nat := 1280
  const NEXT_HEADER_ICMPV6: byte := 58

  /** Sections 2.3 and 2.4 of RFC 4443: errors and multicast are not answered. */
  predicate Answerable(packet: seq<byte>) {
    && |packet| >= IPV6_HEADER_LENGTH && packet[0] / 16 == 6
    && !(packet[6] == NEXT_HEADER_ICMPV6 && |packet| > IPV6_HEADER_LENGTH && packet[IPV6_HEADER_LENGTH] < 128)
    && packet[24] != 0xff
  }

  /** How much of the original the error quotes: section 3.1 of RFC 4443 bounds the whole. */
  function Quoted(packet: seq<byte>): nat {
    Min(|packet|, MAX_ICMPV6_PACKET - IPV6_HEADER_LENGTH - ICMPV6_HEADER_LENGTH)
  }

  /** A Destination Unreachable, administratively prohibited, that answers `packet`. */
  predicate IsRefusalOf(reply: seq<byte>, packet: seq<byte>)
    requires Answerable(packet)
  {
    && |reply| == 48 + Quoted(packet) <= MAX_ICMPV6_PACKET
    && IsWellFormedIpPacket(reply) && IsIpv6(reply)
    && reply[6] == NEXT_HEADER_ICMPV6 && reply[7] == 64
    && reply[8..24] == packet[24..40] && reply[24..40] == packet[8..24]
    && reply[40] == 1 && reply[41] == 1
    && reply[48..] == packet[..Quoted(packet)]
    && Fold(PseudoSum6(reply[8..40], |reply| - 40, NEXT_HEADER_ICMPV6) + WordSum(reply[40..])) == 0xffff
  }

  /** The number that bytes stand for, most significant first. */
  function Number(b: seq<byte>): nat {
    if b == [] then 0 else Number(b[..|b| - 1]) * 256 + b[|b| - 1]
  }

  function Power256(n: nat): (p: nat)
    ensures p > 0
  {
    if n == 0 then 1 else Power256(n - 1) * 256
  }

  /** The first byte tells the range in which the number lies. */
  lemma {:induction false} NumberRange(b: seq<byte>)
    requires b != []
    ensures b[0] * Power256(|b| - 1) <= Number(b) < (b[0] + 1) * Power256(|b| - 1)
    decreases |b|
  {
    var n, init := |b| - 1, b[..|b| - 1];
    if n == 0 {
      assert Number(init) == 0 && Power256(0) == 1;
    } else {
      NumberRange(init);
      assert init[0] == b[0];
      var p, h: nat := Power256(n - 1), b[0];
      assert h * Power256(n) == h * p * 256 && (h + 1) * Power256(n) == (h + 1) * p * 256;
    }
  }

  /** The addresses from ff00:: on: section 2.7 of RFC 4291. */
  predicate IsMulticast(address: seq<byte>) { Number(address) >= 0xff * Power256(15) }

  lemma MulticastByte(address: seq<byte>)
    requires |address| == 16
    ensures IsMulticast(address) <==> address[0] == 0xff
  {
    NumberRange(address);
    hide Number;
    var p := Power256(15);
    assert address[0] < 0xff ==> (address[0] + 1) * p <= 0xff * p;
  }

  /** Section 2.1 of RFC 4443: the high-order bit of an error's type is zero. */
  predicate IsIcmpv6Error(packet: seq<byte>)
    requires |packet| >= 40
  {
    packet[6] == 58 && |packet| > 40 && packet[40] / 128 == 0
  }

  /**
   * Of the well-formed IPv6 packets the tunnel answers all but ICMPv6 errors and what goes to a
   * multicast group: sections 2.4 (e.1) and (e.3) of RFC 4443.
   */
  lemma WhatIsAnswered(packet: seq<byte>)
    requires IsWellFormedIpPacket(packet) && IsIpv6(packet)
    ensures Answerable(packet) <==> !IsIcmpv6Error(packet) && !IsMulticast(packet[24..40])
  {
    MulticastByte(packet[24..40]);
    hide IsMulticast;
  }

  /**
   * The refusal is a Destination Unreachable of code 1 that quotes as much of the packet as fits
   * into the 1280 bytes of section 2.4 (c) of RFC 4443, and its receiver's checksum verifies.
   */
  lemma RefusalSays(reply: seq<byte>, packet: seq<byte>)
    requires Answerable(packet) && IsRefusalOf(reply, packet)
    ensures reply[6] == 58 && reply[40] == 1 && reply[41] == 1
    ensures reply[8..40] == packet[24..40] + packet[8..24]
    ensures reply[48..] <= packet && |reply| <= 1280 && (reply[48..] == packet || |reply| == 1280)
    ensures Fold(WordSum(reply[8..40] + Be32(|reply| - 40) + [0, 0, 0, 58] + reply[40..])) == 0xffff
  {
    hide WordSum, Fold, PseudoSum6;
    PseudoHeader6Sums(reply[8..40], 58, reply[40..]);
    assert reply[8..40] == reply[8..24] + reply[24..40];
  }

  /** A refusal is never refused again, so that refusals cannot cascade. */
  lemma RefusalIsNotAnswered(reply: seq<byte>, packet: seq<byte>)
    requires Answerable(packet) && IsRefusalOf(reply, packet)
    ensures !Answerable(reply)
  {
  }

  /** The words of two addresses, taken in turns. */
  method AddAddresses(buf: array<byte>, source: nat, destination: nat) returns (sum: u32)
    requires source + 16 <= buf.Length && destination + 16 <= buf.Length
    ensures sum == WordSum(buf[..][source..source + 16]) + WordSum(buf[..][destination..destination + 16])
    ensures sum < 0x10_0000 * 2
  {
    hide WordSum, HighSum, LowSum;
    ghost var b := buf[..];
    SumBounds(b[source..source + 16]);
    SumBounds(b[destination..destination + 16]);
    NoWords(b, source + 16);
    NoWords(b, destination + 16);
    sum := 0;
    var i := 0;
    while i < 16
      invariant 0 <= i <= 16 && i % 2 == 0
      invariant sum + WordSum(b[source + i..source + 16]) + WordSum(b[destination + i..destination + 16])
                == WordSum(b[source..source + 16]) + WordSum(b[destination..destination + 16])
    {
      WordAt(b, source + i, source + 16);
      WordAt(b, destination + i, destination + 16);
      sum := sum + FromBe16(buf[source + i], buf[source + i + 1]);
      sum := sum + FromBe16(buf[destination + i], buf[destination + i + 1]);
      i := i + 2;
    }
  }

  /** `Ipv6Checksum` over two addresses, a next header and a payload that lie in one buffer. */
  method Ipv6Checksum(buf: array<byte>, source: nat, destination: nat, nextHeader: byte, at: nat, length: nat)
    returns (checksum: u16)
    requires source + 16 <= buf.Length && destination + 16 <= buf.Length
    requires at + length <= buf.Length && length < 0x1_0000
    ensures var b := buf[..];
            checksum == Complement(WordSum(b[source..source + 16]) + WordSum(b[destination..destination + 16])
                                   + length / 0x1_0000 + length % 0x1_0000 + nextHeader
                                   + WordSum(b[at..at + length]))
  {
    hide WordSum, Fold;
    SumBounds(buf[..][at..at + length]);
    var sum := AddAddresses(buf, source, destination);
    sum := sum + length / 0x1_0000;
    sum := sum + length % 0x1_0000;
    sum := sum + nextHeader;
    sum := AddWords(buf, at, at + length, sum);
    var folded := FoldCarries(sum);
    checksum := 65535 - folded;
  }

  /** `BuildIcmpv6Unreachable`. */
  method BuildUnreachable(packet: seq<byte>) returns (reply: Option<seq<byte>>)
    ensures reply.Some? <==> Answerable(packet)
    ensures reply.Some? ==> IsRefusalOf(reply.value, packet)
  {
    if |packet| < IPV6_HEADER_LENGTH || packet[0] / 16 != 6 {
      return None;
    }
    if packet[6] == NEXT_HEADER_ICMPV6 && |packet| > IPV6_HEADER_LENGTH && packet[IPV6_HEADER_LENGTH] < 128 {
      return None;
    }
    if packet[24] == 0xff {
      return None;
    }
    var quote := |packet|;
    if quote > MAX_ICMPV6_PACKET - IPV6_HEADER_LENGTH - ICMPV6_HEADER_LENGTH {
      quote := MAX_ICMPV6_PACKET - IPV6_HEADER_LENGTH - ICMPV6_HEADER_LENGTH;
    }
    var icmpLength := ICMPV6_HEADER_LENGTH + quote;
    var raw := new byte[IPV6_HEADER_LENGTH + icmpLength](_ => 0);
    Fill(raw, packet, quote);
    hide WordSum, Fold;
    ghost var b := raw[..];
    Seal(raw);
    ghost var c := raw[..];
    Unchanged(b, c, 8, 24);
    Unchanged(b, c, 24, 40);
    Unchanged(b, c, 48, 48 + quote);
    assert c[48..48 + quote] == c[48..];
    reply := Some(raw[..]);
  }

  /** Computes and stores the checksum of a reply whose checksum field is zero. */
  method Seal(raw: array<byte>)
    requires 48 <= raw.Length <= MAX_ICMPV6_PACKET && Word(raw[..], 42) == 0
    modifies raw
    ensures OnlyChanged(old(raw[..]), raw[..], 42, 2)
    ensures Fold(PseudoSum6(raw[..][8..40], raw.Length - 40, NEXT_HEADER_ICMPV6) + WordSum(raw[..][40..])) == 0xffff
  {
    hide WordSum, Fold, Spliced, Complement;
    var n := raw.Length;
    ghost var b := raw[..];
    var checksum := Ipv6Checksum(raw, 8, 24, NEXT_HEADER_ICMPV6, 40, n - 40);
    AddressesTogether(b);
    FieldVerifies(b, 42, 40, n, PseudoSum6(b[8..40], n - 40, NEXT_HEADER_ICMPV6));
    Write16(raw, 42, checksum);
    Unchanged(b, raw[..], 8, 40);
    assert raw[..][40..n] == raw[..][40..];
  }

  lemma Unchanged(b: seq<byte>, c: seq<byte>, i: nat, j: nat)
    requires OnlyChanged(b, c, 42, 2) && i <= j <= |b| && (j <= 42 || 44 <= i)
    ensures b[i..j] == c[i..j]
  {
  }

  lemma AddressesTogether(b: seq<byte>)
    requires |b| >= 40
    ensures WordSum(b[8..40]) == WordSum(b[8..24]) + WordSum(b[24..40])
  {
    WordSumAppend(b[8..24], b[24..40]);
    assert b[8..40] == b[8..24] + b[24..40];
  }

  /** Everything of the reply but its checksum. */
  method Fill(raw: array<byte>, packet: seq<byte>, quote: nat)
    requires Answerable(packet) && quote == Quoted(packet) && raw.Length == 48 + quote
    requires forall k | 0 <= k < raw.Length :: raw[k] == 0
    modifies raw
    ensures raw[0] == 0x60 && Word(raw[..], 4) == 8 + quote
    ensures raw[6] == NEXT_HEADER_ICMPV6 && raw[7] == 64
    ensures raw[..][8..24] == packet[24..40] && raw[..][24..40] == packet[8..24]
    ensures raw[40] == 1 && raw[41] == 1 && Word(raw[..], 42) == 0
    ensures raw[..][48..48 + quote] == packet[..quote]
  {
    hide Spliced;
    FillFixed(raw, 8 + quote);
    raw[40] := 1;
    raw[41] := 1;
    FillAddresses(raw, packet);
    QuoteBehind(raw[..], packet[..quote]);
    CopyInto(raw, 48, packet[..quote]);
  }

  /** Quoting the packet behind the headers leaves the headers as they are. */
  lemma QuoteBehind(b: seq<byte>, quoted: seq<byte>)
    requires |b| == 48 + |quoted|
    ensures var c := Spliced(b, 48, quoted);
            && (forall k | 0 <= k < 48 :: c[k] == b[k])
            && c[8..24] == b[8..24] && c[24..40] == b[24..40] && c[48..48 + |quoted|] == quoted
  {
  }

  method FillFixed(raw: array<byte>, icmpLength: u16)
    requires raw.Length >= 48
    modifies raw
    ensures raw[0] == 0x60 && Word(raw[..], 4) == icmpLength && raw[6] == NEXT_HEADER_ICMPV6 && raw[7] == 64
    ensures forall k | 8 <= k < raw.Length :: raw[k] == old(raw[k])
  {
    raw[0] := 0x60;
    raw[4] := icmpLength / 256;
    raw[5] := icmpLength % 256;
    raw[6] := NEXT_HEADER_ICMPV6;
    raw[7] := 64;
  }

  /** The answer travels back to the sender: the endpoints change places. */
  method FillAddresses(raw: array<byte>, packet: seq<byte>)
    requires raw.Length >= 48 && |packet| >= 40
    modifies raw
    ensures raw[..][8..24] == packet[24..40] && raw[..][24..40] == packet[8..24]
    ensures OnlyChanged(old(raw[..]), raw[..], 8, 32)
  {
    SplicedInside(raw[..], 8, packet[24..40]);
    CopyInto(raw, 8, packet[24..40]);
    SplicedInside(raw[..], 24, packet[8..24]);
    CopyInto(raw, 24, packet[8..24]);
  }
}
