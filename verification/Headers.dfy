/**
 * IPv4, TCP and UDP headers as the relay caches and rewrites them
 * (relay/src/relay/ipv4_header.rs, tcp_header.rs, udp_header.rs).
 */
module Headers {
  import opened Words
  import opened Splicing
  import opened Checksums

  datatype Protocol = Tcp | Udp | Other

  datatype Ipv4HeaderData = Ipv4HeaderData(
    version: byte, headerLength: nat, totalLength: u16, protocol: Protocol, source: u32, destination: u32)

  datatype TransportData =
    | TcpData(sourcePort: u16, destinationPort: u16, seqNum: u32, ackNum: u32,
              headerLength: nat, flags: u16, window: u16)
    | UdpData(sourcePort: u16, destinationPort: u16)

  const UDP_HEADER_LENGTH: nat := 8

  function Word(b: seq<byte>, at: nat): u16
    requires at + 2 <= |b|
  {
    FromBe16(b[at], b[at + 1])
  }

  function DoubleWord(b: seq<byte>, at: nat): u32
    requires at + 4 <= |b|
  {
    Word(b, at) * 0x1_0000 + Word(b, at + 2)
  }

  function ProtocolOf(p: byte): Protocol { if p == 6 then Tcp else if p == 17 then Udp else Other }

  function ParseIpv4(b: seq<byte>): Ipv4HeaderData
    requires |b| >= 20
  {
    Ipv4HeaderData(b[0] / 16, b[0] % 16 * 4, Word(b, 2), ProtocolOf(b[9]), DoubleWord(b, 12), DoubleWord(b, 16))
  }

  function ParseTcp(b: seq<byte>, at: nat): TransportData
    requires at + 20 <= |b|
  {
    var offsetAndFlags := Word(b, at + 12);
    TcpData(Word(b, at), Word(b, at + 2), DoubleWord(b, at + 4), DoubleWord(b, at + 8),
            offsetAndFlags / 4096 * 4, offsetAndFlags % 512, Word(b, at + 14))
  }

  function ParseUdp(b: seq<byte>, at: nat): TransportData
    requires at + UDP_HEADER_LENGTH <= |b|
  {
    UdpData(Word(b, at), Word(b, at + 2))
  }

  function TransportHeaderLength(t: TransportData): nat {
    match t
    case TcpData(_, _, _, _, headerLength, _, _) => headerLength
    case UdpData(_, _) => UDP_HEADER_LENGTH
  }

  // ---------------------------------------------------------------------------------------
  // Field writes
  // ---------------------------------------------------------------------------------------

  /** Only the bytes from `at` up to `at + n` may differ between `b` and `c`. */
  predicate OnlyChanged(b: seq<byte>, c: seq<byte>, at: nat, n: nat) {
    |b| == |c| && forall k | 0 <= k < |b| && !(at <= k < at + n) :: c[k] == b[k]
  }

  method Write16(buf: array<byte>, at: nat, x: u16)
    requires at + 2 <= buf.Length
    modifies buf
    ensures OnlyChanged(old(buf[..]), buf[..], at, 2) && Word(buf[..], at) == x
    ensures buf[..] == Spliced(old(buf[..]), at, Be16(x))
  {
    buf[at] := x / 256;
    buf[at + 1] := x % 256;
  }

  method Write32(buf: array<byte>, at: nat, x: u32)
    requires at + 4 <= buf.Length
    modifies buf
    ensures OnlyChanged(old(buf[..]), buf[..], at, 4) && DoubleWord(buf[..], at) == x
  {
    Write16(buf, at, x / 0x1_0000);
    Write16(buf, at + 2, x % 0x1_0000);
  }

  /** Swaps two adjacent fields of `n` bytes each. */
  method SwapFields(buf: array<byte>, at: nat, n: nat)
    requires at + 2 * n <= buf.Length
    modifies buf
    ensures OnlyChanged(old(buf[..]), buf[..], at, 2 * n)
    ensures forall k | at <= k < at + n :: buf[k] == old(buf[k + n])
    ensures forall k | at + n <= k < at + 2 * n :: buf[k] == old(buf[k - n])
  {
    var i := 0;
    while i < n
      invariant 0 <= i <= n
      invariant forall k | at <= k < at + i :: buf[k] == old(buf[k + n])
      invariant forall k | at + n <= k < at + n + i :: buf[k] == old(buf[k - n])
      invariant forall k | 0 <= k < buf.Length && !(at <= k < at + i) && !(at + n <= k < at + n + i) ::
                  buf[k] == old(buf[k])
    {
      buf[at + i], buf[at + n + i] := buf[at + n + i], buf[at + i];
      i := i + 1;
    }
  }

  // ---------------------------------------------------------------------------------------
  // Checksums in place
  // ---------------------------------------------------------------------------------------

  /** The pseudo-header of section 3.1 of RFC 793, with protocol TCP. */
  function PseudoSum(source: u32, destination: u32, length: u16): nat {
    6 + source / 0x1_0000 + source % 0x1_0000 + destination / 0x1_0000 + destination % 0x1_0000 + length
  }

  /** The 12 bytes that section 3.1 of RFC 793 puts before the segment: addresses, zero, PTCL, length. */
  function PseudoHeader(source: u32, destination: u32, length: u16): (b: seq<byte>)
    ensures |b| == 12
  {
    Be32(source) + Be32(destination) + [0, 6] + Be16(length)
  }

  /** The sum that the relay starts from is that of the pseudo-header before the segment. */
  lemma PseudoHeaderSums(source: u32, destination: u32, segment: seq<byte>)
    requires |segment| < 0x1_0000
    ensures PseudoSum(source, destination, |segment|) + WordSum(segment)
            == WordSum(PseudoHeader(source, destination, |segment|) + segment)
  {
    hide WordSum, Be32, Be16;
    var s, d, n := Be32(source), Be32(destination), Be16(|segment|);
    WordSumAppend(s + d + [0, 6] + n, segment);
    WordSumAppend(s + d + [0, 6], n);
    WordSumAppend(s + d, [0, 6]);
    WordSumAppend(s, d);
    TwoWords(source);
    TwoWords(destination);
    OneWord(n);
    OneWord([0, 6]);
    Be16RoundTrip(|segment|);
  }

  lemma OneWord(s: seq<byte>)
    requires |s| == 2
    ensures WordSum(s) == FromBe16(s[0], s[1])
  {
    assert WordSum(s[2..]) == 0;
  }

  lemma TwoWords(x: u32)
    ensures WordSum(Be32(x)) == x / 0x1_0000 + x % 0x1_0000
  {
    WordSumAppend(Be16(x / 0x1_0000), Be16(x % 0x1_0000));
    OneWord(Be16(x / 0x1_0000));
    OneWord(Be16(x % 0x1_0000));
    hide WordSum;
  }

  lemma SplicedSlice(b: seq<byte>, at: nat, x: seq<byte>, start: nat, end: nat)
    requires start <= at && at + |x| <= end <= |b|
    ensures Spliced(b, at, x)[start..end] == Spliced(b[start..end], at - start, x)
  {
  }

  /** Writing the complement over the zeroed field makes the whole stretch verify. */
  lemma FieldVerifies(b: seq<byte>, at: nat, start: nat, end: nat, pseudo: nat)
    requires start <= at && at + 2 <= end <= |b| && (at - start) % 2 == 0 && Word(b, at) == 0
    ensures var sum := pseudo + WordSum(b[start..end]);
            Fold(pseudo + WordSum(Spliced(b, at, Be16(Complement(sum)))[start..end])) == 0xffff
  {
    var s := b[start..end];
    var sum := pseudo + WordSum(s);
    var c := Complement(sum);
    SplicedSlice(b, at, Be16(c), start, end);
    WordSumField(s, at - start, c);
    assert Spliced(s, at - start, Be16(0)) == s;
    ComplementVerifies(sum);
  }

  /** Header and payload bytes added apart, the high sum shifted once. */
  method SumSegment(buf: array<byte>, at: nat, headerLength: nat, end: nat, pseudo: u32) returns (sum: u32)
    requires 20 <= headerLength <= 60 && headerLength % 2 == 0
    requires at + headerLength <= end <= buf.Length && end - at < 0x1_0000
    requires pseudo < 0x10_0000
    ensures sum == pseudo + WordSum(buf[..][at..end])
  {
    hide WordSum, LowSum, HighSum;
    HalvesOfSum(buf[..], at, at + headerLength, end);
    var low, high := AddBytes(buf, at, at + headerLength, pseudo, 0);
    low, high := AddBytes(buf, at + headerLength, end, low, high);
    sum := low + high * 256;
  }

  /** `TcpHeaderMut::update_checksum`. */
  method UpdateTcpChecksum(buf: array<byte>, at: nat, headerLength: nat, end: nat, source: u32, destination: u32)
    requires 20 <= headerLength <= 60 && headerLength % 2 == 0
    requires at + headerLength <= end <= buf.Length && end - at < 0x1_0000
    modifies buf
    ensures OnlyChanged(old(buf[..]), buf[..], at + 16, 2)
    ensures Fold(PseudoSum(source, destination, end - at) + WordSum(buf[..][at..end])) == 0xffff
    ensures Word(buf[..], at + 16) ==
            Complement(PseudoSum(source, destination, end - at)
                       + WordSum(Spliced(old(buf[..]), at + 16, Be16(0))[at..end]))
  {
    hide WordSum, Fold, Spliced;
    Write16(buf, at + 16, 0);
    FieldVerifies(buf[..], at + 16, at, end, PseudoSum(source, destination, end - at));
    var sum := SumSegment(buf, at, headerLength, end, PseudoSum(source, destination, end - at));
    var folded := FoldCarries(sum);
    Write16(buf, at + 16, 65535 - folded);
  }

  /** Header and payload summed by halves give the word sum of the segment, within 32 bits. */
  lemma HalvesOfSum(b: seq<byte>, start: nat, middle: nat, end: nat)
    requires start <= middle <= end <= |b| && (middle - start) % 2 == 0 && end - start < 0x1_0000
    ensures var low := LowSum(b[start..middle]) + LowSum(b[middle..end]);
            var high := HighSum(b[start..middle]) + HighSum(b[middle..end]);
            && low + high * 256 == WordSum(b[start..end])
            && 2 * low <= 255 * 0x1_0000 && 2 * high <= 255 * 0x1_0002
  {
    SplitSum(b[start..middle]);
    SplitSum(b[middle..end]);
    SumBounds(b[start..middle]);
    SumBounds(b[middle..end]);
    WordSumAppend(b[start..middle], b[middle..end]);
    SliceSplit(b, start, middle, end);
  }

  /** `Ipv4HeaderMut::update_checksum`: the words of the header but for the checksum field. */
  method UpdateIpv4Checksum(buf: array<byte>, headerLength: nat)
    requires 20 <= headerLength <= 60 && headerLength % 4 == 0 && headerLength <= buf.Length
    modifies buf
    ensures OnlyChanged(old(buf[..]), buf[..], 10, 2)
    ensures Fold(WordSum(buf[..][0..headerLength])) == 0xffff
  {
    hide WordSum, Fold, Spliced;
    ghost var b := Spliced(buf[..], 10, Be16(0));
    HeaderWithoutChecksum(buf[..], headerLength);
    FieldVerifies(b, 10, 0, headerLength, 0);
    var sum := AddWords(buf, 0, 10, 0);
    sum := AddWords(buf, 12, headerLength, sum);
    var folded := FoldCarries(sum);
    SplicedAgain(buf[..], 10, Be16(0), Be16(65535 - folded));
    Write16(buf, 10, 65535 - folded);
  }

  lemma SplicedAgain(b: seq<byte>, at: nat, x: seq<byte>, y: seq<byte>)
    requires |x| == |y| && at + |x| <= |b|
    ensures Spliced(Spliced(b, at, x), at, y) == Spliced(b, at, y)
  {
  }

  lemma HeaderWithoutChecksum(b: seq<byte>, headerLength: nat)
    requires 20 <= headerLength <= 60 && headerLength % 4 == 0 && headerLength <= |b|
    ensures var c := Spliced(b, 10, Be16(0));
            && Word(c, 10) == 0
            && WordSum(b[0..10]) + WordSum(b[12..headerLength]) == WordSum(c[0..headerLength]) < 0x100_0000
  {
    hide WordSum, Spliced;
    var c := Spliced(b, 10, Be16(0));
    SplicedInside(b, 10, Be16(0));
    SplicedOutside(b, 10, Be16(0), 0, 10);
    SplicedOutside(b, 10, Be16(0), 12, headerLength);
    assert c[..10] == c[0..10];
    SkippedField(c, 10, headerLength);
    SumBounds(c[0..headerLength]);
  }

  /** Leaving a zero word out of the sum does not change it. */
  lemma SkippedField(b: seq<byte>, at: nat, end: nat)
    requires at + 2 <= end <= |b| && at % 2 == 0 && Word(b, at) == 0
    ensures WordSum(b[..at]) + WordSum(b[at + 2..end]) == WordSum(b[0..end])
  {
    FieldAppend(b[..at], 0, b[at + 2..end]);
    assert b[0..end] == b[..at] + (Be16(0) + b[at + 2..end]);
  }
}
