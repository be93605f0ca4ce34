/**
 * The Internet checksum of section 1 of RFC 1071, and the sums that the relay and the tunnel
 * accumulate to obtain it (relay/src/relay/tcp_header.rs, ipv4_header.rs, ipv6_packetizer.rs,
 * app/entry/src/main/cpp/icmpv6.cpp).
 */
module Checksums {
  import opened Words
  import opened Splicing

  /** The sum of the 16-bit words of `s`, an odd last byte counting as high-order. */
  function WordSum(s: seq<byte>): nat {
    if |s| == 0 then 0
    else if |s| == 1 then s[0] * 256
    else FromBe16(s[0], s[1]) + WordSum(s[2..])
  }

  /** The sum of the bytes at even places, and of those at odd places. */
  function HighSum(s: seq<byte>): nat {
    if |s| == 0 then 0
    else if |s| == 1 then s[0]
    else s[0] + HighSum(s[2..])
  }

  function LowSum(s: seq<byte>): nat {
    if |s| < 2 then 0 else s[1] + LowSum(s[2..])
  }

  /** Adding bytes apart and shifting once gives the sum of the words. */
  lemma {:induction false} SplitSum(s: seq<byte>)
    ensures LowSum(s) + 256 * HighSum(s) == WordSum(s)
  {
    if |s| >= 2 {
      SplitSum(s[2..]);
    }
  }

  lemma {:induction false} SumBounds(s: seq<byte>)
    ensures 2 * HighSum(s) <= 255 * (|s| + 1)
    ensures 2 * LowSum(s) <= 255 * |s|
    ensures 2 * WordSum(s) <= 65535 * (|s| + 1)
  {
    if |s| >= 2 {
      SumBounds(s[2..]);
    }
  }

  lemma {:induction false} WordSumAppend(a: seq<byte>, b: seq<byte>)
    requires |a| % 2 == 0
    ensures WordSum(a + b) == WordSum(a) + WordSum(b)
  {
    if a == [] {
      assert a + b == b;
    } else {
      WordSumAppend(a[2..], b);
      assert (a + b)[2..] == a[2..] + b;
    }
  }

  /** Writing a word over a zeroed field at an even place adds that word. */
  lemma WordSumField(s: seq<byte>, at: nat, c: u16)
    requires at % 2 == 0 && at + 2 <= |s|
    ensures WordSum(Spliced(s, at, Be16(c))) == WordSum(Spliced(s, at, Be16(0))) + c
  {
    var a, b := s[..at], s[at + 2..];
    forall x: u16 ensures WordSum(Spliced(s, at, Be16(x))) == WordSum(a) + x + WordSum(b) {
      FieldAppend(a, x, b);
      assert Spliced(s, at, Be16(x)) == a + (Be16(x) + b);
    }
  }

  lemma FieldAppend(a: seq<byte>, x: u16, b: seq<byte>)
    requires |a| % 2 == 0
    ensures WordSum(a + (Be16(x) + b)) == WordSum(a) + x + WordSum(b)
  {
    WordSumAppend(a, Be16(x) + b);
    WordSumAppend(Be16(x), b);
    Be16RoundTrip(x);
  }

  // ---------------------------------------------------------------------------------------
  // Folding carries
  // ---------------------------------------------------------------------------------------

  function FoldOnce(x: nat): nat { x % 0x1_0000 + x / 0x1_0000 }

  /** Adds carries back until the sum fits 16 bits. */
  function Fold(x: nat): (r: u16)
    decreases x
  {
    if x < 0x1_0000 then x else Fold(FoldOnce(x))
  }

  /** Folding keeps the residue modulo 65535, and only zero folds to zero. */
  lemma {:induction false} FoldKeepsResidue(x: nat) returns (k: nat)
    ensures x == Fold(x) + 65535 * k
    ensures Fold(x) == 0 <==> x == 0
    decreases x
  {
    if x < 0x1_0000 {
      k := 0;
    } else {
      k := FoldKeepsResidue(FoldOnce(x));
      k := k + x / 0x1_0000;
    }
  }

  lemma FoldOfMultiple(m: nat)
    requires m > 0
    ensures Fold(65535 * m) == 65535
  {
    var k := FoldKeepsResidue(65535 * m);
    assert Fold(65535 * m) == 65535 * (m - k);
  }

  /** What is stored: the complement of the folded sum. */
  function Complement(sum: nat): u16 { 65535 - Fold(sum) }

  /** With its complement added, any sum folds to all ones. */
  lemma ComplementVerifies(sum: nat)
    ensures Fold(sum + Complement(sum)) == 0xffff
  {
    var k := FoldKeepsResidue(sum);
    assert sum + Complement(sum) == 65535 * (k + 1);
    FoldOfMultiple(k + 1);
  }

  /** RFC 768: a UDP checksum of zero is sent as all ones, which adds nothing modulo 65535. */
  lemma AllOnesVerifies(sum: nat)
    requires Complement(sum) == 0
    ensures Fold(sum + 0xffff) == 0xffff
  {
    var k := FoldKeepsResidue(sum);
    assert sum + 0xffff == 65535 * (k + 2);
    FoldOfMultiple(k + 2);
  }

  /** The folding loop on a `u32`, which ends and computes `Fold`. */
  method FoldCarries(x: u32) returns (r: u16)
    ensures r == Fold(x)
  {
    var sum: u32 := x;
    while sum / 0x1_0000 != 0
      invariant Fold(sum) == Fold(x)
      decreases sum
    {
      sum := FoldOnce(sum);
    }
    r := sum;
  }

  // ---------------------------------------------------------------------------------------
  // Loops over a buffer
  // ---------------------------------------------------------------------------------------

  lemma StretchStep(b: seq<byte>, i: nat, end: nat)
    requires i + 2 <= end <= |b|
    ensures b[i..end][2..] == b[i + 2..end] && b[i..end][0] == b[i] && b[i..end][1] == b[i + 1]
  {
  }

  /** The first word of a stretch, and what an empty stretch adds. */
  lemma WordAt(b: seq<byte>, i: nat, end: nat)
    requires i + 2 <= end <= |b|
    ensures WordSum(b[i..end]) == FromBe16(b[i], b[i + 1]) + WordSum(b[i + 2..end])
  {
    StretchStep(b, i, end);
  }

  lemma NoWords(b: seq<byte>, i: nat)
    requires i <= |b|
    ensures WordSum(b[i..i]) == 0
  {
  }

  /** Adds the 16-bit words of `buf[start..end]` to a running sum. */
  method AddWords(buf: array<byte>, start: nat, end: nat, before: u32) returns (sum: u32)
    requires start <= end <= buf.Length
    requires before + WordSum(buf[..][start..end]) < TWO32
    ensures sum == before + WordSum(buf[..][start..end])
  {
    sum := before;
    var i := start;
    ghost var b := buf[..];
    while i + 1 < end
      invariant start <= i <= end
      invariant sum + WordSum(b[i..end]) == before + WordSum(b[start..end])
    {
      StretchStep(b, i, end);
      sum := sum + FromBe16(buf[i], buf[i + 1]);
      i := i + 2;
    }
    if i < end {
      sum := sum + FromBe16(buf[i], 0);
    }
  }

  /** Adds the bytes of `buf[start..end]`, odd places to `low` and even places to `high`. */
  method AddBytes(buf: array<byte>, start: nat, end: nat, low0: u32, high0: u32) returns (low: u32, high: u32)
    requires start <= end <= buf.Length
    requires low0 + LowSum(buf[..][start..end]) < TWO32 && high0 + HighSum(buf[..][start..end]) < TWO32
    ensures low == low0 + LowSum(buf[..][start..end])
    ensures high == high0 + HighSum(buf[..][start..end])
  {
    low, high := low0, high0;
    var p := start;
    ghost var b := buf[..];
    while p + 1 < end
      invariant start <= p <= end && (p - start) % 2 == 0
      invariant low + LowSum(b[p..end]) == low0 + LowSum(b[start..end])
      invariant high + HighSum(b[p..end]) == high0 + HighSum(b[start..end])
    {
      StretchStep(b, p, end);
      high := high + buf[p];
      low := low + buf[p + 1];
      p := p + 2;
    }
    if (end - start) % 2 != 0 {
      assert p == end - 1 && b[p..end] == [buf[p]];
      high := high + buf[end - 1];
    }
  }
}
