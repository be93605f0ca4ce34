/** Overwriting a stretch of a byte array, and slices of what results. */
module Splicing {
  import opened Words

  /** `b` with `source` written over it from index `at`. */
  function Spliced(b: seq<byte>, at: nat, source: seq<byte>): (s: seq<byte>)
    requires at + |source| <= |b|
    ensures |s| == |b|
  {
    b[..at] + source + b[at + |source|..]
  }

  lemma SliceSplit(b: seq<byte>, i: nat, j: nat, k: nat)
    requires i <= j <= k <= |b|
    ensures b[i..k] == b[i..j] + b[j..k]
  {
  }

  lemma SplicedOutside(b: seq<byte>, at: nat, x: seq<byte>, i: nat, j: nat)
    requires at + |x| <= |b| && i <= j <= |b| && (j <= at || at + |x| <= i)
    ensures Spliced(b, at, x)[i..j] == b[i..j]
  {
  }

  lemma SplicedInside(b: seq<byte>, at: nat, x: seq<byte>)
    requires at + |x| <= |b|
    ensures Spliced(b, at, x)[at..at + |x|] == x
    ensures forall k | at <= k < at + |x| :: Spliced(b, at, x)[k] == x[k - at]
  {
  }

  /** `copy_from_slice` into the part of `buf` that starts at `at`. */
  method CopyInto(buf: array<byte>, at: nat, source: seq<byte>)
    requires at + |source| <= buf.Length
    modifies buf
    ensures buf[..] == Spliced(old(buf[..]), at, source)
  {
    var i := 0;
    while i < |source|
      invariant i <= |source|
      invariant buf[..] == Spliced(old(buf[..]), at, source[..i])
    {
      buf[at + i] := source[i];
      i := i + 1;
    }
    assert source[..i] == source;
  }
}
