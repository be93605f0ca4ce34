/** The byte ring between the two ends of a stream (relay/src/relay/stream_buffer.rs). */
module StreamBuffers {
  import opened Words
  import opened Splicing

  /** The bytes from `tail` round to `head` in a ring stored in `b`, oldest first. */
  function Ring(b: seq<byte>, tail: nat, head: nat): (s: seq<byte>)
    requires tail < |b| && head < |b|
    ensures |s| == if tail <= head then head - tail else |b| - tail + head
  {
    if tail <= head then b[tail..head] else b[tail..] + b[..head]
  }

  /** `(i + k) % n`, for an advance `k` of at most one turn. */
  function Advance(i: nat, k: nat, n: nat): (r: nat)
    requires i < n && k <= n
    ensures r < n
  {
    if i + k < n then i + k else i + k - n
  }

  lemma AdvanceIsModulo(i: nat, k: nat, n: nat)
    requires i < n && k <= n
    ensures Advance(i, k, n) == (i + k) % n
  {
  }

  method Wrapped(i: nat, k: nat, n: nat) returns (r: nat)
    requires i < n && k <= n
    ensures r == Advance(i, k, n)
  {
    AdvanceIsModulo(i, k, n);
    r := (i + k) % n;
  }

  /** Writing at `head` without reaching the end of the ring appends to its contents. */
  lemma RingAppendStraight(b: seq<byte>, tail: nat, head: nat, source: seq<byte>)
    requires tail < |b| && head < |b| && head + |source| <= |b|
    requires |Ring(b, tail, head)| + |source| < |b|
    ensures Ring(Spliced(b, head, source), tail, Advance(head, |source|, |b|)) == Ring(b, tail, head) + source
  {
    var c := Spliced(b, head, source);
    if tail <= head {
      assert c[tail..head + |source|] == b[tail..head] + source;
      if head + |source| == |b| {
        assert c[tail..] + c[..0] == c[tail..head + |source|];
      }
    } else {
      assert c[tail..] == b[tail..];
      assert c[..head + |source|] == b[..head] + source;
    }
  }

  /** Writing past the end of the ring, in two pieces, appends to its contents. */
  lemma RingAppendWrapped(b: seq<byte>, tail: nat, head: nat, source: seq<byte>)
    requires tail < |b| && head < |b| && head + |source| > |b|
    requires |Ring(b, tail, head)| + |source| < |b|
    ensures head + |source| - |b| < |b|
    ensures var k := |b| - head;
            Ring(Spliced(Spliced(b, head, source[..k]), 0, source[k..]), tail, head + |source| - |b|)
            == Ring(b, tail, head) + source
  {
    var k := |b| - head;
    var c := Spliced(b, head, source[..k]);
    var d := Spliced(c, 0, source[k..]);
    assert d[tail..] == b[tail..head] + source[..k] by {
      assert d[tail..] == c[tail..];
    }
    assert d[..head + |source| - |b|] == source[k..];
    SliceSplit(source, 0, k, |source|);
  }

  /** Moving `tail` forward inside the contiguous part removes a prefix of the contents. */
  lemma RingDrop(b: seq<byte>, tail: nat, head: nat, w: nat)
    requires tail < |b| && head < |b|
    requires w <= if tail <= head then head - tail else |b| - tail
    ensures Ring(b, tail, head) == b[tail..tail + w] + Ring(b, Advance(tail, w, |b|), head)
  {
    if tail > head {
      SliceSplit(b, tail, tail + w, |b|);
    } else {
      SliceSplit(b, tail, tail + w, head);
    }
  }

  /** One slot of `buf` always stays unused, so that full and empty differ. */
  class StreamBuffer {
    const buf: array<byte>
    var head: nat
    var tail: nat

    ghost predicate Valid()
      reads this, buf
    {
      head < buf.Length && tail < buf.Length
    }

    /** The abstract FIFO: oldest byte first. */
    ghost function Contents(): (s: seq<byte>)
      reads this, buf
      requires Valid()
      ensures |s| < buf.Length
    {
      Ring(buf[..], tail, head)
    }

    /** The part of the contents that lies before the end of the ring. */
    ghost function Contiguous(): (n: nat)
      reads this, buf
      requires Valid()
      ensures n <= |Contents()| && (n == 0 <==> Contents() == [])
    {
      if tail <= head then head - tail else buf.Length - tail
    }

    constructor (capacity: nat)
      ensures Valid() && fresh(buf)
      ensures Contents() == [] && buf.Length == capacity + 1
    {
      buf := new byte[capacity + 1](_ => 0);
      head, tail := 0, 0;
    }

    method IsEmpty() returns (b: bool)
      requires Valid()
      ensures b <==> Contents() == []
    {
      b := head == tail;
    }

    method Size() returns (n: nat)
      requires Valid()
      ensures n == |Contents()|
    {
      if head < tail { n := head + buf.Length - tail; } else { n := head - tail; }
    }

    method Capacity() returns (n: nat)
      requires Valid()
      ensures n == buf.Length - 1
    {
      n := buf.Length - 1;
    }

    method Remaining() returns (n: nat)
      requires Valid()
      ensures n + |Contents()| == buf.Length - 1
    {
      var c := Capacity();
      var s := Size();
      n := c - s;
    }

    method ReadFrom(source: seq<byte>)
      requires Valid()
      requires |Contents()| + |source| <= buf.Length - 1
      modifies `head, buf
      ensures Valid()
      ensures Contents() == old(Contents()) + source
    {
      var n := buf.Length;
      ghost var b := buf[..];
      if |source| <= n - head {
        RingAppendStraight(b, tail, head, source);
        CopyInto(buf, head, source);
      } else {
        RingAppendWrapped(b, tail, head, source);
        CopyInto(buf, head, source[..n - head]);
        CopyInto(buf, 0, source[n - head..]);
      }
      head := Wrapped(head, |source|, n);
    }

    /**
     * Offers the contiguous front of the ring to a destination that takes `budget` bytes of it
     * (every count from 0 to the slice length is some budget), or fails and takes none.
     */
    method WriteTo(budget: nat, fails: bool) returns (written: Option<seq<byte>>)
      requires Valid()
      modifies `head, `tail
      ensures Valid()
      ensures written.None? <==> fails && old(Contents()) != []
      ensures written.None? ==> Contents() == old(Contents())
      ensures written.Some? ==> old(Contents()) == written.value + Contents()
      ensures written.Some? ==> |written.value| == Min(budget, old(Contiguous()))
      ensures written.Some? && |written.value| == old(Contiguous()) ==> tail <= head
    {
      if head == tail {
        return Some([]);
      }
      if fails {
        return None;
      }
      var w := Min(budget, if tail < head then head - tail else buf.Length - tail);
      var bytes := Drop(w);
      Optimize();
      written := Some(bytes);
    }

    /** Moves the tail over the first `w` bytes, which are contiguous. */
    method Drop(w: nat) returns (bytes: seq<byte>)
      requires Valid() && head != tail && w <= Contiguous()
      modifies `tail
      ensures Valid() && |bytes| == w && old(Contents()) == bytes + Contents()
      ensures w == old(Contiguous()) ==> tail <= head
    {
      RingDrop(buf[..], tail, head, w);
      bytes := buf[tail..tail + w];
      assert buf[..][tail..tail + w] == bytes;
      if tail < head {
        tail := tail + w;
      } else {
        tail := Wrapped(tail, w, buf.Length);
      }
    }

    method Optimize()
      requires Valid()
      modifies `head, `tail
      ensures Valid() && Contents() == old(Contents())
      ensures old(tail <= head) ==> tail <= head
    {
      if head == tail {
        head, tail := 0, 0;
      }
    }

    /** Two writes that are each taken whole empty any ring, and in order. */
    method DrainInTwoWrites() returns (out: seq<byte>)
      requires Valid()
      modifies `head, `tail
      ensures Valid() && Contents() == [] && out == old(Contents())
    {
      var n := buf.Length;
      var first := WriteTo(n, false);
      var second := WriteTo(n, false);
      out := first.value + second.value;
    }
  }
}
