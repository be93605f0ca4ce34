/** The block ring of datagrams waiting for a UDP socket (relay/src/relay/datagram_buffer.rs). */
module DatagramBuffers {
  import opened Words
  import opened Splicing

  const HEADER_LENGTH: nat := 2
  const MAX_DATAGRAM_LENGTH: nat := 0x1_0000
  const MAX_BLOCK_LENGTH: nat := HEADER_LENGTH + MAX_DATAGRAM_LENGTH

  /** A datagram as it is stored: its length as a `u16`, then its bytes. */
  function Block(d: seq<byte>): (s: seq<byte>)
    ensures |s| == HEADER_LENGTH + |d|
  {
    Be16(|d| % 0x1_0000) + d
  }

  function Encode(q: seq<seq<byte>>): (s: seq<byte>) {
    if q == [] then [] else Block(q[0]) + Encode(q[1..])
  }

  /** Every length fits the two-byte field. */
  predicate Storable(q: seq<seq<byte>>) { forall d | d in q :: |d| < 0x1_0000 }

  lemma {:induction false} EncodeSnoc(q: seq<seq<byte>>, d: seq<byte>)
    ensures Encode(q + [d]) == Encode(q) + Block(d)
  {
    hide Block;
    if q == [] {
      assert q + [d] == [d] && [d][1..] == [];
    } else {
      EncodeSnoc(q[1..], d);
      assert (q + [d])[1..] == q[1..] + [d];
      assert Encode(q + [d]) == Block(q[0]) + (Encode(q[1..]) + Block(d));
    }
  }

  lemma {:induction false} EncodePrefixLength(q: seq<seq<byte>>)
    requires q != []
    ensures |Encode(q)| == |Encode(q[..|q| - 1])| + HEADER_LENGTH + |q[|q| - 1]|
  {
    EncodeSnoc(q[..|q| - 1], q[|q| - 1]);
    assert q[..|q| - 1] + [q[|q| - 1]] == q;
  }

  /** The stored form tells the datagrams apart: boundaries cannot be confused. */
  lemma {:induction false} EncodeInjective(p: seq<seq<byte>>, q: seq<seq<byte>>)
    requires Storable(p) && Storable(q) && Encode(p) == Encode(q)
    ensures p == q
  {
    if p != [] && q != [] {
      var s := Encode(p);
      FirstBlock(s, p);
      FirstBlock(s, q);
      EncodeInjective(p[1..], q[1..]);
      assert p == [p[0]] + p[1..] && q == [q[0]] + q[1..];
    }
  }

  /** What `read_length` and the slice after it find at the front of a non-empty encoding. */
  lemma FirstBlock(s: seq<byte>, q: seq<seq<byte>>)
    requires q != [] && Storable(q) && s == Encode(q)
    ensures |s| >= HEADER_LENGTH + |q[0]|
    ensures FromBe16(s[0], s[1]) == |q[0]|
    ensures s[HEADER_LENGTH..HEADER_LENGTH + |q[0]|] == q[0]
    ensures s[HEADER_LENGTH + |q[0]|..] == Encode(q[1..])
    ensures Storable(q[1..])
  {
    assert q[0] in q;
    var b := Block(q[0]);
    assert s[..|b|] == b && s[|b|..] == Encode(q[1..]);
    assert s[0] == b[0] && s[1] == b[1];
    assert s[2..|b|] == b[2..] == q[0];
  }

  /** Where the next block starts, once one of `n` bytes at `i` is passed. */
  function Following(i: nat, n: nat, circularLength: nat): (r: nat)
    requires circularLength > 0
    ensures r < circularLength
  {
    if i + HEADER_LENGTH + n >= circularLength then 0 else i + HEADER_LENGTH + n
  }

  predicate HasSpace(head: nat, tail: nat, n: nat) {
    head >= tail || HEADER_LENGTH + n <= tail - head - 1
  }

  /** The write that wraps `head` onto a `tail` at 0: the full ring then looks empty. */
  predicate WrapsOntoTail(head: nat, tail: nat, n: nat, circularLength: nat) {
    tail == 0 && head + HEADER_LENGTH + n >= circularLength
  }

  /**
   * The ring `b` from `tail` to `head` holds the datagrams `front` up to the end of the circular
   * part, and past it, and then `back` from index 0.
   */
  predicate Layout(b: seq<byte>, tail: nat, head: nat, circularLength: nat,
                   front: seq<seq<byte>>, back: seq<seq<byte>>) {
    && |b| == circularLength - 1 + MAX_BLOCK_LENGTH
    && tail < circularLength && head < circularLength
    && Storable(front) && Storable(back)
    && if tail <= head then
         back == [] && b[tail..head] == Encode(front)
       else
         var end := tail + |Encode(front)|;
         && front != []
         && tail + |Encode(front[..|front| - 1])| < circularLength <= end <= |b|
         && b[tail..end] == Encode(front)
         && b[..head] == Encode(back)
  }

  lemma LayoutBounds(b: seq<byte>, tail: nat, head: nat, c: nat, front: seq<seq<byte>>, back: seq<seq<byte>>)
    requires Layout(b, tail, head, c, front, back)
    ensures |b| == c - 1 + MAX_BLOCK_LENGTH && tail < c && head < c
    ensures tail <= head ==> back == []
    ensures front == [] <==> tail == head
    ensures head < tail ==> front != []
  {
  }

  lemma EnqueueStraight(b: seq<byte>, tail: nat, head: nat, c: nat, front: seq<seq<byte>>, d: seq<byte>)
    requires Layout(b, tail, head, c, front, []) && tail <= head && |d| < 0x1_0000
    ensures !WrapsOntoTail(head, tail, |d|, c) ==>
              Layout(Spliced(b, head, Block(d)), tail, Following(head, |d|, c), c, front + [d], [])
    ensures WrapsOntoTail(head, tail, |d|, c) ==>
              Layout(Spliced(b, head, Block(d)), tail, Following(head, |d|, c), c, [], [])
  {
    EncodeSnoc(front, d);
    var s := Spliced(b, head, Block(d));
    assert s[tail..head + |Block(d)|] == b[tail..head] + Block(d);
    assert (front + [d])[..|front|] == front;
  }

  lemma EnqueueWrapped(b: seq<byte>, tail: nat, head: nat, c: nat,
                       front: seq<seq<byte>>, back: seq<seq<byte>>, d: seq<byte>)
    requires Layout(b, tail, head, c, front, back) && head < tail && |d| < 0x1_0000
    requires HasSpace(head, tail, |d|)
    ensures Layout(Spliced(b, head, Block(d)), tail, Following(head, |d|, c), c, front, back + [d])
  {
    EncodeSnoc(back, d);
    var s := Spliced(b, head, Block(d));
    var end := tail + |Encode(front)|;
    assert s[tail..end] == b[tail..end];
    assert s[..head + |Block(d)|] == b[..head] + Block(d);
  }

  /** The end of the stretch that holds `front`. */
  function FrontEnd(tail: nat, head: nat, front: seq<seq<byte>>): nat {
    if tail <= head then head else tail + |Encode(front)|
  }

  lemma FrontStretch(b: seq<byte>, tail: nat, head: nat, c: nat, front: seq<seq<byte>>, back: seq<seq<byte>>)
    requires Layout(b, tail, head, c, front, back)
    ensures tail <= FrontEnd(tail, head, front) <= |b|
    ensures b[tail..FrontEnd(tail, head, front)] == Encode(front) && Storable(front)
  {
  }

  lemma SliceShift(b: seq<byte>, tail: nat, end: nat, n: nat)
    requires tail <= end <= |b| && HEADER_LENGTH <= n <= end - tail
    ensures b[tail..end][0] == b[tail] && b[tail..end][1] == b[tail + 1]
    ensures b[tail..end][HEADER_LENGTH..n] == b[tail + HEADER_LENGTH..tail + n]
    ensures b[tail..end][n..] == b[tail + n..end]
  {
  }

  /** The front datagram lies behind its length at `tail`, and the rest follows it. */
  lemma FrontDatagram(b: seq<byte>, tail: nat, head: nat, c: nat, front: seq<seq<byte>>, back: seq<seq<byte>>)
    requires Layout(b, tail, head, c, front, back) && front != []
    ensures var n := HEADER_LENGTH + |front[0]|;
            var end := FrontEnd(tail, head, front);
            && tail + n <= end <= |b|
            && FromBe16(b[tail], b[tail + 1]) == |front[0]|
            && b[tail + HEADER_LENGTH..tail + n] == front[0]
            && b[tail + n..end] == Encode(front[1..])
            && Storable(front[1..])
  {
    FrontStretch(b, tail, head, c, front, back);
    hide Layout, FrontEnd, Encode;
    var end := FrontEnd(tail, head, front);
    FirstBlock(b[tail..end], front);
    SliceShift(b, tail, end, HEADER_LENGTH + |front[0]|);
  }

  /** Passing the front datagram leaves a layout of the others. */
  lemma DequeueFront(b: seq<byte>, tail: nat, head: nat, c: nat, front: seq<seq<byte>>, back: seq<seq<byte>>)
    requires Layout(b, tail, head, c, front, back) && front != []
    ensures var t := Following(tail, |front[0]|, c);
            if tail > head && |front| == 1 then Layout(b, t, head, c, back, [])
            else Layout(b, t, head, c, front[1..], back)
  {
    FrontDatagram(b, tail, head, c, front, back);
    if tail > head {
      EncodePrefixLength(front);
      if |front| > 1 {
        DropFirstKeepsLast(front);
      }
    }
  }

  lemma DropFirstKeepsLast(q: seq<seq<byte>>)
    requires |q| > 1
    ensures |Encode(q[..|q| - 1])| == HEADER_LENGTH + |q[0]| + |Encode(q[1..][..|q| - 2])|
    ensures |Encode(q)| == HEADER_LENGTH + |q[0]| + |Encode(q[1..])|
  {
    assert q[..|q| - 1][1..] == q[1..][..|q| - 2];
  }

  lemma QueueTail(front: seq<seq<byte>>, back: seq<seq<byte>>)
    requires front != []
    ensures [front[0]] + (front[1..] + back) == front + back
    ensures |front| == 1 ==> [front[0]] + (back + []) == front + back
  {
  }

  class DatagramBuffer {
    const buf: array<byte>
    const circularBufferLength: nat
    var head: nat
    var tail: nat
    ghost var front: seq<seq<byte>>
    ghost var back: seq<seq<byte>>

    ghost predicate Valid()
      reads this, buf
    {
      circularBufferLength > 0 && Layout(buf[..], tail, head, circularBufferLength, front, back)
    }

    /** The abstract FIFO of whole datagrams, oldest first. */
    ghost function Queue(): seq<seq<byte>>
      reads this
    {
      front + back
    }

    constructor (capacity: nat)
      ensures Valid() && fresh(buf) && Queue() == []
      ensures circularBufferLength == capacity + 1 && head == tail == 0
    {
      buf := new byte[capacity + MAX_BLOCK_LENGTH](_ => 0);
      circularBufferLength := capacity + 1;
      head, tail := 0, 0;
      front, back := [], [];
    }

    method IsEmpty() returns (b: bool)
      requires Valid()
      ensures b <==> Queue() == []
    {
      b := head == tail;
    }

    /** There is space if neither the block nor the head behind it will meet the tail from below. */
    method HasEnoughSpaceFor(n: nat) returns (b: bool)
      ensures b <==> HasSpace(head, tail, n)
      ensures b <==> !(head < tail <= head + HEADER_LENGTH + n)
    {
      if head >= tail {
        return true;
      }
      var remaining := tail - head - 1;
      b := HEADER_LENGTH + n <= remaining;
    }

    /**
     * Appends one datagram.  Of the lengths that the assertion lets through, all below 2^16 are
     * queued, except by the write that wraps onto a tail at 0, which loses the whole queue; the
     * length 2^16 is stored as 0.
     */
    method ReadFrom(source: seq<byte>) returns (ok: bool)
      requires Valid() && |source| <= MAX_DATAGRAM_LENGTH
      modifies `head, `front, `back, buf
      ensures ok <==> old(HasSpace(head, tail, |source|))
      ensures !ok ==> Valid() && Queue() == old(Queue()) && head == old(head) && buf[..] == old(buf[..])
      ensures ok ==> head == Following(old(head), |source|, circularBufferLength)
      ensures ok && |source| < 0x1_0000 ==> Valid()
      ensures ok && |source| < 0x1_0000 ==>
        Queue() == if old(WrapsOntoTail(head, tail, |source|, circularBufferLength)) then []
                   else old(Queue()) + [source]
      ensures ok && |source| == 0x1_0000 ==>
        buf[..][old(head)..old(head) + HEADER_LENGTH + |source|] == [0, 0] + source
    {
      hide Layout, Encode, Spliced, Block;
      LayoutBounds(buf[..], tail, head, circularBufferLength, front, back);
      var n := |source|;
      ok := HasEnoughSpaceFor(n);
      if !ok {
        return;
      }
      ghost var b, h := buf[..], head;
      if n < 0x1_0000 {
        if head >= tail {
          EnqueueStraight(b, tail, head, circularBufferLength, front, source);
          front := if WrapsOntoTail(head, tail, n, circularBufferLength) then [] else front + [source];
        } else {
          EnqueueWrapped(b, tail, head, circularBufferLength, front, back, source);
          back := back + [source];
        }
      }
      WriteBlock(source);
      if head >= circularBufferLength {
        head := 0;
      }
    }

    /** The length field, then the bytes. */
    method WriteBlock(source: seq<byte>)
      requires head + HEADER_LENGTH + |source| <= buf.Length
      modifies `head, buf
      ensures head == old(head) + HEADER_LENGTH + |source|
      ensures buf[..] == Spliced(old(buf[..]), old(head), Block(source))
      ensures buf[..][old(head)..head] == Be16(|source| % 0x1_0000) + source
    {
      SplicedTwice(buf[..], head, Be16(|source| % 0x1_0000), source);
      CopyInto(buf, head, Be16(|source| % 0x1_0000));
      head := head + 2;
      CopyInto(buf, head, source);
      head := head + |source|;
    }

    /**
     * Sends the front datagram, and removes it even if the send fails or is short.
     */
    method WriteTo(sent: nat, fails: bool) returns (datagram: seq<byte>, ok: bool)
      requires Valid() && Queue() != []
      modifies `tail, `front, `back
      ensures Valid()
      ensures [datagram] + Queue() == old(Queue())
      ensures ok <==> !fails && sent == |datagram|
    {
      hide Layout, Encode, FrontEnd;
      LayoutBounds(buf[..], tail, head, circularBufferLength, front, back);
      FrontDatagram(buf[..], tail, head, circularBufferLength, front, back);
      DequeueFront(buf[..], tail, head, circularBufferLength, front, back);
      QueueTail(front, back);
      datagram := ReadBlock(front[0]);
      if old(tail) > head && |front| == 1 {
        front, back := back, [];
      } else {
        front := front[1..];
      }
      if tail >= circularBufferLength {
        tail := 0;
      }
      ok := !fails && sent == |datagram|;
    }

    /** Reads the length at `tail` and passes the bytes that it counts. */
    method ReadBlock(ghost d: seq<byte>) returns (datagram: seq<byte>)
      requires tail + HEADER_LENGTH + |d| <= buf.Length
      requires FromBe16(buf[tail], buf[tail + 1]) == |d|
      requires buf[..][tail + HEADER_LENGTH..tail + HEADER_LENGTH + |d|] == d
      modifies `tail
      ensures datagram == d && tail == old(tail) + HEADER_LENGTH + |d|
    {
      tail := tail + 2;
      var length := FromBe16(buf[tail - 2], buf[tail - 1]);
      datagram := buf[tail..tail + length];
      assert buf[..][tail..tail + length] == datagram;
      tail := tail + length;
    }
  }

  /**
   * The buffer of a UDP flow, new and not yet drained: four datagrams of the largest size that fits
   * an IPv4 packet are queued, and a fifth of 107 bytes or more is accepted and loses them all.
   */
  method OverrunRelayBuffer(big: seq<byte>, last: seq<byte>) returns (buffer: DatagramBuffer, accepted: nat)
    requires |big| == 65507 && 107 <= |last| <= 65507
    ensures buffer.Valid() && fresh(buffer)
    ensures accepted == 5 && buffer.Queue() == []
  {
    hide Layout;
    buffer := new DatagramBuffer(4 * 0x1_0000);
    accepted := 0;
    while accepted < 4
      invariant accepted <= 4 && buffer.Valid() && fresh(buffer) && fresh(buffer.buf)
      invariant buffer.circularBufferLength == 4 * 0x1_0000 + 1
      invariant buffer.tail == 0 && buffer.head == accepted * (HEADER_LENGTH + 65507)
      invariant |buffer.Queue()| == accepted
    {
      var ok := buffer.ReadFrom(big);
      accepted := accepted + 1;
    }
    var ok := buffer.ReadFrom(last);
    accepted := accepted + if ok then 1 else 0;
  }

  lemma SplicedTwice(b: seq<byte>, at: nat, x: seq<byte>, y: seq<byte>)
    requires at + |x| + |y| <= |b|
    ensures Spliced(Spliced(b, at, x), at + |x|, y) == Spliced(b, at, x + y)
    ensures Spliced(b, at, x + y)[at..at + |x| + |y|] == x + y
  {
  }
}
