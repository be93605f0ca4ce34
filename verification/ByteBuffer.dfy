/** The shift-down buffer that the relay reads the phone's stream into (relay/src/relay/byte_buffer.rs). */
module ByteBuffers {
  import opened Words
  import opened Splicing

  class ByteBuffer {
    const buf: array<byte>
    var head: nat

    ghost predicate Valid()
      reads this
    {
      head <= buf.Length
    }

    /** The abstract FIFO, which `peek` shows. */
    ghost function Contents(): (s: seq<byte>)
      reads this, buf
      requires Valid()
      ensures |s| == head
    {
      buf[..head]
    }

    constructor (length: nat)
      ensures Valid() && fresh(buf) && buf.Length == length && Contents() == []
    {
      buf := new byte[length](_ => 0);
      head := 0;
    }

    /** Reads what the source has, as far as there is room; nothing read means end of stream. */
    method ReadFrom(source: seq<byte>) returns (any: bool)
      requires Valid()
      modifies this, buf
      ensures Valid()
      ensures var n := Min(|source|, buf.Length - |old(Contents())|);
              Contents() == old(Contents()) + source[..n] && any == (n > 0)
    {
      var r := Min(|source|, buf.Length - head);
      CopyInto(buf, head, source[..r]);
      head := head + r;
      any := r > 0;
    }

    method Peek() returns (s: seq<byte>)
      requires Valid()
      ensures s == Contents()
    {
      s := buf[..head];
    }

    /** Drops the first `length` bytes and moves the others to the front. */
    method Consume(length: nat)
      requires Valid() && length <= |Contents()|
      modifies this, buf
      ensures Valid() && Contents() == old(Contents())[length..]
    {
      ghost var b := buf[..];
      head := head - length;
      if head > 0 {
        var i := 0;
        while i < head
          invariant head == old(head) - length && i <= head
          invariant forall k | 0 <= k < i :: buf[k] == b[length + k]
          invariant forall k | length + i <= k < buf.Length :: buf[k] == b[k]
        {
          buf[i] := buf[length + i];
          i := i + 1;
        }
      }
    }
  }
}
