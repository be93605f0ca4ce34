/**
 * The poll event that is both writable and readable: the relay writes and then reads, and between
 * the two tests nothing but `closed` (relay/src/relay/tcp_connection.rs, `process`).
 */
module TcpCombined {
  import opened Words
  import opened TcpFlows
  import opened TcpTheorems

  /** What the write leaves for the read: one byte less of window exactly if it sent our FIN. */
  lemma WindowAfterWrite(f: Flow, w: WriteOutcome, room: bool)
    requires Tally(f) && !f.closed && MayRead(f) && (w.Wrote? ==> w.n <= |f.ring|)
    ensures RemainingWindow(AfterWrite(f, w, room).tcb) == RemainingWindow(f.tcb) - if WritesLast(f, w) then 1 else 0
  {
    hide Sent, Count, Deferred, Wrap, RemainingWindow;
    var g := AfterWrite(f, w, room);
    if WritesLast(f, w) {
      WindowAfterOneByte(f.tcb);
      WindowIgnores(f.tcb.(seqNum := Wrap(f.tcb.seqNum + 1)), g.tcb);
    } else {
      WindowIgnores(f.tcb, g.tcb);
    }
  }

  lemma WindowAfterOneByte(t: Tcb)
    requires RemainingWindow(t) > 0
    ensures RemainingWindow(t.(seqNum := Wrap(t.seqNum + 1))) == RemainingWindow(t) - 1
  {
    WrapAdd(t.theirAck + t.window - t.seqNum, -1);
    WrapDifference(t.theirAck + t.window, t.seqNum + 1);
  }

  lemma WrapDifference(x: int, y: int)
    ensures Wrap(x - Wrap(y)) == Wrap(x - y)
  {
    var q := y / TWO32;
    assert x - Wrap(y) == x - y + q * TWO32;
    WrapShift(x - y, q);
  }

  /**
   * The read's assertions fail exactly when the write has sent our FIN into the last byte of the
   * client's window.
   */
  lemma ReadPanicsIff(f: Flow, w: WriteOutcome, room: bool)
    requires Tally(f) && !f.closed && MayRead(f) && (w.Wrote? ==> w.n <= |f.ring|)
    ensures ReadPanics(f, w, room) <==> WritesLast(f, w) && RemainingWindow(f.tcb) == 1
  {
    ReadableStill(f, w, room);
    WindowAfterWrite(f, w, room);
    hide Tally, ProcessSend, ProcessConnect, RemainingWindow;
  }

  /**
   * A combined event that does not panic always keeps the counts, and keeps the life cycle exactly
   * when no packet of the read follows a FIN of the write.
   */
  lemma CombinedEventIsSafeIff(f: Flow, e: Event)
    requires Good(f) && e.Both? && Possible(f, e)
    ensures Tally(Step(f, e))
    ensures Life(Step(f, e)) <==> Orderly(f, e)
    ensures Good(Step(f, e)) && Rises(f, Step(f, e)) <==> Orderly(f, e)
  {
    hide Tally;
    GoodStep(false, f, e);
    if Orderly(f, e) {
      GoodStep(true, f, e);
    } else {
      ReadableStill(f, e.written, e.room);
      GoodSend(true, f, e.written, e.room);
      hide ProcessSend, Life;
      ReadAfterFinBreaks(AfterWrite(f, e.written, e.room), e.read, e.readRoom);
    }
  }

  /** Unless the write sent our FIN, the event is a write and then a read that `may_read` allows. */
  lemma CombinedEventIsTwoSteps(f: Flow, w: WriteOutcome, room: bool, r: ReadOutcome, readRoom: bool)
    requires Tally(f) && !f.closed && Possible(f, Both(w, room, r, readRoom)) && GoesOn(f, w, room)
    ensures !WritesLast(f, w) <==> Possible(Step(f, Writable(w, room)), Readable(r, readRoom))
    ensures !WritesLast(f, w) ==>
      Step(f, Both(w, room, r, readRoom)) == Step(Step(f, Writable(w, room)), Readable(r, readRoom))
  {
    assert f.tcb.state != CloseWait;
    ReadableStill(f, w, room);
    WriteStarted(f, w, room);
    hide Tally, ProcessSend, ProcessConnect, ProcessReceive, RemainingWindow;
  }

  lemma WriteStarted(f: Flow, w: WriteOutcome, room: bool)
    requires f.tcb.state != Init && (w.Wrote? ==> w.n <= |f.ring|)
    ensures AfterWrite(f, w, room).tcb.state != Init
  {
  }

  /** A second FIN, or data numbered like it: the number is no longer one past the FIN. */
  lemma ReadAfterFinBreaks(g: Flow, r: ReadOutcome, room: bool)
    requires Life(g) && g.tcb.state == LastAck && ReadFits(g, r) && g.h.afterFin == 0
    requires r.Eof? || (r.Data? && room)
    ensures !Life(ProcessReceive(g, r, room))
  {
    hide Wrap, RemainingWindow;
    if r.Data? && Life(ProcessReceive(g, r, room)) {
      WrapAdd(g.tcb.fin.value + 1, |r.bytes|);
      WrapInjective(g.tcb.fin.value + 1 + |r.bytes|, g.tcb.fin.value + 1);
    }
  }

  /**
   * Without room for doubt: the last byte before a received FIN is written, the FIN goes out, and
   * what the same event reads is put behind it, or panics the relay for want of window.
   */
  lemma ReadAfterWriteInOneEvent(f: Flow, bytes: seq<byte>)
    requires Tally(f) && !f.closed && MayRead(f)
    requires f.tcb.finReceived && f.ring != [] && bytes != []
    ensures ReadPanics(f, Wrote(|f.ring|), true) <==> RemainingWindow(f.tcb) == 1
    ensures var g := ProcessReceive(AfterWrite(f, Wrote(|f.ring|), true), Data(bytes), true);
            && g.tcb.fin == Some(f.tcb.seqNum)
            && g.h.wires != [] && g.h.wires[|g.h.wires| - 1].payload == bytes
            && g.h.wires[|g.h.wires| - 1].image.seqNum == Wrap(f.tcb.seqNum + 1)
  {
    ReadPanicsIff(f, Wrote(|f.ring|), true);
    hide Sent, Count, Deferred, Wrap, RemainingWindow;
  }
}
