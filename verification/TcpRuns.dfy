/** Runs of the TCP endpoint, from a new flow on, that show where it falls short. */
module TcpRuns {
  import opened Words
  import opened TcpFlows
  import opened TcpTheorems
  import opened TcpCombined
  import PendingSources
  import opened TcpUpstream

  const SYN := Flags(false, true, false, false, false)

  lemma RunsCons(f: Flow, e: Event, es: seq<Event>)
    requires Possible(f, e) && Runs(Step(f, e), es)
    ensures Runs(f, [e] + es) && Run(f, [e] + es) == Run(Step(f, e), es)
  {
    assert ([e] + es)[1..] == es;
  }

  lemma {:induction false} RunsSnoc(f: Flow, es: seq<Event>, e: Event)
    requires Runs(f, es) && Possible(Run(f, es), e)
    ensures Runs(f, es + [e]) && Run(f, es + [e]) == Step(Run(f, es), e)
    decreases es
  {
    hide Step, Possible;
    if es == [] {
      assert [] + [e] == [e];
      RunsCons(f, e, []);
    } else {
      RunsSnoc(Step(f, es[0]), es[1..], e);
      assert (es + [e])[1..] == es[1..] + [e];
    }
  }

  /** One more event of a run. */
  lemma {:induction false} ReachedThen(f: Flow, headerLength: nat, es: seq<Event>, e: Event)
    requires Reached(f, headerLength, es) && Possible(f, e)
    ensures Reached(Step(f, e), headerLength, es + [e])
  {
    hide Step, Possible, Runs, Run, NewFlow;
    RunsSnoc(NewFlow(headerLength), es, e);
  }

  // ---------------------------------------------------------------------------------------
  // A client that connects
  // ---------------------------------------------------------------------------------------

  /** The client opens a window of 100 bytes, the host accepts, the client acknowledges. */
  function Handshake(): seq<Event> {
    [Packet(Segment(0, 0, SYN, 100, []), 1000, true), Writable(WriteBlocked, true),
     Packet(Segment(1, 1001, ACK, 100, []), 0, true)]
  }

  /** The relay has sent its SYN-ACK. */
  function AcceptedFlow(): Flow {
    var synAck := Image(1000, 1, SYN_ACK, 40);
    Flow(40, Tcb(SynReceived, 0, 1001, 1, 0, None, false, 100), [], None, synAck, [], false,
         NewHistory().(isn := 1000, synAcks := 1, wires := [Wire(Empty, synAck, [])]))
  }

  function ConnectedFlow(): Flow {
    AcceptedFlow().(tcb := Tcb(Established, 0, 1001, 1, 1001, None, false, 100))
  }

  lemma Accepts()
    ensures Reached(AcceptedFlow(), 40, Handshake()[..2])
  {
    var es := Handshake();
    var f0 := NewFlow(40);
    var f1 := f0.(tcb := Tcb(SynSent, 0, 1000, 1, 0, None, false, 100), h := f0.h.(isn := 1000));
    assert Step(f0, es[0]) == f1;
    assert Step(f1, es[1]) == AcceptedFlow();
    RunsCons(f1, es[1], []);
    RunsCons(f0, es[0], [es[1]]);
    assert es[..2] == [es[0]] + [es[1]];
  }

  lemma Connects()
    ensures Reached(ConnectedFlow(), 40, Handshake())
  {
    var es := Handshake();
    assert es == es[..2] + [es[2]];
    Accepts();
    AckCompletes();
    hide *;
    ReachedThen(AcceptedFlow(), 40, es[..2], es[2]);
  }

  lemma AckCompletes()
    ensures var e := Handshake()[2]; Possible(AcceptedFlow(), e) && Step(AcceptedFlow(), e) == ConnectedFlow()
  {
  }

  // ---------------------------------------------------------------------------------------
  // A packet that has to wait
  // ---------------------------------------------------------------------------------------

  function DeferralRun(): seq<Event> { Handshake() + [Readable(Data([7]), false)] }

  /** The flow after `DeferralRun`. */
  function DeferredFlow(): Flow {
    ConnectedFlow().(pending := Some(41), image := Image(1001, 1, PSH_ACK, 41), held := [7],
                     h := ConnectedFlow().h.(hostIn := [7]))
  }

  lemma DeferralIsReachable()
    ensures Reached(DeferredFlow(), 40, DeferralRun())
  {
    hide Reached, Step, Possible, ConnectedFlow, DeferredFlow;
    Connects();
    ReadWithoutRoom();
    ReachedThen(ConnectedFlow(), 40, Handshake(), Readable(Data([7]), false));
  }

  lemma ReadWithoutRoom()
    ensures var e := Readable(Data([7]), false);
            Possible(ConnectedFlow(), e) && Step(ConnectedFlow(), e) == DeferredFlow()
  {
  }

  /** Once its packet is pulled, the flow stands 40 bytes beyond its true position 1002. */
  lemma PullCanDrift()
    ensures exists f :: && Reached(f, 40, DeferralRun() + [Pull(true)])
                        && TruePosition(f.h) == 1002 && f.tcb.seqNum == 1042
  {
    DeferralIsReachable();
    PullWhilePending();
    hide Reached, Step, Possible, DeferredFlow, TruePosition;
    ReachedThen(DeferredFlow(), 40, DeferralRun(), Pull(true));
  }

  lemma PullWhilePending()
    ensures Possible(DeferredFlow(), Pull(true))
    ensures var f := Step(DeferredFlow(), Pull(true)); TruePosition(f.h) == 1002 && f.tcb.seqNum == 1042
  {
  }

  /**
   * One data segment whose bytes the host takes makes the relay acknowledge over the waiting
   * packet: the pull sends 41 bytes under a header that declares 40.
   */
  lemma DeferredPacketCanBeMisframed()
    ensures var es := DeferralRun() + [Packet(Segment(1, 1001, ACK, 100, [9]), 0, true)] + [Writable(Wrote(1), true)];
            exists f :: && Reached(f, 40, es) && Possible(f, Pull(true)) && f.pending.Some? && PendingFits(f)
                        && PendingWire(f).image.total == 40 && PendingWire(f).payload == [7]
  {
    var e1, e2 := Packet(Segment(1, 1001, ACK, 100, [9]), 0, true), Writable(Wrote(1), true);
    var f1 := DeferredFlow().(ring := [9]);
    hide *;
    DeferralIsReachable();
    DataWhilePending(f1);
    AckWhilePending(f1);
    ReachedThen(DeferredFlow(), 40, DeferralRun(), e1);
    ReachedThen(f1, 40, DeferralRun() + [e1], e2);
  }

  lemma DataWhilePending(f1: Flow)
    requires f1 == DeferredFlow().(ring := [9])
    ensures var e := Packet(Segment(1, 1001, ACK, 100, [9]), 0, true);
            Possible(DeferredFlow(), e) && Step(DeferredFlow(), e) == f1
  {
  }

  lemma AckWhilePending(f1: Flow)
    requires f1 == DeferredFlow().(ring := [9])
    ensures Possible(f1, Writable(Wrote(1), true))
    ensures var f := Step(f1, Writable(Wrote(1), true));
            && Possible(f, Pull(true)) && f.pending.Some? && PendingFits(f)
            && PendingWire(f).image.total == 40 && PendingWire(f).payload == [7]
  {
  }

  /** A reset closes the flow while it is still on the client's pending list: the next pass panics. */
  lemma ClosedFlowCanStayPending()
    ensures exists f :: && Reached(f, 40, DeferralRun() + [Packet(Segment(1, 1001, RST, 100, []), 0, true)])
                        && f.closed && f.pending == Some(41) && PendingFits(f)
                        && forall free: nat | free >= 41 :: PassPanics(f, free)
  {
    var e := Packet(Segment(1, 1001, RST, 100, []), 0, true);
    hide *;
    DeferralIsReachable();
    ResetWhilePending();
    ReachedThen(DeferredFlow(), 40, DeferralRun(), e);
    var f := Step(DeferredFlow(), e);
    forall free: nat | free >= 41
      ensures PassPanics(f, free)
    {
      ClosedPanics(f, free);
    }
  }

  /** The client's pass panics if this flow alone is listed. */
  predicate PassPanics(f: Flow, free: nat)
    requires f.pending.Some? && PendingFits(f)
  {
    PendingSources.AllWaiting(map[0 := f], [0]) && PendingSources.Pass(map[0 := f], [0], free).panicked
  }

  lemma ClosedPanics(f: Flow, free: nat)
    requires f.closed && f.pending.Some? && PendingFits(f) && f.pending.value <= free
    ensures PassPanics(f, free)
  {
    assert PendingSources.AllWaiting(map[0 := f], [0]);
  }

  lemma ResetWhilePending()
    ensures var e := Packet(Segment(1, 1001, RST, 100, []), 0, true);
            && Possible(DeferredFlow(), e)
            && var f := Step(DeferredFlow(), e);
               f.closed && f.pending == Some(41) && PendingFits(f)
  {
  }

  /** The client's FIN is answered with the relay's, number 1001; the waiting byte is sent behind it. */
  lemma DataCanFollowFin()
    ensures var es := DeferralRun() + [Packet(Segment(1, 1001, FIN_ACK, 100, []), 0, true)];
            exists f :: && Reached(f, 40, es) && f.tcb.fin == Some(1001) && Possible(f, Pull(true))
                        && PendingWire(f).payload == [7] && Step(f, Pull(true)).tcb.seqNum == 1002 + 41
  {
    var e := Packet(Segment(1, 1001, FIN_ACK, 100, []), 0, true);
    hide *;
    DeferralIsReachable();
    FinWhilePending();
    PulledBehindFin();
    ReachedThen(DeferredFlow(), 40, DeferralRun(), e);
    assert Reached(FinnedFlow(), 40, DeferralRun() + [e]);
  }

  /** The flow that has answered the client's FIN over the waiting packet. */
  function FinnedFlow(): Flow {
    var finAck := Image(1001, 2, FIN_ACK, 40);
    DeferredFlow().(tcb := Tcb(LastAck, 0, 1002, 2, 1001, Some(1001), true, 100), image := finAck,
                    h := DeferredFlow().h.(finsTaken := 1, fins := 1, clobbered := true,
                                           wires := DeferredFlow().h.wires + [Wire(Empty, finAck, [])]))
  }

  lemma FinWhilePending()
    ensures var e := Packet(Segment(1, 1001, FIN_ACK, 100, []), 0, true);
            Possible(DeferredFlow(), e) && Step(DeferredFlow(), e) == FinnedFlow()
  {
    var f := DeferredFlow().(tcb := DeferredFlow().tcb.(finReceived := true));
    assert DoHandleFin(f, true) == FinnedFlow();
  }

  lemma PulledBehindFin()
    ensures var f := FinnedFlow();
            && f.tcb.fin == Some(1001) && Possible(f, Pull(true)) && PendingWire(f).payload == [7]
            && Step(f, Pull(true)).tcb.seqNum == 1002 + 41
  {
  }

  // ---------------------------------------------------------------------------------------
  // A FIN in the segment that completes the handshake
  // ---------------------------------------------------------------------------------------

  /** Its payload is dropped and its FIN taken: the host gets nothing of the one-byte stream. */
  lemma FinCanOvertakeData()
    ensures var e := Packet(Segment(1, 1001, FIN_ACK, 100, [9]), 0, true);
            && InStream([9], AcceptedFlow(), e.seg, 0) && !PayloadKept(AcceptedFlow(), e.seg)
            && Reached(AcceptedFlow(), 40, Handshake()[..2])
            && exists f :: && Reached(f, 40, Handshake()[..2] + [e])
                           && TakesFinShort([9], f) && f.h.hostOut + f.ring == [] && f.tcb.ackNum == 2
  {
    var e := Packet(Segment(1, 1001, FIN_ACK, 100, [9]), 0, true);
    hide Step, Possible, Reached, AcceptedFlow, InStream, PayloadKept, TakesFinShort;
    Accepts();
    FinWithByte();
    ReachedThen(AcceptedFlow(), 40, Handshake()[..2], e);
  }

  lemma FinWithByte()
    ensures var e := Packet(Segment(1, 1001, FIN_ACK, 100, [9]), 0, true);
            && InStream([9], AcceptedFlow(), e.seg, 0) && !PayloadKept(AcceptedFlow(), e.seg)
            && Possible(AcceptedFlow(), e)
            && var f := Step(AcceptedFlow(), e);
               TakesFinShort([9], f) && f.h.hostOut + f.ring == [] && f.tcb.ackNum == 2
  {
    hide Reached;
  }

  // ---------------------------------------------------------------------------------------
  // An event that is both writable and readable
  // ---------------------------------------------------------------------------------------

  /** The client has sent one byte and its FIN, under the given window; the byte is buffered. */
  function DrainingFlow(window: u16): Flow {
    ConnectedFlow().(tcb := Tcb(Established, 0, 1001, 1, 1001, None, true, window), ring := [9])
  }

  lemma DrainingIsReachable(window: u16)
    ensures Reached(DrainingFlow(window), 40, Handshake() + [Packet(Segment(1, 1001, FIN_ACK, window, [9]), 0, true)])
    ensures window > 0 ==> MayRead(DrainingFlow(window)) && RemainingWindow(DrainingFlow(window).tcb) == window
  {
    var e := Packet(Segment(1, 1001, FIN_ACK, window, [9]), 0, true);
    hide *;
    Connects();
    FinBehindByte(window);
    WindowIsOpen(window);
    ReachedThen(ConnectedFlow(), 40, Handshake(), e);
  }

  lemma WindowIsOpen(window: u16)
    ensures RemainingWindow(DrainingFlow(window).tcb) == window
    ensures window > 0 ==> MayRead(DrainingFlow(window))
  {
    WrapSmall(window);
  }

  lemma FinBehindByte(window: u16)
    ensures var e := Packet(Segment(1, 1001, FIN_ACK, window, [9]), 0, true);
            Possible(ConnectedFlow(), e) && Step(ConnectedFlow(), e) == DrainingFlow(window)
  {
  }

  /** Under a window of 1 the read's assertion fails; under a larger one data follows the FIN 1001. */
  lemma ReadAfterWriteCanBreak(window: u16)
    requires window > 0
    ensures var f, w := DrainingFlow(window), Wrote(1);
            if window == 1 then ReadPanics(f, w, true)
            else var e := Both(w, true, Data([7]), true);
                 && Possible(f, e) && !Orderly(f, e)
                 && Step(f, e).tcb.fin == Some(1001)
                 && Step(f, e).h.wires != [] && Step(f, e).h.wires[|Step(f, e).h.wires| - 1].image.seqNum == 1002
  {
    var f := DrainingFlow(window);
    DrainingIsReachable(window);
    ReachedIsTallied(f, 40, Handshake() + [Packet(Segment(1, 1001, FIN_ACK, window, [9]), 0, true)]);
    ReadableStill(f, Wrote(1), true);
    WindowAfterWrite(f, Wrote(1), true);
    ReadAfterWriteInOneEvent(f, [7]);
    hide Tally, Reached, ProcessSend, ProcessReceive, RemainingWindow, MayRead;
  }
}
