/** The packets of the TCP flows as bytes on the client's link. */
module FlowPackets {
  import opened Words
  import opened IpPackets
  import opened Framing
  import opened WireBytes
  import F = TcpFlows
  import T = TcpTheorems
  import D = TcpDownstream
  import P = PendingSources
  import Clients

  // ---------------------------------------------------------------------------------------
  // What the flows of a client have put on the link
  // ---------------------------------------------------------------------------------------

  /**
   * What happens at one client: a flow is opened, an event of a flow puts the bytes of its new
   * packets on the link, or the link takes a well-formed packet of another kind.
   */
  datatype Act =
    | Open(id: P.Id, headerLength: nat)
    | Happen(id: P.Id, e: F.Event, raws: seq<seq<byte>>)
    | Other(raw: seq<byte>)

  /** The packets that an event of a flow puts on the link. */
  function NewWires(f: F.Flow, e: F.Event): seq<F.Wire>
    requires F.Possible(f, e)
  {
    WiresGrow(f, e);
    F.Step(f, e).h.wires[|f.h.wires|..]
  }

  /** A connection whose sent bytes realise its packets before and after an event performs such an act. */
  lemma NewBytesRealise(f: F.Flow, e: F.Event, before: seq<seq<byte>>, after: seq<seq<byte>>)
    requires F.Possible(f, e) && before <= after
    requires AllRealised(f.headerLength, before, f.h.wires)
    requires AllRealised(f.headerLength, after, F.Step(f, e).h.wires)
    ensures AllRealised(f.headerLength, after[|before|..], NewWires(f, e))
  {
    WiresGrow(f, e);
    hide Realises, F.Step, F.Possible;
  }

  predicate May(flows: map<P.Id, F.Flow>, a: Act) {
    match a
    case Open(id, _) => id !in flows
    case Happen(id, e, raws) =>
      id in flows && F.Possible(flows[id], e) && AllRealised(flows[id].headerLength, raws, NewWires(flows[id], e))
    case Other(raw) => IsWellFormedIpPacket(raw)
  }

  function After(flows: map<P.Id, F.Flow>, a: Act): map<P.Id, F.Flow>
    requires May(flows, a)
  {
    match a
    case Open(id, headerLength) => flows[id := F.NewFlow(headerLength)]
    case Happen(id, e, _) => flows[id := F.Step(flows[id], e)]
    case Other(_) => flows
  }

  function Output(a: Act): seq<seq<byte>> {
    match a
    case Open(_, _) => []
    case Happen(_, _, raws) => raws
    case Other(raw) => [raw]
  }

  predicate Acts(flows: map<P.Id, F.Flow>, acts: seq<Act>)
    decreases acts
  {
    acts == [] || (May(flows, acts[0]) && Acts(After(flows, acts[0]), acts[1..]))
  }

  function AfterAll(flows: map<P.Id, F.Flow>, acts: seq<Act>): map<P.Id, F.Flow>
    requires Acts(flows, acts)
    decreases acts
  {
    if acts == [] then flows else AfterAll(After(flows, acts[0]), acts[1..])
  }

  /** All that the link has taken, in order. */
  function Accepted(acts: seq<Act>): seq<seq<byte>> {
    if acts == [] then [] else Output(acts[0]) + Accepted(acts[1..])
  }

  /**
   * In every run of a client, all that it has accepted is well formed, so that the phone can take
   * it apart, exactly when none of its flows has sent a deferred packet that a reply was built over.
   */
  lemma {:induction false} AcceptedAreWellFormedIff(acts: seq<Act>)
    requires Acts(map[], acts)
    ensures var flows := AfterAll(map[], acts);
            AllWellFormed(Accepted(acts)) <==> forall id | id in flows :: flows[id].h.clobberedPulls == 0
  {
    FramedRun(map[], acts);
    var flows := AfterAll(map[], acts);
    hide AfterAll, Acts, AllWellFormed, AllFramed, T.Tally;
    forall id | id in flows
      ensures AllFramed(flows[id]) <==> flows[id].h.clobberedPulls == 0
    {
      FramedIff(flows[id]);
    }
  }

  /** Every packet that the flow has sent declares its own length. */
  predicate AllFramed(f: F.Flow) { Framed(f.headerLength, f.h.wires) }

  predicate Framed(headerLength: nat, ws: seq<F.Wire>) {
    forall i | 0 <= i < |ws| :: T.WellFramed(headerLength, ws[i])
  }

  lemma FramedIff(f: F.Flow)
    requires T.Tally(f)
    ensures AllFramed(f) <==> f.h.clobberedPulls == 0
  {
    D.NoneMisframed(f.headerLength, f.h.wires);
  }

  ghost predicate FlowsFramed(flows: map<P.Id, F.Flow>) { forall id | id in flows :: AllFramed(flows[id]) }

  ghost predicate FlowsTallied(flows: map<P.Id, F.Flow>) { forall id | id in flows :: T.Tally(flows[id]) }

  lemma {:induction false} FramedRun(flows: map<P.Id, F.Flow>, acts: seq<Act>)
    requires Acts(flows, acts) && FlowsTallied(flows)
    ensures FlowsTallied(AfterAll(flows, acts))
    ensures FlowsFramed(AfterAll(flows, acts)) <==> FlowsFramed(flows) && AllWellFormed(Accepted(acts))
    decreases acts
  {
    hide FlowsFramed, FlowsTallied, AllWellFormed, May, After, Output;
    if acts == [] {
      NoneTaken();
    } else {
      FramedAct(flows, acts[0]);
      FramedRun(After(flows, acts[0]), acts[1..]);
      WellFormedBoth(Output(acts[0]), Accepted(acts[1..]));
    }
  }

  lemma NoneTaken()
    ensures AllWellFormed([])
  {
  }

  lemma WellFormedBoth(ps: seq<seq<byte>>, qs: seq<seq<byte>>)
    ensures AllWellFormed(ps + qs) <==> AllWellFormed(ps) && AllWellFormed(qs)
  {
    hide IsWellFormedIpPacket;
    forall p | p in ps || p in qs
      ensures p in ps + qs
    {
    }
  }

  /** One act frames its flow as it forms its bytes. */
  lemma FramedAct(flows: map<P.Id, F.Flow>, a: Act)
    requires May(flows, a) && FlowsTallied(flows)
    ensures FlowsTallied(After(flows, a))
    ensures FlowsFramed(After(flows, a)) <==> FlowsFramed(flows) && AllWellFormed(Output(a))
  {
    hide AllFramed, AllWellFormed, AllRealised, NewWires, T.Tally, F.Step, F.Possible, F.NewFlow, IsWellFormedIpPacket;
    match a
    case Open(id, headerLength) =>
      NewIsFramed(headerLength);
      NoneTaken();
      Without(flows, id, F.NewFlow(headerLength));
    case Happen(id, e, raws) =>
      T.GoodStep(false, flows[id], e);
      FramedStep(flows[id], e, raws);
      Without(flows, id, F.Step(flows[id], e));
    case Other(raw) =>
      OneTaken(raw);
  }

  lemma NewIsFramed(headerLength: nat)
    ensures T.Tally(F.NewFlow(headerLength)) && AllFramed(F.NewFlow(headerLength))
  {
    T.NewFlowIsGood(headerLength);
  }

  lemma OneTaken(raw: seq<byte>)
    ensures AllWellFormed([raw]) <==> IsWellFormedIpPacket(raw)
  {
    assert raw in [raw];
  }

  lemma Without(flows: map<P.Id, F.Flow>, id: P.Id, g: F.Flow)
    ensures FlowsFramed(flows[id := g]) <==> AllFramed(g) && forall x | x in flows && x != id :: AllFramed(flows[x])
  {
    hide AllFramed;
    var after := flows[id := g];
    assert id in after && after[id] == g;
    assert forall x | x in flows && x != id :: x in after && after[x] == flows[x];
  }

  lemma FramedStep(f: F.Flow, e: F.Event, raws: seq<seq<byte>>)
    requires F.Possible(f, e) && AllRealised(f.headerLength, raws, NewWires(f, e))
    requires F.Step(f, e).headerLength == f.headerLength
    ensures AllFramed(F.Step(f, e)) <==> AllFramed(f) && AllWellFormed(raws)
  {
    hide F.Step, F.Possible, T.WellFramed, Realises, IsWellFormedIpPacket;
    WiresGrow(f, e);
    var ws, us := F.Step(f, e).h.wires, NewWires(f, e);
    assert ws == f.h.wires + us;
    forall i | 0 <= i < |us|
      ensures T.WellFramed(f.headerLength, us[i]) <==> IsWellFormedIpPacket(raws[i])
    {
      RealisedIsWellFormedIff(raws[i], f.headerLength, us[i]);
    }
    FramedAppend(f.headerLength, f.h.wires, us);
    assert Framed(f.headerLength, us) <==> AllWellFormed(raws) by {
      assert forall i | 0 <= i < |raws| :: raws[i] in raws;
    }
  }

  lemma FramedAppend(headerLength: nat, ws: seq<F.Wire>, us: seq<F.Wire>)
    ensures Framed(headerLength, ws + us) <==> Framed(headerLength, ws) && Framed(headerLength, us)
  {
    hide T.WellFramed;
    assert forall i | 0 <= i < |ws| :: (ws + us)[i] == ws[i];
    assert forall i | 0 <= i < |us| :: (ws + us)[|ws| + i] == us[i];
  }

  /** What is on the link stays there. */
  lemma WiresGrow(f: F.Flow, e: F.Event)
    requires F.Possible(f, e)
    ensures f.h.wires <= F.Step(f, e).h.wires
  {
    hide F.HandlePacket, F.AfterWrite, F.ProcessReceive, F.RemainingWindow;
    match e
    case Packet(seg, isn, room) => WiresGrowPacket(f, seg, isn, room);
    case Writable(w, room) => WiresGrowWrite(f, w, room);
    case Both(w, room, r, readRoom) =>
      WiresGrowWrite(f, w, room);
      WiresGrowRead(F.AfterWrite(f, w, room), r, readRoom);
    case Readable(r, room) => WiresGrowRead(f, r, room);
    case _ =>
  }

  lemma WiresGrowPacket(f: F.Flow, seg: F.Segment, isn: u32, room: bool)
    ensures f.h.wires <= F.HandlePacket(f, seg, isn, room).h.wires
  {
    hide F.HandleExpected, Wrap;
    WiresGrowExpected(f.(tcb := f.tcb.(window := seg.window, theirAck := seg.ackNum)), seg, room);
  }

  lemma WiresGrowExpected(f: F.Flow, seg: F.Segment, room: bool)
    ensures f.h.wires <= F.HandleExpected(f, seg, room).h.wires
  {
    hide F.DoHandleFin, Wrap;
    var acked := if seg.flags.ack then F.HandleAck(f, seg.payload) else f;
    WiresGrowFin(acked.(tcb := acked.tcb.(finReceived := true)), room);
  }

  lemma WiresGrowFin(f: F.Flow, room: bool)
    ensures f.h.wires <= F.DoHandleFin(f, room).h.wires
  {
    hide Wrap;
  }

  lemma WiresGrowWrite(f: F.Flow, w: F.WriteOutcome, room: bool)
    requires w.Wrote? ==> w.n <= |f.ring|
    ensures f.h.wires <= F.AfterWrite(f, w, room).h.wires
  {
    hide F.DoHandleFin, Wrap;
    if w.Wrote? {
      WiresGrowFin(f.(tcb := f.tcb.(ackNum := Wrap(f.tcb.ackNum + w.n)), ring := f.ring[w.n..],
                      h := f.h.(hostOut := f.h.hostOut + f.ring[..w.n])), room);
    }
  }

  lemma WiresGrowRead(f: F.Flow, r: F.ReadOutcome, room: bool)
    ensures f.h.wires <= F.ProcessReceive(f, r, room).h.wires
  {
    hide Wrap;
  }

  // ---------------------------------------------------------------------------------------
  // The pass over the waiting flows, as the link sees it
  // ---------------------------------------------------------------------------------------

  /** `raws` are the waiting packets of `ids`. */
  predicate Waits(flows: map<P.Id, F.Flow>, ids: seq<P.Id>, raws: seq<seq<byte>>)
    requires P.AllWaiting(flows, ids)
  {
    && |raws| == |ids|
    && forall i | 0 <= i < |ids| :: ids[i] in flows && flows[ids[i]].pending == Some(|raws[i]|)
  }

  /** A pass that does not panic keeps the flows whose packets the link keeps waiting. */
  lemma {:induction false} PassIsLinkPass(flows: map<P.Id, F.Flow>, ids: seq<P.Id>, raws: seq<seq<byte>>, free: nat)
    requires P.AllWaiting(flows, ids) && Waits(flows, ids, raws)
    requires !P.Pass(flows, ids, free).panicked
    ensures P.Pass(flows, ids, free).kept == Clients.KeptOf(free, raws, ids)
    ensures P.Pass(flows, ids, free).free + |Flatten(Clients.Taken(free, raws))| == free
    decreases ids
  {
    if ids != [] {
      P.FrontWaits(flows, ids);
      var f := flows[ids[0]];
      P.PassStep(flows, ids, free, f, F.Next(f));
      P.HeadAndRest(flows, ids, F.Next(f));
      hide F.Next, P.Pass, P.AllWaiting;
      if f.pending.value > free {
        PassIsLinkPass(flows, ids[1..], raws[1..], free);
      } else {
        PassIsLinkPass(flows[ids[0] := F.Next(f)], ids[1..], raws[1..], free - f.pending.value);
      }
    }
  }
}
