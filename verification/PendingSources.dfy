/**
 * The client's list of flows whose packet found no room on the link
 * (relay/src/relay/client.rs, `register_pending_packet_source` and `process_pending`).
 */
module PendingSources {
  import opened Words
  import F = TcpFlows
  import T = TcpTheorems

  type Id = nat

  predicate Distinct(ids: seq<Id>) { forall i, j | 0 <= i < j < |ids| :: ids[i] != ids[j] }

  /** A packet of the flow waits, whole, in its buffer. */
  predicate Waiting(flows: map<Id, F.Flow>, id: Id) {
    id in flows && flows[id].pending.Some? && F.PendingFits(flows[id])
  }

  predicate AllWaiting(flows: map<Id, F.Flow>, ids: seq<Id>) {
    Distinct(ids) && forall id | id in ids :: Waiting(flows, id)
  }

  lemma HeadAndRest(flows: map<Id, F.Flow>, ids: seq<Id>, f: F.Flow)
    requires AllWaiting(flows, ids) && ids != []
    ensures Waiting(flows, ids[0]) && ids[0] !in ids[1..]
    ensures AllWaiting(flows, ids[1..])
    ensures AllWaiting(flows[ids[0] := f], ids[1..])
    ensures forall id :: id in ids <==> id == ids[0] || id in ids[1..]
  {
    assert ids == [ids[0]] + ids[1..];
  }

  /** A flow is listed, and listed once, exactly while a packet of it waits. */
  ghost predicate Agree(flows: map<Id, F.Flow>, list: seq<Id>) {
    && AllWaiting(flows, list)
    && (forall id | id in flows && flows[id].pending.Some? :: id in list)
    && (forall id | id in flows :: T.Tally(flows[id]))
  }

  /** One pass over the list with `free` bytes of room: packets that fit go, in list order. */
  datatype Outcome = Outcome(flows: map<Id, F.Flow>, kept: seq<Id>, free: nat, panicked: bool)

  /** `o` with ids kept before it. */
  function Behind(kept: seq<Id>, o: Outcome): Outcome { o.(kept := kept + o.kept) }

  /** The waiting packet is sent, and counted, if it fits; `next` panics on a closed flow. */
  function Pass(flows: map<Id, F.Flow>, ids: seq<Id>, free: nat): (o: Outcome)
    requires AllWaiting(flows, ids)
    decreases ids
  {
    if ids == [] then Outcome(flows, [], free, false)
    else
      assert ids[0] in ids;
      var id, rest := ids[0], ids[1..];
      var f := flows[id];
      HeadAndRest(flows, ids, F.Next(f));
      if f.pending.value > free then
        Behind([id], Pass(flows, rest, free))
      else if f.closed then Outcome(flows, rest, free, true)
      else Pass(flows[id := F.Next(f)], rest, free - f.pending.value)
  }

  /** One step of a pass whose front flow is `f`, and `g` once its packet is gone. */
  lemma {:induction false} PassStep(flows: map<Id, F.Flow>, ids: seq<Id>, free: nat, f: F.Flow, g: F.Flow)
    requires AllWaiting(flows, ids) && ids != []
    requires ids[0] in flows && f == flows[ids[0]] && f.pending.Some? && F.PendingFits(f) && g == F.Next(f)
    ensures AllWaiting(flows, ids[1..]) && AllWaiting(flows[ids[0] := g], ids[1..])
    ensures Pass(flows, ids, free) ==
            if f.pending.value > free then Behind([ids[0]], Pass(flows, ids[1..], free))
            else if f.closed then Outcome(flows, ids[1..], free, true)
            else Pass(flows[ids[0] := g], ids[1..], free - f.pending.value)
  {
    hide F.Next, F.PendingFits;
    HeadAndRest(flows, ids, g);
    hide AllWaiting;
  }

  lemma FrontWaits(flows: map<Id, F.Flow>, ids: seq<Id>)
    requires AllWaiting(flows, ids) && ids != []
    ensures ids[0] in flows && flows[ids[0]].pending.Some? && F.PendingFits(flows[ids[0]])
  {
    assert ids[0] in ids;
  }

  /** The ids that still wait, in their old order. */
  function StillWaiting(flows: map<Id, F.Flow>, ids: seq<Id>): seq<Id> {
    if ids == [] then []
    else (if Waiting(flows, ids[0]) then [ids[0]] else []) + StillWaiting(flows, ids[1..])
  }

  /** The rest of the pass leaves the front flow as it is by then. */
  lemma PassRest(flows: map<Id, F.Flow>, rest: seq<Id>, free: nat, left: nat, f: F.Flow, id: Id)
    requires id in flows && id !in rest && AllWaiting(flows, rest) && AllWaiting(flows[id := f], rest)
    ensures var o := Pass(flows, rest, free); id in o.flows && o.flows[id] == flows[id]
    ensures var o := Pass(flows[id := f], rest, left); id in o.flows && o.flows[id] == f
  {
    PassTouchesListed(flows, rest, free);
    PassTouchesListed(flows[id := f], rest, left);
  }

  lemma {:induction false} PassTouchesListed(flows: map<Id, F.Flow>, ids: seq<Id>, free: nat)
    requires AllWaiting(flows, ids)
    ensures var o := Pass(flows, ids, free);
            o.flows.Keys == flows.Keys && forall id | id in flows && id !in ids :: o.flows[id] == flows[id]
    decreases ids
  {
    if ids != [] {
      FrontWaits(flows, ids);
      var f := flows[ids[0]];
      PassStep(flows, ids, free, f, F.Next(f));
      hide F.Next, AllWaiting, Pass;
      if f.pending.value > free {
        PassTouchesListed(flows, ids[1..], free);
      } else if !f.closed {
        PassTouchesListed(flows[ids[0] := F.Next(f)], ids[1..], free - f.pending.value);
      }
    }
  }

  /**
   * A pass that does not panic keeps exactly the flows whose packet did not fit, in order; every
   * other listed flow has sent its packet, and the rest of the flows are untouched.
   */
  lemma {:induction false} PassSendsOrKeeps(flows: map<Id, F.Flow>, ids: seq<Id>, free: nat)
    requires AllWaiting(flows, ids)
    ensures var o := Pass(flows, ids, free);
            !o.panicked ==>
              && o.flows.Keys == flows.Keys
              && o.kept == StillWaiting(o.flows, ids)
              && forall id | id in ids ::
                   o.flows[id] == flows[id] || (!flows[id].closed && o.flows[id] == F.Next(flows[id]))
    decreases ids
  {
    if ids != [] {
      FrontWaits(flows, ids);
      PassStep(flows, ids, free, flows[ids[0]], F.Next(flows[ids[0]]));
      HeadAndRest(flows, ids, flows[ids[0]]);
      hide F.Next, AllWaiting, Pass;
      var id, rest := ids[0], ids[1..];
      var f := flows[id];
      PassTouchesListed(flows, ids, free);
      PassRest(flows, rest, free, if f.pending.value > free then 0 else free - f.pending.value, F.Next(f), id);
      if f.pending.value > free {
        PassSendsOrKeeps(flows, rest, free);
      } else if !f.closed {
        NextClears(f);
        PassSendsOrKeeps(flows[id := F.Next(f)], rest, free - f.pending.value);
      }
    }
  }

  lemma NextClears(f: F.Flow)
    requires f.pending.Some? && F.PendingFits(f)
    ensures F.Next(f).pending.None?
  {
  }

  lemma TallyFits(f: F.Flow)
    requires T.Tally(f)
    ensures F.PendingFits(f)
  {
  }

  /** The room that is left when the turn of `ids[i]` comes: what fits before it has gone. */
  function RoomBefore(flows: map<Id, F.Flow>, ids: seq<Id>, free: nat, i: nat): nat
    requires AllWaiting(flows, ids) && i <= |ids|
    decreases i
  {
    if i == 0 then free
    else
      FrontWaits(flows, ids);
      HeadAndRest(flows, ids, flows[ids[0]]);
      var n := flows[ids[0]].pending.value;
      RoomBefore(flows, ids[1..], if n <= free then free - n else free, i - 1)
  }

  /** At its turn, `ids[i]` is a closed flow whose packet fits. */
  predicate PanicsAt(flows: map<Id, F.Flow>, ids: seq<Id>, free: nat, i: nat)
    requires AllWaiting(flows, ids) && i < |ids|
  {
    assert ids[i] in ids;
    flows[ids[i]].closed && flows[ids[i]].pending.value <= RoomBefore(flows, ids, free, i)
  }

  /** The room depends on the listed flows alone. */
  lemma {:induction false} RoomOfListed(flows: map<Id, F.Flow>, after: map<Id, F.Flow>, ids: seq<Id>, free: nat, i: nat)
    requires AllWaiting(flows, ids) && AllWaiting(after, ids) && i <= |ids|
    requires forall id | id in ids :: id in flows && id in after && after[id] == flows[id]
    ensures RoomBefore(after, ids, free, i) == RoomBefore(flows, ids, free, i)
    decreases i
  {
    if i > 0 {
      assert ids[0] in ids;
      HeadAndRest(flows, ids, flows[ids[0]]);
      HeadAndRest(after, ids, after[ids[0]]);
      var n := flows[ids[0]].pending.value;
      RoomOfListed(flows, after, ids[1..], if n <= free then free - n else free, i - 1);
    }
  }

  /** Later turns are the turns of the rest, with the room and the flows that the front leaves. */
  lemma PanicsShift(flows: map<Id, F.Flow>, ids: seq<Id>, free: nat, i: nat, after: map<Id, F.Flow>, g: F.Flow)
    requires AllWaiting(flows, ids) && ids != [] && i < |ids| - 1
    requires ids[0] in flows && flows[ids[0]].pending.Some?
    requires AllWaiting(flows, ids[1..]) && AllWaiting(after, ids[1..])
    requires after == flows[ids[0] := g]
    ensures var n := flows[ids[0]].pending.value;
            var left := if n <= free then free - n else free;
            PanicsAt(after, ids[1..], left, i) <==> PanicsAt(flows, ids, free, i + 1)
  {
    HeadAndRest(flows, ids, flows[ids[0]]);
    var n := flows[ids[0]].pending.value;
    var left := if n <= free then free - n else free;
    assert ids[1..][i] == ids[i + 1] && ids[i + 1] in ids[1..];
    assert forall id | id in ids[1..] :: Waiting(flows, id) && after[id] == flows[id];
    RoomOfListed(flows, after, ids[1..], left, i);
  }

  /** The assertion in `next` fails exactly when a closed flow's packet finds room at its turn. */
  lemma {:induction false} PanicsExactly(flows: map<Id, F.Flow>, ids: seq<Id>, free: nat)
    requires AllWaiting(flows, ids)
    ensures Pass(flows, ids, free).panicked <==> exists i: nat :: i < |ids| && PanicsAt(flows, ids, free, i)
    decreases ids
  {
    if ids != [] {
      FrontWaits(flows, ids);
      var id, rest, f := ids[0], ids[1..], flows[ids[0]];
      PassStep(flows, ids, free, f, F.Next(f));
      hide F.Next, Pass;
      assert PanicsAt(flows, ids, free, 0) <==> f.closed && f.pending.value <= free;
      var fits := f.pending.value <= free;
      var left := if fits then free - f.pending.value else free;
      var after := flows[id := if fits then F.Next(f) else f];
      assert !fits ==> after == flows;
      PanicsExactly(after, rest, left);
      hide PanicsAt, AllWaiting;
      forall i: nat | i < |rest|
        ensures PanicsAt(after, rest, left, i) <==> PanicsAt(flows, ids, free, i + 1)
      {
        PanicsShift(flows, ids, free, i, after, if fits then F.Next(f) else f);
      }
      if i: nat :| i < |rest| && PanicsAt(after, rest, left, i) {
        assert PanicsAt(flows, ids, free, i + 1);
      }
      if i: nat :| 0 < i < |ids| && PanicsAt(flows, ids, free, i) {
        assert PanicsAt(after, rest, left, i - 1);
      }
    }
  }

  /** What the pass leaves behind is again a list in agreement with the flows. */
  lemma {:induction false} PassKeepsAgreement(flows: map<Id, F.Flow>, list: seq<Id>, free: nat)
    requires Agree(flows, list)
    requires !Pass(flows, list, free).panicked
    ensures Agree(Pass(flows, list, free).flows, Pass(flows, list, free).kept)
  {
    hide T.Tally, F.Next, F.PendingFits, Pass;
    var o := Pass(flows, list, free);
    PassSendsOrKeeps(flows, list, free);
    PassTouchesListed(flows, list, free);
    StillWaitingSubsequence(o.flows, list);
    forall id | id in o.flows
      ensures T.Tally(o.flows[id])
    {
      if id in list && o.flows[id] != flows[id] {
        T.GoodNext(false, flows[id]);
      }
    }
    forall id | id in o.flows
      ensures F.PendingFits(o.flows[id])
    {
      TallyFits(o.flows[id]);
    }
    forall id | id in o.flows && o.flows[id].pending.Some?
      ensures id in list
    {
    }
  }

  lemma {:induction false} StillWaitingSubsequence(flows: map<Id, F.Flow>, ids: seq<Id>)
    requires Distinct(ids)
    ensures Distinct(StillWaiting(flows, ids))
    ensures forall id :: id in StillWaiting(flows, ids) <==> id in ids && Waiting(flows, id)
    decreases ids
  {
    if ids != [] {
      StillWaitingSubsequence(flows, ids[1..]);
      assert forall x | x in ids[1..] :: x in ids && x != ids[0];
      assert ids == [ids[0]] + ids[1..];
    }
  }

  lemma AgreeAfter(flows: map<Id, F.Flow>, list: seq<Id>, id: Id, e: F.Event)
    requires Agree(flows, list) && id in flows && F.Possible(flows[id], e) && !e.Pull?
    ensures Agree(flows[id := F.Step(flows[id], e)], if Defers(flows[id], e) then list + [id] else list)
  {
    hide T.Tally, F.Step, F.Possible;
    var g := F.Step(flows[id], e);
    T.GoodStep(false, flows[id], e);
    TallyFits(g);
    DefersExactly(flows[id], e);
    var after := flows[id := g];
    if Defers(flows[id], e) {
      assert id !in list;
      assert forall x | x in list + [id] :: x in list || x == id;
    }
  }

  class Sources {
    var flows: map<Id, F.Flow>
    var pendingPacketSources: seq<Id>

    ghost predicate Valid()
      reads this
    {
      Agree(flows, pendingPacketSources)
    }

    constructor ()
      ensures Valid() && flows == map[] && pendingPacketSources == []
    {
      flows, pendingPacketSources := map[], [];
    }

    method Open(id: Id, headerLength: nat)
      requires Valid() && id !in flows
      modifies this
      ensures Valid() && flows == old(flows)[id := F.NewFlow(headerLength)]
      ensures pendingPacketSources == old(pendingPacketSources)
    {
      T.NewFlowIsGood(headerLength);
      flows := flows[id := F.NewFlow(headerLength)];
    }

    /** Any event of a flow but a pull; a deferral registers the flow. */
    method Happen(id: Id, e: F.Event)
      requires Valid() && id in flows && F.Possible(flows[id], e) && !e.Pull?
      modifies this
      ensures Valid() && flows == old(flows)[id := F.Step(old(flows)[id], e)]
      ensures pendingPacketSources ==
        if Defers(old(flows)[id], e) then old(pendingPacketSources) + [id] else old(pendingPacketSources)
    {
      hide T.Tally, F.Step, F.Possible, Agree;
      var defers := Defers(flows[id], e);
      AgreeAfter(flows, pendingPacketSources, id, e);
      flows := flows[id := F.Step(flows[id], e)];
      if defers {
        pendingPacketSources := pendingPacketSources + [id];
      }
    }

    /**
     * `process_pending`: the list is taken, each packet is offered to the link, and those that
     * find no room are listed again.  No listed flow is ever without a packet.
     */
    method ProcessPending(room: nat) returns (panicked: bool, left: nat)
      requires Valid()
      modifies this
      ensures AllWaiting(old(flows), old(pendingPacketSources))
      ensures var o := Pass(old(flows), old(pendingPacketSources), room);
              panicked == o.panicked && flows == o.flows && left == o.free
              && (!panicked ==> pendingPacketSources == o.kept && Valid())
    {
      hide F.Next, AllWaiting, Pass;
      var vec := pendingPacketSources;
      pendingPacketSources := [];
      panicked, left := false, room;
      ghost var before := flows;
      ghost var o := Pass(flows, vec, room);
      assert vec[0..] == vec;
      NoneKeptYet(o);
      var i := 0;
      while i < |vec| && !panicked
        invariant 0 <= i <= |vec| && (!panicked ==> AllWaiting(flows, vec[i..]))
        invariant if panicked then o.panicked && o.flows == flows && o.free == left
                  else o == Behind(pendingPacketSources, Pass(flows, vec[i..], left))
        decreases |vec| - i, !panicked
      {
        assert vec[i..][1..] == vec[i + 1..];
        panicked, left := Offer(vec[i..], left);
        i := i + 1;
      }
      if !panicked {
        PassNothing(flows, left);
        assert vec[i..] == [];
        PassKeepsAgreement(before, vec, room);
      }
    }

    /** The front packet goes if it fits, and is listed again otherwise. */
    method Offer(ids: seq<Id>, free: nat) returns (panicked: bool, left: nat)
      requires AllWaiting(flows, ids) && ids != []
      modifies this
      ensures var o, rest := Pass(old(flows), ids, free), ids[1..];
              if panicked then o.panicked && o.flows == flows && o.free == left
              else AllWaiting(flows, rest) &&
                   Behind(old(pendingPacketSources), o) == Behind(pendingPacketSources, Pass(flows, rest, left))
    {
      FrontWaits(flows, ids);
      PassStep(flows, ids, free, flows[ids[0]], F.Next(flows[ids[0]]));
      hide F.Next, AllWaiting, Pass;
      panicked, left := false, free;
      var id := ids[0];
      var source := flows[id];
      var length := source.pending.value;
      if length <= left {
        if source.closed {
          panicked := true;
        } else {
          flows := flows[id := F.Next(source)];
          left := left - length;
        }
      } else {
        KeptOneMore(pendingPacketSources, id, Pass(flows, ids[1..], free));
        pendingPacketSources := pendingPacketSources + [id];
      }
    }
  }

  lemma NoneKeptYet(o: Outcome)
    ensures Behind([], o) == o
  {
  }

  lemma KeptOneMore(kept: seq<Id>, id: Id, o: Outcome)
    ensures Behind(kept, Behind([id], o)) == Behind(kept + [id], o)
  {
    assert kept + ([id] + o.kept) == (kept + [id]) + o.kept;
  }

  lemma PassNothing(flows: map<Id, F.Flow>, free: nat)
    ensures Pass(flows, [], free) == Outcome(flows, [], free, false)
  {
  }

  /** The read whose packet the link refuses. */
  predicate Defers(f: F.Flow, e: F.Event)
    requires F.Possible(f, e)
  {
    !f.closed &&
    match e
    case Readable(r, room) => r.Data? && !room
    case Both(w, room, r, readRoom) => F.GoesOn(f, w, room) && r.Data? && !readRoom
    case _ => false
  }

  lemma DefersExactly(f: F.Flow, e: F.Event)
    requires F.Possible(f, e) && !e.Pull?
    ensures if Defers(f, e) then f.pending.None? && F.Step(f, e).pending.Some?
            else F.Step(f, e).pending == f.pending
  {
    hide F.AfterWrite, F.ProcessReceive, F.HandlePacket, F.RemainingWindow;
    match e
    case Packet(seg, isn, room) => PacketKeepsPending(f, seg, isn, room);
    case Writable(w, room) => WriteKeepsPending(f, w, room);
    case Readable(r, room) => if !f.closed { ReadDefers(f, r, room); }
    case Both(w, room, r, readRoom) =>
      WriteKeepsPending(f, w, room);
      if !f.closed && F.GoesOn(f, w, room) {
        ReadDefers(F.AfterWrite(f, w, room), r, readRoom);
      }
    case _ =>
  }

  lemma PacketKeepsPending(f: F.Flow, seg: F.Segment, isn: u32, room: bool)
    ensures F.HandlePacket(f, seg, isn, room).pending == f.pending
  {
    hide F.Reply, F.Close, F.HandleExpected;
    ReplyKeepsPending(f, room);
    ReplyKeepsPending(f.(tcb := f.tcb.(seqNum := seg.ackNum), h := f.h.(isn := seg.ackNum)), room);
    ExpectedKeepsPending(f.(tcb := f.tcb.(window := seg.window, theirAck := seg.ackNum)), seg, room);
  }

  lemma ReplyKeepsPending(f: F.Flow, room: bool)
    ensures F.Close(F.Reply(f, F.RST, room)).pending == f.pending
  {
  }

  lemma ExpectedKeepsPending(f: F.Flow, seg: F.Segment, room: bool)
    ensures F.HandleExpected(f, seg, room).pending == f.pending
  {
    hide F.DoHandleFin;
    var acked := if seg.flags.ack then F.HandleAck(f, seg.payload) else f;
    FinKeepsPending(acked.(tcb := acked.tcb.(finReceived := true)), room);
  }

  lemma FinKeepsPending(f: F.Flow, room: bool)
    ensures F.DoHandleFin(f, room).pending == f.pending
  {
  }

  lemma WriteKeepsPending(f: F.Flow, w: F.WriteOutcome, room: bool)
    requires w.Wrote? ==> w.n <= |f.ring|
    ensures F.AfterWrite(f, w, room).pending == f.pending
  {
    hide F.DoHandleFin;
    if w.Wrote? {
      FinKeepsPending(f.(tcb := f.tcb.(ackNum := Wrap(f.tcb.ackNum + w.n)), ring := f.ring[w.n..],
                         h := f.h.(hostOut := f.h.hostOut + f.ring[..w.n])), room);
    }
  }

  lemma ReadDefers(f: F.Flow, r: F.ReadOutcome, room: bool)
    requires f.pending.None?
    ensures F.ProcessReceive(f, r, room).pending.Some? <==> r.Data? && !room
  {
  }
}
