/**
 * The link between phone and relay is one byte stream of IP packets, cut up again by each end on
 * its own (relay/src/relay/client.rs and ip_packet_buffer.rs; app/entry/src/main/cpp/tunnel.cpp).
 */
module Framing {
  import opened Words
  import opened IpPackets

  datatype Side = Relay | Phone

  function FrontOf(side: Side, data: seq<byte>): (f: Front)
    ensures f.Frame? ==> 20 <= f.n <= |data|
    ensures f.More? ==> |data| < MAX_IP_PACKET_LENGTH
  {
    if side == Relay then RelayFront(data) else PhoneFront(data)
  }

  /** The relay closes its client on a malformed packet; the phone writes any frame to the tun. */
  predicate Refused(side: Side, frame: seq<byte>) {
    side == Relay && ParseVerdict(frame).Malformed?
  }

  /** Packets cut off, bytes left over, and whether the stream was given up. */
  datatype Cut = Cut(frames: seq<seq<byte>>, rest: seq<byte>, broken: bool)

  function CutAll(side: Side, data: seq<byte>): (c: Cut)
    ensures !c.broken ==> |c.rest| < MAX_IP_PACKET_LENGTH
    decreases |data|
  {
    match FrontOf(side, data)
    case More => Cut([], data, false)
    case Bad => Cut([], data, true)
    case Frame(n) =>
      if Refused(side, data[..n]) then Cut([], data, true)
      else
        Then(Cut([data[..n]], [], false), CutAll(side, data[n..]))
  }

  /** Frames of `d` behind those of `c`, whose rest has gone into `d`. */
  function Then(c: Cut, d: Cut): Cut { Cut(c.frames + d.frames, d.rest, d.broken) }

  lemma ThenAssociative(c: Cut, d: Cut, e: Cut)
    ensures Then(Then(c, d), e) == Then(c, Then(d, e))
  {
  }

  lemma CutFrame(side: Side, data: seq<byte>, n: nat)
    requires FrontOf(side, data) == Frame(n) && !Refused(side, data[..n])
    ensures CutAll(side, data) == Then(Cut([data[..n]], [], false), CutAll(side, data[n..]))
  {
  }

  lemma CutNothing(side: Side, data: seq<byte>)
    requires FrontOf(side, data).More?
    ensures CutAll(side, data) == Cut([], data, false)
  {
  }

  lemma FrontOfIsStable(side: Side, data: seq<byte>, more: seq<byte>)
    ensures !FrontOf(side, data).More? ==> FrontOf(side, data + more) == FrontOf(side, data)
  {
    FrontIsStable(data, more);
  }

  /** Nothing is lost and nothing is made up: the frames and the rest are the stream. */
  lemma {:induction false} CutConserves(side: Side, data: seq<byte>)
    ensures Flatten(CutAll(side, data).frames) + CutAll(side, data).rest == data
    decreases |data|
  {
    hide FrontOf, Refused;
    match FrontOf(side, data)
    case More =>
    case Bad =>
    case Frame(n) =>
      if !Refused(side, data[..n]) {
        CutConserves(side, data[n..]);
        var c := CutAll(side, data[n..]);
        assert Flatten([data[..n]] + c.frames) == data[..n] + Flatten(c.frames) by {
          assert ([data[..n]] + c.frames)[1..] == c.frames;
        }
        assert data == data[..n] + (Flatten(c.frames) + c.rest);
      }
  }

  /** Cutting what has arrived, and then the rest with what arrives next, cuts the whole. */
  lemma {:induction false} CutInTwo(side: Side, data: seq<byte>, more: seq<byte>)
    ensures var c := CutAll(side, data);
            var d := CutAll(side, data + more);
            if c.broken then d.broken && d.frames == c.frames
            else d == Then(c, CutAll(side, c.rest + more))
    decreases |data|
  {
    hide FrontOf, Refused;
    FrontOfIsStable(side, data, more);
    match FrontOf(side, data)
    case More =>
    case Bad =>
    case Frame(n) =>
      PrefixKept(data, more, n);
      if !Refused(side, data[..n]) {
        CutInTwo(side, data[n..], more);
        CutFrame(side, data, n);
        CutFrame(side, data + more, n);
        hide CutAll;
        var c := CutAll(side, data[n..]);
        ThenAssociative(Cut([data[..n]], [], false), c, CutAll(side, c.rest + more));
      }
  }

  lemma PrefixKept(data: seq<byte>, more: seq<byte>, n: nat)
    requires n <= |data|
    ensures (data + more)[..n] == data[..n] && (data + more)[n..] == data[n..] + more
  {
  }

  /** One read: the bytes are added to what was left over, unless the stream was given up. */
  function Feed(side: Side, c: Cut, chunk: seq<byte>): Cut {
    if c.broken then c
    else Then(c, CutAll(side, c.rest + chunk))
  }

  function FeedAll(side: Side, chunks: seq<seq<byte>>): Cut {
    if chunks == [] then Cut([], [], false)
    else Feed(side, FeedAll(side, chunks[..|chunks| - 1]), chunks[|chunks| - 1])
  }

  /** Deframing depends on the bytes alone and not on how the reads divide them. */
  lemma {:induction false} ChunkIndependence(side: Side, chunks: seq<seq<byte>>)
    ensures var fed := FeedAll(side, chunks);
            var whole := CutAll(side, Flatten(chunks));
            && fed.frames == whole.frames && fed.broken == whole.broken
            && (!fed.broken ==> fed.rest == whole.rest)
  {
    if chunks != [] {
      var before, last := chunks[..|chunks| - 1], chunks[|chunks| - 1];
      ChunkIndependence(side, before);
      FlattenSnoc(before, last);
      assert before + [last] == chunks;
      CutInTwo(side, Flatten(before), last);
    }
  }

  // ---------------------------------------------------------------------------------------
  // Both ends
  // ---------------------------------------------------------------------------------------

  /** The phone cuts every stream as the relay would, only that the relay may give up earlier. */
  lemma {:induction false} EndsCutAlike(data: seq<byte>)
    ensures CutAll(Relay, data).frames <= CutAll(Phone, data).frames
    ensures (forall p | p in CutAll(Phone, data).frames :: !ParseVerdict(p).Malformed?) ==>
              CutAll(Relay, data).frames == CutAll(Phone, data).frames
    decreases |data|
  {
    match FrontOf(Phone, data)
    case More =>
      NoFrame(data);
    case Bad =>
      NoFrame(data);
    case Frame(n) =>
      FramesAgree(data, n);
      EndsCutAlike(data[n..]);
      var rest := CutAll(Phone, data[n..]).frames;
      assert data[..n] in [data[..n]] + rest;
      assert forall p | p in rest :: p in [data[..n]] + rest;
  }

  lemma NoFrame(data: seq<byte>)
    requires !PhoneFront(data).Frame?
    ensures CutAll(Relay, data).frames == []
  {
    if RelayFront(data).Frame? {
      FramesAgree(data, RelayFront(data).n);
    }
  }

  /** How many of the packets lie whole within the first `k` bytes of their concatenation. */
  function WholeWithin(ps: seq<seq<byte>>, k: nat): (j: nat)
    ensures j <= |ps|
  {
    if ps == [] || k < |ps[0]| then 0 else 1 + WholeWithin(ps[1..], k - |ps[0]|)
  }

  predicate AllWellFormed(ps: seq<seq<byte>>) { forall p | p in ps :: IsWellFormedIpPacket(p) }

  /** A packet of its declared length starts no shorter frame, and is one. */
  lemma WellFormedFront(side: Side, p: seq<byte>, data: seq<byte>)
    requires IsWellFormedIpPacket(p)
    ensures p <= data ==> FrontOf(side, data) == Frame(|p|)
    ensures data < p ==> FrontOf(side, data).More?
  {
    WellFormedIsFramed(p);
    FramesAgree(p, |p|);
    if p <= data {
      FrontOfIsStable(side, p, data[|p|..]);
      assert p + data[|p|..] == data;
    } else if data < p {
      FrontOfIsStable(side, data, p[|data|..]);
      assert data + p[|data|..] == p;
    }
  }

  lemma EmptyFront(side: Side)
    ensures FrontOf(side, []).More?
  {
  }

  /**
   * From any beginning of the stream of packets whose lengths are the declared ones, the far end
   * recovers exactly the packets that have arrived whole, and waits for the rest of the next.
   */
  lemma {:induction false} LinkRecoversPackets(side: Side, ps: seq<seq<byte>>, k: nat)
    requires AllWellFormed(ps) && k <= |Flatten(ps)|
    requires forall p | p in ps :: !Refused(side, p)
    ensures var c := CutAll(side, Flatten(ps)[..k]);
            !c.broken && c.frames == ps[..WholeWithin(ps, k)]
    decreases |ps|
  {
    hide IsWellFormedIpPacket, FrontOf, Refused;
    if ps == [] {
      EmptyFront(side);
      CutNothing(side, []);
    } else {
      var p, qs, data := ps[0], ps[1..], Flatten(ps)[..k];
      assert p in ps;
      if k < |p| {
        assert data == p[..k];
        WellFormedFront(side, p, data);
      } else {
        assert p <= data;
        WellFormedFront(side, p, data);
        assert data[..|p|] == p && data[|p|..] == Flatten(qs)[..k - |p|];
        LinkRecoversPackets(side, qs, k - |p|);
        CutFrame(side, data, |p|);
        assert [p] + qs[..WholeWithin(qs, k - |p|)] == ps[..1 + WholeWithin(qs, k - |p|)];
      }
    }
  }

  lemma {:induction false} WholeWithinAll(ps: seq<seq<byte>>)
    ensures WholeWithin(ps, |Flatten(ps)|) == |ps|
  {
    if ps != [] {
      WholeWithinAll(ps[1..]);
    }
  }

  /** One packet whose raw length is not the declared one misplaces the frames behind it. */
  lemma MisframedPacketShiftsStream(p: seq<byte>, q: seq<byte>, n: nat)
    requires PhoneFront(p) == Frame(n) && n < |p|
    ensures CutAll(Phone, p + q).frames[..1] == [p[..n]]
    ensures CutAll(Phone, p + q).frames[1..] == CutAll(Phone, p[n..] + q).frames
  {
    FrontOfIsStable(Phone, p, q);
    assert (p + q)[..n] == p[..n] && (p + q)[n..] == p[n..] + q;
  }
}
