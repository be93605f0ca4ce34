/**
 * Where a packet ends, and whether the relay takes it: the relay's reading
 * (relay/src/relay/ip_packet.rs, ipv6_packet.rs, ipv6_header.rs) and the phone's
 * (app/entry/src/main/cpp/tunnel.cpp).
 */
module IpPackets {
  import opened Words
  import opened Headers

  const IPV6_HEADER_LENGTH: nat := 40
  const MAX_IP_PACKET_LENGTH: nat := IPV6_HEADER_LENGTH + 0xffff

  /** The front of a byte stream: more bytes are needed, it is no packet, or a packet of `n` bytes. */
  datatype Front = More | Bad | Frame(n: nat)

  /** `front_packet_length`, whose frames are complete. */
  function RelayFront(raw: seq<byte>): (f: Front)
    ensures f.Frame? ==> 20 <= f.n <= |raw|
    ensures f.More? ==> |raw| < MAX_IP_PACKET_LENGTH
  {
    if raw == [] then More
    else if raw[0] / 16 == 4 then
      if |raw| < 4 then More
      else
        var headerLength := raw[0] % 16 * 4;
        var totalLength := Word(raw, 2);
        if headerLength < 20 || totalLength < headerLength then Bad
        else if |raw| < totalLength then More
        else Frame(totalLength)
    else if raw[0] / 16 == 6 then
      if |raw| < 6 then More
      else
        var totalLength := 40 + Word(raw, 4);
        if |raw| < totalLength then More else Frame(totalLength)
    else Bad
  }

  /** `IpPacketLength`, on at least one byte: a length of 0 means that the header is incomplete. */
  function IpPacketLength(data: seq<byte>): Option<nat>
    requires data != []
  {
    if data[0] / 16 == 4 then
      if |data| < 20 then Some(0)
      else
        var header := data[0] % 16 * 4;
        var total := Word(data, 2);
        if header < 20 || total < header then None else Some(total)
    else if data[0] / 16 == 6 then
      if |data| < 40 then Some(0) else Some(40 + Word(data, 4))
    else None
  }

  /** One turn of the tunnel's deframing loop. */
  function PhoneFront(data: seq<byte>): (f: Front)
    ensures f.Frame? ==> 20 <= f.n <= |data|
    ensures f.More? ==> |data| < MAX_IP_PACKET_LENGTH
  {
    if |data| < 4 then More
    else match IpPacketLength(data)
      case None => Bad
      case Some(n) => if n == 0 || |data| < n then More else Frame(n)
  }

  /** `IsWellFormedIpPacket`, asked of each packet that the tun device hands over. */
  predicate IsWellFormedIpPacket(data: seq<byte>) {
    |data| >= 4 &&
    if data[0] / 16 == 4 then
      |data| >= 20 && 20 <= data[0] % 16 * 4 <= |data| && Word(data, 2) == |data|
    else if data[0] / 16 == 6 then
      |data| >= 40 && 40 + Word(data, 4) == |data|
    else
      false
  }

  predicate IsIpv6(data: seq<byte>) { |data| >= 1 && data[0] / 16 == 6 }

  // ---------------------------------------------------------------------------------------
  // What the relay makes of a whole packet
  // ---------------------------------------------------------------------------------------

  datatype Unsupported = Ipv4Fragment | Ipv6Fragment | Ipv6Extension(h: byte) | Ipv6NextHeader(h: byte)
  datatype Verdict = Deliver | Drop(reason: Unsupported) | Malformed

  function TcpVerdict(payload: seq<byte>): Verdict {
    if |payload| < 20 then Malformed
    else
      var headerLength := payload[12] / 16 * 4;
      if headerLength < 20 || headerLength > |payload| then Malformed else Deliver
  }

  function UdpVerdict(payload: seq<byte>): Verdict {
    if |payload| < 8 || Word(payload, 4) != |payload| then Malformed else Deliver
  }

  function Ipv4Verdict(raw: seq<byte>): Verdict {
    if |raw| < 4 then Malformed
    else
      var headerLength := raw[0] % 16 * 4;
      var totalLength := Word(raw, 2);
      if |raw| < totalLength || headerLength < 20 || totalLength < headerLength then Malformed
      else if raw[6] / 32 % 2 != 0 || raw[6] % 32 != 0 || raw[7] != 0 then Drop(Ipv4Fragment)
      else
        var payload := raw[headerLength..totalLength];
        if raw[9] == 6 then TcpVerdict(payload)
        else if raw[9] == 17 then UdpVerdict(payload)
        else Deliver
  }

  function Ipv6Verdict(raw: seq<byte>): Verdict {
    if |raw| < 40 || raw[0] / 16 != 6 || |raw| < 40 + Word(raw, 4) then Malformed
    else
      var payload := raw[40..40 + Word(raw, 4)];
      if raw[6] == 6 then TcpVerdict(payload)
      else if raw[6] == 17 then UdpVerdict(payload)
      else if raw[6] == 44 then Drop(Ipv6Fragment)
      else if raw[6] in {0, 43, 50, 51, 60, 135} then Drop(Ipv6Extension(raw[6]))
      else Drop(Ipv6NextHeader(raw[6]))
  }

  /** `IpPacket::parse`. */
  function ParseVerdict(raw: seq<byte>): Verdict {
    if raw == [] then Malformed
    else if raw[0] / 16 == 4 then Ipv4Verdict(raw)
    else if raw[0] / 16 == 6 then Ipv6Verdict(raw)
    else Malformed
  }

  // ---------------------------------------------------------------------------------------
  // The two readings agree
  // ---------------------------------------------------------------------------------------

  /** Both sides cut the same complete frames off the same bytes. */
  lemma FramesAgree(data: seq<byte>, n: nat)
    ensures RelayFront(data) == Frame(n) <==> PhoneFront(data) == Frame(n)
  {
  }

  /** The phone may only notice later that the bytes are no packet. */
  lemma BadAgree(data: seq<byte>)
    ensures PhoneFront(data).Bad? ==> RelayFront(data).Bad?
    ensures RelayFront(data).Bad? ==> PhoneFront(data).Bad? || (PhoneFront(data).More? && |data| < 20)
  {
  }

  /** A packet that passes the tun test is framed by the relay at exactly its size, and only then. */
  lemma WellFormedIsFramed(data: seq<byte>)
    ensures IsWellFormedIpPacket(data) <==> RelayFront(data) == Frame(|data|)
  {
  }

  /** More bytes behind never change a verdict that was reached. */
  lemma FrontIsStable(data: seq<byte>, more: seq<byte>)
    ensures !RelayFront(data).More? ==> RelayFront(data + more) == RelayFront(data)
    ensures !PhoneFront(data).More? ==> PhoneFront(data + more) == PhoneFront(data)
  {
  }
}
