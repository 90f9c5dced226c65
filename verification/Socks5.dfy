/** SOCKS5 UDP datagrams and their translation to tunnel payloads (section 7 of RFC 1928). */
module Socks5 {
  import opened Bytes
  import opened Targets

  function SocksTarget(t: WireTarget): (s: seq<byte>)
  {
    match t
    case Ipv4(octets) => [0x01] + octets
    case Domain(host) => [0x03] + BigEndian(|host|, 1) + host
    case Ipv6(octets) => [0x04] + octets
  }

  function UdpBytes(p: Payload): (s: seq<byte>)
  {
    [0, 0, 0] + (SocksTarget(p.target) + (BigEndian(p.port, 2) + p.data))
  }

  function EncodeUdpResponse(p: Payload): (r: Parsed<seq<byte>>)
  {
    if p.target.Domain? && |p.target.host| > U8_MAX then Malformed("UDP domain too long") else Ok(UdpBytes(p))
  }

  function DecodeSocksTarget(input: seq<byte>, utf8: Text): (r: Parsed<(WireTarget, seq<byte>)>)
    requires input != []
  {
    var buf := input[1..];
    if input[0] == 0x01 then
      match Take(buf, 4)
      case None => Malformed("truncated UDP IPv4 address")
      case Some((octets, rest)) => Ok((Ipv4(octets), rest))
    else if input[0] == 0x03 then
      match TakeInt(buf, 1)
      case None => Malformed("missing UDP domain length")
      case Some((len, buf)) =>
        if len == 0 || |buf| < len then Malformed("truncated UDP domain")
        else
          var host := buf[..len];
          if !utf8(host) then Malformed("invalid UDP domain") else Ok((Domain(host), buf[len..]))
    else if input[0] == 0x04 then
      match Take(buf, 16)
      case None => Malformed("truncated UDP IPv6 address")
      case Some((octets, rest)) => Ok((Ipv6(octets), rest))
    else Malformed("unsupported UDP address type")
  }

  function DecodeUdpRequest(input: seq<byte>, utf8: Text): (r: Parsed<Payload>)
  {
    if |input| < 4 then Malformed("SOCKS UDP packet too short")
    else if input[0] != 0 || input[1] != 0 || input[2] != 0 then
      Malformed("fragmented SOCKS UDP packets are not supported")
    else
      match DecodeSocksTarget(input[3..], utf8)
      case Malformed(why) => Malformed(why)
      case Ok((t, buf)) =>
        if |buf| < 2 then Malformed("missing UDP port")
        else
          TakeIntInverse(buf, 2);
          Pow256Widths();
          var (port, data) := TakeInt(buf, 2).value;
          Ok(Payload(t, port, data))
  }

  predicate SocksTargetOk(t: WireTarget, utf8: Text)
  {
    Typed(t, utf8) && (t.Domain? ==> 0 < |t.host| <= U8_MAX)
  }

  lemma DecodeSocksTargetExact(input: seq<byte>, utf8: Text, t: WireTarget, rest: seq<byte>)
    requires input != []
    ensures DecodeSocksTarget(input, utf8) == Ok((t, rest)) <==>
            input == SocksTarget(t) + rest && SocksTargetOk(t, utf8)
  {
    hide Take, TakeInt, BigEndian, Pow256;
    Pow256Widths();
    match t
    case Domain(host) =>
      SizedFieldExact(input[1..], 1, host, rest);
      Tagged(input, 0x03, BigEndian(|host|, 1) + host, rest);
      assert [0x03] + BigEndian(|host|, 1) + host == [0x03] + (BigEndian(|host|, 1) + host);
      assert BigEndian(|host|, 1) + host + rest == BigEndian(|host|, 1) + (host + rest);
    case Ipv4(octets) =>
      TakeExact(input[1..], 4, octets, rest);
      Tagged(input, 0x01, octets, rest);
    case Ipv6(octets) =>
      TakeExact(input[1..], 16, octets, rest);
      Tagged(input, 0x04, octets, rest);
  }

  /** A datagram is accepted exactly when re-encoding what it means gives the datagram back. */
  lemma DecodeUdpExact(input: seq<byte>, utf8: Text, p: Payload)
    ensures DecodeUdpRequest(input, utf8) == Ok(p) <==>
            EncodeUdpResponse(p) == Ok(input) && SocksTargetOk(p.target, utf8)
  {
    Pow256Widths();
    var tail := BigEndian(p.port, 2) + p.data;
    if DecodeUdpRequest(input, utf8) == Ok(p) {
      var (t, buf) := DecodeSocksTarget(input[3..], utf8).value;
      DecodeSocksTargetExact(input[3..], utf8, t, buf);
      TakeIntInverse(buf, 2);
      assert buf == tail;
      assert input == [0, 0, 0] + input[3..];
    }
    if EncodeUdpResponse(p) == Ok(input) && SocksTargetOk(p.target, utf8) {
      assert input[3..] == SocksTarget(p.target) + tail;
      DecodeSocksTargetExact(input[3..], utf8, p.target, tail);
      TakeIntConcat(p.port, 2, p.data);
    }
  }

  /** Every accepted datagram survives decode, tunnel encode, tunnel decode and SOCKS re-encode byte for
      byte; in the tunnel it is one byte longer for an IP target and two for a domain. */
  lemma UdpThroughTunnel(input: seq<byte>, utf8: Text)
    requires |input| <= U32_MAX && DecodeUdpRequest(input, utf8).Ok?
    ensures var p := DecodeUdpRequest(input, utf8).value;
            && EncodePayload(p).Ok?
            && DecodePayload(EncodePayload(p).value, utf8) == Ok(p)
            && EncodeUdpResponse(p) == Ok(input)
            && |EncodePayload(p).value| == |input| + if p.target.Domain? then 2 else 1
  {
    var p := DecodeUdpRequest(input, utf8).value;
    DecodeUdpExact(input, utf8, p);
    DecodePayloadExact(PayloadBytes(p), utf8, p);
  }

  // ----- the pinned peer of an association -----

  datatype Peer = Peer(ip: seq<byte>, port: u16)

  function AcceptPeer(pinned: Option<Peer>, peer: Peer, control: Option<Peer>): (r: (bool, Option<Peer>))
  {
    if control.Some? && peer.ip != control.value.ip then (false, pinned)
    else match pinned
      case Some(allowed) => (allowed == peer, pinned)
      case None => (true, Some(peer))
  }

  class Association {
    var pinned: Option<Peer>
    const control: Option<Peer>

    constructor (control: Option<Peer>)
      ensures pinned == None && this.control == control
    {
      this.pinned := None;
      this.control := control;
    }

    method Accept(peer: Peer) returns (ok: bool)
      modifies this
      ensures (ok, pinned) == AcceptPeer(old(pinned), peer, control)
    {
      if control.Some? && peer.ip != control.value.ip {
        return false;
      }
      if pinned.Some? {
        return pinned.value == peer;
      }
      pinned := Some(peer);
      ok := true;
    }
  }

  /** The peers whose datagrams an association lets through. */
  function Accepted(pinned: Option<Peer>, peers: seq<Peer>, control: Option<Peer>): (r: seq<Peer>)
    decreases |peers|
  {
    if peers == [] then []
    else
      var (ok, next) := AcceptPeer(pinned, peers[0], control);
      (if ok then [peers[0]] else []) + Accepted(next, peers[1..], control)
  }

  /** The peer an association settles on: its pin, else the first peer at the control connection's address. */
  function Owner(pinned: Option<Peer>, peers: seq<Peer>, control: Option<Peer>): (r: Option<Peer>)
    decreases |peers|
  {
    if pinned.Some? then pinned
    else if peers == [] then None
    else if control.None? || peers[0].ip == control.value.ip then Some(peers[0])
    else Owner(None, peers[1..], control)
  }

  lemma {:induction false} OwnerAddress(peers: seq<Peer>, control: Option<Peer>)
    ensures var owner := Owner(None, peers, control);
            owner.Some? && control.Some? ==> owner.value.ip == control.value.ip
  {
    if peers != [] {
      OwnerAddress(peers[1..], control);
    }
  }

  function Matching(peers: seq<Peer>, p: Peer): (r: seq<Peer>)
  {
    if peers == [] then [] else (if peers[0] == p then [p] else []) + Matching(peers[1..], p)
  }

  /** One association only ever serves one peer, and serves it every time. */
  lemma {:induction false} OnePeerOnly(pinned: Option<Peer>, peers: seq<Peer>, control: Option<Peer>)
    requires pinned.Some? && control.Some? ==> pinned.value.ip == control.value.ip
    ensures Accepted(pinned, peers, control) ==
            match Owner(pinned, peers, control)
            case None => []
            case Some(owner) => Matching(peers, owner)
    decreases |peers|
  {
    if peers != [] {
      var (ok, next) := AcceptPeer(pinned, peers[0], control);
      OnePeerOnly(next, peers[1..], control);
      OwnerAddress(peers[1..], control);
    }
  }
}
