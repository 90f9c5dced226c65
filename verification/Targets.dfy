/** Target addresses and the payload that opens a TCP flow or carries a UDP packet through the tunnel.
    Text is its bytes; `utf8` says which bytes are text. */
module Targets {
  import opened Bytes

  /** A target; a domain name is kept as text or as the bytes of that text. */
  datatype TargetAddr<+T> = Domain(host: T) | Ipv4(octets: seq<byte>) | Ipv6(octets: seq<byte>)

  type WireTarget = TargetAddr<seq<byte>>

  datatype Payload = Payload(target: WireTarget, port: u16, data: seq<byte>)

  datatype Parsed<+T> = Ok(value: T) | Malformed(why: string)

  type Text = seq<byte> -> bool

  /** An IPv4 target has four octets, an IPv6 target sixteen, and a domain name is text. */
  predicate Typed(t: WireTarget, utf8: Text)
  {
    match t
    case Domain(host) => utf8(host)
    case Ipv4(octets) => |octets| == 4
    case Ipv6(octets) => |octets| == 16
  }

  function TargetBytes(t: WireTarget): (s: seq<byte>)
  {
    match t
    case Domain(host) => [0x03] + BigEndian(|host|, 2) + host
    case Ipv4(octets) => [0x01] + octets
    case Ipv6(octets) => [0x04] + octets
  }

  function PayloadBytes(p: Payload): (s: seq<byte>)
  {
    TargetBytes(p.target) + (BigEndian(p.port, 2) + (BigEndian(|p.data|, 4) + p.data))
  }

  function EncodePayload(p: Payload): (r: Parsed<seq<byte>>)
  {
    if p.target.Domain? && |p.target.host| > U16_MAX then Malformed("domain too long") else Ok(PayloadBytes(p))
  }

  function DecodeTarget(input: seq<byte>, utf8: Text): (r: Parsed<(WireTarget, seq<byte>)>)
  {
    if input == [] then Malformed("missing address type")
    else
      var buf := input[1..];
      if input[0] == 0x01 then
        match Take(buf, 4)
        case None => Malformed("truncated ipv4 address")
        case Some((octets, rest)) => Ok((Ipv4(octets), rest))
      else if input[0] == 0x03 then
        match TakeInt(buf, 2)
        case None => Malformed("missing domain length")
        case Some((len, buf)) =>
          if len == 0 || |buf| < len then Malformed("truncated domain")
          else
            var host := buf[..len];
            if !utf8(host) then Malformed("domain is not utf-8") else Ok((Domain(host), buf[len..]))
      else if input[0] == 0x04 then
        match Take(buf, 16)
        case None => Malformed("truncated ipv6 address")
        case Some((octets, rest)) => Ok((Ipv6(octets), rest))
      else Malformed("unknown address type")
  }

  function DecodeTail(t: WireTarget, buf: seq<byte>): (r: Parsed<Payload>)
  {
    if |buf| < 6 then Malformed("truncated open tcp payload")
    else
      TakeIntInverse(buf, 2);
      Pow256Widths();
      var (port, buf) := TakeInt(buf, 2).value;
      var (len, data) := TakeInt(buf, 4).value;
      if |data| < len then Malformed("truncated initial data")
      else if |data| > len then Malformed("open tcp trailing bytes")
      else Ok(Payload(t, port, data))
  }

  function DecodePayload(input: seq<byte>, utf8: Text): (r: Parsed<Payload>)
  {
    match DecodeTarget(input, utf8)
    case Malformed(why) => Malformed(why)
    case Ok((t, buf)) => DecodeTail(t, buf)
  }

  /** A payload the tunnel can carry: every length fits its field and a domain is not empty. */
  predicate Carriable(p: Payload, utf8: Text)
  {
    && TargetOk(p.target, utf8)
    && |p.data| <= U32_MAX
  }

  predicate TargetOk(t: WireTarget, utf8: Text)
  {
    Typed(t, utf8) && (t.Domain? ==> 0 < |t.host| <= U16_MAX)
  }

  lemma DecodeDomainExact(input: seq<byte>, utf8: Text, host: seq<byte>, rest: seq<byte>)
    requires input != []
    ensures DecodeTarget(input, utf8) == Ok((Domain(host), rest)) <==>
            input == TargetBytes(Domain(host)) + rest && TargetOk(Domain(host), utf8)
  {
    hide Take, TakeInt, BigEndian, Pow256;
    Pow256Widths();
    SizedFieldExact(input[1..], 2, host, rest);
    Tagged(input, 0x03, BigEndian(|host|, 2) + host, rest);
    assert [0x03] + BigEndian(|host|, 2) + host == [0x03] + (BigEndian(|host|, 2) + host);
    assert BigEndian(|host|, 2) + host + rest == BigEndian(|host|, 2) + (host + rest);
  }

  lemma DecodeTargetExact(input: seq<byte>, utf8: Text, t: WireTarget, rest: seq<byte>)
    ensures DecodeTarget(input, utf8) == Ok((t, rest)) <==> input == TargetBytes(t) + rest && TargetOk(t, utf8)
  {
    hide Take, TakeInt, BigEndian;
    if input != [] {
      match t
      case Domain(host) =>
        DecodeDomainExact(input, utf8, host, rest);
      case Ipv4(octets) =>
        TakeExact(input[1..], 4, octets, rest);
        Tagged(input, 0x01, octets, rest);
      case Ipv6(octets) =>
        TakeExact(input[1..], 16, octets, rest);
        Tagged(input, 0x04, octets, rest);
    }
  }

  lemma DecodeTailExact(t: WireTarget, buf: seq<byte>, port: u16, data: seq<byte>)
    ensures DecodeTail(t, buf) == Ok(Payload(t, port, data)) <==>
            buf == BigEndian(port, 2) + (BigEndian(|data|, 4) + data) && |data| <= U32_MAX
  {
    Pow256Widths();
    if |buf| >= 6 {
      TakeIntInverse(buf, 2);
      var rest := TakeInt(buf, 2).value.1;
      TakeIntInverse(rest, 4);
    }
    if buf == BigEndian(port, 2) + (BigEndian(|data|, 4) + data) && |data| <= U32_MAX {
      TakeIntConcat(port, 2, BigEndian(|data|, 4) + data);
      TakeIntConcat(|data|, 4, data);
    }
  }

  /** Decoding accepts exactly the encodings of carriable payloads, so the two are inverse both ways. */
  lemma DecodePayloadExact(input: seq<byte>, utf8: Text, p: Payload)
    ensures DecodePayload(input, utf8) == Ok(p) <==>
            EncodePayload(p) == Ok(input) && Carriable(p, utf8)
  {
    var tail := BigEndian(p.port, 2) + (BigEndian(|p.data|, 4) + p.data);
    DecodeTargetExact(input, utf8, p.target, tail);
    DecodeTailExact(p.target, tail, p.port, p.data);
    match DecodeTarget(input, utf8)
    case Ok((t, buf)) =>
      DecodeTargetExact(input, utf8, t, buf);
      DecodeTailExact(t, buf, p.port, p.data);
    case Malformed(_) =>
  }
}
