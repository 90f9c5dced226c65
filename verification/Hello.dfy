/** The four handshake messages on the wire. Text is its bytes; `utf8` says which bytes are text. */
module Hello {
  import opened Bytes
  import opened Targets

  const MAX_CREDENTIAL_ID_LEN: nat := 512
  const MAX_CREDENTIAL_HINT_LEN: nat := 512
  const MAX_SESSION_ID_LEN: nat := 32

  type bytes32 = s: seq<byte> | |s| == 32 witness seq(32, _ => 0)

  datatype Mode = Auto | Stable | Private
  {
    function WireId(): (b: byte)
    {
      match this
      case Auto => 0
      case Stable => 1
      case Private => 2
    }
  }

  function ModeOf(b: byte): (m: Option<Mode>)
    ensures m.Some? <==> b <= 2
    ensures m.Some? ==> m.value.WireId() == b
  {
    if b == 0 then Some(Auto) else if b == 1 then Some(Stable) else if b == 2 then Some(Private) else None
  }

  datatype ClientHello = ClientHello(
    version: u16, nonce: bytes32, timestamp: i64, credentialId: seq<byte>, mode: Mode, flags: u64, tag: bytes32)

  datatype ServerHello = ServerHello(
    version: u16, nonce: bytes32, sessionId: seq<byte>, maxFrameSize: u32, maxFlows: u32, flags: u64, tag: bytes32)

  datatype ClientHelloV2 = ClientHelloV2(
    version: u16, epoch: u64, nonce: bytes32, timestamp: i64, hint: seq<byte>, mode: Mode, flags: u64,
    rotation: u32, tag: bytes32)

  datatype ServerHelloV2 = ServerHelloV2(
    version: u16, epoch: u64, nonce: bytes32, sessionId: seq<byte>, maxFrameSize: u32, maxFlows: u32, flags: u64,
    rotationWindow: u32, tag: bytes32)

  // ----- reading integers of known width -----

  function Get16(buf: seq<byte>): (r: (u16, seq<byte>))
    requires |buf| >= 2
    ensures r.1 == buf[2..]
  {
    TakeIntInverse(buf, 2);
    Pow256Widths();
    TakeInt(buf, 2).value
  }

  function Get32(buf: seq<byte>): (r: (u32, seq<byte>))
    requires |buf| >= 4
    ensures r.1 == buf[4..]
  {
    TakeIntInverse(buf, 4);
    Pow256Widths();
    TakeInt(buf, 4).value
  }

  function Get64(buf: seq<byte>): (r: (u64, seq<byte>))
    requires |buf| >= 8
    ensures r.1 == buf[8..]
  {
    TakeIntInverse(buf, 8);
    Pow256Widths();
    TakeInt(buf, 8).value
  }

  function Put16(v: u16): (s: seq<byte>)
    ensures |s| == 2
  {
    BigEndian(v, 2)
  }

  function Put32(v: u32): (s: seq<byte>)
    ensures |s| == 4
  {
    BigEndian(v, 4)
  }

  function Put64(v: u64): (s: seq<byte>)
    ensures |s| == 8
  {
    BigEndian(v, 8)
  }

  lemma GetPut(v16: u16, v32: u32, v64: u64, rest: seq<byte>)
    ensures Get16(Put16(v16) + rest) == (v16, rest)
    ensures Get32(Put32(v32) + rest) == (v32, rest)
    ensures Get64(Put64(v64) + rest) == (v64, rest)
  {
    Pow256Widths();
    TakeIntConcat(v16, 2, rest);
    TakeIntConcat(v32, 4, rest);
    TakeIntConcat(v64, 8, rest);
  }

  lemma PutGet(buf: seq<byte>)
    ensures |buf| >= 2 ==> Put16(Get16(buf).0) + Get16(buf).1 == buf
    ensures |buf| >= 4 ==> Put32(Get32(buf).0) + Get32(buf).1 == buf
    ensures |buf| >= 8 ==> Put64(Get64(buf).0) + Get64(buf).1 == buf
  {
    if |buf| >= 2 {
      TakeIntInverse(buf, 2);
    }
    if |buf| >= 4 {
      TakeIntInverse(buf, 4);
    }
    if |buf| >= 8 {
      TakeIntInverse(buf, 8);
    }
  }

  lemma I64RoundTrip(v: i64, u: u64)
    ensures ToI64(FromI64(v)) == v && FromI64(ToI64(u)) == u
  {
  }

  lemma SplitConcat(a: seq<byte>, b: seq<byte>)
    ensures (a + b)[..|a|] == a && (a + b)[|a|..] == b
  {
  }

  // ----- the common tail: a mode or some numbers, the flags, the tag -----

  datatype ClientTail = ClientTail(mode: Mode, flags: u64, tag: bytes32)

  function ClientTailBytes(t: ClientTail): (s: seq<byte>)
    ensures |s| == 41
  {
    [t.mode.WireId()] + (Put64(t.flags) + t.tag)
  }

  function DecodeClientTail(buf: seq<byte>): (r: Parsed<ClientTail>)
  {
    if |buf| < 41 then Malformed("client hello truncated")
    else match ModeOf(buf[0])
      case None => Malformed("unknown mode")
      case Some(mode) =>
        var (flags, rest) := Get64(buf[1..]);
        if |rest| > 32 then Malformed("client hello trailing bytes") else Ok(ClientTail(mode, flags, rest))
  }

  lemma ClientTailExact(buf: seq<byte>, t: ClientTail)
    ensures DecodeClientTail(buf) == Ok(t) <==> buf == ClientTailBytes(t)
  {
    hide Get16, Get32, Get64, Put16, Put32, Put64, BigEndian;
    if buf == ClientTailBytes(t) {
      assert buf[1..] == Put64(t.flags) + t.tag;
      GetPut(0, 0, t.flags, t.tag);
    }
    if DecodeClientTail(buf) == Ok(t) {
      PutGet(buf[1..]);
      assert buf == [buf[0]] + buf[1..];
    }
  }

  // ----- ClientHello -----

  /** The field's length is written in 16 bits whatever it is. */
  function ClientHelloBytes(h: ClientHello): (s: seq<byte>)
    ensures |s| == 85 + |h.credentialId|
  {
    Put16(h.version) + (h.nonce + (Put64(FromI64(h.timestamp)) +
      (BigEndian(|h.credentialId|, 2) + (h.credentialId + ClientTailBytes(ClientTail(h.mode, h.flags, h.tag))))))
  }

  function DecodeCredentialId(buf: seq<byte>, utf8: Text): (r: Parsed<(seq<byte>, seq<byte>)>)
  {
    if |buf| < 2 then Malformed("missing string length")
    else
      var (len, buf) := Get16(buf);
      if len > MAX_CREDENTIAL_ID_LEN then Malformed("credential id too long")
      else if |buf| < len then Malformed("truncated string")
      else if !utf8(buf[..len]) then Malformed("invalid utf-8 string")
      else Ok((buf[..len], buf[len..]))
  }

  lemma Get16IsTakeInt(buf: seq<byte>)
    requires |buf| >= 2
    ensures TakeInt(buf, 2) == Some(Get16(buf))
  {
  }

  lemma CredentialIdExact(buf: seq<byte>, utf8: Text, id: seq<byte>, rest: seq<byte>)
    ensures DecodeCredentialId(buf, utf8) == Ok((id, rest)) <==>
            buf == BigEndian(|id|, 2) + (id + rest) && |id| <= MAX_CREDENTIAL_ID_LEN && utf8(id)
  {
    Pow256Widths();
    hide Get16, TakeInt, BigEndian, Pow256;
    if |buf| >= 2 {
      Get16IsTakeInt(buf);
      SizedFieldExact(buf, 2, id, rest);
    }
  }

  function DecodeClientHello(input: seq<byte>, utf8: Text): (r: Parsed<ClientHello>)
  {
    if |input| < 85 then Malformed("client hello too short")
    else
      var (version, b1) := Get16(input);
      var nonce, b2 := b1[..32], b1[32..];
      var (ts, b3) := Get64(b2);
      match DecodeCredentialId(b3, utf8)
      case Malformed(why) => Malformed(why)
      case Ok((id, b4)) =>
        match DecodeClientTail(b4)
        case Malformed(why) => Malformed(why)
        case Ok(t) => Ok(ClientHello(version, nonce, ToI64(ts), id, t.mode, t.flags, t.tag))
  }

  /** Decoding, field by field. */
  lemma ClientHelloFields(input: seq<byte>, utf8: Text, h: ClientHello, b2: seq<byte>, b3: seq<byte>, b4: seq<byte>)
    requires |input| >= 85 && |b2| >= 8 && Get16(input) == (h.version, h.nonce + b2)
    requires Get64(b2) == (FromI64(h.timestamp), b3)
    requires DecodeCredentialId(b3, utf8) == Ok((h.credentialId, b4))
    requires DecodeClientTail(b4) == Ok(ClientTail(h.mode, h.flags, h.tag))
    ensures DecodeClientHello(input, utf8) == Ok(h)
  {
    hide DecodeCredentialId, DecodeClientTail, Get16, Get64;
    SplitConcat(h.nonce, b2);
    I64RoundTrip(h.timestamp, 0);
  }

  lemma EncodedClientHelloDecodes(h: ClientHello, utf8: Text)
    requires |h.credentialId| <= MAX_CREDENTIAL_ID_LEN && utf8(h.credentialId)
    ensures DecodeClientHello(ClientHelloBytes(h), utf8) == Ok(h)
  {
    hide DecodeClientHello, DecodeCredentialId, DecodeClientTail, Get16, Get64, ClientTailBytes, BigEndian, FromI64,
         Put64, Put16;
    var t := ClientTail(h.mode, h.flags, h.tag);
    var b4 := ClientTailBytes(t);
    var b3 := BigEndian(|h.credentialId|, 2) + (h.credentialId + b4);
    var b2 := Put64(FromI64(h.timestamp)) + b3;
    GetPut(h.version, 0, 0, h.nonce + b2);
    GetPut(0, 0, FromI64(h.timestamp), b3);
    CredentialIdExact(b3, utf8, h.credentialId, b4);
    ClientTailExact(b4, t);
    ClientHelloFields(ClientHelloBytes(h), utf8, h, b2, b3, b4);
  }

  lemma DecodedClientHelloReencodes(input: seq<byte>, utf8: Text)
    requires DecodeClientHello(input, utf8).Ok?
    ensures var h := DecodeClientHello(input, utf8).value;
            ClientHelloBytes(h) == input && |h.credentialId| <= MAX_CREDENTIAL_ID_LEN && utf8(h.credentialId)
  {
    var b1 := Get16(input).1;
    var b2 := b1[32..];
    var b3 := Get64(b2).1;
    var (id, b4) := DecodeCredentialId(b3, utf8).value;
    PutGet(input);
    PutGet(b2);
    CredentialIdExact(b3, utf8, id, b4);
    ClientTailExact(b4, DecodeClientTail(b4).value);
    assert b1 == b1[..32] + b2;
    I64RoundTrip(0, Get64(b2).0);
    hide DecodeCredentialId, DecodeClientTail, Get16, Get64, ClientTailBytes;
  }

  /** Decoding is the exact inverse of encoding: an input is accepted with some meaning if and only if it is
      the encoding of that meaning, the credential id is text and has at most 512 bytes. */
  lemma ClientHelloExact(input: seq<byte>, utf8: Text, h: ClientHello)
    ensures DecodeClientHello(input, utf8) == Ok(h) <==>
            input == ClientHelloBytes(h) && |h.credentialId| <= MAX_CREDENTIAL_ID_LEN && utf8(h.credentialId)
  {
    if DecodeClientHello(input, utf8).Ok? {
      DecodedClientHelloReencodes(input, utf8);
    }
    if |h.credentialId| <= MAX_CREDENTIAL_ID_LEN && utf8(h.credentialId) {
      EncodedClientHelloDecodes(h, utf8);
    }
    hide DecodeClientHello, ClientHelloBytes;
  }

  /** Configuration admits ids of up to 65,535 bytes; those over 512 encode but are refused on arrival. */
  lemma LongCredentialIdRefused(h: ClientHello, utf8: Text)
    requires MAX_CREDENTIAL_ID_LEN < |h.credentialId| <= U16_MAX
    ensures DecodeClientHello(ClientHelloBytes(h), utf8) == Malformed("credential id too long")
  {
    var b4 := ClientTailBytes(ClientTail(h.mode, h.flags, h.tag));
    var b3 := BigEndian(|h.credentialId|, 2) + (h.credentialId + b4);
    var b2 := Put64(FromI64(h.timestamp)) + b3;
    GetPut(h.version, 0, 0, h.nonce + b2);
    SplitConcat(h.nonce, b2);
    GetPut(0, 0, FromI64(h.timestamp), b3);
    GetPut(|h.credentialId|, 0, 0, h.credentialId + b4);
    hide Get16, Get64, ClientTailBytes;
  }

  // ----- ClientHello v2 -----

  datatype ClientTailV2 = ClientTailV2(mode: Mode, flags: u64, rotation: u32, tag: bytes32)

  function ClientTailV2Bytes(t: ClientTailV2): (s: seq<byte>)
    ensures |s| == 45
  {
    [t.mode.WireId()] + (Put64(t.flags) + (Put32(t.rotation) + t.tag))
  }

  function DecodeClientTailV2(buf: seq<byte>): (r: Parsed<ClientTailV2>)
  {
    if |buf| < 45 then Malformed("client hello v2 truncated")
    else match ModeOf(buf[0])
      case None => Malformed("unknown mode")
      case Some(mode) =>
        var (flags, b1) := Get64(buf[1..]);
        var (rotation, rest) := Get32(b1);
        if |rest| > 32 then Malformed("client hello v2 trailing bytes")
        else Ok(ClientTailV2(mode, flags, rotation, rest))
  }

  lemma ClientTailV2Exact(buf: seq<byte>, t: ClientTailV2)
    ensures DecodeClientTailV2(buf) == Ok(t) <==> buf == ClientTailV2Bytes(t)
  {
    hide Get16, Get32, Get64, Put16, Put32, Put64, BigEndian;
    if buf == ClientTailV2Bytes(t) {
      assert buf[1..] == Put64(t.flags) + (Put32(t.rotation) + t.tag);
      GetPut(0, 0, t.flags, Put32(t.rotation) + t.tag);
      GetPut(0, t.rotation, 0, t.tag);
    }
    if DecodeClientTailV2(buf) == Ok(t) {
      PutGet(buf[1..]);
      PutGet(Get64(buf[1..]).1);
      assert buf == [buf[0]] + buf[1..];
    }
  }

  predicate HintOk(hint: seq<byte>)
  {
    0 < |hint| <= MAX_CREDENTIAL_HINT_LEN
  }

  function ClientHelloV2Bytes(h: ClientHelloV2): (s: seq<byte>)
    ensures |s| == 97 + |h.hint|
  {
    Put16(h.version) + (Put64(h.epoch) + (h.nonce + (Put64(FromI64(h.timestamp)) +
      (BigEndian(|h.hint|, 2) + (h.hint + ClientTailV2Bytes(ClientTailV2(h.mode, h.flags, h.rotation, h.tag)))))))
  }

  function EncodeClientHelloV2(h: ClientHelloV2): (r: Parsed<seq<byte>>)
  {
    if h.hint == [] then Malformed("empty credential hint")
    else if |h.hint| > MAX_CREDENTIAL_HINT_LEN then Malformed("credential hint too long")
    else Ok(ClientHelloV2Bytes(h))
  }

  function DecodeHint(buf: seq<byte>): (r: Parsed<(seq<byte>, seq<byte>)>)
  {
    if |buf| < 2 then Malformed("missing byte string length")
    else
      var (len, buf) := Get16(buf);
      if len == 0 then Malformed("empty credential hint")
      else if len > MAX_CREDENTIAL_HINT_LEN then Malformed("credential hint too long")
      else if |buf| < len then Malformed("truncated byte string")
      else Ok((buf[..len], buf[len..]))
  }

  lemma HintExact(buf: seq<byte>, hint: seq<byte>, rest: seq<byte>)
    ensures DecodeHint(buf) == Ok((hint, rest)) <==> buf == BigEndian(|hint|, 2) + (hint + rest) && HintOk(hint)
  {
    Pow256Widths();
    hide Get16, TakeInt, BigEndian, Pow256;
    if |buf| >= 2 {
      Get16IsTakeInt(buf);
      SizedFieldExact(buf, 2, hint, rest);
    }
  }

  function DecodeClientHelloV2(input: seq<byte>): (r: Parsed<ClientHelloV2>)
  {
    if |input| < 97 then Malformed("client hello v2 too short")
    else
      var (version, b1) := Get16(input);
      var (epoch, b2) := Get64(b1);
      var nonce, b3 := b2[..32], b2[32..];
      var (ts, b4) := Get64(b3);
      match DecodeHint(b4)
      case Malformed(why) => Malformed(why)
      case Ok((hint, b5)) =>
        match DecodeClientTailV2(b5)
        case Malformed(why) => Malformed(why)
        case Ok(t) => Ok(ClientHelloV2(version, epoch, nonce, ToI64(ts), hint, t.mode, t.flags, t.rotation, t.tag))
  }

  lemma ClientHelloV2Fields(
    input: seq<byte>, h: ClientHelloV2, b1: seq<byte>, b3: seq<byte>, b4: seq<byte>, b5: seq<byte>)
    requires |input| >= 97 && |b1| >= 8 && |b3| >= 8
    requires Get16(input) == (h.version, b1) && Get64(b1) == (h.epoch, h.nonce + b3)
    requires Get64(b3) == (FromI64(h.timestamp), b4)
    requires DecodeHint(b4) == Ok((h.hint, b5))
    requires DecodeClientTailV2(b5) == Ok(ClientTailV2(h.mode, h.flags, h.rotation, h.tag))
    ensures DecodeClientHelloV2(input) == Ok(h)
  {
    hide DecodeHint, DecodeClientTailV2, Get16, Get64;
    SplitConcat(h.nonce, b3);
    I64RoundTrip(h.timestamp, 0);
  }

  lemma EncodedClientHelloV2Decodes(h: ClientHelloV2)
    requires HintOk(h.hint)
    ensures DecodeClientHelloV2(ClientHelloV2Bytes(h)) == Ok(h)
  {
    hide DecodeClientHelloV2, DecodeHint, DecodeClientTailV2, Get16, Get64, ClientTailV2Bytes, BigEndian, FromI64,
         Put64, Put16;
    var t := ClientTailV2(h.mode, h.flags, h.rotation, h.tag);
    var b5 := ClientTailV2Bytes(t);
    var b4 := BigEndian(|h.hint|, 2) + (h.hint + b5);
    var b3 := Put64(FromI64(h.timestamp)) + b4;
    var b1 := Put64(h.epoch) + (h.nonce + b3);
    GetPut(h.version, 0, 0, b1);
    GetPut(0, 0, h.epoch, h.nonce + b3);
    GetPut(0, 0, FromI64(h.timestamp), b4);
    HintExact(b4, h.hint, b5);
    ClientTailV2Exact(b5, t);
    ClientHelloV2Fields(ClientHelloV2Bytes(h), h, b1, b3, b4, b5);
  }

  lemma DecodedClientHelloV2Reencodes(input: seq<byte>)
    requires DecodeClientHelloV2(input).Ok?
    ensures var h := DecodeClientHelloV2(input).value;
            ClientHelloV2Bytes(h) == input && HintOk(h.hint)
  {
    var b1 := Get16(input).1;
    var b2 := Get64(b1).1;
    var b3 := b2[32..];
    var b4 := Get64(b3).1;
    var (hint, b5) := DecodeHint(b4).value;
    PutGet(input);
    PutGet(b1);
    PutGet(b3);
    HintExact(b4, hint, b5);
    ClientTailV2Exact(b5, DecodeClientTailV2(b5).value);
    assert b2 == b2[..32] + b3;
    I64RoundTrip(0, Get64(b3).0);
    hide DecodeHint, DecodeClientTailV2, Get16, Get64, ClientTailV2Bytes;
  }

  lemma ClientHelloV2Exact(input: seq<byte>, h: ClientHelloV2)
    ensures DecodeClientHelloV2(input) == Ok(h) <==> EncodeClientHelloV2(h) == Ok(input)
  {
    if DecodeClientHelloV2(input).Ok? {
      DecodedClientHelloV2Reencodes(input);
    }
    if HintOk(h.hint) {
      EncodedClientHelloV2Decodes(h);
    }
    hide DecodeClientHelloV2, ClientHelloV2Bytes;
  }

  // ----- ServerHello -----

  predicate SessionOk(id: seq<byte>)
  {
    0 < |id| <= MAX_SESSION_ID_LEN
  }

  datatype ServerTail = ServerTail(maxFrameSize: u32, maxFlows: u32, flags: u64)

  function ServerTailBytes(t: ServerTail): (s: seq<byte>)
    ensures |s| == 16
  {
    Put32(t.maxFrameSize) + (Put32(t.maxFlows) + Put64(t.flags))
  }

  function GetServerTail(buf: seq<byte>): (r: (ServerTail, seq<byte>))
    requires |buf| >= 16
    ensures r.1 == buf[16..]
  {
    var (size, b1) := Get32(buf);
    var (flows, b2) := Get32(b1);
    var (flags, rest) := Get64(b2);
    (ServerTail(size, flows, flags), rest)
  }

  lemma ServerTailExact(buf: seq<byte>, t: ServerTail, rest: seq<byte>)
    requires |buf| >= 16
    ensures GetServerTail(buf) == (t, rest) <==> buf == ServerTailBytes(t) + rest
  {
    hide Get16, Get32, Get64, Put16, Put32, Put64, BigEndian;
    if buf == ServerTailBytes(t) + rest {
      assert buf == Put32(t.maxFrameSize) + (Put32(t.maxFlows) + (Put64(t.flags) + rest));
      GetPut(0, t.maxFrameSize, 0, Put32(t.maxFlows) + (Put64(t.flags) + rest));
      GetPut(0, t.maxFlows, 0, Put64(t.flags) + rest);
      GetPut(0, 0, t.flags, rest);
    }
    if GetServerTail(buf) == (t, rest) {
      PutGet(buf);
      PutGet(Get32(buf).1);
      PutGet(Get32(Get32(buf).1).1);
      assert buf == Put32(t.maxFrameSize) + (Put32(t.maxFlows) + (Put64(t.flags) + rest));
    }
  }

  /** The session id's length is written in 8 bits whatever it is. */
  function SessionBytes(id: seq<byte>): (s: seq<byte>)
    ensures |s| == 1 + |id|
  {
    [|id| % 256] + id
  }

  /** Read a session id, which must leave at least `after` bytes behind it. */
  function DecodeSession(buf: seq<byte>, after: nat): (r: Parsed<(seq<byte>, seq<byte>)>)
    requires buf != []
  {
    var len := buf[0];
    if len == 0 || len > MAX_SESSION_ID_LEN || |buf| - 1 < len + after then Malformed("bad session id length")
    else Ok((buf[1..1 + len], buf[1 + len..]))
  }

  lemma SessionExact(buf: seq<byte>, after: nat, id: seq<byte>, rest: seq<byte>)
    requires buf != []
    ensures DecodeSession(buf, after) == Ok((id, rest)) <==>
            buf == SessionBytes(id) + rest && SessionOk(id) && |rest| >= after
  {
    if buf == SessionBytes(id) + rest && SessionOk(id) {
      assert buf[1..1 + |id|] == id && buf[1 + |id|..] == rest;
    }
    if DecodeSession(buf, after) == Ok((id, rest)) {
      assert buf == [buf[0]] + id + rest;
    }
  }

  function ServerHelloBytes(h: ServerHello): (s: seq<byte>)
    ensures |s| == 83 + |h.sessionId|
  {
    Put16(h.version) + (h.nonce + (SessionBytes(h.sessionId) +
      (ServerTailBytes(ServerTail(h.maxFrameSize, h.maxFlows, h.flags)) + h.tag)))
  }

  function DecodeServerHello(input: seq<byte>): (r: Parsed<ServerHello>)
  {
    if |input| < 83 then Malformed("server hello too short")
    else
      var (version, b1) := Get16(input);
      var nonce, b2 := b1[..32], b1[32..];
      match DecodeSession(b2, 48)
      case Malformed(why) => Malformed(why)
      case Ok((id, b3)) =>
        SessionExact(b2, 48, id, b3);
        var (t, tag) := GetServerTail(b3);
        if |tag| > 32 then Malformed("server hello trailing bytes")
        else Ok(ServerHello(version, nonce, id, t.maxFrameSize, t.maxFlows, t.flags, tag))
  }

  lemma ServerHelloFields(input: seq<byte>, h: ServerHello, b2: seq<byte>, b3: seq<byte>)
    requires |input| >= 83 && b2 != [] && |b3| >= 16 && Get16(input) == (h.version, h.nonce + b2)
    requires DecodeSession(b2, 48) == Ok((h.sessionId, b3))
    requires GetServerTail(b3) == (ServerTail(h.maxFrameSize, h.maxFlows, h.flags), h.tag)
    ensures DecodeServerHello(input) == Ok(h)
  {
    hide DecodeSession, GetServerTail, Get16;
    SplitConcat(h.nonce, b2);
  }

  lemma EncodedServerHelloDecodes(h: ServerHello)
    requires SessionOk(h.sessionId)
    ensures DecodeServerHello(ServerHelloBytes(h)) == Ok(h)
  {
    hide DecodeServerHello, DecodeSession, GetServerTail, Get16, ServerTailBytes, SessionBytes, Put16;
    var t := ServerTail(h.maxFrameSize, h.maxFlows, h.flags);
    var b3 := ServerTailBytes(t) + h.tag;
    var b2 := SessionBytes(h.sessionId) + b3;
    GetPut(h.version, 0, 0, h.nonce + b2);
    SessionExact(b2, 48, h.sessionId, b3);
    ServerTailExact(b3, t, h.tag);
    ServerHelloFields(ServerHelloBytes(h), h, b2, b3);
  }

  lemma DecodedServerHelloReencodes(input: seq<byte>)
    requires DecodeServerHello(input).Ok?
    ensures var h := DecodeServerHello(input).value;
            ServerHelloBytes(h) == input && SessionOk(h.sessionId)
  {
    var b1 := Get16(input).1;
    var b2 := b1[32..];
    var (id, b3) := DecodeSession(b2, 48).value;
    PutGet(input);
    SessionExact(b2, 48, id, b3);
    var (t, tag) := GetServerTail(b3);
    ServerTailExact(b3, t, tag);
    assert b1 == b1[..32] + b2;
    hide DecodeSession, GetServerTail, Get16, ServerTailBytes, SessionBytes;
  }

  lemma ServerHelloExact(input: seq<byte>, h: ServerHello)
    ensures DecodeServerHello(input) == Ok(h) <==> input == ServerHelloBytes(h) && SessionOk(h.sessionId)
  {
    if DecodeServerHello(input).Ok? {
      DecodedServerHelloReencodes(input);
    }
    if SessionOk(h.sessionId) {
      EncodedServerHelloDecodes(h);
    }
    hide DecodeServerHello, ServerHelloBytes;
  }

  // ----- ServerHello v2 -----

  function ServerHelloV2Bytes(h: ServerHelloV2): (s: seq<byte>)
    ensures |s| == 95 + |h.sessionId|
  {
    Put16(h.version) + (Put64(h.epoch) + (h.nonce + (SessionBytes(h.sessionId) +
      (ServerTailBytes(ServerTail(h.maxFrameSize, h.maxFlows, h.flags)) + (Put32(h.rotationWindow) + h.tag)))))
  }

  function EncodeServerHelloV2(h: ServerHelloV2): (r: Parsed<seq<byte>>)
  {
    if !SessionOk(h.sessionId) then Malformed("bad session id length") else Ok(ServerHelloV2Bytes(h))
  }

  function DecodeServerHelloV2(input: seq<byte>): (r: Parsed<ServerHelloV2>)
  {
    if |input| < 95 then Malformed("server hello v2 too short")
    else
      var (version, b1) := Get16(input);
      var (epoch, b2) := Get64(b1);
      var nonce, b3 := b2[..32], b2[32..];
      match DecodeSession(b3, 52)
      case Malformed(why) => Malformed(why)
      case Ok((id, b4)) =>
        SessionExact(b3, 52, id, b4);
        var (t, b5) := GetServerTail(b4);
        var (window, tag) := Get32(b5);
        if |tag| > 32 then Malformed("server hello v2 trailing bytes")
        else Ok(ServerHelloV2(version, epoch, nonce, id, t.maxFrameSize, t.maxFlows, t.flags, window, tag))
  }

  lemma ServerHelloV2Fields(
    input: seq<byte>, h: ServerHelloV2, b1: seq<byte>, b3: seq<byte>, b4: seq<byte>, b5: seq<byte>)
    requires |input| >= 95 && |b1| >= 8 && b3 != [] && |b4| >= 16 && |b5| >= 4
    requires Get16(input) == (h.version, b1) && Get64(b1) == (h.epoch, h.nonce + b3)
    requires DecodeSession(b3, 52) == Ok((h.sessionId, b4))
    requires GetServerTail(b4) == (ServerTail(h.maxFrameSize, h.maxFlows, h.flags), b5)
    requires Get32(b5) == (h.rotationWindow, h.tag)
    ensures DecodeServerHelloV2(input) == Ok(h)
  {
    hide DecodeSession, GetServerTail, Get16, Get32, Get64;
    SplitConcat(h.nonce, b3);
  }

  lemma EncodedServerHelloV2Decodes(h: ServerHelloV2)
    requires SessionOk(h.sessionId)
    ensures DecodeServerHelloV2(ServerHelloV2Bytes(h)) == Ok(h)
  {
    hide DecodeServerHelloV2, DecodeSession, GetServerTail, Get16, Get32, Get64, ServerTailBytes, SessionBytes, Put16,
         Put64, Put32;
    var t := ServerTail(h.maxFrameSize, h.maxFlows, h.flags);
    var b5 := Put32(h.rotationWindow) + h.tag;
    var b4 := ServerTailBytes(t) + b5;
    var b3 := SessionBytes(h.sessionId) + b4;
    var b1 := Put64(h.epoch) + (h.nonce + b3);
    GetPut(h.version, 0, 0, b1);
    GetPut(0, 0, h.epoch, h.nonce + b3);
    SessionExact(b3, 52, h.sessionId, b4);
    ServerTailExact(b4, t, b5);
    GetPut(0, h.rotationWindow, 0, h.tag);
    ServerHelloV2Fields(ServerHelloV2Bytes(h), h, b1, b3, b4, b5);
  }

  lemma DecodedServerHelloV2Reencodes(input: seq<byte>)
    requires DecodeServerHelloV2(input).Ok?
    ensures var h := DecodeServerHelloV2(input).value;
            ServerHelloV2Bytes(h) == input && SessionOk(h.sessionId)
  {
    var b1 := Get16(input).1;
    var b2 := Get64(b1).1;
    var b3 := b2[32..];
    var (id, b4) := DecodeSession(b3, 52).value;
    PutGet(input);
    PutGet(b1);
    SessionExact(b3, 52, id, b4);
    var (t, b5) := GetServerTail(b4);
    ServerTailExact(b4, t, b5);
    PutGet(b5);
    assert b2 == b2[..32] + b3;
    hide DecodeSession, GetServerTail, Get16, Get32, Get64, ServerTailBytes, SessionBytes;
  }

  lemma ServerHelloV2Exact(input: seq<byte>, h: ServerHelloV2)
    ensures DecodeServerHelloV2(input) == Ok(h) <==> EncodeServerHelloV2(h) == Ok(input)
  {
    if DecodeServerHelloV2(input).Ok? {
      DecodedServerHelloV2Reencodes(input);
    }
    if SessionOk(h.sessionId) {
      EncodedServerHelloV2Decodes(h);
    }
    hide DecodeServerHelloV2, ServerHelloV2Bytes;
  }
}
