/** The MAC transcripts behind the four handshake messages, and the handshake that uses them. HMAC and
    HKDF are arbitrary functions; nothing here depends on what they compute. */
module Transcript {
  import opened Bytes
  import opened Targets
  import opened Hello

  const PROTOCOL_VERSION: u16 := 1
  const AUTH_V2_PROTOCOL_VERSION: u16 := 2
  const CLIENT_LABEL: string := "Maverick v1 client hello"
  const SERVER_LABEL: string := "Maverick v1 server hello"
  const CLIENT_V2_LABEL: string := "Maverick v2 client hello"
  const SERVER_V2_LABEL: string := "Maverick v2 server hello"
  const BINDING_LABEL: string := "maverick tls channel binding v1"
  const EPOCH_SALT_LABEL: string := "Maverick auth v2 epoch"
  const V2_CLIENT_INFO: string := "Maverick auth v2 client mac"
  const V2_SERVER_INFO: string := "Maverick auth v2 server mac"

  /** The top bit of the feature flags. */
  const FEATURE_TLS_CHANNEL_BINDING: u64 := 0x8000_0000_0000_0000

  type Secret = seq<byte>

  datatype Crypto = Crypto(
    hmac: (seq<byte>, seq<byte>) -> bytes32,
    hkdf: (seq<byte>, seq<byte>, seq<byte>) -> bytes32)

  function Ascii(s: string): (b: seq<byte>)
    ensures |b| == |s|
  {
    seq(|s|, i requires 0 <= i < |s| => s[i] as int % 256)
  }

  predicate BindingBit(flags: u64)
  {
    flags >= FEATURE_TLS_CHANNEL_BINDING
  }

  // ----- transcripts -----

  datatype ClientT = ClientT(
    version: u16, nonce: bytes32, timestamp: i64, credentialId: seq<byte>, path: seq<byte>, mode: Mode, flags: u64,
    binding: Option<bytes32>)

  datatype ServerT = ServerT(
    clientNonce: bytes32, serverNonce: bytes32, sessionId: seq<byte>, version: u16, maxFrameSize: u32, maxFlows: u32,
    flags: u64, binding: Option<bytes32>)

  datatype ClientV2T = ClientV2T(
    version: u16, epoch: u64, nonce: bytes32, timestamp: i64, hint: seq<byte>, path: seq<byte>, mode: Mode, flags: u64,
    rotation: u32, binding: Option<bytes32>)

  datatype ServerV2T = ServerV2T(
    clientNonce: bytes32, serverNonce: bytes32, sessionId: seq<byte>, version: u16, epoch: u64, maxFrameSize: u32,
    maxFlows: u32, flags: u64, rotationWindow: u32, binding: Option<bytes32>)

  function BindingBytes(b: Option<bytes32>): (s: seq<byte>)
    ensures b.None? ==> s == []
    ensures b.Some? ==> |s| == 63
  {
    match b
    case None => []
    case Some(v) => Ascii(BINDING_LABEL) + v
  }

  function Field16(s: seq<byte>): (b: seq<byte>)
  {
    BigEndian(|s|, 2) + s
  }

  function ClientBytes(t: ClientT): (s: seq<byte>)
  {
    Ascii(CLIENT_LABEL) + (Put16(t.version) + (t.nonce + (Put64(FromI64(t.timestamp)) + (Field16(t.credentialId) +
      (Field16(t.path) + ([t.mode.WireId()] + (Put64(t.flags) + BindingBytes(t.binding))))))))
  }

  function ServerBytes(t: ServerT): (s: seq<byte>)
  {
    Ascii(SERVER_LABEL) + (t.clientNonce + (t.serverNonce + (SessionBytes(t.sessionId) + (Put16(t.version) +
      (Put32(t.maxFrameSize) + (Put32(t.maxFlows) + (Put64(t.flags) + BindingBytes(t.binding))))))))
  }

  function ClientV2Bytes(t: ClientV2T): (s: seq<byte>)
  {
    Ascii(CLIENT_V2_LABEL) + (Put16(t.version) + (Put64(t.epoch) + (t.nonce + (Put64(FromI64(t.timestamp)) +
      (Field16(t.hint) + (Field16(t.path) + ([t.mode.WireId()] + (Put64(t.flags) + (Put32(t.rotation) +
      BindingBytes(t.binding))))))))))
  }

  function ServerV2Bytes(t: ServerV2T): (s: seq<byte>)
  {
    Ascii(SERVER_V2_LABEL) + (t.clientNonce + (t.serverNonce + (SessionBytes(t.sessionId) + (Put16(t.version) +
      (Put64(t.epoch) + (Put32(t.maxFrameSize) + (Put32(t.maxFlows) + (Put64(t.flags) + (Put32(t.rotationWindow) +
      BindingBytes(t.binding))))))))))
  }

  lemma Cancel(a: seq<byte>, x: seq<byte>, b: seq<byte>, y: seq<byte>)
    requires a + x == b + y && |a| == |b|
    ensures a == b && x == y
  {
    assert a == (a + x)[..|a|] && b == (b + y)[..|a|];
    assert x == (a + x)[|a|..] && y == (b + y)[|a|..];
  }

  lemma Cancel16(u: u16, x: seq<byte>, v: u16, y: seq<byte>)
    requires Put16(u) + x == Put16(v) + y
    ensures u == v && x == y
  {
    GetPut(u, 0, 0, x);
    GetPut(v, 0, 0, y);
  }

  lemma Cancel32(u: u32, x: seq<byte>, v: u32, y: seq<byte>)
    requires Put32(u) + x == Put32(v) + y
    ensures u == v && x == y
  {
    GetPut(0, u, 0, x);
    GetPut(0, v, 0, y);
  }

  lemma Cancel64(u: u64, x: seq<byte>, v: u64, y: seq<byte>)
    requires Put64(u) + x == Put64(v) + y
    ensures u == v && x == y
  {
    GetPut(0, 0, u, x);
    GetPut(0, 0, v, y);
  }

  lemma CancelTime(u: i64, x: seq<byte>, v: i64, y: seq<byte>)
    requires Put64(FromI64(u)) + x == Put64(FromI64(v)) + y
    ensures u == v && x == y
  {
    Cancel64(FromI64(u), x, FromI64(v), y);
    I64RoundTrip(u, 0);
    I64RoundTrip(v, 0);
  }

  lemma CancelField(a: seq<byte>, x: seq<byte>, b: seq<byte>, y: seq<byte>)
    requires |a| <= U16_MAX && |b| <= U16_MAX
    requires Field16(a) + x == Field16(b) + y
    ensures a == b && x == y
  {
    assert Field16(a) + x == Put16(|a|) + (a + x);
    assert Field16(b) + y == Put16(|b|) + (b + y);
    Cancel16(|a|, a + x, |b|, b + y);
    Cancel(a, x, b, y);
  }

  lemma CancelSession(a: seq<byte>, x: seq<byte>, b: seq<byte>, y: seq<byte>)
    requires |a| <= U8_MAX && |b| <= U8_MAX
    requires SessionBytes(a) + x == SessionBytes(b) + y
    ensures a == b && x == y
  {
    assert SessionBytes(a) + x == [|a|] + (a + x);
    assert SessionBytes(b) + y == [|b|] + (b + y);
    Cancel([|a|], a + x, [|b|], b + y);
    Cancel(a, x, b, y);
  }

  lemma CancelMode(m: Mode, x: seq<byte>, n: Mode, y: seq<byte>)
    requires [m.WireId()] + x == [n.WireId()] + y
    ensures m == n && x == y
  {
    Cancel([m.WireId()], x, [n.WireId()], y);
    assert ModeOf(m.WireId()) == Some(m) && ModeOf(n.WireId()) == Some(n);
  }

  lemma CancelBinding(a: Option<bytes32>, b: Option<bytes32>)
    requires BindingBytes(a) == BindingBytes(b)
    ensures a == b
  {
    if a.Some? && b.Some? {
      Cancel(Ascii(BINDING_LABEL), a.value, Ascii(BINDING_LABEL), b.value);
    }
  }

  /** The v1 client transcript determines every field, the optional binding included, for ids and paths
      within the 65,535 bytes configuration admits. */
  lemma ClientTranscriptInjective(a: ClientT, b: ClientT)
    requires |a.credentialId| <= U16_MAX && |a.path| <= U16_MAX && |b.credentialId| <= U16_MAX && |b.path| <= U16_MAX
    requires ClientBytes(a) == ClientBytes(b)
    ensures a == b
  {
    hide Ascii, BindingBytes, Field16, Put16, Put64;
    var a6, b6 := Put64(a.flags) + BindingBytes(a.binding), Put64(b.flags) + BindingBytes(b.binding);
    var a5, b5 := [a.mode.WireId()] + a6, [b.mode.WireId()] + b6;
    var a4, b4 := Field16(a.path) + a5, Field16(b.path) + b5;
    var a3, b3 := Field16(a.credentialId) + a4, Field16(b.credentialId) + b4;
    var a2, b2 := Put64(FromI64(a.timestamp)) + a3, Put64(FromI64(b.timestamp)) + b3;
    Cancel(Ascii(CLIENT_LABEL), Put16(a.version) + (a.nonce + a2),
           Ascii(CLIENT_LABEL), Put16(b.version) + (b.nonce + b2));
    Cancel16(a.version, a.nonce + a2, b.version, b.nonce + b2);
    Cancel(a.nonce, a2, b.nonce, b2);
    CancelTime(a.timestamp, a3, b.timestamp, b3);
    CancelField(a.credentialId, a4, b.credentialId, b4);
    CancelField(a.path, a5, b.path, b5);
    CancelMode(a.mode, a6, b.mode, b6);
    Cancel64(a.flags, BindingBytes(a.binding), b.flags, BindingBytes(b.binding));
    CancelBinding(a.binding, b.binding);
  }

  lemma ServerTranscriptInjective(a: ServerT, b: ServerT)
    requires |a.sessionId| <= U8_MAX && |b.sessionId| <= U8_MAX
    requires ServerBytes(a) == ServerBytes(b)
    ensures a == b
  {
    hide Ascii, BindingBytes, SessionBytes, Put16, Put32, Put64;
    var a6, b6 := Put64(a.flags) + BindingBytes(a.binding), Put64(b.flags) + BindingBytes(b.binding);
    var a5, b5 := Put32(a.maxFlows) + a6, Put32(b.maxFlows) + b6;
    var a4, b4 := Put32(a.maxFrameSize) + a5, Put32(b.maxFrameSize) + b5;
    var a3, b3 := Put16(a.version) + a4, Put16(b.version) + b4;
    var a2, b2 := SessionBytes(a.sessionId) + a3, SessionBytes(b.sessionId) + b3;
    Cancel(Ascii(SERVER_LABEL), a.clientNonce + (a.serverNonce + a2),
           Ascii(SERVER_LABEL), b.clientNonce + (b.serverNonce + b2));
    Cancel(a.clientNonce, a.serverNonce + a2, b.clientNonce, b.serverNonce + b2);
    Cancel(a.serverNonce, a2, b.serverNonce, b2);
    CancelSession(a.sessionId, a3, b.sessionId, b3);
    Cancel16(a.version, a4, b.version, b4);
    Cancel32(a.maxFrameSize, a5, b.maxFrameSize, b5);
    Cancel32(a.maxFlows, a6, b.maxFlows, b6);
    Cancel64(a.flags, BindingBytes(a.binding), b.flags, BindingBytes(b.binding));
    CancelBinding(a.binding, b.binding);
  }

  lemma ClientV2TranscriptInjective(a: ClientV2T, b: ClientV2T)
    requires |a.hint| <= U16_MAX && |a.path| <= U16_MAX && |b.hint| <= U16_MAX && |b.path| <= U16_MAX
    requires ClientV2Bytes(a) == ClientV2Bytes(b)
    ensures a == b
  {
    hide Ascii, BindingBytes, Field16, Put16, Put32, Put64;
    var a8, b8 := Put32(a.rotation) + BindingBytes(a.binding), Put32(b.rotation) + BindingBytes(b.binding);
    var a7, b7 := Put64(a.flags) + a8, Put64(b.flags) + b8;
    var a6, b6 := [a.mode.WireId()] + a7, [b.mode.WireId()] + b7;
    var a5, b5 := Field16(a.path) + a6, Field16(b.path) + b6;
    var a4, b4 := Field16(a.hint) + a5, Field16(b.hint) + b5;
    var a3, b3 := Put64(FromI64(a.timestamp)) + a4, Put64(FromI64(b.timestamp)) + b4;
    var a2, b2 := Put64(a.epoch) + (a.nonce + a3), Put64(b.epoch) + (b.nonce + b3);
    Cancel(Ascii(CLIENT_V2_LABEL), Put16(a.version) + a2, Ascii(CLIENT_V2_LABEL), Put16(b.version) + b2);
    Cancel16(a.version, a2, b.version, b2);
    Cancel64(a.epoch, a.nonce + a3, b.epoch, b.nonce + b3);
    Cancel(a.nonce, a3, b.nonce, b3);
    CancelTime(a.timestamp, a4, b.timestamp, b4);
    CancelField(a.hint, a5, b.hint, b5);
    CancelField(a.path, a6, b.path, b6);
    CancelMode(a.mode, a7, b.mode, b7);
    Cancel64(a.flags, a8, b.flags, b8);
    Cancel32(a.rotation, BindingBytes(a.binding), b.rotation, BindingBytes(b.binding));
    CancelBinding(a.binding, b.binding);
  }

  lemma ServerV2TranscriptInjective(a: ServerV2T, b: ServerV2T)
    requires |a.sessionId| <= U8_MAX && |b.sessionId| <= U8_MAX
    requires ServerV2Bytes(a) == ServerV2Bytes(b)
    ensures a == b
  {
    hide Ascii, BindingBytes, SessionBytes, Put16, Put32, Put64;
    var a8, b8 := Put32(a.rotationWindow) + BindingBytes(a.binding), Put32(b.rotationWindow) + BindingBytes(b.binding);
    var a7, b7 := Put64(a.flags) + a8, Put64(b.flags) + b8;
    var a6, b6 := Put32(a.maxFlows) + a7, Put32(b.maxFlows) + b7;
    var a5, b5 := Put32(a.maxFrameSize) + a6, Put32(b.maxFrameSize) + b6;
    var a4, b4 := Put64(a.epoch) + a5, Put64(b.epoch) + b5;
    var a3, b3 := Put16(a.version) + a4, Put16(b.version) + b4;
    var a2, b2 := SessionBytes(a.sessionId) + a3, SessionBytes(b.sessionId) + b3;
    Cancel(Ascii(SERVER_V2_LABEL), a.clientNonce + (a.serverNonce + a2),
           Ascii(SERVER_V2_LABEL), b.clientNonce + (b.serverNonce + b2));
    Cancel(a.clientNonce, a.serverNonce + a2, b.clientNonce, b.serverNonce + b2);
    Cancel(a.serverNonce, a2, b.serverNonce, b2);
    CancelSession(a.sessionId, a3, b.sessionId, b3);
    Cancel16(a.version, a4, b.version, b4);
    Cancel64(a.epoch, a5, b.epoch, b5);
    Cancel32(a.maxFrameSize, a6, b.maxFrameSize, b6);
    Cancel32(a.maxFlows, a7, b.maxFlows, b7);
    Cancel64(a.flags, a8, b.flags, b8);
    Cancel32(a.rotationWindow, BindingBytes(a.binding), b.rotationWindow, BindingBytes(b.binding));
    CancelBinding(a.binding, b.binding);
  }

  datatype Any = OfClient(c: ClientT) | OfServer(s: ServerT) | OfClientV2(c2: ClientV2T) | OfServerV2(s2: ServerV2T)
  {
    function Wire(): (b: seq<byte>)
    {
      match this
      case OfClient(t) => ClientBytes(t)
      case OfServer(t) => ServerBytes(t)
      case OfClientV2(t) => ClientV2Bytes(t)
      case OfServerV2(t) => ServerV2Bytes(t)
    }

    function Label(): (s: string)
    {
      match this
      case OfClient(_) => CLIENT_LABEL
      case OfServer(_) => SERVER_LABEL
      case OfClientV2(_) => CLIENT_V2_LABEL
      case OfServerV2(_) => SERVER_V2_LABEL
    }
  }

  lemma LabelFirst(t: Any)
    ensures |t.Label()| == 24 && |t.Wire()| >= 24 && t.Wire()[..24] == Ascii(t.Label())
  {
  }

  /** Transcripts of different kinds never coincide. */
  lemma KindsNeverCoincide(a: Any, b: Any)
    requires a.Wire() == b.Wire()
    ensures a.Label() == b.Label()
    ensures (a.OfClient? <==> b.OfClient?) && (a.OfServer? <==> b.OfServer?)
            && (a.OfClientV2? <==> b.OfClientV2?) && (a.OfServerV2? <==> b.OfServerV2?)
  {
    hide Any.Wire, Ascii;
    LabelFirst(a);
    LabelFirst(b);
    LabelsDiffer(a, b);
  }

  lemma LabelsDiffer(a: Any, b: Any)
    requires Ascii(a.Label()) == Ascii(b.Label())
    ensures a.Label() == b.Label()
    ensures (a.OfClient? <==> b.OfClient?) && (a.OfServer? <==> b.OfServer?)
            && (a.OfClientV2? <==> b.OfClientV2?) && (a.OfServerV2? <==> b.OfServerV2?)
  {
    assert |a.Label()| == |b.Label()| == 24;
    assert Ascii(a.Label())[10] == Ascii(b.Label())[10];
    assert Ascii(a.Label())[12] == Ascii(b.Label())[12];
    assert a.Label()[10] == b.Label()[10] && a.Label()[12] == b.Label()[12];
  }

  // ----- tags -----

  function ClientTag(c: Crypto, secret: Secret, t: ClientT): (tag: bytes32)
  {
    c.hmac(secret, ClientBytes(t))
  }

  function ServerTag(c: Crypto, secret: Secret, t: ServerT): (tag: bytes32)
  {
    c.hmac(secret, ServerBytes(t))
  }

  function EpochKey(c: Crypto, secret: Secret, epoch: u64, info: string): (key: bytes32)
  {
    c.hkdf(Ascii(EPOCH_SALT_LABEL) + Put64(epoch), secret, Ascii(info))
  }

  /** No tag for a hint that is empty or too long. */
  function ClientV2Tag(c: Crypto, secret: Secret, t: ClientV2T): (tag: Option<bytes32>)
  {
    if !HintOk(t.hint) then None else Some(c.hmac(EpochKey(c, secret, t.epoch, V2_CLIENT_INFO), ClientV2Bytes(t)))
  }

  function ServerV2Tag(c: Crypto, secret: Secret, t: ServerV2T): (tag: Option<bytes32>)
  {
    if !SessionOk(t.sessionId) then None
    else Some(c.hmac(EpochKey(c, secret, t.epoch, V2_SERVER_INFO), ServerV2Bytes(t)))
  }

  /** The binding a transcript carries; none at all when the flag asks for material that is missing. */
  function Bound(flags: u64, binding: Option<bytes32>): (r: Option<Option<bytes32>>)
    ensures r.Some? ==> (r.value.Some? <==> BindingBit(flags))
  {
    if !BindingBit(flags) then Some(None) else if binding.None? then None else Some(binding)
  }

  function VerifyClientHello(c: Crypto, h: ClientHello, secret: Secret, path: seq<byte>, binding: Option<bytes32>)
    : (ok: bool)
  {
    match Bound(h.flags, binding)
    case None => false
    case Some(b) =>
      h.tag == ClientTag(c, secret, ClientT(h.version, h.nonce, h.timestamp, h.credentialId, path, h.mode, h.flags, b))
  }

  function VerifyClientHelloV2(c: Crypto, h: ClientHelloV2, secret: Secret, path: seq<byte>, binding: Option<bytes32>)
    : (ok: bool)
  {
    match Bound(h.flags, binding)
    case None => false
    case Some(b) =>
      Some(h.tag) == ClientV2Tag(c, secret,
        ClientV2T(h.version, h.epoch, h.nonce, h.timestamp, h.hint, path, h.mode, h.flags, h.rotation, b))
  }

  function VerifyServerHello(c: Crypto, h: ServerHello, secret: Secret, clientNonce: bytes32, binding: Option<bytes32>)
    : (ok: bool)
  {
    match Bound(h.flags, binding)
    case None => false
    case Some(b) =>
      h.tag == ServerTag(c, secret,
        ServerT(clientNonce, h.nonce, h.sessionId, h.version, h.maxFrameSize, h.maxFlows, h.flags, b))
  }

  function VerifyServerHelloV2(
    c: Crypto, h: ServerHelloV2, secret: Secret, clientNonce: bytes32, binding: Option<bytes32>)
    : (ok: bool)
  {
    match Bound(h.flags, binding)
    case None => false
    case Some(b) =>
      Some(h.tag) == ServerV2Tag(c, secret,
        ServerV2T(clientNonce, h.nonce, h.sessionId, h.version, h.epoch, h.maxFrameSize, h.maxFlows,
                  h.flags, h.rotationWindow, b))
  }

  // ----- building the messages -----

  datatype ClientConfig = ClientConfig(
    credentialId: seq<byte>, secret: Secret, path: seq<byte>, mode: Mode, epoch: Option<u64>,  // an epoch selects v2
    bindingEnabled: bool, bindingRequired: bool)

  datatype Message = V1(hello: ClientHello) | V2(hello2: ClientHelloV2)

  datatype Handshake = Handshake(message: Message, secret: Secret, binding: Option<bytes32>, requireBinding: bool)

  /** The flags a client asks for; none when a required binding is not available. */
  function ClientFlags(cfg: ClientConfig, binding: Option<bytes32>): (r: Option<u64>)
  {
    if !cfg.bindingEnabled then Some(0)
    else if binding.Some? then Some(FEATURE_TLS_CHANNEL_BINDING)
    else if cfg.bindingRequired then None
    else Some(0)
  }

  function Selected(flags: u64, binding: Option<bytes32>): (r: Option<bytes32>)
  {
    if BindingBit(flags) then binding else None
  }

  function NewClientHello(c: Crypto, cfg: ClientConfig, flags: u64, binding: Option<bytes32>, nonce: bytes32, now: i64)
    : (r: Option<ClientHello>)
  {
    if BindingBit(flags) && binding.None? then None
    else
      var t := ClientT(PROTOCOL_VERSION, nonce, now, cfg.credentialId, cfg.path, cfg.mode, flags, binding);
      Some(ClientHello(PROTOCOL_VERSION, nonce, now, cfg.credentialId, cfg.mode, flags, ClientTag(c, cfg.secret, t)))
  }

  function NewClientHelloV2(
    c: Crypto, cfg: ClientConfig, epoch: u64, flags: u64, binding: Option<bytes32>, nonce: bytes32, now: i64)
    : (r: Option<ClientHelloV2>)
  {
    if BindingBit(flags) && binding.None? then None
    else
      var t := ClientV2T(AUTH_V2_PROTOCOL_VERSION, epoch, nonce, now, cfg.credentialId, cfg.path, cfg.mode,
                         flags, 0, binding);
      match ClientV2Tag(c, cfg.secret, t)
      case None => None
      case Some(tag) =>
        Some(ClientHelloV2(AUTH_V2_PROTOCOL_VERSION, epoch, nonce, now, cfg.credentialId, cfg.mode, flags, 0, tag))
  }

  function NewHandshake(c: Crypto, cfg: ClientConfig, binding: Option<bytes32>, nonce: bytes32, now: i64)
    : (r: Option<Handshake>)
  {
    match ClientFlags(cfg, binding)
    case None => None
    case Some(flags) =>
      match cfg.epoch
      case Some(epoch) =>
        (match NewClientHelloV2(c, cfg, epoch, flags, Selected(flags, binding), nonce, now)
         case None => None
         case Some(h) => Some(Handshake(V2(h), cfg.secret, binding, cfg.bindingRequired)))
      case None =>
        (match NewClientHello(c, cfg, flags, Selected(flags, binding), nonce, now)
         case None => None
         case Some(h) => Some(Handshake(V1(h), cfg.secret, binding, cfg.bindingRequired)))
  }

  /** Every hello a client builds, if its credential id is within what the decoder takes, arrives intact and
      verifies at a server with the same secret, path and binding. */
  lemma ClientHelloArrivesVerified(
    c: Crypto, cfg: ClientConfig, binding: Option<bytes32>, nonce: bytes32, now: i64, utf8: Text)
    requires NewHandshake(c, cfg, binding, nonce, now).Some?
    requires |cfg.credentialId| <= MAX_CREDENTIAL_ID_LEN && utf8(cfg.credentialId)
    ensures match NewHandshake(c, cfg, binding, nonce, now).value.message
            case V1(h) =>
              && DecodeClientHello(ClientHelloBytes(h), utf8) == Ok(h)
              && VerifyClientHello(c, h, cfg.secret, cfg.path, binding)
            case V2(h) =>
              && EncodeClientHelloV2(h).Ok?
              && DecodeClientHelloV2(EncodeClientHelloV2(h).value) == Ok(h)
              && VerifyClientHelloV2(c, h, cfg.secret, cfg.path, binding)
  {
    hide DecodeClientHello, DecodeClientHelloV2, ClientHelloBytes, ClientHelloV2Bytes, ClientBytes, ClientV2Bytes;
    match NewHandshake(c, cfg, binding, nonce, now).value.message
    case V1(h) =>
      ClientHelloExact(ClientHelloBytes(h), utf8, h);
    case V2(h) =>
      ClientHelloV2Exact(ClientHelloV2Bytes(h), h);
  }

  /** The hello carries what the configuration, the nonce and the clock say, and asks for the binding exactly when it
      is enabled and there. */
  lemma HandshakeCarriesConfig(c: Crypto, cfg: ClientConfig, binding: Option<bytes32>, nonce: bytes32, now: i64)
    requires NewHandshake(c, cfg, binding, nonce, now).Some?
    ensures var hs := NewHandshake(c, cfg, binding, nonce, now).value;
            && hs.secret == cfg.secret && hs.binding == binding && hs.requireBinding == cfg.bindingRequired
            && match hs.message
               case V1(h) =>
                 && cfg.epoch == None
                 && h.nonce == nonce && h.timestamp == now && h.credentialId == cfg.credentialId && h.mode == cfg.mode
                 && (BindingBit(h.flags) <==> cfg.bindingEnabled && binding.Some?)
               case V2(h) =>
                 && cfg.epoch == Some(h.epoch)
                 && h.nonce == nonce && h.timestamp == now && h.hint == cfg.credentialId && h.mode == cfg.mode
                 && (BindingBit(h.flags) <==> cfg.bindingEnabled && binding.Some?)
  {
    hide ClientBytes, ClientV2Bytes;
  }

  /** The configuration a v1 hello with these fields would come from. */
  function ConfigOf(h: ClientHello, secret: Secret, path: seq<byte>): (cfg: ClientConfig)
  {
    ClientConfig(h.credentialId, secret, path, h.mode, None, false, false)
  }

  function ConfigOfV2(h: ClientHelloV2, secret: Secret, path: seq<byte>): (cfg: ClientConfig)
  {
    ClientConfig(h.hint, secret, path, h.mode, Some(h.epoch), false, false)
  }

  /** A server accepts a hello of its version exactly when a client with that secret, path and binding builds the very
      same hello from its fields: a hello with any other tag is refused. */
  lemma ClientHelloVerifiesIff(c: Crypto, h: ClientHello, secret: Secret, path: seq<byte>, binding: Option<bytes32>)
    requires h.version == PROTOCOL_VERSION
    ensures VerifyClientHello(c, h, secret, path, binding) <==>
            NewClientHello(c, ConfigOf(h, secret, path), h.flags, Selected(h.flags, binding), h.nonce,
                           h.timestamp) == Some(h)
  {
    hide ClientBytes;
  }

  lemma ClientHelloV2VerifiesIff(c: Crypto, h: ClientHelloV2, secret: Secret, path: seq<byte>, binding: Option<bytes32>)
    requires h.version == AUTH_V2_PROTOCOL_VERSION && h.rotation == 0
    ensures VerifyClientHelloV2(c, h, secret, path, binding) <==>
            NewClientHelloV2(c, ConfigOfV2(h, secret, path), h.epoch, h.flags, Selected(h.flags, binding), h.nonce,
                             h.timestamp) == Some(h)
  {
    hide ClientV2Bytes;
  }

  /** Of all hellos that agree on everything but the tag, at most one verifies, whatever the version. */
  lemma OneTagVerifies(
    c: Crypto, h: ClientHello, h2: ClientHelloV2, secret: Secret, path: seq<byte>, binding: Option<bytes32>,
    tag: bytes32)
    requires tag != h.tag && tag != h2.tag
    ensures !(&& VerifyClientHello(c, h, secret, path, binding)
              && VerifyClientHello(c, h.(tag := tag), secret, path, binding))
    ensures !(&& VerifyClientHelloV2(c, h2, secret, path, binding)
              && VerifyClientHelloV2(c, h2.(tag := tag), secret, path, binding))
  {
    hide ClientBytes, ClientV2Bytes;
  }

  /** The transcript a server checks for a v1 hello. */
  function TranscriptOf(h: ClientHello, path: seq<byte>, binding: Option<bytes32>): (t: ClientT)
  {
    ClientT(h.version, h.nonce, h.timestamp, h.credentialId, path, h.mode, h.flags, Selected(h.flags, binding))
  }

  function TranscriptOfV2(h: ClientHelloV2, path: seq<byte>, binding: Option<bytes32>): (t: ClientV2T)
  {
    ClientV2T(h.version, h.epoch, h.nonce, h.timestamp, h.hint, path, h.mode, h.flags, h.rotation,
              Selected(h.flags, binding))
  }

  /** A tag that verifies for two hellos, paths, bindings or secrets that differ in anything it covers is an HMAC
      collision: the two inputs are different and have the same code. */
  lemma ReusedTagIsCollision(
    c: Crypto, a: ClientHello, b: ClientHello, secretA: Secret, secretB: Secret, pathA: seq<byte>, pathB: seq<byte>,
    bindingA: Option<bytes32>, bindingB: Option<bytes32>)
    requires |a.credentialId| <= U16_MAX && |b.credentialId| <= U16_MAX && |pathA| <= U16_MAX && |pathB| <= U16_MAX
    requires VerifyClientHello(c, a, secretA, pathA, bindingA) && VerifyClientHello(c, b, secretB, pathB, bindingB)
    requires a.tag == b.tag
    requires || secretA != secretB || a != b || pathA != pathB
             || Selected(a.flags, bindingA) != Selected(b.flags, bindingB)
    ensures var m, m' := ClientBytes(TranscriptOf(a, pathA, bindingA)), ClientBytes(TranscriptOf(b, pathB, bindingB));
            (secretA, m) != (secretB, m') && c.hmac(secretA, m) == c.hmac(secretB, m')
  {
    var s, t := TranscriptOf(a, pathA, bindingA), TranscriptOf(b, pathB, bindingB);
    hide ClientBytes;
    if ClientBytes(s) == ClientBytes(t) {
      ClientTranscriptInjective(s, t);
    }
  }

  /** The same for v2, whose key is derived from the secret and the epoch. */
  lemma ReusedTagV2IsCollision(
    c: Crypto, a: ClientHelloV2, b: ClientHelloV2, secretA: Secret, secretB: Secret, pathA: seq<byte>, pathB: seq<byte>,
    bindingA: Option<bytes32>, bindingB: Option<bytes32>)
    requires a.tag == b.tag && |pathA| <= U16_MAX && |pathB| <= U16_MAX
    requires VerifyClientHelloV2(c, a, secretA, pathA, bindingA) && VerifyClientHelloV2(c, b, secretB, pathB, bindingB)
    requires || secretA != secretB || a != b || pathA != pathB
             || Selected(a.flags, bindingA) != Selected(b.flags, bindingB)
    ensures var m := ClientV2Bytes(TranscriptOfV2(a, pathA, bindingA));
            var m' := ClientV2Bytes(TranscriptOfV2(b, pathB, bindingB));
            var k, k' := EpochKey(c, secretA, a.epoch, V2_CLIENT_INFO), EpochKey(c, secretB, b.epoch, V2_CLIENT_INFO);
            (secretA, m) != (secretB, m') && c.hmac(k, m) == c.hmac(k', m')
  {
    var s, t := TranscriptOfV2(a, pathA, bindingA), TranscriptOfV2(b, pathB, bindingB);
    hide ClientV2Bytes, EpochKey;
    if ClientV2Bytes(s) == ClientV2Bytes(t) {
      ClientV2TranscriptInjective(s, t);
    }
  }

  function KeyInput(secret: Secret, epoch: u64, info: string): (input: (seq<byte>, seq<byte>, seq<byte>))
  {
    (Ascii(EPOCH_SALT_LABEL) + Put64(epoch), secret, Ascii(info))
  }

  lemma SaltDiffers(head: seq<byte>, a: u64, b: u64)
    requires head + Put64(a) == head + Put64(b)
    ensures a == b
  {
    assert (head + Put64(a))[|head|..] == Put64(a) && (head + Put64(b))[|head|..] == Put64(b);
    GetPut(0, 0, a, []);
    GetPut(0, 0, b, []);
    hide Put64, Get64;
  }

  lemma DirectionDiffers(a: string, b: string)
    requires |a| > 17 && |b| > 17 && a[17] as int % 256 != b[17] as int % 256
    ensures Ascii(a) != Ascii(b)
  {
    assert Ascii(a)[17] != Ascii(b)[17];
  }

  /** The v2 keys are separate: a different secret, epoch or direction is a different HKDF input. */
  lemma KeysAreSeparate(c: Crypto, secretA: Secret, secretB: Secret, a: u64, b: u64, infoA: string, infoB: string)
    requires secretA != secretB || a != b || (infoA == V2_CLIENT_INFO && infoB == V2_SERVER_INFO)
    ensures var x, y := KeyInput(secretA, a, infoA), KeyInput(secretB, b, infoB);
            && x != y
            && EpochKey(c, secretA, a, infoA) == c.hkdf(x.0, x.1, x.2)
            && EpochKey(c, secretB, b, infoB) == c.hkdf(y.0, y.1, y.2)
  {
    if infoA == V2_CLIENT_INFO && infoB == V2_SERVER_INFO {
      DirectionDiffers(infoA, infoB);
    }
    hide Ascii, Put64;
    if KeyInput(secretA, a, infoA).0 == KeyInput(secretB, b, infoB).0 {
      SaltDiffers(Ascii(EPOCH_SALT_LABEL), a, b);
    }
  }

  /** A v2 handshake exists exactly for hints of 1 to 512 bytes and available required bindings. */
  lemma HandshakeExists(c: Crypto, cfg: ClientConfig, binding: Option<bytes32>, nonce: bytes32, now: i64)
    ensures NewHandshake(c, cfg, binding, nonce, now).Some? <==>
            && (cfg.bindingEnabled && cfg.bindingRequired ==> binding.Some?)
            && (cfg.epoch.Some? ==> HintOk(cfg.credentialId))
  {
    hide ClientBytes, ClientV2Bytes;
  }

  // ----- the answer -----

  datatype ServerParams = ServerParams(
    nonce: bytes32, sessionId: seq<byte>, maxFrameSize: u32, maxFlows: u32, flags: u64, epoch: u64, rotationWindow: u32)

  function NewServerHello(c: Crypto, p: ServerParams, secret: Secret, clientNonce: bytes32, binding: Option<bytes32>)
    : (r: Option<ServerHello>)
  {
    if BindingBit(p.flags) && binding.None? then None
    else
      var t := ServerT(clientNonce, p.nonce, p.sessionId, PROTOCOL_VERSION, p.maxFrameSize, p.maxFlows,
                       p.flags, binding);
      Some(ServerHello(PROTOCOL_VERSION, p.nonce, p.sessionId, p.maxFrameSize, p.maxFlows,
                       p.flags, ServerTag(c, secret, t)))
  }

  function NewServerHelloV2(c: Crypto, p: ServerParams, secret: Secret, clientNonce: bytes32, binding: Option<bytes32>)
    : (r: Option<ServerHelloV2>)
  {
    if BindingBit(p.flags) && binding.None? then None
    else
      var t := ServerV2T(clientNonce, p.nonce, p.sessionId, AUTH_V2_PROTOCOL_VERSION, p.epoch,
                         p.maxFrameSize, p.maxFlows, p.flags, p.rotationWindow, binding);
      match ServerV2Tag(c, secret, t)
      case None => None
      case Some(tag) =>
        Some(ServerHelloV2(AUTH_V2_PROTOCOL_VERSION, p.epoch, p.nonce, p.sessionId, p.maxFrameSize, p.maxFlows, p.flags,
                           p.rotationWindow, tag))
  }

  /** `selected & !requested != 0`, bit by bit. */
  function Unrequested(selected: nat, requested: nat): (r: bool)
  {
    if selected == 0 then false
    else (selected % 2 == 1 && requested % 2 == 0) || Unrequested(selected / 2, requested / 2)
  }

  /** Bit `i` of a number, the lowest being 0. */
  predicate Bit(n: nat, i: nat)
  {
    if i == 0 then n % 2 == 1 else Bit(n / 2, i - 1)
  }

  lemma {:induction false} BitIsUnrequested(selected: nat, requested: nat, i: nat)
    requires Bit(selected, i) && !Bit(requested, i)
    ensures Unrequested(selected, requested)
    decreases i
  {
    if i > 0 {
      BitIsUnrequested(selected / 2, requested / 2, i - 1);
    }
  }

  lemma {:induction false} UnrequestedHasBit(selected: nat, requested: nat) returns (i: nat)
    requires Unrequested(selected, requested)
    ensures Bit(selected, i) && !Bit(requested, i)
  {
    i := 0;
    if Unrequested(selected / 2, requested / 2) {
      var j := UnrequestedHasBit(selected / 2, requested / 2);
      i := j + 1;
    }
  }

  /** Flags are refused exactly when some bit of them was not asked for. */
  lemma UnrequestedIff(selected: nat, requested: nat)
    ensures Unrequested(selected, requested) <==> exists i: nat :: Bit(selected, i) && !Bit(requested, i)
  {
    forall i: nat | Bit(selected, i) && !Bit(requested, i)
      ensures Unrequested(selected, requested)
    {
      BitIsUnrequested(selected, requested, i);
    }
    if Unrequested(selected, requested) {
      var i := UnrequestedHasBit(selected, requested);
    }
  }

  /** A subset of bits is a smaller number, so a selected top bit was a requested top bit. */
  lemma {:induction false} SubsetOfBits(selected: nat, requested: nat)
    requires !Unrequested(selected, requested)
    ensures selected <= requested
  {
    if selected != 0 {
      SubsetOfBits(selected / 2, requested / 2);
    }
  }

  /** The client's check of a server hello; the negotiated frame size, or nothing. */
  function CheckServerHello(c: Crypto, hs: Handshake, payload: seq<byte>): (r: Option<u32>)
  {
    match hs.message
    case V1(hello) =>
      (match DecodeServerHello(payload)
       case Malformed(_) => None
       case Ok(s) =>
         if s.version != PROTOCOL_VERSION || s.maxFlows == 0
            || (hs.requireBinding && !BindingBit(s.flags))
            || Unrequested(s.flags, hello.flags)
            || !VerifyServerHello(c, s, hs.secret, hello.nonce, Selected(s.flags, hs.binding))
         then None else Some(s.maxFrameSize))
    case V2(hello) =>
      (match DecodeServerHelloV2(payload)
       case Malformed(_) => None
       case Ok(s) =>
         if s.version != AUTH_V2_PROTOCOL_VERSION || s.epoch != hello.epoch || s.maxFlows == 0 || s.rotationWindow == 0
            || (hs.requireBinding && !BindingBit(s.flags))
            || Unrequested(s.flags, hello.flags)
            || !VerifyServerHelloV2(c, s, hs.secret, hello.nonce, Selected(s.flags, hs.binding))
         then None else Some(s.maxFrameSize))
  }

  /** What a client insists on beyond the tag. */
  predicate Acceptable(hs: Handshake, p: ServerParams)
  {
    && p.maxFlows != 0
    && (hs.requireBinding ==> BindingBit(p.flags))
    && !Unrequested(p.flags, if hs.message.V1? then hs.message.hello.flags else hs.message.hello2.flags)
    && (hs.message.V2? ==> p.epoch == hs.message.hello2.epoch && p.rotationWindow != 0)
  }

  /** The answer of a server that holds the same secret and sees the same binding is accepted, with its frame
      size, exactly when it stays within what the client asked for. */
  lemma HonestAnswerAccepted(c: Crypto, hs: Handshake, p: ServerParams)
    requires SessionOk(p.sessionId)
    requires BindingBit(p.flags) ==> hs.binding.Some?
    ensures match hs.message
            case V1(hello) =>
              var s := NewServerHello(c, p, hs.secret, hello.nonce, Selected(p.flags, hs.binding));
              && s.Some?
              && CheckServerHello(c, hs, ServerHelloBytes(s.value)) ==
                 if Acceptable(hs, p) then Some(p.maxFrameSize) else None
            case V2(hello) =>
              var s := NewServerHelloV2(c, p, hs.secret, hello.nonce, Selected(p.flags, hs.binding));
              && s.Some?
              && CheckServerHello(c, hs, ServerHelloV2Bytes(s.value)) ==
                 if Acceptable(hs, p) then Some(p.maxFrameSize) else None
  {
    hide DecodeServerHello, DecodeServerHelloV2, ServerHelloBytes, ServerHelloV2Bytes, ServerBytes, ServerV2Bytes,
         Unrequested;
    match hs.message
    case V1(hello) =>
      var s := NewServerHello(c, p, hs.secret, hello.nonce, Selected(p.flags, hs.binding)).value;
      ServerHelloExact(ServerHelloBytes(s), s);
    case V2(hello) =>
      var s := NewServerHelloV2(c, p, hs.secret, hello.nonce, Selected(p.flags, hs.binding)).value;
      ServerHelloV2Exact(ServerHelloV2Bytes(s), s);
  }

  /** The answers a server with the client's secret and binding can give, with the frame size they settle on. */
  ghost predicate GenuineAnswer(c: Crypto, hs: Handshake, p: ServerParams, payload: seq<byte>)
  {
    && Acceptable(hs, p) && SessionOk(p.sessionId) && (BindingBit(p.flags) ==> hs.binding.Some?)
    && match hs.message
       case V1(hello) =>
         var s := NewServerHello(c, p, hs.secret, hello.nonce, Selected(p.flags, hs.binding));
         s.Some? && payload == ServerHelloBytes(s.value)
       case V2(hello) =>
         var s := NewServerHelloV2(c, p, hs.secret, hello.nonce, Selected(p.flags, hs.binding));
         s.Some? && payload == ServerHelloV2Bytes(s.value)
  }

  /** What the sender of a decoded v1 hello must have put in. */
  function ParamsOf(s: ServerHello): (p: ServerParams)
  {
    ServerParams(s.nonce, s.sessionId, s.maxFrameSize, s.maxFlows, s.flags, 0, 0)
  }

  function ParamsOfV2(s: ServerHelloV2): (p: ServerParams)
  {
    ServerParams(s.nonce, s.sessionId, s.maxFrameSize, s.maxFlows, s.flags, s.epoch, s.rotationWindow)
  }

  lemma AcceptedV1IsGenuine(c: Crypto, hs: Handshake, payload: seq<byte>)
    requires hs.message.V1? && CheckServerHello(c, hs, payload).Some?
    ensures var p := ParamsOf(DecodeServerHello(payload).value);
            GenuineAnswer(c, hs, p, payload) && CheckServerHello(c, hs, payload) == Some(p.maxFrameSize)
  {
    var s := DecodeServerHello(payload).value;
    ServerHelloExact(payload, s);
    hide DecodeServerHello, ServerHelloBytes, ServerBytes, Unrequested, SessionOk;
  }

  lemma VerifiedV2IsBuilt(c: Crypto, s: ServerHelloV2, secret: Secret, clientNonce: bytes32, binding: Option<bytes32>)
    requires s.version == AUTH_V2_PROTOCOL_VERSION
    requires VerifyServerHelloV2(c, s, secret, clientNonce, Selected(s.flags, binding))
    ensures NewServerHelloV2(c, ParamsOfV2(s), secret, clientNonce, Selected(s.flags, binding)) == Some(s)
    ensures SessionOk(s.sessionId) && (BindingBit(s.flags) ==> binding.Some?)
  {
    hide ServerV2Bytes, SessionOk;
  }

  lemma AcceptedV2IsGenuine(c: Crypto, hs: Handshake, payload: seq<byte>)
    requires hs.message.V2? && CheckServerHello(c, hs, payload).Some?
    ensures var p := ParamsOfV2(DecodeServerHelloV2(payload).value);
            GenuineAnswer(c, hs, p, payload) && CheckServerHello(c, hs, payload) == Some(p.maxFrameSize)
  {
    hide DecodeServerHelloV2, ServerHelloV2Bytes, NewServerHelloV2, VerifyServerHelloV2;
    hide Unrequested, SessionOk, BindingBit;
    var s := DecodeServerHelloV2(payload).value;
    ServerHelloV2Exact(payload, s);
    VerifiedV2IsBuilt(c, s, hs.secret, hs.message.hello2.nonce, hs.binding);
  }

  /** A client accepts a payload, with a frame size, if and only if it is byte for byte an answer that a server with the
      same secret and binding gives to this client's nonce within what it asked for; any other payload, a wrong tag
      included, is refused. */
  lemma AnswerAcceptedIff(c: Crypto, hs: Handshake, payload: seq<byte>, size: u32)
    ensures CheckServerHello(c, hs, payload) == Some(size) <==>
            exists p :: GenuineAnswer(c, hs, p, payload) && p.maxFrameSize == size
  {
    hide CheckServerHello, ServerHelloBytes, ServerHelloV2Bytes, NewServerHello, NewServerHelloV2, Acceptable;
    if CheckServerHello(c, hs, payload) == Some(size) {
      if hs.message.V1? {
        AcceptedV1IsGenuine(c, hs, payload);
      } else {
        AcceptedV2IsGenuine(c, hs, payload);
      }
    }
    forall p | GenuineAnswer(c, hs, p, payload) && p.maxFrameSize == size
      ensures CheckServerHello(c, hs, payload) == Some(size)
    {
      HonestAnswerAccepted(c, hs, p);
    }
  }

  /** A client never ends up bound without having asked: an accepted answer with the binding flag means the
      hello carried it, and the tag that was checked covers the client's own binding. */
  lemma AcceptedBindingWasRequested(
    c: Crypto, cfg: ClientConfig, binding: Option<bytes32>, nonce: bytes32, now: i64, payload: seq<byte>)
    requires var hs := NewHandshake(c, cfg, binding, nonce, now);
             && hs.Some? && CheckServerHello(c, hs.value, payload).Some?
             && (match hs.value.message
                 case V1(_) => BindingBit(DecodeServerHello(payload).value.flags)
                 case V2(_) => BindingBit(DecodeServerHelloV2(payload).value.flags))
    ensures cfg.bindingEnabled && binding.Some?
  {
    hide DecodeServerHello, DecodeServerHelloV2, ServerBytes, ServerV2Bytes, ClientBytes, ClientV2Bytes, Unrequested;
    match NewHandshake(c, cfg, binding, nonce, now).value.message
    case V1(h) =>
      SubsetOfBits(DecodeServerHello(payload).value.flags, h.flags);
    case V2(h) =>
      SubsetOfBits(DecodeServerHelloV2(payload).value.flags, h.flags);
  }

  /** The transcript a client checks for a v1 answer. */
  function AnswerOf(s: ServerHello, hs: Handshake): (t: ServerT)
    requires hs.message.V1?
  {
    ServerT(hs.message.hello.nonce, s.nonce, s.sessionId, s.version, s.maxFrameSize, s.maxFlows, s.flags,
            Selected(s.flags, hs.binding))
  }

  function AnswerOfV2(s: ServerHelloV2, hs: Handshake): (t: ServerV2T)
    requires hs.message.V2?
  {
    ServerV2T(hs.message.hello2.nonce, s.nonce, s.sessionId, s.version, s.epoch, s.maxFrameSize, s.maxFlows, s.flags,
              s.rotationWindow, Selected(s.flags, hs.binding))
  }

  /** What acceptance says about the tag. */
  lemma AcceptedTag(c: Crypto, hs: Handshake, payload: seq<byte>)
    requires CheckServerHello(c, hs, payload).Some?
    ensures match hs.message
            case V1(_) =>
              var r := DecodeServerHello(payload);
              && r.Ok? && |r.value.sessionId| <= U8_MAX
              && r.value.tag == c.hmac(hs.secret, ServerBytes(AnswerOf(r.value, hs)))
            case V2(_) =>
              var r := DecodeServerHelloV2(payload);
              && r.Ok? && |r.value.sessionId| <= U8_MAX
              && r.value.tag == c.hmac(EpochKey(c, hs.secret, r.value.epoch, V2_SERVER_INFO),
                                       ServerV2Bytes(AnswerOfV2(r.value, hs)))
  {
    if hs.message.V1? {
      ServerHelloExact(payload, DecodeServerHello(payload).value);
    } else {
      ServerHelloV2Exact(payload, DecodeServerHelloV2(payload).value);
    }
    hide DecodeServerHello, DecodeServerHelloV2, ServerBytes, ServerV2Bytes, ServerHelloBytes, ServerHelloV2Bytes,
         Unrequested, EpochKey;
  }

  /** An answer is for one handshake only: if two that differ in nonce, secret or the binding it covers accept the same
      payload, that is an HMAC collision. */
  lemma AnswerServesOneHandshake(c: Crypto, a: Handshake, b: Handshake, payload: seq<byte>)
    requires a.message.V1? && b.message.V1?
    requires CheckServerHello(c, a, payload).Some? && CheckServerHello(c, b, payload).Some?
    requires || AnswerOf(DecodeServerHello(payload).value, a) != AnswerOf(DecodeServerHello(payload).value, b)
             || a.secret != b.secret
    ensures var s := DecodeServerHello(payload).value;
            var m, m' := ServerBytes(AnswerOf(s, a)), ServerBytes(AnswerOf(s, b));
            (a.secret, m) != (b.secret, m') && c.hmac(a.secret, m) == s.tag == c.hmac(b.secret, m')
  {
    hide CheckServerHello, DecodeServerHello, ServerBytes, AnswerOf;
    AcceptedTag(c, a, payload);
    AcceptedTag(c, b, payload);
    var s := DecodeServerHello(payload).value;
    if ServerBytes(AnswerOf(s, a)) == ServerBytes(AnswerOf(s, b)) {
      SameSession(s, a, b);
      ServerTranscriptInjective(AnswerOf(s, a), AnswerOf(s, b));
    }
  }

  lemma SameSession(s: ServerHello, a: Handshake, b: Handshake)
    requires a.message.V1? && b.message.V1?
    ensures AnswerOf(s, a).sessionId == AnswerOf(s, b).sessionId == s.sessionId
  {
  }

  lemma AnswerV2ServesOneHandshake(c: Crypto, a: Handshake, b: Handshake, payload: seq<byte>)
    requires a.message.V2? && b.message.V2?
    requires CheckServerHello(c, a, payload).Some? && CheckServerHello(c, b, payload).Some?
    requires || AnswerOfV2(DecodeServerHelloV2(payload).value, a) != AnswerOfV2(DecodeServerHelloV2(payload).value, b)
             || a.secret != b.secret
    ensures var s := DecodeServerHelloV2(payload).value;
            var m, m' := ServerV2Bytes(AnswerOfV2(s, a)), ServerV2Bytes(AnswerOfV2(s, b));
            var k, k' := EpochKey(c, a.secret, s.epoch, V2_SERVER_INFO), EpochKey(c, b.secret, s.epoch, V2_SERVER_INFO);
            (a.secret, m) != (b.secret, m') && c.hmac(k, m) == s.tag == c.hmac(k', m')
  {
    hide CheckServerHello, DecodeServerHelloV2, ServerV2Bytes, AnswerOfV2, EpochKey;
    AcceptedTag(c, a, payload);
    AcceptedTag(c, b, payload);
    var s := DecodeServerHelloV2(payload).value;
    if ServerV2Bytes(AnswerOfV2(s, a)) == ServerV2Bytes(AnswerOfV2(s, b)) {
      SameSessionV2(s, a, b);
      ServerV2TranscriptInjective(AnswerOfV2(s, a), AnswerOfV2(s, b));
    }
  }

  lemma SameSessionV2(s: ServerHelloV2, a: Handshake, b: Handshake)
    requires a.message.V2? && b.message.V2?
    ensures AnswerOfV2(s, a).sessionId == AnswerOfV2(s, b).sessionId == s.sessionId
  {
  }
}
