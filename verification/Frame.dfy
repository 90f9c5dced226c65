/** The frame codec: a 14-byte header (type, flags, flow id, length) in front of the payload. */
module Frames {
  import opened Bytes

  const FRAME_HEADER_LEN: nat := 14

  datatype FrameType =
    | ClientHello | ServerHello | OpenTcp | TcpData | TcpFin | TcpReset | OpenUdp | UdpPacket
    | CloseFlow | Ping | Pong | WindowUpdate | Error | DnsQuery | DnsResponse | Padding
  {
    function Code(): (b: byte)
    {
      match this
      case ClientHello => 0x01
      case ServerHello => 0x02
      case OpenTcp => 0x03
      case TcpData => 0x04
      case TcpFin => 0x05
      case TcpReset => 0x06
      case OpenUdp => 0x07
      case UdpPacket => 0x08
      case CloseFlow => 0x09
      case Ping => 0x0A
      case Pong => 0x0B
      case WindowUpdate => 0x0C
      case Error => 0x0D
      case DnsQuery => 0x0E
      case DnsResponse => 0x0F
      case Padding => 0x10
    }
  }

  /** The type with a given wire code; the codes 0x01 to 0x10 and no others have one. */
  function TypeOf(b: byte): (t: Option<FrameType>)
    ensures t.Some? <==> 1 <= b <= 0x10
    ensures t.Some? ==> t.value.Code() == b
  {
    match b
    case 0x01 => Some(ClientHello)
    case 0x02 => Some(ServerHello)
    case 0x03 => Some(OpenTcp)
    case 0x04 => Some(TcpData)
    case 0x05 => Some(TcpFin)
    case 0x06 => Some(TcpReset)
    case 0x07 => Some(OpenUdp)
    case 0x08 => Some(UdpPacket)
    case 0x09 => Some(CloseFlow)
    case 0x0A => Some(Ping)
    case 0x0B => Some(Pong)
    case 0x0C => Some(WindowUpdate)
    case 0x0D => Some(Error)
    case 0x0E => Some(DnsQuery)
    case 0x0F => Some(DnsResponse)
    case 0x10 => Some(Padding)
    case _ => None
  }

  datatype Frame = Frame(frameType: FrameType, flags: byte, flowId: u64, payload: seq<byte>)

  datatype CodecError =
    | FrameTooLarge(length: nat, max: nat)
    | UnknownFrameType(code: byte)
    | MalformedFrame(what: string)

  /** One decoding attempt on a buffer; `rest` is what the attempt leaves in the buffer. */
  datatype Step =
    | NeedMore
    | Got(frame: Frame, rest: seq<byte>)
    | Bad(error: CodecError, rest: seq<byte>)
  {
    function Left(buf: seq<byte>): (r: seq<byte>)
    {
      if NeedMore? then buf else rest
    }
  }

  datatype Outcome = Ok(frame: Option<Frame>) | Err(error: CodecError)

  function Verdict(s: Step): (o: Outcome)
  {
    match s
    case NeedMore => Ok(None)
    case Got(f, _) => Ok(Some(f))
    case Bad(e, _) => Err(e)
  }

  /** The bytes of a frame; the length field keeps the low 32 bits of the payload length. */
  function FrameBytes(f: Frame): (s: seq<byte>)
    ensures |s| == FRAME_HEADER_LEN + |f.payload|
  {
    [f.frameType.Code(), f.flags] + BigEndian(f.flowId, 8) + BigEndian(|f.payload|, 4) + f.payload
  }

  function EncodeFrame(f: Frame, max: nat): (r: Option<seq<byte>>)
  {
    if |f.payload| > max then None else Some(FrameBytes(f))
  }

  function LengthField(buf: seq<byte>): (n: nat)
    requires |buf| >= FRAME_HEADER_LEN
  {
    FromBigEndian(buf[10..14])
  }

  function DecodeFrame(buf: seq<byte>, max: nat): (s: Step)
  {
    if |buf| < FRAME_HEADER_LEN then NeedMore
    else
      var length := LengthField(buf);
      if length > max then Bad(FrameTooLarge(length, max), buf)
      else if |buf| < FRAME_HEADER_LEN + length then NeedMore
      else
        match TypeOf(buf[0])
        case None => Bad(UnknownFrameType(buf[0]), buf)
        case Some(t) =>
          FlowFieldBound(buf);
          Got(Frame(t, buf[1], FromBigEndian(buf[2..10]), buf[14..14 + length]), buf[14 + length..])
  }

  lemma FlowFieldBound(buf: seq<byte>)
    requires |buf| >= FRAME_HEADER_LEN
    ensures FromBigEndian(buf[2..10]) <= U64_MAX
  {
    FromBigEndianBound(buf[2..10]);
    Pow256Widths();
  }

  /** Which of the inputs that give no frame wait for more, and which are refused for what: the size is judged as soon
      as the header is there, the type only once the whole frame is. */
  lemma DecodeFrameWaitsIff(buf: seq<byte>, max: nat)
    ensures DecodeFrame(buf, max) == NeedMore <==>
            |buf| < FRAME_HEADER_LEN || (LengthField(buf) <= max && |buf| < FRAME_HEADER_LEN + LengthField(buf))
    ensures |buf| >= FRAME_HEADER_LEN && LengthField(buf) > max ==>
              DecodeFrame(buf, max) == Bad(FrameTooLarge(LengthField(buf), max), buf)
    ensures DecodeFrame(buf, max) == Bad(UnknownFrameType(if buf == [] then 0 else buf[0]), buf) <==>
            && |buf| >= FRAME_HEADER_LEN && LengthField(buf) <= max && |buf| >= FRAME_HEADER_LEN + LengthField(buf)
            && forall t: FrameType :: t.Code() != buf[0]
  {
    hide FromBigEndian;
  }

  lemma FrameBytesSlices(f: Frame, rest: seq<byte>)
    ensures var b := FrameBytes(f) + rest;
            && b[0] == f.frameType.Code()
            && b[1] == f.flags
            && b[2..10] == BigEndian(f.flowId, 8)
            && b[10..14] == BigEndian(|f.payload|, 4)
            && b[14..14 + |f.payload|] == f.payload
            && b[14 + |f.payload|..] == rest
  {
  }

  /** The decoder accepts exactly the encodings: for any bytes, a frame comes out if and only if the
      buffer starts with that frame's encoding and its payload is within both limits. */
  lemma DecodeFrameExact(buf: seq<byte>, max: nat, f: Frame, rest: seq<byte>)
    ensures DecodeFrame(buf, max) == Got(f, rest) <==>
            buf == FrameBytes(f) + rest && |f.payload| <= max && |f.payload| <= U32_MAX
  {
    Pow256Widths();
    if buf == FrameBytes(f) + rest && |f.payload| <= max && |f.payload| <= U32_MAX {
      FrameBytesSlices(f, rest);
      BigEndianFits(|f.payload|, 4);
      BigEndianFits(f.flowId, 8);
      assert TypeOf(buf[0]) == Some(f.frameType);
    }
    if DecodeFrame(buf, max) == Got(f, rest) {
      var length := LengthField(buf);
      FromBigEndianBound(buf[10..14]);
      ToFromBigEndian(buf[10..14]);
      ToFromBigEndian(buf[2..10]);
      assert |f.payload| == length;
      assert buf == [buf[0], buf[1]] + buf[2..10] + buf[10..14] + buf[14..14 + length] + rest;
    }
  }

  /** A growable byte buffer, of which the decoders take the front away. */
  class ByteBuffer {
    var data: seq<byte>

    constructor (initial: seq<byte>)
      ensures data == initial
    {
      data := initial;
    }

    method SplitTo(n: nat) returns (front: seq<byte>)
      requires n <= |data|
      modifies this
      ensures front == old(data)[..n] && data == old(data)[n..]
    {
      front := data[..n];
      data := data[n..];
    }

    method Extend(more: seq<byte>)
      modifies this
      ensures data == old(data) + more
    {
      data := data + more;
    }
  }

  method DecodeFrameFrom(buf: ByteBuffer, max: nat) returns (r: Outcome)
    modifies buf
    ensures r == Verdict(DecodeFrame(old(buf.data), max))
    ensures buf.data == DecodeFrame(old(buf.data), max).Left(old(buf.data))
  {
    ghost var before := buf.data;
    if |buf.data| < FRAME_HEADER_LEN {
      return Ok(None);
    }
    var length := FromBigEndian(buf.data[10..14]);
    if length > max {
      return Err(FrameTooLarge(length, max));
    }
    if |buf.data| < FRAME_HEADER_LEN + length {
      return Ok(None);
    }
    var frameType := TypeOf(buf.data[0]);
    if frameType.None? {
      return Err(UnknownFrameType(buf.data[0]));
    }
    FlowFieldBound(buf.data);
    var header := buf.SplitTo(FRAME_HEADER_LEN);
    assert header[2..10] == before[2..10];
    var flowId := FromBigEndian(header[2..10]);
    var payload := buf.SplitTo(length);
    assert payload == before[14..14 + length];
    assert buf.data == before[14 + length..];
    r := Ok(Some(Frame(frameType.value, header[1], flowId, payload)));
  }
}
