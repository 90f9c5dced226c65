/** One frame per gRPC length-prefixed message: a zero "compressed" byte, a 32-bit length, the frame. */
module Grpc {
  import opened Bytes
  import opened Frames

  const GRPC_MESSAGE_HEADER_LEN: nat := 5

  function MessageBytes(message: seq<byte>): (s: seq<byte>)
    ensures |s| == GRPC_MESSAGE_HEADER_LEN + |message|
  {
    [0] + BigEndian(|message|, 4) + message
  }

  function GrpcBytes(f: Frame): (s: seq<byte>)
    ensures |s| == GRPC_MESSAGE_HEADER_LEN + FRAME_HEADER_LEN + |f.payload|
  {
    MessageBytes(FrameBytes(f))
  }

  function EncodeGrpcFrame(f: Frame, max: nat): (r: Option<seq<byte>>)
    ensures r == if |f.payload| > max then None else Some(GrpcBytes(f))
  {
    match EncodeFrame(f, max)
    case None => None
    case Some(b) => Some(MessageBytes(b))
  }

  /** Neither limit is in the way of this frame: the receiver's payload bound and the 32-bit length. */
  predicate Sendable(f: Frame, max: nat)
  {
    |f.payload| <= max && FRAME_HEADER_LEN + |f.payload| <= U32_MAX
  }

  function MessageLength(buf: seq<byte>): (n: nat)
    requires |buf| >= GRPC_MESSAGE_HEADER_LEN
  {
    FromBigEndian(buf[1..5])
  }

  /** What the whole message of a gRPC envelope decodes to, given what follows it in the buffer. */
  function DecodeMessage(message: seq<byte>, after: seq<byte>, max: nat): (s: Step)
    ensures !s.NeedMore? && s.rest == after
  {
    match DecodeFrame(message, max)
    case Bad(e, _) => Bad(e, after)
    case NeedMore => Bad(MalformedFrame("grpc message did not contain a complete frame"), after)
    case Got(f, rest) =>
      if rest != [] then Bad(MalformedFrame("grpc message contained trailing bytes"), after)
      else Got(f, after)
  }

  function DecodeGrpc(buf: seq<byte>, max: nat): (s: Step)
    ensures s.Got? ==> |s.rest| < |buf|
  {
    if |buf| < GRPC_MESSAGE_HEADER_LEN then NeedMore
    else if buf[0] != 0 then Bad(MalformedFrame("compressed grpc messages are unsupported"), buf)
    else
      var length := MessageLength(buf);
      if length > FRAME_HEADER_LEN + max then Bad(FrameTooLarge(length, FRAME_HEADER_LEN + max), buf)
      else if |buf| < GRPC_MESSAGE_HEADER_LEN + length then NeedMore
      else DecodeMessage(buf[5..5 + length], buf[5 + length..], max)
  }

  /** Extending the buffer never changes a verdict already reached: same frame or same error, and the
      new bytes are simply left over. */
  lemma DecodeGrpcStable(buf: seq<byte>, more: seq<byte>, max: nat)
    requires !DecodeGrpc(buf, max).NeedMore?
    ensures var s := DecodeGrpc(buf, max);
            var s' := DecodeGrpc(buf + more, max);
            match s
            case Got(f, rest) => s' == Got(f, rest + more)
            case Bad(e, rest) => s' == Bad(e, rest + more)
  {
    var all := buf + more;
    assert all[0] == buf[0];
    assert all[1..5] == buf[1..5];
    var length := MessageLength(buf);
    if buf[0] == 0 && length <= FRAME_HEADER_LEN + max {
      assert all[5..5 + length] == buf[5..5 + length];
      assert all[5 + length..] == buf[5 + length..] + more;
    }
  }

  /** The decoder accepts exactly the encodings of sendable frames. */
  lemma DecodeGrpcExact(buf: seq<byte>, max: nat, f: Frame, rest: seq<byte>)
    ensures DecodeGrpc(buf, max) == Got(f, rest) <==>
            buf == GrpcBytes(f) + rest && Sendable(f, max)
  {
    Pow256Widths();
    var m := FrameBytes(f);
    if buf == GrpcBytes(f) + rest && Sendable(f, max) {
      assert buf[1..5] == BigEndian(|m|, 4);
      assert buf[5..5 + |m|] == m;
      assert buf[5 + |m|..] == rest;
      BigEndianFits(|m|, 4);
      DecodeFrameExact(m, max, f, []);
      assert m == m + [];
    }
    if DecodeGrpc(buf, max) == Got(f, rest) {
      var length := MessageLength(buf);
      var message := buf[5..5 + length];
      DecodeFrameExact(message, max, f, []);
      assert message == m + [] == m;
      FromBigEndianBound(buf[1..5]);
      ToFromBigEndian(buf[1..5]);
      assert buf == [buf[0]] + buf[1..5] + message + rest;
    }
  }

  /** Which of the inputs that give no frame wait for more and which are errors: the decoder waits exactly while the
      envelope header, or an uncompressed message within the limit, is not all there; a message over the limit is an
      error as soon as its header is there. */
  lemma DecodeGrpcWaitsIff(buf: seq<byte>, max: nat)
    ensures DecodeGrpc(buf, max) == NeedMore <==>
            || |buf| < GRPC_MESSAGE_HEADER_LEN
            || (&& buf[0] == 0 && MessageLength(buf) <= FRAME_HEADER_LEN + max
                && |buf| < GRPC_MESSAGE_HEADER_LEN + MessageLength(buf))
    ensures |buf| >= GRPC_MESSAGE_HEADER_LEN && (buf[0] != 0 || MessageLength(buf) > FRAME_HEADER_LEN + max) ==>
              DecodeGrpc(buf, max).Bad? && DecodeGrpc(buf, max).rest == buf
  {
    hide DecodeMessage, FromBigEndian;
  }

  /** A frame that encodes survives the trip if and only if its message length fits in 32 bits. */
  lemma GrpcRoundTrip(f: Frame, max: nat)
    requires EncodeGrpcFrame(f, max).Some?
    ensures DecodeGrpc(EncodeGrpcFrame(f, max).value, max) == Got(f, []) <==>
            FRAME_HEADER_LEN + |f.payload| <= U32_MAX
  {
    DecodeGrpcExact(GrpcBytes(f), max, f, []);
    assert GrpcBytes(f) + [] == GrpcBytes(f);
  }

  method DecodeGrpcFrameFrom(buf: ByteBuffer, max: nat) returns (r: Outcome)
    modifies buf
    ensures r == Verdict(DecodeGrpc(old(buf.data), max))
    ensures buf.data == DecodeGrpc(old(buf.data), max).Left(old(buf.data))
  {
    ghost var before := buf.data;
    if |buf.data| < GRPC_MESSAGE_HEADER_LEN {
      return Ok(None);
    }
    if buf.data[0] != 0 {
      return Err(MalformedFrame("compressed grpc messages are unsupported"));
    }
    var length := FromBigEndian(buf.data[1..5]);
    if length > FRAME_HEADER_LEN + max {
      return Err(FrameTooLarge(length, FRAME_HEADER_LEN + max));
    }
    if |buf.data| < GRPC_MESSAGE_HEADER_LEN + length {
      return Ok(None);
    }
    var _ := buf.SplitTo(GRPC_MESSAGE_HEADER_LEN);
    var bytes := buf.SplitTo(length);
    assert bytes == before[5..5 + length];
    assert buf.data == before[5 + length..];
    var message := new ByteBuffer(bytes);
    r := DecodeFrameFrom(message, max);
    if r.Err? {
      return;
    }
    if r.frame.None? {
      return Err(MalformedFrame("grpc message did not contain a complete frame"));
    }
    if message.data != [] {
      return Err(MalformedFrame("grpc message contained trailing bytes"));
    }
  }
}
