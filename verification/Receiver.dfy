/** The H2 receive side: frames out of a response body that arrives in arbitrary DATA chunks. */
module Receiver {
  import opened Bytes
  import opened Frames
  import opened Grpc

  /** What the body stream delivers; a body whose events are used up has ended. */
  datatype Event = Data(bytes: seq<byte>) | Failed(remoteReset: bool)

  /** What one read returns. */
  datatype Read = Next(frame: Frame) | EndOfBody | Codec(error: CodecError) | Transport(remoteReset: bool)

  /** A read together with the receive buffer and the events it leaves behind. */
  datatype After = After(read: Read, buf: seq<byte>, events: seq<Event>)

  /** The receive loop: decode, drop padding, otherwise pull the next event. */
  function ReadNext(buf: seq<byte>, events: seq<Event>, max: nat): (r: After)
    decreases |events|, |buf|
  {
    match DecodeGrpc(buf, max)
    case Bad(e, rest) => After(Codec(e), rest, events)
    case Got(f, rest) =>
      if f.frameType.Padding? then ReadNext(rest, events, max) else After(Next(f), rest, events)
    case NeedMore =>
      if events == [] then After(EndOfBody, buf, events)
      else match events[0]
        case Data(bytes) => ReadNext(buf + bytes, events[1..], max)
        case Failed(reset) => After(Transport(reset), buf, events[1..])
  }

  datatype Received = Received(frames: seq<Frame>, last: Read)

  /** A read consumes input, so reading until something other than a frame comes back ends. */
  function Size(buf: seq<byte>, events: seq<Event>): (n: nat)
  {
    |buf| + |BodyBytes(events)|
  }

  /** Read until something other than a frame comes back. */
  function ReceiveAll(buf: seq<byte>, events: seq<Event>, max: nat): (r: Received)
    decreases Size(buf, events)
  {
    var a := ReadNext(buf, events, max);
    if a.read.Next? then
      ReadNextScans(buf, events, max);
      var later := ReceiveAll(a.buf, a.events, max);
      Received([a.read.frame] + later.frames, later.last)
    else Received([], a.read)
  }

  /** The body bytes that arrive before the stream fails or ends. */
  function BodyBytes(events: seq<Event>): (s: seq<byte>)
  {
    if events == [] || events[0].Failed? then [] else events[0].bytes + BodyBytes(events[1..])
  }

  /** How the stream fails, if it does. */
  function BodyFailure(events: seq<Event>): (r: Option<bool>)
  {
    if events == [] then None
    else match events[0]
      case Failed(reset) => Some(reset)
      case Data(_) => BodyFailure(events[1..])
  }

  datatype ScanEnd = Rest(bytes: seq<byte>) | Stuck(error: CodecError)
  datatype Scan = Scan(frames: seq<Frame>, end: ScanEnd)

  /** One-shot reference: parse a whole byte string at once, dropping padding. */
  function ParseAll(bytes: seq<byte>, max: nat): (s: Scan)
    decreases |bytes|
  {
    match DecodeGrpc(bytes, max)
    case NeedMore => Scan([], Rest(bytes))
    case Bad(e, _) => Scan([], Stuck(e))
    case Got(f, rest) =>
      var later := ParseAll(rest, max);
      if f.frameType.Padding? then later else Scan([f] + later.frames, later.end)
  }

  /** One read against the one-shot parse of everything that is still to come. */
  lemma {:induction false} ReadNextScans(buf: seq<byte>, events: seq<Event>, max: nat)
    ensures var a := ReadNext(buf, events, max);
            var now, later := ParseAll(buf + BodyBytes(events), max), ParseAll(a.buf + BodyBytes(a.events), max);
            match a.read
            case Next(f) =>
              && now == Scan([f] + later.frames, later.end)
              && BodyFailure(a.events) == BodyFailure(events)
              && Size(a.buf, a.events) < Size(buf, events)
            case Codec(e) => now == Scan([], Stuck(e))
            case EndOfBody => now == Scan([], Rest(a.buf)) && BodyFailure(events) == None
            case Transport(reset) => now == Scan([], Rest(a.buf)) && BodyFailure(events) == Some(reset)
    decreases |events|, |buf|
  {
    var body := BodyBytes(events);
    match DecodeGrpc(buf, max)
    case Bad(e, rest) =>
      DecodeGrpcStable(buf, body, max);
    case Got(f, rest) =>
      DecodeGrpcStable(buf, body, max);
      if f.frameType.Padding? {
        ReadNextScans(rest, events, max);
      }
    case NeedMore =>
      if events == [] || events[0].Failed? {
        assert buf + body == buf;
      } else {
        assert buf + body == (buf + events[0].bytes) + BodyBytes(events[1..]);
        ReadNextScans(buf + events[0].bytes, events[1..], max);
      }
  }

  /** Reading one frame, or stopping. */
  lemma ReceiveStep(buf: seq<byte>, events: seq<Event>, max: nat)
    ensures var a := ReadNext(buf, events, max);
            var r := ReceiveAll(buf, events, max);
            if a.read.Next? then
              && r.frames == [a.read.frame] + ReceiveAll(a.buf, a.events, max).frames
              && r.last == ReceiveAll(a.buf, a.events, max).last
              && Size(a.buf, a.events) < Size(buf, events)
            else r == Received([], a.read)
  {
    ReadNextScans(buf, events, max);
  }

  /** For every byte stream and every way of cutting it into chunks, the loop yields the frames and the
      first error of the one-shot parse. */
  lemma {:induction false} ReceiveMatchesOneShot(buf: seq<byte>, events: seq<Event>, max: nat)
    ensures var r := ReceiveAll(buf, events, max);
            var s := ParseAll(buf + BodyBytes(events), max);
            && r.frames == s.frames
            && r.last == (match s.end
                          case Stuck(e) => Codec(e)
                          case Rest(_) => match BodyFailure(events)
                                          case None => EndOfBody
                                          case Some(reset) => Transport(reset))
    decreases Size(buf, events)
  {
    ReadNextScans(buf, events, max);
    var a := ReadNext(buf, events, max);
    if a.read.Next? {
      ReceiveMatchesOneShot(a.buf, a.events, max);
    }
  }

  /** Two deliveries of the same bytes that end the same way are indistinguishable. */
  lemma ChunkingIsInvisible(a: seq<Event>, b: seq<Event>, max: nat)
    requires BodyBytes(a) == BodyBytes(b) && BodyFailure(a) == BodyFailure(b)
    ensures ReceiveAll([], a, max) == ReceiveAll([], b, max)
  {
    ReceiveMatchesOneShot([], a, max);
    ReceiveMatchesOneShot([], b, max);
  }

  // ----- what a list of frames looks like on the wire -----

  function Encoded(fs: seq<Frame>): (s: seq<byte>)
  {
    if fs == [] then [] else GrpcBytes(fs[0]) + Encoded(fs[1..])
  }

  function NonPadding(fs: seq<Frame>): (r: seq<Frame>)
  {
    if fs == [] then []
    else (if fs[0].frameType.Padding? then [] else [fs[0]]) + NonPadding(fs[1..])
  }

  predicate AllSendable(fs: seq<Frame>, max: nat)
  {
    forall i :: 0 <= i < |fs| ==> Sendable(fs[i], max)
  }

  predicate AllPadding(fs: seq<Frame>)
  {
    forall i :: 0 <= i < |fs| ==> fs[i].frameType.Padding?
  }

  lemma {:induction false} EncodedAppend(a: seq<Frame>, b: seq<Frame>)
    ensures Encoded(a + b) == Encoded(a) + Encoded(b)
  {
    if a == [] {
      assert a + b == b;
    } else {
      assert (a + b)[1..] == a[1..] + b;
      EncodedAppend(a[1..], b);
    }
  }

  lemma ConcatAssoc(a: seq<byte>, b: seq<byte>, c: seq<byte>)
    ensures (a + b) + c == a + (b + c)
  {
  }

  lemma ParseGot(bytes: seq<byte>, max: nat, f: Frame, rest: seq<byte>)
    requires DecodeGrpc(bytes, max) == Got(f, rest)
    ensures var later := ParseAll(rest, max);
            ParseAll(bytes, max) == Scan((if f.frameType.Padding? then [] else [f]) + later.frames, later.end)
  {
  }

  /** Parsing undoes encoding, leaves what follows for later, and drops exactly the padding. */
  lemma {:induction false} ParseEncoded(fs: seq<Frame>, tail: seq<byte>, max: nat)
    requires AllSendable(fs, max)
    ensures var later := ParseAll(tail, max);
            ParseAll(Encoded(fs) + tail, max) == Scan(NonPadding(fs) + later.frames, later.end)
  {
    hide DecodeGrpc, ParseAll;
    if fs == [] {
      assert Encoded(fs) + tail == tail;
    } else {
      ParseEncoded(fs[1..], tail, max);
      var bytes, rest := Encoded(fs) + tail, Encoded(fs[1..]) + tail;
      assert DecodeGrpc(bytes, max) == Got(fs[0], rest) by {
        ConcatAssoc(GrpcBytes(fs[0]), Encoded(fs[1..]), tail);
        DecodeGrpcExact(bytes, max, fs[0], rest);
      }
      ParseGot(bytes, max, fs[0], rest);
      var later := ParseAll(tail, max);
      var head := if fs[0].frameType.Padding? then [] else [fs[0]];
      assert (head + NonPadding(fs[1..])) + later.frames == head + (NonPadding(fs[1..]) + later.frames);
    }
  }

  /** Any chunking of the encoding of a list of frames delivers exactly its non-padding frames, in order. */
  lemma ReceiveEncoded(fs: seq<Frame>, events: seq<Event>, max: nat)
    requires AllSendable(fs, max)
    requires BodyBytes(events) == Encoded(fs) && BodyFailure(events) == None
    ensures ReceiveAll([], events, max) == Received(NonPadding(fs), EndOfBody)
  {
    ReceiveMatchesOneShot([], events, max);
    ParseEncoded(fs, [], max);
    assert [] + Encoded(fs) == Encoded(fs) == Encoded(fs) + [];
  }

  // ----- finishing a response -----

  datatype Trailers = TrailersFailed | NoTrailers | Trailers(statuses: seq<seq<byte>>)

  datatype FinishError =
    | BadCodec(error: CodecError) | DataAfterTerminal | BodyFailed | IncompleteData
    | TrailersUnavailable | StatusMissing | StatusNotOk

  datatype Finished = Done | Refused(why: FinishError)

  function CheckTrailers(t: Trailers): (r: Finished)
    ensures r == Done <==> t == NoTrailers || t == Trailers([[48]])
  {
    match t
    case TrailersFailed => Refused(TrailersUnavailable)
    case NoTrailers => Done
    case Trailers(statuses) =>
      if |statuses| == 0 then Refused(StatusMissing)
      else if |statuses| == 1 && statuses[0] == [48] then assert statuses == [[48]]; Done
      else Refused(StatusNotOk)
  }

  function FinishResponse(buf: seq<byte>, events: seq<Event>, trailers: Trailers, legacy: bool, max: nat): (r: Finished)
    decreases |events|, |buf|
  {
    match DecodeGrpc(buf, max)
    case Bad(e, _) => Refused(BadCodec(e))
    case Got(f, rest) =>
      if !f.frameType.Padding? then Refused(DataAfterTerminal)
      else FinishResponse(rest, events, trailers, legacy, max)
    case NeedMore =>
      if events == [] then
        if buf != [] then Refused(IncompleteData) else CheckTrailers(trailers)
      else match events[0]
        case Data(bytes) => FinishResponse(buf + bytes, events[1..], trailers, legacy, max)
        case Failed(reset) => if legacy && reset && buf == [] then Done else Refused(BodyFailed)
  }

  /** These bytes are complete padding frames and nothing else. */
  ghost predicate PaddingOnly(bytes: seq<byte>, max: nat)
  {
    exists fs: seq<Frame> :: AllPadding(fs) && AllSendable(fs, max) && bytes == Encoded(fs)
  }

  lemma PaddingOnlyEmpty(max: nat)
    ensures PaddingOnly([], max)
  {
    assert AllPadding([]) && AllSendable([], max) && [] == Encoded([]);
  }

  lemma PaddingOnlyDecodes(bytes: seq<byte>, max: nat)
    requires bytes != [] && PaddingOnly(bytes, max)
    ensures DecodeGrpc(bytes, max).Got?
    ensures DecodeGrpc(bytes, max).frame.frameType.Padding? && PaddingOnly(DecodeGrpc(bytes, max).rest, max)
  {
    var fs: seq<Frame> :| AllPadding(fs) && AllSendable(fs, max) && bytes == Encoded(fs);
    DecodeGrpcExact(bytes, max, fs[0], Encoded(fs[1..]));
    assert AllPadding(fs[1..]) && AllSendable(fs[1..], max);
    hide DecodeGrpc;
  }

  lemma PaddingOnlyGrows(bytes: seq<byte>, f: Frame, rest: seq<byte>, max: nat)
    requires DecodeGrpc(bytes, max) == Got(f, rest) && f.frameType.Padding? && PaddingOnly(rest, max)
    ensures PaddingOnly(bytes, max)
  {
    var fs: seq<Frame> :| AllPadding(fs) && AllSendable(fs, max) && rest == Encoded(fs);
    DecodeGrpcExact(bytes, max, f, rest);
    hide DecodeGrpc;
    var all := [f] + fs;
    assert all[1..] == fs;
    assert AllPadding(all) && AllSendable(all, max) && bytes == Encoded(all);
  }

  /** Peeling the first frame off a padding-only byte string. */
  lemma PaddingOnlyStep(bytes: seq<byte>, max: nat)
    requires bytes != []
    ensures PaddingOnly(bytes, max) <==>
            (match DecodeGrpc(bytes, max)
             case Got(f, rest) => f.frameType.Padding? && PaddingOnly(rest, max)
             case _ => false)
  {
    hide DecodeGrpc, PaddingOnly;
    if PaddingOnly(bytes, max) {
      PaddingOnlyDecodes(bytes, max);
    }
    match DecodeGrpc(bytes, max)
    case Got(f, rest) =>
      if f.frameType.Padding? && PaddingOnly(rest, max) {
        PaddingOnlyGrows(bytes, f, rest, max);
      }
    case _ =>
  }

  /** Finishing succeeds exactly when only complete padding is left and the response closes properly:
      the body ends and its trailers are absent or carry the single status "0", or, where the caller
      allows the old reset, the peer resets the stream. */
  lemma {:induction false} FinishExact(buf: seq<byte>, events: seq<Event>, trailers: Trailers, legacy: bool, max: nat)
    ensures FinishResponse(buf, events, trailers, legacy, max) == Done <==>
            && PaddingOnly(buf + BodyBytes(events), max)
            && (match BodyFailure(events)
                case None => trailers == NoTrailers || trailers == Trailers([[48]])
                case Some(reset) => legacy && reset)
    decreases |events|, |buf|
  {
    var body := BodyBytes(events);
    match DecodeGrpc(buf, max)
    case Bad(e, rest) =>
      DecodeGrpcStable(buf, body, max);
      PaddingOnlyStep(buf + body, max);
    case Got(f, rest) =>
      DecodeGrpcStable(buf, body, max);
      PaddingOnlyStep(buf + body, max);
      if f.frameType.Padding? {
        FinishExact(rest, events, trailers, legacy, max);
      }
    case NeedMore =>
      if events == [] || events[0].Failed? {
        assert buf + body == buf;
        if buf == [] {
          PaddingOnlyEmpty(max);
        } else {
          PaddingOnlyStep(buf, max);
        }
      } else {
        assert buf + body == (buf + events[0].bytes) + BodyBytes(events[1..]);
        FinishExact(buf + events[0].bytes, events[1..], trailers, legacy, max);
      }
  }

  // ----- the loops themselves -----

  class H2Receiver {
    const recvBuf: ByteBuffer
    var events: seq<Event>
    const max: nat

    constructor (events: seq<Event>, max: nat)
      ensures this.events == events && this.max == max && recvBuf.data == [] && fresh(recvBuf)
    {
      this.recvBuf := new ByteBuffer([]);
      this.events := events;
      this.max := max;
    }

    method ReadNextFrame() returns (r: Read)
      modifies this, recvBuf
      ensures After(r, recvBuf.data, events) == ReadNext(old(recvBuf.data), old(events), max)
    {
      ghost var goal := ReadNext(recvBuf.data, events, max);
      while true
        invariant ReadNext(recvBuf.data, events, max) == goal
        decreases |events|, |recvBuf.data|
      {
        var decoded := DecodeGrpcFrameFrom(recvBuf, max);
        if decoded.Err? {
          return Codec(decoded.error);
        }
        if decoded.frame.Some? {
          if decoded.frame.value.frameType.Padding? {
            continue;
          }
          return Next(decoded.frame.value);
        }
        if events == [] {
          return EndOfBody;
        }
        var event := events[0];
        events := events[1..];
        match event {
          case Data(bytes) => recvBuf.Extend(bytes);
          case Failed(reset) => return Transport(reset);
        }
      }
    }

    /** Drain the body, frame by frame. */
    method Receive() returns (frames: seq<Frame>, last: Read)
      modifies this, recvBuf
      ensures Received(frames, last) == ReceiveAll(old(recvBuf.data), old(events), max)
    {
      hide ReceiveAll, ReadNext, Size;
      frames := [];
      ghost var goal := ReceiveAll(recvBuf.data, events, max);
      assert goal.frames == [] + goal.frames;
      while true
        invariant goal.frames == frames + ReceiveAll(recvBuf.data, events, max).frames
        invariant goal.last == ReceiveAll(recvBuf.data, events, max).last
        decreases Size(recvBuf.data, events)
      {
        ReceiveStep(recvBuf.data, events, max);
        last := ReadNextFrame();
        if !last.Next? {
          assert goal.frames == frames;
          return;
        }
        frames := frames + [last.frame];
      }
    }

    method Finish(trailers: Trailers, legacy: bool) returns (r: Finished)
      modifies this, recvBuf
      ensures r == FinishResponse(old(recvBuf.data), old(events), trailers, legacy, max)
    {
      ghost var goal := FinishResponse(recvBuf.data, events, trailers, legacy, max);
      while true
        invariant FinishResponse(recvBuf.data, events, trailers, legacy, max) == goal
        decreases |events|, |recvBuf.data|
      {
        var decoded := DecodeGrpcFrameFrom(recvBuf, max);
        if decoded.Err? {
          return Refused(BadCodec(decoded.error));
        }
        if decoded.frame.Some? {
          if !decoded.frame.value.frameType.Padding? {
            return Refused(DataAfterTerminal);
          }
          continue;
        }
        if events == [] {
          break;
        }
        var event := events[0];
        events := events[1..];
        match event {
          case Data(bytes) => recvBuf.Extend(bytes);
          case Failed(reset) =>
            if legacy && reset && recvBuf.data == [] {
              return Done;
            }
            return Refused(BodyFailed);
        }
      }
      if recvBuf.data != [] {
        return Refused(IncompleteData);
      }
      r := CheckTrailers(trailers);
    }
  }
}
