/** The H2 send side: frames cut into DATA chunks as the peer's flow-control window allows. */
module Sender {
  import opened Bytes
  import opened Frames
  import opened Grpc
  import opened Receiver

  /** One DATA frame handed to the stream. */
  datatype Chunk = Chunk(data: seq<byte>, end: bool)

  /** What waiting for capacity meets: some capacity (possibly none yet) and whether the stream then
      takes the data, or a closed stream. Grants that run out are a stall. */
  datatype Grant = Capacity(n: nat, taken: bool) | Closed

  datatype SendError = Stalled | StreamClosed | TooLarge(length: nat, max: nat)
  datatype Sent = Completed | Aborted(why: SendError)

  /** A frame as it leaves the batcher, behind the padding and cover frames put in front of it. */
  datatype Prepared = Prepared(padding: seq<Frame>, frame: Frame)

  function Datas(chunks: seq<Chunk>): (s: seq<byte>)
  {
    if chunks == [] then [] else chunks[0].data + Datas(chunks[1..])
  }

  lemma {:induction false} DatasAppend(a: seq<Chunk>, b: seq<Chunk>)
    ensures Datas(a + b) == Datas(a) + Datas(b)
  {
    if a == [] {
      assert a + b == b;
    } else {
      assert (a + b)[1..] == a[1..] + b;
      DatasAppend(a[1..], b);
    }
  }

  predicate NoEnd(chunks: seq<Chunk>)
  {
    forall i :: 0 <= i < |chunks| ==> !chunks[i].end
  }

  /** End-of-stream sits on the last chunk and nowhere else. */
  predicate EndsOnce(chunks: seq<Chunk>)
  {
    |chunks| > 0 && chunks[|chunks| - 1].end && NoEnd(chunks[..|chunks| - 1])
  }

  /** The chunks carry exactly these bytes, ended if and only if asked. */
  predicate Carries(chunks: seq<Chunk>, bytes: seq<byte>, end: bool)
  {
    Datas(chunks) == bytes && if end then EndsOnce(chunks) else NoEnd(chunks)
  }

  /** An aborted send: some of the bytes, in order, never ended. */
  predicate Truncates(chunks: seq<Chunk>, bytes: seq<byte>)
  {
    Datas(chunks) <= bytes && NoEnd(chunks)
  }

  /** An aborted send of these frames: the chunks are an unended prefix of the encoding of those of them,
      from the first on, that came before the cut and that all fit. */
  ghost predicate CutOff(chunks: seq<Chunk>, all: seq<Frame>, max: nat)
  {
    exists fs: seq<Frame> :: fs <= all && Fits(fs, max) && Truncates(chunks, Encoded(fs))
  }

  /** The grants from the first that is not an empty capacity on. */
  function SkipEmpty(grants: seq<Grant>): (gs: seq<Grant>)
    ensures gs != [] ==> gs[0] != Capacity(0, true) && gs[0] != Capacity(0, false)
  {
    if grants != [] && grants[0].Capacity? && grants[0].n == 0 then SkipEmpty(grants[1..]) else grants
  }

  /** The frames that go on the wire for a list of prepared frames. */
  function Flatten(items: seq<Prepared>): (fs: seq<Frame>)
  {
    if items == [] then [] else items[0].padding + [items[0].frame] + Flatten(items[1..])
  }

  predicate Fits(fs: seq<Frame>, max: nat)
  {
    forall i :: 0 <= i < |fs| ==> |fs[i].payload| <= max
  }

  // ----- what the window decides -----

  /** What is left of the grants after a send, or why it stops short. */
  datatype Spent = Left(grants: seq<Grant>) | Short(why: SendError)

  function Report(s: Spent): (r: Sent)
  {
    match s
    case Left(_) => Completed
    case Short(why) => Aborted(why)
  }

  /** Send this many bytes: each grant is used for what is still needed, an empty one is waited out, and a closed
      stream, data not taken or no more grants stops it. */
  function Spend(need: nat, grants: seq<Grant>): (s: Spent)
    decreases |grants|
  {
    if need == 0 then Left(grants)
    else if grants == [] then Short(Stalled)
    else match grants[0]
      case Closed => Short(StreamClosed)
      case Capacity(n, taken) =>
        if n == 0 then Spend(need, grants[1..])
        else if !taken then Short(StreamClosed)
        else Spend(if n < need then need - n else 0, grants[1..])
  }

  /** Send these frames one after the other, each within the limit. */
  function SpendAll(fs: seq<Frame>, grants: seq<Grant>, max: nat): (s: Spent)
    decreases |fs|
  {
    if fs == [] then Left(grants)
    else if |fs[0].payload| > max then Short(TooLarge(|fs[0].payload|, max))
    else match Spend(|GrpcBytes(fs[0])|, grants)
      case Short(why) => Short(why)
      case Left(rest) => SpendAll(fs[1..], rest, max)
  }

  lemma {:induction false} SpendSkips(need: nat, grants: seq<Grant>)
    requires need > 0
    ensures Spend(need, grants) == Spend(need, SkipEmpty(grants))
  {
    if grants != [] && grants[0].Capacity? && grants[0].n == 0 {
      SpendSkips(need, grants[1..]);
    }
  }

  lemma {:induction false} SpendAllAppend(a: seq<Frame>, b: seq<Frame>, grants: seq<Grant>, max: nat)
    ensures SpendAll(a + b, grants, max) ==
            match SpendAll(a, grants, max)
            case Short(why) => Short(why)
            case Left(rest) => SpendAll(b, rest, max)
    decreases |a|
  {
    hide Spend, GrpcBytes;
    if a == [] {
      assert a + b == b;
    } else {
      assert (a + b)[1..] == a[1..] + b;
      var s := Spend(|GrpcBytes(a[0])|, grants);
      if s.Left? {
        SpendAllAppend(a[1..], b, s.grants, max);
      }
    }
  }

  /** Every grant is worth at least a byte, and what it lets through is taken. */
  predicate Generous(grants: seq<Grant>)
  {
    forall i :: 0 <= i < |grants| ==> grants[i].Capacity? && grants[i].n > 0 && grants[i].taken
  }

  lemma {:induction false} GenerousSpend(need: nat, grants: seq<Grant>)
    requires Generous(grants) && need <= |grants|
    ensures var s := Spend(need, grants);
            s.Left? && Generous(s.grants) && |s.grants| + need >= |grants|
    decreases |grants|
  {
    if need > 0 {
      GenerousSpend(if grants[0].n < need then need - grants[0].n else 0, grants[1..]);
    }
  }

  /** A send does not depend on how the window is cut up: frames that fit the limit go out completely under any
      sequence of positive grants that is as long as their encoding. */
  lemma {:induction false} GenerousWindowSuffices(fs: seq<Frame>, grants: seq<Grant>, max: nat)
    requires Fits(fs, max) && Generous(grants) && |Encoded(fs)| <= |grants|
    ensures SpendAll(fs, grants, max).Left?
    decreases |fs|
  {
    if fs != [] {
      hide GrpcBytes, Spend;
      GenerousSpend(|GrpcBytes(fs[0])|, grants);
      GenerousWindowSuffices(fs[1..], Spend(|GrpcBytes(fs[0])|, grants).grants, max);
    }
  }

  /** Nothing is sent past a frame over the limit, whatever the window. */
  lemma {:induction false} OnlyFittingSent(fs: seq<Frame>, grants: seq<Grant>, max: nat)
    requires SpendAll(fs, grants, max).Left?
    ensures Fits(fs, max)
    decreases |fs|
  {
    if fs != [] {
      hide GrpcBytes, Spend;
      OnlyFittingSent(fs[1..], Spend(|GrpcBytes(fs[0])|, grants).grants, max);
    }
  }

  lemma EncodedSnoc(fs: seq<Frame>, f: Frame)
    ensures Encoded(fs + [f]) == Encoded(fs) + GrpcBytes(f)
  {
    EncodedAppend(fs, [f]);
    assert Encoded([f]) == GrpcBytes(f) + Encoded([]);
  }

  lemma CutOffLonger(chunks: seq<Chunk>, shorter: seq<Frame>, longer: seq<Frame>, max: nat)
    requires CutOff(chunks, shorter, max) && shorter <= longer
    ensures CutOff(chunks, longer, max)
  {
    var fs :| fs <= shorter && Fits(fs, max) && Truncates(chunks, Encoded(fs));
    assert fs <= longer;
  }

  lemma FlattenHead(items: seq<Prepared>, i: nat)
    requires i < |items|
    ensures Flatten(items[i..]) == items[i].padding + [items[i].frame] + Flatten(items[i + 1..])
  {
    assert items[i..][1..] == items[i + 1..];
  }

  lemma FlattenNone(items: seq<Prepared>)
    ensures Flatten(items[|items|..]) == []
  {
  }

  lemma Regroup(a: seq<Frame>, b: seq<Frame>, c: seq<Frame>, d: seq<Frame>, all: seq<Frame>)
    requires all == a + (b + c + d)
    ensures a + b <= all && a + b + c <= all && (a + b + c) + d == all
  {
  }

  lemma SpendNothing(grants: seq<Grant>, max: nat)
    ensures SpendAll([], grants, max) == Left(grants)
  {
  }

  lemma SpendGroups(padding: seq<Frame>, last: seq<Frame>, later: seq<Frame>, grants: seq<Grant>, max: nat)
    ensures SpendAll(padding + last + later, grants, max) ==
            match SpendAll(padding, grants, max)
            case Short(why) => Short(why)
            case Left(rest) =>
              match SpendAll(last, rest, max)
              case Short(why) => Short(why)
              case Left(rest) => SpendAll(later, rest, max)
  {
    hide SpendAll;
    SpendAllAppend(padding + last, later, grants, max);
    SpendAllAppend(padding, last, grants, max);
  }

  class H2Sender {
    const max: nat
    var sent: seq<Chunk>
    var grants: seq<Grant>
    ghost var wire: seq<Frame>  // the frames sent in full, padding included

    constructor (max: nat, grants: seq<Grant>)
      ensures Open() && wire == [] && this.max == max && this.grants == grants
    {
      this.max := max;
      this.sent := [];
      this.grants := grants;
      this.wire := [];
    }

    /** Everything sent so far is whole frames, and the stream has not been ended. */
    ghost predicate Open()
      reads this
    {
      Fits(wire, max) && Carries(sent, Encoded(wire), false)
    }

    /** Empty assignments are waited out; the first real one is used up to what is needed. */
    method WaitCapacity(desired: nat) returns (r: Sent, capacity: nat, taken: bool)
      requires desired > 0
      modifies this`grants
      ensures var awaited := SkipEmpty(old(grants));
              if awaited == [] then r == Aborted(Stalled) && grants == []
              else
                && grants == awaited[1..]
                && match awaited[0]
                   case Closed => r == Aborted(StreamClosed)
                   case Capacity(n, ok) =>
                     && r == Completed && taken == ok
                     && 0 < capacity == if n < desired then n else desired
    {
      capacity, taken := 0, false;
      while grants != []
        invariant SkipEmpty(grants) == SkipEmpty(old(grants))
        decreases |grants|
      {
        var grant := grants[0];
        grants := grants[1..];
        match grant {
          case Closed => return Aborted(StreamClosed), 0, false;
          case Capacity(n, ok) =>
            if n > 0 {
              return Completed, if n < desired then n else desired, ok;
            }
        }
      }
      r := Aborted(Stalled);
    }

    method SendBytes(bytes: seq<byte>, end: bool) returns (r: Sent)
      requires NoEnd(sent)
      modifies this`sent, this`grants
      ensures r == Report(Spend(|bytes|, old(grants)))
      ensures r.Completed? ==> grants == Spend(|bytes|, old(grants)).grants
      ensures r.Completed? ==> Carries(sent, old(Datas(sent)) + bytes, end)
      ensures r.Aborted? ==> Truncates(sent, old(Datas(sent)) + bytes)
    {
      hide SkipEmpty;
      ghost var all, goal := Datas(sent) + bytes, Spend(|bytes|, grants);
      if bytes == [] {
        DatasAppend(sent, [Chunk(bytes, end)]);
        sent := sent + [Chunk(bytes, end)];
        return Completed;
      }
      var left := bytes;
      while left != []
        invariant Datas(sent) + left == all && Spend(|left|, grants) == goal
        invariant if left == [] && end then EndsOnce(sent) else NoEnd(sent)
        decreases |left|
      {
        SpendSkips(|left|, grants);
        var granted, capacity, taken := WaitCapacity(|left|);
        if granted.Aborted? {
          return granted;
        }
        if !taken {
          return Aborted(StreamClosed);
        }
        var chunk := Chunk(left[..capacity], end && capacity == |left|);
        DatasAppend(sent, [chunk]);
        assert left == left[..capacity] + left[capacity..];
        left := left[capacity..];
        sent := sent + [chunk];
      }
      r := Completed;
    }

    method SendH2Frame(f: Frame, end: bool) returns (r: Sent)
      requires Open()
      modifies this
      ensures r == Report(SpendAll([f], old(grants), max))
      ensures r.Completed? ==> grants == SpendAll([f], old(grants), max).grants
      ensures r.Completed? ==> wire == old(wire) + [f] && Fits(wire, max) && Carries(sent, Encoded(wire), end)
      ensures r.Aborted? ==> CutOff(sent, old(wire) + [f], max)
    {
      EncodedSnoc(wire, f);
      assert [f][1..] == [];
      var encoded := EncodeGrpcFrame(f, max);
      if encoded.None? {
        assert wire <= wire + [f];
        return Aborted(TooLarge(|f.payload|, max));
      }
      r := SendBytes(encoded.value, end);
      assert Fits(wire + [f], max);
      if r.Completed? {
        wire := wire + [f];
      } else {
        assert wire + [f] <= wire + [f];
      }
    }

    /** Padding goes out in order and never ends the stream. */
    method SendPadding(fs: seq<Frame>) returns (r: Sent)
      requires Open()
      modifies this
      ensures r == Report(SpendAll(fs, old(grants), max))
      ensures r.Completed? ==> grants == SpendAll(fs, old(grants), max).grants
      ensures r.Completed? ==> wire == old(wire) + fs && Open()
      ensures r.Aborted? ==> CutOff(sent, old(wire) + fs, max)
    {
      hide Encoded, Carries, CutOff, Fits, SpendAll;
      assert fs[0..] == fs;
      for i := 0 to |fs|
        invariant wire == old(wire) + fs[..i] && Open()
        invariant SpendAll(fs[i..], grants, max) == SpendAll(fs, old(grants), max)
      {
        ghost var before := wire;
        assert fs[i..] == [fs[i]] + fs[i + 1..];
        SpendAllAppend([fs[i]], fs[i + 1..], grants, max);
        r := SendH2Frame(fs[i], false);
        if r.Aborted? {
          CutOffLonger(sent, before + [fs[i]], old(wire) + fs, max);
          return;
        }
      }
      assert fs[|fs|..] == [];
      SpendNothing(grants, max);
      r := Completed;
    }

    /** Each prepared frame goes out behind its padding; only the very last frame may end the stream. */
    method SendFrame(items: seq<Prepared>, end: bool) returns (r: Sent)
      requires Open()
      modifies this
      ensures r == Report(SpendAll(Flatten(items), old(grants), max))
      ensures r.Completed? ==> wire == old(wire) + Flatten(items) && Fits(wire, max)
      ensures r.Completed? ==> Carries(sent, Encoded(wire), end && items != [])
      ensures r.Aborted? ==> CutOff(sent, old(wire) + Flatten(items), max)
    {
      ghost var all := wire + Flatten(items);
      assert items[0..] == items;
      for i := 0 to |items|
        invariant wire + Flatten(items[i..]) == all && Fits(wire, max)
        invariant SpendAll(Flatten(items[i..]), grants, max) == SpendAll(Flatten(items), old(grants), max)
        invariant Carries(sent, Encoded(wire), end && 0 < i == |items|)
      {
        hide Encoded, Carries, CutOff, Fits, Flatten, SpendAll;
        ghost var before, padding, last, later := wire, items[i].padding, [items[i].frame], Flatten(items[i + 1..]);
        FlattenHead(items, i);
        Regroup(before, padding, last, later, all);
        SpendGroups(padding, last, later, grants, max);
        assert Open();
        r := SendPadding(items[i].padding);
        if r.Aborted? {
          CutOffLonger(sent, before + padding, all, max);
          return;
        }
        r := SendH2Frame(items[i].frame, end && i == |items| - 1);
        if r.Aborted? {
          CutOffLonger(sent, before + padding + last, all, max);
          return;
        }
      }
      FlattenNone(items);
      SpendNothing(grants, max);
      r := Completed;
    }
  }

  // ----- both ends together -----

  function AsEvents(chunks: seq<Chunk>): (es: seq<Event>)
  {
    if chunks == [] then [] else [Data(chunks[0].data)] + AsEvents(chunks[1..])
  }

  lemma {:induction false} AsEventsBody(chunks: seq<Chunk>)
    ensures BodyBytes(AsEvents(chunks)) == Datas(chunks)
    ensures BodyFailure(AsEvents(chunks)) == None
  {
    if chunks != [] {
      AsEventsBody(chunks[1..]);
      assert AsEvents(chunks)[1..] == AsEvents(chunks[1..]);
    }
  }

  /** The frames that were handed in, without what was put in front of them. */
  function Originals(items: seq<Prepared>): (fs: seq<Frame>)
  {
    if items == [] then [] else [items[0].frame] + Originals(items[1..])
  }

  /** What was put in front of each frame is padding. */
  predicate PaddedWithPadding(items: seq<Prepared>)
  {
    forall i :: 0 <= i < |items| ==> AllPadding(items[i].padding)
  }

  lemma {:induction false} NonPaddingAppend(a: seq<Frame>, b: seq<Frame>)
    ensures NonPadding(a + b) == NonPadding(a) + NonPadding(b)
  {
    if a == [] {
      assert a + b == b;
    } else {
      assert (a + b)[1..] == a[1..] + b;
      NonPaddingAppend(a[1..], b);
    }
  }

  lemma {:induction false} NoneLeft(fs: seq<Frame>)
    requires AllPadding(fs)
    ensures NonPadding(fs) == []
  {
    if fs != [] {
      NoneLeft(fs[1..]);
    }
  }

  /** Inserted padding vanishes: of everything put on the wire only the frames handed in are left. */
  lemma {:induction false} PaddingVanishes(items: seq<Prepared>)
    requires PaddedWithPadding(items)
    ensures NonPadding(Flatten(items)) == NonPadding(Originals(items))
  {
    if items != [] {
      var padding, frame := items[0].padding, [items[0].frame];
      PaddingVanishes(items[1..]);
      NonPaddingAppend(padding + frame, Flatten(items[1..]));
      NonPaddingAppend(padding, frame);
      NoneLeft(padding);
      NonPaddingAppend(frame, Originals(items[1..]));
    }
  }

  lemma NonPaddingPrefix(fs: seq<Frame>, all: seq<Frame>)
    requires fs <= all
    ensures NonPadding(fs) <= NonPadding(all)
  {
    NonPaddingAppend(fs, all[|fs|..]);
    assert all == fs + all[|fs|..];
  }

  /** Whatever the window granted and whatever padding was inserted, the receive loop turns the chunks of a
      completed send into the frames that were handed in, in order, after those of the sends before it. */
  lemma SendThenReceive(chunks: seq<Chunk>, before: seq<Frame>, items: seq<Prepared>, end: bool, max: nat)
    requires FRAME_HEADER_LEN + max <= U32_MAX && PaddedWithPadding(items)
    requires Fits(before + Flatten(items), max) && Carries(chunks, Encoded(before + Flatten(items)), end)
    ensures ReceiveAll([], AsEvents(chunks), max) ==
            Received(NonPadding(before) + NonPadding(Originals(items)), EndOfBody)
  {
    AsEventsBody(chunks);
    ReceiveEncoded(before + Flatten(items), AsEvents(chunks), max);
    NonPaddingAppend(before, Flatten(items));
    PaddingVanishes(items);
  }

  /** A send that was cut short for any reason, an oversize frame included, delivers a prefix of those frames
      and nothing else, and no error. */
  lemma TruncatedSendReceivesPrefix(chunks: seq<Chunk>, before: seq<Frame>, items: seq<Prepared>, max: nat)
    requires FRAME_HEADER_LEN + max <= U32_MAX && PaddedWithPadding(items)
    requires CutOff(chunks, before + Flatten(items), max)
    ensures ReceiveAll([], AsEvents(chunks), max).frames <= NonPadding(before) + NonPadding(Originals(items))
    ensures ReceiveAll([], AsEvents(chunks), max).last == EndOfBody
  {
    var all := before + Flatten(items);
    var fs :| fs <= all && Fits(fs, max) && Truncates(chunks, Encoded(fs));
    AsEventsBody(chunks);
    ReceiveMatchesOneShot([], AsEvents(chunks), max);
    assert [] + Datas(chunks) == Datas(chunks);
    ParsePrefix(fs, Datas(chunks), max);
    NonPaddingPrefix(fs, all);
    NonPaddingAppend(before, Flatten(items));
    PaddingVanishes(items);
  }

  /** The two ends run one after the other, under any window: what is received is what was handed in, or a
      prefix of it. */
  method SendAndReceive(items: seq<Prepared>, end: bool, grants: seq<Grant>, max: nat)
    returns (r: Sent, frames: seq<Frame>, last: Read)
    requires FRAME_HEADER_LEN + max <= U32_MAX && PaddedWithPadding(items)
    ensures last == EndOfBody && r == Report(SpendAll(Flatten(items), grants, max))
    ensures if r.Completed? then frames == NonPadding(Originals(items)) else frames <= NonPadding(Originals(items))
  {
    assert NonPadding([]) == [];
    hide PaddedWithPadding, Originals, Flatten, NonPadding, Carries, CutOff, Fits, Encoded, ReceiveAll, AsEvents;
    var sender := new H2Sender(max, grants);
    r := sender.SendFrame(items, end);
    var receiver := new H2Receiver(AsEvents(sender.sent), max);
    frames, last := receiver.Receive();
    assert [] + Flatten(items) == Flatten(items);
    assert NonPadding([]) + NonPadding(Originals(items)) == NonPadding(Originals(items));
    if r.Completed? {
      SendThenReceive(sender.sent, [], items, end && items != [], max);
    } else {
      TruncatedSendReceivesPrefix(sender.sent, [], items, max);
    }
  }

  /** The front of an encoding decodes to its first frame, or to nothing yet. */
  lemma PrefixHead(f: Frame, tail: seq<byte>, bytes: seq<byte>, max: nat)
    requires Sendable(f, max) && bytes <= GrpcBytes(f) + tail
    ensures var s := DecodeGrpc(bytes, max);
            s.NeedMore? || (s.Got? && s.frame == f && s.rest <= tail)
  {
    hide DecodeGrpc, GrpcBytes, Sendable;
    var all := GrpcBytes(f) + tail;
    var missing := all[|bytes|..];
    assert all == bytes + missing;
    if !DecodeGrpc(bytes, max).NeedMore? {
      DecodeGrpcStable(bytes, missing, max);
      DecodeGrpcExact(all, max, f, tail);
    }
  }

  /** Parsing takes one frame, or stops for want of bytes. */
  lemma {:induction false} ParseStep(bytes: seq<byte>, max: nat)
    ensures var s, all := DecodeGrpc(bytes, max), ParseAll(bytes, max);
            && (s.NeedMore? ==> all.frames == [] && all.end.Rest?)
            && (s.Got? ==> all.end == ParseAll(s.rest, max).end)
            && (s.Got? ==>
                  all.frames == (if s.frame.frameType.Padding? then [] else [s.frame]) + ParseAll(s.rest, max).frames)
  {
    hide DecodeGrpc;
  }

  lemma {:induction false} ParsePrefix(fs: seq<Frame>, bytes: seq<byte>, max: nat)
    requires AllSendable(fs, max) && bytes <= Encoded(fs)
    ensures ParseAll(bytes, max).frames <= NonPadding(fs)
    ensures ParseAll(bytes, max).end.Rest?
    decreases |fs|
  {
    hide DecodeGrpc, GrpcBytes, Sendable, ParseAll;
    ParseStep(bytes, max);
    if fs == [] {
      EmptyNeedsMore(max);
    } else {
      PrefixHead(fs[0], Encoded(fs[1..]), bytes, max);
      var s := DecodeGrpc(bytes, max);
      if s.Got? {
        hide Encoded;
        ParsePrefix(fs[1..], s.rest, max);
      }
    }
  }

  lemma EmptyNeedsMore(max: nat)
    ensures DecodeGrpc([], max) == NeedMore
  {
  }
}
