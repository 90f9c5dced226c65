/** The H3 frame channel: frames handed to and from the transport through one-slot queues. The transport
    does the byte framing; what is left here is the size check, the padding filter and end-of-stream. */
module H3Channel {
  import opened Bytes
  import opened Frames
  import opened Receiver
  import opened Sender

  /** What the transport hands in; after the last item the channel is closed. */
  datatype Item = Incoming(frame: Frame) | NoMoreFrames | TransportFailed

  datatype Answer = GotFrame(frame: Frame) | Ended | Oversize(length: nat, max: nat) | TransportError | ChannelClosed

  function ReadFrame(items: seq<Item>, max: nat): (r: (Answer, seq<Item>))
    ensures r.0.GotFrame? ==> |r.1| < |items|
  {
    if items == [] then (ChannelClosed, [])
    else match items[0]
      case TransportFailed => (TransportError, items[1..])
      case NoMoreFrames => (Ended, items[1..])
      case Incoming(f) =>
        if |f.payload| > max then (Oversize(|f.payload|, max), items[1..])
        else if f.frameType.Padding? then ReadFrame(items[1..], max)
        else (GotFrame(f), items[1..])
  }

  function ReadAllFrames(items: seq<Item>, max: nat): (r: (seq<Frame>, Answer))
    decreases |items|
  {
    var (a, rest) := ReadFrame(items, max);
    if a.GotFrame? then
      var (later, last) := ReadAllFrames(rest, max);
      ([a.frame] + later, last)
    else ([], a)
  }

  function Wrap(fs: seq<Frame>): (items: seq<Item>)
  {
    if fs == [] then [] else [Incoming(fs[0])] + Wrap(fs[1..])
  }

  /** Why reading stops at the head of these items, if it does. */
  function StopAt(items: seq<Item>, max: nat): (r: Option<Answer>)
  {
    if items == [] then Some(ChannelClosed)
    else match items[0]
      case TransportFailed => Some(TransportError)
      case NoMoreFrames => Some(Ended)
      case Incoming(f) => if |f.payload| > max then Some(Oversize(|f.payload|, max)) else None
  }

  /** Reading returns the frames ahead of the first stop, without the padding and in order, then the stop. */
  lemma {:induction false} ReadAllExact(fs: seq<Frame>, tail: seq<Item>, max: nat)
    requires Fits(fs, max) && StopAt(tail, max).Some?
    ensures ReadAllFrames(Wrap(fs) + tail, max) == (NonPadding(fs), StopAt(tail, max).value)
    decreases |fs|
  {
    var items := Wrap(fs) + tail;
    if fs == [] {
      assert items == tail;
    } else {
      assert items[1..] == Wrap(fs[1..]) + tail;
      ReadAllExact(fs[1..], tail, max);
      assert items[0] == Incoming(fs[0]);
      if fs[0].frameType.Padding? {
        assert ReadFrame(items, max) == ReadFrame(items[1..], max);
        assert ReadAllFrames(items, max) == ReadAllFrames(items[1..], max);
        assert NonPadding(fs) == NonPadding(fs[1..]);
      }
    }
  }

  /** Every list of items has that shape. */
  lemma {:induction false} EveryInputStops(items: seq<Item>, max: nat) returns (fs: seq<Frame>, tail: seq<Item>)
    ensures items == Wrap(fs) + tail && Fits(fs, max) && StopAt(tail, max).Some?
  {
    if StopAt(items, max).Some? {
      fs, tail := [], items;
    } else {
      var more, rest := EveryInputStops(items[1..], max);
      fs, tail := [items[0].frame] + more, rest;
      assert fs[1..] == more;
    }
  }

  // ----- sending -----

  datatype Out = Out(frame: Frame, end: bool)

  /** What a completed send hands over: every frame, end-of-stream on the last one if asked. */
  function Outgoing(fs: seq<Frame>, end: bool): (os: seq<Out>)
    ensures |os| == |fs|
  {
    seq(|fs|, i requires 0 <= i < |fs| => Out(fs[i], end && i == |fs| - 1))
  }

  function FramesOf(os: seq<Out>): (fs: seq<Frame>)
  {
    if os == [] then [] else [os[0].frame] + FramesOf(os[1..])
  }

  predicate NothingEnded(os: seq<Out>)
  {
    forall i :: 0 <= i < |os| ==> !os[i].end
  }

  datatype SendResult = Handed | Broken | TooBig

  /** A send can break off here: not after the last frame, and everything so far fits. */
  predicate BrokeOffAt(items: seq<Prepared>, k: nat, max: nat)
  {
    k < |Flatten(items)| && Fits(Flatten(items)[..k], max)
  }

  class H3Sender {
    const max: nat
    var sent: seq<Out>
    var slots: nat  // how many more frames the transport takes before it is gone
    var requestEnded: bool

    constructor (max: nat, slots: nat)
      ensures sent == [] && !requestEnded && this.max == max && this.slots == slots
    {
      this.max := max;
      this.sent := [];
      this.slots := slots;
      this.requestEnded := false;
    }

    method HandOver(f: Frame, end: bool) returns (r: SendResult)
      modifies this`sent, this`slots
      ensures r == (if |f.payload| > max then TooBig else if old(slots) == 0 then Broken else Handed)
      ensures sent == if r.Handed? then old(sent) + [Out(f, end)] else old(sent)
      ensures slots == if r.Handed? then old(slots) - 1 else old(slots)
    {
      if |f.payload| > max {
        return TooBig;
      }
      if slots == 0 {
        return Broken;
      }
      slots := slots - 1;
      sent := sent + [Out(f, end)];
      r := Handed;
    }

    /** Padding goes out in order and never ends the stream. */
    method HandOverPadding(fs: seq<Frame>) returns (r: SendResult, ghost k: nat)
      modifies this`sent, this`slots
      ensures k <= |fs| && sent == old(sent) + Outgoing(fs, false)[..k] && old(slots) == slots + k
      ensures Fits(fs[..k], max)
      ensures if r.Handed? then k == |fs| else k < |fs| && (slots == 0 || |fs[k].payload| > max)
    {
      k := 0;
      for i := 0 to |fs|
        invariant k == i && sent == old(sent) + Outgoing(fs, false)[..i]
        invariant Fits(fs[..i], max) && old(slots) == slots + i
      {
        r := HandOver(fs[i], false);
        if !r.Handed? {
          return;
        }
        k := k + 1;
      }
      r := Handed;
    }

    /** One prepared frame behind its padding. */
    method SendPrepared(p: Prepared, end: bool) returns (r: SendResult, ghost k: nat)
      modifies this`sent, this`slots
      ensures var fs := p.padding + [p.frame];
              && k <= |fs| && old(slots) == slots + k
              && if r.Handed? then k == |fs| && Fits(fs, max) && sent == old(sent) + Outgoing(fs, end)
                 else
                   && k < |fs| && Fits(fs[..k], max) && (slots == 0 || |fs[k].payload| > max)
                   && sent == old(sent) + Outgoing(fs, false)[..k]
    {
      ghost var fs := p.padding + [p.frame];
      r, k := HandOverPadding(p.padding);
      OutgoingPart(p.padding, [p.frame], k);
      if !r.Handed? {
        return;
      }
      r := HandOver(p.frame, end);
      if r.Handed? {
        OutgoingJoin(p.padding, [p.frame], end);
        assert Outgoing([p.frame], end) == [Out(p.frame, end)];
        k := k + 1;
      }
    }

    /** Each prepared frame behind its padding, end-of-stream on the very last frame. It succeeds exactly when
        every frame fits and the transport lasts; otherwise a proper prefix is out, with no end of stream. */
    method SendFrame(items: seq<Prepared>, end: bool) returns (r: SendResult)
      modifies this
      ensures r.Handed? <==> Fits(Flatten(items), max) && |Flatten(items)| <= old(slots)
      ensures r.Handed? ==> sent == old(sent) + Outgoing(Flatten(items), end)
      ensures !r.Handed? ==>
                exists k: nat :: BrokeOffAt(items, k, max) && sent == old(sent) + Outgoing(Flatten(items), false)[..k]
      ensures requestEnded == (old(requestEnded) || (r.Handed? && end))
    {
      hide Flatten, Fits, Outgoing;
      ghost var all, gone: seq<Frame> := Flatten(items), [];
      NothingOut(max);
      assert items[0..] == items;
      for i := 0 to |items|
        invariant gone + Flatten(items[i..]) == all && Fits(gone, max)
        invariant old(slots) == slots + |gone| && requestEnded == old(requestEnded)
        invariant sent == old(sent) + Outgoing(gone, end && 0 < i == |items|)
      {
        ghost var fs, later, k := items[i].padding + [items[i].frame], Flatten(items[i + 1..]), 0;
        FlattenHead(items, i);
        assert all == gone + fs + later;
        r, k := SendPrepared(items[i], end && i == |items| - 1);
        if !r.Handed? {
          CutShort(gone, fs, later, k, max);
          assert BrokeOffAt(items, |gone| + k, max);
          return;
        }
        OutgoingJoin(gone, fs, end && i == |items| - 1);
        FitsBoth(gone, fs, max);
        gone := gone + fs;
      }
      FlattenNone(items);
      assert gone == all;
      requestEnded := requestEnded || end;
      r := Handed;
    }

    /** End the request if that has not been done, then expect the end of the response. */
    method FinishResponse(closing: seq<Prepared>, response: H3Receiver) returns (ok: bool)
      requires response.max == max
      modifies this, response
      ensures ok <==>
              && (old(requestEnded) || (Fits(Flatten(closing), max) && |Flatten(closing)| <= old(slots)))
              && ReadFrame(old(response.items), max).0 == Ended
      ensures ok && closing != [] && old(if requestEnded then EndedOnce(sent) else NothingEnded(sent)) ==>
                EndedOnce(sent)
    {
      if !requestEnded {
        var r := SendFrame(closing, true);
        if !r.Handed? {
          return false;
        }
        if closing != [] {
          assert Flatten(closing) != [];
        }
      }
      var a := response.Read();
      ok := a.Ended?;
    }
  }

  predicate EndedOnce(os: seq<Out>)
  {
    os != [] && os[|os| - 1].end && NothingEnded(os[..|os| - 1])
  }

  class H3Receiver {
    var items: seq<Item>
    const max: nat

    constructor (items: seq<Item>, max: nat)
      ensures this.items == items && this.max == max
    {
      this.items := items;
      this.max := max;
    }

    method Read() returns (a: Answer)
      modifies this
      ensures (a, items) == ReadFrame(old(items), max)
    {
      while items != []
        invariant ReadFrame(items, max) == ReadFrame(old(items), max)
        decreases |items|
      {
        var item := items[0];
        items := items[1..];
        match item {
          case TransportFailed => return TransportError;
          case NoMoreFrames => return Ended;
          case Incoming(f) =>
            if |f.payload| > max {
              return Oversize(|f.payload|, max);
            }
            if !f.frameType.Padding? {
              return GotFrame(f);
            }
        }
      }
      a := ChannelClosed;
    }

    /** Read until something other than a frame comes back. */
    method ReadAll() returns (frames: seq<Frame>, last: Answer)
      modifies this
      ensures frames == ReadAllFrames(old(items), max).0 && last == ReadAllFrames(old(items), max).1
    {
      hide ReadFrame;
      ghost var goal := ReadAllFrames(items, max);
      frames, last := [], ChannelClosed;
      assert goal.0 == [] + goal.0;
      while true
        invariant goal.0 == frames + ReadAllFrames(items, max).0 && goal.1 == ReadAllFrames(items, max).1
        decreases |items|
      {
        last := Read();
        if !last.GotFrame? {
          assert goal.0 == frames;
          return;
        }
        frames := frames + [last.frame];
      }
    }
  }

  lemma NothingOut(max: nat)
    ensures Fits([], max) && forall end :: Outgoing([], end) == []
  {
  }

  lemma FitsBoth(a: seq<Frame>, b: seq<Frame>, max: nat)
    requires Fits(a, max) && Fits(b, max)
    ensures Fits(a + b, max)
  {
  }

  lemma OutgoingJoin(a: seq<Frame>, b: seq<Frame>, end: bool)
    requires b != []
    ensures Outgoing(a, false) + Outgoing(b, end) == Outgoing(a + b, end)
  {
  }

  lemma OutgoingPart(a: seq<Frame>, b: seq<Frame>, k: nat)
    requires k <= |a|
    ensures Outgoing(a, false)[..k] == Outgoing(a + b, false)[..k]
    ensures k < |a| ==> (a + b)[k] == a[k]
  {
  }

  /** Breaking off k frames into a group is breaking off that many further into the whole. */
  lemma CutShort(gone: seq<Frame>, fs: seq<Frame>, later: seq<Frame>, k: nat, max: nat)
    requires k < |fs| && Fits(gone, max) && Fits(fs[..k], max)
    ensures var all := gone + fs + later;
            && |gone| + k < |all| && Fits(all[..|gone| + k], max)
            && Outgoing(gone, false) + Outgoing(fs, false)[..k] == Outgoing(all, false)[..|gone| + k]
            && (|fs[k].payload| > max ==> !Fits(all, max))
  {
    var all := gone + fs + later;
    assert all[|gone| + k] == fs[k];
    assert all[..|gone| + k] == gone + fs[..k];
    FitsBoth(gone, fs[..k], max);
    OutgoingJoin(gone, fs, false);
    OutgoingPart(gone + fs, later, |gone| + k);
  }

  // ----- both ends together -----

  lemma {:induction false} FramesOfOutgoing(fs: seq<Frame>, end: bool)
    ensures FramesOf(Outgoing(fs, end)) == fs
  {
    if fs != [] {
      assert Outgoing(fs, end)[1..] == Outgoing(fs[1..], end);
      FramesOfOutgoing(fs[1..], end);
    }
  }

  /** A completed send, read at the other end under the same limit, gives the frames that were handed in,
      whatever padding was inserted, then the end. */
  lemma H3SendThenRead(items: seq<Prepared>, end: bool, max: nat)
    requires Fits(Flatten(items), max) && PaddedWithPadding(items)
    ensures ReadAllFrames(Wrap(FramesOf(Outgoing(Flatten(items), end))) + [NoMoreFrames], max) ==
            (NonPadding(Originals(items)), Ended)
  {
    FramesOfOutgoing(Flatten(items), end);
    ReadAllExact(Flatten(items), [NoMoreFrames], max);
    PaddingVanishes(items);
  }

  /** A send that broke off, an oversize frame included, gives a prefix of them, then the closed channel. */
  lemma H3BrokenSendReadsPrefix(items: seq<Prepared>, k: nat, max: nat)
    requires BrokeOffAt(items, k, max) && PaddedWithPadding(items)
    ensures var r := ReadAllFrames(Wrap(FramesOf(Outgoing(Flatten(items), false)[..k])), max);
            r.0 <= NonPadding(Originals(items)) && r.1 == ChannelClosed
  {
    var fs := Flatten(items)[..k];
    assert Outgoing(Flatten(items), false)[..k] == Outgoing(fs, false);
    FramesOfOutgoing(fs, false);
    ReadAllExact(fs, [], max);
    assert Wrap(fs) + [] == Wrap(fs);
    NonPaddingPrefix(fs, Flatten(items));
    PaddingVanishes(items);
  }

  /** The two ends run one after the other: what is read is what was handed in, or a prefix of it. */
  method SendAndRead(items: seq<Prepared>, end: bool, slots: nat, max: nat)
    returns (r: SendResult, frames: seq<Frame>, last: Answer)
    requires PaddedWithPadding(items)
    ensures r.Handed? <==> Fits(Flatten(items), max) && |Flatten(items)| <= slots
    ensures if r.Handed? then frames == NonPadding(Originals(items)) && last == Ended
            else frames <= NonPadding(Originals(items)) && last == ChannelClosed
  {
    var sender := new H3Sender(max, slots);
    r := sender.SendFrame(items, end);
    var arrived := Wrap(FramesOf(sender.sent)) + if r.Handed? then [NoMoreFrames] else [];
    var receiver := new H3Receiver(arrived, max);
    if r.Handed? {
      assert sender.sent == Outgoing(Flatten(items), end);
      H3SendThenRead(items, end, max);
    } else {
      ghost var k: nat :| BrokeOffAt(items, k, max) && sender.sent == [] + Outgoing(Flatten(items), false)[..k];
      assert sender.sent == Outgoing(Flatten(items), false)[..k];
      assert arrived == Wrap(FramesOf(sender.sent));
      H3BrokenSendReadsPrefix(items, k, max);
    }
    frames, last := receiver.ReadAll();
  }
}
