/** The relay of one TCP flow: an upload and a download that run side by side and close separately. */
module Relay {
  import opened Bytes
  import opened Frames

  const FLOW_ID: u64 := 1

  /** The H2 relay and the H3 relay differ in how they react to the end of a response. */
  datatype Protocol = H2 | H3

  datatype Sent = Sent(frame: Frame, end: bool)

  datatype Up = Reading | Sending(item: Sent) | UpDone | Stopped

  /** Draining waits for the response to complete after its FIN (H3: or its full close) while the upload
      goes on; Closing does so after a full close has stopped the upload. */
  datatype Down = Receiving | Writing(left: seq<byte>) | Draining(full: bool) | DownDone | Closing(close: FrameType)

  datatype Cause = BothDone | ClosedBy(frameType: FrameType) | RemoteEnded | IdleTimeout | Broke

  datatype State = State(
    protocol: Protocol,
    up: Up,
    down: Down,
    local: seq<byte>,        // everything read from the local side
    eof: bool,               // the local side has ended
    sent: seq<Sent>,         // frames sent in full
    received: seq<Frame>,    // response frames, padding already dropped
    delivered: seq<byte>,    // everything written to the local side
    ended: Option<Cause>)

  datatype Event =
    | LocalRead(bytes: seq<byte>)  // no bytes: end of file
    | SendDone
    | UploadBroke                  // read error, transport gone, send error or stall
    | Remote(frame: Frame)
    | RemoteEnd
    | Wrote(n: nat)
    | DrainOk                      // shutdown done and the response complete
    | DownloadBroke                // receive error, write error or timeout, bad completion
    | Idle

  function Initial(p: Protocol): (s: State)
  {
    State(p, Reading, Receiving, [], false, [], [], [], None)
  }

  function Data(bytes: seq<byte>): (f: Frame)
  {
    Frame(TcpData, 0, FLOW_ID, bytes)
  }

  const FIN := Sent(Frame(TcpFin, 0, FLOW_ID, []), true)

  /** The relay returns: whatever the upload was doing is dropped. */
  function End(s: State, c: Cause): (s': State)
  {
    s.(ended := Some(c), up := if s.up.UpDone? then UpDone else Stopped)
  }

  function OnRemote(s: State, f: Frame): (s': State)
    requires s.down.Receiving?
  {
    var s := s.(received := s.received + [f]);
    if f.flowId != FLOW_ID then s
    else match f.frameType
      case TcpData => if f.payload == [] then s else s.(down := Writing(f.payload))
      case TcpFin => s.(down := Draining(false))
      case CloseFlow =>
        if s.protocol.H2? then s.(down := Closing(CloseFlow), up := if s.up.UpDone? then UpDone else Stopped)
        else s.(down := Draining(true))
      case Error =>
        if s.protocol.H2? then s.(down := Closing(Error), up := if s.up.UpDone? then UpDone else Stopped)
        else End(s, Broke)
      case TcpReset => End(s, if s.protocol.H2? then ClosedBy(TcpReset) else Broke)
      case _ => s
  }

  /** One step; an event that is not enabled changes nothing. */
  function Apply(s: State, e: Event): (s': State)
  {
    if s.ended.Some? then s
    else match e
      case LocalRead(bytes) =>
        if !s.up.Reading? then s
        else if bytes == [] then s.(up := Sending(FIN), eof := true)
        else s.(up := Sending(Sent(Data(bytes), false)), local := s.local + bytes)
      case SendDone =>
        if !s.up.Sending? then s
        else
          var s1 := s.(sent := s.sent + [s.up.item], up := if s.up.item.end then UpDone else Reading);
          if s1.up.UpDone? && s1.down.DownDone? then End(s1, BothDone) else s1
      case UploadBroke => if s.up.Reading? || s.up.Sending? then End(s, Broke) else s
      case Remote(f) =>
        if s.down.Receiving? then OnRemote(s, f)
        else if s.down.Draining? && s.protocol.H3? then End(s.(received := s.received + [f]), Broke)
        else s
      case RemoteEnd =>
        if !s.down.Receiving? then s
        else End(s, if s.protocol.H2? then RemoteEnded else Broke)
      case Wrote(n) =>
        if !s.down.Writing? || n > |s.down.left| then s
        else if n == 0 then End(s, Broke)
        else
          var left := s.down.left[n..];
          s.(delivered := s.delivered + s.down.left[..n], down := if left == [] then Receiving else Writing(left))
      case DrainOk =>
        (match s.down
         case Draining(full) =>
           if full then End(s, ClosedBy(CloseFlow))
           else if s.up.UpDone? then End(s.(down := DownDone), BothDone)
           else s.(down := DownDone)
         case Closing(t) => End(s, ClosedBy(t))
         case _ => s)
      case DownloadBroke => if s.down.DownDone? then s else End(s, Broke)
      case Idle => if s.down.Closing? then s else End(s, IdleTimeout)
  }

  function Exec(s: State, es: seq<Event>): (s': State)
    decreases |es|
  {
    if es == [] then s else Exec(Apply(s, es[0]), es[1..])
  }

  // ----- what the two directions are supposed to carry -----

  predicate Terminal(f: Frame)
  {
    && f.flowId == FLOW_ID
    && (f.frameType.TcpFin? || f.frameType.CloseFlow? || f.frameType.Error? || f.frameType.TcpReset?)
  }

  function FirstTerminal(fs: seq<Frame>): (t: Option<FrameType>)
  {
    if fs == [] then None
    else if Terminal(fs[0]) then Some(fs[0].frameType)
    else FirstTerminal(fs[1..])
  }

  /** The flow's data payloads ahead of its first terminal frame. */
  function ResponseData(fs: seq<Frame>): (s: seq<byte>)
  {
    if fs == [] || Terminal(fs[0]) then []
    else (if fs[0].flowId == FLOW_ID && fs[0].frameType.TcpData? then fs[0].payload else []) + ResponseData(fs[1..])
  }

  lemma {:induction false} ResponseSnoc(fs: seq<Frame>, f: Frame)
    ensures FirstTerminal(fs + [f]) == if FirstTerminal(fs).Some? then FirstTerminal(fs)
                                       else if Terminal(f) then Some(f.frameType) else None
    ensures ResponseData(fs + [f]) == ResponseData(fs) +
              if FirstTerminal(fs).None? && f.flowId == FLOW_ID && f.frameType.TcpData? then f.payload else []
  {
    if fs == [] {
      assert (fs + [f])[1..] == [];
    } else {
      assert (fs + [f])[1..] == fs[1..] + [f];
      ResponseSnoc(fs[1..], f);
    }
  }

  predicate AllData(sent: seq<Sent>)
  {
    forall i :: 0 <= i < |sent| ==> sent[i] == Sent(Data(sent[i].frame.payload), false)
  }

  /** Data frames, then one FIN, which alone carries end-of-stream. */
  predicate DataThenFin(sent: seq<Sent>)
  {
    |sent| > 0 && sent[|sent| - 1] == FIN && AllData(sent[..|sent| - 1])
  }

  function Payloads(sent: seq<Sent>): (s: seq<byte>)
  {
    if sent == [] then [] else Payloads(sent[..|sent| - 1]) + sent[|sent| - 1].frame.payload
  }

  lemma PayloadsSnoc(sent: seq<Sent>, x: Sent)
    ensures Payloads(sent + [x]) == Payloads(sent) + x.frame.payload
  {
    assert (sent + [x])[..|sent|] == sent;
  }

  // ----- invariants -----

  predicate UploadInv(s: State)
  {
    match s.up
    case Reading => AllData(s.sent) && Payloads(s.sent) == s.local && !s.eof
    case Sending(x) =>
      && AllData(s.sent)
      && Payloads(s.sent) + x.frame.payload == s.local
      && x == (if s.eof then FIN else Sent(Data(x.frame.payload), false))
    case UpDone => DataThenFin(s.sent) && Payloads(s.sent) == s.local && s.eof
    case Stopped => AllData(s.sent) && Payloads(s.sent) <= s.local
  }

  function Unwritten(d: Down): (s: seq<byte>)
  {
    if d.Writing? then d.left else []
  }

  predicate DownloadInv(s: State)
  {
    && s.delivered + Unwritten(s.down) == ResponseData(s.received)
    && (s.ended.Some? && s.down.Writing? ==> s.ended.value == Broke || s.ended.value == IdleTimeout)
    && (s.ended.None? ==>
      && FirstTerminal(s.received) == (match s.down
                                       case Receiving => None
                                       case Writing(_) => None
                                       case Draining(full) => Some(if full then CloseFlow else TcpFin)
                                       case DownDone => Some(TcpFin)
                                       case Closing(t) => Some(t))
      && (s.down.Closing? ==>
            && s.protocol.H2? && !s.up.Reading? && !s.up.Sending?
            && (s.down.close.CloseFlow? || s.down.close.Error?))
      && (s.down.Draining? && s.down.full ==> s.protocol.H3?)
      && (s.up.Stopped? ==> s.down.Closing?)
      && !(s.up.UpDone? && s.down.DownDone?))
  }

  predicate EndInv(s: State)
  {
    match s.ended
    case None => true
    case Some(Broke) => !s.up.Reading? && !s.up.Sending?
    case Some(IdleTimeout) => !s.up.Reading? && !s.up.Sending?
    case Some(BothDone) =>
      && s.up.UpDone?
      && s.delivered == ResponseData(s.received)
      && FirstTerminal(s.received) == Some(TcpFin)
    case Some(RemoteEnded) =>
      && !s.up.Reading? && !s.up.Sending?
      && s.protocol.H2?
      && s.delivered == ResponseData(s.received)
      && FirstTerminal(s.received) == None
    case Some(ClosedBy(t)) =>
      && !s.up.Reading? && !s.up.Sending?
      && s.delivered == ResponseData(s.received)
      && FirstTerminal(s.received) == Some(t)
      && (t.CloseFlow? || (s.protocol.H2? && (t.Error? || t.TcpReset?)))
  }

  predicate Inv(s: State)
  {
    UploadInv(s) && DownloadInv(s) && EndInv(s)
  }

  lemma StoppingKeepsUpload(s: State)
    requires UploadInv(s)
    ensures UploadInv(s.(up := if s.up.UpDone? then UpDone else Stopped))
  {
  }

  lemma SendDoneKeepsUpload(s: State)
    requires UploadInv(s) && s.up.Sending?
    ensures UploadInv(s.(sent := s.sent + [s.up.item], up := if s.up.item.end then UpDone else Reading))
  {
    hide Payloads, AllData, DataThenFin;
    PayloadsSnoc(s.sent, s.up.item);
    if s.eof {
      FinEnds(s.sent);
      assert Payloads(s.sent) + [] == Payloads(s.sent);
    } else {
      DataGoesOn(s.sent, s.up.item.frame.payload);
    }
  }

  lemma FinEnds(sent: seq<Sent>)
    requires AllData(sent)
    ensures DataThenFin(sent + [FIN])
  {
    assert (sent + [FIN])[..|sent|] == sent;
  }

  lemma DataGoesOn(sent: seq<Sent>, payload: seq<byte>)
    requires AllData(sent)
    ensures AllData(sent + [Sent(Data(payload), false)])
  {
  }

  lemma ReadKeepsUpload(s: State, bytes: seq<byte>)
    requires UploadInv(s)
    ensures UploadInv(Apply(s, LocalRead(bytes)))
  {
    hide Payloads, AllData, DataThenFin;
  }

  lemma RemoteKeepsUpload(s: State, f: Frame)
    requires UploadInv(s)
    ensures UploadInv(Apply(s, Remote(f)))
  {
    StoppingKeepsUpload(s);
    hide Payloads, AllData, DataThenFin;
  }

  lemma UploadStep(s: State, e: Event)
    requires UploadInv(s)
    ensures UploadInv(Apply(s, e))
  {
    match e
    case LocalRead(bytes) =>
      ReadKeepsUpload(s, bytes);
    case Remote(f) =>
      RemoteKeepsUpload(s, f);
    case SendDone =>
      hide Payloads, AllData, DataThenFin;
      if s.up.Sending? {
        SendDoneKeepsUpload(s);
      }
    case _ =>
      hide Payloads, AllData, DataThenFin;
      StoppingKeepsUpload(s);
  }

  lemma RemoteDownload(s: State, f: Frame)
    requires DownloadInv(s) && s.ended.None?
    ensures DownloadInv(Apply(s, Remote(f)))
  {
    ResponseSnoc(s.received, f);
    hide ResponseData, FirstTerminal;
    if s.down.Receiving? {
      assert s.delivered == ResponseData(s.received);
      var s' := OnRemote(s, f);
      assert s'.delivered + Unwritten(s'.down) == ResponseData(s'.received);
    }
  }

  lemma RemoteEnding(s: State, f: Frame)
    requires DownloadInv(s) && s.ended.None?
    ensures EndInv(Apply(s, Remote(f)))
  {
    ResponseSnoc(s.received, f);
    hide ResponseData, FirstTerminal;
  }

  lemma WroteStep(s: State, n: nat)
    requires DownloadInv(s) && EndInv(s)
    ensures DownloadInv(Apply(s, Wrote(n))) && EndInv(Apply(s, Wrote(n)))
  {
    hide ResponseData, FirstTerminal;
    if s.down.Writing? && n <= |s.down.left| {
      assert s.down.left == s.down.left[..n] + s.down.left[n..];
    }
  }

  lemma OtherStep(s: State, e: Event)
    requires DownloadInv(s) && EndInv(s) && !e.Remote? && !e.Wrote?
    ensures DownloadInv(Apply(s, e)) && EndInv(Apply(s, e))
  {
    hide ResponseData, FirstTerminal;
  }

  lemma StepKeepsInv(s: State, e: Event)
    requires Inv(s)
    ensures Inv(Apply(s, e))
  {
    UploadStep(s, e);
    match e
    case Remote(f) =>
      if s.ended.None? {
        RemoteDownload(s, f);
        RemoteEnding(s, f);
      }
      hide UploadInv, DownloadInv, EndInv;
    case Wrote(n) =>
      WroteStep(s, n);
      hide UploadInv, DownloadInv, EndInv;
    case _ =>
      OtherStep(s, e);
      hide UploadInv, DownloadInv, EndInv;
  }

  lemma {:induction false} RunKeepsInv(s: State, es: seq<Event>)
    requires Inv(s)
    ensures Inv(Exec(s, es))
    decreases |es|
  {
    if es != [] {
      StepKeepsInv(s, es[0]);
      RunKeepsInv(Apply(s, es[0]), es[1..]);
    }
  }

  /** Every run, every interleaving, every point, ended or not: what reached the local side is, in order, the
      response data ahead of the first terminal frame, up to what is left of the write in progress; and
      only a failure or the idle timer can end the relay with one in progress. */
  lemma DeliveredIsResponsePrefix(p: Protocol, es: seq<Event>)
    ensures var s := Exec(Initial(p), es);
            && s.delivered + Unwritten(s.down) == ResponseData(s.received)
            && s.delivered <= ResponseData(s.received)
            && (!s.down.Writing? ==> s.delivered == ResponseData(s.received))
            && (s.ended.Some? && s.down.Writing? ==> s.ended.value == Broke || s.ended.value == IdleTimeout)
  {
    RunKeepsInv(Initial(p), es);
  }

  /** What was sent is data frames carrying a prefix of the local input, followed by at most one FIN: the
      FIN alone ends the stream and is only sent once all local input is. */
  lemma SentIsLocalPrefix(p: Protocol, es: seq<Event>)
    ensures var s := Exec(Initial(p), es);
            && (AllData(s.sent) || (DataThenFin(s.sent) && s.eof && Payloads(s.sent) == s.local))
            && Payloads(s.sent) <= s.local
  {
    RunKeepsInv(Initial(p), es);
    var s := Exec(Initial(p), es);
    if s.up.Sending? {
      assert Payloads(s.sent) <= Payloads(s.sent) + s.up.item.frame.payload;
    }
  }

  /** A relay that ends because both directions are done has moved everything both ways. */
  lemma BothDoneIsComplete(p: Protocol, es: seq<Event>)
    requires Exec(Initial(p), es).ended == Some(BothDone)
    ensures var s := Exec(Initial(p), es);
            && DataThenFin(s.sent) && Payloads(s.sent) == s.local
            && s.delivered == ResponseData(s.received) && FirstTerminal(s.received) == Some(TcpFin)
  {
    RunKeepsInv(Initial(p), es);
  }

  /** A response FIN never ends the upload: while it is the first terminal frame, the relay only ends
      with the upload complete, by a failure or by the idle timer; until then the upload is untouched. */
  lemma ResponseFinKeepsUpload(p: Protocol, es: seq<Event>)
    requires FirstTerminal(Exec(Initial(p), es).received) == Some(TcpFin)
    ensures var s := Exec(Initial(p), es);
            match s.ended
            case None => !s.up.Stopped?
            case Some(c) => c == BothDone || c == Broke || c == IdleTimeout
    ensures var s := Exec(Initial(p), es);
            s.ended == Some(BothDone) ==> s.up.UpDone?
  {
    RunKeepsInv(Initial(p), es);
  }

  /** Once the upload has stopped, or the relay has ended, nothing more is ever sent. */
  lemma {:induction false} StoppedSendsNothing(s: State, es: seq<Event>)
    requires Inv(s) && (s.up.Stopped? || s.ended.Some?)
    ensures Exec(s, es).sent == s.sent
    decreases |es|
  {
    if es != [] {
      StepKeepsInv(s, es[0]);
      StoppedSendsNothing(Apply(s, es[0]), es[1..]);
    }
  }

  lemma {:induction false} ExecAppend(s: State, a: seq<Event>, b: seq<Event>)
    ensures Exec(s, a + b) == Exec(Exec(s, a), b)
    decreases |a|
  {
    if a == [] {
      assert a + b == b;
    } else {
      assert (a + b)[1..] == a[1..] + b;
      ExecAppend(Apply(s, a[0]), a[1..], b);
    }
  }

  predicate FullClose(t: Option<FrameType>)
  {
    t == Some(CloseFlow) || t == Some(Error) || t == Some(TcpReset)
  }

  /** The one close that leaves a running upload running: an H3 CloseFlow whose response is not complete. */
  predicate CloseStillDraining(s: State)
  {
    s.protocol.H3? && s.down.Draining? && s.down.full && s.ended.None? && !s.up.UpDone?
  }

  /** Once a CloseFlow, Error or TcpReset is the first terminal frame, no frame is ever sent again, whatever
      happens next, if and only if that is not an H3 CloseFlow still waiting for its response to complete. */
  lemma FullCloseEndsUploadIff(p: Protocol, before: seq<Event>)
    requires FullClose(FirstTerminal(Exec(Initial(p), before).received))
    ensures var s := Exec(Initial(p), before);
            (forall after :: Exec(Initial(p), before + after).sent == s.sent) <==> !CloseStillDraining(s)
  {
    var s := Exec(Initial(p), before);
    RunKeepsInv(Initial(p), before);
    ProtocolFixed(Initial(p), before);
    if CloseStillDraining(s) {
      var after := if s.up.Sending? then [SendDone] else [LocalRead([0]), SendDone];
      ExecAppend(Initial(p), before, after);
      DrainingSends(s);
    } else {
      forall after
        ensures Exec(Initial(p), before + after).sent == s.sent
      {
        ExecAppend(Initial(p), before, after);
        if s.ended.None? && s.up.UpDone? {
          DoneSendsNothing(s, after);
        } else {
          StoppedSendsNothing(s, after);
        }
      }
    }
  }

  /** That close does come up: on H3, a CloseFlow as the first thing received is followed by data all the same. */
  lemma CloseFlowThenData(s0: State, close: Event, byte0: seq<byte>)
    requires s0 == Initial(H3) && close == Remote(Frame(CloseFlow, 0, FLOW_ID, [])) && byte0 != []
    ensures var s := Exec(s0, [close]);
            && FirstTerminal(s.received) == Some(CloseFlow) && CloseStillDraining(s)
            && Exec(s0, [close] + [LocalRead(byte0), SendDone]).sent == [Sent(Data(byte0), false)]
  {
    var s := Apply(s0, close);
    assert [close][1..] == [] && s.received == [close.frame];
    ExecAppend(s0, [close], [LocalRead(byte0), SendDone]);
    assert [LocalRead(byte0), SendDone][1..] == [SendDone] && [SendDone][1..] == [];
    assert Exec(s, [LocalRead(byte0), SendDone]) == Exec(Apply(s, LocalRead(byte0)), [SendDone]);
    assert [] + [Sent(Data(byte0), false)] == [Sent(Data(byte0), false)];
  }

  lemma DrainingSends(s: State)
    requires Inv(s) && CloseStillDraining(s)
    ensures Exec(s, if s.up.Sending? then [SendDone] else [LocalRead([0]), SendDone]).sent != s.sent
  {
    assert [LocalRead([0]), SendDone][1..] == [SendDone];
    assert [SendDone][1..] == [];
  }

  lemma {:induction false} DoneSendsNothing(s: State, es: seq<Event>)
    requires s.up.UpDone?
    ensures Exec(s, es).sent == s.sent
    decreases |es|
  {
    if es != [] {
      DoneSendsNothing(Apply(s, es[0]), es[1..]);
    }
  }

  lemma {:induction false} ProtocolFixed(s: State, es: seq<Event>)
    ensures Exec(s, es).protocol == s.protocol
    decreases |es|
  {
    if es != [] {
      ProtocolFixed(Apply(s, es[0]), es[1..]);
    }
  }

  // ----- what each event does -----

  /** The relay takes this frame off the response. */
  predicate TakesFrame(s: State, e: Event)
  {
    s.ended.None? && e.Remote? && (s.down.Receiving? || (s.down.Draining? && s.protocol.H3?))
  }

  /** The relay takes these bytes, or their end, from the local side. */
  predicate TakesInput(s: State, e: Event)
  {
    s.ended.None? && e.LocalRead? && s.up.Reading?
  }

  predicate Writes(s: State, e: Event)
  {
    s.ended.None? && e.Wrote? && s.down.Writing? && 0 < e.n <= |s.down.left|
  }

  /** The five records are what the events say, no more and no less. */
  lemma StepRecords(s: State, e: Event)
    ensures var s' := Apply(s, e);
            && s'.received == s.received + (if TakesFrame(s, e) then [e.frame] else [])
            && s'.local == s.local + (if TakesInput(s, e) then e.bytes else [])
            && (s'.eof <==> s.eof || (TakesInput(s, e) && e.bytes == []))
            && s'.sent == s.sent + (if s.ended.None? && e.SendDone? && s.up.Sending? then [s.up.item] else [])
            && s'.delivered == s.delivered + (if Writes(s, e) then s.down.left[..e.n] else [])
  {
  }

  /** What ends a relay from outside: a broken direction, the idle timer and the end of the response, each with its own
      result, unless the direction it concerns is already over; a write that makes no progress; and on H3 any frame
      after the one that ended the response. */
  lemma FailuresEnd(s: State, f: Frame)
    requires s.ended.None?
    ensures Apply(s, UploadBroke).ended == if s.up.Reading? || s.up.Sending? then Some(Broke) else None
    ensures Apply(s, DownloadBroke).ended == if s.down.DownDone? then None else Some(Broke)
    ensures Apply(s, Idle).ended == if s.down.Closing? then None else Some(IdleTimeout)
    ensures Apply(s, RemoteEnd).ended ==
            if !s.down.Receiving? then None else if s.protocol.H2? then Some(RemoteEnded) else Some(Broke)
    ensures Apply(s, Wrote(0)).ended == if s.down.Writing? then Some(Broke) else None
    ensures s.down.Draining? ==> Apply(s, Remote(f)).ended == if s.protocol.H3? then Some(Broke) else None
  {
  }

  /** A frame that closes the flow ends the relay, at once or when the close has been carried out, and the result tells
      which frame it was, unless H3 takes it for a failure. */
  lemma CloseFramesEnd(s: State, f: Frame)
    requires s.ended.None? && s.down.Receiving? && Terminal(f) && !f.frameType.TcpFin?
    ensures Apply(Apply(s, Remote(f)), DrainOk).ended ==
            Some(if s.protocol.H3? && !f.frameType.CloseFlow? then Broke else ClosedBy(f.frameType))
  {
  }

  // ----- runs that go well -----

  function AsData(ps: seq<seq<byte>>): (fs: seq<Frame>)
  {
    if ps == [] then [] else [Data(ps[0])] + AsData(ps[1..])
  }

  function AsSent(ps: seq<seq<byte>>): (xs: seq<Sent>)
  {
    if ps == [] then [] else [Sent(Data(ps[0]), false)] + AsSent(ps[1..])
  }

  /** Each payload arrives and is written out. */
  function Deliveries(ps: seq<seq<byte>>): (es: seq<Event>)
  {
    if ps == [] then [] else [Remote(Data(ps[0])), Wrote(|ps[0]|)] + Deliveries(ps[1..])
  }

  /** Each piece of input is read and sent. */
  function Uploads(ps: seq<seq<byte>>): (es: seq<Event>)
  {
    if ps == [] then [] else [LocalRead(ps[0]), SendDone] + Uploads(ps[1..])
  }

  lemma TwoEvents(s: State, a: Event, b: Event, rest: seq<Event>)
    ensures Exec(s, [a, b] + rest) == Exec(Apply(Apply(s, a), b), rest)
  {
    hide Apply;
    ExecAppend(s, [a, b], rest);
    assert [a, b][1..] == [b] && [b][1..] == [];
    assert Exec(Apply(s, a), [b]) == Exec(Apply(Apply(s, a), b), []);
  }

  lemma NoEvents(s: State)
    ensures Exec(s, []) == s
  {
  }

  lemma Assoc<T>(a: seq<T>, b: seq<T>, c: seq<T>)
    ensures (a + b) + c == a + (b + c)
  {
  }

  lemma OneDelivery(s: State, p: seq<byte>)
    requires s.ended.None? && s.down.Receiving?
    ensures Apply(Apply(s, Remote(Data(p))), Wrote(|p|)) ==
            s.(received := s.received + [Data(p)], delivered := s.delivered + p)
  {
    assert p[|p|..] == [] && p[..|p|] == p;
    assert p == [] ==> s.delivered + p == s.delivered;
  }

  lemma OneUpload(s: State, p: seq<byte>)
    requires s.ended.None? && s.up.Reading? && p != []
    ensures Apply(Apply(s, LocalRead(p)), SendDone) ==
            s.(local := s.local + p, sent := s.sent + [Sent(Data(p), false)])
  {
  }

  /** From any state in which the relay waits for the response, payloads that arrive one after the other are delivered
      whole and in order, and the upload does not notice. */
  lemma {:induction false} DownloadDelivers(s: State, ps: seq<seq<byte>>)
    requires s.ended.None? && s.down.Receiving?
    ensures Exec(s, Deliveries(ps)) == s.(received := s.received + AsData(ps), delivered := s.delivered + Concat(ps))
    decreases |ps|
  {
    hide Apply, Exec;
    if ps == [] {
      NoEvents(s);
      assert s.received + [] == s.received && s.delivered + [] == s.delivered;
    } else {
      TwoEvents(s, Remote(Data(ps[0])), Wrote(|ps[0]|), Deliveries(ps[1..]));
      OneDelivery(s, ps[0]);
      var s1 := s.(received := s.received + [Data(ps[0])], delivered := s.delivered + ps[0]);
      DownloadDelivers(s1, ps[1..]);
      Assoc(s.received, [Data(ps[0])], AsData(ps[1..]));
      Assoc(s.delivered, ps[0], Concat(ps[1..]));
    }
  }

  /** From any state in which the relay waits for local input, what is read piece by piece is sent in order, and the
      download does not notice. */
  lemma {:induction false} UploadSends(s: State, ps: seq<seq<byte>>)
    requires s.ended.None? && s.up.Reading? && forall i :: 0 <= i < |ps| ==> ps[i] != []
    ensures Exec(s, Uploads(ps)) == s.(local := s.local + Concat(ps), sent := s.sent + AsSent(ps))
    decreases |ps|
  {
    hide Apply, Exec;
    if ps == [] {
      NoEvents(s);
      assert s.local + [] == s.local && s.sent + [] == s.sent;
    } else {
      TwoEvents(s, LocalRead(ps[0]), SendDone, Uploads(ps[1..]));
      OneUpload(s, ps[0]);
      var s1 := s.(local := s.local + ps[0], sent := s.sent + [Sent(Data(ps[0]), false)]);
      UploadSends(s1, ps[1..]);
      Assoc(s.local, ps[0], Concat(ps[1..]));
      Assoc(s.sent, [Sent(Data(ps[0]), false)], AsSent(ps[1..]));
    }
  }

  const CLOSE_DOWN: seq<Event> := [Remote(FIN.frame), DrainOk]

  const CLOSE_UP: seq<Event> := [LocalRead([]), SendDone]

  lemma DownCloses(s: State)
    requires s.ended.None? && s.down.Receiving? && s.up.Reading?
    ensures Exec(s, CLOSE_DOWN) == s.(received := s.received + [FIN.frame], down := DownDone)
  {
    assert CLOSE_DOWN == CLOSE_DOWN + [];
    TwoEvents(s, Remote(FIN.frame), DrainOk, []);
  }

  lemma UpCloses(s: State)
    requires s.ended.None? && s.down.DownDone? && s.up.Reading?
    ensures var s' := Exec(s, CLOSE_UP);
            && s'.ended == Some(BothDone) && s'.sent == s.sent + [FIN]
            && s'.local == s.local && s'.delivered == s.delivered
  {
    assert CLOSE_UP == CLOSE_UP + [];
    TwoEvents(s, LocalRead([]), SendDone, []);
    assert s.local + [] == s.local;
  }

  /** A whole relay with a half close: the response ends first, the upload goes on and then ends, and everything has
      gone through both ways. */
  lemma HalfCloseCompletes(p: Protocol, downs: seq<seq<byte>>, ups: seq<seq<byte>>)
    requires forall i :: 0 <= i < |ups| ==> ups[i] != []
    ensures var s := Exec(Initial(p), Deliveries(downs) + (CLOSE_DOWN + (Uploads(ups) + CLOSE_UP)));
            && s.ended == Some(BothDone)
            && s.delivered == Concat(downs) && s.local == Concat(ups) && s.sent == AsSent(ups) + [FIN]
  {
    hide Apply, Exec;
    var s0 := Initial(p);
    ExecAppend(s0, Deliveries(downs), CLOSE_DOWN + (Uploads(ups) + CLOSE_UP));
    DownloadDelivers(s0, downs);
    var s1 := Exec(s0, Deliveries(downs));
    ExecAppend(s1, CLOSE_DOWN, Uploads(ups) + CLOSE_UP);
    DownCloses(s1);
    var s2 := Exec(s1, CLOSE_DOWN);
    ExecAppend(s2, Uploads(ups), CLOSE_UP);
    UploadSends(s2, ups);
    UpCloses(Exec(s2, Uploads(ups)));
  }

  // ----- the inner loops -----

  /** The local write loop: each write takes some of what is left; none taken, or no answer, gives up. */
  method WriteAll(bytes: seq<byte>, takes: seq<nat>) returns (ok: bool, written: seq<byte>)
    ensures written <= bytes
    ensures ok ==> written == bytes
    ensures ok <==> exists k :: 0 <= k <= |takes| && Completes(|bytes|, takes[..k])
  {
    var left, i := bytes, 0;
    written := [];
    while left != []
      invariant 0 <= i <= |takes| && written + left == bytes
      invariant Progress(|bytes|, takes[..i]) == Some(|left|)
      decreases |left|
    {
      assert i < |takes| ==> takes[..i + 1][..i] == takes[..i];
      if i == |takes| || takes[i] == 0 || takes[i] > |left| {
        forall k | 0 <= k <= |takes|
          ensures !Completes(|bytes|, takes[..k])
        {
          if k > i {
            StuckStays(|bytes|, takes, i, k);
          } else {
            NotYet(|bytes|, takes, k, i);
          }
        }
        return false, written;
      }
      written := written + left[..takes[i]];
      left := left[takes[i]..];
      i := i + 1;
    }
    assert Completes(|bytes|, takes[..i]);
    ok := true;
  }

  /** What is left of n bytes after these writes, if every one of them made progress. */
  function Progress(n: nat, takes: seq<nat>): (left: Option<nat>)
  {
    if takes == [] then Some(n)
    else
      var k := |takes| - 1;
      match Progress(n, takes[..k])
      case None => None
      case Some(m) => if m == 0 || takes[k] == 0 || takes[k] > m then None else Some(m - takes[k])
  }

  predicate Completes(n: nat, takes: seq<nat>)
  {
    Progress(n, takes) == Some(0)
  }

  lemma {:induction false} StuckStays(n: nat, takes: seq<nat>, i: nat, k: nat)
    requires i < k <= |takes|
    requires Progress(n, takes[..i + 1]) == None
    ensures Progress(n, takes[..k]) == None
    decreases k
  {
    if k > i + 1 {
      StuckStays(n, takes, i, k - 1);
      assert takes[..k][..k - 1] == takes[..k - 1];
    }
  }

  lemma {:induction false} NotYet(n: nat, takes: seq<nat>, k: nat, i: nat)
    requires k <= i <= |takes|
    requires Progress(n, takes[..i]).Some? && Progress(n, takes[..i]).value > 0
    ensures Progress(n, takes[..k]).Some? && Progress(n, takes[..k]).value > 0
    decreases i - k
  {
    if k < i {
      assert takes[..i][..i - 1] == takes[..i - 1];
      NotYet(n, takes, k, i - 1);
    }
  }
}
