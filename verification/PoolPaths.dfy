/** What the pool is for: an opener gets its tunnel when the commands it waits for succeed, on the cached connection or
    on a new one, and a failure it may still retry leads it back to the beginning. */
module PoolPaths {
  import opened Bytes
  import opened PoolState
  import opened PoolProtocol
  import opened PoolRuns

  /** One opener, where it is, and who has the gate. */
  predicate At(s: Sys, id: nat, o: Opener, gate: Option<nat>)
  {
    id in s.openers && s.openers[id] == o && s.gate == gate
  }

  lemma StepOf(s: Sys, id: nat, c: Choice, now: nat)
    requires id in s.openers
    ensures var m, s' := Advance(Wide, s, id, s.openers[id], c, now), Apply(Wide, s, Step(id, c, now));
            s'.pool == m.pool && At(s', id, m.opener, m.gate)
  {
    hide Advance, Holders;
  }

  lemma ExecHead(s: Sys, e: Event, rest: seq<Event>)
    ensures Exec(Wide, s, [e] + rest) == Exec(Wide, Apply(Wide, s, e), rest)
  {
    hide Apply;
    assert ([e] + rest)[1..] == rest;
  }

  lemma ExecNone(s: Sys)
    ensures Exec(Wide, s, []) == s
  {
  }

  // ----- from a lease to a tunnel -----

  /** Ready, shaken hands, recorded. */
  function Finish(id: nat): (es: seq<Event>)
  {
    [Step(id, Go, 0)] + ([Step(id, Go, 0)] + ([Step(id, Go, 0)] + []))
  }

  /** An opener with a lease whose waits all succeed ends up with a tunnel on that lease. */
  lemma LeaseBecomesTunnel(s: Sys, id: nat, o: Opener, g: nat)
    requires At(s, id, o, s.gate) && o.pc == Readying(g)
    ensures var s' := Exec(Wide, s, Finish(id));
            && At(s', id, o.(pc := Open(g), recovering := false), s.gate)
            && s'.pool == s.pool.(timeoutRecoveries := s.pool.timeoutRecoveries + if o.recovering then 1 else 0)
  {
    hide Apply, Exec;
    var e := Step(id, Go, 0);
    StepOf(s, id, Go, 0);
    var s1 := Apply(Wide, s, e);
    StepOf(s1, id, Go, 0);
    var s2 := Apply(Wide, s1, e);
    StepOf(s2, id, Go, 0);
    var s3 := Apply(Wide, s2, e);
    ExecHead(s, e, [e] + ([e] + []));
    ExecHead(s1, e, [e] + []);
    ExecHead(s2, e, []);
    ExecNone(s3);
  }

  /** On a pool with an open connection a new attempt reuses it: no gate, no dial, one more lease of that generation. */
  lemma CachedConnectionIsReused(s: Sys, id: nat, o: Opener)
    requires At(s, id, o, s.gate) && o.pc.Start? && !s.pool.shutdown
    requires s.pool.connection.Some? && !s.pool.connection.value.closed
    ensures var s', g := Exec(Wide, s, [Step(id, Go, 0)] + Finish(id)), s.pool.connection.value.generation;
            && At(s', id, o.(pc := Open(g), leases := o.leases + 1, recovering := false), s.gate)
            && Cached(s'.pool, g) && s'.pool.created == s.pool.created && s'.pool.active == s.pool.active + 1
            && s'.pool.streamsReused == s.pool.streamsReused + 1
  {
    var g := s.pool.connection.value.generation;
    StepOf(s, id, Go, 0);
    ExecHead(s, Step(id, Go, 0), Finish(id));
    var s1 := Apply(Wide, s, Step(id, Go, 0));
    assert s1.pool == CheckoutCached(Wide, s.pool).1 && s1.openers[id] == Took(o, Readying(g));
    hide Apply, Exec;
    LeaseBecomesTunnel(s1, id, s1.openers[id], g);
  }

  // ----- from an empty cache to a lease -----

  /** An opener on its way through the gate, with nothing cached. */
  predicate Climbing(s: Sys, id: nat, o: Opener)
  {
    At(s, id, o, if Gated(o.pc) then Some(id) else None) && s.pool.connection.None? && !s.pool.shutdown
  }

  function NextRung(pc: Pc, c: Choice): (pc': Pc)
    requires pc.Dialing? ==> c.Connected?
  {
    match pc
    case Start => WaitGate
    case WaitGate => Recheck
    case Recheck => Dialing
    case Dialing => Dialed(c.version, c.group)
    case _ => pc
  }

  lemma ClimbStep(s: Sys, id: nat, o: Opener, c: Choice)
    requires Climbing(s, id, o) && (o.pc.Start? || o.pc.WaitGate? || o.pc.Recheck? || o.pc.Dialing?)
    requires if o.pc.Dialing? then c.Connected? else c.Go?
    ensures var s' := Apply(Wide, s, Step(id, c, 0));
            s'.pool == s.pool && Climbing(s', id, o.(pc := NextRung(o.pc, c)))
  {
    StepOf(s, id, c, 0);
    hide Apply;
  }

  function Climb(id: nat, v: TlsVersion, g: TlsGroup): (es: seq<Event>)
  {
    [Step(id, Go, 0)] + ([Step(id, Go, 0)] + ([Step(id, Go, 0)] + ([Step(id, Connected(v, g), 0)] + [])))
  }

  lemma ClimbsToDialed(s: Sys, id: nat, o: Opener, v: TlsVersion, g: TlsGroup)
    requires Climbing(s, id, o) && o.pc.Start?
    ensures var s' := Exec(Wide, s, Climb(id, v, g));
            s'.pool == s.pool && Climbing(s', id, o.(pc := Dialed(v, g)))
  {
    hide Apply, Exec, Climbing;
    var e, last := Step(id, Go, 0), Step(id, Connected(v, g), 0);
    ClimbStep(s, id, o, Go);
    var s1 := Apply(Wide, s, e);
    ClimbStep(s1, id, o.(pc := WaitGate), Go);
    var s2 := Apply(Wide, s1, e);
    ClimbStep(s2, id, o.(pc := Recheck), Go);
    var s3 := Apply(Wide, s2, e);
    ClimbStep(s3, id, o.(pc := Dialing), Connected(v, g));
    var s4 := Apply(Wide, s3, last);
    ExecHead(s, e, [e] + ([e] + ([last] + [])));
    ExecHead(s1, e, [e] + ([last] + []));
    ExecHead(s2, e, [last] + []);
    ExecHead(s3, last, []);
    ExecNone(s4);
  }

  /** Install, let go of the gate. */
  lemma DialedGetsLease(s: Sys, id: nat, o: Opener)
    requires Climbing(s, id, o) && o.pc.Dialed?
    ensures var g := s.pool.nextGeneration + 1;
            var s' := Exec(Wide, s, [Step(id, Go, 0)] + ([Step(id, Go, 0)] + []));
            && At(s', id, o.(pc := Readying(g), leases := o.leases + 1), None)
            && Cached(s'.pool, g) && !s'.pool.connection.value.closed && !s'.pool.shutdown
            && s'.pool.created == s.pool.created + 1 && s'.pool.active == s.pool.active + 1
  {
    var e, p := Step(id, Go, 0), InstallAndCheckout(Wide, s.pool, o.pc.version, o.pc.group).1;
    InstallExact(Wide, s.pool, o.pc.version, o.pc.group);
    assert p.created == s.pool.created + 1 && p.active == s.pool.active + 1 && !p.shutdown;
    hide InstallAndCheckout, Apply, Exec;
    StepOf(s, id, Go, 0);
    var s1 := Apply(Wide, s, e);
    StepOf(s1, id, Go, 0);
    var s2 := Apply(Wide, s1, e);
    ExecHead(s, e, [e] + []);
    ExecHead(s1, e, []);
    ExecNone(s2);
  }

  /** Everything from the first look at an empty cache to the tunnel. */
  function DialPath(id: nat, v: TlsVersion, g: TlsGroup): (es: seq<Event>)
  {
    Climb(id, v, g) + (([Step(id, Go, 0)] + ([Step(id, Go, 0)] + [])) + Finish(id))
  }

  /** With nothing cached and the gate free, an attempt dials, installs the next generation and gets its tunnel on
      it. */
  lemma EmptyPoolDials(s: Sys, id: nat, o: Opener, v: TlsVersion, k: TlsGroup)
    requires Climbing(s, id, o) && o.pc.Start?
    ensures var s', g := Exec(Wide, s, DialPath(id, v, k)), s.pool.nextGeneration + 1;
            && At(s', id, o.(pc := Open(g), leases := o.leases + 1, recovering := false), None)
            && Cached(s'.pool, g) && s'.pool.created == s.pool.created + 1 && s'.pool.active == s.pool.active + 1
  {
    hide Exec, Apply, Climb, Finish, Climbing;
    var install := [Step(id, Go, 0)] + ([Step(id, Go, 0)] + []);
    ClimbsToDialed(s, id, o, v, k);
    ExecAppend(Wide, s, Climb(id, v, k), install + Finish(id));
    var s1 := Exec(Wide, s, Climb(id, v, k));
    DialedGetsLease(s1, id, o.(pc := Dialed(v, k)));
    ExecAppend(Wide, s1, install, Finish(id));
    var s2 := Exec(Wide, s1, install);
    LeaseBecomesTunnel(s2, id, s2.openers[id], s.pool.nextGeneration + 1);
  }

  // ----- from a failure back to the start -----

  function ThreeSteps(id: nat, c: Choice): (es: seq<Event>)
  {
    [Step(id, c, 0)] + ([Step(id, Go, 0)] + ([Step(id, Go, 0)] + []))
  }

  lemma ThreeStepsOf(s: Sys, id: nat, c: Choice)
    ensures var s1 := Apply(Wide, s, Step(id, c, 0));
            var s2 := Apply(Wide, s1, Step(id, Go, 0));
            Exec(Wide, s, ThreeSteps(id, c)) == Apply(Wide, s2, Step(id, Go, 0))
  {
    hide Apply, Exec;
    var e := Step(id, Go, 0);
    var s1 := Apply(Wide, s, Step(id, c, 0));
    var s2 := Apply(Wide, s1, e);
    ExecHead(s, Step(id, c, 0), [e] + ([e] + []));
    ExecHead(s1, e, [e] + []);
    ExecHead(s2, e, []);
    ExecNone(Apply(Wide, s2, e));
  }

  lemma ThreeAdvances(s: Sys, id: nat, c: Choice)
    requires id in s.openers
    ensures var m1 := Advance(Wide, s, id, s.openers[id], c, 0);
            var s1 := Apply(Wide, s, Step(id, c, 0));
            var m2 := Advance(Wide, s1, id, m1.opener, Go, 0);
            var s2 := Apply(Wide, s1, Step(id, Go, 0));
            var m3 := Advance(Wide, s2, id, m2.opener, Go, 0);
            var s3 := Exec(Wide, s, ThreeSteps(id, c));
            && s1.pool == m1.pool && s1.gate == m1.gate && s2.pool == m2.pool && s2.gate == m2.gate
            && s3.pool == m3.pool && At(s3, id, m3.opener, m3.gate)
  {
    hide Advance, Apply, Exec;
    ThreeStepsOf(s, id, c);
    StepOf(s, id, c, 0);
    var s1 := Apply(Wide, s, Step(id, c, 0));
    StepOf(s1, id, Go, 0);
    StepOf(Apply(Wide, s1, Step(id, Go, 0)), id, Go, 0);
  }

  // What the opener does on each of those steps.

  lemma ReadyFails(s: Sys, id: nat, o: Opener, g: nat, kind: FailKind)
    requires o.pc == Readying(g)
    ensures Advance(Wide, s, id, o, Fail(kind), 0) == Move(s.pool, s.gate, o.(pc := ReadyFailed(g)))
  {
  }

  lemma ReadyInvalidates(s: Sys, id: nat, o: Opener, g: nat)
    requires o.pc == ReadyFailed(g)
    ensures Advance(Wide, s, id, o, Go, 0) == Move(ReadinessFailed(Wide, s.pool, g), s.gate, o.(pc := ReadyDropping(g)))
  {
  }

  lemma ReadyDrops(s: Sys, id: nat, o: Opener, g: nat)
    requires o.pc == ReadyDropping(g)
    ensures var m := Advance(Wide, s, id, o, Go, 0);
            && m.pool == DropLease(s.pool, g, 0) && m.gate == s.gate
            && m.opener == if o.tries + 1 < MAX_READY_ATTEMPTS then o.(pc := Start, tries := o.tries + 1)
                           else o.(pc := Done)
  {
  }

  lemma ShakeFails(s: Sys, id: nat, o: Opener, g: nat, c: Choice)
    requires o.pc == Shaking(g) && (c.Fail? || c.Expire?)
    ensures Advance(Wide, s, id, o, c, 0) ==
            Move(s.pool, s.gate, o.(pc := ShakeFailed(g, if c.Fail? then c.kind else TimedOut)))
  {
  }

  lemma ShakeDrops(s: Sys, id: nat, o: Opener, g: nat, kind: FailKind)
    requires o.pc == ShakeFailed(g, kind)
    ensures Advance(Wide, s, id, o, Go, 0) == Move(DropLease(s.pool, g, 0), s.gate, o.(pc := Reporting(g, kind)))
  {
  }

  lemma StreamErrorReported(s: Sys, id: nat, o: Opener, g: nat)
    requires o.pc == Reporting(g, H2Error)
    ensures Advance(Wide, s, id, o, Go, 0) == Move(StreamOpenFailed(Wide, s.pool, g), s.gate, NextAttempt(o))
  {
  }

  lemma TimeoutReported(s: Sys, id: nat, o: Opener, g: nat, kind: FailKind)
    requires o.pc == Reporting(g, kind) && (kind.TimedOut? || kind.Stalled?)
    ensures var m, (retired, p) := Advance(Wide, s, id, o, Go, 0), HandshakeTimedOut(Wide, s.pool, g);
            && m.pool == p && m.gate == s.gate
            && m.opener == if retired && o.attempt + 1 < MAX_READY_ATTEMPTS then NextAttempt(o).(recovering := true)
                           else o.(pc := Done)
  {
  }

  lemma DropFrame(p: Pool, g: nat)
    ensures var p' := DropLease(p, g, 0);
            && (Cached(p', g) <==> Cached(p, g))
            && (Cached(p, g) ==> p'.connection.value.active == Dec(p.connection.value.active))
            && p'.readinessFailures == p.readinessFailures && p'.openFailures == p.openFailures
            && p'.handshakeTimeouts == p.handshakeTimeouts && p'.timeoutRetirements == p.timeoutRetirements
  {
  }

  lemma FailureCounts(p: Pool, g: nat)
    ensures ReadinessFailed(Wide, p, g).readinessFailures == p.readinessFailures + 1
    ensures StreamOpenFailed(Wide, p, g).openFailures == p.openFailures + 1
    ensures var (retired, p') := HandshakeTimedOut(Wide, p, g);
            && p'.handshakeTimeouts == p.handshakeTimeouts + 1
            && p'.timeoutRetirements == p.timeoutRetirements + if retired then 1 else 0
  {
  }

  /** The connection is not ready: it leaves the cache, the lease is dropped, and the opener looks again, once. */
  lemma NotReadyLooksAgain(s: Sys, id: nat, o: Opener, g: nat, kind: FailKind)
    requires At(s, id, o, s.gate) && o.pc == Readying(g)
    ensures var s' := Exec(Wide, s, ThreeSteps(id, Fail(kind)));
            var again := o.tries + 1 < MAX_READY_ATTEMPTS;
            && At(s', id, if again then o.(pc := Start, tries := o.tries + 1) else o.(pc := Done), s.gate)
            && !Cached(s'.pool, g) && s'.pool.readinessFailures == s.pool.readinessFailures + 1
  {
    hide Advance, Apply, Exec, ReadinessFailed, DropLease, Cached;
    ThreeAdvances(s, id, Fail(kind));
    ReadyFails(s, id, o, g, kind);
    var s1 := Apply(Wide, s, Step(id, Fail(kind), 0));
    ReadyInvalidates(s1, id, o.(pc := ReadyFailed(g)), g);
    var s2 := Apply(Wide, s1, Step(id, Go, 0));
    ReadyDrops(s2, id, o.(pc := ReadyDropping(g)), g);
    FailureUncaches(Wide, s.pool, g);
    FailureCounts(s.pool, g);
    DropFrame(s2.pool, g);
  }

  /** The stream cannot be opened: the lease is dropped, the connection leaves the cache, and the opener makes a second
      attempt, once. */
  lemma StreamErrorTriesAgain(s: Sys, id: nat, o: Opener, g: nat)
    requires At(s, id, o, s.gate) && o.pc == Shaking(g)
    ensures var s' := Exec(Wide, s, ThreeSteps(id, Fail(H2Error)));
            var again := o.attempt + 1 < MAX_READY_ATTEMPTS;
            && At(s', id, if again then o.(pc := Start, attempt := o.attempt + 1, tries := 0)
                          else o.(pc := Done), s.gate)
            && !Cached(s'.pool, g) && s'.pool.openFailures == s.pool.openFailures + 1
  {
    hide Advance, Apply, Exec, StreamOpenFailed, DropLease, Cached;
    ThreeAdvances(s, id, Fail(H2Error));
    ShakeFails(s, id, o, g, Fail(H2Error));
    var s1 := Apply(Wide, s, Step(id, Fail(H2Error), 0));
    ShakeDrops(s1, id, o.(pc := ShakeFailed(g, H2Error)), g, H2Error);
    var s2 := Apply(Wide, s1, Step(id, Go, 0));
    StreamErrorReported(s2, id, o.(pc := Reporting(g, H2Error)), g);
    DropFrame(s.pool, g);
    FailureUncaches(Wide, s2.pool, g);
    FailureCounts(s2.pool, g);
  }

  /** The handshake times out, or stalls, on the cached connection: it is retired exactly when nobody else uses it, and
      only then does the opener make a second attempt, as a recovery. */
  lemma TimeoutTriesAgainAlone(s: Sys, id: nat, o: Opener, g: nat, kind: FailKind)
    requires At(s, id, o, s.gate) && o.pc == Shaking(g) && Cached(s.pool, g) && (kind.TimedOut? || kind.Stalled?)
    ensures var s' := Exec(Wide, s, ThreeSteps(id, if kind.TimedOut? then Expire else Fail(kind)));
            var alone := s.pool.connection.value.active <= 1;
            var again := alone && o.attempt + 1 < MAX_READY_ATTEMPTS;
            && At(s', id, if again then o.(pc := Start, attempt := o.attempt + 1, tries := 0, recovering := true)
                          else o.(pc := Done), s.gate)
            && (Cached(s'.pool, g) <==> !alone)
            && s'.pool.handshakeTimeouts == s.pool.handshakeTimeouts + 1
            && s'.pool.timeoutRetirements == s.pool.timeoutRetirements + if alone then 1 else 0
  {
    hide Advance, Apply, Exec, HandshakeTimedOut, DropLease;
    var c := if kind.TimedOut? then Expire else Fail(kind);
    ThreeAdvances(s, id, c);
    ShakeFails(s, id, o, g, c);
    var s1 := Apply(Wide, s, Step(id, c, 0));
    ShakeDrops(s1, id, o.(pc := ShakeFailed(g, kind)), g, kind);
    var s2 := Apply(Wide, s1, Step(id, Go, 0));
    TimeoutReported(s2, id, o.(pc := Reporting(g, kind)), g, kind);
    DropFrame(s.pool, g);
    TimeoutExact(Wide, s2.pool, g);
    FailureCounts(s2.pool, g);
  }

  // ----- giving up -----

  /** Where an opener, or whoever has its tunnel, can be dropped. */
  predicate Waiting(pc: Pc)
  {
    pc.WaitGate? || pc.Dialing? || pc.Readying? || pc.Shaking? || pc.Open?
  }

  lemma CancelOf(s: Sys, id: nat)
    requires id in s.openers
    ensures var m, s' := Cancelled(s, s.openers[id]), Apply(Wide, s, Cancel(id));
            s'.pool == m.pool && At(s', id, m.opener, m.gate)
  {
    hide Cancelled, Holders;
  }

  lemma CancelThenDrop(s: Sys, id: nat, o: Opener, now: nat)
    requires At(s, id, o, s.gate) && Waiting(o.pc)
    ensures var s' := Exec(Wide, s, [Cancel(id)] + ([Step(id, Go, now)] + []));
            && At(s', id, o.(pc := Done), if o.pc.Dialing? then None else s.gate)
            && s'.pool == match Lease(o.pc) case None => s.pool case Some(g) => DropLease(s.pool, g, now)
  {
    hide Apply, Exec, DropLease;
    CancelOf(s, id);
    var s1 := Apply(Wide, s, Cancel(id));
    StepOf(s1, id, Go, now);
    ExecHead(s, Cancel(id), [Step(id, Go, now)] + []);
    ExecHead(s1, Step(id, Go, now), []);
    ExecNone(Apply(Wide, s1, Step(id, Go, now)));
  }

  /** Dropping an opener at any of its waits, or its tunnel later, gives everything back: the gate if it had it, and
      its lease, so that exactly one stream fewer is counted. */
  lemma CancelGivesBack(s: Sys, id: nat, o: Opener, now: nat)
    requires Reachable(s) && At(s, id, o, s.gate) && Waiting(o.pc)
    ensures var s' := Exec(Wide, s, [Cancel(id)] + ([Step(id, Go, now)] + []));
            && At(s', id, o.(pc := Done), s'.gate) && s'.gate != Some(id)
            && s'.pool.active == s.pool.active - if id in Holders(s.openers) then 1 else 0
  {
    ReachableInv(s);
    assert Lease(o.pc).Some? ==> id in Holders(s.openers) && s.pool.active == |Holders(s.openers)| > 0;
    assert s.gate == Some(id) ==> Gated(o.pc);
    hide Exec, Inv, Reachable;
    CancelThenDrop(s, id, o, now);
  }

  /** A dial that fails, and a wait for the gate that takes too long, end the opener; the gate is then free for others,
      or stays with whoever has it, and the pool is untouched. */
  lemma DialFailureFreesGate(s: Sys, id: nat, o: Opener, kind: FailKind, now: nat)
    requires At(s, id, o, s.gate) && (o.pc.Dialing? || o.pc.WaitGate?)
    ensures var s' := Apply(Wide, s, Step(id, if o.pc.Dialing? then Fail(kind) else Expire, now));
            s'.pool == s.pool && At(s', id, o.(pc := Done), if o.pc.Dialing? then None else s.gate)
  {
    StepOf(s, id, if o.pc.Dialing? then Fail(kind) else Expire, now);
    hide Apply;
  }

  /** Any other handshake error ends the opener at once: its lease is given back and the connection stays cached. */
  lemma OtherErrorGivesUp(s: Sys, id: nat, o: Opener, g: nat)
    requires At(s, id, o, s.gate) && o.pc == Shaking(g)
    ensures var s' := Exec(Wide, s, ThreeSteps(id, Fail(OtherError)));
            && At(s', id, o.(pc := Done), s.gate) && s'.pool == DropLease(s.pool, g, 0)
            && (Cached(s'.pool, g) <==> Cached(s.pool, g))
  {
    hide Advance, Apply, Exec, DropLease;
    ThreeAdvances(s, id, Fail(OtherError));
    ShakeFails(s, id, o, g, Fail(OtherError));
    var s1 := Apply(Wide, s, Step(id, Fail(OtherError), 0));
    ShakeDrops(s1, id, o.(pc := ShakeFailed(g, OtherError)), g, OtherError);
    var s2 := Apply(Wide, s1, Step(id, Go, 0));
    OtherErrorReported(s2, id, o.(pc := Reporting(g, OtherError)), g);
    DropFrame(s.pool, g);
  }

  lemma OtherErrorReported(s: Sys, id: nat, o: Opener, g: nat)
    requires o.pc == Reporting(g, OtherError)
    ensures Advance(Wide, s, id, o, Go, 0) == Move(s.pool, s.gate, o.(pc := Done))
  {
  }

  // ----- maintenance -----

  /** In every reachable state a maintenance round keeps the cached connection exactly when it is open and somebody
      holds a lease of it or it has been idle for less than the timeout; openers and gate are not concerned. */
  lemma MaintenanceRetiresIdle(s: Sys, now: nat, timeout: nat)
    requires Reachable(s) && s.pool.connection.Some?
    ensures var c, s' := s.pool.connection.value, Apply(Wide, s, Maintain(now, timeout));
            && s'.openers == s.openers && s'.gate == s.gate
            && (HoldersOf(s.openers, c.generation) == {} ==> c.idleSince.Some?)
            && (s'.pool.connection.Some? <==>
                && !c.closed
                && (HoldersOf(s.openers, c.generation) != {} || now - c.idleSince.value < timeout))
  {
    LeasesAreCounted(s);
    IdleExact(Wide, s.pool, now, timeout);
    hide RetireInactive, Reachable;
  }
}
