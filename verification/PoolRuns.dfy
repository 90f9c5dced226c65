/** What every run of the pool protocol keeps. */
module PoolRuns {
  import opened Bytes
  import opened PoolState
  import opened PoolProtocol

  // ----- generations -----

  lemma AdvanceGenerations(s: Sys, id: nat, o: Opener, c: Choice, now: nat)
    ensures var p, p' := s.pool, Advance(Wide, s, id, o, c, now).pool;
            || OnlyLoses(p, p')
            || (p'.connection.Some? && p'.connection.value.generation == p'.nextGeneration == p.nextGeneration + 1)
  {
    hide CheckoutCached, InstallAndCheckout, DropLease, ReadinessFailed, StreamOpenFailed, HandshakeTimedOut,
         TimeoutRecovered;
    CheckoutLoses(Wide, s.pool);
    match o.pc
    case Dialed(v, g) => InstallCaches(s.pool, v, g);
    case ReadyFailed(g) => OthersLose(Wide, s.pool, g, now);
    case ReadyDropping(g) => OthersLose(Wide, s.pool, g, now);
    case ShakeFailed(g, _) => OthersLose(Wide, s.pool, g, now);
    case Reporting(g, _) => OthersLose(Wide, s.pool, g, now);
    case Recording(g) => OthersLose(Wide, s.pool, g, now);
    case Dropping(g) => OthersLose(Wide, s.pool, g, now);
    case _ =>
  }

  /** A step either keeps the cached generation, drops it, or installs the next number. */
  lemma StepGenerations(s: Sys, e: Event)
    ensures var p, p' := s.pool, Apply(Wide, s, e).pool;
            && p.nextGeneration <= p'.nextGeneration
            && (p'.connection.Some? ==>
                  || Cached(p, p'.connection.value.generation)
                  || p.nextGeneration < p'.connection.value.generation == p'.nextGeneration)
  {
    hide Holders, Advance;
    if e.Step? && e.id in s.openers {
      AdvanceGenerations(s, e.id, s.openers[e.id], e.choice, e.now);
    }
  }

  /** Generations only grow, and one that has left the cache never comes back. */
  lemma {:induction false} GenerationsNeverReturn(s: Sys, es: seq<Event>)
    ensures var p, p' := s.pool, Exec(Wide, s, es).pool;
            && p.nextGeneration <= p'.nextGeneration
            && (p'.connection.Some? && p'.connection.value.generation <= p.nextGeneration ==>
                  Cached(p, p'.connection.value.generation))
    decreases |es|
  {
    if es != [] {
      StepGenerations(s, es[0]);
      GenerationsNeverReturn(Apply(Wide, s, es[0]), es[1..]);
      hide Apply;
    }
  }

  /** What one opener does with a generation that is not the cached one leaves the cached connection alone. */
  lemma StaleAdvance(s: Sys, id: nat, o: Opener, c: Choice, now: nat)
    requires Mark(o.pc).Some? && !Cached(s.pool, Mark(o.pc).value)
    ensures Advance(Wide, s, id, o, c, now).pool.connection == s.pool.connection
  {
  }

  /** A stale lease never changes a newer generation: in every reachable state an opener that holds a lease
      of another generation than the cached one, or is about to report a failure of one, is behind it, and
      whatever the opener does next, cancellation included, leaves the cached connection as it is. */
  lemma StaleLeaseIsHarmless(s: Sys, id: nat, c: Choice, now: nat)
    requires Reachable(s) && MarkAt(s.openers, id).Some? && s.pool.connection.Some?
    requires MarkAt(s.openers, id) != Some(s.pool.connection.value.generation)
    ensures MarkAt(s.openers, id).value < s.pool.connection.value.generation
    ensures Apply(Wide, s, Step(id, c, now)).pool.connection == s.pool.connection
    ensures Apply(Wide, s, Cancel(id)).pool.connection == s.pool.connection
  {
    ReachableInv(s);
    StaleAdvance(s, id, s.openers[id], c, now);
    hide Advance, Holders, HoldersOf;
  }

  lemma {:induction false} ExecAppend(w: Width, s: Sys, a: seq<Event>, b: seq<Event>)
    ensures Exec(w, s, a + b) == Exec(w, Exec(w, s, a), b)
    decreases |a|
  {
    hide Apply;
    if a == [] {
      assert a + b == b;
    } else {
      assert (a + b)[1..] == a[1..] + b;
      ExecAppend(w, Apply(w, s, a[0]), a[1..], b);
    }
  }

  /** And it stays that way: once a generation is not the cached one, no continuation of the run lets an
      opener that still has it, or ever gets to it, touch what is cached. */
  lemma StaleStaysHarmless(s: Sys, es: seq<Event>, id: nat, g: nat, c: Choice, now: nat)
    requires Reachable(s) && g <= s.pool.nextGeneration && !Cached(s.pool, g)
    requires MarkAt(Exec(Wide, s, es).openers, id) == Some(g)
    ensures var s' := Exec(Wide, s, es);
            && !Cached(s'.pool, g)
            && (s'.pool.connection.Some? ==> g < s'.pool.connection.value.generation)
            && Apply(Wide, s', Step(id, c, now)).pool.connection == s'.pool.connection
            && Apply(Wide, s', Cancel(id)).pool.connection == s'.pool.connection
  {
    var before :| s == Exec(Wide, Initial(), before);
    var s' := Exec(Wide, s, es);
    ExecAppend(Wide, Initial(), before, es);
    assert Reachable(s');
    GenerationsNeverReturn(s, es);
    assert !Cached(s'.pool, g);
    if s'.pool.connection.Some? {
      StaleLeaseIsHarmless(s', id, c, now);
    } else {
      StaleAdvance(s', id, s'.openers[id], c, now);
      hide Advance, Holders;
    }
  }

  // ----- connections that are over -----

  predicate Usable(p: Pool, g: nat)
  {
    Cached(p, g) && !p.connection.value.closed
  }

  /** A lease of a generation that cannot be used is not new. */
  lemma AdvanceLease(s: Sys, id: nat, o: Opener, c: Choice, now: nat, g: nat)
    requires !Usable(s.pool, g) && g <= s.pool.nextGeneration
    ensures Lease(Advance(Wide, s, id, o, c, now).opener.pc) == Some(g) ==> Lease(o.pc) == Some(g)
  {
    CheckoutExact(Wide, s.pool);
    if o.pc.Dialed? {
      InstallExact(Wide, s.pool, o.pc.version, o.pc.group);
    }
    hide CheckoutCached, InstallAndCheckout, DropLease, ReadinessFailed, StreamOpenFailed, HandshakeTimedOut,
         TimeoutRecovered;
  }

  /** No operation of the pool opens a connection again. */
  lemma ClosedStays(p: Pool, g: nat, k: nat, now: nat)
    requires !Usable(p, g)
    ensures !Usable(CheckoutCached(Wide, p).1, g) && !Usable(DropLease(p, k, now), g)
    ensures !Usable(ReadinessFailed(Wide, p, k), g) && !Usable(StreamOpenFailed(Wide, p, k), g)
    ensures !Usable(HandshakeTimedOut(Wide, p, k).1, g) && !Usable(TimeoutRecovered(Wide, p), g)
  {
  }

  lemma AdvanceUsable(s: Sys, id: nat, o: Opener, c: Choice, now: nat, g: nat)
    requires !Usable(s.pool, g) && g <= s.pool.nextGeneration
    ensures !Usable(Advance(Wide, s, id, o, c, now).pool, g)
  {
    ClosedStays(s.pool, g, if Mark(o.pc).Some? then Mark(o.pc).value else 0, now);
    if o.pc.Dialed? {
      InstallExact(Wide, s.pool, o.pc.version, o.pc.group);
    }
    hide CheckoutCached, InstallAndCheckout, DropLease, ReadinessFailed, StreamOpenFailed, HandshakeTimedOut,
         TimeoutRecovered, Usable;
  }

  lemma StepLeases(s: Sys, e: Event, g: nat)
    requires !Usable(s.pool, g) && g <= s.pool.nextGeneration
    ensures !Usable(Apply(Wide, s, e).pool, g) && HoldersOf(Apply(Wide, s, e).openers, g) <= HoldersOf(s.openers, g)
  {
    if e.Step? && e.id in s.openers {
      AdvanceLease(s, e.id, s.openers[e.id], e.choice, e.now, g);
      AdvanceUsable(s, e.id, s.openers[e.id], e.choice, e.now, g);
    }
    hide Advance, Holders;
  }

  lemma {:induction false} NoNewLeases(s: Sys, es: seq<Event>, g: nat)
    requires !Usable(s.pool, g) && g <= s.pool.nextGeneration
    ensures !Usable(Exec(Wide, s, es).pool, g) && HoldersOf(Exec(Wide, s, es).openers, g) <= HoldersOf(s.openers, g)
    decreases |es|
  {
    hide Apply, HoldersOf, Usable;
    if es != [] {
      StepGenerations(s, es[0]);
      StepLeases(s, es[0], g);
      NoNewLeases(Apply(Wide, s, es[0]), es[1..], g);
    }
  }

  /** A connection whose driver has ended is never handed out again: whatever the run does next, no further lease of its
      generation is given, and it is never usable again. */
  lemma EndedConnectionIsGone(s: Sys, es: seq<Event>, g: nat)
    requires Reachable(s) && Cached(s.pool, g)
    ensures var s' := Exec(Wide, Apply(Wide, s, ConnectionEnds), es);
            !Usable(s'.pool, g) && HoldersOf(s'.openers, g) <= HoldersOf(s.openers, g)
  {
    ReachableInv(s);
    hide Exec, HoldersOf, Inv, Reachable;
    NoNewLeases(Apply(Wide, s, ConnectionEnds), es, g);
  }

  /** The generation an opener is about to take out of the cache because it failed. */
  function FailedGeneration(pc: Pc): (g: Option<nat>)
  {
    match pc
    case ReadyFailed(g) => Some(g)
    case Reporting(g, kind) => if kind.H2Error? then Some(g) else None
    case _ => None
  }

  /** A connection that has failed is never used again: once the opener that saw the failure has taken its next step,
      no continuation of the run caches that generation or gives out another lease of it. */
  lemma FailedConnectionIsGone(s: Sys, id: nat, c: Choice, now: nat, es: seq<Event>, g: nat)
    requires Reachable(s) && id in s.openers && FailedGeneration(s.openers[id].pc) == Some(g)
    ensures var s1 := Apply(Wide, s, Step(id, c, now));
            var s' := Exec(Wide, s1, es);
            && !Cached(s1.pool, g) && !Cached(s'.pool, g)
            && HoldersOf(s1.openers, g) <= HoldersOf(s.openers, g)
            && HoldersOf(s'.openers, g) <= HoldersOf(s1.openers, g)
  {
    ReachableInv(s);
    assert Mark(s.openers[id].pc) == Some(g) && g <= s.pool.nextGeneration;
    hide Apply, Inv, HoldersOf, Reachable;
    FailureStep(s, id, c, now, g);
    NoNewLeases(Apply(Wide, s, Step(id, c, now)), es, g);
    GenerationsNeverReturn(Apply(Wide, s, Step(id, c, now)), es);
  }

  lemma FailureStep(s: Sys, id: nat, c: Choice, now: nat, g: nat)
    requires id in s.openers && FailedGeneration(s.openers[id].pc) == Some(g)
    ensures var s1 := Apply(Wide, s, Step(id, c, now));
            && s1.pool.nextGeneration == s.pool.nextGeneration && !Cached(s1.pool, g)
            && HoldersOf(s1.openers, g) <= HoldersOf(s.openers, g)
  {
    FailureUncaches(Wide, s.pool, g);
    OthersLose(Wide, s.pool, g, now);
    var m := Advance(Wide, s, id, s.openers[id], c, now);
    assert Lease(m.opener.pc) == Some(g) ==> Lease(s.openers[id].pc) == Some(g);
    assert m.pool == ReadinessFailed(Wide, s.pool, g) || m.pool == StreamOpenFailed(Wide, s.pool, g);
    hide Advance, Holders, ReadinessFailed, StreamOpenFailed;
  }

  // ----- shutdown -----

  function LeasesTaken(s: Sys, id: nat): (n: nat)
  {
    if id in s.openers then s.openers[id].leases else 0
  }

  lemma ShutOpenerTakesNothing(w: Width, s: Sys, id: nat, o: Opener, c: Choice, now: nat)
    requires s.pool.shutdown
    ensures Advance(w, s, id, o, c, now).opener.leases == o.leases
  {
    ShutPoolRefuses(w, s.pool);
    hide CheckoutCached, InstallAndCheckout, DropLease, ReadinessFailed, StreamOpenFailed, HandshakeTimedOut,
         TimeoutRecovered;
  }

  lemma AdvanceAfterShutdown(w: Width, s: Sys, id: nat, o: Opener, c: Choice, now: nat)
    requires s.pool.shutdown && s.pool.connection.None?
    ensures var p := Advance(w, s, id, o, c, now).pool; p.shutdown && p.connection.None?
  {
    ShutPoolRefuses(w, s.pool);
    hide CheckoutCached, InstallAndCheckout, DropLease, ReadinessFailed, StreamOpenFailed, HandshakeTimedOut,
         TimeoutRecovered;
    match o.pc
    case ReadyFailed(g) => OthersLose(w, s.pool, g, now);
    case ReadyDropping(g) => OthersLose(w, s.pool, g, now);
    case ShakeFailed(g, _) => OthersLose(w, s.pool, g, now);
    case Reporting(g, _) => OthersLose(w, s.pool, g, now);
    case Recording(g) => OthersLose(w, s.pool, g, now);
    case Dropping(g) => OthersLose(w, s.pool, g, now);
    case _ =>
  }

  lemma ShutPoolRefuses(w: Width, p: Pool)
    requires p.shutdown
    ensures CheckoutCached(w, p) == (IsShutDown, p)
    ensures forall v, g :: InstallAndCheckout(w, p, v, g) == (IsShutDown, p)
  {
  }

  lemma StepAfterShutdown(w: Width, s: Sys, e: Event)
    requires s.pool.shutdown && s.pool.connection.None?
    ensures var s' := Apply(w, s, e);
            && s'.pool.shutdown && s'.pool.connection.None?
            && forall id :: LeasesTaken(s', id) == LeasesTaken(s, id)
  {
    hide Holders, Advance;
    if e.Step? && e.id in s.openers {
      AdvanceAfterShutdown(w, s, e.id, s.openers[e.id], e.choice, e.now);
      ShutOpenerTakesNothing(w, s, e.id, s.openers[e.id], e.choice, e.now);
    }
  }

  /** Shutdown is absorbing: from then on nothing is cached again and no opener, old or new, gets a lease. */
  lemma {:induction false} ShutdownIsFinal(w: Width, s: Sys, es: seq<Event>)
    requires s.pool.shutdown && s.pool.connection.None?
    ensures var s' := Exec(w, s, es);
            && s'.pool.shutdown && s'.pool.connection.None?
            && forall id :: LeasesTaken(s', id) == LeasesTaken(s, id)
    decreases |es|
  {
    if es != [] {
      StepAfterShutdown(w, s, es[0]);
      ShutdownIsFinal(w, Apply(w, s, es[0]), es[1..]);
      hide Apply;
    }
  }

  /** The shutdown call itself reaches such a state, whatever came before. */
  lemma ShutdownThenFinal(w: Width, s: Sys, es: seq<Event>)
    ensures var s' := Exec(w, Apply(w, s, ShutdownPool), es);
            s'.pool.shutdown && s'.pool.connection.None?
  {
    ShutdownIsFinal(w, Apply(w, s, ShutdownPool), es);
  }
}
