/** The pool protocol: any number of openers run `open_h2` side by side, each step either under the state
    mutex or at an await, with the connect gate, cancellation at every await, the maintenance task, the
    connection's own end and shutdown interleaved at will. */
module PoolProtocol {
  import opened Bytes
  import opened PoolState

  const MAX_READY_ATTEMPTS: nat := 2

  datatype FailKind = Stalled | TimedOut | H2Error | OtherError

  /** Where an opener is; the generation is that of the lease it took last. */
  datatype Pc =
    | Start                                   // about to look at the cache
    | WaitGate                                // waiting for the connect gate
    | Recheck                                 // holds the gate, about to look again
    | Dialing                                 // holds the gate, connecting
    | Dialed(version: TlsVersion, group: TlsGroup)  // holds the gate, about to install
    | LeavingGate(generation: nat)            // has its lease, about to let go of the gate
    | Readying(generation: nat)               // waiting for the sender to be ready
    | ReadyFailed(generation: nat)            // about to invalidate, lease still held
    | ReadyDropping(generation: nat)          // invalidated, lease still held
    | Shaking(generation: nat)                // tunnel handshake
    | ShakeFailed(generation: nat, kind: FailKind)  // handshake over, its lease about to be dropped
    | Reporting(generation: nat, kind: FailKind)    // lease dropped, about to report the failure
    | Recording(generation: nat)              // handshake done, about to count a recovery
    | Open(generation: nat)                   // the caller has the tunnel
    | Dropping(generation: nat)               // error or cancellation, lease about to be dropped
    | Done

  datatype Opener = Opener(pc: Pc, attempt: nat, tries: nat, recovering: bool, leases: nat)

  datatype Sys = Sys(
    pool: Pool,
    gate: Option<nat>,
    openers: map<nat, Opener>,
    peak: nat)  // the most leases ever live at once

  /** How a wait turns out. */
  datatype Choice = Go | Fail(kind: FailKind) | Expire | Connected(version: TlsVersion, group: TlsGroup)

  datatype Event =
    | Begin(id: nat)
    | Step(id: nat, choice: Choice, now: nat)
    | Cancel(id: nat)              // at an await; for an open tunnel, closing it
    | ConnectionEnds
    | Maintain(now: nat, idleTimeout: nat)
    | ShutdownPool

  function Initial(): (s: Sys)
  {
    Sys(Empty(), None, map[], 0)
  }

  /** The generation of the lease an opener holds. */
  function Lease(pc: Pc): (g: Option<nat>)
  {
    match pc
    case LeavingGate(g) => Some(g)
    case Readying(g) => Some(g)
    case ReadyFailed(g) => Some(g)
    case ReadyDropping(g) => Some(g)
    case Shaking(g) => Some(g)
    case ShakeFailed(g, _) => Some(g)
    case Recording(g) => Some(g)
    case Open(g) => Some(g)
    case Dropping(g) => Some(g)
    case _ => None
  }

  /** The generation an opener may still act on: that of its lease, or the one it is about to report. */
  function Mark(pc: Pc): (g: Option<nat>)
    ensures Lease(pc).Some? ==> g == Lease(pc)
  {
    if pc.Reporting? then Some(pc.generation) else Lease(pc)
  }

  predicate Gated(pc: Pc)
  {
    pc.Recheck? || pc.Dialing? || pc.Dialed? || pc.LeavingGate?
  }

  predicate Connecting(pc: Pc)
  {
    pc.Dialing? || pc.Dialed?
  }

  function Holders(m: map<nat, Opener>): (ids: set<nat>)
  {
    set id | id in m && Lease(m[id].pc).Some?
  }

  function HoldersOf(m: map<nat, Opener>, g: nat): (ids: set<nat>)
  {
    set id | id in m && Lease(m[id].pc) == Some(g)
  }

  function Recovering(m: map<nat, Opener>): (ids: set<nat>)
  {
    set id | id in m && m[id].recovering
  }

  /** The outcome of one step of one opener. */
  datatype Move = Move(pool: Pool, gate: Option<nat>, opener: Opener)

  function Took(o: Opener, pc: Pc): (o': Opener)
  {
    o.(pc := pc, leases := o.leases + 1)
  }

  /** The next iteration of the outer loop, or its error. */
  function NextAttempt(o: Opener): (o': Opener)
  {
    if o.attempt + 1 < MAX_READY_ATTEMPTS then o.(pc := Start, attempt := o.attempt + 1, tries := 0) else o.(pc := Done)
  }

  /** Look at the cache, without the gate or with it. */
  function FromCache(w: Width, s: Sys, o: Opener, gated: bool): (m: Move)
  {
    var (r, p) := CheckoutCached(w, s.pool);
    match r
    case Leased(g) => Move(p, s.gate, Took(o, if gated then LeavingGate(g) else Readying(g)))
    case NoConnection => Move(p, s.gate, o.(pc := if gated then Dialing else WaitGate))
    case _ => Move(p, if gated then None else s.gate, o.(pc := Done))
  }

  function Advance(w: Width, s: Sys, id: nat, o: Opener, c: Choice, now: nat): (m: Move)
  {
    var stay := Move(s.pool, s.gate, o);
    match o.pc
    case Start => FromCache(w, s, o, false)
    case WaitGate =>
      if c.Expire? then Move(s.pool, s.gate, o.(pc := Done))
      else if s.gate.None? then Move(s.pool, Some(id), o.(pc := Recheck))
      else stay
    case Recheck => FromCache(w, s, o, true)
    case Dialing =>
      if c.Connected? then Move(s.pool, s.gate, o.(pc := Dialed(c.version, c.group)))
      else if c.Fail? then Move(s.pool, None, o.(pc := Done))
      else stay
    case Dialed(v, g) =>
      var (r, p) := InstallAndCheckout(w, s.pool, v, g);
      if r.Leased? then Move(p, s.gate, Took(o, LeavingGate(r.generation))) else Move(p, None, o.(pc := Done))
    case LeavingGate(g) => Move(s.pool, None, o.(pc := Readying(g)))
    case Readying(g) =>
      (match c
       case Go => Move(s.pool, s.gate, o.(pc := Shaking(g)))
       case Fail(_) => Move(s.pool, s.gate, o.(pc := ReadyFailed(g)))
       case Expire => Move(s.pool, s.gate, o.(pc := Dropping(g)))
       case _ => stay)
    case ReadyFailed(g) => Move(ReadinessFailed(w, s.pool, g), s.gate, o.(pc := ReadyDropping(g)))
    case ReadyDropping(g) =>
      Move(DropLease(s.pool, g, now), s.gate,
           if o.tries + 1 < MAX_READY_ATTEMPTS then o.(pc := Start, tries := o.tries + 1) else o.(pc := Done))
    case Shaking(g) =>
      (match c
       case Go => Move(s.pool, s.gate, o.(pc := Recording(g)))
       case Fail(k) => Move(s.pool, s.gate, o.(pc := ShakeFailed(g, k)))
       case Expire => Move(s.pool, s.gate, o.(pc := ShakeFailed(g, TimedOut)))
       case _ => stay)
    case ShakeFailed(g, k) => Move(DropLease(s.pool, g, now), s.gate, o.(pc := Reporting(g, k)))
    case Reporting(g, k) =>
      (match k
       case OtherError => Move(s.pool, s.gate, o.(pc := Done))
       case H2Error => Move(StreamOpenFailed(w, s.pool, g), s.gate, NextAttempt(o))
       case _ =>
         var (retired, p) := HandshakeTimedOut(w, s.pool, g);
         if retired && o.attempt + 1 < MAX_READY_ATTEMPTS
         then Move(p, s.gate, NextAttempt(o).(recovering := true))
         else Move(p, s.gate, o.(pc := Done)))
    case Recording(g) =>
      if o.recovering then Move(TimeoutRecovered(w, s.pool), s.gate, o.(pc := Open(g), recovering := false))
      else Move(s.pool, s.gate, o.(pc := Open(g)))
    case Dropping(g) => Move(DropLease(s.pool, g, now), s.gate, o.(pc := Done))
    case _ => stay
  }

  /** Dropping the future at an await: the gate goes with it, a lease is dropped next. */
  function Cancelled(s: Sys, o: Opener): (m: Move)
  {
    match o.pc
    case WaitGate => Move(s.pool, s.gate, o.(pc := Done))
    case Dialing => Move(s.pool, None, o.(pc := Done))
    case Readying(g) => Move(s.pool, s.gate, o.(pc := Dropping(g)))
    case Shaking(g) => Move(s.pool, s.gate, o.(pc := Dropping(g)))
    case Open(g) => Move(s.pool, s.gate, o.(pc := Dropping(g)))
    case _ => Move(s.pool, s.gate, o)
  }

  function Perform(s: Sys, id: nat, m: Move): (s': Sys)
  {
    var openers := s.openers[id := m.opener];
    Sys(m.pool, m.gate, openers, if |Holders(openers)| > s.peak then |Holders(openers)| else s.peak)
  }

  /** One step; an event that is not enabled changes nothing. */
  function Apply(w: Width, s: Sys, e: Event): (s': Sys)
  {
    match e
    case Begin(id) =>
      if id in s.openers then s else Perform(s, id, Move(s.pool, s.gate, Opener(Start, 0, 0, false, 0)))
    case Step(id, c, now) => if id in s.openers then Perform(s, id, Advance(w, s, id, s.openers[id], c, now)) else s
    case Cancel(id) => if id in s.openers then Perform(s, id, Cancelled(s, s.openers[id])) else s
    case ConnectionEnds => s.(pool := MarkClosed(s.pool))
    case Maintain(now, timeout) => s.(pool := RetireInactive(w, s.pool, now, timeout))
    case ShutdownPool => s.(pool := ShutDown(s.pool))
  }

  function Exec(w: Width, s: Sys, es: seq<Event>): (s': Sys)
    decreases |es|
  {
    if es == [] then s else Exec(w, Apply(w, s, es[0]), es[1..])
  }

  // ----- leases are accounted for -----

  /** The counters are the live leases: all of them, and those of the cached generation. */
  predicate Accounted(p: Pool, m: map<nat, Opener>)
  {
    && p.active == |Holders(m)|
    && (forall id :: id in m && Mark(m[id].pc).Some? ==> Mark(m[id].pc).value <= p.nextGeneration)
    && (p.connection.Some? ==>
          var c := p.connection.value;
          && c.generation == p.nextGeneration
          && c.active == |HoldersOf(m, c.generation)|
          && (c.idleSince.Some? <==> c.active == 0))
  }

  function LeaseAt(m: map<nat, Opener>, id: nat): (g: Option<nat>)
  {
    if id in m then Lease(m[id].pc) else None
  }

  function MarkAt(m: map<nat, Opener>, id: nat): (g: Option<nat>)
  {
    if id in m then Mark(m[id].pc) else None
  }

  /** The opener ends up with no generation it did not already have. */
  predicate NoNewMark(m: map<nat, Opener>, id: nat, o: Opener)
  {
    Mark(o.pc).None? || Mark(o.pc) == MarkAt(m, id)
  }

  lemma HoldersUpdate(m: map<nat, Opener>, id: nat, o: Opener)
    ensures |Holders(m[id := o])| ==
            |Holders(m)| - (if LeaseAt(m, id).Some? then 1 else 0) + (if Lease(o.pc).Some? then 1 else 0)
  {
    assert Holders(m[id := o]) == if Lease(o.pc).Some? then Holders(m) + {id} else Holders(m) - {id};
  }

  lemma HoldersOfUpdate(m: map<nat, Opener>, id: nat, o: Opener, g: nat)
    ensures |HoldersOf(m[id := o], g)| ==
            |HoldersOf(m, g)| - (if LeaseAt(m, id) == Some(g) then 1 else 0) + (if Lease(o.pc) == Some(g) then 1 else 0)
  {
    var before := HoldersOf(m, g);
    assert HoldersOf(m[id := o], g) == if Lease(o.pc) == Some(g) then before + {id} else before - {id};
  }

  /** Nothing about leases changed: the cached connection is the same one or gone. */
  predicate SameLeases(p: Pool, p': Pool)
  {
    && p'.active == p.active && p'.nextGeneration == p.nextGeneration
    && (p'.connection.Some? ==>
          && p.connection.Some?
          && p'.connection.value.generation == p.connection.value.generation
          && p'.connection.value.active == p.connection.value.active
          && p'.connection.value.idleSince == p.connection.value.idleSince)
  }

  lemma AccountSame(p: Pool, p': Pool, m: map<nat, Opener>, id: nat, o: Opener)
    requires Accounted(p, m) && SameLeases(p, p') && Lease(o.pc) == LeaseAt(m, id) && NoNewMark(m, id, o)
    ensures Accounted(p', m[id := o])
  {
    HoldersUpdate(m, id, o);
    if p.connection.Some? {
      HoldersOfUpdate(m, id, o, p.connection.value.generation);
    }
    hide Holders, HoldersOf;
  }

  lemma AccountTake(p: Pool, m: map<nat, Opener>, id: nat, o: Opener)
    requires Accounted(p, m) && LeaseAt(m, id).None?
    requires CheckoutCached(Wide, p).0.Leased? && Lease(o.pc) == Some(CheckoutCached(Wide, p).0.generation)
    ensures Accounted(CheckoutCached(Wide, p).1, m[id := o])
  {
    HoldersUpdate(m, id, o);
    HoldersOfUpdate(m, id, o, p.connection.value.generation);
    hide Holders, HoldersOf;
  }

  lemma AccountMiss(p: Pool)
    requires !CheckoutCached(Wide, p).0.Leased?
    ensures SameLeases(p, CheckoutCached(Wide, p).1)
  {
  }

  lemma AccountInstall(p: Pool, m: map<nat, Opener>, id: nat, o: Opener, v: TlsVersion, g: TlsGroup)
    requires Accounted(p, m) && LeaseAt(m, id).None?
    requires InstallAndCheckout(Wide, p, v, g).0.Leased?
    requires Lease(o.pc) == Some(InstallAndCheckout(Wide, p, v, g).0.generation)
    ensures Accounted(InstallAndCheckout(Wide, p, v, g).1, m[id := o])
  {
    var generation := p.nextGeneration + 1;
    HoldersUpdate(m, id, o);
    HoldersOfUpdate(m, id, o, generation);
    assert HoldersOf(m, generation) == {};
    hide Holders, HoldersOf;
  }

  lemma AccountDrop(p: Pool, m: map<nat, Opener>, id: nat, o: Opener, g: nat, now: nat)
    requires Accounted(p, m) && LeaseAt(m, id) == Some(g) && Lease(o.pc).None? && NoNewMark(m, id, o)
    ensures Accounted(DropLease(p, g, now), m[id := o])
  {
    HoldersUpdate(m, id, o);
    assert id in Holders(m);
    if p.connection.Some? {
      HoldersOfUpdate(m, id, o, p.connection.value.generation);
      assert g == p.connection.value.generation ==> id in HoldersOf(m, g);
    }
    hide Holders, HoldersOf;
  }

  lemma AdvanceAccounted(s: Sys, id: nat, c: Choice, now: nat)
    requires Accounted(s.pool, s.openers) && id in s.openers
    ensures var m := Advance(Wide, s, id, s.openers[id], c, now);
            Accounted(m.pool, s.openers[id := m.opener])
  {
    hide Accounted, CheckoutCached, InstallAndCheckout, DropLease;
    var o := s.openers[id];
    var m := Advance(Wide, s, id, o, c, now);
    match o.pc
    case Start =>
      if CheckoutCached(Wide, s.pool).0.Leased? {
        AccountTake(s.pool, s.openers, id, m.opener);
      } else {
        AccountMiss(s.pool);
        AccountSame(s.pool, m.pool, s.openers, id, m.opener);
      }
    case Recheck =>
      if CheckoutCached(Wide, s.pool).0.Leased? {
        AccountTake(s.pool, s.openers, id, m.opener);
      } else {
        AccountMiss(s.pool);
        AccountSame(s.pool, m.pool, s.openers, id, m.opener);
      }
    case Dialed(v, g) =>
      if InstallAndCheckout(Wide, s.pool, v, g).0.Leased? {
        AccountInstall(s.pool, s.openers, id, m.opener, v, g);
      } else {
        assert m.pool == s.pool by {
          InstallRefused(s.pool, v, g);
        }
        AccountSame(s.pool, m.pool, s.openers, id, m.opener);
      }
    case ReadyDropping(g) => AccountDrop(s.pool, s.openers, id, m.opener, g, now);
    case ShakeFailed(g, _) => AccountDrop(s.pool, s.openers, id, m.opener, g, now);
    case Dropping(g) => AccountDrop(s.pool, s.openers, id, m.opener, g, now);
    case _ => AccountSame(s.pool, m.pool, s.openers, id, m.opener);
  }

  lemma InstallRefused(p: Pool, v: TlsVersion, g: TlsGroup)
    requires !InstallAndCheckout(Wide, p, v, g).0.Leased?
    ensures InstallAndCheckout(Wide, p, v, g).1 == p
  {
  }

  // ----- the gate -----

  /** The opener in the gated section is the holder of the gate, and while it connects nothing is cached. */
  predicate GateOk(s: Sys)
  {
    && (forall id :: id in s.openers && Gated(s.openers[id].pc) ==> s.gate == Some(id))
    && (s.gate.Some? ==> s.gate.value in s.openers && Gated(s.openers[s.gate.value].pc))
    && (forall id :: id in s.openers && Connecting(s.openers[id].pc) ==> s.pool.connection.None?)
    && (s.pool.shutdown ==> s.pool.connection.None?)
  }

  /** What a move must do for the gate to stay with the opener in the gated section. */
  predicate GateMove(s: Sys, id: nat, m: Move)
  {
    CacheMove(s, id, m) && GatePasses(s, id, m)
  }

  predicate CacheMove(s: Sys, id: nat, m: Move)
  {
    && m.pool.shutdown == s.pool.shutdown
    && (m.pool.connection.Some? ==>
          s.pool.connection.Some? || (s.gate == Some(id) && !Connecting(m.opener.pc) && !s.pool.shutdown))
    && (Connecting(m.opener.pc) ==> m.pool.connection.None? && s.gate == Some(id))
  }

  predicate GatePasses(s: Sys, id: nat, m: Move)
  {
    && m.gate == (if Gated(m.opener.pc) then Some(id) else if s.gate == Some(id) then None else s.gate)
    && (Gated(m.opener.pc) ==> s.gate.None? || s.gate == Some(id))
  }

  lemma MoveKeepsGate(s: Sys, id: nat, m: Move)
    requires GateOk(s) && GateMove(s, id, m)
    ensures GateOk(Perform(s, id, m))
  {
    hide Holders;
    var s' := Perform(s, id, m);
    forall i | i in s'.openers && Connecting(s'.openers[i].pc)
      ensures s'.pool.connection.None?
    {
      if i != id {
        assert s.gate == Some(i);
      }
    }
  }

  /** What a pool operation may do to the cache without the gate: keep the connection or lose it. */
  predicate OnlyLoses(p: Pool, p': Pool)
  {
    && p'.shutdown == p.shutdown && p'.nextGeneration == p.nextGeneration
    && (p'.connection.Some? ==> Cached(p, p'.connection.value.generation))
  }

  lemma CheckoutLoses(w: Width, p: Pool)
    ensures OnlyLoses(p, CheckoutCached(w, p).1)
    ensures CheckoutCached(w, p).0.NoConnection? ==> CheckoutCached(w, p).1.connection.None?
    ensures CheckoutCached(w, p).0 != Changed
  {
  }

  lemma OthersLose(w: Width, p: Pool, g: nat, now: nat)
    ensures OnlyLoses(p, DropLease(p, g, now))
    ensures OnlyLoses(p, ReadinessFailed(w, p, g)) && OnlyLoses(p, StreamOpenFailed(w, p, g))
    ensures OnlyLoses(p, HandshakeTimedOut(w, p, g).1) && OnlyLoses(p, TimeoutRecovered(w, p))
  {
  }

  lemma InstallCaches(p: Pool, v: TlsVersion, g: TlsGroup)
    ensures var (r, p') := InstallAndCheckout(Wide, p, v, g);
            && p'.shutdown == p.shutdown
            && if r.Leased? then
                 && !p.shutdown && p'.connection.Some?
                 && p'.connection.value.generation == p'.nextGeneration == p.nextGeneration + 1
               else p' == p
  {
  }

  lemma AdvancePassesGate(s: Sys, id: nat, o: Opener, c: Choice, now: nat)
    requires s.gate == Some(id) <==> Gated(o.pc)
    ensures GatePasses(s, id, Advance(Wide, s, id, o, c, now))
  {
    assert CheckoutCached(Wide, s.pool).0 != Changed by {
      CheckoutLoses(Wide, s.pool);
    }
    hide CheckoutCached, InstallAndCheckout, DropLease, ReadinessFailed, StreamOpenFailed, HandshakeTimedOut,
         TimeoutRecovered;
  }

  lemma AdvanceMovesCache(s: Sys, id: nat, o: Opener, c: Choice, now: nat)
    requires s.gate == Some(id) <==> Gated(o.pc)
    requires Connecting(o.pc) ==> s.pool.connection.None?
    ensures CacheMove(s, id, Advance(Wide, s, id, o, c, now))
  {
    hide CheckoutCached, InstallAndCheckout, DropLease, ReadinessFailed, StreamOpenFailed, HandshakeTimedOut,
         TimeoutRecovered;
    match o.pc
    case Start => CheckoutLoses(Wide, s.pool);
    case Recheck => CheckoutLoses(Wide, s.pool);
    case Dialed(v, g) => InstallCaches(s.pool, v, g);
    case ReadyFailed(g) => OthersLose(Wide, s.pool, g, now);
    case ReadyDropping(g) => OthersLose(Wide, s.pool, g, now);
    case ShakeFailed(g, _) => OthersLose(Wide, s.pool, g, now);
    case Reporting(g, _) => OthersLose(Wide, s.pool, g, now);
    case Recording(g) => OthersLose(Wide, s.pool, g, now);
    case Dropping(g) => OthersLose(Wide, s.pool, g, now);
    case _ =>
  }

  lemma AdvanceKeepsGate(s: Sys, id: nat, c: Choice, now: nat)
    requires GateOk(s) && id in s.openers
    ensures GateOk(Perform(s, id, Advance(Wide, s, id, s.openers[id], c, now)))
  {
    var o := s.openers[id];
    assert (s.gate == Some(id) <==> Gated(o.pc)) && (Connecting(o.pc) ==> s.pool.connection.None?);
    hide Advance, CacheMove, GatePasses, GateOk, Perform;
    AdvanceMovesCache(s, id, o, c, now);
    AdvancePassesGate(s, id, o, c, now);
    MoveKeepsGate(s, id, Advance(Wide, s, id, o, c, now));
  }

  // ----- each opener -----

  /** Loop counters in range, and at most two leases per attempt: one per try. */
  predicate OpenerOk(o: Opener)
  {
    && o.attempt < MAX_READY_ATTEMPTS && o.tries < MAX_READY_ATTEMPTS
    && o.leases <= 2 * o.attempt + o.tries +
         (if o.pc.Start? || o.pc.WaitGate? || o.pc.Recheck? || o.pc.Dialing? || o.pc.Dialed? then 0 else 1)
    && (o.recovering ==> o.attempt == 1)
  }

  lemma AdvanceKeepsOpener(w: Width, s: Sys, id: nat, o: Opener, c: Choice, now: nat)
    requires OpenerOk(o)
    ensures OpenerOk(Advance(w, s, id, o, c, now).opener)
  {
    hide CheckoutCached, InstallAndCheckout, DropLease, HandshakeTimedOut;
  }

  // ----- conservation -----

  /** Every created connection is cached or was counted when it went; every stream either came with a new
      connection or reused one; every recovery, made or still possible, follows its own retirement. */
  predicate Conserved(p: Pool, m: map<nat, Opener>)
  {
    Balanced(p, |Recovering(m)|)
  }

  predicate Balanced(p: Pool, recovering: nat)
  {
    && p.created == p.nextGeneration
    && p.streamsOpened == p.created + p.streamsReused
    && p.reconnects == (if p.created == 0 then 0 else p.created - 1)
    && p.created <= (if p.connection.Some? then 1 else 0) + Losses(p)
    && p.timeoutRecoveries + recovering <= p.timeoutRetirements <= p.handshakeTimeouts
    && Partitioned(p)
  }

  /** The ways a cached connection can go. */
  function Losses(p: Pool): (n: nat)
  {
    p.closedRetirements + p.idleRetirements + p.timeoutRetirements + p.readinessFailures + p.openFailures
    + (if p.shutdown then 1 else 0)
  }

  lemma RecoveringUpdate(m: map<nat, Opener>, id: nat, o: Opener)
    ensures |Recovering(m[id := o])| ==
            |Recovering(m)| - (if id in m && m[id].recovering then 1 else 0) + (if o.recovering then 1 else 0)
  {
    assert Recovering(m[id := o]) == if o.recovering then Recovering(m) + {id} else Recovering(m) - {id};
  }

  lemma CheckoutBalances(p: Pool, r: nat)
    requires Balanced(p, r)
    ensures Balanced(CheckoutCached(Wide, p).1, r)
  {
  }

  lemma InstallBalances(p: Pool, r: nat, v: TlsVersion, g: TlsGroup)
    requires Balanced(p, r)
    ensures Balanced(InstallAndCheckout(Wide, p, v, g).1, r)
  {
    InstallKeepsPartition(Wide, p, v, g);
    hide Partitioned;
  }

  lemma DropBalances(p: Pool, r: nat, g: nat, now: nat)
    requires Balanced(p, r)
    ensures Balanced(DropLease(p, g, now), r)
  {
  }

  lemma FailureBalances(p: Pool, r: nat, g: nat)
    requires Balanced(p, r)
    ensures Balanced(ReadinessFailed(Wide, p, g), r) && Balanced(StreamOpenFailed(Wide, p, g), r)
  {
  }

  lemma TimeoutBalances(p: Pool, r: nat, g: nat)
    requires Balanced(p, r)
    ensures var (retired, p') := HandshakeTimedOut(Wide, p, g);
            Balanced(p', r) && (retired ==> Balanced(p', r + 1))
  {
  }

  lemma AdvanceConserves(s: Sys, id: nat, c: Choice, now: nat)
    requires Conserved(s.pool, s.openers) && id in s.openers && OpenerOk(s.openers[id])
    ensures var m := Advance(Wide, s, id, s.openers[id], c, now);
            Conserved(m.pool, s.openers[id := m.opener])
  {
    hide Balanced, Recovering, CheckoutCached, InstallAndCheckout, DropLease, ReadinessFailed, StreamOpenFailed,
         HandshakeTimedOut, TimeoutRecovered, Uncache;
    var o := s.openers[id];
    var r := |Recovering(s.openers)|;
    var m := Advance(Wide, s, id, o, c, now);
    RecoveringUpdate(s.openers, id, m.opener);
    match o.pc
    case Start => CheckoutBalances(s.pool, r);
    case Recheck => CheckoutBalances(s.pool, r);
    case Dialed(v, g) => InstallBalances(s.pool, r, v, g);
    case ReadyFailed(g) => FailureBalances(s.pool, r, g);
    case ReadyDropping(g) => DropBalances(s.pool, r, g, now);
    case ShakeFailed(g, _) => DropBalances(s.pool, r, g, now);
    case Reporting(g, _) =>
      FailureBalances(s.pool, r, g);
      TimeoutBalances(s.pool, r, g);
    case Recording(_) =>
      if o.recovering {
        RecoveringHas(s.openers, id);
        RecoveryBalances(s.pool, r);
      }
    case Dropping(g) => DropBalances(s.pool, r, g, now);
    case _ =>
  }

  lemma RecoveringHas(m: map<nat, Opener>, id: nat)
    requires id in m && m[id].recovering
    ensures |Recovering(m)| > 0
  {
    assert id in Recovering(m);
  }

  lemma RecoveryBalances(p: Pool, r: nat)
    requires Balanced(p, r) && r > 0
    ensures Balanced(TimeoutRecovered(Wide, p), r - 1)
  {
  }

  // ----- the whole invariant -----

  predicate Inv(s: Sys)
  {
    && Accounted(s.pool, s.openers)
    && GateOk(s)
    && (forall id :: id in s.openers ==> OpenerOk(s.openers[id]))
    && Conserved(s.pool, s.openers)
    && s.pool.active <= s.peak
  }

  /** Nothing cached, nothing counted, nobody there. */
  predicate Untouched(p: Pool)
  {
    && p.connection.None? && !p.shutdown && p.nextGeneration == 0 && p.active == 0 && p.created == 0
    && p.streamsOpened == 0 && p.streamsReused == 0 && p.reconnects == 0
    && p.timeoutRecoveries == 0 && p.timeoutRetirements == 0 && p.handshakeTimeouts == 0
    && p.versions.Sum() == 0 && p.groups.Sum() == 0
  }

  lemma UntouchedBalances(p: Pool)
    requires Untouched(p)
    ensures Balanced(p, 0)
  {
  }

  lemma FreshInv(s: Sys)
    requires s.openers == map[] && s.gate.None? && Untouched(s.pool) && s.peak == 0
    ensures Inv(s)
  {
    UntouchedBalances(s.pool);
    assert Holders(s.openers) == {};
    assert Recovering(s.openers) == {};
    hide Balanced;
  }

  lemma StartUntouched(p: Pool, versions: Versions, groups: Groups)
    requires p == Empty() && versions == p.versions && groups == p.groups
    ensures Untouched(p)
  {
    assert versions.tls12 == 0 && versions.tls13 == 0 && versions.unknown == 0;
    assert groups.mlkem == 0 && groups.x25519 == 0 && groups.p256 == 0 && groups.p384 == 0 && groups.other == 0;
  }

  lemma InitialInv()
    ensures Inv(Initial())
  {
    hide Inv, Untouched, Empty;
    StartUntouched(Empty(), Empty().versions, Empty().groups);
    FreshInv(Initial());
  }

  lemma AdvanceInv(s: Sys, id: nat, c: Choice, now: nat)
    requires Inv(s) && id in s.openers
    ensures Inv(Perform(s, id, Advance(Wide, s, id, s.openers[id], c, now)))
  {
    AdvanceAccounted(s, id, c, now);
    AdvanceKeepsGate(s, id, c, now);
    AdvanceKeepsOpener(Wide, s, id, s.openers[id], c, now);
    AdvanceConserves(s, id, c, now);
    hide Advance, Conserved, GateOk, OpenerOk;
  }

  lemma CancelIsGateMove(s: Sys, id: nat, o: Opener)
    requires s.gate == Some(id) <==> Gated(o.pc)
    requires Connecting(o.pc) ==> s.pool.connection.None?
    ensures var m := Cancelled(s, o);
            && GateMove(s, id, m) && m.pool == s.pool
            && Lease(m.opener.pc) == Lease(o.pc) && (Mark(m.opener.pc).None? || Mark(m.opener.pc) == Mark(o.pc))
            && m.opener.recovering == o.recovering
    ensures OpenerOk(o) ==> OpenerOk(Cancelled(s, o).opener)
  {
  }

  lemma CancelInv(s: Sys, id: nat)
    requires Inv(s) && id in s.openers
    ensures Inv(Perform(s, id, Cancelled(s, s.openers[id])))
  {
    var o := s.openers[id];
    CancelIsGateMove(s, id, o);
    QuietMoveInv(s, id, Cancelled(s, o));
  }

  /** A move that leaves the pool, its lease and its recovery alone. */
  lemma QuietMoveInv(s: Sys, id: nat, m: Move)
    requires Inv(s) && GateMove(s, id, m) && m.pool == s.pool && OpenerOk(m.opener)
    requires Lease(m.opener.pc) == LeaseAt(s.openers, id) && NoNewMark(s.openers, id, m.opener)
    requires m.opener.recovering == (id in s.openers && s.openers[id].recovering)
    ensures Inv(Perform(s, id, m))
  {
    AccountSame(s.pool, m.pool, s.openers, id, m.opener);
    MoveKeepsGate(s, id, m);
    RecoveringUpdate(s.openers, id, m.opener);
    HoldersUpdate(s.openers, id, m.opener);
    hide Recovering, Holders, HoldersOf, Accounted, Balanced, GateOk, GateMove, OpenerOk, Lease;
  }

  lemma BeginInv(s: Sys, id: nat)
    requires Inv(s) && id !in s.openers
    ensures Inv(Perform(s, id, Move(s.pool, s.gate, Opener(Start, 0, 0, false, 0))))
  {
    QuietMoveInv(s, id, Move(s.pool, s.gate, Opener(Start, 0, 0, false, 0)));
  }

  lemma PoolOnlyInv(s: Sys, p: Pool)
    requires Inv(s) && SameLeases(s.pool, p) && Conserved(p, s.openers)
    requires p.shutdown ==> p.connection.None?
    ensures Inv(s.(pool := p))
  {
    hide Conserved, OpenerOk;
  }

  lemma QuietPoolBalances(p: Pool, r: nat, now: nat, timeout: nat)
    requires Balanced(p, r) && (p.shutdown ==> p.connection.None?)
    ensures Balanced(MarkClosed(p), r) && Balanced(RetireInactive(Wide, p, now, timeout), r) && Balanced(ShutDown(p), r)
    ensures SameLeases(p, MarkClosed(p)) && SameLeases(p, ShutDown(p))
    ensures SameLeases(p, RetireInactive(Wide, p, now, timeout))
  {
  }

  lemma QuietPoolInv(s: Sys, now: nat, timeout: nat)
    requires Inv(s)
    ensures Inv(s.(pool := MarkClosed(s.pool)))
    ensures Inv(s.(pool := RetireInactive(Wide, s.pool, now, timeout)))
    ensures Inv(s.(pool := ShutDown(s.pool)))
  {
    assert s.pool.shutdown ==> s.pool.connection.None?;
    QuietPoolBalances(s.pool, |Recovering(s.openers)|, now, timeout);
    hide Inv, Balanced, SameLeases, Recovering;
    PoolOnlyInv(s, MarkClosed(s.pool));
    PoolOnlyInv(s, RetireInactive(Wide, s.pool, now, timeout));
    PoolOnlyInv(s, ShutDown(s.pool));
  }

  lemma ApplyInv(s: Sys, e: Event)
    requires Inv(s)
    ensures Inv(Apply(Wide, s, e))
  {
    match e
    case Begin(id) =>
      if id !in s.openers {
        BeginInv(s, id);
      }
      hide Inv;
    case Step(id, c, now) =>
      if id in s.openers {
        AdvanceInv(s, id, c, now);
      }
      hide Inv;
    case Cancel(id) =>
      if id in s.openers {
        CancelInv(s, id);
      }
      hide Inv;
    case ConnectionEnds =>
      QuietPoolInv(s, 0, 0);
      hide Inv, MarkClosed;
    case Maintain(now, timeout) =>
      QuietPoolInv(s, now, timeout);
      hide Inv, RetireInactive;
    case ShutdownPool =>
      QuietPoolInv(s, 0, 0);
      hide Inv, ShutDown;
  }

  lemma {:induction false} RunInv(s: Sys, es: seq<Event>)
    requires Inv(s)
    ensures Inv(Exec(Wide, s, es))
    decreases |es|
  {
    if es != [] {
      ApplyInv(s, es[0]);
      RunInv(Apply(Wide, s, es[0]), es[1..]);
    }
  }

  // ----- what holds in every reachable state -----

  ghost predicate Reachable(s: Sys)
  {
    exists es :: s == Exec(Wide, Initial(), es)
  }

  lemma ReachableInv(s: Sys)
    requires Reachable(s)
    ensures Inv(s)
  {
    var es :| s == Exec(Wide, Initial(), es);
    InitialInv();
    RunInv(Initial(), es);
  }

  /** The pool's count is the number of live leases, the cached connection's count is the number of live
      leases of its own generation, and it is marked idle exactly when that is zero. */
  lemma LeasesAreCounted(s: Sys)
    requires Reachable(s)
    ensures s.pool.active == |Holders(s.openers)|
    ensures s.pool.connection.Some? ==>
              var c := s.pool.connection.value;
              && c.active == |HoldersOf(s.openers, c.generation)|
              && (c.idleSince.Some? <==> HoldersOf(s.openers, c.generation) == {})
  {
    ReachableInv(s);
  }

  /** At most one dial is in flight, and what it brings back is never turned away because the pool changed. */
  lemma OneDialAtATime(s: Sys, i: nat, j: nat)
    requires Reachable(s) && i in s.openers && Connecting(s.openers[i].pc)
    requires j in s.openers && Connecting(s.openers[j].pc)
    ensures i == j
    ensures forall v, g :: InstallAndCheckout(Wide, s.pool, v, g).0 != Changed
  {
    ReachableInv(s);
  }

  /** An opener takes at most four leases; with a tunnel it holds exactly one, after an error or a
      cancellation none. */
  lemma LeaseBudget(s: Sys, id: nat)
    requires Reachable(s) && id in s.openers
    ensures s.openers[id].leases <= 4
    ensures s.openers[id].pc.Open? ==> id in HoldersOf(s.openers, s.openers[id].pc.generation)
    ensures s.openers[id].pc.Done? ==> id !in Holders(s.openers)
  {
    ReachableInv(s);
    assert OpenerOk(s.openers[id]);
  }

  /** A timed-out opener has let go of its own lease before it asks, and the generation is retired exactly when it is
      still cached and nobody holds it. */
  lemma TimeoutRetiresOnlyUnshared(s: Sys, id: nat)
    requires Reachable(s) && id in s.openers && s.openers[id].pc.Reporting?
    ensures var g := s.openers[id].pc.generation;
            HandshakeTimedOut(Wide, s.pool, g).0 <==> Cached(s.pool, g) && HoldersOf(s.openers, g) == {}
    ensures id !in Holders(s.openers)
  {
    ReachableInv(s);
  }

  /** The books balance in every reachable state. */
  lemma PoolConservation(s: Sys)
    requires Reachable(s)
    ensures var p := s.pool;
            && p.streamsOpened == p.created + p.streamsReused
            && p.reconnects == (if p.created == 0 then 0 else p.created - 1)
            && p.created <= (if p.connection.Some? then 1 else 0) + Losses(p)
            && p.timeoutRecoveries <= p.timeoutRetirements <= p.handshakeTimeouts
            && p.versions.Sum() == p.created && p.groups.Sum() == p.created
  {
    ReachableInv(s);
  }
}
