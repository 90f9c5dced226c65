/** How the machine's saturating counters follow the unbounded ones, and exactly when they stop doing so. */
module PoolWidth {
  import opened Bytes
  import opened PoolState
  import opened PoolProtocol
  import opened PoolRuns
  import opened PoolPaths

  // ----- the machine's counters -----

  function Cap(n: nat): (c: nat)
  {
    if n > U64_MAX then U64_MAX else n
  }

  /** The unbounded pool with every 64-bit counter saturated. */
  function Narrow(p: Pool): (p': Pool)
  {
    p.(nextGeneration := Cap(p.nextGeneration),
       created := Cap(p.created),
       versions := NarrowVersions(p.versions),
       groups := NarrowGroups(p.groups),
       streamsOpened := Cap(p.streamsOpened),
       streamsReused := Cap(p.streamsReused),
       reconnects := Cap(p.reconnects),
       readinessFailures := Cap(p.readinessFailures),
       openFailures := Cap(p.openFailures),
       handshakeTimeouts := Cap(p.handshakeTimeouts),
       timeoutRetirements := Cap(p.timeoutRetirements),
       timeoutRecoveries := Cap(p.timeoutRecoveries),
       idleRetirements := Cap(p.idleRetirements),
       closedRetirements := Cap(p.closedRetirements))
  }

  function NarrowSys(s: Sys): (s': Sys)
  {
    s.(pool := Narrow(s.pool))
  }

  /** Fewer than 2^32 leases live at once and fewer than 2^64 installs: what the exact claims need. */
  predicate InRange(s: Sys)
  {
    s.peak <= U32_MAX && s.pool.nextGeneration <= U64_MAX
  }

  lemma IncCap(n: nat)
    ensures Inc(Machine, Cap(n)) == Cap(Inc(Wide, n))
  {
  }

  predicate Counts32(p: Pool)
  {
    p.active <= U32_MAX && (p.connection.Some? ==> p.connection.value.active <= U32_MAX)
  }

  lemma CheckoutNarrow(p: Pool)
    requires Counts32(CheckoutCached(Wide, p).1)
    ensures CheckoutCached(Machine, Narrow(p)) == (CheckoutCached(Wide, p).0, Narrow(CheckoutCached(Wide, p).1))
  {
    IncCap(p.streamsOpened);
    IncCap(p.streamsReused);
    IncCap(p.closedRetirements);
    hide Cap;
  }

  function NarrowVersions(v: Versions): (r: Versions)
  {
    Versions(Cap(v.tls12), Cap(v.tls13), Cap(v.unknown))
  }

  function NarrowGroups(g: Groups): (r: Groups)
  {
    Groups(Cap(g.mlkem), Cap(g.x25519), Cap(g.p256), Cap(g.p384), Cap(g.other))
  }

  lemma AddNarrow(versions: Versions, v: TlsVersion, groups: Groups, g: TlsGroup)
    ensures NarrowVersions(versions).Add(Machine, v) == NarrowVersions(versions.Add(Wide, v))
    ensures NarrowGroups(groups).Add(Machine, g) == NarrowGroups(groups.Add(Wide, g))
  {
    hide Cap, Inc;
    match v {
      case Tls12 => IncCap(versions.tls12);
      case Tls13 => IncCap(versions.tls13);
      case UnknownVersion => IncCap(versions.unknown);
    }
    match g {
      case X25519MlKem768 => IncCap(groups.mlkem);
      case X25519 => IncCap(groups.x25519);
      case Secp256r1 => IncCap(groups.p256);
      case Secp384r1 => IncCap(groups.p384);
      case OtherGroup => IncCap(groups.other);
    }
  }

  lemma RecordNarrow(p: Pool, v: TlsVersion, g: TlsGroup)
    requires p.created < U64_MAX
    ensures RecordInstalled(Machine, Narrow(p), v, g) == Narrow(RecordInstalled(Wide, p, v, g))
  {
    AddNarrow(p.versions, v, p.groups, g);
    IncCap(p.created);
    assert Cap(p.created) == p.created && Inc(Wide, p.created) == Inc(Machine, p.created) == p.created + 1;
    hide Cap, Inc, Versions.Add, Groups.Add, NarrowVersions, NarrowGroups;
  }

  lemma InstallNarrow(p: Pool, v: TlsVersion, g: TlsGroup)
    requires p.created == p.nextGeneration && Counts32(InstallAndCheckout(Wide, p, v, g).1)
    requires InstallAndCheckout(Wide, p, v, g).1.nextGeneration <= U64_MAX
    ensures InstallAndCheckout(Machine, Narrow(p), v, g) ==
            (InstallAndCheckout(Wide, p, v, g).0, Narrow(InstallAndCheckout(Wide, p, v, g).1))
  {
    if !p.shutdown && p.connection.None? {
      IncCap(p.nextGeneration);
      IncCap(p.reconnects);
      IncCap(p.streamsOpened);
      var q := p.(nextGeneration := p.nextGeneration + 1,
                  reconnects := if p.created > 0 then p.reconnects + 1 else p.reconnects);
      RecordNarrow(q, v, g);
      hide RecordInstalled;
      RecordFrame(q, v, g);
      RecordFrame(Narrow(q), v, g);
    }
  }

  lemma RecordFrame(p: Pool, v: TlsVersion, g: TlsGroup)
    ensures forall w :: RecordInstalled(w, p, v, g).streamsOpened == p.streamsOpened
                        && RecordInstalled(w, p, v, g).active == p.active
  {
  }

  lemma FailureNarrow(p: Pool, g: nat, now: nat, timeout: nat)
    ensures ReadinessFailed(Machine, Narrow(p), g) == Narrow(ReadinessFailed(Wide, p, g))
    ensures StreamOpenFailed(Machine, Narrow(p), g) == Narrow(StreamOpenFailed(Wide, p, g))
    ensures HandshakeTimedOut(Machine, Narrow(p), g) ==
            (HandshakeTimedOut(Wide, p, g).0, Narrow(HandshakeTimedOut(Wide, p, g).1))
    ensures TimeoutRecovered(Machine, Narrow(p)) == Narrow(TimeoutRecovered(Wide, p))
    ensures RetireInactive(Machine, Narrow(p), now, timeout) == Narrow(RetireInactive(Wide, p, now, timeout))
  {
    IncCap(p.readinessFailures);
    IncCap(p.openFailures);
    IncCap(p.handshakeTimeouts);
    IncCap(p.timeoutRetirements);
    IncCap(p.timeoutRecoveries);
    IncCap(p.idleRetirements);
    IncCap(p.closedRetirements);
    hide Cap;
  }

  lemma DropNarrow(p: Pool, g: nat, now: nat)
    ensures DropLease(Narrow(p), g, now) == Narrow(DropLease(p, g, now))
    ensures MarkClosed(Narrow(p)) == Narrow(MarkClosed(p))
    ensures ShutDown(Narrow(p)) == Narrow(ShutDown(p))
  {
    hide Cap;
  }

  lemma AdvanceNarrow(s: Sys, id: nat, c: Choice, now: nat)
    requires id in s.openers && s.pool.created == s.pool.nextGeneration
    requires Counts32(Advance(Wide, s, id, s.openers[id], c, now).pool)
    requires Advance(Wide, s, id, s.openers[id], c, now).pool.nextGeneration <= U64_MAX
    ensures var m := Advance(Wide, s, id, s.openers[id], c, now);
            Advance(Machine, NarrowSys(s), id, s.openers[id], c, now) == m.(pool := Narrow(m.pool))
  {
    hide Narrow, CheckoutCached, InstallAndCheckout, DropLease, ReadinessFailed, StreamOpenFailed,
         HandshakeTimedOut, TimeoutRecovered, Counts32;
    var o := s.openers[id];
    match o.pc
    case Start => CheckoutNarrow(s.pool);
    case Recheck => CheckoutNarrow(s.pool);
    case Dialed(v, g) => InstallNarrow(s.pool, v, g);
    case ReadyDropping(g) => DropNarrow(s.pool, g, now);
    case ShakeFailed(g, _) => DropNarrow(s.pool, g, now);
    case Dropping(g) => DropNarrow(s.pool, g, now);
    case ReadyFailed(g) => FailureNarrow(s.pool, g, now, 0);
    case Reporting(g, _) => FailureNarrow(s.pool, g, now, 0);
    case Recording(g) => FailureNarrow(s.pool, g, now, 0);
    case _ =>
  }

  lemma AdvanceCounts(s: Sys, id: nat, c: Choice, now: nat)
    requires Inv(s) && id in s.openers && InRange(Perform(s, id, Advance(Wide, s, id, s.openers[id], c, now)))
    ensures Counts32(Advance(Wide, s, id, s.openers[id], c, now).pool)
    ensures Advance(Wide, s, id, s.openers[id], c, now).pool.nextGeneration <= U64_MAX
    ensures s.pool.created == s.pool.nextGeneration
  {
    assert s.pool.created == s.pool.nextGeneration;
    hide Advance;
    AdvanceInv(s, id, c, now);
    SmallCounts(Perform(s, id, Advance(Wide, s, id, s.openers[id], c, now)));
    hide Inv, Counts32;
  }

  lemma SmallCounts(s: Sys)
    requires Inv(s) && s.peak <= U32_MAX
    ensures Counts32(s.pool)
  {
    if s.pool.connection.Some? {
      SubsetSize(HoldersOf(s.openers, s.pool.connection.value.generation), Holders(s.openers));
    }
  }

  lemma OpenerStepNarrow(s: Sys, id: nat, c: Choice, now: nat)
    requires Inv(s) && id in s.openers && InRange(Perform(s, id, Advance(Wide, s, id, s.openers[id], c, now)))
    ensures Apply(Machine, NarrowSys(s), Step(id, c, now)) == NarrowSys(Apply(Wide, s, Step(id, c, now)))
  {
    AdvanceCounts(s, id, c, now);
    hide Inv, Advance, Narrow, Counts32, Holders;
    AdvanceNarrow(s, id, c, now);
  }

  lemma StepNarrow(s: Sys, e: Event)
    requires Inv(s) && InRange(Apply(Wide, s, e))
    ensures Apply(Machine, NarrowSys(s), e) == NarrowSys(Apply(Wide, s, e))
  {
    hide Inv, Advance, Narrow, Holders, MarkClosed, RetireInactive, ShutDown;
    match e
    case Begin(id) =>
    case Step(id, c, now) =>
      if id in s.openers {
        OpenerStepNarrow(s, id, c, now);
      }
    case Cancel(id) =>
    case ConnectionEnds => DropNarrow(s.pool, 0, 0);
    case Maintain(now, timeout) => FailureNarrow(s.pool, 0, now, timeout);
    case ShutdownPool => DropNarrow(s.pool, 0, 0);
  }

  lemma StepGrows(s: Sys, e: Event)
    ensures var s' := Apply(Wide, s, e);
            s.peak <= s'.peak && s.pool.nextGeneration <= s'.pool.nextGeneration
  {
    StepGenerations(s, e);
  }

  lemma {:induction false} RunGrows(s: Sys, es: seq<Event>)
    ensures var s' := Exec(Wide, s, es);
            s.peak <= s'.peak && s.pool.nextGeneration <= s'.pool.nextGeneration
    decreases |es|
  {
    if es != [] {
      StepGrows(s, es[0]);
      RunGrows(Apply(Wide, s, es[0]), es[1..]);
      hide Apply;
    }
  }

  lemma {:induction false} RunNarrow(s: Sys, es: seq<Event>)
    requires Inv(s) && InRange(Exec(Wide, s, es))
    ensures Exec(Machine, NarrowSys(s), es) == NarrowSys(Exec(Wide, s, es))
    decreases |es|
  {
    if es != [] {
      var s1 := Apply(Wide, s, es[0]);
      RunGrows(s1, es[1..]);
      ApplyInv(s, es[0]);
      StepNarrow(s, es[0]);
      hide Apply, Inv, NarrowSys;
      RunNarrow(s1, es[1..]);
    }
  }

  /** The saturating pool is the unbounded one with its counters capped: same openers, same gate, same cached
      connection, as long as fewer than 2^32 leases are live at once and fewer than 2^64 connections made. */
  lemma MachineFollowsIdeal(es: seq<Event>)
    requires InRange(Exec(Wide, Initial(), es))
    ensures Exec(Machine, Initial(), es) == NarrowSys(Exec(Wide, Initial(), es))
  {
    InitialInv();
    assert NarrowSys(Initial()) == Initial();
    RunNarrow(Initial(), es);
  }

  /** So in the machine's own state the leases are counted exactly and the books balance up to the caps. */
  lemma MachinePoolIsSound(es: seq<Event>)
    requires InRange(Exec(Wide, Initial(), es))
    ensures var s := Exec(Machine, Initial(), es);
            && s.pool.active == |Holders(s.openers)|
            && (s.pool.connection.Some? ==>
                  var c := s.pool.connection.value;
                  c.active == |HoldersOf(s.openers, c.generation)| && (c.idleSince.Some? <==> c.active == 0))
            && s.pool.timeoutRecoveries <= s.pool.timeoutRetirements <= s.pool.handshakeTimeouts
            && s.pool.reconnects == (if s.pool.created == 0 then 0 else s.pool.created - 1)
            && (s.pool.streamsOpened < U64_MAX ==> s.pool.streamsOpened == s.pool.created + s.pool.streamsReused)
            && s.pool.created <= (if s.pool.connection.Some? then 1 else 0) + Losses(s.pool)
  {
    hide Exec, Narrow, Holders, HoldersOf, Initial;
    MachineFollowsIdeal(es);
    IdealRunIsSound(es);
  }

  lemma IdealRunIsSound(es: seq<Event>)
    requires InRange(Exec(Wide, Initial(), es))
    ensures var s := Exec(Wide, Initial(), es);
            && Narrow(s.pool).connection == s.pool.connection
            && Narrow(s.pool).active == |Holders(s.openers)|
            && (s.pool.connection.Some? ==>
                  var c := s.pool.connection.value;
                  c.active == |HoldersOf(s.openers, c.generation)| && (c.idleSince.Some? <==> c.active == 0))
    ensures var p := Narrow(Exec(Wide, Initial(), es).pool);
            && p.timeoutRecoveries <= p.timeoutRetirements <= p.handshakeTimeouts
            && p.reconnects == (if p.created == 0 then 0 else p.created - 1)
            && (p.streamsOpened < U64_MAX ==> p.streamsOpened == p.created + p.streamsReused)
            && p.created <= (if p.connection.Some? then 1 else 0) + Losses(p)
  {
    InitialInv();
    hide Exec, Narrow, Holders, HoldersOf, Initial, Inv;
    RunInv(Initial(), es);
    IdealIsSound(Exec(Wide, Initial(), es));
  }

  lemma IdealIsSound(s: Sys)
    requires Inv(s) && InRange(s)
    ensures Narrow(s.pool).active == |Holders(s.openers)|
    ensures Narrow(s.pool).connection == s.pool.connection
    ensures s.pool.connection.Some? ==>
              var c := s.pool.connection.value;
              c.active == |HoldersOf(s.openers, c.generation)| && (c.idleSince.Some? <==> c.active == 0)
    ensures var p := Narrow(s.pool);
            && p.timeoutRecoveries <= p.timeoutRetirements <= p.handshakeTimeouts
            && p.reconnects == (if p.created == 0 then 0 else p.created - 1)
            && (p.streamsOpened < U64_MAX ==> p.streamsOpened == p.created + p.streamsReused)
            && p.created <= (if p.connection.Some? then 1 else 0) + Losses(p)
  {
    assert Balanced(s.pool, |Recovering(s.openers)|);
    assert Accounted(s.pool, s.openers);
    hide Holders, HoldersOf, Recovering, GateOk, OpenerOk, Conserved;
  }

  // ----- the object's own law -----

  ghost function Pick(ids: set<nat>): (id: nat)
    requires ids != {}
    ensures id in ids
  {
    var id :| id in ids; id
  }

  /** The generations of the leases these openers hold. */
  ghost function Bag(m: map<nat, Opener>, ids: set<nat>): (b: multiset<nat>)
    requires ids <= Holders(m)
  {
    if ids == {} then multiset{}
    else Bag(m, ids - {Pick(ids)}) + multiset{Lease(m[Pick(ids)].pc).value}
  }

  lemma BagHead(m: map<nat, Opener>, ids: set<nat>, id: nat, g: nat)
    requires ids <= Holders(m) && id in ids
    ensures |ids * HoldersOf(m, g)| == |(ids - {id}) * HoldersOf(m, g)| + if Lease(m[id].pc).value == g then 1 else 0
  {
    var rest := (ids - {id}) * HoldersOf(m, g);
    assert ids * HoldersOf(m, g) == if Lease(m[id].pc).value == g then rest + {id} else rest;
  }

  lemma {:induction false} BagCounts(m: map<nat, Opener>, ids: set<nat>, g: nat)
    requires ids <= Holders(m)
    ensures |Bag(m, ids)| == |ids|
    ensures Bag(m, ids)[g] == |ids * HoldersOf(m, g)|
    decreases ids
  {
    if ids == {} {
      assert ids * HoldersOf(m, g) == {};
    } else {
      var id := Pick(ids);
      BagHead(m, ids, id, g);
      hide HoldersOf, Pick;
      BagCounts(m, ids - {id}, g);
    }
  }

  lemma BagIsLeases(s: Sys, g: nat)
    ensures |Bag(s.openers, Holders(s.openers))| == |Holders(s.openers)|
    ensures Bag(s.openers, Holders(s.openers))[g] == |HoldersOf(s.openers, g)|
  {
    BagCounts(s.openers, Holders(s.openers), g);
    assert Holders(s.openers) * HoldersOf(s.openers, g) == HoldersOf(s.openers, g);
  }

  lemma BagBounded(s: Sys, g: nat)
    requires Inv(s) && g in Bag(s.openers, Holders(s.openers))
    ensures g <= s.pool.nextGeneration
  {
    BagIsLeases(s, g);
    var id :| id in HoldersOf(s.openers, g);
    assert Mark(s.openers[id].pc) == Some(g);
  }

  lemma IdealIsLawful(s: Sys)
    requires Inv(s) && InRange(s)
    ensures LeaseLaw(Narrow(s.pool), Bag(s.openers, Holders(s.openers)), 0)
  {
    var leases := Bag(s.openers, Holders(s.openers));
    BagIsLeases(s, s.pool.nextGeneration);
    forall g | g in leases
      ensures g <= s.pool.nextGeneration
    {
      BagBounded(s, g);
    }
    assert Balanced(s.pool, |Recovering(s.openers)|) && Accounted(s.pool, s.openers);
    PartitionNarrow(s.pool);
    hide Bag, Holders, HoldersOf, Recovering, OpenerOk, Conserved, Partitioned, NarrowVersions, NarrowGroups;
  }

  lemma PartitionNarrow(p: Pool)
    requires Partitioned(p) && p.created <= U64_MAX
    ensures Partitioned(Narrow(p))
  {
  }

  /** The object and the protocol agree: the pool of every run of the machine in that range satisfies the
      law of the in-place object, with the leases its openers hold. */
  lemma MachineStateIsLawful(es: seq<Event>)
    requires InRange(Exec(Wide, Initial(), es))
    ensures var s := Exec(Machine, Initial(), es);
            LeaseLaw(s.pool, Bag(s.openers, Holders(s.openers)), 0)
  {
    InitialInv();
    hide Exec, Inv, Initial, LeaseLaw, Bag, Narrow, Holders;
    MachineFollowsIdeal(es);
    RunInv(Initial(), es);
    IdealIsLawful(Exec(Wide, Initial(), es));
  }

  // ----- saturation -----

  lemma AdvanceKeepsPartition(s: Sys, id: nat, o: Opener, c: Choice, now: nat)
    requires Partitioned(s.pool) && s.pool.created <= U64_MAX
    ensures var p := Advance(Machine, s, id, o, c, now).pool; Partitioned(p) && p.created <= U64_MAX
  {
    if o.pc.Dialed? {
      InstallKeepsPartition(Machine, s.pool, o.pc.version, o.pc.group);
    }
    hide InstallAndCheckout, Inc;
  }

  lemma StepKeepsPartition(s: Sys, e: Event)
    requires Partitioned(s.pool) && s.pool.created <= U64_MAX
    ensures Partitioned(Apply(Machine, s, e).pool) && Apply(Machine, s, e).pool.created <= U64_MAX
  {
    if e.Step? && e.id in s.openers {
      AdvanceKeepsPartition(s, e.id, s.openers[e.id], e.choice, e.now);
    }
    hide Holders, Advance;
  }

  /** The version and key-group partitions each add up to the connections created in every run of the
      machine, saturated or not. */
  lemma {:induction false} PartitionsAlwaysAddUp(s: Sys, es: seq<Event>)
    requires Partitioned(s.pool) && s.pool.created <= U64_MAX
    ensures Partitioned(Exec(Machine, s, es).pool)
    decreases |es|
  {
    if es != [] {
      StepKeepsPartition(s, es[0]);
      hide Partitioned, Apply;
      PartitionsAlwaysAddUp(Apply(Machine, s, es[0]), es[1..]);
    }
  }

  // ----- when the 32-bit count is exact -----

  lemma ExecSnoc(w: Width, s: Sys, es: seq<Event>, e: Event)
    ensures Exec(w, s, es + [e]) == Apply(w, Exec(w, s, es), e)
  {
    hide Apply;
    ExecAppend(w, s, es, [e]);
    assert [e][1..] == [];
  }

  lemma AdvanceActive(s: Sys, id: nat, o: Opener, c: Choice, now: nat)
    requires s.pool.active <= U32_MAX
    ensures Advance(Machine, s, id, o, c, now).pool.active <= U32_MAX
  {
    hide Inc, RecordInstalled;
    if o.pc.Dialed? {
      var p := s.pool;
      RecordFrame(p.(nextGeneration := Inc(Machine, p.nextGeneration),
                     reconnects := if p.created > 0 then Inc(Machine, p.reconnects) else p.reconnects),
                  o.pc.version, o.pc.group);
    }
  }

  lemma {:induction false} ActiveFits(s: Sys, es: seq<Event>)
    requires s.pool.active <= U32_MAX
    ensures Exec(Machine, s, es).pool.active <= U32_MAX
    decreases |es|
  {
    if es != [] {
      var e := es[0];
      if e.Step? && e.id in s.openers {
        AdvanceActive(s, e.id, s.openers[e.id], e.choice, e.now);
      }
      assert Apply(Machine, s, e).pool.active <= U32_MAX by {
        hide Advance, Holders;
      }
      hide Apply;
      ActiveFits(Apply(Machine, s, e), es[1..]);
    }
  }

  lemma ResultsFollow(p: Pool, v: TlsVersion, k: TlsGroup, g: nat)
    ensures CheckoutCached(Machine, Narrow(p)).0 == CheckoutCached(Wide, p).0
    ensures HandshakeTimedOut(Machine, Narrow(p), g).0 == HandshakeTimedOut(Wide, p, g).0
    ensures InstallAndCheckout(Wide, p, v, k).1.nextGeneration <= U64_MAX ==>
              InstallAndCheckout(Machine, Narrow(p), v, k).0 == InstallAndCheckout(Wide, p, v, k).0
  {
  }

  /** What an opener does next does not depend on how wide the counters are. */
  lemma OpenersFollow(s: Sys, e: Event)
    requires Apply(Wide, s, e).pool.nextGeneration <= U64_MAX
    ensures Apply(Machine, NarrowSys(s), e).openers == Apply(Wide, s, e).openers
  {
    if e.Step? && e.id in s.openers {
      AdvanceFollows(s, e.id, s.openers[e.id], e.choice, e.now);
    }
    hide Advance, Holders, Narrow, MarkClosed, RetireInactive, ShutDown;
  }

  lemma AdvanceFollows(s: Sys, id: nat, o: Opener, c: Choice, now: nat)
    requires Advance(Wide, s, id, o, c, now).pool.nextGeneration <= U64_MAX
    ensures Advance(Machine, NarrowSys(s), id, o, c, now).opener == Advance(Wide, s, id, o, c, now).opener
  {
    hide Narrow, CheckoutCached, InstallAndCheckout, DropLease, ReadinessFailed, StreamOpenFailed, HandshakeTimedOut,
         TimeoutRecovered;
    match o.pc
    case Start => ResultsFollow(s.pool, Tls12, X25519, 0);
    case Recheck => ResultsFollow(s.pool, Tls12, X25519, 0);
    case Dialed(v, g) => ResultsFollow(s.pool, v, g, 0);
    case Reporting(g, _) => ResultsFollow(s.pool, Tls12, X25519, g);
    case _ =>
  }

  /** The step that takes the live leases past 32 bits leaves the machine's count short of them. */
  lemma OverflowIsMiscounted(es: seq<Event>, e: Event)
    requires InRange(Exec(Wide, Initial(), es))
    requires Exec(Wide, Initial(), es + [e]).pool.nextGeneration <= U64_MAX
    requires Exec(Wide, Initial(), es + [e]).peak > U32_MAX
    ensures var s := Exec(Machine, Initial(), es + [e]); s.pool.active < |Holders(s.openers)|
  {
    MachineFollowsIdeal(es);
    ExecSnoc(Wide, Initial(), es, e);
    ExecSnoc(Machine, Initial(), es, e);
    ActiveFits(Initial(), es + [e]);
    var s := Exec(Wide, Initial(), es);
    OpenersFollow(s, e);
    PeakGrows(s, e);
    hide Exec, Apply, Holders;
  }

  lemma PeakGrows(s: Sys, e: Event)
    requires Apply(Wide, s, e).peak > s.peak
    ensures Apply(Wide, s, e).peak == |Holders(Apply(Wide, s, e).openers)|
  {
    hide Advance, Holders;
  }

  lemma {:induction false} OverflowShows(es: seq<Event>) returns (k: nat)
    requires Exec(Wide, Initial(), es).pool.nextGeneration <= U64_MAX && Exec(Wide, Initial(), es).peak > U32_MAX
    ensures k <= |es|
    ensures var s := Exec(Machine, Initial(), es[..k]); s.pool.active != |Holders(s.openers)|
    decreases |es|
  {
    hide Apply, Holders;
    var n := |es|;
    assert es != [];
    var front, e := es[..n - 1], es[n - 1];
    assert es == front + [e] == es[..n];
    PrefixGrows(es, n - 1);
    if Exec(Wide, Initial(), front).peak > U32_MAX {
      k := OverflowShows(front);
      assert front[..k] == es[..k];
    } else {
      k := n;
      OverflowIsMiscounted(front, e);
    }
  }

  lemma PrefixGrows(es: seq<Event>, k: nat)
    requires k <= |es|
    ensures var s, s' := Exec(Wide, Initial(), es[..k]), Exec(Wide, Initial(), es);
            s.peak <= s'.peak && s.pool.nextGeneration <= s'.pool.nextGeneration
    decreases |es| - k
  {
    hide Apply;
    if k == |es| {
      assert es[..k] == es;
    } else {
      assert es[..k + 1] == es[..k] + [es[k]];
      ExecSnoc(Wide, Initial(), es[..k], es[k]);
      StepGrows(Exec(Wide, Initial(), es[..k]), es[k]);
      PrefixGrows(es, k + 1);
    }
  }

  /** The exact condition: along a run of fewer than 2^64 installs, the machine's stream count is the number
      of live leases at every point if and only if fewer than 2^32 leases are ever live at once. */
  lemma CountIsExactIff(es: seq<Event>)
    requires Exec(Wide, Initial(), es).pool.nextGeneration <= U64_MAX
    ensures (forall k :: 0 <= k <= |es| ==> CountExact(Exec(Machine, Initial(), es[..k])))
            <==> Exec(Wide, Initial(), es).peak <= U32_MAX
  {
    if Exec(Wide, Initial(), es).peak <= U32_MAX {
      forall k | 0 <= k <= |es|
        ensures CountExact(Exec(Machine, Initial(), es[..k]))
      {
        PrefixGrows(es, k);
        MachinePoolIsSound(es[..k]);
      }
    } else {
      var k := OverflowShows(es);
      assert !CountExact(Exec(Machine, Initial(), es[..k]));
    }
  }

  predicate CountExact(s: Sys)
  {
    s.pool.active == |Holders(s.openers)|
  }

  // ----- such runs exist -----

  /** One live connection, n leases of it, and only openers numbered below n. */
  predicate Crowd(s: Sys, n: nat)
  {
    && !s.pool.shutdown && s.pool.nextGeneration == 1
    && s.pool.connection.Some? && !s.pool.connection.value.closed
    && |Holders(s.openers)| == n
    && forall id :: id in s.openers ==> id < n
  }

  /** The first opener dials and installs. */
  function FirstLease(): (es: seq<Event>)
  {
    [Begin(0), Step(0, Go, 0), Step(0, Go, 0), Step(0, Go, 0), Step(0, Connected(Tls13, X25519), 0), Step(0, Go, 0)]
  }

  /** One opener, on its way to its first lease. */
  predicate Alone(s: Sys, pc: Pc)
  {
    s.openers.Keys == {0} && s.openers[0].pc == pc && Climbing(s, 0, s.openers[0]) && s.pool.nextGeneration == 0
  }

  lemma AloneBegins(s: Sys)
    requires s == Initial()
    ensures Alone(Apply(Wide, s, Begin(0)), Start)
  {
    hide Holders;
  }

  lemma AloneSteps(s: Sys, pc: Pc, e: Event)
    requires Alone(s, pc) && (pc.Start? || pc.WaitGate? || pc.Recheck? || pc.Dialing?)
    requires e.Step? && e == Step(0, e.choice, 0) && (if pc.Dialing? then e.choice.Connected? else e.choice.Go?)
    ensures Alone(Apply(Wide, s, e), NextRung(pc, e.choice))
  {
    ClimbStep(s, 0, s.openers[0], e.choice);
    hide Advance, Holders;
  }

  lemma AloneInstalls(s: Sys, pc: Pc, e: Event)
    requires Alone(s, pc) && pc.Dialed? && e.Step? && e.id == 0
    ensures Crowd(Apply(Wide, s, e), 1)
  {
    var m := Advance(Wide, s, 0, s.openers[0], e.choice, e.now);
    InstallExact(Wide, s.pool, pc.version, pc.group);
    InstallCaches(s.pool, pc.version, pc.group);
    hide InstallAndCheckout;
    assert Holders(s.openers[0 := m.opener]) == {0};
  }

  lemma FirstLeaseCrowd(s0: Sys)
    requires s0 == Initial()
    ensures Crowd(Exec(Wide, s0, FirstLease()), 1)
  {
    hide Apply, Alone, Crowd, Initial;
    var es := FirstLease();
    var s1 := Apply(Wide, s0, es[0]);
    var s2 := Apply(Wide, s1, es[1]);
    var s3 := Apply(Wide, s2, es[2]);
    var s4 := Apply(Wide, s3, es[3]);
    var s5 := Apply(Wide, s4, es[4]);
    assert Exec(Wide, s0, es) == Apply(Wide, s5, es[5]) by {
      assert es[1..][1..] == es[2..] && es[2..][1..] == es[3..] && es[3..][1..] == es[4..] && es[4..][1..] == es[5..];
      assert es[5..][1..] == [];
    }
    hide Exec;
    AloneBegins(s0);
    AloneSteps(s1, Start, es[1]);
    AloneSteps(s2, WaitGate, es[2]);
    AloneSteps(s3, Recheck, es[3]);
    AloneSteps(s4, Dialing, es[4]);
    AloneInstalls(s5, Dialed(Tls13, X25519), es[5]);
  }

  lemma CrowdGrows(s: Sys, n: nat)
    requires Crowd(s, n)
    ensures Crowd(Apply(Wide, Apply(Wide, s, Begin(n)), Step(n, Go, 0)), n + 1)
  {
    var o := Opener(Start, 0, 0, false, 0);
    var s1 := Apply(Wide, s, Begin(n));
    assert s1.openers == s.openers[n := o];
    HoldersUpdate(s.openers, n, o);
    var m := Advance(Wide, s1, n, o, Go, 0);
    HoldersUpdate(s1.openers, n, m.opener);
    hide Holders;
    assert Apply(Wide, s1, Step(n, Go, 0)).openers == s1.openers[n := m.opener];
  }

  lemma {:induction false} CrowdRun(s0: Sys, n: nat) returns (es: seq<Event>)
    requires s0 == Initial() && n > 0
    ensures Crowd(Exec(Wide, s0, es), n)
  {
    hide Apply, Crowd, Initial;
    if n == 1 {
      es := FirstLease();
      FirstLeaseCrowd(s0);
      hide Exec;
    } else {
      var front := CrowdRun(s0, n - 1);
      hide Exec;
      var more := [Begin(n - 1), Step(n - 1, Go, 0)];
      es := front + more;
      CrowdGrows(Exec(Wide, s0, front), n - 1);
      ExecAppend(Wide, s0, front, more);
      TwoSteps(Exec(Wide, s0, front), more[0], more[1]);
    }
  }

  lemma TwoSteps(s: Sys, a: Event, b: Event)
    ensures Exec(Wide, s, [a, b]) == Apply(Wide, Apply(Wide, s, a), b)
  {
    hide Apply;
    assert [a, b][1..] == [b];
    assert [b][1..] == [];
    assert Exec(Wide, Apply(Wide, s, a), [b]) == Exec(Wide, Apply(Wide, Apply(Wide, s, a), b), []);
  }

  lemma PeakCovers(s: Sys)
    requires Inv(s)
    ensures |Holders(s.openers)| <= s.peak
  {
    hide Holders, HoldersOf;
  }

  /** Whatever n is, some run with at most one install has n leases live at once. */
  lemma LeasesHaveNoLimit(n: nat) returns (es: seq<Event>)
    ensures var s := Exec(Wide, Initial(), es);
            |Holders(s.openers)| == n && s.pool.nextGeneration <= 1 && n <= s.peak
  {
    InitialInv();
    if n == 0 {
      es := [];
      NoneYet(Initial());
    } else {
      hide Exec, Inv, Holders, Initial;
      es := CrowdRun(Initial(), n);
      RunInv(Initial(), es);
      PeakCovers(Exec(Wide, Initial(), es));
    }
  }

  lemma NoneYet(s: Sys)
    requires s == Initial()
    ensures |Holders(s.openers)| == 0 && s.pool.nextGeneration == 0
  {
    assert Holders(s.openers) == {};
  }

  /** So the miscount is real: some run of the protocol, with a single install, leaves the machine's count
      below the number of live leases. */
  lemma MiscountHappens() returns (es: seq<Event>, k: nat)
    ensures k <= |es| && Exec(Wide, Initial(), es).pool.nextGeneration <= 1
    ensures !CountExact(Exec(Machine, Initial(), es[..k]))
  {
    es := LeasesHaveNoLimit(U32_MAX + 1);
    hide Exec, Holders, Initial;
    k := OverflowShows(es);
  }
}
