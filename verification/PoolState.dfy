/** The mutex-protected state of the pooled H2 connection, and every operation performed under that mutex. */
module PoolState {
  import opened Bytes

  /** How counters behave: as the saturating machine integers they are, or as unbounded naturals. */
  datatype Width = Machine | Wide

  function Inc(w: Width, n: nat): (r: nat)
  {
    if w.Machine? && n >= U64_MAX then U64_MAX else n + 1
  }

  function Inc32(w: Width, n: nat): (r: nat)
  {
    if w.Machine? && n >= U32_MAX then U32_MAX else n + 1
  }

  /** saturating_sub(1). */
  function Dec(n: nat): (r: nat)
  {
    if n == 0 then 0 else n - 1
  }

  datatype TlsVersion = Tls12 | Tls13 | UnknownVersion
  datatype TlsGroup = X25519MlKem768 | X25519 | Secp256r1 | Secp384r1 | OtherGroup

  datatype Versions = Versions(tls12: nat, tls13: nat, unknown: nat)
  {
    function Sum(): (n: nat)
    {
      tls12 + tls13 + unknown
    }

    function Add(w: Width, v: TlsVersion): (r: Versions)
    {
      match v
      case Tls12 => this.(tls12 := Inc(w, tls12))
      case Tls13 => this.(tls13 := Inc(w, tls13))
      case UnknownVersion => this.(unknown := Inc(w, unknown))
    }
  }

  datatype Groups = Groups(mlkem: nat, x25519: nat, p256: nat, p384: nat, other: nat)
  {
    function Sum(): (n: nat)
    {
      mlkem + x25519 + p256 + p384 + other
    }

    function Add(w: Width, g: TlsGroup): (r: Groups)
    {
      match g
      case X25519MlKem768 => this.(mlkem := Inc(w, mlkem))
      case X25519 => this.(x25519 := Inc(w, x25519))
      case Secp256r1 => this.(p256 := Inc(w, p256))
      case Secp384r1 => this.(p384 := Inc(w, p384))
      case OtherGroup => this.(other := Inc(w, other))
    }
  }

  /** The cached connection; `closed` is the watch its driver sets. */
  datatype Conn = Conn(generation: nat, closed: bool, active: nat, idleSince: Option<nat>)

  datatype Pool = Pool(
    connection: Option<Conn>,
    nextGeneration: nat,
    active: nat,
    shutdown: bool,
    created: nat,
    versions: Versions,
    groups: Groups,
    streamsOpened: nat,
    streamsReused: nat,
    reconnects: nat,
    readinessFailures: nat,
    openFailures: nat,
    handshakeTimeouts: nat,
    timeoutRetirements: nat,
    timeoutRecoveries: nat,
    idleRetirements: nat,
    closedRetirements: nat)

  function Empty(): (p: Pool)
  {
    Pool(None, 0, 0, false, 0, Versions(0, 0, 0), Groups(0, 0, 0, 0, 0), 0, 0, 0, 0, 0, 0, 0, 0, 0, 0)
  }

  datatype Checkout = IsShutDown | Changed | NoConnection | Leased(generation: nat)

  predicate Cached(p: Pool, generation: nat)
  {
    p.connection.Some? && p.connection.value.generation == generation
  }

  /** The two partitions stop with the total, so that they keep adding up. */
  function RecordInstalled(w: Width, p: Pool, v: TlsVersion, g: TlsGroup): (p': Pool)
  {
    if Inc(w, p.created) == p.created then p
    else p.(created := Inc(w, p.created), versions := p.versions.Add(w, v), groups := p.groups.Add(w, g))
  }

  function DropClosed(w: Width, p: Pool): (p': Pool)
  {
    if p.connection.Some? && p.connection.value.closed
    then p.(connection := None, closedRetirements := Inc(w, p.closedRetirements))
    else p
  }

  function CheckoutCached(w: Width, p: Pool): (r: (Checkout, Pool))
  {
    if p.shutdown then (IsShutDown, p)
    else
      var p := DropClosed(w, p);
      match p.connection
      case None => (NoConnection, p)
      case Some(c) =>
        (Leased(c.generation),
         p.(connection := Some(c.(active := Inc32(w, c.active), idleSince := None)),
            active := Inc32(w, p.active),
            streamsOpened := Inc(w, p.streamsOpened),
            streamsReused := Inc(w, p.streamsReused)))
  }

  function InstallAndCheckout(w: Width, p: Pool, v: TlsVersion, g: TlsGroup): (r: (Checkout, Pool))
  {
    if p.shutdown then (IsShutDown, p)
    else if p.connection.Some? then (Changed, p)
    else
      var generation := Inc(w, p.nextGeneration);
      var p := p.(nextGeneration := generation,
                  reconnects := if p.created > 0 then Inc(w, p.reconnects) else p.reconnects);
      var p := RecordInstalled(w, p, v, g);
      (Leased(generation),
       p.(streamsOpened := Inc(w, p.streamsOpened),
          active := Inc32(w, p.active),
          connection := Some(Conn(generation, false, 1, None))))
  }

  function DropLease(p: Pool, generation: nat, now: nat): (p': Pool)
  {
    var p := p.(active := Dec(p.active));
    if !Cached(p, generation) then p
    else
      var c := p.connection.value;
      var c := c.(active := Dec(c.active));
      p.(connection := Some(if c.active == 0 then c.(idleSince := Some(now)) else c))
  }

  function Uncache(p: Pool, generation: nat): (p': Pool)
  {
    if Cached(p, generation) then p.(connection := None) else p
  }

  function ReadinessFailed(w: Width, p: Pool, generation: nat): (p': Pool)
  {
    Uncache(p.(readinessFailures := Inc(w, p.readinessFailures)), generation)
  }

  function StreamOpenFailed(w: Width, p: Pool, generation: nat): (p': Pool)
  {
    Uncache(p.(openFailures := Inc(w, p.openFailures)), generation)
  }

  /** Retire the timed-out generation if it is still cached and nobody uses it. */
  function HandshakeTimedOut(w: Width, p: Pool, generation: nat): (r: (bool, Pool))
  {
    var p := p.(handshakeTimeouts := Inc(w, p.handshakeTimeouts));
    if Cached(p, generation) && p.connection.value.active == 0
    then (true, p.(connection := None, timeoutRetirements := Inc(w, p.timeoutRetirements)))
    else (false, p)
  }

  function TimeoutRecovered(w: Width, p: Pool): (p': Pool)
  {
    p.(timeoutRecoveries := Inc(w, p.timeoutRecoveries))
  }

  function ShutDown(p: Pool): (p': Pool)
  {
    p.(shutdown := true, connection := None)
  }

  function RetireInactive(w: Width, p: Pool, now: nat, idleTimeout: nat): (p': Pool)
  {
    match p.connection
    case None => p
    case Some(c) =>
      if c.closed then p.(connection := None, closedRetirements := Inc(w, p.closedRetirements))
      else if c.active == 0 && c.idleSince.Some? && now - c.idleSince.value >= idleTimeout
      then p.(connection := None, idleRetirements := Inc(w, p.idleRetirements))
      else p
  }

  /** The connection's driver has ended. */
  function MarkClosed(p: Pool): (p': Pool)
  {
    if p.connection.Some? then p.(connection := Some(p.connection.value.(closed := true))) else p
  }

  // ----- what the operations promise -----

  /** A lease is given exactly on an open connection of a pool that is not shut down, and on that connection; otherwise
      a pool that is not shut down is left with nothing cached. */
  lemma CheckoutExact(w: Width, p: Pool)
    ensures var (r, p') := CheckoutCached(w, p);
            && (r.Leased? <==> !p.shutdown && p.connection.Some? && !p.connection.value.closed)
            && (r.IsShutDown? <==> p.shutdown)
            && (r.Leased? ==> Cached(p, r.generation) && Cached(p', r.generation) && !p'.connection.value.closed)
            && (r.NoConnection? ==> p'.connection.None?)
  {
  }

  /** A connection is installed exactly when the pool is not shut down and has none, and is then the cached one. */
  lemma InstallExact(w: Width, p: Pool, v: TlsVersion, g: TlsGroup)
    ensures var (r, p') := InstallAndCheckout(w, p, v, g);
            && (r.Leased? <==> !p.shutdown && p.connection.None?)
            && (r.Changed? <==> !p.shutdown && p.connection.Some?)
            && (r.Leased? ==> Cached(p', r.generation) && !p'.connection.value.closed)
            && (r.Leased? ==> r.generation == Inc(w, p.nextGeneration))
            && (!r.Leased? ==> p' == p)
  {
  }

  /** A connection that failed is no longer cached; another generation stays. */
  lemma FailureUncaches(w: Width, p: Pool, g: nat)
    ensures !Cached(ReadinessFailed(w, p, g), g) && !Cached(StreamOpenFailed(w, p, g), g)
    ensures !Cached(p, g) ==>
              ReadinessFailed(w, p, g).connection == p.connection == StreamOpenFailed(w, p, g).connection
  {
  }

  /** A timed-out generation is retired exactly when it is cached and unused, and is then no longer cached; otherwise
      what is cached stays. */
  lemma TimeoutExact(w: Width, p: Pool, g: nat)
    ensures var (retired, p') := HandshakeTimedOut(w, p, g);
            && (retired <==> Cached(p, g) && p.connection.value.active == 0)
            && p'.connection == if retired then None else p.connection
  {
  }

  /** A maintenance round leaves a connection cached exactly when it is open and is in use, or has been idle for less
      than the timeout. */
  lemma IdleExact(w: Width, p: Pool, now: nat, idleTimeout: nat)
    requires p.connection.Some? && (p.connection.value.idleSince.Some? <==> p.connection.value.active == 0)
    ensures var c, p' := p.connection.value, RetireInactive(w, p, now, idleTimeout);
            && (p'.connection.Some? <==> !c.closed && (c.active > 0 || now - c.idleSince.value < idleTimeout))
            && (p'.connection.Some? ==> p' == p)
  {
  }

  // ----- partitions -----

  /** Both partitions of the created connections add up, whatever the counter has reached. */
  predicate Partitioned(p: Pool)
  {
    p.versions.Sum() == p.created && p.groups.Sum() == p.created
  }

  lemma AddExact(w: Width, versions: Versions, v: TlsVersion, groups: Groups, g: TlsGroup)
    requires w.Machine? ==> versions.Sum() < U64_MAX && groups.Sum() < U64_MAX
    ensures versions.Add(w, v).Sum() == versions.Sum() + 1
    ensures groups.Add(w, g).Sum() == groups.Sum() + 1
  {
  }

  lemma RecordKeepsPartition(p: Pool, v: TlsVersion, g: TlsGroup)
    ensures Partitioned(p) && p.created <= U64_MAX ==>
              Partitioned(RecordInstalled(Machine, p, v, g)) && RecordInstalled(Machine, p, v, g).created <= U64_MAX
  {
    if Partitioned(p) && p.created < U64_MAX {
      AddExact(Machine, p.versions, v, p.groups, g);
    }
  }

  lemma InstallKeepsPartition(w: Width, p: Pool, v: TlsVersion, g: TlsGroup)
    requires Partitioned(p) && (w.Machine? ==> p.created <= U64_MAX)
    ensures Partitioned(InstallAndCheckout(w, p, v, g).1)
    ensures w.Machine? ==> InstallAndCheckout(w, p, v, g).1.created <= U64_MAX
  {
    if w.Wide? || p.created < U64_MAX {
      AddExact(w, p.versions, v, p.groups, g);
    }
  }

  // ----- the lease law -----

  /** What ties the counters to the outside: `leases` are the generations of the leases handed out and not
      yet dropped, `owed` the retirements reported to an opener that has not yet counted its recovery. */
  ghost predicate LeaseLaw(p: Pool, leases: multiset<nat>, owed: nat)
  {
    && p.active == |leases|
    && (forall g :: g in leases ==> g <= p.nextGeneration)
    && (p.connection.Some? ==> CachedLaw(p.connection.value, p.nextGeneration, leases))
    && (p.shutdown ==> p.connection.None?)
    && p.timeoutRecoveries + owed <= p.timeoutRetirements <= p.handshakeTimeouts <= U64_MAX
    && Partitioned(p) && p.created <= U64_MAX
  }

  /** The cached connection is the newest, its count is that of its own leases, and it is idle without any. */
  ghost predicate CachedLaw(c: Conn, nextGeneration: nat, leases: multiset<nat>)
  {
    c.generation == nextGeneration && c.active == leases[c.generation] && (c.idleSince.Some? <==> c.active == 0)
  }

  /** No counter the law speaks of is about to saturate. */
  ghost predicate Room(p: Pool)
  {
    p.active < U32_MAX && p.nextGeneration < U64_MAX && p.timeoutRetirements < U64_MAX
  }

  lemma {:induction false} CountWithin(leases: multiset<nat>, g: nat)
    ensures leases[g] <= |leases|
  {
    if leases[g] > 0 {
      CountWithin(leases - multiset{g}, g);
    }
  }

  lemma CheckoutKeepsLaw(p: Pool, leases: multiset<nat>, owed: nat)
    requires LeaseLaw(p, leases, owed) && Room(p)
    ensures var (r, p') := CheckoutCached(Machine, p);
            LeaseLaw(p', if r.Leased? then leases + multiset{r.generation} else leases, owed)
  {
    if p.connection.Some? {
      CountWithin(leases, p.connection.value.generation);
    }
  }

  lemma InstallKeepsLaw(p: Pool, leases: multiset<nat>, owed: nat, v: TlsVersion, g: TlsGroup)
    requires LeaseLaw(p, leases, owed) && Room(p)
    ensures var (r, p') := InstallAndCheckout(Machine, p, v, g);
            LeaseLaw(p', if r.Leased? then leases + multiset{r.generation} else leases, owed)
  {
    InstallKeepsPartition(Machine, p, v, g);
    assert p.nextGeneration + 1 !in leases;
    hide Partitioned, Versions.Add, Groups.Add;
  }

  lemma DropKeepsLaw(p: Pool, leases: multiset<nat>, owed: nat, g: nat, now: nat)
    requires LeaseLaw(p, leases, owed) && g in leases
    ensures LeaseLaw(DropLease(p, g, now), leases - multiset{g}, owed)
  {
  }

  lemma FailuresKeepLaw(p: Pool, leases: multiset<nat>, owed: nat, g: nat, now: nat, idleTimeout: nat)
    requires LeaseLaw(p, leases, owed)
    ensures LeaseLaw(ReadinessFailed(Machine, p, g), leases, owed)
    ensures LeaseLaw(StreamOpenFailed(Machine, p, g), leases, owed)
    ensures LeaseLaw(RetireInactive(Machine, p, now, idleTimeout), leases, owed)
    ensures LeaseLaw(ShutDown(p), leases, owed)
    ensures owed > 0 ==> LeaseLaw(TimeoutRecovered(Machine, p), leases, owed - 1)
  {
  }

  lemma TimeoutKeepsLaw(p: Pool, leases: multiset<nat>, owed: nat, g: nat)
    requires LeaseLaw(p, leases, owed) && Room(p)
    ensures var (retired, p') := HandshakeTimedOut(Machine, p, g);
            && LeaseLaw(p', leases, if retired then owed + 1 else owed)
            && (retired ==> g !in leases)
  {
  }

  // ----- the object behind the mutex -----

  class ConnectionPool {
    var connection: Option<Conn>
    var nextGeneration: nat
    var active: nat
    var shutdown: bool
    var created: nat
    var versions: Versions
    var groups: Groups
    var streamsOpened: nat
    var streamsReused: nat
    var reconnects: nat
    var readinessFailures: nat
    var openFailures: nat
    var handshakeTimeouts: nat
    var timeoutRetirements: nat
    var timeoutRecoveries: nat
    var idleRetirements: nat
    var closedRetirements: nat
    const idleTimeout: nat
    ghost var leases: multiset<nat>  // the generations of the live leases
    ghost var owed: nat              // retirements whose opener may still count a recovery

    function View(): (p: Pool)
      reads this
    {
      Pool(connection, nextGeneration, active, shutdown, created, versions, groups,
           streamsOpened, streamsReused, reconnects, readinessFailures, openFailures,
           handshakeTimeouts, timeoutRetirements, timeoutRecoveries, idleRetirements, closedRetirements)
    }

    ghost predicate Valid()
      reads this
    {
      LeaseLaw(View(), leases, owed)
    }

    constructor (idleTimeout: nat)
      ensures View() == Empty() && this.idleTimeout == idleTimeout
      ensures Valid() && leases == multiset{} && owed == 0
    {
      connection, nextGeneration, active, shutdown, created := None, 0, 0, false, 0;
      versions, groups := Versions(0, 0, 0), Groups(0, 0, 0, 0, 0);
      streamsOpened, streamsReused, reconnects := 0, 0, 0;
      readinessFailures, openFailures, handshakeTimeouts := 0, 0, 0;
      timeoutRetirements, timeoutRecoveries, idleRetirements, closedRetirements := 0, 0, 0, 0;
      this.idleTimeout := idleTimeout;
      leases, owed := multiset{}, 0;
    }

    method RecordInstalledConnection(v: TlsVersion, g: TlsGroup)
      modifies this
      ensures View() == RecordInstalled(Machine, old(View()), v, g)
      ensures leases == old(leases) && owed == old(owed)
      ensures old(Partitioned(View())) && old(created) <= U64_MAX ==> Partitioned(View()) && created <= U64_MAX
    {
      RecordKeepsPartition(View(), v, g);
      hide Partitioned, Versions.Add, Groups.Add;
      var next := Inc(Machine, created);
      if next == created {
        return;
      }
      created := next;
      versions := versions.Add(Machine, v);
      groups := groups.Add(Machine, g);
    }

    /** A lease on the cached connection, if there is one that is alive. */
    method Checkout() returns (r: Checkout)
      modifies this
      ensures r == CheckoutCached(Machine, old(View())).0 && View() == CheckoutCached(Machine, old(View())).1
      ensures leases == (if r.Leased? then old(leases) + multiset{r.generation} else old(leases)) && owed == old(owed)
      ensures old(Valid() && Room(View())) ==> Valid() && (r.Leased? ==> connection.Some? && !connection.value.closed)
    {
      ghost var p := View();
      r := Take();
      if r.Leased? {
        leases := leases + multiset{r.generation};
      }
      if LeaseLaw(p, old(leases), owed) && Room(p) {
        CheckoutKeepsLaw(p, old(leases), owed);
      }
    }

    method Take() returns (r: Checkout)
      modifies this
      ensures r == CheckoutCached(Machine, old(View())).0 && View() == CheckoutCached(Machine, old(View())).1
      ensures leases == old(leases) && owed == old(owed)
    {
      if shutdown {
        return IsShutDown;
      }
      if connection.Some? && connection.value.closed {
        connection := None;
        closedRetirements := Inc(Machine, closedRetirements);
      }
      if connection.None? {
        return NoConnection;
      }
      var c := connection.value;
      connection := Some(c.(active := Inc32(Machine, c.active), idleSince := None));
      active := Inc32(Machine, active);
      streamsOpened := Inc(Machine, streamsOpened);
      streamsReused := Inc(Machine, streamsReused);
      r := Leased(c.generation);
    }

    /** A new connection and the first lease on it, unless the pool is closed or has one. */
    method Install(v: TlsVersion, g: TlsGroup) returns (r: Checkout)
      modifies this
      ensures r == InstallAndCheckout(Machine, old(View()), v, g).0
      ensures View() == InstallAndCheckout(Machine, old(View()), v, g).1
      ensures leases == (if r.Leased? then old(leases) + multiset{r.generation} else old(leases)) && owed == old(owed)
      ensures old(Valid() && Room(View())) ==> Valid() && (r.Leased? ==> r.generation !in old(leases))
    {
      ghost var p, was := View(), leases;
      r := Put(v, g);
      if r.Leased? {
        leases := leases + multiset{r.generation};
      }
      if LeaseLaw(p, was, owed) && Room(p) {
        InstallKeepsLaw(p, was, owed, v, g);
      }
    }

    method Put(v: TlsVersion, g: TlsGroup) returns (r: Checkout)
      modifies this
      ensures r == InstallAndCheckout(Machine, old(View()), v, g).0
      ensures View() == InstallAndCheckout(Machine, old(View()), v, g).1
      ensures leases == old(leases) && owed == old(owed)
    {
      hide RecordInstalled, Inc, Inc32, Partitioned;
      if shutdown {
        return IsShutDown;
      }
      if connection.Some? {
        return Changed;
      }
      nextGeneration := Inc(Machine, nextGeneration);
      var generation := nextGeneration;
      if created > 0 {
        reconnects := Inc(Machine, reconnects);
      }
      RecordInstalledConnection(v, g);
      CacheWithFirstLease(generation);
      r := Leased(generation);
    }

    method CacheWithFirstLease(generation: nat)
      modifies this
      ensures View() == old(View()).(streamsOpened := Inc(Machine, old(streamsOpened)),
                                     active := Inc32(Machine, old(active)),
                                     connection := Some(Conn(generation, false, 1, None)))
      ensures leases == old(leases) && owed == old(owed)
    {
      streamsOpened := Inc(Machine, streamsOpened);
      active := Inc32(Machine, active);
      connection := Some(Conn(generation, false, 1, None));
    }

    /** What dropping a lease does. */
    method Release(generation: nat, now: nat)
      modifies this
      ensures View() == DropLease(old(View()), generation, now)
      ensures leases == old(leases) - multiset{generation} && owed == old(owed)
      ensures old(Valid()) && generation in old(leases) ==> Valid()
    {
      if LeaseLaw(View(), leases, owed) && generation in leases {
        DropKeepsLaw(View(), leases, owed, generation, now);
      }
      leases := leases - multiset{generation};
      active := Dec(active);
      if connection.None? || connection.value.generation != generation {
        return;
      }
      var c := connection.value;
      c := c.(active := Dec(c.active));
      if c.active == 0 {
        c := c.(idleSince := Some(now));
      }
      connection := Some(c);
    }

    method InvalidateAfterReadinessFailure(generation: nat)
      modifies this
      ensures View() == ReadinessFailed(Machine, old(View()), generation)
      ensures !Cached(View(), generation) && (!old(Cached(View(), generation)) ==> connection == old(connection))
      ensures leases == old(leases) && owed == old(owed) && (old(Valid()) ==> Valid())
    {
      if LeaseLaw(View(), leases, owed) {
        FailuresKeepLaw(View(), leases, owed, generation, 0, 0);
      }
      readinessFailures := Inc(Machine, readinessFailures);
      if connection.Some? && connection.value.generation == generation {
        connection := None;
      }
    }

    method InvalidateAfterStreamOpenFailure(generation: nat)
      modifies this
      ensures View() == StreamOpenFailed(Machine, old(View()), generation)
      ensures !Cached(View(), generation) && (!old(Cached(View(), generation)) ==> connection == old(connection))
      ensures leases == old(leases) && owed == old(owed) && (old(Valid()) ==> Valid())
    {
      if LeaseLaw(View(), leases, owed) {
        FailuresKeepLaw(View(), leases, owed, generation, 0, 0);
      }
      openFailures := Inc(Machine, openFailures);
      if connection.Some? && connection.value.generation == generation {
        connection := None;
      }
    }

    /** Only a generation without a single live lease is retired, and each retirement owes one recovery. */
    method RetireAfterHandshakeTimeoutIfUnshared(generation: nat) returns (retired: bool)
      modifies this
      ensures retired == HandshakeTimedOut(Machine, old(View()), generation).0
      ensures View() == HandshakeTimedOut(Machine, old(View()), generation).1
      ensures retired <==> old(Cached(View(), generation) && connection.value.active == 0)
      ensures connection == if retired then None else old(connection)
      ensures leases == old(leases) && owed == (if retired then old(owed) + 1 else old(owed))
      ensures old(Valid() && Room(View())) ==> Valid() && (retired ==> generation !in leases)
    {
      if LeaseLaw(View(), leases, owed) && Room(View()) {
        TimeoutKeepsLaw(View(), leases, owed, generation);
      }
      handshakeTimeouts := Inc(Machine, handshakeTimeouts);
      if connection.Some? && connection.value.generation == generation && connection.value.active == 0 {
        connection := None;
        timeoutRetirements := Inc(Machine, timeoutRetirements);
        owed := owed + 1;
        return true;
      }
      retired := false;
    }

    /** An opener whose retirement is still owed a recovery may count one: recoveries stay within retirements. */
    method RecordTimeoutRecovery()
      modifies this
      ensures View() == TimeoutRecovered(Machine, old(View()))
      ensures leases == old(leases) && owed == Dec(old(owed))
      ensures old(Valid() && owed > 0) ==> Valid() && timeoutRecoveries <= timeoutRetirements <= handshakeTimeouts
    {
      if LeaseLaw(View(), leases, owed) {
        FailuresKeepLaw(View(), leases, owed, 0, 0, 0);
      }
      timeoutRecoveries := Inc(Machine, timeoutRecoveries);
      owed := Dec(owed);
    }

    /** Live leases stay counted, and from now on every checkout and every install is refused. */
    method Shutdown()
      modifies this
      ensures View() == ShutDown(old(View()))
      ensures leases == old(leases) && owed == old(owed) && (old(Valid()) ==> Valid())
      ensures CheckoutCached(Machine, View()) == (IsShutDown, View())
      ensures forall v, g :: InstallAndCheckout(Machine, View(), v, g) == (IsShutDown, View())
    {
      if LeaseLaw(View(), leases, owed) {
        FailuresKeepLaw(View(), leases, owed, 0, 0, 0);
      }
      shutdown := true;
      connection := None;
    }

    method RetireInactiveConnection(now: nat)
      modifies this
      ensures View() == RetireInactive(Machine, old(View()), now, idleTimeout)
      ensures leases == old(leases) && owed == old(owed) && (old(Valid()) ==> Valid())
    {
      if LeaseLaw(View(), leases, owed) {
        FailuresKeepLaw(View(), leases, owed, 0, now, idleTimeout);
      }
      if connection.None? {
        return;
      }
      var c := connection.value;
      if c.closed {
        connection := None;
        closedRetirements := Inc(Machine, closedRetirements);
        return;
      }
      var idleElapsed := c.idleSince.Some? && now - c.idleSince.value >= idleTimeout;
      if c.active == 0 && idleElapsed {
        connection := None;
        idleRetirements := Inc(Machine, idleRetirements);
      }
    }
  }
}
