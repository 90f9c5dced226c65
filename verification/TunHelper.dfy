/** The TUN helper: a journal written before anything is created, the commands that follow, cleanup, and
    the rollback command. A crash may come between any two commands. A command that reports success has
    its effect and one that reports failure has none; nobody else touches the host meanwhile. */
module TunHelper {
  import opened Bytes

  datatype Device = Device(alias: string, tun: bool, up: bool)

  /** The journal file: cut short, or complete. */
  datatype Journal = Torn | Pending(device: string, identity: string)

  /** The host: its links, the links that the documentation prefix is routed through, the journal file. */
  datatype World = World(devices: map<string, Device>, routes: set<string>, journal: Option<Journal>)

  datatype Cmd =
    | WhoAmI | Baseline | FirstProbe | FirstRoutes
    | JournalCreate | JournalWrite | JournalNewline | JournalRead | JournalRemove
    | TuntapAdd | SetAlias | ReadIdentity | AddrAdd | LinkUp | RouteAdd | RouteGet
    | CleanupRead | RouteDel | LinkDel
    | LastProbe | LastRoutes | BaselineAgain

  /** Which commands the host lets through. */
  type Luck = Cmd -> bool

  /** What listing the prefix prints when it is routed through these links. */
  type Listing = set<string> -> string

  predicate Mentions(text: string, name: string)
  {
    exists i :: 0 <= i <= |text| - |name| && text[i..][..|name|] == name
  }

  ghost predicate Lawful(list: Listing)
  {
    && (forall r :: list(r) == "" <==> r == {})
    && (forall r, d :: d in r ==> Mentions(list(r), d))
  }

  predicate ValidName(name: string)
  {
    && 0 < |name| <= 15
    && forall c :: c in name ==> 'a' <= c <= 'z' || 'A' <= c <= 'Z' || '0' <= c <= '9' || c == '-' || c == '_'
  }

  const IDENTITY_PREFIX := "maverick-tun-helper:"

  predicate ValidIdentity(id: string)
  {
    IDENTITY_PREFIX < id
  }

  /** The link carries this identity and is a TUN device. */
  predicate Matches(w: World, name: string, id: string)
  {
    && ValidName(name) && ValidIdentity(id)
    && name in w.devices && w.devices[name].alias == id && w.devices[name].tun
  }

  // ----- what the commands do -----

  function Created(w: World, name: string): (w': World)
  {
    w.(devices := w.devices[name := Device("", true, false)])
  }

  function Aliased(w: World, name: string, id: string): (w': World)
    requires name in w.devices
  {
    w.(devices := w.devices[name := w.devices[name].(alias := id)])
  }

  function BroughtUp(w: World, name: string): (w': World)
    requires name in w.devices
  {
    w.(devices := w.devices[name := w.devices[name].(up := true)])
  }

  function RouteGone(w: World, name: string): (w': World)
  {
    w.(routes := w.routes - {name})
  }

  /** A link takes its routes with it. */
  function LinkGone(w: World, name: string): (w': World)
  {
    w.(devices := w.devices - {name}, routes := w.routes - {name})
  }

  // ----- what a crash can leave -----

  /** Every world a run started in w0 passes through. Either nothing has happened, or the journal went in
      first, over no journal and no route; and whatever else differs from w0 is the one link named in it,
      with at most a route through it once its identity is bound. */
  predicate CrashPoint(w0: World, name: string, id: string, w: World)
  {
    || w == w0
    || (&& w0.journal.None? && w0.routes == {}
        && (|| w == w0.(journal := Some(Torn))
            || w == w0.(journal := Some(Pending(name, id)))
            || (&& name !in w0.devices && name in w.devices
                && w.journal == Some(Pending(name, id))
                && w.devices == w0.devices[name := w.devices[name]]
                && w.devices[name].tun && w.devices[name].alias in {"", id}
                && (w.routes == {} || (w.routes == {name} && w.devices[name].alias == id)))))
  }

  /** The write-ahead law: no journal, no trace of the run. And a pending journal or an existing link is
      never replaced. */
  lemma JournalCoversEverything(w0: World, name: string, id: string, w: World)
    requires CrashPoint(w0, name, id, w)
    ensures w.journal.None? || w.journal == Some(Torn) || w0.journal.Some? ==>
              w.devices == w0.devices && w.routes == w0.routes
    ensures w0.journal.Some? ==> w.journal == w0.journal
    ensures forall d :: d in w0.devices ==> d in w.devices && w.devices[d] == w0.devices[d]
    ensures forall d :: d in w.devices && d !in w0.devices ==> d == name && w.journal == Some(Pending(name, id))
    ensures forall d :: d in w.routes && d !in w0.routes ==> d == name && w.journal == Some(Pending(name, id))
  {
  }

  lemma JournalPoints(w0: World, name: string, id: string)
    ensures CrashPoint(w0, name, id, w0)
    ensures w0.journal.None? && w0.routes == {} ==>
              && CrashPoint(w0, name, id, w0.(journal := Some(Torn)))
              && CrashPoint(w0, name, id, w0.(journal := Some(Pending(name, id))))
  {
  }

  lemma LinkPoint(w0: World, name: string, id: string, w: World, d: Device)
    requires w0.journal.None? && w0.routes == {} && name !in w0.devices
    requires w.devices == w0.devices[name := d] && d.tun && d.alias in {"", id} && w.journal == Some(Pending(name, id))
    requires w.routes == {} || (w.routes == {name} && d.alias == id)
    ensures CrashPoint(w0, name, id, w) && w.devices != w0.devices
  {
  }

  /** From the given place on, every world of the trace is a crash point of the run and every step to it takes
      away nothing but a link that carries the identity. */
  predicate Orderly(w0: World, name: string, id: string, ws: seq<World>, from: nat)
    requires from > 0
  {
    forall i :: from <= i < |ws| ==> CrashPoint(w0, name, id, ws[i]) && Careful(name, id, ws[i - 1], ws[i])
  }

  lemma OrderlyStep(w0: World, name: string, id: string, ws: seq<World>, from: nat, x: World)
    requires 0 < from <= |ws| && Orderly(w0, name, id, ws, from)
    requires CrashPoint(w0, name, id, x) && Careful(name, id, ws[|ws| - 1], x)
    ensures Orderly(w0, name, id, ws + [x], from)
  {
    hide CrashPoint, Careful;
  }

  lemma OrderlyJoin(w0: World, name: string, id: string, ws: seq<World>, from: nat, more: seq<World>)
    requires 0 < from <= |ws| && ws <= more && Orderly(w0, name, id, ws, from) && Orderly(w0, name, id, more, |ws|)
    ensures Orderly(w0, name, id, more, from)
  {
    hide CrashPoint, Careful;
  }

  lemma NothingTaken(name: string, id: string, w: World, x: World)
    requires w.devices.Keys <= x.devices.Keys && w.routes <= x.routes
    ensures Careful(name, id, w, x)
  {
  }

  // ----- rollback, exactly -----

  predicate Seen(w: World, name: string, luck: Luck)
  {
    luck(FirstProbe) && name in w.devices
  }

  /** When the rollback command reports success. */
  predicate RollbackSucceeds(w: World, luck: Luck, list: Listing)
  {
    && luck(JournalRead) && luck(Baseline) && luck(FirstRoutes)
    && luck(LastRoutes) && luck(BaselineAgain) && luck(JournalRemove)
    && w.journal.Some? && w.journal.value.Pending?
    && var name, id := w.journal.value.device, w.journal.value.identity;
       && ValidName(name)
       && if Seen(w, name, luck) then
            && luck(ReadIdentity) && Matches(w, name, id) && luck(LinkDel)
            && (Mentions(list(w.routes), name) ==> luck(RouteDel) && name in w.routes)
            && !Mentions(list(w.routes - {name}), name)
          else
            !Mentions(list(w.routes), name) && !(luck(LastProbe) && name in w.devices)
  }

  /** What a rollback that succeeds leaves. */
  function RolledBack(w: World, luck: Luck): (w': World)
    requires w.journal.Some? && w.journal.value.Pending?
  {
    var name := w.journal.value.device;
    (if Seen(w, name, luck) then LinkGone(w, name) else w).(journal := None)
  }

  /** Every world a removal passes through: only a link with that identity, or the route through it, ever
      goes. */
  predicate RemovalPoint(w: World, name: string, id: string, x: World)
  {
    x == w || (Matches(w, name, id) && (x == RouteGone(w, name) || x == LinkGone(w, name)))
  }

  /** Every world a rollback passes through before it removes the journal. */
  predicate RollbackPoint(w: World, x: World)
  {
    || x == w
    || (&& w.journal.Some? && w.journal.value.Pending?
        && RemovalPoint(w, w.journal.value.device, w.journal.value.identity, x))
  }

  /** One step that takes away nothing but a link that carries the identity, or the route through it. */
  predicate Careful(name: string, id: string, w: World, x: World)
  {
    && (forall d :: d in w.devices && d !in x.devices ==> d == name && Matches(w, name, id))
    && (forall d :: d in w.routes && d !in x.routes ==> d == name && Matches(w, name, id))
  }

  lemma NothingMentionsNothing(name: string)
    requires ValidName(name)
    ensures !Mentions("", name)
  {
  }

  /** A rollback that reports success leaves no journal and no route through the link; the link itself is
      left exactly when it was there and the first probe failed, which is read as absence. */
  lemma SuccessfulRollbackIsClean(w: World, luck: Luck, list: Listing)
    requires Lawful(list) && RollbackSucceeds(w, luck, list)
    ensures var w', name := RolledBack(w, luck), w.journal.value.device;
            && w'.journal == None && name !in w'.routes
            && (name in w'.devices <==> name in w.devices && !luck(FirstProbe))
            && (forall d :: d in w.devices && d != name ==> d in w'.devices && w'.devices[d] == w.devices[d])
            && w'.routes == w.routes - {name}
  {
    var name := w.journal.value.device;
    assert name in w.routes ==> Mentions(list(w.routes), name);
  }

  lemma MentionsThrough(text: string, other: string, name: string)
    requires Mentions(text, other) && Mentions(other, name)
    ensures Mentions(text, name)
  {
    var i :| 0 <= i <= |text| - |other| && text[i..][..|other|] == other;
    var j :| 0 <= j <= |other| - |name| && other[j..][..|name|] == name;
    forall k | 0 <= k < |name|
      ensures text[i + j + k] == name[k]
    {
      assert text[i + j + k] == text[i..][..|other|][j + k];
      assert other[j + k] == other[j..][..|name|][k];
    }
    assert text[i + j..][..|name|] == name;
  }

  /** The listing is searched for the name anywhere in its text: with a route through another link whose name
      contains the recorded one, every rollback refuses, whatever the commands do. */
  lemma LongerNameBlocksRollback(w: World, other: string, luck: Luck, list: Listing)
    requires Lawful(list) && w.journal.Some? && w.journal.value.Pending?
    requires other in w.routes && other != w.journal.value.device && Mentions(other, w.journal.value.device)
    ensures !RollbackSucceeds(w, luck, list)
  {
    var name := w.journal.value.device;
    MentionsThrough(list(w.routes), other, name);
    assert other in w.routes - {name};
    MentionsThrough(list(w.routes - {name}), other, name);
    hide Mentions;
  }

  /** Such hosts: a route through tun10 is in the way of every rollback of tun1, and so for any name and one
      more character. */
  lemma ExtendedNameBlocksRollback(w: World, name: string, c: char, luck: Luck, list: Listing)
    requires Lawful(list) && name + [c] in w.routes && w.journal.Some? && w.journal.value.Pending?
    requires w.journal.value.device == name
    ensures !RollbackSucceeds(w, luck, list)
  {
    var longer := name + [c];
    assert longer[0..][..|name|] == name;
    assert Mentions(longer, name) && |longer| != |name|;
    hide Mentions, RollbackSucceeds, Lawful;
    LongerNameBlocksRollback(w, longer, luck, list);
  }

  /** A listing that shows link names and nothing else that could be taken for one. */
  ghost predicate NamesOnly(list: Listing)
  {
    forall r, name :: ValidName(name) ==> (Mentions(list(r), name) <==> exists d :: d in r && Mentions(d, name))
  }

  lemma MentionsItself(name: string)
    ensures Mentions(name, name)
  {
    assert name[0..][..|name|] == name;
  }

  /** With such a listing, a rollback of a complete journal whose commands all go through succeeds if and only
      if the link, if it is there, carries the identity, a route through it has the link, and no other routed
      link's name contains its name. */
  lemma RollbackSucceedsIff(w: World, name: string, id: string, luck: Luck, list: Listing)
    requires NamesOnly(list) && ValidName(name) && w.journal == Some(Pending(name, id)) && forall c :: luck(c)
    ensures RollbackSucceeds(w, luck, list) <==>
            && (name in w.devices ==> Matches(w, name, id))
            && (name in w.routes ==> name in w.devices)
            && (forall d :: d in w.routes && Mentions(d, name) ==> d == name)
  {
    MentionsItself(name);
    hide Mentions, ValidName, ValidIdentity;
    var rest := w.routes - {name};
    assert Mentions(list(w.routes), name) <==> exists d :: d in w.routes && Mentions(d, name);
    assert Mentions(list(rest), name) <==> exists d :: d in rest && Mentions(d, name);
    if forall d :: d in w.routes && Mentions(d, name) ==> d == name {
      assert forall d :: d in rest ==> !Mentions(d, name);
    } else {
      var d :| d in w.routes && Mentions(d, name) && d != name;
      assert d in rest;
    }
  }

  /** After a crash anywhere in a run, a rollback whose commands all go through succeeds if and only if the
      journal is complete and the link, if there is one, carries the recorded identity; and then the host is
      exactly as it was before the run. */
  lemma RollbackAfterCrash(w0: World, name: string, id: string, w: World, luck: Luck, list: Listing)
    requires Lawful(list) && ValidName(name) && ValidIdentity(id)
    requires CrashPoint(w0, name, id, w) && w0.journal.None?
    requires forall d :: d in w0.devices ==> w0.devices[d].alias != id
    requires forall c :: luck(c)
    ensures RollbackSucceeds(w, luck, list) <==>
            w.journal == Some(Pending(name, id)) && (name in w.devices ==> w.devices[name].alias == id)
    ensures RollbackSucceeds(w, luck, list) ==> RolledBack(w, luck) == w0
  {
    NothingMentionsNothing(name);
    if w != w0 && w.journal == Some(Pending(name, id)) {
      assert name in w.routes ==> Mentions(list(w.routes), name);
      assert w.routes - {name} == {};
      assert list({}) == "";
      if name in w.devices && name !in w0.devices {
        assert w.devices - {name} == w0.devices;
      }
    }
  }

  /** A crash between creating the link and naming it is the one case a person has to clear up: a rollback
      never removes the link or changes anything else before it comes to the journal. If one of its probes
      sees the link it refuses and the journal stays; if both fail it reports success and removes the journal,
      and the link the run made is left with nothing to tell of it. */
  lemma UnnamedLinkIsKept(w0: World, name: string, id: string, w: World, luck: Luck, list: Listing)
    requires Lawful(list) && ValidName(name) && ValidIdentity(id)
    requires CrashPoint(w0, name, id, w) && name !in w0.devices && name in w.devices && w.devices[name].alias == ""
    requires forall c :: c != FirstProbe && c != LastProbe ==> luck(c)
    ensures RollbackSucceeds(w, luck, list) <==> !luck(FirstProbe) && !luck(LastProbe)
    ensures RollbackSucceeds(w, luck, list) ==>
              RolledBack(w, luck) == w.(journal := None) && name in RolledBack(w, luck).devices
    ensures forall x :: RollbackPoint(w, x) ==> x == w
  {
    NothingMentionsNothing(name);
    assert list({}) == "";
  }

  /** A rollback that crashes leaves a world that the interrupted run itself could have left, so rolling
      back again is as good as the first time. */
  lemma RollbackPointsAreCrashPoints(w0: World, name: string, id: string, w: World, x: World)
    requires CrashPoint(w0, name, id, w) && w0.journal.None?
    requires forall d :: d in w0.devices ==> w0.devices[d].alias != id
    requires RollbackPoint(w, x)
    ensures CrashPoint(w0, name, id, x)
  {
    if x != w {
      RemovalPointsAreCrashPoints(w0, name, id, w, x);
    }
  }

  /** The same for taking away a link the run itself made. */
  lemma RemovalPointsAreCrashPoints(w0: World, name: string, id: string, w: World, x: World)
    requires CrashPoint(w0, name, id, w) && w.journal == Some(Pending(name, id)) && w0.journal.None?
    requires name !in w0.devices && RemovalPoint(w, name, id, x)
    ensures CrashPoint(w0, name, id, x)
    ensures name in w.devices && x == LinkGone(w, name) ==> x == w0.(journal := w.journal)
  {
    if x != w {
      assert w.routes - {name} == {};
      if x == LinkGone(w, name) {
        assert x.devices == w0.devices;
      }
    }
  }

  /** Any number of interrupted rollbacks, one after another. */
  predicate Interrupted(ws: seq<World>)
  {
    forall i :: 0 < i < |ws| ==> RollbackPoint(ws[i - 1], ws[i])
  }

  lemma {:induction false} InterruptedStaysRecoverable(w0: World, name: string, id: string, ws: seq<World>)
    requires w0.journal.None? && (forall d :: d in w0.devices ==> w0.devices[d].alias != id)
    requires ws != [] && CrashPoint(w0, name, id, ws[0]) && Interrupted(ws)
    ensures CrashPoint(w0, name, id, ws[|ws| - 1])
    ensures var last := ws[|ws| - 1];
            && last.journal == ws[0].journal
            && (name in last.devices ==> name in ws[0].devices && last.devices[name] == ws[0].devices[name])
    decreases |ws|
  {
    if |ws| > 1 {
      assert RollbackPoint(ws[0], ws[1]);
      RollbackPointsAreCrashPoints(w0, name, id, ws[0], ws[1]);
      forall i | 0 < i < |ws[1..]|
        ensures RollbackPoint(ws[1..][i - 1], ws[1..][i])
      {
        assert RollbackPoint(ws[i], ws[i + 1]);
      }
      InterruptedStaysRecoverable(w0, name, id, ws[1..]);
    }
  }

  /** Once the link has its name, any number of crashes and interrupted rollbacks can follow: a rollback
      that gets through still restores the host. */
  lemma EventualRollbackRestores(w0: World, name: string, id: string, ws: seq<World>, luck: Luck, list: Listing)
    requires Lawful(list) && ValidName(name) && ValidIdentity(id)
    requires w0.journal.None? && (forall d :: d in w0.devices ==> w0.devices[d].alias != id)
    requires ws != [] && CrashPoint(w0, name, id, ws[0]) && Interrupted(ws)
    requires ws[0].journal == Some(Pending(name, id)) && (name in ws[0].devices ==> ws[0].devices[name].alias == id)
    requires forall c :: luck(c)
    ensures var last := ws[|ws| - 1];
            RollbackSucceeds(last, luck, list) && RolledBack(last, luck) == w0
  {
    hide CrashPoint, RollbackSucceeds, Interrupted, Lawful, RolledBack;
    InterruptedStaysRecoverable(w0, name, id, ws);
    RollbackAfterCrash(w0, name, id, ws[|ws| - 1], luck, list);
  }

  /** The commands under the journal, and those after it, all go through. */
  predicate CarryLuck(luck: Luck)
  {
    && luck(JournalCreate) && luck(JournalWrite) && luck(JournalNewline) && luck(TuntapAdd) && luck(SetAlias)
    && luck(ReadIdentity) && luck(AddrAdd) && luck(LinkUp) && luck(RouteAdd) && luck(RouteGet)
    && luck(CleanupRead) && luck(RouteDel) && luck(LinkDel) && luck(JournalRemove) && luck(LastRoutes)
    && luck(BaselineAgain)
  }

  lemma AllLuck(luck: Luck)
    ensures (forall c :: c != FirstProbe && c != LastProbe && c != JournalRead ==> luck(c)) <==>
            luck(WhoAmI) && luck(Baseline) && luck(FirstRoutes) && CarryLuck(luck)
  {
  }

  /** Nothing is in the way before the journal: no link under that name that the probe sees, and no route. */
  predicate ReachesJournal(w0: World, name: string, luck: Luck)
  {
    && luck(WhoAmI) && luck(Baseline) && luck(FirstRoutes)
    && !(luck(FirstProbe) && name in w0.devices) && w0.routes == {}
  }

  /** The run gets as far as making its link. */
  predicate MakesLink(w0: World, name: string, luck: Luck)
  {
    luck(TuntapAdd) && name !in w0.devices
  }

  /** The link it makes carries the identity in the end. */
  predicate NamesLink(name: string, id: string, luck: Luck)
  {
    luck(SetAlias) && ValidName(name) && ValidIdentity(id)
  }

  /** The run gets as far as routing through its link. */
  predicate MakesRoute(w0: World, name: string, id: string, luck: Luck)
  {
    && MakesLink(w0, name, luck) && NamesLink(name, id, luck)
    && luck(ReadIdentity) && luck(AddrAdd) && luck(LinkUp) && luck(RouteAdd)
  }

  /** When a run, however it ends, leaves the host as it found it: it stops before the journal file is there, or what
      it has made can be taken away again and the journal after it. */
  predicate LeavesNoTrace(w0: World, name: string, id: string, luck: Luck)
  {
    || w0.journal.Some? || !luck(JournalCreate)
    || (&& luck(JournalWrite) && luck(JournalNewline) && luck(JournalRemove)
        && (MakesLink(w0, name, luck) ==> NamesLink(name, id, luck) && luck(CleanupRead) && luck(LinkDel))
        && (MakesRoute(w0, name, id, luck) ==> luck(RouteDel)))
  }

  // ----- the commands in order -----

  class Host {
    var w: World
    ghost var trace: seq<World>
    const luck: Luck
    const list: Listing

    /** The trace ends in the world as it is. */
    ghost predicate Valid()
      reads this
    {
      trace != [] && trace[|trace| - 1] == w
    }

    constructor (w: World, luck: Luck, list: Listing)
      ensures this.w == w && trace == [w] && this.luck == luck && this.list == list && Valid()
    {
      this.w := w;
      this.trace := [w];
      this.luck := luck;
      this.list := list;
    }

    /** One command that changes the host: it may be refused, and it fails where it makes no sense. */
    method Run(c: Cmd, possible: bool, after: World) returns (ok: bool)
      modifies this
      ensures ok == (luck(c) && possible)
      ensures w == (if ok then after else old(w)) && trace == old(trace) + [w] && Valid()
    {
      ok := luck(c) && possible;
      if ok {
        w := after;
      }
      trace := trace + [w];
    }

    /** The same inside a run that has kept its order so far. */
    method Do(c: Cmd, possible: bool, after: World, name: string, id: string, ghost w0: World, ghost from: nat)
      returns (ok: bool)
      requires Valid() && 0 < from <= |trace| && Orderly(w0, name, id, trace, from) && CrashPoint(w0, name, id, w)
      requires luck(c) && possible ==> CrashPoint(w0, name, id, after) && Careful(name, id, w, after)
      modifies this
      ensures ok == (luck(c) && possible)
      ensures w == (if ok then after else old(w)) && trace == old(trace) + [w]
      ensures Valid() && Orderly(w0, name, id, trace, from)
    {
      hide CrashPoint, Orderly;
      NothingTaken(name, id, w, w);
      hide Careful;
      ok := Run(c, possible, after);
      OrderlyStep(w0, name, id, old(trace), from, w);
    }

    /** Create the link and name it. */
    method MakeLink(name: string, id: string, ghost w0: World) returns (created: bool, named: bool)
      requires Valid() && w0.journal.None? && w0.routes == {} && w == w0.(journal := Some(Pending(name, id)))
      modifies this
      ensures created <==> luck(TuntapAdd) && name !in w0.devices
      ensures named <==> created && luck(SetAlias) && luck(ReadIdentity) && ValidName(name) && ValidIdentity(id)
      ensures w.journal == Some(Pending(name, id)) && w.routes == {} && CrashPoint(w0, name, id, w)
      ensures if created then w.devices == w0.devices[name := Device(if luck(SetAlias) then id else "", true, false)]
              else w.devices == w0.devices
      ensures Valid() && old(trace) <= trace && Orderly(w0, name, id, trace, |old(trace)|)
    {
      ghost var from := |trace|;
      assert Orderly(w0, name, id, trace, from);
      hide ValidName, ValidIdentity, CrashPoint, Orderly, Careful;
      JournalPoints(w0, name, id);
      named := false;
      if name !in w.devices {
        LinkPoint(w0, name, id, Created(w, name), Device("", true, false));
        NothingTaken(name, id, w, Created(w, name));
      }
      created := Do(TuntapAdd, name !in w.devices, Created(w, name), name, id, w0, from);
      if !created {
        return;
      }
      LinkPoint(w0, name, id, Aliased(w, name, id), Device(id, true, false));
      NothingTaken(name, id, w, Aliased(w, name, id));
      var done := Do(SetAlias, true, Aliased(w, name, id), name, id, w0, from);
      named := done && luck(ReadIdentity) && Matches(w, name, id);
    }

    /** Address the named link, raise it and route through it. */
    method RouteThrough(name: string, id: string, ghost w0: World) returns (routed: bool)
      requires Valid() && w0.journal.None? && w0.routes == {} && name !in w0.devices && Matches(w, name, id)
      requires w == World(w0.devices[name := Device(id, true, false)], {}, Some(Pending(name, id)))
      modifies this
      ensures routed <==> luck(AddrAdd) && luck(LinkUp) && luck(RouteAdd)
      ensures CrashPoint(w0, name, id, w) && w.journal == Some(Pending(name, id)) && Matches(w, name, id)
      ensures w.devices != w0.devices && w.routes == if routed then {name} else {}
      ensures Valid() && old(trace) <= trace && Orderly(w0, name, id, trace, |old(trace)|)
    {
      ghost var from := |trace|;
      assert Orderly(w0, name, id, trace, from);
      hide ValidName, ValidIdentity, CrashPoint, Orderly, Careful;
      routed := false;
      LinkPoint(w0, name, id, w, Device(id, true, false));
      NothingTaken(name, id, w, w);
      var done := Do(AddrAdd, true, w, name, id, w0, from);
      if !done {
        return;
      }
      LinkPoint(w0, name, id, BroughtUp(w, name), Device(id, true, true));
      NothingTaken(name, id, w, BroughtUp(w, name));
      done := Do(LinkUp, true, BroughtUp(w, name), name, id, w0, from);
      if !done {
        return;
      }
      var withRoute := w.(routes := w.routes + {name});
      LinkPoint(w0, name, id, withRoute, Device(id, true, true));
      NothingTaken(name, id, w, withRoute);
      routed := Do(RouteAdd, w.devices[name].up && name !in w.routes, withRoute, name, id, w0, from);
    }

    /** Create, name, address, raise, route, probe; says how far it got. */
    method ApplyAll(name: string, id: string, ghost w0: World) returns (ok: bool, created: bool, routed: bool)
      requires Valid() && w0.journal.None? && w0.routes == {} && w == w0.(journal := Some(Pending(name, id)))
      modifies this
      ensures ok <==>
              && name !in w0.devices && ValidName(name) && ValidIdentity(id)
              && luck(TuntapAdd) && luck(SetAlias) && luck(ReadIdentity) && luck(AddrAdd) && luck(LinkUp)
              && luck(RouteAdd) && luck(RouteGet)
      ensures created <==> MakesLink(w0, name, luck)
      ensures (routed <==> MakesRoute(w0, name, id, luck)) && (ok ==> routed)
      ensures created ==> (Matches(w, name, id) <==> NamesLink(name, id, luck))
      ensures CrashPoint(w0, name, id, w)
      ensures created <==> w.devices != w0.devices
      ensures created ==> name !in w0.devices && name in w.devices
      ensures routed ==> created && Matches(w, name, id) && w.routes == {name}
      ensures !routed ==> w.routes == {}
      ensures w.journal == Some(Pending(name, id))
      ensures Valid() && old(trace) <= trace && Orderly(w0, name, id, trace, |old(trace)|)
    {
      assert ValidIdentity(id) ==> id != "";
      hide ValidName, ValidIdentity, CrashPoint, Orderly;
      ghost var from := |trace|;
      var named;
      routed := false;
      created, named := MakeLink(name, id, w0);
      ghost var made := trace;
      if named {
        routed := RouteThrough(name, id, w0);
        OrderlyJoin(w0, name, id, made, from, trace);
      }
      ok := routed && luck(RouteGet);
    }

    /** Undo what was made, but only on a link that still carries the identity: in any world, whatever the
        caller believes it made, any other link and the journal stay as they are. */
    method Cleanup(name: string, id: string, routed: bool, created: bool) returns (clean: bool)
      requires Valid()
      modifies this
      ensures clean <==>
              (created ==>
                 && luck(CleanupRead) && Matches(old(w), name, id)
                 && (routed ==> luck(RouteDel) && name in old(w).routes) && luck(LinkDel))
      ensures clean && created ==> w == LinkGone(old(w), name)
      ensures !created || !Matches(old(w), name, id) ==> w == old(w) && trace == old(trace)
      ensures RemovalPoint(old(w), name, id, w) && Careful(name, id, old(w), w)
      ensures Valid() && old(trace) <= trace
      ensures forall i :: |old(trace)| <= i < |trace| ==> RemovalPoint(old(w), name, id, trace[i])
      ensures forall i :: |old(trace)| <= i < |trace| ==> Careful(name, id, trace[i - 1], trace[i])
    {
      hide ValidName, ValidIdentity;
      clean := true;
      var verified := false;
      if created {
        verified := luck(CleanupRead) && Matches(w, name, id);
        clean := verified;
      }
      if routed && verified {
        var done := Run(RouteDel, name in w.routes, RouteGone(w, name));
        clean := clean && done;
      }
      if created && verified {
        assert RouteGone(RouteGone(old(w), name), name) == RouteGone(old(w), name);
        var done := Run(LinkDel, name in w.devices, LinkGone(w, name));
        clean := clean && done;
        assert done ==> w.routes == old(w).routes - {name};
      }
    }

    /** The whole run. It succeeds exactly on a host without that link, route or journal whose commands all go
        through, and then leaves the host as it found it. Every world it passes through is a crash point, and
        no step of it takes away a link that does not carry the identity. */
    method Smoke(name: string, id: string) returns (ok: bool)
      requires Valid() && Lawful(list)
      modifies this
      ensures ok <==>
              && name !in old(w).devices && old(w).routes == {} && old(w).journal.None?
              && ValidName(name) && ValidIdentity(id)
              && forall c :: c != FirstProbe && c != LastProbe && c != JournalRead ==> luck(c)
      ensures ok ==> w == old(w)
      ensures w == old(w) <==> !ReachesJournal(old(w), name, luck) || LeavesNoTrace(old(w), name, id, luck)
      ensures Valid() && old(trace) <= trace && Orderly(old(w), name, id, trace, |old(trace)|)
      ensures CrashPoint(old(w), name, id, w)
    {
      assert Orderly(w, name, id, trace, |trace|);
      hide CrashPoint, Orderly, Mentions, ValidName, ValidIdentity, CarryLuck;
      JournalPoints(w, name, id);
      AllLuck(luck);
      ok := false;
      if !luck(WhoAmI) || !luck(Baseline) {
        return;
      }
      if (luck(FirstProbe) && name in w.devices) || !luck(FirstRoutes) || list(w.routes) != "" {
        return;
      }
      assert w.routes == {};
      ok := Carry(name, id);
    }

    /** The part under the journal. */
    method Carry(name: string, id: string) returns (ok: bool)
      requires Valid() && Lawful(list) && w.routes == {}
      modifies this
      ensures ok <==>
              && name !in old(w).devices && old(w).journal.None? && ValidName(name) && ValidIdentity(id)
              && CarryLuck(luck)
      ensures ok ==> w == old(w)
      ensures w == old(w) <==> LeavesNoTrace(old(w), name, id, luck)
      ensures Valid() && old(trace) <= trace && Orderly(old(w), name, id, trace, |old(trace)|)
      ensures CrashPoint(old(w), name, id, w)
    {
      hide CrashPoint, Orderly, Careful, Mentions, ValidName, ValidIdentity;
      ghost var w0, from := w, |trace|;
      JournalPoints(w0, name, id);
      ok := WriteJournal(name, id);
      if !ok {
        return;
      }
      ghost var written := trace;
      var applied, created, routed := ApplyAll(name, id, w0);
      OrderlyJoin(w0, name, id, written, from, trace);
      ghost var made := trace;
      var clean := Undo(name, id, routed, created, w0);
      OrderlyJoin(w0, name, id, made, from, trace);
      if !clean {
        return false;
      }
      NothingTaken(name, id, w, w.(journal := None));
      var removed := Do(JournalRemove, true, w.(journal := None), name, id, w0, from);
      ok := applied && removed;
      if ok {
        NothingMentionsNothing(name);
        var residue := (luck(LastProbe) && name in w.devices) || !luck(LastRoutes) || Mentions(list(w.routes), name);
        ok := !residue && luck(BaselineAgain);
      }
    }

    /** Cleanup of what this run has made. */
    method Undo(name: string, id: string, routed: bool, created: bool, ghost w0: World) returns (clean: bool)
      requires Valid() && CrashPoint(w0, name, id, w) && w.journal == Some(Pending(name, id)) && w0.journal.None?
      requires (created <==> w.devices != w0.devices) && (created ==> name !in w0.devices && name in w.devices)
      requires (routed <==> name in w.routes) && (routed ==> created)
      modifies this
      ensures clean <==>
              (created ==>
                 && luck(CleanupRead) && Matches(old(w), name, id)
                 && (routed ==> luck(RouteDel)) && luck(LinkDel))
      ensures clean ==> w == w0.(journal := Some(Pending(name, id)))
      ensures CrashPoint(w0, name, id, w) && w.journal == Some(Pending(name, id))
      ensures Valid() && old(trace) <= trace && Orderly(w0, name, id, trace, |old(trace)|)
    {
      ghost var before := w;
      clean := Cleanup(name, id, routed, created);
      assert w.journal == before.journal;
      if created {
        hide CrashPoint, RemovalPoint, Careful, Matches;
        forall x | RemovalPoint(before, name, id, x)
          ensures CrashPoint(w0, name, id, x)
        {
          RemovalPointsAreCrashPoints(w0, name, id, before, x);
        }
        RemovalPointsAreCrashPoints(w0, name, id, before, w);
      }
    }

    /** Only ever a new file: cut short if its contents fail to go out, complete if only the newline after
        them does. */
    method WriteJournal(name: string, id: string) returns (ok: bool)
      requires Valid()
      modifies this
      ensures ok <==> old(w).journal.None? && luck(JournalCreate) && luck(JournalWrite) && luck(JournalNewline)
      ensures w == if old(w).journal.Some? || !luck(JournalCreate) then old(w)
                   else old(w).(journal := Some(if luck(JournalWrite) then Pending(name, id) else Torn))
      ensures Valid() && old(trace) <= trace
      ensures forall i :: |old(trace)| <= i < |trace| ==>
                trace[i].devices == old(w).devices && trace[i].routes == old(w).routes
      ensures old(w).journal.Some? ==> forall i :: |old(trace)| <= i < |trace| ==> trace[i] == old(w)
      ensures old(w).routes == {} ==> Orderly(old(w), name, id, trace, |old(trace)|)
    {
      ghost var w0, from := w, |trace|;
      ok := Run(JournalCreate, w.journal.None?, w.(journal := Some(Torn)));
      if ok {
        ok := Run(JournalWrite, true, w.(journal := Some(Pending(name, id))));
        if ok {
          ok := Run(JournalNewline, true, w);
        }
      }
      if w0.routes == {} {
        JournalPoints(w0, name, id);
        hide CrashPoint;
      }
    }

    method Rollback() returns (ok: bool)
      requires Valid()
      modifies this
      ensures ok <==> RollbackSucceeds(old(w), luck, list)
      ensures ok ==> w == RolledBack(old(w), luck)
      ensures !ok ==> RollbackPoint(old(w), w)
      ensures Valid() && old(trace) <= trace
      ensures forall i :: |old(trace)| <= i < |trace| ==> RollbackPoint(old(w), trace[i]) || (ok && trace[i] == w)
    {
      hide Mentions, ValidName, ValidIdentity;
      ghost var w0 := w;
      ok := false;
      if !luck(JournalRead) || w.journal.None? || w.journal.value.Torn? || !luck(Baseline) {
        return;
      }
      var name, id := w.journal.value.device, w.journal.value.identity;
      if !ValidName(name) {
        return;
      }
      var present := luck(FirstProbe) && name in w.devices;
      if present && !(luck(ReadIdentity) && Matches(w, name, id)) {
        return;
      }
      if !luck(FirstRoutes) {
        return;
      }
      if Mentions(list(w.routes), name) {
        if !present {
          return;
        }
        var gone := Run(RouteDel, name in w.routes, RouteGone(w, name));
        if !gone {
          return;
        }
      }
      if present {
        var gone := Run(LinkDel, name in w.devices, LinkGone(w, name));
        if !gone {
          return;
        }
        assert w.routes == w0.routes - {name};
        assert w == LinkGone(w0, name);
      }
      var residue := (luck(LastProbe) && name in w.devices) || !luck(LastRoutes) || Mentions(list(w.routes), name);
      if residue || !luck(BaselineAgain) {
        return;
      }
      ok := Run(JournalRemove, true, w.(journal := None));
    }
  }
}
