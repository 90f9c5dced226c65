/** The bounded, expiring replay cache, and the unbounded history it has to agree with. */
module Replay {
  import opened Bytes

  type Credential = string
  type Nonce = seq<byte>

  const I64_MIN: int := -0x8000_0000_0000_0000
  const I64_MAX: int := 0x7FFF_FFFF_FFFF_FFFF

  datatype Entry = Entry(nonce: Nonce, timestamp: i64)
  datatype Bucket = Bucket(keys: set<Nonce>, entries: seq<Entry>)

  datatype Verdict =
    | Accepted
    | WindowUnderflow | WindowOverflow | TooOld | TooNew
    | CredentialLimit | DuplicateNonce | CacheFull

  datatype Limits = Limits(window: i64, maxEntries: nat, maxCredentials: nat)

  datatype Call = Check(credential: Credential, nonce: Nonce, timestamp: i64, now: i64) | Cleanup(now: i64)

  type Credentials = map<Credential, Bucket>

  /** Saturating `now - window`. */
  function Cutoff(window: i64, now: i64): (c: i64)
  {
    if now - window < I64_MIN then I64_MIN else if now - window > I64_MAX then I64_MAX else now - window
  }

  // ----- the cache on values -----

  function Keep(entries: seq<Entry>, cutoff: i64): (kept: seq<Entry>)
  {
    if entries == [] then []
    else
      var last := entries[|entries| - 1];
      Keep(entries[..|entries| - 1], cutoff) + if last.timestamp >= cutoff then [last] else []
  }

  /** `keys` after the nonces of the dropped entries have been removed. */
  function KeepKeys(keys: set<Nonce>, entries: seq<Entry>, cutoff: i64): (kept: set<Nonce>)
  {
    keys - set i | 0 <= i < |entries| && entries[i].timestamp < cutoff :: entries[i].nonce
  }

  function Retain(b: Bucket, cutoff: i64): (b': Bucket)
  {
    Bucket(KeepKeys(b.keys, b.entries, cutoff), Keep(b.entries, cutoff))
  }

  function CleanedAt(m: Credentials, cutoff: i64): (m': Credentials)
  {
    map c | c in m && Keep(m[c].entries, cutoff) != [] :: Retain(m[c], cutoff)
  }

  /** Why a call is turned away before the cache is looked at. */
  function OutsideWindow(l: Limits, timestamp: i64, now: i64): (v: Verdict)
    ensures v == Accepted <==>
            && I64_MIN <= now - l.window && now + l.window <= I64_MAX
            && now + l.window >= I64_MIN && now - l.window <= I64_MAX
            && now - l.window <= timestamp <= now + l.window
  {
    if !(I64_MIN <= now - l.window <= I64_MAX) then WindowUnderflow
    else if !(I64_MIN <= now + l.window <= I64_MAX) then WindowOverflow
    else if timestamp < now - l.window then TooOld
    else if timestamp > now + l.window then TooNew
    else Accepted
  }

  /** The cache half of `check_and_insert`, on an already cleaned map. */
  function Insert(l: Limits, m: Credentials, c: Credential, e: Entry): (r: (Verdict, Credentials))
  {
    if c !in m && |m| >= l.maxCredentials then (CredentialLimit, m)
    else
      var b := if c in m then m[c] else Bucket({}, []);
      if e.nonce in b.keys then (DuplicateNonce, m[c := b])
      else if |b.entries| >= l.maxEntries then (CacheFull, m[c := b])
      else (Accepted, m[c := Bucket(b.keys + {e.nonce}, b.entries + [e])])
  }

  function Step(l: Limits, m: Credentials, call: Call): (r: (Verdict, Credentials))
  {
    match call
    case Cleanup(now) => (Accepted, CleanedAt(m, Cutoff(l.window, now)))
    case Check(c, nonce, timestamp, now) =>
      var early := OutsideWindow(l, timestamp, now);
      if early != Accepted then (early, m)
      else Insert(l, CleanedAt(m, Cutoff(l.window, now)), c, Entry(nonce, timestamp))
  }

  // ----- the unbounded history -----

  datatype Seen = Seen(credential: Credential, entry: Entry)

  /** The accepted entries of one credential that are not older than a cutoff, oldest acceptance first. */
  function Live(h: seq<Seen>, c: Credential, cutoff: i64): (es: seq<Entry>)
  {
    if h == [] then []
    else
      var last := h[|h| - 1];
      Live(h[..|h| - 1], c, cutoff) +
        if last.credential == c && last.entry.timestamp >= cutoff then [last.entry] else []
  }

  function LiveCredentials(h: seq<Seen>, cutoff: i64): (cs: set<Credential>)
  {
    set i | 0 <= i < |h| && h[i].entry.timestamp >= cutoff :: h[i].credential
  }

  predicate HasNonce(es: seq<Entry>, n: Nonce)
  {
    exists i :: 0 <= i < |es| && es[i].nonce == n
  }

  /** What a cache that never forgot anything would answer: everything is decided by the accepted
      history inside the window. */
  function Decide(l: Limits, h: seq<Seen>, call: Call): (v: Verdict)
  {
    match call
    case Cleanup(_) => Accepted
    case Check(c, nonce, timestamp, now) =>
      var early := OutsideWindow(l, timestamp, now);
      if early != Accepted then early
      else
        var cutoff := Cutoff(l.window, now);
        var live := Live(h, c, cutoff);
        if live == [] && |LiveCredentials(h, cutoff)| >= l.maxCredentials then CredentialLimit
        else if HasNonce(live, nonce) then DuplicateNonce
        else if |live| >= l.maxEntries then CacheFull
        else Accepted
  }

  function Remember(h: seq<Seen>, call: Call, v: Verdict): (h': seq<Seen>)
  {
    if call.Check? && v == Accepted then h + [Seen(call.credential, Entry(call.nonce, call.timestamp))] else h
  }

  // ----- runs -----

  /** The verdicts of the cache over a run. */
  function Verdicts(l: Limits, m: Credentials, calls: seq<Call>): (vs: seq<Verdict>)
    ensures |vs| == |calls|
    decreases |calls|
  {
    if calls == [] then []
    else
      var (v, m') := Step(l, m, calls[0]);
      [v] + Verdicts(l, m', calls[1..])
  }

  /** The verdicts of the unbounded history over the same run. */
  function Decisions(l: Limits, h: seq<Seen>, calls: seq<Call>): (vs: seq<Verdict>)
    ensures |vs| == |calls|
    decreases |calls|
  {
    if calls == [] then []
    else
      var v := Decide(l, h, calls[0]);
      [v] + Decisions(l, Remember(h, calls[0], v), calls[1..])
  }

  predicate ClockRises(calls: seq<Call>)
  {
    forall i, j :: 0 <= i < j < |calls| ==> calls[i].now <= calls[j].now
  }

  // ----- agreement -----

  predicate DistinctNonces(es: seq<Entry>)
  {
    forall i, j :: 0 <= i < j < |es| ==> es[i].nonce != es[j].nonce
  }

  ghost predicate BucketOk(b: Bucket)
  {
    && DistinctNonces(b.entries)
    && (forall n :: n in b.keys <==> HasNonce(b.entries, n))
  }

  function EntriesOf(m: Credentials, c: Credential): (es: seq<Entry>)
  {
    if c in m then m[c].entries else []
  }

  /** The cache holds exactly the live part of the history, as of a cutoff. */
  ghost predicate Agrees(m: Credentials, h: seq<Seen>, cutoff: i64)
  {
    && (forall c :: c in m ==> BucketOk(m[c]))
    && (forall c :: EntriesOf(m, c) == Live(h, c, cutoff))
  }

  lemma {:induction false} KeepMembers(es: seq<Entry>, cutoff: i64)
    ensures forall e :: e in Keep(es, cutoff) <==> e in es && e.timestamp >= cutoff
    ensures DistinctNonces(es) ==> DistinctNonces(Keep(es, cutoff))
  {
    if es != [] {
      var front, last := es[..|es| - 1], es[|es| - 1];
      KeepMembers(front, cutoff);
      assert es == front + [last];
      if DistinctNonces(es) {
        var kept := Keep(front, cutoff);
        forall i | 0 <= i < |kept|
          ensures kept[i].nonce != last.nonce
        {
          assert kept[i] in front;
        }
      }
    }
  }

  lemma RetainOk(b: Bucket, cutoff: i64)
    requires BucketOk(b)
    ensures BucketOk(Retain(b, cutoff))
  {
    KeepMembers(b.entries, cutoff);
    var kept := Keep(b.entries, cutoff);
    forall n
      ensures n in KeepKeys(b.keys, b.entries, cutoff) <==> HasNonce(kept, n)
    {
      if HasNonce(kept, n) {
        var i :| 0 <= i < |kept| && kept[i].nonce == n;
        assert kept[i] in b.entries;
        var j :| 0 <= j < |b.entries| && b.entries[j] == kept[i];
        assert HasNonce(b.entries, n);
      }
      if n in KeepKeys(b.keys, b.entries, cutoff) {
        var j :| 0 <= j < |b.entries| && b.entries[j].nonce == n;
        assert b.entries[j].timestamp >= cutoff;
        assert b.entries[j] in kept;
        var i :| 0 <= i < |kept| && kept[i] == b.entries[j];
      }
    }
  }

  /** Expiring the live part once more, at a later cutoff, is expiring the history at that cutoff. */
  lemma {:induction false} KeepLive(h: seq<Seen>, c: Credential, cutoff: i64, later: i64)
    requires cutoff <= later
    ensures Keep(Live(h, c, cutoff), later) == Live(h, c, later)
  {
    if h != [] {
      var front, last := h[..|h| - 1], h[|h| - 1];
      KeepLive(front, c, cutoff, later);
      var es := Live(front, c, cutoff);
      if last.credential == c && last.entry.timestamp >= cutoff {
        assert (es + [last.entry])[..|es|] == es;
      } else {
        assert Live(h, c, cutoff) == es + [] == es;
      }
    }
  }

  lemma CleanAgrees(m: Credentials, h: seq<Seen>, cutoff: i64, later: i64)
    requires Agrees(m, h, cutoff) && cutoff <= later
    ensures Agrees(CleanedAt(m, later), h, later)
  {
    var m' := CleanedAt(m, later);
    forall c
      ensures EntriesOf(m', c) == Live(h, c, later)
    {
      KeepLive(h, c, cutoff, later);
    }
    forall c | c in m'
      ensures BucketOk(m'[c])
    {
      RetainOk(m[c], later);
    }
  }

  lemma {:induction false} LiveExists(h: seq<Seen>, c: Credential, cutoff: i64)
    ensures Live(h, c, cutoff) != [] <==> c in LiveCredentials(h, cutoff)
  {
    if h != [] {
      var front, last := h[..|h| - 1], h[|h| - 1];
      LiveExists(front, c, cutoff);
      if c in LiveCredentials(h, cutoff) {
        var i :| 0 <= i < |h| && h[i].entry.timestamp >= cutoff && h[i].credential == c;
        if i < |front| {
          assert front[i] == h[i];
        }
      }
      if c in LiveCredentials(front, cutoff) {
        var i :| 0 <= i < |front| && front[i].entry.timestamp >= cutoff && front[i].credential == c;
        assert h[i] == front[i];
      }
    }
  }

  /** A cleaned cache has exactly the live credentials, none of them empty. */
  lemma CleanedCredentials(m: Credentials, h: seq<Seen>, cutoff: i64)
    requires Agrees(m, h, cutoff) && (forall c :: c in m ==> m[c].entries != [])
    ensures m.Keys == LiveCredentials(h, cutoff)
  {
    forall c
      ensures c in m.Keys <==> c in LiveCredentials(h, cutoff)
    {
      LiveExists(h, c, cutoff);
      assert EntriesOf(m, c) == Live(h, c, cutoff);
    }
  }

  lemma LiveSnoc(h: seq<Seen>, x: Seen, c: Credential, cutoff: i64)
    requires x.entry.timestamp >= cutoff
    ensures Live(h + [x], c, cutoff) == Live(h, c, cutoff) + if x.credential == c then [x.entry] else []
  {
    assert (h + [x])[..|h|] == h;
  }

  lemma InsertVerdict(l: Limits, m: Credentials, h: seq<Seen>, c: Credential, e: Entry, cutoff: i64)
    requires Agrees(m, h, cutoff)
    requires forall c' :: c' in m ==> m[c'].entries != []
    ensures var live := Live(h, c, cutoff);
            Insert(l, m, c, e).0 ==
              if live == [] && |LiveCredentials(h, cutoff)| >= l.maxCredentials then CredentialLimit
              else if HasNonce(live, e.nonce) then DuplicateNonce
              else if |live| >= l.maxEntries then CacheFull
              else Accepted
  {
    hide Live, LiveCredentials;
    CleanedCredentials(m, h, cutoff);
    assert |m| == |m.Keys|;
    assert EntriesOf(m, c) == Live(h, c, cutoff);
  }

  lemma InsertAgrees(l: Limits, m: Credentials, h: seq<Seen>, c: Credential, e: Entry, cutoff: i64)
    requires Agrees(m, h, cutoff) && e.timestamp >= cutoff
    ensures var (v, m') := Insert(l, m, c, e);
            Agrees(m', if v == Accepted then h + [Seen(c, e)] else h, cutoff)
  {
    hide Live, DistinctNonces, HasNonce;
    var (v, m') := Insert(l, m, c, e);
    var b := if c in m then m[c] else Bucket({}, []);
    EmptyBucketOk();
    if v == Accepted {
      InsertBucketOk(b, e);
    }
    hide BucketOk;
    var h' := if v == Accepted then h + [Seen(c, e)] else h;
    forall c'
      ensures EntriesOf(m', c') == Live(h', c', cutoff)
    {
      assert EntriesOf(m, c') == Live(h, c', cutoff);
      LiveSnoc(h, Seen(c, e), c', cutoff);
      assert Live(h, c', cutoff) + [] == Live(h, c', cutoff);
    }
  }

  lemma EmptyBucketOk()
    ensures BucketOk(Bucket({}, []))
  {
  }

  lemma InsertBucketOk(b: Bucket, e: Entry)
    requires BucketOk(b) && e.nonce !in b.keys
    ensures BucketOk(Bucket(b.keys + {e.nonce}, b.entries + [e]))
  {
    var es := b.entries + [e];
    forall n
      ensures n in b.keys + {e.nonce} <==> HasNonce(es, n)
    {
      if HasNonce(b.entries, n) {
        var i :| 0 <= i < |b.entries| && b.entries[i].nonce == n;
        assert es[i].nonce == n;
      }
      assert es[|b.entries|] == e;
    }
    forall i | 0 <= i < |b.entries|
      ensures es[i].nonce != e.nonce
    {
      assert HasNonce(b.entries, es[i].nonce);
    }
  }

  lemma CutoffRises(window: i64, a: i64, b: i64)
    requires a <= b
    ensures Cutoff(window, a) <= Cutoff(window, b)
  {
  }

  lemma StepAgrees(l: Limits, m: Credentials, h: seq<Seen>, call: Call, cutoff: i64)
    requires Agrees(m, h, cutoff) && cutoff <= Cutoff(l.window, call.now)
    ensures var (v, m') := Step(l, m, call);
            && v == Decide(l, h, call)
            && exists next: i64 :: next <= Cutoff(l.window, call.now) && Agrees(m', Remember(h, call, v), next)
  {
    var later := Cutoff(l.window, call.now);
    CleanAgrees(m, h, cutoff, later);
    match call
    case Cleanup(now) =>
      assert Agrees(Step(l, m, call).1, Remember(h, call, Accepted), later);
    case Check(c, nonce, timestamp, now) =>
      if OutsideWindow(l, timestamp, now) == Accepted {
        InsertVerdict(l, CleanedAt(m, later), h, c, Entry(nonce, timestamp), later);
        InsertAgrees(l, CleanedAt(m, later), h, c, Entry(nonce, timestamp), later);
        var (v, m') := Step(l, m, call);
        assert Agrees(m', Remember(h, call, v), later);
      } else {
        assert Agrees(m, Remember(h, call, Step(l, m, call).0), cutoff);
      }
  }

  /** For every run with a clock that does not go back, the bounded cache answers every call as the
      unbounded history does: same acceptances, same reason for every refusal. */
  lemma {:induction false} CacheMatchesHistory(l: Limits, m: Credentials, h: seq<Seen>, calls: seq<Call>, cutoff: i64)
    requires Agrees(m, h, cutoff) && ClockRises(calls)
    requires forall i :: 0 <= i < |calls| ==> cutoff <= Cutoff(l.window, calls[i].now)
    ensures Verdicts(l, m, calls) == Decisions(l, h, calls)
    decreases |calls|
  {
    if calls != [] {
      StepAgrees(l, m, h, calls[0], cutoff);
      var (v, m') := Step(l, m, calls[0]);
      var h' := Remember(h, calls[0], v);
      var next: i64 :| next <= Cutoff(l.window, calls[0].now) && Agrees(m', h', next);
      var rest := calls[1..];
      forall i | 0 <= i < |rest|
        ensures next <= Cutoff(l.window, rest[i].now)
      {
        assert rest[i] == calls[i + 1];
        CutoffRises(l.window, calls[0].now, rest[i].now);
      }
      CacheMatchesHistory(l, m', h', rest, next);
    }
  }

  lemma FreshCacheMatchesHistory(l: Limits, calls: seq<Call>)
    requires ClockRises(calls)
    ensures Verdicts(l, map[], calls) == Decisions(l, [], calls)
  {
    var empty: Credentials := map[];
    assert Agrees(empty, [], I64_MIN);
    CacheMatchesHistory(l, empty, [], calls, I64_MIN);
  }

  // ----- what the history promises -----

  lemma {:induction false} LiveHas(h: seq<Seen>, c: Credential, cutoff: i64, i: nat)
    requires i < |h| && h[i].credential == c && h[i].entry.timestamp >= cutoff
    ensures HasNonce(Live(h, c, cutoff), h[i].entry.nonce)
  {
    var front := h[..|h| - 1];
    var es := Live(front, c, cutoff);
    if i < |front| {
      LiveHas(front, c, cutoff, i);
      var k :| 0 <= k < |es| && es[k].nonce == h[i].entry.nonce;
      assert Live(h, c, cutoff)[k] == es[k];
    } else {
      assert Live(h, c, cutoff)[|es|] == h[i].entry;
    }
  }

  /** Anything already in the history keeps its nonce refused until its timestamp leaves the window. */
  lemma {:induction false} RememberedNonceExpires(l: Limits, h: seq<Seen>, calls: seq<Call>, i: nat, j: nat)
    requires i < |h| && j < |calls| && calls[j].Check?
    requires h[i].credential == calls[j].credential && h[i].entry.nonce == calls[j].nonce
    requires Decisions(l, h, calls)[j] == Accepted
    ensures h[i].entry.timestamp < calls[j].now - l.window <= calls[j].timestamp
    decreases |calls|
  {
    if j == 0 {
      var cutoff := Cutoff(l.window, calls[0].now);
      if h[i].entry.timestamp >= cutoff {
        LiveHas(h, calls[0].credential, cutoff, i);
      }
    } else {
      var h' := Remember(h, calls[0], Decide(l, h, calls[0]));
      assert h'[i] == h[i];
      RememberedNonceExpires(l, h', calls[1..], i, j - 1);
    }
  }

  lemma {:induction false} LaterAcceptance(l: Limits, h: seq<Seen>, calls: seq<Call>, i: nat, j: nat)
    requires i < j < |calls| && calls[i].Check? && calls[j].Check?
    requires calls[i].credential == calls[j].credential && calls[i].nonce == calls[j].nonce
    requires Decisions(l, h, calls)[i] == Accepted && Decisions(l, h, calls)[j] == Accepted
    ensures calls[i].timestamp < calls[j].now - l.window <= calls[j].timestamp
    decreases |calls|
  {
    var h' := Remember(h, calls[0], Decide(l, h, calls[0]));
    if i == 0 {
      assert h'[|h|] == Seen(calls[0].credential, Entry(calls[0].nonce, calls[0].timestamp));
      RememberedNonceExpires(l, h', calls[1..], |h|, j - 1);
    } else {
      LaterAcceptance(l, h', calls[1..], i - 1, j - 1);
    }
  }

  /** The replay guarantee. Over any run with a clock that does not go back, a nonce accepted a second
      time for the same credential means the first timestamp has fallen below the window by then; so no
      (credential, nonce, timestamp) is ever accepted twice. */
  lemma NoReplay(l: Limits, calls: seq<Call>, i: nat, j: nat)
    requires ClockRises(calls)
    requires i < j < |calls| && calls[i].Check? && calls[j].Check?
    requires calls[i].credential == calls[j].credential && calls[i].nonce == calls[j].nonce
    requires Verdicts(l, map[], calls)[i] == Accepted && Verdicts(l, map[], calls)[j] == Accepted
    ensures calls[i].timestamp < calls[j].now - l.window
    ensures calls[i].timestamp != calls[j].timestamp
  {
    FreshCacheMatchesHistory(l, calls);
    LaterAcceptance(l, [], calls, i, j);
  }

  /** The clock condition is needed: let it go back over a cleanup and the same triple is accepted twice. */
  lemma ClockGoingBackReplays(n: Nonce)
    ensures var l := Limits(10, 8, 8);
            var again := Check("u", n, 100, 105);
            var run := [Check("u", n, 100, 100), Cleanup(111), again];
            Verdicts(l, map[], run)[0] == Accepted && Verdicts(l, map[], run)[2] == Accepted
  {
    var l := Limits(10, 8, 8);
    var empty: Credentials := map[];
    var e := Entry(n, 100);
    var first, clean, again := Check("u", n, 100, 100), Cleanup(111), Check("u", n, 100, 105);
    var one: Credentials := map["u" := Bucket({n}, [e])];
    assert CleanedAt(empty, 90) == empty;
    assert Step(l, empty, first) == (Accepted, one) by {
      assert {} + {n} == {n};
      assert [] + [e] == [e];
    }
    assert Keep([e], 101) == [];
    assert Step(l, one, clean) == (Accepted, empty);
    assert CleanedAt(empty, 95) == empty;
    assert Step(l, empty, again).0 == Accepted;
    var run := [first, clean, again];
    assert run[1..] == [clean, again];
    assert [clean, again][1..] == [again];
    assert Verdicts(l, map[], run) == [Accepted] + Verdicts(l, one, [clean, again]);
    assert Verdicts(l, one, [clean, again]) == [Accepted] + Verdicts(l, empty, [again]);
  }

  // ----- credential isolation -----

  predicate About(call: Call, c: Credential)
  {
    call.Check? && call.credential == c
  }

  /** One credential's calls. */
  function Only(calls: seq<Call>, c: Credential): (r: seq<Call>)
  {
    if calls == [] then []
    else (if About(calls[0], c) then [calls[0]] else []) + Only(calls[1..], c)
  }

  /** The verdicts a run gives to one credential's calls. */
  function VerdictsFor(calls: seq<Call>, vs: seq<Verdict>, c: Credential): (r: seq<Verdict>)
    requires |vs| == |calls|
    decreases |calls|
  {
    if calls == [] then []
    else (if About(calls[0], c) then [vs[0]] else []) + VerdictsFor(calls[1..], vs[1..], c)
  }

  function OnlySeen(h: seq<Seen>, c: Credential): (r: seq<Seen>)
  {
    if h == [] then []
    else OnlySeen(h[..|h| - 1], c) + if h[|h| - 1].credential == c then [h[|h| - 1]] else []
  }

  lemma {:induction false} OnlySeenLive(h: seq<Seen>, c: Credential, cutoff: i64)
    ensures Live(OnlySeen(h, c), c, cutoff) == Live(h, c, cutoff)
    ensures forall i :: 0 <= i < |OnlySeen(h, c)| ==> OnlySeen(h, c)[i].credential == c
  {
    if h != [] {
      var front := h[..|h| - 1];
      OnlySeenLive(front, c, cutoff);
      var o := OnlySeen(front, c);
      if h[|h| - 1].credential == c {
        assert (o + [h[|h| - 1]])[..|o|] == o;
      } else {
        assert OnlySeen(h, c) == o + [] == o;
        assert Live(h, c, cutoff) == Live(front, c, cutoff) + [];
      }
    }
  }

  lemma OnlySeenSnoc(h: seq<Seen>, x: Seen, c: Credential)
    ensures OnlySeen(h + [x], c) == OnlySeen(h, c) + if x.credential == c then [x] else []
  {
    assert (h + [x])[..|h|] == h;
  }

  /** For one credential, the rest of the history only matters through the credential limit. */
  lemma DecideAlone(l: Limits, h: seq<Seen>, call: Call)
    requires call.Check? && Decide(l, h, call) != CredentialLimit
    ensures Decide(l, OnlySeen(h, call.credential), call) == Decide(l, h, call)
  {
    var c := call.credential;
    var cutoff := Cutoff(l.window, call.now);
    OnlySeenLive(h, c, cutoff);
    if OutsideWindow(l, call.timestamp, call.now) == Accepted && Live(h, c, cutoff) == [] {
      LiveExists(OnlySeen(h, c), c, cutoff);
      assert LiveCredentials(OnlySeen(h, c), cutoff) == {};
    }
  }

  lemma RememberSeen(h: seq<Seen>, call: Call, v: Verdict, c: Credential)
    ensures OnlySeen(Remember(h, call, v), c) ==
            if About(call, c) then Remember(OnlySeen(h, c), call, v) else OnlySeen(h, c)
  {
    if call.Check? && v == Accepted {
      OnlySeenSnoc(h, Seen(call.credential, Entry(call.nonce, call.timestamp)), c);
      hide OnlySeen;
    }
  }

  lemma {:induction false} DecisionsAlone(l: Limits, h: seq<Seen>, calls: seq<Call>, c: Credential)
    requires CredentialLimit !in VerdictsFor(calls, Decisions(l, h, calls), c)
    ensures VerdictsFor(calls, Decisions(l, h, calls), c) == Decisions(l, OnlySeen(h, c), Only(calls, c))
    decreases |calls|
  {
    hide Decide, OnlySeen, Remember;
    if calls != [] {
      var v, rest := Decide(l, h, calls[0]), calls[1..];
      var h' := Remember(h, calls[0], v);
      var vs, later := Decisions(l, h, calls), Decisions(l, h', rest);
      assert vs == [v] + later && vs[1..] == later;
      RememberSeen(h, calls[0], v, c);
      if About(calls[0], c) {
        assert VerdictsFor(calls, vs, c) == [v] + VerdictsFor(rest, later, c);
        assert v in VerdictsFor(calls, vs, c);
        DecideAlone(l, h, calls[0]);
        assert Only(calls, c)[0] == calls[0] && Only(calls, c)[1..] == Only(rest, c);
      } else {
        assert VerdictsFor(calls, vs, c) == VerdictsFor(rest, later, c);
        assert Only(calls, c) == Only(rest, c);
      }
      DecisionsAlone(l, h', rest, c);
    }
  }

  lemma {:induction false} OnlyMembers(calls: seq<Call>, c: Credential)
    ensures forall x :: x in Only(calls, c) ==> x in calls
    ensures ClockRises(calls) ==> ClockRises(Only(calls, c))
  {
    if calls != [] {
      OnlyMembers(calls[1..], c);
      var rest := Only(calls[1..], c);
      if ClockRises(calls) && About(calls[0], c) {
        forall j | 0 <= j < |rest|
          ensures calls[0].now <= rest[j].now
        {
          assert rest[j] in calls[1..];
          var k :| 0 <= k < |calls[1..]| && calls[1..][k] == rest[j];
          assert calls[k + 1] == rest[j];
        }
      }
    }
  }

  /** Deleting every other credential's calls (and the cleanups) from a run leaves one credential's results
      unchanged, as long as that credential was not refused for the credential limit. */
  lemma CredentialIsolation(l: Limits, calls: seq<Call>, c: Credential)
    requires ClockRises(calls)
    requires CredentialLimit !in VerdictsFor(calls, Verdicts(l, map[], calls), c)
    ensures VerdictsFor(calls, Verdicts(l, map[], calls), c) == Verdicts(l, map[], Only(calls, c))
  {
    FreshCacheMatchesHistory(l, calls);
    OnlyMembers(calls, c);
    FreshCacheMatchesHistory(l, Only(calls, c));
    DecisionsAlone(l, [], calls, c);
  }

  // ----- bounds -----

  /** Key sets mirror the entries, no bucket is empty and neither limit is exceeded. */
  ghost predicate CacheOk(l: Limits, m: Credentials)
  {
    && |m| <= l.maxCredentials
    && forall c :: c in m ==> BucketOk(m[c]) && 0 < |m[c].entries| <= l.maxEntries
  }

  /** Every stored timestamp is inside [low, high]. */
  predicate Within(m: Credentials, low: int, high: int)
  {
    forall c, i :: c in m && 0 <= i < |m[c].entries| ==> low <= m[c].entries[i].timestamp <= high
  }

  lemma {:induction false} KeepShorter(es: seq<Entry>, cutoff: i64)
    ensures |Keep(es, cutoff)| <= |es|
  {
    if es != [] {
      KeepShorter(es[..|es| - 1], cutoff);
    }
  }

  lemma CleanedOk(l: Limits, m: Credentials, cutoff: i64, high: int)
    requires CacheOk(l, m) && Within(m, I64_MIN, high)
    ensures CacheOk(l, CleanedAt(m, cutoff)) && Within(CleanedAt(m, cutoff), cutoff, high)
  {
    var m' := CleanedAt(m, cutoff);
    assert m'.Keys <= m.Keys;
    SubsetSize(m'.Keys, m.Keys);
    forall c | c in m'
      ensures BucketOk(m'[c]) && 0 < |m'[c].entries| <= l.maxEntries
      ensures forall i :: 0 <= i < |m'[c].entries| ==> cutoff <= m'[c].entries[i].timestamp <= high
    {
      RetainOk(m[c], cutoff);
      KeepShorter(m[c].entries, cutoff);
      KeepMembers(m[c].entries, cutoff);
      forall i | 0 <= i < |m'[c].entries|
        ensures cutoff <= m'[c].entries[i].timestamp <= high
      {
        assert m'[c].entries[i] in m[c].entries;
      }
    }
  }

  /** Storing one good bucket in a good cache. */
  lemma PutOk(l: Limits, m: Credentials, c: Credential, b: Bucket, low: int, high: int)
    requires CacheOk(l, m) && Within(m, low, high) && (c in m || |m| < l.maxCredentials)
    requires BucketOk(b) && 0 < |b.entries| <= l.maxEntries
    requires forall i :: 0 <= i < |b.entries| ==> low <= b.entries[i].timestamp <= high
    ensures CacheOk(l, m[c := b]) && Within(m[c := b], low, high)
  {
    hide BucketOk;
    var m' := m[c := b];
    assert m'.Keys == m.Keys + {c};
    assert c in m ==> m.Keys + {c} == m.Keys;
    assert |m'| == |m'.Keys| && |m| == |m.Keys|;
  }

  lemma InsertOk(l: Limits, m: Credentials, c: Credential, e: Entry, low: int, high: int)
    requires l.maxEntries > 0
    requires CacheOk(l, m) && Within(m, low, high) && low <= e.timestamp <= high
    ensures CacheOk(l, Insert(l, m, c, e).1) && Within(Insert(l, m, c, e).1, low, high)
  {
    hide HasNonce, DistinctNonces;
    var b := if c in m then m[c] else Bucket({}, []);
    EmptyBucketOk();
    var (v, m') := Insert(l, m, c, e);
    if v == Accepted {
      InsertBucketOk(b, e);
      PutOk(l, m, c, Bucket(b.keys + {e.nonce}, b.entries + [e]), low, high);
    } else if v != CredentialLimit {
      assert c in m;
      assert m[c := m[c]] == m;
    }
  }

  function After(l: Limits, m: Credentials, calls: seq<Call>): (m': Credentials)
    decreases |calls|
  {
    if calls == [] then m else After(l, Step(l, m, calls[0]).1, calls[1..])
  }

  lemma WithinWider(m: Credentials, low: int, high: int, low': int, high': int)
    requires Within(m, low, high) && low' <= low && high <= high'
    ensures Within(m, low', high')
  {
  }

  /** One call under any clock: everything it says of the cache holds, and a full cache holds nothing that is
      below the window of the call that found it full. */
  lemma StepOk(l: Limits, m: Credentials, call: Call)
    requires l.maxEntries > 0 && CacheOk(l, m)
    ensures CacheOk(l, Step(l, m, call).1)
    ensures Step(l, m, call).0 == CacheFull ==> Within(Step(l, m, call).1, call.now - l.window, I64_MAX)
  {
    var cutoff := Cutoff(l.window, call.now);
    var cleaned := CleanedAt(m, cutoff);
    assert Within(m, I64_MIN, I64_MAX);
    hide CacheOk, Within, CleanedAt, Insert;
    CleanedOk(l, m, cutoff, I64_MAX);
    if call.Check? && OutsideWindow(l, call.timestamp, call.now) == Accepted {
      InsertOk(l, cleaned, call.credential, Entry(call.nonce, call.timestamp), cutoff, I64_MAX);
    }
  }

  lemma {:induction false} RunOk(l: Limits, m: Credentials, calls: seq<Call>)
    requires l.maxEntries > 0 && CacheOk(l, m)
    ensures CacheOk(l, After(l, m, calls))
    decreases |calls|
  {
    hide CacheOk, Step;
    if calls != [] {
      StepOk(l, m, calls[0]);
      RunOk(l, Step(l, m, calls[0]).1, calls[1..]);
    }
  }

  /** With a clock that does not go back nothing is above the window either. */
  lemma StepTop(l: Limits, m: Credentials, call: Call, high: int)
    requires l.maxEntries > 0 && CacheOk(l, m) && Within(m, I64_MIN, high) && high <= call.now + l.window
    ensures Within(Step(l, m, call).1, I64_MIN, call.now + l.window)
  {
    hide CacheOk, Within, CleanedAt, Insert;
    var cutoff, top := Cutoff(l.window, call.now), call.now + l.window;
    var cleaned := CleanedAt(m, cutoff);
    CleanedOk(l, m, cutoff, high);
    WithinWider(cleaned, cutoff, high, cutoff, top);
    WithinWider(cleaned, cutoff, high, I64_MIN, top);
    WithinWider(m, I64_MIN, high, I64_MIN, top);
    if call.Check? && OutsideWindow(l, call.timestamp, call.now) == Accepted {
      var e := Entry(call.nonce, call.timestamp);
      InsertOk(l, cleaned, call.credential, e, cutoff, top);
      WithinWider(Insert(l, cleaned, call.credential, e).1, cutoff, top, I64_MIN, top);
    }
  }

  lemma {:induction false} RunTop(l: Limits, m: Credentials, calls: seq<Call>, high: int)
    requires l.maxEntries > 0 && ClockRises(calls) && CacheOk(l, m) && Within(m, I64_MIN, high)
    requires forall i :: 0 <= i < |calls| ==> high <= calls[i].now + l.window
    ensures Within(After(l, m, calls), I64_MIN, if calls == [] then high else calls[|calls| - 1].now + l.window)
    decreases |calls|
  {
    hide CacheOk, Within, Step;
    if calls != [] {
      StepOk(l, m, calls[0]);
      StepTop(l, m, calls[0], high);
      var rest := calls[1..];
      forall i | 0 <= i < |rest|
        ensures calls[0].now + l.window <= rest[i].now + l.window
      {
        assert rest[i] == calls[i + 1];
      }
      RunTop(l, Step(l, m, calls[0]).1, rest, calls[0].now + l.window);
    }
  }

  lemma {:induction false} AfterSnoc(l: Limits, m: Credentials, calls: seq<Call>, next: Call)
    ensures After(l, m, calls + [next]) == Step(l, After(l, m, calls), next).1
    decreases |calls|
  {
    hide Step;
    if calls == [] {
      assert calls + [next] == [next] && [next][1..] == [];
    } else {
      assert (calls + [next])[1..] == calls[1..] + [next];
      AfterSnoc(l, Step(l, m, calls[0]).1, calls[1..], next);
    }
  }

  lemma NothingStored(l: Limits)
    ensures CacheOk(l, map[]) && forall high :: Within(map[], I64_MIN, high)
  {
  }

  /** After any run, under any clock, the cache is within both bounds with exact key sets and no empty bucket,
      and the next call reports a full cache only when no stored entry is below its window; if the clock has
      not gone back, only when every stored entry is inside it. */
  lemma RunStaysBounded(l: Limits, calls: seq<Call>, next: Call)
    requires l.maxEntries > 0
    ensures var m := After(l, map[], calls);
            && CacheOk(l, m)
            && (Step(l, m, next).0 == CacheFull ==>
                  && Within(Step(l, m, next).1, next.now - l.window, I64_MAX)
                  && (ClockRises(calls + [next]) ==>
                        Within(Step(l, m, next).1, next.now - l.window, next.now + l.window)))
  {
    hide CacheOk, Step, After;
    var empty: Credentials := map[];
    NothingStored(l);
    RunOk(l, empty, calls);
    StepOk(l, After(l, empty, calls), next);
    var all := calls + [next];
    if ClockRises(all) {
      RunTop(l, empty, all, all[0].now + l.window);
      AfterSnoc(l, empty, calls, next);
    }
  }

  /** Positive room is needed for that: the first call let into a cache leaves a bucket that is not empty if
      and only if there is room for entries; with none it is refused and its empty bucket stays. */
  lemma EmptyBucketWithoutRoom(l: Limits, call: Call)
    requires call.Check? && OutsideWindow(l, call.timestamp, call.now) == Accepted && l.maxCredentials > 0
    ensures var (v, m) := Step(l, map[], call);
            && call.credential in m
            && (m[call.credential].entries != [] <==> l.maxEntries > 0)
            && v == if l.maxEntries > 0 then Accepted else CacheFull
  {
    var empty: Credentials := map[];
    assert CleanedAt(empty, Cutoff(l.window, call.now)) == empty;
    hide OutsideWindow, Cutoff;
  }

  // ----- the cache itself -----

  method RetainEntries(b: Bucket, cutoff: i64) returns (r: Bucket)
    ensures r == Retain(b, cutoff)
  {
    var keys, kept := b.keys, [];
    for i := 0 to |b.entries|
      invariant kept == Keep(b.entries[..i], cutoff)
      invariant keys == KeepKeys(b.keys, b.entries[..i], cutoff)
    {
      assert b.entries[..i + 1] == b.entries[..i] + [b.entries[i]];
      assert b.entries[..i + 1][..i] == b.entries[..i];
      var entry := b.entries[i];
      KeepKeysSnoc(b.keys, b.entries[..i], entry, cutoff);
      if entry.timestamp >= cutoff {
        kept := kept + [entry];
      } else {
        keys := keys - {entry.nonce};
      }
    }
    assert b.entries[..|b.entries|] == b.entries;
    r := Bucket(keys, kept);
  }

  lemma KeepKeysSnoc(keys: set<Nonce>, es: seq<Entry>, e: Entry, cutoff: i64)
    ensures KeepKeys(keys, es + [e], cutoff) ==
            KeepKeys(keys, es, cutoff) - if e.timestamp < cutoff then {e.nonce} else {}
  {
    var all := es + [e];
    assert forall i :: 0 <= i < |es| ==> all[i] == es[i];
    assert all[|es|] == e;
  }

  lemma CleanedAdd(m: Credentials, pending: set<Credential>, c: Credential, cutoff: i64)
    requires c in pending && pending <= m.Keys
    ensures var kept := Retain(m[c], cutoff);
            var done := CleanedAt(m - pending, cutoff);
            CleanedAt(m - (pending - {c}), cutoff) == if kept.entries != [] then done[c := kept] else done
  {
  }

  class ReplayCache {
    const limits: Limits
    var credentials: Credentials

    constructor (window: i64, maxEntries: nat, maxCredentials: nat)
      ensures limits == Limits(window, maxEntries, maxCredentials) && credentials == map[]
    {
      limits := Limits(window, maxEntries, maxCredentials);
      credentials := map[];
    }

    method CheckAndInsert(c: Credential, nonce: Nonce, timestamp: i64, now: i64) returns (v: Verdict)
      modifies this
      ensures (v, credentials) == Step(limits, old(credentials), Check(c, nonce, timestamp, now))
    {
      var oldest, newest := now - limits.window, now + limits.window;
      if !(I64_MIN <= oldest <= I64_MAX) {
        return WindowUnderflow;
      }
      if !(I64_MIN <= newest <= I64_MAX) {
        return WindowOverflow;
      }
      if timestamp < oldest {
        return TooOld;
      }
      if timestamp > newest {
        return TooNew;
      }
      CleanUp(now);
      ghost var cleaned := credentials;
      if c !in credentials && |credentials| >= limits.maxCredentials {
        return CredentialLimit;
      }
      if c !in credentials {
        credentials := credentials[c := Bucket({}, [])];
      }
      var state := credentials[c];
      assert credentials == cleaned[c := state];
      if nonce in state.keys {
        return DuplicateNonce;
      }
      if |state.entries| >= limits.maxEntries {
        return CacheFull;
      }
      var state' := Bucket(state.keys + {nonce}, state.entries + [Entry(nonce, timestamp)]);
      credentials := credentials[c := state'];
      assert credentials == cleaned[c := state'];
      v := Accepted;
    }

    method CleanUp(now: i64)
      modifies this
      ensures credentials == CleanedAt(old(credentials), Cutoff(limits.window, now))
    {
      var cutoff := Cutoff(limits.window, now);
      var before, pending := credentials, credentials.Keys;
      var done: Credentials := map[];
      while pending != {}
        invariant pending <= before.Keys
        invariant done == CleanedAt(before - pending, cutoff)
        decreases |pending|
      {
        var c :| c in pending;
        CleanedAdd(before, pending, c, cutoff);
        pending := pending - {c};
        var kept := RetainEntries(before[c], cutoff);
        if kept.entries != [] {
          done := done[c := kept];
        }
      }
      assert before - {} == before;
      credentials := done;
    }

    method IsEmpty() returns (r: bool)
      ensures r <==> credentials == map[]
    {
      r := credentials == map[];
    }

    /** The number of stored entries, counted over (credential, position) pairs. */
    method Len() returns (n: nat)
      ensures n == |Slots(credentials)|
    {
      var pending := credentials.Keys;
      n := 0;
      assert Slots(map[]) == {};
      while pending != {}
        invariant pending <= credentials.Keys
        invariant n == |Slots(credentials - pending)|
        decreases |pending|
      {
        var c :| c in pending;
        SlotsAdd(credentials, pending, c);
        pending := pending - {c};
        n := n + |credentials[c].entries|;
      }
      assert credentials - {} == credentials;
    }
  }

  function Slots(m: Credentials): (s: set<(Credential, int)>)
  {
    set c, i | c in m && 0 <= i < |m[c].entries| :: (c, i)
  }

  lemma SlotsAdd(m: Credentials, pending: set<Credential>, c: Credential)
    requires c in pending && pending <= m.Keys
    ensures |Slots(m - (pending - {c}))| == |Slots(m - pending)| + |m[c].entries|
  {
    var row := set i | 0 <= i < |m[c].entries| :: (c, i);
    RowSize(c, |m[c].entries|);
    assert Slots(m - (pending - {c})) == Slots(m - pending) + row;
    assert Slots(m - pending) !! row;
  }

  lemma {:induction false} RowSize(c: Credential, n: nat)
    ensures |set i | 0 <= i < n :: (c, i)| == n
  {
    if n > 0 {
      RowSize(c, n - 1);
      assert (set i | 0 <= i < n :: (c, i)) == (set i | 0 <= i < n - 1 :: (c, i)) + {(c, n - 1)};
    }
  }
}
