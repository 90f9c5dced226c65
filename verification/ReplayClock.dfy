/** What the replay cache promises under any clock, one that goes back included. */
module ReplayClock {
  import opened Bytes
  import opened Replay

  ghost predicate BucketsOk(m: Credentials)
  {
    forall c :: c in m ==> BucketOk(m[c])
  }

  /** The call throws expired entries away. */
  predicate Cleans(l: Limits, call: Call)
  {
    call.Cleanup? || OutsideWindow(l, call.timestamp, call.now) == Accepted
  }

  /** The call offers this credential and nonce. */
  predicate Offers(call: Call, c: Credential, n: Nonce)
  {
    call.Check? && call.credential == c && call.nonce == n
  }

  /** Nothing but this entry can hold its nonce. */
  predicate Sole(m: Credentials, c: Credential, e: Entry)
  {
    forall x :: x in EntriesOf(m, c) && x.nonce == e.nonce ==> x == e
  }

  lemma CleanedHolds(m: Credentials, cutoff: i64, c: Credential, e: Entry)
    requires BucketsOk(m)
    ensures BucketsOk(CleanedAt(m, cutoff))
    ensures e in EntriesOf(CleanedAt(m, cutoff), c) <==> e in EntriesOf(m, c) && cutoff <= e.timestamp
    ensures Sole(m, c, e) ==> Sole(CleanedAt(m, cutoff), c, e)
  {
    forall d | d in CleanedAt(m, cutoff)
      ensures BucketOk(CleanedAt(m, cutoff)[d])
    {
      RetainOk(m[d], cutoff);
    }
    KeepMembers(EntriesOf(m, c), cutoff);
  }

  lemma InsertKeepsBuckets(l: Limits, m: Credentials, d: Credential, x: Entry)
    requires BucketsOk(m)
    ensures BucketsOk(Insert(l, m, d, x).1)
  {
    EmptyBucketOk();
    var b := if d in m then m[d] else Bucket({}, []);
    if x.nonce !in b.keys {
      InsertBucketOk(b, x);
    }
    hide BucketOk;
  }

  lemma InsertHolds(l: Limits, m: Credentials, d: Credential, x: Entry, c: Credential, e: Entry)
    requires !(d == c && x.nonce == e.nonce && Insert(l, m, d, x).0 == Accepted)
    ensures e in EntriesOf(Insert(l, m, d, x).1, c) <==> e in EntriesOf(m, c)
    ensures Sole(m, c, e) ==> Sole(Insert(l, m, d, x).1, c, e)
  {
    var es, es' := EntriesOf(m, c), EntriesOf(Insert(l, m, d, x).1, c);
    assert es' == es || (es' == es + [x] && x.nonce != e.nonce);
    hide Insert, EntriesOf;
    forall y | y in es' && y.nonce == e.nonce
      ensures y in es
    {
    }
  }

  lemma StepHolds(l: Limits, m: Credentials, call: Call, c: Credential, e: Entry)
    requires BucketsOk(m)
    ensures BucketsOk(Step(l, m, call).1)
    ensures !(Offers(call, c, e.nonce) && Step(l, m, call).0 == Accepted) ==>
              && (e in EntriesOf(Step(l, m, call).1, c) <==>
                    e in EntriesOf(m, c) && (Cleans(l, call) ==> Cutoff(l.window, call.now) <= e.timestamp))
              && (Sole(m, c, e) ==> Sole(Step(l, m, call).1, c, e))
  {
    hide BucketsOk, Sole, Insert, CleanedAt, OutsideWindow, Cutoff;
    var cutoff := Cutoff(l.window, call.now);
    CleanedHolds(m, cutoff, c, e);
    if call.Check? {
      var x := Entry(call.nonce, call.timestamp);
      InsertKeepsBuckets(l, CleanedAt(m, cutoff), call.credential, x);
      if !(Offers(call, c, e.nonce) && Insert(l, CleanedAt(m, cutoff), call.credential, x).0 == Accepted) {
        InsertHolds(l, CleanedAt(m, cutoff), call.credential, x, c, e);
      }
    }
  }

  /** Over a stretch that does not accept the nonce anew, an entry stays exactly while no cleaning passes it. */
  lemma {:induction false} RunHolds(l: Limits, m: Credentials, calls: seq<Call>, c: Credential, e: Entry)
    requires BucketsOk(m) && Sole(m, c, e)
    requires forall k :: 0 <= k < |calls| && Offers(calls[k], c, e.nonce) ==> Verdicts(l, m, calls)[k] != Accepted
    ensures BucketsOk(After(l, m, calls)) && Sole(After(l, m, calls), c, e)
    ensures e in EntriesOf(After(l, m, calls), c) <==>
            && e in EntriesOf(m, c)
            && forall k :: 0 <= k < |calls| && Cleans(l, calls[k]) ==> Cutoff(l.window, calls[k].now) <= e.timestamp
    decreases |calls|
  {
    hide BucketsOk, Sole, Step, Cleans, EntriesOf;
    if calls != [] {
      StepHolds(l, m, calls[0], c, e);
      var m1, rest := Step(l, m, calls[0]).1, calls[1..];
      assert Verdicts(l, m, calls)[0] == Step(l, m, calls[0]).0;
      forall k | 0 <= k < |rest| && Offers(rest[k], c, e.nonce)
        ensures Verdicts(l, m1, rest)[k] != Accepted
      {
        assert Verdicts(l, m, calls)[k + 1] == Verdicts(l, m1, rest)[k];
        assert rest[k] == calls[k + 1];
      }
      RunHolds(l, m1, rest, c, e);
      assert forall k :: 0 <= k < |rest| ==> rest[k] == calls[k + 1];
      assert forall k :: 1 <= k < |calls| ==> calls[k] == rest[k - 1];
    }
  }

  /** A call inside its window is turned away as a duplicate exactly when the cache still holds the nonce. */
  lemma DuplicateIff(l: Limits, m: Credentials, call: Call)
    requires BucketsOk(m) && call.Check? && OutsideWindow(l, call.timestamp, call.now) == Accepted
    requires Sole(m, call.credential, Entry(call.nonce, call.timestamp))
    ensures Step(l, m, call).0 == DuplicateNonce <==> Entry(call.nonce, call.timestamp) in EntriesOf(m, call.credential)
  {
    var c, e, cutoff := call.credential, Entry(call.nonce, call.timestamp), Cutoff(l.window, call.now);
    CleanedHolds(m, cutoff, c, e);
    var cleaned := CleanedAt(m, cutoff);
    var es := EntriesOf(cleaned, c);
    assert cutoff <= e.timestamp;
    hide CleanedAt;
    if c in cleaned {
      assert BucketOk(cleaned[c]);
      if e in es {
        var i :| 0 <= i < |es| && es[i] == e;
        assert HasNonce(es, e.nonce);
      }
      if HasNonce(es, e.nonce) {
        var i :| 0 <= i < |es| && es[i].nonce == e.nonce;
        assert es[i] in es;
      }
    }
  }

  lemma {:induction false} VerdictsSplit(l: Limits, m: Credentials, a: seq<Call>, b: seq<Call>)
    ensures Verdicts(l, m, a + b) == Verdicts(l, m, a) + Verdicts(l, After(l, m, a), b)
    ensures After(l, m, a + b) == After(l, After(l, m, a), b)
    decreases |a|
  {
    hide Step;
    if a == [] {
      assert a + b == b;
    } else {
      assert (a + b)[1..] == a[1..] + b;
      VerdictsSplit(l, Step(l, m, a[0]).1, a[1..], b);
    }
  }

  lemma {:induction false} RunBucketsOk(l: Limits, m: Credentials, calls: seq<Call>)
    requires BucketsOk(m)
    ensures BucketsOk(After(l, m, calls))
    decreases |calls|
  {
    hide BucketsOk, Step;
    if calls != [] {
      StepHolds(l, m, calls[0], "", Entry([], 0));
      RunBucketsOk(l, Step(l, m, calls[0]).1, calls[1..]);
    }
  }

  /** An accepted call leaves its entry behind. */
  lemma AcceptedIsHeld(l: Limits, m: Credentials, call: Call)
    requires BucketsOk(m) && call.Check? && Step(l, m, call).0 == Accepted
    ensures var m', e := Step(l, m, call).1, Entry(call.nonce, call.timestamp);
            BucketsOk(m') && e in EntriesOf(m', call.credential) && Sole(m', call.credential, e)
  {
    var m', e := Step(l, m, call).1, Entry(call.nonce, call.timestamp);
    StepHolds(l, m, call, call.credential, e);
    var es := EntriesOf(m', call.credential);
    assert es[|es| - 1] == e;
    assert DistinctNonces(es) by {
      assert BucketOk(m'[call.credential]);
    }
    forall x | x in es && x.nonce == e.nonce
      ensures x == e
    {
      var i :| 0 <= i < |es| && es[i] == x;
    }
  }

  /** One verdict, from the state before the call. */
  lemma VerdictAt(l: Limits, m: Credentials, calls: seq<Call>, i: nat)
    requires i < |calls|
    ensures Verdicts(l, m, calls)[i] == Step(l, After(l, m, calls[..i]), calls[i]).0
    ensures After(l, m, calls[..i + 1]) == Step(l, After(l, m, calls[..i]), calls[i]).1
  {
    hide Step;
    VerdictsSplit(l, m, calls[..i], calls[i..]);
    assert calls == calls[..i] + calls[i..];
    VerdictsSplit(l, m, calls[..i], [calls[i]]);
    assert calls[..i + 1] == calls[..i] + [calls[i]];
    assert [calls[i]][1..] == [];
  }

  /** A stretch of a run. */
  lemma VerdictsSlice(l: Limits, m: Credentials, calls: seq<Call>, i: nat, j: nat)
    requires i <= j <= |calls|
    ensures var before := After(l, m, calls[..i]);
            && After(l, m, calls[..j]) == After(l, before, calls[i..j])
            && Verdicts(l, m, calls)[i..j] == Verdicts(l, before, calls[i..j])
  {
    assert calls[..j] == calls[..i] + calls[i..j];
    VerdictsSplit(l, m, calls[..i], calls[i..j]);
    assert calls == calls[..j] + calls[j..];
    VerdictsSplit(l, m, calls[..j], calls[j..]);
    hide Verdicts, After;
  }

  /** The exact replay law, whatever the clock does: offered again inside its window, and not accepted in
      between, an accepted triple is refused as a duplicate if and only if no call in between that cleans
      the cache had a clock that put the triple below the window. */
  lemma RepeatRefusedIff(l: Limits, calls: seq<Call>, i: nat, j: nat)
    requires i < j < |calls| && calls[i].Check? && Offers(calls[j], calls[i].credential, calls[i].nonce)
    requires calls[j].timestamp == calls[i].timestamp && Verdicts(l, map[], calls)[i] == Accepted
    requires OutsideWindow(l, calls[j].timestamp, calls[j].now) == Accepted
    requires forall k :: i < k < j && Offers(calls[k], calls[i].credential, calls[i].nonce) ==>
               Verdicts(l, map[], calls)[k] != Accepted
    ensures Verdicts(l, map[], calls)[j] == DuplicateNonce <==>
            forall k :: i < k < j && Cleans(l, calls[k]) ==> Cutoff(l.window, calls[k].now) <= calls[i].timestamp
  {
    hide Step, OutsideWindow, Cutoff, EntriesOf, Cleans, Verdicts, After, Sole, BucketsOk;
    var empty: Credentials := map[];
    var c, e := calls[i].credential, Entry(calls[i].nonce, calls[i].timestamp);
    var mid, vs := calls[i + 1..j], Verdicts(l, empty, calls);
    var m1 := After(l, empty, calls[..i + 1]);
    VerdictAt(l, empty, calls, i);
    VerdictAt(l, empty, calls, j);
    VerdictsSlice(l, empty, calls, i + 1, j);
    NothingHeld();
    RunBucketsOk(l, empty, calls[..i]);
    AcceptedIsHeld(l, After(l, empty, calls[..i]), calls[i]);
    forall k | 0 <= k < |mid| && Offers(mid[k], c, e.nonce)
      ensures Verdicts(l, m1, mid)[k] != Accepted
    {
      assert mid[k] == calls[i + 1 + k] && vs[i + 1..j][k] == vs[i + 1 + k];
    }
    RunHolds(l, m1, mid, c, e);
    DuplicateIff(l, After(l, empty, calls[..j]), calls[j]);
    assert forall k :: 0 <= k < |mid| ==> mid[k] == calls[i + 1 + k];
    assert forall k :: i < k < j ==> calls[k] == mid[k - i - 1];
  }

  lemma NothingHeld()
    ensures BucketsOk(map[])
  {
  }

  // ----- what the cache holds -----

  /** Call i was accepted with this entry, and no call after it that cleans the cache ran with a clock that
      put the entry below the window. */
  predicate Survives(l: Limits, calls: seq<Call>, i: int, c: Credential, e: Entry)
  {
    && 0 <= i < |calls| && Offers(calls[i], c, e.nonce) && calls[i].timestamp == e.timestamp
    && Verdicts(l, map[], calls)[i] == Accepted
    && forall k :: i < k < |calls| && Cleans(l, calls[k]) ==> Cutoff(l.window, calls[k].now) <= e.timestamp
  }

  lemma InsertContents(l: Limits, m: Credentials, d: Credential, x: Entry, c: Credential)
    ensures EntriesOf(Insert(l, m, d, x).1, c) ==
            EntriesOf(m, c) + if d == c && Insert(l, m, d, x).0 == Accepted then [x] else []
  {
  }

  lemma StepContents(l: Limits, m: Credentials, call: Call, c: Credential, e: Entry)
    requires BucketsOk(m)
    ensures e in EntriesOf(Step(l, m, call).1, c) <==>
            || (Step(l, m, call).0 == Accepted && Offers(call, c, e.nonce) && call.timestamp == e.timestamp)
            || (e in EntriesOf(m, c) && (Cleans(l, call) ==> Cutoff(l.window, call.now) <= e.timestamp))
  {
    hide Insert, CleanedAt, OutsideWindow, Cutoff, EntriesOf, BucketsOk;
    var cutoff := Cutoff(l.window, call.now);
    CleanedHolds(m, cutoff, c, e);
    if call.Check? {
      InsertContents(l, CleanedAt(m, cutoff), call.credential, Entry(call.nonce, call.timestamp), c);
    }
  }

  lemma SurvivesLonger(l: Limits, front: seq<Call>, last: Call, i: nat, c: Credential, e: Entry)
    requires i < |front|
    ensures Survives(l, front + [last], i, c, e) <==>
            Survives(l, front, i, c, e) && (Cleans(l, last) ==> Cutoff(l.window, last.now) <= e.timestamp)
  {
    hide Verdicts, After, Cleans, Cutoff;
    var calls, n := front + [last], |front|;
    VerdictsSplit(l, map[], front, [last]);
    assert forall k :: 0 <= k < n ==> calls[k] == front[k];
    assert calls[n] == last;
  }

  lemma SurvivesLast(l: Limits, front: seq<Call>, last: Call, c: Credential, e: Entry)
    ensures Survives(l, front + [last], |front|, c, e) <==>
            && Step(l, After(l, map[], front), last).0 == Accepted
            && Offers(last, c, e.nonce) && last.timestamp == e.timestamp
  {
    hide Verdicts, After, Cleans, Cutoff, Step;
    var calls := front + [last];
    VerdictAt(l, map[], calls, |front|);
    assert calls[..|front|] == front;
  }

  lemma NothingAfter(l: Limits, c: Credential)
    ensures After(l, map[], []) == map[] && EntriesOf(map[], c) == []
  {
  }

  /** The contents of the cache after any run, under any clock: exactly the accepted entries that no later
      cleaning has passed. */
  lemma {:induction false} ContentsExact(l: Limits, calls: seq<Call>, c: Credential, e: Entry)
    ensures e in EntriesOf(After(l, map[], calls), c) <==> exists i :: Survives(l, calls, i, c, e)
    decreases |calls|
  {
    if calls == [] {
      NothingAfter(l, c);
    } else {
      hide Step, EntriesOf, Cleans, Cutoff, Verdicts, After, BucketsOk, Offers;
      var empty: Credentials := map[];
      var n := |calls| - 1;
      var front, last := calls[..n], calls[n];
      assert calls == front + [last];
      ContentsExact(l, front, c, e);
      NothingHeld();
      RunBucketsOk(l, empty, front);
      AfterSnoc(l, empty, front, last);
      StepContents(l, After(l, empty, front), last, c, e);
      SurvivesLast(l, front, last, c, e);
      forall i | 0 <= i < n
        ensures Survives(l, calls, i, c, e) <==>
                Survives(l, front, i, c, e) && (Cleans(l, last) ==> Cutoff(l.window, last.now) <= e.timestamp)
      {
        SurvivesLonger(l, front, last, i, c, e);
      }
      LastOrEarlier(l, calls, front, c, e);
    }
  }

  lemma LastOrEarlier(l: Limits, calls: seq<Call>, front: seq<Call>, c: Credential, e: Entry)
    requires |calls| == |front| + 1
    ensures (exists i :: Survives(l, calls, i, c, e)) <==>
            Survives(l, calls, |front|, c, e) || exists i :: 0 <= i < |front| && Survives(l, calls, i, c, e)
    ensures (exists i :: Survives(l, front, i, c, e)) <==> exists i :: 0 <= i < |front| && Survives(l, front, i, c, e)
  {
    hide Verdicts, Cleans, Cutoff, Offers;
  }

  // ----- the upper edge of a full cache -----

  /** A call that finds its bucket full is inside the window, so it has cleaned, and it changes nothing else. */
  lemma FullContents(l: Limits, calls: seq<Call>, next: Call, c: Credential, e: Entry)
    requires Step(l, After(l, map[], calls), next).0 == CacheFull
    ensures e in EntriesOf(Step(l, After(l, map[], calls), next).1, c) <==>
            exists i :: Survives(l, calls + [next], i, c, e)
  {
    hide Step, EntriesOf, After;
    AfterSnoc(l, map[], calls, next);
    ContentsExact(l, calls + [next], c, e);
  }

  /** Exactly when a full cache holds nothing above the window of the call that found it full, under any clock:
      every accepted entry that no cleaning has passed is below that edge. */
  lemma FullCacheTopIff(l: Limits, calls: seq<Call>, next: Call)
    requires Step(l, After(l, map[], calls), next).0 == CacheFull
    ensures Within(Step(l, After(l, map[], calls), next).1, I64_MIN, next.now + l.window) <==>
            forall i, c, e :: Survives(l, calls + [next], i, c, e) ==> e.timestamp <= next.now + l.window
  {
    hide Step, After, Survives;
    var m, top := Step(l, After(l, map[], calls), next).1, next.now + l.window;
    forall c, e
      ensures e in EntriesOf(m, c) <==> exists i :: Survives(l, calls + [next], i, c, e)
    {
      FullContents(l, calls, next, c, e);
    }
    if Within(m, I64_MIN, top) {
      forall i, c, e | Survives(l, calls + [next], i, c, e)
        ensures e.timestamp <= top
      {
        assert e in EntriesOf(m, c);
      }
    }
    if forall i, c, e :: Survives(l, calls + [next], i, c, e) ==> e.timestamp <= top {
      forall c, k | c in m && 0 <= k < |m[c].entries|
        ensures m[c].entries[k].timestamp <= top
      {
        var e := m[c].entries[k];
        assert e in EntriesOf(m, c);
        var i :| Survives(l, calls + [next], i, c, e);
      }
    }
  }

  function Single(c: Credential, e: Entry): (m: Credentials)
  {
    map[c := Bucket({e.nonce}, [e])]
  }

  lemma FirstCallStored(l: Limits, call: Call)
    requires call.Check? && OutsideWindow(l, call.timestamp, call.now) == Accepted
    requires l.maxEntries > 0 && l.maxCredentials > 0
    ensures After(l, map[], [call]) == Single(call.credential, Entry(call.nonce, call.timestamp))
  {
    hide OutsideWindow, Cutoff;
    var empty: Credentials := map[];
    assert CleanedAt(empty, Cutoff(l.window, call.now)) == empty;
    assert {} + {call.nonce} == {call.nonce};
    assert [] + [Entry(call.nonce, call.timestamp)] == [Entry(call.nonce, call.timestamp)];
    assert [call][1..] == [];
    AfterSnoc(l, empty, [], call);
    assert [] + [call] == [call];
  }

  lemma SingleKept(c: Credential, e: Entry, cutoff: i64)
    requires cutoff <= e.timestamp
    ensures CleanedAt(Single(c, e), cutoff) == Single(c, e)
  {
    var b := Bucket({e.nonce}, [e]);
    assert [e][..0] == [];
    assert Keep([e], cutoff) == [] + [e];
    assert KeepKeys({e.nonce}, [e], cutoff) == {e.nonce};
    assert Retain(b, cutoff) == b;
  }

  /** It can fail once the clock goes back: with room for one entry, a second call at an earlier time finds the
      bucket full of an entry from its own future. */
  lemma ClockGoingBackFillsAbove(l: Limits, first: Call, second: Call)
    requires first.Check? && second.Check? && first.credential == second.credential && first.nonce != second.nonce
    requires OutsideWindow(l, first.timestamp, first.now) == Accepted
    requires OutsideWindow(l, second.timestamp, second.now) == Accepted
    requires l.maxEntries == 1 && l.maxCredentials > 0 && second.now + l.window < first.timestamp
    ensures var (v, m) := Step(l, After(l, map[], [first]), second);
            v == CacheFull && !Within(m, I64_MIN, second.now + l.window)
  {
    var c, e := first.credential, Entry(first.nonce, first.timestamp);
    FirstCallStored(l, first);
    SingleKept(c, e, Cutoff(l.window, second.now));
    hide CleanedAt, After;
    var m := Step(l, Single(c, e), second).1;
    assert c in m && m[c].entries == [e];
    assert m[c].entries[0].timestamp > second.now + l.window;
  }

  /** Such calls exist. */
  lemma ClockGoingBackInput(l: Limits, first: Call, second: Call)
    requires l == Limits(10, 1, 8) && first == Check("u", [0], 100, 100) && second == Check("u", [1], 80, 80)
    ensures OutsideWindow(l, first.timestamp, first.now) == Accepted
    ensures OutsideWindow(l, second.timestamp, second.now) == Accepted
    ensures Step(l, After(l, map[], [first]), second).0 == CacheFull
  {
    assert first.nonce[0] != second.nonce[0];
    ClockGoingBackFillsAbove(l, first, second);
  }
}
