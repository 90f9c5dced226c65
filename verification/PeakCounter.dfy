/** The lock-free task counter: `active` is a plain fetch-add counter, `peak` is raised by a
    compare-exchange loop. Threads interleave freely; a relaxed load of `peak`, and the value a failed
    exchange reports, may be any value `peak` has ever had. */
module PeakCounter {

  datatype Guard =
    | Counted(seen: int)                // fetch_add done, peak not read yet
    | Looping(seen: int, peak: int)     // in the loop with this view of the peak
    | Built(seen: int)                  // constructed
    | Dropped(seen: int)

  datatype State = State(
    active: int,
    peak: int,
    guards: map<nat, Guard>,
    peaks: set<int>,     // every value peak has had
    highest: int)        // the largest active count ever reached

  datatype Event =
    | New(id: nat)
    | Load(id: nat, value: int)
    | ExchangeOk(id: nat)
    | ExchangeFailed(id: nat, observed: int)  // a spurious failure may report the expected value
    | Drop(id: nat)

  function Initial(): (s: State)
  {
    State(0, 0, map[], {0}, 0)
  }

  /** The loop guard: leave as soon as the view of the peak is high enough. */
  function Viewed(seen: int, peak: int): (g: Guard)
  {
    if seen > peak then Looping(seen, peak) else Built(seen)
  }

  function Max(a: int, b: int): (m: int)
  {
    if a < b then b else a
  }

  /** One atomic step; an event that is not enabled changes nothing. */
  function Apply(s: State, e: Event): (s': State)
  {
    match e
    case New(id) =>
      if id in s.guards then s
      else s.(active := s.active + 1,
              guards := s.guards[id := Counted(s.active + 1)],
              highest := Max(s.highest, s.active + 1))
    case Load(id, value) =>
      if id !in s.guards || !s.guards[id].Counted? || value !in s.peaks then s
      else s.(guards := s.guards[id := Viewed(s.guards[id].seen, value)])
    case ExchangeOk(id) =>
      if id !in s.guards || !s.guards[id].Looping? || s.guards[id].peak != s.peak then s
      else
        var seen := s.guards[id].seen;
        s.(peak := seen, peaks := s.peaks + {seen}, guards := s.guards[id := Built(seen)])
    case ExchangeFailed(id, observed) =>
      if id !in s.guards || !s.guards[id].Looping? || observed !in s.peaks then s
      else s.(guards := s.guards[id := Viewed(s.guards[id].seen, observed)])
    case Drop(id) =>
      if id !in s.guards || !s.guards[id].Built? then s
      else s.(active := s.active - 1, guards := s.guards[id := Dropped(s.guards[id].seen)])
  }

  function Exec(s: State, es: seq<Event>): (s': State)
    decreases |es|
  {
    if es == [] then s else Exec(Apply(s, es[0]), es[1..])
  }

  function Alive(guards: map<nat, Guard>): (ids: set<nat>)
  {
    set id | id in guards && !guards[id].Dropped?
  }

  predicate Finished(g: Guard)
  {
    g.Built? || g.Dropped?
  }

  predicate Inv(s: State)
  {
    && s.active == |Alive(s.guards)|
    && s.peak in s.peaks
    && (forall p :: p in s.peaks ==> p <= s.peak)
    && s.active <= s.highest && s.peak <= s.highest
    && (forall id :: id in s.guards ==> s.guards[id].seen <= s.highest)
    && (forall id :: id in s.guards && Finished(s.guards[id]) ==> s.guards[id].seen <= s.peak)
    && (forall id :: id in s.guards && s.guards[id].Looping? ==>
          s.guards[id].peak in s.peaks && s.guards[id].seen > s.guards[id].peak)
    && (s.highest == 0 || exists id :: id in s.guards && s.guards[id].seen == s.highest)
  }

  /** No guard is between its fetch_add and the end of its loop. */
  predicate Quiet(s: State)
  {
    forall id :: id in s.guards ==> Finished(s.guards[id])
  }

  lemma AliveUpdate(guards: map<nat, Guard>, id: nat, g: Guard)
    ensures |Alive(guards[id := g])| ==
            |Alive(guards)| - (if id in guards && !guards[id].Dropped? then 1 else 0) + (if g.Dropped? then 0 else 1)
  {
    var a, b := Alive(guards), Alive(guards[id := g]);
    assert b == if g.Dropped? then a - {id} else a + {id};
  }

  lemma StepKeepsInv(s: State, e: Event)
    requires Inv(s)
    ensures Inv(Apply(s, e)) && s.peak <= Apply(s, e).peak
  {
    var s' := Apply(s, e);
    if s' != s {
      var id := e.id;
      AliveUpdate(s.guards, id, s'.guards[id]);
      if e.Drop? {
        assert id in Alive(s.guards);
      }
      if s.highest != 0 {
        var top :| top in s.guards && s.guards[top].seen == s.highest;
        assert s'.highest == s.highest ==> s'.guards[top].seen == s'.highest;
      }
      assert s'.highest != s.highest ==> s'.guards[id].seen == s'.highest;
    }
  }

  lemma {:induction false} RunKeepsInv(s: State, es: seq<Event>)
    requires Inv(s)
    ensures Inv(Exec(s, es)) && s.peak <= Exec(s, es).peak
    decreases |es|
  {
    if es != [] {
      StepKeepsInv(s, es[0]);
      RunKeepsInv(Apply(s, es[0]), es[1..]);
    }
  }

  lemma {:induction false} ExecAppend(s: State, a: seq<Event>, b: seq<Event>)
    ensures Exec(s, a + b) == Exec(Exec(s, a), b)
    decreases |a|
  {
    if a == [] {
      assert a + b == b;
    } else {
      assert (a + b)[1..] == a[1..] + b;
      ExecAppend(Apply(s, a[0]), a[1..], b);
    }
  }

  lemma InitialInv()
    ensures Inv(Initial())
  {
    assert Alive(map[]) == {};
  }

  /** In every interleaving, stale reads and spurious failures included: the count is the number of live
      guards, the peak never falls, never exceeds the largest count ever reached and covers every count
      seen by a finished guard, and is exactly that largest count whenever no guard is mid-loop. */
  lemma PeakIsExact(before: seq<Event>, after: seq<Event>)
    ensures var s, s' := Exec(Initial(), before), Exec(Initial(), before + after);
            && s.active == |Alive(s.guards)|
            && s.peak <= s'.peak
            && s.peak <= s.highest
            && (forall id :: id in s.guards && Finished(s.guards[id]) ==> s.guards[id].seen <= s.peak)
            && (Quiet(s) ==> s.peak == s.highest)
  {
    InitialInv();
    RunKeepsInv(Initial(), before);
    ExecAppend(Initial(), before, after);
    RunKeepsInv(Exec(Initial(), before), after);
  }

  /** `highest` is what its name says: no count along the run exceeds it and some prefix reaches it. */
  lemma {:induction false} HighestIsMaximum(es: seq<Event>)
    ensures forall k :: 0 <= k <= |es| ==> Exec(Initial(), es[..k]).active <= Exec(Initial(), es).highest
    ensures exists k :: 0 <= k <= |es| && Exec(Initial(), es[..k]).active == Exec(Initial(), es).highest
    decreases |es|
  {
    var n := |es|;
    assert es[..n] == es;
    InitialInv();
    RunKeepsInv(Initial(), es);
    if n > 0 {
      var front := es[..n - 1];
      HighestIsMaximum(front);
      assert es == front + [es[n - 1]];
      ExecAppend(Initial(), front, [es[n - 1]]);
      var s, s' := Exec(Initial(), front), Exec(Initial(), es);
      assert Exec(s, [es[n - 1]]) == Apply(s, es[n - 1]) by {
        assert [es[n - 1]][1..] == [];
      }
      forall k | 0 <= k <= n
        ensures Exec(Initial(), es[..k]).active <= s'.highest
      {
        if k < n {
          assert es[..k] == front[..k];
        }
      }
      if s'.highest == s.highest {
        var k :| 0 <= k <= n - 1 && Exec(Initial(), front[..k]).active == s.highest;
        assert es[..k] == front[..k];
      } else {
        assert Exec(Initial(), es[..n]).active == s'.highest;
      }
    } else {
      assert Exec(Initial(), es[..0]).active == 0;
    }
  }

  // ----- guards come and go -----

  function Rise(id: nat, peak: int): (es: seq<Event>)
  {
    [New(id), Load(id, peak), ExchangeOk(id)]
  }

  lemma ThreeEvents(s: State, e1: Event, e2: Event, e3: Event)
    ensures Exec(s, [e1, e2, e3]) == Apply(Apply(Apply(s, e1), e2), e3)
  {
    hide Apply;
    var s1 := Apply(s, e1);
    assert Exec(Apply(s1, e2), [e3]) == Apply(Apply(s1, e2), e3) by {
      assert [e3][1..] == [];
    }
    assert Exec(s1, [e2, e3]) == Exec(Apply(s1, e2), [e3]) by {
      assert [e2, e3][1..] == [e3];
    }
    assert [e1, e2, e3][1..] == [e2, e3];
  }

  /** A new guard that is not disturbed counts itself and lifts the peak to the count it saw, if that is higher. */
  lemma GuardRaisesPeak(s: State, id: nat)
    requires s.peak in s.peaks && id !in s.guards
    ensures var s' := Exec(s, Rise(id, s.peak));
            && s'.active == s.active + 1 && s'.peak == Max(s.peak, s.active + 1) && s'.peak in s'.peaks
            && s'.guards == s.guards[id := Built(s.active + 1)]
  {
    ThreeEvents(s, New(id), Load(id, s.peak), ExchangeOk(id));
  }

  /** A guard in its loop gets out of it in two steps if the others leave the peak alone, whatever it saw before. */
  lemma LoopCanFinish(s: State, id: nat)
    requires Inv(s) && id in s.guards && s.guards[id].Looping?
    ensures var seen, s' := s.guards[id].seen, Apply(Apply(s, ExchangeFailed(id, s.peak)), ExchangeOk(id));
            s'.guards == s.guards[id := Built(seen)] && s'.peak == Max(s.peak, seen) && s'.active == s.active
  {
  }

  /** `n` guards, one after the other. */
  function Rises(n: nat): (es: seq<Event>)
  {
    if n == 0 then [] else Rises(n - 1) + Rise(n - 1, n - 1)
  }

  /** The same guards dropped again. */
  function Falls(n: nat): (es: seq<Event>)
  {
    if n == 0 then [] else [Drop(n - 1)] + Falls(n - 1)
  }

  lemma {:induction false} RisesCount(n: nat)
    ensures var s := Exec(Initial(), Rises(n));
            && s.active == n && s.peak == n && s.peak in s.peaks
            && forall id: nat :: id in s.guards <==> id < n
    ensures forall id: nat :: id < n ==> Exec(Initial(), Rises(n)).guards[id].Built?
  {
    if n > 0 {
      RisesCount(n - 1);
      ExecAppend(Initial(), Rises(n - 1), Rise(n - 1, n - 1));
      GuardRaisesPeak(Exec(Initial(), Rises(n - 1)), n - 1);
    }
  }

  lemma {:induction false} FallsCount(s: State, n: nat)
    requires forall id: nat :: id < n ==> id in s.guards && s.guards[id].Built?
    ensures Exec(s, Falls(n)).active == s.active - n && Exec(s, Falls(n)).peak == s.peak
    decreases n
  {
    if n > 0 {
      FallsCount(Apply(s, Drop(n - 1)), n - 1);
      assert Falls(n)[1..] == Falls(n - 1);
    }
  }

  /** Every height is reached: n guards make the count and the peak n; once they are gone the count is back at zero and
      the peak still says n. */
  lemma EveryPeakIsReached(n: nat)
    ensures var s, s' := Exec(Initial(), Rises(n)), Exec(Initial(), Rises(n) + Falls(n));
            s.active == n && s.peak == n && s'.active == 0 && s'.peak == n
  {
    RisesCount(n);
    ExecAppend(Initial(), Rises(n), Falls(n));
    FallsCount(Exec(Initial(), Rises(n)), n);
  }

  /** The peak a snapshot reports: the loaded peak, raised to the loaded count. */
  function Reported(active: int, peak: int): (r: int)
  {
    Max(peak, active)
  }

  /** A snapshot loads the count, then the peak, while guards come and go. However stale the two loads are, the
      reported peak lies between the reported count and the largest count ever reached; if the peak load is
      current and no guard is mid-loop, it is that largest count. */
  lemma SnapshotIsBounded(before: seq<Event>, k: nat, between: seq<Event>, peak: int)
    requires k <= |before| && peak in Exec(Initial(), before + between).peaks
    ensures var active, s := Exec(Initial(), before[..k]).active, Exec(Initial(), before + between);
            && active <= Reported(active, peak) <= s.highest
            && (peak == s.peak && Quiet(s) ==> Reported(active, peak) == s.highest)
  {
    var all := before + between;
    assert all[..k] == before[..k];
    HighestIsMaximum(all);
    InitialInv();
    RunKeepsInv(Initial(), all);
    PeakIsExact(all, []);
    assert all + [] == all;
  }
}
