/** The two-stage recurrence (`job_start`, then `job_finish`) against the one-stage
    recurrence of `job_finishDM`, on the values the loops return. */
module TwoStage {
  import opened Arithmetic
  import opened FixedPoint
  import opened ResponseTime

  /** What the response loop returns for `own` ticks of the task's own work. */
  ghost function ResponseTicks(ts: seq<Task>, i: nat, own: nat): (r: int)
    requires i <= |ts| && (own == 0 || Underloaded(ts, i))
    ensures LeastFrom(ResponseEq(ts, i, own), own, r)
  {
    ResponseEqClimbs(ts, i, own);
    ResponseLoopStops(ts, i, own);
    Least(ResponseEq(ts, i, own), own)
  }

  /** What the loop of `job_start` returns. */
  ghost function StartTicks(ts: seq<Task>, i: nat, init: nat): (r: int)
    requires i <= |ts| && Underloaded(ts, i)
    ensures LeastFrom(StartEq(ts, i, init), init, r)
  {
    StartEqClimbs(ts, i, init);
    StartLoopStops(ts, i, init);
    Least(StartEq(ts, i, init), init)
  }

  ghost predicate AllPreemptive(ts: seq<Task>, n: nat)
    requires n <= |ts|
  {
    forall j :: 0 <= j < n ==> ts[j].preemptive
  }

  lemma {:induction false} FinishIsDifference(ts: seq<Task>, n: nat, s: int, x: int)
    requires n <= |ts| && s < x
    ensures FinishDemand(ts, n, s, x) <= Demand(ts, n, x) - StartDemand(ts, n, s)
    ensures AllPreemptive(ts, n) ==> FinishDemand(ts, n, s, x) == Demand(ts, n, x) - StartDemand(ts, n, s)
  {
    if n > 0 {
      FinishIsDifference(ts, n - 1, s, x);
      var c, t := ts[n - 1].Cost(), ts[n - 1].period;
      var a, b := CeilDiv(x, t), s / t + 1;
      ReleasedByNow(s, x, t);
      Distribute(a, b, c);
      MulLe(b, a, c);
    }
  }

  lemma ReleasedByNow(s: int, x: int, t: Period)
    requires s < x
    ensures s / t + 1 <= CeilDiv(x, t)
  {
    FloorIsCeil(s, t);
    CeilDivMonotone(s + 1, x, t);
  }

  /** The one-stage solution leaves room for the last runnable after the two-stage start. */
  lemma StartLeavesRoom(ts: seq<Task>, i: nat, before: nat, last: nat, start: int, one: int)
    requires i <= |ts| && last > 0
    requires LeastFrom(StartEq(ts, i, before), before, start)
    requires LeastFrom(ResponseEq(ts, i, before + last), before + last, one)
    ensures start + last <= one
  {
    var x := one - last;
    StartDemandIsDemand(ts, i, x);
    DemandMonotone(ts, i, x + 1, one);
    assert ResponseEq(ts, i, before + last)(one) == before + last + Demand(ts, i, one);
    assert StartEq(ts, i, before)(x) <= x;
    DemandNonNegative(ts, i, one);
  }

  /** The finish loop stops whenever the start loop did, at the least fixed point. */
  lemma FinishLoopStops(ts: seq<Task>, i: nat, before: nat, last: nat, start: int)
    requires i <= |ts| && last > 0 && Underloaded(ts, i)
    requires LeastFrom(StartEq(ts, i, before), before, start)
    ensures Bounded(FinishEq(ts, i, start, start + last), start + last)
  {
    var one := ResponseTicks(ts, i, before + last);
    StartLeavesRoom(ts, i, before, last, start, one);
    FinishIsDifference(ts, i, start, one);
    assert StartEq(ts, i, before)(start) == before + StartDemand(ts, i, start);
    assert ResponseEq(ts, i, before + last)(one) == before + last + Demand(ts, i, one);
    assert FinishEq(ts, i, start, start + last)(one) <= one;
  }

  /** The finish recurrence climbs from its start and has a solution. */
  lemma FinishSolvable(ts: seq<Task>, i: nat, before: nat, last: nat, start: int)
    requires i <= |ts| && last > 0 && Underloaded(ts, i) && LeastFrom(StartEq(ts, i, before), before, start)
    ensures start >= 0 && Monotone(FinishEq(ts, i, start, start + last))
    ensures start + last <= FinishEq(ts, i, start, start + last)(start + last)
    ensures Bounded(FinishEq(ts, i, start, start + last), start + last)
  {
    FinishEqClimbs(ts, i, start, start + last);
    FinishLoopStops(ts, i, before, last, start);
  }

  ghost function FinishFrom(ts: seq<Task>, i: nat, before: nat, last: nat, start: int): (r: int)
    requires i <= |ts| && Underloaded(ts, i) && LeastFrom(StartEq(ts, i, before), before, start)
    ensures if last > 0 then LeastFrom(FinishEq(ts, i, start, start + last), start + last, r)
            else r == FinishEq(ts, i, start, start)(start)
  {
    if last > 0 then
      FinishSolvable(ts, i, before, last, start);
      Least(FinishEq(ts, i, start, start + last), start + last)
    else FinishEq(ts, i, start, start)(start)
  }

  /** What the loop of `job_finish` returns.  With a runnable of no length the first pass
      already stops the loop, possibly below where it began. */
  ghost function FinishTicks(ts: seq<Task>, i: nat, before: nat, last: nat): (r: int)
    requires i <= |ts| && Underloaded(ts, i)
    ensures var start := StartTicks(ts, i, before);
            if last > 0 then LeastFrom(FinishEq(ts, i, start, start + last), start + last, r)
            else r == FinishEq(ts, i, start, start)(start)
  {
    FinishFrom(ts, i, before, last, StartTicks(ts, i, before))
  }

  /** Two stages give the time of one stage when every task above is preemptive, and never
      more: for any work `before` (blocking and earlier jobs included). */
  lemma TwoStagesAreOne(ts: seq<Task>, i: nat, before: nat, last: nat)
    requires i <= |ts| && last > 0 && Underloaded(ts, i)
    ensures FinishTicks(ts, i, before, last) <= ResponseTicks(ts, i, before + last)
    ensures AllPreemptive(ts, i) ==> FinishTicks(ts, i, before, last) == ResponseTicks(ts, i, before + last)
  {
    var start, one := StartTicks(ts, i, before), ResponseTicks(ts, i, before + last);
    var two := FinishTicks(ts, i, before, last);
    assert StartEq(ts, i, before)(start) == before + StartDemand(ts, i, start);
    assert ResponseEq(ts, i, before + last)(one) == before + last + Demand(ts, i, one);
    StartLeavesRoom(ts, i, before, last, start, one);
    FinishIsDifference(ts, i, start, one);
    assert FinishEq(ts, i, start, start + last)(one) <= one;
    if AllPreemptive(ts, i) {
      FinishIsDifference(ts, i, start, two);
      assert FinishEq(ts, i, start, start + last)(two) == start + last + FinishDemand(ts, i, start, two);
      assert ResponseEq(ts, i, before + last)(two) <= two;
    }
  }

  // ----- tasks above that do not preempt -----

  /** The list as it looks when only the preemptive tasks, or only the others, have work. */
  function Only(ts: seq<Task>, preemptive: bool): (us: seq<Task>)
    ensures |us| == |ts|
    ensures forall j :: 0 <= j < |ts| ==>
      us[j] == Task(ts[j].period, if ts[j].preemptive == preemptive then ts[j].runs else [], true)
  {
    seq(|ts|, j requires 0 <= j < |ts| =>
      Task(ts[j].period, if ts[j].preemptive == preemptive then ts[j].runs else [], true))
  }

  lemma OnlyCost(ts: seq<Task>, preemptive: bool, j: nat)
    requires j < |ts|
    ensures Only(ts, preemptive)[j].Cost() == if ts[j].preemptive == preemptive then ts[j].Cost() else 0
    ensures Only(ts, preemptive)[j].period == ts[j].period
  {
    assert Sum([]) == 0;
  }

  lemma OnlyStep(ts: seq<Task>, preemptive: bool, n: nat, x: int)
    requires 0 < n <= |ts|
    ensures var us := Only(ts, preemptive);
            var c := if ts[n - 1].preemptive == preemptive then ts[n - 1].Cost() else 0;
            && Demand(us, n, x) == Demand(us, n - 1, x) + CeilDiv(x, ts[n - 1].period) * c
            && StartDemand(us, n, x) == StartDemand(us, n - 1, x) + (x / ts[n - 1].period + 1) * c
  {
    OnlyCost(ts, preemptive, n - 1);
  }

  /** While a runnable runs, it is interfered with by what the preemptive tasks release. */
  lemma {:induction false} FinishIsOthers(ts: seq<Task>, n: nat, s: int, x: int)
    requires n <= |ts|
    ensures FinishDemand(ts, n, s, x) == Demand(Only(ts, true), n, x) - StartDemand(Only(ts, true), n, s)
  {
    if n > 0 {
      FinishIsOthers(ts, n - 1, s, x);
      OnlyStep(ts, true, n, x);
      OnlyStep(ts, true, n, s);
      var t := ts[n - 1].period;
      Distribute(CeilDiv(x, t), s / t + 1, ts[n - 1].Cost());
    }
  }

  /** Before it starts, by what all of them release. */
  lemma {:induction false} StartIsBoth(ts: seq<Task>, n: nat, x: int)
    requires n <= |ts|
    ensures StartDemand(ts, n, x) == StartDemand(Only(ts, true), n, x) + StartDemand(Only(ts, false), n, x)
  {
    if n > 0 {
      StartIsBoth(ts, n - 1, x);
      OnlyStep(ts, true, n, x);
      OnlyStep(ts, false, n, x);
    }
  }

  lemma {:induction false} OnlyUnderloaded(ts: seq<Task>, n: nat)
    requires n <= |ts|
    ensures Hyper(Only(ts, true), n) == Hyper(ts, n) && Load(Only(ts, true), n) <= Load(ts, n)
  {
    if n > 0 {
      OnlyUnderloaded(ts, n - 1);
      MulLe(Load(Only(ts, true), n - 1), Load(ts, n - 1), ts[n - 1].period);
      MulLe(Only(ts, true)[n - 1].Cost(), ts[n - 1].Cost(), Hyper(ts, n - 1));
    }
  }

  lemma StartDemandClimbs(ts: seq<Task>, n: nat, x: int, y: int)
    requires n <= |ts| && x <= y
    ensures StartDemand(ts, n, x) <= StartDemand(ts, n, y)
  {
    StartDemandIsDemand(ts, n, x);
    StartDemandIsDemand(ts, n, y);
    DemandMonotone(ts, n, x + 1, y + 1);
  }

  lemma StartDemandNonNegative(ts: seq<Task>, n: nat, x: int)
    requires n <= |ts| && x >= 0
    ensures StartDemand(ts, n, x) >= 0
  {
    StartDemandIsDemand(ts, n, x);
    DemandNonNegative(ts, n, x + 1);
  }

  /** The start time is the one at which, of the preemptive tasks alone, the work would have been
      done if what the others release up to then came first. */
  lemma StartAmongPreemptive(ts: seq<Task>, i: nat, before: nat, start: int, more: int)
    requires i <= |ts| && LeastFrom(StartEq(ts, i, before), before, start)
    requires more == StartDemand(Only(ts, false), i, start)
    ensures more >= 0 && LeastFrom(StartEq(Only(ts, true), i, before + more), before + more, start)
  {
    var us := Only(ts, true);
    assert StartEq(ts, i, before)(start) == before + StartDemand(ts, i, start);
    StartIsBoth(ts, i, start);
    StartDemandNonNegative(us, i, start);
    StartDemandNonNegative(Only(ts, false), i, start);
    var G := StartEq(us, i, before + more);
    assert G(start) == start;
    forall x | before + more <= x && G(x) <= x ensures start <= x {
      if x < start {
        NotEarlier(ts, i, before, start, more, x);
      }
    }
  }

  lemma NotEarlier(ts: seq<Task>, i: nat, before: nat, start: int, more: int, x: int)
    requires i <= |ts| && LeastFrom(StartEq(ts, i, before), before, start)
    requires more == StartDemand(Only(ts, false), i, start) && before <= x < start
    ensures StartEq(Only(ts, true), i, before + more)(x) > x
  {
    StartIsBoth(ts, i, x);
    StartDemandClimbs(Only(ts, false), i, x, start);
    var F := StartEq(ts, i, before);
    assert F(x) > x;
  }

  /** Main result for mixed lists: a runnable completes when the preemptive tasks above, on their
      own, would let it complete behind the earlier work and all that the other tasks above have
      released by the time it starts. */
  lemma MixedCompletion(ts: seq<Task>, i: nat, before: nat, last: nat)
    requires i <= |ts| && last > 0 && Underloaded(ts, i)
    ensures var more := StartDemand(Only(ts, false), i, StartTicks(ts, i, before));
            && more >= 0 && Underloaded(Only(ts, true), i)
            && FinishTicks(ts, i, before, last) == ResponseTicks(Only(ts, true), i, before + more + last)
  {
    var start := StartTicks(ts, i, before);
    var more := StartDemand(Only(ts, false), i, start);
    OnlyUnderloaded(ts, i);
    StartAmongPreemptive(ts, i, before, start, more);
    StartIs(Only(ts, true), i, before + more, start);
    SameFinish(ts, i, before, last, start, before + more);
    TwoStagesAreOne(Only(ts, true), i, before + more, last);
  }

  lemma StartIs(ts: seq<Task>, i: nat, before: nat, start: int)
    requires i <= |ts| && Underloaded(ts, i) && LeastFrom(StartEq(ts, i, before), before, start)
    ensures StartTicks(ts, i, before) == start
  {
  }

  lemma SameFinish(ts: seq<Task>, i: nat, before: nat, last: nat, start: int, before': nat)
    requires i <= |ts| && last > 0 && Underloaded(ts, i) && Underloaded(Only(ts, true), i)
    requires start == StartTicks(ts, i, before) == StartTicks(Only(ts, true), i, before')
    ensures FinishTicks(ts, i, before, last) == FinishTicks(Only(ts, true), i, before', last)
  {
    SameSolution(ts, i, start, start + last, FinishTicks(ts, i, before, last),
                 FinishTicks(Only(ts, true), i, before', last));
  }

  lemma SameSolution(ts: seq<Task>, i: nat, start: int, init: int, a: int, b: int)
    requires i <= |ts| && LeastFrom(FinishEq(ts, i, start, init), init, a)
    requires LeastFrom(FinishEq(Only(ts, true), i, start, init), init, b)
    ensures a == b
  {
    SameInterference(ts, i, start, a);
    SameInterference(ts, i, start, b);
    SameLeast(FinishEq(ts, i, start, init), FinishEq(Only(ts, true), i, start, init), init, a, b);
  }

  lemma SameLeast(F: int -> int, G: int -> int, x0: int, a: int, b: int)
    requires LeastFrom(F, x0, a) && LeastFrom(G, x0, b) && F(a) == G(a) && F(b) == G(b)
    ensures a == b
  {
  }

  lemma SameInterference(ts: seq<Task>, i: nat, s: int, x: int)
    requires i <= |ts|
    ensures FinishDemand(ts, i, s, x) == FinishDemand(Only(ts, true), i, s, x)
  {
    OnlyTwice(ts);
    FinishIsOthers(ts, i, s, x);
    FinishIsOthers(Only(ts, true), i, s, x);
  }

  lemma OnlyTwice(ts: seq<Task>)
    ensures Only(Only(ts, true), true) == Only(ts, true)
  {
  }

  /** With no preemptive task above a runnable is not interrupted. */
  lemma NoPreemption(ts: seq<Task>, i: nat, before: nat, last: nat)
    requires i <= |ts| && Underloaded(ts, i) && forall j :: 0 <= j < i ==> !ts[j].preemptive
    ensures FinishTicks(ts, i, before, last) == StartTicks(ts, i, before) + last
  {
    var start := StartTicks(ts, i, before);
    NoInterference(ts, i, start, start + last);
    NoInterference(ts, i, start, FinishTicks(ts, i, before, last));
  }

  lemma {:induction false} NoInterference(ts: seq<Task>, n: nat, s: int, x: int)
    requires n <= |ts| && forall j :: 0 <= j < n ==> !ts[j].preemptive
    ensures FinishDemand(ts, n, s, x) == 0
  {
    if n > 0 {
      NoInterference(ts, n - 1, s, x);
    }
  }

  /** A task of period 10 and cost 4 that does not preempt above one of cost 8: started at 4, the
      lower task is not interrupted at 10. */
  const MIXED: seq<Task> := [Task(10, [4], false), Task(100, [8], true)]

  lemma MixedDemand(x: int)
    ensures Demand(MIXED, 1, x) == 4 * CeilDiv(x, 10) && StartDemand(MIXED, 1, x) == 4 * (x / 10 + 1)
    ensures Load(MIXED, 1) == 4 && Hyper(MIXED, 1) == 10
  {
    assert Sum([4]) == 4;
    assert Demand(MIXED, 0, x) == 0 && StartDemand(MIXED, 0, x) == 0 && Load(MIXED, 0) == 0 && Hyper(MIXED, 0) == 1;
  }

  lemma NotInterrupted()
    ensures Underloaded(MIXED, 1) && StartTicks(MIXED, 1, 0) == 4 && FinishTicks(MIXED, 1, 0, 8) == 12
    ensures ResponseTicks(MIXED, 1, 8) == 16
  {
    MixedDemand(0);
    MixedDemand(4);
    MixedDemand(16);
    var start, one := StartTicks(MIXED, 1, 0), ResponseTicks(MIXED, 1, 8);
    MixedDemand(start);
    MixedDemand(one);
    assert StartEq(MIXED, 1, 0)(4) == 4 && StartEq(MIXED, 1, 0)(start) == start;
    assert start == 4;
    assert ResponseEq(MIXED, 1, 8)(16) == 16 && ResponseEq(MIXED, 1, 8)(one) == one;
    NoPreemption(MIXED, 1, 0, 8);
  }

  /** Some task above with work to do is released exactly at tick x. */
  ghost predicate ReleasesAt(ts: seq<Task>, n: nat, x: int)
    requires n <= |ts|
  {
    exists j :: 0 <= j < n && ts[j].Cost() > 0 && x % ts[j].period == 0
  }

  lemma CeilVersusFloor(x: int, t: Period)
    ensures CeilDiv(x, t) == if x % t == 0 then x / t else x / t + 1
  {
    DivBounds(x, t);
    CeilDivBounds(x, t);
    if x % t == 0 {
      MulCancel(CeilDiv(x, t) - 1, x / t, t);
      MulCancelLe(x / t, CeilDiv(x, t), t);
    } else {
      MulCancel(CeilDiv(x, t) - 1, x / t + 1, t);
      MulCancel(x / t, CeilDiv(x, t), t);
    }
  }

  lemma {:induction false} QuietPoint(ts: seq<Task>, n: nat, x: int)
    requires n <= |ts|
    ensures Demand(ts, n, x) <= StartDemand(ts, n, x)
    ensures ReleasesAt(ts, n, x) <==> Demand(ts, n, x) < StartDemand(ts, n, x)
  {
    if n > 0 {
      QuietPoint(ts, n - 1, x);
      var c, t := ts[n - 1].Cost(), ts[n - 1].period;
      CeilVersusFloor(x, t);
      var q := x / t;
      assert (q + 1) * c == q * c + c;
      if ReleasesAt(ts, n, x) && !ReleasesAt(ts, n - 1, x) {
        assert c > 0 && x % t == 0;
      }
      if ReleasesAt(ts, n - 1, x) {
        var j :| 0 <= j < n - 1 && ts[j].Cost() > 0 && x % ts[j].period == 0;
        assert ReleasesAt(ts, n, x);
      }
      if c > 0 && x % t == 0 {
        assert ReleasesAt(ts, n, x);
      }
    }
  }

  /** A release inside [x, y) makes the demand at y larger. */
  lemma {:induction false} ReleaseRaisesDemand(ts: seq<Task>, n: nat, x: int, y: int)
    requires n <= |ts| && x < y && ReleasesAt(ts, n, x)
    ensures Demand(ts, n, x) < Demand(ts, n, y)
  {
    StartDemandIsDemand(ts, n, x);
    QuietPoint(ts, n, x);
    DemandMonotone(ts, n, x + 1, y);
  }

  /** For a runnable of no length the two computations agree exactly when no task above
      that has work is released at the very tick the earlier work completes. */
  lemma ZeroLengthRunnable(ts: seq<Task>, i: nat, before: nat)
    requires i <= |ts| && Underloaded(ts, i) && AllPreemptive(ts, i)
    ensures FinishTicks(ts, i, before, 0) == ResponseTicks(ts, i, before)
            <==> !ReleasesAt(ts, i, ResponseTicks(ts, i, before))
  {
    var start, one := StartTicks(ts, i, before), ResponseTicks(ts, i, before);
    assert StartEq(ts, i, before)(start) == before + StartDemand(ts, i, start);
    assert ResponseEq(ts, i, before)(one) == before + Demand(ts, i, one);
    FinishAtStart(ts, i, start);
    assert FinishTicks(ts, i, before, 0) == before + Demand(ts, i, start);
    QuietPoint(ts, i, one);
    QuietPoint(ts, i, start);
    assert ResponseEq(ts, i, before)(start) <= start;
    if ReleasesAt(ts, i, one) {
      assert StartEq(ts, i, before)(one) == before + StartDemand(ts, i, one);
      assert one < start;
      ReleaseRaisesDemand(ts, i, one, start);
    } else {
      assert StartEq(ts, i, before)(one) <= one;
      assert start == one;
    }
  }

  /** A task of period 2 and cost 1 above: one tick of earlier work completes at 2, where that task
      is released again. */
  const CLASH: seq<Task> := [Task(2, [1], true), Task(10, [1], true)]

  lemma ClashDemand(x: int)
    ensures Demand(CLASH, 1, x) == CeilDiv(x, 2) && StartDemand(CLASH, 1, x) == x / 2 + 1
    ensures Load(CLASH, 1) == 1 && Hyper(CLASH, 1) == 2
  {
    assert Sum([1]) == 1;
    assert Demand(CLASH, 0, x) == 0 && StartDemand(CLASH, 0, x) == 0 && Load(CLASH, 0) == 0 && Hyper(CLASH, 0) == 1;
  }

  lemma ZeroLengthDiffers()
    ensures Underloaded(CLASH, 1) && AllPreemptive(CLASH, 1)
    ensures ResponseTicks(CLASH, 1, 1) == 2 && FinishTicks(CLASH, 1, 1, 0) == 3
  {
    ClashDemand(1);
    ClashDemand(2);
    ClashDemand(3);
    var one, start := ResponseTicks(CLASH, 1, 1), StartTicks(CLASH, 1, 1);
    assert ResponseEq(CLASH, 1, 1)(1) == 2 && ResponseEq(CLASH, 1, 1)(2) == 2;
    assert one == 2;
    assert StartEq(CLASH, 1, 1)(1) == 2 && StartEq(CLASH, 1, 1)(2) == 3 && StartEq(CLASH, 1, 1)(3) == 3;
    assert start == 3;
    FinishAtStart(CLASH, 1, start);
  }

  lemma {:induction false} FinishAtStart(ts: seq<Task>, n: nat, s: int)
    requires n <= |ts| && AllPreemptive(ts, n)
    ensures FinishDemand(ts, n, s, s) == Demand(ts, n, s) - StartDemand(ts, n, s)
  {
    if n > 0 {
      FinishAtStart(ts, n - 1, s);
      var c, t := ts[n - 1].Cost(), ts[n - 1].period;
      var a, b := CeilDiv(s, t), s / t + 1;
      assert (a - b) * c == a * c - b * c;
    }
  }
}
