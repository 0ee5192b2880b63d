/** The response recurrence against the scheduler when every task is released at tick 0 and
    then once a period: the computed number is the completion tick, not only a bound. */
module Exactness {
  import opened Arithmetic
  import opened FixedPoint
  import opened ResponseTime
  import opened TwoStage
  import opened Analysis
  import opened Scheduler

  lemma {:induction false} SynchronousArrivals(ts: seq<Task>, w: Pattern, j: nat, t: nat)
    requires Synchronous(ts, w) && j < |ts|
    ensures Arrived(w, j, t) == CeilDiv(t, ts[j].period) * ts[j].Cost()
  {
    var T, c := ts[j].period, ts[j].Cost();
    if t == 0 {
      CeilDivPositive(0, T);
    } else {
      var u := t - 1;
      SynchronousArrivals(ts, w, j, u);
      FloorIsCeil(u, T);
      CeilVersusFloor(u, T);
      OneMore(CeilDiv(u, T), c);
    }
  }

  lemma SynchronousIsSporadic(ts: seq<Task>, w: Pattern)
    requires Synchronous(ts, w)
    ensures Sporadic(ts, w)
  {
    forall j: nat, t: nat, u: nat | j < |ts| && t < u && w(j, t) > 0 && w(j, u) > 0
      ensures u - t >= ts[j].period
    {
      var T := ts[j].period;
      DivBounds(t, T);
      DivBounds(u, T);
      MulCancel(t / T, u / T, T);
      MulLe(t / T + 1, u / T, T);
      OneMore(t / T, T);
    }
  }

  lemma {:induction false} AskedIsDemand(ts: seq<Task>, w: Pattern, m: nat, t: nat)
    requires Synchronous(ts, w) && m <= |ts|
    ensures Asked(w, m, t) == Demand(ts, m, t)
  {
    if m > 0 {
      AskedIsDemand(ts, w, m - 1, t);
      SynchronousArrivals(ts, w, m - 1, t);
    }
  }

  /** The tick g in which task i completes its q-th tick of work, and the tick after it. */
  lemma {:induction false} FirstReached(w: Pattern, n: nat, i: nat, q: nat, t: nat) returns (g: nat, f: nat)
    requires i < n && q > 0 && Done(w, n, t)[i] >= q
    ensures f == g + 1 <= t && Done(w, n, f)[i] == q && Done(w, n, g)[i] == q - 1
  {
    if Done(w, n, t - 1)[i] >= q {
      g, f := FirstReached(w, n, i, q, t - 1);
    } else {
      g, f := t - 1, t;
    }
  }

  /** At that tick the tasks above have nothing left, so the time is accounted for in full. */
  lemma ReachedAccount(ts: seq<Task>, w: Pattern, i: nat, q: nat, g: nat, f: nat)
    requires Synchronous(ts, w) && i < |ts| && q > 0 && f == g + 1
    requires Done(w, |ts|, f)[i] == q && Done(w, |ts|, g)[i] == q - 1
    ensures Ran(w, |ts|, i + 1, f) == q + Demand(ts, i, f) <= f
  {
    NothingLeftAbove(w, |ts|, i, g, f);
    RanWithin(w, |ts|, i, f);
    AskedIsDemand(ts, w, i, f);
    RanAtMostTime(w, |ts|, i + 1, f);
  }

  lemma NothingLeftAbove(w: Pattern, n: nat, i: nat, g: nat, f: nat)
    requires i < n && f == g + 1 && Done(w, n, g)[i] < Done(w, n, f)[i]
    ensures forall h :: 0 <= h < i ==> Done(w, n, f)[h] == Arrived(w, h, f)
  {
    forall h | 0 <= h < i ensures Done(w, n, f)[h] == Arrived(w, h, f) {
      RunsLast(w, n, g, i, h);
    }
  }

  /** Nothing completes before the least solution of its recurrence. */
  lemma NotBefore(ts: seq<Task>, w: Pattern, i: nat, q: nat, R: int, t: nat)
    requires Synchronous(ts, w) && i < |ts| && q > 0
    requires LeastFrom(ResponseEq(ts, i, q), q, R)
    requires Done(w, |ts|, t)[i] >= q
    ensures R <= t
  {
    var g, f := FirstReached(w, |ts|, i, q, t);
    ReachedAccount(ts, w, i, q, g, f);
    DemandNonNegative(ts, i, f);
    assert ResponseEq(ts, i, q)(f) <= f;
  }

  /** Main result: a prefix of q > 0 ticks of the first job is complete at tick t exactly when
      t has reached the number the do-while loop computes. */
  lemma FirstJobExact(ts: seq<Task>, w: Pattern, i: nat, q: nat, t: nat)
    requires Synchronous(ts, w) && i < |ts| && 0 < q <= ts[i].Cost() && Underloaded(ts, i)
    ensures Done(w, |ts|, t)[i] >= q <==> t >= ResponseTicks(ts, i, q)
  {
    var R := ResponseTicks(ts, i, q);
    if Done(w, |ts|, t)[i] >= q {
      NotBefore(ts, w, i, q, R, t);
    }
    if t >= R {
      SynchronousIsSporadic(ts, w);
      assert ResponseEq(ts, i, q)(R) == q + Demand(ts, i, R);
      assert w(i, 0) == ts[i].Cost();
      PrefixInTime(ts, w, i, 0, q, q, R, t);
    }
  }

  /** Tasks 0..i always have work to do before tick R. */
  ghost predicate BusyUntil(ts: seq<Task>, i: nat, R: int)
    requires i < |ts|
  {
    forall t: nat :: t < R ==> HasWork(ts, i, t)
  }

  /** More work of tasks 0..i is released in [0, t] than t ticks can serve. */
  predicate HasWork(ts: seq<Task>, i: nat, t: nat)
    requires i < |ts|
  {
    StartDemand(ts, i + 1, t) > t
  }

  lemma BusyMeansPending(ts: seq<Task>, w: Pattern, i: nat, R: int, t: nat)
    requires Synchronous(ts, w) && i < |ts| && BusyUntil(ts, i, R) && t < R
    ensures Pending(w, |ts|, i + 1, t)
  {
    var n, m := |ts|, i + 1;
    assert HasWork(ts, i, t);
    StartDemandIsDemand(ts, m, t);
    if !Pending(w, n, m, t) {
      RanAtMostTime(w, n, m, t);
      AskedIsDemand(ts, w, m, t + 1);
      NothingPending(w, n, m, t);
    }
  }

  lemma {:induction false} NothingPending(w: Pattern, n: nat, m: nat, t: nat)
    requires m <= n && !Pending(w, n, m, t)
    ensures Ran(w, n, m, t) >= Asked(w, m, t + 1)
  {
    if m > 0 {
      assert !Pending(w, n, m - 1, t);
      NothingPending(w, n, m - 1, t);
      assert Done(w, n, t)[m - 1] >= Arrived(w, m - 1, t + 1);
    }
  }

  /** A tick lost by the first m tasks is never recovered. */
  lemma {:induction false} NoTickLost(w: Pattern, n: nat, m: nat, t: nat, e: nat)
    requires m <= n && t < e && Ran(w, n, m, e) == e
    ensures Ran(w, n, m, t) == t && Pending(w, n, m, t)
    decreases e
  {
    var d := e - 1;
    RanStep(w, n, m, d);
    RanAtMostTime(w, n, m, d);
    PendingRuns(w, n, m, d);
    if t < d {
      NoTickLost(w, n, m, t, d);
    }
  }

  lemma {:induction false} PendingNeedsMore(w: Pattern, n: nat, m: nat, t: nat)
    requires m <= n && Pending(w, n, m, t)
    ensures Ran(w, n, m, t) < Asked(w, m, t + 1)
  {
    var h :| 0 <= h < m && Done(w, n, t)[h] < Arrived(w, h, t + 1);
    BehindOne(w, n, m, t, h);
  }

  lemma {:induction false} BehindOne(w: Pattern, n: nat, m: nat, t: nat, h: nat)
    requires h < m <= n && Done(w, n, t)[h] < Arrived(w, h, t + 1)
    ensures Ran(w, n, m, t) < Asked(w, m, t + 1)
  {
    NeverAhead(w, n, t, m - 1);
    assert Arrived(w, m - 1, t) <= Arrived(w, m - 1, t + 1);
    if h < m - 1 {
      BehindOne(w, n, m - 1, t, h);
    } else {
      AskedGrows(w, m - 1, t);
      RanWithin(w, n, m - 1, t);
    }
  }

  lemma {:induction false} AskedGrows(w: Pattern, m: nat, t: nat)
    ensures Asked(w, m, t) <= Asked(w, m, t + 1)
  {
    if m > 0 {
      AskedGrows(w, m - 1, t);
    }
  }

  /** For later jobs (q ticks of own work counted from tick 0) the computed number is never
      late, and it is the completion tick exactly when the tasks have work at every tick
      before it. */
  lemma LaterJobExact(ts: seq<Task>, w: Pattern, i: nat, q: nat, R: nat)
    requires Synchronous(ts, w) && i < |ts| && q > 0
    requires LeastFrom(ResponseEq(ts, i, q), q, R)
    ensures Done(w, |ts|, R)[i] >= q <==> BusyUntil(ts, i, R)
    ensures forall t: nat :: t < R ==> Done(w, |ts|, t)[i] < q
  {
    var n, m := |ts|, i + 1;
    forall t: nat | t < R ensures Done(w, n, t)[i] < q {
      if Done(w, n, t)[i] >= q {
        NotBefore(ts, w, i, q, R, t);
      }
    }
    if BusyUntil(ts, i, R) {
      BusyReaches(ts, w, i, q, R);
    }
    if Done(w, n, R)[i] >= q {
      ReachedMeansBusy(ts, w, i, q, R);
    }
  }

  lemma BusyReaches(ts: seq<Task>, w: Pattern, i: nat, q: nat, R: nat)
    requires Synchronous(ts, w) && i < |ts| && q > 0
    requires LeastFrom(ResponseEq(ts, i, q), q, R) && BusyUntil(ts, i, R)
    ensures Done(w, |ts|, R)[i] >= q
  {
    var n, m := |ts|, i + 1;
    SynchronousIsSporadic(ts, w);
    forall t | 0 <= t < R && Done(w, n, t)[i] < 0 + q ensures Pending(w, n, m, t) {
      BusyMeansPending(ts, w, i, R, t);
    }
    RanAtZero(w, n, i);
    FixedPointValue(ts, i, q, R);
    DoneWithin(ts, w, i, 0, 0, q, q, R, R);
  }

  lemma ReachedMeansBusy(ts: seq<Task>, w: Pattern, i: nat, q: nat, R: nat)
    requires Synchronous(ts, w) && i < |ts| && q > 0
    requires LeastFrom(ResponseEq(ts, i, q), q, R) && Done(w, |ts|, R)[i] >= q
    ensures BusyUntil(ts, i, R)
  {
    ReachedIsFull(ts, w, i, q, R);
    forall t: nat | t < R ensures HasWork(ts, i, t) {
      FullMeansWork(ts, w, i, R, t);
    }
  }

  lemma ReachedIsFull(ts: seq<Task>, w: Pattern, i: nat, q: nat, R: nat)
    requires Synchronous(ts, w) && i < |ts| && q > 0
    requires LeastFrom(ResponseEq(ts, i, q), q, R) && Done(w, |ts|, R)[i] >= q
    ensures Ran(w, |ts|, i + 1, R) == R
  {
    var m := i + 1;
    var g, f := FirstReached(w, |ts|, i, q, R);
    assert f == R by {
      NotBefore(ts, w, i, q, R, f);
    }
    assert Ran(w, |ts|, m, f) == f by {
      ReachedAccount(ts, w, i, q, g, f);
      FixedPointValue(ts, i, q, R);
    }
  }

  lemma FixedPointValue(ts: seq<Task>, i: nat, q: nat, R: int)
    requires i < |ts| && LeastFrom(ResponseEq(ts, i, q), q, R)
    ensures R == q + Demand(ts, i, R)
  {
  }

  lemma FullMeansWork(ts: seq<Task>, w: Pattern, i: nat, R: nat, t: nat)
    requires Synchronous(ts, w) && i < |ts| && t < R && Ran(w, |ts|, i + 1, R) == R
    ensures HasWork(ts, i, t)
  {
    var n, m, u := |ts|, i + 1, t + 1;
    NoTickLost(w, n, m, t, R);
    PendingNeedsMore(w, n, m, t);
    AskedIsDemand(ts, w, m, u);
    StartDemandIsDemand(ts, m, t);
  }

  /** What `responseTimePreemptiveTask` stores for runnable m is the tick at which that
      runnable of the first job completes. */
  lemma StoredResponseExact(ts: seq<Task>, w: Pattern, i: nat, m: nat, t: nat)
    requires Synchronous(ts, w) && i < |ts| && m < |ts[i].runs| && Own(ts, i, m) > 0 && Underloaded(ts, i)
    ensures Done(w, |ts|, t)[i] >= Own(ts, i, m) <==> t >= PreemptiveResponses(ts, i)[m]
  {
    SumMonotone(ts[i].runs, m + 1);
    FirstJobExact(ts, w, i, Own(ts, i, m), t);
  }

  /** ... and when the last runnable's response is within the period, it bounds that runnable
      of every job under every sporadic pattern. */
  lemma StoredResponseSound(ts: seq<Task>, w: Pattern, i: nat, m: nat, r: nat, q: nat, e: nat)
    requires Sporadic(ts, w) && i < |ts| && m < |ts[i].runs| && Underloaded(ts, i)
    requires PreemptiveResponses(ts, i)[|ts[i].runs| - 1] <= ts[i].period
    requires w(i, r) > 0 && q <= w(i, r) && q <= Own(ts, i, m)
    requires e >= r + PreemptiveResponses(ts, i)[m]
    ensures Done(w, |ts|, e)[i] >= Arrived(w, i, r) + q
  {
    assert ts[i].runs[..|ts[i].runs|] == ts[i].runs;
    ResponseIsSound(ts, w, i, r, q, Own(ts, i, m), e);
  }
}
