/** The exact worst-case response of a runnable: over all sporadic release patterns it is what
    the one-stage recurrence gives for the jobs of one hyperperiod. */
module WorstResponse {
  import opened Arithmetic
  import opened ResponseTime
  import opened TwoStage
  import opened Analysis
  import opened Scheduler
  import opened Exactness

  /** Runnable m of the job that task i releases at r is done before tick e. */
  ghost predicate PrefixDone(ts: seq<Task>, w: Pattern, i: nat, m: nat, r: nat, e: nat)
    requires i < |ts| && m < |ts[i].runs|
  {
    Done(w, |ts|, e)[i] >= Arrived(w, i, r) + Min(w(i, r), Own(ts, i, m))
  }

  /** In this run runnable m of every job of task i is done within `worst` ticks. */
  ghost predicate RunInTime(ts: seq<Task>, w: Pattern, i: nat, m: nat, worst: int)
    requires i < |ts| && m < |ts[i].runs|
  {
    forall r: nat, e: nat :: w(i, r) > 0 && e >= r + worst ==> PrefixDone(ts, w, i, m, r, e)
  }

  /** ... and in every run with sporadic releases. */
  ghost predicate InTime(ts: seq<Task>, i: nat, m: nat, worst: int)
    requires i < |ts| && m < |ts[i].runs|
  {
    forall w: Pattern :: Sporadic(ts, w) ==> RunInTime(ts, w, i, m, worst)
  }

  /** The computed responses of the jobs released before L, a period apart, stay within `worst`. */
  ghost predicate JobsWithin(ts: seq<Task>, i: nat, m: nat, worst: int, L: nat)
    requires i < |ts| && m < |ts[i].runs| && Underloaded(ts, i)
  {
    forall k: nat :: k >= 1 && Release(ts[i].period, k) < L ==> LatenessDM(ts, i, k, m) <= worst
  }

  // ----- every job is as late as some job of the recurrence, at most -----

  /** Jobs of task i released in [a, r), when another one is released at r. */
  lemma {:induction false} JobsSince(ts: seq<Task>, w: Pattern, i: nat, a: nat, r: nat) returns (k: nat)
    requires Sporadic(ts, w) && i < |ts| && a <= r && w(i, r) > 0
    ensures Arrived(w, i, r) - Arrived(w, i, a) <= k * ts[i].Cost()
    ensures k * ts[i].period <= r - a
    decreases r
  {
    if exists u: nat :: a <= u < r && w(i, u) > 0 {
      var p := LastRelease(w, i, r);
      k := JobsSince(ts, w, i, a, p);
      NextStart(w, i, p, r);
      OneMore(k, ts[i].Cost());
      OneMore(k, ts[i].period);
      k := k + 1;
    } else {
      QuietArrived(w, i, a, r);
      k := 0;
    }
  }

  /** A busy window of tasks 0..i is shorter than any length that fits its own demand. */
  lemma WindowIsShort(ts: seq<Task>, w: Pattern, m: nat, t0: nat, r: nat, L: nat)
    requires Sporadic(ts, w) && m <= |ts| && t0 <= r && L > 0
    requires Demand(ts, m, L) <= L
    requires Ran(w, |ts|, m, t0) == Asked(w, m, t0)
    requires forall t :: t0 < t <= r ==> Ran(w, |ts|, m, t) < Asked(w, m, t)
    ensures r - t0 < L
  {
    var n, e := |ts|, t0 + L;
    if e <= r {
      forall t | t0 <= t < e ensures Pending(w, n, m, t) {
        LeftMeansPending(w, n, m, t);
      }
      BusyWindow(w, n, m, t0, e);
      AskedBound(ts, w, m, t0, e);
      assert Ran(w, n, m, e) >= Asked(w, m, e);
      assert false;
    }
  }

  /** One job inside its busy window: done within the completion time of the k-th job after
      the start of the window. */
  lemma DoneInWindow(ts: seq<Task>, w: Pattern, i: nat, m: nat, t0: nat, r: nat, q: nat, own: nat, R: nat, e: nat)
    requires Sporadic(ts, w) && i < |ts| && m == i + 1 && t0 <= r && q <= w(i, r)
    requires Ran(w, |ts|, m, t0) == Asked(w, m, t0)
    requires forall t :: t0 < t <= r ==> Ran(w, |ts|, m, t) < Asked(w, m, t)
    requires Arrived(w, i, r) - Arrived(w, i, t0) + q <= own
    requires R == own + Demand(ts, i, R) && e == t0 + R
    ensures Done(w, |ts|, e)[i] >= Arrived(w, i, r) + q
  {
    var n, base := |ts|, Arrived(w, i, t0);
    ArrivedMonotone(w, i, t0, r);
    var rest := Arrived(w, i, r) - base + q;
    RanWithin(w, n, m, t0);
    RanWithin(w, n, i, t0);
    forall t | t0 <= t < e && Done(w, n, t)[i] < base + rest ensures Pending(w, n, m, t) {
      if t < r {
        LeftMeansPending(w, n, m, t);
      } else {
        JobPending(w, n, i, r, q, t);
      }
    }
    DoneWithin(ts, w, i, t0, base, rest, own, R, e);
  }

  /** Every job is done within the completion time of some job k, counted from the start of its
      busy window, in which at least k - 1 periods have passed. */
  lemma JobInWindow(ts: seq<Task>, w: Pattern, i: nat, n: nat, m: nat, r: nat) returns (k: nat, t0: nat, f: nat)
    requires Sporadic(ts, w) && i < |ts| && Underloaded(ts, i) && m < |ts[i].runs| && w(i, r) > 0 && n == i + 1
    ensures k >= 1 && t0 <= r && Release(ts[i].period, k) <= r - t0
    ensures forall t :: t0 < t <= r ==> Ran(w, |ts|, n, t) < Asked(w, n, t)
    ensures Ran(w, |ts|, n, t0) == Asked(w, n, t0)
    ensures f == t0 + CompletionDM(ts, i, k, m) && PrefixDone(ts, w, i, m, r, f)
  {
    t0 := LastIdle(w, |ts|, n, r);
    var before := JobsSince(ts, w, i, t0, r);
    k := before + 1;
    var own, R := UpTo(ts, i, k, m), CompletionDM(ts, i, k, m);
    FixedPointValue(ts, i, own, R);
    f := t0 + R;
    DoneInWindow(ts, w, i, n, t0, r, Min(w(i, r), Own(ts, i, m)), own, R, f);
  }

  /** If the real demand of tasks 0..i fits into L ticks, the jobs released before L decide. */
  lemma WindowSuffices(ts: seq<Task>, i: nat, m: nat, worst: nat, L: nat)
    requires i < |ts| && m < |ts[i].runs| && Underloaded(ts, i) && L > 0 && Demand(ts, i + 1, L) <= L
    requires JobsWithin(ts, i, m, worst, L)
    ensures InTime(ts, i, m, worst)
  {
    forall w: Pattern, r: nat, e: nat | Sporadic(ts, w) && w(i, r) > 0 && e >= r + worst
      ensures PrefixDone(ts, w, i, m, r, e)
    {
      JobWithin(ts, w, i, m, worst, L, r, e);
    }
  }

  lemma JobWithin(ts: seq<Task>, w: Pattern, i: nat, m: nat, worst: nat, L: nat, r: nat, e: nat)
    requires i < |ts| && m < |ts[i].runs| && Underloaded(ts, i) && L > 0 && Demand(ts, i + 1, L) <= L
    requires JobsWithin(ts, i, m, worst, L) && Sporadic(ts, w) && w(i, r) > 0 && e >= r + worst
    ensures PrefixDone(ts, w, i, m, r, e)
  {
    var k, t0, f := JobInWindow(ts, w, i, i + 1, m, r);
    WindowIsShort(ts, w, i + 1, t0, r, L);
    assert LatenessDM(ts, i, k, m) <= worst;
    DoneMonotone(w, |ts|, f, e, i);
  }

  /** One job that is not done in time is enough to refute a bound. */
  lemma LateJob(ts: seq<Task>, w: Pattern, i: nat, m: nat, worst: int, r: nat, e: nat)
    requires i < |ts| && m < |ts[i].runs| && Sporadic(ts, w) && w(i, r) > 0 && e >= r + worst
    requires !PrefixDone(ts, w, i, m, r, e)
    ensures !InTime(ts, i, m, worst)
  {
  }

  lemma NoWorkInTime(ts: seq<Task>, i: nat, m: nat, worst: int)
    requires i < |ts| && m < |ts[i].runs| && ts[i].Cost() == 0
    ensures InTime(ts, i, m, worst)
  {
    assert forall w: Pattern, r: nat :: Sporadic(ts, w) ==> w(i, r) <= ts[i].Cost();
  }

  // ----- and when all tasks start together every job is as late as that -----

  function Together(ts: seq<Task>): Pattern {
    (j: nat, t: nat) => if j < |ts| && t % ts[j].period == 0 then ts[j].Cost() else 0
  }

  lemma JobIsLate(ts: seq<Task>, i: nat, m: nat, worst: nat, k: nat)
    requires i < |ts| && m < |ts[i].runs| && Underloaded(ts, i) && k >= 1 && InTime(ts, i, m, worst)
    ensures LatenessDM(ts, i, k, m) <= worst
  {
    var w, c, own := Together(ts), ts[i].Cost(), UpTo(ts, i, k, m);
    SynchronousIsSporadic(ts, w);
    SumMonotone(ts[i].runs, m + 1);
    if c == 0 {
      assert own == 0;
      NoWorkNoResponse(ts, i);
      assert Release(ts[i].period, k) >= 0;
    } else {
      var r: nat := Release(ts[i].period, k);
      ReleasedAt(ts, w, i, k, r);
      assert PrefixDone(ts, w, i, m, r, r + worst);
      if own > 0 {
        NotBefore(ts, w, i, own, CompletionDM(ts, i, k, m), r + worst);
      } else {
        NoWorkNoResponse(ts, i);
      }
    }
  }

  /** Job k of task i is released at r, with k - 1 jobs before it. */
  lemma ReleasedAt(ts: seq<Task>, w: Pattern, i: nat, k: nat, r: nat)
    requires Synchronous(ts, w) && i < |ts| && k >= 1 && r == Release(ts[i].period, k)
    ensures w(i, r) == ts[i].Cost() && Arrived(w, i, r) == (k - 1) * ts[i].Cost()
  {
    var t := ts[i].period;
    ModUnique(r, t, k - 1, 0);
    SynchronousArrivals(ts, w, i, r);
    CeilVersusFloor(r, t);
  }

  // ----- one hyperperiod is enough -----

  /** In a whole number of hyperperiods each task releases its share exactly. */
  lemma {:induction false} HyperDemand(ts: seq<Task>, n: nat, c: nat, x: nat)
    requires n <= |ts| && x == c * Hyper(ts, n)
    ensures Demand(ts, n, x) == c * Load(ts, n)
  {
    if n > 0 {
      var h, t := Hyper(ts, n - 1), ts[n - 1].period;
      ThreeFactors(c, h, t, x);
      HyperDemand(ts, n - 1, c * t, x);
      CeilDivExact(c * h, t);
      ShareAdds(c, t, Load(ts, n - 1), h, ts[n - 1].Cost());
    }
  }

  lemma ThreeFactors(c: nat, h: Positive, t: Positive, x: nat)
    requires x == c * Product(h, t)
    ensures x == (c * t) * h && x == (c * h) * t
  {
    assert c * (h * t) == (c * h) * t;
    assert (c * h) * t == (c * t) * h;
  }

  lemma ShareAdds(c: int, t: int, load: int, h: int, cost: int)
    ensures (c * t) * load + (c * h) * cost == c * (load * t + h * cost)
  {
    assert (c * t) * load == c * (load * t);
    assert (c * h) * cost == c * (h * cost);
  }

  /** The tasks above leave hyper - load of hyper ticks for the work of the task itself. */
  lemma WorkTakesRoom(R: nat, d: nat, load: nat, hyper: Positive, own: nat)
    requires R == own + d && R * load <= d * hyper
    ensures R * (hyper - load) >= own * hyper
  {
    assert R * hyper == own * hyper + d * hyper;
    assert R * (hyper - load) == R * hyper - R * load;
  }

  /** More work in a period than room for it: k jobs bring k units too much. */
  lemma WorkAddsUp(room: nat, t: nat, work: nat, k: nat)
    requires work >= room * t + 1
    ensures k * work >= (k * t) * room + k
  {
    MulLe(room * t + 1, work, k);
    assert (room * t + 1) * k == (k * t) * room + k;
  }

  /** So the k-th job is k units later than k periods. */
  lemma OverloadAddsUp(R: nat, d: nat, load: nat, hyper: Positive, own: nat, k: nat, t: nat, c: nat)
    requires load < hyper && R == own + d && own >= k * c && R * load <= d * hyper
    requires load * t + hyper * c > hyper * t
    ensures (R - k * t) * (hyper - load) >= k
  {
    var room, work := hyper - load, hyper * c;
    assert room * t == hyper * t - load * t;
    WorkTakesRoom(R, d, load, hyper, own);
    MulLe(k * c, own, hyper);
    assert (k * c) * hyper == k * work;
    WorkAddsUp(room, t, work, k);
    Distribute(R, k * t, room);
  }

  /** If tasks 0..i ask for more than all the time, no bound holds for ever. */
  lemma OverloadIsLate(ts: seq<Task>, i: nat, m: nat, worst: nat)
    requires i < |ts| && m < |ts[i].runs| && Underloaded(ts, i) && Load(ts, i + 1) > Hyper(ts, i + 1)
    ensures exists k: nat :: k >= 1 && LatenessDM(ts, i, k, m) > worst
  {
    var room: Positive := Hyper(ts, i) - Load(ts, i);
    var jobs := Product(worst + 1, room);
    LatenessAddsUp(ts, i, m, jobs, jobs + 1);
    MulCancelLe(worst + 1, LatenessDM(ts, i, jobs + 1, m), room);
  }

  lemma LatenessAddsUp(ts: seq<Task>, i: nat, m: nat, jobs: nat, k: nat)
    requires i < |ts| && m < |ts[i].runs| && Underloaded(ts, i) && Load(ts, i + 1) > Hyper(ts, i + 1) && k == jobs + 1
    ensures LatenessDM(ts, i, k, m) * (Hyper(ts, i) - Load(ts, i)) >= jobs
  {
    var own, R := UpTo(ts, i, k, m), CompletionDM(ts, i, k, m);
    FixedPointValue(ts, i, own, R);
    DemandShare(ts, i, R);
    DemandNonNegative(ts, i, R);
    OverloadAddsUp(R, Demand(ts, i, R), Load(ts, i), Hyper(ts, i), own, jobs, ts[i].period, ts[i].Cost());
  }

  /** Main result: `worst` bounds runnable m of every job of task i under every sporadic pattern
      if and only if tasks 0..i do not ask for more than all the time and the recurrence gives
      no more for any job of the first hyperperiod. */
  lemma InTimeIff(ts: seq<Task>, i: nat, m: nat, worst: nat)
    requires i < |ts| && m < |ts[i].runs| && Underloaded(ts, i)
    ensures InTime(ts, i, m, worst)
       <==> Load(ts, i + 1) <= Hyper(ts, i + 1) && JobsWithin(ts, i, m, worst, Hyper(ts, i + 1))
  {
    var L := Hyper(ts, i + 1);
    HyperDemand(ts, i + 1, 1, L);
    if InTime(ts, i, m, worst) {
      forall k: nat | k >= 1 ensures LatenessDM(ts, i, k, m) <= worst {
        JobIsLate(ts, i, m, worst, k);
      }
      if Load(ts, i + 1) > L {
        OverloadIsLate(ts, i, m, worst);
      }
    } else if Load(ts, i + 1) <= L && JobsWithin(ts, i, m, worst, L) {
      WindowSuffices(ts, i, m, worst, L);
    }
  }
}
