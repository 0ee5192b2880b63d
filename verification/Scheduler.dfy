/** A preemptive fixed-priority scheduler, one tick at a time, as the independent meaning of
    the response times.  Task 0 has the highest priority; jobs of one task run in order of
    release. */
module Scheduler {
  import opened Arithmetic
  import opened ResponseTime
  import opened TwoStage

  /** Work that task j releases at tick t; 0 for no release. */
  type Pattern = (nat, nat) -> nat

  /** A release asks for at most the task's cost, and two releases of a task lie at least a
      period apart. */
  ghost predicate Sporadic(ts: seq<Task>, w: Pattern) {
    && (forall j: nat, t: nat :: j < |ts| ==> w(j, t) <= ts[j].Cost())
    && (forall j: nat, t: nat, u: nat :: j < |ts| && t < u && w(j, t) > 0 && w(j, u) > 0 ==> u - t >= ts[j].period)
  }

  /** Every task releases its full cost at 0 and then once a period. */
  ghost predicate Synchronous(ts: seq<Task>, w: Pattern) {
    forall j: nat, t: nat :: j < |ts| ==> w(j, t) == if t % ts[j].period == 0 then ts[j].Cost() else 0
  }

  /** Work that task j released before tick t. */
  function Arrived(w: Pattern, j: nat, t: nat): nat {
    if t == 0 then 0 else Arrived(w, j, t - 1) + w(j, t - 1)
  }

  /** The first task with work left at tick t, or n. */
  function Pick(w: Pattern, done: seq<nat>, t: nat, j: nat): (r: nat)
    requires j <= |done|
    ensures j <= r <= |done|
    ensures forall h :: j <= h < r ==> Arrived(w, h, t + 1) <= done[h]
    ensures r < |done| ==> done[r] < Arrived(w, r, t + 1)
    decreases |done| - j
  {
    if j == |done| || done[j] < Arrived(w, j, t + 1) then j else Pick(w, done, t, j + 1)
  }

  /** Ticks each of n tasks has run before tick t. */
  function Done(w: Pattern, n: nat, t: nat): (done: seq<nat>)
    ensures |done| == n
  {
    if t == 0 then seq(n, _ => 0)
    else
      var before := Done(w, n, t - 1);
      var j := Pick(w, before, t - 1, 0);
      if j < n then before[j := before[j] + 1] else before
  }

  // ----- what one tick does -----

  lemma {:induction false} NeverAhead(w: Pattern, n: nat, t: nat, j: nat)
    requires j < n
    ensures Done(w, n, t)[j] <= Arrived(w, j, t)
  {
    if t > 0 {
      NeverAhead(w, n, t - 1, j);
    }
  }

  lemma {:induction false} DoneMonotone(w: Pattern, n: nat, t: nat, u: nat, j: nat)
    requires j < n && t <= u
    ensures Done(w, n, t)[j] <= Done(w, n, u)[j]
    decreases u
  {
    if t < u {
      DoneMonotone(w, n, t, u - 1, j);
    }
  }

  /** Task i runs only when no task above has work left. */
  lemma RunsLast(w: Pattern, n: nat, t: nat, i: nat, h: nat)
    requires h < i < n && Done(w, n, t)[i] < Done(w, n, t + 1)[i]
    ensures Done(w, n, t + 1)[h] == Done(w, n, t)[h] == Arrived(w, h, t + 1)
  {
    NeverAhead(w, n, t, h);
    NeverAhead(w, n, t + 1, h);
    assert Pick(w, Done(w, n, t), t, 0) == i;
    DoneMonotone(w, n, t, t + 1, h);
  }

  /** Ticks the first m tasks have run, and the work they released. */
  function Ran(w: Pattern, n: nat, m: nat, t: nat): nat
    requires m <= n
  {
    if m == 0 then 0 else Ran(w, n, m - 1, t) + Done(w, n, t)[m - 1]
  }

  function Asked(w: Pattern, m: nat, t: nat): nat {
    if m == 0 then 0 else Asked(w, m - 1, t) + Arrived(w, m - 1, t)
  }

  lemma {:induction false} RanStep(w: Pattern, n: nat, m: nat, t: nat)
    requires m <= n
    ensures Ran(w, n, m, t + 1) == Ran(w, n, m, t) + if Pick(w, Done(w, n, t), t, 0) < m then 1 else 0
  {
    if m > 0 {
      RanStep(w, n, m - 1, t);
    }
  }

  lemma {:induction false} RanWithin(w: Pattern, n: nat, m: nat, t: nat)
    requires m <= n
    ensures Ran(w, n, m, t) <= Asked(w, m, t)
    ensures Ran(w, n, m, t) == Asked(w, m, t) <==> forall h :: 0 <= h < m ==> Done(w, n, t)[h] == Arrived(w, h, t)
  {
    if m > 0 {
      RanWithin(w, n, m - 1, t);
      NeverAhead(w, n, t, m - 1);
    }
  }

  lemma {:induction false} RanAtMostTime(w: Pattern, n: nat, m: nat, t: nat)
    requires m <= n
    ensures Ran(w, n, m, t) <= t
  {
    if t == 0 {
      RanAtZero(w, n, m);
    } else {
      RanAtMostTime(w, n, m, t - 1);
      RanStep(w, n, m, t - 1);
    }
  }

  lemma {:induction false} RanAtZero(w: Pattern, n: nat, m: nat)
    requires m <= n
    ensures Ran(w, n, m, 0) == 0 && Asked(w, m, 0) == 0
  {
    if m > 0 {
      RanAtZero(w, n, m - 1);
    }
  }

  /** Some task among the first m has work left at tick t, releases at t included. */
  ghost predicate Pending(w: Pattern, n: nat, m: nat, t: nat)
    requires m <= n
  {
    exists h :: 0 <= h < m && Done(w, n, t)[h] < Arrived(w, h, t + 1)
  }

  lemma PendingRuns(w: Pattern, n: nat, m: nat, t: nat)
    requires m <= n
    ensures Pending(w, n, m, t) <==> Pick(w, Done(w, n, t), t, 0) < m
  {
    var r := Pick(w, Done(w, n, t), t, 0);
    if r < m {
      assert Done(w, n, t)[r] < Arrived(w, r, t + 1);
    }
  }

  lemma PendingTick(w: Pattern, n: nat, m: nat, t: nat)
    requires m <= n && Pending(w, n, m, t)
    ensures Ran(w, n, m, t + 1) == Ran(w, n, m, t) + 1
  {
    RanStep(w, n, m, t);
    PendingRuns(w, n, m, t);
  }

  /** While work is pending no tick is lost. */
  lemma {:induction false} BusyWindow(w: Pattern, n: nat, m: nat, a: nat, b: nat)
    requires m <= n && a <= b
    requires forall t :: a <= t < b ==> Pending(w, n, m, t)
    ensures Ran(w, n, m, b) == Ran(w, n, m, a) + (b - a)
    decreases b
  {
    if a < b {
      var c := b - 1;
      BusyWindow(w, n, m, a, c);
      PendingTick(w, n, m, c);
    }
  }

  // ----- how much work a window can bring -----

  lemma {:induction false} ArrivedMonotone(w: Pattern, j: nat, a: nat, b: nat)
    requires a <= b
    ensures Arrived(w, j, a) <= Arrived(w, j, b)
    decreases b
  {
    if a < b {
      ArrivedMonotone(w, j, a, b - 1);
    }
  }

  /** At most one release fits in a window no longer than the period. */
  lemma {:induction false} OneRelease(ts: seq<Task>, w: Pattern, j: nat, a: nat, b: nat)
    requires Sporadic(ts, w) && j < |ts| && a <= b <= a + ts[j].period
    ensures Arrived(w, j, b) - Arrived(w, j, a) <= ts[j].Cost()
    ensures Arrived(w, j, b) == Arrived(w, j, a) || exists t: nat :: a <= t < b && w(j, t) > 0
    decreases b
  {
    if a < b {
      OneRelease(ts, w, j, a, b - 1);
      if w(j, b - 1) > 0 && Arrived(w, j, b - 1) != Arrived(w, j, a) {
        assert false;
      }
    }
  }

  lemma {:induction false} ArrivalBound(ts: seq<Task>, w: Pattern, j: nat, a: nat, b: nat)
    requires Sporadic(ts, w) && j < |ts| && a <= b
    ensures Arrived(w, j, b) - Arrived(w, j, a) <= CeilDiv(b - a, ts[j].period) * ts[j].Cost()
    decreases b - a
  {
    var T, c := ts[j].period, ts[j].Cost();
    if b - a <= T {
      OneRelease(ts, w, j, a, b);
      CeilDivPositive(b - a, T);
      if a < b {
        MulLe(1, CeilDiv(b - a, T), c);
      }
    } else {
      ArrivalBound(ts, w, j, a + T, b);
      OneRelease(ts, w, j, a, a + T);
      CeilDivShift(b - a, T);
      OneMore(CeilDiv(b - a - T, T), c);
    }
  }

  lemma CeilDivShift(x: int, t: Period)
    ensures CeilDiv(x, t) == CeilDiv(x - t, t) + 1
  {
    CeilDivBounds(x, t);
    CeilDivBounds(x - t, t);
    var p, q := CeilDiv(x, t), CeilDiv(x - t, t);
    assert (q + 1) * t == q * t + t && (p - 1) * t == p * t - t && (q - 1) * t == q * t - t;
    MulCancel(p - 1, q + 1, t);
    MulCancel(q, p, t);
  }

  lemma {:induction false} AskedBound(ts: seq<Task>, w: Pattern, m: nat, a: nat, b: nat)
    requires Sporadic(ts, w) && m <= |ts| && a <= b
    ensures Asked(w, m, b) - Asked(w, m, a) <= Demand(ts, m, b - a)
  {
    if m > 0 {
      AskedBound(ts, w, m - 1, a, b);
      ArrivalBound(ts, w, m - 1, a, b);
    }
  }

  // ----- the core argument -----

  /** If at `t0` no task above i has old work left, task i has received `base`, and work is
      pending while task i lacks `base + q`, then `base + q` is done within any solution of
      the response recurrence for at least q. */
  lemma DoneWithin(ts: seq<Task>, w: Pattern, i: nat, t0: nat, base: nat, q: nat, own: nat, R: nat, e: nat)
    requires Sporadic(ts, w) && i < |ts| && q <= own && R == own + Demand(ts, i, R) && e == t0 + R
    requires Ran(w, |ts|, i, t0) == Asked(w, i, t0)
    requires Done(w, |ts|, t0)[i] >= base
    requires forall t :: t0 <= t < e && Done(w, |ts|, t)[i] < base + q ==> Pending(w, |ts|, i + 1, t)
    ensures Done(w, |ts|, e)[i] >= base + q
  {
    var n, m := |ts|, i + 1;
    if Done(w, n, e)[i] < base + q {
      forall t | t0 <= t < e ensures Pending(w, n, m, t) {
        DoneMonotone(w, n, t, e, i);
      }
      BusyWindow(w, n, m, t0, e);
      RanSplit(w, n, i, t0, e);
      RanWithin(w, n, i, e);
      AskedBound(ts, w, i, t0, e);
      assert false;
    }
  }

  lemma RanSplit(w: Pattern, n: nat, i: nat, a: nat, b: nat)
    requires i < n
    ensures Ran(w, n, i + 1, b) - Ran(w, n, i + 1, a)
            == Ran(w, n, i, b) - Ran(w, n, i, a) + Done(w, n, b)[i] - Done(w, n, a)[i]
  {
  }

  // ----- soundness when every response fits in the period -----

  /** The latest tick up to r at which the first m tasks had finished all their old work. */
  lemma {:induction false} LastIdle(w: Pattern, n: nat, m: nat, r: nat) returns (t0: nat)
    requires m <= n
    ensures t0 <= r && Ran(w, n, m, t0) == Asked(w, m, t0)
    ensures forall t :: t0 < t <= r ==> Ran(w, n, m, t) < Asked(w, m, t)
  {
    RanWithin(w, n, m, r);
    if Ran(w, n, m, r) == Asked(w, m, r) {
      t0 := r;
    } else {
      if r == 0 { RanAtZero(w, n, m); }
      t0 := LastIdle(w, n, m, r - 1);
    }
  }

  /** Old work that is still left at the next tick was pending at this one. */
  lemma LeftMeansPending(w: Pattern, n: nat, m: nat, t: nat)
    requires m <= n && Ran(w, n, m, t + 1) < Asked(w, m, t + 1)
    ensures Pending(w, n, m, t)
  {
    RanWithin(w, n, m, t + 1);
    var h :| 0 <= h < m && Done(w, n, t + 1)[h] != Arrived(w, h, t + 1);
    LeftHere(w, n, h, t);
  }

  lemma LeftHere(w: Pattern, n: nat, h: nat, t: nat)
    requires h < n && Done(w, n, t + 1)[h] != Arrived(w, h, t + 1)
    ensures Done(w, n, t)[h] < Arrived(w, h, t + 1)
  {
    NeverAhead(w, n, t + 1, h);
    DoneMonotone(w, n, t, t + 1, h);
  }

  /** Tasks below leave the tasks above alone: task i gains nothing while those above are busy. */
  lemma {:induction false} NoGain(w: Pattern, n: nat, i: nat, a: nat, b: nat)
    requires i < n && a <= b
    requires forall t :: a <= t < b ==> Pending(w, n, i, t)
    ensures Done(w, n, b)[i] == Done(w, n, a)[i]
    decreases b
  {
    if a < b {
      NoGain(w, n, i, a, b - 1);
      PendingRuns(w, n, i, b - 1);
    }
  }

  /** A job of task i released at r with everything before it done finishes its first q ticks
      of work, q <= own, within any solution R of the recurrence for `own`. */
  lemma PrefixInTime(ts: seq<Task>, w: Pattern, i: nat, r: nat, q: nat, own: nat, R: nat, e: nat)
    requires Sporadic(ts, w) && i < |ts| && q <= own && q <= w(i, r)
    requires R == own + Demand(ts, i, R) && r + R <= e
    requires Done(w, |ts|, r)[i] >= Arrived(w, i, r)
    ensures Done(w, |ts|, e)[i] >= Arrived(w, i, r) + q
  {
    var t0 := WindowStart(w, |ts|, i, r);
    var e0 := t0 + R;
    assert Done(w, |ts|, e0)[i] >= Arrived(w, i, r) + q by {
      WindowBusy(w, |ts|, i, t0, r, q, e0);
      DoneWithin(ts, w, i, t0, Arrived(w, i, r), q, own, R, e0);
    }
    DoneMonotone(w, |ts|, e0, e, i);
  }

  /** The busy window of the tasks above i that contains r. */
  lemma WindowStart(w: Pattern, n: nat, i: nat, r: nat) returns (t0: nat)
    requires i < n
    ensures t0 <= r && Ran(w, n, i, t0) == Asked(w, i, t0) && Done(w, n, t0)[i] == Done(w, n, r)[i]
    ensures forall t :: t0 <= t < r ==> Pending(w, n, i, t)
  {
    t0 := LastIdle(w, n, i, r);
    forall t | t0 <= t < r ensures Pending(w, n, i, t) {
      LeftMeansPending(w, n, i, t);
    }
    NoGain(w, n, i, t0, r);
  }

  lemma WindowBusy(w: Pattern, n: nat, i: nat, t0: nat, r: nat, q: nat, e: nat)
    requires i < n && t0 <= r && q <= w(i, r)
    requires forall t :: t0 <= t < r ==> Pending(w, n, i, t)
    ensures forall t :: t0 <= t < e && Done(w, n, t)[i] < Arrived(w, i, r) + q ==> Pending(w, n, i + 1, t)
  {
    forall t | t0 <= t < e && Done(w, n, t)[i] < Arrived(w, i, r) + q ensures Pending(w, n, i + 1, t) {
      if t < r {
        assert Pending(w, n, i, t);
      } else {
        JobPending(w, n, i, r, q, t);
      }
    }
  }

  lemma JobPending(w: Pattern, n: nat, i: nat, r: nat, q: nat, t: nat)
    requires i < n && r <= t && q <= w(i, r)
    requires Done(w, n, t)[i] < Arrived(w, i, r) + q
    ensures Pending(w, n, i + 1, t)
  {
    ArrivedMonotone(w, i, r + 1, t + 1);
  }

  /** Response of the whole job within the period: no job of task i is late for the next. */
  lemma {:induction false} EarlierJobsDone(ts: seq<Task>, w: Pattern, i: nat, r: nat, R: nat)
    requires Sporadic(ts, w) && i < |ts| && w(i, r) > 0
    requires R == ts[i].Cost() + Demand(ts, i, R) && R <= ts[i].period
    ensures Done(w, |ts|, r)[i] >= Arrived(w, i, r)
    decreases r
  {
    if exists u: nat :: u < r && w(i, u) > 0 {
      var p := LastRelease(w, i, r);
      EarlierJobsDone(ts, w, i, p, R);
      PrefixInTime(ts, w, i, p, w(i, p), ts[i].Cost(), R, r);
      NextStart(w, i, p, r);
    } else {
      QuietArrived(w, i, 0, r);
    }
  }

  lemma NextStart(w: Pattern, i: nat, p: nat, r: nat)
    requires p < r && forall u: nat :: p < u < r ==> w(i, u) == 0
    ensures Arrived(w, i, r) == Arrived(w, i, p) + w(i, p)
  {
    QuietArrived(w, i, p + 1, r);
  }

  lemma {:induction false} LastRelease(w: Pattern, i: nat, r: nat) returns (p: nat)
    requires exists p: nat :: p < r && w(i, p) > 0
    ensures p < r && w(i, p) > 0 && forall u: nat :: p < u < r ==> w(i, u) == 0
  {
    if w(i, r - 1) > 0 {
      p := r - 1;
    } else {
      p := LastRelease(w, i, r - 1);
    }
  }

  lemma {:induction false} QuietArrived(w: Pattern, i: nat, a: nat, b: nat)
    requires a <= b && forall u: nat :: a <= u < b ==> w(i, u) == 0
    ensures Arrived(w, i, a) == Arrived(w, i, b)
    decreases b
  {
    if a < b {
      QuietArrived(w, i, a, b - 1);
    }
  }

  /** Main result: if the response of the whole task fits in its period then, under every
      sporadic release pattern and for every job of the task, the first q ticks of the job are
      done no later than the response computed for `own` >= q ticks. */
  lemma ResponseIsSound(ts: seq<Task>, w: Pattern, i: nat, r: nat, q: nat, own: nat, e: nat)
    requires Sporadic(ts, w) && i < |ts| && w(i, r) > 0 && q <= w(i, r) && q <= own
    requires (own == 0 && ts[i].Cost() == 0) || Underloaded(ts, i)
    requires ResponseTicks(ts, i, ts[i].Cost()) <= ts[i].period
    requires e >= r + ResponseTicks(ts, i, own)
    ensures Done(w, |ts|, e)[i] >= Arrived(w, i, r) + q
  {
    var whole, part := ResponseTicks(ts, i, ts[i].Cost()), ResponseTicks(ts, i, own);
    assert ResponseEq(ts, i, ts[i].Cost())(whole) == ts[i].Cost() + Demand(ts, i, whole);
    assert ResponseEq(ts, i, own)(part) == own + Demand(ts, i, part);
    EarlierJobsDone(ts, w, i, r, whole);
    PrefixInTime(ts, w, i, r, q, own, part, e);
  }
}
