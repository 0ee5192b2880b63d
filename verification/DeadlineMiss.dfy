/** When the response exceeds the period: what the numbers of `RTADeadlineMiss` are worth. */
module DeadlineMiss {
  import opened Arithmetic
  import opened ResponseTime
  import opened TwoStage
  import opened Analysis
  import opened Scheduler
  import opened Exactness
  import opened WorstResponse

  /** The busy period of the code is long enough for the real demand of tasks 0..i. */
  ghost predicate Covers(ts: seq<Task>, i: nat)
    requires i < |ts| && BusyConverges(ts, i)
  {
    Demand(ts, i + 1, BusyTicks(ts, i)) <= BusyTicks(ts, i)
  }

  /** Main result: the responses `RTADeadlineMiss` stores bound every job under every sporadic
      pattern if and only if the tasks do not ask for more than all the time and no job of the
      first hyperperiod is later than the jobs it has examined. */
  lemma MissResponseExact(ts: seq<Task>, i: nat, m: nat)
    requires i < |ts| && Analysable(ts, i) && m < |ts[i].runs|
    ensures InTime(ts, i, m, MissResponses(ts, i)[m])
       <==> Load(ts, i + 1) <= Hyper(ts, i + 1) && JobsWithin(ts, i, m, MissResponses(ts, i)[m], Hyper(ts, i + 1))
  {
    LargestNonNegative(LatenessesDM(ts, i, m, Jobs(ts, i)));
    InTimeIff(ts, i, m, MissResponses(ts, i)[m]);
  }

  /** In particular they do when the busy period of the code covers the real demand. */
  lemma MissResponseIsSound(ts: seq<Task>, i: nat, m: nat)
    requires i < |ts| && Analysable(ts, i) && Covers(ts, i) && m < |ts[i].runs|
    ensures InTime(ts, i, m, MissResponses(ts, i)[m])
  {
    var L, worst := BusyTicks(ts, i), MissResponses(ts, i)[m];
    LargestNonNegative(LatenessesDM(ts, i, m, Jobs(ts, i)));
    if L == 0 {
      NoWorkInTime(ts, i, m, worst);
    } else {
      forall k: nat | k >= 1 && Release(ts[i].period, k) < L ensures LatenessDM(ts, i, k, m) <= worst {
        JobIsExamined(ts, i, k, m);
      }
      WindowSuffices(ts, i, m, worst, L);
    }
  }

  /** A job released in the busy period is among those `RTADeadlineMiss` takes the largest of. */
  lemma JobIsExamined(ts: seq<Task>, i: nat, k: nat, m: nat)
    requires i < |ts| && Analysable(ts, i) && m < |ts[i].runs|
    requires k >= 1 && Release(ts[i].period, k) < BusyTicks(ts, i)
    ensures LatenessDM(ts, i, k, m) <= MissResponses(ts, i)[m]
  {
    JobCounted(k - 1, ts[i].period, Release(ts[i].period, k), BusyTicks(ts, i));
    assert MissResponses(ts, i)[m] == WorstDM(ts, i, m, Jobs(ts, i));
    WorstDMCovers(ts, i, m, Jobs(ts, i), k);
  }

  lemma JobCounted(k: nat, t: Period, d: int, L: int)
    requires k * t <= d < L
    ensures k + 1 <= CeilDiv(L, t)
  {
    CeilDivBounds(L, t);
    MulCancel(k, CeilDiv(L, t), t);
  }

  /** Tasks above with periods no shorter than the task's own make the busy period cover. */
  lemma LongPeriodsCover(ts: seq<Task>, i: nat)
    requires i < |ts| && BusyConverges(ts, i)
    requires forall j :: 0 <= j < i ==> ts[j].period >= ts[i].period
    ensures Covers(ts, i)
  {
    var L := BusyTicks(ts, i);
    LongPeriods(ts, i + 1, ts[i].period, L);
    assert BusyEq(ts, i)(L) == Blocking(ts, i) + BusyDemand(ts, i + 1, ts[i].period, L);
  }

  lemma {:induction false} LongPeriods(ts: seq<Task>, n: nat, t: Period, x: nat)
    requires n <= |ts| && forall j :: 0 <= j < n ==> ts[j].period >= t
    ensures Demand(ts, n, x) <= BusyDemand(ts, n, t, x)
  {
    if n > 0 {
      LongPeriods(ts, n - 1, t, x);
      CeilDivAntitone(x, t, ts[n - 1].period);
      MulLe(CeilDiv(x, ts[n - 1].period), CeilDiv(x, t), ts[n - 1].Cost());
    }
  }

  lemma CeilDivAntitone(x: nat, a: Period, b: Period)
    requires a <= b
    ensures CeilDiv(x, b) <= CeilDiv(x, a)
  {
    CeilDivBounds(x, a);
    CeilDivBounds(x, b);
    CeilDivPositive(x, a);
    MulLe(a, b, CeilDiv(x, a));
    MulCancel(CeilDiv(x, b) - 1, CeilDiv(x, a), b);
  }

  // ----- a shorter period above: the stored response is too small -----

  /** A task of period 70 and cost 26 above one of period 100 and cost 62. */
  const OVERRUN: seq<Task> := [Task(70, [26], true), Task(100, [62], true)]

  lemma OverrunParameters()
    ensures |OVERRUN| == 2 && OVERRUN[0].Cost() == 26 && OVERRUN[1].Cost() == 62
    ensures Blocking(OVERRUN, 1) == 0 && TotalCost(OVERRUN, 2) == 88
    ensures Load(OVERRUN, 1) == 26 && Hyper(OVERRUN, 1) == 70
  {
    assert Sum([26]) == 26 && Sum([62]) == 62;
    assert TotalCost(OVERRUN, 1) == 26;
    assert Load(OVERRUN, 0) == 0 && Hyper(OVERRUN, 0) == 1;
  }

  lemma OverrunDemand(x: int)
    ensures Demand(OVERRUN, 1, x) == 26 * CeilDiv(x, 70)
    ensures BusyDemand(OVERRUN, 2, 100, x) == 88 * CeilDiv(x, 100)
  {
    OverrunParameters();
    BusyDemandIs(OVERRUN, 2, 100, x);
    assert Demand(OVERRUN, 0, x) == 0;
  }

  lemma OverrunResponse()
    ensures Analysable(OVERRUN, 1) && Jobs(OVERRUN, 1) == 1
    ensures MissResponses(OVERRUN, 1) == [114]
  {
    OverrunParameters();
    var L := BusyTicks(OVERRUN, 1);
    assert L == 88 by {
      OverrunDemand(88);
      OverrunDemand(L);
      assert BusyEq(OVERRUN, 1)(88) == 88 && BusyEq(OVERRUN, 1)(L) == L;
    }
    var R := ResponseTicks(OVERRUN, 1, 62);
    assert R == 114 by {
      OverrunDemand(114);
      OverrunDemand(R);
      assert ResponseEq(OVERRUN, 1, 62)(114) == 114 && ResponseEq(OVERRUN, 1, 62)(R) == R;
    }
    assert OVERRUN[1].runs[..1] == [62];
    FirstJob(OVERRUN, 1, 0);
    assert LatenessesDM(OVERRUN, 1, 0, 1) == [114];
    assert Largest([114]) == 114 by { assert [114][..0] == []; assert Largest([]) == 0; }
  }

  /** The response stored for the lower task is 114, although its first response already
      exceeds its period of 100 and its third job, released at 200, is still running at 314. */
  lemma MissResponseTooSmall(w: Pattern)
    requires Synchronous(OVERRUN, w)
    ensures MissResponses(OVERRUN, 1) == [114] && !InTime(OVERRUN, 1, 0, 114)
    ensures w(1, 200) == 62 && Arrived(w, 1, 200) == 124
    ensures Done(w, 2, 200 + 114)[1] < Arrived(w, 1, 200) + 62
  {
    OverrunResponse();
    OverrunThirdJob(w);
    OverrunNotInTime(w);
  }

  lemma OverrunNotInTime(w: Pattern)
    requires Synchronous(OVERRUN, w) && w(1, 200) == 62 && Done(w, 2, 314)[1] < Arrived(w, 1, 200) + 62
    ensures !InTime(OVERRUN, 1, 0, 114)
  {
    SynchronousIsSporadic(OVERRUN, w);
    OverrunOwn();
    LateJob(OVERRUN, w, 1, 0, 114, 200, 314);
  }

  lemma OverrunOwn()
    ensures |OVERRUN[1].runs| == 1 && Own(OVERRUN, 1, 0) == 62
  {
    assert OVERRUN[1].runs[..1] == OVERRUN[1].runs;
    assert Sum([62]) == 62;
  }

  /** With fewer jobs of cost 26 and period 70 above, k jobs of cost 62 are not complete. */
  lemma NoFewer(k: nat, c: int, above: nat, R: int, q: int)
    requires c == 62 * k + 26 * above && 62 * k > 44 * (above - 1) && q == CeilDiv(R, 70)
    ensures R == 62 * k + 26 * q ==> R >= c
  {
    CeilDivBounds(R, 70);
  }

  lemma OverrunThirdJob(w: Pattern)
    requires Synchronous(OVERRUN, w)
    ensures w(1, 200) == 62 && Arrived(w, 1, 200) == 124
    ensures Done(w, 2, 314)[1] < 186
  {
    OverrunParameters();
    SynchronousArrivals(OVERRUN, w, 1, 200);
    assert CeilDiv(200, 100) == 2;
    var R := ResponseTicks(OVERRUN, 1, 186);
    OverrunDemand(R);
    assert ResponseEq(OVERRUN, 1, 186)(R) == R;
    NoFewer(3, 316, 5, R, CeilDiv(R, 70));
    if Done(w, 2, 314)[1] >= 186 {
      NotBefore(OVERRUN, w, 1, 186, R, 314);
    }
  }

  // ----- several jobs examined -----

  /** The same two tasks above a third one: its runnable blocks, so five jobs are examined. */
  const LATER: seq<Task> := [Task(70, [26], true), Task(100, [62], true), Task(1000, [50], true)]

  lemma LaterParameters(x: int)
    ensures |LATER| == 3 && LATER[0].Cost() == 26 && LATER[1].Cost() == 62
    ensures Blocking(LATER, 1) == 50 && TotalCost(LATER, 2) == 88
    ensures Load(LATER, 1) == 26 && Hyper(LATER, 1) == 70
    ensures Demand(LATER, 1, x) == 26 * CeilDiv(x, 70)
  {
    assert Sum([26]) == 26 && Sum([62]) == 62;
    assert Longest([50]) == 50 by { assert [50][..0] == []; }
    assert LongestBelow(LATER, 1, 2) == 0 && LongestBelow(LATER, 1, 3) == 50;
    assert TotalCost(LATER, 1) == 26;
    assert Load(LATER, 0) == 0 && Hyper(LATER, 0) == 1 && Demand(LATER, 0, x) == 0;
  }

  lemma LaterBusy()
    ensures BusyConverges(LATER, 1) && BusyTicks(LATER, 1) == 490 && Jobs(LATER, 1) == 5
  {
    LaterParameters(0);
    var L := BusyTicks(LATER, 1);
    BusyDemandIs(LATER, 2, 100, 490);
    BusyDemandIs(LATER, 2, 100, L);
    assert BusyEq(LATER, 1)(490) == 490 && BusyEq(LATER, 1)(L) == L;
  }

  /** The k-th completion of the middle task is tick c, with so many jobs of the first before it. */
  lemma LaterSolution(k: nat, c: int, above: nat)
    requires c == 62 * k + 26 * above && 70 * (above - 1) < c <= 70 * above
    requires 62 * k > 44 * (above - 1)
    ensures Underloaded(LATER, 1) && ResponseTicks(LATER, 1, 62 * k) == c
  {
    LaterParameters(c);
    var R := ResponseTicks(LATER, 1, 62 * k);
    LaterParameters(R);
    NoFewer(k, c, above, R, CeilDiv(R, 70));
    assert CeilDiv(c, 70) == above;
    assert ResponseEq(LATER, 1, 62 * k)(c) == c && ResponseEq(LATER, 1, 62 * k)(R) == R;
  }

  lemma LaterLateness(k: nat, c: int)
    requires k >= 1 && Underloaded(LATER, 1) && ResponseTicks(LATER, 1, 62 * k) == c
    ensures LatenessDM(LATER, 1, k, 0) == c - (k - 1) * 100
  {
    LaterParameters(0);
    assert LATER[1].runs[..1] == [62];
    assert Sum([62]) == 62;
    assert UpTo(LATER, 1, k, 0) == 62 * k;
  }

  const FIVE := [114, 102, 116, 104, 118]

  lemma LaterAt(k: nat)
    requires 1 <= k <= 5
    ensures Underloaded(LATER, 1) && LatenessDM(LATER, 1, k, 0) == FIVE[k - 1]
  {
    var above := if k == 1 then 2 else if k == 2 then 3 else if k == 3 then 5 else if k == 4 then 6 else 8;
    var c := 62 * k + 26 * above;
    LaterSolution(k, c, above);
    LaterLateness(k, c);
  }

  lemma LaterResponses()
    ensures Underloaded(LATER, 1) && LatenessesDM(LATER, 1, 0, 5) == FIVE
  {
    LaterAt(1);
    forall k | 0 <= k < 5 ensures LatenessesDM(LATER, 1, 0, 5)[k] == FIVE[k] {
      LaterAt(k + 1);
    }
  }

  /** Each of the five jobs exceeds the period; the largest response is that of the last. */
  lemma FiveJobs()
    ensures Analysable(LATER, 1) && MissResponses(LATER, 1) == [118]
  {
    LaterBusy();
    LaterResponses();
    LargestOfFive(LatenessesDM(LATER, 1, 0, 5));
  }

  lemma LargestOfFive(s: seq<int>)
    requires s == FIVE
    ensures Largest(s) == 118
  {
    assert s[..0] == [] && Largest([]) == 0;
    LargestStep(s, 0);
    LargestStep(s, 1);
    LargestStep(s, 2);
    LargestStep(s, 3);
    LargestStep(s, 4);
    assert s[..5] == s;
  }
}
