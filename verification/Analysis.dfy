/** The quantities `Core` reports, as functions of the task parameters. */
module Analysis {
  import opened Arithmetic
  import opened FixedPoint
  import opened ResponseTime
  import opened TwoStage

  /** Ticks of the task's own work up to and including runnable m. */
  function Own(ts: seq<Task>, i: nat, m: nat): nat
    requires i < |ts| && m < |ts[i].runs|
  {
    Sum(ts[i].runs[..m + 1])
  }

  ghost function BusyTicks(ts: seq<Task>, i: nat): (r: int)
    requires i < |ts| && BusyConverges(ts, i)
    ensures LeastFrom(BusyEq(ts, i), Blocking(ts, i) + ts[i].Cost(), r)
  {
    BusyEqClimbs(ts, i);
    BusyLoopStops(ts, i);
    Least(BusyEq(ts, i), Blocking(ts, i) + ts[i].Cost())
  }

  /** Number of jobs examined: the job after the last one that starts in the busy period. */
  ghost function Jobs(ts: seq<Task>, i: nat): nat
    requires i < |ts| && BusyConverges(ts, i)
  {
    CeilDivPositive(BusyTicks(ts, i), ts[i].period);
    CeilDiv(BusyTicks(ts, i), ts[i].period)
  }

  ghost predicate Analysable(ts: seq<Task>, i: nat)
    requires i < |ts|
  {
    Underloaded(ts, i) && BusyConverges(ts, i)
  }

  /** Ticks of the task's own work up to runnable m of the k-th job. */
  function UpTo(ts: seq<Task>, i: nat, k: nat, m: nat): nat
    requires i < |ts| && m < |ts[i].runs| && k >= 1
  {
    (k - 1) * ts[i].Cost() + Own(ts, i, m)
  }

  /** Completion of runnable m of the k-th job, one-stage. */
  ghost function CompletionDM(ts: seq<Task>, i: nat, k: nat, m: nat): int
    requires i < |ts| && m < |ts[i].runs| && k >= 1 && Underloaded(ts, i)
  {
    ResponseTicks(ts, i, UpTo(ts, i, k, m))
  }

  /** Ticks that precede runnable m of the k-th job: blocking, earlier jobs, earlier runnables. */
  function Before(ts: seq<Task>, i: nat, k: nat, m: nat): nat
    requires i < |ts| && m < |ts[i].runs| && k >= 1
  {
    Blocking(ts, i) + (k - 1) * ts[i].Cost() + Sum(ts[i].runs[..m])
  }

  /** Completion of runnable m of the k-th job, two-stage. */
  ghost function Completion(ts: seq<Task>, i: nat, k: nat, m: nat): int
    requires i < |ts| && m < |ts[i].runs| && k >= 1 && Underloaded(ts, i)
  {
    FinishTicks(ts, i, Before(ts, i, k, m), ts[i].runs[m])
  }

  function Release(t: Period, k: nat): int { (k - 1) * t }

  /** Response of the k-th job when the jobs are released a period apart. */
  ghost function LatenessDM(ts: seq<Task>, i: nat, k: nat, m: nat): int
    requires i < |ts| && m < |ts[i].runs| && k >= 1 && Underloaded(ts, i)
  {
    CompletionDM(ts, i, k, m) - Release(ts[i].period, k)
  }

  ghost function Lateness(ts: seq<Task>, i: nat, k: nat, m: nat): int
    requires i < |ts| && m < |ts[i].runs| && k >= 1 && Underloaded(ts, i)
  {
    Completion(ts, i, k, m) - Release(ts[i].period, k)
  }

  /** Largest of the numbers and 0. */
  function Largest(s: seq<int>): int {
    if s == [] then 0 else Max(Largest(s[..|s| - 1]), s[|s| - 1])
  }

  lemma LargestStep(s: seq<int>, k: nat)
    requires k < |s|
    ensures Largest(s[..k + 1]) == Max(Largest(s[..k]), s[k])
  {
    assert s[..k + 1][..k] == s[..k];
  }

  /** Responses of the first n jobs, and the largest of them. */
  ghost function LatenessesDM(ts: seq<Task>, i: nat, m: nat, n: nat): (s: seq<int>)
    requires i < |ts| && m < |ts[i].runs| && Underloaded(ts, i)
    ensures |s| == n
  {
    seq(n, k requires 0 <= k < n => LatenessDM(ts, i, k + 1, m))
  }

  ghost function WorstDM(ts: seq<Task>, i: nat, m: nat, n: nat): int
    requires i < |ts| && m < |ts[i].runs| && Underloaded(ts, i)
  {
    Largest(LatenessesDM(ts, i, m, n))
  }

  ghost function Latenesses(ts: seq<Task>, i: nat, m: nat, n: nat): (s: seq<int>)
    requires i < |ts| && m < |ts[i].runs| && Underloaded(ts, i)
    ensures |s| == n
  {
    seq(n, k requires 0 <= k < n => Lateness(ts, i, k + 1, m))
  }

  ghost function WorstCooperative(ts: seq<Task>, i: nat, m: nat, n: nat): int
    requires i < |ts| && m < |ts[i].runs| && Underloaded(ts, i)
  {
    Largest(Latenesses(ts, i, m, n))
  }

  lemma SumPrefix(s: seq<nat>, m: nat)
    requires m < |s|
    ensures Sum(s[..m + 1]) == Sum(s[..m]) + s[m]
  {
    assert s[..m + 1][..m] == s[..m];
  }

  /** What `RTADeadlineMiss` stores, runnable by runnable. */
  ghost function MissResponses(ts: seq<Task>, i: nat): (r: seq<int>)
    requires i < |ts| && Analysable(ts, i)
    ensures |r| == |ts[i].runs|
  {
    seq(|ts[i].runs|, m requires 0 <= m < |ts[i].runs| => WorstDM(ts, i, m, Jobs(ts, i)))
  }

  /** What `responseTimeCooperativeTask` stores. */
  ghost function CooperativeResponses(ts: seq<Task>, i: nat): (r: seq<int>)
    requires i < |ts| && Analysable(ts, i)
    ensures |r| == |ts[i].runs|
  {
    seq(|ts[i].runs|, m requires 0 <= m < |ts[i].runs| => WorstCooperative(ts, i, m, Jobs(ts, i)))
  }

  /** The loops of task i have work to do and come to an end. */
  ghost predicate Solvable(ts: seq<Task>, i: nat)
    requires i < |ts|
  {
    ts[i].Cost() == 0 || Underloaded(ts, i)
  }

  lemma {:induction false} SumMonotone(s: seq<nat>, m: nat)
    requires m <= |s|
    ensures Sum(s[..m]) <= Sum(s)
    decreases |s| - m
  {
    if m == |s| {
      assert s[..m] == s;
    } else {
      SumPrefix(s, m);
      SumMonotone(s, m + 1);
    }
  }

  /** What the loop of `responseTimePreemptiveTask` stores before the deadline check. */
  ghost function PreemptiveResponses(ts: seq<Task>, i: nat): (r: seq<int>)
    requires i < |ts| && Solvable(ts, i)
    ensures |r| == |ts[i].runs|
  {
    seq(|ts[i].runs|, m requires 0 <= m < |ts[i].runs| => PrefixResponse(ts, i, m))
  }

  ghost function PrefixResponse(ts: seq<Task>, i: nat, m: nat): int
    requires i < |ts| && m < |ts[i].runs| && Solvable(ts, i)
  {
    SumMonotone(ts[i].runs, m + 1);
    ResponseTicks(ts, i, Own(ts, i, m))
  }

  // ----- what the reports mean to each other -----

  /** Every completion time of the two-stage analysis is the one-stage time with the blocking
      added, when the tasks above are preemptive and the runnable has some length. */
  lemma CompletionWithBlocking(ts: seq<Task>, i: nat, k: nat, m: nat)
    requires i < |ts| && m < |ts[i].runs| && k >= 1 && Underloaded(ts, i)
    requires AllPreemptive(ts, i) && ts[i].runs[m] > 0
    ensures Completion(ts, i, k, m) == ResponseTicks(ts, i, Blocking(ts, i) + UpTo(ts, i, k, m))
  {
    SumPrefix(ts[i].runs, m);
    TwoStagesAreOne(ts, i, Before(ts, i, k, m), ts[i].runs[m]);
  }

  /** For the task of lowest priority nothing blocks and the two analyses coincide. */
  lemma LowestPriorityAgreement(ts: seq<Task>, i: nat, k: nat, m: nat)
    requires i == |ts| - 1 && m < |ts[i].runs| && k >= 1 && Underloaded(ts, i)
    requires AllPreemptive(ts, i) && ts[i].runs[m] > 0
    ensures Completion(ts, i, k, m) == CompletionDM(ts, i, k, m)
  {
    CompletionWithBlocking(ts, i, k, m);
  }

  lemma LatenessAgrees(ts: seq<Task>, i: nat, k: nat, m: nat)
    requires i == |ts| - 1 && m < |ts[i].runs| && k >= 1 && Underloaded(ts, i)
    requires AllPreemptive(ts, i) && ts[i].runs[m] > 0
    ensures Lateness(ts, i, k, m) == LatenessDM(ts, i, k, m)
  {
    LowestPriorityAgreement(ts, i, k, m);
  }

  lemma WorstAgrees(ts: seq<Task>, i: nat, m: nat, n: nat)
    requires i == |ts| - 1 && m < |ts[i].runs| && Underloaded(ts, i)
    requires AllPreemptive(ts, i) && ts[i].runs[m] > 0
    ensures WorstCooperative(ts, i, m, n) == WorstDM(ts, i, m, n)
  {
    forall k | 0 <= k < n ensures Latenesses(ts, i, m, n)[k] == LatenessesDM(ts, i, m, n)[k] {
      LatenessAgrees(ts, i, k + 1, m);
    }
    assert Latenesses(ts, i, m, n) == LatenessesDM(ts, i, m, n);
  }

  /** So both methods store the same responses for it. */
  lemma ReportsAgree(ts: seq<Task>, i: nat)
    requires i == |ts| - 1 && Analysable(ts, i) && AllPreemptive(ts, i)
    requires forall m :: 0 <= m < |ts[i].runs| ==> ts[i].runs[m] > 0
    ensures CooperativeResponses(ts, i) == MissResponses(ts, i)
  {
    forall m | 0 <= m < |ts[i].runs| ensures CooperativeResponses(ts, i)[m] == MissResponses(ts, i)[m] {
      WorstAgrees(ts, i, m, Jobs(ts, i));
    }
  }

  lemma {:induction false} LargestCovers(s: seq<int>, k: nat)
    requires k < |s|
    ensures s[k] <= Largest(s)
  {
    if k < |s| - 1 {
      LargestCovers(s[..|s| - 1], k);
    }
  }

  lemma {:induction false} LargestNonNegative(s: seq<int>)
    ensures Largest(s) >= 0
  {
    if s != [] {
      LargestNonNegative(s[..|s| - 1]);
    }
  }

  lemma WorstDMCovers(ts: seq<Task>, i: nat, m: nat, n: nat, k: nat)
    requires i < |ts| && m < |ts[i].runs| && Underloaded(ts, i) && 1 <= k <= n
    ensures LatenessDM(ts, i, k, m) <= WorstDM(ts, i, m, n)
  {
    var s := LatenessesDM(ts, i, m, n);
    assert s[k - 1] == LatenessDM(ts, i, k, m);
    LargestCovers(s, k - 1);
  }

  lemma FirstJob(ts: seq<Task>, i: nat, m: nat)
    requires i < |ts| && m < |ts[i].runs| && Underloaded(ts, i)
    ensures LatenessDM(ts, i, 1, m) == ResponseTicks(ts, i, Own(ts, i, m))
  {
  }

  lemma FirstJobCounts(ts: seq<Task>, i: nat, m: nat)
    requires i < |ts| && m < |ts[i].runs| && Analysable(ts, i) && ts[i].Cost() > 0
    ensures ResponseTicks(ts, i, Own(ts, i, m)) <= WorstDM(ts, i, m, Jobs(ts, i))
  {
    var n := Jobs(ts, i);
    assert n >= 1 by { CeilDivPositive(BusyTicks(ts, i), ts[i].period); }
    WorstDMCovers(ts, i, m, n, 1);
    FirstJob(ts, i, m);
  }

  lemma NoWorkNoResponse(ts: seq<Task>, i: nat)
    requires i <= |ts|
    ensures ResponseTicks(ts, i, 0) == 0
  {
    DemandZero(ts, i);
    assert ResponseEq(ts, i, 0)(0) <= 0;
  }

  /** Recomputing after a deadline miss never lowers a response. */
  lemma MissNeverLowers(ts: seq<Task>, i: nat, m: nat)
    requires i < |ts| && m < |ts[i].runs| && Analysable(ts, i)
    ensures PreemptiveResponses(ts, i)[m] <= MissResponses(ts, i)[m]
  {
    assert MissResponses(ts, i)[m] == WorstDM(ts, i, m, Jobs(ts, i));
    assert PreemptiveResponses(ts, i)[m] == ResponseTicks(ts, i, Own(ts, i, m));
    if ts[i].Cost() > 0 {
      FirstJobCounts(ts, i, m);
    } else {
      SumMonotone(ts[i].runs, m + 1);
      NoWorkNoResponse(ts, i);
      LargestNonNegative(LatenessesDM(ts, i, m, Jobs(ts, i)));
    }
  }

  /** The response stored for the lower task of MIXED is 12. */
  lemma MixedResponse()
    ensures Analysable(MIXED, 1) && Jobs(MIXED, 1) == 1 && CooperativeResponses(MIXED, 1) == [12]
  {
    NotInterrupted();
    MixedBusy();
    assert MIXED[1].runs[..0] == [] && Sum([]) == 0;
    assert Before(MIXED, 1, 1, 0) == 0 && Completion(MIXED, 1, 1, 0) == 12;
    assert Latenesses(MIXED, 1, 0, 1) == [12];
    assert Largest([12]) == 12 by { assert [12][..0] == []; assert Largest([]) == 0; }
  }

  lemma MixedBusy()
    ensures BusyConverges(MIXED, 1) && Blocking(MIXED, 1) == 0 && BusyTicks(MIXED, 1) == 12 && Jobs(MIXED, 1) == 1
  {
    assert Sum([4]) == 4 && Sum([8]) == 8;
    assert MIXED[0].Cost() == 4 && MIXED[1].Cost() == 8;
    assert TotalCost(MIXED, 1) == 4 && TotalCost(MIXED, 2) == 12;
    var L := BusyTicks(MIXED, 1);
    BusyDemandIs(MIXED, 2, 100, 12);
    BusyDemandIs(MIXED, 2, 100, L);
    assert BusyEq(MIXED, 1)(12) == 12 && BusyEq(MIXED, 1)(L) == L;
  }
}
