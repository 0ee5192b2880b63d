/** The class Core with its loops, each proved to return the value of its recurrence. */
module Cores {
  import opened Arithmetic
  import opened FixedPoint
  import opened ResponseTime
  import opened TwoStage
  import opened Analysis

  class RunnableRecord {
    const executionTime: nat
    var responseTime: int

    constructor (executionTime: nat)
      ensures this.executionTime == executionTime && responseTime == 0
    {
      this.executionTime := executionTime;
      responseTime := 0;
    }
  }

  function Times(rs: seq<RunnableRecord>): (s: seq<nat>)
    ensures |s| == |rs|
  {
    seq(|rs|, m requires 0 <= m < |rs| => rs[m].executionTime)
  }

  /** The execution time is the sum `addTask` stores when the task joins its core; the deadline is
      the period from construction on. */
  class TaskRecord {
    const period: Period
    const preemptive: bool
    const runnables: seq<RunnableRecord>
    const executionTime: nat := Sum(Times(runnables))
    const deadline: Period := period
    var responseTime: int

    constructor (period: Period, preemptive: bool, runnables: seq<RunnableRecord>)
      ensures this.period == period && this.preemptive == preemptive && this.runnables == runnables
      ensures responseTime == 0
    {
      this.period, this.preemptive, this.runnables := period, preemptive, runnables;
      responseTime := 0;
    }

    function Params(): Task { Task(period, Times(runnables), preemptive) }

  }

  function ParamsOf(tasks: seq<TaskRecord>): (ts: seq<Task>)
    ensures |ts| == |tasks|
    ensures forall i :: 0 <= i < |tasks| ==> ts[i] == tasks[i].Params()
  {
    seq(|tasks|, i requires 0 <= i < |tasks| => tasks[i].Params())
  }

  function Reported(rs: seq<RunnableRecord>): (s: seq<int>)
    reads rs
    ensures |s| == |rs|
  {
    seq(|rs|, m requires 0 <= m < |rs| reads rs => rs[m].responseTime)
  }

  function LastOr(s: seq<int>, default: int): int {
    if s == [] then default else s[|s| - 1]
  }

  class Core {
    const tasks: seq<TaskRecord>

    constructor (tasks: seq<TaskRecord>)
      ensures this.tasks == tasks
    {
      this.tasks := tasks;
    }

    function Params(): seq<Task> { ParamsOf(tasks) }

    function At(n: nat): TaskRecord
      requires n < |tasks|
    {
      tasks[n]
    }

    /** Longest runnable among the tasks below. */
    method Blocking(n: nat) returns (b: nat)
      requires n < |tasks|
      ensures b == ResponseTime.Blocking(Params(), n)
      ensures forall j, m ::
        n < j < |tasks| && 0 <= m < |tasks[j].runnables| ==> tasks[j].runnables[m].executionTime <= b
      ensures b > 0 ==>
        exists j, m :: n < j < |tasks| && 0 <= m < |tasks[j].runnables| && tasks[j].runnables[m].executionTime == b
    {
      b := 0;
      if n != |tasks| - 1 {
        for i := n + 1 to |tasks|
          invariant b == LongestBelow(Params(), n, i)
        {
          ghost var outer := b;
          var rs := tasks[i].runnables;
          for j := 0 to |rs|
            invariant b == Max(outer, Longest(Times(rs)[..j]))
          {
            assert Times(rs)[..j + 1][..j] == Times(rs)[..j];
            var aux := rs[j].executionTime;
            b := if aux > b then aux else b;
          }
          assert Times(rs)[..|rs|] == Times(rs);
        }
      }
      LongestRunnable(n, b);
    }

    lemma LongestRunnable(n: nat, b: nat)
      requires n < |tasks| && b == ResponseTime.Blocking(Params(), n)
      ensures forall j, m ::
        n < j < |tasks| && 0 <= m < |tasks[j].runnables| ==> tasks[j].runnables[m].executionTime <= b
      ensures b > 0 ==>
        exists j, m :: n < j < |tasks| && 0 <= m < |tasks[j].runnables| && tasks[j].runnables[m].executionTime == b
    {
      var ts := Params();
      BlockingIs(ts, n);
      forall j, m | n < j < |tasks| && 0 <= m < |tasks[j].runnables| ensures tasks[j].runnables[m].executionTime <= b {
        assert ts[j].runs[m] in ts[j].runs;
        assert RunnableBelow(ts, n, |ts|, ts[j].runs[m]);
      }
      if b > 0 {
        var j :| n < j < |ts| && b in ts[j].runs;
        var m :| 0 <= m < |ts[j].runs| && ts[j].runs[m] == b;
        assert tasks[j].runnables[m].executionTime == b;
      }
    }

    /** One pass of the loop of `busy_period`. */
    method BusyPass(n: nat, init: int, length: int) returns (K: int)
      requires n < |tasks|
      ensures K == init + BusyDemand(Params(), n + 1, tasks[n].period, length)
    {
      K := init;
      for i := 0 to n + 1
        invariant K == init + BusyDemand(Params(), i, tasks[n].period, length)
      {
        K := K + tasks[i].executionTime * CeilDiv(length, tasks[n].period);
      }
    }

    method BusyPeriod(n: nat) returns (K: int)
      requires n < |tasks| && BusyConverges(Params(), n)
      ensures K == BusyTicks(Params(), n)
    {
      ghost var ts := Params();
      ghost var F, x0 := BusyEq(ts, n), ResponseTime.Blocking(ts, n) + ts[n].Cost();
      ghost var goal := BusyTicks(ts, n);
      BusyEqClimbs(ts, n);
      var init := Blocking(n);
      K := init + tasks[n].executionTime;
      while true
        invariant x0 <= K <= F(K) && K <= goal
        decreases goal - K
      {
        var length := K;
        K := BusyPass(n, init, length);
        assert K == F(length) && F(length) <= F(goal);
        if K <= length { break; }
      }
    }

    /** K of the callers: the busy period in jobs. */
    method JobCount(n: nat) returns (K: nat)
      requires n < |tasks| && BusyConverges(Params(), n)
      ensures K == Jobs(Params(), n)
      ensures (K - 1) * tasks[n].period < BusyTicks(Params(), n) <= K * tasks[n].period
    {
      var busy := BusyPeriod(n);
      CeilDivPositive(busy, tasks[n].period);
      CeilDivBounds(busy, tasks[n].period);
      K := CeilDiv(busy, tasks[n].period);
    }

    /** One pass of the loop of `job_start`. */
    method StartPass(n: nat, init: int, start: int) returns (startNew: int)
      requires n < |tasks|
      ensures startNew == init + StartDemand(Params(), n, start)
    {
      startNew := init;
      for i := 0 to n
        invariant startNew == init + StartDemand(Params(), i, start)
      {
        startNew := startNew + (start / tasks[i].period + 1) * tasks[i].executionTime;
      }
    }

    method JobStart(n: nat, k: nat, accum: nat, job: nat) returns (startNew: int)
      requires n < |tasks| && k >= 1 && job < |tasks[n].runnables|
      requires accum == Own(Params(), n, job) && Underloaded(Params(), n)
      ensures startNew == StartTicks(Params(), n, Before(Params(), n, k, job))
    {
      ghost var ts := Params();
      ghost var x0 := Before(ts, n, k, job);
      ghost var F, goal := StartEq(ts, n, x0), StartTicks(ts, n, x0);
      StartEqClimbs(ts, n, x0);
      SumPrefix(ts[n].runs, job);
      var b := Blocking(n);
      var init := b + (k - 1) * tasks[n].executionTime + (accum - tasks[n].runnables[job].executionTime);
      assert init == x0;
      startNew := init;
      while true
        invariant x0 <= startNew <= F(startNew) && startNew <= goal
        decreases goal - startNew
      {
        var start := startNew;
        startNew := StartPass(n, init, start);
        assert startNew == F(start) && F(start) <= F(goal);
        if startNew <= start { break; }
      }
    }

    /** One pass of the loop of `job_finish`. */
    method FinishPass(n: nat, init: int, start: int, finish: int) returns (finishNew: int)
      requires n < |tasks|
      ensures finishNew == init + FinishDemand(Params(), n, start, finish)
    {
      finishNew := init;
      for i := 0 to n
        invariant finishNew == init + FinishDemand(Params(), i, start, finish)
      {
        if tasks[i].preemptive {
          finishNew := finishNew
            + (CeilDiv(finish, tasks[i].period) - (start / tasks[i].period + 1)) * tasks[i].executionTime;
        }
      }
    }

    method JobFinish(n: nat, k: nat, accum: nat, job: nat) returns (finishNew: int)
      requires n < |tasks| && k >= 1 && job < |tasks[n].runnables|
      requires accum == Own(Params(), n, job) && Underloaded(Params(), n)
      ensures finishNew == Completion(Params(), n, k, job)
    {
      var start := JobStart(n, k, accum, job);
      var last := tasks[n].runnables[job].executionTime;
      ghost var before := Before(Params(), n, k, job);
      ghost var goal := FinishTicks(Params(), n, before, last);
      FinishIsReady(Params(), n, before, last, start, goal);
      finishNew := FinishLoop(n, start, last, goal);
    }

    /** The do-while loop of `job_finish`. */
    method FinishLoop(n: nat, start: int, last: nat, ghost goal: int) returns (finishNew: int)
      requires n < |tasks|
      requires FinishReady(Params(), n, start, last, goal)
      ensures finishNew == goal
    {
      var init := start + last;
      ghost var F := FinishEq(Params(), n, start, init);
      finishNew := init;
      while true
        invariant last > 0 ==> init <= finishNew <= F(finishNew) && finishNew <= goal
        invariant last == 0 ==> finishNew == init
        decreases goal - finishNew
      {
        var finish := finishNew;
        finishNew := FinishPass(n, init, start, finish);
        assert finishNew == F(finish);
        if finishNew <= finish { break; }
      }
    }

    method JobFinishDM(n: nat, k: nat, accum: nat, job: nat) returns (finishNew: int)
      requires n < |tasks| && k >= 1 && job < |tasks[n].runnables|
      requires accum == Own(Params(), n, job) && Underloaded(Params(), n)
      ensures finishNew == CompletionDM(Params(), n, k, job)
    {
      ghost var ts := Params();
      var init := (k - 1) * tasks[n].executionTime + accum;
      finishNew := SolveResponse(n, init);
    }

    /** The do-while loop shared by `responseTimePreemptiveTask` and `job_finishDM`. */
    method SolveResponse(n: nat, own: nat) returns (x: int)
      requires n < |tasks| && (own == 0 || Underloaded(Params(), n))
      ensures x == ResponseTicks(Params(), n, own)
    {
      ghost var ts := Params();
      ghost var F, goal := ResponseEq(ts, n, own), ResponseTicks(ts, n, own);
      ResponseEqClimbs(ts, n, own);
      x := own;
      while true
        invariant own <= x <= F(x) && x <= goal
        decreases goal - x
      {
        var prev := x;
        x := own;
        for j := 0 to n
          invariant x == own + Demand(ts, j, prev)
        {
          x := x + CeilDiv(prev, tasks[j].period) * tasks[j].executionTime;
        }
        assert x == F(prev) && F(prev) <= F(goal);
        if x <= prev { break; }
      }
    }

    /** The loop over the jobs of one runnable. */
    method WorstJobDM(n: nat, K: nat, accum: nat, job: nat) returns (response: int)
      requires n < |tasks| && job < |tasks[n].runnables|
      requires accum == Own(Params(), n, job) && Underloaded(Params(), n)
      ensures response == WorstDM(Params(), n, job, K)
    {
      response := 0;
      ghost var all := LatenessesDM(Params(), n, job, K);
      for k := 1 to K + 1
        invariant response == Largest(all[..k - 1])
      {
        var f := JobFinishDM(n, k, accum, job);
        var jobR := f - Release(tasks[n].period, k);
        assert jobR == all[k - 1];
        response := if response > jobR then response else jobR;
        LargestStep(all, k - 1);
      }
      assert all[..K] == all;
    }

    /** The first i runnables of task n hold what they are to hold. */
    ghost predicate Stored(n: nat, goal: seq<int>, i: nat)
      requires n < |tasks|
      reads tasks[n].runnables
    {
      i <= |tasks[n].runnables| == |goal| && forall m :: 0 <= m < i ==> tasks[n].runnables[m].responseTime == goal[m]
    }

    lemma StoredAll(n: nat, goal: seq<int>)
      requires n < |tasks| && Stored(n, goal, |tasks[n].runnables|)
      ensures Reported(tasks[n].runnables) == goal
    {
    }

    method Store(n: nat, i: nat, r: int, ghost goal: seq<int>)
      requires n < |tasks| && i < |tasks[n].runnables| && Unshared(tasks[n].runnables)
      requires Stored(n, goal, i) && r == goal[i]
      modifies At(n)`responseTime, tasks[n].runnables
      ensures Stored(n, goal, i + 1) && tasks[n].responseTime == r
    {
      tasks[n].runnables[i].responseTime := r;
      tasks[n].responseTime := r;
    }

    ghost predicate IsParams(ts: seq<Task>) { ts == Params() }

    /** Ticks of the first i runnables of task n. */
    ghost function UpToRunnable(n: nat, i: nat): nat
      requires n < |tasks| && i <= |tasks[n].runnables|
    {
      if i == 0 then 0 else UpToRunnable(n, i - 1) + tasks[n].runnables[i - 1].executionTime
    }

    lemma {:induction false} UpToRunnableIs(n: nat, i: nat)
      requires n < |tasks| && i <= |tasks[n].runnables|
      ensures UpToRunnable(n, i) == Sum(Params()[n].runs[..i])
    {
      if i > 0 {
        UpToRunnableIs(n, i - 1);
        SumPrefix(Params()[n].runs, i - 1);
      }
    }

    /** `goal` is what the loop is to store. */
    ghost predicate MissGoal(n: nat, goal: seq<int>) {
      forall ts: seq<Task> :: IsParams(ts) && n < |ts| ==> Analysable(ts, n) && goal == MissResponses(ts, n)
    }

    method MissResponse(n: nat, i: nat, before: nat) returns (accum: nat, r: int)
      requires n < |tasks| && i < |tasks[n].runnables| && before == UpToRunnable(n, i)
      requires Analysable(Params(), n)
      ensures accum == UpToRunnable(n, i + 1)
      ensures r == MissResponses(Params(), n)[i]
    {
      UpToRunnableIs(n, i + 1);
      accum := before + tasks[n].runnables[i].executionTime;
      var K := JobCount(n);
      r := WorstJobDM(n, K, accum, i);
    }

    method NextMiss(n: nat, i: nat, before: nat, ghost goal: seq<int>) returns (accum: nat, r: int)
      requires n < |tasks| && i < |tasks[n].runnables| && before == UpToRunnable(n, i)
      requires MissGoal(n, goal) && |goal| == |tasks[n].runnables|
      ensures accum == UpToRunnable(n, i + 1)
      ensures r == goal[i]
    {
      assert IsParams(Params());
      accum, r := MissResponse(n, i, before);
    }

    /** `goal` is what the loop is to store. */
    ghost predicate CooperativeGoal(n: nat, goal: seq<int>) {
      forall ts: seq<Task> :: IsParams(ts) && n < |ts| ==> Analysable(ts, n) && goal == CooperativeResponses(ts, n)
    }

    method CooperativeResponse(n: nat, i: nat, before: nat) returns (accum: nat, r: int)
      requires n < |tasks| && i < |tasks[n].runnables| && before == UpToRunnable(n, i)
      requires Analysable(Params(), n)
      ensures accum == UpToRunnable(n, i + 1)
      ensures r == CooperativeResponses(Params(), n)[i]
    {
      UpToRunnableIs(n, i + 1);
      accum := before + tasks[n].runnables[i].executionTime;
      var K := JobCount(n);
      r := WorstJob(n, K, accum, i);
    }

    method NextCooperative(n: nat, i: nat, before: nat, ghost goal: seq<int>) returns (accum: nat, r: int)
      requires n < |tasks| && i < |tasks[n].runnables| && before == UpToRunnable(n, i)
      requires CooperativeGoal(n, goal) && |goal| == |tasks[n].runnables|
      ensures accum == UpToRunnable(n, i + 1)
      ensures r == goal[i]
    {
      assert IsParams(Params());
      accum, r := CooperativeResponse(n, i, before);
    }

    /** `goal` is what the loop is to store. */
    ghost predicate PreemptiveGoal(n: nat, goal: seq<int>) {
      forall ts: seq<Task> :: IsParams(ts) && n < |ts| ==> Solvable(ts, n) && goal == PreemptiveResponses(ts, n)
    }

    method PreemptiveResponse(n: nat, i: nat, before: nat) returns (accum: nat, r: int)
      requires n < |tasks| && i < |tasks[n].runnables| && before == UpToRunnable(n, i)
      requires Solvable(Params(), n)
      ensures accum == UpToRunnable(n, i + 1)
      ensures r == PreemptiveResponses(Params(), n)[i]
    {
      UpToRunnableIs(n, i + 1);
      accum := before + tasks[n].runnables[i].executionTime;
      SumMonotone(Params()[n].runs, i + 1);
      r := SolveResponse(n, accum);
    }

    method NextPreemptive(n: nat, i: nat, before: nat, ghost goal: seq<int>) returns (accum: nat, r: int)
      requires n < |tasks| && i < |tasks[n].runnables| && before == UpToRunnable(n, i)
      requires PreemptiveGoal(n, goal) && |goal| == |tasks[n].runnables|
      ensures accum == UpToRunnable(n, i + 1)
      ensures r == goal[i]
    {
      assert IsParams(Params());
      accum, r := PreemptiveResponse(n, i, before);
    }

    /** The loop over the runnables. */
    method FillMiss(n: nat, ghost goal: seq<int>)
      requires n < |tasks| && Unshared(tasks[n].runnables) && MissGoal(n, goal) && |goal| == |tasks[n].runnables|
      modifies At(n)`responseTime, tasks[n].runnables
      ensures Reported(tasks[n].runnables) == goal
      ensures tasks[n].responseTime == LastOr(goal, old(tasks[n].responseTime))
    {
      var accum: nat, response := 0, tasks[n].responseTime;
      for i := 0 to |tasks[n].runnables|
        invariant accum == UpToRunnable(n, i) && Stored(n, goal, i)
        invariant tasks[n].responseTime == response == if i == 0 then old(tasks[n].responseTime) else goal[i - 1]
      {
        accum, response := NextMiss(n, i, accum, goal);
        Store(n, i, response, goal);
      }
      StoredAll(n, goal);
    }

    /** Overwrites the responses of task n with the largest of its first jobs. */
    method RTADeadlineMiss(n: nat)
      requires n < |tasks| && Analysable(Params(), n) && Unshared(tasks[n].runnables)
      modifies At(n)`responseTime, tasks[n].runnables
      ensures Reported(tasks[n].runnables) == MissResponses(Params(), n)
      ensures tasks[n].responseTime == LastOr(Reported(tasks[n].runnables), old(tasks[n].responseTime))
    {
      FillMiss(n, MissResponses(Params(), n));
    }

    /** The loop over the jobs of one runnable. */
    method WorstJob(n: nat, K: nat, accum: nat, job: nat) returns (response: int)
      requires n < |tasks| && job < |tasks[n].runnables|
      requires accum == Own(Params(), n, job) && Underloaded(Params(), n)
      ensures response == WorstCooperative(Params(), n, job, K)
    {
      response := 0;
      ghost var all := Latenesses(Params(), n, job, K);
      for k := 1 to K + 1
        invariant response == Largest(all[..k - 1])
      {
        var f := JobFinish(n, k, accum, job);
        var jobR := f - Release(tasks[n].period, k);
        assert jobR == all[k - 1];
        response := if response > jobR then response else jobR;
        LargestStep(all, k - 1);
      }
      assert all[..K] == all;
    }

    /** The loop over the runnables. */
    method FillCooperative(n: nat, ghost goal: seq<int>)
      requires n < |tasks| && Unshared(tasks[n].runnables) && CooperativeGoal(n, goal) && |goal| == |tasks[n].runnables|
      modifies At(n)`responseTime, tasks[n].runnables
      ensures Reported(tasks[n].runnables) == goal
      ensures tasks[n].responseTime == LastOr(goal, old(tasks[n].responseTime))
    {
      var accum: nat, response := 0, tasks[n].responseTime;
      for i := 0 to |tasks[n].runnables|
        invariant accum == UpToRunnable(n, i) && Stored(n, goal, i)
        invariant tasks[n].responseTime == response == if i == 0 then old(tasks[n].responseTime) else goal[i - 1]
      {
        accum, response := NextCooperative(n, i, accum, goal);
        Store(n, i, response, goal);
      }
      StoredAll(n, goal);
    }

    method ResponseTimeCooperativeTask(n: nat)
      requires n < |tasks| && Analysable(Params(), n) && Unshared(tasks[n].runnables)
      modifies At(n)`responseTime, tasks[n].runnables
      ensures Reported(tasks[n].runnables) == CooperativeResponses(Params(), n)
      ensures tasks[n].responseTime == LastOr(Reported(tasks[n].runnables), old(tasks[n].responseTime))
    {
      FillCooperative(n, CooperativeResponses(Params(), n));
    }

    /** The loop over the runnables. */
    method FillPreemptive(n: nat, ghost goal: seq<int>)
      requires n < |tasks| && Unshared(tasks[n].runnables) && PreemptiveGoal(n, goal) && |goal| == |tasks[n].runnables|
      modifies At(n)`responseTime, tasks[n].runnables
      ensures Reported(tasks[n].runnables) == goal
      ensures tasks[n].responseTime == LastOr(goal, old(tasks[n].responseTime))
    {
      var accum: nat, response := 0, tasks[n].responseTime;
      for i := 0 to |tasks[n].runnables|
        invariant accum == UpToRunnable(n, i) && Stored(n, goal, i)
        invariant tasks[n].responseTime == response == if i == 0 then old(tasks[n].responseTime) else goal[i - 1]
      {
        accum, response := NextPreemptive(n, i, accum, goal);
        Store(n, i, response, goal);
      }
      StoredAll(n, goal);
    }

    /** The loop over the runnables of `responseTimePreemptiveTask`. */
    method FirstResponses(n: nat)
      requires n < |tasks| && Solvable(Params(), n) && Unshared(tasks[n].runnables)
      modifies At(n)`responseTime, tasks[n].runnables
      ensures Reported(tasks[n].runnables) == PreemptiveResponses(Params(), n)
      ensures tasks[n].responseTime == LastOr(PreemptiveResponses(Params(), n), old(tasks[n].responseTime))
    {
      FillPreemptive(n, PreemptiveResponses(Params(), n));
    }

    /** The responses of all tasks. */
    ghost function Responses(): (s: seq<int>)
      reads tasks
      ensures |s| == |tasks| && forall j :: 0 <= j < |tasks| ==> s[j] == tasks[j].responseTime
    {
      seq(|tasks|, j requires 0 <= j < |tasks| reads tasks => tasks[j].responseTime)
    }

    /** Some of these responses is beyond its period. */
    ghost predicate SomeLate(rs: seq<int>)
      requires |rs| == |tasks|
    {
      exists j :: 0 <= j < |tasks| && rs[j] > tasks[j].period
    }

    /** The loop over the tasks. */
    method RecomputeIfLate(n: nat, ghost rs: seq<int>)
      requires n < |tasks| && Unshared(tasks[n].runnables) && rs == Responses()
      requires SomeLate(rs) ==> Analysable(Params(), n)
      modifies At(n)`responseTime, tasks[n].runnables
      ensures SomeLate(rs) ==> Reported(tasks[n].runnables) == MissResponses(Params(), n)
      ensures !SomeLate(rs) ==> Reported(tasks[n].runnables) == old(Reported(tasks[n].runnables))
      ensures tasks[n].responseTime
              == if SomeLate(rs) then LastOr(Reported(tasks[n].runnables), rs[n]) else rs[n]
    {
      ghost var found := false;
      for j := 0 to |tasks|
        invariant found ==> SomeLate(rs) && Reported(tasks[n].runnables) == MissResponses(Params(), n)
        invariant found ==> tasks[n].responseTime == LastOr(Reported(tasks[n].runnables), rs[n])
        invariant !found ==> Reported(tasks[n].runnables) == old(Reported(tasks[n].runnables)) && Responses() == rs
        invariant !found ==> forall i :: 0 <= i < j ==> rs[i] <= tasks[i].period
      {
        if tasks[j].responseTime > tasks[j].deadline {
          assert !found ==> SomeLate(rs);
          RTADeadlineMiss(n);
          found := true;
        }
      }
    }

    /** The deadline check of `responseTimePreemptiveTask`: any response beyond its period, of any
        task, recomputes task n. */
    method CheckDeadlines(n: nat)
      requires n < |tasks| && Unshared(tasks[n].runnables)
      requires SomeLate(Responses()) ==> Analysable(Params(), n)
      modifies At(n)`responseTime, tasks[n].runnables
      ensures (exists j :: 0 <= j < |tasks| && old(Responses())[j] > tasks[j].period) ==>
                && Reported(tasks[n].runnables) == MissResponses(Params(), n)
                && tasks[n].responseTime == LastOr(Reported(tasks[n].runnables), old(tasks[n].responseTime))
      ensures (forall j :: 0 <= j < |tasks| ==> old(Responses())[j] <= tasks[j].period) ==>
                && Reported(tasks[n].runnables) == old(Reported(tasks[n].runnables))
                && tasks[n].responseTime == old(tasks[n].responseTime)
    {
      RecomputeIfLate(n, Responses());
    }

    /** The responses once task n, wherever it is listed, has response r. */
    ghost function WithResponse(rs: seq<int>, n: nat, r: int): (s: seq<int>)
      requires |rs| == |tasks| && n < |tasks|
      ensures |s| == |tasks|
    {
      seq(|tasks|, j requires 0 <= j < |tasks| => if tasks[j] == tasks[n] then r else rs[j])
    }

    method ResponseTimePreemptiveTask(n: nat)
      requires n < |tasks| && Solvable(Params(), n) && Unshared(tasks[n].runnables)
      requires var r := LastOr(PreemptiveResponses(Params(), n), tasks[n].responseTime);
               SomeLate(WithResponse(Responses(), n, r)) ==> Analysable(Params(), n)
      modifies At(n)`responseTime, tasks[n].runnables
      ensures (exists j :: 0 <= j < |tasks| && tasks[j] != tasks[n] && old(Responses())[j] > tasks[j].period)
              || LastOr(PreemptiveResponses(Params(), n), old(tasks[n].responseTime)) > tasks[n].period ==>
                Reported(tasks[n].runnables) == MissResponses(Params(), n)
      ensures (forall j :: 0 <= j < |tasks| && tasks[j] != tasks[n] ==> old(Responses())[j] <= tasks[j].period)
              && LastOr(PreemptiveResponses(Params(), n), old(tasks[n].responseTime)) <= tasks[n].period ==>
                Reported(tasks[n].runnables) == PreemptiveResponses(Params(), n)
      ensures tasks[n].responseTime == LastOr(Reported(tasks[n].runnables), old(tasks[n].responseTime))
    {
      ghost var rs, r := Responses(), LastOr(PreemptiveResponses(Params(), n), tasks[n].responseTime);
      FirstResponses(n);
      assert Responses() == WithResponse(rs, n, r);
      LateIff(rs, n, r);
      RecomputeIfLate(n, Responses());
    }

    lemma LateIff(rs: seq<int>, n: nat, r: int)
      requires |rs| == |tasks| && n < |tasks|
      ensures SomeLate(WithResponse(rs, n, r))
              <==> r > tasks[n].period
                   || exists j :: 0 <= j < |tasks| && tasks[j] != tasks[n] && rs[j] > tasks[j].period
    {
      var s := WithResponse(rs, n, r);
      if r > tasks[n].period {
        assert s[n] > tasks[n].period;
      }
      if j :| 0 <= j < |tasks| && tasks[j] != tasks[n] && rs[j] > tasks[j].period {
        assert s[j] > tasks[j].period;
      }
    }
  }

  ghost predicate Unshared(rs: seq<RunnableRecord>) {
    forall i, j :: 0 <= i < j < |rs| ==> rs[i] != rs[j]
  }

  lemma {:induction false} FinishStep(ts: seq<Task>, n: nat, s: int)
    requires n <= |ts|
    ensures FinishDemand(ts, n, s, s) <= 0
  {
    if n > 0 {
      FinishStep(ts, n - 1, s);
      var c, t := ts[n - 1].Cost(), ts[n - 1].period;
      CeilVersusFloor(s, t);
      MulLe(CeilDiv(s, t) - (s / t + 1), 0, c);
    }
  }

  /** What the loop of `job_finish` needs to reach `goal`. */
  ghost predicate FinishReady(ts: seq<Task>, n: nat, start: int, last: nat, goal: int)
    requires n <= |ts|
  {
    var F, init := FinishEq(ts, n, start, start + last), start + last;
    && Monotone(F)
    && if last > 0 then init <= F(init) && LeastFrom(F, init, goal) else goal == F(init) <= init
  }

  lemma FinishIsReady(ts: seq<Task>, n: nat, before: nat, last: nat, start: int, goal: int)
    requires n <= |ts| && Underloaded(ts, n)
    requires start == StartTicks(ts, n, before) && goal == FinishTicks(ts, n, before, last)
    ensures FinishReady(ts, n, start, last, goal)
  {
    FinishEqClimbs(ts, n, start, start + last);
    FinishStep(ts, n, start);
  }
}
