/** The recurrences of Core.java on values: what each do-while loop iterates, that the
    recurrences are monotone, and exactly when they have a solution.

    Time is counted in ticks of one instruction (5 ns), so every execution time is a whole
    number.  Task 0 has the highest priority. */
module ResponseTime {
  import opened Arithmetic
  import opened FixedPoint

  type Period = Positive

  /** A task: its period, the execution times of its runnables in order, and whether the
      tasks below it see it as preemptive. */
  datatype Task = Task(period: Period, runs: seq<nat>, preemptive: bool) {
    function Cost(): nat { Sum(runs) }
  }

  function Sum(s: seq<nat>): nat {
    if s == [] then 0 else Sum(s[..|s| - 1]) + s[|s| - 1]
  }

  // ----- the right-hand sides -----

  /** Work that tasks 0..n release in [0, x) when all start together. */
  function Demand(ts: seq<Task>, n: nat, x: int): int
    requires n <= |ts|
  {
    if n == 0 then 0 else Demand(ts, n - 1, x) + CeilDiv(x, ts[n - 1].period) * ts[n - 1].Cost()
  }

  /** Work that tasks 0..n release in [0, x]. */
  function StartDemand(ts: seq<Task>, n: nat, x: int): int
    requires n <= |ts|
  {
    if n == 0 then 0 else StartDemand(ts, n - 1, x) + (x / ts[n - 1].period + 1) * ts[n - 1].Cost()
  }

  /** Work that the preemptive ones among tasks 0..n release in (s, x). */
  function FinishDemand(ts: seq<Task>, n: nat, s: int, x: int): int
    requires n <= |ts|
  {
    if n == 0 then 0
    else
      FinishDemand(ts, n - 1, s, x)
      + if ts[n - 1].preemptive
        then (CeilDiv(x, ts[n - 1].period) - (s / ts[n - 1].period + 1)) * ts[n - 1].Cost()
        else 0
  }

  /** The sum of `busy_period`: every task is counted with the one period `t`. */
  function BusyDemand(ts: seq<Task>, n: nat, t: Period, x: int): int
    requires n <= |ts|
  {
    if n == 0 then 0 else BusyDemand(ts, n - 1, t, x) + ts[n - 1].Cost() * CeilDiv(x, t)
  }

  function TotalCost(ts: seq<Task>, n: nat): nat
    requires n <= |ts|
  {
    if n == 0 then 0 else TotalCost(ts, n - 1) + ts[n - 1].Cost()
  }

  /** Longest runnable among tasks i+1, i+2, ... */
  function Longest(s: seq<nat>): nat {
    if s == [] then 0 else Max(Longest(s[..|s| - 1]), s[|s| - 1])
  }

  function LongestBelow(ts: seq<Task>, i: nat, n: nat): nat
    requires i < |ts| && i + 1 <= n <= |ts|
  {
    if n == i + 1 then 0 else Max(LongestBelow(ts, i, n - 1), Longest(ts[n - 1].runs))
  }

  function Blocking(ts: seq<Task>, i: nat): nat
    requires i < |ts|
  {
    LongestBelow(ts, i, |ts|)
  }

  function Max(a: int, b: int): int { if a < b then b else a }

  lemma {:induction false} LongestIs(s: seq<nat>)
    ensures forall m :: 0 <= m < |s| ==> s[m] <= Longest(s)
    ensures Longest(s) == 0 || Longest(s) in s
  {
    if s != [] {
      LongestIs(s[..|s| - 1]);
    }
  }

  /** A runnable of one of the tasks after i and before n takes x ticks. */
  ghost predicate RunnableBelow(ts: seq<Task>, i: nat, n: nat, x: nat)
    requires n <= |ts|
  {
    exists j :: i < j < n && x in ts[j].runs
  }

  lemma {:induction false} LongestBelowIs(ts: seq<Task>, i: nat, n: nat)
    requires i < |ts| && i + 1 <= n <= |ts|
    ensures forall x: nat :: RunnableBelow(ts, i, n, x) ==> x <= LongestBelow(ts, i, n)
    ensures LongestBelow(ts, i, n) == 0 || RunnableBelow(ts, i, n, LongestBelow(ts, i, n))
  {
    if n > i + 1 {
      LongestBelowIs(ts, i, n - 1);
      LongestIs(ts[n - 1].runs);
      forall x: nat | RunnableBelow(ts, i, n, x) ensures x <= LongestBelow(ts, i, n) {
        assert RunnableBelow(ts, i, n - 1, x) || x in ts[n - 1].runs;
      }
      var r := LongestBelow(ts, i, n);
      if r != LongestBelow(ts, i, n - 1) && r != 0 {
        assert r in ts[n - 1].runs;
      }
    }
  }

  /** The blocking is the length of some runnable below, or 0, and no runnable below is longer. */
  lemma BlockingIs(ts: seq<Task>, i: nat)
    requires i < |ts|
    ensures forall x: nat :: RunnableBelow(ts, i, |ts|, x) ==> x <= Blocking(ts, i)
    ensures Blocking(ts, i) == 0 || RunnableBelow(ts, i, |ts|, Blocking(ts, i))
  {
    LongestBelowIs(ts, i, |ts|);
  }

  // ----- the recurrences -----

  function ResponseEq(ts: seq<Task>, i: nat, own: int): int -> int
    requires i <= |ts|
  {
    x => own + Demand(ts, i, x)
  }

  function StartEq(ts: seq<Task>, i: nat, init: int): int -> int
    requires i <= |ts|
  {
    x => init + StartDemand(ts, i, x)
  }

  function FinishEq(ts: seq<Task>, i: nat, start: int, init: int): int -> int
    requires i <= |ts|
  {
    x => init + FinishDemand(ts, i, start, x)
  }

  function BusyEq(ts: seq<Task>, i: nat): int -> int
    requires i < |ts|
  {
    x => Blocking(ts, i) + BusyDemand(ts, i + 1, ts[i].period, x)
  }

  // ----- division facts -----

  lemma DivBounds(a: int, b: Period)
    ensures (a / b) * b <= a < (a / b + 1) * b
  {
    assert a == (a / b) * b + a % b;
    assert (a / b + 1) * b == (a / b) * b + b;
  }

  lemma DivMonotone(a: int, b: int, c: Period)
    requires a <= b
    ensures a / c <= b / c
  {
    DivBounds(a, c);
    DivBounds(b, c);
    MulCancel(a / c, b / c + 1, c);
  }

  lemma CeilDivMonotone(a: int, b: int, c: Period)
    requires a <= b
    ensures CeilDiv(a, c) <= CeilDiv(b, c)
  {
    DivMonotone(a + c - 1, b + c - 1, c);
  }

  /** For whole ticks, "released in [0, x]" and "released in [0, x + 1)" are the same. */
  lemma FloorIsCeil(x: int, c: Period)
    ensures x / c + 1 == CeilDiv(x + 1, c)
  {
    assert x + c == c + x;
    assert (x + c) / c == x / c + 1 by {
      DivBounds(x, c);
      DivBounds(x + c, c);
      assert (x / c + 1) * c == (x / c) * c + c;
      assert (x / c + 2) * c == (x / c + 1) * c + c;
      MulCancel((x + c) / c, x / c + 2, c);
      MulCancel(x / c + 1, (x + c) / c + 1, c);
    }
  }

  lemma CeilDivPositive(a: int, b: Period)
    ensures a > 0 ==> CeilDiv(a, b) >= 1
    ensures a == 0 ==> CeilDiv(a, b) == 0
  {
    CeilDivBounds(a, b);
    if a > 0 && CeilDiv(a, b) <= 0 {
      MulLe(CeilDiv(a, b), 0, b);
    }
    if a == 0 {
      assert CeilDiv(0, b) * b >= 0 && (CeilDiv(0, b) - 1) * b < 0;
      MulCancel(CeilDiv(0, b) - 1, 0, b);
      if CeilDiv(0, b) < 0 { MulLe(CeilDiv(0, b), -1, b); }
    }
  }

  // ----- monotonicity -----

  lemma {:induction false} DemandMonotone(ts: seq<Task>, n: nat, x: int, y: int)
    requires n <= |ts| && x <= y
    ensures Demand(ts, n, x) <= Demand(ts, n, y)
  {
    if n > 0 {
      DemandMonotone(ts, n - 1, x, y);
      CeilDivMonotone(x, y, ts[n - 1].period);
      MulLe(CeilDiv(x, ts[n - 1].period), CeilDiv(y, ts[n - 1].period), ts[n - 1].Cost());
    }
  }

  lemma {:induction false} StartDemandIsDemand(ts: seq<Task>, n: nat, x: int)
    requires n <= |ts|
    ensures StartDemand(ts, n, x) == Demand(ts, n, x + 1)
  {
    if n > 0 {
      StartDemandIsDemand(ts, n - 1, x);
      FloorIsCeil(x, ts[n - 1].period);
    }
  }

  lemma {:induction false} FinishDemandMonotone(ts: seq<Task>, n: nat, s: int, x: int, y: int)
    requires n <= |ts| && x <= y
    ensures FinishDemand(ts, n, s, x) <= FinishDemand(ts, n, s, y)
  {
    if n > 0 {
      FinishDemandMonotone(ts, n - 1, s, x, y);
      var t := ts[n - 1];
      CeilDivMonotone(x, y, t.period);
      MulLe(CeilDiv(x, t.period) - (s / t.period + 1), CeilDiv(y, t.period) - (s / t.period + 1), t.Cost());
    }
  }

  /** Nothing is released in an empty or one-point window past the start. */
  lemma {:induction false} FinishDemandNonNegative(ts: seq<Task>, n: nat, s: int, x: int)
    requires n <= |ts| && s < x
    ensures FinishDemand(ts, n, s, x) >= 0
  {
    if n > 0 {
      FinishDemandNonNegative(ts, n - 1, s, x);
      var t := ts[n - 1];
      FloorIsCeil(s, t.period);
      CeilDivMonotone(s + 1, x, t.period);
      MulLe(0, CeilDiv(x, t.period) - (s / t.period + 1), t.Cost());
    }
  }

  lemma {:induction false} BusyDemandIs(ts: seq<Task>, n: nat, t: Period, x: int)
    requires n <= |ts|
    ensures BusyDemand(ts, n, t, x) == TotalCost(ts, n) * CeilDiv(x, t)
  {
    if n > 0 {
      BusyDemandIs(ts, n - 1, t, x);
      Distribute(TotalCost(ts, n - 1), ts[n - 1].Cost(), CeilDiv(x, t));
    }
  }

  lemma {:induction false} DemandNonNegative(ts: seq<Task>, n: nat, x: int)
    requires n <= |ts| && 0 <= x
    ensures Demand(ts, n, x) >= 0
  {
    if n > 0 {
      DemandNonNegative(ts, n - 1, x);
      CeilDivPositive(x, ts[n - 1].period);
      MulLe(0, CeilDiv(x, ts[n - 1].period), ts[n - 1].Cost());
    }
  }

  lemma {:induction false} DemandZero(ts: seq<Task>, n: nat)
    requires n <= |ts|
    ensures Demand(ts, n, 0) == 0
  {
    if n > 0 {
      DemandZero(ts, n - 1);
      CeilDivPositive(0, ts[n - 1].period);
    }
  }

  lemma ResponseEqClimbs(ts: seq<Task>, i: nat, own: nat)
    requires i <= |ts|
    ensures Monotone(ResponseEq(ts, i, own)) && own <= ResponseEq(ts, i, own)(own)
  {
    forall x, y | x <= y ensures ResponseEq(ts, i, own)(x) <= ResponseEq(ts, i, own)(y) {
      DemandMonotone(ts, i, x, y);
    }
    DemandNonNegative(ts, i, own);
  }

  lemma StartEqClimbs(ts: seq<Task>, i: nat, init: nat)
    requires i <= |ts|
    ensures Monotone(StartEq(ts, i, init)) && init <= StartEq(ts, i, init)(init)
  {
    forall x, y | x <= y ensures StartEq(ts, i, init)(x) <= StartEq(ts, i, init)(y) {
      StartDemandIsDemand(ts, i, x);
      StartDemandIsDemand(ts, i, y);
      DemandMonotone(ts, i, x + 1, y + 1);
    }
    StartDemandIsDemand(ts, i, init);
    DemandNonNegative(ts, i, init + 1);
  }

  lemma FinishEqClimbs(ts: seq<Task>, i: nat, start: nat, init: nat)
    requires i <= |ts|
    ensures Monotone(FinishEq(ts, i, start, init))
    ensures start < init ==> init <= FinishEq(ts, i, start, init)(init)
  {
    forall x, y | x <= y ensures FinishEq(ts, i, start, init)(x) <= FinishEq(ts, i, start, init)(y) {
      FinishDemandMonotone(ts, i, start, x, y);
    }
    if start < init {
      FinishDemandNonNegative(ts, i, start, init);
    }
  }

  lemma {:induction false} TotalCostIncludes(ts: seq<Task>, n: nat, j: nat)
    requires j < n <= |ts|
    ensures ts[j].Cost() <= TotalCost(ts, n)
  {
    if j < n - 1 {
      TotalCostIncludes(ts, n - 1, j);
    }
  }

  lemma BusyEqClimbs(ts: seq<Task>, i: nat)
    requires i < |ts|
    ensures Monotone(BusyEq(ts, i))
    ensures var x0 := Blocking(ts, i) + ts[i].Cost(); x0 <= BusyEq(ts, i)(x0)
  {
    forall x, y | x <= y ensures BusyEq(ts, i)(x) <= BusyEq(ts, i)(y) {
      BusyDemandMonotone(ts, i + 1, ts[i].period, x, y);
    }
    var x0 := Blocking(ts, i) + ts[i].Cost();
    BusyDemandIs(ts, i + 1, ts[i].period, x0);
    CeilDivPositive(x0, ts[i].period);
    TotalCostIncludes(ts, i + 1, i);
    if x0 > 0 {
      MulLe(1, CeilDiv(x0, ts[i].period), TotalCost(ts, i + 1));
    }
  }

  lemma BusyDemandMonotone(ts: seq<Task>, n: nat, t: Period, x: int, y: int)
    requires n <= |ts| && x <= y
    ensures BusyDemand(ts, n, t, x) <= BusyDemand(ts, n, t, y)
  {
    BusyDemandIs(ts, n, t, x);
    BusyDemandIs(ts, n, t, y);
    CeilDivMonotone(x, y, t);
    MulLe(CeilDiv(x, t), CeilDiv(y, t), TotalCost(ts, n));
  }

  // ----- exactly when the loops stop -----

  /** Product of the periods of tasks 0..n: a window every period divides. */
  function Hyper(ts: seq<Task>, n: nat): Period
    requires n <= |ts|
  {
    if n == 0 then 1 else Product(Hyper(ts, n - 1), ts[n - 1].period)
  }

  /** Work that tasks 0..n release in that window. */
  function Load(ts: seq<Task>, n: nat): nat
    requires n <= |ts|
  {
    if n == 0 then 0 else Load(ts, n - 1) * ts[n - 1].period + Hyper(ts, n - 1) * ts[n - 1].Cost()
  }

  /** Utilisation below 1: the sum of cost / period over tasks 0..n, times `Hyper`. */
  predicate Underloaded(ts: seq<Task>, n: nat)
    requires n <= |ts|
  {
    Load(ts, n) < Hyper(ts, n)
  }

  lemma LoadStep(x: int, load: nat, hyper: Period, d: int, total: nat, k: int, t: Period, c: nat)
    requires x * load <= d * hyper <= x * load + total * hyper
    requires (k - 1) * t < x <= k * t
    ensures x * (load * t + hyper * c) <= (d + k * c) * (hyper * t)
  {
    var hc := hyper * c;
    assert x * load * t <= d * hyper * t by { MulLe(x * load, d * hyper, t); }
    assert x * hc <= k * t * hc by { MulLe(x, k * t, hc); }
    calc {
      x * (load * t + hc);
      x * load * t + x * hc;
    <=
      d * hyper * t + k * t * hc;
      d * (hyper * t) + (k * c) * (hyper * t);
      (d + k * c) * (hyper * t);
    }
  }

  lemma LoadStepUpper(x: int, load: nat, hyper: Period, d: int, total: nat, k: int, t: Period, c: nat)
    requires d * hyper <= x * load + total * hyper
    requires (k - 1) * t < x <= k * t
    ensures (d + k * c) * (hyper * t) <= x * (load * t + hyper * c) + (total + c) * (hyper * t)
  {
    var hc := hyper * c;
    MulLe(d * hyper, x * load + total * hyper, t);
    assert (k - 1) * t == k * t - t;
    MulLe(k * t, x + t, hc);
    Regroup(d, hyper, k, c, t);
    Regroup(total, hyper, 1, c, t);
    assert x * (load * t + hc) == x * load * t + x * hc;
    assert (x * load + total * hyper) * t == x * load * t + total * hyper * t;
    assert (x + t) * hc == x * hc + t * hc;
  }

  lemma Regroup(d: int, hyper: int, k: int, c: int, t: int)
    ensures (d + k * c) * (hyper * t) == d * hyper * t + k * t * (hyper * c)
  {
    assert d * (hyper * t) == d * hyper * t;
    assert (k * c) * (hyper * t) == k * t * (hyper * c);
  }

  /** Demand per window, multiplied out: x * utilisation <= Demand <= x * utilisation + total. */
  lemma {:induction false} DemandShare(ts: seq<Task>, n: nat, x: int)
    requires n <= |ts|
    ensures x * Load(ts, n) <= Demand(ts, n, x) * Hyper(ts, n)
    ensures Demand(ts, n, x) * Hyper(ts, n) <= x * Load(ts, n) + TotalCost(ts, n) * Hyper(ts, n)
  {
    if n > 0 {
      var c, t := ts[n - 1].Cost(), ts[n - 1].period;
      DemandShare(ts, n - 1, x);
      CeilDivBounds(x, t);
      LoadStep(x, Load(ts, n - 1), Hyper(ts, n - 1), Demand(ts, n - 1, x), TotalCost(ts, n - 1), CeilDiv(x, t), t, c);
      LoadStepUpper(x, Load(ts, n - 1), Hyper(ts, n - 1), Demand(ts, n - 1, x), TotalCost(ts, n - 1),
                    CeilDiv(x, t), t, c);
    }
  }

  lemma RoomExists(w: nat, load: nat, hyper: Period) returns (x: nat)
    requires load < hyper
    ensures x * load + w * hyper <= x * hyper
  {
    x := w * hyper;
    MulLe(load + 1, hyper, x);
  }

  lemma OverloadGrows(x: nat, load: nat, hyper: Period, d: int)
    requires hyper <= load && x * load <= d * hyper
    ensures x <= d
  {
    MulLe(hyper, load, x);
    if d < x {
      MulLe(d + 1, x, hyper);
    }
  }

  /** Below full utilisation some window is long enough for any amount of work. */
  lemma EnoughRoom(ts: seq<Task>, n: nat, work: nat) returns (x: nat)
    requires n <= |ts| && Underloaded(ts, n)
    ensures work <= x && work + Demand(ts, n, x) <= x
  {
    var w := work + TotalCost(ts, n);
    x := RoomExists(w, Load(ts, n), Hyper(ts, n));
    DemandShare(ts, n, x);
    DemandNonNegative(ts, n, x);
    RoomFits(x, Load(ts, n), Hyper(ts, n), Demand(ts, n, x), work, TotalCost(ts, n));
  }

  lemma RoomFits(x: nat, load: nat, hyper: Period, d: int, work: nat, total: nat)
    requires x * load + (work + total) * hyper <= x * hyper
    requires d * hyper <= x * load + total * hyper
    ensures work + d <= x
  {
    if x < work + d {
      MulLe(x + 1, work + d, hyper);
    }
  }

  /** The loop of `responseTimePreemptiveTask` (and of `job_finishDM`) stops exactly when
      there is no work of its own or the tasks above leave time free. */
  lemma ResponseLoopStops(ts: seq<Task>, i: nat, own: nat)
    requires i <= |ts|
    ensures Exits(ResponseEq(ts, i, own), own) <==> own == 0 || Underloaded(ts, i)
    ensures Bounded(ResponseEq(ts, i, own), own) <==> own == 0 || Underloaded(ts, i)
  {
    var F := ResponseEq(ts, i, own);
    ResponseEqClimbs(ts, i, own);
    ExitsIffBounded(F, own);
    if own == 0 {
      DemandZero(ts, i);
      assert F(0) <= 0;
    } else if Underloaded(ts, i) {
      var x := EnoughRoom(ts, i, own);
      assert F(x) <= x;
    } else if Bounded(F, own) {
      var x :| own <= x && F(x) <= x;
      DemandShare(ts, i, x);
      OverloadGrows(x, Load(ts, i), Hyper(ts, i), Demand(ts, i, x));
      assert false;
    }
  }

  /** The loop of `job_start` stops exactly when the tasks above leave time free. */
  lemma StartLoopStops(ts: seq<Task>, i: nat, init: nat)
    requires i <= |ts|
    ensures Exits(StartEq(ts, i, init), init) <==> Underloaded(ts, i)
    ensures Bounded(StartEq(ts, i, init), init) <==> Underloaded(ts, i)
  {
    var F := StartEq(ts, i, init);
    StartEqClimbs(ts, i, init);
    ExitsIffBounded(F, init);
    if Underloaded(ts, i) {
      var x := EnoughRoom(ts, i, init + 1);
      StartFits(ts, i, init, x - 1, x);
    } else if Bounded(F, init) {
      var x :| init <= x && F(x) <= x;
      StartNeverFits(ts, i, init, x, x + 1);
    }
  }

  lemma StartFits(ts: seq<Task>, i: nat, init: nat, x: nat, y: nat)
    requires i <= |ts| && y == x + 1 && init + 1 <= y && init + 1 + Demand(ts, i, y) <= y
    ensures init <= x && StartEq(ts, i, init)(x) <= x
  {
    StartDemandIsDemand(ts, i, x);
  }

  lemma StartNeverFits(ts: seq<Task>, i: nat, init: nat, x: nat, y: nat)
    requires i <= |ts| && y == x + 1 && init <= x && StartEq(ts, i, init)(x) <= x
    ensures Underloaded(ts, i)
  {
    if !Underloaded(ts, i) {
      StartDemandIsDemand(ts, i, x);
      DemandShare(ts, i, y);
      OverloadGrows(y, Load(ts, i), Hyper(ts, i), Demand(ts, i, y));
    }
  }

  /** The loop of `busy_period` stops exactly when the summed execution times stay below
      the period of the task, or reach it with nothing below to block, or all is zero. */
  predicate BusyConverges(ts: seq<Task>, i: nat)
    requires i < |ts|
  {
    || TotalCost(ts, i + 1) < ts[i].period
    || (TotalCost(ts, i + 1) == ts[i].period && Blocking(ts, i) == 0)
    || Blocking(ts, i) + ts[i].Cost() == 0
  }

  lemma BusyLoopStops(ts: seq<Task>, i: nat)
    requires i < |ts|
    ensures var x0 := Blocking(ts, i) + ts[i].Cost();
            && (Exits(BusyEq(ts, i), x0) <==> BusyConverges(ts, i))
            && (Bounded(BusyEq(ts, i), x0) <==> BusyConverges(ts, i))
  {
    BusyEqClimbs(ts, i);
    ExitsIffBounded(BusyEq(ts, i), Blocking(ts, i) + ts[i].Cost());
    if BusyConverges(ts, i) {
      BusyHasRoom(ts, i);
    } else {
      BusyNeverFits(ts, i);
    }
  }

  lemma BusyHasRoom(ts: seq<Task>, i: nat)
    requires i < |ts| && BusyConverges(ts, i)
    ensures Bounded(BusyEq(ts, i), Blocking(ts, i) + ts[i].Cost())
  {
    var b, t, total := Blocking(ts, i), ts[i].period, TotalCost(ts, i + 1);
    TotalCostIncludes(ts, i + 1, i);
    if b + ts[i].Cost() == 0 {
      BusyDemandIs(ts, i + 1, t, 0);
      CeilDivPositive(0, t);
      assert BusyEq(ts, i)(0) <= 0;
    } else {
      var x := (b + 1) * t;
      BusyDemandIs(ts, i + 1, t, x);
      BusyRoom(b, total, t);
      assert BusyEq(ts, i)(x) <= x;
    }
  }

  lemma BusyNeverFits(ts: seq<Task>, i: nat)
    requires i < |ts| && !BusyConverges(ts, i)
    ensures !Bounded(BusyEq(ts, i), Blocking(ts, i) + ts[i].Cost())
  {
    forall x | Blocking(ts, i) + ts[i].Cost() <= x ensures BusyEq(ts, i)(x) > x {
      BusyDemandIs(ts, i + 1, ts[i].period, x);
      BusyOverrun(Blocking(ts, i), TotalCost(ts, i + 1), ts[i].period, x);
    }
  }

  lemma BusyRoom(b: nat, total: nat, t: Period)
    requires total < t || (total == t && b == 0)
    ensures b + total * CeilDiv((b + 1) * t, t) <= (b + 1) * t
    ensures b + total <= (b + 1) * t
  {
    var k := b + 1;
    CeilDivExact(k, t);
    Distribute(b, 1, total);
    MulLe(0, b, total);
    if total < t {
      MulLe(total, t - 1, k);
      Distribute(t, 1, k);
    }
  }

  lemma BusyOverrun(b: nat, total: nat, t: Period, x: int)
    requires x > 0 && (total > t || (total == t && b > 0))
    ensures b + total * CeilDiv(x, t) > x
  {
    CeilDivBounds(x, t);
    CeilDivPositive(x, t);
    MulLe(t, total, CeilDiv(x, t));
    if total > t {
      MulLe(t + 1, total, CeilDiv(x, t));
    }
  }
}
