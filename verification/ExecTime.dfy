/** ptime.c and tstat.c: timespec arithmetic and the execution-time statistics of a task. */
module ExecTime {
  import opened Arithmetic

  const BILLION := 1000000000

  /** A timespec; its value is a number of nanoseconds. */
  datatype Timespec = Timespec(sec: int, nsec: int) {
    predicate Normal() { 0 <= nsec < BILLION }
    function Ns(): int { sec * BILLION + nsec }
  }

  const ZERO := Timespec(0, 0)

  /** The division of C, towards zero. */
  function Quotient(a: int, b: int): int
    requires b > 0
  {
    if a >= 0 then a / b else -((-a) / b)
  }

  function Remainder(a: int, b: int): int
    requires b > 0
  {
    a - Quotient(a, b) * b
  }

  lemma RemainderSign(a: int, b: int)
    requires b > 0
    ensures a >= 0 ==> 0 <= Remainder(a, b) < b && Quotient(a, b) >= 0
    ensures a <= 0 ==> -b < Remainder(a, b) <= 0 && Quotient(a, b) <= 0
  {
    if a >= 0 {
      assert a == (a / b) * b + a % b;
    } else {
      assert -a == ((-a) / b) * b + (-a) % b;
    }
  }

  /** A quotient is known by its remainder. */
  lemma QuotientIs(a: int, b: int, q: int, r: int)
    requires b > 0 && a == q * b + r && -b < r < b && (q > 0 ==> r >= 0) && (q < 0 ==> r <= 0)
    ensures Quotient(a, b) == q && Remainder(a, b) == r
  {
    AtLeastOnce(q, b);
    if a >= 0 {
      ModUnique(a, b, q, r);
    } else {
      assert (-q) * b == -(q * b);
      ModUnique(-a, b, -q, -r);
    }
  }

  // ----- ptime.c -----

  datatype Unit = Sec | Milli | Micro | Nano {
    /** A row of conv_table. */
    function Mul(): int { match this case Sec => 1 case Milli => 1000 case Micro => 1000000 case Nano => BILLION }
    function Div(): int { match this case Sec => BILLION case Milli => 1000000 case Micro => 1000 case Nano => 1 }
  }

  function TspecTo(t: Timespec, u: Unit): int { t.sec * u.Mul() + Quotient(t.nsec, u.Div()) }

  function TspecFrom(tu: int, u: Unit): Timespec { Timespec(Quotient(tu, u.Mul()), Remainder(tu, u.Mul()) * u.Div()) }

  /** The versions relative to the reference time t0. */
  function TspecToRel(t: Timespec, u: Unit, t0: Timespec): int {
    (t.sec - t0.sec) * u.Mul() + Quotient(t.nsec - t0.nsec, u.Div())
  }

  function TspecFromRel(tu: int, u: Unit, t0: Timespec): Timespec {
    Timespec(Quotient(tu, u.Mul()) + t0.sec, Remainder(tu, u.Mul()) * u.Div() + t0.nsec)
  }

  /** What the four units are: one and a half seconds, and what each of them cuts off. */
  lemma UnitsAre()
    ensures TspecFrom(1500, Milli) == TspecFrom(1500000, Micro) == TspecFrom(1500000000, Nano) == Timespec(1, 500000000)
    ensures TspecFrom(2, Sec) == Timespec(2, 0) && TspecFrom(-1500, Milli) == Timespec(-1, -500000000)
    ensures var t := Timespec(1, 234567890);
            && TspecTo(t, Sec) == 1 && TspecTo(t, Milli) == 1234
            && TspecTo(t, Micro) == 1234567 && TspecTo(t, Nano) == 1234567890
  {
  }

  lemma QuotientExact(m: int, b: int)
    requires b > 0
    ensures Quotient(m * b, b) == m
  {
    QuotientIs(m * b, b, m, 0);
  }

  /** Converting there and back loses nothing, for times on both sides of zero. */
  lemma ConversionRoundTrip(tu: int, u: Unit, t0: Timespec)
    ensures TspecTo(TspecFrom(tu, u), u) == tu
    ensures TspecToRel(TspecFromRel(tu, u, t0), u, t0) == tu
  {
    QuotientExact(Remainder(tu, u.Mul()), u.Div());
  }

  /** Back and forth cuts a time down to its unit. */
  lemma ConversionCutsDown(t: Timespec, u: Unit)
    requires t.Normal() && t.sec >= 0
    ensures TspecFrom(TspecTo(t, u), u) == Timespec(t.sec, t.nsec - Remainder(t.nsec, u.Div()))
  {
    var q := Quotient(t.nsec, u.Div());
    RemainderSign(t.nsec, u.Div());
    assert q < u.Mul();
    QuotientIs(t.sec * u.Mul() + q, u.Mul(), t.sec, q);
  }

  /** The whole seconds of a moment are those of its normal form only. */
  lemma NormalIff(t: Timespec)
    ensures t.Normal() <==> t.Ns() / BILLION == t.sec
  {
    if t.Normal() {
      ModUnique(t.Ns(), BILLION, t.sec, t.nsec);
    }
    DivMod(t.Ns(), BILLION);
  }

  /** What tspec_from_rel returns stands for the right moment; it is normal if and only if the whole
      seconds of that moment are those of the reference time and of the time added: no second is
      carried over from the fractions. */
  lemma FromRelMeans(tu: int, u: Unit, t0: Timespec)
    requires t0.Normal()
    ensures TspecFromRel(tu, u, t0).Ns() == t0.Ns() + tu * u.Div()
    ensures TspecFromRel(tu, u, t0).Normal()
            <==> (t0.Ns() + tu * u.Div()) / BILLION == t0.sec + Quotient(tu, u.Mul())
  {
    var q, r := Quotient(tu, u.Mul()), Remainder(tu, u.Mul());
    assert tu == q * u.Mul() + r && u.Mul() * u.Div() == BILLION;
    assert tu * u.Div() == q * (u.Mul() * u.Div()) + r * u.Div();
    NormalIff(TspecFromRel(tu, u, t0));
  }

  function TspecSub(a: Timespec, b: Timespec): (d: Timespec)
    ensures d.Ns() == a.Ns() - b.Ns()
    ensures a.Normal() && b.Normal() ==> d.Normal()
  {
    if a.nsec < b.nsec then Timespec(a.sec - b.sec - 1, a.nsec - b.nsec + BILLION)
    else Timespec(a.sec - b.sec, a.nsec - b.nsec)
  }

  /** The loop normalises whatever it is given, as long as the nanoseconds are not negative. */
  method TspecAdd(a: Timespec, b: Timespec) returns (s: Timespec)
    ensures s.Ns() == a.Ns() + b.Ns()
    ensures s.Normal() <==> a.nsec + b.nsec >= 0
  {
    s := Timespec(a.sec + b.sec, a.nsec + b.nsec);
    while s.nsec >= BILLION
      invariant s.Ns() == a.Ns() + b.Ns() && s.nsec < BILLION + (if a.nsec + b.nsec > 0 then a.nsec + b.nsec else 0)
      invariant s.nsec >= 0 <==> a.nsec + b.nsec >= 0
      decreases s.nsec
    {
      s := Timespec(s.sec + 1, s.nsec - BILLION);
    }
  }

  method TspecAddDelta(a: Timespec, delta: int, u: Unit) returns (s: Timespec)
    ensures s.Ns() == a.Ns() + delta * u.Div()
    ensures a.Normal() && delta >= 0 ==> s.Normal()
  {
    FromRelMeans(delta, u, ZERO);
    RemainderSign(delta, u.Mul());
    s := TspecAdd(a, TspecFrom(delta, u));
  }

  function TspecCmp(a: Timespec, b: Timespec): int {
    if a.sec > b.sec then 1
    else if a.sec < b.sec then -1
    else if a.nsec > b.nsec then 1
    else if a.nsec == b.nsec then 0
    else -1
  }

  /** The comparison is that of the moments, for normal times. */
  lemma CmpOrders(a: Timespec, b: Timespec)
    requires a.Normal() && b.Normal()
    ensures TspecCmp(a, b) == 1 <==> a.Ns() > b.Ns()
    ensures TspecCmp(a, b) == 0 <==> a.Ns() == b.Ns()
    ensures TspecCmp(a, b) == -1 <==> a.Ns() < b.Ns()
  {
  }

  // ----- tstat.c -----

  function Sum(d: seq<int>): int {
    if d == [] then 0 else Sum(d[..|d| - 1]) + d[|d| - 1]
  }

  /** The largest of a start value and the recorded times. */
  function Peak(start: int, d: seq<int>): int {
    if d == [] then start
    else
      var p := Peak(start, d[..|d| - 1]);
      if d[|d| - 1] > p then d[|d| - 1] else p
  }

  lemma {:induction false} PeakIsLargest(start: int, d: seq<int>)
    ensures Peak(start, d) >= start && forall k :: 0 <= k < |d| ==> d[k] <= Peak(start, d)
    ensures Peak(start, d) == start || Peak(start, d) in d
  {
    if d != [] {
      var front := d[..|d| - 1];
      PeakIsLargest(start, front);
      forall k | 0 <= k < |d| ensures d[k] <= Peak(start, d) {
        if k < |d| - 1 {
          assert d[k] == front[k];
        }
      }
      assert forall x :: x in front ==> x in d;
    }
  }

  lemma {:induction false} SumBelowPeaks(start: int, d: seq<int>)
    ensures Sum(d) <= |d| * Peak(start, d)
  {
    if d != [] {
      var front, n := d[..|d| - 1], |d| - 1;
      SumBelowPeaks(start, front);
      assert n * Peak(start, front) <= n * Peak(start, d);
    }
  }

  /** One entry of `measures`.  `deltas` are the times recorded since the last tstat_init and
      `before` the largest time that was stored then. */
  class Measure {
    var last: Timespec
    var wcet: Timespec
    var first: Timespec
    var numInstances: nat
    ghost var deltas: seq<int>
    ghost var before: int

    ghost predicate Valid()
      reads this
    {
      && last.Normal() && wcet.Normal() && first.Normal() && numInstances == |deltas|
      && last.Ns() - first.Ns() == Sum(deltas)
      && wcet.Ns() == Peak(before, deltas) && before >= 0
    }

    /** A static entry starts out zero. */
    constructor ()
      ensures Valid() && deltas == [] && before == 0
    {
      last, wcet, first := ZERO, ZERO, ZERO;
      numInstances, deltas, before := 0, [], 0;
    }

    /** tstat_init at CPU time `now`: the stored wcet stays. */
    method Init(now: Timespec)
      requires Valid() && now.Normal()
      modifies this
      ensures Valid() && deltas == [] && before == old(wcet.Ns()) && wcet == old(wcet) && last == now
    {
      PeakIsLargest(before, deltas);
      first := now;
      numInstances := 0;
      last := first;
      deltas, before := [], wcet.Ns();
    }

    method Record(now: Timespec)
      requires Valid() && now.Normal()
      modifies this
      ensures Valid() && deltas == old(deltas) + [now.Ns() - old(last.Ns())]
      ensures before == old(before) && first == old(first) && last == now
    {
      var delta := TspecSub(now, last);
      CmpOrders(delta, wcet);
      if TspecCmp(delta, wcet) > 0 {
        wcet := delta;
      }
      last := now;
      numInstances := numInstances + 1;
      deltas := deltas + [delta.Ns()];
      assert deltas[..|deltas| - 1] == old(deltas);
    }

    /** ptask_get_total */
    method GetTotal() returns (t: Timespec)
      requires Valid()
      ensures t.Normal() && t.Ns() == Sum(deltas)
    {
      t := TspecSub(last, first);
    }

    /** ptask_get_avg: the mean cut to nanoseconds, never above the stored wcet. */
    method GetAvg() returns (res: Timespec)
      requires Valid() && numInstances > 0
      ensures Sum(deltas) >= 0 ==> res.Normal()
      ensures Sum(deltas) >= 0 ==> res.Ns() * numInstances <= Sum(deltas) < res.Ns() * numInstances + numInstances
      ensures Sum(deltas) >= 0 ==> res.Ns() <= wcet.Ns()
    {
      var diff := GetTotal();
      var nsec := diff.nsec + Remainder(diff.sec, numInstances) * BILLION;
      res := Timespec(Quotient(diff.sec, numInstances), Quotient(nsec, numInstances));
      if Sum(deltas) >= 0 {
        AverageBounds(diff, numInstances, before, deltas);
      }
    }

    /** ptask_get_wcet: the largest time recorded since tstat_init if and only if none was
        larger before. */
    method GetWcet() returns (w: Timespec)
      requires Valid() && numInstances > 0
      ensures forall k :: 0 <= k < |deltas| ==> deltas[k] <= w.Ns()
      ensures w.Ns() in deltas <==> exists k :: 0 <= k < |deltas| && before <= deltas[k]
    {
      PeakIsLargest(before, deltas);
      w := wcet;
    }
  }

  /** The mean as the code computes it. */
  function Average(diff: Timespec, n: int): Timespec
    requires n > 0
  {
    var nsec := diff.nsec + Remainder(diff.sec, n) * BILLION;
    Timespec(Quotient(diff.sec, n), Quotient(nsec, n))
  }

  lemma AverageBounds(diff: Timespec, n: int, before: int, d: seq<int>)
    requires diff.Normal() && diff.Ns() == Sum(d) >= 0 && n == |d| > 0
    ensures var res := Average(diff, n);
            res.Normal() && res.Ns() * n <= Sum(d) < res.Ns() * n + n && res.Ns() <= Peak(before, d)
  {
    AverageParts(diff, n);
    SumBelowPeaks(before, d);
    var peak := Peak(before, d);
    assert n * peak == peak * n;
    MulCancelLe(Average(diff, n).Ns(), peak, n);
  }

  /** Seconds and nanoseconds of the mean, each divided on its own. */
  lemma AverageParts(d: Timespec, n: int)
    requires d.Normal() && d.Ns() >= 0 && n > 0
    ensures var res := Average(d, n);
            res.Normal() && res.Ns() * n <= d.Ns() < res.Ns() * n + n
  {
    assert d.sec >= 0;
    RemainderSign(d.sec, n);
    var q, r := Quotient(d.sec, n), Remainder(d.sec, n);
    var nsec := d.nsec + r * BILLION;
    RemainderSign(nsec, n);
    var q', r' := Quotient(nsec, n), Remainder(nsec, n);
    assert nsec < n * BILLION;
    AtLeastOnce(q' - BILLION, n);
    assert (q' - BILLION) * n == q' * n - BILLION * n;
    assert (q * BILLION + q') * n == (q * n) * BILLION + q' * n;
  }

  // ----- a whole run -----

  /** The moment before record k. */
  function Previous(start: int, times: seq<Timespec>, k: nat): int
    requires k <= |times|
  {
    if k == 0 then start else times[k - 1].Ns()
  }

  function Deltas(start: int, times: seq<Timespec>): seq<int> {
    if times == [] then []
    else
      var k := |times| - 1;
      Deltas(start, times[..k]) + [times[k].Ns() - Previous(start, times, k)]
  }

  predicate NonDecreasing(start: int, times: seq<Timespec>) {
    forall k :: 0 <= k < |times| ==> Previous(start, times, k) <= times[k].Ns()
  }

  lemma {:induction false} DeltasSum(start: int, times: seq<Timespec>)
    ensures Sum(Deltas(start, times)) == if times == [] then 0 else times[|times| - 1].Ns() - start
    ensures |Deltas(start, times)| == |times|
    ensures NonDecreasing(start, times) && times != [] ==> times[|times| - 1].Ns() >= start
  {
    if times != [] {
      var front, d := times[..|times| - 1], Deltas(start, times);
      DeltasSum(start, front);
      assert d[..|d| - 1] == Deltas(start, front);
      assert forall k :: 0 <= k < |front| ==> Previous(start, front, k) == Previous(start, times, k);
      assert NonDecreasing(start, times) ==> Previous(start, times, |front|) <= times[|front|].Ns();
    }
  }

  lemma DeltasGrow(start: int, times: seq<Timespec>, i: nat)
    requires i < |times|
    ensures Deltas(start, times[..i + 1]) == Deltas(start, times[..i]) + [times[i].Ns() - Previous(start, times, i)]
  {
    assert times[..i + 1][..i] == times[..i];
  }

  /** tstat_init, then a record at each of the times. */
  method RecordAll(m: Measure, start: Timespec, times: seq<Timespec>)
    requires m.Valid() && start.Normal() && forall k :: 0 <= k < |times| ==> times[k].Normal()
    modifies m
    ensures m.Valid() && m.deltas == Deltas(start.Ns(), times) && m.before == old(m.wcet.Ns())
  {
    m.Init(start);
    for i := 0 to |times|
      invariant m.Valid() && m.deltas == Deltas(start.Ns(), times[..i]) && m.before == old(m.wcet.Ns())
      invariant m.last.Ns() == Previous(start.Ns(), times, i)
    {
      m.Record(times[i]);
      DeltasGrow(start.Ns(), times, i);
    }
    assert times[..|times|] == times;
  }

  /** What the statistics say after any run of a clock that does not go back. */
  method Measured(m: Measure, start: Timespec, times: seq<Timespec>) returns (total: Timespec, avg: Timespec)
    requires m.Valid() && start.Normal() && times != [] && forall k :: 0 <= k < |times| ==> times[k].Normal()
    requires NonDecreasing(start.Ns(), times)
    modifies m
    ensures total.Normal() && total.Ns() == Sum(Deltas(start.Ns(), times)) == times[|times| - 1].Ns() - start.Ns()
    ensures avg.Normal() && avg.Ns() * |times| <= total.Ns() < avg.Ns() * |times| + |times|
    ensures avg.Ns() <= m.wcet.Ns() == Peak(old(m.wcet.Ns()), Deltas(start.Ns(), times))
  {
    RecordAll(m, start, times);
    DeltasSum(start.Ns(), times);
    total := m.GetTotal();
    avg := m.GetAvg();
  }
}
