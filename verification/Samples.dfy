/** lib_timing.c: measurements kept from the largest to the smallest time per iteration. */
module Samples {
  import opened Arithmetic

  /** A time u for n iterations. */
  datatype Sample = Sample(u: nat, n: Positive)

  /** a takes longer per iteration than b: u/n compared without dividing. */
  predicate Slower(a: Sample, b: Sample) { a.u * b.n > b.u * a.n }

  /** Time per iteration. */
  ghost function Rate(a: Sample): real { a.u as real / a.n as real }

  /** Comparing the products is comparing the times per iteration. */
  lemma SlowerIs(a: Sample, b: Sample)
    ensures Slower(a, b) <==> Rate(a) > Rate(b)
  {
    var x, y, p, q := a.u as real, b.u as real, a.n as real, b.n as real;
    assert a.u * b.n > b.u * a.n <==> x * q > y * p;
    RateCompare(x, p, y, q);
  }

  lemma RateCompare(x: real, p: real, y: real, q: real)
    requires p > 0.0 && q > 0.0
    ensures x * q > y * p <==> x / p > y / q
  {
    var r, s := x / p, y / q;
    assert x == r * p && y == s * q;
    var d := r - s;
    assert x * q - y * p == d * (p * q);
    assert p * q > 0.0;
    if d > 0.0 {
      assert d * (p * q) > 0.0;
    } else {
      assert d * (p * q) <= 0.0;
    }
  }

  lemma NotSlowerTransitive(a: Sample, b: Sample, c: Sample)
    requires !Slower(a, b) && !Slower(b, c)
    ensures !Slower(a, c)
  {
    MulLe(a.u * b.n, b.u * a.n, c.n);
    MulLe(b.u * c.n, c.u * b.n, a.n);
    assert (a.u * b.n) * c.n == (a.u * c.n) * b.n;
    assert (b.u * a.n) * c.n == (b.u * c.n) * a.n;
    assert (c.u * b.n) * a.n == (c.u * a.n) * b.n;
    MulCancelLe(a.u * c.n, c.u * a.n, b.n);
  }

  /** Biggest to smallest. */
  ghost predicate Sorted(s: seq<Sample>) {
    forall i, j :: 0 <= i < j < |s| ==> !Slower(s[j], s[i])
  }

  /** Where a new measurement goes: in front of the first that took less time per iteration. */
  function Place(s: seq<Sample>, x: Sample): (i: nat)
    ensures i <= |s|
  {
    if s == [] || Slower(x, s[0]) then 0 else 1 + Place(s[1..], x)
  }

  function Inserted(s: seq<Sample>, x: Sample): seq<Sample> {
    if x.u == 0 then s else s[..Place(s, x)] + [x] + s[Place(s, x)..]
  }

  lemma {:induction false} PlaceIs(s: seq<Sample>, x: Sample, i: nat)
    requires i <= |s| && (forall k :: 0 <= k < i ==> !Slower(x, s[k])) && (i < |s| ==> Slower(x, s[i]))
    ensures Place(s, x) == i
  {
    if i > 0 {
      PlaceIs(s[1..], x, i - 1);
    }
  }

  lemma {:induction false} PlaceSplits(s: seq<Sample>, x: Sample)
    ensures forall k :: 0 <= k < Place(s, x) ==> !Slower(x, s[k])
    ensures Place(s, x) < |s| ==> Slower(x, s[Place(s, x)])
  {
    if s != [] && !Slower(x, s[0]) {
      PlaceSplits(s[1..], x);
      forall k | 0 <= k < Place(s, x) ensures !Slower(x, s[k]) {
        if k > 0 {
          assert s[k] == s[1..][k - 1];
        }
      }
    }
  }

  /** Everything behind a smaller one is smaller too. */
  lemma SmallerBehind(s: seq<Sample>, x: Sample, k: nat)
    requires Sorted(s) && Place(s, x) <= k < |s|
    ensures !Slower(s[k], x)
  {
    PlaceSplits(s, x);
    var p := Place(s, x);
    if k > p {
      NotSlowerTransitive(s[k], s[p], x);
    }
  }

  lemma InsertedSorted(s: seq<Sample>, x: Sample, t: seq<Sample>)
    requires Sorted(s) && t == s[..Place(s, x)] + [x] + s[Place(s, x)..]
    ensures Sorted(t)
  {
    var p := Place(s, x);
    PlaceSplits(s, x);
    forall i, j | 0 <= i < j < |t| ensures !Slower(t[j], t[i]) {
      if i == p {
        SmallerBehind(s, x, j - 1);
      }
    }
  }

  /** Insertion keeps the order and adds the measurement, unless its time is zero. */
  lemma InsertedIs(s: seq<Sample>, x: Sample)
    requires Sorted(s)
    ensures Sorted(Inserted(s, x))
    ensures multiset(Inserted(s, x)) == multiset(s) + (if x.u == 0 then multiset{} else multiset{x})
  {
    if x.u > 0 {
      var p := Place(s, x);
      InsertedSorted(s, x, Inserted(s, x));
      InsertedElements(s, x, p);
    }
  }

  /** The slowest comes first: in a sorted list no entry takes longer per iteration than one before
      it. */
  lemma SlowestFirst(s: seq<Sample>, i: nat, j: nat)
    requires Sorted(s) && i <= j < |s|
    ensures Rate(s[i]) >= Rate(s[j])
  {
    if i < j {
      SlowerIs(s[j], s[i]);
    }
  }

  lemma InsertedElements(s: seq<Sample>, x: Sample, p: nat)
    requires p <= |s|
    ensures multiset(s[..p] + [x] + s[p..]) == multiset(s) + multiset{x}
  {
    assert s == s[..p] + s[p..];
  }

  /** Filling a sorted list from another, one after the other. */
  function InsertedAll(s: seq<Sample>, more: seq<Sample>): seq<Sample> {
    if more == [] then s else Inserted(InsertedAll(s, more[..|more| - 1]), more[|more| - 1])
  }

  ghost predicate NoneZero(s: seq<Sample>) {
    forall x :: x in s ==> x.u > 0
  }

  lemma {:induction false} InsertedAllIs(s: seq<Sample>, more: seq<Sample>)
    requires Sorted(s) && NoneZero(more)
    ensures Sorted(InsertedAll(s, more)) && multiset(InsertedAll(s, more)) == multiset(s) + multiset(more)
  {
    if more != [] {
      var front, x := more[..|more| - 1], more[|more| - 1];
      assert more == front + [x];
      InsertedAllIs(s, front);
      InsertedIs(InsertedAll(s, front), x);
    }
  }

  lemma InsertedNoneZero(s: seq<Sample>, x: Sample)
    requires NoneZero(s)
    ensures NoneZero(Inserted(s, x))
  {
  }

  lemma PutTogether(now: seq<Sample>, was: seq<Sample>, i: nat, x: Sample)
    requires i <= |was| && |now| == |was| + 1 && now[..i] == was[..i] && now[i] == x && now[i + 1..] == was[i..]
    ensures now == was[..i] + [x] + was[i..]
  {
    assert now == now[..i] + [now[i]] + now[i + 1..];
  }

  /** TRIES */
  const TRIES := 11

  /** Entries that sizeof_result makes room for. */
  function Room(repetitions: nat): nat { if repetitions <= TRIES then TRIES else repetitions }

  /** result_t */
  class Result {
    const v: array<Sample>
    var count: nat

    ghost predicate Valid()
      reads this
    {
      count <= v.Length
    }

    ghost function Contents(): seq<Sample>
      reads this, v
      requires Valid()
    {
      v[..count]
    }

    constructor (repetitions: nat)
      ensures Valid() && fresh(v) && v.Length == Room(repetitions) && Contents() == []
    {
      v := new Sample[Room(repetitions)](_ => Sample(0, 1));
      count := 0;
    }

    /** insertsort */
    method InsertSort(u: nat, n: Positive)
      requires Valid() && count < v.Length
      modifies this`count, v
      ensures Valid() && Contents() == Inserted(old(Contents()), Sample(u, n))
    {
      if u == 0 {
        return;
      }
      var x, i := Sample(u, n), 0;
      while i < count && !Slower(x, v[i])
        invariant 0 <= i <= count && forall k :: 0 <= k < i ==> !Slower(x, v[k])
      {
        i := i + 1;
      }
      PlaceIs(v[..count], x, i);
      ghost var was := v[..count];
      if i < count {
        Shift(i);
      }
      v[i] := x;
      count := count + 1;
      assert v[..i] == was[..i] && v[i + 1..count] == was[i..];
      PutTogether(v[..count], was, i, x);
    }

    /** Entries from i on move one place up. */
    method Shift(i: nat)
      requires Valid() && i < count < v.Length
      modifies v
      ensures v[..i] == old(v[..i]) && v[i + 1..count + 1] == old(v[i..count])
    {
      var j := count;
      while j > i
        invariant i <= j <= count
        invariant v[..j] == old(v[..j]) && v[j + 1..count + 1] == old(v[j..count])
      {
        v[j] := v[j - 1];
        assert v[j..count + 1] == [v[j]] + v[j + 1..count + 1];
        assert old(v[j - 1..count]) == [old(v[j - 1])] + old(v[j..count]);
        j := j - 1;
      }
    }

    /** The merging loop of benchmp_parent for one child's results. */
    method Merge(results: seq<Sample>)
      requires Valid() && count + |results| <= v.Length
      modifies this`count, v
      ensures Valid() && Contents() == InsertedAll(old(Contents()), results) && count <= old(count) + |results|
    {
      for j := 0 to |results|
        invariant Valid() && count <= old(count) + j && Contents() == InsertedAll(old(Contents()), results[..j])
      {
        assert results[..j + 1][..j] == results[..j];
        InsertSort(results[j].u, results[j].n);
      }
      assert results[..|results|] == results;
    }
  }
}
