/** Pointer chains in a flat memory.  A memory is a sequence of words, each holding the index
    of a word; following a pointer is indexing. */
module Chains {
  import opened Arithmetic
  import opened Collections

  ghost predicate Inside(m: seq<int>, s: seq<int>) {
    forall n :: 0 <= n < |s| ==> 0 <= s[n] < |m|
  }

  /** Each word of `s` but the last points to the next one. */
  ghost predicate Path(m: seq<int>, s: seq<int>) {
    Inside(m, s) && forall n, o :: 0 <= n && o == n + 1 && o < |s| ==> m[s[n]] == s[o]
  }

  /** The words of `s` form one cycle: all different, each pointing to the next. */
  ghost predicate Cycle(m: seq<int>, s: seq<int>) {
    |s| > 0 && Distinct(s) && Path(m, s) && m[s[|s| - 1]] == s[0]
  }

  /** Where n dereferences lead from the first word of a cycle. */
  function Turned(s: seq<int>, n: nat): int
    requires |s| > 0
  {
    s[n % |s|]
  }

  /** n steps around a ring of d places. */
  function Around(n: nat, d: nat): (r: nat)
    requires d > 0
    ensures r < d
  {
    if n == 0 then 0 else if Around(n - 1, d) == d - 1 then 0 else Around(n - 1, d) + 1
  }

  lemma {:induction false} AroundIsMod(n: nat, d: nat)
    requires d > 0
    ensures Around(n, d) == n % d
  {
    if n > 0 {
      AroundIsMod(n - 1, d);
      ModNext(n - 1, d);
    }
  }

  /** n dereferences, one after the other. */
  function Follow(m: seq<int>, p: int, n: nat): int {
    if n == 0 then p
    else
      var q := Follow(m, p, n - 1);
      if 0 <= q < |m| then m[q] else q
  }

  lemma {:induction false} FollowAround(m: seq<int>, s: seq<int>, n: nat)
    requires Cycle(m, s)
    ensures Follow(m, s[0], n) == s[Around(n, |s|)]
  {
    if n > 0 {
      FollowAround(m, s, n - 1);
      CycleStep(m, s, Around(n - 1, |s|));
    }
  }

  /** On a cycle they lead to entry n mod its length. */
  lemma FollowCycle(m: seq<int>, s: seq<int>, n: nat)
    requires Cycle(m, s)
    ensures Follow(m, s[0], n) == Turned(s, n)
  {
    FollowAround(m, s, n);
    AroundIsMod(n, |s|);
  }

  lemma CycleStep(m: seq<int>, s: seq<int>, x: nat)
    requires Cycle(m, s) && x < |s|
    ensures 0 <= s[x] < |m| && m[s[x]] == s[if x == |s| - 1 then 0 else x + 1]
  {
    if x < |s| - 1 {
      var o := x + 1;
      assert m[s[x]] == s[o];
    }
  }

  lemma ModNext(n: nat, d: nat)
    requires d > 0
    ensures (n + 1) % d == if n % d == d - 1 then 0 else n % d + 1
  {
    var q, r := n / d, n % d;
    assert n == q * d + r;
    if r == d - 1 {
      assert n + 1 == (q + 1) * d;
      ModUnique(n + 1, d, q + 1, 0);
    } else {
      ModUnique(n + 1, d, q, r + 1);
    }
  }

  // ----- chains made of blocks -----

  function Flatten(bs: seq<seq<int>>): seq<int> {
    if bs == [] then [] else Flatten(bs[..|bs| - 1]) + bs[|bs| - 1]
  }

  ghost predicate Apart(s: seq<int>, t: seq<int>) {
    forall x, y :: 0 <= x < |s| && 0 <= y < |t| ==> s[x] != t[y]
  }

  ghost predicate DistinctBlocks(bs: seq<seq<int>>) {
    && (forall b :: 0 <= b < |bs| ==> Distinct(bs[b]))
    && forall a, b :: 0 <= a < b < |bs| ==> Apart(bs[a], bs[b])
  }

  /** Every block is a non-empty path and leads to the next block. */
  ghost predicate LinkedBlocks(m: seq<int>, bs: seq<seq<int>>) {
    && (forall b :: 0 <= b < |bs| ==> |bs[b]| > 0 && Path(m, bs[b]))
    && forall a, b :: 0 <= a && b == a + 1 && b < |bs| ==> m[bs[a][|bs[a]| - 1]] == bs[b][0]
  }

  lemma {:induction false} FlattenMember(bs: seq<seq<int>>, n: nat) returns (b: nat, x: nat)
    requires n < |Flatten(bs)|
    ensures b < |bs| && x < |bs[b]| && Flatten(bs)[n] == bs[b][x]
  {
    var front, last := bs[..|bs| - 1], |bs| - 1;
    if n < |Flatten(front)| {
      b, x := FlattenMember(front, n);
    } else {
      b, x := last, n - |Flatten(front)|;
    }
  }

  lemma {:induction false} FlattenContains(bs: seq<seq<int>>, b: nat, x: nat)
    requires b < |bs| && x < |bs[b]|
    ensures bs[b][x] in Flatten(bs)
  {
    var front := bs[..|bs| - 1];
    if b < |bs| - 1 {
      FlattenContains(front, b, x);
    }
  }

  lemma {:induction false} FlattenDistinct(bs: seq<seq<int>>)
    requires DistinctBlocks(bs)
    ensures Distinct(Flatten(bs))
  {
    if bs != [] {
      var front, last := bs[..|bs| - 1], bs[|bs| - 1];
      assert DistinctBlocks(front);
      FlattenDistinct(front);
      FlattenApart(bs);
      AppendDistinct(Flatten(front), last);
    }
  }

  lemma FlattenApart(bs: seq<seq<int>>)
    requires bs != [] && DistinctBlocks(bs)
    ensures Apart(Flatten(bs[..|bs| - 1]), bs[|bs| - 1])
  {
    var front, last := bs[..|bs| - 1], bs[|bs| - 1];
    forall x, y | 0 <= x < |Flatten(front)| && 0 <= y < |last| ensures Flatten(front)[x] != last[y] {
      var b, z := FlattenMember(front, x);
      assert Apart(bs[b], bs[|bs| - 1]);
    }
  }

  lemma AppendDistinct(s: seq<int>, t: seq<int>)
    requires Distinct(s) && Distinct(t) && Apart(s, t)
    ensures Distinct(s + t)
  {
    forall a, b | 0 <= a < b < |s + t| ensures (s + t)[a] != (s + t)[b] {
      if a < |s| {
        if b >= |s| {
          assert s[a] != t[b - |s|];
        }
      }
    }
  }

  lemma AppendPath(m: seq<int>, s: seq<int>, t: seq<int>)
    requires |s| > 0 && |t| > 0 && Path(m, s) && Path(m, t) && m[s[|s| - 1]] == t[0]
    ensures Path(m, s + t)
  {
    var u := s + t;
    forall n, o | 0 <= n && o == n + 1 && o < |u| ensures m[u[n]] == u[o] {
      if o < |s| {
        assert m[s[n]] == s[o];
      } else if n >= |s| {
        var a, b := n - |s|, o - |s|;
        assert m[t[a]] == t[b];
      }
    }
  }

  lemma {:induction false} FlattenPath(m: seq<int>, bs: seq<seq<int>>)
    requires bs != [] && LinkedBlocks(m, bs)
    ensures Path(m, Flatten(bs)) && |Flatten(bs)| > 0
    ensures Flatten(bs)[0] == bs[0][0]
    ensures Flatten(bs)[|Flatten(bs)| - 1] == bs[|bs| - 1][|bs[|bs| - 1]| - 1]
  {
    var front, last := bs[..|bs| - 1], bs[|bs| - 1];
    if front == [] {
      assert Flatten(bs) == last;
    } else {
      FrontLinked(m, bs);
      FlattenPath(m, front);
      var a := |bs| - 2;
      assert front[|front| - 1] == bs[a];
      assert m[bs[a][|bs[a]| - 1]] == bs[a + 1][0];
      AppendPath(m, Flatten(front), last);
    }
  }

  lemma FrontLinked(m: seq<int>, bs: seq<seq<int>>)
    requires bs != [] && LinkedBlocks(m, bs)
    ensures LinkedBlocks(m, bs[..|bs| - 1])
  {
  }

  /** Blocks that are paths, lead to each other in a ring and share no word form one cycle. */
  lemma FlattenCycle(m: seq<int>, bs: seq<seq<int>>)
    requires bs != [] && LinkedBlocks(m, bs) && DistinctBlocks(bs)
    requires var last := bs[|bs| - 1]; m[last[|last| - 1]] == bs[0][0]
    ensures Cycle(m, Flatten(bs)) && Flatten(bs)[0] == bs[0][0]
  {
    FlattenPath(m, bs);
    FlattenDistinct(bs);
  }

  /** All blocks but the last have length c. */
  ghost predicate EvenBlocks(bs: seq<seq<int>>, c: nat) {
    forall b :: 0 <= b < |bs| - 1 ==> |bs[b]| == c
  }

  lemma {:induction false} FlattenLength(bs: seq<seq<int>>, c: nat)
    requires bs != [] && EvenBlocks(bs, c)
    ensures |Flatten(bs)| == (|bs| - 1) * c + |bs[|bs| - 1]|
  {
    var front := bs[..|bs| - 1];
    if front != [] {
      FlattenLength(front, c);
      OneMoreBlock(|front|, c);
    }
  }

  lemma OneMoreBlock(n: nat, c: nat)
    requires n > 0
    ensures (n - 1) * c + c == n * c
  {
  }

  /** Position b * c + x is entry x of block b. */
  lemma {:induction false} FlattenAt(bs: seq<seq<int>>, c: nat, b: nat, x: nat)
    requires b < |bs| && x < |bs[b]| && EvenBlocks(bs, c)
    ensures 0 <= b * c + x < |Flatten(bs)| && Flatten(bs)[b * c + x] == bs[b][x]
  {
    var front := bs[..|bs| - 1];
    if b < |bs| - 1 {
      FlattenAt(front, c, b, x);
    } else if front != [] {
      FlattenLength(front, c);
      OneMoreBlock(b, c);
    }
  }
}
