/** thrash_initialize: a different page at every step. */
module Thrash {
  import opened Arithmetic
  import opened Collections
  import opened BitReversal
  import opened Chains
  import opened Layouts

  // ----- lengths that fill their pages -----

  /** Entry x of the table on page i. */
  function Spot(pages: seq<int>, words: seq<int>, i: nat, x: nat): int
    requires i < |pages| && x < |words|
  {
    pages[i] + words[x]
  }

  /** Page i of round j holds entry (i + j) mod n. */
  function Shift(i: nat, j: nat, n: nat): (r: nat)
    requires n > 0
    ensures r < n
  {
    (i + j) % n
  }

  ghost predicate ValidTables(pages: seq<int>, words: seq<int>, pageWords: nat, size: nat) {
    && |pages| > 0 && |words| > 0
    && Spaced(pages, pageWords) && Spaced(words, 1)
    && (forall x :: 0 <= x < |words| ==> 0 <= words[x] < pageWords)
    && forall i :: 0 <= i < |pages| ==> 0 <= pages[i] && pages[i] + pageWords <= size
  }

  lemma SpotInjective(pages: seq<int>, words: seq<int>, pw: nat, size: nat, i: nat, x: nat, i': nat, x': nat)
    requires ValidTables(pages, words, pw, size)
    requires i < |pages| && x < |words| && i' < |pages| && x' < |words|
    requires Spot(pages, words, i, x) == Spot(pages, words, i', x')
    ensures i == i' && x == x'
  {
    SameEntry(pages, pw, i, i');
    SameEntry(words, 1, x, x');
  }

  /** Every word of page i leads to the next word of the table on the next page; from the last
      page the walk returns to the first. */
  ghost predicate Hops(m: seq<int>, pages: seq<int>, words: seq<int>, i: nat)
    requires i < |pages| && |words| > 0
  {
    forall j :: 0 <= j < |words| ==> Hop(m, pages, words, i, j)
  }

  ghost predicate Hop(m: seq<int>, pages: seq<int>, words: seq<int>, i: nat, j: nat)
    requires i < |pages| && |words| > 0
  {
    var n := |words|;
    var src := Spot(pages, words, i, Shift(i, j, n));
    0 <= src < |m| && m[src] == if i + 1 < |pages| then Spot(pages, words, i + 1, Shift(i + 1, j, n))
                                else Spot(pages, words, 0, Shift(0, j + 1, n))
  }

  /** Numbers less than n apart with the same remainder are equal. */
  lemma SameRemainder(x: int, y: int, n: nat, a: int, b: int, r: int)
    requires x == a * n + r && y == b * n + r && x - y < n && y - x < n
    ensures x == y
  {
    AtLeastOnce(a - b, n);
    assert (a - b) * n == a * n - b * n;
  }

  lemma ShiftInjective(i: nat, j: nat, k: nat, n: nat)
    requires j < n && k < n && Shift(i, j, n) == Shift(i, k, n)
    ensures j == k
  {
    DivMod(i + j, n);
    DivMod(i + k, n);
    SameRemainder(i + j, i + k, n, (i + j) / n, (i + k) / n, Shift(i, j, n));
  }

  /** Rounds j = 0, 1, ...: one word on every page. */
  function Round(pages: seq<int>, words: seq<int>, j: nat): (s: seq<int>)
    requires |words| > 0
    ensures |s| == |pages|
  {
    seq(|pages|, i requires 0 <= i < |pages| => Spot(pages, words, i, Shift(i, j, |words|)))
  }

  function AllRounds(pages: seq<int>, words: seq<int>): (bs: seq<seq<int>>)
    requires |words| > 0
    ensures |bs| == |words|
  {
    seq(|words|, j requires 0 <= j < |words| => Round(pages, words, j))
  }

  /** The walk. */
  function ThrashOrder(pages: seq<int>, words: seq<int>): seq<int>
    requires |words| > 0
  {
    Flatten(AllRounds(pages, words))
  }

  lemma RoundIsPath(m: seq<int>, pages: seq<int>, words: seq<int>, pw: nat, j: nat)
    requires ValidTables(pages, words, pw, |m|) && j < |words|
    requires forall i :: 0 <= i < |pages| ==> Hops(m, pages, words, i)
    ensures Path(m, Round(pages, words, j)) && Distinct(Round(pages, words, j))
  {
    var s := Round(pages, words, j);
    forall a | 0 <= a < |s| ensures 0 <= s[a] < |m| {
      assert Hops(m, pages, words, a) && Hop(m, pages, words, a, j);
    }
    forall a, b | 0 <= a && b == a + 1 && b < |s| ensures m[s[a]] == s[b] {
      assert Hops(m, pages, words, a) && Hop(m, pages, words, a, j);
    }
    forall a, b | 0 <= a < b < |s| ensures s[a] != s[b] {
      if s[a] == s[b] {
        SpotInjective(pages, words, pw, |m|, a, Shift(a, j, |words|), b, Shift(b, j, |words|));
      }
    }
  }

  lemma RoundsApart(pages: seq<int>, words: seq<int>, pw: nat, size: nat, j: nat, k: nat)
    requires ValidTables(pages, words, pw, size) && j < |words| && k < |words| && j != k
    ensures Apart(Round(pages, words, j), Round(pages, words, k))
  {
    var s, u, n := Round(pages, words, j), Round(pages, words, k), |words|;
    forall x, y | 0 <= x < |s| && 0 <= y < |u| ensures s[x] != u[y] {
      if s[x] == u[y] {
        SpotInjective(pages, words, pw, size, x, Shift(x, j, n), y, Shift(y, k, n));
        ShiftInjective(x, j, k, n);
      }
    }
  }

  /** Main result: the pointers form one cycle through every word of the table on every page,
      each step on the next page of the list, the table index one further every round. */
  lemma ThrashIsCycle(m: seq<int>, pages: seq<int>, words: seq<int>, pw: nat)
    requires ValidTables(pages, words, pw, |m|)
    requires forall i :: 0 <= i < |pages| ==> Hops(m, pages, words, i)
    ensures Cycle(m, ThrashOrder(pages, words))
    ensures ThrashOrder(pages, words)[0] == Spot(pages, words, 0, 0)
    ensures |ThrashOrder(pages, words)| == |words| * |pages|
  {
    var bs, n, last := AllRounds(pages, words), |words|, |pages| - 1;
    forall j | 0 <= j < n ensures Path(m, bs[j]) && Distinct(bs[j]) {
      RoundIsPath(m, pages, words, pw, j);
    }
    forall a, b | 0 <= a < b < n ensures Apart(bs[a], bs[b]) {
      RoundsApart(pages, words, pw, |m|, a, b);
    }
    forall a, b | 0 <= a && b == a + 1 && b < n ensures m[bs[a][|bs[a]| - 1]] == bs[b][0] {
      assert Hops(m, pages, words, last) && Hop(m, pages, words, last, a);
    }
    assert Hops(m, pages, words, last) && Hop(m, pages, words, last, n - 1);
    assert Shift(0, n, n) == 0 && Shift(0, 0, n) == 0 by {
      ModUnique(n, n, 1, 0);
    }
    FlattenCycle(m, bs);
    FlattenLength(bs, |pages|);
    OneMoreBlock(n, |pages|);
  }

  /** Step j * |pages| + i of the walk is on page i. */
  lemma ThrashAt(pages: seq<int>, words: seq<int>, i: nat, j: nat)
    requires i < |pages| && j < |words|
    ensures var n := j * |pages| + i;
            0 <= n < |ThrashOrder(pages, words)|
            && ThrashOrder(pages, words)[n] == pages[i] + words[(i + j) % |words|]
  {
    FlattenAt(AllRounds(pages, words), |pages|, j, i);
  }

  /** No word of the table on any page is left out. */
  lemma ThrashVisitsAll(pages: seq<int>, words: seq<int>, i: nat, x: nat)
    requires i < |pages| && x < |words|
    ensures Spot(pages, words, i, x) in ThrashOrder(pages, words)
  {
    var n := |words|;
    var j := RoundOf(i, x, n);
    FlattenContains(AllRounds(pages, words), j, i);
    assert AllRounds(pages, words)[j][i] == Spot(pages, words, i, x);
  }

  lemma RoundOf(i: nat, x: nat, n: nat) returns (j: nat)
    requires x < n
    ensures j < n && Shift(i, j, n) == x
  {
    var r := i % n;
    j := if r <= x then x - r else x + n - r;
    assert i == (i / n) * n + r;
    if r <= x {
      ModUnique(i + j, n, i / n, x);
    } else {
      assert i + j == (i / n + 1) * n + x;
      ModUnique(i + j, n, i / n + 1, x);
    }
  }

  /** The loop over the words of one page. */
  method HopPage(mem: array<int>, pages: seq<int>, words: seq<int>, ghost pw: nat, i: nat)
    requires ValidTables(pages, words, pw, mem.Length) && i < |pages|
    requires forall a :: 0 <= a < i ==> Hops(mem[..], pages, words, a)
    modifies mem
    ensures forall a :: 0 <= a <= i ==> Hops(mem[..], pages, words, a)
  {
    var n := |words|;
    for j := 0 to n
      invariant forall a :: 0 <= a < i ==> Hops(mem[..], pages, words, a)
      invariant forall k :: 0 <= k < j ==> Hop(mem[..], pages, words, i, k)
    {
      ghost var before := mem[..];
      var cur := pages[i] + words[(i + j) % n];
      var next;
      if i + 1 < |pages| {
        next := pages[i + 1] + words[(i + j + 1) % n];
        assert Shift(i + 1, j, n) == (i + j + 1) % n;
      } else {
        next := pages[0] + words[(j + 1) % n];
        assert Shift(0, j + 1, n) == (j + 1) % n;
      }
      mem[cur] := next;
      HopKeepsOthers(before, mem[..], pages, words, pw, i, j);
      assert Hop(mem[..], pages, words, i, j);
    }
  }

  lemma HopKeepsOthers(m: seq<int>, m': seq<int>, pages: seq<int>, words: seq<int>, pw: nat, i: nat, j: nat)
    requires ValidTables(pages, words, pw, |m|) && i < |pages| && j < |words| && |m'| == |m|
    requires forall a :: 0 <= a < |m| && a != Spot(pages, words, i, Shift(i, j, |words|)) ==> m'[a] == m[a]
    ensures forall a :: 0 <= a < i && Hops(m, pages, words, a) ==> Hops(m', pages, words, a)
    ensures forall k :: 0 <= k < j && Hop(m, pages, words, i, k) ==> Hop(m', pages, words, i, k)
  {
    var n := |words|;
    forall a | 0 <= a < i && Hops(m, pages, words, a) ensures Hops(m', pages, words, a) {
      forall k | 0 <= k < n ensures Hop(m', pages, words, a, k) {
        assert Hop(m, pages, words, a, k);
        if Spot(pages, words, a, Shift(a, k, n)) == Spot(pages, words, i, Shift(i, j, n)) {
          SpotInjective(pages, words, pw, |m|, a, Shift(a, k, n), i, Shift(i, j, n));
        }
      }
    }
    forall k | 0 <= k < j && Hop(m, pages, words, i, k) ensures Hop(m', pages, words, i, k) {
      if Spot(pages, words, i, Shift(i, k, n)) == Spot(pages, words, i, Shift(i, j, n)) {
        SpotInjective(pages, words, pw, |m|, i, Shift(i, k, n), i, Shift(i, j, n));
        ShiftInjective(i, k, j, n);
      }
    }
  }

  /** The branch of thrash_initialize for lengths that fill their pages. */
  method ThrashPages(mem: array<int>, pages: seq<int>, words: seq<int>, ghost pw: nat) returns (p: int)
    requires ValidTables(pages, words, pw, mem.Length) && words[0] == 0
    modifies mem
    ensures forall i :: 0 <= i < |pages| ==> Hops(mem[..], pages, words, i)
    ensures Cycle(mem[..], ThrashOrder(pages, words)) && p == ThrashOrder(pages, words)[0]
  {
    for i := 0 to |pages|
      invariant forall a :: 0 <= a < i ==> Hops(mem[..], pages, words, a)
    {
      HopPage(mem, pages, words, pw, i);
    }
    ThrashIsCycle(mem[..], pages, words, pw);
    p := pages[0];
  }

  // ----- other lengths: one table for everything -----

  /** Entry i of the table, as `words_initialize` fills it. */
  function Entry(max: nat, scale: nat, i: nat): nat
    requires i < max
  {
    Table(max, scale)[i]
  }

  /** How many words the chain visits: all of them only for a power of two. */
  function VisitedEntries(max: nat): nat
    requires max > 0
  {
    LogBounds(max);
    if max == Pow(Log(max)) then max else max - Pow(Log(max))
  }

  /** Two entries are the same exactly when they lie Pow(Log(max)) apart. */
  lemma SameEntries(max: nat, scale: nat, a: nat, i: nat)
    requires scale > 0 && a < i < max
    ensures Entry(max, scale, a) == Entry(max, scale, i) <==> i == a + Pow(Log(max))
  {
    var b := Log(max);
    var p := Pow(b);
    LogBounds(max);
    var i0 := if i < p then i else i - p;
    if i >= p { RevWraps(b, i - p); }
    if a >= p { RevWraps(b, a - p); }
    var a0 := if a < p then a else a - p;
    RevTwice(b, a0);
    RevTwice(b, i0);
    if Rev(b, a0) != Rev(b, i0) {
      Scaled(Rev(b, a0), Rev(b, i0), scale);
    }
  }

  lemma OverwriteAgrees(max: nat, scale: nat, a: nat, i: nat)
    requires scale > 0 && a < i && i + 1 < max && Entry(max, scale, a) == Entry(max, scale, i)
    ensures Entry(max, scale, a + 1) == Entry(max, scale, i + 1)
  {
    SameEntries(max, scale, a, i);
    SameEntries(max, scale, a + 1, i + 1);
  }

  lemma EntryFits(max: nat, scale: nat, i: nat)
    requires i < max && scale > 0
    ensures Entry(max, scale, i) < max * scale
    ensures Entry(max, scale, 0) == 0
  {
    LogBounds(max);
    RevBelow(Log(max), i);
    Scaled(Rev(Log(max), i), max, scale);
    RevZero(Log(max));
  }

  lemma {:induction false} RevZero(b: nat)
    ensures Rev(b, 0) == 0
  {
    if b > 0 {
      RevZero(b - 1);
    }
  }

  /** The entries of the table lead from one to the next up to entry n. */
  ghost predicate Chained(m: seq<int>, max: nat, scale: nat, n: nat)
    requires n < max
  {
    forall a :: 0 <= a < n ==> Leads(m, max, scale, a)
  }

  ghost predicate Leads(m: seq<int>, max: nat, scale: nat, a: nat)
    requires a + 1 < max
  {
    0 <= Entry(max, scale, a) < |m| && m[Entry(max, scale, a)] == Entry(max, scale, a + 1)
  }

  lemma ChainStep(m: seq<int>, m': seq<int>, max: nat, scale: nat, i: nat)
    requires scale > 0 && i + 1 < max && max * scale <= |m| && Chained(m, max, scale, i)
    requires 0 <= Entry(max, scale, i) < |m| && m' == m[Entry(max, scale, i) := Entry(max, scale, i + 1)]
    ensures Chained(m', max, scale, i + 1)
  {
    forall a | 0 <= a < i + 1 ensures Leads(m', max, scale, a) {
      EntryFits(max, scale, a);
      if a < i {
        assert Leads(m, max, scale, a);
        if Entry(max, scale, a) == Entry(max, scale, i) {
          OverwriteAgrees(max, scale, a, i);
        }
      }
    }
  }

  lemma ChainEnd(m: seq<int>, m': seq<int>, max: nat, scale: nat)
    requires scale > 0 && 0 < max && max * scale <= |m| && Chained(m, max, scale, max - 1)
    requires 0 <= Entry(max, scale, max - 1) < |m| && m' == m[Entry(max, scale, max - 1) := 0]
    ensures 1 <= VisitedEntries(max) <= max && Cycle(m', Table(max, scale)[..VisitedEntries(max)])
  {
    var n, s, e := VisitedEntries(max), Table(max, scale)[..VisitedEntries(max)], max - 1;
    LogBounds(max);
    if n < max {
      SameEntries(max, scale, n - 1, e);
    }
    forall a | 0 <= a < n ensures 0 <= s[a] < |m'| {
      EntryFits(max, scale, a);
    }
    forall a, b | 0 <= a < b < n ensures s[a] != s[b] {
      SameEntries(max, scale, a, b);
    }
    forall a, b | 0 <= a && b == a + 1 && b < n ensures m'[s[a]] == s[b] {
      assert Leads(m, max, scale, a);
      assert s[a] == Entry(max, scale, a) && s[b] == Entry(max, scale, b);
      assert s[a] != s[n - 1];
    }
    EntryFits(max, scale, 0);
  }

  /** The branch of thrash_initialize for other lengths: one cycle from the first word, through
      the first entries of the table. */
  method ThrashTable(mem: array<int>, max: nat, scale: nat) returns (p: int)
    requires max > 0 && scale > 0 && max * scale <= mem.Length
    modifies mem
    ensures 1 <= VisitedEntries(max) <= max && Cycle(mem[..], Table(max, scale)[..VisitedEntries(max)])
    ensures p == Table(max, scale)[0]
  {
    var words := WordsInitialize(max, scale);
    var i := 0;
    while i < max - 1
      invariant 0 <= i < max && words as object != mem && words[..] == Table(max, scale)
      invariant Chained(mem[..], max, scale, i)
    {
      EntryFits(max, scale, i);
      assert words[i] == words[..][i] == Entry(max, scale, i);
      assert words[i + 1] == words[..][i + 1] == Entry(max, scale, i + 1);
      ghost var before := mem[..];
      mem[words[i]] := words[i + 1];
      ChainStep(before, mem[..], max, scale, i);
      i := i + 1;
    }
    EntryFits(max, scale, i);
    assert words[i] == words[..][i] == Entry(max, scale, i);
    ghost var before := mem[..];
    mem[words[i]] := 0;
    ChainEnd(before, mem[..], max, scale);
    p := 0;
  }

  ghost predicate EntriesIn(max: nat, scale: nat, s: seq<int>) {
    forall i :: 0 <= i < max ==> Entry(max, scale, i) in s
  }

  /** Every entry of the table is on the chain exactly when their number is a power of two;
      otherwise the chain leaves out more than half of them. */
  lemma AllEntriesVisited(max: nat, scale: nat)
    requires max > 0 && scale > 0
    ensures 1 <= VisitedEntries(max) <= max
    ensures EntriesIn(max, scale, Table(max, scale)[..VisitedEntries(max)]) <==> PowerOfTwo(max)
    ensures 2 * VisitedEntries(max) < max || PowerOfTwo(max)
  {
    LogBounds(max);
    var n := VisitedEntries(max);
    var s := Table(max, scale)[..n];
    if PowerOfTwo(max) {
      forall i | 0 <= i < max ensures Entry(max, scale, i) in s {
        assert s[i] == Entry(max, scale, i);
      }
    } else {
      forall a | 0 <= a < n ensures s[a] != Entry(max, scale, n) {
        SameEntries(max, scale, a, n);
        assert s[a] == Entry(max, scale, a);
      }
      assert Entry(max, scale, n) !in s;
    }
  }
}
