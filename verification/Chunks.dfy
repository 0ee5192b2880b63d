/** remove_chunk: measure without some of the pages; check_memory: look the chain over. */
module Chunks {
  import opened Arithmetic
  import opened Collections
  import opened Chains
  import opened Layouts
  import opened LibMem
  import opened Cache
  import opened Setup

  // ----- remove_chunk -----

  function Partner(x: int, i: nat, np: nat): int { np - 1 + i - x }

  predicate InChunk(x: int, i: nat, chunk: nat) { i <= x < i + chunk }

  /** The page list after the swapping loop, in closed form: an entry trades places with its
      partner when exactly one of the two lies in the chunk. */
  function Traded(s: seq<int>, i: nat, chunk: nat, np: nat): (r: seq<int>)
    requires i + chunk <= np <= |s|
    ensures |r| == |s|
  {
    seq(|s|, x requires 0 <= x < |s| => s[Source(x, i, chunk, np)])
  }

  function Source(x: nat, i: nat, chunk: nat, np: nat): (r: nat)
    requires i + chunk <= np
    ensures x < np ==> r < np
    ensures x >= np ==> r == x
  {
    if i <= x < np && InChunk(x, i, chunk) != InChunk(Partner(x, i, np), i, chunk) then Partner(x, i, np) else x
  }

  /** Trading twice is no change. */
  lemma TradedTwice(s: seq<int>, i: nat, chunk: nat, np: nat)
    requires i + chunk <= np <= |s|
    ensures Traded(Traded(s, i, chunk, np), i, chunk, np) == s
  {
  }

  /** One more swap of the loop is one more entry in the chunk, also where the chunk meets the
      tail it is swapped with and earlier swaps are undone. */
  lemma TradeStep(s: seq<int>, i: nat, j: nat, np: nat)
    requires i + j < np <= |s|
    ensures var r, a, b := Traded(s, i, j, np), i + j, np - 1 - j;
            0 <= b < |s| && Traded(s, i, j + 1, np) == r[a := r[b]][b := r[a]]
  {
  }

  method SwapChunk(pages: array<int>, i: nat, chunk: nat, np: nat)
    requires i + chunk <= np <= pages.Length
    modifies pages
    ensures pages[..] == Traded(old(pages[..]), i, chunk, np)
  {
    for j := 0 to chunk
      invariant pages[..] == Traded(old(pages[..]), i, j, np)
    {
      TradeStep(old(pages[..]), i, j, np);
      var n := pages[i + j];
      pages[i + j] := pages[np - 1 - j];
      pages[np - 1 - j] := n;
    }
  }

  /** The pages measured while a chunk is out. */
  function Kept(s: seq<int>, i: nat, chunk: nat, np: nat): seq<int>
    requires i + chunk <= np <= |s|
  {
    if i + chunk < np then Traded(s, i, chunk, np) else s
  }

  /** Main result for the page list: the first np - chunk entries are the original ones outside
      the chunk, all of them and only those. */
  lemma ChunkIsOut(s: seq<int>, i: nat, chunk: nat, np: nat, y: nat)
    requires i + chunk <= np <= |s| && y < np
    ensures InChunk(y, i, chunk) ==> exists x :: np - chunk <= x < np && Kept(s, i, chunk, np)[x] == s[y]
    ensures !InChunk(y, i, chunk) ==> exists x :: 0 <= x < np - chunk && Kept(s, i, chunk, np)[x] == s[y]
  {
    var r := Kept(s, i, chunk, np);
    if i + chunk < np {
      var x := Source(y, i, chunk, np);
      assert Source(x, i, chunk, np) == y;
      assert r[x] == s[y];
    } else {
      assert r[y] == s[y];
    }
  }

  lemma KeptIsOutside(s: seq<int>, i: nat, chunk: nat, np: nat, x: nat)
    requires i + chunk <= np <= |s| && x < np - chunk
    ensures exists y :: 0 <= y < np && !InChunk(y, i, chunk) && Kept(s, i, chunk, np)[x] == s[y]
  {
    var y := if i + chunk < np then Source(x, i, chunk, np) else x;
    assert !InChunk(y, i, chunk) && Kept(s, i, chunk, np)[x] == s[y];
  }

  /** The layout with another page list. */
  function WithPages(t: Layout, pages: seq<int>): Layout { t.(pages := pages) }

  lemma KeptIsLayout(t: Layout, i: nat, chunk: nat, np: nat, size: nat)
    requires t.Valid() && t.Fits(size) && i + chunk <= np <= |t.pages|
    ensures var u := WithPages(t, Kept(t.pages, i, chunk, np)); u.Valid() && u.Fits(size) && |u.pages| == |t.pages|
  {
    var r := Kept(t.pages, i, chunk, np);
    if i + chunk < np {
      forall a, b | 0 <= a < b < |r| ensures r[a] + t.pageWords <= r[b] || r[b] + t.pageWords <= r[a] {
        var x, y := Source(a, i, chunk, np), Source(b, i, chunk, np);
        assert x != y && r[a] == t.pages[x] && r[b] == t.pages[y];
      }
    }
  }

  lemma KeptWithinLinked(m: seq<int>, t: Layout, i: nat, chunk: nat, np: nat)
    requires t.Valid() && t.Fits(|m|) && i + chunk <= np <= |t.pages| && WithinLinked(m, t, np)
    ensures var u := WithPages(t, Kept(t.pages, i, chunk, np)); u.Valid() && u.Fits(|m|) && WithinLinked(m, u, np)
  {
    KeptIsLayout(t, i, chunk, np, |m|);
    var u := WithPages(t, Kept(t.pages, i, chunk, np));
    forall a | 0 <= a < np ensures PageLinked(m, u, a, |u.lines|) {
      var x := if i + chunk < np then Source(a, i, chunk, np) else a;
      assert u.pages[a] == t.pages[x];
      SamePageLinked(m, t, x, u, a);
    }
  }

  lemma SamePageLinked(m: seq<int>, t: Layout, x: nat, u: Layout, a: nat)
    requires t.Valid() && t.Fits(|m|) && u.Valid() && u.Fits(|m|) && u == WithPages(t, u.pages)
    requires x < |t.pages| && a < |u.pages| && u.pages[a] == t.pages[x] && PageLinked(m, t, x, |t.lines|)
    ensures PageLinked(m, u, a, |u.lines|)
  {
    forall j, j', k | 0 <= j && j' == j + 1 && j' < |u.lines| && 0 <= k < |u.words|
      ensures m[u.At(a, j, k)] == u.At(a, j', k)
    {
      assert m[t.At(x, j, k)] == t.At(x, j', k);
    }
  }

  lemma BackToWithin(m: seq<int>, t: Layout, i: nat, chunk: nat, np: nat)
    requires t.Valid() && t.Fits(|m|) && i + chunk <= np <= |t.pages|
    requires var u := WithPages(t, Kept(t.pages, i, chunk, np)); u.Valid() && u.Fits(|m|) && WithinLinked(m, u, np)
    ensures WithinLinked(m, t, np)
  {
    var u := WithPages(t, Kept(t.pages, i, chunk, np));
    if i + chunk < np {
      TradedTwice(t.pages, i, chunk, np);
    }
    KeptWithinLinked(m, u, i, chunk, np);
  }

  lemma MeasuredWithin(m: seq<int>, t: Layout, n: nat)
    requires t.Valid() && t.Fits(|m|) && 0 < n <= |t.pages| && LinkedFor(m, t, n - 1, |t.lines|)
    ensures WithinLinked(m, t, n)
  {
  }

  /** Measuring fewer pages keeps the inner links of all of them. */
  lemma MeasuredKeepsAll(m: seq<int>, m': seq<int>, t: Layout, n: nat, np: nat)
    requires t.Valid() && t.Fits(|m|) && n <= np <= |t.pages| && WithinLinked(m, t, np)
    requires |m'| == |m| && WithinLinked(m', t, n) && SameButLastLines(m, m', t, n)
    ensures WithinLinked(m', t, np)
  {
    forall i | n <= i < np ensures PageLinked(m', t, i, |t.lines|) {
      forall j, j', k | 0 <= j && j' == j + 1 && j' < |t.lines| && 0 <= k < |t.words|
        ensures m'[t.At(i, j, k)] == t.At(i, j', k)
      {
        var x := t.At(i, j, k);
        assert PageLinked(m, t, i, |t.lines|);
        assert m[t.At(i, j, k)] == t.At(i, j', k);
        NotInLastLines(t, n, i, j, k);
      }
    }
  }

  lemma NotInLastLines(t: Layout, n: nat, i: nat, j: nat, k: nat)
    requires t.Valid() && n <= i < |t.pages| && j < |t.lines| && k < |t.words|
    ensures !InLastLine(t, n, t.At(i, j, k))
  {
    var x, l := t.At(i, j, k), t.lines[|t.lines| - 1];
    forall a | 0 <= a < n ensures !(t.pages[a] + l <= x < t.pages[a] + l + t.lineWords) {
      OtherPage(t, i, j, k, a);
    }
  }

  /** Times the walk over the np pages without pages[i..i + chunk), and restores the list. */
  method RemoveChunk(mem: array<int>, pages: array<int>, t: Layout, i: nat, chunk: nat, np: nat, last: nat, derefs: nat)
    returns (p: int, ghost during: seq<int>)
    requires t.Valid() && t.Fits(mem.Length) && FullLines(t) && t.pages == pages[..] && pages != mem
    requires i + chunk <= np <= |t.pages| && chunk < np && 1 <= last <= |t.lines|
    requires WithinLinked(mem[..], t, np)
    modifies mem, pages
    ensures pages[..] == old(pages[..]) && WithinLinked(mem[..], t, np)
    ensures SameButLastLines(old(mem[..]), mem[..], t, np)
    ensures Cycle(during, ChunkWalk(t, i, chunk, np, last))
    ensures p == Turned(ChunkWalk(t, i, chunk, np, last), derefs)
  {
    if i + chunk < np {
      SwapChunk(pages, i, chunk, np);
    }
    p, during := MeasureOthers(mem, t, pages[..], i, chunk, np, last, derefs);
    if i + chunk < np {
      SwapChunk(pages, i, chunk, np);
      TradedTwice(t.pages, i, chunk, np);
    }
  }

  method MeasureOthers(mem: array<int>, t: Layout, others: seq<int>, i: nat, chunk: nat, np: nat, last: nat,
                       derefs: nat)
    returns (p: int, ghost during: seq<int>)
    requires t.Valid() && t.Fits(mem.Length) && FullLines(t) && i + chunk <= np <= |t.pages| && chunk < np
    requires 1 <= last <= |t.lines| && WithinLinked(mem[..], t, np) && others == Kept(t.pages, i, chunk, np)
    modifies mem
    ensures WithinLinked(mem[..], t, np) && SameButLastLines(old(mem[..]), mem[..], t, np)
    ensures Cycle(during, ChunkWalk(t, i, chunk, np, last))
    ensures p == Turned(ChunkWalk(t, i, chunk, np, last), derefs)
  {
    var u, n := t.(pages := others), np - chunk;
    ghost var before := mem[..];
    KeptLinkedFor(before, t, u, i, chunk, np, n);
    p, during := Measure(mem, u, n, last, derefs, |t.lines|);
    ChunkKeepsAll(before, mem[..], t, u, i, chunk, np, n);
    ChunkOnlyLastLines(before, mem[..], t, u, i, chunk, np, n);
  }

  lemma KeptLinkedFor(m: seq<int>, t: Layout, u: Layout, i: nat, chunk: nat, np: nat, n: nat)
    requires t.Valid() && t.Fits(|m|) && i + chunk <= np <= |t.pages| && chunk < np && WithinLinked(m, t, np)
    requires u == WithPages(t, Kept(t.pages, i, chunk, np)) && n == np - chunk
    ensures u.Valid() && u.Fits(|m|) && |u.pages| == |t.pages| && LinkedFor(m, u, n - 1, |t.lines|)
  {
    KeptIsLayout(t, i, chunk, np, |m|);
    KeptWithinLinked(m, t, i, chunk, np);
  }

  lemma ChunkKeepsAll(m: seq<int>, m': seq<int>, t: Layout, u: Layout, i: nat, chunk: nat, np: nat, n: nat)
    requires t.Valid() && t.Fits(|m|) && i + chunk <= np <= |t.pages| && chunk < np && WithinLinked(m, t, np)
    requires u == WithPages(t, Kept(t.pages, i, chunk, np)) && n == np - chunk
    requires u.Valid() && u.Fits(|m|) && |m'| == |m| && n <= |u.pages|
    requires LinkedFor(m', u, n - 1, |t.lines|) && SameButLastLines(m, m', u, n)
    ensures WithinLinked(m', t, np)
  {
    KeptWithinLinked(m, t, i, chunk, np);
    MeasuredWithin(m', u, n);
    MeasuredKeepsAll(m, m', u, n, np);
    BackToWithin(m', t, i, chunk, np);
  }

  lemma ChunkOnlyLastLines(m: seq<int>, m': seq<int>, t: Layout, u: Layout, i: nat, chunk: nat, np: nat, n: nat)
    requires i + chunk <= np <= |t.pages| && chunk < np && |t.lines| > 0
    requires u == WithPages(t, Kept(t.pages, i, chunk, np)) && n == np - chunk && n <= |u.pages|
    requires SameButLastLines(m, m', u, n)
    ensures SameButLastLines(m, m', t, np)
  {
    forall x | 0 <= x < |m| && m'[x] != m[x] ensures InLastLine(t, np, x) {
      assert InLastLine(u, n, x);
      var lo := t.lines[|t.lines| - 1];
      var a :| 0 <= a < n && u.pages[a] + lo <= x < u.pages[a] + lo + t.lineWords;
      KeptIsOutside(t.pages, i, chunk, np, a);
    }
  }

  ghost function ChunkWalk(t: Layout, i: nat, chunk: nat, np: nat, last: nat): seq<int>
    requires i + chunk <= np <= |t.pages| && chunk < np && 1 <= last <= |t.lines|
  {
    Order(WithPages(t, Kept(t.pages, i, chunk, np)), np - chunk, |t.lines|, last)
  }

  /** No word of a page in the chunk is on the walk. */
  lemma ChunkNotWalked(t: Layout, i: nat, chunk: nat, np: nat, last: nat, a: int)
    requires t.Valid() && i + chunk <= np <= |t.pages| && chunk < np && 1 <= last <= |t.lines|
    requires a in ChunkWalk(t, i, chunk, np, last)
    ensures exists y :: 0 <= y < np && !InChunk(y, i, chunk) && OnPage(t, y, |t.lines|, a)
  {
    var u := WithPages(t, Kept(t.pages, i, chunk, np));
    OnWalkIsVisited(u, np - chunk, |t.lines|, last, a);
    var x :| 0 <= x < np - chunk && OnPage(u, x, Count(x, np - chunk, |t.lines|, last), a);
    KeptIsOutside(t.pages, i, chunk, np, x);
    var y :| 0 <= y < np && !InChunk(y, i, chunk) && u.pages[x] == t.pages[y];
    MovedPage(t, y, u, x, Count(x, np - chunk, |t.lines|, last), a);
  }

  lemma MovedPage(t: Layout, y: nat, u: Layout, x: nat, n: nat, a: int)
    requires u == WithPages(t, u.pages) && x < |u.pages| && y < |t.pages| && u.pages[x] == t.pages[y]
    requires n <= |t.lines| && OnPage(u, x, n, a)
    ensures OnPage(t, y, |t.lines|, a)
  {
    var j, k :| 0 <= j < n && 0 <= k < |u.words| && a == u.At(x, j, k);
    assert a == t.At(y, j, k);
  }

  // ----- check_memory -----

  /** The page a word lies on, as the code computes it. */
  function PageOf(a: int, pageWords: nat): int
    requires pageWords > 0
  {
    a - a % pageWords
  }

  predicate OnListedPage(pages: seq<int>, np: nat, page: int)
    requires np <= |pages|
  {
    exists j :: 0 <= j < np && page == pages[j]
  }

  /** Searches the list from `first` on, then from the start. */
  method FindPage(pages: seq<int>, np: nat, page: int, first: nat) returns (found: bool, next: nat)
    requires first < np <= |pages|
    ensures found <==> OnListedPage(pages, np, page)
    ensures next < np
  {
    var j := first;
    while j < np && page != pages[j]
      invariant first <= j <= np && forall x :: first <= x < j ==> page != pages[x]
    {
      j := j + 1;
    }
    found := true;
    if j == np {
      j := 0;
      while j < first && page != pages[j]
        invariant 0 <= j <= first && forall x :: 0 <= x < j ==> page != pages[x]
      {
        j := j + 1;
      }
      found := j != first;
    }
    next := j % np;
  }

  /** The second pointer of the walk: it moves every other step. */
  function Slow(n: nat): nat
    requires n > 0
  {
    1 + (n - 1) / 2
  }

  // ----- where the two pointers are -----

  lemma {:induction false} FollowOn(m: seq<int>, p: int, a: nat, b: nat)
    ensures Follow(m, p, a + b) == Follow(m, Follow(m, p, a), b)
  {
    if b > 0 {
      FollowOn(m, p, a, b - 1);
    }
  }

  /** The chain from `start` never leaves the memory. */
  ghost predicate Stays(m: seq<int>, start: int) {
    forall n: nat :: 0 <= Follow(m, start, n) < |m|
  }

  /** After n steps, and not before, the chain is back where it began. */
  ghost predicate BackAfter(m: seq<int>, start: int, n: nat) {
    n > 0 && Follow(m, start, n) == start && forall k :: 0 < k < n ==> Follow(m, start, k) != start
  }

  ghost predicate Returns(m: seq<int>, start: int) { exists n: nat :: BackAfter(m, start, n) }

  /** The words behind the two pointers at count n are the same. */
  ghost predicate Meet(m: seq<int>, start: int, n: nat)
    requires n > 0
  {
    Follow(m, start, n + 1) == Follow(m, start, Slow(n) + 1)
  }

  /** A chain that comes back visits different words. */
  lemma AllDifferent(m: seq<int>, start: int, n: nat, a: nat, b: nat)
    requires BackAfter(m, start, n) && 0 < a < b <= n
    ensures Follow(m, start, a) != Follow(m, start, b)
  {
    FollowOn(m, start, a, n - b);
    FollowOn(m, start, b, n - b);
    assert Follow(m, start, a + (n - b)) != start;
  }

  lemma NeverMeet(m: seq<int>, start: int, n: nat, c: nat)
    requires BackAfter(m, start, n) && 2 <= c <= n
    ensures !Meet(m, start, c)
  {
    if c == n {
      FollowOn(m, start, n, 1);
      AllDifferent(m, start, n, 1, Slow(c) + 1);
    } else {
      AllDifferent(m, start, n, Slow(c) + 1, c + 1);
    }
  }

  /** A chain that does not come back runs into a cycle that does not contain its start: from entry a
      on it repeats every d steps. */
  lemma RunsIntoCycle(m: seq<int>, start: int) returns (a: nat, d: nat)
    requires Stays(m, start)
    ensures d > 0 && Follow(m, start, a) == Follow(m, start, a + d)
  {
    var s := seq(|m| + 1, n requires 0 <= n => Follow(m, start, n));
    var b;
    a, b := Pigeonhole(s, |m|);
    d := b - a;
  }

  lemma {:induction false} Repeats(m: seq<int>, start: int, a: nat, d: nat, n: nat, k: nat)
    requires Follow(m, start, a) == Follow(m, start, a + d) && n >= a
    ensures Follow(m, start, n + k * d) == Follow(m, start, n)
    decreases k
  {
    if k > 0 {
      Repeats(m, start, a, d, n, k - 1);
      OneMore(k - 1, d);
      var x := n + (k - 1) * d - a;
      MulLe(0, k - 1, d);
      FollowOn(m, start, a, x);
      FollowOn(m, start, a + d, x);
      assert a + x + d == n + k * d;
    }
  }

  /** On it the two pointers come to the same word. */
  lemma MustMeet(m: seq<int>, start: int) returns (c: nat)
    requires Stays(m, start)
    ensures c >= 2 && Meet(m, start, c)
  {
    var a, d := RunsIntoCycle(m, start);
    var x := (a + 1) * d;
    AtLeastOnce(d, a + 1);
    c := 2 * x + 1;
    assert Slow(c) == 1 + x;
    Repeats(m, start, a, d, x + 2, a + 1);
  }

  /** A chain comes back exactly if it is one cycle. */
  lemma BackIsCycle(m: seq<int>, s: seq<int>)
    requires Cycle(m, s)
    ensures BackAfter(m, s[0], |s|) && Stays(m, s[0])
  {
    forall n: nat ensures Follow(m, s[0], n) == s[n % |s|] && 0 <= s[n % |s|] < |m| {
      FollowCycle(m, s, n);
    }
    ModUnique(|s|, |s|, 1, 0);
    forall k | 0 < k < |s| ensures Follow(m, s[0], k) != s[0] {
      ModUnique(k, |s|, 0, k);
    }
  }

  /** When the check is through, at the latest. */
  ghost predicate EndsBy(m: seq<int>, start: int, c: nat) {
    c > 0 && if Returns(m, start) then BackAfter(m, start, c) else c >= 2 && Meet(m, start, c)
  }

  lemma Ends(m: seq<int>, start: int) returns (c: nat)
    requires Stays(m, start)
    ensures EndsBy(m, start, c)
  {
    if n: nat :| BackAfter(m, start, n) {
      c := n;
    } else {
      c := MustMeet(m, start);
    }
  }

  /** The part of the loop that moves the pointers, and the comparison after it. */
  method Advance(mem: array<int>, p: int, q: int, count: nat, ghost start: int) returns (p': int, q': int, meet: bool)
    requires Stays(mem[..], start) && 2 <= count
    requires p == Follow(mem[..], start, count - 1) && q == Follow(mem[..], start, Slow(count - 1))
    ensures p' == Follow(mem[..], start, count) && q' == Follow(mem[..], start, Slow(count))
    ensures meet <==> Meet(mem[..], start, count)
  {
    p' := mem[p];
    q' := q;
    if count % 2 == 1 {
      q' := mem[q];
    }
    assert Slow(count) == if count % 2 == 1 then Slow(count - 1) + 1 else Slow(count - 1);
    assert 0 <= Follow(mem[..], start, count) < mem.Length && 0 <= Follow(mem[..], start, Slow(count)) < mem.Length;
    meet := mem[p'] == mem[q'];
  }

  /** Some word of the chain, between its second and number n, lies on no listed page. */
  ghost predicate Stray(pages: seq<int>, pageWords: nat, np: nat, m: seq<int>, start: int, n: nat)
    requires pageWords > 0 && np <= |pages|
  {
    exists x :: 1 <= x < n && !OnListedPage(pages, np, PageOf(Follow(m, start, x), pageWords))
  }

  /** On a chain that stays in the memory the check comes to an end.  It complains of an unwanted
      cycle exactly when the chain does not come back to its start; otherwise of a bad reference
      exactly when some word lies on no listed page, and of a wrong count exactly when the chain has
      not the expected length. */
  method CheckMemory(mem: array<int>, pages: seq<int>, pageWords: nat, np: nat, start: int, nwords: nat)
    returns (bad: bool, unwanted: bool, wrong: bool)
    requires pageWords > 0 && 0 < np <= |pages| && Stays(mem[..], start)
    ensures unwanted <==> !Returns(mem[..], start)
    ensures forall n: nat :: BackAfter(mem[..], start, n) ==>
              && (bad <==> Stray(pages, pageWords, np, mem[..], start, n))
              && (wrong <==> n != nwords)
    ensures unwanted ==> !wrong
  {
    bad, unwanted, wrong := false, false, false;
    ghost var m := mem[..];
    ghost var last := Ends(m, start);
    var count: nat, first: nat := 1, 0;
    assert 0 <= Follow(m, start, 0) < mem.Length && 0 <= Follow(m, start, 1) < mem.Length;
    var p := mem[start];
    var q := p;
    while p != start
      invariant Walking(m, start, count, last, p, q) && first < np
      invariant bad <==> Stray(pages, pageWords, np, m, start, count)
      decreases last - count
    {
      var found;
      found, first := FindPage(pages, np, PageOf(p, pageWords), first);
      if !found {
        bad := true;
      }
      count := count + 1;
      p, q, unwanted := Advance(mem, p, q, count, start);
      WalkOn(m, start, count, last, p, q);
      if unwanted {
        return;
      }
    }
    OneReturn(m, start, count);
    if count != nwords {
      wrong := true;
    }
  }

  /** Where the loop stands: neither is the chain back, nor did the pointers meet. */
  ghost predicate Walking(m: seq<int>, start: int, count: nat, last: nat, p: int, q: int) {
    && 1 <= count <= last && p == Follow(m, start, count) && q == Follow(m, start, Slow(count))
    && (forall k :: 0 < k < count ==> Follow(m, start, k) != start)
    && (!Returns(m, start) ==> count < last)
  }

  lemma WalkOn(m: seq<int>, start: int, count: nat, last: nat, p: int, q: int)
    requires EndsBy(m, start, last) && 2 <= count && p == Follow(m, start, count) && q == Follow(m, start, Slow(count))
    requires forall k :: 0 < k < count ==> Follow(m, start, k) != start
    requires count - 1 <= last && (!Returns(m, start) ==> count - 1 < last)
    ensures if Meet(m, start, count) then !Returns(m, start) else Walking(m, start, count, last, p, q)
  {
    if Returns(m, start) {
      NeverMeet(m, start, last, count);
    }
  }

  lemma OneReturn(m: seq<int>, start: int, n: nat)
    requires BackAfter(m, start, n)
    ensures Returns(m, start) && forall k: nat :: BackAfter(m, start, k) ==> k == n
  {
  }

  // ----- what the check says of a measured walk -----

  ghost predicate Aligned(t: Layout) {
    t.pageWords > 0 && forall i :: 0 <= i < |t.pages| ==> t.pages[i] % t.pageWords == 0
  }

  lemma PageOfWord(t: Layout, i: nat, j: nat, k: nat)
    requires t.Valid() && Aligned(t) && i < |t.pages| && j < |t.lines| && k < |t.words| && t.pages[i] >= 0
    ensures PageOf(t.At(i, j, k), t.pageWords) == t.pages[i]
  {
    var p, r := t.pageWords, t.lines[j] + t.words[k];
    var q := t.pages[i] / p;
    assert t.pages[i] == q * p;
    ModUnique(t.At(i, j, k), p, q, r);
  }

  /** Lines of the last page that `measure` uses for a size. */
  function LastOf(g: Geometry, size: nat): nat
    requires g.PageBytes() > 0 && g.LineBytes() > 0
  {
    if size % g.PageBytes() != 0 then size % g.PageBytes() / g.LineBytes() else g.nlines
  }

  /** For a size of whole lines the walk has exactly size / word bytes steps. */
  lemma MeasuredWords(t: Layout, g: Geometry, size: nat)
    requires g.Valid() && size > 0 && g.PageBytes() > 0 && g.LineBytes() > 0 && size % g.LineBytes() == 0
    requires t.Valid() && |t.lines| == g.nlines && |t.words| == g.lineWords && g.Pages(size) <= |t.pages|
    ensures 0 < g.Pages(size) && 1 <= LastOf(g, size) <= g.nlines
    ensures |Order(t, g.Pages(size), g.nlines, LastOf(g, size))| == size / g.wordBytes
  {
    LinesOfSize(size, g.LineBytes(), g.nlines, g.PageBytes(), g.Pages(size));
    var np, last := g.Pages(size), LastOf(g, size);
    OrderLength(t, np, g.nlines, last);
    WordsOfSize(g, size);
  }

  lemma WordsOfSize(g: Geometry, size: nat)
    requires g.Valid() && g.LineBytes() > 0 && size % g.LineBytes() == 0
    ensures g.lineWords * (size / g.LineBytes()) == size / g.wordBytes
  {
    assert size == (size / g.LineBytes()) * g.LineBytes();
    WordsOfLines(size, g.wordBytes, g.lineWords, size / g.LineBytes());
  }

  lemma LinesOfSize(size: nat, line: nat, nlines: nat, page: nat, np: nat)
    requires size > 0 && line > 0 && nlines > 0 && page == line * nlines && page > 0 && size % line == 0
    requires np == (size + page - 1) / page
    ensures var last := if size % page != 0 then size % page / line else nlines;
            0 < np && 1 <= last <= nlines && (np - 1) * nlines + last == size / line
  {
    var n, a, b := LineSplit(size, line, nlines);
    var rest := b * line;
    RestInPage(size, line, nlines, page, a, b, rest);
    PagesOf(size, page, a, rest);
    ModUnique(rest, line, b, 0);
    assert np == a + 1;
    assert (if size % page != 0 then size % page / line else nlines) == b;
  }

  lemma LineSplit(size: nat, line: nat, nlines: nat) returns (n: nat, a: nat, b: nat)
    requires size > 0 && line > 0 && nlines > 0 && size % line == 0
    ensures n == size / line && n == a * nlines + b && size == (a * nlines + b) * line && 1 <= b <= nlines
  {
    n := size / line;
    AtLeastOneLine(size, line);
    assert size == n * line;
    a, b := (n - 1) / nlines, (n - 1) % nlines + 1;
  }

  lemma PagesOf(size: nat, page: nat, a: nat, rest: nat)
    requires 0 < rest <= page && size == a * page + rest && size + page - 1 == (a + 1) * page + (rest - 1)
    ensures (size + page - 1) / page == a + 1
    ensures size % page == if rest < page then rest else 0
  {
    ModUnique(size + page - 1, page, a + 1, rest - 1);
    if rest < page {
      ModUnique(size, page, a, rest);
    } else {
      assert (a + 1) * page == a * page + page;
      ModUnique(size, page, a + 1, 0);
    }
  }

  lemma RestInPage(size: nat, line: nat, nlines: nat, page: nat, a: nat, b: nat, rest: nat)
    requires line > 0 && page == line * nlines && 1 <= b <= nlines && rest == b * line
    requires size == (a * nlines + b) * line
    ensures 0 < rest <= page && (b < nlines ==> rest < page) && (b == nlines ==> rest == page)
    ensures size == a * page + rest && size + page - 1 == (a + 1) * page + (rest - 1)
  {
    AtLeastOnce(b, line);
    AtLeastOnce(nlines - b, line);
    assert (nlines - b) * line == nlines * line - b * line;
    assert (a * nlines) * line == a * page;
  }

  lemma WordsOfLines(size: nat, w: nat, lineWords: nat, n: nat)
    requires w > 0 && size == n * (w * lineWords)
    ensures lineWords * n == size / w
  {
    assert n * (w * lineWords) == (lineWords * n) * w;
    ModUnique(size, w, lineWords * n, 0);
  }

  ghost predicate AllListed(pages: seq<int>, pageWords: nat, np: nat, s: seq<int>)
    requires pageWords > 0 && np <= |pages|
  {
    forall x :: 0 <= x < |s| ==> OnListedPage(pages, np, PageOf(s[x], pageWords))
  }

  lemma NoneStray(m: seq<int>, s: seq<int>, pages: seq<int>, pageWords: nat, np: nat)
    requires Cycle(m, s) && pageWords > 0 && np <= |pages| && AllListed(pages, pageWords, np, s)
    ensures Stays(m, s[0]) && BackAfter(m, s[0], |s|) && !Stray(pages, pageWords, np, m, s[0], |s|)
  {
    BackIsCycle(m, s);
    forall x: nat | x < |s| ensures Follow(m, s[0], x) == s[x] {
      FollowCycle(m, s, x);
      ModUnique(x, |s|, 0, x);
    }
  }

  /** Main result: while a whole number of lines is measured the check has nothing to say. */
  lemma NoComplaint(t: Layout, g: Geometry, size: nat)
    requires g.Valid() && size > 0 && g.PageBytes() > 0 && g.LineBytes() > 0 && size % g.LineBytes() == 0
    requires t.Valid() && Aligned(t) && |t.lines| == g.nlines && |t.words| == g.lineWords && g.Pages(size) <= |t.pages|
    requires forall i :: 0 <= i < |t.pages| ==> t.pages[i] >= 0
    ensures 0 < g.Pages(size) && 1 <= LastOf(g, size) <= g.nlines
    ensures var s := Order(t, g.Pages(size), g.nlines, LastOf(g, size));
            |s| == size / g.wordBytes && AllListed(t.pages, t.pageWords, g.Pages(size), s)
  {
    MeasuredWords(t, g, size);
    var np, last := g.Pages(size), LastOf(g, size);
    var s := Order(t, np, g.nlines, last);
    forall x | 0 <= x < |s| ensures OnListedPage(t.pages, np, PageOf(s[x], t.pageWords)) {
      WordOnListedPage(t, np, last, s[x]);
    }
  }

  lemma WordOnListedPage(t: Layout, np: nat, last: nat, a: int)
    requires t.Valid() && Aligned(t) && 0 < np <= |t.pages| && 1 <= last <= |t.lines|
    requires forall i :: 0 <= i < |t.pages| ==> t.pages[i] >= 0
    requires a in Order(t, np, |t.lines|, last)
    ensures OnListedPage(t.pages, np, PageOf(a, t.pageWords))
  {
    OnWalkIsVisited(t, np, |t.lines|, last, a);
    var i :| 0 <= i < np && OnPage(t, i, Count(i, np, |t.lines|, last), a);
    var j, k :| 0 <= j < |t.lines| && 0 <= k < |t.words| && a == t.At(i, j, k);
    PageOfWord(t, i, j, k);
  }
}
