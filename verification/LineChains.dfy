/** line_initialize and line_test: one pointer a line, and the shorter chain that visits only
    every few lines of a page. */
module LineChains {
  import opened BitReversal
  import opened Chains
  import opened Layouts
  import opened LibMem

  /** Only the first word of a line carries a pointer. */
  ghost predicate OneWord(t: Layout) { t.words == [0] }

  lemma WriteInLine(m: seq<int>, m': seq<int>, t: Layout, i: nat, j: nat)
    requires t.Valid() && OneWord(t) && i < |t.pages| && j < |t.lines|
    requires SameExcept(m, m', t.At(i, j, 0), t.At(i, j, 0) + 1)
    ensures SameExcept(m, m', t.pages[i] + t.lines[j], t.pages[i] + t.lines[j] + t.lineWords)
    ensures SameExcept(m, m', t.pages[i], t.pages[i] + t.pageWords)
  {
  }

  /** Sets the pointer of line j of page i and nothing else. */
  method SetPointer(mem: array<int>, t: Layout, i: nat, j: nat, target: int)
    requires t.Valid() && t.Fits(mem.Length) && OneWord(t) && i < |t.pages| && j < |t.lines|
    modifies mem
    ensures mem[..] == old(mem[..])[t.At(i, j, 0) := target]
    ensures SameExcept(old(mem[..]), mem[..], t.At(i, j, 0), t.At(i, j, 0) + 1)
  {
    assert t.words[0] == 0 < t.lineWords;
    mem[t.pages[i] + t.lines[j]] := target;
  }

  /** The pointers of one page. */
  method LinkLines(mem: array<int>, t: Layout, i: nat)
    requires t.Valid() && t.Fits(mem.Length) && OneWord(t) && i < |t.pages|
    modifies mem
    ensures PageLinked(mem[..], t, i, |t.lines|)
    ensures SameExcept(old(mem[..]), mem[..], t.pages[i], t.pages[i] + t.pageWords)
  {
    var j := 0;
    while j < |t.lines| - 1
      invariant 0 <= j < |t.lines| && PageLinked(mem[..], t, i, j + 1)
      invariant SameExcept(old(mem[..]), mem[..], t.pages[i], t.pages[i] + t.pageWords)
    {
      ghost var before := mem[..];
      SetPointer(mem, t, i, j, t.pages[i] + t.lines[j + 1]);
      WriteInLine(before, mem[..], t, i, j);
      PageLinkedLineFrame(before, mem[..], t, i, j);
      ExtendPage(mem[..], t, i, j);
      j := j + 1;
    }
  }

  method LinkPageTo(mem: array<int>, t: Layout, np: nat, i: nat, i': nat)
    requires t.Valid() && t.Fits(mem.Length) && OneWord(t) && i < np <= |t.pages|
    requires i' == if i == np - 1 then 0 else i + 1
    requires LinkedTo(mem[..], t, i, |t.lines|)
    modifies mem
    ensures i < np - 1 ==> LinkedTo(mem[..], t, i + 1, |t.lines|)
    ensures i == np - 1 ==> Linked(mem[..], t, np, |t.lines|, |t.lines|)
  {
    ghost var before := mem[..];
    LinkLines(mem, t, i);
    LeadTo(mem, t, i, |t.lines| - 1, i');
    LinkedToFrame(before, mem[..], t, i, |t.lines|);
  }

  method LineInitialize(mem: array<int>, t: Layout, np: nat)
    requires t.Valid() && t.Fits(mem.Length) && OneWord(t) && 0 < np <= |t.pages|
    modifies mem
    ensures Linked(mem[..], t, np, |t.lines|, |t.lines|)
  {
    for i := 0 to np
      invariant i < np ==> LinkedTo(mem[..], t, i, |t.lines|)
      invariant i == np ==> Linked(mem[..], t, np, |t.lines|, |t.lines|)
    {
      LinkPageTo(mem, t, np, i, if i < np - 1 then i + 1 else 0);
    }
  }

  /** Line j of page i leads to the first line of page i'. */
  method LeadTo(mem: array<int>, t: Layout, i: nat, j: nat, i': nat)
    requires t.Valid() && t.Fits(mem.Length) && OneWord(t) && i < |t.pages| && i' < |t.pages| && j < |t.lines|
    requires PageLinked(mem[..], t, i, j + 1)
    modifies mem
    ensures PageLinked(mem[..], t, i, j + 1) && Crossed(mem[..], t, i, j + 1, i')
    ensures i' == 0 ==> Closed(mem[..], t, i, j + 1)
    ensures mem[..] == old(mem[..])[t.At(i, j, 0) := t.At(i', 0, 0)]
    ensures SameExcept(old(mem[..]), mem[..], t.pages[i], t.pages[i] + t.pageWords)
  {
    ghost var before := mem[..];
    SetPointer(mem, t, i, j, t.pages[i'] + t.lines[0]);
    WriteInLine(before, mem[..], t, i, j);
    PageLinkedLineFrame(before, mem[..], t, i, j);
  }

  // ----- line_test -----

  /** Memory in which the pages from n on are linked in full. */
  ghost predicate RestLinked(m: seq<int>, t: Layout, n: nat, np: nat, c: nat)
    requires np <= |t.pages| && 1 <= c <= |t.lines| && t.Valid() && t.Fits(|m|)
  {
    forall i :: n <= i < np ==> PageLinked(m, t, i, c)
  }

  /** Cuts every page after its first c lines. */
  method Shorten(mem: array<int>, t: Layout, np: nat, c: nat)
    requires t.Valid() && t.Fits(mem.Length) && OneWord(t) && 0 < np <= |t.pages| && 1 <= c <= |t.lines|
    requires RestLinked(mem[..], t, 0, np, c)
    modifies mem
    ensures Linked(mem[..], t, np, c, c)
    ensures OnlyLine(old(mem[..]), mem[..], t, np, c - 1)
  {
    var i := 0;
    while i < np - 1
      invariant 0 <= i <= np - 1 && LinkedTo(mem[..], t, i, c) && RestLinked(mem[..], t, i, np, c)
      invariant OnlyLine(old(mem[..]), mem[..], t, i, c - 1)
    {
      ShortenPage(mem, t, np, c, i, i + 1, old(mem[..]));
      i := i + 1;
    }
    ShortenPage(mem, t, np, c, i, 0, old(mem[..]));
  }

  method ShortenPage(mem: array<int>, t: Layout, np: nat, c: nat, i: nat, i': nat, ghost first: seq<int>)
    requires t.Valid() && t.Fits(mem.Length) && OneWord(t) && i < np <= |t.pages| && 1 <= c <= |t.lines|
    requires i' == if i == np - 1 then 0 else i + 1
    requires LinkedTo(mem[..], t, i, c) && RestLinked(mem[..], t, i, np, c)
    requires OnlyLine(first, mem[..], t, i, c - 1)
    modifies mem
    ensures i < np - 1 ==> LinkedTo(mem[..], t, i + 1, c)
    ensures i == np - 1 ==> Linked(mem[..], t, np, c, c)
    ensures RestLinked(mem[..], t, i + 1, np, c) && OnlyLine(first, mem[..], t, i + 1, c - 1)
  {
    ghost var before := mem[..];
    LeadTo(mem, t, i, c - 1, i');
    LinkedToFrame(before, mem[..], t, i, c);
    OnlyLineStep(first, before, mem[..], t, i, c - 1, t.At(i', 0, 0));
    RestFrame(before, mem[..], t, i, np, c);
    LinkUp(mem[..], t, np, c, i, i');
  }

  lemma LinkUp(m: seq<int>, t: Layout, np: nat, c: nat, i: nat, i': nat)
    requires t.Valid() && t.Fits(|m|) && i < np <= |t.pages| && 1 <= c <= |t.lines|
    requires i' == if i == np - 1 then 0 else i + 1
    requires LinkedTo(m, t, i, c) && PageLinked(m, t, i, c) && Crossed(m, t, i, c, i')
    requires i' == 0 ==> Closed(m, t, i, c)
    ensures i < np - 1 ==> LinkedTo(m, t, i + 1, c)
    ensures i == np - 1 ==> Linked(m, t, np, c, c)
  {
  }

  lemma OnlyLineStep(m: seq<int>, m': seq<int>, m'': seq<int>, t: Layout, i: nat, j: nat, v: int)
    requires i < |t.pages| && j < |t.lines| && OneWord(t) && OnlyLine(m, m', t, i, j)
    requires 0 <= t.At(i, j, 0) < |m'| && m'' == m'[t.At(i, j, 0) := v]
    ensures OnlyLine(m, m'', t, i + 1, j)
  {
  }

  lemma RestFrame(m: seq<int>, m': seq<int>, t: Layout, i: nat, np: nat, c: nat)
    requires i < np <= |t.pages| && 1 <= c <= |t.lines| && t.Valid() && t.Fits(|m|) && RestLinked(m, t, i, np, c)
    requires SameExcept(m, m', t.pages[i], t.pages[i] + t.pageWords)
    ensures RestLinked(m', t, i + 1, np, c)
  {
    forall a | i < a < np ensures PageLinked(m', t, a, c) {
      PageLinkedFrame(m, m', t, a, c, i);
    }
  }

  /** Only the pointers of line j on the first n pages may differ. */
  ghost predicate OnlyLine(m: seq<int>, m': seq<int>, t: Layout, n: nat, j: nat)
    requires n <= |t.pages| && j < |t.lines| && OneWord(t)
  {
    && |m| == |m'|
    && forall x :: 0 <= x < |m| && (forall i :: 0 <= i < n ==> x != t.At(i, j, 0)) ==> m'[x] == m[x]
  }

  /** Line j of each of the first n pages leads to line j + 1. */
  ghost predicate LineRestored(m: seq<int>, t: Layout, n: nat, j: nat)
    requires n <= |t.pages| && j + 1 < |t.lines| && t.Valid() && t.Fits(|m|)
  {
    forall i :: 0 <= i < n ==> m[t.At(i, j, 0)] == t.At(i, j + 1, 0)
  }

  /** Puts the pointers of line j of every page back. */
  method Restore(mem: array<int>, t: Layout, np: nat, j: nat)
    requires t.Valid() && t.Fits(mem.Length) && OneWord(t) && 0 < np <= |t.pages| && j + 1 < |t.lines|
    modifies mem
    ensures LineRestored(mem[..], t, np, j) && OnlyLine(old(mem[..]), mem[..], t, np, j)
  {
    var i := 0;
    while i < np - 1
      invariant 0 <= i <= np - 1
      invariant LineRestored(mem[..], t, i, j) && OnlyLine(old(mem[..]), mem[..], t, i, j)
    {
      PutBack(mem, t, i, j, old(mem[..]));
      i := i + 1;
    }
    PutBack(mem, t, i, j, old(mem[..]));
  }

  method PutBack(mem: array<int>, t: Layout, i: nat, j: nat, ghost first: seq<int>)
    requires t.Valid() && t.Fits(mem.Length) && OneWord(t) && i < |t.pages| && j + 1 < |t.lines|
    requires LineRestored(mem[..], t, i, j) && OnlyLine(first, mem[..], t, i, j)
    modifies mem
    ensures LineRestored(mem[..], t, i + 1, j) && OnlyLine(first, mem[..], t, i + 1, j)
  {
    SetPointer(mem, t, i, j, t.pages[i] + t.lines[j + 1]);
    forall a | 0 <= a < i ensures t.At(a, j, 0) != t.At(i, j, 0) {
      if t.At(a, j, 0) == t.At(i, j, 0) {
        AtInjective(t, a, j, 0, i, j, 0);
      }
    }
  }

  /** Cutting a line and putting it back is no change at all. */
  lemma BackAsBefore(m: seq<int>, d: seq<int>, r: seq<int>, t: Layout, np: nat, j: nat)
    requires t.Valid() && t.Fits(|m|) && OneWord(t) && 0 < np <= |t.pages| && j + 1 < |t.lines|
    requires Linked(m, t, np, |t.lines|, |t.lines|)
    requires OnlyLine(m, d, t, np, j) && OnlyLine(d, r, t, np, j) && LineRestored(r, t, np, j)
    ensures r == m
  {
    forall x | 0 <= x < |m| ensures r[x] == m[x] {
      if i :| 0 <= i < np && x == t.At(i, j, 0) {
        assert PageLinked(m, t, i, Count(i, np, |t.lines|, |t.lines|));
        var j' := j + 1;
        assert m[t.At(i, j, 0)] == t.At(i, j', 0);
      } else {
        assert d[x] == m[x];
      }
    }
  }

  /** The walk while timing: only the first n lines, in table order, of each page. */
  ghost function ShortWalk(t: Layout, np: nat, n: nat): seq<int>
    requires 0 < np <= |t.pages| && 1 <= n && |t.lines| > 0
  {
    Order(t, np, Fewer(n, |t.lines|), Fewer(n, |t.lines|))
  }

  /** Times the walk over the first n lines of each page, `derefs` dereferences from the first
      word, and leaves the memory as it was.  `during` is the memory the timed loop sees. */
  method LineTest(mem: array<int>, t: Layout, np: nat, n: nat, derefs: nat) returns (p: int, ghost during: seq<int>)
    requires t.Valid() && t.Fits(mem.Length) && OneWord(t) && 0 < np <= |t.pages| && 1 <= n
    requires Linked(mem[..], t, np, |t.lines|, |t.lines|)
    modifies mem
    ensures mem[..] == old(mem[..])
    ensures Cycle(during, ShortWalk(t, np, n))
    ensures p == Turned(ShortWalk(t, np, n), derefs)
  {
    ghost var before := mem[..];
    if n < |t.lines| {
      ShorterLinked(mem[..], t, np, n);
      Shorten(mem, t, np, n);
    }
    during := mem[..];
    ghost var walk := ShortWalk(t, np, n);
    LinkedIsCycle(during, t, np, Fewer(n, |t.lines|), Fewer(n, |t.lines|));
    p := Dereference(mem, t.pages[0] + t.lines[0], derefs, walk);
    if n < |t.lines| {
      Restore(mem, t, np, n - 1);
      BackAsBefore(before, during, mem[..], t, np, n - 1);
    }
  }

  // ----- which offsets it touches -----

  /** With a power-of-two table the first 2^m lines are the multiples of the 2^m-th part of
      the page, so the walk touches each page exactly at 0, step, 2 * step, ... */
  lemma ShortWalkOffsets(t: Layout, np: nat, b: nat, m: nat, step: nat, a: int)
    requires 0 < np <= |t.pages| && OneWord(t) && t.lineWords > 0 && m <= b
    requires t.lines == Table(Pow(b), t.lineWords) && step == Pow(b - m) * t.lineWords
    ensures a in ShortWalk(t, np, Pow(m))
            <==> exists i, x :: 0 <= i < np && 0 <= x < Pow(m) && a == t.pages[i] + Multiple(x, step)
  {
    PowMonotone(m, b);
    LogOfPow(b);
    OrderVisits(t, np, Pow(m), Pow(m), a);
    if a in ShortWalk(t, np, Pow(m)) {
      var i, j, k :| 0 <= i < np && 0 <= j < Pow(m) && 0 <= k < 1 && a == t.At(i, j, k);
      RevPrefix(b, m, j);
      RevBelow(m, j);
      ThreeFactors(Rev(m, j), Pow(b - m), t.lineWords);
      assert a == t.pages[i] + Multiple(Rev(m, j), step);
    }
    if i, x :| 0 <= i < np && 0 <= x < Pow(m) && a == t.pages[i] + Multiple(x, step) {
      var j := Rev(m, x);
      RevBelow(m, x);
      RevTwice(m, x);
      RevPrefix(b, m, j);
      ThreeFactors(x, Pow(b - m), t.lineWords);
      assert a == t.At(i, j, 0);
    }
  }

  function Multiple(x: nat, step: nat): nat { x * step }

  lemma ThreeFactors(x: nat, p: nat, w: nat)
    ensures x * p * w == Multiple(x, p * w)
  {
  }

  function Fewer(a: nat, b: nat): nat { if a < b then a else b }

  lemma ShorterLinked(m: seq<int>, t: Layout, np: nat, n: nat)
    requires t.Valid() && t.Fits(|m|) && 0 < np <= |t.pages| && 1 <= n <= |t.lines|
    requires Linked(m, t, np, |t.lines|, |t.lines|)
    ensures RestLinked(m, t, 0, np, n)
  {
    forall i | 0 <= i < np ensures PageLinked(m, t, i, n) {
      assert PageLinked(m, t, i, Count(i, np, |t.lines|, |t.lines|));
    }
  }
}
