/** cache.c: measuring a prefix of the pages, leaving some pages out, and the walk check. */
module Cache {
  import opened Chains
  import opened Layouts
  import opened LibMem

  /** The lines of each of the first np pages are linked in full. */
  ghost predicate WithinLinked(m: seq<int>, t: Layout, np: nat)
    requires np <= |t.pages| && t.Valid() && t.Fits(|m|)
  {
    forall i :: 0 <= i < np ==> PageLinked(m, t, i, |t.lines|)
  }

  /** Word x belongs to the last line, in table order, of one of the first n pages. */
  ghost predicate InLastLine(t: Layout, n: nat, x: int)
    requires n <= |t.pages| && |t.lines| > 0
  {
    exists i :: 0 <= i < n &&
      t.pages[i] + t.lines[|t.lines| - 1] <= x < t.pages[i] + t.lines[|t.lines| - 1] + t.lineWords
  }

  ghost predicate SameButLastLines(m: seq<int>, m': seq<int>, t: Layout, n: nat)
    requires n <= |t.pages| && |t.lines| > 0
  {
    && |m| == |m'|
    && forall x :: 0 <= x < |m| && m'[x] != m[x] ==> InLastLine(t, n, x)
  }

  lemma LineWrite(m: seq<int>, m': seq<int>, m'': seq<int>, t: Layout, i: nat)
    requires t.Valid() && i < |t.pages| && SameButLastLines(m, m', t, i)
    requires var lo := t.pages[i] + t.lines[|t.lines| - 1]; SameExcept(m', m'', lo, lo + t.lineWords)
    ensures SameButLastLines(m, m'', t, i + 1)
  {
    forall x | 0 <= x < |m| && m''[x] != m[x] ensures InLastLine(t, i + 1, x) {
      if m'[x] != m[x] {
        assert InLastLine(t, i, x);
      }
    }
  }

  /** Like the crossing of lib_mem.c, with the exact line that is written. */
  method CrossLastLine(mem: array<int>, t: Layout, i: nat)
    requires t.Valid() && t.Fits(mem.Length) && i + 1 < |t.pages| && PageLinked(mem[..], t, i, |t.lines|)
    modifies mem
    ensures PageLinked(mem[..], t, i, |t.lines|) && Crossed(mem[..], t, i, |t.lines|, i + 1)
    ensures var lo := t.pages[i] + t.lines[|t.lines| - 1]; SameExcept(old(mem[..]), mem[..], lo, lo + t.lineWords)
    ensures SameExcept(old(mem[..]), mem[..], t.pages[i], t.pages[i] + t.pageWords)
  {
    ghost var before := mem[..];
    var j := |t.lines| - 1;
    LinkWords(mem, t, t.pages[i] + t.lines[j], t.pages[i + 1] + t.lines[0]);
    PageLinkedLineFrame(before, mem[..], t, i, j);
    NarrowWrite(before, mem[..], t, i, j);
  }

  /** The pages before number n are linked in full, page n up to its first c lines. */
  ghost predicate LinkedFor(m: seq<int>, t: Layout, n: nat, c: nat)
    requires n < |t.pages| && c <= |t.lines| && t.Valid() && t.Fits(|m|)
  {
    WithinLinked(m, t, n) && PageLinked(m, t, n, c)
  }

  /** Joins the pages in their current order. */
  method JoinPages(mem: array<int>, t: Layout, np: nat, ghost c: nat)
    requires t.Valid() && t.Fits(mem.Length) && 0 < np <= |t.pages| && c <= |t.lines|
    requires LinkedFor(mem[..], t, np - 1, c)
    modifies mem
    ensures LinkedTo(mem[..], t, np - 1, |t.lines|) && LinkedFor(mem[..], t, np - 1, c)
    ensures SameButLastLines(old(mem[..]), mem[..], t, np - 1)
  {
    for i := 0 to np - 1
      invariant LinkedTo(mem[..], t, i, |t.lines|) && LinkedFor(mem[..], t, np - 1, c)
      invariant SameButLastLines(old(mem[..]), mem[..], t, i)
    {
      JoinPage(mem, t, np, c, i, old(mem[..]));
    }
  }

  method JoinPage(mem: array<int>, t: Layout, np: nat, ghost c: nat, i: nat, ghost first: seq<int>)
    requires t.Valid() && t.Fits(mem.Length) && i + 1 < np <= |t.pages| && c <= |t.lines|
    requires LinkedFor(mem[..], t, np - 1, c)
    requires LinkedTo(mem[..], t, i, |t.lines|) && SameButLastLines(first, mem[..], t, i)
    modifies mem
    ensures LinkedTo(mem[..], t, i + 1, |t.lines|) && LinkedFor(mem[..], t, np - 1, c)
    ensures SameButLastLines(first, mem[..], t, i + 1)
  {
    ghost var before := mem[..];
    CrossLastLine(mem, t, i);
    LinkedToFrame(before, mem[..], t, i, |t.lines|);
    LineWrite(first, before, mem[..], t, i);
    WithinFrame(before, mem[..], t, np - 1, i);
    PageLinkedFrame(before, mem[..], t, np - 1, c, i);
  }

  lemma WithinFrame(m: seq<int>, m': seq<int>, t: Layout, np: nat, p: nat)
    requires t.Valid() && t.Fits(|m|) && p < np <= |t.pages| && WithinLinked(m, t, np)
    requires SameExcept(m, m', t.pages[p], t.pages[p] + t.pageWords) && PageLinked(m', t, p, |t.lines|)
    ensures WithinLinked(m', t, np)
  {
    forall i | 0 <= i < np ensures PageLinked(m', t, i, |t.lines|) {
      if i != p {
        PageLinkedFrame(m, m', t, i, |t.lines|, p);
      }
    }
  }

  /** Closes the ring after `last` lines of the last page. */
  method CloseRing(mem: array<int>, t: Layout, np: nat, last: nat)
    requires t.Valid() && t.Fits(mem.Length) && 0 < np <= |t.pages| && 1 <= last <= |t.lines|
    requires LinkedTo(mem[..], t, np - 1, |t.lines|) && PageLinked(mem[..], t, np - 1, last)
    modifies mem
    ensures Linked(mem[..], t, np, |t.lines|, last)
    ensures var lo := t.pages[np - 1] + t.lines[last - 1]; SameExcept(old(mem[..]), mem[..], lo, lo + t.lineWords)
  {
    ghost var before := mem[..];
    var i, j := np - 1, last - 1;
    LinkNextWords(mem, t, t.pages[i] + t.lines[j], t.pages[0] + t.lines[0]);
    PageLinkedLineFrame(before, mem[..], t, i, j);
    NarrowWrite(before, mem[..], t, i, j);
    LinkedToFrame(before, mem[..], t, i, |t.lines|);
    AllLinked(mem[..], t, np, |t.lines|, last);
  }

  /** Only words of the line tables are used: with full tables every word of a line is one. */
  ghost predicate FullLines(t: Layout) {
    forall o :: 0 <= o < t.lineWords ==> o in t.words
  }

  lemma SameLine(m: seq<int>, d: seq<int>, r: seq<int>, t: Layout, i: nat, j: nat, c: nat)
    requires t.Valid() && t.Fits(|m|) && FullLines(t) && i < |t.pages| && j + 1 < c <= |t.lines|
    requires PageLinked(m, t, i, c)
    requires var lo := t.pages[i] + t.lines[j];
             SameExcept(m, d, lo, lo + t.lineWords) && SameExcept(d, r, lo, lo + t.lineWords)
    requires forall k :: 0 <= k < |t.words| ==> r[t.At(i, j, k)] == t.At(i, j + 1, k)
    ensures r == m
  {
    var lo := t.pages[i] + t.lines[j];
    forall x | 0 <= x < |m| ensures r[x] == m[x] {
      if lo <= x < lo + t.lineWords {
        var o := x - lo;
        assert o in t.words;
        var k :| 0 <= k < |t.words| && t.words[k] == o;
        var j' := j + 1;
        assert m[t.At(i, j, k)] == t.At(i, j', k);
      } else {
        assert d[x] == m[x];
      }
    }
  }

  /** Times the walk over np pages, the last one with only `last` lines; c of them are linked.
      The pages keep their inner links.  Only pointers that lead out of a page change, unless
      the line after the last one measured was not linked: then it is afterwards. */
  method Measure(mem: array<int>, t: Layout, np: nat, last: nat, derefs: nat, ghost c: nat)
    returns (p: int, ghost during: seq<int>)
    requires t.Valid() && t.Fits(mem.Length) && FullLines(t) && 0 < np <= |t.pages| && 1 <= last <= c <= |t.lines|
    requires LinkedFor(mem[..], t, np - 1, c)
    modifies mem
    ensures Cycle(during, Order(t, np, |t.lines|, last)) && Order(t, np, |t.lines|, last)[0] == t.At(0, 0, 0)
    ensures p == Turned(Order(t, np, |t.lines|, last), derefs)
    ensures LinkedFor(mem[..], t, np - 1, c)
    ensures last < c || last == |t.lines| ==> SameButLastLines(old(mem[..]), mem[..], t, np)
  {
    JoinPages(mem, t, np, c);
    ghost var joined := mem[..];
    assert PageLinked(joined, t, np - 1, last);
    CloseRing(mem, t, np, last);
    during := mem[..];
    LinkedIsCycle(during, t, np, |t.lines|, last);
    p := Dereference(mem, t.pages[0] + t.lines[0] + t.words[0], derefs, Order(t, np, |t.lines|, last));
    Reopen(mem, t, np, last, c, joined, old(mem[..]));
  }

  /** Undoes the closing of a shortened last page; a full one stays closed. */
  method Reopen(mem: array<int>, t: Layout, np: nat, last: nat, ghost c: nat,
                ghost joined: seq<int>, ghost first: seq<int>)
    requires t.Valid() && t.Fits(mem.Length) && FullLines(t) && 0 < np <= |t.pages| && 1 <= last <= c <= |t.lines|
    requires |joined| == mem.Length && LinkedFor(joined, t, np - 1, c) && SameButLastLines(first, joined, t, np - 1)
    requires var lo := t.pages[np - 1] + t.lines[last - 1]; SameExcept(joined, mem[..], lo, lo + t.lineWords)
    modifies mem
    ensures LinkedFor(mem[..], t, np - 1, c)
    ensures last < c || last == |t.lines| ==> SameButLastLines(first, mem[..], t, np)
  {
    ghost var during := mem[..];
    if last < |t.lines| {
      LinkWords(mem, t, t.pages[np - 1] + t.lines[last - 1], t.pages[np - 1] + t.lines[last]);
    }
    Reopened(first, joined, during, mem[..], t, np - 1, last - 1, c);
  }

  /** d is the memory with the ring closed after line j of page i, r the one after putting that
      line back. */
  lemma Reopened(first: seq<int>, m: seq<int>, d: seq<int>, r: seq<int>, t: Layout, i: nat, j: nat, c: nat)
    requires t.Valid() && t.Fits(|m|) && FullLines(t) && i < |t.pages| && j < c <= |t.lines|
    requires LinkedFor(m, t, i, c) && SameButLastLines(first, m, t, i)
    requires var lo := t.pages[i] + t.lines[j];
             SameExcept(m, d, lo, lo + t.lineWords) && SameExcept(d, r, lo, lo + t.lineWords)
    requires j + 1 < |t.lines| ==> forall k :: 0 <= k < |t.words| ==> r[t.At(i, j, k)] == t.At(i, j + 1, k)
    ensures LinkedFor(r, t, i, c)
    ensures j + 1 < c || c == |t.lines| ==> SameButLastLines(first, r, t, i + 1)
  {
    if j + 1 < c {
      SameLine(m, d, r, t, i, j, c);
      WiderLastLines(first, r, t, i);
    } else {
      LastLineKeeps(m, r, t, i, c);
      if c == |t.lines| {
        LineWrite(first, m, r, t, i);
      }
    }
  }

  lemma WiderLastLines(m: seq<int>, m': seq<int>, t: Layout, n: nat)
    requires n < |t.pages| && |t.lines| > 0 && SameButLastLines(m, m', t, n)
    ensures SameButLastLines(m, m', t, n + 1)
  {
    forall x | 0 <= x < |m| && m'[x] != m[x] ensures InLastLine(t, n + 1, x) {
      assert InLastLine(t, n, x);
    }
  }

  lemma LastLineKeeps(m: seq<int>, d: seq<int>, t: Layout, i: nat, c: nat)
    requires t.Valid() && t.Fits(|m|) && i < |t.pages| && 1 <= c <= |t.lines| && LinkedFor(m, t, i, c)
    requires var lo := t.pages[i] + t.lines[c - 1]; SameExcept(m, d, lo, lo + t.lineWords)
    ensures LinkedFor(d, t, i, c)
  {
    PageLinkedLineFrame(m, d, t, i, c - 1);
    NarrowWrite(m, d, t, i, c - 1);
    forall a | 0 <= a < i ensures PageLinked(d, t, a, |t.lines|) {
      PageLinkedFrame(m, d, t, a, |t.lines|, i);
    }
  }
}
