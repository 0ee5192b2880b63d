/** The chain builders of lib_mem.c, writing into a memory of words. */
module LibMem {
  import opened Arithmetic
  import opened Chains
  import opened Layouts

  /** Only words lo..hi may differ. */
  ghost predicate SameExcept(m: seq<int>, m': seq<int>, lo: int, hi: int) {
    && |m| == |m'|
    && forall x :: 0 <= x < |m| && (x < lo || hi <= x) ==> m'[x] == m[x]
  }

  // ----- the innermost loops -----

  /** Every word of a line gets a pointer to the same word of another line. */
  method LinkLine(mem: array<int>, src: nat, dst: int, n: nat)
    requires src + n <= mem.Length
    modifies mem
    ensures forall x :: src <= x < src + n ==> mem[x] == dst + (x - src)
    ensures SameExcept(old(mem[..]), mem[..], src, src + n)
  {
    for k := 0 to n
      invariant forall x :: src <= x < src + k ==> mem[x] == dst + (x - src)
      invariant SameExcept(old(mem[..]), mem[..], src, src + n)
    {
      mem[src + k] := dst + k;
    }
  }

  /** The same for the words of a table. */
  method LinkWords(mem: array<int>, t: Layout, src: nat, dst: int)
    requires t.Valid() && src + t.lineWords <= mem.Length
    modifies mem
    ensures forall k :: 0 <= k < |t.words| ==> mem[src + t.words[k]] == dst + t.words[k]
    ensures SameExcept(old(mem[..]), mem[..], src, src + t.lineWords)
  {
    for k := 0 to |t.words|
      invariant forall a :: 0 <= a < k ==> mem[src + t.words[a]] == dst + t.words[a]
      invariant SameExcept(old(mem[..]), mem[..], src, src + t.lineWords)
    {
      assert forall a :: 0 <= a < k ==> t.words[a] != t.words[k];
      mem[src + t.words[k]] := dst + t.words[k];
    }
  }

  /** ... each word getting a pointer to the next word of the table. */
  method LinkNextWords(mem: array<int>, t: Layout, src: nat, dst: int)
    requires t.Valid() && src + t.lineWords <= mem.Length
    modifies mem
    ensures forall k :: 0 <= k < |t.words| ==> mem[src + t.words[k]] == dst + t.words[NextWord(t, k)]
    ensures SameExcept(old(mem[..]), mem[..], src, src + t.lineWords)
  {
    for k := 0 to |t.words|
      invariant forall a :: 0 <= a < k ==> mem[src + t.words[a]] == dst + t.words[NextWord(t, a)]
      invariant SameExcept(old(mem[..]), mem[..], src, src + t.lineWords)
    {
      assert forall a :: 0 <= a < k ==> t.words[a] != t.words[k];
      var nw := if k == |t.words| - 1 then 0 else k + 1;
      mem[src + t.words[k]] := dst + t.words[nw];
    }
  }

  // ----- what a write in one place leaves alone elsewhere -----

  lemma PageLinkedFrame(m: seq<int>, m': seq<int>, t: Layout, i: nat, n: nat, p: nat)
    requires t.Valid() && t.Fits(|m|) && i < |t.pages| && n <= |t.lines| && p < |t.pages| && p != i
    requires PageLinked(m, t, i, n) && SameExcept(m, m', t.pages[p], t.pages[p] + t.pageWords)
    ensures PageLinked(m', t, i, n)
  {
    forall j, j', k | 0 <= j && j' == j + 1 && j' < n && 0 <= k < |t.words|
      ensures m'[t.At(i, j, k)] == t.At(i, j', k)
    {
      OtherPage(t, i, j, k, p);
      assert m[t.At(i, j, k)] == t.At(i, j', k);
    }
  }

  lemma OtherPage(t: Layout, i: nat, j: nat, k: nat, p: nat)
    requires t.Valid() && i < |t.pages| && j < |t.lines| && k < |t.words| && p < |t.pages| && p != i
    ensures t.At(i, j, k) < t.pages[p] || t.pages[p] + t.pageWords <= t.At(i, j, k)
  {
    assert Spaced(t.pages, t.pageWords);
  }

  lemma CrossedFrame(m: seq<int>, m': seq<int>, t: Layout, i: nat, n: nat, i': nat, p: nat)
    requires t.Valid() && t.Fits(|m|) && i < |t.pages| && 1 <= n <= |t.lines| && i' < |t.pages|
    requires p < |t.pages| && p != i
    requires Crossed(m, t, i, n, i') && SameExcept(m, m', t.pages[p], t.pages[p] + t.pageWords)
    ensures Crossed(m', t, i, n, i')
  {
    forall k | 0 <= k < |t.words| ensures m'[t.At(i, n - 1, k)] == t.At(i', 0, k) {
      OtherPage(t, i, n - 1, k, p);
    }
  }

  /** Rewriting line j of page i keeps the links among the lines before it. */
  lemma PageLinkedLineFrame(m: seq<int>, m': seq<int>, t: Layout, i: nat, j: nat)
    requires t.Valid() && t.Fits(|m|) && i < |t.pages| && j < |t.lines|
    requires PageLinked(m, t, i, j + 1)
    requires SameExcept(m, m', t.pages[i] + t.lines[j], t.pages[i] + t.lines[j] + t.lineWords)
    ensures PageLinked(m', t, i, j + 1)
  {
    forall a, a', k | 0 <= a && a' == a + 1 && a' < j + 1 && 0 <= k < |t.words|
      ensures m'[t.At(i, a, k)] == t.At(i, a', k)
    {
      assert Spaced(t.lines, t.lineWords);
      assert m[t.At(i, a, k)] == t.At(i, a', k);
    }
  }

  lemma NarrowWrite(m: seq<int>, m': seq<int>, t: Layout, i: nat, j: nat)
    requires t.Valid() && i < |t.pages| && j < |t.lines|
    requires SameExcept(m, m', t.pages[i] + t.lines[j], t.pages[i] + t.lines[j] + t.lineWords)
    ensures SameExcept(m, m', t.pages[i], t.pages[i] + t.pageWords)
  {
  }

  /** The timed loop: n dereferences around a cycle `s`. */
  method Dereference(mem: array<int>, first: int, n: nat, ghost s: seq<int>) returns (p: int)
    requires Cycle(mem[..], s) && first == s[0]
    ensures p == Turned(s, n) == Follow(mem[..], first, n)
  {
    p := first;
    for a := 0 to n
      invariant p == s[Around(a, |s|)]
    {
      CycleStep(mem[..], s, Around(a, |s|));
      p := mem[p];
    }
    AroundIsMod(n, |s|);
    FollowCycle(mem[..], s, n);
  }

  // ----- mem_initialize -----

  /** Lines of the last of np pages that the chain for `npointers` lines reaches. */
  function LastLines(np: nat, nlines: nat, npointers: int): (r: nat)
    requires np > 0 && nlines > 0
    ensures 1 <= r <= nlines
  {
    var left := npointers - 1 - (np - 1) * (nlines - 1);
    if left < 0 then 1 else if left < nlines - 1 then left + 1 else nlines
  }

  /** Passes of the innermost loop over the lines. */
  function InnerSteps(np: nat, nlines: nat, npointers: int): (r: nat)
    requires np > 0 && nlines > 0
  {
    MulLe(0, np - 1, nlines - 1);
    (np - 1) * (nlines - 1) + LastLines(np, nlines, npointers) - 1
  }

  /** Passes between one starting point and the next. */
  function StartStep(npointers: nat, width: nat): nat
    requires width > 0
  {
    npointers / width
  }

  /** The loop over the lines of page i: links them while pointers are left, and records the
      starting points that fall into it. */
  method LinkPage(mem: array<int>, starts: array<int>, t: Layout, i: nat, l0: nat, npointers: int, step: nat)
    returns (j: nat, l: nat)
    requires t.Valid() && t.Fits(mem.Length) && i < |t.pages| && starts != mem
    requires step > 0 || npointers <= 1
    modifies mem, starts
    ensures l == l0 + j && j < |t.lines|
    ensures j < |t.lines| - 1 ==> l >= npointers - 1
    ensures j > 0 ==> l <= npointers - 1
    ensures PageLinked(mem[..], t, i, j + 1)
    ensures SameExcept(old(mem[..]), mem[..], t.pages[i], t.pages[i] + t.pageWords)
    ensures Recorded(old(starts[..]), starts[..], step, l0, l, t, i)
  {
    j, l := 0, l0;
    while j < |t.lines| - 1 && l < npointers - 1
      invariant l == l0 + j && j < |t.lines|
      invariant j > 0 ==> l <= npointers - 1
      invariant PageLinked(mem[..], t, i, j + 1)
      invariant SameExcept(old(mem[..]), mem[..], t.pages[i], t.pages[i] + t.pageWords)
      invariant Recorded(old(starts[..]), starts[..], step, l0, l, t, i)
    {
      LinkOneLine(mem, t, i, j);
      RecordStart(starts, t, i, j, l0, l, step, old(starts[..]));
      j, l := j + 1, l + 1;
    }
  }

  /** A word of one of the first n lines of page i. */
  ghost predicate OnPage(t: Layout, i: nat, n: nat, a: int)
    requires i < |t.pages| && n <= |t.lines|
  {
    exists j, k :: 0 <= j < n && 0 <= k < |t.words| && a == t.At(i, j, k)
  }

  method LinkOneLine(mem: array<int>, t: Layout, i: nat, j: nat)
    requires t.Valid() && t.Fits(mem.Length) && i < |t.pages| && j + 1 < |t.lines|
    requires PageLinked(mem[..], t, i, j + 1)
    modifies mem
    ensures PageLinked(mem[..], t, i, j + 2)
    ensures SameExcept(old(mem[..]), mem[..], t.pages[i], t.pages[i] + t.pageWords)
  {
    ghost var before := mem[..];
    var src, dst := t.pages[i] + t.lines[j], t.pages[i] + t.lines[j + 1];
    LinkLine(mem, src, dst, t.lineWords);
    PageLinkedLineFrame(before, mem[..], t, i, j);
    NarrowWrite(before, mem[..], t, i, j);
    assert forall k :: 0 <= k < |t.words| ==> mem[..][t.At(i, j, k)] == t.At(i, j + 1, k);
    ExtendPage(mem[..], t, i, j);
  }

  lemma ExtendPage(m: seq<int>, t: Layout, i: nat, j: nat)
    requires t.Valid() && t.Fits(|m|) && i < |t.pages| && j + 1 < |t.lines|
    requires PageLinked(m, t, i, j + 1)
    requires forall k :: 0 <= k < |t.words| ==> m[t.At(i, j, k)] == t.At(i, j + 1, k)
    ensures PageLinked(m, t, i, j + 2)
  {
  }

  /** Word number s of the table, around and around. */
  function Turn(t: Layout, s: nat): (k: nat)
    requires |t.words| > 0
    ensures k < |t.words|
  {
    s % |t.words|
  }

  /** Starting point s, if it belongs to one of the passes l0 to l, is word s, around the table, of
      the line of page i that its pass links; the others are as before. */
  ghost predicate Recorded(was: seq<int>, now: seq<int>, step: nat, l0: nat, l: nat, t: Layout, i: nat)
    requires i < |t.pages| && l - l0 <= |t.lines| && |t.words| > 0
  {
    |was| == |now| && forall s :: 0 <= s < |now| ==> StartRecorded(was[s], now[s], s, s * step, l0, l, t, i)
  }

  ghost predicate StartRecorded(was: int, now: int, s: nat, pass: int, l0: nat, l: nat, t: Layout, i: nat)
    requires i < |t.pages| && l - l0 <= |t.lines| && |t.words| > 0
  {
    if l0 <= pass < l then now == t.At(i, pass - l0, Turn(t, s)) else now == was
  }

  method RecordStart(starts: array<int>, t: Layout, i: nat, j: nat, ghost l0: nat, l: nat, step: nat,
                     ghost first: seq<int>)
    requires t.Valid() && i < |t.pages| && j + 1 < |t.lines| && step > 0 && l == l0 + j
    requires Recorded(first, starts[..], step, l0, l, t, i)
    modifies starts
    ensures Recorded(first, starts[..], step, l0, l + 1, t, i)
  {
    var k := l / step;
    if l % step == 0 && k < starts.Length {
      starts[k] := t.At(i, j, k % |t.words|);
    }
    forall s | 0 <= s < starts.Length ensures StartRecorded(first[s], starts[s], s, s * step, l0, l + 1, t, i) {
      assert StartRecorded(first[s], old(starts[s]), s, s * step, l0, l, t, i);
      if s * step == l {
        ModUnique(l, step, s, 0);
      }
    }
  }

  /** A word the walk visits. */
  ghost predicate OnWalk(t: Layout, np: nat, c: nat, cl: nat, a: int)
    requires Bounds(t, np, c, cl)
  {
    exists i :: 0 <= i < np && OnPage(t, i, Count(i, np, c, cl), a)
  }

  lemma OnWalkIsVisited(t: Layout, np: nat, c: nat, cl: nat, a: int)
    requires Bounds(t, np, c, cl)
    ensures OnWalk(t, np, c, cl, a) <==> a in Order(t, np, c, cl)
  {
    OrderVisits(t, np, c, cl, a);
  }

  /** The crossing from page i to the next one. */
  method CrossPage(mem: array<int>, t: Layout, i: nat, j: nat)
    requires t.Valid() && t.Fits(mem.Length) && i + 1 < |t.pages| && j < |t.lines|
    requires PageLinked(mem[..], t, i, j + 1)
    modifies mem
    ensures PageLinked(mem[..], t, i, j + 1) && Crossed(mem[..], t, i, j + 1, i + 1)
    ensures SameExcept(old(mem[..]), mem[..], t.pages[i], t.pages[i] + t.pageWords)
  {
    ghost var before := mem[..];
    LinkWords(mem, t, t.pages[i] + t.lines[j], t.pages[i + 1] + t.lines[0]);
    PageLinkedLineFrame(before, mem[..], t, i, j);
    NarrowWrite(before, mem[..], t, i, j);
  }

  /** Back to the first page, at the next word. */
  method CloseChain(mem: array<int>, t: Layout, i: nat, j: nat)
    requires t.Valid() && t.Fits(mem.Length) && i < |t.pages| && j < |t.lines|
    requires PageLinked(mem[..], t, i, j + 1)
    modifies mem
    ensures PageLinked(mem[..], t, i, j + 1) && Closed(mem[..], t, i, j + 1)
    ensures SameExcept(old(mem[..]), mem[..], t.pages[i], t.pages[i] + t.pageWords)
  {
    ghost var before := mem[..];
    LinkNextWords(mem, t, t.pages[i] + t.lines[j], t.pages[0] + t.lines[0]);
    PageLinkedLineFrame(before, mem[..], t, i, j);
    NarrowWrite(before, mem[..], t, i, j);
  }

  /** Pages before n are linked and lead to their successors. */
  ghost predicate LinkedTo(m: seq<int>, t: Layout, n: nat, c: nat)
    requires n < |t.pages| && 1 <= c <= |t.lines| && t.Valid() && t.Fits(|m|)
  {
    && (forall i :: 0 <= i < n ==> PageLinked(m, t, i, c))
    && forall i, i' :: 0 <= i && i' == i + 1 && i' <= n ==> Crossed(m, t, i, c, i')
  }

  lemma LinkedToFrame(m: seq<int>, m': seq<int>, t: Layout, n: nat, c: nat)
    requires n < |t.pages| && 1 <= c <= |t.lines| && t.Valid() && t.Fits(|m|)
    requires LinkedTo(m, t, n, c) && SameExcept(m, m', t.pages[n], t.pages[n] + t.pageWords)
    ensures LinkedTo(m', t, n, c)
  {
    forall i | 0 <= i < n ensures PageLinked(m', t, i, c) {
      PageLinkedFrame(m, m', t, i, c, n);
    }
    forall i, i' | 0 <= i && i' == i + 1 && i' <= n ensures Crossed(m', t, i, c, i') {
      CrossedFrame(m, m', t, i, c, i', n);
    }
  }

  lemma RoomForPage(i: nat, np: nat, nlines: nat, npointers: int)
    requires i + 1 < np && nlines > 0 && (np - 1) * nlines <= npointers
    ensures (i + 1) * (nlines - 1) <= npointers - 1
    ensures (i + 1) * (nlines - 1) == i * (nlines - 1) + (nlines - 1)
  {
    var k, lines := i + 1, nlines - 1;
    MulLe(k, np - 1, nlines);
    Distribute(lines, 1, k);
    OneMore(i, lines);
  }

  /** One page that is not the last: linked in full and led to the next page. */
  method FullPage(mem: array<int>, starts: array<int>, t: Layout, np: nat, i: nat, l0: nat, npointers: int, step: nat)
    returns (l: nat)
    requires t.Valid() && t.Fits(mem.Length) && np <= |t.pages| && i + 1 < np && starts != mem
    requires step > 0 || npointers <= 1
    requires (np - 1) * |t.lines| <= npointers && l0 == i * (|t.lines| - 1)
    requires LinkedTo(mem[..], t, i, |t.lines|)
    modifies mem, starts
    ensures l == (i + 1) * (|t.lines| - 1)
    ensures LinkedTo(mem[..], t, i + 1, |t.lines|)
    ensures SameExcept(old(mem[..]), mem[..], t.pages[i], t.pages[i] + t.pageWords)
    ensures Recorded(old(starts[..]), starts[..], step, l0, l, t, i)
  {
    ghost var before := mem[..];
    var j;
    j, l := LinkPage(mem, starts, t, i, l0, npointers, step);
    RoomForPage(i, np, |t.lines|, npointers);
    assert j == |t.lines| - 1;
    CrossPage(mem, t, i, j);
    LinkedToFrame(before, mem[..], t, i, |t.lines|);
  }

  /** Where starting point s belongs: its pass links this line of this page. */
  function StartOf(t: Layout, s: nat, pass: nat): int
    requires |t.lines| > 1 && |t.words| > 0 && pass / (|t.lines| - 1) < |t.pages|
  {
    t.At(pass / (|t.lines| - 1), pass % (|t.lines| - 1), Turn(t, s))
  }

  /** The starting points that belong to the first l passes are where they belong; the others are
      still as they were. */
  ghost predicate StartsPlaced(was: seq<int>, now: seq<int>, step: nat, l: nat, t: Layout) {
    |was| == |now| && forall s :: 0 <= s < |now| ==> StartPlaced(was[s], now[s], s, s * step, l, t)
  }

  ghost predicate StartPlaced(was: int, now: int, s: nat, pass: int, l: nat, t: Layout) {
    if 0 <= pass < l then
      |t.lines| > 1 && |t.words| > 0 && pass / (|t.lines| - 1) < |t.pages| && now == StartOf(t, s, pass)
    else now == was
  }

  lemma StartsStay(first: seq<int>, was: seq<int>, now: seq<int>, step: nat, l0: nat, l: nat, t: Layout, i: nat)
    requires i < |t.pages| && |t.lines| > 0 && |t.words| > 0
    requires l0 == i * (|t.lines| - 1) && l0 <= l && l - l0 <= |t.lines| - 1
    requires StartsPlaced(first, was, step, l0, t) && Recorded(was, now, step, l0, l, t, i)
    ensures StartsPlaced(first, now, step, l, t)
  {
    forall s | 0 <= s < |now| ensures StartPlaced(first[s], now[s], s, s * step, l, t) {
      assert StartPlaced(first[s], was[s], s, s * step, l0, t);
      assert StartRecorded(was[s], now[s], s, s * step, l0, l, t, i);
      OnePoint(first[s], was[s], now[s], s, s * step, l0, l, t, i);
    }
  }

  lemma OnePoint(first: int, was: int, now: int, s: nat, pass: int, l0: nat, l: nat, t: Layout, i: nat)
    requires i < |t.pages| && |t.lines| > 0 && |t.words| > 0
    requires l0 == i * (|t.lines| - 1) && l0 <= l && l - l0 <= |t.lines| - 1
    requires StartPlaced(first, was, s, pass, l0, t) && StartRecorded(was, now, s, pass, l0, l, t, i)
    ensures StartPlaced(first, now, s, pass, l, t)
  {
    if l0 <= pass < l {
      ModUnique(pass, |t.lines| - 1, i, pass - l0);
    }
  }

  /** The loop over all pages but the last. */
  method LinkAllButLast(mem: array<int>, starts: array<int>, t: Layout, np: nat, npointers: nat, step: nat)
    returns (l: nat)
    requires t.Valid() && t.Fits(mem.Length) && 0 < np <= |t.pages| && starts != mem
    requires (np - 1) * |t.lines| <= npointers && (step > 0 || npointers <= 1)
    modifies mem, starts
    ensures l == (np - 1) * (|t.lines| - 1) && LinkedTo(mem[..], t, np - 1, |t.lines|)
    ensures StartsPlaced(old(starts[..]), starts[..], step, l, t)
  {
    l := 0;
    var i := 0;
    while i < np - 1
      invariant 0 <= i <= np - 1 && l == i * (|t.lines| - 1)
      invariant LinkedTo(mem[..], t, i, |t.lines|)
      invariant StartsPlaced(old(starts[..]), starts[..], step, l, t)
    {
      ghost var l0, was := l, starts[..];
      l := FullPage(mem, starts, t, np, i, l, npointers, step);
      StartsStay(old(starts[..]), was, starts[..], step, l0, l, t, i);
      i := i + 1;
    }
  }

  /** Builds the chain over np pages for `npointers` lines.  The starting points whose pass of
      the loop comes are put on the line it links, one every npointers / width passes. */
  method MemInitialize(mem: array<int>, starts: array<int>, t: Layout, np: nat, npointers: nat, width: nat)
    requires t.Valid() && t.Fits(mem.Length) && 0 < np <= |t.pages| && starts != mem
    requires (np - 1) * |t.lines| <= npointers <= np * |t.lines|
    requires 0 < width && (width <= npointers || npointers <= 1)
    modifies mem, starts
    ensures Linked(mem[..], t, np, |t.lines|, LastLines(np, |t.lines|, npointers))
    ensures StartsPlaced(old(starts[..]), starts[..], StartStep(npointers, width),
                         InnerSteps(np, |t.lines|, npointers), t)
  {
    var step := StartStep(npointers, width);
    if npointers > 1 { StepPositive(npointers, width); }
    ghost var cl := LastLines(np, |t.lines|, npointers);
    var l := LinkAllButLast(mem, starts, t, np, npointers, step);
    l := LastPage(mem, starts, t, np, l, npointers, step, cl, old(starts[..]));
  }

  lemma LastReached(np: nat, nlines: nat, npointers: int, l0: nat, j: nat)
    requires np > 0 && j < nlines && l0 == (np - 1) * (nlines - 1)
    requires (j < nlines - 1 ==> l0 + j >= npointers - 1) && (j > 0 ==> l0 + j <= npointers - 1)
    ensures LastLines(np, nlines, npointers) == j + 1
  {
  }

  lemma AllLinked(m: seq<int>, t: Layout, np: nat, c: nat, cl: nat)
    requires Bounds(t, np, c, cl) && t.Valid() && t.Fits(|m|)
    requires LinkedTo(m, t, np - 1, c) && PageLinked(m, t, np - 1, cl) && Closed(m, t, np - 1, cl)
    ensures Linked(m, t, np, c, cl)
  {
  }

  /** The last page, and the way back to the first. */
  method LastPage(mem: array<int>, starts: array<int>, t: Layout, np: nat, l0: nat, npointers: nat, step: nat,
                  ghost cl: nat, ghost first: seq<int>)
    returns (l: nat)
    requires t.Valid() && t.Fits(mem.Length) && 0 < np <= |t.pages| && starts != mem
    requires (step > 0 || npointers <= 1) && l0 == (np - 1) * (|t.lines| - 1)
    requires cl == LastLines(np, |t.lines|, npointers)
    requires LinkedTo(mem[..], t, np - 1, |t.lines|)
    requires StartsPlaced(first, starts[..], step, l0, t)
    modifies mem, starts
    ensures l == l0 + cl - 1 && Linked(mem[..], t, np, |t.lines|, cl)
    ensures StartsPlaced(first, starts[..], step, l, t)
  {
    ghost var before, was := mem[..], starts[..];
    var j;
    j, l := LinkPage(mem, starts, t, np - 1, l0, npointers, step);
    LastReached(np, |t.lines|, npointers, l0, j);
    StartsStay(first, was, starts[..], step, l0, l, t, np - 1);
    CloseChain(mem, t, np - 1, j);
    LinkedToFrame(before, mem[..], t, np - 1, |t.lines|);
    AllLinked(mem[..], t, np, |t.lines|, cl);
  }

  lemma StepPositive(a: nat, b: nat)
    requires 0 < b <= a
    ensures a / b > 0
  {
    ModUnique(a, b, a / b, a % b);
  }

  // ----- what the chain is -----

  /** Main result: whatever the length, the pointers form one cycle from the first word of the
      first line of the first page. */
  lemma MemChainIsCycle(m: seq<int>, t: Layout, np: nat, npointers: nat)
    requires t.Valid() && t.Fits(|m|) && 0 < np <= |t.pages|
    requires Linked(m, t, np, |t.lines|, LastLines(np, |t.lines|, npointers))
    ensures var walk := Order(t, np, |t.lines|, LastLines(np, |t.lines|, npointers));
            && Cycle(m, walk) && walk[0] == t.At(0, 0, 0)
            && |walk| == |t.words| * LinesVisited(np, |t.lines|, npointers)
  {
    var cl := LastLines(np, |t.lines|, npointers);
    LinkedIsCycle(m, t, np, |t.lines|, cl);
    OrderLength(t, np, |t.lines|, cl);
  }

  function LinesVisited(np: nat, nlines: nat, npointers: int): int
    requires np > 0 && nlines > 0
  {
    (np - 1) * nlines + LastLines(np, nlines, npointers)
  }

  /** It has the requested number of lines exactly when it stays on one page or the length
      fills its pages.  Otherwise it runs on: the count leaves out the crossings. */
  lemma RequestedLines(np: nat, nlines: nat, npointers: nat)
    requires np > 0 && nlines > 0 && (np - 1) * nlines <= npointers <= np * nlines
    ensures LinesVisited(np, nlines, npointers) == npointers
            <==> npointers == np * nlines || (np == 1 && npointers > 0)
    ensures LinesVisited(np, nlines, npointers) >= npointers
  {
    assert np * nlines == (np - 1) * nlines + nlines;
    assert (np - 1) * (nlines - 1) == (np - 1) * nlines - (np - 1);
  }

  // ----- the starting points -----

  /** p[] of mem_state. */
  const MAX_MEM_PARALLELISM := 16

  /** Marks a starting point that nothing was written to. */
  const NOWHERE := -1

  lemma NotOnWalk(t: Layout, np: nat, c: nat, cl: nat)
    requires Bounds(t, np, c, cl) && t.Valid() && forall i :: 0 <= i < |t.pages| ==> t.pages[i] >= 0
    ensures !OnWalk(t, np, c, cl, NOWHERE)
  {
    forall i, j, k | 0 <= i < np && 0 <= j < |t.lines| && 0 <= k < |t.words| ensures t.At(i, j, k) >= 0 {
    }
  }

  lemma EarlierPass(s: nat, width: nat, step: nat)
    requires s < width
    ensures s * step <= (width - 1) * step
  {
    MulLe(s, width - 1, step);
  }

  ghost predicate AllOnWalk(st: seq<int>, width: nat, t: Layout, np: nat, c: nat, cl: nat)
    requires width <= |st| && Bounds(t, np, c, cl)
  {
    forall s :: 0 <= s < width ==> OnWalk(t, np, c, cl, st[s])
  }

  /** Which page and line a pass links. */
  lemma PassIsLine(np: nat, nlines: nat, npointers: nat, pass: nat) returns (i: nat, j: nat)
    requires np > 0 && nlines > 0 && pass < InnerSteps(np, nlines, npointers)
    ensures nlines > 1 && i == pass / (nlines - 1) < np && j == pass % (nlines - 1)
    ensures j < Count(i, np, nlines, LastLines(np, nlines, npointers)) && pass == i * (nlines - 1) + j
  {
    var d, last := nlines - 1, np - 1;
    assert d > 0 by {
      assert last * 0 == 0;
    }
    i, j := pass / d, pass % d;
    DivMod(pass, d);
    OneMore(last, d);
    MulCancel(i, last + 1, d);
  }

  lemma StartOnWalk(t: Layout, np: nat, npointers: nat, s: nat, pass: nat)
    requires 0 < np <= |t.pages| && t.Valid() && pass < InnerSteps(np, |t.lines|, npointers)
    ensures |t.lines| > 1 && pass / (|t.lines| - 1) < np
    ensures OnWalk(t, np, |t.lines|, LastLines(np, |t.lines|, npointers), StartOf(t, s, pass))
  {
    var i, j := PassIsLine(np, |t.lines|, npointers, pass);
    assert OnPage(t, i, Count(i, np, |t.lines|, LastLines(np, |t.lines|, npointers)), t.At(i, j, Turn(t, s)));
  }

  lemma PlacedUpTo(st: seq<int>, none: seq<int>, width: nat, step: nat, l: nat, t: Layout, np: nat, npointers: nat,
                   cl: nat)
    requires 0 < width <= |st| && 0 < np <= |t.pages| && t.Valid()
    requires cl == LastLines(np, |t.lines|, npointers) && l == InnerSteps(np, |t.lines|, npointers)
    requires StartsPlaced(none, st, step, l, t)
    requires !OnWalk(t, np, |t.lines|, cl, NOWHERE) && forall s :: 0 <= s < |none| ==> none[s] == NOWHERE
    ensures AllOnWalk(st, width, t, np, |t.lines|, cl) <==> (width - 1) * step < l
  {
    var last := width - 1;
    MulLe(0, last, step);
    assert StartPlaced(none[last], st[last], last, last * step, l, t);
    if last * step < l {
      forall s | 0 <= s < width ensures OnWalk(t, np, |t.lines|, cl, st[s]) {
        EarlierPass(s, width, step);
        MulLe(0, s, step);
        assert StartPlaced(none[s], st[s], s, s * step, l, t);
        StartOnWalk(t, np, npointers, s, s * step);
      }
    }
  }

  /** Main result: all starting points that are asked for lie on the walk exactly when the last
      one belongs to a pass of the loop.  The loop has none for the lines that lead out of a
      page, so this fails when a page is one line, or when the points are close to each other. */
  lemma AllStartsPlaced(st: seq<int>, none: seq<int>, width: nat, t: Layout, np: nat, npointers: nat, cl: nat)
    requires 0 < width <= |st| && 0 < np <= |t.pages| && t.Valid() && cl == LastLines(np, |t.lines|, npointers)
    requires forall i :: 0 <= i < |t.pages| ==> t.pages[i] >= 0
    requires forall s :: 0 <= s < |none| ==> none[s] == NOWHERE
    requires StartsPlaced(none, st, StartStep(npointers, width), InnerSteps(np, |t.lines|, npointers), t)
    ensures AllOnWalk(st, width, t, np, |t.lines|, cl)
            <==> (width - 1) * StartStep(npointers, width) < InnerSteps(np, |t.lines|, npointers)
  {
    NotOnWalk(t, np, |t.lines|, cl);
    PlacedUpTo(st, none, width, StartStep(npointers, width), InnerSteps(np, |t.lines|, npointers),
               t, np, npointers, cl);
  }

  /** How many lines the walk passes before it comes to the line that a pass links. */
  function LineOfPass(nlines: nat, pass: nat): nat
    requires nlines > 1
  {
    pass + pass / (nlines - 1)
  }

  lemma WalkAt(t: Layout, np: nat, npointers: nat, i: nat, j: nat, k: nat, n: int)
    requires 0 < np <= |t.pages| && t.Valid() && i < np && k < |t.words|
    requires j < Count(i, np, |t.lines|, LastLines(np, |t.lines|, npointers))
    requires n == k * LinesVisited(np, |t.lines|, npointers) + (i * |t.lines| + j)
    ensures var walk := Order(t, np, |t.lines|, LastLines(np, |t.lines|, npointers));
            0 <= n < |walk| && walk[n] == t.At(i, j, k)
  {
    OrderAt(t, np, |t.lines|, LastLines(np, |t.lines|, npointers), i, j, k);
  }

  lemma LinesPassed(i: nat, j: nat, nlines: nat, pass: nat)
    requires nlines > 1 && i == pass / (nlines - 1) && pass == i * (nlines - 1) + j
    ensures i * nlines + j == LineOfPass(nlines, pass)
  {
    Distribute(nlines, 1, i);
  }

  /** Where on the walk starting point s lies: as many rounds on as its word in the table, and as
      many lines on as its pass, with one more for each page crossed. */
  lemma StartAt(st: seq<int>, was: seq<int>, step: nat, t: Layout, np: nat, npointers: nat, s: nat, pass: nat, n: int)
    requires 0 < np <= |t.pages| && t.Valid() && s < |st| && pass == s * step
    requires pass < InnerSteps(np, |t.lines|, npointers) && |t.lines| > 1
    requires StartsPlaced(was, st, step, InnerSteps(np, |t.lines|, npointers), t)
    requires n == (s % |t.words|) * LinesVisited(np, |t.lines|, npointers) + LineOfPass(|t.lines|, pass)
    ensures var walk := Order(t, np, |t.lines|, LastLines(np, |t.lines|, npointers));
            0 <= n < |walk| && walk[n] == st[s]
  {
    var i, j := PassIsLine(np, |t.lines|, npointers, pass);
    assert StartPlaced(was[s], st[s], s, s * step, InnerSteps(np, |t.lines|, npointers), t);
    LinesPassed(i, j, |t.lines|, pass);
    WalkAt(t, np, npointers, i, j, Turn(t, s), n);
  }

  /** No two of the starting points that are set are the same word. */
  lemma StartsDiffer(st: seq<int>, was: seq<int>, step: nat, t: Layout, np: nat, npointers: nat, s: nat, s': nat)
    requires 0 < np <= |t.pages| && t.Valid() && step > 0 && s < s' < |st|
    requires s * step < InnerSteps(np, |t.lines|, npointers) && s' * step < InnerSteps(np, |t.lines|, npointers)
    requires StartsPlaced(was, st, step, InnerSteps(np, |t.lines|, npointers), t)
    ensures st[s] != st[s']
  {
    var l := InnerSteps(np, |t.lines|, npointers);
    var i, j := PassIsLine(np, |t.lines|, npointers, s * step);
    var i', j' := PassIsLine(np, |t.lines|, npointers, s' * step);
    assert StartPlaced(was[s], st[s], s, s * step, l, t) && StartPlaced(was[s'], st[s'], s', s' * step, l, t);
    if st[s] == st[s'] {
      AtInjective(t, i, j, Turn(t, s), i', j', Turn(t, s'));
      AtLeastOnce(s' - s, step);
      Distribute(s', s, step);
      assert false;
    }
  }

  /** The points are a width-th of the length apart, in whole lines. */
  lemma StepIs(npointers: nat, width: nat)
    requires width > 0
    ensures StartStep(npointers, width) * width <= npointers < (StartStep(npointers, width) + 1) * width
  {
    DivMod(npointers, width);
    OneMore(StartStep(npointers, width), width);
  }

  /** One page of 64 lines of 8 words, four points: lines 0, 16, 32 and 48 in visiting order, words 0
      to 3. */
  lemma FourStarts(st: seq<int>, was: seq<int>, t: Layout)
    requires |st| == MAX_MEM_PARALLELISM && |t.pages| == 1 && |t.lines| == 64 && |t.words| == 8
    requires StartsPlaced(was, st, StartStep(64, 4), InnerSteps(1, 64, 64), t)
    ensures st[0] == t.pages[0] + t.lines[0] + t.words[0] && st[1] == t.pages[0] + t.lines[16] + t.words[1]
    ensures st[2] == t.pages[0] + t.lines[32] + t.words[2] && st[3] == t.pages[0] + t.lines[48] + t.words[3]
  {
    assert StartStep(64, 4) == 16 && InnerSteps(1, 64, 64) == 63;
    assert StartPlaced(was[0], st[0], 0, 0 * 16, 63, t) && StartPlaced(was[1], st[1], 1, 1 * 16, 63, t);
    assert StartPlaced(was[2], st[2], 2, 2 * 16, 63, t) && StartPlaced(was[3], st[3], 3, 3 * 16, 63, t);
  }

  /** With one line a page not even the first point is set. */
  lemma OneLinePages(np: nat, npointers: nat)
    requires np > 0
    ensures InnerSteps(np, 1, npointers) == 0
  {
    assert (np - 1) * (1 - 1) == 0;
  }

  /** Two pages of eight lines and sixteen points: the last two are not set. */
  lemma LastTwoStarts(st: seq<int>, none: seq<int>, t: Layout)
    requires |st| == MAX_MEM_PARALLELISM && |t.pages| == 2 && |t.lines| == 8 && t.Valid()
    requires forall s :: 0 <= s < |none| ==> none[s] == NOWHERE
    requires StartsPlaced(none, st, 16 / 16, InnerSteps(2, 8, 16), t)
    ensures st[14] == st[15] == NOWHERE
  {
    assert InnerSteps(2, 8, 16) == 14;
    assert StartPlaced(none[14], st[14], 14, 14 * 1, 14, t);
    assert StartPlaced(none[15], st[15], 15, 15 * 1, 14, t);
  }

  lemma FillsPages(len: nat, line: nat, nlines: nat)
    requires len > 0 && line > 0 && nlines > 0
    ensures var page := line * nlines;
            var np, npointers := (len + page - 1) / page, len / line;
            && np > 0 && (np - 1) * nlines <= npointers <= np * nlines
            && (npointers == np * nlines <==> len % page == 0)
  {
    var page := line * nlines;
    assert page > 0;
    var np, npointers, rest := (len + page - 1) / page, len / line, len % line;
    assert len == npointers * line + rest;
    assert len + page - 1 == np * page + (len + page - 1) % page;
    PagesAndLines(len, line, nlines, page, np, npointers, rest);
    if len % page == 0 {
      var d := len / page;
      assert len == d * page;
      PageCountExact(len, page, np, d);
      assert len == (d * nlines) * line;
      ModUnique(len, line, d * nlines, 0);
    }
    if npointers == np * nlines {
      assert npointers * line == np * page;
      ModUnique(len, page, np, 0);
    }
  }

  lemma PageCountExact(len: nat, page: nat, np: nat, d: nat)
    requires page > 0 && len == d * page && np * page <= len + page - 1 < np * page + page
    ensures np == d
  {
    AtLeastOnce(d - np, page);
    assert (d - np) * page == d * page - np * page;
  }

  lemma PagesAndLines(len: nat, line: nat, nlines: nat, page: nat, np: nat, npointers: nat, rest: nat)
    requires len > 0 && line > 0 && nlines > 0 && page == line * nlines && rest < line
    requires len == npointers * line + rest && np * page <= len + page - 1 < np * page + page
    ensures np > 0 && (np - 1) * nlines <= npointers <= np * nlines
    ensures npointers == np * nlines ==> rest == 0
  {
    var all := np * nlines;
    Regroup(np, nlines, line);
    Distribute(np, 1, nlines);
    Distribute(all, nlines, line);
    assert all * line == np * page && (all - nlines) * line == np * page - page;
    OneMore(npointers, line);
    MulCancel(all - nlines, npointers + 1, line);
    MulCancelLe(npointers, all, line);
    if np == 0 {
      assert false;
    }
  }
}
