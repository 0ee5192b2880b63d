/** From nothing to the measured walk: what the set-up code builds meets what the measuring code
    relies on. */
module Measurements {
  import opened Arithmetic
  import opened BitReversal
  import opened Chains
  import opened Layouts
  import opened LibMem
  import opened Setup
  import opened Cache
  import opened Chunks
  import L = LineChains
  import T = Thrash

  // ----- cache.c: collect_data, measure, remove_chunk -----

  /** All pages linked in full, for the sizes g. */
  ghost predicate Ready(m: seq<int>, t: Layout, g: Geometry) {
    && g.Valid() && TablesOf(t, g, |t.pages|) && t.Valid() && t.Fits(|m|)
    && WithinLinked(m, t, |t.pages|)
  }

  lemma TableFull(t: Layout, g: Geometry, n: nat)
    requires g.Valid() && TablesOf(t, g, n)
    ensures FullLines(t)
  {
    TableIsPermutation(g.lineWords, 1);
    forall o | 0 <= o < t.lineWords ensures o in t.words {
      assert o * 1 in t.words;
    }
  }

  lemma TablesAligned(t: Layout, g: Geometry, n: nat)
    requires g.Valid() && TablesOf(t, g, n)
    ensures Aligned(t) && forall i :: 0 <= i < |t.pages| ==> t.pages[i] >= 0
  {
    GeometryPositive(g);
    forall i | 0 <= i < |t.pages| ensures t.pages[i] >= 0 && t.pages[i] % t.pageWords == 0 {
      ShuffledAligned(t.pages, n, g.PageWords(), i);
    }
  }

  /** How far the last page is linked. */
  lemma LastLinesFull(np: nat, nlines: nat, npointers: nat)
    requires np > 0 && nlines > 0
    ensures LastLines(np, nlines, npointers) == nlines <==> nlines == 1 || npointers > np * (nlines - 1)
  {
    OneMore(np - 1, nlines - 1);
  }

  /** mem_initialize links all pages in full exactly when the requested lines exceed what the
      loop passes over: its last page stays short otherwise. */
  lemma ChainWithin(m: seq<int>, t: Layout, g: Geometry, len: nat)
    requires g.Valid() && g.PageBytes() > 0 && g.LineBytes() > 0 && MemChain(m, t, g, len)
    ensures WithinLinked(m, t, g.Pages(len)) <==> g.nlines == 1 || g.Lines(len) > g.Pages(len) * (g.nlines - 1)
  {
    var np, cl := g.Pages(len), LastLines(g.Pages(len), g.nlines, g.Lines(len));
    LastLinesFull(np, g.nlines, g.Lines(len));
    FullIfLast(m, t, np, cl);
  }

  lemma FullIfLast(m: seq<int>, t: Layout, np: nat, cl: nat)
    requires t.Valid() && t.Fits(|m|) && 0 < np <= |t.pages| && 1 <= cl <= |t.lines|
    requires Linked(m, t, np, |t.lines|, cl)
    ensures WithinLinked(m, t, np) <==> cl == |t.lines|
  {
    if cl == |t.lines| {
      forall i | 0 <= i < np ensures PageLinked(m, t, i, |t.lines|) {
        assert PageLinked(m, t, i, Count(i, np, |t.lines|, cl));
      }
    } else if WithinLinked(m, t, np) {
      var last, j, k' := np - 1, cl - 1, NextWord(t, 0);
      assert PageLinked(m, t, last, |t.lines|);
      assert m[t.At(last, j, 0)] == t.At(last, cl, 0);
      assert m[t.At(last, j, 0)] == t.At(0, 0, k');
      AtInjective(t, last, cl, 0, 0, 0, k');
      assert false;
    }
  }

  lemma WholePages(g: Geometry, len: nat)
    requires g.Valid() && len > 0 && g.PageBytes() > 0 && g.LineBytes() > 0 && len % g.PageBytes() == 0
    ensures g.Lines(len) > g.Pages(len) * (g.nlines - 1)
  {
    PagesFilled(g, len);
    Distribute(g.nlines, 1, g.Pages(len));
  }

  /** Links within pages do not depend on the order of the pages. */
  lemma OtherOrder(m: seq<int>, t: Layout, u: Layout, g: Geometry, n: nat)
    requires g.Valid() && n > 0 && n * g.PageWords() <= |m| && TablesOf(t, g, n) && TablesOf(u, g, n)
    requires t.Valid() && t.Fits(|m|) && WithinLinked(m, t, n)
    ensures u.Valid() && u.Fits(|m|) && WithinLinked(m, u, n)
  {
    TablesAreLayout(u, g, n, |m|);
    GeometryPositive(g);
    forall a | 0 <= a < n ensures PageLinked(m, u, a, |u.lines|) {
      SamePage(m, t, u, g, n, a);
    }
  }

  lemma SamePage(m: seq<int>, t: Layout, u: Layout, g: Geometry, n: nat, a: nat)
    requires g.Valid() && g.PageWords() > 0 && TablesOf(t, g, n) && TablesOf(u, g, n) && a < n
    requires t.Valid() && t.Fits(|m|) && u.Valid() && u.Fits(|m|) && WithinLinked(m, t, n)
    ensures PageLinked(m, u, a, |u.lines|)
  {
    assert IsMultiple(u.pages[a], n, g.PageWords());
    var x :| 0 <= x < n && u.pages[a] == Offset(x, g.PageWords());
    var i := ShuffledHas(t.pages, n, g.PageWords(), x);
    SamePageLinked(m, t, i, u, a);
  }

  /** "don't scramble" */
  method Unscramble(pages: array<int>, pageWords: nat)
    modifies pages
    ensures pages[..] == InOrder(pages.Length, pageWords)
  {
    for i := 0 to pages.Length
      invariant forall a :: 0 <= a < i ==> pages[a] == Offset(a, pageWords)
    {
      pages[i] := i * pageWords;
    }
  }

  /** The set-up of collect_data for maxlen bytes. */
  method CollectSetup(g: Geometry, maxlen: nat, picks: seq<nat>)
    returns (mem: array<int>, pages: array<int>, t: Layout)
    requires g.Valid() && maxlen > 0 && g.PageBytes() > 0 && g.LineBytes() > 0 && |picks| == g.Pages(maxlen)
    requires g.nlines == 1 || g.Lines(maxlen) > g.Pages(maxlen) * (g.nlines - 1)
    ensures fresh(mem) && fresh(pages) && pages != mem && mem.Length == UsableWords(g, maxlen)
    ensures t.pages == pages[..] == InOrder(g.Pages(maxlen), g.PageWords()) && Ready(mem[..], t, g)
  {
    var starts, u;
    mem, starts, u := NewMemChain(g, maxlen, maxlen, 1, picks);
    ghost var n := g.Pages(maxlen);
    ChainWithin(mem[..], u, g, maxlen);
    pages := new int[|u.pages|](i requires 0 <= i < |u.pages| => u.pages[i]);
    Unscramble(pages, u.pageWords);
    t := u.(pages := pages[..]);
    InOrderShuffled(n, g.PageWords());
    PagesFit(g, maxlen);
    OtherOrder(mem[..], u, t, g, n);
  }

  /** The walk of `measure` for a size. */
  ghost function MeasuredWalk(t: Layout, g: Geometry, size: nat): seq<int>
    requires SizeOk(t, g, size)
  {
    Order(t, g.Pages(size), |t.lines|, LastOf(g, size))
  }

  /** What `measure` can be called with. */
  ghost predicate SizeOk(t: Layout, g: Geometry, size: nat) {
    && g.PageBytes() > 0 && g.LineBytes() > 0
    && 0 < g.Pages(size) <= |t.pages| && 1 <= LastOf(g, size) <= |t.lines|
  }

  /** A whole number of lines within the pages is such a size. */
  lemma WholeLinesOk(m: seq<int>, t: Layout, g: Geometry, size: nat)
    requires Ready(m, t, g) && g.PageBytes() > 0 && g.LineBytes() > 0
    requires size > 0 && size % g.LineBytes() == 0 && g.Pages(size) <= |t.pages|
    ensures SizeOk(t, g, size)
  {
    MeasuredWords(t, g, size);
  }

  /** Main result: the measured walk of every size of whole lines has size / word bytes steps and
      leaves no listed page. */
  lemma WalkIsRight(m: seq<int>, t: Layout, g: Geometry, size: nat)
    requires Ready(m, t, g) && SizeOk(t, g, size) && size > 0 && size % g.LineBytes() == 0
    ensures var s := MeasuredWalk(t, g, size);
            |s| == size / g.wordBytes && AllListed(t.pages, t.pageWords, g.Pages(size), s)
  {
    TablesAligned(t, g, |t.pages|);
    NoComplaint(t, g, size);
  }

  /** `measure` on what collect_data has set up, for any size and again and again. */
  method MeasureSize(mem: array<int>, t: Layout, g: Geometry, size: nat, derefs: nat)
    returns (p: int, ghost during: seq<int>)
    requires Ready(mem[..], t, g) && SizeOk(t, g, size)
    modifies mem
    ensures Ready(mem[..], t, g)
    ensures Cycle(during, MeasuredWalk(t, g, size)) && p == Turned(MeasuredWalk(t, g, size), derefs)
  {
    ghost var before := mem[..];
    var np, last := g.Pages(size), LastOf(g, size);
    TableFull(t, g, |t.pages|);
    p, during := Measure(mem, t, np, last, derefs, |t.lines|);
    MeasuredWithin(mem[..], t, np);
    MeasuredKeepsAll(before, mem[..], t, np, |t.pages|);
  }

  /** check_memory on the measured chain has nothing to say. */
  method CheckMeasured(mem: array<int>, t: Layout, g: Geometry, size: nat)
    returns (bad: bool, unwanted: bool, wrong: bool)
    requires TablesOf(t, g, |t.pages|) && t.Valid() && g.Valid() && t.Fits(mem.Length)
    requires SizeOk(t, g, size) && size > 0 && size % g.LineBytes() == 0
    requires Cycle(mem[..], MeasuredWalk(t, g, size))
    ensures !bad && !unwanted && !wrong
  {
    TablesAligned(t, g, |t.pages|);
    NoComplaint(t, g, size);
    OrderStarts(t, g.Pages(size), LastOf(g, size));
    NoneStray(mem[..], MeasuredWalk(t, g, size), t.pages, t.pageWords, g.Pages(size));
    bad, unwanted, wrong := CheckMemory(mem, t.pages, t.pageWords, g.Pages(size), t.pages[0] + t.lines[0] + t.words[0],
                                        size / g.wordBytes);
    OneReturn(mem[..], t.At(0, 0, 0), |MeasuredWalk(t, g, size)|);
  }

  lemma OrderStarts(t: Layout, np: nat, last: nat)
    requires t.Valid() && 0 < np <= |t.pages| && 1 <= last <= |t.lines|
    ensures |Order(t, np, |t.lines|, last)| > 0 && Order(t, np, |t.lines|, last)[0] == t.At(0, 0, 0)
  {
    OrderAt(t, np, |t.lines|, last, 0, 0, 0);
  }

  /** Without a chunk of pages the size is less by so many pages. */
  lemma WithoutPages(g: Geometry, size: nat, chunk: nat)
    requires g.PageBytes() > 0 && g.LineBytes() > 0 && chunk * g.PageBytes() <= size
    ensures var rest := size - chunk * g.PageBytes();
            g.Pages(rest) == g.Pages(size) - chunk && LastOf(g, rest) == LastOf(g, size)
  {
    LessPages(size + g.PageBytes() - 1, chunk, g.PageBytes());
    LessPages(size, chunk, g.PageBytes());
  }

  lemma LessPages(a: int, chunk: nat, page: Positive)
    ensures (a - chunk * page) / page == a / page - chunk
    ensures (a - chunk * page) % page == a % page
  {
    DivMod(a, page);
    Distribute(a / page, chunk, page);
    ModUnique(a - chunk * page, page, a / page - chunk, a % page);
  }

  /** So many pages fit into a size that needs more of them, and leave whole lines. */
  lemma RoomForPages(g: Geometry, size: nat, chunk: nat)
    requires g.Valid() && g.PageBytes() > 0 && g.LineBytes() > 0 && chunk < g.Pages(size)
    ensures chunk * g.PageBytes() < size
    ensures size % g.LineBytes() == 0 ==> (size - chunk * g.PageBytes()) % g.LineBytes() == 0
  {
    var page, lines := g.PageBytes(), chunk * g.nlines;
    DivMod(size + page - 1, page);
    MulLe(chunk + 1, g.Pages(size), page);
    OneMore(chunk, page);
    Regroup(chunk, g.nlines, g.LineBytes());
    LessPages(size, lines, g.LineBytes());
  }

  /** The walk without a chunk has the words of the smaller size. */
  lemma ChunkWalkIsRight(m: seq<int>, t: Layout, g: Geometry, size: nat, i: nat, chunk: nat)
    requires Ready(m, t, g) && SizeOk(t, g, size) && size > 0 && size % g.LineBytes() == 0
    requires chunk < g.Pages(size) && i + chunk <= g.Pages(size)
    ensures chunk * g.PageBytes() < size
    ensures |ChunkWalk(t, i, chunk, g.Pages(size), LastOf(g, size))| == (size - chunk * g.PageBytes()) / g.wordBytes
  {
    var np := g.Pages(size);
    var u := WithPages(t, Kept(t.pages, i, chunk, np));
    RoomForPages(g, size, chunk);
    WithoutPages(g, size, chunk);
    KeptIsLayout(t, i, chunk, np, |m|);
    MeasuredWords(u, g, size - chunk * g.PageBytes());
  }

  /** remove_chunk on what collect_data has set up. */
  method MeasureWithout(mem: array<int>, pages: array<int>, t: Layout, g: Geometry, size: nat,
                        i: nat, chunk: nat, derefs: nat)
    returns (p: int, ghost during: seq<int>)
    requires Ready(mem[..], t, g) && SizeOk(t, g, size) && t.pages == pages[..] && pages != mem
    requires chunk < g.Pages(size) && i + chunk <= g.Pages(size)
    modifies mem, pages
    ensures pages[..] == old(pages[..]) && Ready(mem[..], t, g)
    ensures var walk := ChunkWalk(t, i, chunk, g.Pages(size), LastOf(g, size));
            Cycle(during, walk) && p == Turned(walk, derefs)
  {
    ghost var before := mem[..];
    var np, last := g.Pages(size), LastOf(g, size);
    TableFull(t, g, |t.pages|);
    p, during := RemoveChunk(mem, pages, t, i, chunk, np, last, derefs);
    MeasuredKeepsAll(before, mem[..], t, np, |t.pages|);
  }

  /** The walk is only right when the pages are linked: a cycle in the measured order needs every
      page in full, and the last one as far as it is measured. */
  lemma CycleNeedsLinks(m: seq<int>, t: Layout, np: nat, last: nat)
    requires t.Valid() && t.Fits(|m|) && 0 < np <= |t.pages| && 1 <= last <= |t.lines|
    requires Cycle(m, Order(t, np, |t.lines|, last))
    ensures LinkedFor(m, t, np - 1, last)
  {
    forall i | 0 <= i < np ensures PageLinked(m, t, i, Count(i, np, |t.lines|, last)) {
      forall j, j', k | 0 <= j && j' == j + 1 && j' < Count(i, np, |t.lines|, last) && 0 <= k < |t.words|
        ensures m[t.At(i, j, k)] == t.At(i, j', k)
      {
        NextOnWalk(m, t, np, last, i, j, j', k);
      }
    }
    assert PageLinked(m, t, np - 1, Count(np - 1, np, |t.lines|, last));
    forall i | 0 <= i < np - 1 ensures PageLinked(m, t, i, |t.lines|) {
      assert PageLinked(m, t, i, Count(i, np, |t.lines|, last));
    }
  }

  lemma NotLastLine(t: Layout, n: nat, i: nat, j: nat, k: nat)
    requires t.Valid() && n <= |t.pages| && i < |t.pages| && j + 1 < |t.lines| && k < |t.words|
    ensures !InLastLine(t, n, t.At(i, j, k))
  {
    var x, e := t.At(i, j, k), |t.lines| - 1;
    forall a | 0 <= a < n ensures !(t.pages[a] + t.lines[e] <= x < t.pages[a] + t.lines[e] + t.lineWords) {
      if a != i {
        OtherPage(t, i, j, k, a);
      } else {
        assert Spaced(t.lines, t.lineWords);
      }
    }
  }

  /** Measuring all lines of np pages, of which one is not linked in full: whatever `measure`
      writes into the last lines, the walk is not the one that is meant. */
  lemma ShortPageBreaksWalk(m: seq<int>, m': seq<int>, t: Layout, np: nat)
    requires t.Valid() && t.Fits(|m|) && 0 < np <= |t.pages|
    requires !WithinLinked(m, t, np) && SameButLastLines(m, m', t, np)
    ensures !Cycle(m', Order(t, np, |t.lines|, |t.lines|))
  {
    if Cycle(m', Order(t, np, |t.lines|, |t.lines|)) {
      CycleNeedsLinks(m', t, np, |t.lines|);
      MeasuredWithin(m', t, np);
      forall i | 0 <= i < np ensures PageLinked(m, t, i, |t.lines|) {
        InnerLinksStay(m, m', t, np, i);
      }
    }
  }

  lemma InnerLinksStay(m: seq<int>, m': seq<int>, t: Layout, np: nat, i: nat)
    requires t.Valid() && t.Fits(|m|) && np <= |t.pages| && i < np && SameButLastLines(m, m', t, np)
    requires PageLinked(m', t, i, |t.lines|)
    ensures PageLinked(m, t, i, |t.lines|)
  {
    forall j, j', k | 0 <= j && j' == j + 1 && j' < |t.lines| && 0 <= k < |t.words|
      ensures m[t.At(i, j, k)] == t.At(i, j', k)
    {
      NotLastLine(t, np, i, j, k);
      assert m'[t.At(i, j, k)] == t.At(i, j', k);
    }
  }

  /** One and a half pages of 64 lines: the second page of the random order is linked in half. */
  lemma HalfPageShort(m: seq<int>, t: Layout, g: Geometry)
    requires g == Geometry(8, 8, 64) && MemChain(m, t, g, 6144)
    ensures !WithinLinked(m, t, 2)
  {
    assert Pow(3) == 8 && Pow(6) == 64;
    LogOfPow(3);
    LogOfPow(6);
    ChainWithin(m, t, g, 6144);
  }

  lemma NextOnWalk(m: seq<int>, t: Layout, np: nat, last: nat, i: nat, j: nat, j': nat, k: nat)
    requires t.Valid() && t.Fits(|m|) && 0 < np <= |t.pages| && 1 <= last <= |t.lines|
    requires Cycle(m, Order(t, np, |t.lines|, last))
    requires i < np && j' == j + 1 && j' < Count(i, np, |t.lines|, last) && k < |t.words|
    ensures m[t.At(i, j, k)] == t.At(i, j', k)
  {
    OrderAt(t, np, |t.lines|, last, i, j, k);
    OrderAt(t, np, |t.lines|, last, i, j', k);
    CycleStep(m, Order(t, np, |t.lines|, last), k * ((np - 1) * |t.lines| + last) + (i * |t.lines| + j));
  }

  // ----- lib_mem.c: line_find -----

  /** What line_initialize leaves behind. */
  ghost predicate LineChain(m: seq<int>, t: Layout, g: Geometry, np: nat) {
    && g.Valid() && t.Valid() && t.Fits(|m|) && L.OneWord(t) && 0 < np <= |t.pages|
    && t.lines == Table(g.nlines, g.lineWords) && t.lineWords == g.lineWords
    && Linked(m, t, np, |t.lines|, |t.lines|)
  }

  lemma FirstWords(t: Layout)
    requires t.Valid()
    ensures t.(words := [0]).Valid()
  {
    assert 0 <= t.words[0] < t.lineWords;
  }

  /** line_initialize from nothing. */
  method NewLineChain(g: Geometry, len: nat, maxlen: nat, picks: seq<nat>) returns (mem: array<int>, t: Layout)
    requires g.Valid() && 0 < len <= maxlen && g.PageBytes() > 0 && g.LineBytes() > 0 && |picks| == g.Pages(maxlen)
    ensures fresh(mem) && mem.Length == UsableWords(g, maxlen) && Shuffled(t.pages, g.Pages(maxlen), g.PageWords())
    ensures LineChain(mem[..], t, g, g.Pages(len))
  {
    SizesAgree(g, len, maxlen);
    var u;
    mem, u := NewTables(g, g.Pages(maxlen), UsableWords(g, maxlen), picks);
    FirstWords(u);
    t := u.(words := [0]);
    L.LineInitialize(mem, t, g.Pages(len));
  }

  /** Word a lies at a multiple of `step` words on one of the first np pages. */
  ghost predicate AtStep(t: Layout, np: nat, count: nat, step: nat, a: int)
    requires np <= |t.pages|
  {
    exists i, x :: 0 <= i < np && 0 <= x < count && a == t.pages[i] + L.Multiple(x, step)
  }

  /** Exactly such words are on the walk. */
  ghost predicate Touches(walk: seq<int>, t: Layout, np: nat, count: nat, step: nat)
    requires np <= |t.pages|
  {
    forall a :: a in walk <==> AtStep(t, np, count, step, a)
  }

  lemma TouchesSteps(t: Layout, g: Geometry, np: nat, d: nat, m: nat, step: nat)
    requires g.Valid() && 0 < np <= |t.pages| && L.OneWord(t) && t.lines == Table(g.nlines, g.lineWords)
    requires t.lineWords == g.lineWords && d + m == Log(g.nlines) && step == Pow(d) * g.lineWords
    ensures Touches(L.ShortWalk(t, np, Pow(m)), t, np, Pow(m), step)
  {
    forall a ensures a in L.ShortWalk(t, np, Pow(m)) <==> AtStep(t, np, Pow(m), step, a) {
      L.ShortWalkOffsets(t, np, Log(g.nlines), m, step, a);
    }
  }

  /** A line 2^d times as long, in words. */
  function LongerLine(g: Geometry, d: nat): nat {
    MulLe(0, Pow(d), g.lineWords);
    Pow(d) * g.lineWords
  }

  /** line_test on what line_initialize has set up, for a line 2^d times as long: the walk touches
      the pages exactly at the multiples of that length, and afterwards all is as before. */
  method TestLine(mem: array<int>, t: Layout, g: Geometry, np: nat, d: nat, derefs: nat)
    returns (p: int, ghost during: seq<int>, ghost walk: seq<int>)
    requires LineChain(mem[..], t, g, np) && d <= Log(g.nlines)
    modifies mem
    ensures mem[..] == old(mem[..])
    ensures Cycle(during, walk) && p == Turned(walk, derefs)
    ensures Touches(walk, t, np, Pow(Log(g.nlines) - d), LongerLine(g, d))
  {
    var m := Log(g.nlines) - d;
    p, during := L.LineTest(mem, t, np, Pow(m), derefs);
    walk := L.ShortWalk(t, np, Pow(m));
    TouchesSteps(t, g, np, d, m, LongerLine(g, d));
  }

  // ----- lib_mem.c: thrash_initialize -----

  lemma TablesValid(pages: seq<int>, g: Geometry, np: nat, n: nat, size: nat)
    requires g.Valid() && 0 < np <= n && Shuffled(pages, n, g.PageWords()) && n * g.PageWords() <= size
    ensures T.ValidTables(pages[..np], Table(g.nlines, g.lineWords), g.PageWords(), size)
    ensures Table(g.nlines, g.lineWords)[0] == 0
  {
    GeometryPositive(g);
    var words := Table(g.nlines, g.lineWords);
    forall a, b | 0 <= a < b < |words| ensures words[a] + 1 <= words[b] || words[b] + 1 <= words[a] {
      TableSpaced(g.nlines, g.lineWords, a, b);
    }
    forall x | 0 <= x < |words| ensures 0 <= words[x] < g.PageWords() {
      TableInPage(g.nlines, g.lineWords, x);
    }
    forall i | 0 <= i < np ensures 0 <= pages[i] && pages[i] + g.PageWords() <= size {
      ShuffledFits(pages, n, g.PageWords(), i);
    }
    T.EntryFits(g.nlines, g.lineWords, 0);
  }

  lemma TableFits(g: Geometry, len: nat, maxlen: nat)
    requires g.Valid() && g.LineBytes() > 0 && len <= maxlen
    ensures g.Lines(len) * g.lineWords <= UsableWords(g, maxlen)
  {
    GeometryPositive(g);
    DivMod(len, g.LineBytes());
    MulLe(0, g.Lines(len), g.lineWords);
    Regroup(g.Lines(len), g.wordBytes, g.lineWords);
    Regroup(g.Lines(len), g.lineWords, g.wordBytes);
    FitsInWords(g.Lines(len) * g.lineWords, maxlen + g.PageBytes(), g.wordBytes);
  }

  /** The chain of thrash_initialize. */
  ghost function ThrashWalk(pages: seq<int>, g: Geometry, len: nat): (s: seq<int>)
    requires g.Valid() && g.PageBytes() > 0 && g.LineBytes() > 0 && g.Lines(len) > 0 && g.Pages(len) <= |pages|
  {
    if len % g.PageBytes() != 0 then
      LogBounds(g.Lines(len));
      Table(g.Lines(len), g.lineWords)[..T.VisitedEntries(g.Lines(len))]
    else T.ThrashOrder(pages[..g.Pages(len)], Table(g.nlines, g.lineWords))
  }

  /** thrash_initialize from nothing. */
  method ThrashInitialize(g: Geometry, len: nat, maxlen: nat, picks: seq<nat>)
    returns (mem: array<int>, p: int, pages: array<nat>)
    requires g.Valid() && g.PageBytes() > 0 && g.LineBytes() > 0
    requires g.LineBytes() <= len <= maxlen && |picks| == g.Pages(maxlen)
    ensures fresh(mem) && Shuffled(pages[..], g.Pages(maxlen), g.PageWords())
    ensures g.Lines(len) > 0 && g.Pages(len) <= |pages[..]|
    ensures Cycle(mem[..], ThrashWalk(pages[..], g, len)) && p == ThrashWalk(pages[..], g, len)[0]
  {
    SizesAgree(g, len, maxlen);
    AtLeastOneLine(len, g.LineBytes());
    var size := UsableWords(g, maxlen);
    mem, pages := BaseInitialize(g, g.Pages(maxlen), size, picks);
    if len % g.PageBytes() != 0 {
      TableFits(g, len, maxlen);
      p := T.ThrashTable(mem, g.Lines(len), g.lineWords);
    } else {
      TablesValid(pages[..], g, g.Pages(len), g.Pages(maxlen), size);
      var words := WordsInitialize(g.nlines, g.lineWords);
      p := T.ThrashPages(mem, pages[..g.Pages(len)], words[..], g.PageWords());
    }
  }

  lemma EvenRounds(pages: seq<int>, words: seq<int>)
    requires |words| > 0
    ensures |T.ThrashOrder(pages, words)| == |words| * |pages|
  {
    FlattenLength(T.AllRounds(pages, words), |pages|);
    OneMoreBlock(|words|, |pages|);
  }

  /** In whole pages it has one step per line of the length. */
  lemma ThrashLength(pages: seq<int>, g: Geometry, len: nat)
    requires g.Valid() && g.PageBytes() > 0 && g.LineBytes() > 0 && len > 0 && len % g.PageBytes() == 0
    requires g.Pages(len) <= |pages| && g.Lines(len) > 0
    ensures |ThrashWalk(pages, g, len)| == g.Lines(len)
  {
    PagesFilled(g, len);
    var some, words := pages[..g.Pages(len)], Table(g.nlines, g.lineWords);
    EvenRounds(some, words);
    assert ThrashWalk(pages, g, len) == T.ThrashOrder(some, words);
  }
}
