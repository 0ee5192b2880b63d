/** base_initialize and the builders on top of it: random page order, bit-reversed tables,
    memory, chain. */
module Setup {
  import opened Arithmetic
  import opened BitReversal
  import opened Collections
  import opened Layouts
  import opened Chains
  import opened LibMem

  /** The multiples 0, scale, ..., (max-1) * scale, each once, in some order. */
  ghost predicate Shuffled(s: seq<int>, max: nat, scale: nat) {
    && |s| == max
    && Spaced(s, scale)
    && forall i :: 0 <= i < max ==> IsMultiple(s[i], max, scale)
  }

  ghost predicate IsMultiple(v: int, max: nat, scale: nat) {
    exists x :: 0 <= x < max && v == Offset(x, scale)
  }

  function Offset(x: nat, scale: nat): nat { x * scale }

  /** 0, scale, ..., (n - 1) * scale */
  function InOrder(n: nat, scale: nat): (s: seq<nat>)
    ensures |s| == n
  {
    seq(n, i requires 0 <= i < n => Offset(i, scale))
  }

  lemma InOrderShuffled(n: nat, scale: nat)
    ensures Shuffled(InOrder(n, scale), n, scale)
  {
    var s := InOrder(n, scale);
    forall a, b | 0 <= a < b < n ensures s[a] + scale <= s[b] {
      OneMore(a, scale);
      MulLe(a + 1, b, scale);
    }
    forall i | 0 <= i < n ensures IsMultiple(s[i], n, scale) {
      assert s[i] == Offset(i, scale);
    }
  }

  function Swapped(s: seq<nat>, i: nat, o: nat): (r: seq<nat>)
    requires i < |s| && o < |s|
    ensures |r| == |s|
  {
    s[o := s[i]][i := s[o]]
  }

  /** The first entries trade places with the picked ones, one after the other. */
  function Scrambled(max: nat, scale: nat, picks: seq<nat>): (s: seq<nat>)
    requires |picks| <= max
    ensures |s| == max
  {
    if picks == [] then InOrder(max, scale)
    else
      var i := |picks| - 1;
      Swapped(Scrambled(max, scale, picks[..i]), i, picks[i] % max)
  }

  /** `permutation`: `picks` stands for the random numbers. */
  method Permutation(max: nat, scale: nat, picks: seq<nat>) returns (result: array<nat>)
    requires scale > 0 && |picks| == max
    ensures fresh(result) && Shuffled(result[..], max, scale) && result[..] == Scrambled(max, scale, picks)
  {
    result := new nat[max](i => if i >= 0 then Offset(i, scale) else 0);
    assert result[..] == InOrder(max, scale);
    InOrderShuffled(max, scale);
    for i := 0 to max
      invariant Shuffled(result[..], max, scale) && result[..] == Scrambled(max, scale, picks[..i])
    {
      assert picks[..i + 1][..i] == picks[..i];
      var o := picks[i] % max;
      ghost var before := result[..];
      var v := result[o];
      result[o] := result[i];
      result[i] := v;
      assert result[..] == Swapped(before, i, o);
      SwapKeepsShuffled(before, result[..], max, scale, i, o);
    }
    assert picks[..max] == picks;
  }

  /** Every order can come out: some random numbers lead to it. */
  lemma EveryOrder(target: seq<int>, max: nat, scale: nat) returns (picks: seq<nat>)
    requires scale > 0 && Shuffled(target, max, scale)
    ensures |picks| == max && Scrambled(max, scale, picks) == target
  {
    picks := PrefixReached(target, max, scale, max);
    var s := Scrambled(max, scale, picks);
    assert s[..max] == s && target[..max] == target;
  }

  lemma {:induction false} PrefixReached(target: seq<int>, max: nat, scale: nat, n: nat) returns (picks: seq<nat>)
    requires scale > 0 && Shuffled(target, max, scale) && n <= max
    ensures |picks| == n && Shuffled(Scrambled(max, scale, picks), max, scale)
    ensures Scrambled(max, scale, picks)[..n] == target[..n]
  {
    if n == 0 {
      picks := [];
      InOrderShuffled(max, scale);
    } else {
      var front := PrefixReached(target, max, scale, n - 1);
      var s := Scrambled(max, scale, front);
      var o := OneMorePlace(s, target, max, scale, n - 1);
      picks := front + [o];
      assert picks[..n - 1] == front;
      ModUnique(o, max, 0, o);
      SwapKeepsShuffled(s, Swapped(s, n - 1, o), max, scale, n - 1, o);
    }
  }

  lemma SamePrefix(s: seq<int>, t: seq<int>, i: nat)
    requires i <= |s| && i <= |t| && s[..i] == t[..i]
    ensures forall a :: 0 <= a < i ==> s[a] == t[a]
  {
    assert forall a :: 0 <= a < i ==> s[a] == s[..i][a] && t[a] == t[..i][a];
  }

  /** The entry wanted at place i stands there or behind. */
  lemma OneMorePlace(s: seq<nat>, target: seq<int>, max: nat, scale: nat, i: nat) returns (o: nat)
    requires scale > 0 && i < max && Shuffled(s, max, scale) && Shuffled(target, max, scale) && s[..i] == target[..i]
    ensures i <= o < max && Swapped(s, i, o)[..i + 1] == target[..i + 1]
  {
    assert IsMultiple(target[i], max, scale);
    var x :| 0 <= x < max && target[i] == Offset(x, scale);
    o := ShuffledHas(s, max, scale, x);
    SamePrefix(s, target, i);
    if o < i {
      assert false;
    }
  }

  lemma SwapKeepsShuffled(s: seq<int>, s': seq<nat>, max: nat, scale: nat, i: nat, o: nat)
    requires Shuffled(s, max, scale) && i < max && o < max
    requires s' == s[o := s[i]][i := s[o]]
    ensures Shuffled(s', max, scale)
  {
    forall a | 0 <= a < max ensures IsMultiple(s'[a], max, scale) {
      var b := if a == i then o else if a == o then i else a;
      assert s'[a] == s[b] && IsMultiple(s[b], max, scale);
    }
  }

  lemma ShuffledFits(s: seq<int>, max: nat, scale: nat, i: nat)
    requires Shuffled(s, max, scale) && i < max && scale > 0
    ensures s[i] + scale <= max * scale
  {
    assert IsMultiple(s[i], max, scale);
    var x :| 0 <= x < max && s[i] == Offset(x, scale);
    Scaled(x, max, scale);
  }

  /** 0, scale, ..., (n-1) * scale */
  function Multiples(n: nat, scale: nat): (s: set<int>)
    ensures |s| <= n && forall x :: 0 <= x < n ==> Offset(x, scale) in s
  {
    if n == 0 then {} else Multiples(n - 1, scale) + {Offset(n - 1, scale)}
  }

  lemma SpacedDistinct(s: seq<int>, scale: nat)
    requires Spaced(s, scale) && scale > 0
    ensures forall a, b :: 0 <= a < b < |s| ==> s[a] != s[b]
  {
  }

  /** No multiple is missing. */
  lemma ShuffledHas(s: seq<int>, max: nat, scale: nat, x: nat) returns (i: nat)
    requires Shuffled(s, max, scale) && x < max && scale > 0
    ensures i < max && s[i] == Offset(x, scale)
  {
    var v := Offset(x, scale);
    if v !in s {
      SpacedDistinct(s, scale);
      ElementCount(s);
      forall w | w in Elements(s) ensures w in Multiples(max, scale) - {v} {
        var a :| 0 <= a < |s| && s[a] == w;
        assert IsMultiple(s[a], max, scale);
      }
      SubsetCount(Elements(s), Multiples(max, scale) - {v});
      assert false;
    }
    i :| 0 <= i < |s| && s[i] == v;
  }

  lemma ShuffledAligned(s: seq<int>, max: nat, scale: nat, i: nat)
    requires Shuffled(s, max, scale) && i < max && scale > 0
    ensures s[i] >= 0 && s[i] % scale == 0
  {
    assert IsMultiple(s[i], max, scale);
    var x :| 0 <= x < max && s[i] == Offset(x, scale);
    ModUnique(s[i], scale, x, 0);
  }

  /** Sizes in bytes: a word, a line of `lineWords` words, a page of `nlines` lines. */
  datatype Geometry = Geometry(wordBytes: nat, lineWords: nat, nlines: nat) {
    ghost predicate Valid() {
      wordBytes > 0 && PowerOfTwo(lineWords) && PowerOfTwo(nlines)
    }

    function LineBytes(): nat { wordBytes * lineWords }
    function PageBytes(): nat { LineBytes() * nlines }
    function PageWords(): nat { nlines * lineWords }

    /** Lines in `len` bytes. */
    function Lines(len: nat): nat
      requires LineBytes() > 0
    {
      len / LineBytes()
    }

    /** Pages needed for `len` bytes. */
    function Pages(len: nat): nat
      requires PageBytes() > 0
    {
      (len + PageBytes() - 1) / PageBytes()
    }
  }

  lemma GeometryPositive(g: Geometry)
    requires g.Valid()
    ensures g.LineBytes() > 0 && g.PageBytes() > 0 && g.PageWords() > 0
    ensures g.PageBytes() == g.PageWords() * g.wordBytes
  {
    var word: Positive, words: Positive, lines: Positive := g.wordBytes, g.lineWords, g.nlines;
    assert g.LineBytes() == Product(word, words);
    assert g.PageBytes() == Product(Product(word, words), lines);
    assert g.PageWords() == Product(lines, words);
    Regroup(word, words, lines);
  }

  /** Words left behind the aligned base of an allocation of maxlen bytes and two pages. */
  function UsableWords(g: Geometry, maxlen: nat): nat
    requires g.wordBytes > 0
  {
    (maxlen + g.PageBytes()) / g.wordBytes
  }

  lemma PagesFit(g: Geometry, maxlen: nat)
    requires g.Valid() && g.PageBytes() > 0
    ensures g.Pages(maxlen) * g.PageWords() <= UsableWords(g, maxlen)
  {
    GeometryPositive(g);
    var page, n, w := g.PageBytes(), g.Pages(maxlen), g.wordBytes;
    DivMod(maxlen + page - 1, page);
    MulLe(0, n, g.PageWords());
    Regroup(n, g.PageWords(), w);
    FitsInWords(n * g.PageWords(), maxlen + page, w);
  }

  lemma FitsInWords(words: nat, total: nat, w: nat)
    requires w > 0 && words * w <= total
    ensures words <= total / w
  {
    DivMod(total, w);
    OneMore(total / w, w);
    MulCancel(words, total / w + 1, w);
  }

  lemma MorePages(g: Geometry, len: nat, maxlen: nat)
    requires g.PageBytes() > 0 && len <= maxlen
    ensures g.Pages(len) <= g.Pages(maxlen)
  {
    var page, a, b := g.PageBytes(), g.Pages(len), g.Pages(maxlen);
    DivMod(len + page - 1, page);
    DivMod(maxlen + page - 1, page);
    OneMore(b, page);
    MulCancel(a, b + 1, page);
  }

  /** The tables for n pages in some order. */
  ghost predicate TablesOf(t: Layout, g: Geometry, n: nat) {
    && Shuffled(t.pages, n, g.PageWords())
    && t.lines == Table(g.nlines, g.lineWords) && t.words == Table(g.lineWords, 1)
    && t.pageWords == g.PageWords() && t.lineWords == g.lineWords
  }

  /** The tables of base_initialize and words_initialize make a valid layout. */
  lemma TablesAreLayout(t: Layout, g: Geometry, n: nat, size: nat)
    requires g.Valid() && n > 0 && n * g.PageWords() <= size && TablesOf(t, g, n)
    ensures t.Valid() && t.Fits(size)
  {
    GeometryPositive(g);
    forall a, b | 0 <= a < b < g.nlines
      ensures t.lines[a] + t.lineWords <= t.lines[b] || t.lines[b] + t.lineWords <= t.lines[a]
    {
      TableSpaced(g.nlines, g.lineWords, a, b);
    }
    forall a, b | 0 <= a < b < g.lineWords
      ensures t.words[a] + 1 <= t.words[b] || t.words[b] + 1 <= t.words[a]
    {
      TableSpaced(g.lineWords, 1, a, b);
    }
    forall j | 0 <= j < g.nlines ensures 0 <= t.lines[j] && t.lines[j] + t.lineWords <= t.pageWords {
      TableInPage(g.nlines, g.lineWords, j);
    }
    forall k | 0 <= k < g.lineWords ensures 0 <= t.words[k] < t.lineWords {
      TableInPage(g.lineWords, 1, k);
    }
    forall i | 0 <= i < n ensures 0 <= t.pages[i] && t.pages[i] + t.pageWords <= size {
      ShuffledFits(t.pages, n, g.PageWords(), i);
    }
  }

  /** base_initialize: pages in random order, and the memory. */
  method BaseInitialize(g: Geometry, n: nat, size: nat, picks: seq<nat>) returns (mem: array<int>, pages: array<nat>)
    requires g.Valid() && |picks| == n
    ensures fresh(mem) && mem.Length == size && Shuffled(pages[..], n, g.PageWords())
  {
    GeometryPositive(g);
    pages := Permutation(n, g.PageWords(), picks);
    mem := new int[size];
  }

  /** base_initialize and the two tables of mem_initialize. */
  method NewTables(g: Geometry, n: nat, size: nat, picks: seq<nat>) returns (mem: array<int>, t: Layout)
    requires g.Valid() && n > 0 && |picks| == n && n * g.PageWords() <= size
    ensures fresh(mem) && mem.Length == size && TablesOf(t, g, n)
    ensures t.Valid() && t.Fits(size)
  {
    var pages;
    mem, pages := BaseInitialize(g, n, size, picks);
    var lines := WordsInitialize(g.nlines, g.lineWords);
    var words := WordsInitialize(g.lineWords, 1);
    t := Layout(pages[..], lines[..], words[..], g.PageWords(), g.lineWords);
    TablesAreLayout(t, g, n, size);
  }

  /** mem_initialize from nothing: random pages, tables, chain. */
  method NewMemChain(g: Geometry, len: nat, maxlen: nat, width: nat, picks: seq<nat>)
    returns (mem: array<int>, starts: array<int>, t: Layout)
    requires g.Valid() && 0 < len <= maxlen && 0 < width && g.PageBytes() > 0 && g.LineBytes() > 0
    requires |picks| == g.Pages(maxlen)
    requires width <= g.Lines(len) || g.Lines(len) <= 1
    ensures fresh(mem) && mem.Length == UsableWords(g, maxlen) && TablesOf(t, g, g.Pages(maxlen))
    ensures MemChain(mem[..], t, g, len)
    ensures starts.Length == MAX_MEM_PARALLELISM && ChainStarts(starts[..], t, g, len, width)
  {
    SizesAgree(g, len, maxlen);
    var size := UsableWords(g, maxlen);
    mem, starts, t := BuildChain(g, g.Pages(len), g.Pages(maxlen), g.Lines(len), size, width, picks);
  }

  lemma SizesAgree(g: Geometry, len: nat, maxlen: nat)
    requires g.Valid() && 0 < len <= maxlen && g.PageBytes() > 0 && g.LineBytes() > 0
    ensures 0 < g.Pages(len) <= g.Pages(maxlen) && g.Pages(maxlen) * g.PageWords() <= UsableWords(g, maxlen)
    ensures (g.Pages(len) - 1) * g.nlines <= g.Lines(len) <= g.Pages(len) * g.nlines
  {
    FillsPages(len, g.LineBytes(), g.nlines);
    MorePages(g, len, maxlen);
    PagesFit(g, maxlen);
  }

  lemma PagesFilled(g: Geometry, len: nat)
    requires g.Valid() && len > 0 && g.PageBytes() > 0 && g.LineBytes() > 0
    ensures g.Pages(len) > 0 && (g.Lines(len) == g.Pages(len) * g.nlines <==> len % g.PageBytes() == 0)
  {
    FillsPages(len, g.LineBytes(), g.nlines);
  }

  method BuildChain(g: Geometry, np: nat, total: nat, npointers: nat, size: nat, width: nat, picks: seq<nat>)
    returns (mem: array<int>, starts: array<int>, t: Layout)
    requires g.Valid() && 0 < np <= total && total * g.PageWords() <= size && |picks| == total
    requires (np - 1) * g.nlines <= npointers <= np * g.nlines
    requires 0 < width && (width <= npointers || npointers <= 1)
    ensures fresh(mem) && mem.Length == size && TablesOf(t, g, total)
    ensures t.Valid() && t.Fits(|mem[..]|) && Linked(mem[..], t, np, g.nlines, LastLines(np, g.nlines, npointers))
    ensures starts.Length == MAX_MEM_PARALLELISM
    ensures StartsPlaced(NoStarts(), starts[..], StartStep(npointers, width), InnerSteps(np, g.nlines, npointers), t)
  {
    mem, t := NewTables(g, total, size, picks);
    starts := new int[MAX_MEM_PARALLELISM](_ => NOWHERE);
    assert starts[..] == NoStarts();
    MemInitialize(mem, starts, t, np, npointers, width);
  }

  function NoStarts(): (s: seq<int>)
    ensures |s| == MAX_MEM_PARALLELISM && forall k :: 0 <= k < |s| ==> s[k] == NOWHERE
  {
    seq(MAX_MEM_PARALLELISM, _ => NOWHERE)
  }

  /** What mem_initialize leaves behind. */
  ghost predicate MemChain(m: seq<int>, t: Layout, g: Geometry, len: nat)
    requires g.PageBytes() > 0 && g.LineBytes() > 0
  {
    && t.Valid() && t.Fits(|m|) && 0 < g.Pages(len) <= |t.pages| && |t.lines| == g.nlines && |t.words| == g.lineWords
    && Linked(m, t, g.Pages(len), g.nlines, LastLines(g.Pages(len), g.nlines, g.Lines(len)))
  }

  /** The starting points it leaves behind. */
  ghost predicate ChainStarts(st: seq<int>, t: Layout, g: Geometry, len: nat, width: nat)
    requires g.PageBytes() > 0 && g.LineBytes() > 0 && width > 0
    requires 0 < g.Pages(len) <= |t.pages| && |t.lines| == g.nlines && g.nlines > 0
  {
    var np, n := g.Pages(len), g.Lines(len);
    StartsPlaced(NoStarts(), st, StartStep(n, width), InnerSteps(np, g.nlines, n), t)
  }

  /** All starting points asked for are on the chain exactly when the last one has its pass. */
  lemma NewStartsPlaced(m: seq<int>, st: seq<int>, t: Layout, g: Geometry, len: nat, width: nat)
    requires g.Valid() && len > 0 && g.PageBytes() > 0 && g.LineBytes() > 0 && 0 < width <= MAX_MEM_PARALLELISM
    requires MemChain(m, t, g, len) && ChainStarts(st, t, g, len, width)
    ensures AllOnWalk(st, width, t, g.Pages(len), g.nlines, LastLines(g.Pages(len), g.nlines, g.Lines(len)))
            <==> (width - 1) * StartStep(g.Lines(len), width) < InnerSteps(g.Pages(len), g.nlines, g.Lines(len))
  {
    var np, n := g.Pages(len), g.Lines(len);
    AllStartsPlaced(st, NoStarts(), width, t, np, n, LastLines(np, g.nlines, n));
  }

  /** Those that are set are all different. */
  lemma NewStartsDiffer(m: seq<int>, st: seq<int>, t: Layout, g: Geometry, len: nat, width: nat, s: nat, s': nat)
    requires g.Valid() && len > 0 && g.PageBytes() > 0 && g.LineBytes() > 0 && 0 < width <= g.Lines(len)
    requires MemChain(m, t, g, len) && ChainStarts(st, t, g, len, width) && s < s' < |st|
    requires s * StartStep(g.Lines(len), width) < InnerSteps(g.Pages(len), g.nlines, g.Lines(len))
    requires s' * StartStep(g.Lines(len), width) < InnerSteps(g.Pages(len), g.nlines, g.Lines(len))
    ensures st[s] != st[s']
  {
    StepPositive(g.Lines(len), width);
    StartsDiffer(st, NoStarts(), StartStep(g.Lines(len), width), t, g.Pages(len), g.Lines(len), s, s');
  }

  /** Main result for the machine's own sizes: one cycle through lineWords words of each line
      visited; exactly len / line lines when the length fills its pages or stays on one. */
  lemma NewMemChainIsCycle(m: seq<int>, t: Layout, g: Geometry, len: nat)
    requires g.Valid() && len > 0 && g.PageBytes() > 0 && g.LineBytes() > 0
    requires MemChain(m, t, g, len)
    ensures var walk := Order(t, g.Pages(len), g.nlines, LastLines(g.Pages(len), g.nlines, g.Lines(len)));
            && Cycle(m, walk) && walk[0] == t.At(0, 0, 0)
            && (|walk| == g.lineWords * (g.Lines(len))
                <==> len % g.PageBytes() == 0 || (g.Pages(len) == 1 && len >= g.LineBytes()))
  {
    var np, n := g.Pages(len), g.Lines(len);
    FillsPages(len, g.LineBytes(), g.nlines);
    MemChainIsCycle(m, t, np, n);
    RequestedLines(np, g.nlines, n);
    SameProduct(g.lineWords, LinesVisited(np, g.nlines, n), n);
    assert n > 0 <==> len >= g.LineBytes() by {
      AtLeastOneLine(len, g.LineBytes());
    }
  }

  lemma SameProduct(w: nat, a: int, b: int)
    requires w > 0
    ensures w * a == w * b <==> a == b
  {
    AtLeastOnce(a - b, w);
    assert (a - b) * w == w * a - w * b;
  }

  lemma AtLeastOneLine(len: nat, line: nat)
    requires line > 0
    ensures len / line > 0 <==> len >= line
  {
    if len < line {
      ModUnique(len, line, 0, len);
    } else {
      StepPositive(len, line);
    }
  }
}
