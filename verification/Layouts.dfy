/** Where the words of a chain lie: a page, a line of the page, a word of the line. */
module Layouts {
  import opened Collections
  import opened Chains

  /** `pages`, `lines` and `words` are the tables of offsets, in visiting order. */
  datatype Layout = Layout(pages: seq<int>, lines: seq<int>, words: seq<int>, pageWords: nat, lineWords: nat) {

    ghost predicate Valid() {
      && |pages| > 0 && |lines| > 0 && |words| > 0
      && Spaced(pages, pageWords)
      && Spaced(lines, lineWords)
      && Spaced(words, 1)
      && (forall j :: 0 <= j < |lines| ==> 0 <= lines[j] && lines[j] + lineWords <= pageWords)
      && forall k :: 0 <= k < |words| ==> 0 <= words[k] < lineWords
    }

    ghost predicate Fits(size: nat) {
      forall i :: 0 <= i < |pages| ==> 0 <= pages[i] && pages[i] + pageWords <= size
    }

    function At(i: nat, j: nat, k: nat): int
      requires i < |pages| && j < |lines| && k < |words|
    {
      pages[i] + lines[j] + words[k]
    }
  }

  ghost predicate Spaced(s: seq<int>, gap: nat) {
    forall a, b :: 0 <= a < b < |s| ==> s[a] + gap <= s[b] || s[b] + gap <= s[a]
  }

  lemma SameEntry(s: seq<int>, gap: nat, a: nat, b: nat)
    requires Spaced(s, gap) && a < |s| && b < |s| && s[a] < s[b] + gap && s[b] < s[a] + gap
    ensures a == b
  {
  }

  /** A word has one place in a layout. */
  lemma AtInjective(t: Layout, i: nat, j: nat, k: nat, i': nat, j': nat, k': nat)
    requires t.Valid() && i < |t.pages| && j < |t.lines| && k < |t.words|
    requires i' < |t.pages| && j' < |t.lines| && k' < |t.words|
    requires t.At(i, j, k) == t.At(i', j', k')
    ensures i == i' && j == j' && k == k'
  {
    SameEntry(t.pages, t.pageWords, i, i');
    SameEntry(t.lines, t.lineWords, j, j');
    SameEntry(t.words, 1, k, k');
  }

  // ----- the walk: all lines of all pages for one word, then the next word -----

  /** How many lines page i of np contributes: c, but cl on the last page. */
  function Count(i: nat, np: nat, c: nat, cl: nat): nat { if i + 1 == np then cl else c }

  ghost predicate Bounds(t: Layout, np: nat, c: nat, cl: nat) {
    1 <= np <= |t.pages| && 1 <= c <= |t.lines| && 1 <= cl <= |t.lines|
  }

  function Lines(t: Layout, i: nat, k: nat, n: nat): (s: seq<int>)
    requires i < |t.pages| && n <= |t.lines| && k < |t.words|
    ensures |s| == n
  {
    seq(n, j requires 0 <= j < n => t.At(i, j, k))
  }

  ghost function Runs(t: Layout, np: nat, c: nat, cl: nat, k: nat): (bs: seq<seq<int>>)
    requires Bounds(t, np, c, cl) && k < |t.words|
    ensures |bs| == np
  {
    seq(np, i requires 0 <= i < np => Lines(t, i, k, Count(i, np, c, cl)))
  }

  ghost function Rounds(t: Layout, np: nat, c: nat, cl: nat): (bs: seq<seq<int>>)
    requires Bounds(t, np, c, cl)
    ensures |bs| == |t.words|
  {
    seq(|t.words|, k requires 0 <= k < |t.words| => Flatten(Runs(t, np, c, cl, k)))
  }

  /** The whole walk. */
  ghost function Order(t: Layout, np: nat, c: nat, cl: nat): seq<int>
    requires Bounds(t, np, c, cl)
  {
    Flatten(Rounds(t, np, c, cl))
  }

  // ----- which pointers make it a cycle -----

  /** Within page i, each of the first c lines leads to the next one, word by word. */
  ghost predicate PageLinked(m: seq<int>, t: Layout, i: nat, c: nat)
    requires i < |t.pages| && c <= |t.lines| && t.Valid() && t.Fits(|m|)
  {
    forall j, j', k :: 0 <= j && j' == j + 1 && j' < c && 0 <= k < |t.words| ==> m[t.At(i, j, k)] == t.At(i, j', k)
  }

  /** The n-th line of page i leads to the first line of page i', word by word. */
  ghost predicate Crossed(m: seq<int>, t: Layout, i: nat, n: nat, i': nat)
    requires i < |t.pages| && i' < |t.pages| && 1 <= n <= |t.lines| && t.Valid() && t.Fits(|m|)
  {
    forall k :: 0 <= k < |t.words| ==> m[t.At(i, n - 1, k)] == t.At(i', 0, k)
  }

  function NextWord(t: Layout, k: nat): (r: nat)
    requires k < |t.words|
    ensures r < |t.words|
  {
    if k + 1 == |t.words| then 0 else k + 1
  }

  /** The n-th line of page i leads to the first line of the first page, at the next word. */
  ghost predicate Closed(m: seq<int>, t: Layout, i: nat, n: nat)
    requires i < |t.pages| && 1 <= n <= |t.lines| && t.Valid() && t.Fits(|m|)
  {
    forall k :: 0 <= k < |t.words| ==> m[t.At(i, n - 1, k)] == t.At(0, 0, NextWord(t, k))
  }

  ghost predicate Linked(m: seq<int>, t: Layout, np: nat, c: nat, cl: nat)
    requires Bounds(t, np, c, cl) && t.Valid() && t.Fits(|m|)
  {
    && (forall i :: 0 <= i < np ==> PageLinked(m, t, i, Count(i, np, c, cl)))
    && (forall i, i' :: 0 <= i && i' == i + 1 && i' < np ==> Crossed(m, t, i, c, i'))
    && Closed(m, t, np - 1, cl)
  }

  lemma LinesArePath(m: seq<int>, t: Layout, i: nat, k: nat, n: nat)
    requires i < |t.pages| && 1 <= n <= |t.lines| && k < |t.words| && t.Valid() && t.Fits(|m|)
    requires PageLinked(m, t, i, n)
    ensures Path(m, Lines(t, i, k, n)) && Distinct(Lines(t, i, k, n))
  {
    var s := Lines(t, i, k, n);
    forall a, b | 0 <= a < b < n ensures s[a] != s[b] {
      assert Spaced(t.lines, t.lineWords);
    }
  }

  lemma LinesApart(t: Layout, i: nat, k: nat, n: nat, i': nat, k': nat, n': nat)
    requires i < |t.pages| && n <= |t.lines| && k < |t.words| && t.Valid()
    requires i' < |t.pages| && n' <= |t.lines| && k' < |t.words| && (i != i' || k != k')
    ensures Apart(Lines(t, i, k, n), Lines(t, i', k', n'))
  {
    forall x, y | 0 <= x < n && 0 <= y < n' ensures Lines(t, i, k, n)[x] != Lines(t, i', k', n')[y] {
      if t.At(i, x, k) == t.At(i', y, k') {
        AtInjective(t, i, x, k, i', y, k');
      }
    }
  }

  /** One round through the pages. */
  lemma RoundIsPath(m: seq<int>, t: Layout, np: nat, c: nat, cl: nat, k: nat)
    requires Bounds(t, np, c, cl) && k < |t.words| && t.Valid() && t.Fits(|m|) && Linked(m, t, np, c, cl)
    ensures var s := Flatten(Runs(t, np, c, cl, k));
            && Path(m, s) && Distinct(s) && |s| > 0
            && s[0] == t.At(0, 0, k) && s[|s| - 1] == t.At(np - 1, cl - 1, k)
  {
    var bs := Runs(t, np, c, cl, k);
    forall b | 0 <= b < np ensures Path(m, bs[b]) && Distinct(bs[b]) {
      LinesArePath(m, t, b, k, Count(b, np, c, cl));
    }
    forall a, b | 0 <= a < b < np ensures Apart(bs[a], bs[b]) {
      LinesApart(t, a, k, Count(a, np, c, cl), b, k, Count(b, np, c, cl));
    }
    forall a, b | 0 <= a && b == a + 1 && b < np ensures m[bs[a][|bs[a]| - 1]] == bs[b][0] {
      assert Crossed(m, t, a, c, b);
    }
    FlattenPath(m, bs);
    FlattenDistinct(bs);
  }

  lemma RoundMember(t: Layout, np: nat, c: nat, cl: nat, k: nat, n: nat) returns (i: nat, j: nat)
    requires Bounds(t, np, c, cl) && k < |t.words| && n < |Flatten(Runs(t, np, c, cl, k))|
    ensures i < np && j < Count(i, np, c, cl) && Flatten(Runs(t, np, c, cl, k))[n] == t.At(i, j, k)
  {
    i, j := FlattenMember(Runs(t, np, c, cl, k), n);
  }

  lemma RoundsApart(t: Layout, np: nat, c: nat, cl: nat, k: nat, k': nat)
    requires Bounds(t, np, c, cl) && k < |t.words| && k' < |t.words| && k != k' && t.Valid()
    ensures Apart(Flatten(Runs(t, np, c, cl, k)), Flatten(Runs(t, np, c, cl, k')))
  {
    var s, s' := Flatten(Runs(t, np, c, cl, k)), Flatten(Runs(t, np, c, cl, k'));
    forall x, y | 0 <= x < |s| && 0 <= y < |s'| ensures s[x] != s'[y] {
      var i, j := RoundMember(t, np, c, cl, k, x);
      var i', j' := RoundMember(t, np, c, cl, k', y);
      if s[x] == s'[y] {
        AtInjective(t, i, j, k, i', j', k');
      }
    }
  }

  /** Main result: a linked layout is one cycle, in the order of the walk. */
  lemma LinkedIsCycle(m: seq<int>, t: Layout, np: nat, c: nat, cl: nat)
    requires Bounds(t, np, c, cl) && t.Valid() && t.Fits(|m|) && Linked(m, t, np, c, cl)
    ensures Cycle(m, Order(t, np, c, cl)) && Order(t, np, c, cl)[0] == t.At(0, 0, 0)
  {
    var bs, n := Rounds(t, np, c, cl), |t.words|;
    forall k | 0 <= k < n
      ensures Path(m, bs[k]) && Distinct(bs[k]) && |bs[k]| > 0
      ensures bs[k][0] == t.At(0, 0, k) && bs[k][|bs[k]| - 1] == t.At(np - 1, cl - 1, k)
    {
      RoundIsPath(m, t, np, c, cl, k);
    }
    forall a, b | 0 <= a < b < n ensures Apart(bs[a], bs[b]) {
      RoundsApart(t, np, c, cl, a, b);
    }
    forall a, b | 0 <= a && b == a + 1 && b < n ensures m[bs[a][|bs[a]| - 1]] == bs[b][0] {
      assert NextWord(t, a) == b;
      assert Closed(m, t, np - 1, cl);
    }
    assert NextWord(t, n - 1) == 0;
    FlattenCycle(m, bs);
  }

  // ----- what the walk visits, and when -----

  lemma RoundLength(t: Layout, np: nat, c: nat, cl: nat, k: nat)
    requires Bounds(t, np, c, cl) && k < |t.words|
    ensures |Flatten(Runs(t, np, c, cl, k))| == (np - 1) * c + cl
  {
    FlattenLength(Runs(t, np, c, cl, k), c);
  }

  /** Exactly one word per word of a line, in each visited line. */
  lemma OrderLength(t: Layout, np: nat, c: nat, cl: nat)
    requires Bounds(t, np, c, cl) && t.Valid()
    ensures |Order(t, np, c, cl)| == |t.words| * ((np - 1) * c + cl)
  {
    var bs := Rounds(t, np, c, cl);
    forall k | 0 <= k < |t.words| ensures |bs[k]| == (np - 1) * c + cl {
      RoundLength(t, np, c, cl, k);
    }
    FlattenLength(bs, (np - 1) * c + cl);
    OneMoreBlock(|t.words|, (np - 1) * c + cl);
  }

  /** The visited words are those of the first lines of the first np pages, all of them. */
  lemma OrderVisits(t: Layout, np: nat, c: nat, cl: nat, a: int)
    requires Bounds(t, np, c, cl)
    ensures a in Order(t, np, c, cl)
            <==> exists i, j, k :: 0 <= i < np && 0 <= j < Count(i, np, c, cl) && 0 <= k < |t.words|
                                   && a == t.At(i, j, k)
  {
    var bs := Rounds(t, np, c, cl);
    if a in Order(t, np, c, cl) {
      var n :| 0 <= n < |Order(t, np, c, cl)| && Order(t, np, c, cl)[n] == a;
      var k, x := FlattenMember(bs, n);
      var i, j := RoundMember(t, np, c, cl, k, x);
      assert a == t.At(i, j, k);
    }
    if i, j, k :| 0 <= i < np && 0 <= j < Count(i, np, c, cl) && 0 <= k < |t.words| && a == t.At(i, j, k) {
      var runs := Runs(t, np, c, cl, k);
      FlattenContains(runs, i, j);
      assert runs[i][j] == a;
      var x :| 0 <= x < |Flatten(runs)| && Flatten(runs)[x] == a;
      FlattenContains(bs, k, x);
      assert bs[k][x] == a;
    }
  }

  /** Line j of page i is reached for word k only after all lines of all pages were visited
      for the k words before. */
  lemma OrderAt(t: Layout, np: nat, c: nat, cl: nat, i: nat, j: nat, k: nat)
    requires Bounds(t, np, c, cl) && i < np && j < Count(i, np, c, cl) && k < |t.words|
    ensures var n := k * ((np - 1) * c + cl) + (i * c + j);
            0 <= n < |Order(t, np, c, cl)| && Order(t, np, c, cl)[n] == t.At(i, j, k)
  {
    var bs, len := Rounds(t, np, c, cl), (np - 1) * c + cl;
    forall b | 0 <= b < |t.words| ensures |bs[b]| == len {
      RoundLength(t, np, c, cl, b);
    }
    FlattenAt(Runs(t, np, c, cl, k), c, i, j);
    FlattenAt(bs, len, k, i * c + j);
  }
}
