/** lat_dram_page.c: pages walked in groups, line by line across the pages of a group. */
module DramPage {
  import opened Arithmetic
  import opened Collections
  import opened Chains
  import opened Layouts
  import opened LibMem

  /** Pages a, a + 1, ..., a + n - 1 of the page list. */
  datatype Group = Group(a: nat, n: nat)

  /** Consecutive groups that make up the first np pages. */
  ghost predicate Partition(gs: seq<Group>, np: nat) {
    && (forall x :: 0 <= x < |gs| ==> gs[x].n >= 1)
    && (forall x, y :: 0 <= x && y == x + 1 && y < |gs| ==> gs[y].a == gs[x].a + gs[x].n)
    && (if gs == [] then np == 0 else gs[0].a == 0 && gs[|gs| - 1].a + gs[|gs| - 1].n == np)
  }

  lemma {:induction false} GroupsAscend(gs: seq<Group>, np: nat, x: nat, y: nat)
    requires Partition(gs, np) && x < y < |gs|
    ensures gs[x].a + gs[x].n <= gs[y].a && gs[y].a + gs[y].n <= np
    decreases y, |gs| - y
  {
    var w := y - 1;
    assert gs[y].a == gs[w].a + gs[w].n;
    if x < w {
      GroupsAscend(gs, np, x, w);
    }
    if y + 1 < |gs| {
      GroupEnds(gs, np, y);
    }
  }

  lemma {:induction false} GroupEnds(gs: seq<Group>, np: nat, x: nat)
    requires Partition(gs, np) && x < |gs|
    ensures gs[x].a + gs[x].n <= np
    decreases |gs| - x
  {
    if x + 1 < |gs| {
      var y := x + 1;
      assert gs[y].a == gs[x].a + gs[x].n;
      GroupEnds(gs, np, y);
    }
  }

  /** The group of a page. */
  lemma {:induction false} GroupOf(gs: seq<Group>, np: nat, i: nat, x: nat) returns (g: nat)
    requires Partition(gs, np) && i < np && x < |gs| && gs[x].a <= i
    ensures g < |gs| && gs[g].a <= i < gs[g].a + gs[g].n
    decreases |gs| - x
  {
    if i < gs[x].a + gs[x].n {
      g := x;
    } else {
      var y := x + 1;
      assert y < |gs| && gs[y].a == gs[x].a + gs[x].n;
      g := GroupOf(gs, np, i, y);
    }
  }

  // ----- which pointers a regrouped chain has -----

  /** Lines of a group: those of the last group are as few as those of its last page. */
  function GroupLines(g: Group, np: nat, nlines: nat, cl: nat): nat {
    if g.a + g.n == np then cl else nlines
  }

  /** The last page is full, or a group of its own. */
  ghost predicate Regular(gs: seq<Group>, nlines: nat, cl: nat) {
    gs != [] && (cl == nlines || gs[|gs| - 1].n == 1)
  }

  ghost predicate InPages(t: Layout, g: Group) { g.n >= 1 && g.a + g.n <= |t.pages| }

  /** Line by line through the pages of the group. */
  ghost predicate GroupLinked(m: seq<int>, t: Layout, g: Group, c: nat)
    requires InPages(t, g) && 1 <= c <= |t.lines| && t.Valid() && t.Fits(|m|)
  {
    Across(m, t, g, c) && NextLines(m, t, g.a, g.a + g.n - 1, c)
  }

  /** Every page but the last of the group leads to the same line of the next page. */
  ghost predicate Across(m: seq<int>, t: Layout, g: Group, c: nat)
    requires InPages(t, g) && c <= |t.lines| && t.Valid() && t.Fits(|m|)
  {
    forall i, i', j, k :: g.a <= i && i' == i + 1 && i' < g.a + g.n && 0 <= j < c && 0 <= k < |t.words|
      ==> m[t.At(i, j, k)] == t.At(i', j, k)
  }

  /** Page p leads to the next line of page a. */
  ghost predicate NextLines(m: seq<int>, t: Layout, a: nat, p: nat, c: nat)
    requires a < |t.pages| && p < |t.pages| && c <= |t.lines| && t.Valid() && t.Fits(|m|)
  {
    forall j, j', k :: 0 <= j && j' == j + 1 && j' < c && 0 <= k < |t.words| ==> m[t.At(p, j, k)] == t.At(a, j', k)
  }

  /** The last page of group g leads to the first page of group h. */
  ghost predicate Joined(m: seq<int>, t: Layout, g: Group, h: Group)
    requires t.Valid() && t.Fits(|m|)
  {
    InPages(t, g) && InPages(t, h) && Crossed(m, t, g.a + g.n - 1, |t.lines|, h.a)
  }

  ghost predicate Regrouped(m: seq<int>, t: Layout, gs: seq<Group>, np: nat, cl: nat)
    requires t.Valid() && t.Fits(|m|) && Groupable(t, gs, np, cl)
  {
    && (forall x :: 0 <= x < |gs| ==> GroupLinked(m, t, gs[x], GroupLines(gs[x], np, |t.lines|, cl)))
    && (forall x, y :: 0 <= x && y == x + 1 && y < |gs| ==> Joined(m, t, gs[x], gs[y]))
    && Closed(m, t, np - 1, cl)
  }

  // ----- the walk -----

  function Row(t: Layout, g: Group, j: nat, k: nat): (s: seq<int>)
    requires g.a + g.n <= |t.pages| && j < |t.lines| && k < |t.words|
    ensures |s| == g.n
  {
    seq(g.n, i requires 0 <= i < g.n => t.At(g.a + i, j, k))
  }

  function Rows(t: Layout, g: Group, c: nat, k: nat): (bs: seq<seq<int>>)
    requires g.a + g.n <= |t.pages| && c <= |t.lines| && k < |t.words|
    ensures |bs| == c
  {
    seq(c, j requires 0 <= j < c => Row(t, g, j, k))
  }

  ghost predicate Groupable(t: Layout, gs: seq<Group>, np: nat, cl: nat) {
    && 0 < np <= |t.pages| && 1 <= cl <= |t.lines| && Partition(gs, np)
    && forall x :: 0 <= x < |gs| ==> InPages(t, gs[x])
  }

  ghost function GroupWalks(t: Layout, gs: seq<Group>, np: nat, cl: nat, k: nat): (bs: seq<seq<int>>)
    requires Groupable(t, gs, np, cl) && k < |t.words|
    ensures |bs| == |gs|
  {
    seq(|gs|, x requires 0 <= x < |gs| => Flatten(Rows(t, gs[x], GroupLines(gs[x], np, |t.lines|, cl), k)))
  }

  ghost function GroupRounds(t: Layout, gs: seq<Group>, np: nat, cl: nat): (bs: seq<seq<int>>)
    requires Groupable(t, gs, np, cl)
    ensures |bs| == |t.words|
  {
    seq(|t.words|, k requires 0 <= k < |t.words| => Flatten(GroupWalks(t, gs, np, cl, k)))
  }

  /** Word by word, group by group, line by line, page by page. */
  ghost function GroupOrder(t: Layout, gs: seq<Group>, np: nat, cl: nat): seq<int>
    requires Groupable(t, gs, np, cl)
  {
    Flatten(GroupRounds(t, gs, np, cl))
  }

  lemma RowIsPath(m: seq<int>, t: Layout, g: Group, c: nat, j: nat, k: nat)
    requires InPages(t, g) && 1 <= c <= |t.lines| && t.Valid() && t.Fits(|m|) && GroupLinked(m, t, g, c)
    requires j < c && k < |t.words|
    ensures Path(m, Row(t, g, j, k)) && Distinct(Row(t, g, j, k))
  {
    var s := Row(t, g, j, k);
    forall a | 0 <= a < g.n ensures 0 <= s[a] < |m| {
      InMemory(m, t, g.a + a, j, k);
    }
    forall a, b | 0 <= a && b == a + 1 && b < g.n ensures m[s[a]] == s[b] {
      var i, i' := g.a + a, g.a + b;
      assert m[t.At(i, j, k)] == t.At(i', j, k);
    }
    forall a, b | 0 <= a < b < g.n ensures s[a] != s[b] {
      if s[a] == s[b] {
        AtInjective(t, g.a + a, j, k, g.a + b, j, k);
      }
    }
  }

  lemma InMemory(m: seq<int>, t: Layout, i: nat, j: nat, k: nat)
    requires t.Valid() && t.Fits(|m|) && i < |t.pages| && j < |t.lines| && k < |t.words|
    ensures 0 <= t.At(i, j, k) < |m|
  {
  }

  lemma RowsApart(t: Layout, g: Group, j: nat, k: nat, g': Group, j': nat, k': nat)
    requires t.Valid() && InPages(t, g) && InPages(t, g')
    requires j < |t.lines| && j' < |t.lines| && k < |t.words| && k' < |t.words|
    requires g.a + g.n <= g'.a || j != j' || k != k'
    ensures Apart(Row(t, g, j, k), Row(t, g', j', k'))
  {
    var s, s' := Row(t, g, j, k), Row(t, g', j', k');
    forall x, y | 0 <= x < |s| && 0 <= y < |s'| ensures s[x] != s'[y] {
      if s[x] == s'[y] {
        AtInjective(t, g.a + x, j, k, g'.a + y, j', k');
      }
    }
  }

  lemma RowLeadsOn(m: seq<int>, t: Layout, g: Group, c: nat, k: nat, j: nat, j': nat)
    requires InPages(t, g) && 1 <= c <= |t.lines| && t.Valid() && t.Fits(|m|) && GroupLinked(m, t, g, c)
    requires k < |t.words| && j' == j + 1 && j' < c
    ensures var s := Row(t, g, j, k); 0 <= s[|s| - 1] < |m| && m[s[|s| - 1]] == Row(t, g, j', k)[0]
  {
    var p := g.a + g.n - 1;
    InMemory(m, t, p, j, k);
    assert m[t.At(p, j, k)] == t.At(g.a, j', k);
  }

  lemma RowsDistinct(m: seq<int>, t: Layout, g: Group, c: nat, k: nat)
    requires InPages(t, g) && 1 <= c <= |t.lines| && t.Valid() && t.Fits(|m|) && GroupLinked(m, t, g, c)
    requires k < |t.words|
    ensures Distinct(Flatten(Rows(t, g, c, k)))
  {
    var bs := Rows(t, g, c, k);
    forall j | 0 <= j < c ensures Distinct(bs[j]) {
      RowIsPath(m, t, g, c, j, k);
    }
    forall a, b | 0 <= a < b < c ensures Apart(bs[a], bs[b]) {
      RowsApart(t, g, a, k, g, b, k);
    }
    FlattenDistinct(bs);
  }

  lemma GroupIsPath(m: seq<int>, t: Layout, g: Group, c: nat, k: nat)
    requires InPages(t, g) && 1 <= c <= |t.lines| && t.Valid() && t.Fits(|m|) && GroupLinked(m, t, g, c)
    requires k < |t.words|
    ensures var s := Flatten(Rows(t, g, c, k));
            && Path(m, s) && Distinct(s) && |s| > 0
            && s[0] == t.At(g.a, 0, k) && s[|s| - 1] == t.At(g.a + g.n - 1, c - 1, k)
  {
    var bs := Rows(t, g, c, k);
    forall j | 0 <= j < c ensures Path(m, bs[j]) {
      RowIsPath(m, t, g, c, j, k);
    }
    forall a, b | 0 <= a && b == a + 1 && b < c ensures m[bs[a][|bs[a]| - 1]] == bs[b][0] {
      RowLeadsOn(m, t, g, c, k, a, b);
    }
    FlattenPath(m, bs);
    RowsDistinct(m, t, g, c, k);
  }

  lemma GroupMember(t: Layout, g: Group, c: nat, k: nat, n: nat) returns (i: nat, j: nat)
    requires g.a + g.n <= |t.pages| && c <= |t.lines| && k < |t.words| && n < |Flatten(Rows(t, g, c, k))|
    ensures g.a <= i < g.a + g.n && j < c && Flatten(Rows(t, g, c, k))[n] == t.At(i, j, k)
  {
    var b, x := FlattenMember(Rows(t, g, c, k), n);
    i, j := g.a + x, b;
  }

  lemma GroupsApart(t: Layout, g: Group, c: nat, k: nat, g': Group, c': nat, k': nat)
    requires t.Valid() && InPages(t, g) && InPages(t, g')
    requires c <= |t.lines| && c' <= |t.lines| && k < |t.words| && k' < |t.words|
    requires g.a + g.n <= g'.a || k != k'
    ensures Apart(Flatten(Rows(t, g, c, k)), Flatten(Rows(t, g', c', k')))
  {
    var s, s' := Flatten(Rows(t, g, c, k)), Flatten(Rows(t, g', c', k'));
    forall x, y | 0 <= x < |s| && 0 <= y < |s'| ensures s[x] != s'[y] {
      var i, j := GroupMember(t, g, c, k, x);
      var i', j' := GroupMember(t, g', c', k', y);
      if s[x] == s'[y] {
        AtInjective(t, i, j, k, i', j', k');
      }
    }
  }

  lemma GroupWalkIsPath(m: seq<int>, t: Layout, gs: seq<Group>, np: nat, cl: nat, k: nat, x: nat)
    requires t.Valid() && t.Fits(|m|) && Groupable(t, gs, np, cl) && Regrouped(m, t, gs, np, cl) && k < |t.words|
    requires x < |gs|
    ensures var s := GroupWalks(t, gs, np, cl, k)[x];
            && Path(m, s) && Distinct(s) && |s| > 0 && s[0] == t.At(gs[x].a, 0, k)
            && s[|s| - 1] == t.At(gs[x].a + gs[x].n - 1, GroupLines(gs[x], np, |t.lines|, cl) - 1, k)
  {
    GroupIsPath(m, t, gs[x], GroupLines(gs[x], np, |t.lines|, cl), k);
  }

  lemma GroupWalksApart(t: Layout, gs: seq<Group>, np: nat, cl: nat, k: nat, x: nat, y: nat)
    requires t.Valid() && Groupable(t, gs, np, cl) && k < |t.words| && x < y < |gs|
    ensures Apart(GroupWalks(t, gs, np, cl, k)[x], GroupWalks(t, gs, np, cl, k)[y])
  {
    GroupsAscend(gs, np, x, y);
    GroupsApart(t, gs[x], GroupLines(gs[x], np, |t.lines|, cl), k, gs[y], GroupLines(gs[y], np, |t.lines|, cl), k);
  }

  lemma GroupWalksLinked(m: seq<int>, t: Layout, gs: seq<Group>, np: nat, cl: nat, k: nat)
    requires t.Valid() && t.Fits(|m|) && Groupable(t, gs, np, cl) && Regrouped(m, t, gs, np, cl) && k < |t.words|
    ensures LinkedBlocks(m, GroupWalks(t, gs, np, cl, k)) && DistinctBlocks(GroupWalks(t, gs, np, cl, k))
  {
    var bs := GroupWalks(t, gs, np, cl, k);
    forall x | 0 <= x < |gs| ensures |bs[x]| > 0 && Path(m, bs[x]) && Distinct(bs[x]) {
      GroupWalkIsPath(m, t, gs, np, cl, k, x);
    }
    forall x, y | 0 <= x < y < |gs| ensures Apart(bs[x], bs[y]) {
      GroupWalksApart(t, gs, np, cl, k, x, y);
    }
    forall x, y | 0 <= x && y == x + 1 && y < |gs| ensures m[bs[x][|bs[x]| - 1]] == bs[y][0] {
      WalkLeadsOn(m, t, gs, np, cl, k, x, y);
    }
  }

  lemma WalkLeadsOn(m: seq<int>, t: Layout, gs: seq<Group>, np: nat, cl: nat, k: nat, x: nat, y: nat)
    requires t.Valid() && t.Fits(|m|) && Groupable(t, gs, np, cl) && Regrouped(m, t, gs, np, cl) && k < |t.words|
    requires y == x + 1 && y < |gs|
    ensures var s, s' := GroupWalks(t, gs, np, cl, k)[x], GroupWalks(t, gs, np, cl, k)[y];
            |s| > 0 && |s'| > 0 && 0 <= s[|s| - 1] < |m| && m[s[|s| - 1]] == s'[0]
  {
    GroupWalkIsPath(m, t, gs, np, cl, k, x);
    GroupWalkIsPath(m, t, gs, np, cl, k, y);
    GroupsAscend(gs, np, x, y);
    assert Joined(m, t, gs[x], gs[y]);
    assert GroupLines(gs[x], np, |t.lines|, cl) == |t.lines|;
  }

  lemma GroupRoundIsPath(m: seq<int>, t: Layout, gs: seq<Group>, np: nat, cl: nat, k: nat)
    requires t.Valid() && t.Fits(|m|) && Groupable(t, gs, np, cl) && Regrouped(m, t, gs, np, cl) && k < |t.words|
    ensures var s := Flatten(GroupWalks(t, gs, np, cl, k));
            && Path(m, s) && Distinct(s) && |s| > 0
            && s[0] == t.At(0, 0, k) && s[|s| - 1] == t.At(np - 1, cl - 1, k)
  {
    var bs := GroupWalks(t, gs, np, cl, k);
    GroupWalksLinked(m, t, gs, np, cl, k);
    FirstAndLastWalk(m, t, gs, np, cl, k);
    FlattenPath(m, bs);
    FlattenDistinct(bs);
  }

  lemma FirstAndLastWalk(m: seq<int>, t: Layout, gs: seq<Group>, np: nat, cl: nat, k: nat)
    requires t.Valid() && t.Fits(|m|) && Groupable(t, gs, np, cl) && Regrouped(m, t, gs, np, cl) && k < |t.words|
    ensures var bs := GroupWalks(t, gs, np, cl, k);
            && |bs| > 0 && |bs[0]| > 0 && |bs[|bs| - 1]| > 0 && bs[0][0] == t.At(0, 0, k)
            && bs[|bs| - 1][|bs[|bs| - 1]| - 1] == t.At(np - 1, cl - 1, k)
  {
    GroupWalkIsPath(m, t, gs, np, cl, k, 0);
    GroupWalkIsPath(m, t, gs, np, cl, k, |gs| - 1);
  }

  lemma GroupRoundMember(t: Layout, gs: seq<Group>, np: nat, cl: nat, k: nat, n: nat) returns (i: nat, j: nat)
    requires Groupable(t, gs, np, cl) && k < |t.words| && n < |Flatten(GroupWalks(t, gs, np, cl, k))|
    ensures i < np && j < Count(i, np, |t.lines|, cl) && Flatten(GroupWalks(t, gs, np, cl, k))[n] == t.At(i, j, k)
    ensures gs[|gs| - 1].a <= i ==> j < cl
  {
    var bs := GroupWalks(t, gs, np, cl, k);
    var x, z := FlattenMember(bs, n);
    GroupEnds(gs, np, x);
    if x < |gs| - 1 {
      GroupsAscend(gs, np, x, |gs| - 1);
    }
    i, j := GroupMember(t, gs[x], GroupLines(gs[x], np, |t.lines|, cl), k, z);
    if x + 1 < |gs| {
      GroupsAscend(gs, np, x, x + 1);
    }
  }

  lemma GroupRoundsApart(t: Layout, gs: seq<Group>, np: nat, cl: nat, k: nat, k': nat)
    requires t.Valid() && Groupable(t, gs, np, cl) && k < |t.words| && k' < |t.words| && k != k'
    ensures Apart(Flatten(GroupWalks(t, gs, np, cl, k)), Flatten(GroupWalks(t, gs, np, cl, k')))
  {
    var s, s' := Flatten(GroupWalks(t, gs, np, cl, k)), Flatten(GroupWalks(t, gs, np, cl, k'));
    forall x, y | 0 <= x < |s| && 0 <= y < |s'| ensures s[x] != s'[y] {
      var i, j := GroupRoundMember(t, gs, np, cl, k, x);
      var i', j' := GroupRoundMember(t, gs, np, cl, k', y);
      if s[x] == s'[y] {
        AtInjective(t, i, j, k, i', j', k');
      }
    }
  }

  /** Main result: the regrouped pointers form one cycle again. */
  lemma RegroupedIsCycle(m: seq<int>, t: Layout, gs: seq<Group>, np: nat, cl: nat)
    requires t.Valid() && t.Fits(|m|) && Groupable(t, gs, np, cl) && Regrouped(m, t, gs, np, cl)
    ensures Cycle(m, GroupOrder(t, gs, np, cl)) && GroupOrder(t, gs, np, cl)[0] == t.At(0, 0, 0)
  {
    var bs, n := GroupRounds(t, gs, np, cl), |t.words|;
    forall k | 0 <= k < n
      ensures Path(m, bs[k]) && Distinct(bs[k]) && |bs[k]| > 0
      ensures bs[k][0] == t.At(0, 0, k) && bs[k][|bs[k]| - 1] == t.At(np - 1, cl - 1, k)
    {
      GroupRoundIsPath(m, t, gs, np, cl, k);
    }
    forall a, b | 0 <= a < b < n ensures Apart(bs[a], bs[b]) {
      GroupRoundsApart(t, gs, np, cl, a, b);
    }
    forall a, b | 0 <= a && b == a + 1 && b < n ensures m[bs[a][|bs[a]| - 1]] == bs[b][0] {
      assert NextWord(t, a) == b;
    }
    assert NextWord(t, n - 1) == 0;
    FlattenCycle(m, bs);
  }

  /** ... over words of the chain before, and over all of them if the last page is full or a group
      of its own. */
  lemma SameWords(t: Layout, gs: seq<Group>, np: nat, cl: nat, a: int)
    requires t.Valid() && Groupable(t, gs, np, cl)
    ensures a in GroupOrder(t, gs, np, cl) ==> a in Order(t, np, |t.lines|, cl)
    ensures Regular(gs, |t.lines|, cl) && a in Order(t, np, |t.lines|, cl) ==> a in GroupOrder(t, gs, np, cl)
  {
    OrderVisits(t, np, |t.lines|, cl, a);
    if a in GroupOrder(t, gs, np, cl) {
      var i, j, k := OfGroupOrder(t, gs, np, cl, a);
    }
    if Regular(gs, |t.lines|, cl) && a in Order(t, np, |t.lines|, cl) {
      var i, j, k :| 0 <= i < np && 0 <= j < Count(i, np, |t.lines|, cl) && 0 <= k < |t.words| && a == t.At(i, j, k);
      InGroupOrder(t, gs, np, cl, i, j, k);
    }
  }

  lemma OfGroupOrder(t: Layout, gs: seq<Group>, np: nat, cl: nat, a: int) returns (i: nat, j: nat, k: nat)
    requires Groupable(t, gs, np, cl) && a in GroupOrder(t, gs, np, cl)
    ensures i < np && j < Count(i, np, |t.lines|, cl) && k < |t.words| && a == t.At(i, j, k)
    ensures gs[|gs| - 1].a <= i ==> j < cl
  {
    var n :| 0 <= n < |GroupOrder(t, gs, np, cl)| && GroupOrder(t, gs, np, cl)[n] == a;
    var x;
    k, x := FlattenMember(GroupRounds(t, gs, np, cl), n);
    i, j := GroupRoundMember(t, gs, np, cl, k, x);
  }

  /** The chain goes over the same words as before exactly if the last page is full or a group of
      its own: otherwise the other pages of the last group lose the lines it does not have. */
  lemma SameWordsIff(t: Layout, gs: seq<Group>, np: nat, cl: nat)
    requires t.Valid() && Groupable(t, gs, np, cl)
    ensures Regular(gs, |t.lines|, cl)
       <==> forall a :: a in Order(t, np, |t.lines|, cl) ==> a in GroupOrder(t, gs, np, cl)
  {
    if Regular(gs, |t.lines|, cl) {
      forall a | a in Order(t, np, |t.lines|, cl) ensures a in GroupOrder(t, gs, np, cl) {
        SameWords(t, gs, np, cl, a);
      }
    } else {
      LostWord(t, gs, np, cl);
    }
  }

  lemma LostWord(t: Layout, gs: seq<Group>, np: nat, cl: nat)
    requires t.Valid() && Groupable(t, gs, np, cl) && gs != [] && !Regular(gs, |t.lines|, cl)
    ensures var a := t.At(gs[|gs| - 1].a, cl, 0); a in Order(t, np, |t.lines|, cl) && a !in GroupOrder(t, gs, np, cl)
  {
    var i := gs[|gs| - 1].a;
    var a := t.At(i, cl, 0);
    OrderVisits(t, np, |t.lines|, cl, a);
    assert cl < Count(i, np, |t.lines|, cl);
    if a in GroupOrder(t, gs, np, cl) {
      var i', j', k' := OfGroupOrder(t, gs, np, cl, a);
      AtInjective(t, i, cl, 0, i', j', k');
    }
  }

  lemma InGroupOrder(t: Layout, gs: seq<Group>, np: nat, cl: nat, i: nat, j: nat, k: nat)
    requires t.Valid() && Groupable(t, gs, np, cl) && Regular(gs, |t.lines|, cl)
    requires i < np && j < Count(i, np, |t.lines|, cl) && k < |t.words|
    ensures t.At(i, j, k) in GroupOrder(t, gs, np, cl)
  {
    var x := GroupOf(gs, np, i, 0);
    GroupEnds(gs, np, x);
    var c := GroupLines(gs[x], np, |t.lines|, cl);
    assert j < c by {
      if x + 1 < |gs| { GroupsAscend(gs, np, x, x + 1); }
    }
    var rows, walks := Rows(t, gs[x], c, k), GroupWalks(t, gs, np, cl, k);
    FlattenContains(rows, j, i - gs[x].a);
    assert rows[j][i - gs[x].a] == t.At(i, j, k);
    var y :| 0 <= y < |Flatten(rows)| && Flatten(rows)[y] == t.At(i, j, k);
    FlattenContains(walks, x, y);
    assert walks[x][y] == t.At(i, j, k);
    var z :| 0 <= z < |Flatten(walks)| && Flatten(walks)[z] == t.At(i, j, k);
    FlattenContains(GroupRounds(t, gs, np, cl), k, z);
    assert GroupRounds(t, gs, np, cl)[k][z] == t.At(i, j, k);
  }

  // ----- regroup -----

  /** Only words of the pages of group g may differ. */
  ghost predicate OutsideSame(m: seq<int>, m': seq<int>, t: Layout, g: Group)
    requires g.a + g.n <= |t.pages|
  {
    && |m| == |m'|
    && forall x :: 0 <= x < |m| && m'[x] != m[x] ==> InGroup(t, g, x)
  }

  ghost predicate InGroup(t: Layout, g: Group, x: int)
    requires g.a + g.n <= |t.pages|
  {
    exists i :: g.a <= i < g.a + g.n && t.pages[i] <= x < t.pages[i] + t.pageWords
  }

  lemma NotInGroup(t: Layout, g: Group, i: nat, j: nat, k: nat)
    requires t.Valid() && InPages(t, g) && i < |t.pages| && j < |t.lines| && k < |t.words|
    requires i < g.a || g.a + g.n <= i
    ensures !InGroup(t, g, t.At(i, j, k))
  {
    forall p | g.a <= p < g.a + g.n ensures !(t.pages[p] <= t.At(i, j, k) < t.pages[p] + t.pageWords) {
      OtherPage(t, i, j, k, p);
    }
  }

  /** Every word of page i leads to the same offset of page i'. */
  ghost predicate Shifted(m: seq<int>, t: Layout, i: nat, i': nat)
    requires i < |t.pages| && i' < |t.pages| && t.Fits(|m|)
  {
    forall x :: t.pages[i] <= x < t.pages[i] + t.pageWords ==> m[x] == t.pages[i'] + (x - t.pages[i])
  }

  lemma ShiftedFrame(m: seq<int>, m': seq<int>, t: Layout, i: nat, i': nat, p: nat)
    requires t.Valid() && t.Fits(|m|) && i < |t.pages| && i' < |t.pages| && p < |t.pages| && p != i
    requires Shifted(m, t, i, i') && SameExcept(m, m', t.pages[p], t.pages[p] + t.pageWords)
    ensures Shifted(m', t, i, i')
  {
    assert Spaced(t.pages, t.pageWords);
  }

  /** ... for all pages from a up to, but not including, `last`. */
  ghost predicate AllShifted(m: seq<int>, t: Layout, a: nat, last: nat)
    requires last < |t.pages| && t.Fits(|m|)
  {
    forall i, i' :: a <= i && i' == i + 1 && i' <= last ==> Shifted(m, t, i, i')
  }

  lemma AllShiftedFrame(m: seq<int>, m': seq<int>, t: Layout, a: nat, last: nat)
    requires t.Valid() && last < |t.pages| && t.Fits(|m|) && AllShifted(m, t, a, last)
    requires SameExcept(m, m', t.pages[last], t.pages[last] + t.pageWords)
    ensures AllShifted(m', t, a, last)
  {
    forall i, i' | a <= i && i' == i + 1 && i' <= last ensures Shifted(m', t, i, i') {
      ShiftedFrame(m, m', t, i, i', last);
    }
  }

  lemma OutsideStep(m: seq<int>, m': seq<int>, m'': seq<int>, t: Layout, a: nat, n: nat)
    requires t.Valid() && a + n < |t.pages| && OutsideSame(m, m', t, Group(a, n))
    requires SameExcept(m', m'', t.pages[a + n], t.pages[a + n] + t.pageWords)
    ensures OutsideSame(m, m'', t, Group(a, n + 1))
  {
    forall x | 0 <= x < |m| && m''[x] != m[x] ensures InGroup(t, Group(a, n + 1), x) {
      if m'[x] != m[x] {
        assert InGroup(t, Group(a, n), x);
      } else {
        var i := a + n;
        assert t.pages[i] <= x < t.pages[i] + t.pageWords;
      }
    }
  }

  /** The first loop: all pages but the last of the group lead to the next page. */
  method ShiftPages(mem: array<int>, t: Layout, g: Group)
    requires t.Valid() && t.Fits(mem.Length) && InPages(t, g)
    modifies mem
    ensures AllShifted(mem[..], t, g.a, g.a + g.n - 1)
    ensures OutsideSame(old(mem[..]), mem[..], t, Group(g.a, g.n - 1))
  {
    for n := 0 to g.n - 1
      invariant AllShifted(mem[..], t, g.a, g.a + n)
      invariant OutsideSame(old(mem[..]), mem[..], t, Group(g.a, n))
    {
      ghost var before := mem[..];
      LinkLine(mem, t.pages[g.a + n], t.pages[g.a + n + 1], t.pageWords);
      OutsideStep(old(mem[..]), before, mem[..], t, g.a, n);
      AllShiftedFrame(before, mem[..], t, g.a, g.a + n);
    }
  }

  /** A pointer into the page at `page` moved to the page at `first`; others stay. */
  function Redirect(ptr: int, page: int, first: int, size: nat): int {
    if page <= ptr < page + size then first + (ptr - page) else ptr
  }

  /** The second loop: the last page leads back to the first page of the group, but for the
      pointers that leave the page. */
  method RedirectPage(mem: array<int>, page: nat, first: int, size: nat)
    requires page + size <= mem.Length
    modifies mem
    ensures forall x :: page <= x < page + size ==> mem[x] == Redirect(old(mem[x]), page, first, size)
    ensures SameExcept(old(mem[..]), mem[..], page, page + size)
  {
    for i := 0 to size
      invariant forall x :: page <= x < page + i ==> mem[x] == Redirect(old(mem[x]), page, first, size)
      invariant forall x :: page + i <= x < page + size ==> mem[x] == old(mem[x])
      invariant SameExcept(old(mem[..]), mem[..], page, page + size)
    {
      var ptr := mem[page + i];
      if page <= ptr && ptr < page + size {
        mem[page + i] := first + (ptr - page);
      }
    }
  }

  ghost predicate Redirected(m: seq<int>, m': seq<int>, t: Layout, p: nat, a: nat)
    requires p < |t.pages| && a < |t.pages| && t.Fits(|m|) && |m'| == |m|
  {
    forall x :: t.pages[p] <= x < t.pages[p] + t.pageWords ==>
      m'[x] == Redirect(m[x], t.pages[p], t.pages[a], t.pageWords)
  }

  lemma RedirectedLines(m: seq<int>, m': seq<int>, t: Layout, p: nat, a: nat, c: nat)
    requires t.Valid() && t.Fits(|m|) && |m'| == |m| && p < |t.pages| && a < |t.pages| && c <= |t.lines|
    requires PageLinked(m, t, p, c) && Redirected(m, m', t, p, a)
    ensures NextLines(m', t, a, p, c)
  {
    forall j, j', k | 0 <= j && j' == j + 1 && j' < c && 0 <= k < |t.words|
      ensures m'[t.At(p, j, k)] == t.At(a, j', k)
    {
      assert m[t.At(p, j, k)] == t.At(p, j', k);
    }
  }

  lemma RedirectedCrossing(m: seq<int>, m': seq<int>, t: Layout, p: nat, a: nat, h: nat)
    requires t.Valid() && t.Fits(|m|) && |m'| == |m| && p < |t.pages| && a < |t.pages| && h < |t.pages| && h != p
    requires Crossed(m, t, p, |t.lines|, h) && Redirected(m, m', t, p, a)
    ensures Crossed(m', t, p, |t.lines|, h)
  {
    forall k | 0 <= k < |t.words| ensures m'[t.At(p, |t.lines| - 1, k)] == t.At(h, 0, k) {
      OtherPage(t, h, 0, k, p);
    }
  }

  lemma RedirectedClosing(m: seq<int>, m': seq<int>, t: Layout, p: nat, a: nat, n: nat)
    requires t.Valid() && t.Fits(|m|) && |m'| == |m| && 0 < p < |t.pages| && a < |t.pages| && 1 <= n <= |t.lines|
    requires Closed(m, t, p, n) && Redirected(m, m', t, p, a)
    ensures Closed(m', t, p, n)
  {
    forall k | 0 <= k < |t.words| ensures m'[t.At(p, n - 1, k)] == t.At(0, 0, NextWord(t, k)) {
      OtherPage(t, 0, 0, NextWord(t, k), p);
    }
  }

  lemma ShiftedAcross(m: seq<int>, t: Layout, g: Group)
    requires t.Valid() && t.Fits(|m|) && InPages(t, g)
    requires AllShifted(m, t, g.a, g.a + g.n - 1)
    ensures Across(m, t, g, |t.lines|)
  {
    forall i, i', j, k | g.a <= i && i' == i + 1 && i' < g.a + g.n && 0 <= j < |t.lines| && 0 <= k < |t.words|
      ensures m[t.At(i, j, k)] == t.At(i', j, k)
    {
      assert Shifted(m, t, i, i');
    }
  }

  /** The pages of the group while still in the order of mem_initialize. */
  ghost predicate Tail(m: seq<int>, t: Layout, i: nat, np: nat, cl: nat)
    requires t.Valid() && t.Fits(|m|) && 0 < np <= |t.pages| && 1 <= cl <= |t.lines|
  {
    && (forall q :: i <= q < np ==> PageLinked(m, t, q, Count(q, np, |t.lines|, cl)))
    && (forall q, q' :: i <= q && q' == q + 1 && q' < np ==> Crossed(m, t, q, |t.lines|, q'))
    && (i < np ==> Closed(m, t, np - 1, cl))
  }

  /** What regrouping group g achieves. */
  ghost predicate GroupDone(m: seq<int>, t: Layout, g: Group, np: nat, cl: nat)
    requires t.Valid() && t.Fits(|m|) && InPages(t, g) && g.a + g.n <= np <= |t.pages| && 1 <= cl <= |t.lines|
  {
    && GroupLinked(m, t, g, GroupLines(g, np, |t.lines|, cl))
    && (g.a + g.n < np ==> Crossed(m, t, g.a + g.n - 1, |t.lines|, g.a + g.n))
    && (g.a + g.n == np ==> Closed(m, t, np - 1, cl))
  }

  method Regroup(mem: array<int>, t: Layout, g: Group, ghost np: nat, ghost cl: nat)
    requires t.Valid() && t.Fits(mem.Length) && InPages(t, g) && g.a + g.n <= np <= |t.pages| && 1 <= cl <= |t.lines|
    requires Tail(mem[..], t, g.a, np, cl)
    modifies mem
    ensures GroupDone(mem[..], t, g, np, cl) && OutsideSame(old(mem[..]), mem[..], t, g)
  {
    if g.n <= 1 {
      SingleGroupDone(mem[..], t, g, np, cl);
      return;
    }
    ghost var first := mem[..];
    ShiftPages(mem, t, g);
    ghost var shifted, p := mem[..], g.a + g.n - 1;
    LastPageKept(first, shifted, t, g, np, cl);
    RedirectPage(mem, t.pages[g.a + g.n - 1], t.pages[g.a], t.pageWords);
    OutsideStep(first, shifted, mem[..], t, g.a, g.n - 1);
    assert Group(g.a, g.n - 1 + 1) == g;
    assert Redirected(shifted, mem[..], t, p, g.a);
    AllShiftedFrame(shifted, mem[..], t, g.a, p);
    FullGroupDone(shifted, mem[..], t, g, np, cl);
  }

  lemma SingleGroupDone(m: seq<int>, t: Layout, g: Group, np: nat, cl: nat)
    requires t.Valid() && t.Fits(|m|) && InPages(t, g) && g.n == 1 && g.a + g.n <= np <= |t.pages|
    requires 1 <= cl <= |t.lines|
    requires Tail(m, t, g.a, np, cl)
    ensures GroupDone(m, t, g, np, cl)
  {
    var c := GroupLines(g, np, |t.lines|, cl);
    assert PageLinked(m, t, g.a, Count(g.a, np, |t.lines|, cl));
    assert c == Count(g.a, np, |t.lines|, cl);
    var h := g.a + 1;
    if h < np {
      assert Crossed(m, t, g.a, |t.lines|, h);
    }
    assert NextLines(m, t, g.a, g.a, c);
  }

  /** The last page of the group is still as it was after the first loop. */
  lemma LastPageKept(m: seq<int>, m': seq<int>, t: Layout, g: Group, np: nat, cl: nat)
    requires t.Valid() && t.Fits(|m|) && InPages(t, g) && g.n >= 2 && g.a + g.n <= np <= |t.pages|
    requires 1 <= cl <= |t.lines|
    requires Tail(m, t, g.a, np, cl) && OutsideSame(m, m', t, Group(g.a, g.n - 1))
    ensures PageLinked(m', t, g.a + g.n - 1, GroupLines(g, np, |t.lines|, cl))
    ensures g.a + g.n < np ==> Crossed(m', t, g.a + g.n - 1, |t.lines|, g.a + g.n)
    ensures g.a + g.n == np ==> Closed(m', t, np - 1, cl)
  {
    var p := g.a + g.n - 1;
    assert PageLinked(m, t, p, Count(p, np, |t.lines|, cl));
    PageSame(m, m', t, Group(g.a, g.n - 1), p);
    if g.a + g.n < np {
      var h := g.a + g.n;
      assert Crossed(m, t, p, |t.lines|, h);
    }
  }

  /** Words of a page outside the group keep their pointers. */
  lemma PageSame(m: seq<int>, m': seq<int>, t: Layout, g: Group, p: nat)
    requires t.Valid() && t.Fits(|m|) && InPages(t, g) && p < |t.pages| && (p < g.a || g.a + g.n <= p)
    requires OutsideSame(m, m', t, g)
    ensures forall j, k :: 0 <= j < |t.lines| && 0 <= k < |t.words| ==> m'[t.At(p, j, k)] == m[t.At(p, j, k)]
    ensures forall c :: 0 <= c <= |t.lines| && PageLinked(m, t, p, c) ==> PageLinked(m', t, p, c)
  {
    forall j, k | 0 <= j < |t.lines| && 0 <= k < |t.words| ensures m'[t.At(p, j, k)] == m[t.At(p, j, k)] {
      NotInGroup(t, g, p, j, k);
    }
  }

  lemma FullGroupDone(m: seq<int>, m': seq<int>, t: Layout, g: Group, np: nat, cl: nat)
    requires t.Valid() && t.Fits(|m|) && |m'| == |m| && InPages(t, g) && g.n >= 2
    requires g.a + g.n <= np <= |t.pages| && 1 <= cl <= |t.lines|
    requires PageLinked(m, t, g.a + g.n - 1, GroupLines(g, np, |t.lines|, cl))
    requires g.a + g.n < np ==> Crossed(m, t, g.a + g.n - 1, |t.lines|, g.a + g.n)
    requires g.a + g.n == np ==> Closed(m, t, np - 1, cl)
    requires Redirected(m, m', t, g.a + g.n - 1, g.a)
    requires AllShifted(m', t, g.a, g.a + g.n - 1)
    ensures GroupDone(m', t, g, np, cl)
  {
    var p := g.a + g.n - 1;
    ShiftedAcross(m', t, g);
    RedirectedLines(m, m', t, p, g.a, GroupLines(g, np, |t.lines|, cl));
    if g.a + g.n < np {
      RedirectedCrossing(m, m', t, p, g.a, g.a + g.n);
    } else {
      RedirectedClosing(m, m', t, p, g.a, cl);
    }
  }

  // ----- the loop over the groups -----

  /** The groups so far, each done. */
  ghost predicate AllDone(m: seq<int>, t: Layout, gs: seq<Group>, np: nat, cl: nat)
    requires t.Valid() && t.Fits(|m|) && 0 < np <= |t.pages| && 1 <= cl <= |t.lines|
  {
    forall x :: 0 <= x < |gs| ==> InPages(t, gs[x]) && gs[x].a + gs[x].n <= np && GroupDone(m, t, gs[x], np, cl)
  }

  lemma GroupDoneFrame(m: seq<int>, m': seq<int>, t: Layout, h: Group, g: Group, np: nat, cl: nat)
    requires t.Valid() && t.Fits(|m|) && InPages(t, g) && InPages(t, h) && h.a + h.n <= g.a
    requires g.a + g.n <= np <= |t.pages| && 1 <= cl <= |t.lines|
    requires OutsideSame(m, m', t, g) && GroupDone(m, t, h, np, cl)
    ensures GroupDone(m', t, h, np, cl)
  {
    var c, p := GroupLines(h, np, |t.lines|, cl), h.a + h.n - 1;
    forall i, i', j, k | h.a <= i && i' == i + 1 && i' < h.a + h.n && 0 <= j < c && 0 <= k < |t.words|
      ensures m'[t.At(i, j, k)] == t.At(i', j, k)
    {
      NotInGroup(t, g, i, j, k);
      assert m[t.At(i, j, k)] == t.At(i', j, k);
    }
    PageSame(m, m', t, g, p);
    forall j, j', k | 0 <= j && j' == j + 1 && j' < c && 0 <= k < |t.words|
      ensures m'[t.At(p, j, k)] == t.At(h.a, j', k)
    {
      assert m[t.At(p, j, k)] == t.At(h.a, j', k);
    }
  }

  lemma TailFrame(m: seq<int>, m': seq<int>, t: Layout, g: Group, np: nat, cl: nat)
    requires t.Valid() && t.Fits(|m|) && InPages(t, g) && g.a + g.n <= np <= |t.pages| && 1 <= cl <= |t.lines|
    requires OutsideSame(m, m', t, g) && Tail(m, t, g.a, np, cl)
    ensures Tail(m', t, g.a + g.n, np, cl)
  {
    forall q | g.a + g.n <= q < np ensures PageLinked(m', t, q, Count(q, np, |t.lines|, cl)) {
      PageSame(m, m', t, g, q);
    }
    forall q, q' | g.a + g.n <= q && q' == q + 1 && q' < np ensures Crossed(m', t, q, |t.lines|, q') {
      PageSame(m, m', t, g, q);
      assert Crossed(m, t, q, |t.lines|, q');
    }
    if g.a + g.n < np {
      PageSame(m, m', t, g, np - 1);
    }
  }

  /** Regroups the chain of mem_initialize in groups of `group` pages, the last one smaller if
      need be.  The chain is one cycle again; it is over the same words (SameWordsIff) exactly if
      the last page was full or the last group has one page. */
  method DramPageInitialize(mem: array<int>, t: Layout, np: nat, group: nat, ghost cl: nat)
    returns (ghost gs: seq<Group>)
    requires t.Valid() && t.Fits(mem.Length) && 0 < np <= |t.pages| && 1 <= cl <= |t.lines| && group > 0
    requires Linked(mem[..], t, np, |t.lines|, cl)
    modifies mem
    ensures Groupable(t, gs, np, cl) && Regrouped(mem[..], t, gs, np, cl)
    ensures Cycle(mem[..], GroupOrder(t, gs, np, cl))
    ensures Sized(gs, group, false)
    ensures Regular(gs, |t.lines|, cl) <==> cl == |t.lines| || group == 1 || np % group == 1
  {
    gs := [];
    var i: nat := 0;
    while i < np
      invariant GroupsDone(mem[..], t, gs, i, np, cl, group)
      decreases np - i
    {
      gs := NextGroup(mem, t, gs, i, np, group, cl);
      i := i + group;
    }
    AllDoneIsRegrouped(mem[..], t, gs, np, cl);
    RegroupedIsCycle(mem[..], t, gs, np, cl);
  }

  /** The body of that loop. */
  method NextGroup(mem: array<int>, t: Layout, ghost gs: seq<Group>, i: nat, np: nat, group: nat, ghost cl: nat)
    returns (ghost gs': seq<Group>)
    requires t.Valid() && t.Fits(mem.Length) && i < np <= |t.pages| && 1 <= cl <= |t.lines| && group > 0
    requires GroupsDone(mem[..], t, gs, i, np, cl, group)
    modifies mem
    ensures GroupsDone(mem[..], t, gs', i + group, np, cl, group)
  {
    var groupsize := if group > np - i then np - i else group;
    LastGroupSize(np, group, i);
    OneGroup(mem, t, gs, Group(i, groupsize), np, cl);
    AfterGroup(mem[..], t, gs, Group(i, groupsize), np, cl, group);
    gs' := gs + [Group(i, groupsize)];
  }

  /** When the loop stands at page i. */
  ghost predicate GroupsDone(m: seq<int>, t: Layout, gs: seq<Group>, i: nat, np: nat, cl: nat, group: nat)
    requires t.Valid() && t.Fits(|m|) && 0 < np <= |t.pages| && 1 <= cl <= |t.lines| && group > 0
  {
    && Partition(gs, Min(i, np)) && (i < np ==> i % group == 0)
    && Sized(gs, group, i < np)
    && Tail(m, t, Min(i, np), np, cl) && AllDone(m, t, gs, np, cl)
    && (i >= np ==> gs != [] && (gs[|gs| - 1].n == 1 <==> group == 1 || np % group == 1))
  }

  lemma AfterGroup(m: seq<int>, t: Layout, gs: seq<Group>, g: Group, np: nat, cl: nat, group: nat)
    requires t.Valid() && t.Fits(|m|) && g.a < np <= |t.pages| && 1 <= cl <= |t.lines| && group > 0
    requires g.n == (if group > np - g.a then np - g.a else group) && g.a % group == 0
    requires Sized(gs, group, true) && Partition(gs + [g], g.a + g.n)
    requires Tail(m, t, g.a + g.n, np, cl) && AllDone(m, t, gs + [g], np, cl)
    requires g.a + group >= np ==> (g.n == 1 <==> group == 1 || np % group == 1)
    ensures GroupsDone(m, t, gs + [g], g.a + group, np, cl, group)
  {
    SizedGrows(gs, g, group, g.a + group < np);
    NextStart(g.a, group);
  }

  /** All groups but perhaps the last have the same size; that one is not larger. */
  ghost predicate Sized(gs: seq<Group>, group: nat, full: bool) {
    forall x :: 0 <= x < |gs| ==> gs[x].n <= group && (x < |gs| - 1 || full ==> gs[x].n == group)
  }

  lemma SizedGrows(gs: seq<Group>, g: Group, group: nat, full: bool)
    requires Sized(gs, group, true) && g.n <= group && (full ==> g.n == group)
    ensures Sized(gs + [g], group, full)
  {
  }

  lemma LastGroupSize(np: nat, group: nat, i: nat)
    requires group > 0 && i < np && i % group == 0
    ensures np - i <= group ==> (np - i == 1 <==> group == 1 || np % group == 1)
  {
    var q := i / group;
    assert i == q * group;
    if np - i < group {
      ModUnique(np, group, q, np - i);
    } else if np - i == group {
      assert np == (q + 1) * group;
      ModUnique(np, group, q + 1, 0);
    }
  }

  lemma NextStart(i: nat, group: nat)
    requires group > 0 && i % group == 0
    ensures (i + group) % group == 0
  {
    assert i == (i / group) * group;
    assert i + group == (i / group + 1) * group;
    ModUnique(i + group, group, i / group + 1, 0);
  }

  method OneGroup(mem: array<int>, t: Layout, ghost gs: seq<Group>, g: Group, ghost np: nat, ghost cl: nat)
    requires t.Valid() && t.Fits(mem.Length) && InPages(t, g) && g.a + g.n <= np <= |t.pages| && 1 <= cl <= |t.lines|
    requires Partition(gs, g.a) && Tail(mem[..], t, g.a, np, cl) && AllDone(mem[..], t, gs, np, cl)
    modifies mem
    ensures Partition(gs + [g], g.a + g.n)
    ensures Tail(mem[..], t, g.a + g.n, np, cl) && AllDone(mem[..], t, gs + [g], np, cl)
  {
    ghost var before := mem[..];
    Regroup(mem, t, g, np, cl);
    TailFrame(before, mem[..], t, g, np, cl);
    forall x | 0 <= x < |gs| ensures GroupDone(mem[..], t, gs[x], np, cl) {
      GroupEnds(gs, g.a, x);
      GroupDoneFrame(before, mem[..], t, gs[x], g, np, cl);
    }
    PartitionGrows(gs, g);
  }

  lemma PartitionGrows(gs: seq<Group>, g: Group)
    requires Partition(gs, g.a) && g.n >= 1
    ensures Partition(gs + [g], g.a + g.n)
  {
  }

  lemma AllDoneIsRegrouped(m: seq<int>, t: Layout, gs: seq<Group>, np: nat, cl: nat)
    requires t.Valid() && t.Fits(|m|) && 0 < np <= |t.pages| && 1 <= cl <= |t.lines|
    requires Partition(gs, np) && AllDone(m, t, gs, np, cl) && gs != []
    ensures Groupable(t, gs, np, cl) && Regrouped(m, t, gs, np, cl)
  {
    forall x, y | 0 <= x && y == x + 1 && y < |gs| ensures Joined(m, t, gs[x], gs[y]) {
      GroupsAscend(gs, np, x, y);
      assert GroupDone(m, t, gs[x], np, cl);
    }
    assert GroupDone(m, t, gs[|gs| - 1], np, cl);
  }

  // ----- where each word leads -----

  lemma {:induction false} StartsAt(gs: seq<Group>, np: nat, group: nat, x: nat)
    requires Partition(gs, np) && Sized(gs, group, false) && x < |gs|
    ensures gs[x].a == x * group
  {
    if x > 0 {
      var w := x - 1;
      StartsAt(gs, np, group, w);
      assert gs[x].a == gs[w].a + gs[w].n;
      OneMore(w, group);
    }
  }

  /** Page i lies in group i / group. */
  lemma GroupOfPage(gs: seq<Group>, np: nat, group: Positive, i: nat)
    requires Partition(gs, np) && Sized(gs, group, false) && i < np
    ensures 0 <= i / group < |gs| && 0 <= i - i % group <= i
    ensures gs[i / group] == Group(i - i % group, Min(i - i % group + group, np) - (i - i % group))
    ensures i < gs[i / group].a + gs[i / group].n
  {
    var x := GroupOf(gs, np, i, 0);
    StartsAt(gs, np, group, x);
    GroupEnds(gs, np, x);
    ModUnique(i, group, x, i - gs[x].a);
    if x < |gs| - 1 {
      GroupsAscend(gs, np, x, x + 1);
    }
  }

  /** Page i of group x, in terms of the group. */
  lemma GroupLeads(m: seq<int>, t: Layout, gs: seq<Group>, np: nat, cl: nat, x: nat, i: nat, j: nat, k: nat)
    requires t.Valid() && t.Fits(|m|) && Groupable(t, gs, np, cl) && Regrouped(m, t, gs, np, cl)
    requires x < |gs| && gs[x].a <= i < gs[x].a + gs[x].n && k < |t.words|
    requires j < GroupLines(gs[x], np, |t.lines|, cl)
    ensures Bounded(t, gs[x], j, k) && Leads(m, t, gs[x], np, GroupLines(gs[x], np, |t.lines|, cl), i, j, k)
  {
    var g := gs[x];
    assert GroupLinked(m, t, g, GroupLines(g, np, |t.lines|, cl));
    GroupEnds(gs, np, x);
    if g.a + g.n < np {
      NotLast(gs, np, x);
      var y := x + 1;
      assert Joined(m, t, g, gs[y]);
    }
  }

  lemma NotLast(gs: seq<Group>, np: nat, x: nat)
    requires Partition(gs, np) && x < |gs| && gs[x].a + gs[x].n < np
    ensures x + 1 < |gs| && gs[x + 1].a == gs[x].a + gs[x].n
  {
    var y := x + 1;
    assert y < |gs| ==> gs[y].a == gs[x].a + gs[x].n;
  }

  ghost predicate Bounded(t: Layout, g: Group, j: nat, k: nat) {
    InPages(t, g) && j < |t.lines| && k < |t.words|
  }

  /** Line by line across the pages of the group, then on to the page behind it, or back to the
      next word of the first line. */
  ghost predicate Leads(m: seq<int>, t: Layout, g: Group, np: nat, c: nat, i: nat, j: nat, k: nat)
    requires t.Valid() && t.Fits(|m|) && Bounded(t, g, j, k) && c <= |t.lines| && np <= |t.pages|
    requires g.a <= i < g.a + g.n
  {
    m[t.At(i, j, k)] ==
      if i < g.a + g.n - 1 then t.At(i + 1, j, k)
      else if j + 1 < c then t.At(g.a, j + 1, k)
      else if i + 1 < np then t.At(i + 1, 0, k)
      else t.At(0, 0, NextWord(t, k))
  }

  /** Where every word of a regrouped chain leads, by page, line and word. */
  lemma LeadsTo(m: seq<int>, t: Layout, gs: seq<Group>, np: nat, cl: nat, group: Positive, i: nat, j: nat, k: nat)
    requires t.Valid() && t.Fits(|m|) && Groupable(t, gs, np, cl) && Regrouped(m, t, gs, np, cl)
    requires Sized(gs, group, false) && i < np && k < |t.words|
    requires var last := Min(i - i % group + group, np) - 1;
             j < if last == np - 1 then cl else |t.lines|
    ensures var first := i - i % group;
            var last := Min(first + group, np) - 1;
            var c := if last == np - 1 then cl else |t.lines|;
            first <= i <= last && Leads(m, t, Group(first, last + 1 - first), np, c, i, j, k)
  {
    GroupOfPage(gs, np, group, i);
    GroupLeads(m, t, gs, np, cl, i / group, i, j, k);
  }
}
