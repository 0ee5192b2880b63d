/** lat_fs.c: the recursion that makes the directories and file names, against the count made
    level by level beforehand. */
module DirectoryTree {
  import opened Arithmetic

  /** A path: the top directory, or entry i of a directory. */
  datatype Path = Top | Sub(parent: Path, i: nat) {
    function Depth(): nat { if Top? then 0 else 1 + parent.Depth() }

    /** The number spelled by the entries on the way from the top, in base m. */
    function Number(m: Positive): nat { if Top? then 0 else parent.Number(m) * m + i }

    /** All of them are below m. */
    predicate Digits(m: nat) { Top? || (i < m && parent.Digits(m)) }
  }

  function Ceil(a: nat, b: Positive): nat { CeilDiv(a, b) }

  function Pow(m: Positive, e: nat): Positive
  {
    if e == 0 then 1 else Product(m, Pow(m, e - 1))
  }

  // ----- rounding up -----

  lemma CeilIs(a: nat, b: Positive, q: nat)
    requires a <= q * b < a + b
    ensures Ceil(a, b) == q
  {
    var r := a + b - 1 - q * b;
    assert a + b - 1 == q * b + r && 0 <= r < b;
    ModUnique(a + b - 1, b, q, r);
  }

  lemma CeilBounds(a: nat, b: Positive)
    ensures a <= Ceil(a, b) * b < a + b
  {
    CeilDivBounds(a, b);
    assert (Ceil(a, b) - 1) * b == Ceil(a, b) * b - b;
  }

  /** Rounding up twice is rounding up once. */
  lemma CeilTwice(n: nat, a: Positive, m: Positive)
    ensures Ceil(Ceil(n, a), m) == Ceil(n, Product(a, m))
  {
    var p, q := Ceil(n, a), Ceil(Ceil(n, a), m);
    CeilBounds(n, a);
    CeilBounds(p, m);
    NestedBounds(n, a, m, p, q);
    CeilIs(n, Product(a, m), q);
  }

  lemma NestedBounds(n: nat, a: Positive, m: Positive, p: nat, q: nat)
    requires n <= p * a < n + a && p <= q * m < p + m
    ensures n <= q * (a * m) < n + a * m
  {
    var r, am := q * m, a * m;
    assert q * am == r * a;
    MulLe(p, r, a);
    MulLe(r, p + m - 1, a);
    assert (p + m - 1) * a == p * a + am - a;
  }

  /** A whole number of blocks in front adds their number. */
  lemma CeilAdd(k: nat, v: nat, b: Positive)
    ensures Ceil(k * b + v, b) == k + Ceil(v, b)
  {
    CeilBounds(v, b);
    assert (k + Ceil(v, b)) * b == k * b + Ceil(v, b) * b;
    CeilIs(k * b + v, b, k + Ceil(v, b));
  }

  lemma CeilShrinks(a: nat, m: Positive)
    requires a > 1 && m > 1
    ensures 1 <= Ceil(a, m) < a
  {
    var q := Ceil(a, m);
    CeilBounds(a, m);
    AtLeastOnce(q, m);
    if q >= a {
      MulLe(a, q, m);
      AtLeastSum(a, m);
    }
  }

  lemma AtLeastSum(a: nat, m: nat)
    requires a > 1 && m > 1
    ensures a * m >= a + m
  {
    MulLe(2, a, m - 1);
    assert a * m == a * (m - 1) + a;
  }

  lemma {:induction false} PowSplit(m: Positive, a: nat, b: nat)
    ensures Pow(m, a + b) == Product(Pow(m, a), Pow(m, b))
  {
    if a > 0 {
      PowSplit(m, a - 1, b);
      ProductAssociates(m, Pow(m, a - 1), Pow(m, b));
    }
  }

  lemma ProductAssociates(x: Positive, y: Positive, z: Positive)
    ensures Product(x, Product(y, z)) == Product(Product(x, y), z)
  {
    assert x * (y * z) == (x * y) * z;
  }

  // ----- what the recursion makes -----

  /** Files written below a directory `depth` levels above the lowest, with `left` to go. */
  function Files(m: Positive, depth: nat, left: nat): nat { Min(left, Pow(m, depth + 1)) }

  /** Directories made below it for w files: one level after the other. */
  function Dirs(m: Positive, depth: nat, w: nat): nat {
    if depth == 0 then 0 else Ceil(w, Pow(m, depth)) + Dirs(m, depth - 1, w)
  }

  lemma {:induction false} DirsOfNone(m: Positive, depth: nat)
    ensures Dirs(m, depth, 0) == 0
  {
    if depth > 0 {
      DirsOfNone(m, depth - 1);
      CeilIs(0, Pow(m, depth), 0);
    }
  }

  lemma CeilSplit(n: nat, q: nat, v: nat, b: Positive)
    requires n == q * b
    ensures Ceil(n + v, b) == Ceil(n, b) + Ceil(v, b)
  {
    CeilAdd(q, v, b);
    CeilAdd(q, 0, b);
    CeilIs(0, b, 0);
  }

  lemma FewerLargerBlocks(m: Positive, depth: nat, top: nat, k: nat) returns (q: nat)
    requires depth <= top
    ensures k * Pow(m, top) == q * Pow(m, depth)
  {
    PowSplit(m, top - depth, depth);
    q := k * Pow(m, top - depth);
    assert k * (Pow(m, top - depth) * Pow(m, depth)) == q * Pow(m, depth);
  }

  /** Full blocks of m^top files are full blocks of m^depth files. */
  lemma CeilOfBlocks(m: Positive, depth: nat, top: nat, k: nat, v: nat)
    requires depth <= top
    ensures Ceil(k * Pow(m, top) + v, Pow(m, depth)) == Ceil(k * Pow(m, top), Pow(m, depth)) + Ceil(v, Pow(m, depth))
  {
    var q := FewerLargerBlocks(m, depth, top, k);
    CeilSplit(k * Pow(m, top), q, v, Pow(m, depth));
  }

  /** They make the directories of each block. */
  lemma {:induction false} DirsAdd(m: Positive, depth: nat, top: nat, k: nat, v: nat)
    requires depth <= top
    ensures Dirs(m, depth, k * Pow(m, top) + v) == Dirs(m, depth, k * Pow(m, top)) + Dirs(m, depth, v)
  {
    if depth > 0 {
      DirsAdd(m, depth - 1, top, k, v);
      CeilOfBlocks(m, depth, top, k, v);
    }
  }

  /** One more child: itself and what it makes. */
  lemma DirsStep(m: Positive, depth: nat, k: nat, v: nat)
    requires depth > 0 && 0 < v <= Pow(m, depth)
    ensures Dirs(m, depth, k * Pow(m, depth) + v) == Dirs(m, depth, k * Pow(m, depth)) + 1 + Dirs(m, depth - 1, v)
  {
    var b := Pow(m, depth);
    DirsAdd(m, depth - 1, depth, k, v);
    CeilAdd(k, v, b);
    CeilAdd(k, 0, b);
    CeilIs(0, b, 0);
    assert 1 * b == b;
    CeilIs(v, b, 1);
  }

  lemma {:induction false} DirsMonotone(m: Positive, depth: nat, v: nat, w: nat)
    requires v <= w
    ensures Dirs(m, depth, v) <= Dirs(m, depth, w)
  {
    if depth > 0 {
      DirsMonotone(m, depth - 1, v, w);
      CeilMonotone(v, w, Pow(m, depth));
    }
  }

  lemma CeilMonotone(v: nat, w: nat, b: Positive)
    requires v <= w
    ensures Ceil(v, b) <= Ceil(w, b)
  {
    CeilBounds(v, b);
    CeilBounds(w, b);
    AtLeastOnce(Ceil(v, b) - Ceil(w, b), b);
    assert (Ceil(v, b) - Ceil(w, b)) * b == Ceil(v, b) * b - Ceil(w, b) * b;
  }

  // ----- paths -----

  /** The entry of `base` through which `path` is reached. */
  predicate Through(base: Path, i: nat, path: Path) {
    path.Sub? && ((path.parent == base && path.i == i) || Through(base, i, path.parent))
  }

  predicate Below(base: Path, path: Path) {
    path.Sub? && (path.parent == base || Below(base, path.parent))
  }

  lemma {:induction false} BelowIsDeeper(base: Path, path: Path)
    requires Below(base, path)
    ensures path.Depth() > base.Depth()
  {
    if path.parent != base {
      BelowIsDeeper(base, path.parent);
    }
  }

  lemma {:induction false} ThroughIsBelow(base: Path, i: nat, path: Path)
    ensures Through(base, i, path) ==> Below(base, path)
    ensures Below(Sub(base, i), path) ==> Through(base, i, path)
  {
    if path.Sub? {
      ThroughIsBelow(base, i, path.parent);
    }
  }

  /** There is only one such entry. */
  lemma {:induction false} OneEntry(base: Path, i: nat, j: nat, path: Path)
    requires Through(base, i, path) && Through(base, j, path)
    ensures i == j
  {
    if path.parent == base {
      if Through(base, i, path.parent) {
        ThroughIsBelow(base, i, base);
        BelowIsDeeper(base, base);
      }
      if Through(base, j, path.parent) {
        ThroughIsBelow(base, j, base);
        BelowIsDeeper(base, base);
      }
    } else {
      OneEntry(base, i, j, path.parent);
    }
  }

  /** Digits have one spelling of each length. */
  lemma {:induction false} NumberTells(p: Path, q: Path, m: Positive)
    requires p.Digits(m) && q.Digits(m) && p.Depth() == q.Depth() && p.Number(m) == q.Number(m)
    ensures p == q
  {
    if p.Sub? {
      ModUnique(p.Number(m), m, p.parent.Number(m), p.i);
      ModUnique(q.Number(m), m, q.parent.Number(m), q.i);
      NumberTells(p.parent, q.parent, m);
    }
  }

  /** The number of the first file below a directory, `depth` levels above the lowest. */
  function FirstFile(dir: Path, m: Positive, depth: nat): nat { dir.Number(m) * Pow(m, depth + 1) }

  lemma FirstOfChild(base: Path, m: Positive, depth: nat, k: nat)
    requires depth > 0
    ensures FirstFile(Sub(base, k), m, depth - 1) == FirstFile(base, m, depth) + k * Pow(m, depth)
  {
    var a, b := base.Number(m), Pow(m, depth);
    assert (a * m + k) * b == a * (m * b) + k * b;
  }

  /** Entries lo..hi are numbered without a gap, from `first` on. */
  ghost predicate Numbered(s: seq<Path>, lo: nat, hi: nat, m: Positive, first: nat) {
    lo <= hi <= |s| && forall x :: lo <= x < hi ==> s[x].Number(m) == first + (x - lo)
  }

  /** The files of child k carry on where those of the earlier children ended. */
  lemma NumberedJoins(s: seq<Path>, s': seq<Path>, lo: nat, hi: nat, hi': nat,
                      base: Path, m: Positive, depth: nat, k: nat)
    requires depth > 0 && Numbered(s, lo, hi, m, FirstFile(base, m, depth)) && hi - lo == k * Pow(m, depth)
    requires Kept(s, s', hi, hi') && Numbered(s', hi, hi', m, FirstFile(Sub(base, k), m, depth - 1))
    ensures Numbered(s', lo, hi', m, FirstFile(base, m, depth))
  {
    FirstOfChild(base, m, depth, k);
  }

  // ----- the recursion -----

  /** Entries lo..hi of a list lie below `base` and are all different. */
  ghost predicate Grown(base: Path, s: seq<Path>, lo: nat, hi: nat) {
    && lo <= hi <= |s|
    && (forall x :: lo <= x < hi ==> Below(base, s[x]))
    && forall x, y :: lo <= x < y < hi ==> s[x] != s[y]
  }

  /** ... through entries of `base` before number k. */
  ghost predicate GrownTo(base: Path, s: seq<Path>, lo: nat, hi: nat, k: nat) {
    && lo <= hi <= |s|
    && (forall x :: lo <= x < hi ==> ThroughUpTo(base, k, s[x]))
    && forall x, y :: lo <= x < y < hi ==> s[x] != s[y]
  }

  ghost predicate ThroughUpTo(base: Path, k: nat, path: Path) {
    exists i :: 0 <= i < k && Through(base, i, path)
  }

  /** Directory d of the list lies in a directory that stands earlier, from lo on. */
  ghost predicate HasParent(dirs: seq<Path>, lo: nat, d: nat) {
    d < |dirs| && dirs[d].Sub? && exists p :: lo <= p < d && dirs[d].parent == dirs[p]
  }

  /** Only entries lo..hi may differ. */
  ghost predicate Kept(s: seq<Path>, s': seq<Path>, lo: nat, hi: nat) {
    |s| == |s'| && forall x :: 0 <= x < |s| && (x < lo || hi <= x) ==> s'[x] == s[x]
  }

  /** Entries lo..hi of a list have numbers below max. */
  ghost predicate Narrow(s: seq<Path>, lo: nat, hi: nat, max: nat) {
    lo <= hi <= |s| && forall x :: lo <= x < hi ==> s[x].Sub? && s[x].i < max
  }

  /** Files foff..foff' lie on one level, in directories doff..doff' of the list. */
  ghost predicate Housed(names: seq<Path>, dirs: seq<Path>, foff: nat, foff': nat, doff: nat, doff': nat, level: nat) {
    && foff' <= |names|
    && forall x :: foff <= x < foff' ==> names[x].Depth() == level && HasHome(names[x], dirs, doff, doff')
  }

  ghost predicate HasHome(name: Path, dirs: seq<Path>, doff: nat, doff': nat) {
    name.Sub? && exists p :: doff <= p <= doff' && p < |dirs| && name.parent == dirs[p]
  }

  /** What a call makes of the lists below directory doff. */
  ghost predicate Outcome(names: seq<Path>, dirs: seq<Path>, foff: nat, foff': nat, doff: nat, doff': nat,
                          level: nat, max: nat) {
    && doff < |dirs|
    && Grown(dirs[doff], names, foff, foff')
    && Grown(dirs[doff], dirs, doff + 1, doff' + 1)
    && (forall d :: doff < d <= doff' ==> HasParent(dirs, doff, d))
    && Narrow(names, foff, foff', max) && Narrow(dirs, doff + 1, doff' + 1, max)
    && Housed(names, dirs, foff, foff', doff, doff', level)
  }

  /** The same after k children. */
  ghost predicate Partial(names: seq<Path>, dirs: seq<Path>, foff: nat, foff': nat, doff: nat, doff': nat,
                          level: nat, max: nat, k: nat) {
    && doff < |dirs|
    && GrownTo(dirs[doff], names, foff, foff', k)
    && GrownTo(dirs[doff], dirs, doff + 1, doff' + 1, k)
    && (forall d :: doff < d <= doff' ==> HasParent(dirs, doff, d))
    && Narrow(names, foff, foff', max) && Narrow(dirs, doff + 1, doff' + 1, max)
    && Housed(names, dirs, foff, foff', doff, doff', level)
  }

  lemma NarrowJoins(s: seq<Path>, s': seq<Path>, lo: nat, hi: nat, hi': nat, max: nat)
    requires Narrow(s, lo, hi, max) && Narrow(s', hi, hi', max) && Kept(s, s', hi, hi')
    ensures Narrow(s', lo, hi', max)
  {
  }

  lemma HousedJoins(names: seq<Path>, dirs: seq<Path>, names': seq<Path>, dirs': seq<Path>,
                    foff: nat, f0: nat, f1: nat, doff: nat, d0: nat, d1: nat, level: nat)
    requires Housed(names, dirs, foff, f0, doff, d0, level) && Housed(names', dirs', f0, f1, d0 + 1, d1, level)
    requires Kept(names, names', f0, f1) && Kept(dirs, dirs', d0 + 1, d1 + 1) && doff <= d0 <= d1
    ensures Housed(names', dirs', foff, f1, doff, d1, level)
  {
    forall x | foff <= x < f1 ensures names'[x].Depth() == level && HasHome(names'[x], dirs', doff, d1) {
      if x < f0 {
        assert HasHome(names[x], dirs, doff, d0);
        var p :| doff <= p <= d0 && p < |dirs| && names[x].parent == dirs[p];
        assert names'[x].parent == dirs'[p];
      } else {
        assert HasHome(names'[x], dirs', d0 + 1, d1);
        var p :| d0 + 1 <= p <= d1 && p < |dirs'| && names'[x].parent == dirs'[p];
      }
    }
  }

  lemma PartialIsOutcome(names: seq<Path>, dirs: seq<Path>, foff: nat, foff': nat, doff: nat, doff': nat,
                         level: nat, max: nat, k: nat)
    requires Partial(names, dirs, foff, foff', doff, doff', level, max, k)
    ensures Outcome(names, dirs, foff, foff', doff, doff', level, max)
  {
    forall path, i ensures Through(dirs[doff], i, path) ==> Below(dirs[doff], path) {
      ThroughIsBelow(dirs[doff], i, path);
    }
  }

  /** Entries of the next child join those of the earlier ones. */
  lemma GrowStep(base: Path, s: seq<Path>, s': seq<Path>, lo: nat, hi: nat, hi': nat, k: nat)
    requires GrownTo(base, s, lo, hi, k) && Kept(s, s', hi, hi') && hi <= hi' <= |s|
    requires forall x :: hi <= x < hi' ==> Through(base, k, s'[x])
    requires forall x, y :: hi <= x < y < hi' ==> s'[x] != s'[y]
    ensures GrownTo(base, s', lo, hi', k + 1)
  {
    forall x | lo <= x < hi' ensures ThroughUpTo(base, k + 1, s'[x]) {
      if x < hi {
        assert ThroughUpTo(base, k, s[x]);
      } else {
        assert Through(base, k, s'[x]);
      }
    }
    forall x, y | lo <= x < y < hi' ensures s'[x] != s'[y] {
      if x < hi <= y && s'[x] == s'[y] {
        assert ThroughUpTo(base, k, s[x]);
        var i :| 0 <= i < k && Through(base, i, s[x]);
        OneEntry(base, i, k, s[x]);
      }
    }
  }

  /** Everything below entry k of `base`, and the entry itself, is reached through it. */
  lemma ChildThrough(base: Path, k: nat, s: seq<Path>, lo: nat, hi: nat)
    requires Grown(Sub(base, k), s, lo, hi)
    ensures forall x :: lo <= x < hi ==> Through(base, k, s[x]) && s[x] != Sub(base, k)
  {
    forall x | lo <= x < hi ensures Through(base, k, s[x]) && s[x] != Sub(base, k) {
      ThroughIsBelow(base, k, s[x]);
      BelowIsDeeper(Sub(base, k), s[x]);
    }
  }

  /** One child: its directory at d0 + 1 and the outcome of the call for it. */
  lemma ChildJoins(names: seq<Path>, dirs: seq<Path>, names': seq<Path>, dirs': seq<Path>,
                   foff: nat, f0: nat, f1: nat, doff: nat, d0: nat, d1: nat, level: nat, max: nat, k: nat)
    requires Partial(names, dirs, foff, f0, doff, d0, level, max, k) && k < max
    requires f0 <= f1 <= |names| && d0 + 1 <= d1 < |dirs|
    requires Kept(names, names', f0, f1) && Kept(dirs, dirs', d0 + 1, d1 + 1)
    requires doff <= d0 && dirs'[d0 + 1] == Sub(dirs[doff], k) && Outcome(names', dirs', f0, f1, d0 + 1, d1, level, max)
    ensures Partial(names', dirs', foff, f1, doff, d1, level, max, k + 1)
  {
    var base := dirs[doff];
    ChildThrough(base, k, names', f0, f1);
    ChildThrough(base, k, dirs', d0 + 2, d1 + 1);
    GrowStep(base, names, names', foff, f0, f1, k);
    forall x | d0 + 1 <= x < d1 + 1 ensures Through(base, k, dirs'[x]) {
    }
    GrowStep(base, dirs, dirs', doff + 1, d0 + 1, d1 + 1, k);
    forall d | doff < d <= d1 ensures HasParent(dirs', doff, d) {
      ParentKept(dirs, dirs', doff, d0, d1, d);
    }
    NarrowJoins(names, names', foff, f0, f1, max);
    NarrowJoins(dirs, dirs', doff + 1, d0 + 1, d1 + 1, max);
    HousedJoins(names, dirs, names', dirs', foff, f0, f1, doff, d0, d1, level);
  }

  lemma ParentKept(dirs: seq<Path>, dirs': seq<Path>, doff: nat, d0: nat, d1: nat, d: nat)
    requires doff <= d0 < d1 < |dirs| && Kept(dirs, dirs', d0 + 1, d1 + 1) && doff < d <= d1
    requires d <= d0 ==> HasParent(dirs, doff, d)
    requires d == d0 + 1 ==> dirs'[d].Sub? && dirs'[d].parent == dirs[doff]
    requires d > d0 + 1 ==> HasParent(dirs', d0 + 1, d)
    ensures HasParent(dirs', doff, d)
  {
    if d <= d0 {
      var p :| doff <= p < d && dirs[d].parent == dirs[p];
      assert dirs'[d].parent == dirs'[p];
    } else if d == d0 + 1 {
      assert dirs'[d].parent == dirs'[doff];
    }
  }

  /** The count of the loop head: max to the power of the depth. */
  method BlockSize(max: Positive, depth: nat) returns (count: Positive)
    requires depth > 0
    ensures count == Pow(max, depth)
  {
    count := max;
    assert max * 1 == max;
    for i := 1 to depth
      invariant count == Pow(max, i)
    {
      count := Product(max, count);
    }
  }

  /** setup_names_recurse: fills the lists from the two shared counters on. */
  method Recurse(names: array<Path>, dirs: array<Path>, foff: nat, doff: nat, depth: nat, max: Positive, n: nat)
    returns (foff': nat, doff': nat)
    requires names != dirs && foff < n <= names.Length
    requires doff + Dirs(max, depth, Files(max, depth, n - foff)) < dirs.Length
    modifies names, dirs
    ensures foff' == foff + Files(max, depth, n - foff) <= n
    ensures doff' == doff + Dirs(max, depth, foff' - foff) < dirs.Length
    ensures Kept(old(names[..]), names[..], foff, foff') && Kept(old(dirs[..]), dirs[..], doff + 1, doff' + 1)
    ensures Outcome(names[..], dirs[..], foff, foff', doff, doff', dirs[doff].Depth() + depth + 1, max)
    ensures Numbered(names[..], foff, foff', max, FirstFile(dirs[doff], max, depth))
    decreases depth, 1
  {
    if depth > 0 {
      foff', doff' := Children(names, dirs, foff, doff, depth, max, n);
    } else {
      foff', doff' := Leaves(names, dirs, foff, doff, max, n);
    }
  }

  /** The loop of a directory on the lowest level. */
  method Leaves(names: array<Path>, dirs: array<Path>, foff: nat, doff: nat, max: Positive, n: nat)
    returns (foff': nat, doff': nat)
    requires names != dirs && foff < n <= names.Length && doff < dirs.Length
    modifies names
    ensures foff' == foff + Files(max, 0, n - foff) <= n && doff' == doff
    ensures Kept(old(names[..]), names[..], foff, foff')
    ensures Outcome(names[..], dirs[..], foff, foff', doff, doff', dirs[doff].Depth() + 1, max)
    ensures Numbered(names[..], foff, foff', max, FirstFile(dirs[doff], max, 0))
  {
    foff', doff' := foff, doff;
    var i := 0;
    while i < max && foff' < n
      invariant 0 <= i <= max && foff' == foff + i <= n
      invariant Kept(old(names[..]), names[..], foff, foff')
      invariant forall x :: foff <= x < foff' ==> names[x] == Sub(dirs[doff], x - foff)
    {
      names[foff'] := Sub(dirs[doff], i);
      foff' := foff' + 1;
      i := i + 1;
    }
    assert max * 1 == max;
    assert Pow(max, 1) == max;
  }

  /** The loop of a directory above it. */
  method Children(names: array<Path>, dirs: array<Path>, foff: nat, doff: nat, depth: nat, max: Positive, n: nat)
    returns (foff': nat, doff': nat)
    requires names != dirs && foff < n <= names.Length && depth > 0
    requires doff + Dirs(max, depth, Files(max, depth, n - foff)) < dirs.Length
    modifies names, dirs
    ensures foff' == foff + Files(max, depth, n - foff) <= n
    ensures doff' == doff + Dirs(max, depth, foff' - foff) < dirs.Length
    ensures Kept(old(names[..]), names[..], foff, foff') && Kept(old(dirs[..]), dirs[..], doff + 1, doff' + 1)
    ensures Outcome(names[..], dirs[..], foff, foff', doff, doff', dirs[doff].Depth() + depth + 1, max)
    ensures Numbered(names[..], foff, foff', max, FirstFile(dirs[doff], max, depth))
    decreases depth, 0
  {
    var count := BlockSize(max, depth);
    var ndirs := (n - foff) / count + 1;
    foff', doff' := foff, doff;
    ghost var level := dirs[doff].Depth() + depth + 1;
    var i := 0;
    NothingYet(max, depth, n - foff);
    while i < max && i < ndirs && foff' < n
      invariant 0 <= i <= max && foff <= foff' <= n && doff <= doff' < dirs.Length
      invariant Progress(max, depth, n - foff, i, foff' - foff, doff' - doff)
      invariant Kept(old(names[..]), names[..], foff, foff') && Kept(old(dirs[..]), dirs[..], doff + 1, doff' + 1)
      invariant Partial(names[..], dirs[..], foff, foff', doff, doff', level, max, i)
      invariant Numbered(names[..], foff, foff', max, FirstFile(dirs[doff], max, depth))
    {
      foff', doff' := OneChild(names, dirs, foff, foff', doff, doff', depth, max, n, i, level);
      i := i + 1;
    }
    AllChildren(max, depth, n - foff, i, foff' - foff, doff' - doff);
    PartialIsOutcome(names[..], dirs[..], foff, foff', doff, doff', level, max, i);
  }

  /** The body of that loop: a new directory, and the call for it. */
  method OneChild(names: array<Path>, dirs: array<Path>, ghost foff: nat, f0: nat, doff: nat, d0: nat,
                  depth: nat, max: Positive, n: nat, i: nat, ghost level: nat)
    returns (f1: nat, d1: nat)
    requires names != dirs && foff <= f0 < n <= names.Length && depth > 0 && doff <= d0 && i < max
    requires doff + Dirs(max, depth, Files(max, depth, n - foff)) < dirs.Length
    requires Progress(max, depth, n - foff, i, f0 - foff, d0 - doff)
    requires Partial(names[..], dirs[..], foff, f0, doff, d0, level, max, i) && level == dirs[doff].Depth() + depth + 1
    requires Numbered(names[..], foff, f0, max, FirstFile(dirs[doff], max, depth))
    modifies names, dirs
    ensures f0 <= f1 <= n && d0 <= d1 < dirs.Length
    ensures Progress(max, depth, n - foff, i + 1, f1 - foff, d1 - doff)
    ensures Kept(old(names[..]), names[..], f0, f1) && Kept(old(dirs[..]), dirs[..], d0 + 1, d1 + 1)
    ensures Partial(names[..], dirs[..], foff, f1, doff, d1, level, max, i + 1)
    ensures Numbered(names[..], foff, f1, max, FirstFile(dirs[doff], max, depth))
    decreases depth, 0, 0
  {
    RoomForChild(max, depth, n - foff, i, f0 - foff, d0 - doff);
    ghost var ns, ds := names[..], dirs[..];
    dirs[d0 + 1] := Sub(dirs[doff], i);
    f1, d1 := Recurse(names, dirs, f0, d0 + 1, depth - 1, max, n);
    ChildDone(max, depth, n - foff, i, f0 - foff, d0 - doff);
    ChildJoins(ns, ds, names[..], dirs[..], foff, f0, f1, doff, d0, d1, level, max, i);
    NumberedJoins(ns, names[..], foff, f0, f1, ds[doff], max, depth, i);
  }

  lemma NothingYet(m: Positive, depth: nat, left: nat)
    requires depth > 0
    ensures Progress(m, depth, left, 0, 0, 0)
  {
    DirsOfNone(m, depth);
  }

  /** After k children: g files and d directories. */
  ghost predicate Progress(m: Positive, depth: nat, left: nat, k: nat, g: nat, d: nat) {
    depth > 0 && g == Min(left, k * Pow(m, depth)) && d == Dirs(m, depth, g)
  }

  /** The next child's directories still fit into what was promised. */
  lemma RoomForChild(m: Positive, depth: nat, left: nat, k: nat, g: nat, d: nat)
    requires Progress(m, depth, left, k, g, d) && k < m && g < left
    ensures d + 1 + Dirs(m, depth - 1, Files(m, depth - 1, left - g)) <= Dirs(m, depth, Files(m, depth, left))
    ensures g == k * Pow(m, depth)
  {
    var b := Pow(m, depth);
    var v := Min(left - g, b);
    DirsStep(m, depth, k, v);
    MulLe(k + 1, m, b);
    assert (k + 1) * b == k * b + b;
    DirsMonotone(m, depth, g + v, Files(m, depth, left));
  }

  lemma ChildDone(m: Positive, depth: nat, left: nat, k: nat, g: nat, d: nat)
    requires Progress(m, depth, left, k, g, d) && k < m && g < left
    ensures var v := Files(m, depth - 1, left - g);
            Progress(m, depth, left, k + 1, g + v, d + 1 + Dirs(m, depth - 1, v))
  {
    var b := Pow(m, depth);
    var v := Min(left - g, b);
    DirsStep(m, depth, k, v);
    assert (k + 1) * b == k * b + b;
  }

  lemma AllChildren(m: Positive, depth: nat, left: nat, k: nat, g: nat, d: nat)
    requires Progress(m, depth, left, k, g, d) && (k >= m || k >= left / Pow(m, depth) + 1 || g >= left) && k <= m
    ensures g == Files(m, depth, left) && d == Dirs(m, depth, g)
  {
    var b := Pow(m, depth);
    MulLe(k, m, b);
    if k < m && g < left {
      PastTheEnd(left, b, k);
    }
  }

  lemma PastTheEnd(left: nat, b: Positive, k: nat)
    requires k >= left / b + 1
    ensures k * b > left
  {
    MulLe(left / b + 1, k, b);
    assert left == (left / b) * b + left % b;
    assert (left / b + 1) * b == (left / b) * b + b;
  }

  // ----- the count made beforehand -----

  lemma RoundUp(a: nat, m: Positive)
    ensures a / m + (if a % m != 0 then 1 else 0) == Ceil(a, m)
  {
    var q := a / m + (if a % m != 0 then 1 else 0);
    assert a == (a / m) * m + a % m;
    assert (a / m + 1) * m == (a / m) * m + m;
    CeilIs(a, m, q);
  }

  /** The count after k passes of the loop. */
  function LevelCount(m: Positive, n: nat, k: nat): nat {
    if k == 0 then Ceil(n, m) else Ceil(LevelCount(m, n, k - 1), m)
  }

  /** The loop leaves after some pass. */
  ghost predicate LevelsEnd(m: Positive, n: nat) { exists k: nat :: LevelCount(m, n, k) <= 1 }

  lemma CeilByOne(a: nat)
    ensures Ceil(a, 1) == a
  {
    assert a * 1 == a;
    CeilIs(a, 1, a);
  }

  lemma {:induction false} SameCount(n: nat, k: nat)
    ensures LevelCount(1, n, k) == n
  {
    if k > 0 {
      SameCount(n, k - 1);
    }
    CeilByOne(n);
  }

  /** With at least two entries to a directory every pass shrinks the count, down to one. */
  lemma {:induction false} CountShrinks(m: Positive, n: nat, k: nat)
    requires m > 1
    ensures LevelCount(m, n, k) <= 1 || LevelCount(m, n, k) + k <= Ceil(n, m)
  {
    if k > 0 {
      CountShrinks(m, n, k - 1);
      var before := LevelCount(m, n, k - 1);
      if before > 1 {
        CeilShrinks(before, m);
      } else {
        CeilOfOne(before, m);
      }
    }
  }

  lemma CeilOfOne(a: nat, m: Positive)
    requires a <= 1
    ensures Ceil(a, m) == a
  {
    assert 1 * m == m;
    CeilIs(a, m, a);
  }

  /** The counting loop ends if and only if a directory can have two entries or one file is
      asked for. */
  lemma CountEndsIff(m: Positive, n: Positive)
    ensures LevelsEnd(m, n) <==> m > 1 || n == 1
  {
    if m > 1 {
      var k := Ceil(n, m);
      CountShrinks(m, n, k);
      assert LevelCount(m, n, k) <= 1;
    } else {
      SameCount(n, 0);
      assert LevelsEnd(m, n) ==> n == 1 by {
        if k: nat :| LevelCount(m, n, k) <= 1 {
          SameCount(n, k);
        }
      }
    }
  }

  /** What the counting loop knows: nd directories on this level, `total` down to it. */
  ghost predicate Counted(m: Positive, n: nat, depth: nat, nd: nat, total: nat) {
    && nd == Ceil(n, Pow(m, depth + 1)) && nd == LevelCount(m, n, depth)
    && total == Dirs(m, depth, n) + nd
  }

  lemma LowestLevel(m: Positive, n: nat)
    ensures Counted(m, n, 0, Ceil(n, m), Ceil(n, m))
  {
    assert m * 1 == m;
    assert Pow(m, 1) == Product(m, Pow(m, 0)) == m;
  }

  lemma NextLevel(m: Positive, n: nat, depth: nat, nd: nat, total: nat)
    requires Counted(m, n, depth, nd, total)
    ensures Counted(m, n, depth + 1, Ceil(nd, m), total + Ceil(nd, m))
  {
    var b := Pow(m, depth + 1);
    CeilTwice(n, b, m);
    assert Product(b, m) == Product(m, b) == Pow(m, depth + 2);
  }

  /** One directory on the last level: the recursion from it writes all n names. */
  lemma LastLevel(m: Positive, n: nat, depth: nat, total: nat)
    requires Counted(m, n, depth, 1, total)
    ensures Files(m, depth, n) == n && total == Dirs(m, depth, n) + 1
  {
    CeilBounds(n, Pow(m, depth + 1));
  }

  lemma SeveralNeeded(m: Positive, n: nat, depth: nat)
    requires Ceil(n, Pow(m, depth + 1)) > 1
    ensures n > Pow(m, depth + 1)
  {
    var b := Pow(m, depth + 1);
    CeilBounds(n, b);
    MulLe(2, Ceil(n, b), b);
  }

  lemma OneSuffices(m: Positive, n: nat, depth: nat)
    requires Ceil(n, Pow(m, depth + 1)) <= 1
    ensures n <= Pow(m, depth + 1)
  {
    CeilBounds(n, Pow(m, depth + 1));
  }

  /** One pass of the counting loop. */
  method NextCount(n: Positive, max: Positive, nd: nat, ndirs: nat, depth: nat) returns (nd': nat, ndirs': nat)
    requires nd > 1 && max > 1 && Counted(max, n, depth, nd, ndirs)
    ensures 0 < nd' < nd && Counted(max, n, depth + 1, nd', ndirs') && n > Pow(max, depth + 1)
  {
    SeveralNeeded(max, n, depth);
    NextLevel(max, n, depth, nd, ndirs);
    CeilShrinks(nd, max);
    RoundUp(nd, max);
    nd' := nd / max + (if nd % max != 0 then 1 else 0);
    ndirs' := ndirs + nd';
  }

  /** The count of the lowest directories. */
  method LowestCount(n: Positive, max: Positive) returns (nd: nat)
    requires LevelsEnd(max, n)
    ensures nd > 0 && (nd > 1 ==> max > 1) && Counted(max, n, 0, nd, nd)
  {
    CountEndsIff(max, n);
    nd := n / max;
    if n % max != 0 {
      nd := nd + 1;
    }
    RoundUp(n, max);
    LowestLevel(max, n);
    CeilBounds(n, max);
    CeilOfOne(1, max);
  }

  /** The count at the start of setup_names: as few levels as will do. */
  method CountLevels(n: Positive, max: Positive) returns (ndirs: nat, depth: nat)
    requires LevelsEnd(max, n)
    ensures Counted(max, n, depth, 1, ndirs)
    ensures n <= Pow(max, depth + 1) && (depth > 0 ==> n > Pow(max, depth))
  {
    ndirs := LowestCount(n, max);
    var nd := ndirs;
    depth := 0;
    while nd > 1
      invariant nd > 0 && (nd > 1 ==> max > 1)
      invariant Counted(max, n, depth, nd, ndirs)
      invariant depth > 0 ==> n > Pow(max, depth)
    {
      nd, ndirs := NextCount(n, max, nd, ndirs, depth);
      depth := depth + 1;
    }
    OneSuffices(max, n, depth);
  }

  /** setup_names; `complaint` is its own test of the two counters. */
  method SetupNames(n: Positive, max: Positive)
    returns (names: array<Path>, dirs: array<Path>, complaint: bool, ghost level: nat)
    requires LevelsEnd(max, n)
    ensures fresh(names) && fresh(dirs) && names != dirs
    ensures names.Length == n && dirs.Length > 0 && dirs[0] == Top && !complaint
    ensures Outcome(names[..], dirs[..], 0, n, 0, dirs.Length - 1, level, max)
    ensures level > 0 && n <= Pow(max, level) && (level > 1 ==> n > Pow(max, level - 1))
    ensures forall x :: 0 <= x < n ==> names[x].Number(max) == x
  {
    var ndirs, depth := CountLevels(n, max);
    LastLevel(max, n, depth, ndirs);
    names, dirs := new Path[n](_ => Top), new Path[ndirs](_ => Top);
    var foff, doff := Recurse(names, dirs, 0, 0, depth, max, n);
    complaint := foff != n || doff != ndirs - 1;
    level := depth + 1;
  }

  // ----- removing the directories -----

  /** The file system: rmdir removes a directory only if nothing lies in it. */
  class Disk {
    var entries: set<Path>

    method Rmdir(path: Path) returns (done: bool)
      modifies this
      ensures done <==> path in old(entries) && Empty(old(entries), path)
      ensures entries == if done then old(entries) - {path} else old(entries)
    {
      done := path in entries && Empty(entries, path);
      if done {
        entries := entries - {path};
      }
    }
  }

  predicate Empty(entries: set<Path>, path: Path) {
    forall e :: e in entries ==> !(e.Sub? && e.parent == path)
  }

  /** Each directory but the first lies in an earlier one, and all differ. */
  ghost predicate ParentsFirst(dirs: seq<Path>) {
    && |dirs| > 0
    && (forall d :: 0 < d < |dirs| ==> HasParent(dirs, 0, d))
    && forall x, y :: 0 <= x < y < |dirs| ==> dirs[x] != dirs[y]
  }

  /** All entries on the way to a listed directory are below max. */
  lemma {:induction false} DirectoryDigits(dirs: seq<Path>, d: nat, max: nat)
    requires |dirs| > 0 && dirs[0] == Top && d < |dirs| && Narrow(dirs, 1, |dirs|, max)
    requires forall e :: 0 < e < |dirs| ==> HasParent(dirs, 0, e)
    ensures dirs[d].Digits(max)
  {
    if d > 0 {
      assert HasParent(dirs, 0, d);
      var p :| 0 <= p < d && dirs[d].parent == dirs[p];
      DirectoryDigits(dirs, p, max);
    }
  }

  /** The lists made above hold exactly the files spelled by the numbers below n: any path of
      that length with entries below max is the one listed under its number. */
  lemma FilesAreNumbers(names: seq<Path>, dirs: seq<Path>, n: nat, level: nat, max: Positive, path: Path)
    requires |dirs| > 0 && dirs[0] == Top && Outcome(names, dirs, 0, n, 0, |dirs| - 1, level, max)
    requires forall x :: 0 <= x < n ==> names[x].Number(max) == x
    requires path.Digits(max) && path.Depth() == level && path.Number(max) < n
    ensures names[path.Number(max)] == path
  {
    var x := path.Number(max);
    assert HasHome(names[x], dirs, 0, |dirs| - 1);
    var p :| 0 <= p < |dirs| && names[x].parent == dirs[p];
    DirectoryDigits(dirs, p, max);
    NumberTells(names[x], path, max);
  }

  /** The lists made above have that order. */
  lemma OutcomeOrder(names: seq<Path>, dirs: seq<Path>, n: nat, level: nat, max: nat)
    requires |dirs| > 0 && Outcome(names, dirs, 0, n, 0, |dirs| - 1, level, max)
    ensures ParentsFirst(dirs)
  {
    forall y | 0 < y < |dirs| ensures dirs[0] != dirs[y] {
      assert Below(dirs[0], dirs[y]);
      BelowIsDeeper(dirs[0], dirs[y]);
    }
  }

  /** What lies in a listed directory is a listed directory: the files are gone. */
  ghost predicate OnlyDirectories(entries: set<Path>, dirs: seq<Path>) {
    forall e :: e in entries && e.Sub? && e.parent in dirs ==> e in dirs
  }

  /** A child stands behind its parent. */
  lemma ChildLater(dirs: seq<Path>, p: nat, d: nat)
    requires ParentsFirst(dirs) && p < |dirs| && d < |dirs| && dirs[d].Sub? && dirs[d].parent == dirs[p]
    requires dirs[0] == Top
    ensures p < d
  {
    assert HasParent(dirs, 0, d);
    var q :| 0 <= q < d && dirs[d].parent == dirs[q];
  }

  lemma NothingInside(entries: set<Path>, dirs: seq<Path>, i: nat, left: set<Path>)
    requires ParentsFirst(dirs) && dirs[0] == Top && i < |dirs| && OnlyDirectories(entries, dirs)
    requires left <= entries && forall d :: i < d < |dirs| ==> dirs[d] !in left
    ensures Empty(left, dirs[i])
  {
    forall e | e in left ensures !(e.Sub? && e.parent == dirs[i]) {
      if e.Sub? && e.parent == dirs[i] {
        var d :| 0 <= d < |dirs| && dirs[d] == e;
        ChildLater(dirs, i, d);
        assert false;
      }
    }
  }

  function From(dirs: seq<Path>, i: nat): set<Path> { set d | i <= d < |dirs| :: dirs[d] }

  /** The loop of cleanup_names: no call fails, and exactly the listed directories go. */
  method CleanupNames(disk: Disk, dirs: array<Path>) returns (done: bool)
    requires ParentsFirst(dirs[..]) && dirs[0] == Top
    requires (forall d :: 0 <= d < dirs.Length ==> dirs[d] in disk.entries)
    requires OnlyDirectories(disk.entries, dirs[..])
    modifies disk
    ensures done && disk.entries == old(disk.entries) - From(dirs[..], 0)
  {
    var i := dirs.Length;
    done := true;
    while i > 0
      invariant 0 <= i <= dirs.Length && done
      invariant disk.entries == old(disk.entries) - From(dirs[..], i)
    {
      i := i - 1;
      Others(dirs[..], i, old(disk.entries), disk.entries);
      NothingInside(old(disk.entries), dirs[..], i, disk.entries);
      var removed := disk.Rmdir(dirs[i]);
      done := done && removed;
    }
  }

  lemma Others(dirs: seq<Path>, i: nat, before: set<Path>, now: set<Path>)
    requires ParentsFirst(dirs) && i < |dirs| && dirs[i] in before && now == before - From(dirs, i + 1)
    ensures dirs[i] in now && forall d :: i < d < |dirs| ==> dirs[d] !in now
    ensures now - {dirs[i]} == before - From(dirs, i)
  {
    assert From(dirs, i) == From(dirs, i + 1) + {dirs[i]};
  }
}
