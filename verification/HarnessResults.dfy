/** What is measured is what is collected: every child makes its repetitions, and the parent ends
    with all of them. */
module HarnessResults {
  import opened Arithmetic
  import opened Collections
  import opened Samples
  import opened Harness
  import opened HarnessSafety
  import opened HarnessRoom

  // ----- the measurements of a run -----

  predicate KeptBy(a: Action, c: nat) { a.Measure? && a.c == c && a.keep }

  /** The measurements that child c kept, in order. */
  function Kept(acts: seq<Action>, c: nat): seq<Sample> {
    if acts == [] then []
    else
      var a := acts[|acts| - 1];
      Kept(acts[..|acts| - 1], c) + if KeptBy(a, c) then [a.x] else []
  }

  /** Child c stopped before its time. */
  predicate GaveUp(acts: seq<Action>, c: nat) {
    acts != [] && (GaveUp(acts[..|acts| - 1], c) || var a := acts[|acts| - 1]; a.Measure? && a.c == c && a.giveUp)
  }

  ghost predicate Counted(cfg: Config, p: Phase, list: seq<Sample>, kept: seq<Sample>, gaveUp: bool) {
    && list == InsertedAll([], kept)
    && (Rank(p) < 3 ==> kept == [])
    && (p.Timing? ==> |kept| == p.i && !gaveUp)
    && (Rank(p) >= 4 && !gaveUp ==> |kept| == Most(cfg))
    && (cfg.children > 1 || Rank(p) < 3 ==> !gaveUp)
  }

  ghost predicate AllCounted(cfg: Config, s: State, acts: seq<Action>) {
    && |s.phase| == |s.lists| == cfg.children
    && forall c :: 0 <= c < cfg.children ==> Counted(cfg, s.phase[c], s.lists[c], Kept(acts, c), GaveUp(acts, c))
  }

  lemma OneMoreKept(kept: seq<Sample>, x: Sample)
    ensures InsertedAll([], kept + [x]) == Inserted(InsertedAll([], kept), x)
  {
    assert (kept + [x])[..|kept|] == kept;
  }

  /** A measurement counts for the child that makes it. */
  lemma MeasureCounts(cfg: Config, s: State, c: nat, x: Sample, keep: bool, giveUp: bool, s': State,
                      kept: seq<Sample>, gaveUp: bool)
    requires Step(cfg, s, Measure(c, x, keep, giveUp)) == Some(s') && c < |s.phase| == |s.lists|
    requires ListOk(cfg, s.phase[c], s.lists[c]) && Counted(cfg, s.phase[c], s.lists[c], kept, gaveUp)
    ensures |s'.phase| == |s.phase| && |s'.lists| == |s.lists|
    ensures Counted(cfg, s'.phase[c], s'.lists[c], kept + (if keep then [x] else []), gaveUp || giveUp)
  {
    OneMoreKept(kept, x);
    assert kept + [] == kept;
  }

  /** Where a step that is no measurement can bring a child. */
  predicate NextTo(p: Phase, p': Phase) {
    p' == p || (Rank(p) < 3 && (Rank(p') < 3 || p' == Timing(0))) || (Rank(p) >= 4 && Rank(p') >= 4)
  }

  lemma NotMeasured(cfg: Config, s: State, a: Action, s': State, c: nat)
    requires Step(cfg, s, a) == Some(s') && c < |s.phase| == |s.lists| && !(a.Measure? && a.c == c)
    ensures |s'.phase| == |s.phase| && |s'.lists| == |s.lists|
    ensures s'.lists[c] == s.lists[c] && NextTo(s.phase[c], s'.phase[c])
  {
    if !OfParent(a) {
      ChildMoves(cfg, s, a, s', c);
    }
  }

  lemma ChildMoves(cfg: Config, s: State, a: Action, s': State, c: nat)
    requires !OfParent(a) && a.c < |s.phase| == |s.lists| && ChildStep(cfg, s, a.c, a) == Some(s')
    requires c < |s.phase| && !(a.Measure? && a.c == c)
    ensures |s'.phase| == |s.phase| && |s'.lists| == |s.lists|
    ensures s'.lists[c] == s.lists[c] && NextTo(s.phase[c], s'.phase[c])
  {
  }

  lemma CountStays(cfg: Config, p: Phase, p': Phase, list: seq<Sample>, kept: seq<Sample>, gaveUp: bool)
    requires Counted(cfg, p, list, kept, gaveUp) && NextTo(p, p')
    ensures Counted(cfg, p', list, kept, gaveUp)
  {
  }

  lemma ChildCounted(cfg: Config, acts: seq<Action>, s: State, s': State, c: nat)
    requires acts != [] && Common(cfg, s) && AllCounted(cfg, s, acts[..|acts| - 1])
    requires Step(cfg, s, acts[|acts| - 1]) == Some(s') && c < cfg.children
    ensures |s'.phase| == |s'.lists| == cfg.children
    ensures Counted(cfg, s'.phase[c], s'.lists[c], Kept(acts, c), GaveUp(acts, c))
  {
    var front, a := acts[..|acts| - 1], acts[|acts| - 1];
    var kept, gaveUp := Kept(front, c), GaveUp(front, c);
    assert ListOk(cfg, s.phase[c], s.lists[c]) && Counted(cfg, s.phase[c], s.lists[c], kept, gaveUp);
    if a.Measure? && a.c == c {
      MeasureCounts(cfg, s, c, a.x, a.keep, a.giveUp, s', kept, gaveUp);
    } else {
      NotMeasured(cfg, s, a, s', c);
      CountStays(cfg, s.phase[c], s'.phase[c], s.lists[c], kept, gaveUp);
      assert Kept(acts, c) == kept;
    }
  }

  lemma StepCounted(cfg: Config, acts: seq<Action>, s: State, s': State)
    requires acts != [] && Common(cfg, s) && AllCounted(cfg, s, acts[..|acts| - 1])
    requires Step(cfg, s, acts[|acts| - 1]) == Some(s')
    ensures AllCounted(cfg, s', acts)
  {
    SameChildren(cfg, s, acts[|acts| - 1], s');
    forall c | 0 <= c < cfg.children
      ensures Counted(cfg, s'.phase[c], s'.lists[c], Kept(acts, c), GaveUp(acts, c))
    {
      ChildCounted(cfg, acts, s, s', c);
    }
  }

  lemma SameChildren(cfg: Config, s: State, a: Action, s': State)
    requires Step(cfg, s, a) == Some(s')
    ensures |s'.phase| == |s.phase| && |s'.lists| == |s.lists|
  {
  }

  lemma {:induction false} RunCounted(cfg: Config, acts: seq<Action>)
    requires Run(cfg, acts).Some?
    ensures AllCounted(cfg, Run(cfg, acts).value, acts)
  {
    if acts != [] {
      RunCounted(cfg, acts[..|acts| - 1]);
      RunInv(cfg, acts[..|acts| - 1]);
      StepCounted(cfg, acts, Run(cfg, acts[..|acts| - 1]).value, Run(cfg, acts).value);
    }
  }

  // ----- what it means -----

  /** Main result: in every run a child that has said that it is done has made exactly its
      repetitions, one at least, and its list holds exactly those of them that took any time.  With
      other children none can give up; a single child may. */
  lemma MakesItsRepetitions(cfg: Config, acts: seq<Action>, c: nat)
    requires Run(cfg, acts).Some? && c < cfg.children
    ensures var s := Run(cfg, acts).value;
            && |s.phase| == |s.lists| == cfg.children
            && s.lists[c] == InsertedAll([], Kept(acts, c))
            && (Rank(s.phase[c]) >= 4 && !GaveUp(acts, c) ==> |Kept(acts, c)| == Most(cfg))
            && (s.phase[c].Timing? ==> |Kept(acts, c)| == s.phase[c].i)
            && (Rank(s.phase[c]) < 3 ==> Kept(acts, c) == [])
    ensures cfg.children > 1 ==> !GaveUp(acts, c)
  {
    RunCounted(cfg, acts);
    var s := Run(cfg, acts).value;
    assert Counted(cfg, s.phase[c], s.lists[c], Kept(acts, c), GaveUp(acts, c));
  }

  /** A single child may stop with nothing measured at all, whatever it is asked for. */
  lemma SingleMayGiveUp(cfg: Config, x: Sample) returns (acts: seq<Action>)
    requires cfg.children == 1
    ensures Run(cfg, acts).Some? && |Run(cfg, acts).value.phase| == 1 && Run(cfg, acts).value.phase[0] == Cooldown
    ensures GaveUp(acts, 0) && Kept(acts, 0) == []
  {
    var s := AllTiming(cfg, 1);
    var before: seq<Action> :| Run(cfg, before) == Some(s);
    MakesItsRepetitions(cfg, before, 0);
    var a := Measure(0, x, false, true);
    acts := before + [a];
    assert acts[..|acts| - 1] == before;
    assert Step(cfg, s, a).Some?;
  }

  /** If all its measurements took some time, the list has them all. */
  lemma ListHasAll(cfg: Config, acts: seq<Action>, c: nat)
    requires Run(cfg, acts).Some? && c < cfg.children && NoneZero(Kept(acts, c))
    ensures var s := Run(cfg, acts).value;
            c < |s.lists| && |s.lists[c]| == |Kept(acts, c)| && multiset(s.lists[c]) == multiset(Kept(acts, c))
  {
    MakesItsRepetitions(cfg, acts, c);
    InsertedAllIs([], Kept(acts, c));
    assert |multiset(Run(cfg, acts).value.lists[c])| == |Run(cfg, acts).value.lists[c]|;
  }

  function AllKept(acts: seq<Action>, n: nat): multiset<Sample> {
    if n == 0 then multiset{} else AllKept(acts, n - 1) + multiset(Kept(acts, n - 1))
  }

  /** The lists are full. */
  ghost predicate Full(lists: seq<seq<Sample>>, acts: seq<Action>, each: nat) {
    forall c :: 0 <= c < |lists| ==> IsFull(lists[c], Kept(acts, c), each)
  }

  ghost predicate IsFull(list: seq<Sample>, kept: seq<Sample>, each: nat) {
    multiset(list) == multiset(kept) && |list| == each
  }

  lemma {:induction false} CollectsAll(lists: seq<seq<Sample>>, acts: seq<Action>, each: nat)
    requires Full(lists, acts, each)
    ensures AllSamples(lists) == AllKept(acts, |lists|)
  {
    if lists != [] {
      var front, n := lists[..|lists| - 1], |lists| - 1;
      CollectsAll(front, acts, each);
      assert IsFull(lists[n], Kept(acts, n), each);
    }
  }

  lemma {:induction false} CollectsMany(lists: seq<seq<Sample>>, acts: seq<Action>, each: nat)
    requires Full(lists, acts, each)
    ensures |AllSamples(lists)| == |lists| * each
  {
    if lists != [] {
      var front, n := lists[..|lists| - 1], |lists| - 1;
      CollectsMany(front, acts, each);
      assert IsFull(lists[n], Kept(acts, n), each);
      assert |multiset(lists[n])| == |lists[n]|;
      OneMore(n, each);
    }
  }

  /** Nobody gave up, and no measurement took no time. */
  ghost predicate AllTimed(cfg: Config, acts: seq<Action>) {
    forall c :: 0 <= c < cfg.children ==> !GaveUp(acts, c) && NoneZero(Kept(acts, c))
  }

  /** Main result: at the end the parent has every measurement that any child made, sorted, and their
      number is children times repetitions. */
  lemma ParentHasAll(cfg: Config, acts: seq<Action>)
    requires Run(cfg, acts).Some? && Run(cfg, acts).value.parent == Finished && AllTimed(cfg, acts)
    ensures var s := Run(cfg, acts).value;
            && Sorted(s.merged) && multiset(s.merged) == AllKept(acts, cfg.children)
            && |s.merged| == cfg.children * Most(cfg)
  {
    RunInv(cfg, acts);
    ListsFull(cfg, acts, Run(cfg, acts).value);
    EndHasAll(cfg, acts, Run(cfg, acts).value);
  }

  lemma EndHasAll(cfg: Config, acts: seq<Action>, s: State)
    requires Inv(cfg, s) && s.parent == Finished && |s.lists| == cfg.children && Full(s.lists, acts, Most(cfg))
    ensures Sorted(s.merged) && multiset(s.merged) == AllKept(acts, cfg.children)
    ensures |s.merged| == cfg.children * Most(cfg)
  {
    MergedAll(cfg, s);
    CollectsAll(s.lists, acts, Most(cfg));
    CollectsMany(s.lists, acts, Most(cfg));
    assert |multiset(s.merged)| == |s.merged|;
  }

  lemma ListsFull(cfg: Config, acts: seq<Action>, s: State)
    requires Run(cfg, acts) == Some(s) && Inv(cfg, s) && s.parent == Finished && AllTimed(cfg, acts)
    ensures |s.lists| == cfg.children && Full(s.lists, acts, Most(cfg))
  {
    AllPast(s.phase, 7);
    forall c | 0 <= c < cfg.children
      ensures IsFull(s.lists[c], Kept(acts, c), Most(cfg))
    {
      ListHasAll(cfg, acts, c);
      MakesItsRepetitions(cfg, acts, c);
    }
  }
}
