/** Whether the merged results fit into the buffer: a run that overflows it, and when none does. */
module HarnessRoom {
  import opened Arithmetic
  import opened Collections
  import opened Samples
  import opened Harness
  import opened HarnessSafety

  ghost predicate Reachable(cfg: Config, s: State) { exists acts: seq<Action> :: Run(cfg, acts) == Some(s) }

  lemma Extend(cfg: Config, s: State, a: Action, s': State)
    requires Reachable(cfg, s) && Step(cfg, s, a) == Some(s')
    ensures Reachable(cfg, s')
  {
    var acts: seq<Action> :| Run(cfg, acts) == Some(s);
    var more := acts + [a];
    assert more[..|more| - 1] == acts;
    assert Run(cfg, more) == Some(s');
  }

  // ----- no repetition asked for: every child keeps one measurement -----

  const KEPT := Sample(1, 1)

  /** Children before number k are in one place, the others in another. */
  ghost predicate Places(s: State, n: nat, k: nat, before: Phase, behind: Phase) {
    |s.phase| == |s.lists| == n && forall c :: 0 <= c < n ==> s.phase[c] == if c < k then before else behind
  }

  /** ... and have measured once if they are past it. */
  ghost predicate Lists(s: State, k: nat) {
    forall c :: 0 <= c < |s.lists| ==> s.lists[c] == if c < k then [KEPT] else []
  }

  lemma {:induction false} AllReady(cfg: Config, k: nat) returns (s: State)
    requires k <= cfg.children
    ensures Reachable(cfg, s) && s.parent == CollectReady(0) && s.start == 0 && s.taken == 0 && |s.log| == k
    ensures Places(s, cfg.children, k, Warming, Fresh) && Lists(s, 0) && s.merged == []
  {
    if k == 0 {
      s := Initial(cfg);
      assert Run(cfg, []) == Some(s);
    } else {
      var t := AllReady(cfg, k - 1);
      s := Step(cfg, t, FirstCall(k - 1)).value;
      Extend(cfg, t, FirstCall(k - 1), s);
    }
  }

  lemma Started(cfg: Config) returns (s: State)
    requires cfg.children > 0
    ensures Reachable(cfg, s) && s.parent == CollectDone(0) && s.start == cfg.children == s.taken == |s.log|
    ensures Places(s, cfg.children, 0, Timing(0), Warming) && Lists(s, 0) && s.merged == []
  {
    var t := AllReady(cfg, cfg.children);
    var u := Step(cfg, t, Read(cfg.children)).value;
    Extend(cfg, t, Read(cfg.children), u);
    s := Step(cfg, u, SendStart).value;
    Extend(cfg, u, SendStart, s);
  }

  lemma {:induction false} AllTiming(cfg: Config, k: nat) returns (s: State)
    requires 0 < cfg.children && k <= cfg.children
    ensures Reachable(cfg, s) && s.parent == CollectDone(0) && s.start == cfg.children - k
    ensures s.taken == |s.log| == cfg.children
    ensures Places(s, cfg.children, k, Timing(0), Warming) && Lists(s, 0) && s.merged == []
  {
    if k == 0 {
      s := Started(cfg);
    } else {
      var t := AllTiming(cfg, k - 1);
      var u := Step(cfg, t, SeeStart(k - 1)).value;
      Extend(cfg, t, SeeStart(k - 1), u);
      s := Step(cfg, u, TakeStart(k - 1)).value;
      Extend(cfg, u, TakeStart(k - 1), s);
    }
  }

  lemma {:induction false} AllMeasured(cfg: Config, k: nat) returns (s: State)
    requires 0 < cfg.children && k <= cfg.children && cfg.repetitions == 0
    ensures Reachable(cfg, s) && s.parent == CollectDone(0) && s.taken == cfg.children && |s.log| == cfg.children + k
    ensures Places(s, cfg.children, k, Cooldown, Timing(0)) && Lists(s, k) && s.merged == []
  {
    if k == 0 {
      s := AllTiming(cfg, cfg.children);
    } else {
      var t := AllMeasured(cfg, k - 1);
      var a := Measure(k - 1, KEPT, true, false);
      assert Inserted([], KEPT) == [KEPT];
      s := Step(cfg, t, a).value;
      Extend(cfg, t, a, s);
    }
  }

  lemma Collecting(cfg: Config) returns (s: State)
    requires 0 < cfg.children && cfg.repetitions == 0
    ensures Reachable(cfg, s) && s.parent == Signalling(0) && s.merged == []
    ensures Places(s, cfg.children, 0, AwaitExit, Cooldown) && Lists(s, cfg.children)
  {
    var t := AllMeasured(cfg, cfg.children);
    var u := Step(cfg, t, Read(cfg.children)).value;
    Extend(cfg, t, Read(cfg.children), u);
    s := Step(cfg, u, InitMerge).value;
    Extend(cfg, u, InitMerge, s);
  }

  lemma AtRest(cfg: Config, s: State)
    requires Reachable(cfg, s) && s.parent.Signalling?
    ensures s.taken == |s.log| && s.result == 0
  {
    var acts: seq<Action> :| Run(cfg, acts) == Some(s);
    RunInv(cfg, acts);
  }

  /** Child k sends its block and the parent merges it. */
  lemma OneBlock(cfg: Config, t: State, k: nat) returns (s: State)
    requires Reachable(cfg, t) && t.parent == Signalling(k) && k < cfg.children
    requires Places(t, cfg.children, k, AwaitExit, Cooldown) && Lists(t, cfg.children)
    ensures Reachable(cfg, s) && s.parent == Signalling(k + 1) && |s.merged| == |t.merged| + 1
    ensures Places(s, cfg.children, k + 1, AwaitExit, Cooldown) && Lists(s, cfg.children)
  {
    AtRest(cfg, t);
    var u := SignalTaken(cfg, t, k);
    var v := BlockSent(cfg, u, k);
    s := BlockMerged(cfg, v, k);
  }

  lemma SignalTaken(cfg: Config, t: State, k: nat) returns (s: State)
    requires Reachable(cfg, t) && t.parent == Signalling(k) && k < cfg.children && t.result == 0
    requires Places(t, cfg.children, k, AwaitExit, Cooldown)
    ensures Reachable(cfg, s) && s.phase == t.phase[k := Sending(0)] && s.parent == CollectBlock(k)
    ensures s.buf == [] && s.log == t.log && s.taken == t.taken && s.merged == t.merged && s.lists == t.lists
  {
    var a := t.(parent := CollectBlock(k), buf := [], result := 1);
    Extend(cfg, t, SendResult, a);
    s := SignalRead(cfg, a, k);
  }

  lemma SignalRead(cfg: Config, t: State, k: nat) returns (s: State)
    requires Reachable(cfg, t) && t.result == 1 && k < |t.phase| == |t.lists| && t.phase[k] == Cooldown
    ensures Reachable(cfg, s) && s == t.(phase := t.phase[k := Sending(0)], result := 0, served := t.served + [k])
  {
    var b := Put(t, k, ResultSeen);
    Extend(cfg, t, SeeResult(k), b);
    assert t.phase[k := ResultSeen][k := Sending(0)] == t.phase[k := Sending(0)];
    s := t.(phase := t.phase[k := Sending(0)], result := 0, served := t.served + [k]);
    Extend(cfg, b, TakeResult(k), s);
  }

  lemma BlockSent(cfg: Config, t: State, k: nat) returns (s: State)
    requires Reachable(cfg, t) && t.parent == CollectBlock(k) && k < |t.phase| == |t.lists| && t.phase[k] == Sending(0)
    requires t.buf == [] && t.taken == |t.log|
    ensures Reachable(cfg, s) && s.phase == t.phase[k := AwaitExit] && s.parent == CollectBlock(k)
    ensures s.buf == Block(k, 0, cfg.block) && s.merged == t.merged && s.lists == t.lists
  {
    var u := Step(cfg, t, Write(k, cfg.block)).value;
    Extend(cfg, t, Write(k, cfg.block), u);
    s := Step(cfg, u, Read(cfg.block)).value;
    Extend(cfg, u, Read(cfg.block), s);
  }

  lemma BlockMerged(cfg: Config, t: State, k: nat) returns (s: State)
    requires Reachable(cfg, t) && t.parent == CollectBlock(k) && t.buf == Block(k, 0, cfg.block)
    requires k < |t.lists| && t.lists[k] == [KEPT]
    ensures Reachable(cfg, s) && s.parent == Signalling(k + 1) && |s.merged| == |t.merged| + 1
    ensures s.phase == t.phase && s.lists == t.lists
  {
    assert t.buf[0] == Data(k, 0);
    OneKept(t.merged);
    s := t.(parent := Signalling(k + 1), merged := InsertedAll(t.merged, [KEPT]));
    Extend(cfg, t, Merge, s);
  }

  lemma OneKept(merged: seq<Sample>)
    ensures |InsertedAll(merged, [KEPT])| == |merged| + 1
  {
    assert [KEPT][..0] == [];
    assert InsertedAll(merged, [KEPT]) == Inserted(merged, KEPT);
  }

  lemma {:induction false} Merged(cfg: Config, k: nat) returns (s: State)
    requires 0 < cfg.children && cfg.repetitions == 0 && k <= cfg.children
    ensures Reachable(cfg, s) && s.parent == Signalling(k) && |s.merged| == k
    ensures Places(s, cfg.children, k, AwaitExit, Cooldown) && Lists(s, cfg.children)
  {
    if k == 0 {
      s := Collecting(cfg);
    } else {
      var t := Merged(cfg, k - 1);
      s := OneBlock(cfg, t, k - 1);
    }
  }

  // ----- when all runs fit -----

  predicate NothingYet(s: State) { s.parent.CollectReady? || s.parent.CollectDone? ==> s.merged == [] }

  /** Before the first block there is nothing merged. */
  lemma {:induction false} MergedLater(cfg: Config, acts: seq<Action>)
    requires Run(cfg, acts).Some?
    ensures NothingYet(Run(cfg, acts).value)
  {
    if acts != [] {
      MergedLater(cfg, acts[..|acts| - 1]);
      StillNothing(cfg, Run(cfg, acts[..|acts| - 1]).value, acts[|acts| - 1], Run(cfg, acts).value);
    }
  }

  lemma StillNothing(cfg: Config, s: State, a: Action, s': State)
    requires Step(cfg, s, a) == Some(s') && NothingYet(s)
    ensures NothingYet(s')
  {
  }

  lemma AlwaysAtMost(cfg: Config, s: State)
    requires Reachable(cfg, s)
    ensures |s.merged| <= cfg.children * Most(cfg)
  {
    var acts: seq<Action> :| Run(cfg, acts) == Some(s);
    RunInv(cfg, acts);
    MergedLater(cfg, acts);
    ListBounds(cfg, s);
    AtMost(cfg, s);
  }

  lemma AtMost(cfg: Config, s: State)
    requires ParentOk(cfg, s) && NothingYet(s)
    requires forall x :: 0 <= x < |s.served| ==> s.served[x] < |s.lists| && |s.lists[s.served[x]]| <= Most(cfg)
    ensures |s.merged| <= cfg.children * Most(cfg)
  {
    match s.parent {
      case Signalling(j) => MergedAtMost(cfg, s, j);
      case CollectBlock(j) => MergedAtMost(cfg, s, j);
      case Finished => MergedAtMost(cfg, s, cfg.children);
      case _ =>
    }
  }

  lemma MergedAtMost(cfg: Config, s: State, j: nat)
    requires MergedOk(s, j) && j <= cfg.children
    requires forall x :: 0 <= x < |s.served| ==> |s.lists[s.served[x]]| <= Most(cfg)
    ensures |s.merged| <= cfg.children * Most(cfg)
  {
    MergedSize(Most(cfg), s, j);
    MulLe(j, cfg.children, Most(cfg));
  }

  /** What merged_results has room for. */
  ghost predicate AlwaysFits(cfg: Config) {
    forall s :: Reachable(cfg, s) ==> |s.merged| <= Room(cfg.children * cfg.repetitions)
  }

  /** Main result: the merged results stay inside their buffer in every run if and only if a
      repetition is asked for or there are at most 11 children. */
  lemma FitsIff(cfg: Config)
    ensures AlwaysFits(cfg) <==> cfg.repetitions > 0 || cfg.children <= TRIES
  {
    if cfg.repetitions > 0 || cfg.children <= TRIES {
      RoomForAll(cfg);
      forall s | Reachable(cfg, s) ensures |s.merged| <= Room(cfg.children * cfg.repetitions) {
        AlwaysAtMost(cfg, s);
      }
    } else {
      var s := Merged(cfg, cfg.children);
      assert cfg.children * 0 == 0;
      assert |s.merged| > Room(cfg.children * cfg.repetitions);
    }
  }
}
