/** Safety of the benchmp protocol over all runs, and that it never gets stuck. */
module HarnessSafety {
  import opened Arithmetic
  import opened Collections
  import opened Samples
  import opened Harness

  // ----- counting children -----

  ghost function Past(phase: seq<Phase>, r: nat): set<nat> { set c: nat | c < |phase| && Rank(phase[c]) >= r }

  /** How many children have come as far as rank r. */
  ghost function Count(phase: seq<Phase>, r: nat): nat { |Past(phase, r)| }

  /** A child that moves on is counted once more at each rank it passes. */
  lemma CountMove(phase: seq<Phase>, c: nat, p: Phase, r: nat)
    requires c < |phase| && Rank(phase[c]) <= Rank(p)
    ensures Count(phase[c := p], r) == Count(phase, r) + if Rank(phase[c]) < r <= Rank(p) then 1 else 0
  {
    if Rank(phase[c]) < r <= Rank(p) {
      assert Past(phase[c := p], r) == Past(phase, r) + {c};
    } else {
      assert Past(phase[c := p], r) == Past(phase, r);
    }
  }

  lemma CountMoves(phase: seq<Phase>, c: nat, p: Phase)
    requires c < |phase| && Rank(phase[c]) <= Rank(p)
    ensures forall r: nat :: Count(phase[c := p], r) == Count(phase, r) + if Rank(phase[c]) < r <= Rank(p) then 1 else 0
  {
    forall r: nat ensures Count(phase[c := p], r) == Count(phase, r) + if Rank(phase[c]) < r <= Rank(p) then 1 else 0 {
      CountMove(phase, c, p, r);
    }
  }

  lemma CountBounds(phase: seq<Phase>, r: nat)
    ensures Count(phase, r) <= |phase|
    ensures Count(phase, r) == |phase| <==> forall c :: 0 <= c < |phase| ==> Rank(phase[c]) >= r
    ensures Count(phase, r) == 0 <==> forall c :: 0 <= c < |phase| ==> Rank(phase[c]) < r
  {
    SubsetCount(Past(phase, r), Below(|phase|));
    if Count(phase, r) == |phase| {
      forall c | 0 <= c < |phase| ensures Rank(phase[c]) >= r {
        assert c in Below(|phase|);
      }
    }
    if forall c :: 0 <= c < |phase| ==> Rank(phase[c]) >= r {
      assert Past(phase, r) == Below(|phase|);
    }
    if Count(phase, r) == 0 {
      forall c | 0 <= c < |phase| ensures Rank(phase[c]) < r {
        assert c !in Past(phase, r);
      }
    }
    if forall c :: 0 <= c < |phase| ==> Rank(phase[c]) < r {
      assert Past(phase, r) == {};
    }
  }

  lemma CountAt(phase: seq<Phase>, r: nat, c: nat)
    requires c < |phase|
    ensures Count(phase, r) <= |phase|
    ensures Count(phase, r) == 0 ==> Rank(phase[c]) < r
    ensures Count(phase, r) == |phase| ==> Rank(phase[c]) >= r
  {
    CountBounds(phase, r);
  }

  // ----- the invariant -----

  ghost predicate ListOk(cfg: Config, p: Phase, list: seq<Sample>) {
    && Sorted(list) && NoneZero(list) && |list| <= Most(cfg)
    && (Rank(p) < 3 ==> list == [])
    && (p.Timing? ==> |list| <= p.i && (p.i == 0 || p.i < cfg.repetitions))
  }

  ghost predicate ServedOk(s: State) {
    && (forall x, y :: 0 <= x < y < |s.served| ==> s.served[x] != s.served[y])
    && forall c: nat :: c in s.served <==> c < |s.phase| && Rank(s.phase[c]) >= 6
  }

  ghost predicate Common(cfg: Config, s: State) {
    && |s.phase| == |s.lists| == cfg.children && s.taken <= |s.log| && !s.fault
    && (forall c :: 0 <= c < |s.phase| ==> ListOk(cfg, s.phase[c], s.lists[c]))
    && (forall c :: 0 <= c < |s.phase| ==> SignalsOk(s.log, c, s.phase[c]))
    && (forall c :: 0 <= c < |s.phase| && s.phase[c].Sending? ==> s.phase[c].k < cfg.block)
    && Unbroken(s.log) && ServedOk(s)
  }

  /** Only this child may be sending; none if it is negative. */
  ghost predicate OnlySending(phase: seq<Phase>, c: int) {
    forall d :: 0 <= d < |phase| && phase[d].Sending? ==> d == c
  }

  function SentOf(cfg: Config, p: Phase): nat { if p.Sending? then p.k else cfg.block }

  function ServedSamples(lists: seq<seq<Sample>>, served: seq<nat>): multiset<Sample>
    requires forall x :: 0 <= x < |served| ==> served[x] < |lists|
  {
    if served == [] then multiset{}
    else ServedSamples(lists, served[..|served| - 1]) + multiset(lists[served[|served| - 1]])
  }

  /** The parent has merged the lists of the first j children served. */
  ghost predicate MergedOk(s: State, j: nat) {
    && j <= |s.served| && (forall x :: 0 <= x < |s.served| ==> s.served[x] < |s.lists|)
    && Sorted(s.merged) && multiset(s.merged) == ServedSamples(s.lists, s.served[..j])
  }

  /** What is read of child c's block, and what is still in the pipe. */
  ghost predicate Arriving(buf: seq<Byte>, log: seq<Byte>, taken: nat, c: nat, sent: nat) {
    taken <= |log| && buf + log[taken..] == Block(c, 0, sent)
  }

  /** A child in the middle of its block was the last to write. */
  ghost predicate LastWritten(log: seq<Byte>, c: nat, p: Phase) {
    p.Sending? && p.k > 0 ==> log != [] && log[|log| - 1] == Data(c, p.k - 1)
  }

  /** Child c is sending its block, or has sent it. */
  ghost predicate Receiving(cfg: Config, s: State, c: nat) {
    && c < |s.phase| && 6 <= Rank(s.phase[c]) <= 7 && OnlySending(s.phase, c)
    && Arriving(s.buf, s.log, s.taken, c, SentOf(cfg, s.phase[c])) && LastWritten(s.log, c, s.phase[c])
  }

  ghost predicate ParentOk(cfg: Config, s: State) {
    match s.parent
    case CollectReady(i) =>
      && i == s.taken <= cfg.children && |s.log| == Count(s.phase, 1) && Count(s.phase, 2) == 0
      && s.start == s.result == s.exit == 0
    case CollectDone(i) =>
      && i <= cfg.children && s.taken == cfg.children + i && |s.log| == cfg.children + Count(s.phase, 4)
      && Count(s.phase, 1) == cfg.children && s.start + Count(s.phase, 3) == cfg.children && Count(s.phase, 5) == 0
      && s.result == s.exit == 0
    case Signalling(j) =>
      && Count(s.phase, 4) == cfg.children && Count(s.phase, 8) == 0 && s.start == s.result == s.exit == 0
      && j == |s.served| <= cfg.children && s.taken == |s.log| && OnlySending(s.phase, -1) && MergedOk(s, j)
    case CollectBlock(j) =>
      && Count(s.phase, 4) == cfg.children && Count(s.phase, 8) == 0 && s.start == s.exit == 0
      && j < cfg.children && j + 1 == s.result + |s.served| && MergedOk(s, j)
      && (if |s.served| == j then s.buf == [] && s.taken == |s.log| && OnlySending(s.phase, -1)
          else Receiving(cfg, s, s.served[j]))
    case Finished =>
      && Count(s.phase, 7) == cfg.children && s.exit + Count(s.phase, 8) == cfg.children && s.start == s.result == 0
      && |s.served| == cfg.children && MergedOk(s, cfg.children)
  }

  ghost predicate Inv(cfg: Config, s: State) { Common(cfg, s) && ParentOk(cfg, s) }

  lemma InitialInv(cfg: Config)
    ensures Inv(cfg, Initial(cfg))
  {
    var s := Initial(cfg);
    CountBounds(s.phase, 1);
    CountBounds(s.phase, 2);
  }

  /** How far the other children are, whenever one has come so far. */
  lemma Together(cfg: Config, s: State, c: nat)
    requires Inv(cfg, s) && c < |s.phase|
    ensures Rank(s.phase[c]) == 0 ==> s.parent.CollectReady?
    ensures 2 <= Rank(s.phase[c]) ==> !s.parent.CollectReady?
    ensures Rank(s.phase[c]) <= 3 ==> s.parent.CollectReady? || s.parent.CollectDone?
    ensures 5 <= Rank(s.phase[c]) ==> !s.parent.CollectReady? && !s.parent.CollectDone?
    ensures Rank(s.phase[c]) <= 6 ==> !s.parent.Finished?
    ensures Rank(s.phase[c]) == 8 ==> s.parent.Finished?
  {
    CountAt(s.phase, 1, c);
    CountAt(s.phase, 2, c);
    CountAt(s.phase, 4, c);
    CountAt(s.phase, 5, c);
    CountAt(s.phase, 7, c);
    CountAt(s.phase, 8, c);
  }

  // ----- steps of the children -----

  /** A child's move that writes nothing and serves nobody. */
  lemma QuietCommon(cfg: Config, s: State, s': State, c: nat, p: Phase)
    requires Common(cfg, s) && c < |s.phase| && s'.phase == s.phase[c := p] && s'.log == s.log && s'.taken == s.taken
    requires s'.served == s.served && s'.fault == s.fault && |s'.lists| == |s.lists|
    requires forall d :: 0 <= d < |s.lists| && d != c ==> s'.lists[d] == s.lists[d]
    requires ListOk(cfg, p, s'.lists[c]) && (Rank(s.phase[c]) >= 1 <==> Rank(p) >= 1)
    requires (Rank(s.phase[c]) >= 4 <==> Rank(p) >= 4) && (Rank(s.phase[c]) >= 6 <==> Rank(p) >= 6) && !p.Sending?
    ensures Common(cfg, s')
  {
    forall d | 0 <= d < |s'.phase| ensures ListOk(cfg, s'.phase[d], s'.lists[d]) && SignalsOk(s'.log, d, s'.phase[d]) {
      assert ListOk(cfg, s.phase[d], s.lists[d]) && SignalsOk(s.log, d, s.phase[d]);
    }
  }

  lemma FirstCallKeeps(cfg: Config, s: State, s': State, c: nat)
    requires Inv(cfg, s) && Step(cfg, s, FirstCall(c)) == Some(s')
    ensures Inv(cfg, s')
  {
    Together(cfg, s, c);
    CountMoves(s.phase, c, Warming);
    SignalAdded(cfg, s, s', c, ReadyByte(c), Warming);
  }

  /** A child writes its ready or done byte. */
  lemma SignalAdded(cfg: Config, s: State, s': State, c: nat, b: Byte, p: Phase)
    requires Common(cfg, s) && c < |s.phase| && s'.phase == s.phase[c := p] && s'.log == s.log + [b]
    requires s'.taken == s.taken && s'.served == s.served && s'.fault == s.fault && |s'.lists| == |s.lists|
    requires forall d :: 0 <= d < |s.lists| && d != c ==> s'.lists[d] == s.lists[d]
    requires ListOk(cfg, p, s'.lists[c])
    requires (b == ReadyByte(c) && s.phase[c] == Fresh && p == Warming)
             || (b == DoneByte(c) && s.phase[c].Timing? && p == Cooldown)
    ensures Common(cfg, s')
  {
    forall d | 0 <= d < |s'.phase| ensures ListOk(cfg, s'.phase[d], s'.lists[d]) && SignalsOk(s'.log, d, s'.phase[d]) {
      assert ListOk(cfg, s.phase[d], s.lists[d]) && SignalsOk(s.log, d, s.phase[d]);
    }
  }

  /** While the parent collects the done signals: a child moves on, up to `cooldown`. */
  lemma DoneParent(cfg: Config, s: State, s': State, c: nat, p: Phase)
    requires ParentOk(cfg, s) && s.parent.CollectDone? && s'.parent == s.parent && c < |s.phase|
    requires 1 <= Rank(s.phase[c]) <= Rank(p) <= 4 && s'.phase == s.phase[c := p] && s'.taken == s.taken
    requires s'.start == s.start - (if Rank(s.phase[c]) < 3 <= Rank(p) then 1 else 0)
    requires |s'.log| == |s.log| + (if Rank(s.phase[c]) < 4 <= Rank(p) then 1 else 0)
    requires s'.result == s.result && s'.exit == s.exit
    ensures ParentOk(cfg, s')
  {
    CountMove(s.phase, c, p, 1);
    CountMove(s.phase, c, p, 3);
    CountMove(s.phase, c, p, 4);
    CountMove(s.phase, c, p, 5);
  }

  /** A child at rank 1 to 3 that may go further than warmup shows that the parent collects. */
  lemma CollectsDone(cfg: Config, s: State, c: nat)
    requires Inv(cfg, s) && c < |s.phase|
    requires 2 <= Rank(s.phase[c]) <= 3 || (Rank(s.phase[c]) == 1 && s.start > 0)
    ensures s.parent.CollectDone?
  {
    Together(cfg, s, c);
  }

  lemma StartKeeps(cfg: Config, s: State, s': State, c: nat, a: Action)
    requires a == SeeStart(c) || a == TakeStart(c)
    requires Inv(cfg, s) && Step(cfg, s, a) == Some(s')
    ensures Inv(cfg, s')
  {
    CollectsDone(cfg, s, c);
    DoneParent(cfg, s, s', c, s'.phase[c]);
    assert ListOk(cfg, s.phase[c], s.lists[c]);
    QuietCommon(cfg, s, s', c, s'.phase[c]);
  }

  lemma MeasuredList(cfg: Config, p: Phase, list: seq<Sample>, x: Sample)
    requires ListOk(cfg, p, list) && p.Timing?
    ensures Sorted(Inserted(list, x)) && NoneZero(Inserted(list, x)) && |Inserted(list, x)| <= p.i + 1 <= Most(cfg)
  {
    InsertedIs(list, x);
    InsertedNoneZero(list, x);
  }

  lemma ListStays(cfg: Config, p: Phase, p': Phase, list: seq<Sample>, x: Sample, keep: bool)
    requires ListOk(cfg, p, list) && p.Timing?
    requires p' == Cooldown || (p'.Timing? && if keep then p.i + 1 == p'.i < cfg.repetitions else p'.i == p.i)
    ensures ListOk(cfg, p', if keep then Inserted(list, x) else list)
  {
    if keep {
      MeasuredList(cfg, p, list, x);
    }
  }

  lemma MeasureKeeps(cfg: Config, s: State, s': State, c: nat, x: Sample, keep: bool, giveUp: bool)
    requires Inv(cfg, s) && Step(cfg, s, Measure(c, x, keep, giveUp)) == Some(s')
    ensures Inv(cfg, s')
  {
    var p := MeasureIs(cfg, s, s', c, x, keep, giveUp);
    CollectsDone(cfg, s, c);
    assert ListOk(cfg, s.phase[c], s.lists[c]);
    ListStays(cfg, s.phase[c], p, s.lists[c], x, keep);
    MeasuredParent(cfg, s, s', c, p);
    MeasuredCommon(cfg, s, s', c, p);
  }

  lemma MeasuredParent(cfg: Config, s: State, s': State, c: nat, p: Phase)
    requires ParentOk(cfg, s) && s.parent.CollectDone? && c < |s.phase| && s.phase[c].Timing?
    requires p == Cooldown || p.Timing?
    requires s' == s.(phase := s.phase[c := p], log := s'.log, lists := s'.lists)
    requires s'.log == if p == Cooldown then s.log + [DoneByte(c)] else s.log
    ensures ParentOk(cfg, s')
  {
    DoneParent(cfg, s, s', c, p);
  }

  lemma MeasuredCommon(cfg: Config, s: State, s': State, c: nat, p: Phase)
    requires Common(cfg, s) && c < |s.phase| == |s'.lists| && s.phase[c].Timing? && (p == Cooldown || p.Timing?)
    requires s' == s.(phase := s.phase[c := p], log := s'.log, lists := s.lists[c := s'.lists[c]])
    requires s'.log == if p == Cooldown then s.log + [DoneByte(c)] else s.log
    requires ListOk(cfg, p, s'.lists[c])
    ensures Common(cfg, s')
  {
    if p == Cooldown {
      SignalAdded(cfg, s, s', c, DoneByte(c), p);
    } else {
      QuietCommon(cfg, s, s', c, p);
    }
  }

  lemma MeasureIs(cfg: Config, s: State, s': State, c: nat, x: Sample, keep: bool, giveUp: bool) returns (p: Phase)
    requires Step(cfg, s, Measure(c, x, keep, giveUp)) == Some(s')
    ensures c < |s.phase| == |s.lists| && s.phase[c].Timing? && (p == Cooldown || p.Timing?)
    ensures s' == s.(phase := s.phase[c := p], log := if p == Cooldown then s.log + [DoneByte(c)] else s.log,
                     lists := s.lists[c := if keep then Inserted(s.lists[c], x) else s.lists[c]])
    ensures p.Timing? ==> p.i == (if keep then s.phase[c].i + 1 else s.phase[c].i)
    ensures p.Timing? && keep ==> p.i < cfg.repetitions
  {
    p := s'.phase[c];
  }

  lemma SeeResultKeeps(cfg: Config, s: State, s': State, c: nat)
    requires Inv(cfg, s) && Step(cfg, s, SeeResult(c)) == Some(s')
    ensures Inv(cfg, s')
  {
    assert ListOk(cfg, s.phase[c], s.lists[c]);
    CountMoves(s.phase, c, ResultSeen);
    QuietCommon(cfg, s, s', c, ResultSeen);
  }

  /** A result signal that can be taken is the one for the block the parent waits for. */
  lemma SignalWaits(cfg: Config, s: State)
    requires Inv(cfg, s) && s.result > 0
    ensures s.parent.CollectBlock? && s.parent.j == |s.served| < cfg.children && s.result == 1
    ensures s.buf == [] && s.taken == |s.log| && OnlySending(s.phase, -1)
  {
  }

  lemma TakeResultKeeps(cfg: Config, s: State, s': State, c: nat)
    requires Inv(cfg, s) && Step(cfg, s, TakeResult(c)) == Some(s')
    ensures Inv(cfg, s')
  {
    SignalWaits(cfg, s);
    ChildServed(cfg, s, s', c);
    ServedParent(cfg, s, s', c);
  }

  lemma ServedParent(cfg: Config, s: State, s': State, c: nat)
    requires ParentOk(cfg, s) && s.parent.CollectBlock? && s.parent.j == |s.served| && s.result == 1
    requires c < |s.phase| && s.phase[c] == ResultSeen && c < |s.lists|
    requires s' == Put(s, c, Sending(0)).(result := 0, served := s.served + [c])
    ensures ParentOk(cfg, s')
  {
    CountMove(s.phase, c, Sending(0), 4);
    CountMove(s.phase, c, Sending(0), 8);
    assert s'.served[..|s.served|] == s.served[..|s.served|];
  }

  lemma ChildServed(cfg: Config, s: State, s': State, c: nat)
    requires Common(cfg, s) && c < |s.phase| && s.phase[c] == ResultSeen
    requires s' == Put(s, c, Sending(0)).(result := s'.result, served := s.served + [c])
    ensures Common(cfg, s')
  {
    forall d | 0 <= d < |s'.phase| ensures ListOk(cfg, s'.phase[d], s'.lists[d]) && SignalsOk(s'.log, d, s'.phase[d]) {
      assert ListOk(cfg, s.phase[d], s.lists[d]) && SignalsOk(s.log, d, s.phase[d]);
    }
  }

  /** A child that sends is the one the parent is reading from. */
  lemma WhoSends(cfg: Config, s: State, c: nat)
    requires Inv(cfg, s) && c < |s.phase| && s.phase[c].Sending?
    ensures s.parent.CollectBlock? && |s.served| == s.parent.j + 1 && c == s.served[s.parent.j]
    ensures Receiving(cfg, s, c)
  {
    Together(cfg, s, c);
  }

  lemma WriteKeeps(cfg: Config, s: State, s': State, c: nat, m: nat)
    requires Inv(cfg, s) && Step(cfg, s, Write(c, m)) == Some(s')
    ensures Inv(cfg, s')
  {
    var k := WriteIs(cfg, s, s', c, m);
    WhoSends(cfg, s, c);
    BlockAdded(cfg, s, s', c, k, m);
    BlockParent(cfg, s, s', c, k, m);
  }

  lemma WriteIs(cfg: Config, s: State, s': State, c: nat, m: nat) returns (k: nat)
    requires Step(cfg, s, Write(c, m)) == Some(s')
    ensures c < |s.phase| && s.phase[c] == Sending(k) && m > 0 && k + m <= cfg.block
    ensures s' == Put(s, c, if k + m == cfg.block then AwaitExit else Sending(k + m))
                  .(log := s.log + Block(c, k, k + m))
  {
    k := s.phase[c].k;
  }

  lemma BlockParent(cfg: Config, s: State, s': State, c: nat, k: nat, m: nat)
    requires ParentOk(cfg, s) && s.parent.CollectBlock? && |s.served| == s.parent.j + 1 && c == s.served[s.parent.j]
    requires Receiving(cfg, s, c) && s.phase[c] == Sending(k) && m > 0 && k + m <= cfg.block
    requires s' == Put(s, c, if k + m == cfg.block then AwaitExit else Sending(k + m))
                   .(log := s.log + Block(c, k, k + m))
    ensures ParentOk(cfg, s')
  {
    MoreReceived(cfg, s, s', c, k, s'.phase[c], m);
    CountMove(s.phase, c, s'.phase[c], 4);
    CountMove(s.phase, c, s'.phase[c], 8);
  }

  lemma MoreReceived(cfg: Config, s: State, s': State, c: nat, k: nat, p: Phase, m: nat)
    requires Receiving(cfg, s, c) && s.phase[c] == Sending(k) && 0 < m && 6 <= Rank(p) <= 7
    requires SentOf(cfg, p) == k + m && (p.Sending? ==> p.k == k + m)
    requires s' == Put(s, c, p).(log := s.log + Block(c, k, k + m))
    ensures Receiving(cfg, s', c)
  {
    Joined(s.buf, s.log, s.taken, c, k, m);
    LastByte(s.log, c, k, m, p);
    OthersStill(s.phase, c, p);
  }

  lemma OthersStill(phase: seq<Phase>, c: nat, p: Phase)
    requires c < |phase| && OnlySending(phase, c)
    ensures OnlySending(phase[c := p], c)
  {
  }

  lemma LastByte(log: seq<Byte>, c: nat, k: nat, m: nat, p: Phase)
    requires m > 0 && (p.Sending? ==> p.k == k + m)
    ensures LastWritten(log + Block(c, k, k + m), c, p)
  {
    assert Block(c, k, k + m)[m - 1] == Data(c, k + m - 1);
  }

  lemma Joined(buf: seq<Byte>, log: seq<Byte>, taken: nat, c: nat, k: nat, m: nat)
    requires Arriving(buf, log, taken, c, k)
    ensures Arriving(buf, log + Block(c, k, k + m), taken, c, k + m)
  {
    assert (log + Block(c, k, k + m))[taken..] == log[taken..] + Block(c, k, k + m);
    assert buf + (log[taken..] + Block(c, k, k + m)) == (buf + log[taken..]) + Block(c, k, k + m);
  }

  lemma BlockAdded(cfg: Config, s: State, s': State, c: nat, k: nat, m: nat)
    requires Common(cfg, s) && c < |s.phase| && s.phase[c] == Sending(k) && m > 0
    requires s' == Put(s, c, if k + m == cfg.block then AwaitExit else Sending(k + m))
                   .(log := s.log + Block(c, k, k + m))
    requires k + m <= cfg.block && (k > 0 ==> s.log != [] && s.log[|s.log| - 1] == Data(c, k - 1))
    ensures Common(cfg, s')
  {
    var more := Block(c, k, k + m);
    assert forall d :: ReadyByte(d) !in more && DoneByte(d) !in more;
    UnbrokenBlock(s.log, c, k, m);
    forall d | 0 <= d < |s'.phase| ensures ListOk(cfg, s'.phase[d], s'.lists[d]) && SignalsOk(s'.log, d, s'.phase[d]) {
      assert ListOk(cfg, s.phase[d], s.lists[d]) && SignalsOk(s.log, d, s.phase[d]);
    }
  }

  lemma UnbrokenBlock(log: seq<Byte>, c: nat, k: nat, m: nat)
    requires Unbroken(log) && (k > 0 ==> log != [] && log[|log| - 1] == Data(c, k - 1))
    ensures Unbroken(log + Block(c, k, k + m))
  {
  }

  lemma TakeExitKeeps(cfg: Config, s: State, s': State, c: nat)
    requires Inv(cfg, s) && Step(cfg, s, TakeExit(c)) == Some(s')
    ensures Inv(cfg, s')
  {
    assert ListOk(cfg, s.phase[c], s.lists[c]);
    ExitParent(cfg, s, s', c);
    QuietCommon(cfg, s, s', c, Exited);
  }

  lemma ExitParent(cfg: Config, s: State, s': State, c: nat)
    requires ParentOk(cfg, s) && s.exit > 0 && c < |s.phase| && s.phase[c] == AwaitExit
    requires s' == s.(phase := s.phase[c := Exited], exit := s.exit - 1)
    ensures ParentOk(cfg, s')
  {
    CountMove(s.phase, c, Exited, 7);
    CountMove(s.phase, c, Exited, 8);
  }

  // ----- steps of the parent -----

  lemma ParentCommon(cfg: Config, s: State, s': State)
    requires Common(cfg, s) && s'.phase == s.phase && s'.lists == s.lists && s'.log == s.log && s'.served == s.served
    requires s'.taken <= |s'.log| && !s'.fault
    ensures Common(cfg, s')
  {
  }

  lemma ReadKeeps(cfg: Config, s: State, s': State, m: nat)
    requires Inv(cfg, s) && Step(cfg, s, Read(m)) == Some(s')
    ensures Inv(cfg, s')
  {
    ReadIs(cfg, s, s', m);
    ParentCommon(cfg, s, s');
    if s.parent.CollectBlock? {
      ReadBlock(cfg, s, s', m);
    } else {
      ReadSignals(cfg, s, s', m);
    }
  }

  lemma ReadIs(cfg: Config, s: State, s': State, m: nat)
    requires Step(cfg, s, Read(m)) == Some(s')
    ensures CanRead(cfg, s, m) && (s.parent.CollectReady? || s.parent.CollectDone? || s.parent.CollectBlock?)
    ensures s' == s.(parent := s'.parent, buf := s'.buf, taken := s.taken + m)
    ensures s'.buf == if s.parent.CollectBlock? then s.buf + s.log[s.taken..s.taken + m] else s.buf
    ensures s'.parent == match s.parent
                         case CollectReady(i) => CollectReady(i + m)
                         case CollectDone(i) => CollectDone(i + m)
                         case p => p
  {
  }

  lemma ReadSignals(cfg: Config, s: State, s': State, m: nat)
    requires ParentOk(cfg, s) && CanRead(cfg, s, m)
    requires s.parent.CollectReady? || s.parent.CollectDone?
    requires s' == s.(parent := s'.parent, taken := s.taken + m)
    requires s'.parent == if s.parent.CollectReady? then CollectReady(s.parent.i + m) else CollectDone(s.parent.i + m)
    ensures ParentOk(cfg, s')
  {
  }

  lemma ReadBlock(cfg: Config, s: State, s': State, m: nat)
    requires ParentOk(cfg, s) && s.parent.CollectBlock? && 0 < m && s.taken + m <= |s.log|
    requires s' == s.(buf := s.buf + s.log[s.taken..s.taken + m], taken := s.taken + m)
    ensures ParentOk(cfg, s')
  {
    BlockRead(cfg, s, s', s.served[s.parent.j], m);
  }

  lemma BlockRead(cfg: Config, s: State, s': State, c: nat, m: nat)
    requires Receiving(cfg, s, c) && s.taken + m <= |s.log|
    requires s' == s.(buf := s.buf + s.log[s.taken..s.taken + m], taken := s.taken + m)
    ensures Receiving(cfg, s', c)
  {
    assert s.log[s.taken..] == s.log[s.taken..s.taken + m] + s.log[s.taken + m..];
    assert s'.buf + s'.log[s'.taken..] == s.buf + s.log[s.taken..];
  }

  lemma SendStartKeeps(cfg: Config, s: State, s': State)
    requires Inv(cfg, s) && Step(cfg, s, SendStart) == Some(s')
    ensures Inv(cfg, s')
  {
    CountBounds(s.phase, 1);
    NoneFurther(s.phase);
    ParentCommon(cfg, s, s');
  }

  lemma NoneFurther(phase: seq<Phase>)
    requires Count(phase, 2) == 0
    ensures Count(phase, 3) == Count(phase, 4) == Count(phase, 5) == 0
  {
    CountBounds(phase, 2);
    CountBounds(phase, 3);
    CountBounds(phase, 4);
    CountBounds(phase, 5);
  }

  lemma InitMergeKeeps(cfg: Config, s: State, s': State)
    requires Inv(cfg, s) && Step(cfg, s, InitMerge) == Some(s')
    ensures Inv(cfg, s')
  {
    AllDone(cfg, s);
    ParentCommon(cfg, s, s');
  }

  /** With all done signals read, every child is in cooldown. */
  lemma AllDone(cfg: Config, s: State)
    requires Common(cfg, s) && ParentOk(cfg, s) && s.parent == CollectDone(cfg.children)
    ensures Count(s.phase, 4) == cfg.children && Count(s.phase, 8) == 0 && s.start == 0 && s.taken == |s.log|
    ensures s.served == [] && OnlySending(s.phase, -1)
  {
    CountBounds(s.phase, 3);
    CountBounds(s.phase, 4);
    CountBounds(s.phase, 5);
    CountBounds(s.phase, 6);
    CountBounds(s.phase, 8);
    ServedCount(s);
  }

  lemma SendResultKeeps(cfg: Config, s: State, s': State)
    requires Inv(cfg, s) && Step(cfg, s, SendResult) == Some(s')
    ensures Inv(cfg, s')
  {
  }

  /** A block of full length is the whole block of the child served last. */
  lemma WholeBlock(cfg: Config, s: State, c: nat)
    requires Receiving(cfg, s, c) && |s.buf| == cfg.block && (s.phase[c].Sending? ==> s.phase[c].k < cfg.block)
    ensures s.buf == Block(c, 0, cfg.block) && s.taken == |s.log| && OnlySending(s.phase, -1)
  {
    var sent := SentOf(cfg, s.phase[c]);
    assert |s.buf + s.log[s.taken..]| == |s.buf| + |s.log[s.taken..]|;
    assert s.log[s.taken..] == [];
    assert s.buf + [] == s.buf;
  }

  lemma MergeKeeps(cfg: Config, s: State, s': State)
    requires Inv(cfg, s) && Step(cfg, s, Merge) == Some(s')
    ensures Inv(cfg, s')
  {
    assert s.buf != [];
    var c := s.served[s.parent.j];
    WholeBlock(cfg, s, c);
    assert s.buf[0] == Data(c, 0);
    ListMerged(cfg, s, s', s.parent.j, c);
    ParentCommon(cfg, s, s');
  }

  lemma ListMerged(cfg: Config, s: State, s': State, j: nat, c: nat)
    requires Common(cfg, s) && MergedOk(s, j) && |s.served| == j + 1 && c == s.served[j]
    requires s'.served == s.served && s'.lists == s.lists && s'.merged == InsertedAll(s.merged, s.lists[c])
    ensures MergedOk(s', j + 1)
  {
    assert ListOk(cfg, s.phase[c], s.lists[c]);
    InsertedAllIs(s.merged, s.lists[c]);
    assert s.served[..j + 1][..j] == s.served[..j];
  }

  lemma ServedCount(s: State)
    requires ServedOk(s)
    ensures |s.served| == Count(s.phase, 6)
  {
    ElementCount(s.served);
    assert Elements(s.served) == Past(s.phase, 6);
  }

  lemma SendExitKeeps(cfg: Config, s: State, s': State)
    requires Inv(cfg, s) && Step(cfg, s, SendExit) == Some(s')
    ensures Inv(cfg, s')
  {
    AllServed(cfg, s);
    ParentCommon(cfg, s, s');
  }

  lemma AllServed(cfg: Config, s: State)
    requires Common(cfg, s) && |s.served| == cfg.children && OnlySending(s.phase, -1)
    ensures Count(s.phase, 7) == cfg.children
  {
    ServedCount(s);
    CountBounds(s.phase, 6);
    CountBounds(s.phase, 7);
  }

  // ----- all runs -----

  lemma StepKeeps(cfg: Config, s: State, a: Action, s': State)
    requires Inv(cfg, s) && Step(cfg, s, a) == Some(s')
    ensures Inv(cfg, s')
  {
    match a {
      case FirstCall(c) => FirstCallKeeps(cfg, s, s', c);
      case SeeStart(c) => StartKeeps(cfg, s, s', c, a);
      case TakeStart(c) => StartKeeps(cfg, s, s', c, a);
      case Measure(c, x, keep, giveUp) => MeasureKeeps(cfg, s, s', c, x, keep, giveUp);
      case SeeResult(c) => SeeResultKeeps(cfg, s, s', c);
      case TakeResult(c) => TakeResultKeeps(cfg, s, s', c);
      case Write(c, m) => WriteKeeps(cfg, s, s', c, m);
      case TakeExit(c) => TakeExitKeeps(cfg, s, s', c);
      case Read(m) => ReadKeeps(cfg, s, s', m);
      case SendStart => SendStartKeeps(cfg, s, s');
      case InitMerge => InitMergeKeeps(cfg, s, s');
      case SendResult => SendResultKeeps(cfg, s, s');
      case Merge => MergeKeeps(cfg, s, s');
      case SendExit => SendExitKeeps(cfg, s, s');
    }
  }

  lemma {:induction false} RunInv(cfg: Config, acts: seq<Action>)
    requires Run(cfg, acts).Some?
    ensures Inv(cfg, Run(cfg, acts).value)
  {
    if acts == [] {
      InitialInv(cfg);
    } else {
      RunInv(cfg, acts[..|acts| - 1]);
      StepKeeps(cfg, Run(cfg, acts[..|acts| - 1]).value, acts[|acts| - 1], Run(cfg, acts).value);
    }
  }

  // ----- the merged measurements -----

  /** Taking child n out of the order of service. */
  lemma {:induction false} ServedWithout(lists: seq<seq<Sample>>, served: seq<nat>, p: nat)
    requires p < |served| && forall x :: 0 <= x < |served| ==> served[x] < |lists|
    ensures ServedSamples(lists, served)
            == ServedSamples(lists, served[..p] + served[p + 1..]) + multiset(lists[served[p]])
    decreases |served|
  {
    var front, last := served[..|served| - 1], |served| - 1;
    if p == last {
      assert served[..p] + served[p + 1..] == front;
    } else {
      ServedWithout(lists, front, p);
      var rest := served[..p] + served[p + 1..];
      assert rest[|rest| - 1] == served[last];
      assert rest[..|rest| - 1] == front[..p] + front[p + 1..];
    }
  }

  lemma {:induction false} ServedPrefix(lists: seq<seq<Sample>>, served: seq<nat>, n: nat)
    requires n <= |lists| && forall x :: 0 <= x < |served| ==> served[x] < n
    ensures ServedSamples(lists, served) == ServedSamples(lists[..n], served)
    decreases |served|
  {
    if served != [] {
      ServedPrefix(lists, served[..|served| - 1], n);
    }
  }

  /** Whatever the order of service, all measurements are there once every child is served. */
  lemma {:induction false} EveryOrder(lists: seq<seq<Sample>>, served: seq<nat>)
    requires |served| == |lists| && (forall x :: 0 <= x < |served| ==> served[x] < |lists|)
    requires forall x, y :: 0 <= x < y < |served| ==> served[x] != served[y]
    ensures ServedSamples(lists, served) == AllSamples(lists)
    decreases |lists|
  {
    if lists != [] {
      var n := |lists| - 1;
      var p := PlaceOf(served, n);
      var rest := served[..p] + served[p + 1..];
      ServedWithout(lists, served, p);
      WithoutLargest(served, n, p, rest);
      ServedPrefix(lists, rest, n);
      EveryOrder(lists[..n], rest);
    }
  }

  lemma WithoutLargest(served: seq<nat>, n: nat, p: nat, rest: seq<nat>)
    requires p < |served| && served[p] == n && rest == served[..p] + served[p + 1..]
    requires forall x :: 0 <= x < |served| ==> served[x] <= n
    requires forall x, y :: 0 <= x < y < |served| ==> served[x] != served[y]
    ensures forall x :: 0 <= x < |rest| ==> rest[x] < n
    ensures forall x, y :: 0 <= x < y < |rest| ==> rest[x] != rest[y]
  {
    assert forall x :: 0 <= x < |rest| ==> rest[x] == if x < p then served[x] else served[x + 1];
  }

  lemma PlaceOf(served: seq<nat>, n: nat) returns (p: nat)
    requires |served| == n + 1 && (forall x :: 0 <= x < |served| ==> served[x] <= n)
    requires forall x, y :: 0 <= x < y < |served| ==> served[x] != served[y]
    ensures p < |served| && served[p] == n
  {
    if n !in served {
      ElementCount(served);
      SubsetCount(Elements(served), Below(n));
      assert false;
    }
    p :| 0 <= p < |served| && served[p] == n;
  }

  lemma OthersToo(cfg: Config, s: State, c: nat)
    requires Inv(cfg, s) && c < |s.phase|
    ensures InStep(s, c)
  {
    Together(cfg, s, c);
    match s.parent {
      case CollectReady(_) =>
      case CollectDone(_) =>
        AllPast(s.phase, 1);
        CountAt(s.phase, 3, c);
      case Finished => AllPast(s.phase, 7);
      case _ => AllPast(s.phase, 4);
    }
  }

  lemma AllPast(phase: seq<Phase>, r: nat)
    requires Count(phase, r) == |phase|
    ensures forall d :: 0 <= d < |phase| ==> Rank(phase[d]) >= r
  {
    CountBounds(phase, r);
  }

  lemma MergedAll(cfg: Config, s: State)
    requires Inv(cfg, s) && s.parent == Finished
    ensures Sorted(s.merged) && multiset(s.merged) == AllSamples(s.lists)
  {
    assert s.served[..cfg.children] == s.served;
    EveryOrder(s.lists, s.served);
  }

  /** The invariant is what was promised. */
  lemma InvIsSafe(cfg: Config, s: State)
    requires Inv(cfg, s)
    ensures Safe(cfg, s)
  {
    forall c | 0 <= c < |s.phase| ensures InStep(s, c) {
      OthersToo(cfg, s, c);
    }
    if s.parent == Finished {
      MergedAll(cfg, s);
    }
  }

  /** Everything promised holds after every run, whatever the interleaving. */
  lemma AlwaysSafe(cfg: Config, acts: seq<Action>)
    requires Run(cfg, acts).Some?
    ensures Safe(cfg, Run(cfg, acts).value)
  {
    RunInv(cfg, acts);
    InvIsSafe(cfg, Run(cfg, acts).value);
  }

  // ----- room -----

  lemma {:induction false} ServedSize(most: nat, lists: seq<seq<Sample>>, served: seq<nat>)
    requires forall x :: 0 <= x < |served| ==> served[x] < |lists| && |lists[served[x]]| <= most
    ensures |ServedSamples(lists, served)| <= |served| * most
    decreases |served|
  {
    if served != [] {
      var n := |served| - 1;
      ServedSize(most, lists, served[..n]);
      OneMore(n, most);
      assert |multiset(lists[served[n]])| == |lists[served[n]]|;
    }
  }

  lemma ListBounds(cfg: Config, s: State)
    requires Common(cfg, s)
    ensures forall x :: 0 <= x < |s.served| ==> s.served[x] < |s.lists| && |s.lists[s.served[x]]| <= Most(cfg)
  {
    forall x | 0 <= x < |s.served| ensures s.served[x] < |s.lists| && |s.lists[s.served[x]]| <= Most(cfg) {
      assert s.served[x] in s.served;
      assert ListOk(cfg, s.phase[s.served[x]], s.lists[s.served[x]]);
    }
  }

  lemma MergedSize(most: nat, s: State, j: nat)
    requires MergedOk(s, j) && forall x :: 0 <= x < |s.served| ==> |s.lists[s.served[x]]| <= most
    ensures |s.merged| <= j * most
  {
    ServedSize(most, s.lists, s.served[..j]);
    assert |multiset(s.merged)| == |s.merged|;
  }

  /** When a list is merged there are at most children * max(1, repetitions) entries. */
  lemma MergeFits(cfg: Config, s: State)
    requires Inv(cfg, s) && s.parent.CollectBlock? && |s.buf| == cfg.block
    ensures s.parent.j < |s.served| && |s.merged| + |s.lists[s.served[s.parent.j]]| <= cfg.children * Most(cfg)
  {
    var j, most := s.parent.j, Most(cfg);
    assert s.buf != [] && j < cfg.children;
    ListBounds(cfg, s);
    MergedSize(most, s, j);
    OneMore(j, most);
    MulLe(j + 1, cfg.children, most);
  }

  /** That is what merged_results has room for, unless no repetition at all is asked for. */
  lemma RoomForAll(cfg: Config)
    ensures cfg.children * Most(cfg) <= Room(cfg.children * cfg.repetitions)
            <==> cfg.repetitions > 0 || cfg.children <= TRIES
  {
    if cfg.repetitions == 0 {
      assert cfg.children * 0 == 0;
    }
  }

  // ----- no run gets stuck -----

  ghost predicate Enabled(cfg: Config, s: State) { exists a :: Step(cfg, s, a).Some? }

  lemma EnabledBy(cfg: Config, s: State, a: Action)
    requires Step(cfg, s, a).Some?
    ensures Enabled(cfg, s)
  {
  }

  ghost predicate Over(s: State) {
    s.parent == Finished && forall c :: 0 <= c < |s.phase| ==> s.phase[c] == Exited
  }

  lemma Behind(phase: seq<Phase>, r: nat) returns (c: nat)
    requires Count(phase, r) < |phase|
    ensures c < |phase| && Rank(phase[c]) < r
  {
    CountBounds(phase, r);
    c :| c < |phase| && Rank(phase[c]) < r;
  }

  lemma ReadyMoves(cfg: Config, s: State)
    requires Inv(cfg, s) && s.parent.CollectReady?
    ensures Enabled(cfg, s)
  {
    if s.parent.i == cfg.children {
      EnabledBy(cfg, s, SendStart);
    } else if s.taken < |s.log| {
      EnabledBy(cfg, s, Read(1));
    } else {
      var c := Behind(s.phase, 1);
      EnabledBy(cfg, s, FirstCall(c));
    }
  }

  lemma DoneMoves(cfg: Config, s: State)
    requires Inv(cfg, s) && s.parent.CollectDone?
    ensures Enabled(cfg, s)
  {
    if s.parent.i == cfg.children {
      EnabledBy(cfg, s, InitMerge);
    } else if s.taken < |s.log| {
      EnabledBy(cfg, s, Read(1));
    } else {
      var c := Behind(s.phase, 4);
      Together(cfg, s, c);
      CountBounds(s.phase, 3);
      match s.phase[c] {
        case Warming => EnabledBy(cfg, s, SeeStart(c));
        case StartSeen => EnabledBy(cfg, s, TakeStart(c));
        case Timing(i) => EnabledBy(cfg, s, Measure(c, Sample(0, 1), true, false));
        case _ =>
      }
    }
  }

  lemma BlockMoves(cfg: Config, s: State)
    requires Inv(cfg, s) && s.parent.CollectBlock?
    ensures Enabled(cfg, s)
  {
    if |s.served| == s.parent.j {
      ServedCount(s);
      var c := Behind(s.phase, 6);
      CountBounds(s.phase, 4);
      if s.phase[c] == Cooldown {
        EnabledBy(cfg, s, SeeResult(c));
      } else {
        EnabledBy(cfg, s, TakeResult(c));
      }
    } else {
      ReceivingMoves(cfg, s, s.served[s.parent.j]);
    }
  }

  lemma ReceivingMoves(cfg: Config, s: State, c: nat)
    requires s.parent.CollectBlock? && Receiving(cfg, s, c) && |s.phase| == |s.lists|
    requires s.phase[c].Sending? ==> s.phase[c].k < cfg.block
    ensures Enabled(cfg, s)
  {
    if |s.buf| == cfg.block {
      EnabledBy(cfg, s, Merge);
    } else if s.taken < |s.log| {
      assert |s.buf + s.log[s.taken..]| == |s.buf| + |s.log[s.taken..]|;
      EnabledBy(cfg, s, Read(1));
    } else {
      assert |s.buf + s.log[s.taken..]| == |s.buf|;
      EnabledBy(cfg, s, Write(c, 1));
    }
  }

  lemma LastMoves(cfg: Config, s: State)
    requires ParentOk(cfg, s) && s.parent == Finished && |s.phase| == |s.lists| == cfg.children
    ensures Over(s) || Enabled(cfg, s)
  {
    CountBounds(s.phase, 8);
    if Count(s.phase, 8) < |s.phase| {
      var c := Behind(s.phase, 8);
      CountBounds(s.phase, 7);
      EnabledBy(cfg, s, TakeExit(c));
    }
  }

  lemma SignalMoves(cfg: Config, s: State)
    requires s.parent.Signalling? && s.parent.j <= cfg.children
    ensures Enabled(cfg, s)
  {
    if s.parent.j < cfg.children {
      EnabledBy(cfg, s, SendResult);
    } else {
      EnabledBy(cfg, s, SendExit);
    }
  }

  /** In every run somebody can move until all children are gone: nobody waits for ever for a
      signal that does not come. */
  lemma NeverStuck(cfg: Config, acts: seq<Action>)
    requires Run(cfg, acts).Some?
    ensures Over(Run(cfg, acts).value) || Enabled(cfg, Run(cfg, acts).value)
  {
    RunInv(cfg, acts);
    var s := Run(cfg, acts).value;
    match s.parent {
      case CollectReady(_) => ReadyMoves(cfg, s);
      case CollectDone(_) => DoneMoves(cfg, s);
      case Signalling(_) => SignalMoves(cfg, s);
      case CollectBlock(_) => BlockMoves(cfg, s);
      case Finished => LastMoves(cfg, s);
    }
  }
}
