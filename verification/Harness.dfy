/** The protocol of benchmp in lib_timing.c: a parent and its children, with one shared pipe for
    responses and three for signals. */
module Harness {
  import opened Arithmetic
  import opened Collections
  import opened Samples

  /** `children` is `parallel`, `block` the bytes of a result block. */
  datatype Config = Config(children: nat, repetitions: nat, block: Positive)

  /** A byte written to the response pipe, with its writer. */
  datatype Byte = ReadyByte(child: nat) | DoneByte(child: nat) | Data(child: nat, k: nat)

  /** A child: before its first call, in state `warmup`, having seen the start signal but not
      read it, in `timing_interval` with i measurements made, in `cooldown`, having seen a result
      signal, having written k bytes of its block, waiting for the exit signal, gone. */
  datatype Phase =
    | Fresh | Warming | StartSeen | Timing(i: nat) | Cooldown | ResultSeen | Sending(k: nat) | AwaitExit | Exited

  function Rank(p: Phase): nat {
    match p
    case Fresh => 0 case Warming => 1 case StartSeen => 2 case Timing(_) => 3 case Cooldown => 4
    case ResultSeen => 5 case Sending(_) => 6 case AwaitExit => 7 case Exited => 8
  }

  /** The parent: i bytes of the ready or done signals read, about to signal child number j,
      reading the j-th block, or through. */
  datatype Parent = CollectReady(i: nat) | CollectDone(i: nat) | Signalling(j: nat) | CollectBlock(j: nat) | Finished

  /** `log` holds all bytes ever written to the response pipe, of which `taken` are read; start,
      result and exit count the bytes in the signal pipes.  `served` lists the children that
      have read a result signal.  `fault` is set when a collected block is not one child's. */
  datatype State = State(
    parent: Parent, log: seq<Byte>, taken: nat, buf: seq<Byte>, merged: seq<Sample>,
    start: nat, result: nat, exit: nat,
    phase: seq<Phase>, lists: seq<seq<Sample>>, served: seq<nat>, fault: bool)

  function Initial(cfg: Config): State {
    State(CollectReady(0), [], 0, [], [], 0, 0, 0,
          seq(cfg.children, _ => Fresh), seq(cfg.children, _ => []), [], false)
  }

  datatype Action =
    | FirstCall(c: nat) | SeeStart(c: nat) | TakeStart(c: nat)
    | Measure(c: nat, x: Sample, keep: bool, giveUp: bool)
    | SeeResult(c: nat) | TakeResult(c: nat) | Write(c: nat, m: nat) | TakeExit(c: nat)
    | Read(m: nat) | SendStart | InitMerge | SendResult | Merge | SendExit

  /** The bytes of a child's block from one place to another. */
  function Block(c: nat, from: nat, to': nat): seq<Byte>
    requires from <= to'
  {
    seq(to' - from, x requires 0 <= x => Data(c, from + x))
  }

  function Put(s: State, c: nat, p: Phase): State
    requires c < |s.phase|
  {
    s.(phase := s.phase[c := p])
  }

  /** One turn of benchmp_interval for child c. */
  function ChildStep(cfg: Config, s: State, c: nat, a: Action): Option<State>
    requires c < |s.phase| == |s.lists|
  {
    match (a, s.phase[c])
    case (FirstCall(_), Fresh) =>
      var t := s.(log := s.log + [ReadyByte(c)]);
      Some(if s.start > 0 then Put(t, c, Timing(0)).(start := s.start - 1) else Put(t, c, Warming))
    case (SeeStart(_), Warming) => if s.start > 0 then Some(Put(s, c, StartSeen)) else None
    case (TakeStart(_), StartSeen) =>
      if s.start > 0 then Some(Put(s, c, Timing(0)).(start := s.start - 1)) else None
    case (Measure(_, x, keep, giveUp), Timing(i)) =>
      if cfg.children > 1 && (!keep || giveUp) then None
      else
        var i' := if keep then i + 1 else i;
        var t := s.(lists := s.lists[c := if keep then Inserted(s.lists[c], x) else s.lists[c]]);
        Some(if (keep && i' >= cfg.repetitions) || giveUp then Put(t, c, Cooldown).(log := s.log + [DoneByte(c)])
             else Put(t, c, Timing(i')))
    case (SeeResult(_), Cooldown) => if s.result > 0 then Some(Put(s, c, ResultSeen)) else None
    case (TakeResult(_), ResultSeen) =>
      if s.result > 0 then Some(Put(s, c, Sending(0)).(result := s.result - 1, served := s.served + [c])) else None
    case (Write(_, m), Sending(k)) =>
      if m == 0 || k + m > cfg.block then None
      else Some(Put(s, c, if k + m == cfg.block then AwaitExit else Sending(k + m)).(log := s.log + Block(c, k, k + m)))
    case (TakeExit(_), AwaitExit) =>
      if s.exit > 0 then Some(Put(s, c, Exited).(exit := s.exit - 1)) else None
    case _ => None
  }

  /** How many bytes the parent asks for. */
  function Wanted(cfg: Config, s: State): int {
    match s.parent
    case CollectReady(i) => cfg.children - i
    case CollectDone(i) => cfg.children - i
    case CollectBlock(_) => cfg.block - |s.buf|
    case _ => 0
  }

  function ParentStep(cfg: Config, s: State, a: Action): Option<State> {
    match (a, s.parent)
    case (Read(m), CollectReady(i)) =>
      if CanRead(cfg, s, m) then Some(s.(parent := CollectReady(i + m), taken := s.taken + m)) else None
    case (SendStart, CollectReady(i)) =>
      if i == cfg.children then Some(s.(parent := CollectDone(0), start := s.start + cfg.children)) else None
    case (Read(m), CollectDone(i)) =>
      if CanRead(cfg, s, m) then Some(s.(parent := CollectDone(i + m), taken := s.taken + m)) else None
    case (InitMerge, CollectDone(i)) =>
      if i == cfg.children then Some(s.(parent := Signalling(0), merged := [])) else None
    case (SendResult, Signalling(j)) =>
      if j < cfg.children then Some(s.(parent := CollectBlock(j), buf := [], result := s.result + 1)) else None
    case (Read(m), CollectBlock(j)) =>
      if CanRead(cfg, s, m) then Some(s.(buf := s.buf + s.log[s.taken..s.taken + m], taken := s.taken + m)) else None
    case (Merge, CollectBlock(j)) =>
      if |s.buf| != cfg.block then None
      else if s.buf[0].Data? && s.buf[0].child < |s.lists| && s.buf == Block(s.buf[0].child, 0, cfg.block) then
        Some(s.(parent := Signalling(j + 1), merged := InsertedAll(s.merged, s.lists[s.buf[0].child])))
      else Some(s.(fault := true))
    case (SendExit, Signalling(j)) =>
      if j == cfg.children then Some(s.(parent := Finished, exit := s.exit + cfg.children)) else None
    case _ => None
  }

  predicate CanRead(cfg: Config, s: State, m: nat) {
    0 < m <= Wanted(cfg, s) && s.taken + m <= |s.log|
  }

  predicate OfParent(a: Action) {
    a.Read? || a.SendStart? || a.InitMerge? || a.SendResult? || a.Merge? || a.SendExit?
  }

  function Step(cfg: Config, s: State, a: Action): Option<State> {
    if OfParent(a) then ParentStep(cfg, s, a)
    else if a.c < |s.phase| == |s.lists| then ChildStep(cfg, s, a.c, a)
    else None
  }

  function Run(cfg: Config, acts: seq<Action>): Option<State> {
    if acts == [] then Some(Initial(cfg))
    else
      var before := Run(cfg, acts[..|acts| - 1]);
      if before.None? then None else Step(cfg, before.value, acts[|acts| - 1])
  }

  // ----- what is promised -----

  /** A child stops measuring after its repetitions, and after one at least. */
  function Most(cfg: Config): nat { if cfg.repetitions == 0 then 1 else cfg.repetitions }

  function AllSamples(lists: seq<seq<Sample>>): multiset<Sample> {
    if lists == [] then multiset{} else AllSamples(lists[..|lists| - 1]) + multiset(lists[|lists| - 1])
  }

  /** Every byte of a block directly follows the one before it. */
  ghost predicate Unbroken(log: seq<Byte>) {
    forall p :: 0 <= p < |log| && log[p].Data? && log[p].k > 0 ==>
      p > 0 && log[p - 1] == Data(log[p].child, log[p].k - 1)
  }

  /** No child measures before all are ready, and a child that saw the start signal gets it.  A
      result signal is taken, and even seen, only when all children are in cooldown. */
  ghost predicate InStep(s: State, c: nat)
    requires c < |s.phase|
  {
    && (Rank(s.phase[c]) >= 2 ==> forall d :: 0 <= d < |s.phase| ==> Rank(s.phase[d]) >= 1)
    && (s.phase[c] == StartSeen ==> s.start > 0)
    && (Rank(s.phase[c]) >= 5 ==> forall d :: 0 <= d < |s.phase| ==> Rank(s.phase[d]) >= 4)
  }

  /** One ready and one done signal of each child. */
  ghost predicate SignalsOk(log: seq<Byte>, c: nat, p: Phase) {
    && multiset(log)[ReadyByte(c)] == (if Rank(p) >= 1 then 1 else 0)
    && multiset(log)[DoneByte(c)] == (if Rank(p) >= 4 then 1 else 0)
  }

  ghost predicate Safe(cfg: Config, s: State) {
    && |s.phase| == |s.lists| == cfg.children && !s.fault
    && (forall c :: 0 <= c < |s.phase| ==> InStep(s, c))
    && (forall c :: 0 <= c < |s.phase| ==> SignalsOk(s.log, c, s.phase[c]))
    // blocks do not interleave
    && Unbroken(s.log)
    // each child's list is sorted and has at most its repetitions
    && (forall c :: 0 <= c < |s.lists| ==> Sorted(s.lists[c]) && |s.lists[c]| <= Most(cfg))
    // the parent ends with all measurements in order
    && (s.parent == Finished ==> Sorted(s.merged) && multiset(s.merged) == AllSamples(s.lists))
  }
}
