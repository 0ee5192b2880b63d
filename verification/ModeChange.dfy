/** The mode-change protocol of rtmode.c and ptask.c as interleaved steps of the manager, the
    tasks and the requesters. */
module ModeChange {
  import opened Collections

  /** RTMODE_MAX_MODES */
  const MAX_MODES := 16

  /** `modes` are the task lists, `cap` the length of the request queue.  With `atomic` a task
      looks itself up in one step; otherwise every read of `curr_mode` is a step of its own.
      `off` says whether mode -1 may be requested. */
  datatype Config = Config(modes: seq<seq<int>>, cap: nat, atomic: bool, off: bool) {
    ghost predicate Valid() {
      && |modes| <= MAX_MODES
      && forall m :: 0 <= m < |modes| ==> Distinct(modes[m])
    }

    predicate IsMode(m: int) { 0 <= m < |modes| || (m == -1 && off) }

    /** The tasks of a mode; none in mode -1. */
    function Tasks(m: int): seq<int> {
      if 0 <= m < |modes| then modes[m] else []
    }
  }

  /** tlist_sub */
  function Minus(a: seq<int>, b: seq<int>): seq<int> {
    if a == [] then []
    else Minus(a[..|a| - 1], b) + if a[|a| - 1] in b then [] else [a[|a| - 1]]
  }

  /** Where a periodic task is: suspended on its semaphore, running its body, inside
      rtmode_taskfind before or after the loop test for entry i, about to post and suspend, or
      sleeping to its next period. */
  datatype Phase = Waiting | Running | Scanning(i: nat) | Comparing(i: nat) | Leaving | Sleeping

  /** Where the manager is.  It is in state TASK_SUSPENDED exactly when `Idle`. */
  datatype Manager =
    | Starting
    | Idle
    | Awake
    | Decided(next: int, block: seq<int>, wake: seq<int>)
    | Entering(block: seq<int>, wake: seq<int>)
    | Blocked(block: seq<int>, wake: seq<int>)
    | Signalled(block: seq<int>, wake: seq<int>)
    | Activating(block: seq<int>, wake: seq<int>, i: nat)

  /** `queue` holds all requests so far, `head` being its length.  `pending` counts requesters
      between enqueueing and activating; `lost` counts activations that found the manager busy.
      `fault` is set by a read outside the tables. */
  datatype State = State(
    mgr: Manager, curr: int, queue: seq<int>, tail: nat, handled: seq<int>,
    nsignals: nat, narrived: nat, mgrSem: nat, pending: nat, lost: nat,
    phase: map<int, Phase>, sem: map<int, nat>, fault: bool)
  {
    function PhaseOf(t: int): Phase { if t in phase then phase[t] else Waiting }
    function SemOf(t: int): nat { if t in sem then sem[t] else 0 }

    /** Not suspended, or suspended with its activation already posted. */
    predicate Released(t: int) { PhaseOf(t) != Waiting || SemOf(t) > 0 }
  }

  const INITIAL := State(Starting, -1, [], 0, [], 0, 0, 0, 0, 0, map[], map[], false)

  datatype Action =
    | Park | Wake | Dequeue | SetMode | EnterWait | Resume | Activate
    | Request(m: int) | ActivateManager
    | TaskWake(t: int) | TaskCheck(t: int) | TaskTest(t: int) | TaskCompare(t: int, garbage: bool)
    | TaskPost(t: int) | TaskPeriod(t: int)

  // ----- the steps -----

  function Block(cfg: Config, from: int, to': int): seq<int> { Minus(cfg.Tasks(from), cfg.Tasks(to')) }
  function Unblock(cfg: Config, from: int, to': int): seq<int> { Minus(cfg.Tasks(to'), cfg.Tasks(from)) }

  function ManagerStep(cfg: Config, s: State, a: Action): Option<State> {
    match (a, s.mgr)
    case (Park, Starting) => Some(s.(mgr := Idle))
    case (Wake, Idle) => if s.mgrSem > 0 then Some(s.(mgr := Awake, mgrSem := s.mgrSem - 1)) else None
    case (Dequeue, Awake) =>
      if s.tail >= |s.queue| then Some(s.(fault := true))
      else
        var next := s.queue[s.tail];
        Some(s.(mgr := Decided(next, Block(cfg, s.curr, next), Unblock(cfg, s.curr, next)), tail := s.tail + 1))
    case (SetMode, Decided(next, block, wake)) =>
      Some(s.(curr := next, handled := s.handled + [next],
              mgr := if block != [] then Entering(block, wake) else Activating(block, wake, 0)))
    case (EnterWait, Entering(block, wake)) =>
      if s.narrived < |block| then Some(s.(nsignals := |block|, mgr := Blocked(block, wake)))
      else Some(s.(nsignals := 0, narrived := 0, mgr := Activating(block, wake, 0)))
    case (Resume, Signalled(block, wake)) =>
      Some(s.(nsignals := 0, narrived := 0, mgr := Activating(block, wake, 0)))
    case (Activate, Activating(block, wake, i)) =>
      if i >= |wake| then Some(s.(mgr := Idle))
      else if s.PhaseOf(wake[i]) == Waiting then
        Some(s.(mgr := Activating(block, wake, i + 1), sem := s.sem[wake[i] := s.SemOf(wake[i]) + 1]))
      else Some(s.(mgr := Activating(block, wake, i + 1)))
    case _ => None
  }

  function RequesterStep(cfg: Config, s: State, a: Action): Option<State> {
    match a
    case Request(m) =>
      if |s.queue| < cfg.cap && cfg.IsMode(m) then Some(s.(queue := s.queue + [m], pending := s.pending + 1)) else None
    case ActivateManager =>
      if s.pending == 0 then None
      else if s.mgr == Idle then Some(s.(pending := s.pending - 1, mgrSem := s.mgrSem + 1))
      else Some(s.(pending := s.pending - 1, lost := s.lost + 1))
    case _ => None
  }

  function Put(s: State, t: int, p: Phase): State { s.(phase := s.phase[t := p]) }

  function TaskStep(cfg: Config, s: State, a: Action): Option<State> {
    match a
    case TaskWake(t) =>
      if s.PhaseOf(t) == Waiting && s.SemOf(t) > 0 then Some(Put(s, t, Running).(sem := s.sem[t := s.SemOf(t) - 1]))
      else None
    case TaskCheck(t) =>
      if s.PhaseOf(t) != Running then None
      else if s.curr < 0 || s.curr >= MAX_MODES then Some(Put(s, t, Leaving))
      else if !cfg.atomic then Some(Put(s, t, Scanning(0)))
      else Some(Put(s, t, if t in cfg.Tasks(s.curr) then Sleeping else Leaving))
    case TaskTest(t) =>
      if !s.PhaseOf(t).Scanning? then None
      else if !(0 <= s.curr < |cfg.modes|) then Some(s.(fault := true))
      else
        var i := s.PhaseOf(t).i;
        Some(Put(s, t, if i < |cfg.modes[s.curr]| then Comparing(i) else Leaving))
    case TaskCompare(t, garbage) =>
      if !s.PhaseOf(t).Comparing? then None
      else if !(0 <= s.curr < |cfg.modes|) then Some(s.(fault := true))
      else
        var i := s.PhaseOf(t).i;
        var found := if i < |cfg.modes[s.curr]| then cfg.modes[s.curr][i] == t else garbage;
        Some(Put(s, t, if found then Sleeping else Scanning(i + 1)))
    case TaskPost(t) =>
      if s.PhaseOf(t) != Leaving then None
      else
        var n := s.narrived + 1;
        var mgr := if s.nsignals == n && s.mgr.Blocked? then Signalled(s.mgr.block, s.mgr.wake) else s.mgr;
        Some(Put(s, t, Waiting).(narrived := n, mgr := mgr))
    case TaskPeriod(t) =>
      if s.PhaseOf(t) == Sleeping then Some(Put(s, t, Running)) else None
    case _ => None
  }

  function Step(cfg: Config, s: State, a: Action): Option<State> {
    match a
    case Request(_) => RequesterStep(cfg, s, a)
    case ActivateManager => RequesterStep(cfg, s, a)
    case TaskWake(_) => TaskStep(cfg, s, a)
    case TaskCheck(_) => TaskStep(cfg, s, a)
    case TaskTest(_) => TaskStep(cfg, s, a)
    case TaskCompare(_, _) => TaskStep(cfg, s, a)
    case TaskPost(_) => TaskStep(cfg, s, a)
    case TaskPeriod(_) => TaskStep(cfg, s, a)
    case _ => ManagerStep(cfg, s, a)
  }

  /** The state after a run, if every action of it was possible. */
  function Run(cfg: Config, acts: seq<Action>): Option<State> {
    if acts == [] then Some(INITIAL)
    else
      var before := Run(cfg, acts[..|acts| - 1]);
      if before.None? then None else Step(cfg, before.value, acts[|acts| - 1])
  }

  ghost predicate Reachable(cfg: Config, s: State) {
    exists acts: seq<Action> :: Run(cfg, acts) == Some(s)
  }

  // ----- what must never happen -----

  /** Tasks of the leaving list that have posted. */
  ghost function Posted(s: State, block: seq<int>): set<int> {
    set t | t in block && !s.Released(t)
  }

  ghost predicate Safe(cfg: Config, s: State) {
    && !s.fault
    // requests are handled in order, none is handled twice, and none disappears
    && s.tail <= |s.queue| <= cfg.cap
    && s.handled <= s.queue
    && (s.mgr == Awake ==> s.tail < |s.queue|)
    && |s.queue| == s.tail + s.mgrSem + s.pending + s.lost + (if s.mgr == Awake then 1 else 0)
    // only a task outside the current mode leaves
    && (forall t :: s.PhaseOf(t) == Leaving ==> t !in cfg.Tasks(s.curr))
    // the counter is the number of leaving tasks that have posted
    && (s.mgr.Entering? || s.mgr.Blocked? || s.mgr.Signalled? ==> s.narrived == |Posted(s, s.mgr.block)|)
    // nothing of the new mode starts before everything that leaves has posted
    && (s.mgr.Activating? ==> forall t :: t in s.mgr.block ==> !s.Released(t))
    // ... and a task about to be activated is suspended, so that the activation is not refused
    && (s.mgr.Activating? && s.mgr.i < |s.mgr.wake| ==> !s.Released(s.mgr.wake[s.mgr.i]))
    // while the manager waits exactly the tasks of the current mode are released
    && (s.mgr == Idle ==> forall t :: s.Released(t) <==> t in cfg.Tasks(s.curr))
  }

  /** A task has the same place in every mode it belongs to. */
  ghost predicate Aligned(modes: seq<seq<int>>) {
    forall a, b, i, j | 0 <= a < |modes| && 0 <= b < |modes| && 0 <= i < |modes[a]| && 0 <= j < |modes[b]| ::
      modes[a][i] == modes[b][j] ==> i == j
  }

  /** The tables for which the look-up is safe while modes change. */
  ghost predicate Sound(cfg: Config) {
    cfg.atomic || (Aligned(cfg.modes) && (cfg.off ==> forall m :: 0 <= m < |cfg.modes| ==> cfg.modes[m] == []))
  }
}
