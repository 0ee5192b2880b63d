/** Safety of the mode-change protocol over all runs. */
module ModeSafety {
  import opened Collections
  import opened ModeChange

  // ----- list difference and counting -----

  lemma {:induction false} MinusMembers(a: seq<int>, b: seq<int>, x: int)
    ensures x in Minus(a, b) <==> x in a && x !in b
  {
    if a != [] {
      MinusMembers(a[..|a| - 1], b, x);
      assert a == a[..|a| - 1] + [a[|a| - 1]];
    }
  }

  lemma {:induction false} MinusNoDuplicates(a: seq<int>, b: seq<int>)
    requires Distinct(a)
    ensures Distinct(Minus(a, b))
  {
    if a != [] {
      var front, last := a[..|a| - 1], a[|a| - 1];
      MinusNoDuplicates(front, b);
      MinusMembers(front, b, last);
      assert last !in front;
    }
  }

  /** When as many have posted as must leave, all of them have. */
  lemma AllPosted(s: State, block: seq<int>)
    requires Distinct(block)
    ensures |Posted(s, block)| <= |block|
    ensures |Posted(s, block)| == |block| ==> forall t :: t in block ==> !s.Released(t)
  {
    ElementCount(block);
    SubsetCount(Posted(s, block), Elements(block));
    if |Posted(s, block)| == |block| {
      forall t | t in block ensures !s.Released(t) {
        assert t in Posted(s, block);
      }
    }
  }

  // ----- the invariant -----

  function HandledCount(s: State): int { if s.mgr.Decided? then s.tail - 1 else s.tail }

  /** Every request is handled, on its way to the manager, or was refused. */
  ghost predicate Accounted(s: State) {
    && s.tail <= |s.queue|
    && 0 <= HandledCount(s) && s.handled == s.queue[..HandledCount(s)]
    && |s.queue| == s.tail + s.mgrSem + s.pending + s.lost + (if s.mgr == Awake then 1 else 0)
    && (s.mgr.Decided? ==> s.queue[s.tail - 1] == s.mgr.next)
  }

  ghost predicate QueueOk(cfg: Config, s: State) {
    && !s.fault
    && (forall x :: 0 <= x < |s.queue| ==> cfg.IsMode(s.queue[x]))
    && (s.curr == -1 || 0 <= s.curr < |cfg.modes|)
    && |s.queue| <= cfg.cap && Accounted(s)
    && (s.mgr.Decided? ==> cfg.IsMode(s.mgr.next))
  }

  /** A task inside the look-up has not passed its own entry. */
  ghost predicate LookupOk(cfg: Config, s: State, i: nat, t: int) {
    && !cfg.atomic && 0 <= s.curr < |cfg.modes|
    && forall j :: 0 <= j < i && j < |cfg.modes[s.curr]| ==> cfg.modes[s.curr][j] != t
  }

  ghost predicate TaskOk(cfg: Config, s: State, t: int) {
    && s.SemOf(t) <= 1
    && (s.PhaseOf(t) != Waiting ==> s.SemOf(t) == 0)
    && (s.PhaseOf(t) == Leaving ==> t !in cfg.Tasks(s.curr))
    && (s.PhaseOf(t).Scanning? ==> LookupOk(cfg, s, s.PhaseOf(t).i, t))
    && (s.PhaseOf(t).Comparing? ==> LookupOk(cfg, s, s.PhaseOf(t).i, t))
  }

  ghost predicate TasksOk(cfg: Config, s: State) {
    forall t :: TaskOk(cfg, s, t)
  }

  /** Exactly the tasks of the current mode are released. */
  ghost predicate Steady(cfg: Config, s: State) {
    s.narrived == 0 && s.nsignals == 0 && forall t :: s.Released(t) <==> t in cfg.Tasks(s.curr)
  }

  /** The lists of a mode change fit the new mode. */
  ghost predicate Lists(cfg: Config, s: State, block: seq<int>, wake: seq<int>) {
    && Distinct(block) && Distinct(wake)
    && (forall t :: t in wake ==> t in cfg.Tasks(s.curr))
    && (forall t :: t in block ==> t !in cfg.Tasks(s.curr))
  }

  /** Between the change of `curr_mode` and the end of the wait. */
  ghost predicate Draining(cfg: Config, s: State, block: seq<int>, wake: seq<int>) {
    && Lists(cfg, s, block, wake)
    && (forall t :: t in cfg.Tasks(s.curr) ==> (s.Released(t) <==> t !in wake))
    && (forall t :: s.Released(t) ==> t in cfg.Tasks(s.curr) || t in block)
    && s.narrived == |Posted(s, block)|
  }

  /** While the new tasks are activated, those before place i are released. */
  ghost predicate Waking(cfg: Config, s: State, block: seq<int>, wake: seq<int>, i: nat) {
    && i <= |wake| && s.narrived == 0 && s.nsignals == 0
    && Lists(cfg, s, block, wake)
    && forall t :: s.Released(t) <==> t in cfg.Tasks(s.curr) && t !in wake[i..]
  }

  ghost predicate ManagerOk(cfg: Config, s: State) {
    match s.mgr
    case Starting => Steady(cfg, s)
    case Idle => Steady(cfg, s)
    case Awake => Steady(cfg, s)
    case Decided(next, block, wake) =>
      Steady(cfg, s) && block == Block(cfg, s.curr, next) && wake == Unblock(cfg, s.curr, next)
    case Entering(block, wake) => Draining(cfg, s, block, wake) && s.nsignals == 0 && block != []
    case Blocked(block, wake) => Draining(cfg, s, block, wake) && s.nsignals == |block| && s.narrived < |block|
    case Signalled(block, wake) => Draining(cfg, s, block, wake) && s.nsignals == |block| == s.narrived
    case Activating(block, wake, i) => Waking(cfg, s, block, wake, i)
  }

  ghost predicate Inv(cfg: Config, s: State) {
    QueueOk(cfg, s) && TasksOk(cfg, s) && ManagerOk(cfg, s)
  }

  lemma InvIsSafe(cfg: Config, s: State)
    requires Inv(cfg, s)
    ensures Safe(cfg, s)
  {
    forall t ensures s.PhaseOf(t) == Leaving ==> t !in cfg.Tasks(s.curr) {
      assert TaskOk(cfg, s, t);
    }
    if s.mgr.Activating? {
      var block, wake, i := s.mgr.block, s.mgr.wake, s.mgr.i;
      if i < |wake| {
        assert wake[i] in wake[i..];
      }
    }
  }

  lemma InitialInv(cfg: Config)
    ensures Inv(cfg, INITIAL)
  {
  }

  // ----- the manager's steps -----

  lemma DequeueKeeps(cfg: Config, s: State, s': State)
    requires Inv(cfg, s) && Step(cfg, s, Dequeue) == Some(s')
    ensures Inv(cfg, s')
  {
    forall t ensures TaskOk(cfg, s', t) {
      assert TaskOk(cfg, s, t);
    }
  }

  lemma ParkKeeps(cfg: Config, s: State, s': State)
    requires Inv(cfg, s) && (Step(cfg, s, Park) == Some(s') || Step(cfg, s, Wake) == Some(s'))
    ensures Inv(cfg, s')
  {
    forall t ensures TaskOk(cfg, s', t) {
      assert TaskOk(cfg, s, t);
    }
  }

  /** What the two differences are, seen from the new mode. */
  lemma ListsFit(cfg: Config, s: State, s': State, old': int, block: seq<int>, wake: seq<int>)
    requires cfg.Valid() && block == Block(cfg, old', s'.curr) && wake == Unblock(cfg, old', s'.curr)
    ensures Lists(cfg, s', block, wake)
    ensures forall t :: t in wake <==> t in cfg.Tasks(s'.curr) && t !in cfg.Tasks(old')
    ensures forall t :: t in block <==> t in cfg.Tasks(old') && t !in cfg.Tasks(s'.curr)
  {
    MinusNoDuplicates(cfg.Tasks(old'), cfg.Tasks(s'.curr));
    MinusNoDuplicates(cfg.Tasks(s'.curr), cfg.Tasks(old'));
    forall t
      ensures t in wake <==> t in cfg.Tasks(s'.curr) && t !in cfg.Tasks(old')
      ensures t in block <==> t in cfg.Tasks(old') && t !in cfg.Tasks(s'.curr)
    {
      MinusMembers(cfg.Tasks(old'), cfg.Tasks(s'.curr), t);
      MinusMembers(cfg.Tasks(s'.curr), cfg.Tasks(old'), t);
    }
  }

  /** Changing `curr_mode` does not make any look-up under way miss its entry. */
  lemma SwitchKeepsTask(cfg: Config, s: State, s': State, t: int)
    requires cfg.Valid() && Sound(cfg) && Inv(cfg, s) && Step(cfg, s, SetMode) == Some(s')
    ensures TaskOk(cfg, s', t)
  {
    assert TaskOk(cfg, s, t);
    assert s.Released(t) <==> t in cfg.Tasks(s.curr);
    if s.PhaseOf(t).Scanning? || s.PhaseOf(t).Comparing? {
      assert t in cfg.Tasks(s.curr);
      SwitchKeepsLookup(cfg, s.curr, s'.curr, s.PhaseOf(t).i, t);
    }
  }

  lemma SwitchKeepsLookup(cfg: Config, old': int, next: int, i: nat, t: int)
    requires cfg.Valid() && Sound(cfg) && !cfg.atomic && cfg.IsMode(next) && 0 <= old' < |cfg.modes|
    requires t in cfg.modes[old']
    requires forall j :: 0 <= j < i && j < |cfg.modes[old']| ==> cfg.modes[old'][j] != t
    ensures 0 <= next < |cfg.modes|
    ensures forall j :: 0 <= j < i && j < |cfg.modes[next]| ==> cfg.modes[next][j] != t
  {
    var p :| 0 <= p < |cfg.modes[old']| && cfg.modes[old'][p] == t;
    assert cfg.modes[old'] != [];
    assert next != -1;
    forall j | 0 <= j < i && j < |cfg.modes[next]| ensures cfg.modes[next][j] != t {
      assert cfg.modes[old'][p] == cfg.modes[next][j] ==> p == j;
    }
  }

  lemma SetModeKeeps(cfg: Config, s: State, s': State)
    requires cfg.Valid() && Sound(cfg) && Inv(cfg, s) && Step(cfg, s, SetMode) == Some(s')
    ensures Inv(cfg, s')
  {
    forall t ensures TaskOk(cfg, s', t) {
      SwitchKeepsTask(cfg, s, s', t);
    }
    var block, wake := s.mgr.block, s.mgr.wake;
    ListsFit(cfg, s, s', s.curr, block, wake);
    SameReleased(s, s');
    if block != [] {
      assert Posted(s', block) == {};
    } else {
      assert wake[0..] == wake;
      assert forall t :: t in cfg.Tasks(s.curr) ==> t in cfg.Tasks(s'.curr);
    }
    assert s.queue[..s.tail] == s.queue[..s.tail - 1] + [s.mgr.next];
  }

  lemma SameReleased(s: State, s': State)
    requires s'.phase == s.phase && s'.sem == s.sem
    ensures forall t :: s'.Released(t) == s.Released(t)
  {
  }

  lemma EnterWaitKeeps(cfg: Config, s: State, s': State)
    requires Inv(cfg, s) && (Step(cfg, s, EnterWait) == Some(s') || Step(cfg, s, Resume) == Some(s'))
    ensures Inv(cfg, s')
  {
    forall t ensures TaskOk(cfg, s', t) {
      assert TaskOk(cfg, s, t);
    }
    SameReleased(s, s');
    var block, wake := s.mgr.block, s.mgr.wake;
    AllPosted(s, block);
    assert Posted(s', block) == Posted(s, block);
    if s'.mgr.Activating? {
      assert wake[0..] == wake;
    }
  }

  lemma ActivateKeeps(cfg: Config, s: State, s': State)
    requires Inv(cfg, s) && Step(cfg, s, Activate) == Some(s')
    ensures Inv(cfg, s')
  {
    if s.mgr.i >= |s.mgr.wake| {
      assert s.mgr.wake[s.mgr.i..] == [];
      SameReleased(s, s');
      SameTasks(cfg, s, s');
    } else {
      ActivateOne(cfg, s, s');
    }
  }

  lemma ActivateOne(cfg: Config, s: State, s': State)
    requires Inv(cfg, s) && Step(cfg, s, Activate) == Some(s') && s.mgr.i < |s.mgr.wake|
    ensures Inv(cfg, s')
  {
    var wake, i := s.mgr.wake, s.mgr.i;
    var x := wake[i];
    assert wake[i..] == [x] + wake[i + 1..];
    assert x !in wake[i + 1..];
    forall t ensures s'.Released(t) <==> t in cfg.Tasks(s.curr) && t !in wake[i + 1..] {
      assert s.Released(t) <==> t in cfg.Tasks(s.curr) && t !in wake[i..];
    }
    forall t ensures TaskOk(cfg, s', t) {
      assert TaskOk(cfg, s, t);
      assert !s.Released(x);
    }
  }

  lemma SameTasks(cfg: Config, s: State, s': State)
    requires TasksOk(cfg, s) && s'.curr == s.curr && s'.phase == s.phase && s'.sem == s.sem
    ensures TasksOk(cfg, s')
  {
    forall t ensures TaskOk(cfg, s', t) {
      assert TaskOk(cfg, s, t);
    }
  }

  /** Steps that touch only the queue. */
  lemma SameManager(cfg: Config, s: State, s': State)
    requires ManagerOk(cfg, s)
    requires s' == s.(queue := s'.queue, mgrSem := s'.mgrSem, pending := s'.pending, lost := s'.lost)
    ensures ManagerOk(cfg, s')
  {
    SameReleased(s, s');
    match s.mgr {
      case Entering(block, wake) => assert Posted(s', block) == Posted(s, block);
      case Blocked(block, wake) => assert Posted(s', block) == Posted(s, block);
      case Signalled(block, wake) => assert Posted(s', block) == Posted(s, block);
      case _ =>
    }
  }

  lemma RequesterKeeps(cfg: Config, s: State, s': State, a: Action)
    requires Inv(cfg, s) && RequesterStep(cfg, s, a) == Some(s')
    ensures Inv(cfg, s')
  {
    SameTasks(cfg, s, s');
    SameManager(cfg, s, s');
    RequesterQueue(cfg, s, s', a);
  }

  lemma RequesterQueue(cfg: Config, s: State, s': State, a: Action)
    requires QueueOk(cfg, s) && RequesterStep(cfg, s, a) == Some(s')
    ensures QueueOk(cfg, s')
  {
    assert s'.queue[..HandledCount(s)] == s.queue[..HandledCount(s)];
  }

  // ----- the tasks' steps -----

  /** Steps that leave every task released that was. */
  lemma ReleasedKept(cfg: Config, s: State, s': State)
    requires QueueOk(cfg, s) && ManagerOk(cfg, s)
    requires s' == s.(phase := s'.phase, sem := s'.sem) && forall t :: s'.Released(t) == s.Released(t)
    ensures QueueOk(cfg, s') && ManagerOk(cfg, s')
  {
    match s.mgr {
      case Entering(block, wake) => assert Posted(s', block) == Posted(s, block);
      case Blocked(block, wake) => assert Posted(s', block) == Posted(s, block);
      case Signalled(block, wake) => assert Posted(s', block) == Posted(s, block);
      case _ =>
    }
  }

  lemma OtherTasksOk(cfg: Config, s: State, s': State, t: int)
    requires TasksOk(cfg, s) && s'.curr == s.curr && TaskOk(cfg, s', t)
    requires forall u :: u != t ==> s'.PhaseOf(u) == s.PhaseOf(u) && s'.SemOf(u) == s.SemOf(u)
    ensures TasksOk(cfg, s')
  {
    forall u ensures TaskOk(cfg, s', u) {
      assert TaskOk(cfg, s, u);
    }
  }

  lemma TaskWakeKeeps(cfg: Config, s: State, s': State, t: int)
    requires Inv(cfg, s) && (Step(cfg, s, TaskWake(t)) == Some(s') || Step(cfg, s, TaskPeriod(t)) == Some(s'))
    ensures Inv(cfg, s')
  {
    assert TaskOk(cfg, s, t);
    OtherTasksOk(cfg, s, s', t);
    ReleasedKept(cfg, s, s');
  }

  lemma TaskCheckKeeps(cfg: Config, s: State, s': State, t: int)
    requires cfg.Valid() && Inv(cfg, s) && Step(cfg, s, TaskCheck(t)) == Some(s')
    ensures Inv(cfg, s')
  {
    assert TaskOk(cfg, s, t);
    OtherTasksOk(cfg, s, s', t);
    ReleasedKept(cfg, s, s');
  }

  /** A task whose look-up runs out is not in the current mode; one that finds itself stays. */
  lemma TaskLookKeeps(cfg: Config, s: State, s': State, t: int, garbage: bool)
    requires cfg.Valid() && Inv(cfg, s)
    requires Step(cfg, s, TaskTest(t)) == Some(s') || Step(cfg, s, TaskCompare(t, garbage)) == Some(s')
    ensures Inv(cfg, s')
  {
    assert TaskOk(cfg, s, t);
    OtherTasksOk(cfg, s, s', t);
    ReleasedKept(cfg, s, s');
  }

  /** A leaving task that posts counts once. */
  lemma PostDrains(cfg: Config, s: State, s': State, block: seq<int>, wake: seq<int>, t: int)
    requires Draining(cfg, s, block, wake) && s.Released(t) && t !in cfg.Tasks(s.curr) && s.SemOf(t) == 0
    requires s'.phase == s.phase[t := Waiting] && s'.sem == s.sem && s'.curr == s.curr && s'.narrived == s.narrived + 1
    ensures Draining(cfg, s', block, wake) && s'.narrived <= |block|
    ensures s.narrived < |block|
  {
    assert forall u :: u != t ==> s'.Released(u) == s.Released(u);
    assert Posted(s', block) == Posted(s, block) + {t};
    AllPosted(s', block);
  }

  /** Only a task of the leaving list can be about to post. */
  lemma PosterLeaves(cfg: Config, s: State, t: int)
    requires Inv(cfg, s) && s.PhaseOf(t) == Leaving
    ensures s.Released(t) && t !in cfg.Tasks(s.curr) && s.SemOf(t) == 0
    ensures (s.mgr.Entering? || s.mgr.Blocked? || s.mgr.Signalled?) && t in s.mgr.block
  {
    assert TaskOk(cfg, s, t);
  }

  lemma TaskPostKeeps(cfg: Config, s: State, s': State, t: int)
    requires cfg.Valid() && Inv(cfg, s) && Step(cfg, s, TaskPost(t)) == Some(s')
    ensures Inv(cfg, s')
  {
    PosterLeaves(cfg, s, t);
    PostDrains(cfg, s, s', s.mgr.block, s.mgr.wake, t);
    OtherTasksOk(cfg, s, s', t);
  }

  lemma StepKeeps(cfg: Config, s: State, a: Action, s': State)
    requires cfg.Valid() && Sound(cfg) && Inv(cfg, s) && Step(cfg, s, a) == Some(s')
    ensures Inv(cfg, s')
  {
    match a {
      case Park => ParkKeeps(cfg, s, s');
      case Wake => ParkKeeps(cfg, s, s');
      case Dequeue => DequeueKeeps(cfg, s, s');
      case SetMode => SetModeKeeps(cfg, s, s');
      case EnterWait => EnterWaitKeeps(cfg, s, s');
      case Resume => EnterWaitKeeps(cfg, s, s');
      case Activate => ActivateKeeps(cfg, s, s');
      case Request(_) => RequesterKeeps(cfg, s, s', a);
      case ActivateManager => RequesterKeeps(cfg, s, s', a);
      case TaskWake(t) => TaskWakeKeeps(cfg, s, s', t);
      case TaskPeriod(t) => TaskWakeKeeps(cfg, s, s', t);
      case TaskCheck(t) => TaskCheckKeeps(cfg, s, s', t);
      case TaskTest(t) => TaskLookKeeps(cfg, s, s', t, false);
      case TaskCompare(t, g) => TaskLookKeeps(cfg, s, s', t, g);
      case TaskPost(t) => TaskPostKeeps(cfg, s, s', t);
    }
  }

  lemma {:induction false} RunKeeps(cfg: Config, acts: seq<Action>)
    requires cfg.Valid() && Sound(cfg) && Run(cfg, acts).Some?
    ensures Inv(cfg, Run(cfg, acts).value)
  {
    if acts == [] {
      InitialInv(cfg);
    } else {
      var front := acts[..|acts| - 1];
      RunKeeps(cfg, front);
      StepKeeps(cfg, Run(cfg, front).value, acts[|acts| - 1], Run(cfg, acts).value);
    }
  }

  /** Main result: with sound tables every reachable state is safe. */
  lemma SoundIsSafe(cfg: Config, s: State)
    requires cfg.Valid() && Sound(cfg) && Reachable(cfg, s)
    ensures Inv(cfg, s) && Safe(cfg, s)
  {
    var acts :| Run(cfg, acts) == Some(s);
    RunKeeps(cfg, acts);
    InvIsSafe(cfg, s);
  }

  // ----- requests that are left over -----

  lemma DequeueAccounts(cfg: Config, s: State, s': State)
    requires Accounted(s) && ManagerStep(cfg, s, Dequeue) == Some(s')
    ensures Accounted(s')
  {
  }

  lemma SetModeAccounts(cfg: Config, s: State, s': State)
    requires Accounted(s) && ManagerStep(cfg, s, SetMode) == Some(s')
    ensures Accounted(s')
  {
    assert s.queue[..s.tail] == s.queue[..s.tail - 1] + [s.queue[s.tail - 1]];
  }

  lemma OthersAccount(cfg: Config, s: State, a: Action, s': State)
    requires Accounted(s) && ManagerStep(cfg, s, a) == Some(s') && !a.Dequeue? && !a.SetMode?
    ensures Accounted(s')
  {
  }

  lemma RequesterAccounts(cfg: Config, s: State, a: Action, s': State)
    requires Accounted(s) && RequesterStep(cfg, s, a) == Some(s')
    ensures Accounted(s')
  {
  }

  lemma TaskAccounts(cfg: Config, s: State, a: Action, s': State)
    requires Accounted(s) && TaskStep(cfg, s, a) == Some(s')
    ensures Accounted(s')
  {
  }

  lemma StepAccounts(cfg: Config, s: State, a: Action, s': State)
    requires Accounted(s) && Step(cfg, s, a) == Some(s')
    ensures Accounted(s')
  {
    if a.Request? || a.ActivateManager? {
      RequesterAccounts(cfg, s, a, s');
    } else if a.Dequeue? {
      DequeueAccounts(cfg, s, s');
    } else if a.SetMode? {
      SetModeAccounts(cfg, s, s');
    } else if a.Park? || a.Wake? || a.EnterWait? || a.Resume? || a.Activate? {
      OthersAccount(cfg, s, a, s');
    } else {
      TaskAccounts(cfg, s, a, s');
    }
  }

  lemma {:induction false} RunAccounts(cfg: Config, acts: seq<Action>)
    requires Run(cfg, acts).Some?
    ensures Accounted(Run(cfg, acts).value)
  {
    if acts != [] {
      var front := acts[..|acts| - 1];
      RunAccounts(cfg, front);
      StepAccounts(cfg, Run(cfg, front).value, acts[|acts| - 1], Run(cfg, acts).value);
    }
  }

  /** The manager waits with nothing on its way. */
  predicate AtRest(s: State) { s.mgr == Idle && s.mgrSem == 0 && s.pending == 0 }

  /** At rest requests are left over exactly when an activation was refused because the manager
      was busy, whatever the tables. */
  lemma LeftOverRequests(cfg: Config, s: State)
    requires Reachable(cfg, s) && AtRest(s)
    ensures |s.queue| - |s.handled| == s.lost
    ensures s.handled == s.queue <==> s.lost == 0
  {
    var acts: seq<Action> :| Run(cfg, acts) == Some(s);
    RunAccounts(cfg, acts);
  }

  lemma Extend(cfg: Config, s: State, a: Action, s': State)
    requires Reachable(cfg, s) && Step(cfg, s, a) == Some(s')
    ensures Reachable(cfg, s')
  {
    var acts: seq<Action> :| Run(cfg, acts) == Some(s);
    assert (acts + [a])[..|acts|] == acts;
    assert Run(cfg, acts + [a]) == Some(s');
  }

  lemma RequestMade(cfg: Config, m: int)
    requires cfg.cap > 0 && cfg.IsMode(m)
    ensures Reachable(cfg, INITIAL.(queue := [m], pending := 1))
  {
    assert Run(cfg, []) == Some(INITIAL) && INITIAL.queue + [m] == [m];
    Extend(cfg, INITIAL, Request(m), INITIAL.(queue := [m], pending := 1));
  }

  /** A request made before the manager first waits is left over. */
  lemma RequestLeftOver(cfg: Config, m: int) returns (s: State)
    requires cfg.cap > 0 && cfg.IsMode(m)
    ensures Reachable(cfg, s) && AtRest(s) && s.queue == [m] && s.handled == [] && s.lost == 1
  {
    RequestMade(cfg, m);
    var a := INITIAL.(queue := [m], pending := 1);
    var b := a.(pending := 0, lost := 1);
    Extend(cfg, a, ActivateManager, b);
    s := b.(mgr := Idle);
    Extend(cfg, b, Park, s);
  }
}
