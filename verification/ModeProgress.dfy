/** A mode change gets through: somebody whom it concerns can always move, and from every state of
    every run the manager can come back to its waiting, with the requested mode in force. */
module ModeProgress {
  import opened Arithmetic
  import opened Collections
  import opened ModeChange
  import opened ModeSafety

  ghost predicate Good(cfg: Config, s: State) { cfg.Valid() && Sound(cfg) && Inv(cfg, s) }

  // ----- nobody waits for ever -----

  /** The step that task t is at. */
  function NextOf(s: State, t: int): Action {
    match s.PhaseOf(t)
    case Waiting => TaskWake(t)
    case Running => TaskCheck(t)
    case Scanning(_) => TaskTest(t)
    case Comparing(_) => TaskCompare(t, false)
    case Leaving => TaskPost(t)
    case Sleeping => TaskPeriod(t)
  }

  lemma ReleasedMoves(cfg: Config, s: State, t: int)
    requires s.Released(t)
    ensures Step(cfg, s, NextOf(s, t)).Some?
  {
  }

  /** A step of the manager, of a requester about to activate it, or of a task that it waits for. */
  predicate OfChange(s: State, a: Action) {
    match a
    case Request(_) => false
    case TaskWake(t) => AwaitedBy(s.mgr, t)
    case TaskCheck(t) => AwaitedBy(s.mgr, t)
    case TaskTest(t) => AwaitedBy(s.mgr, t)
    case TaskCompare(t, _) => AwaitedBy(s.mgr, t)
    case TaskPost(t) => AwaitedBy(s.mgr, t)
    case TaskPeriod(t) => AwaitedBy(s.mgr, t)
    case _ => true
  }

  predicate AwaitedBy(mgr: Manager, t: int) { mgr.Blocked? && t in mgr.block }

  ghost predicate CanMove(cfg: Config, s: State) { exists a :: OfChange(s, a) && Step(cfg, s, a).Some? }

  lemma MovedBy(cfg: Config, s: State, a: Action)
    requires OfChange(s, a) && Step(cfg, s, a).Some?
    ensures CanMove(cfg, s)
  {
  }

  /** While the manager is blocked some task that it waits for has not posted. */
  lemma Awaited(cfg: Config, s: State) returns (t: int)
    requires Inv(cfg, s) && s.mgr.Blocked?
    ensures t in s.mgr.block && s.Released(t) && t !in cfg.Tasks(s.curr)
  {
    var block := s.mgr.block;
    if forall u :: u in block ==> !s.Released(u) {
      assert Posted(s, block) == Elements(block);
      ElementCount(block);
      assert false;
    }
    t :| t in block && s.Released(t);
  }

  /** In every run with sound tables: unless the manager waits with nothing on its way, it, or a
      task that it waits for, or a requester can move. */
  lemma NeverStuck(cfg: Config, s: State)
    requires cfg.Valid() && Sound(cfg) && Reachable(cfg, s)
    ensures AtRest(s) || CanMove(cfg, s)
  {
    SoundIsSafe(cfg, s);
    match s.mgr {
      case Starting => MovedBy(cfg, s, Park);
      case Idle =>
        if s.mgrSem > 0 {
          MovedBy(cfg, s, Wake);
        } else if s.pending > 0 {
          MovedBy(cfg, s, ActivateManager);
        }
      case Awake => MovedBy(cfg, s, Dequeue);
      case Decided(_, _, _) => MovedBy(cfg, s, SetMode);
      case Entering(_, _) => MovedBy(cfg, s, EnterWait);
      case Blocked(_, _) =>
        var t := Awaited(cfg, s);
        ReleasedMoves(cfg, s, t);
        MovedBy(cfg, s, NextOf(s, t));
      case Signalled(_, _) => MovedBy(cfg, s, Resume);
      case Activating(_, _, _) => MovedBy(cfg, s, Activate);
    }
  }

  // ----- continuations -----

  function StepOf(cfg: Config): (State, Action) -> Option<State> { (s, a) => Step(cfg, s, a) }

  /** A run from s ends in s'. */
  ghost predicate Leads(cfg: Config, s: State, s': State) {
    exists acts: seq<Action> :: Steps(StepOf(cfg), s, acts) == Some(s')
  }

  lemma LeadsSelf(cfg: Config, s: State)
    ensures Leads(cfg, s, s)
  {
    assert Steps(StepOf(cfg), s, []) == Some(s);
  }

  lemma LeadsOn(cfg: Config, s: State, t: State, u: State)
    requires Leads(cfg, s, t) && Leads(cfg, t, u)
    ensures Leads(cfg, s, u)
  {
    var a: seq<Action> :| Steps(StepOf(cfg), s, a) == Some(t);
    var b: seq<Action> :| Steps(StepOf(cfg), t, b) == Some(u);
    StepsOn(StepOf(cfg), s, a, t, b);
  }

  lemma LeadsStep(cfg: Config, s: State, a: Action, s': State)
    requires Step(cfg, s, a) == Some(s')
    ensures Leads(cfg, s, s')
  {
    assert [a][..0] == [];
    assert Steps(StepOf(cfg), s, [a]) == Some(s');
  }

  /** Continuations of runs are runs. */
  lemma {:induction false} RunsOn(cfg: Config, s: State, acts: seq<Action>, s': State)
    requires Reachable(cfg, s) && Steps(StepOf(cfg), s, acts) == Some(s')
    ensures Reachable(cfg, s')
    decreases |acts|
  {
    if acts != [] {
      var t := Steps(StepOf(cfg), s, acts[..|acts| - 1]).value;
      RunsOn(cfg, s, acts[..|acts| - 1], t);
      Extend(cfg, t, acts[|acts| - 1], s');
    }
  }

  lemma LeadsReachable(cfg: Config, s: State, s': State)
    requires Reachable(cfg, s) && Leads(cfg, s, s')
    ensures Reachable(cfg, s')
  {
    var acts: seq<Action> :| Steps(StepOf(cfg), s, acts) == Some(s');
    RunsOn(cfg, s, acts, s');
  }

  /** A continuation within one mode: nothing happens to the requests. */
  ghost predicate Within(cfg: Config, s: State, s': State) {
    && Good(cfg, s') && Leads(cfg, s, s')
    && s'.curr == s.curr && s'.queue == s.queue && s'.tail == s.tail && s'.handled == s.handled
    && s'.mgrSem == s.mgrSem && s'.pending == s.pending && s'.lost == s.lost
  }

  lemma WithinSelf(cfg: Config, s: State)
    requires Good(cfg, s)
    ensures Within(cfg, s, s)
  {
    LeadsSelf(cfg, s);
  }

  lemma WithinOn(cfg: Config, s: State, t: State, u: State)
    requires Within(cfg, s, t) && Within(cfg, t, u)
    ensures Within(cfg, s, u)
  {
    LeadsOn(cfg, s, t, u);
  }

  lemma WithinStep(cfg: Config, s: State, a: Action, s': State)
    requires Good(cfg, s) && Step(cfg, s, a) == Some(s')
    requires !a.Request? && !a.ActivateManager? && !a.Wake? && !a.Dequeue? && !a.SetMode?
    ensures Within(cfg, s, s')
  {
    StepKeeps(cfg, s, a, s');
    LeadsStep(cfg, s, a, s');
  }

  // ----- a task that leaves gets to its post -----

  /** Steps of a task outside the current mode before its post, at most. */
  function ToPost(cfg: Config, s: State, t: int): nat {
    var len := |cfg.Tasks(s.curr)|;
    match s.PhaseOf(t)
    case Waiting => 2 * len + 3
    case Running => 2 * len + 2
    case Scanning(i) => if i < len then 2 * (len - i) + 1 else 1
    case Comparing(i) => if i < len then 2 * (len - i) else 2
    case Leaving => 0
    case Sleeping => 2 * len + 3
  }

  lemma OneTowardsPost(cfg: Config, s: State, t: int, s': State)
    requires Good(cfg, s) && s.mgr.Blocked? && s.Released(t) && t !in cfg.Tasks(s.curr) && s.PhaseOf(t) != Leaving
    requires Step(cfg, s, NextOf(s, t)) == Some(s')
    ensures s'.mgr == s.mgr && s'.narrived == s.narrived && s'.curr == s.curr && s'.Released(t)
    ensures ToPost(cfg, s', t) < ToPost(cfg, s, t)
  {
    assert TaskOk(cfg, s, t);
  }

  lemma {:induction false} AboutToPost(cfg: Config, s: State, t: int) returns (s': State)
    requires Good(cfg, s) && s.mgr.Blocked? && s.Released(t) && t !in cfg.Tasks(s.curr)
    ensures Within(cfg, s, s') && s'.mgr == s.mgr && s'.narrived == s.narrived && s'.PhaseOf(t) == Leaving
    decreases ToPost(cfg, s, t)
  {
    if s.PhaseOf(t) == Leaving {
      s' := s;
      WithinSelf(cfg, s);
    } else {
      ReleasedMoves(cfg, s, t);
      var next := Step(cfg, s, NextOf(s, t)).value;
      OneTowardsPost(cfg, s, t, next);
      WithinStep(cfg, s, NextOf(s, t), next);
      s' := AboutToPost(cfg, next, t);
      WithinOn(cfg, s, next, s');
    }
  }

  // ----- the manager gets through -----

  /** All tasks that leave post, and the last one wakes the manager. */
  lemma {:induction false} AllPost(cfg: Config, s: State) returns (s': State)
    requires Good(cfg, s) && s.mgr.Blocked?
    ensures Within(cfg, s, s') && s'.mgr == Signalled(s.mgr.block, s.mgr.wake)
    decreases |s.mgr.block| - s.narrived
  {
    var t := Awaited(cfg, s);
    var u := AboutToPost(cfg, s, t);
    var v := Step(cfg, u, TaskPost(t)).value;
    WithinStep(cfg, u, TaskPost(t), v);
    WithinOn(cfg, s, u, v);
    if v.mgr.Signalled? {
      s' := v;
    } else {
      s' := AllPost(cfg, v);
      WithinOn(cfg, s, v, s');
    }
  }

  lemma {:induction false} AllActivated(cfg: Config, s: State) returns (s': State)
    requires Good(cfg, s) && s.mgr.Activating?
    ensures Within(cfg, s, s') && s'.mgr == Idle
    decreases |s.mgr.wake| - s.mgr.i
  {
    var next := Step(cfg, s, Activate).value;
    WithinStep(cfg, s, Activate, next);
    if next.mgr == Idle {
      s' := next;
    } else {
      s' := AllActivated(cfg, next);
      WithinOn(cfg, s, next, s');
    }
  }

  /** From the change of the mode on: the manager waits for those that leave, wakes up, activates
      those that enter, and waits for the next request. */
  lemma Settles(cfg: Config, s: State) returns (s': State)
    requires Good(cfg, s) && (s.mgr.Entering? || s.mgr.Blocked? || s.mgr.Signalled? || s.mgr.Activating?)
    ensures Within(cfg, s, s') && s'.mgr == Idle
  {
    var t := s;
    WithinSelf(cfg, s);
    if t.mgr.Entering? {
      t := AfterStep(cfg, s, t, EnterWait);
    }
    if t.mgr.Blocked? {
      var u := AllPost(cfg, t);
      WithinOn(cfg, s, t, u);
      t := u;
    }
    if t.mgr.Signalled? {
      t := AfterStep(cfg, s, t, Resume);
    }
    s' := AllActivated(cfg, t);
    WithinOn(cfg, s, t, s');
  }

  lemma AfterStep(cfg: Config, s: State, t: State, a: Action) returns (u: State)
    requires Within(cfg, s, t) && Step(cfg, t, a).Some? && (a == EnterWait || a == Resume)
    ensures Within(cfg, s, u) && Step(cfg, t, a) == Some(u)
  {
    u := Step(cfg, t, a).value;
    WithinStep(cfg, t, a, u);
    WithinOn(cfg, s, t, u);
  }

  // ----- from the request to the new mode -----

  ghost predicate ExactlyReleased(cfg: Config, s: State, m: int) {
    forall t :: s.Released(t) <==> t in cfg.Tasks(m)
  }

  /** A woken manager takes up the next request and brings its mode into force. */
  lemma TakesUp(cfg: Config, s: State) returns (s': State)
    requires Good(cfg, s) && s.mgr == Awake
    ensures Leads(cfg, s, s') && Good(cfg, s') && s'.mgr == Idle && s.tail < |s.queue| && s'.queue == s.queue
    ensures s'.curr == s.queue[s.tail] && s'.handled == s.handled + [s.queue[s.tail]] && s'.tail == s.tail + 1
    ensures s'.mgrSem == s.mgrSem && s'.pending == s.pending && s'.lost == s.lost
  {
    var t := Step(cfg, s, Dequeue).value;
    StepKeeps(cfg, s, Dequeue, t);
    LeadsStep(cfg, s, Dequeue, t);
    s' := Enters(cfg, t);
    LeadsOn(cfg, s, t, s');
  }

  lemma Enters(cfg: Config, s: State) returns (s': State)
    requires Good(cfg, s) && s.mgr.Decided?
    ensures Leads(cfg, s, s') && Good(cfg, s') && s'.mgr == Idle && s'.curr == s.mgr.next
    ensures s'.handled == s.handled + [s.mgr.next] && s'.queue == s.queue && s'.tail == s.tail
    ensures s'.mgrSem == s.mgrSem && s'.pending == s.pending && s'.lost == s.lost
  {
    var t := Step(cfg, s, SetMode).value;
    StepKeeps(cfg, s, SetMode, t);
    LeadsStep(cfg, s, SetMode, t);
    s' := Settles(cfg, t);
    LeadsOn(cfg, s, t, s');
  }

  /** Main result: whatever has happened, the manager can come back to its waiting, with exactly the
      tasks of its mode released. */
  lemma AlwaysSettles(cfg: Config, s: State) returns (s': State)
    requires cfg.Valid() && Sound(cfg) && Reachable(cfg, s)
    ensures Leads(cfg, s, s') && s'.mgr == Idle && ExactlyReleased(cfg, s', s'.curr)
    ensures s.mgr.Decided? ==> s'.curr == s.mgr.next
    ensures s.mgr == Awake ==> s.tail < |s.queue| && s'.curr == s.queue[s.tail]
    ensures !s.mgr.Decided? && s.mgr != Awake ==> s'.curr == s.curr
  {
    SoundIsSafe(cfg, s);
    match s.mgr {
      case Starting =>
        s' := Step(cfg, s, Park).value;
        WithinStep(cfg, s, Park, s');
      case Idle =>
        s' := s;
        LeadsSelf(cfg, s);
      case Awake => s' := TakesUp(cfg, s);
      case Decided(_, _, _) => s' := Enters(cfg, s);
      case _ => s' := Settles(cfg, s);
    }
  }

  /** Main result: a request made at rest can be carried through.  The oldest request comes into
      force (the new one, if none was left over), it is the only one handled, exactly the tasks of
      its mode are released, and the manager is at rest again. */
  lemma RequestCompletes(cfg: Config, s: State, m: int) returns (s': State)
    requires cfg.Valid() && Sound(cfg) && Reachable(cfg, s)
    requires AtRest(s) && |s.queue| < cfg.cap && cfg.IsMode(m)
    ensures Leads(cfg, s, s') && Reachable(cfg, s') && AtRest(s') && s.tail <= |s.queue| && s'.queue == s.queue + [m]
    ensures s'.curr == s'.queue[s.tail] && s'.handled == s.handled + [s'.curr]
    ensures s.lost == 0 ==> s'.curr == m
    ensures ExactlyReleased(cfg, s', s'.curr)
  {
    SoundIsSafe(cfg, s);
    var t := Woken(cfg, s, m);
    s' := TakesUp(cfg, t);
    LeadsOn(cfg, s, t, s');
    LeadsReachable(cfg, s, s');
  }

  /** The request is queued and the manager activated. */
  lemma Woken(cfg: Config, s: State, m: int) returns (s': State)
    requires Good(cfg, s) && AtRest(s) && |s.queue| < cfg.cap && cfg.IsMode(m)
    ensures Leads(cfg, s, s') && Good(cfg, s')
    ensures s' == s.(mgr := Awake, queue := s.queue + [m])
  {
    var a := s.(queue := s.queue + [m], pending := 1);
    var b := a.(pending := 0, mgrSem := 1);
    s' := b.(mgr := Awake, mgrSem := 0);
    StepKeeps(cfg, s, Request(m), a);
    LeadsStep(cfg, s, Request(m), a);
    StepKeeps(cfg, a, ActivateManager, b);
    LeadsStep(cfg, a, ActivateManager, b);
    LeadsOn(cfg, s, a, b);
    StepKeeps(cfg, b, Wake, s');
    LeadsStep(cfg, b, Wake, s');
    LeadsOn(cfg, s, b, s');
  }
}
