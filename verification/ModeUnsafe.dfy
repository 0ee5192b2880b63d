/** The other direction: with any other tables a run exists in which a task of the current
    mode leaves it, or the tables are read outside their bounds. */
module ModeUnsafe {
  import opened Collections
  import opened ModeChange
  import opened ModeSafety
  import opened RtMode

  /** The manager, waiting with nothing on its way, takes up a request and changes the mode. */
  lemma Switch(cfg: Config, s: State, m: int) returns (s': State)
    requires Reachable(cfg, s) && s.mgr == Idle && s.mgrSem == 0 && s.pending == 0 && s.tail == |s.queue| < cfg.cap
    requires cfg.IsMode(m)
    ensures Reachable(cfg, s') && s'.curr == m && s'.phase == s.phase && s'.sem == s.sem && s'.narrived == s.narrived
    ensures s'.tail == |s'.queue| == |s.queue| + 1 && s'.mgrSem == 0 && s'.pending == 0
    ensures var block, wake := Block(cfg, s.curr, m), Unblock(cfg, s.curr, m);
            s'.mgr == if block != [] then Entering(block, wake) else Activating(block, wake, 0)
    ensures s'.fault == s.fault
  {
    var s1 := Step(cfg, s, Request(m)).value;
    Extend(cfg, s, Request(m), s1);
    var s2 := Step(cfg, s1, ActivateManager).value;
    Extend(cfg, s1, ActivateManager, s2);
    var s3 := Step(cfg, s2, Wake).value;
    Extend(cfg, s2, Wake, s3);
    var s4 := Step(cfg, s3, Dequeue).value;
    Extend(cfg, s3, Dequeue, s4);
    s' := Step(cfg, s4, SetMode).value;
    Extend(cfg, s4, SetMode, s');
  }

  /** The manager activates what is left of its list, task t among it, and waits again. */
  lemma {:induction false} ActivateAll(cfg: Config, s: State, block: seq<int>, wake: seq<int>, i: nat, t: int)
    returns (s': State)
    requires Reachable(cfg, s) && s.mgr == Activating(block, wake, i) && i <= |wake| && s.phase == map[]
    requires t in wake[i..] || s.SemOf(t) > 0
    ensures Reachable(cfg, s') && s' == s.(mgr := Idle, sem := s'.sem) && s'.SemOf(t) > 0
    decreases |wake| - i
  {
    var next := Step(cfg, s, Activate).value;
    Extend(cfg, s, Activate, next);
    if i == |wake| {
      s' := next;
    } else {
      assert wake[i..] == [wake[i]] + wake[i + 1..];
      s' := ActivateAll(cfg, next, block, wake, i + 1, t);
    }
  }

  /** Mode m is entered from the start, its task t activated and the manager waiting. */
  lemma EnterFirst(cfg: Config, m: nat, t: int) returns (s: State)
    requires cfg.Valid() && m < |cfg.modes| && cfg.cap >= 2 && t in cfg.modes[m]
    ensures Reachable(cfg, s) && s.mgr == Idle && s.mgrSem == 0 && s.pending == 0 && s.tail == |s.queue| == 1
    ensures s.curr == m && !s.fault && s.phase == map[] && s.SemOf(t) > 0
  {
    assert Run(cfg, []) == Some(INITIAL);
    var s0 := Step(cfg, INITIAL, Park).value;
    Extend(cfg, INITIAL, Park, s0);
    var s1 := Switch(cfg, s0, m);
    var wake := cfg.modes[m];
    MinusEmpty(wake);
    assert Minus([], wake) == [];
    assert wake[0..] == wake;
    s := ActivateAll(cfg, s1, [], wake, 0, t);
  }

  /** A task of the mode wakes up and begins to look itself up. */
  lemma BeginLookup(cfg: Config, s: State, t: int) returns (s': State)
    requires Reachable(cfg, s) && !cfg.atomic && 0 <= s.curr < MAX_MODES && s.PhaseOf(t) == Waiting && s.SemOf(t) > 0
    ensures Reachable(cfg, s') && s' == s.(phase := s.phase[t := Scanning(0)], sem := s'.sem)
  {
    var s1 := Step(cfg, s, TaskWake(t)).value;
    Extend(cfg, s, TaskWake(t), s1);
    s' := Step(cfg, s1, TaskCheck(t)).value;
    Extend(cfg, s1, TaskCheck(t), s');
    assert s.phase[t := Running][t := Scanning(0)] == s.phase[t := Scanning(0)];
  }

  /** It passes entries that are not its own. */
  lemma {:induction false} PassEntries(cfg: Config, s: State, t: int, i: nat, k: nat) returns (s': State)
    requires Reachable(cfg, s) && 0 <= s.curr < |cfg.modes| && s.PhaseOf(t) == Scanning(i) && t in s.phase
    requires i <= k <= |cfg.modes[s.curr]| && forall j :: i <= j < k ==> cfg.modes[s.curr][j] != t
    ensures Reachable(cfg, s') && s' == s.(phase := s.phase[t := Scanning(k)])
    decreases k - i
  {
    if i == k {
      s' := s;
      assert s.phase == s.phase[t := Scanning(k)];
    } else {
      var s1 := Step(cfg, s, TaskTest(t)).value;
      Extend(cfg, s, TaskTest(t), s1);
      var s2 := Step(cfg, s1, TaskCompare(t, false)).value;
      Extend(cfg, s1, TaskCompare(t, false), s2);
      s' := PassEntries(cfg, s2, t, i + 1, k);
      assert s.phase[t := Comparing(i)][t := Scanning(i + 1)][t := Scanning(k)] == s.phase[t := Scanning(k)];
    }
  }

  /** Two modes that list a task at different places: caught between them the task misses its
      entry and leaves although it belongs to the current mode. */
  lemma MissedEntry(cfg: Config, a: nat, b: nat, i: nat, j: nat) returns (s: State)
    requires cfg.Valid() && cfg.cap >= 2 && !cfg.atomic && a < |cfg.modes| && b < |cfg.modes|
    requires j < i < |cfg.modes[a]| && j < |cfg.modes[b]| && cfg.modes[a][i] == cfg.modes[b][j]
    ensures Reachable(cfg, s) && s.PhaseOf(cfg.modes[b][j]) == Leaving && cfg.modes[b][j] in cfg.Tasks(s.curr)
  {
    var t := cfg.modes[a][i];
    var s0 := EnterFirst(cfg, a, t);
    var s1 := BeginLookup(cfg, s0, t);
    var s2 := PassEntries(cfg, s1, t, 0, j + 1);
    var s3 := Switch(cfg, s2, b);
    var n := |cfg.modes[b]|;
    var s4 := PassEntries(cfg, s3, t, j + 1, n);
    s := Step(cfg, s4, TaskTest(t)).value;
    Extend(cfg, s4, TaskTest(t), s);
  }

  /** A mode with a task, and mode -1: caught between them the task reads outside the table. */
  lemma ReadOutside(cfg: Config, m: nat) returns (s: State)
    requires cfg.Valid() && cfg.cap >= 2 && !cfg.atomic && cfg.off && m < |cfg.modes| && cfg.modes[m] != []
    ensures Reachable(cfg, s) && s.fault
  {
    var t := cfg.modes[m][0];
    var s0 := EnterFirst(cfg, m, t);
    var s1 := BeginLookup(cfg, s0, t);
    var s2 := Switch(cfg, s1, -1);
    s := Step(cfg, s2, TaskTest(t)).value;
    Extend(cfg, s2, TaskTest(t), s);
  }

  lemma UnsoundIsUnsafe(cfg: Config) returns (s: State)
    requires cfg.Valid() && cfg.cap >= 2 && !Sound(cfg)
    ensures Reachable(cfg, s) && !Safe(cfg, s)
  {
    if !Aligned(cfg.modes) {
      var a, b, i, j :|
        0 <= a < |cfg.modes| && 0 <= b < |cfg.modes| && 0 <= i < |cfg.modes[a]| && 0 <= j < |cfg.modes[b]|
        && cfg.modes[a][i] == cfg.modes[b][j] && i != j;
      if j < i {
        s := MissedEntry(cfg, a, b, i, j);
      } else {
        s := MissedEntry(cfg, b, a, j, i);
      }
    } else {
      var m :| 0 <= m < |cfg.modes| && cfg.modes[m] != [];
      s := ReadOutside(cfg, m);
    }
  }

  /** Main result: the protocol is safe in every interleaving exactly for tables in which a
      task has one place, and without mode -1 unless no mode has a task; or if the look-up is
      one step. */
  lemma SafeExactlyIfSound(cfg: Config)
    requires cfg.Valid() && cfg.cap >= 2
    ensures (forall s :: Reachable(cfg, s) ==> Safe(cfg, s)) <==> Sound(cfg)
  {
    if Sound(cfg) {
      forall s | Reachable(cfg, s) ensures Safe(cfg, s) {
        SoundIsSafe(cfg, s);
      }
    } else {
      var s := UnsoundIsUnsafe(cfg);
    }
  }
}
