/** The list of free task descriptors of ptask.c: allocate_tp and release_tp, each as one step
    and with the read of the list head outside the lock. */
module FreeList {
  import opened Collections

  const BUSY := -2
  const NOMORE := -1

  /** The `free` fields of the descriptors and `first_free`. */
  datatype Pool = Pool(free: seq<int>, head: int) {
    predicate Busy(i: int) { 0 <= i < |free| && free[i] == BUSY }

    /** All links lead to descriptors. */
    ghost predicate Valid() {
      NOMORE <= head < |free| && forall i :: 0 <= i < |free| ==> BUSY <= free[i] < |free|
    }
  }

  /** The critical section of allocate_tp for descriptor x, and that of release_tp. */
  function Take(p: Pool, x: nat): Pool
    requires x < |p.free|
  {
    if p.Busy(x) then p else Pool(p.free[x := BUSY], p.free[x])
  }

  function Put(p: Pool, i: nat): Pool
    requires i < |p.free|
  {
    Pool(p.free[i := p.head], i)
  }

  // ----- the list -----

  ghost predicate IsChain(free: seq<int>, head: int, c: seq<int>)
    decreases |c|
  {
    if c == [] then head == NOMORE
    else head == c[0] && 0 <= head < |free| && IsChain(free, free[head], c[1..])
  }

  /** The list from the head on is c, without repetition, and holds exactly what is not busy. */
  ghost predicate Lists(p: Pool, c: seq<int>) {
    && IsChain(p.free, p.head, c) && Distinct(c)
    && forall i :: 0 <= i < |p.free| ==> (p.Busy(i) <==> i !in c)
  }

  ghost predicate Listed(p: Pool) { exists c: seq<int> :: Lists(p, c) }

  /** Fields outside the list do not matter to it. */
  lemma {:induction false} ChainFrame(free: seq<int>, free': seq<int>, head: int, c: seq<int>)
    requires IsChain(free, head, c) && |free'| == |free|
    requires forall i :: i in c && 0 <= i < |free| ==> free'[i] == free[i]
    ensures IsChain(free', head, c)
    decreases |c|
  {
    if c != [] {
      assert forall i :: i in c[1..] ==> i in c;
      assert c[0] in c;
      ChainFrame(free, free', free[head], c[1..]);
    }
  }

  /** There is only one list from a head. */
  lemma {:induction false} OneChain(free: seq<int>, head: int, c: seq<int>, d: seq<int>)
    requires IsChain(free, head, c) && IsChain(free, head, d)
    ensures c == d
    decreases |c|
  {
    if c != [] && d != [] {
      OneChain(free, free[head], c[1..], d[1..]);
      assert c == [c[0]] + c[1..] && d == [d[0]] + d[1..];
    }
  }

  /** The rest of the list from place k on is the list from there. */
  lemma {:induction false} ChainFrom(free: seq<int>, head: int, c: seq<int>, k: nat)
    requires IsChain(free, head, c) && k < |c|
    ensures 0 <= c[k] < |free| && IsChain(free, free[c[k]], c[k + 1..])
    decreases k
  {
    if k > 0 {
      ChainFrom(free, free[head], c[1..], k - 1);
      assert c[1..][k - 1] == c[k] && c[1..][k..] == c[k + 1..];
    }
  }

  /** Allocation takes the first descriptor of the list, if there is one. */
  lemma AllocateTakesFirst(p: Pool, c: seq<int>)
    requires Lists(p, c)
    ensures if c == [] then p.head == NOMORE && forall i :: 0 <= i < |p.free| ==> p.Busy(i)
            else 0 <= p.head < |p.free| && p.head == c[0] && !p.Busy(c[0]) && Lists(Take(p, c[0]), c[1..])
  {
    if c != [] {
      var p' := Take(p, c[0]);
      assert c == [c[0]] + c[1..];
      assert c[0] !in c[1..];
      assert forall i :: i in c <==> i == c[0] || i in c[1..];
      ChainFrame(p.free, p'.free, p'.head, c[1..]);
    }
  }

  /** Release puts a busy descriptor in front. */
  lemma ReleasePutsFirst(p: Pool, c: seq<int>, i: nat)
    requires Lists(p, c) && p.Busy(i)
    ensures Lists(Put(p, i), [i] + c)
  {
    var p' := Put(p, i);
    ChainFrame(p.free, p'.free, p.head, c);
    assert ([i] + c)[1..] == c;
  }

  function Upward(i: nat, n: nat): seq<int>
    requires i <= n
    decreases n - i
  {
    if i == n then [] else [i] + Upward(i + 1, n)
  }

  lemma {:induction false} UpwardMembers(i: nat, n: nat)
    requires i <= n
    ensures Distinct(Upward(i, n)) && forall x :: x in Upward(i, n) <==> i <= x < n
    decreases n - i
  {
    if i < n {
      UpwardMembers(i + 1, n);
      assert Upward(i, n)[0] == i && Upward(i, n)[1..] == Upward(i + 1, n);
      assert i !in Upward(i + 1, n);
    }
  }

  lemma {:induction false} UpwardChain(free: seq<int>, i: nat)
    requires i < |free| && forall j :: 0 <= j < |free| ==> free[j] == if j == |free| - 1 then NOMORE else j + 1
    ensures IsChain(free, i, Upward(i, |free|))
    decreases |free| - i
  {
    assert Upward(i, |free|)[1..] == Upward(i + 1, |free|);
    if i + 1 < |free| {
      UpwardChain(free, i + 1);
    }
  }

  // ----- each operation as one step -----

  class TaskTable {
    const free: array<int>
    var firstFree: int

    ghost function Value(): Pool
      reads this, free
    {
      Pool(free[..], firstFree)
    }

    /** The list set-up of ptask_init; n is MAX_TASKS. */
    constructor (n: nat)
      requires n > 0
      ensures fresh(free) && free.Length == n && Value().Valid() && Lists(Value(), Upward(0, n))
    {
      free := new int[n];
      new;
      for i := 0 to n
        invariant forall j :: 0 <= j < i ==> free[j] == if j == n - 1 then NOMORE else j + 1
      {
        if i == n - 1 {
          free[i] := NOMORE;
        } else {
          free[i] := i + 1;
        }
      }
      firstFree := 0;
      UpwardChain(free[..], 0);
      UpwardMembers(0, n);
    }

    method AllocateTp() returns (r: int)
      requires Value().Valid()
      modifies this`firstFree, free
      ensures Value().Valid()
      ensures forall c: seq<int> :: Lists(old(Value()), c) ==>
        if c == [] then r == NOMORE && Value() == old(Value()) else r == c[0] && Lists(Value(), c[1..])
    {
      forall c: seq<int> | Lists(Value(), c)
        ensures if c == [] then firstFree == NOMORE
                else firstFree == c[0] && Lists(Take(Value(), c[0]), c[1..]) && !Value().Busy(c[0])
      {
        AllocateTakesFirst(Value(), c);
      }
      var x := firstFree;
      if x == NOMORE {
        return NOMORE;
      }
      if free[x] == BUSY {
        return NOMORE;
      }
      ghost var before := Value();
      firstFree := free[x];
      free[x] := BUSY;
      assert Value() == Take(before, x);
      return x;
    }

    method ReleaseTp(i: nat)
      requires Value().Valid() && i < free.Length && free[i] == BUSY
      modifies this`firstFree, free
      ensures Value().Valid()
      ensures forall c: seq<int> :: Lists(old(Value()), c) ==> Lists(Value(), [i] + c)
    {
      forall c: seq<int> | Lists(Value(), c) ensures Lists(Put(Value(), i), [i] + c) {
        ReleasePutsFirst(Value(), c, i);
      }
      ghost var before := Value();
      free[i] := firstFree;
      firstFree := i;
      assert Value() == Put(before, i);
    }
  }

  // ----- the read of the head as a step of its own -----

  /** `reading` holds the local x of threads inside allocate_tp, `holds` the descriptor of every
      task. */
  datatype State = State(pool: Pool, reading: map<int, nat>, holds: map<int, nat>)

  datatype Action = Read(thread: int) | Lock(thread: int, task: int) | Exit(task: int)

  function Step(s: State, a: Action): Option<State> {
    match a
    case Read(q) =>
      if q in s.reading || s.pool.head >= |s.pool.free| then None
      else if s.pool.head < 0 then Some(s)
      else Some(s.(reading := s.reading[q := s.pool.head]))
    case Lock(q, t) =>
      if q !in s.reading || t in s.holds || s.reading[q] >= |s.pool.free| then None
      else
        var x, others := s.reading[q], s.reading - {q};
        if s.pool.Busy(x) then Some(s.(reading := others))
        else Some(State(Take(s.pool, x), others, s.holds[t := x]))
    case Exit(t) =>
      if t !in s.holds || s.holds[t] >= |s.pool.free| then None
      else Some(s.(pool := Put(s.pool, s.holds[t]), holds := s.holds - {t}))
  }

  /** Task t holds descriptor i, and no other task does. */
  ghost predicate OnlyHolder(s: State, t: int, i: nat) {
    t in s.holds && s.holds[t] == i && forall u :: u in s.holds && s.holds[u] == i ==> u == t
  }

  ghost predicate Inv(s: State) {
    && s.pool.Valid()
    && (forall q :: q in s.reading ==> s.reading[q] < |s.pool.free|)
    && (forall t :: t in s.holds ==> s.pool.Busy(s.holds[t]) && OnlyHolder(s, t, s.holds[t]))
    && forall i :: s.pool.Busy(i) ==> exists t :: t in s.holds && s.holds[t] == i
  }

  function Initial(n: nat): State
    requires n > 0
  {
    State(Pool(seq(n, j => if j == n - 1 then NOMORE else j + 1), 0), map[], map[])
  }

  function Run(n: nat, acts: seq<Action>): Option<State>
    requires n > 0
  {
    if acts == [] then Some(Initial(n))
    else
      var before := Run(n, acts[..|acts| - 1]);
      if before.None? then None else Step(before.value, acts[|acts| - 1])
  }

  lemma StepKeeps(s: State, a: Action, s': State)
    requires Inv(s) && Step(s, a) == Some(s')
    ensures Inv(s') && |s'.pool.free| == |s.pool.free|
  {
    match a {
      case Read(q) =>
      case Lock(q, t) =>
        if !s.pool.Busy(s.reading[q]) {
          LockKeeps(s, q, t, s');
        }
      case Exit(t) => ExitKeeps(s, t, s');
    }
  }

  lemma LockKeeps(s: State, q: int, t: int, s': State)
    requires Inv(s) && Step(s, Lock(q, t)) == Some(s') && !s.pool.Busy(s.reading[q])
    ensures Inv(s')
  {
    var x := s.reading[q];
    forall u | u in s'.holds ensures s'.pool.Busy(s'.holds[u]) && OnlyHolder(s', u, s'.holds[u]) {
      if u != t {
        assert s.pool.Busy(s.holds[u]) && OnlyHolder(s, u, s.holds[u]);
      }
    }
    forall i | s'.pool.Busy(i) ensures exists u :: u in s'.holds && s'.holds[u] == i {
      if i == x {
        assert s'.holds[t] == i;
      } else {
        assert s.pool.Busy(i);
        var u :| u in s.holds && s.holds[u] == i;
        assert s'.holds[u] == i;
      }
    }
  }

  lemma ExitKeeps(s: State, t: int, s': State)
    requires Inv(s) && Step(s, Exit(t)) == Some(s')
    ensures Inv(s')
  {
    assert OnlyHolder(s, t, s.holds[t]);
    forall u | u in s'.holds ensures s'.pool.Busy(s'.holds[u]) && OnlyHolder(s', u, s'.holds[u]) {
      assert s.pool.Busy(s.holds[u]) && OnlyHolder(s, u, s.holds[u]);
    }
    forall i | s'.pool.Busy(i) ensures exists u :: u in s'.holds && s'.holds[u] == i {
      assert s.pool.Busy(i);
      var u :| u in s.holds && s.holds[u] == i;
      assert s'.holds[u] == i;
    }
  }

  lemma {:induction false} RunKeeps(n: nat, acts: seq<Action>)
    requires n > 0 && Run(n, acts).Some?
    ensures Inv(Run(n, acts).value) && |Run(n, acts).value.pool.free| == n
  {
    if acts != [] {
      RunKeeps(n, acts[..|acts| - 1]);
      StepKeeps(Run(n, acts[..|acts| - 1]).value, acts[|acts| - 1], Run(n, acts).value);
    }
  }

  /** Whatever the interleaving, two tasks never hold the same descriptor. */
  lemma NeverHeldTwice(n: nat, acts: seq<Action>, t: int, u: int)
    requires n > 0 && Run(n, acts).Some?
    requires t in Run(n, acts).value.holds && u in Run(n, acts).value.holds && t != u
    ensures var s := Run(n, acts).value; s.holds[t] != s.holds[u] && s.pool.Busy(s.holds[t])
  {
    RunKeeps(n, acts);
    assert OnlyHolder(Run(n, acts).value, t, Run(n, acts).value.holds[t]);
  }

  // ----- when the list stays exact -----

  /** The descriptor that a thread read is still the head when it has the lock, or is busy. */
  predicate Prompt(s: State, a: Action) {
    a.Lock? && a.thread in s.reading ==> s.reading[a.thread] == s.pool.head || s.pool.Busy(s.reading[a.thread])
  }

  /** A step keeps the list exact if and only if it is prompt. */
  lemma ExactIffPrompt(s: State, a: Action, s': State)
    requires Inv(s) && Step(s, a) == Some(s') && Listed(s.pool)
    ensures Listed(s'.pool) <==> Prompt(s, a)
  {
    var c: seq<int> :| Lists(s.pool, c);
    match a {
      case Read(q) => assert Lists(s'.pool, c);
      case Exit(t) =>
        ReleasePutsFirst(s.pool, c, s.holds[t]);
      case Lock(q, t) =>
        if s.pool.Busy(s.reading[q]) {
          assert Lists(s'.pool, c);
        } else if s.reading[q] == s.pool.head {
          AllocateTakesFirst(s.pool, c);
        } else {
          LateLock(s.pool, c, s.reading[q]);
        }
    }
  }

  /** Taking another descriptor than the first drops those before it from the list. */
  lemma LateLock(p: Pool, c: seq<int>, x: nat)
    requires Lists(p, c) && x < |p.free| && !p.Busy(x) && x != p.head
    ensures !Listed(Take(p, x))
  {
    var p' := Take(p, x);
    if Listed(p') {
      var d: seq<int> :| Lists(p', d);
      var k :| 0 <= k < |c| && c[k] == x;
      ChainFrom(p.free, p.head, c, k);
      ChainFrame(p.free, p'.free, p'.head, c[k + 1..]);
      OneChain(p'.free, p'.head, c[k + 1..], d);
      FirstDropped(p, p', c, k);
    }
  }

  lemma FirstDropped(p: Pool, p': Pool, c: seq<int>, k: nat)
    requires Lists(p, c) && 0 < k < |c| && 0 <= c[k] < |p.free| && p' == Take(p, c[k])
    ensures exists i :: 0 <= i < |p'.free| && !p'.Busy(i) && i !in c[k + 1..]
  {
    var i := c[0];
    assert i in c && 0 <= i < |p.free|;
    assert !p'.Busy(i) && i !in c[k + 1..];
  }

  /** As long as every step is prompt the list is exact at all times. */
  lemma {:induction false} PromptRunsExact(n: nat, acts: seq<Action>)
    requires n > 0 && Run(n, acts).Some?
    requires forall k :: 0 <= k < |acts| && Run(n, acts[..k]).Some? ==> Prompt(Run(n, acts[..k]).value, acts[k])
    ensures Listed(Run(n, acts).value.pool)
  {
    if acts == [] {
      var free := Initial(n).pool.free;
      UpwardChain(free, 0);
      UpwardMembers(0, n);
      assert Lists(Initial(n).pool, Upward(0, n));
    } else {
      var front := acts[..|acts| - 1];
      forall k | 0 <= k < |front| ensures front[..k] == acts[..k] && front[k] == acts[k] {
      }
      PromptRunsExact(n, front);
      RunKeeps(n, front);
      assert Prompt(Run(n, acts[..|acts| - 1]).value, acts[|acts| - 1]);
      ExactIffPrompt(Run(n, front).value, acts[|acts| - 1], Run(n, acts).value);
    }
  }

  /** A thread that takes the lock right after its read is prompt. */
  lemma ReadThenLock(s: State, q: int, t: int, s': State)
    requires Step(s, Read(q)) == Some(s')
    ensures Prompt(s', Lock(q, t))
  {
  }

  /** Every lock directly follows the read that belongs to it: allocation is one operation. */
  ghost predicate Undivided(acts: seq<Action>) {
    forall k :: 0 <= k < |acts| && acts[k].Lock? ==> k > 0 && acts[k - 1] == Read(acts[k].thread)
  }

  lemma LockIsPrompt(n: nat, acts: seq<Action>, k: nat)
    requires n > 0 && Undivided(acts) && k < |acts| && Run(n, acts[..k]).Some?
    ensures Prompt(Run(n, acts[..k]).value, acts[k])
  {
    if acts[k].Lock? {
      assert acts[..k][..k - 1] == acts[..k - 1];
      ReadThenLock(Run(n, acts[..k - 1]).value, acts[k].thread, acts[k].task, Run(n, acts[..k]).value);
    }
  }

  /** With each allocation as one operation the list is exact at all times. */
  lemma UndividedRunsExact(n: nat, acts: seq<Action>)
    requires n > 0 && Run(n, acts).Some? && Undivided(acts)
    ensures Listed(Run(n, acts).value.pool)
  {
    forall k | 0 <= k < |acts| && Run(n, acts[..k]).Some? ensures Prompt(Run(n, acts[..k]).value, acts[k]) {
      LockIsPrompt(n, acts, k);
    }
    PromptRunsExact(n, acts);
  }

  // ----- lost descriptors -----

  /** A set of descriptors closed under the links, holding the head and all that was read. */
  ghost predicate Closed(s: State, r: set<int>) {
    && (s.pool.head in r || s.pool.head == NOMORE)
    && (forall q :: q in s.reading ==> s.reading[q] in r)
    && forall i :: i in r && 0 <= i < |s.pool.free| && s.pool.free[i] >= 0 ==> s.pool.free[i] in r
  }

  /** Descriptor i is neither held nor can it be reached any more. */
  ghost predicate Lost(s: State, i: nat) {
    i < |s.pool.free| && !s.pool.Busy(i) && exists r: set<int> :: i !in r && Closed(s, r)
  }

  lemma LostStays(s: State, a: Action, s': State, i: nat)
    requires Inv(s) && Step(s, a) == Some(s') && Lost(s, i)
    ensures Lost(s', i)
  {
    var r: set<int> :| i !in r && Closed(s, r);
    match a {
      case Read(q) => assert Closed(s', r);
      case Lock(q, t) => assert Closed(s', r);
      case Exit(t) =>
        assert s.pool.Busy(s.holds[t]);
        assert Closed(s', r + {s.holds[t]});
    }
  }

  /** Once lost, a descriptor is lost in every continuation of the run. */
  lemma {:induction false} LostForever(n: nat, acts: seq<Action>, k: nat, i: nat)
    requires n > 0 && k <= |acts| && Run(n, acts).Some? && Run(n, acts[..k]).Some? && Lost(Run(n, acts[..k]).value, i)
    ensures Lost(Run(n, acts).value, i)
    ensures forall t :: t in Run(n, acts).value.holds ==> Run(n, acts).value.holds[t] != i
  {
    RunKeeps(n, acts);
    if k == |acts| {
      assert acts[..k] == acts;
    } else {
      var front := acts[..|acts| - 1];
      assert front[..k] == acts[..k];
      LostForever(n, front, k, i);
      RunKeeps(n, front);
      LostStays(Run(n, front).value, acts[|acts| - 1], Run(n, acts).value, i);
    }
  }

  /** Two descriptors: thread 1 reads the head and is overtaken by two tasks that
      come and go.  Afterwards no thread is allocating, no task is left, and descriptor 1 is
      lost (DescriptorLost). */
  const OVERTAKEN := [Read(1), Read(2), Lock(2, 20), Read(2), Lock(2, 21), Exit(20), Exit(21), Lock(1, 10), Exit(10)]

  lemma ExtendRun(n: nat, acts: seq<Action>, k: nat, s: State, s': State)
    requires n > 0 && k < |acts| && Run(n, acts[..k]) == Some(s) && Step(s, acts[k]) == Some(s')
    ensures Run(n, acts[..k + 1]) == Some(s')
  {
    assert acts[..k + 1][..k] == acts[..k];
  }

  const AFTER_3 := State(Pool([-2, -1], 1), map[1 := 0], map[20 := 0])
  const AFTER_5 := State(Pool([-2, -2], -1), map[1 := 0], map[20 := 0, 21 := 1])
  const AFTER_7 := State(Pool([-1, 0], 1), map[1 := 0], map[])
  const AFTER_9 := State(Pool([-1, 0], 0), map[], map[])

  lemma FirstTask()
    ensures Run(2, OVERTAKEN[..3]) == Some(AFTER_3)
  {
    var s0 := Initial(2);
    assert s0.pool.free == [1, -1];
    var s1, s2 := State(s0.pool, map[1 := 0], map[]), State(s0.pool, map[1 := 0, 2 := 0], map[]);
    ExtendRun(2, OVERTAKEN, 0, s0, s1);
    ExtendRun(2, OVERTAKEN, 1, s1, s2);
    assert s2.reading - {2} == AFTER_3.reading && s0.pool.free[0 := -2] == AFTER_3.pool.free;
    assert s2.holds[20 := 0] == AFTER_3.holds;
    ExtendRun(2, OVERTAKEN, 2, s2, AFTER_3);
  }

  lemma SecondTask()
    ensures Run(2, OVERTAKEN[..5]) == Some(AFTER_5)
  {
    FirstTask();
    var s4 := State(Pool([-2, -1], 1), map[1 := 0, 2 := 1], map[20 := 0]);
    ExtendRun(2, OVERTAKEN, 3, AFTER_3, s4);
    assert s4.reading - {2} == AFTER_5.reading && s4.pool.free[1 := -2] == AFTER_5.pool.free;
    assert s4.holds[21 := 1] == AFTER_5.holds;
    ExtendRun(2, OVERTAKEN, 4, s4, AFTER_5);
  }

  lemma BothLeave()
    ensures Run(2, OVERTAKEN[..7]) == Some(AFTER_7)
  {
    SecondTask();
    var s6 := State(Pool([-1, -2], 0), map[1 := 0], map[21 := 1]);
    assert AFTER_5.holds - {20} == s6.holds && AFTER_5.pool.free[0 := -1] == s6.pool.free;
    ExtendRun(2, OVERTAKEN, 5, AFTER_5, s6);
    assert s6.holds - {21} == AFTER_7.holds && s6.pool.free[1 := 0] == AFTER_7.pool.free;
    ExtendRun(2, OVERTAKEN, 6, s6, AFTER_7);
  }

  lemma LateThread()
    ensures Run(2, OVERTAKEN[..9]) == Some(AFTER_9)
  {
    BothLeave();
    var s8 := State(Pool([-2, 0], -1), map[], map[10 := 0]);
    assert AFTER_7.reading - {1} == s8.reading && AFTER_7.pool.free[0 := -2] == s8.pool.free;
    assert AFTER_7.holds[10 := 0] == s8.holds;
    ExtendRun(2, OVERTAKEN, 7, AFTER_7, s8);
    assert s8.holds - {10} == AFTER_9.holds && s8.pool.free[0 := -1] == AFTER_9.pool.free;
    ExtendRun(2, OVERTAKEN, 8, s8, AFTER_9);
  }

  lemma DescriptorLost()
    ensures var r := Run(2, OVERTAKEN);
            r.Some? && r.value.reading == map[] && r.value.holds == map[] && Lost(r.value, 1)
  {
    LateThread();
    assert OVERTAKEN[..9] == OVERTAKEN;
    assert Closed(AFTER_9, {0});
  }
}
