/** The C functions of rtmode.c that change the mode group in place, each proved against what
    the protocol steps use: list difference, look-up, request queue and counting semaphore. */
module RtMode {
  import opened ModeChange

  /** tlist_sub */
  method TlistSub(a: seq<int>, b: seq<int>) returns (result: seq<int>)
    ensures result == Minus(a, b)
  {
    result := [];
    for i := 0 to |a|
      invariant result == Minus(a[..i], b)
    {
      var j := 0;
      while j < |b| && a[i] != b[j]
        invariant 0 <= j <= |b| && a[i] !in b[..j]
      {
        j := j + 1;
      }
      assert j < |b| <==> a[i] in b;
      assert a[..i + 1][..i] == a[..i];
      if j == |b| {
        result := result + [a[i]];
      }
    }
    assert a[..|a|] == a;
  }

  /** semwmax: `max` is the latest time seen. */
  class MaxSem {
    var nsignals: nat
    var narrived: nat
    var max: int

    constructor ()
      ensures nsignals == 0 && narrived == 0
    {
      nsignals, narrived := 0, 0;
    }

    /** maxsem_post; the caller's next activation time is `t`.  Tells whether it signals. */
    method Post(t: int) returns (signal: bool)
      modifies this
      ensures narrived == old(narrived) + 1 && nsignals == old(nsignals)
      ensures max == Later(old(max), t)
      ensures signal <==> nsignals == narrived
    {
      if t > max {
        max := t;
      }
      narrived := narrived + 1;
      signal := nsignals == narrived;
    }

    /** maxsem_wait up to the test: blocks while fewer than n have posted. */
    method Enter(now: int, n: nat) returns (blocks: bool)
      modifies this
      ensures max == now && nsignals == n && narrived == old(narrived)
      ensures blocks <==> narrived < n
    {
      max := now;
      nsignals := n;
      blocks := narrived < nsignals;
    }

    /** maxsem_wait from there on: the wake-up time, and both counters cleared. */
    method Leave() returns (ret: int)
      modifies this
      ensures ret == max == old(max) && nsignals == 0 && narrived == 0
    {
      narrived := 0;
      nsignals := 0;
      ret := max;
    }
  }

  function Later(a: int, b: int): int { if b > a then b else a }

  /** Latest of a time and the times posted after it. */
  function Latest(now: int, posts: seq<int>): int {
    if posts == [] then now else Later(Latest(now, posts[..|posts| - 1]), posts[|posts| - 1])
  }

  /** The wake-up time is one of those times and none of them is later. */
  lemma {:induction false} LatestIsLatest(now: int, posts: seq<int>)
    ensures Latest(now, posts) == now || Latest(now, posts) in posts
    ensures now <= Latest(now, posts) && forall x :: 0 <= x < |posts| ==> posts[x] <= Latest(now, posts)
  {
    if posts != [] {
      LatestIsLatest(now, posts[..|posts| - 1]);
    }
  }

  /** The early posts count for nothing: leaving them out makes no difference exactly when none of
      them is later than the rest. */
  lemma EarlyCovered(now: int, early: seq<int>, late: seq<int>)
    ensures Latest(now, early + late) == Latest(now, late)
            <==> forall x :: 0 <= x < |early| ==> early[x] <= Latest(now, late)
  {
    var all := early + late;
    LatestIsLatest(now, all);
    LatestIsLatest(now, late);
    forall x | 0 <= x < |late| ensures late[x] <= Latest(now, all) {
      assert all[|early| + x] == late[x];
    }
    forall x | 0 <= x < |early| ensures early[x] <= Latest(now, all) {
      assert all[x] == early[x];
    }
  }

  /** One whole wait: `early` tasks post before it, `late` ones while it lasts.  The time it
      returns covers the late posts and the time it began, whatever the early ones said; it
      covers all posts exactly when no early one is later. */
  method WaitForTasks(m: MaxSem, early: seq<int>, now: int, late: seq<int>) returns (ret: int, woken: bool)
    requires m.nsignals == 0 && m.narrived == 0 && |early| + |late| > 0
    modifies m
    ensures ret == Latest(now, late)
    ensures ret == Latest(now, early + late) <==> forall x :: 0 <= x < |early| ==> early[x] <= ret
    ensures woken && m.nsignals == 0 && m.narrived == 0
  {
    woken := false;
    for i := 0 to |early|
      invariant m.nsignals == 0 && m.narrived == i
    {
      var signal := m.Post(early[i]);
    }
    var blocks := m.Enter(now, |early| + |late|);
    woken := !blocks;
    for i := 0 to |late|
      invariant m.narrived == |early| + i && m.nsignals == |early| + |late| && m.max == Latest(now, late[..i])
      invariant woken <==> i == |late|
    {
      assert late[..i + 1][..i] == late[..i];
      woken := m.Post(late[i]);
    }
    assert late[..|late|] == late;
    EarlyCovered(now, early, late);
    ret := m.Leave();
  }

  /** The shared mode group. */
  class ModeGroup {
    const modes: seq<seq<int>>
    const queue: array<int>
    var curr: int
    var head: nat
    var tail: nat

    /** rtmode_init */
    constructor (modes: seq<seq<int>>, cap: nat)
      ensures this.modes == modes && queue.Length == cap && fresh(queue)
      ensures curr == -1 && head == 0 && tail == 0 && Requests() == []
    {
      this.modes := modes;
      queue := new int[cap];
      curr, head, tail := -1, 0, 0;
    }

    /** All requests so far, in order. */
    function Requests(): seq<int>
      requires head <= queue.Length
      reads this, queue
    {
      queue[..head]
    }

    /** The queue part of rtmode_changemode. */
    method Enqueue(m: int)
      requires head < queue.Length
      modifies this`head, queue
      ensures head <= queue.Length && Requests() == old(Requests()) + [m]
    {
      queue[head] := m;
      head := head + 1;
    }

    /** What the manager does with the next request up to the change of `curr_mode`.  The request
        is not checked: for a number outside the tables, `outside`, they are read behind their end
        and what follows is not defined. */
    method TakeRequest() returns (outside: bool, toblock: seq<int>, towake: seq<int>)
      requires tail < head <= queue.Length && |modes| <= MAX_MODES && -1 <= curr < |modes|
      modifies this`tail, this`curr
      ensures tail == old(tail) + 1 && (outside <==> !(-1 <= old(Requests()[tail]) < |modes|))
      ensures !outside ==> curr == old(Requests()[tail])
      ensures !outside ==>
        toblock == Block(Table(), old(curr), curr) && towake == Unblock(Table(), old(curr), curr)
    {
      var newmode := queue[tail];
      tail := tail + 1;
      toblock, towake := [], [];
      outside := newmode < -1 || newmode >= |modes|;
      if outside {
        return;
      }
      if curr != -1 && newmode != -1 {
        toblock := TlistSub(modes[curr], modes[newmode]);
        towake := TlistSub(modes[newmode], modes[curr]);
      } else {
        if curr != -1 {
          MinusEmpty(modes[curr]);
          toblock := modes[curr];
        }
        if newmode != -1 {
          MinusEmpty(modes[newmode]);
          towake := modes[newmode];
        }
      }
      curr := newmode;
    }

    /** The tables as the protocol sees them. */
    function Table(): Config { Config(modes, queue.Length, false, true) }

    /** rtmode_taskfind, undisturbed. */
    method TaskFind(tid: int) returns (found: bool)
      requires -1 <= curr < |modes| <= MAX_MODES
      ensures found <==> tid in Table().Tasks(curr)
    {
      if curr < 0 || curr >= MAX_MODES {
        return false;
      }
      var i := 0;
      while i < |modes[curr]|
        invariant 0 <= i <= |modes[curr]| && tid !in modes[curr][..i]
      {
        if tid == modes[curr][i] {
          return true;
        }
        i := i + 1;
      }
      return false;
    }
  }

  lemma {:induction false} MinusEmpty(a: seq<int>)
    ensures Minus(a, []) == a
  {
    if a != [] {
      MinusEmpty(a[..|a| - 1]);
    }
  }
}
