/** Optional values, and counting the elements of a sequence. */
module Collections {

  datatype Option<T> = None | Some(value: T)

  ghost predicate Distinct(s: seq<int>) {
    forall i, j :: 0 <= i < j < |s| ==> s[i] != s[j]
  }

  function Elements(s: seq<int>): set<int> { set x | x in s }

  lemma {:induction false} ElementCount(s: seq<int>)
    requires Distinct(s)
    ensures |Elements(s)| == |s|
  {
    if s != [] {
      var front, last := s[..|s| - 1], s[|s| - 1];
      ElementCount(front);
      assert Elements(s) == Elements(front) + {last};
      assert last !in front;
    }
  }

  lemma SubsetCount(a: set<int>, b: set<int>)
    requires a <= b
    ensures |a| <= |b|
    ensures |a| == |b| ==> a == b
  {
    assert b == a + (b - a);
  }

  function Below(n: nat): (b: set<nat>)
    ensures |b| == n && forall c: nat :: c in b <==> c < n
  {
    if n == 0 then {} else Below(n - 1) + {n - 1}
  }

  /** n + 1 numbers below n are not all different. */
  lemma Pigeonhole(s: seq<int>, n: nat) returns (a: nat, b: nat)
    requires |s| == n + 1 && forall i :: 0 <= i < |s| ==> 0 <= s[i] < n
    ensures a < b < |s| && s[a] == s[b]
  {
    if Distinct(s) {
      ElementCount(s);
      SubsetCount(Elements(s), Below(n));
      assert false;
    }
    a, b :| 0 <= a < b < |s| && s[a] == s[b];
  }

  /** A sequence of steps from s, if each of them is possible. */
  function Steps<S, A>(step: (S, A) -> Option<S>, s: S, acts: seq<A>): Option<S> {
    if acts == [] then Some(s)
    else
      var before := Steps(step, s, acts[..|acts| - 1]);
      if before.None? then None else step(before.value, acts[|acts| - 1])
  }

  lemma {:induction false} StepsOn<S, A>(step: (S, A) -> Option<S>, s: S, a: seq<A>, t: S, b: seq<A>)
    requires Steps(step, s, a) == Some(t) && Steps(step, t, b).Some?
    ensures Steps(step, s, a + b) == Steps(step, t, b)
    decreases |b|
  {
    if b == [] {
      assert a + b == a;
    } else {
      StepsOn(step, s, a, t, b[..|b| - 1]);
      assert (a + b)[..|a + b| - 1] == a + b[..|b| - 1];
    }
  }
}
