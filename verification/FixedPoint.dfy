/** The do-while loops of the response-time analysis all have one shape:

        do { prev = x; x = F(prev); } while (x > prev);

    started at some x0 with x0 <= F(x0) and with a monotone F.  This module says
    what such a loop computes and exactly when it stops. */
module FixedPoint {

  ghost predicate Monotone(F: int -> int) {
    forall x, y :: x <= y ==> F(x) <= F(y)
  }

  /** `r` is a fixed point of `F` and no x >= x0 with F(x) <= x lies below it. */
  ghost predicate LeastFrom(F: int -> int, x0: int, r: int) {
    && x0 <= r
    && F(r) == r
    && forall x :: x0 <= x && F(x) <= x ==> r <= x
  }

  /** Some point at or above `x0` is not raised by `F`. */
  ghost predicate Bounded(F: int -> int, x0: int) {
    exists x :: x0 <= x && F(x) <= x
  }

  /** The values the loop variable takes, one by one. */
  function Iterate(F: int -> int, x0: int, n: nat): int {
    if n == 0 then x0 else F(Iterate(F, x0, n - 1))
  }

  /** The loop leaves at some iteration. */
  ghost predicate Exits(F: int -> int, x0: int) {
    exists n: nat :: Iterate(F, x0, n + 1) <= Iterate(F, x0, n)
  }

  lemma {:induction false} IteratesClimb(F: int -> int, x0: int, n: nat)
    requires Monotone(F) && x0 <= F(x0)
    ensures x0 <= Iterate(F, x0, n) <= Iterate(F, x0, n + 1)
  {
    if n == 0 {
      assert Iterate(F, x0, 1) == F(Iterate(F, x0, 0));
    } else {
      IteratesClimb(F, x0, n - 1);
    }
  }

  /** No iterate jumps over a point that F does not raise. */
  lemma {:induction false} IteratesStayBelow(F: int -> int, x0: int, n: nat, bound: int)
    requires Monotone(F) && x0 <= bound && F(bound) <= bound
    ensures Iterate(F, x0, n) <= bound
  {
    if n > 0 {
      IteratesStayBelow(F, x0, n - 1, bound);
    }
  }

  lemma {:induction false} IteratesGrow(F: int -> int, x0: int, n: nat)
    requires !Exits(F, x0)
    ensures Iterate(F, x0, n) >= x0 + n
  {
    if n > 0 {
      IteratesGrow(F, x0, n - 1);
      assert !(Iterate(F, x0, n - 1 + 1) <= Iterate(F, x0, n - 1));
    }
  }

  /** The loop stops exactly when F has a point it does not raise, and it then stops at
      the least fixed point. */
  lemma ExitsIffBounded(F: int -> int, x0: int)
    requires Monotone(F) && x0 <= F(x0)
    ensures Exits(F, x0) <==> Bounded(F, x0)
  {
    if Exits(F, x0) {
      var n: nat :| Iterate(F, x0, n + 1) <= Iterate(F, x0, n);
      IteratesClimb(F, x0, n);
      assert F(Iterate(F, x0, n)) <= Iterate(F, x0, n);
    }
    if Bounded(F, x0) && !Exits(F, x0) {
      var x :| x0 <= x && F(x) <= x;
      IteratesGrow(F, x0, x - x0 + 1);
      IteratesStayBelow(F, x0, x - x0 + 1, x);
    }
  }

  lemma ExitIsLeast(F: int -> int, x0: int, n: nat)
    requires Monotone(F) && x0 <= F(x0)
    requires Iterate(F, x0, n + 1) <= Iterate(F, x0, n)
    ensures LeastFrom(F, x0, Iterate(F, x0, n + 1))
  {
    var r := Iterate(F, x0, n + 1);
    IteratesClimb(F, x0, n);
    assert r == Iterate(F, x0, n);
    forall x | x0 <= x && F(x) <= x ensures r <= x {
      IteratesStayBelow(F, x0, n, x);
    }
  }

  lemma LeastExists(F: int -> int, x0: int)
    requires Monotone(F) && x0 <= F(x0) && Bounded(F, x0)
    ensures exists r :: LeastFrom(F, x0, r)
  {
    ExitsIffBounded(F, x0);
    var n: nat :| Iterate(F, x0, n + 1) <= Iterate(F, x0, n);
    ExitIsLeast(F, x0, n);
  }

  /** The value the loop returns. */
  ghost function Least(F: int -> int, x0: int): (r: int)
    requires Monotone(F) && x0 <= F(x0) && Bounded(F, x0)
    ensures LeastFrom(F, x0, r)
  {
    LeastExists(F, x0);
    var r :| LeastFrom(F, x0, r);
    r
  }
}
