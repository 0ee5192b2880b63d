/** The tables of `words_initialize`: bit-reversed indices times a scale. */
module BitReversal {
  import opened Arithmetic

  function Pow(b: nat): (p: nat)
    ensures p > 0
  {
    if b == 0 then 1 else 2 * Pow(b - 1)
  }

  function Log(n: nat): nat {
    if n <= 1 then 0 else 1 + Log(n / 2)
  }

  /** The low b bits of i in opposite order. */
  function Rev(b: nat, i: nat): nat {
    if b == 0 then 0 else (if i % 2 == 1 then Pow(b - 1) else 0) + Rev(b - 1, i / 2)
  }

  function Bit(i: nat, j: nat): nat { i / Pow(j) % 2 }

  /** x | 1 << j */
  function SetBit(x: nat, j: nat): nat {
    if Bit(x, j) == 1 then x else x + Pow(j)
  }

  /** Contribution of bits 0..j of i. */
  function Partial(b: nat, i: nat, j: nat): nat
    requires j <= b
  {
    if j == 0 then 0 else Partial(b, i, j - 1) + Term(b, i, j - 1)
  }

  /** Where bit j of i ends up. */
  function Term(b: nat, i: nat, j: nat): nat
    requires j < b
  {
    if Bit(i, j) == 1 then Pow(b - j - 1) else 0
  }

  lemma {:induction false} BitShift(i: nat, j: nat)
    ensures Bit(i, j + 1) == Bit(i / 2, j)
  {
    assert i / (2 * Pow(j)) == i / 2 / Pow(j) by { DivDiv(i, Pow(j)); }
  }

  lemma TermShift(b: nat, i: nat, j: nat)
    requires j + 1 < b
    ensures Term(b, i, j + 1) == Term(b - 1, i / 2, j)
  {
    BitShift(i, j);
  }

  lemma TermZero(b: nat, i: nat)
    requires 0 < b
    ensures Term(b, i, 0) == if i % 2 == 1 then Pow(b - 1) else 0
  {
    assert Pow(0) == 1;
  }

  lemma DivDiv(i: nat, p: nat)
    requires p > 0
    ensures i / (2 * p) == i / 2 / p
  {
    var h := i / 2;
    var q, r := h / p, h % p;
    assert h == q * p + r;
    assert i == q * (2 * p) + (2 * r + i % 2);
    ModUnique(i, 2 * p, q, 2 * r + i % 2);
  }

  lemma {:induction false} PartialShift(b: nat, i: nat, j: nat)
    requires 1 <= j <= b
    ensures Partial(b, i, j) == (if i % 2 == 1 then Pow(b - 1) else 0) + Partial(b - 1, i / 2, j - 1)
  {
    if j == 1 {
      assert Partial(b, i, 0) == 0;
      TermZero(b, i);
    } else {
      PartialShift(b, i, j - 1);
      TermShift(b, i, j - 2);
    }
  }

  lemma {:induction false} PartialIsRev(b: nat, i: nat)
    ensures Partial(b, i, b) == Rev(b, i)
  {
    if b > 0 {
      PartialShift(b, i, b);
      PartialIsRev(b - 1, i / 2);
    }
  }

  /** The bits gathered so far are multiples of 2^(b-j): the next one is still clear. */
  lemma {:induction false} NextBitClear(b: nat, i: nat, j: nat)
    requires j < b
    ensures Bit(Partial(b, i, j), b - j - 1) == 0
  {
    var c := Gathered(b, i, j);
    var p := Pow(b - j - 1);
    assert Partial(b, i, j) == c * Pow(b - j) == (2 * c) * p;
    ModUnique(Partial(b, i, j), p, 2 * c, 0);
    assert (2 * c) % 2 == 0;
  }

  lemma {:induction false} Gathered(b: nat, i: nat, j: nat) returns (c: nat)
    requires j <= b
    ensures Partial(b, i, j) == c * Pow(b - j)
  {
    if j == 0 {
      c := 0;
    } else {
      var d := Gathered(b, i, j - 1);
      c := GatherOne(d, Pow(b - j), Term(b, i, j - 1));
    }
  }

  lemma GatherOne(d: nat, p: nat, term: nat) returns (c: nat)
    requires term == p || term == 0
    ensures d * (2 * p) + term == c * p
  {
    c := 2 * d + if term == p then 1 else 0;
  }

  // ----- bit reversal is its own inverse -----

  lemma {:induction false} RevBelow(b: nat, i: nat)
    ensures Rev(b, i) < Pow(b)
  {
    if b > 0 {
      RevBelow(b - 1, i / 2);
    }
  }

  /** Taken from the other end: the top bit of i becomes the lowest bit. */
  lemma {:induction false} RevHigh(b: nat, i: nat)
    requires b > 0 && i < Pow(b)
    ensures Rev(b, i) == 2 * Rev(b - 1, i % Pow(b - 1)) + i / Pow(b - 1)
  {
    if b == 1 {
      assert Pow(0) == 1 && Rev(0, i % 1) == 0 && Rev(0, i / 2) == 0;
    } else {
      var p, q := Pow(b - 1), Pow(b - 2);
      RevHigh(b - 1, i / 2);
      HalfMod(i, q);
      DivDiv(i, q);
      RevLowBits(b - 1, i % p, i / 2 % q);
    }
  }

  lemma RevLowBits(b: nat, h: nat, k: nat)
    requires b > 0 && h / 2 == k
    ensures Rev(b, h) == (if h % 2 == 1 then Pow(b - 1) else 0) + Rev(b - 1, k)
  {
  }

  lemma HalfMod(i: nat, p: nat)
    requires p > 0
    ensures i % (2 * p) / 2 == i / 2 % p
    ensures i % (2 * p) % 2 == i % 2
  {
    var h := i / 2;
    var q, r := h / p, h % p;
    assert h == q * p + r;
    assert i == q * (2 * p) + (2 * r + i % 2);
    ModUnique(i, 2 * p, q, 2 * r + i % 2);
  }

  lemma {:induction false} RevTwice(b: nat, i: nat)
    requires i < Pow(b)
    ensures Rev(b, Rev(b, i)) == i
  {
    if b > 0 {
      var p, lo := Pow(b - 1), Rev(b - 1, i / 2);
      RevBelow(b, i);
      RevBelow(b - 1, i / 2);
      RevHigh(b, Rev(b, i));
      ModUnique(Rev(b, i), p, if i % 2 == 1 then 1 else 0, lo);
      RevTwice(b - 1, i / 2);
    }
  }

  /** Only the low b bits of an index matter. */
  lemma {:induction false} RevWraps(b: nat, i: nat)
    ensures Rev(b, i + Pow(b)) == Rev(b, i)
  {
    if b > 0 {
      var p := Pow(b - 1);
      assert (i + 2 * p) / 2 == i / 2 + p && (i + 2 * p) % 2 == i % 2;
      RevWraps(b - 1, i / 2);
    }
  }

  /** The first 2^m entries of a table of 2^b are the multiples of 2^(b-m), bit-reversed. */
  lemma {:induction false} RevPrefix(b: nat, m: nat, i: nat)
    requires m <= b && i < Pow(m)
    ensures Rev(b, i) == Rev(m, i) * Pow(b - m)
  {
    if m == b {
      assert Pow(0) == 1;
    } else {
      PowMonotone(m, b - 1);
      RevShort(b, i);
      RevPrefix(b - 1, m, i);
      DoubleFactor(Rev(m, i), Pow(b - 1 - m));
    }
  }

  lemma DoubleFactor(a: nat, p: nat)
    ensures 2 * (a * p) == a * (2 * p)
  {
  }

  lemma RevShort(b: nat, i: nat)
    requires b > 0 && i < Pow(b - 1)
    ensures Rev(b, i) == 2 * Rev(b - 1, i)
  {
    RevHigh(b, i);
    ModUnique(i, Pow(b - 1), 0, i);
  }

  lemma {:induction false} PowMonotone(m: nat, b: nat)
    requires m <= b
    ensures Pow(m) <= Pow(b)
  {
    if m < b {
      PowMonotone(m, b - 1);
    }
  }

  lemma {:induction false} LogBounds(n: nat)
    requires n > 0
    ensures Pow(Log(n)) <= n < 2 * Pow(Log(n))
  {
    if n > 1 {
      LogBounds(n / 2);
    }
  }

  lemma {:induction false} LogOfPow(b: nat)
    ensures Log(Pow(b)) == b
  {
    if b > 0 {
      LogOfPow(b - 1);
      assert Pow(b) / 2 == Pow(b - 1);
    }
  }

  // ----- the table -----

  /** What `words_initialize(max, scale)` returns. */
  function Table(max: nat, scale: nat): (t: seq<nat>)
    ensures |t| == max
  {
    seq(max, i requires 0 <= i < max => Rev(Log(max), i) * scale)
  }

  /** The loop over the bits of one entry. */
  method ReverseBits(i: nat, nbits: nat) returns (w: nat)
    ensures w == Rev(nbits, i)
  {
    w := 0;
    var j := 0;
    while j < nbits
      invariant 0 <= j <= nbits && w == Partial(nbits, i, j)
    {
      if Bit(i, j) == 1 {
        NextBitClear(nbits, i, j);
        w := SetBit(w, nbits - j - 1);
      }
      j := j + 1;
    }
    PartialIsRev(nbits, i);
  }

  /** The loop that counts the bits of an index. */
  method CountBits(max: nat) returns (nbits: nat)
    ensures nbits == Log(max)
  {
    var i: nat := max / 2;
    nbits := 0;
    while i != 0
      decreases i
      invariant nbits + (if i == 0 then 0 else 1 + Log(i)) == Log(max)
    {
      i := i / 2;
      nbits := nbits + 1;
    }
  }

  method WordsInitialize(max: nat, scale: nat) returns (words: array<nat>)
    ensures fresh(words) && words[..] == Table(max, scale)
  {
    words := new nat[max](_ => 0);
    var nbits := CountBits(max);
    var i := 0;
    while i < max
      invariant 0 <= i <= max && words.Length == max
      invariant forall a :: 0 <= a < i ==> words[a] == Rev(nbits, a) * scale
      invariant forall a :: i <= a < max ==> words[a] == 0
    {
      var w := ReverseBits(i, nbits);
      words[i] := w;
      words[i] := words[i] * scale;
      i := i + 1;
    }
    assert words[..] == Table(max, scale);
  }

  ghost predicate PowerOfTwo(n: nat) {
    n > 0 && n == Pow(Log(n))
  }

  lemma TableDistinct(max: nat, a: nat, b: nat)
    requires PowerOfTwo(max) && a < b < max
    ensures Rev(Log(max), a) != Rev(Log(max), b)
  {
    RevTwice(Log(max), a);
    RevTwice(Log(max), b);
  }

  /** The table lists different entries exactly when its length is a power of two. */
  lemma TableIsPermutation(max: nat, scale: nat)
    requires max > 0 && scale > 0
    ensures PowerOfTwo(max) <==> forall a, b :: 0 <= a < b < max ==> Table(max, scale)[a] != Table(max, scale)[b]
    ensures PowerOfTwo(max) ==> forall x :: 0 <= x < max ==> x * scale in Table(max, scale)
  {
    var t, n := Table(max, scale), Log(max);
    LogBounds(max);
    if PowerOfTwo(max) {
      forall a, b | 0 <= a < b < max ensures t[a] != t[b] {
        TableDistinct(max, a, b);
        Scaled(Rev(n, a), Rev(n, b), scale);
      }
      forall x | 0 <= x < max ensures x * scale in t {
        RevBelow(n, x);
        RevTwice(n, x);
        assert t[Rev(n, x)] == x * scale;
      }
    } else {
      var p := Pow(n);
      RevWraps(n, 0);
      assert t[0] == t[p];
    }
  }

  lemma Scaled(a: nat, b: nat, scale: nat)
    requires scale > 0 && a != b
    ensures a * scale != b * scale
    ensures a < b ==> a * scale + scale <= b * scale
    ensures b < a ==> b * scale + scale <= a * scale
  {
    AtLeastOnce(b - a, scale);
    assert (b - a) * scale == b * scale - a * scale;
  }

  /** Entries of a power-of-two table keep at least `scale` apart and end within the page. */
  lemma TableSpaced(max: nat, scale: nat, a: nat, b: nat)
    requires PowerOfTwo(max) && scale > 0 && a < b < max
    ensures var t := Table(max, scale); t[a] + scale <= t[b] || t[b] + scale <= t[a]
  {
    TableDistinct(max, a, b);
    Scaled(Rev(Log(max), a), Rev(Log(max), b), scale);
  }

  lemma TableInPage(max: nat, scale: nat, a: nat)
    requires PowerOfTwo(max) && scale > 0 && a < max
    ensures 0 <= Table(max, scale)[a] && Table(max, scale)[a] + scale <= max * scale
  {
    RevBelow(Log(max), a);
    Scaled(Rev(Log(max), a), max, scale);
  }
}
