/** Finite doubles as exact values, and the conversion of integers to them. */
module Doubles {
  import opened Widths

  function Pow2(k: nat): (p: nat)
    ensures p >= 1
  {
    if k == 0 then 1 else 2 * Pow2(k - 1)
  }

  /** `x` is the 53-bit significand `m` moved by `k` binary places, to either side. */
  predicate Scales(x: real, m: int, k: nat) {
    && -TWO_53 < m < TWO_53
    && ((k <= 971 && x == (m * Pow2(k)) as real) || (k <= 1074 && x * Pow2(k) as real == m as real))
  }

  ghost predicate IsDouble(x: real) {
    exists m: int, k: nat :: Scales(x, m, k)
  }

  type double = x: real | IsDouble(x) witness (assert Scales(0.0, 0, 0); 0.0)

  /** The first double after which doubles lie further apart than integers. */
  const LAST_EXACT: double := (assert Pow2(1) == 2; assert Scales(TWO_53 as real, TWO_52, 1); TWO_53 as real)

  // ---------- Conversion ----------

  /** The multiple of `ulp` nearest to `n`, ties going to the even multiple. */
  function NearestMultiple(n: nat, ulp: nat): (r: nat)
    requires ulp > 0
  {
    var q, rest := n / ulp, n % ulp;
    if 2 * rest < ulp || (2 * rest == ulp && q % 2 == 0) then q * ulp else (q + 1) * ulp
  }

  /** `n` rounded to a 53-bit significand, `ulp` being a power of two that is not too coarse. */
  function RoundMagnitude(n: nat, ulp: nat): (r: nat)
    requires ulp > 0
    decreases n - ulp
  {
    if n < TWO_53 * ulp then NearestMultiple(n, ulp) else RoundMagnitude(n, 2 * ulp)
  }

  /** `static_cast<double>` of an integer. */
  function ToDouble(n: int): (x: real) {
    if n < 0 then -(RoundMagnitude(-n, 1) as real) else RoundMagnitude(n, 1) as real
  }

  // ---------- The integers that are doubles are converted exactly ----------

  lemma {:induction false} Pow2Monotone(j: nat, k: nat)
    ensures j <= k ==> Pow2(j) <= Pow2(k)
    ensures j < k ==> 2 * Pow2(j) <= Pow2(k)
    decreases k
  {
    if j < k {
      Pow2Monotone(j, k - 1);
    }
  }

  lemma {:induction false} Pow2Sum(j: nat, k: nat)
    ensures Pow2(j + k) == Pow2(j) * Pow2(k)
  {
    if j > 0 {
      Pow2Sum(j - 1, k);
      assert Pow2(j) * Pow2(k) == 2 * (Pow2(j - 1) * Pow2(k));
    }
  }

  lemma MultipleStays(q: nat, ulp: nat)
    requires ulp > 0
    ensures NearestMultiple(q * ulp, ulp) == q * ulp
  {
    DivideMultiple(q, ulp);
  }

  lemma DivideMultiple(q: nat, ulp: nat)
    requires ulp > 0
    ensures (q * ulp) / ulp == q && (q * ulp) % ulp == 0
  {
    var a, b := (q * ulp) / ulp, (q * ulp) % ulp;
    assert q * ulp == a * ulp + b;
    NextMultiple(a, q, ulp);
    NextMultiple(q, a, ulp);
  }

  lemma NextMultiple(a: nat, q: nat, ulp: nat)
    ensures a < q ==> a * ulp + ulp <= q * ulp
  {
    if a < q {
      ProductMonotone(a + 1, q, ulp);
      assert (a + 1) * ulp == a * ulp + ulp;
    }
  }

  /** What reaches beyond 53 bits at place `k` sits above that place. */
  lemma SitsAtOrAbove(m: nat, e: nat, k: nat)
    requires m < TWO_53
    ensures e <= k ==> m * Pow2(e) < TWO_53 * Pow2(k)
  {
    if e <= k {
      Pow2Monotone(e, k);
      ProductMonotone(Pow2(e), Pow2(k), m);
      ProductMonotone(m + 1, TWO_53, Pow2(k));
      assert (m + 1) * Pow2(k) == m * Pow2(k) + Pow2(k);
    }
  }

  lemma ProductMonotone(a: nat, b: nat, c: nat)
    requires a <= b
    ensures a * c <= b * c && c * a <= c * b
  {
  }

  lemma {:induction false} RoundsToItself(m: nat, e: nat, k: nat)
    requires m < TWO_53 && (k > 0 ==> m * Pow2(e) >= TWO_53 * Pow2(k - 1))
    ensures RoundMagnitude(m * Pow2(e), Pow2(k)) == m * Pow2(e)
    decreases m * Pow2(e) - Pow2(k)
  {
    var n := m * Pow2(e);
    if n < TWO_53 * Pow2(k) {
      hide Pow2;
      if k > 0 {
        SitsAtOrAbove(m, e, k - 1);
      }
      MultipleOfPlace(m, e, k);
      MultipleStays(m * Pow2(e - k), Pow2(k));
    } else {
      RoundsToItself(m, e, k + 1);
    }
  }

  lemma MultipleOfPlace(m: nat, e: nat, k: nat)
    requires k <= e
    ensures m * Pow2(e) == (m * Pow2(e - k)) * Pow2(k)
  {
    hide Pow2;
    Pow2Sum(e - k, k);
  }

  /** An integer whose fraction is cut off at the left is smaller than its significand. */
  lemma BelowSignificand(n: int, m: int, k: nat)
    requires n as real * Pow2(k) as real == m as real
    ensures m >= 0 ==> 0 <= n <= m
    ensures m <= 0 ==> m <= n <= 0
  {
    var p := Pow2(k);
    assert n as real * p as real == (n * p) as real;
    assert n * p == m;
    ProductBounds(n, p);
  }

  lemma ProductBounds(n: int, p: int)
    requires p >= 1
    ensures n * p >= 0 ==> 0 <= n <= n * p
    ensures n * p <= 0 ==> n * p <= n <= 0
  {
    if n > 0 {
      assert n * p >= n;
    } else if n < 0 {
      assert n * p <= n;
    }
  }

  lemma SmallStays(n: nat)
    requires n < TWO_53
    ensures RoundMagnitude(n, 1) == n
  {
  }

  /** Rounding is for the other integers only. */
  lemma {:induction false} DoublesAreExact(n: int)
    requires IsDouble(n as real)
    ensures ToDouble(n) == n as real
  {
    hide RoundMagnitude, Pow2;
    var m: int, k: nat :| Scales(n as real, m, k);
    if k <= 971 && n as real == (m * Pow2(k)) as real {
      LargeStays(m, k);
    } else {
      BelowSignificand(n, m, k);
      SmallStays(if n < 0 then -n else n);
    }
  }

  lemma LargeStays(m: int, k: nat)
    requires -TWO_53 < m < TWO_53
    ensures ToDouble(m * Pow2(k)) == (m * Pow2(k)) as real
  {
    hide RoundMagnitude, Pow2;
    NoPlaces();
    ProductBounds(m, Pow2(k));
    if m < 0 {
      assert (-m) * Pow2(k) == -(m * Pow2(k));
      RoundsToItself(-m, k, 0);
    } else {
      RoundsToItself(m, k, 0);
    }
  }

  lemma NoPlaces()
    ensures Pow2(0) == 1
  {
  }

  /** A double holds every integer up to 2^53 in magnitude. */
  lemma DoubleIsExact(n: int)
    requires -TWO_53 <= n <= TWO_53
    ensures ToDouble(n) == n as real
  {
    var magnitude := if n < 0 then -n else n;
    assert RoundMagnitude(magnitude, 1) == magnitude by {
      if magnitude == TWO_53 {
        assert RoundMagnitude(TWO_53, 1) == RoundMagnitude(TWO_53, 2) == NearestMultiple(TWO_53, 2);
      }
    }
  }

  /** The integer after 2^53 is a tie and is rounded to the even neighbour. */
  lemma FirstRounded()
    ensures ToDouble(TWO_53 + 1) == LAST_EXACT
  {
    assert RoundMagnitude(TWO_53 + 1, 1) == RoundMagnitude(TWO_53 + 1, 2) == NearestMultiple(TWO_53 + 1, 2);
  }
}
