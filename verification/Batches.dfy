/** Breaking a call list into batches of equal size, the size being a ceiling computed in double precision. */
module Batches {
  import opened Widths

  datatype Call = Call(labelling: int, value: real)

  // ---------- The batch size ----------

  /** The least `n` with `n * count >= size`. */
  function CeilingDivision(size: nat, count: nat): (n: nat)
    requires count >= 1
    ensures n * count >= size && (n > 0 ==> (n - 1) * count < size)
  {
    var q, r := size / count, size % count;
    assert size == q * count + r;
    if r == 0 then q
    else
      assert (q + 1) * count == q * count + count;
      q + 1
  }

  /** `y` is `x` rounded to a double: within half a unit in the last place, and never past a representable integer. */
  predicate IsRounded(y: real, x: real) {
    && (x - y) * TWO_53 as real <= x && (y - x) * TWO_53 as real <= x
    && (x.Floor <= TWO_53 ==> x.Floor as real <= y <= (x.Floor + 1) as real)
    && (x == x.Floor as real && x.Floor <= TWO_53 ==> y == x)
  }

  function Ceiling(y: real): (n: int)
    ensures n as real >= y && (n - 1) as real < y
  {
    -((-y).Floor)
  }

  lemma ProductAtMost(a: nat, b: nat, c: nat)
    requires a <= b
    ensures a * c <= b * c
  {
  }

  lemma Cancel(a: real, b: real, c: real)
    requires c > 0.0
    ensures a * c <= b * c ==> a <= b
    ensures a * c < b * c ==> a < b
  {
  }

  lemma Quotient(size: nat, count: nat) returns (x: real)
    requires count >= 1
    ensures x == size as real / count as real && x * count as real == size as real
  {
    x := size as real / count as real;
  }

  /** The quotient lies between the ceiling and the integer below it. */
  lemma QuotientBounds(size: nat, count: nat, n: nat)
    requires count >= 1 && n == CeilingDivision(size, count)
    ensures size as real / count as real <= n as real
    ensures n > 0 ==> (n - 1) as real < size as real / count as real
    ensures size == n * count ==> size as real / count as real == n as real
  {
  }

  /** A gap of at least `1 / c` is wider than a rounding error of a quotient below `t / c`. */
  lemma GapExceedsError(x: real, k: real, c: real, t: real)
    requires c > 0.0 && t > 0.0 && x * c < t && x * c - k * c >= 1.0
    ensures (x - k) * t > x
  {
  }

  /** Below 2^53 elements the rounding of the quotient never changes its ceiling. */
  lemma RoundingIsHarmless(size: nat, count: nat, y: real)
    requires count >= 1 && size < TWO_53 && IsRounded(y, size as real / count as real)
    ensures Ceiling(y) == CeilingDivision(size, count)
  {
    var n := CeilingDivision(size, count);
    QuotientBounds(size, count, n);
    CeilingAtMostSize(size, count, n);
    assert n > 0 ==> (n - 1) * count < size;
    hide CeilingDivision, Ceiling;
    var x := Quotient(size, count);
    if size == n * count {
      assert x == n as real && x.Floor == n;
      CeilingIs(y, n);
    } else {
      NotBelow(size, count, n, x, y);
      CeilingIs(y, n);
    }
  }

  /** A quotient that is no integer is rounded neither down to the integer below nor past the one above. */
  lemma NotBelow(size: nat, count: nat, n: nat, x: real, y: real)
    requires count >= 1 && size < TWO_53 && IsRounded(y, x) && x * count as real == size as real
    requires 0 < n <= size && (n - 1) * count < size < n * count && (n - 1) as real < x
    ensures (n - 1) as real < y <= n as real
  {
    var k, c, t := n - 1, count as real, TWO_53 as real;
    StrictlyBetween(size, count, n, x);
    assert x.Floor == k;
    assert k as real * c == (k * count) as real;
    GapExceedsError(x, k as real, c, t);
    RoundedAbove(x, y, k as real, t);
  }

  lemma CeilingIs(y: real, n: int)
    requires (n - 1) as real < y <= n as real
    ensures Ceiling(y) == n
  {
  }

  lemma RoundedAbove(x: real, y: real, k: real, t: real)
    requires (x - y) * t <= x && (x - k) * t > x && t > 0.0
    ensures y > k
  {
    Cancel(x - y, x - k, t);
  }

  lemma StrictlyBetween(size: nat, count: nat, n: nat, x: real)
    requires count >= 1 && x * count as real == size as real && size < n * count
    ensures x < n as real
  {
  }

  lemma CeilingAtMostSize(size: nat, count: nat, n: nat)
    requires count >= 1 && n == CeilingDivision(size, count)
    ensures n <= size
  {
    if n > 0 {
      ProductAtMost(1, count, n - 1);
    }
  }

  // ---------- The batches ----------

  function Min(a: int, b: int): (m: int) {
    if a < b then a else b
  }

  /** The positions from `lo` to `hi` in order. */
  function Range(lo: int, hi: int): (r: seq<int>)
    ensures |r| == if lo < hi then hi - lo else 0
  {
    if lo < hi then seq(hi - lo, i => lo + i) else []
  }

  /** Batch `b` of size `n` of the first `upTo` positions. */
  function Batch(b: nat, n: nat, upTo: nat): (r: seq<int>) {
    Range(Min(b * n, upTo), Min((b + 1) * n, upTo))
  }

  lemma BatchGrows(i: nat, n: nat, batch: nat)
    requires n > 0 && batch == i / n
    ensures Batch(batch, n, i + 1) == Batch(batch, n, i) + [i]
    ensures forall b: nat | b != batch :: Batch(b, n, i + 1) == Batch(b, n, i)
  {
    hide Batch;
    InsideBatch(i, n, batch);
    BatchExtends(i, n, batch);
    forall b: nat | b != batch ensures Batch(b, n, i + 1) == Batch(b, n, i) {
      BatchUnchanged(i, n, batch, b);
    }
  }

  lemma InsideBatch(i: nat, n: nat, batch: nat)
    requires n > 0 && batch == i / n
    ensures batch * n <= i < (batch + 1) * n
  {
  }

  lemma BatchExtends(i: nat, n: nat, batch: nat)
    requires batch * n <= i < (batch + 1) * n
    ensures Batch(batch, n, i + 1) == Batch(batch, n, i) + [i]
  {
  }

  lemma BatchUnchanged(i: nat, n: nat, batch: nat, b: nat)
    requires batch * n <= i < (batch + 1) * n && b != batch
    ensures Batch(b, n, i + 1) == Batch(b, n, i)
  {
  }

  lemma BatchInRange(i: nat, size: nat, count: nat, n: nat)
    requires count >= 1 && n == CeilingDivision(size, count) && i < size
    ensures n > 0 && i / n < count
  {
    assert n == 0 ==> n * count == 0;
    assert i == (i / n) * n + i % n;
    if count <= i / n {
      ProductAtMost(count, i / n, n);
    }
  }

  /** `generateBatches`: resets the labels and deals the positions out in order. `quotient` is the double division. */
  method GenerateBatches(data: array<Call>, count: int, quotient: real) returns (out: seq<seq<int>>)
    requires count >= 1 && data.Length < TWO_53 && IsRounded(quotient, data.Length as real / count as real)
    modifies data
    ensures forall i | 0 <= i < data.Length :: data[i] == old(data[i]).(labelling := 0)
    ensures |out| == count
    ensures forall b | 0 <= b < count :: out[b] == Batch(b, CeilingDivision(data.Length, count), data.Length)
    ensures Concat(out) == Range(0, data.Length)
  {
    hide CeilingDivision, Batch, IsRounded;
    var size := data.Length;
    var n := Ceiling(quotient);
    RoundingIsHarmless(size, count, quotient);
    out := seq(count, _ => []);
    NothingDealt(n);
    var i := 0;
    while i < size
      invariant 0 <= i <= size
      invariant forall k | 0 <= k < size :: data[k] == if k < i then old(data[k]).(labelling := 0) else old(data[k])
      invariant |out| == count && forall b | 0 <= b < count :: out[b] == Batch(b, n, i)
    {
      data[i] := data[i].(labelling := 0);
      BatchInRange(i, size, count, n);
      var batch := i / n;
      assert batch < count;
      BatchGrows(i, n, batch);
      out := out[batch := out[batch] + [i]];
      i := i + 1;
    }
    var tsize := 0;
    for b := 0 to count
      invariant tsize == |Concat(out[..b])|
    {
      assert out[..b + 1][..b] == out[..b];
      tsize := tsize + |out[b]|;
    }
    assert out[..count] == out;
    BatchesCover(out, n, size, count);
    assert tsize == size;
  }

  lemma NothingDealt(n: nat)
    ensures forall b: nat :: Batch(b, n, 0) == []
  {
  }

  function Concat(out: seq<seq<int>>): (r: seq<int>) {
    if out == [] then [] else Concat(out[..|out| - 1]) + out[|out| - 1]
  }

  /** The first batches in order are the first positions in order. */
  lemma {:induction false} BatchesConcat(out: seq<seq<int>>, n: nat, size: nat)
    requires forall b | 0 <= b < |out| :: out[b] == Batch(b, n, size)
    ensures Concat(out) == Range(0, Min(|out| * n, size))
    decreases |out|
  {
    hide Range;
    NoRange();
    if out != [] {
      var b := |out| - 1;
      BatchesConcat(out[..b], n, size);
      ProductAtMost(b, b + 1, n);
      ProductAtMost(0, b, n);
      RangesJoin(0, Min(b * n, size), Min((b + 1) * n, size));
    }
  }

  lemma NoRange()
    ensures Range(0, 0) == []
  {
  }

  lemma RangesJoin(lo: int, mid: int, hi: int)
    requires lo <= mid <= hi
    ensures Range(lo, mid) + Range(mid, hi) == Range(lo, hi)
  {
  }

  /** The batches in order concatenate to the whole list, so no element is lost or dealt twice. */
  lemma {:induction false} BatchesCover(out: seq<seq<int>>, n: nat, size: nat, count: nat)
    requires count >= 1 && n == CeilingDivision(size, count) && |out| == count
    requires forall b | 0 <= b < |out| :: out[b] == Batch(b, n, size)
    ensures Concat(out) == Range(0, size)
    ensures forall b | 0 <= b < count :: |out[b]| == Min(n, if b * n < size then size - b * n else 0)
  {
    hide CeilingDivision;
    assert count * n == n * count >= size by {
      assert CeilingDivision(size, count) * count >= size;
    }
    BatchesConcat(out, n, size);
    forall b | 0 <= b < count ensures |out[b]| == Min(n, if b * n < size then size - b * n else 0) {
      assert (b + 1) * n == b * n + n;
    }
  }
}
