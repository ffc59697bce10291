/**
 JSON values as `basic_json` stores them: three kinds of numbers, arrays, and objects keyed by strings.
 A float is a finite double, given by its exact value.
 */
module JsonValue {
  import opened Doubles
  import opened Widths

  datatype Json =
    | Null
    | Bool(b: bool)
    | Int(i: int64)
    | Uint(u: uint64)
    | Float(x: double)
    | Str(s: string)
    | Arr(a: seq<Json>)
    | Obj(m: map<string, Json>)

  /** `value_t`, without `discarded`. */
  datatype Kind = NullKind | ObjectKind | ArrayKind | StringKind | BooleanKind | IntegerKind | UnsignedKind | FloatKind

  function KindOf(j: Json): (k: Kind) {
    match j
    case Null => NullKind
    case Bool(_) => BooleanKind
    case Int(_) => IntegerKind
    case Uint(_) => UnsignedKind
    case Float(_) => FloatKind
    case Str(_) => StringKind
    case Arr(_) => ArrayKind
    case Obj(_) => ObjectKind
  }

  // ---------- Number conversions ----------

  /** `static_cast<int64_t>` of a `uint64_t`: reduction modulo 2^64. */
  function ToSigned(u: uint64): (i: int64) {
    if u < TWO_63 then u else u - TWO_64
  }

  predicate IsNumber(j: Json) {
    j.Int? || j.Uint? || j.Float?
  }

  function AsDouble(j: Json): (x: real)
    requires IsNumber(j)
  {
    match j
    case Int(i) => ToDouble(i)
    case Uint(u) => ToDouble(u)
    case Float(x) => x
  }

  function AsSigned(j: Json): (i: int64)
    requires j.Int? || j.Uint?
  {
    match j
    case Int(i) => i
    case Uint(u) => ToSigned(u)
  }

  // ---------- operator== ----------

  /** Two numbers of one kind compare as they are; otherwise a float decides, and else the signed kind. */
  predicate NumberEqual(x: Json, y: Json)
    requires IsNumber(x) && IsNumber(y)
  {
    if x.Float? || y.Float? then AsDouble(x) == AsDouble(y)
    else if x.Uint? && y.Uint? then x.u == y.u
    else AsSigned(x) == AsSigned(y)
  }

  predicate Equal(x: Json, y: Json) {
    match (x, y)
    case (Arr(a), Arr(b)) => |a| == |b| && forall i | 0 <= i < |a| :: Equal(a[i], b[i])
    case (Obj(m), Obj(n)) => m.Keys == n.Keys && forall k | k in m :: Equal(m[k], n[k])
    case (Null, Null) => true
    case (Str(s), Str(t)) => s == t
    case (Bool(b), Bool(c)) => b == c
    case _ => IsNumber(x) && IsNumber(y) && NumberEqual(x, y)
  }

  lemma {:induction false} EqualReflexive(x: Json)
    ensures Equal(x, x)
  {
    match x
    case Arr(a) =>
      forall i | 0 <= i < |a| ensures Equal(a[i], a[i]) {
        EqualReflexive(a[i]);
      }
    case Obj(m) =>
      forall k | k in m ensures Equal(m[k], m[k]) {
        EqualReflexive(m[k]);
      }
    case _ =>
  }

  lemma {:induction false} EqualSymmetric(x: Json, y: Json)
    ensures Equal(x, y) == Equal(y, x)
  {
    match (x, y)
    case (Arr(a), Arr(b)) =>
      if |a| == |b| {
        forall i | 0 <= i < |a| ensures Equal(a[i], b[i]) == Equal(b[i], a[i]) {
          EqualSymmetric(a[i], b[i]);
        }
      }
    case (Obj(m), Obj(n)) =>
      if m.Keys == n.Keys {
        forall k | k in m ensures Equal(m[k], n[k]) == Equal(n[k], m[k]) {
          EqualSymmetric(m[k], n[k]);
        }
      }
    case _ =>
  }

  // ---------- How far `==` is transitive ----------

  /** Every integer inside is at most `limit` in magnitude; floats are not restricted. */
  predicate IntegersWithin(x: Json, limit: nat) {
    match x
    case Int(i) => i <= limit && 0 <= i + limit
    case Uint(u) => u <= limit
    case Arr(a) => forall i | 0 <= i < |a| :: IntegersWithin(a[i], limit)
    case Obj(m) => forall k | k in m :: IntegersWithin(m[k], limit)
    case _ => true
  }

  predicate Chains(x: Json, y: Json, z: Json) {
    Equal(x, y) && Equal(y, z) ==> Equal(x, z)
  }

  /** The exact value of a number. */
  function Exact(x: Json): (r: real)
    requires IsNumber(x)
  {
    match x
    case Int(i) => i as real
    case Uint(u) => u as real
    case Float(f) => f
  }

  /** Through a float, `==` joins two integers that differ: it is not transitive. */
  lemma EqualIsNotTransitive()
    ensures var a, f, b := Int(TWO_53), Float(LAST_EXACT), Int(TWO_53 + 1);
      Equal(a, f) && Equal(f, b) && !Equal(a, b)
  {
    hide ToDouble;
    DoubleIsExact(TWO_53);
    FirstRounded();
  }

  /** Up to 2^53 numbers of all kinds compare by their exact values. */
  lemma NumbersByValue(x: Json, y: Json)
    requires IsNumber(x) && IsNumber(y) && IntegersWithin(x, TWO_53) && IntegersWithin(y, TWO_53)
    ensures AsDouble(x) == Exact(x) && AsDouble(y) == Exact(y)
    ensures NumberEqual(x, y) <==> AsDouble(x) == AsDouble(y)
  {
    hide ToDouble;
    if !x.Float? {
      DoubleIsExact(if x.Int? then x.i else x.u);
    }
    if !y.Float? {
      DoubleIsExact(if y.Int? then y.i else y.u);
    }
  }

  lemma {:induction false} EqualChains(x: Json, y: Json, z: Json)
    requires IntegersWithin(x, TWO_53) && IntegersWithin(y, TWO_53) && IntegersWithin(z, TWO_53)
    requires Equal(x, y) && Equal(y, z)
    ensures Equal(x, z)
  {
    hide NumberEqual, AsDouble;
    match x
    case Arr(a) =>
      forall i | 0 <= i < |a| ensures Equal(a[i], z.a[i]) {
        EqualChains(a[i], y.a[i], z.a[i]);
      }
    case Obj(m) =>
      forall k | k in m ensures Equal(m[k], z.m[k]) {
        EqualChains(m[k], y.m[k], z.m[k]);
      }
    case _ =>
      if IsNumber(x) {
        NumbersByValue(x, y);
        NumbersByValue(y, z);
        NumbersByValue(x, z);
      }
  }

  lemma {:induction false} IntegersWithinMore(x: Json, limit: nat, more: nat)
    requires limit <= more && IntegersWithin(x, limit)
    ensures IntegersWithin(x, more)
  {
    match x
    case Arr(a) =>
      forall i | 0 <= i < |a| ensures IntegersWithin(a[i], more) {
        IntegersWithinMore(a[i], limit, more);
      }
    case Obj(m) =>
      forall k | k in m ensures IntegersWithin(m[k], more) {
        IntegersWithinMore(m[k], limit, more);
      }
    case _ =>
  }

  /** Equality as section 4.6 of RFC 6902 defines it: numbers are equal if their values are. */
  predicate NumericEqual(x: Json, y: Json) {
    match (x, y)
    case (Arr(a), Arr(b)) => |a| == |b| && forall i | 0 <= i < |a| :: NumericEqual(a[i], b[i])
    case (Obj(m), Obj(n)) => m.Keys == n.Keys && forall k | k in m :: NumericEqual(m[k], n[k])
    case (Null, Null) => true
    case (Str(s), Str(t)) => s == t
    case (Bool(b), Bool(c)) => b == c
    case _ => IsNumber(x) && IsNumber(y) && Exact(x) == Exact(y)
  }

  lemma {:induction false} EqualByValue(x: Json, y: Json)
    requires IntegersWithin(x, TWO_53) && IntegersWithin(y, TWO_53)
    ensures Equal(x, y) <==> NumericEqual(x, y)
  {
    hide NumberEqual, AsDouble;
    match (x, y)
    case (Arr(a), Arr(b)) =>
      if |a| == |b| {
        forall i | 0 <= i < |a| ensures Equal(a[i], b[i]) <==> NumericEqual(a[i], b[i]) {
          EqualByValue(a[i], b[i]);
        }
      }
    case (Obj(m), Obj(n)) =>
      if m.Keys == n.Keys {
        forall k | k in m ensures Equal(m[k], n[k]) <==> NumericEqual(m[k], n[k]) {
          EqualByValue(m[k], n[k]);
        }
      }
    case _ =>
      if IsNumber(x) && IsNumber(y) {
        NumbersByValue(x, y);
      }
  }

  /**
   Some numbers in the same place are equal only after conversion: a negative number and an unsigned one, or a
   float and an integer that is no double.
   */
  predicate Confused(x: Json, y: Json) {
    match (x, y)
    case (Arr(a), Arr(b)) => exists i | 0 <= i < |a| && i < |b| :: Confused(a[i], b[i])
    case (Obj(m), Obj(n)) => exists k | k in m && k in n :: Confused(m[k], n[k])
    case (Int(i), Uint(_)) => i < 0
    case (Uint(_), Int(i)) => i < 0
    case (Int(i), Float(_)) => ToDouble(i) != i as real
    case (Float(_), Int(i)) => ToDouble(i) != i as real
    case (Uint(u), Float(_)) => ToDouble(u) != u as real
    case (Float(_), Uint(u)) => ToDouble(u) != u as real
    case _ => false
  }

  lemma NumberConfused(x: Json, y: Json)
    requires IsNumber(x) && IsNumber(y)
    ensures Exact(x) == Exact(y) ==> NumberEqual(x, y)
    ensures NumberEqual(x, y) ==> (Exact(x) == Exact(y) <==> !Confused(x, y))
  {
    hide ToDouble, IsDouble;
    if x.Float? && !y.Float? && Exact(x) == Exact(y) {
      DoublesAreExact(if y.Int? then y.i else y.u);
    }
    if y.Float? && !x.Float? && Exact(x) == Exact(y) {
      DoublesAreExact(if x.Int? then x.i else x.u);
    }
  }

  /** Numerically equal values are equal, and equal values are numerically equal unless numbers were confused. */
  lemma {:induction false} EqualUnlessConfused(x: Json, y: Json)
    ensures NumericEqual(x, y) ==> Equal(x, y)
    ensures Equal(x, y) ==> (NumericEqual(x, y) <==> !Confused(x, y))
  {
    hide NumberEqual, Exact;
    match (x, y)
    case (Arr(a), Arr(b)) =>
      forall i | 0 <= i < |a| && i < |b|
        ensures NumericEqual(a[i], b[i]) ==> Equal(a[i], b[i])
        ensures Equal(a[i], b[i]) ==> (NumericEqual(a[i], b[i]) <==> !Confused(a[i], b[i]))
      {
        EqualUnlessConfused(a[i], b[i]);
      }
    case (Obj(m), Obj(n)) =>
      forall k | k in m && k in n
        ensures NumericEqual(m[k], n[k]) ==> Equal(m[k], n[k])
        ensures Equal(m[k], n[k]) ==> (NumericEqual(m[k], n[k]) <==> !Confused(m[k], n[k]))
      {
        EqualUnlessConfused(m[k], n[k]);
      }
    case _ =>
      if IsNumber(x) && IsNumber(y) {
        NumberConfused(x, y);
      }
  }

  /** `==` is numeric equality precisely as long as a double holds every integer exactly. */
  lemma EqualIsNumericUpToDoubles(limit: uint64)
    ensures (forall x, y | IntegersWithin(x, limit) && IntegersWithin(y, limit) :: Equal(x, y) == NumericEqual(x, y))
       <==> limit <= TWO_53
  {
    if limit <= TWO_53 {
      forall x, y | IntegersWithin(x, limit) && IntegersWithin(y, limit) ensures Equal(x, y) == NumericEqual(x, y) {
        IntegersWithinMore(x, limit, TWO_53);
        IntegersWithinMore(y, limit, TWO_53);
        EqualByValue(x, y);
      }
    } else {
      hide Equal;
      EqualIsNotTransitive();
      var x, y := Float(LAST_EXACT), Int(TWO_53 + 1);
      assert IntegersWithin(x, limit) && IntegersWithin(y, limit);
      assert Equal(x, y) && !NumericEqual(x, y);
    }
  }

  /** With floats allowed, `==` is transitive precisely as long as a double holds every integer exactly. */
  lemma EqualReachesExactlyTheDoubles(limit: uint64)
    ensures (forall x, y, z | IntegersWithin(x, limit) && IntegersWithin(y, limit) && IntegersWithin(z, limit) ::
               Chains(x, y, z))
       <==> limit <= TWO_53
  {
    if limit <= TWO_53 {
      forall x, y, z | IntegersWithin(x, limit) && IntegersWithin(y, limit) && IntegersWithin(z, limit)
        ensures Chains(x, y, z)
      {
        IntegersWithinMore(x, limit, TWO_53);
        IntegersWithinMore(y, limit, TWO_53);
        IntegersWithinMore(z, limit, TWO_53);
        if Equal(x, y) && Equal(y, z) {
          EqualChains(x, y, z);
        }
      }
    } else {
      hide Equal;
      EqualIsNotTransitive();
      var x, y, z := Int(TWO_53), Float(LAST_EXACT), Int(TWO_53 + 1);
      assert IntegersWithin(x, limit) && IntegersWithin(y, limit) && IntegersWithin(z, limit);
      assert !Chains(x, y, z);
    }
  }
}
