/** `operator<` on JSON values and the comparisons derived from it. */
module JsonOrder {
  import opened Doubles
  import opened JsonValue
  import opened SortedKeys
  import opened Widths

  // ---------- Nesting depth, the measure of the two-directional comparison ----------

  ghost function Height(x: Json): (h: nat)
    ensures x.Arr? ==> forall i | 0 <= i < |x.a| :: Height(x.a[i]) < h
    ensures x.Obj? ==> forall k | k in x.m :: Height(x.m[k]) < h
    decreases x, 1, 0
  {
    match x
    case Arr(a) => 1 + HeightItems(x, 0)
    case Obj(m) => 1 + HeightMembers(x, Sorted(m.Keys))
    case _ => 0
  }

  ghost function HeightItems(x: Json, i: nat): (h: nat)
    requires x.Arr? && i <= |x.a|
    ensures forall j | i <= j < |x.a| :: Height(x.a[j]) <= h
    decreases x, 0, |x.a| - i
  {
    if i == |x.a| then 0
    else
      var head, tail := Height(x.a[i]), HeightItems(x, i + 1);
      if head < tail then tail else head
  }

  ghost function HeightMembers(x: Json, ks: seq<string>): (h: nat)
    requires x.Obj? && forall k | k in ks :: k in x.m
    ensures forall k | k in ks :: Height(x.m[k]) <= h
    decreases x, 0, |ks|
  {
    if ks == [] then 0
    else
      var head, tail := Height(x.m[ks[0]]), HeightMembers(x, ks[1..]);
      if head < tail then tail else head
  }

  // ---------- operator< ----------

  /** `operator<(value_t, value_t)`: null < boolean < number < object < array < string. */
  function Rank(k: Kind): (r: nat) {
    match k
    case NullKind => 0
    case BooleanKind => 1
    case IntegerKind => 2
    case UnsignedKind => 2
    case FloatKind => 2
    case ObjectKind => 3
    case ArrayKind => 4
    case StringKind => 5
  }

  predicate NumberLess(x: Json, y: Json)
    requires IsNumber(x) && IsNumber(y)
  {
    if x.Float? || y.Float? then AsDouble(x) < AsDouble(y)
    else if x.Uint? && y.Uint? then x.u < y.u
    else AsSigned(x) < AsSigned(y)
  }

  predicate Less(x: Json, y: Json)
    decreases Height(x) + Height(y), 1, 0
  {
    match (x, y)
    case (Arr(_), Arr(_)) => LessItems(x, y, 0)
    case (Obj(m), Obj(n)) => LessMembers(x, y, Sorted(m.Keys), Sorted(n.Keys))
    case (Null, Null) => false
    case (Str(s), Str(t)) => StringLess(s, t)
    case (Bool(b), Bool(c)) => !b && c
    case _ => if IsNumber(x) && IsNumber(y) then NumberLess(x, y) else Rank(KindOf(x)) < Rank(KindOf(y))
  }

  /** The order of the kinds, as the comparison of kinds documents it. */
  lemma KindsInOrder(x: Json, y: Json)
    ensures x.Null? && !y.Null? ==> Less(x, y) && !Less(y, x)
    ensures x.Bool? && (IsNumber(y) || y.Obj? || y.Arr? || y.Str?) ==> Less(x, y) && !Less(y, x)
    ensures IsNumber(x) && (y.Obj? || y.Arr? || y.Str?) ==> Less(x, y) && !Less(y, x)
    ensures x.Obj? && (y.Arr? || y.Str?) ==> Less(x, y) && !Less(y, x)
    ensures x.Arr? && y.Str? ==> Less(x, y) && !Less(y, x)
    ensures x.Bool? && y.Bool? ==> (Less(x, y) <==> x == Bool(false) && y == Bool(true))
  {
    hide LessItems, LessMembers, StringLess, Sorted, Height, NumberLess;
  }

  /** `std::lexicographical_compare` on the array elements from index `i` on. */
  predicate LessItems(x: Json, y: Json, i: nat)
    requires x.Arr? && y.Arr? && i <= |x.a| && i <= |y.a|
    decreases Height(x) + Height(y), 0, |x.a| - i
  {
    if i == |y.a| then false
    else if i == |x.a| then true
    else if Less(x.a[i], y.a[i]) then true
    else if Less(y.a[i], x.a[i]) then false
    else LessItems(x, y, i + 1)
  }

  /** `std::lexicographical_compare` on the (key, value) pairs whose keys are still to be visited. */
  predicate LessMembers(x: Json, y: Json, ks: seq<string>, ls: seq<string>)
    requires x.Obj? && y.Obj?
    requires (forall k | k in ks :: k in x.m) && forall l | l in ls :: l in y.m
    decreases Height(x) + Height(y), 0, |ks|
  {
    if ls == [] then false
    else if ks == [] then true
    else if StringLess(ks[0], ls[0]) then true
    else if StringLess(ls[0], ks[0]) then false
    else if Less(x.m[ks[0]], y.m[ls[0]]) then true
    else if Less(y.m[ls[0]], x.m[ks[0]]) then false
    else LessMembers(x, y, ks[1..], ls[1..])
  }

  predicate LessOrEqual(x: Json, y: Json) {
    !Less(y, x)
  }

  predicate Greater(x: Json, y: Json) {
    !LessOrEqual(x, y)
  }

  predicate GreaterOrEqual(x: Json, y: Json) {
    !Less(x, y)
  }

  // ---------- The values on which `<` is a strict order with ties exactly `==` ----------

  /** No float anywhere inside, and no unsigned number above `limit`. */
  predicate Within(x: Json, limit: nat) {
    match x
    case Float(_) => false
    case Uint(u) => u <= limit
    case Arr(a) => forall i | 0 <= i < |a| :: Within(a[i], limit)
    case Obj(m) => forall k | k in m :: Within(m[k], limit)
    case _ => true
  }

  const SIGNED_LIMIT := TWO_63 - 1

  /**
   The values that are compared by what they are: without floats, unsigned numbers that fit a signed one;
   with floats, integers that a double holds.
   */
  predicate Orderly(x: Json, floats: bool) {
    match x
    case Float(_) => floats
    case Int(i) => floats ==> -TWO_53 <= i <= TWO_53
    case Uint(u) => u <= if floats then TWO_53 else SIGNED_LIMIT
    case Arr(a) => forall i | 0 <= i < |a| :: Orderly(a[i], floats)
    case Obj(m) => forall k | k in m :: Orderly(m[k], floats)
    case _ => true
  }

  lemma NumbersInOrder(x: Json, y: Json, floats: bool)
    requires IsNumber(x) && IsNumber(y) && Orderly(x, floats) && Orderly(y, floats)
    ensures NumberLess(x, y) <==> Exact(x) < Exact(y)
    ensures NumberEqual(x, y) <==> Exact(x) == Exact(y)
  {
    hide ToDouble;
    if floats && !x.Float? {
      DoubleIsExact(if x.Int? then x.i else x.u);
    }
    if floats && !y.Float? {
      DoubleIsExact(if y.Int? then y.i else y.u);
    }
  }

  /** Exactly one of `x < y`, `x == y`, `y < x`. */
  lemma {:induction false} Trichotomy(x: Json, y: Json, floats: bool)
    requires Orderly(x, floats) && Orderly(y, floats)
    ensures !(Less(x, y) && Less(y, x))
    ensures Equal(x, y) <==> !Less(x, y) && !Less(y, x)
    decreases x, 1, 0
  {
    if x.Arr? && y.Arr? {
      TrichotomyItems(x, y, 0, floats);
    } else if x.Obj? && y.Obj? {
      TrichotomyMembers(x, y, Sorted(x.m.Keys), Sorted(y.m.Keys), floats);
      SortedDeterminesKeys(x.m.Keys, y.m.Keys);
    } else {
      TrichotomyFlat(x, y, floats);
    }
  }

  lemma SortedDeterminesKeys(ks: set<string>, ls: set<string>)
    ensures Sorted(ks) == Sorted(ls) <==> ks == ls
  {
  }

  lemma TrichotomyFlat(x: Json, y: Json, floats: bool)
    requires !(x.Arr? && y.Arr?) && !(x.Obj? && y.Obj?)
    requires Orderly(x, floats) && Orderly(y, floats)
    ensures !(Less(x, y) && Less(y, x))
    ensures Equal(x, y) <==> !Less(x, y) && !Less(y, x)
  {
    hide LessItems, LessMembers, StringLess, Sorted, Height, NumberLess, NumberEqual, Orderly;
    if Rank(KindOf(x)) != Rank(KindOf(y)) {
      hide Less, Equal;
      RankFirst(x, y);
      RankFirst(y, x);
    } else if x.Str? {
      StringTrichotomy(x.s, y.s);
    } else if IsNumber(x) {
      NumbersInOrder(x, y, floats);
      NumbersInOrder(y, x, floats);
    }
  }

  /** Values of different rank are ordered by it and never equal. */
  lemma RankFirst(x: Json, y: Json)
    ensures Rank(KindOf(x)) != Rank(KindOf(y)) ==> !Equal(x, y) && (Less(x, y) <==> Rank(KindOf(x)) < Rank(KindOf(y)))
  {
    hide LessItems, LessMembers, StringLess, Sorted, Height, NumberLess, NumberEqual;
  }

  lemma {:induction false} TrichotomyItems(x: Json, y: Json, i: nat, floats: bool)
    requires x.Arr? && y.Arr? && i <= |x.a| && i <= |y.a|
    requires Orderly(x, floats) && Orderly(y, floats)
    ensures !(LessItems(x, y, i) && LessItems(y, x, i))
    ensures !LessItems(x, y, i) && !LessItems(y, x, i) <==>
      |x.a| == |y.a| && forall j | i <= j < |x.a| :: Equal(x.a[j], y.a[j])
    decreases x, 0, |x.a| - i
  {
    if i < |x.a| && i < |y.a| {
      Trichotomy(x.a[i], y.a[i], floats);
      TrichotomyItems(x, y, i + 1, floats);
    }
  }

  lemma {:induction false} TrichotomyMembers(x: Json, y: Json, ks: seq<string>, ls: seq<string>, floats: bool)
    requires x.Obj? && y.Obj?
    requires (forall k | k in ks :: k in x.m) && forall l | l in ls :: l in y.m
    requires Orderly(x, floats) && Orderly(y, floats)
    ensures !(LessMembers(x, y, ks, ls) && LessMembers(y, x, ls, ks))
    ensures !LessMembers(x, y, ks, ls) && !LessMembers(y, x, ls, ks) <==>
      ks == ls && forall k | k in ks :: k in y.m && Equal(x.m[k], y.m[k])
    decreases x, 0, |ks|
  {
    if ks != [] && ls != [] {
      StringTrichotomy(ks[0], ls[0]);
      if ks[0] == ls[0] {
        Trichotomy(x.m[ks[0]], y.m[ls[0]], floats);
        TrichotomyMembers(x, y, ks[1..], ls[1..], floats);
        assert ks == [ks[0]] + ks[1..] && ls == [ls[0]] + ls[1..];
      }
    }
  }

  /** `<=` is transitive, and strictly so as soon as one of the two steps is strict. */
  lemma {:induction false} Transitivity(x: Json, y: Json, z: Json, floats: bool)
    requires Orderly(x, floats) && Orderly(y, floats) && Orderly(z, floats)
    requires LessOrEqual(x, y) && LessOrEqual(y, z)
    ensures LessOrEqual(x, z)
    ensures Less(x, y) || Less(y, z) ==> Less(x, z)
    decreases x, 1, 0
  {
    hide Orderly, StringLess, LessItems, LessMembers, Sorted, NumberLess;
    match (x, y, z)
    case (Arr(_), Arr(_), Arr(_)) => TransitivityItems(x, y, z, 0, floats);
    case (Obj(m), Obj(n), Obj(o)) =>
      TransitivityMembers(x, y, z, Sorted(m.Keys), Sorted(n.Keys), Sorted(o.Keys), floats);
    case (Str(r), Str(s), Str(t)) => StringsTransitive(r, s, t);
    case _ => FlatTransitive(x, y, z, floats);
  }

  lemma StringsTransitive(r: string, s: string, t: string)
    requires !StringLess(s, r) && !StringLess(t, s)
    ensures !StringLess(t, r) && (StringLess(r, s) || StringLess(s, t) ==> StringLess(r, t))
  {
    hide StringLess;
    StringTrichotomy(r, s);
    StringTrichotomy(s, t);
    StringTrichotomy(r, t);
    if StringLess(r, s) && StringLess(s, t) {
      StringLessTransitive(r, s, t);
    }
  }

  lemma FlatTransitive(x: Json, y: Json, z: Json, floats: bool)
    requires Orderly(x, floats) && Orderly(y, floats) && Orderly(z, floats)
    requires !(x.Arr? && y.Arr? && z.Arr?) && !(x.Obj? && y.Obj? && z.Obj?) && !(x.Str? && y.Str? && z.Str?)
    requires LessOrEqual(x, y) && LessOrEqual(y, z)
    ensures LessOrEqual(x, z)
    ensures Less(x, y) || Less(y, z) ==> Less(x, z)
  {
    hide Less, Orderly, Equal;
    RankFirst(x, y);
    RankFirst(y, x);
    RankFirst(y, z);
    RankFirst(z, y);
    RankFirst(x, z);
    RankFirst(z, x);
    if IsNumber(x) && IsNumber(y) && IsNumber(z) {
      NumbersTransitive(x, y, z, floats);
    } else if Rank(KindOf(x)) == Rank(KindOf(y)) == Rank(KindOf(z)) {
      SimpleTransitive(x, y, z);
    }
  }

  lemma SimpleTransitive(x: Json, y: Json, z: Json)
    requires (x.Null? && y.Null? && z.Null?) || (x.Bool? && y.Bool? && z.Bool?)
    requires LessOrEqual(x, y) && LessOrEqual(y, z)
    ensures LessOrEqual(x, z) && (Less(x, y) || Less(y, z) ==> Less(x, z))
  {
  }

  lemma NumbersTransitive(x: Json, y: Json, z: Json, floats: bool)
    requires IsNumber(x) && IsNumber(y) && IsNumber(z)
    requires Orderly(x, floats) && Orderly(y, floats) && Orderly(z, floats)
    requires LessOrEqual(x, y) && LessOrEqual(y, z)
    ensures LessOrEqual(x, z) && (Less(x, y) || Less(y, z) ==> Less(x, z))
  {
    hide Less, NumberLess, Orderly;
    LessByValue(x, y, floats);
    LessByValue(y, x, floats);
    LessByValue(y, z, floats);
    LessByValue(z, y, floats);
    LessByValue(x, z, floats);
    LessByValue(z, x, floats);
  }

  lemma LessByValue(x: Json, y: Json, floats: bool)
    requires IsNumber(x) && IsNumber(y) && Orderly(x, floats) && Orderly(y, floats)
    ensures Less(x, y) <==> Exact(x) < Exact(y)
  {
    hide NumberLess, Orderly;
    NumbersInOrder(x, y, floats);
  }

  lemma {:induction false} TransitivityItems(x: Json, y: Json, z: Json, i: nat, floats: bool)
    requires x.Arr? && y.Arr? && z.Arr? && i <= |x.a| && i <= |y.a| && i <= |z.a|
    requires Orderly(x, floats) && Orderly(y, floats) && Orderly(z, floats)
    requires !LessItems(y, x, i) && !LessItems(z, y, i)
    ensures !LessItems(z, x, i)
    ensures LessItems(x, y, i) || LessItems(y, z, i) ==> LessItems(x, z, i)
    decreases x, 0, |x.a| - i
  {
    if i < |x.a| && i < |y.a| && i < |z.a| {
      Trichotomy(x.a[i], y.a[i], floats);
      Trichotomy(y.a[i], z.a[i], floats);
      Trichotomy(x.a[i], z.a[i], floats);
      Transitivity(x.a[i], y.a[i], z.a[i], floats);
      if !Less(x.a[i], y.a[i]) && !Less(y.a[i], z.a[i]) {
        TransitivityItems(x, y, z, i + 1, floats);
      }
    }
  }

  lemma {:induction false} TransitivityMembers(x: Json, y: Json, z: Json,
                                               ks: seq<string>, ls: seq<string>, ns: seq<string>, floats: bool)
    requires x.Obj? && y.Obj? && z.Obj?
    requires (forall k | k in ks :: k in x.m) && (forall l | l in ls :: l in y.m) && forall n | n in ns :: n in z.m
    requires Orderly(x, floats) && Orderly(y, floats) && Orderly(z, floats)
    requires !LessMembers(y, x, ls, ks) && !LessMembers(z, y, ns, ls)
    ensures !LessMembers(z, x, ns, ks)
    ensures LessMembers(x, y, ks, ls) || LessMembers(y, z, ls, ns) ==> LessMembers(x, z, ks, ns)
    decreases x, 0, |ks|
  {
    if ks != [] && ls != [] && ns != [] {
      StringTrichotomy(ks[0], ls[0]);
      StringTrichotomy(ls[0], ns[0]);
      StringTrichotomy(ks[0], ns[0]);
      if StringLess(ks[0], ls[0]) && StringLess(ls[0], ns[0]) {
        StringLessTransitive(ks[0], ls[0], ns[0]);
      } else if ks[0] == ls[0] == ns[0] {
        var u, v, w := x.m[ks[0]], y.m[ls[0]], z.m[ns[0]];
        Trichotomy(u, v, floats);
        Trichotomy(v, w, floats);
        Trichotomy(u, w, floats);
        Transitivity(u, v, w, floats);
        if !Less(u, v) && !Less(v, w) {
          TransitivityMembers(x, y, z, ks[1..], ls[1..], ns[1..], floats);
        }
      }
    }
  }

  /** On such values the six comparison operators are those of one total order. */
  lemma {:induction false} OperatorsAgree(x: Json, y: Json, floats: bool)
    requires Orderly(x, floats) && Orderly(y, floats)
    ensures LessOrEqual(x, y) <==> Less(x, y) || Equal(x, y)
    ensures Greater(x, y) <==> Less(y, x)
    ensures GreaterOrEqual(x, y) <==> Less(y, x) || Equal(x, y)
  {
    Trichotomy(x, y, floats);
    EqualSymmetric(x, y);
  }

  /** Without floats `==` is an equivalence, the wrapped unsigned numbers included. */
  lemma {:induction false} EqualTransitive(x: Json, y: Json, z: Json)
    requires Within(x, TWO_64 - 1) && Within(y, TWO_64 - 1) && Within(z, TWO_64 - 1)
    requires Equal(x, y) && Equal(y, z)
    ensures Equal(x, z)
  {
    if x.Arr? {
      forall i | 0 <= i < |x.a| ensures Equal(x.a[i], z.a[i]) {
        EqualTransitive(x.a[i], y.a[i], z.a[i]);
      }
    } else if x.Obj? {
      forall k | k in x.m ensures Equal(x.m[k], z.m[k]) {
        EqualTransitive(x.m[k], y.m[k], z.m[k]);
      }
    }
  }

  // ---------- How far the order reaches ----------

  /** `<` and `<=` order the three values as a strict weak order must. */
  predicate Ordered(x: Json, y: Json, z: Json) {
    && !(Less(x, y) && Less(y, x))
    && (Less(x, y) && Less(y, z) ==> Less(x, z))
    && (LessOrEqual(x, y) && LessOrEqual(y, z) ==> LessOrEqual(x, z))
  }

  lemma {:induction false} OrderlyAreOrdered(x: Json, y: Json, z: Json, floats: bool)
    requires Orderly(x, floats) && Orderly(y, floats) && Orderly(z, floats)
    ensures Ordered(x, y, z)
  {
    hide Less, Orderly;
    Trichotomy(x, y, floats);
    Trichotomy(y, z, floats);
    if LessOrEqual(x, y) && LessOrEqual(y, z) {
      Transitivity(x, y, z, floats);
    }
  }

  lemma {:induction false} SignedAreOrderly(x: Json, limit: nat)
    requires limit <= SIGNED_LIMIT && Within(x, limit)
    ensures Orderly(x, false)
  {
    match x
    case Arr(a) =>
      forall i | 0 <= i < |a| ensures Orderly(a[i], false) {
        SignedAreOrderly(a[i], limit);
      }
    case Obj(m) =>
      forall k | k in m ensures Orderly(m[k], false) {
        SignedAreOrderly(m[k], limit);
      }
    case _ =>
  }

  lemma {:induction false} DoublesAreOrderly(x: Json, limit: nat)
    requires limit <= TWO_53 && IntegersWithin(x, limit)
    ensures Orderly(x, true)
  {
    match x
    case Arr(a) =>
      forall i | 0 <= i < |a| ensures Orderly(a[i], true) {
        DoublesAreOrderly(a[i], limit);
      }
    case Obj(m) =>
      forall k | k in m ensures Orderly(m[k], true) {
        DoublesAreOrderly(m[k], limit);
      }
    case _ =>
  }

  /**
   The order holds on float-free values precisely up to unsigned numbers that fit a signed one:
   one step further the conversion wraps and transitivity is lost.
   */
  lemma OrderReachesExactlyTheSignedRange(limit: uint64)
    ensures (forall x, y, z | Within(x, limit) && Within(y, limit) && Within(z, limit) :: Ordered(x, y, z))
       <==> limit <= SIGNED_LIMIT
  {
    if limit <= SIGNED_LIMIT {
      forall x, y, z | Within(x, limit) && Within(y, limit) && Within(z, limit) ensures Ordered(x, y, z) {
        SignedAreOrderly(x, limit);
        SignedAreOrderly(y, limit);
        SignedAreOrderly(z, limit);
        OrderlyAreOrdered(x, y, z, false);
      }
    } else {
      var x, y, z := Uint(1), Uint(limit), Int(0);
      assert Within(x, limit) && Within(y, limit) && Within(z, limit);
      assert Less(x, y) && Less(y, z) && !Less(x, z);
      assert !Ordered(x, y, z);
    }
  }

  /** With floats allowed, it holds precisely as long as a double holds every integer exactly. */
  lemma OrderReachesExactlyTheDoubles(limit: uint64)
    ensures (forall x, y, z | IntegersWithin(x, limit) && IntegersWithin(y, limit) && IntegersWithin(z, limit) ::
               Ordered(x, y, z))
       <==> limit <= TWO_53
  {
    if limit <= TWO_53 {
      forall x, y, z | IntegersWithin(x, limit) && IntegersWithin(y, limit) && IntegersWithin(z, limit)
        ensures Ordered(x, y, z)
      {
        DoublesAreOrderly(x, limit);
        DoublesAreOrderly(y, limit);
        DoublesAreOrderly(z, limit);
        OrderlyAreOrdered(x, y, z, true);
      }
    } else {
      hide ToDouble;
      var x, y, z := Int(TWO_53 + 1), Float(LAST_EXACT), Int(TWO_53);
      DoubleIsExact(TWO_53);
      FirstRounded();
      assert IntegersWithin(x, limit) && IntegersWithin(y, limit) && IntegersWithin(z, limit);
      assert LessOrEqual(x, y) && LessOrEqual(y, z) && !LessOrEqual(x, z);
      assert !Ordered(x, y, z);
    }
  }
}
