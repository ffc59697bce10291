/**
 Which operations `diff` writes, and in which order: said by the places of the two values, apart from the
 recursion that writes them.
 */
module JsonDiffPlaces {
  import opened Decimal
  import opened JsonDiff
  import opened JsonPatch
  import opened JsonPointer
  import opened JsonValue
  import opened SortedKeys
  import opened Wrappers

  function TokenOf(at: Step): (token: string) {
    match at
    case Key(k) => k
    case Index(i) => ToString(i)
  }

  function PathOf(places: seq<Step>): (path: Path) {
    if places == [] then [] else [TokenOf(places[0])] + PathOf(places[1..])
  }

  predicate IsContainer(j: Json) {
    j.Arr? || j.Obj?
  }

  /** The place is below values of one kind. */
  predicate SharedParent(s: Json, t: Json, places: seq<Step>)
    requires places != []
  {
    var up := places[..|places| - 1];
    Sub(s, up).Some? && Sub(t, up).Some? && KindOf(Sub(s, up).value) == KindOf(Sub(t, up).value)
  }

  /**
   The operation that is due at a place: a replacement where both hold values that differ in kind, or unequal
   primitives; a removal where only the source holds one, an addition where only the target does, in both cases
   below parents of one kind.
   */
  function Due(s: Json, t: Json, places: seq<Step>): (op: Option<Op>) {
    match (Sub(s, places), Sub(t, places))
    case (Some(x), Some(y)) =>
      if !Equal(x, y) && (KindOf(x) != KindOf(y) || !IsContainer(x)) then Some(Replace(PathOf(places), y)) else None
    case (Some(_), None) => if SharedParent(s, t, places) then Some(Remove(PathOf(places))) else None
    case (None, Some(y)) => if SharedParent(s, t, places) then Some(Add(PathOf(places), y)) else None
    case (None, None) => None
  }

  // ---------- The order of the script ----------

  /** Common and added elements in ascending order, removed ones after them and in descending order. */
  function ScriptPosition(s: Json, t: Json, i: nat): (n: int)
    requires s.Arr? && t.Arr?
  {
    if i < |t.a| || |s.a| <= i then i else |s.a| + |t.a| - 1 - i
  }

  /** The members of the source first, then those that only the target has, both in key order. */
  predicate Sooner(s: Json, t: Json, x: Step, y: Step) {
    match (s, t, x, y)
    case (Arr(_), Arr(_), Index(i), Index(j)) => ScriptPosition(s, t, i) < ScriptPosition(s, t, j)
    case (Obj(m), Obj(_), Key(k), Key(l)) => if (k in m) != (l in m) then k in m else StringLess(k, l)
    case _ => false
  }

  /** Two places are ordered where they part, below values both have. */
  predicate Before(s: Json, t: Json, p: seq<Step>, q: seq<Step>)
    decreases |p|
  {
    && p != [] && q != []
    && if p[0] == q[0] then
         && HasChild(s, p[0]) && HasChild(t, p[0])
         && Before(Child(s, p[0]), Child(t, p[0]), p[1..], q[1..])
       else Sooner(s, t, p[0], q[0])
  }

  /** The operations are those due at the places, which are in order and miss none. */
  ghost predicate Lists(s: Json, t: Json, ops: seq<Op>, places: seq<seq<Step>>) {
    && |places| == |ops|
    && (forall i | 0 <= i < |ops| :: Due(s, t, places[i]) == Some(ops[i]))
    && (forall i, j | 0 <= i < j < |places| :: Before(s, t, places[i], places[j]))
    && (forall p | Due(s, t, p).Some? :: p in places)
  }

  // ---------- What is due below a child ----------

  lemma PathCons(at: Step, below: seq<Step>)
    ensures PathOf([at] + below) == [TokenOf(at)] + PathOf(below)
  {
    assert ([at] + below)[1..] == below;
  }

  lemma UpCons(at: Step, below: seq<Step>)
    requires below != []
    ensures ([at] + below)[..|[at] + below| - 1] == [at] + below[..|below| - 1]
  {
  }

  lemma DueBelow(s: Json, t: Json, at: Step, below: seq<Step>)
    requires HasChild(s, at) && HasChild(t, at)
    ensures Due(s, t, [at] + below) ==
      match Due(Child(s, at), Child(t, at), below)
      case None => None
      case Some(op) => Some(PrefixOp([TokenOf(at)], op))
  {
    hide Sub, Child, Equal, PathOf, TokenOf;
    SubCons(s, at, below);
    SubCons(t, at, below);
    PathCons(at, below);
    if below == [] {
      SubHere(Child(s, at));
      SubHere(Child(t, at));
    } else {
      UpCons(at, below);
      SubCons(s, at, below[..|below| - 1]);
      SubCons(t, at, below[..|below| - 1]);
    }
  }

  lemma SubHere(j: Json)
    ensures Sub(j, []) == Some(j)
  {
  }

  /** Below a child that only one of two values of one kind has, nothing is due but at the child itself. */
  lemma DueAtOne(s: Json, t: Json, at: Step, below: seq<Step>)
    requires KindOf(s) == KindOf(t) && HasChild(s, at) != HasChild(t, at)
    ensures Due(s, t, [at] + below) ==
      if below != [] then None
      else if HasChild(s, at) then Some(Remove([TokenOf(at)])) else Some(Add([TokenOf(at)], Child(t, at)))
  {
    hide Sub, Child, Equal, PathOf, TokenOf, KindOf;
    SubCons(s, at, below);
    SubCons(t, at, below);
    PathCons(at, below);
    if below == [] {
      SubHere(s);
      SubHere(t);
      if HasChild(s, at) {
        SubHere(Child(s, at));
      } else {
        SubHere(Child(t, at));
      }
      NoPath();
      assert ([at] + below)[..|[at] + below| - 1] == [];
      assert [TokenOf(at)] + [] == [TokenOf(at)];
    } else {
      UpCons(at, below);
      SubCons(s, at, below[..|below| - 1]);
      SubCons(t, at, below[..|below| - 1]);
    }
  }

  lemma NoPath()
    ensures PathOf([]) == []
  {
  }

  lemma DueNowhere(s: Json, t: Json, at: Step, below: seq<Step>)
    requires !HasChild(s, at) && !HasChild(t, at)
    ensures Due(s, t, [at] + below) == None
  {
    hide Sub, Child, Equal, PathOf;
    SubCons(s, at, below);
    SubCons(t, at, below);
  }

  lemma SameKind(s: Json, t: Json, at: Step)
    ensures HasChild(s, at) && HasChild(t, at) ==> KindOf(s) == KindOf(t) && IsContainer(s)
  {
  }

  lemma DueBelowKinds(s: Json, t: Json, at: Step, below: seq<Step>)
    requires KindOf(s) != KindOf(t)
    ensures Due(s, t, [at] + below) == None
  {
    hide Sub, Child, PathOf, KindOf, Equal;
    SameKind(s, t, at);
    SubCons(s, at, below);
    SubCons(t, at, below);
    if below == [] {
      SubHere(s);
      SubHere(t);
      assert ([at] + below)[..|[at] + below| - 1] == [];
    } else {
      UpCons(at, below);
      SubCons(s, at, below[..|below| - 1]);
      SubCons(t, at, below[..|below| - 1]);
    }
  }

  /** Values of different kinds are replaced as they are. */
  lemma DueForKinds(s: Json, t: Json, p: seq<Step>)
    requires KindOf(s) != KindOf(t) && !Equal(s, t)
    ensures Due(s, t, p) == if p == [] then Some(Replace([], t)) else None
  {
    if p == [] {
      KindsNotEqual(s, t);
    } else {
      hide Due;
      assert p == [p[0]] + p[1..];
      DueBelowKinds(s, t, p[0], p[1..]);
    }
  }

  lemma KindsNotEqual(s: Json, t: Json)
    requires KindOf(s) != KindOf(t) && !Equal(s, t)
    ensures Due(s, t, []) == Some(Replace([], t))
  {
    hide Equal;
  }

  lemma {:induction false} NothingDueForEqual(s: Json, t: Json, p: seq<Step>)
    requires Equal(s, t)
    ensures Due(s, t, p) == None
    decreases |p|
  {
    if p != [] {
      var at, below := p[0], p[1..];
      assert p == [at] + below;
      EqualChildren(s, t, at);
      if HasChild(s, at) {
        hide Equal;
        NothingDueForEqual(Child(s, at), Child(t, at), below);
        DueBelow(s, t, at, below);
      } else {
        DueNowhere(s, t, at, below);
      }
    }
  }

  lemma EqualChildren(s: Json, t: Json, at: Step)
    requires Equal(s, t)
    ensures HasChild(s, at) <==> HasChild(t, at)
    ensures HasChild(s, at) ==> Equal(Child(s, at), Child(t, at))
  {
  }

  /** Nothing is due at, above or below a place where the two values are equal. */
  lemma {:induction false} EqualPlaceUntouched(s: Json, t: Json, p: seq<Step>, q: seq<Step>)
    requires Sub(s, p).Some? && Sub(t, p).Some? && Equal(Sub(s, p).value, Sub(t, p).value)
    requires p <= q || q <= p
    ensures Due(s, t, q) == None
    decreases |p|
  {
    hide Equal;
    if p == [] {
      NothingDueForEqual(s, t, q);
    } else {
      var at := p[0];
      assert p == [at] + p[1..];
      if q == [] {
        SubHere(s);
        SubHere(t);
        SameKind(s, t, at);
      } else {
        assert q == [at] + q[1..];
        EqualPlaceUntouched(Child(s, at), Child(t, at), p[1..], q[1..]);
        DueBelow(s, t, at, q[1..]);
      }
    }
  }

  // ---------- Parts of a script: the operations below some children ----------

  ghost predicate AllDue(s: Json, t: Json, ops: seq<Op>, places: seq<seq<Step>>, steps: set<Step>) {
    && |places| == |ops|
    && forall i | 0 <= i < |ops| :: places[i] != [] && places[i][0] in steps && Due(s, t, places[i]) == Some(ops[i])
  }

  ghost predicate InOrder(s: Json, t: Json, places: seq<seq<Step>>) {
    forall i, j | 0 <= i < j < |places| :: Before(s, t, places[i], places[j])
  }

  ghost predicate NoneMissing(s: Json, t: Json, places: seq<seq<Step>>, steps: set<Step>) {
    forall p | p != [] && p[0] in steps && Due(s, t, p).Some? :: p in places
  }

  ghost predicate Part(s: Json, t: Json, ops: seq<Op>, places: seq<seq<Step>>, steps: set<Step>) {
    AllDue(s, t, ops, places, steps) && InOrder(s, t, places) && NoneMissing(s, t, places, steps)
  }

  lemma NoPart(s: Json, t: Json)
    ensures Part(s, t, [], [], {})
  {
  }

  lemma SoonerBefore(s: Json, t: Json, p: seq<Step>, q: seq<Step>)
    requires p != [] && q != [] && p[0] != q[0] && Sooner(s, t, p[0], q[0])
    ensures Before(s, t, p, q)
  {
  }

  lemma Join(s: Json, t: Json, ops: seq<Op>, places: seq<seq<Step>>, steps: set<Step>,
             more: seq<Op>, further: seq<seq<Step>>, others: set<Step>)
    requires Part(s, t, ops, places, steps) && Part(s, t, more, further, others)
    requires forall x, y | x in steps && y in others :: x != y && Sooner(s, t, x, y)
    ensures Part(s, t, ops + more, places + further, steps + others)
  {
    hide AllDue, InOrder, NoneMissing, Sooner;
    JoinDue(s, t, ops, places, steps, more, further, others);
    JoinOrder(s, t, ops, places, steps, more, further, others);
    JoinComplete(s, t, places, steps, further, others);
  }

  lemma JoinDue(s: Json, t: Json, ops: seq<Op>, places: seq<seq<Step>>, steps: set<Step>,
                more: seq<Op>, further: seq<seq<Step>>, others: set<Step>)
    requires AllDue(s, t, ops, places, steps) && AllDue(s, t, more, further, others)
    ensures AllDue(s, t, ops + more, places + further, steps + others)
  {
    hide Due;
  }

  lemma JoinComplete(s: Json, t: Json, places: seq<seq<Step>>, steps: set<Step>,
                     further: seq<seq<Step>>, others: set<Step>)
    requires NoneMissing(s, t, places, steps) && NoneMissing(s, t, further, others)
    ensures NoneMissing(s, t, places + further, steps + others)
  {
    hide Due;
    forall p | p != [] && p[0] in steps + others && Due(s, t, p).Some? ensures p in places + further {
      assert p in places || p in further;
    }
  }

  lemma JoinOrder(s: Json, t: Json, ops: seq<Op>, places: seq<seq<Step>>, steps: set<Step>,
                  more: seq<Op>, further: seq<seq<Step>>, others: set<Step>)
    requires AllDue(s, t, ops, places, steps) && AllDue(s, t, more, further, others)
    requires InOrder(s, t, places) && InOrder(s, t, further)
    requires forall x, y | x in steps && y in others :: x != y && Sooner(s, t, x, y)
    ensures InOrder(s, t, places + further)
  {
    hide Sooner, Before, Due;
    var all := places + further;
    forall i, j | 0 <= i < j < |all| ensures Before(s, t, all[i], all[j]) {
      if i < |places| && |places| <= j {
        assert all[i] == places[i] && all[j] == further[j - |places|];
        SoonerBefore(s, t, all[i], all[j]);
      } else if |places| <= i {
        assert all[i] == further[i - |places|] && all[j] == further[j - |places|];
      }
    }
  }

  function Below(at: Step, places: seq<seq<Step>>): (r: seq<seq<Step>>)
    ensures |r| == |places| && forall i | 0 <= i < |r| :: r[i] == [at] + places[i]
  {
    seq(|places|, i requires 0 <= i < |places| => [at] + places[i])
  }

  lemma {:induction false} PrefixedAt(path: Path, ops: seq<Op>, i: nat)
    requires i < |ops|
    ensures Prefixed(path, ops)[i] == PrefixOp(path, ops[i])
    decreases |ops|
  {
    hide PrefixOp;
    if i > 0 {
      PrefixedAt(path, ops[1..], i - 1);
    }
  }

  lemma BeforeBelow(s: Json, t: Json, at: Step, p: seq<Step>, q: seq<Step>)
    requires HasChild(s, at) && HasChild(t, at) && Before(Child(s, at), Child(t, at), p, q)
    ensures Before(s, t, [at] + p, [at] + q)
  {
    hide Child;
    assert ([at] + p)[1..] == p && ([at] + q)[1..] == q;
  }

  /** A common child: its script, moved below it. */
  lemma CommonPart(s: Json, t: Json, at: Step, ops: seq<Op>, places: seq<seq<Step>>)
    requires HasChild(s, at) && HasChild(t, at) && Lists(Child(s, at), Child(t, at), ops, places)
    ensures Part(s, t, Prefixed([TokenOf(at)], ops), Below(at, places), {at})
  {
    hide Due, Before, Child, TokenOf, PrefixOp, Prefixed;
    var moved, below := Prefixed([TokenOf(at)], ops), Below(at, places);
    forall i | 0 <= i < |moved| ensures Due(s, t, below[i]) == Some(moved[i]) {
      PrefixedAt([TokenOf(at)], ops, i);
      DueBelow(s, t, at, places[i]);
    }
    forall i, j | 0 <= i < j < |below| ensures Before(s, t, below[i], below[j]) {
      BeforeBelow(s, t, at, places[i], places[j]);
    }
    forall p | p != [] && p[0] in {at} && Due(s, t, p).Some? ensures p in below {
      CommonMisses(s, t, at, ops, places, p);
    }
  }

  lemma CommonMisses(s: Json, t: Json, at: Step, ops: seq<Op>, places: seq<seq<Step>>, p: seq<Step>)
    requires HasChild(s, at) && HasChild(t, at) && Lists(Child(s, at), Child(t, at), ops, places)
    requires p != [] && p[0] == at && Due(s, t, p).Some?
    ensures p in Below(at, places)
  {
    hide Due, Before, Child, TokenOf, PrefixOp;
    assert p == [at] + p[1..];
    DueBelow(s, t, at, p[1..]);
    var i :| 0 <= i < |places| && places[i] == p[1..];
    assert Below(at, places)[i] == p;
  }

  /** A child of one of the two. */
  lemma OnePart(s: Json, t: Json, at: Step)
    requires KindOf(s) == KindOf(t) && HasChild(s, at) != HasChild(t, at)
    ensures Part(s, t, [if HasChild(s, at) then Remove([TokenOf(at)]) else Add([TokenOf(at)], Child(t, at))],
                 [[at]], {at})
  {
    hide Due, Before, Child, TokenOf, KindOf;
    assert [at] + [] == [at];
    DueAtOne(s, t, at, []);
    forall p | p != [] && p[0] in {at} && Due(s, t, p).Some? ensures p in [[at]] {
      assert p == [at] + p[1..];
      DueAtOne(s, t, at, p[1..]);
    }
  }

  // ---------- Arrays ----------

  lemma {:induction false} ItemsPart(s: Json, t: Json, i: nat) returns (places: seq<seq<Step>>, steps: set<Step>)
    requires s.Arr? && t.Arr?
    ensures Part(s, t, DiffItems(s, t, i), places, steps)
    ensures forall x :: x in steps <==> x.Index? && i <= x.i < |s.a| && x.i < |t.a|
    decreases s, 0, |s.a| - i
  {
    hide Part, Diff, Prefixed, ToString, Lists;
    if i < |s.a| && i < |t.a| {
      var at := Index(i);
      assert Child(s, at) == s.a[i] && Child(t, at) == t.a[i] && TokenOf(at) == ToString(i);
      var first := DiffLists(s.a[i], t.a[i]);
      CommonPart(s, t, at, Diff(s.a[i], t.a[i]), first);
      var rest, others := ItemsPart(s, t, i + 1);
      Join(s, t, Prefixed([ToString(i)], Diff(s.a[i], t.a[i])), Below(at, first), {at},
           DiffItems(s, t, i + 1), rest, others);
      places, steps := Below(at, first) + rest, {at} + others;
    } else {
      NoPart(s, t);
      places, steps := [], {};
    }
  }

  lemma {:induction false} RemovedPart(s: Json, t: Json, size: nat) returns (places: seq<seq<Step>>, steps: set<Step>)
    requires s.Arr? && t.Arr? && size <= |s.a|
    ensures Part(s, t, RemoveTail(size, |t.a|), places, steps)
    ensures forall x :: x in steps <==> x.Index? && |t.a| <= x.i < size
    decreases size
  {
    hide Part, ToString;
    if size <= |t.a| {
      NoPart(s, t);
      places, steps := [], {};
    } else {
      var at := Index(size - 1);
      assert TokenOf(at) == ToString(size - 1);
      OnePart(s, t, at);
      var rest, others := RemovedPart(s, t, size - 1);
      Join(s, t, [Remove([ToString(size - 1)])], [[at]], {at}, RemoveTail(size - 1, |t.a|), rest, others);
      places, steps := [[at]] + rest, {at} + others;
    }
  }

  lemma {:induction false} AddedPart(s: Json, t: Json, i: nat) returns (places: seq<seq<Step>>, steps: set<Step>)
    requires s.Arr? && t.Arr? && |s.a| <= i
    ensures Part(s, t, AddTail(t.a, i), places, steps)
    ensures forall x :: x in steps <==> x.Index? && i <= x.i < |t.a|
    decreases |t.a| - i
  {
    hide Part, ToString;
    if |t.a| <= i {
      NoPart(s, t);
      places, steps := [], {};
    } else {
      var at := Index(i);
      assert TokenOf(at) == ToString(i) && Child(t, at) == t.a[i];
      OnePart(s, t, at);
      var rest, others := AddedPart(s, t, i + 1);
      Join(s, t, [Add([ToString(i)], t.a[i])], [[at]], {at}, AddTail(t.a, i + 1), rest, others);
      places, steps := [[at]] + rest, {at} + others;
    }
  }

  lemma {:induction false} ArrayLists(s: Json, t: Json) returns (places: seq<seq<Step>>)
    requires s.Arr? && t.Arr? && !Equal(s, t)
    ensures Lists(s, t, Diff(s, t), places)
    decreases s, 0, |s.a| + 1
  {
    hide Part, Equal, DiffItems, RemoveTail, AddTail;
    var items, common := ItemsPart(s, t, 0);
    var removes, gone := RemovedPart(s, t, |s.a|);
    var adds, added := AddedPart(s, t, |s.a|);
    var ops := DiffItems(s, t, 0) + RemoveTail(|s.a|, |t.a|);
    Join(s, t, DiffItems(s, t, 0), items, common, RemoveTail(|s.a|, |t.a|), removes, gone);
    Join(s, t, ops, items + removes, common + gone, AddTail(t.a, |s.a|), adds, added);
    places := items + removes + adds;
    WholePart(s, t, ops + AddTail(t.a, |s.a|), places, common + gone + added);
  }

  lemma DueHasChild(s: Json, t: Json, p: seq<Step>)
    requires p != []
    ensures Due(s, t, p).Some? ==> HasChild(s, p[0]) || HasChild(t, p[0])
  {
    hide Due, Child;
    if !HasChild(s, p[0]) && !HasChild(t, p[0]) {
      assert p == [p[0]] + p[1..];
      DueNowhere(s, t, p[0], p[1..]);
    }
  }

  /** A part for all children of two unequal values of one kind is the whole script. */
  lemma WholePart(s: Json, t: Json, ops: seq<Op>, places: seq<seq<Step>>, steps: set<Step>)
    requires KindOf(s) == KindOf(t) && IsContainer(s) && Part(s, t, ops, places, steps)
    requires forall x | HasChild(s, x) || HasChild(t, x) :: x in steps
    ensures Lists(s, t, ops, places)
  {
    hide Before, Equal, KindOf;
    forall p | Due(s, t, p).Some? ensures p in places {
      if p == [] {
        SubHere(s);
        SubHere(t);
      } else {
        DueHasChild(s, t, p);
      }
    }
  }

  // ---------- Objects ----------

  lemma {:induction false} MembersPart(s: Json, t: Json, ks: seq<string>)
    returns (places: seq<seq<Step>>, steps: set<Step>)
    requires s.Obj? && t.Obj? && Ascending(ks) && forall k | k in ks :: k in s.m
    ensures Part(s, t, DiffMembers(s, t, ks), places, steps)
    ensures forall x :: x in steps <==> x.Key? && x.k in ks
    decreases s, 0, |ks|
  {
    hide Part, Diff, Prefixed, Lists, StringLess, PrefixOp;
    if ks == [] {
      NoPart(s, t);
      places, steps := [], {};
    } else {
      var k, later := ks[0], ks[1..];
      var at := Key(k);
      AscendingIsDistinct(ks);
      assert forall l :: l in ks <==> l == k || l in later;
      assert Child(s, at) == s.m[k] && TokenOf(at) == k;
      var first: seq<seq<Step>> := [[at]];
      var ops := [Remove([k])];
      if k in t.m {
        assert Child(t, at) == t.m[k];
        var inner := DiffLists(s.m[k], t.m[k]);
        CommonPart(s, t, at, Diff(s.m[k], t.m[k]), inner);
        first, ops := Below(at, inner), Prefixed([k], Diff(s.m[k], t.m[k]));
      } else {
        OnePart(s, t, at);
      }
      var rest, others := MembersPart(s, t, later);
      Join(s, t, ops, first, {at}, DiffMembers(s, t, later), rest, others);
      places, steps := first + rest, {at} + others;
    }
  }

  lemma {:induction false} NewMembersPart(s: Json, t: Json, ks: seq<string>)
    returns (places: seq<seq<Step>>, steps: set<Step>)
    requires s.Obj? && t.Obj? && Ascending(ks) && forall k | k in ks :: k in t.m
    ensures Part(s, t, AddMembers(s, t, ks), places, steps)
    ensures forall x :: x in steps <==> x.Key? && x.k in ks && x.k !in s.m
    decreases |ks|
  {
    hide Part, StringLess;
    if ks == [] {
      NoPart(s, t);
      places, steps := [], {};
    } else {
      var k, later := ks[0], ks[1..];
      var at := Key(k);
      AscendingIsDistinct(ks);
      assert forall l :: l in ks <==> l == k || l in later;
      var rest, others := NewMembersPart(s, t, later);
      if k in s.m {
        places, steps := rest, others;
        assert [] + AddMembers(s, t, later) == AddMembers(s, t, later);
      } else {
        assert Child(t, at) == t.m[k] && TokenOf(at) == k;
        OnePart(s, t, at);
        Join(s, t, [Add([k], t.m[k])], [[at]], {at}, AddMembers(s, t, later), rest, others);
        places, steps := [[at]] + rest, {at} + others;
      }
    }
  }

  lemma {:induction false} ObjectLists(s: Json, t: Json) returns (places: seq<seq<Step>>)
    requires s.Obj? && t.Obj? && !Equal(s, t)
    ensures Lists(s, t, Diff(s, t), places)
    decreases s, 0, |Sorted(s.m.Keys)| + 1
  {
    hide Part, Equal, DiffMembers, AddMembers, Sorted;
    var ks, ls := Sorted(s.m.Keys), Sorted(t.m.Keys);
    var members, kept := MembersPart(s, t, ks);
    var additions, added := NewMembersPart(s, t, ls);
    Join(s, t, DiffMembers(s, t, ks), members, kept, AddMembers(s, t, ls), additions, added);
    places := members + additions;
    WholePart(s, t, DiffMembers(s, t, ks) + AddMembers(s, t, ls), places, kept + added);
  }

  // ---------- The script ----------

  /** `diff` writes exactly the operations that are due, each once and in order. */
  lemma {:induction false} DiffLists(s: Json, t: Json) returns (places: seq<seq<Step>>)
    ensures Lists(s, t, Diff(s, t), places)
    decreases s, 1, 0
  {
    hide Due, Before, Equal;
    if Equal(s, t) {
      places := [];
      forall p ensures Due(s, t, p) == None {
        NothingDueForEqual(s, t, p);
      }
    } else if KindOf(s) != KindOf(t) {
      places := [[]];
      forall p ensures Due(s, t, p) == if p == [] then Some(Replace([], t)) else None {
        DueForKinds(s, t, p);
      }
    } else if s.Arr? {
      places := ArrayLists(s, t);
    } else if s.Obj? {
      places := ObjectLists(s, t);
    } else {
      places := [[]];
      forall p ensures Due(s, t, p) == if p == [] then Some(Replace([], t)) else None {
        DueForPrimitives(s, t, p);
      }
    }
  }

  lemma DueForPrimitives(s: Json, t: Json, p: seq<Step>)
    requires !Equal(s, t) && !IsContainer(s) && !IsContainer(t)
    ensures Due(s, t, p) == if p == [] then Some(Replace([], t)) else None
  {
    hide Equal;
    if p != [] {
      assert p == [p[0]] + p[1..];
      DueNowhere(s, t, p[0], p[1..]);
    }
  }

  // ---------- There is only one such list ----------

  lemma {:induction false} BeforeIsAsymmetric(s: Json, t: Json, p: seq<Step>, q: seq<Step>)
    requires Before(s, t, p, q)
    ensures !Before(s, t, q, p)
    decreases |p|
  {
    if p[0] == q[0] {
      BeforeIsAsymmetric(Child(s, p[0]), Child(t, p[0]), p[1..], q[1..]);
    } else {
      hide Before, StringLess;
      if p[0].Key? && q[0].Key? {
        StringTrichotomy(p[0].k, q[0].k);
      }
    }
  }

  lemma EmptyTogether<T>(p: seq<T>, q: seq<T>)
    requires forall x :: x in p <==> x in q
    ensures p == [] <==> q == []
  {
    if p != [] {
      assert p[0] in q;
    }
    if q != [] {
      assert q[0] in p;
    }
  }

  lemma {:induction false} SamePlaces(s: Json, t: Json, p: seq<seq<Step>>, q: seq<seq<Step>>)
    requires forall x :: x in p <==> x in q
    requires forall i, j | 0 <= i < j < |p| :: Before(s, t, p[i], p[j])
    requires forall i, j | 0 <= i < j < |q| :: Before(s, t, q[i], q[j])
    ensures p == q
    decreases |p|
  {
    hide Before;
    EmptyTogether(p, q);
    if p != [] {
      forall x, y | Before(s, t, x, y) ensures !Before(s, t, y, x) {
        BeforeIsAsymmetric(s, t, x, y);
      }
      assert p[0] in q && q[0] in p;
      assert p[0] == q[0];
      assert forall x | x in p[1..] :: x in q && x != p[0];
      assert forall x | x in q[1..] :: x in p && x != q[0];
      SamePlaces(s, t, p[1..], q[1..]);
    }
  }

  /** Any list of the due operations in this order is the script. */
  lemma {:induction false} OnlyTheScript(s: Json, t: Json, ops: seq<Op>, places: seq<seq<Step>>)
    requires Lists(s, t, ops, places)
    ensures ops == Diff(s, t)
  {
    hide Before, Due, Diff;
    var script := DiffLists(s, t);
    assert forall x | x in places :: Due(s, t, x).Some?;
    assert forall x | x in script :: Due(s, t, x).Some?;
    SamePlaces(s, t, places, script);
    assert |ops| == |Diff(s, t)|;
    forall i | 0 <= i < |ops| ensures ops[i] == Diff(s, t)[i] {
    }
  }
}
