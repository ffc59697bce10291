/** `diff`: the edit script from one value to another, and what applying it does. */
module JsonDiff {
  import opened Decimal
  import opened JsonPatch
  import opened JsonPointer
  import opened JsonValue
  import opened SortedKeys
  import opened Wrappers

  // ---------- The script ----------

  /** The operations `diff` emits: none touches the root except `replace`. */
  predicate IsEdit(op: Op) {
    op.Replace? || ((op.Add? || op.Remove?) && op.path != [])
  }

  function PrefixOp(path: Path, op: Op): (r: Op) {
    match op
    case Add(below, v) => Add(path + below, v)
    case Remove(below) => Remove(path + below)
    case Replace(below, v) => Replace(path + below, v)
    case Move(below, from) => Move(path + below, path + from)
    case Copy(below, from) => Copy(path + below, path + from)
    case Test(below, v) => Test(path + below, v)
  }

  function Prefixed(path: Path, ops: seq<Op>): (r: seq<Op>)
    ensures |r| == |ops|
  {
    if ops == [] then [] else [PrefixOp(path, ops[0])] + Prefixed(path, ops[1..])
  }

  function Diff(s: Json, t: Json): (ops: seq<Op>)
    decreases s, 1, 0
  {
    if Equal(s, t) then []
    else if KindOf(s) != KindOf(t) then [Replace([], t)]
    else
      match s
      case Arr(a) => DiffItems(s, t, 0) + RemoveTail(|a|, |t.a|) + AddTail(t.a, |a|)
      case Obj(m) => DiffMembers(s, t, Sorted(m.Keys)) + AddMembers(s, t, Sorted(t.m.Keys))
      case _ => [Replace([], t)]
  }

  /** The common elements from index `i` on. */
  function DiffItems(s: Json, t: Json, i: nat): (ops: seq<Op>)
    requires s.Arr? && t.Arr?
    decreases s, 0, |s.a| - i
  {
    if i < |s.a| && i < |t.a| then Prefixed([ToString(i)], Diff(s.a[i], t.a[i])) + DiffItems(s, t, i + 1) else []
  }

  /** The elements of the source at `keep` and beyond, removed from the highest index down. */
  function RemoveTail(size: nat, keep: nat): (ops: seq<Op>) {
    if size <= keep then [] else [Remove([ToString(size - 1)])] + RemoveTail(size - 1, keep)
  }

  /** The elements of the target from index `i` on, appended one by one. */
  function AddTail(b: seq<Json>, i: nat): (ops: seq<Op>)
    decreases |b| - i
  {
    if |b| <= i then [] else [Add([ToString(i)], b[i])] + AddTail(b, i + 1)
  }

  /** The members of the source, in the order of `ks`: compared, or removed when the target has none. */
  function DiffMembers(s: Json, t: Json, ks: seq<string>): (ops: seq<Op>)
    requires s.Obj? && t.Obj? && forall k | k in ks :: k in s.m
    decreases s, 0, |ks|
  {
    if ks == [] then []
    else
      var k := ks[0];
      (if k in t.m then Prefixed([k], Diff(s.m[k], t.m[k])) else [Remove([k])]) + DiffMembers(s, t, ks[1..])
  }

  /** The members of the target that the source lacks. */
  function AddMembers(s: Json, t: Json, ks: seq<string>): (ops: seq<Op>)
    requires s.Obj? && t.Obj? && forall k | k in ks :: k in t.m
  {
    if ks == [] then []
    else (if ks[0] in s.m then [] else [Add([ks[0]], t.m[ks[0]])]) + AddMembers(s, t, ks[1..])
  }

  // ---------- What it should produce, and when it can ----------

  /** The source with exactly the differing parts taken from the target. */
  function Patched(s: Json, t: Json): (r: Json)
    decreases s
  {
    if Equal(s, t) then s
    else if KindOf(s) != KindOf(t) then t
    else
      match s
      case Arr(a) => Arr(seq(|t.a|, i requires 0 <= i < |t.a| => if i < |a| then Patched(a[i], t.a[i]) else t.a[i]))
      case Obj(m) => Obj(map k | k in t.m :: if k in m then Patched(m[k], t.m[k]) else t.m[k])
      case _ => t
  }

  lemma {:induction false} PatchedEqualsTarget(s: Json, t: Json)
    ensures Equal(Patched(s, t), t)
  {
    EqualReflexive(t);
    if !Equal(s, t) && KindOf(s) == KindOf(t) {
      match s
      case Arr(a) =>
        forall i | 0 <= i < |t.a| ensures Equal(Patched(s, t).a[i], t.a[i]) {
          if i < |a| {
            PatchedEqualsTarget(a[i], t.a[i]);
          }
        }
      case Obj(m) =>
        forall k | k in t.m ensures Equal(Patched(s, t).m[k], t.m[k]) {
          if k in m {
            PatchedEqualsTarget(m[k], t.m[k]);
          }
        }
      case _ =>
    }
  }

  /** The common elements from index `i` on fit, and those that differ are at an index that fits. */
  predicate ItemsFit(s: Json, t: Json, i: nat)
    requires s.Arr? && t.Arr?
    decreases s, 0
  {
    forall j | i <= j < |s.a| && j < |t.a| :: Fits(s.a[j], t.a[j]) && (Equal(s.a[j], t.a[j]) || j <= INT_MAX)
  }

  predicate MembersFit(s: Json, t: Json, ks: seq<string>)
    requires s.Obj? && t.Obj? && forall k | k in ks :: k in s.m
    decreases s, 0
  {
    forall k | k in ks && k in t.m :: Fits(s.m[k], t.m[k])
  }

  /** Every array index at which the two values differ can be held by an `int`. */
  predicate Fits(s: Json, t: Json)
    decreases s, 1
  {
    if Equal(s, t) || KindOf(s) != KindOf(t) then true
    else
      match s
      case Arr(a) => ItemsFit(s, t, 0) && (|a| == |t.a| || (|a| <= INT_MAX + 1 && |t.a| <= INT_MAX + 1))
      case Obj(m) => MembersFit(s, t, Sorted(m.Keys))
      case _ => true
  }

  // ---------- Running scripts with an `add` that creates nothing ----------

  function ApplyStrict(doc: Json, op: Op): (r: Result<Json, Error>) {
    if op.Add? then AddChecked(doc, op.path, op.value) else Apply(doc, op)
  }

  function RunStrict(doc: Json, ops: seq<Op>): (r: Result<Json, Error>)
    decreases |ops|
  {
    if ops == [] then Ok(doc)
    else
      var next :- ApplyStrict(doc, ops[0]);
      RunStrict(next, ops[1..])
  }

  function Then(r: Result<Json, Error>, ops: seq<Op>): (result: Result<Json, Error>) {
    if r.Ok? then RunStrict(r.value, ops) else r
  }

  lemma {:induction false} StrictAppends(doc: Json, first: seq<Op>, second: seq<Op>)
    ensures RunStrict(doc, first + second) == Then(RunStrict(doc, first), second)
    decreases |first|
  {
    if first == [] {
      assert first + second == second;
    } else {
      assert (first + second)[1..] == first[1..] + second;
      if ApplyStrict(doc, first[0]).Ok? {
        StrictAppends(ApplyStrict(doc, first[0]).value, first[1..], second);
      }
    }
  }

  lemma StrictOne(doc: Json, op: Op)
    ensures RunStrict(doc, [op]) == ApplyStrict(doc, op)
  {
  }

  lemma StrictCons(doc: Json, op: Op, rest: seq<Op>)
    ensures RunStrict(doc, [op] + rest) == Then(ApplyStrict(doc, op), rest)
  {
  }

  /** The result of an edit of the value at `path`, put back into the document. */
  function PutBack(doc: Json, path: Path, r: Result<Json, Error>): (result: Result<Json, Error>) {
    if r.Ok? then EditAt(doc, path, Assign(r.value)) else r
  }

  lemma StrictBelowOne(doc: Json, path: Path, op: Op)
    requires IsEdit(op) && At(doc, path).Ok?
    ensures ApplyStrict(doc, PrefixOp(path, op)) == PutBack(doc, path, ApplyStrict(At(doc, path).value, op))
  {
    if op.Replace? {
      EditBelow(doc, path, op.path, Assign(op.value));
    } else {
      var full := path + op.path;
      assert Parent(full) == path + Parent(op.path) && Last(full) == Last(op.path);
      var token := Last(op.path);
      EditBelow(doc, path, Parent(op.path), if op.Add? then InsertChild(token, op.value) else EraseChild(token));
    }
  }

  /** Frame: a script moved below `path` edits the value there as the script edits it alone, and nothing else. */
  lemma {:induction false} StrictBelow(doc: Json, path: Path, ops: seq<Op>)
    requires At(doc, path).Ok? && forall op | op in ops :: IsEdit(op)
    ensures RunStrict(doc, Prefixed(path, ops)) == PutBack(doc, path, RunStrict(At(doc, path).value, ops))
    decreases |ops|
  {
    var sub := At(doc, path).value;
    EditBelow(doc, path, [], Assign(Null));
    if ops != [] {
      StrictBelowOne(doc, path, ops[0]);
      assert Prefixed(path, ops)[1..] == Prefixed(path, ops[1..]);
      var next := ApplyStrict(sub, ops[0]);
      if next.Ok? {
        EditTwice(doc, path, next.value, Assign(Null));
        var moved := EditAt(doc, path, Assign(next.value)).value;
        StrictBelow(moved, path, ops[1..]);
        var last := RunStrict(next.value, ops[1..]);
        if last.Ok? {
          EditTwice(doc, path, next.value, Assign(last.value));
        }
      }
    }
  }

  /** A script below a token that does not resolve fails at its first operation. */
  lemma StrictUnresolved(doc: Json, token: string, ops: seq<Op>)
    requires Resolve(doc, token).Err? && ops != [] && IsEdit(ops[0])
    ensures RunStrict(doc, Prefixed([token], ops)) == Err(Resolve(doc, token).error)
  {
  }

  lemma EditToken(doc: Json, token: string, v: Json)
    requires Resolve(doc, token).Ok?
    ensures At(doc, [token]) == Ok(Child(doc, Resolve(doc, token).value))
    ensures EditAt(doc, [token], Assign(v)) == Ok(WithChild(doc, Resolve(doc, token).value, v))
  {
  }

  lemma StrictBelowToken(doc: Json, token: string, ops: seq<Op>)
    requires ops != [] && forall op | op in ops :: IsEdit(op)
    ensures Resolve(doc, token).Err? ==> RunStrict(doc, Prefixed([token], ops)) == Err(Resolve(doc, token).error)
    ensures Resolve(doc, token).Ok? ==>
      var at := Resolve(doc, token).value;
      var r := RunStrict(Child(doc, at), ops);
      RunStrict(doc, Prefixed([token], ops)) == if r.Ok? then Ok(WithChild(doc, at, r.value)) else r
  {
    hide Resolve, RunStrict, Prefixed, WithChild, At, EditAt;
    if Resolve(doc, token).Ok? {
      var at := Resolve(doc, token).value;
      EditToken(doc, token, Null);
      StrictBelow(doc, [token], ops);
      var r := RunStrict(Child(doc, at), ops);
      if r.Ok? {
        EditToken(doc, token, r.value);
      }
    } else {
      StrictUnresolved(doc, token, ops);
    }
  }

  // ---------- The parts of a script ----------

  function Outcome(fits: bool, r: Json): (result: Result<Json, Error>) {
    if fits then Ok(r) else Err(StdOutOfRange)
  }

  lemma ResolveIndex(a: seq<Json>, i: nat)
    requires i < |a|
    ensures Resolve(Arr(a), ToString(i)) == if i <= INT_MAX then Ok(Index(i)) else Err(StdOutOfRange)
  {
    IndexToken(i);
  }

  /** A one-token pointer addresses a child of the root. */
  lemma StrictAtRoot(doc: Json, token: string, v: Json)
    ensures ApplyStrict(doc, Remove([token])) == Erase(doc, token)
    ensures ApplyStrict(doc, Add([token], v)) == Insert(doc, token, v)
  {
  }

  lemma RemoveLast(a: seq<Json>)
    requires a != []
    ensures ApplyStrict(Arr(a), Remove([ToString(|a| - 1)])) == Outcome(|a| <= INT_MAX + 1, Arr(a[..|a| - 1]))
  {
    hide ToString, ArrayIndex, ApplyStrict;
    var i := |a| - 1;
    IndexToken(i);
    StrictAtRoot(Arr(a), ToString(i), Null);
    assert a[..i] + a[i + 1..] == a[..i];
  }

  lemma AddLast(a: seq<Json>, v: Json)
    ensures ApplyStrict(Arr(a), Add([ToString(|a|)], v)) == Outcome(|a| <= INT_MAX, Arr(a + [v]))
  {
    hide ToString, ArrayIndex, ApplyStrict;
    IndexToken(|a|);
    StrictAtRoot(Arr(a), ToString(|a|), v);
    assert a[..|a|] + [v] + a[|a|..] == a + [v];
  }

  lemma RemoveMember(m: map<string, Json>, k: string)
    requires k in m
    ensures ApplyStrict(Obj(m), Remove([k])) == Ok(Obj(m - {k}))
  {
    StrictAtRoot(Obj(m), k, Null);
  }

  lemma AddMember(m: map<string, Json>, k: string, v: Json)
    ensures ApplyStrict(Obj(m), Add([k], v)) == Ok(Obj(m[k := v]))
  {
    StrictAtRoot(Obj(m), k, v);
  }

  lemma {:induction false} RemoveTailRuns(a: seq<Json>, keep: nat)
    requires keep <= |a|
    ensures RunStrict(Arr(a), RemoveTail(|a|, keep)) == Outcome(|a| == keep || |a| <= INT_MAX + 1, Arr(a[..keep]))
    decreases |a|
  {
    hide ApplyStrict, ToString;
    if |a| == keep {
      assert a[..keep] == a;
    } else {
      var i := |a| - 1;
      RemoveLast(a);
      StrictCons(Arr(a), Remove([ToString(i)]), RemoveTail(i, keep));
      RemoveTailRuns(a[..i], keep);
      assert a[..i][..keep] == a[..keep];
    }
  }

  lemma {:induction false} AddTailRuns(a: seq<Json>, b: seq<Json>)
    requires |a| <= |b|
    ensures RunStrict(Arr(a), AddTail(b, |a|)) == Outcome(|a| == |b| || |b| <= INT_MAX + 1, Arr(a + b[|a|..]))
    decreases |b| - |a|
  {
    hide ApplyStrict, ToString;
    var i := |a|;
    if i == |b| {
      assert a + b[i..] == a;
    } else {
      AddLast(a, b[i]);
      StrictCons(Arr(a), Add([ToString(i)], b[i]), AddTail(b, i + 1));
      AddTailRuns(a + [b[i]], b);
      assert a + [b[i]] + b[i + 1..] == a + b[i..];
    }
  }

  function AfterItems(s: Json, t: Json, a: seq<Json>, i: nat): (r: seq<Json>)
    requires s.Arr? && t.Arr? && |a| == |s.a|
  {
    seq(|a|, j requires 0 <= j < |a| => if i <= j < |t.a| then Patched(s.a[j], t.a[j]) else a[j])
  }

  lemma {:induction false} ItemsRun(s: Json, t: Json, a: seq<Json>, i: nat)
    requires s.Arr? && t.Arr? && |a| == |s.a| && forall j | i <= j < |a| :: a[j] == s.a[j]
    ensures RunStrict(Arr(a), DiffItems(s, t, i)) == Outcome(ItemsFit(s, t, i), Arr(AfterItems(s, t, a, i)))
    ensures forall op | op in DiffItems(s, t, i) :: IsEdit(op)
    decreases s, 0, |s.a| - i
  {
    hide RunStrict, Patched, Fits, Equal, Prefixed, ToString, IsEdit, AfterItems, ItemsFit, Diff;
    if i < |s.a| && i < |t.a| {
      var sub, target := s.a[i], t.a[i];
      DiffRuns(sub, target);
      DiffEmpty(sub, target);
      PrefixedEdits([ToString(i)], Diff(sub, target));
      StrictAppends(Arr(a), Prefixed([ToString(i)], Diff(sub, target)), DiffItems(s, t, i + 1));
      ItemRuns(a, i, Diff(sub, target), Fits(sub, target), Patched(sub, target));
      var changed := a[i := Patched(sub, target)];
      ItemsRun(s, t, changed, i + 1);
      ItemsStep(s, t, a, i);
    } else {
      StrictNone(Arr(a));
      ItemsEnd(s, t, a, i);
    }
  }

  lemma ItemsStep(s: Json, t: Json, a: seq<Json>, i: nat)
    requires s.Arr? && t.Arr? && |a| == |s.a| && i < |s.a| && i < |t.a|
    ensures AfterItems(s, t, a[i := Patched(s.a[i], t.a[i])], i + 1) == AfterItems(s, t, a, i)
    ensures ItemsFit(s, t, i) <==>
      Fits(s.a[i], t.a[i]) && (Equal(s.a[i], t.a[i]) || i <= INT_MAX) && ItemsFit(s, t, i + 1)
  {
    hide Patched, Fits, Equal;
  }

  lemma ItemsEnd(s: Json, t: Json, a: seq<Json>, i: nat)
    requires s.Arr? && t.Arr? && |a| == |s.a| && (i >= |s.a| || i >= |t.a|)
    ensures AfterItems(s, t, a, i) == a && ItemsFit(s, t, i)
  {
    hide Patched, Fits, Equal;
  }

  /** One common element: its script, moved below the index. */
  lemma ItemRuns(a: seq<Json>, i: nat, ops: seq<Op>, fits: bool, patched: Json)
    requires i < |a| && RunStrict(a[i], ops) == Outcome(fits, patched) && forall op | op in ops :: IsEdit(op)
    ensures RunStrict(Arr(a), Prefixed([ToString(i)], ops)) ==
      Outcome(fits && (ops == [] || i <= INT_MAX), Arr(a[i := patched]))
  {
    hide RunStrict, Resolve, ToString;
    if ops == [] {
      StrictNone(a[i]);
      StrictNone(Arr(a));
      assert a[i := a[i]] == a;
    } else {
      ResolveIndex(a, i);
      StrictBelowToken(Arr(a), ToString(i), ops);
    }
  }

  lemma {:induction false} PrefixedEdits(path: Path, ops: seq<Op>)
    requires forall op | op in ops :: IsEdit(op)
    ensures forall op | op in Prefixed(path, ops) :: IsEdit(op)
  {
    if ops != [] {
      PrefixedEdits(path, ops[1..]);
      assert IsEdit(ops[0]) && IsEdit(PrefixOp(path, ops[0]));
    }
  }

  function AfterMembers(s: Json, t: Json, m: map<string, Json>, ks: seq<string>): (r: map<string, Json>)
    requires s.Obj? && t.Obj? && forall k | k in ks :: k in s.m
  {
    map k | k in m && (k in ks ==> k in t.m) :: if k in ks then Patched(s.m[k], t.m[k]) else m[k]
  }

  lemma StrictNone(doc: Json)
    ensures RunStrict(doc, []) == Ok(doc)
  {
  }

  /** One member of the source: its script moved below the key, or its removal. */
  lemma MemberRuns(s: Json, t: Json, m: map<string, Json>, k: string)
    requires s.Obj? && t.Obj? && k in s.m && k in m && m[k] == s.m[k]
    requires k in t.m ==>
      RunStrict(s.m[k], Diff(s.m[k], t.m[k])) == Outcome(Fits(s.m[k], t.m[k]), Patched(s.m[k], t.m[k]))
    requires k in t.m ==> forall op | op in Diff(s.m[k], t.m[k]) :: IsEdit(op)
    ensures RunStrict(Obj(m), if k in t.m then Prefixed([k], Diff(s.m[k], t.m[k])) else [Remove([k])]) ==
      if k in t.m then Outcome(Fits(s.m[k], t.m[k]), Obj(m[k := Patched(s.m[k], t.m[k])])) else Ok(Obj(m - {k}))
  {
    hide Diff, Patched, Fits, ApplyStrict, PrefixOp;
    if k !in t.m {
      RemoveMember(m, k);
      StrictOne(Obj(m), Remove([k]));
    } else if Diff(s.m[k], t.m[k]) == [] {
      StrictNone(s.m[k]);
      assert m[k := m[k]] == m;
    } else {
      StrictBelowToken(Obj(m), k, Diff(s.m[k], t.m[k]));
    }
  }

  lemma MembersNone(s: Json, t: Json, m: map<string, Json>)
    requires s.Obj? && t.Obj?
    ensures AfterMembers(s, t, m, []) == m && MembersFit(s, t, [])
  {
  }

  lemma MembersStep(s: Json, t: Json, m: map<string, Json>, ks: seq<string>)
    requires s.Obj? && t.Obj? && ks != [] && forall k | k in ks :: k in s.m && k in m
    requires ks[0] !in ks[1..]
    ensures var k, rest := ks[0], ks[1..];
      var changed := if k in t.m then m[k := Patched(s.m[k], t.m[k])] else m - {k};
      && AfterMembers(s, t, changed, rest) == AfterMembers(s, t, m, ks)
      && (MembersFit(s, t, ks) <==> (k in t.m ==> Fits(s.m[k], t.m[k])) && MembersFit(s, t, rest))
  {
  }

  lemma {:induction false} MembersRun(s: Json, t: Json, m: map<string, Json>, ks: seq<string>)
    requires s.Obj? && t.Obj? && forall k | k in ks :: k in s.m && k in m && m[k] == s.m[k]
    requires forall i, j | 0 <= i < j < |ks| :: ks[i] != ks[j]
    ensures RunStrict(Obj(m), DiffMembers(s, t, ks)) == Outcome(MembersFit(s, t, ks), Obj(AfterMembers(s, t, m, ks)))
    ensures forall op | op in DiffMembers(s, t, ks) :: IsEdit(op)
    decreases s, 0, |ks|
  {
    hide RunStrict, Diff, Patched, Fits, PrefixOp, AfterMembers, MembersFit;
    if ks == [] {
      MembersNone(s, t, m);
      StrictNone(Obj(m));
    } else {
      var k, rest := ks[0], ks[1..];
      var first := if k in t.m then Prefixed([k], Diff(s.m[k], t.m[k])) else [Remove([k])];
      if k in t.m {
        DiffRuns(s.m[k], t.m[k]);
        PrefixedEdits([k], Diff(s.m[k], t.m[k]));
      }
      MemberRuns(s, t, m, k);
      var changed := if k in t.m then m[k := Patched(s.m[k], t.m[k])] else m - {k};
      StrictAppends(Obj(m), first, DiffMembers(s, t, rest));
      MembersRun(s, t, changed, rest);
      MembersStep(s, t, m, ks);
    }
  }

  function Missing(s: Json, t: Json, ks: seq<string>): (r: map<string, Json>)
    requires s.Obj? && t.Obj? && forall k | k in ks :: k in t.m
  {
    map k | k in ks && k !in s.m :: t.m[k]
  }

  lemma MissingNone(s: Json, t: Json, m: map<string, Json>)
    requires s.Obj? && t.Obj?
    ensures m + Missing(s, t, []) == m
  {
  }

  lemma MissingStep(s: Json, t: Json, m: map<string, Json>, ks: seq<string>)
    requires s.Obj? && t.Obj? && ks != [] && forall k | k in ks :: k in t.m
    ensures (if ks[0] in s.m then m else m[ks[0] := t.m[ks[0]]]) + Missing(s, t, ks[1..]) == m + Missing(s, t, ks)
  {
    assert forall k :: k in ks <==> k == ks[0] || k in ks[1..];
  }

  lemma {:induction false} AddMembersRun(s: Json, t: Json, m: map<string, Json>, ks: seq<string>)
    requires s.Obj? && t.Obj? && forall k | k in ks :: k in t.m
    ensures RunStrict(Obj(m), AddMembers(s, t, ks)) == Ok(Obj(m + Missing(s, t, ks)))
    ensures forall op | op in AddMembers(s, t, ks) :: IsEdit(op)
    decreases |ks|
  {
    hide RunStrict, ApplyStrict, Missing;
    if ks == [] {
      MissingNone(s, t, m);
      StrictNone(Obj(m));
    } else {
      var k, rest := ks[0], ks[1..];
      var first := if k in s.m then [] else [Add([k], t.m[k])];
      var changed := if k in s.m then m else m[k := t.m[k]];
      StrictOne(Obj(m), Add([k], t.m[k]));
      AddMember(m, k, t.m[k]);
      StrictNone(Obj(m));
      StrictAppends(Obj(m), first, AddMembers(s, t, rest));
      AddMembersRun(s, t, changed, rest);
      assert ks == [k] + rest;
      MissingStep(s, t, m, ks);
    }
  }

  // ---------- The whole script ----------

  lemma {:induction false} DiffRuns(s: Json, t: Json)
    ensures RunStrict(s, Diff(s, t)) == Outcome(Fits(s, t), Patched(s, t))
    ensures forall op | op in Diff(s, t) :: IsEdit(op)
    decreases s, 1, 0
  {
    if !Equal(s, t) {
      if KindOf(s) == KindOf(t) && s.Arr? {
        ArrayRuns(s, t);
      } else if KindOf(s) == KindOf(t) && s.Obj? {
        ObjectRuns(s, t);
      } else {
        StrictOne(s, Replace([], t));
      }
    }
  }

  lemma {:induction false} ArrayRuns(s: Json, t: Json)
    requires s.Arr? && t.Arr? && !Equal(s, t)
    ensures RunStrict(s, Diff(s, t)) == Outcome(Fits(s, t), Patched(s, t))
    ensures forall op | op in Diff(s, t) :: IsEdit(op)
    decreases s, 0, |s.a| + 1
  {
    hide RunStrict, ApplyStrict, Equal, IsEdit, Prefixed, ToString;
    var items, removes, adds := DiffItems(s, t, 0), RemoveTail(|s.a|, |t.a|), AddTail(t.a, |s.a|);
    ItemsRun(s, t, s.a, 0);
    TailsAreEdits(|s.a|, |t.a|, t.a, |s.a|);
    var after := AfterItems(s, t, s.a, 0);
    StrictAppends(s, items + removes, adds);
    StrictAppends(s, items, removes);
    if |t.a| <= |s.a| {
      RemoveTailRuns(after, |t.a|);
      StrictNone(Arr(after[..|t.a|]));
      assert adds == [];
      assert Patched(s, t).a == after[..|t.a|];
    } else {
      assert removes == [];
      StrictNone(Arr(after));
      AddTailRuns(after, t.a);
      assert Patched(s, t).a == after + t.a[|s.a|..];
    }
  }

  lemma {:induction false} TailsAreEdits(size: nat, keep: nat, b: seq<Json>, i: nat)
    ensures forall op | op in RemoveTail(size, keep) :: IsEdit(op)
    ensures forall op | op in AddTail(b, i) :: IsEdit(op)
    decreases size + (if i < |b| then |b| - i else 0)
  {
    if size > keep {
      TailsAreEdits(size - 1, keep, b, i);
    } else if i < |b| {
      TailsAreEdits(size, keep, b, i + 1);
    }
  }

  lemma ObjectResult(s: Json, t: Json)
    requires s.Obj? && t.Obj? && !Equal(s, t)
    ensures Patched(s, t) == Obj(AfterMembers(s, t, s.m, Sorted(s.m.Keys)) + Missing(s, t, Sorted(t.m.Keys)))
  {
    hide Equal, Sorted, AfterMembers, Missing, Patched;
    var ks, ls := Sorted(s.m.Keys), Sorted(t.m.Keys);
    PatchedMembers(s, t);
    CommonMembers(s, t, ks);
    MissingMembers(s, t, ls);
    var after, missing := AfterMembers(s, t, s.m, ks), Missing(s, t, ls);
    assert (after + missing).Keys == Patched(s, t).m.Keys;
  }

  lemma PatchedMembers(s: Json, t: Json)
    requires s.Obj? && t.Obj? && !Equal(s, t)
    ensures Patched(s, t).Obj? && Patched(s, t).m.Keys == t.m.Keys
    ensures forall k | k in t.m :: Patched(s, t).m[k] == if k in s.m then Patched(s.m[k], t.m[k]) else t.m[k]
  {
    hide Equal;
  }

  lemma CommonMembers(s: Json, t: Json, ks: seq<string>)
    requires s.Obj? && t.Obj? && forall k :: k in ks <==> k in s.m
    ensures forall k :: k in AfterMembers(s, t, s.m, ks) <==> k in s.m && k in t.m
    ensures forall k | k in s.m && k in t.m :: AfterMembers(s, t, s.m, ks)[k] == Patched(s.m[k], t.m[k])
  {
    hide Patched;
  }

  lemma MissingMembers(s: Json, t: Json, ls: seq<string>)
    requires s.Obj? && t.Obj? && forall l :: l in ls <==> l in t.m
    ensures forall k :: k in Missing(s, t, ls) <==> k in t.m && k !in s.m
    ensures forall k | k in t.m && k !in s.m :: Missing(s, t, ls)[k] == t.m[k]
  {
  }

  lemma {:induction false} ObjectRuns(s: Json, t: Json)
    requires s.Obj? && t.Obj? && !Equal(s, t)
    ensures RunStrict(s, Diff(s, t)) == Outcome(Fits(s, t), Patched(s, t))
    ensures forall op | op in Diff(s, t) :: IsEdit(op)
    decreases s, 0, |Sorted(s.m.Keys)| + 1
  {
    hide RunStrict, Patched, AfterMembers, Missing, MembersFit, Equal, Sorted, IsEdit;
    var ks, ls := Sorted(s.m.Keys), Sorted(t.m.Keys);
    AscendingIsDistinct(ks);
    MembersRun(s, t, s.m, ks);
    var after := AfterMembers(s, t, s.m, ks);
    AddMembersRun(s, t, after, ls);
    StrictAppends(s, DiffMembers(s, t, ks), AddMembers(s, t, ls));
    ObjectResult(s, t);
  }

  // ---------- The script is empty exactly on equal values ----------

  lemma {:induction false} DiffEmpty(s: Json, t: Json)
    ensures Diff(s, t) == [] <==> Equal(s, t)
    decreases s, 0, 0
  {
    if !Equal(s, t) && KindOf(s) == KindOf(t) {
      match s
      case Arr(a) =>
        if |a| == |t.a| {
          var i :| 0 <= i < |a| && !Equal(a[i], t.a[i]);
          DiffEmpty(a[i], t.a[i]);
          ItemInScript(s, t, 0, i);
        }
      case Obj(m) =>
        if k :| k in m && (k !in t.m || !Equal(m[k], t.m[k])) {
          if k in t.m {
            DiffEmpty(m[k], t.m[k]);
          }
          MemberInScript(s, t, Sorted(m.Keys), k);
        } else {
          var k :| k in t.m && k !in m;
          AddInScript(s, t, Sorted(t.m.Keys), k);
        }
      case _ =>
    }
  }

  lemma {:induction false} ItemInScript(s: Json, t: Json, from: nat, i: nat)
    requires s.Arr? && t.Arr? && from <= i < |s.a| && i < |t.a| && Diff(s.a[i], t.a[i]) != []
    ensures DiffItems(s, t, from) != []
    decreases i - from
  {
    if from < i {
      ItemInScript(s, t, from + 1, i);
    }
  }

  lemma {:induction false} MemberInScript(s: Json, t: Json, ks: seq<string>, k: string)
    requires s.Obj? && t.Obj? && k in ks && forall l | l in ks :: l in s.m
    requires k in t.m ==> Diff(s.m[k], t.m[k]) != []
    ensures DiffMembers(s, t, ks) != []
    decreases |ks|
  {
    if ks[0] != k {
      MemberInScript(s, t, ks[1..], k);
    }
  }

  lemma {:induction false} AddInScript(s: Json, t: Json, ks: seq<string>, k: string)
    requires s.Obj? && t.Obj? && k in ks && k !in s.m && forall l | l in ks :: l in t.m
    ensures AddMembers(s, t, ks) != []
    decreases |ks|
  {
    if ks[0] != k {
      AddInScript(s, t, ks[1..], k);
    }
  }

  // ---------- The library's own `add` runs the scripts of `diff` alike ----------

  lemma {:induction false} StrictTransfers(doc: Json, ops: seq<Op>)
    requires RunStrict(doc, ops).Ok? || RunStrict(doc, ops) == Err(StdOutOfRange)
    ensures Run(doc, ops) == RunStrict(doc, ops)
    decreases |ops|
  {
    if ops != [] {
      var op := ops[0];
      if op.Add? && op.path != [] {
        var up := Parent(op.path);
        assert up + [] == up;
        EditBelow(doc, up, [], InsertChild(Last(op.path), op.value));
        AddWithParent(doc, op.path, op.value);
      }
      if ApplyStrict(doc, op).Ok? {
        StrictTransfers(ApplyStrict(doc, op).value, ops[1..]);
      }
    }
  }

  /**
   `source.patch(diff(source, target)) == target`: the patch succeeds exactly when every differing
   index fits an `int`, and then its result is equal to the target.
   */
  lemma PatchOfDiff(s: Json, t: Json)
    ensures Run(s, Diff(s, t)) == if Fits(s, t) then Ok(Patched(s, t)) else Err(StdOutOfRange)
    ensures Run(s, Diff(s, t)).Ok? ==> Equal(Run(s, Diff(s, t)).value, t)
  {
    DiffRuns(s, t);
    StrictTransfers(s, Diff(s, t));
    PatchedEqualsTarget(s, t);
  }

  /** `diff(s, t, path)` on any document that holds `s` at `path` rewrites that subtree only. */
  lemma {:induction false} PatchOfDiffBelow(doc: Json, path: Path, s: Json, t: Json)
    requires At(doc, path) == Ok(s)
    ensures Run(doc, Prefixed(path, Diff(s, t))) ==
      if Fits(s, t) then EditAt(doc, path, Assign(Patched(s, t))) else Err(StdOutOfRange)
    ensures Fits(s, t) ==> Run(doc, Prefixed(path, Diff(s, t))).Ok?
  {
    DiffRuns(s, t);
    StrictBelow(doc, path, Diff(s, t));
    EditBelow(doc, path, [], Assign(Null));
    StrictTransfers(doc, Prefixed(path, Diff(s, t)));
  }
}
