/** Laws of the patch operations promised by section 4 of RFC 6902, and what else the operations accept. */
module JsonPatchLaws {
  import opened Decimal
  import opened JsonPatch
  import opened JsonPointer
  import opened JsonValue
  import opened Wrappers

  // ---------- replace is remove then add (section 4.3); move onto itself (section 4.4) ----------

  lemma EditHere(j: Json, e: Edit)
    ensures EditAt(j, [], e) == ApplyEdit(j, e)
  {
  }

  lemma EraseThenInsert(parent: Json, token: string, v: Json)
    requires Resolve(parent, token).Ok?
    ensures Erase(parent, token).Ok?
    ensures Insert(Erase(parent, token).value, token, v) == Ok(WithChild(parent, Resolve(parent, token).value, v))
  {
    match parent
    case Obj(m) => assert (m - {token})[token := v] == m[token := v];
    case Arr(a) =>
      var i := ArrayIndex(token).value;
      var erased := a[..i] + a[i + 1..];
      assert erased[..i] + [v] + erased[i..] == a[i := v];
  }

  /** Removing and adding back at a place that resolves is assigning there. */
  lemma RemoveThenAdd(doc: Json, path: Path, v: Json)
    requires path != [] && At(doc, path).Ok?
    ensures Run(doc, [Remove(path), Add(path, v)]) == EditAt(doc, path, Assign(v))
    ensures OperationRemove(doc, path).Ok?
    ensures OperationAdd(OperationRemove(doc, path).value, path, v) == EditAt(doc, path, Assign(v))
  {
    hide Resolve, ArrayIndex, Insert, Erase, WithChild;
    var up, token := Parent(path), Last(path);
    assert path == up + [token];
    AtPrefix(doc, up, [token]);
    assert [token][1..] == [];
    var parent := At(doc, up).value;
    EraseThenInsert(parent, token, v);
    var erased := Erase(parent, token).value;
    EditBelow(doc, up, [], EraseChild(token));
    assert up + [] == up;
    EditTwice(doc, up, erased, InsertChild(token, v));
    AddWithParent(EditAt(doc, up, Assign(erased)).value, path, v);
    EditBelow(doc, up, [token], Assign(v));
    RunTwo(doc, Remove(path), Add(path, v));
  }

  lemma ReplaceIsRemoveThenAdd(doc: Json, path: Path, v: Json)
    requires path != [] && At(doc, path).Ok?
    ensures Run(doc, [Replace(path, v)]) == Run(doc, [Remove(path), Add(path, v)])
    ensures Run(doc, [Replace(path, v)]).Ok?
  {
    RemoveThenAdd(doc, path, v);
    EditBelow(doc, path, [], Assign(v));
    RunOne(doc, Replace(path, v));
  }

  lemma {:induction false} MoveOntoItself(doc: Json, path: Path)
    requires path != [] && At(doc, path).Ok?
    ensures Apply(doc, Move(path, path)) == Ok(doc)
  {
    RemoveThenAdd(doc, path, At(doc, path).value);
    EditBelow(doc, path, [], Assign(Null));
  }

  /** Both laws hold at every place that resolves but the root, which can be replaced but not removed. */
  lemma RootIsTheException(doc: Json, path: Path, v: Json)
    requires At(doc, path).Ok?
    ensures Run(doc, [Replace(path, v)]) == Run(doc, [Remove(path), Add(path, v)]) <==> path != []
    ensures Apply(doc, Move(path, path)) == Ok(doc) <==> path != []
    ensures Run(doc, [Remove([]), Add([], v)]) == Err(Numbered(405)) && Apply(doc, Move([], [])) == Err(Numbered(405))
  {
    hide EditAt, OperationAdd;
    if path != [] {
      ReplaceIsRemoveThenAdd(doc, path, v);
      MoveOntoItself(doc, path);
    } else {
      RunOne(doc, Replace([], v));
      EditHere(doc, Assign(v));
    }
  }

  // ---------- What add, copy, move and test leave behind ----------

  /** A token that checked access accepts below this parent: no "-" and no leading zero for an array. */
  predicate Readable(parent: Json, token: string) {
    parent.Arr? ==> token != "-" && !(|token| > 1 && token[0] == '0')
  }

  lemma InsertedIsFound(parent: Json, token: string, v: Json)
    requires Insert(parent, token, v).Ok?
    ensures var after := Insert(parent, token, v).value;
      var at := Resolve(after, token);
      if Readable(parent, token) then at.Ok? && Child(after, at.value) == v else at.Err?
  {
  }

  /** What `add` puts somewhere is found there afterwards, exactly when the last token can be read back. */
  lemma AddedIsFound(doc: Json, path: Path, v: Json)
    requires path != [] && At(doc, Parent(path)).Ok? && OperationAdd(doc, path, v).Ok?
    ensures var after := At(OperationAdd(doc, path, v).value, path);
      if Readable(At(doc, Parent(path)).value, Last(path)) then after == Ok(v) else after.Err?
  {
    hide Insert, Resolve, Child, OperationAdd, EditUnchecked, EditAt, At;
    var up, token := Parent(path), Last(path);
    var parent := At(doc, up).value;
    EditHere(parent, InsertChild(token, v));
    AddWithParent(doc, path, v);
    assert up + [] == up && path == up + [token];
    EditBelow(doc, up, [], InsertChild(token, v));
    InsertedIsFound(parent, token, v);
    var inserted := Insert(parent, token, v).value;
    EditTwice(doc, up, inserted, Assign(Null));
    AtPrefix(OperationAdd(doc, path, v).value, up, [token]);
    AtOne(inserted, token);
  }

  lemma AtOne(j: Json, token: string)
    ensures At(j, [token]) ==
      if Resolve(j, token).Ok? then Ok(Child(j, Resolve(j, token).value)) else Err(Resolve(j, token).error)
  {
  }

  /** A copy passes a test against its source; the test leaves the document alone. */
  lemma CopyThenTest(doc: Json, path: Path, from: Path)
    requires path != [] && At(doc, Parent(path)).Ok? && Readable(At(doc, Parent(path)).value, Last(path))
    requires At(doc, from).Ok? && Apply(doc, Copy(path, from)).Ok?
    ensures Run(doc, [Copy(path, from), Test(path, At(doc, from).value)]) == Apply(doc, Copy(path, from))
  {
    hide At, OperationAdd, Readable, Equal, Parent, Last;
    var v := At(doc, from).value;
    AddedIsFound(doc, path, v);
    EqualReflexive(v);
    RunTwo(doc, Copy(path, from), Test(path, v));
  }

  /** A move carries the value it removes, wherever the parent of the target is after the removal. */
  lemma MovedIsFound(doc: Json, path: Path, from: Path)
    requires path != [] && Apply(doc, Move(path, from)).Ok?
    requires var removed := OperationRemove(doc, from).value;
      At(removed, Parent(path)).Ok? && Readable(At(removed, Parent(path)).value, Last(path))
    ensures At(Apply(doc, Move(path, from)).value, path) == At(doc, from)
  {
    AddedIsFound(OperationRemove(doc, from).value, path, At(doc, from).value);
  }

  /** The value and the token at which checked access stops. */
  function Stuck(doc: Json, path: Path): (at: (Json, string))
    requires At(doc, path).Err?
  {
    if Resolve(doc, path[0]).Err? then (doc, path[0]) else Stuck(Child(doc, Resolve(doc, path[0]).value), path[1..])
  }

  /** An array index that is padded with zeros, or that `stoi` throws on. */
  predicate Malformed(j: Json, token: string) {
    && j.Arr? && token != "-"
    && ((|token| > 1 && token[0] == '0')
        || ArrayIndex(token) == Err(StdInvalidArgument) || ArrayIndex(token) == Err(StdOutOfRange))
  }

  lemma ResolveError(j: Json, token: string)
    requires Resolve(j, token).Err?
    ensures Resolve(j, token) != Err(Numbered(501))
    ensures IsOutOfRange(Resolve(j, token).error) <==> !Malformed(j, token)
    ensures Resolve(j, token).error == ErrorOf(j, token)
  {
  }

  /** The documented error of a token that does not resolve. */
  function ErrorOf(j: Json, token: string): (e: Error) {
    if j.Obj? then Numbered(403)
    else if !j.Arr? then Numbered(404)
    else if token == "-" then Numbered(402)
    else if |token| > 1 && token[0] == '0' then Numbered(106)
    else if ArrayIndex(token) == Err(StdInvalidArgument) then Numbered(109)
    else if ArrayIndex(token) == Err(StdOutOfRange) then StdOutOfRange
    else if ArrayIndex(token).Err? then Numbered(404)
    else Numbered(401)
  }

  lemma {:induction false} StuckError(doc: Json, path: Path)
    requires At(doc, path).Err?
    ensures At(doc, path) != Err(Numbered(501))
    ensures IsOutOfRange(At(doc, path).error) <==> !Malformed(Stuck(doc, path).0, Stuck(doc, path).1)
    ensures At(doc, path) == Err(ErrorOf(Stuck(doc, path).0, Stuck(doc, path).1))
    decreases |path|
  {
    hide Resolve, Malformed, IsOutOfRange, ErrorOf;
    if Resolve(doc, path[0]).Err? {
      ResolveError(doc, path[0]);
    } else {
      StuckError(Child(doc, Resolve(doc, path[0]).value), path[1..]);
    }
  }

  /**
   A test succeeds exactly on an equal value and then changes nothing. It fails as a test, with error 501, on
   any other value and on a place that is missing; a malformed index raises its own error instead.
   */
  lemma {:induction false} TestDecides(doc: Json, path: Path, v: Json)
    ensures Apply(doc, Test(path, v)).Ok? <==> At(doc, path).Ok? && Equal(At(doc, path).value, v)
    ensures Apply(doc, Test(path, v)).Ok? ==> Apply(doc, Test(path, v)) == Ok(doc)
    ensures Apply(doc, Test(path, v)) == Err(Numbered(501)) <==>
      if At(doc, path).Ok? then !Equal(At(doc, path).value, v) else !Malformed(Stuck(doc, path).0, Stuck(doc, path).1)
  {
    hide At, Equal, Malformed, Stuck;
    if At(doc, path).Err? {
      StuckError(doc, path);
    }
  }

  // ---------- When two replacements commute ----------

  /** The place a pointer denotes, with array indices decoded. */
  function Locate(doc: Json, path: Path): (r: Result<seq<Step>, Error>)
    ensures r.Ok? <==> At(doc, path).Ok?
    ensures r.Ok? ==> |r.value| == |path|
    ensures r.Err? ==> At(doc, path) == Err(r.error)
  {
    if path == [] then Ok([])
    else
      var at :- Resolve(doc, path[0]);
      var rest :- Locate(Child(doc, at), path[1..]);
      Ok([at] + rest)
  }

  predicate Comparable(p: seq<Step>, q: seq<Step>) {
    p <= q || q <= p
  }

  predicate Commute(doc: Json, p: Path, v: Json, q: Path, w: Json) {
    Run(doc, [Replace(p, v), Replace(q, w)]) == Run(doc, [Replace(q, w), Replace(p, v)])
  }

  lemma RunPair(doc: Json, p: Path, v: Json, q: Path, w: Json)
    ensures Run(doc, [Replace(p, v), Replace(q, w)]) ==
      var first := EditAt(doc, p, Assign(v));
      if first.Ok? then EditAt(first.value, q, Assign(w)) else first
  {
    RunTwo(doc, Replace(p, v), Replace(q, w));
  }

  lemma WithTwoChildren(j: Json, s: Step, c: Json, t: Step, d: Json)
    requires HasChild(j, s) && HasChild(j, t) && s != t
    ensures WithChild(WithChild(j, s, c), t, d) == WithChild(WithChild(j, t, d), s, c)
  {
  }

  /** At places neither of which contains the other, two replacements commute and both succeed. */
  lemma {:induction false} ApartCommute(doc: Json, p: Path, v: Json, q: Path, w: Json)
    requires Locate(doc, p).Ok? && Locate(doc, q).Ok? && !Comparable(Locate(doc, p).value, Locate(doc, q).value)
    ensures EditAt(doc, p, Assign(v)).Ok? && EditAt(doc, q, Assign(w)).Ok?
    ensures EditAt(EditAt(doc, p, Assign(v)).value, q, Assign(w)) ==
            EditAt(EditAt(doc, q, Assign(w)).value, p, Assign(v))
    ensures EditAt(EditAt(doc, p, Assign(v)).value, q, Assign(w)).Ok?
  {
    var s, t := Resolve(doc, p[0]).value, Resolve(doc, q[0]).value;
    EditBelow(Child(doc, s), p[1..], [], Assign(v));
    EditBelow(Child(doc, t), q[1..], [], Assign(w));
    var c := EditAt(Child(doc, s), p[1..], Assign(v)).value;
    var d := EditAt(Child(doc, t), q[1..], Assign(w)).value;
    ResolveAfter(doc, s, c, q[0]);
    ResolveAfter(doc, t, d, p[0]);
    if s == t {
      var lp, lq := Locate(Child(doc, s), p[1..]).value, Locate(Child(doc, s), q[1..]).value;
      assert lp <= lq ==> [s] + lp <= [s] + lq;
      assert lq <= lp ==> [s] + lq <= [s] + lp;
      ApartCommute(Child(doc, s), p[1..], v, q[1..], w);
      var e := EditAt(c, q[1..], Assign(w)).value;
      WithChildTwice(doc, s, c, e);
      WithChildTwice(doc, s, d, e);
    } else {
      WithTwoChildren(doc, s, c, t, d);
    }
  }

  /** If `p` denotes a place on the way to `q`, or the same place, some pair of values does not commute. */
  lemma {:induction false} NestedDoNotCommute(doc: Json, p: Path, q: Path)
    requires Locate(doc, p).Ok? && Locate(doc, q).Ok? && Locate(doc, p).value <= Locate(doc, q).value
    ensures EditAt(doc, p, Assign(Null)).Ok? && EditAt(doc, q, Assign(Bool(true))).Ok?
    ensures EditAt(EditAt(doc, p, Assign(Null)).value, q, Assign(Bool(true))) !=
            EditAt(EditAt(doc, q, Assign(Bool(true))).value, p, Assign(Null))
  {
    EditBelow(doc, p, [], Assign(Null));
    EditBelow(doc, q, [], Assign(Bool(true)));
    if p != [] {
      var s := Resolve(doc, p[0]).value;
      assert Locate(doc, p).value[0] == Locate(doc, q).value[0];
      assert Resolve(doc, q[0]) == Ok(s);
      var sub := Child(doc, s);
      assert Locate(doc, p).value[1..] == Locate(sub, p[1..]).value;
      assert Locate(doc, q).value[1..] == Locate(sub, q[1..]).value;
      NestedDoNotCommute(sub, p[1..], q[1..]);
      var c, d := EditAt(sub, p[1..], Assign(Null)).value, EditAt(sub, q[1..], Assign(Bool(true))).value;
      ResolveAfter(doc, s, c, q[0]);
      ResolveAfter(doc, s, d, p[0]);
      var x, y := EditAt(c, q[1..], Assign(Bool(true))), EditAt(d, p[1..], Assign(Null));
      if x.Ok? && y.Ok? {
        WithChildTwice(doc, s, c, x.value);
        WithChildTwice(doc, s, d, y.value);
        assert Child(WithChild(doc, s, x.value), s) != Child(WithChild(doc, s, y.value), s);
      }
    }
  }

  /**
   Two `replace` operations whose pointers resolve commute for all values exactly when neither denoted
   place contains the other. Comparing the tokens instead is not enough: see `AliasesDoNotCommute`.
   */
  lemma {:induction false} ReplacementsCommute(doc: Json, p: Path, q: Path)
    requires Locate(doc, p).Ok? && Locate(doc, q).Ok?
    ensures (forall v, w :: Commute(doc, p, v, q, w)) <==> !Comparable(Locate(doc, p).value, Locate(doc, q).value)
  {
    if !Comparable(Locate(doc, p).value, Locate(doc, q).value) {
      forall v, w ensures Commute(doc, p, v, q, w) {
        ApartCommute(doc, p, v, q, w);
        RunPair(doc, p, v, q, w);
        RunPair(doc, q, w, p, v);
      }
    } else if Locate(doc, p).value <= Locate(doc, q).value {
      NestedDoNotCommute(doc, p, q);
      RunPair(doc, p, Null, q, Bool(true));
      RunPair(doc, q, Bool(true), p, Null);
      assert !Commute(doc, p, Null, q, Bool(true));
    } else {
      NestedDoNotCommute(doc, q, p);
      RunPair(doc, p, Bool(true), q, Null);
      RunPair(doc, q, Null, p, Bool(true));
      assert !Commute(doc, p, Bool(true), q, Null);
    }
  }

  /** Every array index on the way is written as `std::to_string` writes it. */
  predicate Canonical(doc: Json, path: Path)
    requires Locate(doc, path).Ok?
  {
    var places := Locate(doc, path).value;
    forall i | 0 <= i < |path| && places[i].Index? :: path[i] == ToString(places[i].i)
  }

  /** One step of a pointer with canonical indices: its place, and the pointer below. */
  lemma LocateStep(doc: Json, p: Path)
    requires p != [] && Locate(doc, p).Ok? && Canonical(doc, p)
    ensures Resolve(doc, p[0]).Ok?
    ensures var at := Resolve(doc, p[0]).value;
      && (at.Index? ==> p[0] == ToString(at.i))
      && Locate(Child(doc, at), p[1..]).Ok? && Canonical(Child(doc, at), p[1..])
      && Locate(doc, p).value[0] == at && Locate(doc, p).value[1..] == Locate(Child(doc, at), p[1..]).value
  {
    hide Resolve, ToString;
    var at := Resolve(doc, p[0]).value;
    var places, below := Locate(doc, p).value, Locate(Child(doc, at), p[1..]).value;
    assert places == [at] + below;
    assert forall i | 0 <= i < |below| :: places[i + 1] == below[i] && p[i + 1] == p[1..][i];
  }

  lemma SameToken(doc: Json, token: string, other: string)
    requires Resolve(doc, token).Ok? && Resolve(doc, other).Ok?
    requires Resolve(doc, token).value.Index? ==> token == ToString(Resolve(doc, token).value.i)
    requires Resolve(doc, other).value.Index? ==> other == ToString(Resolve(doc, other).value.i)
    ensures token == other <==> Resolve(doc, token).value == Resolve(doc, other).value
  {
    hide ArrayIndex, ToString;
  }

  lemma PrefixStep<T>(p: seq<T>, q: seq<T>)
    requires p != [] && q != []
    ensures p <= q <==> p[0] == q[0] && p[1..] <= q[1..]
  {
    assert p == [p[0]] + p[1..] && q == [q[0]] + q[1..];
  }

  lemma NoPrefix(doc: Json, p: Path, q: Path)
    requires Locate(doc, p).Ok? && Locate(doc, q).Ok? && (p == [] || q == [])
    ensures p <= q <==> Locate(doc, p).value <= Locate(doc, q).value
  {
  }

  /** For pointers with canonical indices, comparing the tokens is comparing the places. */
  lemma {:induction false} CanonicalPrefixes(doc: Json, p: Path, q: Path)
    requires Locate(doc, p).Ok? && Locate(doc, q).Ok?
    requires Canonical(doc, p) && Canonical(doc, q)
    ensures p <= q <==> Locate(doc, p).value <= Locate(doc, q).value
    decreases |p|
  {
    hide Resolve, Child, Locate, Canonical;
    if p == [] || q == [] {
      NoPrefix(doc, p, q);
    } else {
      LocateStep(doc, p);
      LocateStep(doc, q);
      var s, t := Resolve(doc, p[0]).value, Resolve(doc, q[0]).value;
      SameToken(doc, p[0], q[0]);
      PrefixStep(p, q);
      PrefixStep(Locate(doc, p).value, Locate(doc, q).value);
      if s == t {
        CanonicalPrefixes(Child(doc, s), p[1..], q[1..]);
      }
    }
  }

  // ---------- What the operations accept ----------

  lemma SignedIndex()
    ensures ArrayIndex("1") == Ok(1) && ArrayIndex("+1") == Ok(1)
  {
    hide LeadingDigits, DigitsValue;
    OneDigit();
    assert "+1"[1..] == "1" && "1"[0..] == "1" && "1"[..1] == "1";
  }

  lemma OneDigit()
    ensures LeadingDigits("1") == 1 && DigitsValue("1") == 1
  {
    assert "1"[..0] == "";
  }

  /** `stoi` accepts a sign, so "/1" and "/+1" are different pointers to one element. */
  lemma AliasesDoNotCommute()
    ensures var doc, p, q := Arr([Null, Null]), ["1"], ["+1"];
      !(p <= q) && !(q <= p) && Locate(doc, p) == Ok([Index(1)]) && Locate(doc, q) == Ok([Index(1)])
      && !Commute(doc, p, Null, q, Bool(true))
  {
    hide ArrayIndex;
    var doc, p, q := Arr([Null, Null]), ["1"], ["+1"];
    SignedIndex();
    assert Resolve(doc, "1") == Ok(Index(1)) && Resolve(doc, "+1") == Ok(Index(1));
    assert p[0] == "1" && q[0] == "+1";
    assert [Index(1)] + [] == [Index(1)];
    assert p[1..] == [] && q[1..] == [];
    RunPair(doc, p, Null, q, Bool(true));
    RunPair(doc, q, Bool(true), p, Null);
  }

  /** `add` creates missing objects below the first token, where checked access reports an error. */
  lemma AddCreatesParents()
    ensures var doc, path := Obj(map["a" := Obj(map[])]), ["a", "b", "c"];
      OperationAdd(doc, path, Null) == Ok(Obj(map["a" := Obj(map["b" := Obj(map["c" := Null])])]))
      && AddChecked(doc, path, Null).Err?
  {
    var doc, path := Obj(map["a" := Obj(map[])]), ["a", "b", "c"];
    assert path[..1] == ["a"] && ["a"][1..] == [];
    assert Parent(path) == ["a", "b"] && ["a", "b"][1..] == ["b"] && ["b"][1..] == [];
    var inner := Obj(map["c" := Null]);
    assert Vivify(Obj(map[]), "b") == Ok((Obj(map["b" := Null]), Key("b")));
    assert map["b" := Null]["b" := inner] == map["b" := inner];
    assert EditUnchecked(Obj(map[]), ["b"], InsertChild("c", Null)) == Ok(Obj(map["b" := inner]));
    assert map["a" := Obj(map[])]["a" := Obj(map["b" := inner])] == map["a" := Obj(map["b" := inner])];
    assert At(Obj(map[]), ["b"]).Err?;
  }

  /** A token below null that can be created: not a number with a leading zero, or beyond an `int`. */
  predicate CanCreate(token: string) {
    AllDigits(token) ==> token != "" && (|token| > 1 ==> token[0] != '0') && DigitsValue(token) <= INT_MAX
  }

  /** Nothing stands at `token`, but unchecked resolution makes room for it. */
  predicate Absent(j: Json, token: string) {
    match j
    case Null => CanCreate(token)
    case Obj(m) => token !in m
    case Arr(a) =>
      token == "-"
      || (!(|token| > 1 && token[0] == '0') && ArrayIndex(token).Ok? && |a| <= ArrayIndex(token).value)
    case _ => false
  }

  /** The first token that does not resolve is absent, and those after it can be created below null. */
  predicate Creatable(j: Json, path: Path)
    decreases |path|
  {
    && path != []
    && if Resolve(j, path[0]).Ok? then Creatable(Child(j, Resolve(j, path[0]).value), path[1..])
       else Absent(j, path[0]) && forall i | 1 <= i < |path| :: CanCreate(path[i])
  }

  lemma StoiNothing()
    ensures Stoi("") == Err(InvalidArgument)
  {
  }

  lemma IndexOfDigits(token: string)
    requires AllDigits(token)
    ensures token == "" ==> ArrayIndex(token) == Err(StdInvalidArgument)
    ensures token != "" ==>
      ArrayIndex(token) == if DigitsValue(token) <= INT_MAX then Ok(DigitsValue(token)) else Err(StdOutOfRange)
  {
    hide Stoi, DigitsValue;
    if token == "" {
      StoiNothing();
    } else {
      StoiDigits(token);
    }
  }

  lemma VivifyNull(token: string)
    ensures Vivify(Null, token).Ok? <==> CanCreate(token)
    ensures Vivify(Null, token).Ok? ==> Child(Vivify(Null, token).value.0, Vivify(Null, token).value.1) == Null
  {
    hide ArrayIndex, DigitsValue;
    if AllDigits(token) {
      assert token != "" ==> '0' <= token[0] <= '9';
      IndexOfDigits(token);
    }
  }

  lemma VivifyAbsent(j: Json, token: string)
    requires Resolve(j, token).Err?
    ensures Vivify(j, token).Ok? <==> Absent(j, token)
    ensures Vivify(j, token).Ok? ==> Child(Vivify(j, token).value.0, Vivify(j, token).value.1) == Null
  {
    hide ArrayIndex;
    if j.Null? {
      VivifyNull(token);
    }
  }

  lemma {:induction false} CreatedBelowNull(path: Path, token: string, v: Json)
    ensures EditUnchecked(Null, path, InsertChild(token, v)).Ok? <==> forall i | 0 <= i < |path| :: CanCreate(path[i])
    decreases |path|
  {
    hide Vivify, CanCreate, Child;
    if path != [] {
      VivifyNull(path[0]);
      CreatedBelowNull(path[1..], token, v);
      assert forall i | 0 <= i < |path[1..]| :: path[1..][i] == path[i + 1];
      assert forall i | 1 <= i < |path| :: path[i] == path[1..][i - 1];
    }
  }

  lemma VivifyExisting(j: Json, token: string)
    requires Resolve(j, token).Ok?
    ensures Vivify(j, token) == Ok((j, Resolve(j, token).value))
  {
    hide ArrayIndex;
  }

  lemma {:induction false} UncheckedCreates(j: Json, path: Path, token: string, v: Json)
    requires At(j, path).Err?
    ensures EditUnchecked(j, path, InsertChild(token, v)).Ok? <==> Creatable(j, path)
    decreases |path|
  {
    hide Vivify, Resolve, CanCreate, Absent, Child;
    if Resolve(j, path[0]).Ok? {
      VivifyExisting(j, path[0]);
      UncheckedCreates(Child(j, Resolve(j, path[0]).value), path[1..], token, v);
    } else {
      VivifyAbsent(j, path[0]);
      CreatedBelowNull(path[1..], token, v);
      assert forall i | 0 <= i < |path[1..]| :: path[1..][i] == path[i + 1];
      assert forall i | 1 <= i < |path| :: path[i] == path[1..][i - 1];
    }
  }

  /**
   Where checked access finds no parent, `add` fails unless the first token resolves and everything missing
   below it can be created.
   */
  lemma AddWithoutParent(doc: Json, path: Path, v: Json)
    requires path != [] && At(doc, Parent(path)).Err?
    ensures AddChecked(doc, path, v).Err?
    ensures OperationAdd(doc, path, v).Ok? <==> At(doc, path[..1]).Ok? && Creatable(doc, Parent(path))
  {
    var up := Parent(path);
    assert up + [] == up;
    EditBelow(doc, up, [], InsertChild(Last(path), v));
    UncheckedCreates(doc, up, Last(path), v);
  }

  /** The error of an index that names no place in an array: that of reading it, or 401 outside the array. */
  function IndexError(token: string): (e: Error) {
    if ArrayIndex(token).Err? then ArrayIndex(token).error else Numbered(401)
  }

  /** The errors at a parent that is found. */
  lemma ParentErrors(doc: Json, path: Path, v: Json)
    requires path != [] && At(doc, Parent(path)).Ok?
    ensures var parent := At(doc, Parent(path)).value;
      && (OperationAdd(doc, path, v).Err? ==>
            OperationAdd(doc, path, v).error == if parent.Arr? then IndexError(Last(path)) else AssertionFailed)
      && (OperationRemove(doc, path).Err? ==>
            OperationRemove(doc, path).error == if parent.Arr? then IndexError(Last(path)) else Numbered(403))
  {
    hide ArrayIndex, EditUnchecked, EditAt, At, WithChild;
    var up := Parent(path);
    assert up + [] == up;
    AddWithParent(doc, path, v);
    EditBelow(doc, up, [], InsertChild(Last(path), v));
    EditBelow(doc, up, [], EraseChild(Last(path)));
    AtHere(At(doc, up).value);
  }

  lemma AtHere(j: Json)
    ensures At(j, []) == Ok(j) && forall e :: EditAt(j, [], e) == ApplyEdit(j, e)
  {
  }

  /** `remove` of an array element whose index is written with a leading zero, which `at` refuses. */
  predicate Padded(parent: Json, token: string) {
    && parent.Arr? && |token| > 1 && token[0] == '0'
    && ArrayIndex(token).Ok? && 0 <= ArrayIndex(token).value < |parent.a|
  }

  /**
   `remove` succeeds where `at` finds the target, and beyond that exactly when the parent is neither object nor
   array, when nothing is removed, or the index is padded with zeros.
   */
  lemma RemoveNeedsTarget(doc: Json, path: Path)
    requires path != []
    ensures At(doc, Parent(path)).Err? ==> OperationRemove(doc, path) == Err(At(doc, Parent(path)).error)
    ensures At(doc, Parent(path)).Ok? ==>
      var parent := At(doc, Parent(path)).value;
      OperationRemove(doc, path).Ok? <==>
        At(doc, path).Ok? || !(parent.Obj? || parent.Arr?) || Padded(parent, Last(path))
  {
    hide Resolve, Erase, Padded;
    var up, token := Parent(path), Last(path);
    assert up + [] == up && path == up + [token];
    EditBelow(doc, up, [], EraseChild(token));
    AtPrefix(doc, up, [token]);
    if At(doc, up).Ok? {
      AtOne(At(doc, up).value, token);
      ErasesExactly(At(doc, up).value, token);
    }
  }

  lemma ErasesExactly(parent: Json, token: string)
    ensures Erase(parent, token).Ok? <==>
      Resolve(parent, token).Ok? || !(parent.Obj? || parent.Arr?) || Padded(parent, token)
  {
    IndexNeedsDigits(token);
  }

  lemma IndexNeedsDigits(token: string)
    ensures token == "-" ==> ArrayIndex(token) == Err(StdInvalidArgument)
  {
  }

  /** `remove` below a primitive succeeds without doing anything. */
  lemma RemoveBelowPrimitive(doc: Json, token: string)
    requires !doc.Obj? && !doc.Arr?
    ensures Apply(doc, Remove([token])) == Ok(doc) && At(doc, [token]) == Err(Numbered(404))
  {
    assert [token][..0] == [];
  }
}
