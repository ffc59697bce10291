/**
 What `add` leaves when it creates the parent of its target: said by the places of the document, apart from the
 unchecked access that does it.
 */
module JsonPatchCreated {
  import opened Decimal
  import opened JsonPatch
  import opened JsonPatchLaws
  import opened JsonPointer
  import opened JsonValue
  import opened Wrappers

  function Nulls(n: nat): (js: seq<Json>)
    ensures |js| == n && forall i | 0 <= i < n :: js[i] == Null
  {
    seq(n, _ => Null)
  }

  /** The place an absent token stands for. */
  function PlaceIn(j: Json, token: string): (at: Step)
    requires Absent(j, token)
  {
    match j
    case Null => if token == "-" then Index(0) else if AllDigits(token) then Index(DigitsValue(token)) else Key(token)
    case Arr(a) => if token == "-" then Index(|a|) else Index(ArrayIndex(token).value)
    case _ => Key(token)
  }

  /** The value with `below` at an absent token: one more member, or elements up to the index. */
  function Extended(j: Json, token: string, below: Json): (r: Json)
    requires Absent(j, token)
  {
    match j
    case Null =>
      if token == "-" then Arr([below])
      else if AllDigits(token) then Arr(Nulls(DigitsValue(token)) + [below])
      else Obj(map[token := below])
    case Arr(a) =>
      if token == "-" then Arr(a + [below]) else Arr(a + Nulls(ArrayIndex(token).value - |a|) + [below])
    case Obj(m) => Obj(m[token := below])
    case _ => j
  }

  /** The tokens but the last can be created below null. */
  predicate AllCreatable(path: Path) {
    forall i | 0 <= i < |path| - 1 :: CanCreate(path[i])
  }

  /** What is created below the first missing token: the last token names a member. */
  function Made(path: Path, v: Json): (r: Json)
    requires path != [] && AllCreatable(path)
  {
    if |path| == 1 then Obj(map[path[0] := v])
    else
      assert forall i | 0 <= i < |path[1..]| - 1 :: path[1..][i] == path[i + 1];
      Extended(Null, path[0], Made(path[1..], v))
  }

  /** Where it is. */
  function MadePlaces(path: Path): (places: seq<Step>)
    requires path != [] && AllCreatable(path)
  {
    if |path| == 1 then [Key(path[0])]
    else
      assert forall i | 0 <= i < |path[1..]| - 1 :: path[1..][i] == path[i + 1];
      [PlaceIn(Null, path[0])] + MadePlaces(path[1..])
  }

  // ---------- Unchecked access makes exactly this ----------

  lemma VivifyExtends(j: Json, token: string, below: Json)
    requires Resolve(j, token).Err? && Vivify(j, token).Ok?
    ensures Absent(j, token) && Child(Vivify(j, token).value.0, Vivify(j, token).value.1) == Null
    ensures WithChild(Vivify(j, token).value.0, Vivify(j, token).value.1, below) == Extended(j, token, below)
  {
    hide ArrayIndex, DigitsValue;
    VivifyAbsent(j, token);
    if j.Null? && AllDigits(token) {
      IndexOfDigits(token);
      assert token != "" ==> '0' <= token[0] <= '9';
    }
  }

  lemma {:induction false} MadeBelowNull(path: Path, token: string, v: Json)
    requires EditUnchecked(Null, path, InsertChild(token, v)).Ok?
    ensures AllCreatable(path + [token])
    ensures EditUnchecked(Null, path, InsertChild(token, v)).value == Made(path + [token], v)
    decreases |path|
  {
    hide Vivify, CanCreate, Extended, Child, WithChild;
    CreatedBelowNull(path, token, v);
    var all := path + [token];
    assert forall i | 0 <= i < |all| - 1 :: all[i] == path[i];
    if path != [] {
      NullHasNothing(path[0]);
      var c := EditUnchecked(Null, path[1..], InsertChild(token, v));
      VivifyNull(path[0]);
      VivifyExtends(Null, path[0], if c.Ok? then c.value else Null);
      MadeBelowNull(path[1..], token, v);
      assert all[1..] == path[1..] + [token];
    }
  }

  lemma NullHasNothing(token: string)
    ensures Resolve(Null, token).Err?
  {
  }

  lemma {:induction false} UncheckedExtends(j: Json, path: Path, k: nat, token: string, v: Json)
    requires k < |path| && At(j, path[..k]).Ok? && Resolve(At(j, path[..k]).value, path[k]).Err?
    requires EditUnchecked(j, path, InsertChild(token, v)).Ok?
    ensures Absent(At(j, path[..k]).value, path[k]) && AllCreatable(path[k + 1..] + [token])
    ensures var made := Made(path[k + 1..] + [token], v);
      EditUnchecked(j, path, InsertChild(token, v)) ==
        EditAt(j, path[..k], Assign(Extended(At(j, path[..k]).value, path[k], made)))
    decreases k
  {
    hide Vivify, Resolve, Absent, Extended, Made, Child, WithChild, AllCreatable;
    if k == 0 {
      var grown := Vivify(j, path[0]).value;
      VivifyExtends(j, path[0], Null);
      MadeBelowNull(path[1..], token, v);
      VivifyExtends(j, path[0], Made(path[1..] + [token], v));
    } else {
      assert path[..k][0] == path[0] && path[..k][1..] == path[1..][..k - 1];
      var at := Resolve(j, path[0]).value;
      VivifyExisting(j, path[0]);
      assert path[1..][k - 1] == path[k] && path[1..][k..] == path[k + 1..];
      UncheckedExtends(Child(j, at), path[1..], k - 1, token, v);
    }
  }

  /** The first token of a path without parent that does not resolve. */
  lemma {:induction false} FirstMissing(doc: Json, path: Path) returns (k: nat)
    requires At(doc, path).Err?
    ensures k < |path| && At(doc, path[..k]).Ok? && Resolve(At(doc, path[..k]).value, path[k]).Err?
    decreases |path|
  {
    hide Resolve, Child;
    if Resolve(doc, path[0]).Err? {
      k := 0;
    } else {
      var below := FirstMissing(Child(doc, Resolve(doc, path[0]).value), path[1..]);
      k := below + 1;
      assert path[..k][0] == path[0] && path[..k][1..] == path[1..][..below] && path[1..][below] == path[k];
    }
  }

  /**
   A successful `add` without a parent: the document with the value at the first missing token extended, and what
   the remaining tokens make below it.
   */
  lemma AddCreates(doc: Json, path: Path, k: nat, v: Json)
    requires k + 1 < |path| && At(doc, path[..k]).Ok? && Resolve(At(doc, path[..k]).value, path[k]).Err?
    requires OperationAdd(doc, path, v).Ok?
    ensures Absent(At(doc, path[..k]).value, path[k]) && AllCreatable(path[k + 1..])
    ensures OperationAdd(doc, path, v) ==
      EditAt(doc, path[..k], Assign(Extended(At(doc, path[..k]).value, path[k], Made(path[k + 1..], v))))
  {
    hide EditUnchecked, EditAt, At, Resolve, Absent, Extended, Made, AllCreatable;
    var up := Parent(path);
    assert up[..k] == path[..k] && up[k] == path[k] && up[k + 1..] + [Last(path)] == path[k + 1..];
    UncheckedExtends(doc, up, k, Last(path), v);
  }

  // ---------- When it fails ----------

  /** The error of a number that cannot be created below null. */
  function NumberError(token: string): (e: Error) {
    if token == "" then Numbered(109) else if |token| > 1 && token[0] == '0' then Numbered(106) else StdOutOfRange
  }

  /** The error of unchecked access at a token that neither resolves nor is absent. */
  function GrowError(j: Json, token: string): (e: Error) {
    if j.Null? then NumberError(token)
    else if !j.Arr? then Numbered(404)
    else if |token| > 1 && token[0] == '0' then Numbered(106)
    else if ArrayIndex(token) == Err(StdInvalidArgument) then Numbered(109)
    else if ArrayIndex(token) == Err(StdOutOfRange) then StdOutOfRange
    else if ArrayIndex(token).Err? then Numbered(404)
    else StdLengthError
  }

  predicate AnyUncreatable(path: Path) {
    exists i :: 0 <= i < |path| && !CanCreate(path[i])
  }

  /** The first token that cannot be created below null. */
  function Uncreatable(path: Path): (i: nat)
    requires AnyUncreatable(path)
    ensures i < |path| && !CanCreate(path[i]) && forall j | 0 <= j < i :: CanCreate(path[j])
  {
    if !CanCreate(path[0]) then 0
    else
      var i :| 0 <= i < |path| && !CanCreate(path[i]);
      assert path[1..][i - 1] == path[i];
      1 + Uncreatable(path[1..])
  }

  lemma VivifyFails(j: Json, token: string)
    requires Resolve(j, token).Err? && !Absent(j, token)
    ensures Vivify(j, token) == Err(GrowError(j, token))
  {
    hide DigitsValue, Stoi;
    if j.Null? {
      IndexOfDigits(token);
      assert token != "" ==> '0' <= token[0] <= '9';
    }
  }

  lemma {:induction false} FailsBelowNull(path: Path, token: string, v: Json)
    requires EditUnchecked(Null, path, InsertChild(token, v)).Err?
    ensures AnyUncreatable(path)
    ensures EditUnchecked(Null, path, InsertChild(token, v)).error == NumberError(path[Uncreatable(path)])
    decreases |path|
  {
    hide Vivify, CanCreate, Child, NumberError, Absent, GrowError;
    CreatedBelowNull(path, token, v);
    NullHasNothing(path[0]);
    VivifyNull(path[0]);
    CreatableIsAbsent(path[0]);
    if !CanCreate(path[0]) {
      VivifyFails(Null, path[0]);
      NullError(path[0]);
    } else {
      FailsBelowNull(path[1..], token, v);
    }
  }

  lemma NullError(token: string)
    ensures GrowError(Null, token) == NumberError(token)
  {
  }

  /**
   A failing `add` without a parent: the first token is checked, the first missing one must be absent, and those
   after it must be such that they can be created. The error is that of the first token for which this fails.
   */
  lemma AddFails(doc: Json, path: Path, k: nat, v: Json)
    requires k + 1 < |path| && At(doc, path[..k]).Ok? && Resolve(At(doc, path[..k]).value, path[k]).Err?
    requires OperationAdd(doc, path, v).Err?
    ensures k > 0 && Absent(At(doc, path[..k]).value, path[k]) ==> AnyUncreatable(Parent(path)[k + 1..])
    ensures var base, rest := At(doc, path[..k]).value, Parent(path)[k + 1..];
      OperationAdd(doc, path, v).error ==
        if k == 0 then ErrorOf(doc, path[0])
        else if !Absent(base, path[k]) then GrowError(base, path[k])
        else NumberError(rest[Uncreatable(rest)])
  {
    hide EditUnchecked, Resolve, Absent, GrowError, NumberError, ErrorOf, CanCreate;
    if k == 0 {
      assert path[..1] == [path[0]];
      AtOne(doc, path[0]);
      ResolveError(doc, path[0]);
    } else {
      var up := Parent(path);
      assert up[..k] == path[..k] && up[k] == path[k];
      FirstResolves(doc, path, k);
      UncheckedFails(doc, up, k, Last(path), v);
    }
  }

  lemma FirstResolves(doc: Json, path: Path, k: nat)
    requires 0 < k < |path| && At(doc, path[..k]).Ok?
    ensures At(doc, path[..1]).Ok?
  {
    hide Resolve;
    assert path[..k][0] == path[0] && path[..1] == [path[0]];
    AtOne(doc, path[0]);
  }

  lemma {:induction false} UncheckedFails(j: Json, path: Path, k: nat, token: string, v: Json)
    requires k < |path| && At(j, path[..k]).Ok? && Resolve(At(j, path[..k]).value, path[k]).Err?
    requires EditUnchecked(j, path, InsertChild(token, v)).Err?
    ensures Absent(At(j, path[..k]).value, path[k]) ==> AnyUncreatable(path[k + 1..])
    ensures var base, rest := At(j, path[..k]).value, path[k + 1..];
      EditUnchecked(j, path, InsertChild(token, v)).error ==
        if !Absent(base, path[k]) then GrowError(base, path[k]) else NumberError(rest[Uncreatable(rest)])
    decreases k
  {
    hide Vivify, Resolve, Absent, Child, WithChild, GrowError, NumberError, CanCreate;
    if k > 0 {
      assert path[..k][0] == path[0] && path[..k][1..] == path[1..][..k - 1];
      VivifyExisting(j, path[0]);
      assert path[1..][k - 1] == path[k] && path[1..][k..] == path[k + 1..];
      UncheckedFails(Child(j, Resolve(j, path[0]).value), path[1..], k - 1, token, v);
    } else if Absent(j, path[0]) {
      VivifyAbsent(j, path[0]);
      FailsBelowNull(path[1..], token, v);
    } else {
      VivifyFails(j, path[0]);
    }
  }

  // ---------- What that is, place by place ----------

  /** One member more, elements kept and nulls up to the new one, an array exactly for a number or "-". */
  lemma ExtendedShape(j: Json, token: string, below: Json)
    requires Absent(j, token)
    ensures var r, at := Extended(j, token, below), PlaceIn(j, token);
      && HasChild(r, at) && Child(r, at) == below && !HasChild(j, at)
      && (forall other | HasChild(j, other) :: HasChild(r, other) && Child(r, other) == Child(j, other))
      && (j.Obj? ==> r.Obj? && at == Key(token) && r.m.Keys == j.m.Keys + {token})
      && (j.Arr? ==> r.Arr? && at.Index? && |r.a| == at.i + 1)
      && (j.Null? ==> (r.Arr? <==> token == "-" || AllDigits(token)) && (r.Obj? <==> !r.Arr?))
      && (j.Null? && r.Arr? ==> at.Index? && |r.a| == at.i + 1)
      && (j.Null? && r.Obj? ==> at == Key(token) && r.m.Keys == {token})
      && (forall i | HasChild(r, Index(i)) && !HasChild(j, Index(i)) && Index(i) != at :: Child(r, Index(i)) == Null)
  {
    hide ArrayIndex, DigitsValue;
    if j.Arr? {
      var more := if token == "-" then [] else Nulls(ArrayIndex(token).value - |j.a|);
      assert Extended(j, token, below).a == j.a + more + [below];
    }
  }

  lemma {:induction false} MadeIsFound(path: Path, v: Json)
    requires path != [] && AllCreatable(path)
    ensures Sub(Made(path, v), MadePlaces(path)) == Some(v)
    decreases |path|
  {
    hide Child, Extended, PlaceIn, Absent, CanCreate;
    if |path| == 1 {
      NamedMember(path[0], v);
    } else {
      assert forall i | 0 <= i < |path[1..]| - 1 :: path[1..][i] == path[i + 1];
      MadeIsFound(path[1..], v);
      CreatableIsAbsent(path[0]);
      ExtendedShape(Null, path[0], Made(path[1..], v));
      SubCons(Made(path, v), PlaceIn(Null, path[0]), MadePlaces(path[1..]));
    }
  }

  lemma CreatableIsAbsent(token: string)
    ensures CanCreate(token) <==> Absent(Null, token)
  {
  }

  lemma NamedMember(token: string, v: Json)
    ensures Sub(Obj(map[token := v]), [Key(token)]) == Some(v)
  {
    assert [Key(token)][1..] == [];
  }

  lemma {:induction false} SubAfterAssign(doc: Json, path: Path, w: Json, below: seq<Step>)
    requires At(doc, path).Ok?
    ensures Locate(doc, path).Ok? && EditAt(doc, path, Assign(w)).Ok?
    ensures Sub(EditAt(doc, path, Assign(w)).value, Locate(doc, path).value + below) == Sub(w, below)
    decreases |path|
  {
    hide Resolve, Child, WithChild;
    if path == [] {
      assert Locate(doc, path).value + below == below;
    } else {
      var at := Resolve(doc, path[0]).value;
      var rest := Locate(Child(doc, at), path[1..]).value;
      SubAfterAssign(Child(doc, at), path[1..], w, below);
      assert Locate(doc, path).value + below == [at] + (rest + below);
      SubCons(EditAt(doc, path, Assign(w)).value, at, rest + below);
    }
  }

  /** The places `add` goes to when the tokens from `k` on are missing. */
  function CreatedPlaces(doc: Json, path: Path, k: nat): (places: seq<Step>)
    requires k + 1 < |path| && At(doc, path[..k]).Ok?
    requires Absent(At(doc, path[..k]).value, path[k]) && AllCreatable(path[k + 1..])
  {
    Locate(doc, path[..k]).value + ([PlaceIn(At(doc, path[..k]).value, path[k])] + MadePlaces(path[k + 1..]))
  }

  /** The value is found at the places created. */
  lemma CreatedIsFound(doc: Json, path: Path, k: nat, v: Json)
    requires k + 1 < |path| && At(doc, path[..k]).Ok? && Resolve(At(doc, path[..k]).value, path[k]).Err?
    requires OperationAdd(doc, path, v).Ok?
    ensures Absent(At(doc, path[..k]).value, path[k]) && AllCreatable(path[k + 1..])
    ensures Sub(OperationAdd(doc, path, v).value, CreatedPlaces(doc, path, k)) == Some(v)
  {
    hide OperationAdd, EditAt, At, Locate, Resolve, Absent, Extended, PlaceIn, Made, AllCreatable, MadePlaces;
    hide Sub, Child;
    AddCreates(doc, path, k, v);
    var base, made := At(doc, path[..k]).value, Made(path[k + 1..], v);
    var at, below := PlaceIn(base, path[k]), MadePlaces(path[k + 1..]);
    SubAfterAssign(doc, path[..k], Extended(base, path[k], made), [at] + below);
    ExtendedShape(base, path[k], made);
    SubCons(Extended(base, path[k], made), at, below);
    MadeIsFound(path[k + 1..], v);
  }

  lemma ExtendedResolves(j: Json, token: string, below: Json)
    requires Absent(j, token)
    ensures Resolve(Extended(j, token, below), token) ==
      if token == "-" && !j.Obj? then Err(Numbered(402)) else Ok(PlaceIn(j, token))
  {
    hide DigitsValue, Stoi;
    if j.Null? && AllDigits(token) {
      IndexOfDigits(token);
      assert '0' <= token[0] <= '9';
    }
  }

  /** No token but the last is the one for the end of an array. */
  predicate Dashless(path: Path) {
    forall i | 0 <= i < |path| - 1 :: path[i] != "-"
  }

  lemma {:induction false} MadeByPointer(path: Path, v: Json)
    requires path != [] && AllCreatable(path)
    ensures if Dashless(path) then At(Made(path, v), path) == Ok(v) else At(Made(path, v), path).Err?
    decreases |path|
  {
    hide Resolve, Child, Extended, PlaceIn, Absent, CanCreate;
    if |path| == 1 {
      MemberResolves(path[0], v);
    } else {
      assert forall i | 0 <= i < |path[1..]| - 1 :: path[1..][i] == path[i + 1];
      assert forall i | 1 <= i < |path| - 1 :: path[i] == path[1..][i - 1];
      MadeByPointer(path[1..], v);
      CreatableIsAbsent(path[0]);
      NullIsNoObject();
      ExtendedResolves(Null, path[0], Made(path[1..], v));
      ExtendedShape(Null, path[0], Made(path[1..], v));
    }
  }

  lemma NullIsNoObject()
    ensures !Null.Obj?
  {
  }

  lemma MemberResolves(token: string, v: Json)
    ensures At(Obj(map[token := v]), [token]) == Ok(v)
  {
    AtOne(Obj(map[token := v]), token);
  }

  /** The pointer itself finds the value exactly when none of its created places is an array's end written "-". */
  lemma CreatedByPointer(doc: Json, path: Path, k: nat, v: Json)
    requires k + 1 < |path| && At(doc, path[..k]).Ok? && Resolve(At(doc, path[..k]).value, path[k]).Err?
    requires OperationAdd(doc, path, v).Ok?
    ensures var found := At(OperationAdd(doc, path, v).value, path);
      if (path[k] == "-" ==> At(doc, path[..k]).value.Obj?) && Dashless(path[k + 1..]) then found == Ok(v)
      else found.Err?
  {
    hide OperationAdd, EditAt, Resolve, Absent, Extended, PlaceIn, Made, AllCreatable, Child, Dashless;
    AddCreates(doc, path, k, v);
    var base, made := At(doc, path[..k]).value, Made(path[k + 1..], v);
    EditTwice(doc, path[..k], Extended(base, path[k], made), Assign(Null));
    assert path == path[..k] + path[k..] && path[k..][0] == path[k] && path[k..][1..] == path[k + 1..];
    AtPrefix(OperationAdd(doc, path, v).value, path[..k], path[k..]);
    ExtendedResolves(base, path[k], made);
    ExtendedShape(base, path[k], made);
    MadeByPointer(path[k + 1..], v);
  }

  // ---------- Everything else is kept ----------

  lemma ExtendedResolve(j: Json, token: string, below: Json, other: string)
    requires Absent(j, token) && Resolve(j, other).Ok?
    ensures Resolve(Extended(j, token, below), other) == Resolve(j, other)
  {
    hide ArrayIndex, DigitsValue;
  }

  lemma PrefixCons<T>(t: T, p: seq<T>, q: seq<T>)
    ensures [t] + p <= [t] + q <==> p <= q
  {
    assert ([t] + p)[1..] == p && ([t] + q)[1..] == q;
    if p <= q {
      assert q == p + q[|p|..];
      assert [t] + q == [t] + p + q[|p|..];
    }
  }

  /** Extending the value at `path` keeps what is found by every pointer that does not lead towards the new place. */
  lemma {:induction false} KeptBeside(doc: Json, path: Path, token: string, w: Json, below: seq<Step>, q: Path)
    requires At(doc, path).Ok? && Absent(At(doc, path).value, token) && At(doc, q).Ok?
    requires !(Locate(doc, q).value <= Locate(doc, path).value + below)
    ensures EditAt(doc, path, Assign(Extended(At(doc, path).value, token, w))).Ok?
    ensures At(EditAt(doc, path, Assign(Extended(At(doc, path).value, token, w))).value, q) == At(doc, q)
    decreases |path|
  {
    hide Resolve, Child, WithChild, Extended, Absent;
    EditBelow(doc, path, [], Assign(Null));
    if q != [] {
      var t := Resolve(doc, q[0]).value;
      if path == [] {
        ExtendedResolve(doc, token, w, q[0]);
        ExtendedShape(doc, token, w);
      } else {
        var s := Resolve(doc, path[0]).value;
        var extended := Extended(At(doc, path).value, token, w);
        var c := EditAt(Child(doc, s), path[1..], Assign(extended)).value;
        ResolveAfter(doc, s, c, q[0]);
        if s == t {
          var lq, lp := Locate(Child(doc, s), q[1..]).value, Locate(Child(doc, s), path[1..]).value;
          PrefixCons(s, lq, lp + below);
          assert [s] + lp + below == [s] + (lp + below);
          KeptBeside(Child(doc, s), path[1..], token, w, below, q[1..]);
        }
      }
    }
  }

  /** Every pointer that resolved, and is not on the way to the created place, still finds the same value. */
  lemma OthersKept(doc: Json, path: Path, k: nat, v: Json, q: Path)
    requires k + 1 < |path| && At(doc, path[..k]).Ok? && Resolve(At(doc, path[..k]).value, path[k]).Err?
    requires OperationAdd(doc, path, v).Ok? && At(doc, q).Ok?
    requires Absent(At(doc, path[..k]).value, path[k]) && AllCreatable(path[k + 1..])
    requires !(Locate(doc, q).value <= CreatedPlaces(doc, path, k))
    ensures At(OperationAdd(doc, path, v).value, q) == At(doc, q)
  {
    hide OperationAdd, EditAt, At, Locate, Resolve, Absent, Extended, PlaceIn, Made, AllCreatable, MadePlaces;
    AddCreates(doc, path, k, v);
    var base := At(doc, path[..k]).value;
    var below := [PlaceIn(base, path[k])] + MadePlaces(path[k + 1..]);
    KeptBeside(doc, path[..k], path[k], Made(path[k + 1..], v), below, q);
  }
}
