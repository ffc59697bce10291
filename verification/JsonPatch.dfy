/**
 Pointer resolution and the six JSON Patch operations, on parsed pointers.
 Each operation maps the working copy to its successor or to the error that abandons the patch.
 */
module JsonPatch {
  import opened JsonPointer
  import opened JsonValue
  import opened Wrappers

  // ---------- One level of a document ----------

  datatype Step = Key(k: string) | Index(i: nat)

  predicate HasChild(j: Json, at: Step) {
    match at
    case Key(k) => j.Obj? && k in j.m
    case Index(i) => j.Arr? && i < |j.a|
  }

  function Child(j: Json, at: Step): (c: Json)
    requires HasChild(j, at)
  {
    match at
    case Key(k) => j.m[k]
    case Index(i) => j.a[i]
  }

  function WithChild(j: Json, at: Step, c: Json): (r: Json)
    requires HasChild(j, at)
    ensures HasChild(r, at) && Child(r, at) == c
    ensures forall other: Step :: HasChild(r, other) <==> HasChild(j, other)
    ensures forall other: Step | HasChild(j, other) && other != at :: Child(r, other) == Child(j, other)
  {
    match at
    case Key(k) => Obj(j.m[k := c])
    case Index(i) => Arr(j.a[i := c])
  }

  /** The value at a place. */
  function Sub(j: Json, places: seq<Step>): (r: Option<Json>) {
    if places == [] then Some(j)
    else if HasChild(j, places[0]) then Sub(Child(j, places[0]), places[1..])
    else None
  }

  lemma SubCons(j: Json, at: Step, below: seq<Step>)
    ensures Sub(j, [at] + below) == if HasChild(j, at) then Sub(Child(j, at), below) else None
  {
    hide Child;
    assert ([at] + below)[1..] == below;
  }

  // ---------- get_checked: `at(json_pointer)` ----------

  function Resolve(j: Json, token: string): (r: Result<Step, Error>)
    ensures r.Ok? ==> HasChild(j, r.value)
  {
    match j
    case Obj(m) => if token in m then Ok(Key(token)) else Err(Numbered(403))
    case Arr(a) =>
      if token == "-" then Err(Numbered(402))
      else if |token| > 1 && token[0] == '0' then Err(Numbered(106))
      else (
        match ArrayIndex(token)
        case Err(StdInvalidArgument) => Err(Numbered(109))
        case Err(e) => Err(e)
        case Ok(i) => if 0 <= i < |a| then Ok(Index(i)) else Err(Numbered(401))
      )
    case _ => Err(Numbered(404))
  }

  function At(j: Json, path: Path): (r: Result<Json, Error>) {
    if path == [] then Ok(j)
    else
      var at :- Resolve(j, path[0]);
      At(Child(j, at), path[1..])
  }

  /** The loop of `get_checked`, one reference token a round. */
  method GetChecked(j: Json, path: Path) returns (r: Result<Json, Error>)
    ensures r == At(j, path)
  {
    hide Resolve, Child;
    var ptr := j;
    for i := 0 to |path|
      invariant At(ptr, path[i..]) == At(j, path)
    {
      assert path[i..][1..] == path[i + 1..];
      var at := Resolve(ptr, path[i]);
      if at.Err? {
        return Err(at.error);
      }
      ptr := Child(ptr, at.value);
    }
    return Ok(ptr);
  }

  // ---------- What an operation does to the value it reaches ----------

  datatype Edit =
    | Assign(value: Json)
    | InsertChild(token: string, value: Json)
    | EraseChild(token: string)

  function ApplyEdit(j: Json, e: Edit): (r: Result<Json, Error>) {
    match e
    case Assign(v) => Ok(v)
    case InsertChild(token, v) => Insert(j, token, v)
    case EraseChild(token) => Erase(j, token)
  }

  /** The switch of `operation_add` on the type of the parent. */
  function Insert(parent: Json, token: string, v: Json): (r: Result<Json, Error>) {
    match parent
    case Null => Ok(Obj(map[token := v]))
    case Obj(m) => Ok(Obj(m[token := v]))
    case Arr(a) =>
      if token == "-" then Ok(Arr(a + [v]))
      else
        var i :- ArrayIndex(token);
        if 0 <= i <= |a| then Ok(Arr(a[..i] + [v] + a[i..])) else Err(Numbered(401))
    case _ => Err(AssertionFailed)
  }

  /** The branches of `operation_remove`; a primitive parent is left alone. */
  function Erase(parent: Json, token: string): (r: Result<Json, Error>) {
    match parent
    case Obj(m) => if token in m then Ok(Obj(m - {token})) else Err(Numbered(403))
    case Arr(a) =>
      var i :- ArrayIndex(token);
      if 0 <= i < |a| then Ok(Arr(a[..i] + a[i + 1..])) else Err(Numbered(401))
    case _ => Ok(parent)
  }

  /** Editing the value reached with `at`. */
  function EditAt(j: Json, path: Path, e: Edit): (r: Result<Json, Error>) {
    if path == [] then ApplyEdit(j, e)
    else
      var at :- Resolve(j, path[0]);
      var c :- EditAt(Child(j, at), path[1..], e);
      Ok(WithChild(j, at, c))
  }

  // ---------- get_unchecked: `operator[](json_pointer)` ----------

  predicate AllDigits(token: string) {
    forall i | 0 <= i < |token| :: '0' <= token[i] <= '9'
  }

  /** Makes `token` resolve, turning null into a container and growing containers with nulls. */
  function Vivify(j: Json, token: string): (r: Result<(Json, Step), Error>)
    ensures r.Ok? ==> HasChild(r.value.0, r.value.1)
  {
    match j
    case Null =>
      if AllDigits(token) || token == "-" then VivifyArray([], token)
      else Ok((Obj(map[token := Null]), Key(token)))
    case Obj(m) => Ok((Obj(if token in m then m else m[token := Null]), Key(token)))
    case Arr(a) => VivifyArray(a, token)
    case _ => Err(Numbered(404))
  }

  function VivifyArray(a: seq<Json>, token: string): (r: Result<(Json, Step), Error>)
    ensures r.Ok? ==> HasChild(r.value.0, r.value.1)
  {
    if |token| > 1 && token[0] == '0' then Err(Numbered(106))
    else if token == "-" then Ok((Arr(a + [Null]), Index(|a|)))
    else
      match ArrayIndex(token)
      case Err(StdInvalidArgument) => Err(Numbered(109))
      case Err(e) => Err(e)
      case Ok(i) =>
        if i < 0 then Err(StdLengthError)
        else if i < |a| then Ok((Arr(a), Index(i)))
        else Ok((Arr(a + seq(i - |a| + 1, _ => Null)), Index(i)))
  }

  function EditUnchecked(j: Json, path: Path, e: Edit): (r: Result<Json, Error>)
    decreases |path|
  {
    if path == [] then ApplyEdit(j, e)
    else
      var (grown, at) :- Vivify(j, path[0]);
      var c :- EditUnchecked(Child(grown, at), path[1..], e);
      Ok(WithChild(grown, at, c))
  }

  // ---------- The operations ----------

  function Parent(path: Path): (p: Path)
    requires path != []
  {
    path[..|path| - 1]
  }

  function Last(path: Path): (token: string)
    requires path != []
  {
    path[|path| - 1]
  }

  function OperationAdd(doc: Json, path: Path, v: Json): (r: Result<Json, Error>) {
    if path == [] then Ok(v)
    else if |path| > 1 && At(doc, path[..1]).Err? then Err(At(doc, path[..1]).error)
    else EditUnchecked(doc, Parent(path), InsertChild(Last(path), v))
  }

  function OperationRemove(doc: Json, path: Path): (r: Result<Json, Error>) {
    if path == [] then Err(Numbered(405))
    else EditAt(doc, Parent(path), EraseChild(Last(path)))
  }

  datatype Op =
    | Add(path: Path, value: Json)
    | Remove(path: Path)
    | Replace(path: Path, value: Json)
    | Move(path: Path, from: Path)
    | Copy(path: Path, from: Path)
    | Test(path: Path, value: Json)

  /** The errors a `test` operation turns into its own failure: the library's `out_of_range`. */
  predicate IsOutOfRange(e: Error) {
    e.Numbered? && 401 <= e.id <= 409
  }

  function Apply(doc: Json, op: Op): (r: Result<Json, Error>) {
    match op
    case Add(path, v) => OperationAdd(doc, path, v)
    case Remove(path) => OperationRemove(doc, path)
    case Replace(path, v) => EditAt(doc, path, Assign(v))
    case Move(path, from) =>
      var v :- At(doc, from);
      var removed :- OperationRemove(doc, from);
      OperationAdd(removed, path, v)
    case Copy(path, from) =>
      var v :- At(doc, from);
      OperationAdd(doc, path, v)
    case Test(path, v) =>
      match At(doc, path)
      case Ok(found) => if Equal(found, v) then Ok(doc) else Err(Numbered(501))
      case Err(e) => if IsOutOfRange(e) then Err(Numbered(501)) else Err(e)
  }

  function Run(doc: Json, ops: seq<Op>): (r: Result<Json, Error>)
    decreases |ops|
  {
    if ops == [] then Ok(doc)
    else
      var next :- Apply(doc, ops[0]);
      Run(next, ops[1..])
  }

  lemma RunOne(doc: Json, op: Op)
    ensures Run(doc, [op]) == Apply(doc, op)
  {
    assert [op][1..] == [];
  }

  lemma RunTwo(doc: Json, first: Op, second: Op)
    ensures Run(doc, [first, second]) ==
      var mid := Apply(doc, first);
      if mid.Ok? then Apply(mid.value, second) else mid
  {
    hide Apply;
    var ops := [first, second];
    assert ops[1..] == [second];
    var mid := Apply(doc, first);
    if mid.Ok? {
      RunOne(mid.value, second);
    }
  }

  lemma {:induction false} RunAppends(doc: Json, first: seq<Op>, second: seq<Op>)
    ensures Run(doc, first + second) == match Run(doc, first) case Ok(mid) => Run(mid, second) case Err(e) => Err(e)
    decreases |first|
  {
    if first == [] {
      assert first + second == second;
    } else {
      assert (first + second)[1..] == first[1..] + second;
      if Apply(doc, first[0]).Ok? {
        RunAppends(Apply(doc, first[0]).value, first[1..], second);
      }
    }
  }

  // ---------- Editing reaches exactly one place ----------

  lemma WithSameChild(j: Json, at: Step)
    requires HasChild(j, at)
    ensures WithChild(j, at, Child(j, at)) == j
  {
  }

  lemma WithChildTwice(j: Json, at: Step, c: Json, d: Json)
    requires HasChild(j, at)
    ensures WithChild(WithChild(j, at, c), at, d) == WithChild(j, at, d)
  {
  }

  /** Replacing one child does not change how tokens resolve. */
  lemma ResolveAfter(j: Json, at: Step, c: Json, token: string)
    requires HasChild(j, at)
    ensures Resolve(WithChild(j, at, c), token) == Resolve(j, token)
  {
  }

  /** An edit below `path` is the edit of the value there, put back; nothing else changes. */
  lemma {:induction false} EditBelow(doc: Json, path: Path, below: Path, e: Edit)
    ensures EditAt(doc, path + below, e) ==
      match At(doc, path)
      case Err(error) => Err(error)
      case Ok(sub) =>
        match EditAt(sub, below, e)
        case Err(error) => Err(error)
        case Ok(edited) => EditAt(doc, path, Assign(edited))
    ensures At(doc, path).Ok? ==> EditAt(doc, path, Assign(At(doc, path).value)) == Ok(doc)
    ensures forall v :: EditAt(doc, path, Assign(v)).Ok? <==> At(doc, path).Ok?
  {
    if path == [] {
      assert path + below == below;
    } else {
      assert (path + below)[1..] == path[1..] + below;
      var resolved := Resolve(doc, path[0]);
      if resolved.Ok? {
        EditBelow(Child(doc, resolved.value), path[1..], below, e);
        WithSameChild(doc, resolved.value);
      }
    }
  }

  /** Two edits at one place are their composition there. */
  lemma {:induction false} EditTwice(doc: Json, path: Path, v: Json, e: Edit)
    requires At(doc, path).Ok?
    ensures EditAt(doc, path, Assign(v)).Ok?
    ensures At(EditAt(doc, path, Assign(v)).value, path) == Ok(v)
    ensures EditAt(EditAt(doc, path, Assign(v)).value, path, e) ==
      match ApplyEdit(v, e) case Ok(w) => EditAt(doc, path, Assign(w)) case Err(error) => Err(error)
  {
    if path != [] {
      var at := Resolve(doc, path[0]).value;
      EditTwice(Child(doc, at), path[1..], v, e);
      var c := EditAt(Child(doc, at), path[1..], Assign(v)).value;
      ResolveAfter(doc, at, c, path[0]);
      if ApplyEdit(v, e).Ok? {
        EditBelow(Child(doc, at), path[1..], [], Assign(v));
        WithChildTwice(doc, at, c, EditAt(Child(doc, at), path[1..], Assign(ApplyEdit(v, e).value)).value);
      }
    }
  }

  // ---------- Where `add` creates nothing ----------

  /** `add` through checked access to the parent. */
  function AddChecked(doc: Json, path: Path, v: Json): (r: Result<Json, Error>) {
    if path == [] then Ok(v) else EditAt(doc, Parent(path), InsertChild(Last(path), v))
  }

  /** Unchecked resolution follows every token that checked resolution follows, and fails alike on oversized indices. */
  lemma {:induction false} UncheckedFollows(doc: Json, path: Path, e: Edit)
    requires At(doc, path).Ok? || At(doc, path) == Err(StdOutOfRange)
    ensures EditUnchecked(doc, path, e) == EditAt(doc, path, e)
  {
    if path != [] && Resolve(doc, path[0]).Ok? {
      UncheckedFollows(Child(doc, Resolve(doc, path[0]).value), path[1..], e);
    }
  }

  lemma AddWithParent(doc: Json, path: Path, v: Json)
    requires path != [] ==> At(doc, Parent(path)).Ok? || At(doc, Parent(path)) == Err(StdOutOfRange)
    ensures OperationAdd(doc, path, v) == AddChecked(doc, path, v)
  {
    if path != [] {
      UncheckedFollows(doc, Parent(path), InsertChild(Last(path), v));
      if |path| > 1 {
        AtPrefix(doc, path[..1], Parent(path)[1..]);
        assert path[..1] + Parent(path)[1..] == Parent(path);
        EditBelow(doc, path[..1], Parent(path)[1..], InsertChild(Last(path), v));
      }
    }
  }

  lemma {:induction false} AtPrefix(doc: Json, path: Path, below: Path)
    ensures At(doc, path + below) == match At(doc, path) case Ok(sub) => At(sub, below) case Err(e) => Err(e)
  {
    if path == [] {
      assert path + below == below;
    } else {
      assert (path + below)[1..] == path[1..] + below;
      if Resolve(doc, path[0]).Ok? {
        AtPrefix(Child(doc, Resolve(doc, path[0]).value), path[1..], below);
      }
    }
  }
}
