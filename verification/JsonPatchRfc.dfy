/**
 The patch operations that edit one place, as section 4 of RFC 6902 and section 4 of RFC 6901 define them,
 and exactly where the code departs from them.
 */
module JsonPatchRfc {
  import opened Decimal
  import opened Doubles
  import opened JsonPatch
  import opened JsonPatchLaws
  import opened JsonPointer
  import opened JsonValue
  import opened Widths
  import opened Wrappers

  // ---------- RFC 6901, section 4: what a pointer references ----------

  /** The grammar of an array index: digits without a leading zero. */
  predicate IsIndex(token: string) {
    token != "" && AllDigits(token) && (|token| > 1 ==> token[0] != '0')
  }

  function Refer(j: Json, token: string): (at: Option<Step>)
    ensures at.Some? ==> HasChild(j, at.value)
  {
    match j
    case Obj(m) => if token in m then Some(Key(token)) else None
    case Arr(a) => if IsIndex(token) && DigitsValue(token) < |a| then Some(Index(DigitsValue(token))) else None
    case _ => None
  }

  /** The value a pointer references, if any. */
  function Evaluate(j: Json, path: Path): (r: Option<Json>) {
    if path == [] then Some(j)
    else
      match Refer(j, path[0])
      case None => None
      case Some(at) => Evaluate(Child(j, at), path[1..])
  }

  // ---------- RFC 6902, sections 4.1 to 4.3 ----------

  /** The target rules: an object or array to add to, an index within bounds, something to remove. */
  predicate Permits(parent: Json, e: Edit) {
    match e
    case Assign(_) => true
    case InsertChild(token, _) =>
      parent.Obj? || (parent.Arr? && (token == "-" || (IsIndex(token) && DigitsValue(token) <= |parent.a|)))
    case EraseChild(token) => Refer(parent, token).Some?
  }

  function Edited(parent: Json, e: Edit): (r: Option<Json>) {
    if !Permits(parent, e) then None
    else
      match e
      case Assign(v) => Some(v)
      case InsertChild(token, v) =>
        if parent.Obj? then Some(Obj(parent.m[token := v]))
        else
          var i := if token == "-" then |parent.a| else DigitsValue(token);
          Some(Arr(parent.a[..i] + [v] + parent.a[i..]))
      case EraseChild(token) =>
        match Refer(parent, token).value
        case Key(k) => Some(Obj(parent.m - {k}))
        case Index(i) => Some(Arr(parent.a[..i] + parent.a[i + 1..]))
  }

  function EditRfc(j: Json, path: Path, e: Edit): (r: Option<Json>) {
    if path == [] then Edited(j, e)
    else
      match Refer(j, path[0])
      case None => None
      case Some(at) =>
        match EditRfc(Child(j, at), path[1..], e)
        case None => None
        case Some(c) => Some(WithChild(j, at, c))
  }

  function AddRfc(doc: Json, path: Path, v: Json): (r: Option<Json>) {
    if path == [] then Some(v) else EditRfc(doc, Parent(path), InsertChild(Last(path), v))
  }

  function RemoveRfc(doc: Json, path: Path): (r: Option<Json>)
    requires path != []
  {
    EditRfc(doc, Parent(path), EraseChild(Last(path)))
  }

  function ReplaceRfc(doc: Json, path: Path, v: Json): (r: Option<Json>) {
    EditRfc(doc, path, Assign(v))
  }

  /** Both succeed with one result, or both fail. */
  predicate Agrees(r: Result<Json, Error>, rfc: Option<Json>) {
    r.Ok? == rfc.Some? && (r.Ok? ==> r.value == rfc.value)
  }

  // ---------- One level ----------

  /** The code's reading of an index: signs, blanks and padding included, as far as an `int` goes. */
  predicate ReadsWithin(token: string, size: nat) {
    ArrayIndex(token).Ok? && 0 <= ArrayIndex(token).value < size
  }

  /** What the code edits. */
  predicate Accepts(parent: Json, e: Edit) {
    match e
    case Assign(_) => true
    case InsertChild(token, _) =>
      parent.Null? || parent.Obj? || (parent.Arr? && (token == "-" || ReadsWithin(token, |parent.a| + 1)))
    case EraseChild(token) =>
      if parent.Obj? then token in parent.m else parent.Arr? ==> ReadsWithin(token, |parent.a|)
  }

  /** An index below `size` that only the code reads, or that only the RFC allows because it exceeds an `int`. */
  predicate IndexDeparts(token: string, size: nat) {
    if IsIndex(token) then INT_MAX < DigitsValue(token) < size else ReadsWithin(token, size)
  }

  /** Where the code and the RFC differ on the value that is edited. */
  predicate EditDeparts(parent: Json, e: Edit) {
    match e
    case Assign(_) => false
    case InsertChild(token, _) =>
      parent.Null? || (parent.Arr? && token != "-" && IndexDeparts(token, |parent.a| + 1))
    case EraseChild(token) => !parent.Obj? && (parent.Arr? ==> IndexDeparts(token, |parent.a|))
  }

  lemma DashIsNoNumber()
    ensures ArrayIndex("-") == Err(StdInvalidArgument)
  {
  }

  lemma IndexRead(token: string)
    requires IsIndex(token)
    ensures ArrayIndex(token) == if DigitsValue(token) <= INT_MAX then Ok(DigitsValue(token)) else Err(StdOutOfRange)
  {
    hide ArrayIndex, DigitsValue;
    IndexOfDigits(token);
  }

  lemma EditMeetsRfcHere(parent: Json, e: Edit)
    ensures ApplyEdit(parent, e).Ok? <==> Accepts(parent, e)
    ensures Agrees(ApplyEdit(parent, e), Edited(parent, e)) <==> !EditDeparts(parent, e)
  {
    hide ArrayIndex, DigitsValue, IsIndex;
    DashIsNoNumber();
    match e
    case Assign(_) =>
    case InsertChild(token, v) =>
      if IsIndex(token) {
        IndexRead(token);
      }
      if parent.Arr? {
        var n := |parent.a|;
        assert parent.a[..n] + [v] + parent.a[n..] == parent.a + [v];
      }
    case EraseChild(token) =>
      if IsIndex(token) {
        IndexRead(token);
      }
  }

  /** Checked access follows a reference unless its index exceeds an `int`, and otherwise only foreign indices. */
  lemma ResolveMeetsRfc(j: Json, token: string)
    ensures Refer(j, token).Some? ==>
      var at := Refer(j, token).value;
      Resolve(j, token) == if at.Index? && at.i > INT_MAX then Err(StdOutOfRange) else Ok(at)
    ensures Resolve(j, token).Ok? ==> (Refer(j, token).Some? <==> (j.Arr? ==> IsIndex(token)))
  {
    hide ArrayIndex, DigitsValue, IsIndex;
    DashIsNoNumber();
    if IsIndex(token) {
      IndexRead(token);
      NotPadded(token);
    }
  }

  lemma NotPadded(token: string)
    requires IsIndex(token)
    ensures token != "-" && !(|token| > 1 && token[0] == '0')
  {
    assert '0' <= token[0] <= '9';
  }

  // ---------- Pointers ----------

  /** Every array index that checked access follows is written as RFC 6901 wants it. */
  predicate WrittenPlainly(j: Json, path: Path)
    requires At(j, path).Ok?
  {
    path != [] ==>
      && (j.Arr? ==> IsIndex(path[0]))
      && WrittenPlainly(Child(j, Resolve(j, path[0]).value), path[1..])
  }

  /** Every array index on the way to the referenced value fits an `int`. */
  predicate IndicesFit(j: Json, path: Path)
    requires Evaluate(j, path).Some?
  {
    path != [] ==>
      var at := Refer(j, path[0]).value;
      (at.Index? ==> at.i <= INT_MAX) && IndicesFit(Child(j, at), path[1..])
  }

  /**
   `at` finds what the RFC's evaluation finds. It finds more exactly when an index is not written plainly,
   and less exactly when an index exceeds an `int`.
   */
  lemma {:induction false} AtMeetsRfc(j: Json, path: Path)
    ensures At(j, path).Ok? && Evaluate(j, path).Some? ==> At(j, path).value == Evaluate(j, path).value
    ensures At(j, path).Ok? ==> (Evaluate(j, path).Some? <==> WrittenPlainly(j, path))
    ensures Evaluate(j, path).Some? ==> (At(j, path).Ok? <==> IndicesFit(j, path))
    ensures Evaluate(j, path).Some? && At(j, path).Err? ==> At(j, path) == Err(StdOutOfRange)
    decreases |path|
  {
    hide Resolve, Refer, Child, IsIndex;
    if path != [] {
      ResolveMeetsRfc(j, path[0]);
      if Refer(j, path[0]).Some? {
        AtMeetsRfc(Child(j, Refer(j, path[0]).value), path[1..]);
      } else if Resolve(j, path[0]).Ok? {
        AtMeetsRfc(Child(j, Resolve(j, path[0]).value), path[1..]);
      }
    }
  }

  /** Where an edit through checked access departs from the RFC. */
  predicate CheckedDeparts(doc: Json, path: Path, e: Edit) {
    match (At(doc, path), Evaluate(doc, path))
    case (Ok(parent), Some(_)) => EditDeparts(parent, e)
    case (Ok(parent), None) => Accepts(parent, e)
    case (Err(_), Some(parent)) => Permits(parent, e)
    case (Err(_), None) => false
  }

  lemma {:induction false} EditRfcSucceeds(j: Json, path: Path, e: Edit)
    ensures EditRfc(j, path, e).Some? <==> Evaluate(j, path).Some? && Permits(Evaluate(j, path).value, e)
    decreases |path|
  {
    hide Refer, Permits, Child, WithChild;
    if path == [] {
      EditedWhenPermitted(j, e);
    } else if Refer(j, path[0]).Some? {
      EditRfcSucceeds(Child(j, Refer(j, path[0]).value), path[1..], e);
    }
  }

  lemma EditedWhenPermitted(j: Json, e: Edit)
    ensures Edited(j, e).Some? <==> Permits(j, e)
  {
  }

  /** Where both find the place, putting the result back keeps agreement and disagreement. */
  lemma {:induction false} PutBackAgrees(j: Json, path: Path, e: Edit)
    requires At(j, path).Ok? && Evaluate(j, path).Some?
    ensures Agrees(EditAt(j, path, e), EditRfc(j, path, e)) <==>
      Agrees(ApplyEdit(At(j, path).value, e), Edited(At(j, path).value, e))
    decreases |path|
  {
    hide Resolve, Refer, Child, WithChild, ApplyEdit, Edited;
    if path != [] {
      ResolveMeetsRfc(j, path[0]);
      PutBackAgrees(Child(j, Refer(j, path[0]).value), path[1..], e);
    }
  }

  /** An edit through checked access meets the RFC exactly outside these cases. */
  lemma CheckedMeetsRfc(doc: Json, path: Path, e: Edit)
    ensures Agrees(EditAt(doc, path, e), EditRfc(doc, path, e)) <==> !CheckedDeparts(doc, path, e)
  {
    hide At, Evaluate, EditAt, EditRfc, ApplyEdit, Edited, Accepts, Permits, EditDeparts;
    AtMeetsRfc(doc, path);
    EditRfcSucceeds(doc, path, e);
    EditAtSucceeds(doc, path, e);
    if At(doc, path).Ok? {
      EditMeetsRfcHere(At(doc, path).value, e);
      if Evaluate(doc, path).Some? {
        PutBackAgrees(doc, path, e);
      }
    }
  }

  lemma EditAtSucceeds(doc: Json, path: Path, e: Edit)
    ensures EditAt(doc, path, e).Ok? <==> At(doc, path).Ok? && ApplyEdit(At(doc, path).value, e).Ok?
  {
    hide At, EditAt, ApplyEdit;
    assert path + [] == path;
    EditBelow(doc, path, [], e);
    if At(doc, path).Ok? {
      EditHere(At(doc, path).value, e);
    }
  }

  // ---------- The operations ----------

  /** `add` goes through unchecked access: where checked access fails, it may create what is missing. */
  predicate AddDeparts(doc: Json, path: Path, v: Json) {
    path != [] &&
    if At(doc, Parent(path)).Err? && Evaluate(doc, Parent(path)).None?
    then At(doc, path[..1]).Ok? && Creatable(doc, Parent(path))
    else CheckedDeparts(doc, Parent(path), InsertChild(Last(path), v))
  }

  /** Section 4.1: for every pointer, `add` does what the RFC says exactly when none of the four cases applies. */
  lemma AddMeetsRfc(doc: Json, path: Path, v: Json)
    ensures Agrees(OperationAdd(doc, path, v), AddRfc(doc, path, v)) <==> !AddDeparts(doc, path, v)
  {
    hide At, Evaluate, EditAt, EditRfc, Permits, Creatable;
    if path != [] {
      var up, e := Parent(path), InsertChild(Last(path), v);
      hide OperationAdd;
      AtMeetsRfc(doc, up);
      CheckedMeetsRfc(doc, up, e);
      if At(doc, up).Ok? || Evaluate(doc, up).Some? {
        AddWithParent(doc, path, v);
      } else {
        AddWithoutParent(doc, path, v);
        EditRfcSucceeds(doc, up, e);
      }
    } else {
      AddAtRoot(doc, v);
    }
  }

  lemma AddAtRoot(doc: Json, v: Json)
    ensures OperationAdd(doc, [], v) == Ok(v) && AddRfc(doc, [], v) == Some(v)
  {
  }

  /** Section 4.2: for every pointer but the root. */
  lemma RemoveMeetsRfc(doc: Json, path: Path)
    requires path != []
    ensures Agrees(OperationRemove(doc, path), RemoveRfc(doc, path)) <==>
      !CheckedDeparts(doc, Parent(path), EraseChild(Last(path)))
  {
    hide CheckedDeparts, EditAt, EditRfc;
    CheckedMeetsRfc(doc, Parent(path), EraseChild(Last(path)));
  }

  /** Section 4.3: an index not written plainly is replaced all the same, and one beyond an `int` is not. */
  lemma ReplaceMeetsRfc(doc: Json, path: Path, v: Json)
    ensures Agrees(Apply(doc, Replace(path, v)), ReplaceRfc(doc, path, v)) <==>
      (At(doc, path).Ok? ==> WrittenPlainly(doc, path))
      && (Evaluate(doc, path).Some? ==> IndicesFit(doc, path))
  {
    hide At, Evaluate, EditAt, EditRfc, WrittenPlainly, IndicesFit;
    CheckedMeetsRfc(doc, path, Assign(v));
    AtMeetsRfc(doc, path);
  }

  // ---------- Sections 4.4 to 4.6: move, copy and test ----------

  function CopyRfc(doc: Json, path: Path, from: Path): (r: Option<Json>) {
    match Evaluate(doc, from)
    case None => None
    case Some(v) => AddRfc(doc, path, v)
  }

  /** A location cannot be moved into one of its children, so the root cannot be moved below itself. */
  function MoveRfc(doc: Json, path: Path, from: Path): (r: Option<Json>)
    requires from != [] || path != []
  {
    if from < path || Evaluate(doc, from).None? || RemoveRfc(doc, from).None? then None
    else AddRfc(RemoveRfc(doc, from).value, path, Evaluate(doc, from).value)
  }

  function TestRfc(doc: Json, path: Path, v: Json): (r: Option<Json>) {
    match Evaluate(doc, path)
    case None => None
    case Some(found) => if NumericEqual(found, v) then Some(doc) else None
  }

  /** What the code's `add` accepts. */
  predicate AddAccepts(doc: Json, path: Path, v: Json) {
    path == [] ||
    match At(doc, Parent(path))
    case Ok(parent) => Accepts(parent, InsertChild(Last(path), v))
    case Err(_) => At(doc, path[..1]).Ok? && Creatable(doc, Parent(path))
  }

  /** What the RFC's `add` permits. */
  predicate AddPermits(doc: Json, path: Path, v: Json) {
    path == [] ||
    match Evaluate(doc, Parent(path))
    case Some(parent) => Permits(parent, InsertChild(Last(path), v))
    case None => false
  }

  lemma AddSucceeds(doc: Json, path: Path, v: Json)
    ensures OperationAdd(doc, path, v).Ok? <==> AddAccepts(doc, path, v)
    ensures AddRfc(doc, path, v).Some? <==> AddPermits(doc, path, v)
  {
    hide At, Evaluate, EditAt, EditRfc, ApplyEdit, Edited, Accepts, Permits, Creatable;
    if path == [] {
      AddAtRoot(doc, v);
    } else {
      hide OperationAdd;
      var up, e := Parent(path), InsertChild(Last(path), v);
      EditRfcSucceeds(doc, up, e);
      if At(doc, up).Ok? {
        AddWithParent(doc, path, v);
        EditAtSucceeds(doc, up, e);
        EditMeetsRfcHere(At(doc, up).value, e);
      } else {
        AddWithoutParent(doc, path, v);
      }
    }
  }

  predicate CopyDeparts(doc: Json, path: Path, from: Path) {
    match (At(doc, from), Evaluate(doc, from))
    case (Ok(v), Some(_)) => AddDeparts(doc, path, v)
    case (Ok(v), None) => AddAccepts(doc, path, v)
    case (Err(_), Some(v)) => AddPermits(doc, path, v)
    case (Err(_), None) => false
  }

  /** Section 4.5. */
  lemma CopyMeetsRfc(doc: Json, path: Path, from: Path)
    ensures Agrees(Apply(doc, Copy(path, from)), CopyRfc(doc, path, from)) <==> !CopyDeparts(doc, path, from)
  {
    hide At, Evaluate, OperationAdd, AddRfc, AddDeparts, AddAccepts, AddPermits;
    AtMeetsRfc(doc, from);
    if At(doc, from).Ok? {
      AddMeetsRfc(doc, path, At(doc, from).value);
      AddSucceeds(doc, path, At(doc, from).value);
    } else if Evaluate(doc, from).Some? {
      AddSucceeds(doc, path, Evaluate(doc, from).value);
    }
  }

  /** Where both find the value, both remove it alike. */
  lemma BothRemove(doc: Json, from: Path)
    requires from != []
    ensures At(doc, from).Ok? ==> OperationRemove(doc, from).Ok?
    ensures Evaluate(doc, from).Some? ==> RemoveRfc(doc, from).Some?
    ensures At(doc, from).Ok? && Evaluate(doc, from).Some? ==> Agrees(OperationRemove(doc, from), RemoveRfc(doc, from))
  {
    hide At, Evaluate, EditAt, EditRfc, OperationRemove, Resolve, Refer, Child, Erase, IsIndex;
    var up, token := Parent(from), Last(from);
    assert from == up + [token];
    if At(doc, from).Ok? {
      RemoveThenAdd(doc, from, Null);
    }
    EvaluatePrefix(doc, up, [token]);
    EditRfcSucceeds(doc, up, EraseChild(token));
    AtMeetsRfc(doc, up);
    if Evaluate(doc, up).Some? {
      EvaluateOne(Evaluate(doc, up).value, token);
    }
    if At(doc, from).Ok? && Evaluate(doc, from).Some? {
      AtPrefix(doc, up, [token]);
      AtOne(At(doc, up).value, token);
      RemoveMeetsRfc(doc, from);
      SameTarget(At(doc, up).value, token);
    }
  }

  lemma SameTarget(parent: Json, token: string)
    requires Resolve(parent, token).Ok? && Refer(parent, token).Some?
    ensures !EditDeparts(parent, EraseChild(token))
  {
    hide ArrayIndex, DigitsValue;
    ResolveMeetsRfc(parent, token);
  }

  lemma {:induction false} EvaluatePrefix(doc: Json, path: Path, below: Path)
    ensures Evaluate(doc, path + below) ==
      match Evaluate(doc, path) case Some(sub) => Evaluate(sub, below) case None => None
    decreases |path|
  {
    hide Refer, Child;
    if path == [] {
      assert path + below == below;
    } else {
      assert (path + below)[1..] == path[1..] + below;
      if Refer(doc, path[0]).Some? {
        EvaluatePrefix(Child(doc, Refer(doc, path[0]).value), path[1..], below);
      }
    }
  }

  lemma EvaluateOne(j: Json, token: string)
    ensures Evaluate(j, [token]).Some? <==> Refer(j, token).Some?
  {
    hide Refer, Child;
    assert [token][1..] == [];
  }

  predicate MoveDeparts(doc: Json, path: Path, from: Path) {
    from != [] &&
    match (At(doc, from), Evaluate(doc, from))
    case (Ok(v), Some(_)) =>
      BothRemove(doc, from);
      var removed := OperationRemove(doc, from).value;
      if from < path then AddAccepts(removed, path, v) else AddDeparts(removed, path, v)
    case (Ok(v), None) =>
      BothRemove(doc, from);
      AddAccepts(OperationRemove(doc, from).value, path, v)
    case (Err(_), Some(v)) =>
      BothRemove(doc, from);
      !(from < path) && AddPermits(RemoveRfc(doc, from).value, path, v)
    case (Err(_), None) => false
  }

  /** Section 4.4, for every source and target but the root moved onto itself. */
  lemma MoveMeetsRfc(doc: Json, path: Path, from: Path)
    requires from != [] || path != []
    ensures Agrees(Apply(doc, Move(path, from)), MoveRfc(doc, path, from)) <==> !MoveDeparts(doc, path, from)
  {
    hide At, Evaluate, OperationAdd, AddRfc, OperationRemove, RemoveRfc, AddDeparts, AddAccepts, AddPermits;
    AtMeetsRfc(doc, from);
    if from == [] {
      RootStays(doc);
    } else {
      BothRemove(doc, from);
      if At(doc, from).Ok? {
        AddMeetsRfc(OperationRemove(doc, from).value, path, At(doc, from).value);
        AddSucceeds(OperationRemove(doc, from).value, path, At(doc, from).value);
      } else if Evaluate(doc, from).Some? {
        AddSucceeds(RemoveRfc(doc, from).value, path, Evaluate(doc, from).value);
      }
    }
  }

  lemma RootStays(doc: Json)
    ensures At(doc, []) == Ok(doc) && OperationRemove(doc, []).Err?
  {
  }

  /**
   Where `test` departs: it finds an equal value at a pointer not written plainly, or one that is equal only
   because numbers are confused; or it does not reach an equal value behind an index beyond an `int`.
   */
  predicate TestDeparts(doc: Json, path: Path, v: Json) {
    || (At(doc, path).Ok? && Equal(At(doc, path).value, v)
        && (!WrittenPlainly(doc, path) || Confused(At(doc, path).value, v)))
    || (Evaluate(doc, path).Some? && NumericEqual(Evaluate(doc, path).value, v) && !IndicesFit(doc, path))
  }

  /** Section 4.6. */
  lemma TestMeetsRfc(doc: Json, path: Path, v: Json)
    ensures Agrees(Apply(doc, Test(path, v)), TestRfc(doc, path, v)) <==> !TestDeparts(doc, path, v)
  {
    hide At, Evaluate, Equal, NumericEqual, Confused, WrittenPlainly, IndicesFit;
    AtMeetsRfc(doc, path);
    if At(doc, path).Ok? {
      EqualUnlessConfused(At(doc, path).value, v);
    }
  }

  // ---------- Whole patches ----------

  /** RFC 6902 does not say what document is left when the root is removed. */
  predicate RemovesRoot(op: Op) {
    (op.Remove? && op.path == []) || (op.Move? && op.from == [] && op.path == [])
  }

  predicate Departs(doc: Json, op: Op)
    requires !RemovesRoot(op)
  {
    match op
    case Add(path, v) => AddDeparts(doc, path, v)
    case Remove(path) => CheckedDeparts(doc, Parent(path), EraseChild(Last(path)))
    case Replace(path, v) => CheckedDeparts(doc, path, Assign(v))
    case Move(path, from) => MoveDeparts(doc, path, from)
    case Copy(path, from) => CopyDeparts(doc, path, from)
    case Test(path, v) => TestDeparts(doc, path, v)
  }

  function ApplyRfc(doc: Json, op: Op): (r: Option<Json>)
    requires !RemovesRoot(op)
  {
    match op
    case Add(path, v) => AddRfc(doc, path, v)
    case Remove(path) => RemoveRfc(doc, path)
    case Replace(path, v) => ReplaceRfc(doc, path, v)
    case Move(path, from) => MoveRfc(doc, path, from)
    case Copy(path, from) => CopyRfc(doc, path, from)
    case Test(path, v) => TestRfc(doc, path, v)
  }

  function RunRfc(doc: Json, ops: seq<Op>): (r: Option<Json>)
    requires forall i | 0 <= i < |ops| :: !RemovesRoot(ops[i])
    decreases |ops|
  {
    if ops == [] then Some(doc)
    else
      match ApplyRfc(doc, ops[0])
      case None => None
      case Some(next) => RunRfc(next, ops[1..])
  }

  lemma ApplyMeetsRfc(doc: Json, op: Op)
    requires !RemovesRoot(op)
    ensures Agrees(Apply(doc, op), ApplyRfc(doc, op)) <==> !Departs(doc, op)
  {
    hide Agrees, AddDeparts, CheckedDeparts, MoveDeparts, CopyDeparts, TestDeparts;
    hide AddRfc, EditRfc, MoveRfc, CopyRfc, TestRfc, OperationAdd, EditAt, At;
    match op
    case Add(path, v) => AddMeetsRfc(doc, path, v);
    case Remove(path) => RemoveMeetsRfc(doc, path);
    case Replace(path, v) => CheckedMeetsRfc(doc, path, Assign(v));
    case Move(path, from) => MoveMeetsRfc(doc, path, from);
    case Copy(path, from) => CopyMeetsRfc(doc, path, from);
    case Test(path, v) => TestMeetsRfc(doc, path, v);
  }

  /** No operation departs on the document it is applied to. */
  predicate NeverDeparts(doc: Json, ops: seq<Op>)
    requires forall i | 0 <= i < |ops| :: !RemovesRoot(ops[i])
    decreases |ops|
  {
    ops != [] ==>
      !Departs(doc, ops[0]) && (Apply(doc, ops[0]).Ok? ==> NeverDeparts(Apply(doc, ops[0]).value, ops[1..]))
  }

  /** After each of its operations, the patch is where the RFC says. */
  ghost predicate FollowsRfc(doc: Json, ops: seq<Op>)
    requires forall i | 0 <= i < |ops| :: !RemovesRoot(ops[i])
  {
    forall k | 0 <= k <= |ops| :: Agrees(Run(doc, ops[..k]), RunRfc(doc, ops[..k]))
  }

  /** A patch follows the RFC from its first operation to its last if and only if none of them departs. */
  lemma {:induction false} PatchMeetsRfc(doc: Json, ops: seq<Op>)
    requires forall i | 0 <= i < |ops| :: !RemovesRoot(ops[i])
    ensures FollowsRfc(doc, ops) <==> NeverDeparts(doc, ops)
    ensures NeverDeparts(doc, ops) ==> Agrees(Run(doc, ops), RunRfc(doc, ops))
    decreases |ops|
  {
    hide Departs, Apply, ApplyRfc, FollowsRfc, Run, RunRfc, Agrees;
    if ops == [] {
      NothingFollows(doc);
    } else {
      ApplyMeetsRfc(doc, ops[0]);
      var first := Apply(doc, ops[0]);
      if first.Ok? {
        PatchMeetsRfc(first.value, ops[1..]);
      }
      FollowsStep(doc, ops);
    }
    if FollowsRfc(doc, ops) {
      FollowsToTheEnd(doc, ops);
    }
  }

  lemma NothingFollows(doc: Json)
    ensures FollowsRfc(doc, [])
  {
  }

  lemma FollowsToTheEnd(doc: Json, ops: seq<Op>)
    requires (forall i | 0 <= i < |ops| :: !RemovesRoot(ops[i])) && FollowsRfc(doc, ops)
    ensures Agrees(Run(doc, ops), RunRfc(doc, ops))
  {
    hide Agrees, Run, RunRfc;
    assert ops[..|ops|] == ops;
  }

  lemma PrefixStep(doc: Json, ops: seq<Op>, k: nat)
    requires (forall i | 0 <= i < |ops| :: !RemovesRoot(ops[i])) && 1 <= k <= |ops|
    ensures var first := Apply(doc, ops[0]);
      Run(doc, ops[..k]) == if first.Ok? then Run(first.value, ops[1..][..k - 1]) else first
    ensures var first := ApplyRfc(doc, ops[0]);
      RunRfc(doc, ops[..k]) == if first.Some? then RunRfc(first.value, ops[1..][..k - 1]) else None
  {
    hide Apply, ApplyRfc;
    assert ops[..k][0] == ops[0] && ops[..k][1..] == ops[1..][..k - 1];
  }

  lemma FollowsStep(doc: Json, ops: seq<Op>)
    requires ops != [] && forall i | 0 <= i < |ops| :: !RemovesRoot(ops[i])
    ensures var first := Apply(doc, ops[0]);
      FollowsRfc(doc, ops) <==>
        Agrees(first, ApplyRfc(doc, ops[0])) && (first.Ok? ==> FollowsRfc(first.value, ops[1..]))
  {
    hide Apply, ApplyRfc, Run, RunRfc, RemovesRoot;
    var first := Apply(doc, ops[0]);
    RunsNothing(doc);
    forall k | 1 <= k <= |ops|
      ensures Run(doc, ops[..k]) == if first.Ok? then Run(first.value, ops[1..][..k - 1]) else first
      ensures var rfc := ApplyRfc(doc, ops[0]);
        RunRfc(doc, ops[..k]) == if rfc.Some? then RunRfc(rfc.value, ops[1..][..k - 1]) else None
    {
      PrefixStep(doc, ops, k);
    }
    assert ops[..0] == [] && ops[1..][..0] == [];
    if first.Ok? {
      RunsNothing(first.value);
    }
    if ApplyRfc(doc, ops[0]).Some? {
      RunsNothing(ApplyRfc(doc, ops[0]).value);
    }
    if FollowsRfc(doc, ops) {
      assert Agrees(Run(doc, ops[..1]), RunRfc(doc, ops[..1]));
      assert Agrees(first, ApplyRfc(doc, ops[0]));
      if first.Ok? {
        forall k | 0 <= k <= |ops[1..]|
          ensures Agrees(Run(first.value, ops[1..][..k]), RunRfc(first.value, ops[1..][..k]))
        {
          var next := k + 1;
          assert Agrees(Run(doc, ops[..next]), RunRfc(doc, ops[..next]));
          assert next - 1 == k;
        }
      }
    } else if first.Ok? && Agrees(first, ApplyRfc(doc, ops[0])) && FollowsRfc(first.value, ops[1..]) {
      forall k | 0 <= k <= |ops| ensures Agrees(Run(doc, ops[..k]), RunRfc(doc, ops[..k])) {
        if k > 0 {
          assert Agrees(Run(first.value, ops[1..][..k - 1]), RunRfc(first.value, ops[1..][..k - 1]));
        }
      }
    }
  }

  lemma RunsNothing(doc: Json)
    ensures Run(doc, []) == Ok(doc) && RunRfc(doc, []) == Some(doc)
  {
  }

  // ---------- Inputs on which they depart ----------

  /** An object is made where the RFC finds null, which is neither object nor array. */
  lemma AddsToNull(v: Json)
    ensures OperationAdd(Null, ["x"], v) == Ok(Obj(map["x" := v])) && AddRfc(Null, ["x"], v) == None
    ensures var doc, path := Obj(map["a" := Null]), ["a", "x"];
      OperationAdd(doc, path, v).Ok? && AddRfc(doc, path, v) == None
  {
    assert Parent(["x"]) == [] && Last(["x"]) == "x";
    var doc, path := Obj(map["a" := Null]), ["a", "x"];
    assert Parent(path) == ["a"] && Last(path) == "x" && ["a"][1..] == [];
    assert At(doc, ["a"]) == Ok(Null) && Evaluate(doc, ["a"]) == Some(Null);
    AddWithParent(doc, path, v);
    EditRfcSucceeds(doc, ["a"], InsertChild("x", v));
    EditAtSucceeds(doc, ["a"], InsertChild("x", v));
  }

  /** A signed and a padded index, neither of which references anything. */
  lemma ForeignIndices(v: Json)
    ensures ArrayIndex("+1") == Ok(1) && ArrayIndex("01") == Ok(1) && !IsIndex("+1") && !IsIndex("01")
    ensures OperationAdd(Arr([Null]), ["+1"], v) == Ok(Arr([Null, v])) && AddRfc(Arr([Null]), ["+1"], v) == None
    ensures forall token | token in ["+1", "01"] ::
      OperationRemove(Arr([Null, Null]), [token]) == Ok(Arr([Null])) && RemoveRfc(Arr([Null, Null]), [token]) == None
  {
    SignedIndex();
    PaddedIndex();
    hide ArrayIndex;
    assert !AllDigits("+1") by {
      assert "+1"[0] == '+';
    }
    assert Parent(["+1"]) == [] && Last(["+1"]) == "+1" && Parent(["01"]) == [] && Last(["01"]) == "01";
    assert [Null][..1] + [v] + [Null][1..] == [Null, v];
    AddAtTop(Arr([Null]), "+1", v);
    assert [Null, Null][..1] + [Null, Null][2..] == [Null];
  }

  /** The removal shifts the next element to where the value came from, and the move then goes into that one. */
  lemma MovesBelowItself()
    ensures var doc, path, from := Arr([Arr([Null]), Arr([])]), ["0", "0"], ["0"];
      Apply(doc, Move(path, from)) == Ok(Arr([Arr([Arr([Null])])])) && MoveRfc(doc, path, from) == None
  {
    var doc, path, from := Arr([Arr([Null]), Arr([])]), ["0", "0"], ["0"];
    hide ArrayIndex, OperationAdd, OperationRemove;
    ZeroIndex();
    AtOne(doc, "0");
    var removed := Arr([Arr([])]);
    RemoveAtTop(doc, "0");
    assert doc.a[..0] + doc.a[1..] == removed.a;
    assert Parent(path) == ["0"] && Last(path) == "0";
    AtOne(removed, "0");
    AddWithParent(removed, path, Arr([Null]));
    assert ["0"][1..] == [];
    EditHere(Arr([]), InsertChild("0", Arr([Null])));
    assert Insert(Arr([]), "0", Arr([Null])) == Ok(Arr([Arr([Null])])) by {
      var none: seq<Json> := [];
      assert none[..0] + [Arr([Null])] + none[0..] == [Arr([Null])];
    }
    assert removed.a[0 := Arr([Arr([Null])])] == [Arr([Arr([Null])])];
    assert from < path;
  }

  lemma ZeroIndex()
    ensures ArrayIndex("0") == Ok(0)
  {
    hide ArrayIndex;
    IndexOfDigits("0");
    assert "0"[..0] == "";
  }

  lemma RemoveAtTop(doc: Json, token: string)
    ensures OperationRemove(doc, [token]) == Erase(doc, token)
  {
    assert Parent([token]) == [] && Last([token]) == token;
  }

  /** Two different numbers pass for equal after conversion to a double. */
  lemma TestsAfterRounding()
    ensures var doc, v := Int(TWO_53 + 1), Float(LAST_EXACT);
      Apply(doc, Test([], v)) == Ok(doc) && TestRfc(doc, [], v) == None && Confused(doc, v)
  {
    hide ToDouble;
    FirstRounded();
  }

  /** So do a negative number and the unsigned one it wraps to. */
  lemma TestsAfterWrapping()
    ensures var doc, v := Int(-1), Uint(TWO_64 - 1);
      Apply(doc, Test([], v)) == Ok(doc) && TestRfc(doc, [], v) == None && Confused(doc, v)
  {
  }

  lemma AddAtTop(doc: Json, token: string, v: Json)
    ensures OperationAdd(doc, [token], v) == Insert(doc, token, v)
  {
    assert Parent([token]) == [] && Last([token]) == token;
  }

  lemma PaddedIndex()
    ensures ArrayIndex("01") == Ok(1)
  {
    hide ArrayIndex;
    IndexOfDigits("01");
    assert "01"[..1] == "0" && "0"[..0] == "";
  }
}
