/**
 Patches as JSON documents: `diff` writes an array of operation objects, `patch` reads and runs one.
 Both follow the loops of the original and are proved against the scripts on parsed pointers.
 */
module JsonPatchDocument {
  import opened Decimal
  import opened JsonPatch
  import opened JsonPointer
  import opened JsonValue
  import opened SortedKeys
  import opened Wrappers
  import Script = JsonDiff

  // ---------- Operation objects ----------

  function RemoveObject(path: string): (j: Json) {
    Obj(map["op" := Str("remove"), "path" := Str(path)])
  }

  function ValueObject(op: string, path: string, v: Json): (j: Json) {
    Obj(map["op" := Str(op), "path" := Str(path), "value" := v])
  }

  function FromObject(op: string, path: string, from: string): (j: Json) {
    Obj(map["op" := Str(op), "path" := Str(path), "from" := Str(from)])
  }

  /** The object `diff` writes for an operation below the pointer text `path`. */
  function Encode(path: string, op: Op): (j: Json) {
    match op
    case Add(below, v) => ValueObject("add", path + Render(below), v)
    case Remove(below) => RemoveObject(path + Render(below))
    case Replace(below, v) => ValueObject("replace", path + Render(below), v)
    case Test(below, v) => ValueObject("test", path + Render(below), v)
    case Move(below, from) => FromObject("move", path + Render(below), path + Render(from))
    case Copy(below, from) => FromObject("copy", path + Render(below), path + Render(from))
  }

  function EncodeAll(path: string, ops: seq<Op>): (js: seq<Json>)
    ensures |js| == |ops|
  {
    if ops == [] then [] else [Encode(path, ops[0])] + EncodeAll(path, ops[1..])
  }

  lemma {:induction false} EncodeAppends(path: string, first: seq<Op>, second: seq<Op>)
    ensures EncodeAll(path, first + second) == EncodeAll(path, first) + EncodeAll(path, second)
  {
    if first == [] {
      assert first + second == second;
    } else {
      assert (first + second)[1..] == first[1..] + second;
      EncodeAppends(path, first[1..], second);
    }
  }

  /** Writing below a longer pointer text is writing the prefixed script. */
  lemma {:induction false} EncodeBelow(path: string, token: string, ops: seq<Op>)
    ensures EncodeAll(path + "/" + Escape(token), ops) == EncodeAll(path, Script.Prefixed([token], ops))
  {
    hide Escape;
    if ops != [] {
      EncodeBelow(path, token, ops[1..]);
      var op := ops[0];
      RenderBelow(path, token, op.path);
      if op.Move? || op.Copy? {
        RenderBelow(path, token, op.from);
      }
    }
  }

  lemma RenderBelow(path: string, token: string, below: Path)
    ensures path + "/" + Escape(token) + Render(below) == path + Render([token] + below)
  {
  }

  // ---------- diff ----------

  /** `diff(source, target, path)`. */
  method Diff(source: Json, target: Json, path: string) returns (result: seq<Json>)
    ensures result == EncodeAll(path, Script.Diff(source, target))
    decreases source, 2
  {
    result := [];
    if Equal(source, target) {
      return;
    }
    if KindOf(source) != KindOf(target) {
      RootObject(path, target);
      return [ValueObject("replace", path, target)];
    }
    match source {
      case Arr(a) =>
        result := DiffArray(source, target, path);
      case Obj(m) =>
        result := DiffObject(source, target, path);
      case _ =>
        RootObject(path, target);
        result := [ValueObject("replace", path, target)];
    }
  }

  lemma RootObject(path: string, v: Json)
    ensures EncodeAll(path, [Replace([], v)]) == [ValueObject("replace", path, v)]
  {
    assert path + "" == path;
    assert [Replace([], v)][1..] == [];
  }

  lemma TailObjects(path: string, i: nat, v: Json)
    ensures Encode(path, Remove([ToString(i)])) == RemoveObject(path + "/" + ToString(i))
    ensures Encode(path, Add([ToString(i)], v)) == ValueObject("add", path + "/" + ToString(i), v)
  {
    IndexToken(i);
    RenderBelow(path, ToString(i), []);
    assert [ToString(i)] + [] == [ToString(i)];
    assert path + "/" + ToString(i) + "" == path + "/" + ToString(i);
  }

  lemma MemberObjects(path: string, k: string, v: Json)
    ensures Encode(path, Remove([k])) == RemoveObject(path + "/" + Escape(k))
    ensures Encode(path, Add([k], v)) == ValueObject("add", path + "/" + Escape(k), v)
  {
    hide Escape;
    RenderBelow(path, k, []);
    assert [k] + [] == [k];
    assert path + "/" + Escape(k) + "" == path + "/" + Escape(k);
  }

  lemma EncodeCons(path: string, op: Op, ops: seq<Op>)
    ensures EncodeAll(path, [op] + ops) == [Encode(path, op)] + EncodeAll(path, ops)
  {
    assert ([op] + ops)[1..] == ops;
  }

  method DiffArray(source: Json, target: Json, path: string) returns (result: seq<Json>)
    requires source.Arr? && target.Arr?
    ensures result == EncodeAll(path, Script.DiffItems(source, target, 0)
                                      + Script.RemoveTail(|source.a|, |target.a|)
                                      + Script.AddTail(target.a, |source.a|))
    decreases source, 0
  {
    hide Encode, EncodeAll, ToString, Script.Diff, ValueObject, RemoveObject, Escape, Equal, Script.Prefixed;
    var a, b := source.a, target.a;
    ghost var items := EncodeAll(path, Script.DiffItems(source, target, 0));
    result := [];
    var i := 0;
    EncodeNone(path);
    while i < |a| && i < |b|
      invariant i <= |a| && i <= |b|
      invariant result + EncodeAll(path, Script.DiffItems(source, target, i)) == items
    {
      var tempDiff := Diff(a[i], b[i], path + "/" + ToString(i));
      ghost var ops := Script.Diff(a[i], b[i]);
      IndexToken(i);
      EncodeBelow(path, ToString(i), ops);
      EncodeAppends(path, Script.Prefixed([ToString(i)], ops), Script.DiffItems(source, target, i + 1));
      Regroup(result, tempDiff, EncodeAll(path, Script.DiffItems(source, target, i + 1)));
      result := result + tempDiff;
      i := i + 1;
    }
    assert result == items;

    // The removals are inserted one before the other, the highest index first.
    var endIndex := |result|;
    ghost var common := i;
    while i < |a|
      invariant common <= i && (i <= |a| || i == common)
      invariant common < |a| ==> common == |b|
      invariant result == items + EncodeAll(path, Script.RemoveTail(i, |b|))
    {
      TailObjects(path, i, Null);
      EncodeCons(path, Remove([ToString(i)]), Script.RemoveTail(i, |b|));
      assert result[..endIndex] == items && result[endIndex..] == EncodeAll(path, Script.RemoveTail(i, |b|));
      result := result[..endIndex] + [RemoveObject(path + "/" + ToString(i))] + result[endIndex..];
      i := i + 1;
    }

    ghost var removes := EncodeAll(path, Script.RemoveTail(|a|, |b|));
    assert result == items + removes;
    ghost var adds := EncodeAll(path, Script.AddTail(b, |a|));
    while i < |b|
      invariant i >= |a|
      invariant result + EncodeAll(path, Script.AddTail(b, i)) == items + removes + adds
    {
      TailObjects(path, i, b[i]);
      EncodeCons(path, Add([ToString(i)], b[i]), Script.AddTail(b, i + 1));
      Regroup(result, [ValueObject("add", path + "/" + ToString(i), b[i])], EncodeAll(path, Script.AddTail(b, i + 1)));
      result := result + [ValueObject("add", path + "/" + ToString(i), b[i])];
      i := i + 1;
    }
    EncodeAppends(path, Script.DiffItems(source, target, 0), Script.RemoveTail(|a|, |b|));
    EncodeAppends(path, Script.DiffItems(source, target, 0) + Script.RemoveTail(|a|, |b|), Script.AddTail(b, |a|));
  }

  lemma EncodeNone(path: string)
    ensures EncodeAll(path, []) == []
  {
  }

  lemma MembersEnd(s: Json, t: Json)
    requires s.Obj? && t.Obj?
    ensures Script.DiffMembers(s, t, []) == [] && Script.AddMembers(s, t, []) == []
  {
  }

  /** The objects written for the first member of the source that is left. */
  lemma MemberEncoded(path: string, s: Json, t: Json, ks: seq<string>)
    requires s.Obj? && t.Obj? && ks != [] && forall k | k in ks :: k in s.m
    ensures var k, below := ks[0], path + "/" + Escape(ks[0]);
      EncodeAll(path, Script.DiffMembers(s, t, ks)) ==
        (if k in t.m then EncodeAll(below, Script.Diff(s.m[k], t.m[k])) else [RemoveObject(below)])
        + EncodeAll(path, Script.DiffMembers(s, t, ks[1..]))
  {
    hide EncodeAll, Encode, Script.Diff, RemoveObject, Escape;
    var k, rest := ks[0], Script.DiffMembers(s, t, ks[1..]);
    if k in t.m {
      var ops := Script.Diff(s.m[k], t.m[k]);
      EncodeBelow(path, k, ops);
      EncodeAppends(path, Script.Prefixed([k], ops), rest);
    } else {
      MemberObjects(path, k, Null);
      EncodeCons(path, Remove([k]), rest);
    }
  }

  /** The object, if any, written for the first member of the target that is left. */
  lemma AdditionEncoded(path: string, s: Json, t: Json, ks: seq<string>)
    requires s.Obj? && t.Obj? && ks != [] && forall k | k in ks :: k in t.m
    ensures var rest := EncodeAll(path, Script.AddMembers(s, t, ks[1..]));
      EncodeAll(path, Script.AddMembers(s, t, ks)) ==
        if ks[0] in s.m then rest else [ValueObject("add", path + "/" + Escape(ks[0]), t.m[ks[0]])] + rest
  {
    hide EncodeAll, Encode, ValueObject, Escape;
    var rest := Script.AddMembers(s, t, ks[1..]);
    if ks[0] in s.m {
      assert [] + rest == rest;
    } else {
      MemberObjects(path, ks[0], t.m[ks[0]]);
      EncodeCons(path, Add([ks[0]], t.m[ks[0]]), rest);
    }
  }

  lemma Regroup<T>(a: seq<T>, b: seq<T>, c: seq<T>)
    ensures a + (b + c) == a + b + c
  {
  }

  lemma NothingLeft<S, T>(ks: seq<S>, i: nat, result: seq<T>)
    requires i == |ks|
    ensures ks[i..] == [] && result + [] == result
  {
  }

  method DiffObject(source: Json, target: Json, path: string) returns (result: seq<Json>)
    requires source.Obj? && target.Obj?
    ensures result == EncodeAll(path, Script.DiffMembers(source, target, Sorted(source.m.Keys))
                                      + Script.AddMembers(source, target, Sorted(target.m.Keys)))
    decreases source, 1
  {
    hide *;
    var ks, ls := Sorted(source.m.Keys), Sorted(target.m.Keys);
    result := SourceMembers(source, target, path);
    result := TargetMembers(source, target, path, result);
    EncodeAppends(path, Script.DiffMembers(source, target, ks), Script.AddMembers(source, target, ls));
  }

  /** The first pass: the members of the source are compared or removed. */
  method SourceMembers(source: Json, target: Json, path: string) returns (result: seq<Json>)
    requires source.Obj? && target.Obj?
    ensures result == EncodeAll(path, Script.DiffMembers(source, target, Sorted(source.m.Keys)))
    decreases source, 0
  {
    hide *;
    var ks := Sorted(source.m.Keys);
    ghost var members := EncodeAll(path, Script.DiffMembers(source, target, ks));
    result := [];
    EncodeNone(path);
    MembersEnd(source, target);
    assert ks[0..] == ks;
    for i := 0 to |ks|
      invariant result + EncodeAll(path, Script.DiffMembers(source, target, ks[i..])) == members
    {
      var k := ks[i];
      MemberEncoded(path, source, target, ks[i..]);
      assert ks[i..][1..] == ks[i + 1..];
      ghost var rest := EncodeAll(path, Script.DiffMembers(source, target, ks[i + 1..]));
      if k in target.m {
        var tempDiff := Diff(source.m[k], target.m[k], path + "/" + Escape(k));
        Regroup(result, tempDiff, rest);
        result := result + tempDiff;
      } else {
        Regroup(result, [RemoveObject(path + "/" + Escape(k))], rest);
        result := result + [RemoveObject(path + "/" + Escape(k))];
      }
    }
    NothingLeft(ks, |ks|, result);
  }

  /** The second pass: the members that only the target has are added. */
  method TargetMembers(source: Json, target: Json, path: string, found: seq<Json>) returns (result: seq<Json>)
    requires source.Obj? && target.Obj?
    ensures result == found + EncodeAll(path, Script.AddMembers(source, target, Sorted(target.m.Keys)))
  {
    hide *;
    var ls := Sorted(target.m.Keys);
    result := found;
    EncodeNone(path);
    MembersEnd(source, target);
    assert ls[0..] == ls;
    for i := 0 to |ls|
      invariant result + EncodeAll(path, Script.AddMembers(source, target, ls[i..])) ==
        found + EncodeAll(path, Script.AddMembers(source, target, ls))
    {
      var k := ls[i];
      AdditionEncoded(path, source, target, ls[i..]);
      assert ls[i..][1..] == ls[i + 1..];
      if k !in source.m {
        var addition := ValueObject("add", path + "/" + Escape(k), target.m[k]);
        Regroup(result, [addition], EncodeAll(path, Script.AddMembers(source, target, ls[i + 1..])));
        result := result + [addition];
      }
    }
    NothingLeft(ls, |ls|, result);
  }

  // ---------- patch ----------

  /** `get_value`: a mandatory member of an operation object. */
  function Member(m: map<string, Json>, name: string, mustBeString: bool): (r: Result<Json, Error>)
    ensures r.Ok? && mustBeString ==> r.value.Str?
  {
    if name !in m || (mustBeString && !m[name].Str?) then Err(Numbered(105)) else Ok(m[name])
  }

  function Decode(val: Json): (r: Result<Op, Error>) {
    if !val.Obj? then Err(Numbered(104))
    else
      var op :- Member(val.m, "op", true);
      var path :- Member(val.m, "path", true);
      var ptr :- ParsePointer(path.s);
      if op.s in ["add", "replace", "test"] then
        var v :- Member(val.m, "value", false);
        Ok(if op.s == "add" then Add(ptr, v) else if op.s == "replace" then Replace(ptr, v) else Test(ptr, v))
      else if op.s == "remove" then Ok(Remove(ptr))
      else if op.s in ["move", "copy"] then
        var from :- Member(val.m, "from", true);
        var fromPtr :- ParsePointer(from.s);
        Ok(if op.s == "move" then Move(ptr, fromPtr) else Copy(ptr, fromPtr))
      else Err(Numbered(105))
  }

  predicate HasString(m: map<string, Json>, name: string) {
    name in m && m[name].Str?
  }

  /** The members an operation needs besides its pointer. */
  predicate Complete(m: map<string, Json>, op: string) {
    || (op in ["add", "replace", "test"] && "value" in m)
    || op == "remove"
    || (op in ["move", "copy"] && HasString(m, "from"))
  }

  /**
   Section 4 of RFC 6902: an operation is an object with a known "op", a pointer, and what that operation needs.
   Nothing else is accepted, and the errors are 104 for what is no object and 105 for members, before any pointer.
   */
  lemma DecodeAccepts(val: Json)
    ensures Decode(val).Ok? <==>
      && val.Obj? && HasString(val.m, "op") && HasString(val.m, "path") && Complete(val.m, val.m["op"].s)
      && ParsePointer(val.m["path"].s).Ok?
      && (val.m["op"].s in ["move", "copy"] ==> ParsePointer(val.m["from"].s).Ok?)
    ensures !val.Obj? ==> Decode(val) == Err(Numbered(104))
    ensures val.Obj? && !(HasString(val.m, "op") && HasString(val.m, "path")) ==> Decode(val) == Err(Numbered(105))
    ensures val.Obj? && HasString(val.m, "op") && HasString(val.m, "path") && !Complete(val.m, val.m["op"].s) ==>
      Decode(val) == if ParsePointer(val.m["path"].s).Ok? then Err(Numbered(105))
                     else Err(ParsePointer(val.m["path"].s).error)
  {
    hide ParsePointer;
  }

  /** What is accepted is the operation named, at the pointers written, with the value given. */
  lemma DecodeMeans(val: Json)
    requires Decode(val).Ok?
    ensures var op, r := val.m["op"].s, Decode(val).value;
      && ParsePointer(val.m["path"].s) == Ok(r.path)
      && (r.Add? <==> op == "add") && (r.Remove? <==> op == "remove") && (r.Replace? <==> op == "replace")
      && (r.Move? <==> op == "move") && (r.Copy? <==> op == "copy") && (r.Test? <==> op == "test")
      && (r.Add? || r.Replace? || r.Test? ==> r.value == val.m["value"])
      && (r.Move? || r.Copy? ==> ParsePointer(val.m["from"].s) == Ok(r.from))
  {
    hide ParsePointer;
  }

  /** Members an operation does not define are ignored. */
  lemma FurtherMembersIgnored(m: map<string, Json>, name: string, v: Json)
    requires name !in ["op", "path", "value", "from"]
    ensures Decode(Obj(m[name := v])) == Decode(Obj(m))
  {
    hide ParsePointer;
  }

  function RunDocument(doc: Json, operations: seq<Json>): (r: Result<Json, Error>)
    decreases |operations|
  {
    if operations == [] then Ok(doc)
    else
      var op :- Decode(operations[0]);
      var next :- Apply(doc, op);
      RunDocument(next, operations[1..])
  }

  function PatchDocument(doc: Json, patch: Json): (r: Result<Json, Error>) {
    if patch.Arr? then RunDocument(doc, patch.a) else Err(Numbered(104))
  }

  /** `doc.patch(patch)`: a working copy runs through the operations until one of them throws. */
  method Patch(doc: Json, patch: Json) returns (r: Result<Json, Error>)
    ensures r == PatchDocument(doc, patch)
  {
    hide Apply, Decode;
    var result := doc;
    if !patch.Arr? {
      return Err(Numbered(104));
    }
    for i := 0 to |patch.a|
      invariant RunDocument(result, patch.a[i..]) == RunDocument(doc, patch.a)
    {
      assert patch.a[i..][1..] == patch.a[i + 1..];
      var decoded := Decode(patch.a[i]);
      if decoded.Err? {
        return Err(decoded.error);
      }
      var applied := Apply(result, decoded.value);
      if applied.Err? {
        return applied;
      }
      result := applied.value;
    }
    return Ok(result);
  }

  // ---------- What the two promise together ----------

  lemma DecodeEncode(p: Path, op: Op)
    ensures Decode(Encode(Render(p), op)) == Ok(Script.PrefixOp(p, op))
  {
    hide Render, ParsePointer, Decode, RemoveObject, ValueObject, FromObject;
    RenderAppends(p, op.path);
    RenderRoundTrip(p + op.path);
    var text := Render(p) + Render(op.path);
    match op
    case Add(below, v) => DecodeValue("add", text, p + below, v);
    case Remove(below) => DecodeRemove(text, p + below);
    case Replace(below, v) => DecodeValue("replace", text, p + below, v);
    case Test(below, v) => DecodeValue("test", text, p + below, v);
    case Move(below, from) =>
      RenderAppends(p, from);
      RenderRoundTrip(p + from);
      DecodeFrom("move", text, p + below, Render(p) + Render(from), p + from);
    case Copy(below, from) =>
      RenderAppends(p, from);
      RenderRoundTrip(p + from);
      DecodeFrom("copy", text, p + below, Render(p) + Render(from), p + from);
  }

  lemma DecodeRemove(text: string, ptr: Path)
    requires ParsePointer(text) == Ok(ptr)
    ensures Decode(RemoveObject(text)) == Ok(Remove(ptr))
  {
    hide ParsePointer;
  }

  lemma DecodeValue(op: string, text: string, ptr: Path, v: Json)
    requires ParsePointer(text) == Ok(ptr) && op in ["add", "replace", "test"]
    ensures Decode(ValueObject(op, text, v)) ==
      Ok(if op == "add" then Add(ptr, v) else if op == "replace" then Replace(ptr, v) else Test(ptr, v))
  {
    hide ParsePointer;
  }

  lemma DecodeFrom(op: string, text: string, ptr: Path, fromText: string, from: Path)
    requires ParsePointer(text) == Ok(ptr) && ParsePointer(fromText) == Ok(from) && op in ["move", "copy"]
    ensures Decode(FromObject(op, text, fromText)) == Ok(if op == "move" then Move(ptr, from) else Copy(ptr, from))
  {
    hide ParsePointer;
  }

  lemma {:induction false} RunEncoded(doc: Json, p: Path, ops: seq<Op>)
    ensures RunDocument(doc, EncodeAll(Render(p), ops)) == Run(doc, Script.Prefixed(p, ops))
    decreases |ops|
  {
    hide Apply, Decode, Encode, Render, Script.PrefixOp;
    if ops != [] {
      DecodeEncode(p, ops[0]);
      assert EncodeAll(Render(p), ops)[1..] == EncodeAll(Render(p), ops[1..]);
      assert Script.Prefixed(p, ops)[1..] == Script.Prefixed(p, ops[1..]);
      var next := Apply(doc, Script.PrefixOp(p, ops[0]));
      if next.Ok? {
        RunEncoded(next.value, p, ops[1..]);
      }
    }
  }

  /** The document `diff(s, t)` returns. */
  function DiffDocument(s: Json, t: Json): (j: Json) {
    Arr(EncodeAll("", Script.Diff(s, t)))
  }

  /**
   `source.patch(diff(source, target)) == target` on documents: the call returns a value equal to the
   target exactly when every index at which the two differ fits an `int`, and throws otherwise.
   */
  lemma {:induction false} DiffPatchRoundTrip(s: Json, t: Json)
    ensures var r := PatchDocument(s, DiffDocument(s, t));
      if Script.Fits(s, t) then r.Ok? && Equal(r.value, t) else r == Err(StdOutOfRange)
    ensures DiffDocument(s, t) == Arr([]) <==> Equal(s, t)
  {
    RunEncoded(s, [], Script.Diff(s, t));
    Script.PatchOfDiffBelow(s, [], s, t);
    Script.PatchedEqualsTarget(s, t);
    Script.DiffEmpty(s, t);
  }

  /** Emptying an array that is too long: the highest index does not fit an `int`, and the patch throws. */
  lemma LongArrayThrows()
    ensures var s, t := Arr(seq(INT_MAX + 2, _ => Null)), Arr([]);
      !Script.Fits(s, t) && PatchDocument(s, DiffDocument(s, t)) == Err(StdOutOfRange)
  {
    hide PatchDocument, DiffDocument;
    var s, t := Arr(seq(INT_MAX + 2, _ => Null)), Arr([]);
    DiffPatchRoundTrip(s, t);
  }

  /** `diff(s, t, path)` applied to any document holding `s` at `path` replaces that subtree and nothing else. */
  lemma DiffPatchBelow(doc: Json, p: Path, s: Json, t: Json)
    requires At(doc, p) == Ok(s)
    ensures var r := PatchDocument(doc, Arr(EncodeAll(Render(p), Script.Diff(s, t))));
      if Script.Fits(s, t) then r.Ok? && r == EditAt(doc, p, Assign(Script.Patched(s, t))) else r == Err(StdOutOfRange)
  {
    RunEncoded(doc, p, Script.Diff(s, t));
    Script.PatchOfDiffBelow(doc, p, s, t);
  }
}
