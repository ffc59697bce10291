/** `merge_patch` (RFC 7396, section 2). */
module JsonMergePatch {
  import opened JsonValue
  import opened SortedKeys
  import opened Wrappers

  /** The members a merge starts from: those of an object, none of anything else. */
  function MembersOf(target: Json): (m: map<string, Json>) {
    if target.Obj? then target.m else map[]
  }

  /** MergePatch key by key, without any order. */
  function Merge(target: Json, patch: Json): (r: Json)
    decreases patch
  {
    if !patch.Obj? then patch
    else
      var m := MembersOf(target);
      Obj(map k | k in m.Keys + patch.m.Keys && !(k in patch.m && patch.m[k].Null?) ::
            if k !in patch.m then m[k] else Merge(if k in m then m[k] else Null, patch.m[k]))
  }

  // ---------- The loop over the members of the patch ----------

  /** One round: `erase(key)`, or `operator[](key).merge_patch(value)`, which creates a missing member as null. */
  function MergeMember(m: map<string, Json>, k: string, v: Json): (r: map<string, Json>) {
    if v.Null? then m - {k} else m[k := Merge(if k in m then m[k] else Null, v)]
  }

  function MergeLoop(m: map<string, Json>, patch: map<string, Json>, ks: seq<string>): (r: map<string, Json>)
    requires forall k | k in ks :: k in patch
    decreases |ks|
  {
    if ks == [] then m else MergeLoop(MergeMember(m, ks[0], patch[ks[0]]), patch, ks[1..])
  }

  ghost predicate Enumerates(ks: seq<string>, keys: set<string>) {
    && (forall k :: k in ks <==> k in keys)
    && (forall i, j | 0 <= i < j < |ks| :: ks[i] != ks[j])
  }

  /** What the members are after the rounds for `ks`. */
  function AfterLoop(m: map<string, Json>, patch: map<string, Json>, ks: seq<string>): (r: map<string, Json>)
    requires forall k | k in ks :: k in patch
  {
    map k | k in m.Keys + patch.Keys && (k in ks ==> !patch[k].Null?) && (k !in ks ==> k in m) ::
      if k in ks then Merge(if k in m then m[k] else Null, patch[k]) else m[k]
  }

  lemma AfterNone(m: map<string, Json>, patch: map<string, Json>)
    ensures AfterLoop(m, patch, []) == m
  {
  }

  lemma AfterOne(m: map<string, Json>, patch: map<string, Json>, ks: seq<string>)
    requires ks != [] && (forall k | k in ks :: k in patch) && ks[0] !in ks[1..]
    ensures AfterLoop(MergeMember(m, ks[0], patch[ks[0]]), patch, ks[1..]) == AfterLoop(m, patch, ks)
  {
  }

  lemma {:induction false} LoopMembers(m: map<string, Json>, patch: map<string, Json>, ks: seq<string>)
    requires forall k | k in ks :: k in patch
    requires forall i, j | 0 <= i < j < |ks| :: ks[i] != ks[j]
    ensures MergeLoop(m, patch, ks) == AfterLoop(m, patch, ks)
    decreases |ks|
  {
    hide MergeMember, AfterLoop;
    if ks == [] {
      AfterNone(m, patch);
    } else {
      AfterOne(m, patch, ks);
      LoopMembers(MergeMember(m, ks[0], patch[ks[0]]), patch, ks[1..]);
    }
  }

  lemma MergedMembers(target: Json, patch: Json)
    requires patch.Obj?
    ensures Merge(target, patch).Obj?
    ensures var m, r := MembersOf(target), Merge(target, patch).m;
      && (forall k :: k in r <==> (k in m || k in patch.m) && !(k in patch.m && patch.m[k].Null?))
      && (forall k | k in r ::
            r[k] == if k !in patch.m then m[k] else Merge(if k in m then m[k] else Null, patch.m[k]))
  {
    hide MembersOf;
  }

  lemma LoopedMembers(m: map<string, Json>, patch: map<string, Json>, ks: seq<string>)
    requires forall k :: k in ks <==> k in patch
    ensures var r := AfterLoop(m, patch, ks);
      && (forall k :: k in r <==> (k in m || k in patch) && !(k in patch && patch[k].Null?))
      && (forall k | k in r :: r[k] == if k !in patch then m[k] else Merge(if k in m then m[k] else Null, patch[k]))
  {
    hide Merge;
  }

  lemma AfterAll(target: Json, patch: Json, ks: seq<string>)
    requires patch.Obj? && Enumerates(ks, patch.m.Keys)
    ensures Obj(AfterLoop(MembersOf(target), patch.m, ks)) == Merge(target, patch)
  {
    hide Enumerates, Merge, AfterLoop, MembersOf;
    EnumeratesKeys(ks, patch.m.Keys);
    MergedMembers(target, patch);
    var m := MembersOf(target);
    var after, merged := AfterLoop(m, patch.m, ks), Merge(target, patch).m;
    LoopedMembers(m, patch.m, ks);
    assert after.Keys == merged.Keys;
  }

  lemma EnumeratesKeys(ks: seq<string>, keys: set<string>)
    requires Enumerates(ks, keys)
    ensures forall k :: k in ks <==> k in keys
  {
  }

  /** Visiting the members of the patch in any order computes the same object. */
  lemma AnyOrder(target: Json, patch: Json, ks: seq<string>)
    requires patch.Obj? && Enumerates(ks, patch.m.Keys)
    ensures Obj(MergeLoop(MembersOf(target), patch.m, ks)) == Merge(target, patch)
  {
    hide MergeLoop, AfterLoop, Merge;
    LoopMembers(MembersOf(target), patch.m, ks);
    AfterAll(target, patch, ks);
  }

  lemma SortedEnumerates(keys: set<string>)
    ensures Enumerates(Sorted(keys), keys)
  {
    AscendingIsDistinct(Sorted(keys));
  }

  /** `target.merge_patch(patch)`: the value is rewritten while the patch is traversed in key order. */
  method MergePatch(target: Json, patch: Json) returns (r: Json)
    ensures r == Merge(target, patch)
    decreases patch
  {
    hide Merge, MergeMember, Sorted, Enumerates;
    r := target;
    if patch.Obj? {
      if !r.Obj? {
        r := Obj(map[]);
      }
      var ks := Sorted(patch.m.Keys);
      SortedEnumerates(patch.m.Keys);
      AnyOrder(target, patch, ks);
      for i := 0 to |ks|
        invariant r.Obj? && MergeLoop(r.m, patch.m, ks[i..]) == MergeLoop(MembersOf(target), patch.m, ks)
      {
        var k := ks[i];
        assert ks[i..][1..] == ks[i + 1..];
        ghost var before := r.m;
        if patch.m[k].Null? {
          r := Obj(r.m - {k});
        } else {
          if k !in r.m {
            r := Obj(r.m[k := Null]);
          }
          var merged := MergePatch(r.m[k], patch.m[k]);
          r := Obj(r.m[k := merged]);
        }
        RoundDone(before, k, patch.m[k], r.m);
      }
    } else {
      NotAnObject(target, patch);
      r := patch;
    }
  }

  lemma RoundDone(m: map<string, Json>, k: string, v: Json, after: map<string, Json>)
    requires after ==
      if v.Null? then m - {k}
      else (if k in m then m else m[k := Null])[k := Merge(if k in m then m[k] else Null, v)]
    ensures after == MergeMember(m, k, v)
  {
    hide Merge;
  }

  lemma NotAnObject(target: Json, patch: Json)
    requires !patch.Obj?
    ensures Merge(target, patch) == patch
  {
  }

  // ---------- Laws ----------

  /** Applying a patch twice is applying it once. */
  lemma {:induction false} Idempotent(target: Json, patch: Json)
    ensures Merge(Merge(target, patch), patch) == Merge(target, patch)
    decreases patch
  {
    if patch.Obj? {
      var once := Merge(target, patch);
      var twice := Merge(once, patch);
      forall k | k in patch.m && !patch.m[k].Null? ensures k in once.m && k in twice.m && twice.m[k] == once.m[k] {
        Idempotent(if k in MembersOf(target) then MembersOf(target)[k] else Null, patch.m[k]);
      }
      assert twice.m.Keys == once.m.Keys;
      assert twice.m == once.m;
    }
  }

  /** No object reached through objects alone has a member that is null. */
  predicate SpineNullFree(j: Json) {
    j.Obj? ==> forall k | k in j.m :: !j.m[k].Null? && SpineNullFree(j.m[k])
  }

  /** An object patch never leaves a null member along the object spine of a target that had none. */
  lemma {:induction false} NoNullsIntroduced(target: Json, patch: Json)
    requires SpineNullFree(target) && patch.Obj?
    ensures SpineNullFree(Merge(target, patch))
    decreases patch
  {
    var m, merged := MembersOf(target), Merge(target, patch);
    forall k | k in merged.m ensures !merged.m[k].Null? && SpineNullFree(merged.m[k]) {
      if k in patch.m {
        var below := if k in m then m[k] else Null;
        assert merged.m[k] == Merge(below, patch.m[k]);
        if patch.m[k].Obj? {
          NoNullsIntroduced(below, patch.m[k]);
        } else {
          NotAnObject(below, patch.m[k]);
        }
      }
    }
  }

  /** A target comes out unchanged exactly when it already agrees with the patch. */
  predicate Agrees(target: Json, patch: Json)
    decreases patch
  {
    if !patch.Obj? then target == patch
    else target.Obj? && forall k | k in patch.m ::
           if patch.m[k].Null? then k !in target.m else k in target.m && Agrees(target.m[k], patch.m[k])
  }

  lemma {:induction false} UnchangedExactlyWhenAgreeing(target: Json, patch: Json)
    ensures Merge(target, patch) == target <==> Agrees(target, patch)
    decreases patch
  {
    if patch.Obj? && target.Obj? {
      var merged := Merge(target, patch);
      forall k | k in patch.m && k in target.m && !patch.m[k].Null?
        ensures merged.m[k] == target.m[k] <==> Agrees(target.m[k], patch.m[k])
      {
        UnchangedExactlyWhenAgreeing(target.m[k], patch.m[k]);
      }
      if Agrees(target, patch) {
        assert merged.m.Keys == target.m.Keys;
        assert merged.m == target.m;
      } else {
        var k :| k in patch.m &&
          !(if patch.m[k].Null? then k !in target.m else k in target.m && Agrees(target.m[k], patch.m[k]));
        assert k in merged.m <==> !patch.m[k].Null?;
      }
    }
  }

  // ---------- What a merge leaves at a path of keys ----------

  function KeyAt(j: Json, ks: seq<string>): (r: Option<Json>) {
    if ks == [] then Some(j)
    else if j.Obj? && ks[0] in j.m then KeyAt(j.m[ks[0]], ks[1..])
    else None
  }

  /** What the patch gives outright, and no object, is what the result holds. */
  lemma {:induction false} MergedLeaf(target: Json, patch: Json, ks: seq<string>)
    requires KeyAt(patch, ks).Some? && !KeyAt(patch, ks).value.Obj? && !KeyAt(patch, ks).value.Null?
    ensures KeyAt(Merge(target, patch), ks) == KeyAt(patch, ks)
    decreases |ks|
  {
    if ks != [] {
      NullHasNoMembers(patch.m[ks[0]], ks[1..]);
      var m := MembersOf(target);
      MergedLeaf(if ks[0] in m then m[ks[0]] else Null, patch.m[ks[0]], ks[1..]);
    }
  }

  lemma NullHasNoMembers(j: Json, ks: seq<string>)
    ensures j.Null? && KeyAt(j, ks).Some? ==> KeyAt(j, ks) == Some(Null)
  {
  }

  /** What the patch sets to null is gone. */
  lemma {:induction false} MergedNull(target: Json, patch: Json, ks: seq<string>)
    requires ks != [] && KeyAt(patch, ks) == Some(Null)
    ensures KeyAt(Merge(target, patch), ks) == None
    decreases |ks|
  {
    if patch.m[ks[0]].Null? {
      assert ks[0] !in Merge(target, patch).m;
    } else {
      var m := MembersOf(target);
      MergedNull(if ks[0] in m then m[ks[0]] else Null, patch.m[ks[0]], ks[1..]);
    }
  }

  /** The patch follows the keys through objects up to one that does not mention the next key. */
  predicate Unmentioned(patch: Json, ks: seq<string>) {
    ks != [] && patch.Obj? && (ks[0] !in patch.m || Unmentioned(patch.m[ks[0]], ks[1..]))
  }

  /** What the patch does not mention is what it was. */
  lemma {:induction false} MergedFrame(target: Json, patch: Json, ks: seq<string>)
    requires Unmentioned(patch, ks)
    ensures KeyAt(Merge(target, patch), ks) == KeyAt(target, ks)
    decreases |ks|
  {
    var m := MembersOf(target);
    if ks[0] in patch.m {
      var below := if ks[0] in m then m[ks[0]] else Null;
      MergedFrame(below, patch.m[ks[0]], ks[1..]);
    }
  }
}
