/**
 * The recursive merge behind PATCH, as the loop runs it, measured against JSON Merge
 * Patch (section 2 of RFC 7396).
 */
module DeepMerge {
  import opened Common

  /**
   * A value. `Leaf` stands for everything that is taken as a whole: strings, numbers,
   * booleans, arrays, dates and class instances. `Undefined` never comes out of JSON.
   */
  datatype Json = Undefined | Null | Leaf(text: string) | Object(members: map<string, Json>)

  type JsonObject = j: Json | j.Object? witness Object(map[])

  const FORBIDDEN: set<string> := {"__proto__", "constructor", "prototype"}

  const NOTHING: JsonObject := Object(map[])

  function At(j: Json, key: string): Option<Json> {
    if j.Object? && key in j.members then Some(j.members[key]) else None
  }

  // ---------- The merge ----------

  /** What one key of the merged object holds; `None` is an absent key. */
  function MergedAt(base: JsonObject, patch: JsonObject, key: string): Option<Json>
    decreases patch, 0
  {
    if key !in patch.members || key in FORBIDDEN then At(base, key)
    else
      var value := patch.members[key];
      match value
      case Undefined => At(base, key)
      case Null => None
      case Leaf(_) => Some(value)
      case Object(_) =>
        if key in base.members && base.members[key].Object? then Some(Merged(base.members[key], value)) else Some(value)
  }

  function Merged(base: JsonObject, patch: JsonObject): JsonObject
    decreases patch, 1
  {
    Object(map key | key in base.members.Keys + patch.members.Keys && MergedAt(base, patch, key).Some?
             :: MergedAt(base, patch, key).value)
  }

  method DeepMerge(base: JsonObject, patch: JsonObject) returns (out: JsonObject)
    ensures out == Merged(base, patch)
    decreases patch
  {
    out := base;
    var entries := patch.members.Keys;
    while entries != {}
      invariant entries <= patch.members.Keys
      invariant forall key :: At(out, key) == if key in entries then At(base, key) else MergedAt(base, patch, key)
      decreases |entries|
    {
      var key :| key in entries;
      ghost var before := out;
      entries := entries - {key};
      var value := patch.members[key];
      assert At(out, key) == At(base, key);
      if key in FORBIDDEN || value == Undefined {
      } else if value == Null {
        out := Object(out.members - {key});
      } else if value.Object? && key in out.members && out.members[key].Object? {
        var merged := DeepMerge(out.members[key], value);
        out := Object(out.members[key := merged]);
      } else {
        out := Object(out.members[key := value]);
      }
      assert At(out, key) == MergedAt(base, patch, key);
      assert forall other :: other != key ==> At(out, other) == At(before, other);
    }
    IsMerged(base, patch, out);
  }

  lemma IsMerged(base: JsonObject, patch: JsonObject, out: JsonObject)
    requires forall key :: At(out, key) == MergedAt(base, patch, key)
    ensures out == Merged(base, patch)
  {
    forall key ensures At(out, key) == At(Merged(base, patch), key) { MergedAtKey(base, patch, key); }
    SameMembers(out, Merged(base, patch));
  }

  lemma SameMembers(a: JsonObject, b: JsonObject)
    requires forall key :: At(a, key) == At(b, key)
    ensures a == b
  {
    assert forall key :: key in a.members <==> At(a, key).Some?;
    assert forall key :: key in b.members <==> At(b, key).Some?;
    assert a.members == b.members;
  }

  lemma MergedAtKey(base: JsonObject, patch: JsonObject, key: string)
    ensures At(Merged(base, patch), key) == MergedAt(base, patch, key)
  {
  }

  /**
   * What becomes of each key: one of the prototype chain stays, null removes it, and objects merge
   * with objects only.
   */
  lemma MergedKeyByKey(base: JsonObject, patch: JsonObject, key: string)
    ensures var out := Merged(base, patch);
      var permitted := key !in {"__proto__", "constructor", "prototype"};
      if !permitted || key !in patch.members || patch.members[key] == Undefined then
        (key in out.members <==> key in base.members) && (key in base.members ==> out.members[key] == base.members[key])
      else if patch.members[key] == Null then key !in out.members
      else
        && key in out.members
        && out.members[key] == if patch.members[key].Object? && key in base.members && base.members[key].Object?
                               then Merged(base.members[key], patch.members[key])
                               else patch.members[key]
  {
    MergedAtKey(base, patch, key);
  }

  // ---------- JSON Merge Patch ----------

  function PatchedAt(target: Json, patch: JsonObject, key: string): Option<Json>
    decreases patch, 0
  {
    if key !in patch.members then At(target, key)
    else if patch.members[key] == Null then None
    else Some(MergePatch(if At(target, key).Some? then At(target, key).value else Null, patch.members[key]))
  }

  /** Section 2 of RFC 7396; a target that is not an object counts as an empty one. */
  function MergePatch(target: Json, patch: Json): Json
    decreases patch, 1
  {
    if !patch.Object? then patch
    else
      var keys := (if target.Object? then target.members.Keys else {}) + patch.members.Keys;
      Object(map key | key in keys && PatchedAt(target, patch, key).Some? :: PatchedAt(target, patch, key).value)
  }

  lemma PatchedAtKey(target: Json, patch: JsonObject, key: string)
    ensures At(MergePatch(target, patch), key) == PatchedAt(target, patch, key)
  {
  }

  /** JSON proper, with no key of the prototype chain at any depth. */
  ghost predicate Plain(j: Json) {
    match j
    case Undefined => false
    case Null => true
    case Leaf(_) => true
    case Object(members) => forall key :: key in members ==> key !in FORBIDDEN && Plain(members[key])
  }

  /** An object merged over itself is what the reference makes of it over nothing. */
  lemma {:induction false} SelfMerge(v: JsonObject, target: Json)
    requires Plain(v) && !target.Object?
    ensures Merged(v, v) == MergePatch(target, v) == MergePatch(NOTHING, v)
    decreases v
  {
    forall key ensures At(Merged(v, v), key) == At(MergePatch(target, v), key) == At(MergePatch(NOTHING, v), key) {
      MergedAtKey(v, v, key);
      PatchedAtKey(target, v, key);
      PatchedAtKey(NOTHING, v, key);
      if key in v.members && v.members[key].Object? {
        SelfMerge(v.members[key], Null);
      }
    }
    SameMembers(Merged(v, v), MergePatch(target, v));
    SameMembers(Merged(v, v), MergePatch(NOTHING, v));
  }

  /** Applied twice, the merge is JSON Merge Patch. */
  lemma {:induction false} TwiceIsMergePatch(base: JsonObject, patch: JsonObject)
    requires Plain(patch)
    ensures Merged(Merged(base, patch), patch) == MergePatch(base, patch)
    decreases patch
  {
    var once := Merged(base, patch);
    forall key ensures At(Merged(once, patch), key) == At(MergePatch(base, patch), key) {
      MergedAtKey(base, patch, key);
      MergedAtKey(once, patch, key);
      PatchedAtKey(base, patch, key);
      if key in patch.members && patch.members[key].Object? {
        if key in base.members && base.members[key].Object? {
          TwiceIsMergePatch(base.members[key], patch.members[key]);
        } else {
          SelfMerge(patch.members[key], if key in base.members then base.members[key] else Null);
        }
      }
    }
    SameMembers(Merged(once, patch), MergePatch(base, patch));
  }

  /** What the reference yields is a fixed point: applying the merge again changes nothing. */
  lemma {:induction false} MergePatchIsStable(target: Json, patch: JsonObject)
    requires Plain(patch)
    ensures Merged(MergePatch(target, patch), patch) == MergePatch(target, patch)
    decreases patch
  {
    var done: JsonObject := MergePatch(target, patch);
    forall key ensures At(Merged(done, patch), key) == At(done, key) {
      PatchedAtKey(target, patch, key);
      if key in patch.members && patch.members[key].Object? {
        MergePatchIsStable(if At(target, key).Some? then At(target, key).value else Null, patch.members[key]);
      }
    }
    SameMembers(Merged(done, patch), done);
  }

  /** A third application changes nothing. */
  lemma ThirdChangesNothing(base: JsonObject, patch: JsonObject)
    requires Plain(patch)
    ensures var twice := Merged(Merged(base, patch), patch); Merged(twice, patch) == twice
  {
    TwiceIsMergePatch(base, patch);
    MergePatchIsStable(base, patch);
  }

  // ---------- When one application is enough ----------

  ghost predicate NullFree(j: Json) {
    j != Null && (j.Object? ==> forall key :: key in j.members ==> NullFree(j.members[key]))
  }

  /** No null of the patch lies below a key at which the base has no object. */
  ghost predicate NoNullIntoNothing(base: JsonObject, patch: JsonObject)
    decreases patch
  {
    forall key :: key in patch.members && patch.members[key].Object? ==>
      if key in base.members && base.members[key].Object? then NoNullIntoNothing(base.members[key], patch.members[key])
      else NullFree(patch.members[key])
  }

  lemma {:induction false} VerbatimIffNullFree(target: Json, v: JsonObject)
    requires Plain(v) && !target.Object?
    ensures MergePatch(target, v) == v <==> NullFree(v)
    decreases v
  {
    forall key | key in v.members
      ensures At(MergePatch(target, v), key) == At(v, key) <==> NullFree(v.members[key])
    {
      PatchedAtKey(target, v, key);
      if v.members[key].Object? {
        VerbatimIffNullFree(Null, v.members[key]);
      }
    }
    if NullFree(v) {
      forall key ensures At(MergePatch(target, v), key) == At(v, key) {
        PatchedAtKey(target, v, key);
      }
      SameMembers(MergePatch(target, v), v);
    }
  }

  /** One application already is JSON Merge Patch exactly when no null falls into nothing. */
  lemma {:induction false} OnceIsMergePatchIff(base: JsonObject, patch: JsonObject)
    requires Plain(patch)
    ensures Merged(base, patch) == MergePatch(base, patch) <==> NoNullIntoNothing(base, patch)
    decreases patch
  {
    forall key
      ensures At(Merged(base, patch), key) == At(MergePatch(base, patch), key)
         <==> (key in patch.members && patch.members[key].Object? ==>
                if key in base.members && base.members[key].Object? then NoNullIntoNothing(base.members[key],
                    patch.members[key])
                else NullFree(patch.members[key]))
    {
      MergedAtKey(base, patch, key);
      PatchedAtKey(base, patch, key);
      if key in patch.members && patch.members[key].Object? {
        if key in base.members && base.members[key].Object? {
          OnceIsMergePatchIff(base.members[key], patch.members[key]);
        } else {
          VerbatimIffNullFree(if key in base.members then base.members[key] else Null, patch.members[key]);
        }
      }
    }
    if NoNullIntoNothing(base, patch) {
      SameMembers(Merged(base, patch), MergePatch(base, patch));
    }
  }

  /** The smallest patch on which one application is not enough: a null below a key the base does not have. */
  lemma NullIntoNothing()
    ensures var patch := Object(map["a" := Object(map["b" := Null])]);
      && Plain(patch) && Merged(NOTHING, patch) == patch && MergePatch(NOTHING, patch) == Object(map["a" := NOTHING])
  {
    var inner: JsonObject := Object(map["b" := Null]);
    var patch: JsonObject := Object(map["a" := inner]);
    var want: JsonObject := Object(map["a" := NOTHING]);
    PatchedAtKey(Null, inner, "b");
    SameMembers(MergePatch(Null, inner), NOTHING);
    forall key ensures At(MergePatch(NOTHING, patch), key) == At(want, key) { PatchedAtKey(NOTHING, patch, key); }
    SameMembers(MergePatch(NOTHING, patch), want);
    forall key ensures At(Merged(NOTHING, patch), key) == At(patch, key) { MergedAtKey(NOTHING, patch, key); }
    SameMembers(Merged(NOTHING, patch), patch);
  }

  // ---------- Paths ----------

  function Lookup(j: Json, path: seq<string>): Option<Json> {
    if path == [] then Some(j)
    else if At(j, path[0]).None? then None
    else Lookup(At(j, path[0]).value, path[1..])
  }

  /** The patch says nothing about the path: it leads out of the patch through objects only. */
  ghost predicate Unmentioned(patch: JsonObject, path: seq<string>)
    decreases path
  {
    path != [] &&
    (At(patch, path[0]).Some? ==>
      At(patch, path[0]).value.Object? && Unmentioned(At(patch, path[0]).value, path[1..]))
  }

  lemma {:induction false} UnmentionedIsAbsent(patch: JsonObject, path: seq<string>)
    requires Unmentioned(patch, path)
    ensures Lookup(patch, path) == None
    decreases path
  {
    if At(patch, path[0]).Some? {
      UnmentionedIsAbsent(At(patch, path[0]).value, path[1..]);
    }
  }

  /** Every path the patch does not mention survives, at every depth and for every base and patch. */
  lemma {:induction false} UnmentionedSurvives(base: JsonObject, patch: JsonObject, path: seq<string>)
    requires Unmentioned(patch, path)
    ensures Lookup(Merged(base, patch), path) == Lookup(base, path)
    decreases path
  {
    var key := path[0];
    MergedAtKey(base, patch, key);
    if At(patch, key).Some? && key !in FORBIDDEN {
      var inner := At(patch, key).value;
      UnmentionedIsAbsent(inner, path[1..]);
      if key in base.members && base.members[key].Object? {
        UnmentionedSurvives(base.members[key], inner, path[1..]);
      } else if key in base.members {
        assert path[1..] != [] && Lookup(base.members[key], path[1..]) == None;
      }
    }
  }

  /** Every leaf the patch sends under permitted keys is what the result holds there. */
  lemma {:induction false} LeavesLand(base: JsonObject, patch: JsonObject, path: seq<string>)
    requires Lookup(patch, path).Some? && Lookup(patch, path).value.Leaf?
    requires forall key :: key in path ==> key !in FORBIDDEN
    ensures Lookup(Merged(base, patch), path) == Lookup(patch, path)
    decreases path
  {
    var key := path[0];
    MergedAtKey(base, patch, key);
    var inner := At(patch, key).value;
    if path[1..] != [] && key in base.members && base.members[key].Object? {
      LeavesLand(base.members[key], inner, path[1..]);
    }
  }

  /** A key of the prototype chain is never written at the level where a patch sends it. */
  lemma ForbiddenKeysKept(base: JsonObject, patch: JsonObject, key: string)
    requires key in FORBIDDEN
    ensures At(Merged(base, patch), key) == At(base, key)
  {
    MergedAtKey(base, patch, key);
  }
}
