/**
 * `_merge_patch`: the MergePatch algorithm of section 2 of RFC 7386, over the value tree.
 * Only an object patch is merged; anything else replaces the target wholesale.
 */
module JsonMergePatch {
  import opened JsonValue

  /**
   * `_merge_patch(target, patch)`. A non-object patch is the result. Otherwise the result
   * starts from the target's members (none when the target is not an object) and each patch
   * member is applied: null removes the key, an object is merged into the current value (or
   * into `{}` when that is missing or not an object), anything else replaces the value.
   */
  function MergePatch(target: Json, patch: Json): (r: Json)
    ensures patch.JObj? ==> r.JObj?
    decreases patch
  {
    match patch
    case JObj(pm) =>
      var result := Members(target);
      JObj(map k | k in result.Keys + pm.Keys && !(k in pm && pm[k].JNull?) ::
        if k !in pm then result[k]
        else if pm[k].JObj? then
          assert pm[k] in pm.Values;
          MergePatch(if k in result && result[k].JObj? then result[k] else JObj(map[]), pm[k])
        else pm[k])
    case _ => patch
  }

  /** A patch that is not an object (an array, a scalar, null) is returned verbatim. */
  lemma NonObjectPatchReplaces(target: Json, patch: Json)
    requires !patch.JObj?
    ensures MergePatch(target, patch) == patch
  {
  }

  /** In particular arrays are never merged element-wise. */
  lemma ArrayPatchReplacesArray(target: seq<Json>, patch: seq<Json>)
    ensures MergePatch(JArr(target), JArr(patch)) == JArr(patch)
  {
  }

  /** A null member removes its key, whether or not the target had it. */
  lemma NullMemberRemoves(target: Json, pm: map<string, Json>, k: string)
    requires k in pm && pm[k].JNull?
    ensures k !in MergePatch(target, JObj(pm)).members
  {
  }

  /** Every target member the patch does not name keeps its value, and no key is invented. */
  lemma UnnamedMembersKept(target: Json, pm: map<string, Json>, k: string)
    requires k !in pm
    ensures k in MergePatch(target, JObj(pm)).members <==> k in Members(target)
    ensures k in Members(target) ==> MergePatch(target, JObj(pm)).members[k] == Members(target)[k]
  {
  }

  /** A non-null, non-object member replaces the target's value outright. */
  lemma ScalarMemberReplaces(target: Json, pm: map<string, Json>, k: string)
    requires k in pm && !pm[k].JNull? && !pm[k].JObj?
    ensures k in MergePatch(target, JObj(pm)).members
    ensures MergePatch(target, JObj(pm)).members[k] == pm[k]
  {
  }

  /**
   * An object member is merged recursively into the target's value for that key, with a
   * missing or non-object value read as `{}`.
   */
  lemma ObjectMemberMerges(target: Json, pm: map<string, Json>, k: string)
    requires k in pm && pm[k].JObj?
    ensures k in MergePatch(target, JObj(pm)).members
    ensures MergePatch(target, JObj(pm)).members[k]
         == MergePatch(JObj(Members(Get(Members(target), k))), pm[k])
  {
  }

  /** A target that is not an object is merged as if it were `{}`. */
  lemma NonObjectTargetIsEmpty(target: Json, pm: map<string, Json>)
    requires !target.JObj?
    ensures MergePatch(target, JObj(pm)) == MergePatch(JObj(map[]), JObj(pm))
  {
  }

  /** Merging the same patch twice gives what merging it once gives. */
  lemma {:induction false} MergePatchIdempotent(target: Json, patch: Json)
    ensures MergePatch(MergePatch(target, patch), patch) == MergePatch(target, patch)
    decreases patch
  {
    if patch.JObj? {
      var pm := patch.members;
      var once := MergePatch(target, patch);
      var twice := MergePatch(once, patch);
      var t := Members(target);
      forall k | k in pm && pm[k].JObj?
        ensures twice.members[k] == once.members[k]
      {
        assert pm[k] in pm.Values;
        var sub := if k in t && t[k].JObj? then t[k] else JObj(map[]);
        assert once.members[k] == MergePatch(sub, pm[k]);
        MergePatchIdempotent(sub, pm[k]);
      }
      assert twice.members == once.members;
    }
  }

  /**
   * The RFC's own pseudocode, used as an independent reference: every non-null member is
   * merged by the same recursive call, whatever its kind, against the target member or
   * against nothing.
   */
  function RfcMergePatch(target: Json, patch: Json): Json
    decreases patch
  {
    match patch
    case JObj(pm) =>
      var t := Members(target);
      JObj(map k | k in t.Keys + pm.Keys && !(k in pm && pm[k].JNull?) ::
        if k in pm then
          assert pm[k] in pm.Values;
          RfcMergePatch(Get(t, k), pm[k])
        else t[k])
    case _ => patch
  }

  /** `_merge_patch` computes exactly the MergePatch function of RFC 7386, section 2. */
  lemma {:induction false} MergePatchIsRfc7386(target: Json, patch: Json)
    ensures MergePatch(target, patch) == RfcMergePatch(target, patch)
    decreases patch
  {
    if patch.JObj? {
      var pm := patch.members;
      var t := Members(target);
      var mine := MergePatch(target, patch);
      var rfc := RfcMergePatch(target, patch);
      forall k | k in pm && !pm[k].JNull?
        ensures mine.members[k] == rfc.members[k]
      {
        assert pm[k] in pm.Values;
        if pm[k].JObj? {
          var sub := if k in t && t[k].JObj? then t[k] else JObj(map[]);
          MergePatchIsRfc7386(sub, pm[k]);
          MergePatchIsRfc7386(Get(t, k), pm[k]);
          assert MergePatch(sub, pm[k]) == MergePatch(Get(t, k), pm[k]);
        } else {
          assert RfcMergePatch(Get(t, k), pm[k]) == pm[k];
        }
      }
      assert mine.members == rfc.members;
    }
  }

  // The key loop of lines 117-133, one patch member at a time.

  /** One iteration of the key loop: apply patch member `key: value` to `result`. */
  function MergeStep(result: map<string, Json>, key: string, value: Json): map<string, Json> {
    if value.JNull? then result - {key}
    else if value.JObj? then
      var current := Get(result, key);
      result[key := if current.JObj? then MergePatch(current, value) else MergePatch(JObj(map[]), value)]
    else result[key := value]
  }

  /** The key loop over the patch members listed in `keys`, in that order. */
  function MergeLoop(result: map<string, Json>, pm: map<string, Json>, keys: seq<string>): map<string, Json>
    requires forall i :: 0 <= i < |keys| ==> keys[i] in pm
    decreases |keys|
  {
    if keys == [] then result
    else MergeLoop(MergeStep(result, keys[0], pm[keys[0]]), pm, keys[1..])
  }

  /** What the loop leaves after applying the members named in `done` to `result`. */
  function Applied(result: map<string, Json>, pm: map<string, Json>, done: set<string>): map<string, Json>
    requires done <= pm.Keys
  {
    map k | k in result.Keys + done && !(k in done && pm[k].JNull?) ::
      if k in done then MergeStep(result, k, pm[k])[k] else result[k]
  }

  lemma StepThenApplied(result: map<string, Json>, pm: map<string, Json>, k: string, done: set<string>)
    requires done <= pm.Keys && k in pm && k !in done
    ensures Applied(MergeStep(result, k, pm[k]), pm, done) == Applied(result, pm, done + {k})
  {
    var stepped := MergeStep(result, k, pm[k]);
    var lhs := Applied(stepped, pm, done);
    var rhs := Applied(result, pm, done + {k});
    forall j | j in lhs ensures j in rhs && lhs[j] == rhs[j] {
      if j in done {
        assert Get(stepped, j) == Get(result, j);
      }
    }
    forall j | j in rhs ensures j in lhs {
    }
    assert lhs == rhs;
  }

  lemma {:induction false} MergeLoopApplies(result: map<string, Json>, pm: map<string, Json>, keys: seq<string>)
    requires forall i :: 0 <= i < |keys| ==> keys[i] in pm
    requires forall i, j :: 0 <= i < j < |keys| ==> keys[i] != keys[j]
    ensures MergeLoop(result, pm, keys) == Applied(result, pm, set i | 0 <= i < |keys| :: keys[i])
    decreases |keys|
  {
    var done := set i | 0 <= i < |keys| :: keys[i];
    if keys == [] {
      assert done == {};
      assert Applied(result, pm, done) == result;
    } else {
      var rest := set i | 0 <= i < |keys[1..]| :: keys[1..][i];
      MergeLoopApplies(MergeStep(result, keys[0], pm[keys[0]]), pm, keys[1..]);
      assert keys[0] !in rest;
      StepThenApplied(result, pm, keys[0], rest);
      assert done == rest + {keys[0]} by {
        forall x | x in done ensures x in rest + {keys[0]} {
          var i :| 0 <= i < |keys| && keys[i] == x;
          if i > 0 { assert keys[1..][i - 1] == x; }
        }
      }
    }
  }

  /** Key by key, applying every patch member is the merge. */
  lemma AppliedKey(target: Json, pm: map<string, Json>, k: string)
    ensures k in Applied(Members(target), pm, pm.Keys) <==> k in MergePatch(target, JObj(pm)).members
    ensures k in Applied(Members(target), pm, pm.Keys) ==>
      Applied(Members(target), pm, pm.Keys)[k] == MergePatch(target, JObj(pm)).members[k]
  {
  }

  /** Applying every patch member, in any order, is the merge. */
  lemma AppliedAllIsMerge(target: Json, pm: map<string, Json>)
    ensures JObj(Applied(Members(target), pm, pm.Keys)) == MergePatch(target, JObj(pm))
  {
    var lhs := Applied(Members(target), pm, pm.Keys);
    var rhs := MergePatch(target, JObj(pm)).members;
    forall k ensures k in lhs <==> k in rhs {
      AppliedKey(target, pm, k);
    }
    forall k | k in lhs ensures lhs[k] == rhs[k] {
      AppliedKey(target, pm, k);
    }
    assert lhs == rhs;
  }

  /**
   * The key loop yields the merge whatever order it visits the patch members in: the
   * result does not depend on the dictionary's iteration order.
   */
  lemma MergeLoopIsMergePatch(target: Json, pm: map<string, Json>, keys: seq<string>)
    requires forall i, j :: 0 <= i < j < |keys| ==> keys[i] != keys[j]
    requires forall k :: k in pm <==> k in keys
    ensures JObj(MergeLoop(Members(target), pm, keys)) == MergePatch(target, JObj(pm))
  {
    assert (set i | 0 <= i < |keys| :: keys[i]) == pm.Keys;
    MergeLoopApplies(Members(target), pm, keys);
    AppliedAllIsMerge(target, pm);
  }

  /** An empty patch document leaves an object target as it is. */
  lemma EmptyPatchIsIdentity(target: map<string, Json>)
    ensures MergePatch(JObj(target), JObj(map[])) == JObj(target)
  {
    assert MergePatch(JObj(target), JObj(map[])).members == target;
  }
}
