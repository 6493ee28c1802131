/** JSON Merge Patch (RFC 7396): applying and generating merge patches. */
module Merging {
  import opened Keys
  import opened Trees
  import opened Comparing

  // ----- the merge of section 2 of RFC 7396, on values

  ghost function Get(m: map<string, Value>, k: string): Option<Value> {
    if k in m then Some(m[k]) else None
  }

  ghost function FieldsOf(v: Option<Value>): map<string, Value> {
    if v.Some? && v.value.Obj? then v.value.fields else map[]
  }

  const NULL := Atom(Null)

  ghost function RfcMerge(target: Option<Value>, patch: Value): Value
    decreases patch, 1
  {
    if patch.Obj? then Obj(MergeFields(FieldsOf(target), patch)) else patch
  }

  ghost function MergeFields(m: map<string, Value>, patch: Value): map<string, Value>
    requires patch.Obj?
    decreases patch, 0
  {
    map k | k in m.Keys + patch.fields.Keys && !(k in patch.fields && patch.fields[k] == NULL)
      :: if k in patch.fields then RfcMerge(Get(m, k), patch.fields[k]) else m[k]
  }

  lemma MergeAt(m: map<string, Value>, patch: Value, k: string)
    requires patch.Obj?
    ensures k !in patch.fields ==> Get(MergeFields(m, patch), k) == Get(m, k)
    ensures k in patch.fields && patch.fields[k] == NULL ==> k !in MergeFields(m, patch)
    ensures k in patch.fields && patch.fields[k] != NULL ==>
              && Get(MergeFields(m, patch), k) == Some(RfcMerge(Get(m, k), patch.fields[k]))
              && RfcMerge(Get(m, k), patch.fields[k]) != NULL
  {
  }

  lemma SameMap(a: map<string, Value>, b: map<string, Value>)
    requires forall k :: Get(a, k) == Get(b, k)
    ensures a == b
  {
    forall k ensures (k in a <==> k in b) && (k in a ==> a[k] == b[k]) {
      assert Get(a, k) == Get(b, k);
    }
  }

  /** Applying the same patch again changes nothing. */
  lemma {:induction false} MergeTwice(target: Option<Value>, patch: Value)
    ensures RfcMerge(Some(RfcMerge(target, patch)), patch) == RfcMerge(target, patch)
    decreases patch
  {
    if patch.Obj? {
      var m := FieldsOf(target);
      var once := MergeFields(m, patch);
      forall k ensures Get(MergeFields(once, patch), k) == Get(once, k) {
        MergeAt(m, patch, k);
        MergeAt(once, patch, k);
        if k in patch.fields { MergeTwice(Get(m, k), patch.fields[k]); }
      }
      SameMap(MergeFields(once, patch), once);
    }
  }

  // ----- which values a merge patch can produce

  /** A merge patch cannot write a null: every null member of the new value must
      have been there already. Arrays and scalars are taken over whole. */
  ghost predicate Reachable(from: Option<Value>, wanted: Value)
    decreases wanted
  {
    from == Some(wanted) ||
    (wanted.Obj? ==> forall k :: k in wanted.fields ==>
       || Get(FieldsOf(from), k) == Some(wanted.fields[k])
       || (wanted.fields[k] != NULL && Reachable(Get(FieldsOf(from), k), wanted.fields[k])))
  }

  /** Whatever a patch produces is reachable. */
  lemma {:induction false} MergedIsReachable(from: Option<Value>, patch: Value)
    ensures Reachable(from, RfcMerge(from, patch))
    decreases patch
  {
    if patch.Obj? {
      var m, r := FieldsOf(from), MergeFields(FieldsOf(from), patch);
      forall k | k in r ensures Get(m, k) == Some(r[k]) || (r[k] != NULL && Reachable(Get(m, k), r[k])) {
        MergeAt(m, patch, k);
        if k in patch.fields { MergedIsReachable(Get(m, k), patch.fields[k]); }
      }
    }
  }

  // ----- the generated patch, on values

  ghost function Difference(from: Option<Value>, wanted: Value): Value
    decreases wanted, 1
  {
    if from.Some? && from.value.Obj? && wanted.Obj? then Obj(DifferenceFields(from.value.fields, wanted)) else wanted
  }

  ghost function DifferenceFields(f: map<string, Value>, wanted: Value): map<string, Value>
    requires wanted.Obj?
    decreases wanted, 0
  {
    map k | k in f.Keys + wanted.fields.Keys && !(k in f && k in wanted.fields && f[k] == wanted.fields[k])
      :: if k in wanted.fields then Difference(Get(f, k), wanted.fields[k]) else NULL
  }

  lemma DifferenceAt(f: map<string, Value>, wanted: Value, k: string)
    requires wanted.Obj?
    ensures Get(DifferenceFields(f, wanted), k) ==
            if k in wanted.fields then
              if Get(f, k) == Some(wanted.fields[k]) then None else Some(Difference(Get(f, k), wanted.fields[k]))
            else if k in f then Some(NULL) else None
    ensures k in wanted.fields && wanted.fields[k] != NULL ==> Difference(Get(f, k), wanted.fields[k]) != NULL
  {
  }

  /** Merging the difference gives the new value exactly when that value is reachable. */
  lemma {:induction false} MergeDifference(from: Option<Value>, wanted: Value)
    ensures RfcMerge(from, Difference(from, wanted)) == wanted <==> Reachable(from, wanted)
    decreases wanted
  {
    if RfcMerge(from, Difference(from, wanted)) == wanted {
      MergedIsReachable(from, Difference(from, wanted));
    }
    if Reachable(from, wanted) && wanted.Obj? {
      if from.Some? && from.value.Obj? { MergeDifferenceObject(from, wanted); } else { MergeWhole(from, wanted); }
    }
  }

  lemma {:induction false} MergeDifferenceObject(from: Option<Value>, wanted: Value)
    requires from.Some? && from.value.Obj? && wanted.Obj? && Reachable(from, wanted)
    ensures RfcMerge(from, Difference(from, wanted)) == wanted
    decreases wanted, 0
  {
    var f, d := from.value.fields, Difference(from, wanted);
    forall k ensures Get(MergeFields(f, d), k) == Get(wanted.fields, k) {
      DifferenceAt(f, wanted, k);
      MergeAt(f, d, k);
      if k in wanted.fields { MergeDifference(Get(f, k), wanted.fields[k]); }
    }
    SameMap(MergeFields(f, d), wanted.fields);
  }

  /** A new object added whole. */
  lemma {:induction false} MergeWhole(from: Option<Value>, wanted: Value)
    requires !(from.Some? && from.value.Obj?) && wanted.Obj? && Reachable(from, wanted)
    ensures RfcMerge(from, wanted) == wanted
    decreases wanted, 0
  {
    forall k ensures Get(MergeFields(map[], wanted), k) == Get(wanted.fields, k) {
      MergeAt(map[], wanted, k);
      if k in wanted.fields { MergeDifference(None, wanted.fields[k]); }
    }
    SameMap(MergeFields(map[], wanted), wanted.fields);
  }

  /** No merge patch does better than the generated one. */
  lemma DifferenceIsComplete(from: Option<Value>, wanted: Value, patch: Value)
    requires RfcMerge(from, patch) == wanted
    ensures RfcMerge(from, Difference(from, wanted)) == wanted
  {
    MergedIsReachable(from, patch);
    MergeDifference(from, wanted);
  }
}
