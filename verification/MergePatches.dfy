/** The merge patch code on trees, against the merge of RFC 7396 on values. */
module MergePatches {
  import opened Keys
  import opened Trees
  import opened Comparing
  import opened Merging

  // ----- applying

  function Take(ms: seq<Member>, name: string, caseSensitive: bool): Option<Json> {
    var i := IndexOf(ms, name, caseSensitive);
    if i < |ms| then Some(ms[i].value) else None
  }

  function MergePatch(target: Option<Json>, patch: Json, caseSensitive: bool): Json
    decreases patch, 1, 0
  {
    if !patch.Object? then patch
    else
      MembersUnder(patch);
      var ms := if target.Some? && target.value.Object? then target.value.members else [];
      Object(MergeMembers(ms, patch.members, caseSensitive, patch))
  }

  /** One member of the patch after the other: a null removes, anything else is
      merged into what was there and goes to the end. */
  function MergeMembers(ms: seq<Member>, ps: seq<Member>, caseSensitive: bool, ghost parent: Json): seq<Member>
    requires Under(ps, parent)
    decreases parent, 0, |ps|
  {
    if ps == [] then ms
    else MergeMembers(MergeMember(ms, ps[0], caseSensitive), ps[1..], caseSensitive, parent)
  }

  function MergeMember(ms: seq<Member>, p: Member, caseSensitive: bool): seq<Member>
    decreases p.value, 2, 0
  {
    var rest := DropMember(ms, p.key, caseSensitive);
    if p.value.Null? then rest
    else rest + [Member(p.key, MergePatch(Take(ms, p.key, caseSensitive), p.value, caseSensitive))]
  }

  method ApplyMergePatch(target: Option<Json>, patch: Json, caseSensitive: bool) returns (result: Json)
    ensures result == MergePatch(target, patch, caseSensitive)
    decreases patch, 1
  {
    if !patch.Object? {
      return patch;
    }
    hide DropMember; hide Take;
    var members := if target.Some? && target.value.Object? then target.value.members else [];
    ghost var was := members;
    MembersUnder(patch);
    var children := patch.members;
    while children != []
      invariant Under(children, patch)
      invariant MergeMembers(was, patch.members, caseSensitive, patch) == MergeMembers(members, children, caseSensitive, patch)
      decreases |children|
    {
      var child := children[0];
      var replaceMe := Take(members, child.key, caseSensitive);
      var rest := DropMember(members, child.key, caseSensitive);
      if child.value.Null? {
        members := rest;
      } else {
        var replacement := ApplyMergePatch(replaceMe, child.value, caseSensitive);
        members := rest + [Member(child.key, replacement)];
      }
      children := children[1..];
    }
    result := Object(members);
  }

  lemma SameIndex(ms: seq<Member>, k: string, keys: iset<string>, caseSensitive: bool)
    requires ShapedMembers(ms, keys) && k in keys && Separate(keys, caseSensitive)
    ensures IndexOf(ms, k, caseSensitive) == IndexOf(ms, k, true)
  {
    hide Shaped;
    var i, j := IndexOf(ms, k, caseSensitive), IndexOf(ms, k, true);
    assert i < |ms| ==> ms[i].key == k;
    assert j < |ms| ==> ms[j].key == k;
  }

  ghost function DenoteOption(j: Option<Json>): Option<Value> {
    if j.Some? then Some(Denote(j.value)) else None
  }

  lemma ExactIndex(ms: seq<Member>, k: string)
    requires Distinct(ms)
    ensures IndexOf(ms, k, true) < |ms| <==> k in KeysOf(ms)
    ensures var i := IndexOf(ms, k, true); i < |ms| ==> ms[i].key == k && Find(ms, k) == Some(ms[i].value)
  {
    var i := IndexOf(ms, k, true);
    if k in KeysOf(ms) {
      var m :| m in ms && m.key == k;
      var n :| 0 <= n < |ms| && ms[n] == m;
      assert ms[n].key == k;
    }
    if i < |ms| {
      assert ms[i] in ms;
      FindMember(ms, ms[i]);
    }
  }

  lemma TakeAndDrop(ms: seq<Member>, k: string, keys: iset<string>, caseSensitive: bool)
    requires ShapedMembers(ms, keys) && k in keys && Separate(keys, caseSensitive)
    ensures DenoteOption(Take(ms, k, caseSensitive)) == Get(Fields(ms), k)
    ensures Take(ms, k, caseSensitive).Some? ==> Shaped(Take(ms, k, caseSensitive).value, keys)
    ensures Distinct(DropMember(ms, k, caseSensitive)) && k !in KeysOf(DropMember(ms, k, caseSensitive))
    ensures Fields(DropMember(ms, k, caseSensitive)) == Fields(ms) - {k}
    ensures forall m :: m in DropMember(ms, k, caseSensitive) ==> m in ms
  {
    hide IndexOf; hide Shaped; hide Separate;
    SameIndex(ms, k, keys, caseSensitive);
    ExactIndex(ms, k);
    FieldsKeys(ms);
    var i := IndexOf(ms, k, true);
    if i < |ms| {
      RemoveMembers(ms, i);
      RemoveFields(ms, i);
    } else {
      assert Fields(ms) - {k} == Fields(ms);
    }
  }

  lemma SubsetShaped(ms: seq<Member>, rest: seq<Member>, keys: iset<string>)
    requires ShapedMembers(ms, keys) && Distinct(rest) && forall m :: m in rest ==> m in ms
    ensures ShapedMembers(rest, keys)
  {
    hide Shaped;
    forall i | 0 <= i < |rest| ensures rest[i].key in keys && Shaped(rest[i].value, keys) {
      assert rest[i] in ms;
      var j :| 0 <= j < |ms| && ms[j] == rest[i];
    }
  }

  lemma AppendShaped(ms: seq<Member>, m: Member, keys: iset<string>)
    requires ShapedMembers(ms, keys) && m.key in keys && m.key !in KeysOf(ms) && Shaped(m.value, keys)
    ensures ShapedMembers(ms + [m], keys)
  {
    hide Shaped; hide KeysOf;
    AppendMembers(ms, m);
  }

  /** The merge of the code is the merge of RFC 7396 on trees with distinct keys. */
  lemma {:induction false} MergePatchDenotes(target: Option<Json>, patch: Json, keys: iset<string>, caseSensitive: bool)
    requires (target.Some? ==> Shaped(target.value, keys)) && Shaped(patch, keys) && Separate(keys, caseSensitive)
    ensures Denote(MergePatch(target, patch, caseSensitive)) == RfcMerge(DenoteOption(target), Denote(patch))
    ensures Shaped(MergePatch(target, patch, caseSensitive), keys)
    decreases patch, 1, 0
  {
    hide Separate; hide MergeMembers; hide Denote; hide RfcMerge; hide Shaped;
    if patch.Object? {
      var ms := if target.Some? && target.value.Object? then target.value.members else [];
      MembersUnder(patch);
      ShapedObject(patch, keys);
      ShapedObject(if target.Some? then target.value else Null, keys);
      assert ShapedMembers(ms, keys);
      MergeMembersDenote(ms, patch.members, keys, caseSensitive, patch);
      MergedObject(target, patch, ms, MergeMembers(ms, patch.members, caseSensitive, patch));
      ShapedObject(MergePatch(target, patch, caseSensitive), keys);
    } else {
      MergedOther(target, patch);
    }
  }

  lemma ShapedObject(j: Json, keys: iset<string>)
    ensures j.Object? ==> (Shaped(j, keys) <==> ShapedMembers(j.members, keys))
  {
  }

  lemma MergedObject(target: Option<Json>, patch: Json, ms: seq<Member>, rs: seq<Member>)
    requires patch.Object?
    requires ms == if target.Some? && target.value.Object? then target.value.members else []
    requires Fields(rs) == MergeFields(Fields(ms), Obj(Fields(patch.members)))
    ensures Denote(Object(rs)) == RfcMerge(DenoteOption(target), Denote(patch))
  {
    hide MergeFields;
    EmptyFields();
  }

  lemma MergedOther(target: Option<Json>, patch: Json)
    requires !patch.Object?
    ensures Denote(patch) == RfcMerge(DenoteOption(target), Denote(patch))
  {
  }

  lemma EmptyFields()
    ensures Fields([]) == map[]
  {
    assert KeysOf([]) == {};
  }

  lemma {:induction false} MergeMemberDenotes(ms: seq<Member>, p: Member, keys: iset<string>, caseSensitive: bool)
    requires ShapedMembers(ms, keys) && p.key in keys && Shaped(p.value, keys) && Separate(keys, caseSensitive)
    ensures ShapedMembers(MergeMember(ms, p, caseSensitive), keys)
    ensures Fields(MergeMember(ms, p, caseSensitive)) ==
            if Denote(p.value) == NULL then Fields(ms) - {p.key}
            else Fields(ms)[p.key := RfcMerge(Get(Fields(ms), p.key), Denote(p.value))]
    decreases p.value, 2, 0
  {
    hide MergePatch; hide DropMember; hide Take; hide RfcMerge; hide Separate; hide Fields; hide Shaped; hide KeysOf; hide Distinct;
    var k := p.key;
    var rest := DropMember(ms, k, caseSensitive);
    TakeAndDrop(ms, k, keys, caseSensitive);
    SubsetShaped(ms, rest, keys);
    assert Denote(p.value) == NULL <==> p.value.Null?;
    if !p.value.Null? {
      var v := MergePatch(Take(ms, k, caseSensitive), p.value, caseSensitive);
      MergePatchDenotes(Take(ms, k, caseSensitive), p.value, keys, caseSensitive);
      AppendShaped(rest, Member(k, v), keys);
      AppendFields(rest, Member(k, v));
      assert (Fields(ms) - {k})[k := Denote(v)] == Fields(ms)[k := Denote(v)];
    }
  }

  lemma MergeFieldsStep(m: map<string, Value>, f: map<string, Value>, k: string)
    requires k in f
    ensures MergeFields(m, Obj(f)) ==
            MergeFields(if f[k] == NULL then m - {k} else m[k := RfcMerge(Get(m, k), f[k])], Obj(f - {k}))
  {
    hide RfcMerge; hide MergeFields;
    var m1 := if f[k] == NULL then m - {k} else m[k := RfcMerge(Get(m, k), f[k])];
    forall q ensures Get(MergeFields(m, Obj(f)), q) == Get(MergeFields(m1, Obj(f - {k})), q) {
      MergeAt(m, Obj(f), q);
      MergeAt(m1, Obj(f - {k}), q);
    }
    SameMap(MergeFields(m, Obj(f)), MergeFields(m1, Obj(f - {k})));
  }

  lemma ShapedTail(ms: seq<Member>, keys: iset<string>)
    requires ShapedMembers(ms, keys) && ms != []
    ensures ShapedMembers(ms[1..], keys)
  {
    hide Shaped;
    assert forall i :: 0 <= i < |ms[1..]| ==> ms[1..][i] == ms[i + 1];
  }

  lemma MergeFieldsNone(m: map<string, Value>)
    ensures MergeFields(m, Obj(map[])) == m
  {
    forall k ensures Get(MergeFields(m, Obj(map[])), k) == Get(m, k) { MergeAt(m, Obj(map[]), k); }
    SameMap(MergeFields(m, Obj(map[])), m);
  }

  lemma {:induction false} MergeMembersDenote(ms: seq<Member>, ps: seq<Member>, keys: iset<string>, caseSensitive: bool, parent: Json)
    requires ShapedMembers(ms, keys) && ShapedMembers(ps, keys) && Separate(keys, caseSensitive) && Under(ps, parent)
    ensures ShapedMembers(MergeMembers(ms, ps, caseSensitive, parent), keys)
    ensures Fields(MergeMembers(ms, ps, caseSensitive, parent)) == MergeFields(Fields(ms), Obj(Fields(ps)))
    decreases parent, 0, |ps|
  {
    hide MergeMember; hide RfcMerge; hide MergeFields; hide Separate; hide Fields; hide Shaped; hide KeysOf; hide Distinct;
    if ps == [] {
      EmptyFields();
      MergeFieldsNone(Fields(ms));
    } else {
      var p := ps[0];
      assert p in ps;
      MergeMemberDenotes(ms, p, keys, caseSensitive);
      ShapedTail(ps, keys);
      UnconsFields(ps);
      MergeFieldsStep(Fields(ms), Fields(ps), p.key);
      MergeMembersDenote(MergeMember(ms, p, caseSensitive), ps[1..], keys, caseSensitive, parent);
    }
  }

  /** Applying the same patch twice gives what applying it once gives. */
  lemma MergePatchTwice(target: Option<Json>, patch: Json, keys: iset<string>, caseSensitive: bool)
    requires (target.Some? ==> Shaped(target.value, keys)) && Shaped(patch, keys) && Separate(keys, caseSensitive)
    ensures var once := MergePatch(target, patch, caseSensitive);
            Denote(MergePatch(Some(once), patch, caseSensitive)) == Denote(once)
  {
    hide MergePatch; hide RfcMerge; hide Denote; hide Shaped; hide Separate;
    MergePatchDenotes(target, patch, keys, caseSensitive);
    MergePatchDenotes(Some(MergePatch(target, patch, caseSensitive)), patch, keys, caseSensitive);
    MergeTwice(DenoteOption(target), Denote(patch));
  }
}
