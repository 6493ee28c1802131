/** Generating a merge patch from two trees. */
module MergeDiffing {
  import opened Keys
  import opened Trees
  import opened Sorting
  import opened Comparing
  import opened Merging
  import opened MergePatches

  /** The patch for two trees, or none when two objects are already equal. The
      members are sorted in the caller's mode, walked in byte order, and nested
      patches are always generated ignoring case. */
  function Generate(from: Json, wanted: Json, caseSensitive: bool): Option<Json>
    decreases from, 1, 0
  {
    if !wanted.Object? || !from.Object? then Some(wanted)
    else
      MembersUnder(from);
      var ps := Walk(SortMembers(from.members, caseSensitive), SortMembers(wanted.members, caseSensitive), caseSensitive, from);
      if ps == [] then None else Some(Object(ps))
  }

  function Walk(fs: seq<Member>, ts: seq<Member>, caseSensitive: bool, ghost parent: Json): seq<Member>
    requires Under(fs, parent)
    decreases parent, 0, |fs| + |ts|
  {
    if fs == [] && ts == [] then []
    else
      var diff := if fs == [] then 1 else if ts == [] then -1 else Compare(fs[0].key, ts[0].key, true);
      if diff < 0 then [Member(fs[0].key, Null)] + Walk(fs[1..], ts, caseSensitive, parent)
      else if diff > 0 then [ts[0]] + Walk(fs, ts[1..], caseSensitive, parent)
      else
        (if CompareJson(fs[0].value, ts[0].value, caseSensitive) then []
         else
           var p := Generate(fs[0].value, ts[0].value, false);
           if p == None then [] else [Member(ts[0].key, p.value)])
        + Walk(fs[1..], ts[1..], caseSensitive, parent)
  }

  method GenerateMergePatch(from: Json, wanted: Json, caseSensitive: bool) returns (patch: Option<Json>)
    ensures patch == Generate(from, wanted, caseSensitive)
    decreases from, 1
  {
    if !wanted.Object? || !from.Object? {
      return Some(wanted);
    }
    MembersUnder(from);
    var ps := WalkChildren(SortMembers(from.members, caseSensitive), SortMembers(wanted.members, caseSensitive),
                           caseSensitive, from);
    patch := if ps == [] then None else Some(Object(ps));
  }

  lemma WalkUnfold(fs: seq<Member>, ts: seq<Member>, caseSensitive: bool, parent: Json, diff: int)
    requires Under(fs, parent) && (fs != [] || ts != [])
    requires diff == if fs == [] then 1 else if ts == [] then -1 else Compare(fs[0].key, ts[0].key, true)
    ensures Walk(fs, ts, caseSensitive, parent) ==
            if diff < 0 then [Member(fs[0].key, Null)] + Walk(fs[1..], ts, caseSensitive, parent)
            else if diff > 0 then [ts[0]] + Walk(fs, ts[1..], caseSensitive, parent)
            else PairPatch(fs[0], ts[0], caseSensitive) + Walk(fs[1..], ts[1..], caseSensitive, parent)
  {
    hide CompareJson; hide Generate; hide Compare;
  }

  /** What the walk emits for a key both objects have. */
  ghost function PairPatch(f: Member, t: Member, caseSensitive: bool): seq<Member> {
    if CompareJson(f.value, t.value, caseSensitive) then []
    else
      var p := Generate(f.value, t.value, false);
      if p == None then [] else [Member(t.key, p.value)]
  }

  method WalkChildren(fs: seq<Member>, ts: seq<Member>, caseSensitive: bool, ghost parent: Json) returns (ps: seq<Member>)
    requires Under(fs, parent)
    ensures ps == Walk(fs, ts, caseSensitive, parent)
    decreases parent, 0
  {
    hide CompareJson; hide Generate; hide Compare; hide Walk;
    var fromChild, toChild := fs, ts;
    ps := [];
    while fromChild != [] || toChild != []
      invariant Under(fromChild, parent)
      invariant ps + Walk(fromChild, toChild, caseSensitive, parent) == Walk(fs, ts, caseSensitive, parent)
      decreases |fromChild| + |toChild|
    {
      var diff;
      if fromChild == [] {
        diff := 1;
      } else if toChild == [] {
        diff := -1;
      } else {
        diff := CompareStrings(fromChild[0].key, toChild[0].key, true);
      }
      WalkUnfold(fromChild, toChild, caseSensitive, parent, diff);
      if diff < 0 {
        Regroup(ps, [Member(fromChild[0].key, Null)], Walk(fromChild[1..], toChild, caseSensitive, parent));
        ps := ps + [Member(fromChild[0].key, Null)];
        fromChild := fromChild[1..];
      } else if diff > 0 {
        Regroup(ps, [toChild[0]], Walk(fromChild, toChild[1..], caseSensitive, parent));
        ps := ps + [toChild[0]];
        toChild := toChild[1..];
      } else {
        Regroup(ps, PairPatch(fromChild[0], toChild[0], caseSensitive), Walk(fromChild[1..], toChild[1..], caseSensitive, parent));
        var same := CompareTrees(fromChild[0].value, toChild[0].value, caseSensitive);
        if !same {
          var p := GenerateMergePatch(fromChild[0].value, toChild[0].value, false);
          if p.Some? {
            ps := ps + [Member(toChild[0].key, p.value)];
          }
        }
        fromChild, toChild := fromChild[1..], toChild[1..];
      }
    }
    assert Walk([], [], caseSensitive, parent) == [] by { WalkNone(caseSensitive, parent); }
  }

  lemma Regroup(a: seq<Member>, b: seq<Member>, c: seq<Member>)
    ensures a + (b + c) == a + b + c && a + [] == a
  {
  }

  lemma WalkNone(caseSensitive: bool, parent: Json)
    ensures Walk([], [], caseSensitive, parent) == []
  {
  }

  // ----- what the generated patch says

  /** An object whose own keys come from `top` and whose values use only `keys`. */
  ghost predicate NestedMembers(ms: seq<Member>, top: iset<string>, keys: iset<string>) {
    Distinct(ms) && forall i :: 0 <= i < |ms| ==> ms[i].key in top && Keyed(ms[i].value, keys)
  }

  ghost predicate Nested(j: Json, top: iset<string>, keys: iset<string>) {
    if j.Object? then NestedMembers(j.members, top, keys) else Keyed(j, keys)
  }

  lemma {:induction false} KeyedShaped(j: Json, keys: iset<string>, all: iset<string>)
    requires Keyed(j, keys) && keys <= all
    ensures Shaped(j, all)
  {
    match j
    case Array(items) => forall i | 0 <= i < |items| ensures Shaped(items[i], all) { KeyedShaped(items[i], keys, all); }
    case Object(ms) => forall i | 0 <= i < |ms| ensures Shaped(ms[i].value, all) { KeyedShaped(ms[i].value, keys, all); }
    case _ =>
  }

  lemma NestedShaped(j: Json, top: iset<string>, keys: iset<string>)
    requires Nested(j, top, keys)
    ensures Shaped(j, top + keys)
  {
    if j.Object? {
      forall i | 0 <= i < |j.members| ensures Shaped(j.members[i].value, top + keys) {
        KeyedShaped(j.members[i].value, keys, top + keys);
      }
    } else {
      KeyedShaped(j, keys, top + keys);
    }
  }

  lemma DifferenceStep(f: map<string, Value>, t: map<string, Value>, k: string)
    requires k in f || k in t
    ensures var d, d' := DifferenceFields(f, Obj(t)), DifferenceFields(f - {k}, Obj(t - {k}));
            && k !in d'
            && (k !in t ==> d == d'[k := NULL])
            && (k in t && Get(f, k) == Some(t[k]) ==> d == d')
            && (k in t && Get(f, k) != Some(t[k]) ==> d == d'[k := Difference(Get(f, k), t[k])])
  {
    hide DifferenceFields; hide Difference;
    var d, d' := DifferenceFields(f, Obj(t)), DifferenceFields(f - {k}, Obj(t - {k}));
    DifferenceAt(f, Obj(t), k);
    DifferenceAt(f - {k}, Obj(t - {k}), k);
    var e := if k in t then (if Get(f, k) == Some(t[k]) then d' else d'[k := Difference(Get(f, k), t[k])]) else d'[k := NULL];
    forall q ensures Get(d, q) == Get(e, q) {
      DifferenceAt(f, Obj(t), q);
      DifferenceAt(f - {k}, Obj(t - {k}), q);
    }
    SameMap(d, e);
  }

  /** Nothing differs exactly when the objects are equal. */
  lemma DifferenceEmpty(f: map<string, Value>, t: map<string, Value>)
    ensures DifferenceFields(f, Obj(t)) == map[] <==> f == t
  {
    hide DifferenceFields; hide Difference;
    var d := DifferenceFields(f, Obj(t));
    if d == map[] {
      forall k ensures Get(f, k) == Get(t, k) {
        DifferenceAt(f, Obj(t), k);
        assert Get(d, k) == None;
      }
      SameMap(f, t);
    }
    if f == t {
      forall k ensures Get(d, k) == Get(map[], k) { DifferenceAt(f, Obj(t), k); }
      SameMap(d, map[]);
    }
  }

  lemma ConsFields(m: Member, ps: seq<Member>)
    requires Distinct(ps) && m.key !in KeysOf(ps)
    ensures Distinct([m] + ps) && Fields([m] + ps) == Fields(ps)[m.key := Denote(m.value)]
    ensures KeysOf([m] + ps) == KeysOf(ps) + {m.key}
  {
    hide Denote; hide Fields;
    var r := [m] + ps;
    assert r[1..] == ps;
    forall i, j | 0 <= i < j < |r| ensures r[i].key != r[j].key {
      if i == 0 { assert r[j] == ps[j - 1] && ps[j - 1] in ps; }
    }
    UnconsFields(r);
    var f, k := Fields(r), m.key;
    assert f == (f - {k})[k := f[k]];
  }

  /** A generated member list that stands for the difference of two objects. */
  ghost predicate Describes(ps: seq<Member>, f: map<string, Value>, t: map<string, Value>, all: iset<string>) {
    && ShapedMembers(ps, all)
    && Fields(ps) == DifferenceFields(f, Obj(t))
  }

  lemma {:induction false} GenerateDenotes(from: Json, wanted: Json, top: iset<string>, keys: iset<string>, caseSensitive: bool)
    requires Nested(from, top, keys) && Nested(wanted, top, keys)
    requires (caseSensitive || Uniform(top)) && Uniform(keys)
    ensures Generate(from, wanted, caseSensitive) == None ==> Denote(from) == Denote(wanted)
    ensures Generate(from, wanted, caseSensitive).Some? ==>
              && (from.Object? && wanted.Object? ==> Denote(from) != Denote(wanted))
              && Denote(Generate(from, wanted, caseSensitive).value) == Difference(Some(Denote(from)), Denote(wanted))
              && Shaped(Generate(from, wanted, caseSensitive).value, top + keys)
    decreases from, 1, 0
  {
    hide Uniform; hide Walk; hide SortMembers; hide Denote; hide Difference; hide Shaped;
    if wanted.Object? && from.Object? {
      MembersUnder(from);
      var fs, ts := SortMembers(from.members, caseSensitive), SortMembers(wanted.members, caseSensitive);
      SortedNested(from.members, top, keys, caseSensitive);
      SortedNested(wanted.members, top, keys, caseSensitive);
      WalkDenotes(fs, ts, top, keys, caseSensitive, from);
      var ps := Walk(fs, ts, caseSensitive, from);
      GeneratedObject(from, wanted, ps, top + keys);
    } else {
      NestedShaped(wanted, top, keys);
      DifferenceWhole(from, wanted);
    }
  }

  lemma DifferenceWhole(from: Json, wanted: Json)
    requires !wanted.Object? || !from.Object?
    ensures Denote(wanted) == Difference(Some(Denote(from)), Denote(wanted))
  {
  }

  lemma GeneratedObject(from: Json, wanted: Json, ps: seq<Member>, all: iset<string>)
    requires from.Object? && wanted.Object? && Describes(ps, Fields(from.members), Fields(wanted.members), all)
    ensures ps == [] <==> Denote(from) == Denote(wanted)
    ensures Denote(Object(ps)) == Difference(Some(Denote(from)), Denote(wanted)) && Shaped(Object(ps), all)
  {
    hide DifferenceFields; hide Fields;
    DifferenceEmpty(Fields(from.members), Fields(wanted.members));
    FieldsKeys(ps);
    EmptyFields();
    assert ps != [] ==> ps[0].key in KeysOf(ps);
    assert Denote(from) == Obj(Fields(from.members)) && Denote(wanted) == Obj(Fields(wanted.members)) by {
      ObjectFields(from.members);
      ObjectFields(wanted.members);
    }
    ObjectFields(ps);
    ShapedObject(Object(ps), all);
  }

  lemma ObjectFields(ms: seq<Member>)
    ensures Denote(Object(ms)) == Obj(Fields(ms))
  {
  }

  lemma SortedNested(ms: seq<Member>, top: iset<string>, keys: iset<string>, caseSensitive: bool)
    requires NestedMembers(ms, top, keys) && (caseSensitive || Uniform(top))
    ensures var r := SortMembers(ms, caseSensitive);
            NestedMembers(r, top, keys) && Asc(r) && Fields(r) == Fields(ms)
  {
    hide Keyed; hide Uniform; hide Denote;
    var r := SortMembers(ms, caseSensitive);
    SortedFields(ms, top, caseSensitive);
    forall i | 0 <= i < |r| ensures r[i].key in top && Keyed(r[i].value, keys) {
      assert r[i] in ms;
    }
  }

  lemma NestedTail(ms: seq<Member>, top: iset<string>, keys: iset<string>)
    requires NestedMembers(ms, top, keys) && ms != [] && Asc(ms)
    ensures NestedMembers(ms[1..], top, keys) && Asc(ms[1..])
    ensures ms[0].key in Fields(ms) && Fields(ms)[ms[0].key] == Denote(ms[0].value)
    ensures Fields(ms[1..]) == Fields(ms) - {ms[0].key}
  {
    hide Keyed; hide Denote; hide Compare; hide Fields;
    assert forall i :: 0 <= i < |ms[1..]| ==> ms[1..][i] == ms[i + 1];
    UnconsFields(ms);
  }

  lemma NotIn(ms: seq<Member>, k: string)
    requires Asc(ms) && (ms != [] ==> Compare(ms[0].key, k, true) > 0)
    ensures k !in Fields(ms)
  {
    hide Denote;
    FieldsKeys(ms);
    if k in KeysOf(ms) {
      LeastKey(ms, k);
      CompareZero(ms[0].key, k);
    }
  }

  /** Putting one more member in front of a described list. */
  lemma DescribesCons(m: Member, ps: seq<Member>, f: map<string, Value>, t: map<string, Value>, all: iset<string>)
    requires Describes(ps, f - {m.key}, t - {m.key}, all) && m.key in all && Shaped(m.value, all)
    requires (m.key in f && m.key !in t && m.value == Null)
          || (m.key in t && Get(f, m.key) != Some(t[m.key]) && Denote(m.value) == Difference(Get(f, m.key), t[m.key]))
    ensures Describes([m] + ps, f, t, all)
  {
    hide DifferenceFields; hide Difference; hide Fields; hide Shaped; hide Denote;
    var k := m.key;
    DifferenceStep(f, t, k);
    FieldsKeys(ps);
    assert k !in KeysOf(ps);
    ConsFields(m, ps);
    assert Denote(Null) == NULL by { DenoteNull(); }
    forall i | 0 <= i < |[m] + ps| ensures ([m] + ps)[i].key in all && Shaped(([m] + ps)[i].value, all) {
      assert i > 0 ==> ([m] + ps)[i] == ps[i - 1];
    }
  }

  lemma DenoteNull()
    ensures Denote(Null) == NULL
  {
  }

  lemma {:induction false} WalkDenotes(fs: seq<Member>, ts: seq<Member>, top: iset<string>, keys: iset<string>,
                                       caseSensitive: bool, parent: Json)
    requires NestedMembers(fs, top, keys) && NestedMembers(ts, top, keys) && Asc(fs) && Asc(ts) && Under(fs, parent)
    requires Uniform(keys)
    ensures Describes(Walk(fs, ts, caseSensitive, parent), Fields(fs), Fields(ts), top + keys)
    decreases parent, 0, 2 * (|fs| + |ts|) + 1
  {
    hide Uniform; hide Walk; hide Denote; hide Difference; hide DifferenceFields; hide Shaped; hide Keyed; hide Fields;
    hide Compare; hide CompareJson; hide Describes; hide Asc;
    if fs == [] && ts == [] {
      WalkNone(caseSensitive, parent);
      DescribesNone(top + keys);
    } else {
      var diff := if fs == [] then 1 else if ts == [] then -1 else Compare(fs[0].key, ts[0].key, true);
      WalkUnfold(fs, ts, caseSensitive, parent, diff);
      if diff < 0 {
        WalkRemoved(fs, ts, top, keys, caseSensitive, parent);
      } else if diff > 0 {
        WalkAdded(fs, ts, top, keys, caseSensitive, parent);
      } else {
        CompareZero(fs[0].key, ts[0].key);
        WalkPair(fs, ts, top, keys, caseSensitive, parent);
      }
    }
  }

  lemma DescribesNone(all: iset<string>)
    ensures Describes([], Fields([]), Fields([]), all)
  {
    hide DifferenceFields;
    EmptyFields();
    DifferenceEmpty(map[], map[]);
  }

  lemma {:induction false} WalkRemoved(fs: seq<Member>, ts: seq<Member>, top: iset<string>, keys: iset<string>,
                                       caseSensitive: bool, parent: Json)
    requires NestedMembers(fs, top, keys) && NestedMembers(ts, top, keys) && Asc(fs) && Asc(ts) && Under(fs, parent)
    requires Uniform(keys) && fs != [] && (ts != [] ==> Compare(fs[0].key, ts[0].key, true) < 0)
    ensures Describes([Member(fs[0].key, Null)] + Walk(fs[1..], ts, caseSensitive, parent), Fields(fs), Fields(ts), top + keys)
    decreases parent, 0, 2 * (|fs| + |ts|)
  {
    hide Uniform; hide Walk; hide Denote; hide Keyed; hide Fields; hide Compare; hide Describes; hide Asc;
    var k := fs[0].key;
    NestedTail(fs, top, keys);
    WalkDenotes(fs[1..], ts, top, keys, caseSensitive, parent);
    if ts != [] { CompareAntisymmetric(k, ts[0].key, true); }
    NotIn(ts, k);
    assert Fields(ts) - {k} == Fields(ts);
    DescribesCons(Member(k, Null), Walk(fs[1..], ts, caseSensitive, parent), Fields(fs), Fields(ts), top + keys);
  }

  lemma {:induction false} WalkAdded(fs: seq<Member>, ts: seq<Member>, top: iset<string>, keys: iset<string>,
                                     caseSensitive: bool, parent: Json)
    requires NestedMembers(fs, top, keys) && NestedMembers(ts, top, keys) && Asc(fs) && Asc(ts) && Under(fs, parent)
    requires Uniform(keys) && ts != [] && (fs != [] ==> Compare(fs[0].key, ts[0].key, true) > 0)
    ensures Describes([ts[0]] + Walk(fs, ts[1..], caseSensitive, parent), Fields(fs), Fields(ts), top + keys)
    decreases parent, 0, 2 * (|fs| + |ts|)
  {
    hide Uniform; hide Walk; hide Denote; hide Keyed; hide Fields; hide Compare; hide Describes; hide Asc; hide Shaped;
    var k := ts[0].key;
    NestedTail(ts, top, keys);
    WalkDenotes(fs, ts[1..], top, keys, caseSensitive, parent);
    NotIn(fs, k);
    assert Fields(fs) - {k} == Fields(fs);
    assert Keyed(ts[0].value, keys);
    KeyedShaped(ts[0].value, keys, top + keys);
    DescribesCons(ts[0], Walk(fs, ts[1..], caseSensitive, parent), Fields(fs), Fields(ts), top + keys);
  }

  lemma {:induction false} WalkPair(fs: seq<Member>, ts: seq<Member>, top: iset<string>, keys: iset<string>,
                                    caseSensitive: bool, parent: Json)
    requires NestedMembers(fs, top, keys) && NestedMembers(ts, top, keys) && Asc(fs) && Asc(ts) && Under(fs, parent)
    requires Uniform(keys) && fs != [] && ts != [] && fs[0].key == ts[0].key
    ensures Describes(PairPatch(fs[0], ts[0], caseSensitive) + Walk(fs[1..], ts[1..], caseSensitive, parent),
                      Fields(fs), Fields(ts), top + keys)
    decreases parent, 0, 2 * (|fs| + |ts|)
  {
    hide Uniform; hide Walk; hide Denote; hide Keyed; hide Fields; hide Compare; hide Asc; hide Shaped; hide Difference;
    hide CompareJson; hide Generate; hide Describes;
    var k, f, t := fs[0].key, fs[0].value, ts[0].value;
    var rest := Walk(fs[1..], ts[1..], caseSensitive, parent);
    assert fs[0] in fs;
    NestedTail(fs, top, keys);
    NestedTail(ts, top, keys);
    WalkDenotes(fs[1..], ts[1..], top, keys, caseSensitive, parent);
    assert Keyed(f, keys) && Keyed(t, keys);
    UniformSeparate(keys);
    CompareDenotes(f, t, keys, caseSensitive);
    if Denote(f) == Denote(t) {
      assert [] + rest == rest;
      DescribesSame(rest, Fields(fs), Fields(ts), k, top + keys);
    } else {
      KeyedNested(f, keys);
      KeyedNested(t, keys);
      GenerateDenotes(f, t, keys, keys, false);
      var p := Generate(f, t, false).value;
      WiderShape(p, keys + keys, top + keys);
      DescribesCons(Member(k, p), rest, Fields(fs), Fields(ts), top + keys);
    }
  }

  lemma DescribesSame(ps: seq<Member>, f: map<string, Value>, t: map<string, Value>, k: string, all: iset<string>)
    requires Describes(ps, f - {k}, t - {k}, all) && k in f && k in t && f[k] == t[k]
    ensures Describes(ps, f, t, all)
  {
    hide DifferenceFields; hide Difference; hide Fields; hide Shaped;
    DifferenceStep(f, t, k);
  }

  lemma KeyedNested(j: Json, keys: iset<string>)
    requires Keyed(j, keys)
    ensures Nested(j, keys, keys)
  {
  }

  lemma {:induction false} WiderShape(j: Json, keys: iset<string>, all: iset<string>)
    requires Shaped(j, keys) && keys <= all
    ensures Shaped(j, all)
  {
    match j
    case Array(items) => forall i | 0 <= i < |items| ensures Shaped(items[i], all) { WiderShape(items[i], keys, all); }
    case Object(ms) => forall i | 0 <= i < |ms| ensures Shaped(ms[i].value, all) { WiderShape(ms[i].value, keys, all); }
    case _ =>
  }

  /** Keys without upper-case letters meet the condition. */
  lemma LowerCaseUniform(keys: iset<string>)
    requires forall k :: k in keys ==> Fold(k) == k
    ensures Uniform(keys)
  {
    forall a, b | a in keys && b in keys
      ensures Compare(a, b, false) == Compare(a, b, true) && (Compare(a, b, false) == 0 <==> a == b)
    {
      LexZero(a, b);
    }
  }

  lemma FoldLetters()
    ensures Compare("a", "B", true) > 0 && Compare("a", "B", false) < 0
    ensures !Matches("B", "a", false) && !Matches("a", "B", false)
  {
    assert Fold("a")[0] == 'a' && Fold("B")[0] == 'b';
  }

  /** Mixed case: the walk in byte order over lists sorted without regard to case
      misses that both objects have the key "B", and the patch deletes it. */
  lemma MixedCaseFails()
    ensures var from, wanted := Object([Member("a", Null), Member("B", True)]), Object([Member("B", True)]);
            var patch := Object([Member("B", True), Member("a", Null), Member("B", Null)]);
            Generate(from, wanted, false) == Some(patch) && MergePatch(Some(from), patch, false) == Object([])
  {
    hide Generate; hide MergePatch; hide Compare; hide Matches;
    FoldLetters();
    OutOfStep(Member("a", Null), Member("B", True));
    OutOfStepMerge(Member("a", Null), Member("B", True));
  }

  lemma OutOfStep(a: Member, b: Member)
    requires Compare(a.key, b.key, true) > 0 && Compare(a.key, b.key, false) < 0
    ensures Generate(Object([a, b]), Object([b]), false) == Some(Object([b, Member(a.key, Null), Member(b.key, Null)]))
  {
    hide Compare; hide CompareJson; hide Walk; hide SortMembers;
    var from := Object([a, b]);
    MembersUnder(from);
    SortsToItself([a, b]);
    SortsToItself([b]);
    assert [a, b][1..] == [b] && [b][1..] == [];
    assert Under([b], from) by { assert b in from.members; }
    WalkNone(false, from);
    WalkUnfold([b], [], false, from, -1);
    WalkUnfold([a, b], [], false, from, -1);
    WalkUnfold([a, b], [b], false, from, Compare(a.key, b.key, true));
    assert Walk([a, b], [b], false, from) == [b, Member(a.key, Null), Member(b.key, Null)];
  }

  lemma MergeOne(ms: seq<Member>, p: Member, rest: seq<Member>, ms': seq<Member>, parent: Json)
    requires Under([p] + rest, parent) && MergeMember(ms, p, false) == ms'
    ensures Under(rest, parent)
    ensures MergeMembers(ms, [p] + rest, false, parent) == MergeMembers(ms', rest, false, parent)
  {
    hide MergeMember;
    assert ([p] + rest)[1..] == rest;
  }

  lemma OutOfStepMerge(a: Member, b: Member)
    requires !Matches(b.key, a.key, false) && !b.value.Null? && !b.value.Object?
    ensures MergePatch(Some(Object([a, b])), Object([b, Member(a.key, Null), Member(b.key, Null)]), false) == Object([])
  {
    hide Matches; hide MergeMembers; hide DropMember; hide Take;
    var a', b' := Member(a.key, Null), Member(b.key, Null);
    var patch := Object([b, a', b']);
    MembersUnder(patch);
    DropSecond(a, b);
    DropOnly(b, b');
    DropFirst(a, b);
    assert [b] + [a', b'] == [b, a', b'] && [a'] + [b'] == [a', b'] && [b'] + [] == [b'];
    MergeOne([a, b], b, [a', b'], [a, b], patch);
    MergeOne([a, b], a', [b'], [b], patch);
    MergeOne([b], b', [], [], patch);
    assert MergeMembers([], [], false, patch) == [] by { MergeNothing(patch); }
  }

  lemma MergeNothing(parent: Json)
    ensures MergeMembers([], [], false, parent) == []
  {
  }

  lemma SortsToItself(ms: seq<Member>)
    requires |ms| <= 1 || Strict(ms, KeyOf, false)
    ensures SortMembers(ms, false) == ms
  {
  }

  lemma DropFirst(a: Member, b: Member)
    ensures DropMember([a, b], a.key, false) == [b]
  {
    assert IndexOf([a, b], a.key, false) == 0;
    assert RemoveAt([a, b], 0) == [b];
  }

  lemma DropSecond(a: Member, b: Member)
    requires !Matches(b.key, a.key, false)
    ensures DropMember([a, b], b.key, false) == [a]
  {
    hide Canon;
    assert Matches(b.key, [a, b][1].key, false);
    assert IndexOf([a, b], b.key, false) == 1;
    assert RemoveAt([a, b], 1) == [a];
  }

  lemma DropOnly(b: Member, p: Member)
    requires b.key == p.key
    ensures DropMember([b], p.key, false) == []
  {
    assert IndexOf([b], p.key, false) == 0;
  }
}
