/** Comparing two trees after sorting the members of every object. */
module Comparing {
  import opened Keys
  import opened Trees
  import opened Sorting

  function KeyOf(m: Member): string { m.key }

  function SortMembers(ms: seq<Member>, caseSensitive: bool): (r: seq<Member>)
    ensures forall m :: m in r <==> m in ms
    ensures |r| == |ms|
  {
    var r := Sort(ms, KeyOf, caseSensitive);
    SortPermutes(ms, KeyOf, caseSensitive);
    SameMultiset(r, ms);
    r
  }

  lemma SameMultiset(a: seq<Member>, b: seq<Member>)
    requires multiset(a) == multiset(b)
    ensures |a| == |b| && forall m :: m in a <==> m in b
  {
    assert |multiset(a)| == |a| && |multiset(b)| == |b|;
    forall m ensures m in a <==> m in b {
      assert m in a <==> m in multiset(a);
      assert m in b <==> m in multiset(b);
    }
  }

  /** Folding the case changes neither the order nor the equality of these keys. */
  ghost predicate Uniform(keys: iset<string>) {
    forall a, b :: a in keys && b in keys ==>
      && (Compare(a, b, false) < 0 <==> Compare(a, b, true) < 0)
      && (Compare(a, b, false) == 0 <==> a == b)
  }

  /** No two keys differ only in case, unless case matters. */
  ghost predicate Separate(keys: iset<string>, caseSensitive: bool) {
    caseSensitive || forall a, b :: a in keys && b in keys && Fold(a) == Fold(b) ==> a == b
  }

  lemma UniformSeparate(keys: iset<string>)
    requires Uniform(keys)
    ensures Separate(keys, false)
  {
    forall a, b | a in keys && b in keys && Fold(a) == Fold(b) ensures a == b {
      LexZero(Fold(a), Fold(b));
    }
  }

  lemma SeparateCompare(a: string, b: string, keys: iset<string>, caseSensitive: bool)
    requires a in keys && b in keys && Separate(keys, caseSensitive)
    ensures Compare(a, b, caseSensitive) == 0 <==> a == b
  {
    LexZero(Canon(a, caseSensitive), Canon(b, caseSensitive));
  }

  /** Distinct keys, all of them from `keys`, at every level. */
  ghost predicate Shaped(j: Json, keys: iset<string>) {
    match j
    case Array(items) => forall i :: 0 <= i < |items| ==> Shaped(items[i], keys)
    case Object(ms) => Distinct(ms) && forall i :: 0 <= i < |ms| ==> ms[i].key in keys && Shaped(ms[i].value, keys)
    case _ => true
  }

  ghost predicate ShapedMembers(ms: seq<Member>, keys: iset<string>) {
    Distinct(ms) && forall i :: 0 <= i < |ms| ==> ms[i].key in keys && Shaped(ms[i].value, keys)
  }

  ghost predicate Keyed(j: Json, keys: iset<string>) {
    match j
    case Raw(_) => false
    case Array(items) => forall i :: 0 <= i < |items| ==> Keyed(items[i], keys)
    case Object(ms) => Distinct(ms) && forall i :: 0 <= i < |ms| ==> ms[i].key in keys && Keyed(ms[i].value, keys)
    case _ => true
  }

  ghost predicate KeyedMembers(ms: seq<Member>, keys: iset<string>) {
    Distinct(ms) && forall i :: 0 <= i < |ms| ==> ms[i].key in keys && Keyed(ms[i].value, keys)
  }

  /** Strictly ascending, in byte order unless said otherwise. */
  ghost predicate Asc(ms: seq<Member>, caseSensitive: bool := true) {
    forall i, j :: 0 <= i < j < |ms| ==> Compare(ms[i].key, ms[j].key, caseSensitive) < 0
  }

  lemma {:induction false} AscendingPairs(s: seq<Member>, caseSensitive: bool, i: nat, j: nat)
    requires Ascending(s, KeyOf, caseSensitive) && i < j < |s|
    ensures Compare(s[i].key, s[j].key, caseSensitive) <= 0
  {
    hide Compare;
    if i == 0 {
      assert s[j] == s[1..][j - 1];
      assert s[j] in s[1..];
    } else {
      AscendingPairs(s[1..], caseSensitive, i - 1, j - 1);
    }
  }

  lemma CompareZero(a: string, b: string)
    ensures Compare(a, b, true) == 0 <==> a == b
  {
    LexZero(a, b);
  }

  lemma DistinctAfterPermutation(a: seq<Member>, b: seq<Member>)
    requires multiset(a) == multiset(b) && Distinct(a)
    ensures Distinct(b)
  {
    forall i, j | 0 <= i < j < |b| ensures b[i].key != b[j].key {
      if b[i].key == b[j].key {
        SameMultiset(a, b);
        assert b[i] in a && b[j] in a;
        var p :| 0 <= p < |a| && a[p] == b[i];
        var q :| 0 <= q < |a| && a[q] == b[j];
        assert p == q;
        CountTwo(b, i, j);
        CountOnce(a, p);
      }
    }
  }

  lemma CountTwo(s: seq<Member>, i: nat, j: nat)
    requires i < j < |s| && s[i] == s[j]
    ensures multiset(s)[s[i]] >= 2
  {
    assert s == s[..i] + [s[i]] + s[i + 1..j] + [s[j]] + s[j + 1..];
  }

  lemma CountOnce(s: seq<Member>, p: nat)
    requires p < |s| && Distinct(s)
    ensures multiset(s)[s[p]] == 1
  {
    assert s == s[..p] + [s[p]] + s[p + 1..];
    assert s[p] !in s[..p] && s[p] !in s[p + 1..];
  }

  /** Sorting an object leaves its value alone and puts its keys in byte order. */
  lemma SortedFields(ms: seq<Member>, keys: iset<string>, caseSensitive: bool)
    requires Distinct(ms) && (forall m :: m in ms ==> m.key in keys) && (caseSensitive || Uniform(keys))
    ensures Distinct(SortMembers(ms, caseSensitive))
    ensures Asc(SortMembers(ms, caseSensitive))
    ensures Fields(SortMembers(ms, caseSensitive)) == Fields(ms)
    ensures KeysOf(SortMembers(ms, caseSensitive)) == KeysOf(ms)
  {
    var r := SortMembers(ms, caseSensitive);
    SortPermutes(ms, KeyOf, caseSensitive);
    SortAscends(ms, KeyOf, caseSensitive);
    DistinctAfterPermutation(ms, r);
    forall i, j | 0 <= i < j < |r| ensures Compare(r[i].key, r[j].key, true) < 0 {
      assert r[i] in ms && r[j] in ms;
      AscendingPairs(r, caseSensitive, i, j);
      CompareZero(r[i].key, r[j].key);
    }
    SameMembersSameFields(r, ms);
  }

  /** With keys that stay apart, sorting in either mode gives a strict order. */
  lemma SortedApart(ms: seq<Member>, keys: iset<string>, caseSensitive: bool)
    requires Distinct(ms) && (forall m :: m in ms ==> m.key in keys) && Separate(keys, caseSensitive)
    ensures var r := SortMembers(ms, caseSensitive);
      Distinct(r) && Asc(r, caseSensitive) && Fields(r) == Fields(ms) && KeysOf(r) == KeysOf(ms)
  {
    hide Separate; hide Compare; hide Denote;
    var r := SortMembers(ms, caseSensitive);
    SortPermutes(ms, KeyOf, caseSensitive);
    SortAscends(ms, KeyOf, caseSensitive);
    DistinctAfterPermutation(ms, r);
    SameMembersSameFields(r, ms);
    forall i, j | 0 <= i < j < |r| ensures Compare(r[i].key, r[j].key, caseSensitive) < 0 {
      assert r[i] in ms && r[j] in ms;
      AscendingPairs(r, caseSensitive, i, j);
      SeparateCompare(r[i].key, r[j].key, keys, caseSensitive);
    }
  }

  lemma SortedObject(ms: seq<Member>, keys: iset<string>, caseSensitive: bool)
    requires KeyedMembers(ms, keys) && Separate(keys, caseSensitive)
    ensures KeyedMembers(SortMembers(ms, caseSensitive), keys)
    ensures Asc(SortMembers(ms, caseSensitive), caseSensitive)
    ensures Fields(SortMembers(ms, caseSensitive)) == Fields(ms)
  {
    hide Keyed; hide Separate; hide Compare; hide Denote;
    var r := SortMembers(ms, caseSensitive);
    SortedApart(ms, keys, caseSensitive);
    forall i | 0 <= i < |r| ensures r[i].key in keys && Keyed(r[i].value, keys) {
      assert r[i] in ms;
    }
  }

  // ----- the comparison

  /** The type tags of the library. */
  function TypeOf(j: Json): nat {
    match j
    case Invalid => 0
    case False => 1
    case True => 2
    case Null => 4
    case Number(_) => 8
    case Text(_) => 16
    case Array(_) => 32
    case Object(_) => 64
    case Raw(_) => 128
  }

  ghost predicate Under(ms: seq<Member>, parent: Json) {
    forall m :: m in ms ==> m.value < parent
  }

  lemma MembersUnder(j: Json)
    requires j.Object?
    ensures Under(j.members, j)
  {
  }

  function CompareJson(a: Json, b: Json, caseSensitive: bool): bool
    decreases a, 1, 0
  {
    if TypeOf(a) != TypeOf(b) then false
    else match a
      case Number(n) => n == b.num
      case Text(t) => t == b.text
      case Array(items) => CompareItems(items, b.items, caseSensitive)
      case Object(ms) =>
        MembersUnder(a);
        CompareMembers(SortMembers(ms, caseSensitive), SortMembers(b.members, caseSensitive), caseSensitive, a)
      case _ => true
  }

  function CompareItems(a: seq<Json>, b: seq<Json>, caseSensitive: bool): bool
    decreases a, 0, 0
  {
    if a == [] || b == [] then a == [] && b == []
    else CompareJson(a[0], b[0], caseSensitive) && CompareItems(a[1..], b[1..], caseSensitive)
  }

  function CompareMembers(a: seq<Member>, b: seq<Member>, caseSensitive: bool, ghost parent: Json): bool
    requires Under(a, parent)
    decreases parent, 0, |a|
  {
    if a == [] || b == [] then a == [] && b == []
    else
      && Compare(a[0].key, b[0].key, caseSensitive) == 0
      && CompareJson(a[0].value, b[0].value, caseSensitive)
      && CompareMembers(a[1..], b[1..], caseSensitive, parent)
  }

  /** The recursive comparison with its two loops over the children. */
  method CompareTrees(a: Json, b: Json, caseSensitive: bool) returns (same: bool)
    ensures same == CompareJson(a, b, caseSensitive)
    decreases a, 1
  {
    if TypeOf(a) != TypeOf(b) {
      return false;
    }
    match a {
      case Number(n) => same := n == b.num;
      case Text(t) => same := t == b.text;
      case Array(items) =>
        var i := 0;
        while i < |items| && i < |b.items|
          invariant 0 <= i <= |items| && i <= |b.items|
          invariant CompareItems(items, b.items, caseSensitive) == CompareItems(items[i..], b.items[i..], caseSensitive)
        {
          var identical := CompareTrees(items[i], b.items[i], caseSensitive);
          if !identical {
            return false;
          }
          i := i + 1;
        }
        same := i == |items| && i == |b.items|;
      case Object(ms) =>
        MembersUnder(a);
        same := CompareChildren(SortMembers(ms, caseSensitive), SortMembers(b.members, caseSensitive), caseSensitive, a);
      case _ => same := true;
    }
  }

  method CompareChildren(xs: seq<Member>, ys: seq<Member>, caseSensitive: bool, ghost parent: Json) returns (same: bool)
    requires Under(xs, parent)
    ensures same == CompareMembers(xs, ys, caseSensitive, parent)
    decreases parent, 0
  {
    hide Compare;
    hide CompareJson;
    var i := 0;
    while i < |xs| && i < |ys|
      invariant 0 <= i <= |xs| && i <= |ys|
      invariant CompareMembers(xs, ys, caseSensitive, parent) == CompareMembers(xs[i..], ys[i..], caseSensitive, parent)
    {
      assert xs[i..][1..] == xs[i + 1..] && ys[i..][1..] == ys[i + 1..];
      assert xs[i] in xs;
      var diff := CompareStrings(xs[i].key, ys[i].key, caseSensitive);
      if diff != 0 {
        return false;
      }
      var identical := CompareTrees(xs[i].value, ys[i].value, caseSensitive);
      if !identical {
        return false;
      }
      i := i + 1;
    }
    same := i == |xs| && i == |ys|;
  }

  // ----- what the comparison decides

  /** Splitting off the first member of an object. */
  lemma UnconsFields(ms: seq<Member>)
    requires Distinct(ms) && ms != []
    ensures Distinct(ms[1..])
    ensures ms[0].key in Fields(ms) && Fields(ms)[ms[0].key] == Denote(ms[0].value)
    ensures Fields(ms[1..]) == Fields(ms) - {ms[0].key}
  {
    RemoveFields(ms, 0);
    assert RemoveAt(ms, 0) == ms[1..];
  }

  lemma LeastKey(ms: seq<Member>, k: string, caseSensitive: bool := true)
    requires Asc(ms, caseSensitive) && k in KeysOf(ms)
    ensures k == ms[0].key || Compare(ms[0].key, k, caseSensitive) < 0
  {
    var m :| m in ms && m.key == k;
    var i :| 0 <= i < |ms| && ms[i] == m;
  }

  /** Ascending objects of the same value start with the same key. */
  lemma SameFirstKey(a: seq<Member>, b: seq<Member>, caseSensitive: bool := true)
    requires Asc(a, caseSensitive) && Asc(b, caseSensitive) && a != [] && b != [] && KeysOf(a) == KeysOf(b)
    ensures a[0].key == b[0].key
  {
    assert a[0] in a && b[0] in b;
    assert b[0].key in KeysOf(b) && a[0].key in KeysOf(a);
    LeastKey(a, b[0].key, caseSensitive);
    LeastKey(b, a[0].key, caseSensitive);
    LexAntisymmetric(Canon(a[0].key, caseSensitive), Canon(b[0].key, caseSensitive));
  }

  lemma KeyedTail(ms: seq<Member>, keys: iset<string>)
    requires KeyedMembers(ms, keys) && ms != []
    ensures KeyedMembers(ms[1..], keys) && forall cs :: Asc(ms, cs) ==> Asc(ms[1..], cs)
  {
    assert forall i :: 0 <= i < |ms[1..]| ==> ms[1..][i] == ms[i + 1];
  }

  /** Two trees compare equal exactly when they stand for the same value. */
  lemma {:induction false} CompareDenotes(a: Json, b: Json, keys: iset<string>, caseSensitive: bool)
    requires Keyed(a, keys) && Keyed(b, keys) && Separate(keys, caseSensitive)
    ensures CompareJson(a, b, caseSensitive) <==> Denote(a) == Denote(b)
    decreases a, 1, 0
  {
    if TypeOf(a) == TypeOf(b) {
      match a {
        case Array(items) => CompareItemsDenote(items, b.items, keys, caseSensitive);
        case Object(ms) =>
          MembersUnder(a);
          SortedObject(ms, keys, caseSensitive);
          SortedObject(b.members, keys, caseSensitive);
          CompareMembersDenote(SortMembers(ms, caseSensitive), SortMembers(b.members, caseSensitive), keys, caseSensitive, a);
        case _ =>
      }
    }
  }

  lemma {:induction false} CompareItemsDenote(a: seq<Json>, b: seq<Json>, keys: iset<string>, caseSensitive: bool)
    requires Keyed(Array(a), keys) && Keyed(Array(b), keys) && Separate(keys, caseSensitive)
    ensures CompareItems(a, b, caseSensitive) <==> Denote(Array(a)) == Denote(Array(b))
    decreases a, 0, 0
  {
    if a != [] && b != [] {
      CompareDenotes(a[0], b[0], keys, caseSensitive);
      CompareItemsDenote(a[1..], b[1..], keys, caseSensitive);
      UnconsElements(a);
      UnconsElements(b);
    } else {
      assert |Denote(Array(a)).elements| == |a| && |Denote(Array(b)).elements| == |b|;
    }
  }

  lemma UnconsElements(a: seq<Json>)
    requires a != []
    ensures |Denote(Array(a)).elements| == |a|
    ensures Denote(Array(a)).elements[0] == Denote(a[0])
    ensures Denote(Array(a)).elements[1..] == Denote(Array(a[1..])).elements
    ensures Denote(Array(a)).elements == [Denote(a[0])] + Denote(Array(a[1..])).elements
  {
    var x, y := Denote(Array(a)).elements, Denote(Array(a[1..])).elements;
    assert |x| == |a| && |y| == |a| - 1;
    assert forall i :: 0 <= i < |y| ==> y[i] == Denote(a[1..][i]) == Denote(a[i + 1]) == x[i + 1];
  }

  lemma {:induction false} CompareMembersDenote(a: seq<Member>, b: seq<Member>, keys: iset<string>, caseSensitive: bool, parent: Json)
    requires KeyedMembers(a, keys) && KeyedMembers(b, keys) && Separate(keys, caseSensitive)
    requires Asc(a, caseSensitive) && Asc(b, caseSensitive) && Under(a, parent)
    ensures CompareMembers(a, b, caseSensitive, parent) <==> Fields(a) == Fields(b)
    decreases parent, 0, |a|
  {
    if a == [] || b == [] {
      assert Fields(a).Keys == KeysOf(a) && Fields(b).Keys == KeysOf(b);
      assert a != [] ==> a[0].key in KeysOf(a);
      assert b != [] ==> b[0].key in KeysOf(b);
    } else {
      assert a[0] in a;
      KeyedTail(a, keys);
      KeyedTail(b, keys);
      UnconsFields(a);
      UnconsFields(b);
      SeparateCompare(a[0].key, b[0].key, keys, caseSensitive);
      CompareDenotes(a[0].value, b[0].value, keys, caseSensitive);
      CompareMembersDenote(a[1..], b[1..], keys, caseSensitive, parent);
      HeadAndTail(a, b, caseSensitive);
    }
  }

  lemma MapHeadAndTail(f: map<string, Value>, g: map<string, Value>, k: string)
    requires k in f && k in g
    ensures f == g <==> f[k] == g[k] && f - {k} == g - {k}
  {
    if f[k] == g[k] && f - {k} == g - {k} {
      forall x ensures (x in f <==> x in g) && (x in f ==> f[x] == g[x]) {
        assert x != k ==> (x in f <==> x in f - {k}) && (x in g <==> x in g - {k});
        assert x != k && x in f ==> (f - {k})[x] == (g - {k})[x];
      }
    }
  }

  lemma FieldsKeys(ms: seq<Member>)
    ensures Fields(ms).Keys == KeysOf(ms)
  {
  }

  lemma HeadAndTail(a: seq<Member>, b: seq<Member>, caseSensitive: bool := true)
    requires Asc(a, caseSensitive) && Asc(b, caseSensitive) && Distinct(a) && Distinct(b) && a != [] && b != []
    ensures Fields(a) == Fields(b) <==>
              && a[0].key == b[0].key
              && Denote(a[0].value) == Denote(b[0].value)
              && Fields(a[1..]) == Fields(b[1..])
  {
    hide Denote;
    hide Compare;
    hide Asc;
    hide Distinct;
    hide KeysOf;
    UnconsFields(a);
    UnconsFields(b);
    FieldsKeys(a);
    FieldsKeys(b);
    if Fields(a) == Fields(b) {
      SameFirstKey(a, b, caseSensitive);
    }
    if a[0].key == b[0].key {
      MapHeadAndTail(Fields(a), Fields(b), a[0].key);
    }
  }
}
