/** JSON trees as the library stores them, and the JSON values they stand for.
    A tree keeps its members in list order; a value keeps them in a map. */
module Trees {
  import opened Keys

  datatype Option<+T> = None | Some(value: T)

  datatype Num = Num(valueint: int, valuedouble: real)

  datatype Json =
    | Invalid | False | True | Null
    | Number(num: Num)
    | Text(text: string)
    | Raw(raw: string)
    | Array(items: seq<Json>)
    | Object(members: seq<Member>)

  datatype Member = Member(key: string, value: Json)

  datatype Value =
    | Atom(leaf: Json)
    | Arr(elements: seq<Value>)
    | Obj(fields: map<string, Value>)

  function KeysOf(ms: seq<Member>): set<string> {
    set m | m in ms :: m.key
  }

  ghost predicate Distinct(ms: seq<Member>) {
    forall i, j :: 0 <= i < j < |ms| ==> ms[i].key != ms[j].key
  }

  /** The position of the first member whose name matches, or the number of members. */
  function IndexOf(ms: seq<Member>, name: string, caseSensitive: bool): (i: nat)
    ensures i <= |ms|
    ensures i < |ms| ==> Matches(name, ms[i].key, caseSensitive)
    ensures forall j :: 0 <= j < i ==> !Matches(name, ms[j].key, caseSensitive)
  {
    if ms == [] then 0
    else if Matches(name, ms[0].key, caseSensitive) then 0
    else
      var rest := IndexOf(ms[1..], name, caseSensitive);
      assert forall j :: 1 <= j < |ms| ==> ms[j] == ms[1..][j - 1];
      1 + rest
  }

  /** The first member of exactly that name. */
  function Find(ms: seq<Member>, name: string): (r: Option<Json>)
    ensures r.Some? <==> name in KeysOf(ms)
    ensures r.Some? ==> Member(name, r.value) in ms
  {
    if ms == [] then None
    else if ms[0].key == name then Some(ms[0].value)
    else
      assert forall m :: m in ms <==> m == ms[0] || m in ms[1..];
      Find(ms[1..], name)
  }

  function RemoveAt<T>(s: seq<T>, i: nat): seq<T>
    requires i < |s|
  {
    s[..i] + s[i + 1..]
  }

  /** The members without the first one of that name. */
  function DropMember(ms: seq<Member>, name: string, caseSensitive: bool): seq<Member> {
    var i := IndexOf(ms, name, caseSensitive);
    if i < |ms| then RemoveAt(ms, i) else ms
  }

  function InsertAt<T>(s: seq<T>, i: nat, x: T): seq<T>
    requires i <= |s|
  {
    s[..i] + [x] + s[i..]
  }

  ghost function Denote(j: Json): Value {
    match j
    case Array(items) => Arr(seq(|items|, i requires 0 <= i < |items| => Denote(items[i])))
    case Object(ms) => Obj(map k | k in KeysOf(ms) :: Denote(Find(ms, k).value))
    case _ => Atom(j)
  }

  ghost function Fields(ms: seq<Member>): map<string, Value> {
    Denote(Object(ms)).fields
  }

  /** With distinct names an object is determined by which members it holds. */
  lemma FindMember(ms: seq<Member>, m: Member)
    requires Distinct(ms) && m in ms
    ensures Find(ms, m.key) == Some(m.value)
  {
    var i :| 0 <= i < |ms| && ms[i] == m;
    var n := Member(m.key, Find(ms, m.key).value);
    var j :| 0 <= j < |ms| && ms[j] == n;
    assert i == j;
  }

  lemma SubsetFields(a: seq<Member>, b: seq<Member>)
    requires Distinct(b)
    requires forall m :: m in a ==> m in b
    ensures forall k :: k in KeysOf(a) ==> k in KeysOf(b) && Fields(a)[k] == Fields(b)[k]
  {
    forall k | k in KeysOf(a)
      ensures k in KeysOf(b) && Fields(a)[k] == Fields(b)[k]
    {
      FindMember(b, Member(k, Find(a, k).value));
    }
  }

  lemma SameMembersSameFields(a: seq<Member>, b: seq<Member>)
    requires Distinct(a) && Distinct(b)
    requires forall m :: m in a <==> m in b
    ensures Fields(a) == Fields(b)
  {
    SubsetFields(a, b);
    SubsetFields(b, a);
  }

  lemma AppendMembers(ms: seq<Member>, m: Member)
    requires Distinct(ms) && m.key !in KeysOf(ms)
    ensures Distinct(ms + [m])
    ensures KeysOf(ms + [m]) == KeysOf(ms) + {m.key}
  {
    var r := ms + [m];
    forall i, j | 0 <= i < j < |r| ensures r[i].key != r[j].key {
      if j == |ms| { assert r[i] in ms; }
    }
  }

  lemma AppendFields(ms: seq<Member>, m: Member)
    requires Distinct(ms) && m.key !in KeysOf(ms)
    ensures Distinct(ms + [m])
    ensures Fields(ms + [m]) == Fields(ms)[m.key := Denote(m.value)]
  {
    AppendMembers(ms, m);
    FindMember(ms + [m], m);
    SubsetFields(ms, ms + [m]);
  }

  lemma RemoveMembers(ms: seq<Member>, i: nat)
    requires Distinct(ms) && i < |ms|
    ensures Distinct(RemoveAt(ms, i))
    ensures forall m :: m in RemoveAt(ms, i) <==> m in ms && m.key != ms[i].key
  {
    var r := RemoveAt(ms, i);
    forall m | m in ms && m.key != ms[i].key ensures m in r {
      var j :| 0 <= j < |ms| && ms[j] == m;
      assert m == if j < i then r[j] else r[j - 1];
    }
  }

  lemma RemoveFields(ms: seq<Member>, i: nat)
    requires Distinct(ms) && i < |ms|
    ensures Distinct(RemoveAt(ms, i))
    ensures Fields(RemoveAt(ms, i)) == Fields(ms) - {ms[i].key}
  {
    RemoveMembers(ms, i);
    SubsetFields(RemoveAt(ms, i), ms);
    assert ms == RemoveAt(ms, i)[..i] + [ms[i]] + RemoveAt(ms, i)[i..];
    assert KeysOf(RemoveAt(ms, i)) == KeysOf(ms) - {ms[i].key};
  }

  lemma UpdateMembers(ms: seq<Member>, i: nat, v: Json)
    requires Distinct(ms) && i < |ms|
    ensures Distinct(ms[i := Member(ms[i].key, v)])
    ensures forall m :: m in ms[i := Member(ms[i].key, v)] && m.key != ms[i].key ==> m in ms
    ensures KeysOf(ms[i := Member(ms[i].key, v)]) == KeysOf(ms)
  {
    var r := ms[i := Member(ms[i].key, v)];
    assert forall j :: 0 <= j < |ms| ==> r[j].key == ms[j].key;
    forall k | k in KeysOf(ms) ensures k in KeysOf(r) {
      var j :| 0 <= j < |ms| && ms[j].key == k;
      assert r[j] in r;
    }
    forall k | k in KeysOf(r) ensures k in KeysOf(ms) {
      var j :| 0 <= j < |r| && r[j].key == k;
      assert ms[j] in ms;
    }
  }

  lemma UpdateFields(ms: seq<Member>, i: nat, v: Json)
    requires Distinct(ms) && i < |ms|
    ensures Distinct(ms[i := Member(ms[i].key, v)])
    ensures Fields(ms[i := Member(ms[i].key, v)]) == Fields(ms)[ms[i].key := Denote(v)]
  {
    hide Distinct;
    var r := ms[i := Member(ms[i].key, v)];
    UpdateMembers(ms, i, v);
    FindMember(r, r[i]);
    forall k | k in KeysOf(r) && k != ms[i].key ensures Find(r, k) == Find(ms, k) {
      FindMember(ms, Member(k, Find(r, k).value));
    }
  }
}
