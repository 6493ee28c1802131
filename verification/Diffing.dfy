/** Generating a JSON Patch from two documents. */
module Diffing {
  import opened Digits
  import opened Keys
  import opened Trees
  import opened Pointers
  import opened Comparing
  import opened Patching
  import opened Unescaping

  function Compose(op: string, path: string, value: Option<Json>): Json {
    Object([Member("op", Text(op)), Member("path", Text(path))]
           + if value.Some? then [Member("value", value.value)] else [])
  }

  /** The path of a child: the parent's path, a slash and the key as the encoder
      leaves it in memory where the text in front was just ended with a NUL. */
  function SubPath(path: string, suffix: string, stale: Memory): string {
    var at := |path| + 1;
    path + "/" + UpToNul(Encode(suffix, Begun(stale, at), at))
  }

  lemma SubPathPlain(path: string, suffix: string, stale: Memory)
    requires Plain(suffix)
    ensures SubPath(path, suffix, stale) == path + "/" + suffix
  {
    EncodePlain(suffix, Begun(stale, |path| + 1), |path| + 1);
  }

  /** The operations that turn `from` into `to`, both at `path`. */
  function Diff(path: string, from: Json, to: Json, caseSensitive: bool, stale: Memory): seq<Json>
    decreases from, 1, 0
  {
    if TypeOf(from) != TypeOf(to) then [Compose("replace", path, Some(to))]
    else match from
      case Number(n) => if n != to.num then [Compose("replace", path, Some(to))] else []
      case Text(t) => if t != to.text then [Compose("replace", path, Some(to))] else []
      case Array(items) => DiffItems(path, items, to.items, 0, caseSensitive, stale)
      case Object(ms) =>
        MembersUnder(from);
        DiffMembers(path, SortMembers(ms, caseSensitive), SortMembers(to.members, caseSensitive), caseSensitive, stale, from)
      case _ => []
  }

  function DiffItems(path: string, fs: seq<Json>, ts: seq<Json>, index: nat, caseSensitive: bool, stale: Memory): seq<Json>
    decreases fs, 0, |ts|
  {
    if fs != [] && ts != [] then
      Diff(path + "/" + DecimalText(index), fs[0], ts[0], caseSensitive, stale)
      + DiffItems(path, fs[1..], ts[1..], index + 1, caseSensitive, stale)
    else if fs != [] then
      [Compose("remove", SubPath(path, DecimalText(index), stale), None)]
      + DiffItems(path, fs[1..], ts, index, caseSensitive, stale)
    else if ts != [] then
      [Compose("add", SubPath(path, "-", stale), Some(ts[0]))]
      + DiffItems(path, fs, ts[1..], index + 1, caseSensitive, stale)
    else []
  }

  function DiffMembers(path: string, fs: seq<Member>, ts: seq<Member>, caseSensitive: bool, stale: Memory,
                       ghost parent: Json): seq<Json>
    requires Under(fs, parent)
    decreases parent, 0, |fs| + |ts|
  {
    if fs == [] && ts == [] then []
    else
      var diff := if fs == [] then 1 else if ts == [] then -1 else Compare(fs[0].key, ts[0].key, caseSensitive);
      if diff == 0 then
        Diff(SubPath(path, fs[0].key, stale), fs[0].value, ts[0].value, caseSensitive, stale)
        + DiffMembers(path, fs[1..], ts[1..], caseSensitive, stale, parent)
      else if diff < 0 then
        [Compose("remove", SubPath(path, fs[0].key, stale), None)]
        + DiffMembers(path, fs[1..], ts, caseSensitive, stale, parent)
      else
        [Compose("add", SubPath(path, ts[0].key, stale), Some(ts[0].value))]
        + DiffMembers(path, fs, ts[1..], caseSensitive, stale, parent)
  }

  // ----- documents the generator can handle

  /** Which keys may occur, and whether their case matters. Ignoring it, no two of them
      differ in case only. */
  datatype Mode = Mode(keys: iset<string>, cs: bool)
  type Reading = g: Mode | Separate(g.keys, g.cs) ghost witness Mode(iset{}, true)

  /** The keys of two objects: all of them, those that generated operations name, and
      those that operations take out of the first object. */
  datatype Names = Names(all: set<string>, addressed: set<string>, taken: set<string>)

  /** A path can carry the keys it names, and no other key differs from one that is
      taken out only in case. */
  ghost predicate Usable(n: Names) {
    && (forall a :: a in n.addressed ==> Plain(a))
    && (forall a, b :: a in n.taken && b in n.all && Fold(a) == Fold(b) ==> a == b)
  }

  ghost predicate SameKind(a: Value, b: Value) {
    (a.Arr? && b.Arr?) || (a.Obj? && b.Obj?)
  }

  ghost predicate Unchanged(f: map<string, Value>, t: map<string, Value>, k: string) {
    k in f && k in t && f[k] == t[k]
  }

  /** Removed, or replaced as a whole. */
  ghost predicate TakenOut(f: map<string, Value>, t: map<string, Value>, k: string) {
    k in f && !Unchanged(f, t, k) && !(k in t && SameKind(f[k], t[k]))
  }

  ghost function NamesOf(f: map<string, Value>, t: map<string, Value>): Names {
    var all := f.Keys + t.Keys;
    Names(all, set k | k in all && !Unchanged(f, t, k), set k | k in all && TakenOut(f, t, k))
  }

  /** What the generator needs of two documents that differ: at every place where
      both hold an object, usable names; where both hold an array, a length size_t
      can index; and no two different raw items facing each other. */
  ghost predicate Patchable(from: Json, to: Json)
    decreases from, 1
  {
    Denote(from) == Denote(to) || Handled(from, to)
  }

  ghost predicate Handled(from: Json, to: Json)
    decreases from, 0
  {
    match from
    case Raw(t) => !to.Raw?
    case Array(items) =>
      to.Array? ==>
        && |items| <= SIZE_LIMIT && |to.items| <= SIZE_LIMIT
        && forall i :: 0 <= i < |items| && i < |to.items| ==> Patchable(items[i], to.items[i])
    case Object(ms) =>
      to.Object? ==>
        && Usable(NamesOf(Fields(ms), Fields(to.members)))
        && forall i, k :: 0 <= i < |ms| && 0 <= k < |to.members| && ms[i].key == to.members[k].key ==>
             Patchable(ms[i].value, to.members[k].value)
    case _ => true
  }

  // ----- documents of the same value need no operations

  /** Two documents of the same value give no operations, whatever their keys. */
  lemma {:induction false} DiffOfEqual(path: string, from: Json, to: Json, stale: Memory, g: Reading)
    requires Shaped(from, g.keys) && Shaped(to, g.keys) && Denote(from) == Denote(to)
    ensures Diff(path, from, to, g.cs, stale) == []
    decreases from, 2, 0
  {
    hide DiffItems; hide DiffMembers; hide SortMembers; hide Compose;
    match from {
      case Array(items) =>
        DenoteArray(items, to.items);
        EqualItems(path, items, to.items, 0, stale, g);
      case Object(ms) =>
        SortedShaped(ms, g);
        SortedShaped(to.members, g);
        MembersUnder(from);
        EqualMembers(path, SortMembers(ms, g.cs), SortMembers(to.members, g.cs), stale, from, g);
      case _ =>
    }
  }

  lemma {:induction false} EqualItems(path: string, fs: seq<Json>, ts: seq<Json>, index: nat, stale: Memory, g: Reading)
    requires |fs| == |ts| && Shaped(Array(fs), g.keys) && Shaped(Array(ts), g.keys)
    requires forall i :: 0 <= i < |fs| ==> Denote(fs[i]) == Denote(ts[i])
    ensures DiffItems(path, fs, ts, index, g.cs, stale) == []
    decreases fs, 1, 0
  {
    hide Diff; hide Denote; hide DecimalText;
    if fs != [] {
      DiffOfEqual(path + "/" + DecimalText(index), fs[0], ts[0], stale, g);
      EqualItems(path, fs[1..], ts[1..], index + 1, stale, g);
    }
  }

  lemma {:induction false} EqualMembers(path: string, fs: seq<Member>, ts: seq<Member>, stale: Memory, parent: Json, g: Reading)
    requires Shaped(Object(fs), g.keys) && Shaped(Object(ts), g.keys) && Asc(fs, g.cs) && Asc(ts, g.cs) && Fields(fs) == Fields(ts)
    requires Under(fs, parent)
    ensures DiffMembers(path, fs, ts, g.cs, stale, parent) == []
    decreases parent, 1, |fs|
  {
    hide Diff; hide Denote; hide SubPath; hide Fields; hide Compare; hide KeysOf; hide Shaped; hide Asc;
    FieldsKeys(fs);
    FieldsKeys(ts);
    NoMembers(fs);
    NoMembers(ts);
    if fs != [] && ts != [] {
      TailKeyed(fs, g);
      TailKeyed(ts, g);
      KeyedDistinct(fs, g);
      KeyedDistinct(ts, g);
      HeadAndTail(fs, ts, g.cs);
      SeparateCompare(fs[0].key, ts[0].key, g.keys, g.cs);
      DiffOfEqual(SubPath(path, fs[0].key, stale), fs[0].value, ts[0].value, stale, g);
      EqualMembers(path, fs[1..], ts[1..], stale, parent, g);
    }
  }

  lemma NoMembers(ms: seq<Member>)
    ensures KeysOf(ms) == {} <==> ms == []
  {
    if ms != [] { assert ms[0] in ms && ms[0].key in KeysOf(ms); }
  }

  lemma KeyedDistinct(ms: seq<Member>, g: Reading)
    requires Shaped(Object(ms), g.keys)
    ensures Distinct(ms)
  {
  }

  // ----- single operations at a known place

  lemma IndexIs(ms: seq<Member>, name: string, i: nat, cs: bool)
    requires i <= |ms| && (i < |ms| ==> ms[i].key == name)
    requires forall j :: 0 <= j < i ==> !Matches(name, ms[j].key, cs)
    ensures IndexOf(ms, name, cs) == i
  {
    hide Canon;
    var k := IndexOf(ms, name, cs);
    assert i < |ms| ==> Matches(name, ms[i].key, cs);
  }

  /** The names the interpreter looks for are told apart in either mode. */
  lemma PatchKeys(cs: bool)
    ensures !Matches("path", "op", cs) && !Matches("value", "op", cs) && !Matches("value", "path", cs)
    ensures !Matches("from", "op", cs) && !Matches("from", "path", cs) && !Matches("from", "value", cs)
  {
    assert |Canon("op", cs)| == 2 && |Canon("path", cs)| == 4 && |Canon("value", cs)| == 5 && |Canon("from", cs)| == 4;
    assert Canon("path", cs)[0] == 'p' && Canon("from", cs)[0] == 'f';
  }

  lemma ComposeApplies(doc: Json, op: string, path: string, value: Option<Json>, cs: bool)
    ensures ApplyPatch(doc, Compose(op, path, value), cs) == ApplyOperation(doc, op, path, value, None, cs)
  {
    hide ApplyOperation; hide IndexOf; hide Matches;
    var ms := Compose(op, path, value).members;
    PatchKeys(cs);
    assert ms[0].key == "op" && ms[1].key == "path" && (|ms| > 2 ==> ms[2].key == "value");
    IndexIs(ms, "op", 0, cs);
    IndexIs(ms, "path", 1, cs);
    IndexIs(ms, "value", 2, cs);
    IndexIs(ms, "from", |ms|, cs);
  }

  lemma LastSlashIs(path: string, i: nat)
    requires i < |path| && path[i] == '/' && forall k :: i < k < |path| ==> path[k] != '/'
    ensures LastSlash(path) == i
  {
    hide LastSlash;
    var k := LastSlash(path);
    assert k >= 0 ==> path[k] == '/';
  }

  /** How a path made by the generator splits into parent and child. */
  lemma SplitSubPath(p: string, t: string)
    requires Plain(t)
    ensures LastSlash(p + "/" + t) == |p|
    ensures (p + "/" + t)[..|p|] == p
    ensures Unescape((p + "/" + t)[|p| + 1..], 0, 0) == t
    ensures p + "/" + t != []
  {
    hide LastSlash; hide Unescape;
    var s := p + "/" + t;
    assert s[|p| + 1..] == t;
    forall k | |p| < k < |s| ensures s[k] != '/' {
      assert s[k] == t[k - |p| - 1];
    }
    LastSlashIs(s, |p|);
    UnescapePlain(t);
  }

  lemma DetachAt(doc: Json, p: string, t: string, parent: Json, cs: bool)
    requires StartsPointer(p) && Plain(t) && Walk(doc, Tokens(p), cs) == Some(parent)
    ensures Detach(doc, p + "/" + t, cs) ==
            var d := DetachChild(parent, t);
            if d == None then None else Some(Detached(d.value.item, Put(doc, Tokens(p), d.value.rest, cs)))
  {
    hide Tokens; hide Walk; hide Put; hide DetachChild; hide Unescape; hide Plain; hide LastSlash;
    SplitSubPath(p, t);
  }

  lemma AddAtPath(doc: Json, p: string, t: string, parent: Json, value: Json, cs: bool)
    requires StartsPointer(p) && Plain(t) && Walk(doc, Tokens(p), cs) == Some(parent)
    ensures AddAt(doc, p + "/" + t, value, cs) ==
            var r := AddChild(parent, t, value, cs);
            if r.status != 0 then Outcome(r.status, doc) else Outcome(0, Put(doc, Tokens(p), r.doc, cs))
  {
    hide Tokens; hide Walk; hide Put; hide AddChild; hide Unescape; hide Plain; hide LastSlash;
    SplitSubPath(p, t);
  }

  lemma ExactIndex(ms: seq<Member>, k: string)
    ensures IndexOf(ms, k, true) < |ms| <==> k in KeysOf(ms)
    ensures IndexOf(ms, k, true) < |ms| ==> ms[IndexOf(ms, k, true)].key == k
  {
    var j := IndexOf(ms, k, true);
    assert j < |ms| ==> ms[j].key == k;
  }

  lemma UsableIndex(ms: seq<Member>, k: string, n: Names)
    requires KeysOf(ms) <= n.all && k in n.taken && Usable(n)
    ensures IndexOf(ms, k, false) == IndexOf(ms, k, true)
  {
    var i, j := IndexOf(ms, k, false), IndexOf(ms, k, true);
    assert i < |ms| ==> ms[i].key in KeysOf(ms) && ms[i].key == k;
    assert j < |ms| ==> ms[j].key == k;
  }

  /** Removing a member by name. */
  lemma DetachMember(ms: seq<Member>, k: string, n: Names)
    requires Distinct(ms) && KeysOf(ms) <= n.all && Usable(n) && k in KeysOf(ms) && k in n.taken
    ensures var d := DetachChild(Object(ms), k);
            && d.Some? && d.value.rest.Object?
            && Distinct(d.value.rest.members)
            && Fields(d.value.rest.members) == Fields(ms) - {k}
            && forall m :: m in d.value.rest.members ==> m in ms
  {
    hide IndexOf; hide Fields; hide Usable; hide Distinct; hide KeysOf;
    UsableIndex(ms, k, n);
    ExactIndex(ms, k);
    RemoveFields(ms, IndexOf(ms, k, true));
  }

  /** The keys of an object and one more, all of them allowed. */
  ghost predicate Known(ms: seq<Member>, k: string, g: Reading) {
    Distinct(ms) && k in g.keys && forall m :: m in ms ==> m.key in g.keys
  }

  lemma KnownIndex(ms: seq<Member>, k: string, g: Reading)
    requires Known(ms, k, g)
    ensures IndexOf(ms, k, g.cs) == IndexOf(ms, k, true)
  {
    var i, j := IndexOf(ms, k, g.cs), IndexOf(ms, k, true);
    assert i < |ms| ==> ms[i] in ms && ms[i].key == k;
    assert j < |ms| ==> ms[j] in ms && ms[j].key == k;
  }

  lemma DroppedMember(ms: seq<Member>, k: string, g: Reading)
    requires Known(ms, k, g)
    ensures var rest := DropMember(ms, k, g.cs);
            && Distinct(rest) && Fields(rest) == Fields(ms) - {k} && k !in KeysOf(rest)
            && forall m :: m in rest ==> m in ms
  {
    hide IndexOf; hide Denote;
    var i := IndexOf(ms, k, true);
    KnownIndex(ms, k, g);
    ExactIndex(ms, k);
    FieldsKeys(ms);
    if i < |ms| {
      RemoveFields(ms, i);
      RemoveMembers(ms, i);
    } else {
      assert Fields(ms) - {k} == Fields(ms);
    }
  }

  /** Adding a member by name, in place of one of that name if there is one. */
  lemma AddMember(ms: seq<Member>, k: string, v: Json, g: Reading)
    requires Known(ms, k, g)
    ensures var r := AddChild(Object(ms), k, v, g.cs);
            && r.status == 0 && r.doc.Object?
            && Distinct(r.doc.members)
            && Fields(r.doc.members) == Fields(ms)[k := Denote(v)]
            && forall m :: m in r.doc.members ==> m in ms || m == Member(k, v)
  {
    hide DropMember; hide Fields; hide Distinct; hide KeysOf;
    var rest := DropMember(ms, k, g.cs);
    DroppedMember(ms, k, g);
    AppendFields(rest, Member(k, v));
    assert (Fields(ms) - {k})[k := Denote(v)] == Fields(ms)[k := Denote(v)];
  }

  ghost predicate At(doc: Json, p: string, x: Json, cs: bool) {
    StartsPointer(p) && Walk(doc, Tokens(p), cs) == Some(x)
  }

  /** The document with what stands at p replaced. */
  ghost function With(doc: Json, p: string, x: Json, cs: bool): (r: Json)
    requires StartsPointer(p) && Walk(doc, Tokens(p), cs).Some?
    ensures At(r, p, x, cs)
  {
    GetAfterPut(doc, Tokens(p), x, cs);
    Put(doc, Tokens(p), x, cs)
  }

  lemma WithWith(doc: Json, p: string, x: Json, y: Json, cs: bool)
    requires StartsPointer(p) && Walk(doc, Tokens(p), cs).Some?
    ensures With(With(doc, p, x, cs), p, y, cs) == With(doc, p, y, cs)
  {
    PutAfterPut(doc, Tokens(p), x, y, cs);
  }

  lemma {:induction false} PutSame(doc: Json, path: Path, caseSensitive: bool)
    requires Walk(doc, path, caseSensitive).Some?
    ensures Put(doc, path, Walk(doc, path, caseSensitive).value, caseSensitive) == doc
    decreases |path|
  {
    hide Step;
    if path != [] {
      var i := Step(doc, path[0], caseSensitive).value;
      PutSame(Children(doc)[i], path[1..], caseSensitive);
    }
  }

  /** A child reached by one more token. */
  lemma AtChild(doc: Json, p: string, x: Json, t: string, i: nat, cs: bool)
    requires At(doc, p, x, cs) && '/' !in t && Step(x, t, cs) == Some(i)
    ensures At(doc, p + "/" + t, Children(x)[i], cs)
    ensures forall y :: With(doc, p + "/" + t, y, cs) == With(doc, p, SetChild(x, i, y), cs)
  {
    hide Step; hide SetChild; hide Children; hide Tokens;
    var path := Tokens(p);
    TokensSnoc(p, t);
    WalkConcat(doc, path, [t], cs);
    WalkOne(x, t, i, cs);
    forall y ensures With(doc, p + "/" + t, y, cs) == With(doc, p, SetChild(x, i, y), cs) {
      PutConcat(doc, path, [t], y, cs);
      PutOne(x, t, i, y, cs);
    }
  }

  lemma WalkOne(x: Json, t: string, i: nat, cs: bool)
    requires '/' !in t && Step(x, t, cs) == Some(i)
    ensures Walk(x, [t], cs) == Some(Children(x)[i])
  {
    hide Step; hide Children;
    var path: Path := [t];
    assert path[1..] == [];
  }

  lemma PutOne(x: Json, t: string, i: nat, y: Json, cs: bool)
    requires '/' !in t && Step(x, t, cs) == Some(i) && Walk(x, [t], cs).Some?
    ensures Put(x, [t], y, cs) == SetChild(x, i, y)
  {
    hide Step; hide Children; hide SetChild;
    var path: Path := [t];
    assert path[1..] == [];
  }

  lemma StillShaped(ms: seq<Member>, ys: seq<Member>, v: Json, g: Reading)
    requires Shaped(Object(ms), g.keys) && Shaped(v, g.keys) && Distinct(ys)
    requires forall m :: m in ys ==> m in ms || (m.value == v && m.key in g.keys)
    ensures Shaped(Object(ys), g.keys)
  {
    forall i | 0 <= i < |ys| ensures ys[i].key in g.keys && Shaped(ys[i].value, g.keys) {
      if ys[i] in ms {
        var j :| 0 <= j < |ms| && ms[j] == ys[i];
      }
    }
  }

  lemma ShapedKnown(ms: seq<Member>, k: string, g: Reading)
    requires Shaped(Object(ms), g.keys) && k in g.keys
    ensures Known(ms, k, g)
  {
    forall m | m in ms ensures m.key in g.keys {
      var j :| 0 <= j < |ms| && ms[j] == m;
    }
  }

  // ----- generated operations on an object

  lemma RemoveStep(doc: Json, p: string, ms: seq<Member>, k: string, n: Names, g: Reading) returns (ys: seq<Member>)
    requires At(doc, p, Object(ms), g.cs) && Shaped(Object(ms), g.keys) && KeysOf(ms) <= n.all && Usable(n)
    requires k in KeysOf(ms) && Plain(k) && k in n.taken
    ensures ApplyPatch(doc, Compose("remove", p + "/" + k, None), g.cs) == Outcome(0, With(doc, p, Object(ys), g.cs))
    ensures Shaped(Object(ys), g.keys) && Fields(ys) == Fields(ms) - {k}
  {
    hide ApplyPatch; hide DetachChild; hide Detach; hide Fields; hide Tokens; hide Walk;
    ComposeApplies(doc, "remove", p + "/" + k, None, g.cs);
    DetachAt(doc, p, k, Object(ms), g.cs);
    DetachMember(ms, k, n);
    ys := DetachChild(Object(ms), k).value.rest.members;
    StillShaped(ms, ys, Null, g);
  }

  lemma AddStep(doc: Json, p: string, ms: seq<Member>, k: string, v: Json, g: Reading) returns (ys: seq<Member>)
    requires At(doc, p, Object(ms), g.cs) && Shaped(Object(ms), g.keys) && Shaped(v, g.keys) && Plain(k) && k in g.keys
    ensures AddAt(doc, p + "/" + k, v, g.cs) == Outcome(0, With(doc, p, Object(ys), g.cs))
    ensures ApplyPatch(doc, Compose("add", p + "/" + k, Some(v)), g.cs) == Outcome(0, With(doc, p, Object(ys), g.cs))
    ensures Shaped(Object(ys), g.keys) && Fields(ys) == Fields(ms)[k := Denote(v)]
  {
    hide ApplyPatch; hide AddChild; hide AddAt; hide Fields; hide Tokens; hide Walk;
    ComposeApplies(doc, "add", p + "/" + k, Some(v), g.cs);
    AddAtPath(doc, p, k, Object(ms), v, g.cs);
    ShapedKnown(ms, k, g);
    AddMember(ms, k, v, g);
    ys := AddChild(Object(ms), k, v, g.cs).doc.members;
    StillShaped(ms, ys, v, g);
    assert p + "/" + k != [];
  }

  lemma ReplaceStep(doc: Json, p: string, ms: seq<Member>, k: string, v: Json, n: Names, g: Reading) returns (ys: seq<Member>)
    requires At(doc, p, Object(ms), g.cs) && Shaped(Object(ms), g.keys) && KeysOf(ms) <= n.all && Usable(n)
    requires k in KeysOf(ms) && Plain(k) && k in n.taken && Shaped(v, g.keys) && k in g.keys
    ensures ApplyPatch(doc, Compose("replace", p + "/" + k, Some(v)), g.cs) == Outcome(0, With(doc, p, Object(ys), g.cs))
    ensures Shaped(Object(ys), g.keys) && Fields(ys) == Fields(ms)[k := Denote(v)]
  {
    hide ApplyPatch; hide DetachChild; hide Detach; hide AddAt; hide Tokens; hide Walk; hide Denote;
    ComposeApplies(doc, "replace", p + "/" + k, Some(v), g.cs);
    DetachAt(doc, p, k, Object(ms), g.cs);
    DetachMember(ms, k, n);
    var rest := DetachChild(Object(ms), k).value.rest.members;
    StillShaped(ms, rest, Null, g);
    ys := AddStep(With(doc, p, Object(rest), g.cs), p, rest, k, v, g);
    WithWith(doc, p, Object(rest), Object(ys), g.cs);
    assert (Fields(ms) - {k})[k := Denote(v)] == Fields(ms)[k := Denote(v)];
  }

  /** The two documents agree there, or hold containers of the same kind, or the
      generator emits a replacement. */
  lemma DiffCases(path: string, from: Json, to: Json, stale: Memory, cs: bool)
    requires Patchable(from, to)
    ensures (from.Array? && to.Array?) || (from.Object? && to.Object?)
         || (Diff(path, from, to, cs, stale) == [] && Denote(from) == Denote(to))
         || Diff(path, from, to, cs, stale) == [Compose("replace", path, Some(to))]
  {
    hide Compose; hide SortMembers; hide DiffMembers; hide DiffItems;
  }

  lemma MemberStepIndex(ms: seq<Member>, k: string, g: Reading) returns (i: nat)
    requires Plain(k) && k in KeysOf(ms) && Known(ms, k, g)
    ensures i < |ms| && ms[i].key == k && Step(Object(ms), k, g.cs) == Some(i)
  {
    hide TokenMatches; hide Canon;
    i := TokenIndex(ms, k, g.cs);
    var m :| m in ms && m.key == k;
    var j :| 0 <= j < |ms| && ms[j] == m;
    PlainTokenMatches(ms[j].key, k, g.cs);
    if i < |ms| {
      PlainTokenMatches(ms[i].key, k, g.cs);
      KnownMatches(ms, ms[i].key, k, g);
    }
  }

  lemma KnownMatches(ms: seq<Member>, a: string, k: string, g: Reading)
    requires Known(ms, k, g) && a in KeysOf(ms) && Matches(a, k, g.cs)
    ensures a == k
  {
  }

  ghost predicate PairsPatchable(fs: seq<Member>, ts: seq<Member>) {
    forall i, k :: 0 <= i < |fs| && 0 <= k < |ts| && fs[i].key == ts[k].key ==> Patchable(fs[i].value, ts[k].value)
  }

  ghost predicate Holds(ms: seq<Member>, fs: seq<Member>) {
    forall k :: k in KeysOf(fs) ==> k in Fields(ms) && Fields(ms)[k] == Fields(fs)[k]
  }

  lemma SortedShaped(ms: seq<Member>, g: Reading)
    requires Shaped(Object(ms), g.keys)
    ensures var r := SortMembers(ms, g.cs);
            Shaped(Object(r), g.keys) && Asc(r, g.cs) && Fields(r) == Fields(ms) && KeysOf(r) == KeysOf(ms)
  {
    hide Denote; hide Separate;
    ShapedKeys(ms, g);
    SortedApart(ms, g.keys, g.cs);
    StillShaped(ms, SortMembers(ms, g.cs), Null, g);
  }

  lemma ShapedKeys(ms: seq<Member>, g: Reading)
    requires Shaped(Object(ms), g.keys)
    ensures Distinct(ms) && forall m :: m in ms ==> m.key in g.keys
  {
    forall m | m in ms ensures m.key in g.keys {
      var j :| 0 <= j < |ms| && ms[j] == m;
    }
  }

  lemma SortedPairs(a: seq<Member>, b: seq<Member>, fs: seq<Member>, ts: seq<Member>)
    requires PairsPatchable(a, b)
    requires (forall m :: m in fs ==> m in a) && (forall m :: m in ts ==> m in b)
    ensures PairsPatchable(fs, ts)
  {
    forall i, k | 0 <= i < |fs| && 0 <= k < |ts| && fs[i].key == ts[k].key
      ensures Patchable(fs[i].value, ts[k].value)
    {
      assert fs[i] in a && ts[k] in b;
      var p :| 0 <= p < |a| && a[p] == fs[i];
      var q :| 0 <= q < |b| && b[q] == ts[k];
    }
  }

  lemma ApplyNone(doc: Json, cs: bool)
    ensures ApplyAll(doc, [], cs) == Outcome(0, doc)
  {
  }

  lemma ApplyOne(doc: Json, patch: Json, cs: bool)
    ensures ApplyAll(doc, [patch], cs) ==
            var r := ApplyPatch(doc, patch, cs); if r.status != 0 then r else Outcome(0, r.doc)
  {
    hide ApplyPatch;
    assert [patch][1..] == [];
  }

  /** Operations that succeed on what stands at p, followed by more of them. */
  lemma ApplyThen(doc: Json, p: string, a: seq<Json>, b: seq<Json>, x: Json, y: Json, cs: bool)
    requires StartsPointer(p) && Walk(doc, Tokens(p), cs).Some?
    requires ApplyAll(doc, a, cs) == Outcome(0, With(doc, p, x, cs))
    requires ApplyAll(With(doc, p, x, cs), b, cs) == Outcome(0, With(With(doc, p, x, cs), p, y, cs))
    ensures ApplyAll(doc, a + b, cs) == Outcome(0, With(doc, p, y, cs))
  {
    hide ApplyAll; hide Walk; hide Tokens; hide With;
    ApplyAllConcat(doc, a, b, cs);
    WithWith(doc, p, x, y, cs);
  }

  /** Running the operations generated for two containers of the same kind, on
      any document that holds the old value at that place. */
  lemma {:induction false} DiffApplies(doc: Json, p: string, x: Json, from: Json, to: Json, stale: Memory, g: Reading) returns (y: Json)
    requires At(doc, p, x, g.cs) && Denote(x) == Denote(from) && Patchable(from, to)
    requires Shaped(x, g.keys) && Shaped(from, g.keys) && Shaped(to, g.keys)
    requires (from.Array? && to.Array?) || (from.Object? && to.Object?)
    ensures ApplyAll(doc, Diff(p, from, to, g.cs, stale), g.cs) == Outcome(0, With(doc, p, y, g.cs))
    ensures Shaped(y, g.keys) && Denote(y) == Denote(to)
    decreases from, 3, 0
  {
    hide ApplyAll; hide Diff; hide Denote; hide At; hide With; hide Handled; hide Shaped;
    if Denote(from) == Denote(to) {
      y := x;
      DiffOfEqual(p, from, to, stale, g);
      ApplyNone(doc, g.cs);
      WithSame(doc, p, x, g.cs);
    } else if from.Array? {
      y := ArrayApplies(doc, p, x, from, to, stale, g);
    } else {
      y := ObjectApplies(doc, p, x, from, to, stale, g);
    }
  }

  lemma DenoteArray(a: seq<Json>, b: seq<Json>)
    ensures Denote(Array(a)) == Denote(Array(b)) <==>
              |a| == |b| && forall i :: 0 <= i < |a| ==> Denote(a[i]) == Denote(b[i])
  {
    var x, y := Denote(Array(a)).elements, Denote(Array(b)).elements;
    assert |x| == |a| && |y| == |b|;
    assert forall i :: 0 <= i < |a| ==> x[i] == Denote(a[i]);
    assert forall i :: 0 <= i < |b| ==> y[i] == Denote(b[i]);
    assert x == y <==> Denote(Array(a)) == Denote(Array(b));
  }

  lemma DenoteKind(x: Json, y: Json)
    requires Denote(x) == Denote(y)
    ensures (x.Array? <==> y.Array?) && (x.Object? <==> y.Object?)
  {
  }

  lemma {:induction false} ArrayApplies(doc: Json, p: string, x: Json, from: Json, to: Json, stale: Memory, g: Reading) returns (y: Json)
    requires At(doc, p, x, g.cs) && Denote(x) == Denote(from) && Handled(from, to)
    requires Shaped(x, g.keys) && Shaped(from, g.keys) && Shaped(to, g.keys) && from.Array? && to.Array?
    ensures ApplyAll(doc, Diff(p, from, to, g.cs, stale), g.cs) == Outcome(0, With(doc, p, y, g.cs))
    ensures Shaped(y, g.keys) && Denote(y) == Denote(to)
    decreases from, 2, 0
  {
    hide ApplyAll; hide DiffItems; hide Denote; hide At; hide With; hide Shaped;
    DenoteKind(x, from);
    DenoteArray(x.items, from.items);
    var ys := ItemsApply(doc, p, x.items, from.items, to.items, 0, stale, g);
    y := Array(ys);
    DenoteArray(ys, to.items);
  }

  lemma DiffObject(p: string, from: Json, to: Json, stale: Memory, cs: bool)
    requires from.Object? && to.Object?
    ensures Under(SortMembers(from.members, cs), from)
    ensures Diff(p, from, to, cs, stale) ==
            DiffMembers(p, SortMembers(from.members, cs), SortMembers(to.members, cs), cs, stale, from)
  {
    hide DiffMembers; hide SortMembers;
    MembersUnder(from);
  }

  lemma {:induction false} ObjectApplies(doc: Json, p: string, x: Json, from: Json, to: Json, stale: Memory, g: Reading) returns (y: Json)
    requires At(doc, p, x, g.cs) && Denote(x) == Denote(from) && Handled(from, to)
    requires Shaped(x, g.keys) && Shaped(from, g.keys) && Shaped(to, g.keys) && from.Object? && to.Object?
    ensures ApplyAll(doc, Diff(p, from, to, g.cs, stale), g.cs) == Outcome(0, With(doc, p, y, g.cs))
    ensures Shaped(y, g.keys) && Denote(y) == Denote(to)
    decreases from, 2, 0
  {
    hide ApplyAll; hide DiffMembers; hide Diff; hide Denote; hide At; hide With; hide Shaped; hide SortMembers;
    hide Usable; hide KeysOf; hide Asc; hide NamesOf; hide Named;
    var n := NamesOf(Fields(from.members), Fields(to.members));
    var fs, ts := SortMembers(from.members, g.cs), SortMembers(to.members, g.cs);
    DenoteKind(x, from);
    SortedShaped(from.members, g);
    SortedShaped(to.members, g);
    DiffObject(p, from, to, stale, g.cs);
    SortedPairs(from.members, to.members, fs, ts);
    FieldsKeys(fs);
    FieldsKeys(ts);
    FieldsKeys(x.members);
    NamesNamed(Fields(fs), Fields(ts));
    var ys := MembersApply(doc, p, x.members, fs, ts, n, stale, from, g);
    y := Object(ys);
    assert (Fields(x.members) - KeysOf(fs)) + Fields(ts) == Fields(ts);
    DenoteFields(ys);
    DenoteFields(to.members);
  }

  lemma DenoteFields(ms: seq<Member>)
    ensures Denote(Object(ms)) == Obj(Fields(ms))
  {
  }

  /** The operations generated for one member that both objects have. */
  lemma {:induction false} MemberApplies(doc: Json, p: string, ms: seq<Member>, f: Member, to: Json, n: Names, stale: Memory, g: Reading)
    returns (ys: seq<Member>)
    requires At(doc, p, Object(ms), g.cs) && Shaped(Object(ms), g.keys) && KeysOf(ms) <= n.all && Usable(n)
    requires f.key in KeysOf(ms) && Fields(ms)[f.key] == Denote(f.value)
    requires Shaped(f.value, g.keys) && Shaped(to, g.keys) && Patchable(f.value, to) && Denote(f.value) != Denote(to)
    requires Plain(f.key) && (SameKind(Denote(f.value), Denote(to)) || f.key in n.taken)
    ensures ApplyAll(doc, Diff(p + "/" + f.key, f.value, to, g.cs, stale), g.cs) == Outcome(0, With(doc, p, Object(ys), g.cs))
    ensures Shaped(Object(ys), g.keys) && Fields(ys) == Fields(ms)[f.key := Denote(to)]
    decreases f.value, 4, 0
  {
    hide ApplyAll; hide Diff; hide At; hide Shaped; hide Patchable; hide ApplyPatch; hide Compose; hide Denote; hide Usable;
    var path := p + "/" + f.key;
    DiffCases(path, f.value, to, stale, g.cs);
    if (f.value.Array? && to.Array?) || (f.value.Object? && to.Object?) {
      ys := InnerMemberApplies(doc, p, ms, f, to, stale, g);
    } else {
      DenoteSameKind(f.value, to);
      ShapedKeys(ms, g);
      ys := ReplaceStep(doc, p, ms, f.key, to, n, g);
      ApplyOne(doc, Compose("replace", path, Some(to)), g.cs);
    }
  }

  lemma WithSame(doc: Json, p: string, x: Json, cs: bool)
    requires At(doc, p, x, cs)
    ensures With(doc, p, x, cs) == doc
  {
    PutSame(doc, Tokens(p), cs);
  }

  lemma DenoteSameKind(x: Json, y: Json)
    ensures SameKind(Denote(x), Denote(y)) <==> (x.Array? && y.Array?) || (x.Object? && y.Object?)
  {
  }

  lemma ShapedChild(ms: seq<Member>, i: nat, g: Reading)
    requires Shaped(Object(ms), g.keys) && i < |ms|
    ensures Distinct(ms) && Shaped(ms[i].value, g.keys)
    ensures Fields(ms)[ms[i].key] == Denote(ms[i].value)
  {
    FindMember(ms, ms[i]);
  }

  lemma {:induction false} InnerMemberApplies(doc: Json, p: string, ms: seq<Member>, f: Member, to: Json, stale: Memory, g: Reading)
    returns (ys: seq<Member>)
    requires At(doc, p, Object(ms), g.cs) && Shaped(Object(ms), g.keys) && Plain(f.key)
    requires f.key in KeysOf(ms) && Fields(ms)[f.key] == Denote(f.value)
    requires Shaped(f.value, g.keys) && Shaped(to, g.keys) && Patchable(f.value, to)
    requires (f.value.Array? && to.Array?) || (f.value.Object? && to.Object?)
    ensures ApplyAll(doc, Diff(p + "/" + f.key, f.value, to, g.cs, stale), g.cs) == Outcome(0, With(doc, p, Object(ys), g.cs))
    ensures Shaped(Object(ys), g.keys) && Fields(ys) == Fields(ms)[f.key := Denote(to)]
    decreases f.value, 3, 1
  {
    hide ApplyAll; hide Diff; hide At; hide Shaped; hide Patchable; hide Denote; hide Step; hide With;
    ShapedKeys(ms, g);
    ShapedKnown(ms, f.key, g);
    var i := MemberStepIndex(ms, f.key, g);
    ShapedChild(ms, i, g);
    AtChild(doc, p, Object(ms), f.key, i, g.cs);
    var y := DiffApplies(doc, p + "/" + f.key, ms[i].value, f.value, to, stale, g);
    ys := ms[i := Member(f.key, y)];
    UpdateFields(ms, i, y);
    assert SetChild(Object(ms), i, y) == Object(ys);
    StillShaped(ms, ys, y, g);
  }

  /** The names cover what is left to do. */
  ghost predicate Named(f: map<string, Value>, t: map<string, Value>, n: Names) {
    forall k :: k in f.Keys + t.Keys ==>
      k in n.all && (Unchanged(f, t, k) || k in n.addressed) && (TakenOut(f, t, k) ==> k in n.taken)
  }

  lemma NamesNamed(f: map<string, Value>, t: map<string, Value>)
    ensures Named(f, t, NamesOf(f, t))
  {
  }

  lemma NamedRest(f: map<string, Value>, t: map<string, Value>, n: Names, k: string)
    requires Named(f, t, n)
    ensures Named(f - {k}, t - {k}, n)
  {
    hide SameKind;
    forall q | q in (f - {k}).Keys + (t - {k}).Keys
      ensures q in n.all && (Unchanged(f - {k}, t - {k}, q) || q in n.addressed) && (TakenOut(f - {k}, t - {k}, q) ==> q in n.taken)
    {
      assert q != k && q in f.Keys + t.Keys;
    }
  }

  /** The members still to be compared, on both sides. */
  ghost predicate Pending(fs: seq<Member>, ts: seq<Member>, n: Names, parent: Json, g: Reading) {
    && Shaped(Object(fs), g.keys) && Shaped(Object(ts), g.keys) && Asc(fs, g.cs) && Asc(ts, g.cs)
    && Named(Fields(fs), Fields(ts), n) && Usable(n)
    && PairsPatchable(fs, ts) && Under(fs, parent)
  }

  /** The object at p still holds every member of `fs`. */
  ghost predicate Current(doc: Json, p: string, ms: seq<Member>, fs: seq<Member>, n: Names, g: Reading) {
    At(doc, p, Object(ms), g.cs) && Shaped(Object(ms), g.keys) && KeysOf(ms) <= n.all && Holds(ms, fs)
  }

  lemma TailKeyed(ms: seq<Member>, g: Reading)
    requires ms != [] && Shaped(Object(ms), g.keys) && Asc(ms, g.cs)
    ensures Shaped(Object(ms[1..]), g.keys) && Asc(ms[1..], g.cs) && Shaped(ms[0].value, g.keys) && ms[0].key in g.keys
    ensures KeysOf(ms) == KeysOf(ms[1..]) + {ms[0].key} && ms[0].key !in KeysOf(ms[1..])
    ensures Fields(ms) == Fields(ms[1..])[ms[0].key := Denote(ms[0].value)]
    ensures Fields(ms[1..]) == Fields(ms) - {ms[0].key}
  {
    hide Denote; hide Compare; hide KeysOf; hide Fields;
    var f, k := Fields(ms), ms[0].key;
    assert forall i :: 0 <= i < |ms[1..]| ==> ms[1..][i] == ms[i + 1];
    UnconsFields(ms);
    FieldsKeys(ms);
    FieldsKeys(ms[1..]);
    assert f == (f - {k})[k := f[k]];
  }

  lemma PendingTail(fs: seq<Member>, ts: seq<Member>, n: Names, parent: Json, g: Reading)
    requires Pending(fs, ts, n, parent, g)
    ensures (fs != [] ==> fs[0].key in g.keys) && (ts != [] ==> ts[0].key in g.keys)
    ensures fs != [] && fs[0].key !in KeysOf(ts) ==> Pending(fs[1..], ts, n, parent, g)
    ensures ts != [] && ts[0].key !in KeysOf(fs) ==> Pending(fs, ts[1..], n, parent, g)
    ensures fs != [] && ts != [] && fs[0].key == ts[0].key ==> Pending(fs[1..], ts[1..], n, parent, g)
  {
    hide Fields; hide Shaped; hide Asc; hide Usable; hide KeysOf; hide Patchable; hide Named;
    FieldsKeys(fs);
    FieldsKeys(ts);
    if fs != [] {
      TailKeyed(fs, g);
      NamedRest(Fields(fs), Fields(ts), n, fs[0].key);
      assert fs[0].key !in KeysOf(ts) ==> Fields(ts) - {fs[0].key} == Fields(ts);
    }
    if ts != [] {
      TailKeyed(ts, g);
      NamedRest(Fields(fs), Fields(ts), n, ts[0].key);
      assert ts[0].key !in KeysOf(fs) ==> Fields(fs) - {ts[0].key} == Fields(fs);
    }
  }

  /** The names of the first member. */
  lemma HeadNamed(ms: seq<Member>, f: map<string, Value>, t: map<string, Value>, n: Names)
    requires ms != [] && Named(f, t, n) && Usable(n) && (f == Fields(ms) || t == Fields(ms))
    ensures var k := ms[0].key;
      k in n.all && (Unchanged(f, t, k) || Plain(k)) && (TakenOut(f, t, k) ==> k in n.taken)
  {
    hide Unchanged; hide TakenOut; hide Plain; hide Denote;
    FieldsKeys(ms);
    assert ms[0] in ms && ms[0].key in KeysOf(ms);
  }

  /** The object after one step, against what is left of `fs`. */
  lemma CurrentAfter(doc: Json, p: string, ms: seq<Member>, xs: seq<Member>, fs: seq<Member>, rest: seq<Member>,
                     n: Names, k: string, g: Reading)
    requires Current(doc, p, ms, fs, n, g) && Shaped(Object(xs), g.keys) && k in n.all && k !in KeysOf(rest)
    requires KeysOf(rest) <= KeysOf(fs) && Holds(fs, rest)
    requires Fields(xs) - {k} == Fields(ms) - {k}
    ensures Current(With(doc, p, Object(xs), g.cs), p, xs, rest, n, g)
  {
    hide Fields; hide Shaped; hide KeysOf; hide Walk; hide Tokens;
    FieldsKeys(xs);
    FieldsKeys(ms);
    FieldsKeys(fs);
    FieldsKeys(rest);
    forall q | q in KeysOf(xs) ensures q in n.all {
      if q != k { assert q in Fields(xs) - {k}; }
    }
    forall q | q in KeysOf(rest) ensures q in Fields(xs) && Fields(xs)[q] == Fields(rest)[q] {
      assert q != k && q in Fields(ms);
      assert q in Fields(ms) - {k};
      assert (Fields(xs) - {k})[q] == (Fields(ms) - {k})[q];
    }
  }

  lemma HoldsTail(fs: seq<Member>, g: Reading)
    requires fs != [] && Shaped(Object(fs), g.keys) && Asc(fs, g.cs)
    ensures Holds(fs, fs[1..]) && Holds(fs, fs)
  {
    hide Fields; hide Shaped; hide KeysOf;
    TailKeyed(fs, g);
    FieldsKeys(fs);
    FieldsKeys(fs[1..]);
  }

  lemma {:induction false} PairStep(doc: Json, p: string, ms: seq<Member>, fs: seq<Member>, ts: seq<Member>,
                                    n: Names, stale: Memory, parent: Json, g: Reading)
    returns (xs: seq<Member>)
    requires Current(doc, p, ms, fs, n, g) && Pending(fs, ts, n, parent, g)
    requires fs != [] && ts != [] && fs[0].key == ts[0].key
    ensures ApplyAll(doc, Diff(SubPath(p, fs[0].key, stale), fs[0].value, ts[0].value, g.cs, stale), g.cs)
         == Outcome(0, With(doc, p, Object(xs), g.cs))
    ensures Shaped(Object(xs), g.keys) && (Fields(xs) - KeysOf(fs[1..])) + Fields(ts[1..]) == (Fields(ms) - KeysOf(fs)) + Fields(ts)
    ensures Current(With(doc, p, Object(xs), g.cs), p, xs, fs[1..], n, g)
    decreases parent, 0, 0
  {
    hide ApplyAll; hide Diff; hide Fields; hide Shaped; hide KeysOf; hide Walk; hide Tokens; hide Usable; hide Asc;
    hide Patchable; hide Denote;
    var k := fs[0].key;
    TailKeyed(fs, g);
    TailKeyed(ts, g);
    HoldsTail(fs, g);
    FieldsKeys(ms);
    HeadNamed(fs, Fields(fs), Fields(ts), n);
    if Denote(fs[0].value) == Denote(ts[0].value) {
      xs := ms;
      DiffOfEqual(SubPath(p, k, stale), fs[0].value, ts[0].value, stale, g);
      ApplyNone(doc, g.cs);
      WithSame(doc, p, Object(ms), g.cs);
      assert Fields(ms)[k := Denote(ts[0].value)] == Fields(ms);
    } else {
      SubPathPlain(p, k, stale);
      xs := MemberApplies(doc, p, ms, fs[0], ts[0].value, n, stale, g);
    }
    FieldsKeys(ts[1..]);
    MapAlgebra(Fields(ms), KeysOf(fs[1..]), Fields(ts[1..]), k, Denote(ts[0].value));
    assert Fields(xs) - {k} == Fields(ms) - {k};
    CurrentAfter(doc, p, ms, xs, fs, fs[1..], n, k, g);
  }

  lemma {:induction false} OnlyFromStep(doc: Json, p: string, ms: seq<Member>, fs: seq<Member>, ts: seq<Member>,
                                        n: Names, stale: Memory, parent: Json, g: Reading)
    returns (xs: seq<Member>)
    requires Current(doc, p, ms, fs, n, g) && Pending(fs, ts, n, parent, g) && fs != [] && fs[0].key !in KeysOf(ts)
    ensures ApplyAll(doc, [Compose("remove", SubPath(p, fs[0].key, stale), None)], g.cs)
         == Outcome(0, With(doc, p, Object(xs), g.cs))
    ensures Shaped(Object(xs), g.keys) && (Fields(xs) - KeysOf(fs[1..])) + Fields(ts) == (Fields(ms) - KeysOf(fs)) + Fields(ts)
    ensures Current(With(doc, p, Object(xs), g.cs), p, xs, fs[1..], n, g)
  {
    hide ApplyAll; hide ApplyPatch; hide Compose; hide Fields; hide Shaped; hide KeysOf; hide Walk; hide Tokens;
    hide Usable; hide Asc; hide Patchable; hide Denote;
    var k := fs[0].key;
    TailKeyed(fs, g);
    HoldsTail(fs, g);
    FieldsKeys(ms);
    FieldsKeys(ts);
    HeadNamed(fs, Fields(fs), Fields(ts), n);
    SubPathPlain(p, k, stale);
    xs := RemoveStep(doc, p, ms, k, n, g);
    ApplyOne(doc, Compose("remove", p + "/" + k, None), g.cs);
    MapAlgebra(Fields(ms), KeysOf(fs[1..]), Fields(ts), k, Atom(Null));
    assert Fields(xs) - {k} == Fields(ms) - {k};
    CurrentAfter(doc, p, ms, xs, fs, fs[1..], n, k, g);
  }

  lemma {:induction false} OnlyToStep(doc: Json, p: string, ms: seq<Member>, fs: seq<Member>, ts: seq<Member>,
                                      n: Names, stale: Memory, parent: Json, g: Reading)
    returns (xs: seq<Member>)
    requires Current(doc, p, ms, fs, n, g) && Pending(fs, ts, n, parent, g) && ts != [] && ts[0].key !in KeysOf(fs)
    ensures ApplyAll(doc, [Compose("add", SubPath(p, ts[0].key, stale), Some(ts[0].value))], g.cs)
         == Outcome(0, With(doc, p, Object(xs), g.cs))
    ensures Shaped(Object(xs), g.keys) && (Fields(xs) - KeysOf(fs)) + Fields(ts[1..]) == (Fields(ms) - KeysOf(fs)) + Fields(ts)
    ensures Current(With(doc, p, Object(xs), g.cs), p, xs, fs, n, g)
  {
    hide ApplyAll; hide ApplyPatch; hide Compose; hide Fields; hide Shaped; hide KeysOf; hide Walk; hide Tokens;
    hide Usable; hide Asc; hide Patchable; hide Denote;
    var k := ts[0].key;
    TailKeyed(ts, g);
    FieldsKeys(fs);
    HeadNamed(ts, Fields(fs), Fields(ts), n);
    SubPathPlain(p, k, stale);
    xs := AddStep(doc, p, ms, k, ts[0].value, g);
    ApplyOne(doc, Compose("add", p + "/" + k, Some(ts[0].value)), g.cs);
    FieldsKeys(ts[1..]);
    MapAlgebra(Fields(ms), KeysOf(fs), Fields(ts[1..]), k, Denote(ts[0].value));
    assert Fields(xs) - {k} == Fields(ms) - {k};
    CurrentAfter(doc, p, ms, xs, fs, fs, n, k, g);
  }

  lemma NotYetReached(fs: seq<Member>, k: string, g: Reading)
    requires Asc(fs, g.cs) && (fs != [] ==> Compare(fs[0].key, k, g.cs) > 0)
    ensures k !in KeysOf(fs)
  {
    if k in KeysOf(fs) {
      LeastKey(fs, k, g.cs);
      LexZero(Canon(k, g.cs), Canon(k, g.cs));
    }
  }

  lemma CompareBack(a: string, b: string, cs: bool)
    ensures Compare(b, a, cs) == -Compare(a, b, cs)
  {
    LexAntisymmetric(Canon(a, cs), Canon(b, cs));
  }

  lemma MapAlgebra(f: map<string, Value>, keys: set<string>, t: map<string, Value>, k: string, v: Value)
    ensures k !in keys && k !in t ==> (f[k := v] - keys) + t == (f - (keys + {k})) + t[k := v] == (f - keys) + t[k := v]
    ensures ((f - {k}) - keys) + t == (f - (keys + {k})) + t
  {
  }

  lemma {:induction false} MembersApply(doc: Json, p: string, ms: seq<Member>, fs: seq<Member>, ts: seq<Member>,
    n: Names, stale: Memory, parent: Json, g: Reading)
    returns (ys: seq<Member>)
    requires Current(doc, p, ms, fs, n, g) && Pending(fs, ts, n, parent, g)
    ensures ApplyAll(doc, DiffMembers(p, fs, ts, g.cs, stale, parent), g.cs) == Outcome(0, With(doc, p, Object(ys), g.cs))
    ensures Shaped(Object(ys), g.keys) && Fields(ys) == (Fields(ms) - KeysOf(fs)) + Fields(ts)
    decreases parent, 0, 2 * (|fs| + |ts|) + 1
  {
    hide ApplyAll; hide Compose; hide Fields; hide Shaped; hide KeysOf; hide Walk; hide Tokens; hide Usable; hide Asc;
    hide Patchable; hide Denote; hide Diff; hide Compare; hide SubPath; hide With; hide Under; hide Separate; hide Named; hide PairsPatchable; hide Holds;
    if fs == [] && ts == [] {
      ys := ms;
      ApplyNone(doc, g.cs);
      WithSame(doc, p, Object(ms), g.cs);
      FieldsKeys(fs);
      assert Fields([]) == map[] by { FieldsKeys([]); KeysOfNone(); }
      assert DiffMembers(p, fs, ts, g.cs, stale, parent) == [];
      return;
    }
    hide Pending; hide Current; hide DiffMembers;
    var diff := if fs == [] then 1 else if ts == [] then -1 else Compare(fs[0].key, ts[0].key, g.cs);
    if diff == 0 {
      ys := PairFirst(doc, p, ms, fs, ts, n, stale, parent, g);
    } else if diff < 0 {
      ys := RemoveFirst(doc, p, ms, fs, ts, n, stale, parent, g);
    } else {
      ys := AddFirst(doc, p, ms, fs, ts, n, stale, parent, g);
    }
  }

  lemma {:induction false} PairFirst(doc: Json, p: string, ms: seq<Member>, fs: seq<Member>, ts: seq<Member>,
    n: Names, stale: Memory, parent: Json, g: Reading)
    returns (ys: seq<Member>)
    requires Current(doc, p, ms, fs, n, g) && Pending(fs, ts, n, parent, g)
    requires fs != [] && ts != [] && Compare(fs[0].key, ts[0].key, g.cs) == 0
    ensures ApplyAll(doc, DiffMembers(p, fs, ts, g.cs, stale, parent), g.cs) == Outcome(0, With(doc, p, Object(ys), g.cs))
    ensures Shaped(Object(ys), g.keys) && Fields(ys) == (Fields(ms) - KeysOf(fs)) + Fields(ts)
    decreases parent, 0, 2 * (|fs| + |ts|)
  {
    hide ApplyAll; hide Compose; hide Fields; hide Shaped; hide KeysOf; hide Walk; hide Tokens; hide Usable; hide Asc;
    hide Patchable; hide Denote; hide Diff; hide Compare; hide SubPath; hide With; hide Under; hide Separate;
    PendingTail(fs, ts, n, parent, g);
    SeparateCompare(fs[0].key, ts[0].key, g.keys, g.cs);
    var xs := PairStep(doc, p, ms, fs, ts, n, stale, parent, g);
    ys := MembersApply(With(doc, p, Object(xs), g.cs), p, xs, fs[1..], ts[1..], n, stale, parent, g);
    ApplyThen(doc, p, Diff(SubPath(p, fs[0].key, stale), fs[0].value, ts[0].value, g.cs, stale),
              DiffMembers(p, fs[1..], ts[1..], g.cs, stale, parent), Object(xs), Object(ys), g.cs);
  }

  lemma {:induction false} RemoveFirst(doc: Json, p: string, ms: seq<Member>, fs: seq<Member>, ts: seq<Member>,
    n: Names, stale: Memory, parent: Json, g: Reading)
    returns (ys: seq<Member>)
    requires Current(doc, p, ms, fs, n, g) && Pending(fs, ts, n, parent, g)
    requires fs != [] && (ts != [] ==> Compare(fs[0].key, ts[0].key, g.cs) < 0)
    ensures ApplyAll(doc, DiffMembers(p, fs, ts, g.cs, stale, parent), g.cs) == Outcome(0, With(doc, p, Object(ys), g.cs))
    ensures Shaped(Object(ys), g.keys) && Fields(ys) == (Fields(ms) - KeysOf(fs)) + Fields(ts)
    decreases parent, 0, 2 * (|fs| + |ts|)
  {
    hide ApplyAll; hide Compose; hide Fields; hide Shaped; hide KeysOf; hide Walk; hide Tokens; hide Usable; hide Asc;
    hide Patchable; hide Denote; hide Diff; hide Compare; hide SubPath; hide With; hide Under; hide Separate;
    PendingTail(fs, ts, n, parent, g);
    if ts != [] { CompareBack(fs[0].key, ts[0].key, g.cs); }
    NotYetReached(ts, fs[0].key, g);
    var xs := OnlyFromStep(doc, p, ms, fs, ts, n, stale, parent, g);
    ys := MembersApply(With(doc, p, Object(xs), g.cs), p, xs, fs[1..], ts, n, stale, parent, g);
    ApplyThen(doc, p, [Compose("remove", SubPath(p, fs[0].key, stale), None)],
              DiffMembers(p, fs[1..], ts, g.cs, stale, parent), Object(xs), Object(ys), g.cs);
  }

  lemma {:induction false} AddFirst(doc: Json, p: string, ms: seq<Member>, fs: seq<Member>, ts: seq<Member>,
    n: Names, stale: Memory, parent: Json, g: Reading)
    returns (ys: seq<Member>)
    requires Current(doc, p, ms, fs, n, g) && Pending(fs, ts, n, parent, g)
    requires ts != [] && (fs != [] ==> Compare(fs[0].key, ts[0].key, g.cs) > 0)
    ensures ApplyAll(doc, DiffMembers(p, fs, ts, g.cs, stale, parent), g.cs) == Outcome(0, With(doc, p, Object(ys), g.cs))
    ensures Shaped(Object(ys), g.keys) && Fields(ys) == (Fields(ms) - KeysOf(fs)) + Fields(ts)
    decreases parent, 0, 2 * (|fs| + |ts|)
  {
    hide ApplyAll; hide Compose; hide Fields; hide Shaped; hide KeysOf; hide Walk; hide Tokens; hide Usable; hide Asc;
    hide Patchable; hide Denote; hide Diff; hide Compare; hide SubPath; hide With; hide Under; hide Separate;
    PendingTail(fs, ts, n, parent, g);
    NotYetReached(fs, ts[0].key, g);
    var xs := OnlyToStep(doc, p, ms, fs, ts, n, stale, parent, g);
    ys := MembersApply(With(doc, p, Object(xs), g.cs), p, xs, fs, ts[1..], n, stale, parent, g);
    ApplyThen(doc, p, [Compose("add", SubPath(p, ts[0].key, stale), Some(ts[0].value))],
              DiffMembers(p, fs, ts[1..], g.cs, stale, parent), Object(xs), Object(ys), g.cs);
  }

  lemma KeysOfNone()
    ensures KeysOf([]) == {}
  {
  }

  // ----- generated operations on an array

  lemma IndexStep(items: seq<Json>, index: nat, cs: bool)
    requires index < |items| && index < SIZE_LIMIT
    ensures Plain(DecimalText(index)) && DecimalText(index) != "-"
    ensures DecodeIndex(DecimalText(index)) == Some(index)
    ensures Step(Array(items), DecimalText(index), cs) == Some(index)
  {
    hide DecimalText; hide DecodeIndex;
    IndexRoundTrip(index, []);
    assert DecimalText(index) + [] == DecimalText(index);
  }

  lemma RemoveItemStep(doc: Json, p: string, items: seq<Json>, index: nat, cs: bool)
    requires At(doc, p, Array(items), cs) && index < |items| && index < SIZE_LIMIT
    ensures Detach(doc, p + "/" + DecimalText(index), cs)
         == Some(Detached(items[index], With(doc, p, Array(RemoveAt(items, index)), cs)))
    ensures ApplyPatch(doc, Compose("remove", p + "/" + DecimalText(index), None), cs)
         == Outcome(0, With(doc, p, Array(RemoveAt(items, index)), cs))
  {
    hide ApplyPatch; hide DecimalText; hide DecodeIndex; hide Detach; hide Walk; hide Tokens;
    IndexStep(items, index, cs);
    ComposeApplies(doc, "remove", p + "/" + DecimalText(index), None, cs);
    DetachAt(doc, p, DecimalText(index), Array(items), cs);
  }

  lemma ReplaceItemStep(doc: Json, p: string, items: seq<Json>, index: nat, v: Json, cs: bool)
    requires At(doc, p, Array(items), cs) && index < |items| && index < SIZE_LIMIT
    ensures ApplyPatch(doc, Compose("replace", p + "/" + DecimalText(index), Some(v)), cs)
         == Outcome(0, With(doc, p, Array(items[index := v]), cs))
  {
    hide ApplyPatch; hide DecimalText; hide DecodeIndex; hide Detach; hide AddAt; hide Walk; hide Tokens; hide With;
    var path, rest := p + "/" + DecimalText(index), RemoveAt(items, index);
    IndexStep(items, index, cs);
    ComposeApplies(doc, "replace", path, Some(v), cs);
    RemoveItemStep(doc, p, items, index, cs);
    var mid := With(doc, p, Array(rest), cs);
    AddAtPath(mid, p, DecimalText(index), Array(rest), v, cs);
    assert InsertAt(rest, index, v) == items[index := v];
    assert AddAt(mid, path, v, cs) == Outcome(0, With(mid, p, Array(items[index := v]), cs)) by { WithPut(mid, p, Array(items[index := v]), cs); }
    WithWith(doc, p, Array(rest), Array(items[index := v]), cs);
  }

  lemma WithPut(doc: Json, p: string, x: Json, cs: bool)
    requires StartsPointer(p) && Walk(doc, Tokens(p), cs).Some?
    ensures With(doc, p, x, cs) == Put(doc, Tokens(p), x, cs)
  {
  }

  lemma AppendItemStep(doc: Json, p: string, items: seq<Json>, v: Json, cs: bool)
    requires At(doc, p, Array(items), cs)
    ensures ApplyPatch(doc, Compose("add", p + "/-", Some(v)), cs) == Outcome(0, With(doc, p, Array(items + [v]), cs))
  {
    hide ApplyPatch; hide DecodeIndex; hide AddAt; hide Walk; hide Tokens;
    assert p + "/-" == p + "/" + "-";
    ComposeApplies(doc, "add", p + "/-", Some(v), cs);
    AddAtPath(doc, p, "-", Array(items), v, cs);
  }

  /** The operations generated for one element that both arrays have. */
  lemma {:induction false} ItemApplies(doc: Json, p: string, items: seq<Json>, index: nat, from: Json, to: Json, stale: Memory, g: Reading)
    returns (y: Json)
    requires At(doc, p, Array(items), g.cs) && index < |items| && index < SIZE_LIMIT
    requires Shaped(items[index], g.keys) && Shaped(from, g.keys) && Shaped(to, g.keys)
    requires Denote(items[index]) == Denote(from) && Patchable(from, to)
    ensures ApplyAll(doc, Diff(p + "/" + DecimalText(index), from, to, g.cs, stale), g.cs)
         == Outcome(0, With(doc, p, Array(items[index := y]), g.cs))
    ensures Shaped(y, g.keys) && Denote(y) == Denote(to)
    decreases from, 4, 0
  {
    hide ApplyAll; hide Diff; hide At; hide Shaped; hide Patchable; hide Denote; hide Step; hide With; hide DecimalText;
    hide ApplyPatch; hide Compose;
    var path := p + "/" + DecimalText(index);
    DiffCases(path, from, to, stale, g.cs);
    if (from.Array? && to.Array?) || (from.Object? && to.Object?) {
      IndexStep(items, index, g.cs);
      AtChild(doc, p, Array(items), DecimalText(index), index, g.cs);
      y := DiffApplies(doc, path, items[index], from, to, stale, g);
      assert SetChild(Array(items), index, y) == Array(items[index := y]);
    } else if Diff(path, from, to, g.cs, stale) == [] {
      y := items[index];
      assert items[index := y] == items;
      ApplyNone(doc, g.cs);
      WithSame(doc, p, Array(items), g.cs);
    } else {
      y := to;
      ReplaceItemStep(doc, p, items, index, to, g.cs);
      ApplyOne(doc, Compose("replace", path, Some(to)), g.cs);
    }
  }

  /** Elements from `index` on still to be compared. */
  ghost predicate ItemsPending(items: seq<Json>, fs: seq<Json>, ts: seq<Json>, index: nat, g: Reading) {
    && Shaped(Array(items), g.keys) && Shaped(Array(fs), g.keys) && Shaped(Array(ts), g.keys)
    && |items| == index + |fs| <= SIZE_LIMIT && index + |ts| <= SIZE_LIMIT
    && (forall i :: 0 <= i < |fs| ==> Denote(items[index + i]) == Denote(fs[i]))
    && (forall i :: 0 <= i < |fs| && i < |ts| ==> Patchable(fs[i], ts[i]))
  }

  ghost predicate ItemsDone(ys: seq<Json>, items: seq<Json>, ts: seq<Json>, index: nat, g: Reading) {
    && Shaped(Array(ys), g.keys) && |ys| == index + |ts| && index <= |items|
    && (forall i :: 0 <= i < index ==> ys[i] == items[i])
    && (forall i :: 0 <= i < |ts| ==> Denote(ys[index + i]) == Denote(ts[i]))
  }

  lemma PairItem(items: seq<Json>, y: Json, fs: seq<Json>, ts: seq<Json>, index: nat, g: Reading)
    requires ItemsPending(items, fs, ts, index, g) && fs != [] && ts != []
    requires Shaped(y, g.keys) && Denote(y) == Denote(ts[0])
    ensures ItemsPending(items[index := y], fs[1..], ts[1..], index + 1, g)
    ensures forall ys :: ItemsDone(ys, items[index := y], ts[1..], index + 1, g) ==> ItemsDone(ys, items, ts, index, g)
  {
    hide Denote; hide Patchable;
    var xs := items[index := y];
    assert forall i :: 0 <= i < |fs| - 1 ==> fs[1..][i] == fs[i + 1] && xs[index + 1 + i] == items[index + (i + 1)];
    assert forall i :: 0 <= i < |ts| - 1 ==> ts[1..][i] == ts[i + 1];
    forall ys | ItemsDone(ys, xs, ts[1..], index + 1, g) ensures ItemsDone(ys, items, ts, index, g) {
      forall i | 0 <= i < |ts| ensures Denote(ys[index + i]) == Denote(ts[i]) {
        if i == 0 { assert ys[index] == xs[index]; }
        else { assert ys[index + i] == ys[index + 1 + (i - 1)] && ts[1..][i - 1] == ts[i]; }
      }
    }
  }

  lemma DropItem(items: seq<Json>, fs: seq<Json>, ts: seq<Json>, index: nat, g: Reading)
    requires ItemsPending(items, fs, ts, index, g) && fs != [] && ts == []
    ensures ItemsPending(RemoveAt(items, index), fs[1..], ts, index, g)
    ensures forall ys :: ItemsDone(ys, RemoveAt(items, index), ts, index, g) ==> ItemsDone(ys, items, ts, index, g)
  {
    hide Denote; hide Patchable;
    var xs := RemoveAt(items, index);
    assert forall i :: 0 <= i < |fs| - 1 ==> fs[1..][i] == fs[i + 1] && xs[index + i] == items[index + (i + 1)];
    assert forall i :: 0 <= i < |xs| ==> xs[i] == if i < index then items[i] else items[i + 1];
  }

  lemma AppendItem(items: seq<Json>, ts: seq<Json>, index: nat, g: Reading)
    requires ItemsPending(items, [], ts, index, g) && ts != []
    ensures ItemsPending(items + [ts[0]], [], ts[1..], index + 1, g)
    ensures forall ys :: ItemsDone(ys, items + [ts[0]], ts[1..], index + 1, g) ==> ItemsDone(ys, items, ts, index, g)
  {
    hide Denote; hide Patchable;
    var xs := items + [ts[0]];
    forall ys | ItemsDone(ys, xs, ts[1..], index + 1, g) ensures ItemsDone(ys, items, ts, index, g) {
      forall i | 0 <= i < |ts| ensures Denote(ys[index + i]) == Denote(ts[i]) {
        if i == 0 { assert ys[index] == xs[index]; }
        else { assert ys[index + i] == ys[index + 1 + (i - 1)] && ts[1..][i - 1] == ts[i]; }
      }
    }
  }

  lemma {:induction false} ItemsApply(doc: Json, p: string, items: seq<Json>, fs: seq<Json>, ts: seq<Json>, index: nat, stale: Memory, g: Reading)
    returns (ys: seq<Json>)
    requires At(doc, p, Array(items), g.cs) && ItemsPending(items, fs, ts, index, g)
    ensures ApplyAll(doc, DiffItems(p, fs, ts, index, g.cs, stale), g.cs) == Outcome(0, With(doc, p, Array(ys), g.cs))
    ensures ItemsDone(ys, items, ts, index, g)
    decreases fs, 0, 2 * |ts| + 1
  {
    hide ApplyAll; hide Diff; hide Patchable; hide Denote; hide With; hide DecimalText; hide ApplyPatch; hide Compose;
    hide Walk; hide Tokens; hide ItemsDone;
    if fs != [] && ts != [] {
      var y := ItemApplies(doc, p, items, index, fs[0], ts[0], stale, g);
      PairItem(items, y, fs, ts, index, g);
      var next := With(doc, p, Array(items[index := y]), g.cs);
      ys := ItemsApply(next, p, items[index := y], fs[1..], ts[1..], index + 1, stale, g);
      ApplyThen(doc, p, Diff(p + "/" + DecimalText(index), fs[0], ts[0], g.cs, stale),
                DiffItems(p, fs[1..], ts[1..], index + 1, g.cs, stale), Array(items[index := y]), Array(ys), g.cs);
    } else if fs != [] {
      ys := DropLeftover(doc, p, items, fs, index, stale, g);
    } else if ts != [] {
      ys := AppendRest(doc, p, items, fs, ts, index, stale, g);
    } else {
      ys := items;
      ApplyNone(doc, g.cs);
      WithSame(doc, p, Array(items), g.cs);
      assert ItemsDone(ys, items, ts, index, g) by { NothingLeft(items, index, g); }
    }
  }

  lemma NothingLeft(items: seq<Json>, index: nat, g: Reading)
    requires ItemsPending(items, [], [], index, g)
    ensures ItemsDone(items, items, [], index, g)
  {
  }

  lemma {:induction false} DropLeftover(doc: Json, p: string, items: seq<Json>, fs: seq<Json>, index: nat, stale: Memory, g: Reading)
    returns (ys: seq<Json>)
    requires At(doc, p, Array(items), g.cs) && ItemsPending(items, fs, [], index, g) && fs != []
    ensures ApplyAll(doc, DiffItems(p, fs, [], index, g.cs, stale), g.cs) == Outcome(0, With(doc, p, Array(ys), g.cs))
    ensures ItemsDone(ys, items, [], index, g)
    decreases fs, 0, 0
  {
    hide ApplyAll; hide Patchable; hide Denote; hide With; hide DecimalText; hide ApplyPatch; hide Compose;
    hide Walk; hide Tokens; hide ItemsDone;
    var xs, op := RemoveAt(items, index), Compose("remove", p + "/" + DecimalText(index), None);
    RemoveItemStep(doc, p, items, index, g.cs);
    IndexStep(items, index, g.cs);
    SubPathPlain(p, DecimalText(index), stale);
    ApplyOne(doc, op, g.cs);
    DropItem(items, fs, [], index, g);
    ys := ItemsApply(With(doc, p, Array(xs), g.cs), p, xs, fs[1..], [], index, stale, g);
    ApplyThen(doc, p, [op], DiffItems(p, fs[1..], [], index, g.cs, stale), Array(xs), Array(ys), g.cs);
  }

  lemma {:induction false} AppendRest(doc: Json, p: string, items: seq<Json>, fs: seq<Json>, ts: seq<Json>, index: nat, stale: Memory, g: Reading)
    returns (ys: seq<Json>)
    requires At(doc, p, Array(items), g.cs) && ItemsPending(items, fs, ts, index, g) && fs == [] && ts != []
    ensures ApplyAll(doc, DiffItems(p, fs, ts, index, g.cs, stale), g.cs) == Outcome(0, With(doc, p, Array(ys), g.cs))
    ensures ItemsDone(ys, items, ts, index, g)
    decreases fs, 0, 2 * |ts|
  {
    hide ApplyAll; hide Patchable; hide Denote; hide With; hide DecimalText; hide ApplyPatch; hide Compose;
    hide Walk; hide Tokens; hide ItemsDone; hide Encode;
    var xs, op := items + [ts[0]], Compose("add", p + "/-", Some(ts[0]));
    AppendItemStep(doc, p, items, ts[0], g.cs);
    SubPathPlain(p, "-", stale);
    assert p + "/" + "-" == p + "/-";
    ApplyOne(doc, op, g.cs);
    AppendItem(items, ts, index, g);
    ys := ItemsApply(With(doc, p, Array(xs), g.cs), p, xs, fs, ts[1..], index + 1, stale, g);
    ApplyThen(doc, p, [op], DiffItems(p, fs, ts[1..], index + 1, g.cs, stale), Array(xs), Array(ys), g.cs);
  }

  /** Applying a generated patch. For every two documents the generator can
      handle, and every document that holds the same value as the old one (in
      whatever member order), the generated operations all succeed and leave
      the new value. */
  lemma DiffThenApply(doc: Json, from: Json, to: Json, stale: Memory, g: Reading)
    requires Shaped(doc, g.keys) && Shaped(from, g.keys) && Shaped(to, g.keys) && Patchable(from, to)
    requires Denote(doc) == Denote(from)
    ensures var r := ApplyAll(doc, Diff("", from, to, g.cs, stale), g.cs);
            r.status == 0 && Shaped(r.doc, g.keys) && Denote(r.doc) == Denote(to)
  {
    hide ApplyAll; hide Diff; hide Denote; hide Shaped; hide Patchable; hide ApplyPatch; hide Compose;
    assert At(doc, "", doc, g.cs);
    assert forall y :: With(doc, "", y, g.cs) == y;
    DiffCases("", from, to, stale, g.cs);
    if (from.Array? && to.Array?) || (from.Object? && to.Object?) {
      var y := DiffApplies(doc, "", doc, from, to, stale, g);
    } else if Diff("", from, to, g.cs, stale) == [] {
      ApplyNone(doc, g.cs);
    } else {
      ApplyOne(doc, Compose("replace", "", Some(to)), g.cs);
      ComposeApplies(doc, "replace", "", Some(to), g.cs);
    }
  }

  /** The generator finds nothing to do exactly when there is nothing to do. */
  lemma EmptyDiff(from: Json, to: Json, stale: Memory, g: Reading)
    requires Shaped(from, g.keys) && Shaped(to, g.keys) && Patchable(from, to)
    ensures Diff("", from, to, g.cs, stale) == [] <==> Denote(from) == Denote(to)
  {
    hide Diff; hide Denote; hide Shaped; hide Patchable; hide ApplyAll;
    if Denote(from) == Denote(to) { DiffOfEqual("", from, to, stale, g); }
    DiffThenApply(from, from, to, stale, g);
    ApplyNone(from, g.cs);
  }
}
