/** What the operations of a JSON Patch do to a document, in the terms of section 4 of
    RFC 6902, and what a failed operation leaves behind. */
module PatchLaws {
  import opened Digits
  import opened Keys
  import opened Trees
  import opened Pointers
  import opened Comparing
  import opened Patching
  import opened Diffing

  // ----- arrays

  /** One element more, at position n; those before it stay and those from there on move up. */
  ghost predicate Inserted(items: seq<Json>, ys: seq<Json>, n: nat, v: Json) {
    && n < |ys| == |items| + 1 && ys[n] == v
    && (forall i :: 0 <= i < n ==> ys[i] == items[i])
    && (forall i :: n < i < |ys| ==> ys[i] == items[i - 1])
  }

  /** One element less; those behind it move down. */
  ghost predicate Taken(items: seq<Json>, ys: seq<Json>, n: nat) {
    && n <= |ys| == |items| - 1
    && (forall i :: 0 <= i < n ==> ys[i] == items[i])
    && (forall i :: n <= i < |ys| ==> ys[i] == items[i + 1])
  }

  lemma IndexName(n: nat)
    requires n < SIZE_LIMIT
    ensures Plain(DecimalText(n)) && DecimalText(n) != "-" && DecodeIndex(DecimalText(n)) == Some(n)
  {
    hide DecimalText; hide DecodeIndex;
    IndexRoundTrip(n, []);
    assert DecimalText(n) + [] == DecimalText(n);
  }

  /** Adding at an index: inserted exactly up to the end of the array, refused beyond it. */
  lemma AddToArray(doc: Json, p: string, items: seq<Json>, n: nat, v: Json, cs: bool) returns (ys: seq<Json>)
    requires At(doc, p, Array(items), cs) && n < SIZE_LIMIT
    ensures var r := ApplyOperation(doc, "add", p + "/" + DecimalText(n), Some(v), None, cs);
      && (r.status == 0 <==> n <= |items|)
      && (n <= |items| ==> Inserted(items, ys, n, v) && r.doc == With(doc, p, Array(ys), cs))
      && (n > |items| ==> r == Outcome(10, doc))
  {
    hide DecimalText; hide DecodeIndex; hide AddAt; hide Walk; hide Tokens; hide Put;
    var t := DecimalText(n);
    IndexName(n);
    AddAtPath(doc, p, t, Array(items), v, cs);
    assert p + "/" + t != [];
    ys := if n <= |items| then InsertAt(items, n, v) else [];
  }

  /** The name "-" stands for the place behind the last element. */
  lemma AppendToArray(doc: Json, p: string, items: seq<Json>, v: Json, cs: bool) returns (ys: seq<Json>)
    requires At(doc, p, Array(items), cs)
    ensures Inserted(items, ys, |items|, v)
    ensures ApplyOperation(doc, "add", p + "/-", Some(v), None, cs) == Outcome(0, With(doc, p, Array(ys), cs))
  {
    hide DecodeIndex; hide AddAt; hide Walk; hide Tokens; hide Put;
    AddAtPath(doc, p, "-", Array(items), v, cs);
    assert p + "/" + "-" == p + "/-" != [];
    ys := items + [v];
  }

  /** Removing at an index: exactly the elements there are can be removed. */
  lemma RemoveFromArray(doc: Json, p: string, items: seq<Json>, n: nat, cs: bool) returns (ys: seq<Json>)
    requires At(doc, p, Array(items), cs) && n < SIZE_LIMIT
    ensures var r := ApplyOperation(doc, "remove", p + "/" + DecimalText(n), None, None, cs);
      && (r.status == 0 <==> n < |items|)
      && (n < |items| ==> Taken(items, ys, n) && r.doc == With(doc, p, Array(ys), cs))
      && (n >= |items| ==> r == Outcome(13, doc))
  {
    hide DecimalText; hide DecodeIndex; hide Detach; hide Walk; hide Tokens; hide Put;
    var t := DecimalText(n);
    IndexName(n);
    DetachAt(doc, p, t, Array(items), cs);
    assert p + "/" + t != [];
    ys := if n < |items| then RemoveAt(items, n) else [];
  }

  /** Replacing at an index: that element and no other. */
  lemma ReplaceInArray(doc: Json, p: string, items: seq<Json>, n: nat, v: Json, cs: bool)
    requires At(doc, p, Array(items), cs) && n < SIZE_LIMIT
    ensures ApplyOperation(doc, "replace", p + "/" + DecimalText(n), Some(v), None, cs)
         == if n < |items| then Outcome(0, With(doc, p, Array(items[n := v]), cs)) else Outcome(13, doc)
  {
    hide DecimalText; hide DecodeIndex; hide Detach; hide AddAt; hide Walk; hide Tokens; hide Put; hide With;
    var path := p + "/" + DecimalText(n);
    assert path != [];
    IndexName(n);
    if n < |items| {
      ReplaceItemStep(doc, p, items, n, v, cs);
      ComposeApplies(doc, "replace", path, Some(v), cs);
    } else {
      DetachAt(doc, p, DecimalText(n), Array(items), cs);
    }
  }

  // ----- objects

  /** Adding under a name: that member has the value, and the others are as they were. */
  lemma AddToObject(doc: Json, p: string, ms: seq<Member>, k: string, v: Json, g: Reading) returns (ys: seq<Member>)
    requires At(doc, p, Object(ms), g.cs) && Known(ms, k, g) && Plain(k)
    ensures ApplyOperation(doc, "add", p + "/" + k, Some(v), None, g.cs) == Outcome(0, With(doc, p, Object(ys), g.cs))
    ensures Distinct(ys) && Fields(ys) == Fields(ms)[k := Denote(v)]
  {
    hide AddAt; hide Walk; hide Tokens; hide Put; hide AddChild; hide Fields; hide Denote;
    AddAtPath(doc, p, k, Object(ms), v, g.cs);
    AddMember(ms, k, v, g);
    assert p + "/" + k != [];
    ys := AddChild(Object(ms), k, v, g.cs).doc.members;
  }

  /** Keys among which no other differs in case only from k. */
  ghost predicate Alone(ms: seq<Member>, k: string) {
    Distinct(ms) && forall m :: m in ms && Fold(m.key) == Fold(k) ==> m.key == k
  }

  /** Removing under a name: it must be there, and it goes. */
  lemma RemoveFromObject(doc: Json, p: string, ms: seq<Member>, k: string, cs: bool) returns (ys: seq<Member>)
    requires At(doc, p, Object(ms), cs) && Alone(ms, k) && Plain(k)
    ensures var r := ApplyOperation(doc, "remove", p + "/" + k, None, None, cs);
      && (r.status == 0 <==> k in KeysOf(ms))
      && (k in KeysOf(ms) ==> Fields(ys) == Fields(ms) - {k} && r.doc == With(doc, p, Object(ys), cs))
      && (k !in KeysOf(ms) ==> r == Outcome(13, doc))
  {
    hide Detach; hide Walk; hide Tokens; hide Put; hide Fields; hide IndexOf;
    DetachAt(doc, p, k, Object(ms), cs);
    assert p + "/" + k != [];
    var i := IndexOf(ms, k, false);
    AloneIndex(ms, k);
    if i < |ms| {
      RemoveFields(ms, i);
      ys := RemoveAt(ms, i);
    } else {
      ys := [];
    }
  }

  lemma AloneIndex(ms: seq<Member>, k: string)
    requires Alone(ms, k)
    ensures IndexOf(ms, k, false) < |ms| <==> k in KeysOf(ms)
    ensures IndexOf(ms, k, false) < |ms| ==> ms[IndexOf(ms, k, false)].key == k
  {
    var i := IndexOf(ms, k, false);
    assert i < |ms| ==> ms[i] in ms;
    if k in KeysOf(ms) {
      var m :| m in ms && m.key == k;
      var j :| 0 <= j < |ms| && ms[j] == m;
      assert Matches(k, ms[j].key, false);
    }
  }

  // ----- when an addition is refused

  /** The last token of a path and the pointer in front of it. */
  lemma LastToken(p: string, t: string)
    requires '/' !in t
    ensures LastSlash(p + "/" + t) == |p| && (p + "/" + t)[..|p|] == p && (p + "/" + t)[|p| + 1..] == t
    ensures p + "/" + t != []
  {
    hide LastSlash;
    var s := p + "/" + t;
    assert s[|p| + 1..] == t;
    forall k | |p| < k < |s| ensures s[k] != '/' { assert s[k] == t[k - |p| - 1]; }
    LastSlashIs(s, |p|);
  }

  /** For every token: an addition fails where there is no container, and in an array
      where the token is no index or one past the end; the document then stays. */
  lemma AddRefused(doc: Json, p: string, t: string, v: Json, cs: bool)
    requires '/' !in t
    ensures var r := ApplyOperation(doc, "add", p + "/" + t, Some(v), None, cs);
      var parent, child := GetItem(doc, p, cs), Unescape(t, 0, 0);
      && (r.status != 0 ==> r.doc == doc)
      && r.status ==
           if parent == None || !(parent.value.Array? || parent.value.Object?) then 9
           else if parent.value.Object? || child == "-" then 0
           else if DecodeIndex(child) == None then 11
           else if DecodeIndex(child).value > |parent.value.items| then 10
           else 0
  {
    hide DecodeIndex; hide Walk; hide Tokens; hide Put; hide Unescape; hide LastSlash; hide DropMember;
    LastToken(p, t);
  }

  // ----- moving and copying

  /** A move takes the item from its place, which must exist, and adds it; a copy adds
      what is found there and leaves it. */
  lemma MoveNeedsSource(doc: Json, path: string, from: string, cs: bool)
    ensures var r := ApplyOperation(doc, "move", path, None, Some(Text(from)), cs);
      && (Detach(doc, from, cs) == None ==> r == Outcome(5, doc))
      && (r.status == 0 ==> Detach(doc, from, cs).Some?
                            && AddAt(Detach(doc, from, cs).value.rest, path, Detach(doc, from, cs).value.item, cs) == r)
    ensures var r := ApplyOperation(doc, "copy", path, None, Some(Text(from)), cs);
      && (GetItem(doc, from, cs) == None ==> r == Outcome(5, doc))
      && (r.status == 0 ==> GetItem(doc, from, cs).Some? && AddAt(doc, path, GetItem(doc, from, cs).value, cs) == r)
  {
    hide Detach; hide AddAt; hide GetItem;
  }

  /** What a move takes from an array is the element at the index given, if there is one. */
  lemma MovesFromArray(doc: Json, p: string, items: seq<Json>, n: nat, path: string, cs: bool) returns (ys: seq<Json>)
    requires At(doc, p, Array(items), cs) && n < SIZE_LIMIT
    ensures var r := ApplyOperation(doc, "move", path, None, Some(Text(p + "/" + DecimalText(n))), cs);
      && (n >= |items| ==> r == Outcome(5, doc))
      && (n < |items| ==> Taken(items, ys, n) && r == AddAt(With(doc, p, Array(ys), cs), path, items[n], cs))
  {
    hide DecimalText; hide DecodeIndex; hide Detach; hide AddAt; hide Walk; hide Tokens; hide Put;
    IndexName(n);
    DetachAt(doc, p, DecimalText(n), Array(items), cs);
    ys := if n < |items| then RemoveAt(items, n) else [];
  }

  /** What a copy adds is what stands at the index given. */
  lemma CopiesFromArray(doc: Json, p: string, items: seq<Json>, n: nat, path: string, cs: bool)
    requires At(doc, p, Array(items), cs) && n < SIZE_LIMIT
    ensures ApplyOperation(doc, "copy", path, None, Some(Text(p + "/" + DecimalText(n))), cs)
         == if n < |items| then AddAt(doc, path, items[n], cs) else Outcome(5, doc)
  {
    hide DecimalText; hide DecodeIndex; hide AddAt; hide Walk; hide Tokens; hide Step;
    var t := DecimalText(n);
    IndexName(n);
    TokensSnoc(p, t);
    WalkConcat(doc, Tokens(p), [t], cs);
    ArrayStep(items, n, cs);
    if n < |items| { WalkOne(Array(items), t, n, cs); } else { WalkNone(Array(items), t, cs); }
  }

  lemma ArrayStep(items: seq<Json>, n: nat, cs: bool)
    requires n < SIZE_LIMIT && '/' !in DecimalText(n)
    ensures Step(Array(items), DecimalText(n), cs) == if n < |items| then Some(n) else None
  {
    hide DecimalText; hide DecodeIndex;
    IndexName(n);
  }

  lemma WalkNone(x: Json, t: string, cs: bool)
    requires '/' !in t && Step(x, t, cs) == None
    ensures Walk(x, [t], cs) == None
  {
    hide Step;
    var path: Path := [t];
    assert path[0] == t;
  }

  // ----- what a failed operation leaves

  /** A replacement without a value, and a move that found its item: what they detach is
      gone when they fail. */
  ghost function Lost(doc: Json, op: string, path: string, value: Option<Json>, from: Option<Json>, cs: bool): Option<Detached> {
    if op == "replace" && path != [] && value == None then Detach(doc, path, cs)
    else if op == "move" && StringOf(from).Some? then Detach(doc, StringOf(from).value, cs)
    else None
  }

  /** What has been detached from a place can be put back there. */
  lemma PutBack(doc: Json, path: string, v: Json, cs: bool)
    requires Detach(doc, path, cs).Some?
    ensures AddAt(Detach(doc, path, cs).value.rest, path, v, cs).status == 0
  {
    hide Walk; hide Put; hide Tokens; hide Unescape; hide LastSlash; hide DropMember; hide IndexOf;
    var i := LastSlash(path);
    var up, child := Tokens(path[..i]), Unescape(path[i + 1..], 0, 0);
    var parent := Walk(doc, up, cs).value;
    GetAfterPut(doc, up, DetachChild(parent, child).value.rest, cs);
    DashIsNoIndex();
  }

  lemma DashIsNoIndex()
    ensures DecodeIndex("-") == None
  {
    assert Token("-") == "-" by { TokenOfToken("-"); }
  }

  function Size(j: Json): nat {
    match j
    case Array(items) => 1 + SizeItems(items)
    case Object(ms) => 1 + SizeMembers(ms)
    case _ => 1
  }

  function SizeItems(items: seq<Json>): nat {
    if items == [] then 0 else Size(items[0]) + SizeItems(items[1..])
  }

  function SizeMembers(ms: seq<Member>): nat {
    if ms == [] then 0 else Size(ms[0].value) + SizeMembers(ms[1..])
  }

  lemma {:induction false} SizeItemsAt(items: seq<Json>, i: nat, v: Json)
    requires i < |items|
    ensures SizeItems(items[i := v]) == SizeItems(items) - Size(items[i]) + Size(v)
    ensures SizeItems(RemoveAt(items, i)) == SizeItems(items) - Size(items[i])
  {
    hide Size;
    if i == 0 {
      assert items[i := v][1..] == items[1..] && RemoveAt(items, 0) == items[1..];
    } else {
      SizeItemsAt(items[1..], i - 1, v);
      assert items[i := v][1..] == items[1..][i - 1 := v];
      assert RemoveAt(items, i)[1..] == RemoveAt(items[1..], i - 1);
    }
  }

  lemma {:induction false} SizeMembersAt(ms: seq<Member>, i: nat, v: Json)
    requires i < |ms|
    ensures SizeMembers(ms[i := Member(ms[i].key, v)]) == SizeMembers(ms) - Size(ms[i].value) + Size(v)
    ensures SizeMembers(RemoveAt(ms, i)) == SizeMembers(ms) - Size(ms[i].value)
  {
    hide Size;
    var m := Member(ms[i].key, v);
    if i == 0 {
      assert ms[i := m][1..] == ms[1..] && RemoveAt(ms, 0) == ms[1..];
    } else {
      SizeMembersAt(ms[1..], i - 1, v);
      assert ms[i := m][1..] == ms[1..][i - 1 := m];
      assert RemoveAt(ms, i)[1..] == RemoveAt(ms[1..], i - 1);
    }
  }

  lemma SizeChild(j: Json, i: nat, v: Json)
    requires i < |Children(j)|
    ensures Size(SetChild(j, i, v)) == Size(j) - Size(Children(j)[i]) + Size(v)
  {
    hide SizeItems; hide SizeMembers;
    match j {
      case Array(items) => SizeItemsAt(items, i, v);
      case Object(ms) => SizeMembersAt(ms, i, v);
    }
  }

  lemma {:induction false} SizePut(j: Json, path: Path, v: Json, cs: bool)
    requires Walk(j, path, cs).Some?
    ensures Size(Put(j, path, v, cs)) == Size(j) - Size(Walk(j, path, cs).value) + Size(v)
    decreases |path|
  {
    hide Step; hide Size; hide SetChild; hide Children;
    if path != [] {
      var i := Step(j, path[0], cs).value;
      SizePut(Children(j)[i], path[1..], v, cs);
      SizeChild(j, i, Put(Children(j)[i], path[1..], v, cs));
    }
  }

  /** A document is smaller without what was detached from it. */
  lemma DetachShrinks(doc: Json, path: string, cs: bool)
    requires Detach(doc, path, cs).Some?
    ensures Size(Detach(doc, path, cs).value.rest) == Size(doc) - Size(Detach(doc, path, cs).value.item)
    ensures Detach(doc, path, cs).value.rest != doc
  {
    hide Walk; hide Put; hide Tokens; hide Unescape; hide LastSlash; hide IndexOf; hide DecodeIndex;
    var i := LastSlash(path);
    var up, child := Tokens(path[..i]), Unescape(path[i + 1..], 0, 0);
    var parent := Walk(doc, up, cs).value;
    var d := DetachChild(parent, child).value;
    SizePut(doc, up, d.rest, cs);
    match parent {
      case Array(items) => SizeItemsAt(items, DecodeIndex(child).value, Null);
      case Object(ms) => SizeMembersAt(ms, IndexOf(ms, child, false), Null);
    }
    assert Size(d.item) > 0;
  }

  /** An operation that fails leaves the document as it was, except exactly those that had
      already detached something: that is lost. */
  lemma FailedOperation(doc: Json, op: string, path: string, value: Option<Json>, from: Option<Json>, cs: bool)
    requires ApplyOperation(doc, op, path, value, from, cs).status != 0
    ensures var r, lost := ApplyOperation(doc, op, path, value, from, cs), Lost(doc, op, path, value, from, cs);
      && r.doc == (if lost.Some? then lost.value.rest else doc)
      && (r.doc == doc <==> lost == None)
  {
    hide Detach; hide GetItem; hide CompareJson; hide AddAt; hide Size;
    AddKeeps(doc, path, value, cs);
    if Detach(doc, path, cs).Some? {
      DetachShrinks(doc, path, cs);
      if value.Some? { PutBack(doc, path, value.value, cs); }
    }
    if StringOf(from).Some? {
      var d := Detach(doc, StringOf(from).value, cs);
      if d.Some? {
        DetachShrinks(doc, StringOf(from).value, cs);
        AddKeeps(d.value.rest, path, Some(d.value.item), cs);
      }
      AddKeeps(doc, path, GetItem(doc, StringOf(from).value, cs), cs);
    }
  }

  /** An addition that fails changes nothing. */
  lemma AddKeeps(doc: Json, path: string, v: Option<Json>, cs: bool)
    ensures v.Some? && AddAt(doc, path, v.value, cs).status != 0 ==> AddAt(doc, path, v.value, cs).doc == doc
  {
    hide Walk; hide Put; hide Tokens; hide Unescape; hide LastSlash; hide AddChild;
  }

  // ----- patches that ask for nothing that exists

  const OPERATIONS := {"test", "remove", "add", "replace", "move", "copy"}

  /** The statuses of a patch that lacks a part: its path, a known operation, a value, or
      the place to take from. The document stays. */
  lemma MalformedPatch(doc: Json, patch: Json, cs: bool)
    ensures var path, op, value, from := Member?(patch, "path", cs), Member?(patch, "op", cs),
                                         Member?(patch, "value", cs), Member?(patch, "from", cs);
      var r := ApplyPatch(doc, patch, cs);
      && (!(path.Some? && path.value.Text?) ==> r == Outcome(2, doc))
      && (path.Some? && path.value.Text? ==>
            && (!(op.Some? && op.value.Text? && op.value.text in OPERATIONS) ==> r == Outcome(3, doc))
            && (op == Some(Text("add")) && value == None ==> r == Outcome(7, doc))
            && ((op == Some(Text("move")) || op == Some(Text("copy"))) && from == None ==> r == Outcome(4, doc)))
  {
    hide Member?; hide Detach; hide AddAt; hide GetItem; hide CompareJson;
  }
}
