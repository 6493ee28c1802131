/** JSON Patch (RFC 6902): applying operations to a document. */
module Patching {
  import opened Keys
  import opened Trees
  import opened Pointers
  import opened Comparing

  datatype Outcome = Outcome(status: nat, doc: Json)

  // ----- one container

  datatype Detached = Detached(item: Json, rest: Json)

  /** Takes a child out of its container. A member is looked up ignoring case,
      whatever mode the caller asked for. */
  function DetachChild(parent: Json, child: string): Option<Detached> {
    match parent
    case Array(items) =>
      var index := DecodeIndex(child);
      if index.Some? && index.value < |items|
      then Some(Detached(items[index.value], Array(RemoveAt(items, index.value))))
      else None
    case Object(ms) =>
      var i := IndexOf(ms, child, false);
      if i < |ms| then Some(Detached(ms[i].value, Object(RemoveAt(ms, i)))) else None
    case _ => None
  }

  function AddChild(parent: Json, child: string, value: Json, caseSensitive: bool): Outcome {
    match parent
    case Array(items) =>
      if child == "-" then Outcome(0, Array(items + [value]))
      else
        var index := DecodeIndex(child);
        if index == None then Outcome(11, parent)
        else if index.value > |items| then Outcome(10, parent)
        else Outcome(0, Array(InsertAt(items, index.value, value)))
    case Object(ms) => Outcome(0, Object(DropMember(ms, child, caseSensitive) + [Member(child, value)]))
    case _ => Outcome(9, parent)
  }

  // ----- a container inside a document

  /** The position of the last slash, or -1. */
  function LastSlash(path: string): (i: int)
    ensures -1 <= i < |path|
    ensures i >= 0 ==> path[i] == '/'
    ensures forall k :: i < k < |path| ==> path[k] != '/'
  {
    if path == [] then -1
    else if path[|path| - 1] == '/' then |path| - 1
    else LastSlash(path[..|path| - 1])
  }

  function Detach(doc: Json, path: string, caseSensitive: bool): Option<Detached> {
    var i := LastSlash(path);
    if i < 0 then None
    else
      var up := Tokens(path[..i]);
      var parent := Walk(doc, up, caseSensitive);
      if parent == None then None
      else
        var d := DetachChild(parent.value, Unescape(path[i + 1..], 0, 0));
        if d == None then None
        else Some(Detached(d.value.item, Put(doc, up, d.value.rest, caseSensitive)))
  }

  function AddAt(doc: Json, path: string, value: Json, caseSensitive: bool): Outcome {
    var i := LastSlash(path);
    if i < 0 then Outcome(9, doc)
    else
      var up := Tokens(path[..i]);
      var parent := Walk(doc, up, caseSensitive);
      if parent == None then Outcome(9, doc)
      else
        var r := AddChild(parent.value, Unescape(path[i + 1..], 0, 0), value, caseSensitive);
        if r.status != 0 then Outcome(r.status, doc)
        else Outcome(0, Put(doc, up, r.doc, caseSensitive))
  }

  // ----- one operation

  function Member?(j: Json, name: string, caseSensitive: bool): Option<Json> {
    if j.Object? then
      var i := IndexOf(j.members, name, caseSensitive);
      if i < |j.members| then Some(j.members[i].value) else None
    else None
  }

  /** The string an item carries, if it carries one. */
  function StringOf(j: Option<Json>): Option<string> {
    match j
    case Some(Text(t)) => Some(t)
    case Some(Raw(t)) => Some(t)
    case _ => None
  }

  function ApplyPatch(doc: Json, patch: Json, caseSensitive: bool): Outcome {
    var path := Member?(patch, "path", caseSensitive);
    if !(path.Some? && path.value.Text?) then Outcome(2, doc)
    else
      var op := Member?(patch, "op", caseSensitive);
      var name := if op.Some? && op.value.Text? then op.value.text else "";
      var value := Member?(patch, "value", caseSensitive);
      var from := Member?(patch, "from", caseSensitive);
      ApplyOperation(doc, name, path.value.text, value, from, caseSensitive)
  }

  function ApplyOperation(doc: Json, op: string, path: string, value: Option<Json>, from: Option<Json>,
                          caseSensitive: bool): Outcome
  {
    match op
    case "test" =>
      var item := GetItem(doc, path, caseSensitive);
      Outcome(if item.Some? && value.Some? && CompareJson(item.value, value.value, caseSensitive) then 0 else 1, doc)
    case "remove" => RemoveOperation(doc, path, caseSensitive)
    case "add" =>
      if value == None then Outcome(7, doc)
      else if path == [] then Outcome(0, value.value)
      else AddAt(doc, path, value.value, caseSensitive)
    case "replace" =>
      if path == [] then (if value == None then Outcome(7, doc) else Outcome(0, value.value))
      else
        var d := Detach(doc, path, caseSensitive);
        if d == None then Outcome(13, doc)
        else if value == None then Outcome(7, d.value.rest)
        else AddAt(d.value.rest, path, value.value, caseSensitive)
    case "move" =>
      if from == None then Outcome(4, doc)
      else if StringOf(from) == None then Outcome(5, doc)
      else
        var d := Detach(doc, StringOf(from).value, caseSensitive);
        if d == None then Outcome(5, doc)
        else AddAt(d.value.rest, path, d.value.item, caseSensitive)
    case "copy" =>
      if from == None then Outcome(4, doc)
      else if StringOf(from) == None then Outcome(5, doc)
      else
        var item := GetItem(doc, StringOf(from).value, caseSensitive);
        if item == None then Outcome(5, doc)
        else AddAt(doc, path, item.value, caseSensitive)
    case _ => Outcome(3, doc)
  }

  function RemoveOperation(doc: Json, path: string, caseSensitive: bool): Outcome {
    if path == [] then Outcome(0, Invalid)
    else
      var d := Detach(doc, path, caseSensitive);
      if d == None then Outcome(13, doc) else Outcome(0, d.value.rest)
  }

  /** The operations in order, stopping at the first that fails. */
  function ApplyAll(doc: Json, patches: seq<Json>, caseSensitive: bool): Outcome
    decreases |patches|
  {
    if patches == [] then Outcome(0, doc)
    else
      var r := ApplyPatch(doc, patches[0], caseSensitive);
      if r.status != 0 then r else ApplyAll(r.doc, patches[1..], caseSensitive)
  }

  lemma {:induction false} ApplyAllConcat(doc: Json, a: seq<Json>, b: seq<Json>, caseSensitive: bool)
    ensures ApplyAll(doc, a + b, caseSensitive) ==
            var r := ApplyAll(doc, a, caseSensitive);
            if r.status != 0 then r else ApplyAll(r.doc, b, caseSensitive)
    decreases |a|
  {
    hide ApplyPatch;
    if a == [] {
      assert a + b == b;
    } else {
      assert (a + b)[1..] == a[1..] + b;
      var r := ApplyPatch(doc, a[0], caseSensitive);
      if r.status == 0 { ApplyAllConcat(r.doc, a[1..], b, caseSensitive); }
    }
  }

  // ----- the operations against each other (RFC 6902, section 4)

  /** A move is a removal followed by an addition of what was removed, unless it
      moves to the root: an addition may replace the whole document, a move fails. */
  lemma MoveIsRemoveThenAdd(doc: Json, path: string, from: string, caseSensitive: bool)
    requires from != [] && Detach(doc, from, caseSensitive).Some?
    ensures var removed := ApplyOperation(doc, "remove", from, None, None, caseSensitive);
            var item := Detach(doc, from, caseSensitive).value.item;
            && removed.status == 0
            && (path != [] <==> ApplyOperation(doc, "move", path, None, Some(Text(from)), caseSensitive)
                                == ApplyOperation(removed.doc, "add", path, Some(item), None, caseSensitive))
  {
    hide Detach; hide AddAt;
    assert LastSlash([]) == -1;
    AddAtRoot(Detach(doc, from, caseSensitive).value.rest, Detach(doc, from, caseSensitive).value.item, caseSensitive);
  }

  lemma AddAtRoot(doc: Json, value: Json, caseSensitive: bool)
    ensures AddAt(doc, [], value, caseSensitive) == Outcome(9, doc)
  {
    hide Walk; hide Tokens;
  }

  /** A copy adds what a pointer finds, under the same proviso. */
  lemma CopyIsGetThenAdd(doc: Json, path: string, from: string, caseSensitive: bool)
    requires GetItem(doc, from, caseSensitive).Some?
    ensures path != [] <==> ApplyOperation(doc, "copy", path, None, Some(Text(from)), caseSensitive)
                            == ApplyOperation(doc, "add", path, GetItem(doc, from, caseSensitive), None, caseSensitive)
  {
    hide GetItem; hide AddAt;
    AddAtRoot(doc, GetItem(doc, from, caseSensitive).value, caseSensitive);
  }

  /** A replacement is a removal followed by an addition at the same place. */
  lemma ReplaceIsRemoveThenAdd(doc: Json, path: string, value: Json, caseSensitive: bool)
    requires path != []
    ensures var removed := ApplyOperation(doc, "remove", path, None, None, caseSensitive);
            ApplyOperation(doc, "replace", path, Some(value), None, caseSensitive)
            == if removed.status != 0 then Outcome(13, doc)
               else ApplyOperation(removed.doc, "add", path, Some(value), None, caseSensitive)
  {
    hide Detach; hide AddAt;
  }

  /** A test succeeds exactly when the item is there and has the given value. */
  lemma TestDecides(doc: Json, path: string, value: Json, keys: iset<string>, caseSensitive: bool)
    requires Keyed(value, keys) && Separate(keys, caseSensitive)
    requires GetItem(doc, path, caseSensitive).Some? ==> Keyed(GetItem(doc, path, caseSensitive).value, keys)
    ensures var item := GetItem(doc, path, caseSensitive);
            ApplyOperation(doc, "test", path, Some(value), None, caseSensitive)
            == Outcome(if item.Some? && Denote(item.value) == Denote(value) then 0 else 1, doc)
  {
    hide CompareJson; hide GetItem; hide Denote; hide Separate; hide Keyed;
    var item := GetItem(doc, path, caseSensitive);
    if item.Some? { CompareDenotes(item.value, value, keys, caseSensitive); }
  }

  // ----- a document changed in place

  class Document {
    var root: Json

    constructor (root: Json)
      ensures this.root == root
    {
      this.root := root;
    }

    method DetachPath(path: string, caseSensitive: bool) returns (item: Option<Json>)
      modifies this
      ensures match Detach(old(root), path, caseSensitive)
              case None => item == None && root == old(root)
              case Some(d) => item == Some(d.item) && root == d.rest
    {
      hide Walk; hide Put; hide Tokens; hide DetachChild; hide Unescape; hide LastSlash;
      var i := LastSlash(path);
      if i < 0 {
        return None;
      }
      var parent := GetItemFromPointer(root, path[..i], caseSensitive);
      if parent == None {
        return None;
      }
      var d := DetachChild(parent.value, Unescape(path[i + 1..], 0, 0));
      if d == None {
        return None;
      }
      root := Put(root, Tokens(path[..i]), d.value.rest, caseSensitive);
      item := Some(d.value.item);
    }

    method AddPath(path: string, value: Json, caseSensitive: bool) returns (status: nat)
      modifies this
      ensures Outcome(status, root) == AddAt(old(root), path, value, caseSensitive)
    {
      hide Walk; hide Put; hide Tokens; hide AddChild; hide Unescape; hide LastSlash;
      var i := LastSlash(path);
      if i < 0 {
        return 9;
      }
      var parent := GetItemFromPointer(root, path[..i], caseSensitive);
      if parent == None {
        return 9;
      }
      var r := AddChild(parent.value, Unescape(path[i + 1..], 0, 0), value, caseSensitive);
      status := r.status;
      if status == 0 {
        root := Put(root, Tokens(path[..i]), r.doc, caseSensitive);
      }
    }

    /** One operation: the same exits, in the same order, as the patch interpreter. */
    method Apply(patch: Json, caseSensitive: bool) returns (status: nat)
      modifies this
      ensures Outcome(status, root) == ApplyPatch(old(root), patch, caseSensitive)
    {
      hide Member?; hide Detach; hide AddAt; hide GetItem; hide CompareJson;
      var path := Member?(patch, "path", caseSensitive);
      if !(path.Some? && path.value.Text?) {
        return 2;
      }
      var op := Member?(patch, "op", caseSensitive);
      var name := if op.Some? && op.value.Text? then op.value.text else "";
      status := Operate(name, path.value.text, Member?(patch, "value", caseSensitive),
                        Member?(patch, "from", caseSensitive), caseSensitive);
    }

    method Operate(op: string, path: string, operand: Option<Json>, from: Option<Json>, caseSensitive: bool)
      returns (status: nat)
      modifies this
      ensures Outcome(status, root) == ApplyOperation(old(root), op, path, operand, from, caseSensitive)
    {
      hide Detach; hide AddAt; hide GetItem; hide CompareJson; hide StringOf;
      if op !in {"test", "remove", "add", "replace", "move", "copy"} {
        return 3;
      }
      if op == "test" {
        var item := GetItemFromPointer(root, path, caseSensitive);
        if item == None || operand == None {
          return 1;
        }
        var same := CompareTrees(item.value, operand.value, caseSensitive);
        return if same then 0 else 1;
      }
      if path == [] && op in {"remove", "replace", "add"} {
        if op == "remove" {
          root := Invalid;
          return 0;
        }
        if operand == None {
          return 7;
        }
        root := operand.value;
        return 0;
      }
      if op == "remove" || op == "replace" {
        var old_item := DetachPath(path, caseSensitive);
        if old_item == None {
          return 13;
        }
        if op == "remove" {
          return 0;
        }
      }
      var value := operand;
      if op == "move" || op == "copy" {
        if from == None {
          return 4;
        }
        value := None;
        if StringOf(from).Some? {
          if op == "move" {
            value := DetachPath(StringOf(from).value, caseSensitive);
          } else {
            value := GetItemFromPointer(root, StringOf(from).value, caseSensitive);
          }
        }
        if value == None {
          return 5;
        }
      } else if value == None {
        return 7;
      }
      status := AddPath(path, value.value, caseSensitive);
    }

    method ApplyPatches(patches: Json, caseSensitive: bool) returns (status: nat)
      modifies this
      ensures !patches.Array? ==> status == 1 && root == old(root)
      ensures patches.Array? ==> Outcome(status, root) == ApplyAll(old(root), patches.items, caseSensitive)
    {
      hide ApplyPatch;
      if !patches.Array? {
        return 1;
      }
      var i := 0;
      while i < |patches.items|
        invariant 0 <= i <= |patches.items|
        invariant ApplyAll(old(root), patches.items, caseSensitive) == ApplyAll(root, patches.items[i..], caseSensitive)
      {
        status := Apply(patches.items[i], caseSensitive);
        if status != 0 {
          return;
        }
        i := i + 1;
      }
      status := 0;
    }
  }
}
