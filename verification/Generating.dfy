/** The patch generator as it runs: loops that append to one array of operations. */
module Generating {
  import opened Digits
  import opened Keys
  import opened Trees
  import opened Pointers
  import opened Comparing
  import opened Patching
  import opened Diffing

  lemma Regroup(done: seq<Json>, a: seq<Json>, b: seq<Json>)
    ensures done + (a + b) == done + a + b
  {
  }

  lemma DiffItemsUnfold(path: string, fs: seq<Json>, ts: seq<Json>, index: nat, caseSensitive: bool, stale: Memory)
    ensures DiffItems(path, fs, ts, index, caseSensitive, stale) ==
            if fs != [] && ts != [] then
              Diff(path + "/" + DecimalText(index), fs[0], ts[0], caseSensitive, stale)
              + DiffItems(path, fs[1..], ts[1..], index + 1, caseSensitive, stale)
            else if fs != [] then
              [Compose("remove", SubPath(path, DecimalText(index), stale), None)]
              + DiffItems(path, fs[1..], ts, index, caseSensitive, stale)
            else if ts != [] then
              [Compose("add", SubPath(path, "-", stale), Some(ts[0]))]
              + DiffItems(path, fs, ts[1..], index + 1, caseSensitive, stale)
            else []
  {
    hide Compose; hide SubPath; hide Diff;
  }

  lemma DiffMembersUnfold(path: string, fs: seq<Member>, ts: seq<Member>, caseSensitive: bool, stale: Memory, parent: Json, diff: int)
    requires Under(fs, parent)
    requires diff == if fs == [] then 1 else if ts == [] then -1 else Compare(fs[0].key, ts[0].key, caseSensitive)
    ensures DiffMembers(path, fs, ts, caseSensitive, stale, parent) ==
            if fs == [] && ts == [] then []
            else if diff == 0 then
              Diff(SubPath(path, fs[0].key, stale), fs[0].value, ts[0].value, caseSensitive, stale)
              + DiffMembers(path, fs[1..], ts[1..], caseSensitive, stale, parent)
            else if diff < 0 then
              [Compose("remove", SubPath(path, fs[0].key, stale), None)]
              + DiffMembers(path, fs[1..], ts, caseSensitive, stale, parent)
            else
              [Compose("add", SubPath(path, ts[0].key, stale), Some(ts[0].value))]
              + DiffMembers(path, fs, ts[1..], caseSensitive, stale, parent)
  {
    hide Compose; hide SubPath; hide Diff; hide Compare;
  }

  lemma UpToNulEnds(s: string, t: string)
    ensures UpToNul(s + "\0" + t) == UpToNul(s)
  {
    var c := UpToNul(s);
    if |c| < |s| {
      assert s + "\0" + t == c + (s[|c|..] + "\0" + t) && s[|c|] == '\0';
    } else {
      assert s + "\0" + t == c + ("\0" + t);
    }
    UpToNulConcat(c, (s + "\0" + t)[|c|..]);
    assert s + "\0" + t == c + (s + "\0" + t)[|c|..];
  }

  /** Copies a text into a buffer and ends it with a NUL. */
  method PutText(buffer: array<char>, text: string, ghost stale: Memory)
    requires |text| < buffer.Length && forall i :: 0 <= i < buffer.Length ==> buffer[i] == stale(i)
    modifies buffer
    ensures buffer[..|text|] == text
    ensures forall i :: |text| <= i < buffer.Length ==> buffer[i] == Begun(stale, |text|)(i)
  {
    var i := 0;
    while i < |text|
      invariant 0 <= i <= |text|
      invariant forall k :: 0 <= k < buffer.Length ==> buffer[k] == if k < i then text[k] else stale(k)
    {
      buffer[i] := text[i];
      i := i + 1;
    }
    buffer[i] := '\0';
  }

  /** What a buffer holding a path, a slash, an encoded key and a NUL reads as. */
  lemma PathText(b: string, path: string, e: string)
    requires '\0' !in path && |b| == |path| + |e| + 2
    requires b[..|path| + 1] == path + "/" && b[|path| + 1..|b| - 1] == e && b[|b| - 1] == '\0'
    ensures UpToNul(b) == path + "/" + UpToNul(e)
  {
    assert b == (path + "/") + (e + "\0" + []);
    UpToNulConcat(path + "/", e + "\0" + []);
    UpToNulEnds(e, []);
  }

  lemma PathTokens(path: string, suffix: string, stale: Memory)
    requires Plain(suffix) && StartsPointer(path)
    ensures Tokens(SubPath(path, suffix, stale)) == Tokens(path) + [suffix]
  {
    hide Tokens; hide SubPath;
    SubPathPlain(path, suffix, stale);
    TokensSnoc(path, suffix);
  }

  /** The path of a child, written into fresh memory of the length reserved for it. */
  method WritePath(path: string, suffix: string, stale: Memory) returns (full: string)
    requires '\0' !in path
    ensures full == SubPath(path, suffix, stale) && '\0' !in full
    ensures Plain(suffix) && StartsPointer(path) ==> Tokens(full) == Tokens(path) + [suffix]
  {
    hide Tokens; hide Encode; hide EncodedLength; hide Plain; hide StartsPointer;
    var length := PointerEncodedLength(suffix);
    var at := |path| + 1;
    var buffer := new char[at + length + 1]((i: int) requires 0 <= i => stale(i));
    PutText(buffer, path + "/", stale);
    EncodeStringAsPointer(buffer, at, suffix, Begun(stale, at));
    full := UpToNul(buffer[..]);
    PathText(buffer[..], path, Encode(suffix, Begun(stale, at), at));
    if Plain(suffix) && StartsPointer(path) { PathTokens(path, suffix, stale); }
  }

  lemma IndexHasNoNul(n: nat)
    ensures '\0' !in DecimalText(n)
  {
  }

  /** The array the generator appends its operations to. */
  class PatchArray {
    var items: seq<Json>

    constructor ()
      ensures items == []
    {
      items := [];
    }

    /** Appends one operation. Read back by the interpreter it is that operation, and
        a plain suffix is one more token of its path. */
    method ComposePatch(op: string, path: string, suffix: Option<string>, value: Option<Json>, stale: Memory)
      returns (full: string)
      requires '\0' !in path
      modifies this
      ensures items == old(items) + [Compose(op, full, value)]
      ensures full == if suffix.Some? then SubPath(path, suffix.value, stale) else path
      ensures suffix.Some? && Plain(suffix.value) && StartsPointer(path) ==> Tokens(full) == Tokens(path) + [suffix.value]
      ensures forall doc, caseSensitive ::
                ApplyPatch(doc, items[|old(items)|], caseSensitive) == ApplyOperation(doc, op, full, value, None, caseSensitive)
    {
      hide Compose; hide ApplyPatch; hide ApplyOperation; hide SubPath; hide Plain; hide Tokens;
      full := path;
      if suffix.Some? {
        full := WritePath(path, suffix.value, stale);
      }
      items := items + [Compose(op, full, value)];
      forall doc, caseSensitive { ComposeApplies(doc, op, full, value, caseSensitive); }
    }

    method CreatePatches(path: string, from: Json, to: Json, caseSensitive: bool, stale: Memory)
      requires '\0' !in path
      modifies this
      ensures items == old(items) + Diff(path, from, to, caseSensitive, stale)
      decreases from, 1, 0
    {
      hide Compose;
      if TypeOf(from) != TypeOf(to) {
        var _ := ComposePatch("replace", path, None, Some(to), stale);
        return;
      }
      match from {
        case Number(n) =>
          if n != to.num {
            var _ := ComposePatch("replace", path, None, Some(to), stale);
          }
        case Text(t) =>
          if t != to.text {
            var _ := ComposePatch("replace", path, None, Some(to), stale);
          }
        case Array(fs) => ComparePairs(path, fs, to.items, caseSensitive, stale);
        case Object(ms) =>
          MembersUnder(from);
          MergeWalk(path, SortMembers(ms, caseSensitive), SortMembers(to.members, caseSensitive), caseSensitive, stale, from);
        case _ =>
      }
    }

    method ComparePairs(path: string, fs: seq<Json>, ts: seq<Json>, caseSensitive: bool, stale: Memory)
      requires '\0' !in path
      modifies this
      ensures items == old(items) + DiffItems(path, fs, ts, 0, caseSensitive, stale)
      decreases fs, 0, |ts|
    {
      hide Compose; hide Diff; hide DiffItems; hide SubPath; hide DecimalText;
      var fromChild, toChild, index := fs, ts, 0;
      ghost var goal := items + DiffItems(path, fs, ts, 0, caseSensitive, stale);
      while fromChild != [] && toChild != []
        invariant items + DiffItems(path, fromChild, toChild, index, caseSensitive, stale) == goal
        invariant |fromChild| <= |fs| && fromChild == fs[|fs| - |fromChild|..]
        decreases |fromChild|
      {
        DiffItemsUnfold(path, fromChild, toChild, index, caseSensitive, stale);
        Regroup(items, Diff(path + "/" + DecimalText(index), fromChild[0], toChild[0], caseSensitive, stale),
                DiffItems(path, fromChild[1..], toChild[1..], index + 1, caseSensitive, stale));
        IndexHasNoNul(index);
        CreatePatches(path + "/" + DecimalText(index), fromChild[0], toChild[0], caseSensitive, stale);
        fromChild, toChild, index := fromChild[1..], toChild[1..], index + 1;
      }
      while fromChild != []
        invariant items + DiffItems(path, fromChild, toChild, index, caseSensitive, stale) == goal
        invariant fromChild != [] ==> toChild == []
        decreases |fromChild|
      {
        DiffItemsUnfold(path, fromChild, toChild, index, caseSensitive, stale);
        Regroup(items, [Compose("remove", SubPath(path, DecimalText(index), stale), None)],
                DiffItems(path, fromChild[1..], toChild, index, caseSensitive, stale));
        var _ := ComposePatch("remove", path, Some(DecimalText(index)), None, stale);
        fromChild := fromChild[1..];
      }
      while toChild != []
        invariant items + DiffItems(path, [], toChild, index, caseSensitive, stale) == goal
        decreases |toChild|
      {
        DiffItemsUnfold(path, [], toChild, index, caseSensitive, stale);
        Regroup(items, [Compose("add", SubPath(path, "-", stale), Some(toChild[0]))],
                DiffItems(path, [], toChild[1..], index + 1, caseSensitive, stale));
        var _ := ComposePatch("add", path, Some("-"), Some(toChild[0]), stale);
        toChild, index := toChild[1..], index + 1;
      }
      DiffItemsUnfold(path, [], [], index, caseSensitive, stale);
    }

    method MergeWalk(path: string, fs: seq<Member>, ts: seq<Member>, caseSensitive: bool, stale: Memory, ghost parent: Json)
      requires Under(fs, parent) && '\0' !in path
      modifies this
      ensures items == old(items) + DiffMembers(path, fs, ts, caseSensitive, stale, parent)
      decreases parent, 0, 0
    {
      hide Compose; hide Diff; hide SubPath; hide Compare; hide DiffMembers;
      var fromChild, toChild := fs, ts;
      ghost var goal := items + DiffMembers(path, fs, ts, caseSensitive, stale, parent);
      while fromChild != [] || toChild != []
        invariant Under(fromChild, parent)
        invariant items + DiffMembers(path, fromChild, toChild, caseSensitive, stale, parent) == goal
        decreases |fromChild| + |toChild|
      {
        var diff;
        if fromChild == [] {
          diff := 1;
        } else if toChild == [] {
          diff := -1;
        } else {
          diff := CompareStrings(fromChild[0].key, toChild[0].key, caseSensitive);
        }
        DiffMembersUnfold(path, fromChild, toChild, caseSensitive, stale, parent, diff);
        if diff == 0 {
          Regroup(items, Diff(SubPath(path, fromChild[0].key, stale), fromChild[0].value, toChild[0].value, caseSensitive, stale),
                  DiffMembers(path, fromChild[1..], toChild[1..], caseSensitive, stale, parent));
          var newPath := WritePath(path, fromChild[0].key, stale);
          CreatePatches(newPath, fromChild[0].value, toChild[0].value, caseSensitive, stale);
          fromChild, toChild := fromChild[1..], toChild[1..];
        } else if diff < 0 {
          Regroup(items, [Compose("remove", SubPath(path, fromChild[0].key, stale), None)],
                  DiffMembers(path, fromChild[1..], toChild, caseSensitive, stale, parent));
          var _ := ComposePatch("remove", path, Some(fromChild[0].key), None, stale);
          fromChild := fromChild[1..];
        } else {
          Regroup(items, [Compose("add", SubPath(path, toChild[0].key, stale), Some(toChild[0].value))],
                  DiffMembers(path, fromChild, toChild[1..], caseSensitive, stale, parent));
          var _ := ComposePatch("add", path, Some(toChild[0].key), Some(toChild[0].value), stale);
          toChild := toChild[1..];
        }
      }
      DiffMembersUnfold(path, [], [], caseSensitive, stale, parent, 1);
    }
  }
}
