/** What the patch generator and the patch interpreter do outside the conditions
    of `Diffing.Patchable`. */
module DiffLimits {
  import opened Keys
  import opened Trees
  import opened Pointers
  import opened Sorting
  import opened Comparing
  import opened Patching
  import opened Diffing

  lemma SortedAlready(ms: seq<Member>)
    requires |ms| <= 1 || Strict(ms, KeyOf, true)
    ensures SortMembers(ms, true) == ms
  {
  }

  lemma DiffNone(stale: Memory, parent: Json)
    ensures DiffMembers("", [], [], true, stale, parent) == []
  {
  }

  lemma RemoveOnly(f: Member, stale: Memory, parent: Json)
    requires f.value < parent
    ensures DiffMembers("", [f], [], true, stale, parent) == [Compose("remove", SubPath("", f.key, stale), None)]
  {
    hide Compose; hide SubPath;
    DiffNone(stale, parent);
    assert [f][1..] == [];
  }

  lemma EncodeTilde(stale: Memory)
    ensures SubPath("", "~b", stale) == "/~1b"
  {
    assert "~b"[1..] == "b";
    EncodePlain("b", Begun(stale, 1), 3);
    assert Encode("~b", Begun(stale, 1), 1) == "~1" + "b" == "~1b";
    UpToNulConcat("~1b", []);
    assert "~1b" + [] == "~1b";
  }

  lemma UnescapeTilde()
    ensures Unescape("~1b", 0, 0) == "~/"
  {
    assert "~1b"[1 := '/'] == "~/b";
    assert Unescape("~/b", 2, 1) == Unescape("~/b", 3, 2);
  }

  lemma NotFound()
    ensures DetachChild(Object([Member("~b", Null)]), "~/") == None
  {
    assert Fold("~/")[1] == '/' && Fold("~b")[1] == 'b';
  }

  /** A key with a tilde: the generated path does not lead back to it. */
  lemma TildeKeyFails(stale: Memory)
    ensures var from, to := Object([Member("~b", Null)]), Object([]);
            ApplyAll(from, Diff("", from, to, true, stale), true).status == 13
  {
    hide Encode; hide Unescape; hide SortMembers; hide DiffMembers; hide ApplyAll; hide ApplyPatch; hide Compose;
    hide DetachChild; hide LastSlash;
    var from, to := Object([Member("~b", Null)]), Object([]);
    var op := Compose("remove", "/~1b", None);
    MembersUnder(from);
    SortedAlready(from.members);
    SortedAlready([]);
    EncodeTilde(stale);
    RemoveOnly(from.members[0], stale, from);
    assert Diff("", from, to, true, stale) == [op];
    LastSlashIs("/~1b", 0);
    assert "/~1b"[..0] == "" && "/~1b"[1..] == "~1b";
    UnescapeTilde();
    NotFound();
    assert Detach(from, "/~1b", true) == None;
    ComposeApplies(from, "remove", "/~1b", None, true);
    ApplyOne(from, op, true);
  }

  lemma ClashDiff(stale: Memory)
    ensures var from, to := Object([Member("A", Null), Member("a", Null)]), Object([Member("A", Null)]);
            Diff("", from, to, true, stale) == [Compose("remove", "/a", None)]
  {
    hide Compose; hide Compare; hide SortMembers; hide Encode; hide DiffMembers;
    var from, to := Object([Member("A", Null), Member("a", Null)]), Object([Member("A", Null)]);
    MembersUnder(from);
    assert Compare("A", "a", true) < 0 by { CompareLetters(); }
    SortedAlready(from.members);
    SortedAlready(to.members);
    SubPathPlain("", "a", stale);
    assert "" + "/" + "a" == "/a";
    RemoveOnly(from.members[1], stale, from);
    DiffSameHead(from.members, to.members, stale, from);
    assert from.members[1..] == [from.members[1]] && to.members[1..] == [];
  }

  lemma CompareLetters()
    ensures Compare("A", "a", true) < 0
  {
  }

  lemma DiffSameHead(fs: seq<Member>, ts: seq<Member>, stale: Memory, parent: Json)
    requires fs != [] && ts != [] && fs[0] == ts[0] && fs[0].value == Null && Under(fs, parent)
    ensures DiffMembers("", fs, ts, true, stale, parent) == DiffMembers("", fs[1..], ts[1..], true, stale, parent)
  {
    hide Compare; hide SubPath;
    CompareZero(fs[0].key, ts[0].key);
    assert Diff(SubPath("", fs[0].key, stale), Null, Null, true, stale) == [];
  }

  /** Two keys that differ only in case: the removal takes the wrong one, and
      still reports success. */
  lemma CaseClashFails(stale: Memory)
    ensures var from, to := Object([Member("A", Null), Member("a", Null)]), Object([Member("A", Null)]);
            ApplyAll(from, Diff("", from, to, true, stale), true) == Outcome(0, Object([Member("a", Null)]))
  {
    hide Diff; hide ApplyAll; hide ApplyPatch; hide Compose; hide DetachChild; hide Detach; hide Fold; hide IndexOf; hide Walk;
    var from := Object([Member("A", Null), Member("a", Null)]);
    ClashDiff(stale);
    ComposeApplies(from, "remove", "/a", None, true);
    assert "" + "/" + "a" == "/a";
    assert Walk(from, Tokens(""), true) == Some(from) by { TokensEmpty(""); WalkEmpty(from, true); }
    assert Put(from, Tokens(""), Object([Member("a", Null)]), true) == Object([Member("a", Null)]);
    DetachAt(from, "", "a", from, true);
    ClashDetach();
    ApplyOne(from, Compose("remove", "/a", None), true);
  }

  lemma ClashDetach()
    ensures DetachChild(Object([Member("A", Null), Member("a", Null)]), "a")
         == Some(Detached(Null, Object([Member("a", Null)])))
  {
    var ms := [Member("A", Null), Member("a", Null)];
    assert Fold("A")[0] == 'a' == Fold("a")[0];
    assert Fold("A") == Fold("a");
    assert IndexOf(ms, "a", false) == 0;
    assert RemoveAt(ms, 0) == [Member("a", Null)];
  }

  /** Removing a member by name takes the member of that name exactly when no
      member before it has the same name but for its case. */
  lemma DetachExactly(ms: seq<Member>, k: string)
    requires Distinct(ms) && k in KeysOf(ms)
    ensures DetachChild(Object(ms), k).Some? && DetachChild(Object(ms), k).value.rest.Object?
    ensures Fields(DetachChild(Object(ms), k).value.rest.members) == Fields(ms) - {k} <==>
            forall i :: 0 <= i < IndexOf(ms, k, true) ==> Fold(ms[i].key) != Fold(k)
  {
    hide Denote; hide Fields; hide KeysOf; hide Distinct; hide IndexOf;
    var i, j := FirstIndices(ms, k);
    RemoveFields(ms, i);
    FieldsKeys(ms);
    if ms[i].key != k {
      assert k in Fields(ms) - {ms[i].key} && k !in Fields(ms) - {k};
    }
  }

  lemma FirstIndices(ms: seq<Member>, k: string) returns (i: nat, j: nat)
    requires k in KeysOf(ms)
    ensures i == IndexOf(ms, k, false) && j == IndexOf(ms, k, true)
    ensures i <= j < |ms| && ms[j].key == k && (ms[i].key == k <==> i == j)
    ensures i == j <==> forall n :: 0 <= n < j ==> Fold(ms[n].key) != Fold(k)
  {
    i, j := IndexOf(ms, k, false), IndexOf(ms, k, true);
    var m :| m in ms && m.key == k;
    var n :| 0 <= n < |ms| && ms[n] == m;
  }

  /** Raw items are never told apart: they compare equal, and no operation is generated. */
  lemma RawUnseen(path: string, a: string, b: string, caseSensitive: bool, stale: Memory)
    ensures CompareJson(Raw(a), Raw(b), caseSensitive) && Diff(path, Raw(a), Raw(b), caseSensitive, stale) == []
  {
  }
}
