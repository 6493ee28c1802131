/** Generated merge patches on keys of mixed case. The members may be sorted ignoring
    case, but the generator walks them in byte order, so the two lists can get out of
    step: a key that both objects have is then deleted and added, in whichever order
    the walk comes upon it. This module says what comes of that, for all keys that
    stay distinct when case is ignored. */
module MergeWalks {
  import opened Keys
  import opened Trees
  import opened Sorting
  import opened Comparing
  import opened Merging
  import opened MergePatches
  import opened MergeDiffing

  // ----- the walk over two lists of keys

  /** What the walk does about a key: nothing, a deletion, an addition, both in one
      order or the other, or the two members side by side. */
  datatype Fate = Untouched | Removed | Added | DeletedFirst | AddedFirst | Paired

  function FateOf(fs: seq<string>, ts: seq<string>, k: string): (r: Fate)
    ensures k !in fs && k !in ts <==> r == Untouched
    ensures k in fs && k !in ts <==> r == Removed
    ensures k !in fs && k in ts ==> r == Added
    ensures r == Paired ==> k in fs && k in ts
    decreases |fs| + |ts|
  {
    if fs == [] && ts == [] then Untouched
    else
      var diff := if fs == [] then 1 else if ts == [] then -1 else Compare(fs[0], ts[0], true);
      if diff < 0 then
        if fs[0] != k then FateOf(fs[1..], ts, k) else if k in ts then DeletedFirst else Removed
      else if diff > 0 then
        if ts[0] != k then FateOf(fs, ts[1..], k) else if k in fs then AddedFirst else Added
      else
        SameKey(fs[0], ts[0]);
        if fs[0] != k then FateOf(fs[1..], ts[1..], k) else Paired
  }

  lemma SameKey(a: string, b: string)
    ensures Compare(a, b, true) == 0 <==> a == b
  {
    CompareZero(a, b);
  }

  function KeyList(ms: seq<Member>): (ks: seq<string>)
    ensures |ks| == |ms| && forall i :: 0 <= i < |ms| ==> ks[i] == ms[i].key
    ensures forall k :: k in ks <==> k in KeysOf(ms)
  {
    var ks := seq(|ms|, i requires 0 <= i < |ms| => ms[i].key);
    assert forall i :: 0 <= i < |ms| ==> ks[i] == ms[i].key && ms[i] in ms;
    ks
  }

  lemma KeyListTail(ms: seq<Member>)
    requires ms != []
    ensures KeyList(ms)[1..] == KeyList(ms[1..]) && KeyList(ms)[0] == ms[0].key
  {
  }

  function MemberFate(fs: seq<Member>, ts: seq<Member>, k: string): Fate {
    FateOf(KeyList(fs), KeyList(ts), k)
  }

  // ----- the condition

  /** When the generated patch leads from one tree to another. */
  ghost predicate Leads(from: Json, wanted: Json, caseSensitive: bool)
    decreases from, 1
  {
    if from.Object? && wanted.Object? then
      MembersUnder(from);
      var fs, ts := SortMembers(from.members, caseSensitive), SortMembers(wanted.members, caseSensitive);
      forall k :: k in KeysOf(ts) ==> Arrives(fs, ts, k, from)
    else Reachable(None, Denote(wanted))
  }

  /** A key met on both sides at once is patched in place. Any other key of the new
      object is written whole, which no null survives, and must not be deleted after
      that. */
  ghost predicate Arrives(fs: seq<Member>, ts: seq<Member>, k: string, parent: Json)
    requires Under(fs, parent) && k in KeysOf(ts)
    decreases parent, 0
  {
    var t := Find(ts, k).value;
    match MemberFate(fs, ts, k)
    case AddedFirst => false
    case Paired =>
      FateKeys(fs, ts, k);
      var f := Find(fs, k).value;
      Denote(f) == Denote(t) || (!t.Null? && Leads(f, t, false))
    case _ => !t.Null? && Reachable(None, Denote(t))
  }

  // ----- one member of the patch

  ghost predicate Own(ms: seq<Member>, all: iset<string>) {
    Distinct(ms) && forall m :: m in ms ==> m.key in all
  }

  /** The lookup finds the member of exactly that name. */
  lemma OwnIndex(ms: seq<Member>, k: string, all: iset<string>, caseSensitive: bool)
    requires Own(ms, all) && k in all && Separate(all, caseSensitive)
    ensures IndexOf(ms, k, caseSensitive) == IndexOf(ms, k, true)
  {
    var i, j := IndexOf(ms, k, caseSensitive), IndexOf(ms, k, true);
    assert i < |ms| ==> ms[i] in ms && ms[i].key == k;
    assert j < |ms| ==> ms[j] in ms && ms[j].key == k;
  }

  lemma OwnDrop(ms: seq<Member>, k: string, all: iset<string>, caseSensitive: bool)
    requires Own(ms, all) && k in all && Separate(all, caseSensitive)
    ensures Own(DropMember(ms, k, caseSensitive), all)
    ensures Fields(DropMember(ms, k, caseSensitive)) == Fields(ms) - {k}
    ensures forall m :: m in DropMember(ms, k, caseSensitive) <==> m in ms && m.key != k
    ensures Take(ms, k, caseSensitive) == Find(ms, k)
  {
    hide IndexOf; hide Separate; hide Denote;
    OwnIndex(ms, k, all, caseSensitive);
    ExactIndex(ms, k);
    FieldsKeys(ms);
    var i := IndexOf(ms, k, true);
    if i < |ms| {
      RemoveMembers(ms, i);
      RemoveFields(ms, i);
    } else {
      assert Fields(ms) - {k} == Fields(ms);
      assert forall m :: m in ms ==> m.key in KeysOf(ms);
    }
  }

  /** One member of a patch touches the member of its name and no other. */
  ghost predicate Effect(ms: seq<Member>, ms': seq<Member>, k: string, v: Option<Value>, all: iset<string>) {
    && Own(ms', all)
    && (forall q :: Get(Fields(ms'), q) == if q == k then v else Get(Fields(ms), q))
    && (forall m :: m in ms && m.key != k ==> m in ms')
  }

  lemma MemberEffect(ms: seq<Member>, p: Member, all: iset<string>, caseSensitive: bool)
    requires Own(ms, all) && p.key in all && Separate(all, caseSensitive)
    ensures Effect(ms, MergeMember(ms, p, caseSensitive), p.key,
                   if p.value.Null? then None else Some(Denote(MergePatch(Find(ms, p.key), p.value, caseSensitive))), all)
  {
    hide MergePatch; hide DropMember; hide Take; hide Separate; hide Denote; hide Fields; hide Distinct;
    var rest := DropMember(ms, p.key, caseSensitive);
    OwnDrop(ms, p.key, all, caseSensitive);
    if !p.value.Null? {
      var m := Member(p.key, MergePatch(Find(ms, p.key), p.value, caseSensitive));
      assert m.key !in KeysOf(rest);
      AppendFields(rest, m);
    }
  }

  /** An effect on a member that nothing else is said about. */
  lemma NoEffect(ms: seq<Member>, k: string, v: Option<Value>, all: iset<string>)
    requires Own(ms, all) && v == Get(Fields(ms), k)
    ensures Effect(ms, ms, k, v, all)
  {
  }

  // ----- the whole patch

  /** What the object being patched still has to do with what is left of the walk:
      members that both sides have are as they were, and what only the new object
      has is not there. */
  ghost predicate Facing(ms: seq<Member>, fs: seq<Member>, ts: seq<Member>) {
    && (forall m :: m in fs && m.key in KeysOf(ts) ==> m in ms)
    && (forall k :: k in KeysOf(ts) && k !in KeysOf(fs) ==> k !in KeysOf(ms))
  }

  ghost function NewValue(t: Json): Option<Value> {
    if t.Null? then None else Some(RfcMerge(None, Denote(t)))
  }

  ghost function PairValue(f: Json, t: Json, caseSensitive: bool): Option<Value> {
    if Denote(f) == Denote(t) then Some(Denote(f))
    else match Generate(f, t, false)
      case None => Some(Denote(f))
      case Some(p) => if p.Null? then None else Some(Denote(MergePatch(Some(f), p, caseSensitive)))
  }

  /** The value of a key after the rest of the walk. */
  ghost function Final(ms: seq<Member>, fs: seq<Member>, ts: seq<Member>, caseSensitive: bool, k: string): Option<Value> {
    match MemberFate(fs, ts, k)
    case Untouched => Get(Fields(ms), k)
    case Removed => None
    case AddedFirst => None
    case Added => NewValue(Find(ts, k).value)
    case DeletedFirst => NewValue(Find(ts, k).value)
    case Paired => PairValue(Find(fs, k).value, Find(ts, k).value, caseSensitive)
  }

  lemma Uncons(ms: seq<Member>)
    requires Distinct(ms) && ms != []
    ensures Distinct(ms[1..]) && KeysOf(ms) == KeysOf(ms[1..]) + {ms[0].key} && ms[0].key !in KeysOf(ms[1..])
    ensures forall m :: m in ms <==> m == ms[0] || m in ms[1..]
    ensures forall k :: Find(ms, k) == if k == ms[0].key then Some(ms[0].value) else Find(ms[1..], k)
  {
    assert forall m :: m in ms <==> m == ms[0] || m in ms[1..];
    assert forall i :: 0 <= i < |ms[1..]| ==> ms[1..][i] == ms[i + 1];
  }

  lemma FateRemoved(fs: seq<Member>, ts: seq<Member>, k: string)
    requires fs != [] && (ts != [] ==> Compare(fs[0].key, ts[0].key, true) < 0)
    ensures MemberFate(fs, ts, k) == if fs[0].key != k then MemberFate(fs[1..], ts, k)
                                     else if k in KeysOf(ts) then DeletedFirst else Removed
  {
    hide Compare;
    KeyListTail(fs);
    if ts != [] { KeyListTail(ts); }
  }

  lemma FateAdded(fs: seq<Member>, ts: seq<Member>, k: string)
    requires ts != [] && (fs != [] ==> Compare(fs[0].key, ts[0].key, true) > 0)
    ensures MemberFate(fs, ts, k) == if ts[0].key != k then MemberFate(fs, ts[1..], k)
                                     else if k in KeysOf(fs) then AddedFirst else Added
  {
    hide Compare;
    KeyListTail(ts);
    if fs != [] { KeyListTail(fs); }
  }

  lemma FatePaired(fs: seq<Member>, ts: seq<Member>, k: string)
    requires fs != [] && ts != [] && fs[0].key == ts[0].key
    ensures MemberFate(fs, ts, k) == if fs[0].key != k then MemberFate(fs[1..], ts[1..], k) else Paired
  {
    hide Compare;
    SameKey(fs[0].key, ts[0].key);
    KeyListTail(ts);
    KeyListTail(fs);
  }

  /** What the fate of a key says about where it is. */
  lemma FateKeys(fs: seq<Member>, ts: seq<Member>, k: string)
    ensures k !in KeysOf(fs) && k !in KeysOf(ts) <==> MemberFate(fs, ts, k) == Untouched
    ensures k in KeysOf(fs) && k !in KeysOf(ts) <==> MemberFate(fs, ts, k) == Removed
    ensures k !in KeysOf(fs) && k in KeysOf(ts) ==> MemberFate(fs, ts, k) == Added
    ensures MemberFate(fs, ts, k) == Paired ==> k in KeysOf(fs) && k in KeysOf(ts)
  {
    hide FateOf;
  }

  /** After an effect on one key, what is left is still faced, if the key is settled. */
  lemma FacingAfter(ms: seq<Member>, ms': seq<Member>, fs: seq<Member>, ts: seq<Member>, fs': seq<Member>, ts': seq<Member>,
                    k: string, v: Option<Value>, all: iset<string>)
    requires Facing(ms, fs, ts) && Effect(ms, ms', k, v, all)
    requires (forall m :: m in fs' <==> m in fs && (m.key != k || fs' == fs)) && (forall m :: m in ts' <==> m in ts && (m.key != k || ts' == ts))
    requires k in KeysOf(ts') ==> k !in KeysOf(fs') && v == None
    ensures Facing(ms', fs', ts')
  {
    FieldsKeys(ms);
    FieldsKeys(ms');
    forall m | m in fs' && m.key in KeysOf(ts') ensures m in ms' {
      assert m.key != k;
      assert m.key in KeysOf(ts);
    }
    forall q | q in KeysOf(ts') && q !in KeysOf(fs') ensures q !in KeysOf(ms') {
      if q != k {
        assert q in KeysOf(ts) && q !in KeysOf(fs);
        assert Get(Fields(ms'), q) == Get(Fields(ms), q);
      } else {
        assert Get(Fields(ms'), k) == None;
      }
    }
  }

  // ----- the steps of the walk

  lemma RemovedStep(ms: seq<Member>, fs: seq<Member>, ts: seq<Member>, all: iset<string>, caseSensitive: bool)
    requires Own(ms, all) && Distinct(fs) && Distinct(ts) && Separate(all, caseSensitive) && Facing(ms, fs, ts)
    requires fs != [] && fs[0].key in all && (ts != [] ==> Compare(fs[0].key, ts[0].key, true) < 0)
    ensures var ms' := MergeMember(ms, Member(fs[0].key, Null), caseSensitive);
      && Own(ms', all) && Facing(ms', fs[1..], ts)
      && forall k :: Final(ms', fs[1..], ts, caseSensitive, k) == Final(ms, fs, ts, caseSensitive, k)
  {
    hide MergeMember; hide Separate; hide Denote; hide Fields; hide Compare; hide MemberFate; hide PairValue; hide NewValue;
    hide Facing; hide KeysOf; hide Find; hide Distinct;
    var p := Member(fs[0].key, Null);
    var ms' := MergeMember(ms, p, caseSensitive);
    MemberEffect(ms, p, all, caseSensitive);
    Uncons(fs);
    HeadLeaves(fs);
    FacingAfter(ms, ms', fs, ts, fs[1..], ts, p.key, None, all);
    forall k ensures Final(ms', fs[1..], ts, caseSensitive, k) == Final(ms, fs, ts, caseSensitive, k) {
      FateRemoved(fs, ts, k);
      FateKeys(fs[1..], ts, k);
    }
  }

  lemma HeadLeaves(ms: seq<Member>)
    requires Distinct(ms) && ms != []
    ensures forall m :: m in ms[1..] <==> m in ms && m.key != ms[0].key
  {
    Uncons(ms);
    forall m | m in ms[1..] ensures m.key != ms[0].key {
      assert m.key in KeysOf(ms[1..]);
    }
  }

  lemma AddedStep(ms: seq<Member>, fs: seq<Member>, ts: seq<Member>, all: iset<string>, caseSensitive: bool)
    requires Own(ms, all) && Distinct(fs) && Distinct(ts) && Separate(all, caseSensitive) && Facing(ms, fs, ts)
    requires ts != [] && ts[0].key in all && Shaped(ts[0].value, all) && (fs != [] ==> Compare(fs[0].key, ts[0].key, true) > 0)
    ensures var ms' := MergeMember(ms, ts[0], caseSensitive);
      && Own(ms', all) && Facing(ms', fs, ts[1..])
      && forall k :: Final(ms', fs, ts[1..], caseSensitive, k) == Final(ms, fs, ts, caseSensitive, k)
  {
    hide MergeMember; hide MergePatch; hide Separate; hide Denote; hide Fields; hide Compare; hide MemberFate; hide PairValue;
    hide KeysOf; hide Find; hide Distinct; hide Shaped; hide RfcMerge;
    var p := ts[0];
    var ms' := MergeMember(ms, p, caseSensitive);
    var v := if p.value.Null? then None else Some(Denote(MergePatch(Find(ms, p.key), p.value, caseSensitive)));
    MemberEffect(ms, p, all, caseSensitive);
    Uncons(ts);
    HeadLeaves(ts);
    FacingAfter(ms, ms', fs, ts, fs, ts[1..], p.key, v, all);
    MergePatchDenotes(None, p.value, all, caseSensitive);
    forall k ensures Final(ms', fs, ts[1..], caseSensitive, k) == Final(ms, fs, ts, caseSensitive, k) {
      FateAdded(fs, ts, k);
      FateKeys(fs, ts[1..], k);
    }
  }

  /** The object after the patch for a pair. */
  ghost function AfterPair(ms: seq<Member>, f: Member, t: Member, generating: bool, caseSensitive: bool): seq<Member> {
    var ps := PairPatch(f, t, generating);
    if ps == [] then ms else MergeMember(ms, ps[0], caseSensitive)
  }

  /** The comparison before it and the patch itself see every difference. */
  ghost predicate Noticed(f: Json, t: Json, generating: bool) {
    && (CompareJson(f, t, generating) <==> Denote(f) == Denote(t))
    && (Generate(f, t, false) == None ==> Denote(f) == Denote(t))
  }

  lemma PairEffect(ms: seq<Member>, f: Member, t: Member, all: iset<string>, generating: bool, caseSensitive: bool)
    requires Own(ms, all) && Separate(all, caseSensitive) && f in ms && f.key == t.key && f.key in all
    requires Noticed(f.value, t.value, generating)
    ensures Effect(ms, AfterPair(ms, f, t, generating, caseSensitive), f.key, PairValue(f.value, t.value, caseSensitive), all)
  {
    hide MergeMember; hide MergePatch; hide Separate; hide Denote; hide Effect; hide Generate; hide CompareJson;
    FindMember(ms, f);
    FieldsFind(ms, f.key);
    if Denote(f.value) == Denote(t.value) {
      NoEffect(ms, f.key, Some(Denote(f.value)), all);
    } else {
      MemberEffect(ms, Member(t.key, Generate(f.value, t.value, false).value), all, caseSensitive);
    }
  }

  lemma FieldsFind(ms: seq<Member>, k: string)
    ensures Get(Fields(ms), k) == DenoteOption(Find(ms, k))
  {
  }

  lemma PairedStep(ms: seq<Member>, fs: seq<Member>, ts: seq<Member>, all: iset<string>, generating: bool, caseSensitive: bool)
    requires Own(ms, all) && Distinct(fs) && Distinct(ts) && Separate(all, caseSensitive) && Facing(ms, fs, ts)
    requires fs != [] && ts != [] && fs[0].key == ts[0].key && fs[0].key in all && Noticed(fs[0].value, ts[0].value, generating)
    ensures var ms' := AfterPair(ms, fs[0], ts[0], generating, caseSensitive);
      && Own(ms', all) && Facing(ms', fs[1..], ts[1..])
      && forall k :: Final(ms', fs[1..], ts[1..], caseSensitive, k) == Final(ms, fs, ts, caseSensitive, k)
  {
    hide AfterPair; hide Separate; hide Denote; hide Fields; hide Compare; hide MemberFate; hide PairValue; hide NewValue;
    hide KeysOf; hide Find; hide Distinct; hide Noticed;
    Uncons(fs);
    Uncons(ts);
    HeadLeaves(fs);
    HeadLeaves(ts);
    assert fs[0] in ms;
    var ms', v := AfterPair(ms, fs[0], ts[0], generating, caseSensitive), PairValue(fs[0].value, ts[0].value, caseSensitive);
    PairEffect(ms, fs[0], ts[0], all, generating, caseSensitive);
    FacingAfter(ms, ms', fs, ts, fs[1..], ts[1..], fs[0].key, v, all);
    forall k ensures Final(ms', fs[1..], ts[1..], caseSensitive, k) == Final(ms, fs, ts, caseSensitive, k) {
      FatePaired(fs, ts, k);
      FateKeys(fs[1..], ts[1..], k);
    }
  }

  lemma MergeHead(ms: seq<Member>, p: Member, rest: seq<Member>, caseSensitive: bool, parent: Json)
    requires Under([p] + rest, parent)
    ensures Under(rest, parent)
    ensures MergeMembers(ms, [p] + rest, caseSensitive, parent) == MergeMembers(MergeMember(ms, p, caseSensitive), rest, caseSensitive, parent)
  {
    hide MergeMember;
    assert ([p] + rest)[1..] == rest;
  }

  // ----- the walk and the patch as a whole

  lemma NestedUncons(ms: seq<Member>, top: iset<string>, keys: iset<string>)
    requires NestedMembers(ms, top, keys) && ms != []
    ensures NestedMembers(ms[1..], top, keys) && Distinct(ms) && ms[0].key in top && Keyed(ms[0].value, keys)
  {
    hide Keyed;
    assert forall i :: 0 <= i < |ms[1..]| ==> ms[1..][i] == ms[i + 1];
  }

  /** Every key ends up as its fate says. */
  lemma {:induction false} WalkMerges(ms: seq<Member>, fs: seq<Member>, ts: seq<Member>, top: iset<string>, keys: iset<string>,
                                      generating: bool, caseSensitive: bool, parent: Json, patch: Json)
    requires NestedMembers(fs, top, keys) && NestedMembers(ts, top, keys) && Own(ms, top + keys) && Facing(ms, fs, ts)
    requires Separate(keys, false) && Separate(top + keys, caseSensitive)
    requires Under(fs, parent) && Under(Walk(fs, ts, generating, parent), patch)
    ensures var r := MergeMembers(ms, Walk(fs, ts, generating, parent), caseSensitive, patch);
      forall k :: Get(Fields(r), k) == Final(ms, fs, ts, caseSensitive, k)
    ensures Walk(fs, ts, generating, parent) == [] ==> Fields(fs) == Fields(ts)
    decreases parent, 0, |fs| + |ts|
  {
    hide Walk; hide Denote; hide Fields; hide Compare; hide Separate; hide Facing; hide Own; hide MergeMembers; hide Final;
    hide CompareJson; hide Generate; hide MergeMember; hide Noticed; hide PairPatch; hide NestedMembers; hide Distinct; hide KeysOf;
    if fs == [] && ts == [] {
      WalkNone(generating, parent);
      NothingLeft(ms, caseSensitive, patch);
      return;
    }
    var diff := if fs == [] then 1 else if ts == [] then -1 else Compare(fs[0].key, ts[0].key, true);
    WalkUnfold(fs, ts, generating, parent, diff);
    if fs != [] { NestedUncons(fs, top, keys); }
    if ts != [] { NestedUncons(ts, top, keys); }
    NestedDistinct(fs, top, keys);
    NestedDistinct(ts, top, keys);
    if diff < 0 {
      var p := Member(fs[0].key, Null);
      MergeHead(ms, p, Walk(fs[1..], ts, generating, parent), caseSensitive, patch);
      RemovedStep(ms, fs, ts, top + keys, caseSensitive);
      WalkMerges(MergeMember(ms, p, caseSensitive), fs[1..], ts, top, keys, generating, caseSensitive, parent, patch);
    } else if diff > 0 {
      KeyedShaped(ts[0].value, keys, top + keys);
      MergeHead(ms, ts[0], Walk(fs, ts[1..], generating, parent), caseSensitive, patch);
      AddedStep(ms, fs, ts, top + keys, caseSensitive);
      WalkMerges(MergeMember(ms, ts[0], caseSensitive), fs, ts[1..], top, keys, generating, caseSensitive, parent, patch);
    } else {
      SameKey(fs[0].key, ts[0].key);
      var rest := Walk(fs[1..], ts[1..], generating, parent);
      NoticedPair(fs[0], ts[0], top, keys, generating, caseSensitive, parent);
      PairHead(ms, fs[0], ts[0], rest, generating, caseSensitive, patch);
      PairedStep(ms, fs, ts, top + keys, generating, caseSensitive);
      WalkMerges(AfterPair(ms, fs[0], ts[0], generating, caseSensitive), fs[1..], ts[1..], top, keys, generating, caseSensitive, parent, patch);
      SameHeads(fs, ts, generating);
    }
  }

  lemma NestedDistinct(ms: seq<Member>, top: iset<string>, keys: iset<string>)
    requires NestedMembers(ms, top, keys)
    ensures Distinct(ms)
  {
  }

  lemma NothingLeft(ms: seq<Member>, caseSensitive: bool, patch: Json)
    ensures MergeMembers(ms, [], caseSensitive, patch) == ms
    ensures forall k :: Get(Fields(ms), k) == Final(ms, [], [], caseSensitive, k)
  {
    hide Fields;
    forall k ensures MemberFate([], [], k) == Untouched { FateKeys([], [], k); assert KeysOf([]) == {}; }
  }

  /** A pair without a patch has the same value on both sides. */
  lemma SameHeads(fs: seq<Member>, ts: seq<Member>, generating: bool)
    requires Distinct(fs) && Distinct(ts) && fs != [] && ts != [] && fs[0].key == ts[0].key
    requires Noticed(fs[0].value, ts[0].value, generating)
    ensures PairPatch(fs[0], ts[0], generating) == [] && Fields(fs[1..]) == Fields(ts[1..]) ==> Fields(fs) == Fields(ts)
  {
    hide Denote; hide Fields; hide CompareJson; hide Generate; hide Distinct;
    UnconsFields(fs);
    UnconsFields(ts);
    MapHeadAndTail(Fields(fs), Fields(ts), fs[0].key);
  }

  lemma PairHead(ms: seq<Member>, f: Member, t: Member, rest: seq<Member>, generating: bool, caseSensitive: bool, patch: Json)
    requires Under(PairPatch(f, t, generating) + rest, patch)
    ensures Under(rest, patch)
    ensures MergeMembers(ms, PairPatch(f, t, generating) + rest, caseSensitive, patch)
         == MergeMembers(AfterPair(ms, f, t, generating, caseSensitive), rest, caseSensitive, patch)
  {
    hide MergeMembers; hide MergeMember; hide CompareJson; hide Generate;
    var ps := PairPatch(f, t, generating);
    if ps == [] {
      assert ps + rest == rest;
    } else {
      assert ps == [ps[0]];
      MergeHead(ms, ps[0], rest, caseSensitive, patch);
    }
  }

  lemma {:induction false} NoticedPair(f: Member, t: Member, top: iset<string>, keys: iset<string>, generating: bool,
                                       caseSensitive: bool, parent: Json)
    requires Keyed(f.value, keys) && Keyed(t.value, keys) && Separate(keys, false) && Separate(top + keys, caseSensitive)
    requires f.value < parent
    ensures Noticed(f.value, t.value, generating)
    decreases parent, 0, 0
  {
    hide Denote; hide CompareJson; hide Generate; hide Keyed; hide MergePatch; hide Leads;
    KeyedNested(f.value, keys);
    KeyedNested(t.value, keys);
    CompareDenotes(f.value, t.value, keys, generating);
    GenerateLeads(f.value, t.value, keys, keys, false, caseSensitive);
  }

  /** The generated patch, applied: there is none only when there is nothing to do, and
      one leads to the new value exactly under the condition. */
  lemma {:induction false} GenerateLeads(from: Json, wanted: Json, top: iset<string>, keys: iset<string>, generating: bool,
                                         caseSensitive: bool)
    requires Nested(from, top, keys) && Nested(wanted, top, keys)
    requires Separate(keys, false) && Separate(top + keys, caseSensitive)
    ensures match Generate(from, wanted, generating)
            case None => Denote(from) == Denote(wanted)
            case Some(p) => Denote(MergePatch(Some(from), p, caseSensitive)) == Denote(wanted) <==> Leads(from, wanted, generating)
    decreases from, 2, 0
  {
    if from.Object? && wanted.Object? {
      ObjectLeads(from, wanted, top, keys, generating, caseSensitive);
    } else {
      WholeLeads(from, wanted, top, keys, caseSensitive);
    }
  }

  lemma WholeLeads(from: Json, wanted: Json, top: iset<string>, keys: iset<string>, caseSensitive: bool)
    requires Nested(from, top, keys) && Nested(wanted, top, keys) && Separate(top + keys, caseSensitive)
    requires !(from.Object? && wanted.Object?)
    ensures Denote(MergePatch(Some(from), wanted, caseSensitive)) == Denote(wanted) <==> Reachable(None, Denote(wanted))
  {
    hide Nested; hide MergePatch; hide Shaped; hide Separate; hide Reachable;
    NestedShaped(from, top, keys);
    NestedShaped(wanted, top, keys);
    MergePatchDenotes(Some(from), wanted, top + keys, caseSensitive);
    WrittenWhole(Denote(from), Denote(wanted));
  }

  lemma WrittenWhole(from: Value, wanted: Value)
    requires !(from.Obj? && wanted.Obj?)
    ensures RfcMerge(Some(from), wanted) == RfcMerge(None, wanted)
    ensures RfcMerge(None, wanted) == wanted <==> Reachable(None, wanted)
  {
    hide MergeFields; hide Reachable;
    MergeDifference(None, wanted);
  }

  lemma NewValueArrives(t: Json)
    ensures NewValue(t) == Some(Denote(t)) <==> !t.Null? && Reachable(None, Denote(t))
  {
    hide RfcMerge; hide Reachable;
    WrittenWhole(Atom(Null), Denote(t));
  }

  /** Sorting changes nothing but the order, in whatever mode. */
  lemma SortedMembers(ms: seq<Member>, top: iset<string>, keys: iset<string>, caseSensitive: bool)
    requires NestedMembers(ms, top, keys)
    ensures var r := SortMembers(ms, caseSensitive);
      NestedMembers(r, top, keys) && Fields(r) == Fields(ms) && KeysOf(r) == KeysOf(ms)
  {
    hide Keyed; hide Denote;
    var r := SortMembers(ms, caseSensitive);
    SortPermutes(ms, KeyOf, caseSensitive);
    DistinctAfterPermutation(ms, r);
    SameMembersSameFields(r, ms);
    forall i | 0 <= i < |r| ensures r[i].key in top && Keyed(r[i].value, keys) {
      assert r[i] in ms;
    }
  }

  lemma {:induction false} PairArrives(f: Json, t: Json, keys: iset<string>, caseSensitive: bool)
    requires Keyed(f, keys) && Keyed(t, keys) && Separate(keys, false) && Separate(keys + keys, caseSensitive)
    ensures PairValue(f, t, caseSensitive) == Some(Denote(t)) <==>
            Denote(f) == Denote(t) || (!t.Null? && Leads(f, t, false))
    decreases f, 3, 0
  {
    hide Denote; hide Keyed; hide MergePatch; hide Leads; hide Walk; hide SortMembers;
    KeyedNested(f, keys);
    KeyedNested(t, keys);
    GenerateLeads(f, t, keys, keys, false, caseSensitive);
  }

  lemma {:induction false} KeyArrives(from: Json, fs: seq<Member>, ts: seq<Member>, top: iset<string>, keys: iset<string>,
                                      caseSensitive: bool, k: string)
    requires from.Object? && NestedMembers(fs, top, keys) && NestedMembers(ts, top, keys) && Under(fs, from)
    requires Separate(keys, false) && Separate(top + keys, caseSensitive) && Fields(fs) == Fields(from.members)
    ensures Final(from.members, fs, ts, caseSensitive, k) == Get(Fields(ts), k) <==>
            k !in KeysOf(ts) || Arrives(fs, ts, k, from)
    decreases from, 0, 0
  {
    hide Denote; hide Keyed; hide MemberFate; hide PairValue; hide NewValue; hide Fields; hide Reachable; hide Leads; hide Separate;
    hide Find; hide Distinct;
    FateKeys(fs, ts, k);
    FieldsFind(fs, k);
    FieldsFind(ts, k);
    if k in KeysOf(ts) {
      var t := Find(ts, k).value;
      NewValueArrives(t);
      if MemberFate(fs, ts, k) == Paired {
        var f := Find(fs, k).value;
        FoundKeyed(fs, k, top, keys);
        FoundKeyed(ts, k, top, keys);
        FewerSeparate(keys + keys, top + keys, caseSensitive);
        PairArrives(f, t, keys, caseSensitive);
      }
    }
  }

  lemma FoundKeyed(ms: seq<Member>, k: string, top: iset<string>, keys: iset<string>)
    requires NestedMembers(ms, top, keys) && k in KeysOf(ms)
    ensures Member(k, Find(ms, k).value) in ms && Keyed(Find(ms, k).value, keys)
  {
    hide Keyed;
    var m := Member(k, Find(ms, k).value);
    var i :| 0 <= i < |ms| && ms[i] == m;
  }

  lemma FewerSeparate(keys: iset<string>, all: iset<string>, caseSensitive: bool)
    requires keys <= all && Separate(all, caseSensitive)
    ensures Separate(keys, caseSensitive)
  {
  }

  lemma {:induction false} ObjectLeads(from: Json, wanted: Json, top: iset<string>, keys: iset<string>, generating: bool,
                                       caseSensitive: bool)
    requires Nested(from, top, keys) && Nested(wanted, top, keys) && from.Object? && wanted.Object?
    requires Separate(keys, false) && Separate(top + keys, caseSensitive)
    ensures match Generate(from, wanted, generating)
            case None => Denote(from) == Denote(wanted)
            case Some(p) => Denote(MergePatch(Some(from), p, caseSensitive)) == Denote(wanted) <==> Leads(from, wanted, generating)
    decreases from, 1, 0
  {
    hide Denote; hide Fields; hide Walk; hide SortMembers; hide MergeMembers; hide Separate; hide Final; hide Arrives; hide Facing;
    hide Own; hide NestedMembers; hide KeysOf;
    var fs, ts := SortMembers(from.members, generating), SortMembers(wanted.members, generating);
    MembersUnder(from);
    SortedMembers(from.members, top, keys, generating);
    SortedMembers(wanted.members, top, keys, generating);
    var ps := Walk(fs, ts, generating, from);
    var patch := Object(ps);
    MembersUnder(patch);
    StartFacing(from.members, fs, ts, top, keys);
    WalkMerges(from.members, fs, ts, top, keys, generating, caseSensitive, from, patch);
    ObjectFields(from.members);
    ObjectFields(wanted.members);
    var r := MergeMembers(from.members, ps, caseSensitive, patch);
    ObjectFields(r);
    forall k ensures Get(Fields(r), k) == Get(Fields(wanted.members), k) <==> k !in KeysOf(ts) || Arrives(fs, ts, k, from) {
      KeyArrives(from, fs, ts, top, keys, caseSensitive, k);
    }
    if Leads(from, wanted, generating) { SameMap(Fields(r), Fields(wanted.members)); }
  }

  lemma StartFacing(ms: seq<Member>, fs: seq<Member>, ts: seq<Member>, top: iset<string>, keys: iset<string>)
    requires NestedMembers(ms, top, keys) && KeysOf(fs) == KeysOf(ms) && forall m :: m in fs ==> m in ms
    ensures Own(ms, top + keys) && Facing(ms, fs, ts)
  {
    hide Keyed;
  }

  /** Generating a merge patch and applying it, on all keys that stay distinct when case
      is ignored: a patch produces the new value exactly when no key gets lost on the
      walk and no null has to be written. */
  lemma MergeDiffExactly(from: Json, wanted: Json, top: iset<string>, keys: iset<string>, caseSensitive: bool)
    requires Nested(from, top, keys) && Nested(wanted, top, keys)
    requires Separate(keys, false) && Separate(top + keys, caseSensitive)
    ensures match Generate(from, wanted, caseSensitive)
            case None => Denote(from) == Denote(wanted)
            case Some(p) => Denote(MergePatch(Some(from), p, caseSensitive)) == Denote(wanted) <==> Leads(from, wanted, caseSensitive)
  {
    hide Nested; hide Denote; hide Generate; hide MergePatch; hide Leads;
    GenerateLeads(from, wanted, top, keys, caseSensitive, caseSensitive);
  }

  // ----- trees on which the walk stays in step

  /** At every level, keys that both objects have are met on both sides at once. */
  ghost predicate InStep(from: Json, wanted: Json, caseSensitive: bool)
    decreases from
  {
    from.Object? && wanted.Object? ==>
      var fs, ts := SortMembers(from.members, caseSensitive), SortMembers(wanted.members, caseSensitive);
      forall f, t :: f in fs && t in ts && f.key == t.key ==>
        MemberFate(fs, ts, f.key) == Paired && (MembersUnder(from); InStep(f.value, t.value, false))
  }

  lemma {:induction false} KeyReaches(from: Json, fs: seq<Member>, ts: seq<Member>, top: iset<string>, keys: iset<string>, k: string)
    requires from.Object? && NestedMembers(fs, top, keys) && NestedMembers(ts, top, keys) && Under(fs, from) && k in KeysOf(ts)
    requires forall f, t :: f in fs && t in ts && f.key == t.key ==> MemberFate(fs, ts, f.key) == Paired && InStep(f.value, t.value, false)
    ensures k in Fields(ts)
    ensures Arrives(fs, ts, k, from) <==>
            || Get(Fields(fs), k) == Some(Fields(ts)[k])
            || (Fields(ts)[k] != NULL && Reachable(Get(Fields(fs), k), Fields(ts)[k]))
    decreases from, 0
  {
    hide Denote; hide Keyed; hide MemberFate; hide Fields; hide Reachable; hide Leads; hide InStep; hide Find; hide Distinct;
    FateKeys(fs, ts, k);
    FieldsFind(fs, k);
    FieldsFind(ts, k);
    FieldsKeys(ts);
    FoundKeyed(ts, k, top, keys);
    var t := Find(ts, k).value;
    assert Denote(t) == NULL <==> t.Null? by { OnlyNull(t); }
    if k in KeysOf(fs) {
      FoundKeyed(fs, k, top, keys);
      var f := Find(fs, k).value;
      assert Member(k, f) in fs && Member(k, t) in ts;
      KeyedNested(f, keys);
      KeyedNested(t, keys);
      LeadsReaches(f, t, keys, keys, false);
    }
  }

  lemma OnlyNull(t: Json)
    ensures Denote(t) == NULL <==> t.Null?
  {
  }

  /** There nothing gets lost, and the condition is that of the values alone. */
  lemma {:induction false} LeadsReaches(from: Json, wanted: Json, top: iset<string>, keys: iset<string>, caseSensitive: bool)
    requires Nested(from, top, keys) && Nested(wanted, top, keys) && InStep(from, wanted, caseSensitive)
    ensures Leads(from, wanted, caseSensitive) <==> Denote(from) == Denote(wanted) || Reachable(Some(Denote(from)), Denote(wanted))
    decreases from, 1
  {
    hide Denote; hide SortMembers; hide NestedMembers; hide Fields; hide KeysOf; hide Arrives; hide MemberFate; hide Keyed;
    if from.Object? && wanted.Object? {
      MembersUnder(from);
      var fs, ts := SortMembers(from.members, caseSensitive), SortMembers(wanted.members, caseSensitive);
      SortedMembers(from.members, top, keys, caseSensitive);
      SortedMembers(wanted.members, top, keys, caseSensitive);
      ObjectFields(from.members);
      ObjectFields(wanted.members);
      FieldsKeys(ts);
      forall k | k in KeysOf(ts)
        ensures k in Fields(ts)
        ensures Arrives(fs, ts, k, from) <==>
                || Get(Fields(fs), k) == Some(Fields(ts)[k])
                || (Fields(ts)[k] != NULL && Reachable(Get(Fields(fs), k), Fields(ts)[k]))
      {
        KeyReaches(from, fs, ts, top, keys, k);
      }
    } else {
      DenoteObject(from);
      DenoteObject(wanted);
      ReachableWhole(Denote(from), Denote(wanted));
    }
  }

  lemma DenoteObject(j: Json)
    ensures j.Object? <==> Denote(j).Obj?
  {
  }

  lemma ReachableWhole(from: Value, wanted: Value)
    requires !(from.Obj? && wanted.Obj?)
    ensures Reachable(None, wanted) <==> from == wanted || Reachable(Some(from), wanted)
  {
  }

  /** Generating a merge patch and applying it. No patch comes out only when the trees
      already stand for the same value; where the walk stays in step, a patch that
      comes out produces the new value exactly when some merge patch can. */
  lemma MergeDiffThenMerge(from: Json, wanted: Json, top: iset<string>, keys: iset<string>, caseSensitive: bool)
    requires Nested(from, top, keys) && Nested(wanted, top, keys) && InStep(from, wanted, caseSensitive)
    requires Separate(keys, false) && Separate(top + keys, caseSensitive)
    ensures match Generate(from, wanted, caseSensitive)
            case None => Denote(from) == Denote(wanted)
            case Some(p) =>
              Denote(MergePatch(Some(from), p, caseSensitive)) == Denote(wanted)
              <==> Reachable(Some(Denote(from)), Denote(wanted))
    ensures (exists p :: RfcMerge(Some(Denote(from)), p) == Denote(wanted)) <==> Reachable(Some(Denote(from)), Denote(wanted))
  {
    hide Nested; hide Denote; hide Generate; hide MergePatch; hide Leads; hide InStep; hide RfcMerge; hide Reachable; hide Difference;
    hide Separate;
    var f, t := Some(Denote(from)), Denote(wanted);
    MergeDiffExactly(from, wanted, top, keys, caseSensitive);
    LeadsReaches(from, wanted, top, keys, caseSensitive);
    ReachableSame(Denote(from));
    MergeDifference(f, t);
    forall p | RfcMerge(f, p) == t ensures Reachable(f, t) { MergedIsReachable(f, p); }
    assert Reachable(f, t) ==> RfcMerge(f, Difference(f, t)) == t;
  }

  lemma ReachableSame(v: Value)
    ensures Reachable(Some(v), v)
  {
  }

  /** Two lists that ascend in byte order stay in step. */
  lemma {:induction false} AscendingPaired(fs: seq<Member>, ts: seq<Member>, k: string)
    requires Asc(fs) && Asc(ts) && k in KeysOf(fs) && k in KeysOf(ts)
    ensures MemberFate(fs, ts, k) == Paired
    decreases |fs| + |ts|
  {
    hide Compare; hide MemberFate;
    assert fs != [] && ts != [];
    AscTail(fs);
    AscTail(ts);
    LeastKey(fs, k);
    LeastKey(ts, k);
    var f, t := fs[0].key, ts[0].key;
    Between(f, t, k);
    Between(t, f, k);
    if Compare(f, t, true) < 0 {
      FateRemoved(fs, ts, k);
      AscendingPaired(fs[1..], ts, k);
    } else if Compare(f, t, true) > 0 {
      FateAdded(fs, ts, k);
      AscendingPaired(fs, ts[1..], k);
    } else {
      SameKey(f, t);
      FatePaired(fs, ts, k);
      if f != k { AscendingPaired(fs[1..], ts[1..], k); }
    }
  }

  /** A key before another is not at or behind it. */
  lemma Between(a: string, b: string, k: string)
    ensures Compare(a, b, true) == -Compare(b, a, true)
    ensures Compare(a, b, true) < 0 && (k == b || Compare(b, k, true) < 0) ==> a != k
  {
    LexAntisymmetric(a, b);
    CompareZero(a, k);
    if Compare(a, b, true) < 0 && Compare(b, k, true) < 0 { LexTransitive(a, b, k); }
  }

  lemma AscTail(ms: seq<Member>)
    requires Asc(ms) && ms != []
    ensures Asc(ms[1..]) && KeysOf(ms) == KeysOf(ms[1..]) + {ms[0].key}
  {
    hide Compare;
    assert forall m :: m in ms <==> m == ms[0] || m in ms[1..];
  }

  /** Keys whose order is the same with and without regard to case stay in step; among
      them are all keys without capitals. */
  lemma {:induction false} UniformInStep(from: Json, wanted: Json, top: iset<string>, keys: iset<string>, caseSensitive: bool)
    requires Nested(from, top, keys) && Nested(wanted, top, keys) && Uniform(keys) && (caseSensitive || Uniform(top))
    ensures InStep(from, wanted, caseSensitive)
    decreases from
  {
    hide Uniform; hide SortMembers; hide MemberFate; hide Asc; hide Fields; hide Keyed;
    if from.Object? && wanted.Object? {
      var fs, ts := SortMembers(from.members, caseSensitive), SortMembers(wanted.members, caseSensitive);
      SortedNested(from.members, top, keys, caseSensitive);
      SortedNested(wanted.members, top, keys, caseSensitive);
      MembersUnder(from);
      forall f, t | f in fs && t in ts && f.key == t.key
        ensures MemberFate(fs, ts, f.key) == Paired && InStep(f.value, t.value, false)
      {
        AscendingPaired(fs, ts, f.key);
        assert Keyed(f.value, keys) && Keyed(t.value, keys);
        KeyedNested(f.value, keys);
        KeyedNested(t.value, keys);
        UniformInStep(f.value, t.value, keys, keys, false);
      }
    }
  }
}
