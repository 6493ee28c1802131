/** The texts the reader of internet addresses accepts, and which of them are text
    forms of section 2.2 of RFC 4291. */
module AddressForms {
  import opened Bytes
  import opened Digits
  import opened Fields
  import opened Addresses

  /** Groups of any number of digits, none above 0xffff. */
  predicate Groups(fs: seq<string>) {
    forall i :: 0 <= i < |fs| ==> Group(fs[i])
  }

  /** Groups, the last of which may be a dotted quad instead. */
  predicate Tail(fs: seq<string>) {
    fs == [] || (Groups(Front(fs)) && (Group(Last(fs)) || Quad(Last(fs))))
  }

  lemma GroupHasNoColon(s: string)
    requires Group(s)
    ensures ':' !in s
  {
  }

  function FieldBytes(s: string): seq<Byte>
    requires Group(s) || Quad(s)
  {
    if Quad(s) then QuadBytes(s) else GroupBytes(s)
  }

  /** The bytes the fields stand for, in order. */
  function FormBytes(fs: seq<string>): seq<Byte>
    requires Tail(fs)
  {
    if fs == [] then [] else TailFront(fs); FormBytes(Front(fs)) + FieldBytes(Last(fs))
  }

  lemma TailFront(fs: seq<string>)
    requires Tail(fs) && fs != []
    ensures Tail(Front(fs)) && Groups(Front(fs))
  {
  }

  /** The text of a form with `::` between its two halves. */
  function GapText(left: seq<string>, right: seq<string>): string {
    (if left == [] then "" else Join(left, ':')) + "::" + (if right == [] then "" else Join(right, ':'))
  }

  // ----- groups parse to their bytes

  lemma {:induction false} ParseGroups(fs: seq<string>, gs: seq<string>)
    requires ParseFront(fs).Parsed? && Groups(gs) && |ParseFront(fs).bytes| + |FormBytes(gs)| <= SIZE
    ensures ParseFront(fs + gs) == var p := ParseFront(fs); p.(bytes := p.bytes + FormBytes(gs))
    decreases |gs|
  {
    var p := ParseFront(fs);
    if gs == [] {
      assert fs + gs == fs && p.bytes + [] == p.bytes;
    } else {
      var f := Last(gs);
      FormBytesUnfold(gs);
      GroupIsNoQuad(f);
      ParseGroups(fs, Front(gs));
      ParseFrontUnfold(fs + gs);
      hide ParseFront; hide FormBytes; hide Group; hide GroupBytes; hide Quad;
      assert Front(fs + gs) == fs + Front(gs) && Last(fs + gs) == f;
      Regroup(p.bytes, FormBytes(Front(gs)), FieldBytes(f));
    }
  }

  lemma Regroup(a: seq<Byte>, b: seq<Byte>, c: seq<Byte>)
    ensures a + b + c == a + (b + c) && |a + b + c| == |a| + |b| + |c|
  {
  }

  lemma FormBytesUnfold(fs: seq<string>)
    requires Tail(fs) && fs != []
    ensures Tail(Front(fs)) && FormBytes(fs) == FormBytes(Front(fs)) + FieldBytes(Last(fs))
  {
  }

  lemma GroupIsNoQuad(s: string)
    requires Group(s)
    ensures !Quad(s)
  {
    if Quad(s) { QuadIsNoGroup(s); }
  }

  lemma LastOfTail(f: string)
    requires Group(f) || Quad(f)
    ensures f != [] && (Quad(f) ==> !Group(f)) && (!Quad(f) ==> |GroupBytes(f)| == 2)
  {
    if Quad(f) { QuadIsNoGroup(f); }
  }

  /** A tail after parsed fields adds its bytes, as far as there is room. */
  lemma ParseTail(fs: seq<string>, gs: seq<string>)
    requires ParseFront(fs).Parsed? && Tail(gs) && gs != [] && |ParseFront(fs).bytes| + |FormBytes(gs)| <= SIZE
    ensures ParseFields(fs + gs) == var p := ParseFront(fs); p.(bytes := p.bytes + FormBytes(gs))
  {
    var p, f := ParseFront(fs), Last(gs);
    FormBytesUnfold(gs);
    ParseGroups(fs, Front(gs));
    LastOfTail(f);
    hide ParseFront; hide FormBytes; hide Quad; hide Group; hide QuadBytes; hide GroupBytes; hide Tail; hide Groups;
    assert Front(fs + gs) == fs + Front(gs) && Last(fs + gs) == f;
    Regroup(p.bytes, FormBytes(Front(gs)), FieldBytes(f));
  }

  lemma TailFree(fs: seq<string>)
    requires Tail(fs)
    ensures Free(fs, ':')
  {
    forall i | 0 <= i < |fs| ensures ':' !in fs[i] {
      if i < |fs| - 1 { assert fs[i] == Front(fs)[i]; }
      if Quad(fs[i]) { QuadHasNoColon(fs[i]); } else { GroupHasNoColon(fs[i]); }
    }
  }

  lemma StartsWithField(fs: seq<string>)
    requires fs != [] && fs[0] != [] && fs[0][0] != ':'
    ensures Join(fs, ':') != [] && Join(fs, ':')[0] != ':'
  {
    if |fs| > 1 { StartsWithField(Front(fs)); }
  }

  lemma FirstOfTail(fs: seq<string>)
    requires Tail(fs) && fs != []
    ensures fs[0] != [] && fs[0][0] != ':'
  {
    if |fs| > 1 { assert fs[0] == Front(fs)[0]; }
    if Quad(fs[0]) { QuadIsNoGroup(fs[0]); QuadHasNoColon(fs[0]); } else { GroupHasNoColon(fs[0]); }
  }

  // ----- texts with a gap

  /** The fields of a text with `::` in it: the empty one marks the gap. */
  function GapFields(left: seq<string>, right: seq<string>): seq<string> {
    left + [[]] + (if right == [] then [[]] else right)
  }

  lemma GapJoin(left: seq<string>, right: seq<string>)
    ensures Join(GapFields(left, right), ':') == if left == [] then GapText(left, right)[1..] else GapText(left, right)
  {
    var r := if right == [] then [[]] else right;
    var tail := Join(r, ':');
    assert tail == if right == [] then "" else Join(right, ':');
    assert Join([[]], ':') == [];
    if left == [] {
      JoinConcat([[]], r, ':');
      assert GapFields(left, right) == [[]] + r;
      hide Join;
      assert GapText(left, right)[1..] == [':'] + tail;
    } else {
      JoinConcat(left + [[]], r, ':');
      JoinSnoc(left, [], ':');
      hide Join;
      assert GapText(left, right) == Join(left, ':') + [':'] + [] + [':'] + tail;
    }
  }

  lemma GapStart(left: seq<string>, right: seq<string>)
    requires Groups(left)
    ensures var text := GapText(left, right);
      if left == [] then |text| > 1 && text[0] == ':' && text[1] == ':' else text != [] && text[0] != ':'
  {
    if left != [] {
      FirstOfTail(left);
      StartsWithField(left);
    }
    hide Join;
  }

  lemma GapSplit(left: seq<string>, right: seq<string>)
    requires Groups(left) && Tail(right)
    ensures !BadStart(GapText(left, right)) && Split(Body(GapText(left, right)), ':') == GapFields(left, right)
  {
    var fs := GapFields(left, right);
    GapStart(left, right);
    GapJoin(left, right);
    GapFree(left, right);
    hide Split; hide Join; hide GapText; hide GapFields;
    SplitJoin(fs, ':');
  }

  lemma GapFree(left: seq<string>, right: seq<string>)
    requires Groups(left) && Tail(right)
    ensures Free(GapFields(left, right), ':')
  {
    TailFree(left);
    TailFree(right);
    hide Tail; hide Groups;
  }

  lemma GapParse(left: seq<string>, right: seq<string>)
    requires Groups(left) && Tail(right) && |FormBytes(left)| + |FormBytes(right)| <= SIZE
    ensures ParseFields(GapFields(left, right)) == Parsed(FormBytes(left) + FormBytes(right), GapAt(|FormBytes(left)|))
  {
    var lb, rb, fs := FormBytes(left), FormBytes(right), left + [[]];
    ParseGroups([], left);
    assert [] + left == left && [] + lb == lb;
    assert Front(fs) == left && Last(fs) == [];
    ParseFrontUnfold(fs);
    assert right == [] ==> rb == [];
    assert ParseFront([]) == Parsed([], NoGap);
    hide ParseFront; hide FormBytes; hide Tail; hide Groups;
    if right == [] {
      assert Front(fs + [[]]) == fs && lb + rb == lb;
    } else {
      ParseTail(fs, right);
    }
  }

  lemma Halves(lb: seq<Byte>, rb: seq<Byte>)
    ensures (lb + rb)[..|lb|] == lb && (lb + rb)[|lb|..] == rb
  {
  }

  lemma SpreadHalves(lb: seq<Byte>, rb: seq<Byte>)
    requires |lb| + |rb| <= SIZE
    ensures Spread(lb + rb, |lb|)
         == if |lb| + |rb| < SIZE then lb + Zeros(SIZE - |lb| - |rb|) + rb else lb + Zeros(SIZE - |lb|)
  {
    Halves(lb, rb);
  }

  // ----- what is accepted

  /** A way to write an address: with or without `::`, and perhaps with a colon behind it. */
  datatype Form = Full(fields: seq<string>) | Gapped(left: seq<string>, right: seq<string>)
  datatype Spelling = Spelling(form: Form, colon: bool)

  function EndOf(f: Form): seq<string> {
    if f.Full? then f.fields else f.right
  }

  /** As many groups as fit, exactly as many as are needed without `::`; a single colon
      may end the text if a group comes before it. */
  predicate Readable(f: Form) {
    match f
    case Full(fields) => fields != [] && Tail(fields) && |FormBytes(fields)| == SIZE
    case Gapped(left, right) => Groups(left) && Tail(right) && |FormBytes(left)| + |FormBytes(right)| <= SIZE
  }

  predicate Acceptable(sp: Spelling) {
    Readable(sp.form) && (sp.colon ==> EndOf(sp.form) != [] && Group(Last(EndOf(sp.form))))
  }

  function FormText(f: Form): string
    requires Readable(f)
  {
    match f
    case Full(fields) => Join(fields, ':')
    case Gapped(left, right) => GapText(left, right)
  }

  function Spelled(sp: Spelling): string
    requires Acceptable(sp)
  {
    FormText(sp.form) + if sp.colon then ":" else ""
  }

  /** Its bytes. `::` stands for all the zero groups that are missing; when none is
      missing, what follows it is read as zeros. */
  function Meaning(f: Form): seq<Byte>
    requires Readable(f)
  {
    match f
    case Full(fields) => FormBytes(fields)
    case Gapped(left, right) =>
      var lb, rb := FormBytes(left), FormBytes(right);
      if |lb| + |rb| < SIZE then lb + Zeros(SIZE - |lb| - |rb|) + rb else lb + Zeros(SIZE - |lb|)
  }

  function FormFields(f: Form): (fs: seq<string>)
    requires Readable(f)
    ensures fs != []
  {
    match f
    case Full(fields) => fields
    case Gapped(left, right) => GapFields(left, right)
  }

  function SpelledFields(sp: Spelling): (fs: seq<string>)
    requires Acceptable(sp)
    ensures fs != []
  {
    FormFields(sp.form) + if sp.colon then [[]] else []
  }

  // ----- every acceptable spelling is accepted

  lemma FullSplit(fs: seq<string>)
    requires fs != [] && Tail(fs)
    ensures !BadStart(Join(fs, ':')) && Body(Join(fs, ':')) == Join(fs, ':') && Split(Join(fs, ':'), ':') == fs
  {
    FirstOfTail(fs);
    StartsWithField(fs);
    TailFree(fs);
    hide Split; hide Join;
    SplitJoin(fs, ':');
  }

  lemma FormSplit(f: Form)
    requires Readable(f)
    ensures FormText(f) != [] && !BadStart(FormText(f)) && Split(Body(FormText(f)), ':') == FormFields(f)
  {
    hide Split; hide Join; hide GapFields; hide GapText; hide FormBytes; hide Tail; hide Groups;
    match f {
      case Full(fields) => FullSplit(fields); FirstOfTail(fields); StartsWithField(fields);
      case Gapped(left, right) => GapSplit(left, right); GapStart(left, right);
    }
  }

  /** A colon behind a text is a further empty field. */
  lemma ColonBehind(s: string)
    requires s != [] && !BadStart(s)
    ensures !BadStart(s + ":") && Split(Body(s + ":"), ':') == Split(Body(s), ':') + [[]]
  {
    SplitSnoc(Body(s), ':', ':');
    assert Body(s + ":") == Body(s) + [':'];
  }

  lemma SpelledSplit(sp: Spelling)
    requires Acceptable(sp)
    ensures Spelled(sp) != [] && !BadStart(Spelled(sp)) && Split(Body(Spelled(sp)), ':') == SpelledFields(sp)
  {
    hide Split; hide Body; hide BadStart; hide FormText; hide FormFields; hide Readable;
    FormSplit(sp.form);
    if sp.colon {
      ColonBehind(FormText(sp.form));
    } else {
      assert FormText(sp.form) + "" == FormText(sp.form) && FormFields(sp.form) + [] == FormFields(sp.form);
    }
  }

  lemma FormParse(f: Form)
    requires Readable(f)
    ensures var p := ParseFields(FormFields(f)); p.Parsed? && Place(p) == Address(Meaning(f))
  {
    hide ParseFields; hide FormBytes; hide Group; hide Quad; hide Spread; hide GapFields;
    match f {
      case Full(fields) =>
        assert ParseFront([]) == Parsed([], NoGap);
        ParseTail([], fields);
        assert [] + fields == fields && [] + FormBytes(fields) == FormBytes(fields);
      case Gapped(left, right) =>
        GapParse(left, right);
        SpreadHalves(FormBytes(left), FormBytes(right));
    }
  }

  /** A group read last and a group read before a colon come to the same. */
  lemma ColonParse(fs: seq<string>)
    requires fs != [] && Group(Last(fs))
    ensures ParseFields(fs + [[]]) == ParseFields(fs)
  {
    assert Front(fs + [[]]) == fs && Last(fs + [[]]) == [];
    GroupIsNoQuad(Last(fs));
    ParseFrontUnfold(fs);
  }

  lemma LastOfForm(f: Form)
    requires Readable(f) && EndOf(f) != []
    ensures Last(FormFields(f)) == Last(EndOf(f))
  {
    hide Tail; hide Groups; hide FormBytes;
  }

  lemma AcceptableRead(sp: Spelling)
    requires Acceptable(sp)
    ensures Text6(Spelled(sp)) == Address(Meaning(sp.form))
  {
    hide Split; hide ParseFields; hide Text6; hide Place; hide Meaning; hide Readable; hide Spelled; hide FormFields; hide Body; hide Group;
    SpelledSplit(sp);
    FormParse(sp.form);
    TextOf(Spelled(sp), SpelledFields(sp));
    var fs := FormFields(sp.form);
    if sp.colon {
      LastOfForm(sp.form);
      ColonParse(fs);
    } else {
      assert fs + [] == fs;
    }
  }

  // ----- and nothing else

  /** Fields in front of a colon: groups, with the gap between them. */
  ghost predicate Parts(fs: seq<string>, p: Parsed, left: seq<string>, right: seq<string>) {
    && p.Parsed? && Groups(left) && Groups(right)
    && if p.gap.NoGap? then fs == left && right == [] && |p.bytes| == |FormBytes(left)|
       else fs == left + [[]] + right && |p.bytes| == |FormBytes(left)| + |FormBytes(right)|
  }

  lemma {:induction false} FrontParts(fs: seq<string>) returns (left: seq<string>, right: seq<string>)
    requires ParseFront(fs).Parsed?
    ensures Parts(fs, ParseFront(fs), left, right)
  {
    hide ParseFront; hide Parts; hide Group; hide FormBytes;
    left, right := [], [];
    if fs == [] {
      NoParts();
    } else {
      ParseFrontUnfold(fs);
      left, right := FrontParts(Front(fs));
      left, right := PartsSnoc(Front(fs), ParseFront(Front(fs)), left, right, Last(fs));
      assert fs == Front(fs) + [Last(fs)];
    }
  }

  lemma NoParts()
    ensures Parts([], ParseFront([]), [], [])
  {
  }

  lemma PartsSnoc(fs: seq<string>, p: Parsed, left: seq<string>, right: seq<string>, f: string)
    returns (left': seq<string>, right': seq<string>)
    requires Parts(fs, p, left, right)
    requires if f != [] then AddGroup(p, f).Parsed? else p.gap.NoGap?
    ensures Parts(fs + [f], if f != [] then AddGroup(p, f) else p.(gap := GapAt(|p.bytes|)), left', right')
  {
    hide Quad; hide QuadBytes; hide FormBytes;
    left', right' := left, right;
    if f == [] {
      assert left + [[]] + right == left + [[]] && |FormBytes([])| == 0 by { NoBytes(); }
    } else {
      GroupIsNoQuad(f);
      if p.gap.NoGap? {
        GroupsSnoc(left, f);
        left' := left + [f];
      } else {
        GroupsSnoc(right, f);
        right' := right + [f];
        assert left + [[]] + right + [f] == left + [[]] + right';
      }
    }
  }

  lemma NoBytes()
    ensures FormBytes([]) == []
  {
  }

  lemma GroupsSnoc(fs: seq<string>, f: string)
    requires Groups(fs) && (Group(f) || Quad(f))
    ensures Tail(fs + [f]) && (Group(f) ==> Groups(fs + [f]))
    ensures |FormBytes(fs + [f])| == |FormBytes(fs)| + if Quad(f) then 4 else 2
  {
    var gs := fs + [f];
    assert Front(gs) == fs && Last(gs) == f;
    LastOfTail(f);
    FormBytesUnfold(gs);
    hide FormBytes; hide Group; hide Quad;
  }

  /** The spelling that a list of accepted fields comes from. */
  lemma FieldsParts(fs: seq<string>) returns (sp: Spelling)
    requires fs != [] && Place(ParseFields(fs)).Address?
    ensures Acceptable(sp) && SpelledFields(sp) == fs
  {
    hide ParseFront; hide Parts; hide Group; hide Quad; hide QuadBytes; hide Spread;
    hide Acceptable; hide SpelledFields;
    var f, p := Last(fs), ParseFront(Front(fs));
    assert fs == Front(fs) + [f] && p.Parsed?;
    var left, right := FrontParts(Front(fs));
    if f == [] {
      sp := ColonSpelling(Front(fs), p, left, right);
    } else {
      if Quad(f) { QuadIsNoGroup(f); }
      sp := PlainSpelling(Front(fs), p, left, right, f);
    }
  }

  /** The last field is a group or a dotted quad. */
  lemma PlainSpelling(fs: seq<string>, p: Parsed, left: seq<string>, right: seq<string>, f: string) returns (sp: Spelling)
    requires Parts(fs, p, left, right) && f != [] && (Group(f) || Quad(f))
    requires var n := |p.bytes| + if Quad(f) then 4 else 2; if p.gap.NoGap? then n == SIZE else n <= SIZE
    ensures Acceptable(sp) && SpelledFields(sp) == fs + [f]
  {
    hide Quad; hide Group; hide FormBytes;
    if p.gap.NoGap? {
      GroupsSnoc(left, f);
      sp := Spelling(Full(left + [f]), false);
      assert SpelledFields(sp) == left + [f];
    } else {
      GroupsSnoc(right, f);
      sp := Spelling(Gapped(left, right + [f]), false);
      assert SpelledFields(sp) == left + [[]] + (right + [f]) == fs + [f];
    }
  }

  /** The last field is empty. */
  lemma ColonSpelling(fs: seq<string>, p: Parsed, left: seq<string>, right: seq<string>) returns (sp: Spelling)
    requires Parts(fs, p, left, right)
    requires if p.gap.NoGap? then |p.bytes| == SIZE else |p.bytes| <= SIZE
    ensures Acceptable(sp) && SpelledFields(sp) == fs + [[]]
  {
    hide Quad; hide Group; hide FormBytes;
    NoBytes();
    if p.gap.NoGap? {
      sp := Spelling(Full(left), true);
    } else {
      sp := Spelling(Gapped(left, right), right != []);
      if right == [] { assert left + [[]] + right + [[]] == left + [[]] + [[]]; }
    }
  }

  /** Whether a text begins with a colon shows in its first field. */
  lemma StartOf(s: string, t: string)
    requires !BadStart(s) && !BadStart(t) && s != [] && t != [] && Split(Body(s), ':') == Split(Body(t), ':')
    ensures s == t
  {
    JoinSplit(Body(s), ':');
    JoinSplit(Body(t), ':');
    hide Split; hide Join;
    assert Body(s) == Body(t);
  }

  /** Every accepted text is an acceptable spelling. */
  lemma AcceptedParts(s: string) returns (sp: Spelling)
    requires Text6(s).Address?
    ensures Acceptable(sp) && Spelled(sp) == s
  {
    assert s != [] by { NothingIsNoAddress(); }
    hide ParseFields; hide Place; hide Split; hide Spelled; hide SpelledFields; hide Acceptable; hide Body; hide BadStart;
    sp := FieldsParts(Split(Body(s), ':'));
    SpelledSplit(sp);
    StartOf(s, Spelled(sp));
  }

  lemma NothingIsNoAddress()
    ensures Text6([]) == Invalid
  {
    assert Split([], ':') == [[]];
    assert ParseFields([[]]) == ParseFront([]);
  }

  /** The language of the reader. */
  lemma AcceptedExactly(s: string)
    ensures Text6(s).Address? <==> exists sp :: Acceptable(sp) && Spelled(sp) == s
  {
    hide Text6; hide Acceptable; hide Spelled;
    if Text6(s).Address? {
      var sp := AcceptedParts(s);
    }
    if sp :| Acceptable(sp) && Spelled(sp) == s { AcceptableRead(sp); }
  }

  // ----- the forms of section 2.2

  /** One to four hexadecimal digits. */
  predicate ShortHex(s: string) {
    1 <= |s| <= 4 && Hex(s)
  }

  lemma ShortHexIsGroup(s: string)
    ensures ShortHex(s) <==> Group(s) && |s| <= 4
  {
    if ShortHex(s) { ShortGroup(s); }
  }

  /** Groups of at most four digits; `::` stands for at least one group. */
  predicate Standard(f: Form) {
    match f
    case Full(fields) => Readable(f) && ShortFields(fields)
    case Gapped(left, right) =>
      Readable(f) && ShortFields(left) && ShortFields(right) && |FormBytes(left)| + |FormBytes(right)| < SIZE
  }

  predicate ShortFields(fs: seq<string>) {
    forall i :: 0 <= i < |fs| ==> ShortHex(fs[i]) || Quad(fs[i])
  }

  ghost predicate Section22(s: string) {
    exists f :: Standard(f) && FormText(f) == s
  }

  /** The bytes that the fields of a text call for. */
  function Needs(fs: seq<string>): nat {
    if fs == [] then 0
    else Needs(Front(fs)) + if Last(fs) == [] then 0 else if Quad(Last(fs)) then 4 else 2
  }

  /** No group of more than four digits, no single colon at the end, and room for a
      group where there is a `::`. */
  predicate Conforming(fs: seq<string>)
    requires fs != []
  {
    && (forall i :: 0 <= i < |fs| ==> |fs[i]| <= 4 || Quad(fs[i]))
    && !(|fs| > 1 && Last(fs) == [] && fs[|fs| - 2] != [])
    && ([] in Front(fs) ==> Needs(fs) < SIZE)
  }

  lemma {:induction false} NeedsTail(fs: seq<string>, gs: seq<string>)
    requires Tail(gs)
    ensures Needs(fs + gs) == Needs(fs) + |FormBytes(gs)|
    decreases |gs|
  {
    if gs == [] {
      assert fs + gs == fs;
    } else {
      hide Needs; hide Group; hide Quad;
      var hs := fs + gs;
      TailFront(gs);
      NeedsTail(fs, Front(gs));
      LastOfTail(Last(gs));
      FormBytesUnfold(gs);
      NeedsUnfold(hs);
      assert Front(hs) == fs + Front(gs) && Last(hs) == Last(gs);
    }
  }

  lemma NeedsUnfold(fs: seq<string>)
    requires fs != []
    ensures Needs(fs) == Needs(Front(fs)) + if Last(fs) == [] then 0 else if Quad(Last(fs)) then 4 else 2
  {
  }

  /** The bytes a form calls for, counted over its fields. */
  lemma FormNeeds(f: Form)
    requires Readable(f)
    ensures Needs(FormFields(f)) ==
            if f.Full? then |FormBytes(f.fields)| else |FormBytes(f.left)| + |FormBytes(f.right)|
  {
    hide Quad; hide Group; hide FormBytes;
    NoBytes();
    match f {
      case Full(fields) =>
        NeedsTail([], fields);
        assert [] + fields == fields;
      case Gapped(left, right) =>
        NeedsTail([], left);
        assert [] + left == left;
        NeedsUnfold(left + [[]]);
        assert Front(left + [[]]) == left;
        if right == [] {
          NeedsUnfold(left + [[]] + [[]]);
          assert Front(left + [[]] + [[]]) == left + [[]];
        } else {
          NeedsTail(left + [[]], right);
        }
    }
  }

  /** Only a `::` leaves an empty field in front of the last one. */
  lemma GapShows(f: Form)
    requires Readable(f)
    ensures [] in Front(FormFields(f)) <==> f.Gapped?
    ensures EndOf(f) == [] ==> f.Gapped?
  {
    hide Quad; hide Hex; hide FormBytes;
    match f {
      case Full(fields) => assert forall i :: 0 <= i < |Front(fields)| ==> Group(Front(fields)[i]);
      case Gapped(left, right) =>
        var fs := GapFields(left, right);
        assert |left| < |Front(fs)| && Front(fs)[|left|] == [];
    }
  }

  lemma ColonShows(sp: Spelling)
    requires Acceptable(sp)
    ensures var fs := SpelledFields(sp); sp.colon <==> |fs| > 1 && Last(fs) == [] && fs[|fs| - 2] != []
  {
    hide Quad; hide Hex; hide FormBytes; hide Tail; hide Groups;
    var gs := FormFields(sp.form);
    if sp.colon {
      LastOfForm(sp.form);
      assert SpelledFields(sp)[|gs| - 1] == Last(gs);
    } else {
      assert SpelledFields(sp) == gs;
      EndShows(sp.form);
    }
  }

  lemma EndShows(f: Form)
    requires Readable(f)
    ensures var fs := FormFields(f); Last(fs) == [] ==> |fs| > 1 && fs[|fs| - 2] == []
  {
    hide FormBytes;
    if EndOf(f) != [] {
      LastOfForm(f);
      LastOfTail(Last(EndOf(f)));
    }
  }

  lemma FieldsShort(fs: seq<string>)
    requires Tail(fs)
    ensures ShortFields(fs) <==> forall i :: 0 <= i < |fs| ==> |fs[i]| <= 4 || Quad(fs[i])
  {
    hide Quad; hide ShortHex; hide Group;
    forall i | 0 <= i < |fs| ensures ShortHex(fs[i]) || Quad(fs[i]) <==> |fs[i]| <= 4 || Quad(fs[i]) {
      ShortHexIsGroup(fs[i]);
      if i < |fs| - 1 { assert fs[i] == Front(fs)[i]; }
    }
  }

  lemma FormShort(f: Form)
    requires Readable(f)
    ensures (if f.Full? then ShortFields(f.fields) else ShortFields(f.left) && ShortFields(f.right)) <==>
            var fs := FormFields(f); forall i :: 0 <= i < |fs| ==> |fs[i]| <= 4 || Quad(fs[i])
  {
    hide ShortFields; hide Quad; hide Group; hide FormBytes;
    match f {
      case Full(fields) => FieldsShort(fields);
      case Gapped(left, right) =>
        FieldsShort(left);
        FieldsShort(right);
        var fs := FormFields(f);
        assert forall i :: 0 <= i < |left| ==> fs[i] == left[i];
        assert forall i :: 0 <= i < |right| ==> fs[|left| + 1 + i] == right[i];
        assert forall i :: 0 <= i < |fs| ==>
          fs[i] == if i < |left| then left[i] else if i == |left| || right == [] then [] else right[i - |left| - 1];
    }
  }

  lemma FormStandard(sp: Spelling)
    requires Acceptable(sp)
    ensures Conforming(SpelledFields(sp)) <==> !sp.colon && Standard(sp.form)
  {
    hide Needs; hide FormFields; hide ShortFields; hide Quad; hide Group; hide FormBytes; hide Readable;
    var f, fs := sp.form, SpelledFields(sp);
    ColonShows(sp);
    if !sp.colon {
      assert fs == FormFields(f);
      FormShort(f);
      FormNeeds(f);
      GapShows(f);
    }
  }

  /** Which texts the reader accepts are forms of the standard: those without a group
      of more than four digits, without a single colon at the end, and with room for
      a group where there is a `::`. */
  lemma StandardExactly(s: string)
    ensures Section22(s) <==> Text6(s).Address? && Conforming(Split(Body(s), ':'))
  {
    hide Text6; hide Split; hide Body; hide Conforming; hide Standard; hide FormText; hide Readable; hide SpelledFields;
    if Section22(s) {
      var f := StandardForm(s);
      var sp := Spelling(f, false);
      assert Spelled(sp) == s;
      AcceptableRead(sp);
      SpelledSplit(sp);
      FormStandard(sp);
    }
    if Text6(s).Address? && Conforming(Split(Body(s), ':')) {
      var sp := AcceptedParts(s);
      SpelledSplit(sp);
      FormStandard(sp);
      assert FormText(sp.form) == s;
    }
  }

  lemma StandardForm(s: string) returns (f: Form)
    requires Section22(s)
    ensures Readable(f) && Standard(f) && FormText(f) == s
  {
    hide Readable; hide ShortFields;
    f :| Standard(f) && FormText(f) == s;
  }

  /** A form of the standard gives its bytes: eight groups, or `::` for all the zero
      groups that are missing, with a dotted quad for the last two or without. */
  lemma StandardRead(f: Form)
    requires Standard(f)
    ensures Text6(FormText(f)) == Address(
      match f
      case Full(fields) => FormBytes(fields)
      case Gapped(left, right) =>
        var lb, rb := FormBytes(left), FormBytes(right); lb + Zeros(SIZE - |lb| - |rb|) + rb)
  {
    hide Text6; hide FormText; hide FormBytes; hide Tail; hide Groups; hide ShortFields;
    AcceptableRead(Spelling(f, false));
    assert FormText(f) + "" == FormText(f);
  }

  /** In a full address `::` is not ignored: what follows it is read as zeros, so
      the result is the full address exactly when all of that was zero anyway. */
  lemma GapInFullAddress(left: seq<string>, right: seq<string>)
    requires Groups(left) && Tail(right) && |FormBytes(left)| + |FormBytes(right)| == SIZE
    ensures var lb, rb := FormBytes(left), FormBytes(right);
      && Text6(GapText(left, right)) == Address(lb + Zeros(|rb|))
      && (Text6(GapText(left, right)) == Address(lb + rb) <==> rb == Zeros(|rb|))
  {
    hide Text6; hide GapText; hide FormBytes; hide Group; hide Quad; hide Zeros;
    var lb, rb := FormBytes(left), FormBytes(right);
    AcceptableRead(Spelling(Gapped(left, right), false));
    assert GapText(left, right) + "" == GapText(left, right);
    Halves(lb, rb);
    Halves(lb, Zeros(|rb|));
  }

  // ----- dotted quads

  /** Four groups of digits, none above 255, separated by dots, are a dotted quad ... */
  lemma QuadForm(a: string, b: string, c: string, d: string)
    requires Octet(a) && Octet(b) && Octet(c) && Octet(d)
    ensures var s := Join([a, b, c, d], '.');
      Quad(s) && QuadBytes(s) == [Value10(a) as Byte, Value10(b) as Byte, Value10(c) as Byte, Value10(d) as Byte]
  {
    hide Value10; hide Split; hide Join;
    assert Free([a, b, c, d], '.');
    SplitJoin([a, b, c, d], '.');
  }

  /** ... and there are no others. */
  lemma QuadParts(s: string) returns (a: string, b: string, c: string, d: string)
    requires Quad(s)
    ensures Octet(a) && Octet(b) && Octet(c) && Octet(d) && s == Join([a, b, c, d], '.')
  {
    JoinSplit(s, '.');
    var fs := Split(s, '.');
    a, b, c, d := fs[0], fs[1], fs[2], fs[3];
    assert fs == [a, b, c, d];
  }
}
