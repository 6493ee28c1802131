/** Exactly which texts the parser accepts, and as what. */
module JsonTexts {
  import opened Trees
  import opened JsonStrings
  import opened StringForms
  import opened Rendering
  import opened Parsing
  import opened JsonForms

  // ----- what is accepted has a form

  lemma {:induction false} RunOfNumerals(t: string, i: nat, room: nat)
    requires i <= |t|
    ensures forall k :: i <= k < NumeralEnd(t, i, room) ==> Numeral(t[k])
    decreases room
  {
    if room > 0 && i < |t| && Numeral(t[i]) { RunOfNumerals(t, i + 1, room - 1); }
  }

  /** A number that no numeral follows was read to its end. */
  lemma {:induction false} NumberHasText(io: NumberIo, t: string, i: nat)
    requires i < |t| && (t[i] == '-' || '0' <= t[i] <= '9') && ParseNumber(io, t, i).Ok?
    requires var n := ParseNumber(io, t, i).next; n < |t| && !Numeral(t[n])
    ensures var r := ParseNumber(io, t, i); r.value.Number? && NumberText(io, t[i..r.next], r.value.num)
  {
    hide NumeralEnd;
    var n, e := ParseNumber(io, t, i).next, NumeralEnd(t, i, CHUNK);
    RunOfNumerals(t, i, CHUNK);
    assert n == e;
  }

  /** The form of a value that has been read. */
  ghost predicate Written(io: NumberIo, t: string, i: nat, r: Parsed<Json>, f: Form) {
    r.Ok? && FormOk(io, f) && At(t, i, Spell(f)) && r.next == i + |Spell(f)| && ValueOf(f) == r.value
  }

  lemma {:induction false} WordHasForm(io: NumberIo, t: string, i: nat, depth: nat, j: Json)
    requires i < |t| && Terminated(t) && (j == Null || j == False || j == True) && At(t, i, WordText(j))
    ensures Written(io, t, i, ParseValue(io, t, i, depth), WordForm(j))
  {
    hide ParseValue; hide At;
    WordReads(io, t, i, j, depth);
  }

  lemma {:induction false} LeafHasForm(io: NumberIo, t: string, i: nat, depth: nat) returns (f: Form)
    requires i < |t| && Terminated(t) && ParseValue(io, t, i, depth).Ok? && t[i] != '[' && t[i] != '{'
    requires var n := ParseValue(io, t, i, depth).next; n < |t| && !Numeral(t[n])
    ensures Written(io, t, i, ParseValue(io, t, i, depth), f)
  {
    hide ParseValue; hide ParseStr; hide ParseNumber; hide Terminated; hide NumberText; hide Numeral;
    if At(t, i, "null") {
      f := WordForm(Null);
      WordHasForm(io, t, i, depth, Null);
    } else if At(t, i, "false") {
      f := WordForm(False);
      WordHasForm(io, t, i, depth, False);
    } else if At(t, i, "true") {
      f := WordForm(True);
      WordHasForm(io, t, i, depth, True);
    } else {
      LeafUnfold(io, t, i, depth);
      var r := ParseValue(io, t, i, depth);
      assert At(t, i, t[i..r.next]);
      if t[i] == '\"' {
        ReadsStringText(t, i);
        f := StringForm(t[i..r.next], r.value.text);
      } else {
        NumberHasText(io, t, i);
        f := NumberForm(t[i..r.next], r.value.num);
      }
    }
  }

  lemma {:induction false} ValueHasForm(io: NumberIo, t: string, i: nat, depth: nat) returns (f: Form)
    requires i < |t| && Terminated(t) && ParseValue(io, t, i, depth).Ok?
    requires var n := ParseValue(io, t, i, depth).next; n < |t| && !Numeral(t[n])
    ensures Written(io, t, i, ParseValue(io, t, i, depth), f)
    decreases |t| - i, 0
  {
    hide ParseValue; hide ParseItems; hide ParseMembers; hide Terminated; hide Skip; hide At; hide Written; hide Numeral;
    if t[i] == '[' {
      ArrayUnfold(io, t, i, depth);
      var k := Skip(t, i + 1);
      if t[k] == ']' {
        f := EmptyArray(io, t, i, depth);
      } else {
        ItemsFromSkip(io, t, i + 1, depth + 1);
        var items := ItemsHaveForms(io, t, i + 1, depth + 1);
        f := ArrayForm([], items);
        FullArray(io, t, i, depth, items);
      }
    } else if t[i] == '{' {
      ObjectUnfold(io, t, i, depth);
      var k := Skip(t, i + 1);
      if t[k] == '}' {
        f := EmptyObject(io, t, i, depth);
      } else {
        MembersFromSkip(io, t, i + 1, depth + 1);
        var members := MembersHaveForms(io, t, i + 1, depth + 1);
        f := ObjectForm([], members);
        FullObject(io, t, i, depth, members);
      }
    } else {
      f := LeafHasForm(io, t, i, depth);
    }
  }

  lemma {:induction false} EmptyArray(io: NumberIo, t: string, i: nat, depth: nat) returns (f: Form)
    requires i + 1 < |t| && Terminated(t) && t[i] == '[' && t[Skip(t, i + 1)] == ']' && ParseValue(io, t, i, depth).Ok?
    ensures Written(io, t, i, ParseValue(io, t, i, depth), f)
  {
    hide ParseValue; hide ParseItems; hide Skip; hide At; hide Terminated;
    ArrayUnfold(io, t, i, depth);
    Skipped(t, i + 1);
    var k := Skip(t, i + 1);
    var blank := t[i + 1..k];
    f := ArrayForm(blank, []);
    AtChar(t, i, '[');
    AtChar(t, k, ']');
    AtSplit(t, i + 1, blank, "]");
    AtSplit(t, i, "[", blank + "]");
    assert Spell(f) == "[" + (blank + "]") && ValueOf(f) == Array([]) && FormOk(io, f);
    assert ParseValue(io, t, i, depth) == Ok(Array([]), k + 1);
  }

  lemma {:induction false} EmptyObject(io: NumberIo, t: string, i: nat, depth: nat) returns (f: Form)
    requires i + 1 < |t| && Terminated(t) && t[i] == '{' && t[Skip(t, i + 1)] == '}' && ParseValue(io, t, i, depth).Ok?
    ensures Written(io, t, i, ParseValue(io, t, i, depth), f)
  {
    hide ParseValue; hide ParseMembers; hide Skip; hide At; hide Terminated;
    ObjectUnfold(io, t, i, depth);
    Skipped(t, i + 1);
    var k := Skip(t, i + 1);
    var blank := t[i + 1..k];
    f := ObjectForm(blank, []);
    AtChar(t, i, '{');
    AtChar(t, k, '}');
    AtSplit(t, i + 1, blank, "}");
    AtSplit(t, i, "{", blank + "}");
    assert Spell(f) == "{" + (blank + "}") && ValueOf(f) == Object([]) && FormOk(io, f);
    assert ParseValue(io, t, i, depth) == Ok(Object([]), k + 1);
  }

  ghost predicate ItemsWritten(io: NumberIo, t: string, i: nat, r: Parsed<seq<Json>>, items: seq<ItemForm>) {
    && r.Ok? && items != [] && ItemsOk(io, items) && At(t, i, SpellItems(items))
    && r.next == i + |SpellItems(items)| + 1 <= |t| && t[r.next - 1] == ']' && ItemValues(items) == r.value
  }

  ghost predicate MembersWritten(io: NumberIo, t: string, i: nat, r: Parsed<seq<Member>>, members: seq<MemberForm>) {
    && r.Ok? && members != [] && MembersOk(io, members) && At(t, i, SpellMembers(members))
    && r.next == i + |SpellMembers(members)| + 1 <= |t| && t[r.next - 1] == '}' && MemberValues(members) == r.value
  }

  lemma {:induction false} FullArray(io: NumberIo, t: string, i: nat, depth: nat, items: seq<ItemForm>)
    requires i + 1 < |t| && Terminated(t) && t[i] == '[' && t[Skip(t, i + 1)] != ']' && depth < NESTING_LIMIT
    requires ItemsWritten(io, t, i + 1, ParseItems(io, t, i + 1, depth + 1), items)
    ensures Written(io, t, i, ParseValue(io, t, i, depth), ArrayForm([], items))
  {
    hide ParseValue; hide ParseItems; hide Skip; hide At; hide Terminated; hide SpellItems; hide ItemsOk; hide ItemValues;
    ArrayUnfold(io, t, i, depth);
    ItemsFromSkip(io, t, i + 1, depth + 1);
    var inner := SpellItems(items);
    AtChar(t, i, '[');
    AtChar(t, i + 1 + |inner|, ']');
    AtSplit(t, i + 1, inner, "]");
    AtSplit(t, i, "[", inner + "]");
  }

  lemma {:induction false} FullObject(io: NumberIo, t: string, i: nat, depth: nat, members: seq<MemberForm>)
    requires i + 1 < |t| && Terminated(t) && t[i] == '{' && t[Skip(t, i + 1)] != '}' && depth < NESTING_LIMIT
    requires MembersWritten(io, t, i + 1, ParseMembers(io, t, i + 1, depth + 1), members)
    ensures Written(io, t, i, ParseValue(io, t, i, depth), ObjectForm([], members))
  {
    hide ParseValue; hide ParseMembers; hide Skip; hide At; hide Terminated; hide SpellMembers; hide MembersOk; hide MemberValues;
    ObjectUnfold(io, t, i, depth);
    MembersFromSkip(io, t, i + 1, depth + 1);
    var inner := SpellMembers(members);
    AtChar(t, i, '{');
    AtChar(t, i + 1 + |inner|, '}');
    AtSplit(t, i + 1, inner, "}");
    AtSplit(t, i, "{", inner + "}");
  }

  /** Behind a value come blanks and then a separator or a bracket: no part of a number. */
  lemma {:induction false} BehindValue(t: string, n: nat)
    requires n < |t| && (t[Skip(t, n)] == ',' || t[Skip(t, n)] == ']' || t[Skip(t, n)] == '}')
    ensures !Numeral(t[n])
  {
    Skipped(t, n);
    if Skip(t, n) > n { assert t[n] == t[n..Skip(t, n)][0]; }
  }

  lemma {:induction false} ItemsHaveForms(io: NumberIo, t: string, i: nat, depth: nat) returns (items: seq<ItemForm>)
    requires i < |t| && Terminated(t) && ParseItems(io, t, i, depth).Ok?
    ensures ItemsWritten(io, t, i, ParseItems(io, t, i, depth), items)
    decreases |t| - i, 1
  {
    hide ParseValue; hide ParseItems; hide Skip; hide At; hide Terminated; hide Numeral; hide Written; hide ItemsWritten;
    ItemsUnfold(io, t, i, depth);
    var v := ParseValue(io, t, Skip(t, i), depth);
    var k := Skip(t, v.next);
    BehindValue(t, v.next);
    var f := ValueHasForm(io, t, Skip(t, i), depth);
    if t[k] == ',' {
      var rest := ItemsHaveForms(io, t, k + 1, depth);
      items := OneMoreItem(io, t, i, depth, f, rest);
    } else {
      items := OneMoreItem(io, t, i, depth, f, []);
    }
  }

  lemma {:induction false} OneMoreItem(io: NumberIo, t: string, i: nat, depth: nat, f: Form, rest: seq<ItemForm>)
    returns (items: seq<ItemForm>)
    requires i < |t| && Terminated(t) && ParseItems(io, t, i, depth).Ok?
    requires Written(io, t, Skip(t, i), ParseValue(io, t, Skip(t, i), depth), f)
    requires var k := Skip(t, ParseValue(io, t, Skip(t, i), depth).next);
      if t[k] == ',' then k + 1 < |t| && ItemsWritten(io, t, k + 1, ParseItems(io, t, k + 1, depth), rest) else rest == []
    ensures ItemsWritten(io, t, i, ParseItems(io, t, i, depth), items)
  {
    hide ParseValue; hide ParseItems; hide Skip; hide At; hide Terminated; hide Spell; hide ValueOf; hide FormOk; hide Blank;
    ItemsUnfold(io, t, i, depth);
    var b := Skip(t, i);
    var v := ParseValue(io, t, b, depth);
    var k := Skip(t, v.next);
    Skipped(t, i);
    Skipped(t, v.next);
    var x := ItemForm(t[i..b], f, t[v.next..k]);
    items := [x] + rest;
    assert items[1..] == rest;
    var tail := if rest == [] then [] else "," + SpellItems(rest);
    if rest != [] {
      AtChar(t, k, ',');
      AtSplit(t, k, ",", SpellItems(rest));
    } else {
      AtNothing(t, k);
      AtChar(t, k, ']');
    }
    AtSplit(t, v.next, x.after, tail);
    AtSplit(t, b, Spell(f), x.after + tail);
    AtSplit(t, i, x.before, Spell(f) + (x.after + tail));
    assert SpellItems(items) == x.before + (Spell(f) + (x.after + tail));
    assert ItemsOk(io, items) && ItemValues(items) == [ValueOf(f)] + ItemValues(rest);
    assert [ValueOf(f)] + [] == [ValueOf(f)];
  }

  lemma AtNothing(t: string, i: nat)
    requires i <= |t|
    ensures At(t, i, [])
  {
  }

  lemma {:induction false} MembersHaveForms(io: NumberIo, t: string, i: nat, depth: nat) returns (members: seq<MemberForm>)
    requires i < |t| && Terminated(t) && ParseMembers(io, t, i, depth).Ok?
    ensures MembersWritten(io, t, i, ParseMembers(io, t, i, depth), members)
    decreases |t| - i, 2
  {
    hide ParseValue; hide ParseMembers; hide ParseMember; hide Skip; hide At; hide Terminated; hide Numeral; hide MembersWritten;
    hide MemberWritten;
    MembersUnfold(io, t, i, depth);
    var r := ParseMember(io, t, i, depth);
    var k := Skip(t, r.next);
    BehindValue(t, r.next);
    var m := MemberHasForm(io, t, i, depth);
    if t[k] == ',' {
      var rest := MembersHaveForms(io, t, k + 1, depth);
      members := OneMoreMember(io, t, i, depth, m, rest);
    } else {
      members := OneMoreMember(io, t, i, depth, m, []);
    }
  }

  /** A member without the blanks behind it. */
  function MemberText(m: MemberForm): string {
    m.before + (m.text + (m.mid + (":" + (m.gap + Spell(m.form)))))
  }

  ghost predicate MemberWritten(io: NumberIo, t: string, i: nat, r: Parsed<Member>, m: MemberForm) {
    && r.Ok? && Blank(m.before) && Blank(m.mid) && Blank(m.gap) && m.after == [] && StringText(m.text, m.key) && FormOk(io, m.form)
    && At(t, i, MemberText(m)) && r.next == i + |MemberText(m)| && r.value == Member(m.key, ValueOf(m.form))
  }

  lemma {:induction false} MemberHasForm(io: NumberIo, t: string, i: nat, depth: nat) returns (m: MemberForm)
    requires i < |t| && Terminated(t) && ParseMember(io, t, i, depth).Ok?
    requires var n := ParseMember(io, t, i, depth).next; n < |t| && !Numeral(t[n])
    ensures MemberWritten(io, t, i, ParseMember(io, t, i, depth), m)
    decreases |t| - i, 1
  {
    hide ParseValue; hide ParseMember; hide Skip; hide At; hide Terminated; hide Numeral; hide ParseStr; hide Spell; hide ValueOf;
    hide FormOk; hide Blank; hide StringText;
    MemberUnfold(io, t, i, depth);
    var q := Skip(t, i);
    var key := ParseStr(t, q);
    var c := Skip(t, key.next);
    var v := Skip(t, c + 1);
    var f := ValueHasForm(io, t, v, depth);
    Skipped(t, i);
    Skipped(t, key.next);
    Skipped(t, c + 1);
    ReadsStringText(t, q);
    AtSlice(t, q, key.next);
    AtChar(t, c, ':');
    m := MemberForm(t[i..q], t[q..key.next], key.value, t[key.next..c], t[c + 1..v], f, []);
    AtSplit(t, c + 1, m.gap, Spell(f));
    AtSplit(t, c, ":", m.gap + Spell(f));
    AtSplit(t, key.next, m.mid, ":" + (m.gap + Spell(f)));
    AtSplit(t, q, m.text, m.mid + (":" + (m.gap + Spell(f))));
    AtSplit(t, i, m.before, m.text + (m.mid + (":" + (m.gap + Spell(f)))));
  }

  lemma AtSlice(t: string, a: nat, b: nat)
    requires a <= b <= |t|
    ensures At(t, a, t[a..b])
  {
  }

  lemma {:induction false} OneMoreMember(io: NumberIo, t: string, i: nat, depth: nat, m: MemberForm, rest: seq<MemberForm>)
    returns (members: seq<MemberForm>)
    requires i < |t| && Terminated(t) && ParseMembers(io, t, i, depth).Ok?
    requires MemberWritten(io, t, i, ParseMember(io, t, i, depth), m)
    requires var k := Skip(t, ParseMember(io, t, i, depth).next);
      if t[k] == ',' then k + 1 < |t| && MembersWritten(io, t, k + 1, ParseMembers(io, t, k + 1, depth), rest) else rest == []
    ensures MembersWritten(io, t, i, ParseMembers(io, t, i, depth), members)
  {
    hide ParseMember; hide ParseMembers; hide Skip; hide At; hide Terminated; hide Spell; hide ValueOf; hide FormOk; hide Blank;
    hide StringText; hide MemberText;
    MembersUnfold(io, t, i, depth);
    var r := ParseMember(io, t, i, depth);
    var k := Skip(t, r.next);
    Skipped(t, r.next);
    var x := m.(after := t[r.next..k]);
    members := [x] + rest;
    assert members[1..] == rest;
    var tail := if rest == [] then [] else "," + SpellMembers(rest);
    if rest != [] {
      AtChar(t, k, ',');
      AtSplit(t, k, ",", SpellMembers(rest));
    } else {
      AtNothing(t, k);
      AtChar(t, k, '}');
    }
    AtSplit(t, r.next, x.after, tail);
    AtSplit(t, i, MemberText(m), x.after + tail);
    MemberSpelled(m, x.after + tail);
    assert SpellMembers(members) == MemberText(m) + (x.after + tail);
    assert MembersOk(io, members) && MemberValues(members) == [r.value] + MemberValues(rest);
    assert [r.value] + [] == [r.value];
  }

  lemma MemberSpelled(m: MemberForm, tail: string)
    ensures MemberText(m) + tail == m.before + (m.text + (m.mid + (":" + (m.gap + (Spell(m.form) + tail)))))
  {
    hide Spell;
  }

  // ----- whole texts

  /** A byte order mark or none, blanks, a value, and blanks again. */
  datatype Document = Document(mark: bool, lead: string, form: Form, trail: string)

  predicate DocumentOk(io: NumberIo, d: Document) {
    Blank(d.lead) && FormOk(io, d.form) && Blank(d.trail)
  }

  function DocumentText(d: Document): string {
    (if d.mark then BOM else "") + (d.lead + (Spell(d.form) + d.trail))
  }

  /** Where the parts of a document stand, with the NUL behind it. */
  lemma DocumentAt(io: NumberIo, d: Document)
    requires DocumentOk(io, d)
    ensures var t := DocumentText(d) + "\0";
      var start := if d.mark then 3 else 0;
      var v := start + |d.lead|;
      var e := v + |Spell(d.form)|;
      && Terminated(t) && start < |t| && At(t, start, d.lead) && v < |t| && At(t, v, Spell(d.form)) && e + |d.trail| == |t| - 1
      && At(t, e, d.trail) && (d.mark <==> |t| > 4 && At(t, 0, BOM))
  {
    hide Spell; hide FormOk; hide At;
    var t := DocumentText(d) + "\0";
    var mark, x := if d.mark then BOM else "", Spell(d.form);
    assert t == mark + (d.lead + (x + (d.trail + "\0")));
    AtWhole(t);
    AtSplit(t, 0, mark, d.lead + (x + (d.trail + "\0")));
    AtSplit(t, |mark|, d.lead, x + (d.trail + "\0"));
    AtSplit(t, |mark| + |d.lead|, x, d.trail + "\0");
    AtSplit(t, |mark| + |d.lead| + |x|, d.trail, "\0");
    SpellFirst(io, d.form);
    AtFirst(t, |mark| + |d.lead|, x);
    AtFirst(t, 0, BOM);
    if !d.mark && d.lead != [] { AtFirst(t, 0, d.lead); }
  }

  lemma AtWhole(t: string)
    ensures At(t, 0, t)
  {
  }

  lemma BehindStart(io: NumberIo, t: string, start: nat, lead: string, f: Form, trail: string)
    requires Terminated(t) && Blank(lead) && FormOk(io, f) && Blank(trail) && start < |t| && At(t, start, lead)
    requires var v := start + |lead|; At(t, v, Spell(f)) && At(t, v + |Spell(f)|, trail) && v + |Spell(f)| + |trail| == |t| - 1
    ensures var e := start + |lead| + |Spell(f)|;
      && ParseValue(io, t, Skip(t, start), 0) == Expect(Nesting(ValueOf(f)) <= NESTING_LIMIT, ValueOf(f), e)
      && Skip(t, e) == |t| - 1
  {
    hide Spell; hide FormOk; hide At; hide ParseValue; hide ValueOf; hide Nesting; hide Skip; hide Blank;
    var v := start + |lead|;
    var e := v + |Spell(f)|;
    SpellFirst(io, f);
    AtFirst(t, v, Spell(f));
    SkipBlank(t, start, lead);
    BlankStart(t, e, trail);
    FormReads(io, t, v, f, 0);
    SkipThrough(t, e, trail);
    SkipEnd(t);
  }

  /** Every such text is read as its value, to its end, exactly when it is not nested too deeply. */
  lemma DocumentReads(io: NumberIo, d: Document)
    requires DocumentOk(io, d)
    ensures var text := DocumentText(d);
      Parse(io, text, true) == Expect(Nesting(ValueOf(d.form)) <= NESTING_LIMIT, ValueOf(d.form), |text|)
  {
    hide Spell; hide FormOk; hide At; hide ParseValue; hide ValueOf; hide Nesting; hide Skip; hide Blank;
    var t := DocumentText(d) + "\0";
    DocumentAt(io, d);
    hide DocumentText;
    BehindStart(io, t, if d.mark then 3 else 0, d.lead, d.form, d.trail);
  }

  lemma BlankStart(t: string, e: nat, x: string)
    requires Terminated(t) && At(t, e, x) && Blank(x) && e + |x| == |t| - 1
    ensures !Numeral(t[e])
  {
    if x != [] { AtFirst(t, e, x); }
  }

  lemma SkipEnd(t: string)
    requires Terminated(t)
    ensures Skip(t, |t| - 1) == |t| - 1
  {
  }

  lemma StartHasForm(io: NumberIo, t: string, start: nat) returns (lead: string, f: Form, trail: string)
    requires Terminated(t) && start < |t| && ParseValue(io, t, Skip(t, start), 0).Ok?
    requires t[Skip(t, ParseValue(io, t, Skip(t, start), 0).next)] == '\0'
    ensures Blank(lead) && FormOk(io, f) && Blank(trail) && t[start..|t| - 1] == lead + (Spell(f) + trail)
  {
    hide ParseValue; hide Skip; hide Spell; hide FormOk; hide ValueOf; hide Blank; hide Numeral; hide At;
    var v := Skip(t, start);
    var r := ParseValue(io, t, v, 0);
    var k := Skip(t, r.next);
    Skipped(t, start);
    Skipped(t, r.next);
    BlankStart(t, r.next, t[r.next..k]);
    f := ValueHasForm(io, t, v, 0);
    lead, trail := t[start..v], t[r.next..k];
    AtText(t, v, Spell(f));
    assert t[start..k] == t[start..v] + (t[v..r.next] + t[r.next..k]);
  }

  lemma AtText(t: string, i: nat, x: string)
    requires At(t, i, x)
    ensures t[i..i + |x|] == x
  {
  }

  /** Every accepted text is a document. */
  lemma ParseHasDocument(io: NumberIo, text: string) returns (d: Document)
    requires Parse(io, text, true).Ok?
    ensures DocumentOk(io, d) && DocumentText(d) == text
  {
    hide ParseValue; hide Skip; hide Spell; hide FormOk; hide ValueOf; hide Blank; hide At;
    var t := text + "\0";
    var mark := |t| > 4 && At(t, 0, BOM);
    var start := if mark then 3 else 0;
    var lead, f, trail := StartHasForm(io, t, start);
    d := Document(mark, lead, f, trail);
    TextParts(text, start);
    if mark { AtText(t, 0, BOM); }
  }

  lemma TextParts(text: string, a: nat)
    requires a <= |text|
    ensures var t := text + "\0"; text == t[0..a] + t[a..|t| - 1]
  {
  }

  /** The language of the parser when the end is required: nothing but these texts is
      accepted, and of them all that are not nested too deeply. */
  lemma ParseExactly(io: NumberIo, text: string)
    ensures Parse(io, text, true).Ok? <==>
            exists d :: DocumentOk(io, d) && DocumentText(d) == text && Nesting(ValueOf(d.form)) <= NESTING_LIMIT
  {
    hide Parse; hide DocumentOk; hide DocumentText; hide ValueOf; hide Nesting;
    if Parse(io, text, true).Ok? {
      var d := ParseHasDocument(io, text);
      DocumentReads(io, d);
    }
    if d :| DocumentOk(io, d) && DocumentText(d) == text && Nesting(ValueOf(d.form)) <= NESTING_LIMIT { DocumentReads(io, d); }
  }
}
