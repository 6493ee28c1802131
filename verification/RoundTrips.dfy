/** Printing a tree and reading it again: printed text is one of the forms that are read. */
module RoundTrips {
  import opened Keys
  import opened Trees
  import opened JsonStrings
  import opened StringForms
  import opened Rendering
  import opened Parsing
  import opened JsonForms
  import opened JsonTexts

  /** The blank behind a comma or a colon. */
  function ItemGap(fmt: bool): string { if fmt then " " else [] }
  function ColonGap(fmt: bool): string { if fmt then "\t" else [] }

  /** The form a tree is printed in, `depth` levels down. */
  function FormOf(io: NumberIo, j: Json, fmt: bool, depth: nat): Form
    decreases j
  {
    match j
    case Number(n) => NumberForm(io.format(n), n)
    case Text(s) => StringForm(Quote(s), s)
    case Array(xs) => ArrayForm([], ItemForms(io, xs, fmt, depth + 1, true))
    case Object(ms) => ObjectForm(Newline(fmt) + Indent(fmt, depth), MemberForms(io, ms, fmt, depth))
    case _ => WordForm(j)
  }

  function ItemForms(io: NumberIo, xs: seq<Json>, fmt: bool, depth: nat, first: bool): (items: seq<ItemForm>)
    ensures |items| == |xs|
    decreases xs
  {
    if xs == [] then []
    else
      [ItemForm(if first then [] else ItemGap(fmt), FormOf(io, xs[0], fmt, depth), [])] + ItemForms(io, xs[1..], fmt, depth, false)
  }

  /** Each member on a line of its own, indented once more than the brace that closes them. */
  function MemberForms(io: NumberIo, ms: seq<Member>, fmt: bool, depth: nat): (members: seq<MemberForm>)
    ensures |members| == |ms|
    decreases ms
  {
    if ms == [] then []
    else
      var after := if |ms| == 1 then Newline(fmt) + Indent(fmt, depth) else [];
      [MemberForm(Newline(fmt) + Indent(fmt, depth + 1), Quote(ms[0].key), ms[0].key, [], ColonGap(fmt),
                  FormOf(io, ms[0].value, fmt, depth + 1), after)]
      + MemberForms(io, ms[1..], fmt, depth)
  }

  lemma {:induction false} BlankConcat(a: string, b: string)
    requires Blank(a) && Blank(b)
    ensures Blank(a + b)
  {
  }

  lemma {:induction false} TabsBlank(n: nat)
    ensures Blank(Tabs(n))
  {
    if n > 0 { TabsBlank(n - 1); }
  }

  lemma {:induction false} LineBlank(fmt: bool, n: nat)
    ensures Blank(Newline(fmt) + Indent(fmt, n)) && Blank(ItemGap(fmt)) && Blank(ColonGap(fmt)) && Blank([])
  {
    TabsBlank(n);
  }

  lemma QuoteText(s: string)
    requires NulFree(s)
    ensures StringText(Quote(s), s)
  {
    hide ParseStr; hide Quote;
    QuotePrinted(s);
    QuotedText(PrintedUnits(s));
    UpToNulAll(s);
  }

  lemma NumberPrinted(io: NumberIo, n: Num)
    requires ReadsBack(io, n)
    ensures NumberText(io, io.format(n), n)
  {
  }

  /** The text, the value and the form of a tree go together. */
  lemma {:induction false} Printed(io: NumberIo, j: Json, fmt: bool, depth: nat)
    requires Plain(io, j)
    ensures var f := FormOf(io, j, fmt, depth);
      FormOk(io, f) && Spell(f) == Render(io, j, fmt, depth) && ValueOf(f) == j
    decreases j, 1
  {
    hide StringText; hide NumberText; hide Quote; hide ReadsBack; hide ItemForms; hide MemberForms; hide SpellItems; hide SpellMembers;
    hide RenderItems; hide RenderMembers; hide ItemValues; hide MemberValues; hide ItemsOk; hide MembersOk;
    match j {
      case Number(n) => NumberPrinted(io, n);
      case Text(s) => QuoteText(s);
      case Array(xs) => PrintedArray(io, xs, fmt, depth);
      case Object(ms) => PrintedObject(io, ms, fmt, depth);
      case _ =>
    }
  }

  lemma {:induction false} PrintedArray(io: NumberIo, xs: seq<Json>, fmt: bool, depth: nat)
    requires PlainItems(io, xs)
    ensures var f := FormOf(io, Array(xs), fmt, depth);
      FormOk(io, f) && Spell(f) == Render(io, Array(xs), fmt, depth) && ValueOf(f) == Array(xs)
    decreases xs, 1
  {
    hide ItemForms; hide SpellItems; hide RenderItems; hide ItemValues; hide ItemsOk;
    PrintedItems(io, xs, fmt, depth + 1, true);
    if xs == [] { NoItems(io, fmt, depth + 1); }
    assert [] + RenderItems(io, xs, fmt, depth + 1) == RenderItems(io, xs, fmt, depth + 1);
  }

  lemma {:induction false} PrintedItems(io: NumberIo, xs: seq<Json>, fmt: bool, depth: nat, first: bool)
    requires PlainItems(io, xs)
    ensures var items := ItemForms(io, xs, fmt, depth, first);
      && ItemsOk(io, items) && ItemValues(items) == xs
      && (xs != [] ==> SpellItems(items) == (if first then [] else ItemGap(fmt)) + RenderItems(io, xs, fmt, depth))
    decreases xs, 0
  {
    hide FormOf; hide Spell; hide Render; hide FormOk; hide ValueOf; hide Plain; hide Blank;
    if xs != [] {
      var before, rest := if first then [] else ItemGap(fmt), ItemForms(io, xs[1..], fmt, depth, false);
      var items := ItemForms(io, xs, fmt, depth, first);
      assert items[1..] == rest && xs == [xs[0]] + xs[1..];
      LineBlank(fmt, 0);
      Printed(io, xs[0], fmt, depth);
      PrintedItems(io, xs[1..], fmt, depth, false);
      CommaGap(fmt);
      var r := Render(io, xs[0], fmt, depth);
      if |xs| == 1 {
        assert before + (r + ([] + [])) == before + (r + []);
      } else {
        Regroup(before, r, ItemGap(fmt), RenderItems(io, xs[1..], fmt, depth));
      }
    }
  }

  lemma CommaGap(fmt: bool)
    ensures Separator(fmt) == "," + ItemGap(fmt) && Colon(fmt) == ":" + ColonGap(fmt)
  {
  }

  lemma Regroup(a: string, b: string, gap: string, c: string)
    ensures a + (b + ([] + ("," + (gap + c)))) == a + (b + (("," + gap) + c))
  {
  }

  lemma {:induction false} PrintedObject(io: NumberIo, ms: seq<Member>, fmt: bool, depth: nat)
    requires PlainMembers(io, ms)
    ensures var f := FormOf(io, Object(ms), fmt, depth);
      FormOk(io, f) && Spell(f) == Render(io, Object(ms), fmt, depth) && ValueOf(f) == Object(ms)
    decreases ms, 1
  {
    hide MemberForms; hide SpellMembers; hide RenderMembers; hide MemberValues; hide MembersOk; hide Newline; hide Indent; hide Blank;
    LineBlank(fmt, depth);
    PrintedMembers(io, ms, fmt, depth);
    RenderObject(io, ms, fmt, depth);
    var nl, body, ind := Newline(fmt), RenderMembers(io, ms, fmt, depth + 1), Indent(fmt, depth);
    assert nl + (body + (ind + "}")) == nl + (body + ind) + "}";
    if ms == [] { assert nl + ([] + ind) == nl + ind; }
  }

  lemma {:induction false} PrintedMembers(io: NumberIo, ms: seq<Member>, fmt: bool, depth: nat)
    requires PlainMembers(io, ms)
    ensures var members := MemberForms(io, ms, fmt, depth);
      && MembersOk(io, members) && MemberValues(members) == ms
      && (ms != [] ==>
            SpellMembers(members) == Newline(fmt) + (RenderMembers(io, ms, fmt, depth + 1) + Indent(fmt, depth)))
    decreases ms, 0
  {
    hide FormOf; hide Spell; hide Render; hide FormOk; hide ValueOf; hide Plain; hide Blank; hide StringText; hide Quote; hide NulFree;
    hide Newline; hide Indent; hide ColonGap; hide Colon;
    if ms != [] {
      var m, rest := ms[0], MemberForms(io, ms[1..], fmt, depth);
      var members := MemberForms(io, ms, fmt, depth);
      assert members[1..] == rest && ms == [m] + ms[1..];
      LineBlank(fmt, depth);
      LineBlank(fmt, depth + 1);
      QuoteText(m.key);
      Printed(io, m.value, fmt, depth + 1);
      PrintedMembers(io, ms[1..], fmt, depth);
      CommaGap(fmt);
      var nl, ind, out, gap, r := Newline(fmt), Indent(fmt, depth + 1), Indent(fmt, depth), ColonGap(fmt), Render(io, m.value, fmt, depth + 1);
      RegroupMember(nl, ind, Quote(m.key), gap, r, RenderMembers(io, ms[1..], fmt, depth + 1), out);
    }
  }

  lemma RegroupMember(nl: string, ind: string, q: string, gap: string, r: string, rest: string, out: string)
    ensures (nl + ind) + (q + ([] + (":" + (gap + (r + ((nl + out) + []))))))
         == nl + ((ind + (q + ((":" + gap) + (r + ([] + (nl + [])))))) + out)
    ensures (nl + ind) + (q + ([] + (":" + (gap + (r + ([] + ("," + (nl + (rest + out)))))))))
         == nl + ((ind + (q + ((":" + gap) + (r + ("," + (nl + rest)))))) + out)
  {
    assert (nl + ind) + (q + ([] + (":" + (gap + (r + ((nl + out) + [])))))) == nl + ind + q + ":" + gap + r + nl + out;
    assert nl + ((ind + (q + ((":" + gap) + (r + ([] + (nl + [])))))) + out) == nl + ind + q + ":" + gap + r + nl + out;
    assert (nl + ind) + (q + ([] + (":" + (gap + (r + ([] + ("," + (nl + (rest + out)))))))))
        == nl + ind + q + ":" + gap + r + "," + nl + rest + out;
    assert nl + ((ind + (q + ((":" + gap) + (r + ("," + (nl + rest)))))) + out) == nl + ind + q + ":" + gap + r + "," + nl + rest + out;
  }

  /** Printing and then reading gives back the tree exactly when it is not nested
      too deeply, and reading stops in front of the terminator. */
  lemma {:induction false} PrintThenParse(io: NumberIo, j: Json, fmt: bool, requireEnd: bool)
    requires Plain(io, j)
    ensures var text := Render(io, j, fmt, 0);
      Parse(io, text, requireEnd) == Expect(Nesting(j) <= NESTING_LIMIT, j, |text|)
  {
    hide Render; hide ParseValue; hide Plain; hide FormOk; hide Spell; hide ValueOf; hide Nesting; hide Skip; hide At; hide FormOf;
    Printed(io, j, fmt, 0);
    var text, f := Render(io, j, fmt, 0), FormOf(io, j, fmt, 0);
    var d := Document(false, [], f, []);
    NothingBlank();
    DocumentAt(io, d);
    assert [] + ([] + (text + [])) == text;
    BehindStart(io, text + "\0", 0, [], f, []);
  }

  lemma NothingBlank()
    ensures Blank([])
  {
  }
}
