/** The text of a JSON tree, plain and formatted. */
module Rendering {
  import opened Trees
  import opened JsonStrings

  /** The conversions between numbers and their text, which belong to the C library. */
  datatype NumberIo = NumberIo(format: Num -> string, scan: string -> (Num, nat))

  predicate Numeral(c: char) {
    '0' <= c <= '9' || c == '+' || c == '-' || c == 'e' || c == 'E' || c == '.'
  }

  lemma NumeralChars(c: char)
    ensures Numeral(c) <==> c in "0123456789+-eE."
  {
  }

  /** The longest text a number is printed in. */
  const NUMBER_SIZE := 25

  /** The number is printed in a form that reads back exactly. */
  predicate ReadsBack(io: NumberIo, n: Num) {
    var f := io.format(n);
    && 1 <= |f| <= NUMBER_SIZE && (f[0] == '-' || '0' <= f[0] <= '9')
    && (forall i :: 0 <= i < |f| ==> Numeral(f[i]))
    && io.scan(f) == (n, |f|)
  }

  // ----- the renderer

  function Tabs(n: nat): string {
    if n == 0 then [] else "\t" + Tabs(n - 1)
  }

  function Indent(fmt: bool, depth: nat): string { if fmt then Tabs(depth) else [] }
  function Newline(fmt: bool): string { if fmt then "\n" else [] }
  function Colon(fmt: bool): string { if fmt then ":\t" else ":" }
  function Separator(fmt: bool): string { if fmt then ", " else "," }

  function Render(io: NumberIo, j: Json, fmt: bool, depth: nat): string
    decreases j
  {
    match j
    case Invalid => []
    case Null => "null"
    case False => "false"
    case True => "true"
    case Number(n) => io.format(n)
    case Text(s) => Quote(s)
    case Raw(s) => s
    case Array(xs) => "[" + (RenderItems(io, xs, fmt, depth + 1) + "]")
    case Object(ms) => "{" + (Newline(fmt) + (RenderMembers(io, ms, fmt, depth + 1) + (Indent(fmt, depth) + "}")))
  }

  function RenderItems(io: NumberIo, xs: seq<Json>, fmt: bool, depth: nat): string
    decreases xs
  {
    if xs == [] then []
    else Render(io, xs[0], fmt, depth) + ((if |xs| > 1 then Separator(fmt) else []) + RenderItems(io, xs[1..], fmt, depth))
  }

  function RenderMembers(io: NumberIo, ms: seq<Member>, fmt: bool, depth: nat): string
    decreases ms
  {
    if ms == [] then []
    else
      var first := ms[0];
      Indent(fmt, depth) + (Quote(first.key) + (Colon(fmt) + (Render(io, first.value, fmt, depth)
        + ((if |ms| > 1 then "," else []) + (Newline(fmt) + RenderMembers(io, ms[1..], fmt, depth))))))
  }

  // ----- trees that can be printed and read

  /** No raw or invalid nodes, no NUL in a string or key, numbers that read back. */
  ghost predicate Plain(io: NumberIo, j: Json)
    decreases j
  {
    match j
    case Invalid => false
    case Raw(_) => false
    case Number(n) => ReadsBack(io, n)
    case Text(s) => NulFree(s)
    case Array(xs) => PlainItems(io, xs)
    case Object(ms) => PlainMembers(io, ms)
    case _ => true
  }

  ghost predicate PlainItems(io: NumberIo, xs: seq<Json>)
    decreases xs
  {
    xs == [] || (Plain(io, xs[0]) && PlainItems(io, xs[1..]))
  }

  ghost predicate PlainMembers(io: NumberIo, ms: seq<Member>)
    decreases ms
  {
    ms == [] || (NulFree(ms[0].key) && Plain(io, ms[0].value) && PlainMembers(io, ms[1..]))
  }

  function Max(a: nat, b: nat): nat { if a < b then b else a }

  /** How many arrays and objects are nested in one another. */
  function Nesting(j: Json): nat
    decreases j
  {
    match j
    case Array(xs) => 1 + NestingItems(xs)
    case Object(ms) => 1 + NestingMembers(ms)
    case _ => 0
  }

  function NestingItems(xs: seq<Json>): nat
    decreases xs
  {
    if xs == [] then 0 else Max(Nesting(xs[0]), NestingItems(xs[1..]))
  }

  function NestingMembers(ms: seq<Member>): nat
    decreases ms
  {
    if ms == [] then 0 else Max(Nesting(ms[0].value), NestingMembers(ms[1..]))
  }

  // ----- the first character

  /** Rendered text begins with a visible character that no number or bracket is mistaken for. */
  lemma {:induction false} RenderFirst(io: NumberIo, j: Json, fmt: bool, depth: nat)
    requires Plain(io, j)
    ensures var r := Render(io, j, fmt, depth); r != [] && r[0] > ' ' && r[0] != ']' && r[0] != '}' && r[0] != ','
  {
    hide Escapes; hide RenderItems; hide RenderMembers; hide PlainItems; hide PlainMembers;
  }

  // ----- one level of the text

  lemma {:induction false} RenderLeaf(io: NumberIo, j: Json, fmt: bool, ind: nat)
    ensures j == Null ==> Render(io, j, fmt, ind) == "null"
    ensures j == False ==> Render(io, j, fmt, ind) == "false"
    ensures j == True ==> Render(io, j, fmt, ind) == "true"
    ensures j.Number? ==> Render(io, j, fmt, ind) == io.format(j.num)
    ensures j.Text? ==> Render(io, j, fmt, ind) == Quote(j.text)
    ensures !j.Array? && !j.Object? ==> Nesting(j) == 0
  {
    hide Quote; hide RenderItems; hide RenderMembers;
  }

  lemma {:induction false} RenderArray(io: NumberIo, xs: seq<Json>, fmt: bool, ind: nat)
    ensures Render(io, Array(xs), fmt, ind) == "[" + (RenderItems(io, xs, fmt, ind + 1) + "]")
    ensures Nesting(Array(xs)) == 1 + NestingItems(xs)
  {
    hide RenderItems; hide RenderMembers; hide NestingItems;
  }

  lemma {:induction false} NoItems(io: NumberIo, fmt: bool, ind: nat)
    ensures RenderItems(io, [], fmt, ind) == [] && NestingItems([]) == 0
  {
  }

  lemma {:induction false} RenderItem(io: NumberIo, xs: seq<Json>, fmt: bool, ind: nat)
    requires xs != []
    ensures RenderItems(io, xs, fmt, ind)
         == Render(io, xs[0], fmt, ind) + ((if |xs| > 1 then Separator(fmt) else []) + RenderItems(io, xs[1..], fmt, ind))
    ensures NestingItems(xs) == Max(Nesting(xs[0]), NestingItems(xs[1..]))
    ensures |xs| == 1 ==> RenderItems(io, xs[1..], fmt, ind) == [] && NestingItems(xs[1..]) == 0
    ensures PlainItems(io, xs) ==> Plain(io, xs[0]) && PlainItems(io, xs[1..])
    ensures xs == [xs[0]] + xs[1..]
  {
    hide Render; hide Nesting; hide Plain;
  }

  lemma {:induction false} RenderMember(io: NumberIo, ms: seq<Member>, fmt: bool, ind: nat)
    requires ms != []
    ensures RenderMembers(io, ms, fmt, ind)
         == Indent(fmt, ind) + (Quote(ms[0].key) + (Colon(fmt) + (Render(io, ms[0].value, fmt, ind)
              + ((if |ms| > 1 then "," else []) + (Newline(fmt) + RenderMembers(io, ms[1..], fmt, ind))))))
    ensures NestingMembers(ms) == Max(Nesting(ms[0].value), NestingMembers(ms[1..]))
    ensures |ms| == 1 ==> RenderMembers(io, ms[1..], fmt, ind) == [] && NestingMembers(ms[1..]) == 0
    ensures PlainMembers(io, ms) ==> NulFree(ms[0].key) && Plain(io, ms[0].value) && PlainMembers(io, ms[1..])
    ensures ms == [ms[0]] + ms[1..]
  {
    hide Render; hide Nesting; hide Plain; hide Quote; hide Indent; hide Colon; hide Newline;
  }

  lemma {:induction false} RenderObject(io: NumberIo, ms: seq<Member>, fmt: bool, ind: nat)
    ensures Render(io, Object(ms), fmt, ind)
         == "{" + (Newline(fmt) + (RenderMembers(io, ms, fmt, ind + 1) + (Indent(fmt, ind) + "}")))
    ensures Nesting(Object(ms)) == 1 + NestingMembers(ms)
    ensures ms == [] ==> RenderMembers(io, ms, fmt, ind + 1) == [] && NestingMembers(ms) == 0
  {
    hide RenderItems; hide Indent; hide Newline;
  }

  // ----- what it looks like

  function JoinText(parts: seq<string>, sep: string): string {
    if parts == [] then [] else if |parts| == 1 then parts[0] else parts[0] + sep + JoinText(parts[1..], sep)
  }

  function Rendered(io: NumberIo, xs: seq<Json>, fmt: bool, depth: nat): (parts: seq<string>)
    ensures |parts| == |xs| && forall i :: 0 <= i < |xs| ==> parts[i] == Render(io, xs[i], fmt, depth)
  {
    seq(|xs|, i requires 0 <= i < |xs| => Render(io, xs[i], fmt, depth))
  }

  /** The line of a member: tabs, the key, a colon and a tab, the value. */
  function Lines(io: NumberIo, ms: seq<Member>, depth: nat): (parts: seq<string>)
    ensures |parts| == |ms|
    ensures forall i :: 0 <= i < |ms| ==> parts[i] == Tabs(depth) + Quote(ms[i].key) + ":\t" + Render(io, ms[i].value, true, depth)
  {
    seq(|ms|, i requires 0 <= i < |ms| => Tabs(depth) + Quote(ms[i].key) + ":\t" + Render(io, ms[i].value, true, depth))
  }

  lemma {:induction false} TabsOnly(n: nat)
    ensures |Tabs(n)| == n && forall i :: 0 <= i < n ==> Tabs(n)[i] == '\t'
  {
    if n > 0 { TabsOnly(n - 1); }
  }

  lemma {:induction false} ItemsLayout(io: NumberIo, xs: seq<Json>, fmt: bool, depth: nat)
    ensures RenderItems(io, xs, fmt, depth) == JoinText(Rendered(io, xs, fmt, depth), if fmt then ", " else ",")
  {
    if xs != [] {
      hide Render;
      ItemsLayout(io, xs[1..], fmt, depth);
      var parts, sep := Rendered(io, xs, fmt, depth), if fmt then ", " else ",";
      assert parts[1..] == Rendered(io, xs[1..], fmt, depth);
      if |xs| > 1 {
        assert parts[0] + sep + JoinText(parts[1..], sep) == parts[0] + (sep + JoinText(parts[1..], sep));
      } else {
        assert parts[0] + ([] + []) == parts[0] && JoinText(parts[1..], sep) == [];
      }
    }
  }

  /** An array is written with a comma between its elements, and a blank behind it when formatted. */
  lemma ArrayLayout(io: NumberIo, xs: seq<Json>, fmt: bool, depth: nat)
    ensures Render(io, Array(xs), fmt, depth) == "[" + (JoinText(Rendered(io, xs, fmt, depth + 1), if fmt then ", " else ",") + "]")
  {
    hide RenderItems; hide JoinText;
    ItemsLayout(io, xs, fmt, depth + 1);
  }

  lemma {:induction false} LinesLayout(io: NumberIo, ms: seq<Member>, depth: nat)
    requires ms != []
    ensures RenderMembers(io, ms, true, depth) == JoinText(Lines(io, ms, depth), ",\n") + "\n"
  {
    hide Render; hide Quote; hide Tabs;
    var lines := Lines(io, ms, depth);
    var tabs, q, r := Tabs(depth), Quote(ms[0].key), Render(io, ms[0].value, true, depth);
    if |ms| > 1 {
      LinesLayout(io, ms[1..], depth);
      assert lines[1..] == Lines(io, ms[1..], depth);
      var rest := JoinText(lines[1..], ",\n");
      assert tabs + (q + (":\t" + (r + ("," + ("\n" + (rest + "\n")))))) == (tabs + q + ":\t" + r) + ",\n" + rest + "\n";
    } else {
      assert RenderMembers(io, ms[1..], true, depth) == [];
      assert tabs + (q + (":\t" + (r + ([] + ("\n" + []))))) == (tabs + q + ":\t" + r) + "\n";
    }
  }

  /** A formatted object has one member on a line, indented once more than its braces. */
  lemma ObjectLayout(io: NumberIo, ms: seq<Member>, depth: nat)
    ensures Render(io, Object(ms), true, depth) ==
            if ms == [] then "{\n" + (Tabs(depth) + "}")
            else "{\n" + (JoinText(Lines(io, ms, depth + 1), ",\n") + ("\n" + (Tabs(depth) + "}")))
  {
    hide Render; hide RenderMembers; hide JoinText; hide Tabs; hide Lines; hide Nesting; hide NestingMembers;
    RenderObject(io, ms, true, depth);
    var tail := Tabs(depth) + "}";
    if ms != [] {
      LinesLayout(io, ms, depth + 1);
      Braced(JoinText(Lines(io, ms, depth + 1), ",\n"), tail);
    } else {
      Braced([], tail);
    }
  }

  lemma Braced(body: string, tail: string)
    ensures "{" + ("\n" + ((body + "\n") + tail)) == "{\n" + (body + ("\n" + tail))
    ensures "{" + ("\n" + ([] + tail)) == "{\n" + tail
  {
  }

  /** A member without formatting: the key, a colon, the value. */
  function Entries(io: NumberIo, ms: seq<Member>, depth: nat): (parts: seq<string>)
    ensures |parts| == |ms|
    ensures forall i :: 0 <= i < |ms| ==> parts[i] == Quote(ms[i].key) + ":" + Render(io, ms[i].value, false, depth)
  {
    seq(|ms|, i requires 0 <= i < |ms| => Quote(ms[i].key) + ":" + Render(io, ms[i].value, false, depth))
  }

  lemma {:induction false} EntriesLayout(io: NumberIo, ms: seq<Member>, depth: nat)
    ensures RenderMembers(io, ms, false, depth) == JoinText(Entries(io, ms, depth), ",")
  {
    hide Render; hide Quote;
    if ms != [] {
      var parts := Entries(io, ms, depth);
      var q, r := Quote(ms[0].key), Render(io, ms[0].value, false, depth);
      EntriesLayout(io, ms[1..], depth);
      assert parts[1..] == Entries(io, ms[1..], depth);
      var rest := JoinText(parts[1..], ",");
      if |ms| > 1 {
        assert [] + (q + (":" + (r + ("," + ([] + rest))))) == (q + ":" + r) + "," + rest;
      } else {
        assert rest == [];
        assert [] + (q + (":" + (r + ([] + ([] + []))))) == q + ":" + r;
      }
    }
  }

  /** Without formatting an object holds no blanks of its own. */
  lemma CompactLayout(io: NumberIo, ms: seq<Member>, depth: nat)
    ensures Render(io, Object(ms), false, depth) == "{" + (JoinText(Entries(io, ms, depth + 1), ",") + "}")
  {
    hide RenderMembers; hide JoinText;
    RenderObject(io, ms, false, depth);
    EntriesLayout(io, ms, depth + 1);
    var body := JoinText(Entries(io, ms, depth + 1), ",");
    assert "{" + ([] + (body + ([] + "}"))) == "{" + (body + "}");
  }
}
