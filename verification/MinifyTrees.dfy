/** Minifying the formatted text of a tree gives its plain text, or shows exactly
    which trees it fails on. */
module MinifyTrees {
  import opened Trees
  import opened JsonStrings
  import opened Rendering
  import opened Minifying
  import opened MinifyLaws

  /** No string and no key ends in a backslash. */
  predicate Clean(j: Json)
    decreases j
  {
    match j
    case Text(s) => !EndsInBackslash(s)
    case Array(xs) => CleanItems(xs)
    case Object(ms) => CleanMembers(ms)
    case _ => true
  }

  predicate CleanItems(xs: seq<Json>)
    decreases xs
  {
    xs == [] || (Clean(xs[0]) && CleanItems(xs[1..]))
  }

  predicate CleanMembers(ms: seq<Member>)
    decreases ms
  {
    ms == [] || (!EndsInBackslash(ms[0].key) && Clean(ms[0].value) && CleanMembers(ms[1..]))
  }

  /** The only string that may end in a backslash is one with nothing but closing
      brackets behind it: the last item of the last item, and so on. */
  predicate Harmless(j: Json)
    decreases j
  {
    match j
    case Array(xs) => HarmlessItems(xs)
    case Object(ms) => CleanMembers(ms)
    case _ => true
  }

  predicate HarmlessItems(xs: seq<Json>)
    decreases xs
  {
    if xs == [] then true
    else if |xs| == 1 then Harmless(xs[0])
    else Clean(xs[0]) && HarmlessItems(xs[1..])
  }

  // ----- punctuation

  lemma {:induction false} Regroup(a: string, b: string, c: string)
    ensures a + b + c == a + (b + c)
  {
  }

  lemma {:induction false} Punctuation(c: char, y: string)
    requires c == '[' || c == ']' || c == '{' || c == '}' || c == ',' || c == ':'
    ensures Minified([c] + y) == [c] + Minified(y)
  {
    hide Minified;
    MinifiedCons(c, y);
  }

  lemma {:induction false} SeparatorShrinks(y: string)
    ensures Minified(Separator(true) + y) == Separator(false) + Minified(y)
    ensures Minified(Colon(true) + y) == Colon(false) + Minified(y)
  {
    hide Minified;
    assert Separator(true) + y == [','] + ([' '] + y) && Colon(true) + y == [':'] + (['\t'] + y);
    Punctuation(',', [' '] + y);
    Punctuation(':', ['\t'] + y);
    MinifiedCons(' ', y);
    MinifiedCons('\t', y);
  }

  lemma {:induction false} TabsAreBlanks(n: nat)
    ensures Blanks(Tabs(n))
  {
    if n > 0 { TabsAreBlanks(n - 1); }
  }

  lemma {:induction false} IndentGoes(n: nat, y: string)
    ensures Minified(Indent(true, n) + y) == Minified(y) && Minified(Newline(true) + y) == Minified(y)
    ensures Indent(false, n) == [] && Newline(false) == []
  {
    hide Minified;
    TabsAreBlanks(n);
    BlanksGo(Indent(true, n), y);
    BlanksGo(Newline(true), y);
  }

  // ----- clean trees

  lemma {:induction false} LeafStays(io: NumberIo, j: Json, d: nat)
    requires Plain(io, j) && !j.Text? && !j.Array? && !j.Object?
    ensures Render(io, j, true, d) == Render(io, j, false, d) && Solid(Render(io, j, true, d))
  {
    hide RenderItems; hide RenderMembers;
  }

  lemma {:induction false} CleanCases(io: NumberIo, j: Json)
    ensures j.Text? ==> Clean(j) == !EndsInBackslash(j.text)
    ensures j.Array? ==> Clean(j) == CleanItems(j.items) && (Plain(io, j) == PlainItems(io, j.items)) && Harmless(j) == HarmlessItems(j.items)
    ensures j.Object? ==> Clean(j) == CleanMembers(j.members) && (Plain(io, j) == PlainMembers(io, j.members)) && Harmless(j) == CleanMembers(j.members)
    ensures !j.Text? && !j.Array? && !j.Object? ==> Clean(j)
    ensures !j.Array? && !j.Object? ==> Harmless(j)
  {
    hide CleanItems; hide CleanMembers; hide HarmlessItems; hide PlainItems; hide PlainMembers; hide EndsInBackslash;
  }

  lemma {:induction false} CleanValue(io: NumberIo, j: Json, d: nat, r: string)
    requires Plain(io, j) && Clean(j)
    ensures Minified(Render(io, j, true, d) + r) == Render(io, j, false, d) + Minified(r)
    decreases j, 1
  {
    hide Render; hide Minified; hide Plain; hide Clean; hide Quote; hide Solid; hide EndsInBackslash;
    CleanCases(io, j);
    RenderLeaf(io, j, true, d);
    RenderLeaf(io, j, false, d);
    match j {
      case Text(s) => QuotePasses(s, r);
      case Array(xs) => CleanArray(io, xs, d, r);
      case Object(ms) => CleanObject(io, ms, d, r);
      case _ =>
        LeafStays(io, j, d);
        SolidStays(Render(io, j, true, d), r);
    }
  }

  lemma {:induction false} ArrayRegroup(io: NumberIo, xs: seq<Json>, fmt: bool, d: nat, r: string)
    ensures Render(io, Array(xs), fmt, d) + r == "[" + (RenderItems(io, xs, fmt, d + 1) + ("]" + r))
  {
    hide Render; hide RenderItems;
    RenderArray(io, xs, fmt, d);
    Regroup("[", RenderItems(io, xs, fmt, d + 1) + "]", r);
    Regroup(RenderItems(io, xs, fmt, d + 1), "]", r);
  }

  lemma {:induction false} CleanArray(io: NumberIo, xs: seq<Json>, d: nat, r: string)
    requires PlainItems(io, xs) && CleanItems(xs)
    ensures Minified(Render(io, Array(xs), true, d) + r) == Render(io, Array(xs), false, d) + Minified(r)
    decreases xs, 1
  {
    hide Render; hide RenderItems; hide Minified; hide PlainItems; hide CleanItems;
    ArrayRegroup(io, xs, true, d, r);
    ArrayRegroup(io, xs, false, d, Minified(r));
    Punctuation('[', RenderItems(io, xs, true, d + 1) + ("]" + r));
    ItemsClean(io, xs, d + 1, "]" + r);
    Punctuation(']', r);
  }

  /** An item, what separates it from the next, and the rest. */
  lemma {:induction false} ItemsRegroup(io: NumberIo, xs: seq<Json>, fmt: bool, d: nat, r: string)
    requires xs != []
    ensures |xs| > 1 ==>
      RenderItems(io, xs, fmt, d) + r == Render(io, xs[0], fmt, d) + (Separator(fmt) + (RenderItems(io, xs[1..], fmt, d) + r))
    ensures |xs| == 1 ==> RenderItems(io, xs, fmt, d) + r == Render(io, xs[0], fmt, d) + r
    ensures PlainItems(io, xs) ==> Plain(io, xs[0]) && PlainItems(io, xs[1..])
  {
    hide Render; hide RenderItems; hide PlainItems; hide Plain; hide Separator;
    RenderItem(io, xs, fmt, d);
    var x, rest := Render(io, xs[0], fmt, d), RenderItems(io, xs[1..], fmt, d);
    if |xs| > 1 {
      Regroup(x, Separator(fmt) + rest, r);
      Regroup(Separator(fmt), rest, r);
    } else {
      assert x + ([] + rest) == x;
    }
  }

  lemma {:induction false} ItemsClean(io: NumberIo, xs: seq<Json>, d: nat, r: string)
    requires PlainItems(io, xs) && CleanItems(xs)
    ensures Minified(RenderItems(io, xs, true, d) + r) == RenderItems(io, xs, false, d) + Minified(r)
    decreases xs, 0
  {
    hide Render; hide RenderItems; hide Minified; hide PlainItems; hide Plain; hide Clean; hide Separator;
    if xs == [] {
      NoItems(io, true, d);
      NoItems(io, false, d);
      assert [] + r == r && [] + Minified(r) == Minified(r);
    } else {
      ItemsRegroup(io, xs, true, d, r);
      ItemsRegroup(io, xs, false, d, Minified(r));
      if |xs| > 1 {
        var rest := RenderItems(io, xs[1..], true, d) + r;
        CleanValue(io, xs[0], d, Separator(true) + rest);
        SeparatorShrinks(rest);
        ItemsClean(io, xs[1..], d, r);
      } else {
        CleanValue(io, xs[0], d, r);
      }
    }
  }

  // ----- objects

  lemma {:induction false} ObjectRegroup(io: NumberIo, ms: seq<Member>, fmt: bool, d: nat, r: string)
    ensures Render(io, Object(ms), fmt, d) + r
         == "{" + (Newline(fmt) + (RenderMembers(io, ms, fmt, d + 1) + (Indent(fmt, d) + ("}" + r))))
  {
    hide Render; hide RenderMembers; hide Newline; hide Indent;
    RenderObject(io, ms, fmt, d);
    var body, tail := RenderMembers(io, ms, fmt, d + 1), Indent(fmt, d) + "}";
    Regroup("{", Newline(fmt) + (body + tail), r);
    Regroup(Newline(fmt), body + tail, r);
    Regroup(body, tail, r);
    Regroup(Indent(fmt, d), "}", r);
  }

  lemma {:induction false} NothingBetween(y: string)
    ensures [] + y == y
  {
  }

  lemma {:induction false} CleanObject(io: NumberIo, ms: seq<Member>, d: nat, r: string)
    requires PlainMembers(io, ms) && CleanMembers(ms)
    ensures Minified(Render(io, Object(ms), true, d) + r) == Render(io, Object(ms), false, d) + Minified(r)
    decreases ms, 1
  {
    hide Render; hide RenderMembers; hide Minified; hide PlainMembers; hide CleanMembers; hide Newline; hide Indent;
    var t, f := RenderMembers(io, ms, true, d + 1), RenderMembers(io, ms, false, d + 1);
    var tail := Indent(true, d) + ("}" + r);
    ObjectRegroup(io, ms, true, d, r);
    ObjectRegroup(io, ms, false, d, Minified(r));
    Punctuation('{', Newline(true) + (t + tail));
    IndentGoes(d, t + tail);
    MembersClean(io, ms, d + 1, tail);
    IndentGoes(d, "}" + r);
    Punctuation('}', r);
    NothingBetween("}" + Minified(r));
    NothingBetween(f + ("}" + Minified(r)));
  }

  /** What stands behind the value of the first member. */
  function Behind(io: NumberIo, ms: seq<Member>, fmt: bool, d: nat, r: string): string
    requires ms != []
  {
    (if |ms| > 1 then "," else []) + (Newline(fmt) + (RenderMembers(io, ms[1..], fmt, d) + r))
  }

  lemma {:induction false} MembersRegroup(io: NumberIo, ms: seq<Member>, fmt: bool, d: nat, r: string)
    requires ms != []
    ensures RenderMembers(io, ms, fmt, d) + r
         == Indent(fmt, d) + (Quote(ms[0].key) + (Colon(fmt) + (Render(io, ms[0].value, fmt, d) + Behind(io, ms, fmt, d, r))))
    ensures PlainMembers(io, ms) ==> Plain(io, ms[0].value) && PlainMembers(io, ms[1..])
  {
    hide Render; hide RenderMembers; hide PlainMembers; hide Plain; hide Colon; hide Indent; hide Newline; hide Quote;
    RenderMember(io, ms, fmt, d);
    Regroup6(Indent(fmt, d), Quote(ms[0].key), Colon(fmt), Render(io, ms[0].value, fmt, d),
             if |ms| > 1 then "," else [], Newline(fmt), RenderMembers(io, ms[1..], fmt, d), r);
  }

  lemma {:induction false} Regroup6(a: string, b: string, c: string, e: string, f: string, g: string, h: string, r: string)
    ensures a + (b + (c + (e + (f + (g + h))))) + r == a + (b + (c + (e + (f + (g + (h + r))))))
  {
    Regroup(a, b + (c + (e + (f + (g + h)))), r);
    Regroup(b, c + (e + (f + (g + h))), r);
    Regroup(c, e + (f + (g + h)), r);
    Regroup(e, f + (g + h), r);
    Regroup(f, g + h, r);
    Regroup(g, h, r);
  }

  /** Up to the value of the first member, whose key is clean. */
  lemma {:induction false} KeyClean(key: string, d: nat, y: string)
    requires !EndsInBackslash(key)
    ensures Minified(Indent(true, d) + (Quote(key) + (Colon(true) + y))) == Quote(key) + (Colon(false) + Minified(y))
  {
    hide Minified; hide Quote; hide Colon; hide Indent; hide EndsInBackslash;
    IndentGoes(d, Quote(key) + (Colon(true) + y));
    QuotePasses(key, Colon(true) + y);
    SeparatorShrinks(y);
  }

  lemma {:induction false} BehindClean(io: NumberIo, ms: seq<Member>, d: nat, r: string, f: string)
    requires ms != [] && Minified(RenderMembers(io, ms[1..], true, d) + r) == RenderMembers(io, ms[1..], false, d) + f
    ensures Minified(Behind(io, ms, true, d, r)) == Behind(io, ms, false, d, f)
  {
    hide RenderMembers; hide Minified; hide Newline; hide Indent;
    var t := RenderMembers(io, ms[1..], true, d) + r;
    IndentGoes(d, t);
    NothingBetween(RenderMembers(io, ms[1..], false, d) + f);
    if |ms| > 1 {
      Punctuation(',', Newline(true) + t);
    } else {
      NothingBetween(Newline(true) + t);
      NothingBetween(Newline(false) + (RenderMembers(io, ms[1..], false, d) + f));
    }
  }

  lemma {:induction false} MembersClean(io: NumberIo, ms: seq<Member>, d: nat, r: string)
    requires PlainMembers(io, ms) && CleanMembers(ms)
    ensures Minified(RenderMembers(io, ms, true, d) + r) == RenderMembers(io, ms, false, d) + Minified(r)
    decreases ms, 0
  {
    hide Render; hide RenderMembers; hide Minified; hide PlainMembers; hide Plain; hide Clean; hide Quote; hide Colon; hide Indent;
    hide Behind; hide EndsInBackslash;
    if ms == [] {
      NoMembers(io, true, d);
      NoMembers(io, false, d);
      NothingBetween(r);
      NothingBetween(Minified(r));
    } else {
      MembersRegroup(io, ms, true, d, r);
      MembersRegroup(io, ms, false, d, Minified(r));
      var behind := Behind(io, ms, true, d, r);
      KeyClean(ms[0].key, d, Render(io, ms[0].value, true, d) + behind);
      CleanValue(io, ms[0].value, d, behind);
      MembersClean(io, ms[1..], d, r);
      BehindClean(io, ms, d, r, Minified(r));
      IndentGoes(d, []);
      NothingBetween(RenderMembers(io, ms, false, d) + Minified(r));
      NothingBetween(Quote(ms[0].key) + (Colon(false) + (Render(io, ms[0].value, false, d) + Behind(io, ms, false, d, Minified(r)))));
    }
  }

  lemma {:induction false} NoMembers(io: NumberIo, fmt: bool, d: nat)
    ensures RenderMembers(io, [], fmt, d) == []
  {
  }

  // ----- the others

  ghost predicate Differs(a: string, b: string) {
    exists k :: 0 <= k < |a| && k < |b| && a[k] != b[k]
  }

  lemma {:induction false} DiffersBehind(x: string, a: string, b: string)
    requires Differs(a, b)
    ensures Differs(x + a, x + b)
  {
    var k :| 0 <= k < |a| && k < |b| && a[k] != b[k];
    assert (x + a)[|x| + k] != (x + b)[|x| + k];
  }

  /** Where the formatted text has a blank, some plain characters on, the plain text
      goes on with something else. */
  ghost predicate Breaks(t: string, u: string) {
    exists x, w, t', c, u' :: BreaksAt(t, u, x, w, t', c, u')
  }

  ghost predicate BreaksAt(t: string, u: string, x: string, w: char, t': string, c: char, u': string) {
    t == x + ([w] + t') && u == x + ([c] + u') && Unquoted(x) && IsBlank(w) && w != c
  }

  /** A string whose closing quote was missed keeps that blank. */
  lemma {:induction false} BreaksInside(t: string, u: string)
    requires Breaks(t, u)
    ensures Differs(InString(t), u)
  {
    hide InString;
    var x, w, t', c, u' :| BreaksAt(t, u, x, w, t', c, u');
    UnquotedStays(x, [w] + t');
    InStringCons(w, t');
    assert ([w] + InString(t'))[0] != ([c] + u')[0];
    DiffersBehind(x, [w] + InString(t'), [c] + u');
  }

  lemma {:induction false} BreaksBehindBracket(t: string, u: string)
    requires Breaks(t, u)
    ensures Breaks("]" + t, "]" + u)
  {
    var x, w, t', c, u' :| BreaksAt(t, u, x, w, t', c, u');
    Regroup("]", x, [w] + t');
    Regroup("]", x, [c] + u');
    assert Unquoted("]" + x);
    assert BreaksAt("]" + t, "]" + u, "]" + x, w, t', c, u');
  }

  lemma {:induction false} QuoteBreaks(s: string, t: string, u: string)
    requires EndsInBackslash(s) && Breaks(t, u)
    ensures Differs(Minified(Quote(s) + t), Quote(s) + u)
  {
    hide InString; hide Minified; hide Quote; hide Breaks; hide Differs; hide EndsInBackslash;
    QuotePasses(s, t);
    BreaksInside(t, u);
    DiffersBehind(Quote(s), InString(t), u);
  }

  /** Behind an item that is not the last. */
  lemma {:induction false} SeparatorBreaks(t: string, u: string)
    requires u != [] && u[0] != ' '
    ensures Breaks(Separator(true) + t, Separator(false) + u)
  {
    assert Separator(true) + t == "," + ([' '] + t);
    assert Separator(false) + u == "," + ([u[0]] + u[1..]);
    assert BreaksAt(Separator(true) + t, Separator(false) + u, ",", ' ', t, u[0], u[1..]);
  }

  lemma {:induction false} ColonBreaks(t: string, u: string)
    requires u != [] && u[0] != '\t'
    ensures Breaks(Colon(true) + t, Colon(false) + u)
  {
    assert Colon(true) + t == ":" + (['\t'] + t);
    assert Colon(false) + u == ":" + ([u[0]] + u[1..]);
    assert BreaksAt(Colon(true) + t, Colon(false) + u, ":", '\t', t, u[0], u[1..]);
  }

  /** Behind the value of a member. */
  lemma {:induction false} BehindBreaks(io: NumberIo, ms: seq<Member>, d: nat, t: string, u: string)
    requires ms != [] && u != [] && u[0] == '}'
    ensures Breaks(Behind(io, ms, true, d, t), Behind(io, ms, false, d, u))
  {
    hide RenderMembers;
    var t', u' := RenderMembers(io, ms[1..], true, d) + t, RenderMembers(io, ms[1..], false, d) + u;
    var x := if |ms| > 1 then "," else [];
    MembersFirst(io, ms[1..], d, u);
    assert Newline(false) + u' == u' == [u'[0]] + u'[1..];
    assert BreaksAt(Behind(io, ms, true, d, t), Behind(io, ms, false, d, u), x, '\n', t', u'[0], u'[1..]);
  }

  lemma {:induction false} MembersFirst(io: NumberIo, ms: seq<Member>, d: nat, u: string)
    requires u != [] && u[0] == '}'
    ensures var r := RenderMembers(io, ms, false, d) + u; r != [] && r[0] > ' '
  {
    hide Render; hide RenderMembers;
    if ms == [] {
      NoMembers(io, false, d);
      NothingBetween(u);
    } else {
      MembersRegroup(io, ms, false, d, u);
      IndentGoes(d, []);
      hide Escapes;
    }
  }

  lemma {:induction false} ValueFirst(io: NumberIo, j: Json, d: nat, u: string)
    requires Plain(io, j)
    ensures var r := Render(io, j, false, d) + u; r != [] && r[0] > ' '
  {
    hide Render; hide Plain;
    RenderFirst(io, j, false, d);
  }

  lemma {:induction false} ItemsFirst(io: NumberIo, xs: seq<Json>, d: nat, u: string)
    requires xs != [] && PlainItems(io, xs)
    ensures var r := RenderItems(io, xs, false, d) + u; r != [] && r[0] > ' '
  {
    hide Render; hide RenderItems; hide PlainItems; hide Plain;
    ItemsRegroup(io, xs, false, d, u);
    ValueFirst(io, xs[0], d, if |xs| > 1 then Separator(false) + (RenderItems(io, xs[1..], false, d) + u) else u);
  }

  lemma {:induction false} DirtyValue(io: NumberIo, j: Json, d: nat, t: string, u: string)
    requires Plain(io, j) && !Clean(j) && (Breaks(t, u) || j.Object?)
    ensures Differs(Minified(Render(io, j, true, d) + t), Render(io, j, false, d) + u)
    decreases j, 1
  {
    hide Render; hide Minified; hide Plain; hide Clean; hide Quote; hide Breaks; hide Differs; hide EndsInBackslash; hide Harmless;
    CleanCases(io, j);
    RenderLeaf(io, j, true, d);
    RenderLeaf(io, j, false, d);
    match j {
      case Text(s) => QuoteBreaks(s, t, u);
      case Array(xs) => DirtyArray(io, xs, d, t, u);
      case Object(ms) => DirtyObject(io, ms, d, t, u);
    }
  }

  lemma {:induction false} DirtyArray(io: NumberIo, xs: seq<Json>, d: nat, t: string, u: string)
    requires PlainItems(io, xs) && !CleanItems(xs) && Breaks(t, u)
    ensures Differs(Minified(Render(io, Array(xs), true, d) + t), Render(io, Array(xs), false, d) + u)
    decreases xs, 2
  {
    hide Render; hide RenderItems; hide Minified; hide PlainItems; hide CleanItems; hide Breaks; hide Differs;
    ArrayRegroup(io, xs, true, d, t);
    ArrayRegroup(io, xs, false, d, u);
    Punctuation('[', RenderItems(io, xs, true, d + 1) + ("]" + t));
    BreaksBehindBracket(t, u);
    DirtyItems(io, xs, d + 1, "]" + t, "]" + u);
    DiffersBehind("[", Minified(RenderItems(io, xs, true, d + 1) + ("]" + t)), RenderItems(io, xs, false, d + 1) + ("]" + u));
  }

  /** A clean item that is not the last is the same in both texts. */
  lemma {:induction false} PastCleanItem(io: NumberIo, xs: seq<Json>, d: nat, t: string, u: string)
    requires |xs| > 1 && PlainItems(io, xs) && Clean(xs[0])
    requires Differs(Minified(RenderItems(io, xs[1..], true, d) + t), RenderItems(io, xs[1..], false, d) + u)
    ensures Differs(Minified(RenderItems(io, xs, true, d) + t), RenderItems(io, xs, false, d) + u)
  {
    hide Render; hide RenderItems; hide Minified; hide PlainItems; hide Plain; hide Clean; hide Differs; hide Separator;
    var rest, rest' := RenderItems(io, xs[1..], true, d) + t, RenderItems(io, xs[1..], false, d) + u;
    ItemsRegroup(io, xs, true, d, t);
    ItemsRegroup(io, xs, false, d, u);
    CleanValue(io, xs[0], d, Separator(true) + rest);
    SeparatorShrinks(rest);
    DiffersBehind(Separator(false), Minified(rest), rest');
    DiffersBehind(Render(io, xs[0], false, d), Separator(false) + Minified(rest), Separator(false) + rest');
  }

  /** An unclean item with more behind it spoils the text. */
  lemma {:induction false} AtDirtyItem(io: NumberIo, xs: seq<Json>, d: nat, t: string, u: string)
    requires |xs| > 1 && PlainItems(io, xs) && !Clean(xs[0])
    ensures Differs(Minified(RenderItems(io, xs, true, d) + t), RenderItems(io, xs, false, d) + u)
    decreases xs, 0
  {
    hide Render; hide RenderItems; hide Minified; hide PlainItems; hide Plain; hide Clean; hide Differs; hide Separator; hide Breaks;
    var rest, rest' := RenderItems(io, xs[1..], true, d) + t, RenderItems(io, xs[1..], false, d) + u;
    ItemsRegroup(io, xs, true, d, t);
    ItemsRegroup(io, xs, false, d, u);
    ItemsFirst(io, xs[1..], d, u);
    SeparatorBreaks(rest, rest');
    DirtyValue(io, xs[0], d, Separator(true) + rest, Separator(false) + rest');
  }

  lemma {:induction false} DirtyItems(io: NumberIo, xs: seq<Json>, d: nat, t: string, u: string)
    requires PlainItems(io, xs) && !CleanItems(xs) && Breaks(t, u)
    ensures Differs(Minified(RenderItems(io, xs, true, d) + t), RenderItems(io, xs, false, d) + u)
    decreases xs, 1
  {
    hide Render; hide RenderItems; hide Minified; hide PlainItems; hide Plain; hide Clean; hide Differs; hide Separator; hide Breaks;
    ItemsRegroup(io, xs, true, d, t);
    ItemsRegroup(io, xs, false, d, u);
    if |xs| == 1 {
      assert xs[1..] == [];
      DirtyValue(io, xs[0], d, t, u);
    } else if Clean(xs[0]) {
      DirtyItems(io, xs[1..], d, t, u);
      PastCleanItem(io, xs, d, t, u);
    } else {
      AtDirtyItem(io, xs, d, t, u);
    }
  }

  lemma {:induction false} DirtyObject(io: NumberIo, ms: seq<Member>, d: nat, t: string, u: string)
    requires PlainMembers(io, ms) && !CleanMembers(ms)
    ensures Differs(Minified(Render(io, Object(ms), true, d) + t), Render(io, Object(ms), false, d) + u)
    decreases ms, 1
  {
    hide Render; hide RenderMembers; hide Minified; hide PlainMembers; hide CleanMembers; hide Newline; hide Indent; hide Differs;
    var body, body' := RenderMembers(io, ms, true, d + 1), RenderMembers(io, ms, false, d + 1);
    var tail := Indent(true, d) + ("}" + t);
    ObjectRegroup(io, ms, true, d, t);
    ObjectRegroup(io, ms, false, d, u);
    Punctuation('{', Newline(true) + (body + tail));
    IndentGoes(d, body + tail);
    NothingBetween("}" + u);
    NothingBetween(body' + ("}" + u));
    DirtyMembers(io, ms, d + 1, tail, "}" + u);
    DiffersBehind("{", Minified(body + tail), body' + ("}" + u));
  }

  lemma {:induction false} DirtyMembers(io: NumberIo, ms: seq<Member>, d: nat, t: string, u: string)
    requires PlainMembers(io, ms) && !CleanMembers(ms) && u != [] && u[0] == '}'
    ensures Differs(Minified(RenderMembers(io, ms, true, d) + t), RenderMembers(io, ms, false, d) + u)
    decreases ms, 0
  {
    hide Render; hide RenderMembers; hide Minified; hide PlainMembers; hide Plain; hide Clean; hide Quote; hide Colon; hide Indent;
    hide Behind; hide EndsInBackslash; hide Differs; hide Breaks;
    var key, v, v' := ms[0].key, Render(io, ms[0].value, true, d), Render(io, ms[0].value, false, d);
    var behind, behind' := Behind(io, ms, true, d, t), Behind(io, ms, false, d, u);
    MembersRegroup(io, ms, true, d, t);
    MembersRegroup(io, ms, false, d, u);
    IndentGoes(d, Quote(key) + (Colon(true) + (v + behind)));
    NothingBetween(Quote(key) + (Colon(false) + (v' + behind')));
    if EndsInBackslash(key) {
      ValueFirst(io, ms[0].value, d, behind');
      ColonBreaks(v + behind, v' + behind');
      QuoteBreaks(key, Colon(true) + (v + behind), Colon(false) + (v' + behind'));
    } else {
      KeyClean(key, d, v + behind);
      assert Differs(Minified(v + behind), v' + behind') by {
        if !Clean(ms[0].value) {
          BehindBreaks(io, ms, d, t, u);
          DirtyValue(io, ms[0].value, d, behind, behind');
        } else {
          CleanValue(io, ms[0].value, d, behind);
          DirtyMembers(io, ms[1..], d, t, u);
          BehindDiffers(io, ms, d, t, u);
          DiffersBehind(v', Minified(behind), behind');
        }
      }
      DiffersBehind(Colon(false), Minified(v + behind), v' + behind');
      DiffersBehind(Quote(key), Colon(false) + Minified(v + behind), Colon(false) + (v' + behind'));
    }
  }

  lemma {:induction false} BehindDiffers(io: NumberIo, ms: seq<Member>, d: nat, t: string, u: string)
    requires |ms| > 1 && Differs(Minified(RenderMembers(io, ms[1..], true, d) + t), RenderMembers(io, ms[1..], false, d) + u)
    ensures Differs(Minified(Behind(io, ms, true, d, t)), Behind(io, ms, false, d, u))
  {
    hide RenderMembers; hide Minified; hide Newline; hide Indent; hide Differs;
    var rest, rest' := RenderMembers(io, ms[1..], true, d) + t, RenderMembers(io, ms[1..], false, d) + u;
    IndentGoes(d, rest);
    NothingBetween(rest');
    Punctuation(',', Newline(true) + rest);
    DiffersBehind(",", Minified(rest), rest');
  }

  // ----- whole trees

  predicate Brackets(b: string) {
    forall k :: 0 <= k < |b| ==> b[k] == ']'
  }

  lemma {:induction false} BracketsStay(b: string)
    requires Brackets(b)
    ensures Minified(b) == b && InString(b) == b
  {
    hide Minified; hide InString;
    SolidStays(b, []);
    UnquotedStays(b, []);
    assert b + [] == b;
    NothingLeft();
  }

  lemma {:induction false} NothingLeft()
    ensures Minified([]) == [] && InString([]) == []
  {
  }

  /** Minified, the text is the plain one, or it differs from it somewhere. */
  ghost predicate Decided(harmless: bool, a: string, b: string) {
    if harmless then a == b else Differs(a, b)
  }

  lemma {:induction false} DecidedBehind(harmless: bool, x: string, a: string, b: string)
    requires Decided(harmless, a, b)
    ensures Decided(harmless, x + a, x + b)
  {
    hide Differs;
    if !harmless { DiffersBehind(x, a, b); }
  }

  lemma {:induction false} ValueDecided(io: NumberIo, j: Json, d: nat, b: string)
    requires Plain(io, j) && Brackets(b)
    ensures Decided(Harmless(j), Minified(Render(io, j, true, d) + b), Render(io, j, false, d) + b)
    decreases j, 1
  {
    hide Render; hide Minified; hide Plain; hide Clean; hide Quote; hide EndsInBackslash; hide Harmless; hide Differs; hide Brackets;
    CleanCases(io, j);
    RenderLeaf(io, j, true, d);
    RenderLeaf(io, j, false, d);
    BracketsStay(b);
    match j {
      case Text(s) => QuotePasses(s, b);
      case Array(xs) => ArrayDecided(io, xs, d, b);
      case Object(ms) => if Harmless(j) { CleanValue(io, j, d, b); } else { DirtyObject(io, ms, d, b, b); }
      case _ => CleanValue(io, j, d, b);
    }
  }

  lemma {:induction false} ArrayDecided(io: NumberIo, xs: seq<Json>, d: nat, b: string)
    requires PlainItems(io, xs) && Brackets(b)
    ensures Decided(HarmlessItems(xs), Minified(Render(io, Array(xs), true, d) + b), Render(io, Array(xs), false, d) + b)
    decreases xs, 1
  {
    hide Render; hide RenderItems; hide Minified; hide PlainItems; hide HarmlessItems; hide Decided;
    ArrayRegroup(io, xs, true, d, b);
    ArrayRegroup(io, xs, false, d, b);
    Punctuation('[', RenderItems(io, xs, true, d + 1) + ("]" + b));
    ItemsDecided(io, xs, d + 1, "]" + b);
    DecidedBehind(HarmlessItems(xs), "[", Minified(RenderItems(io, xs, true, d + 1) + ("]" + b)), RenderItems(io, xs, false, d + 1) + ("]" + b));
  }

  lemma {:induction false} ItemsDecided(io: NumberIo, xs: seq<Json>, d: nat, b: string)
    requires PlainItems(io, xs) && Brackets(b)
    ensures Decided(HarmlessItems(xs), Minified(RenderItems(io, xs, true, d) + b), RenderItems(io, xs, false, d) + b)
    decreases xs, 0
  {
    hide Render; hide RenderItems; hide Minified; hide PlainItems; hide Plain; hide Clean; hide Harmless; hide Differs; hide Separator;
    hide Brackets;
    if xs == [] {
      NoItems(io, true, d);
      NoItems(io, false, d);
      NothingBetween(b);
      BracketsStay(b);
    } else {
      ItemsRegroup(io, xs, true, d, b);
      ItemsRegroup(io, xs, false, d, b);
      if |xs| == 1 {
        ValueDecided(io, xs[0], d, b);
      } else if !Clean(xs[0]) {
        AtDirtyItem(io, xs, d, b, b);
      } else {
        ItemsDecided(io, xs[1..], d, b);
        if HarmlessItems(xs[1..]) {
          var rest := RenderItems(io, xs[1..], true, d) + b;
          CleanValue(io, xs[0], d, Separator(true) + rest);
          SeparatorShrinks(rest);
        } else {
          PastCleanItem(io, xs, d, b, b);
        }
      }
    }
  }

  /** The formatted text of a tree, minified, is its plain text exactly when the tree
      is harmless; in particular when no string and no key ends in a backslash. */
  lemma {:induction false} MinifyFormatted(io: NumberIo, j: Json)
    requires Plain(io, j)
    ensures Minified(Render(io, j, true, 0)) == Render(io, j, false, 0) <==> Harmless(j)
  {
    hide Render; hide Minified; hide Plain; hide Harmless;
    ValueDecided(io, j, 0, []);
    assert Render(io, j, true, 0) + [] == Render(io, j, true, 0) && Render(io, j, false, 0) + [] == Render(io, j, false, 0);
  }

  lemma {:induction false} CleanIsHarmless(j: Json)
    requires Clean(j)
    ensures Harmless(j)
    decreases j
  {
    match j {
      case Array(xs) => CleanItemsAreHarmless(xs);
      case _ =>
    }
  }

  lemma {:induction false} CleanItemsAreHarmless(xs: seq<Json>)
    requires CleanItems(xs)
    ensures HarmlessItems(xs)
    decreases xs
  {
    if xs != [] {
      CleanIsHarmless(xs[0]);
      CleanItemsAreHarmless(xs[1..]);
    }
  }

  /** A string that ends in a backslash, with another item behind it, is not. */
  lemma {:induction false} BackslashThenItem(io: NumberIo, s: string, j: Json)
    requires NulFree(s) && Plain(io, j)
    ensures var tree := Array([Text(s + "\\"), j]);
      Plain(io, tree) && Minified(Render(io, tree, true, 0)) != Render(io, tree, false, 0)
  {
    hide Render; hide Minified;
    var tree := Array([Text(s + "\\"), j]);
    assert [Text(s + "\\"), j][1..] == [j] && [j][1..] == [];
    assert EndsInBackslash(s + "\\");
    assert !Clean(Text(s + "\\"));
    assert Plain(io, Text(s + "\\"));
    assert PlainItems(io, [j]);
    MinifyFormatted(io, tree);
  }
}
