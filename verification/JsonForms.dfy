/** The texts the parser accepts, written down as what they are made of. */
module JsonForms {
  import opened Keys
  import opened Trees
  import opened JsonStrings
  import opened StringForms
  import opened Rendering
  import opened Parsing

  // ----- blanks

  /** Blanks, line ends, tabs and all other control characters. */
  predicate Blank(x: string) {
    forall k :: 0 <= k < |x| ==> x[k] <= ' '
  }

  /** Skipping goes through blanks. */
  lemma {:induction false} SkipThrough(t: string, i: nat, x: string)
    requires At(t, i, x) && Blank(x) && i + |x| < |t|
    ensures Skip(t, i) == Skip(t, i + |x|)
    decreases |x|
  {
    if x != [] {
      assert x == [x[0]] + x[1..];
      AtSplit(t, i, [x[0]], x[1..]);
      AtChar(t, i, x[0]);
      SkipThrough(t, i + 1, x[1..]);
    }
  }

  lemma {:induction false} SkipStays(t: string, i: nat)
    requires i < |t| && t[i] > ' '
    ensures Skip(t, i) == i
  {
  }

  lemma {:induction false} SkipBlank(t: string, i: nat, x: string)
    requires At(t, i, x) && Blank(x) && i + |x| < |t| && t[i + |x|] > ' '
    ensures Skip(t, i) == i + |x|
  {
    SkipThrough(t, i, x);
    SkipStays(t, i + |x|);
  }

  /** What has been skipped is blank, and what comes then is not, unless it is the end. */
  lemma {:induction false} Skipped(t: string, i: nat)
    requires i < |t|
    ensures var k := Skip(t, i); Blank(t[i..k]) && At(t, i, t[i..k]) && (t[k] > ' ' || k == |t| - 1)
    ensures Skip(t, Skip(t, i)) == Skip(t, i)
    decreases |t| - i
  {
    if t[i] <= ' ' && i + 1 < |t| {
      Skipped(t, i + 1);
      assert t[i..Skip(t, i)] == [t[i]] + t[i + 1..Skip(t, i)];
    }
  }

  // ----- forms

  /** A number in a form the C library reads to its end. */
  predicate NumberText(io: NumberIo, x: string, n: Num) {
    && 1 <= |x| <= CHUNK && (x[0] == '-' || '0' <= x[0] <= '9')
    && (forall i :: 0 <= i < |x| ==> Numeral(x[i])) && io.scan(x) == (n, |x|)
  }

  /** A value with the text it is written in; blanks may stand around every token. */
  datatype Form =
    | WordForm(word: Json)
    | NumberForm(text: string, num: Num)
    | StringForm(text: string, s: string)
    | ArrayForm(blank: string, items: seq<ItemForm>)
    | ObjectForm(blank: string, members: seq<MemberForm>)
  datatype ItemForm = ItemForm(before: string, form: Form, after: string)
  datatype MemberForm = MemberForm(before: string, text: string, key: string, mid: string, gap: string, form: Form, after: string)

  function WordText(j: Json): string {
    match j
    case Null => "null"
    case False => "false"
    case _ => "true"
  }

  function Spell(f: Form): string
    decreases f
  {
    match f
    case WordForm(j) => WordText(j)
    case NumberForm(text, _) => text
    case StringForm(text, _) => text
    case ArrayForm(blank, items) => "[" + ((if items == [] then blank else SpellItems(items)) + "]")
    case ObjectForm(blank, members) => "{" + ((if members == [] then blank else SpellMembers(members)) + "}")
  }

  function SpellItems(items: seq<ItemForm>): string
    decreases items
  {
    if items == [] then []
    else
      var x := items[0];
      x.before + (Spell(x.form) + (x.after + (if |items| == 1 then [] else "," + SpellItems(items[1..]))))
  }

  function SpellMembers(members: seq<MemberForm>): string
    decreases members
  {
    if members == [] then []
    else
      var m := members[0];
      m.before + (m.text + (m.mid + (":" + (m.gap + (Spell(m.form)
        + (m.after + (if |members| == 1 then [] else "," + SpellMembers(members[1..]))))))))
  }

  function ValueOf(f: Form): Json
    decreases f
  {
    match f
    case WordForm(j) => j
    case NumberForm(_, n) => Number(n)
    case StringForm(_, s) => Text(s)
    case ArrayForm(_, items) => Array(ItemValues(items))
    case ObjectForm(_, members) => Object(MemberValues(members))
  }

  function ItemValues(items: seq<ItemForm>): (xs: seq<Json>)
    ensures |xs| == |items|
    decreases items
  {
    if items == [] then [] else [ValueOf(items[0].form)] + ItemValues(items[1..])
  }

  function MemberValues(members: seq<MemberForm>): (ms: seq<Member>)
    ensures |ms| == |members|
    decreases members
  {
    if members == [] then [] else [Member(members[0].key, ValueOf(members[0].form))] + MemberValues(members[1..])
  }

  predicate FormOk(io: NumberIo, f: Form)
    decreases f
  {
    match f
    case WordForm(j) => j == Null || j == False || j == True
    case NumberForm(text, n) => NumberText(io, text, n)
    case StringForm(text, s) => StringText(text, s)
    case ArrayForm(blank, items) => Blank(blank) && ItemsOk(io, items)
    case ObjectForm(blank, members) => Blank(blank) && MembersOk(io, members)
  }

  predicate ItemsOk(io: NumberIo, items: seq<ItemForm>)
    decreases items
  {
    items == []
    || (Blank(items[0].before) && Blank(items[0].after) && FormOk(io, items[0].form) && ItemsOk(io, items[1..]))
  }

  predicate MembersOk(io: NumberIo, members: seq<MemberForm>)
    decreases members
  {
    members == []
    || (var m := members[0];
        && Blank(m.before) && Blank(m.mid) && Blank(m.gap) && Blank(m.after)
        && StringText(m.text, m.key) && FormOk(io, m.form) && MembersOk(io, members[1..]))
  }

  lemma {:induction false} SpellFirst(io: NumberIo, f: Form)
    requires FormOk(io, f)
    ensures var x := Spell(f); x != [] && ' ' < x[0] < '\U{80}' && x[0] != ']' && x[0] != '}' && x[0] != ','
  {
    hide SpellItems; hide SpellMembers; hide ItemsOk; hide MembersOk; hide FindEnd; hide Decode;
  }

  // ----- what is read

  /** What is read: the value, or nothing where the nesting goes too deep. */
  function Expect<T>(fits: bool, v: T, next: nat): Parsed<T> {
    if fits then Ok(v, next) else Fail
  }

  /** Nesting that deep is accepted from here. */
  predicate Fits(depth: nat, nesting: nat) {
    nesting == 0 || depth + nesting <= NESTING_LIMIT
  }

  lemma {:induction false} NumeralRun(t: string, i: nat, f: string, room: nat)
    requires At(t, i, f) && |f| <= room && i + |f| < |t| && !Numeral(t[i + |f|])
    requires forall k :: 0 <= k < |f| ==> Numeral(f[k])
    ensures NumeralEnd(t, i, room) == i + |f|
    decreases |f|
  {
    if f != [] {
      assert f == [f[0]] + f[1..];
      AtSplit(t, i, [f[0]], f[1..]);
      AtChar(t, i, f[0]);
      NumeralRun(t, i + 1, f[1..], room - 1);
    }
  }

  lemma {:induction false} NumberReads(io: NumberIo, t: string, i: nat, x: string, n: Num, depth: nat)
    requires NumberText(io, x, n) && Terminated(t) && At(t, i, x) && i + |x| < |t| && !Numeral(t[i + |x|])
    ensures ParseValue(io, t, i, depth) == Ok(Number(n), i + |x|)
  {
    NumeralRun(t, i, x, CHUNK);
    AtChars(t, i, x);
    assert t[i + 0] == x[0];
    NoLiteral(t, i);
    assert t[i..i + |x|] == x;
    LeafUnfold(io, t, i, depth);
  }

  lemma {:induction false} StringFormReads(io: NumberIo, t: string, i: nat, x: string, s: string, depth: nat)
    requires StringText(x, s) && Terminated(t) && i < |t| && At(t, i, x)
    ensures ParseValue(io, t, i, depth) == Ok(Text(s), i + |x|)
  {
    StringTextReads(t, i, x, s);
    AtFirst(t, i, x);
    assert t[i] == '\"';
    hide ParseStr; hide At;
    NoLiteral(t, i);
    LeafUnfold(io, t, i, depth);
  }

  lemma {:induction false} WordReads(io: NumberIo, t: string, i: nat, j: Json, depth: nat)
    requires (j == Null || j == False || j == True) && Terminated(t) && i < |t| && At(t, i, WordText(j))
    ensures ParseValue(io, t, i, depth) == Ok(j, i + |WordText(j)|) && Nesting(j) == 0
  {
    hide At; hide ParseValue;
    LiteralUnfold(io, t, i, depth);
  }

  /** A form reads as its value, wherever it stands and whatever follows, exactly when it
      is not nested too deeply there. */
  lemma {:induction false} FormReads(io: NumberIo, t: string, i: nat, f: Form, depth: nat)
    requires FormOk(io, f) && Terminated(t) && i < |t| && At(t, i, Spell(f))
    requires var e := i + |Spell(f)|; e < |t| && !Numeral(t[e])
    ensures ParseValue(io, t, i, depth) == Expect(Fits(depth, Nesting(ValueOf(f))), ValueOf(f), i + |Spell(f)|)
    decreases f, 1
  {
    hide ParseValue; hide At; hide Terminated; hide Numeral; hide ItemsOk; hide MembersOk; hide SpellItems; hide SpellMembers;
    hide StringText; hide NumberText;
    match f {
      case WordForm(j) => WordReads(io, t, i, j, depth);
      case NumberForm(x, n) => NumberReads(io, t, i, x, n, depth);
      case StringForm(x, s) => StringFormReads(io, t, i, x, s, depth);
      case ArrayForm(blank, items) => ArrayReads(io, t, i, blank, items, depth);
      case ObjectForm(blank, members) => ObjectReads(io, t, i, blank, members, depth);
    }
  }

  lemma {:induction false} ItemsFromSkip(io: NumberIo, t: string, i: nat, depth: nat)
    requires i < |t| && Terminated(t)
    ensures ParseItems(io, t, Skip(t, i), depth) == ParseItems(io, t, i, depth)
  {
    hide ParseValue; hide ParseItems; hide Skip; hide Blank; hide At; hide Terminated;
    Skipped(t, i);
    ItemsUnfold(io, t, i, depth);
    ItemsUnfold(io, t, Skip(t, i), depth);
  }

  lemma {:induction false} MembersFromSkip(io: NumberIo, t: string, i: nat, depth: nat)
    requires i < |t| && Terminated(t)
    ensures ParseMembers(io, t, Skip(t, i), depth) == ParseMembers(io, t, i, depth)
  {
    hide ParseValue; hide ParseMember; hide ParseMembers; hide Skip; hide ParseStr; hide Blank; hide At; hide Terminated;
    Skipped(t, i);
    MembersUnfold(io, t, i, depth);
    MembersUnfold(io, t, Skip(t, i), depth);
    MemberUnfold(io, t, i, depth);
    MemberUnfold(io, t, Skip(t, i), depth);
  }

  /** Where the parts of the first item stand. */
  lemma {:induction false} ItemAt(t: string, i: nat, items: seq<ItemForm>)
    requires items != [] && At(t, i, SpellItems(items))
    ensures var x := items[0];
      var b := i + |x.before|;
      var n := b + |Spell(x.form)|;
      var a := n + |x.after|;
      && At(t, i, x.before) && At(t, b, Spell(x.form)) && At(t, n, x.after)
      && (|items| == 1 ==> a == i + |SpellItems(items)|)
      && (|items| > 1 ==> At(t, a, ",") && At(t, a + 1, SpellItems(items[1..])) && a + 1 + |SpellItems(items[1..])| == i + |SpellItems(items)|)
  {
    hide At; hide Spell;
    var x := items[0];
    var tail := if |items| == 1 then [] else "," + SpellItems(items[1..]);
    AtSplit(t, i, x.before, Spell(x.form) + (x.after + tail));
    AtSplit(t, i + |x.before|, Spell(x.form), x.after + tail);
    AtSplit(t, i + |x.before| + |Spell(x.form)|, x.after, tail);
    if |items| > 1 { AtSplit(t, i + |x.before| + |Spell(x.form)| + |x.after|, ",", SpellItems(items[1..])); }
  }

  /** What follows a value is a blank or the character behind the blanks: no part of a number. */
  lemma {:induction false} NoNumeral(t: string, n: nat, blank: string)
    requires At(t, n, blank) && Blank(blank) && n + |blank| < |t|
    requires t[n + |blank|] == ',' || t[n + |blank|] == ']' || t[n + |blank|] == '}'
    ensures !Numeral(t[n]) && Skip(t, n) == n + |blank|
  {
    if blank != [] { AtFirst(t, n, blank); }
    SkipBlank(t, n, blank);
  }

  lemma {:induction false} ItemsRead(io: NumberIo, t: string, i: nat, items: seq<ItemForm>, depth: nat)
    requires items != [] && ItemsOk(io, items) && Terminated(t) && At(t, i, SpellItems(items)) && depth <= NESTING_LIMIT
    requires var e := i + |SpellItems(items)|; e < |t| && t[e] == ']'
    ensures ParseItems(io, t, i, depth)
         == Expect(Fits(depth, NestingItems(ItemValues(items))), ItemValues(items), i + |SpellItems(items)| + 1)
    decreases items, 0
  {
    hide ParseValue; hide ParseItems; hide At; hide Spell; hide SpellItems; hide Nesting; hide Skip; hide Blank; hide ValueOf;
    hide FormOk; hide Terminated; hide Numeral;
    var x := items[0];
    var b := i + |x.before|;
    var n := b + |Spell(x.form)|;
    var a := n + |x.after|;
    ItemAt(t, i, items);
    if |items| > 1 { AtChar(t, a, ','); }
    SpellFirst(io, x.form);
    AtFirst(t, b, Spell(x.form));
    SkipBlank(t, i, x.before);
    NoNumeral(t, n, x.after);
    ItemsUnfold(io, t, i, depth);
    FormReads(io, t, b, x.form, depth);
    if |items| > 1 {
      ItemsRead(io, t, a + 1, items[1..], depth);
      assert ItemValues(items)[1..] == ItemValues(items[1..]);
    } else {
      assert ItemValues(items) == [ValueOf(x.form)];
      assert ItemValues(items)[1..] == [];
    }
  }

  lemma {:induction false} ArrayReads(io: NumberIo, t: string, i: nat, blank: string, items: seq<ItemForm>, depth: nat)
    requires Blank(blank) && ItemsOk(io, items) && Terminated(t) && At(t, i, Spell(ArrayForm(blank, items)))
    requires i + |Spell(ArrayForm(blank, items))| < |t|
    ensures ParseValue(io, t, i, depth)
         == Expect(Fits(depth, Nesting(Array(ItemValues(items)))), Array(ItemValues(items)), i + |Spell(ArrayForm(blank, items))|)
    decreases items, 1
  {
    hide ParseValue; hide ParseItems; hide At; hide SpellItems; hide Skip; hide Blank; hide ItemsOk; hide Terminated; hide NestingItems;
    hide ItemValues; hide Nesting;
    NestingOf(ItemValues(items), []);
    var inner := if items == [] then blank else SpellItems(items);
    AtSplit(t, i, "[", inner + "]");
    AtSplit(t, i + 1, inner, "]");
    AtChar(t, i, '[');
    AtChar(t, i + 1 + |inner|, ']');
    ArrayUnfold(io, t, i, depth);
    if items == [] {
      SkipBlank(t, i + 1, blank);
      NoValues();
    } else {
      ItemsStart(io, t, i + 1, items);
      ItemsFromSkip(io, t, i + 1, depth + 1);
      if depth < NESTING_LIMIT { ItemsRead(io, t, i + 1, items, depth + 1); }
    }
  }

  lemma NestingOf(xs: seq<Json>, ms: seq<Member>)
    ensures Nesting(Array(xs)) == 1 + NestingItems(xs) && Nesting(Object(ms)) == 1 + NestingMembers(ms)
  {
    hide NestingItems; hide NestingMembers;
  }

  lemma NoValues()
    ensures NestingItems([]) == 0 && NestingMembers([]) == 0 && ItemValues([]) == [] && MemberValues([]) == []
  {
  }

  lemma {:induction false} ItemsStart(io: NumberIo, t: string, i: nat, items: seq<ItemForm>)
    requires items != [] && ItemsOk(io, items) && At(t, i, SpellItems(items)) && i < |t|
    ensures t[Skip(t, i)] != ']'
  {
    hide At; hide Spell; hide SpellItems; hide Skip; hide Blank; hide FormOk;
    var x := items[0];
    ItemAt(t, i, items);
    SpellFirst(io, x.form);
    AtFirst(t, i + |x.before|, Spell(x.form));
    SkipBlank(t, i, x.before);
  }

  // ----- objects

  /** Where the parts of the first member stand. */
  datatype Places = Places(text: nat, mid: nat, colon: nat, form: nat, after: nat, end: nat)

  function PlacesOf(i: nat, m: MemberForm): Places {
    var k := i + |m.before|;
    var d := k + |m.text|;
    var c := d + |m.mid|;
    var f := c + 1 + |m.gap|;
    var n := f + |Spell(m.form)|;
    Places(k, d, c, f, n, n + |m.after|)
  }

  lemma {:induction false} MemberAt(t: string, i: nat, members: seq<MemberForm>)
    requires members != [] && At(t, i, SpellMembers(members))
    ensures var m, p := members[0], PlacesOf(i, members[0]);
      && At(t, i, m.before) && At(t, p.text, m.text) && At(t, p.mid, m.mid) && At(t, p.colon, ":")
      && At(t, p.colon + 1, m.gap) && At(t, p.form, Spell(m.form)) && At(t, p.after, m.after)
      && (|members| == 1 ==> p.end == i + |SpellMembers(members)|)
      && (|members| > 1 ==>
            && At(t, p.end, ",") && At(t, p.end + 1, SpellMembers(members[1..]))
            && p.end + 1 + |SpellMembers(members[1..])| == i + |SpellMembers(members)|)
  {
    hide At; hide Spell;
    var m, p := members[0], PlacesOf(i, members[0]);
    var tail := if |members| == 1 then [] else "," + SpellMembers(members[1..]);
    var form := Spell(m.form);
    AtSplit(t, i, m.before, m.text + (m.mid + (":" + (m.gap + (form + (m.after + tail))))));
    AtSplit(t, p.text, m.text, m.mid + (":" + (m.gap + (form + (m.after + tail)))));
    AtSplit(t, p.mid, m.mid, ":" + (m.gap + (form + (m.after + tail))));
    AtSplit(t, p.colon, ":", m.gap + (form + (m.after + tail)));
    AtSplit(t, p.colon + 1, m.gap, form + (m.after + tail));
    AtSplit(t, p.form, form, m.after + tail);
    AtSplit(t, p.after, m.after, tail);
    if |members| > 1 { AtSplit(t, p.end, ",", SpellMembers(members[1..])); }
  }

  /** The key and the colon are passed, with the blanks around them. */
  lemma {:induction false} MemberStarts(io: NumberIo, t: string, i: nat, m: MemberForm)
    requires Blank(m.before) && Blank(m.mid) && Blank(m.gap) && StringText(m.text, m.key) && FormOk(io, m.form)
    requires var p := PlacesOf(i, m);
      && At(t, i, m.before) && At(t, p.text, m.text) && At(t, p.mid, m.mid) && At(t, p.colon, ":")
      && At(t, p.colon + 1, m.gap) && At(t, p.form, Spell(m.form))
    ensures var p := PlacesOf(i, m);
      && i < |t| && Skip(t, i) == p.text && t[p.text] == '\"' && ParseStr(t, p.text) == Ok(m.key, p.mid)
      && p.mid < |t| && Skip(t, p.mid) == p.colon && t[p.colon] == ':'
      && p.colon + 1 < |t| && Skip(t, p.colon + 1) == p.form < |t|
  {
    hide At; hide Spell; hide Skip; hide Blank; hide FormOk; hide FindEnd; hide Decode; hide UpToNul;
    var p := PlacesOf(i, m);
    StringTextReads(t, p.text, m.text, m.key);
    AtFirst(t, p.text, m.text);
    AtChar(t, p.colon, ':');
    SpellFirst(io, m.form);
    AtFirst(t, p.form, Spell(m.form));
    SkipBlank(t, i, m.before);
    SkipBlank(t, p.mid, m.mid);
    SkipBlank(t, p.colon + 1, m.gap);
  }

  lemma {:induction false} MembersRead(io: NumberIo, t: string, i: nat, members: seq<MemberForm>, depth: nat)
    requires members != [] && MembersOk(io, members) && Terminated(t) && At(t, i, SpellMembers(members)) && depth <= NESTING_LIMIT
    requires var e := i + |SpellMembers(members)|; e < |t| && t[e] == '}'
    ensures ParseMembers(io, t, i, depth)
         == Expect(Fits(depth, NestingMembers(MemberValues(members))), MemberValues(members), i + |SpellMembers(members)| + 1)
    decreases members, 0
  {
    hide ParseValue; hide ParseMembers; hide ParseMember; hide At; hide Spell; hide SpellMembers; hide Nesting; hide Skip; hide Blank;
    hide ValueOf; hide FormOk; hide Terminated; hide Numeral; hide StringText; hide ParseStr;
    var m, p := members[0], PlacesOf(i, members[0]);
    MemberAt(t, i, members);
    if |members| > 1 { AtChar(t, p.end, ','); }
    MemberStarts(io, t, i, m);
    NoNumeral(t, p.after, m.after);
    MembersUnfold(io, t, i, depth);
    MemberUnfold(io, t, i, depth);
    FormReads(io, t, p.form, m.form, depth);
    var v := Member(m.key, ValueOf(m.form));
    if |members| > 1 {
      MembersRead(io, t, p.end + 1, members[1..], depth);
      assert MemberValues(members)[1..] == MemberValues(members[1..]);
    } else {
      assert MemberValues(members) == [v];
      assert MemberValues(members)[1..] == [];
    }
  }

  lemma {:induction false} ObjectReads(io: NumberIo, t: string, i: nat, blank: string, members: seq<MemberForm>, depth: nat)
    requires Blank(blank) && MembersOk(io, members) && Terminated(t) && At(t, i, Spell(ObjectForm(blank, members)))
    requires i + |Spell(ObjectForm(blank, members))| < |t|
    ensures ParseValue(io, t, i, depth)
         == Expect(Fits(depth, Nesting(Object(MemberValues(members)))), Object(MemberValues(members)),
                   i + |Spell(ObjectForm(blank, members))|)
    decreases members, 1
  {
    hide ParseValue; hide ParseMembers; hide At; hide SpellMembers; hide Skip; hide Blank; hide MembersOk; hide Terminated; hide NestingMembers;
    hide MemberValues; hide Nesting;
    NestingOf([], MemberValues(members));
    var inner := if members == [] then blank else SpellMembers(members);
    AtSplit(t, i, "{", inner + "}");
    AtSplit(t, i + 1, inner, "}");
    AtChar(t, i, '{');
    AtChar(t, i + 1 + |inner|, '}');
    ObjectUnfold(io, t, i, depth);
    if members == [] {
      SkipBlank(t, i + 1, blank);
      NoValues();
    } else {
      MembersStart(io, t, i + 1, members);
      MembersFromSkip(io, t, i + 1, depth + 1);
      if depth < NESTING_LIMIT { MembersRead(io, t, i + 1, members, depth + 1); }
    }
  }

  lemma {:induction false} MembersStart(io: NumberIo, t: string, i: nat, members: seq<MemberForm>)
    requires members != [] && MembersOk(io, members) && At(t, i, SpellMembers(members)) && i < |t|
    ensures t[Skip(t, i)] != '}'
  {
    hide At; hide Spell; hide SpellMembers; hide Skip; hide Blank; hide FormOk; hide StringText; hide ParseStr;
    MemberAt(t, i, members);
    MemberStarts(io, t, i, members[0]);
  }
}
