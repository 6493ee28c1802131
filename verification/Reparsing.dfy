/** Reading a text, printing the tree and reading it again. */
module Reparsing {
  import opened Keys
  import opened Trees
  import opened JsonStrings
  import opened Rendering
  import opened Parsing
  import opened JsonForms
  import opened RoundTrips

  /** The numbers in a tree are printed in a form that reads back. */
  ghost predicate Numbers(io: NumberIo, j: Json)
    decreases j
  {
    match j
    case Number(n) => ReadsBack(io, n)
    case Array(xs) => NumbersItems(io, xs)
    case Object(ms) => NumbersMembers(io, ms)
    case _ => true
  }

  ghost predicate NumbersItems(io: NumberIo, xs: seq<Json>)
    decreases xs
  {
    xs == [] || (Numbers(io, xs[0]) && NumbersItems(io, xs[1..]))
  }

  ghost predicate NumbersMembers(io: NumberIo, ms: seq<Member>)
    decreases ms
  {
    ms == [] || (Numbers(io, ms[0].value) && NumbersMembers(io, ms[1..]))
  }

  /** What is read can be printed, as far as its numbers can, and is not nested too deeply. */
  ghost predicate Printable(io: NumberIo, j: Json, depth: nat) {
    (Numbers(io, j) <==> Plain(io, j)) && Fits(depth, Nesting(j))
  }

  ghost predicate PrintableItems(io: NumberIo, xs: seq<Json>, depth: nat) {
    (NumbersItems(io, xs) <==> PlainItems(io, xs)) && Fits(depth, NestingItems(xs))
  }

  ghost predicate PrintableMembers(io: NumberIo, ms: seq<Member>, depth: nat) {
    (NumbersMembers(io, ms) <==> PlainMembers(io, ms)) && Fits(depth, NestingMembers(ms))
  }

  /** A string that has been read holds no NUL. */
  lemma {:induction false} ReadNulFree(t: string, i: nat)
    requires i < |t| && ParseStr(t, i).Ok?
    ensures NulFree(ParseStr(t, i).value)
  {
    hide FindEnd; hide Decode; hide UpToNul;
  }

  lemma {:induction false} PrintableCons(io: NumberIo, x: Json, xs: seq<Json>, depth: nat)
    requires Printable(io, x, depth) && PrintableItems(io, xs, depth)
    ensures PrintableItems(io, [x] + xs, depth)
  {
    hide Numbers; hide Plain; hide Nesting;
    assert ([x] + xs)[1..] == xs;
  }

  lemma {:induction false} PrintableMember(io: NumberIo, m: Member, ms: seq<Member>, depth: nat)
    requires Printable(io, m.value, depth) && NulFree(m.key) && PrintableMembers(io, ms, depth)
    ensures PrintableMembers(io, [m] + ms, depth)
  {
    hide Numbers; hide Plain; hide Nesting; hide NulFree;
    assert ([m] + ms)[1..] == ms;
  }

  lemma {:induction false} PrintableNone(io: NumberIo, depth: nat)
    ensures PrintableItems(io, [], depth) && PrintableMembers(io, [], depth)
  {
  }

  lemma {:induction false} PrintableArray(io: NumberIo, xs: seq<Json>, depth: nat)
    requires depth < NESTING_LIMIT && PrintableItems(io, xs, depth + 1)
    ensures Printable(io, Array(xs), depth)
  {
    hide NumbersItems; hide PlainItems; hide NestingItems;
  }

  lemma {:induction false} PrintableObject(io: NumberIo, ms: seq<Member>, depth: nat)
    requires depth < NESTING_LIMIT && PrintableMembers(io, ms, depth + 1)
    ensures Printable(io, Object(ms), depth)
  {
    hide NumbersMembers; hide PlainMembers; hide NestingMembers;
  }

  /** Values without children. */
  lemma {:induction false} PrintableLeaf(io: NumberIo, j: Json, depth: nat)
    requires j == Null || j == False || j == True || j.Number? || (j.Text? && NulFree(j.text))
    ensures Printable(io, j, depth)
  {
  }

  lemma {:induction false} LeafRead(io: NumberIo, t: string, i: nat, depth: nat)
    requires i < |t| && Terminated(t) && t[i] != '[' && t[i] != '{' && ParseValue(io, t, i, depth).Ok?
    ensures Printable(io, ParseValue(io, t, i, depth).value, depth)
  {
    hide Printable; hide ParseStr; hide At; hide ParseItems; hide ParseMembers; hide Skip; hide NumeralEnd; hide NulFree;
    if t[i] == '\"' && ParseStr(t, i).Ok? { ReadNulFree(t, i); }
    PrintableLeaf(io, ParseValue(io, t, i, depth).value, depth);
  }

  /** Everything that is read is printable. */
  lemma {:induction false} ValuePrintable(io: NumberIo, t: string, i: nat, depth: nat)
    requires i < |t| && Terminated(t) && ParseValue(io, t, i, depth).Ok?
    ensures Printable(io, ParseValue(io, t, i, depth).value, depth)
    decreases |t| - i, 0
  {
    hide ParseValue; hide ParseItems; hide ParseMembers; hide Printable; hide PrintableItems; hide PrintableMembers; hide Skip;
    PrintableNone(io, depth + 1);
    if t[i] == '[' {
      ArrayUnfold(io, t, i, depth);
      var k := Skip(t, i + 1);
      if t[k] == ']' {
        PrintableArray(io, [], depth);
      } else {
        ItemsPrintable(io, t, k, depth + 1);
        PrintableArray(io, ParseItems(io, t, k, depth + 1).value, depth);
      }
    } else if t[i] == '{' {
      ObjectUnfold(io, t, i, depth);
      var k := Skip(t, i + 1);
      if t[k] == '}' {
        PrintableObject(io, [], depth);
      } else {
        MembersPrintable(io, t, k, depth + 1);
        PrintableObject(io, ParseMembers(io, t, k, depth + 1).value, depth);
      }
    } else {
      LeafRead(io, t, i, depth);
    }
  }

  lemma {:induction false} ItemsPrintable(io: NumberIo, t: string, i: nat, depth: nat)
    requires i < |t| && Terminated(t) && ParseItems(io, t, i, depth).Ok?
    ensures PrintableItems(io, ParseItems(io, t, i, depth).value, depth)
    decreases |t| - i, 1
  {
    hide ParseValue; hide ParseItems; hide Printable; hide PrintableItems; hide Skip;
    ItemsUnfold(io, t, i, depth);
    ValuePrintable(io, t, Skip(t, i), depth);
    var v := ParseValue(io, t, Skip(t, i), depth);
    var k := Skip(t, v.next);
    if t[k] == ',' {
      ItemsPrintable(io, t, k + 1, depth);
      PrintableCons(io, v.value, ParseItems(io, t, k + 1, depth).value, depth);
    } else {
      PrintableNone(io, depth);
      PrintableCons(io, v.value, [], depth);
      assert [v.value] + [] == [v.value];
    }
  }

  lemma {:induction false} MemberPrintable(io: NumberIo, t: string, i: nat, depth: nat)
    requires i < |t| && Terminated(t) && ParseMember(io, t, i, depth).Ok?
    ensures var m := ParseMember(io, t, i, depth).value; NulFree(m.key) && Printable(io, m.value, depth)
    decreases |t| - i, 1
  {
    hide ParseValue; hide Printable; hide Skip; hide ParseStr; hide NulFree; hide Terminated;
    ReadNulFree(t, Skip(t, i));
    var c := Skip(t, ParseStr(t, Skip(t, i)).next);
    ValuePrintable(io, t, Skip(t, c + 1), depth);
  }

  lemma {:induction false} MembersPrintable(io: NumberIo, t: string, i: nat, depth: nat)
    requires i < |t| && Terminated(t) && ParseMembers(io, t, i, depth).Ok?
    ensures PrintableMembers(io, ParseMembers(io, t, i, depth).value, depth)
    decreases |t| - i, 2
  {
    hide ParseMember; hide ParseMembers; hide Printable; hide PrintableMembers; hide Skip; hide NulFree;
    MembersUnfold(io, t, i, depth);
    MemberPrintable(io, t, i, depth);
    var m := ParseMember(io, t, i, depth);
    var k := Skip(t, m.next);
    if t[k] == ',' {
      MembersPrintable(io, t, k + 1, depth);
      PrintableMember(io, m.value, ParseMembers(io, t, k + 1, depth).value, depth);
    } else {
      PrintableNone(io, depth);
      PrintableMember(io, m.value, [], depth);
      assert [m.value] + [] == [m.value];
    }
  }

  /** Every accepted text: its tree, printed in either form, is accepted and read as the
      same tree, with all of the new text consumed. The numbers must be ones that are
      printed in a form that reads back. */
  lemma ParsePrintParse(io: NumberIo, text: string, requireEnd: bool, fmt: bool, requireEnd': bool)
    requires Parse(io, text, requireEnd).Ok? && Numbers(io, Parse(io, text, requireEnd).value)
    ensures var j := Parse(io, text, requireEnd).value;
      var printed := Render(io, j, fmt, 0);
      Parse(io, printed, requireEnd') == Ok(j, |printed|)
  {
    hide ParseValue; hide Numbers; hide Plain; hide Nesting; hide Render;
    var t := text + "\0";
    var start := if |t| > 4 && At(t, 0, BOM) then 3 else 0;
    var j := Parse(io, text, requireEnd).value;
    ValuePrintable(io, t, Skip(t, start), 0);
    hide Parse;
    PrintThenParse(io, j, fmt, requireEnd');
  }
}
