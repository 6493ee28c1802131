/** Reading a JSON tree from text. */
module Parsing {
  import opened Trees
  import opened JsonStrings
  import opened Rendering

  const NESTING_LIMIT := 1000

  /** The text with the NUL that ends it. */
  ghost predicate Terminated(t: string) {
    t != [] && t[|t| - 1] == '\0'
  }

  /** Passes over blanks and control characters, but stays within the text. */
  function Skip(t: string, i: nat): (k: nat)
    requires i < |t|
    ensures i <= k < |t|
    decreases |t| - i
  {
    if t[i] <= ' ' && i + 1 < |t| then Skip(t, i + 1) else i
  }

  /** The longest number that is looked at. */
  const CHUNK := 63

  function NumeralEnd(t: string, i: nat, room: nat): (e: nat)
    requires i <= |t|
    ensures i <= e <= |t| && e <= i + room
    decreases room
  {
    if room == 0 || i == |t| || !Numeral(t[i]) then i else NumeralEnd(t, i + 1, room - 1)
  }

  function ParseNumber(io: NumberIo, t: string, i: nat): (r: Parsed<Json>)
    requires i < |t|
    ensures r.Ok? ==> i < r.next <= NumeralEnd(t, i, CHUNK)
  {
    var e := NumeralEnd(t, i, CHUNK);
    var scanned := io.scan(t[i..e]);
    if scanned.1 == 0 || scanned.1 > e - i then Fail else Ok(Number(scanned.0), i + scanned.1)
  }

  function ParseValue(io: NumberIo, t: string, i: nat, depth: nat): (r: Parsed<Json>)
    requires i < |t| && Terminated(t)
    ensures r.Ok? ==> i < r.next < |t|
    decreases |t| - i, 0
  {
    if At(t, i, "null") then AtInside(t, i, "null"); Ok(Null, i + 4)
    else if At(t, i, "false") then AtInside(t, i, "false"); Ok(False, i + 5)
    else if At(t, i, "true") then AtInside(t, i, "true"); Ok(True, i + 4)
    else if t[i] == '\"' then
      var s := ParseStr(t, i);
      if s.Fail? then Fail else Ok(Text(s.value), s.next)
    else if t[i] == '-' || '0' <= t[i] <= '9' then
      NumberInside(t, i, CHUNK);
      ParseNumber(io, t, i)
    else if t[i] == '[' then
      if depth >= NESTING_LIMIT then Fail
      else
        var k := Skip(t, i + 1);
        if t[k] == ']' then Ok(Array([]), k + 1)
        else
          var xs := ParseItems(io, t, k, depth + 1);
          if xs.Fail? then Fail else Ok(Array(xs.value), xs.next)
    else if t[i] == '{' then
      if depth >= NESTING_LIMIT then Fail
      else
        var k := Skip(t, i + 1);
        if t[k] == '}' then Ok(Object([]), k + 1)
        else
          var ms := ParseMembers(io, t, k, depth + 1);
          if ms.Fail? then Fail else Ok(Object(ms.value), ms.next)
    else Fail
  }

  /** Values separated by commas, up to the closing bracket. */
  function ParseItems(io: NumberIo, t: string, i: nat, depth: nat): (r: Parsed<seq<Json>>)
    requires i < |t| && Terminated(t)
    ensures r.Ok? ==> i < r.next < |t|
    decreases |t| - i, 1
  {
    var v := ParseValue(io, t, Skip(t, i), depth);
    if v.Fail? then Fail
    else
      var k := Skip(t, v.next);
      if t[k] == ',' then
        var rest := ParseItems(io, t, k + 1, depth);
        if rest.Fail? then Fail else Ok([v.value] + rest.value, rest.next)
      else if t[k] == ']' then Ok([v.value], k + 1)
      else Fail
  }

  /** A key, a colon and a value. */
  function ParseMember(io: NumberIo, t: string, i: nat, depth: nat): (r: Parsed<Member>)
    requires i < |t| && Terminated(t)
    ensures r.Ok? ==> i < r.next < |t|
    decreases |t| - i, 1
  {
    var key := ParseStr(t, Skip(t, i));
    if key.Fail? then Fail
    else
      var c := Skip(t, key.next);
      if t[c] != ':' then Fail
      else
        var v := ParseValue(io, t, Skip(t, c + 1), depth);
        if v.Fail? then Fail else Ok(Member(key.value, v.value), v.next)
  }

  /** Members separated by commas, up to the closing brace. */
  function ParseMembers(io: NumberIo, t: string, i: nat, depth: nat): (r: Parsed<seq<Member>>)
    requires i < |t| && Terminated(t)
    ensures r.Ok? ==> i < r.next < |t|
    decreases |t| - i, 2
  {
    var m := ParseMember(io, t, i, depth);
    if m.Fail? then Fail
    else
      var k := Skip(t, m.next);
      if t[k] == ',' then
        var rest := ParseMembers(io, t, k + 1, depth);
        if rest.Fail? then Fail else Ok([m.value] + rest.value, rest.next)
      else if t[k] == '}' then Ok([m.value], k + 1)
      else Fail
  }

  const BOM := "\U{EF}\U{BB}\U{BF}"

  /** A whole text, with or without the demand that nothing but blanks follows. */
  function Parse(io: NumberIo, text: string, requireEnd: bool): Parsed<Json> {
    var t := text + "\0";
    var start := if |t| > 4 && At(t, 0, BOM) then 3 else 0;
    var r := ParseValue(io, t, Skip(t, start), 0);
    if r.Fail? then Fail
    else if !requireEnd then r
    else if t[Skip(t, r.next)] == '\0' then Ok(r.value, Skip(t, r.next))
    else Fail
  }

  lemma {:induction false} AtInside(t: string, i: nat, x: string)
    requires Terminated(t) && x != [] && x[|x| - 1] != '\0' && At(t, i, x)
    ensures i + |x| < |t|
  {
    AtChars(t, i, x);
    assert t[i + (|x| - 1)] == x[|x| - 1];
  }

  lemma {:induction false} NumberInside(t: string, i: nat, room: nat)
    requires i < |t| && Terminated(t)
    ensures NumeralEnd(t, i, room) < |t|
    decreases room
  {
    if room > 0 && Numeral(t[i]) { NumberInside(t, i + 1, room - 1); }
  }

  // ----- one step of reading

  lemma {:induction false} NoLiteral(t: string, i: nat)
    requires i < |t| && t[i] != 'n' && t[i] != 'f' && t[i] != 't'
    ensures !At(t, i, "null") && !At(t, i, "false") && !At(t, i, "true")
  {
    hide At;
    AtFirst(t, i, "null");
    AtFirst(t, i, "false");
    AtFirst(t, i, "true");
  }

  lemma {:induction false} ArrayUnfold(io: NumberIo, t: string, i: nat, depth: nat)
    requires i + 1 < |t| && Terminated(t) && t[i] == '['
    ensures var k := Skip(t, i + 1);
      ParseValue(io, t, i, depth) ==
        if depth >= NESTING_LIMIT then Fail
        else if t[k] == ']' then Ok(Array([]), k + 1)
        else var xs := ParseItems(io, t, k, depth + 1); if xs.Fail? then Fail else Ok(Array(xs.value), xs.next)
  {
    hide At; hide ParseItems; hide ParseMembers; hide ParseStr; hide ParseNumber; hide Skip;
    NoLiteral(t, i);
  }

  lemma {:induction false} ObjectUnfold(io: NumberIo, t: string, i: nat, depth: nat)
    requires i + 1 < |t| && Terminated(t) && t[i] == '{'
    ensures var k := Skip(t, i + 1);
      ParseValue(io, t, i, depth) ==
        if depth >= NESTING_LIMIT then Fail
        else if t[k] == '}' then Ok(Object([]), k + 1)
        else var ms := ParseMembers(io, t, k, depth + 1); if ms.Fail? then Fail else Ok(Object(ms.value), ms.next)
  {
    hide At; hide ParseItems; hide ParseMembers; hide ParseStr; hide ParseNumber; hide Skip;
    NoLiteral(t, i);
  }

  lemma {:induction false} ItemsUnfold(io: NumberIo, t: string, i: nat, depth: nat)
    requires i < |t| && Terminated(t)
    ensures var v := ParseValue(io, t, Skip(t, i), depth);
      ParseItems(io, t, i, depth) ==
        if v.Fail? then Fail
        else
          var k := Skip(t, v.next);
          if t[k] == ',' then
            var rest := ParseItems(io, t, k + 1, depth);
            if rest.Fail? then Fail else Ok([v.value] + rest.value, rest.next)
          else if t[k] == ']' then Ok([v.value], k + 1)
          else Fail
  {
    hide ParseValue; hide Skip;
  }

  lemma {:induction false} MembersUnfold(io: NumberIo, t: string, i: nat, depth: nat)
    requires i < |t| && Terminated(t)
    ensures var m := ParseMember(io, t, i, depth);
      ParseMembers(io, t, i, depth) ==
        if m.Fail? then Fail
        else
          var k := Skip(t, m.next);
          if t[k] == ',' then
            var rest := ParseMembers(io, t, k + 1, depth);
            if rest.Fail? then Fail else Ok([m.value] + rest.value, rest.next)
          else if t[k] == '}' then Ok([m.value], k + 1)
          else Fail
  {
    hide ParseMember; hide Skip;
  }

  lemma {:induction false} MemberUnfold(io: NumberIo, t: string, i: nat, depth: nat)
    requires i < |t| && Terminated(t)
    ensures var key := ParseStr(t, Skip(t, i));
      ParseMember(io, t, i, depth) ==
        if key.Fail? then Fail
        else if key.next >= |t| || t[Skip(t, key.next)] != ':' then Fail
        else
          var v := ParseValue(io, t, Skip(t, Skip(t, key.next) + 1), depth);
          if v.Fail? then Fail else Ok(Member(key.value, v.value), v.next)
  {
    hide ParseValue; hide Skip; hide ParseStr;
  }

  lemma {:induction false} LeafUnfold(io: NumberIo, t: string, i: nat, depth: nat)
    requires i < |t| && Terminated(t) && !At(t, i, "null") && !At(t, i, "false") && !At(t, i, "true")
    ensures t[i] == '\"' ==>
      ParseValue(io, t, i, depth) == var s := ParseStr(t, i); if s.Fail? then Fail else Ok(Text(s.value), s.next)
    ensures t[i] == '-' || '0' <= t[i] <= '9' ==> ParseValue(io, t, i, depth) == ParseNumber(io, t, i)
    ensures t[i] != '\"' && t[i] != '-' && !('0' <= t[i] <= '9') && t[i] != '[' && t[i] != '{' ==>
      ParseValue(io, t, i, depth) == Fail
  {
    hide At; hide ParseItems; hide ParseMembers; hide ParseStr; hide ParseNumber; hide Skip;
  }

  lemma {:induction false} LiteralUnfold(io: NumberIo, t: string, i: nat, depth: nat)
    requires i < |t| && Terminated(t)
    ensures At(t, i, "null") ==> i + 4 < |t| && ParseValue(io, t, i, depth) == Ok(Null, i + 4)
    ensures At(t, i, "false") ==> i + 5 < |t| && ParseValue(io, t, i, depth) == Ok(False, i + 5)
    ensures At(t, i, "true") ==> i + 4 < |t| && ParseValue(io, t, i, depth) == Ok(True, i + 4)
  {
    hide At; hide ParseItems; hide ParseMembers; hide ParseStr; hide ParseNumber; hide Skip;
    AtFirst(t, i, "null");
    AtFirst(t, i, "false");
    AtFirst(t, i, "true");
    if At(t, i, "null") { AtInside(t, i, "null"); }
    if At(t, i, "false") { AtInside(t, i, "false"); }
    if At(t, i, "true") { AtInside(t, i, "true"); }
  }
}
