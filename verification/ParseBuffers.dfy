/** The parser as it runs: one buffer whose offset and depth move step by step. */
module ParseBuffers {
  import opened Keys
  import opened Trees
  import opened JsonStrings
  import opened StringReading
  import opened Rendering
  import opened Parsing

  /** The elements read before, in front of those still to be read. */
  function Prepend<T>(done: seq<T>, r: Parsed<seq<T>>): Parsed<seq<T>> {
    if r.Fail? then Fail else Ok(done + r.value, r.next)
  }

  lemma {:induction false} PrependMore<T>(done: seq<T>, x: T, r: Parsed<seq<T>>)
    ensures Prepend(done, Prepend([x], r)) == Prepend(done + [x], r)
    ensures forall n :: Prepend(done, Ok([x], n)) == Ok(done + [x], n)
  {
    if r.Ok? { assert done + ([x] + r.value) == done + [x] + r.value; }
  }

  lemma {:induction false} PrependNone<T>(r: Parsed<seq<T>>)
    ensures Prepend([], r) == r
  {
    if r.Ok? { assert [] + r.value == r.value; }
  }

  /** One more value of an array. */
  lemma {:induction false} ItemsStep(io: NumberIo, t: string, i: nat, depth: nat, done: seq<Json>)
    requires i < |t| && Terminated(t)
    ensures var v := ParseValue(io, t, Skip(t, i), depth);
      var all := Prepend(done, ParseItems(io, t, i, depth));
      if v.Fail? then all == Fail
      else
        var k := Skip(t, v.next);
        if t[k] == ',' then all == Prepend(done + [v.value], ParseItems(io, t, k + 1, depth))
        else if t[k] == ']' then all == Ok(done + [v.value], k + 1)
        else all == Fail
  {
    hide ParseValue; hide ParseItems; hide Skip;
    ItemsUnfold(io, t, i, depth);
    var v := ParseValue(io, t, Skip(t, i), depth);
    if v.Ok? {
      var k := Skip(t, v.next);
      if t[k] == ',' { PrependMore(done, v.value, ParseItems(io, t, k + 1, depth)); }
    }
  }

  lemma {:induction false} MembersStep(io: NumberIo, t: string, i: nat, depth: nat, done: seq<Member>)
    requires i < |t| && Terminated(t)
    ensures var m := ParseMember(io, t, i, depth);
      var all := Prepend(done, ParseMembers(io, t, i, depth));
      if m.Fail? then all == Fail
      else
        var k := Skip(t, m.next);
        if t[k] == ',' then all == Prepend(done + [m.value], ParseMembers(io, t, k + 1, depth))
        else if t[k] == '}' then all == Ok(done + [m.value], k + 1)
        else all == Fail
  {
    hide ParseMember; hide Skip;
    var m := ParseMember(io, t, i, depth);
    if m.Ok? {
      var k := Skip(t, m.next);
      if t[k] == ',' { PrependMore(done, m.value, ParseMembers(io, t, k + 1, depth)); }
    }
  }

  class ParseBuffer {
    const content: string
    var offset: nat
    var depth: nat

    ghost predicate Valid()
      reads this
    {
      Terminated(content) && offset < |content|
    }

    constructor (text: string)
      ensures Valid() && content == text + "\0" && offset == 0 && depth == 0
    {
      content, offset, depth := text + "\0", 0, 0;
    }

    /** Passes the blanks and, should it pass the terminator too, steps back onto it. */
    method SkipWhitespace()
      requires Valid()
      modifies this`offset
      ensures Valid() && offset == Skip(content, old(offset))
    {
      while offset < |content| && content[offset] <= ' '
        invariant old(offset) <= offset <= |content|
        invariant Skip(content, old(offset)) == if offset < |content| then Skip(content, offset) else |content| - 1
      {
        offset := offset + 1;
      }
      if offset == |content| { offset := offset - 1; }
    }

    method ReadNumber(io: NumberIo) returns (r: Parsed<Json>)
      requires Valid()
      modifies this`offset
      ensures r == ParseNumber(io, content, old(offset))
      ensures offset == if r.Ok? then r.next else old(offset)
    {
      var i := 0;
      while i < CHUNK && offset + i < |content| && Numeral(content[offset + i])
        invariant 0 <= i <= CHUNK && offset + i <= |content| && offset == old(offset)
        invariant NumeralEnd(content, offset, CHUNK) == NumeralEnd(content, offset + i, CHUNK - i)
      {
        i := i + 1;
      }
      var scanned := io.scan(content[offset..offset + i]);
      if scanned.1 == 0 || scanned.1 > i { return Fail; }
      offset := offset + scanned.1;
      return Ok(Number(scanned.0), offset);
    }

    method ReadString() returns (r: Parsed<string>)
      requires Valid()
      modifies this`offset
      ensures r == ParseStr(content, old(offset))
      ensures r.Ok? ==> offset == r.next
    {
      if content[offset] != '\"' { return Fail; }
      var start := offset + 1;
      var ok, end, skipped := ScanString(content, start);
      if !ok { return Fail; }
      SkippedBound(content, start, end);
      var output := new char[end + 2 - start - skipped];
      var out;
      ok, out := DecodeString(content, start, end, output);
      if !ok { return Fail; }
      offset := end;
      offset := offset + 1;
      UpToNulCut(output[..], out);
      var s := CString(output);
      return Ok(s, offset);
    }

    method ReadValue(io: NumberIo) returns (r: Parsed<Json>)
      requires Valid()
      modifies this
      ensures r == ParseValue(io, content, old(offset), old(depth))
      ensures r.Ok? ==> Valid() && offset == r.next && depth == old(depth)
      decreases |content| - offset, 1
    {
      hide ParseValue; hide At; hide ParseStr; hide ParseNumber; hide ParseItems; hide ParseMembers;
      LiteralUnfold(io, content, offset, depth);
      if At(content, offset, "null") { offset := offset + 4; return Ok(Null, offset); }
      if At(content, offset, "false") { offset := offset + 5; return Ok(False, offset); }
      if At(content, offset, "true") { offset := offset + 4; return Ok(True, offset); }
      LeafUnfold(io, content, offset, depth);
      var c := content[offset];
      if c == '\"' {
        var s := ReadString();
        if s.Fail? { return Fail; }
        return Ok(Text(s.value), s.next);
      }
      if c == '-' || '0' <= c <= '9' { r := ReadNumber(io); return; }
      if c == '[' { r := ReadArray(io); return; }
      if c == '{' { r := ReadObject(io); return; }
      return Fail;
    }

    method ReadArray(io: NumberIo) returns (r: Parsed<Json>)
      requires Valid() && content[offset] == '['
      modifies this
      ensures r == ParseValue(io, content, old(offset), old(depth))
      ensures r.Ok? ==> Valid() && offset == r.next && depth == old(depth)
      decreases |content| - offset, 0
    {
      hide ParseValue; hide ParseItems; hide Skip;
      ArrayUnfold(io, content, offset, depth);
      if depth >= NESTING_LIMIT { return Fail; }
      depth := depth + 1;
      offset := offset + 1;
      SkipWhitespace();
      if content[offset] == ']' {
        depth := depth - 1;
        offset := offset + 1;
        return Ok(Array([]), offset);
      }
      var items := ReadItems(io);
      if items.Fail? { return Fail; }
      depth := depth - 1;
      offset := offset + 1;
      return Ok(Array(items.value), offset);
    }

    /** The loop over the elements; it ends on the closing bracket. */
    method ReadItems(io: NumberIo) returns (r: Parsed<seq<Json>>)
      requires Valid() && offset > 0
      modifies this
      ensures r == ParseItems(io, content, old(offset), old(depth))
      ensures r.Ok? ==> Valid() && offset + 1 == r.next < |content| && depth == old(depth)
      decreases |content| - offset, 3
    {
      hide ParseValue; hide ParseItems; hide Skip; hide Prepend;
      var items: seq<Json> := [];
      PrependNone(ParseItems(io, content, offset, depth));
      ghost var goal := ParseItems(io, content, offset, depth);
      offset := offset - 1;
      while true
        invariant offset + 1 < |content| && old(offset) <= offset + 1 && depth == old(depth)
        invariant goal == Prepend(items, ParseItems(io, content, offset + 1, depth))
        decreases |content| - offset
      {
        ItemsStep(io, content, offset + 1, depth, items);
        offset := offset + 1;
        SkipWhitespace();
        var v := ReadValue(io);
        if v.Fail? { return Fail; }
        items := items + [v.value];
        SkipWhitespace();
        if content[offset] != ',' { break; }
      }
      if content[offset] != ']' { return Fail; }
      return Ok(items, offset + 1);
    }

    method ReadObject(io: NumberIo) returns (r: Parsed<Json>)
      requires Valid() && content[offset] == '{'
      modifies this
      ensures r == ParseValue(io, content, old(offset), old(depth))
      ensures r.Ok? ==> Valid() && offset == r.next && depth == old(depth)
      decreases |content| - offset, 0
    {
      hide ParseValue; hide ParseMembers; hide Skip;
      ObjectUnfold(io, content, offset, depth);
      if depth >= NESTING_LIMIT { return Fail; }
      depth := depth + 1;
      offset := offset + 1;
      SkipWhitespace();
      if content[offset] == '}' {
        depth := depth - 1;
        offset := offset + 1;
        return Ok(Object([]), offset);
      }
      var members := ReadMembers(io);
      if members.Fail? { return Fail; }
      depth := depth - 1;
      offset := offset + 1;
      return Ok(Object(members.value), offset);
    }

    method ReadMember(io: NumberIo) returns (r: Parsed<Member>)
      requires Valid()
      modifies this
      ensures r == ParseMember(io, content, old(offset), old(depth))
      ensures r.Ok? ==> Valid() && offset == r.next && depth == old(depth)
      decreases |content| - offset, 2
    {
      hide ParseValue; hide Skip; hide ParseStr;
      SkipWhitespace();
      var key := ReadString();
      if key.Fail? { return Fail; }
      SkipWhitespace();
      if content[offset] != ':' { return Fail; }
      offset := offset + 1;
      SkipWhitespace();
      var v := ReadValue(io);
      if v.Fail? { return Fail; }
      return Ok(Member(key.value, v.value), offset);
    }

    method ReadMembers(io: NumberIo) returns (r: Parsed<seq<Member>>)
      requires Valid() && offset > 0
      modifies this
      ensures r == ParseMembers(io, content, old(offset), old(depth))
      ensures r.Ok? ==> Valid() && offset + 1 == r.next < |content| && depth == old(depth)
      decreases |content| - offset, 3
    {
      hide ParseMember; hide ParseMembers; hide Skip; hide Prepend;
      var members: seq<Member> := [];
      PrependNone(ParseMembers(io, content, offset, depth));
      ghost var goal := ParseMembers(io, content, offset, depth);
      offset := offset - 1;
      while true
        invariant offset + 1 < |content| && old(offset) <= offset + 1 && depth == old(depth)
        invariant goal == Prepend(members, ParseMembers(io, content, offset + 1, depth))
        decreases |content| - offset
      {
        MembersStep(io, content, offset + 1, depth, members);
        offset := offset + 1;
        var m := ReadMember(io);
        if m.Fail? { return Fail; }
        members := members + [m.value];
        SkipWhitespace();
        if content[offset] != ',' { break; }
      }
      if content[offset] != '}' { return Fail; }
      return Ok(members, offset + 1);
    }
  }

  lemma {:induction false} UpToNulCut(s: string, n: nat)
    requires n < |s| && s[n] == '\0'
    ensures UpToNul(s) == UpToNul(s[..n]) && '\0' in s
    decreases n
  {
    if n > 0 {
      UpToNulCut(s[1..], n - 1);
      assert s[..n][1..] == s[1..][..n - 1];
    }
  }

  /** The string up to its first NUL, as C reads an array of characters. */
  method CString(a: array<char>) returns (s: string)
    requires '\0' in a[..]
    ensures s == UpToNul(a[..])
  {
    s := [];
    var i := 0;
    assert a[..] == a[i..] && s + UpToNul(a[i..]) == UpToNul(a[i..]);
    while a[i] != '\0'
      invariant 0 <= i < a.Length && '\0' in a[i..]
      invariant UpToNul(a[..]) == s + UpToNul(a[i..])
      decreases a.Length - i
    {
      assert a[i..] == [a[i]] + a[i + 1..];
      assert s + ([a[i]] + UpToNul(a[i + 1..])) == s + [a[i]] + UpToNul(a[i + 1..]);
      s := s + [a[i]];
      i := i + 1;
    }
  }

  /** A whole text. */
  method ParseText(io: NumberIo, text: string, requireEnd: bool) returns (r: Parsed<Json>)
    ensures r == Parse(io, text, requireEnd)
  {
    hide ParseValue; hide Skip;
    var b := new ParseBuffer(text);
    if |b.content| > 4 && At(b.content, 0, BOM) { b.offset := b.offset + 3; }
    b.SkipWhitespace();
    r := b.ReadValue(io);
    if r.Fail? { return Fail; }
    if requireEnd {
      b.SkipWhitespace();
      if b.content[b.offset] != '\0' { return Fail; }
      return Ok(r.value, b.offset);
    }
  }
}
