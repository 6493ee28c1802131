/** The printer as it runs: text is written into a buffer that grows when it must
    and may. */
module PrintBuffers {
  import opened Digits
  import opened Trees
  import opened JsonStrings
  import opened Rendering

  const INT_MAX := 2147483647

  // ----- trees that are made of C strings

  ghost predicate CStrings(io: NumberIo, j: Json)
    decreases j
  {
    match j
    case Number(n) => NulFree(io.format(n)) && |io.format(n)| <= NUMBER_SIZE
    case Text(s) => NulFree(s)
    case Raw(s) => NulFree(s)
    case Array(xs) => CStringItems(io, xs)
    case Object(ms) => CStringMembers(io, ms)
    case _ => true
  }

  ghost predicate CStringItems(io: NumberIo, xs: seq<Json>)
    decreases xs
  {
    xs == [] || (CStrings(io, xs[0]) && CStringItems(io, xs[1..]))
  }

  ghost predicate CStringMembers(io: NumberIo, ms: seq<Member>)
    decreases ms
  {
    ms == [] || (NulFree(ms[0].key) && CStrings(io, ms[0].value) && CStringMembers(io, ms[1..]))
  }

  /** No node without a type, which cannot be printed. */
  predicate Typed(j: Json)
    decreases j
  {
    match j
    case Invalid => false
    case Array(xs) => TypedItems(xs)
    case Object(ms) => TypedMembers(ms)
    case _ => true
  }

  predicate TypedItems(xs: seq<Json>)
    decreases xs
  {
    xs == [] || (Typed(xs[0]) && TypedItems(xs[1..]))
  }

  predicate TypedMembers(ms: seq<Member>)
    decreases ms
  {
    ms == [] || (Typed(ms[0].value) && TypedMembers(ms[1..]))
  }

  // ----- the buffer

  /** The string `x` stands at the front of the characters, closed by a NUL. */
  ghost predicate Holds(chars: string, x: string) {
    |x| < |chars| && chars[..|x|] == x && chars[|x|] == '\0'
  }

  class PrintBuffer {
    var buffer: array<char>
    var length: nat
    var offset: nat
    var depth: nat
    const noalloc: bool
    const format: bool
    const reallocates: bool

    ghost predicate Valid()
      reads this, buffer
    {
      offset < length <= buffer.Length && length <= INT_MAX
    }

    /** What has been written so far. */
    ghost function Written(): string
      reads this, buffer
      requires Valid()
    {
      buffer[..][..offset]
    }

    /** How large the buffer can get. */
    ghost function Limit(): nat
      reads this
    {
      if noalloc then length else INT_MAX
    }

    /** The text is there, closed, and within the length. */
    ghost predicate Closed(x: string)
      reads this, buffer
    {
      Holds(buffer[..], x) && |x| < length
    }

    /** Still the same buffer, and nothing written behind its length; or a new one. */
    twostate predicate Kept()
      reads this, buffer
    {
      || (buffer == old(buffer) && length == old(length)
          && forall i :: length <= i < buffer.Length ==> buffer[i] == old(buffer[i]))
      || (fresh(buffer) && !noalloc)
    }

    constructor (buffer: array<char>, length: nat, noalloc: bool, format: bool, reallocates: bool)
      requires 0 < length <= buffer.Length && length <= INT_MAX
      ensures Valid() && this.buffer == buffer && this.length == length && offset == 0 && depth == 0
      ensures this.noalloc == noalloc && this.format == format && this.reallocates == reallocates
    {
      this.buffer, this.length, offset, depth := buffer, length, 0, 0;
      this.noalloc, this.format, this.reallocates := noalloc, format, reallocates;
    }

    /** Copies the first `n` characters into a larger array: all of them with the
        realloc hook, those written and one more without. */
    method Move(size: nat, n: nat)
      requires Valid() && n <= length && n <= size <= INT_MAX && offset < n
      modifies this`buffer, this`length
      ensures Valid() && fresh(buffer) && length == size && buffer[..][..n] == old(buffer[..])[..n]
    {
      var larger := new char[size];
      var i := 0;
      while i < n
        invariant 0 <= i <= n && buffer == old(buffer) && buffer[..] == old(buffer[..])
        invariant larger[..][..i] == buffer[..][..i]
      {
        larger[i] := buffer[i];
        i := i + 1;
      }
      buffer, length := larger, size;
    }

    /** Makes room for `needed` characters and one more. */
    method Ensure(needed: nat) returns (ok: bool)
      requires Valid()
      modifies this`buffer, this`length
      ensures Valid() && Kept() && Limit() == old(Limit())
      ensures ok <==> offset + needed + 1 <= old(Limit())
      ensures ok ==> offset + needed + 1 <= length
      ensures ok && offset + needed + 1 <= old(length) ==> buffer == old(buffer)
      ensures ok && offset + needed + 1 > old(length) ==>
        length == if offset + needed + 1 > INT_MAX / 2 then INT_MAX else 2 * (offset + needed + 1)
      ensures Written() == old(Written())
    {
      if needed > INT_MAX { return false; }
      var total := needed + offset + 1;
      if total <= length { return true; }
      if noalloc { return false; }
      var newSize := 0;
      if total > INT_MAX / 2 {
        if total > INT_MAX { return false; }
        newSize := INT_MAX;
      } else {
        newSize := total * 2;
      }
      ghost var before := buffer[..];
      var n := if reallocates then length else offset + 1;
      Move(newSize, n);
      assert buffer[..][..offset] == buffer[..][..n][..offset] == before[..n][..offset];
      return true;
    }

    /** Writes characters from the offset on, and a NUL behind them if asked to. */
    method Put(t: string, close: bool)
      requires Valid() && offset + |t| + (if close then 1 else 0) <= length
      modifies buffer
      ensures Kept() && buffer[..][..offset + |t|] == old(Written()) + t
      ensures close ==> Closed(old(Written()) + t)
    {
      ghost var x := Written() + t;
      PutAt(offset, t);
      if close {
        buffer[offset + |t|] := '\0';
        assert buffer[..][..offset + |t|] == x;
      }
    }

    /** Writes and moves on. */
    method Emit(t: string, extra: nat, close: bool) returns (ok: bool)
      requires Valid() && (close ==> extra > 0)
      modifies this`buffer, this`length, this`offset, buffer
      ensures Valid() && Kept() && Limit() == old(Limit())
      ensures ok <==> old(offset) + |t| + extra + 1 <= old(Limit())
      ensures ok ==> Written() == old(Written()) + t && offset == old(offset) + |t|
    {
      ok := Ensure(|t| + extra);
      if ok {
        Put(t, close);
        offset := offset + |t|;
      }
    }

    /** Writes and closes with a NUL, leaving the offset where it was. */
    method Finish(t: string) returns (ok: bool)
      requires Valid()
      modifies this`buffer, this`length, buffer
      ensures Valid() && Kept() && Limit() == old(Limit())
      ensures ok <==> offset + |t| + 2 <= old(Limit())
      ensures ok ==> Closed(old(Written()) + t)
    {
      ok := Ensure(|t| + 1);
      if ok { Put(t, true); }
    }

    /** Goes to the NUL that closes the text. */
    method UpdateOffset(ghost x: string)
      requires Valid() && Closed(x) && offset <= |x| && NulFree(x[offset..])
      modifies this`offset
      ensures Valid() && offset == |x| && Written() == x
    {
      while buffer[offset] != '\0'
        invariant Valid() && old(offset) <= offset <= |x|
        decreases |x| - offset
      {
        assert buffer[offset] == buffer[..][..|x|][offset] == x[old(offset)..][offset - old(offset)];
        offset := offset + 1;
      }
    }

    // ----- strings

    /** Counts first what escaping adds, so that all of it fits; then writes. */
    method PrintString(s: string) returns (ok: bool)
      requires Valid() && NulFree(s)
      modifies this`buffer, this`length, buffer
      ensures Valid() && Kept() && Limit() == old(Limit())
      ensures ok <==> offset + |Quote(s)| + 2 <= old(Limit())
      ensures ok ==> Closed(old(Written()) + Quote(s))
    {
      hide Escapes; hide Escape;
      var extra := CountEscapes(s);
      ok := Ensure(|s| + extra + 3);
      if !ok { return; }
      PutQuoted(s, extra);
    }

    /** With room reserved, writes the quoted string from the offset on. */
    method PutQuoted(s: string, extra: nat)
      requires Valid() && |Escapes(s)| == |s| + extra && offset + |s| + extra + 3 <= length
      modifies buffer
      ensures Kept() && Closed(old(Written()) + Quote(s))
    {
      hide Escape; hide Escapes;
      ghost var before := Written();
      buffer[offset] := '\"';
      assert buffer[..][..offset + 1] == before + "\"";
      var end := PutEscapes(s, offset + 1, offset + 1 + |s| + extra);
      ghost var body := before + "\"" + Escapes(s);
      assert end == |body|;
      buffer[end] := '\"';
      assert buffer[..][..end + 1] == body + "\"";
      buffer[end + 1] := '\0';
      assert buffer[..][..end + 1] == body + "\"";
      assert body + "\"" == before + Quote(s);
    }

    /** Writes the escapes of all characters from `at` on; `limit` is where they end. */
    method PutEscapes(s: string, at: nat, ghost limit: nat) returns (end: nat)
      requires Valid() && at + |Escapes(s)| == limit <= length
      modifies buffer
      ensures Kept() && end == limit && buffer[..][..limit] == old(buffer[..])[..at] + Escapes(s)
    {
      hide Escape;
      end := at;
      var rest := s;
      ghost var goal := buffer[..][..at] + Escapes(s);
      while rest != []
        invariant at <= end && end + |Escapes(rest)| == limit && Kept()
        invariant buffer[..][..end] + Escapes(rest) == goal
        decreases |rest|
      {
        EscapesCons(rest);
        var e := EscapeText(rest[0]);
        ghost var text := buffer[..][..end];
        PutAt(end, e);
        assert text + (e + Escapes(rest[1..])) == text + e + Escapes(rest[1..]);
        end := end + |e|;
        rest := rest[1..];
      }
      assert buffer[..][..end] + [] == buffer[..][..end];
    }

    method PutAt(at: nat, t: string)
      requires Valid() && at + |t| <= length
      modifies buffer
      ensures Kept() && buffer[..][..at + |t|] == old(buffer[..])[..at] + t
    {
      ghost var before := buffer[..][..at];
      var i := 0;
      while i < |t|
        invariant 0 <= i <= |t| && Kept()
        invariant buffer[..][..at + i] == before + t[..i]
      {
        buffer[at + i] := t[i];
        assert buffer[..][..at + i] == before + t[..i];
        assert buffer[..][..at + i + 1] == buffer[..][..at + i] + [t[i]];
        assert t[..i + 1] == t[..i] + [t[i]];
        i := i + 1;
      }
      assert t[..i] == t;
    }

    // ----- values

    /** Prints a value and goes to its end. */
    method PrintNext(io: NumberIo, j: Json) returns (ok: bool)
      requires Valid() && CStrings(io, j)
      modifies this, buffer
      ensures Valid() && Kept() && Limit() == old(Limit())
      ensures ok <==> Typed(j) && old(offset) + |Render(io, j, format, old(depth))| + 2 <= old(Limit())
      ensures ok ==> Written() == old(Written()) + Render(io, j, format, depth) && depth == old(depth)
      decreases j, 2
    {
      hide Render; hide Typed; hide CStrings;
      ghost var x := Written() + Render(io, j, format, depth);
      ok := PrintValue(io, j);
      if ok {
        RenderNulFree(io, j, format, depth);
        NulFreeTail(old(Written()), Render(io, j, format, depth), offset);
        UpdateOffset(x);
      }
    }

    /** Prints a value; the offset may still stand anywhere within it. */
    method PrintValue(io: NumberIo, j: Json) returns (ok: bool)
      requires Valid() && CStrings(io, j)
      modifies this, buffer
      ensures Valid() && Kept() && Limit() == old(Limit())
      ensures ok <==> Typed(j) && old(offset) + |Render(io, j, format, old(depth))| + 2 <= old(Limit())
      ensures ok ==> Closed(old(Written()) + Render(io, j, format, depth)) && depth == old(depth)
      ensures ok ==> old(offset) <= offset <= old(offset) + |Render(io, j, format, depth)|
      decreases j, 1
    {
      hide Render; hide Typed; hide CStrings; hide CStringItems; hide CStringMembers; hide Quote;
      RenderCases(io, j, format, depth);
      match j {
        case Invalid => return false;
        case Null => ok := Finish("null");
        case False => ok := Finish("false");
        case True => ok := Finish("true");
        case Number(n) => ok := PrintNumber(io.format(n));
        case Raw(s) => ok := Finish(s);
        case Text(s) => ok := PrintString(s);
        case Array(xs) => ok := PrintArray(io, xs);
        case Object(ms) => ok := PrintObject(io, ms);
      }
    }

    method PrintNumber(f: string) returns (ok: bool)
      requires Valid()
      modifies this`buffer, this`length, this`offset, buffer
      ensures Valid() && Kept() && Limit() == old(Limit())
      ensures ok <==> old(offset) + |f| + 2 <= old(Limit())
      ensures ok ==> Closed(old(Written()) + f) && offset == old(offset) + |f|
    {
      ok := Finish(f);
      if ok { offset := offset + |f|; }
    }

    method PrintArray(io: NumberIo, xs: seq<Json>) returns (ok: bool)
      requires Valid() && CStringItems(io, xs)
      modifies this, buffer
      ensures Valid() && Kept() && Limit() == old(Limit())
      ensures ok <==> TypedItems(xs) && old(offset) + |Render(io, Array(xs), format, old(depth))| + 2 <= old(Limit())
      ensures ok ==> Closed(old(Written()) + Render(io, Array(xs), format, depth)) && depth == old(depth)
      ensures ok ==> old(offset) <= offset <= old(offset) + |Render(io, Array(xs), format, depth)|
      decreases xs, 2
    {
      hide Render; hide RenderItems; hide TypedItems; hide CStringItems; hide Holds;
      ArrayText(io, xs, format, depth);
      ok := OpenArray(io, xs);
      if !ok { return; }
      Regroup4(old(Written()), "[", [], RenderItems(io, xs, format, depth), "]");
      ok := Finish("]");
      depth := depth - 1;
    }

    /** The bracket and the items. */
    method OpenArray(io: NumberIo, xs: seq<Json>) returns (ok: bool)
      requires Valid() && CStringItems(io, xs)
      modifies this, buffer
      ensures Valid() && Kept() && Limit() == old(Limit())
      ensures ok <==> && TypedItems(xs) && old(offset) + 2 <= old(Limit())
                      && (xs == [] || old(offset) + 1 + |RenderItems(io, xs, format, old(depth) + 1)| + 2 <= old(Limit()))
      ensures ok ==> Written() == old(Written()) + "[" + RenderItems(io, xs, format, depth) && depth == old(depth) + 1
      decreases xs, 1, 1
    {
      hide RenderItems; hide TypedItems; hide CStringItems;
      if xs == [] { ArrayText(io, xs, format, depth); }
      ok := Emit("[", 0, false);
      if !ok { return; }
      depth := depth + 1;
      ok := PrintItems(io, xs);
    }

    method PrintItems(io: NumberIo, xs: seq<Json>) returns (ok: bool)
      requires Valid() && CStringItems(io, xs)
      modifies this, buffer
      ensures Valid() && Kept() && Limit() == old(Limit())
      ensures ok <==> TypedItems(xs) && (xs == [] || old(offset) + |RenderItems(io, xs, format, old(depth))| + 2 <= old(Limit()))
      ensures ok ==> Written() == old(Written()) + RenderItems(io, xs, format, depth) && depth == old(depth)
      decreases xs, 1, 0
    {
      hide Render; hide RenderItems; hide TypedItems; hide CStringItems; hide Typed; hide CStrings; hide Separator;
      ghost var goal := Written() + RenderItems(io, xs, format, depth);
      var k := 0;
      assert xs[0..] == xs;
      while k < |xs|
        invariant 0 <= k <= |xs| && depth == old(depth)
        invariant Valid() && Kept() && Limit() == old(Limit())
        invariant CStringItems(io, xs[k..]) && TypedItems(xs) == TypedItems(xs[k..])
        invariant Written() + RenderItems(io, xs[k..], format, depth) == goal
        invariant k > 0 ==> offset + 2 <= Limit()
      {
        ItemText(io, xs, k, format, depth);
        ghost var before, text := Written(), ItemsText(io, xs, k, format, depth);
        ok := PrintItem(io, xs[k..]);
        if !ok { return; }
        assert before + (text + RenderItems(io, xs[k + 1..], format, depth)) == before + text + RenderItems(io, xs[k + 1..], format, depth);
        k := k + 1;
      }
      NoMoreItems(io, xs, format, depth);
      assert Written() + [] == Written();
      ok := true;
    }

    /** The first item and the separator behind it. */
    method PrintItem(io: NumberIo, xs: seq<Json>) returns (ok: bool)
      requires Valid() && xs != [] && CStrings(io, xs[0])
      modifies this, buffer
      ensures Valid() && Kept() && Limit() == old(Limit())
      ensures ok <==> Typed(xs[0]) && old(offset) + |ItemsText(io, xs, 0, format, old(depth))| + 2 <= old(Limit())
      ensures ok ==> Written() == old(Written()) + ItemsText(io, xs, 0, format, depth) && depth == old(depth)
      decreases xs, 0
    {
      hide Render; hide Typed; hide CStrings; hide Separator;
      ok := PrintNext(io, xs[0]);
      if ok && |xs| > 1 {
        ghost var r := Render(io, xs[0], format, depth);
        ok := Emit(Separator(format), 1, true);
        assert old(Written()) + (r + Separator(format)) == old(Written()) + r + Separator(format);
      }
    }

    method PrintObject(io: NumberIo, ms: seq<Member>) returns (ok: bool)
      requires Valid() && CStringMembers(io, ms)
      modifies this, buffer
      ensures Valid() && Kept() && Limit() == old(Limit())
      ensures ok <==> TypedMembers(ms) && old(offset) + |Render(io, Object(ms), format, old(depth))| + 2 <= old(Limit())
      ensures ok ==> Closed(old(Written()) + Render(io, Object(ms), format, depth)) && depth == old(depth)
      ensures ok ==> old(offset) <= offset <= old(offset) + |Render(io, Object(ms), format, depth)|
      decreases ms, 2
    {
      hide Render; hide RenderMembers; hide TypedMembers; hide CStringMembers; hide Newline; hide Indent; hide Holds;
      ObjectText(io, ms, format, depth);
      ok := OpenObject(io, ms);
      if !ok { return; }
      ghost var body, tail := RenderMembers(io, ms, format, depth), Indent(format, depth - 1) + "}";
      Regroup4(old(Written()), "{", Newline(format), body, tail);
      ok := Finish(Indent(format, depth - 1) + "}");
      depth := depth - 1;
    }

    /** The brace and the members. */
    method OpenObject(io: NumberIo, ms: seq<Member>) returns (ok: bool)
      requires Valid() && CStringMembers(io, ms)
      modifies this, buffer
      ensures Valid() && Kept() && Limit() == old(Limit())
      ensures var open := "{" + Newline(format);
        ok <==> && TypedMembers(ms) && old(offset) + |open| + 2 <= old(Limit())
                && (ms == [] || old(offset) + |open| + |RenderMembers(io, ms, format, old(depth) + 1)| + 2 <= old(Limit()))
      ensures ok ==> Written() == old(Written()) + ("{" + Newline(format)) + RenderMembers(io, ms, format, depth) && depth == old(depth) + 1
      decreases ms, 1, 1
    {
      hide RenderMembers; hide TypedMembers; hide CStringMembers; hide Newline;
      if ms == [] { ObjectText(io, ms, format, depth); }
      ok := Emit("{" + Newline(format), 1, false);
      if !ok { return; }
      depth := depth + 1;
      ok := PrintMembers(io, ms);
    }

    method PrintMembers(io: NumberIo, ms: seq<Member>) returns (ok: bool)
      requires Valid() && CStringMembers(io, ms)
      modifies this, buffer
      ensures Valid() && Kept() && Limit() == old(Limit())
      ensures ok <==> TypedMembers(ms) && (ms == [] || old(offset) + |RenderMembers(io, ms, format, old(depth))| + 2 <= old(Limit()))
      ensures ok ==> Written() == old(Written()) + RenderMembers(io, ms, format, depth) && depth == old(depth)
      decreases ms, 1, 0
    {
      hide Render; hide RenderMembers; hide TypedMembers; hide CStringMembers; hide Typed; hide CStrings; hide MemberText; hide NulFree;
      ghost var goal := Written() + RenderMembers(io, ms, format, depth);
      var k := 0;
      assert ms[0..] == ms;
      while k < |ms|
        invariant 0 <= k <= |ms| && depth == old(depth)
        invariant Valid() && Kept() && Limit() == old(Limit())
        invariant CStringMembers(io, ms[k..]) && TypedMembers(ms) == TypedMembers(ms[k..])
        invariant Written() + RenderMembers(io, ms[k..], format, depth) == goal
        invariant k > 0 ==> offset + 2 <= Limit()
      {
        MembersText(io, ms, k, format, depth);
        ghost var before, text, rest := Written(), MemberText(io, ms[k..], format, depth), RenderMembers(io, ms[k + 1..], format, depth);
        ok := PrintMember(io, ms[k..]);
        if !ok { return; }
        assert before + (text + rest) == before + text + rest;
        k := k + 1;
      }
      NoMoreMembers(io, ms, format, depth);
      assert Written() + [] == Written();
      ok := true;
    }

    /** Indentation, key and colon. */
    method PrintKey(key: string) returns (ok: bool)
      requires Valid() && NulFree(key)
      modifies this`buffer, this`length, this`offset, buffer
      ensures Valid() && Kept() && Limit() == old(Limit())
      ensures var text := Indent(format, depth) + Quote(key) + Colon(format);
        && (ok ==> Written() == old(Written()) + text)
        && (old(offset) + |text| + 1 <= old(Limit()) && old(offset) + |Indent(format, depth) + Quote(key)| + 2 <= old(Limit()) ==> ok)
    {
      hide Quote; hide Indent; hide Colon; hide NulFree;
      if format {
        ok := Emit(Indent(format, depth), 0, false);
        if !ok { return; }
      } else {
        NoIndent(depth);
        assert Written() == old(Written()) + Indent(format, depth);
      }
      ghost var before := Written();
      ok := PrintString(key);
      if !ok { return; }
      QuoteNulFree(key);
      NulFreeTail(before, Quote(key), offset);
      UpdateOffset(before + Quote(key));
      Regroup3(old(Written()), Indent(format, depth), Quote(key), Colon(format));
      ok := Emit(Colon(format), 0, false);
    }

    /** The first member and the separator behind it. */
    method PrintMember(io: NumberIo, ms: seq<Member>) returns (ok: bool)
      requires Valid() && ms != [] && NulFree(ms[0].key) && CStrings(io, ms[0].value)
      modifies this, buffer
      ensures Valid() && Kept() && Limit() == old(Limit())
      ensures ok <==> Typed(ms[0].value) && old(offset) + |MemberText(io, ms, format, old(depth))| + 2 <= old(Limit())
      ensures ok ==> Written() == old(Written()) + MemberText(io, ms, format, depth) && depth == old(depth)
      decreases ms, 0
    {
      hide Render; hide Typed; hide CStrings; hide Quote; hide Indent; hide Colon; hide Newline; hide NulFree;
      var first := ms[0];
      ok := PrintKey(first.key);
      if !ok { return; }
      ok := PrintNext(io, first.value);
      if !ok { return; }
      var last := (if |ms| > 1 then "," else []) + Newline(format);
      Regroup3(old(Written()), Indent(format, depth) + Quote(first.key) + Colon(format), Render(io, first.value, format, depth), last);
      ok := Emit(last, 1, true);
    }
  }

  lemma {:induction false} NoIndent(depth: nat)
    ensures Indent(false, depth) == []
  {
  }

  /** The text of item `k` with what separates it from the next. */
  function ItemsText(io: NumberIo, xs: seq<Json>, k: nat, fmt: bool, depth: nat): string
    requires k < |xs|
  {
    Render(io, xs[k], fmt, depth) + if k + 1 < |xs| then Separator(fmt) else []
  }

  lemma {:induction false} ItemText(io: NumberIo, xs: seq<Json>, k: nat, fmt: bool, depth: nat)
    requires k < |xs|
    ensures RenderItems(io, xs[k..], fmt, depth) == ItemsText(io, xs, k, fmt, depth) + RenderItems(io, xs[k + 1..], fmt, depth)
    ensures ItemsText(io, xs[k..], 0, fmt, depth) == ItemsText(io, xs, k, fmt, depth)
    ensures TypedItems(xs[k..]) <==> Typed(xs[k]) && TypedItems(xs[k + 1..])
    ensures CStringItems(io, xs[k..]) ==> CStrings(io, xs[k]) && CStringItems(io, xs[k + 1..])
    ensures xs[k..] != [] && xs[k..][0] == xs[k]
  {
    hide Render; hide Typed; hide CStrings; hide Separator;
    assert xs[k..][1..] == xs[k + 1..];
    var r, rest := Render(io, xs[k], fmt, depth), RenderItems(io, xs[k + 1..], fmt, depth);
    var sep := if k + 1 < |xs| then Separator(fmt) else [];
    assert r + (sep + rest) == r + sep + rest;
  }

  lemma {:induction false} NoMoreItems(io: NumberIo, xs: seq<Json>, fmt: bool, depth: nat)
    ensures RenderItems(io, xs[|xs|..], fmt, depth) == [] && TypedItems(xs[|xs|..])
    ensures xs == [] ==> RenderItems(io, xs, fmt, depth) == []
  {
  }

  lemma {:induction false} ArrayText(io: NumberIo, xs: seq<Json>, fmt: bool, depth: nat)
    ensures Render(io, Array(xs), fmt, depth) == "[" + (RenderItems(io, xs, fmt, depth + 1) + "]")
    ensures xs == [] ==> RenderItems(io, xs, fmt, depth + 1) == [] && TypedItems(xs)
  {
    hide RenderMembers;
  }

  lemma {:induction false} ObjectText(io: NumberIo, ms: seq<Member>, fmt: bool, depth: nat)
    ensures Render(io, Object(ms), fmt, depth)
         == "{" + (Newline(fmt) + (RenderMembers(io, ms, fmt, depth + 1) + (Indent(fmt, depth) + "}")))
    ensures ms == [] ==> RenderMembers(io, ms, fmt, depth + 1) == [] && TypedMembers(ms)
  {
    hide RenderItems; hide Indent; hide Newline;
  }

  /** The text of the first member with what separates it from the next. */
  function MemberText(io: NumberIo, ms: seq<Member>, fmt: bool, depth: nat): string
    requires ms != []
  {
    Indent(fmt, depth) + Quote(ms[0].key) + Colon(fmt) + Render(io, ms[0].value, fmt, depth)
      + ((if |ms| > 1 then "," else []) + Newline(fmt))
  }

  lemma {:induction false} MembersText(io: NumberIo, ms: seq<Member>, k: nat, fmt: bool, depth: nat)
    requires k < |ms|
    ensures RenderMembers(io, ms[k..], fmt, depth)
         == MemberText(io, ms[k..], fmt, depth) + RenderMembers(io, ms[k + 1..], fmt, depth)
    ensures TypedMembers(ms[k..]) <==> Typed(ms[k].value) && TypedMembers(ms[k + 1..])
    ensures CStringMembers(io, ms[k..]) ==>
      NulFree(ms[k].key) && CStrings(io, ms[k].value) && CStringMembers(io, ms[k + 1..])
    ensures ms[k..] != [] && ms[k..][0] == ms[k]
  {
    hide Render; hide Typed; hide CStrings; hide Quote; hide Indent; hide Newline; hide Colon;
    assert ms[k..][1..] == ms[k + 1..];
    Regroup6(Indent(fmt, depth), Quote(ms[k].key), Colon(fmt), Render(io, ms[k].value, fmt, depth),
             if k + 1 < |ms| then "," else [], Newline(fmt), RenderMembers(io, ms[k + 1..], fmt, depth));
  }

  lemma {:induction false} Regroup3(w: string, a: string, b: string, c: string)
    ensures w + a + b + c == w + (a + b + c) && w + a + b == w + (a + b)
    ensures |w + (a + b + c)| == |w| + |a| + |b| + |c|
  {
  }

  lemma {:induction false} Regroup4(w: string, a: string, b: string, c: string, d: string)
    ensures w + (a + b) + c + d == w + (a + (b + (c + d)))
    ensures b == [] ==> w + a + c + d == w + (a + (c + d))
    ensures |a + (b + (c + d))| == |a| + |b| + |c| + |d|
  {
  }

  lemma {:induction false} Regroup6(a: string, b: string, c: string, d: string, e: string, f: string, g: string)
    ensures a + (b + (c + (d + (e + (f + g))))) == a + b + c + d + (e + f) + g
  {
  }

  lemma {:induction false} NoMoreMembers(io: NumberIo, ms: seq<Member>, fmt: bool, depth: nat)
    ensures RenderMembers(io, ms[|ms|..], fmt, depth) == [] && TypedMembers(ms[|ms|..])
    ensures ms == [] ==> RenderMembers(io, ms, fmt, depth) == []
  {
  }

  lemma {:induction false} RenderCases(io: NumberIo, j: Json, fmt: bool, depth: nat)
    ensures j == Null ==> Render(io, j, fmt, depth) == "null"
    ensures j == False ==> Render(io, j, fmt, depth) == "false"
    ensures j == True ==> Render(io, j, fmt, depth) == "true"
    ensures j.Number? ==> Render(io, j, fmt, depth) == io.format(j.num)
    ensures j.Raw? ==> Render(io, j, fmt, depth) == j.raw
    ensures j.Text? ==> Render(io, j, fmt, depth) == Quote(j.text) && (CStrings(io, j) ==> NulFree(j.text))
    ensures j.Array? ==> Typed(j) == TypedItems(j.items) && (CStrings(io, j) ==> CStringItems(io, j.items))
    ensures j.Object? ==> Typed(j) == TypedMembers(j.members) && (CStrings(io, j) ==> CStringMembers(io, j.members))
    ensures !j.Array? && !j.Object? && !j.Invalid? ==> Typed(j)
    ensures j.Invalid? ==> !Typed(j)
  {
    hide Quote; hide RenderItems; hide RenderMembers; hide TypedItems; hide TypedMembers; hide CStringItems; hide CStringMembers;
  }

  // ----- no NUL in rendered text

  lemma {:induction false} NulFreeConcat(a: string, b: string)
    requires NulFree(a) && NulFree(b)
    ensures NulFree(a + b)
  {
  }

  lemma {:induction false} NulFreeTail(a: string, b: string, k: nat)
    requires NulFree(b) && |a| <= k <= |a + b|
    ensures NulFree((a + b)[k..])
  {
    var x := (a + b)[k..];
    forall i | 0 <= i < |x| ensures x[i] != '\0' {
      assert x[i] == (a + b)[k + i] == b[k + i - |a|];
    }
  }

  lemma {:induction false} EscapeNulFree(c: char)
    requires c != '\0'
    ensures NulFree(Escape(c))
  {
    hide HexDigit;
    if c < ' ' {
      HexDigitReads(c as nat / 16, false);
      HexDigitReads(c as nat % 16, false);
    }
  }

  lemma {:induction false} QuoteNulFree(s: string)
    requires NulFree(s)
    ensures NulFree(Quote(s)) && NulFree(Escapes(s))
  {
    if s != [] {
      hide Escape;
      QuoteNulFree(s[1..]);
      EscapesCons(s);
      EscapeNulFree(s[0]);
      NulFreeConcat(Escape(s[0]), Escapes(s[1..]));
    }
  }

  lemma {:induction false} BlanksNulFree(fmt: bool, n: nat)
    ensures NulFree(Tabs(n)) && NulFree(Indent(fmt, n)) && NulFree(Newline(fmt)) && NulFree(Colon(fmt)) && NulFree(Separator(fmt))
  {
    if n > 0 { BlanksNulFree(fmt, n - 1); }
  }

  lemma {:induction false} RenderNulFree(io: NumberIo, j: Json, fmt: bool, depth: nat)
    requires CStrings(io, j)
    ensures NulFree(Render(io, j, fmt, depth))
    decreases j, 1
  {
    hide Render; hide CStringItems; hide CStringMembers; hide NulFree; hide Quote;
    RenderCases(io, j, fmt, depth);
    match j {
      case Text(s) => QuoteNulFree(s);
      case Array(xs) => ArrayNulFree(io, xs, fmt, depth);
      case Object(ms) => ObjectNulFree(io, ms, fmt, depth);
      case _ => LeafNulFree(io, j, fmt, depth);
    }
  }

  lemma {:induction false} LeafNulFree(io: NumberIo, j: Json, fmt: bool, depth: nat)
    requires CStrings(io, j) && !j.Array? && !j.Object? && !j.Text?
    ensures NulFree(Render(io, j, fmt, depth))
  {
    hide RenderItems; hide RenderMembers; hide Quote;
  }

  lemma {:induction false} ArrayNulFree(io: NumberIo, xs: seq<Json>, fmt: bool, depth: nat)
    requires CStringItems(io, xs)
    ensures NulFree(Render(io, Array(xs), fmt, depth))
    decreases xs, 1
  {
    hide Render; hide RenderItems; hide CStringItems; hide NulFree;
    var items := RenderItems(io, xs, fmt, depth + 1);
    ArrayText(io, xs, fmt, depth);
    ItemsNulFree(io, xs, fmt, depth + 1);
    NulFreeNone();
    NulFreeConcat(items, "]");
    NulFreeConcat("[", items + "]");
  }

  lemma {:induction false} ObjectNulFree(io: NumberIo, ms: seq<Member>, fmt: bool, depth: nat)
    requires CStringMembers(io, ms)
    ensures NulFree(Render(io, Object(ms), fmt, depth))
    decreases ms, 1
  {
    hide Render; hide RenderMembers; hide CStringMembers; hide NulFree; hide Indent; hide Newline;
    var body, tail := RenderMembers(io, ms, fmt, depth + 1), Indent(fmt, depth) + "}";
    ObjectText(io, ms, fmt, depth);
    MembersNulFree(io, ms, fmt, depth + 1);
    BlanksNulFree(fmt, depth);
    NulFreeNone();
    NulFreeConcat(Indent(fmt, depth), "}");
    NulFreeConcat(body, tail);
    NulFreeConcat(Newline(fmt), body + tail);
    NulFreeConcat("{", Newline(fmt) + (body + tail));
  }

  lemma {:induction false} ItemsNulFree(io: NumberIo, xs: seq<Json>, fmt: bool, depth: nat)
    requires CStringItems(io, xs)
    ensures NulFree(RenderItems(io, xs, fmt, depth))
    decreases xs, 0
  {
    hide Render; hide CStrings; hide Separator; hide NulFree;
    if xs == [] {
      NulFreeNone();
    } else {
      var sep, rest := if |xs| > 1 then Separator(fmt) else [], RenderItems(io, xs[1..], fmt, depth);
      RenderNulFree(io, xs[0], fmt, depth);
      ItemsNulFree(io, xs[1..], fmt, depth);
      BlanksNulFree(fmt, 0);
      NulFreeNone();
      NulFreeConcat(sep, rest);
      NulFreeConcat(Render(io, xs[0], fmt, depth), sep + rest);
    }
  }

  lemma {:induction false} NulFreeNone()
    ensures NulFree([]) && NulFree(",") && NulFree("[") && NulFree("]") && NulFree("{") && NulFree("}")
  {
  }

  lemma {:induction false} MembersNulFree(io: NumberIo, ms: seq<Member>, fmt: bool, depth: nat)
    requires CStringMembers(io, ms)
    ensures NulFree(RenderMembers(io, ms, fmt, depth))
    decreases ms, 0
  {
    hide Render; hide CStrings; hide Indent; hide Newline; hide Colon; hide NulFree; hide Quote;
    NulFreeNone();
    if ms != [] {
      var first, rest := ms[0], RenderMembers(io, ms[1..], fmt, depth);
      var comma, r := if |ms| > 1 then "," else [], Render(io, first.value, fmt, depth);
      QuoteNulFree(first.key);
      RenderNulFree(io, first.value, fmt, depth);
      MembersNulFree(io, ms[1..], fmt, depth);
      BlanksNulFree(fmt, depth);
      NulFreeConcat(Newline(fmt), rest);
      NulFreeConcat(comma, Newline(fmt) + rest);
      NulFreeConcat(r, comma + (Newline(fmt) + rest));
      NulFreeConcat(Colon(fmt), r + (comma + (Newline(fmt) + rest)));
      NulFreeConcat(Quote(first.key), Colon(fmt) + (r + (comma + (Newline(fmt) + rest))));
      NulFreeConcat(Indent(fmt, depth), Quote(first.key) + (Colon(fmt) + (r + (comma + (Newline(fmt) + rest)))));
    }
  }

  /** How many characters escaping adds to one. */
  function Extra(c: char): nat {
    if c == '\"' || c == '\\' || c == BS || c == FF || c == '\n' || c == '\r' || c == '\t' then 1
    else if c < ' ' then 5
    else 0
  }

  lemma {:induction false} EscapeLength(c: char)
    ensures |Escape(c)| == 1 + Extra(c)
  {
  }

  /** The count made before writing is exact. */
  method CountEscapes(s: string) returns (extra: nat)
    ensures |Escapes(s)| == |s| + extra
  {
    hide Escape; hide Extra;
    extra := 0;
    var rest := s;
    while rest != []
      invariant |rest| <= |s| && |Escapes(s)| == |s| - |rest| + extra + |Escapes(rest)|
      decreases |rest|
    {
      EscapesCons(rest);
      EscapeLength(rest[0]);
      extra := extra + Extra(rest[0]);
      rest := rest[1..];
    }
  }

  /** The text of one character, branch by branch as it is written. */
  method EscapeText(c: char) returns (e: string)
    ensures e == Escape(c)
  {
    if c > '\U{1F}' && c != '\"' && c != '\\' { return [c]; }
    if c == '\\' { return "\\\\"; }
    if c == '\"' { return "\\\""; }
    if c == BS { return "\\b"; }
    if c == FF { return "\\f"; }
    if c == '\n' { return "\\n"; }
    if c == '\r' { return "\\r"; }
    if c == '\t' { return "\\t"; }
    return "\\u00" + [HexDigit(c as nat / 16, false), HexDigit(c as nat % 16, false)];
  }
}
