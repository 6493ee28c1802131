/** Reading a JSON string in two passes: the first finds the closing quote and
    reserves memory, the second decodes into it. */
module StringReading {
  import opened Digits
  import opened Trees
  import opened JsonStrings

  method ParseHex4(t: string, at: nat) returns (h: nat)
    requires at + 4 <= |t|
    ensures h == Hex4(t[at..at + 4])
  {
    h := 0;
    var i := 0;
    ghost var s := t[at..at + 4];
    while i < 4
      invariant 0 <= i <= 4
      invariant forall k :: 0 <= k < i ==> HexChar(s[k])
      invariant i == 0 ==> h == 0
      invariant i == 1 ==> h == 16 * HexValue(s[0])
      invariant i == 2 ==> h == 16 * (16 * HexValue(s[0]) + HexValue(s[1]))
      invariant i == 3 ==> h == 16 * (16 * (16 * HexValue(s[0]) + HexValue(s[1])) + HexValue(s[2]))
      invariant i == 4 ==> h == 16 * (16 * (16 * HexValue(s[0]) + HexValue(s[1])) + HexValue(s[2])) + HexValue(s[3])
    {
      assert t[at + i] == s[i];
      if '0' <= t[at + i] <= '9' {
        h := h + (t[at + i] as nat - '0' as nat);
      } else if 'A' <= t[at + i] <= 'F' {
        h := h + (10 + t[at + i] as nat - 'A' as nat);
      } else if 'a' <= t[at + i] <= 'f' {
        h := h + (10 + t[at + i] as nat - 'a' as nat);
      } else {
        return 0;
      }
      if i < 3 { h := h * 16; }
      i := i + 1;
    }
  }

  // ----- one code point

  /** A code point without its last `k` groups of six bits. */
  function Shifted(cp: nat, k: nat): nat
    requires k <= 3
  {
    if k == 0 then cp else if k == 1 then cp / 64 else if k == 2 then cp / 4096 else cp / 262144
  }

  lemma {:induction false} ShiftOnce(cp: nat, k: nat)
    requires k < 3
    ensures Shifted(cp, k) / 64 == Shifted(cp, k + 1)
  {
  }

  lemma {:induction false} Utf8Bytes(cp: nat, mark: nat, k: nat)
    requires cp <= 0x10FFFF && k < |Utf8(cp)|
    requires mark == if |Utf8(cp)| == 1 then 0 else if |Utf8(cp)| == 2 then 0xC0 else if |Utf8(cp)| == 3 then 0xE0 else 0xF0
    ensures var n := |Utf8(cp)|;
      && (k > 0 ==> Utf8(cp)[k] as nat == 0x80 + Shifted(cp, n - 1 - k) % 64)
      && (k == 0 ==> Utf8(cp)[0] as nat == mark + Shifted(cp, n - 1) < 0x100)
  {
  }

  /** The bytes after the first, last one first, taking six bits off the code
      point each time. */
  method WriteTail(cp: nat, length: nat, ghost mark: nat, output: array<char>, out: nat) returns (rest: nat)
    requires cp <= 0x10FFFF && length == |Utf8(cp)| && out + length <= output.Length
    requires mark == if length == 1 then 0 else if length == 2 then 0xC0 else if length == 3 then 0xE0 else 0xF0
    modifies output
    ensures rest == Shifted(cp, length - 1)
    ensures forall k :: out < k < out + length ==> output[k] == Utf8(cp)[k - out]
    ensures forall k :: 0 <= k < out ==> output[k] == old(output[..])[k]
  {
    assert cp == Shifted(cp, 0);
    hide Utf8; hide Shifted;
    rest := cp;
    var pos := length - 1;
    while pos > 0
      invariant 0 <= pos < length
      invariant rest == Shifted(cp, length - 1 - pos)
      invariant forall k :: out + pos < k < out + length ==> output[k] == Utf8(cp)[k - out]
      invariant forall k :: 0 <= k < out ==> output[k] == old(output[..])[k]
    {
      Utf8Bytes(cp, mark, pos);
      ShiftOnce(cp, length - 1 - pos);
      output[out + pos] := (0x80 + rest % 64) as char;
      rest := rest / 64;
      pos := pos - 1;
    }
  }

  method WriteUtf8(cp: nat, output: array<char>, out: nat) returns (length: nat)
    requires cp <= 0x10FFFF && out + |Utf8(cp)| <= output.Length
    modifies output
    ensures length == |Utf8(cp)|
    ensures output[..][..out + length] == old(output[..])[..out] + Utf8(cp)
  {
    var mark := 0;
    if cp < 0x80 { length := 1; }
    else if cp < 0x800 { length, mark := 2, 0xC0; }
    else if cp < 0x10000 { length, mark := 3, 0xE0; }
    else { length, mark := 4, 0xF0; }
    assert length == |Utf8(cp)|;
    hide Utf8; hide Shifted;
    var rest := WriteTail(cp, length, mark, output, out);
    Utf8Bytes(cp, mark, 0);
    output[out] := (rest + mark) as char;
    Appended(old(output[..]), output[..], out, Utf8(cp));
  }

  lemma {:induction false} Appended(before: string, after: string, out: nat, more: string)
    requires |before| == |after| && out + |more| <= |after|
    requires forall k :: out <= k < out + |more| ==> after[k] == more[k - out]
    requires forall k :: 0 <= k < out ==> after[k] == before[k]
    ensures after[..out + |more|] == before[..out] + more
  {
  }

  lemma {:induction false} SubSlice(t: string, p: nat, end: nat, a: nat, b: nat)
    requires a <= b && p + b <= end <= |t|
    ensures t[p..end][a..b] == t[p + a..p + b]
  {
    var x, y := t[p..end][a..b], t[p + a..p + b];
    forall k | 0 <= k < b - a ensures x[k] == y[k] {
      assert x[k] == t[p..end][a + k] == t[p + (a + k)];
      assert y[k] == t[(p + a) + k];
    }
  }

  /** The literal at `p`: how many characters it takes, none if it is not one, and
      the code point it stands for. */
  method ReadUtf16(t: string, p: nat, end: nat) returns (l: Literal)
    requires p <= end <= |t|
    ensures l == ReadLiteral(t[p..end])
  {
    ghost var s := t[p..end];
    if end - p < 6 { return BadLiteral; }
    var first := ParseHex4(t, p + 2);
    SubSlice(t, p, end, 2, 6);
    hide Hex4;
    if 0xDC00 <= first <= 0xDFFF { return BadLiteral; }
    if 0xD800 <= first <= 0xDBFF {
      if end - (p + 6) < 6 { return BadLiteral; }
      if t[p + 6] != '\\' || t[p + 7] != 'u' { return BadLiteral; }
      var second := ParseHex4(t, p + 8);
      SubSlice(t, p, end, 8, 12);
      if second < 0xDC00 || second > 0xDFFF { return BadLiteral; }
      return Literal(0x10000 + first % 1024 * 1024 + second % 1024, 12);
    }
    return Literal(first, 6);
  }

  // ----- how many escapes the first pass sees

  /** Escapes that the first pass, coming from `e`, begins before `p`. */
  function Skipped(t: string, e: nat, p: nat): nat
    requires p <= |t|
    decreases p - e
  {
    if e >= p then 0
    else if t[e] == '\\' then 1 + Skipped(t, e + 2, p)
    else Skipped(t, e + 1, p)
  }

  /** A place that holds no backslash begins no escape, and of two neighbouring
      places at most one does. */
  lemma {:induction false} SkippedNext(t: string, e: nat, p: nat)
    requires e <= p < |t|
    ensures Skipped(t, e, p) <= Skipped(t, e, p + 1) <= Skipped(t, e, p) + 1
    ensures t[p] != '\\' ==> Skipped(t, e, p + 1) == Skipped(t, e, p)
    decreases p - e
  {
    if e < p {
      if t[e] == '\\' {
        if e + 1 < p { SkippedNext(t, e + 2, p); }
      } else {
        SkippedNext(t, e + 1, p);
      }
    }
  }

  lemma {:induction false} SkippedOne(t: string, e: nat, p: nat)
    requires p <= |t| && p <= e + 2
    ensures Skipped(t, e, p) <= 1
  {
    if e + 1 < p { assert Skipped(t, e + 1, p) <= 1 && Skipped(t, e + 2, p) == 0; }
  }

  lemma {:induction false} SkippedPair(t: string, e: nat, p: nat)
    requires e <= p && p + 2 <= |t|
    ensures Skipped(t, e, p + 2) <= Skipped(t, e, p) + 1
    decreases p - e
  {
    if e == p {
      SkippedOne(t, e, p + 2);
    } else {
      if t[e] == '\\' {
        if e + 1 < p { SkippedPair(t, e + 2, p); } else { SkippedOne(t, e + 2, p + 2); }
      } else {
        SkippedPair(t, e + 1, p);
      }
    }
  }

  lemma {:induction false} SkippedSix(t: string, e: nat, p: nat)
    requires e <= p && p + 6 <= |t|
    ensures Skipped(t, e, p + 6) <= Skipped(t, e, p) + 3
  {
    SkippedPair(t, e, p);
    SkippedPair(t, e, p + 2);
    SkippedPair(t, e, p + 4);
  }

  /** The bytes written so far, `out`, when the second pass has come to `p`. */
  ghost predicate Fits(t: string, start: nat, p: nat, out: nat)
    requires p <= |t|
  {
    start <= p && out + Skipped(t, start, p) <= p - start
  }

  lemma {:induction false} PlainFits(t: string, start: nat, p: nat, out: nat)
    requires p < |t| && Fits(t, start, p, out) && t[p] != '\\'
    ensures Fits(t, start, p + 1, out + 1)
  {
    SkippedNext(t, start, p);
  }

  lemma {:induction false} SimpleFits(t: string, start: nat, p: nat, out: nat)
    requires p + 2 <= |t| && Fits(t, start, p, out)
    ensures Fits(t, start, p + 2, out + 1)
  {
    SkippedPair(t, start, p);
  }

  /** Six characters leave room for three bytes and twelve for four, whatever they
      looked like to the first pass. */
  lemma {:induction false} LiteralFits(t: string, start: nat, p: nat, out: nat, l: Literal)
    requires l.Literal? && l.cp <= 0x10FFFF && p + l.length <= |t| && Fits(t, start, p, out)
    requires (l.length == 6 && l.cp < 0x10000) || l.length == 12
    ensures Fits(t, start, p + l.length, out + |Utf8(l.cp)|)
  {
    SkippedSix(t, start, p);
    if l.length == 12 { SkippedSix(t, start, p + 6); }
  }

  /** However far the second pass gets, what it has written is within what the
      first pass reserved. */
  lemma {:induction false} FitsReserved(t: string, start: nat, p: nat, out: nat, end: nat)
    requires start <= p <= end + 1 <= |t| && start <= end && t[end] == '\"' && Fits(t, start, p, out)
    ensures out + Skipped(t, start, end) <= end + 1 - start
    decreases end + 1 - p
  {
    if p == end + 1 {
      SkippedNext(t, start, end);
    } else if p < end {
      SkippedNext(t, start, p);
      FitsReserved(t, start, p + 1, out, end);
    }
  }

  // ----- the two passes

  /** The first pass. */
  method ScanString(t: string, start: nat) returns (ok: bool, end: nat, skipped: nat)
    requires start <= |t|
    ensures ok <==> FindEnd(t, start).Some?
    ensures ok ==> FindEnd(t, start) == Some(end) && skipped == Skipped(t, start, end)
  {
    end, skipped := start, 0;
    assert FindEnd(t, start) == FindEnd(t, end);
    while end < |t| && t[end] != '\"'
      invariant start <= end <= |t| && FindEnd(t, start) == FindEnd(t, end)
      invariant skipped == Skipped(t, start, end)
      invariant forall p :: end <= p <= |t| ==> Skipped(t, start, p) == skipped + Skipped(t, end, p)
      decreases |t| - end
    {
      if t[end] == '\\' {
        if end + 1 >= |t| { return false, end, skipped; }
        skipped := skipped + 1;
        end := end + 1;
      }
      end := end + 1;
    }
    ok := end < |t|;
  }

  /** What the second pass has made of the text from `start` to `p`. */
  ghost predicate DecodedTo(t: string, start: nat, p: nat, end: nat, done: string)
    requires end < |t|
  {
    Decode(t, start, end) == Before(done, Decode(t, p, end))
  }

  lemma {:induction false} DecodedMore(t: string, start: nat, p: nat, end: nat, done: string, more: string, p': nat)
    requires end < |t| && DecodedTo(t, start, p, end, done) && Decode(t, p, end) == Before(more, Decode(t, p', end))
    ensures DecodedTo(t, start, p', end, done + more)
  {
    hide Decode;
    var r := Decode(t, p', end);
    if r.Some? { assert done + (more + r.value) == done + more + r.value; }
  }

  lemma {:induction false} DecodeStep(t: string, p: nat, end: nat)
    requires p < end < |t|
    ensures t[p] != '\\' ==> Decode(t, p, end) == Before([t[p]], Decode(t, p + 1, end))
    ensures t[p] == '\\' && t[p + 1] == 'u' ==>
      var l := ReadLiteral(t[p..end]);
      Decode(t, p, end) == if l.BadLiteral? then None else Before(Utf8(l.cp), Decode(t, p + l.length, end))
    ensures t[p] == '\\' && t[p + 1] != 'u' ==>
      var c := Simple(t[p + 1]);
      Decode(t, p, end) == if c.None? then None else Before([c.value], Decode(t, p + 2, end))
  {
  }

  method PutChar(output: array<char>, out: nat, c: char)
    requires out < output.Length
    modifies output
    ensures output[..][..out + 1] == old(output[..])[..out] + [c]
  {
    output[out] := c;
  }

  /** Between two turns of the second pass. */
  ghost predicate Between(t: string, start: nat, p: nat, end: nat, output: string, out: nat) {
    && start <= p <= end + 1 && start <= end < |t| && t[end] == '\"'
    && Fits(t, start, p, out) && out < |output| == end + 2 - start - Skipped(t, start, end)
    && DecodedTo(t, start, p, end, output[..out])
  }

  lemma {:induction false} TurnDone(t: string, start: nat, p: nat, end: nat, output: string, out: nat,
                                    more: string, p': nat, output': string)
    requires Between(t, start, p, end, output, out) && p' <= end + 1
    requires Fits(t, start, p', out + |more|) && |output'| == |output| && out + |more| <= |output'|
    requires output'[..out + |more|] == output[..out] + more
    requires Decode(t, p, end) == Before(more, Decode(t, p', end))
    ensures Between(t, start, p', end, output', out + |more|)
  {
    DecodedMore(t, start, p, end, output[..out], more, p');
    FitsReserved(t, start, p', out + |more|, end);
  }

  lemma {:induction false} TurnRoom(t: string, start: nat, p: nat, end: nat, output: string, out: nat, more: nat, p': nat)
    requires Between(t, start, p, end, output, out) && p' <= end + 1 && Fits(t, start, p', out + more)
    ensures out + more < |output|
  {
    FitsReserved(t, start, p', out + more, end);
  }

  lemma {:induction false} TurnFails(t: string, start: nat, p: nat, end: nat, output: string, out: nat)
    requires Between(t, start, p, end, output, out) && Decode(t, p, end).None?
    ensures Decode(t, start, end).None?
  {
  }

  method TurnChar(t: string, ghost start: nat, p: nat, end: nat, output: array<char>, out: nat, c: char, n: nat)
    requires Between(t, start, p, end, output[..], out) && p + n <= end + 1 && Fits(t, start, p + n, out + 1)
    requires Decode(t, p, end) == Before([c], Decode(t, p + n, end))
    modifies output
    ensures Between(t, start, p + n, end, output[..], out + 1)
  {
    TurnRoom(t, start, p, end, output[..], out, 1, p + n);
    ghost var before := output[..];
    assert out < |before|;
    hide Between; hide Decode; hide Fits;
    PutChar(output, out, c);
    TurnDone(t, start, p, end, before, out, [c], p + n, output[..]);
  }

  method TurnLiteral(t: string, ghost start: nat, p: nat, end: nat, output: array<char>, out: nat)
    returns (ok: bool, p': nat, out': nat)
    requires Between(t, start, p, end, output[..], out) && p < end && t[p] == '\\' && t[p + 1] == 'u'
    modifies output
    ensures !ok ==> Decode(t, start, end).None?
    ensures ok ==> p < p' && Between(t, start, p', end, output[..], out')
  {
    DecodeStep(t, p, end);
    ghost var before := output[..];
    hide Decode; hide Utf8;
    var l := ReadUtf16(t, p, end);
    if l.BadLiteral? {
      TurnFails(t, start, p, end, before, out);
      return false, p, out;
    }
    LiteralFits(t, start, p, out, l);
    hide ReadLiteral; hide Fits; hide Between;
    TurnRoom(t, start, p, end, before, out, |Utf8(l.cp)|, p + l.length);
    var n := WriteUtf8(l.cp, output, out);
    TurnDone(t, start, p, end, before, out, Utf8(l.cp), p + l.length, output[..]);
    return true, p + l.length, out + n;
  }

  /** One turn of the second pass. The array has the size the first pass asked for:
      every write stays inside it, on any text whatever. */
  method DecodeTurn(t: string, ghost start: nat, p: nat, end: nat, output: array<char>, out: nat)
    returns (ok: bool, p': nat, out': nat)
    requires Between(t, start, p, end, output[..], out) && p < end
    modifies output
    ensures !ok ==> Decode(t, start, end).None?
    ensures ok ==> p < p' && Between(t, start, p', end, output[..], out')
  {
    DecodeStep(t, p, end);
    hide Decode; hide Fits;
    if t[p] != '\\' {
      PlainFits(t, start, p, out);
      TurnChar(t, start, p, end, output, out, t[p], 1);
      return true, p + 1, out + 1;
    }
    if t[p + 1] == 'u' {
      ok, p', out' := TurnLiteral(t, start, p, end, output, out);
      return;
    }
    var c := Simple(t[p + 1]);
    if c.None? {
      TurnFails(t, start, p, end, output[..], out);
      return false, p, out;
    }
    SimpleFits(t, start, p, out);
    TurnChar(t, start, p, end, output, out, c.value, 2);
    return true, p + 2, out + 1;
  }

  /** The second pass, into an array of exactly the reserved size: it never leaves
      it, and on success the decoded string is there, closed by a NUL. */
  method DecodeString(t: string, start: nat, end: nat, output: array<char>) returns (ok: bool, out: nat)
    requires start <= end < |t| && t[end] == '\"'
    requires output.Length == end + 2 - start - Skipped(t, start, end)
    modifies output
    ensures ok <==> Decode(t, start, end).Some?
    ensures ok ==> out < output.Length && output[..][..out] == Decode(t, start, end).value && output[out] == '\0'
  {
    var p := start;
    out, ok := 0, true;
    SkippedBound(t, start, end);
    NothingYet(t, start, end);
    assert output[..][..0] == [];
    assert Between(t, start, start, end, output[..], 0);
    hide Between; hide Decode; hide Skipped;
    while p < end
      invariant Between(t, start, p, end, output[..], out)
      decreases end + 1 - p
    {
      ok, p, out := DecodeTurn(t, start, p, end, output, out);
      if !ok { return; }
    }
    DecodedAll(t, start, p, end, output[..], out);
    output[out] := '\0';
    assert output[..][..out] == Decode(t, start, end).value;
    ok := true;
  }

  lemma {:induction false} NothingYet(t: string, start: nat, end: nat)
    requires end < |t|
    ensures DecodedTo(t, start, start, end, [])
  {
    hide Decode;
    var r := Decode(t, start, end);
    if r.Some? { assert [] + r.value == r.value; }
  }

  lemma {:induction false} DecodedAll(t: string, start: nat, p: nat, end: nat, output: string, out: nat)
    requires p >= end && Between(t, start, p, end, output, out)
    ensures out < |output| && Decode(t, start, end) == Some(output[..out])
  {
    assert Decode(t, p, end) == Some([]);
    hide Decode;
    assert output[..out] + [] == output[..out];
  }

  lemma {:induction false} SkippedBound(t: string, e: nat, p: nat)
    requires p <= |t|
    ensures Skipped(t, e, p) == 0 || e + Skipped(t, e, p) <= p
    ensures e <= p ==> Fits(t, e, e, 0)
    decreases p - e
  {
    if e < p { SkippedBound(t, if t[e] == '\\' then e + 2 else e + 1, p); }
  }
}
