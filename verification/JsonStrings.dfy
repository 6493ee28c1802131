/** JSON strings in text: escaping them, finding their end, and decoding them. */
module JsonStrings {
  import opened Digits
  import opened Keys
  import opened Trees

  // ----- escaping

  const BS := '\U{0008}'
  const FF := '\U{000C}'

  /** What the printer writes for one character. */
  function Escape(c: char): string {
    if c == '\"' then "\\\""
    else if c == '\\' then "\\\\"
    else if c == BS then "\\b"
    else if c == FF then "\\f"
    else if c == '\n' then "\\n"
    else if c == '\r' then "\\r"
    else if c == '\t' then "\\t"
    else if c < ' ' then "\\u00" + [HexDigit(c as nat / 16, false), HexDigit(c as nat % 16, false)]
    else [c]
  }

  function Escapes(s: string): string {
    if s == [] then [] else Escape(s[0]) + Escapes(s[1..])
  }

  function Quote(s: string): string {
    "\"" + Escapes(s) + "\""
  }

  // ----- hexadecimal digits

  /** Four hexadecimal digits; anything else counts as zero. */
  function Hex4(s: string): (h: nat)
    requires |s| == 4
    ensures h <= 0xFFFF
  {
    if HexChar(s[0]) && HexChar(s[1]) && HexChar(s[2]) && HexChar(s[3])
    then 4096 * HexValue(s[0]) + 256 * HexValue(s[1]) + 16 * HexValue(s[2]) + HexValue(s[3])
    else 0
  }

  // ----- code points

  /** The UTF-8 form of a code point, section 3 of RFC 3629. */
  function Utf8(cp: nat): (s: string)
    requires cp <= 0x10FFFF
    ensures 1 <= |s| <= 4 && (cp < 0x10000 ==> |s| <= 3)
  {
    if cp < 0x80 then [cp as char]
    else if cp < 0x800 then [(0xC0 + cp / 64) as char, (0x80 + cp % 64) as char]
    else if cp < 0x10000 then [(0xE0 + cp / 4096) as char, (0x80 + cp / 64 % 64) as char, (0x80 + cp % 64) as char]
    else [(0xF0 + cp / 262144) as char, (0x80 + cp / 4096 % 64) as char, (0x80 + cp / 64 % 64) as char, (0x80 + cp % 64) as char]
  }

  /** Reading one code point back from its first byte and the bytes that follow. */
  function ReadUtf8(s: string): Option<nat> {
    if |s| == 1 && s[0] < '\U{80}' then Some(s[0] as nat)
    else if |s| == 2 && 0xC2 <= s[0] as nat < 0xE0 && Follows(s[1]) then
      Some((s[0] as nat - 0xC0) * 64 + Low(s[1]))
    else if |s| == 3 && 0xE0 <= s[0] as nat < 0xF0 && Follows(s[1]) && Follows(s[2]) then
      Some((s[0] as nat - 0xE0) * 4096 + Low(s[1]) * 64 + Low(s[2]))
    else if |s| == 4 && 0xF0 <= s[0] as nat < 0xF5 && Follows(s[1]) && Follows(s[2]) && Follows(s[3]) then
      Some((s[0] as nat - 0xF0) * 262144 + Low(s[1]) * 4096 + Low(s[2]) * 64 + Low(s[3]))
    else None
  }

  predicate Follows(c: char) {
    0x80 <= c as nat < 0xC0
  }

  function Low(c: char): nat
    requires Follows(c)
  {
    c as nat - 0x80
  }

  lemma {:induction false} Utf8ReadsBack(cp: nat)
    requires cp <= 0x10FFFF
    ensures ReadUtf8(Utf8(cp)) == Some(cp)
  {
    if cp >= 0x10000 {
      assert cp == cp / 262144 * 262144 + cp / 4096 % 64 * 4096 + cp / 64 % 64 * 64 + cp % 64 by { SixBits(cp); }
    } else if cp >= 0x800 {
      SixBits(cp);
    }
  }

  lemma {:induction false} SixBits(n: nat)
    ensures n == n / 64 * 64 + n % 64
    ensures n / 64 == n / 4096 * 64 + n / 64 % 64
    ensures n / 4096 == n / 262144 * 64 + n / 4096 % 64
  {
    assert n / 4096 == n / 64 / 64;
    assert n / 262144 == n / 4096 / 64;
  }

  /** One or two `\uXXXX` sequences at the front of the text. */
  datatype Literal = BadLiteral | Literal(cp: nat, length: nat)

  function ReadLiteral(s: string): (l: Literal)
    ensures l.Literal? ==> l.cp <= 0x10FFFF && l.length <= |s| && ((l.length == 6 && l.cp < 0x10000) || l.length == 12)
  {
    if |s| < 6 then BadLiteral
    else
      var first := Hex4(s[2..6]);
      if 0xDC00 <= first <= 0xDFFF then BadLiteral
      else if 0xD800 <= first <= 0xDBFF then
        if |s| < 12 || s[6] != '\\' || s[7] != 'u' then BadLiteral
        else
          var second := Hex4(s[8..12]);
          if 0xDC00 <= second <= 0xDFFF then Literal(0x10000 + first % 1024 * 1024 + second % 1024, 12) else BadLiteral
      else Literal(first, 6)
  }

  // ----- finding the end, decoding

  /** The first pass: where the string that goes on at `e` is closed. */
  function FindEnd(t: string, e: nat): (r: Option<nat>)
    ensures r.Some? ==> e <= r.value < |t| && t[r.value] == '\"'
    decreases |t| - e
  {
    if e >= |t| then None
    else if t[e] == '\"' then Some(e)
    else if t[e] == '\\' then if e + 1 >= |t| then None else FindEnd(t, e + 2)
    else FindEnd(t, e + 1)
  }

  function Simple(c: char): Option<char> {
    if c == 'b' then Some(BS)
    else if c == 'f' then Some(FF)
    else if c == 'n' then Some('\n')
    else if c == 'r' then Some('\r')
    else if c == 't' then Some('\t')
    else if c == '\"' || c == '\\' || c == '/' then Some(c)
    else None
  }

  function Before(s: string, r: Option<string>): Option<string> {
    if r.None? then None else Some(s + r.value)
  }

  /** The second pass: what stands between `p` and the closing quote at `end`. */
  function Decode(t: string, p: nat, end: nat): Option<string>
    requires end < |t|
    decreases end + 1 - p
  {
    if p >= end then Some([])
    else if t[p] != '\\' then Before([t[p]], Decode(t, p + 1, end))
    else if t[p + 1] == 'u' then
      var l := ReadLiteral(t[p..end]);
      if l.BadLiteral? then None else Before(Utf8(l.cp), Decode(t, p + l.length, end))
    else
      var c := Simple(t[p + 1]);
      if c.None? then None else Before([c.value], Decode(t, p + 2, end))
  }

  datatype Parsed<T> = Fail | Ok(value: T, next: nat)

  /** The string that begins at `i`, kept as a C string, and where the text goes on after it. */
  function ParseStr(t: string, i: nat): (r: Parsed<string>)
    requires i < |t|
    ensures r.Ok? ==> i < r.next <= |t| && t[r.next - 1] == '\"'
  {
    if t[i] != '\"' then Fail
    else
      var end := FindEnd(t, i + 1);
      if end.None? then Fail
      else
        var s := Decode(t, i + 1, end.value);
        if s.None? then Fail else Ok(UpToNul(s.value), end.value + 1)
  }

  // ----- texts within texts

  /** `x` stands in the text at `i`. */
  predicate At(t: string, i: nat, x: string) {
    i + |x| <= |t| && t[i..i + |x|] == x
  }

  lemma {:induction false} AtSplit(t: string, i: nat, a: string, b: string)
    ensures At(t, i, a + b) <==> At(t, i, a) && At(t, i + |a|, b)
  {
    if i + |a + b| <= |t| {
      var u := t[i..i + |a + b|];
      assert u == t[i..i + |a|] + t[i + |a|..i + |a| + |b|];
      assert u == a + b <==> u[..|a|] == a && u[|a|..] == b by {
        assert (a + b)[..|a|] == a && (a + b)[|a|..] == b;
        assert u == u[..|a|] + u[|a|..];
      }
    }
  }

  lemma {:induction false} AtChars(t: string, i: nat, x: string)
    requires At(t, i, x)
    ensures forall k {:trigger x[k]} :: 0 <= k < |x| ==> t[i + k] == x[k]
  {
    assert forall k {:trigger x[k]} :: 0 <= k < |x| ==> t[i + k] == t[i..i + |x|][k];
  }

  // ----- printing and reading a string

  predicate NulFree(s: string) {
    forall i :: 0 <= i < |s| ==> s[i] != '\0'
  }

  lemma {:induction false} UpToNulAll(s: string)
    requires NulFree(s)
    ensures UpToNul(s) == s
  {
    if s != [] { UpToNulAll(s[1..]); }
  }

  lemma {:induction false} ClosingQuote(t: string, end: nat)
    requires end < |t| && t[end] == '\"'
    ensures FindEnd(t, end) == Some(end) && Decode(t, end, end) == Some([])
  {
  }

  lemma {:induction false} EscapesCons(s: string)
    requires s != []
    ensures Escapes(s) == Escape(s[0]) + Escapes(s[1..]) && s == [s[0]] + s[1..]
  {
    hide Escape;
  }

  lemma {:induction false} QuoteAt(t: string, i: nat, s: string)
    requires At(t, i, Quote(s))
    ensures At(t, i + 1, Escapes(s)) && i + 1 + |Escapes(s)| < |t| && |Quote(s)| == 2 + |Escapes(s)|
    ensures t[i] == '\"' && t[i + 1 + |Escapes(s)|] == '\"'
  {
    hide At; hide Escapes;
    AtSplit(t, i, "\"" + Escapes(s), "\"");
    AtSplit(t, i, "\"", Escapes(s));
    AtChar(t, i, '\"');
    AtChar(t, i + 1 + |Escapes(s)|, '\"');
  }

  lemma {:induction false} AtFirst(t: string, i: nat, x: string)
    requires x != []
    ensures At(t, i, x) ==> i < |t| && t[i] == x[0]
  {
    if At(t, i, x) { assert t[i] == t[i..i + |x|][0]; }
  }

  lemma {:induction false} AtChar(t: string, i: nat, c: char)
    ensures At(t, i, [c]) <==> i < |t| && t[i] == c
  {
  }
}
