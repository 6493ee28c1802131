/** What JSON strings may be written as (section 7 of RFC 8259), and what the second
    pass over a string makes of it. */
module StringForms {
  import opened Digits
  import opened Keys
  import opened Trees
  import opened JsonStrings

  // ----- units

  /** The letters that may follow a backslash, and the characters they stand for. */
  const SHORT_LETTERS := "\"\\/bfnrt"
  const SHORT_MEANINGS := "\"\\/\U{0008}\U{000C}\n\r\t"

  predicate Scalar(cp: nat) {
    cp <= 0x10FFFF && !(0xD800 <= cp <= 0xDFFF)
  }

  predicate Hexadecimal(x: string) {
    forall i :: 0 <= i < |x| ==> HexChar(x[i])
  }

  /** A character by itself, a backslash and a letter, or a code point as one `\uXXXX` or
      as a surrogate pair, each digit in either case. The code also takes `\u` before
      four characters that are not all digits. */
  datatype Unit = Single(c: char) | Short(k: nat) | Point(cp: nat, upper: seq<bool>) | Loose(x: string)

  predicate UnitOk(u: Unit) {
    match u
    case Single(c) => c != '\\'
    case Short(k) => k < 8
    case Point(cp, upper) => Scalar(cp) && |upper| == if cp < 0x10000 then 4 else 8
    case Loose(x) => |x| == 4 && !Hexadecimal(x)
  }

  /** Those of the standard, and control characters, which the code lets stand as they are. */
  predicate Proper(u: Unit) {
    UnitOk(u) && !u.Loose? && u != Single('\"')
  }

  predicate AllOk(us: seq<Unit>) {
    us == [] || (UnitOk(us[0]) && AllOk(us[1..]))
  }

  predicate AllProper(us: seq<Unit>) {
    us == [] || (Proper(us[0]) && AllProper(us[1..]))
  }

  lemma {:induction false} ProperOk(us: seq<Unit>)
    requires AllProper(us)
    ensures AllOk(us)
  {
    if us != [] { ProperOk(us[1..]); }
  }

  function PointText(cp: nat, upper: seq<bool>): string
    requires UnitOk(Point(cp, upper))
  {
    if cp < 0x10000 then "\\u" + HexText(cp, upper)
    else
      var n := cp - 0x10000;
      "\\u" + HexText(0xD800 + n / 1024, upper[..4]) + ("\\u" + HexText(0xDC00 + n % 1024, upper[4..]))
  }

  function UnitText(u: Unit): (s: string)
    requires UnitOk(u)
    ensures |s| >= 1
  {
    match u
    case Single(c) => [c]
    case Short(k) => ['\\', SHORT_LETTERS[k]]
    case Point(cp, upper) => PointText(cp, upper)
    case Loose(x) => "\\u" + x
  }

  function UnitMeaning(u: Unit): string
    requires UnitOk(u)
  {
    match u
    case Single(c) => [c]
    case Short(k) => [SHORT_MEANINGS[k]]
    case Point(cp, _) => Utf8(cp)
    case Loose(_) => "\0"
  }

  function UnitsText(us: seq<Unit>): string
    requires AllOk(us)
  {
    if us == [] then [] else UnitText(us[0]) + UnitsText(us[1..])
  }

  function UnitsMeaning(us: seq<Unit>): string
    requires AllOk(us)
  {
    if us == [] then [] else UnitMeaning(us[0]) + UnitsMeaning(us[1..])
  }

  // ----- single escapes

  lemma {:induction false} ShortReads(k: nat)
    requires k < 8
    ensures Simple(SHORT_LETTERS[k]) == Some(SHORT_MEANINGS[k]) && SHORT_LETTERS[k] != 'u'
  {
    assert k == 0 || k == 1 || k == 2 || k == 3 || k == 4 || k == 5 || k == 6 || k == 7;
  }

  lemma {:induction false} SimpleIsShort(c: char) returns (k: nat)
    requires Simple(c).Some?
    ensures k < 8 && SHORT_LETTERS[k] == c && (c == '\"' ==> k == 0)
  {
    k := if c == '\"' then 0 else if c == '\\' then 1 else if c == '/' then 2 else if c == 'b' then 3
         else if c == 'f' then 4 else if c == 'n' then 5 else if c == 'r' then 6 else 7;
  }

  /** Four digits as they stand. */
  lemma {:induction false} HexText4(h: nat, upper: seq<bool>)
    requires h <= 0xFFFF && |upper| == 4
    ensures HexText(h, upper) == [HexDigit(h / 4096, upper[0]), HexDigit(h / 256 % 16, upper[1]),
                                  HexDigit(h / 16 % 16, upper[2]), HexDigit(h % 16, upper[3])]
  {
    hide HexDigit;
    var u3, u2, u1 := upper[..3], upper[..3][..2], upper[..3][..2][..1];
    assert HexText(h / 16 / 16 / 16, u1) == [HexDigit(h / 16 / 16 / 16 % 16, u1[0])] by { assert u1[..0] == []; }
    assert h / 16 / 16 / 16 == h / 4096 && h / 16 / 16 == h / 256;
    assert u1[0] == upper[0] && u2[1] == upper[1] && u3[2] == upper[2];
    assert HexText(h / 16 / 16, u2) == HexText(h / 16 / 16 / 16, u1) + [HexDigit(h / 16 / 16 % 16, u2[1])];
    assert HexText(h / 16, u3) == HexText(h / 16 / 16, u2) + [HexDigit(h / 16 % 16, u3[2])];
    assert HexText(h, upper) == HexText(h / 16, u3) + [HexDigit(h % 16, upper[3])];
  }

  lemma {:induction false} Hex4Reads(h: nat, upper: seq<bool>)
    requires h <= 0xFFFF && |upper| == 4
    ensures Hexadecimal(HexText(h, upper)) && Hex4(HexText(h, upper)) == h
  {
    hide HexDigit; hide HexText; hide HexValue; hide HexChar;
    WordValue(h);
    HexText4(h, upper);
    HexDigitReads(h / 4096, upper[0]);
    HexDigitReads(h / 256 % 16, upper[1]);
    HexDigitReads(h / 16 % 16, upper[2]);
    HexDigitReads(h % 16, upper[3]);
  }

  lemma {:induction false} WordValue(h: nat)
    ensures h == 4096 * (h / 4096) + 256 * (h / 256 % 16) + 16 * (h / 16 % 16) + h % 16
  {
    assert h / 16 == h / 256 * 16 + h / 16 % 16;
    assert h / 256 == h / 4096 * 16 + h / 256 % 16;
  }

  lemma {:induction false} Hex4Zero(x: string)
    requires |x| == 4 && !Hexadecimal(x)
    ensures Hex4(x) == 0
  {
  }

  /** Four digits are the digits of their value. */
  lemma {:induction false} Hex4Text(x: string) returns (upper: seq<bool>)
    requires |x| == 4 && Hexadecimal(x)
    ensures |upper| == 4 && HexText(Hex4(x), upper) == x
  {
    hide HexDigit; hide HexText;
    var d0, u0 := HexCharIsDigit(x[0]);
    var d1, u1 := HexCharIsDigit(x[1]);
    var d2, u2 := HexCharIsDigit(x[2]);
    var d3, u3 := HexCharIsDigit(x[3]);
    HexDigitReads(d0, u0);
    HexDigitReads(d1, u1);
    HexDigitReads(d2, u2);
    HexDigitReads(d3, u3);
    upper := [u0, u1, u2, u3];
    var h := Hex4(x);
    HexText4(h, upper);
    WordDigits(d0, d1, d2, d3);
  }

  lemma {:induction false} WordDigits(a: nat, b: nat, c: nat, d: nat)
    requires a < 16 && b < 16 && c < 16 && d < 16
    ensures var h := 4096 * a + 256 * b + 16 * c + d; h / 4096 == a && h / 256 % 16 == b && h / 16 % 16 == c && h % 16 == d
  {
    var h := 4096 * a + 256 * b + 16 * c + d;
    assert h / 16 == 256 * a + 16 * b + c && h / 256 == 16 * a + b;
  }

  lemma {:induction false} Surrogates(n: nat)
    requires n < 0x100000
    ensures n / 1024 < 1024
    ensures (0xD800 + n / 1024) % 1024 * 1024 + (0xDC00 + n % 1024) % 1024 == n
  {
    assert (0xD800 + n / 1024) % 1024 == n / 1024;
    assert (0xDC00 + n % 1024) % 1024 == n % 1024;
  }

  lemma {:induction false} PointLength(cp: nat, upper: seq<bool>)
    requires UnitOk(Point(cp, upper))
    ensures var s := PointText(cp, upper); |s| == (if cp < 0x10000 then 6 else 12) && s[0] == '\\' && s[1] == 'u'
  {
    hide HexText;
  }

  lemma {:induction false} PointReads(cp: nat, upper: seq<bool>, post: string)
    requires UnitOk(Point(cp, upper))
    ensures ReadLiteral(PointText(cp, upper) + post) == Literal(cp, |PointText(cp, upper)|)
  {
    hide HexText; hide Hex4;
    var s := PointText(cp, upper) + post;
    if cp < 0x10000 {
      Hex4Reads(cp, upper);
      assert s[2..6] == HexText(cp, upper);
    } else {
      var n := cp - 0x10000;
      Surrogates(n);
      Hex4Reads(0xD800 + n / 1024, upper[..4]);
      Hex4Reads(0xDC00 + n % 1024, upper[4..]);
      assert s[2..6] == HexText(0xD800 + n / 1024, upper[..4]) && s[8..12] == HexText(0xDC00 + n % 1024, upper[4..]);
      assert s[6] == '\\' && s[7] == 'u';
    }
  }

  lemma {:induction false} LooseReads(x: string, post: string)
    requires UnitOk(Loose(x))
    ensures ReadLiteral("\\u" + x + post) == Literal(0, 6)
  {
    Hex4Zero(x);
    assert ("\\u" + x + post)[2..6] == x;
  }

  // ----- units one after another

  /** One unit of the second pass. A backslash in front of the closing quote takes the
      quote for its letter. */
  lemma {:induction false} UnitStep(t: string, p: nat, u: Unit, end: nat)
    requires UnitOk(u) && p < end < |t| && At(t, p, UnitText(u)) && (p + |UnitText(u)| <= end || u == Short(0))
    ensures Decode(t, p, end) == Before(UnitMeaning(u), Decode(t, p + |UnitText(u)|, end))
  {
    hide HexText; hide Utf8; hide Simple; hide ReadLiteral; hide PointText;
    AtChars(t, p, UnitText(u));
    assert t[p] == UnitText(u)[0];
    match u {
      case Single(c) =>
      case Short(k) =>
        assert t[p + 1] == UnitText(u)[1];
        ShortReads(k);
      case Point(cp, upper) =>
        PointLength(cp, upper);
        PointReads(cp, upper, t[p + |UnitText(u)|..end]);
        assert t[p + 1] == UnitText(u)[1];
        assert t[p..end] == UnitText(u) + t[p + |UnitText(u)|..end];
      case Loose(x) =>
        LooseReads(x, t[p + 6..end]);
        assert t[p + 1] == UnitText(u)[1];
        assert t[p..end] == UnitText(u) + t[p + 6..end];
        Utf8Zero();
    }
  }

  lemma {:induction false} Utf8Zero()
    ensures Utf8(0) == "\0"
  {
  }

  /** The units stand one after another from `p` until the end is reached. */
  ghost predicate Covers(t: string, p: nat, end: nat, us: seq<Unit>)
    decreases |us|
  {
    if p >= end then us == []
    else
      && us != [] && UnitOk(us[0]) && At(t, p, UnitText(us[0])) && (p + |UnitText(us[0])| <= end || us[0] == Short(0))
      && Covers(t, p + |UnitText(us[0])|, end, us[1..])
  }

  lemma {:induction false} CoversOk(t: string, p: nat, end: nat, us: seq<Unit>)
    requires Covers(t, p, end, us)
    ensures AllOk(us)
    decreases |us|
  {
    hide UnitOk; hide At;
    if p < end { CoversOk(t, p + |UnitText(us[0])|, end, us[1..]); }
  }

  lemma DecodeEnd(t: string, p: nat, end: nat)
    requires end < |t| && p >= end
    ensures Decode(t, p, end) == Some([])
  {
  }

  /** Units decode to their meanings ... */
  lemma {:induction false} CoversDecode(t: string, p: nat, end: nat, us: seq<Unit>)
    requires end < |t| && Covers(t, p, end, us)
    ensures AllOk(us) && Decode(t, p, end) == Some(UnitsMeaning(us))
    decreases |us|
  {
    hide Decode; hide At; hide UnitMeaning; hide UnitOk; hide UnitText;
    CoversOk(t, p, end, us);
    if p >= end {
      DecodeEnd(t, p, end);
    } else {
      UnitStep(t, p, us[0], end);
      CoversDecode(t, p + |UnitText(us[0])|, end, us[1..]);
    }
  }

  /** The unit at the front of a text that decodes. */
  lemma Slice(t: string, p: nat, end: nat, a: nat, b: nat)
    requires p <= end <= |t| && a <= b <= end - p
    ensures t[p..end][a..b] == t[p + a..p + b]
  {
    var x, y := t[p..end][a..b], t[p + a..p + b];
    assert forall i :: 0 <= i < |x| ==> x[i] == y[i];
  }

  lemma {:induction false} FirstUnit(t: string, p: nat, end: nat) returns (u: Unit)
    requires p < end < |t| && t[end] == '\"' && Decode(t, p, end).Some?
    ensures UnitOk(u) && At(t, p, UnitText(u)) && (p + |UnitText(u)| <= end || u == Short(0))
  {
    hide UnitText; hide UnitOk; hide ReadLiteral;
    if t[p] != '\\' {
      u := Single(t[p]);
      UnitsAt(t, p, u);
    } else if t[p + 1] != 'u' {
      var k := SimpleIsShort(t[p + 1]);
      u := Short(k);
      UnitsAt(t, p, u);
    } else {
      u := FirstLiteral(t[p..end]);
      LiteralAt(t, p, end, UnitText(u));
    }
  }

  lemma LiteralAt(t: string, p: nat, end: nat, x: string)
    requires p <= end <= |t| && |x| <= end - p && t[p..end][..|x|] == x
    ensures At(t, p, x)
  {
    assert t[p..end][..|x|] == t[p..p + |x|];
  }

  lemma UnitsAt(t: string, p: nat, u: Unit)
    requires p < |t| && ((u == Single(t[p]) && t[p] != '\\')
                         || (u.Short? && u.k < 8 && p + 1 < |t| && t[p] == '\\' && t[p + 1] == SHORT_LETTERS[u.k]))
    ensures UnitOk(u) && At(t, p, UnitText(u)) && |UnitText(u)| == if u.Single? then 1 else 2
  {
    if u.Short? { assert t[p..p + 2] == ['\\', SHORT_LETTERS[u.k]]; }
  }

  lemma {:induction false} FirstLiteral(s: string) returns (u: Unit)
    requires |s| >= 2 && s[0] == '\\' && s[1] == 'u' && ReadLiteral(s).Literal?
    ensures UnitOk(u) && |UnitText(u)| <= |s| && s[..|UnitText(u)|] == UnitText(u)
  {
    hide HexText; hide HexChar;
    var x := s[2..6];
    if !Hexadecimal(x) {
      Hex4Zero(x);
      u := Loose(x);
      assert s[..6] == "\\u" + x;
    } else {
      var up := Hex4Text(x);
      if ReadLiteral(s).length == 6 {
        u := Point(Hex4(x), up);
        assert s[..6] == "\\u" + x;
      } else {
        var y := s[8..12];
        if !Hexadecimal(y) { Hex4Zero(y); }
        var up' := Hex4Text(y);
        u := SecondLiteral(x, y, up, up');
        assert s[..12] == "\\u" + x + ("\\u" + y);
      }
    }
  }

  lemma {:induction false} SecondLiteral(x: string, y: string, up: seq<bool>, up': seq<bool>) returns (u: Unit)
    requires |x| == 4 == |y| && |up| == 4 == |up'|
    requires 0xD800 <= Hex4(x) <= 0xDBFF && 0xDC00 <= Hex4(y) <= 0xDFFF
    requires HexText(Hex4(x), up) == x && HexText(Hex4(y), up') == y
    ensures UnitOk(u) && UnitText(u) == "\\u" + x + ("\\u" + y)
  {
    hide HexText; hide Hex4;
    var a, b := Hex4(x), Hex4(y);
    var cp := 0x10000 + a % 1024 * 1024 + b % 1024;
    assert a == 0xD800 + a % 1024 && b == 0xDC00 + b % 1024;
    assert (cp - 0x10000) / 1024 == a % 1024 && (cp - 0x10000) % 1024 == b % 1024;
    u := Point(cp, up + up');
    assert (up + up')[..4] == up && (up + up')[4..] == up';
  }

  /** ... and whatever decodes is made of units. */
  lemma {:induction false} DecodeUnits(t: string, p: nat, end: nat) returns (us: seq<Unit>)
    requires end < |t| && t[end] == '\"' && Decode(t, p, end).Some?
    ensures Covers(t, p, end, us)
    decreases end + 1 - p
  {
    hide Decode; hide At; hide UnitOk; hide UnitText; hide UnitMeaning; hide Covers;
    if p >= end {
      us := [];
      NothingCovered(t, p, end);
    } else {
      var u := FirstUnit(t, p, end);
      UnitStep(t, p, u, end);
      var rest := DecodeUnits(t, p + |UnitText(u)|, end);
      us := [u] + rest;
      CoversCons(t, p, end, u, rest);
    }
  }

  lemma NothingCovered(t: string, p: nat, end: nat)
    requires p >= end
    ensures Covers(t, p, end, [])
  {
  }

  lemma CoversCons(t: string, p: nat, end: nat, u: Unit, rest: seq<Unit>)
    requires p < end && UnitOk(u) && At(t, p, UnitText(u)) && (p + |UnitText(u)| <= end || u == Short(0))
    requires Covers(t, p + |UnitText(u)|, end, rest)
    ensures Covers(t, p, end, [u] + rest)
  {
    hide UnitText; hide UnitOk; hide At;
    assert ([u] + rest)[1..] == rest;
  }

  /** The second pass succeeds exactly on what is made of units, with their meanings. */
  lemma DecodeExactly(t: string, p: nat, end: nat)
    requires end < |t| && t[end] == '\"'
    ensures Decode(t, p, end).Some? <==> exists us :: Covers(t, p, end, us)
    ensures forall us :: Covers(t, p, end, us) ==>
              AllOk(us) && Decode(t, p, end) == Some(UnitsMeaning(us))
  {
    hide Decode; hide Covers; hide UnitOk;
    if Decode(t, p, end).Some? { var us := DecodeUnits(t, p, end); }
    forall us | Covers(t, p, end, us)
      ensures AllOk(us) && Decode(t, p, end) == Some(UnitsMeaning(us))
    {
      CoversDecode(t, p, end, us);
    }
  }

  // ----- what fails

  /** Behind a backslash, any letter but those of the table and `u` is an error. */
  lemma {:induction false} BadLetter(t: string, p: nat, end: nat)
    requires p < end < |t| && t[p] == '\\' && t[p + 1] != 'u' && t[p + 1] !in SHORT_LETTERS
    ensures Decode(t, p, end) == None
  {
    if Simple(t[p + 1]).Some? { var k := SimpleIsShort(t[p + 1]); }
  }

  /** A low surrogate by itself is an error, and so is a high one without a low one behind it. */
  lemma {:induction false} LoneSurrogate(t: string, p: nat, end: nat, h: nat, upper: seq<bool>)
    requires 0xD800 <= h <= 0xDFFF && |upper| == 4 && p + 6 <= end < |t| && At(t, p, "\\u" + HexText(h, upper))
    requires h < 0xDC00 ==> !(p + 12 <= end && At(t, p + 6, "\\u") && 0xDC00 <= Hex4(t[p + 8..p + 12]) <= 0xDFFF)
    ensures Decode(t, p, end) == None
  {
    hide HexText; hide Hex4;
    Hex4Reads(h, upper);
    var s := t[p..end];
    assert t[p..p + 6] == "\\u" + HexText(h, upper);
    assert t[p] == t[p..p + 6][0] && t[p + 1] == t[p..p + 6][1];
    Slice(t, p, end, 2, 6);
    Slice(t, p, p + 6, 2, 6);
    assert ("\\u" + HexText(h, upper))[2..6] == HexText(h, upper);
    if |s| >= 12 && s[6] == '\\' && s[7] == 'u' {
      assert t[p + 6..p + 8] == "\\u";
      Slice(t, p, end, 8, 12);
    }
  }

  // ----- whole strings

  /** The first pass takes a proper unit as a whole. */
  lemma {:induction false} UnitPasses(t: string, p: nat, u: Unit)
    requires Proper(u) && At(t, p, UnitText(u))
    ensures FindEnd(t, p) == FindEnd(t, p + |UnitText(u)|)
  {
    hide HexText; hide Utf8;
    AtChars(t, p, UnitText(u));
    assert t[p] == UnitText(u)[0];
    if u.Point? { PointPasses(t, p, u.cp, u.upper); }
  }

  lemma {:induction false} PlainRun(t: string, p: nat, x: string)
    requires At(t, p, x) && Hexadecimal(x)
    ensures FindEnd(t, p) == FindEnd(t, p + |x|)
    decreases |x|
  {
    if x != [] {
      assert x == [x[0]] + x[1..];
      AtSplit(t, p, [x[0]], x[1..]);
      AtChar(t, p, x[0]);
      hide At;
      PlainRun(t, p + 1, x[1..]);
    }
  }

  lemma {:induction false} WordPasses(t: string, p: nat, h: nat, upper: seq<bool>)
    requires h <= 0xFFFF && |upper| == 4 && At(t, p, "\\u" + HexText(h, upper))
    ensures FindEnd(t, p) == FindEnd(t, p + 6)
  {
    hide HexText; hide Hex4;
    Hex4Reads(h, upper);
    AtSplit(t, p, "\\u", HexText(h, upper));
    AtFirst(t, p, "\\u");
    PlainRun(t, p + 2, HexText(h, upper));
  }

  lemma {:induction false} PointPasses(t: string, p: nat, cp: nat, upper: seq<bool>)
    requires UnitOk(Point(cp, upper)) && At(t, p, PointText(cp, upper))
    ensures FindEnd(t, p) == FindEnd(t, p + |PointText(cp, upper)|)
  {
    hide HexText; hide At; hide FindEnd;
    PointLength(cp, upper);
    if cp < 0x10000 {
      WordPasses(t, p, cp, upper);
    } else {
      var n := cp - 0x10000;
      Surrogates(n);
      var first, second := "\\u" + HexText(0xD800 + n / 1024, upper[..4]), "\\u" + HexText(0xDC00 + n % 1024, upper[4..]);
      AtSplit(t, p, first, second);
      WordPasses(t, p, 0xD800 + n / 1024, upper[..4]);
      WordPasses(t, p + 6, 0xDC00 + n % 1024, upper[4..]);
    }
  }

  lemma {:induction false} ProperCovers(t: string, p: nat, end: nat, us: seq<Unit>)
    requires AllOk(us) && AllProper(us) && At(t, p, UnitsText(us)) && p + |UnitsText(us)| == end < |t| && t[end] == '\"'
    ensures FindEnd(t, p) == Some(end) && Covers(t, p, end, us)
    decreases |us|
  {
    hide At; hide FindEnd; hide UnitText; hide UnitOk; hide Proper;
    if us == [] {
      ClosingQuote(t, p);
    } else {
      var u, rest := us[0], us[1..];
      ProperUnit(u);
      AtSplit(t, p, UnitText(u), UnitsText(rest));
      UnitPasses(t, p, u);
      ProperCovers(t, p + |UnitText(u)|, end, rest);
    }
  }

  lemma ProperUnit(u: Unit)
    requires Proper(u)
    ensures UnitOk(u)
  {
  }

  function Quoted(us: seq<Unit>): string
    requires AllProper(us)
  {
    ProperOk(us);
    "\"" + (UnitsText(us) + "\"")
  }

  /** Every string of the standard reads as what it means, wherever it stands; as a C
      string it ends at the first NUL. */
  lemma {:induction false} StringReads(t: string, i: nat, us: seq<Unit>)
    requires AllProper(us) && At(t, i, Quoted(us))
    ensures AllOk(us)
    ensures ParseStr(t, i) == Ok(UpToNul(UnitsMeaning(us)), i + |Quoted(us)|)
  {
    hide At; hide FindEnd; hide Decode; hide UnitsText; hide UnitsMeaning; hide Covers; hide AllProper;
    ProperOk(us);
    AtSplit(t, i, "\"", UnitsText(us) + "\"");
    AtSplit(t, i + 1, UnitsText(us), "\"");
    AtChar(t, i, '\"');
    AtChar(t, i + 1 + |UnitsText(us)|, '\"');
    var end := i + 1 + |UnitsText(us)|;
    ProperCovers(t, i + 1, end, us);
    CoversDecode(t, i + 1, end, us);
  }

  // ----- what the printer writes

  /** The printer writes the short form where there is one (never for the slash), four
      lower-case digits for other control characters, and everything else as it is. */
  function PrintedUnit(c: char): Unit {
    if c == '\"' then Short(0) else if c == '\\' then Short(1)
    else if c == BS then Short(3) else if c == FF then Short(4) else if c == '\n' then Short(5)
    else if c == '\r' then Short(6) else if c == '\t' then Short(7)
    else if c < ' ' then Point(c as nat, [false, false, false, false])
    else Single(c)
  }

  function PrintedUnits(s: string): (us: seq<Unit>)
    ensures |us| == |s|
  {
    if s == [] then [] else [PrintedUnit(s[0])] + PrintedUnits(s[1..])
  }

  lemma {:induction false} ControlPrinted(c: char)
    requires c < ' '
    ensures var u := Point(c as nat, [false, false, false, false]);
      UnitOk(u) && UnitText(u) == "\\u00" + [HexDigit(c as nat / 16, false), HexDigit(c as nat % 16, false)] && UnitMeaning(u) == [c]
  {
    hide HexDigit; hide HexText;
    var n := c as nat;
    HexText4(n, [false, false, false, false]);
    assert n / 4096 == 0 && n / 256 == 0 && n / 16 < 16;
    assert HexDigit(0, false) == '0' by { ZeroDigit(); }
  }

  lemma ZeroDigit()
    ensures HexDigit(0, false) == '0'
  {
  }

  lemma {:induction false} UnitPrinted(c: char)
    ensures var u := PrintedUnit(c); Proper(u) && UnitText(u) == Escape(c) && UnitMeaning(u) == [c]
  {
    hide HexDigit; hide HexText; hide PointText; hide Utf8;
    if c < ' ' { ControlPrinted(c); }
  }

  lemma {:induction false} UnitsPrinted(s: string)
    ensures AllOk(PrintedUnits(s)) && AllProper(PrintedUnits(s)) && UnitsText(PrintedUnits(s)) == Escapes(s) && UnitsMeaning(PrintedUnits(s)) == s
  {
    if s != [] {
      hide Escape; hide UnitText; hide UnitMeaning; hide PrintedUnit; hide UnitOk;
      UnitPrinted(s[0]);
      UnitsPrinted(s[1..]);
      var us := PrintedUnits(s);
      assert us[0] == PrintedUnit(s[0]) && us[1..] == PrintedUnits(s[1..]) && s == [s[0]] + s[1..];
    }
  }

  lemma QuotePrinted(s: string)
    ensures AllOk(PrintedUnits(s)) && AllProper(PrintedUnits(s)) && Quote(s) == Quoted(PrintedUnits(s)) && UnitsMeaning(PrintedUnits(s)) == s
  {
    UnitsPrinted(s);
    hide Escapes; hide PrintedUnits; hide UnitsText; hide UnitsMeaning; hide AllProper;
    assert "\"" + Escapes(s) + "\"" == "\"" + (Escapes(s) + "\"");
  }

  /** A printed string reads back, wherever it stands. */
  lemma QuoteReadsBack(t: string, i: nat, s: string)
    requires NulFree(s) && At(t, i, Quote(s))
    ensures ParseStr(t, i) == Ok(s, i + |Quote(s)|)
  {
    hide At; hide ParseStr; hide Quote;
    QuotePrinted(s);
    StringReads(t, i, PrintedUnits(s));
    UpToNulAll(s);
  }

  // ----- a string is read the same wherever it stands

  lemma {:induction false} EndLocal(t: string, i: nat, x: string, e: nat)
    requires At(t, i, x) && e <= |x|
    ensures FindEnd(x, e).Some? ==> FindEnd(t, i + e) == Some(i + FindEnd(x, e).value)
    ensures FindEnd(t, i + e).Some? && FindEnd(t, i + e).value < i + |x| ==> FindEnd(x, e) == Some(FindEnd(t, i + e).value - i)
    decreases |x| - e
  {
    AtChars(t, i, x);
    if e < |x| {
      assert t[i + e] == x[e];
      hide At;
      if x[e] == '\\' {
        if e + 1 < |x| { EndLocal(t, i, x, e + 2); }
      } else if x[e] != '\"' {
        EndLocal(t, i, x, e + 1);
      }
    }
  }

  lemma {:induction false} DecodeLocal(t: string, i: nat, x: string, p: nat, end: nat)
    requires At(t, i, x) && end < |x|
    ensures Decode(t, i + p, i + end) == Decode(x, p, end)
    decreases end + 1 - p
  {
    hide ReadLiteral; hide Simple; hide Utf8;
    AtChars(t, i, x);
    if p < end {
      assert t[i + p] == x[p] && t[i + (p + 1)] == x[p + 1];
      SliceWithin(t, i, x, p, end);
      hide At;
      if x[p] != '\\' {
        DecodeLocal(t, i, x, p + 1, end);
      } else if x[p + 1] == 'u' {
        var l := ReadLiteral(x[p..end]);
        if l.Literal? { DecodeLocal(t, i, x, p + l.length, end); }
      } else {
        DecodeLocal(t, i, x, p + 2, end);
      }
    }
  }

  lemma SliceWithin(t: string, i: nat, x: string, p: nat, end: nat)
    requires At(t, i, x) && p <= end <= |x|
    ensures t[i + p..i + end] == x[p..end]
  {
    Slice(t, i, i + |x|, p, end);
  }

  /** The whole of a text is one string. */
  predicate StringText(x: string, s: string) {
    x != [] && ParseStr(x, 0) == Ok(s, |x|)
  }

  /** A string text reads as itself within any text ... */
  lemma {:induction false} StringTextReads(t: string, i: nat, x: string, s: string)
    requires StringText(x, s) && At(t, i, x)
    ensures ParseStr(t, i) == Ok(s, i + |x|)
  {
    hide FindEnd; hide Decode; hide UpToNul;
    AtChars(t, i, x);
    assert t[i + 0] == x[0];
    EndLocal(t, i, x, 1);
    DecodeLocal(t, i, x, 1, |x| - 1);
  }

  /** ... and what reads as a string is a string text. */
  lemma {:induction false} ReadsStringText(t: string, i: nat)
    requires i < |t| && ParseStr(t, i).Ok?
    ensures var r := ParseStr(t, i); StringText(t[i..r.next], r.value)
  {
    hide FindEnd; hide Decode; hide UpToNul;
    var n := ParseStr(t, i).next;
    var x := t[i..n];
    assert At(t, i, x);
    EndLocal(t, i, x, 1);
    DecodeLocal(t, i, x, 1, |x| - 1);
  }

  /** The string texts of the standard. */
  lemma QuotedText(us: seq<Unit>)
    requires AllProper(us)
    ensures AllOk(us) && StringText(Quoted(us), UpToNul(UnitsMeaning(us)))
  {
    hide ParseStr; hide UnitsText; hide UnitsMeaning;
    ProperOk(us);
    var x := Quoted(us);
    assert At(x, 0, x);
    StringReads(x, 0, us);
  }

  // ----- the string texts, without the two passes

  /** What the first pass sees: a character, or a backslash with whatever follows it. */
  datatype Mark = Mark(escaped: bool, c: char)

  predicate MarkOk(m: Mark) { m.escaped || (m.c != '\"' && m.c != '\\') }

  function MarkText(m: Mark): string { if m.escaped then ['\\', m.c] else [m.c] }

  predicate AllMarked(ms: seq<Mark>) { ms == [] || (MarkOk(ms[0]) && AllMarked(ms[1..])) }

  function MarksText(ms: seq<Mark>): string {
    if ms == [] then [] else MarkText(ms[0]) + MarksText(ms[1..])
  }

  lemma {:induction false} MarksEnd(t: string, p: nat, ms: seq<Mark>)
    requires AllMarked(ms) && p + |MarksText(ms)| < |t| && t[p..p + |MarksText(ms)|] == MarksText(ms)
    requires t[p + |MarksText(ms)|] == '\"'
    ensures FindEnd(t, p) == Some(p + |MarksText(ms)|)
    decreases |ms|
  {
    if ms != [] {
      var x, rest := MarkText(ms[0]), MarksText(ms[1..]);
      FrontBack(t, p, x, rest);
      assert t[p] == x[0] && (|x| == 2 ==> t[p + 1] == x[1]);
      MarksEnd(t, p + |x|, ms[1..]);
    }
  }

  lemma FrontBack(t: string, p: nat, x: string, rest: string)
    requires p + |x + rest| < |t| && t[p..p + |x + rest|] == x + rest
    ensures forall k :: 0 <= k < |x| ==> t[p + k] == x[k]
    ensures t[p + |x|..p + |x| + |rest|] == rest
  {
    var s := t[p..p + |x + rest|];
    forall k | 0 <= k < |x| ensures t[p + k] == x[k] { assert s[k] == (x + rest)[k]; }
    assert s[|x|..] == rest && s[|x|..] == t[p + |x|..p + |x| + |rest|];
  }

  lemma {:induction false} EndMarks(t: string, p: nat) returns (ms: seq<Mark>)
    requires FindEnd(t, p).Some?
    ensures AllMarked(ms) && MarksText(ms) == t[p..FindEnd(t, p).value]
    decreases |t| - p
  {
    var end := FindEnd(t, p).value;
    if t[p] == '\"' {
      ms := [];
    } else {
      var m := if t[p] == '\\' then Mark(true, t[p + 1]) else Mark(false, t[p]);
      var rest := EndMarks(t, p + |MarkText(m)|);
      ms := [m] + rest;
      assert ms[1..] == rest && ms[0] == m;
      assert t[p..end] == MarkText(m) + t[p + |MarkText(m)|..end];
    }
  }

  /** The marks and the units of a string text. */
  ghost predicate Marked(x: string, s: string, ms: seq<Mark>, us: seq<Unit>) {
    && AllMarked(ms) && x == "\"" + MarksText(ms) + "\""
    && AllOk(us) && Covers(x, 1, |x| - 1, us) && s == UpToNul(UnitsMeaning(us))
  }

  /** A string text is what stands between quotes such that no quote is seen inside and units
      make up the whole. */
  lemma StringTextExactly(x: string, s: string)
    ensures StringText(x, s) <==> exists ms, us :: Marked(x, s, ms, us)
  {
    hide FindEnd; hide Decode; hide UpToNul; hide UnitsMeaning; hide Covers; hide AllMarked; hide MarksText; hide AllOk;
    if StringText(x, s) {
      var ms := EndMarks(x, 1);
      var us := DecodeUnits(x, 1, |x| - 1);
      CoversDecode(x, 1, |x| - 1, us);
      assert x == "\"" + x[1..|x| - 1] + "\"";
      assert Marked(x, s, ms, us);
    }
    forall ms, us | Marked(x, s, ms, us) ensures StringText(x, s) { MarkedIsText(x, s, ms, us); }
  }

  lemma MarkedIsText(x: string, s: string, ms: seq<Mark>, us: seq<Unit>)
    requires Marked(x, s, ms, us)
    ensures StringText(x, s)
  {
    hide FindEnd; hide Decode; hide UpToNul; hide UnitsMeaning; hide Covers; hide AllMarked; hide MarksText; hide AllOk;
    assert x[1..|x| - 1] == MarksText(ms);
    MarksEnd(x, 1, ms);
    CoversDecode(x, 1, |x| - 1, us);
  }
}
