/** Internet addresses in text form: what counts as one, and the bytes it stands for. */
module Addresses {
  import opened Bytes
  import opened Digits
  import opened Fields

  // ----- numbers

  predicate Decimal(s: string) {
    forall i :: 0 <= i < |s| ==> '0' <= s[i] <= '9'
  }

  function Value10(s: string): nat
    requires Decimal(s)
  {
    if s == [] then 0 else 10 * Value10(s[..|s| - 1]) + (s[|s| - 1] as int - '0' as int)
  }

  predicate Hex(s: string) {
    forall i :: 0 <= i < |s| ==> HexChar(s[i])
  }

  function Value16(s: string): nat
    requires Hex(s)
  {
    if s == [] then 0 else 16 * Value16(s[..|s| - 1]) + HexValue(s[|s| - 1])
  }

  // ----- dotted quads

  predicate Octet(s: string) {
    s != [] && Decimal(s) && Value10(s) <= 255
  }

  /** Four dot-separated groups of digits, none above 255. */
  predicate QuadFields(fs: seq<string>) {
    |fs| == 4 && forall i :: 0 <= i < |fs| ==> Octet(fs[i])
  }

  predicate Quad(s: string) {
    QuadFields(Split(s, '.'))
  }

  function Octets(fs: seq<string>): (bytes: seq<Byte>)
    requires forall i :: 0 <= i < |fs| ==> Octet(fs[i])
    ensures |bytes| == |fs|
  {
    seq(|fs|, i requires 0 <= i < |fs| && Octet(fs[i]) => Value10(fs[i]) as Byte)
  }

  function QuadBytes(s: string): (bytes: seq<Byte>)
    requires Quad(s)
    ensures |bytes| == 4
  {
    Octets(Split(s, '.'))
  }

  // ----- colon-separated groups

  const SIZE := 16

  predicate Group(s: string) {
    s != [] && Hex(s) && Value16(s) <= 0xffff
  }

  function GroupBytes(s: string): seq<Byte>
    requires Group(s)
  {
    [(Value16(s) / 256) as Byte, (Value16(s) % 256) as Byte]
  }

  /** The bytes of the groups so far, and where among them `::` stood. */
  datatype Gap = NoGap | GapAt(pos: nat)
  datatype Parsed = Rejected | Parsed(bytes: seq<Byte>, gap: Gap)

  function AddGroup(p: Parsed, f: string): Parsed {
    if p.Rejected? || !Group(f) || |p.bytes| + 2 > SIZE then Rejected
    else p.(bytes := p.bytes + GroupBytes(f))
  }

  /** Fields that are followed by a colon: groups, and at most one empty one. */
  function ParseFront(fs: seq<string>): (p: Parsed)
    ensures p.Parsed? ==> |p.bytes| <= SIZE && (p.gap.GapAt? ==> p.gap.pos <= |p.bytes|)
  {
    if fs == [] then Parsed([], NoGap)
    else
      var p := ParseFront(Front(fs));
      if Last(fs) != [] then AddGroup(p, Last(fs))
      else if p.Parsed? && p.gap.NoGap? then p.(gap := GapAt(|p.bytes|))
      else Rejected
  }

  /** The last field may be a group, a dotted quad, or nothing. */
  function ParseFields(fs: seq<string>): (p: Parsed)
    requires fs != []
    ensures p.Parsed? ==> |p.bytes| <= SIZE && (p.gap.GapAt? ==> p.gap.pos <= |p.bytes|)
  {
    var p, f := ParseFront(Front(fs)), Last(fs);
    if f == [] then p
    else if Quad(f) then if p.Rejected? || |p.bytes| + 4 > SIZE then Rejected else p.(bytes := p.bytes + QuadBytes(f))
    else AddGroup(p, f)
  }

  function Zeros(n: nat): (z: seq<Byte>)
    ensures |z| == n
  {
    seq(n, _ => 0)
  }

  /** The bytes after the gap move to the end. When there is nothing to make room
      for, they are lost: zeros stand in their place. */
  function Spread(bytes: seq<Byte>, pos: nat): (r: seq<Byte>)
    requires pos <= |bytes| <= SIZE
    ensures |r| == SIZE
  {
    if |bytes| < SIZE then bytes[..pos] + Zeros(SIZE - |bytes|) + bytes[pos..]
    else bytes[..pos] + Zeros(SIZE - pos)
  }

  datatype Address = Invalid | Address(bytes: seq<Byte>)

  function Place(p: Parsed): Address
    requires p.Parsed? ==> |p.bytes| <= SIZE && (p.gap.GapAt? ==> p.gap.pos <= |p.bytes|)
  {
    match p
    case Rejected => Invalid
    case Parsed(bytes, NoGap) => if |bytes| == SIZE then Address(bytes) else Invalid
    case Parsed(bytes, GapAt(pos)) => Address(Spread(bytes, pos))
  }

  /** One colon of a leading `::` is dropped; a leading colon alone is an error. */
  predicate BadStart(src: string) {
    src != [] && src[0] == ':' && !(|src| > 1 && src[1] == ':')
  }

  function Body(src: string): string {
    if src != [] && src[0] == ':' then src[1..] else src
  }

  function Text6(src: string): Address {
    if BadStart(src) then Invalid else Place(ParseFields(Split(Body(src), ':')))
  }

  lemma ParseFrontUnfold(fs: seq<string>)
    requires fs != []
    ensures var p := ParseFront(Front(fs));
      ParseFront(fs) == if Last(fs) != [] then AddGroup(p, Last(fs))
                        else if p.Parsed? && p.gap.NoGap? then p.(gap := GapAt(|p.bytes|))
                        else Rejected
  {
  }

  lemma TextOf(text: string, fs: seq<string>)
    requires !BadStart(text) && Split(Body(text), ':') == fs
    ensures Text6(text) == Place(ParseFields(fs))
  {
  }

  // ----- numbers and their prefixes

  lemma {:induction false} Value10Prefix(p: string, s: string)
    requires Decimal(s) && p <= s
    ensures Decimal(p) && Value10(p) <= Value10(s)
  {
    if p == s {
    } else {
      Value10Prefix(p, s[..|s| - 1]);
    }
  }

  lemma {:induction false} Value16Prefix(p: string, s: string)
    requires Hex(s) && p <= s
    ensures Hex(p) && Value16(p) <= Value16(s)
  {
    if p == s {
    } else {
      Value16Prefix(p, s[..|s| - 1]);
    }
  }

  /** Decimal digits read as hexadecimal ones stay small while the number does. */
  lemma {:induction false} ReadAsHex(s: string)
    requires Decimal(s)
    ensures Hex(s)
    ensures Value10(s) == 0 ==> Value16(s) == 0
    ensures Value10(s) <= 9 ==> Value16(s) <= 9
    ensures Value10(s) <= 99 ==> Value16(s) <= 153
    ensures Value10(s) <= 999 ==> Value16(s) <= 2457
  {
    if s != [] { ReadAsHex(s[..|s| - 1]); }
  }

  lemma {:induction false} ShortGroup(s: string)
    requires Hex(s) && |s| <= 4
    ensures |s| == 0 ==> Value16(s) == 0
    ensures |s| <= 1 ==> Value16(s) <= 0xf
    ensures |s| <= 2 ==> Value16(s) <= 0xff
    ensures |s| <= 3 ==> Value16(s) <= 0xfff
    ensures Value16(s) <= 0xffff
  {
    if s != [] { ShortGroup(s[..|s| - 1]); }
  }

  // ----- what a scan may conclude from a part of the text

  /** No text that goes on from these fields is a dotted quad. */
  lemma NoQuad(fs: seq<string>, gs: seq<string>)
    requires Extends(fs, gs)
    requires |fs| > 4 || !Decimal(Last(fs)) || Value10(Last(fs)) > 255
          || exists i :: 0 <= i < |fs| - 1 && !Octet(fs[i])
    ensures !QuadFields(gs)
  {
    assert forall i :: 0 <= i < |fs| - 1 ==> gs[i] == Front(fs)[i] == fs[i];
    if Decimal(gs[|fs| - 1]) { Value10Prefix(Last(fs), gs[|fs| - 1]); }
  }

  lemma QuadHasNoColon(s: string)
    requires Quad(s)
    ensures ':' !in s
    ensures forall i :: 0 <= i < |s| ==> s[i] == '.' || '0' <= s[i] <= '9'
  {
    JoinSplit(s, '.');
    JoinedOctets(Split(s, '.'));
  }

  lemma {:induction false} JoinedOctets(fs: seq<string>)
    requires fs != [] && forall i :: 0 <= i < |fs| ==> Decimal(fs[i])
    ensures forall i :: 0 <= i < |Join(fs, '.')| ==> Join(fs, '.')[i] == '.' || '0' <= Join(fs, '.')[i] <= '9'
  {
    if |fs| > 1 { JoinedOctets(Front(fs)); }
  }

  /** A dotted quad is no group, and the digits before its first dot are no large one. */
  lemma QuadPrefix(p: string, s: string)
    requires Quad(s) && p <= s && '.' !in p
    ensures Hex(p) && Value16(p) <= 0xffff
  {
    QuadHasNoColon(s);
    assert s == p + s[|p|..];
    SplitPrefix(p, s[|p|..], '.');
    SplitPrefix([], p, '.');
    assert [] + p == p;
    var f := Split(s, '.')[0];
    assert Split([], '.') == [[]];
    assert p <= f;
    assert Octet(f);
    Value10Prefix(p, f);
    ReadAsHex(p);
  }

  lemma QuadIsNoGroup(s: string)
    requires Quad(s)
    ensures '.' in s && !Group(s) && s != []
  {
    SplitPrefix([], s, '.');
    assert [] + s == s;
    assert Split([], '.') == [[]];
  }

  lemma {:induction false} RejectedStays(fs: seq<string>, k: nat)
    requires k <= |fs| && ParseFront(fs[..k]).Rejected?
    ensures ParseFront(fs).Rejected?
  {
    if k == |fs| {
      assert fs[..k] == fs;
    } else {
      assert Front(fs)[..k] == fs[..k];
      RejectedStays(Front(fs), k);
    }
  }

  lemma RejectedFront(fs: seq<string>, gs: seq<string>)
    requires Extends(fs, gs) && ParseFront(Front(fs)).Rejected?
    ensures ParseFields(gs).Rejected?
  {
    assert Front(gs)[..|fs| - 1] == Front(fs);
    RejectedStays(Front(gs), |fs| - 1);
  }

  /** The field being read can no longer become a group; and it is not the start
      of a dotted quad at the end of the text that still fits. */
  lemma RejectedField(fs: seq<string>, gs: seq<string>)
    requires Extends(fs, gs)
    requires var g := gs[|fs| - 1]; g != [] && !Group(g)
    requires |gs| > |fs| || !Quad(Last(gs)) || ParseFront(Front(fs)).Rejected? || |ParseFront(Front(fs)).bytes| + 4 > SIZE
    ensures ParseFields(gs).Rejected?
  {
    if |gs| > |fs| {
      assert Front(gs)[..|fs|] == gs[..|fs|];
      assert Front(gs[..|fs|]) == Front(fs) && Last(gs[..|fs|]) == gs[|fs| - 1];
      RejectedStays(Front(gs), |fs|);
    } else {
      assert Front(gs) == Front(fs);
    }
  }

  /** Whatever begins like this is neither a group nor a dotted quad. */
  lemma BadField(p: string, s: string)
    requires p <= s && p != []
    requires (exists i :: 0 <= i < |p| && !HexChar(p[i]) && p[i] != '.') || (Hex(p) && Value16(p) > 0xffff)
    ensures !Group(s) && !Quad(s) && s != []
  {
    if Quad(s) {
      QuadHasNoColon(s);
      if Hex(p) { QuadPrefix(p, s); }
    }
    if Group(s) { Value16Prefix(p, s); }
  }
}
