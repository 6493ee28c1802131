/** Addresses written out from their numbers, digit by digit, and read again. */
module AddressTexts {
  import opened Bytes
  import opened Digits
  import opened Fields
  import opened Addresses
  import opened AddressForms

  function Power16(k: nat): nat {
    if k == 0 then 1 else 16 * Power16(k - 1)
  }

  /** Hexadecimal digits have the value of the number they were written for. */
  lemma {:induction false} HexTextValue(n: nat, upper: seq<bool>)
    requires n < Power16(|upper|)
    ensures Hex(HexText(n, upper)) && Value16(HexText(n, upper)) == n
    decreases |upper|
  {
    if upper != [] {
      hide HexDigit; hide HexValue; hide HexChar;
      var rest, d := HexText(n / 16, upper[..|upper| - 1]), HexDigit(n % 16, upper[|upper| - 1]);
      HexTextValue(n / 16, upper[..|upper| - 1]);
      HexDigitReads(n % 16, upper[|upper| - 1]);
      assert (rest + [d])[..|rest|] == rest;
    }
  }

  /** Decimal digits too. */
  lemma {:induction false} DecimalTextValue(n: nat)
    ensures Decimal(DecimalText(n)) && Value10(DecimalText(n)) == n
  {
    var s := DecimalText(n);
    if n >= 10 {
      DecimalTextValue(n / 10);
      assert s[..|s| - 1] == DecimalText(n / 10);
    } else {
      assert s[..0] == [];
    }
  }

  /** A group: its number, and the case of each of the digits it is written in. */
  datatype Figure = Figure(n: nat, upper: seq<bool>)

  predicate FigureOk(f: Figure) {
    f.n <= 0xffff && f.upper != [] && f.n < Power16(|f.upper|)
  }

  predicate FiguresOk(fs: seq<Figure>) {
    forall i :: 0 <= i < |fs| ==> FigureOk(fs[i])
  }

  function Texts(fs: seq<Figure>): (gs: seq<string>)
    ensures |gs| == |fs|
    ensures forall i :: 0 <= i < |fs| ==> gs[i] == HexText(fs[i].n, fs[i].upper)
  {
    seq(|fs|, i requires 0 <= i < |fs| => HexText(fs[i].n, fs[i].upper))
  }

  /** The two bytes of each number, the high one first. */
  function NumberBytes(fs: seq<Figure>): (bytes: seq<Byte>)
    requires FiguresOk(fs)
    ensures |bytes| == 2 * |fs|
    ensures forall i :: 0 <= i < |fs| ==> bytes[2 * i] as int == fs[i].n / 256 && bytes[2 * i + 1] as int == fs[i].n % 256
  {
    if fs == [] then []
    else
      var f := fs[|fs| - 1];
      assert FigureOk(f);
      var front := NumberBytes(fs[..|fs| - 1]);
      front + [(f.n / 256) as Byte, (f.n % 256) as Byte]
  }

  lemma FigureBytes(f: Figure)
    requires FigureOk(f)
    ensures Group(HexText(f.n, f.upper)) && GroupBytes(HexText(f.n, f.upper)) == [(f.n / 256) as Byte, (f.n % 256) as Byte]
  {
    HexTextValue(f.n, f.upper);
    hide Value16; hide Hex; hide HexText; hide Power16;
  }

  lemma {:induction false} FiguresRead(fs: seq<Figure>)
    requires FiguresOk(fs)
    ensures Groups(Texts(fs)) && FormBytes(Texts(fs)) == NumberBytes(fs)
  {
    hide Group; hide GroupBytes; hide HexText; hide FigureOk; hide Quad;
    forall i | 0 <= i < |fs| ensures Group(Texts(fs)[i]) { FigureBytes(fs[i]); }
    if fs != [] {
      var front, last := fs[..|fs| - 1], fs[|fs| - 1];
      FiguresRead(front);
      FigureBytes(last);
      assert Front(Texts(fs)) == Texts(front) && Last(Texts(fs)) == HexText(last.n, last.upper);
      GroupIsNoQuad(Last(Texts(fs)));
      FormBytesUnfold(Texts(fs));
    }
  }

  /** Eight numbers written out are read as their bytes, whatever the number of digits of
      each and the case of every digit. */
  lemma EightGroups(fs: seq<Figure>)
    requires FiguresOk(fs) && |fs| == 8
    ensures Text6(Join(Texts(fs), ':')) == Address(NumberBytes(fs))
  {
    hide Text6; hide Join; hide FormBytes; hide Group; hide Quad;
    FiguresRead(fs);
    AcceptableRead(Spelling(Full(Texts(fs)), false));
    assert Join(Texts(fs), ':') + "" == Join(Texts(fs), ':');
  }

  /** So every sixteen bytes can be written. */
  lemma SixteenBytes(bytes: seq<Byte>, upper: seq<seq<bool>>) returns (fs: seq<Figure>)
    requires |bytes| == SIZE && |upper| == 8 && forall i :: 0 <= i < 8 ==> |upper[i]| == 4
    ensures |fs| == 8
    ensures forall i :: 0 <= i < 8 ==> fs[i] == Figure(bytes[2 * i] as int * 256 + bytes[2 * i + 1] as int, upper[i])
    ensures Text6(Join(Texts(fs), ':')) == Address(bytes)
  {
    hide Text6; hide Join;
    fs := seq(8, i requires 0 <= i < 8 => Figure(bytes[2 * i] as int * 256 + bytes[2 * i + 1] as int, upper[i]));
    FourDigits();
    EightGroups(fs);
    var r := NumberBytes(fs);
    forall k | 0 <= k < SIZE ensures r[k] == bytes[k] {
      var i := k / 2;
      assert k == 2 * i || k == 2 * i + 1;
      assert fs[i].n / 256 == bytes[2 * i] as int && fs[i].n % 256 == bytes[2 * i + 1] as int;
    }
  }

  lemma FourDigits()
    ensures Power16(4) == 0x10000
  {
    assert Power16(1) == 16 && Power16(2) == 256 && Power16(3) == 4096;
  }

  /** With `::`, the groups that are left out are zeros. */
  lemma GapGroups(left: seq<Figure>, right: seq<Figure>)
    requires FiguresOk(left) && FiguresOk(right) && |left| + |right| < 8
    ensures Text6(GapText(Texts(left), Texts(right)))
         == Address(NumberBytes(left) + Zeros(SIZE - 2 * |left| - 2 * |right|) + NumberBytes(right))
  {
    hide Text6; hide Join; hide FormBytes; hide Group; hide Quad; hide GapText;
    FiguresRead(left);
    FiguresRead(right);
    AcceptableRead(Spelling(Gapped(Texts(left), Texts(right)), false));
    assert GapText(Texts(left), Texts(right)) + "" == GapText(Texts(left), Texts(right));
  }

  // ----- dotted quads

  function DottedText(b: seq<Byte>): string
    requires |b| == 4
  {
    Join([DecimalText(b[0] as nat), DecimalText(b[1] as nat), DecimalText(b[2] as nat), DecimalText(b[3] as nat)], '.')
  }

  /** Every four bytes written in decimal are read as those bytes. */
  lemma FourBytes(b: seq<Byte>)
    requires |b| == 4
    ensures Quad(DottedText(b)) && QuadBytes(DottedText(b)) == b
  {
    hide Quad; hide QuadBytes; hide Join; hide DecimalText;
    DecimalTextValue(b[0] as nat);
    DecimalTextValue(b[1] as nat);
    DecimalTextValue(b[2] as nat);
    DecimalTextValue(b[3] as nat);
    hide Value10; hide Decimal;
    QuadForm(DecimalText(b[0] as nat), DecimalText(b[1] as nat), DecimalText(b[2] as nat), DecimalText(b[3] as nat));
  }

  /** Six groups and four bytes in decimal. */
  lemma SixGroupsAndQuad(fs: seq<Figure>, b: seq<Byte>)
    requires FiguresOk(fs) && |fs| == 6 && |b| == 4
    ensures Text6(Join(Texts(fs) + [DottedText(b)], ':')) == Address(NumberBytes(fs) + b)
  {
    hide Text6; hide Join; hide Group; hide Quad; hide QuadBytes; hide DottedText;
    var gs := Texts(fs) + [DottedText(b)];
    FiguresRead(fs);
    FourBytes(b);
    assert Front(gs) == Texts(fs) && Last(gs) == DottedText(b);
    FormBytesUnfold(gs);
    hide FormBytes;
    AcceptableRead(Spelling(Full(gs), false));
    assert Join(gs, ':') + "" == Join(gs, ':');
  }
}
