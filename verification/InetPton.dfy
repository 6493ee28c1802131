/** Reading internet addresses from text in one pass. */
module InetPton {
  import opened Bytes
  import opened Digits
  import opened Fields
  import opened Addresses

  // ----- dotted quads

  ghost predicate Read4(fs: seq<string>, bytes: seq<Byte>) {
    |fs| == |bytes| && forall i :: 0 <= i < |fs| ==> Octet(fs[i]) && bytes[i] as int == Value10(fs[i])
  }

  /** How far the scan of a dotted quad has come. */
  ghost predicate Scanned4(fs: seq<string>, tmp: seq<Byte>, tp: nat, sawDigit: bool, octets: nat) {
    && |tmp| == 4 && |fs| == tp + 1 <= 4
    && Read4(Front(fs), tmp[..tp])
    && Decimal(Last(fs)) && Value10(Last(fs)) == tmp[tp] as int
    && sawDigit == (Last(fs) != [])
    && octets == if sawDigit then tp + 1 else tp
  }

  /** Reading one more character leads from the fields so far to fields that the whole text extends. */
  lemma OneMore(src: string, i: nat, sep: char)
    requires i < |src|
    ensures var fs, gs := Split(src[..i], sep), Split(src[..i + 1], sep);
      && gs == (if src[i] == sep then fs + [[]] else Extend(fs, [src[i]]))
      && Extends(gs, Split(src, sep))
  {
    assert src[..i + 1] == src[..i] + [src[i]] && src == src[..i + 1] + src[i + 1..];
    SplitSnoc(src[..i], src[i], sep);
    SplitPrefix(src[..i + 1], src[i + 1..], sep);
  }

  lemma ScanStart4(src: string)
    ensures Scanned4(Split(src[..0], '.'), [0, 0, 0, 0], 0, false, 0)
  {
    assert src[..0] == [];
  }

  lemma MoreDigits(last: string, c: char)
    requires Decimal(last) && '0' <= c <= '9'
    ensures Decimal(last + [c]) && Value10(last + [c]) == 10 * Value10(last) + (c as int - '0' as int)
  {
    assert (last + [c])[..|last|] == last;
  }

  lemma DigitStep(src: string, i: nat, tmp: seq<Byte>, tp: nat, sawDigit: bool, octets: nat)
    requires i < |src| && Scanned4(Split(src[..i], '.'), tmp, tp, sawDigit, octets) && '0' <= src[i] <= '9'
    ensures tp < |tmp| && octets == if sawDigit then tp + 1 else tp
    ensures var val := tmp[tp] as int * 10 + (src[i] as int - '0' as int);
      && (val > 255 ==> !Quad(src))
      && (val <= 255 ==> Scanned4(Split(src[..i + 1], '.'), tmp[tp := val as Byte], tp, true, tp + 1))
  {
    var fs, gs := Split(src[..i], '.'), Split(src[..i + 1], '.');
    OneMore(src, i, '.');
    hide Split; hide Read4; hide Extends;
    MoreDigits(Last(fs), src[i]);
    var val := tmp[tp] as int * 10 + (src[i] as int - '0' as int);
    if val > 255 {
      NoQuad(gs, Split(src, '.'));
    } else {
      assert tmp[tp := val as Byte][..tp] == tmp[..tp];
    }
  }

  lemma Read4Snoc(fs: seq<string>, bytes: seq<Byte>, f: string, b: Byte)
    requires Read4(fs, bytes) && Octet(f) && Value10(f) == b as int
    ensures Read4(fs + [f], bytes + [b])
  {
  }

  lemma DotScanned(fs: seq<string>, tmp: seq<Byte>, tp: nat, octets: nat)
    requires Scanned4(fs, tmp, tp, true, octets)
    ensures octets == |fs| == tp + 1 && |tmp| == 4
    ensures tp < 3 ==> Scanned4(fs + [[]], tmp[tp + 1 := 0], tp + 1, false, octets)
  {
    hide Read4;
    if tp < 3 {
      Read4Snoc(Front(fs), tmp[..tp], Last(fs), tmp[tp]);
      assert tmp[tp + 1 := 0][..tp + 1] == tmp[..tp] + [tmp[tp]];
      assert Front(fs + [[]]) == fs == Front(fs) + [Last(fs)];
    }
  }

  lemma DotStep(src: string, i: nat, tmp: seq<Byte>, tp: nat, octets: nat)
    requires i < |src| && Scanned4(Split(src[..i], '.'), tmp, tp, true, octets) && src[i] == '.'
    ensures octets == 4 ==> !Quad(src)
    ensures octets != 4 ==> tp < 3 && |tmp| == 4
    ensures octets != 4 ==> Scanned4(Split(src[..i + 1], '.'), tmp[tp + 1 := 0], tp + 1, false, octets)
  {
    var fs, gs := Split(src[..i], '.'), Split(src[..i + 1], '.');
    OneMore(src, i, '.');
    DotScanned(fs, tmp, tp, octets);
    assert tp <= 3;
    hide Split; hide Extends; hide Scanned4;
    if octets == 4 { NoQuad(gs, Split(src, '.')); }
  }

  lemma OtherStep(src: string, i: nat, tmp: seq<Byte>, tp: nat, sawDigit: bool, octets: nat)
    requires i < |src| && Scanned4(Split(src[..i], '.'), tmp, tp, sawDigit, octets)
    requires !('0' <= src[i] <= '9') && !(src[i] == '.' && sawDigit)
    ensures !Quad(src)
  {
    var fs, gs := Split(src[..i], '.'), Split(src[..i + 1], '.');
    OneMore(src, i, '.');
    hide Split; hide Extends; hide Read4;
    if src[i] == '.' {
      assert gs[|fs| - 1] == [];
    } else {
      assert Last(gs)[|Last(fs)|] == src[i];
    }
    NoQuad(gs, Split(src, '.'));
  }

  lemma ScanEnd4(src: string, tmp: seq<Byte>, tp: nat, sawDigit: bool, octets: nat)
    requires Scanned4(Split(src[..|src|], '.'), tmp, tp, sawDigit, octets)
    ensures octets >= 4 <==> Quad(src)
    ensures octets >= 4 ==> QuadBytes(src) == tmp
  {
    assert src[..|src|] == src;
    var fs := Split(src, '.');
    hide Split;
    assert fs == Front(fs) + [Last(fs)];
    if octets >= 4 {
      forall k | 0 <= k < 4 ensures Octet(fs[k]) && tmp[k] as int == Value10(fs[k]) {
        if k < 3 { assert Octet(Front(fs)[k]) && tmp[..tp][k] == tmp[k]; }
      }
    }
  }

  /** Accepts exactly the dotted quads. Without success nothing is written; no
      group beyond the fourth is ever begun, since a fourth dot is refused. */
  method InetPton4(src: string, dst: array<Byte>, at: nat) returns (ok: bool)
    requires at + 4 <= dst.Length
    modifies dst
    ensures ok <==> Quad(src)
    ensures ok ==> dst[..] == old(dst[..])[..at] + QuadBytes(src) + old(dst[..])[at + 4..]
    ensures !ok ==> dst[..] == old(dst[..])
  {
    var tmp := new Byte[4](_ => 0);
    var sawDigit, octets, tp, i := false, 0, 0, 0;
    ScanStart4(src);
    assert tmp[..] == [0, 0, 0, 0];
    hide Split; hide Scanned4; hide Quad; hide QuadBytes;
    while i < |src|
      invariant 0 <= i <= |src| && tp < 4
      invariant Scanned4(Split(src[..i], '.'), tmp[..], tp, sawDigit, octets)
      invariant dst[..] == old(dst[..])
    {
      var c := src[i];
      if '0' <= c <= '9' {
        DigitStep(src, i, tmp[..], tp, sawDigit, octets);
        var val := tmp[tp] as int * 10 + (c as int - '0' as int);
        if val > 255 { return false; }
        tmp[tp] := val as Byte;
        if !sawDigit { octets, sawDigit := octets + 1, true; }
      } else if c == '.' && sawDigit {
        DotStep(src, i, tmp[..], tp, octets);
        if octets == 4 { return false; }
        tp := tp + 1;
        tmp[tp] := 0;
        sawDigit := false;
      } else {
        OtherStep(src, i, tmp[..], tp, sawDigit, octets);
        return false;
      }
      i := i + 1;
    }
    ScanEnd4(src, tmp[..], tp, sawDigit, octets);
    if octets < 4 { return false; }
    Overwrite(dst, at, tmp);
    return true;
  }

  method Overwrite(dst: array<Byte>, at: nat, src: array<Byte>)
    requires dst != src && at + src.Length <= dst.Length
    modifies dst
    ensures dst[..] == old(dst[..])[..at] + src[..] + old(dst[..])[at + src.Length..]
  {
    var i := 0;
    while i < src.Length
      invariant 0 <= i <= src.Length
      invariant forall k :: at <= k < at + i ==> dst[k] == src[k - at]
      invariant forall k :: 0 <= k < at || at + i <= k < dst.Length ==> dst[k] == old(dst[..])[k]
    {
      dst[at + i] := src[i];
      i := i + 1;
    }
  }

  // ----- the gap

  /** What stands at position `k` after `i` bytes of the tail have been moved. */
  function Shifted(bytes: seq<Byte>, i: nat, k: nat): Byte
    requires |bytes| <= SIZE && i <= |bytes| && k < SIZE
  {
    if k >= SIZE - i && |bytes| < SIZE then bytes[k - (SIZE - |bytes|)]
    else if k >= |bytes| - i then 0
    else bytes[k]
  }

  /** Moves the bytes from `colonp` on to the end, last one first, clearing each
      place it leaves. */
  method ShiftTail(tmp: array<Byte>, colonp: nat, tp: nat)
    requires tmp.Length == SIZE && colonp <= tp <= SIZE && tmp[..][tp..] == Zeros(SIZE - tp)
    modifies tmp
    ensures tmp[..] == Spread(old(tmp[..])[..tp], colonp)
  {
    ghost var bytes := tmp[..][..tp];
    assert tmp[..] == bytes + Zeros(SIZE - tp);
    var n := tp - colonp;
    var i := 1;
    while i <= n
      invariant 1 <= i <= n + 1
      invariant forall k :: 0 <= k < SIZE ==> tmp[k] == Shifted(bytes, i - 1, k)
    {
      tmp[SIZE - i] := tmp[colonp + n - i];
      tmp[colonp + n - i] := 0;
      i := i + 1;
    }
    SpreadIsShifted(bytes, colonp);
  }

  lemma SpreadIsShifted(bytes: seq<Byte>, pos: nat)
    requires pos <= |bytes| <= SIZE
    ensures forall k :: 0 <= k < SIZE ==> Spread(bytes, pos)[k] == Shifted(bytes, |bytes| - pos, k)
  {
  }

  // ----- colon-separated groups

  /** How far the scan of the groups has come: `front` are the fields already
      closed by a colon, `last` the one being read. */
  ghost predicate Scanned6(fs: seq<string>, tmp: seq<Byte>, tp: nat, colonp: int, sawDigit: bool, val: nat) {
    && fs != [] && |tmp| == SIZE && tp <= SIZE
    && ParseFront(Front(fs)) == Parsed(tmp[..tp], if colonp < 0 then NoGap else GapAt(colonp))
    && tmp[tp..] == Zeros(SIZE - tp)
    && Hex(Last(fs)) && Value16(Last(fs)) == val <= 0xffff
    && sawDigit == (Last(fs) != [])
  }

  /** The same, with the text: `cur` is where the field being read begins. */
  ghost predicate At6(src: string, i: nat, cur: nat, tmp: seq<Byte>, tp: nat, colonp: int, sawDigit: bool, val: nat) {
    && cur <= i <= |src|
    && Scanned6(Split(src[..i], ':'), tmp, tp, colonp, sawDigit, val)
    && src[cur..i] == Last(Split(src[..i], ':'))
    && Split(src[..cur], ':') == Front(Split(src[..i], ':')) + [[]]
  }

  ghost predicate Refused(src: string) {
    ParseFields(Split(src, ':')).Rejected?
  }

  lemma ScanStart6(src: string)
    ensures At6(src, 0, 0, Zeros(SIZE), 0, -1, false, 0)
  {
    assert src[..0] == [] == src[0..0];
    assert Zeros(SIZE)[0..] == Zeros(SIZE);
  }

  /** A character other than a colon goes on with the field, a colon begins a new one. */
  lemma CurrentField(src: string, cur: nat, i: nat)
    requires cur <= i < |src|
    requires src[cur..i] == Last(Split(src[..i], ':')) && Split(src[..cur], ':') == Front(Split(src[..i], ':')) + [[]]
    ensures var gs := Split(src[..i + 1], ':');
      if src[i] == ':' then src[i + 1..i + 1] == Last(gs) && gs == Front(gs) + [[]]
      else src[cur..i + 1] == Last(gs) && Split(src[..cur], ':') == Front(gs) + [[]]
  {
    OneMore(src, i, ':');
    hide Split;
  }

  lemma MoreHexDigits(last: string, c: char)
    requires Hex(last) && HexChar(c)
    ensures Hex(last + [c]) && Value16(last + [c]) == 16 * Value16(last) + HexValue(c)
  {
    assert (last + [c])[..|last|] == last;
  }

  lemma HexStep(src: string, i: nat, cur: nat, tmp: seq<Byte>, tp: nat, colonp: int, sawDigit: bool, val: nat)
    requires i < |src| && At6(src, i, cur, tmp, tp, colonp, sawDigit, val) && HexChar(src[i])
    ensures var val' := 16 * val + HexValue(src[i]);
      && (val' > 0xffff ==> Refused(src))
      && (val' <= 0xffff ==> At6(src, i + 1, cur, tmp, tp, colonp, true, val'))
  {
    CurrentField(src, cur, i);
    var fs, gs, hs := Split(src[..i], ':'), Split(src[..i + 1], ':'), Split(src, ':');
    OneMore(src, i, ':');
    hide Split; hide ParseFront; hide ParseFields;
    MoreHexDigits(Last(fs), src[i]);
    if 16 * val + HexValue(src[i]) > 0xffff {
      BadField(Last(gs), hs[|gs| - 1]);
      RejectedField(gs, hs);
    }
  }

  function Stored(tmp: seq<Byte>, tp: nat, val: nat): seq<Byte>
    requires tp + 2 <= |tmp| && val <= 0xffff
  {
    tmp[tp := (val / 256) as Byte][tp + 1 := (val % 256) as Byte]
  }

  method StoreGroup(tmp: array<Byte>, tp: nat, val: nat)
    requires tp + 2 <= tmp.Length && val <= 0xffff
    modifies tmp
    ensures tmp[..] == Stored(old(tmp[..]), tp, val)
  {
    tmp[tp] := (val / 256) as Byte;
    tmp[tp + 1] := (val % 256) as Byte;
  }

  lemma StoredGroup(tmp: seq<Byte>, tp: nat, f: string)
    requires |tmp| == SIZE && tp + 2 <= SIZE && tmp[tp..] == Zeros(SIZE - tp) && Group(f)
    ensures var tmp' := Stored(tmp, tp, Value16(f));
      tmp'[..tp + 2] == tmp[..tp] + GroupBytes(f) && tmp'[tp + 2..] == Zeros(SIZE - tp - 2)
  {
    hide Value16;
    var tmp' := Stored(tmp, tp, Value16(f));
    assert tmp'[tp + 2..] == tmp[tp..][2..];
  }

  lemma GapScanned(fs: seq<string>, tmp: seq<Byte>, tp: nat, colonp: int, val: nat)
    requires Scanned6(fs, tmp, tp, colonp, false, val)
    ensures val == 0
    ensures if colonp < 0 then Scanned6(fs + [[]], tmp, tp, tp, false, 0) else ParseFront(fs).Rejected?
  {
    ParseFrontUnfold(fs);
    assert Value16([]) == 0;
    hide ParseFront; hide Value16; hide AddGroup;
    assert Front(fs + [[]]) == fs && Last(fs + [[]]) == [];
  }

  /** A colon after an empty field marks the gap, once. */
  lemma GapStep(src: string, i: nat, cur: nat, tmp: seq<Byte>, tp: nat, colonp: int, val: nat)
    requires i < |src| && At6(src, i, cur, tmp, tp, colonp, false, val) && src[i] == ':'
    ensures colonp >= 0 ==> Refused(src)
    ensures colonp < 0 ==> val == 0 && At6(src, i + 1, i + 1, tmp, tp, tp, false, 0)
  {
    CurrentField(src, cur, i);
    var fs, gs := Split(src[..i], ':'), Split(src[..i + 1], ':');
    OneMore(src, i, ':');
    GapScanned(fs, tmp, tp, colonp, val);
    hide Split; hide ParseFields; hide Extends; hide ParseFront; hide Scanned6;
    if colonp >= 0 {
      assert Front(gs) == fs;
      RejectedFront(gs, Split(src, ':'));
    }
  }

  /** A colon after a group stores the group, if there is room. */
  lemma GroupStep(src: string, i: nat, cur: nat, tmp: seq<Byte>, tp: nat, colonp: int, val: nat)
    requires i < |src| && At6(src, i, cur, tmp, tp, colonp, true, val) && src[i] == ':'
    ensures tp + 2 > SIZE ==> Refused(src)
    ensures tp + 2 <= SIZE ==> val <= 0xffff && |tmp| == SIZE
    ensures tp + 2 <= SIZE ==> At6(src, i + 1, i + 1, Stored(tmp, tp, val), tp + 2, colonp, false, 0)
  {
    CurrentField(src, cur, i);
    var fs, gs := Split(src[..i], ':'), Split(src[..i + 1], ':');
    OneMore(src, i, ':');
    ParseFrontUnfold(fs);
    hide Split; hide ParseFields; hide Extends; hide ParseFront; hide Stored; hide GroupBytes;
    assert Front(gs) == fs && Last(gs) == [];
    if tp + 2 > SIZE { RejectedFront(gs, Split(src, ':')); } else { StoredGroup(tmp, tp, Last(fs)); }
  }

  /** A dot is welcome only in a dotted quad that ends the text and still fits. */
  lemma QuadStep(src: string, i: nat, cur: nat, tmp: seq<Byte>, tp: nat, colonp: int, sawDigit: bool, val: nat)
    requires i < |src| && At6(src, i, cur, tmp, tp, colonp, sawDigit, val) && src[i] == '.'
    ensures var p := ParseFields(Split(src, ':'));
      if tp + 4 <= SIZE && Quad(src[cur..])
      then p == Parsed(tmp[..tp] + QuadBytes(src[cur..]), if colonp < 0 then NoGap else GapAt(colonp))
      else p.Rejected?
  {
    var fs, gs, hs := Split(src[..i], ':'), Split(src[..i + 1], ':'), Split(src, ':');
    OneMore(src, i, ':');
    assert |tmp[..tp]| == tp;
    hide Split; hide ParseFront; hide QuadBytes; hide Scanned6; hide ParseFields; hide Quad;
    LastField(src, cur, fs);
    assert Last(gs)[|Last(fs)|] == '.';
    DottedField(fs, gs, hs, src[cur..]);
  }

  lemma LastField(src: string, cur: nat, fs: seq<string>)
    requires cur <= |src| && fs != [] && Split(src[..cur], ':') == Front(fs) + [[]]
    ensures ':' in src[cur..] ==> |Split(src, ':')| > |fs| && !Quad(src[cur..])
    ensures ':' !in src[cur..] ==> Split(src, ':') == Front(fs) + [src[cur..]]
  {
    var rest := src[cur..];
    assert src == src[..cur] + rest;
    SplitPrefix(src[..cur], rest, ':');
    hide Split;
    if Quad(rest) { QuadHasNoColon(rest); }
    ExtendEmpty(Front(fs), rest);
  }

  lemma DottedField(fs: seq<string>, gs: seq<string>, hs: seq<string>, rest: string)
    requires fs != [] && |gs| == |fs| && Front(gs) == Front(fs) && '.' in Last(gs) && Extends(gs, hs)
    requires ':' in rest ==> |hs| > |fs| && !Quad(rest)
    requires ':' !in rest ==> hs == Front(fs) + [rest]
    ensures var p := ParseFront(Front(fs));
      if Quad(rest) && p.Parsed? && |p.bytes| + 4 <= SIZE
      then ParseFields(hs) == p.(bytes := p.bytes + QuadBytes(rest))
      else ParseFields(hs).Rejected?
  {
    var g := hs[|fs| - 1];
    assert '.' in g && !Hex(g);
    hide QuadBytes; hide ParseFront;
    if Quad(rest) {
      QuadIsNoGroup(rest);
      assert Front(hs) == Front(fs) && Last(hs) == rest;
    } else {
      RejectedField(gs, hs);
    }
  }

  /** The text ends in the middle of a group, after one, or after a colon. */
  lemma ScanEnd6(src: string, cur: nat, tmp: seq<Byte>, tp: nat, colonp: int, sawDigit: bool, val: nat)
    requires At6(src, |src|, cur, tmp, tp, colonp, sawDigit, val)
    ensures |tmp| == SIZE && val <= 0xffff
    ensures if !sawDigit then ScanResult(src, true, tmp, tp, colonp)
            else if tp + 2 > SIZE then Refused(src)
            else ScanResult(src, true, Stored(tmp, tp, val), tp + 2, colonp)
  {
    assert src[..|src|] == src;
    var fs := Split(src, ':');
    hide Split; hide ParseFront; hide Stored; hide GroupBytes;
    if Quad(Last(fs)) { QuadIsNoGroup(Last(fs)); }
    if sawDigit && tp + 2 <= SIZE { StoredGroup(tmp, tp, Last(fs)); }
  }

  ghost predicate ScanResult(src: string, ok: bool, tmp: seq<Byte>, tp: nat, colonp: int) {
    if ok then
      && tp <= |tmp| == SIZE && tmp[tp..] == Zeros(SIZE - tp)
      && ParseFields(Split(src, ':')) == Parsed(tmp[..tp], if colonp < 0 then NoGap else GapAt(colonp))
    else Refused(src)
  }

  /** Where the scan stands: the variables its loop updates. */
  datatype Cursor = Cursor(cur: nat, tp: nat, colonp: int, sawDigit: bool, val: nat)

  ghost predicate AtCursor(src: string, i: nat, tmp: seq<Byte>, c: Cursor) {
    At6(src, i, c.cur, tmp, c.tp, c.colonp, c.sawDigit, c.val)
  }

  /** One turn of the scanning loop: it goes on, or it ends with a verdict. */
  method ScanChar(src: string, i: nat, tmp: array<Byte>, c: Cursor) returns (more: bool, ok: bool, c': Cursor)
    requires i < |src| && tmp.Length == SIZE && AtCursor(src, i, tmp[..], c)
    modifies tmp
    ensures more ==> AtCursor(src, i + 1, tmp[..], c')
    ensures !more ==> ScanResult(src, ok, tmp[..], c'.tp, c'.colonp)
  {
    hide At6; hide ScanResult; hide HexValue;
    var ch := src[i];
    if HexChar(ch) {
      HexStep(src, i, c.cur, tmp[..], c.tp, c.colonp, c.sawDigit, c.val);
      var val := 16 * c.val + HexValue(ch);
      if val <= 0xffff { return true, true, c.(val := val, sawDigit := true); }
      RefusedResult(src, tmp[..], c.tp, c.colonp);
      return false, false, c;
    } else if ch == ':' {
      more, c' := ScanColon(src, i, tmp, c);
      return more, false, c';
    } else if ch == '.' && c.tp + 4 <= SIZE {
      ok := ScanQuad(src, i, c.cur, tmp, c.tp, c.colonp, c.sawDigit, c.val);
      return false, ok, if ok then c.(tp := c.tp + 4) else c;
    }
    StrayStep(src, i, c.cur, tmp[..], c.tp, c.colonp, c.sawDigit, c.val);
    RefusedResult(src, tmp[..], c.tp, c.colonp);
    return false, false, c;
  }

  /** The scan of an address after its leading colon. */
  method ScanGroups(src: string, tmp: array<Byte>) returns (ok: bool, tp: nat, colonp: int)
    requires tmp.Length == SIZE && tmp[..] == Zeros(SIZE)
    modifies tmp
    ensures ScanResult(src, ok, tmp[..], tp, colonp)
  {
    var c, more, i := Cursor(0, 0, -1, false, 0), true, 0;
    ScanStart6(src);
    assert AtCursor(src, 0, tmp[..], c);
    hide AtCursor; hide ScanResult;
    while i < |src|
      invariant 0 <= i <= |src|
      invariant AtCursor(src, i, tmp[..], c)
    {
      more, ok, c := ScanChar(src, i, tmp, c);
      if !more { return ok, c.tp, c.colonp; }
      i := i + 1;
    }
    ok, tp := ScanLast(src, tmp, c);
    return ok, tp, c.colonp;
  }

  /** What is left when the text ends: store the group being read. */
  method ScanLast(src: string, tmp: array<Byte>, c: Cursor) returns (ok: bool, tp: nat)
    requires tmp.Length == SIZE && AtCursor(src, |src|, tmp[..], c)
    modifies tmp
    ensures ScanResult(src, ok, tmp[..], tp, c.colonp)
  {
    ScanEnd6(src, c.cur, tmp[..], c.tp, c.colonp, c.sawDigit, c.val);
    hide At6; hide ScanResult; hide Stored;
    if !c.sawDigit { return true, c.tp; }
    if c.tp + 2 > SIZE { RefusedResult(src, tmp[..], c.tp, c.colonp); return false, c.tp; }
    StoreGroup(tmp, c.tp, c.val);
    return true, c.tp + 2;
  }

  method ScanColon(src: string, i: nat, tmp: array<Byte>, c: Cursor) returns (ok: bool, c': Cursor)
    requires i < |src| && src[i] == ':' && tmp.Length == SIZE && AtCursor(src, i, tmp[..], c)
    modifies tmp
    ensures ok ==> AtCursor(src, i + 1, tmp[..], c')
    ensures !ok ==> ScanResult(src, false, tmp[..], c'.tp, c'.colonp)
  {
    hide At6; hide Stored;
    if !c.sawDigit {
      GapStep(src, i, c.cur, tmp[..], c.tp, c.colonp, c.val);
      if c.colonp >= 0 { return false, c; }
      return true, c.(colonp := c.tp, cur := i + 1);
    }
    GroupStep(src, i, c.cur, tmp[..], c.tp, c.colonp, c.val);
    if c.tp + 2 > SIZE { return false, c; }
    StoreGroup(tmp, c.tp, c.val);
    return true, Cursor(i + 1, c.tp + 2, c.colonp, false, 0);
  }

  lemma RefusedResult(src: string, tmp: seq<Byte>, tp: nat, colonp: int)
    requires Refused(src)
    ensures ScanResult(src, false, tmp, tp, colonp)
  {
  }

  lemma StrayStep(src: string, i: nat, cur: nat, tmp: seq<Byte>, tp: nat, colonp: int, sawDigit: bool, val: nat)
    requires i < |src| && At6(src, i, cur, tmp, tp, colonp, sawDigit, val)
    requires !HexChar(src[i]) && src[i] != ':' && (src[i] == '.' ==> tp + 4 > SIZE)
    ensures Refused(src)
  {
    var gs, hs := Split(src[..i + 1], ':'), Split(src, ':');
    OneMore(src, i, ':');
    if src[i] == '.' {
      QuadStep(src, i, cur, tmp, tp, colonp, sawDigit, val);
    } else {
      var last := Last(Split(src[..i], ':'));
      hide Split; hide Scanned6;
      assert Last(gs)[|last|] == src[i];
      BadField(Last(gs), hs[|gs| - 1]);
      RejectedField(gs, hs);
    }
  }

  method ScanQuad(src: string, i: nat, cur: nat, tmp: array<Byte>, tp: nat, ghost colonp: int, ghost sawDigit: bool, ghost val: nat)
    returns (ok: bool)
    requires i < |src| && src[i] == '.' && tmp.Length == SIZE && tp + 4 <= SIZE
    requires At6(src, i, cur, tmp[..], tp, colonp, sawDigit, val)
    modifies tmp
    ensures ScanResult(src, ok, tmp[..], if ok then tp + 4 else tp, colonp)
  {
    ghost var before := tmp[..];
    QuadStep(src, i, cur, before, tp, colonp, sawDigit, val);
    assert before[tp..] == Zeros(SIZE - tp);
    hide Split; hide Scanned6; hide ParseFields; hide Quad; hide QuadBytes;
    ok := InetPton4(src[cur..], tmp, tp);
    if ok {
      assert tmp[..][..tp + 4] == before[..tp] + QuadBytes(src[cur..]);
      assert tmp[..][tp + 4..] == before[tp..][4..];
    }
  }

  lemma Finished(src: string, tmp: seq<Byte>, tp: nat, colonp: int)
    requires !BadStart(src) && ScanResult(Body(src), true, tmp, tp, colonp)
    ensures if colonp < 0 then Text6(src) == if tp == SIZE then Address(tmp) else Invalid
            else colonp <= tp <= SIZE && Text6(src) == Address(Spread(tmp[..tp], colonp))
  {
    hide Split; hide Spread;
    assert tp == SIZE ==> tmp[..tp] == tmp;
  }

  /** Reads an address of eight groups. Without success nothing is written. */
  method InetPton6(src: string, dst: array<Byte>) returns (ok: bool)
    requires dst.Length == SIZE
    modifies dst
    ensures ok <==> Text6(src).Address?
    ensures ok ==> dst[..] == Text6(src).bytes
    ensures !ok ==> dst[..] == old(dst[..])
  {
    var tmp := new Byte[SIZE](_ => 0);
    assert tmp[..] == Zeros(SIZE);
    var body := src;
    if |src| > 0 && src[0] == ':' {
      body := src[1..];
      if !(|body| > 0 && body[0] == ':') { return false; }
    }
    hide ParseFields; hide Split; hide Spread;
    var colonp, tp;
    ok, tp, colonp := ScanGroups(body, tmp);
    if !ok { return false; }
    Finished(src, tmp[..], tp, colonp);
    assert tmp[..][tp..] == Zeros(SIZE - tp);
    hide Text6; hide ScanResult;
    if colonp >= 0 {
      ShiftTail(tmp, colonp, tp);
      tp := SIZE;
    }
    if tp != SIZE { return false; }
    Overwrite(dst, 0, tmp);
    assert dst[..] == tmp[..];
    return true;
  }
}
