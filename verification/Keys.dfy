/** Member names and the two ways the library compares them: byte by byte, or
    after folding the ASCII letters to lower case. */
module Keys {

  function Lower(c: char): char {
    if 'A' <= c <= 'Z' then (c as int + 32) as char else c
  }

  function Fold(s: string): (r: string)
    ensures |r| == |s|
    ensures forall i :: 0 <= i < |s| ==> r[i] == Lower(s[i])
  {
    if s == [] then [] else [Lower(s[0])] + Fold(s[1..])
  }

  /** The form of a key that a comparison looks at. */
  function Canon(s: string, caseSensitive: bool): string {
    if caseSensitive then s else Fold(s)
  }

  predicate Matches(a: string, b: string, caseSensitive: bool) {
    Canon(a, caseSensitive) == Canon(b, caseSensitive)
  }

  /** Memory read as a C string: up to its first NUL. */
  function UpToNul(s: string): (t: string)
    ensures t <= s && '\0' !in t
    ensures |t| < |s| ==> s[|t|] == '\0'
  {
    if s == [] || s[0] == '\0' then [] else [s[0]] + UpToNul(s[1..])
  }

  /** The rank of the first character; the end of a string ranks below every character. */
  function HeadCode(s: string): nat {
    if s == [] then 0 else s[0] as nat + 1
  }

  /** Lexicographic difference: only its sign matters. */
  function Lex(a: string, b: string): int {
    if HeadCode(a) != HeadCode(b) then HeadCode(a) - HeadCode(b)
    else if a == [] then 0
    else Lex(a[1..], b[1..])
  }

  function Compare(a: string, b: string, caseSensitive: bool): int {
    Lex(Canon(a, caseSensitive), Canon(b, caseSensitive))
  }

  /** The comparison loop of the library. */
  method CompareStrings(a: string, b: string, caseSensitive: bool) returns (diff: int)
    ensures diff == Compare(a, b, caseSensitive)
    ensures diff == 0 <==> Matches(a, b, caseSensitive)
  {
    var x, y := Canon(a, caseSensitive), Canon(b, caseSensitive);
    LexZero(x, y);
    var i := 0;
    while i < |a| && i < |b| && (if caseSensitive then a[i] == b[i] else Lower(a[i]) == Lower(b[i]))
      invariant 0 <= i <= |a| && i <= |b|
      invariant Lex(x, y) == Lex(x[i..], y[i..])
    {
      i := i + 1;
    }
    var p := if i < |a| then (if caseSensitive then a[i] else Lower(a[i])) as int + 1 else 0;
    var q := if i < |b| then (if caseSensitive then b[i] else Lower(b[i])) as int + 1 else 0;
    diff := p - q;
  }

  lemma LexZero(a: string, b: string)
    ensures Lex(a, b) == 0 <==> a == b
  {
    if HeadCode(a) == HeadCode(b) && a != [] {
      LexZero(a[1..], b[1..]);
      assert a == [a[0]] + a[1..] && b == [b[0]] + b[1..];
    }
  }

  lemma {:induction false} LexAntisymmetric(a: string, b: string)
    ensures Lex(a, b) == -Lex(b, a)
  {
    if HeadCode(a) == HeadCode(b) && a != [] {
      LexAntisymmetric(a[1..], b[1..]);
    }
  }

  lemma {:induction false} LexTransitive(a: string, b: string, c: string)
    requires Lex(a, b) < 0 && Lex(b, c) <= 0
    ensures Lex(a, c) < 0
  {
    if HeadCode(a) == HeadCode(b) == HeadCode(c) && a != [] {
      LexTransitive(a[1..], b[1..], c[1..]);
    }
  }

  /** The order is that of a dictionary: the first difference decides, and a word comes
      before its continuations. */
  lemma {:induction false} LexOrders(p: string, a: string, b: string)
    ensures Lex(p + a, p + b) == Lex(a, b)
    ensures b != [] ==> Lex([], b) < 0
    ensures a != [] && b != [] && a[0] < b[0] ==> Lex(a, b) < 0
  {
    if p == [] {
      assert p + a == a && p + b == b;
    } else {
      assert (p + a)[1..] == p[1..] + a && (p + b)[1..] == p[1..] + b;
      LexOrders(p[1..], a, b);
    }
  }

  const CAPITALS := "ABCDEFGHIJKLMNOPQRSTUVWXYZ"
  const SMALL := "abcdefghijklmnopqrstuvwxyz"

  /** Folding turns each capital into its small letter and leaves every other character. */
  lemma LowerLetters(c: char)
    ensures forall i :: 0 <= i < 26 ==> Lower(CAPITALS[i]) == SMALL[i]
    ensures c !in CAPITALS ==> Lower(c) == c
  {
    forall i | 0 <= i < 26 ensures CAPITALS[i] as int == 'A' as int + i && SMALL[i] as int == 'a' as int + i { LetterCodes(i); }
    if 'A' <= c <= 'Z' { assert CAPITALS[c as int - 'A' as int] == c; }
  }

  lemma LetterCodes(i: nat)
    requires i < 26
    ensures CAPITALS[i] as int == 'A' as int + i && SMALL[i] as int == 'a' as int + i
  {
    assert i == 0 || i == 1 || i == 2 || i == 3 || i == 4 || i == 5 || i == 6 || i == 7 || i == 8 || i == 9 || i == 10 || i == 11
        || i == 12 || i == 13 || i == 14 || i == 15 || i == 16 || i == 17 || i == 18 || i == 19 || i == 20 || i == 21 || i == 22
        || i == 23 || i == 24 || i == 25;
  }
}
