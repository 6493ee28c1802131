/** JSON Pointer (RFC 6901) as the library reads and writes it. */
module Pointers {
  import opened Digits
  import opened Keys
  import opened Trees

  /** size_t has 64 bits. */
  const SIZE_LIMIT: nat := 0x1_0000_0000_0000_0000

  // ----- tokens

  /** The characters up to the next slash. */
  function Token(s: string): (t: string)
    ensures |t| <= |s| && t == s[..|t|] && '/' !in t
    ensures |t| < |s| ==> s[|t|] == '/'
  {
    if s == [] || s[0] == '/' then [] else [s[0]] + Token(s[1..])
  }

  ghost predicate StartsPointer(q: string) {
    q == [] || q[0] == '/'
  }

  lemma {:induction false} TokenConcat(t: string, q: string)
    requires '/' !in t && StartsPointer(q)
    ensures Token(t + q) == t
  {
    if t == [] {
      assert t + q == q;
    } else {
      assert (t + q)[1..] == t[1..] + q;
      TokenConcat(t[1..], q);
    }
  }

  /** A key that needs no escape in a pointer. Keys are C strings: no NUL in them. */
  predicate Plain(key: string) {
    '~' !in key && '/' !in key && '\0' !in key
  }

  function CharMatches(a: char, b: char, caseSensitive: bool): bool {
    if caseSensitive then a == b else Lower(a) == Lower(b)
  }

  /** A member name against one token, reading ~0 as a tilde and ~1 as a slash. */
  predicate TokenMatches(name: string, token: string, caseSensitive: bool) {
    if name == [] || token == [] then name == [] && token == []
    else if token[0] == '~' then
      && |token| >= 2
      && ((token[1] == '0' && name[0] == '~') || (token[1] == '1' && name[0] == '/'))
      && TokenMatches(name[1..], token[2..], caseSensitive)
    else
      CharMatches(name[0], token[0], caseSensitive) && TokenMatches(name[1..], token[1..], caseSensitive)
  }

  lemma TokenAt(p: string, j: nat)
    requires j <= |p|
    ensures Token(p[j..]) == if j == |p| || p[j] == '/' then [] else [p[j]] + Token(p[j + 1..])
  {
    if j < |p| { assert p[j..][1..] == p[j + 1..]; }
  }

  /** One turn of the comparison, with the one or two characters it takes from the token. */
  lemma CompareTurn(name: string, i: nat, p: string, j: nat, caseSensitive: bool)
    requires i < |name| && j < |p| && p[j] != '/'
    ensures var next := if j + 1 < |p| then p[j + 1] else '\0';
      TokenMatches(name[i..], Token(p[j..]), caseSensitive) ==
        if p[j] == '~' then
          && ((next == '0' && name[i] == '~') || (next == '1' && name[i] == '/'))
          && TokenMatches(name[i + 1..], Token(p[j + 2..]), caseSensitive)
        else CharMatches(name[i], p[j], caseSensitive) && TokenMatches(name[i + 1..], Token(p[j + 1..]), caseSensitive)
  {
    hide Token;
    var t := Token(p[j..]);
    TokenAt(p, j);
    assert name[i..][1..] == name[i + 1..] && t[1..] == Token(p[j + 1..]);
    if p[j] == '~' && j + 1 < |p| {
      TokenAt(p, j + 1);
      if p[j + 1] != '/' { assert t[2..] == Token(p[j + 2..]); }
    } else if p[j] == '~' {
      TokenAt(p, j + 1);
    }
  }

  lemma CompareEnd(name: string, i: nat, p: string, j: nat, caseSensitive: bool)
    requires i <= |name| && j <= |p| && (i == |name| || j == |p| || p[j] == '/')
    ensures TokenMatches(name[i..], Token(p[j..]), caseSensitive) <==> i == |name| && (j == |p| || p[j] == '/')
  {
    hide Token;
    TokenAt(p, j);
  }

  /** The comparison loop: it stops at the end of the name or of the token. */
  method ComparePointers(name: string, pointer: string, caseSensitive: bool) returns (same: bool)
    ensures same == TokenMatches(name, Token(pointer), caseSensitive)
  {
    hide TokenMatches; hide Token;
    var i, j := 0, 0;
    assert name[0..] == name && pointer[0..] == pointer;
    while i < |name| && j < |pointer| && pointer[j] != '/'
      invariant 0 <= i <= |name| && 0 <= j <= |pointer|
      invariant TokenMatches(name, Token(pointer), caseSensitive)
             == TokenMatches(name[i..], Token(pointer[j..]), caseSensitive)
      decreases |name| - i
    {
      CompareTurn(name, i, pointer, j, caseSensitive);
      if pointer[j] == '~' {
        var next := if j + 1 < |pointer| then pointer[j + 1] else '\0';
        if (next != '0' || name[i] != '~') && (next != '1' || name[i] != '/') {
          return false;
        }
        j := j + 1;
      } else if !CharMatches(name[i], pointer[j], caseSensitive) {
        return false;
      }
      i, j := i + 1, j + 1;
    }
    CompareEnd(name, i, pointer, j, caseSensitive);
    same := (j < |pointer| && pointer[j] != '/') == (i < |name|);
  }

  // ----- writing a key as a token

  /** What memory holds before anything is written to it, by position. */
  type Memory = nat -> char

  /** What the encoder leaves in its buffer from position `at` on. In front of the
      '1' it writes for a slash it skips a byte, so the byte already there stays;
      a tilde comes out as ~1. */
  function Encode(key: string, stale: Memory, at: nat): string {
    if key == [] then []
    else if key[0] == '/' then [stale(at), '1'] + Encode(key[1..], stale, at + 2)
    else if key[0] == '~' then ['~', '1'] + Encode(key[1..], stale, at + 2)
    else [key[0]] + Encode(key[1..], stale, at + 1)
  }

  function EncodedLength(key: string): nat {
    if key == [] then 0
    else (if key[0] == '~' || key[0] == '/' then 2 else 1) + EncodedLength(key[1..])
  }

  /** The encoder fills exactly the room its companion reserves for it. */
  lemma EncodeLength(key: string, stale: Memory, at: nat)
    ensures |Encode(key, stale, at)| == EncodedLength(key)
  {
  }

  method PointerEncodedLength(key: string) returns (length: nat)
    ensures length == EncodedLength(key)
    ensures forall stale: Memory, at: nat :: |Encode(key, stale, at)| == length
  {
    length := 0;
    var i := 0;
    while i < |key|
      invariant 0 <= i <= |key|
      invariant EncodedLength(key) == length + EncodedLength(key[i..])
    {
      assert key[i..][1..] == key[i + 1..];
      if key[i] == '~' || key[i] == '/' {
        length := length + 1;
      }
      i, length := i + 1, length + 1;
    }
    forall stale: Memory, at: nat { EncodeLength(key, stale, at); }
  }

  /** How far the encoder has come: `e` is written up to `d`, the rest is as it was. */
  ghost predicate Encoding(b: string, was: string, e: string, at: nat, d: nat) {
    && at <= d <= at + |e| < |b| == |was| && b[..at] == was[..at]
    && b[at..d] == e[..d - at] && b[d..] == was[d..]
  }

  /** The encoder writes into a buffer whose old contents show through, and ends
      what it wrote with a NUL. */
  method EncodeStringAsPointer(destination: array<char>, at: nat, source: string, ghost stale: Memory)
    requires at + EncodedLength(source) < destination.Length
    requires forall i :: at <= i < destination.Length ==> destination[i] == stale(i)
    modifies destination
    ensures destination[at..at + EncodedLength(source)] == Encode(source, stale, at)
    ensures destination[at + EncodedLength(source)] == '\0'
    ensures destination[..at] == old(destination[..at])
  {
    hide Encode;
    hide EncodedLength;
    var i, d := 0, at;
    EncodeLength(source, stale, at);
    ghost var was, e := destination[..], Encode(source, stale, at);
    assert source[0..] == source && e[0..] == e;
    while i < |source|
      invariant 0 <= i <= |source| && at <= d && Encoding(destination[..], was, e, at, d)
      invariant e[d - at..] == Encode(source[i..], stale, d)
    {
      EncodeHead(source, i, stale, d, e[d - at..]);
      d := EncodeChar(destination, d, source[i], was, e, at);
      i := i + 1;
    }
    assert source[i..] == [];
    EncodeEmpty(stale, d);
    destination[d] := '\0';
  }

  /** One character, which comes out as the next characters of the encoding. */
  method EncodeChar(destination: array<char>, d: nat, c: char, ghost was: string, ghost e: string, ghost at: nat)
    returns (d': nat)
    requires Encoding(destination[..], was, e, at, d)
    requires var f := e[d - at..];
      && (c == '/' ==> |f| >= 2 && f[0] == was[d] && f[1] == '1')
      && (c == '~' ==> |f| >= 2 && f[0] == '~' && f[1] == '1')
      && (c != '/' && c != '~' ==> |f| >= 1 && f[0] == c)
    modifies destination
    ensures d' == d + (if c == '/' || c == '~' then 2 else 1) && Encoding(destination[..], was, e, at, d')
  {
    ghost var b := destination[..];
    assert destination[d] == b[d..][0] == was[d];
    d' := d;
    if c == '/' {
      destination[d + 1] := '1';
      d' := d' + 1;
    } else if c == '~' {
      destination[d], destination[d + 1] := '~', '1';
      d' := d' + 1;
    } else {
      destination[d] := c;
    }
    d' := d' + 1;
    Encoded(b, destination[..], was, e, at, d, d');
  }

  lemma Encoded(b: string, b': string, was: string, e: string, at: nat, d: nat, d': nat)
    requires Encoding(b, was, e, at, d) && d <= d' <= at + |e| && |b'| == |b|
    requires b'[..d] == b[..d] && b'[d'..] == b[d'..] && b'[d..d'] == e[d - at..d' - at]
    ensures Encoding(b', was, e, at, d')
  {
    assert b'[..at] == b'[..d][..at] && b[..at] == b[..d][..at];
    assert b'[at..d'] == b'[..d][at..] + b'[d..d'] && b[at..d] == b[..d][at..];
    assert e[..d' - at] == e[..d - at] + e[d - at..d' - at];
    assert b[d'..] == b[d..][d' - d..] && was[d'..] == was[d..][d' - d..];
  }

  lemma EncodeEmpty(stale: Memory, at: nat)
    ensures Encode([], stale, at) == []
  {
  }

  lemma EncodeHead(source: string, i: nat, stale: Memory, at: nat, e: string)
    requires i < |source| && e == Encode(source[i..], stale, at)
    ensures source[i] == '/' ==>
              |e| >= 2 && e[0] == stale(at) && e[1] == '1' && e[2..] == Encode(source[i + 1..], stale, at + 2)
    ensures source[i] == '~' ==>
              |e| >= 2 && e[0] == '~' && e[1] == '1' && e[2..] == Encode(source[i + 1..], stale, at + 2)
    ensures source[i] != '/' && source[i] != '~' ==>
              |e| >= 1 && e[0] == source[i] && e[1..] == Encode(source[i + 1..], stale, at + 1)
  {
    assert source[i..][1..] == source[i + 1..];
  }

  lemma {:induction false} UpToNulConcat(s: string, t: string)
    requires '\0' !in s
    ensures UpToNul(s + t) == s + UpToNul(t)
  {
    if s == [] {
      assert s + t == t;
    } else {
      assert (s + t)[1..] == s[1..] + t;
      UpToNulConcat(s[1..], t);
    }
  }

  lemma {:induction false} EncodePlain(key: string, stale: Memory, at: nat)
    requires Plain(key)
    ensures Encode(key, stale, at) == key && UpToNul(key) == key
  {
    if key != [] {
      assert key == [key[0]] + key[1..];
      EncodePlain(key[1..], stale, at + 1);
    }
  }

  /** The slashes of a key stay readable where the memory held a tilde before each. */
  ghost predicate SlashesKept(key: string, stale: Memory, at: nat) {
    forall i :: 0 <= i < |key| && key[i] == '/' ==> stale(at + EncodedLength(key[..i])) == '~'
  }

  lemma SlashesKeptHead(key: string, stale: Memory, at: nat)
    requires key != []
    ensures SlashesKept(key, stale, at) <==>
            && (key[0] == '/' ==> stale(at) == '~')
            && SlashesKept(key[1..], stale, at + EncodedLength(key[..1]))
  {
    var rest := key[1..];
    forall i | 0 <= i < |rest|
      ensures EncodedLength(key[..i + 1]) == EncodedLength(key[..1]) + EncodedLength(rest[..i])
    {
      assert key[..i + 1][1..] == rest[..i];
    }
    if SlashesKept(key, stale, at) {
      assert key[..0] == [];
      forall i | 0 <= i < |rest| && rest[i] == '/' ensures stale(at + EncodedLength(key[..1]) + EncodedLength(rest[..i])) == '~' {
        assert key[i + 1] == '/';
      }
    } else {
      var i :| 0 <= i < |key| && key[i] == '/' && stale(at + EncodedLength(key[..i])) != '~';
      if i > 0 { assert rest[i - 1] == '/'; }
    }
  }

  /** What a lookup gets to see of an encoded key: it stops at a NUL or a slash. */
  function Seen(e: string): string {
    Token(UpToNul(e))
  }

  lemma SeenHead(c: char, e: string)
    ensures Seen([c] + e) == if c == '\0' || c == '/' then [] else [c] + Seen(e)
  {
    assert ([c] + e)[1..] == e;
  }

  /** An encoded key finds its own member again exactly when it holds no tilde and
      every byte that the encoder skipped in front of a slash was a tilde already. */
  lemma {:induction false} EncodeFindsKey(key: string, stale: Memory, at: nat)
    requires '\0' !in key
    ensures TokenMatches(key, Seen(Encode(key, stale, at)), true) <==> '~' !in key && SlashesKept(key, stale, at)
  {
    if key != [] {
      hide SlashesKept; hide Seen; hide Encode; hide EncodedLength; hide TokenMatches;
      var rest, next := key[1..], at + EncodedLength(key[..1]);
      assert key == [key[0]] + rest;
      EncodeFindsKey(rest, stale, next);
      SlashesKeptHead(key, stale, at);
      SeenEncode(key, stale, at);
      SeenMatches(key, stale(at), Seen(Encode(rest, stale, next)), Seen(Encode(key, stale, at)));
    }
  }

  /** The first character decides, or the rest does. */
  lemma SeenMatches(key: string, c: char, rest: string, seen: string)
    requires key != []
    requires seen == if key[0] == '/' then (if c == '\0' || c == '/' then [] else [c, '1'] + rest)
                     else if key[0] == '~' then ['~', '1'] + rest
                     else [key[0]] + rest
    ensures TokenMatches(key, seen, true) <==>
            key[0] != '~' && (key[0] == '/' ==> c == '~') && TokenMatches(key[1..], rest, true)
  {
    assert |seen| >= 2 && key[0] == '/' ==> seen[2..] == rest;
    assert key[0] != '/' && key[0] != '~' ==> seen[1..] == rest;
  }

  lemma SeenEncode(key: string, stale: Memory, at: nat)
    requires key != [] && key[0] != '\0'
    ensures var rest, c, next := key[1..], stale(at), at + EncodedLength(key[..1]);
      Seen(Encode(key, stale, at)) ==
        if key[0] == '/' then (if c == '\0' || c == '/' then [] else [c, '1'] + Seen(Encode(rest, stale, next)))
        else if key[0] == '~' then ['~', '1'] + Seen(Encode(rest, stale, next))
        else [key[0]] + Seen(Encode(rest, stale, next))
  {
    hide Seen;
    assert EncodedLength(key[..1][1..]) == 0;
    var e := Encode(key[1..], stale, at + EncodedLength(key[..1]));
    var c := if key[0] == '/' then stale(at) else key[0];
    SeenHead(c, e);
    SeenHead('1', e);
    SeenHead(c, ['1'] + e);
    assert [c, '1'] + e == [c] + (['1'] + e);
  }

  /** In a path being composed the text in front was ended with a NUL, where the
      encoder then begins. */
  function Begun(stale: Memory, at: nat): Memory {
    (i: nat) => if i == at then '\0' else stale(i)
  }

  /** So a key that begins with a slash never finds its member again. */
  lemma ComposedFindsKey(key: string, stale: Memory, at: nat)
    requires '\0' !in key
    ensures TokenMatches(key, Seen(Encode(key, Begun(stale, at), at)), true) <==>
            '~' !in key && (key != [] ==> key[0] != '/') && SlashesKept(key, stale, at)
  {
    EncodeFindsKey(key, Begun(stale, at), at);
    forall i | 0 < i < |key| ensures EncodedLength(key[..i]) > 0 { }
    if key != [] {
      assert key[..0] == [] && EncodedLength([]) == 0;
      if key[0] == '/' { assert !SlashesKept(key, Begun(stale, at), at); }
    }
  }

  // ----- what an escaped token stands for

  /** Every tilde begins one of the two escapes of section 3 of RFC 6901. */
  predicate WellEscaped(token: string) {
    if token == [] then true
    else if token[0] == '~' then |token| >= 2 && (token[1] == '0' || token[1] == '1') && WellEscaped(token[2..])
    else WellEscaped(token[1..])
  }

  /** The name a token stands for, section 4 of RFC 6901. */
  function Decoded(token: string): (name: string)
    requires WellEscaped(token)
    ensures |name| <= |token|
  {
    if token == [] then []
    else if token[0] == '~' then [if token[1] == '0' then '~' else '/'] + Decoded(token[2..])
    else [token[0]] + Decoded(token[1..])
  }

  /** The comparison with member names does what the standard asks. */
  lemma {:induction false} TokenNames(name: string, token: string)
    requires WellEscaped(token)
    ensures TokenMatches(name, token, true) <==> name == Decoded(token)
    decreases |token|
  {
    if name != [] && token != [] {
      assert name == [name[0]] + name[1..];
      TokenNames(name[1..], if token[0] == '~' then token[2..] else token[1..]);
    }
  }

  lemma {:induction false} PlainEscaped(token: string)
    requires '~' !in token
    ensures WellEscaped(token) && Decoded(token) == token
  {
    if token != [] {
      assert token == [token[0]] + token[1..];
      PlainEscaped(token[1..]);
    }
  }

  /** A name matches a plain token as it matches a key. */
  lemma {:induction false} PlainTokenMatches(name: string, token: string, caseSensitive: bool)
    requires Plain(token)
    ensures TokenMatches(name, token, caseSensitive) <==> Matches(name, token, caseSensitive)
  {
    if name != [] && token != [] {
      PlainTokenMatches(name[1..], token[1..], caseSensitive);
      CanonCons(name, caseSensitive);
      CanonCons(token, caseSensitive);
    }
  }

  lemma CanonCons(s: string, caseSensitive: bool)
    requires s != []
    ensures |Canon(s, caseSensitive)| == |s|
    ensures Canon(s, caseSensitive) == [if caseSensitive then s[0] else Lower(s[0])] + Canon(s[1..], caseSensitive)
  {
  }

  // ----- array indices

  predicate DigitLike(s: string) {
    forall i :: 0 <= i < |s| ==> s[i] >= '0'
  }

  /** Digits are read without an upper bound on the character and wrap at 64 bits. */
  function DigitsValue(s: string, acc: nat): nat
    requires DigitLike(s)
  {
    if s == [] then acc
    else DigitsValue(s[1..], (10 * acc + (s[0] as int - '0' as int)) % SIZE_LIMIT)
  }

  /** A token as an array index. The empty token reads as 0, and after a leading
      decimal digit any character from '0' upwards passes for a digit. */
  function DecodeIndex(pointer: string): Option<nat> {
    var t := Token(pointer);
    if |t| > 1 && t[0] == '0' then None
    else if t == [] then Some(0)
    else if t[0] <= '9' && DigitLike(t) then Some(DigitsValue(t, 0))
    else None
  }

  method DecodeArrayIndex(pointer: string) returns (index: Option<nat>)
    ensures index == DecodeIndex(pointer)
  {
    ghost var t := Token(pointer);
    if |pointer| > 1 && pointer[0] == '0' && pointer[1] != '/' {
      assert |t| > 1;
      return None;
    }
    var parsed: nat, position := 0, 0;
    while position < |pointer| && pointer[position] >= '0' && pointer[0] <= '9'
      invariant 0 <= position <= |t|
      invariant DigitLike(t[..position]) && (position > 0 ==> pointer[0] <= '9')
      invariant DigitLike(t) ==> DigitsValue(t, 0) == DigitsValue(t[position..], parsed)
    {
      assert position < |t|;
      parsed := (10 * parsed + (pointer[position] as int - '0' as int)) % SIZE_LIMIT;
      position := position + 1;
    }
    if position < |pointer| && pointer[position] != '/' {
      return None;
    }
    index := Some(parsed);
  }

  lemma {:induction false} DigitsValueAppend(s: string, c: char, acc: nat)
    requires DigitLike(s) && c >= '0'
    ensures DigitsValue(s + [c], acc) == (10 * DigitsValue(s, acc) + (c as int - '0' as int)) % SIZE_LIMIT
  {
    if s == [] {
      assert s + [c] == [c];
    } else {
      assert (s + [c])[1..] == s[1..] + [c];
      DigitsValueAppend(s[1..], c, (10 * acc + (s[0] as int - '0' as int)) % SIZE_LIMIT);
    }
  }

  /** Reading back a written index. */
  lemma IndexRoundTrip(n: nat, q: string)
    requires n < SIZE_LIMIT && StartsPointer(q)
    ensures Plain(DecimalText(n)) && DecimalText(n) != "-"
    ensures DecodeIndex(DecimalText(n) + q) == Some(n)
  {
    hide Token; hide DigitsValue; hide DecimalText;
    TokenConcat(DecimalText(n), q);
    WrappedValue(n);
  }

  /** A decimal numeral without leading zero is the text of a number. */
  lemma {:induction false} NumeralText(s: string) returns (n: nat)
    requires s != [] && (forall i :: 0 <= i < |s| ==> '0' <= s[i] <= '9') && (|s| > 1 ==> s[0] != '0')
    ensures DecimalText(n) == s && (s[0] != '0' ==> n > 0)
  {
    var d := s[|s| - 1] as int - '0' as int;
    if |s| == 1 {
      n := d;
    } else {
      var m := NumeralText(s[..|s| - 1]);
      n := 10 * m + d;
      assert n / 10 == m && n % 10 == d;
    }
  }

  /** What passes for an index without being one: nothing at all, and digits followed by
      characters above the nine. */
  predicate Lenient(t: string) {
    t == [] || (|t| > 1 && '1' <= t[0] <= '9' && DigitLike(t) && exists i :: 0 <= i < |t| && t[i] > '9')
  }

  /** Exactly the index texts of section 4 of RFC 6901 are read as indices, and the lenient ones. */
  lemma IndexExactly(t: string)
    requires '/' !in t
    ensures DecodeIndex(t).Some? <==> Lenient(t) || exists n :: DecimalText(n) == t
  {
    TokenOfToken(t);
    hide DigitsValue; hide Token;
    if DecodeIndex(t).Some? && !Lenient(t) {
      assert forall i :: 0 <= i < |t| ==> '0' <= t[i] <= '9';
      var n := NumeralText(t);
    }
    if n :| DecimalText(n) == t { assert DigitLike(t); }
  }

  /** And an index text stands for its number, modulo the size of size_t. */
  lemma {:induction false} IndexValue(n: nat)
    ensures DecodeIndex(DecimalText(n)) == Some(n % SIZE_LIMIT)
  {
    hide Token;
    TokenOfToken(DecimalText(n));
    WrappedValue(n);
  }

  lemma {:induction false} WrappedValue(n: nat)
    ensures DigitsValue(DecimalText(n), 0) == n % SIZE_LIMIT
  {
    if n >= 10 {
      var c := (n % 10 + '0' as int) as char;
      WrappedValue(n / 10);
      DigitsValueAppend(DecimalText(n / 10), c, 0);
      assert DecimalText(n) == DecimalText(n / 10) + [c];
      Wraps(n / 10, n % 10);
      assert 10 * (n / 10) + n % 10 == n;
    } else {
      assert DecimalText(n)[1..] == [];
    }
  }

  lemma Wraps(m: nat, d: nat)
    ensures (10 * (m % SIZE_LIMIT) + d) % SIZE_LIMIT == (10 * m + d) % SIZE_LIMIT
  {
    var q, r := m / SIZE_LIMIT, m % SIZE_LIMIT;
    assert m == q * SIZE_LIMIT + r;
    ModPlus(10 * r + d, 10 * q);
    assert 10 * r + d + 10 * q * SIZE_LIMIT == 10 * m + d;
  }

  lemma ModPlus(a: nat, k: nat)
    ensures (a + k * SIZE_LIMIT) % SIZE_LIMIT == a % SIZE_LIMIT
  {
  }

  // ----- walking a document

  /** The position of the first member whose name matches the token. */
  function TokenIndex(ms: seq<Member>, token: string, caseSensitive: bool): (i: nat)
    ensures i <= |ms|
    ensures i < |ms| ==> TokenMatches(ms[i].key, token, caseSensitive)
    ensures forall j :: 0 <= j < i ==> !TokenMatches(ms[j].key, token, caseSensitive)
  {
    if ms == [] then 0
    else if TokenMatches(ms[0].key, token, caseSensitive) then 0
    else
      var rest := TokenIndex(ms[1..], token, caseSensitive);
      assert forall j :: 1 <= j < |ms| ==> ms[j] == ms[1..][j - 1];
      1 + rest
  }

  function Children(j: Json): seq<Json> {
    match j
    case Array(items) => items
    case Object(ms) => seq(|ms|, i requires 0 <= i < |ms| => ms[i].value)
    case _ => []
  }

  function SetChild(j: Json, i: nat, v: Json): (r: Json)
    requires i < |Children(j)|
    ensures |Children(r)| == |Children(j)| && Children(r)[i] == v
  {
    match j
    case Array(items) => Array(items[i := v])
    case Object(ms) => Object(ms[i := Member(ms[i].key, v)])
  }

  /** Which child a token selects. */
  function Step(j: Json, token: string, caseSensitive: bool): (r: Option<nat>)
    requires '/' !in token
    ensures r.Some? ==> r.value < |Children(j)|
  {
    match j
    case Array(items) =>
      var index := DecodeIndex(token);
      if index.Some? && index.value < |items| then index else None
    case Object(ms) =>
      var i := TokenIndex(ms, token, caseSensitive);
      if i < |ms| then Some(i) else None
    case _ => None
  }

  /** The tokens of a pointer. Text that does not start with a slash has none:
      it stands for the document itself. */
  function Tokens(pointer: string): (ts: seq<string>)
    ensures Slashless(ts)
    decreases |pointer|
  {
    if pointer == [] || pointer[0] != '/' then []
    else
      var t := Token(pointer[1..]);
      [t] + Tokens(pointer[1 + |t|..])
  }

  ghost predicate Slashless(ts: seq<string>) {
    forall i :: 0 <= i < |ts| ==> '/' !in ts[i]
  }

  type Path = ts: seq<string> | Slashless(ts)

  function Walk(j: Json, path: Path, caseSensitive: bool): Option<Json>
    decreases |path|
  {
    if path == [] then Some(j)
    else
      var i := Step(j, path[0], caseSensitive);
      if i == None then None else Walk(Children(j)[i.value], path[1..], caseSensitive)
  }

  function GetItem(j: Json, pointer: string, caseSensitive: bool): Option<Json> {
    Walk(j, Tokens(pointer), caseSensitive)
  }

  method FindToken(ms: seq<Member>, token: string, caseSensitive: bool) returns (i: nat)
    requires '/' !in token
    ensures i == TokenIndex(ms, token, caseSensitive)
  {
    TokenOfToken(token);
    i := 0;
    while i < |ms|
      invariant 0 <= i <= TokenIndex(ms, token, caseSensitive)
    {
      var same := ComparePointers(ms[i].key, token, caseSensitive);
      if same {
        return;
      }
      i := i + 1;
    }
  }

  method TakeStep(j: Json, token: string, caseSensitive: bool) returns (r: Option<nat>)
    requires '/' !in token
    ensures r == Step(j, token, caseSensitive)
  {
    r := None;
    match j {
      case Array(items) =>
        var index := DecodeArrayIndex(token);
        if index.Some? && index.value < |items| {
          r := index;
        }
      case Object(ms) =>
        var i := FindToken(ms, token, caseSensitive);
        if i < |ms| {
          r := Some(i);
        }
      case _ =>
    }
  }

  lemma WalkUnfold(j: Json, path: Path, caseSensitive: bool)
    requires path != []
    ensures Walk(j, path, caseSensitive) ==
            var i := Step(j, path[0], caseSensitive);
            if i == None then None else Walk(Children(j)[i.value], path[1..], caseSensitive)
  {
  }

  method GetItemFromPointer(j: Json, pointer: string, caseSensitive: bool) returns (item: Option<Json>)
    ensures item == GetItem(j, pointer, caseSensitive)
  {
    hide Step;
    hide Token;
    hide Tokens;
    hide Walk;
    hide Children;
    var current, rest := j, pointer;
    while rest != [] && rest[0] == '/'
      invariant GetItem(j, pointer, caseSensitive) == Walk(current, Tokens(rest), caseSensitive)
      decreases |rest|
    {
      var token := Token(rest[1..]);
      TokensUnfold(rest);
      WalkUnfold(current, Tokens(rest), caseSensitive);
      var i := TakeStep(current, token, caseSensitive);
      if i == None {
        return None;
      }
      current, rest := Children(current)[i.value], rest[1 + |token|..];
    }
    TokensEmpty(rest);
    WalkEmpty(current, caseSensitive);
    item := Some(current);
  }

  lemma TokensEmpty(p: string)
    requires p == [] || p[0] != '/'
    ensures Tokens(p) == []
  {
  }

  lemma WalkEmpty(j: Json, caseSensitive: bool)
    ensures Walk(j, [], caseSensitive) == Some(j)
  {
  }

  lemma TokenOfToken(token: string)
    requires '/' !in token
    ensures Token(token) == token
  {
    TokenConcat(token, []);
    assert token + [] == token;
  }

  /** The document with the item at a path replaced where it stands. */
  function Put(j: Json, path: Path, v: Json, caseSensitive: bool): Json
    requires Walk(j, path, caseSensitive).Some?
    decreases |path|
  {
    if path == [] then v
    else
      var i := Step(j, path[0], caseSensitive).value;
      SetChild(j, i, Put(Children(j)[i], path[1..], v, caseSensitive))
  }

  lemma TokenIndexSet(ms: seq<Member>, i: nat, v: Json, token: string, caseSensitive: bool)
    requires i < |ms|
    ensures TokenIndex(ms[i := Member(ms[i].key, v)], token, caseSensitive) == TokenIndex(ms, token, caseSensitive)
  {
    hide TokenMatches;
    var ms' := ms[i := Member(ms[i].key, v)];
    var n, m := TokenIndex(ms, token, caseSensitive), TokenIndex(ms', token, caseSensitive);
    assert n < |ms| ==> ms'[n].key == ms[n].key;
    assert m < |ms| ==> ms'[m].key == ms[m].key;
  }

  lemma StepAfterSet(j: Json, i: nat, v: Json, token: string, caseSensitive: bool)
    requires '/' !in token && i < |Children(j)|
    ensures Step(SetChild(j, i, v), token, caseSensitive) == Step(j, token, caseSensitive)
  {
    hide TokenIndex;
    hide DecodeIndex;
    if j.Object? { TokenIndexSet(j.members, i, v, token, caseSensitive); }
  }

  lemma SetAfterSet(j: Json, i: nat, v: Json, w: Json)
    requires i < |Children(j)|
    ensures SetChild(SetChild(j, i, v), i, w) == SetChild(j, i, w)
  {
  }

  lemma {:induction false} GetAfterPut(j: Json, path: Path, v: Json, caseSensitive: bool)
    requires Walk(j, path, caseSensitive).Some?
    ensures Walk(Put(j, path, v, caseSensitive), path, caseSensitive) == Some(v)
    decreases |path|
  {
    hide Step;
    hide SetChild;
    if path != [] {
      var i := Step(j, path[0], caseSensitive).value;
      GetAfterPut(Children(j)[i], path[1..], v, caseSensitive);
      StepAfterSet(j, i, Put(Children(j)[i], path[1..], v, caseSensitive), path[0], caseSensitive);
    }
  }

  lemma {:induction false} PutAfterPut(j: Json, path: Path, v: Json, w: Json, caseSensitive: bool)
    requires Walk(j, path, caseSensitive).Some?
    ensures Walk(Put(j, path, v, caseSensitive), path, caseSensitive).Some?
    ensures Put(Put(j, path, v, caseSensitive), path, w, caseSensitive) == Put(j, path, w, caseSensitive)
    decreases |path|
  {
    hide Step;
    hide SetChild;
    GetAfterPut(j, path, v, caseSensitive);
    if path != [] {
      var i := Step(j, path[0], caseSensitive).value;
      var c := Children(j)[i];
      PutAfterPut(c, path[1..], v, w, caseSensitive);
      StepAfterSet(j, i, Put(c, path[1..], v, caseSensitive), path[0], caseSensitive);
      SetAfterSet(j, i, Put(c, path[1..], v, caseSensitive), Put(c, path[1..], w, caseSensitive));
    }
  }

  /** A path made of two paths is followed in two stages. */
  lemma {:induction false} WalkConcat(j: Json, p: Path, q: Path, caseSensitive: bool)
    ensures Walk(j, p + q, caseSensitive) ==
            var x := Walk(j, p, caseSensitive);
            if x.Some? then Walk(x.value, q, caseSensitive) else None
    decreases |p|
  {
    hide Step;
    if p == [] {
      assert p + q == q;
    } else {
      assert (p + q)[1..] == p[1..] + q;
      var i := Step(j, p[0], caseSensitive);
      if i.Some? { WalkConcat(Children(j)[i.value], p[1..], q, caseSensitive); }
    }
  }

  lemma {:induction false} PutConcat(j: Json, p: Path, q: Path, v: Json, caseSensitive: bool)
    requires Walk(j, p + q, caseSensitive).Some?
    ensures Walk(j, p, caseSensitive).Some? && Walk(Walk(j, p, caseSensitive).value, q, caseSensitive).Some?
    ensures Put(j, p + q, v, caseSensitive) ==
            Put(j, p, Put(Walk(j, p, caseSensitive).value, q, v, caseSensitive), caseSensitive)
    decreases |p|
  {
    hide Step;
    hide SetChild;
    WalkConcat(j, p, q, caseSensitive);
    if p == [] {
      assert p + q == q;
    } else {
      assert (p + q)[1..] == p[1..] + q;
      PutConcat(Children(j)[Step(j, p[0], caseSensitive).value], p[1..], q, v, caseSensitive);
    }
  }

  lemma ConcatHead(p: string, q: string)
    requires p != [] && p[0] == '/' && StartsPointer(q)
    ensures Token((p + q)[1..]) == Token(p[1..])
    ensures (p + q)[1 + |Token(p[1..])|..] == p[1 + |Token(p[1..])|..] + q
    ensures StartsPointer(p[1 + |Token(p[1..])|..])
  {
    var t := Token(p[1..]);
    var rest := p[1 + |t|..];
    assert p[1..] == t + rest && (p + q)[1..] == t + (rest + q);
    TokenConcat(t, rest + q);
  }

  lemma TokensUnfold(p: string)
    requires p != [] && p[0] == '/'
    ensures Tokens(p) == [Token(p[1..])] + Tokens(p[1 + |Token(p[1..])|..])
  {
  }

  lemma {:induction false} TokensConcat(p: string, q: string)
    requires StartsPointer(p) && StartsPointer(q)
    ensures Tokens(p + q) == Tokens(p) + Tokens(q)
    decreases |p|
  {
    hide Token;
    hide Tokens;
    hide Slashless;
    if p == [] {
      TokensEmpty(p);
      assert p + q == q;
    } else {
      var t := Token(p[1..]);
      var rest := p[1 + |t|..];
      ConcatHead(p, q);
      TokensUnfold(p);
      TokensUnfold(p + q);
      TokensConcat(rest, q);
      assert [t] + (Tokens(rest) + Tokens(q)) == [t] + Tokens(rest) + Tokens(q);
    }
  }

  /** One more token at the end of a pointer. */
  lemma TokensSnoc(p: string, t: string)
    requires StartsPointer(p) && '/' !in t
    ensures StartsPointer(p + "/" + t)
    ensures Tokens(p + "/" + t) == Tokens(p) + [t]
  {
    var q := "/" + t;
    assert q[1..] == t && p + "/" + t == p + q;
    TokenOfToken(t);
    TokensUnfold(q);
    TokensConcat(p, q);
  }

  // ----- unescaping the last token

  /** The unescaping loop on its buffer, with its read and write positions: it
      never copies an ordinary character, and writes the slash of ~1 one place
      too far. */
  function Unescape(buffer: string, read: nat, write: nat): string
    requires write <= read <= |buffer|
    decreases |buffer| - read
  {
    if read == |buffer| then buffer[..write]
    else if buffer[read] != '~' then Unescape(buffer, read + 1, write + 1)
    else if read + 1 < |buffer| && buffer[read + 1] == '0' then Unescape(buffer[write := '~'], read + 2, write + 1)
    else if read + 1 < |buffer| && buffer[read + 1] == '1' then Unescape(buffer[write + 1 := '/'], read + 2, write + 1)
    else buffer
  }

  method DecodePointerInplace(buffer: array<char>) returns (length: nat)
    modifies buffer
    ensures length <= buffer.Length
    ensures buffer[..length] == Unescape(old(buffer[..]), 0, 0)
  {
    var read, write := 0, 0;
    while read < buffer.Length
      invariant 0 <= write <= read <= buffer.Length
      invariant Unescape(old(buffer[..]), 0, 0) == Unescape(buffer[..], read, write)
    {
      if buffer[read] == '~' {
        ghost var was := buffer[..];
        if read + 1 < buffer.Length && buffer[read + 1] == '0' {
          buffer[write] := '~';
          assert buffer[..] == was[write := '~'];
        } else if read + 1 < buffer.Length && buffer[read + 1] == '1' {
          buffer[write + 1] := '/';
          assert buffer[..] == was[write + 1 := '/'];
        } else {
          return buffer.Length;
        }
        read := read + 1;
      }
      read, write := read + 1, write + 1;
    }
    length := write;
  }
}
