/** What minifying does to printed trees. */
module MinifyLaws {
  import opened Digits
  import opened Trees
  import opened JsonStrings
  import opened Rendering
  import opened Minifying

  // ----- doing it twice

  /** The first character inside a string stays the first. */
  lemma {:induction false} InStringFirst(s: string)
    ensures (InString(s) == [] <==> s == []) && (s != [] ==> InString(s)[0] == s[0])
  {
    hide Minified;
  }

  lemma {:induction false} MinifiedCons(c: char, s: string)
    ensures !IsBlank(c) && c != '/' && c != '\"' ==> Minified([c] + s) == [c] + Minified(s)
    ensures Minified("\"" + s) == "\"" + InString(s)
    ensures IsBlank(c) ==> Minified([c] + s) == Minified(s)
  {
    assert ([c] + s)[1..] == s && ("\"" + s)[1..] == s;
  }

  lemma {:induction false} InStringCons(c: char, s: string)
    ensures c != '\"' && !(c == '\\' && s != [] && s[0] == '\"') ==> InString([c] + s) == [c] + InString(s)
    ensures InString("\"" + s) == "\"" + Minified(s)
    ensures InString("\\\"" + s) == "\\\"" + InString(s)
  {
    hide Minified;
    assert ([c] + s)[1..] == s && ("\"" + s)[1..] == s && ("\\\"" + s)[2..] == s;
  }

  /** Minifying a minified text changes nothing, on any text. */
  lemma {:induction false} MinifyTwice(s: string)
    ensures Minified(Minified(s)) == Minified(s)
    decreases |s|, 1
  {
    if s == [] {
    } else if IsBlank(s[0]) {
      MinifyTwice(s[1..]);
    } else if s[0] == '/' {
      if |s| > 1 && s[1] == '/' { MinifyTwice(AfterLine(s[2..])); }
      else if |s| > 1 && s[1] == '*' { MinifyTwice(AfterBlock(s[2..])); }
      else { MinifyTwice(s[1..]); }
    } else if s[0] == '\"' {
      InStringTwice(s[1..]);
      MinifiedCons('\"', InString(s[1..]));
    } else {
      MinifyTwice(s[1..]);
      MinifiedCons(s[0], Minified(s[1..]));
    }
  }

  lemma {:induction false} InStringTwice(s: string)
    ensures InString(InString(s)) == InString(s)
    decreases |s|, 0
  {
    if s == [] {
    } else if s[0] == '\"' {
      MinifyTwice(s[1..]);
      InStringCons('\"', Minified(s[1..]));
    } else if |s| > 1 && s[0] == '\\' && s[1] == '\"' {
      InStringTwice(s[2..]);
      InStringCons('\\', InString(s[2..]));
    } else {
      InStringTwice(s[1..]);
      InStringFirst(s[1..]);
      InStringCons(s[0], InString(s[1..]));
    }
  }

  // ----- pieces of text

  predicate Blanks(x: string) {
    forall k :: 0 <= k < |x| ==> IsBlank(x[k])
  }

  predicate Solid(x: string) {
    forall k :: 0 <= k < |x| ==> !IsBlank(x[k]) && x[k] != '/' && x[k] != '\"'
  }

  predicate Unquoted(x: string) {
    forall k :: 0 <= k < |x| ==> x[k] != '\"' && x[k] != '\\'
  }

  lemma {:induction false} Uncons(x: string, r: string)
    requires x != []
    ensures x + r == [x[0]] + (x[1..] + r) && x == [x[0]] + x[1..]
  {
  }

  lemma {:induction false} BlanksGo(x: string, r: string)
    requires Blanks(x)
    ensures Minified(x + r) == Minified(r)
    decreases |x|
  {
    hide Minified;
    if x == [] {
      assert x + r == r;
    } else {
      Uncons(x, r);
      MinifiedCons(x[0], x[1..] + r);
      BlanksGo(x[1..], r);
    }
  }

  lemma {:induction false} SolidStays(x: string, r: string)
    requires Solid(x)
    ensures Minified(x + r) == x + Minified(r)
    decreases |x|
  {
    hide Minified;
    if x == [] {
      assert x + r == r && x + Minified(r) == Minified(r);
    } else {
      Uncons(x, r);
      MinifiedCons(x[0], x[1..] + r);
      SolidStays(x[1..], r);
      Uncons(x, Minified(r));
    }
  }

  lemma {:induction false} UnquotedStays(x: string, r: string)
    requires Unquoted(x)
    ensures InString(x + r) == x + InString(r)
    decreases |x|
  {
    hide InString;
    if x == [] {
      assert x + r == r && x + InString(r) == InString(r);
    } else {
      Uncons(x, r);
      InStringCons(x[0], x[1..] + r);
      UnquotedStays(x[1..], r);
      Uncons(x, InString(r));
    }
  }

  // ----- strings

  predicate EndsInBackslash(s: string) {
    s != [] && s[|s| - 1] == '\\'
  }

  /** The escape of a character passes, except that a backslash at the end takes the
      closing quote with it. */
  lemma {:induction false} EscapePasses(c: char, y: string)
    requires c == '\\' ==> y == [] || y[0] != '\"'
    ensures InString(Escape(c) + y) == Escape(c) + InString(y)
  {
    hide InString;
    if c == '\\' {
      assert Escape(c) + y == ['\\'] + (['\\'] + y);
      InStringCons('\\', ['\\'] + y);
      InStringCons('\\', y);
    } else if c == '\"' {
      InStringCons('\\', y);
    } else if |Escape(c)| == 1 {
      InStringCons(c, y);
    } else {
      LongEscape(c, y);
    }
  }

  lemma {:induction false} LongEscape(c: char, y: string)
    requires c != '\\' && c != '\"' && |Escape(c)| > 1
    ensures InString(Escape(c) + y) == Escape(c) + InString(y)
  {
    hide InString;
    var e := Escape(c);
    assert e[0] == '\\' && e[1] != '\"' && e[1] != '\\';
    HexDigitsUnquoted(c);
    Uncons(e, y);
    assert (e[1..] + y)[0] == e[1];
    InStringCons('\\', e[1..] + y);
    UnquotedStays(e[1..], y);
    Uncons(e, InString(y));
  }

  lemma {:induction false} HexDigitsUnquoted(c: char)
    requires c != '\\' && c != '\"' && |Escape(c)| > 1
    ensures Unquoted(Escape(c)[1..])
  {
    if |Escape(c)| == 6 {
      HexDigitReads(c as nat / 16, false);
      HexDigitReads(c as nat % 16, false);
    }
  }

  lemma {:induction false} EscapesFirst(s: string)
    requires s != []
    ensures Escapes(s) != [] && Escapes(s)[0] != '\"'
  {
    hide Escapes;
    EscapesCons(s);
  }

  /** Inside the quotes: the closing quote ends the string unless the string itself
      ends in a backslash. */
  lemma {:induction false} EscapesPass(s: string, r: string)
    ensures InString(Escapes(s) + ("\"" + r))
         == Escapes(s) + ("\"" + if EndsInBackslash(s) then InString(r) else Minified(r))
    decreases |s|
  {
    hide InString; hide Minified; hide Escape;
    var tail := "\"" + if EndsInBackslash(s) then InString(r) else Minified(r);
    if s == [] {
      assert Escapes(s) + ("\"" + r) == "\"" + r && Escapes(s) + tail == tail;
      InStringCons('\"', r);
    } else {
      hide Escapes;
      EscapesCons(s);
      var e, rest := Escape(s[0]), Escapes(s[1..]);
      assert e + rest + ("\"" + r) == e + (rest + ("\"" + r)) && e + rest + tail == e + (rest + tail);
      if s == "\\" {
        LoneBackslash(r);
        NoEscapes();
        assert rest == [] && rest + ("\"" + r) == "\"" + r && rest + tail == tail;
      } else {
        if s[0] == '\\' { EscapesFirst(s[1..]); }
        EscapePasses(s[0], rest + ("\"" + r));
        EscapesPass(s[1..], r);
        assert EndsInBackslash(s) == EndsInBackslash(s[1..]);
      }
    }
  }

  lemma {:induction false} NoEscapes()
    ensures Escapes([]) == []
  {
  }

  lemma {:induction false} LoneBackslash(r: string)
    ensures InString(Escape('\\') + ("\"" + r)) == Escape('\\') + ("\"" + InString(r))
  {
    hide InString;
    assert Escape('\\') + ("\"" + r) == ['\\'] + ("\\\"" + r);
    InStringCons('\\', "\\\"" + r);
    InStringCons('\\', r);
    assert ['\\'] + ("\\\"" + InString(r)) == Escape('\\') + ("\"" + InString(r));
  }

  lemma {:induction false} QuotePasses(s: string, r: string)
    ensures Minified(Quote(s) + r) == Quote(s) + if EndsInBackslash(s) then InString(r) else Minified(r)
  {
    hide InString; hide Minified; hide Escapes;
    var tail := if EndsInBackslash(s) then InString(r) else Minified(r);
    assert Quote(s) + r == "\"" + (Escapes(s) + ("\"" + r)) && Quote(s) + tail == "\"" + (Escapes(s) + ("\"" + tail));
    MinifiedCons('\"', Escapes(s) + ("\"" + r));
    EscapesPass(s, r);
  }
}
