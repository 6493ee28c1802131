/** Taking blanks and comments out of a JSON text, in place. */
module Minifying {
  import opened Keys
  import opened Trees
  import opened JsonStrings
  import opened PrintBuffers

  predicate IsBlank(c: char) {
    c == ' ' || c == '\t' || c == '\r' || c == '\n'
  }

  /** What follows the line the text begins with. */
  function AfterLine(s: string): (r: string)
    ensures |r| <= |s|
  {
    if s == [] then [] else if s[0] == '\n' then s[1..] else AfterLine(s[1..])
  }

  /** What follows the first end of a block comment. */
  function AfterBlock(s: string): (r: string)
    ensures |r| <= |s|
  {
    if s == [] then []
    else if |s| > 1 && s[0] == '*' && s[1] == '/' then s[2..]
    else AfterBlock(s[1..])
  }

  /** Outside strings, blanks and comments go, and so does a slash by itself. */
  function Minified(s: string): (r: string)
    ensures |r| <= |s|
    decreases |s|, 1
  {
    if s == [] then []
    else if IsBlank(s[0]) then Minified(s[1..])
    else if s[0] == '/' then
      if |s| > 1 && s[1] == '/' then Minified(AfterLine(s[2..]))
      else if |s| > 1 && s[1] == '*' then Minified(AfterBlock(s[2..]))
      else Minified(s[1..])
    else if s[0] == '\"' then "\"" + InString(s[1..])
    else [s[0]] + Minified(s[1..])
  }

  /** Inside a string everything stays; it ends at a quote without a backslash before it. */
  function InString(s: string): (r: string)
    ensures |r| <= |s|
    decreases |s|, 0
  {
    if s == [] then []
    else if s[0] == '\"' then "\"" + Minified(s[1..])
    else if |s| > 1 && s[0] == '\\' && s[1] == '\"' then "\\\"" + InString(s[2..])
    else [s[0]] + InString(s[1..])
  }

  // ----- in place

  /** The array holds what is finished in front, up to `into`, and what is still to
      be read behind, from `json` to the NUL at `n`. */
  ghost predicate Halfway(a: string, into: nat, json: nat, n: nat, goal: string, inside: bool) {
    && into <= json <= n < |a| && a[n] == '\0' && NulFree(a[json..n])
    && a[..into] + (if inside then InString(a[json..n]) else Minified(a[json..n])) == goal
  }

  lemma {:induction false} Moved(a: string, into: nat, json: nat, n: nat)
    requires into <= json < n < |a|
    ensures var b := a[into := a[json]];
      b[json + 1..n] == a[json..n][1..] && b[..into + 1] == a[..into] + [a[json..n][0]] && b[n] == a[n]
  {
    var b := a[into := a[json]];
    assert b[json + 1..n] == a[json + 1..n] == a[json..n][1..];
  }

  lemma {:induction false} NulFreeDrop(s: string, k: nat)
    requires NulFree(s) && k <= |s|
    ensures NulFree(s[k..])
  {
  }

  lemma {:induction false} Regroup(a: string, b: string, c: string)
    ensures a + (b + c) == a + b + c
  {
  }

  /** One character is carried over. */
  lemma {:induction false} Carried(a: string, into: nat, json: nat, n: nat, goal: string, inside: bool, inside': bool)
    requires Halfway(a, into, json, n, goal, inside) && json < n
    requires var s := a[json..n];
      (if inside then InString(s) else Minified(s)) == [s[0]] + (if inside' then InString(s[1..]) else Minified(s[1..]))
    ensures Halfway(a[into := a[json]], into + 1, json + 1, n, goal, inside')
  {
    hide InString; hide Minified; hide NulFree;
    var s := a[json..n];
    Moved(a, into, json, n);
    NulFreeDrop(s, 1);
    Regroup(a[..into], [s[0]], if inside' then InString(s[1..]) else Minified(s[1..]));
  }

  /** Some characters are left out. */
  lemma {:induction false} Dropped(a: string, into: nat, json: nat, n: nat, goal: string, json': nat)
    requires Halfway(a, into, json, n, goal, false) && json <= json' <= n
    requires Minified(a[json..n]) == Minified(a[json'..n])
    ensures Halfway(a, into, json', n, goal, false)
  {
    hide Minified;
    assert a[json'..n] == a[json..n][json' - json..];
  }

  lemma {:induction false} Tail(a: string, json: nat, n: nat)
    requires json < n < |a|
    ensures a[json..n] != [] && a[json..n][0] == a[json] && a[json..n][1..] == a[json + 1..n]
    ensures json + 1 < n ==> a[json..n][1] == a[json + 1] && a[json..n][2..] == a[json + 2..n]
    ensures json + 1 == n ==> |a[json..n]| == 1
  {
  }

  lemma {:induction false} NotAtEnd(a: string, into: nat, json: nat, n: nat, goal: string, inside: bool)
    requires Halfway(a, into, json, n, goal, inside)
    ensures a[json] != '\0' <==> json < n
  {
    if json < n { assert a[json..n][0] == a[json]; }
  }

  method CopyChar(a: array<char>, into: nat, json: nat)
    requires into < a.Length && json < a.Length
    modifies a
    ensures a[..] == old(a[..])[into := old(a[..])[json]]
  {
    a[into] := a[json];
  }

  /** One turn of the loop inside a string: it goes on, or the string is over. */
  method StringTurn(a: array<char>, json: nat, into: nat, ghost n: nat, ghost goal: string) returns (inside: bool, json': nat, into': nat)
    requires Halfway(a[..], into, json, n, goal, true) && json < n < a.Length
    modifies a
    ensures json < json' && Halfway(a[..], into', json', n, goal, inside)
  {
    hide Halfway; hide Minified; hide InString;
    InsideStep(a[..], into, json, n, goal);
    var c, next := a[json], a[json + 1];
    CopyChar(a, into, json);
    if c == '\"' { return false, json + 1, into + 1; }
    if c == '\\' && next == '\"' {
      CopyChar(a, into + 1, json + 1);
      return true, json + 2, into + 2;
    }
    return true, json + 1, into + 1;
  }

  /** From an opening quote to behind the closing one, or to the end. */
  method MinifyString(a: array<char>, json: nat, into: nat, ghost n: nat, ghost goal: string) returns (json': nat, into': nat)
    requires Halfway(a[..], into, json, n, goal, false) && json < n < a.Length && a[json] == '\"'
    modifies a
    ensures json < json' && Halfway(a[..], into', json', n, goal, false)
  {
    hide Halfway; hide Minified; hide InString;
    assert a[..][json] == '\"';
    StringStep(a[..], into, json, n, goal);
    CopyChar(a, into, json);
    json', into' := json + 1, into + 1;
    NotAtEnd(a[..], into', json', n, goal, true);
    while a[json'] != '\0'
      invariant json < json' <= n < a.Length
      invariant Halfway(a[..], into', json', n, goal, true) && (a[..][json'] != '\0' <==> json' < n)
      decreases n - json'
    {
      var inside;
      inside, json', into' := StringTurn(a, json', into', n, goal);
      if !inside { return; }
      HalfwayBounds(a[..], into', json', n, goal, true);
      NotAtEnd(a[..], into', json', n, goal, true);
    }
    EndsInside(a[..], into', json', n, goal);
  }

  lemma {:induction false} HalfwayBounds(a: string, into: nat, json: nat, n: nat, goal: string, inside: bool)
    requires Halfway(a, into, json, n, goal, inside)
    ensures into <= json <= n < |a|
  {
  }

  lemma {:induction false} EndsInside(a: string, into: nat, json: nat, n: nat, goal: string)
    requires Halfway(a, into, json, n, goal, true) && json == n
    ensures Halfway(a, into, json, n, goal, false)
  {
    assert a[n..n] == [];
  }

  lemma {:induction false} StringStep(a: string, into: nat, json: nat, n: nat, goal: string)
    requires Halfway(a, into, json, n, goal, false) && json < n && a[json] == '\"'
    ensures into < |a| && Halfway(a[into := a[json]], into + 1, json + 1, n, goal, true)
  {
    Tail(a, json, n);
    Carried(a, into, json, n, goal, false, true);
  }

  /** One turn of the loop inside a string. */
  lemma {:induction false} InsideStep(a: string, into: nat, json: nat, n: nat, goal: string)
    requires Halfway(a, into, json, n, goal, true) && json < n
    ensures into <= json && into + 1 < |a|
    ensures a[json] == '\"' ==> Halfway(a[into := a[json]], into + 1, json + 1, n, goal, false)
    ensures a[json] != '\"' && !(a[json] == '\\' && a[json + 1] == '\"') ==>
      Halfway(a[into := a[json]], into + 1, json + 1, n, goal, true)
    ensures a[json] == '\\' && a[json + 1] == '\"' ==>
      && json + 1 < n
      && var b := a[into := a[json]];
         Halfway(b[into + 1 := b[json + 1]], into + 2, json + 2, n, goal, true)
  {
    Tail(a, json, n);
    if a[json] == '\"' {
      Carried(a, into, json, n, goal, true, false);
    } else if a[json] == '\\' && a[json + 1] == '\"' {
      PairCarried(a, into, json, n, goal);
    } else {
      Carried(a, into, json, n, goal, true, true);
    }
  }

  lemma {:induction false} PairCarried(a: string, into: nat, json: nat, n: nat, goal: string)
    requires Halfway(a, into, json, n, goal, true) && json + 1 < n && a[json] == '\\' && a[json + 1] == '\"'
    ensures into + 1 < |a|
    ensures var b := a[into := a[json]]; Halfway(b[into + 1 := b[json + 1]], into + 2, json + 2, n, goal, true)
  {
    hide Minified; hide NulFree;
    var s, b := a[json..n], a[into := a[json]];
    Tail(a, json, n);
    PairMoved(a, into, json, n);
    NulFreeDrop(s, 2);
    PairStays(s);
    hide InString;
    Regroup(a[..into], [s[0], s[1]], InString(s[2..]));
  }

  lemma {:induction false} PairStays(s: string)
    requires |s| > 1 && s[0] == '\\' && s[1] == '\"'
    ensures InString(s) == [s[0], s[1]] + InString(s[2..])
  {
    hide Minified;
  }

  lemma {:induction false} PairMoved(a: string, into: nat, json: nat, n: nat)
    requires into <= json && json + 1 < n < |a|
    ensures var b := a[into := a[json]];
      var c := b[into + 1 := b[json + 1]];
      && c[json + 2..n] == a[json..n][2..] && c[..into + 2] == a[..into] + [a[json..n][0], a[json..n][1]] && c[n] == a[n]
  {
    var b := a[into := a[json]];
    var c := b[into + 1 := b[json + 1]];
    assert c[json + 2..n] == a[json + 2..n] == a[json..n][2..];
    assert b[json + 1] == a[json + 1];
  }

  method SkipLine(a: array<char>, json: nat, ghost n: nat) returns (json': nat)
    requires json <= n < a.Length && a[n] == '\0' && NulFree(a[..][json..n])
    ensures json <= json' <= n && a[..][json'..n] == AfterLine(a[..][json..n])
  {
    json' := json;
    ghost var s := a[..][json..n];
    while a[json'] != '\0'
      invariant json <= json' <= n && AfterLine(s) == AfterLine(a[..][json'..n])
      decreases n - json'
    {
      assert a[..][json'..n] == [a[json']] + a[..][json' + 1..n];
      if a[json'] == '\n' { return json' + 1; }
      json' := json' + 1;
    }
    NulAtEnd(a[..], json, json', n);
  }

  method SkipBlock(a: array<char>, json: nat, ghost n: nat) returns (json': nat)
    requires json <= n < a.Length && a[n] == '\0' && NulFree(a[..][json..n])
    ensures json <= json' <= n && a[..][json'..n] == AfterBlock(a[..][json..n])
  {
    json' := json;
    ghost var s := a[..][json..n];
    while a[json'] != '\0'
      invariant json <= json' <= n && AfterBlock(s) == AfterBlock(a[..][json'..n])
      decreases n - json'
    {
      ghost var rest := a[..][json'..n];
      assert rest == [a[json']] + a[..][json' + 1..n];
      assert json' + 1 < n ==> rest[1] == a[json' + 1] && rest[2..] == a[..][json' + 2..n];
      if a[json'] == '*' && a[json' + 1] == '/' { return json' + 2; }
      json' := json' + 1;
    }
    NulAtEnd(a[..], json, json', n);
  }

  lemma {:induction false} NulAtEnd(a: string, json: nat, k: nat, n: nat)
    requires json <= k <= n < |a| && a[k] == '\0' && NulFree(a[json..n])
    ensures k == n && a[k..n] == []
  {
    forall i | json <= i < n ensures a[i] != '\0' { assert a[json..n][i - json] == a[i]; }
  }

  /** Outside strings. */
  lemma {:induction false} OutsideStep(a: string, into: nat, json: nat, n: nat, goal: string)
    requires Halfway(a, into, json, n, goal, false) && json < n
    ensures into <= json
    ensures IsBlank(a[json]) ==> Halfway(a, into, json + 1, n, goal, false)
    ensures a[json] == '/' && a[json + 1] != '/' && a[json + 1] != '*' ==> Halfway(a, into, json + 1, n, goal, false)
    ensures !IsBlank(a[json]) && a[json] != '/' && a[json] != '\"' ==>
      Halfway(a[into := a[json]], into + 1, json + 1, n, goal, false)
  {
    Tail(a, json, n);
    if IsBlank(a[json]) || (a[json] == '/' && a[json + 1] != '/' && a[json + 1] != '*') {
      Dropped(a, into, json, n, goal, json + 1);
    } else if a[json] != '/' && a[json] != '\"' {
      Carried(a, into, json, n, goal, false, false);
    }
  }

  lemma {:induction false} CommentStep(a: string, into: nat, json: nat, n: nat, goal: string, json': nat)
    requires Halfway(a, into, json, n, goal, false) && json + 1 < n && json + 2 <= json' <= n && a[json] == '/'
    requires (a[json + 1] == '/' && a[json'..n] == AfterLine(a[json + 2..n]))
          || (a[json + 1] == '*' && a[json'..n] == AfterBlock(a[json + 2..n]))
    ensures Halfway(a, into, json', n, goal, false)
  {
    Tail(a, json, n);
    Dropped(a, into, json, n, goal, json');
  }

  /** What the comment skipper needs to know about the rest. */
  lemma {:induction false} CommentRest(a: string, into: nat, json: nat, n: nat, goal: string)
    requires Halfway(a, into, json, n, goal, false) && json < n && (a[json + 1] == '/' || a[json + 1] == '*')
    ensures json + 2 <= n < |a| && a[n] == '\0' && NulFree(a[json + 2..n])
  {
    Tail(a, json, n);
    assert a[json + 2..n] == a[json..n][2..];
  }

  lemma {:induction false} FirstNul(s: string)
    requires '\0' in s
    ensures |UpToNul(s)| < |s| && s[|UpToNul(s)|] == '\0' && s[..|UpToNul(s)|] == UpToNul(s) && NulFree(UpToNul(s))
  {
    if s[0] != '\0' { FirstNul(s[1..]); }
  }

  /** Rewrites the text in place: what is left is its minified form, closed by a NUL. */
  method Minify(a: array<char>)
    requires '\0' in a[..]
    modifies a
    ensures Holds(a[..], Minified(UpToNul(old(a[..]))))
  {
    hide Minified; hide InString; hide UpToNul; hide Halfway; hide AfterLine; hide AfterBlock;
    ghost var text, n := UpToNul(a[..]), |UpToNul(a[..])|;
    ghost var goal := Minified(text);
    FirstNul(a[..]);
    Begins(a[..], n, text);
    var json: nat, into: nat := 0, 0;
    NotAtEnd(a[..], 0, 0, n, goal, false);
    while a[json] != '\0'
      invariant into <= json <= n < a.Length && (a[json] != '\0' <==> json < n)
      invariant Halfway(a[..], into, json, n, goal, false)
      decreases n - json
    {
      json, into := MinifyTurn(a, json, into, n, goal);
      HalfwayBounds(a[..], into, json, n, goal, false);
      NotAtEnd(a[..], into, json, n, goal, false);
    }
    Ends(a[..], into, n, goal);
    a[into] := '\0';
    assert a[..][..into] == goal;
  }

  method MinifyTurn(a: array<char>, json: nat, into: nat, ghost n: nat, ghost goal: string) returns (json': nat, into': nat)
    requires Halfway(a[..], into, json, n, goal, false) && json < n < a.Length
    modifies a
    ensures json < json' && Halfway(a[..], into', json', n, goal, false)
  {
    hide Minified; hide InString; hide Halfway; hide AfterLine; hide AfterBlock;
    OutsideStep(a[..], into, json, n, goal);
    var c := a[json];
    if IsBlank(c) { return json + 1, into; }
    if c == '/' {
      if a[json + 1] != '/' && a[json + 1] != '*' { return json + 1, into; }
      CommentRest(a[..], into, json, n, goal);
      if a[json + 1] == '/' { json' := SkipLine(a, json + 2, n); } else { json' := SkipBlock(a, json + 2, n); }
      CommentStep(a[..], into, json, n, goal, json');
      return json', into;
    }
    if c == '\"' {
      json', into' := MinifyString(a, json, into, n, goal);
      return;
    }
    a[into] := a[json];
    return json + 1, into + 1;
  }

  lemma {:induction false} Begins(a: string, n: nat, text: string)
    requires n < |a| && a[n] == '\0' && a[..n] == text && NulFree(text)
    ensures Halfway(a, 0, 0, n, Minified(text), false)
  {
    hide Minified;
    assert a[0..n] == text && a[..0] + Minified(text) == Minified(text);
  }

  lemma {:induction false} Ends(a: string, into: nat, n: nat, goal: string)
    requires Halfway(a, into, n, n, goal, false)
    ensures into < |a| && a[..into] == goal
  {
    assert a[n..n] == [] && Minified([]) == [] && a[..into] + [] == a[..into];
  }
}
