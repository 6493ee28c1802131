/** Minifying a text piece by piece: what goes and what stays. */
module MinifyPieces {
  import opened Trees
  import opened JsonStrings
  import opened Minifying
  import opened MinifyLaws

  /** A blank, a comment to the end of the line, a comment in a block, a string, or any
      other character. */
  datatype Piece = Space(c: char) | Line(x: string) | Block(x: string) | Str(x: string) | Other(c: char)

  /** The text of a block comment does not end it early. */
  predicate OpenBlock(x: string) {
    forall i :: 0 <= i < |x| - 1 ==> !(x[i] == '*' && x[i + 1] == '/')
  }

  /** The inside of a string: quotes only behind a backslash, and no backslash left over
      in front of the closing quote. */
  predicate Inside(x: string) {
    if x == [] then true
    else if x[0] == '\"' then false
    else if x[0] == '\\' then |x| > 1 && Inside(if x[1] == '\"' then x[2..] else x[1..])
    else Inside(x[1..])
  }

  predicate PieceOk(p: Piece) {
    match p
    case Space(c) => c in {' ', '\t', '\r', '\n'}
    case Line(x) => '\n' !in x
    case Block(x) => OpenBlock(x)
    case Str(x) => Inside(x)
    case Other(c) => c !in {' ', '\t', '\r', '\n', '/', '\"'}
  }

  function PieceText(p: Piece): string {
    match p
    case Space(c) => [c]
    case Line(x) => "//" + (x + "\n")
    case Block(x) => "/*" + (x + "*/")
    case Str(x) => "\"" + (x + "\"")
    case Other(c) => [c]
  }

  /** Strings and other characters stay as they are; the rest goes. */
  function Kept(p: Piece): string {
    if p.Str? || p.Other? then PieceText(p) else []
  }

  lemma {:induction false} LineEnds(x: string, r: string)
    requires '\n' !in x
    ensures AfterLine(x + ("\n" + r)) == r
  {
    if x == [] {
      assert x + ("\n" + r) == "\n" + r && ("\n" + r)[1..] == r;
    } else {
      assert (x + ("\n" + r))[1..] == x[1..] + ("\n" + r);
      LineEnds(x[1..], r);
    }
  }

  lemma {:induction false} BlockEnds(x: string, r: string)
    requires OpenBlock(x)
    ensures AfterBlock(x + ("*/" + r)) == r
  {
    var s := x + ("*/" + r);
    if x == [] {
      assert s == "*/" + r && s[2..] == r;
    } else {
      assert s[1..] == x[1..] + ("*/" + r);
      assert s[0] == x[0] && s[1] == if |x| > 1 then x[1] else '*';
      BlockEnds(x[1..], r);
    }
  }

  lemma {:induction false} CommentsGo(x: string, r: string)
    ensures '\n' !in x ==> Minified("//" + (x + "\n") + r) == Minified(r)
    ensures OpenBlock(x) ==> Minified("/*" + (x + "*/") + r) == Minified(r)
  {
    hide AfterLine; hide AfterBlock; hide InString;
    var a, b := "//" + (x + "\n") + r, "/*" + (x + "*/") + r;
    assert a[2..] == x + ("\n" + r) && b[2..] == x + ("*/" + r);
    if '\n' !in x { LineEnds(x, r); }
    if OpenBlock(x) { BlockEnds(x, r); }
  }

  lemma {:induction false} InsideStays(x: string, r: string)
    requires Inside(x)
    ensures InString(x + ("\"" + r)) == x + ("\"" + Minified(r))
    decreases |x|
  {
    hide InString; hide Minified;
    if x == [] {
      assert x + ("\"" + r) == "\"" + r;
      InStringCons('\"', r);
    } else if x[0] == '\\' && x[1] == '\"' {
      var y := x[2..];
      InsideStays(y, r);
      assert x == "\\\"" + y && x + ("\"" + r) == "\\\"" + (y + ("\"" + r));
      InStringCons('\\', y + ("\"" + r));
      assert "\\\"" + (y + ("\"" + Minified(r))) == x + ("\"" + Minified(r));
    } else {
      var y := x[1..];
      InsideStays(y, r);
      assert x == [x[0]] + y && x + ("\"" + r) == [x[0]] + (y + ("\"" + r));
      InStringCons(x[0], y + ("\"" + r));
      assert [x[0]] + (y + ("\"" + Minified(r))) == x + ("\"" + Minified(r));
    }
  }

  lemma {:induction false} StringStays(x: string, r: string)
    requires Inside(x)
    ensures Minified("\"" + (x + "\"") + r) == "\"" + (x + "\"") + Minified(r)
  {
    hide Minified; hide InString; hide Inside;
    MinifiedCons('\"', x + ("\"" + r));
    InsideStays(x, r);
    assert "\"" + (x + "\"") + r == "\"" + (x + ("\"" + r));
    assert "\"" + (x + ("\"" + Minified(r))) == "\"" + (x + "\"") + Minified(r);
  }

  /** Each piece goes or stays by itself, whatever follows. */
  lemma {:induction false} PieceMinifies(p: Piece, r: string)
    requires PieceOk(p)
    ensures Minified(PieceText(p) + r) == Kept(p) + Minified(r)
  {
    hide Minified; hide InString; hide Inside; hide OpenBlock;
    match p {
      case Space(c) =>
        MinifiedCons(c, r);
        assert [] + Minified(r) == Minified(r);
      case Line(x) =>
        CommentsGo(x, r);
        assert [] + Minified(r) == Minified(r);
      case Block(x) =>
        CommentsGo(x, r);
        assert [] + Minified(r) == Minified(r);
      case Str(x) => StringStays(x, r);
      case Other(c) => MinifiedCons(c, r);
    }
  }

  predicate AllOk(ps: seq<Piece>) {
    ps == [] || (PieceOk(ps[0]) && AllOk(ps[1..]))
  }

  function AllText(ps: seq<Piece>): string {
    if ps == [] then [] else PieceText(ps[0]) + AllText(ps[1..])
  }

  function AllKept(ps: seq<Piece>): string {
    if ps == [] then [] else Kept(ps[0]) + AllKept(ps[1..])
  }

  /** Of every text made of such pieces, exactly the blanks and comments between them go. */
  lemma {:induction false} PiecesMinify(ps: seq<Piece>)
    requires AllOk(ps)
    ensures Minified(AllText(ps)) == AllKept(ps)
  {
    if ps != [] {
      hide Minified; hide PieceText; hide Kept; hide PieceOk;
      PieceMinifies(ps[0], AllText(ps[1..]));
      PiecesMinify(ps[1..]);
    }
  }

  /** What is left over: a slash by itself goes, a comment without an end takes the rest. */
  lemma LooseEnds(x: string)
    ensures x == [] || (x[0] != '/' && x[0] != '*') ==> Minified("/" + x) == Minified(x)
    ensures '\n' !in x ==> Minified("//" + x) == []
    ensures OpenBlock(x) ==> Minified("/*" + x) == []
  {
    hide AfterLine; hide AfterBlock; hide InString; hide OpenBlock;
    assert ("/" + x)[1..] == x && ("//" + x)[2..] == x && ("/*" + x)[2..] == x;
    if '\n' !in x { NoLineEnd(x); }
    if OpenBlock(x) { NoBlockEnd(x); }
  }

  lemma {:induction false} NoLineEnd(x: string)
    requires '\n' !in x
    ensures AfterLine(x) == []
  {
    if x != [] { NoLineEnd(x[1..]); }
  }

  lemma {:induction false} NoBlockEnd(x: string)
    requires OpenBlock(x)
    ensures AfterBlock(x) == []
  {
    if x != [] { NoBlockEnd(x[1..]); }
  }
}
