/** How far the in-place unescaping of a token does what section 4 of RFC 6901 asks. */
module Unescaping {
  import opened Pointers

  function Tildes(s: string): (n: nat)
    ensures n <= |s|
  {
    if s == [] then 0 else Tildes(s[..|s| - 1]) + if s[|s| - 1] == '~' then 1 else 0
  }

  /** What the character at `r` must be: the start of ~0, inside an escape, or the same
      as the one as many places before it as there were escapes so far. */
  predicate Fits(s: string, r: nat)
    requires r < |s|
  {
    if r > 0 && s[r - 1] == '~' then true
    else if s[r] == '~' then r + 1 < |s| && s[r + 1] == '0'
    else s[r] == s[r - Tildes(s[..r])]
  }

  predicate AlignedFrom(s: string, at: nat) {
    forall r :: at <= r < |s| ==> Fits(s, r)
  }

  predicate Aligned(token: string) {
    AlignedFrom(token, 0)
  }

  /** One turn of the loop beside one step of the decoding. */
  lemma Turn(b: string, read: nat, write: nat)
    requires write <= read < |b| && WellEscaped(b[read..])
    ensures b[read] != '~' ==>
              && WellEscaped(b[read + 1..])
              && Unescape(b, read, write) == Unescape(b, read + 1, write + 1)
              && Decoded(b[read..]) == [b[read]] + Decoded(b[read + 1..])
    ensures b[read] == '~' ==>
              read + 1 < |b| && (b[read + 1] == '0' || b[read + 1] == '1') && WellEscaped(b[read + 2..])
    ensures b[read] == '~' && b[read + 1] == '0' ==>
              && Unescape(b, read, write) == Unescape(b[write := '~'], read + 2, write + 1)
              && Decoded(b[read..]) == ['~'] + Decoded(b[read + 2..])
    ensures b[read] == '~' && b[read + 1] == '1' ==>
              && Unescape(b, read, write) == Unescape(b[write + 1 := '/'], read + 2, write + 1)
              && Decoded(b[read..]) == ['/'] + Decoded(b[read + 2..])
  {
    if b[read] == '~' {
      assert b[read..][1] == b[read + 1] && b[read..][2..] == b[read + 2..];
    } else {
      assert b[read..][1..] == b[read + 1..];
    }
  }

  /** At the end nothing is left to decode. */
  lemma End(b: string, write: nat)
    requires write <= |b|
    ensures Unescape(b, |b|, write) == b[..write] && WellEscaped(b[|b|..]) && Decoded(b[|b|..]) == []
  {
  }

  /** What has been written stays, and the length comes out right. */
  lemma {:induction false} UnescapeKeeps(b: string, read: nat, write: nat)
    requires write <= read <= |b| && WellEscaped(b[read..])
    ensures var u := Unescape(b, read, write);
      |u| == write + |Decoded(b[read..])| && u[..write] == b[..write]
    decreases |b| - read
  {
    hide Unescape; hide Decoded; hide WellEscaped;
    if read == |b| {
      End(b, write);
    } else {
      Turn(b, read, write);
      if b[read] != '~' {
        UnescapeKeeps(b, read + 1, write + 1);
        Shorter(Unescape(b, read, write), b, write);
      } else {
        var b' := if b[read + 1] == '0' then b[write := '~'] else b[write + 1 := '/'];
        assert b[read + 2..] == b'[read + 2..];
        UnescapeKeeps(b', read + 2, write + 1);
        Shorter(Unescape(b, read, write), b', write);
        assert b'[..write] == b[..write];
      }
    }
  }

  lemma Shorter(u: string, b: string, write: nat)
    requires write < |u| && write < |b| && u[..write + 1] == b[..write + 1]
    ensures u[..write] == b[..write] && u[write] == b[write]
  {
    assert u[..write + 1][..write] == u[..write] && b[..write + 1][..write] == b[..write];
    assert u[..write + 1][write] == u[write] && b[..write + 1][write] == b[write];
  }

  /** Where the loop stands: nothing at or after the write position has changed yet. */
  ghost predicate Standing(s: string, b: string, read: nat, write: nat) {
    && write <= read <= |s| == |b| && b[write..] == s[write..]
    && read - write == Tildes(s[..read]) && (read == 0 || s[read - 1] != '~')
    && '/' !in s && WellEscaped(s[read..])
  }

  lemma TildesNext(s: string, r: nat)
    requires r < |s|
    ensures Tildes(s[..r + 1]) == Tildes(s[..r]) + if s[r] == '~' then 1 else 0
  {
    assert s[..r + 1][..r] == s[..r];
  }

  lemma AlignedHead(s: string, read: nat)
    requires read < |s|
    ensures AlignedFrom(s, read) <==> Fits(s, read) && AlignedFrom(s, read + 1)
  {
    hide Fits;
  }

  /** An ordinary character. */
  lemma OrdinaryNext(s: string, b: string, read: nat, write: nat)
    requires Standing(s, b, read, write) && read < |s| && s[read] != '~'
    ensures Standing(s, b, read + 1, write + 1)
    ensures AlignedFrom(s, read) <==> s[read] == s[write] && AlignedFrom(s, read + 1)
  {
    hide AlignedFrom; hide Tildes; hide WellEscaped; hide Unescape; hide Decoded;
    TildesNext(s, read);
    AlignedHead(s, read);
    Turn(s, read, write);
    assert b[write + 1..] == b[write..][1..] && s[write + 1..] == s[write..][1..];
  }

  /** An escape. */
  lemma EscapeNext(s: string, b: string, read: nat, write: nat)
    requires Standing(s, b, read, write) && read < |s| && s[read] == '~'
    ensures read + 1 < |s| && (s[read + 1] == '0' || s[read + 1] == '1')
    ensures Standing(s, b[write := '~'], read + 2, write + 1)
    ensures AlignedFrom(s, read) <==> s[read + 1] == '0' && AlignedFrom(s, read + 2)
  {
    hide AlignedFrom; hide Tildes; hide WellEscaped; hide Unescape; hide Decoded;
    Turn(s, read, write);
    TildesNext(s, read);
    TildesNext(s, read + 1);
    AlignedHead(s, read);
    AlignedHead(s, read + 1);
    assert b[write := '~'][write + 1..] == b[write..][1..] && s[write + 1..] == s[write..][1..];
  }

  lemma Agree(s: string, b: string, read: nat, write: nat)
    requires Standing(s, b, read, write)
    ensures b[read..] == s[read..] && (read < |s| ==> b[read] == s[read] && b[write] == s[write])
    ensures read + 1 < |s| ==> b[read + 1] == s[read + 1]
  {
    hide Tildes; hide WellEscaped;
    assert forall i :: write <= i < |s| ==> b[i] == b[write..][i - write] == s[i];
  }

  lemma OrdinaryDecodes(u: string, done: string, kept: char, wanted: char, rest: string)
    requires |u| > |done| && u[..|done|] == done && u[|done|] == kept
    ensures u == done + ([wanted] + rest) <==> wanted == kept && u == done + [kept] + rest
  {
    assert done + ([wanted] + rest) == done + [wanted] + rest;
  }

  /** The ~1 leaves what stood at its place, which was no slash. */
  lemma SlashLost(s: string, b: string, read: nat, write: nat)
    requires Standing(s, b, read, write) && read + 1 < |s| && s[read] == '~' && s[read + 1] == '1'
    ensures Unescape(b, read, write) != b[..write] + Decoded(s[read..])
  {
    hide Unescape; hide Decoded; hide WellEscaped; hide Tildes;
    Agree(s, b, read, write);
    Turn(b, read, write);
    var b' := b[write + 1 := '/'];
    assert b'[read + 2..] == b[read + 2..];
    UnescapeKeeps(b', read + 2, write + 1);
    Shorter(Unescape(b, read, write), b', write);
    assert (b[..write] + Decoded(s[read..]))[write] == '/';
    assert s[write] != '/';
  }

  /** The text comes out right from here on. */
  ghost predicate Right(s: string, b: string, read: nat, write: nat)
    requires Standing(s, b, read, write)
  {
    Unescape(b, read, write) == b[..write] + Decoded(s[read..])
  }

  lemma OrdinaryTurn(s: string, b: string, read: nat, write: nat)
    requires Standing(s, b, read, write) && read < |s| && s[read] != '~'
    ensures Standing(s, b, read + 1, write + 1)
    ensures Right(s, b, read, write) <==> s[read] == s[write] && Right(s, b, read + 1, write + 1)
  {
    hide Unescape; hide Decoded; hide WellEscaped; hide Tildes; hide AlignedFrom;
    OrdinaryNext(s, b, read, write);
    Agree(s, b, read, write);
    Agree(s, b, read + 1, write + 1);
    Turn(b, read, write);
    UnescapeKeeps(b, read + 1, write + 1);
    var u := Unescape(b, read, write);
    Shorter(u, b, write);
    OrdinaryDecodes(u, b[..write], b[write], s[read], Decoded(s[read + 1..]));
    assert b[..write + 1] == b[..write] + [b[write]];
  }

  lemma TildeTurn(s: string, b: string, read: nat, write: nat)
    requires Standing(s, b, read, write) && read + 1 < |s| && s[read] == '~' && s[read + 1] == '0'
    ensures Standing(s, b[write := '~'], read + 2, write + 1)
    ensures Right(s, b, read, write) <==> Right(s, b[write := '~'], read + 2, write + 1)
  {
    hide Unescape; hide Decoded; hide WellEscaped; hide Tildes; hide AlignedFrom;
    EscapeNext(s, b, read, write);
    var b' := b[write := '~'];
    Agree(s, b, read, write);
    Agree(s, b', read + 2, write + 1);
    Turn(b, read, write);
    assert b[read + 2..] == b'[read + 2..];
    assert b'[..write + 1] + Decoded(s[read + 2..]) == b[..write] + (['~'] + Decoded(s[read + 2..]));
  }

  lemma {:induction false} UnescapeFrom(s: string, b: string, read: nat, write: nat)
    requires Standing(s, b, read, write)
    ensures Right(s, b, read, write) <==> AlignedFrom(s, read)
    decreases |s| - read
  {
    hide WellEscaped; hide Tildes; hide AlignedFrom; hide Unescape; hide Decoded;
    if read == |s| {
      End(b, write);
      NothingLeft(s);
      Agree(s, b, read, write);
      assert b[..write] + [] == b[..write];
    } else if s[read] != '~' {
      hide Right; hide Standing;
      OrdinaryNext(s, b, read, write);
      OrdinaryTurn(s, b, read, write);
      UnescapeFrom(s, b, read + 1, write + 1);
    } else {
      EscapeNext(s, b, read, write);
      if s[read + 1] == '0' {
        hide Right; hide Standing;
        TildeTurn(s, b, read, write);
        UnescapeFrom(s, b[write := '~'], read + 2, write + 1);
      } else {
        SlashLost(s, b, read, write);
      }
    }
  }

  lemma NothingLeft(s: string)
    ensures AlignedFrom(s, |s|)
  {
  }

  /** Unescaping in place does what the standard asks exactly of the tokens whose
      characters happen to stand where they are needed. */
  lemma UnescapeExactly(token: string)
    requires '/' !in token && WellEscaped(token)
    ensures Unescape(token, 0, 0) == Decoded(token) <==> Aligned(token)
  {
    hide Unescape; hide Decoded; hide WellEscaped; hide AlignedFrom;
    assert token[0..] == token && token[..0] == [] && [] + Decoded(token) == Decoded(token);
    UnescapeFrom(token, token, 0, 0);
  }

  lemma {:induction false} NoTildes(s: string)
    requires '~' !in s
    ensures Tildes(s) == 0
  {
    if s != [] { NoTildes(s[..|s| - 1]); }
  }

  /** A token without a tilde is left as it is. */
  lemma UnescapePlain(s: string)
    requires '~' !in s && '/' !in s
    ensures Unescape(s, 0, 0) == s
  {
    hide Unescape; hide Decoded; hide WellEscaped;
    PlainEscaped(s);
    forall r | 0 <= r < |s| ensures Fits(s, r) { NoTildes(s[..r]); }
    UnescapeExactly(s);
  }
}
