/** Reading a content over and over, as the looping buffer does. */
module Tapes {
  import opened Bytes

  datatype Tape = Tape(content: seq<Byte>, pos: nat, loops: int) {
    predicate Valid() { pos <= |content| }
  }

  function Take(t: Tape, n: nat): (seq<Byte>, Tape)
    requires t.Valid()
  {
    var r := if |t.content| - t.pos >= n then n else |t.content| - t.pos;
    (t.content[t.pos..t.pos + r], t.(pos := t.pos + r))
  }

  /** One looped read: when nothing is left, one loop is used up and, unless it
      was the last, reading goes on from the start. */
  function LoopRead(t: Tape, n: nat): (seq<Byte>, Tape)
    requires t.Valid()
  {
    if Take(t, n).0 != [] then Take(t, n)
    else
      var loops := if t.loops > 0 then t.loops - 1 else t.loops;
      if loops == 0 then ([], t.(loops := 0)) else Take(t.(loops := loops, pos := 0), n)
  }

  function Copies(content: seq<Byte>, n: nat): seq<Byte> {
    if n == 0 then [] else content + Copies(content, n - 1)
  }

  /** What a tape with a finite number of loops still has to give. */
  function Remaining(t: Tape): seq<Byte>
    requires t.Valid() && t.loops >= 0
  {
    t.content[t.pos..] + Copies(t.content, if t.loops > 0 then t.loops - 1 else 0)
  }

  lemma {:induction false} CopiesOfNothing(n: nat)
    ensures Copies([], n) == []
  {
    if n > 0 { CopiesOfNothing(n - 1); }
  }

  /** A read gives the next part of what remains, and nothing only at the end. */
  lemma {:induction false} LoopReadTakes(t: Tape, n: nat)
    requires t.Valid() && t.loops >= 0 && n > 0
    ensures var (bytes, t') := LoopRead(t, n);
      && t'.Valid() && t'.loops >= 0 && t'.content == t.content
      && Remaining(t) == bytes + Remaining(t')
      && (bytes == [] <==> Remaining(t) == [])
  {
    if t.content == [] {
      CopiesOfNothing(t.loops);
      CopiesOfNothing(if t.loops > 0 then t.loops - 1 else 0);
      CopiesOfNothing(if t.loops > 1 then t.loops - 2 else 0);
    } else if t.pos < |t.content| {
      Split(t.content, t.pos, |Take(t, n).0|, Copies(t.content, if t.loops > 0 then t.loops - 1 else 0));
    } else if t.loops > 1 {
      Split(t.content, 0, |Take(t.(pos := 0), n).0|, Copies(t.content, t.loops - 2));
    }
  }

  /** The reads of a session, all their bytes together, and the tape after them. */
  function Session(t: Tape, sizes: seq<nat>): (seq<Byte>, Tape)
    requires t.Valid()
    ensures Session(t, sizes).1.Valid()
    decreases |sizes|
  {
    if sizes == [] then ([], t)
    else
      var (first, t1) := LoopRead(t, sizes[0]);
      var (rest, t2) := Session(t1, sizes[1..]);
      (first + rest, t2)
  }

  ghost predicate Positive(sizes: seq<nat>) {
    forall i :: 0 <= i < |sizes| ==> sizes[i] > 0
  }

  /** Nothing is lost, invented or reordered over a whole session. */
  lemma {:induction false} SessionTakes(t: Tape, sizes: seq<nat>)
    requires t.Valid() && t.loops >= 0 && Positive(sizes)
    ensures var (bytes, t') := Session(t, sizes);
      && t'.loops >= 0 && t'.content == t.content && Remaining(t) == bytes + Remaining(t')
    decreases |sizes|
  {
    hide LoopRead; hide Remaining; hide Positive;
    if sizes == [] {
      NothingBefore(Remaining(t));
    } else {
      PositiveRest(sizes);
      var (first, t1) := LoopRead(t, sizes[0]);
      LoopReadTakes(t, sizes[0]);
      SessionTakes(t1, sizes[1..]);
      var (rest, t2) := Session(t1, sizes[1..]);
      Regroup(first, rest, Remaining(t2));
    }
  }

  lemma {:induction false} PositiveRest(sizes: seq<nat>)
    requires sizes != [] && Positive(sizes)
    ensures sizes[0] > 0 && Positive(sizes[1..])
  {
  }

  lemma {:induction false} NothingBefore(a: seq<Byte>)
    ensures [] + a == a
  {
  }

  lemma {:induction false} Regroup(a: seq<Byte>, b: seq<Byte>, c: seq<Byte>)
    ensures a + (b + c) == a + b + c
  {
  }

  /** From a full rewind, the bytes delivered before the first empty read are
      exactly as many copies of the content as there are loops, and one without loops. */
  lemma {:induction false} LoopedReading(t: Tape, sizes: seq<nat>, last: nat)
    requires t.Valid() && t.pos == 0 && t.loops >= 0 && Positive(sizes) && last > 0
    requires LoopRead(Session(t, sizes).1, last).0 == []
    ensures Session(t, sizes).0 == Copies(t.content, if t.loops > 0 then t.loops else 1)
  {
    hide LoopRead; hide Session; hide Positive; hide Copies;
    SessionTakes(t, sizes);
    LoopReadTakes(Session(t, sizes).1, last);
    CopiesFirst(t.content, if t.loops > 0 then t.loops else 1);
    assert Session(t, sizes).0 + [] == Session(t, sizes).0 && t.content[0..] == t.content;
  }

  lemma {:induction false} CopiesFirst(content: seq<Byte>, n: nat)
    requires n > 0
    ensures Copies(content, n) == content + Copies(content, n - 1)
  {
  }

  /** The first empty read comes: no session has more non-empty reads than bytes to give. */
  lemma {:induction false} SessionEnds(t: Tape, sizes: seq<nat>)
    requires t.Valid() && t.loops >= 0 && Positive(sizes)
    requires forall k :: 0 <= k < |sizes| ==> LoopRead(Session(t, sizes[..k]).1, sizes[k]).0 != []
    ensures |sizes| <= |Remaining(t)|
    decreases |sizes|
  {
    if sizes != [] {
      var t1 := LoopRead(t, sizes[0]).1;
      LoopReadTakes(t, sizes[0]);
      assert sizes[..0] == [] && LoopRead(Session(t, sizes[..0]).1, sizes[0]).0 != [];
      forall k | 0 <= k < |sizes[1..]| ensures LoopRead(Session(t1, sizes[1..][..k]).1, sizes[1..][k]).0 != [] {
        assert sizes[..k + 1][1..] == sizes[1..][..k];
        assert LoopRead(Session(t, sizes[..k + 1]).1, sizes[k + 1]).0 != [];
      }
      SessionEnds(t1, sizes[1..]);
    }
  }

  /** After an empty read every later read is empty too. */
  lemma {:induction false} EmptyStaysEmpty(t: Tape, n: nat, sizes: seq<nat>)
    requires t.Valid() && t.loops >= 0 && n > 0 && Positive(sizes) && LoopRead(t, n).0 == []
    ensures Session(LoopRead(t, n).1, sizes).0 == []
  {
    LoopReadTakes(t, n);
    SessionTakes(LoopRead(t, n).1, sizes);
  }

  /** What a tape that never runs out gives next, at least `rounds` rounds of it. */
  function Ahead(t: Tape, rounds: nat): seq<Byte>
    requires t.Valid()
  {
    t.content[t.pos..] + Copies(t.content, rounds)
  }

  /** With a negative loop count a non-empty content goes round for ever. */
  lemma {:induction false} LoopReadGoesRound(t: Tape, n: nat, rounds: nat)
    requires t.Valid() && t.loops < 0 && t.content != [] && n > 0 && rounds > 0
    ensures var (bytes, t') := LoopRead(t, n);
      && bytes != [] && t'.Valid() && t'.loops < 0 && t'.content == t.content
      && Ahead(t, rounds) == bytes + Ahead(t', if t.pos == |t.content| then rounds - 1 else rounds)
  {
    assert Copies(t.content, rounds) == t.content + Copies(t.content, rounds - 1);
    hide Copies;
    if t.pos < |t.content| {
      Split(t.content, t.pos, |Take(t, n).0|, Copies(t.content, rounds));
    } else {
      Split(t.content, 0, |Take(t.(pos := 0), n).0|, Copies(t.content, rounds - 1));
    }
  }

  lemma {:induction false} Split(content: seq<Byte>, pos: nat, r: nat, after: seq<Byte>)
    requires pos + r <= |content|
    ensures content[pos..] + after == content[pos..pos + r] + (content[pos + r..] + after)
  {
  }

  /** No read of an endless session is empty, and together they give the content
      from the current position on, repeated. */
  lemma {:induction false} EndlessReading(t: Tape, sizes: seq<nat>, rounds: nat)
    requires t.Valid() && t.loops < 0 && t.content != [] && Positive(sizes) && rounds >= |sizes|
    ensures |Session(t, sizes).0| >= |sizes| && Session(t, sizes).0 <= Ahead(t, rounds)
    decreases |sizes|
  {
    if sizes != [] {
      LoopReadGoesRound(t, sizes[0], rounds);
      var (first, t1) := LoopRead(t, sizes[0]);
      var rounds' := if t.pos == |t.content| then rounds - 1 else rounds;
      hide LoopRead; hide Ahead;
      EndlessReading(t1, sizes[1..], rounds');
      var (rest, _) := Session(t1, sizes[1..]);
      Prefixed(first, rest, Ahead(t1, rounds'));
    }
  }

  lemma {:induction false} Prefixed(a: seq<Byte>, b: seq<Byte>, c: seq<Byte>)
    requires b <= c
    ensures a + b <= a + c
  {
  }
}
