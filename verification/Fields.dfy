/** Splitting a text at a separator and joining it again. */
module Fields {
  function Front(fs: seq<string>): seq<string>
    requires fs != []
  {
    fs[..|fs| - 1]
  }

  function Last(fs: seq<string>): string
    requires fs != []
  {
    fs[|fs| - 1]
  }

  /** The last field with something more behind it. */
  function Extend(fs: seq<string>, t: string): (gs: seq<string>)
    requires fs != []
    ensures |gs| == |fs| && Front(gs) == Front(fs) && Last(gs) == Last(fs) + t
  {
    Front(fs) + [Last(fs) + t]
  }

  /** The fields of a text, read from left to right. */
  function Split(s: string, sep: char): (fs: seq<string>)
    ensures fs != []
  {
    if s == [] then [[]]
    else if s[|s| - 1] == sep then Split(s[..|s| - 1], sep) + [[]]
    else Extend(Split(s[..|s| - 1], sep), [s[|s| - 1]])
  }

  function Join(fs: seq<string>, sep: char): string
    requires fs != []
  {
    if |fs| == 1 then fs[0] else Join(Front(fs), sep) + [sep] + Last(fs)
  }

  ghost predicate Free(fs: seq<string>, sep: char) {
    forall i :: 0 <= i < |fs| ==> sep !in fs[i]
  }

  lemma SplitSnoc(s: string, c: char, sep: char)
    ensures Split(s + [c], sep) == if c == sep then Split(s, sep) + [[]] else Extend(Split(s, sep), [c])
  {
    assert (s + [c])[..|s|] == s;
  }

  lemma ExtendTwice(fs: seq<string>, t: string, u: string)
    requires fs != []
    ensures Extend(Extend(fs, t), u) == Extend(fs, t + u) && Extend(fs, []) == fs
  {
    assert Last(fs) + t + u == Last(fs) + (t + u);
    assert Front(fs) + [Last(fs)] == fs;
    assert Last(fs) + [] == Last(fs);
  }

  lemma JoinSnoc(fs: seq<string>, last: string, sep: char)
    requires fs != []
    ensures Join(fs + [last], sep) == Join(fs, sep) + [sep] + last
  {
    assert (fs + [last])[..|fs|] == fs;
  }

  lemma JoinExtend(fs: seq<string>, t: string, sep: char)
    requires fs != []
    ensures Join(Extend(fs, t), sep) == Join(fs, sep) + t
  {
    if |fs| > 1 {
      assert Join(Front(fs), sep) + [sep] + (Last(fs) + t) == Join(Front(fs), sep) + [sep] + Last(fs) + t;
    }
  }

  /** Joining undoes splitting, and no field holds a separator. */
  lemma {:induction false} JoinSplit(s: string, sep: char)
    ensures Join(Split(s, sep), sep) == s && Free(Split(s, sep), sep)
  {
    if s != [] {
      var p, c := s[..|s| - 1], s[|s| - 1];
      JoinSplit(p, sep);
      SplitSnoc(p, c, sep);
      assert s == p + [c];
      hide Split; hide Join;
      var fs := Split(p, sep);
      if c == sep { JoinSnoc(fs, [], sep); } else { JoinExtend(fs, [c], sep); FreeExtend(fs, [c], sep); }
    }
  }

  lemma FreeExtend(fs: seq<string>, t: string, sep: char)
    requires fs != [] && Free(fs, sep) && sep !in t
    ensures Free(Extend(fs, t), sep)
  {
  }

  /** What has been split off stays split off, whatever follows. */
  ghost predicate Extends(fs: seq<string>, gs: seq<string>) {
    fs != [] && |fs| <= |gs| && Front(fs) == gs[..|fs| - 1] && Last(fs) <= gs[|fs| - 1]
  }

  lemma {:induction false} SplitPrefix(s: string, t: string, sep: char)
    ensures Extends(Split(s, sep), Split(s + t, sep))
    ensures sep in t ==> |Split(s, sep)| < |Split(s + t, sep)|
    ensures sep !in t ==> Split(s + t, sep) == Extend(Split(s, sep), t)
    decreases |t|
  {
    hide Split; hide Extend;
    if t == [] {
      assert s + t == s;
      ExtendTwice(Split(s, sep), [], []);
    } else {
      var t', c := t[..|t| - 1], t[|t| - 1];
      SplitPrefix(s, t', sep);
      SplitSnoc(s + t', c, sep);
      assert s + t == s + t' + [c] && t == t' + [c];
      ExtendTwice(Split(s, sep), t', [c]);
      ExtendsMore(Split(s, sep), Split(s + t', sep), c);
    }
  }

  lemma ExtendsMore(fs: seq<string>, gs: seq<string>, c: char)
    requires Extends(fs, gs)
    ensures Extends(fs, gs + [[]]) && Extends(fs, Extend(gs, [c]))
  {
  }

  lemma {:induction false} SplitJoin(fs: seq<string>, sep: char)
    requires fs != [] && Free(fs, sep)
    ensures Split(Join(fs, sep), sep) == fs
  {
    assert Split([], sep) == [[]];
    assert Join(fs, sep) == if |fs| == 1 then fs[0] else Join(Front(fs), sep) + [sep] + Last(fs);
    hide Split; hide Join;
    if |fs| == 1 {
      SplitPrefix([], fs[0], sep);
      ExtendWhole(fs);
    } else {
      SplitJoin(Front(fs), sep);
      SplitSnoc(Join(Front(fs), sep), sep, sep);
      SplitPrefix(Join(Front(fs), sep) + [sep], Last(fs), sep);
      ExtendWhole(fs);
    }
  }

  lemma ExtendEmpty(front: seq<string>, last: string)
    ensures Extend(front + [[]], last) == front + [last]
  {
    assert Front(front + [[]]) == front && Last(front + [[]]) + last == last;
  }

  lemma ExtendWhole(fs: seq<string>)
    requires fs != []
    ensures Extend(Front(fs) + [[]], Last(fs)) == fs && [] + Last(fs) == Last(fs)
    ensures |fs| == 1 ==> Front(fs) + [[]] == [[]]
  {
    ExtendEmpty(Front(fs), Last(fs));
    assert fs == Front(fs) + [Last(fs)];
  }

  lemma {:induction false} JoinConcat(fs: seq<string>, gs: seq<string>, sep: char)
    requires fs != [] && gs != []
    ensures Join(fs + gs, sep) == Join(fs, sep) + [sep] + Join(gs, sep)
    decreases |gs|
  {
    if |gs| == 1 {
      assert (fs + gs)[..|fs + gs| - 1] == fs;
    } else {
      var gs' := gs[..|gs| - 1];
      JoinConcat(fs, gs', sep);
      assert (fs + gs)[..|fs + gs| - 1] == fs + gs';
      assert Join(fs, sep) + [sep] + Join(gs', sep) + [sep] + gs[|gs| - 1]
          == Join(fs, sep) + [sep] + (Join(gs', sep) + [sep] + gs[|gs| - 1]);
    }
  }
}
