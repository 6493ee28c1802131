/** The merge sort that orders the members of an object by name. */
module Sorting {
  import opened Keys

  /** x sorts no later than every element of s. */
  ghost predicate Below<T>(x: T, s: seq<T>, key: T -> string, caseSensitive: bool) {
    forall y :: y in s ==> Compare(key(x), key(y), caseSensitive) <= 0
  }

  ghost predicate Ascending<T>(s: seq<T>, key: T -> string, caseSensitive: bool) {
    s == [] || (Below(s[0], s[1..], key, caseSensitive) && Ascending(s[1..], key, caseSensitive))
  }

  /** The test the sort makes before doing any work: each name strictly precedes the next. */
  predicate Strict<T>(s: seq<T>, key: T -> string, caseSensitive: bool) {
    forall i {:trigger s[i]} :: 0 <= i < |s| - 1 ==> Compare(key(s[i]), key(s[i + 1]), caseSensitive) < 0
  }

  /** On equal names the element of the second list comes first. */
  function Merge<T>(a: seq<T>, b: seq<T>, key: T -> string, caseSensitive: bool): seq<T> {
    if a == [] then b
    else if b == [] then a
    else if Compare(key(a[0]), key(b[0]), caseSensitive) < 0 then
      [a[0]] + Merge(a[1..], b, key, caseSensitive)
    else
      [b[0]] + Merge(a, b[1..], key, caseSensitive)
  }

  function Sort<T>(s: seq<T>, key: T -> string, caseSensitive: bool): seq<T>
    decreases |s|
  {
    if |s| <= 1 || Strict(s, key, caseSensitive) then s
    else
      var mid := (|s| + 1) / 2;
      Merge(Sort(s[..mid], key, caseSensitive), Sort(s[mid..], key, caseSensitive), key, caseSensitive)
  }

  lemma UnconsMultiset<T>(s: seq<T>)
    requires s != []
    ensures multiset(s) == multiset{s[0]} + multiset(s[1..])
  {
    assert s == [s[0]] + s[1..];
  }

  lemma {:induction false} MergePermutes<T>(a: seq<T>, b: seq<T>, key: T -> string, caseSensitive: bool)
    ensures multiset(Merge(a, b, key, caseSensitive)) == multiset(a) + multiset(b)
  {
    if a != [] && b != [] {
      var r := Merge(a, b, key, caseSensitive);
      UnconsMultiset(r);
      if Compare(key(a[0]), key(b[0]), caseSensitive) < 0 {
        assert r[1..] == Merge(a[1..], b, key, caseSensitive);
        MergePermutes(a[1..], b, key, caseSensitive);
        UnconsMultiset(a);
      } else {
        assert r[1..] == Merge(a, b[1..], key, caseSensitive);
        MergePermutes(a, b[1..], key, caseSensitive);
        UnconsMultiset(b);
      }
    }
  }

  lemma SplitMultiset<T>(s: seq<T>, mid: nat)
    requires mid <= |s|
    ensures multiset(s) == multiset(s[..mid]) + multiset(s[mid..])
  {
    assert s == s[..mid] + s[mid..];
  }

  lemma {:induction false} SortPermutes<T>(s: seq<T>, key: T -> string, caseSensitive: bool)
    ensures multiset(Sort(s, key, caseSensitive)) == multiset(s)
    decreases |s|
  {
    if |s| > 1 && !Strict(s, key, caseSensitive) {
      var mid := (|s| + 1) / 2;
      SplitMultiset(s, mid);
      SortPermutes(s[..mid], key, caseSensitive);
      SortPermutes(s[mid..], key, caseSensitive);
      MergePermutes(Sort(s[..mid], key, caseSensitive), Sort(s[mid..], key, caseSensitive), key, caseSensitive);
    }
  }

  lemma CompareTransitive(a: string, b: string, c: string, caseSensitive: bool)
    requires Compare(a, b, caseSensitive) <= 0 && Compare(b, c, caseSensitive) <= 0
    ensures Compare(a, c, caseSensitive) <= 0
    ensures Compare(a, b, caseSensitive) < 0 ==> Compare(a, c, caseSensitive) < 0
  {
    var x, y, z := Canon(a, caseSensitive), Canon(b, caseSensitive), Canon(c, caseSensitive);
    LexZero(x, y);
    if Lex(x, y) < 0 { LexTransitive(x, y, z); }
  }

  lemma CompareAntisymmetric(a: string, b: string, caseSensitive: bool)
    ensures Compare(a, b, caseSensitive) == -Compare(b, a, caseSensitive)
  {
    LexAntisymmetric(Canon(a, caseSensitive), Canon(b, caseSensitive));
  }

  lemma BelowHead<T>(x: T, s: seq<T>, key: T -> string, caseSensitive: bool)
    requires s != [] && Ascending(s, key, caseSensitive)
    requires Compare(key(x), key(s[0]), caseSensitive) <= 0
    ensures Below(x, s, key, caseSensitive)
  {
    forall y | y in s ensures Compare(key(x), key(y), caseSensitive) <= 0 {
      if y in s[1..] { CompareTransitive(key(x), key(s[0]), key(y), caseSensitive); }
    }
  }

  lemma {:induction false} StrictAscends<T>(s: seq<T>, key: T -> string, caseSensitive: bool)
    requires Strict(s, key, caseSensitive)
    ensures Ascending(s, key, caseSensitive)
  {
    if s != [] {
      assert forall i :: 0 <= i < |s| - 1 ==> s[1..][i] == s[i + 1];
      StrictAscends(s[1..], key, caseSensitive);
      if |s| > 1 { BelowHead(s[0], s[1..], key, caseSensitive); }
    }
  }

  lemma BelowBoth<T>(x: T, a: seq<T>, b: seq<T>, r: seq<T>, key: T -> string, caseSensitive: bool)
    requires Below(x, a, key, caseSensitive) && Below(x, b, key, caseSensitive)
    requires multiset(r) == multiset(a) + multiset(b)
    ensures Below(x, r, key, caseSensitive)
  {
    forall y | y in r ensures Compare(key(x), key(y), caseSensitive) <= 0 {
      assert y in multiset(r);
    }
  }

  lemma {:induction false} MergeAscends<T>(a: seq<T>, b: seq<T>, key: T -> string, caseSensitive: bool)
    requires Ascending(a, key, caseSensitive) && Ascending(b, key, caseSensitive)
    ensures Ascending(Merge(a, b, key, caseSensitive), key, caseSensitive)
  {
    if a != [] && b != [] {
      CompareAntisymmetric(key(a[0]), key(b[0]), caseSensitive);
      if Compare(key(a[0]), key(b[0]), caseSensitive) < 0 {
        MergeAscends(a[1..], b, key, caseSensitive);
        MergePermutes(a[1..], b, key, caseSensitive);
        BelowHead(a[0], b, key, caseSensitive);
        BelowBoth(a[0], a[1..], b, Merge(a[1..], b, key, caseSensitive), key, caseSensitive);
      } else {
        MergeAscends(a, b[1..], key, caseSensitive);
        MergePermutes(a, b[1..], key, caseSensitive);
        BelowHead(b[0], a, key, caseSensitive);
        BelowBoth(b[0], a, b[1..], Merge(a, b[1..], key, caseSensitive), key, caseSensitive);
      }
    }
  }

  /** The result is in non-descending order of the names. */
  lemma {:induction false} SortAscends<T>(s: seq<T>, key: T -> string, caseSensitive: bool)
    ensures Ascending(Sort(s, key, caseSensitive), key, caseSensitive)
    decreases |s|
  {
    if |s| <= 1 {
    } else if Strict(s, key, caseSensitive) {
      StrictAscends(s, key, caseSensitive);
    } else {
      var mid := (|s| + 1) / 2;
      SortAscends(s[..mid], key, caseSensitive);
      SortAscends(s[mid..], key, caseSensitive);
      MergeAscends(Sort(s[..mid], key, caseSensitive), Sort(s[mid..], key, caseSensitive), key, caseSensitive);
    }
  }
}
