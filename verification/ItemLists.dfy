/** The doubly linked chains that hold the children of an array or object:
    appending, inserting, detaching and sorting relink the nodes in place. */
module ItemLists {
  import opened Keys
  import opened Sorting
  import opened Trees

  class Item {
    var next: Item?
    var prev: Item?
    const name: string

    constructor (name: string)
      ensures this.name == name && next == null && prev == null
    {
      this.name := name;
      next, prev := null, null;
    }
  }

  function NameOf(n: Item): string { n.name }

  function At(items: seq<Item>, i: int): Item? {
    if 0 <= i < |items| then items[i] else null
  }

  ghost predicate NoRepeats(items: seq<Item>) {
    forall i, j :: 0 <= i < j < |items| ==> items[i] != items[j]
  }

  ghost predicate Forward(items: seq<Item>)
    reads items
  {
    forall i {:trigger items[i].next} :: 0 <= i < |items| ==> items[i].next == At(items, i + 1)
  }

  ghost predicate Backward(items: seq<Item>)
    reads items
  {
    forall i {:trigger items[i].prev} :: 0 <= i < |items| ==> items[i].prev == At(items, i - 1)
  }

  /** head leads a well-formed chain through exactly these nodes, in this order. */
  ghost predicate Linked(head: Item?, items: seq<Item>)
    reads items
  {
    && head == At(items, 0)
    && NoRepeats(items)
    && Forward(items)
    && Backward(items)
  }

  /** Walks the chain while each name strictly precedes the next. */
  method IsStrict(list: Item?, ghost items: seq<Item>, caseSensitive: bool) returns (sorted: bool)
    requires Linked(list, items) && list != null
    ensures sorted == Strict(items, NameOf, caseSensitive)
  {
    var current := list;
    ghost var i := 0;
    while current.next != null
      invariant 0 <= i < |items| && current == items[i]
      invariant forall k {:trigger items[k]} :: 0 <= k < i ==> Compare(NameOf(items[k]), NameOf(items[k + 1]), caseSensitive) < 0
      decreases |items| - i
    {
      assert items[i].next == At(items, i + 1);
      var diff := CompareStrings(current.name, current.next.name, caseSensitive);
      if diff >= 0 {
        return false;
      }
      current := current.next;
      i := i + 1;
    }
    assert items[i].next == At(items, i + 1);
    sorted := true;
  }

  /** One pointer takes two steps while the other takes one. */
  method FindMiddle(list: Item?, ghost items: seq<Item>) returns (second: Item?)
    requires Linked(list, items)
    ensures second == At(items, (|items| + 1) / 2)
  {
    second := list;
    var current := list;
    ghost var k := 0;
    while current != null
      invariant 0 <= k <= (|items| + 1) / 2
      invariant second == At(items, k) && current == At(items, 2 * k)
      decreases |items| - 2 * k
    {
      assert items[k].next == At(items, k + 1);
      assert items[2 * k].next == At(items, 2 * k + 1);
      second := second.next;
      current := current.next;
      if current != null {
        assert items[2 * k + 1].next == At(items, 2 * k + 2);
        current := current.next;
      }
      k := k + 1;
    }
  }

  ghost predicate Apart(a: seq<Item>, b: seq<Item>) {
    forall i, j :: 0 <= i < |a| && 0 <= j < |b| ==> a[i] != b[j]
  }

  /** The links of a merge in progress: `out` is finished up to its last next
      pointer, and the two remainders are still chained forwards; the first
      node of a remainder may still point back into the finished part. */
  ghost predicate Merging(out: seq<Item>, a: seq<Item>, b: seq<Item>)
    reads out, a, b
  {
    && NoRepeats(out) && NoRepeats(a) && NoRepeats(b)
    && Apart(out, a) && Apart(out, b) && Apart(a, b)
    && (forall i {:trigger out[i].next} :: 0 <= i < |out| - 1 ==> out[i].next == out[i + 1])
    && Backward(out)
    && Forward(a) && Forward(b)
    && (forall i {:trigger a[i].prev} :: 1 <= i < |a| ==> a[i].prev == a[i - 1])
    && (forall i {:trigger b[i].prev} :: 1 <= i < |b| ==> b[i].prev == b[i - 1])
    && (out == [] ==> (a != [] ==> a[0].prev == null) && (b != [] ==> b[0].prev == null))
  }

  /** Moves the head of the first remainder to the end of the merged list. */
  method TakeHead(tail: Item?, smaller: Item, ghost out: seq<Item>, ghost a: seq<Item>, ghost b: seq<Item>)
    requires Merging(out, a, b)
    requires a != [] && smaller == a[0] && tail == At(out, |out| - 1)
    modifies smaller, if tail == null then {} else {tail}
    ensures Merging(out + [smaller], a[1..], b)
    ensures smaller.next == At(a, 1)
  {
    if tail != null {
      tail.next := smaller;
      smaller.prev := tail;
    }
    assert forall i :: 0 <= i < |a[1..]| ==> a[1..][i] == a[i + 1];
    assert smaller.next == At(a, 1);
  }

  lemma MergingSymmetric(out: seq<Item>, a: seq<Item>, b: seq<Item>)
    requires Merging(out, a, b)
    ensures Merging(out, b, a)
  {
  }

  /** Hooks what is left of one list onto the merged list. */
  method AppendRest(tail: Item, rest: Item, ghost out: seq<Item>, ghost a: seq<Item>)
    requires Merging(out, a, [])
    requires out != [] && tail == out[|out| - 1] && a != [] && rest == a[0]
    modifies tail, rest
    ensures Linked(out[0], out + a)
  {
    tail.next := rest;
    rest.prev := tail;
    ghost var r := out + a;
    assert Forward(r) by {
      forall i {:trigger r[i].next} | 0 <= i < |r| ensures r[i].next == At(r, i + 1) {
        if i >= |out| { assert r[i] == a[i - |out|]; }
        else if i < |out| - 1 { assert r[i] == out[i]; }
      }
    }
    assert Backward(r) by {
      forall i {:trigger r[i].prev} | 0 <= i < |r| ensures r[i].prev == At(r, i - 1) {
        if i > |out| { assert r[i] == a[i - |out|]; }
        else if i < |out| { assert r[i] == out[i]; }
      }
    }
  }

  lemma AppendAssociative(out: seq<Item>, x: Item, rest: seq<Item>)
    ensures out + [x] + rest == out + ([x] + rest)
  {
  }

  lemma MergeStep(out: seq<Item>, a: seq<Item>, b: seq<Item>, caseSensitive: bool)
    requires a != [] && b != []
    ensures Compare(a[0].name, b[0].name, caseSensitive) < 0 ==>
              out + [a[0]] + Merge(a[1..], b, NameOf, caseSensitive) == out + Merge(a, b, NameOf, caseSensitive)
    ensures Compare(a[0].name, b[0].name, caseSensitive) >= 0 ==>
              out + [b[0]] + Merge(a, b[1..], NameOf, caseSensitive) == out + Merge(a, b, NameOf, caseSensitive)
  {
    hide Compare;
    if Compare(a[0].name, b[0].name, caseSensitive) < 0 {
      AppendAssociative(out, a[0], Merge(a[1..], b, NameOf, caseSensitive));
    } else {
      AppendAssociative(out, b[0], Merge(a, b[1..], NameOf, caseSensitive));
    }
  }

  /** The pointers of the merge loop and the lists they stand for. */
  ghost predicate Cursors(result: Item?, first: Item?, second: Item?, tail: Item?,
                          out: seq<Item>, a: seq<Item>, b: seq<Item>)
    reads out, a, b
  {
    && Merging(out, a, b)
    && first == At(a, 0) && second == At(b, 0) && result == At(out, 0) && tail == At(out, |out| - 1)
    && (out != [] ==> a != [] || b != [])
  }

  lemma MergeDone(out: seq<Item>, a: seq<Item>, b: seq<Item>, caseSensitive: bool)
    requires a == [] || b == []
    ensures out + Merge(a, b, NameOf, caseSensitive) == out + (a + b)
  {
  }

  lemma MergingLinked(a: seq<Item>, b: seq<Item>)
    requires Merging([], a, b)
    ensures Linked(At(a, 0), a)
  {
  }

  method FinishMerge(first: Item?, second: Item?, merged: Item?, tail: Item?,
                     ghost out: seq<Item>, ghost a: seq<Item>, ghost b: seq<Item>)
    returns (result: Item?)
    requires Cursors(merged, first, second, tail, out, a, b) && (a == [] || b == [])
    modifies set x | x in [first, second, tail] && x != null
    ensures Linked(result, out + (a + b))
  {
    result := merged;
    MergingSymmetric(out, a, b);
    if first != null {
      assert a + b == a;
      if result == null {
        MergingLinked(a, b);
        assert out + a == a;
        return first;
      }
      AppendRest(tail, first, out, a);
    } else if second != null {
      assert a + b == b;
      if result == null {
        MergingLinked(b, a);
        assert out + b == b;
        return second;
      }
      AppendRest(tail, second, out, b);
    }
  }

  ghost function NodeSet(items: seq<Item>): set<Item> {
    set x | x in items
  }

  ghost predicate Within(a: seq<Item>, nodes: set<Item>) {
    forall x :: x in a ==> x in nodes
  }

  /** One round of the merge: the smaller head moves to the end of the merged list. */
  method TakeSmaller(first: Item, second: Item, tail: Item?,
                     ghost out: seq<Item>, ghost a: seq<Item>, ghost b: seq<Item>, caseSensitive: bool)
    returns (smaller: Item, first': Item?, second': Item?, ghost a': seq<Item>, ghost b': seq<Item>)
    requires Merging(out, a, b)
    requires a != [] && b != [] && first == a[0] && second == b[0] && tail == At(out, |out| - 1)
    modifies first, second, if tail == null then {} else {tail}
    ensures smaller == first || smaller == second
    ensures Merging(out + [smaller], a', b')
    ensures first' == At(a', 0) && second' == At(b', 0)
    ensures (a', b') == (a[1..], b) || (a', b') == (a, b[1..])
    ensures out + [smaller] + Merge(a', b', NameOf, caseSensitive) == out + Merge(a, b, NameOf, caseSensitive)
  {
    first', second', a', b' := first, second, a, b;
    var diff := CompareStrings(first.name, second.name, caseSensitive);
    MergeStep(out, a, b, caseSensitive);
    if diff < 0 {
      smaller := first;
      TakeHead(tail, smaller, out, a, b);
      first', a' := first.next, a[1..];
    } else {
      smaller := second;
      MergingSymmetric(out, a, b);
      TakeHead(tail, smaller, out, b, a);
      MergingSymmetric(out + [smaller], b[1..], a);
      second', b' := second.next, b[1..];
    }
  }

  /** Merges until one of the two lists runs out. */
  method MergeLoop(head1: Item?, head2: Item?, ghost xs: seq<Item>, ghost ys: seq<Item>, ghost nodes: set<Item>,
                   caseSensitive: bool)
    returns (result: Item?, first: Item?, second: Item?, tail: Item?,
             ghost out: seq<Item>, ghost a: seq<Item>, ghost b: seq<Item>)
    requires Linked(head1, xs) && Linked(head2, ys) && Apart(xs, ys)
    requires Within(xs, nodes) && Within(ys, nodes)
    modifies nodes
    ensures Cursors(result, first, second, tail, out, a, b) && (a == [] || b == [])
    ensures Within(a, nodes) && Within(b, nodes) && (tail == null || tail in nodes)
    ensures out + Merge(a, b, NameOf, caseSensitive) == Merge(xs, ys, NameOf, caseSensitive)
  {
    result, first, second, tail := null, head1, head2, null;
    out, a, b := [], xs, ys;
    ghost var goal := Merge(xs, ys, NameOf, caseSensitive);
    while first != null && second != null
      invariant Cursors(result, first, second, tail, out, a, b)
      invariant out + Merge(a, b, NameOf, caseSensitive) == goal
      invariant Within(a, nodes) && Within(b, nodes) && (tail == null || tail in nodes)
      decreases |a| + |b|
    {
      tail, first, second, a, b := TakeSmaller(first, second, tail, out, a, b, caseSensitive);
      out := out + [tail];
      if result == null {
        result := tail;
      }
    }
  }

  method MergeLists(head1: Item?, head2: Item?, ghost xs: seq<Item>, ghost ys: seq<Item>, ghost nodes: set<Item>,
                    caseSensitive: bool)
    returns (result: Item?)
    requires Linked(head1, xs) && Linked(head2, ys) && Apart(xs, ys)
    requires Within(xs, nodes) && Within(ys, nodes)
    modifies nodes
    ensures Linked(result, Merge(xs, ys, NameOf, caseSensitive))
  {
    hide Merging; hide Linked; hide Merge; hide NoRepeats; hide Apart;
    ghost var out, a, b;
    var first, second, tail;
    result, first, second, tail, out, a, b := MergeLoop(head1, head2, xs, ys, nodes, caseSensitive);
    MergeDone(out, a, b, caseSensitive);
    result := FinishMerge(first, second, result, tail, out, a, b);
  }

  lemma SplitApart(items: seq<Item>, mid: nat)
    requires NoRepeats(items) && mid <= |items|
    ensures NoRepeats(items[..mid]) && NoRepeats(items[mid..]) && Apart(items[..mid], items[mid..])
    ensures NodeSet(items[..mid]) !! NodeSet(items[mid..])
  {
  }

  lemma PermutationApart(a: seq<Item>, b: seq<Item>, a': seq<Item>, b': seq<Item>)
    requires Apart(a, b) && multiset(a) == multiset(a') && multiset(b) == multiset(b')
    ensures Apart(a', b') && forall x :: x in a' ==> x !in b'
  {
    forall i, j | 0 <= i < |a'| && 0 <= j < |b'| ensures a'[i] != b'[j] {
      assert a'[i] in multiset(a') && b'[j] in multiset(b');
    }
  }

  /** Cuts the chain in front of its middle node. */
  method Cut(second: Item, ghost items: seq<Item>, ghost mid: nat)
    requires Linked(At(items, 0), items) && 0 < mid < |items| && second == items[mid]
    modifies items
    ensures Linked(items[0], items[..mid]) && Linked(second, items[mid..])
    ensures Apart(items[..mid], items[mid..])
  {
    assert second.prev == items[mid - 1];
    second.prev.next := null;
    second.prev := null;
    SplitApart(items, mid);
  }

  lemma HalvesApart(items: seq<Item>, mid: nat, caseSensitive: bool)
    requires NoRepeats(items) && mid <= |items|
    ensures var xs, ys := Sort(items[..mid], NameOf, caseSensitive), Sort(items[mid..], NameOf, caseSensitive);
            && Apart(xs, ys)
            && (forall x :: x in xs ==> x !in NodeSet(items[mid..]))
            && Within(xs, NodeSet(items)) && Within(ys, NodeSet(items))
  {
    var xs, ys := Sort(items[..mid], NameOf, caseSensitive), Sort(items[mid..], NameOf, caseSensitive);
    SplitApart(items, mid);
    SortPermutes(items[..mid], NameOf, caseSensitive);
    SortPermutes(items[mid..], NameOf, caseSensitive);
    PermutationApart(items[..mid], items[mid..], xs, ys);
    PermutationApart(items[..mid], items[mid..], xs, items[mid..]);
    PermutationWithin(items[..mid], xs, items);
    PermutationWithin(items[mid..], ys, items);
  }

  lemma PermutationWithin(a: seq<Item>, a': seq<Item>, items: seq<Item>)
    requires multiset(a) == multiset(a') && forall x :: x in a ==> x in items
    ensures Within(a', NodeSet(items))
  {
    forall x | x in a' ensures x in items {
      assert x in multiset(a');
    }
  }

  /** The recursive merge sort: the same nodes, relinked in the order `Sort` puts them. */
  method SortList(list: Item?, ghost items: seq<Item>, caseSensitive: bool) returns (result: Item?)
    requires Linked(list, items)
    modifies NodeSet(items)
    ensures Linked(result, Sort(items, NameOf, caseSensitive))
    decreases |items|, 1
  {
    if list == null {
      return list;
    }
    assert items[0].next == At(items, 1);
    if list.next == null {
      return list;
    }
    var sorted := IsStrict(list, items, caseSensitive);
    if sorted {
      return list;
    }
    var second := FindMiddle(list, items);
    Cut(second, items, (|items| + 1) / 2);
    result := SortHalves(list, second, items, caseSensitive);
  }

  method SortHalves(head1: Item, head2: Item, ghost items: seq<Item>, caseSensitive: bool) returns (result: Item?)
    requires |items| > 1 && NoRepeats(items) && !Strict(items, NameOf, caseSensitive)
    requires Linked(head1, items[..(|items| + 1) / 2]) && Linked(head2, items[(|items| + 1) / 2..])
    modifies NodeSet(items)
    ensures Linked(result, Sort(items, NameOf, caseSensitive))
    decreases |items|, 0
  {
    hide Sort;
    hide Merge;
    hide Strict;
    hide NoRepeats;
    hide Apart;
    ghost var mid := (|items| + 1) / 2;
    ghost var xs, ys := Sort(items[..mid], NameOf, caseSensitive), Sort(items[mid..], NameOf, caseSensitive);
    HalvesApart(items, mid, caseSensitive);
    SplitApart(items, mid);
    SortUnfolds(items, caseSensitive);
    var first := SortList(head1, items[..mid], caseSensitive);
    assert Linked(first, xs);
    label FirstSorted:
    var second := SortList(head2, items[mid..], caseSensitive);
    assert unchanged@FirstSorted(xs);
    result := MergeLists(first, second, xs, ys, NodeSet(items), caseSensitive);
  }

  lemma SortUnfolds(items: seq<Item>, caseSensitive: bool)
    requires |items| > 1 && !Strict(items, NameOf, caseSensitive)
    ensures var mid := (|items| + 1) / 2;
            Sort(items, NameOf, caseSensitive) ==
            Merge(Sort(items[..mid], NameOf, caseSensitive), Sort(items[mid..], NameOf, caseSensitive), NameOf, caseSensitive)
  {
    hide Strict;
    hide Merge;
  }

  /** Every node but the k-th is linked as if the k-th were not there. */
  ghost predicate SkipsNode(items: seq<Item>, k: nat)
    reads items
  {
    && (forall i {:trigger items[i].next} :: 0 <= i < |items| && i != k ==>
          items[i].next == At(items, if i == k - 1 then k + 1 else i + 1))
    && (forall i {:trigger items[i].prev} :: 0 <= i < |items| && i != k ==>
          items[i].prev == At(items, if i == k + 1 then k - 1 else i - 1))
  }

  lemma RemovedLinked(items: seq<Item>, k: nat)
    requires k < |items| && NoRepeats(items) && SkipsNode(items, k)
    ensures Linked(At(RemoveAt(items, k), 0), RemoveAt(items, k))
  {
    var r := RemoveAt(items, k);
    assert forall i :: 0 <= i < |r| ==> r[i] == if i < k then items[i] else items[i + 1];
  }

  /** The links once a new node stands in front of the k-th one. */
  ghost predicate MakesRoom(items: seq<Item>, k: nat, x: Item)
    requires k < |items|
    reads items, x
  {
    && x.next == items[k] && x.prev == At(items, k - 1)
    && (forall i {:trigger items[i].next} :: 0 <= i < |items| ==>
          items[i].next == if i == k - 1 then x else At(items, i + 1))
    && (forall i {:trigger items[i].prev} :: 0 <= i < |items| ==>
          items[i].prev == if i == k then x else At(items, i - 1))
  }

  lemma InsertedLinked(items: seq<Item>, k: nat, x: Item)
    requires k < |items| && NoRepeats(items) && x !in items && MakesRoom(items, k, x)
    ensures Linked(At(InsertAt(items, k, x), 0), InsertAt(items, k, x))
  {
    var r := InsertAt(items, k, x);
    assert forall i :: 0 <= i < |r| ==> r[i] == if i < k then items[i] else if i == k then x else items[i - 1];
  }

  lemma AppendedLinked(child: Item?, items: seq<Item>, x: Item)
    requires items != [] && NoRepeats(items) && x !in items && child == items[0] && Backward(items)
    requires forall i {:trigger items[i].next} :: 0 <= i < |items| ==> items[i].next == At(items + [x], i + 1)
    requires x.prev == items[|items| - 1]
    ensures Linked(child, items + [x]) <==> x.next == null
  {
    var r := items + [x];
    assert forall i :: 0 <= i < |items| ==> r[i] == items[i];
    assert r[|items|] == x;
    assert Forward(r) <==> x.next == At(r, |items| + 1);
  }

  /** An array or object item, reduced to the head of its chain of children. */
  class Parent {
    var child: Item?
    ghost var items: seq<Item>

    ghost predicate Valid()
      reads this, items
    {
      Linked(child, items)
    }

    /** Steps along the chain until `which` is used up or the chain ends. */
    method Walk(which: nat) returns (c: Item?, left: nat)
      requires Valid()
      ensures c == At(items, which)
      ensures left == if which <= |items| then 0 else which - |items|
    {
      c, left := child, which;
      ghost var i := 0;
      while c != null && left > 0
        invariant 0 <= i <= |items| && i + left == which && c == At(items, i)
        decreases left
      {
        assert items[i].next == At(items, i + 1);
        c := c.next;
        left := left - 1;
        i := i + 1;
      }
    }

    /** Appends an item. Its own next link is left as it is, and so is its prev link
        when it is the first: the chain stays in order exactly when they were clear. */
    method AddItem(item: Item)
      requires Valid() && item !in items
      modifies this, item, items
      ensures items == old(items) + [item]
      ensures Valid() <==> old(item.next == null && (items == [] ==> item.prev == null))
    {
      if child == null {
        child := item;
        items := items + [item];
        assert Linked(child, items) <==> item.next == At(items, 1) && item.prev == At(items, -1);
      } else {
        var c := child;
        ghost var i := 0;
        while c.next != null
          invariant 0 <= i < |items| && c == items[i]
          decreases |items| - i
        {
          assert items[i].next == At(items, i + 1);
          c := c.next;
          i := i + 1;
        }
        assert items[i].next == At(items, i + 1);
        c.next := item;
        item.prev := c;
        AppendedLinked(child, items, item);
        items := items + [item];
      }
    }

    /** Takes a child out of the chain and clears its links. */
    method Unlink(c: Item, ghost k: nat)
      requires Valid() && k < |items| && c == items[k]
      modifies this, items
      ensures Valid() && items == RemoveAt(old(items), k) && c.next == null && c.prev == null
    {
      assert items[k].next == At(items, k + 1) && items[k].prev == At(items, k - 1);
      if c.prev != null {
        c.prev.next := c.next;
      }
      if c.next != null {
        c.next.prev := c.prev;
      }
      if c == child {
        child := c.next;
      }
      c.prev, c.next := null, null;
      RemovedLinked(items, k);
      items := RemoveAt(items, k);
    }

    method DetachItem(which: nat) returns (c: Item?)
      requires Valid()
      modifies this, items
      ensures Valid()
      ensures which < |old(items)| ==>
                c == old(items)[which] && items == RemoveAt(old(items), which) && c.next == null && c.prev == null
      ensures which >= |old(items)| ==> c == null && items == old(items) && unchanged(items)
    {
      var left;
      c, left := Walk(which);
      if c != null {
        Unlink(c, which);
      }
    }

    /** Links a new item in front of the k-th one. */
    method Splice(c: Item, newitem: Item, ghost k: nat)
      requires Valid() && k < |items| && c == items[k] && newitem !in items
      modifies this, newitem, items
      ensures Valid() && items == InsertAt(old(items), k, newitem)
    {
      assert items[k].prev == At(items, k - 1);
      newitem.next := c;
      newitem.prev := c.prev;
      c.prev := newitem;
      if c == child {
        child := newitem;
      } else {
        newitem.prev.next := newitem;
      }
      InsertedLinked(items, k, newitem);
      items := InsertAt(items, k, newitem);
    }

    /** Inserted in front of another item, the new one gets both its links. */
    method InsertItem(which: nat, newitem: Item) returns (ok: bool)
      requires Valid() && newitem !in items
      modifies this, newitem, items
      ensures Valid() <==> which != |old(items)| || old(newitem.next == null && (items == [] ==> newitem.prev == null))
      ensures ok == (which <= |old(items)|)
      ensures items == if ok then InsertAt(old(items), which, newitem) else old(items)
    {
      var c, left := Walk(which);
      if left > 0 {
        return false;
      }
      ok := true;
      if c == null {
        AddItem(newitem);
        return;
      }
      Splice(c, newitem, which);
    }
  }
}
