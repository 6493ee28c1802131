/** The circular array behind the blocking queue. */
module Rings {

  type Item = int

  datatype Ring = Ring(data: seq<Item>, nelts: nat, next: nat, out: nat) {

    ghost predicate Valid() {
      && nelts <= |data|
      && (|data| > 0 ==> out < |data| && next == Wrap(out + nelts, |data|))
    }

    predicate Full() { nelts == |data| }

    predicate Empty() { nelts == 0 }

    /** The queued items, oldest first. */
    ghost function Contents(): seq<Item>
      requires Valid()
    {
      seq(nelts, i requires 0 <= i < nelts => data[Wrap(out + i, |data|)])
    }

    function Put(x: Item): Ring
      requires next < |data|
    {
      Ring(data[next := x], nelts + 1, (next + 1) % |data|, out)
    }

    function Head(): Item
      requires out < |data|
    {
      data[out]
    }

    function Drop(): Ring
      requires out < |data| && nelts > 0
    {
      Ring(data, nelts - 1, next, (out + 1) % |data|)
    }
  }

  function Wrap(k: nat, n: nat): (r: nat)
    requires k < 2 * n
    ensures r < n
  {
    if k < n then k else k - n
  }

  lemma WrapIsModulo(k: nat, n: nat)
    requires k < 2 * n
    ensures Wrap(k, n) == k % n
  {
    if k >= n {
      assert k == (k - n) + n;
      assert (k - n + n) % n == (k - n) % n;
    }
  }

  /** Storing at the in position adds at the back. */
  lemma PutAppends(r: Ring, x: Item)
    requires r.Valid() && !r.Full()
    ensures r.Put(x).Valid()
    ensures r.Put(x).Contents() == r.Contents() + [x]
  {
    WrapIsModulo(r.next + 1, |r.data|);
    var c, d := r.Contents() + [x], r.Put(x).Contents();
    forall i | 0 <= i < |d| ensures d[i] == c[i] {
      assert d[i] == r.Put(x).data[Wrap(r.out + i, |r.data|)];
    }
  }

  /** Reading at the out position takes from the front. */
  lemma DropRemoves(r: Ring)
    requires r.Valid() && !r.Empty()
    ensures r.Drop().Valid()
    ensures r.Contents() == [r.Head()] + r.Drop().Contents()
  {
    WrapIsModulo(r.out + 1, |r.data|);
    var c, d := r.Contents(), [r.Head()] + r.Drop().Contents();
    forall i | 0 <= i < |c| ensures c[i] == d[i] {
      assert c[i] == r.data[Wrap(r.out + i, |r.data|)];
      assert i > 0 ==> d[i] == r.data[Wrap(r.Drop().out + (i - 1), |r.data|)];
    }
  }

  /** The queue structure, changed in place while its mutex is held. */
  class RingQueue {
    var data: array<Item>
    var nelts: nat
    var next: nat
    var out: nat

    ghost function View(): Ring
      reads this, data
    {
      Ring(data[..], nelts, next, out)
    }

    constructor (capacity: nat)
      ensures View().Valid() && View().Contents() == [] && data.Length == capacity && fresh(data)
    {
      data := new Item[capacity](_ => 0);
      nelts, next, out := 0, 0, 0;
    }

    method Store(x: Item)
      requires View().Valid() && !View().Full()
      modifies this, data
      ensures data == old(data)
      ensures View() == old(View()).Put(x)
      ensures View().Valid() && View().Contents() == old(View()).Contents() + [x]
    {
      PutAppends(View(), x);
      data[next] := x;
      next := (next + 1) % data.Length;
      nelts := nelts + 1;
    }

    method Fetch() returns (x: Item)
      requires View().Valid() && !View().Empty()
      modifies this
      ensures x == old(View()).Head() && View() == old(View()).Drop()
      ensures View().Valid() && old(View()).Contents() == [x] + View().Contents()
    {
      DropRemoves(View());
      x := data[out];
      nelts := nelts - 1;
      out := (out + 1) % data.Length;
    }
  }
}
