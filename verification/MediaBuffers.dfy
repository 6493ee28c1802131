/** The media byte buffer: a head offset, compaction, growth and rewinding,
    hidden behind a plain sequence of bytes. */
module MediaBuffers {
  import opened Bytes
  import opened Tapes

  const DEFAULT_START := 250

  /** What a write of `n` bytes puts in: the source's first bytes, or zeros without one. */
  function Source(src: array?<Byte>, n: nat): (bytes: seq<Byte>)
    requires src != null ==> n <= src.Length
    reads src
  {
    if src == null then seq(n, _ => 0) else src[..][..n]
  }

  function Min(a: nat, b: nat): nat { if a < b then a else b }

  // ----- the library's memory moves

  /** Moves `n` bytes down to the front of the same array; the two ranges may overlap. */
  method MoveToFront(a: array<Byte>, from: nat, n: nat)
    requires from + n <= a.Length
    modifies a
    ensures a[..][..n] == old(a[..])[from..from + n]
  {
    var i := 0;
    while i < n
      invariant 0 <= i <= n
      invariant forall k :: 0 <= k < i ==> a[k] == old(a[..])[from + k]
      invariant forall k :: from + i <= k < from + n ==> a[k] == old(a[..])[k]
    {
      a[i] := a[from + i];
      i := i + 1;
    }
  }

  method CopyBytes(dst: array<Byte>, at: nat, src: array<Byte>, from: nat, n: nat)
    requires dst != src && at + n <= dst.Length && from + n <= src.Length
    modifies dst
    ensures dst[..] == old(dst[..])[..at] + src[..][from..from + n] + old(dst[..])[at + n..]
  {
    var i := 0;
    while i < n
      invariant 0 <= i <= n
      invariant forall k :: at <= k < at + i ==> dst[k] == src[from + (k - at)]
      invariant forall k :: 0 <= k < at || at + n <= k < dst.Length ==> dst[k] == old(dst[k])
    {
      dst[at + i] := src[from + i];
      i := i + 1;
    }
  }

  method ClearBytes(dst: array<Byte>, at: nat, n: nat)
    requires at + n <= dst.Length
    modifies dst
    ensures dst[..] == old(dst[..])[..at] + seq(n, _ => 0) + old(dst[..])[at + n..]
  {
    var i := 0;
    while i < n
      invariant 0 <= i <= n
      invariant forall k :: at <= k < at + i ==> dst[k] == 0
      invariant forall k :: 0 <= k < at || at + n <= k < dst.Length ==> dst[k] == old(dst[k])
    {
      dst[at + i] := 0;
      i := i + 1;
    }
  }

  method PutBytes(dst: array<Byte>, at: nat, src: array?<Byte>, n: nat)
    requires dst != src && at + n <= dst.Length && (src != null ==> n <= src.Length)
    modifies dst
    ensures dst[..] == old(dst[..])[..at] + old(Source(src, n)) + old(dst[..])[at + n..]
  {
    if src != null {
      assert src[..][0..n] == src[..][..n];
      CopyBytes(dst, at, src, 0, n);
    } else {
      ClearBytes(dst, at, n);
    }
  }

  // ----- what the bytes in memory say about the bytes that went through

  /** Everything accepted is what was taken followed by what is between head and
      end; and the bytes still lying before the head are the last ones taken. */
  ghost predicate History(accepted: seq<Byte>, taken: seq<Byte>, bytes: seq<Byte>, head: nat, end: nat) {
    && head <= end <= |bytes| && head <= |taken|
    && accepted == taken + bytes[head..end]
    && taken[|taken| - head..] == bytes[..head]
  }

  lemma TakingKeeps(accepted: seq<Byte>, taken: seq<Byte>, bytes: seq<Byte>, head: nat, end: nat, r: nat)
    requires History(accepted, taken, bytes, head, end) && head + r <= end
    ensures History(accepted, taken + bytes[head..end][..r], bytes, head + r, end)
    ensures bytes[head + r..end] == bytes[head..end][r..]
  {
    assert bytes[head..end] == bytes[head..end][..r] + bytes[head + r..end];
    assert bytes[..head + r] == bytes[..head] + bytes[head..end][..r];
  }

  lemma AddingKeeps(accepted: seq<Byte>, taken: seq<Byte>, bytes: seq<Byte>, head: nat, end: nat, added: seq<Byte>, bytes': seq<Byte>)
    requires History(accepted, taken, bytes, head, end)
    requires end + |added| <= |bytes| && bytes' == bytes[..end] + added + bytes[end + |added|..]
    ensures History(accepted + added, taken, bytes', head, end + |added|)
    ensures bytes'[head..end + |added|] == bytes[head..end] + added
  {
    assert bytes'[head..end + |added|] == bytes[head..end] + added;
    assert bytes'[..head] == bytes[..head];
    assert taken + bytes[head..end] + added == taken + (bytes[head..end] + added);
  }

  lemma MovingKeeps(accepted: seq<Byte>, taken: seq<Byte>, bytes: seq<Byte>, head: nat, end: nat, bytes': seq<Byte>)
    requires History(accepted, taken, bytes, head, end)
    requires end - head <= |bytes'| && bytes'[..end - head] == bytes[head..end]
    ensures History(accepted, taken, bytes', 0, end - head) && bytes'[0..end - head] == bytes[head..end]
  {
    assert bytes'[0..end - head] == bytes'[..end - head];
  }

  lemma RewindingKeeps(accepted: seq<Byte>, taken: seq<Byte>, bytes: seq<Byte>, head: nat, end: nat)
    requires History(accepted, taken, bytes, head, end)
    ensures head <= |taken| && History(accepted, taken[..|taken| - head], bytes, 0, end)
  {
    assert taken == taken[..|taken| - head] + bytes[..head];
    assert bytes[0..end] == bytes[..head] + bytes[head..end];
  }

  lemma TakeMatches(bytes: seq<Byte>, head: nat, end: nat, loops: int, n: nat)
    requires head <= end <= |bytes|
    ensures var r := Min(n, end - head);
      Take(Tape(bytes[..end], head, loops), n) == (bytes[head..end][..r], Tape(bytes[..end], head + r, loops))
  {
    assert bytes[..end][head..head + Min(n, end - head)] == bytes[head..end][..Min(n, end - head)];
  }

  class Buffer {
    var data: array<Byte>
    var head: nat
    var used: nat
    var actuallyUsed: nat
    const maxLen: nat
    const blockSize: nat
    const dynamic: bool
    const partition: bool
    var loops: int

    /** All bytes ever accepted, and all bytes taken out since. */
    ghost var accepted: seq<Byte>
    ghost var taken: seq<Byte>

    ghost predicate Valid()
      reads this, data
    {
      && head + used == actuallyUsed <= data.Length
      && !(dynamic && partition)
      && History(accepted, taken, data[..], head, actuallyUsed)
    }

    function Contents(): (s: seq<Byte>)
      reads this, data
      requires head <= actuallyUsed <= data.Length
    {
      data[..][head..actuallyUsed]
    }

    ghost predicate Accepts(n: nat)
      reads this
    {
      !partition && (n == 0 || used + n <= data.Length || (dynamic && (maxLen == 0 || used + n <= maxLen)))
    }

    constructor Fixed(size: nat)
      ensures Valid() && !dynamic && !partition && data.Length == size && Contents() == [] && loops == 0
      ensures fresh(data)
    {
      data := new Byte[size](_ => 0);
      head, used, actuallyUsed, loops := 0, 0, 0, 0;
      maxLen, blockSize, dynamic, partition := 0, 0, false, false;
      accepted, taken := [], [];
    }

    constructor Dynamic(blockSize: nat, startLen: nat, maxLen: nat)
      ensures Valid() && dynamic && !partition && Contents() == [] && loops == 0 && this.maxLen == maxLen
      ensures data.Length == (if startLen == 0 then DEFAULT_START else startLen)
      ensures this.blockSize == (if blockSize == 0 then data.Length else blockSize) > 0
      ensures fresh(data)
    {
      var start := if startLen == 0 then DEFAULT_START else startLen;
      data := new Byte[start](_ => 0);
      head, used, actuallyUsed, loops := 0, 0, 0, 0;
      this.maxLen, dynamic, partition := maxLen, true, false;
      this.blockSize := if blockSize == 0 then start else blockSize;
      accepted, taken := [], [];
    }

    /** A partition reads somebody else's bytes and takes no writes. */
    constructor Partition(bytes: array<Byte>)
      ensures Valid() && partition && data == bytes && Contents() == bytes[..] && loops == 0
    {
      data := bytes;
      head, used, actuallyUsed, loops := 0, bytes.Length, bytes.Length, 0;
      maxLen, blockSize, dynamic, partition := 0, 0, false, true;
      accepted, taken := bytes[..], [];
    }

    method ResetPartition() returns (ok: bool)
      requires Valid()
      modifies this
      ensures Valid() && ok == partition && data == old(data) && loops == old(loops)
      ensures ok ==> Contents() == data[..] && head == 0
      ensures !ok ==> Contents() == old(Contents()) && accepted == old(accepted) && taken == old(taken)
    {
      if !partition { return false; }
      head, used, actuallyUsed := 0, data.Length, data.Length;
      accepted, taken := data[..], [];
      return true;
    }

    method SetPartition(bytes: array<Byte>) returns (ok: bool)
      requires Valid()
      modifies this
      ensures Valid() && ok == partition && loops == old(loops)
      ensures ok ==> data == bytes && Contents() == bytes[..] && head == 0
      ensures !ok ==> data == old(data) && Contents() == old(Contents()) && accepted == old(accepted) && taken == old(taken)
    {
      if !partition { return false; }
      data := bytes;
      head, used, actuallyUsed := 0, 0, 0;
      accepted, taken := [], [];
      ok := ResetPartition();
    }

    // ----- taking bytes out

    method Toss(n: nat) returns (left: nat)
      requires Valid()
      modifies this`head, this`used, this`taken
      ensures Valid() && left == used
      ensures Contents() == old(Contents())[Min(n, old(used))..]
      ensures taken == old(taken) + old(Contents())[..Min(n, old(used))]
    {
      hide History;
      if used < 1 { used := 0; return 0; }
      var reading := if used >= n then n else used;
      TakingKeeps(accepted, taken, data[..], head, actuallyUsed, reading);
      taken := taken + Contents()[..reading];
      used, head := used - reading, head + reading;
      return used;
    }

    method Peek(out: array<Byte>, n: nat) returns (reading: nat)
      requires Valid() && n <= out.Length && out != data
      modifies out
      ensures reading == Min(n, used)
      ensures out[..reading] == Contents()[..reading] && out[reading..] == old(out[reading..])
    {
      if used < 1 { return 0; }
      reading := if used >= n then n else used;
      CopyBytes(out, 0, data, head, reading);
    }

    method Read(out: array<Byte>, n: nat) returns (reading: nat)
      requires Valid() && n <= out.Length && out != data
      modifies this`head, this`used, this`taken, out
      ensures Valid() && reading == Min(n, old(used)) && head == old(head) + reading
      ensures out[..reading] == old(Contents())[..reading] && out[reading..] == old(out[reading..])
      ensures Contents() == old(Contents())[reading..]
      ensures taken == old(taken) + out[..reading]
    {
      hide History;
      if used < 1 { used := 0; return 0; }
      reading := if used >= n then n else used;
      CopyBytes(out, 0, data, head, reading);
      TakingKeeps(accepted, taken, data[..], head, actuallyUsed, reading);
      taken := taken + Contents()[..reading];
      used, head := used - reading, head + reading;
    }

    method Zero()
      requires Valid()
      modifies this`head, this`used, this`actuallyUsed, this`taken
      ensures Valid() && Contents() == [] && used == 0 && taken == accepted
    {
      taken := taken + Contents();
      used, actuallyUsed, head := 0, 0, 0;
    }

    // ----- putting bytes in

    /** Moves the content to the front; nobody looking at the content can tell. */
    method Compact()
      requires Valid()
      modifies this`head, this`actuallyUsed, data
      ensures Valid() && head == 0 && Contents() == old(Contents())
    {
      hide History;
      ghost var bytes := data[..];
      MoveToFront(data, head, used);
      MovingKeeps(accepted, taken, bytes, head, actuallyUsed, data[..]);
      head, actuallyUsed := 0, used;
    }

    /** Growing keeps every byte of a compacted buffer where it was. */
    method Grow(n: nat)
      requires Valid() && head == 0
      modifies this`data
      ensures Valid() && fresh(data) && Contents() == old(Contents())
      ensures data.Length == old(data.Length) + (if blockSize > n then blockSize else n)
    {
      hide History;
      var newSize := data.Length + n;
      var newBlockSize := data.Length + blockSize;
      if newBlockSize > newSize { newSize := newBlockSize; }
      var tmp := new Byte[newSize](_ => 0);
      CopyBytes(tmp, 0, data, 0, data.Length);
      assert tmp[..][..used] == data[..][0..used];
      MovingKeeps(accepted, taken, data[..], 0, used, tmp[..]);
      data := tmp;
    }

    method Append(src: array?<Byte>, n: nat)
      requires Valid() && used + head + n <= data.Length && (src != null ==> n <= src.Length && src != data)
      modifies this`used, this`actuallyUsed, this`accepted, data
      ensures Valid() && used == old(used) + n
      ensures Contents() == old(Contents()) + old(Source(src, n)) && accepted == old(accepted) + old(Source(src, n))
    {
      ghost var bytes, before := Source(src, n), data[..];
      assert |bytes| == n;
      hide History; hide Source;
      PutBytes(data, head + used, src, n);
      AddingKeeps(accepted, taken, before, head, actuallyUsed, bytes, data[..]);
      used, actuallyUsed := used + n, actuallyUsed + n;
      accepted := accepted + bytes;
    }

    /** All or nothing: the bytes are appended, or the content stays as it was. */
    method Write(src: array?<Byte>, n: nat) returns (w: nat)
      requires Valid() && (src != null ==> n <= src.Length && src != data)
      modifies this`data, this`head, this`used, this`actuallyUsed, this`accepted, data
      ensures Valid()
      ensures Contents() == old(Contents()) + if old(Accepts(n)) then old(Source(src, n)) else []
      ensures accepted == old(accepted) + if old(Accepts(n)) then old(Source(src, n)) else []
      ensures w == if old(Accepts(n)) then used else 0
      ensures fresh(data) || data == old(data)
      ensures !dynamic || n == 0 || !old(Accepts(n)) ==> data == old(data)
      ensures !partition && n > 0 ==>
        (w > 0 <==> old(used) + n <= old(data.Length) || (dynamic && (maxLen == 0 || old(used) + n <= maxLen)))
      ensures data.Length == old(data.Length) +
        if old(!partition && n > 0 && dynamic && used + n > data.Length && (maxLen == 0 || used + n <= maxLen))
        then (if blockSize > n then blockSize else n) else 0
    {
      hide History;
      if partition { return 0; }
      if n == 0 { return used; }
      ghost var bytes := Source(src, n);
      if data.Length - actuallyUsed < n { Compact(); }
      if dynamic && data.Length - used < n && (maxLen == 0 || used + n <= maxLen) { Grow(n); }
      if data.Length - used < n { return 0; }
      Append(src, n);
      return used;
    }

    /** Starts over with the new bytes when they do not fit behind the old ones. */
    method ZeroWrite(src: array?<Byte>, n: nat) returns (w: nat)
      requires Valid() && (src != null ==> n <= src.Length && src != data)
      modifies this`data, this`head, this`used, this`actuallyUsed, this`accepted, this`taken, data
      ensures Valid() && (fresh(data) || data == old(data))
      ensures old(accepted) <= accepted && (w == 0 ==> accepted == old(accepted))
      ensures partition ==> w == 0 && Contents() == old(Contents())
      ensures !partition && old(Accepts(n)) ==>
        w == used && Contents() == old(Contents()) + old(Source(src, n))
      ensures !partition && !old(Accepts(n)) ==>
        if n <= old(data.Length) || (dynamic && n <= maxLen)
        then w == used == n && Contents() == old(Source(src, n))
        else w == 0 && Contents() == []
    {
      hide History;
      if partition { return 0; }
      w := Write(src, n);
      if w == 0 {
        Zero();
        w := Write(src, n);
      }
    }

    /** Gives up the oldest bytes when there is no room: what stays is a suffix of
        the old content followed by all of the new. */
    method SlideWrite(src: array?<Byte>, n: nat) returns (w: nat)
      requires Valid() && (src != null ==> n <= src.Length && src != data)
      modifies this`data, this`head, this`used, this`actuallyUsed, this`accepted, this`taken, data
      ensures Valid() && (fresh(data) || data == old(data))
      ensures old(accepted) <= accepted && (w == 0 ==> accepted == old(accepted))
      ensures partition ==> w == 0 && Contents() == old(Contents())
      ensures !partition && old(Accepts(n)) ==>
        w == used && Contents() == old(Contents()) + old(Source(src, n))
      ensures !partition && !old(Accepts(n)) ==>
        var kept := old(Contents())[Min(n, old(used))..];
        if n <= old(data.Length) || (dynamic && n <= maxLen)
        then w == used > 0 && Contents() == kept + old(Source(src, n))
        else w == 0 && Contents() == kept
    {
      hide History;
      if partition { return 0; }
      ghost var before, bytes := Contents(), Source(src, n);
      hide Source;
      w := Write(src, n);
      if w == 0 {
        assert Contents() == before;
        w := TossAndWrite(src, n);
        assert Contents() == before[Min(n, |before|)..] + (if n <= old(data.Length) || (dynamic && n <= maxLen) then bytes else []);
      }
    }

    method TossAndWrite(src: array?<Byte>, n: nat) returns (w: nat)
      requires Valid() && !partition && (src != null ==> n <= src.Length && src != data)
      requires n > 0 ==> !Accepts(n)
      requires n == 0 ==> used == 0
      modifies this`data, this`head, this`used, this`actuallyUsed, this`accepted, this`taken, data
      ensures Valid() && (fresh(data) || data == old(data))
      ensures old(accepted) <= accepted && (w == 0 ==> accepted == old(accepted))
      ensures var fits := n <= old(data.Length) || (dynamic && n <= maxLen);
        && Contents() == old(Contents())[Min(n, old(used))..] + (if fits then old(Source(src, n)) else [])
        && w == if fits then used else 0
    {
      hide History;
      var left := Toss(n);
      w := Write(src, n);
    }

    // ----- reading in a loop

    ghost function AsTape(): Tape
      reads this, data
      requires head <= actuallyUsed <= data.Length
    {
      Tape(data[..][..actuallyUsed], head, loops)
    }

    method SetLoops(n: int)
      requires Valid()
      modifies this`loops
      ensures Valid() && loops == n
    {
      loops := n;
    }

    /** Puts back every byte taken since the buffer was last empty or compacted. */
    method Rewind()
      requires Valid()
      modifies this`head, this`used, this`taken
      ensures Valid() && AsTape() == old(AsTape()).(pos := 0)
    {
      hide History;
      RewindingKeeps(accepted, taken, data[..], head, actuallyUsed);
      taken := taken[..|taken| - head];
      head, used := 0, actuallyUsed;
    }

    method ReadLoop(out: array<Byte>, n: nat) returns (len: nat)
      requires Valid() && n <= out.Length && out != data
      modifies this`head, this`used, this`taken, this`loops, out
      ensures Valid() && len <= n
      ensures (out[..len], AsTape()) == LoopRead(old(AsTape()), n)
      ensures out[len..] == old(out[len..])
    {
      hide History;
      TakeMatches(data[..], head, actuallyUsed, loops, n);
      len := Read(out, n);
      if len == 0 {
        if loops > 0 { loops := loops - 1; }
        if loops == 0 { return 0; }
        Rewind();
        TakeMatches(data[..], head, actuallyUsed, loops, n);
        len := Read(out, n);
      }
    }
  }
}
