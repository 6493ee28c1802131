/** The ways to print a tree: into a buffer of the printer's own, one of a size the
    caller suggests, or one the caller owns. They leave the same text. */
module Printing {
  import opened Trees
  import opened JsonStrings
  import opened Rendering
  import opened PrintBuffers

  const DEFAULT_SIZE := 256

  /** The text and the NUL behind it, in an array of exactly that size. */
  method Print(io: NumberIo, j: Json, fmt: bool, reallocates: bool) returns (printed: array?<char>)
    requires CStrings(io, j)
    ensures printed != null <==> Typed(j) && |Render(io, j, fmt, 0)| + 2 <= INT_MAX
    ensures printed != null ==> printed[..] == Render(io, j, fmt, 0) + "\0"
  {
    hide Render; hide Typed; hide CStrings;
    var space := new char[DEFAULT_SIZE];
    var b := new PrintBuffer(space, space.Length, false, fmt, reallocates);
    assert b.Written() == [];
    ghost var text := Render(io, j, fmt, 0);
    var ok := b.PrintValue(io, j);
    if !ok { return null; }
    assert [] + text == text;
    RenderNulFree(io, j, fmt, 0);
    NulFreeTail([], text, b.offset);
    b.UpdateOffset(text);
    printed := Trim(b.buffer, b.offset, text);
  }

  /** Keeps what is in use. */
  method Trim(buffer: array<char>, offset: nat, ghost text: string) returns (printed: array<char>)
    requires Holds(buffer[..], text) && offset == |text|
    ensures printed[..] == text + "\0"
  {
    printed := new char[offset + 1];
    var i := 0;
    while i < offset + 1
      invariant 0 <= i <= offset + 1 && buffer[..] == old(buffer[..])
      invariant printed[..i] == buffer[..i]
    {
      printed[i] := buffer[i];
      i := i + 1;
    }
    assert printed[..] == printed[..i] == buffer[..][..offset] + [buffer[offset]];
  }

  method PrintBuffered(io: NumberIo, j: Json, prebuffer: int, fmt: bool, reallocates: bool) returns (printed: array?<char>)
    requires CStrings(io, j) && prebuffer != 0 && prebuffer <= INT_MAX
    ensures printed != null <==> prebuffer > 0 && Typed(j) && |Render(io, j, fmt, 0)| + 2 <= INT_MAX
    ensures printed != null ==> Holds(printed[..], Render(io, j, fmt, 0))
  {
    hide Render; hide Typed; hide CStrings;
    if prebuffer < 0 { return null; }
    var space := new char[prebuffer];
    var b := new PrintBuffer(space, space.Length, false, fmt, reallocates);
    assert b.Written() == [] && [] + Render(io, j, fmt, 0) == Render(io, j, fmt, 0);
    var ok := b.PrintValue(io, j);
    if !ok { return null; }
    return b.buffer;
  }

  /** Succeeds exactly when the length given leaves two characters more than the text
      needs. Nothing is written behind that length, whatever the outcome. */
  method PrintPreallocated(io: NumberIo, j: Json, buf: array?<char>, len: int, fmt: bool) returns (ok: bool)
    requires CStrings(io, j) && len <= INT_MAX && (buf != null ==> len <= buf.Length)
    modifies buf
    ensures ok <==> buf != null && Typed(j) && |Render(io, j, fmt, 0)| + 2 <= len
    ensures ok ==> Holds(buf[..len], Render(io, j, fmt, 0))
    ensures buf != null ==> forall i :: 0 <= i < buf.Length && len <= i ==> buf[i] == old(buf[i])
  {
    hide Render; hide Typed; hide CStrings;
    if len <= 0 || buf == null { return false; }
    var b := new PrintBuffer(buf, len, true, fmt, false);
    ghost var text := Render(io, j, fmt, 0);
    assert b.Written() == [] && [] + text == text;
    ok := b.PrintValue(io, j);
    if ok { assert buf[..len][..|text|] == buf[..][..|text|]; }
  }
}
