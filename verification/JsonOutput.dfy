/** The self-growing output buffer of the serializer. */
module JsonOutput {

  import opened JsonText

  /** `snprintf`: write `text` at `off` into `size` bytes, cut off if need be, with a terminator;
      the length of the whole text is returned. */
  method Snprintf(dst: array<char>, off: nat, size: nat, text: string) returns (len: int)
    requires off + size <= dst.Length
    modifies dst
    ensures len == |text|
    ensures dst[..off] == old(dst[..off]) && dst[off + size..] == old(dst[off + size..])
    ensures len < size ==> dst[..off + len] == old(dst[..off]) + text && dst[off + len] == NUL
  {
    if size > 0 {
      var n := if |text| < size then |text| else size - 1;
      ghost var tail := dst[off + size..];
      JsonText.Store(dst, off, text[..n]);
      assert dst[off + size..] == dst[off + n..][size - n..] == tail;
      dst[off + n] := NUL;
      assert dst[..off] == dst[..off + n][..off];
    }
    len := |text|;
  }

  const DOUBLING_LIMIT: nat := 1024 * 1024 * 1024

  function Larger(size: nat): (r: nat)
    ensures size > 0 ==> r > size
  {
    if size < DOUBLING_LIMIT then size * 2 else size + 10 * 1024 * 1024
  }

  /** `base` is the buffer; what was written ends at `offset`, and `remain` more bytes and a
      terminator fit. */
  class Output {
    var base: array<char>
    var offset: nat
    var remain: int

    predicate Valid()
      reads this
    {
      0 <= remain && offset + remain + 1 == base.Length
    }

    function Written(): string
      reads this, base
      requires Valid()
    {
      base[..offset]
    }

    /** No buffer yet: allocate one of the suggested size. */
    constructor (suggested: int)
      ensures Valid() && fresh(base) && Written() == [] && base[offset] == NUL
      ensures base.Length == if suggested > 0 then suggested else 1024
    {
      var size := if suggested > 0 then suggested else 1024;
      base := new char[size](_ => NUL);
      offset := 0;
      remain := size - 1;
    }

    /** A buffer of the caller, of which the last `room` bytes and a terminator are free. */
    constructor Reuse(buffer: array<char>, room: int)
      requires 0 <= room < buffer.Length
      ensures Valid() && base == buffer && remain == room && Written() == buffer[..buffer.Length - 1 - room]
    {
      base := buffer;
      offset := buffer.Length - 1 - room;
      remain := room;
    }

    /** `realloc`, and zero the part behind what was written. */
    method Grow()
      requires Valid()
      modifies this
      ensures Valid() && fresh(base) && offset == old(offset) && remain > old(remain)
      ensures base.Length == if old(base.Length) < 0x40000000 then 2 * old(base.Length) else old(base.Length) + 0xA00000
      ensures Written() == old(Written()) && forall i :: offset <= i < base.Length ==> base[i] == NUL
    {
      var was := base;
      var size := Larger(was.Length);
      var n := offset;
      base := new char[size](i requires 0 <= i reads this, was => if i < n && i < was.Length then was[i] else NUL);
      remain := remain + (size - was.Length);
      assert base[..offset] == was[..offset];
    }

    /** Append a text: print it, and while it did not fit, grow and print it again. */
    method Emit(text: string)
      requires Valid()
      modifies this, base
      ensures Valid() && (base == old(base) || fresh(base)) && base[offset] == NUL
      ensures Written() == old(Written()) + text
    {
      var len := Snprintf(base, offset, remain, text);
      while remain <= len
        invariant Valid() && (base == old(base) || fresh(base)) && offset == old(offset)
        invariant len == |text| && base[..offset] == old(Written())
        invariant len < remain ==> base[..offset + len] == old(Written()) + text && base[offset + len] == NUL
        decreases len - remain
      {
        Grow();
        len := Snprintf(base, offset, remain, text);
      }
      offset := offset + len;
      remain := remain - len;
    }

    /** Append a text with escapes; nothing is written for the empty text. */
    method EmitEscaped(text: string)
      requires Valid()
      modifies this, base
      ensures Valid() && (base == old(base) || fresh(base))
      ensures Written() == old(Written()) + Escape(text)
      ensures old(base[offset]) == NUL ==> base[offset] == NUL
    {
      hide Escape;
      EscapeNone();
      var len := Expand(text, base, offset, remain);
      while len < 0 || remain <= len
        invariant Valid() && (base == old(base) || fresh(base)) && offset == old(offset)
        invariant len == if |Escape(text)| > remain then -1 else |Escape(text)|
        invariant base[..offset] == old(Written())
        invariant len >= 0 ==> base[..offset + len] == old(Written()) + Escape(text)
        invariant if text == [] then old(base[offset]) == NUL ==> base[offset] == NUL
          else len >= 0 ==> base[offset + len] == NUL
        decreases |Escape(text)| - remain
      {
        Grow();
        len := Expand(text, base, offset, remain);
      }
      offset := offset + len;
      remain := remain - len;
    }
  }
}
