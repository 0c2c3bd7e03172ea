// The growing byte buffer of buffer.c.

module GitBuffer {
  import opened Bytes
  import opened Options

  // What a decoder has written, and what is still to come of it, if that can be decoded.
  function Prefixed(done: bytes, more: Option<bytes>): Option<bytes> {
    if more.Some? then Some(done + more.value) else None
  }

  lemma PrefixedNone(before: bytes, r: Option<bytes>)
    ensures Prefixed(before, r) == if r.None? then None else Some(before + r.value)
  {}

  lemma PrefixedByNothing(r: Option<bytes>)
    ensures Prefixed([], r) == r
  {
    assert r.Some? ==> [] + r.value == r.value;
  }

  lemma Regroup(a: bytes, b: bytes, c: bytes)
    ensures a + (b + c) == (a + b) + c
  {}

  method Store(ptr: array<byte>, at: nat, t: bytes)
    requires at + |t| <= ptr.Length
    modifies ptr
    ensures ptr[..at + |t|] == old(ptr[..at]) + t
  {
    forall k | 0 <= k < |t| {
      ptr[at + k] := t[k];
    }
  }

  class Buffer {
    var ptr: array<byte>
    var asize: nat
    var size: nat

    // The contents are followed by a NUL. A buffer without an allocation is empty.
    ghost predicate Valid()
      reads this, ptr
    {
      size < ptr.Length && ptr[size] == 0 && (if asize == 0 then size == 0 else asize == ptr.Length)
    }

    ghost function Contents(): bytes
      requires Valid()
      reads this, ptr
    {
      ptr[..size]
    }

    // GIT_BUF_INIT
    constructor ()
      ensures Valid() && Contents() == [] && fresh(ptr)
    {
      ptr := new byte[1](_ => 0);
      asize, size := 0, 0;
    }

    // git_buf_grow: by a half until it is enough, then up to a multiple of 8.
    method Grow(target: nat)
      requires Valid() && target > asize
      modifies this
      ensures Valid() && Contents() == old(Contents()) && fresh(ptr)
      ensures target <= asize && asize % 8 == 0
    {
      var newSize := if asize == 0 then target else asize;
      while newSize < target
        invariant 0 < newSize && asize <= newSize
        decreases target - newSize
      {
        newSize := newSize * 2 - newSize / 2;
      }
      newSize := (newSize + 7) / 8 * 8;
      var newPtr := new byte[newSize](_ => 0);
      forall k | 0 <= k < size {
        newPtr[k] := ptr[k];
      }
      ptr, asize := newPtr, newSize;
    }

    // ENSURE_SIZE
    method EnsureSize(target: nat)
      requires Valid()
      modifies this
      ensures Valid() && Contents() == old(Contents()) && size == old(size)
      ensures target <= asize && (ptr == old(ptr) || fresh(ptr))
    {
      if target > asize {
        Grow(target);
      }
    }

    // The NUL behind what has been written.
    method Terminate()
      requires size < ptr.Length == asize
      modifies ptr
      ensures Valid() && Contents() == old(ptr[..size])
    {
      ptr[size] := 0;
    }

    // git_buf_putc
    method Putc(c: byte)
      requires Valid()
      modifies this, ptr
      ensures Valid() && (ptr == old(ptr) || fresh(ptr))
      ensures Contents() == old(Contents()) + [c]
    {
      EnsureSize(size + 2);
      ptr[size] := c;
      size := size + 1;
      ptr[size] := 0;
    }

    // git_buf_put
    method Put(data: bytes)
      requires Valid()
      modifies this, ptr
      ensures Valid() && (ptr == old(ptr) || fresh(ptr))
      ensures Contents() == old(Contents()) + data
    {
      if |data| > 0 {
        EnsureSize(size + |data| + 1);
        forall k | 0 <= k < |data| {
          ptr[size + k] := data[k];
        }
        size := size + |data|;
        ptr[size] := 0;
      }
    }
  }
}
