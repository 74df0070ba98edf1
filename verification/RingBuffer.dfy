/** utils/libc_tz/ring_buffer.c: a bounded first-in first-out byte queue that keeps one slot free. */
module RingBuffer {
  import opened Machine

  /** Position i places behind `start` in a ring of n slots. */
  ghost function At(start: nat, i: nat, n: nat): nat {
    if start + i < n then start + i else start + i - n
  }

  /** The next slot, as the source computes it. */
  function Following(i: nat, n: nat): (k: nat)
    requires i < n
    ensures k == At(i, 1, n)
  {
    (i + 1) % n
  }

  /** ring_buffer_init; a ring without slots is refused. */
  method InitRing(size: nat) returns (ring: Ring?)
    ensures ring == null <==> size == 0
    ensures ring != null ==> ring.Valid() && fresh(ring) && fresh(ring.buffer) && ring.buffer.Length == size && ring.contents == []
  {
    if size == 0 {
      return null;
    }
    ring := new Ring(size);
  }

  class Ring {
    const buffer: array<byte>
    var writePtr: nat
    var readPtr: nat
    /** The bytes pushed and not yet popped, oldest first. */
    ghost var contents: seq<byte>

    ghost predicate Valid()
      reads this, buffer
    {
      && readPtr < buffer.Length && writePtr == At(readPtr, |contents|, buffer.Length) && |contents| < buffer.Length
      && forall i :: 0 <= i < |contents| ==> buffer[At(readPtr, i, buffer.Length)] == contents[i]
    }

    constructor (size: nat)
      requires size > 0
      ensures Valid() && fresh(buffer) && buffer.Length == size && contents == []
    {
      buffer := new byte[size];
      writePtr, readPtr := 0, 0;
      contents := [];
    }

    /** A push succeeds unless size - 1 bytes are stored. */
    method Push(data: byte) returns (ok: bool)
      requires Valid()
      modifies this, buffer
      ensures Valid() && ok == (|old(contents)| < buffer.Length - 1)
      ensures contents == if ok then old(contents) + [data] else old(contents)
    {
      hide Following;
      if Following(writePtr, buffer.Length) == readPtr {
        return false;
      }
      buffer[writePtr] := data;
      writePtr := Following(writePtr, buffer.Length);
      contents := contents + [data];
      return true;
    }

    /** A pop takes the oldest byte. */
    method Pop() returns (ok: bool, data: byte)
      requires Valid()
      modifies this
      ensures Valid() && ok == (old(contents) != [])
      ensures ok ==> data == old(contents)[0] && contents == old(contents)[1..]
      ensures !ok ==> contents == old(contents)
    {
      hide Following;
      if readPtr == writePtr {
        return false, 0;
      }
      data := buffer[readPtr];
      ghost var start := readPtr;
      readPtr := Following(readPtr, buffer.Length);
      contents := contents[1..];
      forall i | 0 <= i < |contents| ensures At(readPtr, i, buffer.Length) == At(start, i + 1, buffer.Length) {
      }
      return true, data;
    }
  }
}
