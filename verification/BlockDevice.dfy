/** drivers/block_device.c: byte reads over a device of fixed-size blocks. */
module BlockDevice {
  import opened Machine

  const MAX_BLOCK_SIZE: nat := 512

  /** A partition: block lba of it is block start + lba of the disk. */
  datatype Device = Device(blockSize: nat, start: nat, blocks: seq<seq<byte>>)

  ghost predicate DeviceOk(dev: Device) {
    dev.blockSize > 0 && dev.start <= |dev.blocks| && forall i :: 0 <= i < |dev.blocks| ==> |dev.blocks[i]| == dev.blockSize
  }

  /** The partition ends behind the last whole block. */
  ghost predicate Inside(dev: Device, offset: nat, size: nat) {
    offset + size <= Bytes(|dev.blocks| - dev.start, dev.blockSize)
  }

  ghost function Bytes(blocks: int, blockSize: nat): int {
    blocks * blockSize
  }

  function Block(dev: Device, lba: nat): seq<byte>
    requires DeviceOk(dev) && dev.start + lba < |dev.blocks|
    ensures |Block(dev, lba)| == dev.blockSize
  {
    dev.blocks[dev.start + lba]
  }

  /** Byte `offset` of the partition, blocks laid end to end. */
  ghost function FlatByte(dev: Device, offset: nat): byte
    requires DeviceOk(dev)
  {
    var lba := offset / dev.blockSize;
    if dev.start + lba < |dev.blocks| then Block(dev, lba)[offset % dev.blockSize] else 0
  }

  /** `size` bytes from `offset` on. */
  ghost function FlatRange(dev: Device, offset: nat, size: nat): seq<byte>
    requires DeviceOk(dev)
  {
    seq<byte>(size, i requires i >= 0 => FlatByte(dev, offset + i))
  }

  /** The first n bytes of a buffer are the flat bytes from `offset` on. */
  ghost predicate Holds(dev: Device, offset: nat, buf: seq<byte>, n: nat)
    requires DeviceOk(dev)
  {
    n <= |buf| && forall i :: 0 <= i < n ==> buf[i] == FlatByte(dev, offset + i)
  }

  lemma Divided(lba: nat, j: nat, size: nat)
    requires j < size
    ensures (lba * size + j) / size == lba && (lba * size + j) % size == j
  {
    var x := lba * size + j;
    var q := x / size;
    assert x == size * q + x % size;
    assert q > lba ==> size * q >= size * (lba + 1);
    assert q < lba ==> size * q <= size * (lba - 1);
  }

  /** Where byte j of block lba is in the flat view. */
  lemma FlatInBlock(dev: Device, lba: nat, j: nat)
    requires DeviceOk(dev) && dev.start + lba < |dev.blocks| && j < dev.blockSize
    ensures FlatByte(dev, lba * dev.blockSize + j) == Block(dev, lba)[j]
  {
    Divided(lba, j, dev.blockSize);
  }

  /** Blocks below the end of a range that lies inside the partition exist. */
  lemma BlockExists(dev: Device, lba: nat, offset: nat, size: nat)
    requires DeviceOk(dev) && Inside(dev, offset, size) && Bytes(lba, dev.blockSize) < offset + size
    ensures dev.start + lba < |dev.blocks|
  {
    var count := |dev.blocks| - dev.start;
    assert lba >= count ==> lba * dev.blockSize >= count * dev.blockSize;
  }

  /** memcpy of n bytes, from place `from` of a block to place `at` of the buffer. */
  method CopyBytes(buf: array<byte>, at: nat, block: seq<byte>, from: nat, n: nat)
    requires at + n <= buf.Length && from + n <= |block|
    modifies buf
    ensures forall i :: 0 <= i < buf.Length ==> buf[i] == if at <= i < at + n then block[from + i - at] else old(buf[i])
  {
    for k := 0 to n
      invariant forall i :: 0 <= i < buf.Length ==> buf[i] == if at <= i < at + k then block[from + i - at] else old(buf[i])
    {
      buf[at + k] := block[from + k];
    }
  }

  /** A piece of block lba extends what the buffer holds. */
  lemma HoldsMore(dev: Device, offset: nat, old': seq<byte>, new': seq<byte>, done: nat, lba: nat, from: nat, n: nat)
    requires DeviceOk(dev) && dev.start + lba < |dev.blocks| && from + n <= dev.blockSize
    requires offset + done == lba * dev.blockSize + from && Holds(dev, offset, old', done)
    requires |new'| == |old'| && done + n <= |new'|
    requires forall i :: 0 <= i < |new'| ==> new'[i] == if done <= i < done + n then Block(dev, lba)[from + i - done] else old'[i]
    ensures Holds(dev, offset, new', done + n)
  {
    hide FlatByte;
    forall i | 0 <= i < done + n ensures new'[i] == FlatByte(dev, offset + i) {
      if i >= done {
        var j := from + i - done;
        FlatInBlock(dev, lba, j);
        assert offset + i == lba * dev.blockSize + j;
      }
    }
  }

  /** read_blk_device_bytes: for any offset and size, the flat bytes; 0 and an untouched buffer for blocks over 512 bytes. */
  method ReadBytes(dev: Device, offset: nat, buf: array<byte>, size: nat) returns (n: nat)
    requires DeviceOk(dev) && Inside(dev, offset, size) && size <= buf.Length
    modifies buf
    ensures dev.blockSize > MAX_BLOCK_SIZE ==> n == 0 && buf[..] == old(buf[..])
    ensures dev.blockSize <= MAX_BLOCK_SIZE ==> n == size && Holds(dev, offset, buf[..], size)
    ensures forall i :: size <= i < buf.Length ==> buf[i] == old(buf[i])
  {
    if dev.blockSize > MAX_BLOCK_SIZE {
      return 0;
    }
    hide FlatByte, Bytes;
    var done, lba := ReadHead(dev, offset, buf, size);
    while size - done >= dev.blockSize
      invariant done <= size && Holds(dev, offset, buf[..], done)
      invariant done < size ==> Bytes(lba, dev.blockSize) == offset + done
      invariant forall i :: size <= i < buf.Length ==> buf[i] == old(buf[i])
    {
      ReadPiece(dev, offset, buf, size, done, lba, dev.blockSize);
      NextBlock(lba, dev.blockSize);
      done, lba := done + dev.blockSize, lba + 1;
    }
    if done == size {
      return size;
    }
    ReadPiece(dev, offset, buf, size, done, lba, size - done);
    return size;
  }

  lemma NextBlock(lba: nat, size: nat)
    ensures Bytes(lba + 1, size) == Bytes(lba, size) + size
  {
  }

  /** The bytes before the first block boundary. */
  method ReadHead(dev: Device, offset: nat, buf: array<byte>, size: nat) returns (done: nat, lba: nat)
    requires DeviceOk(dev) && Inside(dev, offset, size) && size <= buf.Length
    modifies buf
    ensures done <= size && Holds(dev, offset, buf[..], done) && (done < size ==> Bytes(lba, dev.blockSize) == offset + done)
    ensures forall i :: size <= i < buf.Length ==> buf[i] == old(buf[i])
  {
    done, lba := 0, offset / dev.blockSize;
    var head := offset % dev.blockSize;
    assert offset == lba * dev.blockSize + head;
    if head > 0 {
      var n := dev.blockSize - head;
      if n > size {
        n := size;
      }
      HeadExists(dev, lba, head, offset, size);
      ghost var was := buf[..];
      CopyBytes(buf, 0, Block(dev, lba), head, n);
      HoldsMore(dev, offset, was, buf[..], 0, lba, head, n);
      NextBlock(lba, dev.blockSize);
      done, lba := n, lba + 1;
    }
  }

  lemma HeadExists(dev: Device, lba: nat, head: nat, offset: nat, size: nat)
    requires DeviceOk(dev) && Inside(dev, offset, size) && offset == lba * dev.blockSize + head && head > 0
    ensures dev.start + lba < |dev.blocks|
  {
    BlockExists(dev, lba, offset, size);
  }

  /** `n` bytes from the start of block lba. */
  method ReadPiece(dev: Device, offset: nat, buf: array<byte>, size: nat, done: nat, lba: nat, n: nat)
    requires DeviceOk(dev) && Inside(dev, offset, size) && size <= buf.Length && 0 < n <= dev.blockSize && done + n <= size
    requires Holds(dev, offset, buf[..], done) && Bytes(lba, dev.blockSize) == offset + done
    modifies buf
    ensures Holds(dev, offset, buf[..], done + n)
    ensures forall i :: size <= i < buf.Length ==> buf[i] == old(buf[i])
  {
    hide FlatByte;
    BlockExists(dev, lba, offset, size);
    ghost var was := buf[..];
    CopyBytes(buf, done, Block(dev, lba), 0, n);
    HoldsMore(dev, offset, was, buf[..], done, lba, 0, n);
  }

  /** A buffer that holds a range is that range. */
  lemma HoldsRange(dev: Device, offset: nat, buf: seq<byte>, n: nat)
    requires DeviceOk(dev) && Holds(dev, offset, buf, n)
    ensures buf[..n] == FlatRange(dev, offset, n)
  {
  }
}
