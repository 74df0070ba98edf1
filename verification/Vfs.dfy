/** kernel/vfs/vfs.c: open files, their position and their reference count. */
module Vfs {
  import opened Machine

  /** What is behind a file: a FAT12 file, read into memory when opened; the keyboard; the terminal, which reads from the
      keyboard and writes to the screen; a device that can only be written; or the framebuffer, which says it wrote
      nothing. */
  datatype Backing = Regular(data: seq<byte>) | Keyboard | Tty | Output | Framebuffer

  predicate WriteOnly(b: Backing) {
    b == Output || b == Framebuffer
  }

  /** What a write of n bytes to a device returns. */
  function Written(b: Backing, n: u64): u64 {
    if b == Framebuffer then 0 else n
  }

  predicate FromKeyboard(b: Backing) {
    b == Keyboard || b == Tty
  }

  /** struct vfs_file */
  datatype File = File(size: u64, position: u64, refs: nat, backing: Backing)

  /** file_size of a character device: -1 as a uint64_t. */
  const DEVICE_SIZE: u64 := TWO64 - 1

  /** vfs_open, once the file system has produced the node. */
  function Opened(size: u64, backing: Backing): File {
    File(size, 0, 1, backing)
  }

  datatype Whence = Set | Cur | End

  /** A uint64_t read as int64_t. */
  function Signed(x: u64): int {
    if x < TWO64 / 2 then x else x - TWO64
  }

  /** Where a seek wants to go. */
  function Target(f: File, offset: int, whence: Whence): int {
    match whence
    case Set => offset
    case Cur => Signed(f.position) + offset
    case End => Signed(f.size) + offset
  }

  /** vfs_seek: the result, or -1 with the position kept; a device, whose size reads as -1, cannot be sought. */
  function Seek(f: File, offset: int, whence: Whence): (r: (File, int))
    ensures r.1 != -1 <==> 0 <= Target(f, offset, whence) <= Signed(f.size)
    ensures r.1 == -1 ==> r.0 == f
    ensures r.1 != -1 ==> r.1 == Target(f, offset, whence) && r.0 == f.(position := r.1)
    ensures f.size == DEVICE_SIZE ==> r == (f, -1)
  {
    var target := Target(f, offset, whence);
    if target < 0 || target > Signed(f.size) then (f, -1) else (f.(position := target), target)
  }

  /** bytes_to_read in vfs_read, with the uint64_t sum as the source computes it. */
  function Clip(f: File, n: u64): u64 {
    if f.position >= f.size then 0
    else if Add64(f.position, n) > f.size then f.size - f.position
    else n
  }

  /** A read stays within the file exactly when position + size does not wrap around. */
  lemma ReadStaysInFile(f: File, n: u64)
    requires f.position < f.size
    ensures f.position + Clip(f, n) <= f.size <==> f.position + n < TWO64
    ensures f.position + n < TWO64 ==> Clip(f, n) == if n <= f.size - f.position then n else f.size - f.position
  {
  }

  lemma ReadPastEnd()
    ensures exists f: File, n: u64 :: f.position < f.size && f.position + Clip(f, n) > f.size
  {
    var f := File(2, 1, 1, Regular([0, 0]));
    assert f.position < f.size && f.position + Clip(f, TWO64 - 1) > f.size;
  }

  /** vfs_close's bookkeeping: one reference fewer; the file is released when none is left. */
  function Dropped(f: File): (r: Option<File>)
    ensures f.refs > 1 ==> r == Some(f.(refs := f.refs - 1))
    ensures f.refs <= 1 ==> r == None
  {
    var refs := if f.refs > 0 then f.refs - 1 else f.refs;
    if refs == 0 then None else Some(f.(refs := refs))
  }
}
