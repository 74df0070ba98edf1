/** Machine-level constants and the unsigned arithmetic the kernel's C code relies on. */
module Machine {
  const TWO64: nat := 0x1_0000_0000_0000_0000
  const TWO32: nat := 0x1_0000_0000
  const PAGE: nat := 0x1000

  /** Where the stack pointer of a program starts. */
  const USER_STACK_PTR: nat := 0x7FFF_FFFF_F000

  datatype Option<+T> = None | Some(value: T)

  type u64 = x: nat | x < TWO64

  type byte = b: int | 0 <= b < 256

  /** uint64_t subtraction. */
  function Sub64(a: nat, b: nat): nat
    requires a < TWO64 && b < TWO64
  {
    if a >= b then a - b else a - b + TWO64
  }

  /** uint64_t addition. */
  function Add64(a: nat, b: nat): nat
    requires a < TWO64 && b < TWO64
  {
    if a + b < TWO64 then a + b else a + b - TWO64
  }

  /** The ALIGN_UP macro evaluated on uint64_t operands: the addition wraps. */
  function AlignUp64(x: nat, align: nat): nat
    requires align > 0
  {
    if x % align == 0 then x else (x + align - x % align) % TWO64
  }

  function Max(a: int, b: int): int {
    if a >= b then a else b
  }

  /** No element occurs twice. */
  ghost predicate NoDup(list: seq<nat>) {
    forall i, j :: 0 <= i < j < |list| ==> list[i] != list[j]
  }

  predicate Within(i: nat, first: nat, count: nat) {
    first <= i < first + count
  }

  /** The numbers first, first + 1, ..., first + count - 1. */
  function Range(first: nat, count: nat): set<nat>
  {
    set i: nat | first <= i < first + count && Within(i, first, count)
  }
}
