/** What several parts of the kernel have in common. */
module Basics {
  const PAGE: nat := 4096

  const WORD_LIMIT: nat := 0x1_0000_0000_0000_0000

  /** Where the kernel's half of every address space begins to be mapped. */
  const KERNBASE: nat := 0xFFFF_FFFF_8000_0000

  /** An entry of the region list, from `lo` up to and not including `hi`.  Nothing in the type
      keeps `lo` below `hi`: the entry of the stack has them the other way round. */
  datatype Span = Span(lo: nat, hi: nat)

  ghost predicate NoDup<T>(q: seq<T>)
  {
    forall i, j | 0 <= i < j < |q| :: q[i] != q[j]
  }
}
