/** Byte and page helpers (sys/util.c), as the code has them: page_round_up rounds down,
    page_round_down rounds up, and my_memset writes one byte more than asked. */
module Util {
  import opened Basics

  /** page_round_up: the start of the page, except that the first page is left alone. */
  function PageRoundUp(a: nat): (r: nat)
    requires a < WORD_LIMIT
    ensures r <= a
    ensures (r % PAGE == 0 && a - r < PAGE) <==> !(0 < a < PAGE)
  {
    if a < PAGE then a else a - a % PAGE
  }

  /** page_round_down: the next page boundary at or above, in 64 bits. */
  function PageRoundDown(a: nat): (r: nat)
    requires a < WORD_LIMIT
    ensures r % PAGE == 0 && (a + PAGE <= WORD_LIMIT ==> a <= r < a + PAGE)
  {
    var b := (a + 0xFFF) % WORD_LIMIT;
    b - b % PAGE
  }

  /** my_memset with value 0 on `n` bytes from `at`: nothing for n = 0, otherwise n + 1. */
  method MemZero(s: array<bv8>, at: nat, n: nat)
    requires n != 0 ==> at + n < s.Length
    modifies s
    ensures forall i | 0 <= i < s.Length ::
              s[i] == if n != 0 && at <= i <= at + n then 0 else old(s[i])
  {
    if n == 0 {
      return;
    }
    var i := 0;
    while i < n
      invariant i <= n
      invariant forall j | 0 <= j < s.Length :: s[j] == if at <= j < at + i then 0 else old(s[j])
    {
      s[at + i] := 0;
      i := i + 1;
    }
    s[at + i] := 0;
  }

  /** my_memcpy: a negative length copies nothing. */
  method MemCopy(dest: array<bv8>, at: nat, src: seq<bv8>, from: nat, n: int)
    requires 0 < n ==> at + n <= dest.Length && from + n <= |src|
    modifies dest
    ensures forall i | 0 <= i < dest.Length ::
              dest[i] == if at <= i < at + n then src[from + (i - at)] else old(dest[i])
  {
    var i := 0;
    while i < n
      invariant 0 <= i && (i <= n || i == 0)
      invariant forall j | 0 <= j < dest.Length ::
                  dest[j] == if at <= j < at + i then src[from + (j - at)] else old(dest[j])
    {
      dest[at + i] := src[from + i];
      i := i + 1;
    }
  }
}
