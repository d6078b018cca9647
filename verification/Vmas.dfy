/** The list of regions of an address space as values: where a new region goes
    (find_vma_prev), what counts as an overlap, where mmap places a region
    (do_first_fit_search) and how long it makes it (mmap_region); sys/memory.c. */
module Vmas {
  import opened Basics

  /** The four tests of is_overlapping_vma, on an entry of the list and a new one. */
  predicate Overlapping(c: Span, v: Span)
  {
    || (c.lo == v.lo && c.hi == v.lo)
    || (c.lo < v.lo && c.hi > v.hi)
    || (v.lo < c.hi && v.hi >= c.hi)
    || (v.lo <= c.lo && v.hi > c.lo)
  }

  /** Two regions have an address in common. */
  ghost predicate Share(c: Span, v: Span)
  {
    exists a: nat :: InSpan(a, c) && InSpan(a, v)
  }

  predicate InSpan(a: nat, c: Span)
  {
    c.lo <= a < c.hi
  }

  /** On regions that are not empty the tests say whether there is a common address. */
  lemma OverlappingIsShare(c: Span, v: Span)
    requires c.lo < c.hi && v.lo < v.hi
    ensures Overlapping(c, v) <==> Share(c, v)
  {
    if c.lo < v.hi && v.lo < c.hi {
      var a := if c.lo < v.lo then v.lo else c.lo;
      assert InSpan(a, c) && InSpan(a, v);
    }
  }

  /** The list is in order, of regions that are not empty and have nothing in common. */
  ghost predicate Ordered(l: seq<Span>)
  {
    && (forall i | 0 <= i < |l| :: l[i].lo < l[i].hi)
    && (forall i, j | 0 <= i < j < |l| :: l[i].hi <= l[j].lo)
  }

  /** What find_vma_prev finds: an overlap, the number of entries that come before, or no
      place at all, in which case the source leaves its result unset. */
  datatype Place = Overlap | After(count: nat) | Unset

  /** The loop of find_vma_prev from entry `i` on. */
  function PlaceFrom(l: seq<Span>, v: Span, i: nat): (r: Place)
    requires i <= |l|
    decreases |l| - i
  {
    if i == |l| then Unset
    else if Overlapping(l[i], v) then Overlap
    else if i + 1 < |l| && v.lo >= l[i].hi && v.hi <= l[i + 1].lo then After(i + 1)
    else if i + 1 == |l| && v.lo >= l[i].hi then After(i + 1)
    else PlaceFrom(l, v, i + 1)
  }

  function FindPlace(l: seq<Span>, v: Span): (r: Place)
  {
    if l == [] || v.hi <= l[0].lo then After(0) else PlaceFrom(l, v, 0)
  }

  function Inserted(l: seq<Span>, v: Span, k: nat): (r: seq<Span>)
    requires k <= |l|
  {
    l[..k] + [v] + l[k..]
  }

  /** The place is the one right place: everything before ends before the new region starts,
      and everything after starts after it ends. */
  ghost predicate Fits(l: seq<Span>, v: Span, k: nat)
  {
    && k <= |l|
    && (forall i | 0 <= i < k :: l[i].hi <= v.lo)
    && (forall i | k <= i < |l| :: v.hi <= l[i].lo)
  }

  lemma {:induction false} PlaceFromIs(l: seq<Span>, v: Span, i: nat)
    requires Ordered(l) && v.lo < v.hi && i < |l| && l[i].lo < v.hi
    requires forall j | 0 <= j < i :: l[j].hi <= v.lo
    ensures var r := PlaceFrom(l, v, i);
            || (r == Overlap && exists j :: 0 <= j < |l| && Overlapping(l[j], v))
            || (r.After? && Fits(l, v, r.count))
    decreases |l| - i
  {
    if !Overlapping(l[i], v) && i + 1 < |l| && !(v.lo >= l[i].hi && v.hi <= l[i + 1].lo) {
      PlaceFromIs(l, v, i + 1);
    }
  }

  /** On an ordered list the search fails exactly when the new region shares an address with
      an entry, it never leaves its result unset, and otherwise the place it finds is the only
      one that fits. */
  lemma FindPlaceExact(l: seq<Span>, v: Span)
    requires Ordered(l) && v.lo < v.hi
    ensures FindPlace(l, v) == Overlap <==> exists i :: 0 <= i < |l| && Share(l[i], v)
    ensures FindPlace(l, v) != Unset
    ensures FindPlace(l, v).After? ==>
              forall k: nat :: Fits(l, v, k) <==> k == FindPlace(l, v).count
  {
    forall i | 0 <= i < |l|
      ensures Overlapping(l[i], v) <==> Share(l[i], v)
    {
      OverlappingIsShare(l[i], v);
    }
    hide Share;
    if l != [] && l[0].lo < v.hi {
      PlaceFromIs(l, v, 0);
    }
    if FindPlace(l, v).After? {
      var k := FindPlace(l, v).count;
      assert Fits(l, v, k);
      forall j: nat | Fits(l, v, j)
        ensures j == k
      {
        assert j < |l| ==> v.hi <= l[j].lo;
        assert k < |l| ==> v.hi <= l[k].lo;
      }
      forall i | 0 <= i < |l|
        ensures !Overlapping(l[i], v)
      {
      }
    }
  }

  /** Insertion where it fits keeps the list in order. */
  lemma InsertedOrdered(l: seq<Span>, v: Span, k: nat)
    requires Ordered(l) && v.lo < v.hi && Fits(l, v, k)
    ensures Ordered(Inserted(l, v, k))
  {
    var r := Inserted(l, v, k);
    forall i, j | 0 <= i < j < |r|
      ensures r[i].hi <= r[j].lo
    {
      assert r[i] == if i < k then l[i] else if i == k then v else l[i - 1];
      assert r[j] == if j < k then l[j] else if j == k then v else l[j - 1];
    }
  }

  // ---------------------------------------------------------------- placement

  /** The loop of do_first_fit_search: the entry it stops at and the address it has then. */
  function FirstFitFrom(l: seq<Span>, addr: nat, len: nat, i: nat): (r: (nat, nat))
    requires i < |l|
    ensures i <= r.0 < |l|
    decreases |l| - i
  {
    if i + 1 == |l| then (i, addr)
    else if addr >= l[i].hi && addr + PAGE + len <= l[i + 1].lo then (i, addr)
    else FirstFitFrom(l, l[i + 1].hi + 1, len, i + 1)
  }

  datatype Address = Nowhere | At(addr: nat)

  /** get_unmapped_area: a hint of 0 stands for a third of the way up to the kernel. */
  function Hint(addr: nat): (r: nat)
  {
    if addr == 0 then KERNBASE / 3 else addr
  }

  function FirstFit(l: seq<Span>, addr: nat, len: nat): (r: Address)
    requires l != []
  {
    if addr < l[0].lo && addr + len < l[0].hi then At(addr)
    else
      var f := FirstFitFrom(l, addr, len, 0);
      if f.0 + 1 < |l| then At(f.1)
      else if l[f.0].hi + len > KERNBASE then Nowhere
      else At(l[f.0].hi + 1)
  }

  /** Where the search would put the region after entry `j`. */
  function Candidate(l: seq<Span>, hint: nat, j: nat): (r: nat)
    requires j < |l|
  {
    if j == 0 then hint else l[j].hi + 1
  }

  /** There is room at the candidate, with a page to spare before the next entry. */
  predicate Room(l: seq<Span>, hint: nat, len: nat, j: nat)
    requires j + 1 < |l|
  {
    l[j].hi <= Candidate(l, hint, j) && Candidate(l, hint, j) + 0x1000 + len <= l[j + 1].lo
  }

  lemma {:induction false} FirstFitFromIs(l: seq<Span>, hint: nat, len: nat, i: nat)
    requires i < |l|
    ensures var f := FirstFitFrom(l, Candidate(l, hint, i), len, i);
            && f.1 == Candidate(l, hint, f.0) && (f.0 + 1 < |l| ==> Room(l, hint, len, f.0))
            && forall j | i <= j < f.0 :: !Room(l, hint, len, j)
    decreases |l| - i
  {
    if i + 1 < |l| && !Room(l, hint, len, i) {
      FirstFitFromIs(l, hint, len, i + 1);
    }
  }

  /** Unless the first test is met, the address is the candidate after the first entry with room.
      There is none if and only if there is no room after any entry and the last one ends too
      high; one past its end is the last resort. */
  ghost predicate IsFirstFit(l: seq<Span>, hint: nat, len: nat, r: Address)
    requires l != []
  {
    var last := l[|l| - 1].hi;
    var full := forall j | 0 <= j < |l| - 1 :: !Room(l, hint, len, j);
    if hint < l[0].lo && hint + len < l[0].hi then r == At(hint)
    else
      && (forall j | 0 <= j < |l| - 1 && Room(l, hint, len, j) && NoneBefore(l, hint, len, j) ::
            r == At(Candidate(l, hint, j)))
      && (full && last + len <= 0xFFFF_FFFF_8000_0000 ==> r == At(last + 1))
      && (r == Nowhere <==> full && last + len > 0xFFFF_FFFF_8000_0000)
  }

  ghost predicate NoneBefore(l: seq<Span>, hint: nat, len: nat, j: nat)
    requires j < |l|
  {
    forall i | 0 <= i < j :: !Room(l, hint, len, i)
  }

  /** The search finds just that. */
  lemma FirstFitExact(l: seq<Span>, hint: nat, len: nat, r: Address)
    requires l != []
    ensures r == FirstFit(l, hint, len) <==> IsFirstFit(l, hint, len, r)
  {
    FirstFitFromIs(l, hint, len, 0);
    var f := FirstFitFrom(l, hint, len, 0);
    assert NoneBefore(l, hint, len, f.0);
  }

  /** The first request of malloc in a program of two segments, a heap and a stack: the region
      goes right after the heap. */
  lemma FirstMalloc()
    ensures Hint(0) == 0x5555_5555_2AAA_AAAA
    ensures FirstFit([Span(0x40_0000, 0x40_1000), Span(0x60_1000, 0x60_2000), Span(0x60_2000, 0x60_2FFF),
                      Span(0x7FFF_FFFF_F000, 0x7FFF_FFFF_C000)], Hint(0), 0x1000) == At(0x60_3000)
  {
    var l := [Span(0x40_0000, 0x40_1000), Span(0x60_1000, 0x60_2000), Span(0x60_2000, 0x60_2FFF),
              Span(0x7FFF_FFFF_F000, 0x7FFF_FFFF_C000)];
    FirstFitExact(l, Hint(0), 0x1000, FirstFit(l, Hint(0), 0x1000));
    assert Room(l, Hint(0), 0x1000, 2) && NoneBefore(l, Hint(0), 0x1000, 2);
  }

  /** The sums stay within 64 bits. */
  ghost predicate NoWrap(l: seq<Span>, addr: nat, len: nat)
  {
    addr + PAGE + len < WORD_LIMIT && forall i | 0 <= i < |l| :: l[i].hi + 1 + PAGE + len < WORD_LIMIT
  }

  /** The length that mmap_region gives an anonymous region. */
  function RegionLength(len: nat): (r: nat)
  {
    4095 * (len / 4097 + 1)
  }

  function Region(addr: nat, len: nat): (r: Span)
  {
    Span(addr, addr + RegionLength(len))
  }

  /** The length is at most a page too long, and it is long enough exactly when the two bytes
      it loses for every 4097 leave the rest covered; it is short by at most one byte more. */
  lemma RegionLengthExact(len: nat)
    ensures 0 < RegionLength(len) <= len + 4095
    ensures len <= RegionLength(len) <==> 2 * (len / 4097) + len % 4097 <= 4095
    ensures len <= RegionLength(len) + 2 * (len / 4097) + 1
    ensures len == RegionLength(len) + 2 * (len / 4097) + 1 <==> len % 4097 == 4096
  {
    var q, m := len / 4097, len % 4097;
    assert len == 4097 * q + m;
    assert 4095 * (q + 1) == 4095 * q + 4095;
  }

  /** A whole page is asked for, and the region is a byte short. */
  lemma PageTooShort()
    ensures RegionLength(4096) == 4095
  {
  }

  /** Where the loop stops short of the last entry there is room for the region. */
  lemma {:induction false} FirstFitFromFits(l: seq<Span>, addr: nat, len: nat, i: nat)
    requires Ordered(l) && i < |l|
    ensures var f := FirstFitFrom(l, addr, len, i);
            f.0 + 1 < |l| ==> Fits(l, Region(f.1, len), f.0 + 1)
    decreases |l| - i
  {
    if i + 1 < |l| && !(addr >= l[i].hi && addr + PAGE + len <= l[i + 1].lo) {
      FirstFitFromFits(l, l[i + 1].hi + 1, len, i + 1);
    } else if i + 1 < |l| {
      RegionLengthExact(len);
      var v := Region(addr, len);
      forall j | 0 <= j < i + 1
        ensures l[j].hi <= v.lo
      {
        assert j < i ==> l[j].hi <= l[i].lo < l[i].hi;
      }
      forall j | i + 1 <= j < |l|
        ensures v.hi <= l[j].lo
      {
        assert i + 1 < j ==> l[i + 1].hi <= l[j].lo;
      }
    }
  }

  /** Whenever mmap is given an address, add_vma takes the region there, except when the first
      test of the search was met, which compares with the end of the first entry: then it takes
      it exactly when the region ends before the first entry starts. */
  lemma PlacementAccepted(l: seq<Span>, addr: nat, len: nat)
    requires l != [] && Ordered(l) && NoWrap(l, addr, len) && FirstFit(l, addr, len) != Nowhere
    ensures FindPlace(l, Region(FirstFit(l, addr, len).addr, len)).After?
            <==> (addr < l[0].lo && addr + len < l[0].hi ==> addr + RegionLength(len) <= l[0].lo)
  {
    RegionLengthExact(len);
    var v := Region(FirstFit(l, addr, len).addr, len);
    FindPlaceExact(l, v);
    if addr < l[0].lo && addr + len < l[0].hi {
      if addr + RegionLength(len) > l[0].lo {
        assert InSpan(l[0].lo, l[0]) && InSpan(l[0].lo, v);
        assert Share(l[0], v);
      }
    } else {
      FirstFitFromFits(l, addr, len, 0);
      var f := FirstFitFrom(l, addr, len, 0);
      var k := f.0 + 1;
      if k == |l| {
        assert forall j | 0 <= j < k :: l[j].hi <= l[k - 1].hi;
      }
      assert Fits(l, v, k);
      NoShare(l, v, k);
    }
  }

  lemma NoShare(l: seq<Span>, v: Span, k: nat)
    requires Fits(l, v, k)
    ensures !exists i :: 0 <= i < |l| && Share(l[i], v)
  {
  }

  // ---------------------------------------------------------------- lists that end with the stack

  /** The entry of the stack comes last and has its end below its start; the others are in
      order and lie below it. */
  ghost predicate BelowStack(l: seq<Span>, stack: Span)
  {
    Ordered(l) && stack.hi < stack.lo && forall i | 0 <= i < |l| :: l[i].hi <= stack.hi
  }

  /** The addresses of the stack. */
  function StackSpan(stack: Span): (r: Span)
  {
    Span(stack.hi, stack.lo)
  }

  lemma {:induction false} PlaceFromByStack(l: seq<Span>, stack: Span, v: Span, i: nat)
    requires BelowStack(l, stack) && v.lo < v.hi && i <= |l|
    requires i < |l| ==> l[i].lo < v.hi
    requires i == |l| ==> stack.lo < v.hi
    requires forall j | 0 <= j < i :: l[j].hi <= v.lo
    ensures var r := PlaceFrom(l + [stack], v, i);
            || (r == Overlap && ((exists j :: 0 <= j < |l| && Overlapping(l[j], v)) || v.lo <= stack.lo < v.hi))
            || (r.After? && r.count <= |l| && Fits(l, v, r.count) && v.hi <= stack.lo)
            || (r == After(|l| + 1) && Fits(l, v, |l|) && stack.lo < v.lo)
    decreases |l| - i
  {
    var all := l + [stack];
    assert all[i] == if i < |l| then l[i] else stack;
    if i < |l| && !Overlapping(l[i], v) {
      assert all[i + 1] == if i + 1 < |l| then l[i + 1] else stack;
      if !(v.lo >= l[i].hi && v.hi <= all[i + 1].lo) {
        PlaceFromByStack(l, stack, v, i + 1);
      } else {
        assert forall j | i + 1 < j < |l| :: l[i + 1].hi <= l[j].lo;
      }
    }
  }

  /** With the stack entry in the list an overlap with the stack is seen only at its top: the
      search fails exactly when the region shares an address with another entry or covers the
      start of the stack.  A region that reaches into the stack from below, or lies inside it,
      is put where it fits among the others. */
  lemma FindPlaceByStack(l: seq<Span>, stack: Span, v: Span)
    requires BelowStack(l, stack) && v.lo < v.hi
    ensures var r := FindPlace(l + [stack], v);
            && r != Unset
            && (r == Overlap <==> (exists i :: 0 <= i < |l| && Share(l[i], v)) || v.lo <= stack.lo < v.hi)
            && (r.After? ==> if stack.lo < v.lo then r.count == |l| + 1 else Fits(l, v, r.count))
  {
    var all := l + [stack];
    forall i | 0 <= i < |l|
      ensures Overlapping(l[i], v) <==> Share(l[i], v)
    {
      OverlappingIsShare(l[i], v);
    }
    hide Share;
    assert all[0] == if l == [] then stack else l[0];
    if all[0].lo < v.hi {
      PlaceFromByStack(l, stack, v, 0);
    } else if l != [] {
      assert forall i | 0 < i < |l| :: l[0].hi <= l[i].lo;
      assert Fits(l, v, 0);
    }
    assert forall k: nat, i | Fits(l, v, k) && 0 <= i < |l| :: !Overlapping(l[i], v);
  }

  /** Up to the entry before the stack the search is the one on the other entries. */
  lemma {:induction false} FirstFitFromByStack(l: seq<Span>, stack: Span, addr: nat, len: nat, i: nat)
    requires BelowStack(l, stack) && i <= |l|
    ensures var f := FirstFitFrom(l + [stack], addr, len, i);
            && (f.0 < |l| ==> Fits(l, Region(f.1, len), f.0 + 1) && f.1 + PAGE + len <= stack.lo)
            && (f.0 + 1 < |l| ==> Region(f.1, len).hi <= stack.hi)
    decreases |l| - i
  {
    var all := l + [stack];
    if i < |l| {
      assert all[i] == l[i] && all[i + 1] == if i + 1 < |l| then l[i + 1] else stack;
      if !(addr >= l[i].hi && addr + PAGE + len <= all[i + 1].lo) {
        FirstFitFromByStack(l, stack, all[i + 1].hi + 1, len, i + 1);
      } else {
        RegionLengthExact(len);
        assert forall j | 0 <= j < i :: l[j].hi <= l[i].lo;
        assert forall j | i + 1 < j < |l| :: l[i + 1].hi <= l[j].lo;
      }
    }
  }

  /** Where mmap puts a region when the stack entry is last, and whether add_vma takes it
      there.  In a gap between other entries it is taken and clear of the stack.  In the gap
      below the stack, which the search measures up to the stack's start instead of its end,
      it is taken, and it runs into the stack if and only if its end is above the stack's.  A
      search that gets to the stack entry returns an address inside the stack, and the region
      is taken if and only if all of it lies in the stack. */
  lemma PlacementByStack(l: seq<Span>, stack: Span, addr: nat, len: nat)
    requires BelowStack(l, stack) && FirstFit(l + [stack], addr, len) != Nowhere
    requires var first := (l + [stack])[0];
             !(addr < first.lo && addr + len < first.hi)
    ensures var f := FirstFitFrom(l + [stack], addr, len, 0);
            var a := FirstFit(l + [stack], addr, len).addr;
            var v := Region(a, len);
            var taken := FindPlace(l + [stack], v).After?;
            && (f.0 + 1 < |l| ==> a == f.1 && taken && !Share(StackSpan(stack), v))
            && (f.0 + 1 == |l| ==>
                  a == f.1 && taken && (Share(StackSpan(stack), v) <==> stack.hi < a + RegionLength(len)))
            && (f.0 == |l| ==>
                  && a == stack.hi + 1 && (taken <==> a + RegionLength(len) <= stack.lo)
                  && (a < stack.lo ==> Share(StackSpan(stack), v)))
  {
    RegionLengthExact(len);
    var all := l + [stack];
    var f := FirstFitFrom(all, addr, len, 0);
    var a := FirstFit(all, addr, len).addr;
    var v := Region(a, len);
    FirstFitFromByStack(l, stack, addr, len, 0);
    FindPlaceByStack(l, stack, v);
    OverlappingIsShare(StackSpan(stack), v);
    if f.0 < |l| {
      NoShare(l, v, f.0 + 1);
    } else {
      assert forall i | 0 <= i < |l| :: l[i].hi <= v.lo;
      NoShare(l, v, |l|);
    }
  }

  /** An address a page below the end of the stack, and a length of a page and a byte: the region
      is taken and runs into the stack. */
  lemma RunsIntoStack(l: seq<Span>, stack: Span, addr: nat)
    requires l == [Span(0x40_0000, 0x40_1000)] && stack == Span(0x7FFF_FFFF_F000, 0x7FFF_FFFF_C000)
    requires addr == stack.hi - PAGE
    ensures BelowStack(l, stack) && FirstFit(l + [stack], addr, 0x1001) == At(addr)
    ensures FindPlace(l + [stack], Region(addr, 0x1001)).After? && Share(StackSpan(stack), Region(addr, 0x1001))
  {
    var all := l + [stack];
    assert all[0] == l[0] && all[1] == stack && FirstFitFrom(all, addr, 0x1001, 0) == (0, addr);
    PlacementByStack(l, stack, addr, 0x1001);
  }

  /** The first test of the search with the stack entry last. */
  lemma FirstTestByStack(l: seq<Span>, stack: Span, addr: nat, len: nat)
    requires BelowStack(l, stack)
    requires var first := (l + [stack])[0];
             addr < first.lo && addr + len < first.hi
    ensures FirstFit(l + [stack], addr, len) == At(addr)
    ensures FindPlace(l + [stack], Region(addr, len)).After? <==> addr + RegionLength(len) <= (l + [stack])[0].lo
  {
    RegionLengthExact(len);
    var v := Region(addr, len);
    FindPlaceByStack(l, stack, v);
    if l != [] {
      OverlappingIsShare(l[0], v);
      assert (l + [stack])[0] == l[0];
      if addr + RegionLength(len) <= l[0].lo {
        assert forall i | 0 < i < |l| :: l[0].hi <= l[i].lo;
        NoShare(l, v, 0);
      }
    }
  }

  /** The search leaves its result unset exactly when it meets no overlap and no gap, and the
      region starts below the end of the last entry. */
  lemma UnsetExact(l: seq<Span>, v: Span)
    ensures FindPlace(l, v) == Unset <==>
              l != [] && l[0].lo < v.hi && v.lo < l[|l| - 1].hi && NoPlaceFrom(l, v, 0)
  {
    if l != [] {
      UnsetFrom(l, v, 0);
    }
  }

  ghost predicate NoPlaceFrom(l: seq<Span>, v: Span, i: nat)
  {
    && (forall j | i <= j < |l| :: !Overlapping(l[j], v))
    && (forall j | i <= j < |l| - 1 :: v.lo < l[j].hi || l[j + 1].lo < v.hi)
  }

  lemma {:induction false} UnsetFrom(l: seq<Span>, v: Span, i: nat)
    requires i < |l|
    ensures PlaceFrom(l, v, i) == Unset <==> v.lo < l[|l| - 1].hi && NoPlaceFrom(l, v, i)
    decreases |l| - i
  {
    if i + 1 < |l| {
      UnsetFrom(l, v, i + 1);
    } else {
      assert PlaceFrom(l, v, i + 1) == Unset;
    }
  }
}
