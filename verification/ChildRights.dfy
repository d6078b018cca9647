/** What the child may do with the pages it gets from a fork (copy_vm in sys/process.c). */
module ChildRights {
  import opened Basics
  import opened PageList
  import opened PageTables
  import opened Mapping
  import opened PageFlags
  import opened TableCopy
  import opened Leaves
  import opened Sharing
  import opened Fork
  import opened ForkedWrites
  import opened Permissions
  import opened Protocol

  /** Whatever is mapped in the space is for reading by user programs and for nothing else, and
      no entry of its lower half has other flags. */
  ghost predicate OnlyReads(m: Memory, child: nat)
  {
    forall q: Path | UserPage(q) :: OnlyReadsAt(m, child, q)
  }

  ghost predicate OnlyReadsAt(m: Memory, child: nat, q: Path)
  {
    && OnlyWith(m, child, q, PRESENT | USER)
    && (Translate(m, child, q).Some? ==> FlagsAt(m, child, q, 1) == PRESENT | USER)
  }

  lemma OneFlags(f: bv12)
    ensures Plus(f, READ_ONLY) != 0 && READ_ONLY == PRESENT | USER
  {
  }

  /** A page mapped for reading. */
  lemma MapOnlyReads(sys: System, g: View, child: nat, v: nat, a: nat, q: Path)
    requires Tabled(sys, g) && child in sys.spaces && v % PAGE == 0 && UserPage(PathOf(v)) && a % PAGE == 0
    requires g.n + Missing(sys.machine.mem, child, PathOf(v)) <= |sys.machine.pages|
    requires OnlyReadsAt(sys.machine.mem, child, q)
    ensures OnlyReadsAt(MapPage(sys.machine, v, a, READ_ONLY, child).mem, child, q)
  {
    hide Shape, KernelSpace, Walk, Missing, MapPage, SameTranslationsBut, SameData, OthersSame, PathOf, Took, AllocMany,
         Backed, IsLeafMap, MadeWith, FlagsAt, SameRights, Translate;
    FlagsPresent();
    OneFlags(FlagsAt(sys.machine.mem, child, q, 1));
    var s, m' := sys.machine, MapPage(sys.machine, v, a, READ_ONLY, child).mem;
    MapOnlyWith(s, g.w, g.base, g.n, v, a, READ_ONLY, child, child, q);
    var w' := MapPageDense(s, g.w, g.base, g.n, v, a, READ_ONLY, child);
    if q == PathOf(v) {
      MapFlags(s, g.w, g.base, g.n, v, a, READ_ONLY, child);
      LastMade(s.mem, m', child, q);
    } else if Translate(m', child, q).Some? {
      SameTranslationOf(s.mem, m', g.w, child, PathOf(v), q);
      MappedWay(s.mem, child, q);
      MapKeepsEntries(s, g.w, g.base, g.n, v, a, READ_ONLY, child, child, q);
      SameLast(s.mem, m', child, q);
    }
  }

  lemma SameTranslationOf(m: Memory, m': Memory, w: Places, cr3: nat, p: Path, q: Path)
    requires SameTranslationsBut(m, m', w, cr3, p) && Root(w, cr3) && q != p
    ensures Translate(m', cr3, q) == Translate(m, cr3, q)
  {
  }

  lemma SameLast(m: Memory, m': Memory, r: nat, q: Path)
    requires SameRights(m, m', r, q) && Missing(m, r, q) == 0
    ensures FlagsAt(m', r, q, 1) == FlagsAt(m, r, q, 1)
  {
    hide EntryAt, Missing;
  }

  lemma LastMade(m: Memory, m': Memory, r: nat, q: Path)
    requires MadeWith(m, m', r, q, READ_ONLY) && OnlyWith(m', r, q, PRESENT | USER)
    ensures Translate(m', r, q).Some? ==> FlagsAt(m', r, q, 1) == PRESENT | USER
  {
    if Translate(m', r, q).Some? {
      MappedWay(m', r, q);
      hide EntryAt, Missing, Translate;
      OneFlags(FlagsAt(m, r, q, 1));
    }
  }

  // ---------------------------------------------------------------- the loops of copy_vm

  lemma RoundOnlyReads(sys: System, g: View, parent: nat, child: nat, i: nat)
    requires Inv(sys, g) && parent in sys.spaces && child in sys.spaces && UserPage(PathOf(i))
    requires RoundRoom(sys.machine, g.t, g.n, parent, child, i) && OnlyReads(sys.machine.mem, child)
    ensures OnlyReads(ShareOne(sys.machine, parent, child, i).mem, child)
  {
    hide Tabled, OnlyReadsAt, Walk, MapPage, Missing, PathOf, Counted;
    var s, p := sys.machine, PathOf(i);
    MappedFrame(sys, g, parent, p);
    if 0 < Walk(s.mem, parent, p) {
      var a := Walk(s.mem, parent, p);
      if i % PAGE == 0 {
        forall q: Path | UserPage(q)
          ensures OnlyReadsAt(MapPage(s, i, a, READ_ONLY, child).mem, child, q)
        {
          MapOnlyReads(sys, g, child, i, a, q);
        }
      } else {
        MapRefuses(s, i, a, child);
      }
    }
  }

  lemma MappedFrame(sys: System, g: View, r: nat, p: Path)
    requires Inv(sys, g) && r in sys.spaces && UserPage(p)
    ensures 0 < Walk(sys.machine.mem, r, p) ==> (r, p) in g.t && Walk(sys.machine.mem, r, p) % PAGE == 0
  {
    hide Shape, Walk, KernelSpace, Backed;
    assert Translate(sys.machine.mem, r, p) == Lookup(g.t, r, p);
    if (r, p) in g.t {
      assert Counted(sys.machine, g, g.t[(r, p)]);
      FrameAligned(sys, g, g.t[(r, p)]);
    }
  }

  lemma FrameAligned(sys: System, g: View, f: nat)
    requires Tabled(sys, g) && InList(f, g.base, g.n)
    ensures f % PAGE == 0
  {
    PageAligned(sys.machine.pages, g.base, (f - g.base) / PAGE);
  }

  lemma {:induction false} ShareOnlyReads(sys: System, g: View, parent: nat, child: nat, l: seq<nat>)
    requires Inv(sys, g) && parent in sys.spaces && child in sys.spaces && UserAddresses(l)
    requires ShareRoom(sys.machine, g.t, parent, child, l) && Good(g.t, parent, child, l)
    requires OnlyReads(sys.machine.mem, child)
    ensures OnlyReads(Share(sys.machine, parent, child, l).mem, child)
    decreases |l|
  {
    hide Inv, ShareOne, PathOf, SharedOne, GoodRound, OnlyReads;
    if l != [] {
      FirstFreeOf(sys, g);
      RoundOnlyReads(sys, g, parent, child, l[0]);
      var g1 := GoodRoundKeeps(sys, g, parent, child, l[0]);
      assert UserAddresses(l[1..]);
      ShareOnlyReads(sys.(machine := ShareOne(sys.machine, parent, child, l[0])), g1, parent, child, l[1..]);
    }
  }

  lemma FirstFreeOf(sys: System, g: View)
    requires Inv(sys, g)
    ensures FirstFree(sys.machine.pages) == g.n
  {
    InvTabled(sys, g);
    hide Tabled;
    FirstFreeIs(sys, g);
  }

  /** The first loop does not reach the child's empty top level. */
  lemma StartsEmpty(m: Memory, w: Places, parent: nat, l: seq<nat>, child: nat)
    requires OnlyFlagsAdded(m, Protect(m, parent, l), w) && Root(w, child)
    requires forall i: Index | i < 256 :: At(m, child, i) == NO_ENTRY
    ensures OnlyReads(Protect(m, parent, l), child)
  {
    hide Protect;
    ProtectAdds(m, parent, l);
    var m' := Protect(m, parent, l);
    forall q: Path | UserPage(q)
      ensures OnlyReadsAt(m', child, q)
    {
      assert !Present(At(m, child, q.l4)) && !Present(At(m', child, q.l4));
      OneFlags(0);
      NotFlagged(At(m', child, q.l4));
      assert At(m', child, q.l4).flags == 0;
      EmptyTopReads(m', child, q);
    }
  }

  lemma NotFlagged(e: Entry)
    requires !Present(e)
    ensures e != Flagged(NO_ENTRY, READ_ONLY)
  {
  }

  lemma EmptyTopReads(m: Memory, child: nat, q: Path)
    requires At(m, child, q.l4).flags == 0
    ensures OnlyReadsAt(m, child, q)
  {
    FlagsUnfold(m, child, q);
    assert Translate(m, child, q) == None;
    hide FlagsAt, Translate;
  }

  // ---------------------------------------------------------------- the whole fork

  /** After the fork every page mapped in the child can be read by it and not written: its four
      entries have the flags of a read-only user page, no more and no less. */
  lemma ForkChildReads(sys: System, g: View, parent: nat, l: seq<nat>, records: nat, q: Path)
    requires Inv(sys, g) && parent in sys.spaces && UserAddresses(l) && UserPage(q)
    requires ForkRoom(sys.machine, g.t, sys.kernel, parent, l, records) && AlignedOnce(g.t, parent, l)
    ensures var m', child := ForkMemory(sys.machine, sys.kernel, parent, l, records).mem,
                             AllocAddr(Reserve(sys.machine, records).pages);
            Translate(m', child, q).Some? ==> forall k | 1 <= k <= 4 :: EntryAt(m', child, q, k).flags == PRESENT | USER
  {
    hide Tabled, TakeScratch, CopyTables, Protect, Share, ShareRoom, Counted, Nodes, PathOf, AllocAddr, SameContents,
         TablesSame, OnlyFlagsAdded, EntryAt, Missing, Reserve, Shared, Good, Translate, OnlyReads;
    FirstFreeIs(sys, g);
    var s1 := Reserve(sys.machine, records);
    var sys1, g1 := sys.(machine := s1), g.(n := g.n + records);
    ReserveKeeps(sys, g, records);
    FirstFreeIs(sys1, g1);
    var child := AllocAddr(s1.pages);
    var s2 := CopyTables(s1, sys.kernel, 4);
    var g2 := NewSpaceKeeps(sys1, g1);
    var sys2 := System(s2, sys.kernel, sys.spaces + {child});
    ProtectKeeps(sys2, g2, parent, l);
    var s3 := s2.(mem := Protect(s2.mem, parent, l));
    NoLeaves(sys, g, child);
    GoodIffAlignedOnce(g.t, parent, child, l);
    StartsEmpty(s2.mem, g2.w, parent, l, child);
    ShareOnlyReads(sys2.(machine := s3), g2, parent, child, l);
    ReadsAllLevels(Share(s3, parent, child, l).mem, child, q);
  }

  lemma ReadsAllLevels(m: Memory, child: nat, q: Path)
    requires OnlyReads(m, child) && UserPage(q)
    ensures Translate(m, child, q).Some? ==> forall k | 1 <= k <= 4 :: EntryAt(m, child, q, k).flags == PRESENT | USER
  {
    if Translate(m, child, q).Some? {
      assert OnlyReadsAt(m, child, q);
      MappedWay(m, child, q);
      UpperNotZero(m, child, q);
      assert forall k | 1 <= k <= 4 :: FlagsAt(m, child, q, k) == EntryAt(m, child, q, k).flags;
      hide EntryAt, Missing, Translate;
    }
  }

  lemma UpperNotZero(m: Memory, child: nat, q: Path)
    requires Missing(m, child, q) == 0
    ensures forall k | 2 <= k <= 4 :: EntryAt(m, child, q, k).flags != 0
  {
  }

  // ---------------------------------------------------------------- the regions of the parent

  /** The address is between the bounds of the region, whichever way round they are. */
  predicate InRegion(r: Span, x: nat)
  {
    r.lo <= x < r.hi || r.hi <= x < r.lo
  }

  lemma StepsInRegion(r: Span, x: nat)
    requires Low(r) % PAGE == 0 && x % PAGE == 0
    ensures Steps(r, x) <==> InRegion(r, x)
  {
    if InRegion(r, x) {
      assert (x - Low(r)) % 4096 == 0;
    }
  }

  lemma VisitedByPage(regions: seq<Span>, x: nat)
    requires Proper(regions) && x % PAGE == 0
    ensures x in Visited(regions) <==> exists i :: 0 <= i < |regions| && InRegion(regions[i], x)
  {
    hide Visited, Steps, InRegion;
    VisitedExact(regions, x);
    forall i | 0 <= i < |regions|
      ensures Steps(regions[i], x) <==> InRegion(regions[i], x)
    {
      StepsInRegion(regions[i], x);
    }
  }

  lemma VisitedPath(l: seq<nat>, x: nat)
    requires Once(l) && x % PAGE == 0 && x < USER_END
    ensures x in l <==> exists i | 0 <= i < |l| :: l[i] % PAGE == 0 && PathOf(l[i]) == PathOf(x)
  {
    hide PathOf, PageStart;
    PathRoundTrip(PathOf(x), x);
    forall i | 0 <= i < |l|
      ensures PathOf(l[i]) == PathOf(x) <==> l[i] == x
    {
      PathRoundTrip(PathOf(x), l[i]);
    }
  }

  /** Fork of page-aligned regions that share no page: the child has a page if and only if the
      parent has it and it lies in a region; it is then at the same frame, and the child can read
      it. */
  lemma ChildHasRegions(sys: System, g: View, parent: nat, regions: seq<Span>, records: nat, x: nat)
    requires Inv(sys, g) && parent in sys.spaces && Proper(regions) && x % PAGE == 0 && x < USER_END
    requires ForkRoom(sys.machine, g.t, sys.kernel, parent, Visited(regions), records)
    ensures var m' := ForkMemory(sys.machine, sys.kernel, parent, Visited(regions), records).mem;
            var child := AllocAddr(Reserve(sys.machine, records).pages);
            && Translate(m', child, PathOf(x)) ==
                 (if exists i :: 0 <= i < |regions| && InRegion(regions[i], x)
                  then Translate(sys.machine.mem, parent, PathOf(x)) else None)
            && (Translate(m', child, PathOf(x)).Some? ==>
                  forall k | 1 <= k <= 4 :: EntryAt(m', child, PathOf(x), k).flags == PRESENT | USER)
  {
    hide ForkMemory, AllocAddr, Reserve, Tabled, Counted, ForkRoom, PathOf, Visited, Translate, EntryAt, Shared,
         SameContents, SameTranslations, Proper, InRegion;
    var l, p := Visited(regions), PathOf(x);
    ProperIsAlignedOnce(regions, g.t, parent);
    VisitedOnce(regions);
    UserPath(x);
    var child, g' := ForkKeeps(sys, g, parent, l, records);
    var s' := ForkMemory(sys.machine, sys.kernel, parent, l, records);
    ForkChildReads(sys, g, parent, l, records, p);
    SharedPages(g.t, parent, child, l, child, p);
    LeafTranslates(System(s', sys.kernel, sys.spaces + {child}), g', child, p);
    LeafTranslates(sys, g, parent, p);
    NoLeaves(sys, g, child);
    VisitedPath(l, x);
    VisitedByPage(regions, x);
  }
}
