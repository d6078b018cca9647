/** Who can write what after a fork (copy_vm in sys/process.c): flags are only added, so the
    parent keeps its write access to the pages it shares, while the child has none. */
module ForkedWrites {
  import opened Basics
  import opened PageList
  import opened PageTables
  import opened Mapping
  import opened PageFlags
  import opened TableCopy
  import opened Leaves
  import opened Sharing
  import opened CowRuns
  import opened Fork
  import opened Stores

  // ---------------------------------------------------------------- the first loop

  /** Every entry is as it was or has just the given flags more. */
  ghost predicate Adds(m: Memory, m': Memory, flags: bv12)
  {
    forall a, j: Index :: At(m', a, j) == At(m, a, j) || At(m', a, j) == Flagged(At(m, a, j), flags)
  }

  lemma {:induction false} ProtectAdds(m: Memory, parent: nat, l: seq<nat>)
    ensures Adds(m, Protect(m, parent, l), READ_ONLY)
    decreases |l|
  {
    hide At, Flagged, ChangeFlags, PathOf;
    if l != [] {
      var m1 := ChangeFlags(m, parent, PathOf(l[0]), READ_ONLY);
      ProtectAdds(m1, parent, l[1..]);
      var m' := Protect(m, parent, l);
      forall a, j: Index
        ensures At(m', a, j) == At(m, a, j) || At(m', a, j) == Flagged(At(m, a, j), READ_ONLY)
      {
        ChangeFlagsAdds(m, parent, PathOf(l[0]), READ_ONLY, a, j);
        FlaggedTwice(At(m, a, j), READ_ONLY);
      }
    }
  }

  /** The entries on the way to a page, whether or not flags were added to them. */
  lemma WayAdds(m: Memory, m': Memory, cr3: nat, q: Path, flags: bv12)
    requires Adds(m, m', flags)
    ensures forall k | 1 <= k <= 4 ::
              var e, e' := EntryAt(m, cr3, q, k), EntryAt(m', cr3, q, k); e' == e || e' == Flagged(e, flags)
  {
    hide At;
    assert At(m', cr3, q.l4).addr == At(m, cr3, q.l4).addr;
    var t3 := At(m, cr3, q.l4).addr;
    assert At(m', t3, q.l3).addr == At(m, t3, q.l3).addr;
    var t2 := At(m, t3, q.l3).addr;
    assert At(m', t2, q.l2).addr == At(m, t2, q.l2).addr;
  }

  /** The entries on the way to `q` have the flags of the fork added. */
  ghost predicate Protected(m: Memory, m': Memory, parent: nat, q: Path)
  {
    forall k | 1 <= k <= 4 :: EntryAt(m', parent, q, k) == Flagged(EntryAt(m, parent, q, k), READ_ONLY)
  }

  /** The first loop adds the flags along the way of every page it visits whose tables exist. */
  lemma {:induction false} ProtectVisited(m: Memory, w: Places, parent: nat, l: seq<nat>, i: nat)
    requires Shape(m, w) && Root(w, parent) && i < |l| && Missing(m, parent, PathOf(l[i])) == 0
    ensures Protected(m, Protect(m, parent, l), parent, PathOf(l[i]))
    decreases |l|
  {
    hide ChangeFlags, PathOf, Shape, EntryAt, Flagged, Missing, FlagStep, Walk;
    var q := PathOf(l[i]);
    var m1 := ChangeFlags(m, parent, PathOf(l[0]), READ_ONLY);
    ChangeFlagsStep(m, w, parent, PathOf(l[0]), READ_ONLY);
    forall k | 1 <= k <= 4
      ensures Flagged(Flagged(EntryAt(m, parent, q, k), READ_ONLY), READ_ONLY) ==
                Flagged(EntryAt(m, parent, q, k), READ_ONLY)
    {
      FlaggedTwice(EntryAt(m, parent, q, k), READ_ONLY);
    }
    if i == 0 {
      ProtectAdds(m1, parent, l[1..]);
      WayAdds(m1, Protect(m1, parent, l[1..]), parent, q, READ_ONLY);
    } else {
      FlagStepFacts(m, m1, w, parent, PathOf(l[0]), q);
      ProtectVisited(m1, w, parent, l[1..], i - 1);
      ProtectAdds(m, parent, l[..1]);
      OneProtected(m, parent, l);
      WayAdds(m, m1, parent, q, READ_ONLY);
    }
  }

  lemma OneProtected(m: Memory, parent: nat, l: seq<nat>)
    requires l != []
    ensures Protect(m, parent, l[..1]) == ChangeFlags(m, parent, PathOf(l[0]), READ_ONLY)
  {
    hide ChangeFlags, PathOf;
    assert l[..1][0] == l[0] && l[..1][1..] == [];
    assert Protect(ChangeFlags(m, parent, PathOf(l[0]), READ_ONLY), parent, []) ==
           ChangeFlags(m, parent, PathOf(l[0]), READ_ONLY);
  }

  lemma FlagStepFacts(m: Memory, m1: Memory, w: Places, parent: nat, p: Path, q: Path)
    requires Shape(m, w) && Root(w, parent) && FlagStep(m, m1, w, parent, OwnerOf(parent, p.l4))
    ensures Shape(m1, w) && Missing(m1, parent, q) == Missing(m, parent, q)
  {
    FlagsKeepWalk(m, m1, w, parent, q);
  }

  // ---------------------------------------------------------------- the child's top level

  /** No entry of the lower half allows writing. */
  ghost predicate NoWriteTop(m: Memory, t: nat)
  {
    forall j: Index | j < 256 :: At(m, t, j).flags & WRITE == 0
  }

  lemma WriteBit(flags: bv12)
    ensures flags & WRITE == 0 ==> (flags | READ_ONLY) & WRITE == 0 && (flags & 0xF00) & WRITE == 0
    ensures (flags | READ_ONLY) & (PRESENT | WRITE | USER) == PRESENT | WRITE | USER <==> flags & WRITE == WRITE
    ensures flags & WRITE == 0 ==> flags & (PRESENT | WRITE | USER) != PRESENT | WRITE | USER
  {
  }

  lemma PutNoWrite(m: Memory, t: nat, a: nat, i: Index, f: nat)
    requires NoWriteTop(m, t)
    ensures NoWriteTop(Put(m, a, i, Linked(At(m, a, i), f, READ_ONLY)), t)
  {
    forall j: Index | j < 256
      ensures At(Put(m, a, i, Linked(At(m, a, i), f, READ_ONLY)), t, j).flags & WRITE == 0
    {
      WriteBit(At(m, t, j).flags);
    }
  }

  lemma FillNoWrite(m: Memory, t: nat, f: nat)
    requires NoWriteTop(m, t)
    ensures NoWriteTop(ZeroFill(m, f), t)
  {
    forall j: Index | j < 256
      ensures At(ZeroFill(m, f), t, j).flags & WRITE == 0
    {
      WriteBit(At(m, t, j).flags);
    }
  }

  lemma LevelNoWrite(s: Machine, t: nat, a: nat, i: Index)
    requires NoWriteTop(s.mem, t)
    ensures NoWriteTop(WithTable(s, a, i, READ_ONLY).mem, t)
  {
    hide NoWriteTop, ZeroFill, Put;
    var f := AllocAddr(s.pages);
    FillNoWrite(s.mem, t, f);
    PutNoWrite(ZeroFill(s.mem, f), t, a, i, f);
  }

  lemma MapNoWrite(s: Machine, v: nat, a: nat, cr3: nat, t: nat)
    requires NoWriteTop(s.mem, t)
    ensures NoWriteTop(MapPage(s, v, a, READ_ONLY, cr3).mem, t)
  {
    hide NoWriteTop, WithTable, Put, PathOf, At;
    var p := PathOf(v);
    var (s3, t3) := Upper(s, cr3, p, READ_ONLY);
    var (s2, t2) := Middle(s, cr3, p, READ_ONLY);
    var (s1, t1) := WithTables(s, cr3, p, READ_ONLY);
    LevelNoWrite(s, t, cr3, p.l4);
    LevelNoWrite(s3, t, t3, p.l3);
    LevelNoWrite(s2, t, t2, p.l2);
    PutNoWrite(s1.mem, t, t1, p.l1, a);
  }

  lemma {:induction false} ShareNoWrite(s: Machine, parent: nat, child: nat, l: seq<nat>, t: nat)
    requires NoWriteTop(s.mem, t)
    ensures NoWriteTop(Share(s, parent, child, l).mem, t)
    decreases |l|
  {
    hide NoWriteTop, MapPage, Walk, PathOf;
    if l != [] {
      var a := Walk(s.mem, parent, PathOf(l[0]));
      if 0 < a {
        MapNoWrite(s, l[0], a, child, t);
      }
      ShareNoWrite(ShareOne(s, parent, child, l[0]), parent, child, l[1..], t);
    }
  }

  lemma ProtectNoWrite(m: Memory, parent: nat, l: seq<nat>, t: nat)
    requires NoWriteTop(m, t)
    ensures NoWriteTop(Protect(m, parent, l), t)
  {
    ProtectAdds(m, parent, l);
    forall j: Index | j < 256
      ensures At(Protect(m, parent, l), t, j).flags & WRITE == 0
    {
      WriteBit(At(m, t, j).flags);
    }
  }

  lemma NoWriteMeans(m: Memory, t: nat, q: Path)
    requires NoWriteTop(m, t) && UserPage(q)
    ensures !CanWrite(m, t, q) && !Writable(EntryAt(m, t, q, 4))
  {
    WriteBit(At(m, t, q.l4).flags);
    assert EntryAt(m, t, q, 4) == At(m, t, q.l4);
  }

  // ---------------------------------------------------------------- the whole fork

  /** A page whose tables are the same has the same entries. */
  lemma SameWayEntries(m: Memory, m': Memory, w: Places, r: nat, q: Path)
    requires Shape(m, w) && Root(w, r) && UserPage(q) && Missing(m, r, q) == 0
    requires forall a | a in w && Owned(w[a], r, Space(r)) :: a in m && a in m' && m'[a] == m[a]
    ensures Missing(m', r, q) == 0 && forall k | 1 <= k <= 4 :: EntryAt(m', r, q, k) == EntryAt(m, r, q, k)
  {
    LastTablePlace(m, w, r, q);
    var t3 := At(m, r, q.l4).addr;
    var t2 := At(m, t3, q.l3).addr;
    assert forall i: Index :: At(m', r, i) == At(m, r, i);
    assert t3 in w && w[t3] == Pdpt(Space(r), q.l4) && forall i: Index :: At(m', t3, i) == At(m, t3, i);
    assert t2 in w && w[t2] == Pd(Space(r), q.l4, q.l3) && forall i: Index :: At(m', t2, i) == At(m, t2, i);
    assert forall i: Index :: At(m', LastTable(m, r, q), i) == At(m, LastTable(m, r, q), i);
  }

  lemma TablesStay(sys: System, g: View, m': Memory, r: nat, q: Path)
    requires Tabled(sys, g) && r in sys.spaces && UserPage(q) && Missing(sys.machine.mem, r, q) == 0
    requires TablesSame(sys.machine.mem, m', g.w)
    ensures Missing(m', r, q) == 0
    ensures forall k | 1 <= k <= 4 :: EntryAt(m', r, q, k) == EntryAt(sys.machine.mem, r, q, k)
  {
    hide Shape, KernelSpace, Backed, IsLeafMap, Missing, EntryAt;
    SameWayEntries(sys.machine.mem, m', g.w, r, q);
  }

  lemma ParentStays(sys: System, g: View, m': Memory, w': Places, parent: nat, child: nat, q: Path)
    requires Tabled(sys, g) && parent in sys.spaces && parent != child && UserPage(q)
    requires Missing(sys.machine.mem, parent, q) == 0 && OnlyChild(sys.machine.mem, m', g.w, w', child)
    ensures forall k | 1 <= k <= 4 :: EntryAt(m', parent, q, k) == EntryAt(sys.machine.mem, parent, q, k)
  {
    hide KernelSpace, Backed, IsLeafMap, Missing, EntryAt;
    SameWayEntries(sys.machine.mem, m', g.w, parent, q);
  }

  /** fork adds its flags to the parent's entries of every visited page whose tables exist, and
      to nothing else on its way; in the child no entry of the top level allows writing. */
  lemma ForkProtects(sys: System, g: View, parent: nat, l: seq<nat>, records: nat, i: nat)
    requires Inv(sys, g) && parent in sys.spaces && UserAddresses(l)
    requires ForkRoom(sys.machine, g.t, sys.kernel, parent, l, records) && AlignedOnce(g.t, parent, l)
    ensures var m' := ForkMemory(sys.machine, sys.kernel, parent, l, records).mem;
            && (i < |l| && Missing(sys.machine.mem, parent, PathOf(l[i])) == 0 ==>
                  Protected(sys.machine.mem, m', parent, PathOf(l[i])))
            && NoWriteTop(m', AllocAddr(Reserve(sys.machine, records).pages))
  {
    hide Tabled, TakeScratch, CopyTables, Protect, Share, ShareRoom, Counted, Nodes, PathOf, AllocAddr, SameContents,
         TablesSame, OnlyFlagsAdded, OnlyChild, EntryAt, Missing, Flagged, Reserve, NoWriteTop, Shared, Good;
    FirstFreeIs(sys, g);
    var s1 := Reserve(sys.machine, records);
    var sys1, g1 := sys.(machine := s1), g.(n := g.n + records);
    ReserveKeeps(sys, g, records);
    FirstFreeIs(sys1, g1);
    var child := AllocAddr(s1.pages);
    var s2 := CopyTables(s1, sys.kernel, 4);
    var g2 := NewSpaceKeeps(sys1, g1);
    var sys2 := System(s2, sys.kernel, sys.spaces + {child});
    ProtectKeeps(sys2, g2, parent, l);
    var s3 := s2.(mem := Protect(s2.mem, parent, l));
    var sys3 := sys2.(machine := s3);
    NoLeaves(sys, g, child);
    GoodIffAlignedOnce(g.t, parent, child, l);
    var g' := ShareKeeps(sys3, g2, parent, child, l);
    var s4 := Share(s3, parent, child, l);
    EmptyTop(s2.mem, child);
    ProtectNoWrite(s2.mem, parent, l, child);
    ShareNoWrite(s3, parent, child, l, child);
    if i < |l| && Missing(sys.machine.mem, parent, PathOf(l[i])) == 0 {
      var q := PathOf(l[i]);
      TablesStay(sys, g, s1.mem, parent, q);
      TablesStay(sys1, g1, s2.mem, parent, q);
      TabledShape(sys2, g2, parent);
      ProtectVisited(s2.mem, g2.w, parent, l, i);
      StillThere(s2.mem, s3.mem, g2.w, parent, q);
      ParentStays(sys3, g2, s4.mem, g'.w, parent, child, q);
    }
  }

  lemma EmptyTop(m: Memory, t: nat)
    requires forall i: Index | i < 256 :: At(m, t, i) == NO_ENTRY
    ensures NoWriteTop(m, t)
  {
  }

  lemma TabledShape(sys: System, g: View, r: nat)
    requires Tabled(sys, g) && r in sys.spaces
    ensures Shape(sys.machine.mem, g.w) && Root(g.w, r)
  {
  }

  lemma StillThere(m: Memory, m': Memory, w: Places, r: nat, q: Path)
    requires Shape(m, w) && Root(w, r) && OnlyFlagsAdded(m, m', w)
    ensures Missing(m', r, q) == Missing(m, r, q)
  {
    FlagsKeepWalk(m, m', w, r, q);
  }

  /** Exactly when the parent can write a shared page after its fork: when all four entries of
      the page had the write flag before.  The loop that should protect the page takes nothing
      away; if only the other two flags were missing, it even grants the access. */
  lemma ForkParentWrites(sys: System, g: View, parent: nat, l: seq<nat>, records: nat, i: nat)
    requires Inv(sys, g) && parent in sys.spaces && UserAddresses(l) && i < |l|
    requires ForkRoom(sys.machine, g.t, sys.kernel, parent, l, records) && AlignedOnce(g.t, parent, l)
    requires (parent, PathOf(l[i])) in g.t
    ensures var m, m', q := sys.machine.mem, ForkMemory(sys.machine, sys.kernel, parent, l, records).mem, PathOf(l[i]);
            var child := AllocAddr(Reserve(sys.machine, records).pages);
            && (CanWrite(m', parent, q) <==> forall k | 1 <= k <= 4 :: EntryAt(m, parent, q, k).flags & WRITE == WRITE)
            && Translate(m', child, q) == Translate(m', parent, q) == Some(g.t[(parent, q)])
  {
    hide Tabled, CopyTables, Protect, Share, ShareRoom, Counted, Nodes, PathOf, AllocAddr, Shape, Translate, Shared,
         ForkMemory, Reserve, EntryAt, Missing, NoWriteTop;
    var m, q := sys.machine.mem, PathOf(l[i]);
    var child, g' := ForkKeeps(sys, g, parent, l, records);
    var s' := ForkMemory(sys.machine, sys.kernel, parent, l, records);
    assert l[i] % PAGE == 0 && PathOf(l[i]) == q;
    SharedPages(g.t, parent, child, l, parent, q);
    LeafTranslates(System(s', sys.kernel, sys.spaces + {child}), g', parent, q);
    LeafTranslates(System(s', sys.kernel, sys.spaces + {child}), g', child, q);
    LeafTranslates(sys, g, parent, q);
    MappedWay(m, parent, q);
    ForkProtects(sys, g, parent, l, records, i);
    forall k | 1 <= k <= 4
      ensures Writable(EntryAt(s'.mem, parent, q, k)) <==> EntryAt(m, parent, q, k).flags & WRITE == WRITE
    {
      WriteBit(EntryAt(m, parent, q, k).flags);
    }
  }

  lemma MappedWay(m: Memory, r: nat, q: Path)
    requires Translate(m, r, q).Some?
    ensures Missing(m, r, q) == 0
  {
  }

  /** No user page of the child can be written after the fork. */
  lemma ForkChildCannotWrite(sys: System, g: View, parent: nat, l: seq<nat>, records: nat, q: Path)
    requires Inv(sys, g) && parent in sys.spaces && UserAddresses(l) && UserPage(q)
    requires ForkRoom(sys.machine, g.t, sys.kernel, parent, l, records) && AlignedOnce(g.t, parent, l)
    ensures var m', child := ForkMemory(sys.machine, sys.kernel, parent, l, records).mem,
                             AllocAddr(Reserve(sys.machine, records).pages);
            !CanWrite(m', child, q) && !Writable(EntryAt(m', child, q, 4))
  {
    hide ForkMemory, NoWriteTop, AllocAddr, Reserve, CanWrite, EntryAt, Inv, ForkRoom, Missing, PathOf;
    ForkProtects(sys, g, parent, l, records, 0);
    NoWriteMeans(ForkMemory(sys.machine, sys.kernel, parent, l, records).mem,
                 AllocAddr(Reserve(sys.machine, records).pages), q);
  }

  /** So a store of the parent after the fork, to a page whose four entries had the write flag,
      is read by the child. */
  lemma ForkSharesStores(sys: System, g: View, parent: nat, l: seq<nat>, records: nat, i: nat, v: nat, b: bv8)
    requires Inv(sys, g) && parent in sys.spaces && UserAddresses(l) && i < |l|
    requires ForkRoom(sys.machine, g.t, sys.kernel, parent, l, records) && AlignedOnce(g.t, parent, l)
    requires (parent, PathOf(l[i])) in g.t && PathOf(v) == PathOf(l[i])
    requires forall k | 1 <= k <= 4 :: EntryAt(sys.machine.mem, parent, PathOf(l[i]), k).flags & WRITE == WRITE
    ensures var m', child := ForkMemory(sys.machine, sys.kernel, parent, l, records).mem,
                             AllocAddr(Reserve(sys.machine, records).pages);
            CanWrite(m', parent, PathOf(v)) && LoadByte(StoreByte(m', parent, v, b), child, v) == Some(b)
  {
    hide PathOf, ForkMemory, Reserve, AllocAddr, Inv, ForkRoom, CanWrite, EntryAt, Translate, LoadByte, StoreByte,
         Shared;
    var s' := ForkMemory(sys.machine, sys.kernel, parent, l, records);
    var child, g' := ForkKeeps(sys, g, parent, l, records);
    ForkParentWrites(sys, g, parent, l, records, i);
    StoreSeen(System(s', sys.kernel, sys.spaces + {child}), g', parent, v, b, child, v);
  }

  /** What the processor sees in the parent after a fork, at a visited page whose tables exist:
      the address in the last entry, which for a page that was not mapped is frame 0.  It is
      what the processor saw before exactly when the last entry was present. */
  lemma ForkExposes(sys: System, g: View, parent: nat, l: seq<nat>, records: nat, i: nat)
    requires Inv(sys, g) && parent in sys.spaces && UserAddresses(l) && i < |l|
    requires ForkRoom(sys.machine, g.t, sys.kernel, parent, l, records) && AlignedOnce(g.t, parent, l)
    requires Missing(sys.machine.mem, parent, PathOf(l[i])) == 0
    ensures var m, m', q := sys.machine.mem, ForkMemory(sys.machine, sys.kernel, parent, l, records).mem, PathOf(l[i]);
            && Hardware(m', parent, q) == Some(Walk(m, parent, q))
            && ((parent, q) !in g.t ==> Hardware(m', parent, q) == Some(0))
            && (Hardware(m', parent, q) == Hardware(m, parent, q) <==> Present(EntryAt(m, parent, q, 1)))
  {
    hide Tabled, PathOf, ForkMemory, Reserve, NoWriteTop, ForkRoom, Counted;
    var m, q := sys.machine.mem, PathOf(l[i]);
    ForkProtects(sys, g, parent, l, records, i);
    LeafTranslates(sys, g, parent, q);
    WalkByWay(m, parent, q);
    AllPresent(m, ForkMemory(sys.machine, sys.kernel, parent, l, records).mem, parent, q);
  }

  lemma AllPresent(m: Memory, m': Memory, parent: nat, q: Path)
    requires Protected(m, m', parent, q)
    ensures Missing(m', parent, q) == 0 && Hardware(m', parent, q) == Some(EntryAt(m, parent, q, 1).addr)
  {
    forall k | 1 <= k <= 4
      ensures Present(EntryAt(m', parent, q, k))
    {
      PresentBit(EntryAt(m, parent, q, k).flags);
      assert EntryAt(m', parent, q, k) == Flagged(EntryAt(m, parent, q, k), READ_ONLY);
    }
    assert EntryAt(m', parent, q, 1) == Flagged(EntryAt(m, parent, q, 1), READ_ONLY);
    assert Present(EntryAt(m', parent, q, 4)) && Present(EntryAt(m', parent, q, 3));
    assert Present(EntryAt(m', parent, q, 2));
  }

  lemma PresentBit(flags: bv12)
    ensures (flags | READ_ONLY) & PRESENT == PRESENT
  {
  }

  /** The first write fault of a forked child on a shared page copies the page but does not let
      it write; the second does. */
  lemma ChildFaultsTwice(sys: System, g: View, parent: nat, l: seq<nat>, records: nat, i: nat)
    requires Inv(sys, g) && parent in sys.spaces && UserAddresses(l) && i < |l|
    requires ForkRoom(sys.machine, g.t, sys.kernel, parent, l, records) && AlignedOnce(g.t, parent, l)
    requires (parent, PathOf(l[i])) in g.t && Room(ForkMemory(sys.machine, sys.kernel, parent, l, records), 4)
    ensures var s' := ForkMemory(sys.machine, sys.kernel, parent, l, records);
            var child := AllocAddr(Reserve(sys.machine, records).pages);
            var s1 := CowFault(s', child, l[i]).0;
            !CanWrite(s1.mem, child, PathOf(l[i])) && CanWrite(CowFault(s1, child, l[i]).0.mem, child, PathOf(l[i]))
  {
    hide Tabled, PathOf, ForkMemory, Reserve, ForkRoom, Counted, CowFault, CanWrite, EntryAt, Shared, AllocAddr,
         FirstFree, TakeScratch, CowCopy;
    var q, s' := PathOf(l[i]), ForkMemory(sys.machine, sys.kernel, parent, l, records);
    var child, g' := ForkKeeps(sys, g, parent, l, records);
    var sys' := System(s', sys.kernel, sys.spaces + {child});
    assert l[i] % PAGE == 0 && PathOf(l[i]) == q;
    SharedPages(g.t, parent, child, l, parent, q);
    FirstFreeIs(sys', g');
    ForkChildCannotWrite(sys, g, parent, l, records, q);
    SharedTwice(g'.t, parent, child, q);
    FirstFaultCopies(sys', g', child, l[i]);
    TwoFaultsGrantWrite(sys', g', child, l[i]);
  }

  lemma SharedTwice(t: LeafMap, parent: nat, child: nat, q: Path)
    requires parent != child && (parent, q) in t && (child, q) in t && t[(child, q)] == t[(parent, q)]
    ensures 1 < Sharers(t, t[(child, q)])
  {
    SubsetCard({(parent, q), (child, q)}, LeavesOf(t, t[(child, q)]));
  }

  /** With a top-level entry that forbids writing, the copying fault does not allow it. */
  lemma FirstFaultCopies(sys: System, g: View, cr3: nat, v: nat)
    requires Inv(sys, g) && cr3 in sys.spaces && v % PAGE == 0 && UserPage(PathOf(v)) && (cr3, PathOf(v)) in g.t
    requires g.n + 2 <= |sys.machine.pages| && 1 < Sharers(g.t, g.t[(cr3, PathOf(v))])
    requires !Writable(EntryAt(sys.machine.mem, cr3, PathOf(v), 4))
    ensures !CanWrite(CowFault(sys.machine, cr3, v).0.mem, cr3, PathOf(v))
  {
    hide ChangeFlags, Walk, PathOf, TakeScratch, CowCopy, PageAt, Sharers, Tabled, EntryAt, CanWrite, InList;
    var k, f := (cr3, PathOf(v)), g.t[(cr3, PathOf(v))];
    var s1 := TakeScratch(sys.machine);
    var g1 := ScratchKeeps(sys, g);
    MappedWalk(sys, g, k);
    assert Counted(s1, g1, f);
    PageAddr(sys.(machine := s1), g1, f);
    CopyGrantsWrite(sys.(machine := s1), g1, cr3, v, f);
    SameTop(sys.machine.mem, s1.mem, g.w, sys, g, cr3, PathOf(v));
  }

  lemma SameTop(m: Memory, m': Memory, w: Places, sys: System, g: View, cr3: nat, q: Path)
    requires Tabled(sys, g) && cr3 in sys.spaces && w == g.w && TablesSame(m, m', w)
    ensures EntryAt(m', cr3, q, 4) == EntryAt(m, cr3, q, 4)
  {
    assert cr3 in w;
  }
}
