/** A state the runs can be in: page 0 of two address spaces is mapped to one frame with
    count 2, as a fork leaves it; and what one write fault in each space makes of it. */
module SharedPage {
  import opened Basics
  import opened PageList
  import opened PageTables
  import opened TableCopy
  import opened Leaves
  import opened Sharing
  import opened CowRuns
  import opened PageFlags
  import opened Fork
  import opened ForkedWrites

  const KERNEL: nat := 0x1000
  const A: nat := 0x2000
  const B: nat := 0x6000
  const FRAME: nat := 0xA000

  function Single(e: Entry): (f: Frame)
  {
    Table(EmptyTable().entries[0 := e])
  }

  function Pointer(a: nat): (e: Entry)
  {
    Entry(a, PRESENT | WRITE | USER, 0)
  }

  function Page0(): (p: Path) { Path(0, 0, 0, 0) }

  /** Four tables from `a` on, which lead page 0 to the frame. */
  function Chain(m: Memory, a: nat): (r: Memory)
  {
    m[a := Single(Pointer(a + 0x1000))][a + 0x1000 := Single(Pointer(a + 0x2000))]
     [a + 0x2000 := Single(Pointer(a + 0x3000))][a + 0x3000 := Single(Pointer(FRAME))]
  }

  function Both(): (r: Machine)
  {
    var m := map[KERNEL := EmptyTable(), FRAME := Data(seq(4096, _ => 7))];
    Machine(Chain(Chain(m, A), B),
            seq(20, (i: nat) => Page(0x1000 + PAGE * i, if i < 9 then 1 else if i == 9 then 2 else 0, i < 10)))
  }

  function ChainPlaces(w: Places, a: nat): (r: Places)
  {
    w[a := Pml4(a)][a + 0x1000 := Pdpt(Space(a), 0)]
     [a + 0x2000 := Pd(Space(a), 0, 0)][a + 0x3000 := Pt(Space(a), 0, 0, 0)]
  }

  function Tables(): (w: Places)
  {
    ChainPlaces(ChainPlaces(map[KERNEL := Pml4(KERNEL)], A), B)
  }

  function Spaces(): (r: System) { System(Both(), KERNEL, {A, B}) }

  function Pages(): (t: LeafMap) { map[(A, Page0()) := FRAME, (B, Page0()) := FRAME] }

  function Seen(): (g: View) { View(Tables(), 0x1000, 10, Pages()) }

  /** Only entry 0 of a chain's tables is there, and it leads to the next. */
  ghost predicate Leads(m: Memory, w: Places, b: nat)
    requires b in w
  {
    && IsTable(m, b)
    && (!w[b].Pt? ==> forall i: Index | Present(At(m, b, i)) ::
          At(m, b, i).addr in w && w[At(m, b, i).addr] == Child(w[b], i))
    && forall i: Index | At(m, b, i) != NO_ENTRY :: Present(At(m, b, i))
  }

  lemma Link(m: Memory, w: Places, b: nat, c: nat)
    requires b in m && m[b] == Single(Pointer(c)) && b in w && (!w[b].Pt? ==> c in w && w[c] == Child(w[b], 0))
    ensures Leads(m, w, b)
  {
    assert forall i: Index :: At(m, b, i) == if i == 0 then Pointer(c) else NO_ENTRY;
  }

  lemma LinkNowhere(m: Memory, w: Places, b: nat)
    requires b in m && m[b] == EmptyTable() && b in w
    ensures Leads(m, w, b) && forall i: Index :: At(m, b, i) == NO_ENTRY
  {
  }

  lemma ChainWalk(m: Memory, a: nat, q: Path)
    requires {a, a + 0x1000, a + 0x2000, a + 0x3000} <= m.Keys
    requires m[a] == Single(Pointer(a + 0x1000)) && m[a + 0x1000] == Single(Pointer(a + 0x2000))
    requires m[a + 0x2000] == Single(Pointer(a + 0x3000)) && m[a + 0x3000] == Single(Pointer(FRAME))
    ensures Translate(m, a, q) == if q == Page0() then Some(FRAME) else None
  {
  }

  /** Page 0 is the only page of either space that the processor sees. */
  lemma OnlyPageSeen(q: Path)
    ensures Hardware(Both().mem, A, q) == if q == Page0() then Some(FRAME) else None
  {
    ChainSight(Both().mem, A, q);
  }

  lemma TablesThere(q: Path)
    requires q.l4 == 0 && q.l3 == 0 && q.l2 == 0
    ensures Missing(Both().mem, A, q) == 0
  {
    ChainSight(Both().mem, A, q);
  }

  lemma ChainSight(m: Memory, a: nat, q: Path)
    requires {a, a + 0x1000, a + 0x2000, a + 0x3000} <= m.Keys
    requires m[a] == Single(Pointer(a + 0x1000)) && m[a + 0x1000] == Single(Pointer(a + 0x2000))
    requires m[a + 0x2000] == Single(Pointer(a + 0x3000)) && m[a + 0x3000] == Single(Pointer(FRAME))
    ensures Hardware(m, a, q) == if q == Page0() then Some(FRAME) else None
    ensures q.l4 == 0 && q.l3 == 0 && q.l2 == 0 ==> Missing(m, a, q) == 0
  {
  }

  lemma HasShape()
    ensures Shape(Both().mem, Tables()) && KernelSpace(Both().mem, Tables(), KERNEL)
  {
    hide Single, EmptyTable, Leads, At, IsTable;
    var m, w := Both().mem, Tables();
    LinkNowhere(m, w, KERNEL);
    Link(m, w, A, A + 0x1000);
    Link(m, w, A + 0x1000, A + 0x2000);
    Link(m, w, A + 0x2000, A + 0x3000);
    Link(m, w, A + 0x3000, FRAME);
    Link(m, w, B, B + 0x1000);
    Link(m, w, B + 0x1000, B + 0x2000);
    Link(m, w, B + 0x2000, B + 0x3000);
    Link(m, w, B + 0x3000, FRAME);
    assert forall b | b in w :: Leads(m, w, b);
    AllLead(m, w, KERNEL);
  }

  lemma AllLead(m: Memory, w: Places, k: nat)
    requires (forall b | b in w :: Leads(m, w, b) && (w[b].Pml4? ==> w[b].cr3 == b)) && Root(w, k)
    requires forall i: Index :: At(m, k, i) == NO_ENTRY
    ensures Shape(m, w) && KernelSpace(m, w, k)
  {
  }

  lemma HasPages()
    ensures IsLeafMap(Both().mem, {A, B}, Pages())
  {
    forall r, q: Path | r in {A, B} && UserPage(q)
      ensures Translate(Both().mem, r, q) == Lookup(Pages(), r, q)
    {
      ChainWalk(Both().mem, r, q);
    }
  }

  lemma TwoShare()
    ensures Sharers(Pages(), FRAME) == 2
  {
    assert LeavesOf(Pages(), FRAME) == {(A, Page0()), (B, Page0())};
  }

  /** The state satisfies what the runs keep. */
  lemma Possible()
    ensures Inv(Spaces(), Seen())
  {
    hide Shape, KernelSpace, IsLeafMap, Sharers, Both, Tables, Sound, Dense, PageAt;
    HasShape();
    HasPages();
    TwoShare();
    CountIs();
    TablesAre();
    Twenty();
  }

  lemma TablesAre()
    ensures Root(Tables(), A) && Root(Tables(), B) && FRAME !in Tables()
    ensures forall a | a in Tables() :: InList(a, 0x1000, 10)
  {
  }

  lemma CountIs()
    ensures Sound(Both().pages, 0x1000) && Dense(Both().pages, 10)
    ensures PageAt(Both().pages, FRAME).count == 2
    ensures FRAME in Both().mem && Both().mem[FRAME].Data?
  {
    IndexOfListed(Both().pages, 0x1000, 9);
  }

  /** One write fault in each space: the first gets a private copy, the second keeps the
      frame, and both counts are 1. */
  lemma Parted()
    returns (g: View)
    ensures Inv(Spaces().(machine := FaultAll(Both(), [(A, Page0()), (B, Page0())])), g)
    ensures g.t.Keys == Pages().Keys && g.t[(B, Page0())] == FRAME && g.t[(A, Page0())] != FRAME
    ensures Sharers(g.t, g.t[(A, Page0())]) == 1 && Sharers(g.t, FRAME) == 1
  {
    hide Inv, FaultAll, Both, Sharers;
    Possible();
    Twenty();
    var ks := [(A, Page0()), (B, Page0())];
    assert ks[0] in ks && ks[1] in ks;
    assert Elements(ks) == LeavesOf(Pages(), FRAME);
    g := FaultAllPrivatises(Spaces(), Seen(), FRAME, ks);
    assert Pages()[ks[0]] in Pages().Values;
  }

  lemma Twenty()
    ensures |Both().pages| == 20
  {
  }

  // ---------------------------------------------------------------- a fork of the first space

  lemma {:induction false} EmptyNodes(m: Memory, a: nat, i: nat)
    requires i <= 512 && forall j: Index :: At(m, a, j) == NO_ENTRY
    ensures NodesFrom(m, a, 4, i) == 0
    decreases 512 - i
  {
    if i < 512 {
      EmptyNodes(m, a, i + 1);
    }
  }

  lemma KernelNodes()
    ensures Nodes(Both().mem, KERNEL, 4) == 1
  {
    LinkNowhere(Both().mem, Tables(), KERNEL);
    EmptyNodes(Both().mem, KERNEL, 0);
  }

  lemma ZeroPath()
    ensures PathOf(0) == Page0()
  {
  }

  /** The allocations of a fork that visits page 0 succeed, with frames to spare. */
  lemma ForkHasRoom()
    requires Inv(Spaces(), Seen())
    ensures ForkRoom(Both(), Pages(), KERNEL, A, [0], 0) && UserAddresses([0]) && AlignedOnce(Pages(), A, [0])
    ensures Room(ForkMemory(Both(), KERNEL, A, [0], 0), 4)
  {
    hide Inv, Both, Tables, CopyTables, Protect, Nodes, PathOf, MapPage, Walk, FirstFree, AllocAddr, IncPages, Missing;
    var sys, g, l := Spaces(), Seen(), [0];
    ZeroPath();
    Twenty();
    KernelNodes();
    InvTabled(sys, g);
    FirstFreeIs(sys, g);
    assert Reserve(Both(), 0) == Both();
    var s2, child := CopyTables(Both(), KERNEL, 4), AllocAddr(Both().pages);
    var g2 := NewSpaceKeeps(sys, g);
    var sys2 := System(s2, KERNEL, {A, B} + {child});
    ProtectKeeps(sys2, g2, A, l);
    var s3 := s2.(mem := Protect(s2.mem, A, l));
    var sys3 := sys2.(machine := s3);
    InvTabled(sys3, g2);
    FirstFreeIs(sys3, g2);
    MissingBound(s3.mem, child, Page0());
    var s4 := ShareOne(s3, A, child, 0);
    assert l[1..] == [];
    assert ShareRoom(s4, SharedOne(Pages(), A, child, 0), A, child, []);
    assert ShareRoom(s3, Pages(), A, child, l);
    assert Share(s4, A, child, []) == s4;
    assert Share(s3, A, child, l) == s4;
    RoundRoomLeft(sys3, g2, A, child, 0);
  }

  /** A round of the sharing loop takes at most three frames. */
  lemma RoundRoomLeft(sys: System, g: View, parent: nat, child: nat, i: nat)
    requires Inv(sys, g) && parent in sys.spaces && child in sys.spaces && i % PAGE == 0 && UserPage(PathOf(i))
    requires (parent, PathOf(i)) in g.t && g.n + 3 <= |sys.machine.pages|
    ensures var s' := ShareOne(sys.machine, parent, child, i);
            FirstFree(s'.pages) <= g.n + 3 && |s'.pages| == |sys.machine.pages|
  {
    hide Shape, KernelSpace, Walk, Missing, MapPage, PathOf, PageAt, Sharers, IsLeafMap, AllocMany, Counted, OnlyChild;
    var s, k := sys.machine, Missing(sys.machine.mem, child, PathOf(i));
    MissingBound(s.mem, child, PathOf(i));
    MappedWalk(sys, g, (parent, PathOf(i)));
    var a := g.t[(parent, PathOf(i))];
    assert Counted(s, g, a);
    CountedListed(s, g, a);
    FramePage(sys, g, a);
    FlagsPresent();
    var w' := MapSteps(sys, g, child, i, a, READ_ONLY);
    var p := MapPage(s, i, a, READ_ONLY, child).pages;
    assert Dense(IncPages(p, a), g.n + k);
    FirstFreeUnique(IncPages(p, a), g.n + k);
  }

  lemma CountedListed(s: Machine, g: View, f: nat)
    requires Counted(s, g, f)
    ensures InList(f, g.base, g.n)
  {
  }

  lemma ChainWrites(m: Memory, a: nat)
    requires {a, a + 0x1000, a + 0x2000, a + 0x3000} <= m.Keys
    requires m[a] == Single(Pointer(a + 0x1000)) && m[a + 0x1000] == Single(Pointer(a + 0x2000))
    requires m[a + 0x2000] == Single(Pointer(a + 0x3000)) && m[a + 0x3000] == Single(Pointer(FRAME))
    ensures forall k | 1 <= k <= 4 :: EntryAt(m, a, Page0(), k).flags & WRITE == WRITE
  {
  }

  /** Space A, which shares page 0 with B, forks: afterwards it can still write the page that
      its child and B share, and the child can do so after two faults but not after one. */
  lemma ForkedParentWrites()
    ensures Inv(Spaces(), Seen()) && ForkRoom(Both(), Pages(), KERNEL, A, [0], 0) && AlignedOnce(Pages(), A, [0])
    ensures var s', child := ForkMemory(Both(), KERNEL, A, [0], 0), AllocAddr(Reserve(Both(), 0).pages);
            var s1 := CowFault(s', child, 0).0;
            && CanWrite(s'.mem, A, Page0()) && !CanWrite(s'.mem, child, Page0())
            && Translate(s'.mem, child, Page0()) == Some(FRAME)
            && !CanWrite(s1.mem, child, Page0()) && CanWrite(CowFault(s1, child, 0).0.mem, child, Page0())
  {
    hide Inv, ForkRoom, ForkMemory, CanWrite, Reserve, AllocAddr, CowFault, PathOf, Both, EntryAt, Translate, Room;
    Possible();
    ForkHasRoom();
    ZeroPath();
    AWrites();
    ForkParentWrites(Spaces(), Seen(), A, [0], 0, 0);
    ForkChildCannotWrite(Spaces(), Seen(), A, [0], 0, Page0());
    ChildFaultsTwice(Spaces(), Seen(), A, [0], 0, 0);
  }

  lemma AWrites()
    ensures forall k | 1 <= k <= 4 :: EntryAt(Both().mem, A, Page0(), k).flags & WRITE == WRITE
  {
    hide EntryAt;
    ChainWrites(Both().mem, A);
  }
}
