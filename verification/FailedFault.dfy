/** What a file fault that fails does to later steps (sys/page_faults.c, do_file_fault): its
    frame is given back but stays mapped.  The next fault fills it for another page, and if a
    table is made in it, the byte cleared past its end cuts off the tables that the failed fault
    had made just after it. */
module FailedFault {
  import opened Basics
  import opened PageList
  import opened PageTables
  import opened PageFlags
  import opened Overrun
  import opened Mapping
  import opened TableCopy
  import opened Leaves
  import opened Sharing
  import opened FileReads
  import opened DemandPaging
  import opened FileFaults
  import opened FaultRuns
  import SharedPage

  // ---------------------------------------------------------------- a table made in the frame

  /** A failed fault in an empty part of the space makes its first table in the frame after the
      one it gives back. */
  lemma TableAfterFrame(sys: System, g: View, cr3: nat, data: File, seg: Segment, v: Address)
    requires Inv(sys, g) && cr3 in sys.spaces && Within(seg, data) && PageOf(v) % PAGE == 0
    requires Missing(sys.machine.mem, cr3, Slot(v)) == 3 && g.n + 4 <= |sys.machine.pages|
    ensures At(FileFaulted(sys.machine, cr3, data, seg, v).mem, cr3, Slot(v).l4).addr == g.base + PAGE * (g.n + 1)
  {
    hide Shape, KernelSpace, IsLeafMap, MapPage, Missing, AllocPages, AllocAddr, Given, AllocMany, PathOf, EagerPage,
         Sound, Dense, FreePages, PageAt, Walk, OwnWayCut, OtherThrough, SlotZeroInUse, SameTranslationsBut, LosesBut;
    var s, a, f := sys.machine, PageOf(v), g.base + PAGE * g.n;
    var flags := if seg.write then READ_WRITE else READ_ONLY;
    FlagsPresent();
    PageAligned(s.pages, g.base, g.n);
    AllocDense(s.pages, g.base, g.n);
    var s1 := Machine(s.mem, AllocPages(s.pages));
    BackedAfterAlloc(s, g.w, g.base, g.n, s1);
    DenseHeld(s1, g.w, g.base, g.n + 1);
    DenseMany(s1.pages, g.base, g.n + 1, 3);
    var w', fs := MapPageRefines(s1, g.w, g.base, a, f, flags, cr3);
    var m' := MapPage(s1, a, f, flags, cr3).mem;
    assert FileFaulted(s, cr3, data, seg, v).mem == m'[f := Data(EagerPage(data, seg, a))];
    OtherFrame(m', f, Data(EagerPage(data, seg, a)), cr3, PathOf(a).l4);
  }

  lemma OtherFrame(m: Memory, f: nat, data: Frame, t: nat, i: Index)
    requires t != f
    ensures At(m[f := data], t, i) == At(m, t, i)
  {
  }

  /** The tables are in use while the frame of a failed fault is free. */
  lemma HeldInRun(sys: System, n0: nat, s: Machine, g: View, full: seq<Page>, f: nat)
    requires FaultState(sys, n0, s, g, full, Some(f))
    ensures Shape(s.mem, g.w) && TablesHeld(s, g.w, g.base) && AllocAddr(s.pages) == f
    ensures forall r | r in sys.spaces :: Root(g.w, r)
  {
    hide Shape, KernelSpace, IsLeafMap, AllPlaced;
    Refill(full, g.base, g.n, f);
    ApplyKeeps(full, g.base, Free(f));
    forall a | a in g.w
      ensures Held(s.pages, a)
    {
      CountAt(full, g.base, a, g.n);
      CountAt(s.pages, g.base, a, g.n);
      CountAt(full, g.base, f, g.n);
    }
  }

  /** After a failed fault in an empty part of a space, at a page below the first entry of its
      new pointer table, any map that needs a table, in any space, unmaps that page. */
  lemma MapCutsOff(sys: System, g: View, cr3: nat, data: File, seg: Segment, v: Address, r: nat, u: nat,
                   a: nat, flags: bv12)
    requires Inv(sys, g) && cr3 in sys.spaces && Within(seg, data) && !Succeeds(seg, PageOf(v))
    requires PageOf(v) % PAGE == 0 && UserPage(Slot(v)) && Slot(v).l3 == 0
    requires Missing(sys.machine.mem, cr3, Slot(v)) == 3 && g.n + 4 <= |sys.machine.pages|
    requires r in sys.spaces && u % PAGE == 0 && a % PAGE == 0 && UserPage(PathOf(u)) && flags & PRESENT == PRESENT
    requires var s1 := FileFaulted(sys.machine, cr3, data, seg, v);
             0 < Missing(s1.mem, r, PathOf(u)) && 0 !in Given(s1.pages, Missing(s1.mem, r, PathOf(u)))
    ensures var s1 := FileFaulted(sys.machine, cr3, data, seg, v);
            && Translate(s1.mem, cr3, Slot(v)) == Some(g.base + PAGE * g.n)
            && Translate(MapPage(s1, u, a, flags, r).mem, cr3, Slot(v)) == None
  {
    hide Tabled, Inv, FileFaulted, MapPage, Missing, Given, PathOf, Walk, OwnWayCut, OtherThrough, SlotZeroInUse,
         SameTranslationsBut, FaultState, Shape, TablesHeld, AllocMany;
    var s, f := sys.machine, g.base + PAGE * g.n;
    var s1 := FileFaulted(s, cr3, data, seg, v);
    var g0, full0, free0 := RunStarts(sys, g, cr3, [], []);
    DenseRoom(sys, g, 4);
    assert 1 + Missing(s.mem, cr3, Slot(v)) == 4;
    StateFull(sys, g, full0);
    var g1, full1 := FaultSteps(sys, g.n, s, g, full0, None, cr3, data, seg, v);
    TableAfterFrame(sys, g, cr3, data, seg, v);
    HeldInRun(sys, g.n, s1, g1, full1, f);
    StateTranslates(sys, g.n, s1, g1, full1, Some(f), cr3, Slot(v));
    var w', fs := MapPageRefines(s1, g1.w, g1.base, u, a, flags, r);
    NextGiven(s1.pages, 0, |fs|);
    FirstMany(s1.pages);
    assert fs[0] == f && f in fs;
    assert ThroughSlotZero(s1.mem, cr3, Slot(v), f + PAGE);
    assert Lost(s1.mem, cr3, Slot(v), fs);
    NotMissing(s1.mem, cr3, Slot(v));
  }

  lemma StateFull(sys: System, g: View, full: seq<Page>)
    requires FaultState(sys, g.n, sys.machine, g, full, None)
    ensures full == sys.machine.pages
  {
  }

  lemma DenseRoom(sys: System, g: View, k: nat)
    requires Inv(sys, g) && g.n + k <= |sys.machine.pages|
    ensures 0 !in Given(sys.machine.pages, k)
  {
    hide Shape, KernelSpace, IsLeafMap, Given, AllocMany;
    DenseMany(sys.machine.pages, g.base, g.n, k);
  }

  /** A fault in one space leaves the top-level table of another alone. */
  lemma OtherRootSame(sys: System, g: View, cr3: nat, data: File, seg: Segment, v: Address, r: nat)
    requires Inv(sys, g) && cr3 in sys.spaces && r in sys.spaces && r != cr3 && Within(seg, data)
    requires PageOf(v) % PAGE == 0 && UserPage(Slot(v))
    requires g.n + 1 + Missing(sys.machine.mem, cr3, Slot(v)) <= |sys.machine.pages|
    ensures forall i: Index :: At(FileFaulted(sys.machine, cr3, data, seg, v).mem, r, i) == At(sys.machine.mem, r, i)
  {
    hide KernelSpace, IsLeafMap, MapPage, Missing, AllocPages, AllocAddr, PathOf, EagerPage, Sound, Dense, FreePages,
         PageAt, Walk, SameTranslationsBut, Took, AllocMany, SameData;
    var s, a, f := sys.machine, PageOf(v), g.base + PAGE * g.n;
    var flags := if seg.write then READ_WRITE else READ_ONLY;
    FlagsPresent();
    PageAligned(s.pages, g.base, g.n);
    AllocDense(s.pages, g.base, g.n);
    var s1 := Machine(s.mem, AllocPages(s.pages));
    BackedAfterAlloc(s, g.w, g.base, g.n, s1);
    var w' := MapPageDense(s1, g.w, g.base, g.n + 1, a, f, flags, cr3);
    var m' := MapPage(s1, a, f, flags, cr3).mem;
    assert r in g.w && g.w[r] == Pml4(r) && m'[r] == s.mem[r];
    forall i: Index
      ensures At(FileFaulted(s, cr3, data, seg, v).mem, r, i) == At(s.mem, r, i)
    {
      OtherFrame(m', f, Data(EagerPage(data, seg, a)), r, i);
    }
  }

  /** The next frames after a failed fault. */
  lemma RoomAfter(sys: System, n0: nat, s: Machine, g: View, full: seq<Page>, f: nat, k: nat)
    requires FaultState(sys, n0, s, g, full, Some(f)) && g.n + k <= |s.pages|
    ensures 0 !in Given(s.pages, 1 + k) && |s.pages| == |full|
  {
    hide Shape, KernelSpace, IsLeafMap, AllPlaced, Given, AllocMany, AllocPages, AllocAddr;
    Refill(full, g.base, g.n, f);
    GivenSplit(s.pages, 1, k);
    FirstGiven(s.pages);
    DenseMany(full, g.base, g.n, k);
  }

  const FAR: Address := 0x80_0000_0000

  function EmptySegment(a: nat): (seg: Segment) { Segment(a, a, 0x10, 0, false) }

  lemma FarPaths()
    ensures Slot(FAR) == Path(1, 0, 0, 0) && PageOf(FAR) == FAR && FAR % PAGE == 0 && PathOf(FAR) == Path(1, 0, 0, 0)
  {
  }

  lemma TopsOfBoth(i: Index)
    ensures var m := SharedPage.Both().mem;
            0 < i ==> At(m, SharedPage.A, i) == NO_ENTRY && At(m, SharedPage.B, i) == NO_ENTRY
  {
  }

  /** Such a step from a state that the runs can be in, with spaces A and B: A touches an empty
      region at 512 GiB, the fault fails, and then a page is mapped in B. */
  lemma OverrunLosesPage()
    ensures Inv(SharedPage.Spaces(), SharedPage.Seen())
    ensures var s1 := FileFaulted(SharedPage.Both(), SharedPage.A, [], EmptySegment(FAR), FAR);
            && Translate(s1.mem, SharedPage.A, PathOf(FAR)) == Some(0xB000)
            && var s2 := MapPage(s1, FAR, SharedPage.FRAME, PRESENT, SharedPage.B);
               Translate(s2.mem, SharedPage.A, PathOf(FAR)) == None
  {
    hide Inv, FileFaulted, MapPage, Given, PathOf, FaultState, SharedPage.Both;
    var sys, g, s := SharedPage.Spaces(), SharedPage.Seen(), SharedPage.Both();
    var seg := EmptySegment(FAR);
    SharedPage.Possible();
    SharedPage.Twenty();
    FarPaths();
    TopsOfBoth(1);
    var s1 := FileFaulted(s, SharedPage.A, [], seg, FAR);
    OtherRootSame(sys, g, SharedPage.A, [], seg, FAR, SharedPage.B);
    assert Missing(s1.mem, SharedPage.B, PathOf(FAR)) == 3;
    var g0, full0, free0 := RunStarts(sys, g, SharedPage.A, [], []);
    DenseRoom(sys, g, 4);
    var g1, full1 := FaultSteps(sys, g.n, s, g, full0, None, SharedPage.A, [], seg, FAR);
    SamePages(s, SharedPage.A, [], seg, FAR);
    RoomAfter(sys, g.n, s1, g1, full1, 0xB000, 2);
    MapCutsOff(sys, g, SharedPage.A, [], seg, FAR, SharedPage.B, FAR, SharedPage.FRAME, PRESENT);
  }

  lemma SamePages(s: Machine, cr3: nat, data: File, seg: Segment, v: Address)
    requires Within(seg, data)
    ensures |FileFaulted(s, cr3, data, seg, v).pages| == |s.pages|
  {
    hide Put, ZeroFill, EagerPage, PathOf;
  }

  // ---------------------------------------------------------------- another page in the frame

  function OneByte(): (data: File) { [1] }

  /** An empty region and one of a single byte, accessed in this order. */
  function TwoSegments(): (segs: seq<Segment>) { [EmptySegment(0x5000), Segment(0x7000, 0x7001, 1, 0, false)] }

  function TwoTouches(): (ts: seq<Address>) { [0x5000, 0x7000] }

  lemma TwoFacts()
    ensures AllWithin(TwoSegments(), OneByte()) && Disjoint(TwoSegments())
    ensures Found(TwoSegments(), 0x5000) == 0 && Found(TwoSegments(), 0x7000) == 1
    ensures !Answers(TwoSegments(), 0x5000) && Answers(TwoSegments(), 0x7000) && Unshared(TwoSegments(), 0x5000)
    ensures Slot(0x5000) == Path(0, 0, 0, 5) && Slot(0x7000) == Path(0, 0, 0, 7)
    ensures PageOf(0x5000) == 0x5000 && PageOf(0x7000) == 0x7000
  {
    assert TwoSegments()[1..] == [Segment(0x7000, 0x7001, 1, 0, false)];
  }

  lemma TwoReads()
    requires AllWithin(TwoSegments(), OneByte()) && Found(TwoSegments(), 0x7000) == 1
    ensures Reads(OneByte(), TwoSegments(), 0x7000)[0] == 1 && !Blank(Reads(OneByte(), TwoSegments(), 0x7000))
  {
    var p := Reads(OneByte(), TwoSegments(), 0x7000);
    assert p[0] == EagerByte(OneByte(), TwoSegments()[1], 0x7000);
  }

  lemma TwoFaults()
    ensures var m := SharedPage.Both().mem;
            && Faults(m, SharedPage.A, TwoSegments(), TwoTouches(), 0)
            && Faults(m, SharedPage.A, TwoSegments(), TwoTouches(), 1)
            && Holder(m, SharedPage.A, TwoSegments(), TwoTouches(), 2, 0) == 1
  {
    TwoFacts();
    SharedPage.OnlyPageSeen(Path(0, 0, 0, 5));
    SharedPage.OnlyPageSeen(Path(0, 0, 0, 7));
    hide Slot, Found, Answers, Hardware, SharedPage.Both;
    assert TwoTouches()[0] == 0x5000 && TwoTouches()[1] == 0x7000;
  }

  lemma TwoRoomy()
    requires Inv(SharedPage.Spaces(), SharedPage.Seen()) && AllWithin(TwoSegments(), OneByte())
    ensures AllRoomy(SharedPage.Both(), SharedPage.A, OneByte(), TwoSegments(), TwoTouches(), 2)
  {
    hide Inv, FileFaulted, Given, FaultState, SharedPage.Both, Missing, Slot, Found, Hardware;
    var sys, g, s, cr3 := SharedPage.Spaces(), SharedPage.Seen(), SharedPage.Both(), SharedPage.A;
    var data, segs := OneByte(), TwoSegments();
    TwoFacts();
    SharedPage.Twenty();
    var k := Missing(s.mem, cr3, Slot(0x5000));
    MissingBound(s.mem, cr3, Slot(0x5000));
    DenseRoom(sys, g, 1 + k);
    SharedPage.OnlyPageSeen(Path(0, 0, 0, 5));
    var s1 := FileFaulted(s, cr3, data, segs[0], 0x5000);
    assert Touched(s, cr3, data, segs, 0x5000) == s1;
    var g0, full0, free0 := RunStarts(sys, g, cr3, [], []);
    assert Within(segs[0], data);
    var g1, full1 := FaultSteps(sys, g.n, s, g, full0, None, cr3, data, segs[0], 0x5000);
    SamePages(s, cr3, data, segs[0], 0x5000);
    MissingBound(s1.mem, cr3, Slot(0x7000));
    RoomAfter(sys, g.n, s1, g1, full1, FrameFor(g, None), Missing(s1.mem, cr3, Slot(0x7000)));
    TwoSteps(s, s1);
  }

  lemma TwoSteps(s: Machine, s1: Machine)
    requires AllWithin(TwoSegments(), OneByte()) && Touched(s, SharedPage.A, OneByte(), TwoSegments(), 0x5000) == s1
    requires Roomy(s, SharedPage.A, TwoSegments(), 0x5000) && Roomy(s1, SharedPage.A, TwoSegments(), 0x7000)
    ensures AllRoomy(s, SharedPage.A, OneByte(), TwoSegments(), TwoTouches(), 2)
  {
    hide Touched, Roomy;
    var ts := TwoTouches();
    assert ts[0] == 0x5000 && ts[1] == 0x7000;
    assert FaultRuns.Run(s, SharedPage.A, OneByte(), TwoSegments(), ts, 0) == s;
    assert FaultRuns.Run(s, SharedPage.A, OneByte(), TwoSegments(), ts, 1) == s1;
    assert AllRoomy(s, SharedPage.A, OneByte(), TwoSegments(), ts, 1);
  }

  /** A run from a state that the runs can be in after which the page at 0x5000, blank in the
      program, holds the byte of the page at 0x7000: both are mapped to one frame. */
  lemma FrameFilledTwice()
    ensures Inv(SharedPage.Spaces(), SharedPage.Seen()) && AllWithin(TwoSegments(), OneByte())
    ensures var m := FaultRuns.Run(SharedPage.Both(), SharedPage.A, OneByte(), TwoSegments(), TwoTouches(), 2).mem;
            var f := Translate(m, SharedPage.A, Slot(0x5000));
            && f.Some? && f.value in m && m[f.value].Data? && m[f.value].bytes[0] == 1
            && !IsProgramPage(OneByte(), TwoSegments(), 0x5000, m[f.value].bytes)
  {
    hide Inv, FaultRuns.Run, AllRoomy, SharedPage.Both, Slot, Found, Translate, Reads, Blank, IsProgramPage, Answers,
         Unshared, AllWithin, Disjoint, BlankIn, Hardware, Faults, Holder;
    SharedPage.Possible();
    TwoFacts();
    TwoReads();
    TwoFaults();
    TwoRoomy();
    assert TwoTouches()[0] == 0x5000 && TwoTouches()[1] == 0x7000;
    FaultsLoadProgram(SharedPage.Spaces(), SharedPage.Seen(), SharedPage.A, OneByte(), TwoSegments(), TwoTouches(),
                      2, 0);
  }
}
