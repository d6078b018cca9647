/** Pages of a forking process that are not loaded yet (sys/process.c, first loop of copy_vm;
    sys/virt_mmgr.c, change_flags_in_parent_page_tables): the flag change makes their last
    entries present, so that the processor sees frame 0 and never asks for the page. */
module ExposedPage {
  import opened PageList
  import opened PageTables
  import opened PageFlags
  import opened Presence
  import opened TableCopy
  import opened Leaves
  import opened Sharing
  import opened CowRuns
  import opened Fork
  import opened ForkedWrites
  import opened DemandPaging
  import opened FaultRuns
  import SharedPage

  // ---------------------------------------------------------------- stores to such a page

  /** The machine after `k` write faults on the page. */
  function Attempts(s: Machine, cr3: nat, v: nat, k: nat): (r: Machine)
  {
    if k == 0 then s else CowFault(Attempts(s, cr3, v, k - 1), cr3, v).0
  }

  /** The page is seen without being mapped. */
  ghost predicate Exposed(m: Memory, cr3: nat, p: Path)
  {
    Hardware(m, cr3, p) == Some(0)
  }

  /** However often a store to such a page is tried, the handler answers -1 each time and takes
      one frame, the page stays unmapped and seen as frame 0, and nothing else changes. */
  lemma {:induction false} AttemptsTakeFrames(sys: System, g: View, cr3: nat, v: nat, k: nat)
    requires Inv(sys, g) && cr3 in sys.spaces && UserPage(PathOf(v)) && Exposed(sys.machine.mem, cr3, PathOf(v))
    requires g.n + k <= |sys.machine.pages|
    ensures var s := Attempts(sys.machine, cr3, v, k);
            && Inv(sys.(machine := s), g.(n := g.n + k)) && |s.pages| == |sys.machine.pages|
            && SameContents(sys.machine.mem, s.mem, g.t) && SameSight(sys.machine.mem, s.mem, g.w)
            && Exposed(s.mem, cr3, PathOf(v)) && Translate(s.mem, cr3, PathOf(v)) == None
    ensures 0 < k ==> CowFault(Attempts(sys.machine, cr3, v, k - 1), cr3, v).1 == -1
  {
    hide Inv, Hardware, CowFault, PathOf, Translate, SameContents, SameSight;
    if k == 0 {
      SightSelf(sys.machine.mem, g.w);
      InvContents(sys, g);
      ExposedUnmapped(sys.machine.mem, cr3, PathOf(v));
    } else {
      AttemptsTakeFrames(sys, g, cr3, v, k - 1);
      var s, g1 := Attempts(sys.machine, cr3, v, k - 1), g.(n := g.n + (k - 1));
      ExposedUnmapped(s.mem, cr3, PathOf(v));
      AttemptSteps(sys.(machine := s), g1, cr3, v);
      var s' := CowFault(s, cr3, v).0;
      SightTwice(sys.machine.mem, s.mem, s'.mem, g.w, g.w);
      SameContentsTransitive(sys.machine.mem, s.mem, s'.mem, g.t);
      InvRoot(sys, g, cr3);
      SightOf(sys.machine.mem, s'.mem, g.w, cr3, PathOf(v));
      ExposedUnmapped(s'.mem, cr3, PathOf(v));
    }
  }

  lemma InvRoot(sys: System, g: View, cr3: nat)
    requires Inv(sys, g) && cr3 in sys.spaces
    ensures Root(g.w, cr3) && Shape(sys.machine.mem, g.w)
  {
  }

  lemma InvContents(sys: System, g: View)
    requires Inv(sys, g)
    ensures SameContents(sys.machine.mem, sys.machine.mem, g.t)
  {
    SameContentsReflexive(sys, g);
  }

  lemma SightOf(m: Memory, m': Memory, w: Places, r: nat, q: Path)
    requires SameSight(m, m', w) && Root(w, r)
    ensures Hardware(m', r, q) == Hardware(m, r, q)
  {
  }

  lemma ExposedUnmapped(m: Memory, cr3: nat, p: Path)
    requires Exposed(m, cr3, p)
    ensures Walk(m, cr3, p) == 0 && Translate(m, cr3, p) == None
  {
    SeenWhereWalked(m, cr3, p);
  }

  /** One write fault on an unmapped page that the processor sees. */
  lemma AttemptSteps(sys: System, g: View, cr3: nat, v: nat)
    requires Inv(sys, g) && Walk(sys.machine.mem, cr3, PathOf(v)) <= 0 && g.n < |sys.machine.pages|
    ensures CowFault(sys.machine, cr3, v) == (TakeScratch(sys.machine), -1)
    ensures var s := TakeScratch(sys.machine);
            && Inv(sys.(machine := s), g.(n := g.n + 1)) && |s.pages| == |sys.machine.pages|
            && SameContents(sys.machine.mem, s.mem, g.t) && SameSight(sys.machine.mem, s.mem, g.w)
  {
    hide Shape, Backed, KernelSpace, IsLeafMap, TakeScratch, Walk, PathOf, Hardware, Sharers, PageAt, CowCopy,
         ChangeFlags;
    CowUnmapped(sys, g, cr3, v);
    var g1 := ScratchKeeps(sys, g);
    var m' := TakeScratch(sys.machine).mem;
    assert forall a, i: Index | a in g.w :: At(m', a, i) == At(sys.machine.mem, a, i);
    SameTablesSight(sys.machine.mem, m', g.w);
  }

  // ---------------------------------------------------------------- a region that is not loaded yet

  const UNLOADED: Address := 0x5000

  /** A region of one byte of the file, at an address where nothing is mapped. */
  function OneSegment(): (segs: seq<Segment>) { [Segment(0x5000, 0x5001, 1, 0, false)] }

  function Again(k: nat): (ts: seq<Address>)
  {
    seq(k, _ => UNLOADED)
  }

  lemma OneFacts()
    ensures AllWithin(OneSegment(), [1]) && Disjoint(OneSegment()) && Found(OneSegment(), UNLOADED) == 0
    ensures Slot(UNLOADED) == PathOf(UNLOADED) == Path(0, 0, 0, 5) && UserPage(PathOf(UNLOADED))
    ensures AlignedOnce(SharedPage.Pages(), SharedPage.A, [UNLOADED]) && UserAddresses([UNLOADED])
  {
  }

  /** The allocations of the fork succeed. */
  lemma UnloadedRoom()
    requires Inv(SharedPage.Spaces(), SharedPage.Seen())
    ensures ForkRoom(SharedPage.Both(), SharedPage.Pages(), SharedPage.KERNEL, SharedPage.A, [UNLOADED], 0)
  {
    hide Inv, SharedPage.Both, CopyTables, Protect, Nodes, PathOf, FirstFree, AllocAddr, ShareOne;
    SharedPage.Twenty();
    SharedPage.KernelNodes();
    InvTabled(SharedPage.Spaces(), SharedPage.Seen());
    FirstFreeIs(SharedPage.Spaces(), SharedPage.Seen());
    OneFacts();
    var s, t, l := SharedPage.Both(), SharedPage.Pages(), [UNLOADED];
    assert Reserve(s, 0) == s;
    var s2, child := CopyTables(s, SharedPage.KERNEL, 4), AllocAddr(s.pages);
    var s3 := s2.(mem := Protect(s2.mem, SharedPage.A, l));
    assert l[1..] == [];
    assert ShareRoom(s3, t, SharedPage.A, child, l);
  }

  /** Before the fork the processor does not see the page, so that an access would load it. */
  lemma WouldLoad()
    ensures Misses(SharedPage.Both().mem, SharedPage.A, OneSegment(), UNLOADED)
  {
    hide SharedPage.Both, Hardware;
    OneFacts();
    SharedPage.OnlyPageSeen(Path(0, 0, 0, 5));
  }

  /** A process with a region that is not loaded yet forks.  The state is one that the runs can
      be in, but from then on the processor sees frame 0 at the page of the region: however often
      the process reads it, nothing is loaded. */
  lemma NeverLoaded(k: nat) returns (g: View)
    ensures AllWithin(OneSegment(), [1])
    ensures var s := ForkMemory(SharedPage.Both(), SharedPage.KERNEL, SharedPage.A, [UNLOADED], 0);
            var child := AllocAddr(Reserve(SharedPage.Both(), 0).pages);
            && Inv(System(s, SharedPage.KERNEL, {SharedPage.A, SharedPage.B} + {child}), g)
            && Misses(SharedPage.Both().mem, SharedPage.A, OneSegment(), UNLOADED)
            && Exposed(s.mem, SharedPage.A, PathOf(UNLOADED))
            && Translate(s.mem, SharedPage.A, PathOf(UNLOADED)) == None
            && FaultRuns.Run(s, SharedPage.A, [1], OneSegment(), Again(k), k) == s
            && !Misses(s.mem, SharedPage.A, OneSegment(), UNLOADED)
  {
    hide Inv, SharedPage.Both, ForkMemory, Reserve, ForkRoom, AllocAddr, PathOf, Slot, Hardware, Found, AllWithin,
         FaultRuns.Run, Translate;
    var sys, g0 := SharedPage.Spaces(), SharedPage.Seen();
    SharedPage.Possible();
    OneFacts();
    WouldLoad();
    UnloadedRoom();
    NotMissingHere();
    ForkExposes(sys, g0, SharedPage.A, [UNLOADED], 0, 0);
    var child;
    child, g := ForkKeeps(sys, g0, SharedPage.A, [UNLOADED], 0);
    var s := ForkMemory(SharedPage.Both(), SharedPage.KERNEL, SharedPage.A, [UNLOADED], 0);
    ExposedUnmapped(s.mem, SharedPage.A, PathOf(UNLOADED));
    NothingHappens(s, k, k);
  }

  lemma NotMissingHere()
    ensures Missing(SharedPage.Both().mem, SharedPage.A, PathOf(UNLOADED)) == 0
  {
    hide SharedPage.Both;
    OneFacts();
    SharedPage.TablesThere(Path(0, 0, 0, 5));
  }

  lemma {:induction false} NothingHappens(s: Machine, k: nat, i: nat)
    requires i <= k && AllWithin(OneSegment(), [1]) && !Misses(s.mem, SharedPage.A, OneSegment(), UNLOADED)
    ensures FaultRuns.Run(s, SharedPage.A, [1], OneSegment(), Again(k), i) == s
  {
    hide Misses;
    if i != 0 {
      NothingHappens(s, k, i - 1);
      assert Again(k)[i - 1] == UNLOADED;
    }
  }
}
