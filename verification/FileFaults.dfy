/** do_anon_fault and do_file_fault (sys/page_faults.c) as steps on memory and page list, the
    failing path of the latter included: the frame is given back but stays mapped. */
module FileFaults {
  import opened Basics
  import opened PageList
  import opened PageTables
  import opened Leaves
  import opened Sharing
  import opened TableCopy
  import opened FileReads
  import opened DemandPaging
  import Util

  /** The fault on `address` of a region without a file. */
  function AnonFaulted(s: Machine, cr3: nat, address: nat, write: bool): (r: Machine)
    requires address < WORD_LIMIT
  {
    FillPage(s, cr3, Util.PageRoundUp(address), if write then READ_WRITE else READ_ONLY, true, seq(4096, _ => 0))
  }

  /** The fault on `address` of the segment. */
  function FileFaulted(s: Machine, cr3: nat, data: File, seg: Segment, address: nat): (r: Machine)
    requires Within(seg, data) && address < WORD_LIMIT
  {
    var a := Util.PageRoundUp(address);
    var s' := FillPage(s, cr3, a, if seg.write then READ_WRITE else READ_ONLY, false, EagerPage(data, seg, a));
    if Succeeds(seg, a) then s' else s'.(pages := FreePages(s'.pages, AllocAddr(s.pages)))
  }

  /** The page is mapped to the frame that the next allocation will return. */
  ghost predicate Dangling(s: Machine, cr3: nat, p: Path)
  {
    Translate(s.mem, cr3, p) == Some(AllocAddr(s.pages)) && AllocAddr(s.pages) != 0
  }

  /** The list once the frame at place `n` is given back: it is the next to be handed out. */
  lemma FreedIsNext(s: seq<Page>, base: nat, n: nat, n': nat)
    requires Sound(s, base) && Dense(s, n') && n < n' && s[n].count == 1
    ensures var s' := FreePages(s, base + PAGE * n);
            AllocAddr(s') == base + PAGE * n && IndexOf(s', base + PAGE * n) == n && |s'| == |s| && s'[n].count == 0
  {
    IndexOfListed(s, base, n);
    var s' := FreePages(s, base + PAGE * n);
    FirstFreeUnique(s', n);
    IndexOfFirst(s', base + PAGE * n, n);
  }

  /** A fault on a page that is not mapped keeps the counts right, in some view of the tables,
      exactly when it succeeds; when it fails, the page is left mapped to a free frame. */
  lemma FileFaultExact(sys: System, g: View, cr3: nat, data: File, seg: Segment, address: nat)
    requires Inv(sys, g) && cr3 in sys.spaces && Within(seg, data) && seg.start <= address < WORD_LIMIT
    requires var p := PathOf(Util.PageRoundUp(address));
             && UserPage(p) && (cr3, p) !in g.t
             && g.n + 1 + Missing(sys.machine.mem, cr3, p) <= |sys.machine.pages|
    ensures var a := Util.PageRoundUp(address);
            var sys' := sys.(machine := FileFaulted(sys.machine, cr3, data, seg, address));
            && (Succeeds(seg, a) <==> exists g' :: Inv(sys', g'))
            && (!Succeeds(seg, a) <==> Dangling(sys'.machine, cr3, PathOf(a)))
  {
    hide FillPage, Missing, PathOf, Shape, Backed, KernelSpace, Translate, EagerPage, FreePages, PageAt, AllocAddr;
    var a := Util.PageRoundUp(address);
    var p := PathOf(a);
    var flags := if seg.write then READ_WRITE else READ_ONLY;
    var s' := FillPage(sys.machine, cr3, a, flags, false, EagerPage(data, seg, a));
    FlagsPresent();
    var g' := FillKeeps(sys, g, cr3, a, flags, false, EagerPage(data, seg, a));
    var sys1 := sys.(machine := s');
    var f := g.base + PAGE * g.n;
    FrameTaken(sys, g, sys1, g', cr3, p, f);
    if Succeeds(seg, a) {
      assert sys.(machine := FileFaulted(sys.machine, cr3, data, seg, address)) == sys1;
      assert Inv(sys1, g');
    } else {
      var sys2 := sys.(machine := s'.(pages := FreePages(s'.pages, f)));
      forall g2: View
        ensures !Inv(sys2, g2)
      {
        FreedNotCounted(sys1, g', sys2, g2, cr3, p, f);
      }
      assert sys.(machine := FileFaulted(sys.machine, cr3, data, seg, address)) == sys2;
    }
  }

  /** After the fault the frame is mapped once and in use, so that it is not the next to be
      handed out; it would be if it were given back. */
  lemma FrameTaken(sys: System, g: View, sys1: System, g1: View, cr3: nat, p: Path, f: nat)
    requires Inv(sys, g) && Inv(sys1, g1) && cr3 in sys1.spaces && UserPage(p) && f == g.base + PAGE * g.n
    requires g1.base == g.base && (cr3, p) !in g.t && g1.t == g.t[(cr3, p) := f] && g.n < |sys.machine.pages|
    requires forall k | k in g.t :: g.t[k] != f
    ensures AllocAddr(sys.machine.pages) == f && 0 < f
    ensures Translate(sys1.machine.mem, cr3, p) == Some(f) && Sharers(g1.t, f) == 1
    ensures AllocAddr(sys1.machine.pages) != f && AllocAddr(FreePages(sys1.machine.pages, f)) == f
    ensures PageAt(FreePages(sys1.machine.pages, f), f).count == 0
  {
    hide Translate, Shape, KernelSpace, Sharers, FreePages, AllocPages, AllocAddr, PageAt, FirstFree, IndexOf,
         IsLeafMap;
    AllocDense(sys.machine.pages, g.base, g.n);
    MappedOnce(sys1, g, g1, cr3, p, f);
    var s := sys1.machine.pages;
    CountAt(s, g.base, f, g1.n);
    FreedIsNext(s, g.base, g.n, g1.n);
    FreedCount(s, f, g.n);
    AllocTakesLowest(s, g.base, g.n);
  }

  lemma FreedCount(s: seq<Page>, f: nat, n: nat)
    requires IndexOf(FreePages(s, f), f) == n && n < |s| && FreePages(s, f)[n].count == 0
    ensures PageAt(FreePages(s, f), f).count == 0
  {
  }

  lemma MappedOnce(sys1: System, g: View, g1: View, cr3: nat, p: Path, f: nat)
    requires Inv(sys1, g1) && cr3 in sys1.spaces && UserPage(p)
    requires (cr3, p) !in g.t && g1.t == g.t[(cr3, p) := f] && forall k | k in g.t :: g.t[k] != f
    ensures Translate(sys1.machine.mem, cr3, p) == Some(f) && Sharers(g1.t, f) == 1
    ensures Counted(sys1.machine, g1, f)
  {
    hide Translate, Shape, KernelSpace, Sharers, Backed, PageAt;
    AddLeaf(g.t, (cr3, p), f, f);
    NoSharers(g.t, f);
    assert Counted(sys1.machine, g1, g1.t[(cr3, p)]);
  }

  lemma FreedNotCounted(sys1: System, g1: View, sys2: System, g2: View, cr3: nat, p: Path, f: nat)
    requires Inv(sys1, g1) && cr3 in sys1.spaces && UserPage(p) && (cr3, p) in g1.t && g1.t[(cr3, p)] == f
    requires Sharers(g1.t, f) == 1 && sys2 == sys1.(machine := sys2.machine) && sys2.machine.mem == sys1.machine.mem
    requires PageAt(sys2.machine.pages, f).count == 0
    ensures !Inv(sys2, g2)
  {
    hide Shape, KernelSpace, Backed, Sharers, PageAt, Translate;
    if IsLeafMap(sys2.machine.mem, sys2.spaces, g2.t) {
      LeafMapUnique(sys1.machine.mem, sys1.spaces, g1.t, g2.t);
      assert !Counted(sys2.machine, g2, g2.t[(cr3, p)]);
    }
  }
}
