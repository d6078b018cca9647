/** The argument strings of a process that forks (sys/memory.c, do_stack_vma; sys/process.c,
    copy_vm): they are in the page at the start of the stack, which the loop over the stack's
    region stops below. */
module ForkedStack {
  import opened Basics
  import opened PageList
  import opened PageTables
  import opened Leaves
  import opened Sharing
  import opened CowRuns
  import opened Fork
  import opened Stores
  import opened Protocol
  import ExecStack

  const STACK: Span := Span(ExecStack.STACK_START, ExecStack.STACK_START - 3 * PAGE)

  function StringsPage(): (p: Path)
  {
    PathOf(ExecStack.STACK_START)
  }

  /** The test of find_vma on a region without a file. */
  predicate Accepts(c: Span, v: nat)
  {
    if c.hi < c.lo then c.hi <= v <= c.lo else c.lo <= v <= c.hi
  }

  /** A region of the process, its stack or one below, is not visited at the strings' page. */
  lemma StringsNotVisited(regions: seq<Span>, x: nat)
    requires Proper(regions) && (forall i | 0 <= i < |regions| :: High(regions[i]) <= ExecStack.STACK_START)
    requires x in Visited(regions)
    ensures x < ExecStack.STACK_START && PathOf(x) != StringsPage()
  {
    hide PathOf, Visited, PageStart;
    VisitedOnce(regions);
    PathRoundTrip(PathOf(x), x);
    PathRoundTrip(StringsPage(), ExecStack.STACK_START);
    var i :| 0 <= i < |Visited(regions)| && Visited(regions)[i] == x;
  }

  /** After the fork the page is as it was for the parent and not mapped for the child. */
  lemma StringsNotShared(sys: System, g: View, parent: nat, regions: seq<Span>, records: nat)
    returns (child: nat, g': View)
    requires Inv(sys, g) && parent in sys.spaces && Proper(regions)
    requires forall i | 0 <= i < |regions| :: High(regions[i]) <= ExecStack.STACK_START
    requires ForkRoom(sys.machine, g.t, sys.kernel, parent, Visited(regions), records)
    ensures var s' := ForkMemory(sys.machine, sys.kernel, parent, Visited(regions), records);
            && Inv(System(s', sys.kernel, sys.spaces + {child}), g') && child !in sys.spaces
            && child == AllocAddr(Reserve(sys.machine, records).pages) && SameContents(sys.machine.mem, s'.mem, g.t)
            && Lookup(g'.t, parent, StringsPage()) == Lookup(g.t, parent, StringsPage())
            && Translate(s'.mem, child, StringsPage()) == None && (child, StringsPage()) !in g'.t
            && Translate(s'.mem, parent, StringsPage()) == Translate(sys.machine.mem, parent, StringsPage())
  {
    hide Tabled, Counted, PathOf, Visited, ForkMemory, ForkRoom, Reserve, AllocAddr, Translate, Shared;
    var l := Visited(regions);
    ProperIsAlignedOnce(regions, g.t, parent);
    child, g' := ForkKeeps(sys, g, parent, l, records);
    SharedPages(g.t, parent, child, l, child, StringsPage());
    SharedPages(g.t, parent, child, l, parent, StringsPage());
    NoLeaves(sys, g, child);
    forall i | 0 <= i < |l|
      ensures PathOf(l[i]) != StringsPage()
    {
      StringsNotVisited(regions, l[i]);
    }
    UserPath(ExecStack.STACK_START);
    var s' := ForkMemory(sys.machine, sys.kernel, parent, l, records);
    LeafTranslates(System(s', sys.kernel, sys.spaces + {child}), g', child, StringsPage());
    SpaceRoot(sys, g, parent);
  }

  /** The child's fault there is accepted as one of the stack and gives it an empty page: it reads
      zeros where its arguments were, while the parent still reads them. */
  lemma ChildReadsZeros(sys: System, g: View, parent: nat, regions: seq<Span>, records: nat, v: nat)
    requires Inv(sys, g) && parent in sys.spaces && Proper(regions)
    requires forall i | 0 <= i < |regions| :: High(regions[i]) <= ExecStack.STACK_START
    requires ForkRoom(sys.machine, g.t, sys.kernel, parent, Visited(regions), records)
    requires Room(ForkMemory(sys.machine, sys.kernel, parent, Visited(regions), records), 4)
    requires ExecStack.STACK_START <= v < ExecStack.STACK_START + PAGE && (parent, StringsPage()) in g.t
    ensures Accepts(STACK, ExecStack.STACK_START) && Low(STACK) + PAGE * 3 == High(STACK) == ExecStack.STACK_START
    ensures var s' := ForkMemory(sys.machine, sys.kernel, parent, Visited(regions), records);
            var child := AllocAddr(Reserve(sys.machine, records).pages);
            var m := FillPage(s', child, ExecStack.STACK_START, READ_WRITE, true, seq(4096, _ => 0)).mem;
            && LoadByte(s'.mem, child, v) == None && LoadByte(m, child, v) == Some(0)
            && LoadByte(m, parent, v) == LoadByte(sys.machine.mem, parent, v)
  {
    hide Inv, Tabled, PathOf, Visited, ForkMemory, ForkRoom, Reserve, AllocAddr, Translate, FillPage, FirstFree,
         Missing, StringsPage, Proper, SameContents, SameTranslationsBut;
    var child, g' := StringsNotShared(sys, g, parent, regions, records);
    var s' := ForkMemory(sys.machine, sys.kernel, parent, Visited(regions), records);
    var sys', zeros: Bytes := System(s', sys.kernel, sys.spaces + {child}), seq(4096, _ => 0);
    PageThere();
    InvTabled(sys', g');
    FirstFreeIs(sys', g');
    MissingBound(s'.mem, child, StringsPage());
    FlagsPresent();
    var g2 := FillKeeps(sys', g', child, ExecStack.STACK_START, READ_WRITE, true, zeros);
    var s2 := FillPage(s', child, ExecStack.STACK_START, READ_WRITE, true, zeros);
    var sys2 := sys'.(machine := s2);
    InvTabled(sys2, g2);
    InvTabled(sys, g);
    InSamePage(v);
    LeafTranslates(sys2, g2, child, StringsPage());
    LeafTranslates(sys2, g2, parent, StringsPage());
    LeafTranslates(sys, g, parent, StringsPage());
    ContentsAt(sys.machine.mem, s'.mem, g.t, (parent, StringsPage()));
    ContentsAt(s'.mem, s2.mem, g'.t, (parent, StringsPage()));
  }

  lemma PageThere()
    ensures StringsPage() == PathOf(ExecStack.STACK_START) && UserPage(StringsPage())
    ensures ExecStack.STACK_START % PAGE == 0
  {
  }

  lemma InSamePage(v: nat)
    requires ExecStack.STACK_START <= v < ExecStack.STACK_START + PAGE
    ensures PathOf(v) == StringsPage()
  {
  }
}
