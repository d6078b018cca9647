/** Runs of page faults, forks, execs and stores of user programs over physical memory shared
    by many processes (sys/page_faults.c, sys/process.c): reference-count conservation holds
    after every interleaving, and what a space reads is changed by stores to its frames only. */
module Protocol {
  import opened Basics
  import opened PageList
  import opened PageTables
  import opened PageFlags
  import opened TableCopy
  import opened Leaves
  import opened Sharing
  import opened CowRuns
  import opened Fork
  import opened Stores

  // ---------------------------------------------------------------- regions visit each page once

  const USER_END: nat := 0x8000_0000_0000

  /** Page-aligned lower bounds in the user half, and no two regions share a page. */
  ghost predicate Proper(regions: seq<Span>)
  {
    && (forall i | 0 <= i < |regions| :: Low(regions[i]) % PAGE == 0 && High(regions[i]) <= USER_END)
    && (forall i, j | 0 <= i < j < |regions| :: Apart(regions[i], regions[j]))
  }

  ghost predicate Apart(r: Span, r': Span)
  {
    forall x: nat | x % PAGE == 0 :: !(Low(r) <= x < High(r) && Low(r') <= x < High(r'))
  }

  ghost predicate Once(l: seq<nat>)
  {
    && (forall i | 0 <= i < |l| :: l[i] % PAGE == 0 && l[i] < USER_END)
    && (forall i, j | 0 <= i < j < |l| :: l[i] != l[j])
  }

  lemma {:induction false} AddressesOnce(lo: nat, hi: nat)
    requires lo % PAGE == 0 && hi <= USER_END
    ensures Once(Addresses(lo, hi))
    ensures forall x | x in Addresses(lo, hi) :: lo <= x < hi
    decreases hi - lo
  {
    if lo < hi {
      AddressesOnce(lo + PAGE, hi);
      var rest := Addresses(lo + PAGE, hi);
      assert forall i | 0 <= i < |rest| :: rest[i] in rest;
    }
  }

  lemma {:induction false} VisitedOnce(regions: seq<Span>)
    requires Proper(regions)
    ensures Once(Visited(regions))
    ensures forall x | x in Visited(regions) :: exists i | 0 <= i < |regions| :: Low(regions[i]) <= x < High(regions[i])
  {
    if regions != [] {
      var first, rest := Addresses(Low(regions[0]), High(regions[0])), regions[1..];
      AddressesOnce(Low(regions[0]), High(regions[0]));
      assert forall i | 0 <= i < |rest| :: rest[i] == regions[i + 1];
      VisitedOnce(rest);
      var l := Visited(rest);
      forall x | x in first
        ensures x !in l
      {
        forall i | 0 <= i < |rest|
          ensures !(Low(rest[i]) <= x < High(rest[i]))
        {
          assert Apart(regions[0], regions[i + 1]);
        }
      }
      assert forall i | 0 <= i < |first| :: first[i] in first;
      assert forall i | 0 <= i < |l| :: l[i] in l;
      forall x | x in first + l
        ensures exists i | 0 <= i < |regions| :: Low(regions[i]) <= x < High(regions[i])
      {
        if x in first {
          assert Low(regions[0]) <= x < High(regions[0]);
        } else {
          var i :| 0 <= i < |rest| && Low(rest[i]) <= x < High(rest[i]);
          assert Low(regions[i + 1]) <= x < High(regions[i + 1]);
        }
      }
    }
  }

  /** Regions that meet the condition are forked with exact counts. */
  lemma ProperIsAlignedOnce(regions: seq<Span>, t: LeafMap, parent: nat)
    requires Proper(regions)
    ensures AlignedOnce(t, parent, Visited(regions)) && UserAddresses(Visited(regions))
  {
    VisitedOnce(regions);
    var l := Visited(regions);
    hide PathOf, PageStart, Visited;
    forall i | 0 <= i < |l|
      ensures UserPage(PathOf(l[i])) && forall j | 0 <= j < i :: PathOf(l[j]) != PathOf(l[i])
    {
      UserPath(l[i]);
      PathRoundTrip(PathOf(l[i]), l[i]);
      forall j | 0 <= j < i
        ensures PathOf(l[j]) != PathOf(l[i])
      {
        PathRoundTrip(PathOf(l[j]), l[j]);
      }
    }
  }

  lemma UserPath(v: nat)
    requires v < USER_END
    ensures UserPage(PathOf(v))
  {
  }

  // ---------------------------------------------------------------- steps

  datatype Op =
    | Fill(cr3: nat, v: nat, flags: bv12, flagFirst: bool, bytes: Bytes)  // anonymous and file faults, stack pages
    | Cow(cr3: nat, v: nat)                                               // write fault on a present page
    | ForkOp(parent: nat, regions: seq<Span>, records: nat)
    | Exec(records: nat)                                                  // a new, empty space
    | Store(cr3: nat, v: nat, byte: bv8)                                  // a store of the user program

  function Step(sys: System, op: Op): (r: System)
  {
    match op
    case Fill(cr3, v, flags, flagFirst, bytes) =>
      sys.(machine := FillPage(sys.machine, cr3, v, flags, flagFirst, bytes))
    case Cow(cr3, v) =>
      sys.(machine := CowFault(sys.machine, cr3, v).0)
    case ForkOp(parent, regions, records) =>
      System(ForkMemory(sys.machine, sys.kernel, parent, Visited(regions), records), sys.kernel,
             sys.spaces + {AllocAddr(Reserve(sys.machine, records).pages)})
    case Exec(records) =>
      var s1 := Reserve(sys.machine, records);
      System(CopyTables(s1, sys.kernel, 4), sys.kernel, sys.spaces + {AllocAddr(s1.pages)})
    case Store(cr3, v, byte) =>
      sys.(machine := sys.machine.(mem := StoreByte(sys.machine.mem, cr3, v, byte)))
  }

  ghost predicate FaultAt(sys: System, cr3: nat, v: nat)
  {
    cr3 in sys.spaces && v % PAGE == 0 && v < USER_END
  }

  /** Faults of the first kind hit unmapped pages, write faults any page, mapped or only seen,
      forked regions are proper, no allocation fails, and a store goes to a page that the tables
      let the program write. */
  ghost predicate Enabled(sys: System, op: Op)
  {
    var s := sys.machine;
    match op
    case Fill(cr3, v, flags, _, _) =>
      && FaultAt(sys, cr3, v) && flags & PRESENT == PRESENT
      && Translate(s.mem, cr3, PathOf(v)) == None
      && Room(s, 1 + Missing(s.mem, cr3, PathOf(v)))
    case Cow(cr3, v) =>
      FaultAt(sys, cr3, v) && Room(s, if Translate(s.mem, cr3, PathOf(v)).Some? then 2 else 1)
    case ForkOp(parent, regions, records) =>
      && parent in sys.spaces && Proper(regions)
      && forall t | IsLeafMap(s.mem, sys.spaces, t) :: ForkRoom(s, t, sys.kernel, parent, Visited(regions), records)
    case Exec(records) =>
      Room(s, records) && Room(Reserve(s, records), Nodes(Reserve(s, records).mem, sys.kernel, 4))
    case Store(cr3, v, _) =>
      cr3 in sys.spaces && v < USER_END && CanWrite(s.mem, cr3, PathOf(v))
  }

  /** The space whose mappings the operation may change. */
  predicate Targets(op: Op, r: nat)
  {
    (op.Fill? && op.cr3 == r) || (op.Cow? && op.cr3 == r)
  }

  /** The step is a store to the frame. */
  predicate Hits(m: Memory, op: Op, f: nat)
  {
    op.Store? && Translate(m, op.cr3, PathOf(op.v)) == Some(f)
  }

  function Written(was: Frame, m: Memory, op: Op, f: nat): (r: Frame)
  {
    if Hits(m, op, f) then Stored(was, true, op.v, op.byte) else was
  }

  /** The mapped frames hold what they held, but for the byte of a store that hits them. */
  ghost predicate ContentsBy(m: Memory, m': Memory, t: LeafMap, op: Op)
  {
    forall k | k in t :: t[k] in m && t[k] in m' && m'[t[k]] == Written(m[t[k]], m, op, t[k])
  }

  /** Every page of every space, the kernel's half included, translates as before, but for the
      page that the operation targets. */
  ghost predicate TranslatesBut(m: Memory, m': Memory, w: Places, op: Op)
  {
    forall r, q: Path | Root(w, r) && !(Targets(op, r) && q == PathOf(op.v)) ::
      Translate(m', r, q) == Translate(m, r, q)
  }

  /** Between two states: spaces are only added, the pages of every space but those the
      operation targets are mapped to the same frames, and frames change by stores only. */
  ghost predicate Isolated(sys: System, g: View, sys': System, g': View, op: Op)
  {
    && sys.spaces <= sys'.spaces && sys'.kernel == sys.kernel
    && ContentsBy(sys.machine.mem, sys'.machine.mem, g.t, op)
    && TranslatesBut(sys.machine.mem, sys'.machine.mem, g.w, op)
    && forall r, q: Path | r in sys.spaces && !Targets(op, r) :: Lookup(g'.t, r, q) == Lookup(g.t, r, q)
  }

  lemma NoStore(m: Memory, m': Memory, t: LeafMap, op: Op)
    requires SameContents(m, m', t) && !op.Store?
    ensures ContentsBy(m, m', t, op)
  {
  }

  lemma FillStep(sys: System, g: View, op: Op) returns (g': View)
    requires Inv(sys, g) && op.Fill? && Enabled(sys, op)
    ensures Inv(Step(sys, op), g') && Isolated(sys, g, Step(sys, op), g', op)
  {
    hide Tabled, PathOf, FillPage, Missing, Translate, Counted, SameContents;
    UserPath(op.v);
    FirstFreeIs(sys, g);
    LeafTranslates(sys, g, op.cr3, PathOf(op.v));
    g' := FillKeeps(sys, g, op.cr3, op.v, op.flags, op.flagFirst, op.bytes);
    NoStore(sys.machine.mem, Step(sys, op).machine.mem, g.t, op);
  }

  lemma CowStep(sys: System, g: View, op: Op) returns (g': View)
    requires Inv(sys, g) && op.Cow? && Enabled(sys, op)
    ensures Inv(Step(sys, op), g') && Isolated(sys, g, Step(sys, op), g', op)
  {
    hide Tabled, PathOf, CowFault, Translate, Counted, SameContents, Sharers, TablesSame, LastBytesKept, TakeScratch;
    UserPath(op.v);
    FirstFreeIs(sys, g);
    LeafTranslates(sys, g, op.cr3, PathOf(op.v));
    if (op.cr3, PathOf(op.v)) in g.t {
      g' := CowFaultKeeps(sys, g, op.cr3, op.v);
    } else {
      UnmappedWalk(sys.machine.mem, op.cr3, PathOf(op.v));
      CowUnmapped(sys, g, op.cr3, op.v);
      g' := ScratchKeeps(sys, g);
      ScratchTranslations(sys, g, TakeScratch(sys.machine).mem);
    }
    NoStore(sys.machine.mem, Step(sys, op).machine.mem, g.t, op);
  }

  lemma UnmappedWalk(m: Memory, cr3: nat, p: Path)
    requires Translate(m, cr3, p) == None
    ensures Walk(m, cr3, p) <= 0
  {
  }

  lemma ForkStep(sys: System, g: View, op: Op) returns (g': View)
    requires Inv(sys, g) && op.ForkOp? && Enabled(sys, op)
    ensures Inv(Step(sys, op), g') && Isolated(sys, g, Step(sys, op), g', op)
  {
    hide PathOf, ForkMemory, Translate, Counted, SameContents, Visited, Shared, Reserve, AllocAddr, ForkRoom,
         KernelSpace, Shape, Backed;
    var l := Visited(op.regions);
    ProperIsAlignedOnce(op.regions, g.t, op.parent);
    var child;
    child, g' := ForkKeeps(sys, g, op.parent, l, op.records);
    NoStore(sys.machine.mem, Step(sys, op).machine.mem, g.t, op);
    forall r, q: Path | r in sys.spaces
      ensures Lookup(g'.t, r, q) == Lookup(g.t, r, q)
    {
      SharedPages(g.t, op.parent, child, l, r, q);
    }
  }

  lemma ExecStep(sys: System, g: View, op: Op) returns (g': View)
    requires Inv(sys, g) && op.Exec? && Enabled(sys, op)
    ensures Inv(Step(sys, op), g') && Isolated(sys, g, Step(sys, op), g', op)
  {
    hide Tabled, Counted, SameContents, Reserve, AllocAddr, Nodes, CopyTables, TablesSame, Translate;
    var s1 := Reserve(sys.machine, op.records);
    var sys1, g1 := sys.(machine := s1), g.(n := g.n + op.records);
    FirstFreeIs(sys, g);
    ReserveKeeps(sys, g, op.records);
    FirstFreeIs(sys1, g1);
    g' := NewSpaceKeeps(sys1, g1);
    SameContentsTransitive(sys.machine.mem, s1.mem, CopyTables(s1, sys.kernel, 4).mem, g.t);
    ScratchTranslations(sys, g, s1.mem);
    ScratchTranslations(sys1, g1, CopyTables(s1, sys.kernel, 4).mem);
    NoStore(sys.machine.mem, Step(sys, op).machine.mem, g.t, op);
  }

  lemma StoreStep(sys: System, g: View, op: Op) returns (g': View)
    requires Inv(sys, g) && op.Store? && Enabled(sys, op)
    ensures Inv(Step(sys, op), g') && Isolated(sys, g, Step(sys, op), g', op)
  {
    hide Tabled, PathOf, Translate, Counted, StoreByte, CanWrite;
    UserPath(op.v);
    StoreKeeps(sys, g, op.cr3, op.v, op.byte);
    g' := g;
  }

  /** Every step keeps the invariant and leaves other spaces alone. */
  lemma StepKeeps(sys: System, g: View, op: Op) returns (g': View)
    requires Inv(sys, g) && Enabled(sys, op)
    ensures Inv(Step(sys, op), g') && Isolated(sys, g, Step(sys, op), g', op)
  {
    hide Inv, Step, Isolated, Enabled;
    match op
    case Fill(_, _, _, _, _) => g' := FillStep(sys, g, op);
    case Cow(_, _) => g' := CowStep(sys, g, op);
    case ForkOp(_, _, _) => g' := ForkStep(sys, g, op);
    case Exec(_) => g' := ExecStep(sys, g, op);
    case Store(_, _, _) => g' := StoreStep(sys, g, op);
  }

  // ---------------------------------------------------------------- runs

  /** The system after the first `i` steps. */
  function Run(sys: System, ops: seq<Op>, i: nat): (r: System)
    requires i <= |ops|
  {
    if i == 0 then sys else Step(Run(sys, ops, i - 1), ops[i - 1])
  }

  ghost predicate AllEnabled(sys: System, ops: seq<Op>, i: nat)
    requires i <= |ops|
  {
    i == 0 || (AllEnabled(sys, ops, i - 1) && Enabled(Run(sys, ops, i - 1), ops[i - 1]))
  }

  lemma {:induction false} RunKeeps(sys: System, g: View, ops: seq<Op>, i: nat) returns (g': View)
    requires Inv(sys, g) && i <= |ops| && AllEnabled(sys, ops, i)
    ensures Inv(Run(sys, ops, i), g')
  {
    hide Inv, Step, Isolated, Enabled;
    if i == 0 {
      g' := g;
    } else {
      var g1 := RunKeeps(sys, g, ops, i - 1);
      g' := StepKeeps(Run(sys, ops, i - 1), g1, ops[i - 1]);
    }
  }

  /** Conservation: after any interleaving of faults, forks and execs, the reference count
      of each frame to which user pages are mapped is the number of those pages over all
      address spaces. */
  lemma CountsConserved(sys: System, g: View, ops: seq<Op>, i: nat, t: LeafMap, k: Leaf)
    requires Inv(sys, g) && i <= |ops| && AllEnabled(sys, ops, i)
    requires IsLeafMap(Run(sys, ops, i).machine.mem, Run(sys, ops, i).spaces, t) && k in t
    ensures PageAt(Run(sys, ops, i).machine.pages, t[k]).count == Sharers(t, t[k])
  {
    hide Run, AllEnabled, Shape, KernelSpace, Backed, PageAt, Sharers;
    var g' := RunKeeps(sys, g, ops, i);
    var sys' := Run(sys, ops, i);
    LeafMapUnique(sys'.machine.mem, sys'.spaces, t, g'.t);
    assert Counted(sys'.machine, g', g'.t[k]);
  }

  /** The contents of a frame after the first `i` steps, if only stores change it. */
  ghost function Replayed(sys: System, ops: seq<Op>, i: nat, f: nat): (r: Frame)
    requires i <= |ops| && f in sys.machine.mem
  {
    if i == 0 then sys.machine.mem[f]
    else Written(Replayed(sys, ops, i - 1, f), Run(sys, ops, i - 1).machine.mem, ops[i - 1], f)
  }

  /** Isolation: through any run without faults in space `r`, all its pages, those of the kernel's
      half included, translate as before, and each of the frames of its user pages changes by
      exactly the stores of the run that hit it, whichever space they are made in. */
  lemma {:induction false} SpaceUndisturbed(sys: System, g: View, ops: seq<Op>, i: nat, r: nat) returns (g': View)
    requires Inv(sys, g) && i <= |ops| && AllEnabled(sys, ops, i) && r in sys.spaces
    requires forall j | 0 <= j < i :: !Targets(ops[j], r)
    ensures Inv(Run(sys, ops, i), g') && r in Run(sys, ops, i).spaces
    ensures Undisturbed(sys, g, ops, i, g', r)
  {
    hide Step, Enabled, Tabled, Counted, ContentsBy, Written, Translate;
    if i == 0 {
      g' := g;
      FramesInMemory(sys, g);
    } else {
      var g1 := SpaceUndisturbed(sys, g, ops, i - 1, r);
      var sys1 := Run(sys, ops, i - 1);
      g' := StepKeeps(sys1, g1, ops[i - 1]);
      SpaceRoot(sys1, g1, r);
      Disturb(sys, g, ops, i, g1, g', r);
    }
  }

  ghost predicate Undisturbed(sys: System, g: View, ops: seq<Op>, i: nat, g': View, r: nat)
    requires i <= |ops|
  {
    var m, m' := sys.machine.mem, Run(sys, ops, i).machine.mem;
    forall q: Path ::
      && Translate(m', r, q) == Translate(m, r, q) && Lookup(g'.t, r, q) == Lookup(g.t, r, q)
      && ((r, q) in g.t ==>
            g.t[(r, q)] in m && g.t[(r, q)] in m' && m'[g.t[(r, q)]] == Replayed(sys, ops, i, g.t[(r, q)]))
  }

  lemma FramesInMemory(sys: System, g: View)
    requires Inv(sys, g)
    ensures forall k | k in g.t :: g.t[k] in sys.machine.mem
  {
    hide Tabled;
    forall k | k in g.t
      ensures g.t[k] in sys.machine.mem
    {
      assert Counted(sys.machine, g, g.t[k]);
    }
  }

  lemma SpaceRoot(sys: System, g: View, r: nat)
    requires Inv(sys, g) && r in sys.spaces
    ensures Root(g.w, r)
  {
  }

  lemma Disturb(sys: System, g: View, ops: seq<Op>, i: nat, g1: View, g2: View, r: nat)
    requires 0 < i <= |ops| && Undisturbed(sys, g, ops, i - 1, g1, r)
    requires ContentsBy(Run(sys, ops, i - 1).machine.mem, Run(sys, ops, i).machine.mem, g1.t, ops[i - 1])
    requires TranslatesBut(Run(sys, ops, i - 1).machine.mem, Run(sys, ops, i).machine.mem, g1.w, ops[i - 1])
    requires Root(g1.w, r) && !Targets(ops[i - 1], r)
    requires forall q: Path :: Lookup(g2.t, r, q) == Lookup(g1.t, r, q)
    ensures Undisturbed(sys, g, ops, i, g2, r)
  {
    hide Step, Written, Translate, PathOf;
    var m, m1, m2 := sys.machine.mem, Run(sys, ops, i - 1).machine.mem, Run(sys, ops, i).machine.mem;
    forall q: Path
      ensures Translate(m2, r, q) == Translate(m, r, q) && Lookup(g2.t, r, q) == Lookup(g.t, r, q)
      ensures (r, q) in g.t ==>
                g.t[(r, q)] in m && g.t[(r, q)] in m2 && m2[g.t[(r, q)]] == Replayed(sys, ops, i, g.t[(r, q)])
    {
      assert Translate(m1, r, q) == Translate(m, r, q) && Lookup(g1.t, r, q) == Lookup(g.t, r, q);
      if (r, q) in g.t {
        assert (r, q) in g1.t && g1.t[(r, q)] == g.t[(r, q)];
      }
    }
  }

  /** A frame that no store of the run hits holds what it held. */
  lemma {:induction false} NotHit(sys: System, ops: seq<Op>, i: nat, f: nat)
    requires i <= |ops| && f in sys.machine.mem
    requires forall j | 0 <= j < i :: !Hits(Run(sys, ops, j).machine.mem, ops[j], f)
    ensures Replayed(sys, ops, i, f) == sys.machine.mem[f]
  {
    hide Hits, Step;
    if i != 0 {
      NotHit(sys, ops, i - 1, f);
    }
  }
}
