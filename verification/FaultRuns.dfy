/** Runs of page faults in the file-backed regions of one space (sys/page_faults.c,
    do_file_fault; sys/memory.c, find_vma) on physical memory and the page list: which pages
    hold their part of the program, faults that fail included. */
module FaultRuns {
  import opened Basics
  import opened PageList
  import opened PageTables
  import opened PageFlags
  import opened Presence
  import opened Mapping
  import opened TableCopy
  import opened Leaves
  import opened Sharing
  import opened Fork
  import opened FileReads
  import opened DemandPaging
  import opened FileFaults
  import Util

  type Address = v: nat | v < WORD_LIMIT

  function PageOf(v: Address): (a: nat)
  {
    Util.PageRoundUp(v)
  }

  function Slot(v: Address): (p: Path)
  {
    PathOf(PageOf(v))
  }

  /** A region accepts the address, and the processor does not see its page. */
  predicate Misses(m: Memory, cr3: nat, segs: seq<Segment>, v: Address)
  {
    Found(segs, v) < |segs| && Hardware(m, cr3, Slot(v)) == None
  }

  /** A load from `v`, or a store to a page that the processor does not see: it faults exactly
      when the processor does not see the page, and an address that no region accepts changes
      nothing here. */
  function Touched(s: Machine, cr3: nat, data: File, segs: seq<Segment>, v: Address): (r: Machine)
    requires AllWithin(segs, data)
  {
    if Misses(s.mem, cr3, segs, v) then FileFaulted(s, cr3, data, segs[Found(segs, v)], v) else s
  }

  /** The state after the first `i` accesses. */
  function Run(s: Machine, cr3: nat, data: File, segs: seq<Segment>, ts: seq<Address>, i: nat): (r: Machine)
    requires AllWithin(segs, data) && i <= |ts|
  {
    if i == 0 then s else Touched(Run(s, cr3, data, segs, ts, i - 1), cr3, data, segs, ts[i - 1])
  }

  /** No allocation of a fault on `v` fails. */
  ghost predicate Roomy(s: Machine, cr3: nat, segs: seq<Segment>, v: Address)
  {
    Misses(s.mem, cr3, segs, v) ==> 0 !in Given(s.pages, 1 + Missing(s.mem, cr3, Slot(v)))
  }

  ghost predicate AllRoomy(s: Machine, cr3: nat, data: File, segs: seq<Segment>, ts: seq<Address>, i: nat)
    requires AllWithin(segs, data) && i <= |ts|
  {
    i == 0 ||
    (AllRoomy(s, cr3, data, segs, ts, i - 1) && Roomy(Run(s, cr3, data, segs, ts, i - 1), cr3, segs, ts[i - 1]))
  }

  // ---------------------------------------------------------------- who holds a frame

  /** Of the accesses to a page that a region accepts and that the processor does not see in the
      memory `m` at the start, access `j` is the first. */
  ghost predicate Faults(m: Memory, cr3: nat, segs: seq<Segment>, ts: seq<Address>, j: nat)
    requires j < |ts|
  {
    && Misses(m, cr3, segs, ts[j])
    && forall x | 0 <= x < j && Misses(m, cr3, segs, ts[x]) :: Slot(ts[x]) != Slot(ts[j])
  }

  /** The fault on `v` answers that it succeeded. */
  predicate Answers(segs: seq<Segment>, v: Address)
  {
    Found(segs, v) < |segs| && Succeeds(segs[Found(segs, v)], PageOf(v))
  }

  /** What the fault on `v` reads into the frame it gets. */
  function Reads(data: File, segs: seq<Segment>, v: Address): (p: Bytes)
    requires AllWithin(segs, data)
  {
    if Found(segs, v) < |segs| then EagerPage(data, segs[Found(segs, v)], PageOf(v)) else EmptyPage()
  }

  function EmptyPage(): (p: Bytes)
  {
    seq(4096, _ => 0)
  }

  /** Among the first `i` accesses, the one whose fault last filled the frame that access `j`
      was given: a fault that fails gives its frame back, so the next one gets it. */
  ghost function Holder(m: Memory, cr3: nat, segs: seq<Segment>, ts: seq<Address>, i: nat, j: nat): (h: nat)
    requires j < i <= |ts|
    ensures j <= h < i
  {
    if i == j + 1 then j
    else
      var h := Holder(m, cr3, segs, ts, i - 1, j);
      if !Answers(segs, ts[h]) && Faults(m, cr3, segs, ts, i - 1) then i - 1 else h
  }

  /** A fault that succeeds keeps its frame. */
  lemma {:induction false} HolderOfSuccess(m: Memory, cr3: nat, segs: seq<Segment>, ts: seq<Address>, i: nat, j: nat)
    requires j < i <= |ts| && Answers(segs, ts[j])
    ensures Holder(m, cr3, segs, ts, i, j) == j
  {
    if j + 1 < i {
      HolderOfSuccess(m, cr3, segs, ts, i - 1, j);
    }
  }

  /** The frame of a failed fault is filled by the first fault after it that succeeds, or by
      the last one while there is none. */
  lemma {:induction false} HolderOfFailure(m: Memory, cr3: nat, segs: seq<Segment>, ts: seq<Address>, i: nat, j: nat)
    requires j < i <= |ts| && Faults(m, cr3, segs, ts, j) && !Answers(segs, ts[j])
    ensures var h := Holder(m, cr3, segs, ts, i, j);
            && Faults(m, cr3, segs, ts, h)
            && (forall x | j <= x < h && Faults(m, cr3, segs, ts, x) :: !Answers(segs, ts[x]))
            && (!Answers(segs, ts[h]) ==> forall x | h < x < i :: !Faults(m, cr3, segs, ts, x))
  {
    hide Faults, Answers;
    if j + 1 < i {
      HolderOfFailure(m, cr3, segs, ts, i - 1, j);
    }
  }

  // ---------------------------------------------------------------- one fault

  ghost predicate AllPlaced(s: Machine, g: View)
  {
    forall k | k in g.t :: Placed(s, g, g.t[k])
  }

  /** The frame is in use with count 1 in `pages`, above the first `n0`, and holds no table. */
  ghost predicate Lent(pages: seq<Page>, g: View, n0: nat, f: nat)
  {
    && InList(f, g.base, g.n) && g.base + PAGE * n0 <= f && f !in g.w
    && PageAt(pages, f).count == 1 && Positive(pages, g.n)
  }

  /** Mapped frames other than `f` hold what they held. */
  ghost predicate OthersKept(m: Memory, m': Memory, t: LeafMap, f: nat)
  {
    forall k | k in t && t[k] != f :: t[k] in m && t[k] in m' && m'[t[k]] == m[t[k]]
  }

  /** The processor sees the frame at page `p` of the space, and every other user page as before. */
  ghost predicate SightBy(m: Memory, m': Memory, spaces: set<nat>, cr3: nat, p: Path, f: nat)
  {
    forall r, q: Path | r in spaces && UserPage(q) ::
      Hardware(m', r, q) == if r == cr3 && q == p then Some(f) else Hardware(m, r, q)
  }

  /** Mapping the page to a frame in use and filling that frame, whatever else is mapped to it. */
  lemma MapAndFill(sys: System, g: View, n0: nat, cr3: nat, v: nat, f: nat, flags: bv12, bytes: Bytes)
    returns (g': View)
    requires Tabled(sys, g) && AllPlaced(sys.machine, g) && Lent(sys.machine.pages, g, n0, f)
    requires cr3 in sys.spaces && v % PAGE == 0 && UserPage(PathOf(v)) && flags & PRESENT == PRESENT
    requires g.n + Missing(sys.machine.mem, cr3, PathOf(v)) <= |sys.machine.pages|
    ensures var s1 := MapPage(sys.machine, v, f, flags, cr3);
            var s' := s1.(mem := s1.mem[f := Data(bytes)]);
            && g'.base == g.base && g'.n == g.n + Missing(sys.machine.mem, cr3, PathOf(v))
            && g'.t == g.t[(cr3, PathOf(v)) := f]
            && Tabled(sys.(machine := s'), g') && AllPlaced(s', g') && Lent(s'.pages, g', n0, f)
            && OthersKept(sys.machine.mem, s'.mem, g.t, f)
            && SightBy(sys.machine.mem, s'.mem, sys.spaces, cr3, PathOf(v), f)
  {
    hide SightBy, Tabled, Walk, Missing, MapPage, PathOf, Stepped, OnlyChild, Placed, Lent, AllocMany;
    var s, p, k := sys.machine, PathOf(v), Missing(sys.machine.mem, cr3, PathOf(v));
    LentFacts(sys, g, n0, f);
    var w' := MapSteps(sys, g, cr3, v, f, flags);
    var s1, n' := MapPage(s, v, f, flags, cr3), g.n + k;
    StepLeafMap(sys, g, s1, w', n', cr3, p, f);
    g' := View(w', g.base, n', g.t[(cr3, p) := f]);
    forall j | j in g.t
      ensures Placed(s1, g', g.t[j]) && g.t[j] in s.mem && g.t[j] in s1.mem && s1.mem[g.t[j]] == s.mem[g.t[j]]
    {
      PlacedBefore(sys, g, s1, g', cr3, p, g.t[j]);
    }
    LentStill(sys, g, s1, g', n0, cr3, p, f, k);
    DataTabled(sys.(machine := s1), g', f, Data(bytes));
    PlacedAfterWrite(s, s1, g, g', cr3, p, f, bytes);
    FillSight(sys, g, g', cr3, v, f, flags, bytes);
  }

  lemma FillSight(sys: System, g: View, g': View, cr3: nat, v: nat, f: nat, flags: bv12, bytes: Bytes)
    requires Tabled(sys, g) && cr3 in sys.spaces && v % PAGE == 0 && f % PAGE == 0 && UserPage(PathOf(v))
    requires flags & PRESENT == PRESENT && g.n + Missing(sys.machine.mem, cr3, PathOf(v)) <= |sys.machine.pages|
    requires Tabled(sys.(machine := MapPage(sys.machine, v, f, flags, cr3)), g') && f !in g'.w
    ensures SightBy(sys.machine.mem, MapPage(sys.machine, v, f, flags, cr3).mem[f := Data(bytes)], sys.spaces, cr3,
                    PathOf(v), f)
  {
    hide Shape, Backed, KernelSpace, IsLeafMap, Hardware, MapPage, Missing, PathOf;
    MapSight(sys.machine, g.w, g.base, g.n, v, f, flags, cr3);
    var m1 := MapPage(sys.machine, v, f, flags, cr3).mem;
    DataSight(m1, g'.w, f, Data(bytes));
  }

  lemma DataSight(m: Memory, w: Places, f: nat, data: Frame)
    requires Shape(m, w) && f !in w
    ensures SameSight(m, m[f := data], w)
  {
    hide Shape;
    SameTablesSight(m, m[f := data], w);
  }

  lemma LentFacts(sys: System, g: View, n0: nat, f: nat)
    requires Tabled(sys, g) && Lent(sys.machine.pages, g, n0, f)
    ensures f % PAGE == 0 && 0 < f
  {
    FramePage(sys, g, f);
  }

  lemma PlacedBefore(sys: System, g: View, s': Machine, g': View, cr3: nat, p: Path, f: nat)
    requires Tabled(sys, g) && Stepped(sys, g, s', g'.w, g'.n, cr3, p) && Placed(sys.machine, g, f) && g'.base == g.base
    ensures Placed(s', g', f) && f in sys.machine.mem && f in s'.mem && s'.mem[f] == sys.machine.mem[f]
  {
    hide Shape, KernelSpace, SameTranslationsBut, IsLeafMap;
  }

  lemma LentStill(sys: System, g: View, s': Machine, g': View, n0: nat, cr3: nat, p: Path, f: nat, k: nat)
    requires Tabled(sys, g) && Lent(sys.machine.pages, g, n0, f) && g.n + k <= |sys.machine.pages|
    requires Stepped(sys, g, s', g'.w, g'.n, cr3, p) && s'.pages == AllocMany(sys.machine.pages, k)
    requires g'.base == g.base && g'.n == g.n + k
    ensures Lent(s'.pages, g', n0, f) && InList(f, g'.base, g'.n) && f !in g'.w
  {
    hide Shape, KernelSpace, SameTranslationsBut, IsLeafMap, AllocMany, PageAt, SameData;
    PositiveMany(sys.machine.pages, g.base, g.n, k);
    TookKeepsCount(sys.machine.pages, s'.pages, g.base, g.n, g.n + k, f);
  }

  lemma PlacedAfterWrite(s: Machine, s1: Machine, g: View, g': View, cr3: nat, p: Path, f: nat, bytes: Bytes)
    requires forall j | j in g.t ::
               Placed(s1, g', g.t[j]) && g.t[j] in s.mem && g.t[j] in s1.mem && s1.mem[g.t[j]] == s.mem[g.t[j]]
    requires g'.t == g.t[(cr3, p) := f] && InList(f, g'.base, g'.n) && f !in g'.w
    ensures var s' := s1.(mem := s1.mem[f := Data(bytes)]);
            && AllPlaced(s', g')
            && OthersKept(s.mem, s'.mem, g.t, f)
  {
  }

  /** A state in a run of faults: with the frame of the last fault taken back, if it was given
      back, the list has no holes and the tables are as they should be. */
  ghost predicate FaultState(sys: System, n0: nat, s: Machine, g: View, full: seq<Page>, free: Option<nat>)
  {
    && Tabled(sys.(machine := Machine(s.mem, full)), g) && AllPlaced(Machine(s.mem, full), g) && n0 <= g.n
    && s.pages == (if free.None? then full else FreePages(full, free.value))
    && (free.Some? ==> Lent(full, g, n0, free.value))
  }

  function FrameFor(g: View, free: Option<nat>): (f: nat)
  {
    if free.Some? then free.value else g.base + PAGE * g.n
  }

  /** The frame a fault gets, and the state once it is taken. */
  lemma TakeFrame(sys: System, n0: nat, s: Machine, g: View, full: seq<Page>, free: Option<nat>, k: nat)
    returns (g1: View)
    requires FaultState(sys, n0, s, g, full, free) && 0 !in Given(s.pages, 1 + k)
    ensures var f, s1 := FrameFor(g, free), Machine(s.mem, AllocPages(s.pages));
            && AllocAddr(s.pages) == f && Tabled(sys.(machine := s1), g1) && AllPlaced(s1, g1)
            && Lent(s1.pages, g1, n0, f)
            && g1.n + k <= |s1.pages|
    ensures g1 == g.(n := if free.None? then g.n + 1 else g.n)
    ensures free == None ==> forall j | j in g.t :: g.t[j] != FrameFor(g, free)
  {
    hide Shape, KernelSpace, IsLeafMap, PageAt, AllocPages, AllocAddr, Given, AllocMany, Positive, FreePages;
    var f, s1 := FrameFor(g, free), Machine(s.mem, AllocPages(s.pages));
    GivenSplit(s.pages, 1, k);
    FirstGiven(s.pages);
    if free == None {
      EnoughLeft(s, g.w, g.base, g.n, 1 + k);
      AllocDense(s.pages, g.base, g.n);
      BackedAfterAlloc(s, g.w, g.base, g.n, s1);
      PositiveMany(s.pages, g.base, g.n, 1);
      g1 := g.(n := g.n + 1);
      CountAt(s1.pages, g.base, f, g1.n);
      NextPlaced(s, g, g1);
    } else {
      Refill(full, g.base, g.n, f);
      EnoughLeft(Machine(s.mem, full), g.w, g.base, g.n, k);
      g1 := g;
    }
  }

  lemma NextPlaced(s: Machine, g: View, g1: View)
    requires AllPlaced(s, g) && g1 == g.(n := g.n + 1)
    ensures AllPlaced(Machine(s.mem, AllocPages(s.pages)), g1)
    ensures forall j | j in g.t :: g.t[j] != g.base + PAGE * g.n
  {
    forall j | j in g.t
      ensures Placed(Machine(s.mem, AllocPages(s.pages)), g1, g.t[j]) && g.t[j] != g.base + PAGE * g.n
    {
      assert Placed(s, g, g.t[j]);
    }
  }

  /** A fault of the run: the page is mapped to the frame, which is then filled; mapped frames
      other than that one hold what they held. */
  lemma FaultSteps(sys: System, n0: nat, s: Machine, g: View, full: seq<Page>, free: Option<nat>,
                   cr3: nat, data: File, seg: Segment, v: Address) returns (g': View, full': seq<Page>)
    requires FaultState(sys, n0, s, g, full, free) && cr3 in sys.spaces
    requires Within(seg, data) && PageOf(v) % PAGE == 0 && UserPage(Slot(v))
    requires 0 !in Given(s.pages, 1 + Missing(s.mem, cr3, Slot(v)))
    ensures var f, s' := FrameFor(g, free), FileFaulted(s, cr3, data, seg, v);
            && g'.base == g.base && g'.t == g.t[(cr3, Slot(v)) := f]
            && g'.n == (if free.None? then g.n + 1 else g.n) + Missing(s.mem, cr3, Slot(v))
            && FaultState(sys, n0, s', g', full', if Succeeds(seg, PageOf(v)) then None else Some(f))
            && f in s'.mem && s'.mem[f] == Data(EagerPage(data, seg, PageOf(v)))
            && OthersKept(s.mem, s'.mem, g.t, f) && g.base + PAGE * n0 <= f
            && SightBy(s.mem, s'.mem, sys.spaces, cr3, Slot(v), f)
    ensures free == None ==> forall j | j in g.t :: g.t[j] != FrameFor(g, free)
  {
    hide Tabled, AllPlaced, Lent, Missing, MapPage, AllocPages, AllocAddr, Given, FreePages, PathOf, Within, SightBy;
    var a, f := PageOf(v), FrameFor(g, free);
    var flags := if seg.write then READ_WRITE else READ_ONLY;
    FlagsPresent();
    var bytes: Bytes := EagerPage(data, seg, a);
    var g1 := TakeFrame(sys, n0, s, g, full, free, Missing(s.mem, cr3, Slot(v)));
    var s1 := Machine(s.mem, AllocPages(s.pages));
    g' := MapAndFill(sys.(machine := s1), g1, n0, cr3, a, f, flags, bytes);
    var s2 := FillPage(s, cr3, a, flags, false, bytes);
    full' := s2.pages;
    LentAbove(full', g', n0, f);
    assert Machine(s2.mem, full') == s2;
  }

  lemma LentAbove(pages: seq<Page>, g: View, n0: nat, f: nat)
    requires Lent(pages, g, n0, f)
    ensures g.base + PAGE * n0 <= f
  {
  }

  // ---------------------------------------------------------------- the run

  /** Access `j` has its page mapped to the frame that its holder filled; the frame is free if
      and only if the holder failed. */
  ghost predicate Holds(m: Memory, s: Machine, g: View, free: Option<nat>, cr3: nat, data: File, segs: seq<Segment>,
                        ts: seq<Address>, i: nat, j: nat)
    requires AllWithin(segs, data) && j < i <= |ts|
  {
    && (cr3, Slot(ts[j])) in g.t
    && var f, h := g.t[(cr3, Slot(ts[j]))], Holder(m, cr3, segs, ts, i, j);
       && f in s.mem && s.mem[f] == Data(Reads(data, segs, ts[h]))
       && (Answers(segs, ts[h]) <==> free != Some(f))
  }

  /** Some access that faulted was to this page. */
  ghost predicate Accessed(m: Memory, cr3: nat, segs: seq<Segment>, ts: seq<Address>, i: nat, q: Path)
    requires i <= |ts|
  {
    exists j | 0 <= j < i && Faults(m, cr3, segs, ts, j) :: Slot(ts[j]) == q
  }

  /** The leaf is that of a page in the space that was accessed. */
  ghost predicate Loaded(m: Memory, cr3: nat, segs: seq<Segment>, ts: seq<Address>, i: nat, k: Leaf)
    requires i <= |ts|
  {
    k.0 == cr3 && Accessed(m, cr3, segs, ts, i, k.1)
  }

  ghost predicate Stays(m: Memory, m': Memory, f: nat)
  {
    f in m && f in m' && m'[f] == m[f]
  }

  /** What is mapped and what the processor sees: the accessed pages, and the others as before. */
  ghost predicate Tracks(sys: System, g0: View, s: Machine, g: View, cr3: nat, segs: seq<Segment>,
                         ts: seq<Address>, i: nat)
    requires i <= |ts|
  {
    var m := sys.machine.mem;
    && g.base == g0.base
    && (forall k | k in g.t :: k in g0.t || Loaded(m, cr3, segs, ts, i, k))
    && (forall k | Loaded(m, cr3, segs, ts, i, k) :: k in g.t)
    && (forall k | k in g0.t && !Loaded(m, cr3, segs, ts, i, k) ::
           k in g.t && g.t[k] == g0.t[k] && Stays(m, s.mem, g0.t[k]))
    && forall r, q: Path | r in sys.spaces && UserPage(q) ::
         Hardware(s.mem, r, q) == if Loaded(m, cr3, segs, ts, i, (r, q)) then Lookup(g.t, r, q) else Hardware(m, r, q)
  }

  lemma FoundPage(data: File, segs: seq<Segment>, v: Address)
    requires AllWithin(segs, data) && Found(segs, v) < |segs|
    ensures PageOf(v) % PAGE == 0 && UserPage(Slot(v)) && Within(segs[Found(segs, v)], data)
  {
    assert Within(segs[Found(segs, v)], data);
    assert PageOf(v) < 0x8000_0000_0000;
  }

  /** An access to a page that is not seen at the start is in the page of one that faults. */
  lemma {:induction false} FirstInPage(m: Memory, cr3: nat, segs: seq<Segment>, ts: seq<Address>, x: nat)
    returns (j: nat)
    requires x < |ts| && Misses(m, cr3, segs, ts[x])
    ensures j <= x && Faults(m, cr3, segs, ts, j) && Slot(ts[j]) == Slot(ts[x])
  {
    hide Slot, Misses;
    if Faults(m, cr3, segs, ts, x) {
      j := x;
    } else {
      var y :| 0 <= y < x && Misses(m, cr3, segs, ts[y]) && Slot(ts[y]) == Slot(ts[x]);
      j := FirstInPage(m, cr3, segs, ts, y);
    }
  }

  lemma AccessedNext(m: Memory, cr3: nat, segs: seq<Segment>, ts: seq<Address>, i: nat, q: Path)
    requires i < |ts|
    ensures Accessed(m, cr3, segs, ts, i + 1, q) <==>
              Accessed(m, cr3, segs, ts, i, q) || (Faults(m, cr3, segs, ts, i) && Slot(ts[i]) == q)
  {
    hide Slot, Faults;
  }

  /** One more access that faults. */
  lemma TrackFault(sys: System, g0: View, s: Machine, g: View, s': Machine, g': View, cr3: nat, segs: seq<Segment>,
                   ts: seq<Address>, i: nat, f: nat)
    requires i < |ts| && Tracks(sys, g0, s, g, cr3, segs, ts, i) && Faults(sys.machine.mem, cr3, segs, ts, i)
    requires g'.base == g.base && g'.t == g.t[(cr3, Slot(ts[i])) := f]
    requires OthersKept(s.mem, s'.mem, g.t, f) && forall k | k in g0.t :: g0.t[k] != f
    requires SightBy(s.mem, s'.mem, sys.spaces, cr3, Slot(ts[i]), f)
    ensures Tracks(sys, g0, s', g', cr3, segs, ts, i + 1)
  {
    hide Slot, Faults, Hardware, Loaded;
    var m, p := sys.machine.mem, Slot(ts[i]);
    forall k: Leaf
      ensures Loaded(m, cr3, segs, ts, i + 1, k) <==> Loaded(m, cr3, segs, ts, i, k) || k == (cr3, p)
    {
      LoadedNext(m, cr3, segs, ts, i, k);
    }
    forall k | k in g0.t && !Loaded(m, cr3, segs, ts, i + 1, k)
      ensures k in g'.t && g'.t[k] == g0.t[k] && Stays(m, s'.mem, g0.t[k])
    {
      LoadedNext(m, cr3, segs, ts, i, k);
      assert Stays(m, s.mem, g0.t[k]) && Stays(s.mem, s'.mem, g.t[k]);
    }
    forall r, q: Path | r in sys.spaces && UserPage(q)
      ensures Hardware(s'.mem, r, q) ==
                if Loaded(m, cr3, segs, ts, i + 1, (r, q)) then Lookup(g'.t, r, q) else Hardware(m, r, q)
    {
      LoadedNext(m, cr3, segs, ts, i, (r, q));
    }
  }

  lemma LoadedNext(m: Memory, cr3: nat, segs: seq<Segment>, ts: seq<Address>, i: nat, k: Leaf)
    requires i < |ts| && Faults(m, cr3, segs, ts, i)
    ensures Loaded(m, cr3, segs, ts, i + 1, k) <==> Loaded(m, cr3, segs, ts, i, k) || k == (cr3, Slot(ts[i]))
  {
    hide Slot, Faults, Accessed;
    AccessedNext(m, cr3, segs, ts, i, k.1);
  }

  lemma HoldsAfterFault(m: Memory, s: Machine, g: View, free: Option<nat>, s': Machine, g': View, cr3: nat, data: File,
                        segs: seq<Segment>, ts: seq<Address>, i: nat, j: nat, f: nat)
    requires AllWithin(segs, data) && i < |ts| && Faults(m, cr3, segs, ts, i) && j <= i && Faults(m, cr3, segs, ts, j)
    requires j < i ==> Holds(m, s, g, free, cr3, data, segs, ts, i, j)
    requires g'.t == g.t[(cr3, Slot(ts[i])) := f] && f == FrameFor(g, free)
    requires OthersKept(s.mem, s'.mem, g.t, f) && f in s'.mem && s'.mem[f] == Data(Reads(data, segs, ts[i]))
    requires free == None ==> forall k | k in g.t :: g.t[k] != f
    ensures Holds(m, s', g', if Answers(segs, ts[i]) then None else Some(f), cr3, data, segs, ts, i + 1, j)
  {
    hide Slot, Reads, Answers, Misses;
    if j < i {
      assert Slot(ts[j]) != Slot(ts[i]);
    }
  }

  ghost predicate AllHold(m: Memory, s: Machine, g: View, free: Option<nat>, cr3: nat, data: File, segs: seq<Segment>,
                          ts: seq<Address>, i: nat)
    requires AllWithin(segs, data) && i <= |ts|
  {
    forall j | 0 <= j < i && Faults(m, cr3, segs, ts, j) :: Holds(m, s, g, free, cr3, data, segs, ts, i, j)
  }

  /** What every run of accesses leads to. */
  lemma {:induction false} RunHolds(sys: System, g0: View, cr3: nat, data: File, segs: seq<Segment>,
                                    ts: seq<Address>, i: nat)
    returns (g: View, full: seq<Page>, free: Option<nat>)
    requires Inv(sys, g0) && cr3 in sys.spaces && AllWithin(segs, data) && i <= |ts|
    requires AllRoomy(sys.machine, cr3, data, segs, ts, i)
    ensures var s := Run(sys.machine, cr3, data, segs, ts, i);
            && FaultState(sys, g0.n, s, g, full, free) && Tracks(sys, g0, s, g, cr3, segs, ts, i)
            && AllHold(sys.machine.mem, s, g, free, cr3, data, segs, ts, i)
  {
    hide FaultState, Tracks, Slot, Holds, FileFaulted, Faults, Misses, Missing, Given, AllWithin, Inv, Found;
    if i == 0 {
      g, full, free := RunStarts(sys, g0, cr3, segs, ts);
    } else {
      var g1, full1, free1 := RunHolds(sys, g0, cr3, data, segs, ts, i - 1);
      var s1 := Run(sys.machine, cr3, data, segs, ts, i - 1);
      g, full, free := RunStep(sys, g0, s1, g1, full1, free1, cr3, data, segs, ts, i - 1);
    }
  }

  lemma RunStarts(sys: System, g0: View, cr3: nat, segs: seq<Segment>, ts: seq<Address>)
    returns (g: View, full: seq<Page>, free: Option<nat>)
    requires Inv(sys, g0)
    ensures g == g0 && free == None && FaultState(sys, g0.n, sys.machine, g, full, free)
    ensures Tracks(sys, g0, sys.machine, g, cr3, segs, ts, 0)
  {
    hide Tabled, PageAt, Sharers, Hardware;
    g, full, free := g0, sys.machine.pages, None;
    assert Machine(sys.machine.mem, full) == sys.machine;
    forall k | k in g0.t
      ensures Placed(sys.machine, g0, g0.t[k]) && Stays(sys.machine.mem, sys.machine.mem, g0.t[k])
    {
      assert Counted(sys.machine, g0, g0.t[k]);
    }
  }

  lemma RunStep(sys: System, g0: View, s: Machine, g: View, full: seq<Page>, free: Option<nat>, cr3: nat, data: File,
                segs: seq<Segment>, ts: seq<Address>, i: nat) returns (g': View, full': seq<Page>, free': Option<nat>)
    requires Inv(sys, g0) && cr3 in sys.spaces && AllWithin(segs, data) && i < |ts|
    requires FaultState(sys, g0.n, s, g, full, free) && Tracks(sys, g0, s, g, cr3, segs, ts, i)
    requires AllHold(sys.machine.mem, s, g, free, cr3, data, segs, ts, i) && Roomy(s, cr3, segs, ts[i])
    ensures var s' := Touched(s, cr3, data, segs, ts[i]);
            && FaultState(sys, g0.n, s', g', full', free') && Tracks(sys, g0, s', g', cr3, segs, ts, i + 1)
            && AllHold(sys.machine.mem, s', g', free', cr3, data, segs, ts, i + 1)
  {
    hide Slot, FileFaulted, Hardware, Missing, Given, AllWithin, Holds, Found, FaultState, SightBy, Tracks, Inv;
    var v, m := ts[i], sys.machine.mem;
    WhetherFaults(sys, g0, s, g, cr3, data, segs, ts, i);
    if Misses(s.mem, cr3, segs, v) {
      var k, f := Found(segs, v), FrameFor(g, free);
      FoundPage(data, segs, v);
      g', full' := FaultSteps(sys, g0.n, s, g, full, free, cr3, data, segs[k], v);
      free' := if Answers(segs, v) then None else Some(f);
      var s' := Touched(s, cr3, data, segs, v);
      OldFrames(sys, g0);
      TracksBase(sys, g0, s, g, cr3, segs, ts, i);
      TrackFault(sys, g0, s, g, s', g', cr3, segs, ts, i, f);
      forall j | 0 <= j < i + 1 && Faults(m, cr3, segs, ts, j)
        ensures Holds(m, s', g', free', cr3, data, segs, ts, i + 1, j)
      {
        HoldsAfterFault(m, s, g, free, s', g', cr3, data, segs, ts, i, j, f);
      }
    } else {
      g', full', free' := g, full, free;
      Unchanged(sys, g0, s, g, free, cr3, data, segs, ts, i);
    }
  }

  lemma TracksBase(sys: System, g0: View, s: Machine, g: View, cr3: nat, segs: seq<Segment>, ts: seq<Address>, i: nat)
    requires i <= |ts| && Tracks(sys, g0, s, g, cr3, segs, ts, i)
    ensures g.base == g0.base
  {
  }

  lemma OldFrames(sys: System, g0: View)
    requires Inv(sys, g0)
    ensures forall k | k in g0.t :: g0.t[k] < g0.base + PAGE * g0.n
  {
    hide Tabled;
    forall k | k in g0.t
      ensures g0.t[k] < g0.base + PAGE * g0.n
    {
      assert Counted(sys.machine, g0, g0.t[k]);
    }
  }

  /** An access faults in the state of the run exactly when the processor did not see its page at
      the start and it is the first in its page. */
  lemma WhetherFaults(sys: System, g0: View, s: Machine, g: View, cr3: nat, data: File, segs: seq<Segment>,
                      ts: seq<Address>, i: nat)
    requires cr3 in sys.spaces && AllWithin(segs, data) && i < |ts| && Tracks(sys, g0, s, g, cr3, segs, ts, i)
    ensures Faults(sys.machine.mem, cr3, segs, ts, i) <==> Misses(s.mem, cr3, segs, ts[i])
  {
    hide Slot, Hardware, Found;
    var m, q := sys.machine.mem, Slot(ts[i]);
    if Found(segs, ts[i]) < |segs| {
      FoundPage(data, segs, ts[i]);
      if Misses(m, cr3, segs, ts[i]) {
        var j := FirstInPage(m, cr3, segs, ts, i);
        if j == i {
          assert !Accessed(m, cr3, segs, ts, i, q);
        } else {
          assert Accessed(m, cr3, segs, ts, i, q);
        }
      } else {
        assert !Accessed(m, cr3, segs, ts, i, q);
      }
    }
  }

  lemma Unchanged(sys: System, g0: View, s: Machine, g: View, free: Option<nat>, cr3: nat, data: File,
                  segs: seq<Segment>, ts: seq<Address>, i: nat)
    requires i < |ts| && AllWithin(segs, data) && !Faults(sys.machine.mem, cr3, segs, ts, i)
    requires Tracks(sys, g0, s, g, cr3, segs, ts, i)
    requires AllHold(sys.machine.mem, s, g, free, cr3, data, segs, ts, i)
    ensures Tracks(sys, g0, s, g, cr3, segs, ts, i + 1)
    ensures AllHold(sys.machine.mem, s, g, free, cr3, data, segs, ts, i + 1)
  {
    hide Slot, Faults, Accessed, AllWithin, Reads, Hardware;
    var m := sys.machine.mem;
    forall k: Leaf
      ensures Loaded(m, cr3, segs, ts, i + 1, k) <==> Loaded(m, cr3, segs, ts, i, k)
    {
      AccessedNext(m, cr3, segs, ts, i, k.1);
    }
    forall j | 0 <= j < i + 1 && Faults(m, cr3, segs, ts, j)
      ensures Holds(m, s, g, free, cr3, data, segs, ts, i + 1, j)
    {
      assert Holds(m, s, g, free, cr3, data, segs, ts, i, j);
    }
  }

  // ---------------------------------------------------------------- what the pages hold

  /** No other segment has file bytes in the page of the address. */
  ghost predicate Unshared(segs: seq<Segment>, v: Address)
  {
    forall j | 0 <= j < |segs| && j != Found(segs, v) :: !HasBytesIn(segs[j], PageOf(v))
  }

  predicate Blank(p: Bytes)
  {
    forall i | 0 <= i < 4096 :: p[i] == 0
  }

  /** What a fault that succeeds reads is the page of the program exactly when the other
      segments are blank in it; a page in which the fault fails is blank in the program. */
  lemma ReadsProgram(data: File, segs: seq<Segment>, v: Address, p: Bytes)
    requires AllWithin(segs, data) && Disjoint(segs) && Found(segs, v) < |segs|
    ensures p == Reads(data, segs, v) ==>
              (IsProgramPage(data, segs, PageOf(v), p) <==>
               forall j | 0 <= j < |segs| && j != Found(segs, v) :: BlankIn(data, segs[j], PageOf(v)))
    ensures Unshared(segs, v) ==> forall j | 0 <= j < |segs| && j != Found(segs, v) :: BlankIn(data, segs[j], PageOf(v))
    ensures Unshared(segs, v) && !Answers(segs, v) ==> (IsProgramPage(data, segs, PageOf(v), p) <==> Blank(p))
  {
    hide ProgramByte, IsProgramPage;
    var a, k := PageOf(v), Found(segs, v);
    PageIsProgramPage(data, segs, a, k);
    if Unshared(segs, v) {
      forall j | 0 <= j < |segs| && j != k
        ensures BlankIn(data, segs[j], a)
      {
        assert !HasBytesIn(segs[j], a);
      }
      if !Answers(segs, v) {
        assert forall j | 0 <= j < |segs| :: !HasBytesIn(segs[j], a);
        BlankProgramPage(data, segs, a, p);
      }
    }
  }

  /** Demand paging and eager loading: after any run of accesses the page of a faulting access
      is mapped to a frame that the processor sees and that holds what its holder read.  If its
      own fault succeeded that is what this fault read, which is the page of the program exactly
      when the other segments are blank in it.  If its own fault failed, the frame went to the
      next fault, and the page, when no other segment has bytes in it, is right if and only if
      what that fault read is blank. */
  lemma FaultsLoadProgram(sys: System, g0: View, cr3: nat, data: File, segs: seq<Segment>,
                          ts: seq<Address>, i: nat, j: nat)
    requires Inv(sys, g0) && cr3 in sys.spaces && AllWithin(segs, data) && Disjoint(segs) && j < i <= |ts|
    requires AllRoomy(sys.machine, cr3, data, segs, ts, i) && Faults(sys.machine.mem, cr3, segs, ts, j)
    ensures var m, k := Run(sys.machine, cr3, data, segs, ts, i).mem, Found(segs, ts[j]);
            var h, f := Holder(sys.machine.mem, cr3, segs, ts, i, j), Translate(m, cr3, Slot(ts[j]));
            && f.Some? && f == Hardware(m, cr3, Slot(ts[j]))
            && f.value in m && m[f.value] == Data(Reads(data, segs, ts[h]))
            && (Answers(segs, ts[j]) ==>
                  (IsProgramPage(data, segs, PageOf(ts[j]), m[f.value].bytes) <==>
                   forall x | 0 <= x < |segs| && x != k :: BlankIn(data, segs[x], PageOf(ts[j]))))
            && (Unshared(segs, ts[j]) ==>
                  (IsProgramPage(data, segs, PageOf(ts[j]), m[f.value].bytes) <==>
                   Answers(segs, ts[j]) || Blank(Reads(data, segs, ts[h]))))
  {
    hide FaultState, Slot, Run, Translate, AllWithin, Inv, Disjoint, AllRoomy, IsProgramPage, BlankIn, Unshared,
         Blank, Reads, HasBytesIn, Hardware, Misses, Holder;
    var g, full, free := RunHolds(sys, g0, cr3, data, segs, ts, i);
    var s, m0 := Run(sys.machine, cr3, data, segs, ts, i), sys.machine.mem;
    assert Holds(m0, s, g, free, cr3, data, segs, ts, i, j);
    MissesFound(m0, cr3, segs, ts[j]);
    FoundPage(data, segs, ts[j]);
    StateTranslates(sys, g0.n, s, g, full, free, cr3, Slot(ts[j]));
    assert Loaded(m0, cr3, segs, ts, i, (cr3, Slot(ts[j])));
    var f := g.t[(cr3, Slot(ts[j]))];
    ReadsProgram(data, segs, ts[j], s.mem[f].bytes);
    if Answers(segs, ts[j]) {
      HolderOfSuccess(m0, cr3, segs, ts, i, j);
    }
  }

  lemma MissesFound(m: Memory, cr3: nat, segs: seq<Segment>, v: Address)
    requires Misses(m, cr3, segs, v)
    ensures Found(segs, v) < |segs| && Hardware(m, cr3, Slot(v)) == None
  {
  }

  /** An accessed page is loaded by the run if and only if the processor did not see it at the
      start.  A page that it saw without being mapped, as a fork leaves the pages of the parent
      that were not loaded yet, is never loaded: it stays unmapped and is seen as frame 0. */
  lemma LoadedIffUnseen(sys: System, g0: View, cr3: nat, data: File, segs: seq<Segment>, ts: seq<Address>, i: nat,
                        j: nat)
    requires Inv(sys, g0) && cr3 in sys.spaces && AllWithin(segs, data) && j < i <= |ts|
    requires AllRoomy(sys.machine, cr3, data, segs, ts, i) && Found(segs, ts[j]) < |segs|
    ensures var m, m', q := sys.machine.mem, Run(sys.machine, cr3, data, segs, ts, i).mem, Slot(ts[j]);
            && (Accessed(m, cr3, segs, ts, i, q) <==> Hardware(m, cr3, q) == None)
            && (Hardware(m, cr3, q) == None ==>
                  Translate(m', cr3, q).Some? && Hardware(m', cr3, q) == Translate(m', cr3, q))
            && (Hardware(m, cr3, q).Some? ==>
                  Translate(m', cr3, q) == Translate(m, cr3, q) && Hardware(m', cr3, q) == Hardware(m, cr3, q))
            && (Translate(m, cr3, q) == None ==>
                  && (Translate(m', cr3, q).Some? <==> Hardware(m, cr3, q) == None)
                  && (Hardware(m, cr3, q).Some? ==> Hardware(m', cr3, q) == Some(0)))
  {
    hide FaultState, Slot, Run, Translate, AllWithin, Inv, AllRoomy, Hardware, Found;
    var g, full, free := RunHolds(sys, g0, cr3, data, segs, ts, i);
    var s, m, q := Run(sys.machine, cr3, data, segs, ts, i), sys.machine.mem, Slot(ts[j]);
    FoundPage(data, segs, ts[j]);
    StateTranslates(sys, g0.n, s, g, full, free, cr3, q);
    StartTranslates(sys, g0, cr3, q);
    SeenWhereWalked(m, cr3, q);
    if Hardware(m, cr3, q) == None {
      var x := FirstInPage(m, cr3, segs, ts, j);
      assert Accessed(m, cr3, segs, ts, i, q);
    } else {
      assert !Accessed(m, cr3, segs, ts, i, q);
    }
    assert Loaded(m, cr3, segs, ts, i, (cr3, q)) <==> Accessed(m, cr3, segs, ts, i, q);
  }

  lemma StateTranslates(sys: System, n0: nat, s: Machine, g: View, full: seq<Page>, free: Option<nat>,
                        cr3: nat, q: Path)
    requires FaultState(sys, n0, s, g, full, free) && cr3 in sys.spaces && UserPage(q)
    ensures Translate(s.mem, cr3, q) == Lookup(g.t, cr3, q)
  {
    hide Tabled, AllPlaced, Lent, Translate;
    LeafTranslates(sys.(machine := Machine(s.mem, full)), g, cr3, q);
  }

  /** After the run the pages that were accessed and not seen before are mapped in the space; any
      other page, of any space, is mapped and seen as before and holds what it held. */
  lemma FaultsMapAccessed(sys: System, g0: View, cr3: nat, data: File, segs: seq<Segment>, ts: seq<Address>, i: nat,
                          r: nat, q: Path)
    requires Inv(sys, g0) && cr3 in sys.spaces && AllWithin(segs, data) && i <= |ts| && r in sys.spaces && UserPage(q)
    requires AllRoomy(sys.machine, cr3, data, segs, ts, i)
    ensures var m, m' := sys.machine.mem, Run(sys.machine, cr3, data, segs, ts, i).mem;
            if r == cr3 && Accessed(m, cr3, segs, ts, i, q)
            then Translate(m', r, q).Some? && Hardware(m', r, q) == Translate(m', r, q)
            else && Translate(m', r, q) == Translate(m, r, q) && Hardware(m', r, q) == Hardware(m, r, q)
                 && (Translate(m, r, q).Some? ==> Stays(m, m', Translate(m, r, q).value))
  {
    hide FaultState, Slot, Run, Translate, AllWithin, Inv, AllRoomy, Accessed, Hardware;
    var g, full, free := RunHolds(sys, g0, cr3, data, segs, ts, i);
    var s, m := Run(sys.machine, cr3, data, segs, ts, i), sys.machine.mem;
    StateTranslates(sys, g0.n, s, g, full, free, r, q);
    StartTranslates(sys, g0, r, q);
    assert Loaded(m, cr3, segs, ts, i, (r, q)) <==> r == cr3 && Accessed(m, cr3, segs, ts, i, q);
  }

  lemma StartTranslates(sys: System, g0: View, r: nat, q: Path)
    requires Inv(sys, g0) && r in sys.spaces && UserPage(q)
    ensures Translate(sys.machine.mem, r, q) == Lookup(g0.t, r, q)
  {
    hide Tabled, Translate;
    LeafTranslates(sys, g0, r, q);
  }
}
