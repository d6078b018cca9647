/** The page-fault handlers (sys/page_faults.c) and fork's copy_vm (sys/process.c) as steps
    on physical memory and the page list, and what every interleaving of them keeps: the
    reference count of each mapped user frame is the number of pages mapped to it. */
module Sharing {
  import opened Basics
  import opened PageList
  import opened PageTables
  import opened Mapping
  import opened PageFlags
  import opened TableCopy
  import opened Leaves

  const READ_ONLY: bv12 := PRESENT | USER
  const READ_WRITE: bv12 := PRESENT | WRITE | USER

  lemma FlagsPresent()
    ensures READ_WRITE & PRESENT == PRESENT && READ_ONLY & PRESENT == PRESENT
  {
  }

  // ---------------------------------------------------------------- the handlers

  /** A fault on an unmapped page: a frame is taken, mapped and filled.  The anonymous
      handler first adds the flags to the tables that exist; the file handler and the
      code that builds the first stack do not. */
  function FillPage(s: Machine, cr3: nat, v: nat, flags: bv12, flagFirst: bool, bytes: Bytes): (r: Machine)
  {
    var a := AllocAddr(s.pages);
    var m := if flagFirst then ChangeFlags(s.mem, cr3, PathOf(v), flags) else s.mem;
    var s' := MapPage(Machine(m, AllocPages(s.pages)), v, a, flags, cr3);
    s'.(mem := s'.mem[a := Data(bytes)])
  }

  /** The last byte of a frame, whatever it was used for. */
  function LastByte(f: Frame): (b: bv8)
  {
    match f
    case Table(es) => (es[511].high >> 4) as bv8
    case Data(bs) => bs[4095]
  }

  /** my_memcpy of PAGE_BLOCK_SIZE - 1 bytes: the last byte stays what it was. */
  function CopiedOver(was: Frame, from: Frame): (r: Frame)
  {
    match from
    case Data(bs) => Data(bs[4095 := LastByte(was)])
    case Table(es) =>
      Table(es[511 := es[511].(high := (es[511].high & 0x00F) | ((LastByte(was) as bv12) << 4))])
  }

  /** The page lookup of find_page_from_virt takes and clears a frame of its own, which is
      never given back. */
  function TakeScratch(s: Machine): (r: Machine)
  {
    Machine(ZeroFill(s.mem, AllocAddr(s.pages)), AllocPages(s.pages))
  }

  /** The frame a copy is written to, as bytes. */
  function FrameAt(m: Memory, a: nat): (f: Frame)
  {
    if a in m then m[a] else EmptyTable()
  }

  /** do_copy_on_write_fault; the second component is its result. */
  function CowFault(s: Machine, cr3: nat, v: nat): (r: (Machine, int))
  {
    var p := PathOf(v);
    var a := Walk(s.mem, cr3, p);
    var s1 := TakeScratch(s);
    var page := if a < 0 then Page(0, 0, false) else PageAt(s1.pages, a);
    if page.count == 1 then
      (s1.(mem := ChangeFlags(s1.mem, cr3, p, READ_WRITE)), 1)
    else if 1 < page.count then
      (CowCopy(s1, cr3, v, page.addr), 1)
    else (s1, -1)
  }

  /** The copying branch: a private frame is taken, filled and mapped, and the shared one
      loses a reference. */
  function CowCopy(s: Machine, cr3: nat, v: nat, a: nat): (r: Machine)
  {
    var s' := CowMap(s, cr3, v, a);
    s'.(pages := DecPages(s'.pages, a))
  }

  function CowMap(s: Machine, cr3: nat, v: nat, a: nat): (r: Machine)
  {
    var f := AllocAddr(s.pages);
    var m := s.mem[f := CopiedOver(FrameAt(s.mem, f), FrameAt(s.mem, a))];
    MapPage(Machine(m, AllocPages(s.pages)), v, f, READ_WRITE, cr3)
  }

  // ---------------------------------------------------------------- the invariant

  /** Memory and page list, the kernel's top-level table and those of the user spaces. */
  datatype System = System(machine: Machine, kernel: nat, spaces: set<nat>)

  /** Where the tables are, which pages are taken, and what is mapped. */
  datatype View = View(w: Places, base: nat, n: nat, t: LeafMap)

  /** A frame that pages are mapped to: in use, plain data, and counted once per page. */
  ghost predicate Counted(s: Machine, g: View, f: nat)
  {
    && InList(f, g.base, g.n) && f !in g.w
    && f in s.mem && s.mem[f].Data?
    && PageAt(s.pages, f).count == Sharers(g.t, f)
  }

  ghost predicate Tabled(sys: System, g: View)
  {
    && Shape(sys.machine.mem, g.w)
    && Backed(sys.machine, g.w, g.base, g.n)
    && KernelSpace(sys.machine.mem, g.w, sys.kernel)
    && (forall r | r in sys.spaces :: Root(g.w, r) && r != sys.kernel)
    && IsLeafMap(sys.machine.mem, sys.spaces, g.t)
    && 512 * |sys.machine.pages| < COUNT_LIMIT
  }

  ghost predicate Inv(sys: System, g: View)
  {
    Tabled(sys, g) && forall k | k in g.t :: Counted(sys.machine, g, g.t[k])
  }

  lemma InvTabled(sys: System, g: View)
    requires Inv(sys, g)
    ensures Tabled(sys, g)
  {
  }

  // ---------------------------------------------------------------- small steps

  /** Counts are looked up by position. */
  lemma CountAt(s: seq<Page>, base: nat, f: nat, n: nat)
    requires Listed(s, base) && InList(f, base, n) && n <= |s|
    ensures (f - base) / PAGE < n && PageAt(s, f) == s[(f - base) / PAGE] && PageAt(s, f).addr == f
  {
    var i := (f - base) / PAGE;
    assert s[i].addr == base + PAGE * i == f;
    IndexOfListed(s, base, i);
  }

  lemma TookKeepsCount(s: seq<Page>, s': seq<Page>, base: nat, n: nat, n': nat, f: nat)
    requires Sound(s, base) && Dense(s, n) && Took(s, s', base, n, n') && InList(f, base, n) && 0 < PageAt(s, f).count
    ensures PageAt(s', f) == PageAt(s, f)
  {
    CountAt(s, base, f, n);
    CountAt(s', base, f, n);
  }

  /** Writing plain data outside the tables changes no walk. */
  lemma DataWrite(m: Memory, w: Places, k: nat, f: nat, data: Frame)
    requires Shape(m, w) && KernelSpace(m, w, k) && f !in w
    ensures Shape(m[f := data], w) && KernelSpace(m[f := data], w, k)
    ensures forall r, q: Path | Root(w, r) :: Walk(m[f := data], r, q) == Walk(m, r, q)
  {
    var m' := m[f := data];
    assert forall a, i: Index | a in w :: At(m', a, i) == At(m, a, i);
    hide Walk;
    forall r, q: Path | Root(w, r)
      ensures Walk(m', r, q) == Walk(m, r, q)
    {
      SameTablesWalk(m, m', w, r, q);
    }
  }

  /** Writing plain data outside the tables keeps everything known about them. */
  lemma DataTabled(sys: System, g: View, f: nat, data: Frame)
    requires Tabled(sys, g) && f !in g.w
    ensures Tabled(sys.(machine := sys.machine.(mem := sys.machine.mem[f := data])), g)
  {
    hide Shape, KernelSpace, Walk;
    DataWrite(sys.machine.mem, g.w, sys.kernel, f, data);
    MapBacked(sys.machine, g.w, g.base, g.n, sys.machine.mem[f := data]);
  }

  /** The kernel's tables are untouched by what is done to a user space. */
  lemma KernelKept(m: Memory, m': Memory, w: Places, w': Places, k: nat, cr3: nat)
    requires KernelSpace(m, w, k) && Shape(m, w) && cr3 != k
    requires OthersSame(m, m', w, cr3, Space(cr3)) && Extends(w, w') && OnlyAdds(w, w', Space(cr3))
    ensures KernelSpace(m', w', k)
  {
    forall a, i: Index | a in w' && KernelOwned(w'[a], k)
      ensures a in w && At(m', a, i) == At(m, a, i)
    {
      assert a in w && w[a] == w'[a] && !Owned(w[a], cr3, Space(cr3));
    }
  }

  // ---------------------------------------------------------------- filling an unmapped page

  /** The tables after a step on space `cr3`: the same places or more, everything known
      about them still holds, and the only page translated differently is `p`. */
  ghost predicate Stepped(sys: System, g: View, s': Machine, w': Places, n': nat, cr3: nat, p: Path)
  {
    && Shape(s'.mem, w') && Backed(s', w', g.base, n') && Extends(g.w, w')
    && KernelSpace(s'.mem, w', sys.kernel)
    && SameTranslationsBut(sys.machine.mem, s'.mem, g.w, cr3, p)
    && Took(sys.machine.pages, s'.pages, g.base, g.n, n')
    && SameData(sys.machine.mem, s'.mem, g.w, g.base + PAGE * g.n)
    && AddsAbove(g.w, w', g.base + PAGE * g.n) && |s'.pages| == |sys.machine.pages|
  }

  lemma FlagsFirst(sys: System, g: View, cr3: nat, p: Path, flags: bv12)
    requires Tabled(sys, g) && cr3 in sys.spaces && UserPage(p)
    ensures var m, m' := sys.machine.mem, ChangeFlags(sys.machine.mem, cr3, p, flags);
            && Shape(m', g.w) && KernelSpace(m', g.w, sys.kernel) && SameKinds(m, m', g.w)
            && SameTranslations(m, m', g.w) && Missing(m', cr3, p) == Missing(m, cr3, p)
  {
    var m, m' := sys.machine.mem, ChangeFlags(sys.machine.mem, cr3, p, flags);
    ChangeFlagsKeeps(m, g.w, cr3, p, flags);
    hide ChangeFlags, Shape, KernelSpace, Walk, OnlyFlagsAdded;
    FlagsKeepWalk(m, m', g.w, cr3, p);
    KernelKept(m, m', g.w, g.w, sys.kernel, cr3);
  }

  /** The step maps the page to the next frame, which holds `bytes` and is counted once. */
  ghost predicate Filled(sys: System, g: View, s': Machine, w': Places, n': nat, cr3: nat, p: Path, bytes: Bytes)
  {
    var f := g.base + PAGE * g.n;
    && Stepped(sys, g, s', w', n', cr3, p)
    && Walk(s'.mem, cr3, p) == f && f !in w' && g.n < n' <= |s'.pages|
    && PageAt(s'.pages, f).count == 1
    && f in s'.mem && s'.mem[f] == Data(bytes)
  }

  lemma FillSteps(sys: System, g: View, cr3: nat, v: nat, flags: bv12, flagFirst: bool, bytes: Bytes)
    returns (w': Places, n': nat)
    requires Tabled(sys, g) && cr3 in sys.spaces && v % PAGE == 0 && UserPage(PathOf(v))
    requires flags & PRESENT == PRESENT
    requires g.n + 1 + Missing(sys.machine.mem, cr3, PathOf(v)) <= |sys.machine.pages|
    ensures Filled(sys, g, FillPage(sys.machine, cr3, v, flags, flagFirst, bytes), w', n', cr3, PathOf(v), bytes)
    ensures n' == g.n + 1 + Missing(sys.machine.mem, cr3, PathOf(v))
  {
    hide ChangeFlags, Shape, KernelSpace, Walk, Missing, MapPage, SameTranslations, SameTranslationsBut, SameData,
         OthersSame, AllocPages, AllocAddr, Sound, Dense, IsLeafMap, PageAt, Took, SameKinds, PathOf;
    var s, p, f := sys.machine, PathOf(v), g.base + PAGE * g.n;
    PageAligned(s.pages, g.base, g.n);
    AllocDense(s.pages, g.base, g.n);
    AllocTook(s.pages, g.base, g.n);
    var m := if flagFirst then ChangeFlags(s.mem, cr3, p, flags) else s.mem;
    FlagsFirst(sys, g, cr3, p, flags);
    SameReflexive(s.mem, g.w);
    var s1 := Machine(m, AllocPages(s.pages));
    BackedAfterAlloc(s, g.w, g.base, g.n, s1);
    w' := MapPageDense(s1, g.w, g.base, g.n + 1, v, f, flags, cr3);
    n' := g.n + 1 + Missing(s.mem, cr3, p);
    var s2 := MapPage(s1, v, f, flags, cr3);
    KernelKept(s1.mem, s2.mem, g.w, w', sys.kernel, cr3);
    DataWrite(s2.mem, w', sys.kernel, f, Data(bytes));
    var s' := FillPage(sys.machine, cr3, v, flags, flagFirst, bytes);
    assert s' == s2.(mem := s2.mem[f := Data(bytes)]);
    MapBacked(s2, w', g.base, n', s'.mem);
    FillTranslations(s.mem, s1.mem, s2.mem, s'.mem, g.w, w', cr3, p);
    FillData(s.mem, s1.mem, s2.mem, g.w, f, Data(bytes));
    TookTransitive(s.pages, s1.pages, s2.pages, g.base, g.n, g.n + 1, n');
    NewPageCount(s1.pages, s2.pages, g.base, g.n, n');
  }

  lemma PageAligned(s: seq<Page>, base: nat, n: nat)
    requires Sound(s, base)
    ensures (base + PAGE * n) % PAGE == 0 && 0 < base
  {
  }

  lemma NewPageCount(s1: seq<Page>, s2: seq<Page>, base: nat, n: nat, n': nat)
    requires Sound(s1, base) && Dense(s1, n + 1) && s1[n].count == 1 && Took(s1, s2, base, n + 1, n')
    ensures PageAt(s2, base + PAGE * n).count == 1
  {
    CountAt(s2, base, base + PAGE * n, n + 1);
  }

  lemma SameReflexive(m: Memory, w: Places)
    ensures SameTranslations(m, m, w) && (Shape(m, w) ==> SameKinds(m, m, w))
  {
  }

  lemma FillTranslations(m: Memory, m1: Memory, m2: Memory, m3: Memory, w: Places, w': Places, cr3: nat, p: Path)
    requires SameTranslations(m, m1, w) && SameTranslationsBut(m1, m2, w, cr3, p) && Extends(w, w')
    requires forall r, q: Path | Root(w', r) :: Walk(m3, r, q) == Walk(m2, r, q)
    ensures SameTranslationsBut(m, m3, w, cr3, p)
  {
    hide Walk;
  }

  lemma FillData(m: Memory, m1: Memory, m2: Memory, w: Places, f: nat, data: Frame)
    requires SameKinds(m, m1, w) && SameData(m1, m2, w, f + PAGE)
    ensures SameData(m, m2[f := data], w, f)
  {
  }

  lemma BackedAfterAlloc(s: Machine, w: Places, base: nat, n: nat, s1: Machine)
    requires Backed(s, w, base, n) && n < |s.pages| && s1.pages == AllocPages(s.pages)
    ensures Backed(s1, w, base, n + 1)
  {
    AllocDense(s.pages, base, n);
  }

  /** After a step that maps page `p` of `cr3` to `f`, the leaf map has that one change. */
  lemma StepLeafMap(sys: System, g: View, s': Machine, w': Places, n': nat, cr3: nat, p: Path, f: nat)
    requires Tabled(sys, g) && Stepped(sys, g, s', w', n', cr3, p)
    requires cr3 in sys.spaces && UserPage(p) && Walk(s'.mem, cr3, p) == f && 0 < f
    ensures IsLeafMap(s'.mem, sys.spaces, g.t[(cr3, p) := f])
    ensures Tabled(sys.(machine := s'), View(w', g.base, n', g.t[(cr3, p) := f]))
  {
    hide Shape, Backed, KernelSpace, Walk, SameData, Took;
    var t' := g.t[(cr3, p) := f];
    forall r, q: Path | r in sys.spaces && UserPage(q)
      ensures Translate(s'.mem, r, q) == Lookup(t', r, q)
    {
      if r == cr3 && q == p {
        assert Lookup(t', r, q) == Some(f);
      } else {
        assert Translate(s'.mem, r, q) == Translate(sys.machine.mem, r, q);
      }
    }
  }

  lemma SharedIsPositive(t: LeafMap, k: Leaf)
    requires k in t
    ensures 0 < Sharers(t, t[k])
  {
    assert k in LeavesOf(t, t[k]);
  }

  /** A frame counted before a step is still in place and counted as before. */
  lemma CountedBefore(sys: System, g: View, s': Machine, w': Places, n': nat, cr3: nat, p: Path, k: Leaf)
    requires Inv(sys, g) && Stepped(sys, g, s', w', n', cr3, p) && k in g.t
    ensures var f := g.t[k];
            && InList(f, g.base, n') && f !in w' && f < g.base + PAGE * g.n
            && f in s'.mem && s'.mem[f] == sys.machine.mem[f]
            && PageAt(s'.pages, f).count == Sharers(g.t, f)
  {
    hide Shape, KernelSpace, Walk, SameTranslationsBut, Extends, IsLeafMap, PageAt, Sharers;
    SharedIsPositive(g.t, k);
    assert Counted(sys.machine, g, g.t[k]);
    TookKeepsCount(sys.machine.pages, s'.pages, g.base, g.n, n', g.t[k]);
  }

  /** A fault on an unmapped page maps it to a frame of its own holding `bytes`; all other
      pages, their contents and all counts are kept. */
  lemma FillKeeps(sys: System, g: View, cr3: nat, v: nat, flags: bv12, flagFirst: bool, bytes: Bytes)
    returns (g': View)
    requires Inv(sys, g) && cr3 in sys.spaces && v % PAGE == 0 && UserPage(PathOf(v))
    requires flags & PRESENT == PRESENT && (cr3, PathOf(v)) !in g.t
    requires g.n + 1 + Missing(sys.machine.mem, cr3, PathOf(v)) <= |sys.machine.pages|
    ensures Inv(sys.(machine := FillPage(sys.machine, cr3, v, flags, flagFirst, bytes)), g')
    ensures g'.base == g.base && g'.t == g.t[(cr3, PathOf(v)) := g.base + PAGE * g.n]
    ensures g'.n == g.n + 1 + Missing(sys.machine.mem, cr3, PathOf(v))
    ensures forall k | k in g.t :: g.t[k] != g.base + PAGE * g.n
    ensures var m' := FillPage(sys.machine, cr3, v, flags, flagFirst, bytes).mem;
            && g.base + PAGE * g.n in m' && m'[g.base + PAGE * g.n] == Data(bytes)
            && SameContents(sys.machine.mem, m', g.t)
            && SameTranslationsBut(sys.machine.mem, m', g.w, cr3, PathOf(v))
  {
    hide FillPage, Walk, Missing, Stepped, SameTranslationsBut, PathOf, Shape, Backed, KernelSpace, IsLeafMap, PageAt,
         Sharers;
    var p, f := PathOf(v), g.base + PAGE * g.n;
    var w', n' := FillSteps(sys, g, cr3, v, flags, flagFirst, bytes);
    var s' := FillPage(sys.machine, cr3, v, flags, flagFirst, bytes);
    PositiveBase(sys, g);
    StepLeafMap(sys, g, s', w', n', cr3, p, f);
    g' := View(w', g.base, n', g.t[(cr3, p) := f]);
    forall k | k in g.t
      ensures Counted(s', g', g.t[k]) && g.t[k] != f && s'.mem[g.t[k]] == sys.machine.mem[g.t[k]]
    {
      CountedBefore(sys, g, s', w', n', cr3, p, k);
      AddLeaf(g.t, (cr3, p), f, g.t[k]);
    }
    AddLeaf(g.t, (cr3, p), f, f);
    NoSharers(g.t, f);
    NewInList(sys, g, s', w', n', cr3, p);
    SteppedBut(sys, g, s', w', n', cr3, p);
  }

  lemma SteppedBut(sys: System, g: View, s': Machine, w': Places, n': nat, cr3: nat, p: Path)
    requires Stepped(sys, g, s', w', n', cr3, p)
    ensures SameTranslationsBut(sys.machine.mem, s'.mem, g.w, cr3, p)
  {
  }

  ghost predicate SameContents(m: Memory, m': Memory, t: LeafMap)
  {
    forall k | k in t :: t[k] in m && t[k] in m' && m'[t[k]] == m[t[k]]
  }

  lemma NoSharers(t: LeafMap, f: nat)
    requires forall k | k in t :: t[k] != f
    ensures Sharers(t, f) == 0 && LeavesOf(t, f) == {}
  {
    assert LeavesOf(t, f) == {};
  }

  lemma PositiveBase(sys: System, g: View)
    requires Tabled(sys, g)
    ensures 0 < g.base
  {
  }

  lemma NewInList(sys: System, g: View, s': Machine, w': Places, n': nat, cr3: nat, p: Path)
    requires Stepped(sys, g, s', w', n', cr3, p) && g.n < n'
    ensures InList(g.base + PAGE * g.n, g.base, n')
  {
  }

  // ---------------------------------------------------------------- copy on write

  /** A frame taken and cleared by the kernel for itself: nothing mapped is affected. */
  lemma ScratchKeeps(sys: System, g: View) returns (g': View)
    requires Inv(sys, g) && g.n < |sys.machine.pages|
    ensures g' == g.(n := g.n + 1)
    ensures Inv(sys.(machine := TakeScratch(sys.machine)), g')
    ensures SameContents(sys.machine.mem, TakeScratch(sys.machine).mem, g.t)
    ensures TablesSame(sys.machine.mem, TakeScratch(sys.machine).mem, g.w)
    ensures |TakeScratch(sys.machine).pages| == |sys.machine.pages|
    ensures LastBytesKept(sys.machine.mem, TakeScratch(sys.machine).mem, g.base + PAGE * g'.n)
  {
    hide Walk, KernelSpace, IsLeafMap, PageAt, Sharers, AllocPages, AllocAddr, Sound, Dense;
    var s, s', f := sys.machine, TakeScratch(sys.machine), g.base + PAGE * g.n;
    AllocDense(s.pages, g.base, g.n);
    AllocTook(s.pages, g.base, g.n);
    ZeroFillKeeps(s.mem, g.w, f);
    ScratchLast(s.mem, f);
    hide ZeroFill, LastBytesKept;
    g' := g.(n := g.n + 1);
    ScratchData(s.mem, f);
    BackedAfterAlloc(s, g.w, g.base, g.n, s');
    SameTablesKeep(s.mem, s'.mem, g.w, sys.kernel);
    SameTablesLeafMap(s.mem, s'.mem, g.w, sys.spaces, g.t);
    forall k | k in g.t
      ensures Counted(s', g', g.t[k]) && s'.mem[g.t[k]] == s.mem[g.t[k]]
    {
      SharedIsPositive(g.t, k);
      assert Counted(s, g, g.t[k]);
      TookKeepsCount(s.pages, s'.pages, g.base, g.n, g.n + 1, g.t[k]);
    }
  }

  lemma ScratchData(m: Memory, f: nat)
    ensures forall a | a in m && a < f :: a in ZeroFill(m, f) && ZeroFill(m, f)[a] == m[a]
  {
  }

  lemma SameTablesKeep(m: Memory, m': Memory, w: Places, k: nat)
    requires Shape(m, w) && KernelSpace(m, w, k) && TablesSame(m, m', w)
    ensures Shape(m', w) && KernelSpace(m', w, k)
  {
    assert forall a, i: Index | a in w :: At(m', a, i) == At(m, a, i);
  }

  lemma SameTablesLeafMap(m: Memory, m': Memory, w: Places, spaces: set<nat>, t: LeafMap)
    requires Shape(m, w) && TablesSame(m, m', w) && IsLeafMap(m, spaces, t)
    requires forall r | r in spaces :: Root(w, r)
    ensures IsLeafMap(m', spaces, t)
  {
    hide Shape, Translate, TablesSame;
    forall r, q: Path | r in spaces && UserPage(q)
      ensures Translate(m', r, q) == Lookup(t, r, q)
    {
      SameTablesWalk(m, m', w, r, q);
    }
  }

  /** Adding flags to the entries of a page changes nothing that is mapped or counted. */
  lemma FlagsKeepInv(sys: System, g: View, cr3: nat, p: Path, flags: bv12)
    requires Inv(sys, g) && cr3 in sys.spaces && UserPage(p)
    ensures var m' := ChangeFlags(sys.machine.mem, cr3, p, flags);
            && Inv(sys.(machine := sys.machine.(mem := m')), g)
            && SameContents(sys.machine.mem, m', g.t)
  {
    hide ChangeFlags, Shape, KernelSpace, PageAt, Sharers;
    var m, m' := sys.machine.mem, ChangeFlags(sys.machine.mem, cr3, p, flags);
    FlagsFirst(sys, g, cr3, p, flags);
    MapBacked(sys.machine, g.w, g.base, g.n, m');
    forall k | k in g.t
      ensures Counted(sys.machine.(mem := m'), g, g.t[k]) && m'[g.t[k]] == m[g.t[k]]
    {
      assert Counted(sys.machine, g, g.t[k]);
    }
  }

  /** Page `p` of `cr3` is mapped to the next frame, which holds a copy of frame `a`. */
  ghost predicate CopyMapped(sys: System, g: View, s': Machine, w': Places, cr3: nat, p: Path, a: nat)
  {
    var f := g.base + PAGE * g.n;
    && Stepped(sys, g, s', w', g.n + 1, cr3, p)
    && Walk(s'.mem, cr3, p) == f && f !in w'
    && PageAt(s'.pages, f).count == 1
    && f in s'.mem && s'.mem[f] == CopiedOver(FrameAt(sys.machine.mem, f), FrameAt(sys.machine.mem, a))
  }

  /** The copying branch, up to the reference count. */
  lemma CowCopySteps(sys: System, g: View, cr3: nat, v: nat, a: nat) returns (w': Places)
    requires Inv(sys, g) && cr3 in sys.spaces && v % PAGE == 0 && UserPage(PathOf(v))
    requires (cr3, PathOf(v)) in g.t && g.n < |sys.machine.pages|
    ensures AllocAddr(sys.machine.pages) == g.base + PAGE * g.n
    ensures CopyMapped(sys, g, CowMap(sys.machine, cr3, v, a), w', cr3, PathOf(v), a)
  {
    hide Shape, KernelSpace, Walk, Missing, MapPage, SameTranslations, SameTranslationsBut, SameData, CopiedOver,
         OthersSame, AllocPages, AllocAddr, Sound, Dense, PageAt, Took, PathOf, IsLeafMap, Counted, Translate, Sharers;
    var s, p, f := sys.machine, PathOf(v), g.base + PAGE * g.n;
    PageAligned(s.pages, g.base, g.n);
    AllocDense(s.pages, g.base, g.n);
    AllocTook(s.pages, g.base, g.n);
    var data := CopiedOver(FrameAt(s.mem, f), FrameAt(s.mem, a));
    var s1 := Machine(s.mem[f := data], AllocPages(s.pages));
    DataWrite(s.mem, g.w, sys.kernel, f, data);
    BackedAfterAlloc(s, g.w, g.base, g.n, s1);
    MappedWalk(sys, g, (cr3, p));
    WalkByWay(s1.mem, cr3, p);
    MissingSmall(s1.mem, cr3, p);
    w' := MapPageDense(s1, g.w, g.base, g.n + 1, v, f, READ_WRITE, cr3);
    var s' := MapPage(s1, v, f, READ_WRITE, cr3);
    KernelKept(s1.mem, s'.mem, g.w, w', sys.kernel, cr3);
    CowTranslations(s.mem, s1.mem, s'.mem, g.w, cr3, p);
    CowData(s.mem, s1.mem, s'.mem, g.w, f, data);
    TookTransitive(s.pages, s1.pages, s'.pages, g.base, g.n, g.n + 1, g.n + 1);
    NewPageCount(s1.pages, s'.pages, g.base, g.n, g.n + 1);
  }

  lemma MissingSmall(m: Memory, cr3: nat, p: Path)
    requires 0 <= Walk(m, cr3, p)
    ensures Missing(m, cr3, p) == 0
  {
  }

  lemma CowTranslations(m: Memory, m1: Memory, m2: Memory, w: Places, cr3: nat, p: Path)
    requires forall r, q: Path | Root(w, r) :: Walk(m1, r, q) == Walk(m, r, q)
    requires SameTranslationsBut(m1, m2, w, cr3, p)
    ensures SameTranslationsBut(m, m2, w, cr3, p)
  {
    hide Walk;
  }

  lemma CowData(m: Memory, m1: Memory, m2: Memory, w: Places, f: nat, data: Frame)
    requires m1 == m[f := data] && SameData(m1, m2, w, f + PAGE) && f !in w
    ensures SameData(m, m2, w, f) && f in m2 && m2[f] == data
  {
  }

  /** Leaf `k` moved to the next frame, which nothing was mapped to and which now holds a
      copy of its old frame; every frame mapped before holds what it held. */
  ghost predicate PageMoved(sys: System, g: View, s': Machine, g': View, k: Leaf)
  {
    var f := g.base + PAGE * g.n;
    && k in g.t && g'.t == g.t[k := f] && g'.base == g.base && g'.n == g.n + 1
    && (forall j | j in g.t :: g.t[j] != f)
    && SameContents(sys.machine.mem, s'.mem, g.t)
    && f in s'.mem && s'.mem[f] == CopiedOver(FrameAt(sys.machine.mem, f), sys.machine.mem[g.t[k]])
  }

  /** The copying branch: the page moves to a private copy, and the shared frame has one
      reference less. */
  lemma CowCopyKeeps(sys: System, g: View, cr3: nat, v: nat) returns (g': View)
    requires Inv(sys, g) && cr3 in sys.spaces && v % PAGE == 0 && UserPage(PathOf(v))
    requires (cr3, PathOf(v)) in g.t && g.n < |sys.machine.pages|
    requires 1 < Sharers(g.t, g.t[(cr3, PathOf(v))])
    ensures Inv(sys.(machine := CowCopy(sys.machine, cr3, v, g.t[(cr3, PathOf(v))])), g')
    ensures PageMoved(sys, g, CowCopy(sys.machine, cr3, v, g.t[(cr3, PathOf(v))]), g', (cr3, PathOf(v)))
    ensures LastBytesKept(sys.machine.mem, CowCopy(sys.machine, cr3, v, g.t[(cr3, PathOf(v))]).mem,
                          g.base + PAGE * (g.n + 1))
    ensures SameTranslationsBut(sys.machine.mem, CowCopy(sys.machine, cr3, v, g.t[(cr3, PathOf(v))]).mem, g.w, cr3,
                                PathOf(v))
  {
    hide Walk, Missing, MapPage, Stepped, SameTranslationsBut, LastBytesKept, PathOf, Shape, KernelSpace, IsLeafMap,
         PageAt, Sharers, AllocPages, AllocAddr, DecPages, Sound, Dense;
    var p, a, f := PathOf(v), g.t[(cr3, PathOf(v))], g.base + PAGE * g.n;
    assert Counted(sys.machine, g, a);
    var w' := CowCopySteps(sys, g, cr3, v, a);
    CopyLast(sys, g, cr3, v, a);
    var m := sys.machine.mem;
    var s2 := CowMap(sys.machine, cr3, v, a);
    hide CowMap;
    var s' := CowCopy(sys.machine, cr3, v, a);
    PositiveBase(sys, g);
    StepLeafMap(sys, g, s2, w', g.n + 1, cr3, p, f);
    g' := View(w', g.base, g.n + 1, g.t[(cr3, p) := f]);
    DecKeeps(sys.(machine := s2), g', a);
    NewInList(sys, g, s2, w', g.n + 1, cr3, p);
    SteppedBut(sys, g, s2, w', g.n + 1, cr3, p);
    forall k | k in g.t
      ensures g.t[k] != f && g.t[k] in m && g.t[k] in s'.mem && s'.mem[g.t[k]] == m[g.t[k]]
    {
      assert Counted(sys.machine, g, g.t[k]);
      CountedBefore(sys, g, s2, w', g.n + 1, cr3, p, k);
    }
    NoSharers(g.t, f);
    forall k | k in g'.t
      ensures Counted(s', g', g'.t[k])
    {
      MoveLeaf(g.t, (cr3, p), f, g'.t[k]);
      if g'.t[k] == f {
        CountDec(s2.pages, g.base, g.n + 1, f, a);
      } else {
        assert Counted(sys.machine, g, g.t[k]);
        CountedBefore(sys, g, s2, w', g.n + 1, cr3, p, k);
        SharedIsPositive(g.t, k);
        CountDec(s2.pages, g.base, g.n + 1, g.t[k], a);
      }
    }
  }

  /** The copying branch writes to its own frame and to a table. */
  lemma CopyLast(sys: System, g: View, cr3: nat, v: nat, a: nat)
    requires Tabled(sys, g) && cr3 in sys.spaces && v % PAGE == 0 && UserPage(PathOf(v))
    requires (cr3, PathOf(v)) in g.t && g.n < |sys.machine.pages|
    ensures LastBytesKept(sys.machine.mem, CowMap(sys.machine, cr3, v, a).mem, g.base + PAGE * (g.n + 1))
  {
    hide Shape, KernelSpace, Walk, Missing, MapPage, CopiedOver, AllocPages, AllocAddr, Sound, Dense, PathOf, IsLeafMap,
         Translate, LastByte, LastTable;
    var s, p, f := sys.machine, PathOf(v), g.base + PAGE * g.n;
    PageAligned(s.pages, g.base, g.n);
    AllocDense(s.pages, g.base, g.n);
    var data := CopiedOver(FrameAt(s.mem, f), FrameAt(s.mem, a));
    var m1 := s.mem[f := data];
    DataWrite(s.mem, g.w, sys.kernel, f, data);
    MappedWalk(sys, g, (cr3, p));
    MissingSmall(m1, cr3, p);
    LastTablePlace(m1, g.w, cr3, p);
    MapInPlace(Machine(m1, AllocPages(s.pages)), v, f, READ_WRITE, cr3);
  }

  lemma DecKeeps(sys: System, g: View, a: nat)
    requires Tabled(sys, g)
    requires InList(a, g.base, g.n)
    ensures Tabled(sys.(machine := sys.machine.(pages := DecPages(sys.machine.pages, a))), g)
  {
    hide Shape, KernelSpace, IsLeafMap;
    var s := sys.machine.pages;
    CountAt(s, g.base, a, g.n);
    ApplyKeeps(s, g.base, Dec(a));
  }

  /** A decrement reaches the count of its page only. */
  lemma CountDec(s: seq<Page>, base: nat, n: nat, f: nat, a: nat)
    requires Sound(s, base) && Dense(s, n) && InList(f, base, n) && InList(a, base, n)
    requires f == a ==> 0 < PageAt(s, f).count
    ensures PageAt(DecPages(s, a), f).count == PageAt(s, f).count - if f == a then 1 else 0
  {
    CountAt(s, base, f, n);
    var s' := DecPages(s, a);
    assert Listed(s', base);
    CountAt(s', base, f, n);
  }

  /** A write fault on a mapped page: a page that alone holds its frame becomes writable
      where it is; a page that shares its frame moves to a private copy. */
  lemma CowFaultKeeps(sys: System, g: View, cr3: nat, v: nat) returns (g': View)
    requires Inv(sys, g) && cr3 in sys.spaces && v % PAGE == 0 && UserPage(PathOf(v))
    requires (cr3, PathOf(v)) in g.t && g.n + 2 <= |sys.machine.pages|
    ensures Inv(sys.(machine := CowFault(sys.machine, cr3, v).0), g')
    ensures CowOutcome(sys, g, CowFault(sys.machine, cr3, v).0, g', (cr3, PathOf(v)))
    ensures CowFault(sys.machine, cr3, v).1 == 1
    ensures SameTranslationsBut(sys.machine.mem, CowFault(sys.machine, cr3, v).0.mem, g.w, cr3, PathOf(v))
  {
    hide ChangeFlags, Walk, PathOf, TakeScratch, CowCopy, PageAt, Sharers, Tabled, CopiedOver, IsCopy, InList,
         TablesSame, SameTranslationsBut;
    var k := (cr3, PathOf(v));
    var f := g.t[k];
    var s1 := TakeScratch(sys.machine);
    var sys1 := sys.(machine := s1);
    var g1 := ScratchKeeps(sys, g);
    MappedWalk(sys, g, k);
    assert Counted(s1, g1, f) && Counted(sys.machine, g, f);
    SharedIsPositive(g.t, k);
    PageAddr(sys1, g1, f);
    ScratchTranslations(sys, g, s1.mem);
    if Sharers(g.t, f) == 1 {
      FlagsKeepInv(sys1, g1, cr3, k.1, READ_WRITE);
      FlagsLast(s1.mem, cr3, k.1, READ_WRITE, g.base + PAGE * g1.n);
      FlagsTranslations(sys1, g1, cr3, k.1);
      ThenBut(sys.machine.mem, s1.mem, ChangeFlags(s1.mem, cr3, k.1, READ_WRITE), g.w, cr3, k.1);
      g' := g1;
    } else {
      g' := CowCopyKeeps(sys1, g1, cr3, v);
      CopyIsCopy(FrameAt(s1.mem, g.base + PAGE * g1.n), s1.mem[f]);
      SameContentsTransitive(sys.machine.mem, s1.mem, CowCopy(s1, cr3, v, f).mem, g.t);
      ThenBut(sys.machine.mem, s1.mem, CowCopy(s1, cr3, v, f).mem, g.w, cr3, k.1);
    }
  }

  lemma ScratchTranslations(sys: System, g: View, m': Memory)
    requires Tabled(sys, g) && TablesSame(sys.machine.mem, m', g.w)
    ensures SameTranslations(sys.machine.mem, m', g.w)
  {
    hide Shape, TablesSame, Translate, Walk, Backed, KernelSpace, IsLeafMap;
    forall r, q: Path | Root(g.w, r)
      ensures Translate(m', r, q) == Translate(sys.machine.mem, r, q)
    {
      SameTablesWalk(sys.machine.mem, m', g.w, r, q);
    }
  }

  lemma FlagsTranslations(sys: System, g: View, cr3: nat, p: Path)
    requires Tabled(sys, g) && cr3 in sys.spaces && UserPage(p)
    ensures SameTranslationsBut(sys.machine.mem, ChangeFlags(sys.machine.mem, cr3, p, READ_WRITE), g.w, cr3, p)
  {
    hide ChangeFlags, Translate, Shape, Missing, KernelSpace, SameKinds;
    FlagsFirst(sys, g, cr3, p, READ_WRITE);
  }

  lemma ThenBut(m: Memory, m1: Memory, m2: Memory, w: Places, cr3: nat, p: Path)
    requires SameTranslations(m, m1, w) && SameTranslationsBut(m1, m2, w, cr3, p)
    ensures SameTranslationsBut(m, m2, w, cr3, p)
  {
    hide Translate;
  }

  lemma MappedWalk(sys: System, g: View, k: Leaf)
    requires Tabled(sys, g) && k in g.t && k.0 in sys.spaces && UserPage(k.1)
    ensures Walk(sys.machine.mem, k.0, k.1) == g.t[k]
  {
    hide Shape, Backed, KernelSpace, Walk;
    assert Translate(sys.machine.mem, k.0, k.1) == Lookup(g.t, k.0, k.1);
  }

  lemma CopyIsCopy(was: Frame, from: Frame)
    requires from.Data?
    ensures IsCopy(CopiedOver(was, from), from, LastByte(was))
  {
  }

  lemma SameContentsTransitive(m: Memory, m1: Memory, m2: Memory, t: LeafMap)
    requires SameContents(m, m1, t) && SameContents(m1, m2, t)
    ensures SameContents(m, m2, t)
  {
  }

  lemma PageAddr(sys: System, g: View, f: nat)
    requires Tabled(sys, g) && InList(f, g.base, g.n)
    ensures PageAt(sys.machine.pages, f).addr == f
  {
    CountAt(sys.machine.pages, g.base, f, g.n);
  }

  ghost predicate CowOutcome(sys: System, g: View, s': Machine, g': View, k: Leaf)
  {
    && k in g.t && g.t[k] in sys.machine.mem && g'.base == g.base
    && SameContents(sys.machine.mem, s'.mem, g.t) && LastBytesKept(sys.machine.mem, s'.mem, g.base + PAGE * g'.n)
    && if Sharers(g.t, g.t[k]) == 1 then g'.t == g.t && g'.n == g.n + 1
       else
         var f := g.base + PAGE * (g.n + 1);
         && g'.t == g.t[k := f] && g'.n == g.n + 2
         && (forall j | j in g.t :: g.t[j] != f)
         && f in s'.mem && IsCopy(s'.mem[f], sys.machine.mem[g.t[k]], LastByte(FrameAt(sys.machine.mem, f)))
  }

  /** The frame holds the bytes of another but for the last, which is `last`. */
  ghost predicate IsCopy(f: Frame, from: Frame, last: bv8)
  {
    from.Data? && f == Data(from.bytes[4095 := last])
  }

  /** The copy is what was to be copied if and only if the last byte was there already. */
  lemma CopyExact(f: Frame, from: Frame, last: bv8)
    requires IsCopy(f, from, last)
    ensures f == from <==> last == from.bytes[4095]
  {
    assert f.bytes[4095] == last;
  }

  /** Frames from `limit` on have the last bytes they had. */
  ghost predicate LastBytesKept(m: Memory, m': Memory, limit: nat)
  {
    forall a | limit <= a :: LastByte(FrameAt(m', a)) == LastByte(FrameAt(m, a))
  }

  lemma ScratchLast(m: Memory, f: nat)
    ensures LastBytesKept(m, ZeroFill(m, f), f + PAGE)
  {
  }

  lemma FlagsLast(m: Memory, cr3: nat, p: Path, flags: bv12, limit: nat)
    ensures LastBytesKept(m, ChangeFlags(m, cr3, p, flags), limit)
  {
    hide At, LastByte;
    var e4 := At(m, cr3, p.l4);
    var m4 := FlagEntry(m, cr3, p.l4, flags);
    FlagLast(m, cr3, p.l4, flags);
    var e3 := At(m4, e4.addr, p.l3);
    var m3 := FlagEntry(m4, e4.addr, p.l3, flags);
    FlagLast(m4, e4.addr, p.l3, flags);
    var e2 := At(m3, e3.addr, p.l2);
    var m2 := FlagEntry(m3, e3.addr, p.l2, flags);
    FlagLast(m3, e3.addr, p.l2, flags);
    FlagLast(m2, e2.addr, p.l1, flags);
    hide FlagEntry;
  }

  lemma FlagLast(m: Memory, t: nat, i: Index, flags: bv12)
    ensures forall a :: LastByte(FrameAt(FlagEntry(m, t, i, flags), a)) == LastByte(FrameAt(m, a))
  {
  }

  /** With all tables present, a map only writes the last entry. */
  lemma MapInPlace(s: Machine, v: nat, a: nat, flags: bv12, cr3: nat)
    requires v % PAGE == 0 && a % PAGE == 0 && Missing(s.mem, cr3, PathOf(v)) == 0
    ensures var p, t := PathOf(v), LastTable(s.mem, cr3, PathOf(v));
            MapPage(s, v, a, flags, cr3) == s.(mem := Put(s.mem, t, p.l1, Linked(At(s.mem, t, p.l1), a, flags)))
  {
    hide PathOf, Put, At;
  }
}
