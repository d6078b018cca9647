/** Copy-on-write over runs (sys/page_faults.c, do_copy_on_write_fault): what a fault
    answers, how many faults a store needs, and what becomes of a shared frame. */
module CowRuns {
  import opened Basics
  import opened PageList
  import opened PageTables
  import opened PageFlags
  import opened TableCopy
  import opened Leaves
  import opened Sharing

  /** The handler succeeds exactly on mapped pages; on any other it returns -1, having
      only used up a frame. */
  lemma CowAnswer(sys: System, g: View, cr3: nat, v: nat)
    requires Inv(sys, g) && cr3 in sys.spaces && v % PAGE == 0 && UserPage(PathOf(v))
    requires g.n + 2 <= |sys.machine.pages|
    ensures CowFault(sys.machine, cr3, v).1 == 1 <==> Translate(sys.machine.mem, cr3, PathOf(v)).Some?
    ensures CowFault(sys.machine, cr3, v).1 != 1 ==>
              CowFault(sys.machine, cr3, v) == (TakeScratch(sys.machine), -1)
  {
    hide PathOf, TakeScratch, CowCopy, Shape, Backed, KernelSpace, ChangeFlags, Walk, PageAt;
    assert Translate(sys.machine.mem, cr3, PathOf(v)) == Lookup(g.t, cr3, PathOf(v));
    if (cr3, PathOf(v)) in g.t {
      var g' := CowFaultKeeps(sys, g, cr3, v);
    } else {
      CowUnmapped(sys, g, cr3, v);
    }
  }

  /** The handler on a page that is not mapped. */
  lemma CowUnmapped(sys: System, g: View, cr3: nat, v: nat)
    requires Inv(sys, g) && Walk(sys.machine.mem, cr3, PathOf(v)) <= 0 && g.n < |sys.machine.pages|
    ensures CowFault(sys.machine, cr3, v) == (TakeScratch(sys.machine), -1)
  {
    hide PathOf, TakeScratch, CowCopy, Shape, Backed, KernelSpace, ChangeFlags, Walk, PageAt;
    var g1 := ScratchKeeps(sys, g);
    NoPageZero(sys.(machine := TakeScratch(sys.machine)), g1);
  }

  /** No listed page has address 0. */
  lemma NoPageZero(sys: System, g: View)
    requires Tabled(sys, g)
    ensures PageAt(sys.machine.pages, 0).count == 0
  {
    assert forall i | 0 <= i < |sys.machine.pages| :: sys.machine.pages[i].addr != 0;
  }

  // ---------------------------------------------------------------- how many faults a store needs

  /** When the frame is not shared, one fault makes the page writable. */
  lemma CowAloneGrantsWrite(sys: System, g: View, cr3: nat, v: nat)
    requires Inv(sys, g) && cr3 in sys.spaces && v % PAGE == 0 && UserPage(PathOf(v))
    requires (cr3, PathOf(v)) in g.t && g.n + 2 <= |sys.machine.pages|
    requires Sharers(g.t, g.t[(cr3, PathOf(v))]) == 1
    ensures CanWrite(CowFault(sys.machine, cr3, v).0.mem, cr3, PathOf(v))
  {
    hide ChangeFlags, Walk, PathOf, TakeScratch, CowCopy, PageAt, Sharers, Shape, Backed, KernelSpace, CanWrite,
         Missing;
    var p, f := PathOf(v), g.t[(cr3, PathOf(v))];
    var s1 := TakeScratch(sys.machine);
    var g1 := ScratchKeeps(sys, g);
    assert Counted(s1, g1, f);
    assert Translate(sys.machine.mem, cr3, p) == Lookup(g.t, cr3, p);
    assert Translate(s1.mem, cr3, p) == Lookup(g1.t, cr3, p);
    MissingSmall(s1.mem, cr3, p);
    ChangeFlagsGrantsWrite(s1.mem, g1.w, cr3, p);
  }

  /** Whatever is shared, two faults are enough: the first may only copy, because the map
      leaves the flags of tables that exist alone; the second finds the copy unshared. */
  lemma TwoFaultsGrantWrite(sys: System, g: View, cr3: nat, v: nat)
    requires Inv(sys, g) && cr3 in sys.spaces && v % PAGE == 0 && UserPage(PathOf(v))
    requires (cr3, PathOf(v)) in g.t && g.n + 4 <= |sys.machine.pages|
    ensures var s1 := CowFault(sys.machine, cr3, v).0;
            CanWrite(CowFault(s1, cr3, v).0.mem, cr3, PathOf(v))
  {
    hide CowFault, PathOf, Inv, CanWrite;
    var k := (cr3, PathOf(v));
    var g1 := CowFaultKeeps(sys, g, cr3, v);
    var s1 := CowFault(sys.machine, cr3, v).0;
    FaultLeavesAlone(sys, g, s1, g1, k);
    SamePageCount(sys, g, cr3, v);
    CowAloneGrantsWrite(sys.(machine := s1), g1, cr3, v);
  }

  lemma FaultLeavesAlone(sys: System, g: View, s1: Machine, g1: View, k: Leaf)
    requires CowOutcome(sys, g, s1, g1, k)
    ensures k in g1.t && Sharers(g1.t, g1.t[k]) == 1 && g1.n <= g.n + 2
  {
    if Sharers(g.t, g.t[k]) != 1 {
      var f := g.base + PAGE * (g.n + 1);
      NoSharers(g.t, f);
      MoveLeaf(g.t, k, f, f);
    }
  }

  lemma SamePageCount(sys: System, g: View, cr3: nat, v: nat)
    ensures |CowFault(sys.machine, cr3, v).0.pages| == |sys.machine.pages|
  {
    hide ChangeFlags, MapPage, AllocPages, ZeroFill, Walk, PathOf;
    PagesKept(sys.machine, cr3, v);
  }

  lemma PagesKept(s: Machine, cr3: nat, v: nat)
    ensures forall a :: |CowCopy(TakeScratch(s), cr3, v, a).pages| == |s.pages|
  {
    hide Put, ZeroFill;
  }

  /** The copying fault alone makes the page writable exactly when the three tables above
      the last level allow it already; in a forked child they do not
      (ForkedWrites.ForkChildCannotWrite). */
  lemma CopyGrantsWrite(sys: System, g: View, cr3: nat, v: nat, a: nat)
    requires Inv(sys, g) && cr3 in sys.spaces && v % PAGE == 0 && UserPage(PathOf(v))
    requires (cr3, PathOf(v)) in g.t && g.n < |sys.machine.pages|
    ensures CanWrite(CowCopy(sys.machine, cr3, v, a).mem, cr3, PathOf(v)) <==>
            forall k | 2 <= k <= 4 :: Writable(EntryAt(sys.machine.mem, cr3, PathOf(v), k))
  {
    hide PathOf, Shape, KernelSpace, CopiedOver, AllocPages, AllocAddr, DecPages, Missing, LastTable, Walk,
         CanWrite, MapPage, Put, EntryAt, Sound, Dense;
    var s, p, f := sys.machine, PathOf(v), AllocAddr(sys.machine.pages);
    AllocDense(s.pages, g.base, g.n);
    PageAligned(s.pages, g.base, g.n);
    var data := CopiedOver(FrameAt(s.mem, f), FrameAt(s.mem, a));
    DataWrite(s.mem, g.w, sys.kernel, f, data);
    var s1 := Machine(s.mem[f := data], AllocPages(s.pages));
    assert Translate(s.mem, cr3, p) == Lookup(g.t, cr3, p);
    MissingSmall(s.mem, cr3, p);
    MissingSmall(s1.mem, cr3, p);
    MapInPlace(s1, v, f, READ_WRITE, cr3);
    var e := Linked(At(s1.mem, LastTable(s1.mem, cr3, p), p.l1), f, READ_WRITE);
    UpperEntriesKept(s.mem, s1.mem, g.w, cr3, p, f, data, e);
    NowWritable(At(s1.mem, LastTable(s1.mem, cr3, p), p.l1), f);
    CanWriteSplit(CowCopy(s, cr3, v, a).mem, cr3, p);
  }

  lemma CanWriteSplit(m: Memory, cr3: nat, p: Path)
    ensures CanWrite(m, cr3, p) <==>
            Writable(EntryAt(m, cr3, p, 1)) && forall k | 2 <= k <= 4 :: Writable(EntryAt(m, cr3, p, k))
  {
    hide EntryAt, Writable;
  }

  lemma NowWritable(e: Entry, f: nat)
    ensures Writable(Linked(e, f, READ_WRITE))
  {
  }

  lemma UpperEntriesKept(m: Memory, m1: Memory, w: Places, cr3: nat, p: Path, f: nat, data: Frame, e: Entry)
    requires Shape(m, w) && Shape(m1, w) && Root(w, cr3) && Missing(m, cr3, p) == 0 && Missing(m1, cr3, p) == 0
    requires m1 == m[f := data] && f !in w
    ensures var m2 := Put(m1, LastTable(m1, cr3, p), p.l1, e);
            && EntryAt(m2, cr3, p, 1) == e
            && forall k | 2 <= k <= 4 :: EntryAt(m2, cr3, p, k) == EntryAt(m, cr3, p, k)
  {
    LastTablePlace(m1, w, cr3, p);
    LastEntryWrite(m1, w, cr3, p, LastTable(m1, cr3, p), e);
    hide Put;
    var t := LastTable(m1, cr3, p);
    var m2 := Put(m1, t, p.l1, e);
    assert forall a, i: Index | a in w :: At(m1, a, i) == At(m, a, i);
    assert forall a, i: Index | a in w && !w[a].Pt? :: At(m2, a, i) == At(m, a, i);
  }

  // ---------------------------------------------------------------- every sharer faults once

  /** One write fault on each of the given pages, in order. */
  function FaultAll(s: Machine, ks: seq<Leaf>): (r: Machine)
    decreases |ks|
  {
    if ks == [] then s else FaultAll(CowFault(s, ks[0].0, PageStart(ks[0].1)).0, ks[1..])
  }

  function Elements(ks: seq<Leaf>): (r: set<Leaf>)
  {
    set k | k in ks
  }

  lemma {:induction false} DistinctCard(ks: seq<Leaf>)
    requires NoDup(ks)
    ensures |Elements(ks)| == |ks|
  {
    if ks != [] {
      DistinctCard(ks[1..]);
      assert Elements(ks) == Elements(ks[1..]) + {ks[0]};
    }
  }

  /** The page has the frame `f` to itself, which no page had before and which holds what `a` held
      but for the last byte; that is the byte that was there. */
  ghost predicate Copied(sys: System, g: View, s': Machine, t': LeafMap, a: nat, k: Leaf, f: nat)
  {
    && k in t' && t'[k] == f && f !in g.t.Values && a in sys.machine.mem
    && f in s'.mem && IsCopy(s'.mem[f], sys.machine.mem[a], LastByte(FrameAt(sys.machine.mem, f)))
  }

  /** What has become of the sharers `ks` of frame `a`: all but the last have a frame of
      their own with a copy of what `a` held (of all bytes but the last), the last keeps `a`, and nothing else moved
      or changed.  Two frames were used per fault, one for the last. */
  ghost predicate Privatised(sys: System, g: View, s': Machine, g': View, a: nat, ks: seq<Leaf>)
  {
    && 0 < |ks| && a in sys.machine.mem && g'.base == g.base && g'.n == g.n + 2 * |ks| - 1
    && g'.t.Keys == g.t.Keys
    && (forall k | k in ks :: k in g'.t && Sharers(g'.t, g'.t[k]) == 1)
    && (forall k | k in g.t && k !in ks :: g'.t[k] == g.t[k])
    && g'.t[ks[|ks| - 1]] == a
    && (forall i | 0 <= i < |ks| - 1 :: Copied(sys, g, s', g'.t, a, ks[i], g.base + PAGE * (g.n + 2 * i + 1)))
    && SameContents(sys.machine.mem, s'.mem, g.t)
    && (forall h | h != a && h in g.t.Values :: Sharers(g'.t, h) == Sharers(g.t, h))
  }

  /** If exactly the pages `ks` share frame `a` and each takes one write fault, in any
      order, then all but the last end up with private copies. */
  lemma {:induction false} FaultAllPrivatises(sys: System, g: View, a: nat, ks: seq<Leaf>) returns (g': View)
    requires Inv(sys, g) && 0 < |ks| && NoDup(ks) && Elements(ks) == LeavesOf(g.t, a)
    requires g.n + 2 * |ks| <= |sys.machine.pages|
    ensures Inv(sys.(machine := FaultAll(sys.machine, ks)), g')
    ensures Privatised(sys, g, FaultAll(sys.machine, ks), g', a, ks)
    decreases |ks|
  {
    hide CowFault, PageStart, Tabled, PathOf;
    var k := ks[0];
    assert k in LeavesOf(g.t, a) by { assert k in Elements(ks); }
    DistinctCard(ks);
    LeafKnown(sys, g, k);
    var s1 := CowFault(sys.machine, k.0, PageStart(k.1)).0;
    var g1 := CowFaultKeeps(sys, g, k.0, PageStart(k.1));
    SamePageCount(sys, g, k.0, PageStart(k.1));
    if |ks| == 1 {
      assert FaultAll(s1, ks[1..]) == s1;
      g' := g1;
    } else {
      var sys1 := sys.(machine := s1);
      FirstMoves(sys, g, s1, g1, a, ks);
      g' := FaultAllPrivatises(sys1, g1, a, ks[1..]);
      AddFirst(sys, g, s1, g1, FaultAll(s1, ks[1..]), g', a, ks);
    }
  }

  lemma LeafKnown(sys: System, g: View, k: Leaf)
    requires Inv(sys, g) && k in g.t
    ensures k.0 in sys.spaces && UserPage(k.1) && g.t[k] in sys.machine.mem
    ensures PathOf(PageStart(k.1)) == k.1 && PageStart(k.1) % PAGE == 0
  {
    PathRoundTrip(k.1, 0);
    assert Counted(sys.machine, g, g.t[k]);
  }

  lemma FirstMoves(sys: System, g: View, s1: Machine, g1: View, a: nat, ks: seq<Leaf>)
    requires 1 < |ks| && NoDup(ks) && Elements(ks) == LeavesOf(g.t, a)
    requires CowOutcome(sys, g, s1, g1, ks[0]) && Sharers(g.t, a) != 1
    requires ks[0] in g.t && g.t[ks[0]] == a
    ensures NoDup(ks[1..]) && Elements(ks[1..]) == LeavesOf(g1.t, a)
  {
    assert ks == [ks[0]] + ks[1..];
    assert ks[0] !in ks[1..];
    assert Elements(ks[1..]) == Elements(ks) - {ks[0]};
    assert LeavesOf(g1.t, a) == LeavesOf(g.t, a) - {ks[0]};
  }

  /** The first fault's effect carried through the rest of the run. */
  lemma AddFirst(sys: System, g: View, s1: Machine, g1: View, s': Machine, g': View, a: nat, ks: seq<Leaf>)
    requires 1 < |ks| && NoDup(ks) && Elements(ks) == LeavesOf(g.t, a)
    requires CowOutcome(sys, g, s1, g1, ks[0]) && Sharers(g.t, a) != 1 && ks[0] in g.t && g.t[ks[0]] == a
    requires Privatised(sys.(machine := s1), g1, s', g', a, ks[1..])
    ensures Privatised(sys, g, s', g', a, ks)
  {
    hide IsCopy, Sharers, SameContents, Copied, LastBytesKept, NoDup, LeavesOf;
    FirstNotLater(ks);
    AddCopies(sys, g, s1, g1, s', g', a, ks);
    SharersThrough(sys, g, s1, g1, s', g', a, ks);
    ContentsThrough(sys.machine.mem, s1.mem, s'.mem, g.t, g1.t);
    var k0, f, rest := ks[0], g.base + PAGE * (g.n + 1), ks[1..];
    assert g'.t[k0] == g1.t[k0] == f;
  }

  lemma FirstNotLater(ks: seq<Leaf>)
    requires 1 < |ks| && NoDup(ks)
    ensures ks[0] !in ks[1..] && ks[|ks| - 1] == ks[1..][|ks| - 2]
    ensures forall k :: k in ks <==> k == ks[0] || k in ks[1..]
  {
  }

  /** Who else has the frames. */
  lemma SharersThrough(sys: System, g: View, s1: Machine, g1: View, s': Machine, g': View, a: nat, ks: seq<Leaf>)
    requires 1 < |ks| && NoDup(ks) && Elements(ks) == LeavesOf(g.t, a)
    requires CowOutcome(sys, g, s1, g1, ks[0]) && Sharers(g.t, a) != 1 && ks[0] in g.t && g.t[ks[0]] == a
    requires Privatised(sys.(machine := s1), g1, s', g', a, ks[1..])
    ensures var f := g.base + PAGE * (g.n + 1); f != a && Sharers(g'.t, f) == 1
    ensures forall h | h in g.t.Values :: h in g1.t.Values && (h != a ==> Sharers(g'.t, h) == Sharers(g.t, h))
  {
    hide IsCopy, Sharers, SameContents, Copied, LastBytesKept;
    var k0, f, rest := ks[0], g.base + PAGE * (g.n + 1), ks[1..];
    assert g1.t[k0] == f && f in g1.t.Values && f != a;
    NoSharers(g.t, f);
    MoveLeaf(g.t, k0, f, f);
    forall h | h in g.t.Values
      ensures h in g1.t.Values && (h != a ==> Sharers(g'.t, h) == Sharers(g.t, h))
    {
      var j :| j in g.t && g.t[j] == h;
      if h == a {
        assert rest[0] in Elements(ks);
        assert g1.t[rest[0]] == a;
      } else {
        assert g1.t[j] == h;
        MoveLeaf(g.t, k0, f, h);
      }
    }
  }

  /** The copies made by the faults, in order. */
  lemma AddCopies(sys: System, g: View, s1: Machine, g1: View, s': Machine, g': View, a: nat, ks: seq<Leaf>)
    requires 1 < |ks| && NoDup(ks) && Elements(ks) == LeavesOf(g.t, a)
    requires CowOutcome(sys, g, s1, g1, ks[0]) && Sharers(g.t, a) != 1
    requires ks[0] in g.t && g.t[ks[0]] == a && Privatised(sys.(machine := s1), g1, s', g', a, ks[1..])
    ensures forall i | 0 <= i < |ks| - 1 :: Copied(sys, g, s', g'.t, a, ks[i], g.base + PAGE * (g.n + 2 * i + 1))
  {
    hide IsCopy, Sharers, SameContents, LastByte;
    var k0, f, rest := ks[0], g.base + PAGE * (g.n + 1), ks[1..];
    assert k0 !in rest && g'.t[k0] == g1.t[k0] == f;
    assert rest[0] in Elements(ks);
    ContentsAt(sys.machine.mem, s1.mem, g.t, k0);
    ContentsAt(s1.mem, s'.mem, g1.t, k0);
    forall i | 0 <= i < |ks| - 1
      ensures Copied(sys, g, s', g'.t, a, ks[i], g.base + PAGE * (g.n + 2 * i + 1))
    {
      var h := g.base + PAGE * (g.n + 2 * i + 1);
      if 0 < i {
        assert rest[i - 1] == ks[i];
        assert h == g1.base + PAGE * (g1.n + 2 * (i - 1) + 1);
        assert Copied(sys.(machine := s1), g1, s', g'.t, a, rest[i - 1], h);
        NotBefore(g.t, g1.t, k0, f, h, a, rest[0]);
      }
    }
  }

  lemma NotBefore(t: LeafMap, t1: LeafMap, k: Leaf, f: nat, h: nat, a: nat, j: Leaf)
    requires k in t && t[k] == a && t1 == t[k := f] && j in t && j != k && t[j] == a && h !in t1.Values
    ensures h !in t.Values
  {
    forall i | i in t
      ensures t[i] != h
    {
      assert t1[j] == a && (i != k ==> t1[i] == t[i]);
    }
  }

  lemma ContentsAt(m: Memory, m': Memory, t: LeafMap, k: Leaf)
    requires SameContents(m, m', t) && k in t
    ensures t[k] in m && t[k] in m' && m'[t[k]] == m[t[k]]
  {
  }

  lemma ContentsThrough(m: Memory, m1: Memory, m2: Memory, t: LeafMap, t1: LeafMap)
    requires SameContents(m, m1, t) && SameContents(m1, m2, t1) && t.Values <= t1.Values
    ensures SameContents(m, m2, t)
  {
    forall k | k in t
      ensures t[k] in m && t[k] in m2 && m2[t[k]] == m[t[k]]
    {
      assert t[k] in t1.Values;
      var j :| j in t1 && t1[j] == t[k];
      ContentsAt(m1, m2, t1, j);
    }
  }
}
