/** What the processor sees, which unlike walk_pml4 looks at the present bit of the last entry
    too (sys/virt_mmgr.c), while the kernel maps pages, takes frames and writes to them. */
module Presence {
  import opened Basics
  import opened PageList
  import opened PageTables
  import opened PageFlags
  import opened Mapping

  /** The processor sees every page of every space as before. */
  ghost predicate SameSight(m: Memory, m': Memory, w: Places)
  {
    forall r, q: Path | Root(w, r) :: Hardware(m', r, q) == Hardware(m, r, q)
  }

  /** The same apart from page `p` of space `cr3`, or of all spaces if it is the kernel's. */
  ghost predicate SameSightBut(m: Memory, m': Memory, w: Places, cr3: nat, p: Path)
  {
    forall r, q: Path | Root(w, r) && !(q == p && (r == cr3 || 256 <= p.l4)) :: Hardware(m', r, q) == Hardware(m, r, q)
  }

  lemma SightByWay(m: Memory, r: nat, q: Path)
    ensures Hardware(m, r, q) ==
              if Missing(m, r, q) == 0 && Present(At(m, LastTable(m, r, q), q.l1))
              then Some(At(m, LastTable(m, r, q), q.l1).addr) else None
  {
  }

  /** A page that the processor sees is seen where the walk leads; one that is seen but not
      mapped is seen as frame 0. */
  lemma SeenWhereWalked(m: Memory, r: nat, q: Path)
    ensures Hardware(m, r, q).Some? ==> Hardware(m, r, q).value == Walk(m, r, q)
    ensures Hardware(m, r, q).Some? && Translate(m, r, q) == None ==> Hardware(m, r, q) == Some(0)
  {
    WalkByWay(m, r, q);
  }

  lemma SameTablesSight(m: Memory, m': Memory, w: Places)
    requires Shape(m, w) && forall a, i: Index | a in w :: At(m', a, i) == At(m, a, i)
    ensures SameSight(m, m', w)
  {
  }

  /** Linking a fresh empty table below an absent entry shows and hides nothing. */
  lemma LinkKeepsSight(m: Memory, m': Memory, w: Places, t: nat, i: Index, f: nat, r: nat, q: Path)
    requires Shape(m, w) && Root(w, r) && t in w && !w[t].Pt? && !Present(At(m, t, i)) && f !in w
    requires SameBut(m, m', w, t, i) && At(m', t, i).addr == f && forall j: Index :: At(m', f, j) == NO_ENTRY
    ensures Hardware(m', r, q) == Hardware(m, r, q)
  {
  }

  /** One level of the map on a list without holes. */
  lemma LevelSight(s: Machine, w: Places, base: nat, n: nat, t: nat, i: Index, flags: bv12, cr3: nat, o: Owner)
    returns (w': Places, n': nat)
    requires Shape(s.mem, w) && Backed(s, w, base, n)
    requires t in w && !w[t].Pt? && Owned(w[t], cr3, o) && (w[t].Pml4? ==> OwnerOf(cr3, i) == o)
    requires flags & PRESENT == PRESENT && (Present(At(s.mem, t, i)) || n < |s.pages|)
    ensures var s' := WithTable(s, t, i, flags);
            && Shape(s'.mem, w') && Backed(s', w', base, n') && Extends(w, w') && SameSight(s.mem, s'.mem, w)
            && |s'.pages| == |s.pages| && n' == n + if Present(At(s.mem, t, i)) then 0 else 1
    ensures var e' := At(WithTable(s, t, i, flags).mem, t, i);
            && e'.addr in w' && w'[e'.addr] == Child(w[t], i)
            && (!Present(At(s.mem, t, i)) ==>
                  && e'.addr !in w && (forall a | a in w' :: a in w || a == e'.addr)
                  && forall j: Index :: At(WithTable(s, t, i, flags).mem, e'.addr, j) == NO_ENTRY)
            && (Present(At(s.mem, t, i)) ==> w' == w)
  {
    hide Hardware, Shape, Grew, Sound, Dense, Took, ZeroFill, AllocPages, AllocAddr, SameBut, At, Put, WithTable,
         SameSight, TablesHeld;
    DenseHeld(s, w, base, n);
    NoTableNeeded(s, t, i, flags);
    if Present(At(s.mem, t, i)) {
      EntryLeads(s.mem, w, t, i);
      SightSelf(s.mem, w);
      w', n' := w, n;
    } else {
      var f, s' := AllocAddr(s.pages), WithTable(s, t, i, flags);
      AllocDense(s.pages, base, n);
      PositiveFrame(s.pages, base, n);
      var fs;
      w', fs := LevelGrows(s, w, base, t, i, flags, cr3, o);
      GrewFacts(s, w, s', w', fs, base, cr3, o);
      GrewPlaces(s, w, s', w', fs, base, cr3, o);
      FirstGiven(s.pages);
      AllocTook(s.pages, base, n);
      n' := n + 1;
      DenseBacked(s, w, base, n, s', w', fs, n + 1);
      NewTableSight(s, w, t, i, flags);
    }
  }

  lemma SightSelf(m: Memory, w: Places)
    ensures SameSight(m, m, w)
  {
  }

  lemma NewTableSight(s: Machine, w: Places, t: nat, i: Index, flags: bv12)
    requires Shape(s.mem, w) && t in w && !w[t].Pt? && !Present(At(s.mem, t, i)) && flags & PRESENT == PRESENT
    requires AllocAddr(s.pages) !in w && AllocAddr(s.pages) + PAGE !in w
    ensures SameSight(s.mem, WithTable(s, t, i, flags).mem, w)
  {
    hide Hardware, Shape, ZeroFill, WithTable, At, Put, SameBut, AllocAddr;
    var f, s' := AllocAddr(s.pages), WithTable(s, t, i, flags);
    ClearedElsewhere(s.mem, w, f);
    LevelMemory(s, w, t, i, flags);
    forall r, q: Path | Root(w, r)
      ensures Hardware(s'.mem, r, q) == Hardware(s.mem, r, q)
    {
      LinkKeepsSight(ZeroFill(s.mem, f), s'.mem, w, t, i, f, r, q);
    }
  }

  lemma PositiveFrame(s: seq<Page>, base: nat, n: nat)
    requires Sound(s, base)
    ensures 0 < base + PAGE * n
  {
  }

  lemma GrewPlaces(s: Machine, w: Places, s': Machine, w': Places, fs: seq<nat>, base: nat, cr3: nat, o: Owner)
    requires Grew(s, w, s', w', fs, base, cr3, o)
    ensures (forall a :: a in w' <==> a in w || a in fs) && (fs == [] ==> w' == w)
  {
  }

  /** Clearing a frame that is no table and not just below one. */
  lemma ClearedElsewhere(m: Memory, w: Places, f: nat)
    requires Shape(m, w) && f !in w && f + PAGE !in w
    ensures SameSight(m, ZeroFill(m, f), w) && Shape(ZeroFill(m, f), w)
  {
    ZeroFillKeeps(m, w, f);
    hide ZeroFill;
    assert forall a, i: Index | a in w :: At(ZeroFill(m, f), a, i) == At(m, a, i);
    SameTablesSight(m, ZeroFill(m, f), w);
  }

  lemma SightTwice(m: Memory, m1: Memory, m2: Memory, w: Places, w1: Places)
    requires SameSight(m, m1, w) && SameSight(m1, m2, w1) && Extends(w, w1)
    ensures SameSight(m, m2, w)
  {
    hide Hardware;
  }

  /** The three upper levels of the map show and hide nothing. */
  lemma LevelsSight(s: Machine, w: Places, base: nat, n: nat, cr3: nat, p: Path, flags: bv12)
    returns (w': Places)
    requires Shape(s.mem, w) && Backed(s, w, base, n) && Root(w, cr3) && flags & PRESENT == PRESENT
    requires n + Missing(s.mem, cr3, p) <= |s.pages|
    ensures var (s', t) := WithTables(s, cr3, p, flags);
            && Shape(s'.mem, w') && Extends(w, w') && SameSight(s.mem, s'.mem, w)
            && t in w' && w'[t] == Pt(OwnerOf(cr3, p.l4), p.l4, p.l3, p.l2)
  {
    hide Shape, Backed, WithTable, SameSight, At, Present;
    Absent();
    var o := OwnerOf(cr3, p.l4);
    NoTableNeeded(s, cr3, p.l4, flags);
    var w3, n3 := LevelSight(s, w, base, n, cr3, p.l4, flags, cr3, o);
    var (s3, t3) := Upper(s, cr3, p, flags);
    NoTableNeeded(s3, t3, p.l3, flags);
    var w2, n2 := LevelSight(s3, w3, base, n3, t3, p.l3, flags, cr3, o);
    var (s2, t2) := Middle(s, cr3, p, flags);
    SightTwice(s.mem, s3.mem, s2.mem, w, w3);
    var n1;
    w', n1 := LevelSight(s2, w2, base, n2, t2, p.l2, flags, cr3, o);
    SightTwice(s.mem, s2.mem, WithTable(s2, t2, p.l2, flags).mem, w, w2);
  }

  /** Writing the entry of a page in its last table shows or hides no other page. */
  lemma EntrySight(m: Memory, w: Places, cr3: nat, p: Path, t: nat, e: Entry)
    requires Shape(m, w) && Root(w, cr3) && t in w && w[t] == Pt(OwnerOf(cr3, p.l4), p.l4, p.l3, p.l2)
    ensures SameSightBut(m, Put(m, t, p.l1, e), w, cr3, p)
  {
    hide Shape, Missing, LastTable, SameBut, Put, Hardware;
    LastLevelPut(m, w, t, p.l1, e);
    var m' := Put(m, t, p.l1, e);
    forall r, q: Path | Root(w, r) && !(q == p && (r == cr3 || 256 <= p.l4))
      ensures Hardware(m', r, q) == Hardware(m, r, q)
    {
      SameWay(m, m', w, t, p.l1, r, q);
      SightByWay(m, r, q);
      SightByWay(m', r, q);
      if Missing(m, r, q) == 0 {
        LastTablePlace(m, w, r, q);
        SameButAt(m, m', w, t, p.l1, LastTable(m, r, q), q.l1);
      }
    }
  }

  /** The map on a list without holes: the processor sees the frame at the page, and every other
      page of every space as before. */
  lemma MapSight(s: Machine, w: Places, base: nat, n: nat, v: nat, a: nat, flags: bv12, cr3: nat)
    requires Shape(s.mem, w) && Backed(s, w, base, n) && Root(w, cr3)
    requires v % PAGE == 0 && a % PAGE == 0 && flags & PRESENT == PRESENT
    requires n + Missing(s.mem, cr3, PathOf(v)) <= |s.pages|
    ensures var m' := MapPage(s, v, a, flags, cr3).mem;
            SameSightBut(s.mem, m', w, cr3, PathOf(v)) && Hardware(m', cr3, PathOf(v)) == Some(a)
  {
    hide Shape, Backed, WithTables, Hardware, Missing, LastTable, Walk, Put, At, PathOf, SameBut, Present;
    var p := PathOf(v);
    var (s1, t) := WithTables(s, cr3, p, flags);
    var w' := LevelsSight(s, w, base, n, cr3, p, flags);
    var e := Linked(At(s1.mem, t, p.l1), a, flags);
    var m' := Put(s1.mem, t, p.l1, e);
    assert MapPage(s, v, a, flags, cr3) == s1.(mem := m');
    EntrySight(s1.mem, w', cr3, p, t, e);
    SightThenWrite(s.mem, s1.mem, m', w, w', cr3, p);
    var w'' := MapPageDense(s, w, base, n, v, a, flags, cr3);
    SightByWay(m', cr3, p);
    WalkByWay(m', cr3, p);
  }

  lemma SightThenWrite(m: Memory, m1: Memory, m2: Memory, w: Places, w1: Places, cr3: nat, p: Path)
    requires SameSight(m, m1, w) && SameSightBut(m1, m2, w1, cr3, p) && Extends(w, w1)
    ensures SameSightBut(m, m2, w, cr3, p)
  {
    hide Hardware;
  }
}
