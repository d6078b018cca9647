/** map_virtual_address_to_physical_address (sys/virt_mmgr.c) on any page list: what it does to
    every translation of every space, and when it refines the map from pages to frames. */
module Mapping {
  import opened Basics
  import opened PageList
  import opened PageTables
  import opened Overrun

  // ---------------------------------------------------------------- what a step may do

  /** The list is well formed and the tables are pages in use, wherever the free pages are. */
  ghost predicate TablesHeld(s: Machine, w: Places, base: nat)
  {
    Sound(s.pages, base) && forall a | a in w :: Held(s.pages, a)
  }

  /** The frame at `a` comes right after one of `fs`. */
  predicate Follows(a: nat, fs: seq<nat>)
  {
    PAGE <= a && a - PAGE in fs
  }

  /** The page is mapped, and its way goes through entry 0 of a frame after one of `fs`. */
  ghost predicate Lost(m: Memory, r: nat, q: Path, fs: seq<nat>)
  {
    Translate(m, r, q).Some? && exists f | f in fs :: ThroughSlotZero(m, r, q, f + PAGE)
  }

  /** Of the pages mapped before exactly the lost ones are mapped no longer. */
  ghost predicate Loses(m: Memory, m': Memory, w: Places, fs: seq<nat>)
  {
    forall r, q: Path | Root(w, r) ::
      Translate(m', r, q) == if Lost(m, r, q, fs) then None else Translate(m, r, q)
  }

  ghost predicate WaysKept(m: Memory, m': Memory, w: Places)
  {
    forall r, q: Path, g | Root(w, r) && Translate(m', r, q).Some? ::
      ThroughSlotZero(m', r, q, g) == ThroughSlotZero(m, r, q, g)
  }

  /** Frames other than `fs` and the tables of one owner hold what they held, but for the first
      byte of those that follow one of `fs`. */
  ghost predicate Untouched(m: Memory, m': Memory, w: Places, fs: seq<nat>, cr3: nat, o: Owner)
  {
    forall a | a in m && a !in fs && (a in w ==> !Owned(w[a], cr3, o)) ::
      a in m' && m'[a] == if Follows(a, fs) then FirstByteCleared(m[a]) else m[a]
  }

  /** Tables were added in the frames `fs`, the next to be handed out. */
  ghost predicate Grew(s: Machine, w: Places, s': Machine, w': Places, fs: seq<nat>, base: nat, cr3: nat, o: Owner)
  {
    && Shape(s'.mem, w') && TablesHeld(s', w', base)
    && Extends(w, w') && OnlyAdds(w, w', o) && (forall a :: a in w' <==> a in w || a in fs)
    && fs == Given(s.pages, |fs|) && s'.pages == AllocMany(s.pages, |fs|)
    && Loses(s.mem, s'.mem, w, fs) && WaysKept(s.mem, s'.mem, w)
    && Untouched(s.mem, s'.mem, w, fs, cr3, o)
  }

  lemma GrewNothing(s: Machine, w: Places, base: nat, cr3: nat, o: Owner)
    requires Shape(s.mem, w) && TablesHeld(s, w, base)
    ensures Grew(s, w, s, w, [], base, cr3, o)
  {
  }

  lemma LosesTwice(m: Memory, m1: Memory, m2: Memory, w: Places, w1: Places, fs: seq<nat>, fs1: seq<nat>)
    requires Loses(m, m1, w, fs) && WaysKept(m, m1, w) && Extends(w, w1)
    requires Loses(m1, m2, w1, fs1) && WaysKept(m1, m2, w1)
    ensures Loses(m, m2, w, fs + fs1) && WaysKept(m, m2, w)
  {
    hide Translate, ThroughSlotZero;
    forall r, q: Path | Root(w, r)
      ensures Translate(m2, r, q) == if Lost(m, r, q, fs + fs1) then None else Translate(m, r, q)
      ensures Translate(m2, r, q).Some? ==> Translate(m1, r, q).Some?
    {
      assert Root(w1, r);
      if Translate(m1, r, q).Some? {
        assert Lost(m1, r, q, fs1) <==> exists f | f in fs1 :: ThroughSlotZero(m, r, q, f + PAGE);
      }
      if f :| f in fs && ThroughSlotZero(m, r, q, f + PAGE) {
        assert f in fs + fs1;
      }
      if f :| f in fs1 && ThroughSlotZero(m, r, q, f + PAGE) {
        assert f in fs + fs1;
      }
    }
  }

  lemma UntouchedTwice(m: Memory, m1: Memory, m2: Memory, w: Places, w1: Places, fs: seq<nat>, fs1: seq<nat>,
                       cr3: nat, o: Owner)
    requires Untouched(m, m1, w, fs, cr3, o) && Untouched(m1, m2, w1, fs1, cr3, o)
    requires Extends(w, w1) && forall a :: a in w1 <==> a in w || a in fs
    ensures Untouched(m, m2, w, fs + fs1, cr3, o)
  {
    forall a | a in m && a !in fs + fs1 && (a in w ==> !Owned(w[a], cr3, o))
      ensures a in m2 && m2[a] == if Follows(a, fs + fs1) then FirstByteCleared(m[a]) else m[a]
    {
      assert a !in fs && a !in fs1;
      ClearedTwice(m[a]);
    }
  }

  lemma ClearedTwice(f: Frame)
    ensures FirstByteCleared(FirstByteCleared(f)) == FirstByteCleared(f)
  {
  }

  lemma GrewTwice(s: Machine, w: Places, s1: Machine, w1: Places, s2: Machine, w2: Places, fs: seq<nat>, fs1: seq<nat>,
                  base: nat, cr3: nat, o: Owner)
    requires Grew(s, w, s1, w1, fs, base, cr3, o) && Grew(s1, w1, s2, w2, fs1, base, cr3, o)
    ensures Grew(s, w, s2, w2, fs + fs1, base, cr3, o)
  {
    hide Loses, WaysKept, Untouched, TablesHeld, Shape, Given, AllocMany;
    GivenSplit(s.pages, |fs|, |fs1|);
    LosesTwice(s.mem, s1.mem, s2.mem, w, w1, fs, fs1);
    UntouchedTwice(s.mem, s1.mem, s2.mem, w, w1, fs, fs1, cr3, o);
  }

  // ---------------------------------------------------------------- one level

  /** The memory after one level had to allocate a table. */
  lemma LevelMemory(s: Machine, w: Places, t: nat, i: Index, flags: bv12)
    requires Shape(s.mem, w) && t in w && !w[t].Pt? && !Present(At(s.mem, t, i)) && AllocAddr(s.pages) !in w
    ensures var f, m' := AllocAddr(s.pages), WithTable(s, t, i, flags).mem;
            var m1 := ZeroFill(s.mem, f);
            && m' == Put(m1, t, i, Linked(At(m1, t, i), f, flags)) && Shape(m1, w) && !Present(At(m1, t, i))
            && SameBut(m1, m', w, t, i) && At(m', t, i) == Linked(At(m1, t, i), f, flags)
            && IsTable(m', f) && (forall j: Index :: At(m', f, j) == NO_ENTRY)
            && (forall a | a in w :: IsTable(m', a))
  {
    var f := AllocAddr(s.pages);
    ClearedEntries(s.mem, w, f);
    ZeroFillTable(s.mem, f);
    ZeroFillShape(s.mem, w, f);
    hide ZeroFill, Shape;
    PutEffect(ZeroFill(s.mem, f), w, t, i, Linked(At(ZeroFill(s.mem, f), t, i), f, flags), f);
  }

  lemma PutEffect(m: Memory, w: Places, t: nat, i: Index, e: Entry, f: nat)
    requires t in w && f !in w && IsTable(m, f) && forall a | a in w :: IsTable(m, a)
    ensures var m' := Put(m, t, i, e);
            && SameBut(m, m', w, t, i) && At(m', t, i) == e
            && (forall a | a in w || a == f :: IsTable(m', a))
            && forall j: Index :: At(m', f, j) == At(m, f, j)
  {
    var m' := Put(m, t, i, e);
    assert forall a, j: Index | a != t :: At(m', a, j) == At(m, a, j);
  }

  /** What one level does to an entry of a table. */
  lemma LevelEntry(s: Machine, w: Places, t: nat, i: Index, flags: bv12, a: nat, j: Index)
    requires Shape(s.mem, w) && t in w && !w[t].Pt? && a in w && flags & PRESENT == PRESENT
    requires Present(At(s.mem, t, i)) || AllocAddr(s.pages) !in w
    ensures var made, f := !Present(At(s.mem, t, i)), AllocAddr(s.pages);
            var e, e' := At(s.mem, a, j), At(WithTable(s, t, i, flags).mem, a, j);
            && e'.addr == (if made && a == t && j == i then f else e.addr)
            && (Present(e') <==> (made && a == t && j == i) || (Present(e) && !(made && j == 0 && a == f + PAGE)))
  {
    if !Present(At(s.mem, t, i)) {
      LevelMemory(s, w, t, i, flags);
      ClearedEntries(s.mem, w, AllocAddr(s.pages));
      hide ZeroFill, WithTable, Shape, SameBut;
      if a != t || j != i {
        SameButAt(ZeroFill(s.mem, AllocAddr(s.pages)), WithTable(s, t, i, flags).mem, w, t, i, a, j);
      }
    }
  }

  /** One level of the map on any list: every page of every space translates as before, except
      that a page whose way goes through entry 0 of the frame after a new table is lost. */
  lemma LevelLoses(s: Machine, w: Places, t: nat, i: Index, flags: bv12, r: nat, q: Path)
    requires Shape(s.mem, w) && t in w && !w[t].Pt? && Root(w, r)
    requires !Present(At(s.mem, t, i)) && AllocAddr(s.pages) !in w
    ensures var f, m' := AllocAddr(s.pages), WithTable(s, t, i, flags).mem;
            Translate(m', r, q) == if Lost(s.mem, r, q, [f]) then None else Translate(s.mem, r, q)
    ensures var m' := WithTable(s, t, i, flags).mem;
            Translate(m', r, q).Some? ==>
              forall g :: ThroughSlotZero(m', r, q, g) == ThroughSlotZero(s.mem, r, q, g)
  {
    var f, m' := AllocAddr(s.pages), WithTable(s, t, i, flags).mem;
    var m1 := ZeroFill(s.mem, f);
    LevelMemory(s, w, t, i, flags);
    LostPage(s.mem, w, f, r, q);
    LinkKeepsTranslation(m1, m', w, t, i, f, r, q);
    NotMissing(s.mem, r, q);
    assert f in [f];
    if Translate(m', r, q).Some? {
      SameThrough(s.mem, m1, w, f, r, q);
      LinkSameThrough(m1, m', w, t, i, r, q);
    }
  }

  lemma SameThrough(m: Memory, m1: Memory, w: Places, f: nat, r: nat, q: Path)
    requires Shape(m, w) && f !in w && m1 == ZeroFill(m, f) && Root(w, r) && Translate(m, r, q).Some?
    ensures forall g :: ThroughSlotZero(m1, r, q, g) == ThroughSlotZero(m, r, q, g)
  {
    ClearedEntries(m, w, f);
    hide ZeroFill;
  }

  lemma LinkSameThrough(m: Memory, m': Memory, w: Places, t: nat, i: Index, r: nat, q: Path)
    requires Shape(m, w) && Root(w, r) && Translate(m, r, q).Some? && SameBut(m, m', w, t, i)
    requires t in w && !w[t].Pt? && !Present(At(m, t, i))
    ensures forall g :: ThroughSlotZero(m', r, q, g) == ThroughSlotZero(m, r, q, g)
  {
  }

  lemma LevelUntouched(s: Machine, w: Places, t: nat, i: Index, flags: bv12, cr3: nat, o: Owner)
    requires Shape(s.mem, w) && t in w && Owned(w[t], cr3, o) && !Present(At(s.mem, t, i)) && AllocAddr(s.pages) !in w
    ensures Untouched(s.mem, WithTable(s, t, i, flags).mem, w, [AllocAddr(s.pages)], cr3, o)
  {
  }

  /** One level of the map, as a step that adds at most one table. */
  lemma LevelGrows(s: Machine, w: Places, base: nat, t: nat, i: Index, flags: bv12, cr3: nat, o: Owner)
    returns (w': Places, fs: seq<nat>)
    requires Shape(s.mem, w) && TablesHeld(s, w, base)
    requires t in w && !w[t].Pt? && Owned(w[t], cr3, o) && (w[t].Pml4? ==> OwnerOf(cr3, i) == o)
    requires flags & PRESENT == PRESENT && (Present(At(s.mem, t, i)) || AllocAddr(s.pages) != 0)
    ensures Grew(s, w, WithTable(s, t, i, flags), w', fs, base, cr3, o)
    ensures |fs| == if Present(At(s.mem, t, i)) then 0 else 1
    ensures !Present(At(s.mem, t, i)) ==> AllocAddr(s.pages) !in w && fs == [AllocAddr(s.pages)]
    ensures var e' := At(WithTable(s, t, i, flags).mem, t, i);
            && Present(e') && e'.addr in w' && w'[e'.addr] == Child(w[t], i)
            && (!Present(At(s.mem, t, i)) ==>
                  && e'.addr == AllocAddr(s.pages)
                  && forall j: Index :: At(WithTable(s, t, i, flags).mem, e'.addr, j) == NO_ENTRY)
  {
    hide Lost, Translate, ThroughSlotZero, ZeroFill, Untouched, Shape, SameBut, Sound, AllocPages, AllocAddr, Put,
         PageAt, At;
    w', fs := w, [];
    GrewNothing(s, w, base, cr3, o);
    if Present(At(s.mem, t, i)) {
      EntryLeads(s.mem, w, t, i);
    } else {
      var f, s' := AllocAddr(s.pages), WithTable(s, t, i, flags);
      AllocTookOne(s.pages, base);
      w', fs := w[f := Child(w[t], i)], [f];
      FirstGiven(s.pages);
      LevelMemory(s, w, t, i, flags);
      LinkKeepsShape(ZeroFill(s.mem, f), s'.mem, w, t, i, f);
      LevelUntouched(s, w, t, i, flags, cr3, o);
      LevelEntry(s, w, t, i, flags, t, i);
      forall r, q: Path | Root(w, r)
        ensures Translate(s'.mem, r, q) == if Lost(s.mem, r, q, [f]) then None else Translate(s.mem, r, q)
        ensures Translate(s'.mem, r, q).Some? ==>
                  forall g :: ThroughSlotZero(s'.mem, r, q, g) == ThroughSlotZero(s.mem, r, q, g)
      {
        LevelLoses(s, w, t, i, flags, r, q);
      }
    }
  }

  /** One level keeps every translation if and only if no table had to be allocated or the
      frame after the new one is no table with a page mapped below its entry 0. */
  lemma WithTableExact(s: Machine, w: Places, t: nat, i: Index, flags: bv12)
    requires Shape(s.mem, w) && t in w && !w[t].Pt? && AllocAddr(s.pages) !in w
    ensures SameTranslations(s.mem, WithTable(s, t, i, flags).mem, w) <==>
            Present(At(s.mem, t, i)) || !SlotZeroInUse(s.mem, w, AllocAddr(s.pages) + PAGE)
  {
    hide Shape, WithTable, ThroughSlotZero, Translate, At;
    NoTableNeeded(s, t, i, flags);
    if !Present(At(s.mem, t, i)) {
      var f, m' := AllocAddr(s.pages), WithTable(s, t, i, flags).mem;
      assert f in [f];
      forall r, q: Path | Root(w, r)
        ensures Translate(m', r, q) == Translate(s.mem, r, q) <==>
                !(Translate(s.mem, r, q).Some? && ThroughSlotZero(s.mem, r, q, f + PAGE))
      {
        LevelLoses(s, w, t, i, flags, r, q);
      }
    }
  }

  lemma NoTableNeeded(s: Machine, t: nat, i: Index, flags: bv12)
    ensures Present(At(s.mem, t, i)) ==> WithTable(s, t, i, flags) == s
  {
  }

  lemma EntryLeads(m: Memory, w: Places, t: nat, i: Index)
    requires Shape(m, w) && t in w && !w[t].Pt? && Present(At(m, t, i))
    ensures At(m, t, i).addr in w && w[At(m, t, i).addr] == Child(w[t], i)
  {
  }

  lemma FirstGiven(s: seq<Page>)
    ensures Given(s, 1) == [AllocAddr(s)] && AllocMany(s, 1) == AllocPages(s)
  {
    assert Given(AllocPages(s), 0) == [];
  }

  // ---------------------------------------------------------------- all levels

  /** The way to `p` itself is cut while its tables are being made: a frame allocated after an
      entry of the way was written or found lies just below the table of that entry, and the
      entry is the first. */
  predicate OwnWayCut(m: Memory, cr3: nat, p: Path, fs: seq<nat>)
  {
    var later := if fs == [] then [] else fs[1..];
    var e4 := At(m, cr3, p.l4);
    var e3 := At(m, e4.addr, p.l3);
    || (p.l4 == 0 && Follows(cr3, if Present(e4) then fs else later))
    || (Present(e4) && p.l3 == 0 && Follows(e4.addr, if Present(e3) then fs else later))
    || (Present(e4) && Present(e3) && p.l2 == 0 && Follows(e3.addr, later))
  }

  lemma NextGiven(s: seq<Page>, j: nat, k: nat)
    requires j < k
    ensures Given(s, k)[j] == AllocAddr(AllocMany(s, j))
  {
    hide AllocPages, AllocAddr;
    GivenSplit(s, j, k - j);
  }

  lemma GrewFacts(s: Machine, w: Places, s': Machine, w': Places, fs: seq<nat>, base: nat, cr3: nat, o: Owner)
    requires Grew(s, w, s', w', fs, base, cr3, o)
    ensures Shape(s'.mem, w') && TablesHeld(s', w', base) && Extends(w, w')
    ensures fs == Given(s.pages, |fs|) && s'.pages == AllocMany(s.pages, |fs|)
  {
  }

  /** The state after the first and after the second level, and the table they lead to. */
  function Upper(s: Machine, cr3: nat, p: Path, flags: bv12): (r: (Machine, nat))
  {
    var s3 := WithTable(s, cr3, p.l4, flags);
    (s3, At(s3.mem, cr3, p.l4).addr)
  }

  function Middle(s: Machine, cr3: nat, p: Path, flags: bv12): (r: (Machine, nat))
  {
    var (s3, t3) := Upper(s, cr3, p, flags);
    var s2 := WithTable(s3, t3, p.l3, flags);
    (s2, At(s2.mem, t3, p.l3).addr)
  }

  /** The tables are where they should be after each of these levels, and a frame handed out
      next would be none of them. */
  ghost predicate Stages(s: Machine, w: Places, w3: Places, w2: Places, cr3: nat, p: Path, flags: bv12)
  {
    var o, e4 := OwnerOf(cr3, p.l4), At(s.mem, cr3, p.l4);
    var (s3, t3) := Upper(s, cr3, p, flags);
    var (s2, t2) := Middle(s, cr3, p, flags);
    && Shape(s.mem, w) && (Present(e4) || AllocAddr(s.pages) !in w)
    && Shape(s3.mem, w3) && Extends(w, w3) && t3 in w3 && w3[t3] == Pdpt(o, p.l4)
    && (Present(At(s3.mem, t3, p.l3)) || AllocAddr(s3.pages) !in w3)
    && Shape(s2.mem, w2) && Extends(w3, w2) && t2 in w2 && w2[t2] == Pd(o, p.l4, p.l3)
    && (Present(At(s2.mem, t2, p.l2)) || AllocAddr(s2.pages) !in w2)
    && (!Present(e4) ==> !Present(At(s3.mem, t3, p.l3)) && t3 == AllocAddr(s.pages))
    && (!Present(At(s3.mem, t3, p.l3)) ==> !Present(At(s2.mem, t2, p.l2)) && t2 == AllocAddr(s3.pages))
  }

  /** The frames that the levels take, one after the other. */
  ghost predicate Frames(s: Machine, cr3: nat, p: Path, flags: bv12, fs: seq<nat>)
  {
    var (s3, t3) := Upper(s, cr3, p, flags);
    var (s2, t2) := Middle(s, cr3, p, flags);
    fs == if !Present(At(s.mem, cr3, p.l4)) then [AllocAddr(s.pages), AllocAddr(s3.pages), AllocAddr(s2.pages)]
          else if !Present(At(s3.mem, t3, p.l3)) then [AllocAddr(s3.pages), AllocAddr(s2.pages)]
          else if !Present(At(s2.mem, t2, p.l2)) then [AllocAddr(s2.pages)] else []
  }

  lemma Absent()
    ensures !Present(NO_ENTRY)
  {
  }

  /** The three upper levels, one after the other. */
  lemma LevelsGrow(s: Machine, w: Places, base: nat, cr3: nat, p: Path, flags: bv12)
    returns (w3: Places, w2: Places, w': Places, fs: seq<nat>)
    requires Shape(s.mem, w) && TablesHeld(s, w, base) && Root(w, cr3) && flags & PRESENT == PRESENT
    requires 0 !in Given(s.pages, Missing(s.mem, cr3, p))
    ensures var (s', t) := WithTables(s, cr3, p, flags);
            && Grew(s, w, s', w', fs, base, cr3, OwnerOf(cr3, p.l4)) && |fs| == Missing(s.mem, cr3, p)
            && t in w' && w'[t] == Pt(OwnerOf(cr3, p.l4), p.l4, p.l3, p.l2)
    ensures Stages(s, w, w3, w2, cr3, p, flags) && Frames(s, cr3, p, flags, fs)
  {
    hide Grew, Shape, Given, TablesHeld, At, Present, AllocMany, AllocAddr, AllocPages, ZeroFill, Put;
    Absent();
    var o, k, pages := OwnerOf(cr3, p.l4), Missing(s.mem, cr3, p), s.pages;
    assert forall j | 0 <= j < k :: Given(pages, k)[j] != 0;
    FirstMany(pages);
    if 0 < k {
      NextGiven(pages, 0, k);
    }
    var (s3, t3) := Upper(s, cr3, p, flags);
    var f3, f2, f1;
    w3, f3 := LevelGrows(s, w, base, cr3, p.l4, flags, cr3, o);
    GrewFacts(s, w, s3, w3, f3, base, cr3, o);
    if |f3| < k {
      NextGiven(pages, |f3|, k);
    }
    var (s2, t2) := Middle(s, cr3, p, flags);
    w2, f2 := LevelGrows(s3, w3, base, t3, p.l3, flags, cr3, o);
    GrewTwice(s, w, s3, w3, s2, w2, f3, f2, base, cr3, o);
    GrewFacts(s3, w3, s2, w2, f2, base, cr3, o);
    GrewFacts(s, w, s2, w2, f3 + f2, base, cr3, o);
    if |f3 + f2| < k {
      NextGiven(pages, |f3 + f2|, k);
    }
    w', f1 := LevelGrows(s2, w2, base, t2, p.l2, flags, cr3, o);
    fs := f3 + f2 + f1;
    GrewTwice(s, w, s2, w2, WithTable(s2, t2, p.l2, flags), w', f3 + f2, f1, base, cr3, o);
  }

  lemma FirstMany(s: seq<Page>)
    ensures AllocMany(s, 0) == s
  {
  }

  /** The tables found or made for `p` stay on its way unless they are cut off. */
  lemma OwnWay(s: Machine, w: Places, w3: Places, w2: Places, cr3: nat, p: Path, flags: bv12, fs: seq<nat>)
    requires Root(w, cr3) && flags & PRESENT == PRESENT
    requires Stages(s, w, w3, w2, cr3, p, flags) && Frames(s, cr3, p, flags, fs)
    requires forall i, j | 0 <= i < j < |fs| :: fs[i] < fs[j]
    ensures var (s', t) := WithTables(s, cr3, p, flags);
            && (Missing(s'.mem, cr3, p) == 0 <==> !OwnWayCut(s.mem, cr3, p, fs))
            && (Missing(s'.mem, cr3, p) == 0 ==> LastTable(s'.mem, cr3, p) == t)
            && (Missing(s.mem, cr3, p) == 3 ==> fs != [] && At(s'.mem, cr3, p.l4).addr == fs[0])
  {
    hide Shape, At, Present, AllocAddr, WithTable;
    var (s3, t3) := Upper(s, cr3, p, flags);
    var (s2, t2) := Middle(s, cr3, p, flags);
    LevelEntry(s, w, cr3, p.l4, flags, cr3, p.l4);
    LevelEntry(s3, w3, t3, p.l3, flags, cr3, p.l4);
    LevelEntry(s3, w3, t3, p.l3, flags, t3, p.l3);
    LevelEntry(s2, w2, t2, p.l2, flags, cr3, p.l4);
    LevelEntry(s2, w2, t2, p.l2, flags, t3, p.l3);
    LevelEntry(s2, w2, t2, p.l2, flags, t2, p.l2);
    InPlace(s, cr3, p.l4, flags);
    InPlace(s3, t3, p.l3, flags);
    var a, b, c := AllocAddr(s.pages), AllocAddr(s3.pages), AllocAddr(s2.pages);
    if !Present(At(s.mem, cr3, p.l4)) {
      assert fs == [a, b, c] && fs[1..] == [b, c] && fs[0] < fs[2];
    } else if !Present(At(s3.mem, t3, p.l3)) {
      assert fs == [b, c] && fs[1..] == [c];
    }
  }

  lemma InPlace(s: Machine, t: nat, i: Index, flags: bv12)
    ensures Present(At(s.mem, t, i)) ==> WithTable(s, t, i, flags) == s
  {
  }

  // ---------------------------------------------------------------- the map

  /** A page other than `p` is mapped by way of entry 0 of the frame at `g`. */
  ghost predicate OtherThrough(m: Memory, w: Places, g: nat, cr3: nat, p: Path)
  {
    exists r, q: Path | Root(w, r) && !(q == p && (r == cr3 || 256 <= p.l4)) ::
      Translate(m, r, q).Some? && ThroughSlotZero(m, r, q, g)
  }

  /** Of the pages other than `p` exactly the lost ones translate differently. */
  ghost predicate LosesBut(m: Memory, m': Memory, w: Places, fs: seq<nat>, cr3: nat, p: Path)
  {
    forall r, q: Path | Root(w, r) && !(q == p && (r == cr3 || 256 <= p.l4)) ::
      Translate(m', r, q) == if Lost(m, r, q, fs) then None else Translate(m, r, q)
  }

  lemma LosesButExact(m: Memory, m': Memory, w: Places, fs: seq<nat>, cr3: nat, p: Path)
    requires LosesBut(m, m', w, fs, cr3, p)
    ensures SameTranslationsBut(m, m', w, cr3, p) <==> forall f | f in fs :: !OtherThrough(m, w, f + PAGE, cr3, p)
    ensures p.l4 < 256 && Root(w, cr3) && (fs != [] ==> Translate(m, cr3, p) == None) ==>
              (SameTranslationsBut(m, m', w, cr3, p) <==> forall f | f in fs :: !SlotZeroInUse(m, w, f + PAGE))
  {
    hide Translate, ThroughSlotZero;
    if f :| f in fs && OtherThrough(m, w, f + PAGE, cr3, p) {
      var r, q: Path :| Root(w, r) && !(q == p && (r == cr3 || 256 <= p.l4)) &&
                        Translate(m, r, q).Some? && ThroughSlotZero(m, r, q, f + PAGE);
      assert Lost(m, r, q, fs);
    }
    if forall f | f in fs :: !OtherThrough(m, w, f + PAGE, cr3, p) {
      forall r, q: Path | Root(w, r) && !(q == p && (r == cr3 || 256 <= p.l4))
        ensures !Lost(m, r, q, fs)
      {
      }
    }
  }

  /** map_virtual_address_to_physical_address on any well-formed page list of which the tables
      are pages in use.  Exactly the missing tables are allocated, from the lowest free pages,
      and the tables stay a forest.  Every other page of every space translates as before, or
      to nothing if its way goes through entry 0 of the frame after a new table; so all
      translations are kept if and only if there is no such page.  The page itself translates
      to the frame unless its own way was cut like that.  Other frames keep their contents but
      for the first byte of the frames after the new tables. */
  lemma MapPageRefines(s: Machine, w: Places, base: nat, v: nat, a: nat, flags: bv12, cr3: nat)
    returns (w': Places, fs: seq<nat>)
    requires Shape(s.mem, w) && TablesHeld(s, w, base) && Root(w, cr3)
    requires v % PAGE == 0 && a % PAGE == 0 && flags & PRESENT == PRESENT
    requires 0 !in Given(s.pages, Missing(s.mem, cr3, PathOf(v)))
    ensures var s', p := MapPage(s, v, a, flags, cr3), PathOf(v);
            && fs == Given(s.pages, Missing(s.mem, cr3, p)) && s'.pages == AllocMany(s.pages, |fs|)
            && Shape(s'.mem, w') && TablesHeld(s', w', base) && Extends(w, w')
            && OnlyAdds(w, w', OwnerOf(cr3, p.l4)) && (forall b :: b in w' <==> b in w || b in fs)
            && LosesBut(s.mem, s'.mem, w, fs, cr3, p)
            && Untouched(s.mem, s'.mem, w, fs, cr3, OwnerOf(cr3, p.l4))
    ensures var s', p := MapPage(s, v, a, flags, cr3), PathOf(v);
            SameTranslationsBut(s.mem, s'.mem, w, cr3, p) <==>
              forall f | f in fs :: !OtherThrough(s.mem, w, f + PAGE, cr3, p)
    ensures var s', p := MapPage(s, v, a, flags, cr3), PathOf(v);
            p.l4 < 256 ==>
              (SameTranslationsBut(s.mem, s'.mem, w, cr3, p) <==>
                forall f | f in fs :: !SlotZeroInUse(s.mem, w, f + PAGE))
    ensures Walk(MapPage(s, v, a, flags, cr3).mem, cr3, PathOf(v)) ==
              if OwnWayCut(s.mem, cr3, PathOf(v), fs) then -1 else a
    ensures !OwnWayCut(s.mem, cr3, PathOf(v), fs) ==> LastPresent(MapPage(s, v, a, flags, cr3).mem, cr3, PathOf(v))
    ensures Missing(s.mem, cr3, PathOf(v)) == 3 ==>
              At(MapPage(s, v, a, flags, cr3).mem, cr3, PathOf(v).l4).addr == fs[0]
  {
    hide Shape, Missing, LastTable, SameBut, Walk, WithTables, Put, OwnWayCut, Stages, Frames, Loses, WaysKept,
         SlotZeroInUse, OtherThrough, Untouched, Sound, AllocMany, Given, Lost;
    var p, o := PathOf(v), OwnerOf(cr3, PathOf(v).l4);
    var (s1, t) := WithTables(s, cr3, p, flags);
    var w3, w2;
    w3, w2, w', fs := LevelsGrow(s, w, base, cr3, p, flags);
    AllocManyTook(s.pages, base, |fs|);
    OwnWay(s, w, w3, w2, cr3, p, flags, fs);
    var e := Linked(At(s1.mem, t, p.l1), a, flags);
    LastEntryWrite(s1.mem, w', cr3, p, t, e);
    var s' := MapPage(s, v, a, flags, cr3);
    assert s' == s1.(mem := Put(s1.mem, t, p.l1, e));
    WalkByWay(s'.mem, cr3, p);
    LinkedPresent(At(s1.mem, t, p.l1), a, flags);
    SameButAt(s1.mem, s'.mem, w', t, p.l1, cr3, p.l4);
    PutUntouched(s.mem, s1.mem, w, w', fs, cr3, o, t, p.l1, e);
    LosesThenWrites(s.mem, s1.mem, s'.mem, w, w', fs, cr3, p);
    LosesButExact(s.mem, s'.mem, w, fs, cr3, p);
    MissingMeansNone(s.mem, cr3, p);
  }

  /** All four entries of the page are present. */
  predicate LastPresent(m: Memory, cr3: nat, p: Path)
  {
    Missing(m, cr3, p) == 0 && Present(At(m, LastTable(m, cr3, p), p.l1))
  }

  lemma LinkedPresent(e: Entry, a: nat, flags: bv12)
    requires flags & PRESENT == PRESENT
    ensures Present(Linked(e, a, flags))
  {
  }

  lemma MissingMeansNone(m: Memory, cr3: nat, p: Path)
    ensures 0 < Missing(m, cr3, p) ==> Translate(m, cr3, p) == None
  {
  }

  lemma PutUntouched(m: Memory, m1: Memory, w: Places, w': Places, fs: seq<nat>, cr3: nat, o: Owner,
                     t: nat, i: Index, e: Entry)
    requires Untouched(m, m1, w, fs, cr3, o) && Extends(w, w') && t in w' && Owned(w'[t], cr3, o)
    requires forall b :: b in w' <==> b in w || b in fs
    ensures Untouched(m, Put(m1, t, i, e), w, fs, cr3, o)
  {
  }

  lemma LosesThenWrites(m: Memory, m1: Memory, m2: Memory, w: Places, w': Places, fs: seq<nat>, cr3: nat, p: Path)
    requires Loses(m, m1, w, fs) && Extends(w, w') && SameTranslationsBut(m1, m2, w', cr3, p)
    ensures LosesBut(m, m2, w, fs, cr3, p)
  {
    hide Translate, Lost;
  }

  // ---------------------------------------------------------------- on a list without holes

  /** When the pages in use are the first `n`, the frames after new tables are no tables and no
      data in use, so the map refines the map from pages to frames. */
  lemma MapPageDense(s: Machine, w: Places, base: nat, n: nat, v: nat, a: nat, flags: bv12, cr3: nat)
    returns (w': Places)
    requires Shape(s.mem, w) && Backed(s, w, base, n) && Root(w, cr3)
    requires v % PAGE == 0 && a % PAGE == 0 && flags & PRESENT == PRESENT
    requires n + Missing(s.mem, cr3, PathOf(v)) <= |s.pages|
    ensures var s' := MapPage(s, v, a, flags, cr3);
            && Shape(s'.mem, w') && Extends(w, w')
            && Backed(s', w', base, n + Missing(s.mem, cr3, PathOf(v)))
            && SameTranslationsBut(s.mem, s'.mem, w, cr3, PathOf(v))
            && Walk(s'.mem, cr3, PathOf(v)) == a && LastPresent(s'.mem, cr3, PathOf(v))
            && SameData(s.mem, s'.mem, w, base + PAGE * n)
            && OthersSame(s.mem, s'.mem, w, cr3, OwnerOf(cr3, PathOf(v).l4))
            && OnlyAdds(w, w', OwnerOf(cr3, PathOf(v).l4)) && AddsAbove(w, w', base + PAGE * n)
            && Took(s.pages, s'.pages, base, n, n + Missing(s.mem, cr3, PathOf(v)))
            && s'.pages == AllocMany(s.pages, Missing(s.mem, cr3, PathOf(v)))
  {
    hide Shape, Missing, Walk, PathOf, Given, AllocMany, LastPresent, LosesBut, Lost, MapPage, Took,
         SameTranslationsBut, Untouched, TablesHeld, OtherThrough, SlotZeroInUse, OwnWayCut, Sound, Dense, SameData,
         OthersSame, OnlyAdds;
    var k, p := Missing(s.mem, cr3, PathOf(v)), PathOf(v);
    DenseMany(s.pages, base, n, k);
    DenseHeld(s, w, base, n);
    var fs;
    w', fs := MapPageRefines(s, w, base, v, a, flags, cr3);
    forall f | f in fs
      ensures base + PAGE * n <= f && InList(f, base, n + k)
    {
      var i :| 0 <= i < k && fs[i] == f;
      assert f == base + PAGE * (n + i);
    }
    forall f | f in fs
      ensures f + PAGE !in w && !OtherThrough(s.mem, w, f + PAGE, cr3, p)
    {
      NotThrough(s.mem, w, f + PAGE, cr3, p);
    }
    NotCut(s.mem, w, cr3, p, fs);
    var s' := MapPage(s, v, a, flags, cr3);
    DenseBacked(s, w, base, n, s', w', fs, n + k);
    DenseUntouched(s.mem, s'.mem, w, fs, cr3, OwnerOf(cr3, p.l4), base + PAGE * n);
  }

  lemma DenseUntouched(m: Memory, m': Memory, w: Places, fs: seq<nat>, cr3: nat, o: Owner, limit: nat)
    requires Untouched(m, m', w, fs, cr3, o) && (forall f | f in fs :: limit <= f) && forall a | a in w :: a < limit
    ensures SameData(m, m', w, limit) && OthersSame(m, m', w, cr3, o)
  {
    assert forall a: nat | a < limit + PAGE :: !Follows(a, fs);
  }

  lemma EnoughLeft(s: Machine, w: Places, base: nat, n: nat, k: nat)
    requires Backed(s, w, base, n) && 0 !in Given(s.pages, k)
    ensures n + k <= |s.pages|
  {
    hide Given, AllocMany;
    if |s.pages| < n + k {
      var j := |s.pages| - n;
      DenseMany(s.pages, base, n, j);
      NextGiven(s.pages, j, k);
      FirstFreeUnique(AllocMany(s.pages, j), |s.pages|);
    }
  }

  lemma DenseHeld(s: Machine, w: Places, base: nat, n: nat)
    requires Backed(s, w, base, n)
    ensures TablesHeld(s, w, base)
  {
    forall a | a in w
      ensures Held(s.pages, a)
    {
      var i := (a - base) / PAGE;
      assert s.pages[i].addr == a && s.pages[i].inUse;
      IndexOfListed(s.pages, base, i);
    }
  }

  lemma NotThrough(m: Memory, w: Places, g: nat, cr3: nat, p: Path)
    requires Shape(m, w) && g !in w
    ensures !OtherThrough(m, w, g, cr3, p)
  {
    forall r, q: Path | Root(w, r) && Translate(m, r, q).Some?
      ensures !ThroughSlotZero(m, r, q, g)
    {
    }
  }

  lemma NotCut(m: Memory, w: Places, cr3: nat, p: Path, fs: seq<nat>)
    requires Shape(m, w) && Root(w, cr3) && forall f | f in fs :: f + PAGE !in w
    ensures !OwnWayCut(m, cr3, p, fs)
  {
    assert forall a | a in w :: !Follows(a, fs);
    assert fs != [] ==> forall a | a in w :: !Follows(a, fs[1..]);
  }

  lemma DenseBacked(s: Machine, w: Places, base: nat, n: nat, s': Machine, w': Places, fs: seq<nat>, n': nat)
    requires Backed(s, w, base, n) && Took(s.pages, s'.pages, base, n, n')
    requires (forall a :: a in w' <==> a in w || a in fs) && forall f | f in fs :: InList(f, base, n')
    ensures Backed(s', w', base, n')
  {
  }
}
