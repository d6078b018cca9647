/** Flag changes (sys/virt_mmgr.c, change_flags_in_parent_page_tables) and what the
    processor makes of the tables, which unlike walk_pml4 looks at every present bit. */
module PageFlags {
  import opened PageTables

  function Flagged(e: Entry, flags: bv12): (r: Entry)
  {
    e.(flags := e.flags | flags)
  }

  function FlagEntry(m: Memory, a: nat, i: Index, flags: bv12): (r: Memory)
  {
    Put(m, a, i, Flagged(At(m, a, i), flags))
  }

  /** change_flags_in_parent_page_tables: flags are only added, level by level, as far as
      the entries are present; the last entry is changed whether present or not. */
  function ChangeFlags(m: Memory, cr3: nat, p: Path, flags: bv12): (r: Memory)
  {
    var e4 := At(m, cr3, p.l4);
    if !Present(e4) then m else
    var m4 := FlagEntry(m, cr3, p.l4, flags);
    var e3 := At(m4, e4.addr, p.l3);
    if !Present(e3) then m4 else
    var m3 := FlagEntry(m4, e4.addr, p.l3, flags);
    var e2 := At(m3, e3.addr, p.l2);
    if !Present(e2) then m3 else
    var m2 := FlagEntry(m3, e3.addr, p.l2, flags);
    FlagEntry(m2, e2.addr, p.l1, flags)
  }

  /** Only flags differ, and none was taken away. */
  predicate EntryGrew(e: Entry, e': Entry)
  {
    e' == e.(flags := e'.flags) && e.flags & e'.flags == e.flags
  }

  lemma EntryGrewFacts(e: Entry, flags: bv12)
    ensures EntryGrew(e, e) && EntryGrew(e, Flagged(e, flags))
    ensures Present(e) ==> Present(Flagged(e, flags))
  {
  }

  lemma EntryGrewTransitive(e: Entry, e1: Entry, e2: Entry)
    requires EntryGrew(e, e1) && EntryGrew(e1, e2)
    ensures EntryGrew(e, e2)
  {
  }

  /** No table entry of `w` differs except in flags that were added, and none above the
      last level became present. */
  ghost predicate OnlyFlagsAdded(m: Memory, m': Memory, w: Places)
  {
    forall a, j: Index | a in w ::
      && EntryGrew(At(m, a, j), At(m', a, j))
      && (!w[a].Pt? ==> Present(At(m', a, j)) == Present(At(m, a, j)))
  }

  /** The frames that are not tables are untouched, and no frame changes its kind. */
  ghost predicate SameKinds(m: Memory, m': Memory, w: Places)
  {
    && m'.Keys == m.Keys
    && (forall a | a in w :: IsTable(m', a))
    && (forall a | a in m && a !in w :: m'[a] == m[a])
  }

  ghost predicate FlagStep(m: Memory, m': Memory, w: Places, cr3: nat, o: Owner)
  {
    Shape(m', w) && OnlyFlagsAdded(m, m', w) && SameKinds(m, m', w) && OthersSame(m, m', w, cr3, o)
  }

  lemma FlagEntryEffect(m: Memory, w: Places, t: nat, i: Index, flags: bv12)
    requires Shape(m, w) && t in w
    ensures var m' := FlagEntry(m, t, i, flags);
            && SameBut(m, m', w, t, i) && SameKinds(m, m', w)
            && At(m', t, i) == Flagged(At(m, t, i), flags)
            && forall a | a in w && a != t :: m'[a] == m[a]
  {
    hide Flagged;
  }

  lemma FlagsKeepShape(m: Memory, m': Memory, w: Places)
    requires Shape(m, w) && OnlyFlagsAdded(m, m', w) && SameKinds(m, m', w)
    ensures Shape(m', w)
  {
    hide Present;
  }

  lemma FlagEntryStep(m: Memory, w: Places, t: nat, i: Index, flags: bv12, cr3: nat, o: Owner)
    requires Shape(m, w) && t in w && (w[t].Pt? || Present(At(m, t, i))) && Owned(w[t], cr3, o)
    ensures FlagStep(m, FlagEntry(m, t, i, flags), w, cr3, o)
    ensures SameBut(m, FlagEntry(m, t, i, flags), w, t, i)
    ensures At(FlagEntry(m, t, i, flags), t, i) == Flagged(At(m, t, i), flags)
  {
    hide FlagEntry, Flagged, Present, At, EntryGrew, Shape;
    var m' := FlagEntry(m, t, i, flags);
    FlagEntryEffect(m, w, t, i, flags);
    forall a, j: Index | a in w
      ensures EntryGrew(At(m, a, j), At(m', a, j))
      ensures !w[a].Pt? ==> Present(At(m', a, j)) == Present(At(m, a, j))
    {
      EntryGrewFacts(At(m, a, j), flags);
    }
    FlagsKeepShape(m, m', w);
  }

  lemma FlagStepTransitive(m: Memory, m1: Memory, m2: Memory, w: Places, cr3: nat, o: Owner)
    requires FlagStep(m, m1, w, cr3, o) && FlagStep(m1, m2, w, cr3, o)
    ensures FlagStep(m, m2, w, cr3, o)
  {
    hide EntryGrew, Present, At, Shape;
    forall a, j: Index | a in w
      ensures EntryGrew(At(m, a, j), At(m2, a, j))
    {
      EntryGrewTransitive(At(m, a, j), At(m1, a, j), At(m2, a, j));
    }
  }

  lemma FlagStepRefl(m: Memory, w: Places, cr3: nat, o: Owner)
    requires Shape(m, w)
    ensures FlagStep(m, m, w, cr3, o)
  {
  }

  /** A walk does not see flags added to present entries or to last entries. */
  lemma FlagsKeepWalk(m: Memory, m': Memory, w: Places, r: nat, q: Path)
    requires Shape(m, w) && OnlyFlagsAdded(m, m', w) && Root(w, r)
    ensures Walk(m', r, q) == Walk(m, r, q)
    ensures Missing(m', r, q) == Missing(m, r, q)
    ensures Missing(m, r, q) == 0 ==> LastTable(m', r, q) == LastTable(m, r, q)
  {
  }

  /** Changing flags keeps the shape, leaves every walk in every space as it was, and
      when the upper levels are present adds the flags at all four levels. */
  lemma ChangeFlagsKeeps(m: Memory, w: Places, cr3: nat, p: Path, flags: bv12)
    requires Shape(m, w) && Root(w, cr3)
    ensures FlagStep(m, ChangeFlags(m, cr3, p, flags), w, cr3, OwnerOf(cr3, p.l4))
    ensures forall r, q: Path | Root(w, r) :: Walk(ChangeFlags(m, cr3, p, flags), r, q) == Walk(m, r, q)
  {
    ChangeFlagsStep(m, w, cr3, p, flags);
    hide ChangeFlags, Walk;
    forall r, q: Path | Root(w, r)
      ensures Walk(ChangeFlags(m, cr3, p, flags), r, q) == Walk(m, r, q)
    {
      FlagsKeepWalk(m, ChangeFlags(m, cr3, p, flags), w, r, q);
    }
  }

  /** The entry for `p` at level `k`, followed whether or not the ones above are present. */
  function EntryAt(m: Memory, cr3: nat, p: Path, k: nat): (e: Entry)
    requires 1 <= k <= 4
  {
    if k == 4 then At(m, cr3, p.l4)
    else if k == 3 then At(m, At(m, cr3, p.l4).addr, p.l3)
    else if k == 2 then At(m, At(m, At(m, cr3, p.l4).addr, p.l3).addr, p.l2)
    else At(m, LastTable(m, cr3, p), p.l1)
  }

  lemma FlaggedAddr(flags: bv12)
    ensures forall e :: Flagged(e, flags).addr == e.addr
  {
  }

  lemma ChangeFlagsStep(m: Memory, w: Places, cr3: nat, p: Path, flags: bv12)
    requires Shape(m, w) && Root(w, cr3)
    ensures FlagStep(m, ChangeFlags(m, cr3, p, flags), w, cr3, OwnerOf(cr3, p.l4))
    ensures var m' := ChangeFlags(m, cr3, p, flags);
            Missing(m, cr3, p) == 0 ==> forall k | 1 <= k <= 4 ::
              EntryAt(m', cr3, p, k) == Flagged(EntryAt(m, cr3, p, k), flags)
  {
    hide FlagEntry, OthersSame, OnlyFlagsAdded, SameKinds, At, Present, Flagged;
    var o := OwnerOf(cr3, p.l4);
    FlagStepRefl(m, w, cr3, o);
    FlaggedAddr(flags);
    var e4 := At(m, cr3, p.l4);
    if Present(e4) {
      var m4 := FlagEntry(m, cr3, p.l4, flags);
      FlagEntryStep(m, w, cr3, p.l4, flags, cr3, o);
      var t3 := e4.addr;
      var e3 := At(m4, t3, p.l3);
      if Present(e3) {
        var m3 := FlagEntry(m4, t3, p.l3, flags);
        FlagEntryStep(m4, w, t3, p.l3, flags, cr3, o);
        FlagStepTransitive(m, m4, m3, w, cr3, o);
        var t2 := e3.addr;
        var e2 := At(m3, t2, p.l2);
        if Present(e2) {
          var m2 := FlagEntry(m3, t2, p.l2, flags);
          FlagEntryStep(m3, w, t2, p.l2, flags, cr3, o);
          FlagStepTransitive(m, m3, m2, w, cr3, o);
          var t1 := e2.addr;
          FlagEntryStep(m2, w, t1, p.l1, flags, cr3, o);
          FlagStepTransitive(m, m2, FlagEntry(m2, t1, p.l1, flags), w, cr3, o);
        }
      }
    }
  }

  lemma FlaggedTwice(e: Entry, flags: bv12)
    ensures Flagged(Flagged(e, flags), flags) == Flagged(e, flags)
  {
  }

  lemma FlagEntryAdds(m: Memory, t: nat, i: Index, flags: bv12, a: nat, j: Index)
    ensures var e, e' := At(m, a, j), At(FlagEntry(m, t, i, flags), a, j); e' == e || e' == Flagged(e, flags)
  {
    hide Flagged;
  }

  /** A flag change either leaves an entry alone or adds just the given flags to it. */
  lemma ChangeFlagsAdds(m: Memory, cr3: nat, p: Path, flags: bv12, a: nat, j: Index)
    ensures var e, e' := At(m, a, j), At(ChangeFlags(m, cr3, p, flags), a, j); e' == e || e' == Flagged(e, flags)
  {
    hide FlagEntry, At, Present, Flagged;
    FlaggedTwice(At(m, a, j), flags);
    var t3 := At(m, cr3, p.l4).addr;
    var m4 := FlagEntry(m, cr3, p.l4, flags);
    var t2 := At(m4, t3, p.l3).addr;
    var m3 := FlagEntry(m4, t3, p.l3, flags);
    var t1 := At(m3, t2, p.l2).addr;
    var m2 := FlagEntry(m3, t2, p.l2, flags);
    FlagEntryAdds(m, cr3, p.l4, flags, a, j);
    FlagEntryAdds(m4, t3, p.l3, flags, a, j);
    FlagEntryAdds(m3, t2, p.l2, flags, a, j);
    FlagEntryAdds(m2, t1, p.l1, flags, a, j);
  }

  // ---------------------------------------------------------------- what the processor sees

  /** The translation the processor makes: all four entries have to be present. */
  function Hardware(m: Memory, cr3: nat, p: Path): (r: Option<nat>)
  {
    if Missing(m, cr3, p) == 0 && Present(EntryAt(m, cr3, p, 1))
    then Some(EntryAt(m, cr3, p, 1).addr)
    else None
  }

  /** A user-mode store succeeds: every level allows it. */
  predicate CanWrite(m: Memory, cr3: nat, p: Path)
  {
    forall k | 1 <= k <= 4 :: Writable(EntryAt(m, cr3, p, k))
  }

  predicate Writable(e: Entry)
  {
    e.flags & (PRESENT | WRITE | USER) == PRESENT | WRITE | USER
  }

  /** A flag change that adds the present bit leaves the processor's translation of the
      page alone exactly when an upper level is absent or the last entry was present.
      Otherwise the page becomes visible with whatever address the entry holds, which is
      frame 0 for a page that was never mapped. */
  lemma ChangeFlagsExposes(m: Memory, w: Places, cr3: nat, p: Path, flags: bv12)
    requires Shape(m, w) && Root(w, cr3) && flags & PRESENT == PRESENT
    ensures var m' := ChangeFlags(m, cr3, p, flags);
            && (Hardware(m', cr3, p) == Hardware(m, cr3, p) <==>
                Missing(m, cr3, p) != 0 || Present(EntryAt(m, cr3, p, 1)))
            && (Missing(m, cr3, p) == 0 ==> Hardware(m', cr3, p) == Some(Walk(m, cr3, p)))
  {
    ChangeFlagsStep(m, w, cr3, p, flags);
    hide ChangeFlags;
    FlagsKeepWalk(m, ChangeFlags(m, cr3, p, flags), w, cr3, p);
    WalkByWay(m, cr3, p);
  }

  /** Adding all three flags makes the page writable exactly when its tables are there. */
  lemma ChangeFlagsGrantsWrite(m: Memory, w: Places, cr3: nat, p: Path)
    requires Shape(m, w) && Root(w, cr3)
    ensures CanWrite(ChangeFlags(m, cr3, p, PRESENT | WRITE | USER), cr3, p) <==> Missing(m, cr3, p) == 0
  {
    var m' := ChangeFlags(m, cr3, p, PRESENT | WRITE | USER);
    ChangeFlagsStep(m, w, cr3, p, PRESENT | WRITE | USER);
    FlagsKeepWalk(m, m', w, cr3, p);
    hide ChangeFlags;
    if CanWrite(m', cr3, p) {
      assert Writable(EntryAt(m', cr3, p, 4)) && Writable(EntryAt(m', cr3, p, 3)) && Writable(EntryAt(m', cr3, p, 2));
    }
  }
}
