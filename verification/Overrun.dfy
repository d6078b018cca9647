/** The byte my_memset writes past its range (sys/util.c) and what it does to the tables:
    map_virtual_address_to_physical_address clears each new table with a length of 4096,
    so the low byte of entry 0 in the following frame is cleared as well. */
module Overrun {
  import opened Basics
  import opened PageTables

  /** The way to `q` in space `r` goes through entry 0 of table `g` above the last level. */
  predicate ThroughSlotZero(m: Memory, r: nat, q: Path, g: nat)
  {
    || (r == g && q.l4 == 0)
    || (At(m, r, q.l4).addr == g && q.l3 == 0)
    || (At(m, At(m, r, q.l4).addr, q.l3).addr == g && q.l2 == 0)
  }

  /** The frame at `g` is a table above the last level with a mapped page below entry 0. */
  ghost predicate SlotZeroInUse(m: Memory, w: Places, g: nat)
  {
    exists r, q: Path | Root(w, r) :: Translate(m, r, q).Some? && ThroughSlotZero(m, r, q, g)
  }

  lemma ClearedEntries(m: Memory, w: Places, f: nat)
    requires Shape(m, w) && f !in w
    ensures var m' := ZeroFill(m, f);
            && (forall a, j: Index | a in w && (a != f + PAGE || j != 0) :: At(m', a, j) == At(m, a, j))
            && (f + PAGE in w ==> At(m', f + PAGE, 0).addr == At(m, f + PAGE, 0).addr
                                  && !Present(At(m', f + PAGE, 0)))
            && (forall a | a in w :: IsTable(m', a))
  {
  }

  /** Clearing a fresh frame for use as a table loses the page `q` of space `r` exactly
      when its way goes through entry 0 of the next frame. */
  lemma LostPage(m: Memory, w: Places, f: nat, r: nat, q: Path)
    requires Shape(m, w) && f !in w && Root(w, r)
    ensures Translate(ZeroFill(m, f), r, q) ==
              if ThroughSlotZero(m, r, q, f + PAGE) && Missing(m, r, q) == 0 then None else Translate(m, r, q)
  {
    ClearedEntries(m, w, f);
    hide ZeroFill;
  }

  /** Every translation survives the clearing of a fresh table if and only if the next
      frame is no table with a page mapped below its entry 0. */
  lemma ZeroFillExact(m: Memory, w: Places, f: nat)
    requires Shape(m, w) && f !in w
    ensures SameTranslations(m, ZeroFill(m, f), w) <==> !SlotZeroInUse(m, w, f + PAGE)
  {
    hide ZeroFill, Translate, ThroughSlotZero;
    forall r, q: Path | Root(w, r)
      ensures Translate(ZeroFill(m, f), r, q) == Translate(m, r, q) <==>
              !(Translate(m, r, q).Some? && ThroughSlotZero(m, r, q, f + PAGE))
    {
      LostPage(m, w, f, r, q);
      NotMissing(m, r, q);
    }
  }

  lemma NotMissing(m: Memory, r: nat, q: Path)
    ensures Translate(m, r, q).Some? ==> Missing(m, r, q) == 0
  {
  }

  lemma ZeroFillTable(m: Memory, f: nat)
    ensures IsTable(ZeroFill(m, f), f) && forall j: Index :: At(ZeroFill(m, f), f, j) == NO_ENTRY
  {
  }

  lemma ZeroFillShape(m: Memory, w: Places, f: nat)
    requires Shape(m, w) && f !in w
    ensures Shape(ZeroFill(m, f), w)
  {
    ClearedEntries(m, w, f);
    hide ZeroFill;
  }
}
