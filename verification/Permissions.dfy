/** What the tables allow once a page is mapped (sys/virt_mmgr.c), and so after the faults
    (sys/page_faults.c): which flags the four entries on the way to a page have. */
module Permissions {
  import opened Basics
  import opened PageList
  import opened PageTables
  import opened Mapping
  import opened PageFlags
  import opened Presence

  function Plus(f: bv12, flags: bv12): (r: bv12)
  {
    f | flags
  }

  // ---------------------------------------------------------------- one level

  /** A level of the map: an entry that is present stays as it is; one that is not gets the flags
      and leads to a new empty table. */
  ghost predicate LevelMade(m: Memory, w: Places, m': Memory, w': Places, t: nat, i: Index, flags: bv12)
  {
    && Shape(m, w) && Shape(m', w') && Extends(w, w') && t in w && !w[t].Pt? && SameBut(m, m', w, t, i)
    && var e, e' := At(m, t, i), At(m', t, i);
       && e'.addr in w' && w'[e'.addr] == Child(w[t], i)
       && (Present(e) ==> m' == m && w' == w)
       && (!Present(e) ==>
             && e'.flags == Plus(e.flags, flags) && e'.addr !in w && (forall a | a in w' :: a in w || a == e'.addr)
             && forall j: Index :: At(m', e'.addr, j) == NO_ENTRY)
  }

  lemma LevelMakes(s: Machine, w: Places, base: nat, n: nat, t: nat, i: Index, flags: bv12, cr3: nat, o: Owner)
    returns (w': Places, n': nat)
    requires Shape(s.mem, w) && Backed(s, w, base, n)
    requires t in w && !w[t].Pt? && Owned(w[t], cr3, o) && (w[t].Pml4? ==> OwnerOf(cr3, i) == o)
    requires flags & PRESENT == PRESENT && (Present(At(s.mem, t, i)) || n < |s.pages|)
    ensures var s' := WithTable(s, t, i, flags);
            && LevelMade(s.mem, w, s'.mem, w', t, i, flags) && Backed(s', w', base, n')
            && |s'.pages| == |s.pages| && n' == n + if Present(At(s.mem, t, i)) then 0 else 1
  {
    hide Shape, Sound, Dense, ZeroFill, AllocPages, AllocAddr, SameBut, At, Put, WithTable, SameSight, Linked;
    w', n' := LevelSight(s, w, base, n, t, i, flags, cr3, o);
    LevelFlags(s, w, base, n, t, i, flags);
    NoTableNeeded(s, t, i, flags);
  }

  lemma LevelFlags(s: Machine, w: Places, base: nat, n: nat, t: nat, i: Index, flags: bv12)
    requires Shape(s.mem, w) && Backed(s, w, base, n) && t in w && !w[t].Pt?
    requires Present(At(s.mem, t, i)) || n < |s.pages|
    ensures var m, m' := s.mem, WithTable(s, t, i, flags).mem;
            && SameBut(m, m', w, t, i)
            && (!Present(At(m, t, i)) ==> At(m', t, i).flags == Plus(At(m, t, i).flags, flags))
  {
    if !Present(At(s.mem, t, i)) {
      var f := AllocAddr(s.pages);
      AllocDense(s.pages, base, n);
      hide ZeroFill, WithTable, Shape, AllocAddr, Put, At;
      LevelMemory(s, w, t, i, flags);
      ZeroFillKeeps(s.mem, w, f);
      SameFrames(s.mem, ZeroFill(s.mem, f), w);
    }
  }

  lemma SameFrames(m: Memory, m': Memory, w: Places)
    requires forall a | a in w :: a in m && a in m' && m'[a] == m[a]
    ensures forall a, j: Index | a in w :: At(m', a, j) == At(m, a, j)
  {
  }

  // ---------------------------------------------------------------- the four levels

  /** The memories between the levels of a map of `p`, and the tables it goes through. */
  datatype Way = Way(m4: Memory, w4: Places, m3: Memory, w3: Places, m2: Memory, w2: Places, m1: Memory, w1: Places,
                     t3: nat, t2: nat, t1: nat)

  /** The three upper levels of a map of `p`, one after the other. */
  ghost predicate Climbs(y: Way, cr3: nat, p: Path, flags: bv12)
  {
    && Root(y.w4, cr3)
    && LevelMade(y.m4, y.w4, y.m3, y.w3, cr3, p.l4, flags) && y.t3 == At(y.m3, cr3, p.l4).addr
    && LevelMade(y.m3, y.w3, y.m2, y.w2, y.t3, p.l3, flags) && y.t2 == At(y.m2, y.t3, p.l3).addr
    && LevelMade(y.m2, y.w2, y.m1, y.w1, y.t2, p.l2, flags) && y.t1 == At(y.m1, y.t2, p.l2).addr
  }

  lemma MapClimbs(s: Machine, w: Places, base: nat, n: nat, cr3: nat, p: Path, flags: bv12) returns (y: Way)
    requires Shape(s.mem, w) && Backed(s, w, base, n) && Root(w, cr3) && flags & PRESENT == PRESENT
    requires n + Missing(s.mem, cr3, p) <= |s.pages|
    ensures Climbs(y, cr3, p, flags) && y.m4 == s.mem && y.w4 == w
    ensures WithTables(s, cr3, p, flags) == (WithTables(s, cr3, p, flags).0, y.t1)
    ensures WithTables(s, cr3, p, flags).0.mem == y.m1
  {
    hide Shape, Backed, WithTable, At, Present, LevelMade;
    Absent();
    var o := OwnerOf(cr3, p.l4);
    NoTableNeeded(s, cr3, p.l4, flags);
    var w3, n3 := LevelMakes(s, w, base, n, cr3, p.l4, flags, cr3, o);
    var (s3, t3) := Upper(s, cr3, p, flags);
    LevelFacts(s.mem, w, s3.mem, w3, cr3, p.l4, flags);
    NoTableNeeded(s3, t3, p.l3, flags);
    var w2, n2 := LevelMakes(s3, w3, base, n3, t3, p.l3, flags, cr3, o);
    var (s2, t2) := Middle(s, cr3, p, flags);
    LevelFacts(s3.mem, w3, s2.mem, w2, t3, p.l3, flags);
    var w1, n1 := LevelMakes(s2, w2, base, n2, t2, p.l2, flags, cr3, o);
    var s1 := WithTable(s2, t2, p.l2, flags);
    y := Way(s.mem, w, s3.mem, w3, s2.mem, w2, s1.mem, w1, t3, t2, At(s1.mem, t2, p.l2).addr);
  }

  lemma LevelFacts(m: Memory, w: Places, m': Memory, w': Places, t: nat, i: Index, flags: bv12)
    requires LevelMade(m, w, m', w', t, i, flags)
    ensures var e, e' := At(m, t, i), At(m', t, i);
            && Shape(m', w') && e'.addr in w' && w'[e'.addr] == Child(w[t], i)
            && (!Present(e) ==> forall j: Index :: At(m', e'.addr, j) == NO_ENTRY)
            && (Present(e) ==> m' == m)
  {
  }

  // ---------------------------------------------------------------- the flags on the way

  /** The flags that the tables have for `p` at level `k`: none if there is no table for it. */
  function FlagsAt(m: Memory, cr3: nat, p: Path, k: nat): (f: bv12)
    requires 1 <= k <= 4
  {
    if Missing(m, cr3, p) < k then EntryAt(m, cr3, p, k).flags else 0
  }

  /** The entry at level `k` is one of the upper three and was there. */
  predicate Existed(m: Memory, cr3: nat, p: Path, k: nat)
  {
    1 < k && Missing(m, cr3, p) + 1 < k
  }

  /** The flags once the page is mapped: those of the map are added where it makes an entry, and
      nowhere else. */
  function Made(m: Memory, cr3: nat, p: Path, flags: bv12, k: nat): (f: bv12)
    requires 1 <= k <= 4
  {
    if Existed(m, cr3, p, k) then FlagsAt(m, cr3, p, k) else Plus(FlagsAt(m, cr3, p, k), flags)
  }

  ghost predicate MadeWith(m: Memory, m': Memory, cr3: nat, p: Path, flags: bv12)
  {
    forall k | 1 <= k <= 4 :: EntryAt(m', cr3, p, k).flags == Made(m, cr3, p, flags, k)
  }

  /** What becomes of the entries on the way, in the order of the levels. */
  lemma ClimbEntries(y: Way, cr3: nat, p: Path, flags: bv12)
    requires Climbs(y, cr3, p, flags)
    ensures cr3 in y.w1 && y.t3 in y.w1 && y.t2 in y.w1 && y.t1 in y.w1
    ensures y.w1[cr3].Pml4? && y.w1[y.t3].Pdpt? && y.w1[y.t2].Pd?
    ensures y.w1[y.t1] == Pt(OwnerOf(cr3, p.l4), p.l4, p.l3, p.l2)
    ensures At(y.m1, cr3, p.l4) == At(y.m3, cr3, p.l4) && At(y.m1, y.t3, p.l3) == At(y.m2, y.t3, p.l3)
    ensures At(y.m1, cr3, p.l4).addr == y.t3 && At(y.m1, y.t3, p.l3).addr == y.t2 && At(y.m1, y.t2, p.l2).addr == y.t1
  {
    hide Shape, At, Present;
  }

  lemma FlagsUnfold(m: Memory, cr3: nat, p: Path)
    ensures var e4 := At(m, cr3, p.l4);
            var e3 := At(m, e4.addr, p.l3);
            var e2 := At(m, e3.addr, p.l2);
            && FlagsAt(m, cr3, p, 4) == e4.flags && (Existed(m, cr3, p, 4) <==> Present(e4))
            && FlagsAt(m, cr3, p, 3) == (if Present(e4) then e3.flags else 0)
            && (Existed(m, cr3, p, 3) <==> Present(e4) && Present(e3))
            && FlagsAt(m, cr3, p, 2) == (if Present(e4) && Present(e3) then e2.flags else 0)
            && (Existed(m, cr3, p, 2) <==> Present(e4) && Present(e3) && Present(e2))
            && FlagsAt(m, cr3, p, 1) ==
                 (if Present(e4) && Present(e3) && Present(e2) then At(m, e2.addr, p.l1).flags else 0)
            && !Existed(m, cr3, p, 1)
  {
  }

  /** What a level makes of an entry, and what is then found below. */
  lemma LevelFinds(m: Memory, w: Places, m': Memory, w': Places, t: nat, i: Index, flags: bv12, j: Index)
    requires LevelMade(m, w, m', w', t, i, flags)
    ensures var e, e' := At(m, t, i), At(m', t, i);
            && e'.flags == (if Present(e) then e.flags else Plus(e.flags, flags))
            && At(m', e'.addr, j) == (if Present(e) then At(m, e.addr, j) else NO_ENTRY)
            && (Present(e) ==> m' == m && e' == e)
  {
  }

  /** What the levels find below an entry that is there, and below one that is not. */
  lemma ClimbFinds(y: Way, cr3: nat, p: Path, flags: bv12)
    requires Climbs(y, cr3, p, flags)
    ensures At(y.m3, cr3, p.l4).flags == Made(y.m4, cr3, p, flags, 4)
    ensures At(y.m2, y.t3, p.l3).flags == Made(y.m4, cr3, p, flags, 3)
    ensures At(y.m1, y.t2, p.l2).flags == Made(y.m4, cr3, p, flags, 2)
    ensures At(y.m1, y.t1, p.l1).flags == FlagsAt(y.m4, cr3, p, 1)
  {
    hide LevelMade, At, Present, FlagsAt, Existed, Plus;
    Absent();
    FlagsUnfold(y.m4, cr3, p);
    LevelFinds(y.m4, y.w4, y.m3, y.w3, cr3, p.l4, flags, p.l3);
    LevelFinds(y.m3, y.w3, y.m2, y.w2, y.t3, p.l3, flags, p.l2);
    LevelFinds(y.m2, y.w2, y.m1, y.w1, y.t2, p.l2, flags, p.l1);
    if Existed(y.m4, cr3, p, 4) {
      assert y.m3 == y.m4;
      if Existed(y.m4, cr3, p, 3) {
        assert y.m2 == y.m4;
      }
    }
  }

  lemma WayFlags(y: Way, cr3: nat, p: Path, flags: bv12, a: nat)
    requires Climbs(y, cr3, p, flags)
    ensures var m' := Put(y.m1, y.t1, p.l1, Linked(At(y.m1, y.t1, p.l1), a, flags));
            MadeWith(y.m4, m', cr3, p, flags) && EntryAt(m', cr3, p, 1).addr == a
  {
    hide Climbs, Shape, At, Put, FlagsAt, Made, LevelMade, Present;
    ClimbEntries(y, cr3, p, flags);
    ClimbFinds(y, cr3, p, flags);
    var e := Linked(At(y.m1, y.t1, p.l1), a, flags);
    LastShape(y, cr3, p, flags);
    LastLevelPut(y.m1, y.w1, y.t1, p.l1, e);
    MadeLast(y.m4, cr3, p, flags);
  }

  lemma MadeLast(m: Memory, cr3: nat, p: Path, flags: bv12)
    ensures Made(m, cr3, p, flags, 1) == Plus(FlagsAt(m, cr3, p, 1), flags)
  {
  }

  lemma LastShape(y: Way, cr3: nat, p: Path, flags: bv12)
    requires Climbs(y, cr3, p, flags)
    ensures Shape(y.m1, y.w1)
  {
  }

  /** A map on a list without holes: which flags the entries on the way to the page have then. */
  lemma MapFlags(s: Machine, w: Places, base: nat, n: nat, v: nat, a: nat, flags: bv12, cr3: nat)
    requires Shape(s.mem, w) && Backed(s, w, base, n) && Root(w, cr3) && flags & PRESENT == PRESENT
    requires v % PAGE == 0 && a % PAGE == 0 && n + Missing(s.mem, cr3, PathOf(v)) <= |s.pages|
    ensures MadeWith(s.mem, MapPage(s, v, a, flags, cr3).mem, cr3, PathOf(v), flags)
  {
    hide Shape, Backed, WithTables, At, Put, MadeWith, Climbs, PathOf, Missing;
    var y := MapClimbs(s, w, base, n, cr3, PathOf(v), flags);
    WayFlags(y, cr3, PathOf(v), flags, a);
  }

  // ---------------------------------------------------------------- the other pages

  /** The entries for a page whose tables are all there are the same. */
  ghost predicate SameRights(m: Memory, m': Memory, r: nat, q: Path)
  {
    Missing(m', r, q) == 0 && forall k | 1 <= k <= 4 :: EntryAt(m', r, q, k) == EntryAt(m, r, q, k)
  }

  lemma LevelKeepsWay(m: Memory, w: Places, m': Memory, w': Places, t: nat, i: Index, flags: bv12, r: nat, q: Path)
    requires LevelMade(m, w, m', w', t, i, flags) && Root(w, r) && Missing(m, r, q) == 0
    ensures SameRights(m, m', r, q) && Root(w', r)
  {
    LastTablePlace(m, w, r, q);
    hide At, Present;
  }

  lemma PutKeepsWay(m: Memory, w: Places, t: nat, p: Path, e: Entry, r: nat, q: Path)
    requires Shape(m, w) && Root(w, r) && Missing(m, r, q) == 0 && t in w && w[t].Pt?
    requires LastTable(m, r, q) != t || q.l1 != p.l1
    ensures SameRights(m, Put(m, t, p.l1, e), r, q)
  {
    LastLevelPut(m, w, t, p.l1, e);
    LastTablePlace(m, w, r, q);
    hide At, Put;
  }

  /** A map changes no entry on the way to another page whose tables are there. */
  lemma MapKeepsEntries(s: Machine, w: Places, base: nat, n: nat, v: nat, a: nat, flags: bv12, cr3: nat,
                        r: nat, q: Path)
    requires Shape(s.mem, w) && Backed(s, w, base, n) && Root(w, cr3) && Root(w, r) && flags & PRESENT == PRESENT
    requires v % PAGE == 0 && a % PAGE == 0 && n + Missing(s.mem, cr3, PathOf(v)) <= |s.pages|
    requires Missing(s.mem, r, q) == 0 && !(q == PathOf(v) && (r == cr3 || 256 <= q.l4))
    ensures SameRights(s.mem, MapPage(s, v, a, flags, cr3).mem, r, q)
  {
    hide Shape, Backed, WithTables, At, Put, PathOf, Missing, LevelMade, LastTable, EntryAt;
    var p := PathOf(v);
    var y := MapClimbs(s, w, base, n, cr3, p, flags);
    LevelKeepsWay(y.m4, y.w4, y.m3, y.w3, cr3, p.l4, flags, r, q);
    LevelKeepsWay(y.m3, y.w3, y.m2, y.w2, y.t3, p.l3, flags, r, q);
    LevelKeepsWay(y.m2, y.w2, y.m1, y.w1, y.t2, p.l2, flags, r, q);
    ClimbEntries(y, cr3, p, flags);
    LastShape(y, cr3, p, flags);
    LastTablePlace(y.m1, y.w1, r, q);
    PutKeepsWay(y.m1, y.w1, y.t1, p, Linked(At(y.m1, y.t1, p.l1), a, flags), r, q);
  }

  // ---------------------------------------------------------------- every page of a space

  /** At every level the page has the flags it had, or just the given ones more. */
  ghost predicate GrewBy(m: Memory, m': Memory, r: nat, q: Path, flags: bv12)
  {
    forall k | 1 <= k <= 4 ::
      FlagsAt(m', r, q, k) == FlagsAt(m, r, q, k) || FlagsAt(m', r, q, k) == Plus(FlagsAt(m, r, q, k), flags)
  }

  lemma LevelGrewBy(m: Memory, w: Places, m': Memory, w': Places, t: nat, i: Index, flags: bv12, r: nat, q: Path)
    requires LevelMade(m, w, m', w', t, i, flags) && Root(w, r)
    ensures GrewBy(m, m', r, q, flags) && Root(w', r)
  {
    hide At, Present, FlagsAt, Plus, Existed;
    Absent();
    FlagsUnfold(m, r, q);
    FlagsUnfold(m', r, q);
  }

  lemma PutGrewBy(m: Memory, w: Places, t: nat, i: Index, a: nat, flags: bv12, r: nat, q: Path)
    requires Shape(m, w) && Root(w, r) && t in w && w[t].Pt?
    ensures GrewBy(m, Put(m, t, i, Linked(At(m, t, i), a, flags)), r, q, flags)
  {
    var e := Linked(At(m, t, i), a, flags);
    LastLevelPut(m, w, t, i, e);
    hide At, Put, Present, FlagsAt, Plus, Existed, Linked;
    assert e.flags == Plus(At(m, t, i).flags, flags) by { LinkedFlags(At(m, t, i), a, flags); }
    var m' := Put(m, t, i, e);
    FlagsUnfold(m, r, q);
    FlagsUnfold(m', r, q);
    SameWay(m, m', w, t, i, r, q);
  }

  lemma LinkedFlags(e: Entry, a: nat, flags: bv12)
    ensures Linked(e, a, flags).flags == Plus(e.flags, flags)
  {
  }

  /** Every step of a map leaves a page's flags in the set `{0, flags}` if they were. */
  ghost predicate OnlyWith(m: Memory, r: nat, q: Path, flags: bv12)
  {
    forall k | 1 <= k <= 4 :: FlagsAt(m, r, q, k) == 0 || FlagsAt(m, r, q, k) == flags
  }

  lemma OnlyWithKept(m: Memory, m': Memory, r: nat, q: Path, flags: bv12)
    requires OnlyWith(m, r, q, flags) && GrewBy(m, m', r, q, flags)
    ensures OnlyWith(m', r, q, flags)
  {
    hide FlagsAt;
  }

  lemma MapOnlyWith(s: Machine, w: Places, base: nat, n: nat, v: nat, a: nat, flags: bv12, cr3: nat, r: nat, q: Path)
    requires Shape(s.mem, w) && Backed(s, w, base, n) && Root(w, cr3) && Root(w, r) && flags & PRESENT == PRESENT
    requires v % PAGE == 0 && a % PAGE == 0 && n + Missing(s.mem, cr3, PathOf(v)) <= |s.pages|
    requires OnlyWith(s.mem, r, q, flags)
    ensures OnlyWith(MapPage(s, v, a, flags, cr3).mem, r, q, flags)
  {
    hide Shape, Backed, WithTables, At, Put, PathOf, Missing, LevelMade, OnlyWith, GrewBy;
    var p := PathOf(v);
    var y := MapClimbs(s, w, base, n, cr3, p, flags);
    LevelGrewBy(y.m4, y.w4, y.m3, y.w3, cr3, p.l4, flags, r, q);
    OnlyWithKept(y.m4, y.m3, r, q, flags);
    LevelGrewBy(y.m3, y.w3, y.m2, y.w2, y.t3, p.l3, flags, r, q);
    OnlyWithKept(y.m3, y.m2, r, q, flags);
    LevelGrewBy(y.m2, y.w2, y.m1, y.w1, y.t2, p.l2, flags, r, q);
    OnlyWithKept(y.m2, y.m1, r, q, flags);
    ClimbEntries(y, cr3, p, flags);
    LastShape(y, cr3, p, flags);
    PutGrewBy(y.m1, y.w1, y.t1, p.l1, a, flags, r, q);
    OnlyWithKept(y.m1, Put(y.m1, y.t1, p.l1, Linked(At(y.m1, y.t1, p.l1), a, flags)), r, q, flags);
  }
}
