/** Four-level page tables (sys/virt_mmgr.c) over physical memory made of page frames.

    A physical address in the kernel's direct map is written `phys | KERNBASE` in the
    source; here it is the physical address itself.  An entry is kept as its bit fields
    (module `EntryBits` shows that the source's mask expressions act on the fields). */
module PageTables {
  import opened Basics
  import opened PageList

  // ---------------------------------------------------------------- memory

  type Index = i: nat | i < 512

  const PRESENT: bv12 := 1
  const WRITE: bv12 := 2
  const USER: bv12 := 4

  /** Bits 51-12 as a byte address, bits 11-0 and bits 63-52. */
  datatype Entry = Entry(addr: nat, flags: bv12, high: bv12)

  const NO_ENTRY := Entry(0, 0, 0)

  type Entries = s: seq<Entry> | |s| == 512 witness seq(512, _ => NO_ENTRY)
  type Bytes = s: seq<bv8> | |s| == 4096 witness seq(4096, _ => 0)

  /** A frame as last written: by the table code or as plain bytes. */
  datatype Frame = Table(entries: Entries) | Data(bytes: Bytes)

  function EmptyTable(): (f: Frame)
    ensures f.Table? && forall i: Index :: f.entries[i] == NO_ENTRY
  {
    Table(seq(512, _ => NO_ENTRY))
  }

  type Memory = map<nat, Frame>

  datatype Machine = Machine(mem: Memory, pages: seq<Page>)

  datatype Option<T> = None | Some(value: T)

  predicate Present(e: Entry)
  {
    e.flags & PRESENT == PRESENT
  }

  predicate IsTable(m: Memory, a: nat)
  {
    a in m && m[a].Table?
  }

  /** Entry `i` of the table at `a`. */
  function At(m: Memory, a: nat, i: Index): (e: Entry)
  {
    if IsTable(m, a) then m[a].entries[i] else NO_ENTRY
  }

  function Put(m: Memory, a: nat, i: Index, e: Entry): (r: Memory)
  {
    if IsTable(m, a) then m[a := Table(m[a].entries[i := e])] else m
  }

  /** The one byte my_memset writes past the end of a whole frame. */
  function FirstByteCleared(f: Frame): (r: Frame)
  {
    match f
    case Table(es) => Table(es[0 := es[0].(flags := es[0].flags & 0xF00)])
    case Data(bs) => Data(bs[0 := 0])
  }

  function ClearFirstByte(m: Memory, a: nat): (r: Memory)
  {
    if a in m then m[a := FirstByteCleared(m[a])] else m
  }

  /** my_memset(frame, 0, 4096), which clears 4097 bytes. */
  function ZeroFill(m: Memory, a: nat): (r: Memory)
  {
    ClearFirstByte(m[a := EmptyTable()], a + PAGE)
  }

  // ---------------------------------------------------------------- indices

  datatype Path = Path(l4: Index, l3: Index, l2: Index, l1: Index)

  function PathOf(v: nat): (p: Path)
  {
    Path(v / 0x80_0000_0000 % 512, v / 0x4000_0000 % 512, v / 0x20_0000 % 512, v / 0x1000 % 512)
  }

  /** The address of the first byte of the page. */
  function PageStart(p: Path): (v: nat)
  {
    p.l4 * 0x80_0000_0000 + p.l3 * 0x4000_0000 + p.l2 * 0x20_0000 + p.l1 * 0x1000
  }

  lemma Digits(v: nat)
    ensures v / 0x20_0000 == v / 0x1000 / 512
    ensures v / 0x4000_0000 == v / 0x20_0000 / 512
    ensures v / 0x80_0000_0000 == v / 0x4000_0000 / 512
  {
  }

  lemma DigitsBack(p: Path)
    ensures var v := PageStart(p);
            && v / 0x80_0000_0000 == p.l4
            && v / 0x4000_0000 == p.l4 * 512 + p.l3
            && v / 0x20_0000 == (p.l4 * 512 + p.l3) * 512 + p.l2
            && v / 0x1000 == ((p.l4 * 512 + p.l3) * 512 + p.l2) * 512 + p.l1
  {
  }

  /** Pages of the 48-bit address space and index paths correspond one to one. */
  lemma PathRoundTrip(p: Path, v: nat)
    requires v < 0x1_0000_0000_0000
    ensures PathOf(PageStart(p)) == p && PageStart(p) % PAGE == 0
    ensures PageStart(PathOf(v)) == v - v % PAGE
  {
    PathBack(p);
    StartBack(v);
  }

  lemma PathBack(p: Path)
    ensures PathOf(PageStart(p)) == p && PageStart(p) % PAGE == 0
  {
    DigitsBack(p);
  }

  lemma StartBack(v: nat)
    requires v < 0x1_0000_0000_0000
    ensures PageStart(PathOf(v)) == v - v % PAGE
  {
    Digits(v);
    var a, b, c, d := v / 0x1000, v / 0x20_0000, v / 0x4000_0000, v / 0x80_0000_0000;
    Recombine(v, a, b, c, d);
  }

  lemma Recombine(v: nat, a: nat, b: nat, c: nat, d: nat)
    requires a == v / 0x1000 && b == a / 512 && c == b / 512 && d == c / 512 && d < 512
    ensures d % 512 * 0x80_0000_0000 + c % 512 * 0x4000_0000 + b % 512 * 0x20_0000 + a % 512 * 0x1000 == v - v % PAGE
  {
    assert a == b * 512 + a % 512 && b == c * 512 + b % 512 && c == d * 512 + c % 512;
  }

  // ---------------------------------------------------------------- walking

  /** walk_pml4: -1 when an upper entry is absent, otherwise the address field of the
      last entry, whose present bit is not looked at. */
  function Walk(m: Memory, cr3: nat, p: Path): (r: int)
  {
    var e4 := At(m, cr3, p.l4);
    if !Present(e4) then -1 else
    var e3 := At(m, e4.addr, p.l3);
    if !Present(e3) then -1 else
    var e2 := At(m, e3.addr, p.l2);
    if !Present(e2) then -1 else
    At(m, e2.addr, p.l1).addr
  }

  /** What a caller makes of a walk: both -1 and 0 mean that nothing is mapped. */
  function Translate(m: Memory, cr3: nat, p: Path): (r: Option<nat>)
  {
    var w := Walk(m, cr3, p);
    if w <= 0 then None else Some(w)
  }

  // ---------------------------------------------------------------- mapping

  function Linked(e: Entry, a: nat, flags: bv12): (r: Entry)
  {
    e.(addr := a, flags := e.flags | flags)
  }

  /** Makes sure that entry `i` of table `t` is present, allocating a table if not. */
  function WithTable(s: Machine, t: nat, i: Index, flags: bv12): (r: Machine)
  {
    if Present(At(s.mem, t, i)) then s
    else
      var a := AllocAddr(s.pages);
      var m := ZeroFill(s.mem, a);
      Machine(Put(m, t, i, Linked(At(m, t, i), a, flags)), AllocPages(s.pages))
  }

  /** The three upper levels of map_virtual_address_to_physical_address: the state, and the
      last-level table they lead to. */
  function WithTables(s: Machine, cr3: nat, p: Path, flags: bv12): (r: (Machine, nat))
  {
    var s3 := WithTable(s, cr3, p.l4, flags);
    var t3 := At(s3.mem, cr3, p.l4).addr;
    var s2 := WithTable(s3, t3, p.l3, flags);
    var t2 := At(s2.mem, t3, p.l3).addr;
    var s1 := WithTable(s2, t2, p.l2, flags);
    (s1, At(s1.mem, t2, p.l2).addr)
  }

  /** map_virtual_address_to_physical_address with is_reference zero */
  function MapPage(s: Machine, v: nat, a: nat, flags: bv12, cr3: nat): (r: Machine)
  {
    if v % PAGE != 0 || a % PAGE != 0 then s
    else
      var p := PathOf(v);
      var (s1, t1) := WithTables(s, cr3, p, flags);
      s1.(mem := Put(s1.mem, t1, p.l1, Linked(At(s1.mem, t1, p.l1), a, flags)))
  }

  // ---------------------------------------------------------------- the shape of the tables

  datatype Owner = Kernel | Space(cr3: nat)

  /** Where a table sits: the top of a space, or below given indices.  The upper half of
      every space belongs to the kernel and is shared. */
  datatype Place =
    | Pml4(cr3: nat)
    | Pdpt(owner: Owner, i4: Index)
    | Pd(owner: Owner, i4: Index, i3: Index)
    | Pt(owner: Owner, i4: Index, i3: Index, i2: Index)

  function OwnerOf(cr3: nat, i4: Index): (o: Owner)
  {
    if i4 < 256 then Space(cr3) else Kernel
  }

  function Child(p: Place, i: Index): (c: Place)
    requires !p.Pt?
  {
    match p
    case Pml4(cr3) => Pdpt(OwnerOf(cr3, i), i)
    case Pdpt(o, i4) => Pd(o, i4, i)
    case Pd(o, i4, i3) => Pt(o, i4, i3, i)
  }

  type Places = map<nat, Place>

  /** Every frame of `w` is a table, and a present entry above the last level leads to the
      table whose place is the child's.  As a frame has one place, no two entries at
      different places share a table: the tables form a tree below each owner. */
  ghost predicate Shape(m: Memory, w: Places)
  {
    && (forall a | a in w :: IsTable(m, a) && (w[a].Pml4? ==> w[a].cr3 == a))
    && forall a, i: Index | a in w && !w[a].Pt? && Present(At(m, a, i)) ::
         At(m, a, i).addr in w && w[At(m, a, i).addr] == Child(w[a], i)
  }

  ghost predicate Root(w: Places, cr3: nat)
  {
    cr3 in w && w[cr3] == Pml4(cr3)
  }

  /** The entries of the tables of `w` other than entry `i` of `t` are the same. */
  ghost predicate SameBut(m: Memory, m': Memory, w: Places, t: nat, i: Index)
  {
    forall a, j: Index | a in w && (a != t || j != i) :: At(m', a, j) == At(m, a, j)
  }

  /** Linking a fresh empty table below an absent entry translates no address differently. */
  lemma LinkKeepsTranslation(m: Memory, m': Memory, w: Places, t: nat, i: Index, f: nat, r: nat, q: Path)
    requires Shape(m, w) && Root(w, r)
    requires t in w && !w[t].Pt? && !Present(At(m, t, i)) && f !in w
    requires SameBut(m, m', w, t, i)
    requires At(m', t, i).addr == f
    requires forall j: Index :: At(m', f, j) == NO_ENTRY
    ensures Translate(m', r, q) == Translate(m, r, q)
  {
  }

  lemma ZeroFillKeeps(m: Memory, w: Places, f: nat)
    requires Shape(m, w) && f !in w && f + PAGE !in w
    ensures forall a | a in w :: a in ZeroFill(m, f) && ZeroFill(m, f)[a] == m[a]
    ensures ZeroFill(m, f)[f] == EmptyTable()
  {
  }

  lemma LinkKeepsShape(m: Memory, m': Memory, w: Places, t: nat, i: Index, f: nat)
    requires Shape(m, w) && t in w && !w[t].Pt? && f !in w
    requires SameBut(m, m', w, t, i) && At(m', t, i).addr == f
    requires IsTable(m', f) && forall j: Index :: At(m', f, j) == NO_ENTRY
    requires forall a | a in w :: IsTable(m', a)
    ensures Shape(m', w[f := Child(w[t], i)])
  {
  }

  // ---------------------------------------------------------------- with the page list

  ghost predicate SameTranslations(m: Memory, m': Memory, w: Places)
  {
    forall r, q: Path | Root(w, r) :: Translate(m', r, q) == Translate(m, r, q)
  }

  /** The frames below `limit` that are not tables hold what they held. */
  ghost predicate SameData(m: Memory, m': Memory, w: Places, limit: nat)
  {
    forall a | a in m && a !in w && a < limit :: a in m' && m'[a] == m[a]
  }

  ghost predicate Extends(w: Places, w': Places)
  {
    forall a | a in w :: a in w' && w'[a] == w[a]
  }

  /** One of the first `n` pages from `base`. */
  predicate InList(a: nat, base: nat, n: nat)
  {
    base <= a < base + PAGE * n && (a - base) % PAGE == 0
  }

  /** The pages in use are the first `n` of a well-formed list, and the tables are among
      them.  The frame after the next free one is then free too, or beyond the list, so
      the byte my_memset writes too far falls on no table and no data in use. */
  ghost predicate Backed(s: Machine, w: Places, base: nat, n: nat)
  {
    && Sound(s.pages, base)
    && Dense(s.pages, n)
    && forall a | a in w :: InList(a, base, n)
  }

  predicate Owned(p: Place, cr3: nat, o: Owner)
  {
    if p.Pml4? then p.cr3 == cr3 else p.owner == o
  }

  /** The tables of other spaces hold what they held. */
  ghost predicate OthersSame(m: Memory, m': Memory, w: Places, cr3: nat, o: Owner)
  {
    forall a | a in w && a in m && !Owned(w[a], cr3, o) :: a in m' && m'[a] == m[a]
  }

  /** The new tables lie below the top level of one owner. */
  ghost predicate OnlyAdds(w: Places, w': Places, o: Owner)
  {
    forall a | a in w' && a !in w :: !w'[a].Pml4? && w'[a].owner == o
  }

  ghost predicate AddsAbove(w: Places, w': Places, limit: nat)
  {
    forall a | a in w' && a !in w :: limit <= a
  }

  /** How many tables a map of `p` has to allocate. */
  function Missing(m: Memory, cr3: nat, p: Path): (k: nat)
  {
    var e4 := At(m, cr3, p.l4);
    if !Present(e4) then 3 else
    var e3 := At(m, e4.addr, p.l3);
    if !Present(e3) then 2 else
    if !Present(At(m, e3.addr, p.l2)) then 1 else 0
  }

  lemma MissingBound(m: Memory, cr3: nat, p: Path)
    ensures Missing(m, cr3, p) <= 3
  {
  }

  /** The table that holds the last entry for `p`, when the upper levels are present. */
  function LastTable(m: Memory, cr3: nat, p: Path): (t: nat)
  {
    At(m, At(m, At(m, cr3, p.l4).addr, p.l3).addr, p.l2).addr
  }

  /** Every space translates every page as before, apart from page `p` of space `cr3`.
      A page of the upper half belongs to the kernel's tables, which all spaces share. */
  ghost predicate SameTranslationsBut(m: Memory, m': Memory, w: Places, cr3: nat, p: Path)
  {
    forall r, q: Path | Root(w, r) && !(q == p && (r == cr3 || 256 <= p.l4)) ::
      Translate(m', r, q) == Translate(m, r, q)
  }

  /** The place of the last table on the way to `q`. */
  lemma LastTablePlace(m: Memory, w: Places, r: nat, q: Path)
    requires Shape(m, w) && Root(w, r) && Missing(m, r, q) == 0
    ensures LastTable(m, r, q) in w
    ensures w[LastTable(m, r, q)] == Pt(OwnerOf(r, q.l4), q.l4, q.l3, q.l2)
  {
  }

  lemma LastLevelPut(m: Memory, w: Places, t: nat, i: Index, e: Entry)
    requires Shape(m, w) && t in w && w[t].Pt?
    ensures Shape(Put(m, t, i, e), w)
    ensures SameBut(m, Put(m, t, i, e), w, t, i) && At(Put(m, t, i, e), t, i) == e
  {
    var m' := Put(m, t, i, e);
    assert SameBut(m, m', w, t, i);
    assert forall a | a in w :: IsTable(m', a);
    assert forall a, j: Index | a in w && !w[a].Pt? :: At(m', a, j) == At(m, a, j);
  }

  /** Changing one entry of a last-level table changes no way to a last-level table. */
  lemma SameWay(m: Memory, m': Memory, w: Places, t: nat, i: Index, r: nat, q: Path)
    requires Shape(m, w) && Root(w, r) && t in w && w[t].Pt? && SameBut(m, m', w, t, i)
    ensures Missing(m', r, q) == Missing(m, r, q)
    ensures Missing(m, r, q) == 0 ==> LastTable(m', r, q) == LastTable(m, r, q)
  {
  }

  lemma WalkByWay(m: Memory, r: nat, q: Path)
    ensures Walk(m, r, q) == if Missing(m, r, q) == 0 then At(m, LastTable(m, r, q), q.l1).addr else -1
  {
  }

  /** Writing entry `p.l1` of a last-level table in the place for `p` changes the translation
      of that page only, whether or not the way leads there. */
  lemma LastEntryWrite(m: Memory, w: Places, cr3: nat, p: Path, t: nat, e: Entry)
    requires Shape(m, w) && Root(w, cr3) && t in w && w[t] == Pt(OwnerOf(cr3, p.l4), p.l4, p.l3, p.l2)
    ensures var m' := Put(m, t, p.l1, e);
            && Shape(m', w)
            && SameTranslationsBut(m, m', w, cr3, p)
            && Missing(m', cr3, p) == Missing(m, cr3, p)
            && (Missing(m, cr3, p) == 0 ==> LastTable(m', cr3, p) == LastTable(m, cr3, p))
            && SameBut(m, m', w, t, p.l1) && At(m', t, p.l1) == e
  {
    hide Shape, Missing, LastTable, SameBut, Walk, Put;
    LastLevelPut(m, w, t, p.l1, e);
    var m' := Put(m, t, p.l1, e);
    SameWay(m, m', w, t, p.l1, cr3, p);
    forall r, q: Path | Root(w, r) && !(q == p && (r == cr3 || 256 <= p.l4))
      ensures Translate(m', r, q) == Translate(m, r, q)
    {
      SameWay(m, m', w, t, p.l1, r, q);
      WalkByWay(m, r, q);
      WalkByWay(m', r, q);
      if Missing(m, r, q) == 0 {
        LastTablePlace(m, w, r, q);
        SameButAt(m, m', w, t, p.l1, LastTable(m, r, q), q.l1);
      }
    }
  }

  lemma SameButAt(m: Memory, m': Memory, w: Places, t: nat, i: Index, a: nat, j: Index)
    requires SameBut(m, m', w, t, i) && a in w && (a != t || j != i)
    ensures At(m', a, j) == At(m, a, j)
  {
  }

  lemma MapBacked(s: Machine, w: Places, base: nat, n: nat, m: Memory)
    requires Backed(s, w, base, n)
    ensures Backed(s.(mem := m), w, base, n)
  {
  }
}
