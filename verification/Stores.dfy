/** Stores and loads of user programs through the page tables: a store changes a byte of the
    frame its page is mapped to, so it shows in every page that shares the frame. */
module Stores {
  import opened Basics
  import opened PageList
  import opened PageTables
  import opened PageFlags
  import opened TableCopy
  import opened Leaves
  import opened Sharing

  /** A store of one byte at address `v`. */
  function StoreByte(m: Memory, cr3: nat, v: nat, b: bv8): (r: Memory)
  {
    var f := EntryAt(m, cr3, PathOf(v), 1).addr;
    if f in m && m[f].Data? then m[f := Data(m[f].bytes[v % PAGE := b])] else m
  }

  /** What a load at address `v` reads. */
  function LoadByte(m: Memory, cr3: nat, v: nat): (r: Option<bv8>)
  {
    var t := Translate(m, cr3, PathOf(v));
    if t.Some? && t.value in m && m[t.value].Data? then Some(m[t.value].bytes[v % PAGE]) else None
  }

  /** The frame after a store that may or may not hit it. */
  function Stored(was: Frame, hit: bool, v: nat, b: bv8): (r: Frame)
  {
    if hit && was.Data? then Data(was.bytes[v % PAGE := b]) else was
  }

  lemma WritableWay(m: Memory, cr3: nat, p: Path)
    requires CanWrite(m, cr3, p)
    ensures Missing(m, cr3, p) == 0 && EntryAt(m, cr3, p, 1).addr == Walk(m, cr3, p)
  {
    assert Writable(EntryAt(m, cr3, p, 4)) && Writable(EntryAt(m, cr3, p, 3)) && Writable(EntryAt(m, cr3, p, 2));
  }

  /** A store keeps tables, mappings and counts; of the mapped frames only the one its page is
      mapped to changes, in that byte. */
  lemma StoreKeeps(sys: System, g: View, cr3: nat, v: nat, b: bv8)
    requires Inv(sys, g) && cr3 in sys.spaces && UserPage(PathOf(v)) && CanWrite(sys.machine.mem, cr3, PathOf(v))
    ensures var m, m' := sys.machine.mem, StoreByte(sys.machine.mem, cr3, v, b);
            && Inv(sys.(machine := sys.machine.(mem := m')), g) && SameTranslations(m, m', g.w)
            && forall k | k in g.t ::
                 && g.t[k] in m && g.t[k] in m'
                 && m'[g.t[k]] == Stored(m[g.t[k]], Translate(m, cr3, PathOf(v)) == Some(g.t[k]), v, b)
  {
    hide Shape, KernelSpace, Backed, PageAt, Sharers, EntryAt, PathOf, CanWrite, Missing;
    var m, m' := sys.machine.mem, StoreByte(sys.machine.mem, cr3, v, b);
    var f := EntryAt(m, cr3, PathOf(v), 1).addr;
    WritableWay(m, cr3, PathOf(v));
    assert Translate(m, cr3, PathOf(v)) == Lookup(g.t, cr3, PathOf(v));
    NotATable(sys, g, cr3, PathOf(v), f);
    if f in m && m[f].Data? {
      DataTabled(sys, g, f, Data(m[f].bytes[v % PAGE := b]));
      DataTranslations(sys, g, f, Data(m[f].bytes[v % PAGE := b]));
    }
    forall k | k in g.t
      ensures g.t[k] in m && g.t[k] in m' && Counted(sys.machine.(mem := m'), g, g.t[k])
      ensures m'[g.t[k]] == Stored(m[g.t[k]], Translate(m, cr3, PathOf(v)) == Some(g.t[k]), v, b)
    {
      assert Counted(sys.machine, g, g.t[k]);
      FramePositive(sys, g, g.t[k]);
    }
  }

  lemma DataTranslations(sys: System, g: View, f: nat, data: Frame)
    requires Tabled(sys, g) && f !in g.w
    ensures SameTranslations(sys.machine.mem, sys.machine.mem[f := data], g.w)
  {
    hide Shape, KernelSpace, Backed, Walk;
    DataWrite(sys.machine.mem, g.w, sys.kernel, f, data);
  }

  lemma FramePositive(sys: System, g: View, f: nat)
    requires Tabled(sys, g) && InList(f, g.base, g.n)
    ensures 0 < f
  {
  }

  lemma NotATable(sys: System, g: View, cr3: nat, p: Path, f: nat)
    requires Inv(sys, g) && f == if (cr3, p) in g.t then g.t[(cr3, p)] else 0
    ensures f !in g.w
  {
    hide Shape, KernelSpace, IsLeafMap, PageAt, Sharers;
    if (cr3, p) in g.t {
      assert Counted(sys.machine, g, g.t[(cr3, p)]);
    }
  }

  /** A store in one space changes what a load in the same or another space reads if and only if
      both pages are mapped to one frame, the addresses have the same place in it, and the byte
      is not there already. */
  lemma StoreSeen(sys: System, g: View, cr3: nat, v: nat, b: bv8, r: nat, u: nat)
    requires Inv(sys, g) && cr3 in sys.spaces && UserPage(PathOf(v)) && CanWrite(sys.machine.mem, cr3, PathOf(v))
    requires r in sys.spaces && UserPage(PathOf(u))
    ensures var m, m' := sys.machine.mem, StoreByte(sys.machine.mem, cr3, v, b);
            LoadByte(m', r, u) != LoadByte(m, r, u) <==>
              && Translate(m, r, PathOf(u)).Some? && Translate(m, r, PathOf(u)) == Translate(m, cr3, PathOf(v))
              && u % PAGE == v % PAGE && LoadByte(m, cr3, v) != Some(b)
    ensures var m, m' := sys.machine.mem, StoreByte(sys.machine.mem, cr3, v, b);
            (Translate(m, r, PathOf(u)).Some? && Translate(m, r, PathOf(u)) == Translate(m, cr3, PathOf(v)) &&
             u % PAGE == v % PAGE) ==> LoadByte(m', r, u) == Some(b)
  {
    hide Tabled, PageAt, Sharers, PathOf, CanWrite, StoreByte, Translate, InList;
    var m, m' := sys.machine.mem, StoreByte(sys.machine.mem, cr3, v, b);
    StoreKeeps(sys, g, cr3, v, b);
    MappedToData(sys, g, r, PathOf(u));
    MappedToData(sys, g, cr3, PathOf(v));
    MappedToData(sys.(machine := sys.machine.(mem := m')), g, r, PathOf(u));
  }

  /** What is mapped, and that it is mapped to plain data. */
  lemma MappedToData(sys: System, g: View, r: nat, q: Path)
    requires Inv(sys, g) && r in sys.spaces && UserPage(q)
    ensures Translate(sys.machine.mem, r, q) == Lookup(g.t, r, q)
    ensures (r, q) in g.t ==> g.t[(r, q)] in sys.machine.mem && sys.machine.mem[g.t[(r, q)]].Data?
  {
    hide Shape, KernelSpace, Backed, PageAt, Sharers, Translate;
    if (r, q) in g.t {
      assert Counted(sys.machine, g, g.t[(r, q)]);
    }
  }
}
