/** The pages taken at boot (sys/main.c), the kernel's first tables (sys/virt_mmgr.c,
    init_setup_virtual_memory) and the super block of the file system (sys/phys_mmgr.c,
    sys/tarfs.c), which is written over the end of the page list; the state the runs of
    `Protocol` start from. */
module Boot {
  import opened Basics
  import opened PageList
  import opened PageTables
  import opened PageFlags
  import opened TableCopy
  import opened Sharing
  import opened Fork

  const KERNEL_FLAGS: bv12 := PRESENT | WRITE

  /** A last-level table that maps 2 MiB of physical memory from `phys` on. */
  function DirectMap(phys: nat): (f: Frame)
    ensures f.Table?
  {
    Table(seq(512, (i: nat) => Entry(phys + PAGE * i, KERNEL_FLAGS, 0)))
  }

  function Pointer(a: nat): (e: Entry)
  {
    Entry(a, KERNEL_FLAGS, 0)
  }

  /** Six cleared frames become three last-level tables, which map the first 6 MiB at
      0xFFFFFFFF80000000, and the directory, pointer table and top level above them. */
  function Booted(s: Machine): (r: Machine)
  {
    var a := AllocAddr(s.pages);
    var s6 := Reserve(s, 6);
    s6.(mem := s6.mem[a := DirectMap(0x20_0000)][a + PAGE := DirectMap(0)][a + 2 * PAGE := DirectMap(0x40_0000)]
                     [a + 3 * PAGE := Table(EmptyTable().entries[1 := Pointer(a)][0 := Pointer(a + PAGE)]
                                                                [2 := Pointer(a + 2 * PAGE)])]
                     [a + 4 * PAGE := Table(EmptyTable().entries[510 := Pointer(a + 3 * PAGE)])]
                     [a + 5 * PAGE := Table(EmptyTable().entries[511 := Pointer(a + 4 * PAGE)])])
  }

  function BootPlaces(a: nat): (w: Places)
  {
    map[a := Pt(Kernel, 511, 510, 1), a + PAGE := Pt(Kernel, 511, 510, 0), a + 2 * PAGE := Pt(Kernel, 511, 510, 2),
        a + 3 * PAGE := Pd(Kernel, 511, 510), a + 4 * PAGE := Pdpt(Kernel, 511), a + 5 * PAGE := Pml4(a + 5 * PAGE)]
  }

  lemma BootShape(m: Memory, a: nat)
    requires m.Keys >= {a, a + PAGE, a + 2 * PAGE, a + 3 * PAGE, a + 4 * PAGE, a + 5 * PAGE}
    requires m[a].Table? && m[a + PAGE].Table? && m[a + 2 * PAGE].Table?
    requires m[a + 3 * PAGE] ==
               Table(EmptyTable().entries[1 := Pointer(a)][0 := Pointer(a + PAGE)][2 := Pointer(a + 2 * PAGE)])
    requires m[a + 4 * PAGE] == Table(EmptyTable().entries[510 := Pointer(a + 3 * PAGE)])
    requires m[a + 5 * PAGE] == Table(EmptyTable().entries[511 := Pointer(a + 4 * PAGE)])
    ensures Shape(m, BootPlaces(a)) && KernelSpace(m, BootPlaces(a), a + 5 * PAGE)
  {
    var w := BootPlaces(a);
    forall b, i: Index | b in w && !w[b].Pt?
      ensures At(m, b, i) != NO_ENTRY ==>
                Present(At(m, b, i)) && At(m, b, i).addr in w && w[At(m, b, i).addr] == Child(w[b], i)
      ensures Present(At(m, b, i)) ==> At(m, b, i) != NO_ENTRY
      ensures b == a + 5 * PAGE && i < 256 ==> At(m, b, i) == NO_ENTRY
    {
    }
  }

  // ---------------------------------------------------------------- what the first tables map

  /** The page of the kernel's half that has byte `x` of physical memory. */
  function DirectPath(x: nat): (p: Path)
  {
    PathOf(KERNBASE + x)
  }

  ghost predicate MapsByte(m: Memory, cr3: nat, x: nat)
  {
    && Walk(m, cr3, DirectPath(x)) == x - x % PAGE
    && forall j | 1 <= j <= 4 :: EntryAt(m, cr3, DirectPath(x), j).flags == PRESENT | WRITE
  }

  /** The first 6 MiB of physical memory are mapped from KERNBASE on, present and writable at all
      four levels and not for user programs, and nothing else is mapped. */
  ghost predicate MapsFirst(m: Memory, cr3: nat)
  {
    && (forall x: nat | x < 0x60_0000 :: MapsByte(m, cr3, x))
    && forall p: Path | (forall x: nat | x < 0x60_0000 :: DirectPath(x) != p) :: Walk(m, cr3, p) == -1
  }

  lemma DirectQuotients(x: nat)
    requires x < 0x60_0000
    ensures (KERNBASE + x) / 0x1000 == 0xF_FFFF_FFF8_0000 + x / 0x1000
    ensures (KERNBASE + x) / 0x20_0000 == 0x7FF_FFFF_FC00 + x / 0x20_0000
    ensures (KERNBASE + x) / 0x4000_0000 == 0x3_FFFF_FFFE && (KERNBASE + x) / 0x80_0000_0000 == 0x1FF_FFFF
  {
  }

  lemma DirectDigits(x: nat)
    requires x < 0x60_0000
    ensures var p := DirectPath(x);
            p.l4 == 511 && p.l3 == 510 && p.l2 < 3 && p.l2 * 0x20_0000 + p.l1 * PAGE == x - x % PAGE
  {
    DirectQuotients(x);
    var a, b := x / 0x1000, x / 0x20_0000;
    assert (0xF_FFFF_FFF8_0000 + a) % 512 == a % 512 && (0x7FF_FFFF_FC00 + b) % 512 == b;
    assert b == a / 512 && x == a * PAGE + x % PAGE;
  }

  lemma DirectBack(p: Path)
    requires p.l4 == 511 && p.l3 == 510 && p.l2 < 3
    ensures p.l2 * 0x20_0000 + p.l1 * PAGE < 0x60_0000 && DirectPath(p.l2 * 0x20_0000 + p.l1 * PAGE) == p
  {
    var x := p.l2 * 0x20_0000 + p.l1 * PAGE;
    DirectDigits(x);
    hide DirectPath;
    var q := DirectPath(x);
    assert q.l2 * 512 + q.l1 == p.l2 * 512 + p.l1;
  }

  /** What the three last-level tables map, with the directory's three entries. */
  lemma LastMaps(m: Memory, a: nat, p: Path)
    requires m.Keys >= {a, a + PAGE, a + 2 * PAGE, a + 3 * PAGE}
    requires m[a] == DirectMap(0x20_0000) && m[a + PAGE] == DirectMap(0) && m[a + 2 * PAGE] == DirectMap(0x40_0000)
    requires m[a + 3 * PAGE] ==
               Table(EmptyTable().entries[1 := Pointer(a)][0 := Pointer(a + PAGE)][2 := Pointer(a + 2 * PAGE)])
    ensures var e2 := At(m, a + 3 * PAGE, p.l2);
            if p.l2 < 3 then
              && e2.flags == PRESENT | WRITE
              && At(m, e2.addr, p.l1) == Entry(p.l2 * 0x20_0000 + p.l1 * PAGE, PRESENT | WRITE, 0)
            else e2 == NO_ENTRY
  {
  }

  lemma BootMaps(m: Memory, a: nat)
    requires m.Keys >= {a, a + PAGE, a + 2 * PAGE, a + 3 * PAGE, a + 4 * PAGE, a + 5 * PAGE}
    requires m[a] == DirectMap(0x20_0000) && m[a + PAGE] == DirectMap(0) && m[a + 2 * PAGE] == DirectMap(0x40_0000)
    requires m[a + 3 * PAGE] ==
               Table(EmptyTable().entries[1 := Pointer(a)][0 := Pointer(a + PAGE)][2 := Pointer(a + 2 * PAGE)])
    requires m[a + 4 * PAGE] == Table(EmptyTable().entries[510 := Pointer(a + 3 * PAGE)])
    requires m[a + 5 * PAGE] == Table(EmptyTable().entries[511 := Pointer(a + 4 * PAGE)])
    ensures MapsFirst(m, a + 5 * PAGE)
  {
    hide DirectMap, DirectPath, EmptyTable;
    var r := a + 5 * PAGE;
    forall x: nat | x < 0x60_0000
      ensures MapsByte(m, r, x)
    {
      DirectDigits(x);
      LastMaps(m, a, DirectPath(x));
    }
    forall p: Path | forall x: nat | x < 0x60_0000 :: DirectPath(x) != p
      ensures Walk(m, r, p) == -1
    {
      LastMaps(m, a, p);
      if p.l4 == 511 && p.l3 == 510 && p.l2 < 3 {
        DirectBack(p);
      }
    }
  }

  lemma {:induction false} ReserveDense(s: Machine, base: nat, n: nat, k: nat)
    requires Sound(s.pages, base) && Dense(s.pages, n) && n + k <= |s.pages|
    ensures Sound(Reserve(s, k).pages, base) && Dense(Reserve(s, k).pages, n + k)
    ensures |Reserve(s, k).pages| == |s.pages|
  {
    if k != 0 {
      ReserveDense(s, base, n, k - 1);
      AllocDense(Reserve(s, k - 1).pages, base, n + k - 1);
    }
  }

  // ---------------------------------------------------------------- the pages taken before

  /** The page of the super block is marked as taken, but not counted. */
  function TakeUncounted(s: Machine): (r: Machine)
  {
    var k := FirstFree(s.pages);
    if k == |s.pages| then s else s.(pages := s.pages[k := s.pages[k].(inUse := true)])
  }

  /** From the page list to the first tables: the page of the super block, that of the directory
      cache, `k` frames for the kernel's own records, and the tables. */
  function AtBoot(count: nat, base: nat, m: Memory, k: nat): (r: Machine)
  {
    Booted(Reserve(TakeUncounted(Machine(m, InitialPages(count, base))), 1 + k))
  }

  /** The number of pages reserved for the list, and so the place of the super block's page. */
  function Reserved(count: nat): (n: nat)
  {
    count * RECORD_SIZE / PAGE
  }

  lemma UncountedDense(s: Machine, base: nat, n: nat)
    requires Sound(s.pages, base) && Dense(s.pages, n) && n < |s.pages|
    ensures Sound(TakeUncounted(s).pages, base) && Dense(TakeUncounted(s).pages, n + 1)
    ensures |TakeUncounted(s).pages| == |s.pages|
  {
    FirstFreeUnique(s.pages, n);
  }

  /** The tables, wherever the list has the next six frames. */
  lemma BootedTables(s: Machine, base: nat, n: nat)
    requires Sound(s.pages, base) && Dense(s.pages, n) && n + 6 <= |s.pages| && 512 * |s.pages| < COUNT_LIMIT
    ensures var s', a := Booted(s), base + PAGE * n;
            && Inv(System(s', a + 5 * PAGE, {}), View(BootPlaces(a), base, n + 6, map[]))
            && MapsFirst(s'.mem, a + 5 * PAGE) && |s'.pages| == |s.pages|
  {
    hide Reserve, Sound, Dense, Shape, KernelSpace, AllocAddr, FirstFree, DirectMap, EmptyTable, MapsFirst;
    AllocDense(s.pages, base, n);
    ReserveDense(s, base, n, 6);
    BootShape(Booted(s).mem, base + PAGE * n);
    BootMaps(Booted(s).mem, base + PAGE * n);
  }

  /** The page list as set up at boot and the first tables make a state the invariant holds of,
      with no user space yet.  None of the tables lies over the list. */
  lemma BootKeeps(count: nat, base: nat, m: Memory, k: nat) returns (sys: System, g: View)
    requires 0 < base && base % PAGE == 0 && 512 * count < COUNT_LIMIT && Reserved(count) + k + 8 <= count
    ensures sys.machine == AtBoot(count, base, m, k) && sys.spaces == {} && Inv(sys, g)
    ensures sys.kernel == base + PAGE * (Reserved(count) + k + 7) && MapsFirst(sys.machine.mem, sys.kernel)
    ensures g.base == base && g.n == Reserved(count) + k + 8 && g.t == map[] && |sys.machine.pages| == count
    ensures forall a | a in g.w :: base + count * RECORD_SIZE <= a
  {
    hide InitialPages, Reserve, Sound, Dense, AllocAddr, FirstFree, DirectMap, EmptyTable, TakeUncounted, MapsFirst,
         BootPlaces, Inv, Reserved, Booted;
    var n := Reserved(count);
    var s0 := Machine(m, InitialPages(count, base));
    ReservedDense(count, base);
    UncountedDense(s0, base, n);
    var s1 := TakeUncounted(s0);
    ReserveDense(s1, base, n + 1, 1 + k);
    var s := Reserve(s1, 1 + k);
    var a := base + PAGE * (n + k + 2);
    sys, g := System(Booted(s), a + 5 * PAGE, {}), View(BootPlaces(a), base, n + k + 8, map[]);
    BootedTables(s, base, n + k + 2);
    ClearOfList(count, base, k);
  }

  lemma ReservedDense(count: nat, base: nat)
    requires 0 < base && base % PAGE == 0
    ensures Sound(InitialPages(count, base), base) && Dense(InitialPages(count, base), Reserved(count))
  {
    InitialListed(count, base);
  }

  lemma ClearOfList(count: nat, base: nat, k: nat)
    ensures var w := BootPlaces(base + PAGE * (Reserved(count) + k + 2));
            forall a | a in w :: base + count * RECORD_SIZE <= a
  {
    assert count * RECORD_SIZE < PAGE * (Reserved(count) + 1);
  }

  // ---------------------------------------------------------------- the super block

  /** The super block as tarfs_init fills it in: three pointers of 64 bits and a number. */
  datatype SuperBlock = SuperBlock(operations: nat, root: nat, inodes: nat, magic: nat)

  /** What a record of the list reads once two words have been written over it: the address, the
      count from the low half of the second word, and the flag from the 16 bits after. */
  function Overwritten(first: nat, second: nat): (p: Page)
  {
    Page(first, second % COUNT_LIMIT, second / COUNT_LIMIT % 0x1_0000 != 0)
  }

  /** The list once the super block has been written at the start of its page, which is the page
      after the reserved ones: its 32 bytes fall on two records if the list goes on there. */
  function Mounted(s: seq<Page>, sb: SuperBlock): (r: seq<Page>)
    ensures |r| == |s|
  {
    var i := Reserved(|s|) * (PAGE / RECORD_SIZE);
    var s1 := if i < |s| then s[i := Overwritten(sb.operations, sb.root)] else s;
    if i + 1 < |s| then s1[i + 1 := Overwritten(sb.inodes, sb.magic)] else s1
  }

  /** Where the super block's page begins in the list. */
  lemma TailOfList(count: nat)
    ensures Reserved(count) * 256 == count - count % 256
  {
  }

  /** The file system is mounted: the super block's pointers are addresses in the kernel's half.
      The state is one the invariant holds of if and only if the number of pages is a multiple
      of 256; otherwise the list has lost a record or two. */
  lemma MountExact(count: nat, base: nat, m: Memory, k: nat, sb: SuperBlock)
    requires 0 < base && base % PAGE == 0 && 512 * count < COUNT_LIMIT && Reserved(count) + k + 8 <= count
    requires base + PAGE * count <= KERNBASE <= sb.operations && KERNBASE <= sb.inodes
    ensures var s := AtBoot(count, base, m, k);
            (exists kernel, g :: Inv(System(s.(pages := Mounted(s.pages, sb)), kernel, {}), g)) <==> count % 256 == 0
  {
    hide AtBoot, Tabled;
    var s := AtBoot(count, base, m, k);
    var sys, g := BootKeeps(count, base, m, k);
    TailOfList(count);
    if count % 256 == 0 {
      assert Mounted(s.pages, sb) == s.pages;
      assert System(s.(pages := Mounted(s.pages, sb)), sys.kernel, {}) == sys;
    } else {
      BootListed(sys, g);
      forall kernel, g': View
        ensures !Inv(System(s.(pages := Mounted(s.pages, sb)), kernel, {}), g')
      {
        NotListed(s.pages, base, sb, g'.base);
        InvListed(System(s.(pages := Mounted(s.pages, sb)), kernel, {}), g');
      }
    }
  }

  lemma BootListed(sys: System, g: View)
    requires Inv(sys, g)
    ensures Listed(sys.machine.pages, g.base)
  {
  }

  lemma InvListed(sys: System, g: View)
    ensures Inv(sys, g) ==> Listed(sys.machine.pages, g.base)
  {
  }

  /** A list of which a record has been overwritten is no list of consecutive pages. */
  lemma NotListed(s: seq<Page>, base: nat, sb: SuperBlock, b: nat)
    requires Listed(s, base) && 8 <= |s| && |s| % 256 != 0 && base + PAGE * |s| <= KERNBASE <= sb.operations
    ensures !Listed(Mounted(s, sb), b)
  {
    TailOfList(|s|);
    var i := |s| - |s| % 256;
    var r := Mounted(s, sb);
    assert r[i].addr == sb.operations;
    if i == 0 {
      assert r[2] == s[2];
    } else {
      assert r[0] == s[0];
    }
  }

  /** The count of the memory that the kernel is given, from 0x31E000 to 0x5000000: the list ends
      226 records into the super block's page, and the list is damaged by every mount. */
  lemma ActualCount(m: Memory, k: nat, sb: SuperBlock)
    requires k <= 1000 && KERNBASE <= sb.operations && KERNBASE <= sb.inodes
    ensures (0x500_0000 - 0x31_E000) / PAGE == 19682 && 19682 % 256 == 226 && Reserved(19682) == 76
    ensures var s := AtBoot(19682, 0x31_E000, m, k);
            && !(exists kernel, g :: Inv(System(s.(pages := Mounted(s.pages, sb)), kernel, {}), g))
            && |s.pages| == 19682 && Mounted(s.pages, sb)[19456].addr == sb.operations
  {
    hide AtBoot, Mounted;
    var sys, g := BootKeeps(19682, 0x31_E000, m, k);
    MountExact(19682, 0x31_E000, m, k, sb);
    MountedAt(sys.machine.pages, sb);
  }

  lemma MountedAt(s: seq<Page>, sb: SuperBlock)
    requires |s| == 19682
    ensures Mounted(s, sb)[19456].addr == sb.operations
  {
  }

  /** The super block's magic number is 100, so that the second overwritten record reads as that
      of a free page.  Once the pages before are used up the allocator hands out the pointer to
      the inodes as a page. */
  lemma MountGivesPointer(s: seq<Page>, sb: SuperBlock)
    requires 2 <= |s| % 256 && KERNBASE <= sb.root < WORD_LIMIT && sb.magic == 100
    requires forall j | 0 <= j < |s| - |s| % 256 :: s[j].inUse
    ensures var r, i := Mounted(s, sb), |s| - |s| % 256;
            && r[i] == Page(sb.operations, sb.root % 0x1_0000_0000, true) && r[i + 1] == Page(sb.inodes, 100, false)
            && AllocAddr(r) == sb.inodes
  {
    TailOfList(|s|);
    MountedBefore(s, sb);
    assert sb.root / COUNT_LIMIT % 0x1_0000 == 0xFFFF;
    FirstFreeUnique(Mounted(s, sb), |s| - |s| % 256 + 1);
  }

  // ---------------------------------------------------------------- what is left

  /** The records before the super block's page are all right: with the list cut there the
      invariant holds after every mount. */
  lemma CutKeeps(count: nat, base: nat, m: Memory, k: nat, sb: SuperBlock) returns (sys: System, g: View)
    requires 0 < base && base % PAGE == 0 && 512 * count < COUNT_LIMIT
    requires Reserved(count) + k + 8 <= count - count % 256
    ensures var s := AtBoot(count, base, m, k);
            && |s.pages| == count && sys.machine == s.(pages := Mounted(s.pages, sb)[..count - count % 256])
            && sys.spaces == {} && Inv(sys, g)
  {
    hide AtBoot, Mounted, Shape, KernelSpace;
    var sys0;
    sys0, g := BootKeeps(count, base, m, k);
    var s, n := sys0.machine, count - count % 256;
    MountedBefore(s.pages, sb);
    sys := sys0.(machine := s.(pages := s.pages[..n]));
    assert Mounted(s.pages, sb)[..n] == s.pages[..n];
  }

  lemma MountedBefore(s: seq<Page>, sb: SuperBlock)
    ensures forall i | 0 <= i < |s| - |s| % 256 :: Mounted(s, sb)[i] == s[i]
  {
    TailOfList(|s|);
  }

  /** As long as one of the first `n` pages is free, an allocation on the whole list is one on the
      list cut after them. */
  lemma AllocOfCut(s: seq<Page>, n: nat)
    requires n <= |s| && FirstFree(s[..n]) < n
    ensures AllocAddr(s) == AllocAddr(s[..n]) && AllocPages(s)[..n] == AllocPages(s[..n])
    ensures AllocPages(s)[n..] == s[n..]
  {
    FirstFreeUnique(s, FirstFree(s[..n]));
  }
}
