/** copy_page_tables (sys/virt_mmgr.c): a recursive copy of the kernel's tables.  Only the
    copy of the top level is returned; the copies made below it are never linked in. */
module TableCopy {
  import opened PageList
  import opened PageTables
  import opened Mapping

  /** The frame as a table about to be filled word by word. */
  function AsTable(m: Memory, f: nat): (r: Memory)
    ensures IsTable(r, f) && r.Keys == m.Keys + {f}
    ensures forall a | a in m && a != f :: r[a] == m[a]
  {
    if IsTable(m, f) then m else m[f := EmptyTable()]
  }

  function CopyTables(s: Machine, a: nat, level: nat): (r: Machine)
    decreases level, 513, 0
  {
    var f := AllocAddr(s.pages);
    CopyEntries(Machine(AsTable(s.mem, f), AllocPages(s.pages)), f, a, level, 0)
  }

  /** Entries from `i` on. */
  function CopyEntries(s: Machine, f: nat, a: nat, level: nat, i: nat): (r: Machine)
    requires i <= 512
    decreases level, 512 - i, 1
  {
    if i == 512 then s else CopyEntries(CopyEntry(s, f, a, level, i), f, a, level, i + 1)
  }

  /** Entry `i`; below a non-zero entry above the last level the table is copied too. */
  function CopyEntry(s: Machine, f: nat, a: nat, level: nat, i: Index): (r: Machine)
    decreases level, 512 - i, 0
  {
    var e := At(s.mem, a, i);
    var s1 := s.(mem := Put(s.mem, f, i, e));
    if 1 < level && e != NO_ENTRY then CopyTables(s1, e.addr, level - 1) else s1
  }

  /** The number of tables from `a` down. */
  function Nodes(m: Memory, a: nat, level: nat): (k: nat)
    ensures 1 <= k
    decreases level, 513
  {
    1 + NodesFrom(m, a, level, 0)
  }

  function NodesFrom(m: Memory, a: nat, level: nat, i: nat): (k: nat)
    requires i <= 512
    decreases level, 512 - i
  {
    if i == 512 then 0
    else
      (if 1 < level && At(m, a, i) != NO_ENTRY then Nodes(m, At(m, a, i).addr, level - 1) else 0)
      + NodesFrom(m, a, level, i + 1)
  }

  /** The tables from `a` down are tables and in use in `pages`. */
  ghost predicate Tree(m: Memory, a: nat, level: nat, pages: seq<Page>)
    decreases level
  {
    && IsTable(m, a) && Held(pages, a)
    && (1 < level ==> forall i: Index | At(m, a, i) != NO_ENTRY :: Tree(m, At(m, a, i).addr, level - 1, pages))
  }

  /** Frames other than `fs` hold what they held. */
  ghost predicate SameExcept(m: Memory, m': Memory, fs: seq<nat>)
  {
    forall x | x in m && x !in fs :: x in m' && m'[x] == m[x]
  }

  ghost predicate SameHeld(m: Memory, m': Memory, pages: seq<Page>)
  {
    forall x | x in m && Held(pages, x) :: x in m' && m'[x] == m[x]
  }

  lemma {:induction false} SameNodes(m: Memory, m': Memory, a: nat, level: nat, pages: seq<Page>)
    requires SameHeld(m, m', pages) && Tree(m, a, level, pages)
    ensures Tree(m', a, level, pages) && Nodes(m', a, level) == Nodes(m, a, level)
    decreases level, 513
  {
    hide Held;
    assert m'[a] == m[a];
    assert forall i: Index :: At(m', a, i) == At(m, a, i);
    SameNodesFrom(m, m', a, level, pages, 0);
    if 1 < level {
      forall i: Index | At(m', a, i) != NO_ENTRY
        ensures Tree(m', At(m', a, i).addr, level - 1, pages)
      {
        SameNodes(m, m', At(m, a, i).addr, level - 1, pages);
      }
    }
  }

  lemma {:induction false} SameNodesFrom(m: Memory, m': Memory, a: nat, level: nat, pages: seq<Page>, i: nat)
    requires SameHeld(m, m', pages) && Tree(m, a, level, pages) && i <= 512
    ensures NodesFrom(m', a, level, i) == NodesFrom(m, a, level, i)
    decreases level, 512 - i
  {
    hide Held;
    assert m'[a] == m[a];
    if i < 512 {
      SameNodesFrom(m, m', a, level, pages, i + 1);
      if 1 < level && At(m, a, i) != NO_ENTRY {
        SameNodes(m, m', At(m, a, i).addr, level - 1, pages);
      }
    }
  }

  lemma PutInCopy(m: Memory, f: nat, i: Index, e: Entry)
    requires IsTable(m, f)
    ensures var m' := Put(m, f, i, e);
            && IsTable(m', f) && At(m', f, i) == e && SameExcept(m, m', [f])
            && forall j: Index | j != i :: At(m', f, j) == At(m, f, j)
  {
    assert f in [f];
  }

  ghost predicate CopiedUpTo(m: Memory, f: nat, a: nat, i: nat)
  {
    IsTable(m, f) && forall j: Index | j < i :: At(m, f, j) == At(m, a, j)
  }

  ghost predicate StillHeld(pages: seq<Page>, pages': seq<Page>)
  {
    forall x | Held(pages, x) :: Held(pages', x)
  }

  /** The part of the state the copy of table `a` into `f` relies on: the tables to be copied
      were in use at some time before `f` was handed out. */
  ghost predicate Copying(s: Machine, pages: seq<Page>, base: nat, f: nat, a: nat, level: nat)
  {
    && Sound(s.pages, base) && StillHeld(pages, s.pages)
    && Tree(s.mem, a, level, pages) && !Held(pages, f) && Held(s.pages, f) && IsTable(s.mem, f)
  }

  /** The frames a copy of entry `i` takes. */
  function NodesAt(m: Memory, a: nat, level: nat, i: Index): (k: nat)
  {
    if 1 < level && At(m, a, i) != NO_ENTRY then Nodes(m, At(m, a, i).addr, level - 1) else 0
  }

  /** Only `f` and the next `k` frames are written, and the list is `k` allocations on. */
  ghost predicate Wrote(s: Machine, s': Machine, f: nat, k: nat)
  {
    s'.pages == AllocMany(s.pages, k) && SameExcept(s.mem, s'.mem, [f] + Given(s.pages, k))
  }

  /** The frames that allocations return were not in use before, and pages stay in use. */
  lemma GivenApart(s: seq<Page>, base: nat, pages: seq<Page>, k: nat)
    requires Sound(s, base) && StillHeld(pages, s) && 0 !in Given(s, k)
    ensures Sound(AllocMany(s, k), base) && StillHeld(pages, AllocMany(s, k))
    ensures forall x | Held(s, x) :: x !in Given(s, k) && Held(AllocMany(s, k), x)
  {
    AllocManyTook(s, base, k);
    hide Held, PageAt;
  }

  lemma WroteKeeps(s: Machine, s': Machine, base: nat, pages: seq<Page>, f: nat, k: nat)
    requires Sound(s.pages, base) && StillHeld(pages, s.pages) && 0 !in Given(s.pages, k) && Wrote(s, s', f, k)
    requires !Held(pages, f)
    ensures Sound(s'.pages, base) && StillHeld(pages, s'.pages) && SameHeld(s.mem, s'.mem, pages)
  {
    hide Held, Given, AllocMany;
    GivenApart(s.pages, base, pages, k);
  }

  lemma WroteTwice(s: Machine, s1: Machine, s2: Machine, f: nat, k: nat, k': nat)
    requires Wrote(s, s1, f, k) && Wrote(s1, s2, f, k')
    ensures Wrote(s, s2, f, k + k')
  {
    hide AllocMany;
    GivenSplit(s.pages, k, k');
    hide Given;
  }

  lemma {:induction false} CopyEntryKeeps(s: Machine, pages: seq<Page>, base: nat, f: nat, a: nat, level: nat, i: Index)
    requires Copying(s, pages, base, f, a, level) && CopiedUpTo(s.mem, f, a, i)
    requires 0 !in Given(s.pages, NodesAt(s.mem, a, level, i))
    ensures var s' := CopyEntry(s, f, a, level, i);
            Wrote(s, s', f, NodesAt(s.mem, a, level, i)) && CopiedUpTo(s'.mem, f, a, i + 1)
    decreases level, 512 - i, 0
  {
    hide Tree, Put, Sound, CopyTables, Nodes, At, CopiedUpTo, SameHeld, Held, Given, AllocMany;
    var e := At(s.mem, a, i);
    var s1 := s.(mem := Put(s.mem, f, i, e));
    PutInCopy(s.mem, f, i, e);
    TreeIsTable(s.mem, a, level, pages);
    CopiedOneMore(s.mem, s1.mem, f, a, i);
    FirstMany(s.pages);
    assert Wrote(s, s1, f, 0) by { NoneGiven(s.pages, f); }
    if 1 < level && e != NO_ENTRY {
      TreeChild(s.mem, a, level, i, pages);
      NoneGiven(s.pages, f);
      WroteKeeps(s, s1, base, pages, f, 0);
      SameNodes(s.mem, s1.mem, e.addr, level - 1, pages);
      CopyTablesKeeps(s1, pages, base, e.addr, level - 1);
      var s2, k := CopyTables(s1, e.addr, level - 1), Nodes(s.mem, e.addr, level - 1);
      GivenApart(s1.pages, base, pages, k);
      CopiedStill(s1.mem, s2.mem, f, a, i + 1, Given(s1.pages, k));
      assert Wrote(s1, s2, f, k);
      WroteTwice(s, s1, s2, f, 0, k);
    }
  }

  lemma NoneGiven(s: seq<Page>, f: nat)
    ensures Given(s, 0) == [] && [f] + Given(s, 0) == [f] && AllocMany(s, 0) == s
  {
  }

  lemma TreeChild(m: Memory, a: nat, level: nat, i: Index, pages: seq<Page>)
    requires Tree(m, a, level, pages) && 1 < level && At(m, a, i) != NO_ENTRY
    ensures Tree(m, At(m, a, i).addr, level - 1, pages)
  {
  }

  lemma TreeIsTable(m: Memory, a: nat, level: nat, pages: seq<Page>)
    requires Tree(m, a, level, pages)
    ensures IsTable(m, a) && Held(pages, a)
  {
  }

  lemma CopiedOneMore(m: Memory, m': Memory, f: nat, a: nat, i: Index)
    requires CopiedUpTo(m, f, a, i) && SameExcept(m, m', [f]) && IsTable(m, a) && a != f
    requires IsTable(m', f) && At(m', f, i) == At(m, a, i)
    requires forall j: Index | j != i :: At(m', f, j) == At(m, f, j)
    ensures CopiedUpTo(m', f, a, i + 1)
  {
    assert a !in [f];
    assert forall j: Index :: At(m', a, j) == At(m, a, j);
  }

  lemma CopiedStill(m: Memory, m': Memory, f: nat, a: nat, i: nat, fs: seq<nat>)
    requires CopiedUpTo(m, f, a, i) && SameExcept(m, m', fs) && IsTable(m, a) && a !in fs && f !in fs
    ensures CopiedUpTo(m', f, a, i)
  {
    assert m'[a] == m[a] && m'[f] == m[f];
    assert forall j: Index :: At(m', a, j) == At(m, a, j) && At(m', f, j) == At(m, f, j);
  }

  lemma {:induction false} CopyEntriesKeeps(s: Machine, pages: seq<Page>, base: nat, f: nat, a: nat, level: nat, i: nat)
    requires Copying(s, pages, base, f, a, level) && i <= 512 && CopiedUpTo(s.mem, f, a, i)
    requires 0 !in Given(s.pages, NodesFrom(s.mem, a, level, i))
    ensures var s' := CopyEntries(s, f, a, level, i);
            Wrote(s, s', f, NodesFrom(s.mem, a, level, i)) && CopiedUpTo(s'.mem, f, a, 512)
    decreases level, 512 - i, 1
  {
    hide Tree, Nodes, CopyEntry, Sound, Held, Given, AllocMany;
    NoneGiven(s.pages, f);
    if i < 512 {
      var k, k' := NodesAt(s.mem, a, level, i), NodesFrom(s.mem, a, level, i + 1);
      GivenSplit(s.pages, k, k');
      CopyEntryKeeps(s, pages, base, f, a, level, i);
      var s1 := CopyEntry(s, f, a, level, i);
      WroteKeeps(s, s1, base, pages, f, k);
      GivenApart(s.pages, base, pages, k);
      SameNodes(s.mem, s1.mem, a, level, pages);
      SameNodesFrom(s.mem, s1.mem, a, level, pages, i + 1);
      CopyEntriesKeeps(s1, pages, base, f, a, level, i + 1);
      WroteTwice(s, s1, CopyEntries(s, f, a, level, i), f, k, k');
    }
  }

  /** The copy of a tree of tables that are in use takes one frame per table, from the lowest
      free pages; no other frame is written, and the first one becomes a copy of the root. */
  lemma {:induction false} CopyTablesKeeps(s: Machine, pages: seq<Page>, base: nat, a: nat, level: nat)
    requires Sound(s.pages, base) && StillHeld(pages, s.pages) && Tree(s.mem, a, level, pages)
    requires 0 !in Given(s.pages, Nodes(s.mem, a, level))
    ensures var s', f, k := CopyTables(s, a, level), AllocAddr(s.pages), Nodes(s.mem, a, level);
            && s'.pages == AllocMany(s.pages, k)
            && IsTable(s'.mem, f) && s'.mem[f] == s.mem[a]
            && SameExcept(s.mem, s'.mem, Given(s.pages, k))
    decreases level, 513, 0
  {
    hide Tree, Sound, CopyEntries, AllocPages, AllocAddr, AsTable, At, CopiedUpTo, NodesFrom, IsTable, Held, Given,
         AllocMany;
    var k, f := Nodes(s.mem, a, level), AllocAddr(s.pages);
    var s1 := Machine(AsTable(s.mem, f), AllocPages(s.pages));
    GivenSplit(s.pages, 1, k - 1);
    FirstGiven(s.pages);
    GivenApart(s.pages, base, pages, 1);
    AllocTookOne(s.pages, base);
    GivenThenHeld(s.pages, base, 1);
    TreeIsTable(s.mem, a, level, pages);
    assert SameExcept(s.mem, s1.mem, [f]);
    assert SameHeld(s.mem, s1.mem, pages);
    SameNodes(s.mem, s1.mem, a, level, pages);
    CopiedNone(s1.mem, f, a);
    CopyEntriesKeeps(s1, pages, base, f, a, level, 0);
    var s' := CopyTables(s, a, level);
    GivenApart(s1.pages, base, pages, k - 1);
    assert a !in [f] + Given(s1.pages, k - 1);
    CopiedAll(s1.mem, s'.mem, f, a, [f] + Given(s1.pages, k - 1));
  }

  lemma CopiedNone(m: Memory, f: nat, a: nat)
    requires IsTable(m, f)
    ensures CopiedUpTo(m, f, a, 0)
  {
  }

  lemma CopiedAll(m: Memory, m': Memory, f: nat, a: nat, fs: seq<nat>)
    requires CopiedUpTo(m', f, a, 512) && IsTable(m, a) && SameExcept(m, m', fs) && a !in fs
    ensures IsTable(m', f) && m'[f] == m[a]
  {
    assert forall j: Index :: m'[f].entries[j] == At(m', f, j) == At(m', a, j);
    assert m'[f].entries == m'[a].entries;
  }

  // ---------------------------------------------------------------- a new address space

  predicate KernelOwned(p: Place, k: nat)
  {
    if p.Pml4? then p.cr3 == k else p.owner == Kernel
  }

  /** The kernel's own tables: nothing in the lower half, and above the last level an entry
      is either zero or present. */
  ghost predicate KernelSpace(m: Memory, w: Places, k: nat)
  {
    && Root(w, k)
    && (forall i: Index | i < 256 :: At(m, k, i) == NO_ENTRY)
    && (forall a, i: Index | a in w && KernelOwned(w[a], k) && !w[a].Pt? && At(m, a, i) != NO_ENTRY ::
          Present(At(m, a, i)))
  }

  function Level(p: Place): (l: nat)
  {
    match p
    case Pml4(_) => 4
    case Pdpt(_, _) => 3
    case Pd(_, _, _) => 2
    case Pt(_, _, _, _) => 1
  }

  lemma {:induction false} KernelTree(m: Memory, w: Places, k: nat, a: nat, pages: seq<Page>)
    requires Shape(m, w) && KernelSpace(m, w, k) && a in w && KernelOwned(w[a], k)
    requires forall x | x in w :: Held(pages, x)
    ensures Tree(m, a, Level(w[a]), pages)
    decreases Level(w[a])
  {
    hide Held;
    if !w[a].Pt? {
      forall i: Index | At(m, a, i) != NO_ENTRY
        ensures Tree(m, At(m, a, i).addr, Level(w[a]) - 1, pages)
      {
        KernelTree(m, w, k, At(m, a, i).addr, pages);
      }
    }
  }

  /** A new space, as fork and exec make it, on any list: it translates every address as the
      kernel does, nothing changes for any other space or in any other frame, and of the frames
      taken, one per kernel table, only the first is part of any space. */
  lemma NewSpace(s: Machine, w: Places, base: nat, k: nat) returns (w': Places, fs: seq<nat>)
    requires Shape(s.mem, w) && TablesHeld(s, w, base) && KernelSpace(s.mem, w, k)
    requires 0 !in Given(s.pages, Nodes(s.mem, k, 4))
    ensures fs == Given(s.pages, Nodes(s.mem, k, 4)) && AllocAddr(s.pages) == fs[0] && fs[0] !in w
    ensures w' == w[fs[0] := Pml4(fs[0])]
    ensures var s' := CopyTables(s, k, 4);
            && Shape(s'.mem, w') && TablesHeld(s', w', base) && KernelSpace(s'.mem, w', k)
            && SameTranslations(s.mem, s'.mem, w)
            && (forall q: Path :: Translate(s'.mem, fs[0], q) == Translate(s.mem, k, q))
            && (forall i: Index :: At(s'.mem, fs[0], i) == At(s.mem, k, i))
            && SameExcept(s.mem, s'.mem, fs) && s'.pages == AllocMany(s.pages, |fs|)
  {
    hide CopyTables, Nodes, Tree, AllocAddr, Shape, Translate, Sound, IsTable, Held, Given, AllocMany;
    KernelTree(s.mem, w, k, k, s.pages);
    CopyTablesKeeps(s, s.pages, base, k, 4);
    fs := Given(s.pages, Nodes(s.mem, k, 4));
    NextGiven(s.pages, 0, |fs|);
    FirstMany(s.pages);
    GivenApart(s.pages, base, s.pages, |fs|);
    GivenThenHeld(s.pages, base, |fs|);
    var s', f := CopyTables(s, k, 4), fs[0];
    w' := w[f := Pml4(f)];
    SameTables(s.mem, s'.mem, w, fs);
    InMemory(s'.mem, f);
    SameEntries(s.mem, s'.mem, w, k, f);
    CopyShape(s.mem, s'.mem, w, k, f);
    forall r, q: Path | Root(w, r)
      ensures Translate(s'.mem, r, q) == Translate(s.mem, r, q)
    {
      SameTablesWalk(s.mem, s'.mem, w, r, q);
    }
    forall q: Path
      ensures Translate(s'.mem, f, q) == Translate(s.mem, k, q)
    {
      CopyWalk(s.mem, s'.mem, w, k, f, q);
    }
  }

  lemma GivenThenHeld(s: seq<Page>, base: nat, k: nat)
    requires Sound(s, base) && 0 !in Given(s, k)
    ensures forall f | f in Given(s, k) :: Held(AllocMany(s, k), f)
  {
    AllocManyTook(s, base, k);
  }

  ghost predicate TablesSame(m: Memory, m': Memory, w: Places)
  {
    forall a | a in w :: a in m && a in m' && m'[a] == m[a]
  }

  lemma SameEntries(m: Memory, m': Memory, w: Places, k: nat, f: nat)
    requires Shape(m, w) && k in w && f in m' && m'[f] == m[k]
    ensures forall i: Index :: At(m', f, i) == At(m, k, i)
  {
  }

  lemma InMemory(m: Memory, f: nat)
    requires IsTable(m, f)
    ensures f in m
  {
  }

  lemma SameTables(m: Memory, m': Memory, w: Places, fs: seq<nat>)
    requires Shape(m, w) && SameExcept(m, m', fs) && forall a | a in w :: a !in fs
    ensures TablesSame(m, m', w)
  {
  }

  lemma CopyShape(m: Memory, m': Memory, w: Places, k: nat, f: nat)
    requires Shape(m, w) && KernelSpace(m, w, k) && TablesSame(m, m', w) && f !in w
    requires f in m' && m'[f] == m[k]
    ensures Shape(m', w[f := Pml4(f)]) && KernelSpace(m', w[f := Pml4(f)], k)
  {
    assert forall a, i: Index | a in w :: At(m', a, i) == At(m, a, i);
    assert forall i: Index :: At(m', f, i) == At(m, k, i);
  }

  lemma SameTablesWalk(m: Memory, m': Memory, w: Places, r: nat, q: Path)
    requires Shape(m, w) && TablesSame(m, m', w) && Root(w, r)
    ensures Walk(m', r, q) == Walk(m, r, q)
    ensures Translate(m', r, q) == Translate(m, r, q)
  {
    assert forall a, i: Index | a in w :: At(m', a, i) == At(m, a, i);
  }

  lemma CopyWalk(m: Memory, m': Memory, w: Places, k: nat, f: nat, q: Path)
    requires Shape(m, w) && TablesSame(m, m', w) && Root(w, k) && f in m' && m'[f] == m[k]
    ensures Translate(m', f, q) == Translate(m, k, q)
  {
    assert forall a, i: Index | a in w :: At(m', a, i) == At(m, a, i);
    assert forall i: Index :: At(m', f, i) == At(m, k, i);
  }
}
