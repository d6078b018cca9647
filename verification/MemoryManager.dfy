/** The memory manager as it updates memory and the page list in place: the functions of
    sys/virt_mmgr.c, the fault handlers of sys/page_faults.c and copy_vm of sys/process.c,
    each proved to have exactly the effect its value-level counterpart describes. */
module MemoryManager {
  import opened Basics
  import opened PageList
  import opened PageTables
  import opened PageFlags
  import opened TableCopy
  import opened Sharing
  import opened Fork
  import opened FileReads
  import opened DemandPaging
  import opened FileFaults
  import opened LoadedTables
  import Util

  class Manager {
    const list: FrameList
    var mem: Memory
    var loaded: nat

    constructor (list: FrameList, mem: Memory, loaded: nat)
      ensures this.list == list && this.mem == mem && this.loaded == loaded
    {
      this.list := list;
      this.mem := mem;
      this.loaded := loaded;
    }

    ghost function State(): (s: Machine)
      reads this, list.pages
    {
      Machine(mem, list.pages[..])
    }

    /** A frame taken and cleared, the byte after it included. */
    method NewTable() returns (a: nat)
      modifies `mem, list.pages
      ensures State() == TakeScratch(old(State())) && a == AllocAddr(old(list.pages[..]))
    {
      a := list.Alloc();
      mem := ZeroFill(mem, a);
    }

    /** walk_pml4 */
    method WalkPml4(cr3: nat, v: nat) returns (r: int)
      ensures r == Walk(mem, cr3, PathOf(v)) && -1 <= r
    {
      var p := PathOf(v);
      var e := At(mem, cr3, p.l4);
      if !Present(e) {
        return -1;
      }
      e := At(mem, e.addr, p.l3);
      if !Present(e) {
        return -1;
      }
      e := At(mem, e.addr, p.l2);
      if !Present(e) {
        return -1;
      }
      return At(mem, e.addr, p.l1).addr;
    }

    /** Replaces the address of an entry and then adds flags to it. */
    method Install(t: nat, i: Index, a: nat, flags: bv12)
      modifies `mem
      ensures mem == Put(old(mem), t, i, Linked(At(old(mem), t, i), a, flags))
    {
      PutTwice(mem, t, i, At(mem, t, i).(addr := a), Linked(At(mem, t, i), a, flags));
      mem := Put(mem, t, i, At(mem, t, i).(addr := a));
      mem := Put(mem, t, i, Flagged(At(mem, t, i), flags));
    }

    /** One level of the map: the entry is re-read after the new table has been cleared. */
    method EnsureTable(t: nat, i: Index, flags: bv12) returns (next: nat)
      modifies `mem, list.pages
      ensures State() == WithTable(old(State()), t, i, flags)
      ensures next == At(mem, t, i).addr
    {
      if !Present(At(mem, t, i)) {
        var a := NewTable();
        Install(t, i, a, flags);
      }
      next := At(mem, t, i).addr;
    }

    /** map_virtual_address_to_physical_address; with `isReference` only the tables are made. */
    method Map(v: nat, a: nat, flags: bv12, cr3: nat, isReference: bool)
      modifies this, list.pages
      ensures !isReference ==> State() == MapPage(old(State()), v, a, flags, cr3)
      ensures isReference ==> State() == if v % PAGE != 0 || a % PAGE != 0 then old(State())
                                         else WithTables(old(State()), cr3, PathOf(v), flags).0
      ensures loaded == MapLoads(v, a, cr3, old(loaded))
    {
      hide WithTable, Put;
      if v % PAGE != 0 {
        return;
      }
      if a % PAGE != 0 {
        return;
      }
      var p := PathOf(v);
      var t3 := EnsureTable(cr3, p.l4, flags);
      var t2 := EnsureTable(t3, p.l3, flags);
      var t1 := EnsureTable(t2, p.l2, flags);
      assert (State(), t1) == WithTables(old(State()), cr3, p, flags);
      if !isReference {
        Install(t1, p.l1, a, flags);
      }
      loaded := cr3;
    }

    /** change_flags_in_parent_page_tables */
    method AddFlags(v: nat, cr3: nat, flags: bv12)
      modifies this
      ensures mem == ChangeFlags(old(mem), cr3, PathOf(v), flags)
      ensures loaded == FlagsLoad(old(mem), cr3, PathOf(v), old(loaded))
    {
      hide Put, Walk;
      var p := PathOf(v);
      FlagsReach(mem, cr3, p, flags);
      var e := At(mem, cr3, p.l4);
      if !Present(e) {
        return;
      }
      mem := FlagEntry(mem, cr3, p.l4, flags);
      var t := e.addr;
      e := At(mem, t, p.l3);
      if !Present(e) {
        return;
      }
      mem := FlagEntry(mem, t, p.l3, flags);
      t := e.addr;
      e := At(mem, t, p.l2);
      if !Present(e) {
        return;
      }
      mem := FlagEntry(mem, t, p.l2, flags);
      t := e.addr;
      mem := FlagEntry(mem, t, p.l1, flags);
      loaded := cr3;
    }

    /** copy_page_tables: the new top-level table at level 4, 0 at the levels below. */
    method CopyPageTables(a: nat, level: nat) returns (copy: nat)
      requires 1 <= level <= 4
      modifies `mem, list.pages
      ensures State() == CopyTables(old(State()), a, level)
      ensures copy == if level == 4 then AllocAddr(old(list.pages[..])) else 0
      decreases level
    {
      hide Put, At;
      var f := list.Alloc();
      mem := AsTable(mem, f);
      var i := 0;
      while i < 512
        invariant i <= 512
        invariant CopyEntries(State(), f, a, level, i) == CopyTables(old(State()), a, level)
        invariant level == 4 ==> f == AllocAddr(old(list.pages[..]))
      {
        ghost var s := State();
        var e := At(mem, a, i);
        mem := Put(mem, f, i, e);
        if 1 < level && e != NO_ENTRY {
          var below := CopyPageTables(e.addr, level - 1);
        }
        assert State() == CopyEntry(s, f, a, level, i);
        i := i + 1;
      }
      copy := if level == 4 then f else 0;
    }

    /** do_anon_fault for a region without a file; `write` is the region's write permission.
        Below the first page boundary page_round_up does not round, and no region is there. */
    method AnonFault(cr3: nat, v: nat, write: bool)
      requires PAGE <= v < WORD_LIMIT
      modifies this, list.pages
      ensures State() == AnonFaulted(old(State()), cr3, v, write)
      ensures old(loaded) == cr3 ==> loaded == cr3
    {
      var flags := if write then READ_WRITE else READ_ONLY;
      var address := Util.PageRoundUp(v);
      var page := list.Alloc();
      AddFlags(address, cr3, flags);
      Map(address, page, flags, cr3, false);
      mem := mem[page := Data(seq(4096, _ => 0))];
    }

    /** do_file_fault: the page is mapped, filled by way of its mapping, and on failure given
        back. */
    method FileFault(cr3: nat, file: OpenFile, seg: Segment, v: nat) returns (ok: bool)
      requires Within(seg, file.data) && seg.start <= v < 0x8000_0000_0000
      modifies this, list.pages, file`offset
      ensures ok == Succeeds(seg, Util.PageRoundUp(v))
      ensures State() == FileFaulted(old(State()), cr3, file.data, seg, v)
      ensures old(loaded) == cr3 ==> loaded == cr3
    {
      hide MapPage, EagerPage, AllocPages, AllocAddr, FreePages;
      var flags := if seg.write then READ_WRITE else READ_ONLY;
      var page := list.Alloc();
      Map(Util.PageRoundUp(v), page, flags, cr3, false);
      var buffer := new bv8[4096];
      ok := DemandPaging.FileFault(file, seg, v, buffer);
      mem := mem[page := Data(buffer[..])];
      if !ok {
        list.Free(page);
      }
    }

    /** do_copy_on_write_fault */
    method CopyOnWriteFault(cr3: nat, v: nat) returns (r: int)
      modifies this, list.pages
      ensures (State(), r) == CowFault(old(State()), cr3, v)
      ensures old(loaded) == cr3 ==> loaded == cr3
    {
      hide ZeroFill, MapPage, ChangeFlags, AllocPages, DecPages, Walk, PathOf, AllocAddr;
      var a := WalkPml4(cr3, v);
      var scratch := NewTable();
      var page := Page(0, 0, false);
      if 0 <= a {
        page := list.Find(a);
      }
      if page.count == 1 {
        AddFlags(v, cr3, READ_WRITE);
        return 1;
      } else if 1 < page.count {
        var f := list.Alloc();
        mem := mem[f := CopiedOver(FrameAt(mem, f), FrameAt(mem, page.addr))];
        Map(v, f, READ_WRITE, cr3, false);
        list.Decrement(page.addr);
        return 1;
      } else {
        return -1;
      }
    }

    /** The first loop of copy_vm. */
    method ProtectRegions(parent: nat, regions: seq<Span>)
      modifies this
      ensures mem == Protect(old(mem), parent, Visited(regions))
      ensures loaded == ProtectLoads(old(mem), parent, Visited(regions), old(loaded))
    {
      hide ChangeFlags, PathOf, Addresses, Visited, FlagsLoad;
      var k := 0;
      while k < |regions|
        invariant k <= |regions|
        invariant Protect(mem, parent, Visited(regions[k..])) == Protect(old(mem), parent, Visited(regions))
        invariant ProtectLoads(mem, parent, Visited(regions[k..]), loaded) ==
                  ProtectLoads(old(mem), parent, Visited(regions), old(loaded))
      {
        var i, end := Low(regions[k]), High(regions[k]);
        ghost var rest := Visited(regions[k + 1..]);
        VisitedFrom(regions, k);
        while i < end
          invariant Protect(mem, parent, Addresses(i, end) + rest) == Protect(old(mem), parent, Visited(regions))
          invariant ProtectLoads(mem, parent, Addresses(i, end) + rest, loaded) ==
                    ProtectLoads(old(mem), parent, Visited(regions), old(loaded))
        {
          AddressesHead(i, end, rest);
          AddFlags(i, parent, READ_ONLY);
          i := i + PAGE;
        }
        NoAddresses(i, end, rest);
        k := k + 1;
      }
      NoneVisited(regions);
    }

    /** One round of the second loop. */
    method ShareAddress(parent: nat, child: nat, i: nat)
      modifies this, list.pages
      ensures State() == ShareOne(old(State()), parent, child, i)
      ensures loaded == ShareOneLoads(old(State()), parent, child, i, old(loaded))
    {
      hide MapPage, IncPages, PathOf, Walk;
      var a := WalkPml4(parent, i);
      if a == -1 || a == 0 {
        return;
      }
      Map(i, a, READ_ONLY, child, false);
      list.Increment(a);
    }

    /** The second loop of copy_vm. */
    method ShareRegions(parent: nat, child: nat, regions: seq<Span>)
      modifies this, list.pages
      ensures State() == Share(old(State()), parent, child, Visited(regions))
      ensures loaded == ShareLoads(old(State()), parent, child, Visited(regions), old(loaded))
    {
      hide ShareOne, Addresses, Visited, ShareOneLoads;
      var k := 0;
      while k < |regions|
        invariant k <= |regions|
        invariant Share(State(), parent, child, Visited(regions[k..])) ==
                  Share(old(State()), parent, child, Visited(regions))
        invariant ShareLoads(State(), parent, child, Visited(regions[k..]), loaded) ==
                  ShareLoads(old(State()), parent, child, Visited(regions), old(loaded))
      {
        var i, end := Low(regions[k]), High(regions[k]);
        ghost var rest := Visited(regions[k + 1..]);
        VisitedFrom(regions, k);
        while i < end
          invariant Share(State(), parent, child, Addresses(i, end) + rest) ==
                    Share(old(State()), parent, child, Visited(regions))
          invariant ShareLoads(State(), parent, child, Addresses(i, end) + rest, loaded) ==
                    ShareLoads(old(State()), parent, child, Visited(regions), old(loaded))
        {
          AddressesHead(i, end, rest);
          ShareAddress(parent, child, i);
          i := i + PAGE;
        }
        NoAddresses(i, end, rest);
        k := k + 1;
      }
      NoneVisited(regions);
    }

    /** copy_vm */
    method CopyVmInto(kernel: nat, parent: nat, regions: seq<Span>) returns (child: nat)
      modifies this, list.pages
      ensures child == AllocAddr(old(list.pages[..]))
      ensures State() == CopyVm(CopyTables(old(State()), kernel, 4), parent, child, Visited(regions))
      ensures loaded == CopyVmLoads(CopyTables(old(State()), kernel, 4), parent, child, Visited(regions), old(loaded))
    {
      hide CopyTables, Protect, Share, AllocAddr, ProtectLoads, ShareLoads;
      child := CopyPageTables(kernel, 4);
      ProtectRegions(parent, regions);
      ShareRegions(parent, child, regions);
    }
  }

  lemma PutTwice(m: Memory, t: nat, i: Index, e: Entry, e': Entry)
    ensures Put(Put(m, t, i, e), t, i, e') == Put(m, t, i, e')
    ensures IsTable(m, t) ==> At(Put(m, t, i, e), t, i) == e
    ensures !IsTable(m, t) ==> Put(m, t, i, e) == m
    ensures IsTable(Put(m, t, i, e), t) == IsTable(m, t)
  {
    if IsTable(m, t) {
      var es := m[t].entries;
      assert es[i := e][i := e'] == es[i := e'];
    }
  }

  lemma AddressesHead(i: nat, end: nat, rest: seq<nat>)
    requires i < end
    ensures var l := Addresses(i, end) + rest;
            l != [] && l[0] == i && l[1..] == Addresses(i + PAGE, end) + rest
  {
  }

  lemma NoAddresses(i: nat, end: nat, rest: seq<nat>)
    requires end <= i
    ensures Addresses(i, end) + rest == rest
  {
  }

  lemma NoneVisited(regions: seq<Span>)
    ensures Visited(regions[|regions|..]) == []
  {
  }

  lemma VisitedFrom(regions: seq<Span>, k: nat)
    requires k < |regions|
    ensures Visited(regions[k..]) == Addresses(Low(regions[k]), High(regions[k])) + Visited(regions[k + 1..])
  {
    assert regions[k..][1..] == regions[k + 1..];
  }
}
