/** Which top-level table the processor has loaded: maps and flag changes end by loading the
    tables they worked on, whoever is running. */
module LoadedTables {
  import opened Basics
  import opened PageList
  import opened PageTables
  import opened PageFlags
  import opened TableCopy
  import opened Leaves
  import opened Sharing
  import opened Fork

  /** After map_virtual_address_to_physical_address, which returns early on what is not
      aligned. */
  function MapLoads(v: nat, a: nat, cr3: nat, loaded: nat): (r: nat)
  {
    if v % PAGE != 0 || a % PAGE != 0 then loaded else cr3
  }

  /** After change_flags_in_parent_page_tables, which returns early where a table is missing. */
  function FlagsLoad(m: Memory, cr3: nat, p: Path, loaded: nat): (r: nat)
  {
    if Walk(m, cr3, p) == -1 then loaded else cr3
  }

  /** After the first loop of copy_vm. */
  function ProtectLoads(m: Memory, parent: nat, l: seq<nat>, loaded: nat): (r: nat)
    decreases |l|
  {
    if l == [] then loaded
    else ProtectLoads(ChangeFlags(m, parent, PathOf(l[0]), READ_ONLY), parent, l[1..],
                      FlagsLoad(m, parent, PathOf(l[0]), loaded))
  }

  /** After one round of the second. */
  function ShareOneLoads(s: Machine, parent: nat, child: nat, i: nat, loaded: nat): (r: nat)
  {
    var a := Walk(s.mem, parent, PathOf(i));
    if a <= 0 then loaded else MapLoads(i, a, child, loaded)
  }

  function ShareLoads(s: Machine, parent: nat, child: nat, l: seq<nat>, loaded: nat): (r: nat)
    decreases |l|
  {
    if l == [] then loaded
    else ShareLoads(ShareOne(s, parent, child, l[0]), parent, child, l[1..],
                    ShareOneLoads(s, parent, child, l[0], loaded))
  }

  /** After all of copy_vm, once the child has its top-level table. */
  function CopyVmLoads(s: Machine, parent: nat, child: nat, l: seq<nat>, loaded: nat): (r: nat)
  {
    ShareLoads(s.(mem := Protect(s.mem, parent, l)), parent, child, l, ProtectLoads(s.mem, parent, l, loaded))
  }

  /** A map of an address or a frame that is not aligned changes nothing and loads nothing; any
      other loads the tables. */
  lemma RefusedMap(s: Machine, v: nat, a: nat, flags: bv12, cr3: nat, loaded: nat)
    ensures v % 4096 != 0 || a % 4096 != 0 ==>
              MapPage(s, v, a, flags, cr3) == s && MapLoads(v, a, cr3, loaded) == loaded
    ensures v % 4096 == 0 && a % 4096 == 0 ==> MapLoads(v, a, cr3, loaded) == cr3
  {
    hide WithTables, PathOf;
  }

  /** An address of the list is mapped for the parent. */
  ghost predicate AnyMapped(t: LeafMap, parent: nat, l: seq<nat>)
  {
    exists i :: 0 <= i < |l| && (parent, PathOf(l[i])) in t
  }

  /** The flag change takes its four steps, on entries it has not itself made present, exactly
      when the walk finds all tables. */
  lemma FlagsReach(m: Memory, cr3: nat, p: Path, flags: bv12)
    ensures var e4 := At(m, cr3, p.l4);
            var m4 := FlagEntry(m, cr3, p.l4, flags);
            var e3 := At(m4, e4.addr, p.l3);
            var m3 := FlagEntry(m4, e4.addr, p.l3, flags);
            Walk(m, cr3, p) != -1 <==> Present(e4) && Present(e3) && Present(At(m3, e3.addr, p.l2))
  {
    hide FlagEntry;
    var e4 := At(m, cr3, p.l4);
    if Present(e4) {
      PresentKept(m, cr3, p.l4, flags, e4.addr, p.l3);
      var m4 := FlagEntry(m, cr3, p.l4, flags);
      var e3 := At(m4, e4.addr, p.l3);
      if Present(e3) {
        PresentKept(m, cr3, p.l4, flags, e3.addr, p.l2);
        PresentKept(m4, e4.addr, p.l3, flags, e3.addr, p.l2);
      }
    }
  }

  /** Flags added to a present entry change neither addresses nor what is present. */
  lemma PresentKept(m: Memory, t: nat, i: Index, flags: bv12, a: nat, j: Index)
    requires Present(At(m, t, i))
    ensures var e, e' := At(m, a, j), At(FlagEntry(m, t, i, flags), a, j);
            e'.addr == e.addr && (Present(e') <==> Present(e))
  {
    var e := At(m, t, i);
    assert Present(Flagged(e, flags)) by {
      PresentBits(e.flags, flags);
    }
    if a == t && j == i {
      assert At(FlagEntry(m, t, i, flags), a, j) in {e, Flagged(e, flags)};
    }
  }

  lemma PresentBits(f: bv12, flags: bv12)
    requires f & PRESENT != 0
    ensures (f | flags) & PRESENT != 0
  {
  }

  lemma {:induction false} ShareLoadsChild(sys: System, g: View, parent: nat, child: nat, l: seq<nat>, loaded: nat)
    requires Inv(sys, g) && parent in sys.spaces && child in sys.spaces && parent != child
    requires UserAddresses(l) && ShareRoom(sys.machine, g.t, parent, child, l) && Good(g.t, parent, child, l)
    ensures ShareLoads(sys.machine, parent, child, l, loaded) == if AnyMapped(g.t, parent, l) then child else loaded
    decreases |l|
  {
    hide Tabled, ShareOne, Counted, PathOf, Walk;
    if l != [] {
      FirstFreeIs(sys, g);
      var g1 := GoodRoundKeeps(sys, g, parent, child, l[0]);
      var s1 := ShareOne(sys.machine, parent, child, l[0]);
      assert UserAddresses(l[1..]);
      var loaded1 := ShareOneLoads(sys.machine, parent, child, l[0], loaded);
      ShareLoadsChild(sys.(machine := s1), g1, parent, child, l[1..], loaded1);
      RoundLoads(sys, g, parent, child, l[0], loaded);
      AnyMappedNext(g.t, parent, child, l);
    }
  }

  lemma RoundLoads(sys: System, g: View, parent: nat, child: nat, i: nat, loaded: nat)
    requires Inv(sys, g) && parent in sys.spaces && UserPage(PathOf(i)) && GoodRound(g.t, parent, child, i)
    ensures ShareOneLoads(sys.machine, parent, child, i, loaded) == if (parent, PathOf(i)) in g.t then child else loaded
  {
    LeafTranslates(sys, g, parent, PathOf(i));
    if (parent, PathOf(i)) in g.t {
      assert Counted(sys.machine, g, g.t[(parent, PathOf(i))]);
      FramePage(sys, g, g.t[(parent, PathOf(i))]);
    }
  }

  lemma AnyMappedNext(t: LeafMap, parent: nat, child: nat, l: seq<nat>)
    requires l != [] && parent != child
    ensures AnyMapped(t, parent, l) <==>
              (parent, PathOf(l[0])) in t || AnyMapped(SharedOne(t, parent, child, l[0]), parent, l[1..])
  {
    hide PathOf;
    if AnyMapped(t, parent, l) {
      var i :| 0 <= i < |l| && (parent, PathOf(l[i])) in t;
      assert 0 < i ==> l[1..][i - 1] == l[i];
    }
    if AnyMapped(SharedOne(t, parent, child, l[0]), parent, l[1..]) {
      var i :| 0 <= i < |l[1..]| && (parent, PathOf(l[1..][i])) in SharedOne(t, parent, child, l[0]);
      assert l[1..][i] == l[i + 1];
    }
  }

  /** The first loop of copy_vm loads the parent's tables if and only if one of the addresses has
      all its tables, whether or not it is mapped. */
  lemma {:induction false} ProtectLoadsParent(m: Memory, w: Places, parent: nat, l: seq<nat>, loaded: nat)
    requires Shape(m, w) && Root(w, parent)
    ensures ProtectLoads(m, parent, l, loaded) ==
              if exists i :: 0 <= i < |l| && Missing(m, parent, PathOf(l[i])) == 0 then parent else loaded
    decreases |l|
  {
    hide ChangeFlags, PathOf, Walk, Missing, Shape;
    if l != [] {
      var p := PathOf(l[0]);
      var m', loaded' := ChangeFlags(m, parent, p, READ_ONLY), FlagsLoad(m, parent, p, loaded);
      WalkByWay(m, parent, p);
      ChangeFlagsStep(m, w, parent, p, READ_ONLY);
      forall q: Path
        ensures Missing(m', parent, q) == Missing(m, parent, q)
      {
        FlagsKeepWalk(m, m', w, parent, q);
      }
      ProtectLoadsParent(m', w, parent, l[1..], loaded');
      assert forall i | 1 <= i < |l| :: l[i] == l[1..][i - 1];
      assert forall i | 0 <= i < |l| - 1 :: l[1..][i] == l[i + 1];
    }
  }

  /** Fork goes on with the child's tables loaded, in the parent, if and only if the parent has
      a mapped page among those visited; otherwise with the parent's or those it began with,
      which were not the child's. */
  lemma ForkLoadsChild(sys: System, g: View, parent: nat, l: seq<nat>, records: nat, loaded: nat)
    requires Inv(sys, g) && parent in sys.spaces && UserAddresses(l)
    requires ForkRoom(sys.machine, g.t, sys.kernel, parent, l, records) && AlignedOnce(g.t, parent, l)
    ensures var s1 := Reserve(sys.machine, records);
            var s2, child := CopyTables(s1, sys.kernel, 4), AllocAddr(s1.pages);
            CopyVmLoads(s2, parent, child, l, loaded) ==
              if AnyMapped(g.t, parent, l) then child else ProtectLoads(s2.mem, parent, l, loaded)
    ensures var s1 := Reserve(sys.machine, records);
            var s2, child := CopyTables(s1, sys.kernel, 4), AllocAddr(s1.pages);
            loaded != child ==> (CopyVmLoads(s2, parent, child, l, loaded) == child <==> AnyMapped(g.t, parent, l))
  {
    hide Tabled, TakeScratch, CopyTables, Protect, Share, ShareRoom, Counted, Nodes, PathOf, AllocAddr, SameContents,
         TablesSame, OnlyFlagsAdded, Reserve, Good, AnyMapped, ProtectLoads;
    FirstFreeIs(sys, g);
    var s1 := Reserve(sys.machine, records);
    var sys1, g1 := sys.(machine := s1), g.(n := g.n + records);
    ReserveKeeps(sys, g, records);
    FirstFreeIs(sys1, g1);
    var child := AllocAddr(s1.pages);
    var s2 := CopyTables(s1, sys.kernel, 4);
    var g2 := NewSpaceKeeps(sys1, g1);
    var sys2 := System(s2, sys.kernel, sys.spaces + {child});
    ProtectKeeps(sys2, g2, parent, l);
    var s3 := s2.(mem := Protect(s2.mem, parent, l));
    NoLeaves(sys, g, child);
    GoodIffAlignedOnce(g.t, parent, child, l);
    SpaceRoot(sys2, g2, parent);
    ProtectLoadsParent(s2.mem, g2.w, parent, l, loaded);
    ShareLoadsChild(sys2.(machine := s3), g2, parent, child, l, ProtectLoads(s2.mem, parent, l, loaded));
  }

  lemma SpaceRoot(sys: System, g: View, r: nat)
    requires Inv(sys, g) && r in sys.spaces
    ensures Shape(sys.machine.mem, g.w) && Root(g.w, r)
  {
  }
}
