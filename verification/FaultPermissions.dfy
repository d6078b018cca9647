/** What a program may do with a page after a fault on it (sys/page_faults.c). */
module FaultPermissions {
  import opened Basics
  import opened PageList
  import opened PageTables
  import opened Mapping
  import opened PageFlags
  import opened TableCopy
  import opened Leaves
  import opened Sharing
  import opened Presence
  import opened Permissions
  import opened DemandPaging
  import opened FileReads
  import opened FileFaults
  import Util

  // ---------------------------------------------------------------- flags added first

  /** A flag change reaches the entries that are there, and the last one if its table is. */
  predicate Reached(m: Memory, cr3: nat, p: Path, k: nat)
  {
    Existed(m, cr3, p, k) || (k == 1 && Missing(m, cr3, p) == 0)
  }

  /** The flags at one level after the change. */
  ghost predicate ReachedAt(m: Memory, m': Memory, cr3: nat, p: Path, flags: bv12, k: nat)
    requires 1 <= k <= 4
  {
    FlagsAt(m', cr3, p, k) ==
      if Reached(m, cr3, p, k) then Plus(FlagsAt(m, cr3, p, k), flags) else FlagsAt(m, cr3, p, k)
  }

  lemma ChangeFlagsReaches(m: Memory, w: Places, cr3: nat, p: Path, flags: bv12)
    requires Shape(m, w) && Root(w, cr3)
    ensures var m' := ChangeFlags(m, cr3, p, flags);
            Missing(m', cr3, p) == Missing(m, cr3, p) && forall k | 1 <= k <= 4 :: ReachedAt(m, m', cr3, p, flags, k)
  {
    hide ReachedAt, FlagStep, Shape;
    var m' := ChangeFlags(m, cr3, p, flags);
    ChangeFlagsStep(m, w, cr3, p, flags);
    MissingKept(m, m', w, cr3, p);
    hide ChangeFlags;
    forall k | 1 <= k <= 4
      ensures ReachedAt(m, m', cr3, p, flags, k)
    {
      if Missing(m, cr3, p) == 0 {
        AllReached(m, m', cr3, p, flags, k);
      } else {
        SomeReached(m, w, cr3, p, flags, k);
      }
    }
  }

  lemma MissingKept(m: Memory, m': Memory, w: Places, cr3: nat, p: Path)
    requires Shape(m, w) && Root(w, cr3) && FlagStep(m, m', w, cr3, OwnerOf(cr3, p.l4))
    ensures Missing(m', cr3, p) == Missing(m, cr3, p)
  {
    FlagsKeepWalk(m, m', w, cr3, p);
  }

  lemma AllReached(m: Memory, m': Memory, cr3: nat, p: Path, flags: bv12, k: nat)
    requires 1 <= k <= 4 && Missing(m, cr3, p) == 0 == Missing(m', cr3, p)
    requires EntryAt(m', cr3, p, k) == Flagged(EntryAt(m, cr3, p, k), flags)
    ensures ReachedAt(m, m', cr3, p, flags, k)
  {
    hide EntryAt, Missing;
  }

  lemma FlaggedFlags(e: Entry, flags: bv12)
    ensures Flagged(e, flags).addr == e.addr && Flagged(e, flags).flags == Plus(e.flags, flags)
  {
  }

  lemma SomeReached(m: Memory, w: Places, cr3: nat, p: Path, flags: bv12, k: nat)
    requires 1 <= k <= 4 && Shape(m, w) && Root(w, cr3) && Missing(m, cr3, p) != 0
    requires Missing(ChangeFlags(m, cr3, p, flags), cr3, p) == Missing(m, cr3, p)
    ensures ReachedAt(m, ChangeFlags(m, cr3, p, flags), cr3, p, flags, k)
  {
    if Missing(m, cr3, p) == 3 {
      assert ChangeFlags(m, cr3, p, flags) == m;
    } else {
      UpperReached(m, w, cr3, p, flags, k);
    }
    hide ChangeFlags, Shape, ReachedAt;
    if Missing(m, cr3, p) == 3 {
      NoneReached(m, cr3, p, flags, k);
    }
  }

  lemma NoneReached(m: Memory, cr3: nat, p: Path, flags: bv12, k: nat)
    requires 1 <= k <= 4 && Missing(m, cr3, p) == 3
    ensures ReachedAt(m, m, cr3, p, flags, k)
  {
  }

  lemma UpperReached(m: Memory, w: Places, cr3: nat, p: Path, flags: bv12, k: nat)
    requires 1 <= k <= 4 && Shape(m, w) && Root(w, cr3) && Missing(m, cr3, p) in {1, 2}
    requires Missing(ChangeFlags(m, cr3, p, flags), cr3, p) == Missing(m, cr3, p)
    ensures ReachedAt(m, ChangeFlags(m, cr3, p, flags), cr3, p, flags, k)
  {
    hide At, ChangeFlags, Shape, Present, Plus, Flagged;
    var m' := ChangeFlags(m, cr3, p, flags);
    UpperFlagged(m, w, cr3, p, flags);
    var e4 := At(m, cr3, p.l4);
    FlaggedFlags(e4, flags);
    FlaggedFlags(At(m, e4.addr, p.l3), flags);
  }

  /** The tables end before the last level: the entries that are there get the flags, and the one
      that is not stays as it was. */
  lemma UpperFlagged(m: Memory, w: Places, cr3: nat, p: Path, flags: bv12)
    requires Shape(m, w) && Root(w, cr3) && Missing(m, cr3, p) in {1, 2}
    ensures var m', e4 := ChangeFlags(m, cr3, p, flags), At(m, cr3, p.l4);
            && At(m', cr3, p.l4) == Flagged(e4, flags)
            && var e3 := At(m, e4.addr, p.l3);
               && At(m', e4.addr, p.l3) == (if Present(e3) then Flagged(e3, flags) else e3)
               && (Present(e3) ==> At(m', e3.addr, p.l2) == At(m, e3.addr, p.l2))
  {
  }

  // ---------------------------------------------------------------- a page that is filled

  /** Data outside the tables changes no entry on the way to a page. */
  lemma DataKeepsEntries(m: Memory, w: Places, f: nat, data: Frame, cr3: nat, p: Path)
    requires Shape(m, w) && Root(w, cr3) && f !in w && Missing(m, cr3, p) == 0
    ensures SameRights(m, m[f := data], cr3, p)
  {
    LastTablePlace(m, w, cr3, p);
  }

  lemma MadeEntries(m: Memory, m1: Memory, m2: Memory, cr3: nat, p: Path, flags: bv12)
    requires MadeWith(m, m1, cr3, p, flags) && SameRights(m1, m2, cr3, p)
    ensures MadeWith(m, m2, cr3, p, flags)
  {
    hide EntryAt, Made;
  }

  lemma FillFlags(sys: System, g: View, cr3: nat, v: nat, flags: bv12, flagFirst: bool, bytes: Bytes)
    requires Tabled(sys, g) && cr3 in sys.spaces && v % PAGE == 0 && UserPage(PathOf(v)) && flags & PRESENT == PRESENT
    requires g.n + 1 + Missing(sys.machine.mem, cr3, PathOf(v)) <= |sys.machine.pages|
    ensures var p, m := PathOf(v), sys.machine.mem;
            var m0 := if flagFirst then ChangeFlags(m, cr3, p, flags) else m;
            MadeWith(m0, FillPage(sys.machine, cr3, v, flags, flagFirst, bytes).mem, cr3, p, flags)
  {
    hide ChangeFlags, Shape, KernelSpace, Walk, Missing, MapPage, SameTranslations, SameTranslationsBut, SameData,
         OthersSame, AllocPages, AllocAddr, Sound, Dense, IsLeafMap, PageAt, Took, SameKinds, PathOf, MadeWith,
         SameRights, AllocMany;
    var s, p, f := sys.machine, PathOf(v), g.base + PAGE * g.n;
    PageAligned(s.pages, g.base, g.n);
    AllocDense(s.pages, g.base, g.n);
    AllocTook(s.pages, g.base, g.n);
    var m := if flagFirst then ChangeFlags(s.mem, cr3, p, flags) else s.mem;
    FlagsFirst(sys, g, cr3, p, flags);
    var s1 := Machine(m, AllocPages(s.pages));
    BackedAfterAlloc(s, g.w, g.base, g.n, s1);
    var w' := MapPageDense(s1, g.w, g.base, g.n + 1, v, f, flags, cr3);
    MapFlags(s1, g.w, g.base, g.n + 1, v, f, flags, cr3);
    var s2 := MapPage(s1, v, f, flags, cr3);
    NothingMissing(s2.mem, cr3, p);
    DataKeepsEntries(s2.mem, w', f, Data(bytes), cr3, p);
    MadeEntries(m, s2.mem, s2.mem[f := Data(bytes)], cr3, p, flags);
  }

  lemma NothingMissing(m: Memory, cr3: nat, p: Path)
    requires 0 <= Walk(m, cr3, p)
    ensures Missing(m, cr3, p) == 0
  {
  }

  // ---------------------------------------------------------------- reading and writing

  /** A user-mode load succeeds: every level allows it. */
  predicate CanRead(m: Memory, cr3: nat, p: Path)
  {
    forall k | 1 <= k <= 4 :: Readable(EntryAt(m, cr3, p, k).flags)
  }

  predicate Readable(f: bv12)
  {
    f & (PRESENT | USER) == PRESENT | USER
  }

  predicate HasWrite(f: bv12)
  {
    f & WRITE == WRITE
  }

  /** The flags of a page that user programs may read, and write if `write`. */
  function UserFlags(write: bool): (f: bv12)
  {
    if write then PRESENT | USER | WRITE else PRESENT | USER
  }

  lemma UserFlagsMean(f: bv12, write: bool)
    ensures Readable(f | UserFlags(write))
    ensures (f | UserFlags(write)) & (PRESENT | WRITE | USER) == PRESENT | WRITE | USER <==> write || HasWrite(f)
  {
  }

  /** A level was made by the fault, or it was there and had these flags. */
  ghost predicate FileRights(m: Memory, m': Memory, cr3: nat, p: Path, write: bool)
  {
    && (forall k | 1 <= k <= 4 ::
          EntryAt(m', cr3, p, k).flags ==
            if Existed(m, cr3, p, k) then FlagsAt(m, cr3, p, k) else FlagsAt(m, cr3, p, k) | UserFlags(write))
    && (CanRead(m', cr3, p) <==> forall k | 1 <= k <= 4 && Existed(m, cr3, p, k) :: Readable(FlagsAt(m, cr3, p, k)))
    && (CanWrite(m', cr3, p) <==>
        forall k | 1 <= k <= 4 ::
          if Existed(m, cr3, p, k) then Writable(EntryAt(m, cr3, p, k)) else write || HasWrite(FlagsAt(m, cr3, p, k)))
  }

  lemma RightsFromFlags(m: Memory, m': Memory, cr3: nat, p: Path, write: bool)
    requires MadeWith(m, m', cr3, p, UserFlags(write))
    ensures FileRights(m, m', cr3, p, write)
  {
    forall k | 1 <= k <= 4
      ensures Readable(FlagsAt(m, cr3, p, k) | UserFlags(write))
      ensures (FlagsAt(m, cr3, p, k) | UserFlags(write)) & (PRESENT | WRITE | USER) == PRESENT | WRITE | USER
              <==> write || HasWrite(FlagsAt(m, cr3, p, k))
    {
      UserFlagsMean(FlagsAt(m, cr3, p, k), write);
    }
    ExistedFlags(m, cr3, p);
    hide EntryAt, Readable, HasWrite, UserFlags, Missing, FlagsAt, Existed;
  }

  lemma ExistedFlags(m: Memory, cr3: nat, p: Path)
    ensures forall k | 1 <= k <= 4 && Existed(m, cr3, p, k) :: FlagsAt(m, cr3, p, k) == EntryAt(m, cr3, p, k).flags
  {
    hide EntryAt, Missing;
  }

  /** A file fault gives the page the segment's permissions: the entries it makes, the last one in
      any case, let user programs in, and write if the segment is writable; the upper entries
      that were there are left as they were. */
  lemma FileFaultPermits(sys: System, g: View, cr3: nat, data: File, seg: Segment, address: nat)
    requires Inv(sys, g) && cr3 in sys.spaces && Within(seg, data) && seg.start <= address < WORD_LIMIT
    requires var p := PathOf(Util.PageRoundUp(address));
             UserPage(p) && g.n + 1 + Missing(sys.machine.mem, cr3, p) <= |sys.machine.pages|
    ensures var m, m' := sys.machine.mem, FileFaulted(sys.machine, cr3, data, seg, address).mem;
            FileRights(m, m', cr3, PathOf(Util.PageRoundUp(address)), seg.write)
  {
    hide FillPage, Missing, PathOf, Shape, Backed, KernelSpace, EagerPage, FreePages, AllocAddr, FileRights, MadeWith,
         IsLeafMap;
    var a := Util.PageRoundUp(address);
    FillFlags(sys, g, cr3, a, UserFlags(seg.write), false, EagerPage(data, seg, a));
    RightsFromFlags(sys.machine.mem, FileFaulted(sys.machine, cr3, data, seg, address).mem, cr3, PathOf(a), seg.write);
  }

  /** No entry that the fault makes had the write flag already. */
  ghost predicate NoStrayWrite(m: Memory, cr3: nat, p: Path)
  {
    forall k | 1 <= k <= 4 && !Existed(m, cr3, p, k) :: !HasWrite(FlagsAt(m, cr3, p, k))
  }

  /** So the page can be written if and only if the segment is writable and the tables that were
      there allow it; with no tables there before, if and only if the segment is writable. */
  lemma FileFaultWritable(sys: System, g: View, cr3: nat, data: File, seg: Segment, address: nat)
    requires Inv(sys, g) && cr3 in sys.spaces && Within(seg, data) && seg.start <= address < WORD_LIMIT
    requires var p := PathOf(Util.PageRoundUp(address));
             UserPage(p) && g.n + 1 + Missing(sys.machine.mem, cr3, p) <= |sys.machine.pages|
    ensures var m, m' := sys.machine.mem, FileFaulted(sys.machine, cr3, data, seg, address).mem;
            var p := PathOf(Util.PageRoundUp(address));
            && (NoStrayWrite(m, cr3, p) ==>
                  (CanWrite(m', cr3, p) <==>
                   seg.write && forall k | 2 <= k <= 4 && Existed(m, cr3, p, k) :: Writable(EntryAt(m, cr3, p, k))))
            && (At(m, cr3, p.l4) == NO_ENTRY ==> CanRead(m', cr3, p) && (CanWrite(m', cr3, p) <==> seg.write))
  {
    var m, m', p := sys.machine.mem, FileFaulted(sys.machine, cr3, data, seg, address).mem,
                    PathOf(Util.PageRoundUp(address));
    FileFaultPermits(sys, g, cr3, data, seg, address);
    FlagsUnfold(m, cr3, p);
    hide Inv, FileFaulted, PathOf, EntryAt, FlagsAt, CanWrite, CanRead;
    assert !Existed(m, cr3, p, 1);
  }

  /** The first faults on the data segment of a program and on one like it that is read-only. */
  lemma FirstDataFault(sys: System, g: View, cr3: nat, data: File, write: bool)
    requires Inv(sys, g) && cr3 in sys.spaces && |data| == 0x2000 && g.n + 4 <= |sys.machine.pages|
    requires At(sys.machine.mem, cr3, 0) == NO_ENTRY
    ensures var seg := Segment(0x60_1000, 0x60_2000, 0x1000, 0x1000, write);
            && Within(seg, data)
            && var m' := FileFaulted(sys.machine, cr3, data, seg, 0x60_1000).mem;
               && CanRead(m', cr3, Path(0, 0, 3, 1)) && (CanWrite(m', cr3, Path(0, 0, 3, 1)) <==> write)
  {
    hide Inv, FileFaulted, CanWrite, CanRead;
    MissingBound(sys.machine.mem, cr3, PathOf(0x60_1000));
    assert PathOf(0x60_1000) == Path(0, 0, 3, 1);
    FileFaultWritable(sys, g, cr3, data, Segment(0x60_1000, 0x60_2000, 0x1000, 0x1000, write), 0x60_1000);
  }

  /** A program's first text page and then its first data page are loaded: the tables above both
      were made for the text, so the data page cannot be written, although its segment is
      writable. */
  lemma DataAfterText(sys: System, g: View, cr3: nat, data: File)
    requires Inv(sys, g) && cr3 in sys.spaces && |data| == 0x2000 && g.n + 8 <= |sys.machine.pages|
    requires At(sys.machine.mem, cr3, 0) == NO_ENTRY
    ensures var text := Segment(0x40_0000, 0x40_1000, 0x1000, 0, false);
            var seg := Segment(0x60_1000, 0x60_2000, 0x1000, 0x1000, true);
            && Within(text, data) && Within(seg, data)
            && var s1 := FileFaulted(sys.machine, cr3, data, text, 0x40_0000);
               var m' := FileFaulted(s1, cr3, data, seg, 0x60_1000).mem;
               seg.write && !CanWrite(m', cr3, Path(0, 0, 3, 1))
  {
    hide Inv, FileFaulted, CanWrite, FileRights;
    var text := Segment(0x40_0000, 0x40_1000, 0x1000, 0, false);
    var seg := Segment(0x60_1000, 0x60_2000, 0x1000, 0x1000, true);
    var m, p, q := sys.machine.mem, Path(0, 0, 2, 0), Path(0, 0, 3, 1);
    assert PathOf(0x40_0000) == p && PathOf(0x60_1000) == q;
    MissingBound(m, cr3, p);
    var g1 := TextLoaded(sys, g, cr3, data, text);
    var s1 := FileFaulted(sys.machine, cr3, data, text, 0x40_0000);
    MissingBound(s1.mem, cr3, q);
    FileFaultPermits(sys, g, cr3, data, text, 0x40_0000);
    FileFaultPermits(sys.(machine := s1), g1, cr3, data, seg, 0x60_1000);
    TopForText(m, s1.mem, FileFaulted(s1, cr3, data, seg, 0x60_1000).mem, cr3);
  }

  lemma TextLoaded(sys: System, g: View, cr3: nat, data: File, text: Segment) returns (g1: View)
    requires Inv(sys, g) && cr3 in sys.spaces && Within(text, data) && g.n + 8 <= |sys.machine.pages|
    requires At(sys.machine.mem, cr3, 0) == NO_ENTRY && text.start == 0x40_0000 < text.end
    ensures var s1 := FileFaulted(sys.machine, cr3, data, text, 0x40_0000);
            Inv(sys.(machine := s1), g1) && |s1.pages| == |sys.machine.pages| && g1.n <= g.n + 4
  {
    hide Inv, FillPage, EagerPage;
    var m, p := sys.machine.mem, PathOf(0x40_0000);
    MissingBound(m, cr3, p);
    EmptyBelow(sys, g, cr3, p);
    FlagsPresent();
    var flags := if text.write then READ_WRITE else READ_ONLY;
    g1 := FillKeeps(sys, g, cr3, 0x40_0000, flags, false, EagerPage(data, text, 0x40_0000));
    FillKeepsSize(sys, g, cr3, 0x40_0000, flags, EagerPage(data, text, 0x40_0000));
  }

  lemma FillKeepsSize(sys: System, g: View, cr3: nat, v: nat, flags: bv12, bytes: Bytes)
    requires Inv(sys, g) && cr3 in sys.spaces && v % PAGE == 0 && UserPage(PathOf(v)) && flags & PRESENT == PRESENT
    requires g.n + 1 + Missing(sys.machine.mem, cr3, PathOf(v)) <= |sys.machine.pages|
    ensures |FillPage(sys.machine, cr3, v, flags, false, bytes).pages| == |sys.machine.pages|
  {
    hide Tabled, FillPage, Missing;
    var w', n' := FillSteps(sys, g, cr3, v, flags, false, bytes);
  }

  lemma EmptyBelow(sys: System, g: View, cr3: nat, p: Path)
    requires Inv(sys, g) && cr3 in sys.spaces && UserPage(p) && At(sys.machine.mem, cr3, p.l4) == NO_ENTRY
    ensures (cr3, p) !in g.t
  {
    assert Translate(sys.machine.mem, cr3, p) == None;
    hide Translate, Shape, Backed, KernelSpace;
  }

  /** The top-level entry is made for the text, and stays as it is for the data. */
  lemma TopForText(m: Memory, m1: Memory, m2: Memory, cr3: nat)
    requires At(m, cr3, 0) == NO_ENTRY
    requires FileRights(m, m1, cr3, Path(0, 0, 2, 0), false) && FileRights(m1, m2, cr3, Path(0, 0, 3, 1), true)
    ensures !CanWrite(m2, cr3, Path(0, 0, 3, 1))
  {
    FlagsUnfold(m, cr3, Path(0, 0, 2, 0));
    FlagsUnfold(m1, cr3, Path(0, 0, 3, 1));
    assert EntryAt(m1, cr3, Path(0, 0, 2, 0), 4) == At(m1, cr3, 0) == EntryAt(m1, cr3, Path(0, 0, 3, 1), 4);
    hide FlagsAt, Existed, CanWrite;
    assert At(m1, cr3, 0).flags == 0 | UserFlags(false);
  }

  // ---------------------------------------------------------------- the other pages

  lemma RightsFollow(m: Memory, m': Memory, r: nat, q: Path)
    requires Missing(m, r, q) == 0 ==> SameRights(m, m', r, q)
    requires Missing(m, r, q) != 0 ==> Hardware(m', r, q) == Hardware(m, r, q)
    ensures CanWrite(m', r, q) <==> CanWrite(m, r, q)
  {
    hide EntryAt;
    WritableSeen(m, r, q);
    WritableSeen(m', r, q);
  }

  lemma WritableSeen(m: Memory, r: nat, q: Path)
    ensures CanWrite(m, r, q) ==> Hardware(m, r, q).Some?
  {
    if CanWrite(m, r, q) {
      assert Writable(EntryAt(m, r, q, 4)) && Writable(EntryAt(m, r, q, 3)) && Writable(EntryAt(m, r, q, 2));
    }
  }

  /** A file fault gives and takes the right to write to no other page of any space. */
  lemma FileFaultKeepsRights(sys: System, g: View, cr3: nat, data: File, seg: Segment, address: nat, r: nat, q: Path)
    requires Inv(sys, g) && cr3 in sys.spaces && Within(seg, data) && seg.start <= address < WORD_LIMIT
    requires var p := PathOf(Util.PageRoundUp(address));
             && UserPage(p) && g.n + 1 + Missing(sys.machine.mem, cr3, p) <= |sys.machine.pages|
             && r in sys.spaces && (r != cr3 || q != p)
    ensures var m, m' := sys.machine.mem, FileFaulted(sys.machine, cr3, data, seg, address).mem;
            CanWrite(m', r, q) <==> CanWrite(m, r, q)
  {
    hide Missing, PathOf, Shape, KernelSpace, EagerPage, FreePages, AllocAddr, MapPage, IsLeafMap, CanWrite, SameRights,
         AllocPages, Took, SameTranslationsBut, SameData, OthersSame, AllocMany, Sound, Dense, Walk, EntryAt, Hardware;
    var s, a, f := sys.machine, Util.PageRoundUp(address), g.base + PAGE * g.n;
    var flags := if seg.write then READ_WRITE else READ_ONLY;
    FlagsPresent();
    PageAligned(s.pages, g.base, g.n);
    AllocDense(s.pages, g.base, g.n);
    var s1 := Machine(s.mem, AllocPages(s.pages));
    BackedAfterAlloc(s, g.w, g.base, g.n, s1);
    var w' := MapPageDense(s1, g.w, g.base, g.n + 1, a, f, flags, cr3);
    var m1 := MapPage(s1, a, f, flags, cr3).mem;
    var m' := m1[f := Data(EagerPage(data, seg, a))];
    SameTablesSight(m1, m', w');
    if Missing(s.mem, r, q) == 0 {
      MapKeepsEntries(s1, g.w, g.base, g.n + 1, a, f, flags, cr3, r, q);
      RightsMissing(s.mem, m1, r, q);
      DataKeepsEntries(m1, w', f, Data(EagerPage(data, seg, a)), r, q);
      RightsTwice(s.mem, m1, m', r, q);
    }
    MapSight(s1, g.w, g.base, g.n + 1, a, f, flags, cr3);
    RightsFollow(s.mem, m', r, q);
  }

  lemma RightsMissing(m: Memory, m': Memory, r: nat, q: Path)
    requires SameRights(m, m', r, q)
    ensures Missing(m', r, q) == 0
  {
  }

  lemma RightsTwice(m: Memory, m1: Memory, m2: Memory, r: nat, q: Path)
    requires SameRights(m, m1, r, q) && SameRights(m1, m2, r, q)
    ensures SameRights(m, m2, r, q)
  {
    hide EntryAt;
  }

  // ---------------------------------------------------------------- regions without a file

  lemma PlusTwice(f: bv12, flags: bv12)
    ensures Plus(Plus(f, flags), flags) == Plus(f, flags)
  {
  }

  /** The flags are added at every level, made or found. */
  lemma FlagsFirstThenMade(m: Memory, m0: Memory, m': Memory, cr3: nat, p: Path, flags: bv12)
    requires Missing(m0, cr3, p) == Missing(m, cr3, p) && MadeWith(m0, m', cr3, p, flags)
    requires forall k | 1 <= k <= 4 :: ReachedAt(m, m0, cr3, p, flags, k)
    ensures forall k | 1 <= k <= 4 :: EntryAt(m', cr3, p, k).flags == FlagsAt(m, cr3, p, k) | flags
  {
    hide EntryAt, Missing, FlagsAt, Plus;
    forall k | 1 <= k <= 4
      ensures EntryAt(m', cr3, p, k).flags == Plus(FlagsAt(m, cr3, p, k), flags)
    {
      assert ReachedAt(m, m0, cr3, p, flags, k);
      PlusTwice(FlagsAt(m, cr3, p, k), flags);
    }
    PlusIs(m, cr3, p, flags);
  }

  lemma PlusIs(m: Memory, cr3: nat, p: Path, flags: bv12)
    ensures forall k | 1 <= k <= 4 :: Plus(FlagsAt(m, cr3, p, k), flags) == FlagsAt(m, cr3, p, k) | flags
  {
    hide FlagsAt;
  }

  /** An anonymous fault gives the page the region's permissions whatever the tables allowed that
      were there: it can be read, and it can be written if the region is writable, and otherwise
      if and only if all four levels had the write flag before. */
  lemma AnonFaultPermits(sys: System, g: View, cr3: nat, address: nat, write: bool)
    requires Inv(sys, g) && cr3 in sys.spaces && PAGE <= address < WORD_LIMIT
    requires var p := PathOf(Util.PageRoundUp(address));
             UserPage(p) && g.n + 1 + Missing(sys.machine.mem, cr3, p) <= |sys.machine.pages|
    ensures var m, m' := sys.machine.mem, AnonFaulted(sys.machine, cr3, address, write).mem;
            var p := PathOf(Util.PageRoundUp(address));
            && (forall k | 1 <= k <= 4 :: EntryAt(m', cr3, p, k).flags == FlagsAt(m, cr3, p, k) | UserFlags(write))
            && CanRead(m', cr3, p)
            && (CanWrite(m', cr3, p) <==> write || forall k | 1 <= k <= 4 :: HasWrite(FlagsAt(m, cr3, p, k)))
  {
    hide FillPage, Missing, PathOf, Shape, Backed, KernelSpace, IsLeafMap, MadeWith, ChangeFlags, FlagsAt, EntryAt,
         Readable, HasWrite, UserFlags, ReachedAt;
    var m, a := sys.machine.mem, Util.PageRoundUp(address);
    var m', p := AnonFaulted(sys.machine, cr3, address, write).mem, PathOf(a);
    UserFlagsAre(write);
    FillFlags(sys, g, cr3, a, UserFlags(write), true, seq(4096, _ => 0));
    ChangeFlagsReaches(m, g.w, cr3, p, UserFlags(write));
    FlagsFirstThenMade(m, ChangeFlags(m, cr3, p, UserFlags(write)), m', cr3, p, UserFlags(write));
    forall k | 1 <= k <= 4
      ensures Readable(EntryAt(m', cr3, p, k).flags)
      ensures Writable(EntryAt(m', cr3, p, k)) <==> write || HasWrite(FlagsAt(m, cr3, p, k))
    {
      UserFlagsMean(FlagsAt(m, cr3, p, k), write);
    }
  }

  lemma UserFlagsAre(write: bool)
    ensures UserFlags(write) == (if write then READ_WRITE else READ_ONLY) && UserFlags(write) & PRESENT == PRESENT
  {
  }
}
