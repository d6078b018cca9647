/** fork's copy_vm (sys/process.c): the parent's pages are made shareable and mapped into
    the child one by one, each with one more reference. */
module Fork {
  import opened Basics
  import opened PageList
  import opened PageTables
  import opened Mapping
  import opened PageFlags
  import opened TableCopy
  import opened Leaves
  import opened Sharing

  /** The bounds of a region; the entry of the stack has them the other way round. */
  function Low(r: Span): (a: nat)
  {
    if r.hi < r.lo then r.hi else r.lo
  }

  function High(r: Span): (a: nat)
  {
    if r.hi < r.lo then r.lo else r.hi
  }

  /** The addresses a loop in steps of a page visits. */
  function Addresses(lo: nat, hi: nat): (l: seq<nat>)
    decreases hi - lo
  {
    if hi <= lo then [] else [lo] + Addresses(lo + PAGE, hi)
  }

  function Visited(regions: seq<Span>): (l: seq<nat>)
  {
    if regions == [] then []
    else Addresses(Low(regions[0]), High(regions[0])) + Visited(regions[1..])
  }

  lemma {:induction false} AddressesExact(lo: nat, hi: nat, x: nat)
    ensures x in Addresses(lo, hi) <==> lo <= x < hi && (x - lo) % 4096 == 0
    decreases hi - lo
  {
    if lo < hi {
      AddressesExact(lo + PAGE, hi, x);
    }
  }

  /** A loop in steps of a page from one bound of the region up to the other, whichever way round
      they are, comes to `x`. */
  predicate Steps(r: Span, x: nat)
  {
    || (r.lo <= x < r.hi && (x - r.lo) % 4096 == 0)
    || (r.hi <= x < r.lo && (x - r.hi) % 4096 == 0)
  }

  /** The addresses visited are those that the loop over some region comes to. */
  lemma {:induction false} VisitedExact(regions: seq<Span>, x: nat)
    ensures x in Visited(regions) <==> exists i :: 0 <= i < |regions| && Steps(regions[i], x)
  {
    if regions != [] {
      AddressesExact(Low(regions[0]), High(regions[0]), x);
      VisitedExact(regions[1..], x);
      assert forall i | 1 <= i < |regions| :: regions[i] == regions[1..][i - 1];
      assert forall i | 0 <= i < |regions| - 1 :: regions[1..][i] == regions[i + 1];
    }
  }

  /** The first loop of copy_vm. */
  function Protect(m: Memory, parent: nat, l: seq<nat>): (r: Memory)
    decreases |l|
  {
    if l == [] then m else Protect(ChangeFlags(m, parent, PathOf(l[0]), READ_ONLY), parent, l[1..])
  }

  /** One round of the second loop: the reference is counted even if the map refused an
      unaligned address. */
  function ShareOne(s: Machine, parent: nat, child: nat, i: nat): (r: Machine)
  {
    var a := Walk(s.mem, parent, PathOf(i));
    if a <= 0 then s
    else
      var s' := MapPage(s, i, a, READ_ONLY, child);
      s'.(pages := IncPages(s'.pages, a))
  }

  /** The second loop of copy_vm. */
  function Share(s: Machine, parent: nat, child: nat, l: seq<nat>): (r: Machine)
    decreases |l|
  {
    if l == [] then s else Share(ShareOne(s, parent, child, l[0]), parent, child, l[1..])
  }

  // ---------------------------------------------------------------- on leaf maps

  /** What one round does to the leaf map. */
  function SharedOne(t: LeafMap, parent: nat, child: nat, i: nat): (r: LeafMap)
  {
    if (parent, PathOf(i)) in t && i % PAGE == 0
    then t[(child, PathOf(i)) := t[(parent, PathOf(i))]]
    else t
  }

  function Shared(t: LeafMap, parent: nat, child: nat, l: seq<nat>): (r: LeafMap)
    decreases |l|
  {
    if l == [] then t else Shared(SharedOne(t, parent, child, l[0]), parent, child, l[1..])
  }

  /** A round that counts a reference also maps a page. */
  predicate GoodRound(t: LeafMap, parent: nat, child: nat, i: nat)
  {
    (parent, PathOf(i)) in t ==> i % PAGE == 0 && (child, PathOf(i)) !in t
  }

  predicate Good(t: LeafMap, parent: nat, child: nat, l: seq<nat>)
    decreases |l|
  {
    l == [] || (GoodRound(t, parent, child, l[0]) && Good(SharedOne(t, parent, child, l[0]), parent, child, l[1..]))
  }

  /** A mapped address of `l` is aligned and no earlier address lies in the same page. */
  ghost predicate AlignedOnce(t: LeafMap, parent: nat, l: seq<nat>)
  {
    forall i | 0 <= i < |l| && (parent, PathOf(l[i])) in t ::
      l[i] % PAGE == 0 && forall j | 0 <= j < i :: PathOf(l[j]) != PathOf(l[i])
  }

  ghost predicate Untouched(t: LeafMap, child: nat, l: seq<nat>)
  {
    forall i | 0 <= i < |l| :: (child, PathOf(l[i])) !in t
  }

  /** For a child without pages, every round is good exactly when the mapped addresses
      visited are aligned and lie in different pages. */
  lemma {:induction false} GoodIffAlignedOnce(t: LeafMap, parent: nat, child: nat, l: seq<nat>)
    requires parent != child
    ensures Good(t, parent, child, l) ==> AlignedOnce(t, parent, l)
    ensures Untouched(t, child, l) && AlignedOnce(t, parent, l) ==> Good(t, parent, child, l)
    decreases |l|
  {
    if l != [] {
      var t1 := SharedOne(t, parent, child, l[0]);
      GoodIffAlignedOnce(t1, parent, child, l[1..]);
      if Good(t, parent, child, l) {
        GoodMeansAlignedOnce(t, t1, parent, child, l);
      }
      if Untouched(t, child, l) && AlignedOnce(t, parent, l) {
        assert forall i | 0 <= i < |l[1..]| :: l[1..][i] == l[i + 1];
        assert Untouched(t1, child, l[1..]);
      }
    }
  }

  lemma GoodMeansAlignedOnce(t: LeafMap, t1: LeafMap, parent: nat, child: nat, l: seq<nat>)
    requires parent != child && l != [] && t1 == SharedOne(t, parent, child, l[0])
    requires GoodRound(t, parent, child, l[0]) && AlignedOnce(t1, parent, l[1..]) && Good(t1, parent, child, l[1..])
    ensures AlignedOnce(t, parent, l)
  {
    hide PathOf;
    forall i | 0 <= i < |l| && (parent, PathOf(l[i])) in t
      ensures l[i] % PAGE == 0 && forall j | 0 <= j < i :: PathOf(l[j]) != PathOf(l[i])
    {
      if 0 < i {
        assert l[1..][i - 1] == l[i];
        assert forall j | 0 < j < i :: l[1..][j - 1] == l[j];
        if PathOf(l[0]) == PathOf(l[i]) {
          TakenStaysTaken(t1, parent, child, l[1..], i - 1);
          assert false;
        }
      }
    }
  }

  /** A page of the child once mapped makes a later round for it bad. */
  lemma {:induction false} TakenStaysTaken(t: LeafMap, parent: nat, child: nat, l: seq<nat>, i: nat)
    requires parent != child && i < |l| && Good(t, parent, child, l)
    requires (parent, PathOf(l[i])) in t && (child, PathOf(l[i])) in t
    ensures false
    decreases |l|
  {
    hide PathOf;
    if i != 0 {
      TakenStaysTaken(SharedOne(t, parent, child, l[0]), parent, child, l[1..], i - 1);
    }
  }

  /** The child's pages after the loop, in terms of the parent's. */
  lemma {:induction false} SharedPages(t: LeafMap, parent: nat, child: nat, l: seq<nat>, r: nat, q: Path)
    requires parent != child
    ensures r != child ==> Lookup(Shared(t, parent, child, l), r, q) == Lookup(t, r, q)
    ensures (exists i | 0 <= i < |l| :: l[i] % PAGE == 0 && PathOf(l[i]) == q) && (parent, q) in t ==>
              Lookup(Shared(t, parent, child, l), child, q) == Lookup(t, parent, q)
    ensures !(exists i | 0 <= i < |l| :: l[i] % PAGE == 0 && PathOf(l[i]) == q) || (parent, q) !in t ==>
              Lookup(Shared(t, parent, child, l), child, q) == Lookup(t, child, q)
    decreases |l|
  {
    hide PathOf;
    if l != [] {
      var t1 := SharedOne(t, parent, child, l[0]);
      SharedPages(t1, parent, child, l[1..], r, q);
      assert forall i | 0 < i < |l| :: l[1..][i - 1] == l[i];
      if exists i | 0 <= i < |l| :: l[i] % PAGE == 0 && PathOf(l[i]) == q {
        if !(exists i | 0 <= i < |l[1..]| :: l[1..][i] % PAGE == 0 && PathOf(l[1..][i]) == q) {
          assert l[0] % PAGE == 0 && PathOf(l[0]) == q;
        }
      } else {
        assert forall i | 0 <= i < |l[1..]| :: l[1..][i] == l[i + 1];
      }
    }
  }

  // ---------------------------------------------------------------- one round on the tables

  function Count(s: Machine, f: nat): (c: nat)
  {
    PageAt(s.pages, f).count
  }

  ghost predicate Placed(s: Machine, g: View, f: nat)
  {
    InList(f, g.base, g.n) && f !in g.w && f in s.mem && s.mem[f].Data?
  }

  /** No mapped frame has fewer references than pages, or is within `slack` of wrapping. */
  ghost predicate Covered(sys: System, g: View, slack: nat)
  {
    && Tabled(sys, g)
    && forall k | k in g.t ::
         && Placed(sys.machine, g, g.t[k])
         && Sharers(g.t, g.t[k]) <= Count(sys.machine, g.t[k])
         && Count(sys.machine, g.t[k]) + slack < COUNT_LIMIT
  }

  lemma InvCovers(sys: System, g: View)
    requires Inv(sys, g)
    ensures Covered(sys, g, 1)
  {
    hide Shape, KernelSpace, IsLeafMap, PageAt, Sharers;
    forall k | k in g.t
      ensures Placed(sys.machine, g, g.t[k]) && Sharers(g.t, g.t[k]) == Count(sys.machine, g.t[k])
      ensures Count(sys.machine, g.t[k]) + 1 < COUNT_LIMIT
    {
      assert Counted(sys.machine, g, g.t[k]);
      SharersBound(sys.machine.mem, g.w, sys.spaces, g.t, g.base, g.n, g.t[k]);
    }
  }

  /** Only tables of `child` were written, and tables were only added. */
  ghost predicate OnlyChild(m: Memory, m': Memory, w: Places, w': Places, child: nat)
  {
    Extends(w, w') && OthersSame(m, m', w, child, Space(child))
  }

  lemma OnlyChildTransitive(m: Memory, m1: Memory, m2: Memory, w: Places, w1: Places, w2: Places, child: nat)
    requires OnlyChild(m, m1, w, w1, child) && OnlyChild(m1, m2, w1, w2, child)
    ensures OnlyChild(m, m2, w, w2, child)
  {
  }

  lemma MapSteps(sys: System, g: View, cr3: nat, i: nat, a: nat, flags: bv12) returns (w': Places)
    requires Tabled(sys, g) && cr3 in sys.spaces && i % PAGE == 0 && UserPage(PathOf(i)) && a % PAGE == 0
    requires flags & PRESENT == PRESENT && g.n + Missing(sys.machine.mem, cr3, PathOf(i)) <= |sys.machine.pages|
    ensures var s', k := MapPage(sys.machine, i, a, flags, cr3), Missing(sys.machine.mem, cr3, PathOf(i));
            && Stepped(sys, g, s', w', g.n + k, cr3, PathOf(i)) && Walk(s'.mem, cr3, PathOf(i)) == a
            && s'.pages == AllocMany(sys.machine.pages, k) && OnlyChild(sys.machine.mem, s'.mem, g.w, w', cr3)
  {
    hide Shape, KernelSpace, Walk, Missing, MapPage, SameTranslationsBut, SameData, OthersSame, PathOf, Took, AllocMany;
    var s := sys.machine;
    w' := MapPageDense(s, g.w, g.base, g.n, i, a, flags, cr3);
    KernelKept(s.mem, MapPage(s, i, a, flags, cr3).mem, g.w, w', sys.kernel, cr3);
    TookSize(s.pages, MapPage(s, i, a, flags, cr3).pages, g.base, g.n, g.n + Missing(s.mem, cr3, PathOf(i)));
  }

  lemma TookSize(s: seq<Page>, s': seq<Page>, base: nat, n: nat, n': nat)
    requires Took(s, s', base, n, n')
    ensures |s'| == |s|
  {
  }

  /** An increment reaches the count of its page only. */
  lemma CountInc(s: seq<Page>, base: nat, n: nat, f: nat, a: nat)
    requires Sound(s, base) && Dense(s, n) && InList(f, base, n) && InList(a, base, n)
    requires PageAt(s, f).count + 1 < COUNT_LIMIT
    ensures PageAt(IncPages(s, a), f).count == PageAt(s, f).count + if f == a then 1 else 0
  {
    CountAt(s, base, f, n);
    var s' := IncPages(s, a);
    assert Listed(s', base);
    CountAt(s', base, f, n);
  }

  lemma IncKeeps(sys: System, g: View, a: nat)
    requires Tabled(sys, g) && InList(a, g.base, g.n)
    ensures Tabled(sys.(machine := sys.machine.(pages := IncPages(sys.machine.pages, a))), g)
  {
    hide Shape, KernelSpace, IsLeafMap;
    CountAt(sys.machine.pages, g.base, a, g.n);
    ApplyKeeps(sys.machine.pages, g.base, Inc(a));
  }

  /** What a round does to the references: one more for the frame of a mapped page. */
  ghost predicate Bumped(s: Machine, s': Machine, t: LeafMap, a: Option<nat>)
  {
    forall k | k in t :: Count(s', t[k]) == Count(s, t[k]) + if a == Some(t[k]) then 1 else 0
  }

  lemma {:induction false} RoundMaps(sys: System, g: View, parent: nat, child: nat, i: nat) returns (g': View)
    requires Covered(sys, g, 1) && parent in sys.spaces && child in sys.spaces && UserPage(PathOf(i))
    requires (parent, PathOf(i)) in g.t && i % PAGE == 0
    requires g.n + Missing(sys.machine.mem, child, PathOf(i)) <= |sys.machine.pages|
    ensures g'.t == SharedOne(g.t, parent, child, i) && g'.base == g.base && g.n <= g'.n
    ensures Rounded(sys, g, MapPage(sys.machine, i, g.t[(parent, PathOf(i))], READ_ONLY, child), g')
    ensures var s' := MapPage(sys.machine, i, g.t[(parent, PathOf(i))], READ_ONLY, child);
            OnlyChild(sys.machine.mem, s'.mem, g.w, g'.w, child)
  {
    hide Shape, KernelSpace, Walk, Missing, MapPage, PathOf, Stepped, PageAt, Sharers, IsLeafMap, Backed, AllocMany;
    var p, a := PathOf(i), g.t[(parent, PathOf(i))];
    FramePage(sys, g, a);
    FlagsPresent();
    var w' := MapSteps(sys, g, child, i, a, READ_ONLY);
    var s', n' := MapPage(sys.machine, i, a, READ_ONLY, child), g.n + Missing(sys.machine.mem, child, p);
    StepLeafMap(sys, g, s', w', n', child, p, a);
    g' := View(w', g.base, n', g.t[(child, p) := a]);
    forall k | k in g.t
      ensures Placed(s', g', g.t[k]) && g.t[k] in sys.machine.mem && s'.mem[g.t[k]] == sys.machine.mem[g.t[k]]
      ensures Count(s', g.t[k]) == Count(sys.machine, g.t[k])
    {
      CoveredBefore(sys, g, s', w', n', child, p, k);
    }
  }

  /** The tables after the map of a round, before the count. */
  ghost predicate Rounded(sys: System, g: View, s': Machine, g': View)
  {
    && Tabled(sys.(machine := s'), g') && |s'.pages| == |sys.machine.pages|
    && (forall k | k in g'.t :: g'.t[k] in g.t.Values)
    && forall k | k in g.t ::
         && Placed(s', g', g.t[k]) && Count(s', g.t[k]) == Count(sys.machine, g.t[k])
         && g.t[k] in sys.machine.mem && s'.mem[g.t[k]] == sys.machine.mem[g.t[k]]
  }

  lemma FramePage(sys: System, g: View, a: nat)
    requires Tabled(sys, g) && InList(a, g.base, g.n)
    ensures a % PAGE == 0 && 0 < a
  {
  }

  lemma CoveredBefore(sys: System, g: View, s': Machine, w': Places, n': nat, cr3: nat, p: Path, k: Leaf)
    requires Covered(sys, g, 1) && Stepped(sys, g, s', w', n', cr3, p) && k in g.t
    ensures var f := g.t[k];
            && InList(f, g.base, n') && f !in w'
            && f in s'.mem && s'.mem[f] == sys.machine.mem[f] && s'.mem[f].Data?
            && Count(s', f) == Count(sys.machine, f)
  {
    hide Shape, KernelSpace, Walk, SameTranslationsBut, Extends, IsLeafMap, PageAt, Sharers;
    SharedIsPositive(g.t, k);
    TookKeepsCount(sys.machine.pages, s'.pages, g.base, g.n, n', g.t[k]);
  }

  lemma SharersUpdate(t: LeafMap, k: Leaf, a: nat, f: nat)
    ensures Sharers(t[k := a], f) <= Sharers(t, f) + if f == a then 1 else 0
  {
    if f == a {
      assert LeavesOf(t[k := a], f) == LeavesOf(t, f) + {k};
    } else {
      assert LeavesOf(t[k := a], f) == LeavesOf(t, f) - {k};
    }
  }

  /** The count of a round, after its map. */
  lemma RoundCounts(sys: System, g: View, s1: Machine, g': View, a: nat, slack: nat)
    requires Covered(sys, g, slack) && 1 <= slack && a in g.t.Values && Rounded(sys, g, s1, g')
    requires forall f :: Sharers(g'.t, f) <= Sharers(g.t, f) + if f == a then 1 else 0
    ensures var s' := s1.(pages := IncPages(s1.pages, a));
            && Covered(sys.(machine := s'), g', slack - 1)
            && Bumped(sys.machine, s', g.t, Some(a)) && SameContents(sys.machine.mem, s'.mem, g.t)
  {
    hide Shape, KernelSpace, IsLeafMap, PageAt, Sharers, IncPages;
    var s' := s1.(pages := IncPages(s1.pages, a));
    var j :| j in g.t && g.t[j] == a;
    IncKeeps(sys.(machine := s1), g', a);
    forall k | k in g.t
      ensures Count(s', g.t[k]) == Count(sys.machine, g.t[k]) + if a == g.t[k] then 1 else 0
    {
      CountInc(s1.pages, g'.base, g'.n, g.t[k], a);
    }
    forall k | k in g'.t
      ensures Placed(s', g', g'.t[k]) && Sharers(g'.t, g'.t[k]) <= Count(s', g'.t[k])
      ensures Count(s', g'.t[k]) + slack - 1 < COUNT_LIMIT
    {
      var i :| i in g.t && g.t[i] == g'.t[k];
      assert Placed(s1, g', g.t[i]);
    }
  }

  /** The frames a round needs for new tables are there. */
  ghost predicate RoundRoom(s: Machine, t: LeafMap, n: nat, parent: nat, child: nat, i: nat)
  {
    (parent, PathOf(i)) in t && i % PAGE == 0 ==> n + Missing(s.mem, child, PathOf(i)) <= |s.pages|
  }

  /** One round, aligned or not, fresh or repeated. */
  lemma RoundKeeps(sys: System, g: View, parent: nat, child: nat, i: nat, slack: nat) returns (g': View)
    requires Covered(sys, g, slack) && 1 <= slack && parent in sys.spaces && child in sys.spaces
    requires UserPage(PathOf(i)) && RoundRoom(sys.machine, g.t, g.n, parent, child, i)
    ensures Covered(sys.(machine := ShareOne(sys.machine, parent, child, i)), g', slack - 1)
    ensures g'.t == SharedOne(g.t, parent, child, i) && g'.base == g.base
    ensures RoundEffect(sys.machine, ShareOne(sys.machine, parent, child, i), g.t, parent, i)
    ensures OnlyChild(sys.machine.mem, ShareOne(sys.machine, parent, child, i).mem, g.w, g'.w, child)
  {
    hide Shape, KernelSpace, Walk, Missing, PathOf, PageAt, Sharers, Backed, IncPages, MapPage;
    var s, p := sys.machine, PathOf(i);
    assert Translate(s.mem, parent, p) == Lookup(g.t, parent, p);
    g' := g;
    if (parent, p) in g.t {
      var a := g.t[(parent, p)];
      if i % PAGE == 0 {
        g' := RoundMaps(sys, g, parent, child, i);
        forall f
          ensures Sharers(g'.t, f) <= Sharers(g.t, f) + if f == a then 1 else 0
        {
          SharersUpdate(g.t, (child, p), a, f);
        }
        RoundCounts(sys, g, MapPage(s, i, a, READ_ONLY, child), g', a, slack);
      } else {
        MapRefuses(s, i, a, child);
        RoundCounts(sys, g, s, g, a, slack);
      }
    }
  }

  lemma MapRefuses(s: Machine, i: nat, a: nat, child: nat)
    requires i % PAGE != 0
    ensures MapPage(s, i, a, READ_ONLY, child) == s
  {
  }

  ghost predicate RoundEffect(s: Machine, s': Machine, t: LeafMap, parent: nat, i: nat)
  {
    && |s'.pages| == |s.pages|
    && Bumped(s, s', t, Lookup(t, parent, PathOf(i))) && SameContents(s.mem, s'.mem, t)
  }

  // ---------------------------------------------------------------- the whole loop

  /** Every round finds the frames it needs for new tables. */
  ghost predicate ShareRoom(s: Machine, t: LeafMap, parent: nat, child: nat, l: seq<nat>)
    decreases |l|
  {
    l == [] ||
    (RoundRoom(s, t, FirstFree(s.pages), parent, child, l[0]) &&
     ShareRoom(ShareOne(s, parent, child, l[0]), SharedOne(t, parent, child, l[0]), parent, child, l[1..]))
  }

  ghost predicate UserAddresses(l: seq<nat>)
  {
    forall i | 0 <= i < |l| :: UserPage(PathOf(l[i]))
  }

  lemma FirstFreeIs(sys: System, g: View)
    requires Tabled(sys, g)
    ensures FirstFree(sys.machine.pages) == g.n
  {
    FirstFreeUnique(sys.machine.pages, g.n);
  }

  /** A good round keeps every count equal to the number of pages. */
  lemma GoodRoundKeeps(sys: System, g: View, parent: nat, child: nat, i: nat) returns (g': View)
    requires Inv(sys, g) && parent in sys.spaces && child in sys.spaces
    requires UserPage(PathOf(i)) && RoundRoom(sys.machine, g.t, g.n, parent, child, i)
    requires GoodRound(g.t, parent, child, i)
    ensures Inv(sys.(machine := ShareOne(sys.machine, parent, child, i)), g')
    ensures g'.t == SharedOne(g.t, parent, child, i) && g'.base == g.base
    ensures |ShareOne(sys.machine, parent, child, i).pages| == |sys.machine.pages|
    ensures SameContents(sys.machine.mem, ShareOne(sys.machine, parent, child, i).mem, g.t)
    ensures OnlyChild(sys.machine.mem, ShareOne(sys.machine, parent, child, i).mem, g.w, g'.w, child)
  {
    hide Tabled, Shape, Walk, Missing, PathOf, PageAt, Sharers, ShareOne;
    InvCovers(sys, g);
    g' := RoundKeeps(sys, g, parent, child, i, 1);
    var s' := ShareOne(sys.machine, parent, child, i);
    forall k | k in g'.t
      ensures Counted(s', g', g'.t[k])
    {
      assert Placed(s', g', g'.t[k]);
      ValueKept(g.t, parent, child, i, k);
      var j :| j in g.t && g.t[j] == g'.t[k];
      assert Counted(sys.machine, g, g.t[j]);
      if (parent, PathOf(i)) in g.t {
        AddLeaf(g.t, (child, PathOf(i)), g.t[(parent, PathOf(i))], g'.t[k]);
      }
    }
  }

  lemma ValueKept(t: LeafMap, parent: nat, child: nat, i: nat, k: Leaf)
    requires k in SharedOne(t, parent, child, i)
    ensures exists j | j in t :: t[j] == SharedOne(t, parent, child, i)[k]
  {
    hide PathOf;
    if k in t && SharedOne(t, parent, child, i)[k] == t[k] {
    } else {
      assert t[(parent, PathOf(i))] == SharedOne(t, parent, child, i)[k];
    }
  }

  /** copy_vm's second loop over good addresses keeps every count exact, and the leaf map
      gains exactly the parent's pages that were visited. */
  lemma {:induction false} ShareKeeps(sys: System, g: View, parent: nat, child: nat, l: seq<nat>) returns (g': View)
    requires Inv(sys, g) && parent in sys.spaces && child in sys.spaces
    requires UserAddresses(l) && ShareRoom(sys.machine, g.t, parent, child, l)
    requires Good(g.t, parent, child, l)
    ensures Inv(sys.(machine := Share(sys.machine, parent, child, l)), g')
    ensures g'.t == Shared(g.t, parent, child, l) && g'.base == g.base
    ensures |Share(sys.machine, parent, child, l).pages| == |sys.machine.pages|
    ensures SameContents(sys.machine.mem, Share(sys.machine, parent, child, l).mem, g.t)
    ensures OnlyChild(sys.machine.mem, Share(sys.machine, parent, child, l).mem, g.w, g'.w, child)
    decreases |l|
  {
    hide Tabled, ShareOne, PathOf, SharedOne, GoodRound, Counted;
    g' := g;
    SameContentsReflexive(sys, g);
    if l != [] {
      FirstFreeIs(sys, g);
      var g1 := GoodRoundKeeps(sys, g, parent, child, l[0]);
      var s1 := ShareOne(sys.machine, parent, child, l[0]);
      assert UserAddresses(l[1..]);
      g' := ShareKeeps(sys.(machine := s1), g1, parent, child, l[1..]);
      OnlyChildTransitive(sys.machine.mem, s1.mem, Share(s1, parent, child, l[1..]).mem, g.w, g1.w, g'.w, child);
      ContentsCarried(sys.machine.mem, s1.mem, Share(s1, parent, child, l[1..]).mem, g.t, parent, child, l[0]);
    }
  }

  lemma SameContentsReflexive(sys: System, g: View)
    requires Inv(sys, g)
    ensures SameContents(sys.machine.mem, sys.machine.mem, g.t)
  {
    forall k | k in g.t
      ensures g.t[k] in sys.machine.mem
    {
      assert Counted(sys.machine, g, g.t[k]);
    }
  }

  lemma ContentsCarried(m: Memory, m1: Memory, m2: Memory, t: LeafMap, parent: nat, child: nat, i: nat)
    requires SameContents(m, m1, t) && SameContents(m1, m2, SharedOne(t, parent, child, i))
    requires GoodRound(t, parent, child, i)
    ensures SameContents(m, m2, t)
  {
    hide PathOf;
    assert forall k | k in t :: k in SharedOne(t, parent, child, i) && SharedOne(t, parent, child, i)[k] == t[k];
  }

  // ---------------------------------------------------------------- exactly when the counts stay exact

  /** The frame of leaf `k` has more references than pages. */
  ghost predicate OverCounted(s: Machine, t: LeafMap, k: Leaf)
  {
    k in t && Sharers(t, t[k]) < Count(s, t[k])
  }

  ghost predicate Mirrors(t: LeafMap, parent: nat, child: nat)
  {
    forall q: Path | (child, q) in t && (parent, q) in t :: t[(child, q)] == t[(parent, q)]
  }

  lemma RoundKeepsExcess(s: Machine, s': Machine, t: LeafMap, parent: nat, child: nat, i: nat, k: Leaf)
    requires RoundEffect(s, s', t, parent, i) && OverCounted(s, t, k) && k.0 != child
    ensures OverCounted(s', SharedOne(t, parent, child, i), k)
  {
    hide PathOf, Count, Sharers;
    if (parent, PathOf(i)) in t {
      SharersUpdate(t, (child, PathOf(i)), t[(parent, PathOf(i))], t[k]);
    }
  }

  lemma BadRoundExceeds(s: Machine, s': Machine, t: LeafMap, parent: nat, child: nat, i: nat)
    requires RoundEffect(s, s', t, parent, i) && parent != child && Mirrors(t, parent, child)
    requires !GoodRound(t, parent, child, i)
    requires Sharers(t, t[(parent, PathOf(i))]) <= Count(s, t[(parent, PathOf(i))])
    ensures OverCounted(s', SharedOne(t, parent, child, i), (parent, PathOf(i)))
  {
    hide PathOf, Count, Sharers;
    if i % PAGE == 0 {
      assert t[(child, PathOf(i)) := t[(parent, PathOf(i))]] == t;
    }
  }

  /** A frame with too many references keeps them through the rest of the loop. */
  lemma {:induction false} ExcessStays(sys: System, g: View, parent: nat, child: nat, l: seq<nat>, k: Leaf)
    requires Covered(sys, g, |l|) && parent in sys.spaces && child in sys.spaces
    requires UserAddresses(l) && ShareRoom(sys.machine, g.t, parent, child, l)
    requires OverCounted(sys.machine, g.t, k) && k.0 != child
    ensures OverCounted(Share(sys.machine, parent, child, l), Shared(g.t, parent, child, l), k)
    decreases |l|
  {
    hide Tabled, ShareOne, PathOf, SharedOne, OverCounted;
    if l != [] {
      FirstFreeIs(sys, g);
      var g1 := RoundKeeps(sys, g, parent, child, l[0], |l|);
      var s1 := ShareOne(sys.machine, parent, child, l[0]);
      RoundKeepsExcess(sys.machine, s1, g.t, parent, child, l[0], k);
      assert UserAddresses(l[1..]);
      ExcessStays(sys.(machine := s1), g1, parent, child, l[1..], k);
    }
  }

  /** A bad round anywhere leaves some frame of the parent with too many references. */
  lemma {:induction false} BadExceeds(sys: System, g: View, parent: nat, child: nat, l: seq<nat>) returns (k: Leaf)
    requires Covered(sys, g, |l|) && parent in sys.spaces && child in sys.spaces && parent != child
    requires UserAddresses(l) && ShareRoom(sys.machine, g.t, parent, child, l) && Mirrors(g.t, parent, child)
    requires !Good(g.t, parent, child, l)
    ensures OverCounted(Share(sys.machine, parent, child, l), Shared(g.t, parent, child, l), k)
    decreases |l|
  {
    hide Tabled, ShareOne, PathOf, SharedOne, OverCounted;
    FirstFreeIs(sys, g);
    var g1 := RoundKeeps(sys, g, parent, child, l[0], |l|);
    var s1 := ShareOne(sys.machine, parent, child, l[0]);
    assert UserAddresses(l[1..]);
    if GoodRound(g.t, parent, child, l[0]) {
      MirrorsKept(g.t, parent, child, l[0]);
      k := BadExceeds(sys.(machine := s1), g1, parent, child, l[1..]);
    } else {
      k := (parent, PathOf(l[0]));
      BadRoundExceeds(sys.machine, s1, g.t, parent, child, l[0]);
      ExcessStays(sys.(machine := s1), g1, parent, child, l[1..], k);
    }
  }

  lemma MirrorsKept(t: LeafMap, parent: nat, child: nat, i: nat)
    requires Mirrors(t, parent, child) && parent != child
    ensures Mirrors(SharedOne(t, parent, child, i), parent, child)
  {
    hide PathOf;
  }

  lemma {:induction false} ShareLeafMap(sys: System, g: View, parent: nat, child: nat, l: seq<nat>) returns (g': View)
    requires Covered(sys, g, |l|) && parent in sys.spaces && child in sys.spaces
    requires UserAddresses(l) && ShareRoom(sys.machine, g.t, parent, child, l)
    ensures Tabled(sys.(machine := Share(sys.machine, parent, child, l)), g')
    ensures g'.t == Shared(g.t, parent, child, l)
    decreases |l|
  {
    hide Tabled, ShareOne, PathOf, SharedOne, OverCounted;
    g' := g;
    if l != [] {
      FirstFreeIs(sys, g);
      var g1 := RoundKeeps(sys, g, parent, child, l[0], |l|);
      assert UserAddresses(l[1..]);
      g' := ShareLeafMap(sys.(machine := ShareOne(sys.machine, parent, child, l[0])), g1, parent, child, l[1..]);
    }
  }

  /** For a child without pages and counts that cannot wrap: after the loop every count is
      the number of pages mapped to the frame if and only if the mapped addresses visited
      are aligned and no two lie in the same page. */
  lemma ShareExact(sys: System, g: View, parent: nat, child: nat, l: seq<nat>) returns (g': View)
    requires Inv(sys, g) && parent in sys.spaces && child in sys.spaces && parent != child
    requires UserAddresses(l) && ShareRoom(sys.machine, g.t, parent, child, l)
    requires forall k | k in g.t :: k.0 != child && Count(sys.machine, g.t[k]) + |l| < COUNT_LIMIT
    ensures Tabled(sys.(machine := Share(sys.machine, parent, child, l)), g')
    ensures g'.t == Shared(g.t, parent, child, l)
    ensures (forall k | k in g'.t :: Count(Share(sys.machine, parent, child, l), g'.t[k]) == Sharers(g'.t, g'.t[k]))
            <==> AlignedOnce(g.t, parent, l)
  {
    hide Tabled, Share, Shared, Good, PathOf, Count, Sharers;
    assert Covered(sys, g, |l|) by { InvCovers(sys, g); CountIsSharers(sys, g); }
    g' := ShareLeafMap(sys, g, parent, child, l);
    GoodIffAlignedOnce(g.t, parent, child, l);
    if Good(g.t, parent, child, l) {
      var g2 := ShareKeeps(sys, g, parent, child, l);
      CountIsSharers(sys.(machine := Share(sys.machine, parent, child, l)), g2);
    } else {
      var k := BadExceeds(sys, g, parent, child, l);
    }
  }

  lemma CountIsSharers(sys: System, g: View)
    requires Inv(sys, g)
    ensures forall k | k in g.t :: Count(sys.machine, g.t[k]) == Sharers(g.t, g.t[k])
  {
    hide Tabled, PageAt, Sharers;
    forall k | k in g.t
      ensures Count(sys.machine, g.t[k]) == Sharers(g.t, g.t[k])
    {
      assert Counted(sys.machine, g, g.t[k]);
    }
  }

  // ---------------------------------------------------------------- fork

  /** The kernel takes `k` frames for its own records. */
  function Reserve(s: Machine, k: nat): (r: Machine)
  {
    if k == 0 then s else TakeScratch(Reserve(s, k - 1))
  }

  /** copy_vm once the child has its top-level table. */
  function CopyVm(s: Machine, parent: nat, child: nat, l: seq<nat>): (r: Machine)
  {
    Share(s.(mem := Protect(s.mem, parent, l)), parent, child, l)
  }

  /** Frames for the child's records, a copy of the kernel's tables, and copy_vm. */
  function ForkMemory(s: Machine, kernel: nat, parent: nat, l: seq<nat>, records: nat): (r: Machine)
  {
    var s1 := Reserve(s, records);
    CopyVm(CopyTables(s1, kernel, 4), parent, AllocAddr(s1.pages), l)
  }

  ghost predicate Room(s: Machine, k: nat)
  {
    FirstFree(s.pages) + k <= |s.pages|
  }

  /** The allocations of a fork all succeed. */
  ghost predicate ForkRoom(s: Machine, t: LeafMap, kernel: nat, parent: nat, l: seq<nat>, records: nat)
  {
    && Room(s, records)
    && var s1 := Reserve(s, records);
       && Room(s1, Nodes(s1.mem, kernel, 4))
       && var s2 := CopyTables(s1, kernel, 4);
          ShareRoom(s2.(mem := Protect(s2.mem, parent, l)), t, parent, AllocAddr(s1.pages), l)
  }

  lemma {:induction false} ReserveKeeps(sys: System, g: View, k: nat)
    requires Inv(sys, g) && g.n + k <= |sys.machine.pages|
    ensures Inv(sys.(machine := Reserve(sys.machine, k)), g.(n := g.n + k))
    ensures |Reserve(sys.machine, k).pages| == |sys.machine.pages|
    ensures SameContents(sys.machine.mem, Reserve(sys.machine, k).mem, g.t)
    ensures TablesSame(sys.machine.mem, Reserve(sys.machine, k).mem, g.w)
  {
    hide Tabled, TakeScratch, Counted;
    SameContentsReflexive(sys, g);
    TablesReflexive(sys, g);
    if k != 0 {
      ReserveKeeps(sys, g, k - 1);
      var s1 := Reserve(sys.machine, k - 1);
      var g1 := ScratchKeeps(sys.(machine := s1), g.(n := g.n + k - 1));
      SameContentsTransitive(sys.machine.mem, s1.mem, TakeScratch(s1).mem, g.t);
    }
  }

  lemma TablesReflexive(sys: System, g: View)
    requires Inv(sys, g)
    ensures TablesSame(sys.machine.mem, sys.machine.mem, g.w)
  {
  }

  /** copy_vm's first loop: flags are added in the parent, nothing else. */
  lemma {:induction false} ProtectKeeps(sys: System, g: View, parent: nat, l: seq<nat>)
    requires Inv(sys, g) && parent in sys.spaces && UserAddresses(l)
    ensures var m' := Protect(sys.machine.mem, parent, l);
            && Inv(sys.(machine := sys.machine.(mem := m')), g)
            && SameContents(sys.machine.mem, m', g.t)
            && OnlyFlagsAdded(sys.machine.mem, m', g.w)
    decreases |l|
  {
    hide Tabled, PathOf, ChangeFlags, Counted, OnlyFlagsAdded;
    SameContentsReflexive(sys, g);
    FlagsReflexive(sys.machine.mem, g.w);
    if l != [] {
      var m, m1 := sys.machine.mem, ChangeFlags(sys.machine.mem, parent, PathOf(l[0]), READ_ONLY);
      FlagsKeepInv(sys, g, parent, PathOf(l[0]), READ_ONLY);
      FlagsOnly(sys, g, parent, PathOf(l[0]), READ_ONLY);
      assert UserAddresses(l[1..]);
      ProtectKeeps(sys.(machine := sys.machine.(mem := m1)), g, parent, l[1..]);
      SameContentsTransitive(m, m1, Protect(m1, parent, l[1..]), g.t);
      FlagsTransitive(m, m1, Protect(m1, parent, l[1..]), g.w);
    }
  }

  lemma FlagsOnly(sys: System, g: View, cr3: nat, p: Path, flags: bv12)
    requires Inv(sys, g) && cr3 in sys.spaces
    ensures OnlyFlagsAdded(sys.machine.mem, ChangeFlags(sys.machine.mem, cr3, p, flags), g.w)
  {
    hide ChangeFlags, OnlyFlagsAdded;
    ChangeFlagsKeeps(sys.machine.mem, g.w, cr3, p, flags);
  }

  lemma FlagsReflexive(m: Memory, w: Places)
    ensures OnlyFlagsAdded(m, m, w)
  {
    hide At;
    forall a, j: Index
      ensures EntryGrew(At(m, a, j), At(m, a, j))
    {
      EntryGrewFacts(At(m, a, j), 0);
    }
  }

  lemma FlagsTransitive(m: Memory, m1: Memory, m2: Memory, w: Places)
    requires OnlyFlagsAdded(m, m1, w) && OnlyFlagsAdded(m1, m2, w)
    ensures OnlyFlagsAdded(m, m2, w)
  {
    hide EntryGrew, Present, At;
    forall a, j: Index | a in w
      ensures EntryGrew(At(m, a, j), At(m2, a, j))
    {
      EntryGrewTransitive(At(m, a, j), At(m1, a, j), At(m2, a, j));
    }
  }

  /** A fresh address space has no user pages, so nothing counted changes. */
  lemma NewSpaceKeeps(sys: System, g: View) returns (g': View)
    requires Inv(sys, g) && g.n + Nodes(sys.machine.mem, sys.kernel, 4) <= |sys.machine.pages|
    ensures var s', child := CopyTables(sys.machine, sys.kernel, 4), AllocAddr(sys.machine.pages);
            && child !in sys.spaces && child !in g.w && g'.t == g.t && g'.base == g.base
            && g'.n == g.n + Nodes(sys.machine.mem, sys.kernel, 4)
            && g'.w == g.w[child := Pml4(child)]
            && Inv(System(s', sys.kernel, sys.spaces + {child}), g')
            && SameContents(sys.machine.mem, s'.mem, g.t) && TablesSame(sys.machine.mem, s'.mem, g.w)
            && |s'.pages| == |sys.machine.pages|
            && forall i: Index | i < 256 :: At(s'.mem, child, i) == NO_ENTRY
  {
    hide Shape, KernelSpace, Walk, CopyTables, Nodes, PageAt, Sharers, AllocAddr, Sound, Dense, Given, AllocMany, Took;
    var s, s', child := sys.machine, CopyTables(sys.machine, sys.kernel, 4), AllocAddr(sys.machine.pages);
    var k := Nodes(s.mem, sys.kernel, 4);
    DenseMany(s.pages, g.base, g.n, k);
    DenseHeld(s, g.w, g.base, g.n);
    var w', fs := NewSpace(s, g.w, g.base, sys.kernel);
    KernelListed(s.mem, g.w, sys.kernel);
    g' := View(w', g.base, g.n + k, g.t);
    BackedNewSpace(s, s', g.w, g.base, g.n, k, fs);
    LowerHalfEmpty(s.mem, s'.mem, g.w, sys.kernel, child);
    SameTables(s.mem, s'.mem, g.w, fs);
    forall r, q: Path | r in sys.spaces + {child} && UserPage(q)
      ensures Translate(s'.mem, r, q) == Lookup(g.t, r, q)
    {
      if r == child {
        KernelHasNoUserPages(s.mem, g.w, sys.kernel, q);
      }
    }
    forall k | k in g.t
      ensures Counted(s', g', g.t[k]) && g.t[k] in s.mem && s'.mem[g.t[k]] == s.mem[g.t[k]]
    {
      assert Counted(s, g, g.t[k]);
      SharedIsPositive(g.t, k);
      TookKeepsCount(s.pages, s'.pages, g.base, g.n, g'.n, g.t[k]);
    }
  }

  lemma BackedNewSpace(s: Machine, s': Machine, w: Places, base: nat, n: nat, k: nat, fs: seq<nat>)
    requires Backed(s, w, base, n) && 0 < k && Took(s.pages, s'.pages, base, n, n + k)
    requires |fs| == k && forall i | 0 <= i < k :: fs[i] == base + PAGE * (n + i)
    ensures Backed(s', w[fs[0] := Pml4(fs[0])], base, n + k) && |s'.pages| == |s.pages|
    ensures forall a | InList(a, base, n) :: a !in fs
  {
  }

  lemma LowerHalfEmpty(m: Memory, m': Memory, w: Places, k: nat, child: nat)
    requires KernelSpace(m, w, k) && forall i: Index :: At(m', child, i) == At(m, k, i)
    ensures forall i: Index | i < 256 :: At(m', child, i) == NO_ENTRY
  {
  }

  lemma KernelListed(m: Memory, w: Places, k: nat)
    requires KernelSpace(m, w, k)
    ensures k in w
  {
  }

  lemma KernelHasNoUserPages(m: Memory, w: Places, k: nat, q: Path)
    requires KernelSpace(m, w, k) && UserPage(q)
    ensures Translate(m, k, q) == None
  {
    assert At(m, k, q.l4) == NO_ENTRY;
  }

  /** Fork: the child gets a space of its own in which exactly the visited pages of the
      parent are mapped, to the same frames; every other space translates as before, all
      contents are kept, and every count is the number of pages mapped to the frame. */
  lemma ForkKeeps(sys: System, g: View, parent: nat, l: seq<nat>, records: nat) returns (child: nat, g': View)
    requires Inv(sys, g) && parent in sys.spaces && UserAddresses(l)
    requires ForkRoom(sys.machine, g.t, sys.kernel, parent, l, records) && AlignedOnce(g.t, parent, l)
    ensures child == AllocAddr(Reserve(sys.machine, records).pages) && child !in sys.spaces
    ensures Inv(System(ForkMemory(sys.machine, sys.kernel, parent, l, records), sys.kernel, sys.spaces + {child}), g')
    ensures g'.t == Shared(g.t, parent, child, l) && g'.base == g.base
    ensures SameContents(sys.machine.mem, ForkMemory(sys.machine, sys.kernel, parent, l, records).mem, g.t)
    ensures SameTranslations(sys.machine.mem, ForkMemory(sys.machine, sys.kernel, parent, l, records).mem, g.w)
  {
    hide Tabled, TakeScratch, CopyTables, Protect, Share, ShareRoom, Counted, Nodes, PathOf, AllocAddr, SameContents,
         TablesSame, OnlyFlagsAdded, OnlyChild, SameTranslations;
    FirstFreeIs(sys, g);
    var s1 := Reserve(sys.machine, records);
    var sys1, g1 := sys.(machine := s1), g.(n := g.n + records);
    ReserveKeeps(sys, g, records);
    FirstFreeIs(sys1, g1);
    child := AllocAddr(s1.pages);
    var s2 := CopyTables(s1, sys.kernel, 4);
    var g2 := NewSpaceKeeps(sys1, g1);
    var sys2 := System(s2, sys.kernel, sys.spaces + {child});
    ProtectKeeps(sys2, g2, parent, l);
    var s3 := s2.(mem := Protect(s2.mem, parent, l));
    NoLeaves(sys, g, child);
    GoodIffAlignedOnce(g.t, parent, child, l);
    g' := ShareKeeps(sys2.(machine := s3), g2, parent, child, l);
    SameContentsTransitive(sys.machine.mem, s1.mem, s2.mem, g.t);
    SameContentsTransitive(sys.machine.mem, s2.mem, s3.mem, g.t);
    var s4 := Share(s3, parent, child, l);
    SameContentsTransitive(sys.machine.mem, s3.mem, s4.mem, g.t);
    ScratchTranslations(sys, g, s1.mem);
    ScratchTranslations(sys1, g1, s2.mem);
    FlagsOnlyTranslations(sys2, g2, s3.mem);
    ChildOnlyTranslations(sys2.(machine := s3), g2, s4.mem, g'.w, child, g.w);
    TranslationsChain(sys.machine.mem, s1.mem, s2.mem, s3.mem, s4.mem, g.w, g2.w);
  }

  lemma FlagsOnlyTranslations(sys: System, g: View, m': Memory)
    requires Tabled(sys, g) && OnlyFlagsAdded(sys.machine.mem, m', g.w)
    ensures SameTranslations(sys.machine.mem, m', g.w)
  {
    hide Shape, OnlyFlagsAdded, Walk, Backed, KernelSpace, IsLeafMap;
    forall r, q: Path | Root(g.w, r)
      ensures Walk(m', r, q) == Walk(sys.machine.mem, r, q)
    {
      FlagsKeepWalk(sys.machine.mem, m', g.w, r, q);
    }
  }

  /** What is done to the tables of one space changes no other's translations, those of the
      kernel's half included. */
  lemma ChildOnlyTranslations(sys: System, g: View, m': Memory, w': Places, child: nat, w: Places)
    requires Tabled(sys, g) && OnlyChild(sys.machine.mem, m', g.w, w', child) && Extends(w, g.w) && child !in w
    ensures SameTranslations(sys.machine.mem, m', w)
  {
    hide Backed, KernelSpace, IsLeafMap, Translate;
    var m := sys.machine.mem;
    forall r, q: Path | Root(w, r)
      ensures Translate(m', r, q) == Translate(m, r, q)
    {
      OthersWalk(m, m', g.w, child, r, q);
    }
  }

  lemma OthersWalk(m: Memory, m': Memory, w: Places, child: nat, r: nat, q: Path)
    requires Shape(m, w) && OthersSame(m, m', w, child, Space(child)) && Root(w, r) && r != child
    ensures Translate(m', r, q) == Translate(m, r, q)
  {
    forall a, i: Index | a in w && !Owned(w[a], child, Space(child))
      ensures At(m', a, i) == At(m, a, i)
    {
    }
  }

  lemma TranslationsChain(m: Memory, m1: Memory, m2: Memory, m3: Memory, m4: Memory, w: Places, w2: Places)
    requires SameTranslations(m, m1, w) && SameTranslations(m1, m2, w) && SameTranslations(m2, m3, w2)
    requires SameTranslations(m3, m4, w) && Extends(w, w2)
    ensures SameTranslations(m, m4, w)
  {
    hide Translate;
  }

  lemma NoLeaves(sys: System, g: View, child: nat)
    requires Tabled(sys, g) && child !in sys.spaces
    ensures forall q: Path :: (child, q) !in g.t
  {
  }

  lemma LeafTranslates(sys: System, g: View, r: nat, q: Path)
    requires Tabled(sys, g) && r in sys.spaces && UserPage(q)
    ensures Translate(sys.machine.mem, r, q) == Lookup(g.t, r, q)
  {
  }
}
