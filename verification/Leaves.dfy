/** The mapped user pages of all address spaces as one finite map from (space, page) to
    frame, and how many of them share a frame. */
module Leaves {
  import opened Basics
  import opened PageTables

  type Leaf = (nat, Path)
  type LeafMap = map<Leaf, nat>

  function LeavesOf(t: LeafMap, f: nat): (r: set<Leaf>)
  {
    set k | k in t && t[k] == f
  }

  /** The number of mapped pages that share frame `f`. */
  function Sharers(t: LeafMap, f: nat): (n: nat)
  {
    |LeavesOf(t, f)|
  }

  predicate UserPage(p: Path)
  {
    p.l4 < 256
  }

  /** `t` is what the tables of the given spaces translate in the user half. */
  ghost predicate IsLeafMap(m: Memory, spaces: set<nat>, t: LeafMap)
  {
    && (forall k | k in t :: k.0 in spaces && UserPage(k.1))
    && (forall r, q: Path | r in spaces && UserPage(q) :: Translate(m, r, q) == Lookup(t, r, q))
  }

  function Lookup(t: LeafMap, r: nat, q: Path): (a: Option<nat>)
  {
    if (r, q) in t then Some(t[(r, q)]) else None
  }

  /** The tables determine the leaf map. */
  lemma LeafMapUnique(m: Memory, spaces: set<nat>, t: LeafMap, t': LeafMap)
    requires IsLeafMap(m, spaces, t) && IsLeafMap(m, spaces, t')
    ensures t == t'
  {
    forall k | k in t || k in t'
      ensures k in t && k in t' && t[k] == t'[k]
    {
      assert Translate(m, k.0, k.1) == Lookup(t, k.0, k.1) == Lookup(t', k.0, k.1);
    }
  }

  /** A page newly mapped to `f` adds one sharer to `f` and none to any other frame. */
  lemma AddLeaf(t: LeafMap, k: Leaf, f: nat, g: nat)
    requires k !in t
    ensures Sharers(t[k := f], g) == Sharers(t, g) + if g == f then 1 else 0
  {
    if g == f {
      assert LeavesOf(t[k := f], g) == LeavesOf(t, g) + {k};
    } else {
      assert LeavesOf(t[k := f], g) == LeavesOf(t, g);
    }
  }

  /** A page moved to a frame that nothing shares takes one sharer from its old frame. */
  lemma MoveLeaf(t: LeafMap, k: Leaf, f: nat, g: nat)
    requires k in t && t[k] != f && LeavesOf(t, f) == {}
    ensures Sharers(t[k := f], g) == if g == f then 1 else if g == t[k] then Sharers(t, g) - 1 else Sharers(t, g)
  {
    if g == f {
      assert LeavesOf(t[k := f], g) == {k};
    } else if g == t[k] {
      assert LeavesOf(t[k := f], g) == LeavesOf(t, g) - {k};
    } else {
      assert LeavesOf(t[k := f], g) == LeavesOf(t, g);
    }
  }

  // ---------------------------------------------------------------- how many leaves there can be

  lemma {:induction false} ImageCard<T>(g: nat -> T, n: nat)
    ensures |set i: nat | i < n :: g(i)| <= n
  {
    if n != 0 {
      ImageCard(g, n - 1);
      assert (set i: nat | i < n :: g(i)) == (set i: nat | i < n - 1 :: g(i)) + {g(n - 1)};
    }
  }

  lemma {:induction false} SubsetCard<T>(a: set<T>, b: set<T>)
    requires a <= b
    ensures |a| <= |b|
  {
    if a != {} {
      var x :| x in a;
      SubsetCard(a - {x}, b - {x});
    }
  }

  /** The leaf that entry `i` of a last-level table at place `p` stands for. */
  function LeafAt(p: Place, i: nat): (k: Leaf)
    requires i < 512
  {
    if p.Pt? && p.owner.Space? then (p.owner.cr3, Path(p.i4, p.i3, p.i2, i)) else (0, Path(0, 0, 0, 0))
  }

  function LeavesIn(w: Places, tables: set<nat>): (r: set<Leaf>)
    requires tables <= w.Keys
  {
    set a, i: nat | a in tables && i < 512 :: LeafAt(w[a], i)
  }

  lemma {:induction false} LeavesInCard(w: Places, tables: set<nat>)
    requires tables <= w.Keys
    ensures |LeavesIn(w, tables)| <= 512 * |tables|
  {
    if tables != {} {
      var a :| a in tables;
      LeavesInCard(w, tables - {a});
      var p := w[a];
      var own := set i: nat | i < 512 :: LeafAt(p, i);
      var g := (i: nat) => if i < 512 then LeafAt(p, i) else LeafAt(p, 0);
      ImageCard(g, 512);
      assert forall i: nat | i < 512 :: g(i) == LeafAt(p, i);
      SubsetCard(own, set i: nat | i < 512 :: g(i));
      var rest := LeavesIn(w, tables - {a});
      forall k | k in LeavesIn(w, tables)
        ensures k in rest + own
      {
        var b, i :| b in tables && i < 512 && k == LeafAt(w[b], i);
        if b != a {
          assert b in tables - {a};
        }
      }
      SubsetCard(LeavesIn(w, tables), rest + own);
    }
  }

  lemma TablesCard(w: Places, base: nat, n: nat)
    requires forall a | a in w :: InList(a, base, n)
    ensures |w| <= n
  {
    var g := (i: nat) => base + PAGE * i;
    var all := set i: nat | i < n :: g(i);
    ImageCard(g, n);
    forall a | a in w.Keys
      ensures a in all
    {
      var i := (a - base) / PAGE;
      assert g(i) == a && i < n;
    }
    SubsetCard(w.Keys, all);
  }

  /** At most 512 pages are mapped per table, so no more share a frame. */
  lemma SharersBound(m: Memory, w: Places, spaces: set<nat>, t: LeafMap, base: nat, n: nat, f: nat)
    requires Shape(m, w) && IsLeafMap(m, spaces, t)
    requires forall r | r in spaces :: Root(w, r)
    requires forall a | a in w :: InList(a, base, n)
    ensures Sharers(t, f) <= 512 * n
  {
    forall k | k in LeavesOf(t, f)
      ensures k in LeavesIn(w, w.Keys)
    {
      LeafInTable(m, w, k.0, k.1);
    }
    SubsetCard(LeavesOf(t, f), LeavesIn(w, w.Keys));
    LeavesInCard(w, w.Keys);
    TablesCard(w, base, n);
  }

  lemma LeafInTable(m: Memory, w: Places, r: nat, q: Path)
    requires Shape(m, w) && Root(w, r) && UserPage(q) && Translate(m, r, q).Some?
    ensures (r, q) in LeavesIn(w, w.Keys)
  {
    WalkByWay(m, r, q);
    LastTablePlace(m, w, r, q);
    hide Shape, Walk, Missing, LastTable;
    assert LeafAt(w[LastTable(m, r, q)], q.l1) == (r, q);
  }
}
