/** Any interleaving of user-half maps in many address spaces (sys/virt_mmgr.c): the tables
    behave as one independent map from pages to frames per space, apart from the pages that a
    new table cuts off. */
module Isolation {
  import opened Basics
  import opened PageList
  import opened PageTables
  import opened Overrun
  import opened Mapping
  import opened Leaves

  datatype MapOp = MapOp(cr3: nat, v: nat, a: nat, flags: bv12)

  function Apply(s: Machine, op: MapOp): (r: Machine)
  {
    MapPage(s, op.v, op.a, op.flags, op.cr3)
  }

  /** The frames that the map takes for tables. */
  function Takes(s: Machine, op: MapOp): (fs: seq<nat>)
  {
    Given(s.pages, Missing(s.mem, op.cr3, PathOf(op.v)))
  }

  /** The state after the first `i` maps. */
  function Mapped(s: Machine, ops: seq<MapOp>, i: nat): (r: Machine)
    requires i <= |ops|
  {
    if i == 0 then s else Apply(Mapped(s, ops, i - 1), ops[i - 1])
  }

  /** An aligned user page and frame, the present flag, a known space, and no allocation of a
      table that fails. */
  ghost predicate Allowed(s: Machine, w: Places, op: MapOp)
  {
    && Root(w, op.cr3) && op.v % PAGE == 0 && op.a % PAGE == 0 && UserPage(PathOf(op.v))
    && op.flags & PRESENT == PRESENT
    && 0 !in Takes(s, op)
  }

  ghost predicate AllAllowed(s: Machine, w: Places, ops: seq<MapOp>, i: nat)
    requires i <= |ops|
  {
    i == 0 || (AllAllowed(s, w, ops, i - 1) && Allowed(Mapped(s, ops, i - 1), w, ops[i - 1]))
  }

  function Frame(a: nat): (r: Option<nat>)
  {
    if a == 0 then None else Some(a)
  }

  /** Map `j` of the run cuts off page `q` of space `r`. */
  ghost predicate LosesAt(s: Machine, ops: seq<MapOp>, j: nat, r: nat, q: Path)
    requires j < |ops|
  {
    var b := Mapped(s, ops, j);
    Lost(b.mem, r, q, Takes(b, ops[j]))
  }

  predicate Maps(op: MapOp, r: nat, q: Path)
  {
    op.cr3 == r && PathOf(op.v) == q
  }

  /** Page `q` of space `r` in the abstract maps: what was last mapped there, unless it has been
      cut off since. */
  ghost function Abstract(s: Machine, ops: seq<MapOp>, i: nat, r: nat, q: Path): (t: Option<nat>)
    requires i <= |ops|
  {
    if i == 0 then Translate(s.mem, r, q)
    else
      var b, op := Mapped(s, ops, i - 1), ops[i - 1];
      if Maps(op, r, q) then (if OwnWayCut(b.mem, r, q, Takes(b, op)) then None else Frame(op.a))
      else if LosesAt(s, ops, i - 1, r, q) then None
      else Abstract(s, ops, i - 1, r, q)
  }

  /** On any page list: the state after the maps keeps its shape and the spaces it had, and
      every page of every space translates as in the abstract maps. */
  lemma {:induction false} MapsKeepShape(s: Machine, w: Places, base: nat, ops: seq<MapOp>, i: nat)
    returns (w': Places)
    requires Shape(s.mem, w) && TablesHeld(s, w, base) && i <= |ops| && AllAllowed(s, w, ops, i)
    ensures var s' := Mapped(s, ops, i); Shape(s'.mem, w') && TablesHeld(s', w', base) && Extends(w, w')
    ensures forall r, q: Path | Root(w, r) :: Translate(Mapped(s, ops, i).mem, r, q) == Abstract(s, ops, i, r, q)
  {
    hide Shape, TablesHeld, MapPage, Missing, PathOf, Translate, Walk, Given, AllocMany, OwnWayCut, Lost, OtherThrough,
         SlotZeroInUse, SameTranslationsBut;
    w' := w;
    if i != 0 {
      var w1 := MapsKeepShape(s, w, base, ops, i - 1);
      var b, op := Mapped(s, ops, i - 1), ops[i - 1];
      var fs;
      w', fs := MapPageRefines(b, w1, base, op.v, op.a, op.flags, op.cr3);
      var m' := Apply(b, op).mem;
      forall r, q: Path | Root(w, r)
        ensures Translate(m', r, q) == Abstract(s, ops, i, r, q)
      {
        if Maps(op, r, q) {
          WalkTranslates(m', r, q);
        } else {
          assert Root(w1, r);
        }
      }
    }
  }

  lemma WalkTranslates(m: Memory, r: nat, q: Path)
    ensures -1 <= Walk(m, r, q)
    ensures Translate(m, r, q) == if Walk(m, r, q) == -1 then None else Frame(Walk(m, r, q))
  {
  }

  /** Isolation: a page that is not itself mapped in the run translates as at the start if and
      only if no map of the run cuts it off; in particular no map in one space shows in another
      in any other way, nor in the kernel half. */
  lemma SpacesIsolated(s: Machine, w: Places, base: nat, ops: seq<MapOp>, i: nat, r: nat, q: Path)
    requires Shape(s.mem, w) && TablesHeld(s, w, base) && i <= |ops| && AllAllowed(s, w, ops, i) && Root(w, r)
    requires UserPage(q) ==> forall j | 0 <= j < i :: !Maps(ops[j], r, q)
    ensures Translate(Mapped(s, ops, i).mem, r, q) == Translate(s.mem, r, q) <==>
            forall j | 0 <= j < i :: !LosesAt(s, ops, j, r, q)
  {
    hide Shape, TablesHeld, MapPage, Translate, LosesAt, Abstract;
    var w' := MapsKeepShape(s, w, base, ops, i);
    AllUser(s, w, ops, i);
    Follow(s, w, base, ops, i, r, q);
  }

  /** A page not mapped in the run keeps its translation until it is cut off. */
  lemma {:induction false} Follow(s: Machine, w: Places, base: nat, ops: seq<MapOp>, i: nat, r: nat, q: Path)
    requires Shape(s.mem, w) && TablesHeld(s, w, base) && i <= |ops| && AllAllowed(s, w, ops, i) && Root(w, r)
    requires forall j | 0 <= j < i :: !Maps(ops[j], r, q)
    ensures Abstract(s, ops, i, r, q) ==
              if forall j | 0 <= j < i :: !LosesAt(s, ops, j, r, q) then Translate(s.mem, r, q) else None
    ensures (exists j | 0 <= j < i :: LosesAt(s, ops, j, r, q)) ==> Translate(s.mem, r, q).Some?
  {
    hide Shape, TablesHeld, MapPage, Missing, PathOf, Translate, Given, OwnWayCut, ThroughSlotZero, Maps;
    if i != 0 {
      Follow(s, w, base, ops, i - 1, r, q);
      var w' := MapsKeepShape(s, w, base, ops, i - 1);
      if LosesAt(s, ops, i - 1, r, q) {
        assert Translate(Mapped(s, ops, i - 1).mem, r, q).Some?;
        assert Abstract(s, ops, i - 1, r, q).Some?;
      }
    }
  }

  lemma {:induction false} AllUser(s: Machine, w: Places, ops: seq<MapOp>, i: nat)
    requires i <= |ops| && AllAllowed(s, w, ops, i)
    ensures forall j | 0 <= j < i :: UserPage(PathOf(ops[j].v))
  {
    hide PathOf, Takes;
    if i != 0 {
      AllUser(s, w, ops, i - 1);
    }
  }

  // ---------------------------------------------------------------- on a list without holes

  lemma {:induction false} StaysBacked(s: Machine, w: Places, base: nat, n: nat, ops: seq<MapOp>, i: nat)
    returns (w': Places, n': nat)
    requires Shape(s.mem, w) && Backed(s, w, base, n) && i <= |ops| && AllAllowed(s, w, ops, i)
    ensures var s' := Mapped(s, ops, i); Shape(s'.mem, w') && Backed(s', w', base, n') && Extends(w, w')
  {
    hide Shape, Backed, MapPage, Missing, PathOf, Given, AllocMany, Took, SameTranslationsBut, SameData, OthersSame,
         Walk;
    w', n' := w, n;
    if i != 0 {
      w', n' := StaysBacked(s, w, base, n, ops, i - 1);
      var b, op := Mapped(s, ops, i - 1), ops[i - 1];
      EnoughLeft(b, w', base, n', Missing(b.mem, op.cr3, PathOf(op.v)));
      var k := Missing(b.mem, op.cr3, PathOf(op.v));
      w' := MapPageDense(b, w', base, n', op.v, op.a, op.flags, op.cr3);
      n' := n' + k;
    }
  }

  /** From a list without holes, as the boot leaves it, no map of any run cuts anything off:
      a page not mapped itself translates as at the start. */
  lemma SpacesIsolatedDense(s: Machine, w: Places, base: nat, n: nat, ops: seq<MapOp>, i: nat, r: nat, q: Path)
    requires Shape(s.mem, w) && Backed(s, w, base, n) && i <= |ops| && AllAllowed(s, w, ops, i) && Root(w, r)
    requires UserPage(q) ==> forall j | 0 <= j < i :: !Maps(ops[j], r, q)
    ensures Translate(Mapped(s, ops, i).mem, r, q) == Translate(s.mem, r, q)
  {
    hide Shape, Backed, TablesHeld, MapPage, Translate, Maps;
    DenseHeld(s, w, base, n);
    SpacesIsolated(s, w, base, ops, i, r, q);
    forall j | 0 <= j < i
      ensures !LosesAt(s, ops, j, r, q)
    {
      Before(s, w, ops, j, i);
      var w1, n1 := StaysBacked(s, w, base, n, ops, j);
      var b := Mapped(s, ops, j);
      EnoughLeft(b, w1, base, n1, |Takes(b, ops[j])|);
      NoneLost(b, w1, base, n1, |Takes(b, ops[j])|, r, q);
    }
  }

  lemma {:induction false} Before(s: Machine, w: Places, ops: seq<MapOp>, j: nat, i: nat)
    requires j < i <= |ops| && AllAllowed(s, w, ops, i)
    ensures AllAllowed(s, w, ops, j) && Allowed(Mapped(s, ops, j), w, ops[j])
  {
    hide Allowed, Apply;
    if j + 1 < i {
      Before(s, w, ops, j, i - 1);
    }
  }

  lemma NoneLost(s: Machine, w: Places, base: nat, n: nat, k: nat, r: nat, q: Path)
    requires Shape(s.mem, w) && Backed(s, w, base, n) && n + k <= |s.pages| && Root(w, r)
    ensures !Lost(s.mem, r, q, Given(s.pages, k))
  {
    hide Given, AllocMany, Shape;
    DenseMany(s.pages, base, n, k);
    forall f | f in Given(s.pages, k)
      ensures f + PAGE !in w && !(Translate(s.mem, r, q).Some? && ThroughSlotZero(s.mem, r, q, f + PAGE))
    {
      ThroughTables(s.mem, w, r, q, f + PAGE);
    }
  }

  lemma ThroughTables(m: Memory, w: Places, r: nat, q: Path, g: nat)
    requires Shape(m, w) && Root(w, r)
    ensures Translate(m, r, q).Some? && ThroughSlotZero(m, r, q, g) ==> g in w
  {
  }
}
