/** Forks whose counts go wrong (sys/process.c, second loop of copy_vm): an unaligned region, and
    two regions that share a page. */
module Miscounts {
  import opened PageList
  import opened PageTables
  import opened TableCopy
  import opened Leaves
  import opened Sharing
  import opened Fork
  import opened SharedPage

  /** The two spaces of SharedPage and a child without pages. */
  function WithChild(): (r: System)
  {
    System(CopyTables(Both(), KERNEL, 4), KERNEL, {A, B} + {NewChild()})
  }

  function NewChild(): (a: nat) { AllocAddr(Both().pages) }

  lemma ChildThere() returns (g: View)
    ensures Inv(WithChild(), g) && g.t == Pages() && g.n == 11 && |WithChild().machine.pages| == 20
    ensures NewChild() !in {A, B}
    ensures forall k | k in g.t :: k.0 != NewChild() && Count(WithChild().machine, g.t[k]) == 2
  {
    hide Inv, Both, CopyTables, Nodes, AllocAddr, Tables, Count, Sharers;
    Possible();
    Twenty();
    KernelNodes();
    TwoShare();
    g := NewSpaceKeeps(Spaces(), Seen());
    CountIsSharers(WithChild(), g);
    assert forall k | k in g.t :: k == (A, Page0()) || k == (B, Page0());
  }

  lemma SpacesOf()
    ensures A in WithChild().spaces && NewChild() in WithChild().spaces
  {
  }

  /** After the loop the counts are not all the numbers of pages. */
  ghost predicate Wrong(l: seq<nat>)
  {
    var t := Shared(Pages(), A, NewChild(), l);
    var s := Share(WithChild().machine, A, NewChild(), l);
    exists k | k in t :: Count(s, t[k]) != Sharers(t, t[k])
  }

  lemma WrongIf(g: View, l: seq<nat>)
    requires Inv(WithChild(), g) && g.t == Pages() && NewChild() !in {A, B} && |l| <= 2
    requires forall k | k in g.t :: k.0 != NewChild() && Count(WithChild().machine, g.t[k]) == 2
    requires UserAddresses(l) && ShareRoom(WithChild().machine, Pages(), A, NewChild(), l)
    ensures Wrong(l) <==> !AlignedOnce(Pages(), A, l)
  {
    hide Inv, Tabled, WithChild, Count, Sharers, Share, Shared, ShareRoom, AlignedOnce, NewChild, UserAddresses, Pages;
    SpacesOf();
    var g' := ShareExact(WithChild(), g, A, NewChild(), l);
  }

  /** A region that starts at address 1: the page is counted once more but not mapped. */
  lemma UnalignedMiscounts()
    ensures UserAddresses([1]) && Wrong([1])
  {
    hide Inv, WithChild, Count, Sharers, Share, Shared, PathOf, ShareOne, Wrong;
    var g := ChildThere();
    FirstPage();
    assert ShareRoom(ShareOne(WithChild().machine, A, NewChild(), 1), Pages(), A, NewChild(), [1][1..]);
    assert SharedOne(Pages(), A, NewChild(), 1) == Pages();
    assert (A, PathOf([1][0])) in Pages();
    WrongIf(g, [1]);
  }

  lemma FirstPage()
    ensures PathOf(0) == PathOf(1) == Page0() && UserPage(Page0())
  {
  }

  /** Two regions with the same page: it is counted twice and mapped once. */
  lemma TwiceMiscounts()
    ensures UserAddresses([0, 0]) && Wrong([0, 0])
  {
    hide Inv, WithChild, Count, Sharers, Share, PathOf, ShareOne, Wrong, Missing, FirstFree;
    var g := ChildThere();
    FirstPage();
    var l := [0, 0];
    var s, child := WithChild().machine, NewChild();
    var s1 := ShareOne(s, A, child, 0);
    SpacesOf();
    RoundRoomLeft(WithChild(), g, A, child, 0);
    MissingBound(s.mem, child, Page0());
    MissingBound(s1.mem, child, Page0());
    InvTabled(WithChild(), g);
    FirstFreeIs(WithChild(), g);
    assert l[1..] == [0] && l[1..][1..] == [];
    assert ShareRoom(s1, SharedOne(Pages(), A, child, 0), A, child, l[1..]);
    assert (A, PathOf(l[1])) in Pages() && PathOf(l[0]) == PathOf(l[1]);
    WrongIf(g, l);
  }
}
