/** The queues of sys/queue.c as they are: chains of process descriptors, all linked through
    the one field next_in_queue. */
module Queues {
  import opened Processes

  class Pcb {
    const pid: Pid
    var next: Pcb?
    var life: Life
    var thread: Thread
    var onRq: bool
    var parent: Pcb
    var children: seq<Pcb>
    var status: int

    /** The descriptor of a new process, whose memory has been cleared. */
    constructor (pid: Pid)
      ensures this.pid == pid && next == null && life == New && !onRq && parent == this && children == [] && status == 0
    {
      this.pid := pid;
      next, life, thread, onRq, parent, children, status := null, New, Running, false, this, [], 0;
    }
  }

  /** Each descriptor points to the next, and the last to none. */
  ghost predicate Linked(l: seq<Pcb>)
    reads l`next
  {
    (forall i | 0 <= i < |l| - 1 :: l[i].next == l[i + 1]) && (l != [] ==> l[|l| - 1].next == null)
  }

  ghost predicate DistinctPids(l: seq<Pcb>)
  {
    forall i, j | 0 <= i < j < |l| :: l[i].pid != l[j].pid
  }

  /** No descriptor is in both. */
  ghost predicate Apart(a: seq<Pcb>, b: seq<Pcb>)
  {
    forall x | x in a :: x !in b
  }

  class Chain {
    var head: Pcb?
    ghost var elems: seq<Pcb>

    ghost predicate Valid()
      reads this, elems`next
    {
      && (elems == [] ==> head == null) && (elems != [] ==> head == elems[0])
      && Linked(elems) && DistinctPids(elems)
    }

    /** The chain has no cycle: the links from the head lead through its descriptors in order
        and then to the end. */
    lemma {:induction false} Acyclic(i: nat)
      requires Valid() && i <= |elems|
      ensures Follow(head, i) == if i < |elems| then elems[i] else null
    {
      if i != 0 {
        Acyclic(i - 1);
        FollowNext(head, i - 1);
      }
    }

    constructor ()
      ensures Valid() && elems == []
    {
      head, elems := null, [];
    }

    /** add_process_to_queue_front. */
    method AddFront(p: Pcb)
      requires Valid() && forall x | x in elems :: x.pid != p.pid
      modifies this, p`next
      ensures Valid() && elems == [p] + old(elems)
    {
      if head == null {
        head := p;
        p.next := null;
      } else {
        var first := head;
        head := p;
        p.next := first;
      }
      elems := [p] + elems;
    }

    /** add_process_to_queue: the loop finds the last descriptor. */
    method Add(p: Pcb)
      requires Valid() && forall x | x in elems :: x.pid != p.pid
      modifies this, p`next, elems`next
      ensures Valid() && elems == old(elems) + [p]
    {
      if head == null {
        head := p;
        p.next := null;
      } else {
        var last := head;
        ghost var i := 0;
        while last.next != null
          invariant 0 <= i < |elems| && last == elems[i] && (i + 1 < |elems| ==> last.next == elems[i + 1])
          decreases |elems| - i
        {
          last := last.next;
          i := i + 1;
        }
        assert i == |elems| - 1;
        assert forall j | 0 <= j < i :: elems[j] != last;
        last.next := p;
        p.next := null;
      }
      elems := elems + [p];
    }

    /** remove_process_from_queue, given at most `rounds` rounds of its loop, which never
        advances: the loop is over after one round, with the process unlinked, or it is never
        over and changes nothing. */
    method Remove(p: Pcb, rounds: nat) returns (over: bool)
      requires Valid() && forall x | x in elems :: x.pid == p.pid ==> x == p
      modifies this, elems`next
      ensures Valid()
      ensures over ==> RemoveEnds(old(elems), p) && elems == Removed(old(elems), p)
      ensures !over ==> elems == old(elems) && (rounds == 0 || !RemoveEnds(old(elems), p))
    {
      if head == null {
        return true;
      }
      if head.pid == p.pid {
        head := head.next;
        elems := elems[1..];
        return true;
      }
      var k := 0;
      while k < rounds && head.next != null
        invariant k <= rounds && Valid() && elems == old(elems) && head != null
        invariant 0 < k ==> !RemoveEnds(elems, p)
      {
        if head.next.pid == p.pid {
          elems := [elems[0]] + elems[2..];
          head.next := head.next.next;
          return true;
        }
        k := k + 1;
      }
      over := head.next == null;
    }

    /** add_process_to_queue_front of a process that is still in another chain: its one link is
        overwritten, so the other chain now leads through the process into the old contents of
        this one, and what came after the process there is cut off.  The other chain is left
        intact if and only if the process was its last and this chain was empty. */
    method AddFrontFrom(other: Chain, p: Pcb, ghost i: nat)
      requires Valid() && other.Valid() && other != this && i < |other.elems| && other.elems[i] == p
      requires forall x | x in elems :: x.pid != p.pid && x !in other.elems
      modifies this, p`next
      ensures Valid() && elems == [p] + old(elems)
      ensures other.head == old(other.head) && Linked(other.elems[..i + 1] + old(elems))
      ensures other.Valid() <==> i + 1 == |other.elems| && old(elems) == []
    {
      ghost var e, o := elems, other.elems;
      AddFront(p);
      assert elems[0] == p && (e != [] ==> elems[0].next == elems[1] == e[0]) && (e == [] ==> elems[|elems| - 1] == p);
      assert forall j | 0 <= j < |o| && j != i :: o[j] != p;
      ghost var l := o[..i + 1] + e;
      forall j | 0 <= j < |l| - 1
        ensures l[j].next == l[j + 1]
      {
        if i < j {
          assert e[j - i - 1].next == e[j - i];
        }
      }
      assert e != [] ==> e[0] in e;
      if i + 1 < |o| {
        assert o[i].next != o[i + 1];
      }
    }
  }

  /** A chain is as it was when its head and the links of its descriptors are. */
  twostate lemma StillLinked(c: Chain)
    requires old(c.Valid()) && c.head == old(c.head) && c.elems == old(c.elems)
    requires forall x | x in c.elems :: x.next == old(x.next)
    ensures c.Valid()
  {
    assert forall i | 0 <= i < |c.elems| :: c.elems[i] in c.elems;
  }

  /** The descriptor `n` links on. */
  ghost function Follow(p: Pcb?, n: nat): (r: Pcb?)
    reads *
  {
    if p == null || n == 0 then p else Follow(p.next, n - 1)
  }

  lemma {:induction false} FollowNext(p: Pcb?, n: nat)
    ensures Follow(p, n + 1) == var q := Follow(p, n); if q == null then null else q.next
  {
    if p != null && n != 0 {
      FollowNext(p.next, n - 1);
    }
  }

  // ---------------------------------------------------------------- chains by pid

  function Pids(l: seq<Pcb>): (r: seq<Pid>)
    ensures |r| == |l| && forall i | 0 <= i < |l| :: r[i] == l[i].pid
  {
    seq(|l|, i requires 0 <= i < |l| => l[i].pid)
  }

  /** Descriptors with the pid of `p` are `p`. */
  ghost predicate Named(l: seq<Pcb>, p: Pcb)
  {
    forall x | x in l :: x.pid == p.pid ==> x == p
  }

  lemma PidsConcat(a: seq<Pcb>, b: seq<Pcb>)
    ensures Pids(a + b) == Pids(a) + Pids(b)
  {
  }

  lemma PidsIn(l: seq<Pcb>, p: Pcb)
    requires Named(l, p)
    ensures p.pid in Pids(l) <==> p in l
  {
    if p.pid in Pids(l) {
      var i :| 0 <= i < |l| && Pids(l)[i] == p.pid;
      assert l[i] in l;
    }
    if p in l {
      var i :| 0 <= i < |l| && l[i] == p;
      assert Pids(l)[i] == p.pid;
    }
  }

  /** The removal by descriptors is the removal by pids. */
  lemma PidsRemoved(l: seq<Pcb>, p: Pcb)
    requires Named(l, p)
    ensures Pids(Removed(l, p)) == Removed(Pids(l), p.pid)
    ensures RemoveEnds(l, p) <==> RemoveEnds(Pids(l), p.pid)
  {
    if l != [] {
      assert l[0] in l && (1 < |l| ==> l[1] in l);
      if l[0] == p {
        assert Pids(l[1..]) == Pids(l)[1..];
      } else if 1 < |l| && l[1] == p {
        assert Pids([l[0]] + l[2..]) == [l[0].pid] + Pids(l)[2..];
      }
    }
  }
}
