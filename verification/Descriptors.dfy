/** Process descriptors on the heap, seen as the values of Processes: the table of all of them,
    the lists that name them, and what a change to one of them means. */
module Descriptors {
  import opened Lifecycle
  import opened Processes
  import opened Queues

  ghost function ProcOf(x: Pcb): (r: Proc)
    reads x`life, x`thread, x`onRq, x`parent, x`children, x`status
  {
    Proc(x.life, x.thread, x.onRq, x.parent.pid, Pids(x.children), x.status)
  }

  ghost function Procs(table: map<Pid, Pcb>): (r: map<Pid, Proc>)
    reads table.Values`life, table.Values`thread, table.Values`onRq, table.Values`parent, table.Values`children,
          table.Values`status
  {
    map p | p in table :: ProcOf(table[p])
  }

  /** A descriptor is found under its pid. */
  ghost predicate Tabled(table: map<Pid, Pcb>)
  {
    forall p | p in table :: table[p].pid == p
  }

  ghost predicate Within(l: seq<Pcb>, table: map<Pid, Pcb>)
  {
    forall x | x in l :: x in table.Values
  }

  /** Parents and children are known. */
  ghost predicate Families(table: map<Pid, Pcb>)
    reads table.Values`parent, table.Values`children
  {
    forall x | x in table.Values :: x.parent in table.Values && Within(x.children, table)
  }

  lemma TabledNames(table: map<Pid, Pcb>, l: seq<Pcb>, p: Pcb)
    requires Tabled(table) && Within(l, table) && p in table.Values
    ensures Named(l, p) && p.pid in table && table[p.pid] == p
  {
  }

  lemma TableGrows(table: map<Pid, Pcb>, x: Pcb)
    requires x.pid !in table
    ensures table[x.pid := x].Values == table.Values + {x}
  {
    var t := table[x.pid := x];
    assert x.pid in t && t[x.pid] == x;
    forall y | y in table.Values
      ensures y in t.Values
    {
      var p :| p in table && table[p] == y;
      assert p in t && t[p] == y;
    }
  }

  lemma WithinGrows(table: map<Pid, Pcb>, x: Pcb, k: seq<Pcb>, l: seq<Pcb>)
    requires x.pid !in table && Within(k, table) && Within(l, table)
    ensures Within(k, table[x.pid := x]) && Within(l, table[x.pid := x])
  {
    TableGrows(table, x);
  }

  /** A new descriptor without children. */
  lemma FamiliesGrow(table: map<Pid, Pcb>, x: Pcb)
    requires x.pid !in table && x.children == [] && x.parent in table.Values && Families(table)
    ensures Families(table[x.pid := x])
  {
    TableGrows(table, x);
    forall y | y in table.Values
      ensures Within(y.children, table[x.pid := x])
    {
      WithinGrows(table, x, y.children, []);
    }
  }

  /** A new descriptor in the table. */
  lemma ProcsGrow(table: map<Pid, Pcb>, x: Pcb)
    requires x.pid !in table && Tabled(table)
    ensures var t := table[x.pid := x];
            && Procs(t) == Procs(table)[x.pid := ProcOf(x)] && t.Values == table.Values + {x} && Tabled(t)
  {
    TableGrows(table, x);
  }

  lemma OnlyIdle(table: map<Pid, Pcb>, x: Pcb)
    requires table == map[IDLE := x] && ProcOf(x) == Proc(Normal, Running, false, x.parent.pid, Pids(x.children), 0)
    requires x.parent == x && x.pid == IDLE && x.children == []
    ensures Procs(table) == Booted().procs && Pids([]) == [] && table.Values == {x}
  {
    assert Pids([]) == [] && table[IDLE] == x;
  }

  lemma NewProc(x: Pcb, parent: Pcb)
    requires x.life == Normal && x.thread == Running && !x.onRq && x.status == 0
    requires x.parent == parent && x.children == []
    ensures ProcOf(x) == Proc(Normal, Running, false, parent.pid, [], 0)
  {
    assert Pids([]) == [];
  }

  lemma ListOne(x: Pcb)
    ensures Pids([x]) == [x.pid]
  {
  }

  /** No descriptor is in two of the four. */
  ghost predicate AllApart(a: seq<Pcb>, b: seq<Pcb>, c: seq<Pcb>, d: seq<Pcb>)
  {
    Apart(a, b) && Apart(a, c) && Apart(a, d) && Apart(b, c) && Apart(b, d) && Apart(c, d)
  }

  ghost predicate AllWithin(a: seq<Pcb>, b: seq<Pcb>, c: seq<Pcb>, d: seq<Pcb>, table: map<Pid, Pcb>)
  {
    Within(a, table) && Within(b, table) && Within(c, table) && Within(d, table)
  }

  lemma AllWithinGrows(table: map<Pid, Pcb>, x: Pcb, a: seq<Pcb>, b: seq<Pcb>, c: seq<Pcb>, d: seq<Pcb>)
    requires x.pid !in table && AllWithin(a, b, c, d, table)
    ensures AllWithin(a, b, c, d, table[x.pid := x])
  {
    hide Within;
    WithinGrows(table, x, a, b);
    WithinGrows(table, x, c, d);
  }

  /** Of the members of a queue, and `x`. */
  ghost predicate Part(l': seq<Pcb>, l: seq<Pcb>, x: Pcb)
  {
    forall y | y in l' :: y in l || y == x
  }

  /** Queues from which `x` is moved, into at most one of them. */
  lemma MovesApart(a: seq<Pcb>, b: seq<Pcb>, c: seq<Pcb>, d: seq<Pcb>,
                   a': seq<Pcb>, b': seq<Pcb>, c': seq<Pcb>, d': seq<Pcb>, x: Pcb, table: map<Pid, Pcb>)
    requires AllApart(a, b, c, d) && AllWithin(a, b, c, d, table) && x in table.Values
    requires Part(a', a, x) && Part(b', b, x) && Part(c', c, x) && Part(d', d, x)
    requires x in a' && x in b' + c' + d' ==> x in a && x in b + c + d
    requires x in b' && x in c' + d' ==> x in b && x in c + d
    requires x in c' && x in d' ==> x in c && x in d
    ensures AllApart(a', b', c', d') && AllWithin(a', b', c', d', table)
  {
  }

  /** A queue that has gained one member, at either end. */
  lemma GrowsApart(l: seq<Pcb>, e: seq<Pcb>, x: Pcb)
    requires e == [x]
    ensures forall y :: (y in l + e <==> y in l || y == x) && (y in e + l <==> y in l || y == x)
    ensures Pids(e) == [x.pid]
  {
  }

  /** A queue that has lost one member. */
  lemma ShrinksApart(l: seq<Pcb>, l': seq<Pcb>, x: Pcb)
    requires DistinctPids(l) && RemoveEnds(l, x) && l' == Removed(l, x)
    ensures Part(l', l, x) && forall y :: y in l' <==> y in l && y != x
  {
    RemovedElements(l, x);
  }

  /** delete_from_allproc and delete_from_zombproc: `temp` and `prev` run down the list. */
  method Delete(l: seq<Pcb>, p: Pcb) returns (r: seq<Pcb>)
    requires Named(l, p)
    ensures r == Deleted(l, p) && Pids(r) == Deleted(Pids(l), p.pid) && forall x | x in r :: x in l
  {
    hide Deleted, DeletedAfter, Pids;
    PidsDeleted(l, p);
    DeletedEnds(l, p);
    if l == [] {
      return l;
    }
    assert l[0] in l;
    if l[0].pid == p.pid {
      return l[1..];
    }
    var temp, prev := 0, 0;
    while temp + 1 < |l|
      invariant 0 <= prev <= temp < |l| && (temp == 0 ==> prev == 0) && (0 < temp ==> prev == temp - 1)
      invariant 0 < temp ==> Deleted(l, p) == l[..temp] + DeletedAfter(l[temp..], p)
    {
      assert l[temp] in l;
      if l[temp].pid == p.pid {
        DeletedAt(l, p, temp);
        return l[..prev + 1] + l[temp + 1..];
      }
      DeletedNext(l, p, temp);
      prev := temp;
      temp := temp + 1;
    }
    if 0 < temp {
      DeletedAt(l, p, temp);
    }
    r := l[..prev + 1];
  }

  lemma DeletedEnds(l: seq<Pcb>, p: Pcb)
    ensures l == [] ==> Deleted(l, p) == l
    ensures l != [] && l[0] == p ==> Deleted(l, p) == l[1..]
    ensures |l| == 1 && l[0] != p ==> Deleted(l, p) == l == l[..1]
  {
  }

  lemma DeletedAt(l: seq<Pcb>, p: Pcb, k: nat)
    requires 0 < k < |l| && Deleted(l, p) == l[..k] + DeletedAfter(l[k..], p) && (k + 1 == |l| || l[k] == p)
    ensures Deleted(l, p) == l[..k] + l[k + 1..]
  {
    hide Deleted;
    assert l[k..][1..] == l[k + 1..] && l[k..][0] == l[k];
  }

  lemma DeletedNext(l: seq<Pcb>, p: Pcb, k: nat)
    requires k + 1 < |l| && l[0] != p && l[k] != p
    requires 0 < k ==> Deleted(l, p) == l[..k] + DeletedAfter(l[k..], p)
    ensures Deleted(l, p) == l[..k + 1] + DeletedAfter(l[k + 1..], p)
  {
    hide Deleted, DeletedAfter;
    DeletedFirst(l, p, k);
    assert l[..k + 1] == l[..k] + [l[k]];
    if k == 0 {
      assert l[..1] == [l[0]];
    }
  }

  lemma DeletedFirst(l: seq<Pcb>, p: Pcb, k: nat)
    requires k + 1 < |l| && l[0] != p && l[k] != p
    ensures DeletedAfter(l[k..], p) == [l[k]] + DeletedAfter(l[k + 1..], p)
    ensures Deleted(l, p) == [l[0]] + DeletedAfter(l[1..], p)
  {
    assert l[k..][1..] == l[k + 1..] && l[k..][0] == l[k];
  }

  lemma PidsFirst(l: seq<Pcb>)
    requires l != []
    ensures |Pids(l)| == |l| && Pids(l)[0] == l[0].pid && Pids(l)[1..] == Pids(l[1..])
    ensures forall r: seq<Pcb> :: Pids([l[0]] + r) == [l[0].pid] + Pids(r)
  {
  }

  /** The deletion by descriptors is the deletion by pids. */
  lemma PidsDeleted(l: seq<Pcb>, p: Pcb)
    requires Named(l, p)
    ensures Pids(Deleted(l, p)) == Deleted(Pids(l), p.pid) && forall x | x in Deleted(l, p) :: x in l
  {
    hide Pids;
    if l != [] {
      PidsFirst(l);
      assert l[0] in l;
      if l[0] != p && 1 < |l| {
        PidsDeletedAfter(l[1..], p);
      }
    } else {
      assert Pids(l) == [];
    }
  }

  lemma {:induction false} PidsDeletedAfter(l: seq<Pcb>, p: Pcb)
    requires Named(l, p) && l != []
    ensures Pids(DeletedAfter(l, p)) == DeletedAfter(Pids(l), p.pid) && forall x | x in DeletedAfter(l, p) :: x in l
  {
    hide Pids;
    PidsFirst(l);
    assert l[0] in l;
    if |l| == 1 {
      assert Pids(DeletedAfter(l, p)) == [];
    } else if l[0] != p {
      PidsDeletedAfter(l[1..], p);
    }
  }
}
