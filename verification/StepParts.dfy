/** The steps of Lifecycle taken apart into the single assignments that the kernel makes. */
module StepParts {
  import opened Lifecycle
  import opened Processes

  /** The wake-up one assignment after the other. */
  lemma WokenBySteps(s: System, q: Queue, p: Pid)
    requires p in s.procs
    ensures var s1 := Change(s, p, s.procs[p].(life := Normal, thread := Running));
            var s2 := WithQueue(s1, q, Removed(QueueOf(s1, q), p));
            && s2.procs == s1.procs
            && Woken(s, q, p) == if s.procs[p].onRq then s2
                                 else Change(s2, p, s2.procs[p].(onRq := true)).(run := [p] + s2.run)
  {
    hide Removed;
    var s1 := Change(s, p, s.procs[p].(life := Normal, thread := Running));
    assert s1.procs[p := s1.procs[p].(onRq := true)] ==
           s.procs[p := s.procs[p].(life := Normal, thread := Running, onRq := true)];
  }

  lemma ForkIs(s: System)
    requires NamesInv(s) && Enabled(s, Fork)
    ensures Prepared(s, Fork).current in Prepared(s, Fork).procs ==> Ready(s, Fork) && Step(s, Fork) == Forked(s)
    ensures s.lastPid + 1 < PID_LIMIT
  {
  }

  lemma ForkedBySteps(s: System, s1: System, s2: System, s3: System, s4: System)
    requires s.current in s.procs && s.lastPid + 1 !in s.procs
    requires var child := s.lastPid + 1;
             && s1 == Change(s, child, Proc(Normal, Running, false, s.current, [], 0)).(lastPid := child)
             && s2 == Change(s1, s.current, s1.procs[s.current].(children := [child]))
             && s3 == s2.(allproc := s2.allproc + [child])
             && s4 == Change(s3, child, s3.procs[child].(onRq := true)).(run := s3.run + [child])
    ensures s4 == Forked(s)
  {
    assert s4.procs == Forked(s).procs;
  }

  /** A listed process that is off the run queue is parked in one of the other queues. */
  lemma KillSees(s: System, k: Pid)
    requires Inv(s) && k in s.allproc
    ensures k in s.procs && k != IDLE && s.procs[k].life == Normal
    ensures !s.procs[k].onRq ==> s.procs[k].thread in {Sleeping, Blocked, Waiting}
  {
  }

  lemma TickIs(s: System)
    requires NamesInv(s)
    ensures Prepared(s, Tick) == s && Schedules(s, Tick)
  {
  }

  // ---------------------------------------------------------------- exit

  lemma KidsKnown(s: System)
    requires NamesInv(s)
    ensures forall c | c in s.procs[s.current].children :: c in s.procs && c != IDLE
  {
    assert Related(s.procs, s.current);
  }

  /** There is an init to hand the children to. */
  ghost predicate AdoptsFrom(s: System)
  {
    NamesInv(s) && (s.procs[s.current].children != [] ==> s.allproc != [] && s.allproc[0] in s.procs)
  }

  /** The first `i` of the children have been handed on. */
  ghost predicate Adoption(s: System, t: System, kids: seq<Pid>, i: nat)
  {
    && i <= |kids| && s.current in s.procs && Quiet(s, t) && t.procs[t.current].children == kids
    && (kids == [] ==> t == s)
    && (kids != [] ==>
          && s.allproc != [] && s.allproc[0] in s.procs && s.allproc[0] != s.current
          && (forall c | c in kids :: c in s.procs) && Adopted(t, kids[i..]) == Adopted(s, kids))
  }

  lemma AdoptionStarts(s: System)
    requires AdoptsFrom(s) && (s.procs[s.current].children != [] ==> s.allproc[0] != s.current)
    ensures Adoption(s, s, s.procs[s.current].children, 0)
  {
    KidsKnown(s);
    var kids := s.procs[s.current].children;
    assert kids[0..] == kids;
  }

  lemma AdoptionNext(s: System, t: System, kids: seq<Pid>, i: nat)
    requires Adoption(s, t, kids, i) && i < |kids|
    ensures t.allproc != [] && t.allproc[0] in t.procs && kids[i] in t.procs && t.current in t.procs
    ensures AdoptedOne(t, kids[i]).procs[t.current].children == t.procs[t.current].children == kids
    ensures Adoption(s, AdoptedOne(t, kids[i]), kids, i + 1)
  {
    AdoptedKeepsList(t, kids[i]);
    hide AdoptedOne;
    QuietChain(s, t, AdoptedOne(t, kids[i]));
    assert kids[i..][1..] == kids[i + 1..] && kids[i..][0] == kids[i];
  }

  lemma AdoptionEnds(s: System, t: System, kids: seq<Pid>)
    requires AdoptsFrom(s) && Adoption(s, t, kids, |kids|) && s.procs[s.current].children == kids
    ensures t == Adopting(s)
  {
    assert kids[|kids|..] == [];
  }

  /** The list of a process other than init does not change. */
  lemma AdoptedKeepsList(s: System, c: Pid)
    requires s.allproc != [] && s.allproc[0] in s.procs && c in s.procs
    requires s.current in s.procs && s.allproc[0] != s.current
    ensures AdoptedOne(s, c).procs[s.current].children == s.procs[s.current].children
  {
  }

  /** The current process moves from allproc to zombproc, if it is listed. */
  function Buried(s: System): (r: System)
  {
    if s.current in s.allproc
    then s.(allproc := Deleted(s.allproc, s.current), zombproc := s.zombproc + [s.current])
    else s
  }

  /** What sys_exit finds when it wakes the parent. */
  lemma ExitWith(s: System, status: int)
    requires Inv(s) && Enabled(s, Exit(status)) && s.current != IDLE
    ensures AdoptsFrom(s) && s.current in Adopting(s).procs
    ensures var a := Buried(Adopting(s));
            var e := Change(a, s.current, a.procs[s.current].(life := Zombie, thread := Stopped, status := status));
            && ListsInv(e) && s.current in a.procs && a.current == s.current == e.current
            && var parent := e.procs[s.current].parent;
               && parent in e.procs && e.procs[parent].life == Normal && e.procs[parent].thread in {Running, Waiting}
               && RemoveEnds(e.waiting, parent) && Woken(e, WaitingQueue, parent) == Prepared(s, Exit(status))
  {
    hide ListsInv, StatesInv, Related, Adopting, Woken, Deleted, RemoveEnds, FirstZombie;
    CurrentRuns(s);
    AdoptingKeeps(s);
    EndedKeeps(Adopting(s), status);
  }

  // ---------------------------------------------------------------- wait

  ghost predicate HasEnded(s: System, p: Pid)
  {
    p in s.procs && s.procs[p].life == Zombie && s.procs[p].thread == Stopped
  }

  /** The state in which sys_wait looks at the children. */
  function Marked(s: System, first: bool): (r: System)
    requires s.current in s.procs
  {
    if first then Change(s, s.current, s.procs[s.current].(life := Normal, thread := Waiting)) else s
  }

  lemma MarkedIs(s: System, first: bool)
    requires s.current in s.procs
    ensures first ==> Marked(s, first) == Change(s, s.current, s.procs[s.current].(life := Normal, thread := Waiting))
    ensures !first ==> Marked(s, first) == s
  {
  }

  lemma MarkedSame(s: System, first: bool, p: Pid)
    requires Inv(s) && p in s.procs
    ensures HasEnded(Marked(s, first), p) <==> HasEnded(s, p)
    ensures HasEnded(s, p) ==> p != s.current && Marked(s, first).procs[p] == s.procs[p]
  {
    CurrentRuns(s);
    hide ListsInv, StatesInv;
  }

  lemma CurrentCan(s: System)
    requires Inv(s)
    ensures CanRun(s.procs[s.current])
  {
    CurrentRuns(s);
  }

  lemma WaitsForNone(s: System, first: bool)
    requires Inv(s) && Enabled(s, Wait(first)) && s.procs[s.current].children == []
    ensures Collects(s, Wait(first)) == Nobody && !Schedules(s, Wait(first)) && Prepared(s, Wait(first)) == s
  {
    hide ListsInv, StatesInv;
  }

  /** No child has ended: the caller goes on waiting. */
  lemma WaitsOn(s: System, first: bool, kids: seq<Pid>)
    requires Inv(s) && Enabled(s, Wait(first)) && s.procs[s.current].children == kids && kids != []
    requires forall j | 0 <= j < |kids| :: !HasEnded(s, kids[j])
    ensures Collects(s, Wait(first)) == Nobody && Schedules(s, Wait(first))
    ensures Prepared(s, Wait(first)) == Marked(s, first)
  {
    hide ListsInv, StatesInv;
    CurrentCan(s);
    KidsKnown(s);
    assert FirstZombie(s, kids) == |kids|;
  }

  /** The first child that has ended is collected, and the caller is left as it was. */
  lemma WaitFinds(s: System, first: bool, kids: seq<Pid>, i: nat)
    requires Inv(s) && Enabled(s, Wait(first)) && s.procs[s.current].children == kids && i < |kids|
    requires HasEnded(s, kids[i]) && forall j | 0 <= j < i :: !HasEnded(s, kids[j])
    ensures var c, p, m := kids[i], s.current, Marked(s, first);
            && Collects(s, Wait(first)) == Child(c, s.procs[c].status) && !Schedules(s, Wait(first))
            && c in m.procs
            && var m1 := Change(m, c, m.procs[c].(life := Dead, thread := m.procs[c].thread));
               var m2 := m1.(zombproc := Deleted(m1.zombproc, c));
               && p in m2.procs
               && Change(m2, p, m2.procs[p].(life := Normal, thread := Running)) == Prepared(s, Wait(first))
  {
    hide ListsInv, StatesInv, Deleted;
    CurrentCan(s);
    KidsKnown(s);
    assert FirstZombie(s, kids) == i;
    ReleasedProcs(s, kids[i], first);
  }

  lemma ReleasedProcs(s: System, c: Pid, first: bool)
    requires s.current in s.procs && CanRun(s.procs[s.current]) && c in s.procs && s.procs[c].life == Zombie
    ensures var p, procs := s.current, Marked(s, first).procs;
            var procs' := procs[c := procs[c].(life := Dead)];
            procs'[p := procs'[p].(life := Normal, thread := Running)] == Released(s, c).procs
  {
  }
}
