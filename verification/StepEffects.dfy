/** What each step of `Lifecycle` comes to, said of the states before and after it: who runs then,
    what is in the queues and in which order, and which fields of which processes differ. */
module StepEffects {
  import opened Basics
  import opened Processes
  import opened Lifecycle
  import opened StepParts

  // ---------------------------------------------------------------- the effects

  /** The child joins the end of the run queue and of allproc; the parent goes on, with this
      child as the only recorded one. */
  ghost predicate ForkEffect(s: System, s': System)
  {
    var p, child := s.current, s.lastPid + 1;
    && p in s.procs && child !in s.procs && s'.lastPid == child
    && s'.procs == s.procs[p := s.procs[p].(children := [child])][child := Proc(Normal, Running, true, p, [], 0)]
    && s'.run == s.run + [child] && s'.allproc == s.allproc + [child] && s'.current == p
    && s'.waiting == s.waiting && s'.blocked == s.blocked && s'.sleeping == s.sleeping && s'.zombproc == s.zombproc
  }

  /** The process that has the processor goes to the end of the queue for `t`, and the next of
      the run queue runs, or the idle task if there is none. */
  ghost predicate GivesWay(s: System, t: Thread, s': System)
  {
    var p := s.current;
    && p in s.procs && s'.procs == s.procs[p := s.procs[p].(thread := t, onRq := false)]
    && s.run == [p] + s'.run && s'.current == (if s'.run == [] then 0 else s'.run[0])
    && s'.waiting == s.waiting + (if t == Waiting then [p] else [])
    && s'.blocked == s.blocked + (if t == Blocked then [p] else [])
    && s'.sleeping == s.sleeping + (if t == Sleeping then [p] else [])
    && s'.allproc == s.allproc && s'.zombproc == s.zombproc && s'.lastPid == s.lastPid
  }

  /** The first child that is a zombie is collected; with children but no zombie among them a
      process that starts to wait gives way, and one that was resumed goes on. */
  ghost predicate WaitEffect(s: System, first: bool, s': System)
    requires NamesInv(s)
  {
    KidsKnown(s);
    var kids := s.procs[s.current].children;
    && (forall i | 0 <= i < |kids| && s.procs[kids[i]].life == Zombie
                   && (forall j | 0 <= j < i :: s.procs[kids[j]].life != Zombie) ::
          && s'.procs == s.procs[kids[i] := s.procs[kids[i]].(life := Dead)]
          && s' == s.(procs := s'.procs, zombproc := Without(s.zombproc, kids[i])))
    && ((forall c | c in kids :: s.procs[c].life != Zombie) ==>
          if kids != [] && first then GivesWay(s, Waiting, s') else s' == s)
  }

  /** The process that takes over the children of those that exit. */
  function Init(s: System): (init: Pid)
  {
    if s.allproc == [] then IDLE else s.allproc[0]
  }

  /** The parent that an exiting process is recorded with once its children have been handed on. */
  function ParentAtExit(s: System): (q: Pid)
    requires s.current in s.procs
  {
    if s.current in s.procs[s.current].children then Init(s) else s.procs[s.current].parent
  }

  /** What a process is recorded with once the children of the current one have been handed on. */
  ghost predicate HandedOn(s: System, x: Pid, b: Proc)
    requires x in s.procs && s.current in s.procs
  {
    var a, kids := s.procs[x], s.procs[s.current].children;
    && b.parent == (if x in kids then Init(s) else a.parent)
    && b.children == if kids != [] && x == Init(s) && a.children != [] then a.children + kids else a.children
  }

  /** The process is a zombie and in no queue, its children are init's by their own record, and by
      that of init if it had a child before; the parent can run, and does so first if it was not
      in the run queue. */
  ghost predicate ExitEffect(s: System, status: int, s': System)
    requires NamesInv(s)
  {
    var p, q := s.current, ParentAtExit(s);
    && s'.procs.Keys == s.procs.Keys && s.run != []
    && s'.run == (if q in s.run then s.run[1..] else [q] + s.run[1..]) && s'.run != [] && s'.current == s'.run[0]
    && s'.waiting == Without(s.waiting, q) && s'.blocked == s.blocked && s'.sleeping == s.sleeping
    && s'.allproc == Without(s.allproc, p) && s'.zombproc == s.zombproc + [p] && s'.lastPid == s.lastPid
    && forall x | x in s.procs ::
         var a, b := s.procs[x], s'.procs[x];
         && b.life == (if x == p then Zombie else a.life)
         && b.thread == (if x == p then Stopped else if x == q then Running else a.thread)
         && b.onRq == (x != p && (x == q || a.onRq)) && b.status == (if x == p then status else a.status)
         && HandedOn(s, x, b)
  }

  /** A process that is alive and off the run queue leaves the queue it was in and runs at once;
      any other is left as it is. */
  ghost predicate KillEffect(s: System, k: Pid, s': System)
  {
    if 1 < k && k != s.current && k in s.allproc && k in s.procs && k !in s.run then
      && s'.current == k && s'.run == [k] + s.run
      && s'.procs == s.procs[k := s.procs[k].(life := Normal, thread := Running, onRq := true)]
      && s'.waiting == Without(s.waiting, k) && s'.blocked == Without(s.blocked, k)
      && s'.sleeping == Without(s.sleeping, k) && k !in s'.waiting && k !in s'.blocked && k !in s'.sleeping
      && s'.allproc == s.allproc && s'.zombproc == s.zombproc && s'.lastPid == s.lastPid
    else s' == s
  }

  /** The process that has the processor keeps it, unless it is the idle task and another one is
      in the run queue. */
  ghost predicate TickEffect(s: System, s': System)
  {
    s' == if s.current == 0 && s.run != [] then s.(current := s.run[0]) else s
  }

  ghost predicate Effect(s: System, op: Op, s': System)
    requires NamesInv(s)
  {
    match op
    case Fork => ForkEffect(s, s')
    case Wait(first) => WaitEffect(s, first, s')
    case Exit(status) => if s.current == 0 then s' == s else ExitEffect(s, status, s')
    case Kill(k) => KillEffect(s, k, s')
    case Halt(t) => GivesWay(s, t, s')
    case Tick => TickEffect(s, s')
  }

  // ---------------------------------------------------------------- the steps have them

  lemma RemovedIsWithout<T>(q: seq<T>, p: T)
    requires RemoveEnds(q, p)
    ensures Removed(q, p) == Without(q, p)
  {
    if |q| == 1 {
      assert q[1..] == [];
    } else if 1 < |q| && q[0] != p {
      assert Without(q[1..], p) == q[1..][1..] == q[2..];
    }
  }

  lemma {:induction false} WithoutAbsent<T>(q: seq<T>, p: T)
    requires p !in q
    ensures Without(q, p) == q
  {
    if q != [] {
      WithoutAbsent(q[1..], p);
      assert q == [q[0]] + q[1..];
    }
  }

  lemma TickHas(s: System)
    requires Inv(s)
    ensures Ready(s, Tick) && TickEffect(s, Step(s, Tick))
  {
    CurrentRuns(s);
    StepKeeps(s, Tick);
    hide ListsInv, StatesInv, Related;
  }

  lemma GivesWayAt(s: System, t: Thread)
    requires Inv(s) && s.current != IDLE && t in {Waiting, Blocked, Sleeping}
    ensures GivesWay(s, t, Scheduled(Change(s, s.current, s.procs[s.current].(thread := t))))
  {
    hide ListsInv, StatesInv, Related, RemoveEnds, Chosen;
    CurrentRuns(s);
    ParkedFor(s, t);
    hide Parked;
  }

  /** The first half of schedule, for a process at the head of the run queue that is not to run. */
  lemma ParkedFor(s: System, t: Thread)
    requires s.current in s.procs && CanRun(s.procs[s.current]) && s.procs[s.current].onRq
    requires s.run != [] && s.run[0] == s.current && t in {Waiting, Blocked, Sleeping}
    ensures var p, s' := s.current, Parked(Change(s, s.current, s.procs[s.current].(thread := t)));
            && s'.procs == s.procs[p := s.procs[p].(thread := t, onRq := false)]
            && s.run == [p] + s'.run && s'.current == p
            && s'.waiting == s.waiting + (if t == Waiting then [p] else [])
            && s'.blocked == s.blocked + (if t == Blocked then [p] else [])
            && s'.sleeping == s.sleeping + (if t == Sleeping then [p] else [])
            && s'.allproc == s.allproc && s'.zombproc == s.zombproc && s'.lastPid == s.lastPid
  {
    assert s.run == [s.run[0]] + s.run[1..];
  }

  lemma HaltHas(s: System, t: Thread)
    requires Inv(s) && Enabled(s, Halt(t))
    ensures Ready(s, Halt(t)) && GivesWay(s, t, Step(s, Halt(t)))
  {
    StepKeeps(s, Halt(t));
    GivesWayAt(s, t);
    hide ListsInv, StatesInv, Related, Scheduled, GivesWay;
  }

  lemma KillHas(s: System, k: Pid)
    requires Inv(s) && Enabled(s, Kill(k))
    ensures Ready(s, Kill(k)) && KillEffect(s, k, Step(s, Kill(k)))
  {
    StepKeeps(s, Kill(k));
    InOneQueue(s, k);
    if k in s.allproc {
      KillSees(s, k);
    }
    if KillWakes(s, k) {
      KillWakesUp(s, k);
    }
    hide ListsInv, StatesInv, Related, Scheduled, Woken, RemoveEnds, QueueOf, Without;
  }

  lemma KillWakesUp(s: System, k: Pid)
    requires Inv(s) && KillWakes(s, k) && RemoveEnds(QueueOf(s, KillQueue(s.procs[k])), k)
    ensures KillEffect(s, k, Scheduled(Woken(s, KillQueue(s.procs[k]), k)))
  {
    hide ListsInv, StatesInv, Related, Removed, Without, RemoveEnds, NoDup, Chosen;
    CurrentRuns(s);
    InOneQueue(s, k);
    KillPlace(s, k);
    LeavesQueues(s, KillQueue(s.procs[k]), k);
    WokenIs(s, KillQueue(s.procs[k]), k);
    hide Woken;
  }

  /** The wake-up by way of the queue the process is in. */
  lemma LeavesQueues(s: System, q: Queue, k: Pid)
    requires k in s.procs && k in QueueOf(s, q) && RemoveEnds(QueueOf(s, q), k) && NoDup(QueueOf(s, q))
    requires k in s.waiting ==> k !in s.blocked && k !in s.sleeping
    requires k in s.blocked ==> k !in s.sleeping
    ensures var s' := Woken(s, q, k);
            && s'.waiting == Without(s.waiting, k) && s'.blocked == Without(s.blocked, k)
            && s'.sleeping == Without(s.sleeping, k) && k !in s'.waiting && k !in s'.blocked && k !in s'.sleeping
  {
    RemovedIsWithout(QueueOf(s, q), k);
    WithoutElements(QueueOf(s, q), k);
    hide Removed, Without, RemoveEnds, NoDup;
    if k !in s.waiting {
      WithoutAbsent(s.waiting, k);
    }
    if k !in s.blocked {
      WithoutAbsent(s.blocked, k);
    }
    if k !in s.sleeping {
      WithoutAbsent(s.sleeping, k);
    }
  }

  lemma KillPlace(s: System, k: Pid)
    requires ListsInv(s) && KillWakes(s, k)
    ensures k in QueueOf(s, KillQueue(s.procs[k]))
  {
  }

  lemma ForkHas(s: System)
    requires Inv(s) && Enabled(s, Fork)
    ensures Ready(s, Fork) && ForkEffect(s, Step(s, Fork))
  {
    StepKeeps(s, Fork);
    hide ListsInv, StatesInv, Related;
  }

  /** The wait told apart by what it finds. */
  lemma WaitIs(s: System, first: bool)
    requires Inv(s) && Ready(s, Wait(first)) && forall c | c in s.procs[s.current].children :: c in s.procs
    ensures var kids := s.procs[s.current].children;
            var z, s' := FirstZombie(s, kids), Step(s, Wait(first));
            if z < |kids| then s' == Released(s, kids[z])
            else if kids != [] && first then
              s' == Scheduled(Change(s, s.current, s.procs[s.current].(thread := Waiting)))
            else s' == s
  {
    hide ListsInv, StatesInv, FirstZombie, Released;
    CurrentRuns(s);
  }

  lemma WaitHas(s: System, first: bool)
    requires Inv(s) && Enabled(s, Wait(first))
    ensures Ready(s, Wait(first)) && WaitEffect(s, first, Step(s, Wait(first)))
  {
    hide ListsInv, StatesInv, Related, FirstZombie, Without, Deleted, GivesWay, Released, Scheduled, Step;
    StepKeeps(s, Wait(first));
    KidsKnown(s);
    WaitIs(s, first);
    var kids := s.procs[s.current].children;
    ZombieFirst(s, kids);
    if FirstZombie(s, kids) < |kids| {
      ReleasedEffect(s, kids[FirstZombie(s, kids)]);
    } else if kids != [] && first {
      GivesWayAt(s, Waiting);
    }
  }

  lemma ZombieFirst(s: System, kids: seq<Pid>)
    requires StatesInv(s, {}) && forall c | c in kids :: c in s.procs
    ensures var z := FirstZombie(s, kids);
            && (forall i | 0 <= i < z :: s.procs[kids[i]].life != Zombie)
            && (z < |kids| ==> s.procs[kids[z]].life == Zombie)
  {
  }

  lemma ReleasedEffect(s: System, c: Pid)
    requires ListsInv(s) && c in s.procs && c != IDLE && s.procs[c].life == Zombie
    ensures Released(s, c) == s.(procs := s.procs[c := s.procs[c].(life := Dead)], zombproc := Without(s.zombproc, c))
  {
    assert c in s.zombproc;
    DeletedIsWithout(s.zombproc, c);
  }

  lemma AdoptedOneEffect(s: System, c: Pid, x: Pid)
    requires s.allproc != [] && s.allproc[0] in s.procs && c in s.procs && x in s.procs
    ensures var a, b := s.procs[x], AdoptedOne(s, c).procs[x];
            && b.parent == (if x == c then s.allproc[0] else a.parent)
            && b.children == if x == s.allproc[0] && a.children != [] then a.children + [c] else a.children
  {
  }

  /** The children have init as parent; init has them as children if it had one before. */
  lemma {:induction false} AdoptedEffect(s: System, kids: seq<Pid>, x: Pid)
    requires s.allproc != [] && s.allproc[0] in s.procs && (forall c | c in kids :: c in s.procs) && x in s.procs
    ensures var a, b := s.procs[x], Adopted(s, kids).procs[x];
            && b.parent == (if x in kids then s.allproc[0] else a.parent)
            && b.children == if x == s.allproc[0] && a.children != [] then a.children + kids else a.children
    decreases |kids|
  {
    hide AdoptedOne;
    if kids != [] {
      AdoptedOneEffect(s, kids[0], x);
      AdoptedEffect(AdoptedOne(s, kids[0]), kids[1..], x);
      OneByOne(s.procs[x].children, kids);
    } else {
      assert s.procs[x].children + kids == s.procs[x].children;
    }
  }

  lemma OneByOne(l: seq<Pid>, kids: seq<Pid>)
    requires kids != []
    ensures l + [kids[0]] + kids[1..] == l + kids
    ensures forall x :: x in kids <==> x == kids[0] || x in kids[1..]
  {
    assert kids == [kids[0]] + kids[1..];
  }

  lemma AdoptingEffect(s: System, x: Pid)
    requires NamesInv(s) && x in s.procs
    requires s.procs[s.current].children != [] ==> s.allproc != [] && s.allproc[0] in s.procs
    ensures HandedOn(s, x, Adopting(s).procs[x])
  {
    KidsKnown(s);
    if s.procs[s.current].children != [] {
      AdoptedEffect(s, s.procs[s.current].children, x);
    }
    hide Adopted;
  }

  /** schedule of a zombie at the head of the run queue or second there. */
  lemma ZombieLeaves(s: System)
    requires s.current in s.procs && s.procs[s.current].life == Zombie && s.procs[s.current].thread == Stopped
    requires s.procs[s.current].onRq && Removed(s.run, s.current) != []
    ensures Scheduled(s) == s.(procs := s.procs[s.current := s.procs[s.current].(onRq := false)],
                               run := Removed(s.run, s.current), current := Removed(s.run, s.current)[0])
  {
    hide Removed;
  }

  /** The exiting process is the head of the run queue, or second after its parent. */
  lemma RunAfterExit(run: seq<Pid>, p: Pid, q: Pid)
    requires run != [] && run[0] == p && p != q && NoDup(run)
    ensures Removed(if q in run then run else [q] + run, p) == if q in run then run[1..] else [q] + run[1..]
    ensures q in run ==> run[1..] != []
  {
    if q !in run {
      assert ([q] + run)[2..] == run[1..];
    }
  }

  /** What the exiting process and its parent are after the exit, from what they were once the
      children had been handed on. */
  function ProcsAfterExit(a: System, status: int): (r: map<Pid, Proc>)
    requires a.current in a.procs && a.procs[a.current].parent in a.procs
  {
    var p, q := a.current, a.procs[a.current].parent;
    a.procs[p := a.procs[p].(life := Zombie, thread := Stopped, status := status, onRq := false)]
           [q := a.procs[q].(thread := Running, onRq := true)]
  }

  /** From the adoption to the end of the exit. */
  lemma EndsAndWakes(s: System, a: System, status: int)
    requires Inv(s) && s.current != IDLE && Quiet(s, a) && a.procs[s.current].parent in s.procs
    requires var q := a.procs[s.current].parent;
             q != s.current && s.procs[q].life == Normal && RemoveEnds(s.waiting, q)
    ensures a.procs.Keys == s.procs.Keys && a.current == s.current
    ensures var q := a.procs[s.current].parent;
            var s' := Scheduled(Woken(Ended(a, status), WaitingQueue, q));
            && s.run != [] && s'.procs == ProcsAfterExit(a, status)
            && s'.run == (if q in s.run then s.run[1..] else [q] + s.run[1..])
            && s'.run != [] && s'.current == s'.run[0]
            && s'.waiting == Without(s.waiting, q) && s'.blocked == s.blocked && s'.sleeping == s.sleeping
            && s'.allproc == Without(s.allproc, s.current) && s'.zombproc == s.zombproc + [s.current]
            && s'.lastPid == s.lastPid
  {
    hide ListsInv, StatesInv, Related, Removed, Without, RemoveEnds, Deleted, Woken, Scheduled, NoDup, Chosen;
    CurrentRuns(s);
    var e, p, q := Ended(a, status), s.current, a.procs[s.current].parent;
    InOneQueue(s, q);
    RemovedIsWithout(s.waiting, q);
    DeletedIsWithout(s.allproc, p);
    RunAfterExit(s.run, p, q);
    WokenIs(e, WaitingQueue, q);
    WokenQueues(e, q);
    var w := Woken(e, WaitingQueue, q);
    assert w.procs[p] == e.procs[p] && w.run == if q in s.run then s.run else [q] + s.run;
    ZombieLeaves(w);
    assert Scheduled(w).procs == ProcsAfterExit(a, status);
  }

  lemma WokenQueues(s: System, q: Pid)
    requires q in s.procs
    ensures var s' := Woken(s, WaitingQueue, q);
            s'.waiting == Removed(s.waiting, q) && s'.blocked == s.blocked && s'.sleeping == s.sleeping
  {
    hide Removed;
  }

  lemma ExitIs(s: System, status: int)
    requires Inv(s) && Ready(s, Exit(status)) && s.current != IDLE
    ensures var a := Adopting(s);
            && Quiet(s, a) && a.procs[s.current].parent in s.procs
            && var q := a.procs[s.current].parent;
               && q != s.current && s.procs[q].life == Normal && RemoveEnds(s.waiting, q)
               && Step(s, Exit(status)) == Scheduled(Woken(Ended(a, status), WaitingQueue, q))
  {
    hide ListsInv, StatesInv, Related, Adopting, Woken, Scheduled, RemoveEnds, Deleted;
  }

  lemma ExitHas(s: System, status: int)
    requires Inv(s) && Enabled(s, Exit(status)) && s.current != IDLE
    ensures Ready(s, Exit(status)) && ExitEffect(s, status, Step(s, Exit(status)))
  {
    hide ListsInv, StatesInv, Related, Adopting, Ended, Woken, Scheduled, Without, RemoveEnds, HandedOn, Step, Quiet,
         ProcsAfterExit;
    StepKeeps(s, Exit(status));
    ExitIs(s, status);
    var a := Adopting(s);
    EndsAndWakes(s, a, status);
    forall x | x in s.procs
      ensures HandedOn(s, x, a.procs[x])
    {
      AdoptingEffect(s, x);
    }
    ExitFields(s, a, status);
  }

  lemma ExitFields(s: System, a: System, status: int)
    requires Inv(s) && s.current != IDLE && Quiet(s, a) && a.procs[s.current].parent in s.procs
    requires forall x | x in s.procs :: HandedOn(s, x, a.procs[x])
    requires var q := a.procs[s.current].parent; q != s.current && s.procs[q].life == Normal
    ensures a.procs.Keys == s.procs.Keys && a.current == s.current && a.procs[s.current].parent == ParentAtExit(s)
    ensures ProcsAfterExit(a, status).Keys == s.procs.Keys
    ensures forall x | x in s.procs ::
              var p, q, b := s.current, ParentAtExit(s), ProcsAfterExit(a, status)[x];
              && b.life == (if x == p then Zombie else s.procs[x].life)
              && b.thread == (if x == p then Stopped else if x == q then Running else s.procs[x].thread)
              && b.onRq == (x != p && (x == q || s.procs[x].onRq))
              && b.status == (if x == p then status else s.procs[x].status) && HandedOn(s, x, b)
  {
    hide ListsInv, StatesInv, Related;
  }

  /** Every step has the effect that its kind of step has, whatever the state. */
  lemma StepHas(s: System, op: Op)
    requires Inv(s) && Enabled(s, op)
    ensures Ready(s, op) && Effect(s, op, Step(s, op))
  {
    hide Inv, Step, ForkEffect, WaitEffect, ExitEffect, KillEffect, GivesWay, TickEffect;
    match op
    case Fork => ForkHas(s);
    case Wait(first) => WaitHas(s, first);
    case Exit(status) => if s.current != IDLE { ExitHas(s, status); } else { IdleExit(s, status); }
    case Kill(k) => KillHas(s, k);
    case Halt(t) => HaltHas(s, t);
    case Tick => TickHas(s);
  }

  lemma IdleExit(s: System, status: int)
    requires Inv(s) && s.current == IDLE
    ensures Ready(s, Exit(status)) && Step(s, Exit(status)) == s
  {
    StepKeeps(s, Exit(status));
  }
}
