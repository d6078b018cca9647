/** Whole runs of processes: fork, wait, exit, kill, blocking and timer ticks as steps of one
    state machine (sys/process.c, sys/scheduler.c, sys/signal.c, sys/pit.c), and what holds
    in every state of every run. */
module Lifecycle {
  import opened Basics
  import opened Processes

  const PID_LIMIT := 65536

  /** `Wait(true)` is sys_wait from its start, `Wait(false)` one more pass after it was
      resumed; `Halt` is block_process or sys_sleep_process of the current process. */
  datatype Op = Fork | Wait(first: bool) | Exit(status: int) | Kill(pid: Pid) | Halt(thread: Thread) | Tick

  // ---------------------------------------------------------------- the steps

  /** do_fork: the child joins the end of the run queue and of allproc, and becomes the only
      recorded child of the current process. */
  function Forked(s: System): (r: System)
    requires s.current in s.procs
  {
    var child := s.lastPid + 1;
    var parent := s.procs[s.current].(children := [child]);
    s.(procs := s.procs[s.current := parent][child := Proc(Normal, Running, true, s.current, [], 0)],
       run := s.run + [child], allproc := s.allproc + [child], lastPid := child)
  }

  /** Nothing but parents and children differ. */
  ghost predicate Quiet(s: System, s': System)
  {
    && s'.procs.Keys == s.procs.Keys && s' == s.(procs := s'.procs)
    && forall p | p in s.procs ::
         && s'.procs[p].life == s.procs[p].life && s'.procs[p].thread == s.procs[p].thread
         && s'.procs[p].onRq == s.procs[p].onRq && s'.procs[p].status == s.procs[p].status
  }

  /** reparent_process_to_init: the parent pointer moves, but the child is recorded only with
      an init process that has a recorded child already. */
  function AdoptedOne(s: System, c: Pid): (r: System)
    requires s.allproc != [] && s.allproc[0] in s.procs && c in s.procs
    ensures Quiet(s, r)
  {
    var init := s.allproc[0];
    var s' := Change(s, c, s.procs[c].(parent := init));
    var l := s'.procs[init].children;
    Change(s', init, s'.procs[init].(children := if l == [] then l else l + [c]))
  }

  function Adopted(s: System, kids: seq<Pid>): (r: System)
    requires s.allproc != [] && s.allproc[0] in s.procs && forall c | c in kids :: c in s.procs
    ensures Quiet(s, r)
    decreases |kids|
  {
    if kids == [] then s
    else
      var s' := AdoptedOne(s, kids[0]);
      QuietChain(s, s', Adopted(s', kids[1..]));
      Adopted(s', kids[1..])
  }

  lemma QuietChain(s: System, s': System, s'': System)
    requires Quiet(s, s') && Quiet(s', s'')
    ensures Quiet(s, s'')
  {
  }

  /** The current process turns into a zombie. */
  function Ended(s: System, status: int): (r: System)
    requires s.current in s.procs
  {
    var p := s.current;
    Change(s, p, s.procs[p].(life := Zombie, thread := Stopped, status := status))
    .(allproc := if p in s.allproc then Deleted(s.allproc, p) else s.allproc,
      zombproc := if p in s.allproc then s.zombproc + [p] else s.zombproc)
  }

  /** The place of the first zombie among the children, as the loop of sys_wait finds it. */
  function FirstZombie(s: System, kids: seq<Pid>): (r: nat)
    requires forall c | c in kids :: c in s.procs
    ensures r <= |kids|
    ensures r < |kids| ==> s.procs[kids[r]].life == Zombie && s.procs[kids[r]].thread == Stopped
    ensures forall i | 0 <= i < r :: s.procs[kids[i]].life != Zombie || s.procs[kids[i]].thread != Stopped
  {
    if kids == [] then 0
    else if s.procs[kids[0]].life == Zombie && s.procs[kids[0]].thread == Stopped then 0
    else FirstZombie(s, kids[1..]) + 1
  }

  /** do_wait_thread on a zombie. */
  function Released(s: System, c: Pid): (r: System)
    requires c in s.procs
  {
    Change(s, c, s.procs[c].(life := Dead)).(zombproc := Deleted(s.zombproc, c))
  }

  /** The child that the step collects. */
  datatype Collected = Nobody | Child(pid: Pid, status: int)

  function Collects(s: System, op: Op): (r: Collected)
    requires NamesInv(s)
    ensures r.Child? ==> r.pid in s.procs && r.pid != IDLE && s.procs[r.pid].life == Zombie
  {
    assert Related(s.procs, s.current);
    var kids := s.procs[s.current].children;
    if op.Wait? && FirstZombie(s, kids) < |kids| then
      var c := kids[FirstZombie(s, kids)];
      Child(c, s.procs[c].status)
    else Nobody
  }

  /** The process that send_signal wakes, by the queue it is in. */
  function KillQueue(pr: Proc): (r: Queue)
  {
    match pr.thread
    case Sleeping => SleepingQueue
    case Blocked => BlockedQueue
    case _ => WaitingQueue
  }

  predicate KillWakes(s: System, p: Pid)
  {
    && 1 < p && p != s.current && p in s.allproc && p in s.procs && !s.procs[p].onRq
    && s.procs[p].life == Normal && s.procs[p].thread in {Sleeping, Blocked, Waiting}
  }

  /** What a step does before it calls schedule, if it does. */
  function Prepared(s: System, op: Op): (r: System)
    requires NamesInv(s) && Enabled(s, op)
  {
    var p := s.current;
    var pr := s.procs[p];
    match op
    case Fork => Forked(s)
    case Wait(first) =>
      if pr.children == [] then s
      else if Collects(s, op).Child? then Released(s, Collects(s, op).pid)
      else if first then Change(s, p, pr.(thread := Waiting)) else s
    case Exit(status) =>
      if p == IDLE then s
      else
        assert Related(s.procs, p);
        var s' := Ended(Adopting(s), status);
        Woken(s', WaitingQueue, s'.procs[p].parent)
    case Kill(k) => if KillWakes(s, k) then Woken(s, KillQueue(s.procs[k]), k) else s
    case Halt(t) => Change(s, p, pr.(thread := t))
    case Tick => s
  }

  predicate Schedules(s: System, op: Op)
    requires NamesInv(s)
  {
    match op
    case Fork => false
    case Wait(_) => s.procs[s.current].children != [] && Collects(s, op) == Nobody
    case Exit(_) => s.current != IDLE
    case Kill(k) => KillWakes(s, k)
    case Halt(_) => true
    case Tick => true
  }

  function Step(s: System, op: Op): (r: System)
    requires NamesInv(s) && Enabled(s, op) && Prepared(s, op).current in Prepared(s, op).procs
  {
    if Schedules(s, op) then Scheduled(Prepared(s, op)) else Prepared(s, op)
  }

  /** The children of the exiting process have been handed to init. */
  function Adopting(s: System): (r: System)
    requires NamesInv(s) && (s.procs[s.current].children != [] ==> s.allproc != [] && s.allproc[0] in s.procs)
    ensures Quiet(s, r)
  {
    assert Related(s.procs, s.current);
    if s.procs[s.current].children == [] then s else Adopted(s, s.procs[s.current].children)
  }

  /** What a step asks for.  The idle task does not wait or block, and pids do not wrap round.
      A process that exits is not init with children to hand on, its recorded parent is
      another process that is live and neither blocked nor asleep, and the removal of the
      parent from the waiting queue ends; so does the removal of a process that is killed. */
  ghost predicate Enabled(s: System, op: Op)
    requires NamesInv(s)
  {
    match op
    case Fork => s.lastPid + 1 < PID_LIMIT
    case Wait(_) => s.current != IDLE
    case Exit(_) =>
      s.current != IDLE ==>
        && (s.procs[s.current].children != [] ==>
              s.allproc != [] && s.allproc[0] in s.procs && s.allproc[0] != s.current)
        && var parent := Adopting(s).procs[s.current].parent;
           && parent in s.procs && parent != s.current && s.procs[parent].life == Normal
           && s.procs[parent].thread in {Running, Waiting} && RemoveEnds(s.waiting, parent)
    case Kill(k) => KillWakes(s, k) ==> RemoveEnds(QueueOf(s, KillQueue(s.procs[k])), k)
    case Halt(t) => s.current != IDLE && t in {Blocked, Sleeping}
    case Tick => true
  }

  // ---------------------------------------------------------------- every step keeps the invariant

  /** The current process is live and runnable. */
  lemma CurrentRuns(s: System)
    requires Inv(s)
    ensures CanRun(s.procs[s.current])
    ensures s.current != IDLE ==>
              s.procs[s.current].onRq && s.run != [] && s.run[0] == s.current && s.current in s.allproc
    ensures s.procs[s.current].onRq ==> RemoveEnds(s.run, s.current)
  {
    RunHead(s);
  }

  lemma TickReady(s: System)
    requires Inv(s)
    ensures Schedulable(s)
  {
    CurrentRuns(s);
    hide ListsInv, RemoveEnds;
  }

  lemma QuietKeeps(s: System, s': System, x: set<Pid>)
    requires Quiet(s, s') && ListsInv(s) && StatesInv(s, x)
    ensures ListsInv(s') && StatesInv(s', x)
  {
  }

  lemma ForkKeeps(s: System)
    requires Inv(s)
    ensures Inv(Forked(s))
  {
    hide Lists;
    var p, child := s.current, s.lastPid + 1;
    var parent := s.procs[p].(children := [child]);
    var pr := Proc(Normal, Running, true, p, [], 0);
    var s1 := Change(s, p, parent);
    ChangeQuietly(s, p, parent);
    ListsAdd(s1.run, s1.procs, child, pr, Queued);
    ListsAdd(s1.allproc, s1.procs, child, pr, Lives);
    ListsKeep(s1.waiting, s1.procs, child, pr, Waits);
    ListsKeep(s1.blocked, s1.procs, child, pr, Blocks);
    ListsKeep(s1.sleeping, s1.procs, child, pr, Sleeps);
    ListsKeep(s1.zombproc, s1.procs, child, pr, Lingers);
    hide ListsInv;
    ForkNames(s);
  }

  lemma ForkNames(s: System)
    requires NamesInv(s)
    ensures NamesInv(Forked(s))
  {
    var s', child := Forked(s), s.lastPid + 1;
    assert s'.procs.Keys == s.procs.Keys + {child};
    forall q | q in s'.procs
      ensures Related(s'.procs, q)
    {
      if q == child || q == s.current {
        assert s'.procs[q].parent in s'.procs by { assert Related(s.procs, s.current); }
      } else {
        assert Related(s.procs, q) && s'.procs[q] == s.procs[q];
      }
    }
  }

  lemma ReleasedKeeps(s: System, c: Pid)
    requires Inv(s) && c in s.procs && c != IDLE && s.procs[c].life == Zombie
    ensures Inv(Released(s, c))
  {
    hide ListsInv, Deleted, Related;
    ReleasedLists(s, c);
    NamesKept(s, Released(s, c));
  }

  lemma ReleasedLists(s: System, c: Pid)
    requires ListsInv(s) && c in s.procs && c != IDLE && s.procs[c].life == Zombie
    ensures ListsInv(Released(s, c))
  {
    assert c in s.zombproc;
    hide Lists;
    var pr := s.procs[c].(life := Dead);
    ListsKeep(s.run, s.procs, c, pr, Queued);
    ListsKeep(s.waiting, s.procs, c, pr, Waits);
    ListsKeep(s.blocked, s.procs, c, pr, Blocks);
    ListsKeep(s.sleeping, s.procs, c, pr, Sleeps);
    ListsKeep(s.allproc, s.procs, c, pr, Lives);
    ListsDelete(s.zombproc, s.procs, c, pr, Lingers);
  }

  /** The current process stops to wait, block or sleep. */
  lemma HaltReady(s: System, t: Thread)
    requires Inv(s) && s.current != IDLE && t in {Waiting, Blocked, Sleeping}
    ensures Schedulable(Change(s, s.current, s.procs[s.current].(thread := t)))
  {
    hide RemoveEnds, Related, ListsInv, StatesInv;
    CurrentRuns(s);
    HaltLists(s, t);
    NamesKept(s, Change(s, s.current, s.procs[s.current].(thread := t)));
  }

  lemma HaltLists(s: System, t: Thread)
    requires ListsInv(s) && s.current in s.procs && StatesInv(s, {}) && t in {Waiting, Blocked, Sleeping}
    requires s.procs[s.current].onRq && CanRun(s.procs[s.current])
    ensures var s' := Change(s, s.current, s.procs[s.current].(thread := t));
            ListsInv(s') && StatesInv(s', {s.current})
  {
    hide Lists;
    var p, pr := s.current, s.procs[s.current].(thread := t);
    ListsKeep(s.run, s.procs, p, pr, Queued);
    ListsKeep(s.waiting, s.procs, p, pr, Waits);
    ListsKeep(s.blocked, s.procs, p, pr, Blocks);
    ListsKeep(s.sleeping, s.procs, p, pr, Sleeps);
    ListsKeep(s.allproc, s.procs, p, pr, Lives);
    ListsKeep(s.zombproc, s.procs, p, pr, Lingers);
  }

  lemma KillReady(s: System, k: Pid)
    requires Inv(s) && KillWakes(s, k) && RemoveEnds(QueueOf(s, KillQueue(s.procs[k])), k)
    ensures Schedulable(Woken(s, KillQueue(s.procs[k]), k))
  {
    CurrentRuns(s);
    WakeReady(s, KillQueue(s.procs[k]), k);
  }

  /** A wake-up of another process keeps the current one where it can be removed from. */
  lemma WakeReady(s: System, q: Queue, p: Pid)
    requires ListsInv(s) && NamesInv(s) && StatesInv(s, {s.current}) && p in s.procs && p != s.current
    requires var pr := s.procs[s.current];
             && pr.life != New && (pr.thread == Stopped <==> pr.life != Normal) && pr.life != Dead
             && (pr.onRq ==> s.run != [] && s.run[0] == s.current) && (!pr.onRq ==> s.current == IDLE)
             && (s.current == IDLE ==> CanRun(pr))
    requires s.procs[p].life == Normal && (s.procs[p].thread == Running || s.procs[p].thread == ThreadOf(q))
    requires RemoveEnds(QueueOf(s, q), p)
    ensures Schedulable(Woken(s, q, p))
  {
    hide ListsInv, StatesInv, Woken, Related, ThreadOf, QueueOf;
    WakeKeeps(s, q, p);
    WokenIs(s, q, p);
    WokenStates(s, q, p);
    NamesKept(s, Woken(s, q, p));
  }

  lemma WokenStates(s: System, q: Queue, p: Pid)
    requires p in s.procs && StatesInv(s, {s.current}) && s.procs[p].life == Normal
    ensures StatesInv(Woken(s, q, p), {s.current})
  {
    WokenIs(s, q, p);
    hide Woken;
  }

  lemma WokenIs(s: System, q: Queue, p: Pid)
    requires p in s.procs
    ensures var s' := Woken(s, q, p);
            && s'.procs == s.procs[p := s.procs[p].(life := Normal, thread := Running, onRq := true)]
            && s'.current == s.current && s'.lastPid == s.lastPid
            && s'.allproc == s.allproc && s'.zombproc == s.zombproc
            && s'.run == if s.procs[p].onRq then s.run else [p] + s.run
  {
    hide Removed;
  }

  lemma AdoptedOneNames(s: System, c: Pid)
    requires NamesInv(s) && s.allproc != [] && s.allproc[0] in s.procs && c in s.procs && c != IDLE
    ensures NamesInv(AdoptedOne(s, c))
  {
    var s' := AdoptedOne(s, c);
    forall q | q in s'.procs
      ensures Related(s'.procs, q)
    {
      assert Related(s.procs, q);
    }
  }

  lemma {:induction false} AdoptedNames(s: System, kids: seq<Pid>)
    requires NamesInv(s) && s.allproc != [] && s.allproc[0] in s.procs
    requires forall c | c in kids :: c in s.procs && c != IDLE
    ensures NamesInv(Adopted(s, kids))
    decreases |kids|
  {
    if kids != [] {
      hide AdoptedOne;
      AdoptedOneNames(s, kids[0]);
      AdoptedNames(AdoptedOne(s, kids[0]), kids[1..]);
    }
  }

  lemma AdoptingKeeps(s: System)
    requires Inv(s)
    requires s.procs[s.current].children != [] ==> s.allproc != [] && s.allproc[0] in s.procs
    ensures ListsInv(Adopting(s)) && StatesInv(Adopting(s), {}) && NamesInv(Adopting(s))
  {
    assert Related(s.procs, s.current);
    if s.procs[s.current].children != [] {
      AdoptedNames(s, s.procs[s.current].children);
    }
    hide ListsInv, StatesInv, NamesInv, Quiet, Adopting;
    QuietKeeps(s, Adopting(s), {});
  }

  lemma EndedKeeps(s: System, status: int)
    requires ListsInv(s) && StatesInv(s, {}) && NamesInv(s) && s.current != IDLE && s.current in s.allproc
    requires s.procs[s.current].onRq
    ensures ListsInv(Ended(s, status)) && StatesInv(Ended(s, status), {s.current}) && NamesInv(Ended(s, status))
  {
    assert s.procs[s.current].life == Normal;
    hide Lists;
    var p, pr := s.current, s.procs[s.current].(life := Zombie, thread := Stopped, status := status);
    ListsKeep(s.run, s.procs, p, pr, Queued);
    ListsKeep(s.waiting, s.procs, p, pr, Waits);
    ListsKeep(s.blocked, s.procs, p, pr, Blocks);
    ListsKeep(s.sleeping, s.procs, p, pr, Sleeps);
    ListsDelete(s.allproc, s.procs, p, pr, Lives);
    ListsAdd(s.zombproc, s.procs, p, pr, Lingers);
    hide ListsInv, Deleted;
    NamesKept(s, Ended(s, status));
  }

  lemma ExitReady(s: System, status: int)
    requires Inv(s) && Enabled(s, Exit(status)) && s.current != IDLE
    ensures Schedulable(Prepared(s, Exit(status)))
  {
    hide ListsInv, StatesInv, Related, Adopting, RemoveEnds, Deleted, FirstZombie;
    CurrentRuns(s);
    AdoptingKeeps(s);
    var a := Adopting(s);
    assert a.procs[s.current].onRq && a.current == s.current;
    EndedKeeps(a, status);
    var e := Ended(a, status);
    hide Woken;
    WakeReady(e, WaitingQueue, e.procs[s.current].parent);
  }

  /** Every step that calls schedule does so in a state where the removal from the run queue
      ends. */
  lemma PreparedReady(s: System, op: Op)
    requires Inv(s) && Enabled(s, op)
    ensures if Schedules(s, op) then Schedulable(Prepared(s, op)) else Inv(Prepared(s, op))
  {
    assert NamesInv(s);
    hide Inv, Schedulable, Woken, Released, Forked, Ended, Adopting;
    match op
    case Fork => ForkKeeps(s);
    case Wait(first) =>
      if Collects(s, op).Child? {
        ReleasedKeeps(s, Collects(s, op).pid);
      } else if first {
        WaitReady(s);
      } else {
        TickReady(s);
      }
    case Exit(status) =>
      if s.current != IDLE {
        ExitReady(s, status);
      }
    case Kill(k) =>
      if KillWakes(s, k) {
        KillReady(s, k);
      }
    case Halt(t) => HaltReady(s, t);
    case Tick => TickReady(s);
  }

  lemma WaitReady(s: System)
    requires Inv(s) && s.current != IDLE
    ensures Schedulable(Change(s, s.current, s.procs[s.current].(thread := Waiting)))
  {
    HaltReady(s, Waiting);
  }

  /** After a step that calls schedule the head of the run queue runs, or the idle task does
      and the run queue is empty. */
  ghost predicate HeadRuns(s: System)
  {
    (s.run != [] && s.current == s.run[0]) || (s.run == [] && s.current == IDLE)
  }

  lemma StepKeeps(s: System, op: Op)
    requires Inv(s) && Enabled(s, op)
    ensures Prepared(s, op).current in Prepared(s, op).procs
    ensures Inv(Step(s, op)) && (Schedules(s, op) ==> HeadRuns(Step(s, op)))
  {
    PreparedReady(s, op);
    assert Prepared(s, op).current in Prepared(s, op).procs;
    hide Prepared, Scheduled;
    if Schedules(s, op) {
      ScheduleKeeps(Prepared(s, op));
    }
  }

  // ---------------------------------------------------------------- lives of processes

  /** What a step does to the life and the exit status of a process. */
  ghost predicate Aged(s: System, op: Op, s': System, p: Pid)
    requires NamesInv(s) && p in s.procs
  {
    && p in s'.procs
    && var a, b := s.procs[p], s'.procs[p];
       if op.Exit? && p == s.current && p != IDLE then b.life == Zombie && b.status == op.status
       else if Collects(s, op).Child? && p == Collects(s, op).pid then b.life == Dead && b.status == a.status
       else b.life == a.life && b.status == a.status
  }

  /** schedule changes no life and no status. */
  lemma ScheduledLives(s: System, p: Pid)
    requires s.current in s.procs
    ensures Scheduled(s).procs.Keys == s.procs.Keys
    ensures p in s.procs ==>
              Scheduled(s).procs[p].life == s.procs[p].life && Scheduled(s).procs[p].status == s.procs[p].status
  {
    hide Removed;
  }

  lemma ExitAges(s: System, status: int, p: Pid)
    requires Inv(s) && Enabled(s, Exit(status)) && p in s.procs && s.current != IDLE
    ensures Aged(s, Exit(status), Prepared(s, Exit(status)), p)
  {
    hide ListsInv, StatesInv, Related, Adopting, Deleted, Woken, RemoveEnds, FirstZombie;
    var e := Ended(Adopting(s), status);
    WokenIs(e, WaitingQueue, e.procs[s.current].parent);
  }

  lemma KillAges(s: System, k: Pid, p: Pid)
    requires Inv(s) && Enabled(s, Kill(k)) && p in s.procs
    ensures Aged(s, Kill(k), Prepared(s, Kill(k)), p)
  {
    hide ListsInv, StatesInv;
    if KillWakes(s, k) {
      WokenIs(s, KillQueue(s.procs[k]), k);
    }
    hide Woken;
  }

  lemma PreparedAges(s: System, op: Op, p: Pid)
    requires Inv(s) && Enabled(s, op) && p in s.procs
    ensures Aged(s, op, Prepared(s, op), p)
  {
    hide ListsInv, StatesInv, Woken, Adopting, Deleted;
    if op.Exit? && s.current != IDLE {
      ExitAges(s, op.status, p);
    } else if op.Kill? {
      KillAges(s, op.pid, p);
    }
  }

  lemma StepAges(s: System, op: Op, p: Pid)
    requires Inv(s) && Enabled(s, op) && Prepared(s, op).current in Prepared(s, op).procs && p in s.procs
    ensures Aged(s, op, Step(s, op), p)
  {
    PreparedAges(s, op, p);
    hide Prepared, Scheduled, Inv;
    ScheduledLives(Prepared(s, op), p);
  }

  // ---------------------------------------------------------------- runs

  ghost predicate Ready(s: System, op: Op)
  {
    NamesInv(s) && Enabled(s, op) && Prepared(s, op).current in Prepared(s, op).procs
  }

  /** The state after the first `i` steps. */
  ghost function Run(s: System, ops: seq<Op>, i: nat): (r: System)
    requires i <= |ops|
  {
    if i == 0 then s
    else
      var b := Run(s, ops, i - 1);
      if Ready(b, ops[i - 1]) then Step(b, ops[i - 1]) else b
  }

  ghost predicate AllEnabled(s: System, ops: seq<Op>, i: nat)
    requires i <= |ops|
  {
    0 < i ==>
      var b := Run(s, ops, i - 1);
      AllEnabled(s, ops, i - 1) && NamesInv(b) && Enabled(b, ops[i - 1])
  }

  lemma {:induction false} AllEnabledBefore(s: System, ops: seq<Op>, i: nat, j: nat)
    requires i <= j <= |ops| && AllEnabled(s, ops, j)
    ensures AllEnabled(s, ops, i)
  {
    if i < j {
      AllEnabledBefore(s, ops, i, j - 1);
    }
  }

  /** At boot there is the idle task and nothing else. */
  function Booted(): (r: System)
  {
    System(map[IDLE := Proc(Normal, Running, false, IDLE, [], 0)], [], [], [], [], IDLE, [], [], 0)
  }

  lemma BootedKeeps()
    ensures Inv(Booted())
  {
    assert Related(Booted().procs, IDLE);
  }

  /** The invariant holds in every state of every run. */
  lemma {:induction false} RunKeeps(s: System, ops: seq<Op>, i: nat)
    requires Inv(s) && i <= |ops| && AllEnabled(s, ops, i)
    ensures Inv(Run(s, ops, i))
  {
    hide Inv, Enabled, NamesInv, Step, Prepared;
    if 0 < i {
      RunKeeps(s, ops, i - 1);
      StepKeeps(Run(s, ops, i - 1), ops[i - 1]);
    }
  }

  /** One more step of a run: the state before it, the step itself, and the state after. */
  lemma RunStep(s: System, ops: seq<Op>, i: nat, p: Pid)
    requires Inv(s) && i < |ops| && AllEnabled(s, ops, i + 1)
    ensures var b := Run(s, ops, i);
            && Inv(b) && Enabled(b, ops[i]) && Ready(b, ops[i]) && Run(s, ops, i + 1) == Step(b, ops[i])
            && (p in b.procs ==> Aged(b, ops[i], Run(s, ops, i + 1), p))
  {
    hide Inv, Enabled, NamesInv, Step, Prepared, Aged;
    RunKeeps(s, ops, i);
    var b := Run(s, ops, i);
    StepKeeps(b, ops[i]);
    if p in b.procs {
      StepAges(b, ops[i], p);
    }
  }

  /** No process is in two queues, `onRq` says who is in the run queue, and no process is both
      live and a zombie. */
  lemma InOneQueue(s: System, p: Pid)
    requires Inv(s)
    ensures p in s.run <==> p in s.procs && s.procs[p].onRq
    ensures p in s.run ==> p !in s.waiting && p !in s.blocked && p !in s.sleeping
    ensures p in s.waiting ==> p !in s.blocked && p !in s.sleeping
    ensures p in s.blocked ==> p !in s.sleeping
    ensures p in s.allproc ==> p !in s.zombproc
    ensures NoDup(s.run) && NoDup(s.waiting) && NoDup(s.blocked) && NoDup(s.sleeping)
    ensures NoDup(s.allproc) && NoDup(s.zombproc)
  {
    assert p in s.run <==> Listed(s.procs, p, Queued);
  }

  function Rank(l: Life): (r: nat)
  {
    match l
    case New => 0
    case Normal => 1
    case Zombie => 2
    case Dead => 3
  }

  /** Lives only move on. */
  lemma {:induction false} LivesMoveOn(s: System, ops: seq<Op>, i: nat, j: nat, p: Pid)
    requires Inv(s) && i <= j <= |ops| && AllEnabled(s, ops, j) && p in Run(s, ops, i).procs
    ensures p in Run(s, ops, j).procs
    ensures Rank(Run(s, ops, i).procs[p].life) <= Rank(Run(s, ops, j).procs[p].life)
    decreases j
  {
    hide Run, Inv, Enabled, NamesInv, AllEnabled;
    if i < j {
      AllEnabledBefore(s, ops, j - 1, j);
      LivesMoveOn(s, ops, i, j - 1, p);
      RunStep(s, ops, j - 1, p);
      MovesOn(Run(s, ops, j - 1), ops[j - 1], Run(s, ops, j), p);
    }
  }

  lemma MovesOn(s: System, op: Op, s': System, p: Pid)
    requires Inv(s) && p in s.procs && Aged(s, op, s', p)
    ensures Rank(s.procs[p].life) <= Rank(s'.procs[p].life)
  {
    if op.Exit? && p == s.current {
      CurrentRuns(s);
    }
  }

  /** Step `i` of the run collects `p`. */
  ghost predicate CollectsAt(s: System, ops: seq<Op>, i: nat, p: Pid)
    requires i < |ops|
  {
    var b := Run(s, ops, i);
    NamesInv(b) && Collects(b, ops[i]).Child? && Collects(b, ops[i]).pid == p
  }

  /** sys_wait returns a pid at most once. */
  lemma CollectedOnce(s: System, ops: seq<Op>, i: nat, j: nat, p: Pid)
    requires Inv(s) && i < j < |ops| && AllEnabled(s, ops, j) && CollectsAt(s, ops, i, p)
    ensures !CollectsAt(s, ops, j, p)
  {
    hide Run, Inv, Enabled, NamesInv, AllEnabled;
    AllEnabledBefore(s, ops, i + 1, j);
    RunStep(s, ops, i, p);
    LivesMoveOn(s, ops, i + 1, j, p);
  }

  /** A zombie got there by an exit of its own, and holds the status it gave. */
  lemma {:induction false} ExitOf(s: System, ops: seq<Op>, i: nat, p: Pid) returns (k: nat)
    requires Inv(s) && i <= |ops| && AllEnabled(s, ops, i) && (p in s.procs ==> s.procs[p].life == Normal)
    requires p in Run(s, ops, i).procs && Run(s, ops, i).procs[p].life == Zombie
    ensures k < i && ops[k] == Exit(Run(s, ops, i).procs[p].status) && Run(s, ops, k).current == p
    decreases i
  {
    hide Inv, Enabled, NamesInv, AllEnabled, Step;
    assert 0 < i;
    var b := Run(s, ops, i - 1);
    AllEnabledBefore(s, ops, i - 1, i);
    RunStep(s, ops, i - 1, p);
    if p !in b.procs {
      StepBirths(b, ops[i - 1], p);
      assert false;
    } else if ops[i - 1].Exit? && p == b.current && p != IDLE {
      k := i - 1;
    } else {
      k := ExitOf(s, ops, i - 1, p);
    }
  }

  /** A process that a step brings is live. */
  lemma StepBirths(s: System, op: Op, p: Pid)
    requires Inv(s) && Ready(s, op) && p !in s.procs && p in Step(s, op).procs
    ensures Step(s, op).procs[p].life == Normal
  {
    hide ListsInv, StatesInv, Woken, Adopting, Deleted, Scheduled;
    ScheduledLives(Prepared(s, op), p);
    if op.Exit? && s.current != IDLE {
      var e := Ended(Adopting(s), op.status);
      WokenIs(e, WaitingQueue, e.procs[s.current].parent);
    } else if op.Kill? && KillWakes(s, op.pid) {
      WokenIs(s, KillQueue(s.procs[op.pid]), op.pid);
    }
  }

  /** sys_wait reports the status that the child gave sys_exit. */
  lemma CollectedStatus(s: System, ops: seq<Op>, j: nat, p: Pid) returns (k: nat)
    requires Inv(s) && j < |ops| && AllEnabled(s, ops, j) && (p in s.procs ==> s.procs[p].life == Normal)
    requires CollectsAt(s, ops, j, p)
    ensures k < j && Run(s, ops, k).current == p && ops[k].Exit?
    ensures Collects(Run(s, ops, j), ops[j]) == Child(p, ops[k].status)
  {
    hide Run, Inv, Enabled, NamesInv, AllEnabled;
    k := ExitOf(s, ops, j, p);
  }

  // ---------------------------------------------------------------- runs in which nothing blocks

  /** No process is blocked or asleep. */
  ghost predicate NoneParked(s: System)
  {
    && s.blocked == [] && s.sleeping == []
    && forall p | p in s.procs :: s.procs[p].thread != Blocked && s.procs[p].thread != Sleeping
  }

  lemma ScheduledParks(s: System)
    requires s.current in s.procs && NoneParked(s)
    ensures NoneParked(Scheduled(s))
  {
    hide Removed;
  }

  lemma WokenParks(s: System, q: Queue, p: Pid)
    requires p in s.procs && NoneParked(s)
    ensures NoneParked(Woken(s, q, p))
  {
  }

  lemma EndedParks(s: System, status: int)
    requires Inv(s) && NoneParked(s)
    requires s.procs[s.current].children != [] ==> s.allproc != [] && s.allproc[0] in s.procs
    ensures NoneParked(Ended(Adopting(s), status))
  {
    hide Adopting, Deleted, ListsInv, StatesInv;
    assert Quiet(s, Adopting(s));
  }

  lemma PreparedParks(s: System, op: Op)
    requires Inv(s) && Enabled(s, op) && !op.Halt? && NoneParked(s)
    ensures NoneParked(Prepared(s, op))
  {
    hide ListsInv, StatesInv, Woken, Ended, Adopting, RemoveEnds, FirstZombie;
    if op.Exit? && s.current != IDLE {
      EndedParks(s, op.status);
      var e := Ended(Adopting(s), op.status);
      EndedKnows(s, op.status);
      WokenParks(e, WaitingQueue, e.procs[s.current].parent);
    } else if op.Kill? && KillWakes(s, op.pid) {
      WokenParks(s, KillQueue(s.procs[op.pid]), op.pid);
    }
  }

  lemma EndedKnows(s: System, status: int)
    requires Inv(s) && Enabled(s, Exit(status)) && s.current != IDLE
    ensures var e := Ended(Adopting(s), status);
            s.current in e.procs && e.procs[s.current].parent in e.procs
  {
    hide ListsInv, StatesInv, Adopting, Deleted, RemoveEnds;
  }

  /** Nothing in the kernel calls block_process, and sys_sleep_process is no system call.  In a
      run without them no process is ever blocked or asleep, and those two queues stay empty. */
  lemma {:induction false} NothingBlocks(ops: seq<Op>, i: nat)
    requires i <= |ops| && AllEnabled(Booted(), ops, i) && forall j | 0 <= j < i :: !ops[j].Halt?
    ensures NoneParked(Run(Booted(), ops, i))
  {
    hide Inv, Enabled, NamesInv, Prepared, Scheduled, Booted, NoneParked, Schedules;
    BootedParks();
    if i != 0 {
      BootedKeeps();
      NothingBlocks(ops, i - 1);
      var b := Run(Booted(), ops, i - 1);
      RunKeeps(Booted(), ops, i - 1);
      PreparedParks(b, ops[i - 1]);
      StepKeeps(b, ops[i - 1]);
      ScheduledParks(Prepared(b, ops[i - 1]));
    }
  }

  lemma BootedParks()
    ensures NoneParked(Booted())
  {
  }

  // ---------------------------------------------------------------- the parent of an exiting process

  /** The state in which sys_exit wakes the parent. */
  function Notifying(s: System, status: int): (r: System)
    requires NamesInv(s) && (s.procs[s.current].children != [] ==> s.allproc != [] && s.allproc[0] in s.procs)
  {
    Ended(Adopting(s), status)
  }

  /** Whatever the recorded parent is, an exit leaves the other processes in the queues and
      lists of their states exactly when the parent is live and neither blocked nor asleep,
      and it brings the parent back to life exactly when the parent had exited. */
  lemma ExitExact(s: System, status: int)
    requires Inv(s) && s.current != IDLE
    requires s.procs[s.current].children != [] ==> s.allproc[0] != s.current && s.allproc[0] in s.procs
    requires var parent := Notifying(s, status).procs[s.current].parent;
             parent in s.procs && parent != s.current && RemoveEnds(s.waiting, parent)
    ensures var e := Notifying(s, status);
            var parent := e.procs[s.current].parent;
            var e' := Woken(e, WaitingQueue, parent);
            && (ListsInv(e') <==> s.procs[parent].life == Normal && s.procs[parent].thread in {Running, Waiting})
            && (Rank(e'.procs[parent].life) < Rank(s.procs[parent].life)
                <==> s.procs[parent].life in {Zombie, Dead})
  {
    CurrentRuns(s);
    AdoptingKeeps(s);
    var a := Adopting(s);
    hide ListsInv, Adopting, RemoveEnds, Deleted;
    assert a.procs[s.current].onRq && a.current == s.current;
    EndedKeeps(a, status);
    var e := Ended(a, status);
    var parent := e.procs[s.current].parent;
    WakeExact(e, WaitingQueue, parent, {s.current});
    WokenIs(e, WaitingQueue, parent);
    hide Woken;
  }
}
