/** The kernel's process tables as one object: descriptors on the heap, the four queues linked
    through their one link field, and the lists of processes.  Its methods are schedule,
    try_to_wake_up, do_fork, sys_wait, sys_exit and send_signal statement by statement; each
    keeps the queues linked and apart and takes the step of Lifecycle. */
module Scheduler {
  import opened Descriptors
  import opened Lifecycle
  import opened Processes
  import opened Queues
  import opened StepParts
  import StepEffects

  class Kernel {
    const run: Chain
    const waiting: Chain
    const blocked: Chain
    const sleeping: Chain
    const idle: Pcb
    var current: Pcb
    var allproc: seq<Pcb>
    var zombproc: seq<Pcb>
    var lastPid: nat
    ghost var table: map<Pid, Pcb>

    /** The lists and the current process consist of known descriptors. */
    ghost predicate Names()
      reads `table, `current, `allproc, `zombproc, table.Values`parent, table.Values`children
    {
      && Tabled(table) && idle in table.Values && idle.pid == IDLE && current in table.Values
      && Within(allproc, table) && Within(zombproc, table) && Families(table)
    }

    ghost predicate QueuesKnown()
      reads `table, run, waiting, blocked, sleeping
    {
      && run != waiting && run != blocked && run != sleeping
      && waiting != blocked && waiting != sleeping && blocked != sleeping
      && AllWithin(run.elems, waiting.elems, blocked.elems, sleeping.elems, table)
    }

    /** No descriptor is in two queues. */
    ghost predicate QueuesApart()
      reads run, waiting, blocked, sleeping
    {
      AllApart(run.elems, waiting.elems, blocked.elems, sleeping.elems)
    }

    ghost predicate QueuesLinked()
      reads run, waiting, blocked, sleeping, run.elems`next, waiting.elems`next, blocked.elems`next, sleeping.elems`next
    {
      run.Valid() && waiting.Valid() && blocked.Valid() && sleeping.Valid()
    }

    ghost predicate RunMarked()
      reads `table, run, table.Values`onRq
    {
      forall x | x in table.Values :: x.onRq <==> x in run.elems
    }

    /** Each queue is linked without cycles, none shares a descriptor with another, and `onRq`
        is set exactly for the descriptors linked in the run queue. */
    ghost predicate Valid()
      reads this, run, waiting, blocked, sleeping, table.Values
    {
      Names() && QueuesKnown() && QueuesApart() && QueuesLinked() && RunMarked()
    }

    ghost function State(): (r: System)
      reads this, run, waiting, blocked, sleeping, table.Values`life, table.Values`thread, table.Values`onRq,
            table.Values`parent, table.Values`children, table.Values`status
    {
      System(Procs(table), Pids(run.elems), Pids(waiting.elems), Pids(blocked.elems), Pids(sleeping.elems),
             current.pid, Pids(allproc), Pids(zombproc), lastPid)
    }

    /** scheduler_init: there is only the idle task, in no queue. */
    constructor ()
      ensures Valid() && State() == Booted() && Inv(State())
      ensures fresh(run) && fresh(waiting) && fresh(blocked) && fresh(sleeping) && fresh(table.Values)
    {
      hide Inv, Lists, Names, QueuesKnown, QueuesApart, QueuesLinked, Procs;
      run := new Chain();
      waiting := new Chain();
      blocked := new Chain();
      sleeping := new Chain();
      var task := new Pcb(IDLE);
      task.life, task.thread := Normal, Running;
      idle, current, allproc, zombproc, lastPid, table := task, task, [], [], 0, map[IDLE := task];
      new;
      BootedKeeps();
      OnlyIdle(table, task);
      AllEmpty(task);
    }

    lemma AllEmpty(x: Pcb)
      requires x.pid == IDLE && idle == current == x == x.parent && x.children == []
      requires allproc == [] && zombproc == [] && !x.onRq && table.Values == {x} && Tabled(table)
      requires run != waiting && run != blocked && run != sleeping
      requires waiting != blocked && waiting != sleeping && blocked != sleeping
      requires run.Valid() && waiting.Valid() && blocked.Valid() && sleeping.Valid()
      requires run.elems == waiting.elems == blocked.elems == sleeping.elems == []
      ensures Valid()
    {
    }

    // -------------------------------------------------------------- one descriptor

    /** All descriptors but one are as they were, apart from links. */
    twostate predicate OnlyOne(x: Pcb)
      reads this, table.Values
    {
      && table == old(table) && x in table.Values
      && forall y | y in table.Values && y != x ::
           && y.life == old(y.life) && y.thread == old(y.thread) && y.onRq == old(y.onRq) && y.parent == old(y.parent)
           && y.children == old(y.children) && y.status == old(y.status)
    }

    twostate lemma ProcsChange(x: Pcb)
      requires Tabled(table) && OnlyOne(x)
      ensures x.pid in table && old(Procs(table)).Keys == table.Keys && old(Procs(table))[x.pid] == old(ProcOf(x))
      ensures Procs(table) == old(Procs(table))[x.pid := ProcOf(x)]
    {
      assert table[x.pid] == x;
      forall p | p in table && p != x.pid
        ensures ProcOf(table[p]) == old(ProcOf(table[p]))
      {
        assert table[p] in table.Values && table[p] != x;
      }
    }

    lemma ProcAt(x: Pcb)
      requires Names() && x in table.Values
      ensures x.pid in table && table[x.pid] == x && x.pid in Procs(table) && Procs(table)[x.pid] == ProcOf(x)
    {
    }

    lemma CurrentAt()
      requires Names()
      ensures current in table.Values && current.pid in table && table[current.pid] == current
      ensures current.pid in Procs(table) && Procs(table)[current.pid] == ProcOf(current)
    {
    }

    lemma StateAt(x: Pcb)
      requires Valid() && x in table.Values
      ensures x.pid in State().procs && State().procs[x.pid] == ProcOf(x) && State().current == current.pid
    {
    }

    lemma StateHas()
      requires Valid() && Inv(State())
      ensures var s := State();
              && current in table.Values && NamesInv(s)
              && s.current in s.procs && s.current == current.pid && s.lastPid == lastPid
    {
    }

    lemma SeenAs(x: Pcb)
      ensures var pr := ProcOf(x);
              x.life == pr.life && x.thread == pr.thread && x.onRq == pr.onRq
    {
    }

    lemma KnownNames(x: Pcb)
      requires Names() && QueuesKnown() && x in table.Values
      ensures Tabled(table) && Named(run.elems, x) && x.pid in table && table[x.pid] == x
      ensures Named(waiting.elems, x) && Named(blocked.elems, x) && Named(sleeping.elems, x)
      ensures forall y | y in run.elems || y in waiting.elems || y in blocked.elems || y in sleeping.elems ::
                y in table.Values
    {
      TabledNames(table, run.elems, x);
      TabledNames(table, waiting.elems, x);
      TabledNames(table, blocked.elems, x);
      TabledNames(table, sleeping.elems, x);
    }

    lemma NamedIn(c: Chain, x: Pcb)
      requires Valid() && c in {run, waiting, blocked, sleeping} && x in table.Values
      ensures x.pid in Pids(c.elems) <==> x in c.elems
      ensures RemoveEnds(c.elems, x) <==> RemoveEnds(Pids(c.elems), x.pid)
    {
      TabledNames(table, c.elems, x);
      PidsIn(c.elems, x);
      PidsRemoved(c.elems, x);
    }

    // -------------------------------------------------------------- queues and wake-up

    /** Queues from which `x` has moved, into at most one of them. */
    twostate lemma QueuesMoved(x: Pcb)
      requires old(QueuesKnown()) && old(QueuesApart()) && table == old(table) && x in table.Values
      requires Part(run.elems, old(run.elems), x) && Part(waiting.elems, old(waiting.elems), x)
      requires Part(blocked.elems, old(blocked.elems), x) && Part(sleeping.elems, old(sleeping.elems), x)
      requires x in run.elems ==> x !in waiting.elems && x !in blocked.elems && x !in sleeping.elems
      requires x in waiting.elems && x !in old(waiting.elems) ==> x !in blocked.elems && x !in sleeping.elems
      requires x in blocked.elems && x !in old(blocked.elems) ==> x !in waiting.elems && x !in sleeping.elems
      requires x in sleeping.elems && x !in old(sleeping.elems) ==> x !in waiting.elems && x !in blocked.elems
      ensures QueuesKnown() && QueuesApart()
    {
      MovesApart(old(run.elems), old(waiting.elems), old(blocked.elems), old(sleeping.elems),
                 run.elems, waiting.elems, blocked.elems, sleeping.elems, x, table);
    }

    /** Only links of one queue have changed. */
    twostate lemma OthersLinked(c: Chain)
      requires old(QueuesKnown()) && old(QueuesApart()) && old(QueuesLinked()) && QueuesApart() && table == old(table)
      requires c in {run, waiting, blocked, sleeping} && c.Valid()
      requires run == c || (run.head == old(run.head) && run.elems == old(run.elems))
      requires waiting == c || (waiting.head == old(waiting.head) && waiting.elems == old(waiting.elems))
      requires blocked == c || (blocked.head == old(blocked.head) && blocked.elems == old(blocked.elems))
      requires sleeping == c || (sleeping.head == old(sleeping.head) && sleeping.elems == old(sleeping.elems))
      requires forall y | y in table.Values :: y.next == old(y.next) || y in c.elems || y in old(c.elems)
      ensures QueuesLinked()
    {
      hide Linked, DistinctPids;
      if run != c {
        StillLinked(run);
      }
      if waiting != c {
        StillLinked(waiting);
      }
      if blocked != c {
        StillLinked(blocked);
      }
      if sleeping != c {
        StillLinked(sleeping);
      }
    }

    /** A queue, unchanged or with `x` added. */
    lemma Parts(x: Pcb)
      ensures Part(run.elems, run.elems, x) && Part(waiting.elems, waiting.elems, x)
      ensures Part(blocked.elems, blocked.elems, x) && Part(sleeping.elems, sleeping.elems, x)
      ensures Part([x] + run.elems, run.elems, x) && Part(run.elems + [x], run.elems, x)
      ensures Part(waiting.elems + [x], waiting.elems, x) && Part(blocked.elems + [x], blocked.elems, x)
      ensures Part(sleeping.elems + [x], sleeping.elems, x)
    {
    }

    lemma OnRunOnly(x: Pcb)
      requires QueuesApart()
      ensures x in run.elems ==> x !in waiting.elems && x !in blocked.elems && x !in sleeping.elems
    {
    }

    function ChainOf(q: Queue): (c: Chain)
    {
      match q
      case WaitingQueue => waiting
      case BlockedQueue => blocked
      case SleepingQueue => sleeping
    }

    /** The process leaves the run queue. */
    method Dequeue(x: Pcb)
      requires Valid() && x in table.Values && x.onRq && RemoveEnds(run.elems, x)
      modifies run, x`onRq, table.Values`next
      ensures Valid() && State() == Dequeued(old(State()), x.pid) && !x.onRq
      ensures x !in run.elems
    {
      hide Linked, Removed, DistinctPids, RemoveEnds, Names, Procs, Pids, AllApart, AllWithin, Part, Within, Apart,
           Named, Tabled;
      KnownNames(x);
      PidsRemoved(run.elems, x);
      Parts(x);
      OnRunOnly(x);
      var over := run.Remove(x, 1);
      x.onRq := false;
      ShrinksApart(old(run.elems), run.elems, x);
      QueuesMoved(x);
      OthersLinked(run);
      ProcsChange(x);
    }

    /** add_process_to_queue of a process that is in no queue. */
    method Enqueue(q: Queue, x: Pcb)
      requires Valid() && x in table.Values && !x.onRq
      requires x !in waiting.elems && x !in blocked.elems && x !in sleeping.elems
      modifies ChainOf(q), table.Values`next
      ensures Valid() && State() == WithQueue(old(State()), q, QueueOf(old(State()), q) + [x.pid])
    {
      hide Linked, Removed, DistinctPids, RemoveEnds, Names, Procs, Pids, AllApart, AllWithin, Part, Within, Apart;
      KnownNames(x);
      var c := ChainOf(q);
      PidsConcat(c.elems, [x]);
      Parts(x);
      c.Add(x);
      GrowsApart(old(c.elems), [x], x);
      QueuesMoved(x);
      OthersLinked(c);
    }

    /** remove_process_from_queue where it comes to an end. */
    method Unlink(q: Queue, x: Pcb)
      requires Valid() && x in table.Values && RemoveEnds(ChainOf(q).elems, x)
      modifies ChainOf(q), table.Values`next
      ensures Valid() && State() == WithQueue(old(State()), q, Removed(QueueOf(old(State()), q), x.pid))
      ensures ChainOf(q).elems == Removed(old(ChainOf(q).elems), x) && x !in ChainOf(q).elems
    {
      hide Linked, Removed, DistinctPids, RemoveEnds, Names, Procs, Pids, AllApart, AllWithin, Part, Within, Apart;
      KnownNames(x);
      var c := ChainOf(q);
      PidsRemoved(c.elems, x);
      Parts(x);
      OnRunOnly(x);
      var over := c.Remove(x, 1);
      ShrinksApart(old(c.elems), c.elems, x);
      QueuesMoved(x);
      OthersLinked(c);
    }

    /** The process joins the run queue at its head. */
    method PushFront(x: Pcb)
      requires Valid() && x in table.Values && !x.onRq
      requires x !in waiting.elems && x !in blocked.elems && x !in sleeping.elems
      modifies run, x`next, x`onRq
      ensures Valid() && x.pid in old(State()).procs
      ensures var s := old(State());
              State() == Change(s, x.pid, s.procs[x.pid].(onRq := true)).(run := [x.pid] + s.run)
    {
      hide Linked, Removed, DistinctPids, RemoveEnds, Names, Procs, Pids, AllApart, AllWithin, Part, Within, Apart;
      KnownNames(x);
      PidsConcat([x], run.elems);
      Parts(x);
      run.AddFront(x);
      x.onRq := true;
      GrowsApart(old(run.elems), [x], x);
      QueuesMoved(x);
      OthersLinked(run);
      ProcsChange(x);
    }

    /** The process joins the run queue at its end. */
    method PushBack(x: Pcb)
      requires Valid() && x in table.Values && !x.onRq
      requires x !in waiting.elems && x !in blocked.elems && x !in sleeping.elems
      modifies run, x`onRq, table.Values`next
      ensures Valid() && x.pid in old(State()).procs
      ensures var s := old(State());
              State() == Change(s, x.pid, s.procs[x.pid].(onRq := true)).(run := s.run + [x.pid])
    {
      hide Linked, Removed, DistinctPids, RemoveEnds, Names, Procs, Pids, AllApart, AllWithin, Part, Within, Apart;
      KnownNames(x);
      PidsConcat(run.elems, [x]);
      Parts(x);
      run.Add(x);
      x.onRq := true;
      GrowsApart(old(run.elems), [x], x);
      QueuesMoved(x);
      OthersLinked(run);
      ProcsChange(x);
    }

    /** The assignment of both states. */
    method SetState(x: Pcb, life: Life, thread: Thread)
      requires Valid() && x in table.Values
      modifies x`life, x`thread
      ensures Valid() && x.pid in old(State()).procs
      ensures State() == Change(old(State()), x.pid, old(State()).procs[x.pid].(life := life, thread := thread))
    {
      hide Linked, DistinctPids, Procs, Names;
      KnownNames(x);
      x.life := life;
      x.thread := thread;
      ProcsChange(x);
    }

    /** The process is in no queue other than the run queue and the given one. */
    ghost predicate OnlyIn(q: Queue, x: Pcb)
      reads waiting, blocked, sleeping
    {
      && (q != WaitingQueue ==> x !in waiting.elems) && (q != BlockedQueue ==> x !in blocked.elems)
      && (q != SleepingQueue ==> x !in sleeping.elems)
    }

    /** try_to_wake_up */
    method TryToWakeUp(q: Queue, x: Pcb)
      requires Valid() && x in table.Values && RemoveEnds(ChainOf(q).elems, x) && OnlyIn(q, x)
      modifies run, ChainOf(q), table.Values
      ensures Valid() && table == old(table) && current == old(current) && x.pid in old(State()).procs
      ensures State() == Woken(old(State()), q, x.pid)
    {
      hide Removed, RemoveEnds, Names, QueuesKnown, QueuesApart, QueuesLinked, Procs, Woken, WithQueue, QueueOf, Pids;
      ProcAt(x);
      WokenBySteps(State(), q, x.pid);
      SetState(x, Normal, Running);
      Unlink(q, x);
      if !x.onRq {
        PushFront(x);
      }
    }

    /** try_to_wake_up of a process that is parked in another queue than the one given: the
        process is afterwards in two queues, and the links of the other queue lead through it
        into the run queue. */
    method WakeFromWrongQueue(q: Queue, other: Queue, x: Pcb, ghost i: nat)
      requires Valid() && x in table.Values && RemoveEnds(ChainOf(q).elems, x)
      requires other != q && i < |ChainOf(other).elems| && ChainOf(other).elems[i] == x
      modifies run, ChainOf(q), table.Values
      ensures run.Valid() && run.elems == [x] + old(run.elems) && ChainOf(other).elems == old(ChainOf(other).elems)
      ensures Linked(ChainOf(other).elems[..i + 1] + old(run.elems))
      ensures ChainOf(other).Valid() <==> i + 1 == |ChainOf(other).elems| && old(run.elems) == []
      ensures !Valid()
    {
      hide Removed, RemoveEnds, Names, Procs, Pids, DistinctPids, Linked;
      SetState(x, Normal, Running);
      Unlink(q, x);
      if !x.onRq {
        KnownNames(x);
        OffRun(other, x);
        run.AddFrontFrom(ChainOf(other), x, i);
        x.onRq := true;
      }
    }

    lemma OffRun(q: Queue, x: Pcb)
      requires Valid() && x in ChainOf(q).elems
      ensures run != ChainOf(q) && x !in run.elems && x in table.Values
      ensures forall y | y in run.elems :: y.pid != x.pid && y !in ChainOf(q).elems
    {
      KnownNames(x);
    }

    // -------------------------------------------------------------- schedule

    /** The first half of schedule. */
    method Park()
      requires Valid() && (current.onRq ==> RemoveEnds(run.elems, current))
      modifies run, waiting, blocked, sleeping, current`onRq, table.Values`next
      ensures Valid() && current.pid in old(State()).procs && State() == Parked(old(State()))
    {
      hide Removed, RemoveEnds, Names, QueuesKnown, QueuesLinked, Procs, Pids;
      var prev := current;
      CurrentAt();
      if prev.life == Zombie && prev.thread == Stopped {
        if prev.onRq {
          Dequeue(prev);
        }
      } else if prev.life == Normal && prev.thread == Sleeping {
        if prev.onRq {
          Dequeue(prev);
          Enqueue(SleepingQueue, prev);
        }
      } else if prev.life == Normal && prev.thread == Blocked {
        if prev.onRq {
          Dequeue(prev);
          Enqueue(BlockedQueue, prev);
        }
      } else if prev.life == Normal && prev.thread == Waiting {
        if prev.onRq {
          Dequeue(prev);
          Enqueue(WaitingQueue, prev);
        }
      }
    }

    /** The second half of schedule. */
    method Pick()
      requires Valid()
      modifies this`current
      ensures Valid() && old(current).pid in old(State()).procs && State() == Picked(old(State()))
    {
      hide Procs;
      ProcAt(current);
      if run.head != null {
        current := run.head;
      } else if !(current.life == Normal && current.thread == Running) {
        current := idle;
      }
    }

    /** schedule */
    method Schedule()
      requires Valid() && Schedulable(State())
      modifies this`current, run, waiting, blocked, sleeping, table.Values`onRq, table.Values`next
      ensures Valid() && State() == Scheduled(old(State()))
    {
      hide RemoveEnds, Names, QueuesKnown, QueuesApart, QueuesLinked, Procs, Pids, Parked, Picked, ListsInv, StatesInv,
           NamesInv;
      CurrentAt();
      NamedIn(run, current);
      Park();
      Pick();
    }

    method TimerTick()
      requires Valid() && Inv(State())
      modifies this`current, run, waiting, blocked, sleeping, table.Values`onRq, table.Values`next
      ensures Valid() && Inv(State()) && HeadRuns(State()) && State() == Scheduled(old(State()))
    {
      hide Valid, Inv, Schedulable, Scheduled, State;
      TickReady(State());
      ScheduleKeeps(State());
      Schedule();
    }

    /** block_process, and sys_sleep_process, of the current process. */
    method Stop(t: Thread)
      requires Valid() && Inv(State()) && Enabled(State(), Halt(t))
      modifies this`current, run, waiting, blocked, sleeping, table.Values
      ensures Valid() && Inv(State())
      ensures Ready(old(State()), Halt(t)) && State() == Step(old(State()), Halt(t))
    {
      hide Names, QueuesKnown, QueuesApart, QueuesLinked, Procs, Pids, Scheduled, ListsInv, StatesInv, Related;
      StepKeeps(State(), Halt(t));
      PreparedReady(State(), Halt(t));
      CurrentRuns(State());
      CurrentAt();
      SetState(current, Normal, t);
      assert State() == Prepared(old(State()), Halt(t));
      Schedule();
    }

    // -------------------------------------------------------------- fork

    lemma StateKeys()
      ensures State().procs.Keys == table.Keys
    {
    }

    lemma NextPid()
      requires Valid() && NamesInv(State())
      ensures lastPid + 1 !in table && forall x | x in table.Values :: x.pid <= lastPid
    {
      assert State().procs.Keys == table.Keys;
    }

    /** get_pid: the new descriptor gets the next pid, by which it is known from then on. */
    method Admit(child: Pcb)
      requires Valid() && child.pid == lastPid + 1 && child.pid !in table && child !in table.Values
      requires child.parent in table.Values && child.children == [] && !child.onRq
      modifies `lastPid, `table
      ensures Valid() && table == old(table)[child.pid := child] && table.Values == old(table.Values) + {child}
      ensures child !in waiting.elems && child !in blocked.elems && child !in sleeping.elems
      ensures State() == Change(old(State()), child.pid, ProcOf(child)).(lastPid := child.pid)
    {
      hide QueuesLinked, QueuesApart, Procs, Pids, Within, AllWithin, ProcOf, Families, Tabled;
      lastPid := child.pid;
      ProcsGrow(table, child);
      FamiliesGrow(table, child);
      WithinGrows(table, child, allproc, zombproc);
      AllWithinGrows(table, child, run.elems, waiting.elems, blocked.elems, sleeping.elems);
      OffQueues(child);
      MarkedGrows(child);
      table := table[child.pid := child];
    }

    /** The list of children is replaced by one that holds only `c`. */
    method SetChild(x: Pcb, c: Pcb)
      requires Valid() && x in table.Values && c in table.Values
      modifies x`children
      ensures Valid() && x.pid in old(State()).procs
      ensures State() == Change(old(State()), x.pid, old(State()).procs[x.pid].(children := [c.pid]))
    {
      hide QueuesKnown, QueuesApart, QueuesLinked, Procs, Tabled, Pids;
      ProcAt(x);
      ListOne(c);
      x.children := [c];
      ProcsChange(x);
    }

    lemma MarkedGrows(x: Pcb)
      requires RunMarked() && x.pid !in table && !x.onRq && x !in run.elems
      ensures forall y | y in table[x.pid := x].Values :: y.onRq <==> y in run.elems
    {
      TableGrows(table, x);
    }

    lemma OffQueues(x: Pcb)
      requires QueuesKnown() && x !in table.Values
      ensures x !in run.elems && x !in waiting.elems && x !in blocked.elems && x !in sleeping.elems
    {
    }

    method InsertAllproc(x: Pcb)
      requires Valid() && x in table.Values
      modifies `allproc
      ensures Valid() && State() == old(State()).(allproc := old(State()).allproc + [x.pid])
    {
      hide QueuesKnown, QueuesApart, QueuesLinked, Procs, Families;
      PidsConcat(allproc, [x]);
      allproc := allproc + [x];
    }

    /** do_fork */
    method DoFork() returns (child: Pcb)
      requires Valid() && Inv(State()) && Enabled(State(), Fork)
      modifies this`allproc, this`lastPid, this`table, run, current`children, table.Values`next
      ensures Valid() && Inv(State())
      ensures Ready(old(State()), Fork) && State() == Step(old(State()), Fork)
      ensures fresh(child) && child.pid !in old(table) && table == old(table)[child.pid := child]
      ensures 0 < child.pid < PID_LIMIT
    {
      hide Valid, Inv, NamesInv, Forked, State, Procs, Pids, Step, Prepared, Ready, Enabled, ProcOf;
      StateHas();
      ghost var s := State();
      StepKeeps(s, Fork);
      NextPid();
      StateKeys();
      ForkIs(s);
      child := new Pcb(lastPid + 1);
      child.parent := current;
      child.life, child.thread := Normal, Running;
      NewProc(child, current);
      assert State() == s;
      Admit(child);
      ghost var s1 := State();
      assert s1 == Change(s, s.lastPid + 1, Proc(Normal, Running, false, s.current, [], 0)).(lastPid := s.lastPid + 1);
      SetChild(current, child);
      ghost var s2 := State();
      assert s2 == Change(s1, s.current, s1.procs[s.current].(children := [s.lastPid + 1]));
      InsertAllproc(child);
      ghost var s3 := State();
      assert s3 == s2.(allproc := s2.allproc + [s.lastPid + 1]);
      PushBack(child);
      ForkedBySteps(s, s1, s2, s3, State());
    }

    // -------------------------------------------------------------- exit

    method SetParent(x: Pcb, parent: Pcb)
      requires Valid() && x in table.Values && parent in table.Values
      modifies x`parent
      ensures Valid() && x.pid in old(State()).procs
      ensures State() == Change(old(State()), x.pid, old(State()).procs[x.pid].(parent := parent.pid))
    {
      hide QueuesKnown, QueuesApart, QueuesLinked, Procs, Pids, Within, Tabled;
      ProcAt(x);
      x.parent := parent;
      ProcsChange(x);
    }

    /** insert_into_pchildren: an empty list is not extended. */
    method AddChild(x: Pcb, c: Pcb)
      requires Valid() && x in table.Values && c in table.Values
      modifies x`children
      ensures Valid() && x.pid in old(State()).procs
      ensures var pr := old(State()).procs[x.pid];
              State() == Change(old(State()), x.pid,
                                pr.(children := if pr.children == [] then [] else pr.children + [c.pid]))
    {
      hide QueuesKnown, QueuesApart, QueuesLinked, Procs, Tabled;
      ProcAt(x);
      if x.children != [] {
        PidsConcat(x.children, [c]);
        ListOne(c);
        x.children := x.children + [c];
      }
      ProcsChange(x);
    }

    /** reparent_process_to_init. */
    method ReparentToInit(c: Pcb)
      requires Valid() && allproc != [] && c in table.Values
      modifies c`parent, table.Values`children
      ensures Valid() && State().allproc != []
      ensures State().allproc[0] in old(State()).procs && c.pid in old(State()).procs
      ensures State() == AdoptedOne(old(State()), c.pid)
      ensures forall x | x in table.Values && x != allproc[0] :: x.children == old(x.children)
    {
      hide QueuesKnown, QueuesApart, QueuesLinked, Procs, Families;
      var init := allproc[0];
      SetParent(c, init);
      AddChild(init, c);
    }

    lemma InitKnown()
      requires Valid() && NamesInv(State())
      requires current.children != [] ==> allproc != [] && allproc[0] != current
      ensures State().procs[State().current].children == Pids(current.children) && AdoptsFrom(State())
      ensures Pids(current.children) != [] ==> State().allproc[0] != State().current
    {
      hide QueuesKnown, QueuesApart, QueuesLinked, Procs, Related;
      CurrentAt();
      if current.children != [] {
        ProcAt(allproc[0]);
      }
    }

    lemma ChildKnown(i: nat)
      requires Valid() && i < |current.children|
      ensures current.children[i] in table.Values && i < |Pids(current.children)|
      ensures Pids(current.children)[i] == current.children[i].pid
    {
      assert Within(current.children, table);
    }

    /** The first loop of sys_exit. */
    method ReparentChildren()
      requires Valid() && NamesInv(State())
      requires current.children != [] ==> allproc != [] && allproc[0] != current
      modifies table.Values`parent, table.Values`children
      ensures Valid() && AdoptsFrom(old(State())) && State() == Adopting(old(State()))
    {
      hide Valid, State, Pids, NamesInv, AdoptedOne, Adoption, Adopting, AdoptsFrom;
      ghost var s := State();
      ghost var kids := current.children;
      InitKnown();
      AdoptionStarts(s);
      var i := 0;
      while i < |current.children|
        invariant Valid() && i <= |kids| && Adoption(s, State(), Pids(kids), i)
        invariant current.children == kids && (kids != [] ==> allproc != [] && allproc[0] != current)
        decreases |kids| - i
      {
        ChildKnown(i);
        AdoptionNext(s, State(), Pids(kids), i);
        ReparentToInit(current.children[i]);
        i := i + 1;
      }
      AdoptionEnds(s, State(), Pids(kids));
    }

    /** get_process_descriptor_from_pid */
    method FindProcess(k: Pid) returns (x: Pcb?)
      requires Valid()
      ensures x == null <==> k !in State().allproc
      ensures x != null ==> x in table.Values && x.pid == k
    {
      hide QueuesKnown, QueuesApart, QueuesLinked, Procs, Families;
      for i := 0 to |allproc|
        invariant k !in Pids(allproc)[..i]
      {
        if allproc[i].pid == k {
          assert Pids(allproc)[i] == k;
          return allproc[i];
        }
      }
      x := null;
    }

    /** The second loop of sys_exit: the process moves from allproc to zombproc. */
    method MoveToZombies()
      requires Valid()
      modifies `allproc, `zombproc
      ensures Valid() && State() == Buried(old(State()))
    {
      hide QueuesKnown, QueuesApart, QueuesLinked, Procs, Families, Deleted, Pids;
      var found := FindProcess(current.pid);
      if found != null {
        PidsConcat(zombproc, [current]);
        ListOne(current);
        TabledNames(table, allproc, current);
        allproc := Delete(allproc, current);
        zombproc := zombproc + [current];
      }
    }

    method EndCurrent(status: int)
      requires Valid()
      modifies current`life, current`thread, current`status
      ensures Valid() && current.pid in old(State()).procs
      ensures var pr := old(State()).procs[current.pid];
              State() == Change(old(State()), current.pid, pr.(life := Zombie, thread := Stopped, status := status))
    {
      hide QueuesKnown, QueuesApart, QueuesLinked, Procs, Families;
      CurrentAt();
      current.status := status;
      current.life := Zombie;
      current.thread := Stopped;
      ProcsChange(current);
    }

    /** A live process that can run, or is parked for the given queue, is in no other. */
    lemma ParkedOnce(q: Queue, x: Pcb)
      requires Valid() && ListsInv(State()) && x in table.Values
      requires x.life == Normal && (x.thread == Running || x.thread == ThreadOf(q))
      ensures OnlyIn(q, x) && (RemoveEnds(ChainOf(q).elems, x) <==> RemoveEnds(QueueOf(State(), q), x.pid))
    {
      hide RemoveEnds, Names, QueuesKnown, QueuesApart, QueuesLinked, Procs, Pids, Queued;
      ProcAt(x);
      NamedIn(waiting, x);
      NamedIn(blocked, x);
      NamedIn(sleeping, x);
    }

    /** The process that exits has an init to hand its children to. */
    lemma ExitHandsOn(status: int)
      requires Valid() && NamesInv(State()) && Enabled(State(), Exit(status)) && current.pid != IDLE
      ensures current.children != [] ==> allproc != [] && allproc[0] != current
    {
      hide QueuesKnown, QueuesApart, QueuesLinked, Procs, Families, Adopting, RemoveEnds;
      CurrentAt();
      if current.children != [] {
        ProcAt(allproc[0]);
      }
    }

    lemma ParentAt()
      requires Valid()
      ensures current.parent in table.Values && State().current == current.pid && current.pid in State().procs
      ensures State().procs[current.pid].parent == current.parent.pid && current.parent.pid in State().procs
      ensures var pr := State().procs[current.parent.pid];
              pr.life == current.parent.life && pr.thread == current.parent.thread
      ensures QueueOf(State(), WaitingQueue) == State().waiting
    {
    }

    method SysExit(status: int)
      requires Valid() && Inv(State()) && Enabled(State(), Exit(status))
      modifies `current, `allproc, `zombproc, run, waiting, blocked, sleeping, table.Values
      ensures Valid() && Inv(State())
      ensures Ready(old(State()), Exit(status)) && State() == Step(old(State()), Exit(status))
    {
      hide Valid, State, ListsInv, StatesInv, Related, Adopting, Ended, Woken, Scheduled, RemoveEnds, QueueOf, Pids,
           ProcOf, NamesInv, Buried, OnlyIn, AdoptsFrom;
      ghost var s := State();
      StateHas();
      StepKeeps(s, Exit(status));
      PreparedReady(s, Exit(status));
      if current.pid == 0 {
        return;
      }
      ExitWith(s, status);
      ExitHandsOn(status);
      ReparentChildren();
      MoveToZombies();
      EndCurrent(status);
      ParentAt();
      ParkedOnce(WaitingQueue, current.parent);
      TryToWakeUp(WaitingQueue, current.parent);
      Schedule();
    }

    // -------------------------------------------------------------- wait

    method DeleteFromZombies(x: Pcb)
      requires Valid() && x in table.Values
      modifies `zombproc
      ensures Valid() && State() == old(State()).(zombproc := Deleted(old(State()).zombproc, x.pid))
    {
      hide QueuesKnown, QueuesApart, QueuesLinked, Procs, Families, Deleted, Pids;
      TabledNames(table, zombproc, x);
      zombproc := Delete(zombproc, x);
    }

    lemma ListedChildren()
      requires Valid()
      ensures current.pid in State().procs && State().procs[current.pid].children == Pids(current.children)
      ensures |Pids(current.children)| == |current.children|
      ensures forall i | 0 <= i < |current.children| ::
                current.children[i] in table.Values && Pids(current.children)[i] == current.children[i].pid
    {
      assert Within(current.children, table);
    }

    /** One pass of sys_wait over the children, from its start or after it was resumed. */
    method SysWait(first: bool) returns (c: Collected)
      requires Valid() && Inv(State()) && Enabled(State(), Wait(first))
      modifies `current, `zombproc, run, waiting, blocked, sleeping, table.Values
      ensures Valid() && Inv(State())
      ensures Ready(old(State()), Wait(first)) && State() == Step(old(State()), Wait(first))
      ensures c == Collects(old(State()), Wait(first))
    {
      hide Valid, State, Scheduled, Deleted, Pids, NamesInv, Inv, Schedulable, Collects, Prepared, Marked, Enabled,
           Released;
      ghost var s := State();
      StateHas();
      StepKeeps(s, Wait(first));
      PreparedReady(s, Wait(first));
      ListedChildren();
      var kids := current.children;
      if kids == [] {
        WaitsForNone(s, first);
        return Nobody;
      }
      MarkedIs(s, first);
      if first {
        SetState(current, Normal, Waiting);
      }
      var i := 0;
      while i < |kids|
        invariant i <= |kids| && Valid() && State() == Marked(s, first) && current == old(current)
        invariant forall j | 0 <= j < i :: !HasEnded(s, Pids(kids)[j])
      {
        var child := kids[i];
        StateAt(child);
        MarkedSame(s, first, child.pid);
        if child.life == Zombie && child.thread == Stopped {
          WaitFinds(s, first, Pids(kids), i);
          c := Child(child.pid, child.status);
          SetState(child, Dead, child.thread);
          DeleteFromZombies(child);
          SetState(current, Normal, Running);
          return;
        }
        i := i + 1;
      }
      WaitsOn(s, first, Pids(kids));
      Schedule();
      return Nobody;
    }

    // -------------------------------------------------------------- kill

    /** The part of send_signal that wakes the process. */
    method WakeFor(x: Pcb)
      requires Valid() && ListsInv(State()) && x in table.Values
      requires x.life == Normal && x.thread in {Sleeping, Blocked, Waiting}
      requires RemoveEnds(QueueOf(State(), KillQueue(ProcOf(x))), x.pid)
      modifies run, waiting, blocked, sleeping, table.Values
      ensures Valid() && x.pid in old(State()).procs && old(State()).procs[x.pid] == old(ProcOf(x))
      ensures State() == Woken(old(State()), KillQueue(old(ProcOf(x))), x.pid)
    {
      hide RemoveEnds, Valid, State, ListsInv, Woken, QueueOf, Pids, OnlyIn;
      StateAt(x);
      if x.thread == Sleeping && x.life == Normal {
        ParkedOnce(SleepingQueue, x);
        TryToWakeUp(SleepingQueue, x);
      } else if x.thread == Blocked && x.life == Normal {
        ParkedOnce(BlockedQueue, x);
        TryToWakeUp(BlockedQueue, x);
      } else if x.thread == Waiting && x.life == Normal {
        ParkedOnce(WaitingQueue, x);
        TryToWakeUp(WaitingQueue, x);
      }
    }

    method SendSignal(k: Pid)
      requires Valid() && Inv(State()) && Enabled(State(), Kill(k)) && 1 < k && k != current.pid
      modifies `current, run, waiting, blocked, sleeping, table.Values
      ensures Valid() && Inv(State())
      ensures Ready(old(State()), Kill(k)) && State() == Step(old(State()), Kill(k))
      ensures StepEffects.KillEffect(old(State()), k, State())
    {
      hide Valid, State, ListsInv, StatesInv, Related, Woken, Scheduled, RemoveEnds, QueueOf, ProcOf, Pids,
           StepEffects.KillEffect;
      StateHas();
      StepEffects.KillHas(State(), k);
      StepKeeps(State(), Kill(k));
      PreparedReady(State(), Kill(k));
      var x := FindProcess(k);
      if x == null {
        return;
      }
      StateAt(x);
      KillSees(State(), k);
      SeenAs(x);
      if !x.onRq {
        WakeFor(x);
        Schedule();
      }
    }

    /** sys_kill: it spares the idle task and init, and leaves its caller to exit by itself. */
    method SysKill(k: Pid) returns (r: int)
      requires Valid() && Inv(State()) && Enabled(State(), Kill(k))
      modifies `current, run, waiting, blocked, sleeping, table.Values
      ensures Valid() && Inv(State())
      ensures Ready(old(State()), Kill(k)) && State() == Step(old(State()), Kill(k))
      ensures r == if k == 0 || k == 1 then 0 else if k == old(current).pid then 9 else 1
    {
      hide Valid, State, ListsInv, StatesInv, Related, Woken, Scheduled, RemoveEnds, QueueOf, Pids;
      StateHas();
      StepKeeps(State(), Kill(k));
      if k == 0 || k == 1 {
        return 0;
      } else if current.pid == k {
        return 9;
      }
      SendSignal(k);
      return 1;
    }

    // -------------------------------------------------------------- runs

    method Perform(op: Op)
      requires Valid() && Inv(State()) && Enabled(State(), op)
      modifies this, run, waiting, blocked, sleeping, table.Values
      ensures Valid() && Inv(State()) && Ready(old(State()), op) && State() == Step(old(State()), op)
      ensures NamesInv(old(State())) && StepEffects.Effect(old(State()), op, State())
      ensures fresh(table.Values - old(table.Values))
    {
      hide Valid, State, Inv, NamesInv, Enabled, Prepared, Scheduled, Collects, StepEffects.Effect;
      StateHas();
      StepEffects.StepHas(State(), op);
      StepKeeps(State(), op);
      match op {
        case Fork =>
          var child := DoFork();
          TableGrows(old(table), child);
        case Wait(first) => var c := SysWait(first);
        case Exit(status) => SysExit(status);
        case Kill(k) => var r := SysKill(k);
        case Halt(t) => Stop(t);
        case Tick =>
          TickIs(State());
          TimerTick();
      }
    }

    /** The links from the head of the run queue lead through the processes that have `onRq`
        set, to each of them once, and end after the last. */
    lemma RunQueueWalk(x: Pcb) returns (i: nat)
      requires Valid() && x in table.Values
      ensures Follow(run.head, |run.elems|) == null
      ensures x.onRq ==> i < |run.elems| && Follow(run.head, i) == x
      ensures forall j: nat | j <= |run.elems| :: Follow(run.head, j) == x ==> x.onRq && j == i
    {
      hide Names, QueuesApart, Follow;
      i := 0;
      if x.onRq {
        i :| i < |run.elems| && run.elems[i] == x;
      }
      forall j: nat | j <= |run.elems|
        ensures Follow(run.head, j) == if j < |run.elems| then run.elems[j] else null
      {
        run.Acyclic(j);
      }
    }
  }

  /** Every run from boot, on the heap: the queues stay linked, without cycles and apart, and
      the state is that of the run on values. */
  method RunFromBoot(ops: seq<Op>) returns (k: Kernel)
    requires AllEnabled(Booted(), ops, |ops|)
    ensures k.Valid() && Inv(k.State()) && k.State() == Run(Booted(), ops, |ops|)
  {
    hide Kernel.Valid, Kernel.State, Inv, NamesInv, Enabled, Step, Booted, Ready;
    k := new Kernel();
    var i := 0;
    while i < |ops|
      invariant i <= |ops| && k.Valid() && Inv(k.State()) && k.State() == Run(Booted(), ops, i)
      invariant fresh(k) && fresh(k.run) && fresh(k.waiting) && fresh(k.blocked) && fresh(k.sleeping)
      invariant fresh(k.table.Values)
    {
      AllEnabledBefore(Booted(), ops, i + 1, |ops|);
      k.Perform(ops[i]);
      i := i + 1;
    }
  }
}
