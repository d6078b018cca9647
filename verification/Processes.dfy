/** Processes as the scheduler sees them: the queues (sys/queue.c), schedule and
    try_to_wake_up (sys/scheduler.c), fork, exit and wait (sys/process.c) and the wake-up of
    kill (sys/signal.c), as steps on values.  Processes are named by their pids. */
module Processes {
  import opened Basics

  type Pid = nat

  const IDLE: Pid := 0

  datatype Life = New | Normal | Zombie | Dead
  datatype Thread = Running | Blocked | Waiting | Sleeping | Stopped

  /** `children` is the list cptr, `status` the exit status. */
  datatype Proc = Proc(life: Life, thread: Thread, onRq: bool, parent: Pid, children: seq<Pid>, status: int)

  datatype System = System(procs: map<Pid, Proc>, run: seq<Pid>, waiting: seq<Pid>, blocked: seq<Pid>,
                           sleeping: seq<Pid>, current: Pid, allproc: seq<Pid>, zombproc: seq<Pid>, lastPid: nat)

  // ---------------------------------------------------------------- queue operations

  /** remove_process_from_queue comes to an end: its loop never advances, so the process has
      to be in one of the first two places unless there is no second. */
  predicate RemoveEnds<T(==)>(q: seq<T>, p: T)
  {
    |q| <= 1 || q[0] == p || q[1] == p
  }

  function Removed<T(==)>(q: seq<T>, p: T): (r: seq<T>)
  {
    if q == [] then q
    else if q[0] == p then q[1..]
    else if 1 < |q| && q[1] == p then [q[0]] + q[2..]
    else q
  }

  /** One round of the loop of remove_process_from_queue, on a queue whose head is not `p`:
      the new queue, and whether the loop goes on. */
  function RemoveRound<T(==)>(q: seq<T>, p: T): (r: (seq<T>, bool))
  {
    if |q| <= 1 then (q, false)
    else if q[1] == p then ([q[0]] + q[2..], false)
    else (q, true)
  }

  function RemoveRounds<T(==)>(q: seq<T>, p: T, k: nat): (r: (seq<T>, bool))
  {
    if k == 0 then (q, true)
    else
      var r := RemoveRounds(q, p, k - 1);
      if r.1 then RemoveRound(r.0, p) else r
  }

  /** The loop is over after some number of rounds exactly when `RemoveEnds`; otherwise it
      goes round for ever without changing anything. */
  lemma {:induction false} RemoveLoop<T>(q: seq<T>, p: T, k: nat)
    requires q != [] && q[0] != p
    ensures RemoveEnds(q, p) && 0 < k ==> RemoveRounds(q, p, k) == (Removed(q, p), false)
    ensures !RemoveEnds(q, p) ==> RemoveRounds(q, p, k) == (q, true)
  {
    if 0 < k {
      RemoveLoop(q, p, k - 1);
    }
  }

  /** Removal takes out the process and keeps the order of the others. */
  lemma RemovedElements<T>(q: seq<T>, p: T)
    requires NoDup(q) && RemoveEnds(q, p)
    ensures NoDup(Removed(q, p))
    ensures forall x :: x in Removed(q, p) <==> x in q && x != p
  {
    if q != [] && q[0] == p {
      assert q == [q[0]] + q[1..];
    } else if 1 < |q| && q[1] == p {
      assert q == [q[0]] + [q[1]] + q[2..];
    } else if |q| == 1 {
      assert q == [q[0]];
    }
  }

  /** delete_from_allproc and delete_from_zombproc: a process that is not found takes the
      last entry with it. */
  function Deleted<T(==)>(l: seq<T>, p: T): (r: seq<T>)
  {
    if l == [] then l
    else if l[0] == p then l[1..]
    else if |l| == 1 then l
    else [l[0]] + DeletedAfter(l[1..], p)
  }

  function DeletedAfter<T(==)>(l: seq<T>, p: T): (r: seq<T>)
    requires l != []
  {
    if |l| == 1 then []
    else if l[0] == p then l[1..]
    else [l[0]] + DeletedAfter(l[1..], p)
  }

  function Without<T(==)>(l: seq<T>, p: T): (r: seq<T>)
  {
    if l == [] then [] else if l[0] == p then l[1..] else [l[0]] + Without(l[1..], p)
  }

  lemma {:induction false} DeletedAfterIs<T>(l: seq<T>, p: T)
    requires l != []
    ensures DeletedAfter(l, p) == Without(l, p) <==> p in l
    ensures |DeletedAfter(l, p)| == |l| - 1
    decreases |l|
  {
    if 1 < |l| && l[0] != p {
      DeletedAfterIs(l[1..], p);
      assert l == [l[0]] + l[1..];
    }
    WithoutSize(l, p);
  }

  lemma {:induction false} WithoutSize<T>(l: seq<T>, p: T)
    ensures |Without(l, p)| == if p in l then |l| - 1 else |l|
  {
    if l != [] && l[0] != p {
      WithoutSize(l[1..], p);
      assert l == [l[0]] + l[1..];
    }
  }

  /** The deletion takes out the process it was asked to, and only that, exactly when it is
      in the list or the list has at most one entry. */
  lemma DeletedIsWithout<T>(l: seq<T>, p: T)
    ensures Deleted(l, p) == Without(l, p) <==> p in l || |l| <= 1
  {
    if 1 < |l| && l[0] != p {
      DeletedRest(l, p);
      DeletedAfterIs(l[1..], p);
      hide Deleted, Without, DeletedAfter;
      SameRest(l[0], DeletedAfter(l[1..], p), Without(l[1..], p));
      assert l == [l[0]] + l[1..];
    } else if |l| == 1 && l[0] != p {
      assert Without(l, p) == [l[0]] + Without(l[1..], p) == l;
    }
  }

  lemma DeletedRest<T>(l: seq<T>, p: T)
    requires 1 < |l| && l[0] != p
    ensures Deleted(l, p) == [l[0]] + DeletedAfter(l[1..], p) && Without(l, p) == [l[0]] + Without(l[1..], p)
  {
  }

  lemma SameRest<T>(x: T, a: seq<T>, b: seq<T>)
    ensures [x] + a == [x] + b <==> a == b
  {
    assert ([x] + a)[1..] == a && ([x] + b)[1..] == b;
  }

  lemma {:induction false} WithoutElements<T>(l: seq<T>, p: T)
    requires NoDup(l)
    ensures NoDup(Without(l, p)) && forall x :: x in Without(l, p) <==> x in l && x != p
  {
    if l != [] {
      assert l == [l[0]] + l[1..];
      if l[0] != p {
        WithoutElements(l[1..], p);
        var w := Without(l[1..], p);
        assert forall i | 0 <= i < |w| :: w[i] in w;
        assert l[0] !in l[1..];
      }
    }
  }

  // ---------------------------------------------------------------- schedule and wake-up

  function Change(s: System, p: Pid, pr: Proc): (r: System)
  {
    s.(procs := s.procs[p := pr])
  }

  /** The process leaves the run queue. */
  function Dequeued(s: System, p: Pid): (r: System)
    requires p in s.procs
  {
    Change(s, p, s.procs[p].(onRq := false)).(run := Removed(s.run, p))
  }

  /** The first half of schedule: a current process that is not to run leaves the run queue,
      for the queue of what it waits for if there is one. */
  function Parked(s: System): (r: System)
    requires s.current in s.procs
  {
    var p, pr := s.current, s.procs[s.current];
    if pr.life == Zombie && pr.thread == Stopped then
      (if pr.onRq then Dequeued(s, p) else s)
    else if pr.life == Normal && pr.thread == Sleeping && pr.onRq then
      Dequeued(s, p).(sleeping := s.sleeping + [p])
    else if pr.life == Normal && pr.thread == Blocked && pr.onRq then
      Dequeued(s, p).(blocked := s.blocked + [p])
    else if pr.life == Normal && pr.thread == Waiting && pr.onRq then
      Dequeued(s, p).(waiting := s.waiting + [p])
    else s
  }

  /** The second half: the head of the run queue runs, else the current process if it can,
      else the idle task. */
  function Picked(s: System): (r: System)
    requires s.current in s.procs
  {
    var pr := s.procs[s.current];
    if s.run != [] then s.(current := s.run[0])
    else if pr.life == Normal && pr.thread == Running then s
    else s.(current := IDLE)
  }

  function Scheduled(s: System): (r: System)
    requires s.current in s.procs
  {
    Picked(Parked(s))
  }

  datatype Queue = WaitingQueue | BlockedQueue | SleepingQueue

  function QueueOf(s: System, q: Queue): (r: seq<Pid>)
  {
    match q
    case WaitingQueue => s.waiting
    case BlockedQueue => s.blocked
    case SleepingQueue => s.sleeping
  }

  function WithQueue(s: System, q: Queue, l: seq<Pid>): (r: System)
  {
    match q
    case WaitingQueue => s.(waiting := l)
    case BlockedQueue => s.(blocked := l)
    case SleepingQueue => s.(sleeping := l)
  }

  /** try_to_wake_up: the process is made runnable, taken out of the given queue, and put at
      the head of the run queue unless it is there already. */
  function Woken(s: System, q: Queue, p: Pid): (r: System)
    requires p in s.procs
  {
    var pr := s.procs[p].(life := Normal, thread := Running);
    var s' := WithQueue(s, q, Removed(QueueOf(s, q), p));
    if pr.onRq then Change(s', p, pr)
    else Change(s', p, pr.(onRq := true)).(run := [p] + s.run)
  }

  // ---------------------------------------------------------------- lists of processes by state

  /** `q` lists, each once, the processes that meet `c`. */
  ghost predicate Lists(q: seq<Pid>, procs: map<Pid, Proc>, c: (Pid, Proc) -> bool)
  {
    NoDup(q) && forall p :: p in q <==> p in procs && c(p, procs[p])
  }

  ghost predicate Listed(procs: map<Pid, Proc>, p: Pid, c: (Pid, Proc) -> bool)
  {
    p in procs && c(p, procs[p])
  }

  lemma ListsKeep(q: seq<Pid>, procs: map<Pid, Proc>, p: Pid, pr: Proc, c: (Pid, Proc) -> bool)
    requires Lists(q, procs, c) && Listed(procs, p, c) == c(p, pr)
    ensures Lists(q, procs[p := pr], c)
  {
  }

  lemma ListsAdd(q: seq<Pid>, procs: map<Pid, Proc>, p: Pid, pr: Proc, c: (Pid, Proc) -> bool)
    requires Lists(q, procs, c) && !Listed(procs, p, c) && c(p, pr)
    ensures Lists(q + [p], procs[p := pr], c) && Lists([p] + q, procs[p := pr], c)
  {
  }

  lemma ListsRemove(q: seq<Pid>, procs: map<Pid, Proc>, p: Pid, pr: Proc, c: (Pid, Proc) -> bool)
    requires Lists(q, procs, c) && !c(p, pr) && RemoveEnds(q, p)
    ensures Lists(Removed(q, p), procs[p := pr], c)
  {
    RemovedElements(q, p);
  }

  lemma ListsDelete(q: seq<Pid>, procs: map<Pid, Proc>, p: Pid, pr: Proc, c: (Pid, Proc) -> bool)
    requires Lists(q, procs, c) && !c(p, pr) && p in q
    ensures Lists(Deleted(q, p), procs[p := pr], c)
  {
    DeletedIsWithout(q, p);
    WithoutElements(q, p);
  }

  predicate Queued(p: Pid, pr: Proc) { pr.onRq }
  predicate Off(pr: Proc, t: Thread) { pr.life == Normal && pr.thread == t && !pr.onRq }
  predicate Waits(p: Pid, pr: Proc) { Off(pr, Waiting) }
  predicate Blocks(p: Pid, pr: Proc) { Off(pr, Blocked) }
  predicate Sleeps(p: Pid, pr: Proc) { Off(pr, Sleeping) }
  predicate Lives(p: Pid, pr: Proc) { p != IDLE && pr.life == Normal }
  predicate Lingers(p: Pid, pr: Proc) { p != IDLE && pr.life == Zombie }

  /** The run queue lists the processes with `onRq` set; each other queue those that are off
      the run queue in its state; allproc the live processes and zombproc the zombies.  As
      these conditions exclude each other, no process is in two queues or in both lists. */
  ghost predicate ListsInv(s: System)
  {
    && Lists(s.run, s.procs, Queued) && Lists(s.waiting, s.procs, Waits)
    && Lists(s.blocked, s.procs, Blocks) && Lists(s.sleeping, s.procs, Sleeps)
    && Lists(s.allproc, s.procs, Lives) && Lists(s.zombproc, s.procs, Lingers)
  }

  /** A process can run. */
  predicate CanRun(pr: Proc)
  {
    pr.life == Normal && pr.thread == Running
  }

  /** A process is stopped exactly when it is no longer live, one in the run queue can run,
      and one that can run is in the run queue; `x` is in the middle of a step, and the idle
      task need not be queued. */
  ghost predicate StatesInv(s: System, x: set<Pid>)
  {
    forall p | p in s.procs && p !in x ::
      var pr := s.procs[p];
      && pr.life != New && (pr.thread == Stopped <==> pr.life != Normal)
      && (if p == IDLE then CanRun(pr) else CanRun(pr) <==> pr.onRq)
  }

  ghost predicate NamesInv(s: System)
  {
    && IDLE in s.procs && s.current in s.procs
    && (forall p {:trigger Related(s.procs, p)} | p in s.procs :: Related(s.procs, p))
    && (forall p | p in s.procs :: p <= s.lastPid)
  }

  /** Parent and children of a process are processes. */
  ghost predicate Related(procs: map<Pid, Proc>, p: Pid)
    requires p in procs
  {
    procs[p].parent in procs && forall c | c in procs[p].children :: c in procs && c != IDLE
  }

  /** The current process is at the head of the run queue, or it is the idle task, which is
      not queued. */
  ghost predicate Chosen(s: System)
    requires IDLE in s.procs
  {
    (s.run != [] && s.current == s.run[0]) || (s.current == IDLE && !s.procs[IDLE].onRq)
  }

  /** What holds between steps. */
  ghost predicate Inv(s: System)
  {
    ListsInv(s) && StatesInv(s, {}) && NamesInv(s) && Chosen(s)
  }

  // ---------------------------------------------------------------- schedule keeps it

  /** A change to one process that affects no list. */
  lemma ChangeQuietly(s: System, p: Pid, pr: Proc)
    requires ListsInv(s) && p in s.procs
    requires pr.life == s.procs[p].life && pr.thread == s.procs[p].thread && pr.onRq == s.procs[p].onRq
    ensures ListsInv(Change(s, p, pr))
  {
    ListsKeep(s.run, s.procs, p, pr, Queued);
    ListsKeep(s.waiting, s.procs, p, pr, Waits);
    ListsKeep(s.blocked, s.procs, p, pr, Blocks);
    ListsKeep(s.sleeping, s.procs, p, pr, Sleeps);
    ListsKeep(s.allproc, s.procs, p, pr, Lives);
    ListsKeep(s.zombproc, s.procs, p, pr, Lingers);
  }

  /** The current process, no longer able to run, leaves the run queue. */
  lemma ParkedKeeps(s: System)
    requires ListsInv(s) && s.current in s.procs && s.procs[s.current].onRq && RemoveEnds(s.run, s.current)
    requires var pr := s.procs[s.current];
             || (pr.life == Zombie && pr.thread == Stopped)
             || (pr.life == Normal && (pr.thread == Sleeping || pr.thread == Blocked || pr.thread == Waiting))
    ensures ListsInv(Parked(s)) && Parked(s).procs == s.procs[s.current := s.procs[s.current].(onRq := false)]
    ensures Parked(s).current == s.current && Parked(s).run == Removed(s.run, s.current)
  {
    hide Lists, Removed;
    var p, pr := s.current, s.procs[s.current].(onRq := false);
    ListsRemove(s.run, s.procs, p, pr, Queued);
    ListsKeep(s.allproc, s.procs, p, pr, Lives);
    ListsKeep(s.zombproc, s.procs, p, pr, Lingers);
    if pr.life == Normal && pr.thread == Waiting {
      ListsAdd(s.waiting, s.procs, p, pr, Waits);
    } else {
      ListsKeep(s.waiting, s.procs, p, pr, Waits);
    }
    if pr.life == Normal && pr.thread == Blocked {
      ListsAdd(s.blocked, s.procs, p, pr, Blocks);
    } else {
      ListsKeep(s.blocked, s.procs, p, pr, Blocks);
    }
    if pr.life == Normal && pr.thread == Sleeping {
      ListsAdd(s.sleeping, s.procs, p, pr, Sleeps);
    } else {
      ListsKeep(s.sleeping, s.procs, p, pr, Sleeps);
    }
  }

  /** The current process is where schedule can remove it from, and only a queued one may be
      unable to run. */
  ghost predicate Schedulable(s: System)
  {
    && ListsInv(s) && NamesInv(s) && StatesInv(s, {s.current})
    && var pr := s.procs[s.current];
       && pr.life != New && (pr.thread == Stopped <==> pr.life != Normal) && pr.life != Dead
       && (pr.onRq ==> RemoveEnds(s.run, s.current)) && (!pr.onRq ==> s.current == IDLE)
       && (s.current == IDLE ==> CanRun(pr))
  }

  /** schedule: the removal ends, and afterwards the head of the run queue runs, or the queue
      is empty and the idle task does. */
  lemma ScheduleKeeps(s: System)
    requires Schedulable(s)
    ensures Inv(Scheduled(s))
    ensures var s' := Scheduled(s);
            (s'.run != [] && s'.current == s'.run[0]) || (s'.run == [] && s'.current == IDLE)
  {
    hide ListsInv, Removed, Picked;
    var s1 := Parked(s);
    if CanRun(s.procs[s.current]) {
      assert s1 == s;
    } else {
      ParkedKeeps(s);
    }
    forall p | p in s1.procs
      ensures s1.procs[p].parent == s.procs[p].parent && s1.procs[p].children == s.procs[p].children
      ensures p != s.current ==> s1.procs[p] == s.procs[p]
    {
    }
    NamesKept(s, s1);
    assert StatesInv(s1, {});
    PickedKeeps(s1);
  }

  /** Changes that keep parents and children keep the names known. */
  lemma NamesKept(s: System, s': System)
    requires NamesInv(s) && s'.procs.Keys == s.procs.Keys && s'.current in s'.procs && s.lastPid <= s'.lastPid
    requires forall p | p in s.procs ::
               s'.procs[p].parent == s.procs[p].parent && s'.procs[p].children == s.procs[p].children
    ensures NamesInv(s')
  {
    forall p | p in s'.procs
      ensures Related(s'.procs, p)
    {
      assert Related(s.procs, p);
    }
  }

  lemma PickedKeeps(s: System)
    requires ListsInv(s) && NamesInv(s) && StatesInv(s, {})
    ensures Inv(Picked(s))
    ensures var s' := Picked(s);
            (s'.run != [] && s'.current == s'.run[0]) || (s'.run == [] && s'.current == IDLE)
  {
    RunHead(s);
    hide Lists;
  }

  lemma RunHead(s: System)
    requires ListsInv(s)
    ensures s.run != [] ==> s.run[0] in s.procs && s.procs[s.run[0]].onRq
    ensures forall p | p in s.procs && s.procs[p].onRq :: s.run != []
  {
    if s.run != [] {
      assert s.run[0] in s.run;
    }
  }

  // ---------------------------------------------------------------- waking up

  /** The state a process is in while it is in the queue. */
  function ThreadOf(q: Queue): (r: Thread)
  {
    match q
    case WaitingQueue => Waiting
    case BlockedQueue => Blocked
    case SleepingQueue => Sleeping
  }

  /** A wake-up of a live process by way of the queue it is in, or of one that can run. */
  lemma WakeKeeps(s: System, q: Queue, p: Pid)
    requires ListsInv(s) && p in s.procs && RemoveEnds(QueueOf(s, q), p)
    requires s.procs[p].life == Normal && (s.procs[p].thread == Running || s.procs[p].thread == ThreadOf(q))
    ensures ListsInv(Woken(s, q, p))
  {
    hide Lists, Removed, RemoveEnds;
    var pr := s.procs[p].(life := Normal, thread := Running, onRq := true);
    if s.procs[p].onRq {
      ListsKeep(s.run, s.procs, p, pr, Queued);
    } else {
      ListsAdd(s.run, s.procs, p, pr, Queued);
    }
    if q == WaitingQueue {
      ListsRemove(s.waiting, s.procs, p, pr, Waits);
    } else {
      ListsKeep(s.waiting, s.procs, p, pr, Waits);
    }
    if q == BlockedQueue {
      ListsRemove(s.blocked, s.procs, p, pr, Blocks);
    } else {
      ListsKeep(s.blocked, s.procs, p, pr, Blocks);
    }
    if q == SleepingQueue {
      ListsRemove(s.sleeping, s.procs, p, pr, Sleeps);
    } else {
      ListsKeep(s.sleeping, s.procs, p, pr, Sleeps);
    }
    ListsKeep(s.allproc, s.procs, p, pr, Lives);
    ListsKeep(s.zombproc, s.procs, p, pr, Lingers);
  }

  /** try_to_wake_up leaves every process in the queue and list of its state exactly when the
      process is live and either can run already or waits in the queue that is given. */
  lemma WakeExact(s: System, q: Queue, p: Pid, x: set<Pid>)
    requires ListsInv(s) && StatesInv(s, x) && p in s.procs && p !in x && RemoveEnds(QueueOf(s, q), p)
    ensures var pr := s.procs[p];
            ListsInv(Woken(s, q, p)) <==> pr.life == Normal && (pr.thread == Running || pr.thread == ThreadOf(q))
  {
    var pr := s.procs[p];
    if pr.life == Normal && (pr.thread == Running || pr.thread == ThreadOf(q)) {
      WakeKeeps(s, q, p);
    } else if pr.life != Normal {
      assert p !in s.allproc;
      assert Lives(p, Woken(s, q, p).procs[p]);
    } else {
      WrongQueue(s, q, p, x);
    }
  }

  /** A process that is in another queue than the one given is afterwards in two. */
  lemma WrongQueue(s: System, q: Queue, p: Pid, x: set<Pid>)
    requires ListsInv(s) && StatesInv(s, x) && p in s.procs && p !in x
    requires s.procs[p].life == Normal && s.procs[p].thread != Running && s.procs[p].thread != ThreadOf(q)
    ensures exists q' | q' != q :: p in QueueOf(Woken(s, q, p), q') && p in Woken(s, q, p).run
    ensures !ListsInv(Woken(s, q, p))
  {
    hide Removed;
    var q' := if s.procs[p].thread == Waiting then WaitingQueue
              else if s.procs[p].thread == Blocked then BlockedQueue else SleepingQueue;
    assert p in QueueOf(s, q');
    assert p in QueueOf(Woken(s, q, p), q');
  }
}
