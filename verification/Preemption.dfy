/** Who gets the processor.  The scheduler is meant to be preemptive and round-robin
    (sys/scheduler.c): a timer tick at the end of a time slice calls schedule.  But schedule takes
    the head of the run queue, and the process that runs stays at the head. */
module Preemption {
  import opened Processes
  import opened Lifecycle
  import opened StepEffects
  import LostChild

  /** The current process stops, ends, begins to wait for children of which none has ended, or
      kills a live process that is not in the run queue. */
  ghost predicate GivesUp(s: System, op: Op)
    requires NamesInv(s)
  {
    var kids := s.procs[s.current].children;
    match op
    case Fork => false
    case Wait(first) => first && kids != [] && forall c | c in kids && c in s.procs :: s.procs[c].life != Zombie
    case Exit(_) => true
    case Kill(k) => 1 < k && k != s.current && k in s.allproc && k !in s.run
    case Halt(_) => true
    case Tick => false
  }

  /** A process other than the idle task loses the processor in a step if and only if it gives it
      up itself; no tick takes it away. */
  lemma LosesProcessor(s: System, op: Op)
    requires Inv(s) && Enabled(s, op) && s.current != IDLE
    ensures Ready(s, op) && (Step(s, op).current != s.current <==> GivesUp(s, op))
  {
    StepHas(s, op);
    HeadOnce(s);
    match op
    case Fork =>
    case Wait(first) => WaitLoses(s, first, Step(s, op));
    case Exit(status) => ExitLoses(s, status, Step(s, op));
    case Kill(k) => KillLoses(s, k, Step(s, op));
    case Halt(t) => assert Step(s, op).run != [] ==> Step(s, op).run[0] == s.run[1];
    case Tick =>
    hide ListsInv, StatesInv, Related, Step, Enabled, WaitEffect, ExitEffect, KillEffect;
  }

  lemma HeadOnce(s: System)
    requires Inv(s) && s.current != IDLE
    ensures s.run != [] && s.run[0] == s.current && forall i | 1 <= i < |s.run| :: s.run[i] != s.current
  {
    CurrentRuns(s);
  }

  lemma WaitLoses(s: System, first: bool, s': System)
    requires Inv(s) && s.current != IDLE && WaitEffect(s, first, s')
    ensures s'.current != s.current <==> GivesUp(s, Wait(first))
  {
    hide ListsInv, StatesInv, Without;
    HeadOnce(s);
    assert Related(s.procs, s.current);
    var kids := s.procs[s.current].children;
    if !forall c | c in kids :: s.procs[c].life != Zombie {
      var z := FirstEnded(s, kids);
      assert s'.zombproc == Without(s.zombproc, kids[z]) && s'.current == s.current;
    } else {
      assert if kids != [] && first then GivesWay(s, Waiting, s') else s' == s;
      assert kids != [] && first && s'.run != [] ==> s'.run[0] == s.run[1];
    }
  }

  lemma {:induction false} FirstEnded(s: System, kids: seq<Pid>) returns (z: nat)
    requires (forall c | c in kids :: c in s.procs) && exists c :: c in kids && s.procs[c].life == Zombie
    ensures z < |kids| && s.procs[kids[z]].life == Zombie
    ensures forall j | 0 <= j < z :: s.procs[kids[j]].life != Zombie
  {
    z := 0;
    while s.procs[kids[z]].life != Zombie
      invariant z < |kids| && forall j | 0 <= j < z :: s.procs[kids[j]].life != Zombie
      decreases |kids| - z
    {
      z := z + 1;
    }
  }

  lemma ExitLoses(s: System, status: int, s': System)
    requires Inv(s) && Enabled(s, Exit(status)) && s.current != IDLE && ExitEffect(s, status, s')
    ensures s'.current != s.current
  {
    HeadOnce(s);
    hide ListsInv, StatesInv, Without, HandedOn;
  }

  lemma KillLoses(s: System, k: Pid, s': System)
    requires Inv(s) && s.current != IDLE && KillEffect(s, k, s')
    ensures s'.current != s.current <==> GivesUp(s, Kill(k))
  {
    InOneQueue(s, k);
    hide StatesInv, Related, Without;
  }

  // ---------------------------------------------------------------- runs

  /** As long as the process does not give the processor up it keeps it, however many ticks
      there are. */
  lemma {:induction false} KeepsProcessor(s: System, ops: seq<Op>, i: nat)
    requires Inv(s) && s.current != IDLE && i <= |ops| && AllEnabled(s, ops, i)
    requires forall j: nat | j < i :: NamesInv(Run(s, ops, j)) && !GivesUp(Run(s, ops, j), ops[j])
    ensures Run(s, ops, i).current == s.current
  {
    hide Inv, Enabled, NamesInv, Step, Prepared, GivesUp;
    if 0 < i {
      KeepsProcessor(s, ops, i - 1);
      RunKeeps(s, ops, i - 1);
      LosesProcessor(Run(s, ops, i - 1), ops[i - 1]);
    }
  }

  function Ticks(n: nat): (r: seq<Op>)
    ensures |r| == n && forall i | 0 <= i < n :: r[i] == Tick
  {
    seq(n, _ => Tick)
  }

  /** With nothing but ticks the whole state stays as it is. */
  lemma {:induction false} TicksChangeNothing(s: System, n: nat, i: nat)
    requires Inv(s) && s.current != IDLE && i <= n
    ensures AllEnabled(s, Ticks(n), i) && Run(s, Ticks(n), i) == s
  {
    hide Inv, Step, Prepared, Ticks;
    if 0 < i {
      TicksChangeNothing(s, n, i - 1);
      TickHas(s);
      InvNames(s);
    }
  }

  lemma InvNames(s: System)
    requires Inv(s)
    ensures NamesInv(s)
  {
  }

  /** Soon after boot: a process forks and goes on without a system call.  Its child is in the run
      queue and can run, and after any number of ticks it has not. */
  lemma ChildStarves(n: nat)
    ensures var s := LostChild.S3();
            && Run(Lifecycle.Booted(), [Fork, Tick, Fork], 3) == s && s.current == 1 && s.run == [1, 2]
            && CanRun(s.procs[2]) && Run(s, Ticks(n), n) == s
  {
    var s, ops := LostChild.S3(), [Fork, Tick, Fork];
    hide Run, AllEnabled, Enabled, Step, Prepared, Ready, ListsInv, StatesInv;
    BootedKeeps();
    LostChild.Step1();
    StepKeeps(Lifecycle.Booted(), Fork);
    LostChild.Step2();
    StepKeeps(LostChild.S1(), Tick);
    LostChild.Step3();
    StepKeeps(LostChild.S2(), Fork);
    ThreeSteps();
    TicksChangeNothing(s, n, n);
  }

  lemma ThreeSteps()
    requires Ready(Lifecycle.Booted(), Fork) && Step(Lifecycle.Booted(), Fork) == LostChild.S1()
    requires Ready(LostChild.S1(), Tick) && Step(LostChild.S1(), Tick) == LostChild.S2()
    requires Ready(LostChild.S2(), Fork) && Step(LostChild.S2(), Fork) == LostChild.S3()
    ensures Run(Lifecycle.Booted(), [Fork, Tick, Fork], 3) == LostChild.S3()
  {
    hide Ready, Step, Lifecycle.Booted, LostChild.S1, LostChild.S2, LostChild.S3;
    var b, ops := Lifecycle.Booted(), [Fork, Tick, Fork];
    assert Run(b, ops, 1) == LostChild.S1();
    assert Run(b, ops, 2) == LostChild.S2();
  }
}
