/** A run in which a process exits after its recorded parent has exited and been collected.
    do_fork records only the newest child, so a process with two children that exits hands
    only one of them to init; when the other exits, it wakes a process that is gone. */
module LostChild {
  import opened Processes
  import opened Lifecycle

  function Live(onRq: bool, parent: Pid, children: seq<Pid>): (r: Proc)
  {
    Proc(Normal, Running, onRq, parent, children, 0)
  }

  function Idle(): (r: Proc) { Live(false, IDLE, [1]) }

  /** Idle forks 1; 1 runs, forks 2 and waits; 2 forks 3 and 4. */
  function S1(): (r: System)
  {
    System(map[0 := Idle(), 1 := Live(true, 0, [])], [1], [], [], [], 0, [1], [], 1)
  }

  function S2(): (r: System) { S1().(current := 1) }

  function S3(): (r: System)
  {
    System(map[0 := Idle(), 1 := Live(true, 0, [2]), 2 := Live(true, 1, [])], [1, 2], [], [], [], 1, [1, 2], [], 2)
  }

  function Waiter(children: seq<Pid>): (r: Proc) { Live(false, 0, children).(thread := Waiting) }

  function S4(): (r: System)
  {
    System(map[0 := Idle(), 1 := Waiter([2]), 2 := Live(true, 1, [])], [2], [1], [], [], 2, [1, 2], [], 2)
  }

  function S5(): (r: System)
  {
    System(map[0 := Idle(), 1 := Waiter([2]), 2 := Live(true, 1, [3]), 3 := Live(true, 2, [])],
           [2, 3], [1], [], [], 2, [1, 2, 3], [], 3)
  }

  function S6(): (r: System)
  {
    System(map[0 := Idle(), 1 := Waiter([2]), 2 := Live(true, 1, [4]), 3 := Live(true, 2, []), 4 := Live(true, 2, [])],
           [2, 3, 4], [1], [], [], 2, [1, 2, 3, 4], [], 4)
  }

  /** 2 exits with status 7, which hands 4 to 1 and wakes 1. */
  function S7(): (r: System)
  {
    System(map[0 := Idle(), 1 := Live(true, 0, [2, 4]), 2 := Proc(Zombie, Stopped, false, 1, [4], 7),
               3 := Live(true, 2, []), 4 := Live(true, 1, [])],
           [1, 3, 4], [], [], [], 1, [1, 3, 4], [2], 4)
  }

  /** 1 collects 2 and waits again; 3 runs. */
  function S8(): (r: System)
  {
    S7().(procs := S7().procs[2 := Proc(Dead, Stopped, false, 1, [4], 7)], zombproc := [])
  }

  function S9(): (r: System)
  {
    S8().(procs := S8().procs[1 := Waiter([2, 4])], run := [3, 4], waiting := [1], current := 3)
  }

  lemma Step1()
    requires NamesInv(Booted())
    ensures Ready(Booted(), Fork) && Step(Booted(), Fork) == S1()
  {
  }

  lemma Step2()
    requires NamesInv(S1())
    ensures Ready(S1(), Tick) && Step(S1(), Tick) == S2()
  {
  }

  lemma Step3()
    requires NamesInv(S2())
    ensures Ready(S2(), Fork) && Step(S2(), Fork) == S3()
  {
  }

  lemma Step4()
    requires NamesInv(S3())
    ensures Ready(S3(), Wait(true)) && Step(S3(), Wait(true)) == S4()
  {
    assert FirstZombie(S3(), [2]) == 1;
  }

  lemma Step5()
    requires NamesInv(S4())
    ensures Ready(S4(), Fork) && Step(S4(), Fork) == S5()
  {
  }

  lemma Step6()
    requires NamesInv(S5())
    ensures Ready(S5(), Fork) && Step(S5(), Fork) == S6()
  {
  }

  lemma Adopts()
    requires NamesInv(S6())
    ensures var p := S6().procs;
            Adopting(S6()) == S6().(procs := p[4 := Live(true, 1, [])][1 := Waiter([2, 4])])
  {
    AdoptsFour();
    hide AdoptedOne;
    var kids: seq<Pid> := [4];
    assert kids[1..] == [] && S6().procs[2].children == kids;
    assert Adopted(AdoptedOne(S6(), 4), kids[1..]) == AdoptedOne(S6(), 4);
    assert Adopted(S6(), kids) == AdoptedOne(S6(), 4);
  }

  lemma AdoptsFour()
    ensures var p := S6().procs;
            AdoptedOne(S6(), 4) == S6().(procs := p[4 := Live(true, 1, [])][1 := Waiter([2, 4])])
  {
    var l: seq<Pid> := [2];
    assert l + [4] == [2, 4];
  }

  /** 2 has exited and woken 1, and is about to be taken off the run queue. */
  function Exiting(): (r: System)
  {
    System(map[0 := Idle(), 1 := Live(true, 0, [2, 4]), 2 := Proc(Zombie, Stopped, true, 1, [4], 7),
               3 := Live(true, 2, []), 4 := Live(true, 1, [])],
           [1, 2, 3, 4], [], [], [], 2, [1, 3, 4], [2], 4)
  }

  /** 2 has exited, but not yet woken 1. */
  function Ending(): (r: System)
  {
    Exiting().(procs := Exiting().procs[1 := Waiter([2, 4])], run := [2, 3, 4], waiting := [1])
  }

  lemma Ends()
    requires NamesInv(S6())
    ensures Ended(Adopting(S6()), 7) == Ending()
  {
    hide Adopting, Deleted;
    Adopts();
    DeletesTwo();
    var p, q := Ended(Adopting(S6()), 7).procs, Ending().procs;
    assert p[0] == q[0] && p[1] == q[1] && p[2] == q[2] && p[3] == q[3] && p[4] == q[4];
    assert p == q;
  }

  lemma Wakes()
    ensures Woken(Ending(), WaitingQueue, 1) == Exiting()
  {
    var run: seq<Pid> := [2, 3, 4];
    assert [1] + run == [1, 2, 3, 4];
    var waiting: seq<Pid> := [1];
    assert waiting[1..] == [];
  }

  lemma Exits()
    requires NamesInv(S6())
    ensures Enabled(S6(), Exit(7)) && Prepared(S6(), Exit(7)) == Exiting()
  {
    hide Adopting, Ended, Woken;
    Adopts();
    Ends();
    Wakes();
  }

  lemma Leaves()
    ensures Scheduled(Exiting()) == S7()
  {
    var run: seq<Pid> := [1, 2, 3, 4];
    assert run[2..] == [3, 4];
  }

  lemma Step7()
    requires NamesInv(S6())
    ensures Ready(S6(), Exit(7)) && Step(S6(), Exit(7)) == S7()
  {
    hide Prepared, Scheduled, Enabled;
    Exits();
    Leaves();
  }

  lemma DeletesTwo()
    ensures Deleted<Pid>([1, 2, 3, 4], 2) == [1, 3, 4]
  {
    var l: seq<Pid> := [1, 2, 3, 4];
    assert l[1..] == [2, 3, 4] && l[1..][1..] == [3, 4];
  }

  lemma Step8()
    requires NamesInv(S7())
    ensures Ready(S7(), Wait(false)) && Step(S7(), Wait(false)) == S8()
  {
    assert FirstZombie(S7(), [2, 4]) == 0;
  }

  lemma Step9()
    requires NamesInv(S8())
    ensures Ready(S8(), Wait(true)) && Step(S8(), Wait(true)) == S9()
  {
    assert [2, 4][1..] == [4];
    assert FirstZombie(S8(), [4]) == 1;
    assert FirstZombie(S8(), [2, 4]) == 2;
  }

  function Ops(): (r: seq<Op>)
  {
    [Fork, Tick, Fork, Wait(true), Fork, Fork, Exit(7), Wait(false), Wait(true)]
  }

  /** The run is possible from boot, and after it the parent of the current process is dead. */
  lemma Runs()
    ensures AllEnabled(Booted(), Ops(), 9) && Run(Booted(), Ops(), 9) == S9() && Inv(S9())
    ensures S9().procs[S9().current].parent == 2 && S9().procs[2].life == Dead
  {
    hide Run, AllEnabled, Enabled, Step, Prepared, Ready, ListsInv, StatesInv;
    BootedKeeps();
    Starts();
    Step1();
    Goes(0, Booted(), S1());
    Step2();
    Goes(1, S1(), S2());
    Step3();
    Goes(2, S2(), S3());
    Step4();
    Goes(3, S3(), S4());
    Step5();
    Goes(4, S4(), S5());
    Step6();
    Goes(5, S5(), S6());
    Step7();
    Goes(6, S6(), S7());
    Step8();
    Goes(7, S7(), S8());
    Step9();
    Goes(8, S8(), S9());
  }

  lemma Starts()
    ensures AllEnabled(Booted(), Ops(), 0) && Run(Booted(), Ops(), 0) == Booted()
  {
  }

  lemma Goes(i: nat, a: System, b: System)
    requires i < 9 && AllEnabled(Booted(), Ops(), i) && Run(Booted(), Ops(), i) == a && Inv(a)
    requires Ready(a, Ops()[i]) && Step(a, Ops()[i]) == b
    ensures AllEnabled(Booted(), Ops(), i + 1) && Run(Booted(), Ops(), i + 1) == b && Inv(b)
  {
    hide Enabled, Step, Prepared, ListsInv, StatesInv;
    StepKeeps(a, Ops()[i]);
  }

  /** A process is live again and first to run, but in no list of processes. */
  ghost predicate Revived(s: System, p: Pid)
  {
    && p in s.procs && s.procs[p].life == Normal && s.run != [] && s.run[0] == p
    && p !in s.allproc && p !in s.zombproc && !ListsInv(s)
  }

  /** The exit of the current process then brings the dead parent back. */
  lemma DeadParentRuns(status: int)
    ensures Inv(S9()) && RemoveEnds(S9().waiting, 2)
    ensures Revived(Woken(Notifying(S9(), status), WaitingQueue, 2), 2)
  {
    hide Run, AllEnabled, Woken, ListsInv, StatesInv;
    Runs();
    Leaving(status);
    WokenIs(Notifying(S9(), status), WaitingQueue, 2);
    ExitExact(S9(), status);
  }

  lemma Leaving(status: int)
    requires NamesInv(S9())
    ensures var e := Notifying(S9(), status);
            && e.procs == S9().procs[3 := Proc(Zombie, Stopped, true, 2, [], status)]
            && e.run == [3, 4] && e.allproc == [1, 4] && e.zombproc == [3]
  {
    var l: seq<Pid> := [1, 3, 4];
    assert l[1..] == [3, 4] && l[1..][1..] == [4];
  }
}
