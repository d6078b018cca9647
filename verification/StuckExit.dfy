/** A run after which an exit never ends: three processes wait, each for the next, and the
    child of the third exits.  The removal of the third from the waiting queue does not get past
    the two before it. */
module StuckExit {
  import opened Processes
  import opened Lifecycle
  import opened LostChild
  import opened StepEffects

  function Waits(parent: Pid, child: Pid): (r: Proc)
  {
    Live(false, parent, [child]).(thread := Waiting)
  }

  /** After the first five steps of LostChild, 2 waits as well; 3 forks 4 and waits too. */
  function T6(): (r: System)
  {
    System(map[0 := Idle(), 1 := Waiter([2]), 2 := Waits(1, 3), 3 := Live(true, 2, [])],
           [3], [1, 2], [], [], 3, [1, 2, 3], [], 3)
  }

  function T7(): (r: System)
  {
    System(map[0 := Idle(), 1 := Waiter([2]), 2 := Waits(1, 3), 3 := Live(true, 2, [4]), 4 := Live(true, 3, [])],
           [3, 4], [1, 2], [], [], 3, [1, 2, 3, 4], [], 4)
  }

  function T8(): (r: System)
  {
    System(map[0 := Idle(), 1 := Waiter([2]), 2 := Waits(1, 3), 3 := Waits(2, 4), 4 := Live(true, 3, [])],
           [4], [1, 2, 3], [], [], 4, [1, 2, 3, 4], [], 4)
  }

  lemma Step6()
    requires NamesInv(S5())
    ensures Ready(S5(), Wait(true)) && Step(S5(), Wait(true)) == T6()
  {
    assert FirstZombie(S5(), [3]) == 1;
  }

  lemma Step7()
    requires NamesInv(T6())
    ensures Ready(T6(), Fork) && Step(T6(), Fork) == T7()
  {
  }

  lemma Step8()
    requires NamesInv(T7())
    ensures Ready(T7(), Wait(true)) && Step(T7(), Wait(true)) == T8()
  {
    assert FirstZombie(T7(), [4]) == 1;
    var run: seq<Pid> := [3, 4];
    assert run[1..] == [4];
  }

  function Steps(): (r: seq<Op>)
  {
    [Fork, Tick, Fork, Wait(true), Fork, Wait(true), Fork, Wait(true)]
  }

  lemma Follows(i: nat, a: System, b: System)
    requires i < 8 && AllEnabled(Booted(), Steps(), i) && Run(Booted(), Steps(), i) == a && Inv(a)
    requires Ready(a, Steps()[i]) && Step(a, Steps()[i]) == b
    ensures AllEnabled(Booted(), Steps(), i + 1) && Run(Booted(), Steps(), i + 1) == b && Inv(b)
  {
    hide Enabled, Step, Prepared, ListsInv, StatesInv;
    StepKeeps(a, Steps()[i]);
  }

  lemma Begins()
    ensures AllEnabled(Booted(), Steps(), 0) && Run(Booted(), Steps(), 0) == Booted()
  {
  }

  /** The first six steps. */
  lemma ReachedSixth()
    ensures AllEnabled(Booted(), Steps(), 6) && Run(Booted(), Steps(), 6) == T6() && Inv(T6())
  {
    hide Run, AllEnabled, Enabled, Step, Prepared, Ready, ListsInv, StatesInv;
    BootedKeeps();
    Begins();
    Step1();
    Follows(0, Booted(), S1());
    Step2();
    Follows(1, S1(), S2());
    Step3();
    Follows(2, S2(), S3());
    Step4();
    Follows(3, S3(), S4());
    Step5();
    Follows(4, S4(), S5());
    Step6();
    Follows(5, S5(), T6());
  }

  /** The run is possible from boot. */
  lemma Reached()
    ensures AllEnabled(Booted(), Steps(), 8) && Run(Booted(), Steps(), 8) == T8() && Inv(T8())
  {
    hide Run, AllEnabled, Enabled, Step, Prepared, Ready, ListsInv, StatesInv;
    ReachedSixth();
    Step7();
    Follows(6, T6(), T7());
    Step8();
    Follows(7, T7(), T8());
  }

  /** After the first six steps 3 kills 2 instead: 2 runs at once, ahead of 3, and 1 waits on. */
  lemma KillSecond()
    ensures Ready(T6(), Kill(2))
    ensures var s := Step(T6(), Kill(2));
            s.current == 2 && s.run == [2, 3] && s.waiting == [1] && s.procs[2] == Live(true, 1, [3])
  {
    hide Step, ListsInv, StatesInv, Without, Run, AllEnabled;
    ReachedSixth();
    assert T6().waiting == [1, 2] && T6().waiting[1] == 2;
    KillHas(T6(), 2);
    WithoutSecond();
  }

  lemma WithoutSecond()
    ensures Without<Pid>([1, 2], 2) == [1]
  {
    var w: seq<Pid> := [1, 2];
    assert w[1..] == [2];
  }

  /** The current process then exits while its parent waits for it, and after any number of
      rounds the removal of the parent from the waiting queue goes on and has changed nothing. */
  lemma ExitNeverEnds(status: int, rounds: nat)
    ensures NamesInv(T8()) && T8().procs[T8().current].children == []
    ensures var e := Notifying(T8(), status);
            var parent := e.procs[T8().current].parent;
            && parent == 3 && e.procs[parent].thread == Waiting && parent in e.waiting && !RemoveEnds(e.waiting, parent)
            && RemoveRounds(e.waiting, parent, rounds) == (e.waiting, true)
  {
    hide Run, AllEnabled, ListsInv, StatesInv, Deleted, RemoveRounds;
    Reached();
    var e := Notifying(T8(), status);
    assert e.procs[4].parent == 3 && e.waiting == [1, 2, 3] && e.waiting[2] == 3;
    RemoveLoop(e.waiting, 3, rounds);
  }
}
