/** Kernel stacks and registers, one word at a time: do_switch (sys/scheduler.s), the system
    call entry and ret_from_fork (sys/do_syscall.s), and copy_thread (sys/process.c). */
module ContextSwitch {
  /** Words by address. */
  type Memory = map<int, nat>

  datatype Regs = Regs(rax: nat, rbx: nat, rcx: nat, rdx: nat, rsi: nat, rdi: nat, rbp: nat, rsp: int,
                       r8: nat, r9: nat, r10: nat, r11: nat, r12: nat, r13: nat, r14: nat, r15: nat)

  const STACK_SIZE: nat := 4096
  const FRAME: nat := 48     // six registers
  const REG_LIST: nat := 168 // struct reg_list

  /** The word at an address; words never written are 0. */
  function Word(m: Memory, a: int): (w: nat)
  {
    if a in m then m[a] else 0
  }

  // ---------------------------------------------------------------- do_switch

  /** The stack after the six pushes of do_switch. */
  function Pushed(m: Memory, r: Regs): (m': Memory)
  {
    m[r.rsp - 8 := r.rbp][r.rsp - 16 := r.rbx][r.rsp - 24 := r.r12]
     [r.rsp - 32 := r.r13][r.rsp - 40 := r.r14][r.rsp - 48 := r.r15]
  }

  /** The registers after the six pops from `sp`; the return address is then on top. */
  function Popped(m: Memory, r: Regs, sp: int): (r': Regs)
  {
    r.(r15 := Word(m, sp), r14 := Word(m, sp + 8), r13 := Word(m, sp + 16), r12 := Word(m, sp + 24),
       rbx := Word(m, sp + 32), rbp := Word(m, sp + 40), rsp := sp + 48)
  }

  /** What the C calling convention keeps for the caller of do_switch: callee-saved
      registers, the stack pointer after the return, and where execution goes on. */
  datatype Context = Context(rbx: nat, rbp: nat, r12: nat, r13: nat, r14: nat, r15: nat, rsp: int, rip: nat)

  /** The context a process has when it is about to execute the return of do_switch. */
  function ContextOf(m: Memory, r: Regs): (c: Context)
  {
    Context(r.rbx, r.rbp, r.r12, r.r13, r.r14, r.r15, r.rsp + 8, Word(m, r.rsp))
  }

  /** The context stored in the frame at `sp`. */
  function Stored(m: Memory, sp: int): (c: Context)
  {
    Context(Word(m, sp + 32), Word(m, sp + 40), Word(m, sp + 24), Word(m, sp + 16), Word(m, sp + 8), Word(m, sp),
            sp + 56, Word(m, sp + 48))
  }

  /** Processor, memory, the saved stack pointers of the processes, where their stacks
      are, and who runs. */
  datatype State = State(regs: Regs, mem: Memory, saved: map<nat, int>, stacks: map<nat, int>, current: nat)

  /** do_switch to process `next`. */
  function Switched(s: State, next: nat): (s': State)
  {
    var m := Pushed(s.mem, s.regs);
    var saved := s.saved[s.current := s.regs.rsp - FRAME];
    var sp := if next in saved then saved[next] else 0;
    State(Popped(m, s.regs, sp), m, saved, s.stacks, next)
  }

  /** The stack of process `p` contains the addresses from `lo` up to `hi`. */
  ghost predicate OnStack(s: State, p: nat, lo: int, hi: int)
  {
    p in s.stacks && s.stacks[p] <= lo && hi <= s.stacks[p] + STACK_SIZE
  }

  ghost predicate StacksApart(s: State)
  {
    forall p, q | p in s.stacks && q in s.stacks && p != q ::
      s.stacks[p] + STACK_SIZE <= s.stacks[q] || s.stacks[q] + STACK_SIZE <= s.stacks[p]
  }

  datatype Step =
    | SwitchTo(next: nat)
    | Work(regs: Regs, mem: Memory)

  /** The current process switches with room on its own stack, to a process whose frame is
      on that process's stack; or it computes, writing to no other process's stack. */
  ghost predicate Allowed(s: State, step: Step)
  {
    match step
    case SwitchTo(next) =>
      && OnStack(s, s.current, s.regs.rsp - FRAME, s.regs.rsp + 8)
      && next != s.current && next in s.saved && OnStack(s, next, s.saved[next], s.saved[next] + 56)
    case Work(_, mem) =>
      forall p, a | p in s.stacks && p != s.current && s.stacks[p] <= a < s.stacks[p] + STACK_SIZE ::
        Word(mem, a) == Word(s.mem, a)
  }

  function Next(s: State, step: Step): (s': State)
  {
    match step
    case SwitchTo(next) => Switched(s, next)
    case Work(regs, mem) => s.(regs := regs, mem := mem)
  }

  /** Process `p` is suspended with the given context in its frame. */
  ghost predicate Suspended(s: State, p: nat, c: Context)
  {
    p != s.current && p in s.saved && OnStack(s, p, s.saved[p], s.saved[p] + 56) && Stored(s.mem, s.saved[p]) == c
  }

  /** Switching away suspends a process with the context it had. */
  lemma SwitchSaves(s: State, next: nat)
    requires StacksApart(s) && Allowed(s, SwitchTo(next))
    ensures Suspended(Switched(s, next), s.current, ContextOf(s.mem, s.regs))
  {
  }

  /** Switching to a suspended process gives it its context back. */
  lemma SwitchRestores(s: State, next: nat, c: Context)
    requires StacksApart(s) && Allowed(s, SwitchTo(next)) && Suspended(s, next, c)
    ensures var s' := Switched(s, next); s'.current == next && ContextOf(s'.mem, s'.regs) == c
  {
    assert s.stacks[next] + STACK_SIZE <= s.stacks[s.current] || s.stacks[s.current] + STACK_SIZE <= s.stacks[next];
  }

  /** Process `p` sleeps from `s` to `s'`: it runs in neither, and its stack and saved stack
      pointer are the same. */
  ghost predicate Parked(s: State, s': State, p: nat)
  {
    && p != s.current && p != s'.current && p in s.saved && p in s'.saved && s'.saved[p] == s.saved[p]
    && p in s.stacks && s'.stacks == s.stacks
    && forall a | s.stacks[p] <= a < s.stacks[p] + STACK_SIZE :: Word(s'.mem, a) == Word(s.mem, a)
  }

  /** No step of another process disturbs a sleeping one. */
  lemma StepParks(s: State, step: Step, p: nat)
    requires StacksApart(s) && Allowed(s, step) && step != SwitchTo(p)
    requires p != s.current && p in s.saved && p in s.stacks
    ensures Parked(s, Next(s, step), p)
  {
    if step.SwitchTo? {
      assert s.stacks[p] + STACK_SIZE <= s.stacks[s.current] || s.stacks[s.current] + STACK_SIZE <= s.stacks[p];
    }
  }

  lemma ParkedKeepsContext(s: State, s': State, p: nat, c: Context)
    requires Parked(s, s', p) && Suspended(s, p, c)
    ensures Suspended(s', p, c)
  {
  }

  // ---------------------------------------------------------------- runs

  /** The state after the first `i` steps. */
  function After(s: State, steps: seq<Step>, i: nat): (s': State)
    requires i <= |steps|
  {
    if i == 0 then s else Next(After(s, steps, i - 1), steps[i - 1])
  }

  ghost predicate AllAllowed(s: State, steps: seq<Step>, i: nat)
    requires i <= |steps|
  {
    i == 0 || (AllAllowed(s, steps, i - 1) && Allowed(After(s, steps, i - 1), steps[i - 1]))
  }

  lemma {:induction false} StacksStay(s: State, steps: seq<Step>, i: nat)
    requires i <= |steps|
    ensures After(s, steps, i).stacks == s.stacks
  {
    if i != 0 {
      StacksStay(s, steps, i - 1);
    }
  }

  lemma {:induction false} AllowedBefore(s: State, steps: seq<Step>, i: nat, j: nat)
    requires i <= j <= |steps| && AllAllowed(s, steps, j)
    ensures AllAllowed(s, steps, i)
    ensures i < j ==> Allowed(After(s, steps, i), steps[i])
    decreases j - i
  {
    hide Allowed, Next;
    if i < j {
      AllowedBefore(s, steps, i, j - 1);
    }
  }

  /** A process that does not run after `i` steps sleeps until a step switches to it. */
  lemma {:induction false} ParkedThrough(s: State, steps: seq<Step>, i: nat, j: nat, p: nat)
    requires StacksApart(s) && i <= j <= |steps| && AllAllowed(s, steps, j)
    requires p != After(s, steps, i).current && p in After(s, steps, i).saved && p in s.stacks
    requires forall k | i <= k < j :: steps[k] != SwitchTo(p)
    ensures Parked(After(s, steps, i), After(s, steps, j), p)
    decreases j - i
  {
    hide Allowed, Next, Word;
    StacksStay(s, steps, i);
    if i < j {
      ParkedThrough(s, steps, i, j - 1, p);
      StacksStay(s, steps, j - 1);
      ApartBy(s, After(s, steps, j - 1));
      StepParks(After(s, steps, j - 1), steps[j - 1], p);
    }
  }

  lemma ApartBy(s: State, s': State)
    requires StacksApart(s) && s'.stacks == s.stacks
    ensures StacksApart(s')
  {
  }

  /** Context switching is transparent: if a process leaves at step `i` of a run and is next
      switched to at step `j`, it goes on with the registers, stack pointer and return
      address it left with, whatever ran in between. */
  lemma SwitchIsTransparent(s: State, steps: seq<Step>, i: nat, j: nat)
    requires StacksApart(s) && i < j < |steps| && AllAllowed(s, steps, j + 1)
    requires steps[i].SwitchTo? && steps[j] == SwitchTo(After(s, steps, i).current)
    requires forall k | i < k < j :: steps[k] != steps[j]
    ensures var left, back := After(s, steps, i), After(s, steps, j + 1);
            back.current == left.current && ContextOf(back.mem, back.regs) == ContextOf(left.mem, left.regs)
  {
    hide Allowed, Suspended, Stored, Popped, Pushed;
    var left := After(s, steps, i);
    var p, c := left.current, ContextOf(left.mem, left.regs);
    AllowedBefore(s, steps, i, j + 1);
    AllowedBefore(s, steps, j, j + 1);
    StacksStay(s, steps, i);
    StacksStay(s, steps, j);
    ApartBy(s, left);
    ApartBy(s, After(s, steps, j));
    SwitchSaves(left, steps[i].next);
    assert After(s, steps, i + 1) == Switched(left, steps[i].next);
    SuspendedFacts(After(s, steps, i + 1), p, c);
    StacksStay(s, steps, i + 1);
    ParkedThrough(s, steps, i + 1, j, p);
    ParkedKeepsContext(After(s, steps, i + 1), After(s, steps, j), p, c);
    SwitchRestores(After(s, steps, j), p, c);
  }

  lemma SuspendedFacts(s: State, p: nat, c: Context)
    requires Suspended(s, p, c)
    ensures p != s.current && p in s.saved && p in s.stacks
  {
  }

  // ---------------------------------------------------------------- system calls

  const USER_CS: nat := 0x2B
  const USER_SS: nat := 0x23
  const NO_RESULT: nat := 0xFFFF_FFFF_FFFF_FFFF

  /** User mode: the registers, and what the processor keeps besides. */
  datatype User = User(regs: Regs, rip: nat, rflags: nat, cs: nat, ss: nat)

  /** Entry of do_syscalls on the stack that ends at `top`.  The SYSCALL instruction has put
      the return address into rcx and the flags into r11.  The six words for callee-saved
      registers are only skipped. */
  function Entered(m: Memory, r: Regs, top: int): (m': Memory)
  {
    SavedArguments(SavedUser(m, r, top), r, top)
  }

  function SavedUser(m: Memory, r: Regs, top: int): (m': Memory)
  {
    m[top - 8 := USER_SS][top - 16 := if r.rsp < 0 then 0 else r.rsp][top - 24 := r.r11][top - 32 := USER_CS]
     [top - 40 := r.rcx][top - 48 := r.rax]
  }

  function SavedArguments(m: Memory, r: Regs, top: int): (m': Memory)
  {
    m[top - 56 := r.rdi][top - 64 := r.rsi][top - 72 := r.rdx]
     [top - 80 := r.rcx][top - 88 := NO_RESULT][top - 96 := r.r8][top - 104 := r.r9][top - 112 := r.r10]
     [top - 120 := r.r11]
  }

  /** The way back through do_syscalls with the handler's result in rax. */
  function Returned(m: Memory, r: Regs, top: int): (u: User)
  {
    var sp := top - REG_LIST;
    var regs := r.(rcx := Word(m, sp + 128), r11 := Word(m, sp + 144), r10 := Word(m, sp + 56), r9 := Word(m, sp + 64),
                   r8 := Word(m, sp + 72), rdx := Word(m, sp + 96), rsi := Word(m, sp + 104), rdi := Word(m, sp + 112),
                   rsp := Word(m, sp + 152));
    User(regs, regs.rcx, regs.r11, USER_CS, USER_SS)
  }

  /** The saved frame, apart from the words that were skipped, is as it was. */
  ghost predicate FrameKept(m: Memory, m': Memory, top: int)
  {
    forall a | top - REG_LIST + FRAME <= a < top :: Word(m', a) == Word(m, a)
  }

  /** What a handler written in C leaves alone. */
  predicate CalleeSaved(r: Regs, r': Regs)
  {
    && r'.rbx == r.rbx && r'.rbp == r.rbp && r'.r12 == r.r12 && r'.r13 == r.r13 && r'.r14 == r.r14 && r'.r15 == r.r15
  }

  /** A system call comes back to the caller with every register as it was but rax, which
      holds the result. */
  lemma SyscallReturns(m: Memory, r: Regs, top: int, m': Memory, r': Regs)
    requires 0 <= r.rsp && FrameKept(Entered(m, r, top), m', top) && CalleeSaved(r, r')
    ensures Returned(m', r', top) == User(r.(rax := r'.rax), r.rcx, r.r11, USER_CS, USER_SS)
  {
  }

  // ---------------------------------------------------------------- fork

  const RET_FROM_FORK: nat := 0xFFFF_FFFF_8020_0000  // stands for the address of the routine

  /** Offsets in a stack page of the child's first frame and of its register list. */
  const FORK_FRAME: int := STACK_SIZE - REG_LIST - 56
  const FORK_REGS: int := STACK_SIZE - REG_LIST

  /** The word at offset `o` of the child's stack after copy_thread for a user thread: the
      parent's, except for rbx and the return address of the frame, rax, and possibly the
      user stack pointer. */
  function ChildWord(m: Memory, parent: int, stackStart: nat, o: int): (w: nat)
  {
    if o == FORK_FRAME + 32 then 0
    else if o == FORK_FRAME + 48 then RET_FROM_FORK
    else if o == FORK_REGS + 80 then 0
    else if o == FORK_REGS + 152 && stackStart != 0 then stackStart
    else Word(m, parent + o)
  }

  /** Every word of the child's stack page is as copy_thread leaves it. */
  ghost predicate Forked(m: Memory, m': Memory, child: int, parent: int, stackStart: nat)
  {
    forall i | 0 <= i < 512 :: Word(m', child + 8 * i) == ChildWord(m, parent, stackStart, 8 * i)
  }

  /** Memory with the first byte of a word set to zero: my_memset of a stack page clears one
      byte more than the page. */
  function Cleared(m: Memory, a: int): (m': Memory)
    ensures Word(m', a) == Word(m, a) - Word(m, a) % 256
    ensures forall b | b != a :: Word(m', b) == Word(m, b)
  {
    m[a := Word(m, a) / 256 * 256]
  }

  /** The byte past a new stack costs another process its context if and only if that
      process has the stack just above, has filled it, and had saved an r15 with a low byte. */
  lemma ClearKeepsSuspended(s: State, child: nat, p: nat, c: Context)
    requires StacksApart(s) && Suspended(s, p, c) && child in s.stacks && p != child
    ensures var a := s.stacks[child] + STACK_SIZE;
            Suspended(s.(mem := Cleared(s.mem, a)), p, c) <==> s.saved[p] != a || c.r15 % 256 == 0
  {
    hide Word, Cleared;
    var a := s.stacks[child] + STACK_SIZE;
    assert a <= s.stacks[p] || s.stacks[p] + STACK_SIZE <= s.stacks[child];
    var sp := s.saved[p];
    assert Word(s.mem, sp) == c.r15;
    if sp != a {
      assert Stored(Cleared(s.mem, a), sp) == c;
    } else {
      assert Word(Cleared(s.mem, a), a) == c.r15 - c.r15 % 256;
    }
  }

  /** The system call frame of the parent is not touched. */
  lemma ClearKeepsFrame(m0: Memory, m: Memory, child: int, parent: int)
    requires child + STACK_SIZE <= parent || parent + STACK_SIZE <= child
    requires FrameKept(m0, m, parent + STACK_SIZE)
    ensures FrameKept(m0, Cleared(m, child + STACK_SIZE), parent + STACK_SIZE)
  {
    hide Word, Cleared;
  }

  /** ret_from_fork of a user thread: all registers from the list, and iretq. */
  function FromFork(m: Memory, sp: int): (u: User)
  {
    User(Regs(Word(m, sp + 80), Word(m, sp + 40), Word(m, sp + 88), Word(m, sp + 96),
              Word(m, sp + 104), Word(m, sp + 112), Word(m, sp + 32), Word(m, sp + 152),
              Word(m, sp + 72), Word(m, sp + 64), Word(m, sp + 56), Word(m, sp + 48),
              Word(m, sp + 24), Word(m, sp + 16), Word(m, sp + 8), Word(m, sp)),
         Word(m, sp + 128), Word(m, sp + 144), Word(m, sp + 136), Word(m, sp + 160))
  }

  /** The frame copy_thread builds makes the child's first switch return to ret_from_fork,
      with rbx zero and the register list on top of the stack. */
  lemma ForkFrame(m: Memory, m': Memory, child: int, parent: int, stackStart: nat)
    requires Forked(m, m', child, parent, stackStart)
    ensures var c := Stored(m', child + FORK_FRAME);
            c.rip == RET_FROM_FORK && c.rbx == 0 && c.rsp == child + FORK_REGS
  {
    assert FORK_FRAME == 8 * 484;
    assert Word(m', child + 8 * 488) == ChildWord(m, parent, stackStart, 8 * 488);
    assert Word(m', child + 8 * 490) == ChildWord(m, parent, stackStart, 8 * 490);
  }

  /** The word of the child's list at offset `o` is the parent's, but for rax and sp. */
  lemma ForkedWord(m: Memory, m': Memory, child: int, parent: int, stackStart: nat, o: int)
    requires Forked(m, m', child, parent, stackStart) && 0 <= o < REG_LIST && o % 8 == 0
    ensures Word(m', child + FORK_REGS + o) ==
              if o == 80 then 0 else if o == 152 && stackStart != 0 then stackStart else Word(m, parent + FORK_REGS + o)
  {
    var i := (FORK_REGS + o) / 8;
    assert 8 * i == FORK_REGS + o;
    assert Word(m', child + 8 * i) == ChildWord(m, parent, stackStart, 8 * i);
  }

  /** The user state fork gives the child: the caller's of the system call with rax zero, the
      stack pointer asked for if one was, and in the callee-saved registers whatever the parent's
      stack held in the words that the system call entry skips. */
  lemma ForkedUser(m0: Memory, r: Regs, m: Memory, m': Memory, child: int, parent: int, stackStart: nat)
    requires 0 <= r.rsp && FrameKept(Entered(m0, r, parent + STACK_SIZE), m, parent + STACK_SIZE)
    requires Forked(m, m', child, parent, stackStart)
    ensures var u, skipped := FromFork(m', child + FORK_REGS), parent + FORK_REGS;
            u == User(r.(rax := 0, rsp := if stackStart != 0 then stackStart else r.rsp,
                         r15 := Word(m, skipped), r14 := Word(m, skipped + 8), r13 := Word(m, skipped + 16),
                         r12 := Word(m, skipped + 24), rbp := Word(m, skipped + 32), rbx := Word(m, skipped + 40)),
                      r.rcx, r.r11, USER_CS, USER_SS)
  {
    hide Entered, Word, FrameKept, Forked;
    EnteredWords(m0, r, parent + STACK_SIZE);
    ListWord(m0, r, m, m', child, parent, stackStart, 0);
    ListWord(m0, r, m, m', child, parent, stackStart, 8);
    ListWord(m0, r, m, m', child, parent, stackStart, 16);
    ListWord(m0, r, m, m', child, parent, stackStart, 24);
    ListWord(m0, r, m, m', child, parent, stackStart, 32);
    ListWord(m0, r, m, m', child, parent, stackStart, 40);
    ListWord(m0, r, m, m', child, parent, stackStart, 48);
    ListWord(m0, r, m, m', child, parent, stackStart, 56);
    ListWord(m0, r, m, m', child, parent, stackStart, 64);
    ListWord(m0, r, m, m', child, parent, stackStart, 72);
    ListWord(m0, r, m, m', child, parent, stackStart, 80);
    ListWord(m0, r, m, m', child, parent, stackStart, 88);
    ListWord(m0, r, m, m', child, parent, stackStart, 96);
    ListWord(m0, r, m, m', child, parent, stackStart, 104);
    ListWord(m0, r, m, m', child, parent, stackStart, 112);
    ListWord(m0, r, m, m', child, parent, stackStart, 128);
    ListWord(m0, r, m, m', child, parent, stackStart, 136);
    ListWord(m0, r, m, m', child, parent, stackStart, 144);
    ListWord(m0, r, m, m', child, parent, stackStart, 152);
    ListWord(m0, r, m, m', child, parent, stackStart, 160);
  }

  lemma ListWord(m0: Memory, r: Regs, m: Memory, m': Memory, child: int, parent: int, stackStart: nat, o: int)
    requires FrameKept(Entered(m0, r, parent + STACK_SIZE), m, parent + STACK_SIZE)
    requires Forked(m, m', child, parent, stackStart)
    requires 0 <= o < REG_LIST && o % 8 == 0
    ensures Word(m', child + FORK_REGS + o) ==
              if o == 80 then 0
              else if o == 152 && stackStart != 0 then stackStart
              else if o < FRAME then Word(m, parent + FORK_REGS + o)
              else Word(Entered(m0, r, parent + STACK_SIZE), parent + STACK_SIZE - REG_LIST + o)
  {
    hide Entered;
    ForkedWord(m, m', child, parent, stackStart, o);
    var a := parent + STACK_SIZE - REG_LIST + o;
    assert FRAME <= o ==> Word(m, a) == Word(Entered(m0, r, parent + STACK_SIZE), a);
  }

  lemma EnteredWords(m: Memory, r: Regs, top: int)
    requires 0 <= r.rsp
    ensures var m', sp := Entered(m, r, top), top - REG_LIST;
            && Word(m', sp + 48) == r.r11 && Word(m', sp + 56) == r.r10 && Word(m', sp + 64) == r.r9
            && Word(m', sp + 72) == r.r8
            && Word(m', sp + 88) == r.rcx && Word(m', sp + 96) == r.rdx && Word(m', sp + 104) == r.rsi
            && Word(m', sp + 112) == r.rdi
            && Word(m', sp + 128) == r.rcx && Word(m', sp + 136) == USER_CS && Word(m', sp + 144) == r.r11
            && Word(m', sp + 152) == r.rsp && Word(m', sp + 160) == USER_SS
  {
  }

  /** The state of the user registers that fork passes on, and the stale ones it does not. */
  ghost predicate ForkResult(u: User, r: Regs, m: Memory, skipped: int, stackStart: nat)
  {
    && u.rip == r.rcx && u.rflags == r.r11 && u.cs == USER_CS && u.ss == USER_SS
    && u.regs.rsp == (if stackStart == 0 then r.rsp else stackStart)
    && u.regs.rax == 0 && u.regs.rdi == r.rdi && u.regs.rsi == r.rsi && u.regs.rdx == r.rdx && u.regs.rcx == r.rcx
    && u.regs.r8 == r.r8 && u.regs.r9 == r.r9 && u.regs.r10 == r.r10 && u.regs.r11 == r.r11
    && (CalleeSaved(r, u.regs) <==>
        Word(m, skipped) == r.r15 && Word(m, skipped + 8) == r.r14 && Word(m, skipped + 16) == r.r13 &&
        Word(m, skipped + 24) == r.r12 && Word(m, skipped + 32) == r.rbp && Word(m, skipped + 40) == r.rbx)
  }

  /** From fork to user mode: however long the child waits, the first switch to it returns
      to ret_from_fork, and that enters user mode where the parent made its system call,
      with the parent's registers, rax zero and the stack pointer that was asked for.  The
      callee-saved registers are the parent's if and only if the words its system call entry
      skipped held them. */
  lemma ForkedChildResumes(s: State, steps: seq<Step>, j: nat, child: nat, parent: nat, m0: Memory, r: Regs, m: Memory,
                           stackStart: nat)
    requires StacksApart(s) && j < |steps| && AllAllowed(s, steps, j + 1)
    requires child in s.stacks && parent in s.stacks && child in s.saved && child != s.current
    requires s.saved[child] == s.stacks[child] + FORK_FRAME
    requires 0 <= r.rsp && FrameKept(Entered(m0, r, s.stacks[parent] + STACK_SIZE), m, s.stacks[parent] + STACK_SIZE)
    requires Forked(m, s.mem, s.stacks[child], s.stacks[parent], stackStart)
    requires steps[j] == SwitchTo(child) && forall k | 0 <= k < j :: steps[k] != SwitchTo(child)
    ensures var back := After(s, steps, j + 1);
            var c := ContextOf(back.mem, back.regs);
            && back.current == child && c.rip == RET_FROM_FORK && c.rbx == 0
            && ForkResult(FromFork(back.mem, c.rsp), r, m, s.stacks[parent] + FORK_REGS, stackStart)
  {
    hide Allowed, FromFork, FrameKept, Entered, Popped, ChildWord, Switched, Forked, Stored, After;
    var at, back := After(s, steps, j), After(s, steps, j + 1);
    var base := s.stacks[child];
    AllowedBefore(s, steps, j, j + 1);
    StacksStay(s, steps, j);
    ApartBy(s, at);
    AtStart(s, steps);
    ParkedThrough(s, steps, 0, j, child);
    ForkedStays(m, s.mem, at.mem, base, s.stacks[parent], stackStart);
    SwitchIn(at, child);
    AfterSwitch(s, steps, j);
    ForkedStays(m, at.mem, back.mem, base, s.stacks[parent], stackStart);
    ForkFrame(m, at.mem, base, s.stacks[parent], stackStart);
    ForkedUser(m0, r, m, back.mem, base, s.stacks[parent], stackStart);
    SwitchRestores(at, child, Stored(at.mem, base + FORK_FRAME));
  }

  lemma AfterSwitch(s: State, steps: seq<Step>, j: nat)
    requires j < |steps| && steps[j].SwitchTo?
    ensures After(s, steps, j + 1) == Switched(After(s, steps, j), steps[j].next)
  {
  }

  lemma AtStart(s: State, steps: seq<Step>)
    ensures After(s, steps, 0) == s
  {
  }

  lemma ForkedStays(m: Memory, m1: Memory, m2: Memory, child: int, parent: int, stackStart: nat)
    requires Forked(m, m1, child, parent, stackStart)
    requires forall a | child <= a < child + STACK_SIZE :: Word(m2, a) == Word(m1, a)
    ensures Forked(m, m2, child, parent, stackStart)
  {
    hide Word, ChildWord;
  }

  /** A switch writes to no stack but the one it leaves. */
  lemma SwitchIn(s: State, next: nat)
    requires StacksApart(s) && Allowed(s, SwitchTo(next))
    ensures next in s.stacks && next in s.saved && next != s.current
    ensures forall a | s.stacks[next] <= a < s.stacks[next] + STACK_SIZE ::
              Word(Switched(s, next).mem, a) == Word(s.mem, a)
  {
    assert s.stacks[next] + STACK_SIZE <= s.stacks[s.current] || s.stacks[s.current] + STACK_SIZE <= s.stacks[next];
  }

  // ---------------------------------------------------------------- the instructions

  class Cpu {
    var regs: Regs
    var mem: Memory
    var saved: map<nat, int>
    const stacks: map<nat, int>
    var current: nat

    constructor (s: State)
      ensures View() == s
    {
      regs, mem, saved, stacks, current := s.regs, s.mem, s.saved, s.stacks, s.current;
    }

    ghost function View(): (s: State)
      reads this
    {
      State(regs, mem, saved, stacks, current)
    }

    method Push(x: nat)
      modifies this`mem, this`regs
      ensures mem == old(mem)[old(regs.rsp) - 8 := x] && regs == old(regs).(rsp := old(regs.rsp) - 8)
    {
      regs := regs.(rsp := regs.rsp - 8);
      mem := mem[regs.rsp := x];
    }

    method Pop() returns (x: nat)
      modifies this`regs
      ensures x == Word(mem, old(regs.rsp)) && regs == old(regs).(rsp := old(regs.rsp) + 8)
    {
      x := Word(mem, regs.rsp);
      regs := regs.(rsp := regs.rsp + 8);
    }

    /** The pushes of do_switch. */
    method SaveRegisters()
      modifies this`mem, this`regs
      ensures mem == Pushed(old(mem), old(regs)) && regs == old(regs).(rsp := old(regs.rsp) - FRAME)
    {
      Push(regs.rbp);
      Push(regs.rbx);
      Push(regs.r12);
      Push(regs.r13);
      Push(regs.r14);
      Push(regs.r15);
    }

    /** The pops of do_switch. */
    method RestoreRegisters()
      modifies this`regs
      ensures regs == Popped(mem, old(regs), old(regs.rsp))
    {
      hide Word;
      var x := Pop();
      regs := regs.(r15 := x);
      x := Pop();
      regs := regs.(r14 := x);
      x := Pop();
      regs := regs.(r13 := x);
      x := Pop();
      regs := regs.(r12 := x);
      x := Pop();
      regs := regs.(rbx := x);
      x := Pop();
      regs := regs.(rbp := x);
    }

    /** do_switch, and post_stack_switch's change of the current process. */
    method DoSwitch(next: nat)
      requires next in saved || next == current
      modifies this
      ensures View() == Switched(old(View()), next)
    {
      hide Pushed, Word;
      SaveRegisters();
      saved := saved[current := regs.rsp];
      regs := regs.(rsp := saved[next]);
      RestoreRegisters();
      current := next;
    }

    /** copy_thread for a user thread: the child's stack page is cleared, and a byte after it;
        the parent's is copied into it, and the first frame and the register list of the child
        are set up in it. */
    method CopyThread(child: nat, stackStart: nat)
      requires child in stacks && current in stacks
      requires stacks[child] + STACK_SIZE <= stacks[current] || stacks[current] + STACK_SIZE <= stacks[child]
      modifies this
      ensures var m := Cleared(old(mem), stacks[child] + STACK_SIZE);
              Forked(m, mem, stacks[child], stacks[old(current)], stackStart)
      ensures forall a | !(stacks[child] <= a < stacks[child] + STACK_SIZE) ::
                Word(mem, a) == Word(Cleared(old(mem), stacks[child] + STACK_SIZE), a)
      ensures saved == old(saved)[child := stacks[child] + FORK_FRAME] && regs == old(regs) && current == old(current)
    {
      hide Word, Forked, ChildWord, Cleared;
      var to, from := stacks[child], stacks[current];
      ClearPage(to);
      ghost var m0 := Cleared(old(mem), to + STACK_SIZE);
      CopyWords(to, from, 512);
      ghost var m1 := mem;
      Store(to + FORK_FRAME + 48, RET_FROM_FORK);
      saved := saved[child := to + FORK_FRAME];
      Store(to + FORK_FRAME + 32, 0);
      ghost var m2 := mem;
      CopyWords(to + FORK_REGS, from + FORK_REGS, 21);
      ghost var m3 := mem;
      Store(to + FORK_REGS + 80, 0);
      if stackStart != 0 {
        Store(to + FORK_REGS + 152, stackStart);
      }
      CopyThreadWords(m0, m1, m2, m3, mem, to, from, stackStart);
    }

    /** The entry of do_syscalls; the stack pointer is swapped for the kernel's. */
    method EnterSyscall(top: int)
      requires 0 <= regs.rsp
      modifies this`mem, this`regs
      ensures mem == Entered(old(mem), old(regs), top) && regs == old(regs).(rsp := top - REG_LIST)
    {
      hide SavedUser;
      SaveUser(top);
      SaveArguments(top);
      regs := regs.(rsp := regs.rsp - 6 * 8);
    }

    method SaveUser(top: int)
      requires 0 <= regs.rsp
      modifies this`mem, this`regs
      ensures mem == SavedUser(old(mem), old(regs), top) && regs == old(regs).(rsp := top - 48)
    {
      var user: nat := regs.rsp;
      regs := regs.(rsp := top);
      Push(USER_SS);
      Push(user);
      Push(regs.r11);
      Push(USER_CS);
      Push(regs.rcx);
      Push(regs.rax);
    }

    method SaveArguments(ghost top: int)
      requires regs.rsp == top - 48
      modifies this`mem, this`regs
      ensures mem == SavedArguments(old(mem), old(regs), top) && regs == old(regs).(rsp := top - 120)
    {
      Push(regs.rdi);
      Push(regs.rsi);
      Push(regs.rdx);
      Push(regs.rcx);
      Push(NO_RESULT);
      Push(regs.r8);
      Push(regs.r9);
      Push(regs.r10);
      Push(regs.r11);
    }

    method Store(a: int, w: nat)
      modifies this`mem
      ensures Word(mem, a) == w && forall b | b != a :: Word(mem, b) == Word(old(mem), b)
    {
      mem := mem[a := w];
    }

    /** my_memset of a stack page with length 4096. */
    method ClearPage(to: int)
      modifies this`mem
      ensures forall a | !(to <= a < to + STACK_SIZE) :: Word(mem, a) == Word(Cleared(old(mem), to + STACK_SIZE), a)
    {
      hide Word, Cleared;
      for i := 0 to 512
        invariant forall a | !(to <= a < to + STACK_SIZE) :: Word(mem, a) == Word(old(mem), a)
      {
        Store(to + 8 * i, 0);
      }
      var last := Word(mem, to + STACK_SIZE);
      Store(to + STACK_SIZE, last / 256 * 256);
      assert last / 256 * 256 == last - last % 256;
    }

    /** Copies `n` words between ranges that do not overlap. */
    method CopyWords(to: int, from: int, n: nat)
      requires to + 8 * n <= from || from + 8 * n <= to
      modifies this`mem
      ensures forall j | 0 <= j < n :: Word(mem, to + 8 * j) == Word(old(mem), from + 8 * j)
      ensures forall a | !(to <= a < to + 8 * n) :: Word(mem, a) == Word(old(mem), a)
    {
      hide Word;
      for i := 0 to n
        invariant forall j | 0 <= j < i :: Word(mem, to + 8 * j) == Word(old(mem), from + 8 * j)
        invariant forall a | !(to <= a < to + 8 * n) :: Word(mem, a) == Word(old(mem), a)
      {
        Store(to + 8 * i, Word(mem, from + 8 * i));
      }
    }
  }

  /** The stores of copy_thread, put together. */
  lemma CopyThreadWords(m0: Memory, m1: Memory, m2: Memory, m3: Memory, m4: Memory, to: int, from: int, stackStart: nat)
    requires to + STACK_SIZE <= from || from + STACK_SIZE <= to
    requires forall j | 0 <= j < 512 :: Word(m1, to + 8 * j) == Word(m0, from + 8 * j)
    requires forall a | !(to <= a < to + STACK_SIZE) :: Word(m1, a) == Word(m0, a)
    requires forall a :: Word(m2, a) ==
               if a == to + FORK_FRAME + 32 then 0 else if a == to + FORK_FRAME + 48 then RET_FROM_FORK
               else Word(m1, a)
    requires forall j | 0 <= j < 21 :: Word(m3, to + FORK_REGS + 8 * j) == Word(m2, from + FORK_REGS + 8 * j)
    requires forall a | !(to + FORK_REGS <= a < to + STACK_SIZE) :: Word(m3, a) == Word(m2, a)
    requires forall a :: Word(m4, a) ==
               if a == to + FORK_REGS + 152 && stackStart != 0 then stackStart
               else if a == to + FORK_REGS + 80 then 0 else Word(m3, a)
    ensures Forked(m0, m4, to, from, stackStart)
    ensures forall a | !(to <= a < to + STACK_SIZE) :: Word(m4, a) == Word(m0, a)
  {
    hide Word, ChildWord;
    forall i | 0 <= i < 512
      ensures Word(m4, to + 8 * i) == ChildWord(m0, from, stackStart, 8 * i)
    {
      ChildWordAt(m0, from, stackStart, i);
      var a, b := to + 8 * i, from + 8 * i;
      if 491 <= i {
        assert Word(m3, to + FORK_REGS + 8 * (i - 491)) == Word(m2, from + FORK_REGS + 8 * (i - 491));
        assert Word(m2, b) == Word(m1, b) == Word(m0, b);
      } else {
        assert Word(m3, a) == Word(m2, a);
      }
    }
  }

  lemma ChildWordAt(m: Memory, parent: int, stackStart: nat, i: nat)
    ensures ChildWord(m, parent, stackStart, 8 * i) ==
              if i == 488 then 0 else if i == 490 then RET_FROM_FORK else if i == 501 then 0
              else if i == 510 && stackStart != 0 then stackStart else Word(m, parent + 8 * i)
  {
  }
}
