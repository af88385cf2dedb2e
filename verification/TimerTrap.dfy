// trap() on memory: what the timer case does to the words of struct proc, what a system call
// does, and that the interrupted code does not notice. Addresses count 8-byte words.
module TimerTrap {
  import Arch
  import opened Sched
  import opened Context
  import opened TrapFrame

  // struct proc: 18 words, the state in the low half of word 0, sleeprem in the low half of
  // word 7, the context in words 9 to 17.
  const PROC_WORDS: nat := 18
  const REM: nat := 7
  const CTX: nat := 9

  // Where the process table and the tick counter are, and how many slots are in use.
  datatype Kernel = Kernel(procs: nat, nproc: nat, ticks: nat)

  function Slot(k: Kernel, j: nat): nat { k.procs + PROC_WORDS * j }

  // Word b holds the state or the sleep count of a slot in use.
  predicate SlotWord(k: Kernel, b: nat) {
    k.procs <= b < Slot(k, k.nproc) && ((b - k.procs) % PROC_WORDS == 0 || (b - k.procs) % PROC_WORDS == REM)
  }

  /** No context record, nor any other word of struct proc, is such a word. */
  lemma SlotWords(k: Kernel, j: nat, o: nat)
    requires o < PROC_WORDS
    ensures SlotWord(k, Slot(k, j) + o) <==> j < k.nproc && (o == 0 || o == REM)
  {
    Arch.DivExact(PROC_WORDS * j + o, PROC_WORDS, j, o);
  }

  // ---- 32-bit halves --------------------------------------------------------------------

  function Low(w: nat): (v: nat)
    ensures v < TWO32
  {
    w % TWO32
  }

  function SetLow(w: nat, v: nat): nat
    requires v < TWO32
  {
    w / TWO32 * TWO32 + v
  }

  lemma LowHalf(w: nat, v: nat)
    requires v < TWO32
    ensures Low(SetLow(w, v)) == v && SetLow(w, v) / TWO32 == w / TWO32
  {
    Arch.DivExact(SetLow(w, v), TWO32, w / TWO32, v);
  }

  function Dec32(v: nat): nat
    requires v < TWO32
  {
    if v == 0 then TWO32 - 1 else v - 1
  }

  function Inc32(v: nat): nat
    requires v < TWO32
  {
    if v + 1 == TWO32 then 0 else v + 1
  }

  // A 32-bit two's complement number.
  function Signed(v: nat): int { if v < TWO32 / 2 then v else v - TWO32 }

  // enum procstate
  function StateOf(code: nat): ProcState {
    match code
    case 1 => RUNNABLE
    case 2 => RUNNING
    case 3 => EXITED
    case 4 => SLEEPING
    case 5 => RESERVE
    case _ => UNINIT
  }

  const RUNNABLE_CODE: nat := 1
  const SLEEPING_CODE: nat := 4

  // ---- the handler ------------------------------------------------------------------------

  // The body of the timer's loop, for the slot at address a.
  function TickSlot(m: Mem, a: nat): Mem {
    if Low(Rd(m, a)) != SLEEPING_CODE then m
    else
      var rem := Dec32(Low(Rd(m, a + REM)));
      var m1 := m[a + REM := SetLow(Rd(m, a + REM), rem)];
      if rem == 0 then m1[a := SetLow(Rd(m, a), RUNNABLE_CODE)] else m1
  }

  function TickSlots(m: Mem, k: Kernel, i: nat): Mem
    decreases k.nproc - i
  {
    if i >= k.nproc then m else TickSlots(TickSlot(m, Slot(k, i)), k, i + 1)
  }

  // The memory when the loop starts, and when it ends.
  function Counted(w: Noise, k: Kernel, m: Mem): Mem {
    var m1 := m + w.words;
    m1[k.ticks := SetLow(Rd(m1, k.ticks), Inc32(Low(Rd(m1, k.ticks))))]
  }

  function TimerMem(w: Noise, k: Kernel, m: Mem): Mem { TickSlots(Counted(w, k, m), k, 0) }

  // The timer case of trap(); the store of test_tsc is among the noise.
  function TimerHandler(w: Noise, k: Kernel): Handler {
    (r: Regs, m: Mem) => (w.regs.(rsp := r.rsp), TimerMem(w, k, m))
  }

  // The slots' words are touched, and no other.
  lemma {:induction false} TickSlotsFrame(m: Mem, k: Kernel, i: nat, b: nat)
    requires !SlotWord(k, b)
    ensures Rd(TickSlots(m, k, i), b) == Rd(m, b)
    decreases k.nproc - i
  {
    if i < k.nproc {
      TickSlotsFrame(TickSlot(m, Slot(k, i)), k, i + 1, b);
      SlotWords(k, i, 0);
      SlotWords(k, i, REM);
    }
  }

  // Slot j is touched in its own turn only.
  lemma {:induction false} TickSlotsAt(m: Mem, k: Kernel, i: nat, j: nat, o: nat)
    requires j < k.nproc && (o == 0 || o == REM)
    ensures Rd(TickSlots(m, k, i), Slot(k, j) + o) ==
              if i <= j then Rd(TickSlot(m, Slot(k, j)), Slot(k, j) + o) else Rd(m, Slot(k, j) + o)
    decreases k.nproc - i
  {
    if i < k.nproc {
      var m1 := TickSlot(m, Slot(k, i));
      TickSlotsAt(m1, k, i + 1, j, o);
      if i != j {
        OtherSlot(m, k, i, j);
      }
    }
  }

  lemma OtherSlot(m: Mem, k: Kernel, i: nat, j: nat)
    requires i != j
    ensures var m1 := TickSlot(m, Slot(k, i));
            && Rd(m1, Slot(k, j)) == Rd(m, Slot(k, j)) && Rd(m1, Slot(k, j) + REM) == Rd(m, Slot(k, j) + REM)
            && Rd(TickSlot(m1, Slot(k, j)), Slot(k, j)) == Rd(TickSlot(m, Slot(k, j)), Slot(k, j))
            && Rd(TickSlot(m1, Slot(k, j)), Slot(k, j) + REM) == Rd(TickSlot(m, Slot(k, j)), Slot(k, j) + REM)
  {
    hide SetLow, Low;
    assert Slot(k, i) - Slot(k, j) == PROC_WORDS * (i - j);
  }

  // What the scheduler sees of slot j.
  function ProcAt(m: Mem, k: Kernel, j: nat): Proc {
    Proc(StateOf(Low(Rd(m, Slot(k, j)))), 0, 0, 0, Signed(Low(Rd(m, Slot(k, j) + REM))), First)
  }

  lemma TickSlotProc(m: Mem, k: Kernel, j: nat, m': Mem)
    requires Rd(m', Slot(k, j)) == Rd(TickSlot(m, Slot(k, j)), Slot(k, j))
    requires Rd(m', Slot(k, j) + REM) == Rd(TickSlot(m, Slot(k, j)), Slot(k, j) + REM)
    requires Low(Rd(m, Slot(k, j) + REM)) != TWO32 / 2
    ensures ProcAt(m', k, j) == TickProc(ProcAt(m, k, j))
  {
    hide Low, SetLow;
    var a := Slot(k, j);
    if Low(Rd(m, a)) == SLEEPING_CODE {
      LowHalf(Rd(m, a + REM), Dec32(Low(Rd(m, a + REM))));
      LowHalf(Rd(m, a), RUNNABLE_CODE);
    }
  }

  // Word b is none of those that the handler writes.
  predicate Untouched(w: Noise, k: Kernel, b: nat) { b !in w.words && b != k.ticks && !SlotWord(k, b) }

  // The handler does not write the frame at address tf.
  ghost predicate FrameApart(w: Noise, k: Kernel, tf: nat) {
    forall b: nat :: tf <= b < tf + TF_WORDS ==> Untouched(w, k, b)
  }

  lemma TimerMemFrame(w: Noise, k: Kernel, m: Mem, b: nat)
    requires Untouched(w, k, b)
    ensures Rd(TimerMem(w, k, m), b) == Rd(m, b)
  {
    hide SlotWord, SetLow, Low;
    TickSlotsFrame(Counted(w, k, m), k, 0, b);
  }

  /** The timer case keeps the whole frame and every word but the tick counter, the states and
      sleep counts of the slots in use, and what its code uses. */
  lemma TimerKeepsFrame(w: Noise, k: Kernel, tf: nat, t: Tf)
    requires FrameApart(w, k, tf)
    ensures KeepsFrame(TimerHandler(w, k), tf, t, t.rax)
    ensures forall b: nat :: Untouched(w, k, b) ==> Spares(TimerHandler(w, k), tf, b)
  {
    hide TimerMem, Untouched, TfAt;
    forall r: Regs, m: Mem | r.rdi == tf && TfAt(m, tf) == t
      ensures TimerHandler(w, k)(r, m).0.rsp == r.rsp && TfAt(TimerHandler(w, k)(r, m).1, tf) == t.(rax := t.rax)
    {
      forall b: nat | tf <= b < tf + TF_WORDS ensures Rd(TimerMem(w, k, m), b) == Rd(m, b) {
        TimerMemFrame(w, k, m, b);
      }
      SameTf(m, TimerMem(w, k, m), tf);
    }
    forall b: nat | Untouched(w, k, b) ensures Spares(TimerHandler(w, k), tf, b) {
      forall r: Regs, m: Mem | r.rdi == tf ensures Rd(TimerHandler(w, k)(r, m).1, b) == Rd(m, b) {
        TimerMemFrame(w, k, m, b);
      }
    }
  }

  // The code keeps its own words apart from the table and the counter, and they are apart.
  ghost predicate TableApart(w: Noise, k: Kernel) {
    && k.ticks !in w.words && !SlotWord(k, k.ticks)
    && forall b: nat :: SlotWord(k, b) ==> b !in w.words
  }

  lemma TimerCounts(w: Noise, k: Kernel, m: Mem)
    requires TableApart(w, k)
    ensures Low(Rd(TimerMem(w, k, m), k.ticks)) == (Low(Rd(m, k.ticks)) + 1) % TWO32
  {
    hide SetLow, Low, SlotWord;
    TickSlotsFrame(Counted(w, k, m), k, 0, k.ticks);
    LowHalf(Rd(m + w.words, k.ticks), Inc32(Low(Rd(m + w.words, k.ticks))));
  }

  lemma CountedSlot(w: Noise, k: Kernel, m: Mem, j: nat)
    requires TableApart(w, k) && j < k.nproc
    ensures Rd(Counted(w, k, m), Slot(k, j)) == Rd(m, Slot(k, j))
    ensures Rd(Counted(w, k, m), Slot(k, j) + REM) == Rd(m, Slot(k, j) + REM)
  {
    hide SetLow, Low;
    SlotWords(k, j, 0);
    SlotWords(k, j, REM);
  }

  /** It does to every slot in use what the scheduler's machine says a tick does, and to the
      counter. Counts of -2^31, which no sleep stores, would wrap. */
  lemma TimerTicks(w: Noise, k: Kernel, m: Mem, j: nat)
    requires TableApart(w, k)
    ensures Low(Rd(TimerMem(w, k, m), k.ticks)) == (Low(Rd(m, k.ticks)) + 1) % TWO32
    ensures j < k.nproc && ProcAt(m, k, j).sleeprem > -(TWO32 / 2) ==>
              ProcAt(TimerMem(w, k, m), k, j) == TickProc(ProcAt(m, k, j))
  {
    hide SetLow, Low, SlotWord, TickSlot, TickSlots, TickProc, Counted;
    TimerCounts(w, k, m);
    if j < k.nproc && ProcAt(m, k, j).sleeprem > -(TWO32 / 2) {
      var m2 := Counted(w, k, m);
      CountedSlot(w, k, m, j);
      TickSlotsAt(m2, k, 0, j, 0);
      TickSlotsAt(m2, k, 0, j, REM);
      TickSlotProc(m2, k, j, TickSlots(m2, k, 0));
    }
  }

  const T_TIMER: nat := 32                      // T_IRQ0 + IRQ_TIMER
  const T_SYSCALL: nat := 64

  // trap(): the case is chosen by the trap number in the frame. The default case does not return.
  function TrapBody(w: Noise, k: Kernel, r: Regs, m: Mem): (Regs, Mem) {
    var trapno := TfAt(m, r.rdi).trapno;
    if trapno == T_TIMER then TimerHandler(w, k)(r, m)
    else if trapno == T_SYSCALL then SyscallTrap(w)(r, m)
    else (r, m)
  }

  function TrapHandler(w: Noise, k: Kernel): Handler { (r: Regs, m: Mem) => TrapBody(w, k, r, m) }

  lemma TrapKeepsFrame(w: Noise, k: Kernel, tf: nat, t: Tf)
    requires FrameApart(w, k, tf)
    ensures t.trapno == T_TIMER ==> KeepsFrame(TrapHandler(w, k), tf, t, t.rax)
    ensures t.trapno == T_SYSCALL && t.rax != SYS_EXIT ==>
              KeepsFrame(TrapHandler(w, k), tf, t, if t.rax == SYS_PRINT then 0 else Arch.TWO64 - 1)
  {
    hide TfAt, TimerMem;
    forall b | b in w.words ensures !(tf <= b < tf + TF_WORDS) {
      assert !Untouched(w, k, b);
    }
    TimerKeepsFrame(w, k, tf, t);
    if t.rax != SYS_EXIT { SyscallKeepsFrame(w, tf, t); }
    forall r: Regs, m: Mem | r.rdi == tf && TfAt(m, tf) == t
      ensures t.trapno == T_TIMER ==> TrapHandler(w, k)(r, m) == TimerHandler(w, k)(r, m)
      ensures t.trapno == T_SYSCALL ==> TrapHandler(w, k)(r, m) == SyscallTrap(w)(r, m)
    {
    }
  }

  lemma TrapCase(w: Noise, k: Kernel, r: Regs, m: Mem)
    ensures TfAt(m, r.rdi).trapno == T_TIMER ==> TrapHandler(w, k)(r, m).1 == TimerMem(w, k, m)
    ensures TfAt(m, r.rdi).trapno == T_SYSCALL ==>
              forall b: nat :: b !in w.words && b != r.rdi ==> Rd(TrapHandler(w, k)(r, m).1, b) == Rd(m, b)
  {
    hide TimerMem;
    var t := TfAt(m, r.rdi);
    assert TrapHandler(w, k)(r, m) == TrapBody(w, k, r, m);
  }

  /** A system call from any code, print or an unknown number: the interrupted state is back but
      for rax, which is 0 or -1; no word has changed but those of the frame and those that the
      kernel's code uses. */
  method SyscallInterrupt(cpu: TrapCpu, sp: nat, w: Noise, k: Kernel)
    requires sp >= TF_WORDS && FrameApart(w, k, sp - TF_WORDS) && cpu.x.r.rax != SYS_EXIT
    modifies cpu
    ensures cpu.x == old(cpu.x).(r := old(cpu.x).r.(rax := if old(cpu.x).r.rax == SYS_PRINT then 0 else Arch.TWO64 - 1))
    ensures forall b: nat :: !(sp - TF_WORDS <= b < sp) && b !in w.words ==> Rd(cpu.m, b) == Rd(old(cpu.m), b)
  {
    hide TfAt, KeepsFrame, Spares, FrameApart, TimerMem;
    ghost var t := Interrupted(cpu.x, T_SYSCALL, 0);
    TrapKeepsFrame(w, k, sp - TF_WORDS, t);
    ghost var r1, m1 := cpu.Trap(sp, T_SYSCALL, 0, true, TrapHandler(w, k), if t.rax == SYS_PRINT then 0 else Arch.TWO64 - 1);
    TrapCase(w, k, r1, m1);
  }

  /** A timer interrupt of any code, with its frame anywhere that the handler does not write:
      the interrupted state is back exactly, the slots have ticked, and no word has changed but
      those of the frame, of the table, of the counter and of the handler's own use. */
  method TimerInterrupt(cpu: TrapCpu, sp: nat, w: Noise, k: Kernel)
    requires sp >= TF_WORDS && FrameApart(w, k, sp - TF_WORDS) && TableApart(w, k)
    modifies cpu
    ensures cpu.x == old(cpu.x)
    ensures forall b: nat :: !(sp - TF_WORDS <= b < sp) && Untouched(w, k, b) ==> Rd(cpu.m, b) == Rd(old(cpu.m), b)
    ensures Low(Rd(cpu.m, k.ticks)) == (Low(Rd(old(cpu.m), k.ticks)) + 1) % TWO32
    ensures forall j: nat :: j < k.nproc && ProcAt(old(cpu.m), k, j).sleeprem > -(TWO32 / 2) ==>
              ProcAt(cpu.m, k, j) == TickProc(ProcAt(old(cpu.m), k, j))
  {
    hide TimerMem, KeepsFrame, Spares, FrameApart, Low, TfAt;
    ghost var t := Interrupted(cpu.x, T_TIMER, 0);
    ghost var m0 := cpu.m;
    TrapKeepsFrame(w, k, sp - TF_WORDS, t);
    ghost var r1, m1 := cpu.Trap(sp, T_TIMER, 0, false, TrapHandler(w, k), t.rax);
    TrapCase(w, k, r1, m1);
    forall b: nat | !(sp - TF_WORDS <= b < sp) && Untouched(w, k, b) ensures Rd(cpu.m, b) == Rd(m0, b) {
      TimerMemFrame(w, k, m1, b);
    }
    FrameWords(w, k, sp - TF_WORDS);
    TimerTicks(w, k, m1, 0);
    forall j: nat | j < k.nproc && ProcAt(m0, k, j).sleeprem > -(TWO32 / 2)
      ensures ProcAt(cpu.m, k, j) == TickProc(ProcAt(m0, k, j))
    {
      SlotWords(k, j, 0);
      SlotWords(k, j, REM);
      TimerTicks(w, k, m1, j);
    }
  }

  lemma FrameWords(w: Noise, k: Kernel, tf: nat)
    requires FrameApart(w, k, tf)
    ensures forall b: nat :: SlotWord(k, b) || b == k.ticks ==> !(tf <= b < tf + TF_WORDS)
  {
    forall b: nat | SlotWord(k, b) || b == k.ticks ensures !(tf <= b < tf + TF_WORDS) {
      assert !Untouched(w, k, b);
    }
  }
}
