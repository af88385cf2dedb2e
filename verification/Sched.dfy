// The scheduler of proc.c and the timer of trap.c as one machine: single stores and
// register writes of one CPU, with timer interrupts wherever they are enabled. A probe of
// the scan, a read and the store of the cursor, is one step: no interrupt touches the cursor.
module Sched {
  import opened Arch

  datatype ProcState = UNINIT | RUNNABLE | RUNNING | EXITED | SLEEPING | RESERVE

  // Why a thread gives up the CPU.
  datatype Why = Yield | Sleep(n: int) | Exit

  // Where a switched-out thread goes on: at its first instruction, or behind sched().
  datatype Resume = First | After(why: Why)

  datatype Proc = Proc(state: ProcState, pid: int, kstack: nat, ptRoot: nat, sleeprem: int, resume: Resume)

  // The next instruction of the CPU.
  datatype PC =
    | Boot                                  // main(), running as the idle thread
    | Thread                                // the current thread's own code
    | Cli(why: Why) | Mark(why: Why) | SetRem(n: int)            // yield, sleep, exit
    | SchedTest | SchedCr3 | SchedSwtch                          // sched
    | IdleTest | IdleSti | Scan                                  // idlemain, find_runnable_proc
    | SetCur(p: nat) | SetRunning(p: nat) | LoadCr3(p: nat) | Tss1(p: nat) | Tss2(p: nat) | SwtchIn(p: nat)
    | SpawnPid(user: bool, back: PC) | SpawnInc(user: bool, back: PC) | SpawnKstack(user: bool, back: PC)
    | SpawnRoot(user: bool, back: PC) | SpawnGo(back: PC)
    | Panic

  datatype Conf = Conf(maxProc: nat, kpml4: nat, upml4: nat, kstacks: nat)

  datatype Cpu = Cpu(procs: seq<Proc>, nproc: nat, cur: nat, cursor: nat, iflag: bool,
                     cr3: nat, tss1: nat, tss2: nat, ticks: int, pc: PC)

  datatype Act = Timer | Exec | CallYield | CallSleep(n: int) | CallExit | CallSpawn(user: bool)
               | ThreadCli | ThreadSti | EnterIdle

  const KSTACK_SZ: nat := 4096
  const TWO32: nat := 0x1_0000_0000

  // ---- steps ------------------------------------------------------------------------

  // The timer's treatment of one slot.
  function TickProc(p: Proc): Proc {
    if p.state != SLEEPING then p
    else if p.sleeprem - 1 == 0 then p.(sleeprem := 0, state := RUNNABLE)
    else p.(sleeprem := p.sleeprem - 1)
  }

  function TickAll(ps: seq<Proc>, n: nat): seq<Proc> {
    seq(|ps|, i requires 0 <= i < |ps| => if i < n then TickProc(ps[i]) else ps[i])
  }

  // sleep() needs a count that is not negative; allocproc() needs a slot.
  predicate Enabled(c: Conf, s: Cpu, a: Act) {
    match a
    case Timer => s.iflag && s.pc != Panic
    case Exec => s.pc != Boot && s.pc != Thread && s.pc != Panic
    case CallYield => s.pc == Thread
    case CallSleep(n) => s.pc == Thread && n >= 0
    case CallExit => s.pc == Thread
    case CallSpawn(_) => (s.pc == Thread || s.pc == Boot) && s.nproc < c.maxProc
    case ThreadCli => s.pc == Thread
    case ThreadSti => s.pc == Thread
    case EnterIdle => s.pc == Boot
  }

  function SetProc(s: Cpu, i: nat, p: Proc): Cpu {
    if i < |s.procs| then s.(procs := s.procs[i := p]) else s
  }

  function At(s: Cpu, i: nat): Proc {
    if i < |s.procs| then s.procs[i] else Proc(UNINIT, 0, 0, 0, 0, First)
  }

  // ASSERT(curproc->state == RUNNING) at the head of yield, sleep and exit.
  function Leave(s: Cpu, why: Why): Cpu {
    if At(s, s.cur).state != RUNNING then s.(pc := Panic) else s.(pc := Cli(why))
  }

  // The slot after i in a round of n.
  function NextSlot(i: nat, n: nat): (r: nat)
    requires i < n
    ensures r == if i + 1 == n then 0 else i + 1
  {
    (i + 1) % n
  }

  function NextCursor(s: Cpu): nat {
    if s.cursor < s.nproc then NextSlot(s.cursor, s.nproc) else 0
  }

  function MarkLeaving(s: Cpu, why: Why): Cpu {
    var p := At(s, s.cur);
    match why
    case Yield => SetProc(s, s.cur, p.(state := RUNNABLE, resume := After(why))).(pc := SchedTest)
    case Sleep(n) => SetProc(s, s.cur, p.(state := SLEEPING, resume := After(why))).(pc := SetRem(n))
    case Exit => SetProc(s, s.cur, p.(state := EXITED, resume := After(why))).(pc := SchedTest)
  }

  function ExecStep(c: Conf, s: Cpu): Cpu {
    match s.pc
    case Boot => s
    case Thread => s
    case Panic => s
    case Cli(why) => s.(iflag := false, pc := Mark(why))
    case Mark(why) => MarkLeaving(s, why)
    case SetRem(n) => SetProc(s, s.cur, At(s, s.cur).(sleeprem := n)).(pc := SchedTest)
    case SchedTest =>
      if At(s, s.cur).state == RUNNING || s.iflag then s.(pc := Panic) else s.(cur := 0, pc := SchedCr3)
    case SchedCr3 => s.(cr3 := At(s, s.cur).ptRoot, pc := SchedSwtch)
    case SchedSwtch => s.(pc := IdleTest)
    case IdleTest => if s.cur != 0 then s.(pc := Panic) else s.(pc := IdleSti)
    case IdleSti => s.(iflag := true, pc := Scan)
    case Scan =>
      if At(s, s.cursor).state == RUNNABLE then s.(cursor := NextCursor(s), pc := SetCur(s.cursor))
      else s.(cursor := NextCursor(s))
    case SetCur(p) => s.(cur := p, pc := SetRunning(p))
    case SetRunning(p) => SetProc(s, s.cur, At(s, s.cur).(state := RUNNING)).(pc := LoadCr3(p))
    case LoadCr3(p) => s.(cr3 := At(s, s.cur).ptRoot, pc := Tss1(p))
    case Tss1(p) =>
      if s.cur == 0 then s.(pc := Panic)
      else s.(tss1 := (At(s, s.cur).kstack + KSTACK_SZ) % TWO32, pc := Tss2(p))
    case Tss2(p) => s.(tss2 := (At(s, s.cur).kstack + KSTACK_SZ) / TWO32 % TWO32, pc := SwtchIn(p))
    case SwtchIn(p) =>
      // sched(): ASSERT(curproc != idleproc); exit(): panic behind sched()
      if At(s, s.cur).resume != First && s.cur == 0 then s.(pc := Panic)
      else if At(s, s.cur).resume == After(Exit) then s.(pc := Panic)
      else s.(pc := Thread)
    case SpawnPid(user, back) => SetProc(s, s.nproc, At(s, s.nproc).(pid := s.nproc)).(pc := SpawnInc(user, back))
    case SpawnInc(user, back) => s.(nproc := s.nproc + 1, pc := SpawnKstack(user, back))
    case SpawnKstack(user, back) =>
      var k := if s.nproc == 0 then 0 else s.nproc - 1;
      var p := At(s, k);
      SetProc(s, k, p.(kstack := if p.pid < 0 then 0 else c.kstacks + p.pid * KSTACK_SZ, resume := First))
      .(pc := SpawnRoot(user, back))
    case SpawnRoot(user, back) =>
      var k := if s.nproc == 0 then 0 else s.nproc - 1;
      SetProc(s, k, At(s, k).(ptRoot := if user then c.upml4 else c.kpml4)).(pc := SpawnGo(back))
    case SpawnGo(back) =>
      var k := if s.nproc == 0 then 0 else s.nproc - 1;
      SetProc(s, k, At(s, k).(state := RUNNABLE)).(pc := back)
  }

  function Step(c: Conf, s: Cpu, a: Act): Cpu {
    match a
    case Timer => s.(ticks := s.ticks + 1, procs := TickAll(s.procs, s.nproc))
    case Exec => ExecStep(c, s)
    case CallYield => Leave(s, Yield)
    case CallSleep(n) => if n == 0 then s else Leave(s, Sleep(n))
    case CallExit => Leave(s, Exit)
    case CallSpawn(user) =>
      SetProc(s, s.nproc, At(s, s.nproc).(state := RESERVE)).(pc := SpawnPid(user, s.pc))
    case ThreadCli => s.(iflag := false)
    case ThreadSti => s.(iflag := true)
    case EnterIdle => s.(pc := IdleSti)
  }

  // After procinit: slot 0 is the idle thread, with pid nproc == 1.
  ghost predicate Init(c: Conf, s: Cpu) {
    && |s.procs| == c.maxProc >= 1 && s.nproc == 1 && s.cur == 0 && s.cursor == 0
    && c.kstacks + c.maxProc * KSTACK_SZ < TWO64
    && !s.iflag && s.pc == Boot && s.cr3 == c.kpml4
    && s.procs[0].state == RUNNING && s.procs[0].pid == 1 && s.procs[0].ptRoot == c.kpml4
    && s.procs[0].resume == First
    && forall i :: 1 <= i < |s.procs| ==> s.procs[i].state == UNINIT && s.procs[i].resume == First
  }

  // ---- the invariant ------------------------------------------------------------------

  // The new slot while a spawn is under way.
  function Spawning(s: Cpu): int {
    match s.pc
    case SpawnPid(_, _) => s.nproc
    case SpawnInc(_, _) => s.nproc
    case SpawnKstack(_, _) => s.nproc - 1
    case SpawnRoot(_, _) => s.nproc - 1
    case SpawnGo(_) => s.nproc - 1
    case _ => -1
  }

  // The place a spawn returns to; any other place is itself.
  function Outer(pc: PC): PC {
    match pc
    case SpawnPid(_, back) => back
    case SpawnInc(_, back) => back
    case SpawnKstack(_, back) => back
    case SpawnRoot(_, back) => back
    case SpawnGo(back) => back
    case _ => pc
  }

  ghost predicate TssHolds(s: Cpu, i: nat) {
    s.tss1 + TWO32 * s.tss2 == At(s, i).kstack + KSTACK_SZ
  }

  // The current thread runs its own code, or the code of a call it made.
  ghost predicate Running(c: Conf, s: Cpu) {
    s.cur >= 1 && At(s, s.cur).state == RUNNING && s.cr3 == At(s, s.cur).ptRoot && TssHolds(s, s.cur)
  }

  ghost predicate Dispatching(c: Conf, s: Cpu, p: nat) {
    1 <= p < s.nproc && s.cur == p && At(s, p).state == RUNNING && s.iflag
  }

  ghost predicate PlaceOk(c: Conf, s: Cpu) {
    match Outer(s.pc)
    case Boot => s.cur == 0 && !s.iflag && s.cr3 == c.kpml4
    case Thread => Running(c, s)
    case Cli(why) => Running(c, s) && (why.Sleep? ==> why.n >= 1)
    case Mark(why) => Running(c, s) && !s.iflag && (why.Sleep? ==> why.n >= 1)
    case SetRem(n) => s.cur >= 1 && At(s, s.cur).state == SLEEPING && !s.iflag && n >= 1
    case SchedTest => s.cur >= 1 && At(s, s.cur).state in {RUNNABLE, SLEEPING, EXITED} && !s.iflag
    case SchedCr3 => s.cur == 0 && !s.iflag
    case SchedSwtch => s.cur == 0 && !s.iflag && s.cr3 == c.kpml4
    case IdleTest => s.cur == 0 && !s.iflag && s.cr3 == c.kpml4
    case IdleSti => s.cur == 0 && !s.iflag && s.cr3 == c.kpml4
    case Scan => s.cur == 0 && s.iflag && s.cr3 == c.kpml4
    case SetCur(p) => s.cur == 0 && s.iflag && 1 <= p < s.nproc && At(s, p).state == RUNNABLE
    case SetRunning(p) => 1 <= p < s.nproc && s.cur == p && s.iflag && At(s, p).state == RUNNABLE
    case LoadCr3(p) => Dispatching(c, s, p)
    case Tss1(p) => Dispatching(c, s, p) && s.cr3 == At(s, p).ptRoot
    case Tss2(p) => Dispatching(c, s, p) && s.cr3 == At(s, p).ptRoot && s.tss1 == (At(s, p).kstack + KSTACK_SZ) % TWO32
    case SwtchIn(p) => Dispatching(c, s, p) && s.cr3 == At(s, p).ptRoot && TssHolds(s, p)
    case _ => false
  }

  // What holds of slot i >= 1 wherever the CPU is.
  ghost predicate SlotOk(c: Conf, s: Cpu, i: nat)
    requires i < |s.procs|
  {
    var p := s.procs[i];
    && (p.state == RUNNING ==> i == s.cur)
    && (p.state == RESERVE <==> i == Spawning(s))
    && (p.state == UNINIT <==> i >= s.nproc && i != Spawning(s))
    && (p.state == SLEEPING ==> p.sleeprem >= 1 || (s.pc.SetRem? && i == s.cur))
    && (p.resume == After(Exit) <==> p.state == EXITED)
    && (i < s.nproc && i != Spawning(s) ==>
          p.pid == i && p.kstack == c.kstacks + i * KSTACK_SZ && p.ptRoot in {c.kpml4, c.upml4})
    && (s.pc.SpawnKstack? && i == Spawning(s) ==> p.pid == i)
    && (s.pc.SpawnRoot? && i == Spawning(s) ==> p.pid == i && p.kstack == c.kstacks + i * KSTACK_SZ)
    && (s.pc.SpawnInc? && i == Spawning(s) ==> p.pid == i)
    && (s.pc.SpawnGo? && i == Spawning(s) ==>
          p.pid == i && p.kstack == c.kstacks + i * KSTACK_SZ && p.ptRoot in {c.kpml4, c.upml4})
  }

  ghost predicate Inv(c: Conf, s: Cpu) {
    && c.kstacks + c.maxProc * KSTACK_SZ < TWO64
    && |s.procs| == c.maxProc && 1 <= s.nproc <= c.maxProc && s.cur < s.nproc && s.cursor < s.nproc
    && s.procs[0].state == RUNNING && s.procs[0].pid == 1 && s.procs[0].ptRoot == c.kpml4 && s.procs[0].resume == First
    && Spawning(s) != 0 && Spawning(s) < c.maxProc
    && (s.pc.SpawnKstack? || s.pc.SpawnRoot? || s.pc.SpawnGo? ==> s.cur < s.nproc - 1 && s.cursor < s.nproc)
    && (Outer(s.pc) != s.pc ==> Outer(s.pc) == Boot || Outer(s.pc) == Thread)
    && PlaceOk(c, s)
    && forall i :: 1 <= i < |s.procs| ==> SlotOk(c, s, i)
  }

  // ---- every step keeps it --------------------------------------------------------------

  lemma InitInv(c: Conf, s: Cpu)
    requires Init(c, s)
    ensures Inv(c, s)
  {
  }

  lemma TimerKeeps(c: Conf, s: Cpu)
    requires Inv(c, s) && Enabled(c, s, Timer)
    ensures Inv(c, Step(c, s, Timer))
  {
    var s' := Step(c, s, Timer);
    forall i | 1 <= i < |s.procs| ensures SlotOk(c, s', i) {
      assert SlotOk(c, s, i);
    }
  }

  lemma CallKeeps(c: Conf, s: Cpu, a: Act)
    requires Inv(c, s) && Enabled(c, s, a) && a != Timer && a != Exec
    ensures Inv(c, Step(c, s, a))
  {
    var s' := Step(c, s, a);
    forall i | 1 <= i < |s.procs| ensures SlotOk(c, s', i) {
      assert SlotOk(c, s, i);
    }
  }

  // yield, sleep, exit and sched
  lemma LeaveKeeps(c: Conf, s: Cpu)
    requires Inv(c, s)
    requires s.pc.Cli? || s.pc.Mark? || s.pc.SetRem? || s.pc.SchedTest? || s.pc.SchedCr3? || s.pc.SchedSwtch?
    ensures Inv(c, ExecStep(c, s))
  {
    var s' := ExecStep(c, s);
    forall i | 1 <= i < |s.procs| ensures SlotOk(c, s', i) {
      assert SlotOk(c, s, i);
    }
  }

  // idlemain up to the choice of a thread
  lemma ScanKeeps(c: Conf, s: Cpu)
    requires Inv(c, s) && (s.pc.IdleTest? || s.pc.IdleSti? || s.pc.Scan?)
    ensures Inv(c, ExecStep(c, s))
  {
    var s' := ExecStep(c, s);
    assert s.cursor >= 1 ==> SlotOk(c, s, s.cursor);
    forall i | 1 <= i < |s.procs| ensures SlotOk(c, s', i) {
      assert SlotOk(c, s, i);
    }
  }

  // idlemain from the choice to the switch, and set_task_kstack
  lemma DispatchKeeps(c: Conf, s: Cpu)
    requires Inv(c, s)
    requires s.pc.SetCur? || s.pc.SetRunning? || s.pc.LoadCr3? || s.pc.Tss1? || s.pc.Tss2? || s.pc.SwtchIn?
    ensures Inv(c, ExecStep(c, s))
  {
    hide TickAll, MarkLeaving, NextCursor;
    var s' := ExecStep(c, s);
    assert s.cur >= 1 ==> SlotOk(c, s, s.cur);
    forall i | 1 <= i < |s.procs| ensures SlotOk(c, s', i) {
      assert SlotOk(c, s, i);
    }
  }

  // allocproc
  lemma AllocKeeps(c: Conf, s: Cpu)
    requires Inv(c, s) && (s.pc.SpawnPid? || s.pc.SpawnInc?)
    ensures Inv(c, ExecStep(c, s))
  {
    hide TickAll, MarkLeaving, NextCursor;
    var s' := ExecStep(c, s);
    forall i | 1 <= i < |s.procs| ensures SlotOk(c, s', i) {
      assert SlotOk(c, s, i);
    }
  }

  // spawn and spawnuser
  lemma SpawnKeeps(c: Conf, s: Cpu)
    requires Inv(c, s) && (s.pc.SpawnKstack? || s.pc.SpawnRoot? || s.pc.SpawnGo?)
    ensures Inv(c, ExecStep(c, s))
  {
    hide TickAll, MarkLeaving, NextCursor;
    var s' := ExecStep(c, s);
    assert SlotOk(c, s, Spawning(s));
    forall i | 1 <= i < |s.procs| ensures SlotOk(c, s', i) {
      assert SlotOk(c, s, i);
    }
  }

  lemma InvNoPanic(c: Conf, s: Cpu)
    requires Inv(c, s)
    ensures s.pc != Panic
  {
  }

  lemma StepExec(c: Conf, s: Cpu, a: Act)
    ensures a == Exec ==> Step(c, s, a) == ExecStep(c, s)
  {
  }

  /** Every enabled step keeps the invariant; in particular no ASSERT or panic is reached. */
  lemma StepKeeps(c: Conf, s: Cpu, a: Act)
    requires Inv(c, s) && Enabled(c, s, a)
    ensures Inv(c, Step(c, s, a)) && Step(c, s, a).pc != Panic
  {
    hide Inv, Step, ExecStep;
    InvNoPanic(c, s);
    if a == Timer {
      TimerKeeps(c, s);
    } else if a != Exec {
      CallKeeps(c, s, a);
    } else if s.pc.Cli? || s.pc.Mark? || s.pc.SetRem? || s.pc.SchedTest? || s.pc.SchedCr3? || s.pc.SchedSwtch? {
      LeaveKeeps(c, s);
    } else if s.pc.SpawnPid? || s.pc.SpawnInc? {
      AllocKeeps(c, s);
    } else if s.pc.SpawnKstack? || s.pc.SpawnRoot? || s.pc.SpawnGo? {
      SpawnKeeps(c, s);
    } else if s.pc.IdleTest? || s.pc.IdleSti? || s.pc.Scan? {
      ScanKeeps(c, s);
    } else {
      DispatchKeeps(c, s);
    }
    StepExec(c, s, a);
    InvNoPanic(c, Step(c, s, a));
  }
}
