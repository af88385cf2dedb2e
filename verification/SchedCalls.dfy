// What each call of the scheduler leads to, over whole runs from the call on.
module SchedCalls {
  import opened Sched
  import opened SchedRuns

  // ---- progress -------------------------------------------------------------------------

  // Steps of the running code, timer interrupts not counted, among steps i to k-1.
  function Execs(acts: seq<Act>, i: nat, k: nat): nat
    requires k <= |acts|
    decreases k
  {
    if k <= i then 0 else Execs(acts, i, k - 1) + if acts[k - 1] == Exec then 1 else 0
  }

  // How many steps kernel code is from a thread's own code, main() or the scan.
  function Rank(pc: PC): nat {
    match pc
    case Cli(_) => 8
    case Mark(_) => 7
    case SetRem(_) => 6
    case SchedTest => 5
    case SchedCr3 => 4
    case SchedSwtch => 3
    case IdleTest => 2
    case IdleSti => 1
    case SetCur(_) => 6
    case SetRunning(_) => 5
    case LoadCr3(_) => 4
    case Tss1(_) => 3
    case Tss2(_) => 2
    case SwtchIn(_) => 1
    case SpawnPid(_, _) => 5
    case SpawnInc(_, _) => 4
    case SpawnKstack(_, _) => 3
    case SpawnRoot(_, _) => 2
    case SpawnGo(_) => 1
    case _ => 0
  }

  predicate Resting(pc: PC) { pc == Thread || pc == Boot || pc == Scan }

  lemma ProgressStep(c: Conf, s: Cpu, a: Act)
    requires Inv(c, s) && Enabled(c, s, a) && !Resting(s.pc)
    ensures Rank(Step(c, s, a).pc) + (if a == Exec then 1 else 0) <= Rank(s.pc)
  {
    hide NextCursor;
    InvNoPanic(c, s);
  }

  /** Kernel code never gets stuck: in any run, after at most eight steps of its own, whatever
      the interrupts, it has reached a thread's own code, main() or the scan for a thread. */
  lemma {:induction false} KernelProgress(c: Conf, tr: seq<Cpu>, acts: seq<Act>, k: nat)
    requires Run(c, tr, acts) && Inv(c, tr[0]) && k < |tr| && forall j :: 0 <= j < k ==> !Resting(tr[j].pc)
    ensures |tr| == |acts| + 1 && Execs(acts, 0, k) + Rank(tr[k].pc) <= Rank(tr[0].pc) <= 8
    decreases k
  {
    hide Inv, Step, Enabled, Run;
    RunLength(c, tr, acts);
    if k > 0 {
      KernelProgress(c, tr, acts, k - 1);
      RunInv(c, tr, acts, k - 1);
      RunAt(c, tr, acts, k - 1);
      ProgressStep(c, tr[k - 1], acts[k - 1]);
    }
  }

  // A thread's own code, or a call it made to spawn.
  predicate Own(pc: PC) { Outer(pc) == Thread }

  lemma MaskStep(c: Conf, s: Cpu, a: Act)
    requires Inv(c, s) && Enabled(c, s, a) && Own(s.pc) && !s.iflag && a != ThreadSti
    ensures a != Timer && !Step(c, s, a).iflag
  {
    hide NextCursor;
  }

  /** A thread's cli keeps the timer out until its sti, as long as it keeps the CPU; its sti
      lets it in. */
  lemma {:induction false} CliMasks(c: Conf, tr: seq<Cpu>, acts: seq<Act>, j: nat)
    requires Run(c, tr, acts) && Inv(c, tr[0]) && 1 <= j < |tr| && acts[0] in {ThreadCli, ThreadSti}
    requires forall m :: 1 <= m < j ==> Own(tr[m].pc) && acts[m] != ThreadSti
    ensures acts[0] == ThreadSti ==> Enabled(c, tr[1], Timer)
    ensures acts[0] == ThreadCli ==> !tr[j].iflag && forall m :: 1 <= m < j ==> acts[m] != Timer
    decreases j
  {
    hide Inv, Step, Run;
    RunLength(c, tr, acts);
    RunAt(c, tr, acts, j - 1);
    RunInv(c, tr, acts, j - 1);
    FlagStep(c, tr[0], acts[0]) by { RunAt(c, tr, acts, 0); }
    RunAt(c, tr, acts, 0);
    if acts[0] == ThreadCli && j > 1 {
      CliMasks(c, tr, acts, j - 1);
      MaskStep(c, tr[j - 1], acts[j - 1]);
    }
  }

  lemma FlagStep(c: Conf, s: Cpu, a: Act)
    requires Enabled(c, s, a) && a in {ThreadCli, ThreadSti}
    ensures Step(c, s, a).iflag == (a == ThreadSti) && Step(c, s, a).pc == s.pc == Thread
  {
  }

  // ---- yield, sleep, exit -------------------------------------------------------------

  // The call by which a thread gives up the CPU.
  predicate Calls(a: Act, why: Why) {
    match why
    case Yield => a == CallYield
    case Sleep(n) => a == CallSleep(n) && n >= 1
    case Exit => a == CallExit
  }

  // Slot p is in the state the call leaves it in; rem was its sleep count at the call.
  ghost predicate Left(s: Cpu, p: nat, why: Why, rem: int) {
    match why
    case Yield => At(s, p).state == RUNNABLE && At(s, p).sleeprem == rem
    case Sleep(n) => At(s, p).state == SLEEPING && At(s, p).sleeprem == n
    case Exit => At(s, p).state == EXITED && At(s, p).sleeprem == rem
  }

  // Thread p is on its way from a call to the idle thread's loop.
  ghost predicate Leaving(s: Cpu, p: nat, why: Why, rem: int) {
    match s.pc
    case Cli(w) => w == why && s.cur == p && At(s, p).sleeprem == rem
    case Mark(w) => w == why && s.cur == p && At(s, p).sleeprem == rem
    case SetRem(n) => why == Sleep(n) && s.cur == p && At(s, p).state == SLEEPING
    case SchedTest => s.cur == p && Left(s, p, why, rem)
    case SchedCr3 => Left(s, p, why, rem)
    case SchedSwtch => Left(s, p, why, rem)
    case IdleTest => Left(s, p, why, rem)
    case _ => false
  }

  lemma LeavingStep(c: Conf, s: Cpu, a: Act, p: nat, why: Why, rem: int)
    requires Inv(c, s) && Enabled(c, s, a) && 1 <= p < c.maxProc && Leaving(s, p, why, rem) && s.pc != IdleTest
    ensures Leaving(Step(c, s, a), p, why, rem)
    ensures a == Timer || a == Exec
  {
    hide NextCursor;
    assert SlotOk(c, s, p);
  }

  lemma {:induction false} RunLeaves(c: Conf, tr: seq<Cpu>, acts: seq<Act>, i: nat, k: nat, p: nat, why: Why, rem: int)
    requires Run(c, tr, acts) && Inv(c, tr[0]) && i <= k < |tr| && 1 <= p < c.maxProc
    requires Leaving(tr[i], p, why, rem) && forall j :: i <= j < k ==> tr[j].pc != IdleTest
    ensures Leaving(tr[k], p, why, rem)
    ensures |tr| == |acts| + 1 && Execs(acts, i, k) + Rank(tr[k].pc) <= Rank(tr[i].pc)
    decreases k - i
  {
    hide Inv, Step, Enabled, Run, Leaving;
    RunLength(c, tr, acts);
    if i < k {
      RunLeaves(c, tr, acts, i, k - 1, p, why, rem);
      RunInv(c, tr, acts, k - 1);
      RunAt(c, tr, acts, k - 1);
      LeavingStep(c, tr[k - 1], acts[k - 1], p, why, rem);
      LeavingBusy(tr[k - 1], p, why, rem);
      ProgressStep(c, tr[k - 1], acts[k - 1]);
    }
  }

  lemma LeavingBusy(s: Cpu, p: nat, why: Why, rem: int)
    requires Leaving(s, p, why, rem)
    ensures !Resting(s.pc) && Rank(s.pc) >= 2 && (s.pc != IdleTest ==> Rank(s.pc) >= 3)
  {
  }

  /** After each of the three calls the idle thread is back within six steps. */
  lemma CallEnds(c: Conf, tr: seq<Cpu>, acts: seq<Act>, k: nat, why: Why)
    requires Run(c, tr, acts) && Inv(c, tr[0]) && tr[0].pc == Thread && 1 <= k < |tr| && Calls(acts[0], why)
    requires forall j :: 1 <= j <= k ==> tr[j].pc != IdleTest
    ensures |tr| == |acts| + 1 && Execs(acts, 1, k) < 6
  {
    hide Inv, Step, Enabled, Run, Leaving;
    RunLength(c, tr, acts);
    RunAt(c, tr, acts, 0);
    CallLeaves(c, tr[0], acts[0], why);
    var p, rem := tr[0].cur, At(tr[0], tr[0].cur).sleeprem;
    RunLeaves(c, tr, acts, 1, k, p, why, rem);
    LeavingBusy(tr[k], p, why, rem);
  }

  // The call itself, from a thread's own code.
  lemma CallLeaves(c: Conf, s: Cpu, a: Act, why: Why)
    requires Inv(c, s) && Enabled(c, s, a) && s.pc == Thread
    requires Calls(a, why)
    ensures 1 <= s.cur < c.maxProc && Leaving(Step(c, s, a), s.cur, why, At(s, s.cur).sleeprem)
    ensures Step(c, s, a).ticks == s.ticks && Step(c, s, a).pc == Cli(why)
  {
  }

  // State k is the first after the call in which the idle thread goes on behind its swtch.
  ghost predicate BackInIdle(tr: seq<Cpu>, k: nat) {
    1 <= k < |tr| && tr[k].pc == IdleTest && forall j :: 1 <= j < k ==> tr[j].pc != IdleTest
  }

  lemma CalledLeaves(c: Conf, tr: seq<Cpu>, acts: seq<Act>, k: nat, why: Why)
    requires Run(c, tr, acts) && Inv(c, tr[0]) && tr[0].pc == Thread && BackInIdle(tr, k) && Calls(acts[0], why)
    ensures 1 <= tr[0].cur < c.maxProc && Left(tr[k], tr[0].cur, why, At(tr[0], tr[0].cur).sleeprem)
  {
    hide Inv, Step, Enabled, Run;
    RunLength(c, tr, acts);
    RunAt(c, tr, acts, 0);
    CallLeaves(c, tr[0], acts[0], why);
    RunLeaves(c, tr, acts, 1, k, tr[0].cur, why, At(tr[0], tr[0].cur).sleeprem);
  }

  lemma GoneStep(c: Conf, s: Cpu, a: Act, p: nat)
    requires Inv(c, s) && Enabled(c, s, a) && 1 <= p < c.maxProc && At(s, p).state == EXITED && s.cur != p
    ensures At(Step(c, s, a), p).state == EXITED && Step(c, s, a).cur != p
  {
    hide NextCursor;
    assert SlotOk(c, s, p);
    ExitedStays(c, s, a, p);
  }

  /** exit: from the moment the idle thread is back, the caller's slot is EXITED and the
      caller never runs again. */
  lemma {:induction false} ExitCall(c: Conf, tr: seq<Cpu>, acts: seq<Act>, k: nat, j: nat)
    requires Run(c, tr, acts) && Inv(c, tr[0]) && tr[0].pc == Thread && BackInIdle(tr, k) && acts[0] == CallExit
    requires k <= j < |tr|
    ensures At(tr[j], tr[0].cur).state == EXITED && tr[j].cur != tr[0].cur
    decreases j
  {
    hide Inv, Step, Enabled, Run;
    RunLength(c, tr, acts);
    CalledLeaves(c, tr, acts, k, Exit);
    if j == k {
      RunInv(c, tr, acts, k);
      IdleCurrent(c, tr[k]);
    } else {
      ExitCall(c, tr, acts, k, j - 1);
      RunInv(c, tr, acts, j - 1);
      RunAt(c, tr, acts, j - 1);
      GoneStep(c, tr[j - 1], acts[j - 1], tr[0].cur);
    }
  }

  lemma IdleCurrent(c: Conf, s: Cpu)
    requires Inv(c, s) && s.pc == IdleTest
    ensures s.cur == 0
  {
  }

  lemma RunDrop(c: Conf, tr: seq<Cpu>, acts: seq<Act>, k: nat)
    requires Run(c, tr, acts) && k < |tr|
    ensures |tr| == |acts| + 1 && Run(c, tr[k..], acts[k..])
  {
    hide Enabled, Step;
    forall j | 0 <= j < |acts[k..]|
      ensures Enabled(c, tr[k..][j], acts[k..][j]) && tr[k..][j + 1] == Step(c, tr[k..][j], acts[k..][j])
    {
      assert acts[k..][j] == acts[k + j];
    }
  }

  /** yield: when the idle thread is back the caller is runnable, its sleep count untouched;
      and from then on it waits for fewer than maxProc dispatches of others. */
  lemma YieldCall(c: Conf, tr: seq<Cpu>, acts: seq<Act>, k: nat)
    requires Run(c, tr, acts) && Inv(c, tr[0]) && tr[0].pc == Thread && BackInIdle(tr, k) && acts[0] == CallYield
    ensures var p := tr[0].cur;
            && At(tr[k], p).state == RUNNABLE && At(tr[k], p).sleeprem == At(tr[0], p).sleeprem
            && ((forall j :: k <= j < |acts| ==> !Chooses(tr[j], acts[j], p)) ==>
                  |tr[k..]| == |acts[k..]| + 1 && Dispatches(tr[k..], acts[k..]) < c.maxProc)
  {
    hide Inv, Step, Enabled, Run, Chooses, Dispatches;
    RunLength(c, tr, acts);
    CalledLeaves(c, tr, acts, k, Yield);
    RunInv(c, tr, acts, k);
    RunDrop(c, tr, acts, k);
    var p := tr[0].cur;
    if forall j :: k <= j < |acts| ==> !Chooses(tr[j], acts[j], p) {
      forall j | 0 <= j < |acts[k..]| ensures !Chooses(tr[k..][j], acts[k..][j], p) {
        assert !Chooses(tr[k + j], acts[k + j], p);
      }
      BoundedWait(c, tr[k..], acts[k..], p);
    }
  }

  // Before the thread's cli only timer interrupts come.
  lemma {:induction false} UntilCli(c: Conf, tr: seq<Cpu>, acts: seq<Act>, i: nat, why: Why)
    requires Run(c, tr, acts) && Inv(c, tr[0]) && tr[0].pc == Thread && 1 <= i < |acts|
    requires Calls(acts[0], why)
    requires forall k :: 1 <= k < i ==> acts[k] != Exec
    ensures tr[i].pc == Cli(why) && tr[i].cur == tr[0].cur && (acts[i] == Timer || acts[i] == Exec)
    decreases i
  {
    hide Inv, Step, Enabled, Run;
    RunLength(c, tr, acts);
    RunAt(c, tr, acts, i);
    if i == 1 {
      RunAt(c, tr, acts, 0);
      CallCurrent(c, tr[0], acts[0], why);
    } else {
      UntilCli(c, tr, acts, i - 1, why);
      RunAt(c, tr, acts, i - 1);
      TimerStays(c, tr[i - 1]);
    }
    CliActs(c, tr[i], acts[i]);
  }

  lemma CallCurrent(c: Conf, s: Cpu, a: Act, why: Why)
    requires Inv(c, s) && Enabled(c, s, a) && s.pc == Thread
    requires Calls(a, why)
    ensures Step(c, s, a).pc == Cli(why) && Step(c, s, a).cur == s.cur
  {
  }

  lemma TimerStays(c: Conf, s: Cpu)
    ensures Step(c, s, Timer).pc == s.pc && Step(c, s, Timer).cur == s.cur
  {
  }

  lemma CliActs(c: Conf, s: Cpu, a: Act)
    requires Enabled(c, s, a) && s.pc.Cli?
    ensures a == Timer || a == Exec
  {
  }

  lemma CliStep(c: Conf, s: Cpu)
    requires s.pc.Cli?
    ensures var s' := Step(c, s, Exec); s'.pc == Mark(s.pc.why) && s'.cur == s.cur && s'.ticks == s.ticks && !s'.iflag
  {
  }

  /** sleep(n) by a thread's own code. With n == 0 nothing changes. Otherwise let cli be step i,
      at tick t: until then only timer interrupts come; once both stores are done the slot
      sleeps with exactly t+n-ticks to go at every point before tick t+n; and the interrupt
      that makes it tick t+n makes the slot runnable. */
  lemma SleepFromCall(c: Conf, tr: seq<Cpu>, acts: seq<Act>, n: int, i: nat, j: nat)
    requires Run(c, tr, acts) && Inv(c, tr[0]) && tr[0].pc == Thread && 1 <= i < |acts| && acts[0] == CallSleep(n)
    requires acts[i] == Exec && (forall k :: 1 <= k < i ==> acts[k] != Exec) && i + 3 <= j < |tr|
    ensures n == 0 ==> tr[1] == tr[0]
    ensures n != 0 ==>
              var p, wake := tr[0].cur, tr[i].ticks + n;
              && (forall k :: 1 <= k < i ==> acts[k] == Timer) && !tr[i + 1].iflag
              && (tr[j].ticks < wake ==> At(tr[j], p).state == SLEEPING && At(tr[j], p).sleeprem == wake - tr[j].ticks)
              && (tr[j - 1].ticks < wake <= tr[j].ticks ==>
                    tr[j].ticks == wake && acts[j - 1] == Timer && At(tr[j], p).state == RUNNABLE)
  {
    hide Inv, Step, Enabled, Run;
    RunLength(c, tr, acts);
    RunAt(c, tr, acts, 0);
    SleepZero(c, tr[0], n);
    if n != 0 {
      forall k | 1 <= k < i ensures acts[k] == Timer {
        UntilCli(c, tr, acts, k, Sleep(n));
      }
      UntilCli(c, tr, acts, i, Sleep(n));
      RunAt(c, tr, acts, i);
      CliStep(c, tr[i]);
      RunDrop(c, tr, acts, i + 1);
      RunInv(c, tr, acts, i + 1);
      var tr', acts' := tr[i + 1..], acts[i + 1..];
      assert tr'[j - i - 1] == tr[j] && tr'[j - i - 2] == tr[j - 1] && acts'[j - i - 2] == acts[j - 1];
      SleepCall(c, tr', acts', n, j - i - 1);
    }
  }

  lemma SleepZero(c: Conf, s: Cpu, n: int)
    requires Enabled(c, s, CallSleep(n))
    ensures n >= 0 && (n == 0 ==> Step(c, s, CallSleep(n)) == s)
  {
  }

  // ---- dispatch -----------------------------------------------------------------------

  // The idle thread is dispatching k, or k runs.
  ghost predicate Dispatched(c: Conf, s: Cpu, k: nat) {
    match s.pc
    case SetCur(p) => p == k
    case SetRunning(p) => p == k
    case LoadCr3(p) => p == k
    case Tss1(p) => p == k
    case Tss2(p) => p == k
    case SwtchIn(p) => p == k
    case Thread => s.cur == k && At(s, k).state == RUNNING && s.iflag
    case _ => false
  }

  lemma DispatchStep(c: Conf, s: Cpu, a: Act, k: nat)
    requires Inv(c, s) && Enabled(c, s, a) && Dispatched(c, s, k) && s.pc != Thread
    ensures Dispatched(c, Step(c, s, a), k)
    ensures Rank(Step(c, s, a).pc) + (if a == Exec then 1 else 0) == Rank(s.pc)
  {
    hide NextCursor;
    assert s.cur >= 1 ==> SlotOk(c, s, s.cur);
  }

  lemma ChoiceStep(c: Conf, s: Cpu, a: Act, k: nat)
    requires Chooses(s, a, k)
    ensures Step(c, s, a).pc == SetCur(k)
  {
  }

  /** A thread that the scan chooses runs: it has the CPU, and its own code goes on with
      interrupts on, after exactly six more steps, and until then no other code runs. */
  lemma {:induction false} DispatchRuns(c: Conf, tr: seq<Cpu>, acts: seq<Act>, i: nat, j: nat, k: nat)
    requires Run(c, tr, acts) && Inv(c, tr[0]) && i < j < |tr| && i < |acts| && Chooses(tr[i], acts[i], k)
    requires forall m :: i < m < j ==> tr[m].pc != Thread
    ensures |tr| == |acts| + 1 && (tr[j].pc == Thread <==> Execs(acts, i + 1, j) == 6) && Execs(acts, i + 1, j) <= 6
    ensures tr[j].pc == Thread ==> tr[j].cur == k && At(tr[j], k).state == RUNNING && tr[j].iflag
    ensures Dispatched(c, tr[j], k) && Execs(acts, i + 1, j) + Rank(tr[j].pc) == 6
    decreases j
  {
    hide Inv, Step, Enabled, Run, Chooses;
    RunLength(c, tr, acts);
    RunAt(c, tr, acts, j - 1);
    RunInv(c, tr, acts, j - 1);
    if j == i + 1 {
      ChoiceStep(c, tr[i], acts[i], k);
    } else {
      DispatchRuns(c, tr, acts, i, j - 1, k);
      DispatchStep(c, tr[j - 1], acts[j - 1], k);
    }
  }

  // ---- spawn --------------------------------------------------------------------------

  // A spawn of slot k, called in state s0, is under way or has just returned.
  ghost predicate InSpawn(c: Conf, s0: Cpu, user: bool, s: Cpu) {
    var k := s0.nproc;
    && s.cur == s0.cur && s.iflag == s0.iflag && s.cursor == s0.cursor && s.cr3 == s0.cr3
    && (match s.pc
        case SpawnPid(u, back) => u == user && back == s0.pc && s.nproc == k
        case SpawnInc(u, back) => u == user && back == s0.pc && s.nproc == k
        case SpawnKstack(u, back) => u == user && back == s0.pc && s.nproc == k + 1
        case SpawnRoot(u, back) => u == user && back == s0.pc && s.nproc == k + 1
        case SpawnGo(back) => back == s0.pc && s.nproc == k + 1 && At(s, k).ptRoot == (if user then c.upml4 else c.kpml4)
        case _ => s.pc == s0.pc && s.nproc == k + 1 && Spawned(c, s, k, user))
  }

  // Slot k holds a new thread.
  ghost predicate Spawned(c: Conf, s: Cpu, k: nat, user: bool) {
    var p := At(s, k);
    && p.state == RUNNABLE && p.pid == k && p.kstack == c.kstacks + k * KSTACK_SZ
    && p.ptRoot == (if user then c.upml4 else c.kpml4)
  }

  lemma SpawnStep(c: Conf, s0: Cpu, user: bool, s: Cpu, a: Act)
    requires s0.pc == Thread || s0.pc == Boot
    requires Inv(c, s) && Enabled(c, s, a) && InSpawn(c, s0, user, s) && s.pc != s0.pc && 1 <= s0.nproc < c.maxProc
    ensures InSpawn(c, s0, user, Step(c, s, a)) && (a == Timer || a == Exec)
  {
    hide NextCursor, MarkLeaving;
    assert SlotOk(c, s, s0.nproc);
  }

  lemma SpawnEnters(c: Conf, s0: Cpu, user: bool)
    requires Inv(c, s0) && Enabled(c, s0, CallSpawn(user))
    ensures InSpawn(c, s0, user, Step(c, s0, CallSpawn(user))) && 1 <= s0.nproc < c.maxProc
    ensures Step(c, s0, CallSpawn(user)).pc.SpawnPid?
  {
  }

  /** spawn and spawnuser: when the call returns there is one thread more, runnable, with its
      slot number as pid, its own kernel stack, and the user page table exactly if it was
      spawnuser; the caller goes on as it was. */
  lemma {:induction false} SpawnCall(c: Conf, tr: seq<Cpu>, acts: seq<Act>, user: bool, j: nat)
    requires Run(c, tr, acts) && Inv(c, tr[0]) && 1 <= j < |tr| && acts[0] == CallSpawn(user)
    requires forall m :: 1 <= m < j ==> tr[m].pc != tr[0].pc
    ensures InSpawn(c, tr[0], user, tr[j])
    ensures tr[j].pc == tr[0].pc ==>
              var k := tr[0].nproc;
              && tr[j].nproc == k + 1 && k < |tr[j].procs|
              && tr[j].procs[k].state == RUNNABLE && tr[j].procs[k].pid == k
              && tr[j].procs[k].kstack == c.kstacks + k * KSTACK_SZ
              && tr[j].procs[k].ptRoot == (if user then c.upml4 else c.kpml4)
              && tr[j].cur == tr[0].cur && tr[j].iflag == tr[0].iflag && tr[j].cr3 == tr[0].cr3
    decreases j
  {
    hide Inv, Step, Enabled, Run, InSpawn;
    RunLength(c, tr, acts);
    RunAt(c, tr, acts, 0);
    CallPlace(c, tr[0], user);
    RunAt(c, tr, acts, j - 1);
    RunInv(c, tr, acts, j - 1);
    RunInv(c, tr, acts, j);
    SpawnEnters(c, tr[0], user);
    if j > 1 {
      SpawnCall(c, tr, acts, user, j - 1);
      SpawnStep(c, tr[0], user, tr[j - 1], acts[j - 1]);
    }
    SpawnReturned(c, tr[0], user, tr[j]);
  }

  lemma CallPlace(c: Conf, s: Cpu, user: bool)
    requires Enabled(c, s, CallSpawn(user))
    ensures s.pc == Thread || s.pc == Boot
  {
  }

  lemma SpawnReturned(c: Conf, s0: Cpu, user: bool, s: Cpu)
    requires (s0.pc == Thread || s0.pc == Boot) && Inv(c, s) && InSpawn(c, s0, user, s)
    ensures s.pc == s0.pc ==>
              && s.nproc == s0.nproc + 1 && s0.nproc < |s.procs| && Spawned(c, s, s0.nproc, user)
              && s.cur == s0.cur && s.iflag == s0.iflag && s.cr3 == s0.cr3
  {
  }

  // ---- which page table a thread runs on ------------------------------------------------

  // The slots that spawnuser was called for in the first j steps.
  ghost function UserSlots(tr: seq<Cpu>, acts: seq<Act>, j: nat): set<nat>
    requires j <= |acts| <= |tr|
  {
    if j == 0 then {}
    else UserSlots(tr, acts, j - 1) + if acts[j - 1] == CallSpawn(true) then {tr[j - 1].nproc} else {}
  }

  // Every thread has the page table of its kind; a spawn under way will give it that one.
  ghost predicate Rooted(c: Conf, s: Cpu, users: set<nat>) {
    && (forall i :: i in users ==> i < s.nproc || i == Spawning(s))
    && (match s.pc
        case SpawnPid(u, _) => u <==> s.nproc in users
        case SpawnInc(u, _) => u <==> s.nproc in users
        case SpawnKstack(u, _) => u <==> s.nproc - 1 in users
        case SpawnRoot(u, _) => u <==> s.nproc - 1 in users
        case _ => true)
    && forall i {:trigger At(s, i)} :: 1 <= i < s.nproc && (i != Spawning(s) || s.pc.SpawnGo?) ==>
         At(s, i).ptRoot == if i in users then c.upml4 else c.kpml4
  }

  // Outside spawn no step touches a page-table field or the number of slots.
  lemma RootsKept(c: Conf, s: Cpu, a: Act, i: nat)
    requires Enabled(c, s, a) && !a.CallSpawn? && Outer(s.pc) == s.pc
    ensures var s' := Step(c, s, a);
            At(s', i).ptRoot == At(s, i).ptRoot && s'.nproc == s.nproc && Outer(s'.pc) == s'.pc && Spawning(s') == -1
  {
    hide NextCursor;
  }

  lemma RootedSpawn(c: Conf, s: Cpu, users: set<nat>, a: Act)
    requires Inv(c, s) && Enabled(c, s, a) && Rooted(c, s, users) && (a == Timer || a == Exec) && Outer(s.pc) != s.pc
    ensures Rooted(c, Step(c, s, a), users)
  {
    hide NextCursor, MarkLeaving, SlotOk, PlaceOk;
    var s' := Step(c, s, a);
    forall i | 1 <= i < s'.nproc && (i != Spawning(s') || s'.pc.SpawnGo?)
      ensures At(s', i).ptRoot == if i in users then c.upml4 else c.kpml4
    {
      assert i != Spawning(s) || s.pc.SpawnGo? ==> At(s, i).ptRoot == if i in users then c.upml4 else c.kpml4;
    }
  }

  lemma RootedStep(c: Conf, s: Cpu, users: set<nat>, a: Act)
    requires Inv(c, s) && Enabled(c, s, a) && Rooted(c, s, users)
    ensures Rooted(c, Step(c, s, a), users + if a == CallSpawn(true) then {s.nproc} else {})
  {
    hide ExecStep, SlotOk, PlaceOk;
    var s' := Step(c, s, a);
    if a.CallSpawn? {
      forall i | 1 <= i < s.nproc ensures At(s', i).ptRoot == At(s, i).ptRoot { }
    } else {
      assert users + {} == users;
      if Outer(s.pc) != s.pc {
        RootedSpawn(c, s, users, a);
      } else {
        forall i: nat ensures At(s', i).ptRoot == At(s, i).ptRoot && s'.nproc == s.nproc && Spawning(s') == -1 && Outer(s'.pc) == s'.pc {
          RootsKept(c, s, a, i);
        }
        RootsKept(c, s, a, 0);
      }
    }
  }

  lemma {:induction false} RunRooted(c: Conf, tr: seq<Cpu>, acts: seq<Act>, j: nat)
    requires Run(c, tr, acts) && Init(c, tr[0]) && j < |tr|
    ensures |tr| == |acts| + 1 && Rooted(c, tr[j], UserSlots(tr, acts, j))
    decreases j
  {
    hide Inv, Step, Enabled, Run, Rooted;
    RunLength(c, tr, acts);
    InitInv(c, tr[0]);
    if j == 0 {
      InitRooted(c, tr[0]);
    } else {
      RunRooted(c, tr, acts, j - 1);
      RunInv(c, tr, acts, j - 1);
      RunAt(c, tr, acts, j - 1);
      RootedStep(c, tr[j - 1], UserSlots(tr, acts, j - 1), acts[j - 1]);
    }
  }

  lemma InitRooted(c: Conf, s: Cpu)
    requires Init(c, s)
    ensures Rooted(c, s, {})
  {
  }

  /** Over every run from boot: while a thread's own code runs, or a call it made to spawn,
      CR3 holds the user page table exactly if that thread was created by spawnuser; and while
      the idle thread scans, the kernel's. */
  lemma RunSpace(c: Conf, tr: seq<Cpu>, acts: seq<Act>, j: nat)
    requires Run(c, tr, acts) && Init(c, tr[0]) && j < |tr|
    ensures |tr| == |acts| + 1
    ensures Outer(tr[j].pc) == Thread ==>
              tr[j].cr3 == if tr[j].cur in UserSlots(tr, acts, j) then c.upml4 else c.kpml4
    ensures tr[j].pc == Scan ==> tr[j].cr3 == c.kpml4
  {
    hide Step, Enabled, Run;
    RunRooted(c, tr, acts, j);
    InitInv(c, tr[0]);
    RunInv(c, tr, acts, j);
    assert At(tr[j], tr[j].cur) == At(tr[j], tr[j].cur);
  }
}
