// What holds over every run of the scheduler: safety, bounded waiting, exact sleep.
module SchedRuns {
  import opened Sched

  // tr lists the states of a run and acts the steps between them.
  ghost predicate Run(c: Conf, tr: seq<Cpu>, acts: seq<Act>) {
    && |tr| == |acts| + 1
    && forall j {:trigger acts[j]} :: 0 <= j < |acts| ==>
         Enabled(c, tr[j], acts[j]) && tr[j + 1] == Step(c, tr[j], acts[j])
  }

  lemma RunTail(c: Conf, tr: seq<Cpu>, acts: seq<Act>)
    requires Run(c, tr, acts) && acts != []
    ensures Run(c, tr[1..], acts[1..])
    ensures Enabled(c, tr[0], acts[0]) && tr[1] == Step(c, tr[0], acts[0])
  {
    hide Enabled, Step;
    assert acts[0] in acts;
    forall j | 0 <= j < |acts[1..]|
      ensures Enabled(c, tr[1..][j], acts[1..][j]) && tr[1..][j + 1] == Step(c, tr[1..][j], acts[1..][j])
    {
      assert acts[1..][j] == acts[j + 1];
    }
  }

  // ---- safety -------------------------------------------------------------------------

  // What the design promises of a state, in one place.
  ghost predicate Safe(c: Conf, s: Cpu) {
    && s.pc != Panic
    && |s.procs| == c.maxProc >= 1 && s.nproc <= c.maxProc
    // the idle thread is always marked running, and is never chosen
    && s.procs[0].state == RUNNING
    && (s.pc.SetCur? ==> 1 <= s.pc.p < s.nproc && s.procs[s.pc.p].state == RUNNABLE)
    // only the current thread runs beside it
    && (forall i :: 1 <= i < |s.procs| && s.procs[i].state == RUNNING ==> i == s.cur)
    // a sleeper that a timer interrupt can see still has ticks to go
    && (s.iflag ==> forall i :: 0 <= i < |s.procs| && s.procs[i].state == SLEEPING ==> s.procs[i].sleeprem >= 1)
    // pids number the slots, the idle thread's excepted, which is 1
    && s.procs[0].pid == 1
    && (s.pc == Thread ==> forall i :: 1 <= i < s.nproc ==> s.procs[i].pid == i)
    // a thread's own code runs in its address space, with its kernel stack in the TSS
    && (s.pc == Thread ==>
          && 1 <= s.cur < s.nproc && s.procs[s.cur].state == RUNNING
          && s.cr3 == s.procs[s.cur].ptRoot && s.cr3 in {c.kpml4, c.upml4}
          && s.tss1 + TWO32 * s.tss2 == s.procs[s.cur].kstack + KSTACK_SZ
          && s.procs[s.cur].kstack == c.kstacks + s.cur * KSTACK_SZ)
    // and it resumes from idle with interrupts enabled
    && (s.pc.SwtchIn? ==> s.iflag)
  }

  lemma InvSafe(c: Conf, s: Cpu)
    requires Inv(c, s)
    ensures Safe(c, s)
  {
    forall i | 1 <= i < |s.procs|
      ensures s.procs[i].state == RUNNING ==> i == s.cur
      ensures s.iflag && s.procs[i].state == SLEEPING ==> s.procs[i].sleeprem >= 1
      ensures s.pc == Thread && i < s.nproc ==>
                s.procs[i].pid == i && s.procs[i].kstack == c.kstacks + i * KSTACK_SZ && s.procs[i].ptRoot in {c.kpml4, c.upml4}
    {
      assert SlotOk(c, s, i);
    }
  }

  lemma {:induction false} RunInv(c: Conf, tr: seq<Cpu>, acts: seq<Act>, j: nat)
    requires Run(c, tr, acts) && Inv(c, tr[0]) && j < |tr|
    ensures Inv(c, tr[j])
  {
    hide Inv, Step, Enabled;
    if j > 0 {
      RunInv(c, tr, acts, j - 1);
      assert acts[j - 1] in acts;
      StepKeeps(c, tr[j - 1], acts[j - 1]);
    }
  }

  /** From the state procinit leaves, every state of every run, over all interleavings of
      yield, sleep, exit, spawn, dispatch and timer interrupts, is safe. */
  lemma RunSafe(c: Conf, tr: seq<Cpu>, acts: seq<Act>, j: nat)
    requires Run(c, tr, acts) && Init(c, tr[0]) && j < |tr|
    ensures Safe(c, tr[j])
  {
    InitInv(c, tr[0]);
    RunInv(c, tr, acts, j);
    InvSafe(c, tr[j]);
  }

  // ---- EXITED is for ever -----------------------------------------------------------------

  lemma ExitedStays(c: Conf, s: Cpu, a: Act, i: nat)
    requires Inv(c, s) && Enabled(c, s, a) && 1 <= i < |s.procs| && s.procs[i].state == EXITED
    ensures var s' := Step(c, s, a); i < |s'.procs| && s'.procs[i].state == EXITED
  {
    assert SlotOk(c, s, i);
    assert s.cur >= 1 ==> SlotOk(c, s, s.cur);
  }

  /** A thread that has exited stays so for the rest of the run. */
  lemma {:induction false} RunExited(c: Conf, tr: seq<Cpu>, acts: seq<Act>, i: nat, j: nat)
    requires Run(c, tr, acts) && Inv(c, tr[0]) && j < |tr|
    requires 1 <= i < c.maxProc && At(tr[0], i).state == EXITED
    ensures At(tr[j], i).state == EXITED
  {
    hide Inv, Step, Enabled, Run;
    RunLength(c, tr, acts);
    if j > 0 {
      RunExited(c, tr, acts, i, j - 1);
      RunInv(c, tr, acts, j - 1);
      RunAt(c, tr, acts, j - 1);
      InvShape(c, tr[j - 1]);
      ExitedStays(c, tr[j - 1], acts[j - 1], i);
    }
  }

  lemma RunAt(c: Conf, tr: seq<Cpu>, acts: seq<Act>, j: nat)
    requires Run(c, tr, acts) && j < |acts|
    ensures |tr| == |acts| + 1 && Enabled(c, tr[j], acts[j]) && tr[j + 1] == Step(c, tr[j], acts[j])
  {
  }

  lemma InvShape(c: Conf, s: Cpu)
    requires Inv(c, s)
    ensures |s.procs| == c.maxProc && s.cursor < s.nproc <= c.maxProc
  {
  }

  // ---- round robin ---------------------------------------------------------------------------

  // One probe of find_runnable_proc, and the probe that chooses k.
  predicate Probe(s: Cpu, a: Act) { a == Exec && s.pc == Scan }

  predicate Chooses(s: Cpu, a: Act, k: nat) {
    Probe(s, a) && s.cursor == k && At(s, k).state == RUNNABLE
  }

  // Slot k is runnable and not yet chosen.
  predicate Waiting(s: Cpu, k: nat) {
    At(s, k).state == RUNNABLE && s.pc != SetCur(k) && s.pc != SetRunning(k)
  }

  // How far the cursor is from slot k, as if all slots were in use.
  function Dist(c: Conf, i: nat, k: nat): int {
    if i <= k then k - i else c.maxProc - i + k
  }

  /** While slot k waits, every probe brings the cursor nearer and no other step moves it away,
      even though a spawn may lengthen the round. */
  lemma WaitStep(c: Conf, s: Cpu, a: Act, k: nat)
    requires Inv(c, s) && Enabled(c, s, a) && 1 <= k < c.maxProc && Waiting(s, k)
    requires !Chooses(s, a, k)
    ensures var s' := Step(c, s, a);
            && Waiting(s', k)
            && Dist(c, s'.cursor, k) + (if Probe(s, a) then 1 else 0) <= Dist(c, s.cursor, k)
  {
    hide MarkLeaving, NextSlot;
    assert SlotOk(c, s, k);
    if !Probe(s, a) {
      WaitOther(c, s, a, k);
    }
  }

  lemma WaitOther(c: Conf, s: Cpu, a: Act, k: nat)
    requires Inv(c, s) && Enabled(c, s, a) && 1 <= k < c.maxProc && Waiting(s, k)
    requires !Probe(s, a)
    ensures Waiting(Step(c, s, a), k) && Step(c, s, a).cursor == s.cursor
  {
    hide NextCursor;
    assert SlotOk(c, s, k);
  }

  ghost function Probes(tr: seq<Cpu>, acts: seq<Act>): nat
    requires |tr| == |acts| + 1
  {
    if acts == [] then 0 else (if Probe(tr[0], acts[0]) then 1 else 0) + Probes(tr[1..], acts[1..])
  }

  // The dispatches among the steps.
  ghost function Dispatches(tr: seq<Cpu>, acts: seq<Act>): nat
    requires |tr| == |acts| + 1
  {
    if acts == [] then 0
    else (if Chooses(tr[0], acts[0], tr[0].cursor) then 1 else 0) + Dispatches(tr[1..], acts[1..])
  }

  lemma {:induction false} DispatchesAreProbes(tr: seq<Cpu>, acts: seq<Act>)
    requires |tr| == |acts| + 1
    ensures Dispatches(tr, acts) <= Probes(tr, acts)
  {
    if acts != [] { DispatchesAreProbes(tr[1..], acts[1..]); }
  }

  /** Bounded wait: as long as a runnable thread k is not chosen, the scheduler has made no
      more probes, hence no more dispatches of others, than the cursor was away from k. */
  lemma {:induction false} BoundedWait(c: Conf, tr: seq<Cpu>, acts: seq<Act>, k: nat)
    requires Run(c, tr, acts) && Inv(c, tr[0]) && 1 <= k < c.maxProc && Waiting(tr[0], k)
    requires forall j :: 0 <= j < |acts| ==> !Chooses(tr[j], acts[j], k)
    ensures Probes(tr, acts) <= Dist(c, tr[0].cursor, k) < c.maxProc
    ensures Dispatches(tr, acts) < c.maxProc
    ensures Waiting(tr[|acts|], k)
    decreases |acts|
  {
    hide Inv, Step, Enabled, Run, Waiting, Chooses, Probe;
    assert |tr| == |acts| + 1 by { RunLength(c, tr, acts); }
    InvShape(c, tr[0]);
    if acts != [] {
      RunTail(c, tr, acts);
      WaitStep(c, tr[0], acts[0], k);
      StepKeeps(c, tr[0], acts[0]);
      forall j | 0 <= j < |acts[1..]| ensures !Chooses(tr[1..][j], acts[1..][j], k) {
        assert !Chooses(tr[j + 1], acts[j + 1], k);
      }
      BoundedWait(c, tr[1..], acts[1..], k);
      assert tr[1..][|acts[1..]|] == tr[|acts|];
    }
    DispatchesAreProbes(tr, acts);
  }

  lemma RunLength(c: Conf, tr: seq<Cpu>, acts: seq<Act>)
    requires Run(c, tr, acts)
    ensures |tr| == |acts| + 1
  {
  }

  // ---- sleep ----------------------------------------------------------------------------------

  // Slot i sleeps, and its count has been stored.
  predicate Asleep(s: Cpu, i: nat) {
    At(s, i).state == SLEEPING && !(s.pc.SetRem? && s.cur == i)
  }

  /** Once a thread in sleep(n) has disabled interrupts, nothing comes between: two steps
      later, in the same tick, it is asleep with exactly n ticks to go. */
  lemma SleepEntry(c: Conf, s: Cpu, n: int, a: Act, a': Act)
    requires Inv(c, s) && s.pc == Mark(Sleep(n)) && Enabled(c, s, a)
    requires Enabled(c, Step(c, s, a), a')
    ensures a == Exec && a' == Exec
    ensures var s2 := Step(c, Step(c, s, a), a');
            && Asleep(s2, s.cur) && At(s2, s.cur).sleeprem == n && s2.ticks == s.ticks && n >= 1
  {
  }

  lemma AsleepStep(c: Conf, s: Cpu, a: Act, i: nat)
    requires Inv(c, s) && Enabled(c, s, a) && 1 <= i < c.maxProc && Asleep(s, i)
    ensures var s' := Step(c, s, a);
            && s'.ticks == s.ticks + (if a == Timer then 1 else 0)
            && (if a == Timer && At(s, i).sleeprem == 1 then At(s', i).state == RUNNABLE
                else Asleep(s', i) && At(s', i).sleeprem + s'.ticks == At(s, i).sleeprem + s.ticks)
            && At(s, i).sleeprem >= 1
  {
    hide NextCursor;
    assert SlotOk(c, s, i);
    assert s.cur >= 1 ==> SlotOk(c, s, s.cur);
  }

  lemma TicksMono(c: Conf, s: Cpu, a: Act)
    ensures s.ticks <= Step(c, s, a).ticks <= s.ticks + 1
  {
  }

  /** Sleep is exact: a thread asleep with r ticks to go at tick t sleeps on, its count being
      the ticks left, at every point before tick t+r, and the interrupt that makes it tick t+r
      makes it runnable. */
  lemma {:induction false} SleepExact(c: Conf, tr: seq<Cpu>, acts: seq<Act>, i: nat, j: nat)
    requires Run(c, tr, acts) && Inv(c, tr[0]) && 1 <= i < c.maxProc && Asleep(tr[0], i) && j < |tr|
    ensures var wake := tr[0].ticks + At(tr[0], i).sleeprem;
            && (tr[j].ticks < wake ==> Asleep(tr[j], i) && At(tr[j], i).sleeprem == wake - tr[j].ticks)
            && (j > 0 && tr[j - 1].ticks < wake <= tr[j].ticks ==>
                  tr[j].ticks == wake && acts[j - 1] == Timer && At(tr[j], i).state == RUNNABLE)
    decreases j
  {
    hide Inv, Step, Enabled, Run;
    RunLength(c, tr, acts);
    if j > 0 {
      SleepExact(c, tr, acts, i, j - 1);
      RunInv(c, tr, acts, j - 1);
      RunAt(c, tr, acts, j - 1);
      TicksMono(c, tr[j - 1], acts[j - 1]);
      var wake := tr[0].ticks + At(tr[0], i).sleeprem;
      if tr[j - 1].ticks < wake {
        AsleepStep(c, tr[j - 1], acts[j - 1], i);
      }
    }
  }

  /** A thread that has called sleep(n) and disabled interrupts at tick t: at every later
      point before tick t+n it is asleep with t+n-ticks to go, and the interrupt that makes
      it tick t+n makes it runnable. */
  lemma SleepCall(c: Conf, tr: seq<Cpu>, acts: seq<Act>, n: int, j: nat)
    requires Run(c, tr, acts) && Inv(c, tr[0]) && tr[0].pc == Mark(Sleep(n)) && 2 <= j < |tr|
    ensures var i, wake := tr[0].cur, tr[0].ticks + n;
            && (tr[j].ticks < wake ==> Asleep(tr[j], i) && At(tr[j], i).sleeprem == wake - tr[j].ticks)
            && (tr[j - 1].ticks < wake <= tr[j].ticks ==>
                  tr[j].ticks == wake && acts[j - 1] == Timer && At(tr[j], i).state == RUNNABLE)
  {
    hide Inv, Step, Enabled, Run, Asleep;
    RunLength(c, tr, acts);
    var i := tr[0].cur;
    assert 1 <= i < c.maxProc by { CurrentThread(c, tr[0]); }
    RunAt(c, tr, acts, 0);
    RunAt(c, tr, acts, 1);
    SleepEntry(c, tr[0], n, acts[0], acts[1]);
    RunInv(c, tr, acts, 2);
    RunTail(c, tr, acts);
    RunTail(c, tr[1..], acts[1..]);
    var tr', acts' := tr[1..][1..], acts[1..][1..];
    assert tr'[0] == tr[2] && tr'[j - 2] == tr[j];
    SleepExact(c, tr', acts', i, j - 2);
    if j > 2 { assert tr'[j - 3] == tr[j - 1] && acts'[j - 3] == acts[j - 1]; }
  }

  lemma CurrentThread(c: Conf, s: Cpu)
    requires Inv(c, s) && s.pc.Mark?
    ensures 1 <= s.cur < c.maxProc
  {
  }
}
