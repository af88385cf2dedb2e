// The loops of proc.c and trap.c over the process table, in place.
module ProcTable {
  import opened Sched

  // Slot p is the first runnable one that a scan from slot i meets, wrapping at n.
  ghost predicate FirstFrom(ps: seq<Proc>, n: nat, i: nat, p: nat)
    requires n <= |ps|
  {
    && p < n && ps[p].state == RUNNABLE
    && (i <= p ==> forall q :: i <= q < p ==> ps[q].state != RUNNABLE)
    && (p < i ==> forall q :: 0 <= q < n && (q < p || i <= q) ==> ps[q].state != RUNNABLE)
  }

  // The probes that a scan from slot i needs to reach slot p in a round of n.
  function ProbesTo(n: nat, i: nat, p: nat): nat
    requires i < n && p < n
  {
    if i <= p then p - i + 1 else n - i + p + 1
  }

  function ExecN(c: Conf, s: Cpu, k: nat): Cpu
    decreases k
  {
    if k == 0 then s else ExecN(c, ExecStep(c, s), k - 1)
  }

  /** The scheduler's machine, undisturbed, makes exactly that choice in at most nproc probes. */
  lemma {:induction false} ScanFinds(c: Conf, s: Cpu, p: nat)
    requires s.pc == Scan && s.cursor < s.nproc <= |s.procs|
    requires FirstFrom(s.procs, s.nproc, s.cursor, p)
    ensures ProbesTo(s.nproc, s.cursor, p) <= s.nproc
    ensures ExecN(c, s, ProbesTo(s.nproc, s.cursor, p)) == s.(cursor := NextSlot(p, s.nproc), pc := SetCur(p))
    decreases ProbesTo(s.nproc, s.cursor, p)
  {
    hide NextSlot, MarkLeaving, SetProc;
    var k := ProbesTo(s.nproc, s.cursor, p);
    var s1 := ExecStep(c, s);
    assert ExecN(c, s, k) == ExecN(c, s1, k - 1);
    if s.cursor == p {
      assert ExecN(c, s1, 0) == s1;
    } else {
      ScanFinds(c, s1, p);
    }
  }

  class Table {
    const procs: array<Proc>
    var nproc: nat
    var cursor: nat
    var ticks: int

    constructor (maxProc: nat, idle: Proc)
      requires 1 <= maxProc
      ensures procs.Length == maxProc && procs[0] == idle && nproc == 1 && cursor == 0 && ticks == 0
      ensures fresh(procs) && forall i :: 1 <= i < maxProc ==> procs[i].state == UNINIT
    {
      procs := new Proc[maxProc](i => Proc(UNINIT, 0, 0, 0, 0, First));
      nproc, cursor, ticks := 1, 0, 0;
      new;
      procs[0] := idle;
    }

    // The timer case of trap()
    method Tick()
      requires nproc <= procs.Length
      modifies this`ticks, procs
      ensures ticks == old(ticks) + 1
      ensures procs[..] == TickAll(old(procs[..]), nproc)
    {
      ticks := ticks + 1;
      var i := 0;
      while i < nproc
        invariant 0 <= i <= nproc && ticks == old(ticks) + 1
        invariant forall k :: 0 <= k < i ==> procs[k] == TickProc(old(procs[k]))
        invariant forall k :: i <= k < procs.Length ==> procs[k] == old(procs[k])
      {
        if procs[i].state == SLEEPING {
          procs[i] := procs[i].(sleeprem := procs[i].sleeprem - 1);
          if procs[i].sleeprem == 0 {
            procs[i] := procs[i].(state := RUNNABLE);
          }
        }
        i := i + 1;
      }
    }

    // find_runnable_proc, when there is a thread to find. probes counts the loop's turns.
    method FindRunnable(ghost k: nat) returns (p: nat, ghost probes: nat)
      requires cursor < nproc <= procs.Length
      requires k < nproc && procs[k].state == RUNNABLE
      modifies this`cursor
      ensures FirstFrom(procs[..], nproc, old(cursor), p)
      ensures p < nproc && cursor == NextSlot(p, nproc)
      ensures probes <= nproc
    {
      hide NextSlot;
      probes := 0;
      ghost var start := cursor;
      while true
        invariant cursor < nproc && probes < nproc
        invariant start + probes == cursor || start + probes == cursor + nproc
        invariant start + probes == cursor ==> forall q :: start <= q < cursor ==> procs[q].state != RUNNABLE
        invariant start + probes == cursor + nproc ==>
                    forall q :: 0 <= q < nproc && (q < cursor || start <= q) ==> procs[q].state != RUNNABLE
        decreases nproc - probes
      {
        probes := probes + 1;
        if procs[cursor].state == RUNNABLE {
          p := cursor;
          cursor := NextSlot(cursor, nproc);
          return;
        }
        cursor := NextSlot(cursor, nproc);
      }
    }
  }
}
