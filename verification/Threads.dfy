// Kernel threads on one CPU: computing, switching, creating threads, over whole runs.
// Addresses count 8-byte words.
module Threads {
  import opened Context
  import opened TrapFrame
  import opened Spawn

  // A thread's context record, its kernel stack, words lo .. hi-1, and its user stack.
  datatype Thr = Thr(ctx: nat, lo: nat, hi: nat, ulo: nat, uhi: nat)

  predicate InCtx(t: Thr, a: nat) { t.ctx <= a < t.ctx + CTX_WORDS }

  predicate InStack(t: Thr, a: nat) { t.lo <= a < t.hi }

  predicate InUser(t: Thr, a: nat) { t.ulo <= a < t.uhi }

  predicate Mine(t: Thr, a: nat) { InStack(t, a) || InUser(t, a) }

  ghost predicate Apart(ts: seq<Thr>) {
    && (forall i, j, a: nat :: 0 <= i < |ts| && 0 <= j < |ts| && InCtx(ts[i], a) ==> !Mine(ts[j], a))
    && (forall i, j, a: nat :: 0 <= i < |ts| && 0 <= j < |ts| && i != j && InCtx(ts[i], a) ==> !InCtx(ts[j], a))
    && (forall i, j, a: nat :: 0 <= i < |ts| && 0 <= j < |ts| && i != j && Mine(ts[i], a) ==> !Mine(ts[j], a))
    && (forall i, a: nat :: 0 <= i < |ts| && InStack(ts[i], a) ==> !InUser(ts[i], a))
  }

  // Thread cur runs, with registers r; the threads of `live` have been created.
  datatype Sys = Sys(cur: nat, live: set<nat>, r: Regs, m: Mem)

  // Compute: anything the running thread does on its own, traps included. Switch: it calls
  // swtch(&ctx of cur, &ctx of to), to return to ret. Create: it runs spawn or spawnuser.
  datatype Act =
    | Compute(r: Regs, m: Mem)
    | Switch(to: nat, ret: nat)
    | Create(t: nat, user: bool, func: nat, arg: nat, r: Regs)

  // The words of live threads that a trap leaves alone which comes while thread t runs with
  // stack pointer sp: all but those of t's own stack below sp.
  ghost predicate HeldBy(t: Thr, mine: bool, sp: int, b: nat) {
    InCtx(t, b) || InUser(t, b) || (InStack(t, b) && (mine ==> b >= sp))
  }

  ghost predicate Held(ts: seq<Thr>, live: set<nat>, t: nat, sp: int, b: nat) {
    exists i: nat :: i in live && i < |ts| && HeldBy(ts[i], i == t, sp, b)
  }

  ghost predicate Enabled(ts: seq<Thr>, s: Sys, a: Act) {
    match a
    case Compute(r, m) =>
      && (forall i: nat, b: nat :: i in s.live && i < |ts| && InCtx(ts[i], b) ==> Rd(m, b) == Rd(s.m, b))
      && (forall i: nat, b: nat :: i in s.live && i < |ts| && i != s.cur && Mine(ts[i], b) ==> Rd(m, b) == Rd(s.m, b))
    case Switch(to, ret) =>
      && to in s.live && to != s.cur && to < |ts| && s.cur < |ts|
      && ts[s.cur].lo + 1 <= s.r.rsp <= ts[s.cur].hi
    case Create(t, user, func, arg, r) =>
      && t !in s.live && t < |ts| && ts[t].hi == ts[t].lo + KSTACK_WORDS && (user ==> ts[t].uhi == ts[t].ulo + USTACK_WORDS)
  }

  // The context of a thread that calls swtch with registers r, to return to ret.
  function CallerCtx(t: Thr, r: Regs, ret: nat): Ctx
    requires r.rsp >= 1
  {
    Ctx(r.r15, r.r14, r.r13, r.r12, r.rbx, r.rbp, ret, r.rsp - 1, t.ctx)
  }

  // The context of a thread that has not run yet.
  function FreshCtx(c: Code, t: Thr, user: bool, func: nat, arg: nat): Ctx
    requires t.hi > TF_WORDS
  {
    if user then UserCtx(c, t.hi) else KernelCtx(t.hi, func, arg)
  }

  ghost predicate Next(c: Code, ts: seq<Thr>, s: Sys, a: Act, s': Sys) {
    Enabled(ts, s, a) &&
    match a
    case Compute(r, m) => s' == Sys(s.cur, s.live, r, m)
    case Switch(to, ret) =>
      var slot := ReadCtx(s.m, ts[to].ctx).rsp;
      && s'.cur == to && s'.live == s.live
      && ReadCtx(s'.m, ts[s.cur].ctx) == CallerCtx(ts[s.cur], s.r, ret)
      && Resumed(s'.r, ReadCtx(s.m, ts[to].ctx))
      && forall b: nat ::
           Held(ts, s.live, s.cur, s.r.rsp - 1, b) && Held(ts, s.live, to, slot, b) && b != slot && !InCtx(ts[s.cur], b) ==>
             Rd(s'.m, b) == if b == s.r.rsp - 1 then ret else Rd(s.m, b)
    case Create(t, user, func, arg, r) =>
      && s'.cur == s.cur && s'.live == s.live + {t} && s'.r == r
      && if user then BuiltUser(c, ts[t].ctx, ts[t].hi, ts[t].uhi - 1, func, arg, s.m, s'.m)
         else BuiltKernel(c, ts[t].ctx, ts[t].hi, func, arg, s.m, s'.m)
  }

  // Every live thread that does not run has its saved stack pointer inside its own stack.
  ghost predicate SpOk(ts: seq<Thr>, s: Sys) {
    && s.cur in s.live
    && (forall i :: i in s.live ==> i < |ts|)
    && (forall i :: i in s.live && i != s.cur ==> InStack(ts[i], ReadCtx(s.m, ts[i].ctx).rsp))
  }

  // Live thread t does not run; its context, its stack from word x.rsp on and its user stack
  // are as recorded.
  ghost predicate Frozen(ts: seq<Thr>, s: Sys, t: nat, x: Ctx, stack: Mem) {
    && t in s.live && t < |ts| && s.cur != t && ReadCtx(s.m, ts[t].ctx) == x
    && forall b: nat :: HeldBy(ts[t], true, x.rsp, b) && !InCtx(ts[t], b) ==> Rd(s.m, b) == Rd(stack, b)
  }

  // ---- one switch -----------------------------------------------------------------------

  // The effect of a switch on a word of a live thread.
  lemma SwitchWord(c: Code, ts: seq<Thr>, s: Sys, to: nat, ret: nat, s': Sys, i: nat, b: nat)
    requires Next(c, ts, s, Switch(to, ret), s') && i in s.live && i < |ts| && !InCtx(ts[s.cur], b)
    requires HeldBy(ts[i], i == s.cur, s.r.rsp - 1, b)
    requires HeldBy(ts[i], i == to, ReadCtx(s.m, ts[to].ctx).rsp, b) && b != ReadCtx(s.m, ts[to].ctx).rsp
    ensures Rd(s'.m, b) == if b == s.r.rsp - 1 then ret else Rd(s.m, b)
  {
    hide ReadCtx;
    assert Held(ts, s.live, s.cur, s.r.rsp - 1, b);
    assert Held(ts, s.live, to, ReadCtx(s.m, ts[to].ctx).rsp, b);
  }

  // Words of a live thread that neither gives up the CPU nor gets it.
  lemma OtherWord(c: Code, ts: seq<Thr>, s: Sys, to: nat, ret: nat, s': Sys, i: nat, b: nat)
    requires Apart(ts) && SpOk(ts, s) && Next(c, ts, s, Switch(to, ret), s')
    requires i in s.live && i < |ts| && i != s.cur
    requires InCtx(ts[i], b) || (i != to && Mine(ts[i], b))
    ensures Rd(s'.m, b) == Rd(s.m, b)
  {
    hide ReadCtx, Held;
    var slot := ReadCtx(s.m, ts[to].ctx).rsp;
    assert InStack(ts[s.cur], s.r.rsp - 1) && InStack(ts[to], slot);
    assert Mine(ts[s.cur], s.r.rsp - 1) && Mine(ts[to], slot);
    assert InCtx(ts[i], b) ==> !Mine(ts[s.cur], b) && !Mine(ts[to], b) && !InCtx(ts[s.cur], b);
    assert Mine(ts[i], b) ==> !InCtx(ts[s.cur], b) && !Mine(ts[s.cur], b);
    SwitchWord(c, ts, s, to, ret, s', i, b);
  }

  lemma OtherCtx(c: Code, ts: seq<Thr>, s: Sys, to: nat, ret: nat, s': Sys, i: nat)
    requires Apart(ts) && SpOk(ts, s) && Next(c, ts, s, Switch(to, ret), s')
    requires i in s.live && i < |ts| && i != s.cur
    ensures ReadCtx(s'.m, ts[i].ctx) == ReadCtx(s.m, ts[i].ctx)
  {
    hide ReadCtx, SpOk, Next;
    forall b: nat | InCtx(ts[i], b) ensures Rd(s'.m, b) == Rd(s.m, b) {
      OtherWord(c, ts, s, to, ret, s', i, b);
    }
    SameCtx(s'.m, s.m, ts[i].ctx);
  }

  lemma OwnApart(ts: seq<Thr>, t: nat, a: nat)
    requires Apart(ts) && t < |ts| && InStack(ts[t], a)
    ensures !InUser(ts[t], a)
  {
  }

  // ---- one creation -----------------------------------------------------------------------

  // Creating a thread changes no word of a live one.
  lemma CreateWord(c: Code, ts: seq<Thr>, s: Sys, a: Act, s': Sys, i: nat, b: nat)
    requires Apart(ts) && a.Create? && Next(c, ts, s, a, s')
    requires i in s.live && i < |ts| && (InCtx(ts[i], b) || Mine(ts[i], b))
    ensures Rd(s'.m, b) == Rd(s.m, b)
  {
    var t := a.t;
    assert !InCtx(ts[t], b) && !Mine(ts[t], b);
    assert InStack(ts[t], ts[t].hi - 1);
    if a.user { assert InUser(ts[t], ts[t].uhi - 1); }
  }

  lemma CreateCtx(c: Code, ts: seq<Thr>, s: Sys, a: Act, s': Sys, i: nat)
    requires Apart(ts) && a.Create? && Next(c, ts, s, a, s') && i in s.live && i < |ts|
    ensures ReadCtx(s'.m, ts[i].ctx) == ReadCtx(s.m, ts[i].ctx)
  {
    hide ReadCtx, Next;
    forall b: nat | InCtx(ts[i], b) ensures Rd(s'.m, b) == Rd(s.m, b) {
      CreateWord(c, ts, s, a, s', i, b);
    }
    SameCtx(s'.m, s.m, ts[i].ctx);
  }

  // The new thread is frozen before its first instruction.
  lemma CreateFreezes(c: Code, ts: seq<Thr>, s: Sys, a: Act, s': Sys)
    requires SpOk(ts, s) && a.Create? && Next(c, ts, s, a, s')
    ensures Frozen(ts, s', a.t, FreshCtx(c, ts[a.t], a.user, a.func, a.arg), s'.m)
  {
    hide ReadCtx;
  }

  // ---- the steps as code -----------------------------------------------------------------

  ghost function HeldWords(ts: seq<Thr>, live: set<nat>, t: nat, sp: int): iset<nat> {
    iset b: nat | Held(ts, live, t, sp, b)
  }

  /** The instructions of swtch, called by the running thread and interrupted between any two of
      them by traps on the stack of the moment, make a switch. */
  method CallSwtch(cpu: Cpu, from: nat, into: nat, ret: nat, w: nat -> Mem, ghost c: Code, ghost ts: seq<Thr>, ghost s: Sys,
                   ghost to: nat)
    requires Apart(ts) && SpOk(ts, s) && Enabled(ts, s, Switch(to, ret)) && cpu.r == s.r && cpu.m == s.m
    requires from == ts[s.cur].ctx && into == ts[to].ctx
    requires forall i :: Spared(w(i), if i < 18 then HeldWords(ts, s.live, s.cur, s.r.rsp - 1)
                                      else HeldWords(ts, s.live, to, ReadCtx(s.m, into).rsp))
    modifies cpu
    ensures Next(c, ts, s, Switch(to, ret), Sys(to, s.live, cpu.r, cpu.m))
  {
    hide ReadCtx, Held;
    ghost var slot := ReadCtx(s.m, into).rsp;
    ghost var keep := HeldWords(ts, s.live, s.cur, s.r.rsp - 1);
    ghost var keep' := HeldWords(ts, s.live, to, slot);
    CtxHeld(ts, s, s.cur, s.cur, s.r.rsp - 1);
    CtxHeld(ts, s, to, s.cur, s.r.rsp - 1);
    CtxHeld(ts, s, s.cur, to, slot);
    CtxHeld(ts, s, to, to, slot);
    SwitchPlaces(ts, s, to, ret);
    cpu.r := cpu.r.(rdi := from, rsi := into, rsp := cpu.r.rsp - 1);
    cpu.m := cpu.m[cpu.r.rsp := ret];
    SameCtx(cpu.m, s.m, into);
    cpu.Swtch(w, keep, keep');
  }

  lemma CtxHeld(ts: seq<Thr>, s: Sys, i: nat, t: nat, sp: int)
    requires i in s.live && i < |ts|
    ensures CtxIn(ts[i].ctx, HeldWords(ts, s.live, t, sp))
  {
    forall b: nat | ts[i].ctx <= b < ts[i].ctx + CTX_WORDS ensures b in HeldWords(ts, s.live, t, sp) {
      assert HeldBy(ts[i], i == t, sp, b);
    }
  }

  // The two contexts and the two stack slots of a switch are apart, and no trap touches the slots.
  lemma SwitchPlaces(ts: seq<Thr>, s: Sys, to: nat, ret: nat)
    requires Apart(ts) && SpOk(ts, s) && Enabled(ts, s, Switch(to, ret))
    ensures var from, into, sp := ts[s.cur].ctx, ts[to].ctx, s.r.rsp - 1;
            var slot := ReadCtx(s.m, into).rsp;
            && (from + CTX_WORDS <= into || into + CTX_WORDS <= from)
            && !(from <= sp < from + CTX_WORDS) && !(into <= sp < into + CTX_WORDS) && !(from <= slot < from + CTX_WORDS)
            && Held(ts, s.live, s.cur, sp, sp) && Held(ts, s.live, s.cur, sp, slot) && Held(ts, s.live, to, slot, slot)
  {
    hide ReadCtx;
    var from, into, sp := ts[s.cur], ts[to], s.r.rsp - 1;
    var slot := ReadCtx(s.m, into.ctx).rsp;
    assert InStack(from, sp) && InStack(into, slot);
    assert Mine(from, sp) && Mine(into, slot);
    assert !InCtx(from, sp) && !InCtx(into, sp) && !InCtx(from, slot);
    assert InCtx(from, from.ctx) && InCtx(into, into.ctx);
    assert HeldBy(from, true, sp, sp) && HeldBy(into, false, sp, slot) && HeldBy(into, true, slot, slot);
  }

  /** The stores of spawn and spawnuser make a creation. */
  method CallSpawn(bd: Builder, t: Thr, user: bool, func: nat, arg: nat, c: Code, ghost ts: seq<Thr>, ghost s: Sys, ghost i: nat)
    requires Apart(ts) && Enabled(ts, s, Create(i, user, func, arg, s.r)) && bd.m == s.m && t == ts[i]
    modifies bd
    ensures Next(c, ts, s, Create(i, user, func, arg, s.r), Sys(s.cur, s.live + {i}, s.r, bd.m))
  {
    hide BuiltKernel, BuiltUser;
    CreatePlaces(ts, i, user);
    if user {
      bd.SpawnUser(c, t.ctx, t.lo, t.ulo, func, arg);
    } else {
      bd.SpawnKernel(c, t.ctx, t.lo, func, arg);
    }
  }

  lemma CreatePlaces(ts: seq<Thr>, i: nat, user: bool)
    requires Apart(ts) && i < |ts| && ts[i].hi == ts[i].lo + KSTACK_WORDS && (user ==> ts[i].uhi == ts[i].ulo + USTACK_WORDS)
    ensures var t := ts[i];
            && (t.ctx + CTX_WORDS <= t.lo || t.hi <= t.ctx)
            && (user ==> (t.ctx + CTX_WORDS <= t.ulo || t.uhi <= t.ctx) && (t.hi <= t.ulo || t.uhi <= t.lo))
  {
    var t := ts[i];
    assert InCtx(t, t.ctx) && InStack(t, t.lo);
    assert !InStack(t, t.ctx) && !InCtx(t, t.lo) by { assert !Mine(t, t.ctx) && Mine(t, t.lo); }
    if user {
      assert InUser(t, t.ulo);
      assert !InUser(t, t.ctx) && !InCtx(t, t.ulo) by { assert !Mine(t, t.ctx) && Mine(t, t.ulo); }
      assert !InUser(t, t.lo) && !InStack(t, t.ulo);
    }
  }

  // ---- the invariant -----------------------------------------------------------------------

  lemma SpOkStep(c: Code, ts: seq<Thr>, s: Sys, a: Act, s': Sys)
    requires Apart(ts) && SpOk(ts, s) && Next(c, ts, s, a, s')
    ensures SpOk(ts, s')
  {
    hide Held, BuiltUser, BuiltKernel;
    if a.Create? { CreateFreezes(c, ts, s, a, s'); }
    forall i | i in s'.live && i != s'.cur ensures InStack(ts[i], ReadCtx(s'.m, ts[i].ctx).rsp) {
      match a
      case Compute(_, _) =>
        SameCtx(s'.m, s.m, ts[i].ctx) by { ComputeCtx(c, ts, s, a, s', i); }
      case Switch(to, ret) =>
        if i != s.cur { OtherCtx(c, ts, s, to, ret, s', i); }
      case Create(t, _, _, _, _) =>
        if i != t { CreateCtx(c, ts, s, a, s', i); }
    }
  }

  lemma ComputeCtx(c: Code, ts: seq<Thr>, s: Sys, a: Act, s': Sys, i: nat)
    requires a.Compute? && Next(c, ts, s, a, s') && i in s.live && i < |ts|
    ensures forall b: nat :: ts[i].ctx <= b < ts[i].ctx + CTX_WORDS ==> Rd(s'.m, b) == Rd(s.m, b)
  {
    forall b: nat | ts[i].ctx <= b < ts[i].ctx + CTX_WORDS ensures Rd(s'.m, b) == Rd(s.m, b) {
      assert InCtx(ts[i], b);
    }
  }

  /** A frozen thread stays frozen until it is switched to: no other thread's computing,
      switching or creating changes its context or its stacks. */
  lemma FrozenStep(c: Code, ts: seq<Thr>, s: Sys, a: Act, s': Sys, t: nat, x: Ctx, stack: Mem)
    requires Apart(ts) && SpOk(ts, s) && Next(c, ts, s, a, s') && Frozen(ts, s, t, x, stack)
    requires a.Switch? ==> a.to != t
    ensures Frozen(ts, s', t, x, stack)
  {
    hide Held, BuiltUser, BuiltKernel, ReadCtx;
    match a
    case Compute(_, _) =>
      SameCtx(s'.m, s.m, ts[t].ctx) by { ComputeCtx(c, ts, s, a, s', t); }
      forall b: nat | Mine(ts[t], b) ensures Rd(s'.m, b) == Rd(s.m, b) {
      }
    case Switch(to, ret) =>
      OtherCtx(c, ts, s, to, ret, s', t);
      forall b: nat | Mine(ts[t], b) ensures Rd(s'.m, b) == Rd(s.m, b) {
        OtherWord(c, ts, s, to, ret, s', t, b);
      }
    case Create(_, _, _, _, _) =>
      CreateCtx(c, ts, s, a, s', t);
      forall b: nat | Mine(ts[t], b) ensures Rd(s'.m, b) == Rd(s.m, b) {
        CreateWord(c, ts, s, a, s', t, b);
      }
  }

  // Switching away freezes what the thread had when it called swtch.
  lemma Freezes(c: Code, ts: seq<Thr>, s: Sys, to: nat, ret: nat, s': Sys)
    requires Apart(ts) && SpOk(ts, s) && Next(c, ts, s, Switch(to, ret), s')
    ensures Frozen(ts, s', s.cur, CallerCtx(ts[s.cur], s.r, ret), s.m[s.r.rsp - 1 := ret])
  {
    hide ReadCtx, Held;
    var t := s.cur;
    assert InStack(ts[to], ReadCtx(s.m, ts[to].ctx).rsp);
    forall b: nat | HeldBy(ts[t], true, s.r.rsp - 1, b) && !InCtx(ts[t], b)
      ensures Rd(s'.m, b) == Rd(s.m[s.r.rsp - 1 := ret], b)
    {
      assert Mine(ts[t], b) && !Mine(ts[to], b);
      SwitchWord(c, ts, s, to, ret, s', t, b);
    }
  }

  // Switching back finds it.
  lemma Thaws(c: Code, ts: seq<Thr>, s: Sys, t: nat, ret: nat, s': Sys, x: Ctx, stack: Mem)
    requires Apart(ts) && SpOk(ts, s) && Next(c, ts, s, Switch(t, ret), s') && Frozen(ts, s, t, x, stack)
    ensures Resumed(s'.r, x)
    ensures forall b: nat :: Mine(ts[t], b) && (InStack(ts[t], b) ==> b > x.rsp) ==> Rd(s'.m, b) == Rd(stack, b)
  {
    hide ReadCtx, Held;
    assert InStack(ts[s.cur], s.r.rsp - 1) && InStack(ts[t], x.rsp);
    forall b: nat | Mine(ts[t], b) && (InStack(ts[t], b) ==> b > x.rsp) ensures Rd(s'.m, b) == Rd(stack, b) {
      assert !InCtx(ts[s.cur], b) && !Mine(ts[s.cur], b) && b != x.rsp;
      assert HeldBy(ts[t], true, x.rsp, b) && !InCtx(ts[t], b);
      SwitchWord(c, ts, s, t, ret, s', t, b);
    }
  }

  // ---- runs -----------------------------------------------------------------------------

  ghost predicate Run(c: Code, ts: seq<Thr>, tr: seq<Sys>, acts: seq<Act>) {
    && |tr| == |acts| + 1
    && forall j {:trigger acts[j]} :: 0 <= j < |acts| ==> Next(c, ts, tr[j], acts[j], tr[j + 1])
  }

  lemma {:induction false} RunSpOk(c: Code, ts: seq<Thr>, tr: seq<Sys>, acts: seq<Act>, j: nat)
    requires Apart(ts) && Run(c, ts, tr, acts) && SpOk(ts, tr[0]) && j < |tr|
    ensures SpOk(ts, tr[j])
  {
    hide SpOk, Next, Apart;
    if j > 0 {
      RunSpOk(c, ts, tr, acts, j - 1);
      assert acts[j - 1] in acts;
      SpOkStep(c, ts, tr[j - 1], acts[j - 1], tr[j]);
    }
  }

  // Thread t is not switched to at steps i to j-1.
  ghost predicate NotChosen(acts: seq<Act>, i: nat, j: nat, t: nat)
    requires j <= |acts|
  {
    forall k :: i <= k < j && acts[k].Switch? ==> acts[k].to != t
  }

  lemma {:induction false} RunFrozen(c: Code, ts: seq<Thr>, tr: seq<Sys>, acts: seq<Act>, i: nat, j: nat, t: nat, x: Ctx,
                                     stack: Mem)
    requires Apart(ts) && Run(c, ts, tr, acts) && SpOk(ts, tr[0]) && i <= j < |tr|
    requires Frozen(ts, tr[i], t, x, stack) && NotChosen(acts, i, j, t)
    ensures Frozen(ts, tr[j], t, x, stack)
    decreases j - i
  {
    hide SpOk, Next, Frozen, Apart;
    if i < j {
      RunFrozen(c, ts, tr, acts, i, j - 1, t, x, stack);
      RunSpOk(c, ts, tr, acts, j - 1);
      assert acts[j - 1] in acts;
      FrozenStep(c, ts, tr[j - 1], acts[j - 1], tr[j], t, x, stack);
    }
  }

  // A thread frozen at i and next chosen at j resumes as it was frozen.
  lemma RunThaws(c: Code, ts: seq<Thr>, tr: seq<Sys>, acts: seq<Act>, i: nat, j: nat, t: nat, x: Ctx, stack: Mem)
    requires Apart(ts) && Run(c, ts, tr, acts) && SpOk(ts, tr[0]) && i <= j < |acts|
    requires Frozen(ts, tr[i], t, x, stack) && NotChosen(acts, i, j, t) && acts[j].Switch? && acts[j].to == t
    ensures Resumed(tr[j + 1].r, x) && t < |ts| && tr[j + 1].cur == t && t in tr[j + 1].live
    ensures forall b: nat :: Mine(ts[t], b) && (InStack(ts[t], b) ==> b > x.rsp) ==> Rd(tr[j + 1].m, b) == Rd(stack, b)
  {
    hide Apart, SpOk, Held, Frozen, ReadCtx;
    assert acts[j] in acts;
    RunFrozen(c, ts, tr, acts, i, j, t, x, stack);
    RunSpOk(c, ts, tr, acts, j);
    Thaws(c, ts, tr[j], t, acts[j].ret, tr[j + 1], x, stack);
    FrozenIn(ts, tr[j], t, x, stack);
  }

  lemma FrozenIn(ts: seq<Thr>, s: Sys, t: nat, x: Ctx, stack: Mem)
    requires Frozen(ts, s, t, x, stack)
    ensures t < |ts| && t in s.live
  {
  }

  /** Non-interference: over any run, threads being created in it or not, a thread that calls
      swtch at step i and is next switched to at step j goes on at its return address with the
      rsp, rbp, rbx and r12 to r15 it had, and with its stacks as it left them. */
  lemma ResumesExactly(c: Code, ts: seq<Thr>, tr: seq<Sys>, acts: seq<Act>, i: nat, j: nat)
    requires Apart(ts) && Run(c, ts, tr, acts) && SpOk(ts, tr[0]) && i < j < |acts|
    requires acts[i].Switch? && acts[j].Switch? && acts[j].to == tr[i].cur && NotChosen(acts, i + 1, j, tr[i].cur)
    ensures var before, after := tr[i].r, tr[j + 1].r;
            && after.rip == acts[i].ret && after.rsp == before.rsp && after.rbp == before.rbp && after.rbx == before.rbx
            && after.r12 == before.r12 && after.r13 == before.r13 && after.r14 == before.r14 && after.r15 == before.r15
            && tr[i].cur < |ts|
            && forall b: nat :: HeldBy(ts[tr[i].cur], true, before.rsp, b) && !InCtx(ts[tr[i].cur], b) ==>
                 Rd(tr[j + 1].m, b) == Rd(tr[i].m, b)
  {
    hide Apart, Frozen, SpOk, ReadCtx, Held;
    var t, r, ret := tr[i].cur, tr[i].r, acts[i].ret;
    assert acts[i] in acts && Next(c, ts, tr[i], acts[i], tr[i + 1]);
    var x, stack := CallerCtx(ts[t], r, ret), tr[i].m[r.rsp - 1 := ret];
    RunSpOk(c, ts, tr, acts, i);
    Freezes(c, ts, tr[i], acts[i].to, ret, tr[i + 1]);
    RunThaws(c, ts, tr, acts, i + 1, j, t, x, stack);
    OwnApart(ts, t, r.rsp - 1);
    forall b: nat | HeldBy(ts[t], true, r.rsp, b) && !InCtx(ts[t], b) ensures Rd(tr[j + 1].m, b) == Rd(tr[i].m, b) {
      if InUser(ts[t], b) { OwnUser(ts, t, b); }
      assert Mine(ts[t], b) && b != r.rsp - 1;
    }
  }

  // ---- a thread's life ------------------------------------------------------------------

  // From step i to step k, thread t obeys the calling convention for word b of its stacks: its
  // own code does not write it, and calls swtch with the stack pointer at or below it.
  ghost predicate KeepsWord(ts: seq<Thr>, tr: seq<Sys>, acts: seq<Act>, i: nat, k: nat, t: nat, b: nat)
    requires |tr| == |acts| + 1 && k < |tr| && t < |ts|
  {
    forall n {:trigger acts[n]} :: i <= n < k && tr[n].cur == t ==>
      && (acts[n].Compute? ==> Rd(acts[n].m, b) == Rd(tr[n].m, b))
      && (acts[n].Switch? && InStack(ts[t], b) ==> tr[n].r.rsp <= b)
  }

  // Word b of live thread t, and what protects it while t does not run.
  ghost predicate WordSafe(ts: seq<Thr>, s: Sys, t: nat, b: nat, v: nat)
    requires t < |ts|
  {
    && t in s.live && Rd(s.m, b) == v
    && (s.cur != t && InStack(ts[t], b) ==> ReadCtx(s.m, ts[t].ctx).rsp < b)
  }

  lemma WordStep(c: Code, ts: seq<Thr>, s: Sys, a: Act, s': Sys, t: nat, b: nat, v: nat)
    requires Apart(ts) && SpOk(ts, s) && Next(c, ts, s, a, s') && t < |ts| && Mine(ts[t], b) && WordSafe(ts, s, t, b, v)
    requires s.cur == t && a.Compute? ==> Rd(a.m, b) == Rd(s.m, b)
    requires s.cur == t && a.Switch? && InStack(ts[t], b) ==> s.r.rsp <= b
    ensures WordSafe(ts, s', t, b, v)
  {
    hide Held, BuiltUser, BuiltKernel, ReadCtx;
    match a
    case Compute(_, _) =>
      SameCtx(s'.m, s.m, ts[t].ctx) by { ComputeCtx(c, ts, s, a, s', t); }
    case Create(_, _, _, _, _) =>
      CreateCtx(c, ts, s, a, s', t);
      CreateWord(c, ts, s, a, s', t, b);
    case Switch(to, ret) =>
      var slot := ReadCtx(s.m, ts[to].ctx).rsp;
      assert InStack(ts[s.cur], s.r.rsp - 1) && InStack(ts[to], slot);
      OwnApart(ts, s.cur, s.r.rsp - 1);
      OwnApart(ts, to, slot);
      assert Mine(ts[s.cur], s.r.rsp - 1) && Mine(ts[to], slot);
      assert !InCtx(ts[s.cur], b);
      SwitchWord(c, ts, s, to, ret, s', t, b);
      if t != s.cur { OtherCtx(c, ts, s, to, ret, s', t); }
  }

  lemma {:induction false} RunWord(c: Code, ts: seq<Thr>, tr: seq<Sys>, acts: seq<Act>, i: nat, k: nat, t: nat, b: nat, v: nat)
    requires Apart(ts) && Run(c, ts, tr, acts) && SpOk(ts, tr[0]) && i <= k < |tr| && t < |ts|
    requires Mine(ts[t], b) && WordSafe(ts, tr[i], t, b, v) && KeepsWord(ts, tr, acts, i, k, t, b)
    ensures WordSafe(ts, tr[k], t, b, v)
    decreases k - i
  {
    hide SpOk, Next, Apart, WordSafe;
    if i < k {
      RunWord(c, ts, tr, acts, i, k - 1, t, b, v);
      RunSpOk(c, ts, tr, acts, k - 1);
      assert acts[k - 1] in acts;
      WordStep(c, ts, tr[k - 1], acts[k - 1], tr[k], t, b, v);
    }
  }

  // ret, and the code of spawnret and of spawnuserret with usysexit's first instruction
  function Ret(r: Regs, m: Mem): Regs { r.(rip := Rd(m, r.rsp), rsp := r.rsp + 1) }

  function Spawnret(c: Code, r: Regs): Regs { r.(rdi := r.rax, rip := c.exit) }

  function Usysexit(r: Regs): Regs { r.(rdi := r.rax, rax := SYS_EXIT) }

  // What the first switch to thread t, created at step i and first chosen at step j, finds.
  lemma FirstRun(c: Code, ts: seq<Thr>, tr: seq<Sys>, acts: seq<Act>, i: nat, j: nat)
    requires Apart(ts) && Run(c, ts, tr, acts) && SpOk(ts, tr[0]) && i < j < |acts|
    requires acts[i].Create? && acts[j].Switch? && acts[j].to == acts[i].t && NotChosen(acts, i + 1, j, acts[i].t)
    ensures var t := acts[i].t;
            && t < |ts| && tr[j + 1].cur == t && t in tr[j + 1].live && Next(c, ts, tr[i], acts[i], tr[i + 1])
            && ts[t].hi > TF_WORDS
            && var x := FreshCtx(c, ts[t], acts[i].user, acts[i].func, acts[i].arg);
               && Resumed(tr[j + 1].r, x)
               && forall b: nat :: Mine(ts[t], b) && (InStack(ts[t], b) ==> b > x.rsp) ==>
                    Rd(tr[j + 1].m, b) == Rd(tr[i + 1].m, b)
  {
    hide Apart, SpOk, Held, Frozen, ReadCtx, BuiltKernel, BuiltUser;
    assert acts[i] in acts;
    RunSpOk(c, ts, tr, acts, i);
    CreateFreezes(c, ts, tr[i], acts[i], tr[i + 1]);
    RunThaws(c, ts, tr, acts, i + 1, j, acts[i].t, FreshCtx(c, ts[acts[i].t], acts[i].user, acts[i].func, acts[i].arg), tr[i + 1].m);
  }

  /** The life of a kernel thread that spawn creates at step i and that is first chosen at step j,
      whatever runs before: it enters func with its argument, on its own empty stack, spawnret
      being the return address; and when func returns, at any later step, its result reaches
      exit as the argument. */
  lemma KernelThread(c: Code, ts: seq<Thr>, tr: seq<Sys>, acts: seq<Act>, i: nat, j: nat, k: nat)
    requires Apart(ts) && Run(c, ts, tr, acts) && SpOk(ts, tr[0]) && i < j < k < |tr|
    requires acts[i].Create? && !acts[i].user
    requires acts[j].Switch? && acts[j].to == acts[i].t && NotChosen(acts, i + 1, j, acts[i].t)
    ensures acts[i].t < |ts|
    ensures var t, r := ts[acts[i].t], tr[j + 1].r;
            && r.rip == acts[i].func && r.rdi == acts[i].arg && r.rsp == t.hi - 1 && r.rbp == t.hi
            && r.rbx == 0 && r.r12 == 0 && r.r13 == 0 && r.r14 == 0 && r.r15 == 0
            && Rd(tr[j + 1].m, r.rsp) == c.spawnret
    ensures var t, r := ts[acts[i].t], tr[k].r;
            tr[k].cur == acts[i].t && r.rsp == t.hi - 1 && KeepsWord(ts, tr, acts, j + 1, k, acts[i].t, t.hi - 1) ==>
              var back := Ret(r, tr[k].m);
              && back.rip == c.spawnret
              && Spawnret(c, back).rip == c.exit && Spawnret(c, back).rdi == r.rax && Spawnret(c, back).rsp == t.hi
  {
    hide Apart, SpOk, Held, ReadCtx, KeepsWord;
    FirstRun(c, ts, tr, acts, i, j);
    var t := acts[i].t;
    var top := ts[t].hi - 1;
    assert InStack(ts[t], top) && Mine(ts[t], top);
    if tr[k].cur == t && tr[k].r.rsp == top && KeepsWord(ts, tr, acts, j + 1, k, t, top) {
      RunWord(c, ts, tr, acts, j + 1, k, t, top, c.spawnret);
    }
  }

  /** The life of a user thread: its first dispatch goes to trapret, whose pops and iretq enter
      user mode at func with interrupts on, its argument in rdi, every other general register
      zero, and the user stack holding just spawnuserret; and when func returns, at any later
      step, the exit system call finds its result in the frame. */
  lemma UserThread(c: Code, ts: seq<Thr>, tr: seq<Sys>, acts: seq<Act>, i: nat, j: nat, k: nat)
    requires Apart(ts) && Run(c, ts, tr, acts) && SpOk(ts, tr[0]) && i < j < k < |tr|
    requires acts[i].Create? && acts[i].user
    requires acts[j].Switch? && acts[j].to == acts[i].t && NotChosen(acts, i + 1, j, acts[i].t)
    ensures acts[i].t < |ts| && ts[acts[i].t].uhi >= 1
    ensures var t, s := ts[acts[i].t], tr[j + 1];
            && s.r.rip == c.trapret && s.r.rsp == t.hi - TF_WORDS && s.r.rbp == t.hi
            && var x := Restored(TfAt(s.m, s.r.rsp));
               && x.r == Regs(0, 0, 0, 0, 0, acts[i].arg, 0, t.uhi - 1, 0, 0, 0, 0, 0, 0, 0, 0, acts[i].func)
               && x.cs / 8 == 4 && x.cs % 8 == 3 && x.ss / 8 == 5 && x.ss % 8 == 3 && IfSet(x.rflags)
               && Rd(s.m, x.r.rsp) == c.spawnuserret
    ensures var t, r := ts[acts[i].t], tr[k].r;
            tr[k].cur == acts[i].t && r.rsp == t.uhi - 1 && KeepsWord(ts, tr, acts, j + 1, k, acts[i].t, t.uhi - 1) ==>
              var back := Ret(r, tr[k].m);
              && back.rip == c.spawnuserret
              && forall x: Machine, trapno, err :: x.r == Usysexit(back) ==>
                   Interrupted(x, trapno, err).rax == SYS_EXIT && Interrupted(x, trapno, err).rdi == r.rax
  {
    hide Apart, SpOk, Held, ReadCtx, KeepsWord, TfAt;
    FirstRun(c, ts, tr, acts, i, j);
    var t := acts[i].t;
    var top, usp := ts[t].hi - TF_WORDS, ts[t].uhi - 1;
    assert InUser(ts[t], usp) && Mine(ts[t], usp);
    OwnUser(ts, t, usp);
    StackTf(ts[t], tr[i + 1].m, tr[j + 1].m, top);
    if tr[k].cur == t && tr[k].r.rsp == usp && KeepsWord(ts, tr, acts, j + 1, k, t, usp) {
      RunWord(c, ts, tr, acts, j + 1, k, t, usp, c.spawnuserret);
    }
  }

  // A frame on a stack that is the same from its first word on.
  lemma StackTf(t: Thr, m: Mem, m': Mem, a: nat)
    requires t.lo <= a && a + TF_WORDS <= t.hi
    requires forall b: nat :: Mine(t, b) && (InStack(t, b) ==> b > a - 1) ==> Rd(m', b) == Rd(m, b)
    ensures TfAt(m', a) == TfAt(m, a)
  {
    hide TfAt;
    assert forall b: nat :: InStack(t, b) && b >= a ==> Mine(t, b);
    SameTf(m, m', a);
  }

  lemma OwnUser(ts: seq<Thr>, t: nat, a: nat)
    requires Apart(ts) && t < |ts| && InUser(ts[t], a)
    ensures !InStack(ts[t], a)
  {
  }
}
