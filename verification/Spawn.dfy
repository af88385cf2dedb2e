// The frames that spawn and spawnuser build by hand. Addresses count 8-byte words.
module Spawn {
  import opened Context
  import opened TrapFrame

  const KSTACK_WORDS: nat := 512
  const USTACK_WORDS: nat := 512
  const UCODE: nat := 35                        // (SEG_UCODE << 3) | DPL_USER
  const UDATA: nat := 43                        // (SEG_UDATA << 3) | DPL_USER

  // Addresses of code.
  datatype Code = Code(spawnret: nat, trapret: nat, spawnuserret: nat, exit: nat)

  // The context of a fresh kernel thread with stack top `top`.
  function KernelCtx(top: nat, func: nat, arg: nat): Ctx
    requires top >= 2
  {
    Ctx(0, 0, 0, 0, 0, top, func, top - 2, arg)
  }

  function UserCtx(c: Code, top: nat): Ctx
    requires top > TF_WORDS
  {
    Ctx(0, 0, 0, 0, 0, top, c.trapret, top - TF_WORDS - 1, 0)
  }

  // The frame of a fresh user thread.
  function UserTf(func: nat, arg: nat, usp: nat): Tf {
    Tf(0, 0, 0, 0, 0, 0, arg, 0, 0, 0, 0, 0, 0, 0, 0, 0, 0, func, UCODE, FL_IF, usp, UDATA)
  }

  const ZERO_CTX := Ctx(0, 0, 0, 0, 0, 0, 0, 0, 0)

  function ZeroRange(m: Mem, a: nat, n: nat): (m': Mem)
    ensures forall b: nat :: Rd(m', b) == if a <= b < a + n then 0 else Rd(m, b)
    decreases n
  {
    if n == 0 then m else ZeroRange(m[a := 0], a + 1, n - 1)
  }

  // Storing one field of a context.
  lemma StoreCtx(m: Mem, a: nat, v: nat)
    ensures ReadCtx(m[a + 5 := v], a) == ReadCtx(m, a).(rbp := v)
    ensures ReadCtx(m[a + 6 := v], a) == ReadCtx(m, a).(rip := v)
    ensures ReadCtx(m[a + 7 := v], a) == ReadCtx(m, a).(rsp := v)
    ensures ReadCtx(m[a + 8 := v], a) == ReadCtx(m, a).(rdi := v)
  {
  }

  lemma StoreElsewhere(m: Mem, a: nat, b: nat, v: nat)
    requires !(a <= b < a + CTX_WORDS)
    ensures ReadCtx(m[b := v], a) == ReadCtx(m, a)
  {
  }

  lemma RspField(m: Mem, a: nat)
    ensures Rd(m, a + 7) == ReadCtx(m, a).rsp
  {
  }

  const ZERO_TF := Tf(0, 0, 0, 0, 0, 0, 0, 0, 0, 0, 0, 0, 0, 0, 0, 0, 0, 0, 0, 0, 0, 0)

  // The frame with one of the fields that spawnuser sets replaced.
  function With(t: Tf, k: nat, v: nat): Tf {
    match k
    case 6 => t.(rdi := v)
    case 17 => t.(rip := v)
    case 18 => t.(cs := v)
    case 19 => t.(rflags := v)
    case 20 => t.(rsp := v)
    case 21 => t.(ss := v)
    case _ => t
  }

  lemma WithField(t: Tf, k: nat, v: nat, j: nat)
    requires k == 6 || 17 <= k <= 21
    ensures j < TF_WORDS ==> Field(With(t, k, v), j) == if j == k then v else Field(t, j)
  {
  }

  lemma StoreField(m: Mem, a: nat, t: Tf, k: nat, v: nat)
    requires FieldsFrom(m, a, t, 0) && (k == 6 || 17 <= k <= 21)
    ensures FieldsFrom(m[a + k := v], a, With(t, k, v), 0)
  {
    hide Field, With;
    forall j: nat | j < TF_WORDS ensures Rd(m[a + k := v], a + j) == Field(With(t, k, v), j) {
      WithField(t, k, v, j);
    }
  }

  lemma FieldsKept(m: Mem, a: nat, t: Tf, b: nat, v: nat)
    requires FieldsFrom(m, a, t, 0) && !(a <= b < a + TF_WORDS)
    ensures FieldsFrom(m[b := v], a, t, 0)
  {
    hide Field;
  }

  lemma ZeroFields(m: Mem, a: nat)
    requires forall b: nat :: a <= b < a + TF_WORDS ==> Rd(m, b) == 0
    ensures FieldsFrom(m, a, ZERO_TF, 0)
  {
  }

  // What spawn leaves in memory for a thread with context ctx and kernel stack top `top`; and
  // that it changes nothing else.
  ghost predicate BuiltKernel(c: Code, ctx: nat, top: nat, func: nat, arg: nat, m: Mem, m': Mem)
    requires top >= 2
  {
    && ReadCtx(m', ctx) == KernelCtx(top, func, arg)
    && Rd(m', top - 1) == c.spawnret
    && forall b: nat :: !(ctx <= b < ctx + CTX_WORDS) && b != top - 1 ==> Rd(m', b) == Rd(m, b)
  }

  // What spawnuser leaves in memory, with usp the last word of the user stack.
  ghost predicate BuiltUser(c: Code, ctx: nat, top: nat, usp: nat, func: nat, arg: nat, m: Mem, m': Mem)
    requires top > TF_WORDS
  {
    && ReadCtx(m', ctx) == UserCtx(c, top)
    && TfAt(m', top - TF_WORDS) == UserTf(func, arg, usp)
    && Rd(m', usp) == c.spawnuserret
    && forall b: nat :: !(ctx <= b < ctx + CTX_WORDS) && !(top - TF_WORDS <= b < top) && b != usp ==> Rd(m', b) == Rd(m, b)
  }

  class Builder {
    var m: Mem

    // The stores that spawn and spawnuser begin with.
    method InitCtx(ctx: nat, rip: nat, top: nat)
      modifies this
      ensures ReadCtx(m, ctx) == Ctx(0, 0, 0, 0, 0, top, rip, top, 0)
      ensures forall b: nat :: !(ctx <= b < ctx + CTX_WORDS) ==> Rd(m, b) == Rd(old(m), b)
    {
      hide WriteCtx, ReadCtx;
      m := WriteCtx(m, ctx, ZERO_CTX);
      WroteCtx(old(m), ctx, ZERO_CTX);
      assert forall b: nat :: !(ctx <= b < ctx + CTX_WORDS) ==> Rd(m, b) == Rd(old(m), b);
      StoreCtx(m, ctx, rip);
      m := m[ctx + 6 := rip];
      StoreCtx(m, ctx, top);
      m := m[ctx + 7 := top];
      StoreCtx(m, ctx, top);
      m := m[ctx + 5 := top];
    }

    // spawn, for the slot with context ctx and kernel stack kstack
    method SpawnKernel(c: Code, ctx: nat, kstack: nat, func: nat, arg: nat)
      requires ctx + CTX_WORDS <= kstack || kstack + KSTACK_WORDS <= ctx
      modifies this
      ensures BuiltKernel(c, ctx, kstack + KSTACK_WORDS, func, arg, old(m), m)
    {
      hide ReadCtx;
      var top := kstack + KSTACK_WORDS;
      InitCtx(ctx, func, top);
      StoreCtx(m, ctx, arg);
      m := m[ctx + 8 := arg];
      RspField(m, ctx);
      StoreCtx(m, ctx, top - 1);
      m := m[ctx + 7 := Rd(m, ctx + 7) - 1];
      RspField(m, ctx);
      StoreElsewhere(m, ctx, top - 1, c.spawnret);
      m := m[Rd(m, ctx + 7) := c.spawnret];
      RspField(m, ctx);
      StoreCtx(m, ctx, top - 2);
      m := m[ctx + 7 := Rd(m, ctx + 7) - 1];
    }

    // spawnuser, for the slot with context ctx, kernel stack kstack and user stack ustack
    method SpawnUser(c: Code, ctx: nat, kstack: nat, ustack: nat, func: nat, arg: nat)
      requires ctx + CTX_WORDS <= kstack || kstack + KSTACK_WORDS <= ctx
      requires ctx + CTX_WORDS <= ustack || ustack + USTACK_WORDS <= ctx
      requires kstack + KSTACK_WORDS <= ustack || ustack + USTACK_WORDS <= kstack
      modifies this
      ensures BuiltUser(c, ctx, kstack + KSTACK_WORDS, ustack + USTACK_WORDS - 1, func, arg, old(m), m)
    {
      hide ReadCtx, TfAt;
      var top := kstack + KSTACK_WORDS;
      InitCtx(ctx, c.trapret, top);
      RoomForFrame(ctx, top);
      FillFrame(c, ctx, top - TF_WORDS, ustack, func, arg);
    }

    // Room for a zeroed trap frame and a return address below the stack pointer.
    method RoomForFrame(ctx: nat, top: nat)
      requires top > TF_WORDS && ReadCtx(m, ctx).rsp == top
      requires ctx + CTX_WORDS <= top - TF_WORDS || top <= ctx
      modifies this
      ensures ReadCtx(m, ctx) == ReadCtx(old(m), ctx).(rsp := top - TF_WORDS - 1)
      ensures forall b: nat :: top - TF_WORDS <= b < top ==> Rd(m, b) == 0
      ensures forall b: nat :: !(ctx <= b < ctx + CTX_WORDS) && !(top - TF_WORDS <= b < top) ==> Rd(m, b) == Rd(old(m), b)
    {
      hide ReadCtx;
      var tf := top - TF_WORDS;
      RspField(m, ctx);
      StoreCtx(m, ctx, tf);
      m := m[ctx + 7 := Rd(m, ctx + 7) - TF_WORDS];
      ghost var m1 := m;
      m := ZeroRange(m, tf, TF_WORDS);
      SameCtx(m, m1, ctx);
      RspField(m, ctx);
      StoreCtx(m, ctx, tf - 1);
      ghost var m2 := m;
      m := m[ctx + 7 := Rd(m, ctx + 7) - 1];
      forall b: nat | !(ctx <= b < ctx + CTX_WORDS) ensures Rd(m, b) == if tf <= b < top then 0 else Rd(old(m), b) {
        assert Rd(m2, b) == if tf <= b < tf + TF_WORDS then 0 else Rd(m1, b);
      }
    }

    // The stores into the trap frame and the user stack.
    method FillFrame(c: Code, ctx: nat, tf: nat, ustack: nat, func: nat, arg: nat)
      requires forall b: nat :: tf <= b < tf + TF_WORDS ==> Rd(m, b) == 0
      requires ctx + CTX_WORDS <= tf || tf + TF_WORDS <= ctx
      requires ctx + CTX_WORDS <= ustack || ustack + USTACK_WORDS <= ctx
      requires tf + TF_WORDS <= ustack || ustack + USTACK_WORDS <= tf
      modifies this
      ensures ReadCtx(m, ctx) == ReadCtx(old(m), ctx)
      ensures TfAt(m, tf) == UserTf(func, arg, ustack + USTACK_WORDS - 1)
      ensures Rd(m, ustack + USTACK_WORDS - 1) == c.spawnuserret
      ensures forall b: nat :: !(tf <= b < tf + TF_WORDS) && b != ustack + USTACK_WORDS - 1 ==> Rd(m, b) == Rd(old(m), b)
    {
      hide ReadCtx, FieldsFrom, Field, TfAt, With;
      ZeroFields(m, tf);
      m := FillSegments(m, tf, ustack);
      ghost var t := With(With(With(ZERO_TF, 21, UDATA), 20, ustack + USTACK_WORDS), 20, ustack + USTACK_WORDS - 1);
      FieldsKept(m, tf, t, ustack + USTACK_WORDS - 1, c.spawnuserret);
      m := m[Rd(m, tf + 20) := c.spawnuserret];
      m := FillEntry(m, tf, func, arg, t);
      assert With(With(With(With(t, 19, FL_IF), 18, UCODE), 17, func), 6, arg) == UserTf(func, arg, ustack + USTACK_WORDS - 1) by {
        WithUser(func, arg, ustack + USTACK_WORDS);
      }
      FieldsAll(m, tf, UserTf(func, arg, ustack + USTACK_WORDS - 1));
      SameCtx(m, old(m), ctx);
    }
  }

  lemma WithUser(func: nat, arg: nat, usp: nat)
    requires usp >= 1
    ensures With(With(With(With(With(With(With(ZERO_TF, 21, UDATA), 20, usp), 20, usp - 1), 19, FL_IF), 18, UCODE), 17, func), 6, arg)
            == UserTf(func, arg, usp - 1)
  {
  }

  // ss and rsp, the latter with room for the return address
  method FillSegments(m0: Mem, tf: nat, ustack: nat) returns (m: Mem)
    requires FieldsFrom(m0, tf, ZERO_TF, 0)
    ensures FieldsFrom(m, tf, With(With(With(ZERO_TF, 21, UDATA), 20, ustack + USTACK_WORDS), 20, ustack + USTACK_WORDS - 1), 0)
    ensures Rd(m, tf + 20) == ustack + USTACK_WORDS - 1 && SameOutside(m0, m, tf, tf + TF_WORDS)
  {
    hide FieldsFrom, With, Field;
    ghost var t := ZERO_TF;
    var usp := ustack + USTACK_WORDS;
    StoreField(m0, tf, t, 21, UDATA);
    m, t := m0[tf + 21 := UDATA], With(t, 21, UDATA);
    StoreField(m, tf, t, 20, usp);
    m, t := m[tf + 20 := usp], With(t, 20, usp);
    StoreField(m, tf, t, 20, usp - 1);
    m := m[tf + 20 := Rd(m, tf + 20) - 1];
  }

  // rflags, cs, rip and rdi
  method FillEntry(m0: Mem, tf: nat, func: nat, arg: nat, ghost t0: Tf) returns (m: Mem)
    requires FieldsFrom(m0, tf, t0, 0)
    ensures FieldsFrom(m, tf, With(With(With(With(t0, 19, FL_IF), 18, UCODE), 17, func), 6, arg), 0)
    ensures SameOutside(m0, m, tf, tf + TF_WORDS)
  {
    hide FieldsFrom, With, Field;
    ghost var t := t0;
    StoreField(m0, tf, t, 19, FL_IF);
    m, t := m0[tf + 19 := FL_IF], With(t, 19, FL_IF);
    StoreField(m, tf, t, 18, UCODE);
    m, t := m[tf + 18 := UCODE], With(t, 18, UCODE);
    StoreField(m, tf, t, 17, func);
    m, t := m[tf + 17 := func], With(t, 17, func);
    StoreField(m, tf, t, 6, arg);
    m := m[tf + 6 := arg];
  }
}
