// trapasm.S and the trap frames it builds. Addresses count 8-byte words.
module TrapFrame {
  import opened Arch
  import opened Context

  // struct trapframe
  datatype Tf = Tf(rax: nat, rbx: nat, rcx: nat, rdx: nat, rbp: nat, rsi: nat, rdi: nat, r8: nat, r9: nat, r10: nat,
                   r11: nat, r12: nat, r13: nat, r14: nat, r15: nat,
                   trapno: nat, err: nat, rip: nat, cs: nat, rflags: nat, rsp: nat, ss: nat)

  const TF_WORDS: nat := 22

  // Field k of a frame, counting words.
  function Field(t: Tf, k: nat): nat {
    match k
    case 0 => t.rax
    case 1 => t.rbx
    case 2 => t.rcx
    case 3 => t.rdx
    case 4 => t.rbp
    case 5 => t.rsi
    case 6 => t.rdi
    case 7 => t.r8
    case 8 => t.r9
    case 9 => t.r10
    case 10 => t.r11
    case 11 => t.r12
    case 12 => t.r13
    case 13 => t.r14
    case 14 => t.r15
    case 15 => t.trapno
    case 16 => t.err
    case 17 => t.rip
    case 18 => t.cs
    case 19 => t.rflags
    case 20 => t.rsp
    case 21 => t.ss
    case _ => 0
  }

  const HARDWARE: nat := 15                     // the first field below alltraps' own

  // The frame that stands in memory at address a.
  function TfAt(m: Mem, a: nat): Tf {
    Tf(Rd(m, a), Rd(m, a + 1), Rd(m, a + 2), Rd(m, a + 3), Rd(m, a + 4), Rd(m, a + 5), Rd(m, a + 6), Rd(m, a + 7),
       Rd(m, a + 8), Rd(m, a + 9), Rd(m, a + 10), Rd(m, a + 11), Rd(m, a + 12), Rd(m, a + 13), Rd(m, a + 14),
       Rd(m, a + 15), Rd(m, a + 16), Rd(m, a + 17), Rd(m, a + 18), Rd(m, a + 19), Rd(m, a + 20), Rd(m, a + 21))
  }

  // The fields of frame t from k on are in place for a frame at address a.
  ghost predicate FieldsFrom(m: Mem, a: nat, t: Tf, k: nat) {
    forall j: nat {:trigger Field(t, j)} :: k <= j < TF_WORDS ==> Rd(m, a + j) == Field(t, j)
  }

  lemma FieldsAll(m: Mem, a: nat, t: Tf)
    requires FieldsFrom(m, a, t, 0)
    ensures TfAt(m, a) == t
  {
    forall j: nat | j < TF_WORDS ensures Rd(m, a + j) == Field(t, j) {
    }
    assert Field(t, 0) == t.rax && Field(t, 1) == t.rbx && Field(t, 2) == t.rcx && Field(t, 3) == t.rdx;
    assert Field(t, 4) == t.rbp && Field(t, 5) == t.rsi && Field(t, 6) == t.rdi && Field(t, 7) == t.r8;
    assert Field(t, 8) == t.r9 && Field(t, 9) == t.r10 && Field(t, 10) == t.r11 && Field(t, 11) == t.r12;
    assert Field(t, 12) == t.r13 && Field(t, 13) == t.r14 && Field(t, 14) == t.r15 && Field(t, 15) == t.trapno;
    assert Field(t, 16) == t.err && Field(t, 17) == t.rip && Field(t, 18) == t.cs && Field(t, 19) == t.rflags;
    assert Field(t, 20) == t.rsp && Field(t, 21) == t.ss;
  }

  lemma HardwareWords(m: Mem, a: nat, t: Tf)
    requires FieldsFrom(m, a, t, HARDWARE)
    ensures Rd(m, a + 15) == t.trapno && Rd(m, a + 16) == t.err && Rd(m, a + 17) == t.rip && Rd(m, a + 18) == t.cs
    ensures Rd(m, a + 19) == t.rflags && Rd(m, a + 20) == t.rsp && Rd(m, a + 21) == t.ss
  {
    assert Field(t, 15) == t.trapno && Field(t, 16) == t.err && Field(t, 17) == t.rip && Field(t, 18) == t.cs;
    assert Field(t, 19) == t.rflags && Field(t, 20) == t.rsp && Field(t, 21) == t.ss;
  }

  // A frame depends on its own words only.
  lemma SameTf(m: Mem, m': Mem, a: nat)
    requires forall b: nat :: a <= b < a + TF_WORDS ==> Rd(m', b) == Rd(m, b)
    ensures TfAt(m', a) == TfAt(m, a)
  {
  }

  // The two memories agree except on words lo .. hi-1.
  ghost predicate SameOutside(m: Mem, m': Mem, lo: int, hi: int) {
    forall b: nat :: !(lo <= b < hi) ==> Rd(m', b) == Rd(m, b)
  }

  lemma SameRefl(m: Mem, a: nat)
    ensures SameOutside(m, m, a, a)
  {
  }

  // The state a trap interrupts.
  datatype Machine = Machine(r: Regs, cs: nat, ss: nat, rflags: nat)

  const FL_IF: nat := 0x200
  const KCODE: nat := 8                         // SEG_KCODE << 3

  predicate IfSet(rflags: nat) { rflags / FL_IF % 2 == 1 }

  function ClearIf(rflags: nat): (r: nat)
    ensures !IfSet(r)
  {
    if IfSet(rflags) then rflags - FL_IF else rflags
  }

  function Interrupted(x: Machine, trapno: nat, err: nat): Tf {
    Tf(x.r.rax, x.r.rbx, x.r.rcx, x.r.rdx, x.r.rbp, x.r.rsi, x.r.rdi, x.r.r8, x.r.r9, x.r.r10, x.r.r11, x.r.r12,
       x.r.r13, x.r.r14, x.r.r15, trapno, err, x.r.rip, x.cs, x.rflags, x.r.rsp, x.ss)
  }

  // What trapret makes of a frame.
  function Restored(t: Tf): Machine {
    Machine(Regs(t.rax, t.rbx, t.rcx, t.rdx, t.rsi, t.rdi, t.rbp, t.rsp, t.r8, t.r9, t.r10, t.r11, t.r12, t.r13,
                 t.r14, t.r15, t.rip), t.cs, t.ss, t.rflags)
  }

  // ---- handlers -----------------------------------------------------------------------

  // trap(): given the registers and memory at its call, those at its return.
  type Handler = (Regs, Mem) -> (Regs, Mem)

  // Called with frame t at address tf, the handler keeps the stack pointer and the frame,
  // except that a returning system call stores its result in rax.
  ghost predicate KeepsFrame(trap: Handler, tf: nat, t: Tf, result: nat) {
    forall r: Regs, m: Mem {:trigger trap(r, m)} :: r.rdi == tf && TfAt(m, tf) == t ==>
      trap(r, m).0.rsp == r.rsp && TfAt(trap(r, m).1, tf) == t.(rax := result)
  }

  // Called with a frame at address tf, the handler does not change word b.
  ghost predicate Spares(trap: Handler, tf: nat, b: nat) {
    forall r: Regs, m: Mem {:trigger trap(r, m)} :: r.rdi == tf ==> Rd(trap(r, m).1, b) == Rd(m, b)
  }

  // What compiled code leaves behind besides its purpose: registers, and words of its own
  // stack and of the kernel's variables.
  datatype Noise = Noise(regs: Regs, words: Mem)

  // It does not write the frame at address tf.
  ghost predicate ClearOf(w: Noise, tf: nat) {
    forall b :: b in w.words ==> !(tf <= b < tf + TF_WORDS)
  }

  const SYS_PRINT: nat := 12
  const SYS_EXIT: nat := 13

  // What a system call that returns leaves in rax; exit does not return.
  function SyscallResult(num: nat): nat {
    if num == SYS_PRINT then 0 else TWO64 - 1
  }

  // The T_SYSCALL case of trap(): the number comes from, and the result goes to, the frame.
  function SyscallTrap(w: Noise): Handler {
    (r: Regs, m: Mem) => (w.regs.(rsp := r.rsp), (m + w.words)[r.rdi := SyscallResult(Rd(m + w.words, r.rdi))])
  }

  /** A system call that returns keeps the frame but for its result, and every word that its
      code does not write. */
  lemma SyscallKeepsFrame(w: Noise, tf: nat, t: Tf)
    requires ClearOf(w, tf) && t.rax != SYS_EXIT
    ensures KeepsFrame(SyscallTrap(w), tf, t, if t.rax == SYS_PRINT then 0 else TWO64 - 1)
    ensures forall b: nat :: b !in w.words && b != tf ==> Spares(SyscallTrap(w), tf, b)
  {
    forall r: Regs, m: Mem | r.rdi == tf && TfAt(m, tf) == t
      ensures SyscallTrap(w)(r, m).0.rsp == r.rsp && TfAt(SyscallTrap(w)(r, m).1, tf) == t.(rax := SyscallResult(t.rax))
    {
      NoiseTf(w, m, tf);
      RaxStore(m + w.words, tf, SyscallResult(t.rax));
    }
  }

  lemma NoiseTf(w: Noise, m: Mem, tf: nat)
    requires ClearOf(w, tf)
    ensures TfAt(m + w.words, tf) == TfAt(m, tf)
  {
    SameTf(m, m + w.words, tf);
  }

  lemma RaxStore(m: Mem, tf: nat, v: nat)
    ensures TfAt(m[tf := v], tf) == TfAt(m, tf).(rax := v) && Rd(m, tf) == TfAt(m, tf).rax
  {
  }

  // push w at stack pointer sp: field k of frame t, which is to stand at address a. Since memory
  // was m0, nothing has changed but the words between the stack pointer and top.
  method Push(m: Mem, sp: nat, w: nat, ghost a: nat, ghost t: Tf, ghost k: nat, ghost m0: Mem, ghost top: nat)
    returns (m': Mem, sp': nat)
    requires k < TF_WORDS && w == Field(t, k) && sp == a + k + 1 <= top && FieldsFrom(m, a, t, k + 1)
    requires SameOutside(m0, m, sp, top)
    ensures sp' == a + k && FieldsFrom(m', a, t, k) && SameOutside(m0, m', sp', top)
  {
    hide Field;
    m', sp' := m[sp - 1 := w], sp - 1;
  }

  // The processor's pushes and those of vectorN
  method PushHardware(m: Mem, x: Machine, sp: nat, trapno: nat, err: nat) returns (s: Mem)
    requires sp >= TF_WORDS
    ensures FieldsFrom(s, sp - TF_WORDS, Interrupted(x, trapno, err), HARDWARE)
    ensures Rd(s, sp - 1) == x.ss && Rd(s, sp - 2) == x.r.rsp && Rd(s, sp - 3) == x.rflags
    ensures Rd(s, sp - 4) == x.cs && Rd(s, sp - 5) == x.r.rip && Rd(s, sp - 6) == err && Rd(s, sp - 7) == trapno
    ensures SameOutside(m, s, sp - 7, sp)
  {
    hide FieldsFrom, SameOutside, Rd;
    ghost var t, a := Interrupted(x, trapno, err), sp - TF_WORDS;
    var p := sp;
    SameRefl(m, sp);
    Empty(m, a, t);
    s, p := Push(m, p, x.ss, a, t, 21, m, sp);
    s, p := Push(s, p, x.r.rsp, a, t, 20, m, sp);
    s, p := Push(s, p, x.rflags, a, t, 19, m, sp);
    s, p := Push(s, p, x.cs, a, t, 18, m, sp);
    s, p := Push(s, p, x.r.rip, a, t, 17, m, sp);
    s, p := Push(s, p, err, a, t, 16, m, sp);
    s, p := Push(s, p, trapno, a, t, 15, m, sp);
    HardwareWords(s, a, t);
  }

  method Pop(m: Mem, sp: nat) returns (v: nat, sp': nat)
    ensures v == Rd(m, sp) && sp' == sp + 1
  {
    v, sp' := Rd(m, sp), sp + 1;
  }

  class TrapCpu {
    var x: Machine
    var m: Mem

    // The processor's part of a trap onto the stack at sp, and the two pushes of vectorN.
    method Vector(sp: nat, trapno: nat, err: nat, trapGate: bool)
      requires sp >= TF_WORDS
      modifies this
      ensures x.r == old(x).r.(rsp := sp - 7)
      ensures FieldsFrom(m, sp - TF_WORDS, Interrupted(old(x), trapno, err), HARDWARE)
      ensures Rd(m, sp - 1) == old(x).ss && Rd(m, sp - 2) == old(x).r.rsp && Rd(m, sp - 3) == old(x).rflags
      ensures Rd(m, sp - 4) == old(x).cs && Rd(m, sp - 5) == old(x).r.rip && Rd(m, sp - 6) == err && Rd(m, sp - 7) == trapno
      ensures SameOutside(old(m), m, sp - 7, sp)
      ensures x.cs / 8 == 1 && x.cs % 4 == 0 && if trapGate then x.rflags == old(x).rflags else !IfSet(x.rflags)
    {
      hide FieldsFrom, SameOutside, ClearIf, IfSet;
      var p := sp - 7;
      m := PushHardware(m, x, sp, trapno, err);
      x := x.(r := x.r.(rsp := p), cs := KCODE,
              rflags := if trapGate then x.rflags else ClearIf(x.rflags));
    }

    // The pushes of alltraps, r15 to rdi
    method PushUpper(ghost a: nat, ghost t: Tf) returns (s: Mem, p: nat)
      requires x.r.rsp == a + HARDWARE && FieldsFrom(m, a, t, HARDWARE) && SameRegs(x.r, t)
      ensures p == a + 6 && FieldsFrom(s, a, t, 6) && SameOutside(m, s, p, x.r.rsp)
    {
      hide FieldsFrom, SameOutside;
      ghost var m0, top := m, x.r.rsp;
      SameRefl(m, top);
      s, p := m, x.r.rsp;
      s, p := Push(s, p, x.r.r15, a, t, 14, m0, top);
      s, p := Push(s, p, x.r.r14, a, t, 13, m0, top);
      s, p := Push(s, p, x.r.r13, a, t, 12, m0, top);
      s, p := Push(s, p, x.r.r12, a, t, 11, m0, top);
      s, p := Push(s, p, x.r.r11, a, t, 10, m0, top);
      s, p := Push(s, p, x.r.r10, a, t, 9, m0, top);
      s, p := Push(s, p, x.r.r9, a, t, 8, m0, top);
      s, p := Push(s, p, x.r.r8, a, t, 7, m0, top);
      s, p := Push(s, p, x.r.rdi, a, t, 6, m0, top);
    }

    // alltraps up to the call of trap
    method Alltraps(ghost t: Tf)
      requires x.r.rsp >= HARDWARE && FieldsFrom(m, x.r.rsp - HARDWARE, t, HARDWARE)
      requires SameRegs(x.r, t)
      modifies this
      ensures x == old(x).(r := old(x).r.(rsp := old(x).r.rsp - HARDWARE, rdi := old(x).r.rsp - HARDWARE))
      ensures TfAt(m, x.r.rsp) == t
      ensures SameOutside(old(m), m, x.r.rsp, old(x).r.rsp)
    {
      hide FieldsFrom, SameOutside, TfAt;
      ghost var m0, top := m, x.r.rsp;
      ghost var a := x.r.rsp - HARDWARE;
      var s, p := PushUpper(a, t);
      s, p := Push(s, p, x.r.rsi, a, t, 5, m0, top);
      s, p := Push(s, p, x.r.rbp, a, t, 4, m0, top);
      s, p := Push(s, p, x.r.rdx, a, t, 3, m0, top);
      s, p := Push(s, p, x.r.rcx, a, t, 2, m0, top);
      s, p := Push(s, p, x.r.rbx, a, t, 1, m0, top);
      s, p := Push(s, p, x.r.rax, a, t, 0, m0, top);
      FieldsAll(s, a, t);
      m := s;
      x := x.(r := x.r.(rsp := p, rdi := p));
    }

    // trapret, with its final iretq
    method Trapret()
      modifies this`x
      ensures x == Restored(TfAt(m, old(x).r.rsp))
    {
      hide Rd;
      var p := x.r.rsp;
      var rax, rbx, rcx, rdx, rbp, rsi, rdi, r8, r9, r10, r11, r12, r13, r14, r15;
      var rip, cs, rflags, rsp, ss;
      rax, p := Pop(m, p);
      rbx, p := Pop(m, p);
      rcx, p := Pop(m, p);
      rdx, p := Pop(m, p);
      rbp, p := Pop(m, p);
      rsi, p := Pop(m, p);
      rdi, p := Pop(m, p);
      r8, p := Pop(m, p);
      r9, p := Pop(m, p);
      r10, p := Pop(m, p);
      r11, p := Pop(m, p);
      r12, p := Pop(m, p);
      r13, p := Pop(m, p);
      r14, p := Pop(m, p);
      r15, p := Pop(m, p);
      p := p + 2;  // trapno and err
      // iretq
      rip, p := Pop(m, p);
      cs, p := Pop(m, p);
      rflags, p := Pop(m, p);
      rsp, p := Pop(m, p);
      ss, p := Pop(m, p);
      x := Machine(Regs(rax, rbx, rcx, rdx, rsi, rdi, rbp, rsp, r8, r9, r10, r11, r12, r13, r14, r15, rip), cs, ss, rflags);
    }

    /** A trap from any state, through any handler that keeps the frame, comes back to exactly
        that state, but for the result that a system call leaves in rax; and it leaves every
        word as it was that is not in the frame and that the handler does not write. The handler
        is called with registers r1 and memory m1. */
    method Trap(sp: nat, trapno: nat, err: nat, trapGate: bool, trap: Handler, ghost result: nat)
      returns (ghost r1: Regs, ghost m1: Mem)
      requires sp >= TF_WORDS
      requires KeepsFrame(trap, sp - TF_WORDS, Interrupted(x, trapno, err), result)
      modifies this
      ensures x == old(x).(r := old(x).r.(rax := result))
      ensures r1.rdi == sp - TF_WORDS && m == trap(r1, m1).1 && SameOutside(old(m), m1, sp - TF_WORDS, sp)
      ensures TfAt(m1, sp - TF_WORDS) == Interrupted(old(x), trapno, err)
      ensures forall b: nat :: !(sp - TF_WORDS <= b < sp) && Spares(trap, sp - TF_WORDS, b) ==> Rd(m, b) == Rd(old(m), b)
    {
      hide FieldsFrom, TfAt;
      ghost var t := Interrupted(x, trapno, err);
      Vector(sp, trapno, err, trapGate);
      Alltraps(t);
      r1, m1 := x.r, m;
      var (r', m') := trap(x.r, m);
      x, m := x.(r := r'), m';
      Trapret();
    }
  }

  // The registers alltraps is about to push are those of the frame.
  ghost predicate SameRegs(r: Regs, t: Tf) {
    && r.rax == t.rax && r.rbx == t.rbx && r.rcx == t.rcx && r.rdx == t.rdx && r.rbp == t.rbp && r.rsi == t.rsi
    && r.rdi == t.rdi && r.r8 == t.r8 && r.r9 == t.r9 && r.r10 == t.r10 && r.r11 == t.r11 && r.r12 == t.r12
    && r.r13 == t.r13 && r.r14 == t.r14 && r.r15 == t.r15
  }

  lemma Empty(m: Mem, a: nat, t: Tf)
    ensures FieldsFrom(m, a, t, TF_WORDS)
  {
  }
}
