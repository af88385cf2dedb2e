// switch.S: registers, contexts and stacks. Addresses count 8-byte words.
module Context {

  type Mem = map<nat, nat>

  function Rd(m: Mem, a: nat): nat { if a in m then m[a] else 0 }

  datatype Regs = Regs(rax: nat, rbx: nat, rcx: nat, rdx: nat, rsi: nat, rdi: nat, rbp: nat, rsp: nat,
                       r8: nat, r9: nat, r10: nat, r11: nat, r12: nat, r13: nat, r14: nat, r15: nat, rip: nat)

  // struct context
  datatype Ctx = Ctx(r15: nat, r14: nat, r13: nat, r12: nat, rbx: nat, rbp: nat, rip: nat, rsp: nat, rdi: nat)

  const CTX_WORDS: nat := 9

  function ReadCtx(m: Mem, a: nat): Ctx {
    Ctx(Rd(m, a), Rd(m, a + 1), Rd(m, a + 2), Rd(m, a + 3), Rd(m, a + 4), Rd(m, a + 5), Rd(m, a + 6), Rd(m, a + 7), Rd(m, a + 8))
  }

  function WriteCtx(m: Mem, a: nat, x: Ctx): Mem {
    m[a := x.r15][a + 1 := x.r14][a + 2 := x.r13][a + 3 := x.r12][a + 4 := x.rbx][a + 5 := x.rbp]
     [a + 8 := x.rdi][a + 7 := x.rsp][a + 6 := x.rip]
  }

  lemma WroteCtx(m: Mem, a: nat, x: Ctx)
    ensures ReadCtx(WriteCtx(m, a, x), a) == x
    ensures forall b: nat :: !(a <= b < a + CTX_WORDS) ==> Rd(WriteCtx(m, a, x), b) == Rd(m, b)
  {
  }

  // What swtch stores for the thread that called it: its return address is on its stack.
  function Saved(r: Regs, m: Mem): Ctx {
    Ctx(r.r15, r.r14, r.r13, r.r12, r.rbx, r.rbp, Rd(m, r.rsp), r.rsp, r.rdi)
  }

  // The registers of the thread with context n when swtch returns in it.
  ghost predicate Resumed(r: Regs, n: Ctx) {
    && r.r15 == n.r15 && r.r14 == n.r14 && r.r13 == n.r13 && r.r12 == n.r12 && r.rbx == n.rbx && r.rbp == n.rbp
    && r.rdi == n.rdi && r.rip == n.rip && r.rsp == n.rsp + 1
  }

  // swtch(old, new), called with registers r and memory m, has returned with r' and m': the old
  // context is stored, the new one runs, and the words of `keep` outside the old context are
  // as they were.
  ghost predicate Switched(r: Regs, m: Mem, r': Regs, m': Mem, keep: iset<nat>) {
    && ReadCtx(m', r.rdi) == Saved(r, m)
    && Resumed(r', ReadCtx(m, r.rsi))
    && forall b :: b in keep && !(r.rdi <= b < r.rdi + CTX_WORDS) ==> Rd(m', b) == Rd(m, b)
  }

  lemma SameCtx(m: Mem, m': Mem, ctx: nat)
    requires forall b: nat :: ctx <= b < ctx + CTX_WORDS ==> Rd(m, b) == Rd(m', b)
    ensures ReadCtx(m, ctx) == ReadCtx(m', ctx)
  {
  }

  // The words of a context record.
  ghost predicate CtxIn(ctx: nat, keep: iset<nat>) {
    forall b: nat :: ctx <= b < ctx + CTX_WORDS ==> b in keep
  }

  // Words that a trap writes between two instructions; none of them is kept.
  ghost predicate Spared(w: Mem, keep: iset<nat>) {
    forall b :: b in w ==> b !in keep
  }

  // Of the nine words from a up, the first lo and those from hi on.
  predicate Done(a: nat, lo: nat, hi: nat, b: nat) { a <= b < a + lo || a + hi <= b < a + CTX_WORDS }

  // Since memory was m0, the words of keep have changed only where done, to what they are in `want`.
  ghost predicate Partly(m0: Mem, want: Mem, m: Mem, keep: iset<nat>, a: nat, lo: nat, hi: nat) {
    forall b :: b in keep ==> Rd(m, b) == if Done(a, lo, hi, b) then Rd(want, b) else Rd(m0, b)
  }

  // A store of word k, and a trap behind it
  method Put(m: Mem, a: nat, k: nat, v: nat, w: Mem, ghost keep: iset<nat>, ghost m0: Mem, ghost want: Mem, ghost lo: nat,
             ghost hi: nat)
    returns (m': Mem)
    requires lo <= k < hi <= CTX_WORDS && (k == lo || k == hi - 1)
    requires a + k in keep && Spared(w, keep) && v == Rd(want, a + k) && Partly(m0, want, m, keep, a, lo, hi)
    ensures Partly(m0, want, m', keep, a, if k == lo then lo + 1 else lo, if k == lo then hi else hi - 1)
  {
    m' := m[a + k := v] + w;
  }

  // The memories agree on the words of keep.
  ghost predicate Agree(m0: Mem, m: Mem, keep: iset<nat>) {
    forall b :: b in keep ==> Rd(m, b) == Rd(m0, b)
  }

  lemma AgreeRefl(m: Mem, keep: iset<nat>)
    ensures Agree(m, m, keep)
  {
  }

  // A load, and a trap behind it
  method Read(m: Mem, c: nat, w: Mem, ghost keep: iset<nat>, ghost m0: Mem) returns (v: nat, m': Mem)
    requires c in keep && Spared(w, keep) && Agree(m0, m, keep)
    ensures v == Rd(m0, c) && Agree(m0, m', keep)
  {
    v, m' := Rd(m, c), m + w;
  }

  // The loads of swtch: the fields of the context at a, rip going to rax
  method LoadWords(m: Mem, a: nat, w: nat -> Mem, ghost keep: iset<nat>) returns (x: Ctx, s: Mem)
    requires CtxIn(a, keep) && forall i :: 11 <= i <= 19 ==> Spared(w(i), keep)
    ensures x == ReadCtx(m, a) && Agree(m, s, keep)
  {
    CtxAddresses(a, keep);
    AgreeRefl(m, keep);
    hide Spared, Agree, Rd, CtxIn;
    var r15, r14, r13, r12, rbx, rbp, rdi, rsp, rax;
    r15, s := Read(m, a, w(11), keep, m);
    r14, s := Read(s, a + 1, w(12), keep, m);
    r13, s := Read(s, a + 2, w(13), keep, m);
    r12, s := Read(s, a + 3, w(14), keep, m);
    rbx, s := Read(s, a + 4, w(15), keep, m);
    rbp, s := Read(s, a + 5, w(16), keep, m);
    rdi, s := Read(s, a + 8, w(17), keep, m);
    rsp, s := Read(s, a + 7, w(18), keep, m);
    rax, s := Read(s, a + 6, w(19), keep, m);
    x := Ctx(r15, r14, r13, r12, rbx, rbp, rax, rsp, rdi);
  }

  // The same in the middle of the stores
  method Get(m: Mem, c: nat, w: Mem, ghost keep: iset<nat>, ghost m0: Mem, ghost want: Mem, ghost a: nat, ghost lo: nat,
             ghost hi: nat)
    returns (v: nat, m': Mem)
    requires c in keep && Spared(w, keep) && !Done(a, lo, hi, c) && Partly(m0, want, m, keep, a, lo, hi)
    ensures v == Rd(m0, c) && Partly(m0, want, m', keep, a, lo, hi)
  {
    v, m' := Rd(m, c), m + w;
  }

  lemma PartlyStart(m: Mem, want: Mem, w: Mem, keep: iset<nat>, a: nat)
    requires Spared(w, keep)
    ensures Partly(m, want, m + w, keep, a, 0, CTX_WORDS)
  {
  }

  lemma CtxValues(m: Mem, a: nat, x: Ctx)
    ensures var m' := WriteCtx(m, a, x);
            && Rd(m', a) == x.r15 && Rd(m', a + 1) == x.r14 && Rd(m', a + 2) == x.r13 && Rd(m', a + 3) == x.r12
            && Rd(m', a + 4) == x.rbx && Rd(m', a + 5) == x.rbp && Rd(m', a + 6) == x.rip && Rd(m', a + 7) == x.rsp
            && Rd(m', a + 8) == x.rdi
  {
  }

  lemma PartlyDone(m0: Mem, m: Mem, a: nat, x: Ctx, keep: iset<nat>)
    requires CtxIn(a, keep) && Partly(m0, WriteCtx(m0, a, x), m, keep, a, 7, 7)
    ensures ReadCtx(m, a) == x
    ensures forall b :: b in keep && !(a <= b < a + CTX_WORDS) ==> Rd(m, b) == Rd(m0, b)
  {
    var want := WriteCtx(m0, a, x);
    WroteCtx(m0, a, x);
    hide WriteCtx;
    SameCtx(m, want, a);
  }

  // The stores of swtch, with the load of the return address into rax
  method SaveWords(m: Mem, r: Regs, w: nat -> Mem, ghost keep: iset<nat>) returns (s: Mem, rax: nat)
    requires CtxIn(r.rdi, keep) && r.rsp in keep && !(r.rdi <= r.rsp < r.rdi + CTX_WORDS)
    requires forall i :: i <= 10 ==> Spared(w(i), keep)
    ensures ReadCtx(s, r.rdi) == Saved(r, m) && rax == Rd(m, r.rsp)
    ensures forall b :: b in keep && !(r.rdi <= b < r.rdi + CTX_WORDS) ==> Rd(s, b) == Rd(m, b)
  {
    hide Spared, Partly, WriteCtx, ReadCtx, CtxIn, Rd;
    CtxAddresses(r.rdi, keep);
    var a := r.rdi;
    s := m + w(0);
    ghost var want := WriteCtx(m, r.rdi, Saved(r, m));
    CtxValues(m, a, Saved(r, m));
    PartlyStart(m, want, w(0), keep, a);
    s := Put(s, a, 0, r.r15, w(1), keep, m, want, 0, 9);
    s := Put(s, a, 1, r.r14, w(2), keep, m, want, 1, 9);
    s := Put(s, a, 2, r.r13, w(3), keep, m, want, 2, 9);
    s := Put(s, a, 3, r.r12, w(4), keep, m, want, 3, 9);
    s := Put(s, a, 4, r.rbx, w(5), keep, m, want, 4, 9);
    s := Put(s, a, 5, r.rbp, w(6), keep, m, want, 5, 9);
    s := Put(s, a, 8, r.rdi, w(7), keep, m, want, 6, 9);
    s := Put(s, a, 7, r.rsp, w(8), keep, m, want, 6, 8);
    rax, s := Get(s, r.rsp, w(9), keep, m, want, a, 6, 7);
    s := Put(s, a, 6, rax, w(10), keep, m, want, 6, 7);
    PartlyDone(m, s, a, Saved(r, m), keep);
  }

  class Cpu {
    var r: Regs
    var m: Mem

    // swtch, instruction by instruction: first half. A trap may come before and behind every
    // instruction; the i-th writes words w(i), none of them in keep.
    method Save(w: nat -> Mem, ghost keep: iset<nat>)
      requires CtxIn(r.rdi, keep) && r.rsp in keep && !(r.rdi <= r.rsp < r.rdi + CTX_WORDS)
      requires forall i :: i <= 10 ==> Spared(w(i), keep)
      modifies this
      ensures ReadCtx(m, old(r.rdi)) == Saved(old(r), old(m))
      ensures r == old(r).(rax := Rd(old(m), old(r.rsp)))
      ensures forall b :: b in keep && !(r.rdi <= b < r.rdi + CTX_WORDS) ==> Rd(m, b) == Rd(old(m), b)
    {
      hide ReadCtx;
      var s, rax := SaveWords(m, r, w, keep);
      m, r := s, r.(rax := rax);
    }

    // second half
    method Load(w: nat -> Mem, ghost keep: iset<nat>)
      requires CtxIn(r.rsi, keep) && ReadCtx(m, r.rsi).rsp in keep
      requires forall i :: 11 <= i <= 20 ==> Spared(w(i), keep)
      modifies this
      ensures Resumed(r, ReadCtx(old(m), old(r.rsi)))
      ensures forall b :: b in keep && b != ReadCtx(old(m), old(r.rsi)).rsp ==> Rd(m, b) == Rd(old(m), b)
    {
      hide Spared, Agree, ReadCtx, CtxIn;
      var x, s := LoadWords(m, r.rsi, w, keep);
      SlotStore(m, s, keep, x.rsp, x.rip, w(20));
      m := s[x.rsp := x.rip] + w(20);
      var rip := Rd(m, x.rsp);  // ret
      r := Regs(x.rip, x.rbx, r.rcx, r.rdx, r.rsi, x.rdi, x.rbp, x.rsp + 1, r.r8, r.r9, r.r10, r.r11, x.r12, x.r13, x.r14,
                x.r15, rip);
    }

    /** swtch, with a trap possible between any two instructions: on the old stack it spares the
        words of keep, on the new stack, from the 18th on, those of keep'. */
    method Swtch(w: nat -> Mem, ghost keep: iset<nat>, ghost keep': iset<nat>)
      requires CtxIn(r.rdi, keep) && CtxIn(r.rdi, keep') && CtxIn(r.rsi, keep) && CtxIn(r.rsi, keep')
      requires r.rsp in keep && !(r.rdi <= r.rsp < r.rdi + CTX_WORDS)
      requires r.rdi + CTX_WORDS <= r.rsi || r.rsi + CTX_WORDS <= r.rdi
      requires var slot := ReadCtx(m, r.rsi).rsp; slot in keep && slot in keep' && !(r.rdi <= slot < r.rdi + CTX_WORDS)
      requires forall i :: Spared(w(i), if i < 18 then keep else keep')
      modifies this
      ensures Switched(old(r), old(m), r, m, keep * keep' - iset{ReadCtx(old(m), old(r.rsi)).rsp})
    {
      hide ReadCtx;
      ghost var r0, m0 := r, m;
      Save(w, keep);
      ghost var m1 := m;
      SameCtx(m1, m0, r0.rsi);
      Load(w, keep * keep');
      SameCtx(m, m1, r0.rdi);
    }
  }

  lemma CtxAddresses(a: nat, keep: iset<nat>)
    requires CtxIn(a, keep)
    ensures a in keep && a + 1 in keep && a + 2 in keep && a + 3 in keep && a + 4 in keep
    ensures a + 5 in keep && a + 6 in keep && a + 7 in keep && a + 8 in keep
  {
  }

  lemma SlotStore(m0: Mem, s: Mem, keep: iset<nat>, slot: nat, v: nat, w: Mem)
    requires Agree(m0, s, keep) && slot in keep && Spared(w, keep)
    ensures var m := s[slot := v] + w; Rd(m, slot) == v && forall b :: b in keep && b != slot ==> Rd(m, b) == Rd(m0, b)
  {
  }
}
