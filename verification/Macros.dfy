// The shift-and-mask macros of x64consts.h on 64-bit words, and what they are in the model's terms.
module Macros {
  import opened Arch

  /** The number that a 64-bit word stands for in binary. */
  function IntOf(x: bv64): nat
    decreases x
  {
    if x == 0 then 0 else (if x & 1 == 1 then 1 else 0) + 2 * IntOf(x >> 1)
  }

  // ---- shifts -------------------------------------------------------------------

  function Shr1(x: bv64): bv64 { x >> 1 }

  function Shr3(x: bv64): bv64 { x >> 3 }

  function Shr9(x: bv64): bv64 { x >> 9 }

  function Shr12(x: bv64): bv64 { x >> 12 }

  function Shr21(x: bv64): bv64 { x >> 21 }

  function Shr30(x: bv64): bv64 { x >> 30 }

  function Shr39(x: bv64): bv64 { x >> 39 }

  lemma Shr3Twice(x: bv64)
    ensures Shr1(Shr1(Shr1(x))) == Shr3(x)
  {
  }

  lemma Shr9Twice(x: bv64)
    ensures Shr3(Shr3(Shr3(x))) == Shr9(x)
  {
  }

  lemma Shr12Twice(x: bv64)
    ensures Shr3(Shr9(x)) == Shr12(x)
  {
  }

  lemma Shr21Twice(x: bv64)
    ensures Shr9(Shr12(x)) == Shr21(x)
  {
  }

  lemma Shr30Twice(x: bv64)
    ensures Shr9(Shr21(x)) == Shr30(x)
  {
  }

  lemma Shr39Twice(x: bv64)
    ensures Shr9(Shr30(x)) == Shr39(x)
  {
  }

  lemma Halve(x: bv64)
    ensures IntOf(Shr1(x)) == IntOf(x) / 2 && IntOf(x) % 2 == (if x & 1 == 1 then 1 else 0)
  {
    if x == 0 { assert x >> 1 == 0; }
  }

  lemma Shift3(x: bv64)
    ensures IntOf(Shr3(x)) == IntOf(x) / 8
  {
    Shr3Twice(x);
    hide IntOf, Shr1, Shr3;
    Halve(x);
    Halve(Shr1(x));
    Halve(Shr1(Shr1(x)));
  }

  lemma Shift9(x: bv64)
    ensures IntOf(Shr9(x)) == IntOf(x) / 512
  {
    Shr9Twice(x);
    hide IntOf, Shr3, Shr9;
    Shift3(x);
    Shift3(Shr3(x));
    Shift3(Shr3(Shr3(x)));
  }

  lemma Shift12(x: bv64)
    ensures IntOf(Shr12(x)) == IntOf(x) / 4096
  {
    Shr12Twice(x);
    hide IntOf, Shr9, Shr12;
    Shift9(x);
    Shift3(Shr9(x));
  }

  // ---- masks -------------------------------------------------------------------

  function Half(m: bv64): bv64 { m >> 1 }

  function And(x: bv64, m: bv64): bv64 { x & m }

  lemma MaskBits(x: bv64, m: bv64)
    requires m & 1 == 1
    ensures Shr1(And(x, m)) == And(Shr1(x), Half(m)) && And(x, m) & 1 == x & 1
  {
  }

  function Pow2(k: nat): (p: nat)
    ensures p >= 1
  {
    if k == 0 then 1 else 2 * Pow2(k - 1)
  }

  lemma MaskArith(n: nat, p: nat)
    requires p >= 1
    ensures n % (2 * p) == n % 2 + 2 * (n / 2 % p)
  {
    var h, q := n / 2, n / 2 / p;
    var r := n % 2 + 2 * (h % p);
    assert h == p * q + h % p;
    assert n == 2 * p * q + r by { assert 2 * (p * q) == 2 * p * q; }
    DivExact(n, 2 * p, q, r);
  }

  // m holds k ones
  ghost predicate Ones(m: bv64, k: nat) {
    if k == 0 then m == 0 else m & 1 == 1 && Ones(Half(m), k - 1)
  }

  lemma MaskStep(x: bv64, m: bv64, p: nat)
    requires m & 1 == 1 && p >= 1
    requires IntOf(And(Shr1(x), Half(m))) == IntOf(Shr1(x)) % p
    ensures IntOf(And(x, m)) == IntOf(x) % (2 * p)
  {
    MaskBits(x, m);
    hide IntOf, Shr1, And, Half;
    Halve(x);
    Halve(And(x, m));
    MaskArith(IntOf(x), p);
  }

  /** Masking the lowest k bits takes the remainder. */
  lemma {:induction false} MaskInt(x: bv64, m: bv64, k: nat)
    requires Ones(m, k)
    ensures IntOf(And(x, m)) == IntOf(x) % Pow2(k)
    decreases k
  {
    if k == 0 {
      assert x & m == 0;
    } else {
      MaskInt(Shr1(x), Half(m), k - 1);
      hide IntOf, Shr1, And, Half;
      MaskStep(x, m, Pow2(k - 1));
    }
  }

  lemma Mask511(x: bv64)
    ensures IntOf(And(x, 511)) == IntOf(x) % 512
  {
    assert Ones(1, 1) && Ones(3, 2) && Ones(7, 3) && Ones(15, 4);
    assert Ones(31, 5) && Ones(63, 6) && Ones(127, 7) && Ones(255, 8);
    hide IntOf, And;
    assert Pow2(3) == 8 && Pow2(6) == 64 && Pow2(9) == 512;
    MaskInt(x, 511, 9);
  }

  // ---- indices -------------------------------------------------------------------

  function Pml4Idx(va: bv64): bv64 { And(Shr39(va), 511) }

  function PdptIdx(va: bv64): bv64 { And(Shr30(va), 511) }

  function PdIdx(va: bv64): bv64 { And(Shr21(va), 511) }

  function PtIdx(va: bv64): bv64 { And(Shr12(va), 511) }

  // Dropping the top of a page number does not change its digits.
  lemma Digits(n: nat, v: nat)
    requires v == n % MAX_VPN
    ensures Idx(1, v) == n % 512 && Idx(2, v) == n / 512 % 512
    ensures Idx(3, v) == n / 512 / 512 % 512 && Idx(4, v) == n / 512 / 512 / 512 % 512
  {
    var q := n / MAX_VPN;
    var a, b, c := v / 512, v / 512 / 512, v / 512 / 512 / 512;
    assert Pre(0, v) == v && Pre(1, v) == a && Pre(2, v) == b && Pre(3, v) == c;
    hide Pre;
    assert n == MAX_VPN * q + v;
    DivExact(n, 512, 0x800_0000 * q + a, v % 512);
    DivExact(n / 512, 512, 0x4_0000 * q + b, a % 512);
    DivExact(n / 512 / 512, 512, 0x200 * q + c, b % 512);
    DivExact(n / 512 / 512 / 512, 512, q + c / 512, c % 512);
  }

  /** The four index macros compute the indices of the model's walk. */
  lemma IndexMacros(va: bv64)
    ensures IntOf(Pml4Idx(va)) == Idx(4, Vpn(IntOf(va)))
    ensures IntOf(PdptIdx(va)) == Idx(3, Vpn(IntOf(va)))
    ensures IntOf(PdIdx(va)) == Idx(2, Vpn(IntOf(va)))
    ensures IntOf(PtIdx(va)) == Idx(1, Vpn(IntOf(va)))
  {
    Shr21Twice(va);
    Shr30Twice(va);
    Shr39Twice(va);
    hide IntOf, Idx, Shr9, Shr12, Shr21, Shr30, Shr39, And;
    Shift12(va);
    Shift9(Shr12(va));
    Shift9(Shr21(va));
    Shift9(Shr30(va));
    Mask511(Shr12(va));
    Mask511(Shr21(va));
    Mask511(Shr30(va));
    Mask511(Shr39(va));
    Digits(IntOf(Shr12(va)), Vpn(IntOf(va)));
  }

  // ---- entries ------------------------------------------------------------------

  // The flag bits of a 64-bit word.
  function FlagsOf(x: bv64): Flags {
    Flags(x & 1 != 0, x & 2 != 0, x & 4 != 0, x & 8 != 0, x & 16 != 0, x & 32 != 0, x & 64 != 0, x & 128 != 0,
          x & 256 != 0, x & 512 != 0, x & 1024 != 0, x & 2048 != 0)
  }

  /** The flag constants set the flags they are named after, and no other. */
  lemma FlagMacros()
    ensures FlagsOf(0) == NOFLAGS
    ensures FlagsOf(1) == NOFLAGS.(p := true)
    ensures FlagsOf(2) == NOFLAGS.(w := true)
    ensures FlagsOf(4) == NOFLAGS.(u := true)
    ensures FlagsOf(8) == NOFLAGS.(pwt := true)
    ensures FlagsOf(16) == NOFLAGS.(pcd := true)
    ensures FlagsOf(128) == NOFLAGS.(ps := true)
  {
  }

  function WordOf(x: bv64): Word { Word(IntOf(Shr12(x)), FlagsOf(x)) }

  function PeAddr(ent: bv64): bv64 { ent & 0xFFFF_FFFF_FFFF_F000 }

  function PeFlags(ent: bv64): bv64 { ent & 0xFFF }

  lemma LastBit(x: bv64, y: bv64)
    requires Shr1(x) == Shr1(y) && (x & 1 == 1 <==> y & 1 == 1)
    ensures x == y
  {
  }

  lemma {:induction false} IntZero(x: bv64)
    requires IntOf(x) == 0
    ensures x == 0
    decreases x
  {
    Halve(x);
    if x != 0 {
      IntZero(Shr1(x));
      hide IntOf;
      LastBit(x, 0);
    }
  }

  lemma {:induction false} IntInjective(x: bv64, y: bv64)
    requires IntOf(x) == IntOf(y)
    ensures x == y
    decreases x
  {
    Halve(x);
    Halve(y);
    if x == 0 {
      IntZero(y);
    } else {
      IntInjective(Shr1(x), Shr1(y));
      hide IntOf, Shr1;
      LastBit(x, y);
    }
  }

  lemma Parts(x: bv64, y: bv64)
    requires FlagsOf(x) == FlagsOf(y) && Shr12(x) == Shr12(y)
    ensures x == y
  {
  }

  lemma MaskedParts(x: bv64)
    ensures Shr12(PeAddr(x)) == Shr12(x) && FlagsOf(PeAddr(x)) == NOFLAGS
    ensures Shr12(PeFlags(x)) == 0 && FlagsOf(PeFlags(x)) == FlagsOf(x)
  {
  }

  /** A 64-bit word and the model's word determine each other; PE_ADDR keeps the page, PE_FLAGS the flags. */
  lemma WordMacros(x: bv64, y: bv64)
    ensures WordOf(x) == WordOf(y) <==> x == y
    ensures WordOf(PeAddr(x)) == WordOf(x).(flags := NOFLAGS)
    ensures WordOf(PeFlags(x)) == WordOf(x).(page := 0)
  {
    MaskedParts(x);
    assert IntOf(0) == 0;
    hide IntOf, FlagsOf, Shr12, PeAddr, PeFlags;
    if WordOf(x) == WordOf(y) {
      IntInjective(Shr12(x), Shr12(y));
      Parts(x, y);
    }
  }

  // An entry as paging_map_4K builds it.
  function Entry(pa: bv64, flags: bv64): bv64 { pa | flags | 1 }

  lemma EntryParts(pa: bv64, flags: bv64)
    requires PeFlags(pa) == 0 && flags <= 0xFFF
    ensures Shr12(Entry(pa, flags)) == Shr12(pa) && FlagsOf(Entry(pa, flags)) == FlagsOf(flags).(p := true)
  {
  }

  /** An entry built as address, flags and present bit. */
  lemma EntryMacros(pa: bv64, flags: bv64)
    requires PeFlags(pa) == 0 && flags <= 0xFFF
    ensures WordOf(Entry(pa, flags)) == Word(WordOf(pa).page, WordOf(flags).flags.(p := true))
  {
    EntryParts(pa, flags);
    hide IntOf, FlagsOf, Shr12, Entry;
  }

  // The entry of a new table, and the entry that a copied table is reached by.
  function TableEntry(pa: bv64): bv64 { pa | 2 | 1 | 4 }

  function CopyEntry(pa: bv64, ent: bv64): bv64 { pa | PeFlags(ent) }

  lemma TableParts(pa: bv64, ent: bv64)
    requires PeFlags(pa) == 0
    ensures Shr12(TableEntry(pa)) == Shr12(pa) && FlagsOf(TableEntry(pa)) == TABLE_FLAGS
    ensures Shr12(CopyEntry(pa, ent)) == Shr12(pa) && FlagsOf(CopyEntry(pa, ent)) == FlagsOf(ent)
  {
  }

  lemma TableMacros(pa: bv64, ent: bv64)
    requires PeFlags(pa) == 0
    ensures WordOf(TableEntry(pa)) == Word(WordOf(pa).page, TABLE_FLAGS)
    ensures WordOf(CopyEntry(pa, ent)) == Word(WordOf(pa).page, WordOf(ent).flags)
  {
    TableParts(pa, ent);
    hide IntOf, FlagsOf, Shr12, TableEntry, CopyEntry;
  }
}
