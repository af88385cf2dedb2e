// Words, page-table entries and index arithmetic of 4-level paging
// (x64consts.h, mem.h; section 4.5 of the Intel SDM, volume 3A).
module Arch {

  const MAX_VPN: nat := 0x10_0000_0000          // 2^36 pages in a 48-bit space
  const TWO64: nat := 0x1_0000_0000_0000_0000
  const KERNBASE: nat := 0xFFFF_FFFF_8000_0000
  const DEVBASE: nat := 0xFFFF_FFFF_4000_0000

  // ---- words ----------------------------------------------------------------

  // The low twelve bits of a word, read as page-entry flags.
  datatype Flags = Flags(p: bool, w: bool, u: bool, pwt: bool, pcd: bool, a: bool, d: bool, ps: bool,
                         g: bool, avl9: bool, avl10: bool, avl11: bool)

  // A 64-bit word, split into its upper 52 and lower 12 bits.
  datatype Word = Word(page: nat, flags: Flags)

  const NOFLAGS := Flags(false, false, false, false, false, false, false, false, false, false, false, false)
  const ZERO := Word(0, NOFLAGS)
  // PF_W | PF_P | PF_U
  const TABLE_FLAGS := NOFLAGS.(p := true, w := true, u := true)

  predicate Present(e: Word) { e.flags.p }

  predicate Huge(e: Word) { e.flags.ps }

  // ---- indices ------------------------------------------------------------

  /** The page number's bits above level l: which level-l table is walked for page v. */
  function Pre(l: nat, v: nat): nat {
    if l == 0 then v else Pre(l - 1, v) / 512
  }

  /** The 9-bit index that page v uses in its level-l table. */
  function Idx(l: nat, v: nat): (i: nat)
    requires 1 <= l
    ensures i < 512
    ensures Pre(l - 1, v) == Pre(l, v) * 512 + i
  {
    Pre(l - 1, v) % 512
  }

  lemma PreTop(v: nat)
    requires v < MAX_VPN
    ensures Pre(4, v) == 0
  {
    assert Pre(1, v) == v / 512;
    assert Pre(2, v) == v / 512 / 512;
    assert Pre(3, v) == v / 512 / 512 / 512;
  }

  /** Four 9-bit indices identify a page. */
  lemma IndicesIdentify(v: nat, w: nat)
    requires v < MAX_VPN && w < MAX_VPN
    requires Idx(4, v) == Idx(4, w) && Idx(3, v) == Idx(3, w) && Idx(2, v) == Idx(2, w) && Idx(1, v) == Idx(1, w)
    ensures v == w
  {
    PreTop(v);
    PreTop(w);
    assert Pre(3, v) == Pre(3, w);
    assert Pre(2, v) == Pre(2, w);
    assert Pre(1, v) == Pre(1, w);
    assert Pre(0, v) == Pre(0, w);
  }

  // ---- addresses ------------------------------------------------------------------

  /** Bits 63 to 47 are equal. */
  predicate Canonical(va: nat) {
    va < 0x8000_0000_0000 || TWO64 - 0x8000_0000_0000 <= va < TWO64
  }

  function Vpn(va: nat): nat { va / 4096 % MAX_VPN }

  lemma DivExact(e: int, d: int, q: int, r: int)
    requires 0 <= r < d && e == d * q + r
    ensures e / d == q && e % d == r
  {
    var k := e / d - q;
    assert d * k == r - e % d;
    assert k >= 1 ==> d * k >= d;
    assert k <= -1 ==> d * k <= -d;
  }

  const UPPER: nat := 0xF_FFF0_0000_0000        // 2^52 - 2^36

  /** Page numbers of the two canonical halves. */
  lemma VpnOf(va: nat)
    requires Canonical(va)
    ensures Vpn(va) == (if va < 0x8000_0000_0000 then va / 4096 else va / 4096 - UPPER) < MAX_VPN
  {
    var q := va / 4096;
    if va < 0x8000_0000_0000 {
      DivExact(q, MAX_VPN, 0, q);
    } else {
      DivExact(q, MAX_VPN, 0xFFFF, q - UPPER);
    }
  }

  /** Distinct canonical pages have distinct page numbers. */
  lemma CanonicalPage(a: nat, b: nat)
    requires Canonical(a) && Canonical(b) && Vpn(a) == Vpn(b)
    ensures a / 4096 == b / 4096
  {
    hide Vpn;
    VpnOf(a);
    VpnOf(b);
  }
}
