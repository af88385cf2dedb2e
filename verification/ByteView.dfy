// paging_map seen through byte addresses.
module ByteView {
  import opened Arch
  import opened PageTable
  import opened MapPage
  import opened MapRange
  import opened KernelSpace

  const HALF: nat := 0x8000_0000_0000           // 2^47

  // Every address of the n pages from va is canonical.
  predicate CanonicalRange(va: nat, n: nat) {
    n == 0 || va + 4096 * n <= HALF || TWO64 - HALF <= va
  }

  predicate InRange(va: nat, n: nat, b: nat) { va <= b < va + 4096 * n }

  // The page offset of b from va, wrapping, tells whether b lies in the range.
  lemma AheadBytes(va: nat, n: nat, b: nat)
    requires va % 4096 == 0 && va + 4096 * n <= TWO64 && CanonicalRange(va, n) && Canonical(b)
    ensures va < TWO64 ==> (Ahead(Vpn(va), Vpn(b)) < n <==> InRange(va, n, b))
    ensures va < TWO64 && InRange(va, n, b) ==> 4096 * Ahead(Vpn(va), Vpn(b)) + b % 4096 == b - va
  {
    hide Vpn;
    if n > 0 {
      VpnOf(va);
      VpnOf(b);
      var q, p, o := va / 4096, b / 4096, b % 4096;
      assert va == 4096 * q && b == 4096 * p + o;
    }
  }

  /** In a canonical range every byte va+k translates to pa+k with the given flags and PF_P,
      and every canonical address outside walks as before. */
  lemma MapBytes(st: PM, root: nat, va: nat, pa: nat, n: nat, fl: Flags, b: nat)
    requires WF(st) && IsRoot(st, root) && Canonical(b)
    requires va % 4096 == 0 && va + 4096 * n <= TWO64 && pa % 4096 == 0 && pa + 4096 * n <= TWO64
    requires va < TWO64 && pa < TWO64 && CanonicalRange(va, n)
    ensures MapPages(st, root, Vpn(va), pa / 4096, n, fl).Some? ==>
              var m' := MapPages(st, root, Vpn(va), pa / 4096, n, fl).value.mem;
              if InRange(va, n, b) then
                && Translate(m', root, b) == Some(pa + (b - va))
                && Walk(m', root, 4, Vpn(b)) ==
                     Leaf(1, Word((pa + (b - va)) / 4096, fl.(p := true)), Above(st.mem, root, 4, Vpn(b)))
              else Walk(m', root, 4, Vpn(b)) == Walk(st.mem, root, 4, Vpn(b))
  {
    hide WF, Walk, Above, MapPages, Hit, Canonical, CanonicalRange;
    var v, w, p := Vpn(va), Vpn(b), pa / 4096;
    ShortRange(va, n);
    if MapPages(st, root, v, p, n, fl).Some? {
      MapPagesView(st, root, v, p, n, fl, root, w);
      HitExact(v, p, n, w);
      AheadBytes(va, n, b);
      if InRange(va, n, b) {
        FrameBytes(va, pa, n, b, Ahead(v, w));
      }
    }
  }

  lemma ShortRange(va: nat, n: nat)
    requires va + 4096 * n <= TWO64 && CanonicalRange(va, n)
    ensures n <= MAX_VPN
  {
  }

  lemma FrameBytes(va: nat, pa: nat, n: nat, b: nat, d: nat)
    requires InRange(va, n, b) && 4096 * d + b % 4096 == b - va && d < n <= MAX_VPN
    requires pa % 4096 == 0 && pa + 4096 * n <= TWO64
    ensures PfnAt(pa / 4096, d) == pa / 4096 + d == (pa + (b - va)) / 4096
    ensures (pa / 4096 + d) * 4096 + b % 4096 == pa + (b - va)
  {
  }

  // The canonical address with the same low 48 bits.
  function SignExtend(x: nat): nat {
    var t := x % (2 * HALF);
    if t < HALF then t else t + (TWO64 - 2 * HALF)
  }

  /** The condition is exact: a range that leaves the canonical addresses also writes the page
      of a canonical address outside it, because only 48 bits are looked at. The size in bytes
      is an isize. */
  lemma StrayPage(va: nat, pa: nat, n: nat) returns (b: nat)
    requires va % 4096 == 0 && va < TWO64 && va + 4096 * n <= TWO64 && 4096 * n < TWO64 / 2
    requires !CanonicalRange(va, n)
    ensures Canonical(b) && !InRange(va, n, b) && Hit(Vpn(va), pa / 4096, n, Vpn(b)).Some?
  {
    if n > MAX_VPN {
      b := if va > 0 then 0 else TWO64 - 1;
      HitSome(Vpn(va), pa / 4096, n, Vpn(b));
      return;
    }
    var d := if va >= HALF then 0 else (HALF - va) / 4096;
    var x := va + 4096 * d;
    b := SignExtend(x);
    StrayAddress(va, n, d);
    HitSome(Vpn(va), pa / 4096, n, Vpn(b));
  }

  lemma StrayAddress(va: nat, n: nat, d: nat)
    requires va % 4096 == 0 && va + 4096 * n <= TWO64 && n <= MAX_VPN && !CanonicalRange(va, n)
    requires d == if va >= HALF then 0 else (HALF - va) / 4096
    ensures var b := SignExtend(va + 4096 * d);
            Canonical(b) && !InRange(va, n, b) && Vpn(va) < MAX_VPN && Ahead(Vpn(va), Vpn(b)) == d < n
  {
    hide Ahead, Vpn;
    StrayAlias(va + 4096 * d);
    StrayAhead(va, d, SignExtend(va + 4096 * d));
  }

  lemma StrayAlias(x: nat)
    requires HALF <= x < TWO64 - HALF && x % 4096 == 0
    ensures var b := SignExtend(x);
            && Canonical(b) && Vpn(b) == Vpn(x)
            && (b + 2 * HALF <= x || x + 2 * HALF <= b)
  {
    var k, t := x / (2 * HALF), x % (2 * HALF);
    var q := t / 4096;
    assert t == 4096 * q + t % 4096 && x == 4096 * (MAX_VPN * k + q) + t % 4096;
    DivExact(x, 4096, MAX_VPN * k + q, t % 4096);
    DivExact(MAX_VPN * k + q, MAX_VPN, k, q);
    var b := SignExtend(x);
    hide Vpn;
    VpnOf(b);
    if t >= HALF { DivExact(b, 4096, q + UPPER, t % 4096); }
  }

  lemma StrayAhead(va: nat, d: nat, b: nat)
    requires va % 4096 == 0 && d < MAX_VPN && Vpn(b) == Vpn(va + 4096 * d)
    ensures Vpn(va) < MAX_VPN && Ahead(Vpn(va), Vpn(b)) == d
  {
    var q := va / 4096;
    var k, r := q / MAX_VPN, q % MAX_VPN;
    DivExact(va + 4096 * d, 4096, q + d, 0);
    if r + d < MAX_VPN { DivExact(q + d, MAX_VPN, k, r + d); } else { DivExact(q + d, MAX_VPN, k + 1, r + d - MAX_VPN); }
  }
}
