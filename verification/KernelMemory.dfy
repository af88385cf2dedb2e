// kalloc.c and paging.c as they run: methods on one mutable physical memory, each
// proved to compute its specification on values. A result ok == false is a panic.
module KernelMemory {
  import opened Arch
  import Macros
  import opened PageTable
  import opened MapPage
  import opened MapRange
  import opened CopyTree
  import opened Spaces
  import opened KernelSpace

  // The page-number part of a kernel pointer to frame 0.
  const KERN_PAGE: nat := KERNBASE / 4096

  lemma Untracked(st: PM)
    requires Shaped(st.mem) && st.free == [] && st.own == map[]
    ensures WF(st) && Pool(st) == st.held && Link(st.free, 0) == ZERO
  {
  }

  // paging_map's counters step through page numbers.
  lemma PageStep(va: nat, pa: nat)
    requires va < TWO64 && pa < TWO64 && va % 4096 == 0 && pa % 4096 == 0
    ensures Vpn((va + 4096) % TWO64) == NextVpn(Vpn(va)) && ((va + 4096) % TWO64) % 4096 == 0
    ensures ((pa + 4096) % TWO64) / 4096 == NextPfn(pa / 4096) && ((pa + 4096) % TWO64) % 4096 == 0
  {
    AddressStep(va);
    AddressStep(pa);
    var q := va / 4096;
    var k, r := q / MAX_VPN, q % MAX_VPN;
    if r + 1 == MAX_VPN {
      DivExact(q + 1, MAX_VPN, k + 1, 0);
    } else {
      DivExact(q + 1, MAX_VPN, k, r + 1);
    }
  }

  lemma AddressStep(a: nat)
    requires a < TWO64 && a % 4096 == 0
    ensures (a + 4096) % TWO64 == (if a + 4096 == TWO64 then 0 else a + 4096)
    ensures (a + 4096) % 4096 == 0 && (a + 4096) / 4096 == a / 4096 + 1
  {
    DivExact(a + 4096, 4096, a / 4096 + 1, 0);
    if a + 4096 == TWO64 { DivExact(a + 4096, TWO64, 1, 0); } else { DivExact(a + 4096, TWO64, 0, a + 4096); }
  }

  lemma MapsLeaf(st: PM, root: nat, v: nat, p: nat, fl: Flags)
    requires WF(st) && IsRoot(st, root) && v < MAX_VPN
    ensures var r := MapAt(st, root, 4, v, LeafEnt(p, fl));
            r.Some? ==> Walk(r.value.mem, root, 4, v) == Leaf(1, Word(p, fl.(p := true)), Above(st.mem, root, 4, v))
  {
    hide WF, MapAt, Walk, Above;
    RootOnPath(st, root, v) by { LabelsOf(st); }
    MapAtFacts(st, root, 4, v, LeafEnt(p, fl));
  }

  /** In 64-bit words: mapping a page to the aligned address pa with the given flags leaves the
      word pa | flags | PF_P as its entry. */
  lemma MapsWord(st: PM, root: nat, v: nat, pa: bv64, flags: bv64)
    requires WF(st) && IsRoot(st, root) && v < MAX_VPN && Macros.PeFlags(pa) == 0 && flags <= 0xFFF
    ensures var r := MapAt(st, root, 4, v, LeafEnt(Macros.IntOf(pa) / 4096, Macros.FlagsOf(flags)));
            r.Some? ==> Walk(r.value.mem, root, 4, v) == Leaf(1, Macros.WordOf(pa | flags | 1), Above(st.mem, root, 4, v))
  {
    hide WF, MapAt, Walk, Above, Macros.IntOf, Macros.FlagsOf;
    Macros.EntryMacros(pa, flags);
    Macros.Shift12(pa);
    MapsLeaf(st, root, v, Macros.IntOf(pa) / 4096, Macros.FlagsOf(flags));
  }

  // The entry that is to hold a new table is still absent once the table is allocated.
  lemma NewTableEntry(st: PM, f: nat, i: nat)
    requires WF(st) && f in st.own && i < 512 && st.free != []
    requires !Present(Ent(st.mem, f, i))
    ensures !Present(Ent(Zeroed(st.mem, st.free[0]), f, i))
  {
  }

  class Memory {
    var mem: Mem
    var freelist: Word
    var nfreepages: int
    ghost var free: seq<nat>
    ghost var own: Own
    ghost var held: set<nat>

    ghost function Abs(): PM
      reads this
    {
      PM(mem, free, own, held)
    }

    // The allocator's two variables describe the list in memory.
    ghost predicate Listed()
      reads this
    {
      freelist == Link(free, 0) && nfreepages == |free|
    }

    ghost predicate Valid(open: set<nat>)
      reads this
    {
      Listed() && WFOpen(Abs(), open)
    }

    // kalloc. lab is the place of a frame that is to become a table.
    method Kalloc(ghost lab: Option<Label>) returns (ok: bool, f: nat)
      requires Listed() && Chain(mem, free)
      modifies this
      ensures Listed()
      ensures ok <==> old(free) != []
      ensures !ok ==> Abs() == old(Abs())
      ensures ok ==> f == old(free)[0] && forall j: nat :: Ent(mem, f, j) == ZERO
      ensures ok ==> Abs() == if lab.Some? then Take(old(Abs()), lab.value) else KallocFrame(old(Abs()))
    {
      if freelist == ZERO {
        return false, 0;
      }
      assert Stored(mem, free, 0);
      f := freelist.page - KERN_PAGE;
      freelist := Ent(mem, f, 0);
      nfreepages := nfreepages - 1;
      mem := Zeroed(mem, f);
      if lab.Some? {
        own := own[f := lab.value];
      } else {
        held := held + {f};
      }
      free := free[1..];
      ok := true;
    }

    method Kfree(f: nat)
      requires Listed()
      modifies this
      ensures Listed() && Abs() == KfreeFrame(old(Abs()), f)
    {
      mem := SetEnt(mem, f, 0, freelist);
      freelist := Word(KERN_PAGE + f, NOFLAGS);
      nfreepages := nfreepages + 1;
      free := [f] + free;
      held := held - {f};
    }

    // kallocinit: every whole frame from `end` to the top of memory, lowest first.
    method Kallocinit(end: nat)
      requires Shaped(mem) && |mem| == PHYS_FRAMES
      requires KERNBASE + 4096 <= end <= KERNBASE + KERN_BYTES
      requires freelist == ZERO && nfreepages == 0 && free == [] && own == map[]
      requires held == Frames((end - KERNBASE + 4095) / 4096, PHYS_FRAMES - (end - KERNBASE + 4095) / 4096)
      modifies this
      ensures Valid({}) && own == map[] && held == {}
      ensures var first := (end - KERNBASE + 4095) / 4096;
              && Pool(Abs()) == Frames(first, PHYS_FRAMES - first)
              && |free| == PHYS_FRAMES - first
              && forall i :: 0 <= i < |free| ==> free[i] == first + i
    {
      hide WFOpen, Pool, Link;
      Untracked(Abs());
      ghost var first := (end - KERNBASE + 4095) / 4096;
      ghost var n := PHYS_FRAMES;
      var it: int := KERNBASE + KERN_BYTES - 4096;
      while it >= end
        invariant it == KERNBASE + 4096 * (n - 1) && first <= n <= PHYS_FRAMES
        invariant WF(Abs()) && Listed() && own == map[] && |mem| == PHYS_FRAMES
        invariant held == Frames(first, n - first)
        invariant Pool(Abs()) == Frames(first, PHYS_FRAMES - first)
        invariant |free| == PHYS_FRAMES - n
        invariant forall i :: 0 <= i < |free| ==> free[i] == n + i
      {
        KfreeKeeps(Abs(), n - 1);
        Kfree((it - KERNBASE) / 4096);
        n := n - 1;
        it := it - 4096;
      }
    }

    // safe_nextpt_mayalloc
    method NextMayalloc(f: nat, i: nat) returns (ok: bool, c: nat)
      requires Valid({}) && f in own && own[f].level >= 2 && i < 512
      modifies this
      ensures ok <==> Next(old(Abs()), f, i).Some?
      ensures ok ==> Valid({}) && (Abs(), c) == Next(old(Abs()), f, i).value
    {
      var e := Ent(mem, f, i);
      if Present(e) {
        if Huge(e) {
          return false, 0;
        }
        return true, e.page;
      }
      ghost var st := Abs();
      if free != [] { NewTableEntry(st, f, i); }
      ok, c := Kalloc(Some(Below(own, f, i)));
      if ok {
        if Present(Ent(mem, f, i)) {
          return false, c;
        }
        mem := SetEnt(mem, f, i, Word(c, TABLE_FLAGS));
        assert Abs() == NewTable(st, f, i).0;
        NewTableKeeps(st, f, i);
      }
    }
  
    // paging_map_4K
    method Map4K(root: nat, va: nat, pa: nat, fl: Flags) returns (ok: bool)
      requires Valid({}) && IsRoot(Abs(), root)
      modifies this
      ensures ok <==> va % 4096 == 0 && pa % 4096 == 0 && MapAt(old(Abs()), root, 4, Vpn(va), LeafEnt(pa / 4096, fl)).Some?
      ensures ok ==> Valid({}) && Abs() == MapAt(old(Abs()), root, 4, Vpn(va), LeafEnt(pa / 4096, fl)).value
      ensures ok ==> Walk(mem, root, 4, Vpn(va)) == Leaf(1, Word(pa / 4096, fl.(p := true)), Above(old(mem), root, 4, Vpn(va)))
    {
      hide WFOpen, Grown, NewTable, Pre, Walk, Above;
      if va % 4096 != 0 || pa % 4096 != 0 {
        return false;
      }
      ghost var v, e := Vpn(va), LeafEnt(pa / 4096, fl);
      ghost var s0 := Abs();
      RootOnPath(s0, root, v) by { LabelsOf(s0); }
      var pdpt, pd, pt;
      ok, pdpt := NextMayalloc(root, Idx(4, Vpn(va)));
      if !ok { return; }
      ghost var s1 := Abs();
      Descend(s0, root, 4, v);
      ok, pd := NextMayalloc(pdpt, Idx(3, Vpn(va)));
      if !ok { return; }
      ghost var s2 := Abs();
      Descend(s1, pdpt, 3, v);
      ok, pt := NextMayalloc(pd, Idx(2, Vpn(va)));
      if !ok { return; }
      ghost var s3 := Abs();
      Descend(s2, pd, 2, v);
      mem := SetEnt(mem, pt, Idx(1, Vpn(va)), LeafEnt(pa / 4096, fl));
      SetLeafKeeps(s3, pt, Idx(1, v), e);
      assert MapAt(s3, pt, 1, v, e) == Some(Abs());
      assert MapAt(s2, pd, 2, v, e) == MapAt(s3, pt, 1, v, e);
      assert MapAt(s1, pdpt, 3, v, e) == MapAt(s2, pd, 2, v, e);
      MapsLeaf(s0, root, v, pa / 4096, fl);
    }

    // paging_map
    method PagingMap(root: nat, va0: nat, pa0: nat, sz0: int, fl: Flags) returns (ok: bool)
      requires Valid({}) && IsRoot(Abs(), root) && va0 < TWO64 && pa0 < TWO64
      modifies this
      ensures var n := if sz0 > 0 then sz0 / 4096 else 0;
              var r := MapPages(old(Abs()), root, Vpn(va0), pa0 / 4096, n, fl);
              && (ok <==> va0 % 4096 == 0 && pa0 % 4096 == 0 && sz0 % 4096 == 0 && r.Some?)
              && (ok ==> Valid({}) && Abs() == r.value)
    {
      hide WFOpen, Grown, MapAt, Link, Walk, Above;
      if va0 % 4096 != 0 || pa0 % 4096 != 0 || sz0 % 4096 != 0 {
        return false;
      }
      ghost var st := Abs();
      ghost var n := if sz0 > 0 then sz0 / 4096 else 0;
      ghost var r := MapPages(st, root, Vpn(va0), pa0 / 4096, n, fl);
      var va: nat, pa: nat, sz: int := va0, pa0, sz0;
      while sz > 0
        invariant va < TWO64 && pa < TWO64
        invariant va % 4096 == 0 && pa % 4096 == 0 && sz % 4096 == 0
        invariant Valid({}) && IsRoot(Abs(), root)
        invariant r == MapPages(Abs(), root, Vpn(va), pa / 4096, if sz > 0 then sz / 4096 else 0, fl)
      {
        if sz >= 4096 && va % 4096 == 0 && pa % 4096 == 0 {
          ghost var s1 := Abs();
          ok := Map4K(root, va, pa, fl);
          if !ok { return; }
          MapOneKeeps(s1, root, Vpn(va), LeafEnt(pa / 4096, fl));
          PageStep(va, pa);
          va, pa, sz := (va + 4096) % TWO64, (pa + 4096) % TWO64, sz - 4096;
        } else {
          assert false;
          return false;
        }
      }
      ok := true;
    }

    // paging_getpteref: the entry that ends the walk for va.
    method Getpteref(root: nat, va: nat) returns (found: bool, f: nat, i: nat)
      ensures found <==> Walk(mem, root, 4, Vpn(va)).Leaf?
      ensures found ==> f == EndTable(mem, root, 4, Vpn(va))
                        && Walk(mem, root, 4, Vpn(va)).ent == Ent(mem, f, i)
                        && i == Idx(Walk(mem, root, 4, Vpn(va)).level, Vpn(va))
    {
      f, i := root, Idx(4, Vpn(va));
      var e := Ent(mem, f, i);
      if !Present(e) { return false, f, i; }
      if Huge(e) { return true, f, i; }
      f, i := e.page, Idx(3, Vpn(va));
      e := Ent(mem, f, i);
      if !Present(e) { return false, f, i; }
      if Huge(e) { return true, f, i; }
      f, i := e.page, Idx(2, Vpn(va));
      e := Ent(mem, f, i);
      if !Present(e) { return false, f, i; }
      if Huge(e) { return true, f, i; }
      f, i := e.page, Idx(1, Vpn(va));
      e := Ent(mem, f, i);
      if !Present(e) { return false, f, i; }
      return true, f, i;
    }

    // pt_deepcopy_level
    method Deepcopy(f: nat, l: nat, ghost lab: Label, ghost open: set<nat>) returns (ok: bool, c: nat)
      requires Listed() && TableReady(Abs(), open, f, l, lab)
      modifies this
      ensures ok <==> CopyTable(old(Abs()), f, l, lab).Some?
      ensures ok ==> Listed() && (Abs(), c) == CopyTable(old(Abs()), f, l, lab).value
      decreases l
    {
      hide WFOpen, Cloned, Count, Link;
      ghost var st := Abs();
      ChainOf(st, open);
      CopyTableFacts(st, open, f, l, lab);
      ok, c := Kalloc(Some(lab));
      if !ok { return; }
      ghost var s1 := Abs();
      TakeKeeps(st, open, lab);
      ClonedOwn(st, s1, lab.root, c, f);
      if l == 1 {
        mem := SetFrame(mem, c, Row(mem, f));
        return;
      }
      var i := 0;
      while i < 512
        invariant 0 <= i <= 512 && Listed()
        invariant EntriesReady(Abs(), open + {c}, f, c, l, i)
        invariant CopyEntries(s1, f, c, l, 0) == CopyEntries(Abs(), f, c, l, i)
      {
        ok := CopyOne(f, c, l, i, open + {c});
        if !ok { return; }
        i := i + 1;
      }
      ok := true;
    }

    // One turn of the loop of pt_deepcopy_level.
    method CopyOne(f: nat, c: nat, l: nat, i: nat, ghost open: set<nat>) returns (ok: bool)
      requires Listed() && EntriesReady(Abs(), open, f, c, l, i) && i < 512
      modifies this
      ensures ok <==> CopyEntry(old(Abs()), f, c, l, i).Some?
      ensures ok ==> Listed() && Abs() == CopyEntry(old(Abs()), f, c, l, i).value
                     && EntriesReady(Abs(), open, f, c, l, i + 1)
      decreases l, 0
    {
      hide WFOpen, Cloned, Count, Link, CopyTable;
      CopyEntryFacts(Abs(), open, f, c, l, i);
      var e := Ent(mem, f, i);
      if !Present(e) {
        return true;
      }
      if Huge(e) {
        mem := SetEnt(mem, c, i, e);
        return true;
      }
      ChildReady(Abs(), open, f, c, l, i);
      var d;
      ok, d := Deepcopy(e.page, l - 1, Below(own, c, i), open);
      if !ok { return; }
      if Present(Ent(mem, c, i)) {
        return false;
      }
      mem := SetEnt(mem, c, i, Word(d, e.flags));
    }
  
    // paginginit_bsp, without loading CR3
    method PaginginitBsp() returns (ok: bool, k: nat)
      requires Valid({})
      modifies this
      ensures ok <==> PagingInit(old(Abs())).Some?
      ensures ok ==> Valid({}) && (Abs(), k) == PagingInit(old(Abs())).value
    {
      hide WFOpen, Grown, MapPages, Cloned, Roomy, Bare, Walk;
      ghost var st := Abs();
      ChainOf(st, {});
      ok, k := Kalloc(Some(RootLabel(free)));
      if !ok { return; }
      NewRootFacts(st);
      KernelAddresses();
      ghost var s0 := Abs();
      ok := PagingMap(k, KERNBASE, 0, KERN_BYTES, KERN_FLAGS);
      if !ok { return; }
      MapPagesKeeps(s0, k, V_KERN, 0, PHYS_FRAMES, KERN_FLAGS);
      GrownRoot(s0, Abs(), k, 4, k);
      ok := PagingMap(k, DEVBASE, DEV_PHYS, DEV_BYTES, DEV_FLAGS);
    }

    // uvminit for the user segment [ubegin, uend)
    method Uvminit(k: nat, ubegin: nat, uend: nat) returns (ok: bool, u: nat)
      requires Valid({}) && IsRoot(Abs(), k)
      requires KERNBASE <= ubegin <= uend < TWO64 && ubegin % 4096 == 0 && uend % 4096 == 0
      modifies this
      ensures var r := UvmInit(old(Abs()), k, (ubegin - KERNBASE) / 4096, (uend - ubegin) / 4096);
              && (ok <==> r.Some?)
              && (ok ==> Valid({}) && (Abs(), u) == r.value)
    {
      hide WFOpen, MapPages, Cloned, CopyTable, Tables, Link;
      ghost var st := Abs();
      ghost var n := (uend - ubegin) / 4096;
      ListEmpty(st);
      if freelist == ZERO {
        return false, 0;
      }
      CopyReady(st, k);
      CopyRootCost(st, k);
      ok, u := Deepcopy(k, 4, RootLabel(free), {});
      if !ok { return; }
      UserAddresses(ubegin, uend);
      ok := PagingMap(u, ubegin, ubegin - KERNBASE, uend - ubegin, USER_FLAGS);
    }
  
    /** main's memory part, from bare memory: with room for 56 tables it runs without a panic
        and leaves exactly the kernel space and the user space, 56 frames poorer. */
    method BootMemory(end: nat, ubegin: nat, uend: nat) returns (k: nat, u: nat)
      requires Shaped(mem) && |mem| == PHYS_FRAMES
      requires freelist == ZERO && nfreepages == 0 && free == [] && own == map[]
      requires KERNBASE + 4096 <= end <= KERNBASE + KERN_BYTES - 56 * 4096
      requires held == Frames((end - KERNBASE + 4095) / 4096, PHYS_FRAMES - (end - KERNBASE + 4095) / 4096)
      requires KERNBASE <= ubegin <= uend <= KERNBASE + KERN_BYTES && ubegin % 4096 == 0 && uend % 4096 == 0
      modifies this
      ensures Valid({}) && Booted(Abs(), k, u, Frames((ubegin - KERNBASE) / 4096, (uend - ubegin) / 4096))
      ensures nfreepages == PHYS_FRAMES - (end - KERNBASE + 4095) / 4096 - 56
    {
      hide WFOpen, PagingInit, UvmInit, Booted, IsKernelSpace, Roomy, Pool;
      Kallocinit(end);
      BootSpec(Abs(), (ubegin - KERNBASE) / 4096, (uend - ubegin) / 4096);
      PagingInitSpec(Abs());
      var ok;
      ok, k := PaginginitBsp();
      ok, u := Uvminit(k, ubegin, uend);
    }
  }

  lemma ListEmpty(st: PM)
    ensures Link(st.free, 0) == ZERO <==> st.free == []
  {
  }

  lemma KernelAddresses()
    ensures Vpn(KERNBASE) == V_KERN && Vpn(DEVBASE) == V_DEV && DEV_PHYS / 4096 == DEV_FRAME
    ensures KERN_BYTES / 4096 == PHYS_FRAMES && DEV_BYTES / 4096 == DEV_PAGES
    ensures KERNBASE % 4096 == 0 && DEVBASE % 4096 == 0 && DEV_PHYS % 4096 == 0
  {
  }

  lemma UserAddresses(ubegin: nat, uend: nat)
    requires KERNBASE <= ubegin <= uend < TWO64 && ubegin % 4096 == 0 && uend % 4096 == 0
    ensures Vpn(ubegin) == V_KERN + (ubegin - KERNBASE) / 4096 && (uend - ubegin) % 4096 == 0
  {
    hide Vpn;
    VpnOf(ubegin);
    DivExact(ubegin - KERNBASE, 4096, ubegin / 4096 - KERNBASE / 4096, 0);
    DivExact(uend - ubegin, 4096, uend / 4096 - ubegin / 4096, 0);
  }

  // The root that the next kalloc would make.
  function RootLabel(free: seq<nat>): Label {
    if free == [] then Label(0, 4, 0, 0, 0) else Label(free[0], 4, 0, free[0], 0)
  }

  lemma LabelsOf(st: PM)
    requires WF(st)
    ensures Labels(st.mem, st.own)
  {
  }

  lemma ChainOf(st: PM, open: set<nat>)
    requires WFOpen(st, open)
    ensures Chain(st.mem, st.free)
  {
  }
}
