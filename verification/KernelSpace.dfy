// The two address spaces the kernel builds at boot, and what they are for ever after.
module KernelSpace {
  import opened Arch
  import opened PageTable
  import opened MapPage
  import opened MapRange
  import opened CopyTree
  import opened Spaces

  const PHYS_FRAMES: nat := 4096                // MAX_PHYS_MEM / PG_SZ4K
  const V_KERN: nat := 0xF_FFF8_0000            // page number of KERNBASE
  const V_DEV: nat := 0xF_FFF4_0000             // page number of DEVBASE
  const DEV_FRAME: nat := 0xF_E000              // 0xFE000000 / PG_SZ4K
  const DEV_PAGES: nat := 8192                  // 16 * PG_SZ2M / PG_SZ4K

  const KERN_FLAGS := NOFLAGS.(w := true)
  const DEV_FLAGS := NOFLAGS.(pwt := true, pcd := true)
  const USER_FLAGS := NOFLAGS.(w := true, u := true)

  // kalloc for a top-level table
  function NewRoot(st: PM): Option<(PM, nat)> {
    if st.free == [] then None
    else Some((Take(st, Label(st.free[0], 4, 0, st.free[0], 0)), st.free[0]))
  }

  // paginginit_bsp
  function PagingInit(st: PM): Option<(PM, nat)> {
    match NewRoot(st)
    case None => None
    case Some((s0, k)) =>
      match MapPages(s0, k, V_KERN, 0, PHYS_FRAMES, KERN_FLAGS)
      case None => None
      case Some(s1) =>
        match MapPages(s1, k, V_DEV, DEV_FRAME, DEV_PAGES, DEV_FLAGS)
        case None => None
        case Some(s2) => Some((s2, k))
  }

  // uvminit, for a user segment of n frames from frame p
  function UvmInit(st: PM, k: nat, p: nat, n: nat): Option<(PM, nat)> {
    match CopyRoot(st, k)
    case None => None
    case Some((s1, u)) =>
      match MapPages(s1, u, V_KERN + p, p, n, USER_FLAGS)
      case None => None
      case Some(s2) => Some((s2, u))
  }

  // ---- what the spaces should be ---------------------------------------------------

  const ABOVE := [TABLE_FLAGS, TABLE_FLAGS, TABLE_FLAGS]

  function KernelMap(w: nat): Mapping {
    if V_KERN <= w < V_KERN + PHYS_FRAMES then Leaf(1, LeafEnt(w - V_KERN, KERN_FLAGS), ABOVE)
    else if V_DEV <= w < V_DEV + DEV_PAGES then Leaf(1, LeafEnt(DEV_FRAME + (w - V_DEV), DEV_FLAGS), ABOVE)
    else Unmapped
  }

  // As the kernel's, but the given frames are open to user code.
  function UserMap(open: set<nat>, w: nat): Mapping {
    if V_KERN <= w < V_KERN + PHYS_FRAMES && w - V_KERN in open
    then Leaf(1, LeafEnt(w - V_KERN, USER_FLAGS), ABOVE)
    else KernelMap(w)
  }

  // Every path is free of huge pages and every entry above a leaf carries P, W and U.
  ghost predicate Roomy(m: Mem, r: nat) {
    forall w {:trigger Above(m, r, 4, w)} {:trigger PathOk(m, r, 4, w)} :: 0 <= w < MAX_VPN ==>
      Above(m, r, 4, w) == ABOVE && PathOk(m, r, 4, w)
  }

  ghost predicate IsKernelSpace(m: Mem, r: nat) {
    forall w {:trigger Walk(m, r, 4, w)} :: 0 <= w < MAX_VPN ==> Walk(m, r, 4, w) == KernelMap(w)
  }

  ghost predicate IsUserSpace(m: Mem, r: nat, open: set<nat>) {
    forall w {:trigger Walk(m, r, 4, w)} :: 0 <= w < MAX_VPN ==> Walk(m, r, 4, w) == UserMap(open, w)
  }

  // ---- the cost of a range in an empty space -----------------------------------------

  // The table places over pages v .. v+n-1 that share their upper two tables.
  function Span(v: nat, n: nat): set<(nat, nat)>
    requires 1 <= n
  {
    {(3, Pre(3, v)), (2, Pre(2, v))} + Row1(Pre(1, v), Pre(1, v + n - 1))
  }

  function Row1(a: nat, b: nat): set<(nat, nat)> { set i | a <= i <= b :: (1, i) }

  lemma {:induction false} Row1Size(a: nat, b: nat)
    requires a <= b + 1
    ensures |Row1(a, b)| == b + 1 - a
    decreases b + 1 - a
  {
    if a <= b {
      Row1Size(a + 1, b);
      assert Row1(a, b) == {(1, a)} + Row1(a + 1, b);
    } else {
      assert Row1(a, b) == {};
    }
  }

  ghost predicate Bare(m: Mem, root: nat) {
    forall j: nat :: Ent(m, root, j) == ZERO
  }

  lemma BareMiss(m: Mem, root: nat, v: nat)
    requires Bare(m, root)
    ensures Miss(m, root, 4, v) == {(3, Pre(3, v)), (2, Pre(2, v)), (1, Pre(1, v))}
  {
    hide Pre;
    assert Miss(m, root, 4, v) == Places(3, v);
    assert Places(1, v) == {(1, Pre(1, v))};
    assert Places(2, v) == {(2, Pre(2, v))} + Places(1, v);
    assert Places(3, v) == {(3, Pre(3, v))} + Places(2, v);
  }

  // Pages v to v+n-1 share their upper two tables; so do the pages after v.
  lemma PreStep(v: nat, n: nat)
    requires 2 <= n && Pre(2, v) == Pre(2, v + n - 1)
    ensures Pre(2, v + 1) == Pre(2, v) && Pre(3, v + 1) == Pre(3, v)
    ensures Pre(1, v) <= Pre(1, v + 1) <= Pre(1, v) + 1 && Pre(1, v + 1) <= Pre(1, v + n - 1)
  {
    PreMono(1, v + 1, v + n - 1);
    PreMono(2, v, v + 1);
    PreMono(2, v + 1, v + n - 1);
    assert Pre(1, v + 1) == (v + 1) / 512 && Pre(1, v) == v / 512;
    assert Pre(3, v + 1) == Pre(2, v + 1) / 512;
  }

  lemma {:induction false} BareMissing(m: Mem, root: nat, v: nat, n: nat)
    requires Bare(m, root) && 1 <= n && v + n <= MAX_VPN && Pre(2, v) == Pre(2, v + n - 1)
    ensures Missing(m, root, v, n) == Span(v, n)
    decreases n
  {
    hide Miss, Pre;
    BareMiss(m, root, v);
    if n == 1 {
      assert Missing(m, root, NextVpn(v), 0) == {};
    } else {
      PreStep(v, n);
      BareMissing(m, root, v + 1, n - 1);
    }
  }

  lemma {:induction false} PreMono(l: nat, v: nat, w: nat)
    requires v <= w
    ensures Pre(l, v) <= Pre(l, w)
  {
    if l > 0 { PreMono(l - 1, v, w); }
  }

  lemma SpanSizes(p3: nat, a2: nat, a: nat, a': nat, b2: nat, b: nat, b': nat)
    requires a2 != b2 && a <= a' && b <= b' && (a' < b || b' < a)
    ensures |{(3, p3), (2, a2)} + Row1(a, a')| == a' - a + 3
    ensures |({(3, p3), (2, b2)} + Row1(b, b')) - ({(3, p3), (2, a2)} + Row1(a, a'))| == b' - b + 2
  {
    Row1Size(a, a');
    Row1Size(b, b');
    assert ({(3, p3), (2, b2)} + Row1(b, b')) - ({(3, p3), (2, a2)} + Row1(a, a')) == {(2, b2)} + Row1(b, b');
  }

  // 10 tables for the kernel window, 17 more for the device window.
  lemma WindowCost(m: Mem, root: nat)
    requires Bare(m, root)
    ensures |Missing(m, root, V_KERN, PHYS_FRAMES)| == 10
    ensures |Missing(m, root, V_DEV, DEV_PAGES) - Missing(m, root, V_KERN, PHYS_FRAMES)| == 17
  {
    hide Missing, Pre, Row1;
    KernPlaces();
    DevPlaces();
    BareMissing(m, root, V_KERN, PHYS_FRAMES);
    BareMissing(m, root, V_DEV, DEV_PAGES);
    SpanSizes(511, 0x3_FFFE, 0x7FF_FC00, 0x7FF_FC07, 0x3_FFFD, 0x7FF_FA00, 0x7FF_FA0F);
  }

  lemma KernPlaces()
    ensures Pre(1, V_KERN) == 0x7FF_FC00 && Pre(1, V_KERN + PHYS_FRAMES - 1) == 0x7FF_FC07
    ensures Pre(2, V_KERN) == 0x3_FFFE && Pre(2, V_KERN + PHYS_FRAMES - 1) == 0x3_FFFE
    ensures Pre(3, V_KERN) == 511
  {
    assert Pre(2, V_KERN + PHYS_FRAMES - 1) == Pre(1, V_KERN + PHYS_FRAMES - 1) / 512;
  }

  lemma DevPlaces()
    ensures Pre(1, V_DEV) == 0x7FF_FA00 && Pre(1, V_DEV + DEV_PAGES - 1) == 0x7FF_FA0F
    ensures Pre(2, V_DEV) == 0x3_FFFD && Pre(2, V_DEV + DEV_PAGES - 1) == 0x3_FFFD
    ensures Pre(3, V_DEV) == 511
  {
    assert Pre(2, V_DEV + DEV_PAGES - 1) == Pre(1, V_DEV + DEV_PAGES - 1) / 512;
  }

  // ---- one range in a space without huge pages ---------------------------------------

  lemma {:induction false} RoomyPaths(m: Mem, r: nat, v: nat, n: nat)
    requires Roomy(m, r) && v < MAX_VPN
    ensures PathsOk(m, r, v, n)
    decreases n
  {
    hide PathOk;
    if n > 0 { RoomyPaths(m, r, NextVpn(v), n - 1); }
  }

  lemma MapWindow(st: PM, r: nat, v: nat, p: nat, n: nat, fl: Flags)
    requires WF(st) && IsRoot(st, r) && Roomy(st.mem, r)
    requires v < MAX_VPN && v + n <= MAX_VPN && p + n <= MAX_PFN && p < MAX_PFN
    ensures MapPages(st, r, v, p, n, fl).Some? <==> |Missing(st.mem, r, v, n)| <= |st.free|
    ensures MapPages(st, r, v, p, n, fl).Some? ==>
              var s' := MapPages(st, r, v, p, n, fl).value;
              && WF(s') && Grown(st, s', r, 4) && Roomy(s'.mem, r)
              && |s'.free| == |st.free| - |Missing(st.mem, r, v, n)|
              && forall w {:trigger Walk(s'.mem, r, 4, w)} :: 0 <= w < MAX_VPN ==>
                   Walk(s'.mem, r, 4, w) ==
                     if v <= w < v + n then Leaf(1, LeafEnt(p + (w - v), fl), ABOVE) else Walk(st.mem, r, 4, w)
  {
    hide WF, Grown, Walk, Above, PathOk, Missing, MapPages;
    RoomyPaths(st.mem, r, v, n);
    MapPagesCost(st, r, v, p, n, fl);
    if MapPages(st, r, v, p, n, fl).Some? {
      MapPagesKeeps(st, r, v, p, n, fl);
      forall w | 0 <= w < MAX_VPN
        ensures var m' := MapPages(st, r, v, p, n, fl).value.mem;
                && Above(m', r, 4, w) == ABOVE && PathOk(m', r, 4, w)
                && Walk(m', r, 4, w) == if v <= w < v + n then Leaf(1, LeafEnt(p + (w - v), fl), ABOVE) else Walk(st.mem, r, 4, w)
      {
        MapPagesView(st, r, v, p, n, fl, r, w);
        HitExact(v, p, n, w);
      }
    }
  }

  lemma NewRootFacts(st: PM)
    requires WF(st) && st.free != []
    ensures var (s0, k) := NewRoot(st).value;
            && WF(s0) && IsRoot(s0, k) && k !in st.own && s0.own == st.own[k := Label(k, 4, 0, k, 0)]
            && Cloned(st, s0, k, k) && Bare(s0.mem, k) && Roomy(s0.mem, k)
            && (forall w :: 0 <= w < MAX_VPN ==> Walk(s0.mem, k, 4, w) == Unmapped)
            && |s0.free| == |st.free| - 1
  {
    hide Labels, Down, Up, Chain, Cloned, Walk, Above, PathOk;
    var (s0, k) := NewRoot(st).value;
    TakeKeeps(st, {}, s0.own[k]);
    assert {} + {k} == {k};
    CopyClosed(s0, k);
    forall w | 0 <= w < MAX_VPN
      ensures Walk(s0.mem, k, 4, w) == Unmapped && Above(s0.mem, k, 4, w) == ABOVE && PathOk(s0.mem, k, 4, w)
    {
      EmptyTable(s0.mem, k, 4, w);
      AboveEmpty(w);
    }
  }

  lemma AboveEmpty(w: nat)
    ensures Above([], 0, 4, w) == ABOVE
  {
    assert Above([], 0, 1, w) == [];
    assert Above([], 0, 2, w) == [TABLE_FLAGS];
    assert Above([], 0, 3, w) == [TABLE_FLAGS, TABLE_FLAGS];
  }

  // ---- boot ---------------------------------------------------------------------------

  /** paginginit_bsp needs exactly 28 free frames, and builds exactly the kernel space. */
  lemma PagingInitSpec(st: PM)
    requires WF(st) && st.own == map[]
    ensures PagingInit(st).Some? <==> |st.free| >= 28
    ensures PagingInit(st).Some? ==>
              var (s', k) := PagingInit(st).value;
              && WF(s') && IsRoot(s', k) && Roomy(s'.mem, k) && IsKernelSpace(s'.mem, k)
              && |s'.free| == |st.free| - 28 && |Tables(s'.own, k)| == 28
              && Pool(s') == Pool(st)
  {
    hide WF, Grown, Cloned, Pool, Walk, Above, PathOk, Missing, MapPages, Roomy, Bare;
    if st.free != [] {
      var (s0, k) := NewRoot(st).value;
      NewRootFacts(st);
      ClonedPool(st, s0, k, k);
      WindowCost(s0.mem, k);
      MapWindow(s0, k, V_KERN, 0, PHYS_FRAMES, KERN_FLAGS);
      if MapPages(s0, k, V_KERN, 0, PHYS_FRAMES, KERN_FLAGS).Some? {
        var s1 := MapPages(s0, k, V_KERN, 0, PHYS_FRAMES, KERN_FLAGS).value;
        GrownPool(s0, s1, k, 4);
        GrownRoot(s0, s1, k, 4, k);
        MapPagesRest(s0, k, V_KERN, 0, PHYS_FRAMES, KERN_FLAGS, V_DEV, DEV_PAGES);
        MapWindow(s1, k, V_DEV, DEV_FRAME, DEV_PAGES, DEV_FLAGS);
        if MapPages(s1, k, V_DEV, DEV_FRAME, DEV_PAGES, DEV_FLAGS).Some? {
          var s2 := MapPages(s1, k, V_DEV, DEV_FRAME, DEV_PAGES, DEV_FLAGS).value;
          GrownPool(s1, s2, k, 4);
          GrownRoot(s1, s2, k, 4, k);
          GrownTrans(s0, s1, s2, k, 4, 4);
          AllTables(st, s0, s2, k);
        }
      }
    }
  }

  lemma AllTables(st: PM, s0: PM, s2: PM, k: nat)
    requires WF(st) && WF(s2) && st.own == map[] && s0.own == st.own[k := Label(k, 4, 0, k, 0)]
    requires Grown(s0, s2, k, 4) && Pool(s2) == Pool(st) && s0.held == st.held
    ensures |Tables(s2.own, k)| == |st.free| - |s2.free|
  {
    hide Labels, Down, Up, Stored;
    PoolSize(st);
    PoolSize(s2);
    assert Tables(s2.own, k) == s2.own.Keys;
  }

  function Frames(p: nat, n: nat): (r: set<nat>)
    ensures forall x :: x in r <==> p <= x < p + n
    decreases n
  {
    if n == 0 then {} else {p} + Frames(p + 1, n - 1)
  }

  // Spaces seen alike are the same space.
  ghost predicate AllSame(m: Mem, f: nat, m': Mem, g: nat) {
    forall w {:trigger Walk(m, f, 4, w)} {:trigger Above(m, f, 4, w)} {:trigger PathOk(m, f, 4, w)} ::
      0 <= w < MAX_VPN ==> SameSight(m, f, m', g, 4, w)
  }

  lemma SameSpace(m: Mem, f: nat, m': Mem, g: nat)
    requires AllSame(m, f, m', g) && Roomy(m', g)
    ensures Roomy(m, f)
    ensures IsKernelSpace(m', g) ==> IsKernelSpace(m, f) && IsUserSpace(m, f, {})
    ensures forall open :: IsUserSpace(m', g, open) ==> IsUserSpace(m, f, open)
  {
    hide Walk, Above, PathOk;
  }

  ghost predicate Booted(st: PM, k: nat, u: nat, open: set<nat>) {
    && WF(st) && IsRoot(st, k) && IsRoot(st, u) && k != u
    && Roomy(st.mem, k) && IsKernelSpace(st.mem, k)
    && Roomy(st.mem, u) && IsUserSpace(st.mem, u, open)
  }

  // Remapping mapped pages takes no frame.
  lemma {:induction false} RemapFree(m: Mem, r: nat, v: nat, n: nat)
    requires v + n <= MAX_VPN && forall w {:trigger Walk(m, r, 4, w)} :: v <= w < v + n ==> Walk(m, r, 4, w).Leaf?
    ensures Missing(m, r, v, n) == {}
    decreases n
  {
    hide Walk, Miss;
    if n > 0 {
      MappedMissesNone(m, r, 4, v);
      if n > 1 { RemapFree(m, r, v + 1, n - 1); }
    }
  }

  /** Opening frames p .. p+n-1 to user code succeeds, takes no frame, and changes nothing else. */
  lemma OpenFrames(st: PM, k: nat, u: nat, open: set<nat>, p: nat, n: nat)
    requires Booted(st, k, u, open) && p + n <= PHYS_FRAMES
    ensures MapPages(st, u, V_KERN + p, p, n, USER_FLAGS).Some?
    ensures var s' := MapPages(st, u, V_KERN + p, p, n, USER_FLAGS).value;
            && Booted(s', k, u, open + Frames(p, n))
            && |s'.free| == |st.free| && Grown(st, s', u, 4)
  {
    hide WF, Grown, Walk, Above, PathOk, Missing, MapPages;
    RemapFree(st.mem, u, V_KERN + p, n);
    MapWindow(st, u, V_KERN + p, p, n, USER_FLAGS);
    var s' := MapPages(st, u, V_KERN + p, p, n, USER_FLAGS).value;
    GrownRoot(st, s', u, 4, u);
    GrownRoot(st, s', u, 4, k);
    forall w | 0 <= w < MAX_VPN
      ensures Walk(s'.mem, k, 4, w) == KernelMap(w) && Above(s'.mem, k, 4, w) == ABOVE && PathOk(s'.mem, k, 4, w)
    {
      MapPagesView(st, u, V_KERN + p, p, n, USER_FLAGS, k, w);
    }
  }

  /** uvminit succeeds exactly when the copy fits, and then opens exactly the user segment. */
  lemma UvmInitSpec(st: PM, k: nat, p: nat, n: nat)
    requires WF(st) && IsRoot(st, k) && Roomy(st.mem, k) && IsKernelSpace(st.mem, k)
    requires p + n <= PHYS_FRAMES
    ensures UvmInit(st, k, p, n).Some? <==> |Tables(st.own, k)| <= |st.free|
    ensures UvmInit(st, k, p, n).Some? ==>
              var (s', u) := UvmInit(st, k, p, n).value;
              && Booted(s', k, u, Frames(p, n))
              && |s'.free| == |st.free| - |Tables(st.own, k)|
  {
    hide WF, Walk, Above, PathOk, MapPages, CopyRoot, Tables, Cloned;
    CopyRootCost(st, k);
    if CopyRoot(st, k).Some? {
      var (s1, u) := CopyRoot(st, k).value;
      ClonedOwn(st, s1, u, u, k);
      forall w | 0 <= w < MAX_VPN
        ensures SameSight(s1.mem, u, st.mem, k, 4, w) && SameSight(s1.mem, k, st.mem, k, 4, w)
      {
        CopyRootView(st, k, k, w);
      }
      SameSpace(s1.mem, u, st.mem, k);
      SameSpace(s1.mem, k, st.mem, k);
      OpenFrames(s1, k, u, {}, p, n);
      assert {} + Frames(p, n) == Frames(p, n);
    }
  }

  /** From 56 free frames up, boot leads to the two spaces; 28 frames go to each. */
  lemma BootSpec(st: PM, p: nat, n: nat)
    requires WF(st) && st.own == map[] && p + n <= PHYS_FRAMES && |st.free| >= 56
    ensures PagingInit(st).Some?
    ensures var (s1, k) := PagingInit(st).value;
            && UvmInit(s1, k, p, n).Some?
            && var (s2, u) := UvmInit(s1, k, p, n).value;
            && Booted(s2, k, u, Frames(p, n)) && |s2.free| == |st.free| - 56
  {
    hide PagingInit, UvmInit, WF, Booted, IsKernelSpace, Roomy, Pool;
    PagingInitSpec(st);
    var (s1, k) := PagingInit(st).value;
    UvmInitSpec(s1, k, p, n);
  }

  // ---- after boot -----------------------------------------------------------------------

  // spawnuser maps one stack frame under u; nothing else maps under k or u.
  predicate BootOp(op: Op, k: nat, u: nat) {
    op.Map? ==> op.root != k && (op.root == u ==> IsStackMap(op))
  }

  predicate IsStackMap(op: Op)
    requires op.Map?
  {
    op.p < PHYS_FRAMES && op.v == V_KERN + op.p && op.n == 1 && op.fl == USER_FLAGS
  }

  function Opened(ops: seq<Op>, u: nat): set<nat> {
    set op | op in ops && op.Map? && op.root == u :: op.p
  }

  lemma BootStep(st: PM, k: nat, u: nat, open: set<nat>, op: Op)
    requires Booted(st, k, u, open) && BootOp(op, k, u) && Legal(st, op) && Apply(st, op).Some?
    ensures Booted(Apply(st, op).value, k, u, open + Opened([op], u))
  {
    hide Booted, MapPages, CopyRoot, KallocFrame, KfreeFrame, Legal;
    if op.Map? && op.root == u {
      OpenFrames(st, k, u, open, op.p, 1);
      assert op in [op];
      assert Opened([op], u) == Frames(op.p, 1);
    } else {
      assert Opened([op], u) == {};
      assert open + {} == open;
      StepElsewhere(st, k, u, open, op);
    }
  }

  lemma StepElsewhere(st: PM, k: nat, u: nat, open: set<nat>, op: Op)
    requires Booted(st, k, u, open) && Legal(st, op) && Apply(st, op).Some?
    requires op.Map? ==> op.root != k && op.root != u
    ensures Booted(Apply(st, op).value, k, u, open)
  {
    hide WF, Apply, Legal, Walk, Above, PathOk, Roomy, IsKernelSpace, IsUserSpace, AllSame, Agree;
    var s' := Apply(st, op).value;
    ApplyKeeps(st, op);
    ApplyOther(st, op, k);
    ApplyOther(st, op, u);
    KeptSame(st, s', k);
    KeptSame(st, s', u);
    SameSpace(s'.mem, k, st.mem, k);
    SameSpace(s'.mem, u, st.mem, u);
  }

  lemma KeptSame(st: PM, s': PM, r: nat)
    requires WF(st) && IsRoot(st, r) && Kept(st, s', r)
    ensures AllSame(s'.mem, r, st.mem, r)
  {
    hide Labels, Down, Up, Chain, Walk, Above, PathOk;
    TablesUnder(st, r);
    forall w | 0 <= w < MAX_VPN ensures SameSight(s'.mem, r, st.mem, r, 4, w) {
      SameBelow(st, {}, s'.mem, r, 4, w);
    }
  }

  /** In every state reachable after boot the kernel space is what boot made it, and the
      user space is open in exactly the user segment and the stacks mapped since. */
  lemma {:induction false} AfterBoot(st: PM, k: nat, u: nat, open: set<nat>, ops: seq<Op>, st': PM)
    requires Booted(st, k, u, open) && Reaches(st, ops, st')
    requires forall op :: op in ops ==> BootOp(op, k, u)
    ensures Booted(st', k, u, open + Opened(ops, u))
    decreases |ops|
  {
    hide Booted, Apply, Legal;
    if ops == [] {
      assert open + Opened(ops, u) == open;
    } else {
      assert ops[0] in ops;
      BootStep(st, k, u, open, ops[0]);
      assert forall op :: op in ops[1..] ==> op in ops;
      AfterBoot(Apply(st, ops[0]).value, k, u, open + Opened([ops[0]], u), ops[1..], st');
      assert ops == [ops[0]] + ops[1..];
      assert Opened(ops, u) == Opened([ops[0]], u) + Opened(ops[1..], u);
      assert open + Opened([ops[0]], u) + Opened(ops[1..], u) == open + Opened(ops, u);
    }
  }

  // ---- in byte addresses ------------------------------------------------------------------

  // The frame-number bits below which a level-l page does not translate.
  function PageOf(l: nat, page: nat, v: nat): nat
    requires 1 <= l
  {
    if l == 1 then page else PageOf(l - 1, page / 512, v / 512) * 512 + v % 512
  }

  function Translate(m: Mem, r: nat, va: nat): Option<nat> {
    match Walk(m, r, 4, Vpn(va))
    case Unmapped => None
    case Leaf(l, e, _) => if l == 0 then None else Some(PageOf(l, e.page, Vpn(va)) * 4096 + va % 4096)
  }

  // Effective rights: every entry on the walk must grant them (section 4.6 of the SDM).
  predicate UserAccess(mp: Mapping) {
    mp.Leaf? && mp.ent.flags.u && forall i :: 0 <= i < |mp.above| ==> mp.above[i].u
  }

  predicate WriteAccess(mp: Mapping) {
    mp.Leaf? && mp.ent.flags.w && forall i :: 0 <= i < |mp.above| ==> mp.above[i].w
  }

  const KERN_BYTES: nat := 0x100_0000           // 16M
  const DEV_BYTES: nat := 0x200_0000            // 32M
  const DEV_PHYS: nat := 0xFE00_0000

  /** Both spaces map KERNBASE+x to x below 16M and DEVBASE+x to 0xFE000000+x below 32M and
      nothing else; user code reaches nothing through k, and through u exactly the open frames. */
  lemma SpacesExact(st: PM, k: nat, u: nat, open: set<nat>, va: nat)
    requires Booted(st, k, u, open) && Canonical(va)
    ensures var pa := if KERNBASE <= va < KERNBASE + KERN_BYTES then Some(va - KERNBASE)
                      else if DEVBASE <= va < DEVBASE + DEV_BYTES then Some(DEV_PHYS + (va - DEVBASE))
                      else None;
            Translate(st.mem, k, va) == pa && Translate(st.mem, u, va) == pa
    ensures !UserAccess(Walk(st.mem, k, 4, Vpn(va)))
    ensures UserAccess(Walk(st.mem, u, 4, Vpn(va))) <==>
              KERNBASE <= va < KERNBASE + KERN_BYTES && (va - KERNBASE) / 4096 in open
    ensures var inKern := KERNBASE <= va < KERNBASE + KERN_BYTES;
            WriteAccess(Walk(st.mem, k, 4, Vpn(va))) == inKern && WriteAccess(Walk(st.mem, u, 4, Vpn(va))) == inKern
    ensures DEVBASE <= va < DEVBASE + DEV_BYTES ==>
              && Walk(st.mem, k, 4, Vpn(va)).ent.flags == NOFLAGS.(p := true, pwt := true, pcd := true)
              && Walk(st.mem, u, 4, Vpn(va)) == Walk(st.mem, k, 4, Vpn(va))
    ensures KERNBASE <= va < KERNBASE + KERN_BYTES ==>
              && Walk(st.mem, k, 4, Vpn(va)).ent.flags == NOFLAGS.(p := true, w := true)
              && Walk(st.mem, u, 4, Vpn(va)).ent.flags ==
                   NOFLAGS.(p := true, w := true, u := (va - KERNBASE) / 4096 in open)
  {
    hide WF, Walk, Roomy;
    var w := Vpn(va);
    VpnWindow(va);
    assert Walk(st.mem, k, 4, w) == KernelMap(w);
    assert Walk(st.mem, u, 4, w) == UserMap(open, w);
  }

  lemma VpnWindow(va: nat)
    requires Canonical(va)
    ensures Vpn(va) < MAX_VPN
    ensures V_KERN <= Vpn(va) < V_KERN + PHYS_FRAMES <==> KERNBASE <= va < KERNBASE + KERN_BYTES
    ensures V_DEV <= Vpn(va) < V_DEV + DEV_PAGES <==> DEVBASE <= va < DEVBASE + DEV_BYTES
    ensures KERNBASE <= va < KERNBASE + KERN_BYTES ==>
              (va - KERNBASE) / 4096 == Vpn(va) - V_KERN && (Vpn(va) - V_KERN) * 4096 + va % 4096 == va - KERNBASE
    ensures DEVBASE <= va < DEVBASE + DEV_BYTES ==>
              (DEV_FRAME + (Vpn(va) - V_DEV)) * 4096 + va % 4096 == DEV_PHYS + (va - DEVBASE)
  {
    hide Vpn;
    VpnOf(va);
    var q, o := va / 4096, va % 4096;
    assert va == 4096 * q + o;
    if KERNBASE <= va < KERNBASE + KERN_BYTES {
      DivExact(va - KERNBASE, 4096, q - KERNBASE / 4096, o);
    }
  }
}
