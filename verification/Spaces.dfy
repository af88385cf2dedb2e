// Several address spaces over one frame pool: what every run of allocator and
// paging operations keeps.
module Spaces {
  import opened Arch
  import opened PageTable
  import opened MapPage
  import opened MapRange
  import opened CopyTree

  // ---- a frame has one place ----------------------------------------------------

  /** Tree, not DAG: two table frames never share a place. */
  lemma {:induction false} OnePlace(st: PM, g: nat, h: nat)
    requires WF(st) && g in st.own && h in st.own
    requires st.own[g].root == st.own[h].root && st.own[g].level == st.own[h].level && st.own[g].pre == st.own[h].pre
    ensures g == h
    decreases 4 - st.own[g].level
  {
    assert LabelOk(st.own, g) && LabelOk(st.own, h);
    if st.own[g].level < 4 {
      assert Referenced(st.mem, st.own, g) && Referenced(st.mem, st.own, h);
      var p, q := st.own[g].parent, st.own[h].parent;
      assert st.own[p].pre * 512 + st.own[g].slot == st.own[q].pre * 512 + st.own[h].slot;
      OnePlace(st, p, q);
    }
  }

  // ---- frames are conserved -------------------------------------------------------

  function Elems(s: seq<nat>): set<nat> { set x | x in s }

  lemma {:induction false} ElemsSize(s: seq<nat>)
    requires forall j, k :: 0 <= j < k < |s| ==> s[j] != s[k]
    ensures |Elems(s)| == |s|
  {
    if s != [] {
      ElemsSize(s[1..]);
      assert s == [s[0]] + s[1..];
      assert Elems(s) == {s[0]} + Elems(s[1..]);
    }
  }

  /** Free, table and held frames are disjoint: their numbers add up to the pool's. */
  lemma PoolSize(st: PM)
    requires Chain(st.mem, st.free) && Apart(st.free, st.own, st.held)
    ensures |Pool(st)| == |st.free| + |st.own| + |st.held|
  {
    hide Stored;
    ElemsSize(st.free);
    var free := Elems(st.free);
    assert free !! st.own.Keys && free !! st.held && st.own.Keys !! st.held;
    assert Pool(st) == free + st.own.Keys + st.held;
    assert |free + st.own.Keys + st.held| == |free| + |st.own.Keys| + |st.held|;
  }

  lemma GrownPool(st: PM, st': PM, root: nat, l: int)
    requires Grown(st, st', root, l)
    ensures Pool(st') == Pool(st)
  {
  }

  lemma ClonedPool(st: PM, st': PM, root: nat, c: nat)
    requires Cloned(st, st', root, c)
    ensures Pool(st') == Pool(st)
  {
  }

  // ---- the number of tables -------------------------------------------------------

  // The tables of root r below the place (l, pre).
  ghost function Under(own: Own, r: nat, l: nat, pre: nat): set<nat> {
    set g | g in own && IsUnder(own, g, r, l, pre)
  }

  ghost predicate IsUnder(own: Own, g: nat, r: nat, l: nat, pre: nat)
    requires g in own
  {
    own[g].root == r && 1 <= own[g].level <= l && Pre(l - own[g].level, own[g].pre) == pre
  }

  // The tables below entries i.. of the place (l, pre).
  ghost function UnderFrom(own: Own, r: nat, l: nat, pre: nat, i: nat): set<nat> {
    set g | g in own && IsUnderFrom(own, g, r, l, pre, i)
  }

  ghost predicate IsUnderFrom(own: Own, g: nat, r: nat, l: nat, pre: nat, i: nat)
    requires g in own
  {
    own[g].root == r && 1 <= own[g].level < l && pre * 512 + i <= Pre(l - 1 - own[g].level, own[g].pre) < pre * 512 + 512
  }

  // The ancestor of g at level l.
  lemma {:induction false} Climb(st: PM, g: nat, l: nat) returns (h: nat)
    requires WF(st) && g in st.own && st.own[g].level <= l <= 4
    ensures LabelOk(st.own, g)
    ensures h in st.own && st.own[h].root == st.own[g].root && st.own[h].level == l
    ensures st.own[h].pre == Pre(l - st.own[g].level, st.own[g].pre)
    decreases l
  {
    assert LabelOk(st.own, g);
    if st.own[g].level == l {
      h := g;
    } else {
      var k := Climb(st, g, l - 1);
      assert Referenced(st.mem, st.own, k);
      h := st.own[k].parent;
    }
  }

  lemma UnderEntry(st: PM, f: nat, l: nat, i: nat, g: nat)
    requires WF(st) && f in st.own && st.own[f].level == l >= 2 && i < 512
    requires g in Under(st.own, st.own[f].root, l - 1, st.own[f].pre * 512 + i)
    ensures Present(Ent(st.mem, f, i)) && !Huge(Ent(st.mem, f, i))
  {
    assert LabelOk(st.own, f);
    var h := Climb(st, g, l - 1);
    assert Referenced(st.mem, st.own, h);
    OnePlace(st, st.own[h].parent, f);
  }

  lemma UnderStep(own: Own, r: nat, l: nat, pre: nat, i: nat)
    requires 2 <= l && i < 512
    ensures UnderFrom(own, r, l, pre, i) == Under(own, r, l - 1, pre * 512 + i) + UnderFrom(own, r, l, pre, i + 1)
    ensures Under(own, r, l - 1, pre * 512 + i) !! UnderFrom(own, r, l, pre, i + 1)
  {
    hide Pre;
  }

  // Below the place of f: f itself, and the tables below its entries.
  lemma UnderSplit(st: PM, f: nat, l: nat)
    requires WF(st) && f in st.own && st.own[f].level == l >= 2
    ensures Under(st.own, st.own[f].root, l, st.own[f].pre) ==
              {f} + UnderFrom(st.own, st.own[f].root, l, st.own[f].pre, 0)
  {
    hide WF;
    var r, pre := st.own[f].root, st.own[f].pre;
    forall g | g in st.own
      ensures IsUnder(st.own, g, r, l, pre) <==> g == f || IsUnderFrom(st.own, g, r, l, pre, 0)
    {
      if st.own[g].root == r && st.own[g].level == l && st.own[g].pre == pre { OnePlace(st, g, f); }
      if 1 <= st.own[g].level < l {
        var k := l - 1 - st.own[g].level;
        assert Pre(k + 1, st.own[g].pre) == Pre(k, st.own[g].pre) / 512;
      }
    }
  }

  lemma UnderLeaf(st: PM, f: nat)
    requires WF(st) && f in st.own && st.own[f].level == 1
    ensures Under(st.own, st.own[f].root, 1, st.own[f].pre) == {f}
  {
    hide WF;
    forall g | g in st.own && IsUnder(st.own, g, st.own[f].root, 1, st.own[f].pre) ensures g == f {
      OnePlace(st, g, f);
    }
  }

  /** The tree below a table has as many frames as there are tables placed below it. */
  lemma {:induction false} CountUnder(st: PM, f: nat, l: nat)
    requires WF(st) && f in st.own && st.own[f].level == l >= 1
    ensures Count(st.mem, f, l) == |Under(st.own, st.own[f].root, l, st.own[f].pre)|
    decreases l, 514
  {
    hide WF, Under;
    var r, pre := st.own[f].root, st.own[f].pre;
    if l == 1 {
      UnderLeaf(st, f);
    } else {
      CountUnderFrom(st, f, l, 0);
      UnderSplit(st, f, l);
      assert f !in UnderFrom(st.own, r, l, pre, 0);
    }
  }

  lemma {:induction false} CountUnderFrom(st: PM, f: nat, l: nat, i: nat)
    requires WF(st) && f in st.own && st.own[f].level == l >= 2 && i <= 512
    ensures CountFrom(st.mem, f, l, i) == |UnderFrom(st.own, st.own[f].root, l, st.own[f].pre, i)|
    decreases l, 513 - i
  {
    hide WF, Under, Count;
    var r, pre := st.own[f].root, st.own[f].pre;
    if i == 512 {
      assert UnderFrom(st.own, r, l, pre, i) == {};
    } else {
      CountUnderFrom(st, f, l, i + 1);
      UnderStep(st.own, r, l, pre, i);
      var e := Ent(st.mem, f, i);
      var here := Under(st.own, r, l - 1, pre * 512 + i);
      if Present(e) && !Huge(e) {
        ChildPlace(st, f, i);
        CountUnder(st, e.page, l - 1);
      } else if here != {} {
        var g :| g in here;
        UnderEntry(st, f, l, i, g);
      }
    }
  }

  function Tables(own: Own, r: nat): set<nat> {
    set g | g in own && own[g].root == r
  }

  lemma TablesUnder(st: PM, r: nat)
    requires WF(st) && IsRoot(st, r)
    ensures Tables(st.own, r) == Under(st.own, r, 4, 0) && st.own[r].root == r && st.own[r].pre == 0
  {
    assert LabelOk(st.own, r);
    forall g | g in st.own && st.own[g].root == r ensures IsUnder(st.own, g, r, 4, 0) {
      assert LabelOk(st.own, g);
      var h := Climb(st, g, 4);
      assert LabelOk(st.own, h);
    }
  }

  // ---- a deep copy ----------------------------------------------------------------

  lemma CopyReady(st: PM, f: nat)
    requires WF(st) && IsRoot(st, f) && st.free != []
    ensures TableReady(st, {}, f, 4, Label(st.free[0], 4, 0, st.free[0], 0))
  {
    assert LabelOk(st.own, f);
  }

  lemma CopyClosed(st: PM, c: nat)
    requires WFOpen(st, {c}) && c in st.own && st.own[c].level == 4
    ensures WF(st)
  {
    hide Labels, Down, Chain;
  }

  /** A deep copy meets no failed ASSERT exactly when the free list covers the source's
      tables; it takes exactly as many, all of them free before, for a new root. */
  lemma CopyRootCost(st: PM, f: nat)
    requires WF(st) && IsRoot(st, f)
    ensures CopyRoot(st, f).Some? <==> |Tables(st.own, f)| <= |st.free|
    ensures CopyRoot(st, f).Some? ==>
              var (s', c) := CopyRoot(st, f).value;
              && WF(s') && IsRoot(s', c) && c !in st.own && Cloned(st, s', c, c)
              && Tables(s'.own, c) <= Elems(st.free)
              && |s'.free| == |st.free| - |Tables(st.own, f)|
  {
    hide WF, Cloned, CopyTable, Count;
    TablesUnder(st, f);
    CountUnder(st, f, 4);
    if st.free == [] {
      assert f in Tables(st.own, f);
    } else {
      var lab := Label(st.free[0], 4, 0, st.free[0], 0);
      CopyReady(st, f);
      CopyTableFacts(st, {}, f, 4, lab);
      if CopyRoot(st, f).Some? {
        var (s', c) := CopyRoot(st, f).value;
        assert {} + {c} == {c};
        CopyClosed(s', c);
        CopyFresh(st, s', c);
      }
    }
  }

  lemma CopyFresh(st: PM, s': PM, c: nat)
    requires WF(st) && Cloned(st, s', c, c) && c !in st.own
    ensures Tables(s'.own, c) <= Elems(st.free)
  {
    forall g | g in Tables(s'.own, c) ensures g in st.free {
      if g in st.own { assert LabelOk(st.own, g); }
    }
  }

  /** Through the copy every page walks exactly as through the original; every address
      space that existed before, the original included, walks as before. */
  lemma CopyRootView(st: PM, f: nat, r: nat, v: nat)
    requires WF(st) && IsRoot(st, f) && IsRoot(st, r)
    ensures CopyRoot(st, f).Some? ==>
              var (s', c) := CopyRoot(st, f).value;
              && SameSight(s'.mem, c, st.mem, f, 4, v)
              && SameSight(s'.mem, r, st.mem, r, 4, v)
  {
    hide SameSight, CopyTable, Cloned, Labels, Down, Up, Chain;
    if CopyRoot(st, f).Some? {
      var (s', c) := CopyRoot(st, f).value;
      CopyReady(st, f);
      CopyTableWalk(st, {}, f, 4, Label(st.free[0], 4, 0, st.free[0], 0), v);
      CopyRootCost(st, f);
      ClonedAgree(st, s', {}, c, c, st.own[r].root, 4);
      SameBelow(st, {}, s'.mem, r, 4, v);
    }
  }

  // ---- runs -------------------------------------------------------------------------

  datatype Op = Map(root: nat, v: nat, p: nat, n: nat, fl: Flags) | Copy(root: nat) | Kalloc | Kfree(f: nat)

  function KallocFrame(st: PM): PM
    requires st.free != []
  {
    PM(Zeroed(st.mem, st.free[0]), st.free[1..], st.own, st.held + {st.free[0]})
  }

  function KfreeFrame(st: PM, f: nat): PM {
    PM(SetEnt(st.mem, f, 0, Link(st.free, 0)), [f] + st.free, st.own, st.held - {f})
  }

  // What a caller must ensure: a root it has, a frame it holds.
  ghost predicate Legal(st: PM, op: Op) {
    match op
    case Map(root, v, p, n, fl) => IsRoot(st, root) && v < MAX_VPN
    case Copy(root) => IsRoot(st, root)
    case Kalloc => true
    case Kfree(f) => f in st.held && f < |st.mem|
  }

  function Apply(st: PM, op: Op): Option<PM> {
    match op
    case Map(root, v, p, n, fl) => MapPages(st, root, v, p, n, fl)
    case Copy(root) => if CopyRoot(st, root).Some? then Some(CopyRoot(st, root).value.0) else None
    case Kalloc => if st.free == [] then None else Some(KallocFrame(st))
    case Kfree(f) => Some(KfreeFrame(st, f))
  }

  ghost predicate Reaches(st: PM, ops: seq<Op>, st': PM)
    decreases |ops|
  {
    if ops == [] then st' == st
    else Legal(st, ops[0]) && Apply(st, ops[0]).Some? && Reaches(Apply(st, ops[0]).value, ops[1..], st')
  }

  lemma KallocKeeps(st: PM)
    requires WF(st) && st.free != []
    ensures WF(KallocFrame(st)) && Pool(KallocFrame(st)) == Pool(st)
    ensures var c, s' := st.free[0], KallocFrame(st);
            && c !in st.own && c !in st.held && c in s'.held && c !in s'.free
            && (forall j: nat :: Ent(s'.mem, c, j) == ZERO)
            && (forall g: nat, j: nat :: g != c ==> Ent(s'.mem, g, j) == Ent(st.mem, g, j))
  {
    var c, s' := st.free[0], KallocFrame(st);
    assert st.free == [c] + s'.free;
    ChainTail(st.mem, st.free);
    ChainKept(st.mem, s'.free, s'.mem);
    TreesKept(st, {}, s');
  }

  lemma KfreeKeeps(st: PM, f: nat)
    requires WF(st) && f in st.held && f < |st.mem|
    ensures WF(KfreeFrame(st, f)) && Pool(KfreeFrame(st, f)) == Pool(st)
    ensures var s' := KfreeFrame(st, f);
            && f !in s'.held && s'.free != [] && s'.free[0] == f
            && KallocFrame(s').free == st.free && KallocFrame(s').held == st.held
            && (forall g: nat, j: nat :: g != f || j != 0 ==> Ent(s'.mem, g, j) == Ent(st.mem, g, j))
  {
    var s' := KfreeFrame(st, f);
    KfreeChain(st, f);
    TreesKept(st, {}, s');
    assert Pool(s') == Pool(st);
  }

  lemma KfreeChain(st: PM, f: nat)
    requires Shaped(st.mem) && Chain(st.mem, st.free) && f < |st.mem| && f !in st.free
    ensures Chain(KfreeFrame(st, f).mem, KfreeFrame(st, f).free)
  {
    var s' := KfreeFrame(st, f);
    forall k | 0 <= k < |s'.free| ensures Stored(s'.mem, s'.free, k) {
      if k > 0 {
        assert Stored(st.mem, st.free, k - 1);
        assert s'.free[k] == st.free[k - 1];
      }
    }
  }

  // Operations on other roots leave the tables of r as they are.
  ghost predicate Kept(st: PM, st': PM, r: nat) {
    IsRoot(st', r) && Agree(st, st'.mem, r, 4)
  }

  lemma ApplyKeeps(st: PM, op: Op)
    requires WF(st) && Legal(st, op) && Apply(st, op).Some?
    ensures WF(Apply(st, op).value) && Pool(Apply(st, op).value) == Pool(st)
  {
    hide WF, Pool, Grown, Cloned, MapPages, CopyRoot;
    match op
    case Map(root, v, p, n, fl) =>
      MapPagesKeeps(st, root, v, p, n, fl);
      GrownPool(st, Apply(st, op).value, root, 4);
    case Copy(root) =>
      CopyRootCost(st, root);
      var (s', c) := CopyRoot(st, root).value;
      ClonedPool(st, s', c, c);
    case Kalloc => KallocKeeps(st);
    case Kfree(f) => KfreeKeeps(st, f);
  }

  lemma ApplyOther(st: PM, op: Op, r: nat)
    requires WF(st) && Legal(st, op) && Apply(st, op).Some?
    requires IsRoot(st, r) && (op.Map? ==> op.root != r)
    ensures Kept(st, Apply(st, op).value, r)
  {
    hide Labels, Down, Up, Chain, Grown, Cloned, MapPages, CopyRoot;
    assert st.own[r].root == r by { TablesUnder(st, r); }
    match op
    case Map(root, v, p, n, fl) =>
      MapPagesKeeps(st, root, v, p, n, fl);
      GrownKept(st, Apply(st, op).value, root, r);
    case Copy(root) =>
      CopyRootCost(st, root);
      var (s', c) := CopyRoot(st, root).value;
      ClonedAgree(st, s', {}, c, c, r, 4);
      ClonedOwn(st, s', c, c, r);
    case Kalloc =>
    case Kfree(f) =>
  }

  lemma GrownKept(st: PM, st': PM, root: nat, r: nat)
    requires WF(st) && Grown(st, st', root, 4) && IsRoot(st, r) && r != root
    ensures Kept(st, st', r)
  {
    hide Labels, Down, Up, Chain;
    forall g | g in st.own && g < |st.mem| && st.own[g].root == r ensures st'.mem[g] == st.mem[g] {
      assert Untouched(st, g, root, 4);
    }
  }

  /** Over any run of kalloc, kfree, paging_map and deep copies the free list stays an
      acyclic, duplicate-free chain and no frame is lost or shared. */
  lemma {:induction false} RunConserves(st: PM, ops: seq<Op>, st': PM)
    requires WF(st) && Reaches(st, ops, st')
    ensures WF(st') && Pool(st') == Pool(st)
    ensures |st'.free| + |st'.own| + |st'.held| == |st.free| + |st.own| + |st.held|
    decreases |ops|
  {
    hide Pool, Legal, Apply, Labels, Down, Up;
    if ops != [] {
      ApplyKeeps(st, ops[0]);
      RunConserves(Apply(st, ops[0]).value, ops[1..], st');
    }
    PoolSize(st);
    PoolSize(st');
  }

  /** Address spaces are independent for ever: a run that never maps under r leaves every
      walk under r as it was, whatever it maps, copies, allocates or frees elsewhere. */
  lemma {:induction false} RunIndependent(st: PM, ops: seq<Op>, st': PM, r: nat, v: nat)
    requires WF(st) && Reaches(st, ops, st') && IsRoot(st, r)
    requires forall op :: op in ops && op.Map? ==> op.root != r
    ensures IsRoot(st', r) && SameSight(st'.mem, r, st.mem, r, 4, v)
    decreases |ops|
  {
    hide Walk, Above, PathOk, Pool, Legal, Apply, Labels, Down, Up, Chain;
    if ops != [] {
      var s1 := Apply(st, ops[0]).value;
      assert ops[0] in ops;
      assert forall op :: op in ops[1..] ==> op in ops;
      ApplyKeeps(st, ops[0]);
      ApplyOther(st, ops[0], r);
      TablesUnder(st, r);
      SameBelow(st, {}, s1.mem, r, 4, v);
      RunIndependent(s1, ops[1..], st', r, v);
    }
  }
}
