// paging_map_4K on values, and what it does to every walk.
module MapPage {
  import opened Arch
  import opened PageTable

  // kalloc, then the new table's label and its entry in slot i of f.
  function NewTable(st: PM, f: nat, i: nat): (PM, nat)
    requires st.free != []
  {
    var c := st.free[0];
    var lab := Lab(st.own, f);
    (PM(SetEnt(Zeroed(st.mem, c), f, i, Word(c, TABLE_FLAGS)), st.free[1..],
        st.own[c := Label(lab.root, lab.level - 1, lab.pre * 512 + i, f, i)], st.held), c)
  }

  // safe_nextpt_mayalloc. None is a failed ASSERT: a huge page, or no free frame.
  function Next(st: PM, f: nat, i: nat): Option<(PM, nat)> {
    var e := Ent(st.mem, f, i);
    if Present(e) then
      if Huge(e) then None else Some((st, e.page))
    else if st.free == [] then None
    else Some(NewTable(st, f, i))
  }

  // paging_map_4K below table f of level l: three descents, then the entry.
  function MapAt(st: PM, f: nat, l: nat, v: nat, e: Word): Option<PM>
    requires 1 <= l
    decreases l
  {
    if l == 1 then Some(st.(mem := SetEnt(st.mem, f, Idx(1, v), e)))
    else
      match Next(st, f, Idx(l, v))
      case None => None
      case Some((s1, c)) => MapAt(s1, c, l - 1, v, e)
  }

  // Table f has level l and lies on the path of page v.
  ghost predicate OnPath(own: Own, f: nat, l: nat, v: nat) {
    f in own && own[f].level == l && own[f].pre == Pre(l, v)
  }

  lemma PathIn(own: Own, f: nat, l: nat, v: nat)
    requires OnPath(own, f, l, v)
    ensures f in own && own[f].level == l && own[f].pre == Pre(l, v)
  {
  }

  // What st' may have changed of st when tables of `root` at level l or below were
  // written: frames move from the free list to such tables, nothing else changes.
  ghost predicate Grown(st: PM, st': PM, root: nat, l: int) {
    && |st'.mem| == |st.mem|
    && st'.held == st.held
    && (forall g :: g in st'.free ==> g in st.free)
    && (forall g :: g in st.free ==> g in st'.free || g in st'.own)
    && (forall g :: g in st.own ==> g in st'.own && st'.own[g] == st.own[g])
    && (forall g :: g in st'.own && g !in st.own ==> g in st.free && st'.own[g].root == root && st'.own[g].level < l)
    && (forall g :: 0 <= g < |st.mem| && Untouched(st, g, root, l) ==> st'.mem[g] == st.mem[g])
  }

  ghost predicate Untouched(st: PM, g: nat, root: nat, l: int) {
    && g !in st.free
    && (g in st.own ==> st.own[g].root != root || st.own[g].level > l)
  }

  // The effect of the allocating branch: frame c leaves the free list, is zeroed,
  // labelled, and linked from entry i of f.
  ghost predicate Fresh(st: PM, s1: PM, f: nat, i: nat, c: nat, lab: Label) {
    && st.free != [] && c == st.free[0] && c < |st.mem| && c != f
    && s1.free == st.free[1..] && s1.held == st.held && s1.own == st.own[c := lab]
    && |s1.mem| == |st.mem| && Shaped(s1.mem)
    && Ent(s1.mem, f, i) == Word(c, TABLE_FLAGS)
    && (forall j: nat :: Ent(s1.mem, c, j) == ZERO)
    && (forall g: nat, j: nat :: g != c && !(g == f && j == i) ==> Ent(s1.mem, g, j) == Ent(st.mem, g, j))
    && (forall g :: 0 <= g < |st.mem| && g != c && g != f ==> s1.mem[g] == st.mem[g])
  }

  function Below(own: Own, f: nat, i: nat): Label {
    Label(Lab(own, f).root, Lab(own, f).level - 1, Lab(own, f).pre * 512 + i, f, i)
  }

  lemma NewTableIsFresh(st: PM, f: nat, i: nat)
    requires Shaped(st.mem) && Chain(st.mem, st.free) && Apart(st.free, st.own, st.held)
    requires f in st.own && f < |st.mem| && i < 512 && st.free != []
    ensures Fresh(st, NewTable(st, f, i).0, f, i, NewTable(st, f, i).1, Below(st.own, f, i))
  {
    var c := st.free[0];
    var z := Zeroed(st.mem, c);
    assert z[f] == st.mem[f] && |z[f]| == 512;
  }

  lemma FreshDown(st: PM, s1: PM, f: nat, i: nat, c: nat, lab: Label)
    requires Fresh(st, s1, f, i, c, lab) && i < 512
    requires c !in st.own && Down(st.mem, st.own)
    requires f in st.own && st.own[f].level >= 2
    requires lab == Label(st.own[f].root, st.own[f].level - 1, st.own[f].pre * 512 + i, f, i)
    ensures Down(s1.mem, s1.own)
  {
    forall g: nat, j: nat | g in s1.own && s1.own[g].level >= 2 && j < 512 && Present(Ent(s1.mem, g, j)) && !Huge(Ent(s1.mem, g, j))
      ensures Linked(s1.own, g, j, Ent(s1.mem, g, j).page)
    {
      if g == f && j == i {
      } else {
        assert Linked(st.own, g, j, Ent(st.mem, g, j).page);
      }
    }
  }

  lemma FreshUp(st: PM, s1: PM, f: nat, i: nat, c: nat, lab: Label)
    requires Fresh(st, s1, f, i, c, lab) && i < 512
    requires c !in st.own && Up(st.mem, st.own, {})
    requires f in st.own && st.own[f].level >= 2 && !Present(Ent(st.mem, f, i))
    requires lab == Label(st.own[f].root, st.own[f].level - 1, st.own[f].pre * 512 + i, f, i)
    ensures Up(s1.mem, s1.own, {})
  {
    forall g | g in s1.own && s1.own[g].level < 4 ensures Referenced(s1.mem, s1.own, g) {
      if g != c { assert Referenced(st.mem, st.own, g); }
    }
  }

  lemma FreshChain(st: PM, s1: PM, f: nat, i: nat, c: nat, lab: Label)
    requires Fresh(st, s1, f, i, c, lab) && f in st.own
    requires Chain(st.mem, st.free) && Apart(st.free, st.own, st.held)
    ensures Chain(s1.mem, s1.free) && Apart(s1.free, s1.own, s1.held)
  {
    ChainTail(st.mem, st.free);
    ChainKept(st.mem, s1.free, s1.mem);
  }

  lemma FreshGrown(st: PM, s1: PM, f: nat, i: nat, c: nat, lab: Label)
    requires Fresh(st, s1, f, i, c, lab)
    requires c !in st.own && f in st.own
    requires lab.root == st.own[f].root && lab.level < st.own[f].level
    ensures Grown(st, s1, st.own[f].root, st.own[f].level)
  {
    assert st.free == [c] + s1.free;
  }

  lemma FreshLabels(st: PM, s1: PM, f: nat, i: nat, c: nat, lab: Label)
    requires Fresh(st, s1, f, i, c, lab)
    requires c !in st.own && f in st.own && Labels(st.mem, st.own)
    requires lab.root == st.own[f].root && 1 <= lab.level < 4
    ensures Labels(s1.mem, s1.own)
  {
    assert LabelOk(st.own, f);
    forall g | g in s1.own ensures g < |s1.mem| && LabelOk(s1.own, g) {
      if g != c { assert LabelOk(st.own, g); }
    }
  }

  // The allocating branch keeps the invariant.
  lemma NewTableKeeps(st: PM, f: nat, i: nat)
    requires WF(st) && f in st.own && st.own[f].level >= 2 && i < 512
    requires !Present(Ent(st.mem, f, i)) && st.free != []
    ensures var (s1, c) := NewTable(st, f, i);
            WF(s1) && Grown(st, s1, st.own[f].root, st.own[f].level)
  {
    var (s1, c) := NewTable(st, f, i);
    var lab := Below(st.own, f, i);
    NewTableIsFresh(st, f, i);
    assert LabelOk(st.own, f);
    assert Labels(s1.mem, s1.own) by { FreshLabels(st, s1, f, i, c, lab); }
    assert Down(s1.mem, s1.own) by { FreshDown(st, s1, f, i, c, lab); }
    assert Up(s1.mem, s1.own, {}) by { FreshUp(st, s1, f, i, c, lab); }
    FreshChain(st, s1, f, i, c, lab);
    FreshGrown(st, s1, f, i, c, lab);
  }

  lemma NextFacts(st: PM, f: nat, i: nat)
    requires WF(st) && f in st.own && st.own[f].level >= 2 && i < 512
    requires Next(st, f, i).Some?
    ensures var (s1, c) := Next(st, f, i).value;
            && WF(s1)
            && c in s1.own && s1.own[c] == Below(st.own, f, i)
            && Grown(st, s1, st.own[f].root, st.own[f].level)
            && Present(Ent(s1.mem, f, i)) && !Huge(Ent(s1.mem, f, i)) && Ent(s1.mem, f, i).page == c
  {
    var e := Ent(st.mem, f, i);
    if Present(e) {
      assert Linked(st.own, f, i, e.page);
    } else {
      NewTableKeeps(st, f, i);
      NewTableIsFresh(st, f, i);
    }
  }

  /** A walk that finds an entry finds it in the one table that its tree has for that level and page. */
  lemma {:induction false} EndTablePlace(st: PM, f: nat, l: nat, v: nat)
    requires WF(st) && OnPath(st.own, f, l, v) && l >= 1
    ensures Walk(st.mem, f, l, v).Leaf? ==>
              var g, k := EndTable(st.mem, f, l, v), Walk(st.mem, f, l, v).level;
              && 1 <= k && OnPath(st.own, g, k, v) && st.own[g].root == st.own[f].root
              && Walk(st.mem, f, l, v).ent == Ent(st.mem, g, Idx(k, v))
    decreases l
  {
    var i := Idx(l, v);
    var e := Ent(st.mem, f, i);
    if l > 1 && Present(e) && !Huge(e) {
      ChildPlace(st, f, i);
      hide WF;
      EndTablePlace(st, e.page, l - 1, v);
    }
  }

  lemma EmptyTable(m: Mem, c: nat, l: nat, v: nat)
    requires 1 <= l && forall j: nat :: Ent(m, c, j) == ZERO
    ensures Walk(m, c, l, v) == Unmapped
    ensures Above(m, c, l, v) == Above([], 0, l, v)
    ensures PathOk(m, c, l, v) && Need(m, c, l, v) == l - 1
  {
  }

  lemma GrownTrans(a: PM, b: PM, c: PM, root: nat, l: int, k: int)
    requires Grown(a, b, root, l) && Grown(b, c, root, k) && k <= l
    ensures Grown(a, c, root, l)
  {
    forall g | 0 <= g < |a.mem| && Untouched(a, g, root, l) ensures c.mem[g] == a.mem[g] {
      assert Untouched(b, g, root, k);
    }
  }

  lemma GrownRefl(st: PM, root: nat, l: int)
    ensures Grown(st, st, root, l)
  {
  }

  lemma GrownPath(st: PM, st': PM, root: nat, l: int, g: nat, k: nat, w: nat)
    requires Grown(st, st', root, l) && OnPath(st.own, g, k, w)
    ensures OnPath(st'.own, g, k, w) && st'.own[g] == st.own[g]
  {
  }

  lemma GrownRoot(st: PM, st': PM, root: nat, l: int, r: nat)
    requires Grown(st, st', root, l) && IsRoot(st, r)
    ensures IsRoot(st', r) && st'.own[r] == st.own[r]
  {
  }

  // One descent: what is left to do below c in s1 is what was to do below f in st.
  lemma Descend(st: PM, f: nat, l: nat, v: nat)
    requires WF(st) && 2 <= l <= 4 && OnPath(st.own, f, l, v)
    requires Next(st, f, Idx(l, v)).Some?
    ensures var (s1, c) := Next(st, f, Idx(l, v)).value;
            && WF(s1) && OnPath(s1.own, c, l - 1, v) && s1.own[c].root == st.own[f].root
            && Grown(st, s1, st.own[f].root, l)
            && Present(Ent(s1.mem, f, Idx(l, v))) && !Huge(Ent(s1.mem, f, Idx(l, v))) && Ent(s1.mem, f, Idx(l, v)).page == c
            && PathOk(st.mem, f, l, v) == PathOk(s1.mem, c, l - 1, v)
            && Need(st.mem, f, l, v) - |st.free| == Need(s1.mem, c, l - 1, v) - |s1.free|
            && Above(st.mem, f, l, v) == [Ent(s1.mem, f, Idx(l, v)).flags] + Above(s1.mem, c, l - 1, v)
  {
    var i := Idx(l, v);
    var (s1, c) := Next(st, f, i).value;
    NextFacts(st, f, i);
    if !Present(Ent(st.mem, f, i)) {
      NewTableIsFresh(st, f, i);
      EmptyTable(s1.mem, c, l - 1, v);
    }
  }

  // A table above level k keeps its entries while level k and below are written.
  lemma StaysBelow(st: PM, st': PM, f: nat, root: nat, k: nat)
    requires WF(st) && Grown(st, st', root, k)
    requires f in st.own && st.own[f].level > k
    ensures f < |st.mem| == |st'.mem| && st'.mem[f] == st.mem[f]
  {
    assert Untouched(st, f, root, k);
  }

  lemma {:induction false} MapAtFacts(st: PM, f: nat, l: nat, v: nat, e: Word)
    requires WF(st) && 1 <= l <= 4 && OnPath(st.own, f, l, v) && Present(e)
    ensures MapAt(st, f, l, v, e).Some? <==> PathOk(st.mem, f, l, v) && Need(st.mem, f, l, v) <= |st.free|
    ensures MapAt(st, f, l, v, e).Some? ==>
              var s' := MapAt(st, f, l, v, e).value;
              && WF(s')
              && Grown(st, s', st.own[f].root, l)
              && |s'.free| == |st.free| - Need(st.mem, f, l, v)
              && Walk(s'.mem, f, l, v) == Leaf(1, e, Above(st.mem, f, l, v))
    decreases l
  {
    hide WF, Grown, NewTable, Pre;
    if l == 1 {
      SetLeafKeeps(st, f, Idx(1, v), e);
    } else if Next(st, f, Idx(l, v)).Some? {
      var (s1, c) := Next(st, f, Idx(l, v)).value;
      Descend(st, f, l, v);
      MapAtFacts(s1, c, l - 1, v, e);
      if MapAt(s1, c, l - 1, v, e).Some? {
        var s2 := MapAt(s1, c, l - 1, v, e).value;
        GrownTrans(st, s1, s2, st.own[f].root, l, l - 1);
        assert s2.mem[f] == s1.mem[f] by { StaysBelow(s1, s2, f, st.own[f].root, l - 1); }
      }
    }
  }

  lemma SetLeafKeeps(st: PM, f: nat, i: nat, e: Word)
    requires WF(st) && f in st.own && st.own[f].level == 1 && i < 512
    ensures var s' := st.(mem := SetEnt(st.mem, f, i, e));
            WF(s') && Grown(st, s', st.own[f].root, 1) && Ent(s'.mem, f, i) == e
  {
    var s' := st.(mem := SetEnt(st.mem, f, i, e));
    ChainKept(st.mem, st.free, s'.mem);
    TreesKept(st, {}, s');
  }

  lemma TableInMemory(st: PM, f: nat)
    requires WF(st) && f in st.own
    ensures f < |st.mem| && LabelOk(st.own, f)
  {
  }

  lemma FreshEmpty(st: PM, s1: PM, f: nat, i: nat, c: nat, lab: Label)
    requires Fresh(st, s1, f, i, c, lab)
    ensures forall k: nat :: Ent(s1.mem, c, k) == ZERO
  {
  }

  lemma NewTableFresh(st: PM, f: nat, i: nat)
    requires WF(st) && f in st.own && i < 512 && st.free != []
    ensures Fresh(st, NewTable(st, f, i).0, f, i, NewTable(st, f, i).1, Below(st.own, f, i))
    ensures NewTable(st, f, i).1 !in st.own
  {
    NewTableIsFresh(st, f, i) by { TableInMemory(st, f); }
  }

  // ---- every other walk -------------------------------------------------------

  // Installing an empty table changes nothing that a walk sees.
  lemma {:induction false} NewTableView(st: PM, f: nat, i: nat, g: nat, l: nat, w: nat)
    requires WF(st) && f in st.own && st.own[f].level >= 2 && i < 512
    requires !Present(Ent(st.mem, f, i)) && st.free != []
    requires g in st.own && st.own[g].level == l >= 1
    ensures var m' := NewTable(st, f, i).0.mem;
            && Walk(m', g, l, w) == Walk(st.mem, g, l, w)
            && Above(m', g, l, w) == Above(st.mem, g, l, w)
            && PathOk(m', g, l, w) == PathOk(st.mem, g, l, w)
    decreases l
  {
    hide WF, Pre, Need, NewTable;
    var (s1, c) := NewTable(st, f, i);
    NewTableFresh(st, f, i);
    assert Ent(s1.mem, g, Idx(l, w)) == if g == f && Idx(l, w) == i then Word(c, TABLE_FLAGS) else Ent(st.mem, g, Idx(l, w));
    hide Fresh;
    if l >= 2 {
      var j := Idx(l, w);
      var e := Ent(st.mem, g, j);
      if g == f && j == i {
        assert forall k: nat :: Ent(s1.mem, c, k) == ZERO by { FreshEmpty(st, s1, f, i, c, Below(st.own, f, i)); }
        EmptyTable(s1.mem, c, l - 1, w);
      } else if Present(e) && !Huge(e) {
        ChildPlace(st, g, j);
        NewTableView(st, f, i, e.page, l - 1, w);
      }
    }
  }

  // Writing the leaf entry of page v is seen by the walk for v from its own root only.
  lemma {:induction false} SetLeafView(st: PM, f: nat, v: nat, e: Word, g: nat, l: nat, w: nat)
    requires WF(st) && OnPath(st.own, f, 1, v)
    requires 1 <= l && OnPath(st.own, g, l, w)
    ensures var m' := SetEnt(st.mem, f, Idx(1, v), e);
            && (w != v || st.own[g].root != st.own[f].root ==> Walk(m', g, l, w) == Walk(st.mem, g, l, w))
            && Above(m', g, l, w) == Above(st.mem, g, l, w)
            && PathOk(m', g, l, w) == PathOk(st.mem, g, l, w)
    decreases l
  {
    if l >= 2 {
      var e' := Ent(st.mem, g, Idx(l, w));
      if Present(e') && !Huge(e') {
        assert Linked(st.own, g, Idx(l, w), e'.page);
        SetLeafView(st, f, v, e, e'.page, l - 1, w);
      }
    } else {
      assert Pre(0, w) == Pre(1, w) * 512 + Idx(1, w);
      assert Pre(0, v) == Pre(1, v) * 512 + Idx(1, v);
    }
  }

  lemma {:induction false} MapAtView(st: PM, f: nat, l: nat, v: nat, e: Word, g: nat, k: nat, w: nat)
    requires WF(st) && 1 <= l <= 4 && OnPath(st.own, f, l, v) && Present(e)
    requires MapAt(st, f, l, v, e).Some?
    requires 1 <= k && OnPath(st.own, g, k, w)
    ensures var m' := MapAt(st, f, l, v, e).value.mem;
            && (w != v || st.own[g].root != st.own[f].root ==> Walk(m', g, k, w) == Walk(st.mem, g, k, w))
            && Above(m', g, k, w) == Above(st.mem, g, k, w)
            && PathOk(m', g, k, w) == PathOk(st.mem, g, k, w)
    decreases l
  {
    hide WF, Grown, Walk, Above, PathOk, Need, NewTable, SetEnt, Pre, OnPath;
    PathIn(st.own, f, l, v);
    PathIn(st.own, g, k, w);
    if l == 1 {
      SetLeafView(st, f, v, e, g, k, w);
    } else {
      var (s1, c) := Next(st, f, Idx(l, v)).value;
      Descend(st, f, l, v);
      GrownPath(st, s1, st.own[f].root, l, g, k, w);
      MapAtView(s1, c, l - 1, v, e, g, k, w);
      if !Present(Ent(st.mem, f, Idx(l, v))) {
        NewTableView(st, f, Idx(l, v), g, k, w);
      }
    }
  }
}
