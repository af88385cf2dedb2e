// paging_map on values: ranges of pages, their exact effect and exact cost.
module MapRange {
  import opened Arch
  import opened PageTable
  import opened MapPage

  const MAX_PFN: nat := 0x10_0000_0000_0000     // 2^52 page numbers in a 64-bit address

  function NextVpn(v: nat): nat { if v + 1 == MAX_VPN then 0 else v + 1 }

  function NextPfn(p: nat): nat { if p + 1 == MAX_PFN then 0 else p + 1 }

  function LeafEnt(p: nat, fl: Flags): Word { Word(p, fl.(p := true)) }

  // The loop of paging_map: n pages from page v, to frames from p.
  function MapPages(st: PM, root: nat, v: nat, p: nat, n: nat, fl: Flags): Option<PM>
    decreases n
  {
    if n == 0 then Some(st)
    else
      match MapAt(st, root, 4, v, LeafEnt(p, fl))
      case None => None
      case Some(s1) => MapPages(s1, root, NextVpn(v), NextPfn(p), n - 1, fl)
  }

  // The frame that the last write to page w names, if any of the n writes is to w.
  function Hit(v: nat, p: nat, n: nat, w: nat): Option<nat>
    decreases n
  {
    if n == 0 then None
    else
      match Hit(NextVpn(v), NextPfn(p), n - 1, w)
      case Some(q) => Some(q)
      case None => if w == v then Some(p) else None
  }

  // ---- effect -----------------------------------------------------------------

  lemma RootOnPath(st: PM, root: nat, v: nat)
    requires Labels(st.mem, st.own) && IsRoot(st, root) && v < MAX_VPN
    ensures OnPath(st.own, root, 4, v) && st.own[root].root == root
  {
    PreTop(v);
    assert LabelOk(st.own, root);
  }

  lemma MapOneKeeps(st: PM, root: nat, v: nat, e: Word)
    requires WF(st) && IsRoot(st, root) && v < MAX_VPN && Present(e)
    requires MapAt(st, root, 4, v, e).Some?
    ensures var s1 := MapAt(st, root, 4, v, e).value;
            WF(s1) && IsRoot(s1, root) && Grown(st, s1, root, 4)
  {
    RootOnPath(st, root, v);
    MapAtFacts(st, root, 4, v, e);
  }

  lemma MapOneView(st: PM, root: nat, v: nat, e: Word, r: nat, w: nat)
    requires WF(st) && IsRoot(st, root) && v < MAX_VPN && Present(e)
    requires IsRoot(st, r) && w < MAX_VPN
    requires MapAt(st, root, 4, v, e).Some?
    ensures var m' := MapAt(st, root, 4, v, e).value.mem;
            && Walk(m', r, 4, w) == (if r == root && w == v then Leaf(1, e, Above(st.mem, root, 4, w)) else Walk(st.mem, r, 4, w))
            && Above(m', r, 4, w) == Above(st.mem, r, 4, w)
            && PathOk(m', r, 4, w) == PathOk(st.mem, r, 4, w)
  {
    RootOnPath(st, root, v);
    RootOnPath(st, r, w);
    MapAtFacts(st, root, 4, v, e);
    MapAtView(st, root, 4, v, e, r, 4, w);
  }

  lemma {:induction false} MapPagesKeeps(st: PM, root: nat, v: nat, p: nat, n: nat, fl: Flags)
    requires WF(st) && IsRoot(st, root) && v < MAX_VPN
    ensures MapPages(st, root, v, p, n, fl).Some? ==>
              var s' := MapPages(st, root, v, p, n, fl).value;
              WF(s') && Grown(st, s', root, 4)
    decreases n
  {
    hide WF, Grown, MapAt;
    if n == 0 {
      GrownRefl(st, root, 4);
    } else if MapPages(st, root, v, p, n, fl).Some? {
      MapOneKeeps(st, root, v, LeafEnt(p, fl));
      var s1 := MapAt(st, root, 4, v, LeafEnt(p, fl)).value;
      MapPagesKeeps(s1, root, NextVpn(v), NextPfn(p), n - 1, fl);
      var s2 := MapPages(s1, root, NextVpn(v), NextPfn(p), n - 1, fl).value;
      GrownTrans(st, s1, s2, root, 4, 4);
    }
  }

  /** Every page the range writes maps to its frame with the given flags; every other
      page of this root, and every page of every other root, walks as before. */
  lemma {:induction false} MapPagesView(st: PM, root: nat, v: nat, p: nat, n: nat, fl: Flags, r: nat, w: nat)
    requires WF(st) && IsRoot(st, root) && v < MAX_VPN
    requires IsRoot(st, r) && w < MAX_VPN
    ensures MapPages(st, root, v, p, n, fl).Some? ==>
              var m' := MapPages(st, root, v, p, n, fl).value.mem;
              && Walk(m', r, 4, w) == (if r == root && Hit(v, p, n, w).Some?
                                       then Leaf(1, Word(Hit(v, p, n, w).value, fl.(p := true)), Above(st.mem, root, 4, w))
                                       else Walk(st.mem, r, 4, w))
              && Above(m', r, 4, w) == Above(st.mem, r, 4, w)
              && PathOk(m', r, 4, w) == PathOk(st.mem, r, 4, w)
    decreases n
  {
    hide WF, Grown, MapAt, Walk, Above, PathOk;
    if n > 0 && MapPages(st, root, v, p, n, fl).Some? {
      var e := LeafEnt(p, fl);
      MapOneKeeps(st, root, v, e);
      MapOneView(st, root, v, e, r, w);
      var s1 := MapAt(st, root, 4, v, e).value;
      assert IsRoot(s1, r) by { GrownRoot(st, s1, root, 4, r); }
      MapPagesView(s1, root, NextVpn(v), NextPfn(p), n - 1, fl, r, w);
    }
  }

  // How many pages after v, wrapping around, page w comes.
  function Ahead(v: nat, w: nat): nat
    requires v < MAX_VPN
  {
    if v <= w then w - v else w + MAX_VPN - v
  }

  function PfnAt(p: nat, d: nat): nat
    requires d < MAX_VPN
  {
    if p + d < MAX_PFN then p + d else p + d - MAX_PFN
  }

  /** For a range no longer than the address space, page v+d goes to frame p+d. */
  lemma {:induction false} HitExact(v: nat, p: nat, n: nat, w: nat)
    requires v < MAX_VPN && w < MAX_VPN && p < MAX_PFN && n <= MAX_VPN
    ensures Hit(v, p, n, w) == if Ahead(v, w) < n then Some(PfnAt(p, Ahead(v, w))) else None
    decreases n
  {
    if n > 0 {
      HitExact(NextVpn(v), NextPfn(p), n - 1, w);
    }
  }

  /** A range of any length writes exactly the pages that come less than n after its first. */
  lemma {:induction false} HitSome(v: nat, p: nat, n: nat, w: nat)
    requires v < MAX_VPN && w < MAX_VPN
    ensures Hit(v, p, n, w).Some? <==> Ahead(v, w) < n
    decreases n
  {
    if n > 0 {
      HitSome(NextVpn(v), NextPfn(p), n - 1, w);
    }
  }

  // ---- cost -------------------------------------------------------------------

  // The places of the tables above page v from level l down.
  function Places(l: nat, v: nat): set<(nat, nat)> {
    if l == 0 then {} else {(l, Pre(l, v))} + Places(l - 1, v)
  }

  // The places on the path of v where no table stands.
  function Miss(m: Mem, f: nat, l: nat, v: nat): set<(nat, nat)>
    decreases l
  {
    if l <= 1 then {}
    else
      var e := Ent(m, f, Idx(l, v));
      if !Present(e) then Places(l - 1, v)
      else if Huge(e) then {}
      else Miss(m, e.page, l - 1, v)
  }

  // The distinct places, over n pages from v, where no table stands.
  function Missing(m: Mem, root: nat, v: nat, n: nat): set<(nat, nat)>
    decreases n
  {
    if n == 0 then {} else Miss(m, root, 4, v) + Missing(m, root, NextVpn(v), n - 1)
  }

  ghost predicate PathsOk(m: Mem, root: nat, v: nat, n: nat)
    decreases n
  {
    n == 0 || (PathOk(m, root, 4, v) && PathsOk(m, root, NextVpn(v), n - 1))
  }

  lemma {:induction false} PlacesBelow(l: nat, v: nat)
    ensures forall x :: x in Places(l, v) ==> 1 <= x.0 <= l && x.1 == Pre(x.0, v)
    ensures |Places(l, v)| == l
  {
    hide Pre;
    if l > 0 { PlacesBelow(l - 1, v); }
  }

  lemma {:induction false} MissSize(m: Mem, f: nat, l: nat, v: nat)
    ensures |Miss(m, f, l, v)| == Need(m, f, l, v)
    ensures forall x :: x in Miss(m, f, l, v) ==> 1 <= x.0 < l && x.1 == Pre(x.0, v)
    decreases l
  {
    if l > 1 {
      PlacesBelow(l - 1, v);
      MissSize(m, Ent(m, f, Idx(l, v)).page, l - 1, v);
    }
  }

  lemma {:induction false} PreMeets(k: nat, l: nat, v: nat, w: nat)
    requires k <= l && Pre(k, v) == Pre(k, w)
    ensures Pre(l, v) == Pre(l, w)
    decreases l - k
  {
    if k < l {
      assert Pre(k + 1, v) == Pre(k + 1, w);
      PreMeets(k + 1, l, v, w);
    }
  }

  // A new table below slot i of f is not on the path of a page that does not use that slot.
  lemma {:induction false} NewTableMiss(st: PM, f: nat, i: nat, g: nat, l: nat, w: nat)
    requires WF(st) && f in st.own && st.own[f].level >= 2 && i < 512
    requires !Present(Ent(st.mem, f, i)) && st.free != []
    requires OnPath(st.own, g, l, w) && l >= 1
    requires Pre(st.own[f].level - 1, w) != st.own[f].pre * 512 + i
    ensures Miss(NewTable(st, f, i).0.mem, g, l, w) == Miss(st.mem, g, l, w)
    decreases l
  {
    NewTableIsFresh(st, f, i);
    if l >= 2 {
      var e := Ent(st.mem, g, Idx(l, w));
      if Present(e) && !Huge(e) {
        assert Linked(st.own, g, Idx(l, w), e.page);
        NewTableMiss(st, f, i, e.page, l - 1, w);
      }
    }
  }

  lemma {:induction false} SetLeafMiss(st: PM, f: nat, i: nat, e: Word, g: nat, l: nat, w: nat)
    requires WF(st) && f in st.own && st.own[f].level == 1
    requires g in st.own && st.own[g].level == l
    ensures Miss(SetEnt(st.mem, f, i, e), g, l, w) == Miss(st.mem, g, l, w)
    decreases l
  {
    if l >= 2 {
      var e' := Ent(st.mem, g, Idx(l, w));
      if Present(e') && !Huge(e') {
        assert Linked(st.own, g, Idx(l, w), e'.page);
        SetLeafMiss(st, f, i, e, e'.page, l - 1, w);
      }
    }
  }

  lemma {:induction false} MapAtMissOther(st: PM, f: nat, l: nat, v: nat, e: Word, g: nat, k: nat, w: nat)
    requires WF(st) && 1 <= l <= 4 && OnPath(st.own, f, l, v) && Present(e)
    requires MapAt(st, f, l, v, e).Some?
    requires 1 <= k && OnPath(st.own, g, k, w) && Pre(l - 1, v) != Pre(l - 1, w)
    ensures Miss(MapAt(st, f, l, v, e).value.mem, g, k, w) == Miss(st.mem, g, k, w)
    decreases l
  {
    hide WF, Grown, Miss, Above, PathOk, Need, NewTable, SetEnt, OnPath;
    PathIn(st.own, f, l, v);
    PathIn(st.own, g, k, w);
    if l == 1 {
      SetLeafMiss(st, f, Idx(1, v), e, g, k, w);
    } else {
      var (s1, c) := Next(st, f, Idx(l, v)).value;
      Descend(st, f, l, v);
      GrownPath(st, s1, st.own[f].root, l, g, k, w);
      MapAtMissOther(s1, c, l - 1, v, e, g, k, w);
      if !Present(Ent(st.mem, f, Idx(l, v))) {
        NewTableMiss(st, f, Idx(l, v), g, k, w);
      }
    }
  }

  /** Mapping page v fills exactly the missing places of v, for every page's path. */
  lemma {:induction false} MapAtMiss(st: PM, f: nat, l: nat, v: nat, e: Word, w: nat)
    requires WF(st) && 1 <= l <= 4 && OnPath(st.own, f, l, v) && OnPath(st.own, f, l, w) && Present(e)
    requires MapAt(st, f, l, v, e).Some?
    ensures Miss(MapAt(st, f, l, v, e).value.mem, f, l, w) == Miss(st.mem, f, l, w) - Miss(st.mem, f, l, v)
    decreases l
  {
    if l >= 2 {
      if Idx(l, v) != Idx(l, w) {
        MapAtMissDiverged(st, f, l, v, e, w);
      } else {
        MapAtMissShared(st, f, l, v, e, w);
      }
    }
  }

  lemma MapAtMissDiverged(st: PM, f: nat, l: nat, v: nat, e: Word, w: nat)
    requires WF(st) && 2 <= l <= 4 && OnPath(st.own, f, l, v) && OnPath(st.own, f, l, w) && Present(e)
    requires MapAt(st, f, l, v, e).Some? && Idx(l, v) != Idx(l, w)
    ensures Miss(MapAt(st, f, l, v, e).value.mem, f, l, w) == Miss(st.mem, f, l, w) - Miss(st.mem, f, l, v)
  {
    hide WF, Grown, Miss, MapAt;
    MapAtMissOther(st, f, l, v, e, f, l, w);
    MissSize(st.mem, f, l, v);
    MissSize(st.mem, f, l, w);
    forall x | x in Miss(st.mem, f, l, w) ensures x !in Miss(st.mem, f, l, v) {
      if Pre(x.0, v) == Pre(x.0, w) { PreMeets(x.0, l - 1, v, w); }
    }
  }

  lemma {:induction false} MapAtMissShared(st: PM, f: nat, l: nat, v: nat, e: Word, w: nat)
    requires WF(st) && 2 <= l <= 4 && OnPath(st.own, f, l, v) && OnPath(st.own, f, l, w) && Present(e)
    requires MapAt(st, f, l, v, e).Some? && Idx(l, v) == Idx(l, w)
    ensures Miss(MapAt(st, f, l, v, e).value.mem, f, l, w) == Miss(st.mem, f, l, w) - Miss(st.mem, f, l, v)
    decreases l, 0
  {
    hide WF, Grown, Pre, Places, Need, PathOk, Above, Walk, NewTable;
    var i := Idx(l, v);
    var (s1, c) := Next(st, f, i).value;
    var s2 := MapAt(st, f, l, v, e).value;
    Descend(st, f, l, v);
    MapAtFacts(s1, c, l - 1, v, e);
    GrownPath(st, s1, st.own[f].root, l, f, l, v);
    assert s2.mem[f] == s1.mem[f] by { StaysBelow(s1, s2, f, st.own[f].root, l - 1); }
    assert OnPath(s1.own, c, l - 1, w) by { assert Pre(l - 1, w) == Pre(l, w) * 512 + i; }
    MapAtMiss(s1, c, l - 1, v, e, w);
    if !Present(Ent(st.mem, f, i)) {
      MissNew(st, f, l, v, w);
    }
  }

  lemma MissNew(st: PM, f: nat, l: nat, v: nat, w: nat)
    requires WF(st) && 2 <= l <= 4 && OnPath(st.own, f, l, v) && OnPath(st.own, f, l, w)
    requires Idx(l, v) == Idx(l, w) && !Present(Ent(st.mem, f, Idx(l, v))) && st.free != []
    ensures var (s1, c) := NewTable(st, f, Idx(l, v));
            Miss(s1.mem, c, l - 1, w) - Miss(s1.mem, c, l - 1, v) == Miss(st.mem, f, l, w) - Miss(st.mem, f, l, v)
  {
    var (s1, c) := NewTable(st, f, Idx(l, v));
    assert f < |st.mem| by { TableInMemory(st, f); }
    NewTableIsFresh(st, f, Idx(l, v));
    assert Miss(s1.mem, c, l - 1, w) == Places(l - 2, w);
    assert Miss(s1.mem, c, l - 1, v) == Places(l - 2, v);
    assert Pre(l - 1, w) == Pre(l - 1, v);
    PlacesBelow(l - 2, w);
  }

  lemma MapOneCost(st: PM, root: nat, v: nat, e: Word)
    requires WF(st) && IsRoot(st, root) && v < MAX_VPN && Present(e)
    ensures MapAt(st, root, 4, v, e).Some? <==> PathOk(st.mem, root, 4, v) && |Miss(st.mem, root, 4, v)| <= |st.free|
    ensures MapAt(st, root, 4, v, e).Some? ==>
              |MapAt(st, root, 4, v, e).value.free| == |st.free| - |Miss(st.mem, root, 4, v)|
  {
    RootOnPath(st, root, v);
    MapAtFacts(st, root, 4, v, e);
    MissSize(st.mem, root, 4, v);
  }

  lemma MapOneMiss(st: PM, root: nat, v: nat, e: Word, w: nat)
    requires WF(st) && IsRoot(st, root) && v < MAX_VPN && w < MAX_VPN && Present(e)
    requires MapAt(st, root, 4, v, e).Some?
    ensures var m' := MapAt(st, root, 4, v, e).value.mem;
            Miss(m', root, 4, w) == Miss(st.mem, root, 4, w) - Miss(st.mem, root, 4, v)
  {
    RootOnPath(st, root, v);
    RootOnPath(st, root, w);
    MapAtMiss(st, root, 4, v, e, w);
  }

  // What one mapped page leaves missing, and leaves open, on the rest of the range.
  lemma {:induction false} MapOneRest(st: PM, root: nat, v: nat, e: Word, w: nat, n: nat)
    requires WF(st) && IsRoot(st, root) && v < MAX_VPN && w < MAX_VPN && Present(e)
    requires MapAt(st, root, 4, v, e).Some?
    ensures var m' := MapAt(st, root, 4, v, e).value.mem;
            && Missing(m', root, w, n) == Missing(st.mem, root, w, n) - Miss(st.mem, root, 4, v)
            && PathsOk(m', root, w, n) == PathsOk(st.mem, root, w, n)
    decreases n
  {
    hide WF, MapAt, Miss, PathOk, Walk, Above;
    if n > 0 {
      MapOneMiss(st, root, v, e, w);
      MapOneView(st, root, v, e, root, w);
      MapOneRest(st, root, v, e, NextVpn(w), n - 1);
    }
  }

  /** paging_map meets no failed ASSERT exactly when no huge page stands on a path of the
      range and the free list covers the distinct missing tables; it takes exactly those. */
  lemma {:induction false} MapPagesCost(st: PM, root: nat, v: nat, p: nat, n: nat, fl: Flags)
    requires WF(st) && IsRoot(st, root) && v < MAX_VPN
    ensures MapPages(st, root, v, p, n, fl).Some? <==>
              PathsOk(st.mem, root, v, n) && |Missing(st.mem, root, v, n)| <= |st.free|
    ensures MapPages(st, root, v, p, n, fl).Some? ==>
              |MapPages(st, root, v, p, n, fl).value.free| == |st.free| - |Missing(st.mem, root, v, n)|
    decreases n
  {
    hide WF, MapAt, Miss, PathOk, Grown;
    if n > 0 {
      var e := LeafEnt(p, fl);
      var here, rest := Miss(st.mem, root, 4, v), Missing(st.mem, root, NextVpn(v), n - 1);
      assert |here + rest| == |here| + |rest - here| by { assert here + rest == here + (rest - here); }
      MapOneCost(st, root, v, e);
      if MapAt(st, root, 4, v, e).Some? {
        var s1 := MapAt(st, root, 4, v, e).value;
        MapOneKeeps(st, root, v, e);
        MapOneRest(st, root, v, e, NextVpn(v), n - 1);
        MapPagesCost(s1, root, NextVpn(v), NextPfn(p), n - 1, fl);
      }
    }
  }

  /** A mapped range leaves missing elsewhere exactly what it did not itself need. */
  lemma {:induction false} MapPagesRest(st: PM, root: nat, v: nat, p: nat, n: nat, fl: Flags, w: nat, k: nat)
    requires WF(st) && IsRoot(st, root) && v < MAX_VPN && w < MAX_VPN
    ensures MapPages(st, root, v, p, n, fl).Some? ==>
              var m' := MapPages(st, root, v, p, n, fl).value.mem;
              Missing(m', root, w, k) == Missing(st.mem, root, w, k) - Missing(st.mem, root, v, n)
    decreases n
  {
    hide WF, MapAt, Miss, PathOk, Grown, PathsOk;
    if n > 0 && MapPages(st, root, v, p, n, fl).Some? {
      var e := LeafEnt(p, fl);
      var s1 := MapAt(st, root, 4, v, e).value;
      MapOneKeeps(st, root, v, e);
      MapOneRest(st, root, v, e, w, k);
      MapOneRest(st, root, v, e, NextVpn(v), n - 1);
      MapPagesRest(s1, root, NextVpn(v), NextPfn(p), n - 1, fl, w, k);
    }
  }

  // A page mapped at level 1 misses no table.
  lemma {:induction false} MappedMissesNone(m: Mem, f: nat, l: nat, v: nat)
    requires 1 <= l && Walk(m, f, l, v).Leaf?
    ensures Miss(m, f, l, v) == {}
    decreases l
  {
    if l >= 2 {
      var e := Ent(m, f, Idx(l, v));
      if !Huge(e) { MappedMissesNone(m, e.page, l - 1, v); }
    }
  }
}
