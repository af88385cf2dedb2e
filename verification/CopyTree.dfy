// pt_deepcopy_level on values: cloning a tree of tables preserves every walk.
module CopyTree {
  import opened Arch
  import opened PageTable
  import opened MapPage

  // kalloc, with the place the new table will have.
  function Take(st: PM, lab: Label): PM
    requires st.free != []
  {
    PM(Zeroed(st.mem, st.free[0]), st.free[1..], st.own[st.free[0] := lab], st.held)
  }

  function SetFrame(m: Mem, c: nat, row: seq<Word>): Mem {
    if c < |m| then m[c := row] else m
  }

  function Row(m: Mem, f: nat): seq<Word> {
    if f < |m| then m[f] else Zeros()
  }

  // pt_deepcopy_level; lab is the place of the copy. None is a failed ASSERT.
  function CopyTable(st: PM, f: nat, l: nat, lab: Label): Option<(PM, nat)>
    decreases l, 514
  {
    if st.free == [] then None
    else
      var c := st.free[0];
      var s1 := Take(st, lab);
      if l <= 1 then Some((s1.(mem := SetFrame(s1.mem, c, Row(s1.mem, f))), c))
      else
        match CopyEntries(s1, f, c, l, 0)
        case None => None
        case Some(s2) => Some((s2, c))
  }

  // The loop of pt_deepcopy_level from entry i on.
  function CopyEntries(st: PM, f: nat, c: nat, l: nat, i: nat): Option<PM>
    requires 2 <= l
    decreases l, 513 - i
  {
    if i >= 512 then Some(st)
    else
      match CopyEntry(st, f, c, l, i)
      case None => None
      case Some(s1) => CopyEntries(s1, f, c, l, i + 1)
  }

  // One turn of the loop: skip, copy a huge page verbatim, or clone the table below.
  function CopyEntry(st: PM, f: nat, c: nat, l: nat, i: nat): Option<PM>
    requires 2 <= l
    decreases l, 0
  {
    var e := Ent(st.mem, f, i);
    if !Present(e) then Some(st)
    else if Huge(e) then Some(st.(mem := SetEnt(st.mem, c, i, e)))
    else
      match CopyTable(st, e.page, l - 1, Below(st.own, c, i))
      case None => None
      case Some((s1, d)) =>
        if Present(Ent(s1.mem, c, i)) then None
        else Some(s1.(mem := SetEnt(s1.mem, c, i, Word(d, e.flags))))
  }

  // pt_root_deepcopy
  function CopyRoot(st: PM, f: nat): Option<(PM, nat)> {
    if st.free == [] then None
    else CopyTable(st, f, 4, Label(st.free[0], 4, 0, st.free[0], 0))
  }

  // The number of table frames in the tree below f.
  function Count(m: Mem, f: nat, l: nat): nat
    decreases l, 514
  {
    if l <= 1 then 1 else 1 + CountFrom(m, f, l, 0)
  }

  function CountFrom(m: Mem, f: nat, l: nat, i: nat): nat
    requires 2 <= l
    decreases l, 513 - i
  {
    if i >= 512 then 0
    else
      var e := Ent(m, f, i);
      (if Present(e) && !Huge(e) then Count(m, e.page, l - 1) else 0) + CountFrom(m, f, l, i + 1)
  }

  // ---- what cloning may change ------------------------------------------------

  // Only frames taken from the free list, and frame c, differ; the taken ones are tables of `root`.
  ghost predicate Cloned(st: PM, st': PM, root: nat, c: nat) {
    && |st'.mem| == |st.mem|
    && st'.held == st.held
    && (forall g :: g in st'.free ==> g in st.free)
    && (forall g :: g in st.free ==> g in st'.free || g in st'.own)
    && (forall g :: g in st.own ==> g in st'.own && st'.own[g] == st.own[g])
    && (forall g :: g in st'.own && g !in st.own ==> g in st.free && st'.own[g].root == root)
    && (forall g :: 0 <= g < |st.mem| && g !in st.free && g != c ==> st'.mem[g] == st.mem[g])
  }

  lemma ClonedTrans(a: PM, b: PM, d: PM, root: nat, c: nat, c': nat)
    requires Cloned(a, b, root, c) && Cloned(b, d, root, c')
    requires c' == c || c' in a.free
    ensures Cloned(a, d, root, c)
  {
  }

  // Memory agrees on the tables that root r has at level k and below.
  ghost predicate Agree(st: PM, m': Mem, r: nat, k: int) {
    && |m'| == |st.mem|
    && forall g :: g in st.own && g < |st.mem| && st.own[g].root == r && st.own[g].level <= k ==> m'[g] == st.mem[g]
  }

  // Page v is seen below f in m as it is below g in m': the same leaf, the same flags
  // at every level, the same room for new tables.
  ghost predicate SameSight(m: Mem, f: nat, m': Mem, g: nat, l: nat, v: nat)
    requires 1 <= l
  {
    && Walk(m, f, l, v) == Walk(m', g, l, v)
    && Above(m, f, l, v) == Above(m', g, l, v)
    && PathOk(m, f, l, v) == PathOk(m', g, l, v)
  }

  /** Nothing seen below f depends on anything but tables of its root at its level and below. */
  lemma {:induction false} SameBelow(st: PM, open: set<nat>, m': Mem, f: nat, l: nat, v: nat)
    requires WFOpen(st, open) && f in st.own && Agree(st, m', st.own[f].root, l) && st.own[f].level == l >= 1
    ensures SameSight(m', f, st.mem, f, l, v)
    decreases l
  {
    assert Ent(m', f, Idx(l, v)) == Ent(st.mem, f, Idx(l, v));
    if l >= 2 {
      var e := Ent(st.mem, f, Idx(l, v));
      if Present(e) && !Huge(e) {
        assert Linked(st.own, f, Idx(l, v), e.page);
        SameBelow(st, open, m', e.page, l - 1, v);
      }
    }
  }

  lemma {:induction false} SameCount(st: PM, open: set<nat>, m': Mem, f: nat, l: nat)
    requires WFOpen(st, open) && f in st.own && Agree(st, m', st.own[f].root, l) && st.own[f].level == l >= 1
    ensures Count(m', f, l) == Count(st.mem, f, l)
    decreases l, 514
  {
    if l >= 2 { SameCountFrom(st, open, m', f, l, 0); }
  }

  lemma {:induction false} SameCountFrom(st: PM, open: set<nat>, m': Mem, f: nat, l: nat, i: nat)
    requires WFOpen(st, open) && f in st.own && Agree(st, m', st.own[f].root, l) && st.own[f].level == l >= 2
    ensures CountFrom(m', f, l, i) == CountFrom(st.mem, f, l, i)
    decreases l, 513 - i
  {
    if i < 512 {
      assert Ent(m', f, i) == Ent(st.mem, f, i);
      var e := Ent(st.mem, f, i);
      if Present(e) && !Huge(e) {
        assert Linked(st.own, f, i, e.page);
        SameCount(st, open, m', e.page, l - 1);
      }
      SameCountFrom(st, open, m', f, l, i + 1);
    }
  }

  // ---- the single writes --------------------------------------------------------

  // A place a new table may take: below an existing root, or a root of its own.
  ghost predicate PlaceOk(st: PM, lab: Label) {
    && st.free != [] && 1 <= lab.level <= 4
    && (lab.level == 4 ==> lab == Label(st.free[0], 4, 0, st.free[0], 0))
    && (lab.level < 4 ==> lab.root in st.own && st.own[lab.root] == Label(lab.root, 4, 0, lab.root, 0))
  }

  lemma TakeKeeps(st: PM, open: set<nat>, lab: Label)
    requires WFOpen(st, open) && PlaceOk(st, lab)
    ensures var (s1, c) := (Take(st, lab), st.free[0]);
            && WFOpen(s1, open + {c})
            && Cloned(st, s1, lab.root, c)
            && (forall j: nat :: Ent(s1.mem, c, j) == ZERO)
            && c < |st.mem| && c !in st.own
  {
    var (s1, c) := (Take(st, lab), st.free[0]);
    assert st.free == [c] + s1.free;
    assert Labels(s1.mem, s1.own) by {
      forall g | g in s1.own ensures LabelOk(s1.own, g) {
        if g != c { assert LabelOk(st.own, g); }
      }
    }
    TakeDownUp(st, open, lab);
    TakeChain(st, open, lab);
  }

  lemma TakeDownUp(st: PM, open: set<nat>, lab: Label)
    requires WFOpen(st, open) && PlaceOk(st, lab)
    ensures var (s1, c) := (Take(st, lab), st.free[0]);
            Down(s1.mem, s1.own) && Up(s1.mem, s1.own, open + {c})
  {
    hide Labels, Chain;
    var (s1, c) := (Take(st, lab), st.free[0]);
    assert c !in st.own;
    forall g: nat, j: nat | g in s1.own && s1.own[g].level >= 2 && j < 512 && Present(Ent(s1.mem, g, j)) && !Huge(Ent(s1.mem, g, j))
      ensures Linked(s1.own, g, j, Ent(s1.mem, g, j).page)
    {
      assert g != c;
      assert Linked(st.own, g, j, Ent(st.mem, g, j).page);
    }
    forall g | g in s1.own && s1.own[g].level < 4 && g !in open + {c} ensures Referenced(s1.mem, s1.own, g) {
      assert Referenced(st.mem, st.own, g);
    }
  }

  lemma TakeChain(st: PM, open: set<nat>, lab: Label)
    requires WFOpen(st, open) && PlaceOk(st, lab)
    ensures var s1 := Take(st, lab);
            Chain(s1.mem, s1.free) && Apart(s1.free, s1.own, s1.held) && Shaped(s1.mem)
  {
    hide Labels, Down, Up;
    var s1 := Take(st, lab);
    ChainTail(st.mem, st.free);
    ChainKept(st.mem, s1.free, s1.mem);
  }

  // Replacing the contents of a level-1 table.
  lemma FillKeeps(st: PM, open: set<nat>, c: nat, row: seq<Word>)
    requires WFOpen(st, open) && c in st.own && st.own[c].level == 1 && |row| == 512
    ensures WFOpen(st.(mem := SetFrame(st.mem, c, row)), open)
    ensures Cloned(st, st.(mem := SetFrame(st.mem, c, row)), st.own[c].root, c)
  {
    var s' := st.(mem := SetFrame(st.mem, c, row));
    assert forall g: nat, j: nat :: g != c ==> Ent(s'.mem, g, j) == Ent(st.mem, g, j);
    ChainKept(st.mem, st.free, s'.mem);
    TreesKept(st, open, s');
  }

  // Writing an empty entry of a higher table: a huge page, or the link to table d.
  lemma EntryKeeps(st: PM, open: set<nat>, c: nat, i: nat, e: Word, d: nat)
    requires c in st.own && st.own[c].level >= 2 && i < 512
    requires WFOpen(st, open + {d}) && !Present(Ent(st.mem, c, i)) && d !in open
    requires Present(e) && (Huge(e) ==> d !in st.own)
    requires !Huge(e) ==> e.page == d && d in st.own && st.own[d] == Below(st.own, c, i)
    ensures var s' := st.(mem := SetEnt(st.mem, c, i, e));
            WFOpen(s', open) && Cloned(st, s', st.own[c].root, c) && Ent(s'.mem, c, i) == e
  {
    var s' := st.(mem := SetEnt(st.mem, c, i, e));
    assert Labels(s'.mem, s'.own) by {
      forall g | g in st.own ensures LabelOk(s'.own, g) { assert LabelOk(st.own, g); }
    }
    assert Down(s'.mem, s'.own) by {
      forall g: nat, j: nat | g in s'.own && s'.own[g].level >= 2 && j < 512 && Present(Ent(s'.mem, g, j)) && !Huge(Ent(s'.mem, g, j))
        ensures Linked(s'.own, g, j, Ent(s'.mem, g, j).page)
      {
        if g != c || j != i { assert Linked(st.own, g, j, Ent(st.mem, g, j).page); }
      }
    }
    assert Up(s'.mem, s'.own, open) by {
      forall g | g in st.own && st.own[g].level < 4 && g !in open ensures Referenced(s'.mem, s'.own, g) {
        if g != d { assert Referenced(st.mem, st.own, g); }
      }
    }
    ChainKept(st.mem, st.free, s'.mem);
  }

  // ---- the clone ----------------------------------------------------------------

  ghost predicate TableReady(st: PM, open: set<nat>, f: nat, l: nat, lab: Label) {
    && WFOpen(st, open) && open <= st.own.Keys && 1 <= l <= 4
    && f in st.own && st.own[f].level == l == lab.level
    && (st.free != [] ==> PlaceOk(st, lab))
    && lab.root != st.own[f].root
  }

  ghost predicate EntriesReady(st: PM, open: set<nat>, f: nat, c: nat, l: nat, i: nat) {
    && WFOpen(st, open) && open <= st.own.Keys && 2 <= l <= 4
    && f in st.own && c in st.own && st.own[f].level == l == st.own[c].level
    && st.own[f].root != st.own[c].root
    && (forall j: nat :: j >= i ==> Ent(st.mem, c, j) == ZERO)
  }

  lemma {:induction false} CopyTableFacts(st: PM, open: set<nat>, f: nat, l: nat, lab: Label)
    requires TableReady(st, open, f, l, lab)
    ensures CopyTable(st, f, l, lab).Some? <==> Count(st.mem, f, l) <= |st.free|
    ensures CopyTable(st, f, l, lab).Some? ==>
              var (s', c) := CopyTable(st, f, l, lab).value;
              && st.free != [] && c == st.free[0] && c !in st.own
              && WFOpen(s', open + {c}) && Cloned(st, s', lab.root, c)
              && c in s'.own && s'.own[c] == lab
              && |s'.free| == |st.free| - Count(st.mem, f, l)
    decreases l, 514
  {
    hide WFOpen, Cloned;
    if st.free != [] {
      var c, s1 := st.free[0], Take(st, lab);
      TakeKeeps(st, open, lab);
      ClonedOwn(st, s1, lab.root, c, f);
      if l == 1 {
        RowShape(st, f, open);
        RowShape(s1, f, open + {c});
        FillKeeps(s1, open + {c}, c, Row(s1.mem, f));
        ClonedTrans(st, s1, s1.(mem := SetFrame(s1.mem, c, Row(s1.mem, f))), lab.root, c, c);
      } else {
        CopyEntriesFacts(s1, open + {c}, f, c, l, 0);
        SameCountFrom(st, open, s1.mem, f, l, 0) by { ClonedAgree(st, s1, open, lab.root, c, st.own[f].root, l); }
        if CopyEntries(s1, f, c, l, 0).Some? {
          var s2 := CopyEntries(s1, f, c, l, 0).value;
          ClonedTrans(st, s1, s2, lab.root, c, c);
          ClonedOwn(s1, s2, lab.root, c, c);
        }
      }
    }
  }

  lemma ClonedOwn(st: PM, st': PM, root: nat, c: nat, f: nat)
    requires Cloned(st, st', root, c) && f in st.own
    ensures f in st'.own && st'.own[f] == st.own[f] && st.own.Keys <= st'.own.Keys
  {
  }

  lemma RowShape(st: PM, f: nat, open: set<nat>)
    requires WFOpen(st, open) && f in st.own
    ensures f < |st.mem| && |Row(st.mem, f)| == 512
  {
  }

  // Tables of another root, or below the level of c, stay as they are.
  lemma ClonedAgree(st: PM, st': PM, open: set<nat>, root: nat, c: nat, r: nat, k: int)
    requires WFOpen(st, open) && Cloned(st, st', root, c)
    requires c in st.own ==> st.own[c].root != r || st.own[c].level > k
    ensures Agree(st, st'.mem, r, k)
  {
    hide Labels, Down, Up, Chain;
  }

  lemma {:induction false} CopyEntriesFacts(st: PM, open: set<nat>, f: nat, c: nat, l: nat, i: nat)
    requires EntriesReady(st, open, f, c, l, i)
    ensures CopyEntries(st, f, c, l, i).Some? <==> CountFrom(st.mem, f, l, i) <= |st.free|
    ensures CopyEntries(st, f, c, l, i).Some? ==>
              var s' := CopyEntries(st, f, c, l, i).value;
              && WFOpen(s', open) && Cloned(st, s', st.own[c].root, c)
              && |s'.free| == |st.free| - CountFrom(st.mem, f, l, i)
    decreases l, 513 - i
  {
    hide WFOpen, Cloned, CopyTable, Count;
    if i >= 512 {
      assert Cloned(st, st, st.own[c].root, c) by { ClonedRefl(st, st.own[c].root, c); }
    } else {
      CopyEntryFacts(st, open, f, c, l, i);
      if CopyEntry(st, f, c, l, i).Some? {
        var s2 := CopyEntry(st, f, c, l, i).value;
        CopyEntriesFacts(s2, open, f, c, l, i + 1);
        SameCountFrom(st, open, s2.mem, f, l, i + 1) by { ClonedAgree(st, s2, open, st.own[c].root, c, st.own[f].root, l); }
        if CopyEntries(s2, f, c, l, i + 1).Some? {
          ClonedTrans(st, s2, CopyEntries(s2, f, c, l, i + 1).value, st.own[c].root, c, c);
        }
      }
    }
  }

  lemma ClonedRefl(st: PM, root: nat, c: nat)
    ensures Cloned(st, st, root, c)
  {
  }

  lemma {:induction false} CopyEntryFacts(st: PM, open: set<nat>, f: nat, c: nat, l: nat, i: nat)
    requires EntriesReady(st, open, f, c, l, i) && i < 512
    ensures var cost := CountFrom(st.mem, f, l, i) - CountFrom(st.mem, f, l, i + 1);
            && (CopyEntry(st, f, c, l, i).Some? <==> cost <= |st.free|)
            && 0 <= cost
            && (CopyEntry(st, f, c, l, i).Some? ==>
                  var s2 := CopyEntry(st, f, c, l, i).value;
                  && EntriesReady(s2, open, f, c, l, i + 1) && Cloned(st, s2, st.own[c].root, c)
                  && s2.own[c] == st.own[c]
                  && |s2.free| == |st.free| - cost)
    decreases l, 0
  {
    hide WFOpen, Cloned, CopyTable, Count;
    var e := Ent(st.mem, f, i);
    if Present(e) && Huge(e) {
      NotOwned(st, open);
      EntryKeeps(st, open, c, i, e, |st.mem|);
      ClonedOwn(st, CopyEntry(st, f, c, l, i).value, st.own[c].root, c, f);
    } else if Present(e) {
      ChildReady(st, open, f, c, l, i);
      CopyTableFacts(st, open, e.page, l - 1, Below(st.own, c, i));
      if CopyTable(st, e.page, l - 1, Below(st.own, c, i)).Some? {
        LinkChild(st, open, f, c, l, i);
      }
    } else {
      ClonedRefl(st, st.own[c].root, c);
    }
  }

  lemma NotOwned(st: PM, open: set<nat>)
    requires WFOpen(st, open)
    ensures |st.mem| !in st.own && WFOpen(st, open + {|st.mem|})
  {
  }

  lemma ChildReady(st: PM, open: set<nat>, f: nat, c: nat, l: nat, i: nat)
    requires EntriesReady(st, open, f, c, l, i) && i < 512
    requires Present(Ent(st.mem, f, i)) && !Huge(Ent(st.mem, f, i))
    ensures TableReady(st, open, Ent(st.mem, f, i).page, l - 1, Below(st.own, c, i))
  {
    assert Linked(st.own, f, i, Ent(st.mem, f, i).page);
    assert LabelOk(st.own, c);
  }

  lemma LinkChild(st: PM, open: set<nat>, f: nat, c: nat, l: nat, i: nat)
    requires EntriesReady(st, open, f, c, l, i) && i < 512
    requires var e := Ent(st.mem, f, i);
             && Present(e) && !Huge(e) && CopyTable(st, e.page, l - 1, Below(st.own, c, i)).Some?
             && var (s1, d) := CopyTable(st, e.page, l - 1, Below(st.own, c, i)).value;
             && st.free != [] && d == st.free[0] && d !in st.own
             && WFOpen(s1, open + {d}) && Cloned(st, s1, st.own[c].root, d)
             && d in s1.own && s1.own[d] == Below(st.own, c, i)
    ensures CopyEntry(st, f, c, l, i).Some?
    ensures var s2 := CopyEntry(st, f, c, l, i).value;
            && EntriesReady(s2, open, f, c, l, i + 1) && Cloned(st, s2, st.own[c].root, c)
            && s2.own[c] == st.own[c]
            && s2.free == CopyTable(st, Ent(st.mem, f, i).page, l - 1, Below(st.own, c, i)).value.0.free
  {
    hide WFOpen, Cloned, CopyTable, Count;
    var e := Ent(st.mem, f, i);
    var (s1, d) := CopyTable(st, e.page, l - 1, Below(st.own, c, i)).value;
    ClonedOwn(st, s1, st.own[c].root, d, f);
    ClonedOwn(st, s1, st.own[c].root, d, c);
    assert c < |st.mem| == |s1.mem| && s1.mem[c] == st.mem[c] by { ClonedFrame(st, s1, open, st.own[c].root, d, c); }
    assert forall j: nat :: Ent(s1.mem, c, j) == Ent(st.mem, c, j);
    EntryKeeps(s1, open, c, i, Word(d, e.flags), d);
    var s2 := s1.(mem := SetEnt(s1.mem, c, i, Word(d, e.flags)));
    assert Cloned(st, s2, st.own[c].root, c) by { LinkCloned(st, s1, s2, st.own[c].root, d, c); }
  }

  lemma ClonedFrame(st: PM, st': PM, open: set<nat>, root: nat, c: nat, g: nat)
    requires WFOpen(st, open) && Cloned(st, st', root, c) && g in st.own && g != c
    ensures g < |st.mem| == |st'.mem| && st'.mem[g] == st.mem[g]
  {
    hide Labels, Down, Up, Chain;
    RowShape(st, g, open);
  }

  lemma LinkCloned(a: PM, b: PM, d: PM, root: nat, x: nat, c: nat)
    requires Cloned(a, b, root, x) && x in a.free && Cloned(b, d, root, c)
    ensures Cloned(a, d, root, c)
  {
  }

  // ---- the clone's meaning --------------------------------------------------------

  /** A walk for v below the copy sees exactly what it sees below the original. */
  lemma {:induction false} CopyTableWalk(st: PM, open: set<nat>, f: nat, l: nat, lab: Label, v: nat)
    requires TableReady(st, open, f, l, lab)
    requires CopyTable(st, f, l, lab).Some?
    ensures var (s', c) := CopyTable(st, f, l, lab).value;
            SameSight(s'.mem, c, st.mem, f, l, v)
    decreases l, 514
  {
    hide WFOpen, Cloned, Walk, Above, PathOk;
    var c, s1 := st.free[0], Take(st, lab);
    TakeKeeps(st, open, lab);
    ClonedOwn(st, s1, lab.root, c, f);
    ClonedAgree(st, s1, open, lab.root, c, st.own[f].root, l);
    SameBelow(st, open, s1.mem, f, l, v);
    RowShape(s1, f, open + {c});
    if l == 1 {
      LeafWalk(s1.mem, f, SetFrame(s1.mem, c, Row(s1.mem, f)), c, v);
    } else {
      CopyEntriesWalk(s1, open + {c}, f, c, l, 0, v);
    }
  }

  lemma LeafWalk(m: Mem, f: nat, m': Mem, c: nat, v: nat)
    requires forall j: nat :: Ent(m', c, j) == Ent(m, f, j)
    ensures SameSight(m', c, m, f, 1, v)
  {
  }

  lemma {:induction false} CopyEntriesWalk(st: PM, open: set<nat>, f: nat, c: nat, l: nat, i: nat, v: nat)
    requires EntriesReady(st, open, f, c, l, i)
    requires CopyEntries(st, f, c, l, i).Some?
    ensures var m' := CopyEntries(st, f, c, l, i).value.mem;
            SameSight(m', c, st.mem, if Idx(l, v) >= i then f else c, l, v)
    decreases l, 513 - i
  {
    hide WFOpen, Cloned, Walk, Above, PathOk, CopyEntry;
    if i < 512 {
      var s2 := CopyEntry(st, f, c, l, i).value;
      CopyEntryFacts(st, open, f, c, l, i);
      CopyEntriesWalk(s2, open, f, c, l, i + 1, v);
      if Idx(l, v) > i {
        ClonedAgree(st, s2, open, st.own[c].root, c, st.own[f].root, l);
        SameBelow(st, open, s2.mem, f, l, v);
      } else {
        CopyEntryWalk(st, open, f, c, l, i, v);
      }
    }
  }

  // After turn i, a walk through entry i of the copy agrees with the original, and walks
  // through earlier entries are as they were.
  lemma {:induction false} CopyEntryWalk(st: PM, open: set<nat>, f: nat, c: nat, l: nat, i: nat, v: nat)
    requires EntriesReady(st, open, f, c, l, i) && i < 512 && Idx(l, v) <= i
    requires CopyEntry(st, f, c, l, i).Some?
    ensures var m' := CopyEntry(st, f, c, l, i).value.mem;
            SameSight(m', c, st.mem, if Idx(l, v) == i then f else c, l, v)
    decreases l, 0
  {
    hide WFOpen, Cloned, CopyTable, Count;
    var j := Idx(l, v);
    var s2 := CopyEntry(st, f, c, l, i).value;
    CopyEntryFacts(st, open, f, c, l, i);
    if j < i {
      EarlierEntry(st, open, f, c, l, i, v);
    } else {
      var e := Ent(st.mem, f, i);
      RowShape(st, c, open);
      if Present(e) && !Huge(e) {
        ChildReady(st, open, f, c, l, i);
        CopyTableFacts(st, open, e.page, l - 1, Below(st.own, c, i));
        CopyTableWalk(st, open, e.page, l - 1, Below(st.own, c, i), v);
        var (s1, d) := CopyTable(st, e.page, l - 1, Below(st.own, c, i)).value;
        LinkChild(st, open, f, c, l, i);
        ClonedOwn(st, s1, st.own[c].root, d, c);
        SetEntAgree(s1, c, i, Word(d, e.flags), l - 1);
        SameBelow(s1, open + {d}, s2.mem, d, l - 1, v);
        RowShape(s1, c, open + {d});
      }
    }
  }

  lemma SetEntAgree(st: PM, c: nat, i: nat, e: Word, k: int)
    requires c in st.own && st.own[c].level > k
    ensures Agree(st, SetEnt(st.mem, c, i, e), st.own[c].root, k)
  {
  }

  lemma EarlierEntry(st: PM, open: set<nat>, f: nat, c: nat, l: nat, i: nat, v: nat)
    requires EntriesReady(st, open, f, c, l, i) && i < 512 && Idx(l, v) < i
    requires CopyEntry(st, f, c, l, i).Some?
    requires Cloned(st, CopyEntry(st, f, c, l, i).value, st.own[c].root, c)
    ensures SameSight(CopyEntry(st, f, c, l, i).value.mem, c, st.mem, c, l, v)
  {
    hide Labels, Up, Chain, CopyTable, Count;
    var s2 := CopyEntry(st, f, c, l, i).value;
    var j := Idx(l, v);
    assert Ent(s2.mem, c, j) == Ent(st.mem, c, j) by { OtherEntry(st, open, f, c, l, i, j); }
    var e := Ent(st.mem, c, j);
    if Present(e) && !Huge(e) {
      assert Linked(st.own, c, j, e.page);
      ClonedAgree(st, s2, open, st.own[c].root, c, st.own[c].root, l - 1);
      SameBelow(st, open, s2.mem, e.page, l - 1, v);
    }
  }

  lemma OtherEntry(st: PM, open: set<nat>, f: nat, c: nat, l: nat, i: nat, j: nat)
    requires EntriesReady(st, open, f, c, l, i) && i < 512 && j != i
    requires CopyEntry(st, f, c, l, i).Some?
    ensures Ent(CopyEntry(st, f, c, l, i).value.mem, c, j) == Ent(st.mem, c, j)
  {
    hide WFOpen, Cloned, CopyTable, Count;
    var e := Ent(st.mem, f, i);
    if Present(e) && !Huge(e) {
      ChildReady(st, open, f, c, l, i);
      CopyTableFacts(st, open, e.page, l - 1, Below(st.own, c, i));
      var (s1, d) := CopyTable(st, e.page, l - 1, Below(st.own, c, i)).value;
      ClonedFrame(st, s1, open, st.own[c].root, d, c);
    }
  }

  // What becomes of entry e in a copy of level l: e' is its copy, made of frames that were free.
  ghost predicate CopiedEntry(st: PM, l: nat, e: Word, e': Word) {
    if l == 1 || (Present(e) && Huge(e)) then e' == e
    else if !Present(e) then e' == ZERO
    else e'.flags == e.flags && e'.page in st.free
  }

  /** Entry by entry: a last-level table is copied verbatim, absent entries and all; above it
      huge pages are verbatim, absent entries are zero, and links keep their flags and lead
      to frames that were free. */
  lemma CopyRow(st: PM, open: set<nat>, f: nat, l: nat, lab: Label, k: nat)
    requires TableReady(st, open, f, l, lab) && k < 512
    requires CopyTable(st, f, l, lab).Some?
    ensures var (s', c) := CopyTable(st, f, l, lab).value;
            var e, e' := Ent(st.mem, f, k), Ent(s'.mem, c, k);
            if l == 1 || (Present(e) && Huge(e)) then e' == e
            else if !Present(e) then e' == ZERO
            else e'.flags == e.flags && e'.page in st.free
  {
    hide WFOpen, Cloned;
    var c, s1 := st.free[0], Take(st, lab);
    TakeKeeps(st, open, lab);
    ClonedOwn(st, s1, lab.root, c, f);
    ClonedFrame(st, s1, open, lab.root, c, f);
    RowShape(s1, f, open + {c});
    if l > 1 {
      CopyEntriesRow(s1, open + {c}, f, c, l, 0, k);
    }
  }

  lemma {:induction false} CopyEntriesRow(st: PM, open: set<nat>, f: nat, c: nat, l: nat, i: nat, k: nat)
    requires EntriesReady(st, open, f, c, l, i) && k < 512
    requires CopyEntries(st, f, c, l, i).Some?
    ensures var m' := CopyEntries(st, f, c, l, i).value.mem;
            if k < i then Ent(m', c, k) == Ent(st.mem, c, k) else CopiedEntry(st, l, Ent(st.mem, f, k), Ent(m', c, k))
    decreases 513 - i
  {
    hide WFOpen, Cloned, CopyTable, Count;
    if i < 512 {
      var s2 := CopyEntry(st, f, c, l, i).value;
      CopyEntryFacts(st, open, f, c, l, i);
      CopyEntriesRow(s2, open, f, c, l, i + 1, k);
      ClonedFrame(st, s2, open, st.own[c].root, c, f);
      FreeShrinks(st, s2, st.own[c].root, c);
      if k == i { CopyOneEntry(st, open, f, c, l, i); } else { OtherEntry(st, open, f, c, l, i, k); }
    }
  }

  lemma FreeShrinks(st: PM, st': PM, root: nat, c: nat)
    requires Cloned(st, st', root, c)
    ensures forall g :: g in st'.free ==> g in st.free
  {
  }

  lemma CopyOneEntry(st: PM, open: set<nat>, f: nat, c: nat, l: nat, i: nat)
    requires EntriesReady(st, open, f, c, l, i) && i < 512
    requires CopyEntry(st, f, c, l, i).Some?
    ensures CopiedEntry(st, l, Ent(st.mem, f, i), Ent(CopyEntry(st, f, c, l, i).value.mem, c, i))
  {
    hide WFOpen, Cloned, CopyTable, Count;
    var e := Ent(st.mem, f, i);
    RowShape(st, c, open);
    if Present(e) && !Huge(e) {
      ChildReady(st, open, f, c, l, i);
      CopyTableFacts(st, open, e.page, l - 1, Below(st.own, c, i));
      var (s1, d) := CopyTable(st, e.page, l - 1, Below(st.own, c, i)).value;
      ClonedOwn(st, s1, st.own[c].root, d, c);
      RowShape(s1, c, open + {d});
    }
  }
}
