// Page-table trees in physical memory, what a walk sees in them, and the
// table-building step of paging.c on values.
module PageTable {
  import opened Arch

  datatype Option<+T> = None | Some(value: T)

  // Physical memory: frame number -> 512 words.
  type Mem = seq<seq<Word>>

  function Zeros(): (z: seq<Word>)
    ensures |z| == 512 && forall i :: 0 <= i < 512 ==> z[i] == ZERO
  {
    seq(512, _ => ZERO)
  }

  function Ent(m: Mem, f: nat, i: nat): Word {
    if f < |m| && i < |m[f]| then m[f][i] else ZERO
  }

  function SetEnt(m: Mem, f: nat, i: nat, e: Word): (r: Mem)
    ensures |r| == |m|
    ensures forall g :: 0 <= g < |m| && g != f ==> r[g] == m[g]
    ensures forall g :: 0 <= g < |m| ==> |r[g]| == |m[g]|
    ensures f < |m| && i < |m[f]| ==> Ent(r, f, i) == e
    ensures forall g: nat, j: nat :: g != f || j != i ==> Ent(r, g, j) == Ent(m, g, j)
  {
    if f < |m| && i < |m[f]| then
      var row: seq<Word> := m[f][i := e];
      m[f := row]
    else m
  }

  function Zeroed(m: Mem, c: nat): (r: Mem)
    ensures |r| == |m|
    ensures forall g :: 0 <= g < |m| && g != c ==> r[g] == m[g]
    ensures c < |m| ==> |r[c]| == 512
    ensures forall j: nat :: Ent(r, c, j) == ZERO
    ensures forall g: nat, j: nat :: g != c ==> Ent(r, g, j) == Ent(m, g, j)
  {
    if c < |m| then m[c := Zeros()] else m
  }

  // ---- what a walk sees -----------------------------------------------------

  // The entry that ends a walk, its level, and the flags met above it.
  datatype Mapping = Unmapped | Leaf(level: nat, ent: Word, above: seq<Flags>)

  function Walk(m: Mem, f: nat, l: nat, v: nat): Mapping
    requires 1 <= l
    decreases l
  {
    var e := Ent(m, f, Idx(l, v));
    if !Present(e) then Unmapped
    else if l == 1 || Huge(e) then Leaf(l, e, [])
    else
      match Walk(m, e.page, l - 1, v)
      case Unmapped => Unmapped
      case Leaf(k, x, above) => Leaf(k, x, [e.flags] + above)
  }

  // The table in which the walk for v ends.
  function EndTable(m: Mem, f: nat, l: nat, v: nat): nat
    requires 1 <= l
    decreases l
  {
    var e := Ent(m, f, Idx(l, v));
    if l == 1 || !Present(e) || Huge(e) then f else EndTable(m, e.page, l - 1, v)
  }

  // The flags a walk for v meets above level 1, reading TABLE_FLAGS where a table is missing.
  function Above(m: Mem, f: nat, l: nat, v: nat): seq<Flags>
    decreases l
  {
    if l <= 1 then []
    else
      var e := Ent(m, f, Idx(l, v));
      if !Present(e) then [TABLE_FLAGS] + Above([], 0, l - 1, v)
      else if Huge(e) then [e.flags]
      else [e.flags] + Above(m, e.page, l - 1, v)
  }

  // No huge page stands on the path of v.
  predicate PathOk(m: Mem, f: nat, l: nat, v: nat)
    decreases l
  {
    l <= 1 ||
    var e := Ent(m, f, Idx(l, v));
    Present(e) ==> !Huge(e) && PathOk(m, e.page, l - 1, v)
  }

  // How many tables are missing on the path of v.
  function Need(m: Mem, f: nat, l: nat, v: nat): nat
    decreases l
  {
    if l <= 1 then 0
    else
      var e := Ent(m, f, Idx(l, v));
      if !Present(e) then l - 1
      else if Huge(e) then 0
      else Need(m, e.page, l - 1, v)
  }

  // ---- ownership ------------------------------------------------------------

  // The one place a table frame has: in the tree of `root`, at `level`, for the
  // pages whose number starts with `pre`, referenced from entry `slot` of `parent`.
  datatype Label = Label(root: nat, level: int, pre: nat, parent: nat, slot: nat)

  type Own = map<nat, Label>

  // mem: physical memory; free: the free list, head first; own: table frames and
  // their places; held: other frames handed out by kalloc.
  datatype PM = PM(mem: Mem, free: seq<nat>, own: Own, held: set<nat>)

  function Lab(own: Own, f: nat): Label {
    if f in own then own[f] else Label(0, 0, 0, 0, 0)
  }

  ghost predicate Shaped(m: Mem) {
    forall f :: 0 <= f < |m| ==> |m[f]| == 512
  }

  ghost predicate LabelOk(own: Own, f: nat)
    requires f in own
  {
    && 1 <= own[f].level <= 4
    && own[f].root in own
    && own[own[f].root] == Label(own[f].root, 4, 0, own[f].root, 0)
    && (own[f].level == 4 ==> own[f].root == f)
  }

  ghost predicate Labels(m: Mem, own: Own) {
    && (forall f :: f in own ==> f < |m|)
    && (forall f {:trigger LabelOk(own, f)} :: f in own ==> LabelOk(own, f))
  }

  // Every entry of a table that is present and not a huge page points at the
  // table whose place is exactly below it.
  ghost predicate Down(m: Mem, own: Own) {
    forall f: nat, i: nat :: f in own && own[f].level >= 2 && i < 512 && Present(Ent(m, f, i)) && !Huge(Ent(m, f, i)) ==>
      Linked(own, f, i, Ent(m, f, i).page)
  }

  ghost predicate Linked(own: Own, f: nat, i: nat, c: nat)
    requires f in own && own[f].level >= 2
  {
    c in own && own[c] == Label(own[f].root, own[f].level - 1, own[f].pre * 512 + i, f, i)
  }

  // Every table below a root, `open` excepted, is referenced from its place.
  ghost predicate Up(m: Mem, own: Own, open: set<nat>) {
    forall f {:trigger Referenced(m, own, f)} :: f in own && own[f].level < 4 && f !in open ==> Referenced(m, own, f)
  }

  ghost predicate Referenced(m: Mem, own: Own, f: nat)
    requires f in own
  {
    var p := own[f].parent;
    var e := Ent(m, p, own[f].slot);
    && p in own && own[f].slot < 512
    && own[p].root == own[f].root && own[p].level == own[f].level + 1 && own[f].pre == own[p].pre * 512 + own[f].slot
    && Present(e) && !Huge(e) && e.page == f
  }

  // ---- the free list --------------------------------------------------------

  // The word that links to position k of the free list: a kernel pointer, or NULL.
  function Link(free: seq<nat>, k: nat): Word {
    if k < |free| then Word(KERNBASE / 4096 + free[k], NOFLAGS) else ZERO
  }

  ghost predicate Stored(m: Mem, free: seq<nat>, k: nat)
    requires k < |free|
  {
    Ent(m, free[k], 0) == Link(free, k + 1)
  }

  // The list is stored in the first words of the free frames and has no repeats.
  ghost predicate Chain(m: Mem, free: seq<nat>) {
    && (forall k :: 0 <= k < |free| ==> free[k] < |m|)
    && (forall k {:trigger Stored(m, free, k)} :: 0 <= k < |free| ==> Stored(m, free, k))
    && (forall j, k :: 0 <= j < k < |free| ==> free[j] != free[k])
  }

  ghost predicate Apart(free: seq<nat>, own: Own, held: set<nat>) {
    && (forall k :: 0 <= k < |free| ==> free[k] !in own && free[k] !in held)
    && own.Keys !! held
  }

  ghost predicate WFOpen(st: PM, open: set<nat>) {
    && Shaped(st.mem)
    && Labels(st.mem, st.own)
    && Down(st.mem, st.own)
    && Up(st.mem, st.own, open)
    && Chain(st.mem, st.free)
    && Apart(st.free, st.own, st.held)
  }

  ghost predicate WF(st: PM) { WFOpen(st, {}) }

  ghost predicate IsRoot(st: PM, r: nat) {
    r in st.own && st.own[r].level == 4
  }

  ghost function Pool(st: PM): set<nat> {
    (set f | f in st.free) + st.own.Keys + st.held
  }

  lemma ChildPlace(st: PM, f: nat, i: nat)
    requires WF(st) && f in st.own && st.own[f].level >= 2 && i < 512
    requires Present(Ent(st.mem, f, i)) && !Huge(Ent(st.mem, f, i))
    ensures Linked(st.own, f, i, Ent(st.mem, f, i).page)
  {
  }

  // ---- frame rules ------------------------------------------------------------

  // A change outside the tables of level 2 and above keeps the trees.
  lemma TreesKept(st: PM, open: set<nat>, st': PM)
    requires WFOpen(st, open) && st'.own == st.own
    requires |st'.mem| == |st.mem| && Shaped(st'.mem)
    requires forall g, j: nat :: g in st.own && st.own[g].level >= 2 ==> Ent(st'.mem, g, j) == Ent(st.mem, g, j)
    requires Chain(st'.mem, st'.free) && Apart(st'.free, st'.own, st'.held)
    ensures WFOpen(st', open)
  {
    hide Chain, Apart;
    forall g | g in st.own ensures LabelOk(st'.own, g) { assert LabelOk(st.own, g); }
    forall g | g in st.own && st.own[g].level < 4 && g !in open ensures Referenced(st'.mem, st'.own, g) {
      assert Referenced(st.mem, st.own, g);
      assert LabelOk(st.own, g);
    }
  }

  // The list survives writes outside its frames.
  lemma ChainKept(m: Mem, free: seq<nat>, m': Mem)
    requires Chain(m, free) && |m'| == |m|
    requires forall k :: 0 <= k < |free| ==> Ent(m', free[k], 0) == Ent(m, free[k], 0)
    ensures Chain(m', free)
  {
    forall k | 0 <= k < |free| ensures Stored(m', free, k) { assert Stored(m, free, k); }
  }

  // Without its head, the list is still a list.
  lemma ChainTail(m: Mem, free: seq<nat>)
    requires Chain(m, free) && free != []
    ensures Chain(m, free[1..]) && free[0] !in free[1..]
  {
    forall k | 0 <= k < |free[1..]| ensures Stored(m, free[1..], k) { assert Stored(m, free, k + 1); }
  }
}
