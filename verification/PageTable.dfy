/**
 The Sv39 page tables of `kernel/vm.c` and the frame allocator of
 `kernel/kalloc.c`. A page table is a three-level tree of frames; the module shows
 that it stands for a flat map from virtual pages to PTEs, and accounts for every
 frame. The table format is that of section 4.4 of the RISC-V Privileged
 Architecture, version 20211203. Frames are named by their physical page number.
 */
module PageTable {
  import opened Common

  const TRAPFRAME: nat := MAXVA - 2 * PGSIZE
  const PTES: nat := 512

  // ---------------------------------------------------------------- PTE words

  const PTE_V: nat := 1
  const PTE_R: nat := 2
  const PTE_W: nat := 4
  const PTE_X: nat := 8
  const PTE_U: nat := 16

  /** PA2PTE of frame `f`, with flag bits. */
  function MakePte(f: nat, flags: nat): nat
    requires flags < 1024
  {
    f * 1024 + flags
  }

  /** PTE2PA, as a frame number. */
  function Ppn(w: nat): nat { w / 1024 }

  function Flags(w: nat): nat { w % 1024 }

  predicate IsValid(w: nat) { w % 2 == 1 }

  /** R, W or X is set: the PTE maps a page and is not a pointer to a table. */
  predicate IsLeaf(w: nat) { w / 2 % 8 != 0 }

  lemma {:induction false} PteFields(f: nat, flags: nat)
    requires flags < 1024
    ensures Ppn(MakePte(f, flags)) == f && Flags(MakePte(f, flags)) == flags
    ensures IsValid(MakePte(f, flags)) <==> flags % 2 == 1
    ensures IsLeaf(MakePte(f, flags)) <==> flags / 2 % 8 != 0
  {
    LowBits(f, flags);
  }

  lemma {:induction false} LowBits(f: nat, flags: nat)
    requires flags < 1024
    ensures (f * 1024 + flags) / 1024 == f && (f * 1024 + flags) % 1024 == flags
    ensures (f * 1024 + flags) % 2 == flags % 2
    ensures (f * 1024 + flags) / 2 % 8 == flags / 2 % 8
  {
    var h := flags / 2;
    Parts1024(f, flags);
    Parts2(f * 512 + h, flags % 2);
    Parts8(f * 64 + h / 8, h % 8);
    assert f * 1024 + flags == (f * 512 + h) * 2 + flags % 2;
    assert f * 512 + h == (f * 64 + h / 8) * 8 + h % 8;
  }

  lemma {:induction false} Parts1024(q: nat, r: nat)
    requires r < 1024
    ensures (q * 1024 + r) / 1024 == q && (q * 1024 + r) % 1024 == r
  {
  }

  lemma {:induction false} Parts2(q: nat, r: nat)
    requires r < 2
    ensures (q * 2 + r) / 2 == q && (q * 2 + r) % 2 == r
  {
  }

  lemma {:induction false} Parts8(q: nat, r: nat)
    requires r < 8
    ensures (q * 8 + r) % 8 == r
  {
  }

  // ---------------------------------------------------------------- virtual addresses

  /** The 9-bit index of `va` at a level. */
  function PX(level: nat, va: nat): (k: nat)
    requires level <= 2
    ensures k < PTES
  {
    if level == 0 then va / 0x1000 % 512
    else if level == 1 then va / 0x20_0000 % 512
    else va / 0x4000_0000 % 512
  }

  predicate Aligned(va: nat) { va % PGSIZE == 0 }

  /** A page-aligned address below MAXVA is determined by its three indices. */
  lemma {:induction false} IndicesDetermine(va: nat, vb: nat)
    requires Aligned(va) && Aligned(vb) && va < MAXVA && vb < MAXVA
    requires PX(0, va) == PX(0, vb) && PX(1, va) == PX(1, vb) && PX(2, va) == PX(2, vb)
    ensures va == vb
  {
    VaOfIndices(va);
    VaOfIndices(vb);
  }

  lemma {:induction false} VaOfIndices(va: nat)
    requires Aligned(va) && va < MAXVA
    ensures va == PX(2, va) * 0x4000_0000 + PX(1, va) * 0x20_0000 + PX(0, va) * 0x1000
  {
    var p := va / 0x1000;
    assert va == p * 0x1000;
    var q := va / 0x20_0000;
    assert p == q * 512 + p % 512;
    var t := va / 0x4000_0000;
    assert q == t * 512 + q % 512;
  }

  // ---------------------------------------------------------------- memory

  /** What a frame is used for: a table of 512 PTE words, or data. */
  datatype Page = Table(words: seq<nat>) | Data(content: int)

  /** `free` is the free list of kalloc. */
  datatype Mem = Mem(pages: map<nat, Page>, free: seq<nat>)

  function ZeroTable(): (w: seq<nat>)
    ensures |w| == PTES && forall k :: 0 <= k < PTES ==> w[k] == 0
  {
    seq(PTES, _ => 0)
  }

  function Words(m: Mem, f: nat): (w: seq<nat>)
    ensures |w| == PTES
  {
    if f in m.pages && m.pages[f].Table? && |m.pages[f].words| == PTES then m.pages[f].words else ZeroTable()
  }

  /** The tables of a tree: the root, its children, and their children. */
  datatype Node = Root | Mid(i: nat) | Low(i: nat, j: nat)

  function Child(n: Node, k: nat): Node
    requires !n.Low?
  {
    match n
    case Root => Mid(k)
    case Mid(i) => Low(i, k)
  }

  /** The frame a table word points to. */
  function Below(w: seq<nat>, k: nat): Option<nat> {
    if k < |w| && IsValid(w[k]) then Some(Ppn(w[k])) else None
  }

  /** The frame of a table of the tree with the given root, if it is there. */
  function NodeAt(m: Mem, root: nat, n: Node): Option<nat> {
    match n
    case Root => Some(root)
    case Mid(i) => Below(Words(m, root), i)
    case Low(i, j) =>
      match Below(Words(m, root), i)
      case None => None
      case Some(t) => Below(Words(m, t), j)
  }

  /** The flat map: the PTE word for a virtual address, 0 if its table is not there. */
  function Flat(m: Mem, root: nat, va: nat): nat {
    match NodeAt(m, root, Low(PX(2, va), PX(1, va)))
    case None => 0
    case Some(t) => Words(m, t)[PX(0, va)]
  }

  // ---------------------------------------------------------------- invariant

  /** The tables are whole, not free, and no frame is two tables. */
  ghost predicate TreeInv(m: Mem, root: nat) {
    && (forall n :: NodeAt(m, root, n).Some? ==>
          var f := NodeAt(m, root, n).value;
          f in m.pages && m.pages[f].Table? && |m.pages[f].words| == PTES && f !in m.free)
    && (forall n, n' :: NodeAt(m, root, n).Some? && NodeAt(m, root, n) == NodeAt(m, root, n') ==> n == n')
  }

  /** A user mapping: a valid PTE for a page below the trapframe. */
  ghost predicate Mapped(m: Mem, root: nat, va: nat) {
    Aligned(va) && va < TRAPFRAME && IsValid(Flat(m, root, va))
  }

  ghost predicate IsTable(m: Mem, root: nat, f: nat) {
    exists n :: NodeAt(m, root, n) == Some(f)
  }

  /** User frames are private: not free, not tables, and mapped at one address only. */
  ghost predicate LeafInv(m: Mem, root: nat) {
    && (forall va :: Mapped(m, root, va) ==>
          Ppn(Flat(m, root, va)) !in m.free && !IsTable(m, root, Ppn(Flat(m, root, va))))
    && (forall va, vb ::
          Mapped(m, root, va) && Mapped(m, root, vb) && Ppn(Flat(m, root, va)) == Ppn(Flat(m, root, vb)) ==> va == vb)
  }

  ghost predicate Inv(m: Mem, root: nat) {
    Distinct(m.free) && TreeInv(m, root) && LeafInv(m, root)
  }

  /** The frames a page table holds: its tables and its user pages. */
  ghost predicate Holds(m: Mem, root: nat, f: nat) {
    IsTable(m, root, f) || exists va :: Mapped(m, root, va) && Ppn(Flat(m, root, va)) == f
  }

  // ---------------------------------------------------------------- walking

  /** kalloc and memset: the first free frame becomes an empty table. */
  function TakeTable(m: Mem): Mem
    requires m.free != []
  {
    Mem(m.pages[m.free[0] := Table(ZeroTable())], m.free[1..])
  }

  function SetWord(m: Mem, f: nat, k: nat, w: nat): Mem
    requires k < PTES
  {
    m.(pages := m.pages[f := Table(Words(m, f)[k := w])])
  }

  /** One level of walk: the table below entry `k` of table `f`, made if `alloc` says so. */
  function Descend(m: Mem, f: nat, k: nat, alloc: bool): (Mem, Option<nat>)
    requires k < PTES
  {
    var w := Words(m, f)[k];
    if IsValid(w) then (m, Some(Ppn(w)))
    else if !alloc || m.free == [] then (m, None)
    else (SetWord(TakeTable(m), f, k, MakePte(m.free[0], PTE_V)), Some(m.free[0]))
  }

  /** walk: the lowest-level table for `va`. */
  function Walk(m: Mem, root: nat, va: nat, alloc: bool): (Mem, Option<nat>) {
    var (m1, t) := Descend(m, root, PX(2, va), alloc);
    if t.None? then (m1, None) else Descend(m1, t.value, PX(1, va), alloc)
  }

  lemma {:induction false} EmptyTable()
    ensures forall k :: Below(ZeroTable(), k) == None
  {
  }

  /** Giving table `parent` a new, empty child adds that one table to the tree. */
  lemma {:induction false} GrowNodes(m: Mem, root: nat, parent: Node, k: nat, n: Node)
    requires TreeInv(m, root) && !parent.Low? && k < PTES && m.free != [] && Distinct(m.free)
    requires NodeAt(m, root, parent).Some? && NodeAt(m, root, Child(parent, k)).None?
    ensures var m' := SetWord(TakeTable(m), NodeAt(m, root, parent).value, k, MakePte(m.free[0], PTE_V));
      NodeAt(m', root, n) == if n == Child(parent, k) then Some(m.free[0]) else NodeAt(m, root, n)
  {
    var p, f := NodeAt(m, root, parent).value, m.free[0];
    PteFields(f, PTE_V);
    EmptyTable();
    hide MakePte, Ppn, IsValid;
    assert NodeAt(m, root, Root) == Some(root);
    assert f in m.free;
    var m' := SetWord(TakeTable(m), p, k, MakePte(f, PTE_V));
    assert p != f && Words(m', p) == Words(m, p)[k := MakePte(f, PTE_V)];
    forall x | x != p && x != f ensures Words(m', x) == Words(m, x) {
    }
    assert Words(m', f) == ZeroTable();
    if n.Low? {
      assert NodeAt(m, root, Mid(n.i)) == Below(Words(m, root), n.i);
      assert NodeAt(m, root, Mid(n.i)).Some? ==> NodeAt(m, root, Mid(n.i)).value != f;
    }
  }

  /** The free list of `m'` is part of that of `m`. */
  ghost predicate FreeShrinks(m: Mem, m': Mem) {
    forall f :: f in m'.free ==> f in m.free
  }

  /** Frames that are neither tables of the tree nor free keep their contents. */
  ghost predicate SameElsewhere(m: Mem, m': Mem, root: nat) {
    forall f :: !IsTable(m, root, f) && f !in m.free ==>
      (f in m'.pages <==> f in m.pages) && (f in m.pages ==> m'.pages[f] == m.pages[f])
  }

  /** Every frame that was free or held is free or held, and no others are. */
  ghost predicate Conserved(m: Mem, m': Mem, root: nat) {
    forall f :: (f in m.free || Holds(m, root, f)) <==> (f in m'.free || Holds(m', root, f))
  }

  /** What walking with allocation may do: add tables, and nothing else anyone can see. */
  ghost predicate Grown(m: Mem, m': Mem, root: nat) {
    && Inv(m, root) && Inv(m', root)
    && (forall va :: Flat(m', root, va) == Flat(m, root, va))
    && (forall n :: NodeAt(m, root, n).Some? ==> NodeAt(m', root, n) == NodeAt(m, root, n))
    && FreeShrinks(m, m') && SameElsewhere(m, m', root) && Conserved(m, m', root)
  }

  lemma {:induction false} GrownRefl(m: Mem, root: nat)
    requires Inv(m, root)
    ensures Grown(m, m, root)
  {
  }

  /** The state after one table has been added. */
  ghost predicate OneMore(m: Mem, m': Mem, root: nat, c: Node, f: nat) {
    && m.free != [] && f == m.free[0] && m'.free == m.free[1..]
    && NodeAt(m, root, c).None?
    && (forall n :: NodeAt(m', root, n) == if n == c then Some(f) else NodeAt(m, root, n))
    && f in m'.pages && m'.pages[f] == Table(ZeroTable())
  }

  lemma {:induction false} OneMoreTree(m: Mem, m': Mem, root: nat, parent: Node, k: nat)
    requires Inv(m, root) && !parent.Low? && k < PTES && m.free != []
    requires NodeAt(m, root, parent).Some? && NodeAt(m, root, Child(parent, k)).None?
    requires m' == SetWord(TakeTable(m), NodeAt(m, root, parent).value, k, MakePte(m.free[0], PTE_V))
    ensures OneMore(m, m', root, Child(parent, k), m.free[0]) && TreeInv(m', root) && SameElsewhere(m, m', root)
    ensures forall n: Node :: n.Low? && NodeAt(m, root, n).Some? ==>
      Words(m', NodeAt(m, root, n).value) == Words(m, NodeAt(m, root, n).value)
  {
    hide MakePte, Ppn, IsValid;
    var p, f := NodeAt(m, root, parent).value, m.free[0];
    assert f in m.free;
    forall n ensures NodeAt(m', root, n) == if n == Child(parent, k) then Some(f) else NodeAt(m, root, n) {
      GrowNodes(m, root, parent, k, n);
    }
    assert IsTable(m, root, p);
  }

  lemma {:induction false} OneMoreFlat(m: Mem, m': Mem, root: nat, c: Node, f: nat, va: nat)
    requires OneMore(m, m', root, c, f)
    requires forall n: Node :: n.Low? && NodeAt(m, root, n).Some? ==>
      Words(m', NodeAt(m, root, n).value) == Words(m, NodeAt(m, root, n).value)
    ensures Flat(m', root, va) == Flat(m, root, va)
  {
    hide NodeAt;
    var n := Low(PX(2, va), PX(1, va));
    assert NodeAt(m', root, n) == if n == c then Some(f) else NodeAt(m, root, n);
  }

  lemma {:induction false} OneMoreGrown(m: Mem, m': Mem, root: nat, c: Node, f: nat)
    requires Inv(m, root) && OneMore(m, m', root, c, f) && TreeInv(m', root) && SameElsewhere(m, m', root)
    requires forall va :: Flat(m', root, va) == Flat(m, root, va)
    ensures Grown(m, m', root)
  {
    hide NodeAt, Flat, Ppn, IsValid, Aligned;
    assert f in m.free;
    assert forall va :: Mapped(m', root, va) <==> Mapped(m, root, va);
    forall x ensures IsTable(m', root, x) <==> IsTable(m, root, x) || x == f {
      if x == f {
        assert NodeAt(m', root, c) == Some(x);
      } else if IsTable(m, root, x) {
        var n :| NodeAt(m, root, n) == Some(x);
        assert NodeAt(m', root, n) == Some(x);
      }
    }
    forall x ensures Holds(m', root, x) <==> Holds(m, root, x) || x == f {
    }
    forall x ensures x in m.free <==> x == f || x in m'.free {
    }
  }

  /** One level of walk. */
  lemma {:induction false} DescendKeeps(m: Mem, root: nat, parent: Node, k: nat, alloc: bool)
    requires Inv(m, root) && !parent.Low? && k < PTES && NodeAt(m, root, parent).Some?
    ensures var (m', t) := Descend(m, NodeAt(m, root, parent).value, k, alloc);
      && Grown(m, m', root) && NodeAt(m', root, Child(parent, k)) == t
      && (!alloc ==> m' == m) && (t.None? ==> m' == m && (alloc ==> m.free == []))
  {
    var p := NodeAt(m, root, parent).value;
    GrownRefl(m, root);
    ChildWord(m, root, parent, k);
    if NodeAt(m, root, Child(parent, k)).None? && alloc && m.free != [] {
      var m' := SetWord(TakeTable(m), p, k, MakePte(m.free[0], PTE_V));
      OneMoreTree(m, m', root, parent, k);
      forall va ensures Flat(m', root, va) == Flat(m, root, va) {
        OneMoreFlat(m, m', root, Child(parent, k), m.free[0], va);
      }
      OneMoreGrown(m, m', root, Child(parent, k), m.free[0]);
    }
    hide NodeAt, Inv, Flat, Ppn, MakePte, TakeTable, SetWord;
  }

  lemma {:induction false} ChildWord(m: Mem, root: nat, parent: Node, k: nat)
    requires !parent.Low? && k < PTES && NodeAt(m, root, parent).Some?
    ensures NodeAt(m, root, Child(parent, k)) == Below(Words(m, NodeAt(m, root, parent).value), k)
  {
  }

  lemma {:induction false} GrownTrans(a: Mem, b: Mem, c: Mem, root: nat)
    requires Grown(a, b, root) && Grown(b, c, root)
    ensures Grown(a, c, root)
  {
    forall f | !IsTable(a, root, f) && f !in a.free ensures !IsTable(b, root, f) && f !in b.free {
      NewTablesWereFree(a, b, root, f);
    }
    hide NodeAt, Flat, Inv, Holds, IsTable;
  }

  /** A frame that is a table now was a table or free before. */
  lemma {:induction false} NewTablesWereFree(m: Mem, m': Mem, root: nat, f: nat)
    requires Grown(m, m', root)
    ensures IsTable(m', root, f) ==> IsTable(m, root, f) || f in m.free
  {
    if IsTable(m', root, f) {
      assert Holds(m', root, f);
      assert forall va :: Mapped(m, root, va) ==> Mapped(m', root, va) && Ppn(Flat(m, root, va)) != f;
    }
  }

  /** walk: the flat map is unchanged, and the table for `va` is there unless memory ran out. */
  lemma {:induction false} WalkKeeps(m: Mem, root: nat, va: nat, alloc: bool)
    requires Inv(m, root)
    ensures var (m', t) := Walk(m, root, va, alloc);
      && Grown(m, m', root) && NodeAt(m', root, Low(PX(2, va), PX(1, va))) == t
      && (!alloc ==> m' == m) && (t.None? && alloc ==> m'.free == [])
  {
    DescendKeeps(m, root, Root, PX(2, va), alloc);
    var (m1, t) := Descend(m, root, PX(2, va), alloc);
    if t.Some? {
      DescendKeeps(m1, root, Mid(PX(2, va)), PX(1, va), alloc);
      var (m2, u) := Descend(m1, t.value, PX(1, va), alloc);
      GrownTrans(m, m1, m2, root);
    } else {
      NoMidNoLow(m1, root, PX(2, va), PX(1, va));
    }
    hide Grown, Descend;
  }

  lemma {:induction false} NoMidNoLow(m: Mem, root: nat, i: nat, j: nat)
    requires NodeAt(m, root, Mid(i)).None?
    ensures NodeAt(m, root, Low(i, j)).None?
  {
  }

  // ---------------------------------------------------------------- leaf entries

  ghost predicate SamePage(va: nat, vb: nat) {
    PX(0, va) == PX(0, vb) && PX(1, va) == PX(1, vb) && PX(2, va) == PX(2, vb)
  }

  /** Write the PTE word for `va` in its table `t`. */
  function SetLeaf(m: Mem, t: nat, va: nat, w: nat): Mem {
    SetWord(m, t, PX(0, va), w)
  }

  lemma {:induction false} SetLeafNodes(m: Mem, root: nat, t: nat, va: nat, w: nat, n: Node)
    requires TreeInv(m, root) && NodeAt(m, root, Low(PX(2, va), PX(1, va))) == Some(t)
    ensures NodeAt(SetLeaf(m, t, va, w), root, n) == NodeAt(m, root, n)
  {
    var low := Low(PX(2, va), PX(1, va));
    var m' := SetLeaf(m, t, va, w);
    assert NodeAt(m, root, Root) == Some(root) && root != t;
    assert Words(m', root) == Words(m, root);
    hide Ppn, IsValid;
    if n.Low? && NodeAt(m, root, Mid(n.i)).Some? {
      assert NodeAt(m, root, Mid(n.i)).value != t;
      assert Words(m', NodeAt(m, root, Mid(n.i)).value) == Words(m, NodeAt(m, root, Mid(n.i)).value);
    }
  }

  /** Writing one PTE changes the translation of its page and of no other. */
  lemma {:induction false} SetLeafFlat(m: Mem, root: nat, t: nat, va: nat, w: nat, vb: nat)
    requires TreeInv(m, root) && NodeAt(m, root, Low(PX(2, va), PX(1, va))) == Some(t)
    ensures Flat(SetLeaf(m, t, va, w), root, vb) == if SamePage(va, vb) then w else Flat(m, root, vb)
  {
    var lowA, lowB := Low(PX(2, va), PX(1, va)), Low(PX(2, vb), PX(1, vb));
    SetLeafNodes(m, root, t, va, w, lowB);
    hide NodeAt;
    assert NodeAt(m, root, lowB) == Some(t) ==> lowB == lowA;
  }

  /** Two memories with the same tables whose flat maps differ at one page. */
  ghost predicate LeafChanged(m: Mem, m': Mem, root: nat, va: nat, w: nat) {
    && (forall n :: NodeAt(m', root, n) == NodeAt(m, root, n))
    && (forall vb :: Flat(m', root, vb) == if SamePage(va, vb) then w else Flat(m, root, vb))
  }

  lemma {:induction false} SetLeafChanged(m: Mem, root: nat, t: nat, va: nat, w: nat)
    requires TreeInv(m, root) && NodeAt(m, root, Low(PX(2, va), PX(1, va))) == Some(t)
    ensures var m' := SetLeaf(m, t, va, w);
      LeafChanged(m, m', root, va, w) && TreeInv(m', root) && SameElsewhere(m, m', root) && m'.free == m.free
  {
    var m' := SetLeaf(m, t, va, w);
    forall n ensures NodeAt(m', root, n) == NodeAt(m, root, n) {
      SetLeafNodes(m, root, t, va, w, n);
    }
    forall vb ensures Flat(m', root, vb) == if SamePage(va, vb) then w else Flat(m, root, vb) {
      SetLeafFlat(m, root, t, va, w, vb);
    }
    assert IsTable(m, root, t);
    hide NodeAt, Flat;
  }

  lemma {:induction false} MappedChanged(m: Mem, m': Mem, root: nat, va: nat, w: nat, vb: nat)
    requires LeafChanged(m, m', root, va, w) && Aligned(va) && va < MAXVA
    ensures Mapped(m', root, vb) <==>
            if vb == va then va < TRAPFRAME && IsValid(w) else Mapped(m, root, vb)
    ensures Aligned(vb) && vb < MAXVA && vb != va ==> Flat(m', root, vb) == Flat(m, root, vb)
    ensures Flat(m', root, va) == w
  {
    if Aligned(vb) && vb < TRAPFRAME && SamePage(va, vb) {
      IndicesDetermine(va, vb);
    }
    if Aligned(vb) && vb < MAXVA && SamePage(va, vb) {
      IndicesDetermine(va, vb);
    }
    hide Flat, NodeAt, PX;
  }

  /** The frames held after one PTE has changed. */
  lemma {:induction false} HoldsChanged(m: Mem, m': Mem, root: nat, va: nat, w: nat, f: nat)
    requires LeafChanged(m, m', root, va, w) && Aligned(va) && va < TRAPFRAME && LeafInv(m, root)
    ensures Holds(m', root, f) <==>
            (IsValid(w) && f == Ppn(w)) || (Holds(m, root, f) && !(Mapped(m, root, va) && Ppn(Flat(m, root, va)) == f))
  {
    MappedChanged(m, m', root, va, w, va);
    forall vb ensures Mapped(m', root, vb) <==> if vb == va then IsValid(w) else Mapped(m, root, vb) {
      MappedChanged(m, m', root, va, w, vb);
    }
    forall vb | Mapped(m, root, vb) && vb != va ensures Flat(m', root, vb) == Flat(m, root, vb) {
      MappedChanged(m, m', root, va, w, vb);
    }
    hide Flat, NodeAt, PX, Ppn, IsValid, Aligned;
    assert IsTable(m', root, f) <==> IsTable(m, root, f);
    if Holds(m, root, f) && !IsTable(m, root, f) {
      var vb :| Mapped(m, root, vb) && Ppn(Flat(m, root, vb)) == f;
      assert vb != va ==> Mapped(m', root, vb);
    }
  }

  // ---------------------------------------------------------------- mapping one page

  /** In nobody's hands as far as this page table and the free list are concerned. */
  ghost predicate Loose(m: Mem, root: nat, f: nat) {
    f !in m.free && !Holds(m, root, f)
  }

  /** Frames this page table does not hold and that are not free keep their contents. */
  ghost predicate SameOthers(m: Mem, m': Mem, root: nat) {
    forall f: nat :: Loose(m, root, f) ==>
      (f in m'.pages <==> f in m.pages) && (f in m.pages ==> m'.pages[f] == m.pages[f])
  }

  function OrV(flags: nat): nat { if flags % 2 == 1 then flags else flags + 1 }

  lemma {:induction false} OrVValid(f: nat, flags: nat)
    requires flags < 1024
    ensures OrV(flags) < 1024 && IsValid(MakePte(f, OrV(flags))) && Ppn(MakePte(f, OrV(flags))) == f
  {
    PteFields(f, OrV(flags));
  }

  /** One turn of mappages: map `va` to frame `f`, unless it is mapped or no table is to be had. */
  function MapOne(m: Mem, root: nat, va: nat, f: nat, flags: nat): (Mem, bool)
    requires flags < 1024
  {
    var (m1, t) := Walk(m, root, va, true);
    if t.None? || IsValid(Words(m1, t.value)[PX(0, va)]) then (m1, false)
    else (OrVValid(f, flags); SetLeaf(m1, t.value, va, MakePte(f, OrV(flags))), true)
  }

  /** The flat maps agree except at `va`, where the new one has `w`. */
  ghost predicate FlatUpdate(m: Mem, m': Mem, root: nat, va: nat, w: nat) {
    && Flat(m', root, va) == w
    && forall vb: nat :: Aligned(vb) && vb < MAXVA && vb != va ==> Flat(m', root, vb) == Flat(m, root, vb)
  }

  ghost predicate FlatSame(m: Mem, m': Mem, root: nat) {
    forall vb: nat :: Flat(m', root, vb) == Flat(m, root, vb)
  }

  /** The frames free or held afterwards are those before, and `f` if `more`. */
  ghost predicate Accounted(m: Mem, m': Mem, root: nat, more: bool, f: nat) {
    forall x: nat :: (x in m'.free || Holds(m', root, x)) <==> (x in m.free || Holds(m, root, x) || (more && x == f))
  }

  /** Mapping a loose frame at an unmapped user page, or anything above the user pages. */
  lemma {:induction false} MapLeafKeeps(m: Mem, root: nat, t: nat, va: nat, f: nat, w: nat)
    requires Inv(m, root) && Aligned(va) && va < MAXVA && NodeAt(m, root, Low(PX(2, va), PX(1, va))) == Some(t)
    requires !IsValid(Flat(m, root, va)) && IsValid(w) && Ppn(w) == f && (va < TRAPFRAME ==> Loose(m, root, f))
    ensures var m' := SetLeaf(m, t, va, w);
      && Inv(m', root) && FlatUpdate(m, m', root, va, w) && SameElsewhere(m, m', root) && m'.free == m.free
      && Accounted(m, m', root, va < TRAPFRAME, f)
  {
    var m' := SetLeaf(m, t, va, w);
    SetLeafChanged(m, root, t, va, w);
    forall vb: nat
      ensures Mapped(m', root, vb) <==> if vb == va then va < TRAPFRAME else Mapped(m, root, vb)
      ensures Aligned(vb) && vb < MAXVA && vb != va ==> Flat(m', root, vb) == Flat(m, root, vb)
      ensures Flat(m', root, va) == w
    {
      MappedChanged(m, m', root, va, w, vb);
    }
    MapLeafLeaves(m, m', root, va, f, w);
    MapLeafHolds(m, m', root, va, f, w);
    hide NodeAt, Flat, PX, Ppn, IsValid, Aligned, SetLeaf, LeafInv, TreeInv, LeafChanged, Mapped, Holds;
  }

  lemma {:induction false} MapLeafHolds(m: Mem, m': Mem, root: nat, va: nat, f: nat, w: nat)
    requires Inv(m, root) && LeafChanged(m, m', root, va, w) && Aligned(va) && va < MAXVA && m'.free == m.free
    requires IsValid(w) && Ppn(w) == f && !IsValid(Flat(m, root, va))
    ensures Accounted(m, m', root, va < TRAPFRAME, f)
  {
    forall x: nat ensures Holds(m', root, x) <==> Holds(m, root, x) || (va < TRAPFRAME && x == f) {
      if va < TRAPFRAME {
        HoldsChanged(m, m', root, va, w, x);
      } else {
        HoldsAbove(m, m', root, va, w, x);
      }
    }
  }

  lemma {:induction false} HoldsAbove(m: Mem, m': Mem, root: nat, va: nat, w: nat, x: nat)
    requires LeafChanged(m, m', root, va, w) && Aligned(va) && TRAPFRAME <= va < MAXVA
    ensures Holds(m', root, x) <==> Holds(m, root, x)
  {
    forall vb: nat ensures Mapped(m', root, vb) <==> Mapped(m, root, vb)
              ensures Mapped(m, root, vb) ==> Flat(m', root, vb) == Flat(m, root, vb) {
      MappedChanged(m, m', root, va, w, vb);
    }
    hide NodeAt, Flat, PX, Ppn, Aligned;
    assert IsTable(m', root, x) <==> IsTable(m, root, x);
  }

  lemma {:induction false} MapLeafLeaves(m: Mem, m': Mem, root: nat, va: nat, f: nat, w: nat)
    requires Inv(m, root) && LeafChanged(m, m', root, va, w) && Aligned(va) && va < MAXVA && m'.free == m.free
    requires IsValid(w) && Ppn(w) == f && (va < TRAPFRAME ==> Loose(m, root, f))
    requires forall vb: nat :: Mapped(m', root, vb) <==> if vb == va then va < TRAPFRAME else Mapped(m, root, vb)
    requires forall vb: nat :: Aligned(vb) && vb < MAXVA && vb != va ==> Flat(m', root, vb) == Flat(m, root, vb)
    requires Flat(m', root, va) == w
    ensures LeafInv(m', root)
  {
    hide NodeAt, Flat, PX, Ppn, IsValid;
    assert forall x: nat :: IsTable(m', root, x) <==> IsTable(m, root, x);
    forall vb: nat | Mapped(m', root, vb) && vb != va ensures Flat(m', root, vb) == Flat(m, root, vb) {
      assert Mapped(m, root, vb);
    }
  }

  lemma {:induction false} FlatWord(m: Mem, root: nat, va: nat, t: nat)
    requires NodeAt(m, root, Low(PX(2, va), PX(1, va))) == Some(t)
    ensures Flat(m, root, va) == Words(m, t)[PX(0, va)]
  {
  }

  lemma {:induction false} GrownOthers(m: Mem, m': Mem, root: nat)
    requires Grown(m, m', root)
    ensures SameOthers(m, m', root) && FlatSame(m, m', root) && Accounted(m, m', root, false, 0)
    ensures SameElsewhere(m, m', root)
    ensures forall f: nat :: Loose(m, root, f) ==> Loose(m', root, f)
  {
    hide Flat, NodeAt;
  }

  /**
   One turn of mappages. On success exactly the PTE of `va` changes and the frame
   is held; on failure the flat map is unchanged. Either way no frame is lost.
   */
  lemma {:induction false} MapOneKeeps(m: Mem, root: nat, va: nat, f: nat, flags: nat)
    requires Inv(m, root) && Aligned(va) && va < MAXVA && flags < 1024 && (va < TRAPFRAME ==> Loose(m, root, f))
    ensures var (m', ok) := MapOne(m, root, va, f, flags);
      && Inv(m', root) && SameOthers(m, m', root) && SameElsewhere(m, m', root)
      && (ok ==> OrV(flags) < 1024 && !IsValid(Flat(m, root, va)))
      && (ok ==> FlatUpdate(m, m', root, va, MakePte(f, OrV(flags))))
      && (!ok ==> FlatSame(m, m', root) && (IsValid(Flat(m, root, va)) || m'.free == []))
      && Accounted(m, m', root, ok && va < TRAPFRAME, f)
  {
    WalkKeeps(m, root, va, true);
    var (m1, t) := Walk(m, root, va, true);
    GrownOthers(m, m1, root);
    if t.Some? {
      FlatWord(m1, root, va, t.value);
      if !IsValid(Flat(m1, root, va)) {
        OrVValid(f, flags);
        var w := MakePte(f, OrV(flags));
        MapLeafKeeps(m1, root, t.value, va, f, w);
        MapOneJoin(m, m1, SetLeaf(m1, t.value, va, w), root, va, f, w);
        ElsewhereTrans(m, m1, SetLeaf(m1, t.value, va, w), root);
      }
    }
    hide Inv, Grown, Flat, NodeAt, Walk, Holds, MakePte, Ppn, IsValid, PX, Accounted, FlatUpdate, SameOthers, Words,
      SameElsewhere;
  }

  lemma {:induction false} ElsewhereTrans(a: Mem, b: Mem, c: Mem, root: nat)
    requires Grown(a, b, root) && SameElsewhere(b, c, root)
    ensures SameElsewhere(a, c, root)
  {
    forall f: nat | !IsTable(a, root, f) && f !in a.free ensures !IsTable(b, root, f) && f !in b.free {
      NewTablesWereFree(a, b, root, f);
    }
    hide NodeAt, IsTable;
  }

  lemma {:induction false} MapOneJoin(m: Mem, m1: Mem, m': Mem, root: nat, va: nat, f: nat, w: nat)
    requires FlatSame(m, m1, root) && FlatUpdate(m1, m', root, va, w)
    requires SameOthers(m, m1, root) && SameElsewhere(m1, m', root)
    requires (forall x: nat :: Loose(m, root, x) ==> Loose(m1, root, x))
    requires Accounted(m, m1, root, false, 0) && Accounted(m1, m', root, va < TRAPFRAME, f)
    ensures FlatUpdate(m, m', root, va, w) && SameOthers(m, m', root) && Accounted(m, m', root, va < TRAPFRAME, f)
  {
    hide Flat, NodeAt, Aligned;
  }

  // ---------------------------------------------------------------- frames for data

  /** kalloc of a frame for data. */
  function TakeData(m: Mem, c: int): Mem
    requires m.free != []
  {
    Mem(m.pages[m.free[0] := Data(c)], m.free[1..])
  }

  /** kfree: the frame is filled with junk and put on the free list. */
  function Kfree(m: Mem, f: nat): Mem {
    Mem(m.pages[f := Data(1)], [f] + m.free)
  }

  /** A change of frames that are not tables leaves tree and flat map alone. */
  lemma {:induction false} DataOnly(m: Mem, m': Mem, root: nat)
    requires TreeInv(m, root) && forall f: nat :: IsTable(m, root, f) ==> Words(m', f) == Words(m, f)
    ensures forall n :: NodeAt(m', root, n) == NodeAt(m, root, n)
    ensures FlatSame(m, m', root)
  {
    assert NodeAt(m, root, Root) == Some(root);
    assert IsTable(m, root, root);
    hide IsValid, Ppn, PX;
    forall n ensures NodeAt(m', root, n) == NodeAt(m, root, n) {
      if n.Low? && NodeAt(m, root, Mid(n.i)).Some? {
        assert IsTable(m, root, NodeAt(m, root, Mid(n.i)).value);
      }
    }
    forall vb: nat ensures Flat(m', root, vb) == Flat(m, root, vb) {
      var n := Low(PX(2, vb), PX(1, vb));
      assert NodeAt(m', root, n) == NodeAt(m, root, n);
      if NodeAt(m, root, n).Some? {
        assert IsTable(m, root, NodeAt(m, root, n).value);
      }
    }
  }

  lemma {:induction false} SameTreeHolds(m: Mem, m': Mem, root: nat, f: nat)
    requires FlatSame(m, m', root) && forall n :: NodeAt(m', root, n) == NodeAt(m, root, n)
    ensures IsTable(m', root, f) <==> IsTable(m, root, f)
    ensures Holds(m', root, f) <==> Holds(m, root, f)
  {
    hide Flat, NodeAt, Ppn;
    assert IsTable(m', root, f) <==> IsTable(m, root, f);
    assert forall va: nat :: Mapped(m', root, va) <==> Mapped(m, root, va);
  }

  /** kalloc hands out a frame that is in nobody's hands. */
  lemma {:induction false} TakeDataKeeps(m: Mem, root: nat, c: int)
    requires Inv(m, root) && m.free != []
    ensures var m' := TakeData(m, c);
      && Inv(m', root) && FlatSame(m, m', root) && Loose(m', root, m.free[0]) && SameOthers(m, m', root)
      && (forall x: nat :: (x in m'.free || Holds(m', root, x)) <==>
          (x in m.free || Holds(m, root, x)) && x != m.free[0])
  {
    var m', f := TakeData(m, c), m.free[0];
    assert f in m.free;
    FreeNotHeld(m, root, f);
    hide NodeAt, Flat, Ppn, IsValid;
    DataOnly(m, m', root);
    forall x: nat ensures Holds(m', root, x) <==> Holds(m, root, x)
                  ensures IsTable(m', root, x) <==> IsTable(m, root, x) {
      SameTreeHolds(m, m', root, x);
    }
    assert forall va: nat :: Mapped(m', root, va) <==> Mapped(m, root, va);
    assert forall x: nat :: x in m.free <==> x == f || x in m'.free;
  }

  lemma {:induction false} FreeNotHeld(m: Mem, root: nat, f: nat)
    requires Inv(m, root) && f in m.free
    ensures !Holds(m, root, f) && !IsTable(m, root, f)
  {
    hide NodeAt, Flat;
  }

  /** kfree of a loose frame. */
  lemma {:induction false} KfreeKeeps(m: Mem, root: nat, f: nat)
    requires Inv(m, root) && Loose(m, root, f)
    ensures var m' := Kfree(m, f);
      && Inv(m', root) && FlatSame(m, m', root)
      && (forall x: nat :: (x in m'.free || Holds(m', root, x)) <==> (x in m.free || Holds(m, root, x)) || x == f)
      && (forall x: nat :: Holds(m', root, x) <==> Holds(m, root, x))
  {
    var m' := Kfree(m, f);
    hide NodeAt, Flat, Ppn, IsValid;
    DataOnly(m, m', root);
    forall x: nat ensures Holds(m', root, x) <==> Holds(m, root, x)
                  ensures IsTable(m', root, x) <==> IsTable(m, root, x) {
      SameTreeHolds(m, m', root, x);
    }
    assert forall va: nat :: Mapped(m', root, va) <==> Mapped(m, root, va);
    assert forall x: nat :: x in m'.free <==> x == f || x in m.free;
  }

  // ---------------------------------------------------------------- unmapping one page

  /** One turn of uvmunmap. */
  function UnmapOne(m: Mem, root: nat, va: nat, doFree: bool): Mem {
    var t := Walk(m, root, va, false).1;
    if t.None? || !IsValid(Words(m, t.value)[PX(0, va)]) then m
    else
      var pa := Ppn(Words(m, t.value)[PX(0, va)]);
      SetLeaf(if doFree then Kfree(m, pa) else m, t.value, va, 0)
  }

  /** No frame lost or gained, nobody else's frames touched. */
  ghost predicate Kept(m: Mem, m': Mem, root: nat) {
    Inv(m, root) && Inv(m', root) && SameOthers(m, m', root) && Accounted(m, m', root, false, 0)
  }

  lemma {:induction false} KeptRefl(m: Mem, root: nat)
    requires Inv(m, root)
    ensures Kept(m, m, root)
  {
  }

  lemma {:induction false} KeptTrans(a: Mem, b: Mem, c: Mem, root: nat)
    requires Kept(a, b, root) && Kept(b, c, root)
    ensures Kept(a, c, root)
  {
    hide Inv, Holds;
  }

  /** Clearing the PTE of a mapped user page leaves its frame loose. */
  lemma {:induction false} ClearLeafKeeps(m: Mem, root: nat, t: nat, va: nat)
    requires Inv(m, root) && Aligned(va) && va < MAXVA && NodeAt(m, root, Low(PX(2, va), PX(1, va))) == Some(t)
    requires IsValid(Flat(m, root, va))
    ensures var m' := SetLeaf(m, t, va, 0); var f := Ppn(Flat(m, root, va));
      && Inv(m', root) && FlatUpdate(m, m', root, va, 0) && SameElsewhere(m, m', root) && m'.free == m.free
      && (va < TRAPFRAME ==> Loose(m', root, f) && forall x: nat :: Holds(m', root, x) <==> Holds(m, root, x) && x != f)
      && (va >= TRAPFRAME ==> forall x: nat :: Holds(m', root, x) <==> Holds(m, root, x))
  {
    var m' := SetLeaf(m, t, va, 0);
    SetLeafChanged(m, root, t, va, 0);
    assert !IsValid(0);
    forall vb: nat
      ensures Mapped(m', root, vb) <==> vb != va && Mapped(m, root, vb)
      ensures Aligned(vb) && vb < MAXVA && vb != va ==> Flat(m', root, vb) == Flat(m, root, vb)
      ensures Flat(m', root, va) == 0
    {
      MappedChanged(m, m', root, va, 0, vb);
    }
    forall x: nat
      ensures va < TRAPFRAME ==> (Holds(m', root, x) <==> Holds(m, root, x) && x != Ppn(Flat(m, root, va)))
      ensures va >= TRAPFRAME ==> (Holds(m', root, x) <==> Holds(m, root, x))
    {
      if va < TRAPFRAME {
        HoldsChanged(m, m', root, va, 0, x);
      } else {
        HoldsAbove(m, m', root, va, 0, x);
      }
    }
    ClearLeafLeaves(m, m', root, va);
    hide NodeAt, Flat, PX, Ppn, SetLeaf, TreeInv, LeafChanged, Holds;
  }

  lemma {:induction false} ClearLeafLeaves(m: Mem, m': Mem, root: nat, va: nat)
    requires LeafInv(m, root) && LeafChanged(m, m', root, va, 0) && m'.free == m.free
    requires forall vb: nat :: Mapped(m', root, vb) <==> vb != va && Mapped(m, root, vb)
    requires forall vb: nat :: Aligned(vb) && vb < MAXVA && vb != va ==> Flat(m', root, vb) == Flat(m, root, vb)
    ensures LeafInv(m', root)
  {
    hide NodeAt, Flat, PX, Ppn, IsValid;
    assert forall x: nat :: IsTable(m', root, x) <==> IsTable(m, root, x);
    forall vb: nat | Mapped(m', root, vb) ensures Flat(m', root, vb) == Flat(m, root, vb) {
      assert Mapped(m, root, vb);
    }
  }

  /** Freeing the page first and clearing its PTE after is the same as the other way round. */
  lemma {:induction false} FreeClearCommute(m: Mem, t: nat, va: nat, f: nat)
    requires t != f
    ensures SetLeaf(Kfree(m, f), t, va, 0) == Kfree(SetLeaf(m, t, va, 0), f)
  {
    assert Words(Kfree(m, f), t) == Words(m, t);
  }

  /** One turn of uvmunmap that frees: the page is gone, its frame is free, nothing else changed. */
  lemma {:induction false} UnmapOneFrees(m: Mem, root: nat, va: nat)
    requires Inv(m, root) && Aligned(va) && va < TRAPFRAME
    ensures var m' := UnmapOne(m, root, va, true); var w := Flat(m, root, va);
      Kept(m, m', root) && FlatUpdate(m, m', root, va, if IsValid(w) then 0 else w)
  {
    WalkKeeps(m, root, va, false);
    KeptRefl(m, root);
    var t := Walk(m, root, va, false).1;
    if t.Some? {
      FlatWord(m, root, va, t.value);
      if IsValid(Flat(m, root, va)) {
        var f := Ppn(Flat(m, root, va));
        assert Mapped(m, root, va) && IsTable(m, root, t.value);
        FreeClearCommute(m, t.value, va, f);
        ClearLeafKeeps(m, root, t.value, va);
        var c := SetLeaf(m, t.value, va, 0);
        KfreeKeeps(c, root, f);
        ClearFreeKept(m, c, root, va, f);
      }
    } else {
      NoLowFlat(m, root, va);
    }
    hide Inv, Grown, Flat, NodeAt, Walk, Holds, Ppn, IsValid, PX, Words, SetLeaf, Kfree;
  }

  lemma {:induction false} NoLowFlat(m: Mem, root: nat, va: nat)
    requires NodeAt(m, root, Low(PX(2, va), PX(1, va))).None?
    ensures Flat(m, root, va) == 0 && !IsValid(0)
  {
  }

  lemma {:induction false} HoldsMapped(m: Mem, root: nat, va: nat)
    requires Inv(m, root) && Mapped(m, root, va)
    ensures Holds(m, root, Ppn(Flat(m, root, va)))
  {
  }

  lemma {:induction false} ClearFreeKept(m: Mem, c: Mem, root: nat, va: nat, f: nat)
    requires Inv(m, root) && Inv(c, root) && Mapped(m, root, va) && f == Ppn(Flat(m, root, va)) && c.free == m.free
    requires SameElsewhere(m, c, root) && Loose(c, root, f) && Inv(Kfree(c, f), root)
    requires forall x: nat :: Holds(c, root, x) <==> Holds(m, root, x) && x != f
    requires forall x: nat :: Holds(Kfree(c, f), root, x) <==> Holds(c, root, x)
    ensures Kept(m, Kfree(c, f), root)
  {
    hide Flat, NodeAt, Distinct, Mapped, Ppn;
    HoldsMapped(m, root, va);
    var m' := Kfree(c, f);
    assert forall x: nat :: Loose(m, root, x) ==> !IsTable(m, root, x) && x != f;
    assert forall x: nat :: x in m'.free <==> x == f || x in m.free;
  }

  /** One turn of uvmunmap that does not free: the frame is handed back to the caller. */
  lemma {:induction false} UnmapOneReturns(m: Mem, root: nat, va: nat)
    requires Inv(m, root) && Aligned(va) && va < MAXVA
    ensures var m' := UnmapOne(m, root, va, false); var w := Flat(m, root, va);
      && Inv(m', root) && FlatUpdate(m, m', root, va, if IsValid(w) then 0 else w) && m'.free == m.free
      && forall x: nat :: Holds(m', root, x) <==>
           Holds(m, root, x) && !(va < TRAPFRAME && IsValid(w) && x == Ppn(w))
  {
    WalkKeeps(m, root, va, false);
    var t := Walk(m, root, va, false).1;
    if t.Some? {
      FlatWord(m, root, va, t.value);
      if IsValid(Flat(m, root, va)) {
        ClearLeafKeeps(m, root, t.value, va);
      }
    } else {
      NoLowFlat(m, root, va);
    }
    hide Inv, Grown, Flat, NodeAt, Walk, Holds, Ppn, IsValid, PX, Words, SetLeaf;
  }

  // ---------------------------------------------------------------- filling one page

  /** kalloc, fill, mappages; on failure the frame goes back. */
  function FillOne(m: Mem, root: nat, va: nat, c: int, flags: nat): (Mem, bool)
    requires flags < 1024
  {
    if m.free == [] then (m, false)
    else
      var (m1, ok) := MapOne(TakeData(m, c), root, va, m.free[0], flags);
      if ok then (m1, true) else (Kfree(m1, m.free[0]), false)
  }

  /** The user page at `va` has contents `c`. */
  ghost predicate PageIs(m: Mem, root: nat, va: nat, c: Page) {
    Mapped(m, root, va) && Ppn(Flat(m, root, va)) in m.pages && m.pages[Ppn(Flat(m, root, va))] == c
  }

  /** User pages other than `va` keep their contents. */
  ghost predicate PagesKept(m: Mem, m': Mem, root: nat, va: nat) {
    forall vb: nat, c :: vb != va && PageIs(m, root, vb, c) ==> PageIs(m', root, vb, c)
  }

  /** The frames of user pages are neither tables nor free, so changes elsewhere leave them alone. */
  lemma {:induction false} PagesKeptBy(m: Mem, m': Mem, root: nat, va: nat)
    requires Inv(m, root) && SameElsewhere(m, m', root)
    requires forall vb: nat :: Aligned(vb) && vb < MAXVA && vb != va ==> Flat(m', root, vb) == Flat(m, root, vb)
    ensures PagesKept(m, m', root, va)
  {
    hide Flat, NodeAt, Ppn, IsValid;
    forall vb: nat, c | vb != va && PageIs(m, root, vb, c) ensures PageIs(m', root, vb, c) {
      var f := Ppn(Flat(m, root, vb));
      assert f !in m.free && !IsTable(m, root, f);
    }
  }

  /** Filling a page moves one frame from the free list to the page table, or nothing at all. */
  lemma {:induction false} FillOneKeeps(m: Mem, root: nat, va: nat, c: int, flags: nat)
    requires Inv(m, root) && Aligned(va) && va < TRAPFRAME && flags < 1024
    ensures var (m', ok) := FillOne(m, root, va, c, flags);
      && Kept(m, m', root) && PagesKept(m, m', root, if ok then va else MAXVA)
      && (ok ==> !IsValid(Flat(m, root, va)) && PageIs(m', root, va, Data(c)))
      && (ok ==> Flags(Flat(m', root, va)) == OrV(flags))
      && (ok ==> forall vb: nat :: Aligned(vb) && vb < MAXVA && vb != va ==> Flat(m', root, vb) == Flat(m, root, vb))
      && (!ok ==> FlatSame(m, m', root))
  {
    KeptRefl(m, root);
    if m.free != [] {
      var f := m.free[0];
      var m1 := TakeData(m, c);
      TakeDataKeeps(m, root, c);
      MapOneKeeps(m1, root, va, f, flags);
      var (m2, ok) := MapOne(m1, root, va, f, flags);
      FillOneJoin(m, m1, m2, root, f, ok);
      TakeDataElsewhere(m, m1, root);
      if ok {
        OrVValid(f, flags);
        PteFields(f, OrV(flags));
        FillOnePage(m, m1, m2, root, va, f, c);
      } else {
        KfreeKeeps(m2, root, f);
        FillOneFailed(m, m2, root, f);
      }
    }
    FillOnePagesKept(m, root, va, c, flags);
    hide MapOne, TakeData, Kfree, Flat, NodeAt, Holds, Inv, MakePte, Ppn, OrV, IsValid, PageIs, PagesKept;
  }

  /** With two frames left for tables, walk reaches the lowest level. */
  lemma {:induction false} WalkReaches(m: Mem, root: nat, va: nat)
    requires |m.free| >= 2
    ensures Walk(m, root, va, true).1.Some?
  {
    hide PX, MakePte, Words, IsValid, Ppn;
  }

  /** A fault on an unmapped page maps the first free frame there if two more are free. */
  lemma {:induction false} FillOneMaps(m: Mem, root: nat, va: nat, c: int, flags: nat)
    requires Inv(m, root) && Aligned(va) && va < TRAPFRAME && flags < 1024 && |m.free| >= 3
    requires !IsValid(Flat(m, root, va))
    ensures var (m', ok) := FillOne(m, root, va, c, flags); ok && Ppn(Flat(m', root, va)) == m.free[0]
  {
    var f, m1 := m.free[0], TakeData(m, c);
    TakeDataKeeps(m, root, c);
    hide TakeData, Inv, Flat, Walk, Words, IsValid, Ppn, SetLeaf, MakePte, OrV, NodeAt, Holds, PX;
    WalkReaches(m1, root, va);
    WalkKeeps(m1, root, va, true);
    var (m2, t) := Walk(m1, root, va, true);
    GrownOthers(m1, m2, root);
    FlatWord(m2, root, va, t.value);
    MapOneKeeps(m1, root, va, f, flags);
    OrVValid(f, flags);
  }

  lemma {:induction false} WalkFree(m: Mem, root: nat, va: nat)
    ensures |Walk(m, root, va, true).0.free| + 2 >= |m.free|
  {
    hide PX, MakePte, Words, IsValid, Ppn;
  }

  /** Filling a page takes at most three frames: the page and two tables. */
  lemma {:induction false} FillOneFree(m: Mem, root: nat, va: nat, c: int, flags: nat)
    requires flags < 1024
    ensures |FillOne(m, root, va, c, flags).0.free| + 3 >= |m.free|
  {
    hide Walk, PX, MakePte, Words, IsValid, OrV;
    if m.free != [] {
      WalkFree(TakeData(m, c), root, va);
    }
  }

  /** A page is not filled only if it is there already, or if the frame just given back is the only one left. */
  lemma {:induction false} FillOneFails(m: Mem, root: nat, va: nat, c: int, flags: nat)
    requires Inv(m, root) && Aligned(va) && va < TRAPFRAME && flags < 1024
    ensures var (m', ok) := FillOne(m, root, va, c, flags);
      !ok ==> IsValid(Flat(m, root, va)) || (|m'.free| <= 1 && |m.free| <= 2)
  {
    hide Inv, Flat, IsValid, Ppn, MapOne, Holds;
    if m.free != [] {
      if |m.free| >= 3 && !IsValid(Flat(m, root, va)) {
        FillOneMaps(m, root, va, c, flags);
      }
      TakeDataKeeps(m, root, c);
      MapOneKeeps(TakeData(m, c), root, va, m.free[0], flags);
    }
  }

  lemma {:induction false} TakeDataElsewhere(m: Mem, m1: Mem, root: nat)
    requires m.free != [] && exists c :: m1 == TakeData(m, c)
    ensures forall x: nat :: x !in m.free ==>
      (x in m1.pages <==> x in m.pages) && (x in m.pages ==> m1.pages[x] == m.pages[x])
  {
    assert m.free[0] in m.free;
  }

  lemma {:induction false} FillOneJoin(m: Mem, m1: Mem, m2: Mem, root: nat, f: nat, ok: bool)
    requires SameOthers(m, m1, root) && SameOthers(m1, m2, root) && f in m.free
    requires forall x: nat :: (x in m1.free || Holds(m1, root, x)) <==> (x in m.free || Holds(m, root, x)) && x != f
    requires Accounted(m1, m2, root, ok, f)
    ensures SameOthers(m, m2, root)
    ensures ok ==> Accounted(m, m2, root, false, 0)
    ensures !ok ==> Loose(m2, root, f)
    ensures !ok ==>
      forall x: nat :: (x in m2.free || Holds(m2, root, x)) <==> (x in m.free || Holds(m, root, x)) && x != f
  {
    hide Holds;
  }

  lemma {:induction false} FillOneFailed(m: Mem, m2: Mem, root: nat, f: nat)
    requires Inv(m, root) && Inv(Kfree(m2, f), root) && SameOthers(m, m2, root) && f in m.free
    requires forall x: nat :: (x in m2.free || Holds(m2, root, x)) <==> (x in m.free || Holds(m, root, x)) && x != f
    requires forall x: nat :: (x in Kfree(m2, f).free || Holds(Kfree(m2, f), root, x)) <==>
        (x in m2.free || Holds(m2, root, x)) || x == f
    ensures Kept(m, Kfree(m2, f), root)
  {
    hide Holds, Inv;
  }

  /** The mapped frame is the one that was filled: mapping does not touch a loose frame. */
  lemma {:induction false} FillOnePage(m: Mem, m1: Mem, m2: Mem, root: nat, va: nat, f: nat, c: int)
    requires m.free != [] && f == m.free[0] && m1 == TakeData(m, c) && Loose(m1, root, f) && SameOthers(m1, m2, root)
    requires Aligned(va) && va < TRAPFRAME && IsValid(Flat(m2, root, va)) && Ppn(Flat(m2, root, va)) == f
    ensures PageIs(m2, root, va, Data(c))
  {
    hide Flat, NodeAt, Holds, Ppn, IsValid;
  }

  lemma {:induction false} FillOnePagesKept(m: Mem, root: nat, va: nat, c: int, flags: nat)
    requires Inv(m, root) && Aligned(va) && va < TRAPFRAME && flags < 1024
    ensures var (m', ok) := FillOne(m, root, va, c, flags); PagesKept(m, m', root, if ok then va else MAXVA)
  {
    if m.free != [] {
      var f := m.free[0];
      var m1 := TakeData(m, c);
      TakeDataKeeps(m, root, c);
      MapOneKeeps(m1, root, va, f, flags);
      var (m2, ok) := MapOne(m1, root, va, f, flags);
      hide MapOne, Flat, NodeAt, MakePte, Ppn, OrV, IsValid, Holds;
      var skip := if ok then va else MAXVA;
      PagesKeptOne(m, m1, root, skip);
      PagesKeptBy(m1, m2, root, skip);
      if !ok {
        FillOneJoin(m, m1, m2, root, f, ok);
        KfreeKeeps(m2, root, f);
        PagesKeptOther(m2, Kfree(m2, f), root, skip, f);
      }
    }
  }

  lemma {:induction false} PagesKeptOne(m: Mem, m1: Mem, root: nat, va: nat)
    requires Inv(m, root) && m.free != [] && (exists c :: m1 == TakeData(m, c)) && FlatSame(m, m1, root)
    ensures PagesKept(m, m1, root, va)
  {
    assert m.free[0] in m.free;
    hide Flat, NodeAt, Ppn, IsValid, Aligned;
  }

  lemma {:induction false} PagesKeptOther(m: Mem, m': Mem, root: nat, va: nat, f: nat)
    requires m' == Kfree(m, f) && FlatSame(m, m', root) && !Holds(m, root, f)
    ensures PagesKept(m, m', root, va)
  {
    hide Flat, NodeAt, Ppn, IsValid, Aligned;
  }

  /** Unmapping a page leaves the contents of all others alone. */
  lemma {:induction false} UnmapPagesKept(m: Mem, root: nat, va: nat)
    requires Inv(m, root) && Aligned(va) && va < TRAPFRAME
    ensures PagesKept(m, UnmapOne(m, root, va, true), root, va)
  {
    WalkKeeps(m, root, va, false);
    var t := Walk(m, root, va, false).1;
    if t.Some? {
      FlatWord(m, root, va, t.value);
      if IsValid(Flat(m, root, va)) {
        var f := Ppn(Flat(m, root, va));
        assert Mapped(m, root, va) && IsTable(m, root, t.value);
        FreeClearCommute(m, t.value, va, f);
        ClearLeafKeeps(m, root, t.value, va);
        var c := SetLeaf(m, t.value, va, 0);
        PagesKeptBy(m, c, root, va);
        KfreeKeeps(c, root, f);
        PagesKeptOther(c, Kfree(c, f), root, va, f);
        hide Inv, Flat, NodeAt, Walk, Holds, Ppn, IsValid, PX, Words, SetLeaf, Kfree, PageIs;
      }
    }
  }

  // ---------------------------------------------------------------- two page tables

  /** No frame is held by both. */
  ghost predicate Disjoint(m: Mem, a: nat, b: nat) {
    forall f: nat :: !(Holds(m, a, f) && Holds(m, b, f))
  }

  /** Work on page table `b` that keeps its frames to itself does not touch page table `a`. */
  lemma {:induction false} OtherKept(m: Mem, m': Mem, a: nat, b: nat)
    requires Inv(m, a) && Disjoint(m, a, b) && Kept(m, m', b)
    ensures Inv(m', a) && FlatSame(m, m', a) && Disjoint(m', a, b)
    ensures forall vb: nat, c :: PageIs(m, a, vb, c) ==> PageIs(m', a, vb, c)
    ensures forall f: nat :: Holds(m', a, f) <==> Holds(m, a, f)
  {
    OtherFrames(m, m', a, b);
    OtherTables(m, m', a);
    hide Flat, NodeAt, Ppn, IsValid;
    DataOnly(m, m', a);
    forall f: nat ensures Holds(m', a, f) <==> Holds(m, a, f)
                  ensures IsTable(m', a, f) <==> IsTable(m, a, f) {
      SameTreeHolds(m, m', a, f);
    }
    OtherInv(m, m', a);
    forall vb: nat, c | PageIs(m, a, vb, c) ensures PageIs(m', a, vb, c) {
      assert Holds(m, a, Ppn(Flat(m, a, vb)));
    }
    hide Inv, SameOthers, PageIs;
  }

  /** What page table `a` holds is loose for `b`, before and after. */
  lemma {:induction false} OtherFrames(m: Mem, m': Mem, a: nat, b: nat)
    requires Inv(m, a) && Disjoint(m, a, b) && Kept(m, m', b)
    ensures forall f: nat :: Holds(m, a, f) ==> (f in m'.pages <==> f in m.pages)
    ensures forall f: nat :: Holds(m, a, f) && f in m.pages ==> f in m'.pages && m'.pages[f] == m.pages[f]
    ensures forall f: nat :: Holds(m, a, f) ==> f !in m'.free && !Holds(m', b, f)
  {
    forall f: nat | Holds(m, a, f) ensures Loose(m, b, f) && Loose(m', b, f) {
      HeldNotFree(m, a, f);
    }
    hide Inv, Holds;
  }

  lemma {:induction false} HeldNotFree(m: Mem, root: nat, f: nat)
    requires Inv(m, root) && Holds(m, root, f)
    ensures f !in m.free
  {
    hide Flat, NodeAt;
  }

  lemma {:induction false} OtherTables(m: Mem, m': Mem, a: nat)
    requires Inv(m, a)
    requires forall f: nat :: Holds(m, a, f) && f in m.pages ==> f in m'.pages && m'.pages[f] == m.pages[f]
    ensures forall f: nat :: IsTable(m, a, f) ==> Words(m', f) == Words(m, f)
  {
    hide Flat, NodeAt;
    forall f: nat | IsTable(m, a, f) ensures Words(m', f) == Words(m, f) {
      assert Holds(m, a, f);
    }
  }

  lemma {:induction false} OtherInv(m: Mem, m': Mem, a: nat)
    requires Inv(m, a) && FlatSame(m, m', a) && (forall n :: NodeAt(m', a, n) == NodeAt(m, a, n)) && Distinct(m'.free)
    requires forall f: nat :: Holds(m, a, f) ==> f !in m'.free
    requires forall f: nat :: Holds(m, a, f) && f in m.pages ==> f in m'.pages && m'.pages[f] == m.pages[f]
    ensures Inv(m', a)
  {
    hide Flat, NodeAt, Ppn, IsValid;
    forall n | NodeAt(m, a, n).Some? ensures Holds(m, a, NodeAt(m, a, n).value) {
      assert IsTable(m, a, NodeAt(m, a, n).value);
    }
    assert forall f: nat :: IsTable(m', a, f) <==> IsTable(m, a, f);
    forall va: nat | Mapped(m', a, va) ensures Mapped(m, a, va) && Holds(m, a, Ppn(Flat(m, a, va))) {
    }
  }

  // ---------------------------------------------------------------- pointers and leaves

  ghost predicate TypedTable(w: seq<nat>, low: bool) {
    forall k :: 0 <= k < |w| && IsValid(w[k]) ==> (IsLeaf(w[k]) <==> low)
  }

  /** Valid words of lowest-level tables map pages, valid words of the others point to tables. */
  ghost predicate WellTyped(m: Mem, root: nat) {
    forall n :: NodeAt(m, root, n).Some? ==> TypedTable(Words(m, NodeAt(m, root, n).value), n.Low?)
  }

  /** A table that gets a pointer to a new, empty table below it. */
  lemma {:induction false} GrownTyped(m: Mem, m': Mem, root: nat, parent: Node, k: nat)
    requires Inv(m, root) && WellTyped(m, root) && !parent.Low? && k < PTES && m.free != []
    requires NodeAt(m, root, parent).Some? && NodeAt(m, root, Child(parent, k)).None?
    requires m' == SetWord(TakeTable(m), NodeAt(m, root, parent).value, k, MakePte(m.free[0], PTE_V))
    ensures WellTyped(m', root)
  {
    hide MakePte, Ppn, IsValid, IsLeaf, NodeAt;
    var p, f := NodeAt(m, root, parent).value, m.free[0];
    OneMoreTree(m, m', root, parent, k);
    PteFields(f, PTE_V);
    ZeroTyped();
    assert f in m.free;
    forall n | NodeAt(m', root, n).Some?
      ensures TypedTable(Words(m', NodeAt(m', root, n).value), n.Low?)
    {
      if n != Child(parent, k) && NodeAt(m, root, n).value != p {
        assert Words(m', NodeAt(m, root, n).value) == Words(m, NodeAt(m, root, n).value);
      }
    }
  }

  lemma {:induction false} DescendTyped(m: Mem, root: nat, parent: Node, k: nat, alloc: bool)
    requires Inv(m, root) && WellTyped(m, root) && !parent.Low? && k < PTES && NodeAt(m, root, parent).Some?
    ensures WellTyped(Descend(m, NodeAt(m, root, parent).value, k, alloc).0, root)
  {
    hide MakePte, Ppn, NodeAt, WellTyped, Distinct;
    var p := NodeAt(m, root, parent).value;
    ChildWord(m, root, parent, k);
    if NodeAt(m, root, Child(parent, k)).None? && alloc && m.free != [] {
      GrownTyped(m, SetWord(TakeTable(m), p, k, MakePte(m.free[0], PTE_V)), root, parent, k);
    }
  }

  lemma {:induction false} ZeroTyped()
    ensures TypedTable(ZeroTable(), false) && TypedTable(ZeroTable(), true)
  {
  }

  lemma {:induction false} WalkTyped(m: Mem, root: nat, va: nat, alloc: bool)
    requires Inv(m, root) && WellTyped(m, root)
    ensures WellTyped(Walk(m, root, va, alloc).0, root)
  {
    DescendKeeps(m, root, Root, PX(2, va), alloc);
    DescendTyped(m, root, Root, PX(2, va), alloc);
    var (m1, t) := Descend(m, root, PX(2, va), alloc);
    if t.Some? {
      DescendTyped(m1, root, Mid(PX(2, va)), PX(1, va), alloc);
    }
    hide Descend, WellTyped;
  }

  lemma {:induction false} SetLeafTyped(m: Mem, root: nat, t: nat, va: nat, w: nat)
    requires TreeInv(m, root) && WellTyped(m, root) && NodeAt(m, root, Low(PX(2, va), PX(1, va))) == Some(t)
    requires IsValid(w) ==> IsLeaf(w)
    ensures WellTyped(SetLeaf(m, t, va, w), root)
  {
    var m' := SetLeaf(m, t, va, w);
    forall n | NodeAt(m', root, n).Some? ensures TypedTable(Words(m', NodeAt(m', root, n).value), n.Low?) {
      SetLeafNodes(m, root, t, va, w, n);
      if NodeAt(m, root, n).value == t {
        assert n.Low?;
      } else {
        assert Words(m', NodeAt(m, root, n).value) == Words(m, NodeAt(m, root, n).value);
      }
    }
  }

  /** mappages keeps pointers and leaves apart exactly because its permissions include R, W or X. */
  lemma {:induction false} MapOneTyped(m: Mem, root: nat, va: nat, f: nat, flags: nat)
    requires Inv(m, root) && WellTyped(m, root) && flags < 1024 && IsLeaf(flags)
    ensures WellTyped(MapOne(m, root, va, f, flags).0, root)
  {
    WalkKeeps(m, root, va, true);
    WalkTyped(m, root, va, true);
    var (m1, t) := Walk(m, root, va, true);
    if t.Some? && !IsValid(Words(m1, t.value)[PX(0, va)]) {
      OrVValid(f, flags);
      PteFields(f, OrV(flags));
      assert OrV(flags) / 2 == flags / 2;
      SetLeafTyped(m1, root, t.value, va, MakePte(f, OrV(flags)));
    }
    hide Walk, WellTyped, MakePte, OrV, Grown, NodeAt;
  }

  /** Frames of other use do not matter. */
  lemma {:induction false} DataOnlyTyped(m: Mem, m': Mem, root: nat)
    requires TreeInv(m, root) && WellTyped(m, root) && forall f: nat :: IsTable(m, root, f) ==>
        Words(m', f) == Words(m, f)
    ensures WellTyped(m', root)
  {
    DataOnly(m, m', root);
    hide NodeAt, TypedTable;
    forall n | NodeAt(m', root, n).Some?
      ensures Words(m', NodeAt(m', root, n).value) == Words(m, NodeAt(m, root, n).value)
    {
      assert IsTable(m, root, NodeAt(m, root, n).value);
    }
  }

  lemma {:induction false} FillOneTyped(m: Mem, root: nat, va: nat, c: int, flags: nat)
    requires Inv(m, root) && WellTyped(m, root) && Aligned(va) && va < TRAPFRAME && flags < 1024 && IsLeaf(flags)
    ensures WellTyped(FillOne(m, root, va, c, flags).0, root)
  {
    if m.free != [] {
      var f := m.free[0];
      assert f in m.free;
      FreeNotHeld(m, root, f);
      TakeDataKeeps(m, root, c);
      DataOnlyTyped(m, TakeData(m, c), root);
      MapOneTyped(TakeData(m, c), root, va, f, flags);
      MapOneKeeps(TakeData(m, c), root, va, f, flags);
      var (m2, ok) := MapOne(TakeData(m, c), root, va, f, flags);
      if !ok {
        LooseNotTable(TakeData(m, c), m2, root, f);
        DataOnlyTyped(m2, Kfree(m2, f), root);
      }
    }
    hide MapOne, NodeAt, Flat, WellTyped, Holds, MakePte;
  }

  lemma {:induction false} LooseNotTable(m: Mem, m2: Mem, root: nat, f: nat)
    requires Loose(m, root, f) && Accounted(m, m2, root, false, f)
    ensures !IsTable(m2, root, f)
  {
    assert !Holds(m2, root, f);
  }

  lemma {:induction false} UnmapOneTyped(m: Mem, root: nat, va: nat)
    requires Inv(m, root) && WellTyped(m, root) && Aligned(va) && va < TRAPFRAME
    ensures WellTyped(UnmapOne(m, root, va, true), root)
  {
    WalkKeeps(m, root, va, false);
    var t := Walk(m, root, va, false).1;
    if t.Some? {
      FlatWord(m, root, va, t.value);
      if IsValid(Flat(m, root, va)) {
        var f := Ppn(Flat(m, root, va));
        assert Mapped(m, root, va) && IsTable(m, root, t.value);
        FreeClearCommute(m, t.value, va, f);
        ClearLeafKeeps(m, root, t.value, va);
        SetLeafTyped(m, root, t.value, va, 0);
        var c := SetLeaf(m, t.value, va, 0);
        assert !IsTable(c, root, f);
        DataOnlyTyped(c, Kfree(c, f), root);
        hide NodeAt, Flat, Walk, Ppn, IsValid, WellTyped, Holds, SetLeaf;
      }
    }
  }

  // ---------------------------------------------------------------- the tables below a table

  /** `n` is `top` or lies below it. */
  predicate Under(top: Node, n: Node) {
    match top
    case Root => true
    case Mid(i) => n == top || (n.Low? && n.i == i)
    case Low(_, _) => n == top
  }

  /** Frame `f` is a table at or below `top`. */
  ghost predicate InSub(m: Mem, root: nat, top: Node, f: nat) {
    exists n :: Under(top, n) && NodeAt(m, root, n) == Some(f)
  }

  /** Frame `f` is a table at or below one of the first `k` children of `top`. */
  ghost predicate InSubs(m: Mem, root: nat, top: Node, k: nat, f: nat)
    requires !top.Low?
  {
    exists j: nat :: j < k && InSub(m, root, Child(top, j), f)
  }

  /** The tables under a table are itself and those under its children. */
  lemma {:induction false} SubSplit(m: Mem, root: nat, top: Node, f: nat)
    requires !top.Low? && NodeAt(m, root, top).Some?
    ensures InSub(m, root, top, f) <==> NodeAt(m, root, top) == Some(f) || InSubs(m, root, top, PTES, f)
  {
    if InSub(m, root, top, f) && NodeAt(m, root, top) != Some(f) {
      var n :| Under(top, n) && NodeAt(m, root, n) == Some(f);
      var j := if top.Root? then n.i else n.j;
      IndexBelow(m, root, n);
      assert Under(Child(top, j), n);
      assert InSub(m, root, Child(top, j), f);
    }
    if InSubs(m, root, top, PTES, f) {
      var j: nat :| j < PTES && InSub(m, root, Child(top, j), f);
      var n :| Under(Child(top, j), n) && NodeAt(m, root, n) == Some(f);
      assert Under(top, n);
    }
    if NodeAt(m, root, top) == Some(f) {
      assert Under(top, top);
    }
  }

  lemma {:induction false} IndexBelow(m: Mem, root: nat, n: Node)
    requires NodeAt(m, root, n).Some? && !n.Root?
    ensures n.i < PTES && (n.Low? ==> n.j < PTES)
  {
  }

  /** Different children have different tables below them, and none of them is the parent. */
  lemma {:induction false} SubsApart(m: Mem, root: nat, top: Node, j: nat, k: nat, f: nat)
    requires TreeInv(m, root) && !top.Low? && InSub(m, root, Child(top, j), f)
    ensures NodeAt(m, root, top) != Some(f)
    ensures j != k ==> !InSub(m, root, Child(top, k), f)
  {
    hide NodeAt;
  }

  /** The tables below the first `k` words of a table; a lowest-level table has none. */
  ghost predicate Passed(m: Mem, root: nat, top: Node, k: nat, f: nat) {
    !top.Low? && InSubs(m, root, top, k, f)
  }

  lemma {:induction false} PassedStep(m: Mem, root: nat, top: Node, k: nat, f: nat)
    ensures !Passed(m, root, top, 0, f)
    ensures Passed(m, root, top, k + 1, f) <==>
        Passed(m, root, top, k, f) || (!top.Low? && InSub(m, root, Child(top, k), f))
  {
    hide InSub;
    if !top.Low? && InSub(m, root, Child(top, k), f) {
      assert InSubs(m, root, top, k + 1, f);
    }
  }

  lemma {:induction false} PassedAll(m: Mem, root: nat, top: Node, f: nat)
    requires NodeAt(m, root, top).Some?
    ensures InSub(m, root, top, f) <==> NodeAt(m, root, top) == Some(f) || Passed(m, root, top, PTES, f)
  {
    if !top.Low? {
      SubSplit(m, root, top, f);
    } else if NodeAt(m, root, top) == Some(f) {
      assert Under(top, top);
    }
  }

  lemma {:induction false} NothingBelow(m: Mem, root: nat, top: Node, k: nat, f: nat)
    requires !top.Low? && NodeAt(m, root, Child(top, k)).None?
    ensures !InSub(m, root, Child(top, k), f)
  {
  }

  /** What freewalk finds at word `k`: a table to free, or nothing below. */
  lemma {:induction false} WordBelow(m: Mem, root: nat, top: Node, table: nat, k: nat)
    requires TreeInv(m, root) && WellTyped(m, root) && NodeAt(m, root, top) == Some(table) && k < PTES
    ensures var w := Words(m, table)[k];
      && (IsValid(w) && !IsLeaf(w) ==> !top.Low? && NodeAt(m, root, Child(top, k)) == Some(Ppn(w)))
      && (!(IsValid(w) && !IsLeaf(w)) ==> forall f: nat :: Passed(m, root, top, k + 1, f) <==>
          Passed(m, root, top, k, f))
  {
    var w := Words(m, table)[k];
    assert TypedTable(Words(m, table), top.Low?);
    if !top.Low? {
      ChildWord(m, root, top, k);
    }
    if !(IsValid(w) && !IsLeaf(w)) {
      forall f: nat ensures Passed(m, root, top, k + 1, f) <==> Passed(m, root, top, k, f) {
        PassedStep(m, root, top, k, f);
        if !top.Low? {
          NothingBelow(m, root, top, k, f);
        }
      }
    }
    hide NodeAt, Passed, IsLeaf, IsValid, Ppn;
  }

  /** The tables below word `k` have not been reached before and are not the table itself. */
  lemma {:induction false} FreshBelow(m: Mem, root: nat, top: Node, k: nat, f: nat)
    requires TreeInv(m, root) && !top.Low? && InSub(m, root, Child(top, k), f)
    ensures NodeAt(m, root, top) != Some(f) && !Passed(m, root, top, k, f) && InSub(m, root, top, f)
  {
    SubsApart(m, root, top, k, k, f);
    if Passed(m, root, top, k, f) {
      var j: nat :| j < k && InSub(m, root, Child(top, j), f);
      SubsApart(m, root, top, j, k, f);
    }
    var n :| Under(Child(top, k), n) && NodeAt(m, root, n) == Some(f);
    assert Under(top, n);
  }

  /** Work on page table `b` leaves the words of page table `a` alone. */
  lemma {:induction false} OtherTyped(m: Mem, m': Mem, a: nat, b: nat)
    requires Inv(m, a) && Disjoint(m, a, b) && Kept(m, m', b) && WellTyped(m, a)
    ensures WellTyped(m', a)
  {
    hide Flat, NodeAt, WellTyped, LeafInv, Distinct;
    OtherFrames(m, m', a, b);
    OtherTables(m, m', a);
    DataOnlyTyped(m, m', a);
  }

  /** The valid words that a well-typed page table has for addresses map pages. */
  lemma {:induction false} FlatLeaf(m: Mem, root: nat, va: nat)
    requires WellTyped(m, root) && IsValid(Flat(m, root, va))
    ensures IsLeaf(Flat(m, root, va)) && IsLeaf(Flags(Flat(m, root, va)))
  {
    var n := Low(PX(2, va), PX(1, va));
    assert NodeAt(m, root, n).Some? && TypedTable(Words(m, NodeAt(m, root, n).value), true);
    LeafFlags(Flat(m, root, va));
    hide NodeAt;
  }

  lemma {:induction false} LeafFlags(w: nat)
    ensures IsLeaf(Flags(w)) <==> IsLeaf(w)
  {
    assert w / 2 % 8 == w % 1024 / 2 % 8;
  }

  // ---------------------------------------------------------------- a new page table

  /** uvmcreate: a page table with one empty table, and no pages. */
  lemma {:induction false} CreateKeeps(m: Mem)
    requires Distinct(m.free) && m.free != []
    ensures var m', root := TakeTable(m), m.free[0];
      && Inv(m', root) && WellTyped(m', root) && (forall f: nat :: Holds(m', root, f) <==> f == root)
      && (forall f: nat :: f in m.free <==> f in m'.free || f == root)
  {
    var m', root := TakeTable(m), m.free[0];
    assert m.free == [root] + m'.free && Distinct(m'.free) && root !in m'.free;
    CreatedNodes(m);
    ZeroTyped();
    hide NodeAt, TypedTable;
    forall va: nat ensures !Mapped(m', root, va) {
      assert NodeAt(m', root, Low(PX(2, va), PX(1, va))).None?;
    }
    hide Mapped, Distinct;
    assert forall f: nat :: IsTable(m', root, f) <==> f == root by {
      assert NodeAt(m', root, Root) == Some(root);
    }
  }

  lemma {:induction false} CreatedNodes(m: Mem)
    requires m.free != []
    ensures var m', root := TakeTable(m), m.free[0];
      && Words(m', root) == ZeroTable() && NodeAt(m', root, Root) == Some(root)
      && forall n :: n != Root ==> NodeAt(m', root, n) == None
  {
    EmptyTable();
  }

  /** A new page table shares nothing with those that exist. */
  lemma {:induction false} CreateOthers(m: Mem, a: nat)
    requires Inv(m, a) && m.free != []
    ensures var m', root := TakeTable(m), m.free[0];
      Inv(m', a) && FlatSame(m, m', a) && Disjoint(m', a, root) && (WellTyped(m, a) ==> WellTyped(m', a))
  {
    var m', root := TakeTable(m), m.free[0];
    CreateKeeps(m);
    assert root in m.free && m.free == [root] + m'.free;
    FreeNotHeld(m, a, root);
    forall f: nat | Holds(m, a, f)
      ensures f !in m'.free && f != root && (f in m.pages ==> f in m'.pages && m'.pages[f] == m.pages[f])
    {
      HeldNotFree(m, a, f);
    }
    OtherTables(m, m', a);
    hide Flat, NodeAt, Mapped, WellTyped;
    DataOnly(m, m', a);
    OtherInv(m, m', a);
    forall f: nat ensures Holds(m', a, f) <==> Holds(m, a, f) {
      SameTreeHolds(m, m', a, f);
    }
    if WellTyped(m, a) {
      DataOnlyTyped(m, m', a);
    }
    hide Inv, Holds;
  }
}
