/**
 The code of `kernel/kalloc.c` and the user page-table half of `kernel/vm.c`,
 over the physical memory it changes in place.
 */
module VmCode {
  import opened Common
  import opened PageTable

  function PgRoundUp(sz: nat): (r: nat)
    ensures Aligned(r) && sz <= r < sz + PGSIZE
  {
    (sz + PGSIZE - 1) / PGSIZE * PGSIZE
  }

  /** Unmapping `lo..hi`: every page in it is invalid afterwards, every other PTE is as before. */
  ghost predicate RangeGone(m: Mem, m': Mem, root: nat, lo: nat, hi: nat) {
    forall vb: nat :: Aligned(vb) && vb < MAXVA ==>
      if lo <= vb < hi then !IsValid(Flat(m', root, vb)) else Flat(m', root, vb) == Flat(m, root, vb)
  }

  /** The frame for page `vb` of a mapping that starts with frame `f` at `va`. */
  function FrameFor(va: nat, f: nat, vb: nat): nat
    requires va <= vb
  {
    f + (vb - va) / PGSIZE
  }

  /** The pages `va..hi` are mapped to consecutive frames from `f`; every other PTE is as before. */
  ghost predicate RangeMapped(m: Mem, m': Mem, root: nat, va: nat, hi: nat, f: nat, flags: nat)
    requires OrV(flags) < 1024
  {
    forall vb: nat :: Aligned(vb) && vb < MAXVA ==>
      if va <= vb < hi then Flat(m', root, vb) == MakePte(FrameFor(va, f, vb), OrV(flags))
      else Flat(m', root, vb) == Flat(m, root, vb)
  }

  /** Mapping has put the frames from `f` up to `g` into the hands of the page table. */
  ghost predicate Taken(m: Mem, m': Mem, root: nat, f: nat, g: nat) {
    forall x: nat :: (x in m'.free || Holds(m', root, x)) <==> (x in m.free || Holds(m, root, x) || f <= x < g)
  }

  ghost predicate LooseFrom(m: Mem, root: nat, f: nat, g: nat) {
    forall x: nat :: f <= x < g ==> Loose(m, root, x)
  }

  /** User pages outside `lo..hi` keep their contents. */
  ghost predicate KeptOutside(m: Mem, m': Mem, root: nat, lo: nat, hi: nat) {
    forall vb: nat, c :: !(lo <= vb < hi) && PageIs(m, root, vb, c) ==> PageIs(m', root, vb, c)
  }

  /** The pages `lo..hi` were unmapped and are now zero-filled pages with the given flags. */
  ghost predicate Filled(m: Mem, m': Mem, root: nat, lo: nat, hi: nat, flags: nat) {
    && KeptOutside(m, m', root, lo, hi)
    && forall vb: nat :: Aligned(vb) && vb < MAXVA ==>
         if lo <= vb < hi then
           !IsValid(Flat(m, root, vb)) && PageIs(m', root, vb, Data(0)) && Flags(Flat(m', root, vb)) == OrV(flags)
         else Flat(m', root, vb) == Flat(m, root, vb)
  }

  /** The same pages are mapped, to the same frames with the same contents. */
  ghost predicate Restored(m: Mem, m': Mem, root: nat) {
    && KeptOutside(m, m', root, 0, 0)
    && forall vb: nat :: Aligned(vb) && vb < MAXVA ==>
         (IsValid(Flat(m', root, vb)) <==> IsValid(Flat(m, root, vb))) &&
         (IsValid(Flat(m, root, vb)) ==> Flat(m', root, vb) == Flat(m, root, vb))
  }

  /** Every user page of a page table is a data page. */
  ghost predicate UserData(m: Mem, root: nat) {
    forall va: nat :: Mapped(m, root, va) ==>
      Ppn(Flat(m, root, va)) in m.pages && m.pages[Ppn(Flat(m, root, va))].Data?
  }

  /** The page at `vb` of the child is a private copy of the parent's, with the same flags. */
  ghost predicate CopyOf(m0: Mem, m: Mem, parent: nat, child: nat, vb: nat) {
    && Ppn(Flat(m0, parent, vb)) in m0.pages && PageIs(m, child, vb, m0.pages[Ppn(Flat(m0, parent, vb))])
    && Flags(Flat(m, child, vb)) == Flags(Flat(m0, parent, vb))
  }

  /** The pages of the parent below `a` have been copied; the child's other PTEs are as before. */
  ghost predicate Copied(m0: Mem, m: Mem, parent: nat, child: nat, a: nat) {
    forall vb: nat :: Aligned(vb) && vb < MAXVA ==>
      if vb < a && IsValid(Flat(m0, parent, vb)) then CopyOf(m0, m, parent, child, vb)
      else Flat(m, child, vb) == Flat(m0, child, vb)
  }

  /** The parent is untouched. */
  ghost predicate Untouched(m0: Mem, m: Mem, root: nat) {
    Inv(m, root) && FlatSame(m0, m, root) && forall vb: nat, c :: PageIs(m0, root, vb, c) ==> PageIs(m, root, vb, c)
  }

  /** The state in the middle of uvmcopy. */
  ghost predicate CopyInv(m0: Mem, m: Mem, parent: nat, child: nat) {
    && Inv(m0, parent) && UserData(m0, parent)
    && Kept(m0, m, child) && Untouched(m0, m, parent) && Disjoint(m, parent, child)
  }

  class Memory {
    var pages: map<nat, Page>
    var free: seq<nat>

    function State(): Mem
      reads this
    {
      Mem(pages, free)
    }

    constructor ()
      ensures State() == Mem(map[], [])
    {
      pages, free := map[], [];
    }

    method Kalloc() returns (f: Option<nat>)
      modifies this`free
      ensures pages == old(pages)
      ensures f == if old(free) == [] then None else Some(old(free)[0])
      ensures free == if old(free) == [] then [] else old(free)[1..]
    {
      if free == [] {
        return None;
      }
      f := Some(free[0]);
      free := free[1..];
    }

    method Kfree(f: nat)
      modifies this
      ensures State() == PageTable.Kfree(old(State()), f)
    {
      pages := pages[f := Data(1)];
      free := [f] + free;
    }

    /** freerange: every frame of the range ends up on the free list, once. */
    method Freerange(lo: nat, hi: nat)
      requires lo <= hi && Distinct(free) && forall f :: lo <= f < hi ==> f !in free
      modifies this
      ensures Distinct(free) && |free| == |old(free)| + (hi - lo)
      ensures forall f: nat :: f in free <==> f in old(free) || lo <= f < hi
    {
      var p := lo;
      while p + 1 <= hi
        invariant lo <= p <= hi && Distinct(free) && |free| == |old(free)| + (p - lo)
        invariant forall f: nat :: f in free <==> f in old(free) || lo <= f < p
      {
        assert p !in free;
        ghost var before := free;
        Kfree(p);
        assert free == [p] + before;
        p := p + 1;
      }
    }

    /** One level of the loop of walk. */
    method DescendTo(table: nat, k: nat, alloc: bool) returns (t: Option<nat>)
      requires k < PTES
      modifies this
      ensures (State(), t) == Descend(old(State()), table, k, alloc)
    {
      var pte := Words(State(), table)[k];
      if IsValid(pte) {
        return Some(Ppn(pte));
      }
      if !alloc {
        return None;
      }
      t := Kalloc();
      if t.None? {
        return;
      }
      pages := pages[t.value := Table(ZeroTable())];
      PteFields(t.value, PTE_V);
      pages := pages[table := Table(Words(State(), table)[k := MakePte(t.value, PTE_V)])];
    }

    /** walk */
    method Walk(root: nat, va: nat, alloc: bool) returns (t: Option<nat>)
      requires va < MAXVA
      modifies this
      ensures (State(), t) == PageTable.Walk(old(State()), root, va, alloc)
    {
      var table := root;
      var level := 2;
      t := Some(root);
      while level > 0
        invariant 0 <= level <= 2 && t == Some(table)
        invariant level == 2 ==> State() == old(State()) && table == root
        invariant level == 1 ==> (State(), t) == Descend(old(State()), root, PX(2, va), alloc)
        invariant level == 0 ==> (State(), t) == PageTable.Walk(old(State()), root, va, alloc)
      {
        t := DescendTo(table, PX(level, va), alloc);
        if t.None? {
          return;
        }
        table := t.value;
        level := level - 1;
      }
    }

    /** One turn of mappages. */
    method MapPage(root: nat, va: nat, f: nat, flags: nat) returns (ok: bool)
      requires va < MAXVA && flags < 1024
      modifies this
      ensures (State(), ok) == MapOne(old(State()), root, va, f, flags)
    {
      var t := Walk(root, va, true);
      if t.None? || IsValid(Words(State(), t.value)[PX(0, va)]) {
        return false;
      }
      OrVValid(f, flags);
      pages := pages[t.value := Table(Words(State(), t.value)[PX(0, va) := MakePte(f, OrV(flags))])];
      return true;
    }

    /** One turn of uvmunmap. */
    method UnmapPage(root: nat, va: nat, doFree: bool)
      requires va < MAXVA && Inv(State(), root)
      modifies this
      ensures State() == UnmapOne(old(State()), root, va, doFree)
    {
      WalkKeeps(State(), root, va, false);
      var t := Walk(root, va, false);
      if t.None? || !IsValid(Words(State(), t.value)[PX(0, va)]) {
        return;
      }
      if doFree {
        Kfree(Ppn(Words(State(), t.value)[PX(0, va)]));
      }
      pages := pages[t.value := Table(Words(State(), t.value)[PX(0, va) := 0])];
    }

    /** One turn of mappages, with what it adds to the mapping. */
    method MapTurn(root: nat, va: nat, a: nat, f: nat, g: nat, flags: nat, ghost m0: Mem) returns (ok: bool)
      requires Inv(State(), root) && Aligned(va) && Aligned(a) && va <= a < TRAPFRAME && flags < 1024
      requires OrV(flags) < 1024 && g == FrameFor(va, f, a) && Loose(State(), root, g)
      requires RangeMapped(m0, State(), root, va, a, f, flags) && Taken(m0, State(), root, f, g)
      requires IsLeaf(flags) && WellTyped(m0, root) ==> WellTyped(State(), root)
      modifies this
      ensures IsLeaf(flags) && WellTyped(m0, root) ==> WellTyped(State(), root)
      ensures Inv(State(), root)
      ensures RangeMapped(m0, State(), root, va, if ok then a + PGSIZE else a, f, flags)
      ensures Taken(m0, State(), root, f, if ok then g + 1 else g)
      ensures !ok ==> IsValid(Flat(State(), root, a)) || State().free == []
    {
      ghost var m := State();
      MapOneKeeps(m, root, a, g, flags);
      MapTurnJoin(m0, m, root, va, a, f, g, flags);
      if IsLeaf(flags) && WellTyped(m, root) {
        MapOneTyped(m, root, a, g, flags);
      }
      hide *;
      ok := MapPage(root, a, g, flags);
    }

    /**
     mappages: on success the whole range is mapped, on failure a first part of it, up to `end`.
     It fails only at a page that is mapped already, or when no frame is left for a table.
     */
    method Mappages(root: nat, va: nat, size: nat, f: nat, flags: nat) returns (ok: bool, ghost end: nat)
      requires Inv(State(), root) && Aligned(va) && Aligned(size) && 0 < size && va + size <= TRAPFRAME && flags < 1024
      requires LooseFrom(State(), root, f, f + size / PGSIZE)
      modifies this
      ensures Inv(State(), root) && va <= end <= va + size && Aligned(end) && (ok <==> end == va + size)
      ensures OrV(flags) < 1024 && RangeMapped(old(State()), State(), root, va, end, f, flags)
      ensures Taken(old(State()), State(), root, f, FrameFor(va, f, end))
      ensures !ok ==> IsValid(old(Flat(State(), root, end))) || State().free == []
      ensures IsLeaf(flags) && WellTyped(old(State()), root) ==> WellTyped(State(), root)
    {
      hide *;
      ghost var m0 := State();
      MapStart(m0, root, va, size, f, flags);
      var a, g := va, f;
      end := va;
      var last := va + size;
      ok := true;
      while ok && a != last
        invariant Inv(State(), root) && va <= a <= last <= TRAPFRAME && Aligned(a) && end == a
        invariant g == FrameFor(va, f, a) && (!ok ==> a < last)
        invariant !ok ==> IsValid(Flat(State(), root, a)) || State().free == []
        invariant RangeMapped(m0, State(), root, va, a, f, flags) && Taken(m0, State(), root, f, g)
        invariant IsLeaf(flags) && WellTyped(m0, root) ==> WellTyped(State(), root)
        decreases last - a, if ok then 1 else 0
      {
        StillLoose(m0, State(), root, va, a, size, f, g);
        NextPage(va, a, last, f);
        ok := MapTurn(root, va, a, f, g, flags, m0);
        if ok {
          a, g := a + PGSIZE, g + 1;
          end := a;
        }
      }
      RangeEnd(m0, State(), root, va, a, f, flags);
    }

    /** One turn of uvmunmap, with what it adds to the range that is gone. */
    method UnmapTurn(root: nat, lo: nat, a: nat, ghost m0: Mem)
      requires Kept(m0, State(), root) && Aligned(a) && lo <= a < TRAPFRAME
      requires RangeGone(m0, State(), root, lo, a) && KeptOutside(m0, State(), root, lo, a)
      requires WellTyped(m0, root) ==> WellTyped(State(), root)
      modifies this
      ensures WellTyped(m0, root) ==> WellTyped(State(), root)
      ensures Kept(m0, State(), root) && RangeGone(m0, State(), root, lo, a + PGSIZE)
      ensures KeptOutside(m0, State(), root, lo, a + PGSIZE)
    {
      ghost var m := State();
      KeptInv(m0, m, root);
      UnmapOneFrees(m, root, a);
      KeptTrans(m0, m, UnmapOne(m, root, a, true), root);
      GoneExtended(m0, m, UnmapOne(m, root, a, true), root, lo, a);
      UnmapPagesKept(m, root, a);
      OutsideExtended(m0, m, UnmapOne(m, root, a, true), root, lo, a);
      if WellTyped(m, root) {
        UnmapOneTyped(m, root, a);
      }
      hide *;
      UnmapPage(root, a, true);
    }

    /** uvmunmap of the pages `va..end` with do_free: all of them are gone and their frames are free. */
    method Uvmunmap(root: nat, va: nat, end: nat)
      requires Inv(State(), root) && Aligned(va) && Aligned(end) && va <= end <= TRAPFRAME
      modifies this
      ensures Kept(old(State()), State(), root)
      ensures RangeGone(old(State()), State(), root, va, end) && KeptOutside(old(State()), State(), root, va, end)
      ensures WellTyped(old(State()), root) ==> WellTyped(State(), root)
    {
      hide *;
      ghost var m0 := State();
      UnmapStart(m0, root, va);
      var a := va;
      while a < end
        invariant va <= a <= end <= TRAPFRAME && Aligned(a)
        invariant Kept(m0, State(), root) && RangeGone(m0, State(), root, va, a)
        invariant KeptOutside(m0, State(), root, va, a)
        invariant WellTyped(m0, root) ==> WellTyped(State(), root)
      {
        NextPage(va, a, end, 0);
        UnmapTurn(root, va, a, m0);
        a := a + PGSIZE;
      }
    }

    /** uvmdealloc: give back the pages between two process sizes. */
    method Uvmdealloc(root: nat, oldsz: nat, newsz: nat) returns (ret: nat)
      requires Inv(State(), root) && oldsz <= TRAPFRAME
      modifies this
      ensures Kept(old(State()), State(), root) && ret == if newsz >= oldsz then oldsz else newsz
      ensures newsz >= oldsz ==> State() == old(State())
      ensures newsz < oldsz ==> RangeGone(old(State()), State(), root, PgRoundUp(newsz), PgRoundUp(oldsz))
      ensures newsz < oldsz ==> KeptOutside(old(State()), State(), root, PgRoundUp(newsz), PgRoundUp(oldsz))
      ensures WellTyped(old(State()), root) ==> WellTyped(State(), root)
    {
      hide *;
      RoundUpBelow(oldsz);
      RoundUpMono(newsz, oldsz);
      UnmapStart(State(), root, PgRoundUp(newsz));
      if newsz >= oldsz {
        return oldsz;
      }
      if PgRoundUp(newsz) < PgRoundUp(oldsz) {
        Uvmunmap(root, PgRoundUp(newsz), PgRoundUp(oldsz));
      }
      return newsz;
    }

    /** kalloc, memset or memmove, mappages; the frame goes back if mapping fails. */
    method FillPage(root: nat, va: nat, c: int, flags: nat) returns (ok: bool)
      requires Inv(State(), root) && va < MAXVA && flags < 1024
      modifies this
      ensures (State(), ok) == FillOne(old(State()), root, va, c, flags)
    {
      hide MapOne, Inv;
      var f := Kalloc();
      if f.None? {
        return false;
      }
      pages := pages[f.value := Data(c)];
      ok := MapPage(root, va, f.value, flags);
      if !ok {
        Kfree(f.value);
      }
    }

    /** One turn of the loop of uvmalloc. */
    method AllocTurn(root: nat, lo: nat, a: nat, flags: nat, ghost m0: Mem) returns (ok: bool)
      requires Kept(m0, State(), root) && Filled(m0, State(), root, lo, a, flags)
      requires Aligned(a) && lo <= a < TRAPFRAME && flags < 1024 && IsLeaf(flags)
      requires WellTyped(m0, root) ==> WellTyped(State(), root)
      modifies this
      ensures WellTyped(m0, root) ==> WellTyped(State(), root)
      ensures Kept(m0, State(), root) && Filled(m0, State(), root, lo, if ok then a + PGSIZE else a, flags)
      ensures Flat(old(State()), root, a) == Flat(m0, root, a) && (!ok ==> NoRoom(old(State()), State(), root, a))
      ensures |State().free| + 3 >= |old(State()).free|
    {
      ghost var m := State();
      KeptInv(m0, m, root);
      AllocTurnFails(m0, m, root, lo, a, flags);
      FillOneKeeps(m, root, a, 0, flags);
      var (m', k) := FillOne(m, root, a, 0, flags);
      KeptTrans(m0, m, m', root);
      FilledTurn(m0, m, root, lo, a, flags);
      if WellTyped(m, root) {
        FillOneTyped(m, root, a, 0, flags);
      }
      hide *;
      ok := FillPage(root, a, 0, flags);
    }

    /**
     uvmalloc: grow by zero-filled pages, or leave every mapping as it was. It fails only at a page
     that is mapped already, or with at most one frame left in the memory `last` that it then cleans
     up; with three frames for each page it succeeds.
     */
    method Uvmalloc(root: nat, oldsz: nat, newsz: nat, xperm: nat)
      returns (ret: nat, ghost ok: bool, ghost stop: nat, ghost last: Mem)
      requires Inv(State(), root) && newsz <= TRAPFRAME && xperm < 1024
      modifies this
      ensures Kept(old(State()), State(), root)
      ensures newsz < oldsz ==> ok && ret == oldsz && State() == old(State())
      ensures newsz >= oldsz && ok ==>
        ret == newsz && Filled(old(State()), State(), root, PgRoundUp(oldsz), PgRoundUp(newsz), UserFlags(xperm))
      ensures newsz >= oldsz && !ok ==> ret == 0 && Restored(old(State()), State(), root)
      ensures !ok ==> PgRoundUp(oldsz) <= stop < newsz && Kept(old(State()), last, root)
      ensures !ok ==> Filled(old(State()), last, root, PgRoundUp(oldsz), stop, UserFlags(xperm))
      ensures !ok ==> IsValid(old(Flat(State(), root, stop))) || |last.free| <= 1
      ensures !ok && |old(State()).free| >= Enough(PgRoundUp(oldsz), PgRoundUp(newsz)) ==>
        IsValid(old(Flat(State(), root, stop)))
      ensures WellTyped(old(State()), root) ==> WellTyped(State(), root)
    {
      hide *;
      ghost var m0 := State();
      var flags := UserFlags(xperm);
      UserFlagsLeaf(xperm);
      AllocStart(m0, root, PgRoundUp(oldsz), flags);
      stop, last := 0, m0;
      if newsz < oldsz {
        return oldsz, true, stop, last;
      }
      var lo := PgRoundUp(oldsz);
      EnoughNone(lo);
      RoundUpMono(oldsz, newsz);
      RoundUpBelow(newsz);
      var a := lo;
      while a < newsz
        invariant lo <= a <= PgRoundUp(newsz) && Aligned(a)
        invariant Kept(m0, State(), root) && Filled(m0, State(), root, lo, a, flags)
        invariant WellTyped(m0, root) ==> WellTyped(State(), root)
        invariant |State().free| + Enough(lo, a) >= |m0.free|
        decreases newsz - a
      {
        NextBelow(a, newsz);
        EnoughMore(lo, a, newsz);
        ghost var before := State();
        var turn := AllocTurn(root, lo, a, flags, m0);
        if !turn {
          ghost var m := State();
          HadRoom(before, m, root, a);
          stop, last := a, m;
          KeptInv(m0, m, root);
          RoundUpId(lo);
          RoundUpId(a);
          var _ := Uvmdealloc(root, a, lo);
          KeptTrans(m0, m, State(), root);
          if lo < a {
            RestoredBy(m0, m, State(), root, lo, a, flags);
          } else {
            RestoredEmpty(m0, m, root, lo, flags);
          }
          return 0, false, stop, last;
        }
        a := a + PGSIZE;
      }
      RoundUpIs(a, newsz);
      return newsz, true, stop, last;
    }

    /** One turn of the loop of uvmcopy. */
    method CopyTurn(parent: nat, child: nat, a: nat, ghost m0: Mem) returns (ok: bool)
      requires CopyInv(m0, State(), parent, child) && Copied(m0, State(), parent, child, a)
      requires Aligned(a) && a < TRAPFRAME
      requires WellTyped(m0, parent) && WellTyped(m0, child) ==> WellTyped(State(), child)
      modifies this
      ensures WellTyped(m0, parent) && WellTyped(m0, child) ==> WellTyped(State(), child)
      ensures CopyInv(m0, State(), parent, child)
      ensures ok ==> Copied(m0, State(), parent, child, a + PGSIZE)
      ensures !ok ==> Copied(m0, State(), parent, child, a)
      ensures !ok ==> IsValid(Flat(m0, parent, a)) && NoRoom(old(State()), State(), child, a)
      ensures !ok ==> Flat(old(State()), child, a) == Flat(m0, child, a)
      ensures |State().free| + 3 >= |old(State()).free|
    {
      hide Inv, Flat, CopyInv, Copied, FillOne, PageTable.Walk, Words, IsValid, Ppn, Flags, PX, WellTyped, NoRoom;
      ghost var m := State();
      CopyLook(m0, m, parent, child, a);
      var t := Walk(parent, a, false);
      if t.None? || !IsValid(Words(State(), t.value)[PX(0, a)]) {
        return true;
      }
      var pte := Words(State(), t.value)[PX(0, a)];
      var content := if Ppn(pte) in pages && pages[Ppn(pte)].Data? then pages[Ppn(pte)].content else 0;
      CopyFill(m0, m, parent, child, a);
      CopyTyped(m0, m, parent, child, a, content);
      CopyTurnFails(m0, m, parent, child, a, content, Flags(pte));
      ok := FillPage(child, a, content, Flags(pte));
    }

    /**
     uvmcopy: on success the child has a private copy of every page of the parent; on
     failure every page below the one that failed is gone from the child and no frame
     is lost. The parent is untouched either way. It fails only at a page that the parent
     has and the child has too, or with at most one frame left in the memory `last` that
     it then cleans up; with three frames for each page an empty child is always filled.
     */
    method Uvmcopy(parent: nat, child: nat, sz: nat) returns (ok: bool, ghost stop: nat, ghost last: Mem)
      requires Inv(State(), parent) && Inv(State(), child) && Disjoint(State(), parent, child)
      requires UserData(State(), parent) && sz <= TRAPFRAME
      modifies this
      ensures Kept(old(State()), State(), child) && Untouched(old(State()), State(), parent)
      ensures Disjoint(State(), parent, child)
      ensures ok ==> Copied(old(State()), State(), parent, child, PgRoundUp(sz))
      ensures !ok ==> stop < sz && forall vb: nat :: Aligned(vb) && vb < MAXVA ==>
        if vb < stop then !IsValid(Flat(State(), child, vb))
            else Flat(State(), child, vb) == old(Flat(State(), child, vb))
      ensures !ok ==> IsValid(old(Flat(State(), parent, stop)))
      ensures !ok ==> Kept(old(State()), last, child) && Copied(old(State()), last, parent, child, stop)
      ensures !ok ==> IsValid(old(Flat(State(), child, stop))) || |last.free| <= 1
      ensures !ok && |old(State()).free| >= Enough(0, PgRoundUp(sz)) ==> IsValid(old(Flat(State(), child, stop)))
      ensures WellTyped(old(State()), parent) && WellTyped(old(State()), child) ==>
        WellTyped(State(), parent) && WellTyped(State(), child)
    {
      hide *;
      ghost var m0 := State();
      CopyStart(m0, parent, child);
      RoundUpBelow(sz);
      AlignedZero();
      EnoughNone(0);
      stop, last := 0, m0;
      var i := 0;
      while i < sz
        invariant 0 <= i <= PgRoundUp(sz) && Aligned(i)
        invariant CopyInv(m0, State(), parent, child) && Copied(m0, State(), parent, child, i)
        invariant WellTyped(m0, parent) && WellTyped(m0, child) ==> WellTyped(State(), child)
        invariant |State().free| + Enough(0, i) >= |m0.free|
        decreases sz - i
      {
        NextBelow(i, sz);
        EnoughMore(0, i, sz);
        ghost var before := State();
        var turn := CopyTurn(parent, child, i, m0);
        if !turn {
          ghost var m := State();
          CopyInvFacts(m0, m, parent, child);
          HadRoom(before, m, child, i);
          last := m;
          Uvmunmap(child, 0, i);
          CopyUndone(m0, m, State(), parent, child, i);
          if WellTyped(m0, parent) {
            OtherTyped(m0, State(), parent, child);
          }
          return false, i, last;
        }
        i := i + PGSIZE;
      }
      RoundUpIs(i, sz);
      CopyInvFacts(m0, State(), parent, child);
      if WellTyped(m0, parent) {
        OtherTyped(m0, State(), parent, child);
      }
      return true, i, last;
    }

    /** uvmcreate: an empty page table that holds one frame, and shares nothing with those that exist. */
    method Uvmcreate() returns (root: Option<nat>)
      requires Distinct(free)
      modifies this
      ensures root.None? ==> State() == old(State()) && free == []
      ensures root.Some? ==> old(free) != [] && root.value == old(free)[0] && State() == TakeTable(old(State()))
      ensures root.Some? ==> Inv(State(), root.value) && WellTyped(State(), root.value)
      ensures root.Some? ==> forall f: nat :: Holds(State(), root.value, f) <==> f == root.value
      ensures root.Some? ==> forall a: nat :: Inv(old(State()), a) ==>
        Inv(State(), a) && FlatSame(old(State()), State(), a) && Disjoint(State(), a, root.value)
    {
      ghost var m := State();
      hide Inv, Distinct, Holds, WellTyped, Disjoint, FlatSame;
      if m.free != [] {
        CreateKeeps(m);
        forall a: nat | Inv(m, a)
          ensures Inv(TakeTable(m), a) && FlatSame(m, TakeTable(m), a) && Disjoint(TakeTable(m), a, m.free[0])
        {
          CreateOthers(m, a);
        }
      }
      root := Kalloc();
      if root.Some? {
        pages := pages[root.value := Table(ZeroTable())];
      }
    }

    /** freewalk: frees the table and every table below it, each once, and touches nothing else. */
    method Freewalk(table: nat, ghost top: Node, ghost root: nat, ghost m0: Mem)
      requires TreeInv(m0, root) && WellTyped(m0, root) && NodeAt(m0, root, top) == Some(table)
      requires Intact(m0, State(), root, top) && Distinct(State().free)
      modifies this
      ensures Swept(m0, old(State()), State(), root, top)
      decreases if top.Root? then 2 else if top.Mid? then 1 else 0
    {
      hide *;
      ghost var before := State();
      WalkStart(m0, before, root, top, table);
      var i := 0;
      while i < 512
        invariant 0 <= i <= 512 && Walked(m0, State(), root, top, table, i, before)
      {
        FreewalkTurn(table, i, top, root, m0, before);
        i := i + 1;
      }
      WalkEnd(m0, State(), root, top, table, before);
      Kfree(table);
    }

    /** One turn of the loop of freewalk. */
    method FreewalkTurn(table: nat, i: nat, ghost top: Node, ghost root: nat, ghost m0: Mem, ghost before: Mem)
      requires TreeInv(m0, root) && WellTyped(m0, root) && NodeAt(m0, root, top) == Some(table) && i < 512
      requires Intact(m0, before, root, top) && Walked(m0, State(), root, top, table, i, before)
      modifies this
      ensures Walked(m0, State(), root, top, table, i + 1, before)
      decreases if top.Root? then 2 else if top.Mid? then 1 else 0, 0
    {
      TurnWord(m0, State(), root, top, table, i, before);
      var pte := Words(State(), table)[i];
      hide NodeAt, WellTyped, Walked, Intact, IsValid, IsLeaf, Ppn, TreeInv, Swept, Words, Distinct;
      if IsValid(pte) && !IsLeaf(pte) {
        BelowIntact(m0, State(), root, top, table, i, before);
        ghost var mid := State();
        Freewalk(Ppn(pte), Child(top, i), root, m0);
        WalkedMore(m0, State(), root, top, table, i, before, mid);
        ClearWord(table, i);
      }
    }

    /**
     * uvmfree: the pages below the size, then every table, go back to the free list, each once. A frame is lost
     * exactly if it is a user page at or above the rounded size.
     */
    method Uvmfree(root: nat, sz: nat)
      requires Inv(State(), root) && WellTyped(State(), root) && sz <= TRAPFRAME
      modifies this
      ensures Distinct(State().free)
      ensures forall f: nat :: f in State().free <==>
        (f in old(State()).free || Holds(old(State()), root, f)) && !Stranded(old(State()), root, PgRoundUp(sz), f)
    {
      hide *;
      ghost var m0 := State();
      RoundUpBelow(sz);
      AlignedZero();
      UnmapStart(m0, root, 0);
      if sz > 0 {
        Uvmunmap(root, 0, PgRoundUp(sz));
      } else {
        RoundUpZero();
      }
      ghost var m1 := State();
      FreeStart(m0, m1, root);
      Freewalk(root, Root, root, m1);
      AllFreed(m0, m1, State(), root, PgRoundUp(sz));
    }

    lemma {:induction false} StateIs()
      ensures State().free == free
    {
    }

    /** One call on the page table `root`, which may have been made by a fork of `parent`. */
    method Perform(root: nat, parent: Option<nat>, call: Call)
      requires CallOk(call, parent) && Alive(State(), root, parent)
      modifies this
      ensures Kept(old(State()), State(), root) && Alive(State(), root, parent)
    {
      hide *;
      ghost var m := State();
      AliveFacts(m, root, parent);
      CallFacts(call, parent);
      match call {
        case Alloc(oldsz, newsz, xperm) =>
          var _, _, _, _ := Uvmalloc(root, oldsz, newsz, xperm);
        case Dealloc(oldsz, newsz) =>
          var _ := Uvmdealloc(root, oldsz, newsz);
        case Unmap(va, end) =>
          Uvmunmap(root, va, end);
        case CopyFrom(sz) =>
          var _, _, _ := Uvmcopy(parent.value, root, sz);
        case Fault(va, content, flags) =>
          FaultKeeps(m, root, va, content, flags);
          var _ := FillPage(root, va, content, flags);
      }
      StillAlive(m, State(), root, parent);
    }

    /**
     The life of a page table: it is created, any calls are made on it, and it is freed.
     The free frames are those there were before, less those of pages left mapped at or
     above the size given to uvmfree; `last` is the memory before uvmfree.
     */
    method Life(parent: Option<nat>, calls: seq<Call>, sz: nat) returns (made: bool, ghost root: nat, ghost last: Mem)
      requires Distinct(free) && (parent.Some? ==> Source(State(), parent.value))
      requires sz <= TRAPFRAME && forall k :: 0 <= k < |calls| ==> CallOk(calls[k], parent)
      modifies this
      ensures !made ==> State() == old(State())
      ensures made ==> forall f: nat :: f in State().free <==> f in old(free) && !Stranded(last, root, PgRoundUp(sz), f)
    {
      hide *;
      StateIs();
      ghost var m0 := State();
      root, last := 0, m0;
      var r := Uvmcreate();
      if r.None? {
        return false, root, last;
      }
      root := r.value;
      ghost var m1 := State();
      NewAlive(m0, m1, root, parent);
      KeptRefl(m1, root);
      var k := 0;
      while k < |calls|
        invariant 0 <= k <= |calls| && Kept(m1, State(), root) && Alive(State(), root, parent)
      {
        ghost var m := State();
        Perform(r.value, parent, calls[k]);
        KeptTrans(m1, m, State(), root);
        k := k + 1;
      }
      last := State();
      AliveFacts(last, root, parent);
      Uvmfree(r.value, sz);
      LifeConserved(m0, m1, last, State(), root, PgRoundUp(sz));
      made := true;
    }

    /**
     A frame is lost: the page table of a process is created, a fault maps a page at or above
     the process size, and uvmfree leaves that page's frame behind, and no other.
     */
    method LoseFrame(va: nat, content: int, flags: nat, sz: nat)
      requires Distinct(free) && |free| >= 4
      requires Aligned(va) && PgRoundUp(sz) <= va < TRAPFRAME && sz <= TRAPFRAME && flags < 1024 && IsLeaf(flags)
      modifies this
      ensures forall f: nat :: f in State().free <==> f in old(free) && f != old(free)[1]
    {
      hide *;
      StateIs();
      ghost var m0 := State();
      var r := Uvmcreate();
      StateIs();
      ghost var m1, root := State(), m0.free[0];
      FaultKeeps(m1, root, va, content, flags);
      FaultStrands(m0, va, content, flags, PgRoundUp(sz));
      BelowMax(va);
      var _ := FillPage(r.value, va, content, flags);
      ghost var m2 := State();
      KeptInv(m1, m2, root);
      Uvmfree(r.value, sz);
      LifeConserved(m0, m1, m2, State(), root, PgRoundUp(sz));
    }

    method ClearWord(table: nat, i: nat)
      requires i < 512
      modifies this`pages
      ensures State() == SetWord(old(State()), table, i, 0)
    {
      pages := pages[table := Table(Words(State(), table)[i := 0])];
    }
  }

  /** Where mapping stops, the page table is as it was. */
  lemma {:induction false} RangeEnd(m: Mem, m': Mem, root: nat, va: nat, a: nat, f: nat, flags: nat)
    requires OrV(flags) < 1024 && RangeMapped(m, m', root, va, a, f, flags) && Aligned(a) && a <= TRAPFRAME
    ensures Flat(m', root, a) == Flat(m, root, a)
  {
    hide Flat, MakePte, OrV;
  }

  /** A page could not be filled, from `m` to `m'`: it was there already, or no memory was left for it or its tables. */
  ghost predicate NoRoom(m: Mem, m': Mem, root: nat, a: nat) {
    IsValid(Flat(m, root, a)) || (|m.free| <= 2 && |m'.free| <= 1)
  }

  /** Filling the page at `a` of the child fails only for one of two reasons, and takes at most three frames. */
  lemma {:induction false} CopyTurnFails(m0: Mem, m: Mem, parent: nat, child: nat, a: nat, c: int, flags: nat)
    requires CopyInv(m0, m, parent, child) && Copied(m0, m, parent, child, a) && Aligned(a) && a < TRAPFRAME
    requires flags < 1024
    ensures Flat(m, child, a) == Flat(m0, child, a)
    ensures var (m', ok) := FillOne(m, child, a, c, flags);
      (!ok ==> NoRoom(m, m', child, a)) && |m'.free| + 3 >= |m.free|
  {
    hide FillOne, Flat, IsValid, Inv, CopyInv;
    CopyInvFacts(m0, m, parent, child);
    FillOneFails(m, child, a, c, flags);
    FillOneFree(m, child, a, c, flags);
  }

  lemma {:induction false} AllocTurnFails(m0: Mem, m: Mem, root: nat, lo: nat, a: nat, flags: nat)
    requires Inv(m, root) && Filled(m0, m, root, lo, a, flags) && Aligned(a) && lo <= a < TRAPFRAME && flags < 1024
    ensures Flat(m, root, a) == Flat(m0, root, a)
    ensures var (m', ok) := FillOne(m, root, a, 0, flags);
      (!ok ==> NoRoom(m, m', root, a)) && |m'.free| + 3 >= |m.free|
  {
    hide FillOne, Flat, IsValid, Inv, PageIs;
    FillOneFails(m, root, a, 0, flags);
    FillOneFree(m, root, a, 0, flags);
  }

  /** The pages between two bounds, with three frames for each. */
  function Enough(lo: nat, hi: nat): nat { if lo < hi then 3 * ((hi - lo) / PGSIZE) else 0 }

  lemma {:induction false} EnoughMore(lo: nat, a: nat, n: nat)
    requires Aligned(lo) && Aligned(a) && lo <= a < n <= TRAPFRAME
    ensures Enough(lo, lo) == 0 && Enough(lo, a + PGSIZE) == Enough(lo, a) + 3
    ensures Enough(lo, a) + 3 <= Enough(lo, PgRoundUp(n))
  {
    assert (a + PGSIZE - lo) / PGSIZE == (a - lo) / PGSIZE + 1;
    assert (a + PGSIZE - lo) / PGSIZE <= (PgRoundUp(n) - lo) / PGSIZE by {
      assert a + PGSIZE <= PgRoundUp(n);
    }
  }

  lemma {:induction false} EnoughNone(lo: nat)
    ensures Enough(lo, lo) == 0
  {
  }

  /** With three free frames and the page not there, it cannot have failed. */
  lemma {:induction false} HadRoom(m: Mem, m': Mem, root: nat, a: nat)
    requires NoRoom(m, m', root, a)
    ensures IsValid(Flat(m, root, a)) || |m'.free| <= 1
    ensures |m.free| >= 3 ==> IsValid(Flat(m, root, a))
  {
  }

  /** The flags uvmalloc maps with: R and U besides what the caller asks for. */
  function UserFlags(xperm: nat): nat {
    var x := if xperm / PTE_R % 2 == 1 then xperm else xperm + PTE_R;
    if x / PTE_U % 2 == 1 then x else x + PTE_U
  }

  lemma {:induction false} UserFlagsLeaf(xperm: nat)
    requires xperm < 1024
    ensures UserFlags(xperm) < 1024 && IsLeaf(UserFlags(xperm))
  {
  }

  lemma {:induction false} CopyTyped(m0: Mem, m: Mem, parent: nat, child: nat, a: nat, c: int)
    requires CopyInv(m0, m, parent, child) && Aligned(a) && a < TRAPFRAME && IsValid(Flat(m0, parent, a))
    ensures Flags(Flat(m0, parent, a)) < 1024
    ensures WellTyped(m0, parent) && WellTyped(m, child) ==>
      WellTyped(FillOne(m, child, a, c, Flags(Flat(m0, parent, a))).0, child)
  {
    KeptInv(m0, m, child);
    ValidFlags(Flat(m0, parent, a));
    hide Inv, Flat, FillOne, WellTyped, Flags, IsLeaf;
    if WellTyped(m0, parent) && WellTyped(m, child) {
      FlatLeaf(m0, parent, a);
      FillOneTyped(m, child, a, c, Flags(Flat(m0, parent, a)));
    }
  }

  /**
   * From uvmcreate to uvmfree nothing is lost but user pages at or above the size given to uvmfree: whatever was
   * done in between that kept its frames to itself, the free frames are those there were before, less such pages.
   */
  lemma {:induction false} LifeConserved(m0: Mem, m1: Mem, m2: Mem, m3: Mem, root: nat, end: nat)
    requires Distinct(m0.free) && m0.free != [] && root == m0.free[0] && m1 == TakeTable(m0) && Kept(m1, m2, root)
    requires forall f: nat :: f in m3.free <==> (f in m2.free || Holds(m2, root, f)) && !Stranded(m2, root, end, f)
    ensures forall f: nat :: f in m3.free <==> f in m0.free && !Stranded(m2, root, end, f)
  {
    CreateKeeps(m0);
    hide Inv, Holds, Stranded, Distinct, TakeTable, SameOthers;
  }

  /** Frame `f` is a user page mapped at or above `end`. */
  ghost predicate Stranded(m: Mem, root: nat, end: nat, f: nat) {
    exists va :: Mapped(m, root, va) && end <= va && Ppn(Flat(m, root, va)) == f
  }

  /** A call on a page table. */
  datatype Call =
    | Alloc(oldsz: nat, newsz: nat, xperm: nat)
    | Dealloc(oldsz: nat, newsz: nat)
    | Unmap(va: nat, end: nat)
    | CopyFrom(sz: nat)
    | Fault(va: nat, content: int, flags: nat)

  /** What the callers in the kernel see to. */
  predicate CallOk(call: Call, parent: Option<nat>) {
    match call
    case Alloc(_, newsz, xperm) => newsz <= TRAPFRAME && xperm < 1024
    case Dealloc(oldsz, _) => oldsz <= TRAPFRAME
    case Unmap(va, end) => Aligned(va) && Aligned(end) && va <= end <= TRAPFRAME
    case CopyFrom(sz) => parent.Some? && sz <= TRAPFRAME
    case Fault(va, _, flags) => Aligned(va) && va < TRAPFRAME && flags < 1024 && IsLeaf(flags)
  }

  /** A page table that uvmcopy can copy from. */
  ghost predicate Source(m: Mem, a: nat) {
    Inv(m, a) && UserData(m, a) && WellTyped(m, a)
  }

  ghost predicate Alive(m: Mem, root: nat, parent: Option<nat>) {
    && Inv(m, root) && WellTyped(m, root)
    && (parent.Some? ==> Source(m, parent.value) && Disjoint(m, parent.value, root))
  }

  lemma {:induction false} AliveFacts(m: Mem, root: nat, parent: Option<nat>)
    requires Alive(m, root, parent)
    ensures Inv(m, root) && WellTyped(m, root)
    ensures parent.Some? ==> var a := parent.value;
      Inv(m, a) && UserData(m, a) && WellTyped(m, a) && Disjoint(m, a, root)
  {
  }

  lemma {:induction false} CallFacts(call: Call, parent: Option<nat>)
    requires CallOk(call, parent)
    ensures call.Alloc? ==> call.newsz <= TRAPFRAME && call.xperm < 1024
    ensures call.Dealloc? ==> call.oldsz <= TRAPFRAME
    ensures call.Unmap? ==> Aligned(call.va) && Aligned(call.end) && call.va <= call.end <= TRAPFRAME
    ensures call.CopyFrom? ==> parent.Some? && call.sz <= TRAPFRAME
    ensures call.Fault? ==> Aligned(call.va) && call.va < TRAPFRAME && call.flags < 1024 && IsLeaf(call.flags)
  {
  }

  lemma {:induction false} BelowMax(va: nat)
    requires va < TRAPFRAME
    ensures va < MAXVA
  {
  }

  lemma {:induction false} FaultKeeps(m: Mem, root: nat, va: nat, c: int, flags: nat)
    requires Inv(m, root) && WellTyped(m, root) && Aligned(va) && va < TRAPFRAME && flags < 1024 && IsLeaf(flags)
    ensures va < MAXVA && Kept(m, FillOne(m, root, va, c, flags).0, root)
    ensures WellTyped(FillOne(m, root, va, c, flags).0, root)
  {
    hide *;
    BelowMax(va);
    FillOneKeeps(m, root, va, c, flags);
    FillOneTyped(m, root, va, c, flags);
  }

  /** The frame of a page faulted in at or above `end` is the only one stranded. */
  lemma {:induction false} FaultStrands(m0: Mem, va: nat, c: int, flags: nat, end: nat)
    requires Distinct(m0.free) && |m0.free| >= 4 && Aligned(va) && end <= va < TRAPFRAME && flags < 1024
    ensures var m2 := FillOne(TakeTable(m0), m0.free[0], va, c, flags).0;
      forall f: nat :: Stranded(m2, m0.free[0], end, f) <==> f == m0.free[1]
  {
    var m1, root := TakeTable(m0), m0.free[0];
    CreateKeeps(m0);
    NothingMapped(m1, root);
    hide Inv, Flat, IsValid, Ppn, Holds, WellTyped, FillOne, NodeAt;
    assert !Mapped(m1, root, va);
    BelowMax(va);
    FillOneMaps(m1, root, va, c, flags);
    FillOneKeeps(m1, root, va, c, flags);
    var m2 := FillOne(m1, root, va, c, flags).0;
    forall vb: nat | Mapped(m2, root, vb) ensures vb == va {
      assert !Mapped(m1, root, vb);
    }
  }

  lemma {:induction false} NothingMapped(m: Mem, root: nat)
    requires Inv(m, root) && forall f: nat :: Holds(m, root, f) <==> f == root
    ensures forall va: nat :: !Mapped(m, root, va)
  {
    hide Flat, IsValid, Ppn;
    assert NodeAt(m, root, Root) == Some(root);
    assert IsTable(m, root, root);
    assert forall va: nat :: Mapped(m, root, va) ==>
      Holds(m, root, Ppn(Flat(m, root, va))) && !IsTable(m, root, Ppn(Flat(m, root, va)));
  }

  lemma {:induction false} UserDataKept(m: Mem, m': Mem, a: nat)
    requires UserData(m, a) && FlatSame(m, m', a)
    requires forall vb: nat, c :: PageIs(m, a, vb, c) ==> PageIs(m', a, vb, c)
    ensures UserData(m', a)
  {
    hide Flat, Ppn, IsValid;
    forall va: nat | Mapped(m', a, va)
      ensures Ppn(Flat(m', a, va)) in m'.pages && m'.pages[Ppn(Flat(m', a, va))].Data?
    {
      assert Mapped(m, a, va);
      assert PageIs(m, a, va, m.pages[Ppn(Flat(m, a, va))]);
    }
  }

  /** Work on one page table leaves the other as it is. */
  lemma {:induction false} StillAlive(m: Mem, m': Mem, root: nat, parent: Option<nat>)
    requires Alive(m, root, parent) && Kept(m, m', root) && WellTyped(m', root)
    ensures Alive(m', root, parent)
  {
    hide Inv, UserData, WellTyped, Disjoint, SameOthers, Accounted, FlatSame, PageIs, Holds;
    if parent.Some? {
      var a := parent.value;
      OtherKept(m, m', a, root);
      OtherTyped(m, m', a, root);
      UserDataKept(m, m', a);
    }
  }

  lemma {:induction false} NewAlive(m0: Mem, m1: Mem, root: nat, parent: Option<nat>)
    requires Distinct(m0.free) && m0.free != [] && root == m0.free[0] && m1 == TakeTable(m0)
    requires Inv(m1, root) && WellTyped(m1, root)
    requires parent.Some? ==> Source(m0, parent.value)
    ensures Alive(m1, root, parent)
  {
    hide Inv, UserData, WellTyped, Disjoint, FlatSame, PageIs, Distinct, TakeTable;
    if parent.Some? {
      var a := parent.value;
      CreateOthers(m0, a);
      forall vb: nat, c | PageIs(m0, a, vb, c) ensures PageIs(m1, a, vb, c) {
        CreatePages(m0, a, vb, c);
      }
      UserDataKept(m0, m1, a);
    }
  }

  /** Taking a free frame leaves the pages of a page table alone. */
  lemma {:induction false} CreatePages(m: Mem, a: nat, vb: nat, c: Page)
    requires Inv(m, a) && m.free != [] && FlatSame(m, TakeTable(m), a) && PageIs(m, a, vb, c)
    ensures PageIs(TakeTable(m), a, vb, c)
  {
    hide Flat, Ppn, IsValid, NodeAt;
    assert m.free[0] in m.free;
  }

  lemma {:induction false} RoundUpZero()
    ensures PgRoundUp(0) == 0
  {
  }

  lemma {:induction false} FreeStart(m0: Mem, m: Mem, root: nat)
    requires Kept(m0, m, root)
    ensures TreeInv(m, root) && NodeAt(m, root, Root) == Some(root) && Intact(m, m, root, Root) && Distinct(m.free)
  {
    hide Distinct, LeafInv, Words, Accounted, SameOthers;
  }

  /** After uvmunmap the user pages that are left are those above the range. */
  lemma {:induction false} LeftMapped(m: Mem, m': Mem, root: nat, end: nat, va: nat)
    requires RangeGone(m, m', root, 0, end) && end <= TRAPFRAME
    ensures Mapped(m', root, va) <==> Mapped(m, root, va) && end <= va
    ensures Mapped(m', root, va) ==> Flat(m', root, va) == Flat(m, root, va)
  {
    hide Flat, IsValid, Aligned;
    if va < TRAPFRAME && Aligned(va) {
      assert va < MAXVA;
    }
  }

  lemma {:induction false} LeftHeld(m: Mem, m': Mem, root: nat, end: nat, f: nat)
    requires RangeGone(m, m', root, 0, end) && end <= TRAPFRAME
    ensures Holds(m', root, f) <==> IsTable(m', root, f) || Stranded(m, root, end, f)
  {
    forall va: nat ensures Mapped(m', root, va) <==> Mapped(m, root, va) && end <= va
      ensures Mapped(m', root, va) ==> Flat(m', root, va) == Flat(m, root, va)
    {
      LeftMapped(m, m', root, end, va);
    }
    hide Mapped, Flat, Ppn, IsTable, RangeGone;
  }

  lemma {:induction false} AllFreed(m0: Mem, m1: Mem, m2: Mem, root: nat, end: nat)
    requires Kept(m0, m1, root) && RangeGone(m0, m1, root, 0, end) && end <= TRAPFRAME && Swept(m1, m1, m2, root, Root)
    ensures Distinct(m2.free)
    ensures forall f: nat :: f in m2.free <==>
      (f in m0.free || Holds(m0, root, f)) && !Stranded(m0, root, end, f)
  {
    forall f: nat ensures f in m2.free <==> (f in m0.free || Holds(m0, root, f)) && !Stranded(m0, root, end, f) {
      LeftHeld(m0, m1, root, end, f);
      if Stranded(m0, root, end, f) {
        StrandedApart(m0, m1, root, end, f);
      }
      assert InSub(m1, root, Root, f) <==> IsTable(m1, root, f);
      hide Inv, Holds, Stranded, IsTable, RangeGone, InSub, SameOthers, Distinct;
    }
  }

  lemma {:induction false} StrandedApart(m0: Mem, m1: Mem, root: nat, end: nat, f: nat)
    requires Inv(m1, root) && RangeGone(m0, m1, root, 0, end) && end <= TRAPFRAME && Stranded(m0, root, end, f)
    ensures f !in m1.free && !IsTable(m1, root, f)
  {
    var va :| Mapped(m0, root, va) && end <= va && Ppn(Flat(m0, root, va)) == f;
    LeftMapped(m0, m1, root, end, va);
    assert Mapped(m1, root, va);
  }

  /** The tables at and below `top` are in `m` as they are in `m0`, and not free. */
  ghost predicate Intact(m0: Mem, m: Mem, root: nat, top: Node) {
    forall f: nat :: InSub(m0, root, top, f) ==> Words(m, f) == Words(m0, f) && f !in m.free
  }

  /** Exactly the tables at and below `top` have been freed, and nothing else has changed. */
  ghost predicate Swept(m0: Mem, m: Mem, m': Mem, root: nat, top: Node) {
    && Distinct(m'.free)
    && (forall f: nat :: f in m'.free <==> f in m.free || InSub(m0, root, top, f))
    && (forall f: nat :: !InSub(m0, root, top, f) ==>
          (f in m'.pages <==> f in m.pages) && (f in m'.pages ==> m'.pages[f] == m.pages[f]))
  }

  /** Freewalk in the middle of a table: what has been freed, and that all else is as before. */
  ghost predicate Walked(m0: Mem, m: Mem, root: nat, top: Node, table: nat, k: nat, before: Mem) {
    && Distinct(m.free)
    && (forall f: nat :: f in m.free <==> f in before.free || Passed(m0, root, top, k, f))
    && (forall f: nat :: !Passed(m0, root, top, k, f) && f != table ==>
          (f in m.pages <==> f in before.pages) && (f in m.pages ==> m.pages[f] == before.pages[f]))
    && (forall j: nat :: k <= j < PTES ==> Words(m, table)[j] == Words(m0, table)[j])
  }

  lemma {:induction false} WalkStart(m0: Mem, m: Mem, root: nat, top: Node, table: nat)
    requires NodeAt(m0, root, top) == Some(table) && Intact(m0, m, root, top) && Distinct(m.free)
    ensures Walked(m0, m, root, top, table, 0, m)
  {
    assert InSub(m0, root, top, table) by { assert Under(top, top); }
    forall f: nat ensures !Passed(m0, root, top, 0, f) {
      PassedStep(m0, root, top, 0, f);
    }
  }

  lemma {:induction false} WalkEnd(m0: Mem, m: Mem, root: nat, top: Node, table: nat, before: Mem)
    requires TreeInv(m0, root) && NodeAt(m0, root, top) == Some(table) && Walked(m0, m, root, top, table, 512, before)
    requires Intact(m0, before, root, top)
    ensures Swept(m0, before, PageTable.Kfree(m, table), root, top)
  {
    forall f: nat ensures InSub(m0, root, top, f) <==> f == table || Passed(m0, root, top, PTES, f) {
      PassedAll(m0, root, top, f);
    }
    NotPassed(m0, root, top, table);
    OneMoreFree(m, table);
    hide NodeAt, InSub, Passed, TreeInv, Distinct, Words;
  }

  lemma {:induction false} OneMoreFree(m: Mem, f: nat)
    requires Distinct(m.free) && f !in m.free
    ensures Distinct(PageTable.Kfree(m, f).free)
    ensures forall g: nat :: g in PageTable.Kfree(m, f).free <==> g == f || g in m.free
  {
  }

  /** Reading word `i`: if it is not a pointer there is nothing to free below it. */
  lemma {:induction false} TurnWord(m0: Mem, m: Mem, root: nat, top: Node, table: nat, i: nat, before: Mem)
    requires TreeInv(m0, root) && WellTyped(m0, root) && NodeAt(m0, root, top) == Some(table) && i < 512
    requires Walked(m0, m, root, top, table, i, before)
    ensures var w := Words(m, table)[i];
      && Distinct(m.free)
      && (IsValid(w) && !IsLeaf(w) ==> !top.Low? && NodeAt(m0, root, Child(top, i)) == Some(Ppn(w)))
      && (!(IsValid(w) && !IsLeaf(w)) ==> Walked(m0, m, root, top, table, i + 1, before))
  {
    WordBelow(m0, root, top, table, i);
    hide NodeAt, Passed, IsValid, IsLeaf, Ppn;
  }

  /** The subtree to be freed next has not been touched. */
  lemma {:induction false} BelowIntact(m0: Mem, m: Mem, root: nat, top: Node, table: nat, i: nat, before: Mem)
    requires TreeInv(m0, root) && NodeAt(m0, root, top) == Some(table) && !top.Low?
    requires Intact(m0, before, root, top) && Walked(m0, m, root, top, table, i, before)
    ensures Intact(m0, m, root, Child(top, i))
  {
    hide NodeAt;
    forall f: nat | InSub(m0, root, Child(top, i), f) ensures Words(m, f) == Words(m0, f) && f !in m.free {
      FreshBelow(m0, root, top, i, f);
    }
  }

  lemma {:induction false} WalkedMore(m0: Mem, m: Mem, root: nat, top: Node, table: nat, i: nat, before: Mem, mid: Mem)
    requires TreeInv(m0, root) && NodeAt(m0, root, top) == Some(table) && !top.Low? && i < 512
    requires Walked(m0, mid, root, top, table, i, before) && Swept(m0, mid, m, root, Child(top, i))
    ensures Walked(m0, SetWord(m, table, i, 0), root, top, table, i + 1, before)
  {
    forall f: nat
      ensures Passed(m0, root, top, i + 1, f) <==> Passed(m0, root, top, i, f) || InSub(m0, root, Child(top, i), f)
    {
      PassedStep(m0, root, top, i, f);
    }
    if InSub(m0, root, Child(top, i), table) {
      FreshBelow(m0, root, top, i, table);
    }
    WordsKept(mid, m, table);
    ClearedWords(m, table, i);
    hide NodeAt, InSub, Passed, TreeInv, Distinct, Words;
  }

  lemma {:induction false} WordsKept(m: Mem, m': Mem, f: nat)
    requires (f in m'.pages <==> f in m.pages) && (f in m'.pages ==> m'.pages[f] == m.pages[f])
    ensures Words(m', f) == Words(m, f)
  {
  }

  lemma {:induction false} ClearedWords(m: Mem, table: nat, i: nat)
    requires i < 512
    ensures forall j: nat :: i < j < 512 ==> Words(SetWord(m, table, i, 0), table)[j] == Words(m, table)[j]
  {
  }

  lemma {:induction false} NotPassed(m: Mem, root: nat, top: Node, table: nat)
    requires TreeInv(m, root) && NodeAt(m, root, top) == Some(table)
    ensures InSub(m, root, top, table) && !Passed(m, root, top, PTES, table)
  {
    assert Under(top, top);
    if Passed(m, root, top, PTES, table) {
      var j: nat :| j < PTES && InSub(m, root, Child(top, j), table);
      SubsApart(m, root, top, j, j, table);
    }
  }

  lemma {:induction false} AlignedZero()
    ensures Aligned(0)
  {
  }

  lemma {:induction false} CopyStart(m: Mem, parent: nat, child: nat)
    requires Inv(m, parent) && Inv(m, child) && Disjoint(m, parent, child) && UserData(m, parent)
    ensures CopyInv(m, m, parent, child) && Copied(m, m, parent, child, 0) && Aligned(0)
  {
    KeptRefl(m, child);
    hide Inv, Flat, PageIs;
  }

  lemma {:induction false} CopyInvFacts(m0: Mem, m: Mem, parent: nat, child: nat)
    requires CopyInv(m0, m, parent, child)
    ensures Inv(m, child) && Inv(m, parent) && Kept(m0, m, child) && Untouched(m0, m, parent)
    ensures Disjoint(m, parent, child)
  {
    KeptInv(m0, m, child);
    hide Inv;
  }

  /** What walk finds in the parent, and that there is nothing to do for a page that is not there. */
  lemma {:induction false} CopyLook(m0: Mem, m: Mem, parent: nat, child: nat, a: nat)
    requires CopyInv(m0, m, parent, child) && Copied(m0, m, parent, child, a) && Aligned(a) && a < TRAPFRAME
    ensures a < MAXVA
    ensures var (m', t) := PageTable.Walk(m, parent, a, false);
      && m' == m
      && (t.Some? ==> Words(m, t.value)[PX(0, a)] == Flat(m0, parent, a))
      && (t.None? || !IsValid(Flat(m0, parent, a)) ==> Copied(m0, m, parent, child, a + PGSIZE))
  {
    WalkKeeps(m, parent, a, false);
    var t := PageTable.Walk(m, parent, a, false).1;
    if t.Some? {
      FlatWord(m, parent, a, t.value);
    } else {
      NoLowFlat(m, parent, a);
    }
    assert Flat(m, parent, a) == Flat(m0, parent, a);
    if !IsValid(Flat(m0, parent, a)) {
      CopySkip(m0, m, parent, child, a);
    }
    hide Flat, NodeAt, Inv, PageTable.Walk, Copied, CopyInv;
  }

  lemma {:induction false} CopySkip(m0: Mem, m: Mem, parent: nat, child: nat, a: nat)
    requires Copied(m0, m, parent, child, a) && Aligned(a) && !IsValid(Flat(m0, parent, a))
    ensures Copied(m0, m, parent, child, a + PGSIZE)
  {
    hide Flat, IsValid, CopyOf;
    forall vb: nat | Aligned(vb) && a <= vb < a + PGSIZE ensures vb == a {
      AlignedNext(a, vb);
    }
  }

  /** Filling the child's page with the parent's contents. */
  lemma {:induction false} CopyFill(m0: Mem, m: Mem, parent: nat, child: nat, a: nat)
    requires CopyInv(m0, m, parent, child) && Copied(m0, m, parent, child, a) && Aligned(a) && a < TRAPFRAME
    requires IsValid(Flat(m0, parent, a))
    ensures Inv(m, child) && Flags(Flat(m0, parent, a)) < 1024
    ensures var f := Ppn(Flat(m0, parent, a));
      && f in m.pages && m.pages[f].Data? && f in m0.pages && m.pages[f] == m0.pages[f]
      && var (m', ok) := FillOne(m, child, a, m.pages[f].content, Flags(Flat(m0, parent, a)));
         && CopyInv(m0, m', parent, child)
         && Copied(m0, m', parent, child, if ok then a + PGSIZE else a)
  {
    var w := Flat(m0, parent, a);
    var f := Ppn(w);
    assert Mapped(m0, parent, a);
    assert PageIs(m0, parent, a, m0.pages[f]);
    assert Flat(m, parent, a) == w;
    KeptInv(m0, m, child);
    ValidFlags(w);
    var c := m.pages[f].content;
    FillOneKeeps(m, child, a, c, Flags(w));
    var (m', ok) := FillOne(m, child, a, c, Flags(w));
    CopyInvStep(m0, m, m', parent, child);
    CopiedStep(m0, m, m', parent, child, a, ok);
    hide FillOne, Flat, Inv, Copied, CopyInv, NodeAt, Holds;
  }

  lemma {:induction false} ValidFlags(w: nat)
    requires IsValid(w)
    ensures Flags(w) < 1024 && OrV(Flags(w)) == Flags(w)
  {
    assert w == w / 1024 * 1024 + w % 1024;
    LowBits(w / 1024, w % 1024);
  }

  lemma {:induction false} CopyInvStep(m0: Mem, m: Mem, m': Mem, parent: nat, child: nat)
    requires CopyInv(m0, m, parent, child) && Kept(m, m', child)
    ensures CopyInv(m0, m', parent, child)
  {
    KeptTrans(m0, m, m', child);
    OtherKept(m, m', parent, child);
    hide Inv, Kept, Flat, PageIs, Holds;
  }

  lemma {:induction false} CopiedStep(m0: Mem, m: Mem, m': Mem, parent: nat, child: nat, a: nat, ok: bool)
    requires Copied(m0, m, parent, child, a) && Aligned(a) && a < TRAPFRAME && IsValid(Flat(m0, parent, a))
    requires Ppn(Flat(m0, parent, a)) in m0.pages
    requires PagesKept(m, m', child, if ok then a else MAXVA)
    requires ok ==> PageIs(m', child, a, m0.pages[Ppn(Flat(m0, parent, a))])
    requires ok ==> Flags(Flat(m', child, a)) == Flags(Flat(m0, parent, a))
    requires ok ==> forall vb: nat :: Aligned(vb) && vb < MAXVA && vb != a ==> Flat(m', child, vb) == Flat(m, child, vb)
    requires !ok ==> FlatSame(m, m', child)
    ensures Copied(m0, m', parent, child, if ok then a + PGSIZE else a)
  {
    hide Flat, PageIs, Flags, IsValid, Ppn;
    forall vb: nat | Aligned(vb) && vb < MAXVA
      ensures if vb < (if ok then a + PGSIZE
          else a) && IsValid(Flat(m0, parent, vb)) then CopyOf(m0, m', parent, child, vb)
              else Flat(m', child, vb) == Flat(m0, child, vb)
    {
      if a <= vb < a + PGSIZE {
        AlignedNext(a, vb);
      }
    }
  }

  lemma {:induction false} CopyUndone(m0: Mem, m: Mem, m': Mem, parent: nat, child: nat, i: nat)
    requires CopyInv(m0, m, parent, child) && Copied(m0, m, parent, child, i)
    requires Kept(m, m', child) && RangeGone(m, m', child, 0, i)
    ensures Kept(m0, m', child) && Untouched(m0, m', parent) && Disjoint(m', parent, child)
    ensures forall vb: nat :: Aligned(vb) && vb < MAXVA ==>
      if vb < i then !IsValid(Flat(m', child, vb)) else Flat(m', child, vb) == Flat(m0, child, vb)
  {
    CopyInvStep(m0, m, m', parent, child);
    hide Inv, Kept, Flat, IsValid, CopyOf;
  }

  lemma {:induction false} RoundUpBelow(sz: nat)
    requires sz <= TRAPFRAME
    ensures PgRoundUp(sz) <= TRAPFRAME
  {
  }

  lemma {:induction false} RoundUpMono(a: nat, b: nat)
    ensures a <= b ==> PgRoundUp(a) <= PgRoundUp(b)
    ensures Aligned(PgRoundUp(a)) && Aligned(PgRoundUp(b))
  {
  }

  lemma {:induction false} RoundUpId(a: nat)
    requires Aligned(a)
    ensures PgRoundUp(a) == a
  {
  }

  lemma {:induction false} NextBelow(a: nat, n: nat)
    requires Aligned(a) && a < n <= TRAPFRAME
    ensures Aligned(a + PGSIZE) && a + PGSIZE <= PgRoundUp(n) && a < TRAPFRAME && PGSIZE > 0
  {
  }

  lemma {:induction false} RoundUpIs(a: nat, n: nat)
    requires Aligned(a) && n <= a
    ensures a <= PgRoundUp(n) ==> a == PgRoundUp(n)
    ensures PgRoundUp(n) <= a
  {
  }

  lemma {:induction false} AllocStart(m: Mem, root: nat, lo: nat, flags: nat)
    requires Inv(m, root)
    ensures Kept(m, m, root) && Filled(m, m, root, lo, lo, flags) && Aligned(PgRoundUp(lo))
  {
    KeptRefl(m, root);
  }

  lemma {:induction false} FilledTurn(m0: Mem, m: Mem, root: nat, lo: nat, a: nat, flags: nat)
    requires Inv(m, root) && Filled(m0, m, root, lo, a, flags) && Aligned(a) && lo <= a < TRAPFRAME && flags < 1024
    ensures var (m', ok) := FillOne(m, root, a, 0, flags);
      Filled(m0, m', root, lo, if ok then a + PGSIZE else a, flags)
  {
    FillOneKeeps(m, root, a, 0, flags);
    var (m', ok) := FillOne(m, root, a, 0, flags);
    if ok {
      OutsideExtended(m0, m, m', root, lo, a);
      FilledMore(m0, m, m', root, lo, a, flags);
    } else {
      FilledNoMore(m0, m, m', root, lo, a, flags);
    }
    hide *;
  }

  lemma {:induction false} FilledMore(m0: Mem, m: Mem, m': Mem, root: nat, lo: nat, a: nat, flags: nat)
    requires Filled(m0, m, root, lo, a, flags) && Aligned(a) && lo <= a < TRAPFRAME
    requires KeptOutside(m0, m', root, lo, a + PGSIZE) && PagesKept(m, m', root, a)
    requires !IsValid(Flat(m, root, a)) && PageIs(m', root, a, Data(0)) && Flags(Flat(m', root, a)) == OrV(flags)
    requires forall vb: nat :: Aligned(vb) && vb < MAXVA && vb != a ==> Flat(m', root, vb) == Flat(m, root, vb)
    ensures Filled(m0, m', root, lo, a + PGSIZE, flags)
  {
    hide Flat, PageIs, OrV, Flags, IsValid, KeptOutside;
    forall vb: nat | Aligned(vb) && vb < MAXVA
      ensures if lo <= vb < a + PGSIZE then
                !IsValid(Flat(m0, root, vb)) && PageIs(m', root, vb, Data(0)) && Flags(Flat(m', root, vb)) == OrV(flags)
              else Flat(m', root, vb) == Flat(m0, root, vb)
    {
      if a <= vb < a + PGSIZE {
        AlignedNext(a, vb);
      }
    }
  }

  lemma {:induction false} FilledNoMore(m0: Mem, m: Mem, m': Mem, root: nat, lo: nat, a: nat, flags: nat)
    requires Filled(m0, m, root, lo, a, flags) && FlatSame(m, m', root) && PagesKept(m, m', root, MAXVA)
    ensures Filled(m0, m', root, lo, a, flags)
  {
    hide Flat, OrV, Flags, IsValid, Ppn;
  }

  /** Filling pages and unmapping them again leaves the mappings as they were. */
  lemma {:induction false} RestoredBy(m0: Mem, m: Mem, m': Mem, root: nat, lo: nat, a: nat, flags: nat)
    requires Filled(m0, m, root, lo, a, flags) && RangeGone(m, m', root, lo, a) && KeptOutside(m, m', root, lo, a)
    ensures Restored(m0, m', root)
  {
    hide Flat, Ppn;
    forall vb: nat, c | PageIs(m0, root, vb, c) ensures PageIs(m', root, vb, c) {
      assert Aligned(vb) && vb < MAXVA && IsValid(Flat(m0, root, vb));
    }
  }

  lemma {:induction false} RestoredEmpty(m0: Mem, m: Mem, root: nat, lo: nat, flags: nat)
    requires Filled(m0, m, root, lo, lo, flags)
    ensures Restored(m0, m, root)
  {
    hide Flat, PageIs;
  }

  lemma {:induction false} NextPage(va: nat, a: nat, end: nat, f: nat)
    requires Aligned(va) && Aligned(a) && Aligned(end) && va <= a < end
    ensures Aligned(a + PGSIZE) && a + PGSIZE <= end && PGSIZE > 0
    ensures FrameFor(va, f, a + PGSIZE) == FrameFor(va, f, a) + 1
  {
    assert a + PGSIZE - va == (a - va) + PGSIZE;
  }

  lemma {:induction false} MapStart(m: Mem, root: nat, va: nat, size: nat, f: nat, flags: nat)
    requires Aligned(va) && Aligned(size) && flags < 1024
    ensures OrV(flags) < 1024 && Aligned(va + size) && FrameFor(va, f, va) == f
    ensures RangeMapped(m, m, root, va, va, f, flags) && Taken(m, m, root, f, f)
    ensures FrameFor(va, f, va + size) == f + size / PGSIZE
  {
    OrVValid(f, flags);
  }

  lemma {:induction false} UnmapStart(m: Mem, root: nat, va: nat)
    requires Inv(m, root) && Aligned(va)
    ensures Kept(m, m, root) && RangeGone(m, m, root, va, va) && KeptOutside(m, m, root, va, va)
  {
    KeptRefl(m, root);
  }

  /** Frames not reached yet are still in nobody's hands. */
  lemma {:induction false} StillLoose(m0: Mem, m: Mem, root: nat, va: nat, a: nat, size: nat, f: nat, g: nat)
    requires LooseFrom(m0, root, f, f + size / PGSIZE) && Taken(m0, m, root, f, g)
    requires Aligned(va) && Aligned(a) && Aligned(size) && va <= a < va + size && g == FrameFor(va, f, a)
    ensures Loose(m, root, g)
  {
    assert (a - va) / PGSIZE < size / PGSIZE;
    hide Holds;
    assert Loose(m0, root, g);
  }

  lemma {:induction false} MapTurnJoin(m0: Mem, m: Mem, root: nat, va: nat, a: nat, f: nat, g: nat, flags: nat)
    requires Inv(m, root) && Aligned(va) && Aligned(a) && va <= a < TRAPFRAME && flags < 1024
    requires OrV(flags) < 1024 && g == FrameFor(va, f, a) && Loose(m, root, g)
    requires RangeMapped(m0, m, root, va, a, f, flags) && Taken(m0, m, root, f, g)
    ensures var (m', ok) := MapOne(m, root, a, g, flags);
      && RangeMapped(m0, m', root, va, if ok then a + PGSIZE else a, f, flags)
      && Taken(m0, m', root, f, if ok then g + 1 else g)
  {
    MapOneKeeps(m, root, a, g, flags);
    var (m', ok) := MapOne(m, root, a, g, flags);
    assert g >= f;
    RangeStep(m0, m, m', root, va, a, f, flags, ok);
    TakenStep(m0, m, m', root, f, g, ok);
    hide *;
  }

  lemma {:induction false} TakenStep(m0: Mem, m: Mem, m': Mem, root: nat, f: nat, g: nat, ok: bool)
    requires f <= g && Taken(m0, m, root, f, g) && Accounted(m, m', root, ok, g)
    ensures Taken(m0, m', root, f, if ok then g + 1 else g)
  {
    hide Holds;
  }

  lemma {:induction false} RangeStep(m0: Mem, m: Mem, m': Mem, root: nat, va: nat, a: nat, f: nat, flags: nat, ok: bool)
    requires OrV(flags) < 1024 && Aligned(a) && va <= a && RangeMapped(m0, m, root, va, a, f, flags)
    requires ok ==> FlatUpdate(m, m', root, a, MakePte(FrameFor(va, f, a), OrV(flags)))
    requires !ok ==> FlatSame(m, m', root)
    ensures RangeMapped(m0, m', root, va, if ok then a + PGSIZE else a, f, flags)
  {
    hide Flat, MakePte, OrV, FrameFor;
    forall vb: nat | Aligned(vb) && a <= vb < a + PGSIZE ensures vb == a {
      AlignedNext(a, vb);
    }
  }

  lemma {:induction false} KeptInv(m: Mem, m': Mem, root: nat)
    requires Kept(m, m', root)
    ensures Inv(m', root)
  {
  }

  lemma {:induction false} GoneExtended(m0: Mem, m: Mem, m': Mem, root: nat, lo: nat, a: nat)
    requires Aligned(a) && lo <= a && RangeGone(m0, m, root, lo, a)
    requires var w := Flat(m, root, a); FlatUpdate(m, m', root, a, if IsValid(w) then 0 else w)
    ensures RangeGone(m0, m', root, lo, a + PGSIZE)
  {
    assert !IsValid(0);
    hide Flat, IsValid;
    forall vb: nat | Aligned(vb) && a <= vb < a + PGSIZE ensures vb == a {
      AlignedNext(a, vb);
    }
  }

  lemma {:induction false} OutsideExtended(m0: Mem, m: Mem, m': Mem, root: nat, lo: nat, a: nat)
    requires lo <= a && KeptOutside(m0, m, root, lo, a) && PagesKept(m, m', root, a)
    ensures KeptOutside(m0, m', root, lo, a + PGSIZE)
  {
    hide PageIs;
  }

  lemma {:induction false} AlignedNext(a: nat, b: nat)
    requires a % PGSIZE == 0 && b % PGSIZE == 0 && a <= b < a + PGSIZE
    ensures a == b
  {
  }
}
