/** The functions of user/umalloc.c on the memory they change in place. */
module UmallocCode {
  import opened Common
  import opened Umalloc

  /**
   * A null pointer; a block; the argument of sbrk is not the size that is needed; or the new memory was merged into a
   * block whose size does not fit its header.
   */
  datatype Outcome = Null | Block(a: nat) | Wrapped | Lost

  class Heap {
    const base: nat
    var mem: Memory
    var freep: Option<nat>
    ghost var list: set<nat>
    ghost var live: map<nat, nat>
    ghost var arena: set<nat>

    ghost predicate Valid()
      reads this
    {
      match freep
      case None => base in mem && list == {} && live == map[] && arena == {}
      case Some(p) => Ready(p)
    }

    ghost predicate Ready(p: nat)
      reads this
    {
      Inv(mem, list, base, live, arena) && Merged(mem, list, base) && p in list
    }

    constructor (at: nat)
      ensures Valid() && base == at && freep.None? && live == map[] && arena == {}
    {
      base, mem, freep := at, map[at := Header(0, 0)], None;
      list, live, arena := {}, map[], {};
    }

    /** The search of free: the element of the list before the block. */
    method FindPlace(bp: nat) returns (p: nat)
      requires Valid() && bp in live
      ensures Place(list, p, bp)
    {
      hide Merged, Apart, Tiles, NoneBetween, Highest, Covers, Gap;
      p := freep.value;
      ghost var wrapped := false;
      assert Link(mem, list, base, p);
      LiveAbove(mem, list, base, live, arena, bp);
      while !(bp > p && bp < mem[p].ptr)
        invariant p in list && Link(mem, list, base, p)
        invariant wrapped ==> p < bp
        decreases !wrapped, Above(list, p)
      {
        if p >= mem[p].ptr && (bp > p || bp < mem[p].ptr) {
          break;
        }
        if mem[p].ptr > p {
          AboveShrinks(list, p, mem[p].ptr);
        } else {
          wrapped := true;
        }
        p := mem[p].ptr;
        assert Link(mem, list, base, p);
      }
      PlaceFound(mem, list, base, p, bp);
    }

    /** Link the block in after `p`, merging it with the block above and the block below where they touch. */
    method Coalesce(p: nat, bp: nat)
      requires p in mem && bp in mem && mem[p].ptr in mem && p < bp && mem[bp].size > 0
      modifies this`mem
      ensures mem == Freed(old(mem), list, p, bp).0
    {
      var q := mem[p].ptr;
      if bp + mem[bp].size == q {
        mem := mem[bp := Header(mem[bp].ptr, (mem[bp].size + mem[q].size) % LIMIT)];
        mem := mem[bp := Header(mem[q].ptr, mem[bp].size)];
      } else {
        mem := mem[bp := Header(q, mem[bp].size)];
      }
      if p + mem[p].size == bp {
        mem := mem[p := Header(mem[p].ptr, (mem[p].size + mem[bp].size) % LIMIT)];
        mem := mem[p := Header(mem[bp].ptr, mem[p].size)];
      } else {
        mem := mem[p := Header(bp, mem[p].size)];
      }
    }

    /**
     * free: the block goes back to the list; the other live blocks keep their contents. The heap stays in order if and
     * only if the block it is merged into has less than 2^32 units, as all have while the arena has.
     */
    method Free(ap: nat)
      requires Valid() && ap > 0 && ap - 1 in live
      modifies this`mem, this`freep, this`list, this`live
      ensures live == old(live) - {ap - 1} && ContentsKept(old(mem), mem, live)
      ensures freep.Some? && Place(old(list), freep.value, ap - 1)
      ensures freep.value in old(mem) && ap - 1 in old(mem) && old(mem)[freep.value].ptr in old(mem)
      ensures (mem, list) == Freed(old(mem), old(list), freep.value, ap - 1)
      ensures Valid() <==> MergedUnits(old(mem), freep.value, ap - 1) < LIMIT
      ensures |arena| < LIMIT ==> Valid()
      ensures Valid() ==> Room(mem, list, old(live)[ap - 1])
    {
      hide Inv, Merged, Place, Freed, Room, ContentsKept, MergedUnits;
      var bp := ap - 1;
      var p := FindPlace(bp);
      FreeDone(mem, list, base, live, arena, p, bp);
      ghost var l := Freed(mem, list, p, bp).1;
      Coalesce(p, bp);
      live := live - {bp};
      list := l;
      freep := Some(p);
    }

    /** morecore: a region from sbrk goes onto the free list; `brk` is what sbrk returns. */
    method Morecore(nu: nat, brk: Option<nat>) returns (r: Outcome)
      requires Valid() && freep.Some? && nu > 0
      requires brk.Some? ==> base < brk.value && Region(brk.value, Ask(nu)) !! arena
      modifies this`mem, this`freep, this`list, this`live, this`arena
      ensures freep.Some? && live == old(live) && ContentsKept(old(mem), mem, old(live))
      ensures r.Wrapped? <==> AsInt(Ask(nu) * 16) != Ask(nu) * 16
      ensures r.Null? <==> !r.Wrapped? && brk.None?
      ensures r.Wrapped? || r.Null? ==> unchanged(this)
      ensures r.Lost? <==> !Valid()
      ensures r.Lost? || r.Block? ==> brk.Some? && Ask(nu) < LIMIT
      ensures r.Lost? || r.Block? ==> arena == old(arena) + Region(brk.value, Ask(nu))
      ensures r.Lost? || r.Block? ==> (r.Lost? <==> !GrowthFits(old(mem), old(list), brk.value, Ask(nu)))
      ensures r.Lost? ==> |arena| >= LIMIT
      ensures r.Block? ==> r.a == freep.value && Room(mem, list, nu)
    {
      hide Inv, Merged, Room, ContentsKept, Grown, Region, AsInt, GrowthFits, Freed, Place, MergedUnits;
      KeptRefl(mem, live);
      var n := nu;
      if n < 4096 {
        n := 4096;
      }
      if AsInt(n * 16) != n * 16 {
        return Wrapped;
      }
      SmallInt(n);
      if brk.None? {
        return Null;
      }
      var hp := brk.value;
      GrowKeeps(mem, list, base, live, arena, hp, n);
      ghost var m0, v0 := mem, live;
      mem, live, arena := Grown(mem, hp, n), live[hp := n], arena + Region(hp, n);
      var m1 := mem;
      ghost var l1 := list;
      Free(hp + 1);
      GrowthFitsAt(m0, l1, hp, n, freep.value);
      assert live == v0;
      KeptTrans(m0, m1, mem, v0);
      if MergedUnits(m1, freep.value, hp) >= LIMIT {
        return Lost;   // the code goes on with a list that has lost memory
      }
      RoomLess(mem, list, n, nu);
      return Block(freep.value);
    }

    /** Take block `p`, which has room for `n` units, off the list, or cut its end off. */
    method Take(prevp: nat, p: nat, n: nat) returns (a: nat)
      requires Valid() && freep.Some? && prevp in list && p in mem && prevp in mem && mem[prevp].ptr == p
      requires 0 < n <= mem[p].size
      modifies this`mem, this`freep, this`list, this`live
      ensures Valid() && freep == Some(prevp)
      ensures a == p + old(mem)[p].size - n && a !in old(live) && live == old(live)[a := n]
      ensures ContentsKept(old(mem), mem, old(live))
    {
      hide Inv, Merged, ContentsKept;
      TakeReady(mem, list, base, live, arena, prevp, p);
      TakeContents(mem, list, base, live, arena, prevp, p, n);
      if mem[p].size == n {
        TakeWholeKeeps(mem, list, base, live, arena, prevp, p);
        mem := mem[prevp := Header(mem[p].ptr, mem[prevp].size)];
        list := list - {p};
        a := p;
      } else {
        TakeTailKeeps(mem, list, base, live, arena, p, n);
        mem := mem[p := Header(mem[p].ptr, mem[p].size - n)];
        a := p + mem[p].size;
        mem := mem[a := Header(mem[a].ptr, n)];
      }
      live := live[a := n];
      freep := Some(prevp);
    }

    /** The first call of malloc makes the empty list. */
    method Start()
      requires Valid()
      modifies this`mem, this`freep, this`list
      ensures Valid() && freep.Some? && (old(freep).Some? ==> unchanged(this))
      ensures old(freep).None? ==> forall n: nat :: n > 0 ==> !old(Room(mem, list, n)) && !Room(mem, list, n)
      ensures ContentsKept(old(mem), mem, live)
    {
      KeptRefl(mem, live);
      if freep.None? {
        mem := mem[base := Header(base, 0)];
        freep := Some(base);
        list := {base};
        assert Link(mem, list, base, base);
      }
    }

    /** The loop of malloc: round the ring once, then, with more memory on it, round again until a block has room. */
    method Search(n: nat, brk: Option<nat>) returns (out: Outcome, prevp: nat, p: nat)
      requires Valid() && freep.Some? && n > 0
      requires brk.Some? ==> base < brk.value && Region(brk.value, Ask(n)) !! arena
      modifies this
      ensures freep.Some? && live == old(live) && ContentsKept(old(mem), mem, live)
      ensures out.Lost? <==> !Valid()
      ensures out.Block? ==> prevp in list && p in list && prevp in mem && p in mem
      ensures out.Block? ==> mem[prevp].ptr == p && mem[p].size >= n
      ensures out.Block? ==> Skipped(mem, list, freep.value, n, prevp)
      ensures old(Room(mem, list, n)) || out.Wrapped? || out.Null? ==> unchanged(this)
      ensures !old(Room(mem, list, n)) && (out.Block? || out.Lost?) ==> brk.Some? && Ask(n) < LIMIT
      ensures !old(Room(mem, list, n)) && (out.Block? || out.Lost?) ==>
        && arena == old(arena) + Region(brk.value, Ask(n))
        && (out.Lost? <==> !GrowthFits(old(mem), old(list), brk.value, Ask(n)))
      ensures out.Lost? ==> !old(Room(mem, list, n)) && |arena| >= LIMIT
      ensures out.Wrapped? <==> !old(Room(mem, list, n)) && AsInt(Ask(n) * 16) != Ask(n) * 16
      ensures out.Null? <==> !old(Room(mem, list, n)) && AsInt(Ask(n) * 16) == Ask(n) * 16 && brk.None?
    {
      hide Room, Inv, Merged, ContentsKept, Region, Skipped, Ask, AsInt, Ahead, GrowthFits;
      KeptRefl(mem, live);
      prevp := freep.value;
      RingNext(mem, list, base, live, arena, prevp);
      SkippedNone(mem, list, freep.value, n);
      p := mem[prevp].ptr;
      ghost var grown := false;
      while mem[p].size < n
        invariant Valid() && freep.Some? && prevp in list && p in list && prevp in mem && p in mem
        invariant mem[prevp].ptr == p
        invariant live == old(live) && ContentsKept(old(mem), mem, live) && Skipped(mem, list, freep.value, n, prevp)
        invariant !grown ==> unchanged(this)
        invariant grown ==> Room(mem, list, n) && !old(Room(mem, list, n))
        invariant grown ==> brk.Some? && AsInt(Ask(n) * 16) == Ask(n) * 16
        invariant grown ==> Ask(n) < LIMIT && arena == old(arena) + Region(brk.value, Ask(n))
        invariant grown ==> GrowthFits(old(mem), old(list), brk.value, Ask(n))
        decreases !grown, Ahead(list, freep.value, prevp)
      {
        if p == freep.value {
          NoRoom(mem, list, base, live, arena, n, prevp, p);
          var more := Morecore(n, brk);
          if !more.Block? {
            return more, prevp, p;
          }
          grown := true;
          p := more.a;
          SkippedNone(mem, list, p, n);
        } else {
          SkipMore(mem, list, base, live, arena, freep.value, n, prevp, p);
        }
        prevp := p;
        RingNext(mem, list, base, live, arena, prevp);
        p := mem[prevp].ptr;
      }
      HasRoom(mem, list, n, p);
      out := Block(p);
    }

    /**
     * malloc: the first block from the roving pointer on that has room gives its end, or all of itself; sbrk is
     * called, once, if no block has room. Live blocks keep their contents. The heap stays in order unless the new
     * memory is merged into a block of 2^32 units or more.
     */
    method Malloc(nbytes: nat, brk: Option<nat>) returns (r: Outcome)
      requires Valid() && nbytes < 0x1_0000_0000
      requires brk.Some? ==> base < brk.value && Region(brk.value, Ask(Units(nbytes))) !! arena
      modifies this
      ensures ContentsKept(old(mem), mem, old(live)) && (Valid() <==> !r.Lost?)
      ensures r.Block? ==> r.a > 0 && r.a - 1 !in old(live) && live == old(live)[r.a - 1 := Units(nbytes)]
      ensures !r.Block? ==> live == old(live)
      ensures r.Null? || r.Wrapped? ==> arena == old(arena)
      ensures old(Room(mem, list, Units(nbytes))) ==> r.Block? && arena == old(arena) && old(freep).Some? && freep.Some?
      ensures old(Room(mem, list, Units(nbytes))) ==>
        Given(old(mem), old(list), old(freep).value, Units(nbytes), freep.value, r.a - 1)
      ensures !old(Room(mem, list, Units(nbytes))) ==>
        && (r.Wrapped? <==> nbytes >= 0x8000_0000 - 31)
        && (r.Null? <==> nbytes < 0x8000_0000 - 31 && brk.None?)
        && (r.Block? || r.Lost? ==> arena == old(arena) + Region(brk.value, Ask(Units(nbytes))))
        && (r.Lost? ==> old(freep).Some? && |arena| >= LIMIT)
        && ((r.Block? || r.Lost?) && old(freep).Some? ==>
              (r.Lost? <==> !GrowthFits(old(mem), old(list), brk.value, Ask(Units(nbytes)))))
    {
      hide Room, Inv, Merged, ContentsKept, Region, Given, Skipped, Ask, AsInt, Units, GrowthFits;
      var n := Units(nbytes);
      assert n > 0 && (AsInt(Ask(n) * 16) == Ask(n) * 16 <==> nbytes < 0x8000_0000 - 31) by {
        UnitsFit(nbytes);
      }
      ghost var m0, v0 := mem, live;
      Start();
      ghost var m1 := mem;
      ghost var first := arena == {};
      var found, prevp, p := Search(n, brk);
      if brk.Some? {
        RegionSize(brk.value, Ask(n));
      }
      KeptTrans(m0, m1, mem, v0);
      if !found.Block? {
        return found;
      }
      GivenBy(mem, list, freep.value, n, prevp, p);
      ghost var m2 := mem;
      var a := Take(prevp, p, n);
      KeptTrans(m0, m2, mem, v0);
      return Block(a + 1);
    }

    /** The program writes into a block it holds. */
    method Store(a: nat, u: nat, h: Header)
      requires Valid() && a in live && a < u < a + live[a]
      modifies this`mem
      ensures Valid() && u in old(mem) && mem == old(mem)[u := h]
    {
      StoreKeeps(mem, list, base, live, arena, a, u, h);
      hide Inv, Merged;
      mem := mem[u := h];
    }
  }

  /** The block at `b` is the end of the first block from `f` on with room for `n` units, which comes after `p`. */
  ghost predicate Given(mem: Memory, list: set<nat>, f: nat, n: nat, p: nat, b: int) {
    exists a: nat :: FirstFit(mem, list, f, n, p, a) && b == a + mem[a].size - n
  }

  lemma {:induction false} GivenBy(mem: Memory, list: set<nat>, f: nat, n: nat, p: nat, a: nat)
    requires p in list && a in list && p in mem && a in mem && mem[p].ptr == a && mem[a].size >= n
    requires Skipped(mem, list, f, n, p)
    ensures Given(mem, list, f, n, p, a + mem[a].size - n) && Room(mem, list, n)
  {
    assert FirstFit(mem, list, f, n, p, a);
  }

  lemma {:induction false} HasRoom(mem: Memory, list: set<nat>, n: nat, a: nat)
    requires a in list && a in mem && mem[a].size >= n
    ensures Room(mem, list, n)
  {
  }

  lemma {:induction false} RingNext(mem: Memory, list: set<nat>, base: nat, live: map<nat, nat>, arena: set<nat>,
      p: nat)
    requires Inv(mem, list, base, live, arena) && p in list
    ensures p in mem && mem[p].ptr in list && mem[p].ptr in mem
  {
    hide Apart, Tiles, LiveSizes;
    assert Link(mem, list, base, p);
  }

  lemma {:induction false} SkippedNone(mem: Memory, list: set<nat>, f: nat, n: nat)
    ensures Skipped(mem, list, f, n, f)
  {
  }

  lemma {:induction false} SkipMore(mem: Memory, list: set<nat>, base: nat, live: map<nat, nat>, arena: set<nat>,
      f: nat, n: nat, p: nat, q: nat)
    requires Inv(mem, list, base, live, arena) && p in list && f in list && q != f && p in mem && mem[p].ptr == q
    requires Skipped(mem, list, f, n, p) && q in mem && mem[q].size < n
    ensures Skipped(mem, list, f, n, q) && Ahead(list, f, q) < Ahead(list, f, p)
  {
    hide Apart, Tiles, LiveSizes;
    assert Link(mem, list, base, p);
    VisitMore(list, base, f, p, q);
    hide Visited, Ahead;
  }

  lemma {:induction false} NoRoom(mem: Memory, list: set<nat>, base: nat, live: map<nat, nat>, arena: set<nat>,
      n: nat, p: nat, f: nat)
    requires Inv(mem, list, base, live, arena) && p in list && f in list && p in mem && mem[p].ptr == f
    requires Skipped(mem, list, f, n, p) && f in mem && mem[f].size < n
    ensures !Room(mem, list, n)
  {
    hide Apart, Tiles, LiveSizes;
    assert Link(mem, list, base, p);
    VisitAll(list, base, f, p);
    hide Visited;
  }

  /** The two memories agree on the headers of all blocks and of the base. */
  ghost predicate SameHeaders(mem: Memory, m: Memory, list: set<nat>, live: map<nat, nat>) {
    forall x: nat :: x in list || x in live ==> x in mem && x in m && m[x] == mem[x]
  }

  lemma {:induction false} StoreSame(mem: Memory, list: set<nat>, base: nat, live: map<nat, nat>, arena: set<nat>,
                                     a: nat, u: nat, h: Header)
    requires Inv(mem, list, base, live, arena) && a in live && a < u < a + live[a]
    ensures u in mem && u != base && SameHeaders(mem, mem[u := h], list, live)
  {
    hide Ring, Apart, Tiles;
    assert Covers(mem, a, u);
    BaseApart(mem, list, base, live, arena, a, u);
    forall x: nat | x in list || x in live ensures x != u && x in mem {
      BlockApart(mem, list, base, live, arena, a, u, x);
    }
  }

  lemma {:induction false} BaseApart(mem: Memory, list: set<nat>, base: nat, live: map<nat, nat>, arena: set<nat>,
                                     a: nat, u: nat)
    requires Inv(mem, list, base, live, arena) && a in live && Covers(mem, a, u)
    ensures base in list && base != a && base != u && u in arena && u in mem
  {
    hide Ring, Apart, LiveSizes;
    BaseNotLive(mem, list, base, live, arena, a);
    Inside(mem, list, base, live, arena, a, u, base);
  }

  lemma {:induction false} BaseNotLive(mem: Memory, list: set<nat>, base: nat, live: map<nat, nat>, arena: set<nat>,
      a: nat)
    requires Inv(mem, list, base, live, arena) && a in live
    ensures base in list && base != a
  {
    hide Apart, Tiles;
  }

  lemma {:induction false} BlockApart(mem: Memory, list: set<nat>, base: nat, live: map<nat, nat>, arena: set<nat>,
                                      a: nat, u: nat, x: nat)
    requires Inv(mem, list, base, live, arena) && a in live && a < u < a + live[a] && Covers(mem, a, u)
    requires x in list || x in live
    ensures x != u && x in mem
  {
    hide Apart, Tiles;
    if x != a {
      Inside(mem, list, base, live, arena, a, u, x);
    }
  }

  lemma {:induction false} StoreRing(mem: Memory, m: Memory, list: set<nat>, base: nat, live: map<nat, nat>)
    requires Ring(mem, list, base) && Merged(mem, list, base) && SameHeaders(mem, m, list, live)
    ensures Ring(m, list, base) && Merged(m, list, base)
  {
    forall x | x in list ensures x in m && Link(m, list, base, x) && Gap(m, list, base, x) {
      assert Link(mem, list, base, x) && Gap(mem, list, base, x);
    }
  }

  /** What is inside a live block is no header of the allocator. */
  lemma {:induction false} StoreKeeps(mem: Memory, list: set<nat>, base: nat, live: map<nat, nat>, arena: set<nat>,
                                      a: nat, u: nat, h: Header)
    requires Inv(mem, list, base, live, arena) && Merged(mem, list, base) && a in live && a < u < a + live[a]
    ensures u in mem && Inv(mem[u := h], list, base, live, arena) && Merged(mem[u := h], list, base)
  {
    hide Ring, Merged, Apart, Tiles;
    var m := mem[u := h];
    StoreSame(mem, list, base, live, arena, a, u, h);
    StoreRing(mem, m, list, base, live);
    SameTiles(mem, list, live, m, list, live, base, arena);
  }

  /** Live blocks lie above the base and off the list. */
  lemma {:induction false} LiveAbove(mem: Memory, list: set<nat>, base: nat, live: map<nat, nat>, arena: set<nat>,
      bp: nat)
    requires Inv(mem, list, base, live, arena) && bp in live
    ensures base < bp && bp !in list && bp in mem && mem[bp].size > 0
  {
    hide Ring;
    assert IsBlock(list, base, live, bp);
    assert Covers(mem, bp, bp);
  }

  /** Where the search of free stops is the right place. */
  lemma {:induction false} PlaceFound(mem: Memory, list: set<nat>, base: nat, p: nat, bp: nat)
    requires p in list && Link(mem, list, base, p) && p < bp && (bp < mem[p].ptr || mem[p].ptr <= p)
    ensures Place(list, p, bp)
  {
  }

  lemma {:induction false} FreeDone(mem: Memory, list: set<nat>, base: nat, live: map<nat, nat>, arena: set<nat>,
      p: nat, bp: nat)
    requires Inv(mem, list, base, live, arena) && Merged(mem, list, base) && Place(list, p, bp) && bp in live
    ensures p in mem && bp in mem && mem[p].ptr in mem && p < bp && mem[bp].size > 0
    ensures var (m, l) := Freed(mem, list, p, bp);
      && (Inv(m, l, base, live - {bp}, arena) && Merged(m, l, base) <==> MergedUnits(mem, p, bp) < LIMIT) && p in l
      && ContentsKept(mem, m, live - {bp}) && (MergedUnits(mem, p, bp) < LIMIT ==> Room(m, l, live[bp]))
    ensures MergedUnits(mem, p, bp) <= |arena|
  {
    hide Ring, Apart, Tiles, Merged, ContentsKept, Freed, MergedUnits, Place;
    FreePlace(mem, list, base, live, arena, p, bp);
    PlaceBelow(list, p, bp);
    FreeKeeps(mem, list, base, live, arena, p, bp);
    FreeContents(mem, list, base, live, arena, p, bp);
    ArenaFits(mem, list, base, live, arena, p, bp);
    if MergedUnits(mem, p, bp) < LIMIT {
      FreeRoom(mem, list, p, bp);
    }
  }

  /** A byte count that an int holds comes from a small number of units. */
  lemma {:induction false} SmallInt(n: nat)
    requires AsInt(n * 16) == n * 16
    ensures n < LIMIT
  {
  }

  lemma {:induction false} KeptRefl(mem: Memory, live: map<nat, nat>)
    ensures ContentsKept(mem, mem, live)
  {
  }

  lemma {:induction false} KeptTrans(a: Memory, b: Memory, c: Memory, live: map<nat, nat>)
    requires ContentsKept(a, b, live) && ContentsKept(b, c, live)
    ensures ContentsKept(a, c, live)
  {
    forall x: nat, u: nat | x in live && Covers(a, x, u) && u in a ensures u in c && c[u] == a[u] {
      assert Covers(a, x, x);
      assert Covers(b, x, u);
    }
  }

  lemma {:induction false} RoomLess(mem: Memory, list: set<nat>, n: nat, k: nat)
    requires Room(mem, list, n) && k <= n
    ensures Room(mem, list, k)
  {
  }

  lemma {:induction false} TakeReady(mem: Memory, list: set<nat>, base: nat, live: map<nat, nat>, arena: set<nat>,
      p: nat, a: nat)
    requires Inv(mem, list, base, live, arena) && p in list && p in mem && mem[p].ptr == a
    ensures a in list && a in mem && (mem[a].size > 0 ==> a != base)
  {
    hide Tiles, Apart, LiveSizes;
    assert Link(mem, list, base, p);
  }

  // ---------------------------------------------------------------- a heap that loses memory

  /** What malloc(2147483600) takes, and where the k-th such block lies. */
  const BIG: nat := 134217726

  function BigAt(k: nat): nat { 1 + k * BIG }

  /** Blocks `j` up to `k` are live, one after the other from address 1. */
  ghost predicate Row(live: map<nat, nat>, j: nat, k: nat) {
    && (forall x :: x in live ==> live[x] == BIG && exists i: nat :: j <= i < k && x == BigAt(i))
    && forall i: nat :: j <= i < k ==> BigAt(i) in live
  }

  lemma {:induction false} BigIndex(x: nat, k: nat) returns (i: nat)
    requires 1 <= x < 1 + k * BIG
    ensures i < k && BigAt(i) <= x < BigAt(i) + BIG
  {
    i := (x - 1) / BIG;
  }

  /** A block other than those of the row covers none of their units. */
  lemma {:induction false} RowApart(mem: Memory, list: set<nat>, live: map<nat, nat>, arena: set<nat>, x: nat, i: nat)
    requires Inv(mem, list, 0, live, arena) && IsBlock(list, 0, live, x) && BigAt(i) in live && live[BigAt(i)] == BIG
    requires x != BigAt(i)
    ensures !(BigAt(i) <= x < BigAt(i) + BIG) && x in arena && x in mem && x + mem[x].size - 1 in arena
  {
    hide Ring, BigAt;
    assert IsBlock(list, 0, live, BigAt(i));
    assert Covers(mem, x, x) && Covers(mem, x, x + mem[x].size - 1);
    CoveredIn(mem, list, 0, live, arena, x, x);
    CoveredIn(mem, list, 0, live, arena, x, x + mem[x].size - 1);
  }

  lemma {:induction false} InArena(mem: Memory, list: set<nat>, live: map<nat, nat>, arena: set<nat>, x: nat)
    requires Inv(mem, list, 0, live, arena) && IsBlock(list, 0, live, x)
    ensures x in arena && x in mem && mem[x].size > 0 && x + mem[x].size - 1 in arena
  {
    hide Ring;
    assert Covers(mem, x, x) && Covers(mem, x, x + mem[x].size - 1);
    CoveredIn(mem, list, 0, live, arena, x, x);
    CoveredIn(mem, list, 0, live, arena, x, x + mem[x].size - 1);
  }

  /** With the arena full of such blocks the list is empty but for the base. */
  lemma {:induction false} RowFull(mem: Memory, list: set<nat>, live: map<nat, nat>, arena: set<nat>, k: nat)
    requires Inv(mem, list, 0, live, arena) && Row(live, 0, k) && arena == Region(1, k * BIG)
    ensures list == {0} && 0 in mem && mem[0].size == 0 && mem[0].ptr == 0
  {
    hide BigAt, Region, Apart, Tiles;
    assert Link(mem, list, 0, 0);
    forall x | x in list ensures x == 0 {
      if x != 0 {
        InArena(mem, list, live, arena, x);
        forall i: nat | i < k ensures !(BigAt(i) <= x < BigAt(i) + BIG) {
          RowApart(mem, list, live, arena, x, i);
        }
        var i := BigIndex(x, k);
        assert false;
      }
    }
  }

  /** A block of that size in a new region of that size is the region. */
  lemma {:induction false} RowNext(mem: Memory, list: set<nat>, live: map<nat, nat>, arena: set<nat>, k: nat, b: nat)
    requires Inv(mem, list, 0, live[b := BIG], arena) && Row(live, 0, k) && b !in live
    requires arena == Region(1, (k + 1) * BIG)
    ensures b == BigAt(k) && Row(live[b := BIG], 0, k + 1)
  {
    hide Ring, Region, Apart, Tiles;
    var v := live[b := BIG];
    InArena(mem, list, v, arena, b);
    assert mem[b].size == BIG && b <= BigAt(k);
    forall i: nat | i < k ensures !(BigAt(i) <= b < BigAt(i) + BIG) {
      RowApart(mem, list, v, arena, b, i);
    }
    if b < BigAt(k) {
      var i := BigIndex(b, k);
      assert false;
    }
    RowMore(live, k);
  }

  lemma {:induction false} RowMore(live: map<nat, nat>, k: nat)
    requires Row(live, 0, k)
    ensures Row(live[BigAt(k) := BIG], 0, k + 1)
  {
    hide BigAt;
  }

  lemma {:induction false} HeapInv(h: Heap, b: nat)
    requires h.Valid() && b in h.live
    ensures h.freep.Some? && Inv(h.mem, h.list, h.base, h.live, h.arena)
  {
    hide Inv, Merged;
  }

  /** One more malloc of 2147483600 bytes, which sbrk serves with the memory after the last block. */
  method BigBlock(h: Heap, k: nat)
    requires k < 33 && h.Valid() && h.base == 0 && Row(h.live, 0, k) && h.arena == Region(1, k * BIG)
    modifies h
    ensures h.Valid() && h.freep.Some? && Row(h.live, 0, k + 1) && h.arena == Region(1, (k + 1) * BIG)
  {
    hide Inv, Merged, Room, Region, GrowthFits, Ask, Units, ContentsKept, Given, Row, BigAt;
    RowRoom(h, k);
    var r := h.Malloc(2147483600, Some(BigAt(k)));
    assert r.Block? && h.live == old(h.live)[r.a - 1 := BIG];
    RowRegion(k);
    HeapInv(h, r.a - 1);
    RowNext(h.mem, h.list, old(h.live), h.arena, k, r.a - 1);
  }

  /** The first half of the run: 33 blocks of 2147483600 bytes. */
  method BigBlocks() returns (h: Heap)
    ensures fresh(h) && h.Valid() && h.base == 0 && h.freep.Some? && Row(h.live, 0, 33)
    ensures h.arena == Region(1, 33 * BIG)
  {
    h := new Heap(0);
    var k := 0;
    while k < 33
      invariant k <= 33 && h.Valid() && Row(h.live, 0, k) && h.arena == Region(1, k * BIG)
      invariant k > 0 ==> h.freep.Some?
    {
      BigBlock(h, k);
      k := k + 1;
    }
  }

  lemma {:induction false} RowRegion(k: nat)
    ensures Region(1, k * BIG) + Region(BigAt(k), BIG) == Region(1, (k + 1) * BIG)
    ensures Region(BigAt(k), BIG) !! Region(1, k * BIG)
  {
    hide Region;
  }

  /** Before it, no block has room, and the new memory touches no free block. */
  lemma {:induction false} RowRoom(h: Heap, k: nat)
    requires h.Valid() && h.base == 0 && Row(h.live, 0, k) && h.arena == Region(1, k * BIG)
    ensures Units(2147483600) == BIG == Ask(BIG) && !Room(h.mem, h.list, BIG) && 0 < BigAt(k)
    ensures Region(BigAt(k), BIG) !! h.arena
    ensures h.freep.Some? ==> GrowthFits(h.mem, h.list, BigAt(k), BIG)
  {
    hide Inv, Merged, Region, GrowthFits, Row;
    RowRegion(k);
    if h.freep.Some? {
      RowFull(h.mem, h.list, h.live, h.arena, k);
      RowFits(h.mem, h.list, BigAt(k), BIG);
    }
  }

  lemma {:induction false} RowFits(mem: Memory, list: set<nat>, a: nat, n: Uint)
    requires list == {0} && 0 in mem && mem[0].size == 0 && mem[0].ptr == 0 && a > 0
    ensures GrowthFits(mem, list, a, n)
  {
    hide Region;
  }

  /** The first `j` blocks of the row have been freed, and are one block. */
  ghost predicate Half(mem: Memory, list: set<nat>, live: map<nat, nat>, j: nat) {
    && Row(live, j, 33) && 0 in mem && mem[0].size == 0
    && if j == 0 then list == {0} && mem[0].ptr == 0
       else list == {0, 1} && 1 in mem && mem[1].ptr == 0 && mem[1].size == j * BIG
  }

  /** Freeing the next block of the row. */
  lemma {:induction false} HalfStep(mem: Memory, list: set<nat>, live: map<nat, nat>, p: nat, j: nat)
    requires Half(mem, list, live, j) && j < 33 && Place(list, p, BigAt(j)) && LiveSizes(mem, list, live)
    ensures p in mem && BigAt(j) in mem && mem[p].ptr in mem && MergedUnits(mem, p, BigAt(j)) == (j + 1) * BIG
    ensures var (m, l) := Freed(mem, list, p, BigAt(j));
      j < 32 ==> Half(m, l, live - {BigAt(j)}, j + 1)
  {
    HalfPlace(mem, list, live, p, j);
    RowLess(live, j);
    if j < 32 {
      assert (j + 1) * BIG < LIMIT;
    }
  }

  lemma {:induction false} HalfPlace(mem: Memory, list: set<nat>, live: map<nat, nat>, p: nat, j: nat)
    requires Half(mem, list, live, j) && j < 33 && Place(list, p, BigAt(j)) && LiveSizes(mem, list, live)
    ensures p == if j == 0 then 0 else 1
    ensures BigAt(j) in live && BigAt(j) in mem && mem[BigAt(j)].size == BIG && BigAt(j) !in list
  {
  }

  lemma {:induction false} RowLess(live: map<nat, nat>, j: nat)
    requires j < 33 && Row(live, j, 33)
    ensures Row(live - {BigAt(j)}, j + 1, 33)
  {
    forall x | x in live - {BigAt(j)} ensures live[x] == BIG && exists i: nat :: j + 1 <= i < 33 && x == BigAt(i) {
      var i: nat :| j <= i < 33 && x == BigAt(i);
      assert i != j;
    }
  }

  /**
   * The whole run: malloc(2147483600) 33 times, then free of the blocks in order. The last free makes a block of
   * 4429184958 units, whose size does not fit, and the heap is no longer in order.
   */
  method LoseMemory() returns (h: Heap)
    ensures fresh(h) && !h.Valid() && h.live == map[] && 1 in h.mem
    ensures h.mem[1].size == 33 * BIG - LIMIT && |h.arena| == 33 * BIG
  {
    h := BigBlocks();
    HalfStart(h);
    var j := 0;
    while j < 32
      invariant j <= 32 && h.Valid() && h.base == 0 && h.freep.Some? && Half(h.mem, h.list, h.live, j)
      invariant h.arena == Region(1, 33 * BIG)
    {
      FreeNext(h, j);
      j := j + 1;
    }
    FreeNext(h, 32);
    RegionSize(1, 33 * BIG);
  }

  lemma {:induction false} HalfStart(h: Heap)
    requires h.Valid() && h.base == 0 && h.freep.Some? && Row(h.live, 0, 33) && h.arena == Region(1, 33 * BIG)
    ensures Half(h.mem, h.list, h.live, 0)
  {
    hide Inv, Row, Region;
    RowFull(h.mem, h.list, h.live, h.arena, 33);
  }

  method FreeNext(h: Heap, j: nat)
    requires j < 33 && h.Valid() && h.base == 0 && h.freep.Some? && Half(h.mem, h.list, h.live, j)
    modifies h
    ensures h.freep.Some? && h.arena == old(h.arena) && (h.Valid() <==> j < 32)
    ensures j < 32 ==> Half(h.mem, h.list, h.live, j + 1)
    ensures j == 32 ==> h.live == map[] && 1 in h.mem && h.mem[1].size == 33 * BIG - LIMIT
  {
    hide Inv, Merged, Freed, Place, MergedUnits, Half, Room, ContentsKept;
    NextIs(h, j);
    h.Free(BigAt(j) + 1);
    HalfStep(old(h.mem), old(h.list), old(h.live), h.freep.value, j);
    if j == 32 {
      LastIs(old(h.mem), old(h.list), old(h.live), h.freep.value);
    }
  }

  lemma {:induction false} NextIs(h: Heap, j: nat)
    requires j < 33 && h.Valid() && h.base == 0 && h.freep.Some? && Half(h.mem, h.list, h.live, j)
    ensures BigAt(j) in h.live && LiveSizes(h.mem, h.list, h.live)
  {
    hide Merged, Ring, Tiles, Apart;
  }

  lemma {:induction false} LastIs(mem: Memory, list: set<nat>, live: map<nat, nat>, p: nat)
    requires Half(mem, list, live, 32) && Place(list, p, BigAt(32)) && LiveSizes(mem, list, live)
    requires p in mem && BigAt(32) in mem && mem[p].ptr in mem
    ensures live - {BigAt(32)} == map[] && 1 in Freed(mem, list, p, BigAt(32)).0
    ensures Freed(mem, list, p, BigAt(32)).0[1].size == 33 * BIG - LIMIT
  {
    HalfPlace(mem, list, live, p, 32);
    RowLess(live, 32);
  }
}
