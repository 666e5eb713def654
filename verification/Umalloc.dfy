/**
 * The allocator of user/umalloc.c: a circular free list in address order through the headers of the free blocks,
 * with first fit from a roving pointer, splitting at the tail and merging with both neighbours. Addresses and sizes
 * are counted in headers of 16 bytes; sizes are 32-bit numbers, and wrap when blocks are merged. `base` is the
 * static header that the list starts from; it lies below the heap.
 */
module Umalloc {
  import opened Common

  /** One more than the largest size a header can hold. */
  const LIMIT: nat := 0x1_0000_0000

  type Uint = x: nat | x < LIMIT

  datatype Header = Header(ptr: nat, size: Uint)

  type Memory = map<nat, Header>

  /** `q` follows `p` in the ring of `list`: the next higher address, or `base` after the highest. */
  ghost predicate Follows(list: set<nat>, base: nat, p: nat, q: nat) {
    q in list && if q > p then NoneBetween(list, p, q) else q == base && Highest(list, p)
  }

  ghost predicate NoneBetween(list: set<nat>, p: nat, q: nat) {
    forall x :: x in list ==> !(p < x < q)
  }

  ghost predicate Highest(list: set<nat>, p: nat) {
    forall x :: x in list ==> x <= p
  }

  /** The free list is a ring in address order with one wrap, at `base`. */
  ghost predicate Ring(mem: Memory, list: set<nat>, base: nat) {
    && base in list && (forall p :: p in list ==> base <= p && p in mem)
    && forall p: nat {:trigger Link(mem, list, base, p)} :: p in list ==> Link(mem, list, base, p)
  }

  ghost predicate Link(mem: Memory, list: set<nat>, base: nat, p: nat) {
    p in mem && Follows(list, base, p, mem[p].ptr)
  }

  /** A block: a live one, or a free one other than the base. */
  ghost predicate IsBlock(list: set<nat>, base: nat, live: map<nat, nat>, a: nat) {
    a in live || (a in list && a != base)
  }

  ghost predicate Covers(mem: Memory, a: nat, u: nat) {
    a in mem && a <= u < a + mem[a].size
  }

  /** Every block has a header and a size, and blocks do not overlap. */
  ghost predicate Apart(mem: Memory, list: set<nat>, base: nat, live: map<nat, nat>) {
    && (forall a: nat :: IsBlock(list, base, live, a) ==> a in mem && mem[a].size > 0)
    && (forall a: nat, b: nat :: IsBlock(list, base, live, a) && IsBlock(list, base, live, b) && a < b ==>
          a + mem[a].size <= b)
  }

  /** The blocks cover the arena and nothing else. */
  ghost predicate Tiles(mem: Memory, list: set<nat>, base: nat, live: map<nat, nat>, arena: set<nat>) {
    forall u: nat :: u in arena <==> exists a: nat :: IsBlock(list, base, live, a) && Covers(mem, a, u)
  }

  /** Live blocks have the size they were given and are not on the list. */
  ghost predicate LiveSizes(mem: Memory, list: set<nat>, live: map<nat, nat>) {
    forall a :: a in live ==> a !in list && a in mem && mem[a].size == live[a]
  }

  ghost predicate Grounded(mem: Memory, base: nat, arena: set<nat>) {
    base in mem && mem[base].size == 0 && forall u :: u in arena ==> base < u && u in mem
  }

  ghost predicate Inv(mem: Memory, list: set<nat>, base: nat, live: map<nat, nat>, arena: set<nat>) {
    && Ring(mem, list, base) && Grounded(mem, base, arena)
    && Apart(mem, list, base, live) && Tiles(mem, list, base, live, arena) && LiveSizes(mem, list, live)
  }

  /** No free block begins where the free block `a` ends. */
  ghost predicate Gap(mem: Memory, list: set<nat>, base: nat, a: nat) {
    a in list && a != base && a in mem ==> a + mem[a].size !in list
  }

  ghost predicate Merged(mem: Memory, list: set<nat>, base: nat) {
    forall a :: a in list ==> Gap(mem, list, base, a)
  }

  /** The live blocks, headers and contents, are the same in both memories. */
  ghost predicate ContentsKept(mem: Memory, mem': Memory, live: map<nat, nat>) {
    forall a: nat, u: nat :: a in live && Covers(mem, a, u) && u in mem ==> u in mem' && mem'[u] == mem[u]
  }

  // ---------------------------------------------------------------- the ring

  function Steps(mem: Memory, p: nat, n: nat): Option<nat>
    decreases n
  {
    if n == 0 then Some(p) else if p in mem then Steps(mem, mem[p].ptr, n - 1) else None
  }

  ghost predicate Reaches(mem: Memory, p: nat, q: nat) {
    exists n: nat :: Steps(mem, p, n) == Some(q)
  }

  lemma {:induction false} StepsMore(mem: Memory, p: nat, n: nat, k: nat, q: nat)
    requires Steps(mem, p, n) == Some(q)
    ensures Steps(mem, p, n + k) == Steps(mem, q, k)
    decreases n
  {
    if n > 0 {
      StepsMore(mem, mem[p].ptr, n - 1, k, q);
    }
  }

  lemma {:induction false} ReachesTrans(mem: Memory, p: nat, q: nat, r: nat)
    requires Reaches(mem, p, q) && Reaches(mem, q, r)
    ensures Reaches(mem, p, r)
  {
    var n: nat :| Steps(mem, p, n) == Some(q);
    var k: nat :| Steps(mem, q, k) == Some(r);
    StepsMore(mem, p, n, k, q);
  }

  lemma {:induction false} ReachesNext(mem: Memory, p: nat)
    requires p in mem
    ensures Reaches(mem, p, mem[p].ptr)
  {
    assert Steps(mem, mem[p].ptr, 0) == Some(mem[p].ptr);
    assert Steps(mem, p, 1) == Some(mem[p].ptr);
  }

  lemma {:induction false} ReachesUp(mem: Memory, list: set<nat>, base: nat, p: nat, q: nat)
    requires Ring(mem, list, base) && p in list && q in list && p <= q
    ensures Reaches(mem, p, q)
    decreases q - p
  {
    if p == q {
      assert Steps(mem, p, 0) == Some(q);
    } else {
      var n := mem[p].ptr;
      assert Link(mem, list, base, p);
      ReachesNext(mem, p);
      ReachesUp(mem, list, base, n, q);
      ReachesTrans(mem, p, n, q);
    }
  }

  /** The part of the list that is still ahead of `p`. */
  ghost function Above(list: set<nat>, p: nat): set<nat> {
    set x | x in list && x > p
  }

  lemma {:induction false} AboveShrinks(list: set<nat>, p: nat, q: nat)
    requires p < q && q in list
    ensures Above(list, q) < Above(list, p)
  {
    assert q in Above(list, p) && q !in Above(list, q);
  }

  lemma {:induction false} ReachesBase(mem: Memory, list: set<nat>, base: nat, p: nat)
    requires Ring(mem, list, base) && p in list
    ensures Reaches(mem, p, base)
    decreases Above(list, p)
  {
    var n := mem[p].ptr;
    assert Link(mem, list, base, p);
    ReachesNext(mem, p);
    if n > p {
      AboveShrinks(list, p, n);
      ReachesBase(mem, list, base, n);
      ReachesTrans(mem, p, n, base);
    }
  }

  /** The free list is circular: from every element the links lead to every other. */
  lemma {:induction false} Circular(mem: Memory, list: set<nat>, base: nat, p: nat, q: nat)
    requires Ring(mem, list, base) && p in list && q in list
    ensures Reaches(mem, p, q)
  {
    ReachesBase(mem, list, base, p);
    ReachesUp(mem, list, base, base, q);
    ReachesTrans(mem, p, base, q);
  }

  // ---------------------------------------------------------------- putting a block on the list

  /** `p` is the element of the list before `bp` in address order. */
  ghost predicate Place(list: set<nat>, p: nat, bp: nat) {
    p in list && p < bp && NoneBetween(list, p, bp)
  }

  function InsertMem(mem: Memory, p: nat, bp: nat): Memory
    requires p in mem && bp in mem
  {
    mem[bp := Header(mem[p].ptr, mem[bp].size)][p := Header(bp, mem[p].size)]
  }

  lemma {:induction false} InsertRing(mem: Memory, list: set<nat>, base: nat, p: nat, bp: nat)
    requires Ring(mem, list, base) && Place(list, p, bp) && bp in mem && bp !in list
    ensures Ring(InsertMem(mem, p, bp), list + {bp}, base)
  {
    var m, l := InsertMem(mem, p, bp), list + {bp};
    assert Link(mem, list, base, p);
    forall x | x in l ensures base <= x && Link(m, l, base, x) {
      if x in list {
        assert Link(mem, list, base, x);
      }
    }
  }

  /** The blocks and their sizes are the same before and after. */
  ghost predicate SameBlocks(mem: Memory, list: set<nat>, live: map<nat, nat>,
                             mem': Memory, list': set<nat>, live': map<nat, nat>, base: nat) {
    forall a: nat ::
      && (IsBlock(list', base, live', a) <==> IsBlock(list, base, live, a))
      && (IsBlock(list, base, live, a) ==> a in mem && a in mem' && mem'[a].size == mem[a].size)
  }

  lemma {:induction false} SameTiles(mem: Memory, list: set<nat>, live: map<nat, nat>,
                                     mem': Memory, list': set<nat>, live': map<nat, nat>, base: nat, arena: set<nat>)
    requires SameBlocks(mem, list, live, mem', list', live', base)
    requires Apart(mem, list, base, live) && Tiles(mem, list, base, live, arena)
    ensures Apart(mem', list', base, live') && Tiles(mem', list', base, live', arena)
  {
    hide IsBlock;
    forall u: nat ensures u in arena <==> exists a: nat :: IsBlock(list', base, live', a) && Covers(mem', a, u) {
      if a: nat :| IsBlock(list, base, live, a) && Covers(mem, a, u) {
        assert IsBlock(list', base, live', a) && Covers(mem', a, u);
      }
    }
  }

  lemma {:induction false} InsertKeeps(mem: Memory, list: set<nat>, base: nat, live: map<nat, nat>, arena: set<nat>,
      p: nat, bp: nat)
    requires Inv(mem, list, base, live, arena) && Place(list, p, bp) && bp in live
    ensures Inv(InsertMem(mem, p, bp), list + {bp}, base, live - {bp}, arena)
  {
    hide Tiles, Apart, SameBlocks, NoneBetween, Link;
    InsertRing(mem, list, base, p, bp);
    var m, l, v := InsertMem(mem, p, bp), list + {bp}, live - {bp};
    InsertBlocks(mem, list, base, live, p, bp);
    SameTiles(mem, list, live, m, l, v, base, arena);
    hide Ring;
  }

  lemma {:induction false} InsertBlocks(mem: Memory, list: set<nat>, base: nat, live: map<nat, nat>, p: nat, bp: nat)
    requires Apart(mem, list, base, live) && bp in live && bp != base && p in mem
    ensures bp in mem && SameBlocks(mem, list, live, InsertMem(mem, p, bp), list + {bp}, live - {bp}, base)
  {
    assert IsBlock(list, base, live, bp);
  }

  // ---------------------------------------------------------------- merging neighbours

  function MergeMem(mem: Memory, a: nat, b: nat): Memory
    requires a in mem && b in mem
  {
    mem[a := Header(mem[b].ptr, (mem[a].size + mem[b].size) % LIMIT)]
  }

  lemma {:induction false} MergeRing(mem: Memory, list: set<nat>, base: nat, a: nat, b: nat)
    requires Ring(mem, list, base) && a in list && a != base && b in list && a < b && NoneBetween(list, a, b)
    ensures b in mem && Ring(MergeMem(mem, a, b), list - {b}, base)
  {
    var m, l := MergeMem(mem, a, b), list - {b};
    assert Link(mem, list, base, b) && Link(mem, list, base, a);
    forall x | x in l ensures base <= x && Link(m, l, base, x) {
      assert Link(mem, list, base, x);
    }
  }

  lemma {:induction false} MergeBlocks(mem: Memory, list: set<nat>, base: nat, live: map<nat, nat>, a: nat, b: nat)
    requires LiveSizes(mem, list, live) && a in list && a != base && b in list && b != base && a != b && a in mem
    requires b in mem
    ensures IsBlock(list, base, live, a) && IsBlock(list, base, live, b)
    ensures forall x: nat :: IsBlock(list - {b}, base, live, x) <==> IsBlock(list, base, live, x) && x != b
  {
  }

  lemma {:induction false} MergeApart(mem: Memory, list: set<nat>, base: nat, live: map<nat, nat>, a: nat, b: nat)
    requires Apart(mem, list, base, live) && LiveSizes(mem, list, live)
    requires a in list && a != base && b in list && b != base && a in mem && b in mem && a + mem[a].size == b
    requires mem[a].size + mem[b].size < LIMIT
    ensures Apart(MergeMem(mem, a, b), list - {b}, base, live)
  {
    assert IsBlock(list, base, live, a);
    MergeBlocks(mem, list, base, live, a, b);
    hide IsBlock;
  }

  lemma {:induction false} MergeTiles(mem: Memory, list: set<nat>, base: nat, live: map<nat, nat>, arena: set<nat>,
      a: nat, b: nat)
    requires Tiles(mem, list, base, live, arena) && LiveSizes(mem, list, live)
    requires a in list && a != base && b in list && b != base && a in mem && b in mem && a != b && a + mem[a].size == b
    requires mem[a].size + mem[b].size < LIMIT
    ensures Tiles(MergeMem(mem, a, b), list - {b}, base, live, arena)
  {
    var m, l := MergeMem(mem, a, b), list - {b};
    MergeBlocks(mem, list, base, live, a, b);
    hide IsBlock, LiveSizes;
    forall u: nat ensures u in arena <==> exists x: nat :: IsBlock(l, base, live, x) && Covers(m, x, u) {
      if x: nat :| IsBlock(list, base, live, x) && Covers(mem, x, u) {
        var y := if x == b then a else x;
        assert IsBlock(l, base, live, y) && Covers(m, y, u);
      }
      if y: nat :| IsBlock(l, base, live, y) && Covers(m, y, u) {
        var x := if y == a && u >= b then b else y;
        assert IsBlock(list, base, live, x) && Covers(mem, x, u);
      }
    }
  }

  lemma {:induction false} MergeKeeps(mem: Memory, list: set<nat>, base: nat, live: map<nat, nat>, arena: set<nat>,
      a: nat, b: nat)
    requires Inv(mem, list, base, live, arena)
    requires a in list && a != base && b in list && a in mem && a + mem[a].size == b
    requires b in mem ==> mem[a].size + mem[b].size < LIMIT
    ensures b in mem && Inv(MergeMem(mem, a, b), list - {b}, base, live, arena)
  {
    assert IsBlock(list, base, live, a);
    assert NoneBetween(list, a, b) by {
      hide Tiles, Ring, LiveSizes, Covers;
      forall x | x in list ensures !(a < x < b) {
        if x != base {
          assert IsBlock(list, base, live, x);
        }
      }
    }
    MergeRing(mem, list, base, a, b);
    MergeApart(mem, list, base, live, a, b);
    MergeTiles(mem, list, base, live, arena, a, b);
    hide Ring, Tiles, Apart, NoneBetween;
  }

  // ---------------------------------------------------------------- free

  /** Merge `a` with the element after it if they touch. */
  function MergeNext(mem: Memory, list: set<nat>, a: nat): (Memory, set<nat>)
    requires a in mem && mem[a].ptr in mem
  {
    var b := mem[a].ptr;
    if a + mem[a].size == b then (MergeMem(mem, a, b), list - {b}) else (mem, list)
  }

  /** The units of `a`, with those of the element after it if they touch. */
  function NextUnits(mem: Memory, a: nat): nat
    requires a in mem && mem[a].ptr in mem
  {
    mem[a].size + if a + mem[a].size == mem[a].ptr then mem[mem[a].ptr].size else 0
  }

  /** The units of the block that free(bp) makes of `bp` and of its neighbours where they touch. */
  function MergedUnits(mem: Memory, p: nat, bp: nat): nat
    requires p in mem && bp in mem && mem[p].ptr in mem
  {
    mem[bp].size + (if bp + mem[bp].size == mem[p].ptr then mem[mem[p].ptr].size else 0)
      + if p + mem[p].size == bp then mem[p].size else 0
  }

  /** What free(bp) does to memory and list, `p` being the element before `bp`. */
  function Freed(mem: Memory, list: set<nat>, p: nat, bp: nat): (Memory, set<nat>)
    requires p in mem && bp in mem && mem[p].ptr in mem
  {
    var (m, l) := MergeNext(InsertMem(mem, p, bp), list + {bp}, bp);
    MergeNext(m, l, p)
  }

  /** After the insertion only the new block and the one before it can touch their successors. */
  lemma {:induction false} InsertGaps(mem: Memory, list: set<nat>, base: nat, live: map<nat, nat>, p: nat, bp: nat)
    requires Apart(mem, list, base, live) && Merged(mem, list, base) && Place(list, p, bp)
    requires bp in mem && bp !in list && p in mem && forall x :: x in list ==> base <= x
    ensures forall a :: a in list && a != p ==> Gap(InsertMem(mem, p, bp), list + {bp}, base, a)
  {
    forall a | a in list && a != p ensures Gap(InsertMem(mem, p, bp), list + {bp}, base, a) {
      assert Gap(mem, list, base, a);
      if a != base {
        assert IsBlock(list, base, live, a);
        assert p != base ==> IsBlock(list, base, live, p);
      }
    }
  }

  /** Merging `b` into `a` passes on the gap after `b`, and disturbs no other gap. */
  lemma {:induction false} MergeGaps(mem: Memory, list: set<nat>, base: nat, a: nat, b: nat)
    requires a in mem && b in mem && b in list && b != base && a != b && a + mem[a].size == b && Gap(mem, list, base, b)
    requires mem[a].size + mem[b].size < LIMIT
    ensures Gap(MergeMem(mem, a, b), list - {b}, base, a)
    ensures forall x :: x != a && Gap(mem, list, base, x) ==> Gap(MergeMem(mem, a, b), list - {b}, base, x)
  {
  }

  /** A successor that is not touched leaves a gap. */
  lemma {:induction false} NotTouching(mem: Memory, list: set<nat>, base: nat, live: map<nat, nat>, a: nat)
    requires Ring(mem, list, base) && Apart(mem, list, base, live) && a in list && a != base && a in mem
    requires a + mem[a].size != mem[a].ptr
    ensures Gap(mem, list, base, a)
  {
    assert Link(mem, list, base, a) && IsBlock(list, base, live, a);
    assert mem[a].ptr > a ==> IsBlock(list, base, live, mem[a].ptr);
  }

  /** Every free block except `x` and `y` leaves a gap. */
  ghost predicate GapsBut(mem: Memory, list: set<nat>, base: nat, x: nat, y: nat) {
    forall a :: a in list && a != x && a != y ==> Gap(mem, list, base, a)
  }

  lemma {:induction false} MergeNextKeeps(mem: Memory, list: set<nat>, base: nat, live: map<nat, nat>,
      arena: set<nat>, a: nat, x: nat)
    requires Inv(mem, list, base, live, arena) && a in list && a != base && x <= a && GapsBut(mem, list, base, a, x)
    requires a in mem && mem[a].ptr in mem ==> NextUnits(mem, a) < LIMIT
    ensures a in mem && mem[a].ptr in mem
    ensures var (m, l) := MergeNext(mem, list, a);
      Inv(m, l, base, live, arena) && GapsBut(m, l, base, x, x) && (x != a ==> Gap(m, l, base, a)) && a in l
  {
    assert Link(mem, list, base, a) && IsBlock(list, base, live, a);
    var b := mem[a].ptr;
    if a + mem[a].size == b {
      MergeKeeps(mem, list, base, live, arena, a, b);
      MergeGaps(mem, list, base, a, b);
    } else {
      NotTouching(mem, list, base, live, a);
    }
    hide Inv, Gap;
  }

  lemma {:induction false} BaseGap(mem: Memory, list: set<nat>, base: nat)
    requires GapsBut(mem, list, base, base, base)
    ensures Merged(mem, list, base)
  {
  }

  /** Where the merged block begins. */
  function MergedAt(mem: Memory, p: nat, bp: nat): nat
    requires p in mem
  {
    if p + mem[p].size == bp then p else bp
  }

  /** What is on the list after free, and with which sizes. */
  lemma {:induction false} FreedIs(mem: Memory, list: set<nat>, p: nat, bp: nat)
    requires p in mem && bp in mem && mem[p].ptr in mem && p < bp && mem[p].ptr != bp && p in list && mem[bp].size > 0
    ensures var (m, l) := Freed(mem, list, p, bp); var h := MergedAt(mem, p, bp);
      && h in l && h in m && m[h].size == MergedUnits(mem, p, bp) % LIMIT
      && (forall x :: x in l && x != h ==> x in list && (x in mem ==> x in m && m[x].size == mem[x].size))
      && (forall x :: x in l && x != h ==> !(bp + mem[bp].size == mem[p].ptr && x == mem[p].ptr))
      && (h == p ==> bp !in l)
  {
    var q := mem[p].ptr;
    ModTwice(mem[bp].size + mem[q].size, mem[p].size);
    ModTwice(mem[bp].size, mem[p].size);
    var m1 := InsertMem(mem, p, bp);
    var (m2, l2) := MergeNext(m1, list + {bp}, bp);
    assert m2[p] == m1[p];
  }

  lemma {:induction false} ModTwice(x: nat, y: nat)
    ensures (y + x % LIMIT) % LIMIT == (x + y) % LIMIT
  {
  }

  lemma {:induction false} FreePlace(mem: Memory, list: set<nat>, base: nat, live: map<nat, nat>, arena: set<nat>,
      p: nat, bp: nat)
    requires Inv(mem, list, base, live, arena) && Place(list, p, bp) && bp in live
    ensures p in mem && bp in mem && mem[p].ptr in mem && mem[p].ptr in list && bp !in list && bp != base
    ensures mem[bp].size > 0 && mem[p].ptr != bp && p in Freed(mem, list, p, bp).1
    ensures bp + mem[bp].size == mem[p].ptr ==> mem[p].ptr != base && mem[p].ptr != p
  {
    hide Tiles, NoneBetween, Covers;
    assert Link(mem, list, base, p) && IsBlock(list, base, live, bp);
  }

  /** A unit of the merged block was in one of the blocks it was made of. */
  lemma {:induction false} MergedFrom(mem: Memory, list: set<nat>, base: nat, live: map<nat, nat>, arena: set<nat>,
      p: nat, bp: nat, u: nat) returns (x: nat)
    requires Inv(mem, list, base, live, arena) && Place(list, p, bp) && bp in live
    requires p in mem && bp in mem && mem[p].ptr in mem
    requires var h := MergedAt(mem, p, bp); h <= u < h + MergedUnits(mem, p, bp)
    ensures IsBlock(list, base, live, x) && Covers(mem, x, u) && u in arena
    ensures x == bp || (x == p && MergedAt(mem, p, bp) == p) || (x == mem[p].ptr && bp + mem[bp].size == mem[p].ptr)
  {
    hide Tiles, Ring, Apart, LiveSizes;
    FreePlace(mem, list, base, live, arena, p, bp);
    BaseEmpty(mem, list, base, live, arena);
    x := if u < bp then p else if u < bp + mem[bp].size then bp else mem[p].ptr;
    CoveredIn(mem, list, base, live, arena, x, u);
  }

  lemma {:induction false} BaseEmpty(mem: Memory, list: set<nat>, base: nat, live: map<nat, nat>, arena: set<nat>)
    requires Inv(mem, list, base, live, arena)
    ensures base in mem && mem[base].size == 0
  {
  }

  lemma {:induction false} CoveredIn(mem: Memory, list: set<nat>, base: nat, live: map<nat, nat>, arena: set<nat>,
      x: nat, u: nat)
    requires Inv(mem, list, base, live, arena)
    ensures IsBlock(list, base, live, x) && Covers(mem, x, u) ==> u in arena
  {
  }

  /** Two blocks that cover the same unit are the same. */
  lemma {:induction false} CoverOnce(
    mem: Memory, list: set<nat>, base: nat, live: map<nat, nat>, x: nat, y: nat, u: nat)
    requires Apart(mem, list, base, live) && IsBlock(list, base, live, x) && IsBlock(list, base, live, y)
    requires Covers(mem, x, u) && Covers(mem, y, u)
    ensures x == y
  {
  }

  /** A merged block of 2^32 units or more leaves a unit of the arena in no block. */
  lemma {:induction false} FreeLoses(mem: Memory, list: set<nat>, base: nat, live: map<nat, nat>, arena: set<nat>,
      p: nat, bp: nat)
    requires Inv(mem, list, base, live, arena) && Place(list, p, bp) && bp in live
    requires p in mem && bp in mem && mem[p].ptr in mem && MergedUnits(mem, p, bp) >= LIMIT
    ensures var (m, l) := Freed(mem, list, p, bp); !Tiles(m, l, base, live - {bp}, arena)
  {
    hide Ring, Tiles, Freed, MergedUnits, Place;
    var (m, l) := Freed(mem, list, p, bp);
    FreePlace(mem, list, base, live, arena, p, bp);
    PlaceBelow(list, p, bp);
    FreedIs(mem, list, p, bp);
    var h := MergedAt(mem, p, bp);
    var u := h + MergedUnits(mem, p, bp) % LIMIT;
    var x := MergedFrom(mem, list, base, live, arena, p, bp, u);
    forall y: nat | IsBlock(l, base, live - {bp}, y) ensures !Covers(m, y, u) {
      OtherBlock(mem, list, base, live, p, bp, x, y, u);
    }
    NotTiled(m, l, base, live - {bp}, arena, u);
  }

  lemma {:induction false} PlaceBelow(list: set<nat>, p: nat, bp: nat)
    requires Place(list, p, bp)
    ensures p in list && p < bp
  {
  }

  lemma {:induction false} NotTiled(
    mem: Memory, list: set<nat>, base: nat, live: map<nat, nat>, arena: set<nat>, u: nat)
    requires u in arena && forall y: nat :: IsBlock(list, base, live, y) ==> !Covers(mem, y, u)
    ensures !Tiles(mem, list, base, live, arena)
  {
  }

  /** No block but the merged one covers a unit that a merged block `x` covered. */
  lemma {:induction false} OtherBlock(mem: Memory, list: set<nat>, base: nat, live: map<nat, nat>, p: nat, bp: nat,
      x: nat, y: nat, u: nat)
    requires Apart(mem, list, base, live) && LiveSizes(mem, list, live) && bp in live && p in list && p < bp
    requires p in mem && bp in mem && mem[p].ptr in mem && mem[p].ptr != bp && mem[bp].size > 0 && mem[p].ptr in list
    requires IsBlock(list, base, live, x) && Covers(mem, x, u)
    requires x == bp || (x == p && MergedAt(mem, p, bp) == p) || (x == mem[p].ptr && bp + mem[bp].size == mem[p].ptr)
    requires u == MergedAt(mem, p, bp) + MergedUnits(mem, p, bp) % LIMIT
    requires IsBlock(Freed(mem, list, p, bp).1, base, live - {bp}, y)
    ensures !Covers(Freed(mem, list, p, bp).0, y, u)
  {
    hide Freed, MergedUnits, Apart;
    var (m, l) := Freed(mem, list, p, bp);
    FreedIs(mem, list, p, bp);
    if y != MergedAt(mem, p, bp) && Covers(m, y, u) {
      if y in live {
        FreedLive(mem, list, live, p, bp, y);
      } else {
        FreedListed(mem, list, base, live, y);
      }
      assert IsBlock(list, base, live, y) && Covers(mem, y, u);
      CoverOnce(mem, list, base, live, x, y, u);
    }
  }

  lemma {:induction false} FreedListed(mem: Memory, list: set<nat>, base: nat, live: map<nat, nat>, y: nat)
    requires Apart(mem, list, base, live) && y in list && y != base
    ensures y in mem && IsBlock(list, base, live, y)
  {
  }

  lemma {:induction false} FreedLive(mem: Memory, list: set<nat>, live: map<nat, nat>, p: nat, bp: nat, y: nat)
    requires LiveSizes(mem, list, live) && p in list && y in live && y != bp
    requires p in mem && bp in mem && mem[p].ptr in mem
    ensures y in mem && y in Freed(mem, list, p, bp).0 && Freed(mem, list, p, bp).0[y] == mem[y]
  {
    FreeWrites(mem, list, p, bp, y);
  }

  lemma {:induction false} InvTiles(mem: Memory, list: set<nat>, base: nat, live: map<nat, nat>, arena: set<nat>)
    requires Inv(mem, list, base, live, arena)
    ensures Tiles(mem, list, base, live, arena)
  {
  }

  lemma {:induction false} FreeFits(mem: Memory, list: set<nat>, base: nat, live: map<nat, nat>, arena: set<nat>,
      p: nat, bp: nat)
    requires Inv(mem, list, base, live, arena) && Merged(mem, list, base) && Place(list, p, bp) && bp in live
    requires p in mem && bp in mem && mem[p].ptr in mem && MergedUnits(mem, p, bp) < LIMIT
    ensures var (m, l) := Freed(mem, list, p, bp);
      Inv(m, l, base, live - {bp}, arena) && Merged(m, l, base) && p in l
  {
    hide Tiles, Apart, NoneBetween, Covers, Gap, Ring;
    FreePlace(mem, list, base, live, arena, p, bp);
    InsertKeeps(mem, list, base, live, arena, p, bp);
    ListAbove(mem, list, base);
    InsertGaps(mem, list, base, live, p, bp);
    var m1, l1, v := InsertMem(mem, p, bp), list + {bp}, live - {bp};
    assert GapsBut(m1, l1, base, bp, p);
    MergeNextKeeps(m1, l1, base, v, arena, bp, p);
    var (m2, l2) := MergeNext(m1, l1, bp);
    assert NextUnits(m1, bp) + (if p + mem[p].size == bp then mem[p].size else 0) == MergedUnits(mem, p, bp);
    assert m2[p] == m1[p] && p in l2 && m1[p].ptr == bp && m2[bp].size == NextUnits(m1, bp);
    if p != base {
      MergeNextKeeps(m2, l2, base, v, arena, p, base);
    }
    assert p == base ==> m2[p].size == 0;
    var (m3, l3) := MergeNext(m2, l2, p);
    BaseGap(m3, l3, base);
  }

  lemma {:induction false} ListAbove(mem: Memory, list: set<nat>, base: nat)
    requires Ring(mem, list, base)
    ensures base in list && forall x :: x in list ==> base <= x
  {
  }

  /**
   free puts the block back: the arena is tiled as before, and no two free blocks touch,
   if and only if the merged block has less than 2^32 units.
   */
  lemma {:induction false} FreeKeeps(mem: Memory, list: set<nat>, base: nat, live: map<nat, nat>, arena: set<nat>,
      p: nat, bp: nat)
    requires Inv(mem, list, base, live, arena) && Merged(mem, list, base) && Place(list, p, bp) && bp in live
    ensures p in mem && bp in mem && mem[p].ptr in mem
    ensures var (m, l) := Freed(mem, list, p, bp);
      && (Inv(m, l, base, live - {bp}, arena) <==> MergedUnits(mem, p, bp) < LIMIT)
      && (MergedUnits(mem, p, bp) < LIMIT ==> Merged(m, l, base)) && p in l
  {
    hide Inv, Merged, Freed;
    FreePlace(mem, list, base, live, arena, p, bp);
    if MergedUnits(mem, p, bp) < LIMIT {
      FreeFits(mem, list, base, live, arena, p, bp);
    } else {
      FreeLoses(mem, list, base, live, arena, p, bp);
      var (m, l) := Freed(mem, list, p, bp);
      if Inv(m, l, base, live - {bp}, arena) {
        InvTiles(m, l, base, live - {bp}, arena);
      }
    }
  }
  lemma {:induction false} RegionSize(a: nat, n: nat)
    ensures |Region(a, n)| == n
  {
    if n > 0 {
      RegionSize(a, n - 1);
      OneMore(Region(a, n - 1), a + n - 1);
    }
  }

  lemma {:induction false} OneMore(r: set<nat>, x: nat)
    requires x !in r
    ensures |r + {x}| == |r| + 1
  {
  }

  lemma {:induction false} SubsetSize(a: set<nat>, b: set<nat>)
    requires a <= b
    ensures |a| <= |b|
  {
    assert b == a + (b - a);
  }

  /** The merged block lies in the arena, so an arena below 2^32 units never sees one that wraps. */
  lemma {:induction false} ArenaFits(mem: Memory, list: set<nat>, base: nat, live: map<nat, nat>, arena: set<nat>,
      p: nat, bp: nat)
    requires Inv(mem, list, base, live, arena) && Place(list, p, bp) && bp in live
    requires p in mem && bp in mem && mem[p].ptr in mem
    ensures MergedUnits(mem, p, bp) <= |arena|
  {
    hide Inv, MergedUnits, Place;
    var h, n := MergedAt(mem, p, bp), MergedUnits(mem, p, bp);
    forall u | u in Region(h, n) ensures u in arena {
      var x := MergedFrom(mem, list, base, live, arena, p, bp, u);
    }
    RegionSize(h, n);
    SubsetSize(Region(h, n), arena);
  }

  /** free writes the headers of the block and of the element before it, and no other word. */
  lemma {:induction false} FreeWrites(mem: Memory, list: set<nat>, p: nat, bp: nat, u: nat)
    requires p in mem && bp in mem && mem[p].ptr in mem && u in mem && u != p && u != bp
    ensures u in Freed(mem, list, p, bp).0 && Freed(mem, list, p, bp).0[u] == mem[u]
  {
  }

  /** A word inside a live block is neither the base nor the header of another block. */
  lemma {:induction false} Inside(mem: Memory, list: set<nat>, base: nat, live: map<nat, nat>, arena: set<nat>,
      a: nat, u: nat, x: nat)
    requires Inv(mem, list, base, live, arena) && a in live && Covers(mem, a, u) && x != a
    requires (IsBlock(list, base, live, x) || x == base)
    ensures u != x && u in arena
  {
    hide Ring, LiveSizes;
    assert IsBlock(list, base, live, a);
  }

  lemma {:induction false} FreeContents(mem: Memory, list: set<nat>, base: nat, live: map<nat, nat>, arena: set<nat>,
      p: nat, bp: nat)
    requires Inv(mem, list, base, live, arena) && p in list && bp in live
    requires p in mem && bp in mem && mem[p].ptr in mem
    ensures ContentsKept(mem, Freed(mem, list, p, bp).0, live - {bp})
  {
    forall a: nat, u: nat | a in live - {bp} && Covers(mem, a, u) && u in mem
      ensures u in Freed(mem, list, p, bp).0 && Freed(mem, list, p, bp).0[u] == mem[u]
    {
      assert a in live && a !in list;
      assert IsBlock(list, base, live, bp) && (p == base || IsBlock(list, base, live, p));
      hide Inv, IsBlock, Freed, Covers;
      Inside(mem, list, base, live, arena, a, u, p);
      Inside(mem, list, base, live, arena, a, u, bp);
      FreeWrites(mem, list, p, bp, u);
    }
  }

  /** The freed units are now part of a free block at least as large. */
  lemma {:induction false} FreeRoom(mem: Memory, list: set<nat>, p: nat, bp: nat)
    requires p in mem && bp in mem && mem[p].ptr in mem && p in list && p < bp && mem[bp].size > 0
    requires mem[p].ptr != bp && MergedUnits(mem, p, bp) < LIMIT
    ensures var (m, l) := Freed(mem, list, p, bp);
      exists a :: a in l && a in m && m[a].size >= mem[bp].size
  {
    hide Freed;
    FreedIs(mem, list, p, bp);
    assert MergedUnits(mem, p, bp) % LIMIT == MergedUnits(mem, p, bp);
  }

  // ---------------------------------------------------------------- taking a block off the list

  function TakeWhole(mem: Memory, p: nat, a: nat): Memory
    requires p in mem && a in mem
  {
    mem[p := Header(mem[a].ptr, mem[p].size)]
  }

  lemma {:induction false} UnlinkRing(mem: Memory, list: set<nat>, base: nat, p: nat, a: nat)
    requires Ring(mem, list, base) && p in list && p in mem && mem[p].ptr == a && a != base
    ensures a in mem && a in list && a != p && Ring(TakeWhole(mem, p, a), list - {a}, base)
  {
    assert Link(mem, list, base, p) && Link(mem, list, base, a);
    var m, l := TakeWhole(mem, p, a), list - {a};
    forall x | x in l ensures base <= x && Link(m, l, base, x) {
      assert Link(mem, list, base, x);
    }
  }

  lemma {:induction false} TakeWholeKeeps(mem: Memory, list: set<nat>, base: nat, live: map<nat, nat>,
      arena: set<nat>, p: nat, a: nat)
    requires Inv(mem, list, base, live, arena) && Merged(mem, list, base) && p in list && p in mem && mem[p].ptr == a
    requires a != base
    ensures a in mem && a !in live && a in list && p in list - {a}
    ensures Inv(TakeWhole(mem, p, a), list - {a}, base, live[a := mem[a].size], arena)
    ensures Merged(TakeWhole(mem, p, a), list - {a}, base)
  {
    hide Tiles, Apart, Covers, NoneBetween, Link;
    UnlinkRing(mem, list, base, p, a);
    var m, l, v := TakeWhole(mem, p, a), list - {a}, live[a := mem[a].size];
    assert a !in live;
    WholeBlocks(mem, list, base, live, p, a);
    SameTiles(mem, list, live, m, l, v, base, arena);
    forall x | x in l ensures Gap(m, l, base, x) {
      assert Gap(mem, list, base, x);
    }
    hide Ring, Gap;
  }

  lemma {:induction false} WholeBlocks(mem: Memory, list: set<nat>, base: nat, live: map<nat, nat>, p: nat, a: nat)
    requires Apart(mem, list, base, live) && a in list && a != base && a in mem && p in mem
    ensures SameBlocks(mem, list, live, TakeWhole(mem, p, a), list - {a}, live[a := mem[a].size], base)
  {
  }

  /** Cut `n` units off the end of the free block `a`. */
  function TakeTail(mem: Memory, a: nat, n: nat): Memory
    requires a in mem && n < mem[a].size && a + mem[a].size - n in mem
  {
    var q := a + mem[a].size - n;
    mem[a := Header(mem[a].ptr, mem[a].size - n)][q := Header(mem[q].ptr, n)]
  }

  lemma {:induction false} TailApart(mem: Memory, list: set<nat>, base: nat, live: map<nat, nat>, arena: set<nat>,
      a: nat, n: nat)
    requires Inv(mem, list, base, live, arena) && a in list && a != base && a in mem && 0 < n < mem[a].size
    ensures var q := a + mem[a].size - n;
      q in mem && q in arena && q > a && q !in list && q !in live && q != base
  {
    var q := a + mem[a].size - n;
    assert IsBlock(list, base, live, a) && Covers(mem, a, q);
    hide Ring, LiveSizes;
    assert !IsBlock(list, base, live, q);
  }

  lemma {:induction false} TailBlocks(list: set<nat>, base: nat, live: map<nat, nat>, a: nat, q: nat, n: nat)
    requires a in list && a != base && q !in list && q !in live && q != base
    ensures IsBlock(list, base, live, a) && !IsBlock(list, base, live, q)
    ensures forall x: nat :: IsBlock(list, base, live[q := n], x) <==> IsBlock(list, base, live, x) || x == q
  {
  }

  lemma {:induction false} TailBeside(mem: Memory, list: set<nat>, base: nat, live: map<nat, nat>, a: nat, n: nat)
    requires Apart(mem, list, base, live)
    requires a in list && a != base && a in mem && 0 < n < mem[a].size && a !in live
    requires var q := a + mem[a].size - n; q in mem && q !in list && q !in live && q != base
    ensures var q := a + mem[a].size - n; Apart(TakeTail(mem, a, n), list, base, live[q := n])
  {
    hide IsBlock;
    var q := a + mem[a].size - n;
    var m, v := TakeTail(mem, a, n), live[q := n];
    TailBlocks(list, base, live, a, q, n);
    forall x: nat, y: nat | IsBlock(list, base, v, x) && IsBlock(list, base, v, y) && x < y
      ensures x in m && m[x].size > 0 && y in m && m[y].size > 0 && x + m[x].size <= y
    {
      assert x == q || IsBlock(list, base, live, x);
      assert y == q || IsBlock(list, base, live, y);
    }
  }

  lemma {:induction false} TailTiles(mem: Memory, list: set<nat>, base: nat, live: map<nat, nat>, arena: set<nat>,
      a: nat, n: nat)
    requires Apart(mem, list, base, live) && Tiles(mem, list, base, live, arena)
    requires a in list && a != base && a in mem && 0 < n < mem[a].size && a !in live
    requires var q := a + mem[a].size - n; q in mem && q !in list && q !in live && q != base
    ensures var q := a + mem[a].size - n; var m, v := TakeTail(mem, a, n), live[q := n];
      Apart(m, list, base, v) && Tiles(m, list, base, v, arena)
  {
    hide IsBlock;
    var q := a + mem[a].size - n;
    var m, v := TakeTail(mem, a, n), live[q := n];
    TailBlocks(list, base, live, a, q, n);
    TailBeside(mem, list, base, live, a, n);
    forall u: nat ensures u in arena <==> exists x: nat :: IsBlock(list, base, v, x) && Covers(m, x, u) {
      if x: nat :| IsBlock(list, base, live, x) && Covers(mem, x, u) {
        var y := if x == a && u >= q then q else x;
        assert IsBlock(list, base, v, y) && Covers(m, y, u);
      }
      if y: nat :| IsBlock(list, base, v, y) && Covers(m, y, u) {
        var x := if y == q then a else y;
        assert IsBlock(list, base, live, x) && Covers(mem, x, u);
      }
    }
  }

  lemma {:induction false} TailRing(mem: Memory, list: set<nat>, base: nat, a: nat, n: nat)
    requires Ring(mem, list, base) && a in mem && n < mem[a].size
    requires var q := a + mem[a].size - n; q in mem && q !in list
    ensures Ring(TakeTail(mem, a, n), list, base)
  {
    var m := TakeTail(mem, a, n);
    forall x | x in list ensures Link(m, list, base, x) {
      assert Link(mem, list, base, x);
    }
  }

  lemma {:induction false} TakeTailKeeps(mem: Memory, list: set<nat>, base: nat, live: map<nat, nat>, arena: set<nat>,
      a: nat, n: nat)
    requires Inv(mem, list, base, live, arena) && Merged(mem, list, base)
    requires a in list && a != base && a in mem && 0 < n < mem[a].size
    ensures var q := a + mem[a].size - n;
      && q in mem && q !in list && q !in live && q in arena
      && Inv(TakeTail(mem, a, n), list, base, live[q := n], arena) && Merged(TakeTail(mem, a, n), list, base)
  {
    hide Tiles, Apart, Covers, NoneBetween, Link;
    var q := a + mem[a].size - n;
    TailApart(mem, list, base, live, arena, a, n);
    TailRing(mem, list, base, a, n);
    TailTiles(mem, list, base, live, arena, a, n);
    var m := TakeTail(mem, a, n);
    forall x | x in list ensures Gap(m, list, base, x) {
      assert Gap(mem, list, base, x);
    }
    hide Ring, Gap;
  }

  /** Taking a block writes headers of free blocks and of the block itself, so live blocks keep their contents. */
  lemma {:induction false} TakeContents(mem: Memory, list: set<nat>, base: nat, live: map<nat, nat>, arena: set<nat>,
      p: nat, a: nat, n: nat)
    requires Inv(mem, list, base, live, arena) && p in list && p in mem && a in list && a != base && a in mem
    ensures ContentsKept(mem, TakeWhole(mem, p, a), live)
    ensures 0 < n < mem[a].size ==> a + mem[a].size - n in mem && ContentsKept(mem, TakeTail(mem, a, n), live)
  {
    forall b: nat, u: nat | b in live && Covers(mem, b, u) && u in mem ensures u != p && u != a {
      assert b !in list && (p == base || IsBlock(list, base, live, p)) && IsBlock(list, base, live, a);
      hide Inv, IsBlock, Covers;
      Inside(mem, list, base, live, arena, b, u, p);
      Inside(mem, list, base, live, arena, b, u, a);
    }
    if 0 < n < mem[a].size {
      TailApart(mem, list, base, live, arena, a, n);
      var q := a + mem[a].size - n;
      forall b: nat, u: nat | b in live && Covers(mem, b, u) && u in mem ensures u != q {
        InnerApart(mem, list, base, live, a, q, b);
      }
    }
    hide Inv, Covers;
  }

  /** A word inside a free block is in no live block. */
  lemma {:induction false} InnerApart(mem: Memory, list: set<nat>, base: nat, live: map<nat, nat>, a: nat, u: nat,
      b: nat)
    requires Apart(mem, list, base, live) && LiveSizes(mem, list, live) && a in list && a != base && Covers(mem, a, u)
    requires b in live
    ensures !Covers(mem, b, u)
  {
    assert IsBlock(list, base, live, a) && IsBlock(list, base, live, b);
  }

  // ---------------------------------------------------------------- more memory

  /** The units of a region. */
  function Region(a: nat, n: nat): (r: set<nat>)
    ensures forall u :: u in r <==> a <= u < a + n
  {
    if n == 0 then {} else Region(a, n - 1) + {a + n - 1}
  }

  /** Memory after sbrk has added the region and morecore has written its header. */
  function Grown(mem: Memory, a: nat, n: Uint): Memory {
    (mem + map u | u in Region(a, n) :: Header(0, 0))[a := Header(0, n)]
  }

  /** A fresh region lies to one side of every block. */
  lemma {:induction false} Beside(mem: Memory, list: set<nat>, base: nat, live: map<nat, nat>, arena: set<nat>,
      a: nat, n: nat, x: nat)
    requires Apart(mem, list, base, live) && Tiles(mem, list, base, live, arena) && Region(a, n) !! arena && n > 0
    requires IsBlock(list, base, live, x)
    ensures x in mem && (x + mem[x].size <= a || a + n <= x)
  {
    hide IsBlock;
    var u := if x <= a then a else x;
    assert Covers(mem, x, u) ==> u in arena;
  }

  lemma {:induction false} GrowBlocks(mem: Memory, list: set<nat>, base: nat, live: map<nat, nat>, arena: set<nat>,
      a: nat, n: Uint)
    requires Apart(mem, list, base, live) && Tiles(mem, list, base, live, arena) && Region(a, n) !! arena && n > 0
    requires base < a
    ensures var m := Grown(mem, a, n);
      && a in m && m[a].size == n
      && (forall x: nat :: IsBlock(list, base, live[a := n], x) <==> IsBlock(list, base, live, x) || x == a)
      && forall x: nat :: IsBlock(list, base, live, x) ==>
           x in mem && (x + mem[x].size <= a || a + n <= x) && x in m && m[x] == mem[x]
  {
    var m := Grown(mem, a, n);
    forall x: nat | IsBlock(list, base, live, x)
      ensures x in mem && (x + mem[x].size <= a || a + n <= x) && x in m && m[x] == mem[x]
    {
      Beside(mem, list, base, live, arena, a, n, x);
    }
  }

  lemma {:induction false} GrowTiles(mem: Memory, list: set<nat>, base: nat, live: map<nat, nat>, arena: set<nat>,
      a: nat, n: Uint)
    requires Apart(mem, list, base, live) && Tiles(mem, list, base, live, arena) && Region(a, n) !! arena && n > 0
    requires base < a
    ensures Apart(Grown(mem, a, n), list, base, live[a := n])
    ensures Tiles(Grown(mem, a, n), list, base, live[a := n], arena + Region(a, n))
  {
    var m, v := Grown(mem, a, n), live[a := n];
    GrowBlocks(mem, list, base, live, arena, a, n);
    assert Apart(m, list, base, v) by {
      hide IsBlock, Grown, Tiles, Covers, Region;
      forall x: nat, y: nat | IsBlock(list, base, v, x) && IsBlock(list, base, v, y) && x < y
        ensures x in m && y in m && x + m[x].size <= y
      {
        assert x == a || IsBlock(list, base, live, x);
        assert y == a || IsBlock(list, base, live, y);
      }
    }
    GrowCover(mem, list, base, live, arena, a, n);
  }

  lemma {:induction false} GrowCover(mem: Memory, list: set<nat>, base: nat, live: map<nat, nat>, arena: set<nat>,
      a: nat, n: Uint)
    requires Apart(mem, list, base, live) && Tiles(mem, list, base, live, arena) && Region(a, n) !! arena && n > 0
    requires base < a
    ensures Tiles(Grown(mem, a, n), list, base, live[a := n], arena + Region(a, n))
  {
    var m, v, r := Grown(mem, a, n), live[a := n], arena + Region(a, n);
    GrowBlocks(mem, list, base, live, arena, a, n);
    hide IsBlock, Grown, Apart;
    forall u: nat ensures u in r <==> exists x: nat :: IsBlock(list, base, v, x) && Covers(m, x, u) {
      if x: nat :| IsBlock(list, base, live, x) && Covers(mem, x, u) {
        assert IsBlock(list, base, v, x) && Covers(m, x, u);
      }
      if u in Region(a, n) {
        assert IsBlock(list, base, v, a) && Covers(m, a, u);
      }
      if y: nat :| IsBlock(list, base, v, y) && Covers(m, y, u) {
        assert if y == a then u in Region(a, n) else Covers(mem, y, u);
      }
    }
  }

  lemma {:induction false} GrowRing(mem: Memory, list: set<nat>, base: nat, a: nat, n: Uint)
    requires Ring(mem, list, base) && n > 0 && Region(a, n) !! list
    ensures Ring(Grown(mem, a, n), list, base)
  {
    var m := Grown(mem, a, n);
    assert a in Region(a, n);
    forall x | x in list ensures x in m && Link(m, list, base, x) {
      assert Link(mem, list, base, x);
    }
  }

  /** A fresh region meets no element of the list and no live block. */
  lemma {:induction false} GrowFresh(mem: Memory, list: set<nat>, base: nat, live: map<nat, nat>, arena: set<nat>,
      a: nat, n: nat)
    requires Inv(mem, list, base, live, arena) && n > 0 && base < a && Region(a, n) !! arena
    ensures Region(a, n) !! list && forall x: nat, u: nat :: x in live && Covers(mem, x, u) ==> u !in Region(a, n)
  {
    forall x | x in list ensures x !in Region(a, n) {
      if x != base {
        assert IsBlock(list, base, live, x) && Covers(mem, x, x);
      }
    }
    forall x: nat, u: nat | x in live && Covers(mem, x, u) ensures u !in Region(a, n) {
      assert IsBlock(list, base, live, x);
    }
  }

  /** sbrk and the new header: a live block more, about to be freed; nothing else has changed. */
  lemma {:induction false} GrowKeeps(mem: Memory, list: set<nat>, base: nat, live: map<nat, nat>, arena: set<nat>,
      a: nat, n: Uint)
    requires Inv(mem, list, base, live, arena) && Merged(mem, list, base) && n > 0 && base < a && Region(a, n) !! arena
    ensures a !in live
    ensures Inv(Grown(mem, a, n), list, base, live[a := n], arena + Region(a, n))
    ensures Merged(Grown(mem, a, n), list, base) && ContentsKept(mem, Grown(mem, a, n), live)
  {
    hide Tiles, Apart, NoneBetween, Link;
    GrowFresh(mem, list, base, live, arena, a, n);
    GrowRing(mem, list, base, a, n);
    GrowTiles(mem, list, base, live, arena, a, n);
    var m := Grown(mem, a, n);
    assert a in Region(a, n);
    assert forall u :: u in mem && u !in Region(a, n) ==> u in m && m[u] == mem[u];
    assert forall u :: u in Region(a, n) ==> u in m;
    forall x | x in live ensures Covers(mem, x, x) {
      LiveCovers(mem, list, base, live, x);
    }
    hide Grown, Region, Covers;
    forall x | x in list ensures Gap(m, list, base, x) {
      assert Gap(mem, list, base, x);
    }
    hide Ring, Gap;
  }

  lemma {:induction false} LiveCovers(mem: Memory, list: set<nat>, base: nat, live: map<nat, nat>, x: nat)
    requires Apart(mem, list, base, live) && x in live
    ensures Covers(mem, x, x)
  {
    assert IsBlock(list, base, live, x);
  }

  /** The block that morecore makes of a new region has less than 2^32 units. */
  ghost predicate GrowthFits(mem: Memory, list: set<nat>, a: nat, n: Uint) {
    var m := Grown(mem, a, n);
    forall p :: Place(list, p, a) && p in m && a in m && m[p].ptr in m ==> MergedUnits(m, p, a) < LIMIT
  }

  /** There is one place for a block. */
  lemma {:induction false} OnePlace(list: set<nat>, p: nat, q: nat, bp: nat)
    requires Place(list, p, bp) && Place(list, q, bp)
    ensures p == q
  {
  }

  lemma {:induction false} GrowthFitsAt(mem: Memory, list: set<nat>, a: nat, n: Uint, p: nat)
    requires Place(list, p, a)
    requires var m := Grown(mem, a, n); p in m && a in m && m[p].ptr in m
    ensures GrowthFits(mem, list, a, n) <==> MergedUnits(Grown(mem, a, n), p, a) < LIMIT
  {
    hide Place, MergedUnits, Grown;
    forall q | Place(list, q, a) ensures q == p {
      OnePlace(list, p, q, a);
    }
  }

  // ---------------------------------------------------------------- the search of malloc

  /** The elements a search from `f` has looked at when it stands at `p`. */
  predicate Visited(f: nat, p: nat, x: nat) {
    if p >= f then f < x <= p else x > f || x <= p
  }

  ghost function Ahead(list: set<nat>, f: nat, p: nat): set<nat> {
    set x | x in list && !Visited(f, p, x)
  }

  /** One step along the ring looks at one more element. */
  lemma {:induction false} VisitMore(list: set<nat>, base: nat, f: nat, p: nat, q: nat)
    requires Follows(list, base, p, q) && f in list && p in list && q != f && forall x :: x in list ==> base <= x
    ensures forall x :: x in list ==> (Visited(f, q, x) <==> Visited(f, p, x) || x == q)
    ensures Ahead(list, f, q) < Ahead(list, f, p)
  {
    assert q in Ahead(list, f, p) && q !in Ahead(list, f, q);
  }

  /** Back at `f`, the search has looked at everything. */
  lemma {:induction false} VisitAll(list: set<nat>, base: nat, f: nat, p: nat)
    requires Follows(list, base, p, f) && f in list && p in list && forall x :: x in list ==> base <= x
    ensures forall x :: x in list ==> Visited(f, p, x) || x == f
  {
  }

  /** Block `a`, after `p`, is the first from `f` on that has room for `n` units. */
  ghost predicate FirstFit(mem: Memory, list: set<nat>, f: nat, n: nat, p: nat, a: nat) {
    && p in list && a in list && p in mem && a in mem && mem[p].ptr == a && mem[a].size >= n
    && Skipped(mem, list, f, n, p)
  }

  ghost predicate Skipped(mem: Memory, list: set<nat>, f: nat, n: nat, p: nat) {
    forall x :: x in list && Visited(f, p, x) ==> x in mem && mem[x].size < n
  }

  ghost predicate Room(mem: Memory, list: set<nat>, n: nat) {
    exists a :: a in list && a in mem && mem[a].size >= n
  }

  /** Units for a request, with one for the header. */
  function Units(nbytes: nat): nat { (nbytes + 15) / 16 + 1 }

  /** What morecore asks sbrk for. */
  function Ask(n: nat): nat { if n < 4096 then 4096 else n }

  /** The value of a byte count passed as a 32-bit int. */
  function AsInt(x: nat): int {
    var w := x % 0x1_0000_0000;
    if w < 0x8000_0000 then w else w - 0x1_0000_0000
  }

  /** The block has room for the bytes, and the argument of sbrk is right below 2^31 - 31 bytes only. */
  lemma {:induction false} UnitsFit(nbytes: nat)
    requires nbytes < 0x1_0000_0000
    ensures nbytes <= (Units(nbytes) - 1) * 16 < nbytes + 16
    ensures AsInt(Ask(Units(nbytes)) * 16) == Ask(Units(nbytes)) * 16 <==> nbytes < 0x8000_0000 - 31
  {
  }
}
