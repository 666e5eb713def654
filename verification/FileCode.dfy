/**
 The loops of `kernel/fs.c` and `filewrite` of `kernel/file.c` over the bitmap
 bytes, blocks and inodes they change in place. `logged` collects the block
 numbers passed to log_write.
 */
module FileCode {
  import opened Common
  import opened FileBlocks

  /** The most bytes filewrite puts in one transaction. */
  const MAXCHUNK: nat := (MAXOPBLOCKS - 1 - 1 - 2) / 2 * BSIZE

  // ---------------------------------------------------------------- bitmap bytes

  /** 1 << k */
  function Mask(k: nat): bv8 {
    if k == 0 then 1 else if k == 1 then 2 else if k == 2 then 4 else if k == 3 then 8
    else if k == 4 then 16 else if k == 5 then 32 else if k == 6 then 64 else 128
  }

  predicate Bit(bitmap: seq<bv8>, b: nat)
    requires b / 8 < |bitmap|
  {
    bitmap[b / 8] & Mask(b % 8) != 0
  }

  /** The bitmap as one flag for each of `size` blocks. */
  function Bits(bitmap: seq<bv8>, size: nat): (used: seq<bool>)
    requires size <= 8 * |bitmap|
    ensures |used| == size && forall b: nat :: b < size ==> used[b] == Bit(bitmap, b)
  {
    seq(size, (b: nat) requires b < size => Bit(bitmap, b))
  }

  lemma {:induction false} MaskOr(x: bv8, k: nat, j: nat)
    requires k < 8 && j < 8
    ensures (x | Mask(k)) & Mask(j) != 0 <==> j == k || x & Mask(j) != 0
  {
  }

  lemma {:induction false} MaskClear(x: bv8, k: nat, j: nat)
    requires k < 8 && j < 8
    ensures (x & !Mask(k)) & Mask(j) != 0 <==> j != k && x & Mask(j) != 0
  {
  }

  /** Setting bit `b` of its byte marks block `b` and no other. */
  lemma {:induction false} SetBit(bitmap: seq<bv8>, size: nat, b: nat)
    requires b < size <= 8 * |bitmap|
    ensures Bits(bitmap[b / 8 := bitmap[b / 8] | Mask(b % 8)], size) == Bits(bitmap, size)[b := true]
  {
    var bitmap' := bitmap[b / 8 := bitmap[b / 8] | Mask(b % 8)];
    forall c: nat | c < size ensures Bit(bitmap', c) == (c == b || Bit(bitmap, c)) {
      if c / 8 == b / 8 {
        MaskOr(bitmap[b / 8], b % 8, c % 8);
      }
    }
  }

  lemma {:induction false} ClearBit(bitmap: seq<bv8>, size: nat, b: nat)
    requires b < size <= 8 * |bitmap|
    ensures Bits(bitmap[b / 8 := bitmap[b / 8] & !Mask(b % 8)], size) == Bits(bitmap, size)[b := false]
  {
    var bitmap' := bitmap[b / 8 := bitmap[b / 8] & !Mask(b % 8)];
    forall c: nat | c < size ensures Bit(bitmap', c) == (c != b && Bit(bitmap, c)) {
      if c / 8 == b / 8 {
        MaskClear(bitmap[b / 8], b % 8, c % 8);
      }
    }
  }

  /** A moment: the file system, and what had been logged. */
  datatype Mark = Mark(fs: Fs, logged: set<nat>)

  class FileSystem {
    const nmeta: nat
    const size: nat
    const inodestart: nat
    const bmapstart: nat
    var bitmap: seq<bv8>
    var blocks: seq<Block>
    var inodes: seq<Inode>
    var logged: set<nat>

    function State(): Fs
      requires size <= 8 * |bitmap|
      reads this
    {
      Fs(nmeta, Bits(bitmap, size), blocks, inodes)
    }

    ghost predicate Valid()
      reads this
    {
      size <= 8 * |bitmap| && Inv(State())
    }

    lemma {:induction false} ValidFacts()
      requires Valid()
      ensures size <= 8 * |bitmap| && Inv(State()) && Shape(State())
      ensures State().inodes == inodes && State().blocks == blocks && |State().used| == size == |blocks|
    {
    }

    constructor (nmeta: nat, size: nat, inodestart: nat, bmapstart: nat,
                 bitmap: seq<bv8>, blocks: seq<Block>, inodes: seq<Inode>)
      requires size <= 8 * |bitmap| && Inv(Fs(nmeta, Bits(bitmap, size), blocks, inodes))
      ensures Valid() && State() == Fs(nmeta, Bits(bitmap, size), blocks, inodes) && logged == {}
      ensures this.nmeta == nmeta && this.size == size && this.inodestart == inodestart && this.bmapstart == bmapstart
    {
      this.nmeta, this.size, this.inodestart, this.bmapstart := nmeta, size, inodestart, bmapstart;
      this.bitmap, this.blocks, this.inodes, logged := bitmap, blocks, inodes, {};
    }

    /** begin_op: a transaction has logged nothing yet. */
    method Clear()
      requires Valid()
      modifies this`logged
      ensures Valid() && State() == old(State()) && logged == {}
    {
      logged := {};
    }

    /** The bitmap block holding the bit of block `b`. */
    function BBlock(b: nat): nat { b / BPB + bmapstart }

    /** The block holding inode `i`. */
    function IBlock(i: nat): nat { i / IPB + inodestart }

    /** A data block or a block of the bitmap. */
    predicate Place(b: nat) {
      nmeta <= b < size || bmapstart <= b <= bmapstart + size / BPB
    }

    ghost function Now(): Mark
      requires size <= 8 * |bitmap|
      reads this
    {
      Mark(State(), logged)
    }

    lemma {:induction false} NowIs()
      requires size <= 8 * |bitmap|
      ensures Now() == Mark(State(), logged)
    {
    }

    /** Between two moments every change is logged, and nothing else; the blocks in `more` may be left out. */
    ghost predicate Tracked(a: Mark, b: Mark, more: set<nat>) {
      && a.logged <= b.logged && (forall x :: x in b.logged ==> x in a.logged || Place(x) || x in more)
      && Covered(a.fs, b.fs, inodestart, bmapstart, b.logged + more)
    }

    ghost predicate Since(a: Mark, more: set<nat>)
      requires size <= 8 * |bitmap|
      reads this
    {
      Tracked(a, Now(), more)
    }

    lemma {:induction false} SinceNow(more: set<nat>)
      requires size <= 8 * |bitmap|
      ensures Since(Now(), more)
    {
    }

    lemma {:induction false} SinceTrans(a: Mark, m: Mark, more: set<nat>)
      requires size <= 8 * |bitmap| && Tracked(a, m, more) && Since(m, more)
      ensures Since(a, more)
    {
      hide Bits, Covered;
      CoveredTrans(a.fs, m.fs, State(), inodestart, bmapstart, m.logged + more, logged + more);
    }

    lemma {:induction false} SinceWiden(a: Mark, some: set<nat>, more: set<nat>)
      requires size <= 8 * |bitmap| && Since(a, some) && some <= more
      ensures Since(a, more)
    {
      hide Bits, Place;
    }

    lemma {:induction false} SinceAll(a: Mark, x: nat)
      requires size <= 8 * |bitmap| && Since(a, {x}) && x in logged
      ensures Covered(a.fs, State(), inodestart, bmapstart, logged)
      ensures forall b :: b in logged ==> b in a.logged || Place(b) || b == x
    {
      hide Bits, Covered, Place;
      assert logged + {x} == logged;
    }

    /** A change of inode `i`, logged or not. */
    lemma {:induction false} SinceInode(a: Mark, m: Mark, i: nat, n: Inode)
      requires size <= 8 * |bitmap| && i < |m.fs.inodes| && Tracked(a, m, {IBlock(i)})
      requires logged == m.logged || logged == m.logged + {IBlock(i)}
      requires State() == m.fs.(inodes := m.fs.inodes[i := n])
      ensures Since(a, {IBlock(i)})
    {
      hide Bits, Covered;
      InodeCovered(m.fs, i, n, inodestart, bmapstart, logged + {IBlock(i)});
      SinceTrans(a, m, {IBlock(i)});
    }

    /** A logged change of a data block. */
    lemma {:induction false} SinceBlock(a: Mark, m: Mark, b: nat, blk: Block, more: set<nat>)
      requires size <= 8 * |bitmap| && m.fs.nmeta == nmeta <= b < |m.fs.blocks| == size && Tracked(a, m, more)
      requires logged == m.logged + {b} && State() == m.fs.(blocks := m.fs.blocks[b := blk])
      ensures Since(a, more)
    {
      hide Bits, Covered;
      BlockCovered(m.fs, b, blk, inodestart, bmapstart, logged + more);
      SinceTrans(a, m, more);
    }

    lemma {:induction false} TakeLogs(fs: Fs, b: nat, dirty: set<nat>)
      requires fs.nmeta <= b < |fs.used| && b < |fs.blocks| && {BBlock(b), b} <= dirty
      ensures Covered(fs, Take(fs, b), inodestart, bmapstart, dirty)
    {
      hide Covered;
      TakeCovered(fs, b, inodestart, bmapstart, dirty);
    }

    /** A logged change of a bit. */
    lemma {:induction false} SinceBit(a: Mark, m: Mark, b: nat, more: set<nat>)
      requires size <= 8 * |bitmap| && b < |m.fs.used| == size && Tracked(a, m, more)
      requires logged == m.logged + {BBlock(b)} && State() == m.fs.(used := m.fs.used[b := false])
      ensures Since(a, more) && (size <= BPB ==> logged <= m.logged + {bmapstart})
    {
      hide Bits, Covered;
      BBlockPlace(b);
      BitCovered(m.fs, b, false, inodestart, bmapstart, logged + more);
      SinceTrans(a, m, more);
    }

    lemma {:induction false} BBlockPlace(b: nat)
      requires b < size
      ensures Place(BBlock(b)) && (size <= BPB ==> BBlock(b) == bmapstart)
    {
      assert b / BPB <= size / BPB;
    }

    /** The inner loop of balloc: the first clear bit among those of one bitmap block. */
    method ScanBlock(b: nat) returns (at: nat)
      requires size <= 8 * |bitmap| && b < size
      ensures b <= at <= b + BPB && at <= size && (at < size && at < b + BPB ==> !Bits(bitmap, size)[at])
      ensures forall x: nat :: b <= x < at ==> Bits(bitmap, size)[x]
    {
      hide Mask, Bit;
      var bi := 0;
      while bi < BPB && b + bi < size
        invariant 0 <= bi <= BPB && b + bi <= size
        invariant forall x: nat :: b <= x < b + bi ==> Bits(bitmap, size)[x]
      {
        if !Bit(bitmap, b + bi) {
          return b + bi;
        }
        bi := bi + 1;
      }
      return b + bi;
    }

    /** Mark a block in use and zero it. */
    method TakeBlock(b: nat)
      requires size <= 8 * |bitmap| && b < size == |blocks|
      modifies this`bitmap, this`blocks, this`logged
      ensures size <= 8 * |bitmap| && State() == Take(old(State()), b)
      ensures logged == old(logged) + {BBlock(b), b} && (size <= BPB ==> BBlock(b) == bmapstart)
      ensures nmeta <= b ==> Since(old(Now()), {})
    {
      hide Covered, Bits, Mask, ZeroBlock, BBlock;
      SetBit(bitmap, size, b);
      BBlockPlace(b);
      if nmeta <= b {
        TakeLogs(State(), b, logged + {BBlock(b), b} + {});
      }
      bitmap := bitmap[b / 8 := bitmap[b / 8] | Mask(b % 8)];
      blocks := blocks[b := ZeroBlock()];
      logged := logged + {BBlock(b), b};
    }

    /** balloc: take the lowest free block and zero it; 0 if there is none. */
    method Balloc() returns (addr: nat)
      requires Valid()
      modifies this`bitmap, this`blocks, this`logged
      ensures size <= 8 * |bitmap|
      ensures var f := FreeBlock(old(State()).used, 0);
        if f == size then addr == 0 && State() == old(State()) && logged == old(logged)
        else addr == f && State() == Take(old(State()), f) && logged == old(logged) + {BBlock(f), f}
      ensures addr != 0 ==> nmeta <= addr < size && !old(State()).used[addr]
      ensures size <= BPB ==> logged <= old(logged) + {bmapstart, addr}
      ensures Since(old(Now()), {})
    {
      ghost var used := State().used;
      ghost var fs := State();
      FreeBlockData(fs);
      SinceNow({});
      hide Inv, Bits, Take, BBlock, Tracked;
      var b := 0;
      while b < size
        invariant 0 <= b
        invariant bitmap == old(bitmap) && blocks == old(blocks) && logged == old(logged)
        invariant forall x: nat :: x < b && x < size ==> used[x]
      {
        var at := ScanBlock(b);
        if at < size && at < b + BPB {
          FreeBlockIs(used, at);
          TakeBlock(at);
          return at;
        }
        b := b + BPB;
      }
      FreeBlockIs(used, size);
      return 0;
    }

    /** bfree: false stands for the panic on a block that is already free. */
    method Bfree(b: nat) returns (ok: bool)
      requires size <= 8 * |bitmap| && b < size
      modifies this`bitmap, this`logged
      ensures size <= 8 * |bitmap| && ok == Bits(old(bitmap), size)[b]
      ensures Bits(bitmap, size) == if ok then Bits(old(bitmap), size)[b := false] else Bits(old(bitmap), size)
      ensures logged == if ok then old(logged) + {BBlock(b)} else old(logged)
    {
      hide Mask;
      if !Bit(bitmap, b) {
        return false;
      }
      ClearBit(bitmap, size, b);
      bitmap := bitmap[b / 8 := bitmap[b / 8] & !Mask(b % 8)];
      logged := logged + {BBlock(b)};
      return true;
    }

    /** Allocate a block and record it in the inode, directly or as its indirect block. */
    method AllocInto(i: nat, k: nat) returns (addr: nat)
      requires Valid() && i < |inodes| && k <= NDIRECT && inodes[i].addrs[k] == 0
      modifies this
      ensures Valid() && |inodes| == |old(inodes)|
      ensures State() == Ensure(old(State()), i, if k < NDIRECT then Direct(k) else Indirect)
      ensures addr == inodes[i].addrs[k]
      ensures size <= BPB ==> logged <= old(logged) + {bmapstart, addr}
      ensures Since(old(Now()), {IBlock(i)})
    {
      hide Inv, Bits, Attach, Lookup, BBlock, Tracked;
      ValidFacts();
      ghost var r := if k < NDIRECT then Direct(k) else Indirect;
      PlainPlace(State(), i, k, r);
      assert Inv(Ensure(State(), i, r)) by { EnsureKeeps(State(), i, r); }
      FreeBlockData(State());
      ghost var a := Now();
      addr := Balloc();
      SinceWiden(a, {}, {IBlock(i)});
      if addr != 0 {
        PlainAttach(State(), i, k, r, addr);
        ghost var m := Now();
        inodes := inodes[i := inodes[i].(addrs := inodes[i].addrs[k := addr])];
        SinceInode(a, m, i, inodes[i]);
      }
    }

    /** The part of bmap that fills an entry of the indirect block. */
    method AllocEntry(i: nat, k: nat) returns (addr: nat)
      requires Valid() && i < |inodes| && k < NINDIRECT && inodes[i].addrs[NDIRECT] != 0
      requires HasPlace(State(), i, Entry(k))
      modifies this
      ensures Valid() && inodes == old(inodes)
      ensures State() == Ensure(old(State()), i, Entry(k)) && addr == Lookup(State(), i, Entry(k))
      ensures size <= BPB ==> logged <= old(logged) + {bmapstart, inodes[i].addrs[NDIRECT], addr}
      ensures Since(old(Now()), {})
    {
      hide Inv, Bits, Tracked, Lookup, HasPlace, Word, PutWord, BBlock, ZeroBlock;
      ValidFacts();
      EnsureKeeps(State(), i, Entry(k));
      EntryPlace(State(), i, k);
      SinceNow({});
      ghost var a := Now();
      var t := inodes[i].addrs[NDIRECT];
      addr := Word(blocks[t], k);
      if addr == 0 {
        addr := Balloc();
        if addr != 0 {
          ghost var m := Now();
          blocks := blocks[t := PutWord(blocks[t], k, addr)];
          logged := logged + {t};
          SinceBlock(a, m, t, blocks[t], {});
          assert State() == Attach(Take(old(State()), addr), i, Entry(k), addr);
        }
      }
    }

    /** bmap */
    method Bmap(i: nat, bn: nat) returns (addr: nat)
      requires Valid() && i < |inodes| && bn < MAXFILE
      modifies this
      ensures Valid() && State() == FileBlocks.Bmap(old(State()), i, bn)
      ensures Grown(old(State()), State()) && addr == Lookup(State(), i, DataRef(bn))
      ensures size <= BPB ==> logged <= old(logged) + {bmapstart, Lookup(State(), i, Indirect), addr}
      ensures Since(old(Now()), {IBlock(i)})
    {
      hide RefsDistinct, NoLeaks, SameData, Bits, ZeroBlock, PutWord, Word, AllocAt, Tracked;
      ghost var a := Now();
      SinceNow({IBlock(i)});
      BmapKeeps(State(), i, bn);
      if bn < NDIRECT {
        addr := inodes[i].addrs[bn];
        if addr == 0 {
          addr := AllocInto(i, bn);
        }
        return;
      }
      EnsureKeeps(State(), i, Indirect);
      addr := inodes[i].addrs[NDIRECT];
      if addr == 0 {
        addr := AllocInto(i, NDIRECT);
        if addr == 0 {
          return;
        }
      }
      ghost var m := Now();
      addr := AllocEntry(i, bn - NDIRECT);
      SinceWiden(m, {}, {IBlock(i)});
      SinceTrans(a, m, {IBlock(i)});
    }

    /** The direct blocks, freed by the first loop of itrunc. */
    method FreeDirect(i: nat, ghost fs: Fs) returns (ok: bool)
      requires Valid() && fs == State() && i < |inodes|
      modifies this
      ensures ok && size <= 8 * |bitmap| && blocks == old(blocks)
      ensures Freed(fs, i, DirectRefs(NDIRECT), Bits(bitmap, size))
      ensures |inodes| == |old(inodes)| && inodes == old(inodes)[i := inodes[i]]
      ensures inodes[i].size == old(inodes)[i].size
      ensures inodes[i].addrs == Cleared(old(inodes)[i].addrs, NDIRECT)
      ensures (size <= BPB ==> logged <= old(logged) + {bmapstart}) && Since(old(Now()), {IBlock(i)})
    {
      hide RefsUsed, RefsDistinct, NoLeaks, Freed, SameData, Bits, Cleared, Tracked, IBlock, BBlock;
      ghost var a := Now();
      SinceNow({IBlock(i)});
      ClearedMore(inodes[i].addrs, 0);
      FreedNone(fs, i);
      ok := true;
      var k := 0;
      while k < NDIRECT
        invariant 0 <= k <= NDIRECT && ok
        invariant size <= 8 * |bitmap| && blocks == old(blocks) && |inodes| == |old(inodes)|
        invariant Freed(fs, i, DirectRefs(k), Bits(bitmap, size))
        invariant inodes == old(inodes)[i := inodes[i]] && inodes[i].size == old(inodes)[i].size
        invariant inodes[i].addrs == Cleared(old(inodes)[i].addrs, k)
        invariant (size <= BPB ==> logged <= old(logged) + {bmapstart}) && Since(a, {IBlock(i)})
      {
        ClearedMore(old(inodes)[i].addrs, k);
        FreeOne(fs, i, DirectRefs(k), Bits(bitmap, size), Direct(k));
        assert DirectRefs(k + 1) == DirectRefs(k) + {Direct(k)};
        assert inodes[i].addrs[k] == Lookup(fs, i, Direct(k));
        if inodes[i].addrs[k] != 0 {
          ghost var m, b := Now(), inodes[i].addrs[k];
          ok := Bfree(inodes[i].addrs[k]);
          SinceBit(a, m, b, {IBlock(i)});
          m := Now();
          inodes := inodes[i := inodes[i].(addrs := inodes[i].addrs[k := 0])];
          SinceInode(a, m, i, inodes[i]);
        }
        k := k + 1;
      }
    }

    /** The blocks listed by the indirect block, freed by the second loop of itrunc. */
    method FreeEntries(i: nat, t: nat, ghost fs: Fs) returns (ok: bool)
      requires Inv(fs) && i < |fs.inodes| && t == Lookup(fs, i, Indirect) != 0 && blocks == fs.blocks
      requires size == |fs.used| && size <= 8 * |bitmap| && Freed(fs, i, DirectRefs(NDIRECT), Bits(bitmap, size))
      modifies this`bitmap, this`logged
      ensures ok && size <= 8 * |bitmap|
      ensures Freed(fs, i, DirectRefs(NDIRECT) + EntryRefs(NINDIRECT), Bits(bitmap, size))
      ensures (size <= BPB ==> logged <= old(logged) + {bmapstart}) && Since(old(Now()), {})
    {
      hide Tracked, Inv, Bits, Freed, BBlock;
      FreeEntriesStart(fs, i, t);
      SinceNow({});
      ok := true;
      var j := 0;
      assert DirectRefs(NDIRECT) + EntryRefs(0) == DirectRefs(NDIRECT);
      while j < NINDIRECT
        invariant 0 <= j <= NINDIRECT && ok && size <= 8 * |bitmap|
        invariant (size <= BPB ==> logged <= old(logged) + {bmapstart}) && Since(old(Now()), {})
        invariant Freed(fs, i, DirectRefs(NDIRECT) + EntryRefs(j), Bits(bitmap, size))
      {
        FreeOne(fs, i, DirectRefs(NDIRECT) + EntryRefs(j), Bits(bitmap, size), Entry(j));
        assert EntryRefs(j + 1) == EntryRefs(j) + {Entry(j)};
        assert DirectRefs(NDIRECT) + EntryRefs(j + 1) == DirectRefs(NDIRECT) + EntryRefs(j) + {Entry(j)};
        assert Word(blocks[t], j) == Lookup(fs, i, Entry(j));
        if Word(blocks[t], j) != 0 {
          ghost var m := Now();
          ok := Bfree(Word(blocks[t], j));
          SinceBit(old(Now()), m, Word(blocks[t], j), {});
        }
        j := j + 1;
      }
    }

    /** The indirect block and what it lists. */
    method FreeIndirect(i: nat, t: nat, ghost fs: Fs) returns (ok: bool)
      requires Inv(fs) && i < |fs.inodes| == |inodes| && t == Lookup(fs, i, Indirect) != 0 && blocks == fs.blocks
      requires size == |fs.used| && size <= 8 * |bitmap| && Freed(fs, i, DirectRefs(NDIRECT), Bits(bitmap, size))
      requires |inodes[i].addrs| == NDIRECT + 1
      modifies this
      ensures ok && size <= 8 * |bitmap| && blocks == old(blocks)
      ensures Freed(fs, i, AllRefs(), Bits(bitmap, size))
      ensures inodes == old(inodes)[i := old(inodes)[i].(addrs := old(inodes)[i].addrs[NDIRECT := 0])]
      ensures (size <= BPB ==> logged <= old(logged) + {bmapstart}) && Since(old(Now()), {IBlock(i)})
    {
      hide Inv, Freed, Bits, Tracked, BBlock, IBlock, Lookup;
      ghost var a, done := Now(), DirectRefs(NDIRECT) + EntryRefs(NINDIRECT);
      ok := FreeEntries(i, t, fs);
      SinceWiden(a, {}, {IBlock(i)});
      FreeOne(fs, i, done, Bits(bitmap, size), Indirect);
      ghost var m := Now();
      ok := Bfree(t);
      SinceBit(a, m, t, {IBlock(i)});
      m := Now();
      inodes := inodes[i := inodes[i].(addrs := inodes[i].addrs[NDIRECT := 0])];
      SinceInode(a, m, i, inodes[i]);
    }

    /** itrunc: `ok` says that no bfree on the way panicked. */
    method Itrunc(i: nat) returns (ok: bool)
      requires Valid() && i < |inodes|
      modifies this
      ensures ok && Valid() && Truncated(old(State()), State(), i)
      ensures Content(State(), i) == []
      ensures forall j: nat :: j < |inodes| && j != i ==> Content(State(), j) == old(Content(State(), j))
      ensures old(Whole(State())) ==> Whole(State())
      ensures size <= BPB ==> logged <= old(logged) + {bmapstart, IBlock(i)}
      ensures Since(old(Now()), {IBlock(i)}) && IBlock(i) in logged
    {
      hide Inv, Freed, Bits, Tracked, IBlock, Lookup, Truncated, Content, Whole, Cleared;
      ValidFacts();
      ghost var a := Now();
      ghost var fs := State();
      TruncStart(fs, i);
      ok := FreeDirect(i, fs);
      var t := inodes[i].addrs[NDIRECT];
      ghost var done := DirectRefs(NDIRECT);
      ghost var m := Now();
      if t != 0 {
        ok := FreeIndirect(i, t, fs);
        SinceTrans(a, m, {IBlock(i)});
        done := AllRefs();
      }
      m := Now();
      inodes := inodes[i := inodes[i].(size := 0)];
      logged := logged + {IBlock(i)};
      SinceInode(a, m, i, inodes[i]);
      TruncDone(fs, State(), i, done);
    }

    /** One turn of the loop of readi; nothing is read when bmap fails. */
    method ReadOne(i: nat, at: nat, k: nat) returns (part: seq<Byte>)
      requires Valid() && i < |inodes| && at + k <= inodes[i].size <= MAXFILE * BSIZE
      requires 0 < k && at % BSIZE + k <= BSIZE
      modifies this
      ensures Valid() && Grown(old(State()), State()) && |inodes| == |old(inodes)|
      ensures inodes[i].size == old(inodes)[i].size
      ensures part == [] || (|part| == k && part == old(Content(State(), i))[at..at + k])
      ensures old(NoHoles(State(), i)) ==> State() == old(State()) && part != []
      ensures part == [] ==> FreeBlock(State().used, 0) == size
    {
      BmapKeeps(State(), i, at / BSIZE);
      NoHoleAt(State(), i, at);
      var addr := Bmap(i, at / BSIZE);
      if addr == 0 {
        return [];
      }
      ReadChunk(old(State()), State(), i, at, k, addr);
      part := blocks[addr].bytes[at % BSIZE..at % BSIZE + k];
    }

    /**
     readi with copies that succeed. The bytes are a slice of the file; if the file
     has no holes nothing is allocated and the whole slice is read, and with holes a
     short read means that the disk is full.
     */
    method Readi(i: nat, off: nat, n: nat) returns (data: seq<Byte>)
      requires Valid() && i < |inodes| && inodes[i].size <= MAXFILE * BSIZE
      modifies this
      ensures Valid() && Grown(old(State()), State())
      ensures |data| <= ReadLen(old(inodes)[i].size, off, n)
      ensures data != [] ==> data == old(Content(State(), i))[off..off + |data|]
      ensures old(NoHoles(State(), i)) ==>
        State() == old(State()) && |data| == ReadLen(old(inodes)[i].size, off, n)
      ensures |data| < ReadLen(old(inodes)[i].size, off, n) ==> FreeBlock(State().used, 0) == size
      ensures old(Whole(State())) ==> Whole(State()) && State() == old(State())
    {
      data := [];
      ghost var fs := State();
      GrownRefl(fs);
      if off > inodes[i].size || off + n > UINT_MAX {
        return;
      }
      var len := if off + n > inodes[i].size then inodes[i].size - off else n;
      data := ReadLoop(i, off, len);
    }

    /** The loop of readi, once the length has been cut to the size of the file. */
    method ReadLoop(i: nat, off: nat, len: nat) returns (data: seq<Byte>)
      requires Valid() && i < |inodes| && off + len <= inodes[i].size <= MAXFILE * BSIZE
      modifies this
      ensures Valid() && Grown(old(State()), State())
      ensures |data| <= len && data == old(Content(State(), i))[off..off + |data|]
      ensures old(NoHoles(State(), i)) ==> State() == old(State()) && |data| == len
      ensures |data| < len ==> FreeBlock(State().used, 0) == size
    {
      hide Inv, Grown, NoHoles, Content, Bits, Chunk, FreeBlock;
      ValidFacts();
      data := [];
      ghost var fs := State();
      ghost var c := Content(fs, i);
      GrownRefl(fs);
      while |data| < len
        invariant Valid() && Grown(fs, State()) && |inodes| == |fs.inodes| && inodes[i].size == fs.inodes[i].size
        invariant |data| <= len && data == c[off..off + |data|]
        invariant NoHoles(fs, i) ==> State() == fs
        decreases len - |data|
      {
        ghost var m := State();
        GrownContent(fs, m, i);
        var part := ReadOne(i, off + |data|, Chunk(off, |data|, len));
        GrownTrans(fs, m, State());
        if part == [] {
          break;
        }
        SliceAppend(c, off, data, part);
        data := data + part;
      }
    }

    /** Change a cached block and log it. */
    method WriteBlock(b: nat, blk: Block)
      requires size <= 8 * |bitmap| && b < |blocks|
      modifies this`blocks, this`logged
      ensures State() == PutBlock(old(State()), b, blk) && logged == old(logged) + {b}
    {
      blocks := blocks[b := blk];
      logged := logged + {b};
    }

    /** The copy of one turn of the loop of writei, into the block bmap returned. */
    method CopyOne(i: nat, off: nat, src: seq<Byte>, tot: nat, addr: nat, ghost fs: Fs) returns (k: nat)
      requires Valid() && i < |fs.inodes| == |inodes| && tot < |src| && Wrote(fs, State(), i, off, src, tot)
      requires addr == Lookup(State(), i, DataRef((off + tot) / BSIZE)) != 0
      modifies this`blocks, this`logged
      ensures Valid() && k == Chunk(off, tot, |src|) && Wrote(fs, State(), i, off, src, tot + k)
      ensures Lookup(State(), i, Indirect) == old(Lookup(State(), i, Indirect))
      ensures logged == old(logged) + {addr} && Since(old(Now()), {})
    {
      hide Inv, Wrote, Lookup, Patch, Bits, DataRef, Tracked;
      ValidFacts();
      ghost var m := Now();
      SinceNow({});
      k := Chunk(off, tot, |src|);
      CopyPlace(State(), i, (off + tot) / BSIZE);
      var blk := Patch(blocks[addr], (off + tot) % BSIZE, src[tot..tot + k]);
      CopyStep(fs, State(), i, off, src, tot, addr, blk);
      WriteBlock(addr, blk);
      SinceBlock(m, m, addr, blk, {});
    }

    /** One turn of the loop of writei; 0 when bmap fails. `block` is the file block it logs. */
    method WriteOne(i: nat, off: nat, src: seq<Byte>, tot: nat, ghost fs: Fs) returns (k: nat, ghost block: nat)
      requires Valid() && i < |fs.inodes| == |inodes| && tot < |src| && off + |src| <= MAXFILE * BSIZE
      requires Wrote(fs, State(), i, off, src, tot)
      modifies this
      ensures Valid() && |inodes| == |fs.inodes| && (k == 0 || k == Chunk(off, tot, |src|))
      ensures tot + k <= |src| && Wrote(fs, State(), i, off, src, tot + k)
      ensures k == 0 ==> FreeBlock(State().used, 0) == size
      ensures old(Lookup(State(), i, Indirect)) != 0 ==>
          Lookup(State(), i, Indirect) == old(Lookup(State(), i, Indirect))
      ensures size <= BPB ==> logged <= old(logged) + {bmapstart, Lookup(State(), i, Indirect), block}
      ensures Since(old(Now()), {IBlock(i)})
    {
      hide Inv, Wrote, Grown, Lookup, FileBlocks.Bmap, Bits, Chunk, FreeBlock, DataRef, Tracked;
      ValidFacts();
      ghost var a := Now();
      BlockNumber(off + tot);
      BmapStep(fs, State(), i, off, src, tot);
      var addr := Bmap(i, (off + tot) / BSIZE);
      WroteFacts(fs, State(), i, off, src, tot);
      block := addr;
      if addr == 0 {
        return 0, block;
      }
      ghost var m := Now();
      k := CopyOne(i, off, src, tot, addr, fs);
      SinceWiden(m, {}, {IBlock(i)});
      SinceTrans(a, m, {IBlock(i)});
    }

    /** The loop of writei. `data` holds the file blocks it logs. */
    method WriteLoop(i: nat, off: nat, src: seq<Byte>) returns (tot: nat, ghost data: set<nat>)
      requires Valid() && i < |inodes| && off + |src| <= MAXFILE * BSIZE
      modifies this
      ensures Valid() && |inodes| == |old(inodes)| && tot <= |src|
      ensures Wrote(old(State()), State(), i, off, src, tot)
      ensures tot < |src| ==> FreeBlock(State().used, 0) == size
      ensures size <= BPB ==> logged <= old(logged) + {bmapstart, 0, Lookup(State(), i, Indirect)} + data
      ensures |data| <= Turns(off, |src|)
      ensures Since(old(Now()), {IBlock(i)})
    {
      hide Inv, Wrote, Lookup, Bits, Chunk, Counted, Turns, Tracked;
      ValidFacts();
      ghost var fs, a := State(), Now();
      SinceNow({IBlock(i)});
      WroteNothing(fs, i, off, src);
      CountedNone(off, |src|);
      tot, data := 0, {};
      ghost var turns := 0;
      while tot < |src|
        invariant Valid() && Shape(State()) && |inodes| == |fs.inodes| && tot <= |src|
        invariant Wrote(fs, State(), i, off, src, tot)
        invariant size <= BPB ==> logged <= old(logged) + {bmapstart, 0, Lookup(State(), i, Indirect)} + data
        invariant |data| <= turns <= Turns(off, |src|) && Counted(off, tot, |src|, turns)
        invariant Since(a, {IBlock(i)})
      {
        ghost var m := Now();
        TurnCount(off, tot, |src|, turns);
        ghost var block;
        var k;
        k, block := WriteOne(i, off, src, tot, fs);
        SinceTrans(a, m, {IBlock(i)});
        ValidFacts();
        data := data + {block};
        if k == 0 {
          break;
        }
        tot, turns := tot + k, turns + 1;
      }
    }

    /**
     writei with copies that succeed: the bytes are spliced into the file, all other
     files keep theirs, and a short write means that the disk is full. `touched`
     covers every block it logs.
     */
    method Writei(i: nat, off: nat, src: seq<Byte>) returns (ret: int, ghost touched: set<nat>)
      requires Valid() && i < |inodes|
      modifies this
      ensures Valid() && |inodes| == |old(inodes)|
      ensures ret == -1 <==> !Ranged(old(State()), i, off, |src|)
      ensures ret == -1 ==> State() == old(State())
      ensures ret != -1 ==> 0 <= ret <= |src| && Spliced(old(State()), State(), i, off, src[..ret])
      ensures 0 <= ret < |src| ==> FreeBlock(State().used, 0) == size
      ensures old(Whole(State())) ==> Whole(State())
      ensures size <= BPB ==> logged <= old(logged) + touched
      ensures |touched| <= Turns(off, |src|) + 4
      ensures Since(old(Now()), {IBlock(i)})
      ensures if ret == -1 then logged == old(logged) else IBlock(i) in logged
    {
      hide RefsUsed, RefsDistinct, NoLeaks, Bits, Wrote, Spliced, Lookup, NoHoles, FreeBlock, Turns, Tracked;
      ghost var a := Now();
      touched := {};
      SinceNow({IBlock(i)});
      if off > inodes[i].size || off + |src| > UINT_MAX {
        return -1, touched;
      }
      if off + |src| > MAXFILE * BSIZE {
        return -1, touched;
      }
      var tot;
      ghost var fs := State();
      tot, touched := WriteLoop(i, off, src);
      ghost var ind := Lookup(State(), i, Indirect);
      WriteDone(fs, State(), i, off, src, tot);
      WroteSizes(fs, State(), i, off, src, tot);
      SplicedWhole(fs, SetSize(State(), i, Max(fs.inodes[i].size, off + tot)), i, off, src[..tot]);
      ghost var m := Now();
      if off + tot > inodes[i].size {
        inodes := inodes[i := inodes[i].(size := off + tot)];
      }
      logged := logged + {IBlock(i)};
      SinceInode(a, m, i, inodes[i]);
      touched := touched + {bmapstart, 0, ind, IBlock(i)};
      ret := tot;
    }

    ghost predicate Progress(fs: Fs, i: nat, foff: nat, src: seq<Byte>, went: nat)
      reads this
    {
      Valid() && ProgressTo(fs, State(), i, foff, src, went)
    }

    lemma {:induction false} NoProgress(i: nat, foff: nat, src: seq<Byte>)
      requires Valid() && i < |inodes|
      ensures size <= 8 * |bitmap| && MAXCHUNK > 0
      ensures Progress(State(), i, foff, src, 0)
    {
      if foff <= inodes[i].size {
        SplicedRefl(State(), i, foff);
        assert src[..0] == [];
      }
    }

    /** One transaction of filewrite: at most `n1` more bytes, at most MAXOPBLOCKS blocks logged. */
    method FilewriteTurn(i: nat, foff: nat, src: seq<Byte>, done: nat, n1: nat, ghost fs: Fs)
      returns (r: int, ghost touched: set<nat>)
      requires Progress(fs, i, foff, src, done) && done + n1 <= |src| && n1 <= MAXCHUNK
      modifies this
      ensures -1 <= r <= n1 && Progress(fs, i, foff, src, if r < 0 then done else done + r)
      ensures size <= BPB ==> logged <= old(logged) + touched
      ensures |touched| <= MAXOPBLOCKS
      ensures Since(old(Now()), {IBlock(i)}) && (r >= 0 ==> IBlock(i) in logged)
      ensures i < |inodes| == |old(inodes)| && (r == -1 <==> !Ranged(old(State()), i, foff + done, n1))
      ensures (r == -1 ==> State() == old(State())) && (0 <= r < n1 ==> FreeBlock(State().used, 0) == size)
    {
      hide Inv, Spliced, Bits, Turns, FreeBlock, Tracked, Progress;
      ValidInProgress(fs, i, foff, src, done);
      ghost var m := State();
      ChunkFitsLog(foff + done, n1);
      r, touched := Writei(i, foff + done, src[done..done + n1]);
      ProgressMore(fs, m, i, foff, src, done, n1, r);
    }

    lemma {:induction false} ValidInProgress(fs: Fs, i: nat, foff: nat, src: seq<Byte>, done: nat)
      requires Progress(fs, i, foff, src, done)
      ensures Valid() && size <= 8 * |bitmap| && i < |inodes| == |fs.inodes| && Shape(State())
      ensures |State().used| == size
      ensures ProgressTo(fs, State(), i, foff, src, done)
    {
    }

    /** What one more call of writei at the offset reached makes of the progress. */
    lemma {:induction false} ProgressMore(
      fs: Fs, m: Fs, i: nat, foff: nat, src: seq<Byte>, done: nat, n1: nat, r: int)
      requires Valid() && done + n1 <= |src| && -1 <= r <= n1 && ProgressTo(fs, m, i, foff, src, done)
      requires i < |inodes| == |m.inodes| && (r == -1 ==> State() == m)
      requires r == -1 <==> !Ranged(m, i, foff + done, n1)
      requires Shape(m) && (r >= 0 ==> foff + done <= m.inodes[i].size)
      requires r >= 0 ==> Spliced(m, State(), i, foff + done, src[done..done + n1][..r])
      ensures Progress(fs, i, foff, src, if r < 0 then done else done + r)
    {
      hide Inv, Spliced, Bits;
      if foff <= fs.inodes[i].size {
        SplicedFacts(fs, m, i, foff, src[..done]);
        if r >= 0 {
          SplicedTwice(fs, m, State(), i, foff, src[..done], src[done..done + n1][..r]);
          assert src[..done] + src[done..done + n1][..r] == src[..done + r];
        }
      }
    }

    /**
     filewrite on an inode: writes in transactions of at most three blocks. The bytes
     that went in are spliced into the file and the offset moves past them; the whole
     count is returned only if all of it went in. It stops short only on a full disk or
     at a chunk that writei refuses. An offset past the end of the file, which another
     descriptor may have truncated, lets nothing in.
     */
    method Filewrite(i: nat, foff: nat, src: seq<Byte>) returns (ret: int, newoff: nat)
      requires Valid() && i < |inodes|
      modifies this
      ensures foff <= newoff <= foff + |src|
      ensures ret == if newoff == foff + |src| then |src| else -1
      ensures Progress(old(State()), i, foff, src, newoff - foff) && i < |inodes|
      ensures newoff < foff + |src| ==> Stuck(State(), i, newoff, foff + |src| - newoff)
      ensures old(Whole(State())) ==> Whole(State())
    {
      hide *;
      NoProgress(i, foff, src);
      ghost var fs := State();
      newoff := foff;
      var done := 0;
      while done < |src|
        invariant 0 <= done <= |src| && newoff == foff + done && Progress(fs, i, foff, src, done)
      {
        var n1 := if |src| - done > MAXCHUNK then MAXCHUNK else |src| - done;
        ChunkIs(|src| - done);
        ValidInProgress(fs, i, foff, src, done);
        var r, _ := FilewriteTurn(i, foff, src, done, n1, fs);
        ValidInProgress(fs, i, foff, src, if r < 0 then done else done + r);
        if r > 0 {
          newoff := newoff + r;
        }
        if r != n1 {
          ProgressWhole(fs, i, foff, src, newoff - foff);
          StuckHere(State(), i, newoff, |src| - done, r);
          return -1, newoff;
        }
        done := done + r;
      }
      ValidInProgress(fs, i, foff, src, done);
      ProgressWhole(fs, i, foff, src, done);
      ret := if done == |src| then |src| else -1;
    }

    /** Writing makes no holes. */
    lemma {:induction false} ProgressWhole(fs: Fs, i: nat, foff: nat, src: seq<Byte>, went: nat)
      requires Progress(fs, i, foff, src, went)
      ensures Valid() && (Whole(fs) ==> Whole(State()))
    {
      if foff <= fs.inodes[i].size {
        SplicedWhole(fs, State(), i, foff, src[..went]);
      }
    }
  }

  /**
   `went` bytes of `src` have been spliced into file `i` of `fs` at `foff`, and nothing else changed;
   past the end of the file nothing went in.
   */
  ghost predicate ProgressTo(fs: Fs, m: Fs, i: nat, foff: nat, src: seq<Byte>, went: nat) {
    && i < |m.inodes| == |fs.inodes| && Shape(fs) && Inv(m) && went <= |src|
    && if foff <= fs.inodes[i].size then Spliced(fs, m, i, foff, src[..went]) else went == 0 && m == fs
  }

  /** writei's range checks. */
  predicate Ranged(fs: Fs, i: nat, off: nat, n: nat)
    requires i < |fs.inodes|
  {
    off <= fs.inodes[i].size && off + n <= UINT_MAX && off + n <= MAXFILE * BSIZE
  }

  /** How much filewrite asks of writei with `left` bytes to go. */
  function NextChunk(left: nat): nat { if left > MAXCHUNK then MAXCHUNK else left }

  /** With `left` bytes to go at `off` no progress is possible: the disk is full, or writei refuses the next chunk. */
  ghost predicate Stuck(fs: Fs, i: nat, off: nat, left: nat)
    requires i < |fs.inodes|
  {
    FreeBlock(fs.used, 0) == |fs.used| || !Ranged(fs, i, off, NextChunk(left))
  }

  lemma {:induction false} ChunkIs(left: nat)
    ensures NextChunk(left) == if left > MAXCHUNK then MAXCHUNK else left
  {
  }

  lemma {:induction false} StuckHere(fs: Fs, i: nat, off: nat, left: nat, r: int)
    requires i < |fs.inodes| && -1 <= r < NextChunk(left)
    requires r == -1 ==> !Ranged(fs, i, off, NextChunk(left))
    requires r >= 0 ==> r <= left && FreeBlock(fs.used, 0) == |fs.used|
    ensures Stuck(fs, i, off, if r < 0 then left else left - r)
  {
    hide FreeBlock;
  }

  /** Block addresses of which the first `k` have been cleared. */
  function Cleared(addrs: seq<nat>, k: nat): seq<nat>
    requires k <= |addrs|
  {
    seq(k, _ => 0) + addrs[k..]
  }

  lemma {:induction false} ClearedMore(addrs: seq<nat>, k: nat)
    requires k < |addrs|
    ensures Cleared(addrs, 0) == addrs && |Cleared(addrs, k)| == |addrs| && Cleared(addrs, k)[k] == addrs[k]
    ensures Cleared(addrs, k)[k := 0] == Cleared(addrs, k + 1)
    ensures addrs[k] == 0 ==> Cleared(addrs, k + 1) == Cleared(addrs, k)
  {
  }

  lemma {:induction false} WroteSizes(fs: Fs, m: Fs, i: nat, off: nat, src: seq<Byte>, tot: nat)
    requires i < |fs.inodes| && tot <= |src| && Wrote(fs, m, i, off, src, tot)
    ensures m.inodes[i].size == fs.inodes[i].size
    ensures SetSize(m, i, fs.inodes[i].size) == m
  {
  }

  lemma {:induction false} SplicedRefl(fs: Fs, i: nat, off: nat)
    requires Inv(fs) && i < |fs.inodes| && off <= fs.inodes[i].size
    ensures Spliced(fs, fs, i, off, [])
  {
  }

  lemma {:induction false} SplicedFacts(fs: Fs, m: Fs, i: nat, off: nat, src: seq<Byte>)
    requires Shape(fs) && i < |fs.inodes| && off <= fs.inodes[i].size && Spliced(fs, m, i, off, src)
    ensures i < |m.inodes| && off + |src| <= m.inodes[i].size
  {
  }

  lemma {:induction false} SplicedWhole(fs: Fs, m: Fs, i: nat, off: nat, src: seq<Byte>)
    requires Shape(fs) && i < |fs.inodes| && off <= fs.inodes[i].size && Spliced(fs, m, i, off, src)
    ensures Inv(m) && |m.inodes| == |fs.inodes| && (Whole(fs) ==> Whole(m))
  {
    hide RefsUsed, RefsDistinct, NoLeaks, NoHoles, Content, Splice;
  }

  /** Consecutive writes splice as one. */
  lemma {:induction false} SplicedTwice(fs: Fs, m: Fs, r: Fs, i: nat, off: nat, a: seq<Byte>, b: seq<Byte>)
    requires Shape(fs) && Shape(m) && i < |fs.inodes| == |m.inodes| && off <= fs.inodes[i].size
    requires Spliced(fs, m, i, off, a) && off + |a| <= m.inodes[i].size && Spliced(m, r, i, off + |a|, b)
    ensures Spliced(fs, r, i, off, a + b)
  {
    SpliceSplice(Content(fs, i), off, a, b);
    hide Content, Splice, Inv;
  }

  /** A filewrite chunk logs at most MAXOPBLOCKS blocks. */
  lemma {:induction false} ChunkFitsLog(off: nat, n: nat)
    requires n <= MAXCHUNK
    ensures Turns(off, n) + 4 <= MAXOPBLOCKS
  {
  }

  /** How many blocks a transfer of `n` bytes at `off` can touch. */
  function Turns(off: nat, n: nat): nat {
    if n == 0 then 0 else (off % BSIZE + n + BSIZE - 1) / BSIZE
  }

  /** `turns` turns of a copy loop have moved `tot` bytes: full blocks, but for the first and the last. */
  ghost predicate Counted(off: nat, tot: nat, n: nat, turns: nat) {
    var u := off % BSIZE + tot;
    && (tot == 0 ==> turns == 0)
    && (0 < tot < n ==> u % BSIZE == 0 && turns * BSIZE <= u)
    && turns * BSIZE < u + BSIZE
  }

  lemma {:induction false} CountedNone(off: nat, n: nat)
    ensures Counted(off, 0, n, 0)
  {
  }

  lemma {:induction false} TurnCount(off: nat, tot: nat, n: nat, turns: nat)
    requires tot < n && Counted(off, tot, n, turns)
    ensures Counted(off, tot + Chunk(off, tot, n), n, turns + 1)
    ensures turns + 1 <= Turns(off, n)
  {
    var u := off % BSIZE + tot;
    assert (off + tot) % BSIZE == u % BSIZE by {
      assert off == off / BSIZE * BSIZE + off % BSIZE;
    }
  }

  lemma {:induction false} WroteFacts(fs: Fs, m: Fs, i: nat, off: nat, src: seq<Byte>, tot: nat)
    requires i < |fs.inodes| && tot <= |src| && Wrote(fs, m, i, off, src, tot)
    ensures |m.inodes| == |fs.inodes| && Inv(m) && Shape(m)
  {
  }

  lemma {:induction false} BlockNumber(at: nat)
    requires at < MAXFILE * BSIZE
    ensures at / BSIZE < MAXFILE
  {
  }

  /** The bmap call of one turn of writei. */
  lemma {:induction false} BmapStep(fs: Fs, s: Fs, i: nat, off: nat, src: seq<Byte>, tot: nat)
    requires i < |fs.inodes| && tot < |src| && off + |src| <= MAXFILE * BSIZE && Wrote(fs, s, i, off, src, tot)
    ensures var m := FileBlocks.Bmap(s, i, (off + tot) / BSIZE);
      && Wrote(fs, m, i, off, src, tot)
      && (Lookup(s, i, Indirect) != 0 ==> Lookup(m, i, Indirect) == Lookup(s, i, Indirect))
      && (Lookup(m, i, DataRef((off + tot) / BSIZE)) == 0 ==> FreeBlock(m.used, 0) == |m.used|)
  {
    BmapKeeps(s, i, (off + tot) / BSIZE);
    WroteBmap(fs, s, i, off, src, tot, (off + tot) / BSIZE);
  }

  lemma {:induction false} CopyPlace(m: Fs, i: nat, bn: nat)
    requires Inv(m) && i < |m.inodes| && Lookup(m, i, DataRef(bn)) != 0
    ensures var b := Lookup(m, i, DataRef(bn)); m.nmeta <= b < |m.blocks| && |m.blocks[b].bytes| == BSIZE
  {
  }

  /** The copy of one turn of writei. */
  lemma {:induction false} CopyStep(fs: Fs, m: Fs, i: nat, off: nat, src: seq<Byte>, tot: nat, b: nat, blk: Block)
    requires i < |fs.inodes| && tot < |src| && Wrote(fs, m, i, off, src, tot)
    requires b == Lookup(m, i, DataRef((off + tot) / BSIZE)) != 0
    requires b < |m.blocks| && |m.blocks[b].bytes| == BSIZE
    requires blk == Patch(m.blocks[b], (off + tot) % BSIZE, src[tot..tot + Chunk(off, tot, |src|)])
    ensures var m' := PutBlock(m, b, blk);
      Inv(m') && Wrote(fs, m', i, off, src, tot + Chunk(off, tot, |src|))
          && Lookup(m', i, Indirect) == Lookup(m, i, Indirect)
  {
    WroteChunk(fs, m, i, off, src, tot);
    PutBlockLookup(m, i, (off + tot) / BSIZE, blk, i, Indirect);
    hide Inv, Chunk, Patch, ByteAt, Lookup;
  }

  lemma {:induction false} SliceAppend(c: seq<Byte>, off: nat, a: seq<Byte>, b: seq<Byte>)
    requires off + |a| + |b| <= |c|
    requires a == c[off..off + |a|] && b == c[off + |a|..off + |a| + |b|]
    ensures a + b == c[off..off + |a + b|]
  {
  }

  /** A block below the size of a file without holes is there. */
  lemma {:induction false} NoHoleAt(fs: Fs, i: nat, at: nat)
    requires Shape(fs) && i < |fs.inodes| && at < fs.inodes[i].size
    ensures NoHoles(fs, i) ==> Lookup(fs, i, DataRef(at / BSIZE)) != 0
  {
    assert at / BSIZE * BSIZE <= at;
  }

  lemma {:induction false} GrownContent(fs: Fs, m: Fs, i: nat)
    requires Grown(fs, m) && i < |fs.inodes|
    ensures i < |m.inodes| && Content(m, i) == Content(fs, i)
  {
    forall x: nat | x < fs.inodes[i].size ensures ByteAt(m, i, x) == ByteAt(fs, i, x) {
      assert DataBlock(m, i, x / BSIZE) == DataBlock(fs, i, x / BSIZE);
    }
  }

  /** How much readi reads: the largest length within the request and the file, none past its end or past 2^32. */
  function ReadLen(size: nat, off: nat, n: nat): (r: nat)
    ensures off > size || off + n > UINT_MAX ==> r == 0
    ensures off <= size && off + n <= UINT_MAX ==>
      r <= n && off + r <= size && (r == n || off + r == size)
  {
    if off > size || off + n > UINT_MAX then 0 else if off + n > size then size - off else n
  }

  lemma {:induction false} GrownRefl(fs: Fs)
    requires Inv(fs)
    ensures Grown(fs, fs)
  {
  }

  lemma {:induction false} GrownTrans(a: Fs, b: Fs, c: Fs)
    requires Grown(a, b) && Grown(b, c)
    ensures Grown(a, c)
  {
    hide Inv, Lookup, DataBlock;
  }

  /** The bytes copied by one turn of readi are bytes of the file. */
  lemma {:induction false} ReadChunk(fs: Fs, m: Fs, i: nat, at: nat, k: nat, addr: nat)
    requires Grown(fs, m) && i < |fs.inodes| && at + k <= fs.inodes[i].size && at % BSIZE + k <= BSIZE
    requires addr == Lookup(m, i, DataRef(at / BSIZE)) != 0
    ensures addr < |m.blocks| && |m.blocks[addr].bytes| == BSIZE
    ensures m.blocks[addr].bytes[at % BSIZE..at % BSIZE + k] == Content(fs, i)[at..at + k]
  {
    ChunkInBlock(at, BSIZE - at % BSIZE);
    assert DataBlock(m, i, at / BSIZE) == DataBlock(fs, i, at / BSIZE);
    var a, b := m.blocks[addr].bytes[at % BSIZE..at % BSIZE + k], Content(fs, i)[at..at + k];
    forall x | 0 <= x < k ensures a[x] == b[x] {
      assert b[x] == ByteAt(fs, i, at + x);
      assert (at + x) / BSIZE == at / BSIZE && (at + x) % BSIZE == at % BSIZE + x;
    }
  }

  lemma {:induction false} FreeEntriesStart(fs: Fs, i: nat, t: nat)
    requires Inv(fs) && i < |fs.inodes| && t == Lookup(fs, i, Indirect) != 0
    ensures Shape(fs) && t < |fs.blocks| && |fs.blocks[t].bytes| == BSIZE
    ensures forall j: nat :: j < NINDIRECT ==> Word(fs.blocks[t], j) == Lookup(fs, i, Entry(j))
  {
    hide Word;
  }

  function DirectRefs(k: nat): set<Ref> { set j | 0 <= j < k :: Direct(j) }

  function EntryRefs(k: nat): set<Ref> { set j | 0 <= j < k :: Entry(j) }

  function AllRefs(): set<Ref> { DirectRefs(NDIRECT) + EntryRefs(NINDIRECT) + {Indirect} }

  /** What the first loop of itrunc leaves of the block addresses. */
  lemma {:induction false} TruncStart(fs: Fs, i: nat)
    requires Inv(fs) && i < |fs.inodes|
    ensures Shape(fs) && |fs.inodes[i].addrs| == NDIRECT + 1 && |Cleared(fs.inodes[i].addrs, NDIRECT)| == NDIRECT + 1
    ensures Cleared(fs.inodes[i].addrs, NDIRECT)[NDIRECT] == Lookup(fs, i, Indirect)
    ensures Cleared(fs.inodes[i].addrs, NDIRECT)[NDIRECT := 0] == seq(NDIRECT + 1, _ => 0)
    ensures Lookup(fs, i, Indirect) == 0 ==> Cleared(fs.inodes[i].addrs, NDIRECT) == seq(NDIRECT + 1, _ => 0)
  {
  }

  /** With every block freed and the inode cleared, the file is truncated. */
  lemma {:induction false} TruncDone(fs: Fs, r: Fs, i: nat, done: set<Ref>)
    requires Inv(fs) && Shape(fs) && i < |fs.inodes| && Freed(fs, i, done, r.used)
    requires done == AllRefs() || (done == DirectRefs(NDIRECT) && Lookup(fs, i, Indirect) == 0)
    requires r.nmeta == fs.nmeta && r.blocks == fs.blocks
    requires r.inodes == fs.inodes[i := Inode(seq(NDIRECT + 1, _ => 0), 0)]
    ensures Truncated(fs, r, i) && Inv(r) && Content(r, i) == []
    ensures forall j: nat :: j < |fs.inodes| && j != i ==> Content(r, j) == Content(fs, j)
    ensures Whole(fs) ==> Whole(r)
  {
    hide Inv, Content, NoHoles;
    FreedAll(fs, i, done, r.used);
    TruncatedKeeps(fs, r, i);
  }

  /** balloc never hands out block 0 or any other metadata block. */
  lemma {:induction false} FreeBlockData(fs: Fs)
    requires Inv(fs)
    ensures fs.nmeta <= FreeBlock(fs.used, 0) && 0 < fs.nmeta && |fs.used| == |fs.blocks|
  {
  }

  /** A block number kept in the inode itself. */
  lemma {:induction false} PlainPlace(fs: Fs, i: nat, k: nat, r: Ref)
    requires Shape(fs) && i < |fs.inodes| && k <= NDIRECT && r == if k < NDIRECT then Direct(k) else Indirect
    ensures Lookup(fs, i, r) == fs.inodes[i].addrs[k] && HasPlace(fs, i, r)
  {
  }

  lemma {:induction false} PlainAttach(fs: Fs, i: nat, k: nat, r: Ref, b: nat)
    requires i < |fs.inodes| && |fs.inodes[i].addrs| == NDIRECT + 1
    requires k <= NDIRECT && r == if k < NDIRECT then Direct(k) else Indirect
    ensures Attach(fs, i, r, b) == fs.(inodes := fs.inodes[i := fs.inodes[i].(addrs := fs.inodes[i].addrs[k := b])])
  {
  }

  lemma {:induction false} FreedNone(fs: Fs, i: nat)
    requires Shape(fs) && i < |fs.inodes|
    ensures Freed(fs, i, DirectRefs(0), fs.used)
  {
  }

  /** What bmap finds when the indirect block is there. */
  lemma {:induction false} EntryPlace(fs: Fs, i: nat, k: nat)
    requires Inv(fs) && i < |fs.inodes| && HasPlace(fs, i, Entry(k))
    ensures var t := fs.inodes[i].addrs[NDIRECT]; var f := FreeBlock(fs.used, 0);
      && fs.nmeta <= t < |fs.blocks| && 0 < t && |fs.blocks[t].bytes| == BSIZE
      && Lookup(fs, i, Entry(k)) == Word(fs.blocks[t], k)
      && (f < |fs.used| && Word(fs.blocks[t], k) == 0 ==>
            f != t && f != 0 && Shape(AllocAt(fs, i, Entry(k))) && Lookup(AllocAt(fs, i, Entry(k)), i, Entry(k)) == f)
  {
    var f := FreeBlock(fs.used, 0);
    assert Lookup(fs, i, Indirect) == fs.inodes[i].addrs[NDIRECT];
    if f < |fs.used| && Lookup(fs, i, Entry(k)) == 0 {
      FreeIsUnowned(fs, f);
      AllocAtAttached(fs, i, Entry(k));
    }
  }

  lemma {:induction false} FreeBlockIs(used: seq<bool>, b: nat)
    requires b <= |used| && (b < |used| ==> !used[b]) && forall x: nat :: x < b ==> used[x]
    ensures FreeBlock(used, 0) == b
  {
  }
}
