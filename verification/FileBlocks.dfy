/**
 The block layer of `kernel/fs.c`: the free bitmap, the direct and indirect block
 maps of the inodes, and the bytes of the files stored in them.
 */
module FileBlocks {

  const BSIZE: nat := 1024
  const NDIRECT: nat := 12
  const NINDIRECT: nat := 256
  const MAXFILE: nat := NDIRECT + NINDIRECT
  const BPB: nat := BSIZE * 8
  /** Inodes in one block. */
  const IPB: nat := 16
  const UINT_MAX: nat := 0xffff_ffff

  type Byte = x: nat | x < 0x100

  /** The bytes of one disk block. */
  datatype Block = Block(bytes: seq<Byte>)

  function ZeroBlock(): (z: Block)
    ensures |z.bytes| == BSIZE && forall i :: 0 <= i < BSIZE ==> z.bytes[i] == 0
  {
    Block(seq(BSIZE, _ => 0))
  }

  // ------------------------------------------------- block numbers in a block

  /** The k-th little-endian uint of a block. */
  function Word(b: Block, k: nat): nat
    requires |b.bytes| == BSIZE && k < NINDIRECT
  {
    var b0: nat, b1: nat, b2: nat, b3: nat :=
      b.bytes[4 * k], b.bytes[4 * k + 1], b.bytes[4 * k + 2], b.bytes[4 * k + 3];
    b0 + 0x100 * b1 + 0x1_0000 * b2 + 0x100_0000 * b3
  }

  function PutWord(b: Block, k: nat, v: nat): (r: Block)
    requires |b.bytes| == BSIZE && k < NINDIRECT
    ensures |r.bytes| == BSIZE
  {
    Block(b.bytes[4 * k := v % 0x100][4 * k + 1 := v / 0x100 % 0x100]
          [4 * k + 2 := v / 0x1_0000 % 0x100][4 * k + 3 := v / 0x100_0000 % 0x100])
  }

  lemma {:induction false} FourBytes(v: nat)
    requires v <= UINT_MAX
    ensures v % 0x100 + 0x100 * (v / 0x100 % 0x100) + 0x1_0000 * (v / 0x1_0000 % 0x100)
      + 0x100_0000 * (v / 0x100_0000 % 0x100) == v
  {
    var a, b, c := v / 0x100, v / 0x1_0000, v / 0x100_0000;
    assert v == 0x100 * a + v % 0x100;
    assert a == 0x100 * b + a % 0x100;
    assert b == 0x100 * c + b % 0x100;
    assert c < 0x100;
  }

  /** A stored block number reads back, and no other entry of the block changes. */
  lemma {:induction false} WordOfPut(b: Block, k: nat, v: nat, j: nat)
    requires |b.bytes| == BSIZE && k < NINDIRECT && j < NINDIRECT && v <= UINT_MAX
    ensures Word(PutWord(b, k, v), j) == if j == k then v else Word(b, j)
  {
    if j == k {
      FourBytes(v);
    }
  }

  // ---------------------------------------------------------------- state

  /** `addrs` has NDIRECT direct entries and the indirect block; 0 means none. */
  datatype Inode = Inode(addrs: seq<nat>, size: nat)

  /** The first `nmeta` blocks are boot block, superblock, log, inodes and bitmap. */
  datatype Fs = Fs(nmeta: nat, used: seq<bool>, blocks: seq<Block>, inodes: seq<Inode>)

  /** The places where an inode records a block number. */
  datatype Ref = Direct(k: nat) | Indirect | Entry(k: nat)

  ghost predicate Shape(fs: Fs) {
    && 0 < fs.nmeta <= |fs.used| == |fs.blocks| <= UINT_MAX
    && (forall b :: 0 <= b < |fs.blocks| ==> |fs.blocks[b].bytes| == BSIZE)
    && (forall i :: 0 <= i < |fs.inodes| ==> |fs.inodes[i].addrs| == NDIRECT + 1)
  }

  /** The block number recorded at a place, 0 if none. */
  ghost function Lookup(fs: Fs, i: nat, r: Ref): nat
    requires Shape(fs) && i < |fs.inodes|
  {
    var a := fs.inodes[i].addrs;
    match r
    case Direct(k) => if k < NDIRECT then a[k] else 0
    case Indirect => a[NDIRECT]
    case Entry(k) =>
      if a[NDIRECT] == 0 || a[NDIRECT] >= |fs.blocks| || k >= NINDIRECT then 0
      else Word(fs.blocks[a[NDIRECT]], k)
  }

  /** Where the bn-th block of a file is recorded. */
  function DataRef(bn: nat): Ref {
    if bn < NDIRECT then Direct(bn) else Entry(bn - NDIRECT)
  }

  // ---------------------------------------------------------------- ownership

  ghost predicate HasOwner(fs: Fs, b: nat)
    requires Shape(fs)
  {
    exists i: nat, r :: i < |fs.inodes| && Lookup(fs, i, r) == b
  }

  /** Recorded blocks are in-use data blocks. */
  ghost predicate RefsUsed(fs: Fs)
    requires Shape(fs)
  {
    forall i: nat, r :: i < |fs.inodes| && Lookup(fs, i, r) != 0 ==>
      fs.nmeta <= Lookup(fs, i, r) < |fs.used| && fs.used[Lookup(fs, i, r)]
  }

  /** No block is recorded in two places. */
  ghost predicate RefsDistinct(fs: Fs)
    requires Shape(fs)
  {
    forall i: nat, r, j: nat, q ::
      i < |fs.inodes| && j < |fs.inodes| && Lookup(fs, i, r) != 0 && Lookup(fs, i, r) == Lookup(fs, j, q) ==>
      i == j && r == q
  }

  /** The set bits of the bitmap are the metadata and the recorded blocks. */
  ghost predicate NoLeaks(fs: Fs)
    requires Shape(fs)
  {
    && (forall b :: 0 <= b < fs.nmeta ==> fs.used[b])
    && (forall b :: fs.nmeta <= b < |fs.used| && fs.used[b] ==> HasOwner(fs, b))
  }

  ghost predicate Inv(fs: Fs) {
    Shape(fs) && RefsUsed(fs) && RefsDistinct(fs) && NoLeaks(fs)
  }

  // ---------------------------------------------------------------- file bytes

  /** The bn-th block of a file; a block that is not there reads as zeros. */
  ghost function DataBlock(fs: Fs, i: nat, bn: nat): Block
    requires Shape(fs) && i < |fs.inodes|
  {
    var a := Lookup(fs, i, DataRef(bn));
    if 0 < a < |fs.blocks| then fs.blocks[a] else ZeroBlock()
  }

  ghost function ByteAt(fs: Fs, i: nat, off: nat): Byte
    requires Shape(fs) && i < |fs.inodes|
  {
    DataBlock(fs, i, off / BSIZE).bytes[off % BSIZE]
  }

  ghost function Content(fs: Fs, i: nat): (c: seq<Byte>)
    requires Shape(fs) && i < |fs.inodes|
    ensures |c| == fs.inodes[i].size
    ensures forall x: nat :: x < |c| ==> c[x] == ByteAt(fs, i, x)
  {
    seq(fs.inodes[i].size, (x: nat) => ByteAt(fs, i, x))
  }

  /** Every block below the size of the file is there. */
  ghost predicate NoHoles(fs: Fs, i: nat)
    requires Shape(fs) && i < |fs.inodes|
  {
    && fs.inodes[i].size <= MAXFILE * BSIZE
    && forall bn: nat :: bn * BSIZE < fs.inodes[i].size ==> Lookup(fs, i, DataRef(bn)) != 0
  }

  /** No file has a hole. */
  ghost predicate Whole(fs: Fs) {
    Shape(fs) && forall j: nat :: j < |fs.inodes| ==> NoHoles(fs, j)
  }

  function Splice(c: seq<Byte>, off: nat, src: seq<Byte>): seq<Byte>
    requires off <= |c|
  {
    c[..off] + src + (if off + |src| < |c| then c[off + |src|..] else [])
  }

  // ---------------------------------------------------------------- operations

  /** The lowest clear bit at or above `b`, or the size of the file system. */
  function FreeBlock(used: seq<bool>, b: nat): (r: nat)
    requires b <= |used|
    ensures b <= r <= |used| && (r < |used| ==> !used[r])
    ensures forall x :: b <= x < r ==> used[x]
    decreases |used| - b
  {
    if b == |used| || !used[b] then b else FreeBlock(used, b + 1)
  }

  /** balloc's effect on block `b`: bit set, contents zeroed. */
  function Take(fs: Fs, b: nat): Fs
    requires b < |fs.used| && b < |fs.blocks|
  {
    fs.(used := fs.used[b := true], blocks := fs.blocks[b := ZeroBlock()])
  }

  /** Record block `b` of inode `i` at `r`. */
  function Attach(fs: Fs, i: nat, r: Ref, b: nat): Fs
    requires i < |fs.inodes| && |fs.inodes[i].addrs| == NDIRECT + 1
    requires r.Direct? ==> r.k < NDIRECT
    requires r.Entry? ==>
      var t := fs.inodes[i].addrs[NDIRECT]; t < |fs.blocks| && |fs.blocks[t].bytes| == BSIZE && r.k < NINDIRECT
  {
    match r
    case Direct(k) => fs.(inodes := fs.inodes[i := fs.inodes[i].(addrs := fs.inodes[i].addrs[k := b])])
    case Indirect => fs.(inodes := fs.inodes[i := fs.inodes[i].(addrs := fs.inodes[i].addrs[NDIRECT := b])])
    case Entry(k) =>
      var t := fs.inodes[i].addrs[NDIRECT];
      fs.(blocks := fs.blocks[t := PutWord(fs.blocks[t], k, b)])
  }

  /** The place exists: an entry needs the indirect block. */
  ghost predicate HasPlace(fs: Fs, i: nat, r: Ref)
    requires Shape(fs) && i < |fs.inodes|
  {
    match r
    case Direct(k) => k < NDIRECT
    case Indirect => true
    case Entry(k) => k < NINDIRECT && 0 < Lookup(fs, i, Indirect) < |fs.blocks|
  }

  /** Allocate a block and record it; nothing happens when the disk is full. */
  ghost function AllocAt(fs: Fs, i: nat, r: Ref): Fs
    requires Shape(fs) && i < |fs.inodes| && HasPlace(fs, i, r)
  {
    var b := FreeBlock(fs.used, 0);
    if b == |fs.used| then fs else Attach(Take(fs, b), i, r, b)
  }

  /** Fill the place unless it is filled already. */
  ghost function Ensure(fs: Fs, i: nat, r: Ref): Fs
    requires Shape(fs) && i < |fs.inodes| && HasPlace(fs, i, r)
  {
    if Lookup(fs, i, r) != 0 then fs else AllocAt(fs, i, r)
  }

  // ---------------------------------------------------------------- which blocks change

  /**
   Whatever changed between `fs` and `fs'` lies in blocks of `dirty`, where the inodes start at
   block `ib` and the bitmap at block `bb`.
   */
  ghost predicate Covered(fs: Fs, fs': Fs, ib: nat, bb: nat, dirty: set<nat>) {
    && fs'.nmeta == fs.nmeta && |fs'.used| == |fs.used| && |fs'.blocks| == |fs.blocks|
    && |fs'.inodes| == |fs.inodes|
    && (forall b: nat :: b < |fs.blocks| && (b < fs.nmeta || b !in dirty) ==> fs'.blocks[b] == fs.blocks[b])
    && (forall b: nat :: b < |fs.used| && b / BPB + bb !in dirty ==> fs'.used[b] == fs.used[b])
    && (forall i: nat :: i < |fs.inodes| && i / IPB + ib !in dirty ==> fs'.inodes[i] == fs.inodes[i])
  }

  lemma {:induction false} CoveredTrans(a: Fs, b: Fs, c: Fs, ib: nat, bb: nat, d: set<nat>, e: set<nat>)
    requires Covered(a, b, ib, bb, d) && Covered(b, c, ib, bb, e) && d <= e
    ensures Covered(a, c, ib, bb, e)
  {
  }

  lemma {:induction false} TakeCovered(fs: Fs, b: nat, ib: nat, bb: nat, dirty: set<nat>)
    requires fs.nmeta <= b < |fs.used| && b < |fs.blocks| && {b / BPB + bb, b} <= dirty
    ensures Covered(fs, Take(fs, b), ib, bb, dirty)
  {
  }

  lemma {:induction false} BlockCovered(fs: Fs, b: nat, blk: Block, ib: nat, bb: nat, dirty: set<nat>)
    requires fs.nmeta <= b < |fs.blocks| && b in dirty
    ensures Covered(fs, fs.(blocks := fs.blocks[b := blk]), ib, bb, dirty)
  {
  }

  lemma {:induction false} InodeCovered(fs: Fs, i: nat, n: Inode, ib: nat, bb: nat, dirty: set<nat>)
    requires i < |fs.inodes| && i / IPB + ib in dirty
    ensures Covered(fs, fs.(inodes := fs.inodes[i := n]), ib, bb, dirty)
  {
  }

  lemma {:induction false} BitCovered(fs: Fs, b: nat, bit: bool, ib: nat, bb: nat, dirty: set<nat>)
    requires b < |fs.used| && b / BPB + bb in dirty
    ensures Covered(fs, fs.(used := fs.used[b := bit]), ib, bb, dirty)
  {
  }

  // ---------------------------------------------------------------- allocation

  /** `b` is recorded nowhere. */
  ghost predicate Unowned(fs: Fs, b: nat)
    requires Shape(fs)
  {
    forall i: nat, r :: i < |fs.inodes| ==> Lookup(fs, i, r) == 0 || Lookup(fs, i, r) != b
  }

  lemma {:induction false} FreeIsUnowned(fs: Fs, b: nat)
    requires Inv(fs) && b < |fs.used| && !fs.used[b]
    ensures Unowned(fs, b) && fs.nmeta <= b
  {
  }

  lemma {:induction false} TakeLookup(fs: Fs, b: nat, j: nat, q: Ref)
    requires Shape(fs) && b < |fs.used| && Unowned(fs, b) && j < |fs.inodes|
    ensures Shape(Take(fs, b)) && Lookup(Take(fs, b), j, q) == Lookup(fs, j, q)
  {
    assert Lookup(fs, j, Indirect) == 0 || Lookup(fs, j, Indirect) != b;
  }

  /** Recording a block changes what is recorded at that place and nowhere else. */
  lemma {:induction false} AttachLookup(fs: Fs, i: nat, r: Ref, b: nat, j: nat, q: Ref)
    requires Shape(fs) && i < |fs.inodes| && j < |fs.inodes| && HasPlace(fs, i, r) && RefsDistinct(fs)
    requires 0 < b < |fs.blocks| && Lookup(fs, i, r) == 0
    requires r == Indirect ==> fs.blocks[b] == ZeroBlock()
    ensures Shape(Attach(fs, i, r, b))
    ensures Lookup(Attach(fs, i, r, b), j, q) == if i == j && r == q then b else Lookup(fs, j, q)
  {
    if r.Entry? && q.Entry? && Lookup(fs, j, Indirect) == Lookup(fs, i, Indirect) {
      if q.k < NINDIRECT {
        WordOfPut(fs.blocks[Lookup(fs, i, Indirect)], r.k, b, q.k);
      }
    }
  }

  /** Two states whose records differ in one new block. */
  ghost predicate Attached(fs: Fs, fs': Fs, i: nat, r: Ref, b: nat)
    requires Shape(fs) && Shape(fs') && i < |fs.inodes| == |fs'.inodes|
  {
    forall j: nat, q :: j < |fs.inodes| ==>
      Lookup(fs', j, q) == if i == j && r == q then b else Lookup(fs, j, q)
  }

  lemma {:induction false} AttachedKeeps(fs: Fs, fs': Fs, i: nat, r: Ref, b: nat)
    requires Inv(fs) && Shape(fs') && i < |fs.inodes| == |fs'.inodes| && fs'.nmeta == fs.nmeta
    requires Attached(fs, fs', i, r, b) && Lookup(fs, i, r) == 0
    requires b < |fs.used| && !fs.used[b] && fs'.used == fs.used[b := true]
    ensures Inv(fs')
  {
    FreeIsUnowned(fs, b);
    assert RefsUsed(fs');
    assert RefsDistinct(fs');
    forall x | fs.nmeta <= x < |fs.used| && fs'.used[x] ensures HasOwner(fs', x) {
      if x == b {
        assert Lookup(fs', i, r) == x;
      } else {
        assert HasOwner(fs, x);
        var j: nat, q :| j < |fs.inodes| && Lookup(fs, j, q) == x;
        assert Lookup(fs', j, q) == x;
      }
    }
  }

  lemma {:induction false} AllocAtAttached(fs: Fs, i: nat, r: Ref)
    requires Inv(fs) && i < |fs.inodes| && HasPlace(fs, i, r) && Lookup(fs, i, r) == 0
    requires FreeBlock(fs.used, 0) < |fs.used|
    ensures var fs' := AllocAt(fs, i, r);
      Shape(fs') && |fs'.inodes| == |fs.inodes| && Attached(fs, fs', i, r, FreeBlock(fs.used, 0))
  {
    var b := FreeBlock(fs.used, 0);
    FreeIsUnowned(fs, b);
    var t := Take(fs, b);
    forall j: nat, q | j < |fs.inodes| ensures Shape(t) && Lookup(t, j, q) == Lookup(fs, j, q) {
      TakeLookup(fs, b, j, q);
    }
    TakeLookup(fs, b, i, r);
    TakeLookup(fs, b, i, Indirect);
    forall j: nat, q | j < |fs.inodes|
      ensures Shape(Attach(t, i, r, b))
      ensures Lookup(Attach(t, i, r, b), j, q) == if i == j && r == q then b else Lookup(fs, j, q)
    {
      AttachLookup(t, i, r, b, j, q);
    }
    AttachLookup(t, i, r, b, i, r);
  }

  /** What allocating at a place leaves alone. */
  ghost predicate SameData(fs: Fs, fs': Fs)
    requires Shape(fs) && Shape(fs') && |fs.inodes| == |fs'.inodes|
  {
    forall j: nat, bn: nat :: j < |fs.inodes| ==> DataBlock(fs', j, bn) == DataBlock(fs, j, bn)
  }

  lemma {:induction false} AllocAtData(fs: Fs, i: nat, r: Ref, j: nat, bn: nat)
    requires Inv(fs) && i < |fs.inodes| && HasPlace(fs, i, r) && Lookup(fs, i, r) == 0 && j < |fs.inodes|
    requires FreeBlock(fs.used, 0) < |fs.used|
    requires Shape(AllocAt(fs, i, r)) && Attached(fs, AllocAt(fs, i, r), i, r, FreeBlock(fs.used, 0))
    ensures DataBlock(AllocAt(fs, i, r), j, bn) == DataBlock(fs, j, bn)
  {
    var b := FreeBlock(fs.used, 0);
    FreeIsUnowned(fs, b);
    var fs' := AllocAt(fs, i, r);
    var q := DataRef(bn);
    assert Lookup(fs', j, q) == if i == j && r == q then b else Lookup(fs, j, q);
    if Lookup(fs, j, q) != 0 {
      assert Lookup(fs, j, q) != b;
      if r.Entry? {
        assert Lookup(fs, i, Indirect) != Lookup(fs, j, q);
      }
    }
  }

  /** Sizes, and the set of filled places, as far as Ensure concerns them. */
  lemma {:induction false} EnsureKeeps(fs: Fs, i: nat, r: Ref)
    requires Inv(fs) && i < |fs.inodes| && HasPlace(fs, i, r)
    ensures var fs' := Ensure(fs, i, r);
      && Inv(fs') && |fs'.inodes| == |fs.inodes| && fs'.nmeta == fs.nmeta && |fs'.used| == |fs.used|
      && SameData(fs, fs') && (forall j: nat :: j < |fs.inodes| ==> fs'.inodes[j].size == fs.inodes[j].size)
      && (forall j: nat, q :: j < |fs.inodes| && Lookup(fs, j, q) != 0 ==> Lookup(fs', j, q) == Lookup(fs, j, q))
      && (Lookup(fs', i, r) == 0 <==> Lookup(fs, i, r) == 0 && FreeBlock(fs.used, 0) == |fs.used|)
  {
    var b := FreeBlock(fs.used, 0);
    if Lookup(fs, i, r) == 0 && b < |fs.used| {
      AllocAtAttached(fs, i, r);
      AttachedKeeps(fs, AllocAt(fs, i, r), i, r, b);
      FreeIsUnowned(fs, b);
      forall j: nat, bn: nat | j < |fs.inodes|
        ensures DataBlock(AllocAt(fs, i, r), j, bn) == DataBlock(fs, j, bn)
      {
        AllocAtData(fs, i, r, j, bn);
      }
    }
  }

  /** bmap: find the bn-th block of a file, allocating it and the indirect block as needed. */
  ghost function Bmap(fs: Fs, i: nat, bn: nat): Fs
    requires Inv(fs) && i < |fs.inodes| && bn < MAXFILE
  {
    if bn < NDIRECT then Ensure(fs, i, Direct(bn))
    else
      EnsureKeeps(fs, i, Indirect);
      var f := Ensure(fs, i, Indirect);
      if Lookup(f, i, Indirect) == 0 then f else Ensure(f, i, Entry(bn - NDIRECT))
  }

  /** What every allocation on behalf of inode `i` keeps. */
  ghost predicate Grown(fs: Fs, fs': Fs) {
    && Inv(fs) && Inv(fs')
    && |fs'.inodes| == |fs.inodes| && fs'.nmeta == fs.nmeta && |fs'.used| == |fs.used|
    && SameData(fs, fs')
    && (forall j: nat :: j < |fs.inodes| ==> fs'.inodes[j].size == fs.inodes[j].size)
    && (forall j: nat, q :: j < |fs.inodes| && Lookup(fs, j, q) != 0 ==> Lookup(fs', j, q) == Lookup(fs, j, q))
  }

  /** bmap keeps ownership and every byte of every file, and fails only on a full disk. */
  lemma {:induction false} BmapKeeps(fs: Fs, i: nat, bn: nat)
    requires Inv(fs) && i < |fs.inodes| && bn < MAXFILE
    ensures Grown(fs, Bmap(fs, i, bn))
    ensures Lookup(fs, i, DataRef(bn)) != 0 ==> Bmap(fs, i, bn) == fs
    ensures Lookup(Bmap(fs, i, bn), i, DataRef(bn)) == 0 ==> FreeBlock(Bmap(fs, i, bn).used, 0) == |fs.used|
  {
    if bn < NDIRECT {
      EnsureKeeps(fs, i, Direct(bn));
    } else {
      EnsureKeeps(fs, i, Indirect);
      var f := Ensure(fs, i, Indirect);
      if Lookup(f, i, Indirect) != 0 {
        assert HasPlace(f, i, Entry(bn - NDIRECT));
        EnsureKeeps(f, i, Entry(bn - NDIRECT));
      }
    }
  }

  /** bmap records at most the block asked for and the indirect block of that inode. */
  lemma {:induction false} BmapOnly(fs: Fs, i: nat, bn: nat, j: nat, q: Ref)
    requires Inv(fs) && i < |fs.inodes| && bn < MAXFILE && j < |fs.inodes|
    requires j != i || (q != Indirect && q != DataRef(bn))
    ensures var fs' := Bmap(fs, i, bn);
      Shape(fs') && |fs'.inodes| == |fs.inodes| && Lookup(fs', j, q) == Lookup(fs, j, q)
  {
    BmapKeeps(fs, i, bn);
    if bn < NDIRECT {
      EnsureOnly(fs, i, Direct(bn), j, q);
    } else {
      EnsureKeeps(fs, i, Indirect);
      var f := Ensure(fs, i, Indirect);
      EnsureOnly(fs, i, Indirect, j, q);
      if Lookup(f, i, Indirect) != 0 {
        EnsureOnly(f, i, Entry(bn - NDIRECT), j, q);
      }
    }
  }

  lemma {:induction false} EnsureOnly(fs: Fs, i: nat, r: Ref, j: nat, q: Ref)
    requires Inv(fs) && i < |fs.inodes| && HasPlace(fs, i, r) && j < |fs.inodes| && (j != i || q != r)
    ensures var fs' := Ensure(fs, i, r);
      Shape(fs') && |fs'.inodes| == |fs.inodes| && Lookup(fs', j, q) == Lookup(fs, j, q)
  {
    if Lookup(fs, i, r) == 0 && FreeBlock(fs.used, 0) < |fs.used| {
      AllocAtAttached(fs, i, r);
    }
  }

  // ---------------------------------------------------------------- writing a block

  function PutBlock(fs: Fs, b: nat, blk: Block): Fs
    requires b < |fs.blocks|
  {
    fs.(blocks := fs.blocks[b := blk])
  }

  /** Writing a file's block changes that block of that file and nothing else. */
  lemma {:induction false} PutBlockLookup(fs: Fs, i: nat, bn: nat, blk: Block, j: nat, q: Ref)
    requires Inv(fs) && i < |fs.inodes| && j < |fs.inodes| && |blk.bytes| == BSIZE
    requires Lookup(fs, i, DataRef(bn)) != 0
    ensures var fs' := PutBlock(fs, Lookup(fs, i, DataRef(bn)), blk);
      Shape(fs') && Lookup(fs', j, q) == Lookup(fs, j, q)
  {
    assert Lookup(fs, j, Indirect) != Lookup(fs, i, DataRef(bn));
  }

  /** Ownership depends only on what the references name. */
  lemma {:induction false} SameOwners(fs: Fs, fs': Fs)
    requires Inv(fs) && Shape(fs') && fs'.nmeta == fs.nmeta && fs'.used == fs.used && |fs'.inodes| == |fs.inodes|
    requires forall j: nat, q :: j < |fs.inodes| ==> Lookup(fs', j, q) == Lookup(fs, j, q)
    ensures Inv(fs')
  {
    hide Lookup;
    forall x | fs.nmeta <= x < |fs.used| && fs.used[x] ensures HasOwner(fs', x) {
      assert HasOwner(fs, x);
      var j: nat, q :| j < |fs.inodes| && Lookup(fs, j, q) == x;
      assert Lookup(fs', j, q) == x;
    }
  }

  lemma {:induction false} PutBlockKeeps(fs: Fs, i: nat, bn: nat, blk: Block)
    requires Inv(fs) && i < |fs.inodes| && |blk.bytes| == BSIZE && Lookup(fs, i, DataRef(bn)) != 0
    ensures var fs' := PutBlock(fs, Lookup(fs, i, DataRef(bn)), blk);
      && Inv(fs') && fs'.inodes == fs.inodes
      && (forall j: nat, q :: j < |fs.inodes| ==> Lookup(fs', j, q) == Lookup(fs, j, q))
      && (forall j: nat, m: nat :: j < |fs.inodes| ==>
            DataBlock(fs', j, m) == if j == i && m == bn then blk else DataBlock(fs, j, m))
  {
    var b := Lookup(fs, i, DataRef(bn));
    var fs' := PutBlock(fs, b, blk);
    forall j: nat, q | j < |fs.inodes| ensures Shape(fs') && Lookup(fs', j, q) == Lookup(fs, j, q) {
      PutBlockLookup(fs, i, bn, blk, j, q);
    }
    PutBlockLookup(fs, i, bn, blk, i, Indirect);
    SameOwners(fs, fs');
    forall j: nat, m: nat | j < |fs.inodes|
      ensures DataBlock(fs', j, m) == if j == i && m == bn then blk else DataBlock(fs, j, m)
    {
      assert Lookup(fs', j, DataRef(m)) == Lookup(fs, j, DataRef(m));
      assert DataRef(m) == DataRef(bn) ==> m == bn;
    }
  }

  /** A block with `src` copied over it from byte `at`. */
  function Patch(blk: Block, at: nat, src: seq<Byte>): (r: Block)
    requires at + |src| <= |blk.bytes|
    ensures |r.bytes| == |blk.bytes|
  {
    Block(blk.bytes[..at] + src + blk.bytes[at + |src|..])
  }

  /** The state after `tot` bytes of `src` were copied to file `i` from offset `off`. */
  ghost predicate Wrote(fs: Fs, fs': Fs, i: nat, off: nat, src: seq<Byte>, tot: nat)
    requires i < |fs.inodes| && tot <= |src|
  {
    && Inv(fs) && Inv(fs') && |fs'.inodes| == |fs.inodes|
    && fs'.nmeta == fs.nmeta && |fs'.used| == |fs.used|
    && (forall j: nat :: j < |fs.inodes| ==> fs'.inodes[j].size == fs.inodes[j].size)
    && (forall j: nat, q :: j < |fs.inodes| && Lookup(fs, j, q) != 0 ==> Lookup(fs', j, q) == Lookup(fs, j, q))
    && (forall x: nat :: off <= x < off + tot ==> Lookup(fs', i, DataRef(x / BSIZE)) != 0)
    && (forall j: nat, x: nat :: j < |fs.inodes| ==>
          ByteAt(fs', j, x) == if j == i && off <= x < off + tot then src[x - off] else ByteAt(fs, j, x))
  }

  lemma {:induction false} WroteNothing(fs: Fs, i: nat, off: nat, src: seq<Byte>)
    requires Inv(fs) && i < |fs.inodes|
    ensures Wrote(fs, fs, i, off, src, 0)
  {
  }

  /** Allocating a block on the way does not disturb what was written. */
  lemma {:induction false} WroteBmap(fs: Fs, m: Fs, i: nat, off: nat, src: seq<Byte>, tot: nat, bn: nat)
    requires i < |fs.inodes| && tot <= |src| && Wrote(fs, m, i, off, src, tot) && bn < MAXFILE
    ensures Wrote(fs, Bmap(m, i, bn), i, off, src, tot)
  {
    BmapKeeps(m, i, bn);
    var m' := Bmap(m, i, bn);
    forall j: nat, x: nat | j < |fs.inodes| ensures ByteAt(m', j, x) == ByteAt(m, j, x) {
      assert DataBlock(m', j, x / BSIZE) == DataBlock(m, j, x / BSIZE);
    }
  }

  /** How much one turn of the copy loops moves: up to the end of the block. */
  function Chunk(off: nat, tot: nat, n: nat): (m: nat)
    requires tot < n
    ensures 0 < m <= n - tot && (off + tot) % BSIZE + m <= BSIZE
  {
    var room := BSIZE - (off + tot) % BSIZE;
    if n - tot < room then n - tot else room
  }

  lemma {:induction false} ChunkInBlock(at: nat, room: nat)
    requires room == BSIZE - at % BSIZE
    ensures forall x: nat :: at <= x < at + room ==> x / BSIZE == at / BSIZE && x % BSIZE == at % BSIZE + (x - at)
  {
    forall x: nat | at <= x < at + room
      ensures x / BSIZE == at / BSIZE && x % BSIZE == at % BSIZE + (x - at)
    {
      InBlock(at / BSIZE, at % BSIZE + (x - at));
    }
  }

  lemma {:induction false} InBlock(q: nat, r: nat)
    requires r < BSIZE
    ensures (BSIZE * q + r) / BSIZE == q && (BSIZE * q + r) % BSIZE == r
  {
  }

  /** One turn of the loop of writei, seen at one byte. */
  lemma {:induction false} ChunkByte(m: Fs, m': Fs, i: nat, at: nat, blk: Block, src: seq<Byte>, j: nat, x: nat)
    requires Shape(m) && Shape(m') && i < |m.inodes| == |m'.inodes| && j < |m.inodes|
    requires |blk.bytes| == BSIZE && at % BSIZE + |src| <= BSIZE && blk == DataBlock(m, i, at / BSIZE)
    requires DataBlock(m', j, x / BSIZE) ==
             if j == i && x / BSIZE == at / BSIZE then Patch(blk, at % BSIZE, src) else DataBlock(m, j, x / BSIZE)
    ensures ByteAt(m', j, x) == if j == i && at <= x < at + |src| then src[x - at] else ByteAt(m, j, x)
  {
    if j == i && x / BSIZE == at / BSIZE {
      PatchByte(blk, at, src, x);
    }
    ChunkInBlock(at, BSIZE - at % BSIZE);
  }

  lemma {:induction false} WroteMore(fs: Fs, m: Fs, m': Fs, i: nat, off: nat, src: seq<Byte>, tot: nat, k: nat)
    requires i < |fs.inodes| && tot + k <= |src| && Wrote(fs, m, i, off, src, tot)
    requires Inv(m') && m'.inodes == m.inodes && m'.nmeta == m.nmeta && m'.used == m.used
    requires forall j: nat, q :: j < |m.inodes| ==> Lookup(m', j, q) == Lookup(m, j, q)
    requires forall j: nat, x: nat :: j < |m.inodes| ==>
      ByteAt(m', j, x) ==
      if j == i && off + tot <= x < off + tot + k then src[tot..tot + k][x - (off + tot)] else ByteAt(m, j, x)
    requires forall x: nat :: off + tot <= x < off + tot + k ==> Lookup(m, i, DataRef(x / BSIZE)) != 0
    ensures Wrote(fs, m', i, off, src, tot + k)
  {
    hide Inv, Lookup, ByteAt, DataRef;
  }

  /** Copying `part` into the block at `at` changes those bytes of that file and no others. */
  lemma {:induction false} ChunkBytes(m: Fs, i: nat, at: nat, part: seq<Byte>)
    requires Inv(m) && i < |m.inodes| && at % BSIZE + |part| <= BSIZE && Lookup(m, i, DataRef(at / BSIZE)) != 0
    ensures var b := Lookup(m, i, DataRef(at / BSIZE));
      && b < |m.blocks| && |m.blocks[b].bytes| == BSIZE
      && var m' := PutBlock(m, b, Patch(m.blocks[b], at % BSIZE, part));
         && Inv(m') && m'.inodes == m.inodes
         && (forall j: nat, q :: j < |m.inodes| ==> Lookup(m', j, q) == Lookup(m, j, q))
         && (forall j: nat, x: nat :: j < |m.inodes| ==>
               ByteAt(m', j, x) == if j == i && at <= x < at + |part| then part[x - at] else ByteAt(m, j, x))
    ensures forall x: nat :: at <= x < at + |part| ==> Lookup(m, i, DataRef(x / BSIZE)) != 0
  {
    var b := Lookup(m, i, DataRef(at / BSIZE));
    var blk := Patch(m.blocks[b], at % BSIZE, part);
    PutBlockKeeps(m, i, at / BSIZE, blk);
    var m' := PutBlock(m, b, blk);
    forall j: nat, x: nat | j < |m.inodes|
      ensures ByteAt(m', j, x) == if j == i && at <= x < at + |part| then part[x - at] else ByteAt(m, j, x)
    {
      ChunkByte(m, m', i, at, m.blocks[b], part, j, x);
    }
    ChunkInBlock(at, BSIZE - at % BSIZE);
  }

  lemma {:induction false} WroteInv(fs: Fs, m: Fs, i: nat, off: nat, src: seq<Byte>, tot: nat)
    requires i < |fs.inodes| && tot <= |src| && Wrote(fs, m, i, off, src, tot)
    ensures Inv(m) && Shape(m) && |m.inodes| == |fs.inodes|
  {
  }

  /** One turn of the loop of writei. */
  lemma {:induction false} WroteChunk(fs: Fs, m: Fs, i: nat, off: nat, src: seq<Byte>, tot: nat)
    requires i < |fs.inodes| && tot < |src| && Wrote(fs, m, i, off, src, tot)
    requires Lookup(m, i, DataRef((off + tot) / BSIZE)) != 0
    ensures var k := Chunk(off, tot, |src|); var at := off + tot;
      var b := Lookup(m, i, DataRef(at / BSIZE));
      b < |m.blocks| && |m.blocks[b].bytes| == BSIZE &&
      Wrote(fs, PutBlock(m, b, Patch(m.blocks[b], at % BSIZE, src[tot..tot + k])), i, off, src, tot + k)
  {
    hide Inv, Lookup, ByteAt, Patch, DataRef;
    var k, at := Chunk(off, tot, |src|), off + tot;
    WroteInv(fs, m, i, off, src, tot);
    ChunkBytes(m, i, at, src[tot..tot + k]);
    var b := Lookup(m, i, DataRef(at / BSIZE));
    WroteMore(fs, m, PutBlock(m, b, Patch(m.blocks[b], at % BSIZE, src[tot..tot + k])), i, off, src, tot, k);
  }

  lemma {:induction false} PatchByte(blk: Block, at: nat, src: seq<Byte>, x: nat)
    requires |blk.bytes| == BSIZE && at % BSIZE + |src| <= BSIZE && x / BSIZE == at / BSIZE
    ensures Patch(blk, at % BSIZE, src).bytes[x % BSIZE] ==
            if at <= x < at + |src| then src[x - at] else blk.bytes[x % BSIZE]
  {
    assert x % BSIZE - at % BSIZE == x - at;
  }

  // ---------------------------------------------------------------- finishing a write

  function SetSize(fs: Fs, i: nat, n: nat): Fs
    requires i < |fs.inodes|
  {
    fs.(inodes := fs.inodes[i := fs.inodes[i].(size := n)])
  }

  lemma {:induction false} SetSizeKeeps(fs: Fs, i: nat, n: nat)
    requires Inv(fs) && i < |fs.inodes|
    ensures var r := SetSize(fs, i, n);
      && Inv(r)
      && (forall j: nat, q :: j < |fs.inodes| ==> Lookup(r, j, q) == Lookup(fs, j, q))
      && (forall j: nat, x: nat :: j < |fs.inodes| ==> ByteAt(r, j, x) == ByteAt(fs, j, x))
  {
    var r := SetSize(fs, i, n);
    assert Shape(r);
    assert forall j: nat, q :: j < |fs.inodes| ==> Lookup(r, j, q) == Lookup(fs, j, q);
    forall x | fs.nmeta <= x < |fs.used| && fs.used[x] ensures HasOwner(r, x) {
      assert HasOwner(fs, x);
      var j: nat, q :| j < |fs.inodes| && Lookup(fs, j, q) == x;
      assert Lookup(r, j, q) == x;
    }
  }

  function Max(a: nat, b: nat): nat { if a < b then b else a }

  /** After writei every file is what it was, except that the bytes written are spliced into one. */
  ghost predicate Spliced(fs: Fs, r: Fs, i: nat, off: nat, src: seq<Byte>)
    requires i < |fs.inodes| && Shape(fs) && off <= fs.inodes[i].size
  {
    && Inv(r) && |r.inodes| == |fs.inodes| && r.nmeta == fs.nmeta && |r.used| == |fs.used|
    && Content(r, i) == Splice(Content(fs, i), off, src)
    && (forall j: nat :: j < |fs.inodes| && j != i ==> Content(r, j) == Content(fs, j))
    && (forall j: nat :: j < |fs.inodes| && NoHoles(fs, j) ==> NoHoles(r, j))
  }

  lemma {:induction false} WriteDone(fs: Fs, m: Fs, i: nat, off: nat, src: seq<Byte>, tot: nat)
    requires i < |fs.inodes| && tot <= |src| && Wrote(fs, m, i, off, src, tot)
    requires off <= fs.inodes[i].size && off + tot <= MAXFILE * BSIZE
    ensures Spliced(fs, SetSize(m, i, Max(fs.inodes[i].size, off + tot)), i, off, src[..tot])
  {
    var r := SetSize(m, i, Max(fs.inodes[i].size, off + tot));
    SetSizeKeeps(m, i, Max(fs.inodes[i].size, off + tot));
    hide Inv, ByteAt, Lookup;
    SplicedAt(Content(fs, i), Content(r, i), off, src[..tot]);
    forall j: nat | j < |fs.inodes| && j != i ensures Content(r, j) == Content(fs, j) {
    }
    forall j: nat | j < |fs.inodes| && NoHoles(fs, j) ensures NoHoles(r, j) {
      HolesFilled(fs, m, i, off, src, tot, j);
    }
  }

  lemma {:induction false} SplicedAt(c: seq<Byte>, d: seq<Byte>, off: nat, src: seq<Byte>)
    requires off <= |c| && |d| == Max(|c|, off + |src|)
    requires forall x: nat :: x < |d| ==>
        d[x] == if off <= x < off + |src| then src[x - off] else if x < |c| then c[x] else 0
    ensures d == Splice(c, off, src)
  {
  }

  lemma {:induction false} HolesFilled(fs: Fs, m: Fs, i: nat, off: nat, src: seq<Byte>, tot: nat, j: nat)
    requires i < |fs.inodes| && tot <= |src| && Wrote(fs, m, i, off, src, tot) && j < |fs.inodes| && NoHoles(fs, j)
    requires off <= fs.inodes[i].size && off + tot <= MAXFILE * BSIZE
    ensures NoHoles(SetSize(m, i, Max(fs.inodes[i].size, off + tot)), j)
  {
    var n := Max(fs.inodes[i].size, off + tot);
    SetSizeKeeps(m, i, n);
    forall bn: nat | bn * BSIZE < (if j == i then n else fs.inodes[j].size)
      ensures Lookup(m, j, DataRef(bn)) != 0
    {
      if bn * BSIZE < fs.inodes[j].size {
        assert Lookup(fs, j, DataRef(bn)) != 0;
      } else {
        InBlock(bn, 0);
        assert off <= bn * BSIZE < off + tot;
        assert Lookup(m, i, DataRef((bn * BSIZE) / BSIZE)) != 0;
      }
    }
  }

  lemma {:induction false} SpliceSplice(c: seq<Byte>, off: nat, a: seq<Byte>, b: seq<Byte>)
    requires off <= |c|
    ensures off + |a| <= |Splice(c, off, a)|
    ensures Splice(Splice(c, off, a), off + |a|, b) == Splice(c, off, a + b)
  {
  }

  // ---------------------------------------------------------------- truncation

  ghost predicate OwnedBy(fs: Fs, i: nat, b: nat)
    requires Shape(fs) && i < |fs.inodes|
  {
    b != 0 && exists r :: Lookup(fs, i, r) == b
  }

  /** itrunc: the inode is empty and exactly its blocks are free. */
  ghost predicate Truncated(fs: Fs, r: Fs, i: nat)
    requires Shape(fs) && i < |fs.inodes|
  {
    && r.nmeta == fs.nmeta && r.blocks == fs.blocks && |r.used| == |fs.used|
    && (forall b :: 0 <= b < |fs.used| ==> (r.used[b] <==> fs.used[b] && !OwnedBy(fs, i, b)))
    && r.inodes == fs.inodes[i := Inode(seq(NDIRECT + 1, _ => 0), 0)]
  }

  /** The bitmap once the blocks recorded at the places in `done` have been freed. */
  ghost predicate Freed(fs: Fs, i: nat, done: set<Ref>, used: seq<bool>)
    requires Shape(fs) && i < |fs.inodes|
  {
    && |used| == |fs.used|
    && forall b :: 0 <= b < |used| ==> (used[b] <==> fs.used[b] && !RecordedIn(fs, i, done, b))
  }

  ghost predicate RecordedIn(fs: Fs, i: nat, done: set<Ref>, b: nat)
    requires Shape(fs) && i < |fs.inodes|
  {
    b != 0 && exists r :: r in done && Lookup(fs, i, r) == b
  }

  /** itrunc never frees a free block: a place not yet done still holds a block in use. */
  lemma {:induction false} FreeOne(fs: Fs, i: nat, done: set<Ref>, used: seq<bool>, r: Ref)
    requires Inv(fs) && i < |fs.inodes| && Freed(fs, i, done, used) && r !in done
    ensures var b := Lookup(fs, i, r);
      && (b != 0 ==> b < |used| && used[b] && Freed(fs, i, done + {r}, used[b := false]))
      && (b == 0 ==> Freed(fs, i, done + {r}, used))
  {
    var b := Lookup(fs, i, r);
    if b != 0 {
      assert !RecordedIn(fs, i, done, b);
      var used' := used[b := false];
      forall x | 0 <= x < |used| ensures used'[x] <==> fs.used[x] && !RecordedIn(fs, i, done + {r}, x) {
        assert RecordedIn(fs, i, done + {r}, x) <==> RecordedIn(fs, i, done, x) || x == b;
      }
    } else {
      forall x | 0 <= x < |used| ensures RecordedIn(fs, i, done + {r}, x) <==> RecordedIn(fs, i, done, x) {
      }
    }
  }

  /** Once every place of the inode is done, exactly its blocks are free. */
  lemma {:induction false} FreedAll(fs: Fs, i: nat, done: set<Ref>, used: seq<bool>)
    requires Inv(fs) && i < |fs.inodes| && Freed(fs, i, done, used)
    requires forall r :: Lookup(fs, i, r) != 0 ==> r in done
    ensures forall b :: 0 <= b < |fs.used| ==> (used[b] <==> fs.used[b] && !OwnedBy(fs, i, b))
  {
    forall b | 0 <= b < |fs.used| ensures RecordedIn(fs, i, done, b) <==> OwnedBy(fs, i, b) {
    }
  }

  lemma {:induction false} TruncatedLookup(fs: Fs, r: Fs, i: nat, j: nat, q: Ref)
    requires Inv(fs) && i < |fs.inodes| && Truncated(fs, r, i) && j < |fs.inodes|
    ensures Shape(r) && Lookup(r, j, q) == if i == j then 0 else Lookup(fs, j, q)
  {
  }

  lemma {:induction false} TruncatedKeeps(fs: Fs, r: Fs, i: nat)
    requires Inv(fs) && i < |fs.inodes| && Truncated(fs, r, i)
    ensures Inv(r) && Content(r, i) == []
    ensures forall j: nat :: j < |fs.inodes| && j != i ==> Content(r, j) == Content(fs, j)
    ensures forall j: nat :: j < |fs.inodes| && NoHoles(fs, j) ==> NoHoles(r, j)
  {
    forall j: nat, q | j < |fs.inodes|
      ensures Shape(r) && Lookup(r, j, q) == if i == j then 0 else Lookup(fs, j, q)
    {
      TruncatedLookup(fs, r, i, j, q);
    }
    TruncatedLookup(fs, r, i, i, Indirect);
    assert RefsUsed(r) by {
      forall j: nat, q | j < |fs.inodes| && j != i && Lookup(fs, j, q) != 0
        ensures !OwnedBy(fs, i, Lookup(fs, j, q))
      {
      }
    }
    assert NoLeaks(r) by {
      forall x | fs.nmeta <= x < |fs.used| && r.used[x] ensures HasOwner(r, x) {
        assert HasOwner(fs, x) && !OwnedBy(fs, i, x);
        var j: nat, q :| j < |fs.inodes| && Lookup(fs, j, q) == x;
        assert Lookup(r, j, q) == x;
      }
    }
    TruncatedContent(fs, r, i);
  }

  lemma {:induction false} TruncatedContent(fs: Fs, r: Fs, i: nat)
    requires Inv(fs) && i < |fs.inodes| && Truncated(fs, r, i) && Shape(r)
    requires forall j: nat, q :: j < |fs.inodes| ==> Lookup(r, j, q) == if i == j then 0 else Lookup(fs, j, q)
    ensures Content(r, i) == []
    ensures forall j: nat :: j < |fs.inodes| && j != i ==> Content(r, j) == Content(fs, j)
    ensures forall j: nat :: j < |fs.inodes| && NoHoles(fs, j) ==> NoHoles(r, j)
  {
    forall j: nat | j < |fs.inodes| && j != i ensures Content(r, j) == Content(fs, j) {
      assert forall x: nat :: ByteAt(r, j, x) == ByteAt(fs, j, x);
    }
  }
}
