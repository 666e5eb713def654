/**
 `mkfs/mkfs.c`: building the image the kernel starts from. Blocks are handed out
 by a counter, files only grow by appending, and the bitmap is written last.
 */
module Mkfs {
  import opened Common
  import opened FileBlocks
  import opened FileCode

  const FSSIZE: nat := 2000
  const NINODES: nat := 200
  const LOGSTART: nat := 2
  const INODESTART: nat := LOGSTART + LOGBLOCKS + 1
  const BMAPSTART: nat := INODESTART + NINODES / IPB + 1
  const NMETA: nat := 2 + (LOGBLOCKS + 1) + (NINODES / IPB + 1) + (FSSIZE / BPB + 1)
  const ROOTINO: nat := 1
  /** The size of a directory entry. */
  const DIRENT: nat := 16

  /** The bitmap that mkfs will write: everything below the counter is in use. */
  function Below(size: nat, n: nat): (used: seq<bool>)
    ensures |used| == size && forall b :: 0 <= b < size ==> used[b] == (b < n)
  {
    seq(size, b => b < n)
  }

  /** The blocks of file `i` are exactly those below offset `n`. */
  ghost predicate TightTo(fs: Fs, i: nat, n: nat)
    requires Shape(fs) && i < |fs.inodes|
  {
    forall bn: nat :: bn < MAXFILE ==> (Lookup(fs, i, DataRef(bn)) != 0 <==> bn * BSIZE < n)
  }

  /** Every file is tight up to its size, file `i` up to `n`. */
  ghost predicate AllTight(fs: Fs, i: nat, n: nat)
    requires Shape(fs) && i < |fs.inodes|
  {
    forall j: nat :: j < |fs.inodes| ==>
      fs.inodes[j].size <= MAXFILE * BSIZE && TightTo(fs, j, if j == i then n else fs.inodes[j].size)
  }

  /** Files have blocks exactly below their size. */
  ghost predicate Tidy(fs: Fs) {
    Shape(fs) && forall j: nat :: j < |fs.inodes| ==>
        fs.inodes[j].size <= MAXFILE * BSIZE && TightTo(fs, j, fs.inodes[j].size)
  }

  lemma {:induction false} TidyIs(fs: Fs, i: nat)
    requires Shape(fs) && i < |fs.inodes|
    ensures Tidy(fs) <==> AllTight(fs, i, fs.inodes[i].size)
  {
    hide TightTo;
  }

  lemma {:induction false} TidyNoHoles(fs: Fs, i: nat)
    requires Tidy(fs) && i < |fs.inodes|
    ensures NoHoles(fs, i)
  {
    assert TightTo(fs, i, fs.inodes[i].size);
    forall bn: nat | bn * BSIZE < fs.inodes[i].size ensures Lookup(fs, i, DataRef(bn)) != 0 {
      assert bn < MAXFILE;
    }
  }

  function EmptyInode(): Inode { Inode(seq(NDIRECT + 1, _ => 0), 0) }

  /** The image before anything is added. */
  function Blank(): Fs {
    Fs(NMETA, Below(FSSIZE, NMETA), seq(FSSIZE, _ => ZeroBlock()), seq(NINODES, _ => EmptyInode()))
  }

  lemma {:induction false} BlankInv()
    ensures Inv(Blank()) && Tidy(Blank())
  {
    var fs := Blank();
    assert Shape(fs);
    forall i: nat, r | i < NINODES ensures Lookup(fs, i, r) == 0 {
      assert fs.inodes[i] == EmptyInode();
    }
  }

  /** The size mkfs gives the root directory at the end: the next block boundary, past it if it is on one. */
  function RoundedSize(n: nat): nat { (n / BSIZE + 1) * BSIZE }

  /** Rounding the size up leaves a hole in the file if and only if its size was a multiple of the block size. */
  lemma {:induction false} RootSizeFix(fs: Fs, i: nat)
    requires Inv(fs) && i < |fs.inodes| && Tidy(fs) && RoundedSize(fs.inodes[i].size) <= MAXFILE * BSIZE
    ensures var r := SetSize(fs, i, RoundedSize(fs.inodes[i].size));
      && Inv(r) && (NoHoles(r, i) <==> fs.inodes[i].size % BSIZE != 0)
      && Content(fs, i) <= Content(r, i)
      && forall j: nat :: j < |fs.inodes| && j != i ==> NoHoles(r, j) && Content(r, j) == Content(fs, j)
  {
    var n := fs.inodes[i].size;
    var r := SetSize(fs, i, RoundedSize(n));
    SetSizeKeeps(fs, i, RoundedSize(n));
    assert n <= RoundedSize(n);
    assert TightTo(fs, i, n);
    if n % BSIZE == 0 {
      var bn := n / BSIZE;
      assert bn * BSIZE == n && bn < MAXFILE;
      assert Lookup(r, i, DataRef(bn)) == 0 && bn * BSIZE < r.inodes[i].size;
    } else {
      forall bn: nat | bn * BSIZE < RoundedSize(n) ensures Lookup(r, i, DataRef(bn)) != 0 {
        assert bn <= n / BSIZE;
        assert bn * BSIZE < n && bn < MAXFILE;
      }
    }
    forall j: nat | j < |fs.inodes| && j != i ensures NoHoles(r, j) && Content(r, j) == Content(fs, j) {
      TidyNoHoles(fs, j);
    }
  }

  /**
   With 62 files beside `.` and `..` the entries fill one block; the directory
   then claims two, and the second does not exist.
   */
  lemma {:induction false} SixtyTwoFiles(fs: Fs)
    requires Inv(fs) && ROOTINO < |fs.inodes| && Tidy(fs) && fs.inodes[ROOTINO].size == (62 + 2) * DIRENT
    ensures var r := SetSize(fs, ROOTINO, RoundedSize(fs.inodes[ROOTINO].size));
      r.inodes[ROOTINO].size == 2 * BSIZE && Lookup(r, ROOTINO, Direct(1)) == 0 && !NoHoles(r, ROOTINO)
  {
    RootSizeFix(fs, ROOTINO);
    assert TightTo(fs, ROOTINO, fs.inodes[ROOTINO].size);
    assert Lookup(fs, ROOTINO, DataRef(1)) == 0;
  }

  // ---------------------------------------------------------------- appending

  lemma {:induction false} SameBlockSplit(at: nat, k: nat, m: nat)
    requires 0 < k && at % BSIZE + k <= BSIZE
    ensures m == at / BSIZE ==> m * BSIZE < at + k
    ensures m != at / BSIZE ==> (m * BSIZE < at <==> m * BSIZE < at + k)
  {
    if m > at / BSIZE {
      assert m * BSIZE >= at / BSIZE * BSIZE + BSIZE;
    } else if m < at / BSIZE {
      assert m * BSIZE <= at / BSIZE * BSIZE - BSIZE;
    }
  }

  /** One turn of iappend extends the tight part of its file and touches no other. */
  lemma {:induction false} TurnTight(s: Fs, m: Fs, r: Fs, i: nat, at: nat, k: nat)
    requires Inv(s) && i < |s.inodes| && at < MAXFILE * BSIZE && 0 < k && at % BSIZE + k <= BSIZE
    requires AllTight(s, i, at) && m == Bmap(s, i, at / BSIZE)
    requires Shape(m) && Shape(r) && |m.inodes| == |r.inodes| == |s.inodes|
    requires forall j: nat :: j < |s.inodes| ==> r.inodes[j].size == s.inodes[j].size
    requires Lookup(m, i, DataRef(at / BSIZE)) != 0
    requires forall j: nat, q :: j < |s.inodes| ==> Lookup(r, j, q) == Lookup(m, j, q)
    ensures AllTight(r, i, at + k)
  {
    forall j: nat | j < |s.inodes| ensures TightTo(r, j, if j == i then at + k else s.inodes[j].size) {
      assert TightTo(s, j, if j == i then at else s.inodes[j].size);
      forall n: nat | n < MAXFILE
        ensures Lookup(r, j, DataRef(n)) != 0 <==> n * BSIZE < if j == i then at + k else s.inodes[j].size
      {
        SameBlockSplit(at, k, n);
        if j != i || n != at / BSIZE {
          BmapOnly(s, i, at / BSIZE, j, DataRef(n));
        }
      }
    }
  }

  class Image {
    var freeblock: nat
    var blocks: seq<Block>
    var inodes: seq<Inode>

    ghost function State(): Fs
      reads this
    {
      Fs(NMETA, Below(FSSIZE, freeblock), blocks, inodes)
    }

    ghost predicate Valid()
      reads this
    {
      && NMETA <= freeblock <= FSSIZE && Inv(State()) && |inodes| == NINODES
      && (forall b :: 0 <= b < FSSIZE && !(NMETA <= b < freeblock) ==> blocks[b] == ZeroBlock())
    }

    /** rsect reads only what is in the image file, which has FSSIZE sectors; past its end mkfs dies. */
    predicate OnImage(sec: nat)
      reads this
    {
      sec < |blocks|
    }

    constructor ()
      ensures Valid() && State() == Blank() && Tidy(State())
    {
      freeblock := NMETA;
      blocks := seq(FSSIZE, _ => ZeroBlock());
      inodes := seq(NINODES, _ => EmptyInode());
      BlankInv();
    }

    lemma {:induction false} CounterIsLowest()
      requires Valid()
      ensures FreeBlock(State().used, 0) == freeblock && |State().used| == FSSIZE == |blocks|
      ensures freeblock < FSSIZE ==> Take(State(), freeblock) == Fs(NMETA, Below(FSSIZE, freeblock + 1), blocks, inodes)
    {
      FreeBlockIs(State().used, freeblock);
      if freeblock < FSSIZE {
        assert blocks[freeblock := ZeroBlock()] == blocks;
        assert State().used[freeblock := true] == Below(FSSIZE, freeblock + 1);
      }
    }

    /**
     The next block is on the image until the image is full. A block taken off the
     counter is read with rsect before anything records it for good, so a counter
     past FSSIZE never outlives the step that made it.
     */
    lemma {:induction false} ImageEnd()
      requires Valid()
      ensures OnImage(freeblock) <==> freeblock < FSSIZE
      ensures !OnImage(freeblock) <==> FreeBlock(State().used, 0) == |State().used|
    {
      CounterIsLowest();
    }

    /** A block number kept in the inode: taken from the counter if there is none yet. */
    method InInode(i: nat, k: nat) returns (addr: nat)
      requires Valid() && i < |inodes| && k <= NDIRECT && |inodes[i].addrs| == NDIRECT + 1
      modifies this
      ensures Valid() && State() == Ensure(old(State()), i, if k < NDIRECT then Direct(k) else Indirect)
      ensures |inodes[i].addrs| == NDIRECT + 1 && addr == inodes[i].addrs[k]
    {
      ghost var r := if k < NDIRECT then Direct(k) else Indirect;
      PlainPlace(State(), i, k, r);
      assert Inv(Ensure(State(), i, r)) by { EnsureKeeps(State(), i, r); }
      CounterIsLowest();
      FreeBlockData(State());
      hide Inv, Attach, Lookup, Take, Below, ZeroBlock;
      addr := inodes[i].addrs[k];
      if addr == 0 && OnImage(freeblock) {
        PlainAttach(Take(State(), freeblock), i, k, r, freeblock);
        inodes := inodes[i := inodes[i].(addrs := inodes[i].addrs[k := freeblock])];
        addr := freeblock;
        freeblock := freeblock + 1;
      }
    }

    /** An entry of the indirect block. */
    method InIndirect(i: nat, k: nat) returns (addr: nat)
      requires Valid() && i < |inodes| && k < NINDIRECT && HasPlace(State(), i, Entry(k))
      modifies this
      ensures Valid() && State() == Ensure(old(State()), i, Entry(k)) && addr == Lookup(State(), i, Entry(k))
    {
      assert Inv(Ensure(State(), i, Entry(k))) by { EnsureKeeps(State(), i, Entry(k)); }
      EntryPlace(State(), i, k);
      IndirectWritten(i, k);
      CounterIsLowest();
      hide Inv, Lookup, Take, Below, ZeroBlock;
      var t := inodes[i].addrs[NDIRECT];
      addr := Word(blocks[t], k);
      if addr == 0 && OnImage(freeblock) {
        addr := freeblock;
        blocks := blocks[t := PutWord(blocks[t], k, freeblock)];
        freeblock := freeblock + 1;
        assert State() == Attach(Take(old(State()), addr), i, Entry(k), addr);
      }
    }

    lemma {:induction false} IndirectWritten(i: nat, k: nat)
      requires Valid() && i < |inodes| && k < NINDIRECT && HasPlace(State(), i, Entry(k))
      ensures |inodes[i].addrs| == NDIRECT + 1 && NMETA <= inodes[i].addrs[NDIRECT] < freeblock
    {
      assert Lookup(State(), i, Indirect) == inodes[i].addrs[NDIRECT];
    }

    /** Find or make block `bn` of inode `i`; 0 when mkfs dies because the block is past the end of the image. */
    method BlockFor(i: nat, bn: nat) returns (addr: nat)
      requires Valid() && i < |inodes| && bn < MAXFILE
      modifies this
      ensures Valid() && State() == Bmap(old(State()), i, bn) && addr == Lookup(State(), i, DataRef(bn))
    {
      hide RefsDistinct, NoLeaks, SameData, AllocAt, ZeroBlock, Word, Below;
      InodeShape(i);
      if bn < NDIRECT {
        addr := InInode(i, bn);
      } else {
        EnsureKeeps(State(), i, Indirect);
        addr := InInode(i, NDIRECT);
        if addr != 0 {
          addr := InIndirect(i, bn - NDIRECT);
        }
      }
    }

    lemma {:induction false} InodeShape(i: nat)
      requires Valid() && i < |inodes|
      ensures |inodes[i].addrs| == NDIRECT + 1
    {
    }

    /** Copy bytes into a block of the image that has been handed out. */
    method WriteSector(b: nat, blk: Block)
      requires Valid() && NMETA <= b < freeblock && Inv(PutBlock(State(), b, blk))
      modifies this`blocks
      ensures Valid() && State() == PutBlock(old(State()), b, blk)
    {
      blocks := blocks[b := blk];
    }

    /** The copy of one turn of the loop of iappend. */
    method AppendCopy(i: nat, off: nat, src: seq<Byte>, tot: nat, addr: nat, ghost fs: Fs, ghost s: Fs) returns (k: nat)
      requires Valid() && i < |fs.inodes| == |inodes| && tot < |src| && off + |src| <= MAXFILE * BSIZE
      requires Inv(s) && |s.inodes| == |inodes| && State() == Bmap(s, i, (off + tot) / BSIZE)
      requires AllTight(s, i, off + tot)
      requires Wrote(fs, State(), i, off, src, tot)
      requires addr == Lookup(State(), i, DataRef((off + tot) / BSIZE)) != 0
      modifies this`blocks
      ensures Valid() && k == Chunk(off, tot, |src|) && Wrote(fs, State(), i, off, src, tot + k)
      ensures AllTight(State(), i, off + tot + k)
    {
      hide Inv, Shape, Wrote, Lookup, Bmap, AllTight, Patch, Chunk, Below, PutBlock;
      CopyPlace(State(), i, (off + tot) / BSIZE);
      HandedOut(i, DataRef((off + tot) / BSIZE));
      k := Chunk(off, tot, |src|);
      var blk := Patch(blocks[addr], (off + tot) % BSIZE, src[tot..tot + k]);
      CopyStep(fs, State(), i, off, src, tot, addr, blk);
      CopyTight(s, State(), i, off + tot, k, addr, blk);
      WriteSector(addr, blk);
    }

    lemma {:induction false} HandedOut(i: nat, r: Ref)
      requires Valid() && i < |inodes| && Lookup(State(), i, r) != 0
      ensures NMETA <= Lookup(State(), i, r) < freeblock
    {
    }

    /** One turn of the loop of iappend; 0 when mkfs dies. */
    method AppendOne(i: nat, off: nat, src: seq<Byte>, tot: nat, ghost fs: Fs) returns (k: nat)
      requires Valid() && i < |fs.inodes| == |inodes| && tot < |src| && off + |src| <= MAXFILE * BSIZE
      requires Wrote(fs, State(), i, off, src, tot) && AllTight(State(), i, off + tot)
      modifies this
      ensures Valid() && |inodes| == |fs.inodes| && (k == 0 || k == Chunk(off, tot, |src|))
      ensures k > 0 ==> Wrote(fs, State(), i, off, src, tot + k) && AllTight(State(), i, off + tot + k)
      ensures k == 0 ==> freeblock == FSSIZE
    {
      hide *;
      ghost var s := State();
      ValidInv();
      BlockNumber(off + tot);
      BmapStep(fs, s, i, off, src, tot);
      var addr := BlockFor(i, (off + tot) / BSIZE);
      ValidInv();
      if addr == 0 {
        CounterFull();
        return 0;
      }
      k := AppendCopy(i, off, src, tot, addr, fs, s);
    }

    lemma {:induction false} CounterFull()
      requires Valid() && FreeBlock(State().used, 0) == |State().used|
      ensures freeblock == FSSIZE
    {
      CounterIsLowest();
    }

    /** The loop of iappend. */
    method AppendLoop(i: nat, off: nat, src: seq<Byte>) returns (fits: bool)
      requires Valid() && i < |inodes| && off + |src| <= MAXFILE * BSIZE && AllTight(State(), i, off)
      modifies this
      ensures Valid() && |inodes| == |old(inodes)|
      ensures fits ==> Wrote(old(State()), State(), i, off, src, |src|) && AllTight(State(), i, off + |src|)
      ensures !fits ==> freeblock == FSSIZE
    {
      ghost var fs := State();
      WroteNothing(fs, i, off, src);
      hide Inv, Wrote, Lookup, Below, Chunk, AllTight;
      var tot := 0;
      while tot < |src|
        invariant Valid() && |inodes| == |fs.inodes| && tot <= |src|
        invariant Wrote(fs, State(), i, off, src, tot) && AllTight(State(), i, off + tot)
      {
        var k := AppendOne(i, off, src, tot, fs);
        if k == 0 {
          return false;
        }
        tot := tot + k;
      }
      return true;
    }

    lemma {:induction false} ValidInv()
      requires Valid()
      ensures Inv(State()) && Shape(State()) && State().inodes == inodes && |inodes| == NINODES
    {
    }

    /**
     iappend: the bytes go to the end of the file, every other file keeps its bytes,
     and files have blocks exactly below their size. Otherwise mkfs dies: the file
     would exceed its largest size, or the image is full.
     */
    method Iappend(i: nat, src: seq<Byte>) returns (fits: bool)
      requires Valid() && i < |inodes| && Tidy(State())
      modifies this
      ensures Valid() && |inodes| == |old(inodes)|
      ensures fits ==> Tidy(State()) && Content(State(), i) == old(Content(State(), i)) + src
      ensures fits ==> forall j: nat :: j < |inodes| && j != i ==> Content(State(), j) == old(Content(State(), j))
      ensures !fits ==> old(inodes)[i].size + |src| > MAXFILE * BSIZE || freeblock == FSSIZE
    {
      hide *;
      var off := inodes[i].size;
      if off + |src| > MAXFILE * BSIZE {
        return false;
      }
      ghost var fs := State();
      ValidInv();
      TidyIs(fs, i);
      fits := AppendLoop(i, off, src);
      ValidInv();
      if fits {
        Appended(fs, State(), i, src);
        SetInodeSize(i, off + |src|);
      }
    }

    /** The last step of main before the bitmap: the size of the root directory is rounded up. */
    method FixRootSize()
      requires Valid() && Tidy(State()) && RoundedSize(inodes[ROOTINO].size) <= MAXFILE * BSIZE
      modifies this`inodes
      ensures Valid() && forall j: nat :: j < NINODES ==> inodes[j].size <= MAXFILE * BSIZE
      ensures forall j: nat :: j < NINODES ==>
        (NoHoles(State(), j) <==> j != ROOTINO || old(inodes)[ROOTINO].size % BSIZE != 0)
      ensures old(Content(State(), ROOTINO)) <= Content(State(), ROOTINO)
      ensures forall j: nat :: j < NINODES && j != ROOTINO ==> Content(State(), j) == old(Content(State(), j))
    {
      RootSizeFix(State(), ROOTINO);
      hide *;
      ValidInv();
      TidySizes(State());
      RootAmong();
      SetInodeSize(ROOTINO, RoundedSize(inodes[ROOTINO].size));
    }

    method SetInodeSize(i: nat, n: nat)
      requires Valid() && i < |inodes| && Inv(SetSize(State(), i, n))
      modifies this`inodes
      ensures Valid() && State() == SetSize(old(State()), i, n) && inodes[i].size == n && |inodes| == |old(inodes)|
      ensures forall j: nat :: j < |inodes| && j != i ==> inodes[j] == old(inodes)[j]
    {
      inodes := inodes[i := inodes[i].(size := n)];
    }

    /** balloc: the bitmap bytes with the first `freeblock` bits set; the image becomes a file system. */
    method Finish() returns (bitmap: seq<bv8>)
      requires Valid()
      ensures |bitmap| == BSIZE && Bits(bitmap, FSSIZE) == State().used
    {
      bitmap := seq(BSIZE, _ => 0);
      var i := 0;
      while i < freeblock
        invariant 0 <= i <= freeblock && |bitmap| == BSIZE
        invariant Bits(bitmap, FSSIZE) == Below(FSSIZE, i)
      {
        SetBit(bitmap, FSSIZE, i);
        bitmap := bitmap[i / 8 := bitmap[i / 8] | Mask(i % 8)];
        i := i + 1;
      }
    }
  }

  lemma {:induction false} TidySizes(fs: Fs)
    requires Tidy(fs)
    ensures forall j: nat :: j < |fs.inodes| ==> fs.inodes[j].size <= MAXFILE * BSIZE
  {
  }

  lemma {:induction false} RootAmong()
    ensures ROOTINO < NINODES
  {
  }

  lemma {:induction false} AppendIs(fs: Fs, r: Fs, i: nat, src: seq<Byte>)
    requires Shape(fs) && i < |fs.inodes| && Spliced(fs, r, i, fs.inodes[i].size, src)
    ensures Shape(r) && i < |r.inodes| && Content(r, i) == Content(fs, i) + src
    ensures forall j: nat :: j < |fs.inodes| && j != i ==> Content(r, j) == Content(fs, j)
  {
    var c := Content(fs, i);
    assert Splice(c, |c|, src) == c + src;
  }

  lemma {:induction false} InvShape(fs: Fs)
    requires Inv(fs)
    ensures Shape(fs)
  {
  }

  /** The end of iappend, once the loop has written all the bytes of `src` after the file. */
  lemma {:induction false} Appended(fs: Fs, m: Fs, i: nat, src: seq<Byte>)
    requires Inv(fs) && Inv(m) && i < |fs.inodes| == |m.inodes| && fs.inodes[i].size + |src| <= MAXFILE * BSIZE
    requires Wrote(fs, m, i, fs.inodes[i].size, src, |src|) && AllTight(m, i, fs.inodes[i].size + |src|)
    ensures var r := SetSize(m, i, fs.inodes[i].size + |src|);
      && Inv(r) && Tidy(r) && |r.inodes| == |fs.inodes| && Content(r, i) == Content(fs, i) + src
      && forall j: nat :: j < |fs.inodes| && j != i ==> Content(r, j) == Content(fs, j)
  {
    hide Inv, Shape, Wrote, AllTight, Tidy, Content, Spliced;
    var off := fs.inodes[i].size;
    WriteDone(fs, m, i, off, src, |src|);
    assert src[..|src|] == src;
    var r := SetSize(m, i, off + |src|);
    SizedTight(m, i, off + |src|);
    InvShape(fs);
    InvShape(r);
    TidyIs(r, i);
    AppendIs(fs, r, i, src);
  }

  lemma {:induction false} BmapSizes(s: Fs, i: nat, bn: nat)
    requires Inv(s) && i < |s.inodes| && bn < MAXFILE
    ensures var m := Bmap(s, i, bn);
      |m.inodes| == |s.inodes| && forall j: nat :: j < |s.inodes| ==> m.inodes[j].size == s.inodes[j].size
  {
    BmapKeeps(s, i, bn);
  }

  lemma {:induction false} SizedTight(m: Fs, i: nat, n: nat)
    requires Inv(m) && i < |m.inodes| && n <= MAXFILE * BSIZE && AllTight(m, i, n)
    ensures Inv(SetSize(m, i, n)) && AllTight(SetSize(m, i, n), i, n)
  {
    SetSizeKeeps(m, i, n);
    var r := SetSize(m, i, n);
    forall j: nat | j < |m.inodes| ensures TightTo(r, j, if j == i then n else m.inodes[j].size) {
      assert TightTo(m, j, if j == i then n else m.inodes[j].size);
    }
  }

  /** The blocks of the files after the copy of one turn of iappend. */
  lemma {:induction false} CopyTight(s: Fs, m: Fs, i: nat, at: nat, k: nat, b: nat, blk: Block)
    requires Inv(s) && Inv(m) && i < |s.inodes| == |m.inodes| && at < MAXFILE * BSIZE && 0 < k
    requires at % BSIZE + k <= BSIZE
    requires AllTight(s, i, at) && m == Bmap(s, i, at / BSIZE)
    requires b == Lookup(m, i, DataRef(at / BSIZE)) != 0 && b < |m.blocks| && |blk.bytes| == BSIZE
    ensures Shape(PutBlock(m, b, blk)) && AllTight(PutBlock(m, b, blk), i, at + k)
  {
    CopyLookups(m, i, at / BSIZE, blk);
    BmapSizes(s, i, at / BSIZE);
    hide Inv, Lookup, Bmap, AllTight;
    TurnTight(s, m, PutBlock(m, b, blk), i, at, k);
  }

  lemma {:induction false} CopyLookups(m: Fs, i: nat, bn: nat, blk: Block)
    requires Inv(m) && i < |m.inodes| && |blk.bytes| == BSIZE && Lookup(m, i, DataRef(bn)) != 0
    ensures var r := PutBlock(m, Lookup(m, i, DataRef(bn)), blk);
      Shape(r) && forall j: nat, q :: j < |m.inodes| ==> Lookup(r, j, q) == Lookup(m, j, q)
  {
    PutBlockKeeps(m, i, bn, blk);
  }

  /** The kernel starts on what mkfs built: the same files, every block owned once. */
  method Mount(image: Image) returns (fs: FileSystem)
    requires image.Valid()
    ensures fresh(fs) && fs.Valid() && fs.State() == image.State()
    ensures fs.nmeta == NMETA && fs.size == FSSIZE && fs.inodestart == INODESTART && fs.bmapstart == BMAPSTART
  {
    var bitmap := image.Finish();
    fs := new FileSystem(NMETA, FSSIZE, INODESTART, BMAPSTART, bitmap, image.blocks, image.inodes);
  }

  /** The entries of a directory, one after the other. */
  function Flat(entries: seq<seq<Byte>>): seq<Byte> {
    if entries == [] then [] else Flat(entries[..|entries| - 1]) + entries[|entries| - 1]
  }

  lemma {:induction false} FlatSize(entries: seq<seq<Byte>>)
    requires forall k :: 0 <= k < |entries| ==> |entries[k]| == DIRENT
    ensures |Flat(entries)| == DIRENT * |entries|
  {
    if entries != [] {
      FlatSize(entries[..|entries| - 1]);
    }
  }

  lemma {:induction false} FlatMore(entries: seq<seq<Byte>>, k: nat)
    requires k < |entries|
    ensures Flat(entries[..k + 1]) == Flat(entries[..k]) + entries[k]
  {
    assert entries[..k + 1][..k] == entries[..k];
  }

  /** The loop of main that reads one file, a block at a time. */
  method AddFile(image: Image, inum: nat, data: seq<Byte>) returns (ok: bool)
    requires image.Valid() && Tidy(image.State()) && inum < NINODES && Content(image.State(), inum) == []
    modifies image
    ensures image.Valid()
    ensures ok ==> Tidy(image.State()) && Content(image.State(), inum) == data
    ensures ok ==> forall j: nat :: j < NINODES && j != inum ==>
      Content(image.State(), j) == old(Content(image.State(), j))
    ensures !ok ==> |data| > MAXFILE * BSIZE || image.freeblock == FSSIZE
  {
    image.ValidInv();
    hide Inv, Tidy, Below;
    var at := 0;
    while at < |data|
      invariant image.Valid() && Tidy(image.State()) && at <= |data| && Content(image.State(), inum) == data[..at]
      invariant forall j: nat :: j < NINODES && j != inum ==>
        Content(image.State(), j) == old(Content(image.State(), j))
    {
      image.ValidInv();
      var n := if BSIZE < |data| - at then BSIZE else |data| - at;
      ok := image.Iappend(inum, data[at..at + n]);
      if !ok {
        return;
      }
      assert data[..at] + data[at..at + n] == data[..at + n];
      at := at + n;
    }
    assert data[..at] == data;
    return true;
  }

  /** The directory entries, two for the root and one for each file, fit the inode table. */
  predicate Listing(entries: seq<seq<Byte>>, files: seq<seq<Byte>>) {
    && |entries| == |files| + 2 <= NINODES
    && forall k :: 0 <= k < |entries| ==> |entries[k]| == DIRENT
  }

  /** The first `n` entries are in the root directory, and inodes from 2 on hold the first `k` files. */
  ghost predicate Built(fs: Fs, entries: seq<seq<Byte>>, files: seq<seq<Byte>>, n: nat, k: nat)
    requires n <= |entries| && k <= |files|
  {
    && Shape(fs) && |fs.inodes| == NINODES && Content(fs, ROOTINO) == Flat(entries[..n])
    && forall j: nat :: 2 <= j < NINODES ==> Content(fs, j) == if j < 2 + k then files[j - 2] else []
  }

  /** A step does not work out: the image is full, or a file is longer than the largest file. */
  ghost predicate Dies(image: Image, files: seq<seq<Byte>>)
    reads image
  {
    image.freeblock == FSSIZE || exists k :: 0 <= k < |files| && |files[k]| > MAXFILE * BSIZE
  }

  /** The root directory gets one more entry. */
  method AddEntry(image: Image, entries: seq<seq<Byte>>, files: seq<seq<Byte>>, n: nat, ghost k: nat) returns (ok: bool)
    requires Listing(entries, files) && n < |entries| && k <= |files|
    requires image.Valid() && Tidy(image.State()) && Built(image.State(), entries, files, n, k)
    modifies image
    ensures image.Valid()
    ensures ok ==> Tidy(image.State()) && Built(image.State(), entries, files, n + 1, k)
    ensures !ok ==> image.freeblock == FSSIZE
  {
    image.ValidInv();
    hide Inv, Tidy, Below;
    FlatSize(entries[..n]);
    FlatMore(entries, n);
    ok := image.Iappend(ROOTINO, entries[n]);
    image.ValidInv();
  }

  /** One file: its entry, then its contents. */
  method AddOne(image: Image, entries: seq<seq<Byte>>, files: seq<seq<Byte>>, k: nat) returns (ok: bool)
    requires Listing(entries, files) && k < |files|
    requires image.Valid() && Tidy(image.State()) && Built(image.State(), entries, files, k + 2, k)
    modifies image
    ensures image.Valid()
    ensures ok ==> Tidy(image.State()) && Built(image.State(), entries, files, k + 3, k + 1)
    ensures !ok ==> Dies(image, files)
  {
    hide Inv, Tidy, Below, Flat;
    ok := AddEntry(image, entries, files, k + 2, k);
    if ok {
      ok := AddFile(image, 2 + k, files[k]);
      image.ValidInv();
    }
  }

  /**
   main: every file given is in the image with its contents, the root directory
   starts with all the entries, and a file has a hole exactly when it is the root
   directory and its entries fill their last block.
   */
  method Build(entries: seq<seq<Byte>>, files: seq<seq<Byte>>) returns (image: Image, ok: bool)
    requires Listing(entries, files)
    ensures fresh(image) && image.Valid()
    ensures ok ==> forall j: nat :: j < NINODES ==> image.inodes[j].size <= MAXFILE * BSIZE
    ensures ok ==> Flat(entries) <= Content(image.State(), ROOTINO)
    ensures ok ==> forall j: nat :: 2 <= j < NINODES ==>
      Content(image.State(), j) == if j < 2 + |files| then files[j - 2] else []
    ensures ok ==> forall j: nat :: j < NINODES ==>
      (NoHoles(image.State(), j) <==> j != ROOTINO || DIRENT * |entries| % BSIZE != 0)
    ensures !ok ==> Dies(image, files)
  {
    image := new Image();
    BlankBuilt(entries, files);
    hide Inv, Tidy, Below, Flat, Blank;
    ok := AddEntry(image, entries, files, 0, 0);
    if ok {
      ok := AddEntry(image, entries, files, 1, 0);
    }
    if !ok {
      return;
    }
    var k := 0;
    while k < |files|
      invariant k <= |files| && image.Valid() && Tidy(image.State()) && Built(image.State(), entries, files, k + 2, k)
    {
      ok := AddOne(image, entries, files, k);
      if !ok {
        return;
      }
      k := k + 1;
    }
    assert entries[..k + 2] == entries;
    FlatSize(entries);
    image.FixRootSize();
  }

  lemma {:induction false} BlankBuilt(entries: seq<seq<Byte>>, files: seq<seq<Byte>>)
    ensures Built(Blank(), entries, files, 0, 0)
  {
    BlankInv();
  }

  /** From the files to a running kernel: it finds them all, and no file has a hole unless the root has one. */
  method Boot(entries: seq<seq<Byte>>, files: seq<seq<Byte>>) returns (fs: FileSystem?, ghost image: Image)
    requires Listing(entries, files)
    ensures fs != null ==> fresh(fs) && fs.Valid() && |fs.inodes| == NINODES
    ensures fs != null ==> forall j: nat :: 2 <= j < 2 + |files| ==> Content(fs.State(), j) == files[j - 2]
    ensures fs != null ==> (Whole(fs.State()) <==> DIRENT * |entries| % BSIZE != 0)
    ensures fs == null ==> Dies(image, files)
  {
    var built, ok := Build(entries, files);
    image := built;
    if !ok {
      return null, built;
    }
    image.ValidInv();
    fs := Mount(built);
    WholeIs(fs.State(), DIRENT * |entries| % BSIZE != 0);
  }

  lemma {:induction false} WholeIs(fs: Fs, c: bool)
    requires Shape(fs) && |fs.inodes| == NINODES
    requires forall j: nat :: j < NINODES ==> (NoHoles(fs, j) <==> j != ROOTINO || c)
    ensures Whole(fs) <==> c
  {
    assert NoHoles(fs, ROOTINO) <==> c;
  }
}
