/**
 The on-disk format of `kernel/fs.h`: how a superblock, inode blocks, bitmap blocks
 and data blocks are read as a file system, and how the kernel's buffers are filled.
 */
module FsImage {
  import opened Common
  import opened FileBlocks
  import Wal

  /** 32-bit words in one on-disk inode: two of type and link count, the size, the addresses. */
  const IWORDS: nat := 16

  // ---------------------------------------------------------------- reading

  /** The k-th uint of a sector. */
  function WordAt(s: Wal.Sector, k: nat): (w: nat)
    ensures w <= UINT_MAX
  {
    if k < |s.words| then s.words[k] % 0x1_0000_0000 else 0
  }

  function ByteOfWord(w: nat, k: nat): Byte {
    if k == 0 then w % 0x100
    else if k == 1 then w / 0x100 % 0x100
    else if k == 2 then w / 0x1_0000 % 0x100
    else w / 0x100_0000 % 0x100
  }

  /** The k-th byte of a sector. */
  function ByteOf(s: Wal.Sector, k: nat): Byte {
    ByteOfWord(WordAt(s, k / 4), k % 4)
  }

  function BytesOf(s: Wal.Sector): Block {
    Block(seq(BSIZE, k requires 0 <= k => ByteOf(s, k)))
  }

  predicate BitOfByte(x: nat, k: nat) {
    if k == 0 then x % 2 == 1 else BitOfByte(x / 2, k - 1)
  }

  /** The k-th bit of a sector, as balloc counts them. */
  predicate BitOf(s: Wal.Sector, k: nat) {
    BitOfByte(ByteOf(s, k / 8), k % 8)
  }

  /** The k-th inode of a sector. */
  function InodeOf(s: Wal.Sector, k: nat): Inode {
    Inode(seq<nat>(NDIRECT + 1, (j: nat) => WordAt(s, IWORDS * k + 3 + j)), WordAt(s, IWORDS * k + 2))
  }

  datatype Super = Super(size: nat, ninodes: nat, logstart: nat, inodestart: nat, bmapstart: nat)

  function SuperOf(s: Wal.Sector): Super {
    Super(WordAt(s, 1), WordAt(s, 3), WordAt(s, 5), WordAt(s, 6), WordAt(s, 7))
  }

  /** The blocks before the data blocks. */
  function Nmeta(sb: Super): nat { sb.bmapstart + sb.size / BPB + 1 }

  /** Boot block, superblock, log, inodes, bitmap and data follow one another. */
  predicate SuperOk(sb: Super) {
    && 2 <= sb.logstart && sb.logstart + LOGBLOCKS < sb.inodestart
    && sb.inodestart + sb.ninodes / IPB + 1 <= sb.bmapstart && Nmeta(sb) <= sb.size <= UINT_MAX
    && sb.ninodes <= UINT_MAX
  }

  function At(image: Wal.Image, b: int): Wal.Sector {
    if b in image then image[b] else Wal.Sector([])
  }

  /** The file system found on a disk. What lies in the metadata blocks is not file data. */
  function Reading(image: Wal.Image): Fs {
    var sb := SuperOf(At(image, 1));
    Fs(Nmeta(sb),
       seq(sb.size, b requires 0 <= b => BitOf(At(image, b / BPB + sb.bmapstart), b % BPB)),
       seq(sb.size, b => if b < Nmeta(sb) then ZeroBlock() else BytesOf(At(image, b))),
       seq(sb.ninodes, i requires 0 <= i => InodeOf(At(image, i / IPB + sb.inodestart), i % IPB)))
  }

  // ---------------------------------------------------------------- one block at a time

  /** Block `b` of a disk laid out as `sb`, holding `s`, says of its part of the file system what `fs` does. */
  ghost predicate Agrees(sb: Super, fs: Fs, b: nat, s: Wal.Sector) {
    && (b == 1 ==> SuperOf(s) == sb)
    && (forall c: nat :: c < |fs.used| && c / BPB + sb.bmapstart == b ==> BitOf(s, c % BPB) == fs.used[c])
    && (forall i: nat :: i < |fs.inodes| && i / IPB + sb.inodestart == b ==> InodeOf(s, i % IPB) == fs.inodes[i])
    && (fs.nmeta <= b < |fs.blocks| ==> BytesOf(s) == fs.blocks[b])
  }

  /** `fs` has the dimensions of a disk laid out as `sb`. */
  ghost predicate Laid(sb: Super, fs: Fs) {
    && SuperOk(sb) && fs.nmeta == Nmeta(sb) && |fs.used| == |fs.blocks| == sb.size && |fs.inodes| == sb.ninodes
    && forall b :: 0 <= b < fs.nmeta ==> fs.blocks[b] == ZeroBlock()
  }

  ghost predicate Home(sb: Super, b: nat) {
    b < sb.size && !(sb.logstart <= b <= sb.logstart + LOGBLOCKS)
  }

  lemma {:induction false} PlaceHome(sb: Super)
    requires SuperOk(sb)
    ensures Home(sb, 1)
    ensures forall c: nat :: c < sb.size ==> Home(sb, c / BPB + sb.bmapstart)
    ensures forall i: nat :: i < sb.ninodes ==> Home(sb, i / IPB + sb.inodestart)
    ensures forall b: nat :: Nmeta(sb) <= b < sb.size ==> Home(sb, b)
  {
    forall c: nat | c < sb.size ensures Home(sb, c / BPB + sb.bmapstart) {
      assert c / BPB <= sb.size / BPB;
    }
    forall i: nat | i < sb.ninodes ensures Home(sb, i / IPB + sb.inodestart) {
      assert i / IPB <= sb.ninodes / IPB;
    }
  }

  /** A disk whose home blocks all agree with `fs` reads as `fs`. */
  lemma {:induction false} ReadingIs(sb: Super, fs: Fs, image: Wal.Image)
    requires Laid(sb, fs) && forall b: nat :: Home(sb, b) ==> Agrees(sb, fs, b, At(image, b))
    ensures Reading(image) == fs
  {
    hide SuperOf, BitOf, InodeOf, BytesOf, SuperOk, ZeroBlock, Home;
    PlaceHome(sb);
    assert Agrees(sb, fs, 1, At(image, 1));
    var r := Reading(image);
    forall c: nat | c < sb.size ensures r.used[c] == fs.used[c] {
      assert Agrees(sb, fs, c / BPB + sb.bmapstart, At(image, c / BPB + sb.bmapstart));
    }
    forall b: nat | b < sb.size ensures r.blocks[b] == fs.blocks[b] {
      if b >= Nmeta(sb) {
        assert Agrees(sb, fs, b, At(image, b));
      }
    }
    forall i: nat | i < sb.ninodes ensures r.inodes[i] == fs.inodes[i] {
      assert Agrees(sb, fs, i / IPB + sb.inodestart, At(image, i / IPB + sb.inodestart));
    }
    assert r.used == fs.used && r.blocks == fs.blocks && r.inodes == fs.inodes;
  }

  /** And a disk agrees, block by block, with what it reads as. */
  lemma {:induction false} ReadingAgrees(image: Wal.Image)
    requires SuperOk(SuperOf(At(image, 1)))
    ensures Laid(SuperOf(At(image, 1)), Reading(image))
    ensures forall b: nat :: Agrees(SuperOf(At(image, 1)), Reading(image), b, At(image, b))
  {
    hide SuperOf, BitOf, InodeOf, BytesOf, ZeroBlock;
  }

  /** A change covered by `dirty` leaves the other blocks as they are to be. */
  lemma {:induction false} CoveredAgrees(sb: Super, fs: Fs, fs': Fs, dirty: set<nat>)
    requires Laid(sb, fs) && Covered(fs, fs', sb.inodestart, sb.bmapstart, dirty)
    ensures Laid(sb, fs')
    ensures forall b: nat, s :: b !in dirty && Agrees(sb, fs, b, s) ==> Agrees(sb, fs', b, s)
  {
    hide SuperOf, BitOf, InodeOf, BytesOf, ZeroBlock;
  }

  // ---------------------------------------------------------------- filling buffers

  /** A block of bytes as a sector. */
  function Packed(blk: Block): (s: Wal.Sector)
    requires |blk.bytes| == BSIZE
    ensures |s.words| == Wal.WORDS
  {
    Wal.Sector(seq(Wal.WORDS, k requires 0 <= k < NINDIRECT => Word(blk, k)))
  }

  lemma {:induction false} WordBytes(b0: Byte, b1: Byte, b2: Byte, b3: Byte)
    ensures var w: nat := b0 as nat + 0x100 * b1 as nat + 0x1_0000 * b2 as nat + 0x100_0000 * b3 as nat;
      && w <= UINT_MAX && ByteOfWord(w, 0) == b0 && ByteOfWord(w, 1) == b1
      && ByteOfWord(w, 2) == b2 && ByteOfWord(w, 3) == b3
  {
    var w: nat := b0 as nat + 0x100 * b1 as nat + 0x1_0000 * b2 as nat + 0x100_0000 * b3 as nat;
    assert w / 0x100 == b1 as nat + 0x100 * b2 as nat + 0x1_0000 * b3 as nat;
    assert w / 0x1_0000 == b2 as nat + 0x100 * b3 as nat;
  }

  lemma {:induction false} PackedByte(blk: Block, k: nat)
    requires |blk.bytes| == BSIZE && k < BSIZE
    ensures ByteOf(Packed(blk), k) == blk.bytes[k]
  {
    hide ByteOfWord;
    var q := k / 4;
    assert k == 4 * q + k % 4 && Packed(blk).words[q] == Word(blk, q);
    WordBytes(blk.bytes[4 * q], blk.bytes[4 * q + 1], blk.bytes[4 * q + 2], blk.bytes[4 * q + 3]);
  }

  lemma {:induction false} PackedBytes(blk: Block)
    requires |blk.bytes| == BSIZE
    ensures BytesOf(Packed(blk)) == blk
  {
    hide ByteOf, Packed;
    var r := BytesOf(Packed(blk)).bytes;
    forall k: nat | k < BSIZE ensures r[k] == blk.bytes[k] {
      PackedByte(blk, k);
    }
    assert r == blk.bytes;
  }

  function Pow2(n: nat): nat { if n == 0 then 1 else 2 * Pow2(n - 1) }

  /** `n` flags as a number, the first one lowest; those past the end are clear. */
  function PackedBits(used: seq<bool>, at: nat, n: nat): (x: nat)
    ensures x < Pow2(n)
    decreases n
  {
    if n == 0 then 0 else (if at < |used| && used[at] then 1 else 0) + 2 * PackedBits(used, at + 1, n - 1)
  }

  lemma {:induction false} PackedBit(used: seq<bool>, at: nat, n: nat, k: nat)
    requires k < n && at + k < |used|
    ensures BitOfByte(PackedBits(used, at, n), k) == used[at + k]
    decreases n
  {
    if k > 0 {
      PackedBit(used, at + 1, n - 1, k - 1);
    }
  }

  function EightBits(used: seq<bool>, at: nat): Byte {
    assert Pow2(4) == 16;
    assert Pow2(8) == 0x100;
    PackedBits(used, at, 8)
  }

  function BitBlock(used: seq<bool>, at: nat): (blk: Block)
    ensures |blk.bytes| == BSIZE
  {
    Block(seq(BSIZE, (k: nat) => EightBits(used, at + 8 * k)))
  }

  lemma {:induction false} BitBlockBits(used: seq<bool>, at: nat, k: nat)
    requires k < BPB && at + k < |used|
    ensures BitOf(Packed(BitBlock(used, at)), k) == used[at + k]
  {
    hide PackedBits, BitOfByte, Packed, ByteOf, EightBits;
    assert k == 8 * (k / 8) + k % 8 && k / 8 < BSIZE;
    PackedByte(BitBlock(used, at), k / 8);
    ByteBit(used, at + 8 * (k / 8), k % 8);
  }

  lemma {:induction false} ByteBit(used: seq<bool>, at: nat, k: nat)
    requires k < 8 && at + k < |used|
    ensures BitOfByte(EightBits(used, at), k) == used[at + k]
  {
    hide PackedBits, BitOfByte;
    PackedBit(used, at, 8, k);
  }

  /** A sector with the inodes from number `first` on copied in, as iupdate does. */
  function InodeSector(inodes: seq<Inode>, first: nat, was: Wal.Sector): (s: Wal.Sector)
    ensures |s.words| == Wal.WORDS
  {
    Wal.Sector(seq(Wal.WORDS, k requires 0 <= k => InodeWord(inodes, first + k / IWORDS, k % IWORDS, WordAt(was, k))))
  }

  function InodeWord(inodes: seq<Inode>, i: nat, k: nat, was: nat): nat {
    if i >= |inodes| || k < 2 then was
    else if k == 2 then inodes[i].size
    else if k - 3 < |inodes[i].addrs| then inodes[i].addrs[k - 3]
    else was
  }

  /** The numbers in an inode fit their fields. */
  ghost predicate Fits(n: Inode) {
    |n.addrs| == NDIRECT + 1 && n.size <= UINT_MAX && forall k :: 0 <= k <= NDIRECT ==> n.addrs[k] <= UINT_MAX
  }

  lemma {:induction false} InodeSectorWord(inodes: seq<Inode>, first: nat, was: Wal.Sector, k: nat, j: nat)
    requires k < IPB && first + k < |inodes| && Fits(inodes[first + k]) && 2 <= j < IWORDS
    ensures var n := inodes[first + k];
      WordAt(InodeSector(inodes, first, was), IWORDS * k + j) == if j == 2 then n.size else n.addrs[j - 3]
  {
    var s := InodeSector(inodes, first, was);
    assert (IWORDS * k + j) / IWORDS == k && (IWORDS * k + j) % IWORDS == j;
    assert s.words[IWORDS * k + j] == InodeWord(inodes, first + k, j, WordAt(was, IWORDS * k + j));
  }

  lemma {:induction false} InodeSectorInode(inodes: seq<Inode>, first: nat, was: Wal.Sector, k: nat)
    requires k < IPB && first + k < |inodes| && Fits(inodes[first + k])
    ensures InodeOf(InodeSector(inodes, first, was), k) == inodes[first + k]
  {
    hide WordAt, InodeSector;
    var s, n := InodeSector(inodes, first, was), inodes[first + k];
    InodeSectorWord(inodes, first, was, k, 2);
    forall j: nat | j <= NDIRECT ensures InodeOf(s, k).addrs[j] == n.addrs[j] {
      InodeSectorWord(inodes, first, was, k, 3 + j);
      assert IWORDS * k + (3 + j) == IWORDS * k + 3 + j;
    }
    assert InodeOf(s, k).addrs == n.addrs;
  }

  /** What the kernel's buffer for block `b` holds when the file system in memory is `fs`. */
  function Filled(sb: Super, fs: Fs, b: nat, was: Wal.Sector): Wal.Sector {
    if sb.inodestart <= b < sb.bmapstart then InodeSector(fs.inodes, (b - sb.inodestart) * IPB, was)
    else if sb.bmapstart <= b < Nmeta(sb) then Packed(BitBlock(fs.used, (b - sb.bmapstart) * BPB))
    else if Nmeta(sb) <= b < |fs.blocks| && |fs.blocks[b].bytes| == BSIZE then Packed(fs.blocks[b])
    else was
  }

  /** Every number of the file system fits its field on disk. */
  ghost predicate Storable(fs: Fs) {
    && (forall b :: 0 <= b < |fs.blocks| ==> |fs.blocks[b].bytes| == BSIZE)
    && (forall i :: 0 <= i < |fs.inodes| ==> Fits(fs.inodes[i]))
  }

  lemma {:induction false} FilledBit(sb: Super, fs: Fs, b: nat, was: Wal.Sector, c: nat)
    requires SuperOk(sb) && |fs.used| == sb.size && c < |fs.used| && c / BPB + sb.bmapstart == b
    ensures BitOf(Filled(sb, fs, b, was), c % BPB) == fs.used[c]
  {
    hide BitOf, InodeSector, BitBlock, Packed;
    assert c / BPB <= sb.size / BPB;
    assert c == (b - sb.bmapstart) * BPB + c % BPB;
    BitBlockBits(fs.used, (b - sb.bmapstart) * BPB, c % BPB);
  }

  lemma {:induction false} FilledInode(sb: Super, fs: Fs, b: nat, was: Wal.Sector, i: nat)
    requires SuperOk(sb) && |fs.inodes| == sb.ninodes && i < |fs.inodes| && i / IPB + sb.inodestart == b
    requires Fits(fs.inodes[i])
    ensures InodeOf(Filled(sb, fs, b, was), i % IPB) == fs.inodes[i]
  {
    hide InodeOf, InodeSector, BitBlock, Packed, Fits;
    assert i / IPB <= sb.ninodes / IPB;
    assert i == (b - sb.inodestart) * IPB + i % IPB;
    InodeSectorInode(fs.inodes, (b - sb.inodestart) * IPB, was, i % IPB);
  }

  lemma {:induction false} FilledElse(sb: Super, fs: Fs, b: nat, was: Wal.Sector)
    requires Laid(sb, fs) && Storable(fs)
    ensures b == 1 ==> Filled(sb, fs, b, was) == was
    ensures fs.nmeta <= b < |fs.blocks| ==> BytesOf(Filled(sb, fs, b, was)) == fs.blocks[b]
  {
    hide BytesOf, ZeroBlock, InodeSector, BitBlock, Packed, Fits;
    if fs.nmeta <= b < |fs.blocks| {
      PackedBytes(fs.blocks[b]);
    }
  }

  /** The buffers agree with the file system in memory. */
  lemma {:induction false} FilledAgrees(sb: Super, fs: Fs, b: nat, was: Wal.Sector)
    requires Laid(sb, fs) && Storable(fs) && (b == 1 ==> SuperOf(was) == sb)
    ensures Agrees(sb, fs, b, Filled(sb, fs, b, was))
  {
    hide SuperOf, BitOf, InodeOf, BytesOf, ZeroBlock, Filled, Fits, SuperOk;
    FilledElse(sb, fs, b, was);
    forall c: nat | c < |fs.used| && c / BPB + sb.bmapstart == b
      ensures BitOf(Filled(sb, fs, b, was), c % BPB) == fs.used[c]
    {
      FilledBit(sb, fs, b, was, c);
    }
    forall i: nat | i < |fs.inodes| && i / IPB + sb.inodestart == b
      ensures InodeOf(Filled(sb, fs, b, was), i % IPB) == fs.inodes[i]
    {
      FilledInode(sb, fs, b, was, i);
    }
  }

  /** A superblock. */
  function SuperSector(sb: Super): Wal.Sector {
    Wal.Sector([0x1020_3040, sb.size, 0, sb.ninodes, LOGBLOCKS + 1, sb.logstart, sb.inodestart, sb.bmapstart])
  }

  /** A disk with `fs` on it. */
  function Stored(sb: Super, fs: Fs): Wal.Image {
    map b: nat | b < sb.size :: if b == 1 then SuperSector(sb) else Filled(sb, fs, b, Wal.Sector([]))
  }

  lemma {:induction false} SuperReads(sb: Super)
    requires SuperOk(sb)
    ensures SuperOf(SuperSector(sb)) == sb
  {
    hide WordAt;
    var s := SuperSector(sb);
    WordIs(s, 1);
    WordIs(s, 3);
    WordIs(s, 5);
    WordIs(s, 6);
    WordIs(s, 7);
  }

  lemma {:induction false} WordIs(s: Wal.Sector, k: nat)
    requires k < |s.words| && 0 <= s.words[k] <= UINT_MAX
    ensures WordAt(s, k) == s.words[k]
  {
  }

  lemma {:induction false} StoredAgrees(sb: Super, fs: Fs, b: nat)
    requires Laid(sb, fs) && Storable(fs) && Home(sb, b)
    ensures Agrees(sb, fs, b, At(Stored(sb, fs), b))
  {
    hide SuperOf, SuperOk, SuperSector, ZeroBlock, Filled, Storable, Agrees;
    SuperReads(sb);
    var was := if b == 1 then SuperSector(sb) else Wal.Sector([]);
    FilledAgrees(sb, fs, b, was);
    FilledElse(sb, fs, b, was);
  }

  /** Storing and reading back. */
  lemma {:induction false} StoredReads(sb: Super, fs: Fs)
    requires Laid(sb, fs) && Storable(fs)
    ensures Reading(Stored(sb, fs)) == fs
  {
    hide SuperOf, SuperOk, Reading, Nmeta, SuperSector, ZeroBlock, Filled, Storable, Agrees;
    var image := Stored(sb, fs);
    forall b: nat | Home(sb, b) ensures Agrees(sb, fs, b, At(image, b)) {
      StoredAgrees(sb, fs, b);
    }
    ReadingIs(sb, fs, image);
  }
}
