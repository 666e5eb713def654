/**
 File-system calls inside transactions, with the code of `kernel/fs.c` and
 `kernel/log.c` on both sides: begin_op, the call, log_write of the blocks it
 changed, end_op.
 */
module KernelCode {
  import opened Common
  import opened FileBlocks
  import opened FsImage
  import opened CrashFiles
  import opened FileCode
  import opened LogCode
  import Mkfs
  import Wal

  /** The sizes of files fit their fields. */
  ghost predicate Sized(fs: Fs) {
    forall i :: 0 <= i < |fs.inodes| ==> fs.inodes[i].size <= UINT_MAX
  }

  lemma {:induction false} SizedStorable(fs: Fs)
    requires Inv(fs) && Sized(fs)
    ensures Storable(fs)
  {
    hide RefsDistinct, NoLeaks;
    forall i: nat | i < |fs.inodes| ensures Fits(fs.inodes[i]) {
      forall k | 0 <= k <= NDIRECT ensures fs.inodes[i].addrs[k] <= UINT_MAX {
        assert fs.inodes[i].addrs[k] == Lookup(fs, i, if k < NDIRECT then Direct(k) else Indirect);
      }
    }
  }

  class Kernel {
    const sb: Super
    const fs: FileSystem
    const log: Log

    constructor (sb: Super, fs: FileSystem, log: Log)
      ensures this.sb == sb && this.fs == fs && this.log == log
    {
      this.sb, this.fs, this.log := sb, fs, log;
    }

    /** The log side of the disk. */
    ghost predicate Logging()
      reads this, log
    {
      log.Valid() && log.start == sb.logstart && |log.origin.disk| == sb.size && Wal.Shape(log.now)
    }

    /** The file system in memory is laid out for the same disk. */
    ghost predicate Fitted()
      reads this, fs
    {
      && fs.Valid() && Laid(sb, fs.State()) && Sized(fs.State()) && fs.nmeta == Nmeta(sb) && fs.size == sb.size
      && fs.inodestart == sb.inodestart && fs.bmapstart == sb.bmapstart
    }

    /** Nothing is open, and every block of the disk is as in memory. */
    ghost predicate Mounted()
      reads this, fs, log
    {
      && Fitted() && Logging() && Wal.Fresh(log.now) && log.sleepers == {}
      && Synced(sb, fs.State(), Wal.Current(log.now), [])
    }

    /** One operation is open, and owes the log the blocks in `owed` of the file system `m`. */
    ghost predicate Open(m: Fs, owed: set<nat>)
      reads this, log
    {
      && Logging() && log.now.ops == [|log.lh|] && |log.lh| + |owed| <= MAXOPBLOCKS
      && (forall b :: b in owed ==> Home(sb, b) && b != 1) && Synced(sb, m, Wal.Current(log.now), [owed])
    }

    /** A mounted disk reads as the file system in memory, also after a crash. */
    lemma {:induction false} MountedReads()
      requires Mounted()
      ensures Wal.Shape(log.now) && Reading(Wal.Durable(log.now)) == fs.State() && Inv(fs.State())
    {
      hide Laid, Synced, Reading, Inv, Sized, Wal.Durable, Wal.Current, Wal.Inv, Wal.Shape;
      Wal.FreshIsDurable(log.now);
      SyncedReads(sb, fs.State(), Wal.Current(log.now));
    }

    /** A mounted disk is where the runs of the file system over the log start. */
    lemma {:induction false} MountedStarts()
      requires Mounted()
      ensures Start(sb, World(log.now, fs.State(), fs.State(), []))
    {
      hide Laid, Synced, Reading, Inv, Sized, SuperOf, Wal.Durable, Wal.Current, Wal.Inv, Wal.Shape, Wal.Exec;
      MountedReads();
      log.SameSize();
      Wal.FreshIsDurable(log.now);
      SuperSynced(sb, fs.State(), Wal.Durable(log.now));
    }

    lemma {:induction false} OpenFacts(m: Fs, owed: set<nat>)
      requires Open(m, owed)
      ensures log.Valid() && Wal.Shape(log.now) && log.now.ops == [|log.lh|] && log.outstanding == 1
      ensures |log.lh| + |owed| <= MAXOPBLOCKS < LOGBLOCKS && |log.disk| == sb.size && log.start == sb.logstart
      ensures forall b :: b in owed ==> b != 1 && 0 <= b < |log.disk| && Wal.IsHome(log.start, |log.disk|, b)
      ensures Synced(sb, m, Wal.Current(log.now), [owed])
    {
      hide Synced, Wal.Inv, Wal.Shape, Wal.Current, Wal.Exec;
      log.SameSize();
    }

    lemma {:induction false} OpenIs(m: Fs, owed: set<nat>)
      requires log.Valid() && log.start == sb.logstart && |log.origin.disk| == sb.size && Wal.Shape(log.now)
      requires log.now.ops == [|log.lh|] && |log.lh| + |owed| <= MAXOPBLOCKS
      requires forall b :: b in owed ==> Home(sb, b) && b != 1
      requires Synced(sb, m, Wal.Current(log.now), [owed])
      ensures Open(m, owed)
    {
    }

    /** begin_op, when nothing else is open. */
    method Begin()
      requires Mounted()
      modifies log
      ensures Fitted() && Open(fs.State(), {}) && log.lh == []
      ensures Wal.Durable(log.now) == old(Wal.Durable(log.now))
    {
      hide Laid, Synced, Inv, Sized, Wal.Durable, Wal.Current, Wal.Inv, Wal.Shape, Log.Valid, Wal.Admits;
      log.ValidFacts();
      FreshAdmits(log.now);
      ghost var owed: seq<set<nat>> := [];
      SyncedMore(sb, fs.State(), Wal.Current(log.now), owed);
      assert owed + [{}] == [{}];
      var _ := log.BeginOp(0);
      log.SameSize();
    }

    /** log_write of one block. */
    method LogBlock(b: nat, ghost owed: set<nat>)
      requires Fitted() && Open(fs.State(), owed) && b in owed
      modifies log
      ensures Fitted() && Open(fs.State(), owed - {b}) && Wal.Durable(log.now) == old(Wal.Durable(log.now))
    {
      hide *;
      FittedFacts();
      OpenFacts(fs.State(), owed);
      OpenRest(fs.State(), owed, b);
      var was := log.Bread(b);
      var v := Filled(sb, fs.State(), b, was);
      FilledAgrees(sb, fs.State(), b, was);
      SyncedPut(sb, fs.State(), Wal.Current(log.now), [owed], 0, b, v);
      assert [owed][0 := owed - {b}] == [owed - {b}];
      var _ := log.LogWrite(0, b, v);
      log.SameSize();
      OpenIs(fs.State(), owed - {b});
    }

    /** end_op: the only open operation commits. */
    method End()
      requires Fitted() && Open(fs.State(), {})
      modifies log
      ensures Mounted() && Wal.Durable(log.now) == old(Wal.Current(log.now))
    {
      hide *;
      FittedFacts();
      ghost var m := fs.State();
      OpenFacts(m, {});
      OpenStays(m);
      SyncedLess(sb, m, Wal.Current(log.now), [{}], 0);
      NoneOwed();
      log.EndOp(0);
      log.SameSize();
      MountedIs();
    }

    lemma {:induction false} MountedIs()
      requires Fitted() && log.Valid() && Wal.Shape(log.now) && log.start == sb.logstart && |log.origin.disk| == sb.size
      requires Wal.Fresh(log.now) && log.sleepers == {} && Synced(sb, fs.State(), Wal.Current(log.now), [])
      ensures Mounted()
    {
    }

    /** The blocks a call has changed go to the log, one by one, and the operation commits. */
    method Settle(ghost m: Fs)
      requires fs.Valid() && Sized(fs.State()) && Open(m, {}) && log.lh == [] && Laid(sb, m)
      requires fs.nmeta == Nmeta(sb) && fs.size == sb.size
      requires fs.inodestart == sb.inodestart && fs.bmapstart == sb.bmapstart
      requires Covered(m, fs.State(), sb.inodestart, sb.bmapstart, fs.logged) && |fs.logged| <= MAXOPBLOCKS
      requires forall b :: b in fs.logged ==> Home(sb, b) && b != 1
      modifies log
      ensures Mounted()
    {
      hide *;
      fs.ValidFacts();
      OpenFacts(m, {});
      SyncedCall(sb, m, fs.State(), Wal.Current(log.now), [{}], 0, fs.logged);
      OneOwed(fs.logged);
      OpenStays(m);
      OpenIs(fs.State(), fs.logged);
      FittedIs();
      var owed := fs.logged;
      while owed != {}
        invariant Fitted() && Open(fs.State(), owed)
        decreases |owed|
      {
        var b :| b in owed;
        OpenRest(fs.State(), owed, b);
        LogBlock(b, owed);
        owed := owed - {b};
      }
      End();
    }

    lemma {:induction false} OpenStays(m: Fs)
      requires Open(m, {})
      ensures |log.origin.disk| == sb.size
    {
    }

    lemma {:induction false} FittedIs()
      requires fs.Valid() && Laid(sb, fs.State()) && Sized(fs.State()) && fs.nmeta == Nmeta(sb) && fs.size == sb.size
      requires fs.inodestart == sb.inodestart && fs.bmapstart == sb.bmapstart
      ensures Fitted()
    {
    }

    /**
     writei as one transaction: the bytes are spliced into the file, in memory and on the
     disk, and a short write means that the disk is full.
     */
    method Write(i: nat, off: nat, src: seq<Byte>) returns (ret: int)
      requires Mounted() && i < |fs.inodes| && sb.size <= BPB && Turns(off, |src|) + 4 <= MAXOPBLOCKS
      modifies fs, log
      ensures Mounted() && |fs.inodes| == |old(fs.inodes)|
      ensures ret == -1 <==> !Ranged(old(fs.State()), i, off, |src|)
      ensures ret == -1 ==> fs.State() == old(fs.State())
      ensures ret != -1 ==> 0 <= ret <= |src| && Spliced(old(fs.State()), fs.State(), i, off, src[..ret])
      ensures 0 <= ret < |src| ==> FreeBlock(fs.State().used, 0) == fs.size
      ensures old(Whole(fs.State())) ==> Whole(fs.State())
    {
      hide *;
      MountedFacts();
      Begin();
      FittedFacts();
      ghost var m := fs.State();
      fs.Clear();
      fs.NowIs();
      ghost var touched;
      ret, touched := fs.Writei(i, off, src);
      fs.ValidFacts();
      if ret == -1 {
        FittedIs();
        End();
        return;
      }
      RangedFacts(m, i, off, |src|);
      WriteSized(m, fs.State(), i, off, src, ret);
      LoggedAll(m, i);
      NoMore(fs.logged, touched);
      Settle(m);
    }

    /** itrunc as one transaction. */
    method Truncate(i: nat) returns (ok: bool)
      requires Mounted() && i < |fs.inodes| && sb.size <= BPB
      modifies fs, log
      ensures ok && Mounted() && Truncated(old(fs.State()), fs.State(), i)
      ensures old(Whole(fs.State())) ==> Whole(fs.State())
    {
      hide *;
      MountedFacts();
      Begin();
      FittedFacts();
      ghost var m := fs.State();
      fs.Clear();
      fs.NowIs();
      ok := fs.Itrunc(i);
      fs.ValidFacts();
      TruncSized(m, fs.State(), i);
      LoggedAll(m, i);
      NoMore(fs.logged, {fs.bmapstart, fs.IBlock(i)});
      TwoFit(fs.bmapstart, fs.IBlock(i));
      Settle(m);
    }

    /** One turn of the loop of filewrite. */
    method FilewriteTurn(i: nat, foff: nat, src: seq<Byte>, done: nat, n1: nat, ghost f0: Fs) returns (r: int)
      requires Mounted() && sb.size <= BPB && fs.Progress(f0, i, foff, src, done)
      requires done + n1 <= |src| && n1 <= MAXCHUNK
      modifies fs, log
      ensures Mounted() && -1 <= r <= n1 && fs.Progress(f0, i, foff, src, if r < 0 then done else done + r)
      ensures i < |fs.inodes| == |old(fs.inodes)| && (r == -1 <==> !Ranged(old(fs.State()), i, foff + done, n1))
      ensures r == -1 ==> fs.State() == old(fs.State())
      ensures 0 <= r < n1 ==> FreeBlock(fs.State().used, 0) == fs.size
    {
      hide *;
      fs.ValidInProgress(f0, i, foff, src, done);
      ghost var m := fs.State();
      ChunkFitsLog(foff + done, n1);
      r := Write(i, foff + done, src[done..done + n1]);
      MountedFacts();
      if r != -1 {
        RangedFacts(m, i, foff + done, n1);
      }
      fs.ProgressMore(f0, m, i, foff, src, done, n1, r);
    }

    /**
     filewrite with its transactions. At each of them the disk holds the file with the bytes
     of the transactions before; at the end it holds all that went in. It stops short only on
     a full disk or at a chunk that writei refuses.
     */
    method Filewrite(i: nat, foff: nat, src: seq<Byte>) returns (ret: int, newoff: nat)
      requires Mounted() && sb.size <= BPB && i < |fs.inodes|
      modifies fs, log
      ensures Mounted() && foff <= newoff <= foff + |src|
      ensures ret == if newoff == foff + |src| then |src| else -1
      ensures fs.Progress(old(fs.State()), i, foff, src, newoff - foff) && i < |fs.inodes|
      ensures newoff < foff + |src| ==> Stuck(fs.State(), i, newoff, foff + |src| - newoff)
      ensures Reading(Wal.Durable(log.now)) == fs.State()
    {
      hide *;
      MountedFacts();
      fs.NoProgress(i, foff, src);
      ghost var f0 := fs.State();
      newoff := foff;
      var done := 0;
      while done < |src|
        invariant 0 <= done <= |src| && newoff == foff + done && Mounted() && fs.Progress(f0, i, foff, src, done)
      {
        var n1 := if |src| - done > MAXCHUNK then MAXCHUNK else |src| - done;
        ChunkIs(|src| - done);
        fs.ValidInProgress(f0, i, foff, src, done);
        var r := FilewriteTurn(i, foff, src, done, n1, f0);
        fs.ValidInProgress(f0, i, foff, src, if r < 0 then done else done + r);
        if r > 0 {
          newoff := newoff + r;
        }
        if r != n1 {
          StuckHere(fs.State(), i, newoff, |src| - done, r);
          MountedReads();
          return -1, newoff;
        }
        done := done + r;
      }
      fs.ValidInProgress(f0, i, foff, src, done);
      MountedReads();
      ret := if done == |src| then |src| else -1;
    }

    lemma {:induction false} MountedFacts()
      requires Mounted()
      ensures Fitted() && fs.Valid() && fs.size <= 8 * |fs.bitmap| && fs.size == sb.size && Wal.Shape(log.now)
      ensures Shape(fs.State()) && fs.State().inodes == fs.inodes
    {
    }

    /** Every block a call on inode `i` has logged is a home block, and they cover its changes. */
    lemma {:induction false} LoggedAll(m: Fs, i: nat)
      requires fs.Valid() && fs.Since(Mark(m, {}), {fs.IBlock(i)}) && fs.IBlock(i) in fs.logged
      requires Laid(sb, m) && i < |m.inodes| && fs.nmeta == Nmeta(sb) && fs.size == sb.size
      requires fs.inodestart == sb.inodestart && fs.bmapstart == sb.bmapstart
      ensures Covered(m, fs.State(), sb.inodestart, sb.bmapstart, fs.logged)
      ensures forall b :: b in fs.logged ==> Home(sb, b) && b != 1
    {
      hide Inv, Covered, Bits, FileSystem.Since, SuperOk, Home, ZeroBlock;
      fs.SinceAll(Mark(m, {}), fs.IBlock(i));
      Areas(sb, i);
    }

    lemma {:induction false} FittedFacts()
      requires Fitted()
      ensures fs.Valid() && fs.size <= 8 * |fs.bitmap| && Laid(sb, fs.State()) && Storable(fs.State())
      ensures Sized(fs.State()) && Shape(fs.State()) && fs.State().inodes == fs.inodes
      ensures fs.nmeta == Nmeta(sb) && fs.size == sb.size
      ensures fs.inodestart == sb.inodestart && fs.bmapstart == sb.bmapstart
    {
      SizedStorable(fs.State());
    }

    lemma {:induction false} OpenRest(m: Fs, owed: set<nat>, b: nat)
      requires Open(m, owed) && b in owed
      ensures |owed - {b}| == |owed| - 1 && |log.origin.disk| == sb.size
      ensures forall x :: x in owed - {b} ==> Home(sb, x) && x != 1
    {
    }
  }

  lemma {:induction false} SuperSynced(sb: Super, fs: Fs, image: Wal.Image)
    requires Laid(sb, fs) && Synced(sb, fs, image, [])
    ensures SuperOk(sb) && SuperOf(At(image, 1)) == sb
  {
    hide SuperOf;
    assert Home(sb, 1);
    assert Agrees(sb, fs, 1, At(image, 1));
  }

  // ---------------------------------------------------------------- from mkfs to a mounted disk

  const MKFS: Super := Super(Mkfs.FSSIZE, Mkfs.NINODES, Mkfs.LOGSTART, Mkfs.INODESTART, Mkfs.BMAPSTART)

  /** The sectors of a new disk: an empty log header, and the file system. */
  function Sectors(sb: Super, fs: Fs): (disk: seq<Wal.Sector>)
    ensures |disk| == sb.size
  {
    seq(sb.size, (b: nat) =>
      if b == sb.logstart then Wal.Sector(seq(Wal.WORDS, _ => 0)) else At(Stored(sb, fs), b))
  }

  lemma {:induction false} NewDisk(sb: Super, fs: Fs)
    requires Laid(sb, fs) && Storable(fs)
    ensures var disk := Sectors(sb, fs);
      && Wal.DiskShape(sb.logstart, disk) && Wal.Head(disk[sb.logstart]) == []
      && Synced(sb, fs, Wal.DurableImage(sb.logstart, disk), [])
  {
    hide Agrees, Stored, Storable, Nmeta, ZeroBlock;
    var disk := Sectors(sb, fs);
    LogFits(sb);
    var h := disk[sb.logstart];
    assert |h.words| == Wal.WORDS && h.words[0] == 0;
    assert Wal.Head(h) == [];
    var image := Wal.DurableImage(sb.logstart, disk);
    forall b: nat | Home(sb, b) ensures Agrees(sb, fs, b, At(image, b)) {
      StoredAgrees(sb, fs, b);
      assert b in image && image[b] == disk[b];
    }
  }

  lemma {:induction false} LogFits(sb: Super)
    requires SuperOk(sb)
    ensures sb.logstart + LOGBLOCKS < sb.size
  {
  }

  lemma {:induction false} MkfsLaid(image: Mkfs.Image)
    requires image.Valid() && forall j: nat :: j < Mkfs.NINODES ==> image.inodes[j].size <= MAXFILE * BSIZE
    ensures Laid(MKFS, image.State()) && Sized(image.State()) && MKFS.size <= BPB && Mkfs.NMETA == Nmeta(MKFS)
  {
    hide RefsUsed, RefsDistinct, NoLeaks, ZeroBlock;
  }

  lemma {:induction false} BootDurable(start: nat, disk: seq<Wal.Sector>)
    requires Wal.DiskShape(start, disk)
    ensures Wal.Shape(Wal.Boot(start, disk)) && Wal.Durable(Wal.Boot(start, disk)) == Wal.DurableImage(start, disk)
    ensures Wal.Boot(start, disk).phase == Wal.Booting && Wal.Boot(start, disk).disk == disk
    ensures Wal.AllHome(start, |disk|, []) && Distinct<int>([])
  {
    hide Wal.DurableImage;
  }

  /** A kernel comes up on a new disk with a file system on it. */
  method MountNew(sb: Super, fs: FileSystem) returns (k: Kernel)
    requires fs.Valid() && Laid(sb, fs.State()) && Sized(fs.State()) && fs.nmeta == Nmeta(sb) && fs.size == sb.size
    requires fs.inodestart == sb.inodestart && fs.bmapstart == sb.bmapstart
    ensures fresh(k) && fresh(k.log) && k.fs == fs && k.sb == sb && k.Mounted()
  {
    hide *;
    fs.ValidFacts();
    SizedStorable(fs.State());
    NewDisk(sb, fs.State());
    var disk := Sectors(sb, fs.State());
    BootDurable(sb.logstart, disk);
    var log := new Log(sb.logstart, disk);
    log.RecoverFromLog();
    log.ValidFacts();
    FreshAdmits(log.now);
    k := new Kernel(sb, fs, log);
    k.FittedIs();
    k.MountedIs();
  }

  /**
   From the files to a kernel on its disk: mkfs builds the image, the sectors are written, recovery
   finds an empty log, and every block is as in memory.
   */
  method Boot(entries: seq<seq<Byte>>, files: seq<seq<Byte>>) returns (k: Kernel?, ghost image: Mkfs.Image)
    requires Mkfs.Listing(entries, files)
    ensures k != null ==> fresh(k) && fresh(k.fs) && fresh(k.log) && k.Mounted() && k.sb == MKFS && k.sb.size <= BPB
    ensures k != null ==> |k.fs.inodes| == Mkfs.NINODES && forall j: nat :: 2 <= j < 2 + |files| ==>
      Content(k.fs.State(), j) == files[j - 2]
    ensures k == null ==> Mkfs.Dies(image, files)
  {
    hide Laid, Sized, Inv, Mkfs.Below, Nmeta, Kernel.Mounted;
    var built, ok := Mkfs.Build(entries, files);
    image := built;
    if !ok {
      return null, built;
    }
    image.ValidInv();
    MkfsLaid(image);
    var fs := Mkfs.Mount(built);
    k := MountNew(MKFS, fs);
  }

  lemma {:induction false} WriteSized(m: Fs, r: Fs, i: nat, off: nat, src: seq<Byte>, ret: int)
    requires Shape(m) && i < |m.inodes| && Ranged(m, i, off, |src|) && 0 <= ret <= |src| && Sized(m)
    requires off <= m.inodes[i].size && Spliced(m, r, i, off, src[..ret])
    ensures Sized(r)
  {
    hide RefsUsed, RefsDistinct, NoLeaks, NoHoles;
    forall j: nat | j < |r.inodes| ensures r.inodes[j].size <= UINT_MAX {
      assert |Content(r, j)| == r.inodes[j].size;
      assert |Content(m, j)| == m.inodes[j].size;
    }
  }

  lemma {:induction false} TruncSized(m: Fs, r: Fs, i: nat)
    requires Shape(m) && i < |m.inodes| && Sized(m) && Truncated(m, r, i)
    ensures Sized(r)
  {
  }

  lemma {:induction false} RangedFacts(m: Fs, i: nat, off: nat, n: nat)
    requires i < |m.inodes| && Ranged(m, i, off, n)
    ensures off <= m.inodes[i].size
  {
  }

  lemma {:induction false} NoMore(a: set<nat>, b: set<nat>)
    requires a <= b
    ensures |a| <= |b|
  {
    if a != {} {
      var x :| x in a;
      NoMore(a - {x}, b - {x});
    }
  }

  /** The blocks of the inodes, the bitmap and the files are home blocks. */
  lemma {:induction false} Areas(sb: Super, i: nat)
    requires SuperOk(sb) && i < sb.ninodes
    ensures forall b: nat :: sb.bmapstart <= b < sb.size ==> Home(sb, b) && b != 1
    ensures sb.bmapstart + sb.size / BPB < Nmeta(sb) <= sb.size
    ensures Home(sb, i / IPB + sb.inodestart) && i / IPB + sb.inodestart != 1
  {
    assert i / IPB <= sb.ninodes / IPB;
  }

  lemma {:induction false} TwoFit(x: nat, y: nat)
    ensures |{x, y}| <= MAXOPBLOCKS
  {
  }

  lemma {:induction false} NoneOwed()
    ensures var owed: seq<set<nat>> := [{}]; owed[..0] + owed[1..] == [] && owed[0] == {}
  {
  }

  lemma {:induction false} OneOwed(dirty: set<nat>)
    ensures var owed: seq<set<nat>> := [{}]; owed[0 := owed[0] + dirty] == [dirty]
  {
    var owed: seq<set<nat>> := [{}];
    assert owed[0] + dirty == dirty;
  }

  lemma {:induction false} FreshAdmits(s: Wal.Sys)
    requires Wal.Fresh(s)
    ensures s.lh == [] && Wal.Admits(s) && !Wal.Down(s) && Wal.Shape(s) && s.ops == [] && s.waiting == {}
  {
  }
}
