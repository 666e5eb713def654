/**
 The file system on top of the log: what is on the disk after a crash. File-system
 calls change the blocks and inodes in memory and owe the log every block they
 touch; the log commits when the last open operation has paid.
 */
module CrashFiles {
  import opened Common
  import opened FileBlocks
  import opened FsImage
  import LogCode
  import Wal

  // ---------------------------------------------------------------- the machine

  /**
   `mem` is the file system in the kernel's buffers and in-core inodes, `disk` the one
   that the last commit made durable. `owed` has one entry for each open operation:
   the blocks it has changed and not passed to log_write since.
   */
  datatype World = World(sys: Wal.Sys, mem: Fs, disk: Fs, owed: seq<set<nat>>)

  /** writei of bytes that all went in, and itrunc. */
  datatype Update = Write(i: nat, off: nat, src: seq<Byte>) | Truncate(i: nat)

  /** What the call may leave behind: the promise of writei or itrunc. */
  ghost predicate Updated(fs: Fs, u: Update, fs': Fs) {
    && Shape(fs) && u.i < |fs.inodes|
    && match u
       case Write(i, off, src) => off <= fs.inodes[i].size && Spliced(fs, fs', i, off, src)
       case Truncate(i) => Truncated(fs, fs', i)
  }

  /** A step of the log, or an open operation making a file-system call. */
  datatype Move = Log(l: Wal.Step) | Call(op: nat, u: Update, fs: Fs, dirty: set<nat>)

  /**
   log_write is given the buffer as it is, an operation ends only when it owes nothing,
   and a call does what it promises and owes what it changed.
   */
  ghost predicate Can(sb: Super, w: World, m: Move) {
    match m
    case Log(l) =>
      && Wal.Enabled(w.sys, l)
      && (l.LogWrite? ==> l.op < |w.owed| && 0 <= l.b && l.b in w.owed[l.op] && Agrees(sb, w.mem, l.b, l.v))
      && (l.EndOp? ==> l.op < |w.owed| && w.owed[l.op] == {})
    case Call(op, u, fs, dirty) =>
      op < |w.owed| && Updated(w.mem, u, fs) && Covered(w.mem, fs, sb.inodestart, sb.bmapstart, dirty)
  }

  function Owed(w: World, l: Wal.Step): seq<set<nat>> {
    match l
    case BeginOp(_) => if Wal.Admits(w.sys) then w.owed + [{}] else w.owed
    case LogWrite(op, b, _) => if op < |w.owed| && 0 <= b then w.owed[op := w.owed[op] - {b}] else w.owed
    case EndOp(op) => if op < |w.owed| then w.owed[..op] + w.owed[op + 1..] else w.owed
    case Crash => []
    case _ => w.owed
  }

  /** A commit makes the file system in memory the durable one; after a crash only that one is left. */
  ghost function Go(sb: Super, w: World, m: Move): World
    requires Can(sb, w, m)
  {
    match m
    case Log(l) =>
      World(Wal.Apply(w.sys, l), if l.Crash? then w.disk else w.mem, if l.WriteHead? then w.mem else w.disk, Owed(w, l))
    case Call(op, _, fs, dirty) => w.(mem := fs, owed := w.owed[op := w.owed[op] + dirty])
  }

  ghost function Run(sb: Super, w: World, ms: seq<Move>): Option<World> {
    if ms == [] then Some(w)
    else match Run(sb, w, Init(ms))
      case None => None
      case Some(m) => if Can(sb, m, Last(ms)) then Some(Go(sb, m, Last(ms))) else None
  }

  // ---------------------------------------------------------------- invariant

  ghost predicate Owes(owed: seq<set<nat>>, b: nat) {
    exists k :: 0 <= k < |owed| && b in owed[k]
  }

  /** Every home block that nobody owes is on the disk as `fs` has it. */
  ghost predicate Synced(sb: Super, fs: Fs, image: Wal.Image, owed: seq<set<nat>>) {
    forall b: nat :: Home(sb, b) && !Owes(owed, b) ==> Agrees(sb, fs, b, At(image, b))
  }

  /** A consistent file system laid out on this disk. */
  ghost predicate Sound(sb: Super, fs: Fs) { Laid(sb, fs) && Inv(fs) }

  ghost predicate OnDisk(sb: Super, s: Wal.Sys) {
    Wal.Inv(s) && Wal.Shape(s) && s.start == sb.logstart && |s.disk| == sb.size
  }

  ghost predicate Ok(sb: Super, w: World) {
    && OnDisk(sb, w.sys) && Sound(sb, w.mem) && Sound(sb, w.disk) && |w.owed| == |w.sys.ops|
    && Synced(sb, w.disk, Wal.Durable(w.sys), []) && Synced(sb, w.mem, Wal.Current(w.sys), w.owed)
  }

  lemma {:induction false} StepOnDisk(sb: Super, s: Wal.Sys, l: Wal.Step)
    requires OnDisk(sb, s) && Wal.Enabled(s, l)
    ensures OnDisk(sb, Wal.Apply(s, l))
    ensures Wal.AtomicEnabled(Wal.View(s), Wal.EventOf(s, l))
    ensures Wal.View(Wal.Apply(s, l)) == Wal.AtomicApply(Wal.View(s), Wal.EventOf(s, l))
  {
    hide Wal.Inv, Wal.View, Wal.AtomicApply, Wal.AtomicEnabled, Wal.EventOf;
    Wal.StepRefines(s, l);
    Wal.InvShape(Wal.Apply(s, l));
    LogCode.StepDisk(s, l);
  }

  /** log_write of a block as it is in memory. */
  lemma {:induction false} SyncedPut(
    sb: Super, fs: Fs, image: Wal.Image, owed: seq<set<nat>>, op: nat, b: nat, v: Wal.Sector)
    requires Synced(sb, fs, image, owed) && op < |owed| && Agrees(sb, fs, b, v)
    ensures Synced(sb, fs, image[b := v], owed[op := owed[op] - {b}])
  {
    hide Agrees;
    var owed' := owed[op := owed[op] - {b}];
    forall c: nat | Home(sb, c) && !Owes(owed', c) ensures Agrees(sb, fs, c, At(image[b := v], c)) {
      if c != b {
        forall k | 0 <= k < |owed| ensures c !in owed[k] {
          assert c !in owed'[k];
        }
      }
    }
  }

  /** An operation that owes nothing leaves. */
  lemma {:induction false} SyncedLess(sb: Super, fs: Fs, image: Wal.Image, owed: seq<set<nat>>, op: nat)
    requires Synced(sb, fs, image, owed) && op < |owed| && owed[op] == {}
    ensures Synced(sb, fs, image, owed[..op] + owed[op + 1..])
  {
    hide Agrees;
    var rest := owed[..op] + owed[op + 1..];
    forall c: nat | Home(sb, c) && !Owes(rest, c) ensures !Owes(owed, c) {
      forall k | 0 <= k < |owed| ensures c !in owed[k] {
        if k < op {
          assert rest[k] == owed[k];
        } else if k > op {
          assert rest[k - 1] == owed[k];
        }
      }
    }
  }

  lemma {:induction false} SyncedMore(sb: Super, fs: Fs, image: Wal.Image, owed: seq<set<nat>>)
    requires Synced(sb, fs, image, owed)
    ensures Synced(sb, fs, image, owed + [{}])
  {
    hide Agrees;
    forall c: nat | Owes(owed, c) ensures Owes(owed + [{}], c) {
      var k :| 0 <= k < |owed| && c in owed[k];
      assert (owed + [{}])[k] == owed[k];
    }
  }

  /** A call owes what it changes. */
  lemma {:induction false} SyncedCall(
    sb: Super, fs: Fs, fs': Fs, image: Wal.Image, owed: seq<set<nat>>, op: nat, dirty: set<nat>)
    requires Laid(sb, fs) && Synced(sb, fs, image, owed) && op < |owed|
    requires Covered(fs, fs', sb.inodestart, sb.bmapstart, dirty)
    ensures Laid(sb, fs') && Synced(sb, fs', image, owed[op := owed[op] + dirty])
  {
    hide Agrees, Covered, Laid;
    CoveredAgrees(sb, fs, fs', dirty);
    var owed' := owed[op := owed[op] + dirty];
    forall c: nat | Home(sb, c) && !Owes(owed', c) ensures Agrees(sb, fs', c, At(image, c)) {
      assert c !in owed'[op];
      forall k | 0 <= k < |owed| ensures c !in owed[k] {
        assert c !in owed'[k];
      }
    }
  }

  /** With nothing owed, the disk reads as the file system. */
  lemma {:induction false} SyncedReads(sb: Super, fs: Fs, image: Wal.Image)
    requires Laid(sb, fs) && Synced(sb, fs, image, [])
    ensures Reading(image) == fs
  {
    hide Agrees, Laid, Reading;
    ReadingIs(sb, fs, image);
  }

  lemma {:induction false} LogKeeps(sb: Super, w: World, l: Wal.Step)
    requires Ok(sb, w) && Can(sb, w, Log(l))
    ensures Ok(sb, Go(sb, w, Log(l)))
  {
    hide Agrees, Laid, Inv, OnDisk, Synced, Wal.Enabled, Wal.Apply, Wal.Durable, Wal.Current, Wal.Shape;
    StepOnDisk(sb, w.sys, l);
    OnDiskShape(sb, w.sys);
    OnDiskShape(sb, Wal.Apply(w.sys, l));
    match l {
      case BeginOp(_) => SyncedMore(sb, w.mem, Wal.Current(w.sys), w.owed);
      case LogWrite(op, b, v) => SyncedPut(sb, w.mem, Wal.Current(w.sys), w.owed, op, b, v);
      case EndOp(op) => SyncedLess(sb, w.mem, Wal.Current(w.sys), w.owed, op);
      case WriteHead => assert w.owed == [];
      case _ =>
    }
  }

  lemma {:induction false} OnDiskShape(sb: Super, s: Wal.Sys)
    requires OnDisk(sb, s)
    ensures Wal.Shape(s)
  {
  }

  /** The files, byte for byte. */
  ghost function Contents(fs: Fs): (cs: seq<seq<Byte>>)
    requires Shape(fs)
    ensures |cs| == |fs.inodes|
  {
    seq(|fs.inodes|, (i: nat) requires i < |fs.inodes| => Content(fs, i))
  }

  /** What a call does to the files. */
  function After(cs: seq<seq<Byte>>, u: Update): seq<seq<Byte>> {
    if u.i >= |cs| then cs
    else match u
      case Write(i, off, src) => if off <= |cs[i]| then cs[i := Splice(cs[i], off, src)] else cs
      case Truncate(i) => cs[i := []]
  }

  /** A call keeps the file system consistent and changes its own file only. */
  lemma {:induction false} UpdatedKeeps(fs: Fs, u: Update, fs': Fs)
    requires Inv(fs) && Updated(fs, u, fs')
    ensures Inv(fs') && Shape(fs) && Shape(fs') && Contents(fs') == After(Contents(fs), u)
  {
    hide RefsUsed, RefsDistinct, NoLeaks, Content, NoHoles, Truncated, Splice;
    if u.Truncate? {
      TruncatedKeeps(fs, fs', u.i);
      TruncatedFacts(fs, fs', u.i);
    }
    var cs, cs' := Contents(fs), Contents(fs');
    assert |cs'| == |cs|;
    forall j: nat | j < |cs| ensures cs'[j] == After(cs, u)[j] {
      assert j != u.i ==> Content(fs', j) == Content(fs, j);
    }
  }

  lemma {:induction false} TruncatedFacts(fs: Fs, fs': Fs, i: nat)
    requires Shape(fs) && i < |fs.inodes| && Truncated(fs, fs', i)
    ensures |fs'.inodes| == |fs.inodes|
  {
  }

  lemma {:induction false} MoveKeeps(sb: Super, w: World, m: Move)
    requires Ok(sb, w) && Can(sb, w, m)
    ensures Ok(sb, Go(sb, w, m))
  {
    hide Agrees, Covered, Laid, Inv, OnDisk, Synced, Owed, Updated, Wal.Enabled, Wal.Apply, Wal.Durable, Wal.Current,
      Wal.Shape;
    OnDiskShape(sb, w.sys);
    match m {
      case Log(l) => LogKeeps(sb, w, l);
      case Call(op, u, fs, dirty) =>
        UpdatedKeeps(w.mem, u, fs);
        SyncedCall(sb, w.mem, fs, Wal.Current(w.sys), w.owed, op, dirty);
    }
  }

  // ---------------------------------------------------------------- whole runs

  /** A machine that is up on a disk with a consistent file system, with nothing open. */
  ghost predicate Start(sb: Super, w: World) {
    && Wal.Fresh(w.sys) && SuperOk(sb) && OnDisk(sb, w.sys) && w.owed == []
    && SuperOf(At(Wal.Durable(w.sys), 1)) == sb && w.mem == w.disk == Reading(Wal.Durable(w.sys)) && Inv(w.mem)
  }

  lemma {:induction false} StartOk(sb: Super, w: World)
    requires Start(sb, w)
    ensures Ok(sb, w)
  {
    hide Inv, Agrees, Laid, OnDisk, SuperOf, SuperOk, Reading, Wal.Durable, Wal.Current, Wal.Inv, Wal.Shape;
    OnDiskShape(sb, w.sys);
    Wal.FreshIsDurable(w.sys);
    Wal.FreshFacts(w.sys);
    ReadingAgrees(Wal.Durable(w.sys));
  }

  lemma {:induction false} RunOk(sb: Super, w: World, ms: seq<Move>)
    requires Start(sb, w) && Run(sb, w, ms).Some?
    ensures Ok(sb, Run(sb, w, ms).value)
  {
    hide Ok, Start, Can, Go;
    if ms == [] {
      StartOk(sb, w);
    } else {
      RunOk(sb, w, Init(ms));
      MoveKeeps(sb, Run(sb, w, Init(ms)).value, Last(ms));
    }
  }

  /** The files in memory and those a crash leaves, as a sequence of byte strings each. */
  datatype Files = Files(mem: seq<seq<Byte>>, disk: seq<seq<Byte>>)

  /** Calls change the files in memory, a commit saves them all, a crash falls back on the saved ones. */
  function Replay(cs: seq<seq<Byte>>, ms: seq<Move>): Files {
    if ms == [] then Files(cs, cs)
    else
      var f := Replay(cs, Init(ms));
      match Last(ms)
      case Call(_, u, _, _) => f.(mem := After(f.mem, u))
      case Log(l) => if l.WriteHead? then f.(disk := f.mem) else if l.Crash? then f.(mem := f.disk) else f
  }

  lemma {:induction false} OkShape(sb: Super, w: World)
    requires Ok(sb, w)
    ensures Shape(w.mem) && Shape(w.disk) && Inv(w.mem) && Inv(w.disk) && Wal.Shape(w.sys)
  {
    hide RefsUsed, RefsDistinct, NoLeaks, Laid, Synced, Wal.Inv;
  }

  lemma {:induction false} RunFiles(sb: Super, w: World, ms: seq<Move>)
    requires Start(sb, w) && Run(sb, w, ms).Some?
    ensures var r := Run(sb, w, ms).value;
      && Ok(sb, w) && Ok(sb, r) && Shape(w.mem) && Shape(r.mem) && Shape(r.disk)
      && Replay(Contents(w.mem), ms) == Files(Contents(r.mem), Contents(r.disk))
  {
    hide Ok, Can, Shape, Inv, Updated, Contents, Reading, Wal.Apply, Wal.Enabled, Owed;
    StartOk(sb, w);
    RunOk(sb, w, ms);
    OkShape(sb, w);
    OkShape(sb, Run(sb, w, ms).value);
    if ms != [] {
      var p, m := Run(sb, w, Init(ms)).value, Last(ms);
      RunFiles(sb, w, Init(ms));
      OkShape(sb, p);
      if m.Call? {
        CallIs(sb, p, m);
        UpdatedKeeps(p.mem, m.u, m.fs);
      }
    }
  }

  lemma {:induction false} CallIs(sb: Super, w: World, m: Move)
    requires Can(sb, w, m) && m.Call?
    ensures Updated(w.mem, m.u, m.fs)
  {
  }

  /**
   In every state of every run, with any number of operations open at once and crashes anywhere,
   also during recovery: what a crash now would leave on the disk reads as a file system that owns
   each of its blocks once, and its files are those of the last commit, every call before it applied
   in full and none after it.
   */
  lemma {:induction false} FilesSurviveCrash(sb: Super, w: World, ms: seq<Move>)
    requires Start(sb, w) && Run(sb, w, ms).Some?
    ensures var r := Run(sb, w, ms).value; Wal.Shape(r.sys) && Shape(w.mem)
    ensures var fs := Reading(Wal.Durable(Run(sb, w, ms).value.sys));
      Inv(fs) && Contents(fs) == Replay(Contents(w.mem), ms).disk
  {
    hide Ok, Can, Go, Shape, Inv, Contents, Replay, Reading, Run, Wal.Durable, Start;
    RunFiles(sb, w, ms);
    var r := Run(sb, w, ms).value;
    OkShape(sb, w);
    OkShape(sb, r);
    OkReads(sb, r);
  }

  lemma {:induction false} OkReads(sb: Super, w: World)
    requires Ok(sb, w)
    ensures Wal.Shape(w.sys) && Reading(Wal.Durable(w.sys)) == w.disk
    ensures w.sys.ops == [] ==> Reading(Wal.Current(w.sys)) == w.mem
  {
    hide Agrees, Laid, Inv, Synced, Reading, Wal.Inv, Wal.Shape, Wal.Durable, Wal.Current;
    SyncedReads(sb, w.disk, Wal.Durable(w.sys));
    if w.sys.ops == [] {
      assert w.owed == [];
      SyncedReads(sb, w.mem, Wal.Current(w.sys));
    }
  }

  /** Once recovery is done, the machine reads exactly those files, and can go on from there. */
  lemma {:induction false} RecoveredFiles(sb: Super, w: World, ms: seq<Move>)
    requires Start(sb, w) && Run(sb, w, ms).Some?
    requires var r := Run(sb, w, ms).value; r.sys.phase == Wal.Idle && r.sys.ops == []
    ensures var r := Run(sb, w, ms).value;
      && Wal.Shape(r.sys) && Shape(w.mem) && Inv(r.mem)
      && Reading(Wal.Current(r.sys)) == Reading(Wal.Durable(r.sys)) == r.mem == r.disk
      && Contents(r.mem) == Replay(Contents(w.mem), ms).disk
      && Start(sb, r)
  {
    hide Can, Go, Shape, Inv, Contents, Replay, Reading, Run, Agrees, Laid, Synced, Wal.Durable, Wal.Current;
    RunFiles(sb, w, ms);
    var r := Run(sb, w, ms).value;
    OkShape(sb, w);
    OkShape(sb, r);
    OkReads(sb, r);
    Wal.FreshIsDurable(r.sys);
    SuperKept(sb, r);
  }

  lemma {:induction false} SuperKept(sb: Super, w: World)
    requires Ok(sb, w)
    ensures Wal.Shape(w.sys) && SuperOk(sb) && SuperOf(At(Wal.Durable(w.sys), 1)) == sb
  {
    hide Inv, SuperOf, Wal.Inv, Wal.Shape, Wal.Durable, Wal.Current;
    assert Home(sb, 1);
    assert Agrees(sb, w.disk, 1, At(Wal.Durable(w.sys), 1));
  }
}
