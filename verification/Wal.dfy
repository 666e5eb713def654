/**
 The redo log of `kernel/log.c` as a step machine.

 A state holds the disk, the buffer cache, the in-memory log header, the open
 file-system operations and the phase the log is in. Every single block write
 is a step of its own, and a crash may happen in any state, also while the log
 is being recovered. The machine refines a disk with atomic transactions: one
 durable image, one current image, and a commit that copies the second onto
 the first.
 */
module Wal {
  import opened Common

  /** Words (C ints) in one disk block: BSIZE / sizeof(int). */
  const WORDS: nat := 256

  /** The contents of one disk block. */
  datatype Sector = Sector(words: seq<int>)

  // ---------------------------------------------------------------- header

  /** A sector that can be read as a log header. */
  predicate IsHeader(sector: Sector) {
    |sector.words| == WORDS && 0 <= sector.words[0] <= LOGBLOCKS
  }

  /** The block numbers listed by a header sector; stale ones past `n` are ignored. */
  function Head(sector: Sector): seq<int>
    requires IsHeader(sector)
  {
    sector.words[1..1 + sector.words[0]]
  }

  /** The header sector after the in-memory header `lh` was copied over `sector`. */
  function PutHead(sector: Sector, lh: seq<int>): (r: Sector)
    requires IsHeader(sector) && |lh| <= LOGBLOCKS
    ensures IsHeader(r) && Head(r) == lh
  {
    Sector([|lh|] + lh + sector.words[1 + |lh|..])
  }

  // ---------------------------------------------------------------- states

  datatype Phase =
    | Idle                     // operations may run
    | Logging(done: nat)       // commit: `done` blocks copied to the log
    | Installing(done: nat)    // commit: `done` blocks copied home
    | Cleared                  // commit: the on-disk header is erased
    | Booting                  // after a crash, header not read yet
    | Recovering(done: nat)    // recovery: `done` blocks copied home

  /**
   `ops` has one entry for each open operation: how many blocks it has added to
   the log. `waiting` are the processes asleep in begin_op. `pins` are the blocks
   whose buffers bpin keeps in the cache.
   */
  datatype Sys = Sys(
    start: nat,
    disk: seq<Sector>,
    cache: map<int, Sector>,
    pins: set<int>,
    lh: seq<int>,
    ops: seq<nat>,
    waiting: set<nat>,
    phase: Phase)

  /** Block `b` of a disk with `size` blocks lies outside the log area at `start`. */
  predicate IsHome(start: nat, size: nat, b: int) {
    0 <= b < size && !(start <= b <= start + LOGBLOCKS)
  }

  predicate AllHome(start: nat, size: nat, blocks: seq<int>) {
    forall i :: 0 <= i < |blocks| ==> IsHome(start, size, blocks[i])
  }

  predicate Committing(s: Sys) {
    s.phase.Logging? || s.phase.Installing? || s.phase.Cleared?
  }

  predicate Down(s: Sys) {
    s.phase.Booting? || s.phase.Recovering?
  }

  /** The admission test of begin_op. */
  predicate Admits(s: Sys) {
    !Committing(s) && |s.lh| + (|s.ops| + 1) * MAXOPBLOCKS <= LOGBLOCKS
  }

  /** What bread returns: the cached copy if there is one. */
  function Bread(s: Sys, b: int): Sector
    requires 0 <= b < |s.disk|
  {
    if b in s.cache then s.cache[b] else s.disk[b]
  }

  /** One synchronous block write through the cache. */
  function Bwrite(s: Sys, b: int, v: Sector): Sys
    requires 0 <= b < |s.disk|
  {
    s.(disk := s.disk[b := v], cache := s.cache[b := v])
  }

  // ---------------------------------------------------------------- steps

  datatype Step =
    | BeginOp(p: nat)
    | LogWrite(op: nat, b: int, v: Sector)
    | EndOp(op: nat)
    | WriteLog
    | WriteHead
    | Install
    | Clear
    | Finish
    | Fetch(b: int)
    | Evict(b: int)
    | Crash
    | ReadHead
    | Redo
    | ClearRecovered

  predicate DiskShape(start: nat, disk: seq<Sector>) {
    start + LOGBLOCKS < |disk| && IsHeader(disk[start])
  }

  /** The log area lies on the disk, starts with a header, and lists only home blocks. */
  predicate Shape(s: Sys) {
    && DiskShape(s.start, s.disk) && IsHeader(Bread(s, s.start))
    && (forall b :: b in s.cache ==> 0 <= b < |s.disk|)
    && |s.lh| <= LOGBLOCKS && AllHome(s.start, |s.disk|, s.lh)
  }

  function RemoveAt(ops: seq<nat>, i: nat): seq<nat>
    requires i < |ops|
  {
    ops[..i] + ops[i + 1..]
  }

  function DoBeginOp(s: Sys, p: nat): Sys {
    if Admits(s) then s.(ops := s.ops + [0]) else s.(waiting := s.waiting + {p})
  }

  /** The guard of log_write: outside it the source panics. */
  predicate CanLogWrite(s: Sys, op: nat, b: int, v: Sector) {
    && op < |s.ops| && |s.lh| < LOGBLOCKS && IsHome(s.start, |s.disk|, b)
    && (b in s.lh || s.ops[op] < MAXOPBLOCKS)
  }

  function DoLogWrite(s: Sys, op: nat, b: int, v: Sector): Sys
    requires op < |s.ops|
  {
    var c := s.cache[b := v];
    if b in s.lh then s.(cache := c)
    else s.(cache := c, pins := s.pins + {b}, lh := s.lh + [b], ops := s.ops[op := s.ops[op] + 1])
  }

  function DoEndOp(s: Sys, op: nat): Sys
    requires op < |s.ops|
  {
    var rest := RemoveAt(s.ops, op);
    if rest == [] then s.(ops := rest, phase := Logging(0)) else s.(ops := rest, waiting := {})
  }

  function DoWriteLog(s: Sys): Sys
    requires Shape(s) && s.phase.Logging? && s.phase.done < |s.lh|
  {
    var t := s.phase.done;
    Bwrite(s, s.start + 1 + t, Bread(s, s.lh[t])).(phase := Logging(t + 1))
  }

  function DoWriteHead(s: Sys): Sys
    requires Shape(s)
  {
    Bwrite(s, s.start, PutHead(Bread(s, s.start), s.lh)).(phase := Installing(0))
  }

  /** One iteration of install_trans, without the bunpin and the change of phase. */
  function CopyHome(s: Sys, t: nat): Sys
    requires Shape(s) && t < |s.lh|
  {
    Bwrite(s, s.lh[t], Bread(s, s.start + 1 + t))
  }

  function DoInstall(s: Sys): Sys
    requires Shape(s) && s.phase.Installing? && s.phase.done < |s.lh|
  {
    var t := s.phase.done;
    CopyHome(s, t).(pins := s.pins - {s.lh[t]}, phase := Installing(t + 1))
  }

  /** `log.lh.n = 0; write_head()`, without the change of phase. */
  function EraseHead(s: Sys): Sys
    requires Shape(s)
  {
    Bwrite(s, s.start, PutHead(Bread(s, s.start), [])).(lh := [])
  }

  function DoCrash(s: Sys): Sys {
    s.(cache := map[], pins := {}, lh := [], ops := [], waiting := {}, phase := Booting)
  }

  function DoReadHead(s: Sys): Sys
    requires Shape(s)
  {
    s.(lh := Head(Bread(s, s.start)), phase := Recovering(0))
  }

  predicate Enabled(s: Sys, l: Step) {
    && Shape(s)
    && match l
       case BeginOp(p) => !Down(s) && p !in s.waiting
       case LogWrite(op, b, v) => CanLogWrite(s, op, b, v)
       case EndOp(op) => op < |s.ops| && !Committing(s)
       case WriteLog => s.phase.Logging? && s.phase.done < |s.lh|
       case WriteHead => s.phase == Logging(|s.lh|) && s.lh != []
       case Install => s.phase.Installing? && s.phase.done < |s.lh|
       case Clear => s.phase == Installing(|s.lh|)
       case Finish => s.phase.Cleared? || (s.phase == Logging(0) && s.lh == [])
       case Fetch(b) => 0 <= b < |s.disk| && b !in s.cache
       case Evict(b) => b in s.cache && b !in s.pins
       case Crash => true
       case ReadHead => s.phase.Booting?
       case Redo => s.phase.Recovering? && s.phase.done < |s.lh|
       case ClearRecovered => s.phase == Recovering(|s.lh|)
  }

  function Apply(s: Sys, l: Step): Sys
    requires Enabled(s, l)
  {
    match l
    case BeginOp(p) => DoBeginOp(s, p)
    case LogWrite(op, b, v) => DoLogWrite(s, op, b, v)
    case EndOp(op) => DoEndOp(s, op)
    case WriteLog => DoWriteLog(s)
    case WriteHead => DoWriteHead(s)
    case Install => DoInstall(s)
    case Clear => EraseHead(s).(phase := Cleared)
    case Finish => s.(phase := Idle, waiting := {})
    case Fetch(b) => s.(cache := s.cache[b := s.disk[b]])
    case Evict(b) => s.(cache := s.cache - {b})
    case Crash => DoCrash(s)
    case ReadHead => DoReadHead(s)
    case Redo => CopyHome(s, s.phase.done).(phase := Recovering(s.phase.done + 1))
    case ClearRecovered => EraseHead(s).(phase := Idle)
  }

  // ---------------------------------------------------------------- admission

  /** Log blocks still reserved for open operations but not used by them. */
  function Unspent(ops: seq<nat>): int {
    if ops == [] then 0 else MAXOPBLOCKS - ops[0] + Unspent(ops[1..])
  }

  lemma {:induction false} UnspentConcat(a: seq<nat>, c: seq<nat>)
    ensures Unspent(a + c) == Unspent(a) + Unspent(c)
  {
    if a == [] {
      assert a + c == c;
    } else {
      UnspentConcat(a[1..], c);
      assert (a + c)[1..] == a[1..] + c;
    }
  }

  lemma {:induction false} UnspentBounds(ops: seq<nat>)
    requires forall i :: 0 <= i < |ops| ==> ops[i] <= MAXOPBLOCKS
    ensures 0 <= Unspent(ops) <= |ops| * MAXOPBLOCKS
  {
    if ops != [] {
      UnspentBounds(ops[1..]);
    }
  }

  lemma {:induction false} UnspentSplit(ops: seq<nat>, i: nat)
    requires i < |ops|
    ensures Unspent(ops) == Unspent(RemoveAt(ops, i)) + MAXOPBLOCKS - ops[i]
  {
    var a, c := ops[..i], ops[i + 1..];
    assert ops == a + ([ops[i]] + c);
    UnspentConcat(a, [ops[i]] + c);
    UnspentConcat([ops[i]], c);
    UnspentConcat(a, c);
  }

  lemma {:induction false} UnspentSpend(ops: seq<nat>, i: nat)
    requires i < |ops|
    ensures Unspent(ops[i := ops[i] + 1]) == Unspent(ops) - 1
  {
    var n := ops[i := ops[i] + 1];
    UnspentSplit(ops, i);
    UnspentSplit(n, i);
    assert RemoveAt(ops, i) == RemoveAt(n, i);
  }

  // ---------------------------------------------------------------- invariant

  /** The first `k` listed blocks have been copied from the log to their homes. */
  ghost predicate InstalledUpTo(start: nat, disk: seq<Sector>, lh: seq<int>, k: nat)
    requires start + |lh| < |disk| && AllHome(start, |disk|, lh)
  {
    forall i :: 0 <= i < k && i < |lh| ==> disk[lh[i]] == disk[start + 1 + i]
  }

  /** Log slots lo..hi hold the cached contents of the blocks they stand for. */
  ghost predicate LoggedBetween(
    start: nat, disk: seq<Sector>, cache: map<int, Sector>, lh: seq<int>, lo: nat, hi: nat)
    requires start + |lh| < |disk|
  {
    forall i :: lo <= i < hi && i < |lh| ==>
      lh[i] in cache && disk[start + 1 + i] == cache[lh[i]]
  }

  ghost predicate PhaseInv(s: Sys)
    requires Shape(s)
  {
    var h := Head(s.disk[s.start]);
    match s.phase
    case Idle => h == [] && (s.ops == [] ==> s.lh == [])
    case Logging(t) =>
      s.ops == [] && h == [] && t <= |s.lh| && LoggedBetween(s.start, s.disk, s.cache, s.lh, 0, t)
    case Installing(t) =>
      && s.ops == [] && h == s.lh && t <= |s.lh|
      && InstalledUpTo(s.start, s.disk, s.lh, t)
      && LoggedBetween(s.start, s.disk, s.cache, s.lh, t, |s.lh|)
    case Cleared => s.ops == [] && h == [] && s.lh == []
    case Booting => s.ops == [] && s.lh == [] && s.waiting == {}
    case Recovering(t) =>
      && s.ops == [] && h == s.lh && t <= |s.lh| && s.waiting == {}
      && InstalledUpTo(s.start, s.disk, s.lh, t)
  }

  /** Buffers that are not pinned agree with the disk; pinned blocks stay cached. */
  ghost predicate CacheInv(disk: seq<Sector>, cache: map<int, Sector>, pins: set<int>) {
    && (forall b :: b in cache && b !in pins ==> 0 <= b < |disk| && cache[b] == disk[b])
    && pins <= cache.Keys
  }

  /** From the first `Unpinned` on, the listed blocks are exactly the pinned ones. */
  function Unpinned(s: Sys): nat {
    match s.phase
    case Installing(t) => t
    case Recovering(_) => |s.lh|
    case _ => 0
  }

  ghost predicate PinInv(lh: seq<int>, lo: nat, pins: set<int>) {
    && (forall i :: lo <= i < |lh| ==> lh[i] in pins)
    && (forall b :: b in pins ==> exists i :: lo <= i < |lh| && lh[i] == b)
  }

  ghost predicate OpsInv(s: Sys) {
    && (forall i :: 0 <= i < |s.ops| ==> s.ops[i] <= MAXOPBLOCKS)
    && |s.lh| + Unspent(s.ops) <= LOGBLOCKS
    && (s.waiting != {} ==> !Admits(s))
  }

  ghost predicate Inv(s: Sys) {
    && Shape(s) && Distinct(s.lh)
    && AllHome(s.start, |s.disk|, Head(s.disk[s.start])) && Distinct(Head(s.disk[s.start]))
    && PhaseInv(s) && CacheInv(s.disk, s.cache, s.pins) && PinInv(s.lh, Unpinned(s), s.pins) && OpsInv(s)
  }

  // One lemma for each kind of step.

  lemma {:induction false} BeginOpKeeps(s: Sys, p: nat)
    requires Inv(s) && !Down(s)
    ensures Inv(DoBeginOp(s, p))
  {
    hide AllHome, Distinct, CacheInv, PinInv, Head, DiskShape, IsHeader;
    UnspentBounds(s.ops);
    UnspentConcat(s.ops, [0]);
  }

  lemma {:induction false} PinAppend(lh: seq<int>, pins: set<int>, b: int)
    requires PinInv(lh, 0, pins)
    ensures PinInv(lh + [b], 0, pins + {b})
  {
    forall c | c in pins + {b} ensures exists i :: 0 <= i < |lh + [b]| && (lh + [b])[i] == c {
      if c == b {
        assert (lh + [b])[|lh|] == c;
      } else {
        var i :| 0 <= i < |lh| && lh[i] == c;
        assert (lh + [b])[i] == c;
      }
    }
  }

  lemma {:induction false} PinRemove(lh: seq<int>, t: nat, pins: set<int>)
    requires t < |lh| && PinInv(lh, t, pins) && Distinct(lh)
    ensures PinInv(lh, t + 1, pins - {lh[t]})
  {
  }

  lemma {:induction false} LogWriteKeeps(s: Sys, op: nat, b: int, v: Sector)
    requires Inv(s) && CanLogWrite(s, op, b, v)
    ensures Inv(DoLogWrite(s, op, b, v))
  {
    hide Unspent, DiskShape, IsHeader, Head;
    UnspentSpend(s.ops, op);
    PinAppend(s.lh, s.pins, b);
  }

  lemma {:induction false} EndOpKeeps(s: Sys, op: nat)
    requires Inv(s) && op < |s.ops| && !Committing(s)
    ensures Inv(DoEndOp(s, op))
  {
    hide AllHome, Distinct, CacheInv, PinInv, Head, DiskShape, IsHeader;
    UnspentSplit(s.ops, op);
    UnspentBounds(s.ops);
  }

  lemma {:induction false} WriteLogKeeps(s: Sys)
    requires Inv(s) && s.phase.Logging? && s.phase.done < |s.lh|
    ensures Inv(DoWriteLog(s))
  {
    hide Unspent, Distinct, IsHeader, PutHead;
    var r := DoWriteLog(s);
    assert r.disk[r.start] == s.disk[s.start];
  }

  lemma {:induction false} WriteHeadKeeps(s: Sys)
    requires Inv(s) && s.phase == Logging(|s.lh|)
    ensures Inv(DoWriteHead(s))
  {
  }

  /** Writing a block other than the header keeps the shape and the header. */
  lemma {:induction false} BwriteShape(s: Sys, b: int, v: Sector)
    requires Shape(s) && 0 <= b < |s.disk| && b != s.start
    ensures Shape(Bwrite(s, b, v)) && Bwrite(s, b, v).disk[s.start] == s.disk[s.start]
  {
  }

  /** Log blocks are never pinned, so reading one gives what is on the disk. */
  lemma {:induction false} LogBlockClean(s: Sys, b: int)
    requires Inv(s) && s.start <= b <= s.start + LOGBLOCKS
    ensures Bread(s, b) == s.disk[b]
  {
    assert b !in s.pins;
  }

  lemma {:induction false} InstallExtends(start: nat, disk: seq<Sector>, lh: seq<int>, t: nat)
    requires start + |lh| < |disk| && |lh| <= LOGBLOCKS && AllHome(start, |disk|, lh) && Distinct(lh) && t < |lh|
    requires InstalledUpTo(start, disk, lh, t)
    ensures InstalledUpTo(start, disk[lh[t] := disk[start + 1 + t]], lh, t + 1)
  {
  }

  lemma {:induction false} InstallLogged(
    start: nat, disk: seq<Sector>, cache: map<int, Sector>, lh: seq<int>, t: nat, v: Sector)
    requires start + |lh| < |disk| && |lh| <= LOGBLOCKS && AllHome(start, |disk|, lh) && Distinct(lh) && t < |lh|
    requires LoggedBetween(start, disk, cache, lh, t, |lh|)
    ensures LoggedBetween(start, disk[lh[t] := v], cache[lh[t] := v], lh, t + 1, |lh|)
  {
  }

  lemma {:induction false} InstallWrites(s: Sys, r: Sys, v: Sector)
    requires Inv(s) && s.phase.Installing? && s.phase.done < |s.lh| && r == DoInstall(s)
    requires v == s.disk[s.start + 1 + s.phase.done]
    ensures Shape(r) && r.disk[r.start] == s.disk[s.start]
    ensures r.disk == s.disk[s.lh[s.phase.done] := v] && r.cache == s.cache[s.lh[s.phase.done] := v]
  {
    LogBlockClean(s, s.start + 1 + s.phase.done);
    BwriteShape(s, s.lh[s.phase.done], v);
  }

  lemma {:induction false} InstallPhase(s: Sys, r: Sys, t: nat, v: Sector)
    requires Shape(s) && Shape(r) && Distinct(s.lh) && t < |s.lh| && v == s.disk[s.start + 1 + t]
    requires r.start == s.start && r.lh == s.lh && r.ops == [] && r.phase == Installing(t + 1)
    requires r.disk == s.disk[s.lh[t] := v] && r.cache == s.cache[s.lh[t] := v]
    requires Head(r.disk[r.start]) == s.lh
    requires InstalledUpTo(s.start, s.disk, s.lh, t)
    requires LoggedBetween(s.start, s.disk, s.cache, s.lh, t, |s.lh|)
    ensures PhaseInv(r)
  {
    InstallExtends(s.start, s.disk, s.lh, t);
    InstallLogged(s.start, s.disk, s.cache, s.lh, t, v);
  }

  lemma {:induction false} InstallPins(s: Sys, r: Sys)
    requires Inv(s) && s.phase.Installing? && s.phase.done < |s.lh| && r == DoInstall(s)
    ensures PinInv(r.lh, Unpinned(r), r.pins) && CacheInv(r.disk, r.cache, r.pins)
  {
    PinRemove(s.lh, s.phase.done, s.pins);
  }

  lemma {:induction false} InstallFrame(s: Sys)
    requires Shape(s) && s.phase.Installing? && s.phase.done < |s.lh|
    ensures var r := DoInstall(s);
      && r.start == s.start && |r.disk| == |s.disk| && r.lh == s.lh && r.ops == s.ops && r.waiting == s.waiting
      && r.phase == Installing(s.phase.done + 1) && (Admits(r) <==> Admits(s)) && s.start + 1 + s.phase.done < |s.disk|
  {
  }

  lemma {:induction false} InstallKeeps(s: Sys)
    requires Inv(s) && s.phase.Installing? && s.phase.done < |s.lh|
    ensures Inv(DoInstall(s))
  {
    hide CacheInv, PinInv, InstalledUpTo, LoggedBetween, Distinct, AllHome, DiskShape, IsHeader, Head, Unspent,
      DoInstall;
    var t := s.phase.done;
    var r := DoInstall(s);
    InstallFrame(s);
    InstallWrites(s, r, s.disk[s.start + 1 + t]);
    InstallPhase(s, r, t, s.disk[s.start + 1 + t]);
    InstallPins(s, r);
  }

  lemma {:induction false} ClearKeeps(s: Sys)
    requires Inv(s) && s.phase == Installing(|s.lh|)
    ensures Inv(EraseHead(s).(phase := Cleared))
  {
  }

  lemma {:induction false} FetchKeeps(s: Sys, b: int)
    requires Inv(s) && 0 <= b < |s.disk| && b !in s.cache
    ensures Inv(s.(cache := s.cache[b := s.disk[b]]))
  {
  }

  lemma {:induction false} EvictLogged(
    start: nat, disk: seq<Sector>, cache: map<int, Sector>, lh: seq<int>, pins: set<int>, lo: nat, hi: nat, b: int)
    requires start + |lh| < |disk| && b !in pins && PinInv(lh, lo, pins)
    requires LoggedBetween(start, disk, cache, lh, lo, hi)
    ensures LoggedBetween(start, disk, cache - {b}, lh, lo, hi)
  {
  }

  lemma {:induction false} EvictKeeps(s: Sys, b: int)
    requires Inv(s) && b !in s.pins
    ensures Inv(s.(cache := s.cache - {b}))
  {
    var r := s.(cache := s.cache - {b});
    assert b != s.start ==> Bread(r, s.start) == Bread(s, s.start);
    match s.phase
    case Logging(t) => EvictLogged(s.start, s.disk, s.cache, s.lh, s.pins, 0, t, b);
    case Installing(t) => EvictLogged(s.start, s.disk, s.cache, s.lh, s.pins, t, |s.lh|, b);
    case _ =>
  }

  lemma {:induction false} FinishKeeps(s: Sys)
    requires Inv(s) && Enabled(s, Finish)
    ensures Inv(s.(phase := Idle, waiting := {}))
  {
  }

  lemma {:induction false} CrashKeeps(s: Sys)
    requires Inv(s)
    ensures Inv(DoCrash(s))
  {
  }

  lemma {:induction false} ReadHeadKeeps(s: Sys)
    requires Inv(s) && s.phase.Booting?
    ensures Inv(DoReadHead(s))
  {
  }

  lemma {:induction false} RedoKeeps(s: Sys)
    requires Inv(s) && s.phase.Recovering? && s.phase.done < |s.lh|
    ensures Inv(CopyHome(s, s.phase.done).(phase := Recovering(s.phase.done + 1)))
  {
    hide Unspent;
  }

  lemma {:induction false} ClearRecoveredKeeps(s: Sys)
    requires Inv(s) && s.phase == Recovering(|s.lh|)
    ensures Inv(EraseHead(s).(phase := Idle))
  {
  }

  /** What the code relies on at each of its steps. */
  ghost predicate Ready(s: Sys) {
    && Shape(s) && Bread(s, s.start) == s.disk[s.start]
    && (Committing(s) || Down(s) ==> s.ops == [])
    && (s.phase.Idle? && s.ops == [] ==> s.lh == [])
  }

  lemma {:induction false} InvReady(s: Sys)
    requires Inv(s)
    ensures Ready(s)
  {
    LogBlockClean(s, s.start);
  }

  /** Every step of every process, of the committer, of a crash and of recovery keeps the invariant. */
  lemma {:induction false} InvKept(s: Sys, l: Step)
    requires Inv(s) && Enabled(s, l)
    ensures Inv(Apply(s, l))
  {
    hide Inv, AllHome, DiskShape, IsHeader, PutHead, Head;
    match l
    case BeginOp(p) => BeginOpKeeps(s, p);
    case LogWrite(op, b, v) => LogWriteKeeps(s, op, b, v);
    case EndOp(op) => EndOpKeeps(s, op);
    case WriteLog => WriteLogKeeps(s);
    case WriteHead => WriteHeadKeeps(s);
    case Install => InstallKeeps(s);
    case Clear => ClearKeeps(s);
    case Finish => FinishKeeps(s);
    case Fetch(b) => FetchKeeps(s, b);
    case Evict(b) => EvictKeeps(s, b);
    case Crash => CrashKeeps(s);
    case ReadHead => ReadHeadKeeps(s);
    case Redo => RedoKeeps(s);
    case ClearRecovered => ClearRecoveredKeeps(s);
  }

  // ------------------------------------------------- atomic-disk specification

  type Image = map<int, Sector>

  /** Block `b` after the first `k` log slots are replayed: the last slot listing it wins. */
  function Replayed(start: nat, disk: seq<Sector>, blocks: seq<int>, k: nat, b: int): Sector
    requires start + k < |disk| && k <= |blocks| && 0 <= b < |disk|
  {
    if k == 0 then disk[b]
    else if blocks[k - 1] == b then disk[start + k]
    else Replayed(start, disk, blocks, k - 1, b)
  }

  /** What a reader would see at home block `b` after a crash now and a completed recovery. */
  function DurableAt(start: nat, disk: seq<Sector>, b: int): Sector
    requires DiskShape(start, disk) && 0 <= b < |disk|
  {
    var h := Head(disk[start]);
    Replayed(start, disk, h, |h|, b)
  }

  function DurableImage(start: nat, disk: seq<Sector>): Image
    requires DiskShape(start, disk)
  {
    map b | 0 <= b < |disk| && IsHome(start, |disk|, b) :: DurableAt(start, disk, b)
  }

  function CachedImage(start: nat, disk: seq<Sector>, cache: map<int, Sector>): Image {
    map b | 0 <= b < |disk| && IsHome(start, |disk|, b) :: if b in cache then cache[b] else disk[b]
  }

  function Durable(s: Sys): Image
    requires Shape(s)
  {
    DurableImage(s.start, s.disk)
  }

  /** What operations see: the cache over the disk; while down, what recovery will produce. */
  function Current(s: Sys): Image
    requires Shape(s)
  {
    if Down(s) then Durable(s) else CachedImage(s.start, s.disk, s.cache)
  }

  /** A disk whose transactions are atomic. */
  datatype Atomic = Atomic(durable: Image, current: Image, open: nat)

  datatype Event = Stutter | Open | Put(b: int, v: Sector) | Close | Commit | Fail

  predicate AtomicEnabled(a: Atomic, e: Event) {
    match e
    case Put(b, v) => a.open > 0 && b in a.current
    case Close => a.open > 0
    case Commit => a.open == 0
    case _ => true
  }

  function AtomicApply(a: Atomic, e: Event): Atomic
    requires AtomicEnabled(a, e)
  {
    match e
    case Stutter => a
    case Open => a.(open := a.open + 1)
    case Put(b, v) => a.(current := a.current[b := v])
    case Close => a.(open := a.open - 1)
    case Commit => a.(durable := a.current)
    case Fail => Atomic(a.durable, a.durable, 0)
  }

  function View(s: Sys): Atomic
    requires Shape(s)
  {
    Atomic(Durable(s), Current(s), |s.ops|)
  }

  /** The event of the atomic disk that a step stands for. */
  function EventOf(s: Sys, l: Step): Event
  {
    match l
    case BeginOp(_) => if Admits(s) then Open else Stutter
    case LogWrite(_, b, v) => Put(b, v)
    case EndOp(_) => Close
    case WriteHead => Commit
    case Crash => Fail
    case _ => Stutter
  }

  /** Replaying depends only on the log slots, the listed blocks and the block itself. */
  lemma {:induction false} ReplayedFrame(
    start: nat, d1: seq<Sector>, d2: seq<Sector>, blocks: seq<int>, k: nat, b: int)
    requires start + k < |d1| == |d2| && k <= |blocks| && 0 <= b < |d1|
    requires forall i :: start < i <= start + k ==> d1[i] == d2[i]
    requires b in blocks[..k] || d1[b] == d2[b]
    ensures Replayed(start, d1, blocks, k, b) == Replayed(start, d2, blocks, k, b)
  {
    if k > 0 && blocks[k - 1] != b {
      assert blocks[..k] == blocks[..k - 1] + [blocks[k - 1]];
      ReplayedFrame(start, d1, d2, blocks, k - 1, b);
    }
  }

  /** A block listed once is replayed from its slot; one not listed keeps its home copy. */
  lemma {:induction false} ReplayedAt(start: nat, disk: seq<Sector>, blocks: seq<int>, k: nat, b: int)
    requires start + k < |disk| && k <= |blocks| && 0 <= b < |disk| && Distinct(blocks)
    ensures forall i :: 0 <= i < k && blocks[i] == b ==> Replayed(start, disk, blocks, k, b) == disk[start + 1 + i]
    ensures (forall i :: 0 <= i < k ==> blocks[i] != b) ==> Replayed(start, disk, blocks, k, b) == disk[b]
  {
    if k > 0 {
      ReplayedAt(start, disk, blocks, k - 1, b);
    }
  }

  // A step that leaves the header, the log slots and the home blocks of `s` alone
  // leaves the durable image alone.
  lemma {:induction false} DurableSame(s: Sys, r: Sys)
    requires Shape(s) && Shape(r) && s.start == r.start && |s.disk| == |r.disk|
    requires Head(s.disk[s.start]) == Head(r.disk[r.start])
    requires var h := Head(s.disk[s.start]);
      && (forall i :: s.start < i <= s.start + |h| ==> s.disk[i] == r.disk[i])
      && (forall b :: 0 <= b < |s.disk| && IsHome(s.start, |s.disk|, b) ==> b in h || s.disk[b] == r.disk[b])
    ensures Durable(s) == Durable(r)
  {
    var h := Head(s.disk[s.start]);
    assert h[..|h|] == h;
    forall b | 0 <= b < |s.disk| && IsHome(s.start, |s.disk|, b)
      ensures DurableAt(s.start, s.disk, b) == DurableAt(r.start, r.disk, b)
    {
      ReplayedFrame(s.start, s.disk, r.disk, h, |h|, b);
    }
  }

  /** Once every listed block is installed, the home copies are the durable image. */
  lemma {:induction false} InstalledIsDurable(s: Sys, b: int)
    requires Inv(s) && IsHome(s.start, |s.disk|, b)
    requires Head(s.disk[s.start]) == s.lh && InstalledUpTo(s.start, s.disk, s.lh, |s.lh|)
    ensures DurableAt(s.start, s.disk, b) == s.disk[b]
  {
    ReplayedAt(s.start, s.disk, s.lh, |s.lh|, b);
    if i :| 0 <= i < |s.lh| && s.lh[i] == b {
    }
  }

  lemma {:induction false} WriteLogView(s: Sys)
    requires Inv(s) && s.phase.Logging? && s.phase.done < |s.lh|
    ensures Shape(DoWriteLog(s)) && View(DoWriteLog(s)) == View(s)
  {
    WriteLogKeeps(s);
    DurableSame(s, DoWriteLog(s));
  }

  lemma {:induction false} CachedSame(s: Sys, r: Sys)
    requires Shape(s) && Shape(r) && s.start == r.start && |s.disk| == |r.disk|
    requires forall b :: 0 <= b < |s.disk| && IsHome(s.start, |s.disk|, b) ==> Bread(s, b) == Bread(r, b)
    ensures CachedImage(s.start, s.disk, s.cache) == CachedImage(r.start, r.disk, r.cache)
  {
    assert forall b :: 0 <= b < |s.disk| && IsHome(s.start, |s.disk|, b) ==> Bread(s, b) == Bread(r, b);
  }

  /** A fully written log replays to the cached contents. */
  lemma {:induction false} LoggedReplay(
    start: nat, disk: seq<Sector>, cache: map<int, Sector>, pins: set<int>, lh: seq<int>, b: int)
    requires start + |lh| < |disk| && 0 <= b < |disk| && Distinct(lh)
    requires LoggedBetween(start, disk, cache, lh, 0, |lh|) && CacheInv(disk, cache, pins) && PinInv(lh, 0, pins)
    ensures Replayed(start, disk, lh, |lh|, b) == if b in cache then cache[b] else disk[b]
  {
    ReplayedAt(start, disk, lh, |lh|, b);
  }

  /** After the header write, every home block is durable with its cached contents. */
  lemma {:induction false} CommittedAt(
    start: nat, disk: seq<Sector>, cache: map<int, Sector>, pins: set<int>, lh: seq<int>, head: Sector, b: int)
    requires DiskShape(start, disk) && |lh| <= LOGBLOCKS && Distinct(lh)
    requires LoggedBetween(start, disk, cache, lh, 0, |lh|) && CacheInv(disk, cache, pins) && PinInv(lh, 0, pins)
    requires IsHeader(head) && Head(head) == lh && IsHome(start, |disk|, b)
    ensures DurableAt(start, disk[start := head], b) == if b in cache then cache[b] else disk[b]
  {
    LoggedReplay(start, disk, cache, pins, lh, b);
    assert lh[..|lh|] == lh;
    ReplayedFrame(start, disk, disk[start := head], lh, |lh|, b);
  }

  /** The header write is the commit point: what operations saw becomes durable. */
  lemma {:induction false} WriteHeadView(s: Sys)
    requires Inv(s) && s.phase == Logging(|s.lh|)
    ensures var r := DoWriteHead(s);
      Shape(r) && |s.ops| == 0 && View(r) == View(s).(durable := Current(s))
  {
    hide CacheInv, PinInv, LoggedBetween, InstalledUpTo, OpsInv, Distinct, AllHome, DurableAt;
    WriteHeadKeeps(s);
    var r := DoWriteHead(s);
    CachedSame(s, r);
    forall b | 0 <= b < |s.disk| && IsHome(s.start, |s.disk|, b)
      ensures DurableAt(r.start, r.disk, b) == Bread(s, b)
    {
      CommittedAt(s.start, s.disk, s.cache, s.pins, s.lh, r.disk[r.start], b);
    }
    assert Durable(r) == Current(s);
  }

  lemma {:induction false} CopyHomeDurable(s: Sys, r: Sys, t: nat)
    requires Inv(s) && t < |s.lh| && Head(s.disk[s.start]) == s.lh
    requires Shape(r) && r.start == s.start && r.disk == CopyHome(s, t).disk
    ensures Durable(r) == Durable(s)
  {
    DurableSame(s, r);
  }

  lemma {:induction false} CopyHomeCached(s: Sys, r: Sys, t: nat)
    requires Shape(s) && Shape(r) && t < |s.lh|
    requires s.lh[t] in s.cache && s.cache[s.lh[t]] == Bread(s, s.start + 1 + t)
    requires r.start == s.start && r.disk == CopyHome(s, t).disk && r.cache == CopyHome(s, t).cache
    ensures CachedImage(s.start, s.disk, s.cache) == CachedImage(r.start, r.disk, r.cache)
  {
    CachedSame(s, r);
  }

  lemma {:induction false} InstallView(s: Sys)
    requires Inv(s) && s.phase.Installing? && s.phase.done < |s.lh|
    ensures Shape(DoInstall(s)) && View(DoInstall(s)) == View(s)
  {
    InstallKeeps(s);
    var t := s.phase.done;
    LogBlockClean(s, s.start + 1 + t);
    CopyHomeDurable(s, DoInstall(s), t);
    CopyHomeCached(s, DoInstall(s), t);
  }

  lemma {:induction false} EraseAt(s: Sys, ph: Phase, b: int)
    requires Inv(s) && (s.phase == Installing(|s.lh|) || s.phase == Recovering(|s.lh|))
    requires 0 <= b < |s.disk| && IsHome(s.start, |s.disk|, b)
    ensures var r := EraseHead(s).(phase := ph);
      && DiskShape(r.start, r.disk)
      && DurableAt(s.start, s.disk, b) == DurableAt(r.start, r.disk, b) == s.disk[b] == Bread(s, b)
  {
    hide OpsInv;
    InstalledIsDurable(s, b);
    assert b !in s.pins;
    assert Head(EraseHead(s).disk[s.start]) == [];
  }

  lemma {:induction false} EraseView(s: Sys, ph: Phase)
    requires Inv(s) && (s.phase == Installing(|s.lh|) || s.phase == Recovering(|s.lh|))
    requires ph == if s.phase.Installing? then Cleared else Idle
    ensures var r := EraseHead(s).(phase := ph);
      Shape(r) && View(r) == View(s)
  {
    hide PhaseInv, CacheInv, PinInv, OpsInv, AllHome, Distinct, PutHead, DurableAt;
    if s.phase.Installing? { ClearKeeps(s); } else { ClearRecoveredKeeps(s); }
    var r := EraseHead(s).(phase := ph);
    forall b | 0 <= b < |s.disk| && IsHome(s.start, |s.disk|, b)
      ensures DurableAt(s.start, s.disk, b) == DurableAt(r.start, r.disk, b) == s.disk[b] == Bread(s, b)
    {
      EraseAt(s, ph, b);
    }
    assert Durable(r) == Durable(s);
    assert CachedImage(s.start, s.disk, s.cache) == Durable(s);
    CachedSame(s, r);
  }

  lemma {:induction false} RedoView(s: Sys)
    requires Inv(s) && s.phase.Recovering? && s.phase.done < |s.lh|
    ensures var r := CopyHome(s, s.phase.done).(phase := Recovering(s.phase.done + 1));
      Shape(r) && View(r) == View(s)
  {
    RedoKeeps(s);
    CopyHomeDurable(s, CopyHome(s, s.phase.done).(phase := Recovering(s.phase.done + 1)), s.phase.done);
  }

  lemma {:induction false} LogWriteView(s: Sys, op: nat, b: int, v: Sector)
    requires Inv(s) && CanLogWrite(s, op, b, v)
    ensures var r := DoLogWrite(s, op, b, v);
      Shape(r) && View(r) == View(s).(current := Current(s)[b := v]) && b in Current(s)
  {
    LogWriteKeeps(s, op, b, v);
    var r := DoLogWrite(s, op, b, v);
    assert Current(r) == Current(s)[b := v];
  }

  lemma {:induction false} FetchEvictView(s: Sys, l: Step)
    requires Inv(s) && Enabled(s, l) && (l.Fetch? || l.Evict?) && Shape(Apply(s, l))
    ensures View(Apply(s, l)) == View(s)
  {
    CachedSame(s, Apply(s, l));
  }

  lemma {:induction false} QuietView(s: Sys, l: Step)
    requires Inv(s) && Enabled(s, l) && Shape(Apply(s, l))
    requires l.BeginOp? || l.EndOp? || l.Finish? || l.Crash? || l.ReadHead?
    ensures AtomicEnabled(View(s), EventOf(s, l))
    ensures View(Apply(s, l)) == AtomicApply(View(s), EventOf(s, l))
  {
  }

  lemma {:induction false} InvShape(s: Sys)
    requires Inv(s)
    ensures Shape(s)
  {
  }

  /** Refinement: each step of the log is the step of the atomic disk it stands for. */
  lemma {:induction false} StepRefines(s: Sys, l: Step)
    requires Inv(s) && Enabled(s, l)
    ensures Inv(Apply(s, l))
    ensures AtomicEnabled(View(s), EventOf(s, l))
    ensures View(Apply(s, l)) == AtomicApply(View(s), EventOf(s, l))
  {
    hide Inv, AllHome, DiskShape, IsHeader, PutHead, Head, Durable, Current;
    InvKept(s, l);
    InvShape(Apply(s, l));
    match l
    case WriteLog => WriteLogView(s);
    case WriteHead => WriteHeadView(s);
    case Install => InstallView(s);
    case Clear => EraseView(s, Cleared);
    case Redo => RedoView(s);
    case ClearRecovered => EraseView(s, Idle);
    case LogWrite(op, b, v) => LogWriteView(s, op, b, v);
    case Fetch(_) => FetchEvictView(s, l);
    case Evict(_) => FetchEvictView(s, l);
    case _ => QuietView(s, l);
  }

  // ---------------------------------------------------------------- whole runs

  /** The state after a run of steps, if each of them can be taken in turn. */
  function Exec(s: Sys, ls: seq<Step>): Option<Sys> {
    if ls == [] then Some(s)
    else match Exec(s, Init(ls))
      case None => None
      case Some(m) => if Enabled(m, Last(ls)) then Some(Apply(m, Last(ls))) else None
  }

  function Events(s: Sys, ls: seq<Step>): seq<Event>
    requires Exec(s, ls).Some?
  {
    if ls == [] then [] else Events(s, Init(ls)) + [EventOf(Exec(s, Init(ls)).value, Last(ls))]
  }

  function AtomicExec(a: Atomic, es: seq<Event>): Option<Atomic> {
    if es == [] then Some(a)
    else match AtomicExec(a, Init(es))
      case None => None
      case Some(m) => if AtomicEnabled(m, Last(es)) then Some(AtomicApply(m, Last(es))) else None
  }

  /** Refinement over whole runs: every interleaving, with crashes anywhere, looks atomic. */
  lemma {:induction false} RunRefines(s: Sys, ls: seq<Step>)
    requires Inv(s) && Exec(s, ls).Some?
    ensures Inv(Exec(s, ls).value)
    ensures AtomicExec(View(s), Events(s, ls)) == Some(View(Exec(s, ls).value))
  {
    if ls != [] {
      RunRefines(s, Init(ls));
      StepRefines(Exec(s, Init(ls)).value, Last(ls));
      assert Init(Events(s, ls)) == Events(s, Init(ls));
    }
  }

  lemma {:induction false} ExecPrefix(s: Sys, ls: seq<Step>, k: nat)
    requires Exec(s, ls).Some? && k <= |ls|
    ensures Exec(s, ls[..k]).Some?
  {
    if k < |ls| {
      ExecPrefix(s, Init(ls), k);
      assert Init(ls)[..k] == ls[..k];
    } else {
      assert ls[..k] == ls;
    }
  }

  lemma {:induction false} ExecConcat(s: Sys, a: seq<Step>, c: seq<Step>)
    requires Exec(s, a).Some?
    ensures Exec(s, a + c) == Exec(Exec(s, a).value, c)
  {
    if c == [] {
      assert a + c == a;
    } else {
      ExecConcat(s, a, Init(c));
      assert Init(a + c) == a + Init(c);
    }
  }

  /** A state in which nothing is open and nothing is pending. */
  ghost predicate Fresh(s: Sys) {
    Inv(s) && s.phase == Idle && s.ops == []
  }

  lemma {:induction false} NoPins(lh: seq<int>, lo: nat, pins: set<int>)
    requires PinInv(lh, lo, pins) && lo >= |lh|
    ensures pins == {}
  {
    forall b ensures b !in pins {
    }
  }

  lemma {:induction false} FreshIsDurable(s: Sys)
    requires Fresh(s)
    ensures Current(s) == Durable(s)
  {
    NoPins(s.lh, 0, s.pins);
    assert Head(s.disk[s.start]) == [];
    forall b | 0 <= b < |s.disk| && IsHome(s.start, |s.disk|, b)
      ensures DurableAt(s.start, s.disk, b) == Bread(s, b)
    {
    }
  }

  /** The position of the last commit point of a run, or 0. */
  function LastCommit(ls: seq<Step>): (k: nat)
    ensures k <= |ls|
  {
    if ls == [] then 0
    else if Last(ls).WriteHead? then |ls| - 1
    else LastCommit(Init(ls))
  }

  lemma {:induction false} FreshFacts(s: Sys)
    requires Fresh(s)
    ensures Inv(s) && s.ops == [] && !Down(s)
  {
  }

  /** Only the commit changes what is durable. */
  lemma {:induction false} DurableStep(s: Sys, l: Step)
    requires Inv(s) && Enabled(s, l)
    ensures Inv(Apply(s, l)) && Durable(Apply(s, l)) == if l.WriteHead? then Current(s) else Durable(s)
    ensures l.WriteHead? ==> s.ops == [] && !Down(s)
  {
    hide Durable, Current, Apply, CacheInv, PinInv, OpsInv, AllHome, Distinct, LoggedBetween, InstalledUpTo;
    StepRefines(s, l);
  }

  /** After any run, what is durable is exactly what operations saw at the last commit point. */
  lemma {:induction false} DurableIsLastCommit(s: Sys, ls: seq<Step>)
    requires Fresh(s) && Exec(s, ls).Some?
    ensures Exec(s, ls[..LastCommit(ls)]).Some? && Inv(Exec(s, ls).value)
    ensures var m := Exec(s, ls[..LastCommit(ls)]).value;
      Inv(m) && m.ops == [] && !Down(m) && Durable(Exec(s, ls).value) == Current(m)
  {
    hide Inv, Durable, Current, Apply, Enabled;
    FreshFacts(s);
    ExecPrefix(s, ls, LastCommit(ls));
    RunRefines(s, ls);
    RunRefines(s, ls[..LastCommit(ls)]);
    if ls == [] {
      FreshIsDurable(s);
    } else {
      var m := Exec(s, Init(ls)).value;
      RunRefines(s, Init(ls));
      DurableStep(m, Last(ls));
      if Last(ls).WriteHead? {
        assert ls[..LastCommit(ls)] == Init(ls);
      } else {
        DurableIsLastCommit(s, Init(ls));
        assert Init(ls)[..LastCommit(ls)] == ls[..LastCommit(ls)];
      }
    }
  }

  /** The steps of a machine that is coming up again. */
  predicate IsRecoveryStep(l: Step) {
    l.Crash? || l.ReadHead? || l.Redo? || l.ClearRecovered? || l.Fetch? || l.Evict?
  }

  /** A crash followed by recovery steps, further crashes among them. */
  predicate IsRestart(rec: seq<Step>) {
    rec != [] && rec[0].Crash? && forall i :: 0 <= i < |rec| ==> IsRecoveryStep(rec[i])
  }

  lemma {:induction false} RestartRun(s: Sys, rec: seq<Step>)
    requires Exec(s, rec).Some? && IsRestart(rec)
    ensures Exec(s, rec).value.ops == []
  {
    if |rec| > 1 {
      RestartRun(s, Init(rec));
    } else {
      assert Last(rec) == Crash && Init(rec) == [];
    }
  }

  lemma {:induction false} LastCommitRecovery(ls: seq<Step>, rec: seq<Step>)
    requires forall i :: 0 <= i < |rec| ==> IsRecoveryStep(rec[i])
    ensures LastCommit(ls + rec) == LastCommit(ls)
  {
    if rec == [] {
      assert ls + rec == ls;
    } else {
      assert Init(ls + rec) == ls + Init(rec);
      LastCommitRecovery(ls, Init(rec));
    }
  }

  /**
   Crash atomicity. Crash after any run, then recover, crashing again any number
   of times on the way. Once the machine is up, the home blocks read exactly as
   they did at the last commit point of the run, where no operation was open.
   */
  lemma {:induction false} CrashAtomicity(s: Sys, ls: seq<Step>, rec: seq<Step>)
    requires Fresh(s) && IsRestart(rec)
    requires Exec(s, ls + rec).Some? && Exec(s, ls + rec).value.phase == Idle
    ensures Exec(s, ls[..LastCommit(ls)]).Some?
    ensures var m := Exec(s, ls[..LastCommit(ls)]).value;
      var up := Exec(s, ls + rec).value;
      Fresh(up) && Inv(m) && m.ops == [] && !Down(m) && Current(up) == Current(m)
  {
    DurableIsLastCommit(s, ls + rec);
    LastCommitRecovery(ls, rec);
    assert (ls + rec)[..LastCommit(ls)] == ls[..LastCommit(ls)];
    var up := Exec(s, ls + rec).value;
    assert up.ops == [] by {
      ExecPrefix(s, ls + rec, |ls|);
      assert (ls + rec)[..|ls|] == ls;
      ExecConcat(s, ls, rec);
      RestartRun(Exec(s, ls).value, rec);
    }
    FreshIsDurable(up);
  }

  // ---------------------------------------------------------------- admission over runs

  /** A block an operation may still add always finds room in the log. */
  lemma {:induction false} NewBlockFits(s: Sys, op: nat, b: int, v: Sector)
    requires Inv(s) && op < |s.ops| && IsHome(s.start, |s.disk|, b)
    requires b !in s.lh && s.ops[op] < MAXOPBLOCKS
    ensures CanLogWrite(s, op, b, v)
  {
    UnspentSplit(s.ops, op);
    UnspentBounds(RemoveAt(s.ops, op));
  }

  /**
   The panic of log_write, exactly: an operation within its budget panics if and
   only if the log is full, and then the block was already in the log and every
   reservation is spent.
   */
  lemma {:induction false} LogWritePanics(s: Sys, op: nat, b: int, v: Sector)
    requires Inv(s) && op < |s.ops| && IsHome(s.start, |s.disk|, b)
    requires b in s.lh || s.ops[op] < MAXOPBLOCKS
    ensures !CanLogWrite(s, op, b, v) <==> |s.lh| == LOGBLOCKS
    ensures !CanLogWrite(s, op, b, v) ==> b in s.lh && Unspent(s.ops) == 0
  {
    UnspentBounds(s.ops);
    if b !in s.lh {
      NewBlockFits(s, op, b, v);
    }
  }

  /** Three operations that open together and add `k` blocks between them, ten each. */
  function FillSteps(first: nat, v: Sector, k: nat): seq<Step> {
    if k == 0 then [BeginOp(0), BeginOp(0), BeginOp(0)]
    else FillSteps(first, v, k - 1) + [LogWrite((k - 1) / MAXOPBLOCKS, first + k - 1, v)]
  }

  function Spent(k: nat, op: nat): nat {
    if k <= op * MAXOPBLOCKS then 0
    else if k >= (op + 1) * MAXOPBLOCKS then MAXOPBLOCKS
    else k - op * MAXOPBLOCKS
  }

  ghost predicate Filled(s: Sys, r: Sys, first: nat, k: nat) {
    && r.start == s.start && r.disk == s.disk && r.phase == Idle && r.waiting == {}
    && r.ops == [Spent(k, 0), Spent(k, 1), Spent(k, 2)]
    && r.lh == seq(k, i => first + i)
  }

  lemma {:induction false} OpenThree(s: Sys)
    requires Fresh(s) && s.waiting == {}
    ensures Exec(s, FillSteps(0, Sector([]), 0)) == Some(s.(ops := [0, 0, 0]))
  {
    var a, b, c := s.(ops := [0]), s.(ops := [0, 0]), s.(ops := [0, 0, 0]);
    var ls := [BeginOp(0), BeginOp(0), BeginOp(0)];
    assert [] + [0] == [0] && [0] + [0] == [0, 0] && [0, 0] + [0] == [0, 0, 0];
    assert Apply(s, BeginOp(0)) == a && Apply(a, BeginOp(0)) == b && Apply(b, BeginOp(0)) == c;
    assert Init(ls[..1]) == [] && Last(ls[..1]) == BeginOp(0);
    assert Exec(s, ls[..1]) == Some(a);
    assert Init(ls[..2]) == ls[..1] && Last(ls[..2]) == BeginOp(0);
    assert Exec(s, ls[..2]) == Some(b);
    assert Init(ls) == ls[..2] && Last(ls) == BeginOp(0);
  }

  lemma {:induction false} FillStart(s: Sys, first: nat)
    requires Fresh(s) && s.waiting == {}
    ensures var r := Exec(s, FillSteps(0, Sector([]), 0));
      r.Some? && Inv(r.value) && Filled(s, r.value, first, 0)
  {
    OpenThree(s);
    RunRefines(s, FillSteps(0, Sector([]), 0));
  }

  lemma {:induction false} FillStep(s: Sys, m: Sys, first: nat, v: Sector, k: nat)
    requires 0 < k <= LOGBLOCKS && Shape(m) && Filled(s, m, first, k - 1)
    requires IsHome(s.start, |s.disk|, first + k - 1)
    ensures var op := (k - 1) / MAXOPBLOCKS;
      CanLogWrite(m, op, first + k - 1, v) && Filled(s, DoLogWrite(m, op, first + k - 1, v), first, k)
  {
    assert first + k - 1 !in m.lh;
  }

  lemma {:induction false} LogWriteSnoc(s: Sys, a: seq<Step>, m: Sys, op: nat, b: int, v: Sector)
    requires Inv(s) && Exec(s, a) == Some(m) && Shape(m) && CanLogWrite(m, op, b, v)
    ensures Exec(s, a + [LogWrite(op, b, v)]) == Some(DoLogWrite(m, op, b, v))
    ensures Inv(DoLogWrite(m, op, b, v))
  {
    hide Inv, View, Events, AtomicExec;
    assert Init(a + [LogWrite(op, b, v)]) == a;
    RunRefines(s, a + [LogWrite(op, b, v)]);
  }

  lemma {:induction false} FillRun(s: Sys, first: nat, v: Sector, k: nat)
    requires Fresh(s) && s.waiting == {} && k <= LOGBLOCKS
    requires forall b :: first <= b < first + LOGBLOCKS ==> IsHome(s.start, |s.disk|, b)
    ensures Exec(s, FillSteps(first, v, k)).Some?
    ensures Inv(Exec(s, FillSteps(first, v, k)).value)
    ensures Filled(s, Exec(s, FillSteps(first, v, k)).value, first, k)
  {
    hide Inv, Exec, Filled;
    var ls := FillSteps(first, v, k);
    if k == 0 {
      assert ls == FillSteps(0, Sector([]), 0);
      FillStart(s, first);
    } else {
      FillRun(s, first, v, k - 1);
      var m := Exec(s, FillSteps(first, v, k - 1)).value;
      InvReady(m);
      FillStep(s, m, first, v, k);
      LogWriteSnoc(s, FillSteps(first, v, k - 1), m, (k - 1) / MAXOPBLOCKS, first + k - 1, v);
    }
  }

  /** The panic on an absorbed write is reachable: three operations that use their budgets in full. */
  lemma {:induction false} AbsorbedWriteCanPanic(s: Sys, first: nat, v: Sector)
    requires Fresh(s) && s.waiting == {}
    requires forall b :: first <= b < first + LOGBLOCKS ==> IsHome(s.start, |s.disk|, b)
    ensures Exec(s, FillSteps(first, v, LOGBLOCKS)).Some?
    ensures var r := Exec(s, FillSteps(first, v, LOGBLOCKS)).value;
      |r.ops| == 3 && first in r.lh && !CanLogWrite(r, 0, first, v)
  {
    FillRun(s, first, v, LOGBLOCKS);
    var r := Exec(s, FillSteps(first, v, LOGBLOCKS)).value;
    assert r.lh[0] == first;
  }

  /** Nobody sleeps in begin_op without a commit or an open operation to wake it. */
  lemma {:induction false} WaiterHasWaker(s: Sys)
    requires Inv(s) && s.waiting != {}
    ensures Committing(s) || s.ops != []
    ensures !Admits(s)
  {
    if s.ops == [] && s.phase == Idle {
      assert s.lh == [] && |s.lh| + 1 * MAXOPBLOCKS <= LOGBLOCKS;
    }
  }

  /** No operation is open while the log is committing. */
  lemma {:induction false} CommitExcludesOps(s: Sys, ls: seq<Step>)
    requires Inv(s) && Exec(s, ls).Some?
    ensures var r := Exec(s, ls).value;
      && (Committing(r) ==> r.ops == [])
      && |r.lh| + Unspent(r.ops) <= LOGBLOCKS
      && (r.waiting != {} ==> Committing(r) || r.ops != [])
  {
    RunRefines(s, ls);
    var r := Exec(s, ls).value;
    if r.waiting != {} {
      WaiterHasWaker(r);
    }
  }

  /** What a booting machine finds on a disk with a well-formed header. */
  function Boot(start: nat, disk: seq<Sector>): Sys {
    Sys(start, disk, map[], {}, [], [], {}, Booting)
  }

  lemma {:induction false} BootInv(start: nat, disk: seq<Sector>)
    requires DiskShape(start, disk)
    requires AllHome(start, |disk|, Head(disk[start])) && Distinct(Head(disk[start]))
    ensures Inv(Boot(start, disk))
  {
  }

  // ---------------------------------------------------------------- recovery can be completed

  /** Copying `n` blocks home, then erasing the header. */
  function RedoSteps(n: nat): seq<Step> {
    if n == 0 then [] else RedoSteps(n - 1) + [Redo]
  }

  lemma {:induction false} ExecSnoc(s: Sys, ls: seq<Step>, l: Step)
    requires Exec(s, ls).Some? && Enabled(Exec(s, ls).value, l)
    ensures Exec(s, ls + [l]) == Some(Apply(Exec(s, ls).value, l))
  {
    hide Enabled, Apply;
    assert Init(ls + [l]) == ls && Last(ls + [l]) == l;
  }

  lemma {:induction false} RedoRun(s: Sys, ls: seq<Step>, n: nat)
    requires Inv(s) && Exec(s, ls).Some? && Exec(s, ls).value.phase == Recovering(0)
    requires n <= |Exec(s, ls).value.lh|
    ensures var m, r := Exec(s, ls).value, Exec(s, ls + RedoSteps(n));
      r.Some? && r.value.phase == Recovering(n) && r.value.lh == m.lh
    decreases n
  {
    hide Inv, Exec, Shape;
    if n == 0 {
      assert ls + RedoSteps(0) == ls;
    } else {
      RedoRun(s, ls, n - 1);
      var steps := ls + RedoSteps(n - 1);
      RunRefines(s, steps);
      InvShape(Exec(s, steps).value);
      ExecSnoc(s, steps, Redo);
      assert ls + RedoSteps(n) == steps + [Redo];
    }
  }

  /** Crash, read the header, copy what it lists, erase it. */
  function Restart(n: nat): seq<Step> {
    [Crash, ReadHead] + RedoSteps(n) + [ClearRecovered]
  }

  lemma {:induction false} AllRedo(n: nat)
    ensures forall l :: l in RedoSteps(n) ==> l == Redo
  {
    if n > 0 {
      AllRedo(n - 1);
    }
  }

  lemma {:induction false} RestartIs(n: nat)
    ensures IsRestart(Restart(n))
  {
    AllRedo(n);
    var r := Restart(n);
    forall i | 0 <= i < |r| ensures IsRecoveryStep(r[i]) {
      if 2 <= i < |r| - 1 {
        assert r[i] in RedoSteps(n);
      }
    }
  }

  /** From every state, whatever was going on, a crash can be followed by a recovery that completes. */
  lemma {:induction false} RecoveryCompletes(s: Sys) returns (rec: seq<Step>)
    requires Inv(s)
    ensures IsRestart(rec) && Exec(s, rec).Some? && Exec(s, rec).value.phase == Idle
  {
    hide Inv, Exec;
    CrashKeeps(s);
    InvShape(s);
    NoSteps(s);
    ExecSnoc(s, [], Crash);
    var m := Apply(s, Crash);
    assert [] + [Crash] == [Crash];
    InvShape(m);
    ExecSnoc(s, [Crash], ReadHead);
    assert [Crash] + [ReadHead] == [Crash, ReadHead];
    var r := Apply(m, ReadHead);
    RedoRun(s, [Crash, ReadHead], |r.lh|);
    var steps := [Crash, ReadHead] + RedoSteps(|r.lh|);
    RunRefines(s, steps);
    InvShape(Exec(s, steps).value);
    ExecSnoc(s, steps, ClearRecovered);
    rec := Restart(|r.lh|);
    RestartIs(|r.lh|);
  }

  lemma {:induction false} NoSteps(s: Sys)
    ensures Exec(s, []) == Some(s)
  {
  }
}
