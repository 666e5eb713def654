/**
 The code of `kernel/log.c`, method by method, over the fields it changes in
 place. Each disk write is matched, where it happens, with the step of `Wal` it
 is, so whatever the methods do is a run of that machine.
 */
module LogCode {
  import opened Common
  import opened Wal

  /** A run stays on its disk. */
  lemma {:induction false} RunDisk(s: Sys, ls: seq<Step>)
    requires Exec(s, ls).Some?
    ensures Exec(s, ls).value.start == s.start && |Exec(s, ls).value.disk| == |s.disk|
  {
    hide Enabled, Apply;
    if ls != [] {
      RunDisk(s, Init(ls));
      StepDisk(Exec(s, Init(ls)).value, Last(ls));
    }
  }

  lemma {:induction false} StepDisk(s: Sys, l: Step)
    requires Enabled(s, l)
    ensures Apply(s, l).start == s.start && |Apply(s, l).disk| == |s.disk|
  {
  }

  /** An event that neither writes nor commits leaves both disks. */
  lemma {:induction false} QuietEvent(s: Sys, s': Sys, e: Event)
    requires Shape(s) && Shape(s') && (e.Stutter? || e.Close?) && AtomicEnabled(View(s), e)
    requires View(s') == AtomicApply(View(s), e)
    ensures Durable(s') == Durable(s) && Current(s') == Current(s)
  {
    hide Shape, Durable, Current;
  }

  lemma {:induction false} EndOpIs(s: Sys, op: nat)
    requires Shape(s) && op < |s.ops| && !Committing(s)
    ensures Enabled(s, Step.EndOp(op)) && EventOf(s, Step.EndOp(op)).Close?
    ensures |RemoveAt(s.ops, op)| == |s.ops| - 1
    ensures var s', rest := Apply(s, Step.EndOp(op)), RemoveAt(s.ops, op);
      && s' == (if |s.ops| == 1 then s.(ops := rest, phase := Logging(0)) else s.(ops := rest, waiting := {}))
      && (Committing(s') <==> |s.ops| == 1)
  {
    hide Shape;
  }

  lemma {:induction false} FinishIs(s: Sys)
    requires Enabled(s, Step.Finish)
    ensures Apply(s, Step.Finish) == s.(phase := Idle, waiting := {}) && !Committing(Apply(s, Step.Finish))
    ensures EventOf(s, Step.Finish).Stutter? && !s.phase.Idle?
  {
    hide Shape;
  }

  /** What the three header writes do to the disk and the phase. */
  lemma {:induction false} HeadIs(s: Sys, next: Step)
    requires Ready(s) && Enabled(s, next)
    requires next == Step.WriteHead || next == Step.Clear || next == Step.ClearRecovered
    ensures s.start < |s.disk| && IsHeader(s.disk[s.start]) && |s.lh| <= LOGBLOCKS
    ensures s.start in s.cache ==> s.cache[s.start] == s.disk[s.start]
    ensures var lh := if next == Step.WriteHead then s.lh else [];
      var h := PutHead(s.disk[s.start], lh);
      var phase := if next == Step.WriteHead then Installing(0) else if next == Step.Clear then Cleared else Idle;
      && Apply(s, next) == s.(disk := s.disk[s.start := h], cache := s.cache[s.start := h], lh := lh, phase := phase)
      && Committing(Apply(s, next)) == Committing(s)
  {
  }

  lemma {:induction false} HeadView(s: Sys, s': Sys, next: Step)
    requires Shape(s) && Shape(s') && AtomicEnabled(View(s), EventOf(s, next))
    requires View(s') == AtomicApply(View(s), EventOf(s, next))
    requires next == Step.WriteHead || next == Step.Clear || next == Step.ClearRecovered
    ensures Current(s') == Current(s) && Durable(s') == if next == Step.WriteHead then Current(s) else Durable(s)
  {
    hide Shape, Durable, Current;
  }

  /** What one turn of install_trans does, after a commit or in recovery. */
  lemma {:induction false} CopyIs(s: Sys, l: Step)
    requires Shape(s) && l == (if s.phase.Recovering? then Step.Redo else Step.Install)
    requires (s.phase.Recovering? || s.phase.Installing?) && s.phase.done < |s.lh|
    ensures var t := s.phase.done; 0 <= s.lh[t] < |s.disk| && s.start + t + 1 < |s.disk|
    ensures Enabled(s, l) && EventOf(s, l).Stutter? && Committing(Apply(s, l)) == Committing(s)
    ensures var t := s.phase.done; var b := s.start + t + 1;
      var v := if b in s.cache then s.cache[b] else s.disk[b];
      var m := s.(disk := s.disk[s.lh[t] := v], cache := s.cache[s.lh[t] := v]);
      Apply(s, l) == if s.phase.Recovering? then m.(phase := Recovering(t + 1))
                     else m.(pins := s.pins - {s.lh[t]}, phase := Installing(t + 1))
  {
    hide PutHead, Head;
    assert IsHome(s.start, |s.disk|, s.lh[s.phase.done]);
  }

  class Log {
    const start: nat
    var disk: seq<Sector>
    var cache: map<int, Sector>
    var pins: set<int>
    /** log.lh.block[..log.lh.n] */
    var lh: seq<int>
    var outstanding: nat
    var committing: bool
    /** Processes asleep on &log. */
    var sleepers: set<nat>

    // The run of the step machine that the calls so far have produced.
    ghost const origin: Sys
    ghost var trace: seq<Step>
    ghost var now: Sys

    ghost predicate Tracked()
      reads this`trace, this`now
    {
      Inv(origin) && Exec(origin, trace) == Some(now) && Inv(now) && Ready(now)
    }

    ghost predicate Valid()
      reads this
    {
      && Tracked()
      && now.start == start && now.disk == disk && now.cache == cache && now.pins == pins
      && now.lh == lh && |now.ops| == outstanding && now.waiting == sleepers
      && committing == Committing(now)
    }

    lemma {:induction false} TrackedReady()
      requires Tracked()
      ensures Ready(now) && Shape(now)
    {
    }

    lemma {:induction false} ValidFacts()
      requires Valid()
      ensures Tracked() && Shape(now)
      ensures now.start == start && now.disk == disk && now.cache == cache && now.pins == pins
      ensures now.lh == lh && |now.ops| == outstanding && now.waiting == sleepers && committing == Committing(now)
      ensures now.phase == Logging(|lh|) && lh != [] ==> Enabled(now, Step.WriteHead)
      ensures now.phase == Installing(|lh|) ==> Enabled(now, Step.Clear)
      ensures now.phase == Recovering(|lh|) ==> Enabled(now, Step.ClearRecovered)
      ensures now.phase.Cleared? || (now.phase == Logging(0) && lh == []) ==> Enabled(now, Finish)
      ensures now.phase.Logging? || now.phase.Installing? ==> committing
      ensures !now.phase.Idle? ==> now.ops == []
      ensures now.ops != [] ==> !Committing(now)
      ensures now.phase == Idle && now.ops == [] ==> Fresh(now)
    {
      hide Inv, Exec;
    }

    lemma {:induction false} SameSize()
      requires Valid()
      ensures Wal.Shape(now) && |disk| == |origin.disk| && now.disk == disk && now.start == start
    {
      hide Inv, Exec;
      RunDisk(origin, trace);
    }

    lemma {:induction false} NowIs()
      requires Tracked() && now.start == start && now.disk == disk && now.cache == cache && now.pins == pins
      requires now.lh == lh && |now.ops| == outstanding && now.waiting == sleepers && committing == Committing(now)
      ensures Valid()
    {
    }

    /** A machine coming up on a disk whose log header is well formed. */
    constructor (start: nat, disk: seq<Sector>)
      requires DiskShape(start, disk)
      requires AllHome(start, |disk|, Head(disk[start])) && Distinct(Head(disk[start]))
      ensures Valid() && now == Boot(start, disk) == origin && trace == [] && this.start == start
    {
      this.start, this.disk := start, disk;
      cache, pins, lh, outstanding, committing, sleepers := map[], {}, [], 0, false, {};
      origin, now, trace := Boot(start, disk), Boot(start, disk), [];
      BootInv(start, disk);
      InvReady(Boot(start, disk));
    }

    ghost method Take(l: Step)
      requires Tracked() && Enabled(now, l)
      modifies this`trace, this`now
      ensures Tracked() && Shape(now) && trace == old(trace) + [l] && now == Apply(old(now), l)
      ensures AtomicEnabled(View(old(now)), EventOf(old(now), l))
      ensures View(now) == AtomicApply(View(old(now)), EventOf(old(now), l))
    {
      hide Inv, Durable, Current;
      StepRefines(now, l);
      trace := trace + [l];
      assert Init(trace) == old(trace);
      now := Apply(now, l);
      InvReady(now);
    }

    method Bread(b: int) returns (data: Sector)
      requires 0 <= b < |disk|
      ensures data == if b in cache then cache[b] else disk[b]
    {
      data := if b in cache then cache[b] else disk[b];
    }

    method Bwrite(b: int, data: Sector)
      requires 0 <= b < |disk|
      modifies this`disk, this`cache
      ensures disk == old(disk)[b := data] && cache == old(cache)[b := data]
    {
      disk := disk[b := data];
      cache := cache[b := data];
    }

    /** write_log: copy the modified blocks from the cache to the log. */
    method WriteLogBlocks()
      requires Valid() && now.phase == Logging(0)
      modifies this
      ensures Valid() && now.phase == Logging(|lh|) && lh == old(lh)
      ensures old(trace) <= trace && Durable(now) == old(Durable(now)) && Current(now) == old(Current(now))
    {
      hide Inv, Durable, Current, Exec;
      var tail := 0;
      while tail < |lh|
        invariant 0 <= tail <= |lh|
        invariant Valid() && now.phase == Logging(tail) && lh == old(lh)
        invariant old(trace) <= trace && Durable(now) == old(Durable(now)) && Current(now) == old(Current(now))
      {
        var from := Bread(lh[tail]);
        Bwrite(start + 1 + tail, from);
        Take(Step.WriteLog);
        tail := tail + 1;
      }
    }

    /** The loop of write_head that fills the header buffer. */
    method FillHeader(buf: Sector) returns (hb: Sector)
      requires IsHeader(buf) && |lh| <= LOGBLOCKS
      ensures hb == PutHead(buf, lh)
    {
      var w := buf.words[0 := |lh|];
      var i := 0;
      while i < |lh|
        invariant 0 <= i <= |lh| && |w| == WORDS
        invariant w == [|lh|] + lh[..i] + buf.words[1 + i..]
      {
        w := w[1 + i := lh[i]];
        i := i + 1;
      }
      assert lh[..i] == lh;
      hb := Sector(w);
    }

    /** read_head: copy the header block into the in-memory header. */
    method ReadHead()
      requires Valid() && now.phase == Booting
      modifies this`lh, this`trace, this`now
      ensures Valid() && now.phase == Recovering(0) && trace == old(trace) + [Step.ReadHead]
      ensures lh == Head(disk[start]) && Durable(now) == old(Durable(now)) && Current(now) == old(Current(now))
    {
      hide Inv, Durable, Current, Exec;
      var buf := Bread(start);
      var n := buf.words[0];
      var blocks := [];
      var i := 0;
      while i < n
        invariant 0 <= i <= n && blocks == buf.words[1..1 + i]
      {
        blocks := blocks + [buf.words[1 + i]];
        i := i + 1;
      }
      lh := blocks;
      Take(Step.ReadHead);
    }

    /** One turn of the loop of install_trans. */
    method InstallOne(tail: nat, recovering: bool)
      requires Valid() && tail < |lh|
      requires now.phase == if recovering then Recovering(tail) else Installing(tail)
      modifies this
      ensures Valid() && lh == old(lh)
      ensures now.phase == if recovering then Recovering(tail + 1) else Installing(tail + 1)
      ensures old(trace) <= trace && Durable(now) == old(Durable(now)) && Current(now) == old(Current(now))
    {
      hide *;
      ValidFacts();
      CopyIs(now, if recovering then Step.Redo else Step.Install);
      ghost var m := now;
      var lbuf := Bread(start + tail + 1);
      Bwrite(lh[tail], lbuf);
      if recovering {
        Take(Step.Redo);
      } else {
        pins := pins - {lh[tail]};
        Take(Step.Install);
      }
      QuietEvent(m, now, EventOf(m, if recovering then Step.Redo else Step.Install));
      NowIs();
    }

    /** install_trans: copy committed blocks from the log to their homes. */
    method InstallTrans(recovering: bool)
      requires Valid() && now.phase == if recovering then Recovering(0) else Installing(0)
      modifies this
      ensures Valid() && lh == old(lh)
      ensures now.phase == if recovering then Recovering(|lh|) else Installing(|lh|)
      ensures old(trace) <= trace && Durable(now) == old(Durable(now)) && Current(now) == old(Current(now))
    {
      hide Inv, Durable, Current, Exec;
      var tail := 0;
      while tail < |lh|
        invariant 0 <= tail <= |lh|
        invariant Valid() && lh == old(lh)
        invariant now.phase == if recovering then Recovering(tail) else Installing(tail)
        invariant old(trace) <= trace && Durable(now) == old(Durable(now)) && Current(now) == old(Current(now))
      {
        InstallOne(tail, recovering);
        tail := tail + 1;
      }
    }

    /** write_head: copy the in-memory header into the header block. */
    method WriteHead(ghost next: Step)
      requires Tracked() && Enabled(now, next)
      requires now.start == start && now.disk == disk && now.cache == cache
      requires now.pins == pins && |now.ops| == outstanding && now.waiting == sleepers
      requires if next == Step.WriteHead then now.lh == lh else lh == []
      requires next == Step.WriteHead || next == Step.Clear || next == Step.ClearRecovered
      requires committing == Committing(now)
      modifies this`disk, this`cache, this`trace, this`now
      ensures Valid() && trace == old(trace) + [next] && now == Apply(old(now), next)
      ensures now.ops == old(now.ops)
      ensures now.phase == if next == Step.WriteHead then Installing(0) else if next == Step.Clear then Cleared
          else Idle
      ensures Current(now) == old(Current(now))
      ensures Durable(now) == if next == Step.WriteHead then old(Current(now)) else old(Durable(now))
    {
      hide *;
      TrackedReady();
      HeadIs(now, next);
      var buf := Bread(start);
      var hb := FillHeader(buf);
      Bwrite(start, hb);
      ghost var m := now;
      Take(next);
      HeadView(m, now, next);
      NowIs();
    }

    /** commit, from the moment no operation is open. */
    method Commit()
      requires Valid() && now.phase == Logging(0)
      modifies this
      ensures Valid() && Enabled(now, Finish) && lh == [] && old(trace) <= trace
      ensures Current(now) == old(Current(now))
      ensures old(lh) != [] ==> Durable(now) == old(Current(now))
      ensures old(lh) == [] ==> now == old(now)
    {
      hide *;
      ValidFacts();
      if |lh| > 0 {
        WriteLogBlocks();
        ValidFacts();
        WriteHead(Step.WriteHead);
        InstallTrans(false);
        ValidFacts();
        lh := [];
        WriteHead(Step.Clear);
        ValidFacts();
      }
    }

    /** recover_from_log: afterwards every home block holds its durable contents. */
    method RecoverFromLog()
      requires Valid() && now.phase == Booting
      modifies this
      ensures Valid() && Fresh(now) && old(trace) <= trace
      ensures Durable(now) == Current(now) == old(Durable(now))
    {
      hide *;
      ReadHead();
      ValidFacts();
      InstallTrans(true);
      ValidFacts();
      lh := [];
      WriteHead(Step.ClearRecovered);
      ValidFacts();
      FreshIsDurable(now);
    }

    /** One turn of the loop of begin_op: either admitted or put to sleep. */
    method BeginOp(p: nat) returns (admitted: bool)
      requires Valid() && !Down(now) && p !in sleepers
      modifies this
      ensures Valid() && old(trace) <= trace
      ensures admitted <==> old(Admits(now))
      ensures admitted <==> !old(committing) && |old(lh)| + (old(outstanding) + 1) * MAXOPBLOCKS <= LOGBLOCKS
      ensures admitted ==> now.ops == old(now.ops) + [0] && sleepers == old(sleepers)
      ensures lh == old(lh)
      ensures !admitted ==> sleepers == old(sleepers) + {p} && outstanding == old(outstanding)
      ensures Durable(now) == old(Durable(now)) && Current(now) == old(Current(now))
    {
      hide Inv, Durable, Current, Exec;
      if committing {
        sleepers := sleepers + {p};
        admitted := false;
      } else if |lh| + (outstanding + 1) * MAXOPBLOCKS > LOGBLOCKS {
        sleepers := sleepers + {p};
        admitted := false;
      } else {
        outstanding := outstanding + 1;
        admitted := true;
      }
      Take(Step.BeginOp(p));
    }

    /** The absorption loop of log_write. */
    method Find(b: int) returns (i: nat)
      ensures i <= |lh| && (i < |lh| ==> lh[i] == b) && (i == |lh| ==> b !in lh)
    {
      i := 0;
      while i < |lh|
        invariant i <= |lh| && b !in lh[..i]
      {
        if lh[i] == b {
          break;
        }
        i := i + 1;
      }
    }

    /** log_write by open operation `op`; false stands for its panics. */
    method LogWrite(ghost op: nat, b: int, data: Sector) returns (ok: bool)
      requires Valid() && IsHome(start, |disk|, b)
      requires outstanding > 0 ==> op < |now.ops| && (b in lh || now.ops[op] < MAXOPBLOCKS)
      modifies this
      ensures Valid() && old(trace) <= trace
      ensures ok <==> old(outstanding) >= 1 && |old(lh)| < LOGBLOCKS
      ensures !ok ==> now == old(now)
      ensures ok ==> Current(now) == old(Current(now))[b := data] && Durable(now) == old(Durable(now))
      ensures ok ==> lh == if b in old(lh) then old(lh) else old(lh) + [b]
      ensures ok ==> outstanding == old(outstanding) && |disk| == |old(disk)| && now.phase == old(now.phase)
      ensures ok ==> now.ops == if b in old(lh) then old(now.ops) else old(now.ops)[op := old(now.ops)[op] + 1]
    {
      hide Inv, Durable, Current, Exec;
      if |lh| >= LOGBLOCKS || outstanding < 1 {
        return false;
      }
      var i := Find(b);
      cache := cache[b := data];
      if i == |lh| {
        pins := pins + {b};
        lh := lh + [b];
      } else {
        lh := lh[i := b];
      }
      Take(Step.LogWrite(op, b, data));
      ok := true;
    }

    /** end_op of open operation `op`; the last one commits. */
    method EndOp(ghost op: nat)
      requires Valid() && op < |now.ops|
      modifies this
      ensures Valid() && old(trace) <= trace
      ensures now.ops == RemoveAt(old(now.ops), op)
      ensures Current(now) == old(Current(now))
      ensures old(outstanding) == 1 ==> Fresh(now) && Durable(now) == old(Current(now)) && sleepers == {}
      ensures old(outstanding) > 1 ==> Durable(now) == old(Durable(now)) && sleepers == {}
    {
      hide *;
      ValidFacts();
      EndOpIs(now, op);
      outstanding := outstanding - 1;
      if outstanding == 0 {
        committing := true;
        Take(Step.EndOp(op));
        QuietEvent(old(now), now, EventOf(old(now), Step.EndOp(op)));
        NowIs();
        Commit();
        FinishIs(now);
        ValidFacts();
        committing := false;
        sleepers := {};
        ghost var m := now;
        Take(Step.Finish);
        QuietEvent(m, now, EventOf(m, Step.Finish));
        NowIs();
        ValidFacts();
        FreshIsDurable(now);
      } else {
        sleepers := {};
        Take(Step.EndOp(op));
        QuietEvent(old(now), now, EventOf(old(now), Step.EndOp(op)));
        NowIs();
      }
    }
  }
}
