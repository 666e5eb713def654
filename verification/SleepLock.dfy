/**
 sleep and wakeup on any number of channels and spin locks, with yield, kill and the
 scheduler (`kernel/proc.c`), one lock operation or switch at a time, on any number of
 processes and CPUs; and the sleep locks (`kernel/sleeplock.c`) on top of them. A spin
 lock belongs to the CPU that took it, and goes with the CPU when the scheduler
 switches to a process and back.
 */
module SleepLock {
  import opened Common

  /**
   Where a process is. `Free` is outside all spin locks: with a lock, it is at the end
   of sleep, about to take that lock again. `Hold` has a spin lock and decides what to
   do. The `Yield` places belong to yield, the `Sleep` places to sleep, the `Wake`
   places to wakeup. Places that end in `Off` are those of a process on no CPU.
   */
  datatype Pc =
    | Free(want: Option<nat>) | YieldSet(want: Option<nat>) | YieldOff(want: Option<nat>) | YieldOn(want: Option<nat>)
    | Hold(l: nat)
    | SleepWant(l: nat, ch: nat) | SleepBoth(l: nat, ch: nat) | SleepOnly(l: nat, ch: nat)
    | SleepSet(l: nat, ch: nat) | SleepOff(l: nat, ch: nat) | SleepOn(l: nat, ch: nat)
    | Wake(l: nat, ch: nat, q: nat) | WakeAt(l: nat, ch: nat, q: nat)

  datatype St = Sleeping | Runnable | Running

  /** A CPU looks for a process, has one's lock, runs one, or has just come back from one. */
  datatype Cpu = Look(q: nat) | LookAt(q: nat) | On(q: nat) | Back(q: nat)

  /**
   `at` is the CPU a process is on, the other way round from `cpu`. Channel `ch` goes
   with spin lock `lockOf[ch]`, and those who sleep on it wait for `cond[ch]`. The
   condition of a channel with `isLock` is that the sleep lock is free. `due[ch]`: the
   condition has become true and no wakeup has begun since. `clear[ch]`: a wakeup has
   finished since the spin lock was taken. `held[p]` are the sleep locks `p` has.
   */
  datatype Sys = Sys(
    pc: seq<Pc>, st: seq<St>, chan: seq<Option<nat>>, plock: seq<Option<nat>>, cpu: seq<Cpu>, at: seq<Option<nat>>,
    lk: seq<Option<nat>>, lockOf: seq<nat>, isLock: seq<bool>,
    cond: seq<bool>, due: seq<bool>, clear: seq<bool>, held: seq<set<nat>>, owner: seq<Option<nat>>)

  predicate IsSleep(k: Pc) {
    k.SleepWant? || k.SleepBoth? || k.SleepOnly? || k.SleepSet? || k.SleepOff? || k.SleepOn?
  }

  predicate Waking(k: Pc) { k.Wake? || k.WakeAt? }

  /** The locks and channels of a place exist and go together. */
  predicate PcOk(k: Pc, procs: nat, locks: nat, lockOf: seq<nat>) {
    if IsSleep(k) || Waking(k) then
      k.ch < |lockOf| && lockOf[k.ch] == k.l && k.l < locks && (k.WakeAt? ==> k.q < procs)
    else if k.Hold? then k.l < locks
    else k.want.Some? ==> k.want.value < locks
  }

  predicate Sizes(s: Sys) {
    && |s.st| == |s.pc| && |s.chan| == |s.pc| && |s.plock| == |s.pc| && |s.at| == |s.pc| && |s.held| == |s.pc|
    && |s.isLock| == |s.lockOf| && |s.cond| == |s.lockOf| && |s.due| == |s.lockOf|
    && |s.clear| == |s.lockOf| && |s.owner| == |s.lockOf| && |s.pc| > 0
  }

  predicate Shape(s: Sys) {
    && Sizes(s)
    && (forall c :: 0 <= c < |s.cpu| ==> s.cpu[c].q < |s.pc|)
    && (forall p :: 0 <= p < |s.pc| ==> PcOk(s.pc[p], |s.pc|, |s.lk|, s.lockOf))
  }

  predicate IsOff(k: Pc) { k.YieldOff? || k.SleepOff? }

  /** The process has spin lock `l`. */
  predicate HasLk(k: Pc, l: nat) {
    (k.Hold? || k.SleepWant? || k.SleepBoth? || Waking(k)) && k.l == l
  }

  /** The process has its own lock. */
  predicate HasOwn(k: Pc) {
    k.YieldSet? || k.YieldOn? || k.SleepBoth? || k.SleepOnly? || k.SleepSet? || k.SleepOn?
  }

  predicate StateOk(k: Pc, st: St) {
    if k.YieldSet? || k.YieldOff? then st.Runnable?
    else if k.SleepSet? then st.Sleeping?
    else if k.SleepOff? then !st.Running?
    else st.Running?
  }

  predicate ChanOk(k: Pc, chan: Option<nat>) {
    chan == if k.SleepSet? || k.SleepOff? || k.SleepOn? then Some(k.ch) else None
  }

  /** A process at `k` has the lock of `q`, its own or that of a process it is waking. */
  predicate Locks(k: Pc, p: nat, q: nat) { (p == q && HasOwn(k)) || (k.WakeAt? && k.q == q) }

  /** CPU `c` has the lock of process `q`. */
  predicate HasPlock(s: Sys, c: nat, q: nat)
    requires Shape(s) && c < |s.cpu| && q < |s.pc|
  {
    var x := s.cpu[c];
    if x.On? then Locks(s.pc[x.q], x.q, q) else !x.Look? && x.q == q
  }

  // ---------------------------------------------------------------- invariant

  /** A process is on at most one CPU, and on none exactly if it has switched off. */
  ghost predicate CpusOk(s: Sys)
    requires Shape(s)
  {
    && (forall c: nat :: c < |s.cpu| && s.cpu[c].On? ==> s.at[s.cpu[c].q] == Some(c))
    && (forall p: nat :: p < |s.pc| && s.at[p].Some? ==> s.at[p].value < |s.cpu| && s.cpu[s.at[p].value] == On(p))
    && (forall p: nat :: p < |s.pc| ==> (s.at[p].None? <==> IsOff(s.pc[p])))
  }

  /** The process on CPU `c`, if there is one, has spin lock `l`. */
  predicate CpuHas(s: Sys, c: nat, l: nat)
    requires Shape(s) && c < |s.cpu|
  {
    s.cpu[c].On? && HasLk(s.pc[s.cpu[c].q], l)
  }

  ghost predicate LkOk(s: Sys)
    requires Shape(s)
  {
    && (forall c: nat, l: nat :: c < |s.cpu| && l < |s.lk| ==> (s.lk[l] == Some(c) <==> CpuHas(s, c, l)))
    && (forall l: nat :: l < |s.lk| && s.lk[l].Some? ==> s.lk[l].value < |s.cpu|)
  }

  ghost predicate PlocksOk(s: Sys)
    requires Shape(s)
  {
    && (forall c: nat, q: nat :: c < |s.cpu| && q < |s.pc| ==> (s.plock[q] == Some(c) <==> HasPlock(s, c, q)))
    && (forall q: nat :: q < |s.pc| && s.plock[q].Some? ==> s.plock[q].value < |s.cpu|)
  }

  ghost predicate ProcsOk(s: Sys)
    requires Shape(s)
  {
    forall p: nat :: p < |s.pc| ==> StateOk(s.pc[p], s.st[p]) && ChanOk(s.pc[p], s.chan[p])
  }

  /** A sleep lock is taken exactly if one process, its owner, has it. */
  ghost predicate OwnerOk(s: Sys)
    requires Shape(s)
  {
    && (forall p: nat, ch: nat :: p < |s.pc| && ch < |s.lockOf| ==>
          (ch in s.held[p] <==> s.isLock[ch] && !s.cond[ch] && s.owner[ch] == Some(p)))
    && (forall ch: nat :: ch < |s.lockOf| && s.isLock[ch] && !s.cond[ch] ==>
        s.owner[ch].Some? && s.owner[ch].value < |s.pc|)
  }

  /** The process is going to sleep, or asleep, on channel `k.ch`. */
  predicate Asleep(k: Pc, st: St) { k.SleepOnly? || k.SleepSet? || (k.SleepOff? && st.Sleeping?) }

  /** The process that has the spin lock of channel `ch` is in a wakeup of it. */
  predicate Sweeping(s: Sys, ch: nat)
    requires Shape(s) && ch < |s.lockOf|
  {
    var l := s.lockOf[ch];
    && l < |s.lk| && s.lk[l].Some? && s.lk[l].value < |s.cpu| && s.cpu[s.lk[l].value].On?
    && var k := s.pc[s.cpu[s.lk[l].value].q]; Waking(k) && k.ch == ch
  }

  /** Whoever sleeps waits for a condition that is false, or about which a wakeup is due or under way. */
  ghost predicate WaitersOk(s: Sys)
    requires Shape(s)
  {
    forall p: nat :: p < |s.pc| && Asleep(s.pc[p], s.st[p]) ==>
      !s.cond[s.pc[p].ch] || s.due[s.pc[p].ch] || Sweeping(s, s.pc[p].ch)
  }

  /** A wakeup leaves nobody asleep on its channel among the processes it has passed. */
  ghost predicate PassedOk(s: Sys)
    requires Shape(s)
  {
    forall w: nat, p: nat :: w < |s.pc| && p < |s.pc| ==>
      Waking(s.pc[w]) && p < s.pc[w].q && Asleep(s.pc[p], s.st[p]) ==> s.pc[p].ch != s.pc[w].ch
  }

  ghost predicate ClearOk(s: Sys)
    requires Shape(s)
  {
    forall p: nat :: p < |s.pc| && Asleep(s.pc[p], s.st[p]) ==> !s.clear[s.pc[p].ch]
  }

  /** The condition is false from the test before sleep until the spin lock is released. */
  ghost predicate TestOk(s: Sys)
    requires Shape(s)
  {
    forall p: nat :: p < |s.pc| && (s.pc[p].SleepWant? || s.pc[p].SleepBoth?) ==> !s.cond[s.pc[p].ch]
  }

  /** Who holds which locks, and what state that leaves a process in. */
  ghost predicate LocksOk(s: Sys) {
    Shape(s) && CpusOk(s) && LkOk(s) && PlocksOk(s) && ProcsOk(s)
  }

  ghost predicate SleepOk(s: Sys) {
    Shape(s) && WaitersOk(s) && PassedOk(s) && ClearOk(s) && TestOk(s)
  }

  ghost predicate Inv(s: Sys) {
    LocksOk(s) && OwnerOk(s) && SleepOk(s)
  }

  // ---------------------------------------------------------------- steps

  /**
   What a process does next: outside all locks it yields or takes a lock; with a lock it
   changes a condition, takes or gives back a sleep lock, starts a wakeup, sleeps, or
   releases the lock.
   */
  datatype Choice =
    | GoOn | DoYield | Acquire(l: nat)
    | SetCond(ch: nat, v: bool) | Take(ch: nat) | Give(ch: nat) | StartWake(ch: nat) | Sleep(ch: nat) | Leave

  function Resumed(k: Pc): Pc {
    if k.YieldOff? then YieldOn(k.want) else if k.SleepOff? then SleepOn(k.l, k.ch) else k
  }

  function SetPc(s: Sys, p: nat, k: Pc): Sys
    requires p < |s.pc|
  {
    s.(pc := s.pc[p := k])
  }

  function Own(s: Sys, q: nat, c: Option<nat>): Sys
    requires q < |s.plock|
  {
    s.(plock := s.plock[q := c])
  }

  function NextLook(s: Sys, c: nat, q: nat): Sys
    requires Shape(s) && c < |s.cpu| && q < |s.pc|
  {
    s.(plock := s.plock[q := None], cpu := s.cpu[c := Look(if q + 1 < |s.pc| then q + 1 else 0)])
  }

  /** The switch to a runnable process. */
  function SwitchOn(s: Sys, c: nat, q: nat): Sys
    requires Shape(s) && c < |s.cpu| && q < |s.pc|
  {
    SetPc(s, q, Resumed(s.pc[q])).(st := s.st[q := Running], cpu := s.cpu[c := On(q)], at := s.at[q := Some(c)])
  }

  /** One step of the scheduler on CPU `c`; none if it waits for a lock. */
  function Schedule(s: Sys, c: nat): Option<Sys>
    requires Shape(s) && c < |s.cpu| && !s.cpu[c].On?
  {
    var q := s.cpu[c].q;
    match s.cpu[c]
    case Look(_) =>
      if s.plock[q].Some? then None else Some(Own(s, q, Some(c)).(cpu := s.cpu[c := LookAt(q)]))
    case LookAt(_) =>
      if s.st[q].Runnable? then Some(SwitchOn(s, c, q)) else Some(NextLook(s, c, q))
    case Back(_) => Some(NextLook(s, c, q))
  }

  /** The switch back to the scheduler. */
  function SwitchOff(s: Sys, c: nat, p: nat, k: Pc): Sys
    requires Shape(s) && c < |s.cpu| && p < |s.pc|
  {
    SetPc(s, p, k).(cpu := s.cpu[c := Back(p)], at := s.at[p := None])
  }

  /** Spin lock `l` is released. */
  function Release(s: Sys, l: nat): Sys
    requires Sizes(s) && l < |s.lk|
  {
    s.(lk := s.lk[l := None], clear := seq(|s.clear|, ch requires 0 <= ch < |s.clear| => s.clear[ch]
        && s.lockOf[ch] != l))
  }

  /** The condition of channel `ch` becomes `v`. */
  function Put(s: Sys, ch: nat, v: bool): Sys
    requires Sizes(s) && ch < |s.lockOf|
  {
    s.(cond := s.cond[ch := v], due := s.due[ch := v && (s.due[ch] || (!s.cond[ch] && !s.clear[ch]))])
  }

  /** A process outside all spin locks. */
  function ActFree(s: Sys, c: nat, p: nat, choice: Choice): Option<Sys>
    requires Shape(s) && c < |s.cpu| && p < |s.pc| && s.pc[p].Free?
  {
    var w := s.pc[p].want;
    match choice
    case DoYield =>
      if s.plock[p].Some? then None
      else Some(SetPc(Own(s, p, Some(c)), p, YieldSet(w)).(st := s.st[p := Runnable]))
    case Acquire(l) =>
      if l < |s.lk| && s.lk[l].None? && (w.None? || w.value == l) then
        Some(SetPc(s, p, Hold(l)).(lk := s.lk[l := Some(c)]))
      else None
    case _ => None
  }

  /** A process with spin lock `l`. Sleep comes after a test that the condition is false. */
  function ActHold(s: Sys, p: nat, choice: Choice): Option<Sys>
    requires Shape(s) && p < |s.pc| && s.pc[p].Hold?
  {
    var l := s.pc[p].l;
    match choice
    case SetCond(ch, v) =>
      if ch < |s.lockOf| && s.lockOf[ch] == l && !s.isLock[ch] then Some(Put(s, ch, v)) else None
    case Take(ch) =>
      if ch < |s.lockOf| && s.lockOf[ch] == l && s.isLock[ch] && s.cond[ch] then
        Some(Put(s, ch, false).(held := s.held[p := s.held[p] + {ch}], owner := s.owner[ch := Some(p)]))
      else None
    case Give(ch) =>
      if ch < |s.lockOf| && s.lockOf[ch] == l && ch in s.held[p] then
        Some(Put(s, ch, true).(held := s.held[p := s.held[p] - {ch}], owner := s.owner[ch := None]))
      else None
    case StartWake(ch) =>
      if ch < |s.lockOf| && s.lockOf[ch] == l then
        Some(SetPc(s, p, Wake(l, ch, 0)).(due := s.due[ch := false]))
      else None
    case Sleep(ch) =>
      if ch < |s.lockOf| && s.lockOf[ch] == l && !s.cond[ch] then Some(SetPc(s, p, SleepWant(l, ch))) else None
    case Leave => Some(SetPc(Release(s, l), p, Free(None)))
    case _ => None
  }

  /** The wakeup loop, at process `k.q`. */
  function ActWake(s: Sys, c: nat, p: nat): Option<Sys>
    requires Shape(s) && c < |s.cpu| && p < |s.pc| && Waking(s.pc[p])
  {
    var k := s.pc[p];
    if k.Wake? then
      if k.q >= |s.pc| then Some(SetPc(s, p, Hold(k.l)).(clear := s.clear[k.ch := true]))
      else if k.q == p then Some(SetPc(s, p, Wake(k.l, k.ch, k.q + 1)))
      else if s.plock[k.q].Some? then None
      else Some(SetPc(Own(s, k.q, Some(c)), p, WakeAt(k.l, k.ch, k.q)))
    else
      var woken := if s.st[k.q].Sleeping? && s.chan[k.q] == Some(k.ch) then s.st[k.q := Runnable] else s.st;
      Some(SetPc(Own(s, k.q, None), p, Wake(k.l, k.ch, k.q + 1)).(st := woken))
  }

  /** One step of process `p` on CPU `c`; none if it waits for a lock. */
  function Act(s: Sys, c: nat, p: nat, choice: Choice): Option<Sys>
    requires Shape(s) && c < |s.cpu| && p < |s.pc|
  {
    match s.pc[p]
    case Free(_) => ActFree(s, c, p, choice)
    case Hold(_) => ActHold(s, p, choice)
    case YieldSet(w) => Some(SwitchOff(s, c, p, YieldOff(w)))
    case YieldOn(w) => Some(SetPc(Own(s, p, None), p, Free(w)))
    case SleepWant(l, ch) =>
      if s.plock[p].Some? then None else Some(SetPc(Own(s, p, Some(c)), p, SleepBoth(l, ch)))
    case SleepBoth(l, ch) => Some(SetPc(Release(s, l), p, SleepOnly(l, ch)))
    case SleepOnly(l, ch) =>
      Some(SetPc(s, p, SleepSet(l, ch)).(chan := s.chan[p := Some(ch)], st := s.st[p := Sleeping]))
    case SleepSet(l, ch) => Some(SwitchOff(s, c, p, SleepOff(l, ch)))
    case SleepOn(l, _) => Some(SetPc(Own(s, p, None), p, Free(Some(l))).(chan := s.chan[p := None]))
    case Wake(_, _, _) => ActWake(s, c, p)
    case WakeAt(_, _, _) => ActWake(s, c, p)
    case _ => None
  }

  /** kkill of a process whose lock is free. */
  function Kill(s: Sys, q: nat): Sys
    requires Sizes(s) && q < |s.pc|
  {
    if s.st[q].Sleeping? then s.(st := s.st[q := Runnable]) else s
  }

  // ---------------------------------------------------------------- one process moves

  /** Process `p`, on CPU `c`, goes to `k`; other processes stay where they are. */
  ghost predicate Moves(s: Sys, s': Sys, c: nat, p: nat, k: Pc) {
    && Shape(s) && Shape(s') && c < |s.cpu| && p < |s.pc| && s.cpu[c] == On(p) && s'.pc == s.pc[p := k]
    && s'.cpu == s.cpu && s'.at == s.at && !IsOff(k) && s'.lockOf == s.lockOf && |s'.lk| == |s.lk|
  }

  lemma {:induction false} MoveCpus(s: Sys, s': Sys, c: nat, p: nat, k: Pc)
    requires Moves(s, s', c, p, k) && CpusOk(s)
    ensures CpusOk(s')
  {
    hide PcOk;
  }

  /** Another CPU runs another process. */
  lemma {:induction false} OtherCpu(s: Sys, c: nat, p: nat, d: nat)
    requires Shape(s) && CpusOk(s) && c < |s.cpu| && d < |s.cpu| && s.cpu[c] == On(p) && s.cpu[d].On? && d != c
    ensures s.cpu[d].q != p
  {
    hide PcOk, IsOff;
  }

  ghost predicate LkMoves(s: Sys, s': Sys, c: nat, k: Pc, k': Pc)
    requires |s'.lk| == |s.lk|
  {
    forall l: nat :: l < |s.lk| ==>
      && s'.lk[l] == (if HasLk(k', l) then Some(c) else if HasLk(k, l) then None else s.lk[l])
      && (HasLk(k', l) && !HasLk(k, l) ==> s.lk[l].None?)
  }

  lemma {:induction false} MoveLk(s: Sys, s': Sys, c: nat, p: nat, k: Pc)
    requires Moves(s, s', c, p, k) && CpusOk(s) && LkOk(s) && LkMoves(s, s', c, s.pc[p], k)
    ensures LkOk(s')
  {
    hide HasLk, IsOff, PcOk, CpusOk;
    forall d: nat, l: nat | d < |s.cpu| && l < |s.lk| ensures s'.lk[l] == Some(d) <==> CpuHas(s', d, l) {
      assert s.lk[l] == Some(d) <==> CpuHas(s, d, l);
      assert s.lk[l] == Some(c) <==> CpuHas(s, c, l);
      if d != c && s.cpu[d].On? {
        OtherCpu(s, c, p, d);
      }
    }
  }

  ghost predicate PlocksMove(s: Sys, s': Sys, c: nat, p: nat, k: Pc, k': Pc)
    requires |s.plock| == |s.pc| && |s'.plock| == |s.pc|
  {
    forall q: nat :: q < |s.pc| ==>
      && s'.plock[q] == (if Locks(k', p, q) then Some(c) else if Locks(k, p, q) then None else s.plock[q])
      && (Locks(k', p, q) && !Locks(k, p, q) ==> s.plock[q].None?)
  }

  lemma {:induction false} MovePlocks(s: Sys, s': Sys, c: nat, p: nat, k: Pc)
    requires Moves(s, s', c, p, k) && CpusOk(s) && PlocksOk(s) && PlocksMove(s, s', c, p, s.pc[p], k)
    ensures PlocksOk(s')
  {
    hide Locks, IsOff, PcOk, CpusOk;
    forall d: nat, q: nat | d < |s.cpu| && q < |s.pc| ensures s'.plock[q] == Some(d) <==> HasPlock(s', d, q) {
      assert s.plock[q] == Some(d) <==> HasPlock(s, d, q);
      assert s.plock[q] == Some(c) <==> HasPlock(s, c, q);
      if d != c && s.cpu[d].On? {
        OtherCpu(s, c, p, d);
      }
    }
  }

  /** The state and the channel of `p` suit its new place, and those of others are kept. */
  ghost predicate ProcMoves(s: Sys, s': Sys, p: nat, k: Pc)
    requires Sizes(s) && Sizes(s') && p < |s.pc| == |s'.pc|
  {
    && StateOk(k, s'.st[p]) && ChanOk(k, s'.chan[p])
    && forall q: nat :: q < |s.pc| && q != p ==> s'.st[q] == s.st[q] && s'.chan[q] == s.chan[q]
  }

  lemma {:induction false} MoveProcs(s: Sys, s': Sys, c: nat, p: nat, k: Pc)
    requires Moves(s, s', c, p, k) && ProcsOk(s) && ProcMoves(s, s', p, k)
    ensures ProcsOk(s')
  {
    hide StateOk, ChanOk, IsOff, PcOk;
  }

  /** Everything about locks that a step of a process has to do. */
  ghost predicate LocksMove(s: Sys, s': Sys, c: nat, p: nat, k: Pc) {
    && Moves(s, s', c, p, k) && LkMoves(s, s', c, s.pc[p], k) && PlocksMove(s, s', c, p, s.pc[p], k)
    && ProcMoves(s, s', p, k)
  }

  lemma {:induction false} MoveLocks(s: Sys, s': Sys, c: nat, p: nat, k: Pc)
    requires LocksOk(s) && LocksMove(s, s', c, p, k)
    ensures LocksOk(s')
  {
    hide CpusOk, LkOk, PlocksOk, ProcsOk, LkMoves, PlocksMove, ProcMoves, PcOk;
    MoveCpus(s, s', c, p, k);
    MoveLk(s, s', c, p, k);
    MovePlocks(s, s', c, p, k);
    MoveProcs(s, s', c, p, k);
  }

  // ---------------------------------------------------------------- sleepers

  ghost predicate SameSync(s: Sys, s': Sys) {
    && s'.lockOf == s.lockOf && s'.isLock == s.isLock && s'.cond == s.cond && s'.due == s.due
    && s'.held == s.held && s'.owner == s.owner && |s'.clear| == |s.clear| && |s'.pc| == |s.pc|
    && forall ch: nat :: ch < |s.clear| && s'.clear[ch] ==> s.clear[ch]
  }

  lemma {:induction false} SyncOwner(s: Sys, s': Sys)
    requires Shape(s) && Shape(s') && SameSync(s, s') && OwnerOk(s)
    ensures OwnerOk(s')
  {
    hide PcOk;
  }

  /** Nobody goes to sleep, nobody starts a wakeup, and wakeups under way go on. */
  ghost predicate SleepMoves(s: Sys, s': Sys)
    requires Shape(s) && Shape(s') && SameSync(s, s')
  {
    && (forall ch: nat :: ch < |s.lockOf| && Sweeping(s, ch) ==> Sweeping(s', ch))
    && (forall x: nat :: x < |s.pc| && Asleep(s'.pc[x], s'.st[x]) ==>
          Asleep(s.pc[x], s.st[x]) && s'.pc[x].ch == s.pc[x].ch)
    && (forall x: nat :: x < |s.pc| && Waking(s'.pc[x]) ==> s'.pc[x] == s.pc[x])
    && (forall x: nat :: x < |s.pc| && (s'.pc[x].SleepWant? || s'.pc[x].SleepBoth?) ==> !s'.cond[s'.pc[x].ch])
  }

  lemma {:induction false} SleepFrame(s: Sys, s': Sys)
    requires SleepOk(s) && Shape(s') && SameSync(s, s') && SleepMoves(s, s')
    ensures SleepOk(s')
  {
    hide Sweeping;
    assert WaitersOk(s') by { hide PassedOk, ClearOk, TestOk; }
    assert PassedOk(s') by { hide WaitersOk, ClearOk, TestOk; }
  }

  /** A step of a process that is not in a wakeup leaves the wakeups of others as they are. */
  lemma {:induction false} SweepKept(s: Sys, s': Sys, c: nat, p: nat, k: Pc, ch: nat)
    requires Moves(s, s', c, p, k) && CpusOk(s) && LkOk(s) && LkMoves(s, s', c, s.pc[p], k)
    requires ch < |s.lockOf| && Sweeping(s, ch) && !(Waking(s.pc[p]) && s.pc[p].ch == ch)
    ensures Sweeping(s', ch)
  {
    hide PcOk, IsOff, CpusOk;
    var l := s.lockOf[ch];
    var d := s.lk[l].value;
    assert s.lk[l] == Some(c) <==> CpuHas(s, c, l);
    assert s.lk[l] == Some(d) <==> CpuHas(s, d, l);
    OtherCpu(s, c, p, d);
  }

  /** Where a process may go in a step that is not part of a wakeup and that makes nobody fall asleep. */
  ghost predicate Settles(s: Sys, s': Sys, p: nat, k: Pc)
    requires Shape(s) && Shape(s') && |s.pc| == |s'.pc| && p < |s.pc| && s'.pc[p] == k
  {
    && !Waking(s.pc[p]) && !Waking(k)
    && (Asleep(k, s'.st[p]) ==> Asleep(s.pc[p], s.st[p]) && k.ch == s.pc[p].ch)
    && (k.SleepWant? || k.SleepBoth? ==> !s'.cond[k.ch])
  }

  lemma {:induction false} MoveSleep(s: Sys, s': Sys, c: nat, p: nat, k: Pc)
    requires LocksOk(s) && SleepOk(s) && LocksMove(s, s', c, p, k) && SameSync(s, s') && Settles(s, s', p, k)
    ensures SleepOk(s')
  {
    hide PcOk, Sweeping, Asleep, Waking, LkOk, CpusOk, PlocksOk, ProcsOk, WaitersOk, PassedOk, ClearOk, LkMoves,
      PlocksMove,
      StateOk, ChanOk;
    forall ch: nat | ch < |s.lockOf| && Sweeping(s, ch) ensures Sweeping(s', ch) {
      SweepKept(s, s', c, p, k, ch);
    }
    SleepFrame(s, s');
  }

  lemma {:induction false} MoveKeeps(s: Sys, s': Sys, c: nat, p: nat, k: Pc)
    requires Inv(s) && LocksMove(s, s', c, p, k) && SameSync(s, s') && Settles(s, s', p, k)
    ensures Inv(s')
  {
    hide Shape, LocksOk, SleepOk, OwnerOk, LkMoves, PlocksMove, ProcMoves, SameSync, Settles;
    LocksShape(s);
    MoveLocks(s, s', c, p, k);
    LocksShape(s');
    SyncOwner(s, s');
    MoveSleep(s, s', c, p, k);
  }

  lemma {:induction false} LocksShape(s: Sys)
    requires LocksOk(s)
    ensures Shape(s) && Sizes(s)
  {
  }

  /** What is known of the process on a CPU. */
  lemma {:induction false} ProcFacts(s: Sys, c: nat, p: nat)
    requires Inv(s) && c < |s.cpu| && s.cpu[c] == On(p)
    ensures Shape(s) && Sizes(s) && p < |s.pc| && PcOk(s.pc[p], |s.pc|, |s.lk|, s.lockOf)
    ensures !IsOff(s.pc[p]) && s.at[p] == Some(c)
    ensures StateOk(s.pc[p], s.st[p]) && ChanOk(s.pc[p], s.chan[p])
    ensures forall l: nat :: l < |s.lk| && HasLk(s.pc[p], l) ==> s.lk[l] == Some(c)
    ensures HasOwn(s.pc[p]) ==> s.plock[p] == Some(c)
    ensures s.pc[p].SleepWant? || s.pc[p].SleepBoth? ==> !s.cond[s.pc[p].ch]
  {
    hide WaitersOk, PassedOk, ClearOk, OwnerOk, Asleep, Sweeping, PcOk;
    assert HasPlock(s, c, p) <==> s.plock[p] == Some(c);
    forall l: nat | l < |s.lk| && HasLk(s.pc[p], l) ensures s.lk[l] == Some(c) {
      assert CpuHas(s, c, l);
    }
  }

  // ---------------------------------------------------------------- quiet steps

  /** Steps that change no condition, start or continue no wakeup, release no lock to sleep, and do not switch. */
  predicate Quiet(k: Pc, choice: Choice) {
    || k.Free? || k.YieldOn? || k.SleepWant? || k.SleepOnly? || k.SleepOn?
    || (k.Hold? && (choice.Sleep? || choice.Leave?))
  }

  lemma {:induction false} LockThere(s: Sys, p: nat)
    requires Shape(s) && p < |s.pc|
    ensures s.pc[p].Hold? || IsSleep(s.pc[p]) || Waking(s.pc[p]) ==> s.pc[p].l < |s.lk|
    ensures IsSleep(s.pc[p]) || Waking(s.pc[p]) ==> s.pc[p].ch < |s.lockOf| && s.lockOf[s.pc[p].ch] == s.pc[p].l
  {
  }

  lemma {:induction false} QuietFrame(s: Sys, c: nat, p: nat, choice: Choice)
    requires Shape(s) && c < |s.cpu| && p < |s.pc| && Quiet(s.pc[p], choice) && Act(s, c, p, choice).Some?
    ensures var s' := Act(s, c, p, choice).value;
      && Sizes(s') && |s'.pc| == |s.pc| && s'.pc == s.pc[p := s'.pc[p]] && !IsOff(s'.pc[p])
      && s'.cpu == s.cpu && s'.at == s.at && s'.lockOf == s.lockOf && |s'.lk| == |s.lk|
  {
    hide PcOk;
    match s.pc[p] {
      case Free(_) =>
      case Hold(_) => LockThere(s, p);
      case YieldOn(_) =>
      case SleepWant(_, _) =>
      case SleepOnly(_, _) =>
      case SleepOn(_, _) =>
      case _ =>
    }
  }

  lemma {:induction false} QuietPc(s: Sys, c: nat, p: nat, choice: Choice)
    requires Shape(s) && c < |s.cpu| && p < |s.pc| && Quiet(s.pc[p], choice) && Act(s, c, p, choice).Some?
    ensures var s' := Act(s, c, p, choice).value; |s'.pc| == |s.pc| && PcOk(s'.pc[p], |s.pc|, |s.lk|, s.lockOf)
  {
    match s.pc[p] {
      case Free(_) =>
      case Hold(_) =>
      case YieldOn(_) =>
      case SleepWant(_, _) =>
      case SleepOnly(_, _) =>
      case SleepOn(_, _) =>
      case _ =>
    }
  }

  lemma {:induction false} QuietIsMove(s: Sys, c: nat, p: nat, choice: Choice)
    requires Shape(s) && c < |s.cpu| && s.cpu[c] == On(p) && p < |s.pc| && Quiet(s.pc[p], choice)
    requires Act(s, c, p, choice).Some?
    ensures var s' := Act(s, c, p, choice).value; |s'.pc| == |s.pc| && Moves(s, s', c, p, s'.pc[p])
  {
    hide PcOk, Act, IsOff;
    QuietFrame(s, c, p, choice);
    QuietPc(s, c, p, choice);
  }

  lemma {:induction false} QuietLk(s: Sys, c: nat, p: nat, choice: Choice)
    requires Shape(s) && c < |s.cpu| && p < |s.pc| && Quiet(s.pc[p], choice) && Act(s, c, p, choice).Some?
    requires forall l: nat :: l < |s.lk| && HasLk(s.pc[p], l) ==> s.lk[l] == Some(c)
    ensures var s' := Act(s, c, p, choice).value;
      |s'.lk| == |s.lk| && |s'.pc| == |s.pc| && LkMoves(s, s', c, s.pc[p], s'.pc[p])
  {
    match s.pc[p] {
      case Free(_) =>
      case Hold(_) =>
      case YieldOn(_) =>
      case SleepWant(_, _) =>
      case SleepOnly(_, _) =>
      case SleepOn(_, _) =>
      case _ =>
    }
  }

  lemma {:induction false} QuietPlocks(s: Sys, c: nat, p: nat, choice: Choice)
    requires Shape(s) && c < |s.cpu| && p < |s.pc| && Quiet(s.pc[p], choice) && Act(s, c, p, choice).Some?
    requires HasOwn(s.pc[p]) ==> s.plock[p] == Some(c)
    ensures var s' := Act(s, c, p, choice).value;
      |s'.plock| == |s.pc| == |s'.pc| && PlocksMove(s, s', c, p, s.pc[p], s'.pc[p])
  {
    match s.pc[p] {
      case Free(_) =>
      case Hold(_) =>
      case YieldOn(_) =>
      case SleepWant(_, _) =>
      case SleepOnly(_, _) =>
      case SleepOn(_, _) =>
      case _ =>
    }
  }

  lemma {:induction false} QuietProcs(s: Sys, c: nat, p: nat, choice: Choice)
    requires Shape(s) && c < |s.cpu| && p < |s.pc| && Quiet(s.pc[p], choice) && Act(s, c, p, choice).Some?
    requires StateOk(s.pc[p], s.st[p]) && ChanOk(s.pc[p], s.chan[p])
    ensures var s' := Act(s, c, p, choice).value;
      Sizes(s') && |s'.pc| == |s.pc| && ProcMoves(s, s', p, s'.pc[p])
  {
    match s.pc[p] {
      case Free(_) =>
      case Hold(_) =>
      case YieldOn(_) =>
      case SleepWant(_, _) =>
      case SleepOnly(_, _) =>
      case SleepOn(_, _) =>
      case _ =>
    }
  }

  lemma {:induction false} QuietSync(s: Sys, c: nat, p: nat, choice: Choice)
    requires Shape(s) && c < |s.cpu| && p < |s.pc| && Quiet(s.pc[p], choice) && Act(s, c, p, choice).Some?
    ensures SameSync(s, Act(s, c, p, choice).value)
  {
    hide PcOk;
    match s.pc[p] {
      case Free(_) =>
      case Hold(_) =>
      case YieldOn(_) =>
      case SleepWant(_, _) =>
      case SleepOnly(_, _) =>
      case SleepOn(_, _) =>
      case _ =>
    }
  }

  lemma {:induction false} QuietSettles(s: Sys, s': Sys, c: nat, p: nat, choice: Choice)
    requires Shape(s) && c < |s.cpu| && p < |s.pc| && Quiet(s.pc[p], choice) && Act(s, c, p, choice) == Some(s')
    requires Shape(s') && |s'.pc| == |s.pc| && (s.pc[p].SleepWant? ==> !s.cond[s.pc[p].ch])
    ensures Settles(s, s', p, s'.pc[p])
  {
    match s.pc[p] {
      case Free(_) =>
      case Hold(_) =>
      case YieldOn(_) =>
      case SleepWant(_, _) =>
      case SleepOnly(_, _) =>
      case SleepOn(_, _) =>
      case _ =>
    }
  }

  lemma {:induction false} QuietKeeps(s: Sys, c: nat, p: nat, choice: Choice)
    requires Inv(s) && c < |s.cpu| && s.cpu[c] == On(p) && p < |s.pc| && Quiet(s.pc[p], choice)
    requires Shape(s) && Act(s, c, p, choice).Some?
    ensures Inv(Act(s, c, p, choice).value)
  {
    hide *;
    ProcFacts(s, c, p);
    QuietIsMove(s, c, p, choice);
    QuietLk(s, c, p, choice);
    QuietPlocks(s, c, p, choice);
    QuietProcs(s, c, p, choice);
    QuietSync(s, c, p, choice);
    var s' := Act(s, c, p, choice).value;
    MovesFacts(s, s', c, p, s'.pc[p]);
    QuietSettles(s, s', c, p, choice);
    MoveKeeps(s, s', c, p, s'.pc[p]);
  }

  lemma {:induction false} MovesFacts(s: Sys, s': Sys, c: nat, p: nat, k: Pc)
    requires Moves(s, s', c, p, k)
    ensures Shape(s) && Shape(s') && Sizes(s) && Sizes(s') && |s'.lk| == |s.lk|
    ensures |s'.pc| == |s.pc| && p < |s.pc| && s'.pc[p] == k && s'.cpu == s.cpu && s'.at == s.at
    ensures s'.lockOf == s.lockOf
    ensures LkMoves(s, s', c, s.pc[p], k) && PlocksMove(s, s', c, p, s.pc[p], k) && ProcMoves(s, s', p, k) ==>
      LocksMove(s, s', c, p, k)
  {
    hide PcOk, LkMoves, PlocksMove, ProcMoves;
  }

  // ---------------------------------------------------------------- steps with a spin lock

  /** One process at a time has a spin lock. */
  lemma {:induction false} LkHolder(s: Sys, c: nat, p: nat, l: nat, x: nat)
    requires LocksOk(s) && c < |s.cpu| && s.cpu[c] == On(p) && l < |s.lk| && x < |s.pc|
    requires HasLk(s.pc[p], l) && HasLk(s.pc[x], l)
    ensures x == p
  {
    hide PlocksOk, ProcsOk, PcOk;
    assert s.at[x].Some?;
    var d := s.at[x].value;
    assert s.cpu[d] == On(x);
    assert CpuHas(s, c, l) && CpuHas(s, d, l);
  }

  /** Whoever tests or wakes on a channel whose spin lock `p` has, is `p`. */
  lemma {:induction false} OnlyHere(s: Sys, c: nat, p: nat, ch: nat, x: nat)
    requires LocksOk(s) && c < |s.cpu| && s.cpu[c] == On(p) && ch < |s.lockOf| && HasLk(s.pc[p], s.lockOf[ch])
    requires x < |s.pc|
    requires (s.pc[x].SleepWant? || s.pc[x].SleepBoth? || Waking(s.pc[x])) && s.pc[x].ch == ch
    ensures x == p
  {
    hide CpusOk, LkOk, PlocksOk, ProcsOk;
    LkHolder(s, c, p, s.lockOf[ch], x);
  }

  lemma {:induction false} SweepsHere(s: Sys, c: nat, p: nat, ch: nat)
    requires LocksOk(s) && c < |s.cpu| && s.cpu[c] == On(p) && ch < |s.lockOf| && HasLk(s.pc[p], s.lockOf[ch])
    ensures Sweeping(s, ch) <==> Waking(s.pc[p]) && s.pc[p].ch == ch
  {
    hide CpusOk, PlocksOk, ProcsOk;
    assert s.lockOf[ch] < |s.lk|;
    assert CpuHas(s, c, s.lockOf[ch]);
  }

  /** Only conditions change, by the process that has the spin lock of the channel. */
  ghost predicate CondMoves(s: Sys, s': Sys, ch: nat, v: bool) {
    && Sizes(s) && ch < |s.lockOf| && Sizes(s')
    && s' == Put(s, ch, v).(held := s'.held, owner := s'.owner)
  }

  lemma {:induction false} CondLocks(s: Sys, s': Sys, ch: nat, v: bool)
    requires LocksOk(s) && CondMoves(s, s', ch, v)
    ensures LocksOk(s')
  {
    hide PcOk, IsOff, StateOk, ChanOk, Locks, HasLk;
    assert Shape(s');
    assert CpusOk(s') by { hide LkOk, PlocksOk, ProcsOk; }
    assert LkOk(s') by {
      hide CpusOk, PlocksOk, ProcsOk;
      assert forall c: nat, l: nat :: c < |s.cpu| ==> CpuHas(s', c, l) == CpuHas(s, c, l);
    }
    assert PlocksOk(s') by {
      hide CpusOk, LkOk, ProcsOk;
      assert forall c: nat, q: nat :: c < |s.cpu| && q < |s.pc| ==> HasPlock(s', c, q) == HasPlock(s, c, q);
    }
  }

  lemma {:induction false} CondSleep(s: Sys, s': Sys, c: nat, p: nat, ch: nat, v: bool)
    requires LocksOk(s) && SleepOk(s) && Shape(s') && CondMoves(s, s', ch, v)
    requires c < |s.cpu| && s.cpu[c] == On(p) && s.pc[p] == Hold(s.lockOf[ch])
    ensures SleepOk(s')
  {
    hide LocksOk;
    SweepsHere(s, c, p, ch);
    forall x: nat | x < |s.pc| && (s.pc[x].SleepWant? || s.pc[x].SleepBoth?) && s.pc[x].ch == ch ensures x == p {
      OnlyHere(s, c, p, ch, x);
    }
    assert forall b: nat :: b < |s.lockOf| ==> Sweeping(s', b) == Sweeping(s, b);
    CondWaiters(s, s', ch, v);
  }

  lemma {:induction false} CondWaiters(s: Sys, s': Sys, ch: nat, v: bool)
    requires SleepOk(s) && Shape(s') && CondMoves(s, s', ch, v) && !Sweeping(s, ch)
    requires forall b: nat :: b < |s.lockOf| ==> Sweeping(s', b) == Sweeping(s, b)
    requires forall x: nat :: x < |s.pc| && (s.pc[x].SleepWant? || s.pc[x].SleepBoth?) ==> s.pc[x].ch != ch
    ensures SleepOk(s')
  {
    hide Sweeping;
  }

  lemma {:induction false} SetCondKeeps(s: Sys, c: nat, p: nat, ch: nat, v: bool)
    requires Inv(s) && c < |s.cpu| && s.cpu[c] == On(p) && s.pc[p].Hold?
    requires ch < |s.lockOf| && s.lockOf[ch] == s.pc[p].l && !s.isLock[ch]
    ensures Inv(Put(s, ch, v))
  {
    hide PcOk, WaitersOk, PassedOk, ClearOk, TestOk, CpusOk, LkOk, PlocksOk, ProcsOk;
    var s' := Put(s, ch, v);
    CondLocks(s, s', ch, v);
    CondSleep(s, s', c, p, ch, v);
  }

  lemma {:induction false} TakeKeeps(s: Sys, c: nat, p: nat, ch: nat)
    requires Inv(s) && c < |s.cpu| && s.cpu[c] == On(p) && s.pc[p].Hold? && ActHold(s, p, Take(ch)).Some?
    ensures Inv(ActHold(s, p, Take(ch)).value)
  {
    hide PcOk, WaitersOk, PassedOk, ClearOk, TestOk, CpusOk, LkOk, PlocksOk, ProcsOk, OwnerOk;
    var s' := ActHold(s, p, Take(ch)).value;
    CondLocks(s, s', ch, false);
    CondSleep(s, s', c, p, ch, false);
    TakeOwner(s, s', p, ch);
  }

  lemma {:induction false} TakeOwner(s: Sys, s': Sys, p: nat, ch: nat)
    requires Shape(s) && Shape(s') && OwnerOk(s) && p < |s.pc| && ch < |s.lockOf| && s.isLock[ch] && s.cond[ch]
    requires s'.pc == s.pc && s'.lockOf == s.lockOf && s'.isLock == s.isLock && s'.cond == s.cond[ch := false]
    requires s'.held == s.held[p := s.held[p] + {ch}] && s'.owner == s.owner[ch := Some(p)]
    ensures OwnerOk(s')
  {
    hide PcOk;
    forall x: nat, b: nat | x < |s.pc| && b < |s.lockOf|
      ensures b in s'.held[x] <==> s'.isLock[b] && !s'.cond[b] && s'.owner[b] == Some(x)
    {
      assert b in s.held[x] <==> s.isLock[b] && !s.cond[b] && s.owner[b] == Some(x);
    }
  }

  lemma {:induction false} GiveKeeps(s: Sys, c: nat, p: nat, ch: nat)
    requires Inv(s) && c < |s.cpu| && s.cpu[c] == On(p) && s.pc[p].Hold? && ActHold(s, p, Give(ch)).Some?
    ensures Inv(ActHold(s, p, Give(ch)).value)
  {
    hide PcOk, WaitersOk, PassedOk, ClearOk, TestOk, CpusOk, LkOk, PlocksOk, ProcsOk, OwnerOk;
    var s' := ActHold(s, p, Give(ch)).value;
    CondLocks(s, s', ch, true);
    CondSleep(s, s', c, p, ch, true);
    GiveOwner(s, s', p, ch);
  }

  lemma {:induction false} GiveOwner(s: Sys, s': Sys, p: nat, ch: nat)
    requires Shape(s) && Shape(s') && OwnerOk(s) && p < |s.pc| && ch < |s.lockOf| && ch in s.held[p]
    requires s'.pc == s.pc && s'.lockOf == s.lockOf && s'.isLock == s.isLock && s'.cond == s.cond[ch := true]
    requires s'.held == s.held[p := s.held[p] - {ch}] && s'.owner == s.owner[ch := None]
    ensures OwnerOk(s')
  {
    hide PcOk;
    assert s.isLock[ch] && !s.cond[ch] && s.owner[ch] == Some(p);
    forall x: nat, b: nat | x < |s.pc| && b < |s.lockOf|
      ensures b in s'.held[x] <==> s'.isLock[b] && !s'.cond[b] && s'.owner[b] == Some(x)
    {
      assert b in s.held[x] <==> s.isLock[b] && !s.cond[b] && s.owner[b] == Some(x);
    }
  }

  // ---------------------------------------------------------------- falling asleep

  lemma {:induction false} DozeLocks(s: Sys, c: nat, p: nat)
    requires Inv(s) && c < |s.cpu| && s.cpu[c] == On(p) && s.pc[p].SleepBoth?
    ensures var k := SleepOnly(s.pc[p].l, s.pc[p].ch);
      s.pc[p].l < |s.lk| && LocksMove(s, SetPc(Release(s, s.pc[p].l), p, k), c, p, k)
  {
    hide Inv;
    ProcFacts(s, c, p);
  }

  lemma {:induction false} DozeKeeps(s: Sys, c: nat, p: nat)
    requires Inv(s) && c < |s.cpu| && s.cpu[c] == On(p) && s.pc[p].SleepBoth?
    ensures var s' := Act(s, c, p, GoOn); s'.Some? && Inv(s'.value)
  {
    hide LocksMove, OwnerOk, PcOk, WaitersOk, PassedOk, ClearOk, TestOk, CpusOk, LkOk, PlocksOk, ProcsOk;
    ProcFacts(s, c, p);
    LockThere(s, p);
    var l, ch := s.pc[p].l, s.pc[p].ch;
    var k := SleepOnly(l, ch);
    var s' := SetPc(Release(s, l), p, k);
    DozeLocks(s, c, p);
    MoveLocks(s, s', c, p, k);
    SyncOwner(s, s');
    DozeSleep(s, s', c, p, l, ch);
  }

  /** The process counts as asleep once it has let go of the spin lock: the condition is still false. */
  lemma {:induction false} DozeSleep(s: Sys, s': Sys, c: nat, p: nat, l: nat, ch: nat)
    requires LocksOk(s) && SleepOk(s) && p < |s.pc| && s.pc[p] == SleepBoth(l, ch) && l < |s.lk|
    requires s' == SetPc(Release(s, l), p, SleepOnly(l, ch)) && LocksMove(s, s', c, p, SleepOnly(l, ch))
    ensures SleepOk(s')
  {
    hide CpusOk, LkOk, PlocksOk, ProcsOk, Sweeping, LkMoves, PlocksMove, ProcMoves;
    assert ch < |s.lockOf| && s.lockOf[ch] == l && !s.cond[ch];
    forall b: nat | b < |s.lockOf| && Sweeping(s, b) ensures Sweeping(s', b) {
      SweepKept(s, s', c, p, SleepOnly(l, ch), b);
    }
    forall x: nat | x < |s.pc| && Waking(s.pc[x]) && s.pc[x].ch == ch ensures x == p {
      OnlyHere(s, c, p, ch, x);
    }
    assert PassedOk(s') by { hide WaitersOk, ClearOk, TestOk; }
    assert WaitersOk(s') by { hide PassedOk, ClearOk, TestOk; }
    assert ClearOk(s') by { hide PassedOk, WaitersOk, TestOk; }
  }

  // ---------------------------------------------------------------- wakeup

  /** The wakeup begins. */
  lemma {:induction false} StartKeeps(s: Sys, c: nat, p: nat, ch: nat)
    requires Inv(s) && c < |s.cpu| && s.cpu[c] == On(p) && s.pc[p].Hold? && ActHold(s, p, StartWake(ch)).Some?
    ensures Inv(ActHold(s, p, StartWake(ch)).value)
  {
    hide LocksMove, OwnerOk, PcOk, WaitersOk, PassedOk, ClearOk, TestOk, CpusOk, LkOk, PlocksOk, ProcsOk;
    var l := s.pc[p].l;
    var s' := ActHold(s, p, StartWake(ch)).value;
    StartLocks(s, c, p, ch);
    MoveLocks(s, s', c, p, Wake(l, ch, 0));
    DueOwner(s, s');
    StartSleep(s, s', c, p, l, ch);
  }

  lemma {:induction false} DueOwner(s: Sys, s': Sys)
    requires Shape(s) && Shape(s') && OwnerOk(s) && |s'.pc| == |s.pc|
    requires s'.lockOf == s.lockOf && s'.isLock == s.isLock && s'.cond == s.cond && s'.held == s.held
    requires s'.owner == s.owner
    ensures OwnerOk(s')
  {
    hide PcOk;
  }

  lemma {:induction false} StartLocks(s: Sys, c: nat, p: nat, ch: nat)
    requires Inv(s) && c < |s.cpu| && s.cpu[c] == On(p) && s.pc[p].Hold? && ActHold(s, p, StartWake(ch)).Some?
    ensures LocksMove(s, ActHold(s, p, StartWake(ch)).value, c, p, Wake(s.pc[p].l, ch, 0))
  {
    hide Inv;
    ProcFacts(s, c, p);
  }

  lemma {:induction false} StartSleep(s: Sys, s': Sys, c: nat, p: nat, l: nat, ch: nat)
    requires LocksOk(s) && SleepOk(s) && LocksOk(s') && p < |s.pc| && s.pc[p] == Hold(l) && ch < |s.lockOf|
    requires s' == SetPc(s, p, Wake(l, ch, 0)).(due := s.due[ch := false]) && LocksMove(s, s', c, p, Wake(l, ch, 0))
    requires s.lockOf[ch] == l
    ensures SleepOk(s')
  {
    hide CpusOk, LkOk, PlocksOk, ProcsOk, Sweeping, LkMoves, PlocksMove, ProcMoves;
    forall b: nat | b < |s.lockOf| && Sweeping(s, b) ensures Sweeping(s', b) {
      SweepKept(s, s', c, p, Wake(l, ch, 0), b);
    }
    SweepsHere(s', c, p, ch);
    assert WaitersOk(s') by { hide PassedOk, ClearOk, TestOk; }
    assert PassedOk(s') by { hide WaitersOk, ClearOk, TestOk; }
  }

  /** A wakeup under way goes on, past no process asleep on its channel. */
  ghost predicate Passes(s: Sys, s': Sys, p: nat, k: Pc)
    requires Shape(s) && p < |s.pc|
  {
    && Waking(s.pc[p]) && Waking(k) && k.ch == s.pc[p].ch && k.l == s.pc[p].l
    && s'.st == s.st && s'.cond == s.cond && s'.due == s.due && s'.clear == s.clear && s'.lk == s.lk
    && forall x: nat :: x < |s.pc| && s.pc[p].q <= x < k.q && Asleep(s.pc[x], s.st[x]) ==> s.pc[x].ch != k.ch
  }

  lemma {:induction false} PassSleep(s: Sys, s': Sys, c: nat, p: nat, k: Pc)
    requires LocksOk(s) && SleepOk(s) && LocksOk(s') && Moves(s, s', c, p, k) && Passes(s, s', p, k)
    ensures SleepOk(s')
  {
    hide CpusOk, LkOk, PlocksOk, ProcsOk, Sweeping;
    PassSweeps(s, s', c, p, k);
    assert WaitersOk(s') by { hide PassedOk, ClearOk, TestOk; }
    assert PassedOk(s') by {
      hide WaitersOk, ClearOk, TestOk;
      forall w: nat, x: nat | w < |s.pc| && x < |s.pc| && Waking(s'.pc[w]) && x < s'.pc[w].q
          && Asleep(s'.pc[x], s'.st[x])
        ensures s'.pc[x].ch != s'.pc[w].ch
      {
        assert x != p && s'.pc[x] == s.pc[x];
      }
    }
  }

  lemma {:induction false} PassSweeps(s: Sys, s': Sys, c: nat, p: nat, k: Pc)
    requires LocksOk(s) && Moves(s, s', c, p, k) && Passes(s, s', p, k)
    ensures forall b: nat :: b < |s.lockOf| && Sweeping(s, b) ==> Sweeping(s', b)
  {
    hide PlocksOk, ProcsOk, PcOk, LkOk, IsOff;
  }

  lemma {:induction false} WakeLocks(s: Sys, c: nat, p: nat)
    requires Inv(s) && c < |s.cpu| && s.cpu[c] == On(p) && s.pc[p].Wake? && ActWake(s, c, p).Some?
    ensures var s' := ActWake(s, c, p).value; |s'.pc| == |s.pc| && LocksMove(s, s', c, p, s'.pc[p])
  {
    hide Inv;
    ProcFacts(s, c, p);
  }

  /** The wakeup has passed every process: nobody is asleep on the channel. */
  lemma {:induction false} FinishSleep(s: Sys, s': Sys, c: nat, p: nat, k: Pc)
    requires LocksOk(s) && SleepOk(s) && p < |s.pc| && s.pc[p].Wake? && s.pc[p].q >= |s.pc| && k == Hold(s.pc[p].l)
    requires s.pc[p].ch < |s.clear| && s' == SetPc(s, p, k).(clear := s.clear[s.pc[p].ch := true])
    requires LocksMove(s, s', c, p, k)
    ensures SleepOk(s')
  {
    hide CpusOk, LkOk, PlocksOk, ProcsOk, Sweeping, LkMoves, PlocksMove, ProcMoves;
    var ch := s.pc[p].ch;
    forall b: nat | b < |s.lockOf| && b != ch && Sweeping(s, b) ensures Sweeping(s', b) {
      SweepKept(s, s', c, p, k, b);
    }
    assert forall x: nat :: x < |s.pc| && Asleep(s.pc[x], s.st[x]) ==> s.pc[x].ch != ch;
    assert WaitersOk(s') by { hide PassedOk, ClearOk, TestOk; }
    assert PassedOk(s') by { hide WaitersOk, ClearOk, TestOk; }
  }

  lemma {:induction false} WakeKeeps(s: Sys, c: nat, p: nat)
    requires Inv(s) && c < |s.cpu| && s.cpu[c] == On(p) && s.pc[p].Wake? && ActWake(s, c, p).Some?
    ensures Inv(ActWake(s, c, p).value)
  {
    hide LocksMove, OwnerOk, PcOk, WaitersOk, PassedOk, ClearOk, TestOk, CpusOk, LkOk, PlocksOk, ProcsOk;
    ProcFacts(s, c, p);
    LockThere(s, p);
    WakeLocks(s, c, p);
    var s' := ActWake(s, c, p).value;
    MoveLocks(s, s', c, p, s'.pc[p]);
    DueOwner(s, s');
    if s.pc[p].q >= |s.pc| {
      FinishSleep(s, s', c, p, s'.pc[p]);
    } else {
      LocksMoves(s, s', c, p, s'.pc[p]);
      PassSleep(s, s', c, p, s'.pc[p]);
    }
  }

  lemma {:induction false} LocksMoves(s: Sys, s': Sys, c: nat, p: nat, k: Pc)
    requires LocksMove(s, s', c, p, k)
    ensures Moves(s, s', c, p, k)
  {
  }

  /** A process that has its own lock has it with its CPU. */
  lemma {:induction false} OwnLocked(s: Sys, q: nat)
    requires LocksOk(s) && q < |s.pc|
    ensures StateOk(s.pc[q], s.st[q]) && ChanOk(s.pc[q], s.chan[q])
    ensures HasOwn(s.pc[q]) ==>
      s.at[q].Some? && s.plock[q] == s.at[q] && s.at[q].value < |s.cpu| && s.cpu[s.at[q].value] == On(q)
  {
    hide LkOk, PcOk, StateOk, ChanOk;
    if HasOwn(s.pc[q]) {
      assert HasPlock(s, s.at[q].value, q);
    }
  }

  /** A process whose lock another has is not in the middle of going to sleep. */
  lemma {:induction false} LockedAway(s: Sys, c: nat, p: nat, q: nat)
    requires LocksOk(s) && c < |s.cpu| && s.cpu[c] == On(p) && s.pc[p].WakeAt? && s.pc[p].q == q < |s.pc|
    ensures !HasOwn(s.pc[q]) && s.plock[q] == Some(c)
    ensures StateOk(s.pc[q], s.st[q]) && ChanOk(s.pc[q], s.chan[q])
  {
    hide LkOk, PcOk, StateOk, ChanOk;
    assert HasPlock(s, c, q);
    OwnLocked(s, q);
  }

  /** A sleeper becomes runnable: nobody else notices. */
  lemma {:induction false} WokenKeeps(s: Sys, q: nat)
    requires Inv(s) && q < |s.pc| && s.pc[q].SleepOff? && s.st[q].Sleeping?
    ensures Inv(s.(st := s.st[q := Runnable]))
  {
    hide PcOk, WaitersOk, PassedOk, ClearOk, CpusOk, LkOk, PlocksOk, OwnerOk, Sweeping, Waking;
    var s' := s.(st := s.st[q := Runnable]);
    WokenLocks(s, s');
    SyncOwner(s, s');
    WokenSweeps(s, s');
    SleepFrame(s, s');
  }

  lemma {:induction false} WokenSweeps(s: Sys, s': Sys)
    requires Shape(s) && Shape(s') && s' == s.(st := s'.st)
    ensures forall ch: nat :: ch < |s.lockOf| && Sweeping(s, ch) ==> Sweeping(s', ch)
  {
    hide PcOk;
  }

  lemma {:induction false} WokenLocks(s: Sys, s': Sys)
    requires Shape(s) && Shape(s') && s' == s.(st := s'.st) && CpusOk(s) && LkOk(s) && PlocksOk(s)
    ensures CpusOk(s') && LkOk(s') && PlocksOk(s')
  {
    hide PcOk, IsOff, Locks, HasLk;
    assert LkOk(s') by {
      hide CpusOk, PlocksOk;
      assert forall c: nat, l: nat :: c < |s.cpu| ==> CpuHas(s', c, l) == CpuHas(s, c, l);
    }
    assert PlocksOk(s') by {
      hide CpusOk, LkOk;
      assert forall c: nat, q: nat :: c < |s.cpu| && q < |s.pc| ==> HasPlock(s', c, q) == HasPlock(s, c, q);
    }
  }

  lemma {:induction false} PassOverLocks(s: Sys, c: nat, p: nat, q: nat)
    requires Inv(s) && c < |s.cpu| && p < |s.pc| && s.cpu[c] == On(p) && s.pc[p].WakeAt? && s.pc[p].q == q < |s.pc|
    ensures var k := Wake(s.pc[p].l, s.pc[p].ch, q + 1);
      |s.plock| == |s.pc| && LocksMove(s, SetPc(Own(s, q, None), p, k), c, p, k)
  {
    hide Inv;
    ProcFacts(s, c, p);
  }

  /** The wakeup is done with process `q`, which is not asleep on the channel. */
  lemma {:induction false} PassOver(s: Sys, c: nat, p: nat, q: nat)
    requires Inv(s) && c < |s.cpu| && p < |s.pc| && s.cpu[c] == On(p) && s.pc[p].WakeAt? && s.pc[p].q == q < |s.pc|
    requires Asleep(s.pc[q], s.st[q]) ==> s.pc[q].ch != s.pc[p].ch
    ensures |s.plock| == |s.pc| && Inv(SetPc(Own(s, q, None), p, Wake(s.pc[p].l, s.pc[p].ch, q + 1)))
  {
    hide LocksMove, OwnerOk, PcOk, WaitersOk, PassedOk, ClearOk, TestOk, CpusOk, LkOk, PlocksOk, ProcsOk;
    var k := Wake(s.pc[p].l, s.pc[p].ch, q + 1);
    var s' := SetPc(Own(s, q, None), p, k);
    PassOverLocks(s, c, p, q);
    MoveLocks(s, s', c, p, k);
    DueOwner(s, s');
    LocksMoves(s, s', c, p, k);
    PassSleep(s, s', c, p, k);
  }

  /** The wakeup comes to process `q`: if it sleeps on the channel it becomes runnable. */
  lemma {:induction false} WakeAtKeeps(s: Sys, c: nat, p: nat)
    requires Inv(s) && c < |s.cpu| && s.cpu[c] == On(p) && s.pc[p].WakeAt? && ActWake(s, c, p).Some?
    ensures Inv(ActWake(s, c, p).value)
  {
    hide OwnerOk, WaitersOk, PassedOk, ClearOk, TestOk, CpusOk, LkOk, PlocksOk, ProcsOk;
    var q := s.pc[p].q;
    LockedAway(s, c, p, q);
    var woken := if s.st[q].Sleeping? && s.chan[q] == Some(s.pc[p].ch) then s.(st := s.st[q := Runnable]) else s;
    if s.st[q].Sleeping? && s.chan[q] == Some(s.pc[p].ch) {
      WokenKeeps(s, q);
    }
    PassOver(woken, c, p, q);
  }

  lemma {:induction false} KillKeeps(s: Sys, q: nat)
    requires Inv(s) && q < |s.pc| && s.plock[q].None?
    ensures Inv(Kill(s, q))
  {
    hide OwnerOk, WaitersOk, PassedOk, ClearOk, TestOk, CpusOk, LkOk, PlocksOk, ProcsOk;
    OwnLocked(s, q);
    if s.st[q].Sleeping? {
      WokenKeeps(s, q);
    }
  }

  // ---------------------------------------------------------------- switching

  /** Only what CPU `c` does changes, and the place and state of process `y`, which no other CPU runs. */
  ghost predicate Switches(s: Sys, s': Sys, c: nat, y: nat) {
    && Shape(s) && Shape(s') && c < |s.cpu| == |s'.cpu| && y < |s.pc| == |s'.pc|
    && s' == s.(pc := s.pc[y := s'.pc[y]], st := s.st[y := s'.st[y]], cpu := s.cpu[c := s'.cpu[c]], at := s'.at)
    && (forall d: nat :: d < |s.cpu| && d != c && s.cpu[d].On? ==> s.cpu[d].q != y)
    && (forall l: nat :: l < |s.lk| ==> s.lk[l] != Some(c))
  }

  lemma {:induction false} SwitchLk(s: Sys, s': Sys, c: nat, y: nat)
    requires Switches(s, s', c, y) && LkOk(s) && forall l: nat :: l < |s.lk| ==> !CpuHas(s', c, l)
    ensures LkOk(s')
  {
    hide PcOk, HasLk;
    forall d: nat, l: nat | d < |s.cpu| && l < |s.lk| ensures s'.lk[l] == Some(d) <==> CpuHas(s', d, l) {
      assert s.lk[l] == Some(d) <==> CpuHas(s, d, l);
    }
  }

  lemma {:induction false} SwitchSleep(s: Sys, s': Sys, c: nat, y: nat)
    requires SleepOk(s) && Switches(s, s', c, y) && !Waking(s'.pc[y])
    requires !s'.pc[y].SleepWant? && !s'.pc[y].SleepBoth?
    requires Asleep(s'.pc[y], s'.st[y]) ==> Asleep(s.pc[y], s.st[y]) && s'.pc[y].ch == s.pc[y].ch
    requires Waking(s.pc[y]) ==> s'.pc[y] == s.pc[y]
    ensures SleepOk(s')
  {
    hide PcOk, Sweeping, Asleep, Waking, WaitersOk, PassedOk, ClearOk;
    SwitchSweeps(s, s', c, y);
    SleepFrame(s, s');
  }

  lemma {:induction false} SwitchSweeps(s: Sys, s': Sys, c: nat, y: nat)
    requires Switches(s, s', c, y)
    ensures forall ch: nat :: ch < |s.lockOf| && Sweeping(s, ch) ==> Sweeping(s', ch)
  {
    hide PcOk;
  }

  lemma {:induction false} OffIs(s: Sys, c: nat, p: nat)
    requires Inv(s) && c < |s.cpu| && s.cpu[c] == On(p) && (s.pc[p].YieldSet? || s.pc[p].SleepSet?)
    ensures forall l: nat :: l < |s.lk| ==> s.lk[l] != Some(c)
    ensures forall d: nat :: d < |s.cpu| && d != c && s.cpu[d].On? ==> s.cpu[d].q != p
    ensures StateOk(s.pc[p], s.st[p]) && ChanOk(s.pc[p], s.chan[p])
  {
    hide PlocksOk, PcOk, OwnerOk, SleepOk, StateOk, ChanOk;
    forall l: nat | l < |s.lk| ensures s.lk[l] != Some(c) {
      assert s.lk[l] == Some(c) <==> CpuHas(s, c, l);
    }
  }

  lemma {:induction false} OffPlocks(s: Sys, c: nat, p: nat, k: Pc)
    requires LocksOk(s) && c < |s.cpu| && s.cpu[c] == On(p) && (s.pc[p].YieldSet? || s.pc[p].SleepSet?) && IsOff(k)
    requires Shape(SwitchOff(s, c, p, k))
    ensures PlocksOk(SwitchOff(s, c, p, k))
  {
    hide PcOk, LkOk, ProcsOk;
    var s' := SwitchOff(s, c, p, k);
    forall d: nat, q: nat | d < |s.cpu| && q < |s.pc| ensures s'.plock[q] == Some(d) <==> HasPlock(s', d, q) {
      assert s.plock[q] == Some(d) <==> HasPlock(s, d, q);
      if d != c && s.cpu[d].On? {
        OtherCpu(s, c, p, d);
      }
    }
  }

  lemma {:induction false} OffRest(s: Sys, c: nat, p: nat, k: Pc)
    requires Shape(s) && CpusOk(s) && ProcsOk(s) && c < |s.cpu| && s.cpu[c] == On(p) && Shape(SwitchOff(s, c, p, k))
    requires if s.pc[p].YieldSet? then k == YieldOff(s.pc[p].want)
        else s.pc[p].SleepSet? && k == SleepOff(s.pc[p].l, s.pc[p].ch)
    ensures var s' := SwitchOff(s, c, p, k); CpusOk(s') && ProcsOk(s')
  {
    hide PcOk;
    assert StateOk(s.pc[p], s.st[p]) && ChanOk(s.pc[p], s.chan[p]);
  }

  lemma {:induction false} OffShape(s: Sys, c: nat, p: nat, k: Pc)
    requires Shape(s) && c < |s.cpu| && p < |s.pc| && PcOk(k, |s.pc|, |s.lk|, s.lockOf)
    ensures Shape(SwitchOff(s, c, p, k))
  {
    hide PcOk;
  }

  lemma {:induction false} OffKeeps(s: Sys, c: nat, p: nat)
    requires Inv(s) && c < |s.cpu| && s.cpu[c] == On(p) && (s.pc[p].YieldSet? || s.pc[p].SleepSet?)
    ensures var s' := Act(s, c, p, GoOn); s'.Some? && Inv(s'.value)
  {
    hide OwnerOk, CpusOk, LkOk, PlocksOk, ProcsOk, WaitersOk, PassedOk, ClearOk, TestOk;
    var k := if s.pc[p].SleepSet? then SleepOff(s.pc[p].l, s.pc[p].ch) else YieldOff(s.pc[p].want);
    var s' := SwitchOff(s, c, p, k);
    OffIs(s, c, p);
    OffShape(s, c, p, k);
    OffPlocks(s, c, p, k);
    OffRest(s, c, p, k);
    SwitchLk(s, s', c, p);
    SwitchSleep(s, s', c, p);
    SyncOwner(s, s');
  }

  /** A CPU that runs the scheduler has no spin lock. */
  lemma {:induction false} LookIs(s: Sys, c: nat)
    requires Inv(s) && c < |s.cpu| && !s.cpu[c].On?
    ensures forall l: nat :: l < |s.lk| ==> s.lk[l] != Some(c)
    ensures forall q: nat, d: nat :: q < |s.pc| && IsOff(s.pc[q]) && d < |s.cpu| && s.cpu[d].On? ==> s.cpu[d].q != q
  {
    hide PlocksOk, PcOk, OwnerOk, SleepOk, ProcsOk;
    forall l: nat | l < |s.lk| ensures s.lk[l] != Some(c) {
      assert s.lk[l] == Some(c) <==> CpuHas(s, c, l);
    }
  }

  /** What the scheduler does to a process lock, without touching any process. */
  ghost predicate Looks(s: Sys, s': Sys, c: nat) {
    && Shape(s) && Shape(s') && c < |s.cpu| == |s'.cpu| && !s.cpu[c].On? && !s'.cpu[c].On?
    && var q, x := s.cpu[c].q, s'.cpu[c];
    && s' == s.(plock := s.plock[q := if s.cpu[c].Look? then Some(c) else None], cpu := s.cpu[c := x])
    && (if s.cpu[c].Look? then x == LookAt(q) && s.plock[q].None? else x.Look?)
  }

  lemma {:induction false} LookPlocks(s: Sys, s': Sys, c: nat)
    requires Looks(s, s', c) && PlocksOk(s)
    ensures PlocksOk(s')
  {
    hide PcOk, Locks;
    forall d: nat, q: nat | d < |s.cpu| && q < |s.pc| ensures s'.plock[q] == Some(d) <==> HasPlock(s', d, q) {
      assert s.plock[q] == Some(d) <==> HasPlock(s, d, q);
      assert s.plock[q] == Some(c) <==> HasPlock(s, c, q);
    }
  }

  lemma {:induction false} LookRest(s: Sys, s': Sys, c: nat)
    requires Looks(s, s', c) && CpusOk(s) && ProcsOk(s)
    ensures CpusOk(s') && ProcsOk(s')
  {
    hide PcOk, StateOk, ChanOk, IsOff;
  }

  lemma {:induction false} LookKeeps(s: Sys, s': Sys, c: nat)
    requires Inv(s) && Looks(s, s', c)
    ensures Inv(s')
  {
    hide OwnerOk, CpusOk, LkOk, PlocksOk, ProcsOk, WaitersOk, PassedOk, ClearOk, TestOk, PcOk, Sweeping, Asleep, Waking;
    LookIs(s, c);
    LookPlocks(s, s', c);
    LookRest(s, s', c);
    LookLk(s, s', c);
    LookSweeps(s, s', c);
    SyncOwner(s, s');
    LookSleep(s, s');
  }

  lemma {:induction false} LookLk(s: Sys, s': Sys, c: nat)
    requires Looks(s, s', c) && LkOk(s)
    ensures LkOk(s')
  {
    hide PcOk, HasLk;
    forall d: nat, l: nat | d < |s.cpu| && l < |s.lk| ensures s'.lk[l] == Some(d) <==> CpuHas(s', d, l) {
      assert s.lk[l] == Some(d) <==> CpuHas(s, d, l);
    }
  }

  lemma {:induction false} LookSweeps(s: Sys, s': Sys, c: nat)
    requires Looks(s, s', c) && forall l: nat :: l < |s.lk| ==> s.lk[l] != Some(c)
    ensures forall ch: nat :: ch < |s.lockOf| && Sweeping(s, ch) ==> Sweeping(s', ch)
  {
    hide PcOk;
  }

  lemma {:induction false} LookSleep(s: Sys, s': Sys)
    requires SleepOk(s) && Shape(s') && s' == s.(plock := s'.plock, cpu := s'.cpu)
    requires forall ch: nat :: ch < |s.lockOf| && Sweeping(s, ch) ==> Sweeping(s', ch)
    ensures SleepOk(s')
  {
    hide Sweeping, WaitersOk, PassedOk, ClearOk;
    SleepFrame(s, s');
  }

  /** A runnable process that the scheduler has locked is on no CPU. */
  lemma {:induction false} RunnableOff(s: Sys, c: nat, q: nat)
    requires LocksOk(s) && c < |s.cpu| && s.cpu[c] == LookAt(q) && s.st[q].Runnable?
    ensures IsOff(s.pc[q]) && StateOk(s.pc[q], s.st[q]) && ChanOk(s.pc[q], s.chan[q])
  {
    hide LkOk, PcOk, ChanOk;
    assert HasPlock(s, c, q);
    OwnLocked(s, q);
  }

  lemma {:induction false} OnPlocks(s: Sys, c: nat, q: nat)
    requires LocksOk(s) && c < |s.cpu| && s.cpu[c] == LookAt(q) && IsOff(s.pc[q]) && Shape(SwitchOn(s, c, q))
    requires forall d: nat :: d < |s.cpu| && s.cpu[d].On? ==> s.cpu[d].q != q
    ensures PlocksOk(SwitchOn(s, c, q))
  {
    hide PcOk, LkOk, ProcsOk, CpusOk;
    var s' := SwitchOn(s, c, q);
    forall d: nat, x: nat | d < |s.cpu| && x < |s.pc| ensures s'.plock[x] == Some(d) <==> HasPlock(s', d, x) {
      assert s.plock[x] == Some(d) <==> HasPlock(s, d, x);
    }
  }

  lemma {:induction false} OnRest(s: Sys, c: nat, q: nat)
    requires Shape(s) && CpusOk(s) && ProcsOk(s) && c < |s.cpu| && s.cpu[c] == LookAt(q) && IsOff(s.pc[q])
    requires Shape(SwitchOn(s, c, q))
    ensures var s' := SwitchOn(s, c, q); CpusOk(s') && ProcsOk(s')
  {
    hide PcOk;
    assert StateOk(s.pc[q], s.st[q]) && ChanOk(s.pc[q], s.chan[q]);
  }

  lemma {:induction false} OnShape(s: Sys, c: nat, q: nat)
    requires Shape(s) && c < |s.cpu| && q < |s.pc|
    ensures Shape(SwitchOn(s, c, q))
  {
    assert PcOk(Resumed(s.pc[q]), |s.pc|, |s.lk|, s.lockOf);
  }

  lemma {:induction false} OnKeeps(s: Sys, c: nat, q: nat)
    requires Inv(s) && c < |s.cpu| && s.cpu[c] == LookAt(q) && s.st[q].Runnable?
    ensures Inv(SwitchOn(s, c, q))
  {
    hide OwnerOk, CpusOk, LkOk, PlocksOk, ProcsOk, WaitersOk, PassedOk, ClearOk, TestOk;
    var s' := SwitchOn(s, c, q);
    RunnableOff(s, c, q);
    LookIs(s, c);
    OnShape(s, c, q);
    OnPlocks(s, c, q);
    OnRest(s, c, q);
    SwitchLk(s, s', c, q);
    SwitchSleep(s, s', c, q);
    SyncOwner(s, s');
  }

  lemma {:induction false} ScheduleKeeps(s: Sys, c: nat)
    requires Inv(s) && c < |s.cpu| && !s.cpu[c].On? && Schedule(s, c).Some?
    ensures Inv(Schedule(s, c).value)
  {
    hide OwnerOk, CpusOk, LkOk, PlocksOk, ProcsOk, WaitersOk, PassedOk, ClearOk, TestOk, PcOk;
    var q := s.cpu[c].q;
    if s.cpu[c].LookAt? && s.st[q].Runnable? {
      OnKeeps(s, c, q);
    } else {
      LookKeeps(s, Schedule(s, c).value, c);
    }
  }

  // ---------------------------------------------------------------- every step

  lemma {:induction false} HoldKeeps(s: Sys, c: nat, p: nat, choice: Choice)
    requires Inv(s) && c < |s.cpu| && s.cpu[c] == On(p) && s.pc[p].Hold? && ActHold(s, p, choice).Some?
    requires !choice.Sleep? && !choice.Leave?
    ensures Inv(ActHold(s, p, choice).value)
  {
    hide OwnerOk, LocksOk, SleepOk;
    if choice.SetCond? {
      SetCondKeeps(s, c, p, choice.ch, choice.v);
    } else if choice.Take? {
      TakeKeeps(s, c, p, choice.ch);
    } else if choice.Give? {
      GiveKeeps(s, c, p, choice.ch);
    } else {
      StartKeeps(s, c, p, choice.ch);
    }
  }

  lemma {:induction false} ActKeeps(s: Sys, c: nat, p: nat, choice: Choice)
    requires Inv(s) && c < |s.cpu| && s.cpu[c] == On(p) && Act(s, c, p, choice).Some?
    ensures Inv(Act(s, c, p, choice).value)
  {
    hide Inv, ActFree, ActHold, ActWake;
    ProcFacts(s, c, p);
    if Quiet(s.pc[p], choice) {
      QuietKeeps(s, c, p, choice);
    } else if s.pc[p].Hold? {
      HoldKeeps(s, c, p, choice);
    } else if s.pc[p].SleepBoth? {
      DozeKeeps(s, c, p);
    } else if s.pc[p].Wake? {
      WakeKeeps(s, c, p);
    } else if s.pc[p].WakeAt? {
      WakeAtKeeps(s, c, p);
    } else {
      OffKeeps(s, c, p);
    }
  }

  // ---------------------------------------------------------------- runs

  /** A CPU takes a step, or a process is killed. */
  datatype Event = Cpu(c: nat, choice: Choice) | DoKill(q: nat)

  function Next(s: Sys, e: Event): Option<Sys>
    requires Shape(s)
  {
    match e
    case Cpu(c, choice) =>
      if c >= |s.cpu| then None
      else if s.cpu[c].On? then Act(s, c, s.cpu[c].q, choice)
      else Schedule(s, c)
    case DoKill(q) => if q < |s.pc| && s.plock[q].None? then Some(Kill(s, q)) else None
  }

  /** Every step of every CPU keeps the invariant. */
  lemma {:induction false} NextKeeps(s: Sys, e: Event)
    requires Inv(s) && Next(s, e).Some?
    ensures Inv(Next(s, e).value)
  {
    hide Act, Schedule, Kill, CpusOk, ProcsOk, OwnerOk, PlocksOk, LkOk, SleepOk, PcOk;
    match e
    case Cpu(c, choice) =>
      if s.cpu[c].On? {
        ActKeeps(s, c, s.cpu[c].q, choice);
      } else {
        ScheduleKeeps(s, c);
      }
    case DoKill(q) => KillKeeps(s, q);
  }

  /** `s'` is reached from `s` by the events. */
  ghost predicate Reaches(s: Sys, es: seq<Event>, s': Sys)
    decreases |es|
  {
    if es == [] then s' == s
    else Shape(s) && Next(s, es[0]).Some? && Reaches(Next(s, es[0]).value, es[1..], s')
  }

  lemma {:induction false} RunKeeps(s: Sys, es: seq<Event>, s': Sys)
    requires Inv(s) && Reaches(s, es, s')
    ensures Inv(s')
    decreases |es|
  {
    hide Inv, Next;
    if es != [] {
      NextKeeps(s, es[0]);
      RunKeeps(Next(s, es[0]).value, es[1..], s');
    }
  }

  /** Every process is waiting to be run, every CPU looks for one, and all locks are free. */
  ghost predicate Fresh(s: Sys) {
    && Shape(s)
    && (forall p: nat :: p < |s.pc| ==> s.pc[p] == YieldOff(None) && s.st[p].Runnable? && s.chan[p].None?)
    && (forall p: nat :: p < |s.pc| ==> s.plock[p].None? && s.at[p].None? && s.held[p] == {})
    && (forall c: nat :: c < |s.cpu| ==> s.cpu[c].Look?)
    && (forall l: nat :: l < |s.lk| ==> s.lk[l].None?)
    && (forall ch: nat :: ch < |s.lockOf| ==> !s.due[ch] && (s.isLock[ch] ==> s.cond[ch]))
  }

  lemma {:induction false} FreshInv(s: Sys)
    requires Fresh(s)
    ensures Inv(s)
  {
  }

  lemma {:induction false} RunInv(s0: Sys, es: seq<Event>, s: Sys)
    requires Fresh(s0) && Reaches(s0, es, s)
    ensures Inv(s)
  {
    hide *;
    FreshInv(s0);
    RunKeeps(s0, es, s);
  }

  // ---------------------------------------------------------------- results about every run

  /** No process is on two CPUs. */
  lemma {:induction false} OneCpu(s0: Sys, es: seq<Event>, s: Sys, c: nat, d: nat)
    requires Fresh(s0) && Reaches(s0, es, s) && c < |s.cpu| && d < |s.cpu| && s.cpu[c].On? && s.cpu[d] == s.cpu[c]
    ensures c == d
  {
    hide Fresh, Reaches, LkOk, PlocksOk, ProcsOk, OwnerOk, SleepOk, PcOk;
    RunInv(s0, es, s);
  }

  /**
   Whoever switches to the scheduler satisfies sched's checks: its CPU holds its own
   lock and no other, and its state is not running.
   */
  lemma {:induction false} SchedChecks(s0: Sys, es: seq<Event>, s: Sys, c: nat, p: nat)
    requires Fresh(s0) && Reaches(s0, es, s) && Shape(s) && c < |s.cpu| && s.cpu[c] == On(p)
    requires s.pc[p].YieldSet? || s.pc[p].SleepSet?
    ensures s.plock[p] == Some(c) && !s.st[p].Running?
    ensures forall l: nat :: l < |s.lk| ==> s.lk[l] != Some(c)
    ensures forall q: nat :: q < |s.pc| && q != p ==> s.plock[q] != Some(c)
  {
    hide Fresh, Reaches, OwnerOk, SleepOk, PcOk;
    RunInv(s0, es, s);
    OffIs(s, c, p);
    OwnLocked(s, p);
    forall q: nat | q < |s.pc| && q != p ensures s.plock[q] != Some(c) {
      assert s.plock[q] == Some(c) <==> HasPlock(s, c, q);
    }
  }

  /** At most one process has a sleep lock, and it is the one the lock names as its owner. */
  lemma {:induction false} MutualExclusion(s0: Sys, es: seq<Event>, s: Sys, p: nat, q: nat, ch: nat)
    requires Fresh(s0) && Reaches(s0, es, s) && Sizes(s) && p < |s.pc| && q < |s.pc| && ch < |s.lockOf|
    requires ch in s.held[p] && ch in s.held[q]
    ensures p == q && !s.cond[ch] && s.owner[ch] == Some(p)
  {
    hide Fresh, Reaches, CpusOk, LkOk, PlocksOk, ProcsOk, SleepOk, PcOk;
    RunInv(s0, es, s);
    assert ch in s.held[p] <==> s.isLock[ch] && !s.cond[ch] && s.owner[ch] == Some(p);
    assert ch in s.held[q] <==> s.isLock[ch] && !s.cond[ch] && s.owner[ch] == Some(q);
  }

  /** A process is in a wakeup of channel `ch` and has not yet come past process `p`. */
  ghost predicate WakerAhead(s: Sys, ch: nat, p: nat) {
    exists w: nat :: w < |s.pc| && Waking(s.pc[w]) && s.pc[w].ch == ch && s.pc[w].q <= p
  }

  /**
   No wakeup is lost: in every run, whoever sleeps on a channel waits for a condition
   that is false; or the condition has become true and its wakeup has not begun; or a
   wakeup of that channel has not yet come to it.
   */
  lemma {:induction false} NoLostWakeup(s0: Sys, es: seq<Event>, s: Sys, p: nat, ch: nat)
    requires Fresh(s0) && Reaches(s0, es, s) && Sizes(s) && p < |s.pc| && s.st[p].Sleeping? && s.chan[p] == Some(ch)
    ensures ch < |s.lockOf| && (!s.cond[ch] || s.due[ch] || WakerAhead(s, ch, p))
  {
    hide Fresh, Reaches, CpusOk, LkOk, PlocksOk, OwnerOk, ClearOk, TestOk;
    RunInv(s0, es, s);
    assert StateOk(s.pc[p], s.st[p]) && ChanOk(s.pc[p], s.chan[p]);
    assert Asleep(s.pc[p], s.st[p]) && s.pc[p].ch == ch;
    if s.cond[ch] && !s.due[ch] {
      var w := s.cpu[s.lk[s.lockOf[ch]].value].q;
      assert Waking(s.pc[w]) && s.pc[w].ch == ch;
    }
  }

  /** A wakeup that is over leaves nobody asleep on its channel until the spin lock is released. */
  lemma {:induction false} WakesAll(s0: Sys, es: seq<Event>, s: Sys, p: nat, ch: nat)
    requires Fresh(s0) && Reaches(s0, es, s) && Sizes(s) && p < |s.pc| && ch < |s.lockOf| && s.clear[ch]
    ensures !(s.st[p].Sleeping? && s.chan[p] == Some(ch))
  {
    hide Fresh, Reaches, CpusOk, LkOk, PlocksOk, OwnerOk, WaitersOk, PassedOk, TestOk, PcOk;
    RunInv(s0, es, s);
    assert StateOk(s.pc[p], s.st[p]) && ChanOk(s.pc[p], s.chan[p]);
  }

  // ---------------------------------------------------------------- runs in which every wakeup is made

  /** The spin lock, if any, that the next step of the process on CPU `c` releases. */
  function Releases(s: Sys, c: nat, choice: Choice): Option<nat>
    requires Shape(s) && c < |s.cpu|
  {
    if !s.cpu[c].On? then None
    else
      var k := s.pc[s.cpu[c].q];
      if (k.Hold? && choice.Leave?) || k.SleepBoth? then Some(k.l) else None
  }

  /** No spin lock is released while a wakeup is due on one of its channels. */
  ghost predicate Careful(s: Sys, e: Event)
    requires Shape(s)
  {
    e.Cpu? && e.c < |s.cpu| && Releases(s, e.c, e.choice).Some? ==>
      forall ch: nat :: ch < |s.lockOf| && s.lockOf[ch] == Releases(s, e.c, e.choice).value ==> !s.due[ch]
  }

  /** A wakeup is due only while somebody has the spin lock of the channel. */
  ghost predicate DueHeld(s: Sys)
    requires Sizes(s)
  {
    forall ch: nat :: ch < |s.lockOf| && s.due[ch] ==> s.lockOf[ch] < |s.lk| && s.lk[s.lockOf[ch]].Some?
  }

  lemma {:induction false} DueFree(s: Sys, c: nat, p: nat, choice: Choice)
    requires Shape(s) && c < |s.cpu| && p < |s.pc| && s.pc[p].Free? && ActFree(s, c, p, choice).Some? && DueHeld(s)
    ensures var s' := ActFree(s, c, p, choice).value; Sizes(s') && DueHeld(s')
  {
    hide PcOk;
  }

  lemma {:induction false} DueHold(s: Sys, c: nat, p: nat, choice: Choice)
    requires Shape(s) && c < |s.cpu| && s.cpu[c] == On(p) && s.pc[p].Hold? && ActHold(s, p, choice).Some? && DueHeld(s)
    requires s.pc[p].l < |s.lk| && s.lk[s.pc[p].l] == Some(c) && Careful(s, Cpu(c, choice))
    ensures var s' := ActHold(s, p, choice).value; Sizes(s') && DueHeld(s')
  {
    hide PcOk;
  }

  lemma {:induction false} DueDoze(s: Sys, c: nat, p: nat)
    requires Shape(s) && c < |s.cpu| && s.cpu[c] == On(p) && s.pc[p].SleepBoth? && DueHeld(s)
    requires s.pc[p].l < |s.lk| && Careful(s, Cpu(c, GoOn))
    ensures var s' := SetPc(Release(s, s.pc[p].l), p, SleepOnly(s.pc[p].l, s.pc[p].ch)); Sizes(s') && DueHeld(s')
  {
    hide PcOk;
  }

  /** All other steps of a process leave the spin locks and what is due as they are. */
  lemma {:induction false} DueSame(s: Sys, c: nat, p: nat, choice: Choice)
    requires Shape(s) && c < |s.cpu| && p < |s.pc| && Act(s, c, p, choice).Some?
    requires !s.pc[p].Free? && !s.pc[p].Hold? && !s.pc[p].SleepBoth?
    requires Waking(s.pc[p]) ==> s.pc[p].ch < |s.lockOf| && (s.pc[p].WakeAt? ==> s.pc[p].q < |s.pc|)
    ensures var s' := Act(s, c, p, choice).value;
      Sizes(s') && s'.due == s.due && s'.cond == s.cond && s'.lk == s.lk && s'.lockOf == s.lockOf
  {
    hide PcOk, ActFree, ActHold;
    match s.pc[p] {
      case YieldOn(_) =>
      case SleepWant(_, _) =>
      case SleepOnly(_, _) =>
      case SleepOn(_, _) =>
      case Wake(_, _, _) =>
      case WakeAt(_, _, _) =>
      case _ =>
    }
  }

  lemma {:induction false} DueAct(s: Sys, c: nat, p: nat, choice: Choice)
    requires Inv(s) && c < |s.cpu| && s.cpu[c] == On(p) && Act(s, c, p, choice).Some? && Shape(s) && DueHeld(s)
    requires Careful(s, Cpu(c, choice))
    ensures var s' := Act(s, c, p, choice).value; Sizes(s') && DueHeld(s')
  {
    hide Inv, ActFree, ActHold, ActWake, Release;
    ProcFacts(s, c, p);
    LockThere(s, p);
    if s.pc[p].Free? {
      DueFree(s, c, p, choice);
    } else if s.pc[p].Hold? {
      DueHold(s, c, p, choice);
    } else if s.pc[p].SleepBoth? {
      DueDoze(s, c, p);
    } else {
      DueSame(s, c, p, choice);
    }
  }

  lemma {:induction false} DueKept(s: Sys, e: Event)
    requires Inv(s) && Shape(s) && DueHeld(s) && Next(s, e).Some? && Careful(s, e)
    ensures var s' := Next(s, e).value; Sizes(s') && DueHeld(s')
  {
    hide Inv, Act, PcOk, Careful;
    if e.Cpu? && s.cpu[e.c].On? {
      DueAct(s, e.c, s.cpu[e.c].q, e.choice);
    }
  }

  ghost predicate ReachesCarefully(s: Sys, es: seq<Event>, s': Sys)
    decreases |es|
  {
    if es == [] then s' == s
    else Shape(s) && Careful(s, es[0]) && Next(s, es[0]).Some? && ReachesCarefully(Next(s, es[0]).value, es[1..], s')
  }

  lemma {:induction false} CarefulRun(s: Sys, es: seq<Event>, s': Sys)
    requires Inv(s) && Sizes(s) && DueHeld(s) && ReachesCarefully(s, es, s')
    ensures Inv(s') && Sizes(s') && DueHeld(s')
    decreases |es|
  {
    hide Inv, Next, DueHeld, Careful;
    if es != [] {
      NextKeeps(s, es[0]);
      DueKept(s, es[0]);
      CarefulRun(Next(s, es[0]).value, es[1..], s');
    }
  }

  /**
   If every process that makes a condition true also wakes its channel before it lets
   go of the spin lock, then while that lock is free nobody sleeps on a channel whose
   condition is true. For a sleep lock: nobody sleeps on a free one.
   */
  lemma {:induction false} NobodyLeftAsleep(s0: Sys, es: seq<Event>, s: Sys, p: nat, ch: nat)
    requires Fresh(s0) && ReachesCarefully(s0, es, s) && Sizes(s) && p < |s.pc| && ch < |s.lockOf|
    requires s.lockOf[ch] < |s.lk| && s.lk[s.lockOf[ch]].None? && s.st[p].Sleeping? && s.chan[p] == Some(ch)
    ensures !s.cond[ch]
  {
    hide ReachesCarefully, CpusOk, LkOk, PlocksOk, OwnerOk, ClearOk, TestOk, PassedOk;
    FreshInv(s0);
    CarefulRun(s0, es, s);
    assert StateOk(s.pc[p], s.st[p]) && ChanOk(s.pc[p], s.chan[p]);
    assert Asleep(s.pc[p], s.st[p]) && s.pc[p].ch == ch;
  }

  // ---------------------------------------------------------------- a lock released with a wakeup due

  /**
   What pipewrite does when it finds itself killed after it has put bytes into the pipe:
   it makes the condition of the readers true and lets go of the lock without a wakeup.
   Whoever slept on that channel sleeps on, although the condition is true, the lock is
   free and nobody is waking the channel.
   */
  lemma {:induction false} CarelessExit(s: Sys, c: nat, w: nat, p: nat, ch: nat)
    requires Inv(s) && c < |s.cpu| && s.cpu[c] == On(w) && ch < |s.lockOf| && s.pc[w] == Hold(s.lockOf[ch])
    requires !s.isLock[ch] && !s.cond[ch] && p < |s.pc| && s.st[p].Sleeping? && s.chan[p] == Some(ch)
    ensures var m := Next(s, Cpu(c, SetCond(ch, true)));
      && m.Some? && Shape(m.value) && !Careful(m.value, Cpu(c, Leave))
      && var r := Next(m.value, Cpu(c, Leave));
      && r.Some? && Inv(r.value) && r.value.st[p].Sleeping? && r.value.chan[p] == Some(ch)
      && r.value.cond[ch] && r.value.lk[s.lockOf[ch]].None? && !WakerAhead(r.value, ch, p)
      && r.value.lockOf == s.lockOf && |r.value.lk| == |s.lk| && |r.value.pc| == |s.pc|
  {
    hide CpusOk, LkOk, PlocksOk, OwnerOk, WaitersOk, PassedOk, TestOk, PcOk, Sweeping;
    ProcFacts(s, c, w);
    LockThere(s, w);
    AsleepThere(s, p, ch);
    NextKeeps(s, Cpu(c, SetCond(ch, true)));
    var m := Next(s, Cpu(c, SetCond(ch, true))).value;
    NextKeeps(m, Cpu(c, Leave));
    forall x: nat | x < |s.pc| && Waking(s.pc[x]) && s.pc[x].ch == ch ensures x == w {
      OnlyHere(s, c, w, ch, x);
    }
  }

  lemma {:induction false} AsleepThere(s: Sys, p: nat, ch: nat)
    requires Inv(s) && p < |s.pc| && s.st[p].Sleeping? && s.chan[p] == Some(ch)
    ensures Asleep(s.pc[p], s.st[p]) && s.pc[p].ch == ch && ch < |s.clear| && !s.clear[ch]
  {
    hide CpusOk, LkOk, PlocksOk, OwnerOk, WaitersOk, PassedOk, TestOk, Sweeping;
    assert StateOk(s.pc[p], s.st[p]) && ChanOk(s.pc[p], s.chan[p]);
  }

  /** A wakeup is due only on a condition that is true. */
  ghost predicate DueTrue(s: Sys)
    requires Sizes(s)
  {
    forall ch: nat :: ch < |s.lockOf| && s.due[ch] ==> s.cond[ch]
  }

  lemma {:induction false} DueTrueAct(s: Sys, c: nat, p: nat, choice: Choice)
    requires Inv(s) && c < |s.cpu| && s.cpu[c] == On(p) && Act(s, c, p, choice).Some? && Shape(s) && DueTrue(s)
    ensures var s' := Act(s, c, p, choice).value; Sizes(s') && DueTrue(s')
  {
    hide Inv, ActWake, StateOk, ChanOk, HasOwn;
    ProcFacts(s, c, p);
    LockThere(s, p);
    if !s.pc[p].Free? && !s.pc[p].Hold? && !s.pc[p].SleepBoth? {
      DueSame(s, c, p, choice);
    }
  }

  lemma {:induction false} DueTrueRun(s: Sys, es: seq<Event>, s': Sys)
    requires Inv(s) && Sizes(s) && DueTrue(s) && Reaches(s, es, s')
    ensures Inv(s') && Sizes(s') && DueTrue(s')
    decreases |es|
  {
    hide Inv, PcOk, Act;
    if es != [] {
      NextKeeps(s, es[0]);
      if es[0].Cpu? && s.cpu[es[0].c].On? {
        DueTrueAct(s, es[0].c, s.cpu[es[0].c].q, es[0].choice);
      }
      DueTrueRun(Next(s, es[0]).value, es[1..], s');
    }
  }

  /**
   In every run, releasing the lock of a channel leaves a sleeper on it behind with a true
   condition, and nobody waking it, if and only if a wakeup was due.
   */
  lemma {:induction false} ReleaseIff(s0: Sys, es: seq<Event>, s: Sys, c: nat, w: nat, p: nat, ch: nat)
    requires Fresh(s0) && Reaches(s0, es, s) && Shape(s) && c < |s.cpu| && s.cpu[c] == On(w) && ch < |s.lockOf|
    requires s.pc[w] == Hold(s.lockOf[ch]) && p < |s.pc| && s.st[p].Sleeping? && s.chan[p] == Some(ch)
    ensures var r := Next(s, Cpu(c, Leave));
      && r.Some? && Shape(r.value) && s.lockOf[ch] < |s.lk| && r.value.lk[s.lockOf[ch]].None?
      && r.value.st[p].Sleeping? && r.value.chan[p] == Some(ch) && !WakerAhead(r.value, ch, p)
      && (r.value.cond[ch] <==> s.due[ch])
  {
    hide CpusOk, LkOk, PlocksOk, OwnerOk, PassedOk, TestOk, PcOk, Sweeping, Fresh, Reaches;
    RunDue(s0, es, s);
    ProcFacts(s, c, w);
    LockThere(s, w);
    AsleepThere(s, p, ch);
    SweepsHere(s, c, w, ch);
    NextKeeps(s, Cpu(c, Leave));
    forall x: nat | x < |s.pc| && Waking(s.pc[x]) && s.pc[x].ch == ch ensures x == w {
      OnlyHere(s, c, w, ch, x);
    }
  }

  lemma {:induction false} RunDue(s0: Sys, es: seq<Event>, s: Sys)
    requires Fresh(s0) && Reaches(s0, es, s)
    ensures Inv(s) && Sizes(s) && DueTrue(s)
  {
    hide Reaches;
    FreshInv(s0);
    DueTrueRun(s0, es, s);
  }

  // ------------------------------------------------- the careless exit, from a fresh system

  /** Two processes and two CPUs; process 0 and CPU 0 on the left. The one channel is a condition of a pipe. */
  function Duo(pc: seq<Pc>, st: seq<St>, chan: Option<nat>, plock: seq<Option<nat>>, cpu: seq<Cpu>,
    at: seq<Option<nat>>, lk: Option<nat>): Sys
  {
    Sys(pc, st, [chan, None], plock, cpu, at, [lk], [0], [false], [false], [false], [false], [{}, {}], [None])
  }

  /** A reader takes the lock, finds the pipe empty and goes to sleep; then a writer takes the lock. */
  function Stage(k: nat): Sys {
    var out := YieldOff(None);
    var (r, w) := (Runnable, Running);
    match k
    case 0 => Duo([out, out], [r, r], None, [None, None], [Look(0), Look(1)], [None, None], None)
    case 1 => Duo([out, out], [r, r], None, [Some(0), None], [LookAt(0), Look(1)], [None, None], None)
    case 2 => Duo([YieldOn(None), out], [w, r], None, [Some(0), None], [On(0), Look(1)], [Some(0), None], None)
    case 3 => Duo([Free(None), out], [w, r], None, [None, None], [On(0), Look(1)], [Some(0), None], None)
    case 4 => Duo([Hold(0), out], [w, r], None, [None, None], [On(0), Look(1)], [Some(0), None], Some(0))
    case 5 => Duo([SleepWant(0, 0), out], [w, r], None, [None, None], [On(0), Look(1)], [Some(0), None], Some(0))
    case 6 => Duo([SleepBoth(0, 0), out], [w, r], None, [Some(0), None], [On(0), Look(1)], [Some(0), None], Some(0))
    case 7 => Duo([SleepOnly(0, 0), out], [w, r], None, [Some(0), None], [On(0), Look(1)], [Some(0), None], None)
    case 8 =>
      Duo([SleepSet(0, 0), out], [Sleeping, r], Some(0), [Some(0), None], [On(0), Look(1)], [Some(0), None], None)
    case 9 =>
      Duo([SleepOff(0, 0), out], [Sleeping, r], Some(0), [Some(0), None], [Back(0), Look(1)], [None, None], None)
    case 10 =>
      Duo([SleepOff(0, 0), out], [Sleeping, r], Some(0), [Some(0), Some(1)], [Back(0), LookAt(1)], [None, None], None)
    case 11 =>
      Duo([SleepOff(0, 0), YieldOn(None)], [Sleeping, w], Some(0), [Some(0), Some(1)], [Back(0), On(1)],
          [None, Some(1)], None)
    case 12 =>
      Duo([SleepOff(0, 0), Free(None)], [Sleeping, w], Some(0), [Some(0), None], [Back(0), On(1)],
          [None, Some(1)], None)
    case _ =>
      Duo([SleepOff(0, 0), Hold(0)], [Sleeping, w], Some(0), [Some(0), None], [Back(0), On(1)],
          [None, Some(1)], Some(1))
  }

  function StageEvent(k: nat): Event {
    if k == 3 then Cpu(0, Acquire(0)) else if k == 4 then Cpu(0, Sleep(0))
    else if k < 9 then Cpu(0, GoOn)
    else if k < 12 then Cpu(1, GoOn) else Cpu(1, Acquire(0))
  }

  function StageEvents(k: nat): seq<Event> { if k == 0 then [] else StageEvents(k - 1) + [StageEvent(k - 1)] }

  /** Two states that are the same field by field. */
  ghost predicate Same(a: Sys, b: Sys) {
    && a.pc == b.pc && a.st == b.st && a.chan == b.chan && a.plock == b.plock && a.cpu == b.cpu && a.at == b.at
    && a.lk == b.lk && a.lockOf == b.lockOf && a.isLock == b.isLock && a.cond == b.cond && a.due == b.due
    && a.clear == b.clear && a.held == b.held && a.owner == b.owner
  }

  lemma {:induction false} Stage0()
    ensures Shape(Stage(0)) && Next(Stage(0), StageEvent(0)) == Some(Stage(1))
  {
    hide ActWake, Act, ActFree, ActHold;
    assert Same(Next(Stage(0), StageEvent(0)).value, Stage(1));
  }

  lemma {:induction false} Stage1()
    ensures Shape(Stage(1)) && Next(Stage(1), StageEvent(1)) == Some(Stage(2))
  {
    hide ActWake, Act, ActFree, ActHold;
    assert Same(Next(Stage(1), StageEvent(1)).value, Stage(2));
  }

  lemma {:induction false} Stage2()
    ensures Shape(Stage(2)) && Next(Stage(2), StageEvent(2)) == Some(Stage(3))
  {
    hide ActWake, Schedule, ActFree, ActHold;
    assert Same(Next(Stage(2), StageEvent(2)).value, Stage(3));
  }

  lemma {:induction false} Stage3()
    ensures Shape(Stage(3)) && Next(Stage(3), StageEvent(3)) == Some(Stage(4))
  {
    hide ActWake, Schedule, ActHold;
    assert Same(Next(Stage(3), StageEvent(3)).value, Stage(4));
  }

  lemma {:induction false} Stage4()
    ensures Shape(Stage(4)) && Next(Stage(4), StageEvent(4)) == Some(Stage(5))
  {
    hide ActWake, Schedule, ActFree;
    assert Same(Next(Stage(4), StageEvent(4)).value, Stage(5));
  }

  lemma {:induction false} Stage5()
    ensures Shape(Stage(5)) && Next(Stage(5), StageEvent(5)) == Some(Stage(6))
  {
    hide ActWake, Schedule, ActFree, ActHold;
    assert Same(Next(Stage(5), StageEvent(5)).value, Stage(6));
  }

  lemma {:induction false} Stage6()
    ensures Shape(Stage(6)) && Next(Stage(6), StageEvent(6)) == Some(Stage(7))
  {
    hide ActWake, Schedule, ActFree, ActHold;
    assert Same(Next(Stage(6), StageEvent(6)).value, Stage(7));
  }

  lemma {:induction false} Stage7()
    ensures Shape(Stage(7)) && Next(Stage(7), StageEvent(7)) == Some(Stage(8))
  {
    hide ActWake, Schedule, ActFree, ActHold;
    assert Same(Next(Stage(7), StageEvent(7)).value, Stage(8));
  }

  lemma {:induction false} Stage8()
    ensures Shape(Stage(8)) && Next(Stage(8), StageEvent(8)) == Some(Stage(9))
  {
    hide ActWake, Schedule, ActFree, ActHold;
    assert Same(Next(Stage(8), StageEvent(8)).value, Stage(9));
  }

  lemma {:induction false} Stage9()
    ensures Shape(Stage(9)) && Next(Stage(9), StageEvent(9)) == Some(Stage(10))
  {
    hide ActWake, Act, ActFree, ActHold;
    assert Same(Next(Stage(9), StageEvent(9)).value, Stage(10));
  }

  lemma {:induction false} Stage10()
    ensures Shape(Stage(10)) && Next(Stage(10), StageEvent(10)) == Some(Stage(11))
  {
    hide ActWake, Act, ActFree, ActHold;
    assert Same(Next(Stage(10), StageEvent(10)).value, Stage(11));
  }

  lemma {:induction false} Stage11()
    ensures Shape(Stage(11)) && Next(Stage(11), StageEvent(11)) == Some(Stage(12))
  {
    hide ActWake, Schedule, ActFree, ActHold;
    assert Same(Next(Stage(11), StageEvent(11)).value, Stage(12));
  }

  lemma {:induction false} Stage12()
    ensures Shape(Stage(12)) && Next(Stage(12), StageEvent(12)) == Some(Stage(13))
  {
    hide ActWake, Schedule, ActHold;
    assert Same(Next(Stage(12), StageEvent(12)).value, Stage(13));
  }

  lemma {:induction false} StageStep(k: nat)
    requires k < 13
    ensures Shape(Stage(k)) && Next(Stage(k), StageEvent(k)) == Some(Stage(k + 1))
  {
    hide *;
    match k
    case 0 => Stage0();
    case 1 => Stage1();
    case 2 => Stage2();
    case 3 => Stage3();
    case 4 => Stage4();
    case 5 => Stage5();
    case 6 => Stage6();
    case 7 => Stage7();
    case 8 => Stage8();
    case 9 => Stage9();
    case 10 => Stage10();
    case 11 => Stage11();
    case _ => Stage12();
  }

  lemma {:induction false} StageRun(k: nat)
    requires k <= 13
    ensures Reaches(Stage(0), StageEvents(k), Stage(k))
  {
    hide Stage, StageEvent, Next, Shape;
    if k > 0 {
      StageRun(k - 1);
      StageStep(k - 1);
      ReachesMore(Stage(0), StageEvents(k - 1), Stage(k - 1), StageEvent(k - 1));
    }
  }

  lemma {:induction false} ReachesMore(s: Sys, es: seq<Event>, m: Sys, e: Event)
    requires Reaches(s, es, m) && Shape(m) && Next(m, e).Some?
    ensures Reaches(s, es + [e], Next(m, e).value)
    decreases |es|
  {
    hide Next, Shape;
    if es == [] {
      assert (es + [e])[1..] == [];
    } else {
      ReachesMore(Next(s, es[0]).value, es[1..], m, e);
      assert (es + [e])[1..] == es[1..] + [e];
    }
  }

  lemma {:induction false} StageEnds()
    ensures Fresh(Stage(0))
    ensures var s := Stage(13);
      && |s.cpu| == 2 && s.cpu[1] == On(1) && |s.pc| == 2 && s.pc[1] == Hold(0) && s.lockOf == [0] && |s.lk| == 1
      && s.isLock == [false] && s.cond == [false] && |s.st| == 2 && s.st[0].Sleeping?
      && |s.chan| == 2 && s.chan[0] == Some(0)
  {
  }

  /**
   From a fresh system a reader is left asleep by a killed writer: the pipe has bytes, its lock is
   free, and nobody is waking the readers.
   */
  lemma {:induction false} ReaderLeftAsleep() returns (es: seq<Event>, r: Sys)
    ensures Fresh(Stage(0)) && es == StageEvents(13) + [Cpu(1, SetCond(0, true))] + [Cpu(1, Leave)]
    ensures Reaches(Stage(0), es, r) && Shape(r) && |r.lk| == |r.cond| == 1 && |r.pc| == 2
    ensures r.st[0].Sleeping? && r.chan[0] == Some(0) && r.cond[0] && r.lk[0].None? && !WakerAhead(r, 0, 0)
  {
    hide *;
    StageEnds();
    var s := Stage(13);
    StageRun(13);
    RunInv(Stage(0), StageEvents(13), s);
    CarelessExit(s, 1, 1, 0, 0);
    InvShape(s);
    var m := Next(s, Cpu(1, SetCond(0, true))).value;
    r := Next(m, Cpu(1, Leave)).value;
    ReachesMore(Stage(0), StageEvents(13), s, Cpu(1, SetCond(0, true)));
    ReachesMore(Stage(0), StageEvents(13) + [Cpu(1, SetCond(0, true))], m, Cpu(1, Leave));
    es := StageEvents(13) + [Cpu(1, SetCond(0, true))] + [Cpu(1, Leave)];
    InvShape(r);
  }

  lemma {:induction false} InvShape(s: Sys)
    requires Inv(s)
    ensures Shape(s) && |s.cond| == |s.lockOf|
  {
  }

  // ---------------------------------------------------------------- what scheduler and kill achieve

  /** A CPU that looks at a runnable process whose lock is free has it running two steps later. */
  lemma {:induction false} SchedulerRuns(s: Sys, c: nat)
    requires Inv(s) && c < |s.cpu| && s.cpu[c].Look? && s.plock[s.cpu[c].q].None? && s.st[s.cpu[c].q].Runnable?
    ensures var q := s.cpu[c].q; var m := Next(s, Cpu(c, GoOn));
      && m.Some? && Shape(m.value)
      && var r := Next(m.value, Cpu(c, GoOn));
      && r.Some? && Shape(r.value) && |r.value.cpu| == |s.cpu| && |r.value.pc| == |s.pc|
      && r.value.cpu[c] == On(q) && r.value.at[q] == Some(c) && r.value.st[q].Running? && !IsOff(r.value.pc[q])
  {
    hide CpusOk, LkOk, PlocksOk, ProcsOk, OwnerOk, SleepOk, PcOk;
    InvShape(s);
    NextKeeps(s, Cpu(c, GoOn));
    var m := Next(s, Cpu(c, GoOn)).value;
    InvShape(m);
    NextKeeps(m, Cpu(c, GoOn));
    InvShape(Next(m, Cpu(c, GoOn)).value);
  }

  lemma {:induction false} Around(q: nat, n: nat)
    requires q < n
    ensures (q + 1) % n == if q + 1 < n then q + 1 else 0
  {
  }

  lemma {:induction false} RoundIs(s: Sys, c: nat)
    requires Shape(s) && c < |s.cpu| && s.cpu[c].LookAt? && !s.st[s.cpu[c].q].Runnable?
    ensures Next(s, Cpu(c, GoOn)) == Some(NextLook(s, c, s.cpu[c].q))
  {
    hide Act, Kill, SwitchOn, NextLook, PcOk;
  }

  /** And a CPU that finds nothing to run goes on to the next process. */
  lemma {:induction false} SchedulerGoesRound(s: Sys, c: nat)
    requires Inv(s) && c < |s.cpu| && s.cpu[c].LookAt? && !s.st[s.cpu[c].q].Runnable?
    ensures var q := s.cpu[c].q; var m := Next(s, Cpu(c, GoOn));
      && m.Some? && |m.value.cpu| == |s.cpu| && |m.value.plock| == |s.plock|
      && m.value.cpu[c] == Look((q + 1) % |s.pc|) && m.value.plock[q].None? && m.value.st == s.st
  {
    hide Inv, Next, PcOk;
    InvShape(s);
    RoundIs(s, c);
    Around(s.cpu[c].q, |s.pc|);
  }

  /** A killed process does not stay asleep, and nobody else is woken. */
  lemma {:induction false} KillWakes(s: Sys, q: nat)
    requires Inv(s) && q < |s.pc| && s.plock[q].None?
    ensures var r := Next(s, DoKill(q));
      && r.Some? && |r.value.st| == |s.st| && !r.value.st[q].Sleeping?
      && forall p: nat :: p < |s.st| && p != q ==> r.value.st[p] == s.st[p]
  {
    hide CpusOk, LkOk, PlocksOk, ProcsOk, OwnerOk, SleepOk, PcOk;
    InvShape(s);
  }

  /** acquiresleep with the spin lock in hand: a free sleep lock is taken, a taken one is slept for. */
  lemma {:induction false} AcquireSleep(s: Sys, c: nat, p: nat, ch: nat)
    requires Inv(s) && c < |s.cpu| && s.cpu[c] == On(p) && ch < |s.lockOf| && s.isLock[ch]
    requires p < |s.pc| && s.pc[p] == Hold(s.lockOf[ch])
    ensures var r := Next(s, Cpu(c, Take(ch)));
      && (r.Some? <==> s.cond[ch])
      && (r.Some? ==> Shape(r.value) && |r.value.held| == |s.held| && |r.value.owner| == |s.owner|)
      && (r.Some? ==> ch in r.value.held[p] && r.value.owner[ch] == Some(p) && !r.value.cond[ch])
    ensures var r := Next(s, Cpu(c, Sleep(ch)));
      (r.Some? <==> !s.cond[ch]) && (r.Some? ==> |r.value.pc| == |s.pc| && r.value.pc[p] == SleepWant(s.lockOf[ch], ch))
  {
    hide CpusOk, LkOk, PlocksOk, ProcsOk, OwnerOk, SleepOk, PcOk;
    InvShape(s);
    if s.cond[ch] {
      NextKeeps(s, Cpu(c, Take(ch)));
      InvShape(Next(s, Cpu(c, Take(ch))).value);
    }
  }

  /** releasesleep by the owner: the lock is free and a wakeup can start. */
  lemma {:induction false} ReleaseSleep(s: Sys, c: nat, p: nat, ch: nat)
    requires Inv(s) && c < |s.cpu| && s.cpu[c] == On(p) && ch < |s.lockOf| && p < |s.pc|
    requires s.pc[p] == Hold(s.lockOf[ch]) && ch in s.held[p]
    ensures var m := Next(s, Cpu(c, Give(ch)));
      && m.Some? && Shape(m.value) && |m.value.held| == |s.held| && |m.value.cond| == |s.cond|
      && ch !in m.value.held[p] && m.value.cond[ch]
      && var r := Next(m.value, Cpu(c, StartWake(ch)));
      && r.Some? && |r.value.pc| == |s.pc| && r.value.pc[p] == Wake(s.lockOf[ch], ch, 0)
  {
    hide CpusOk, LkOk, PlocksOk, ProcsOk, OwnerOk, SleepOk, PcOk;
    InvShape(s);
    NextKeeps(s, Cpu(c, Give(ch)));
    InvShape(Next(s, Cpu(c, Give(ch))).value);
  }

  /** The wakeup loop at process `k.q`, whose lock it has: a sleeper on the channel becomes runnable, others stay. */
  lemma {:induction false} WakesOne(s: Sys, c: nat, p: nat)
    requires Inv(s) && c < |s.cpu| && s.cpu[c] == On(p) && p < |s.pc| && s.pc[p].WakeAt?
    ensures var k := s.pc[p]; var r := Next(s, Cpu(c, GoOn));
      && r.Some? && |r.value.pc| == |s.pc| && |r.value.st| == |s.st| && k.q < |s.st|
      && r.value.pc[p] == Wake(k.l, k.ch, k.q + 1)
      && r.value.st[k.q] == (if s.st[k.q].Sleeping? && s.chan[k.q] == Some(k.ch) then Runnable else s.st[k.q])
      && forall x: nat :: x < |s.st| && x != k.q ==> r.value.st[x] == s.st[x]
  {
    hide CpusOk, LkOk, PlocksOk, ProcsOk, OwnerOk, SleepOk;
    InvShape(s);
  }
}
