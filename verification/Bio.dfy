/**
 * The buffer cache of kernel/bio.c as a step machine: references and sleep locks taken one step at a time by any
 * number of callers, recycling in least recently released order, and buffers that the log keeps pinned.
 */
module Bio {
  import opened Common

  const NBUF := 30

  datatype Buf = Buf(dev: nat, blockno: nat, valid: bool, refcnt: nat, data: int)

  /** A caller between bget and brelse: waiting for the lock, holding it, or done with it. */
  datatype Act = Waiting | Holding | Leaving

  datatype Ticket = Ticket(b: nat, dev: nat, blockno: nat, act: Act)

  type Disk = map<(nat, nat), int>

  /**
   * `order` is the list from the most to the least recently released buffer; `since` is when each was last
   * released, `pins` how often the log has pinned it, and `tickets` the references callers hold.
   */
  datatype Cache = Cache(
    bufs: seq<Buf>, order: seq<nat>, tickets: map<nat, Ticket>, pins: seq<nat>, disk: Disk,
    since: seq<nat>, clock: nat)

  function OnDisk(d: Disk, dev: nat, blockno: nat): int {
    if (dev, blockno) in d then d[(dev, blockno)] else 0
  }

  predicate Is(b: Buf, dev: nat, blockno: nat) { b.dev == dev && b.blockno == blockno }

  // ---------------------------------------------------------------- invariant

  predicate Shape(c: Cache) {
    |c.bufs| == NBUF && |c.pins| == NBUF && |c.since| == NBUF
  }

  /** The list holds every buffer once. */
  ghost predicate Permutation(order: seq<nat>) {
    |order| == NBUF && Distinct(order) && forall b: nat :: b in order <==> b < NBUF
  }

  /** A block of a real device is in at most one buffer. */
  ghost predicate Unique(bufs: seq<Buf>) {
    forall i, j :: 0 <= i < |bufs| && 0 <= j < |bufs| ==>
      bufs[i].dev != 0 && Is(bufs[j], bufs[i].dev, bufs[i].blockno) ==> i == j
  }

  ghost function Refs(tickets: map<nat, Ticket>, b: nat): set<nat> {
    set t | t in tickets && tickets[t].b == b
  }

  /** Reference counts count the callers and the pins. */
  ghost predicate Counted(c: Cache)
    requires Shape(c)
  {
    forall b: nat :: b < NBUF ==> c.bufs[b].refcnt == |Refs(c.tickets, b)| + c.pins[b]
  }

  /** The buffer of a ticket is still about the block that was asked for. */
  ghost predicate Kept(c: Cache)
    requires Shape(c)
  {
    forall t :: t in c.tickets ==>
      var k := c.tickets[t];
      k.b < NBUF && k.dev != 0 && Is(c.bufs[k.b], k.dev, k.blockno)
  }

  predicate Holds(tickets: map<nat, Ticket>, t: nat) {
    t in tickets && tickets[t].act.Holding?
  }

  /** One caller at a time holds a buffer. */
  ghost predicate Exclusive(tickets: map<nat, Ticket>) {
    forall t, t' :: Holds(tickets, t) && Holds(tickets, t') && tickets[t].b == tickets[t'].b ==> t == t'
  }

  predicate Dirty(c: Cache, b: nat)
    requires Shape(c) && b < NBUF
  {
    c.bufs[b].valid && c.bufs[b].data != OnDisk(c.disk, c.bufs[b].dev, c.bufs[b].blockno)
  }

  ghost predicate Held(tickets: map<nat, Ticket>, b: nat) {
    exists t :: Holds(tickets, t) && tickets[t].b == b
  }

  /** What differs from the disk is held by a caller or pinned by the log. */
  ghost predicate Guarded(c: Cache)
    requires Shape(c)
  {
    forall b: nat :: b < NBUF && Dirty(c, b) ==> c.pins[b] > 0 || Held(c.tickets, b)
  }

  /** The list is in the order of release. */
  ghost predicate ByRelease(order: seq<nat>, since: seq<nat>, clock: nat) {
    && (forall b :: 0 <= b < |since| ==> since[b] < clock)
    && (forall i, j :: 0 <= i < j < |order| && order[i] < |since| && order[j] < |since| ==>
        since[order[j]] < since[order[i]])
  }

  ghost predicate Inv(c: Cache) {
    && Shape(c) && Permutation(c.order) && Unique(c.bufs) && Counted(c) && Kept(c) && Exclusive(c.tickets)
    && Guarded(c) && ByRelease(c.order, c.since, c.clock)
  }

  // ---------------------------------------------------------------- bget

  /** The first buffer of the list that has the block. */
  function Find(bufs: seq<Buf>, order: seq<nat>, dev: nat, blockno: nat): Option<nat> {
    if order == [] then None
    else if order[0] < |bufs| && Is(bufs[order[0]], dev, blockno) then Some(order[0])
    else Find(bufs, order[1..], dev, blockno)
  }

  /** The last buffer of the list that nobody refers to. */
  function Victim(bufs: seq<Buf>, order: seq<nat>): Option<nat> {
    if order == [] then None
    else if Last(order) < |bufs| && bufs[Last(order)].refcnt == 0 then Some(Last(order))
    else Victim(bufs, Init(order))
  }

  function Refer(c: Cache, t: nat, b: nat, dev: nat, blockno: nat, buf: Buf): Cache
    requires Shape(c) && b < NBUF
  {
    c.(bufs := c.bufs[b := buf], tickets := c.tickets[t := Ticket(b, dev, blockno, Waiting)])
  }

  /** bget up to the sleep lock; none if it panics. */
  function Get(c: Cache, t: nat, dev: nat, blockno: nat): Option<Cache>
    requires Shape(c)
  {
    match Find(c.bufs, c.order, dev, blockno)
    case Some(b) =>
      if b >= NBUF then None
      else Some(Refer(c, t, b, dev, blockno, c.bufs[b].(refcnt := c.bufs[b].refcnt + 1)))
    case None =>
      match Victim(c.bufs, c.order)
      case None => None
      case Some(b) => if b >= NBUF then None
          else Some(Refer(c, t, b, dev, blockno, Buf(dev, blockno, false, 1, c.bufs[b].data)))
  }

  lemma {:induction false} FindIs(bufs: seq<Buf>, order: seq<nat>, dev: nat, blockno: nat)
    requires |bufs| == NBUF && forall b :: b in order ==> b < NBUF
    ensures Find(bufs, order, dev, blockno).Some? ==>
      var b := Find(bufs, order, dev, blockno).value;
      b in order && Is(bufs[b], dev, blockno)
    ensures Find(bufs, order, dev, blockno).None? ==> forall b :: b in order ==> !Is(bufs[b], dev, blockno)
  {
    if order != [] {
      assert order[0] in order;
      assert forall b :: b in order <==> b in order[1..] || b == order[0] by {
        assert order == [order[0]] + order[1..];
      }
      FindIs(bufs, order[1..], dev, blockno);
    }
  }

  lemma {:induction false} LastReleased(order: seq<nat>, since: seq<nat>, clock: nat)
    requires order != [] && |since| == NBUF && (forall b :: b in order ==> b < NBUF) && ByRelease(order, since, clock)
    ensures ByRelease(Init(order), since, clock) && (forall b :: b in order <==> b in Init(order) || b == Last(order))
    ensures Last(order) < NBUF && forall b :: b in order && b != Last(order) ==> since[Last(order)] < since[b]
  {
    var z := Last(order);
    assert order == Init(order) + [z] && order[|order| - 1] in order;
    forall b | b in order && b != z ensures since[z] < since[b] {
      var i :| 0 <= i < |order| && order[i] == b;
      assert order[i] in order;
      assert since[order[|order| - 1]] < since[order[i]];
    }
  }

  /** The buffer that is recycled has no reference, and of those the one released longest ago. */
  lemma {:induction false} VictimIs(bufs: seq<Buf>, order: seq<nat>, since: seq<nat>, clock: nat)
    requires |bufs| == NBUF && |since| == NBUF && (forall b :: b in order ==> b < NBUF)
    requires ByRelease(order, since, clock)
    ensures Victim(bufs, order).Some? ==>
      var v := Victim(bufs, order).value;
      && v in order && bufs[v].refcnt == 0
      && forall b :: b in order && bufs[b].refcnt == 0 && b != v ==> since[v] < since[b]
    ensures Victim(bufs, order).None? ==> forall b :: b in order ==> bufs[b].refcnt > 0
  {
    if order != [] {
      LastReleased(order, since, clock);
      hide ByRelease;
      if bufs[Last(order)].refcnt != 0 {
        VictimIs(bufs, Init(order), since, clock);
        assert Victim(bufs, order) == Victim(bufs, Init(order));
        hide Victim, Init, Last;
      }
    }
  }

  // ---------------------------------------------------------------- references

  lemma {:induction false} NoRefs(c: Cache, b: nat)
    requires Shape(c) && Counted(c) && b < NBUF && c.bufs[b].refcnt == 0
    ensures c.pins[b] == 0 && !Held(c.tickets, b) && forall t :: t in c.tickets ==> c.tickets[t].b != b
  {
    forall t | t in c.tickets ensures c.tickets[t].b != b {
      assert t in Refs(c.tickets, b) <==> c.tickets[t].b == b;
    }
  }

  lemma {:induction false} AddRef(tickets: map<nat, Ticket>, t: nat, k: Ticket, b: nat)
    requires t !in tickets
    ensures |Refs(tickets[t := k], b)| == |Refs(tickets, b)| + if k.b == b then 1 else 0
  {
    var more := tickets[t := k];
    if k.b == b {
      assert Refs(more, b) == Refs(tickets, b) + {t};
    } else {
      assert Refs(more, b) == Refs(tickets, b);
    }
  }

  lemma {:induction false} DropRef(tickets: map<nat, Ticket>, t: nat, b: nat)
    requires t in tickets
    ensures |Refs(tickets - {t}, b)| == |Refs(tickets, b)| - if tickets[t].b == b then 1 else 0
  {
    if tickets[t].b == b {
      assert Refs(tickets, b) == Refs(tickets - {t}, b) + {t};
    } else {
      assert Refs(tickets - {t}, b) == Refs(tickets, b);
    }
  }

  lemma {:induction false} SameRefs(tickets: map<nat, Ticket>, t: nat, act: Act, b: nat)
    requires t in tickets
    ensures Refs(tickets[t := tickets[t].(act := act)], b) == Refs(tickets, b)
  {
  }

  /** A clean buffer without references can be given to another block. */
  lemma {:induction false} Unreferenced(c: Cache, b: nat)
    requires Inv(c) && b < NBUF && c.bufs[b].refcnt == 0
    ensures !Dirty(c, b)
  {
    NoRefs(c, b);
  }

  lemma {:induction false} ReferCounted(c: Cache, t: nat, b: nat, dev: nat, blockno: nat, buf: Buf)
    requires Shape(c) && Counted(c) && b < NBUF && t !in c.tickets && buf.refcnt == c.bufs[b].refcnt + 1
    ensures Counted(Refer(c, t, b, dev, blockno, buf))
  {
    var c' := Refer(c, t, b, dev, blockno, buf);
    forall x: nat | x < NBUF ensures c'.bufs[x].refcnt == |Refs(c'.tickets, x)| + c'.pins[x] {
      AddRef(c.tickets, t, Ticket(b, dev, blockno, Waiting), x);
    }
  }

  lemma {:induction false} ReferHeld(c: Cache, t: nat, k: Ticket, b: nat)
    requires t !in c.tickets && k.act.Waiting?
    ensures Held(c.tickets[t := k], b) <==> Held(c.tickets, b)
    ensures Exclusive(c.tickets) ==> Exclusive(c.tickets[t := k])
  {
    var more := c.tickets[t := k];
    assert forall x :: Holds(more, x) <==> Holds(c.tickets, x);
    assert forall x :: Holds(more, x) ==> more[x] == c.tickets[x];
    hide Holds;
    if x :| Holds(c.tickets, x) && c.tickets[x].b == b {
      assert Holds(more, x);
    }
  }

  /** The buffer is cached already: one more reference. */
  lemma {:induction false} HitKeeps(c: Cache, t: nat, b: nat, dev: nat, blockno: nat)
    requires Inv(c) && t !in c.tickets && b < NBUF && dev != 0 && Is(c.bufs[b], dev, blockno)
    ensures Inv(Refer(c, t, b, dev, blockno, c.bufs[b].(refcnt := c.bufs[b].refcnt + 1)))
  {
    var buf := c.bufs[b].(refcnt := c.bufs[b].refcnt + 1);
    var c' := Refer(c, t, b, dev, blockno, buf);
    ReferCounted(c, t, b, dev, blockno, buf);
    assert Kept(c') && Unique(c'.bufs);
    forall x: nat ensures Held(c'.tickets, x) <==> Held(c.tickets, x) {
      ReferHeld(c, t, Ticket(b, dev, blockno, Waiting), x);
    }
    ReferHeld(c, t, Ticket(b, dev, blockno, Waiting), b);
    hide Held, Refs, Counted, Kept, Unique, Exclusive, ByRelease, Permutation;
    assert forall x: nat :: x < NBUF ==> (Dirty(c', x) <==> Dirty(c, x));
  }

  /** A buffer without references takes the block. */
  lemma {:induction false} MissKeeps(c: Cache, t: nat, b: nat, dev: nat, blockno: nat)
    requires Inv(c) && t !in c.tickets && b < NBUF && dev != 0 && c.bufs[b].refcnt == 0
    requires forall x: nat :: x < NBUF ==> !Is(c.bufs[x], dev, blockno)
    ensures Inv(Refer(c, t, b, dev, blockno, Buf(dev, blockno, false, 1, c.bufs[b].data)))
  {
    var buf := Buf(dev, blockno, false, 1, c.bufs[b].data);
    var c' := Refer(c, t, b, dev, blockno, buf);
    NoRefs(c, b);
    ReferCounted(c, t, b, dev, blockno, buf);
    assert Kept(c') && Unique(c'.bufs);
    forall x: nat ensures Held(c'.tickets, x) <==> Held(c.tickets, x) {
      ReferHeld(c, t, Ticket(b, dev, blockno, Waiting), x);
    }
    ReferHeld(c, t, Ticket(b, dev, blockno, Waiting), b);
    hide Held, Refs, Counted, Kept, Unique, Exclusive, ByRelease, Permutation;
    assert forall x: nat :: x < NBUF && x != b ==> (Dirty(c', x) <==> Dirty(c, x));
  }

  lemma {:induction false} GetKeeps(c: Cache, t: nat, dev: nat, blockno: nat)
    requires Inv(c) && t !in c.tickets && dev != 0
    ensures Get(c, t, dev, blockno).Some? ==> Inv(Get(c, t, dev, blockno).value)
    ensures Get(c, t, dev, blockno).None? <==>
      (forall b: nat :: b < NBUF ==> !Is(c.bufs[b], dev, blockno) && c.bufs[b].refcnt > 0)
  {
    hide Find, Victim, Unique, Counted, Kept, Exclusive, Guarded, ByRelease, Distinct;
    FindIs(c.bufs, c.order, dev, blockno);
    if Find(c.bufs, c.order, dev, blockno).Some? {
      HitKeeps(c, t, Find(c.bufs, c.order, dev, blockno).value, dev, blockno);
    } else {
      assert forall b: nat :: b < NBUF ==> !Is(c.bufs[b], dev, blockno);
      VictimIs(c.bufs, c.order, c.since, c.clock);
      if Victim(c.bufs, c.order).Some? {
        MissKeeps(c, t, Victim(c.bufs, c.order).value, dev, blockno);
      }
    }
    hide Inv;
  }

  // ---------------------------------------------------------------- locks

  function SetAct(c: Cache, t: nat, act: Act): Cache
    requires t in c.tickets
  {
    c.(tickets := c.tickets[t := c.tickets[t].(act := act)])
  }

  lemma {:induction false} ActCounted(c: Cache, t: nat, act: Act)
    requires Shape(c) && Counted(c) && Kept(c) && t in c.tickets
    ensures Counted(SetAct(c, t, act)) && Kept(SetAct(c, t, act))
  {
    var c' := SetAct(c, t, act);
    forall b: nat | b < NBUF ensures c'.bufs[b].refcnt == |Refs(c'.tickets, b)| + c'.pins[b] {
      SameRefs(c.tickets, t, act, b);
    }
  }

  /** acquiresleep: the lock is free, and then this caller holds it. */
  lemma {:induction false} LockKeeps(c: Cache, t: nat)
    requires Inv(c) && t in c.tickets && !Held(c.tickets, c.tickets[t].b)
    ensures Inv(SetAct(c, t, Holding))
  {
    hide Counted, Kept, Permutation, ByRelease, Unique;
    ActCounted(c, t, Holding);
    var c' := SetAct(c, t, Holding);
    forall x, y | Holds(c'.tickets, x) && Holds(c'.tickets, y) && c'.tickets[x].b == c'.tickets[y].b ensures x == y {
      assert x != t ==> Holds(c.tickets, x) && c.tickets[x].b == c'.tickets[x].b;
      assert y != t ==> Holds(c.tickets, y) && c.tickets[y].b == c'.tickets[y].b;
    }
    forall b: nat | b < NBUF && Held(c.tickets, b) ensures Held(c'.tickets, b) {
      var x :| Holds(c.tickets, x) && c.tickets[x].b == b;
      assert Holds(c'.tickets, x) && c'.tickets[x].b == b;
    }
    hide Held, Exclusive;
    assert forall b: nat :: b < NBUF ==> (Dirty(c', b) <==> Dirty(c, b));
  }

  lemma {:induction false} LeftHolds(tickets: map<nat, Ticket>, t: nat)
    requires Holds(tickets, t) && Exclusive(tickets)
    ensures var left := tickets[t := tickets[t].(act := Leaving)];
      Exclusive(left) && forall b: nat :: b != tickets[t].b && Held(tickets, b) ==> Held(left, b)
  {
    var left := tickets[t := tickets[t].(act := Leaving)];
    assert forall x :: Holds(left, x) <==> Holds(tickets, x) && x != t;
    assert forall x :: Holds(left, x) ==> left[x] == tickets[x];
    hide Holds;
    forall b: nat | b != tickets[t].b && Held(tickets, b) ensures Held(left, b) {
      var x :| Holds(tickets, x) && tickets[x].b == b;
      assert Holds(left, x) && left[x].b == b;
    }
  }

  /** releasesleep: what the caller has changed is written or pinned. */
  lemma {:induction false} UnlockKeeps(c: Cache, t: nat)
    requires Inv(c) && Holds(c.tickets, t) && (!Dirty(c, c.tickets[t].b) || c.pins[c.tickets[t].b] > 0)
    ensures Inv(SetAct(c, t, Leaving))
  {
    hide Counted, Permutation, ByRelease, Unique, Exclusive, Held;
    assert c.tickets[t].b < NBUF;
    ActCounted(c, t, Leaving);
    LeftHolds(c.tickets, t);
    hide Kept;
    var c' := SetAct(c, t, Leaving);
    assert forall b: nat :: b < NBUF ==> (Dirty(c', b) <==> Dirty(c, b));
  }

  // ---------------------------------------------------------------- contents of a held buffer

  /** Only valid bit and data of one buffer, and the disk, change. */
  lemma {:induction false} HolderKeeps(c: Cache, t: nat, valid: bool, data: int, disk: Disk)
    requires Inv(c) && Holds(c.tickets, t)
    requires forall b: nat :: b < NBUF && b != c.tickets[t].b ==>
      OnDisk(disk, c.bufs[b].dev, c.bufs[b].blockno) == OnDisk(c.disk, c.bufs[b].dev, c.bufs[b].blockno)
    ensures var b := c.tickets[t].b;
      Inv(c.(bufs := c.bufs[b := c.bufs[b].(valid := valid, data := data)], disk := disk))
  {
    var b := c.tickets[t].b;
    var c' := c.(bufs := c.bufs[b := c.bufs[b].(valid := valid, data := data)], disk := disk);
    assert Held(c.tickets, b);
    assert Counted(c') && Kept(c') && Unique(c'.bufs);
    hide Held, Counted, Kept, Permutation, ByRelease, Unique, Exclusive, OnDisk;
    assert forall x: nat :: x < NBUF && x != b ==> (Dirty(c', x) <==> Dirty(c, x));
  }

  /** Different buffers are about different blocks, so writing one block leaves the others as they are. */
  lemma {:induction false} OtherBlocks(c: Cache, b: nat, v: int)
    requires Shape(c) && Unique(c.bufs) && b < NBUF && c.bufs[b].dev != 0
    ensures var disk := c.disk[(c.bufs[b].dev, c.bufs[b].blockno) := v];
      forall x: nat :: x < NBUF && x != b ==>
        OnDisk(disk, c.bufs[x].dev, c.bufs[x].blockno) == OnDisk(c.disk, c.bufs[x].dev, c.bufs[x].blockno)
  {
    assert forall x: nat :: x < NBUF && x != b ==> !Is(c.bufs[x], c.bufs[b].dev, c.bufs[b].blockno);
  }

  // ---------------------------------------------------------------- pins

  function Pinned(c: Cache, b: nat): Cache
    requires Shape(c) && b < NBUF
  {
    c.(bufs := c.bufs[b := c.bufs[b].(refcnt := c.bufs[b].refcnt + 1)], pins := c.pins[b := c.pins[b] + 1])
  }

  function Unpinned(c: Cache, b: nat): Cache
    requires Shape(c) && b < NBUF && c.pins[b] > 0 && c.bufs[b].refcnt > 0
  {
    c.(bufs := c.bufs[b := c.bufs[b].(refcnt := c.bufs[b].refcnt - 1)], pins := c.pins[b := c.pins[b] - 1])
  }

  lemma {:induction false} PinKeeps(c: Cache, b: nat)
    requires Inv(c) && b < NBUF
    ensures Inv(Pinned(c, b))
  {
    var c' := Pinned(c, b);
    assert Counted(c') && Kept(c') && Unique(c'.bufs) by { hide Held, Guarded, ByRelease, Permutation, Exclusive; }
    hide Held, Counted, Kept, Permutation, ByRelease, Unique, Exclusive;
    assert forall x: nat :: x < NBUF ==> (Dirty(c', x) <==> Dirty(c, x));
  }

  /** bunpin of a buffer that is the same on disk. */
  lemma {:induction false} UnpinKeeps(c: Cache, b: nat)
    requires Inv(c) && b < NBUF && c.pins[b] > 0 && !Dirty(c, b)
    ensures c.bufs[b].refcnt > 0 && Inv(Unpinned(c, b))
  {
    assert c.bufs[b].refcnt == |Refs(c.tickets, b)| + c.pins[b];
    var c' := Unpinned(c, b);
    assert Counted(c') && Kept(c') && Unique(c'.bufs) by { hide Held, Guarded, ByRelease, Permutation, Exclusive; }
    hide Held, Counted, Kept, Permutation, ByRelease, Unique, Exclusive;
    assert forall x: nat :: x < NBUF ==> (Dirty(c', x) <==> Dirty(c, x));
  }

  // ---------------------------------------------------------------- brelse

  function Position(q: seq<nat>, b: nat): (p: nat)
    requires b in q
    ensures p < |q| && q[p] == b
  {
    if q[0] == b then 0 else 1 + Position(q[1..], b)
  }

  /** The list with `b` taken out and put at the front. */
  function ToFront(q: seq<nat>, b: nat): seq<nat>
    requires b in q
  {
    var p := Position(q, b);
    [b] + (q[..p] + q[p + 1..])
  }

  lemma {:induction false} ToFrontAt(q: seq<nat>, b: nat)
    requires b in q
    ensures var r := ToFront(q, b); var p := Position(q, b);
      && |r| == |q| && r[0] == b && (forall i :: 0 < i <= p ==> r[i] == q[i - 1])
      && forall i :: p < i < |q| ==> r[i] == q[i]
  {
  }

  lemma {:induction false} FrontPermutation(q: seq<nat>, b: nat)
    requires Permutation(q) && b in q
    ensures Permutation(ToFront(q, b))
  {
    var r, p := ToFront(q, b), Position(q, b);
    ToFrontAt(q, b);
    hide ToFront, Position;
    forall x: nat ensures x in r <==> x in q {
      if x in q {
        var i :| 0 <= i < |q| && q[i] == x;
        assert x == r[if i < p then i + 1 else if i == p then 0 else i];
      }
      if x in r {
        var i :| 0 <= i < |r| && r[i] == x;
        assert x == q[if i == 0 then p else if i <= p then i - 1 else i];
      }
    }
    forall i, j | 0 <= i < j < |r| ensures r[i] != r[j] {
      var k := if j <= p then j - 1 else j;
      var l := if i == 0 then p else if i <= p then i - 1 else i;
      assert r[j] == q[k] && r[i] == q[l] && k != l;
      assert k < l || l < k;
    }
  }

  lemma {:induction false} FrontByRelease(q: seq<nat>, b: nat, since: seq<nat>, clock: nat)
    requires Permutation(q) && b in q && |since| == NBUF && ByRelease(q, since, clock)
    ensures ByRelease(ToFront(q, b), since[b := clock], clock + 1)
  {
    var r, p, s := ToFront(q, b), Position(q, b), since[b := clock];
    ToFrontAt(q, b);
    FrontPermutation(q, b);
    hide ToFront, Position;
    forall i, j | 0 <= i < j < |r| ensures r[i] < NBUF && r[j] < NBUF && s[r[j]] < s[r[i]] {
      assert r[i] in r && r[j] in r;
      var k := if j <= p then j - 1 else j;
      assert r[j] == q[k] && r[j] != r[0];
      if i > 0 {
        var l := if i <= p then i - 1 else i;
        assert r[i] == q[l] && r[i] != r[0] && l < k;
      }
    }
  }

  predicate CanPut(c: Cache, t: nat) {
    Shape(c) && t in c.tickets && c.tickets[t].b < NBUF && c.bufs[c.tickets[t].b].refcnt > 0
        && c.tickets[t].b in c.order
  }

  /** brelse after the lock is released: a buffer nobody refers to any more goes to the front of the list. */
  function Put(c: Cache, t: nat): Cache
    requires CanPut(c, t)
  {
    var b := c.tickets[t].b;
    var left := c.(tickets := c.tickets - {t}, bufs := c.bufs[b := c.bufs[b].(refcnt := c.bufs[b].refcnt - 1)]);
    if c.bufs[b].refcnt > 1 then left
    else left.(order := ToFront(c.order, b), since := c.since[b := c.clock], clock := c.clock + 1)
  }

  lemma {:induction false} PutReady(c: Cache, t: nat)
    requires Inv(c) && t in c.tickets
    ensures CanPut(c, t)
  {
    var b := c.tickets[t].b;
    assert t in Refs(c.tickets, b);
  }

  lemma {:induction false} PutCounted(c: Cache, t: nat)
    requires Inv(c) && t in c.tickets
    ensures CanPut(c, t) && Counted(Put(c, t))
  {
    PutReady(c, t);
    var c' := Put(c, t);
    forall b: nat | b < NBUF ensures c'.bufs[b].refcnt == |Refs(c'.tickets, b)| + c'.pins[b] {
      DropRef(c.tickets, t, b);
    }
  }

  lemma {:induction false} PutTickets(c: Cache, c': Cache, t: nat)
    requires Shape(c) && Shape(c') && Kept(c) && Unique(c.bufs) && Exclusive(c.tickets) && Guarded(c)
    requires t in c.tickets && c.tickets[t].act.Leaving? && c'.tickets == c.tickets - {t} && c'.pins == c.pins
    requires c'.disk == c.disk
    requires forall b: nat :: b < NBUF ==> c'.bufs[b] == c.bufs[b].(refcnt := c'.bufs[b].refcnt)
    ensures Kept(c') && Unique(c'.bufs) && Exclusive(c'.tickets) && Guarded(c')
  {
    assert forall x :: Holds(c'.tickets, x) <==> Holds(c.tickets, x);
    assert forall x :: Holds(c'.tickets, x) ==> c'.tickets[x] == c.tickets[x];
    hide Holds;
    forall x: nat | Held(c.tickets, x) ensures Held(c'.tickets, x) {
      var y :| Holds(c.tickets, y) && c.tickets[y].b == x;
      assert Holds(c'.tickets, y) && c'.tickets[y].b == x;
    }
    hide Held;
    assert forall x: nat :: x < NBUF ==> (Dirty(c', x) <==> Dirty(c, x));
  }

  lemma {:induction false} PutKeeps(c: Cache, t: nat)
    requires Inv(c) && t in c.tickets && c.tickets[t].act.Leaving?
    ensures CanPut(c, t) && Inv(Put(c, t))
  {
    hide ToFront, Position, Permutation, ByRelease, Counted, Distinct, Kept, Unique, Exclusive, Guarded;
    PutReady(c, t);
    var c' := Put(c, t);
    PutTickets(c, c', t);
    PutCounted(c, t);
    FrontPermutation(c.order, c.tickets[t].b);
    FrontByRelease(c.order, c.tickets[t].b, c.since, c.clock);
  }

  // ---------------------------------------------------------------- runs

  datatype Event =
    | DoGet(t: nat, dev: nat, blockno: nat)
    | DoLock(t: nat)
    | DoFill(t: nat)
    | DoModify(t: nat, v: int)
    | DoWrite(t: nat)
    | DoPin(t: nat)
    | DoUnpin(t: nat)
    | DoUnlock(t: nat)
    | DoPut(t: nat)

  ghost predicate HolderMay(c: Cache, t: nat)
    requires Shape(c)
  {
    Holds(c.tickets, t) && c.tickets[t].b < NBUF
  }

  /** What the code waits for, and what callers see to: a changed buffer is written or pinned before it is left. */
  ghost predicate Enabled(c: Cache, e: Event)
    requires Shape(c)
  {
    match e
    case DoGet(t, dev, blockno) => t !in c.tickets && dev != 0 && Get(c, t, dev, blockno).Some?
    case DoLock(t) => t in c.tickets && c.tickets[t].act.Waiting? && !Held(c.tickets, c.tickets[t].b)
    case DoFill(t) => HolderMay(c, t) && !c.bufs[c.tickets[t].b].valid
    case DoModify(t, _) => HolderMay(c, t) && c.bufs[c.tickets[t].b].valid
    case DoWrite(t) => HolderMay(c, t) && c.bufs[c.tickets[t].b].valid
    case DoPin(t) => HolderMay(c, t)
    case DoUnpin(t) =>
      HolderMay(c, t) && c.pins[c.tickets[t].b] > 0 && c.bufs[c.tickets[t].b].refcnt > 0 && !Dirty(c, c.tickets[t].b)
    case DoUnlock(t) => HolderMay(c, t) && (!Dirty(c, c.tickets[t].b) || c.pins[c.tickets[t].b] > 0)
    case DoPut(t) => CanPut(c, t) && c.tickets[t].act.Leaving?
  }

  function SetBuf(c: Cache, b: nat, valid: bool, data: int): Cache
    requires Shape(c) && b < NBUF
  {
    c.(bufs := c.bufs[b := c.bufs[b].(valid := valid, data := data)])
  }

  ghost function Apply(c: Cache, e: Event): Cache
    requires Shape(c) && Enabled(c, e)
  {
    match e
    case DoGet(t, dev, blockno) => Get(c, t, dev, blockno).value
    case DoLock(t) => SetAct(c, t, Holding)
    case DoFill(t) =>
      var b := c.tickets[t].b;
      SetBuf(c, b, true, OnDisk(c.disk, c.bufs[b].dev, c.bufs[b].blockno))
    case DoModify(t, v) => SetBuf(c, c.tickets[t].b, true, v)
    case DoWrite(t) =>
      var b := c.tickets[t].b;
      c.(disk := c.disk[(c.bufs[b].dev, c.bufs[b].blockno) := c.bufs[b].data])
    case DoPin(t) => Pinned(c, c.tickets[t].b)
    case DoUnpin(t) => Unpinned(c, c.tickets[t].b)
    case DoUnlock(t) => SetAct(c, t, Leaving)
    case DoPut(t) => Put(c, t)
  }

  lemma {:induction false} WriteKeeps(c: Cache, t: nat)
    requires Inv(c) && Enabled(c, DoWrite(t))
    ensures Inv(Apply(c, DoWrite(t)))
  {
    var b := c.tickets[t].b;
    assert c.bufs[b].dev != 0 by { assert Is(c.bufs[b], c.tickets[t].dev, c.tickets[t].blockno); }
    OtherBlocks(c, b, c.bufs[b].data);
    var disk := c.disk[(c.bufs[b].dev, c.bufs[b].blockno) := c.bufs[b].data];
    HolderKeeps(c, t, c.bufs[b].valid, c.bufs[b].data, disk);
    assert c.bufs[b := c.bufs[b].(valid := c.bufs[b].valid, data := c.bufs[b].data)] == c.bufs;
    hide Inv;
  }

  /** Every step keeps the invariant: in particular a buffer in use is never given to another block. */
  lemma {:induction false} StepKeeps(c: Cache, e: Event)
    requires Inv(c) && Enabled(c, e)
    ensures Inv(Apply(c, e))
  {
    match e
    case DoGet(t, dev, blockno) => hide Inv, Get; GetKeeps(c, t, dev, blockno);
    case DoLock(t) => hide Inv; LockKeeps(c, t);
    case DoFill(t) =>
      var v := OnDisk(c.disk, c.bufs[c.tickets[t].b].dev, c.bufs[c.tickets[t].b].blockno);
      hide Inv;
      HolderKeeps(c, t, true, v, c.disk);
    case DoModify(t, v) => hide Inv; HolderKeeps(c, t, true, v, c.disk);
    case DoWrite(t) => hide Inv, Apply; WriteKeeps(c, t);
    case DoPin(t) => hide Inv; PinKeeps(c, c.tickets[t].b);
    case DoUnpin(t) => hide Inv; UnpinKeeps(c, c.tickets[t].b);
    case DoUnlock(t) => hide Inv; UnlockKeeps(c, t);
    case DoPut(t) => hide Inv, Put; PutKeeps(c, t);
  }

  // ---------------------------------------------------------------- the cache is invisible

  ghost predicate Cached(c: Cache, b: nat, dev: nat, blockno: nat)
    requires Shape(c)
  {
    b < NBUF && Is(c.bufs[b], dev, blockno) && c.bufs[b].valid
  }

  /** What a reader of the block sees: the cached bytes, or else those on disk. */
  ghost function Content(c: Cache, dev: nat, blockno: nat): int
    requires Shape(c)
  {
    if exists b: nat :: Cached(c, b, dev, blockno) then
      var b: nat :| Cached(c, b, dev, blockno);
      c.bufs[b].data
    else OnDisk(c.disk, dev, blockno)
  }

  lemma {:induction false} ContentAt(c: Cache, b: nat, dev: nat, blockno: nat)
    requires Shape(c) && Unique(c.bufs) && dev != 0 && Cached(c, b, dev, blockno)
    ensures Content(c, dev, blockno) == c.bufs[b].data
  {
  }

  /** Buffers and disk differ, but the block is cached in both or in neither, with the same bytes. */
  lemma {:induction false} SameContent(c: Cache, c': Cache, dev: nat, blockno: nat)
    requires Shape(c) && Shape(c') && Unique(c.bufs) && Unique(c'.bufs) && dev != 0
    requires forall b: nat :: Cached(c, b, dev, blockno) ==>
        Cached(c', b, dev, blockno) && c'.bufs[b].data == c.bufs[b].data
    requires (forall b: nat :: !Cached(c, b, dev, blockno)) ==>
      OnDisk(c'.disk, dev, blockno) == OnDisk(c.disk, dev, blockno) &&
      forall b: nat :: Cached(c', b, dev, blockno) ==> c'.bufs[b].data == OnDisk(c.disk, dev, blockno)
    ensures Content(c', dev, blockno) == Content(c, dev, blockno)
  {
    if b: nat :| Cached(c, b, dev, blockno) {
      ContentAt(c, b, dev, blockno);
      ContentAt(c', b, dev, blockno);
    } else if b: nat :| Cached(c', b, dev, blockno) {
      ContentAt(c', b, dev, blockno);
    }
  }

  /** bread returns what a reader of the block is to see. */
  lemma {:induction false} HolderSees(c: Cache, t: nat)
    requires Inv(c) && Holds(c.tickets, t)
    ensures var k := c.tickets[t];
      k.b < NBUF && (c.bufs[k.b].valid ==> c.bufs[k.b].data == Content(c, k.dev, k.blockno))
  {
    var k := c.tickets[t];
    assert Is(c.bufs[k.b], k.dev, k.blockno);
    if c.bufs[k.b].valid {
      ContentAt(c, k.b, k.dev, k.blockno);
    }
  }

  /** Reference counts do not matter to a reader. */
  lemma {:induction false} QuietContent(c: Cache, c': Cache, dev: nat, blockno: nat)
    requires Inv(c) && Inv(c') && dev != 0 && c'.disk == c.disk
    requires forall b: nat :: b < NBUF ==> c'.bufs[b] == c.bufs[b].(refcnt := c'.bufs[b].refcnt)
    ensures Content(c', dev, blockno) == Content(c, dev, blockno)
  {
    hide Permutation, Counted, Kept, Exclusive, Guarded, ByRelease;
    assert forall b: nat :: Cached(c', b, dev, blockno) <==> Cached(c, b, dev, blockno);
    SameContent(c, c', dev, blockno);
  }

  /** The buffer that is recycled was the same on disk; the block it takes was in no buffer. */
  lemma {:induction false} RecycleContent(c: Cache, c': Cache, b: nat, d: nat, n: nat, dev: nat, blockno: nat)
    requires Inv(c) && Inv(c') && dev != 0 && c'.disk == c.disk && b < NBUF && c.bufs[b].refcnt == 0 && d != 0
    requires forall x: nat :: x < NBUF ==> !Is(c.bufs[x], d, n)
    requires c'.bufs == c.bufs[b := Buf(d, n, false, 1, c.bufs[b].data)]
    ensures Content(c', dev, blockno) == Content(c, dev, blockno)
  {
    Unreferenced(c, b);
    hide Permutation, Counted, Kept, Exclusive, Guarded, ByRelease;
    if Cached(c, b, dev, blockno) {
      ContentAt(c, b, dev, blockno);
      assert forall x: nat :: !Cached(c', x, dev, blockno);
    } else {
      assert forall x: nat :: Cached(c', x, dev, blockno) <==> Cached(c, x, dev, blockno);
      SameContent(c, c', dev, blockno);
    }
  }

  lemma {:induction false} GetContent(c: Cache, t: nat, d: nat, n: nat, dev: nat, blockno: nat)
    requires Inv(c) && t !in c.tickets && d != 0 && Get(c, t, d, n).Some? && dev != 0
    ensures Content(Get(c, t, d, n).value, dev, blockno) == Content(c, dev, blockno)
  {
    hide Find, Victim, Unique, Counted, Kept, Exclusive, Guarded, ByRelease, Distinct, Content;
    GetKeeps(c, t, d, n);
    var c' := Get(c, t, d, n).value;
    FindIs(c.bufs, c.order, d, n);
    if Find(c.bufs, c.order, d, n).Some? {
      QuietContent(c, c', dev, blockno);
    } else {
      assert forall b: nat :: b < NBUF ==> !Is(c.bufs[b], d, n);
      VictimIs(c.bufs, c.order, c.since, c.clock);
      RecycleContent(c, c', Victim(c.bufs, c.order).value, d, n, dev, blockno);
    }
  }

  /** A holder sets the bytes of its buffer. */
  lemma {:induction false} SetContent(c: Cache, c': Cache, t: nat, v: int, dev: nat, blockno: nat)
    requires Inv(c) && Inv(c') && Holds(c.tickets, t) && c.tickets[t].b < NBUF && dev != 0
    requires c' == SetBuf(c, c.tickets[t].b, true, v)
    ensures Content(c', dev, blockno) ==
      if dev == c.tickets[t].dev && blockno == c.tickets[t].blockno then v else Content(c, dev, blockno)
  {
    var k := c.tickets[t];
    assert Is(c.bufs[k.b], k.dev, k.blockno);
    hide Permutation, Counted, Kept, Exclusive, Guarded, ByRelease;
    if dev == k.dev && blockno == k.blockno {
      assert Cached(c', k.b, dev, blockno);
      ContentAt(c', k.b, dev, blockno);
    } else {
      assert forall b: nat :: Cached(c', b, dev, blockno) <==> Cached(c, b, dev, blockno);
      SameContent(c, c', dev, blockno);
    }
  }

  lemma {:induction false} FillContent(c: Cache, t: nat, dev: nat, blockno: nat)
    requires Inv(c) && Enabled(c, DoFill(t)) && Inv(Apply(c, DoFill(t))) && dev != 0
    ensures Content(Apply(c, DoFill(t)), dev, blockno) == Content(c, dev, blockno)
  {
    var k := c.tickets[t];
    var c' := Apply(c, DoFill(t));
    assert Is(c.bufs[k.b], k.dev, k.blockno);
    hide Permutation, Counted, Kept, Exclusive, Guarded, ByRelease;
    SetContent(c, c', t, OnDisk(c.disk, k.dev, k.blockno), dev, blockno);
    if dev == k.dev && blockno == k.blockno {
      assert forall b: nat :: !Cached(c, b, dev, blockno);
    }
  }

  lemma {:induction false} WriteContent(c: Cache, t: nat, dev: nat, blockno: nat)
    requires Inv(c) && Enabled(c, DoWrite(t)) && Inv(Apply(c, DoWrite(t))) && dev != 0
    ensures Content(Apply(c, DoWrite(t)), dev, blockno) == Content(c, dev, blockno)
  {
    var k := c.tickets[t];
    assert Is(c.bufs[k.b], k.dev, k.blockno);
    assert Cached(c, k.b, k.dev, k.blockno);
    hide Permutation, Counted, Kept, Exclusive, Guarded, ByRelease;
    SameContent(c, Apply(c, DoWrite(t)), dev, blockno);
  }

  /** What an event does to the plain store of blocks. */
  ghost function Stored(c: Cache, e: Event, dev: nat, blockno: nat, v: int): int {
    if e.DoModify? && e.t in c.tickets && c.tickets[e.t].dev == dev && c.tickets[e.t].blockno == blockno then e.v else v
  }

  /** Only a holder's change changes what a reader sees: locks, eviction, reads and writes do not. */
  lemma {:induction false} StepFlat(c: Cache, e: Event, dev: nat, blockno: nat)
    requires Inv(c) && Enabled(c, e) && dev != 0
    ensures Inv(Apply(c, e))
    ensures Content(Apply(c, e), dev, blockno) == Stored(c, e, dev, blockno, Content(c, dev, blockno))
  {
    StepKeeps(c, e);
    var c' := Apply(c, e);
    match e
    case DoGet(t, d, n) => hide Content, Get, Inv; GetContent(c, t, d, n, dev, blockno);
    case DoFill(t) => hide Content, Apply, Inv; FillContent(c, t, dev, blockno);
    case DoModify(t, v) => hide Content, Inv; SetContent(c, c', t, v, dev, blockno);
    case DoWrite(t) => hide Content, Apply, Inv; WriteContent(c, t, dev, blockno);
    case DoPut(t) => PutBufs(c, t); hide Content, Put, Inv; QuietContent(c, c', dev, blockno);
    case _ => hide Content, Inv; QuietContent(c, c', dev, blockno);
  }

  lemma {:induction false} PutBufs(c: Cache, t: nat)
    requires CanPut(c, t)
    ensures Shape(Put(c, t)) && Put(c, t).disk == c.disk
    ensures forall b: nat :: b < NBUF ==> Put(c, t).bufs[b] == c.bufs[b].(refcnt := Put(c, t).bufs[b].refcnt)
  {
    hide ToFront;
  }

  ghost predicate Run(c: Cache, es: seq<Event>)
    requires Inv(c)
    decreases |es|
  {
    es == [] || (Enabled(c, es[0]) && (StepKeeps(c, es[0]); Run(Apply(c, es[0]), es[1..])))
  }

  ghost function Final(c: Cache, es: seq<Event>): Cache
    requires Inv(c) && Run(c, es)
    decreases |es|
  {
    if es == [] then c else StepKeeps(c, es[0]); Final(Apply(c, es[0]), es[1..])
  }

  /** The last change of the block in a run, or the bytes it had before. */
  ghost function LastStored(c: Cache, es: seq<Event>, dev: nat, blockno: nat, v: int): int
    requires Inv(c) && Run(c, es)
    decreases |es|
  {
    if es == [] then v
    else StepKeeps(c, es[0]); LastStored(Apply(c, es[0]), es[1..], dev, blockno, Stored(c, es[0], dev, blockno, v))
  }

  lemma {:induction false} InvShape(c: Cache)
    requires Inv(c)
    ensures Shape(c)
  {
  }

  /** Over every run, a reader sees the last change of the block. */
  lemma {:induction false} RunFlat(c: Cache, es: seq<Event>, dev: nat, blockno: nat)
    requires Inv(c) && Run(c, es) && dev != 0
    ensures Inv(Final(c, es))
    ensures Content(Final(c, es), dev, blockno) == LastStored(c, es, dev, blockno, Content(c, dev, blockno))
    decreases |es|
  {
    hide Inv, Enabled, Apply, Content, Stored;
    if es != [] {
      InvShape(c);
      StepFlat(c, es[0], dev, blockno);
      RunFlat(Apply(c, es[0]), es[1..], dev, blockno);
    }
  }

  /** The list binit makes: the last buffer comes first. */
  function Countdown(n: nat): seq<nat> {
    if n == 0 then [] else [n - 1] + Countdown(n - 1)
  }

  lemma {:induction false} CountdownAt(n: nat)
    ensures |Countdown(n)| == n && (forall i :: 0 <= i < n ==> Countdown(n)[i] == n - 1 - i)
    ensures forall b: nat :: b in Countdown(n) <==> b < n
  {
    if n > 0 {
      CountdownAt(n - 1);
    }
  }

  /** The cache as binit leaves it: no block of a real device, no reference. */
  function Fresh(disk: Disk): Cache {
    Cache(seq(NBUF, _ => Buf(0, 0, false, 0, 0)), Countdown(NBUF), map[], seq(NBUF, _ => 0), disk,
          seq(NBUF, i => i), NBUF)
  }

  lemma {:induction false} FreshInv(disk: Disk)
    ensures Inv(Fresh(disk)) && forall dev: nat, n: nat :: dev != 0 ==>
        Content(Fresh(disk), dev, n) == OnDisk(disk, dev, n)
  {
    var c := Fresh(disk);
    CountdownAt(NBUF);
    forall b: nat | b < NBUF ensures |Refs(c.tickets, b)| == 0 {
      assert Refs(c.tickets, b) == {};
    }
    hide Countdown, Refs;
    assert forall b, dev: nat, n: nat :: dev != 0 ==> !Cached(c, b, dev, n);
  }
}
