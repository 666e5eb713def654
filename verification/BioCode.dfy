/** The functions of kernel/bio.c on the doubly linked list of buffers they change in place. */
module BioCode {
  import opened Common
  import opened Bio

  const HEAD := NBUF

  /** Node `i` of the ring that goes from the head through the list and back to the head. */
  function Node(order: seq<nat>, i: nat): nat {
    if 0 < i <= |order| then order[i - 1] else HEAD
  }

  ghost predicate LinkAt(next: seq<nat>, prev: seq<nat>, order: seq<nat>, i: nat) {
    var a, b := Node(order, i), Node(order, i + 1);
    a < |next| && b < |prev| && next[a] == b && prev[b] == a
  }

  /** The links go through the list in both directions. */
  ghost predicate Linked(next: seq<nat>, prev: seq<nat>, order: seq<nat>) {
    && |next| == NBUF + 1 && |prev| == NBUF + 1
    && forall i: nat {:trigger LinkAt(next, prev, order, i)} :: i <= |order| ==> LinkAt(next, prev, order, i)
  }

  ghost predicate Below(order: seq<nat>) {
    Distinct(order) && forall b :: b in order ==> b < NBUF
  }

  /** The nodes of the list are different from each other and from the head. */
  lemma {:induction false} NodesDiffer(order: seq<nat>, i: nat, j: nat)
    requires Below(order) && i < j <= |order|
    ensures Node(order, i) != Node(order, j) && Node(order, j) < NBUF
    ensures Node(order, i + 1) != Node(order, j + 1)
    ensures i > 0 ==> Node(order, i) < NBUF
  {
    assert order[j - 1] in order;
    if i > 0 {
      assert order[i - 1] in order && order[i - 1] != order[j - 1];
    }
    assert order[i] in order;
    if j < |order| {
      assert order[j] in order && order[i] != order[j];
    }
  }

  // ---------------------------------------------------------------- taking a node out

  function Cut(order: seq<nat>, p: nat): seq<nat>
    requires p < |order|
  {
    order[..p] + order[p + 1..]
  }

  lemma {:induction false} CutNode(order: seq<nat>, p: nat, i: nat)
    requires p < |order|
    ensures Node(Cut(order, p), i) == if i <= p then Node(order, i) else Node(order, i + 1)
  {
  }

  lemma {:induction false} CutLinked(next: seq<nat>, prev: seq<nat>, order: seq<nat>, p: nat)
    requires Linked(next, prev, order) && Below(order) && p < |order|
    ensures var b := order[p];
      && b < NBUF && next[b] <= NBUF && prev[b] <= NBUF && next[b] != b
      && Linked(next[prev[b] := next[b]], prev[next[b] := prev[b]], Cut(order, p))
  {
    var b, cut := order[p], Cut(order, p);
    assert b in order;
    assert LinkAt(next, prev, order, p) && LinkAt(next, prev, order, p + 1);
    NodeBelow(order, p);
    NodeBelow(order, p + 1);
    NodeBelow(order, p + 2);
    if p + 1 < |order| {
      NodesDiffer(order, p + 1, p + 2);
    }
    var n, q := next[prev[b] := next[b]], prev[next[b] := prev[b]];
    forall i: nat | i <= |cut| ensures LinkAt(n, q, cut, i) {
      CutNode(order, p, i);
      CutNode(order, p, i + 1);
      var o := if i <= p then i else i + 1;
      assert LinkAt(next, prev, order, o);
      if i < p {
        NodesDiffer(order, i, p);
        NodesDiffer(order, i, p + 1);
      } else if i > p {
        NodesDiffer(order, p, o);
        NodesDiffer(order, p + 1, o);
      }
    }
  }

  lemma {:induction false} NodeBelow(order: seq<nat>, i: nat)
    requires Below(order)
    ensures Node(order, i) <= NBUF
  {
    if 0 < i <= |order| {
      assert order[i - 1] in order;
    }
  }

  lemma {:induction false} CutBelow(order: seq<nat>, p: nat)
    requires Below(order) && p < |order|
    ensures Below(Cut(order, p)) && order[p] !in Cut(order, p) && order[p] < NBUF
  {
    var cut := Cut(order, p);
    assert order[p] in order;
    assert forall i :: 0 <= i < |cut| ==> cut[i] == order[if i < p then i else i + 1];
    forall i | 0 <= i < |cut| ensures cut[i] in order && cut[i] != order[p] {
      var o := if i < p then i else i + 1;
      assert order[o] in order;
      assert if o < p then order[o] != order[p] else order[p] != order[o];
    }
  }

  // ---------------------------------------------------------------- putting a node in front

  lemma {:induction false} PushNode(order: seq<nat>, b: nat, i: nat)
    ensures Node([b] + order, i) == if i == 0 then HEAD else if i == 1 then b else Node(order, i - 1)
  {
  }

  lemma {:induction false} PushLinked(next: seq<nat>, prev: seq<nat>, order: seq<nat>, b: nat)
    requires Linked(next, prev, order) && Below(order) && b < NBUF && b !in order
    ensures next[HEAD] <= NBUF
    ensures Linked(next[b := next[HEAD]][HEAD := b], prev[b := HEAD][next[HEAD] := b], [b] + order)
  {
    assert LinkAt(next, prev, order, 0);
    NodeBelow(order, 1);
    var f := next[HEAD];
    var n, q, more := next[b := f][HEAD := b], prev[b := HEAD][f := b], [b] + order;
    forall i: nat | i <= |more| ensures LinkAt(n, q, more, i) {
      PushNode(order, b, i);
      PushNode(order, b, i + 1);
      if i >= 2 {
        assert LinkAt(next, prev, order, i - 1);
        NodesDiffer(order, 0, i - 1);
        NodeApart(order, b, i - 1);
        NodeApart(order, b, i);
      } else if i == 1 {
        NodeApart(order, b, 1);
      }
    }
  }

  lemma {:induction false} NodeApart(order: seq<nat>, b: nat, i: nat)
    requires b < NBUF && b !in order
    ensures Node(order, i) != b
  {
  }

  // ---------------------------------------------------------------- the cache

  class BufferCache {
    var bufs: seq<Buf>
    var next: seq<nat>
    var prev: seq<nat>
    ghost var order: seq<nat>
    ghost var tickets: map<nat, Ticket>
    ghost var pins: seq<nat>
    ghost var disk: Disk
    ghost var since: seq<nat>
    ghost var clock: nat

    ghost function State(): Cache
      reads this
    {
      Cache(bufs, order, tickets, pins, disk, since, clock)
    }

    ghost predicate Valid()
      reads this
    {
      Inv(State()) && Linked(next, prev, order)
    }

    /** The state after binit. */
    constructor (ghost d: Disk)
      ensures Valid() && State() == Fresh(d)
    {
      bufs := seq(NBUF, _ => Buf(0, 0, false, 0, 0));
      var n, q := Binit();
      next, prev := n, q;
      order, tickets, pins, disk := Countdown(NBUF), map[], seq(NBUF, _ => 0), d;
      since, clock := seq(NBUF, i => i), NBUF;
      new;
      hide Inv;
      FreshInv(d);
    }

    /** The first loop of bget, from the most recent buffer on. */
    method Cached(dev: nat, blockno: nat) returns (r: Option<nat>)
      requires Valid()
      ensures r == Find(bufs, order, dev, blockno)
    {
      InvOrder(State());
      hide Inv, Find, Permutation, Linked, Is;
      assert order[0..] == order;
      ghost var i := 0;
      FirstNode(next, prev, order);
      var b := next[HEAD];
      while b != HEAD
        invariant 0 <= i <= |order| && b == Node(order, i + 1)
        invariant Find(bufs, order, dev, blockno) == Find(bufs, order[i..], dev, blockno)
        decreases |order| - i
      {
        AtNode(next, prev, order, i + 1);
        FindStep(bufs, order, i, dev, blockno);
        if bufs[b].dev == dev && bufs[b].blockno == blockno {
          return Some(b);
        }
        b := next[b];
        i := i + 1;
      }
      PastEnd(order, i + 1);
      FindNone(bufs, order[i..], dev, blockno);
      return None;
    }

    /** The second loop of bget, from the least recent buffer back. */
    method Unused() returns (r: Option<nat>)
      requires Valid()
      ensures r == Victim(bufs, order)
    {
      InvOrder(State());
      hide Inv, Victim, Permutation, Linked;
      ghost var i := |order|;
      assert order[..i] == order;
      LastNode(next, prev, order);
      var b := prev[HEAD];
      while b != HEAD
        invariant 0 <= i <= |order| && b == Node(order, i) && Victim(bufs, order) == Victim(bufs, order[..i])
        decreases i
      {
        AtNode(next, prev, order, i);
        VictimStep(bufs, order, i);
        if bufs[b].refcnt == 0 {
          return Some(b);
        }
        b := prev[b];
        i := i - 1;
      }
      BeforeStart(order, i);
      VictimNone(bufs, order[..i]);
      return None;
    }

    /** bget up to the sleep lock; no buffer if it panics. */
    method Bget(ghost t: nat, dev: nat, blockno: nat) returns (r: Option<nat>)
      requires Valid() && t !in tickets && dev != 0
      modifies this`bufs, this`tickets
      ensures Valid() && (r.None? ==> State() == old(State()))
      ensures r.None? <==> Get(old(State()), t, dev, blockno).None?
      ensures r.Some? ==> Some(State()) == Get(old(State()), t, dev, blockno)
      ensures r.Some? ==> tickets[t] == Ticket(r.value, dev, blockno, Waiting)
    {
      hide Inv, Get, Find, Victim, Linked;
      ghost var c := State();
      BgetReady(c, t, dev, blockno);
      r := Cached(dev, blockno);
      if r.Some? {
        bufs := bufs[r.value := bufs[r.value].(refcnt := bufs[r.value].refcnt + 1)];
        tickets := tickets[t := Ticket(r.value, dev, blockno, Waiting)];
        return;
      }
      r := Unused();
      if r.Some? {
        bufs := bufs[r.value := Buf(dev, blockno, false, 1, bufs[r.value].data)];
        tickets := tickets[t := Ticket(r.value, dev, blockno, Waiting)];
      }
    }

    /** The pointer changes of brelse. */
    method MoveToFront(b: nat)
      requires Linked(next, prev, order) && Below(order) && b in order
      modifies this`next, this`prev, this`order
      ensures Linked(next, prev, order) && order == ToFront(old(order), b)
    {
      ghost var p := Position(order, b);
      CutLinked(next, prev, order, p);
      CutBelow(order, p);
      ghost var cut := Cut(order, p);
      hide Linked, Below, ToFront, Position, Cut;
      assert ToFront(order, b) == [b] + cut by { FrontIs(order, b); }
      prev := prev[next[b] := prev[b]];
      next := next[prev[b] := next[b]];
      PushLinked(next, prev, cut, b);
      next := next[b := next[HEAD]];
      prev := prev[b := HEAD];
      prev := prev[next[HEAD] := b];
      next := next[HEAD := b];
      order := [b] + cut;
    }

    /** bread once the lock is held: the bytes are those a reader of the block is to see. */
    method Bread(ghost t: nat, b: nat, ghost dev: nat, ghost blockno: nat, onDisk: int) returns (v: int)
      requires Valid() && Holds(tickets, t) && tickets[t] == Ticket(b, dev, blockno, Holding)
      requires b < NBUF && dev != 0 && onDisk == OnDisk(disk, dev, blockno)
      modifies this`bufs
      ensures Valid() && b < |bufs| && bufs[b].valid && v == bufs[b].data
      ensures Shape(State()) && Shape(old(State())) && v == Content(old(State()), dev, blockno)
      ensures forall d: nat, n: nat :: d != 0 ==> Content(State(), d, n) == Content(old(State()), d, n)
    {
      ghost var c := State();
      hide Inv, Content, Linked;
      ReadReady(c, t, onDisk);
      if !bufs[b].valid {
        bufs := bufs[b := bufs[b].(valid := true, data := onDisk)];
      }
      v := bufs[b].data;
    }

    /** brelse once the lock is released. */
    method Brelse(ghost t: nat, b: nat)
      requires Valid() && t in tickets && tickets[t].b == b && tickets[t].act.Leaving?
      modifies this
      ensures CanPut(old(State()), t) && Valid() && State() == Put(old(State()), t)
    {
      hide Inv, ToFront, Linked, Below;
      ghost var c := State();
      PutKeeps(c, t);
      InvOrder(c);
      bufs := bufs[b := bufs[b].(refcnt := bufs[b].refcnt - 1)];
      tickets := tickets - {t};
      if bufs[b].refcnt == 0 {
        MoveToFront(b);
        since := since[b := clock];
        clock := clock + 1;
      }
    }

    /** bpin. */
    method Bpin(ghost t: nat, b: nat)
      requires Valid() && Holds(tickets, t) && tickets[t].b == b && b < NBUF
      modifies this`bufs, this`pins
      ensures Valid() && State() == Pinned(old(State()), b)
    {
      hide Inv, Linked;
      PinKeeps(State(), b);
      InvOrder(State());
      bufs := bufs[b := bufs[b].(refcnt := bufs[b].refcnt + 1)];
      pins := pins[b := pins[b] + 1];
    }

    /** bunpin, of a buffer that is the same on disk. */
    method Bunpin(ghost t: nat, b: nat)
      requires Valid() && Holds(tickets, t) && tickets[t].b == b && b < NBUF && |pins| == NBUF && |bufs| == NBUF
      requires pins[b] > 0 && Shape(State()) && !Dirty(State(), b)
      modifies this`bufs, this`pins
      ensures old(bufs)[b].refcnt > 0 && Valid() && State() == Unpinned(old(State()), b)
    {
      UnpinKeeps(State(), b);
      hide Inv;
      bufs := bufs[b := bufs[b].(refcnt := bufs[b].refcnt - 1)];
      pins := pins[b := pins[b] - 1];
    }
  }

  lemma {:induction false} FrontIs(order: seq<nat>, b: nat)
    requires b in order
    ensures ToFront(order, b) == [b] + Cut(order, Position(order, b))
  {
  }

  /** Reading the disk into a buffer that is not valid changes nothing a reader can see. */
  lemma {:induction false} ReadReady(c: Cache, t: nat, onDisk: int)
    requires Inv(c) && Holds(c.tickets, t) && onDisk == OnDisk(c.disk, c.tickets[t].dev, c.tickets[t].blockno)
    ensures Shape(c) && c.tickets[t].b < NBUF
    ensures var k := c.tickets[t];
      if c.bufs[k.b].valid then c.bufs[k.b].data == Content(c, k.dev, k.blockno)
      else
        var c' := SetBuf(c, k.b, true, onDisk);
        && Inv(c') && onDisk == Content(c, k.dev, k.blockno)
        && forall d: nat, n: nat :: d != 0 ==> Content(c', d, n) == Content(c, d, n)
  {
    var k := c.tickets[t];
    assert Is(c.bufs[k.b], k.dev, k.blockno) && k.dev != 0;
    HolderSees(c, t);
    if !c.bufs[k.b].valid {
      var c' := Apply(c, DoFill(t));
      assert c' == SetBuf(c, k.b, true, onDisk);
      StepKeeps(c, DoFill(t));
      HolderSees(c', t);
      hide Inv, Content;
      forall d: nat, n: nat | d != 0 ensures Content(c', d, n) == Content(c, d, n) {
        StepFlat(c, DoFill(t), d, n);
      }
    }
  }

  lemma {:induction false} BgetReady(c: Cache, t: nat, dev: nat, blockno: nat)
    requires Inv(c) && t !in c.tickets && dev != 0
    ensures Shape(c)
    ensures Find(c.bufs, c.order, dev, blockno).Some? ==> Find(c.bufs, c.order, dev, blockno).value < NBUF
    ensures Victim(c.bufs, c.order).Some? ==> Victim(c.bufs, c.order).value < NBUF
    ensures Get(c, t, dev, blockno).Some? ==> Inv(Get(c, t, dev, blockno).value)
    ensures var f, v := Find(c.bufs, c.order, dev, blockno), Victim(c.bufs, c.order);
      Get(c, t, dev, blockno) ==
      if f.Some? then Some(Refer(c, t, f.value, dev, blockno, c.bufs[f.value].(refcnt := c.bufs[f.value].refcnt + 1)))
      else if v.Some? then Some(Refer(c, t, v.value, dev, blockno, Buf(dev, blockno, false, 1, c.bufs[v.value].data)))
      else None
  {
    GetKeeps(c, t, dev, blockno);
    FindIs(c.bufs, c.order, dev, blockno);
    VictimIs(c.bufs, c.order, c.since, c.clock);
    hide Inv, Find, Victim, ByRelease, Distinct;
    GetIs(c, t, dev, blockno);
  }

  lemma {:induction false} GetIs(c: Cache, t: nat, dev: nat, blockno: nat)
    requires Shape(c)
    requires Find(c.bufs, c.order, dev, blockno).Some? ==> Find(c.bufs, c.order, dev, blockno).value < NBUF
    requires Victim(c.bufs, c.order).Some? ==> Victim(c.bufs, c.order).value < NBUF
    ensures var f, v := Find(c.bufs, c.order, dev, blockno), Victim(c.bufs, c.order);
      Get(c, t, dev, blockno) ==
      if f.Some? then Some(Refer(c, t, f.value, dev, blockno, c.bufs[f.value].(refcnt := c.bufs[f.value].refcnt + 1)))
      else if v.Some? then Some(Refer(c, t, v.value, dev, blockno, Buf(dev, blockno, false, 1, c.bufs[v.value].data)))
      else None
  {
    hide Find, Victim;
  }

  /** binit: an empty ring, then every buffer is put in front. */
  method Binit() returns (n: seq<nat>, q: seq<nat>)
    ensures Linked(n, q, Countdown(NBUF))
  {
    hide Linked, Countdown;
    n, q := seq(NBUF + 1, _ => HEAD), seq(NBUF + 1, _ => HEAD);
    EmptyRing(n, q);
    var b: nat := 0;
    while b < NBUF
      invariant 0 <= b <= NBUF && |n| == NBUF + 1 && |q| == NBUF + 1 && Linked(n, q, Countdown(b))
    {
      CountdownBelow(b);
      PushLinked(n, q, Countdown(b), b);
      var f := n[HEAD];
      n, q := n[b := f], q[b := HEAD];
      q := q[f := b];
      n := n[HEAD := b];
      b := b + 1;
    }
  }

  lemma {:induction false} InvOrder(c: Cache)
    requires Inv(c)
    ensures Shape(c) && Below(c.order) && forall b: nat :: b < NBUF ==> b in c.order
  {
  }

  lemma {:induction false} EmptyRing(next: seq<nat>, prev: seq<nat>)
    requires |next| == NBUF + 1 && |prev| == NBUF + 1 && next[HEAD] == HEAD && prev[HEAD] == HEAD
    ensures Linked(next, prev, Countdown(0))
  {
    forall i: nat | i <= 0 ensures LinkAt(next, prev, Countdown(0), i) {}
  }

  lemma {:induction false} CountdownBelow(b: nat)
    requires b < NBUF
    ensures Below(Countdown(b)) && b !in Countdown(b) && Countdown(b + 1) == [b] + Countdown(b)
  {
    CountdownAt(b);
  }

  lemma {:induction false} FirstNode(next: seq<nat>, prev: seq<nat>, order: seq<nat>)
    requires Linked(next, prev, order)
    ensures |next| == NBUF + 1 && next[HEAD] == Node(order, 1)
  {
    assert LinkAt(next, prev, order, 0);
  }

  lemma {:induction false} LastNode(next: seq<nat>, prev: seq<nat>, order: seq<nat>)
    requires Linked(next, prev, order)
    ensures |prev| == NBUF + 1 && prev[HEAD] == Node(order, |order|)
  {
    assert LinkAt(next, prev, order, |order|);
  }

  lemma {:induction false} AtNode(next: seq<nat>, prev: seq<nat>, order: seq<nat>, i: nat)
    requires Linked(next, prev, order) && Below(order) && 0 < i && Node(order, i) != HEAD
    ensures i <= |order| && Node(order, i) == order[i - 1] && order[i - 1] < NBUF && |next| == NBUF + 1
    ensures |prev| == NBUF + 1
    ensures next[order[i - 1]] == Node(order, i + 1) && prev[order[i - 1]] == Node(order, i - 1)
  {
    assert order[i - 1] in order;
    assert LinkAt(next, prev, order, i) && LinkAt(next, prev, order, i - 1);
  }

  lemma {:induction false} PastEnd(order: seq<nat>, i: nat)
    requires Below(order) && 0 < i && Node(order, i) == HEAD
    ensures i > |order|
  {
    assert forall k :: 0 <= k < |order| ==> order[k] in order;
  }

  lemma {:induction false} BeforeStart(order: seq<nat>, i: nat)
    requires Below(order) && i <= |order| && Node(order, i) == HEAD
    ensures i == 0
  {
    assert forall k :: 0 <= k < |order| ==> order[k] in order;
  }

  lemma {:induction false} FindStep(bufs: seq<Buf>, order: seq<nat>, i: nat, dev: nat, blockno: nat)
    requires i < |order| && order[i] < |bufs|
    ensures Find(bufs, order[i..], dev, blockno) ==
      if bufs[order[i]].dev == dev && bufs[order[i]].blockno == blockno then Some(order[i])
          else Find(bufs, order[i + 1..], dev, blockno)
  {
    assert order[i..][1..] == order[i + 1..];
  }

  lemma {:induction false} FindNone(bufs: seq<Buf>, order: seq<nat>, dev: nat, blockno: nat)
    requires order == []
    ensures Find(bufs, order, dev, blockno) == None
  {
  }

  lemma {:induction false} VictimStep(bufs: seq<Buf>, order: seq<nat>, i: nat)
    requires 0 < i <= |order| && order[i - 1] < |bufs|
    ensures Victim(bufs, order[..i]) ==
      if bufs[order[i - 1]].refcnt == 0 then Some(order[i - 1]) else Victim(bufs, order[..i - 1])
  {
    assert Init(order[..i]) == order[..i - 1];
  }

  lemma {:induction false} VictimNone(bufs: seq<Buf>, order: seq<nat>)
    requires order == []
    ensures Victim(bufs, order) == None
  {
  }
}
