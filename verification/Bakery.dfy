/**
 The bakery of `Concurrent-Bakery-Sim/main.c`: any number of customers and chefs that
 share two queues, two semaphores and the cash register, one shared step at a time.
 */
module Bakery {
  import opened Common

  const QUEUE_MAX: nat := 25
  const CAPACITY: nat := 25
  const SEATS: nat := 4

  // ---------------------------------------------------------------- the queue

  /** `count` items of a ring from `head` on, oldest first. */
  function Ring(d: seq<nat>, head: nat, count: nat): (r: seq<nat>)
    requires |d| == QUEUE_MAX
    ensures |r| == count && forall k :: 0 <= k < count ==> r[k] == d[(head + k) % QUEUE_MAX]
  {
    seq(count, k requires 0 <= k < count => d[(head + k) % QUEUE_MAX])
  }

  lemma {:induction false} SlotsApart(head: nat, j: nat, k: nat)
    requires j < k < QUEUE_MAX
    ensures (head + j) % QUEUE_MAX != (head + k) % QUEUE_MAX
  {
  }

  /** An item stored at the tail comes last. */
  lemma {:induction false} RingPut(d: seq<nat>, head: nat, count: nat, x: nat)
    requires |d| == QUEUE_MAX && count < QUEUE_MAX
    ensures Ring(d[(head + count) % QUEUE_MAX := x], head, count + 1) == Ring(d, head, count) + [x]
  {
    var r := Ring(d[(head + count) % QUEUE_MAX := x], head, count + 1);
    forall k: nat | k < count ensures r[k] == Ring(d, head, count)[k] {
      SlotsApart(head, k, count);
    }
  }

  lemma {:induction false} NextSlot(head: nat, k: nat)
    ensures ((head + 1) % QUEUE_MAX + k) % QUEUE_MAX == (head + (k + 1)) % QUEUE_MAX
  {
  }

  /** An item taken at the head came first. */
  lemma {:induction false} RingTake(d: seq<nat>, head: nat, count: nat)
    requires |d| == QUEUE_MAX && head < QUEUE_MAX && 0 < count
    ensures Ring(d, head, count)[0] == d[head]
    ensures Ring(d, (head + 1) % QUEUE_MAX, count - 1) == Ring(d, head, count)[1..]
  {
    forall k: nat | k < count - 1
      ensures Ring(d, (head + 1) % QUEUE_MAX, count - 1)[k] == Ring(d, head, count)[1..][k]
    {
      NextSlot(head, k);
    }
  }

  /** A full queue drops what is put into it. */
  function Enqueued(q: seq<nat>, x: nat): seq<nat> {
    if |q| < QUEUE_MAX then q + [x] else q
  }

  class Queue {
    const data: array<nat>
    var head: nat
    var tail: nat
    var count: nat

    ghost predicate Valid()
      reads this, data
    {
      data.Length == QUEUE_MAX && head < QUEUE_MAX && count <= QUEUE_MAX && tail == (head + count) % QUEUE_MAX
    }

    ghost function Contents(): seq<nat>
      requires Valid()
      reads this, data
    {
      Ring(data[..], head, count)
    }

    constructor ()
      ensures Valid() && fresh(data) && Contents() == []
    {
      data := new nat[QUEUE_MAX];
      head, tail, count := 0, 0, 0;
    }

    method Enqueue(x: nat) returns (ok: bool)
      requires Valid()
      modifies this, data
      ensures Valid() && ok == (|old(Contents())| < QUEUE_MAX)
      ensures Contents() == Enqueued(old(Contents()), x)
    {
      hide Ring;
      ok := count < QUEUE_MAX;
      if ok {
        RingPut(data[..], head, count, x);
        data[tail] := x;
        tail := (tail + 1) % QUEUE_MAX;
        count := count + 1;
        assert data[..] == old(data[..])[(head + old(count)) % QUEUE_MAX := x];
      }
    }

    method Dequeue() returns (item: Option<nat>)
      requires Valid()
      modifies this
      ensures Valid()
      ensures item == if old(Contents()) == [] then None else Some(old(Contents())[0])
      ensures Contents() == if old(Contents()) == [] then [] else old(Contents())[1..]
    {
      hide Ring;
      item := None;
      if count > 0 {
        RingTake(data[..], head, count);
        assert data[..][head] == data[head];
        item := Some(data[head]);
        head := (head + 1) % QUEUE_MAX;
        count := count - 1;
      }
    }
  }

  // ---------------------------------------------------------------- the shop

  /** A customer, from outside to gone. `Seated` has a seat and has not asked yet; `Waiting` has been queued. */
  datatype Cust = Outside | TurnedAway | Entered | Seated | Waiting | GotCake | Paid | SeatGiven | Gone

  /** A chef, and whom the chef has. `Calling` has taken a payment; `Seating` has called a standing customer. */
  datatype Chef = Idle | Baking(i: nat) | ToPay(i: nat) | Paying(i: nat) | Accepted(i: nat) | Calling | Seating(i: nat)

  /** The one stage a customer is in, as far as the chefs are concerned. */
  datatype Place = Nowhere | Stands | Sits | With(j: nat) | Served

  /**
   `asked` and `begun` record who was put on the sofa queue and who was taken off it,
   `stood` who was put on the standing queue.
   */
  datatype Shop = Shop(
    cust: seq<Cust>, chef: seq<Chef>, standing: seq<nat>, sofa: seq<nat>, slots: nat, seats: nat, register: Option<nat>,
    baked: seq<bool>, paid: seq<bool>, place: seq<Place>, stood: seq<bool>, asked: seq<nat>, begun: seq<nat>)

  predicate Sizes(s: Shop) {
    && |s.baked| == |s.cust| && |s.paid| == |s.cust| && |s.place| == |s.cust| && |s.stood| == |s.cust|
  }

  function Stand(s: Shop, i: nat): Shop
    requires Sizes(s) && i < |s.cust|
  {
    s.(standing := Enqueued(s.standing, i), place := s.place[i := Stands], stood := s.stood[i := true])
  }

  function Sit(s: Shop, i: nat): Shop
    requires Sizes(s) && i < |s.cust|
  {
    s.(sofa := Enqueued(s.sofa, i), place := s.place[i := Sits], asked := s.asked + [i])
  }

  /** One step of customer `i`. */
  function CustStep(s: Shop, i: nat): Shop
    requires Sizes(s) && i < |s.cust|
  {
    match s.cust[i]
    case Outside =>
      if s.slots == 0 then s.(cust := s.cust[i := TurnedAway])
      else s.(cust := s.cust[i := Entered], slots := s.slots - 1)
    case Entered =>
      if s.standing == [] && s.seats > 0 then s.(cust := s.cust[i := Seated], seats := s.seats - 1)
      else Stand(s, i).(cust := s.cust[i := Waiting])
    case Seated => Sit(s, i).(cust := s.cust[i := Waiting])
    case Waiting => if s.baked[i] then s.(cust := s.cust[i := GotCake]) else s
    case GotCake => if s.paid[i] then s.(cust := s.cust[i := Paid]) else s
    case Paid => s.(cust := s.cust[i := SeatGiven], seats := s.seats + 1)
    case SeatGiven => s.(cust := s.cust[i := Gone], slots := s.slots + 1)
    case TurnedAway => s
    case Gone => s
  }

  /** One step of chef `j`; none while another has the register. */
  function ChefStep(s: Shop, j: nat): Option<Shop>
    requires Sizes(s) && j < |s.chef|
  {
    match s.chef[j]
    case Idle =>
      if s.sofa == [] || s.sofa[0] >= |s.cust| then Some(s)
      else Some(s.(sofa := s.sofa[1..], chef := s.chef[j := Baking(s.sofa[0])], place := s.place[s.sofa[0] := With(j)],
                   begun := s.begun + [s.sofa[0]]))
    case Baking(i) =>
      if i < |s.cust| then Some(s.(baked := s.baked[i := true], chef := s.chef[j := ToPay(i)])) else None
    case ToPay(i) => if s.register.Some? then None else Some(s.(register := Some(j), chef := s.chef[j := Paying(i)]))
    case Paying(i) => Some(s.(register := None, chef := s.chef[j := Accepted(i)]))
    case Accepted(i) =>
      if i < |s.cust| then Some(s.(paid := s.paid[i := true], place := s.place[i := Served],
          chef := s.chef[j := Calling]))
      else None
    case Calling =>
      if s.standing == [] || s.standing[0] >= |s.cust| then Some(s.(chef := s.chef[j := Idle]))
      else Some(s.(standing := s.standing[1..], chef := s.chef[j := Seating(s.standing[0])],
                   place := s.place[s.standing[0] := With(j)]))
    case Seating(i) => if i < |s.cust| then Some(Sit(s, i).(chef := s.chef[j := Idle])) else None
  }

  // ---------------------------------------------------------------- invariant

  predicate IsInside(k: Cust) { !k.Outside? && !k.TurnedAway? && !k.Gone? }

  predicate NotQueued(k: Cust) { k.Outside? || k.TurnedAway? || k.Entered? || k.Seated? }

  predicate HasPaid(k: Cust) { k.Paid? || k.SeatGiven? || k.Gone? }

  /** The chef has a customer. */
  predicate IsBusy(k: Chef) { !k.Idle? && !k.Calling? }

  /** The chef has customer `i`. */
  predicate Has(k: Chef, i: nat) { IsBusy(k) && k.i == i }

  /** The chef is baking or being paid for customer `i`. */
  predicate Serves(k: Chef, i: nat) { Has(k, i) && !k.Seating? }

  predicate CustOk(s: Shop, i: nat)
    requires Sizes(s) && i < |s.cust|
  {
    && (s.place[i].Nowhere? <==> NotQueued(s.cust[i]))
    && (s.paid[i] <==> s.place[i].Served?)
    && (s.paid[i] ==> s.baked[i])
    && (s.cust[i].GotCake? || HasPaid(s.cust[i]) ==> s.baked[i])
    && (HasPaid(s.cust[i]) ==> s.paid[i])
    && (s.stood[i] ==> !s.place[i].Nowhere?)
  }

  ghost predicate CustsOk(s: Shop) {
    Sizes(s) && forall i: nat :: i < |s.cust| ==> CustOk(s, i)
  }

  /** The two queues hold, once each, those who stand and those who sit. */
  ghost predicate QueuesOk(s: Shop)
    requires Sizes(s)
  {
    && Distinct(s.standing) && Distinct(s.sofa)
    && (forall x :: x in s.standing ==> x < |s.cust| && s.place[x].Stands?)
    && (forall x :: x in s.sofa ==> x < |s.cust| && s.place[x].Sits?)
    && (forall i: nat :: i < |s.cust| && s.place[i].Stands? ==> i in s.standing)
    && (forall i: nat :: i < |s.cust| && s.place[i].Sits? ==> i in s.sofa)
  }

  predicate ChefOk(s: Shop, j: nat)
    requires Sizes(s) && j < |s.chef|
  {
    && (IsBusy(s.chef[j]) ==> s.chef[j].i < |s.cust| && s.place[s.chef[j].i] == With(j))
    && (s.chef[j].ToPay? || s.chef[j].Paying? || s.chef[j].Accepted? ==> s.chef[j].i < |s.cust| && s.baked[s.chef[j].i])
    && (s.chef[j].Paying? <==> s.register == Some(j))
  }

  ghost predicate ChefsOk(s: Shop)
    requires Sizes(s)
  {
    && (forall j: nat :: j < |s.chef| ==> ChefOk(s, j))
    && (forall i: nat :: i < |s.cust| && s.place[i].With? ==> s.place[i].j < |s.chef| && Has(s.chef[s.place[i].j], i))
  }

  /** Those who asked have been begun, or are on the sofa queue, in the order they asked and once each. */
  ghost predicate OrderOk(s: Shop)
    requires Sizes(s)
  {
    && s.asked == s.begun + s.sofa && Distinct(s.asked)
    && (forall x :: x in s.begun ==> x < |s.cust|)
    && (forall i: nat :: i < |s.cust| ==> (i in s.begun <==> IsBegun(s, i)))
  }

  predicate IsBegun(s: Shop, i: nat)
    requires Sizes(s) && i < |s.cust|
  {
    s.place[i].Served? || (s.place[i].With? && s.place[i].j < |s.chef| && Serves(s.chef[s.place[i].j], i))
  }

  ghost function Inside(s: Shop): set<nat> {
    set i: nat | i < |s.cust| && IsInside(s.cust[i])
  }

  /** Those who took a seat from the semaphore and have not given it back. */
  ghost function Sitters(s: Shop): set<nat>
    requires Sizes(s)
  {
    set i: nat | i < |s.cust| && TookSeat(s.cust[i]) && !s.stood[i]
  }

  predicate TookSeat(k: Cust) { k.Seated? || k.Waiting? || k.GotCake? || k.Paid? }

  predicate GaveSeat(k: Cust) { k.SeatGiven? || k.Gone? }

  /** Those who gave back a seat they were handed, and never took from the semaphore. */
  ghost function Handed(s: Shop): set<nat>
    requires Sizes(s)
  {
    set i: nat | i < |s.cust| && GaveSeat(s.cust[i]) && s.stood[i]
  }

  ghost predicate CountsOk(s: Shop)
    requires Sizes(s)
  {
    s.slots + |Inside(s)| == CAPACITY && s.seats + |Sitters(s)| == SEATS + |Handed(s)|
  }

  ghost predicate Inv(s: Shop) {
    CustsOk(s) && QueuesOk(s) && ChefsOk(s) && OrderOk(s) && CountsOk(s)
  }

  // ---------------------------------------------------------------- the queues never overflow

  lemma {:induction false} DistinctSize(q: seq<nat>, xs: set<nat>)
    requires Distinct(q) && forall x :: x in q ==> x in xs
    ensures |q| <= |xs|
    decreases |q|
  {
    if q != [] {
      var x := Last(q);
      DistinctSize(Init(q), xs - {x});
    }
  }

  /** A customer who is inside and not in a queue finds room in it. */
  lemma {:induction false} RoomFor(s: Shop, q: seq<nat>, i: nat)
    requires Inv(s) && i < |s.cust| && IsInside(s.cust[i]) && Distinct(q) && i !in q
    requires forall x :: x in q ==> x < |s.cust| && (s.place[x].Stands? || s.place[x].Sits?)
    ensures |q| < QUEUE_MAX
  {
    hide QueuesOk, ChefsOk, OrderOk, Distinct;
    forall x | x in q ensures x in Inside(s) - {i} {
      assert CustOk(s, x);
    }
    DistinctSize(q, Inside(s) - {i});
    assert i in Inside(s);
  }

  // ---------------------------------------------------------------- steps of customers

  /** Customer `i` moves; the others stay where they are. */
  ghost predicate CustMoves(s: Shop, s': Shop, i: nat) {
    && Sizes(s) && Sizes(s') && i < |s.cust| && |s'.cust| == |s.cust|
    && s'.cust == s.cust[i := s'.cust[i]] && s'.stood == s.stood[i := s'.stood[i]]
  }

  function Bit(b: bool): nat { if b then 1 else 0 }

  lemma {:induction false} SetMove(xs: set<nat>, xs': set<nat>, i: nat)
    requires xs' - {i} == xs - {i}
    ensures |xs'| + Bit(i in xs) == |xs| + Bit(i in xs')
  {
    assert |xs| == |xs - {i}| + Bit(i in xs) by {
      assert i in xs ==> xs == xs - {i} + {i};
      assert i !in xs ==> xs == xs - {i};
    }
    assert |xs'| == |xs' - {i}| + Bit(i in xs') by {
      assert i in xs' ==> xs' == xs' - {i} + {i};
      assert i !in xs' ==> xs' == xs' - {i};
    }
  }

  /** How the three counts change. */
  lemma {:induction false} CountsMove(s: Shop, s': Shop, i: nat)
    requires CustMoves(s, s', i)
    ensures |Inside(s')| + Bit(IsInside(s.cust[i])) == |Inside(s)| + Bit(IsInside(s'.cust[i]))
    ensures |Sitters(s')| + Bit(TookSeat(s.cust[i]) && !s.stood[i]) ==
            |Sitters(s)| + Bit(TookSeat(s'.cust[i]) && !s'.stood[i])
    ensures |Handed(s')| + Bit(GaveSeat(s.cust[i]) && s.stood[i]) == |Handed(s)| + Bit(GaveSeat(s'.cust[i])
        && s'.stood[i])
  {
    hide IsInside, TookSeat, GaveSeat, Bit;
    SetMove(Inside(s), Inside(s'), i);
    SetMove(Sitters(s), Sitters(s'), i);
    SetMove(Handed(s), Handed(s'), i);
  }

  lemma {:induction false} CustFrame(s: Shop, i: nat)
    requires Sizes(s) && i < |s.cust|
    ensures CustMoves(s, CustStep(s, i), i)
  {
  }

  lemma {:induction false} CustCounts(s: Shop, i: nat)
    requires Sizes(s) && i < |s.cust| && CustOk(s, i) && CountsOk(s)
    ensures var s' := CustStep(s, i); Sizes(s') && CountsOk(s')
  {
    hide Inside, Sitters, Handed;
    CustFrame(s, i);
    CountsMove(s, CustStep(s, i), i);
  }

  /** A customer who is still outside, entering or sitting down is in no queue. */
  lemma {:induction false} NotYetQueued(s: Shop, i: nat)
    requires Inv(s) && i < |s.cust| && NotQueued(s.cust[i])
    ensures i !in s.standing && i !in s.sofa && i !in s.asked && !IsBegun(s, i)
    ensures forall j: nat :: j < |s.chef| ==> !Has(s.chef[j], i)
  {
    hide CountsOk;
    assert CustOk(s, i);
    forall j: nat | j < |s.chef| ensures !Has(s.chef[j], i) {
      assert ChefOk(s, j);
    }
  }

  /** What putting customer `i`, in no queue so far, on the sofa queue does to the queues. */
  lemma {:induction false} SitQueues(s: Shop, i: nat)
    requires Sizes(s) && i < |s.cust| && QueuesOk(s) && |s.sofa| < QUEUE_MAX && i !in s.sofa && i !in s.standing
    ensures QueuesOk(Sit(s, i))
  {
  }

  lemma {:induction false} SitOrder(s: Shop, i: nat)
    requires Sizes(s) && i < |s.cust| && OrderOk(s) && |s.sofa| < QUEUE_MAX && i !in s.asked
    ensures OrderOk(Sit(s, i))
  {
    hide Serves;
    assert forall y: nat :: y < |s.cust| && y != i ==> (IsBegun(Sit(s, i), y) <==> IsBegun(s, y));
    assert s.begun + s.sofa + [i] == s.begun + (s.sofa + [i]);
    assert i !in s.begun;
  }

  lemma {:induction false} StandQueues(s: Shop, i: nat)
    requires Sizes(s) && i < |s.cust| && QueuesOk(s) && |s.standing| < QUEUE_MAX && i !in s.sofa && i !in s.standing
    ensures QueuesOk(Stand(s, i))
  {
  }

  lemma {:induction false} CustQueues(s: Shop, i: nat)
    requires Inv(s) && i < |s.cust|
    ensures var s' := CustStep(s, i); Sizes(s') && QueuesOk(s') && OrderOk(s')
  {
    hide CustsOk, ChefsOk, CountsOk, Distinct;
    InvSizes(s);
    if s.cust[i].Entered? || s.cust[i].Seated? {
      NotYetQueued(s, i);
      RoomFor(s, s.standing, i);
      RoomFor(s, s.sofa, i);
      SitQueues(s, i);
      SitOrder(s, i);
      StandQueues(s, i);
    }
  }

  lemma {:induction false} InvSizes(s: Shop)
    requires Inv(s)
    ensures Sizes(s)
  {
  }

  lemma {:induction false} CustRest(s: Shop, i: nat)
    requires Inv(s) && i < |s.cust|
    ensures var s' := CustStep(s, i); CustsOk(s') && ChefsOk(s')
  {
    hide CountsOk, QueuesOk, OrderOk;
    CustFrame(s, i);
    var s' := CustStep(s, i);
    forall x: nat | x < |s.cust| ensures CustOk(s', x) {
      assert CustOk(s, x);
    }
    if NotQueued(s.cust[i]) {
      NotYetQueued(s, i);
    }
    CustChefs(s, s', i);
  }

  lemma {:induction false} CustChefs(s: Shop, s': Shop, i: nat)
    requires CustMoves(s, s', i) && ChefsOk(s) && s'.chef == s.chef && s'.register == s.register && s'.baked == s.baked
    requires s'.place == s.place || (s'.place == s.place[i := s'.place[i]] && !s.place[i].With? && !s'.place[i].With?)
    ensures ChefsOk(s')
  {
    forall j: nat | j < |s.chef| ensures ChefOk(s', j) {
      assert ChefOk(s, j);
    }
  }

  lemma {:induction false} CustThere(s: Shop, i: nat)
    requires Inv(s) && i < |s.cust|
    ensures Sizes(s) && CustOk(s, i)
  {
    hide QueuesOk, ChefsOk, OrderOk, CountsOk;
  }

  /** Every step of a customer keeps the invariant. */
  lemma {:induction false} CustKeeps(s: Shop, i: nat)
    requires Inv(s) && Sizes(s) && i < |s.cust|
    ensures Inv(CustStep(s, i))
  {
    hide CustsOk, QueuesOk, ChefsOk, OrderOk, CountsOk, CustStep;
    CustThere(s, i);
    CustCounts(s, i);
    CustQueues(s, i);
    CustRest(s, i);
  }

  // ---------------------------------------------------------------- steps of chefs

  lemma {:induction false} SameCounts(s: Shop, s': Shop)
    requires Sizes(s) && Sizes(s') && s'.cust == s.cust && s'.stood == s.stood && s'.slots == s.slots
    requires s'.seats == s.seats
    requires CountsOk(s)
    ensures CountsOk(s')
  {
    assert Inside(s') == Inside(s) && Sitters(s') == Sitters(s) && Handed(s') == Handed(s);
  }

  lemma {:induction false} ChefCounts(s: Shop, j: nat)
    requires Inv(s) && j < |s.chef| && ChefStep(s, j).Some?
    ensures var s' := ChefStep(s, j).value; Sizes(s') && CountsOk(s')
  {
    hide QueuesOk, ChefsOk, OrderOk, CountsOk, CustOk;
    SameCounts(s, ChefStep(s, j).value);
  }

  /** The place and the baked and paid marks of customer `x` change, and no other customer's. */
  ghost predicate Marks(s: Shop, s': Shop, x: nat) {
    && Sizes(s) && Sizes(s') && x < |s.cust| && s'.cust == s.cust && s'.stood == s.stood
    && s'.place == s.place[x := s'.place[x]] && s'.baked == s.baked[x := s'.baked[x]]
        && s'.paid == s.paid[x := s'.paid[x]]
  }

  lemma {:induction false} MarkCusts(s: Shop, s': Shop, x: nat)
    requires CustsOk(s) && Marks(s, s', x) && CustOk(s', x)
    ensures CustsOk(s')
  {
    forall y: nat | y < |s.cust| ensures CustOk(s', y) {
      assert CustOk(s, y);
    }
  }

  /** Chef `j` changes, with the place and the marks of customer `x`. */
  lemma {:induction false} MarkChefs(s: Shop, s': Shop, j: nat, x: nat)
    requires Marks(s, s', x) && ChefsOk(s) && j < |s.chef| == |s'.chef| && s'.chef == s.chef[j := s'.chef[j]]
    requires (s.baked[x] ==> s'.baked[x]) && ChefOk(s', j)
    requires IsBusy(s.chef[j]) ==> s.chef[j].i == x
    requires s.place[x] == With(j) || !s.place[x].With?
    requires s'.place[x].With? ==> s'.place[x] == With(j) && Has(s'.chef[j], x)
    requires s'.register == s.register || s'.register == Some(j) || s.register == Some(j)
    requires s'.register == Some(j) && s.register != Some(j) ==> s.register.None?
    requires s.register == Some(j) && s'.register != Some(j) ==> s'.register.None?
    ensures ChefsOk(s')
  {
    forall d: nat | d < |s.chef| ensures ChefOk(s', d) {
      assert ChefOk(s, d);
    }
  }

  /** What is known of the customer a chef has. */
  lemma {:induction false} ChefFacts(s: Shop, j: nat, x: nat)
    requires Inv(s) && j < |s.chef| && Has(s.chef[j], x)
    ensures Sizes(s) && x < |s.cust| && CustOk(s, x) && s.place[x] == With(j)
    ensures x !in s.standing && x !in s.sofa && (x in s.asked ==> Serves(s.chef[j], x))
    ensures ChefOk(s, j)
  {
    hide CountsOk, Distinct;
    assert ChefOk(s, j);
    assert CustOk(s, x);
  }

  /** Customer `x` changes hands, but not its place in a queue. */
  lemma {:induction false} SameQueues(s: Shop, s': Shop, x: nat)
    requires Marks(s, s', x) && QueuesOk(s) && s'.standing == s.standing && s'.sofa == s.sofa
    requires s'.place[x] == s.place[x] || (!s.place[x].Stands? && !s.place[x].Sits? && !s'.place[x].Stands?
        && !s'.place[x].Sits?)
    ensures QueuesOk(s')
  {
    hide Distinct;
  }

  lemma {:induction false} SameOrder(s: Shop, s': Shop, j: nat, x: nat)
    requires Marks(s, s', x) && OrderOk(s) && ChefsOk(s) && s'.sofa == s.sofa && s'.asked == s.asked
    requires s'.begun == s.begun
    requires j < |s.chef| == |s'.chef| && s'.chef == s.chef[j := s'.chef[j]] && (IsBusy(s.chef[j]) ==> s.chef[j].i == x)
    requires IsBegun(s, x) <==> IsBegun(s', x)
    ensures OrderOk(s')
  {
    hide Distinct, ChefOk;
    forall y: nat | y < |s.cust| ensures y in s.begun <==> IsBegun(s', y) {
      assert y in s.begun <==> IsBegun(s, y);
    }
  }

  /** The parts of the invariant that a step of a chef has to keep, beside the counts. */
  ghost predicate RestOk(s: Shop) {
    CustsOk(s) && QueuesOk(s) && ChefsOk(s) && OrderOk(s)
  }

  /** A chef that is baking, waits for the register or is being paid goes one step further. */
  lemma {:induction false} ServeKeeps(s: Shop, j: nat)
    requires Inv(s) && Sizes(s) && j < |s.chef| && IsBusy(s.chef[j]) && !s.chef[j].Seating? && ChefStep(s, j).Some?
    ensures RestOk(ChefStep(s, j).value)
  {
    hide CustsOk, QueuesOk, ChefsOk, OrderOk, CountsOk;
    var x := s.chef[j].i;
    var s' := ChefStep(s, j).value;
    ChefFacts(s, j, x);
    MarkCusts(s, s', x);
    MarkChefs(s, s', j, x);
    SameQueues(s, s', x);
    SameOrder(s, s', j, x);
  }

  /** The chef takes the customer at the head of the sofa queue. */
  lemma {:induction false} BeginKeeps(s: Shop, j: nat)
    requires Inv(s) && Sizes(s) && j < |s.chef| && s.chef[j].Idle? && s.sofa != []
    ensures var s' := ChefStep(s, j); s'.Some? && RestOk(s'.value)
  {
    hide CustsOk, QueuesOk, ChefsOk, OrderOk, CountsOk;
    var x := s.sofa[0];
    HeadFacts(s);
    ChefThere(s, j);
    var s' := ChefStep(s, j).value;
    MarkCusts(s, s', x);
    MarkChefs(s, s', j, x);
    BeginQueues(s, s', j);
    BeginOrder(s, s', j);
  }

  lemma {:induction false} HeadFacts(s: Shop)
    requires Inv(s)
    ensures Sizes(s)
    ensures s.sofa != [] ==> s.sofa[0] < |s.cust| && s.place[s.sofa[0]].Sits? && CustOk(s, s.sofa[0])
    ensures s.standing != [] ==> s.standing[0] < |s.cust| && s.place[s.standing[0]].Stands? && CustOk(s, s.standing[0])
  {
    hide CountsOk, ChefsOk, OrderOk, Distinct;
    assert s.sofa != [] ==> s.sofa[0] in s.sofa;
    assert s.standing != [] ==> s.standing[0] in s.standing;
  }

  lemma {:induction false} ChefThere(s: Shop, j: nat)
    requires Inv(s) && j < |s.chef|
    ensures Sizes(s) && ChefOk(s, j)
  {
    hide CountsOk, QueuesOk, OrderOk;
  }

  lemma {:induction false} BeginQueues(s: Shop, s': Shop, j: nat)
    requires Sizes(s) && Sizes(s') && QueuesOk(s) && s.sofa != [] && s.sofa[0] < |s.cust| && s'.cust == s.cust
    requires s'.sofa == s.sofa[1..] && s'.standing == s.standing && s'.place == s.place[s.sofa[0] := With(j)]
    ensures QueuesOk(s')
  {
    assert s.sofa == [s.sofa[0]] + s.sofa[1..];
    assert forall x :: x in s.sofa[1..] ==> x in s.sofa && x != s.sofa[0];
  }

  lemma {:induction false} BeginOrder(s: Shop, s': Shop, j: nat)
    requires Sizes(s) && Sizes(s') && OrderOk(s) && QueuesOk(s) && s.sofa != [] && s'.cust == s.cust && j < |s.chef|
    requires s.chef[j].Idle? && s.sofa[0] < |s.cust| && s'.sofa == s.sofa[1..]
    requires s'.place == s.place[s.sofa[0] := With(j)]
    requires s'.chef == s.chef[j := Baking(s.sofa[0])] && s'.begun == s.begun + [s.sofa[0]] && s'.asked == s.asked
    ensures OrderOk(s')
  {
    hide Distinct;
    assert s.begun + s.sofa == s'.begun + s'.sofa;
    assert s.sofa[0] in s.sofa;
    forall y: nat | y < |s.cust| ensures y in s'.begun <==> IsBegun(s', y) {
      assert y in s.begun <==> IsBegun(s, y);
    }
  }

  /** The chef calls the customer at the head of the standing queue. */
  lemma {:induction false} CallKeeps(s: Shop, j: nat)
    requires Inv(s) && Sizes(s) && j < |s.chef| && s.chef[j].Calling? && s.standing != []
    ensures var s' := ChefStep(s, j); s'.Some? && RestOk(s'.value)
  {
    hide CustsOk, QueuesOk, ChefsOk, OrderOk, CountsOk;
    var x := s.standing[0];
    HeadFacts(s);
    ChefThere(s, j);
    var s' := ChefStep(s, j).value;
    MarkCusts(s, s', x);
    MarkChefs(s, s', j, x);
    CallQueues(s, s', j);
    SameOrder(s, s', j, x);
  }

  lemma {:induction false} CallQueues(s: Shop, s': Shop, j: nat)
    requires Sizes(s) && Sizes(s') && QueuesOk(s) && s.standing != [] && s.standing[0] < |s.cust| && s'.cust == s.cust
    requires s'.standing == s.standing[1..] && s'.sofa == s.sofa && s'.place == s.place[s.standing[0] := With(j)]
    ensures QueuesOk(s')
  {
    assert s.standing == [s.standing[0]] + s.standing[1..];
    assert forall x :: x in s.standing[1..] ==> x in s.standing && x != s.standing[0];
  }

  /** The called customer sits down: there is room on the sofa queue. */
  lemma {:induction false} SeatKeeps(s: Shop, j: nat)
    requires Inv(s) && Sizes(s) && j < |s.chef| && s.chef[j].Seating?
    ensures var s' := ChefStep(s, j); s'.Some? && RestOk(s'.value)
  {
    hide CustsOk, ChefsOk, OrderOk, CountsOk, Distinct;
    var x := s.chef[j].i;
    ChefFacts(s, j, x);
    RoomFor(s, s.sofa, x);
    SitQueues(s, x);
    SitOrder(s, x);
    var m := Sit(s, x);
    var s' := m.(chef := s.chef[j := Idle]);
    MarkCusts(s, s', x);
    MarkChefs(s, s', j, x);
    SeatOrder(s, m, s', j, x);
  }

  lemma {:induction false} SeatOrder(s: Shop, m: Shop, s': Shop, j: nat, x: nat)
    requires Sizes(s) && Sizes(m) && OrderOk(m) && m.cust == s.cust && m.chef == s.chef && j < |s.chef| && x < |s.cust|
    requires m.place == s.place[x := Sits] && s.chef[j] == Seating(x) && s' == m.(chef := s.chef[j := Idle])
    ensures OrderOk(s')
  {
    hide Distinct;
    forall y: nat | y < |s.cust| ensures y in m.begun <==> IsBegun(s', y) {
      assert y in m.begun <==> IsBegun(m, y);
    }
  }

  /** A chef that finds nobody in the queue. */
  lemma {:induction false} RestKeeps(s: Shop, j: nat)
    requires Inv(s) && Sizes(s) && j < |s.chef| && s.chef[j].Calling?
    ensures RestOk(s.(chef := s.chef[j := Idle]))
  {
    hide CountsOk, Distinct, CustOk;
    var s' := s.(chef := s.chef[j := Idle]);
    forall d: nat | d < |s.chef| ensures ChefOk(s', d) {
      assert ChefOk(s, d);
    }
    forall i: nat | i < |s.cust| ensures CustOk(s', i) {
      CustSame(s, s', i);
    }
    forall y: nat | y < |s.cust| ensures y in s.begun <==> IsBegun(s', y) {
      assert y in s.begun <==> IsBegun(s, y);
    }
  }

  lemma {:induction false} CustSame(s: Shop, s': Shop, i: nat)
    requires Sizes(s) && i < |s.cust| && s' == s.(chef := s'.chef)
    ensures CustOk(s', i) <==> CustOk(s, i)
  {
  }

  /** Every step of a chef keeps the invariant. */
  lemma {:induction false} ChefKeeps(s: Shop, j: nat)
    requires Inv(s) && Sizes(s) && j < |s.chef| && ChefStep(s, j).Some?
    ensures Inv(ChefStep(s, j).value)
  {
    hide CustsOk, QueuesOk, ChefsOk, OrderOk, CountsOk;
    ChefCounts(s, j);
    HeadFacts(s);
    if IsBusy(s.chef[j]) {
      if s.chef[j].Seating? {
        SeatKeeps(s, j);
      } else {
        ServeKeeps(s, j);
      }
    } else if s.chef[j].Idle? {
      if s.sofa != [] {
        BeginKeeps(s, j);
      }
    } else if s.standing != [] {
      CallKeeps(s, j);
    } else {
      RestKeeps(s, j);
    }
  }

  // ---------------------------------------------------------------- every run

  datatype Event = OfCust(i: nat) | OfChef(j: nat)

  function Next(s: Shop, e: Event): Option<Shop>
    requires Sizes(s)
  {
    if e.OfCust? then (if e.i < |s.cust| then Some(CustStep(s, e.i)) else None)
    else if e.j < |s.chef| then ChefStep(s, e.j)
    else None
  }

  ghost predicate Reaches(s: Shop, es: seq<Event>, s': Shop)
    decreases |es|
  {
    if es == [] then s' == s
    else Sizes(s) && Next(s, es[0]).Some? && Reaches(Next(s, es[0]).value, es[1..], s')
  }

  /** Opening time: `n` customers outside, `m` idle chefs, everything free. */
  function Opening(n: nat, m: nat): Shop {
    Shop(seq(n, _ => Outside), seq(m, _ => Idle), [], [], CAPACITY, SEATS, None, seq(n, _ => false), seq(n, _ => false),
         seq(n, _ => Nowhere), seq(n, _ => false), [], [])
  }

  lemma {:induction false} OpeningInv(n: nat, m: nat)
    ensures Inv(Opening(n, m))
  {
    var s := Opening(n, m);
    assert Inside(s) == {} && Sitters(s) == {} && Handed(s) == {};
  }

  lemma {:induction false} RunInv(s: Shop, es: seq<Event>, s': Shop)
    requires Inv(s) && Reaches(s, es, s')
    ensures Inv(s')
    decreases |es|
  {
    hide Inv, CustStep, ChefStep;
    if es != [] {
      if es[0].OfCust? {
        CustKeeps(s, es[0].i);
      } else {
        ChefKeeps(s, es[0].j);
      }
      RunInv(Next(s, es[0]).value, es[1..], s');
    }
  }

  /**
   In every run the free slots and the customers inside add up to the capacity, so at
   most 25 are inside; and no queue is ever full when a customer is put into it.
   */
  lemma {:induction false} Conservation(n: nat, m: nat, es: seq<Event>, s: Shop)
    requires Reaches(Opening(n, m), es, s)
    ensures Sizes(s) && s.slots + |Inside(s)| == CAPACITY
    ensures forall i: nat :: i < |s.cust| && (s.cust[i].Entered? || s.cust[i].Seated?) ==>
      |s.standing| < QUEUE_MAX && |s.sofa| < QUEUE_MAX
    ensures forall j: nat :: j < |s.chef| && s.chef[j].Seating? ==> |s.sofa| < QUEUE_MAX
  {
    hide Opening, Reaches, ChefsOk, OrderOk, Distinct, Inside;
    OpeningInv(n, m);
    RunInv(Opening(n, m), es, s);
    forall i: nat | i < |s.cust| && (s.cust[i].Entered? || s.cust[i].Seated?)
      ensures |s.standing| < QUEUE_MAX && |s.sofa| < QUEUE_MAX
    {
      NotYetQueued(s, i);
      RoomFor(s, s.standing, i);
      RoomFor(s, s.sofa, i);
    }
    forall j: nat | j < |s.chef| && s.chef[j].Seating? ensures |s.sofa| < QUEUE_MAX {
      ChefFacts(s, j, s.chef[j].i);
      RoomFor(s, s.sofa, s.chef[j].i);
    }
  }

  ghost predicate WithChef(s: Shop, i: nat) {
    exists j: nat :: j < |s.chef| && Has(s.chef[j], i)
  }

  /**
   In every run an admitted customer who has been queued is in exactly one stage: in
   the standing queue, in the sofa queue, with one chef, or served; and nobody else is
   in any.
   */
  lemma {:induction false} OneStage(n: nat, m: nat, es: seq<Event>, s: Shop, i: nat)
    requires Reaches(Opening(n, m), es, s) && Sizes(s) && i < |s.cust|
    ensures Bit(i in s.standing) + Bit(i in s.sofa) + Bit(WithChef(s, i)) + Bit(s.paid[i]) == Bit(!NotQueued(s.cust[i]))
    ensures Distinct(s.standing) && Distinct(s.sofa)
    ensures forall j: nat, d: nat :: j < |s.chef| && d < |s.chef| && Has(s.chef[j], i) && Has(s.chef[d], i) ==> j == d
  {
    hide Opening, Reaches, OrderOk, CountsOk, Distinct;
    OpeningInv(n, m);
    RunInv(Opening(n, m), es, s);
    assert CustOk(s, i);
    forall j: nat | j < |s.chef| && Has(s.chef[j], i) ensures s.place[i] == With(j) {
      assert ChefOk(s, j);
    }
  }

  /** In every run customers are served in the order they asked, each at most once. */
  lemma {:induction false} ServedInOrder(n: nat, m: nat, es: seq<Event>, s: Shop)
    requires Reaches(Opening(n, m), es, s)
    ensures s.begun <= s.asked && Distinct(s.begun)
  {
    hide Opening, Reaches, QueuesOk, ChefsOk, CountsOk, CustOk;
    OpeningInv(n, m);
    RunInv(Opening(n, m), es, s);
    assert s.begun == s.asked[..|s.begun|];
  }

  /** In every run nobody leaves before their cake is baked and their payment accepted, and baking comes first. */
  lemma {:induction false} LeavesAfterPaying(n: nat, m: nat, es: seq<Event>, s: Shop, i: nat)
    requires Reaches(Opening(n, m), es, s) && Sizes(s) && i < |s.cust|
    ensures HasPaid(s.cust[i]) ==> s.paid[i] && s.baked[i] && i in s.begun
    ensures s.paid[i] ==> s.baked[i]
  {
    hide Opening, Reaches, QueuesOk, ChefsOk, CountsOk;
    OpeningInv(n, m);
    RunInv(Opening(n, m), es, s);
    assert CustOk(s, i);
  }

  /** In every run one chef at a time has the cash register. */
  lemma {:induction false} OneRegister(n: nat, m: nat, es: seq<Event>, s: Shop, j: nat, d: nat)
    requires Reaches(Opening(n, m), es, s) && j < |s.chef| && d < |s.chef| && s.chef[j].Paying? && s.chef[d].Paying?
    ensures j == d
  {
    hide Opening, Reaches, QueuesOk, OrderOk, CountsOk, CustOk;
    OpeningInv(n, m);
    RunInv(Opening(n, m), es, s);
    assert ChefOk(s, j) && ChefOk(s, d);
  }

  /**
   Those on a seat: who took one from the semaphore, and who was handed one when called
   from standing, until they give it back.
   */
  ghost function Seatholders(s: Shop): set<nat>
    requires Sizes(s)
  {
    set i: nat | i < |s.cust| && TookSeat(s.cust[i]) && (s.stood[i] ==> i in s.asked)
  }

  /** Those who were called from standing and handed a seat, gone or not. */
  ghost function Called(s: Shop): set<nat>
    requires Sizes(s)
  {
    set i: nat | i < |s.cust| && s.stood[i] && i in s.asked
  }

  /** Who has given a seat back had one. */
  lemma {:induction false} GaveAsked(s: Shop, i: nat)
    requires Inv(s) && i < |s.cust| && GaveSeat(s.cust[i])
    ensures i in s.asked
  {
    hide QueuesOk, ChefsOk, CountsOk;
    assert CustOk(s, i);
    assert i in s.begun <==> IsBegun(s, i);
  }

  lemma {:induction false} StoodCust(s: Shop, i: nat)
    requires Inv(s) && i < |s.cust| && s.stood[i]
    ensures TookSeat(s.cust[i]) || GaveSeat(s.cust[i])
  {
    hide QueuesOk, ChefsOk, CountsOk, OrderOk;
    assert CustOk(s, i);
  }

  lemma {:induction false} SeatSets(s: Shop)
    requires Inv(s)
    ensures |Seatholders(s)| + |Handed(s)| == |Sitters(s)| + |Called(s)|
  {
    hide Inv, TookSeat, GaveSeat;
    InvSizes(s);
    var moved := set i: nat | i < |s.cust| && TookSeat(s.cust[i]) && s.stood[i] && i in s.asked;
    assert Seatholders(s) == Sitters(s) + moved && Sitters(s) !! moved;
    forall i | i in Called(s) ensures i in moved || i in Handed(s) {
      StoodCust(s, i);
    }
    forall i | i in Handed(s) ensures i in Called(s) && i !in moved {
      GaveAsked(s, i);
      OneOrOther(s.cust[i]);
    }
    assert Called(s) == moved + Handed(s) && moved !! Handed(s);
  }

  lemma {:induction false} OneOrOther(k: Cust)
    ensures !(TookSeat(k) && GaveSeat(k))
  {
  }

  /**
   In every run the semaphore and the people on seats add up to four and the number of
   customers ever called from standing. So the semaphore counts the free seats exactly
   while nobody has been called; more than four sit exactly when more have been called than
   it shows; and it is above four exactly when fewer sit than have been called.
   */
  lemma {:induction false} SeatLaw(n: nat, m: nat, es: seq<Event>, s: Shop)
    requires Reaches(Opening(n, m), es, s)
    ensures Sizes(s) && s.seats + |Seatholders(s)| == SEATS + |Called(s)|
    ensures s.seats + |Seatholders(s)| == SEATS <==> Called(s) == {}
    ensures |Seatholders(s)| > SEATS <==> |Called(s)| > s.seats
    ensures s.seats > SEATS <==> |Called(s)| > |Seatholders(s)|
  {
    hide Opening, Reaches, QueuesOk, ChefsOk, OrderOk, CustOk, Sitters, Handed, Seatholders, Called;
    OpeningInv(n, m);
    RunInv(Opening(n, m), es, s);
    SeatSets(s);
  }

  // ---------------------------------------------------------------- five on four seats

  lemma {:induction false} Do(s0: Shop, es: seq<Event>, s: Shop, e: Event) returns (es': seq<Event>, s': Shop)
    requires Reaches(s0, es, s) && Sizes(s) && Next(s, e).Some?
    ensures Reaches(s0, es', s') && s' == Next(s, e).value
  {
    hide CustStep, ChefStep;
    DoIs(s0, es, s, e);
    es', s' := es + [e], Next(s, e).value;
  }

  lemma {:induction false} DoIs(s0: Shop, es: seq<Event>, s: Shop, e: Event)
    requires Reaches(s0, es, s) && Sizes(s) && Next(s, e).Some?
    ensures Reaches(s0, es + [e], Next(s, e).value)
    decreases |es|
  {
    hide CustStep, ChefStep;
    if es == [] {
      assert (es + [e])[1..] == [];
    } else {
      assert (es + [e])[0] == es[0] && (es + [e])[1..] == es[1..] + [e];
      DoIs(Next(s0, es[0]).value, es[1..], s, e);
    }
  }

  /** Customer `i` enters, takes a seat and asks. */
  lemma {:induction false} Arrive(s0: Shop, es: seq<Event>, s: Shop, i: nat) returns (es': seq<Event>, s': Shop)
    requires Reaches(s0, es, s) && Sizes(s) && i < |s.cust| && s.cust[i].Outside? && s.slots > 0 && s.seats > 0
    requires s.standing == [] && |s.sofa| < QUEUE_MAX
    ensures Reaches(s0, es', s')
    ensures s' == s.(cust := s.cust[i := Waiting], slots := s.slots - 1, seats := s.seats - 1, sofa := s.sofa + [i],
                     place := s.place[i := Sits], asked := s.asked + [i])
  {
    es', s' := Do(s0, es, s, OfCust(i));
    es', s' := Do(s0, es', s', OfCust(i));
    es', s' := Do(s0, es', s', OfCust(i));
    assert s'.cust == s.cust[i := Waiting];
  }

  /** Customer `i` enters and stands. */
  lemma {:induction false} ArriveLate(s0: Shop, es: seq<Event>, s: Shop, i: nat) returns (es': seq<Event>, s': Shop)
    requires Reaches(s0, es, s) && Sizes(s) && i < |s.cust| && s.cust[i].Outside? && s.slots > 0 && s.seats == 0
    requires |s.standing| < QUEUE_MAX
    ensures Reaches(s0, es', s')
    ensures s' == s.(cust := s.cust[i := Waiting], slots := s.slots - 1, standing := s.standing + [i],
                     place := s.place[i := Stands], stood := s.stood[i := true])
  {
    es', s' := Do(s0, es, s, OfCust(i));
    es', s' := Do(s0, es', s', OfCust(i));
    assert s'.cust == s.cust[i := Waiting];
  }

  /** The chef serves the customer at the head of the sofa queue and takes the payment. */
  lemma {:induction false} ServeFirst(s0: Shop, es: seq<Event>, s: Shop, j: nat) returns (es': seq<Event>, s': Shop)
    requires Reaches(s0, es, s) && Sizes(s) && j < |s.chef| && s.chef[j].Idle? && s.sofa != [] && s.sofa[0] < |s.cust|
    requires s.register.None?
    ensures Reaches(s0, es', s')
    ensures var i := s.sofa[0];
      s' == s.(chef := s.chef[j := Calling], sofa := s.sofa[1..], begun := s.begun + [i],
               baked := s.baked[i := true], paid := s.paid[i := true], place := s.place[i := Served])
  {
    es', s' := Do(s0, es, s, OfChef(j));
    es', s' := Do(s0, es', s', OfChef(j));
    es', s' := Do(s0, es', s', OfChef(j));
    es', s' := Do(s0, es', s', OfChef(j));
    es', s' := Do(s0, es', s', OfChef(j));
    assert s'.chef == s.chef[j := Calling] && s'.place == s.place[s.sofa[0] := Served];
  }

  /** The chef hands the seat on to the customer who has stood longest. */
  lemma {:induction false} HandOn(s0: Shop, es: seq<Event>, s: Shop, j: nat) returns (es': seq<Event>, s': Shop)
    requires Reaches(s0, es, s) && Sizes(s) && j < |s.chef| && s.chef[j].Calling?
    requires s.standing != [] && s.standing[0] < |s.cust| && |s.sofa| < QUEUE_MAX
    ensures Reaches(s0, es', s')
    ensures var i := s.standing[0];
      s' == s.(chef := s.chef[j := Idle], standing := s.standing[1..], sofa := s.sofa + [i],
               place := s.place[i := Sits], asked := s.asked + [i])
  {
    es', s' := Do(s0, es, s, OfChef(j));
    es', s' := Do(s0, es', s', OfChef(j));
    assert s'.chef == s.chef[j := Idle] && s'.place == s.place[s.standing[0] := Sits];
  }

  /** A customer who has paid gives a seat back to the semaphore. */
  lemma {:induction false} GiveBack(s0: Shop, es: seq<Event>, s: Shop, i: nat) returns (es': seq<Event>, s': Shop)
    requires Reaches(s0, es, s) && Sizes(s) && i < |s.cust| && s.cust[i].Waiting? && s.baked[i] && s.paid[i]
    ensures Reaches(s0, es', s')
    ensures s' == s.(cust := s.cust[i := SeatGiven], seats := s.seats + 1)
  {
    es', s' := Do(s0, es, s, OfCust(i));
    es', s' := Do(s0, es', s', OfCust(i));
    es', s' := Do(s0, es', s', OfCust(i));
    assert s'.cust == s.cust[i := SeatGiven];
  }

  /** Four customers sit and a fifth stands. */
  lemma {:induction false} FiveArrive() returns (es: seq<Event>, s: Shop)
    ensures Reaches(Opening(6, 1), es, s)
    ensures s == Shop([Waiting, Waiting, Waiting, Waiting, Waiting, Outside], [Idle], [4], [0, 1, 2, 3], 20, 0, None,
                      [false, false, false, false, false, false], [false, false, false, false, false, false],
                      [Sits, Sits, Sits, Sits, Stands, Nowhere], [false, false, false, false, true, false],
                      [0, 1, 2, 3], [])
  {
    hide Opening, Reaches;
    var s0 := Opening(6, 1);
    SixOutside();
    es, s := [], s0;
    es, s := Arrive(s0, es, s, 0);
    es, s := Arrive(s0, es, s, 1);
    es, s := Arrive(s0, es, s, 2);
    es, s := Arrive(s0, es, s, 3);
    es, s := ArriveLate(s0, es, s, 4);
  }

  lemma {:induction false} SixOutside()
    ensures var s := Opening(6, 1);
      && Reaches(s, [], s)
      && s == Shop([Outside, Outside, Outside, Outside, Outside, Outside], [Idle], [], [], 25, 4, None,
                   [false, false, false, false, false, false], [false, false, false, false, false, false],
                   [Nowhere, Nowhere, Nowhere, Nowhere, Nowhere, Nowhere], [false, false, false, false, false, false],
                   [], [])
  {
  }

  /** The first is served, its seat handed to the fifth, and given back to the semaphore as well. */
  lemma {:induction false} SeatTwice() returns (es: seq<Event>, s: Shop)
    ensures Reaches(Opening(6, 1), es, s)
    ensures s == Shop([SeatGiven, Waiting, Waiting, Waiting, Waiting, Outside], [Idle], [], [1, 2, 3, 4], 20, 1, None,
                      [true, false, false, false, false, false], [true, false, false, false, false, false],
                      [Served, Sits, Sits, Sits, Sits, Nowhere], [false, false, false, false, true, false],
                      [0, 1, 2, 3, 4], [0])
  {
    hide Opening, Reaches;
    es, s := FiveArrive();
    es, s := ServeFirst(Opening(6, 1), es, s, 0);
    es, s := HandOn(Opening(6, 1), es, s, 0);
    es, s := GiveBack(Opening(6, 1), es, s, 0);
  }

  /**
   Six customers and one chef. Four sit, the fifth stands; the first is served, the chef
   hands its seat to the fifth, and the first then gives a seat back as well, which the
   sixth takes: five are on four seats, and nobody who stood has left.
   */
  lemma {:induction false} FiveSit() returns (es: seq<Event>, s: Shop)
    ensures Reaches(Opening(6, 1), es, s) && Sizes(s)
    ensures Seatholders(s) == {1, 2, 3, 4, 5} && |Seatholders(s)| > SEATS
    ensures forall i: nat :: i < |s.cust| && s.stood[i] ==> !GaveSeat(s.cust[i])
  {
    hide Opening, Reaches;
    es, s := SeatTwice();
    es, s := Arrive(Opening(6, 1), es, s, 5);
    assert s.cust == [SeatGiven, Waiting, Waiting, Waiting, Waiting, Waiting];
    assert s.stood == [false, false, false, false, true, false] && 4 in s.asked;
    assert |{1, 2, 3, 4, 5}| == 5;
  }

  /** The chef serves the head of the sofa queue, finds nobody standing, and the customer gives the seat back. */
  lemma {:induction false} ServeAndLeave(s0: Shop, es: seq<Event>, s: Shop) returns (es': seq<Event>, s': Shop)
    requires Reaches(s0, es, s) && Sizes(s) && s.chef == [Idle] && s.standing == [] && s.register.None?
    requires s.sofa != [] && s.sofa[0] < |s.cust| && s.cust[s.sofa[0]].Waiting?
    ensures Reaches(s0, es', s') && Sizes(s') && s'.chef == [Idle] && s'.standing == [] && s'.register.None?
    ensures s'.cust == s.cust[s.sofa[0] := SeatGiven] && s'.sofa == s.sofa[1..] && s'.seats == s.seats + 1
  {
    hide Reaches;
    es', s' := ServeFirst(s0, es, s, 0);
    es', s' := Do(s0, es', s', OfChef(0));
    es', s' := GiveBack(s0, es', s', s.sofa[0]);
  }

  /** If instead all are served, the semaphore ends above four. */
  lemma {:induction false} FiveFree() returns (es: seq<Event>, s: Shop)
    ensures Reaches(Opening(6, 1), es, s) && s.seats == 5 > SEATS
  {
    hide Opening, Reaches;
    es, s := SeatTwice();
    es, s := ServeAndLeave(Opening(6, 1), es, s);
    es, s := ServeAndLeave(Opening(6, 1), es, s);
    es, s := ServeAndLeave(Opening(6, 1), es, s);
    es, s := ServeAndLeave(Opening(6, 1), es, s);
  }

  // ---------------------------------------------------------------- who is turned away, and who waits for ever

  /** In every run a customer is turned away exactly if 25 are inside, and sits if nobody stands and a seat is free. */
  lemma {:induction false} Admission(n: nat, m: nat, es: seq<Event>, s: Shop, i: nat)
    requires Reaches(Opening(n, m), es, s) && Sizes(s) && i < |s.cust|
    ensures s.cust[i].Outside? ==> CustStep(s, i).cust[i] == if |Inside(s)| == CAPACITY then TurnedAway else Entered
    ensures s.cust[i].Entered? ==>
      CustStep(s, i).cust[i] == if s.standing == [] && s.seats > 0 then Seated else Waiting
  {
    hide Opening, Reaches, Inside;
    Conservation(n, m, es, s);
  }

  /** Somebody stands, and nobody is left whose payment would make a chef call them. */
  ghost predicate Stranded(s: Shop) {
    && s.standing != [] && s.sofa == []
    && (forall j: nat :: j < |s.chef| ==> s.chef[j].Idle?) && (forall i: nat :: i < |s.cust| ==> !s.cust[i].Seated?)
  }

  lemma {:induction false} StrandedStep(s: Shop, e: Event)
    requires Sizes(s) && Stranded(s) && Next(s, e).Some?
    ensures var r := Next(s, e).value; Sizes(r) && Stranded(r) && s.standing <= r.standing
  {
  }

  /** Those who stand then stand for ever, whoever else comes. */
  lemma {:induction false} StrandedForever(s: Shop, es: seq<Event>, s': Shop)
    requires Sizes(s) && Stranded(s) && Reaches(s, es, s')
    ensures Sizes(s') && Stranded(s') && s.standing <= s'.standing
    decreases |es|
  {
    hide Stranded, Sizes, CustStep, ChefStep;
    if es != [] {
      StrandedStep(s, es[0]);
      StrandedForever(Next(s, es[0]).value, es[1..], s');
    }
  }

  /** No step of anybody changes anything. */
  ghost predicate Quiet(s: Shop)
    requires Sizes(s)
  {
    && (forall i: nat :: i < |s.cust| ==> CustStep(s, i) == s)
    && (forall j: nat :: j < |s.chef| ==> ChefStep(s, j).None? || ChefStep(s, j) == Some(s))
  }

  lemma {:induction false} SameChefs(s: Shop, es: seq<Event>, s': Shop)
    requires Reaches(s, es, s')
    ensures |s'.chef| == |s.chef|
    decreases |es|
  {
    if es != [] {
      SameChefs(Next(s, es[0]).value, es[1..], s');
    }
  }

  predicate RegisterOk(s: Shop) { s.register.Some? ==> s.register.value < |s.chef| }

  lemma {:induction false} RegisterRun(s: Shop, es: seq<Event>, s': Shop)
    requires Reaches(s, es, s') && RegisterOk(s)
    ensures RegisterOk(s')
    decreases |es|
  {
    if es != [] {
      RegisterRun(Next(s, es[0]).value, es[1..], s');
    }
  }

  /** A chef moves on, unless there is nobody to serve or another has the register. */
  lemma {:induction false} ChefMoves(s: Shop, j: nat)
    requires Inv(s) && j < |s.chef| && (s.chef[j].Idle? ==> s.sofa != []) && (s.chef[j].ToPay? ==> s.register.None?)
    ensures ChefStep(s, j).Some? && ChefStep(s, j) != Some(s)
  {
    hide CountsOk, OrderOk, Inside, Distinct, CustOk;
    HeadFacts(s);
    assert ChefOk(s, j);
    var r := ChefStep(s, j).value;
    assert |r.chef| == |s.chef| && r.chef[j] != s.chef[j];
  }

  lemma {:induction false} QuietChef(s: Shop, j: nat)
    requires Inv(s) && RegisterOk(s) && Quiet(s) && j < |s.chef|
    ensures s.chef[j].Idle? && s.sofa == []
  {
    hide CustStep, ChefStep, CustOk, QueuesOk, CountsOk, OrderOk;
    assert ChefStep(s, j).None? || ChefStep(s, j) == Some(s);
    if s.register.Some? {
      var k := s.register.value;
      assert ChefOk(s, k);
      assert ChefStep(s, k).None? || ChefStep(s, k) == Some(s);
      ChefMoves(s, k);
    } else if !s.chef[j].Idle? || s.sofa != [] {
      ChefMoves(s, j);
    }
  }

  lemma {:induction false} QuietCust(s: Shop, i: nat)
    requires Inv(s) && Quiet(s) && i < |s.cust| && s.sofa == [] && forall j: nat :: j < |s.chef| ==> s.chef[j].Idle?
    ensures s.cust[i].Gone? || s.cust[i].TurnedAway? || i in s.standing
    ensures !s.cust[i].Seated?
  {
    hide ChefStep, CountsOk, OrderOk, Inside, Distinct;
    assert CustOk(s, i);
    assert CustStep(s, i) == s;
  }

  /**
   When nothing moves any more, every customer has left or was turned away, or some stand and are
   stranded. With at least one chef that is the only way to get stuck.
   */
  lemma {:induction false} QuietIsOver(n: nat, m: nat, es: seq<Event>, s: Shop)
    requires Reaches(Opening(n, m), es, s) && m > 0 && Sizes(s) && Quiet(s)
    ensures Stranded(s) || forall i: nat :: i < |s.cust| ==> s.cust[i].Gone? || s.cust[i].TurnedAway?
  {
    hide Reaches, Inv, Quiet, CustStep, ChefStep;
    OpeningInv(n, m);
    RunInv(Opening(n, m), es, s);
    SameChefs(Opening(n, m), es, s);
    RegisterRun(Opening(n, m), es, s);
    forall j: nat | j < |s.chef| ensures s.chef[j].Idle? && s.sofa == [] {
      QuietChef(s, j);
    }
    assert s.chef[0].Idle? && s.sofa == [];
    forall i: nat | i < |s.cust|
      ensures (s.cust[i].Gone? || s.cust[i].TurnedAway? || i in s.standing) && !s.cust[i].Seated?
    {
      QuietCust(s, i);
    }
  }

  function Rank(k: Chef): nat {
    match k
    case Calling => 0
    case Accepted(_) => 1
    case Paying(_) => 2
    case ToPay(_) => 3
    case Baking(_) => 4
    case Idle => 5
    case Seating(_) => 6
  }

  /** One step of a chef on the way to calling somebody. */
  lemma {:induction false} NearerCall(s: Shop, j: nat)
    requires Inv(s) && RegisterOk(s) && j < |s.chef| && !s.chef[j].Calling?
    requires (s.chef[j].Idle? ==> s.sofa != []) && (s.chef[j].ToPay? ==> s.register.None?)
    ensures var m := ChefStep(s, j);
      && m.Some? && RegisterOk(m.value) && m.value.standing == s.standing && |m.value.chef| == |s.chef|
      && Rank(m.value.chef[j]) < Rank(s.chef[j]) && (m.value.chef[j].Idle? ==> m.value.sofa != [])
  {
    hide CountsOk, OrderOk, Inside, Distinct, CustOk;
    HeadFacts(s);
    assert ChefOk(s, j);
  }

  lemma {:induction false} HeadGoes(s: Shop, j: nat)
    requires Inv(s) && j < |s.chef| && s.chef[j].Calling? && s.standing != []
    ensures ChefStep(s, j).Some? && s.standing[0] !in ChefStep(s, j).value.standing
  {
    hide CountsOk, OrderOk, Inside, CustOk;
    HeadFacts(s);
  }

  lemma {:induction false} HolderPays(s: Shop)
    requires Inv(s) && RegisterOk(s) && s.register.Some?
    ensures s.register.value < |s.chef| && s.chef[s.register.value].Paying?
  {
    assert ChefOk(s, s.register.value);
  }

  /** A chef who has a customer, or has one waiting on the sofa, will call whoever stands first. */
  lemma {:induction false} ChefCalls(s: Shop, j: nat) returns (es: seq<Event>, r: Shop)
    requires Inv(s) && RegisterOk(s) && j < |s.chef| && s.standing != [] && (s.chef[j].Idle? ==> s.sofa != [])
    ensures Reaches(s, es, r) && s.standing[0] !in r.standing
    decreases Rank(s.chef[j])
  {
    hide CustStep, ChefStep, Inv, RegisterOk;
    InvSizes(s);
    if s.chef[j].Calling? {
      HeadGoes(s, j);
      es, r := [OfChef(j)], ChefStep(s, j).value;
      assert es[1..] == [];
    } else if s.chef[j].ToPay? && s.register.Some? {
      HolderPays(s);
      es, r := ChefCalls(s, s.register.value);
    } else {
      NearerCall(s, j);
      ChefKeeps(s, j);
      var rest;
      rest, r := ChefCalls(ChefStep(s, j).value, j);
      es := [OfChef(j)] + rest;
      assert es[1..] == rest;
    }
  }

  lemma {:induction false} SeatedAsks(s: Shop, i: nat)
    requires Inv(s) && RegisterOk(s) && i < |s.cust| && s.cust[i].Seated?
    ensures var m := CustStep(s, i); m.sofa != [] && m.standing == s.standing && m.chef == s.chef && RegisterOk(m)
  {
    hide CountsOk, OrderOk, Inside, Distinct, CustOk, ChefsOk;
  }

  lemma {:induction false} OpenRegister(n: nat, m: nat)
    ensures RegisterOk(Opening(n, m))
  {
  }

  lemma {:induction false} SomebodyCalls(s: Shop) returns (es: seq<Event>, r: Shop)
    requires Inv(s) && Sizes(s) && RegisterOk(s) && s.standing != [] && !Stranded(s) && |s.chef| > 0
    ensures Reaches(s, es, r) && s.standing[0] !in r.standing
  {
    hide Inv, CustStep, ChefStep, RegisterOk;
    if j: nat :| j < |s.chef| && !s.chef[j].Idle? {
      es, r := ChefCalls(s, j);
    } else if s.sofa != [] {
      es, r := ChefCalls(s, 0);
    } else {
      var i: nat :| i < |s.cust| && s.cust[i].Seated?;
      SeatedAsks(s, i);
      CustKeeps(s, i);
      var rest;
      rest, r := ChefCalls(CustStep(s, i), 0);
      es := [OfCust(i)] + rest;
      assert es[1..] == rest;
    }
  }

  /** Whoever stands first can still be called exactly if they are not stranded. */
  lemma {:induction false} CalledIff(n: nat, m: nat, es: seq<Event>, s: Shop)
    requires Reaches(Opening(n, m), es, s) && m > 0 && Sizes(s) && s.standing != []
    ensures (exists more, r :: Reaches(s, more, r) && s.standing[0] !in r.standing) <==> !Stranded(s)
  {
    hide Reaches, Inv, CustStep, ChefStep, RegisterOk;
    OpeningInv(n, m);
    RunInv(Opening(n, m), es, s);
    SameChefs(Opening(n, m), es, s);
    OpenRegister(n, m);
    RegisterRun(Opening(n, m), es, s);
    if Stranded(s) {
      forall more, r | Reaches(s, more, r) ensures s.standing[0] in r.standing {
        StrandedForever(s, more, r);
        assert r.standing[0] == s.standing[0];
      }
    } else {
      var more, r := SomebodyCalls(s);
    }
  }

  /** The chef serves the head of the sofa queue and finds nobody standing. */
  lemma {:induction false} ServeOne(s0: Shop, es: seq<Event>, s: Shop) returns (es': seq<Event>, s': Shop)
    requires Reaches(s0, es, s) && Sizes(s) && s.chef == [Idle] && s.standing == [] && s.register.None?
    requires s.sofa != [] && s.sofa[0] < |s.cust|
    ensures Reaches(s0, es', s') && Sizes(s') && s'.chef == [Idle] && s'.standing == [] && s'.register.None?
    ensures s'.cust == s.cust && s'.sofa == s.sofa[1..] && s'.seats == s.seats && s'.slots == s.slots
  {
    hide Reaches;
    es', s' := ServeFirst(s0, es, s, 0);
    es', s' := Do(s0, es', s', OfChef(0));
  }

  /**
   Five customers and one chef: all who sit are served while nobody stands, and before they give
   their seats back the fifth comes, finds no seat and stands. Nobody will ever call it.
   */
  lemma {:induction false} FifthStranded() returns (es: seq<Event>, s: Shop)
    ensures Reaches(Opening(6, 1), es, s) && Sizes(s) && Stranded(s) && s.standing == [4]
  {
    hide Opening, Reaches;
    var s0 := Opening(6, 1);
    es, s := FourSit();
    es, s := ServeOne(s0, es, s);
    es, s := ServeOne(s0, es, s);
    es, s := ServeOne(s0, es, s);
    es, s := ServeOne(s0, es, s);
    es, s := ArriveLate(s0, es, s, 4);
    assert s.cust == [Waiting, Waiting, Waiting, Waiting, Waiting, Outside];
  }

  lemma {:induction false} FourSit() returns (es: seq<Event>, s: Shop)
    ensures Reaches(Opening(6, 1), es, s) && Sizes(s) && s.chef == [Idle] && s.standing == [] && s.register.None?
    ensures s.cust == [Waiting, Waiting, Waiting, Waiting, Outside, Outside] && s.sofa == [0, 1, 2, 3]
    ensures s.seats == 0 && s.slots == 21
  {
    hide Opening, Reaches;
    var s0 := Opening(6, 1);
    SixOutside();
    es, s := [], s0;
    es, s := Arrive(s0, es, s, 0);
    es, s := Arrive(s0, es, s, 1);
    es, s := Arrive(s0, es, s, 2);
    es, s := Arrive(s0, es, s, 3);
  }
}
