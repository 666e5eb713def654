/**
 * The disk driver of kernel/virtio_disk.c and the device it shares the split virtqueue with (sections 2.6 and 5.2 of
 * VirtIO 1.1): three-descriptor chains, an available and a used ring with 16-bit indices, and requests that the
 * device may finish in any order.
 */
module Virtio {
  import opened Common

  const NUM := 8
  const WRAP := 65536
  const BSIZE := 1024
  const F_NEXT := 1
  const F_WRITE := 2

  /** What a descriptor points to: a request header, the data of a buffer, or a status byte. */
  datatype Addr = Nowhere | Header(i: nat) | Data(b: nat) | Status(i: nat)

  datatype Desc = Desc(addr: Addr, len: nat, flags: nat, next: nat)

  datatype Op = Op(write: bool, sector: nat)

  datatype Info = Info(b: Option<nat>, status: nat)

  /** The memory driver and device share, the driver's own variables, and the device's own. */
  datatype Sys = Sys(
    desc: seq<Desc>, free: seq<bool>, ops: seq<Op>, info: seq<Info>,
    avail: seq<nat>, availIdx: nat, used: seq<nat>, usedIdx: nat, seenIdx: nat,
    busy: set<nat>, data: map<nat, int>,
    takenIdx: nat, serving: set<nat>, blocks: map<nat, int>)

  /** How far a request is. */
  datatype Stage = Queued | Serving | Served | Noticed

  datatype Req = Req(b: nat, write: bool, sector: nat, d1: nat, d2: nat, stage: Stage)

  /** Which chains are in use, and what lies between the indices of the two rings. */
  datatype Book = Book(chains: map<nat, Req>, availQ: seq<nat>, usedQ: seq<nat>)

  const NONE := Desc(Nowhere, 0, 0, 0)

  function Lookup(m: map<nat, int>, k: nat): int { if k in m then m[k] else 0 }

  function Next(idx: nat): nat { (idx + 1) % WRAP }

  // ---------------------------------------------------------------- invariant

  predicate Shape(s: Sys) {
    && |s.desc| == NUM && |s.free| == NUM && |s.ops| == NUM && |s.info| == NUM && |s.avail| == NUM && |s.used| == NUM
    && s.availIdx < WRAP && s.usedIdx < WRAP && s.seenIdx < WRAP && s.takenIdx < WRAP
  }

  /** The entries of the ring from index `from` up to index `to` are `q`. */
  ghost predicate Window(ring: seq<nat>, from: nat, to: nat, q: seq<nat>) {
    && |ring| == NUM && |q| <= NUM && to == (from + |q|) % WRAP
    && forall i :: 0 <= i < |q| ==> ring[(from + i) % NUM] == q[i]
  }

  predicate Owns(h: nat, r: Req, i: nat) { i == h || i == r.d1 || i == r.d2 }

  /** The three descriptors of a request, as the driver formats them. */
  ghost predicate Formatted(s: Sys, h: nat, r: Req)
    requires Shape(s)
  {
    && h < NUM && r.d1 < NUM && r.d2 < NUM && h != r.d1 && h != r.d2 && r.d1 != r.d2
    && s.desc[h] == Desc(Header(h), 16, F_NEXT, r.d1)
    && s.desc[r.d1] == Desc(Data(r.b), BSIZE, if r.write then F_NEXT else F_WRITE + F_NEXT, r.d2)
    && s.desc[r.d2] == Desc(Status(h), 1, F_WRITE, 0)
    && s.ops[h] == Op(r.write, r.sector) && s.info[h].b == Some(r.b)
  }

  ghost predicate ChainsOk(s: Sys, chains: map<nat, Req>)
    requires Shape(s)
  {
    forall h :: h in chains ==> Formatted(s, h, chains[h])
  }

  /** Chains share no descriptor. */
  ghost predicate Disjoint(chains: map<nat, Req>) {
    forall h, h', i: nat :: h in chains && h' in chains && Owns(h, chains[h], i) && Owns(h', chains[h'], i) ==> h == h'
  }

  ghost predicate InChain(chains: map<nat, Req>, i: nat) {
    exists h :: h in chains && Owns(h, chains[h], i)
  }

  /** A descriptor is free exactly if no chain has it, and then it is cleared. */
  ghost predicate FreeRest(s: Sys, chains: map<nat, Req>)
    requires Shape(s)
  {
    forall i: nat :: i < NUM ==> (s.free[i] <==> !InChain(chains, i)) && (s.free[i] ==> s.desc[i] == NONE)
  }

  ghost predicate StagesOk(s: Sys, k: Book) {
    && (forall h :: h in k.availQ <==> h in k.chains && k.chains[h].stage.Queued?)
    && (forall h :: h in s.serving <==> h in k.chains && k.chains[h].stage.Serving?)
    && (forall h :: h in k.usedQ <==> h in k.chains && k.chains[h].stage.Served?)
    && Distinct(k.availQ) && Distinct(k.usedQ)
  }

  /** A buffer is marked busy until the driver has noticed that its request is served. */
  ghost predicate BuffersOk(s: Sys, chains: map<nat, Req>)
    requires Shape(s)
  {
    && (forall h :: h in chains && h < NUM ==>
          && (chains[h].b in s.busy <==> !chains[h].stage.Noticed?)
          && (chains[h].stage.Served? ==> s.info[h].status == 0))
    && (forall h, h' :: h in chains && h' in chains && chains[h].b == chains[h'].b ==> h == h')
  }

  ghost predicate Inv(s: Sys, k: Book) {
    && Shape(s) && ChainsOk(s, k.chains) && Disjoint(k.chains) && FreeRest(s, k.chains)
    && StagesOk(s, k) && BuffersOk(s, k.chains)
    && Window(s.avail, s.takenIdx, s.availIdx, k.availQ) && Window(s.used, s.seenIdx, s.usedIdx, k.usedQ)
  }

  // ---------------------------------------------------------------- rings

  /** Distinct descriptor numbers fit in a ring. */
  lemma {:induction false} AtMostNum(q: seq<nat>, n: nat)
    requires Distinct(q) && forall x :: x in q ==> x < n
    ensures |q| <= n
    decreases n
  {
    if q != [] {
      assert q[0] in q;
      if n - 1 in q {
        var i :| 0 <= i < |q| && q[i] == n - 1;
        var r := q[..i] + q[i + 1..];
        forall x | x in r ensures x < n - 1 {
          var j :| 0 <= j < |r| && r[j] == x;
          var l := if j < i then j else j + 1;
          assert x == q[l] && q[l] in q;
          assert if l < i then q[l] != q[i] else q[i] != q[l];
        }
        AtMostNum(r, n - 1);
      } else {
        AtMostNum(q, n - 1);
      }
    }
  }

  /** Adding an entry at the index overwrites nothing between the indices, also when the index wraps. */
  lemma {:induction false} Push(ring: seq<nat>, from: nat, to: nat, q: seq<nat>, h: nat)
    requires Window(ring, from, to, q) && |q| < NUM && from < WRAP && to < WRAP
    ensures Window(ring[to % NUM := h], from, Next(to), q + [h])
  {
    var r, p := ring[to % NUM := h], q + [h];
    PushIndex(from, to, |q|);
    forall i | 0 <= i < |p| ensures r[(from + i) % NUM] == p[i] {
      if i < |q| {
        Elsewhere(from, i, |q|);
      }
    }
  }

  lemma {:induction false} PushIndex(from: nat, to: nat, n: nat)
    requires to == (from + n) % WRAP
    ensures Next(to) == (from + n + 1) % WRAP && to % NUM == (from + n) % NUM
  {
    assert WRAP % NUM == 0;
    var w := (from + n) / WRAP;
    assert from + n == w * WRAP + to;
    assert (w * WRAP + to) % NUM == to % NUM by {
      assert w * WRAP == (w * (WRAP / NUM)) * NUM;
      ModSum(w * (WRAP / NUM), to);
    }
  }

  lemma {:induction false} ModSum(a: nat, b: nat)
    ensures (a * NUM + b) % NUM == b % NUM
  {
  }

  lemma {:induction false} Elsewhere(from: nat, i: nat, n: nat)
    requires i < n < NUM
    ensures (from + i) % NUM != (from + n) % NUM
  {
  }

  /** Taking the entry at the lower index. */
  lemma {:induction false} Pop(ring: seq<nat>, from: nat, to: nat, q: seq<nat>)
    requires Window(ring, from, to, q) && from < WRAP && to < WRAP
    ensures from != to <==> q != []
    ensures from != to ==> ring[from % NUM] == q[0] && Window(ring, Next(from), to, q[1..])
  {
    if q != [] {
      assert ring[(from + 0) % NUM] == q[0];
      var f := Next(from);
      forall i | 0 <= i < |q| - 1 ensures ring[(f + i) % NUM] == q[1..][i] {
        assert ring[(from + (i + 1)) % NUM] == q[i + 1];
        PopIndex(from, i);
      }
      PopIndex(from, |q| - 1);
    }
  }

  lemma {:induction false} PopIndex(from: nat, i: nat)
    requires from < WRAP
    ensures (Next(from) + i) % NUM == (from + (i + 1)) % NUM
    ensures (Next(from) + i) % WRAP == (from + (i + 1)) % WRAP
  {
  }

  // ---------------------------------------------------------------- driver: a new request

  /** The descriptors are free and different. */
  predicate Chosen(s: Sys, h: nat, d1: nat, d2: nat)
    requires Shape(s)
  {
    h < NUM && d1 < NUM && d2 < NUM && h != d1 && h != d2 && d1 != d2 && s.free[h] && s.free[d1] && s.free[d2]
  }

  /** virtio_disk_rw up to the notification: take three descriptors, format them, put the head on the ring. */
  function Submit(s: Sys, b: nat, write: bool, sector: nat, h: nat, d1: nat, d2: nat): Sys
    requires Shape(s) && Chosen(s, h, d1, d2)
  {
    s.(free := s.free[h := false][d1 := false][d2 := false],
       desc := s.desc[h := Desc(Header(h), 16, F_NEXT, d1)]
                     [d1 := Desc(Data(b), BSIZE, if write then F_NEXT else F_WRITE + F_NEXT, d2)]
                     [d2 := Desc(Status(h), 1, F_WRITE, 0)],
       ops := s.ops[h := Op(write, sector)],
       info := s.info[h := Info(Some(b), 0xff)],
       busy := s.busy + {b},
       avail := s.avail[s.availIdx % NUM := h],
       availIdx := Next(s.availIdx))
  }

  function SubmitBook(k: Book, b: nat, write: bool, sector: nat, h: nat, d1: nat, d2: nat): Book {
    k.(chains := k.chains[h := Req(b, write, sector, d1, d2, Queued)], availQ := k.availQ + [h])
  }

  /** The caller holds the lock of the buffer, so no other request is about it. */
  ghost predicate NotInFlight(k: Book, b: nat) {
    forall h :: h in k.chains ==> k.chains[h].b != b
  }

  lemma {:induction false} FreshOwner(s: Sys, chains: map<nat, Req>, h: nat, d1: nat, d2: nat)
    requires Shape(s) && FreeRest(s, chains) && Chosen(s, h, d1, d2)
    ensures forall x, i: nat :: x in chains && Owns(x, chains[x], i) ==> i != h && i != d1 && i != d2
  {
    forall x, i: nat | x in chains && Owns(x, chains[x], i) ensures i != h && i != d1 && i != d2 {
      assert InChain(chains, i);
    }
  }

  /** What Submit changes, word by word. */
  lemma {:induction false} SubmitWords(s: Sys, b: nat, write: bool, sector: nat, h: nat, d1: nat, d2: nat)
    requires Shape(s) && Chosen(s, h, d1, d2)
    ensures var s' := Submit(s, b, write, sector, h, d1, d2);
      && Shape(s') && Formatted(s', h, Req(b, write, sector, d1, d2, Queued)) && s'.info[h].status == 0xff
      && !s'.free[h] && !s'.free[d1] && !s'.free[d2]
      && forall i: nat :: i < NUM && i != h && i != d1 && i != d2 ==> SameWords(s, s', i)
  {
  }

  /** Descriptor `i` and what goes with it are the same in both. */
  ghost predicate SameWords(s: Sys, s': Sys, i: nat)
    requires Shape(s) && Shape(s') && i < NUM
  {
    s'.free[i] == s.free[i] && s'.desc[i] == s.desc[i] && s'.ops[i] == s.ops[i] && s'.info[i] == s.info[i]
  }

  lemma {:induction false} SubmitFormatted(s: Sys, s': Sys, chains: map<nat, Req>, h: nat, r: Req)
    requires Shape(s) && Shape(s') && ChainsOk(s, chains) && Formatted(s', h, r)
    requires forall i: nat :: i < NUM && !Owns(h, r, i) ==> SameWords(s, s', i)
    requires forall x, i: nat :: x in chains && Owns(x, chains[x], i) ==> !Owns(h, r, i)
    ensures ChainsOk(s', chains[h := r])
  {
    var added := chains[h := r];
    forall x | x in added ensures Formatted(s', x, added[x]) {
      if x != h {
        var c := chains[x];
        assert Formatted(s, x, c) && Owns(x, c, x) && Owns(x, c, c.d1) && Owns(x, c, c.d2);
        assert SameWords(s, s', x) && SameWords(s, s', c.d1) && SameWords(s, s', c.d2);
        hide Owns;
      }
    }
  }

  lemma {:induction false} AddChain(chains: map<nat, Req>, h: nat, r: Req)
    requires Disjoint(chains) && forall x, i: nat :: x in chains && Owns(x, chains[x], i) ==> !Owns(h, r, i)
    ensures h !in chains && Disjoint(chains[h := r])
    ensures forall i: nat :: InChain(chains[h := r], i) <==> InChain(chains, i) || Owns(h, r, i)
  {
    assert Owns(h, r, h) && (h in chains ==> Owns(h, chains[h], h));
    var c := chains[h := r];
    assert forall x :: x in c <==> x in chains || x == h;
    assert forall x :: x in chains ==> c[x] == chains[x];
    hide Owns;
    forall i: nat ensures InChain(c, i) <==> InChain(chains, i) || Owns(h, r, i) {
      if x :| x in chains && Owns(x, chains[x], i) {
        assert x in c && Owns(x, c[x], i);
      }
      if Owns(h, r, i) {
        assert h in c && Owns(h, c[h], i);
      }
    }
  }

  lemma {:induction false} SubmitFree(s: Sys, s': Sys, chains: map<nat, Req>, h: nat, r: Req)
    requires Shape(s) && Shape(s') && FreeRest(s, chains)
    requires forall i: nat :: i < NUM ==> if Owns(h, r, i) then !s'.free[i] else SameWords(s, s', i)
    requires forall i: nat :: InChain(chains[h := r], i) <==> InChain(chains, i) || Owns(h, r, i)
    ensures FreeRest(s', chains[h := r])
  {
    hide Owns, InChain;
  }

  lemma {:induction false} SubmitChains(s: Sys, k: Book, b: nat, write: bool, sector: nat, h: nat, d1: nat, d2: nat)
    requires Shape(s) && ChainsOk(s, k.chains) && Disjoint(k.chains) && FreeRest(s, k.chains) && Chosen(s, h, d1, d2)
    ensures var s', k' := Submit(s, b, write, sector, h, d1, d2), SubmitBook(k, b, write, sector, h, d1, d2);
      Shape(s') && h !in k.chains && ChainsOk(s', k'.chains) && Disjoint(k'.chains) && FreeRest(s', k'.chains)
  {
    var s' := Submit(s, b, write, sector, h, d1, d2);
    var r := Req(b, write, sector, d1, d2, Queued);
    SubmitWords(s, b, write, sector, h, d1, d2);
    FreshOwner(s, k.chains, h, d1, d2);
    hide Submit, FreeRest, ChainsOk, Disjoint, Chosen, Formatted, SameWords;
    AddChain(k.chains, h, r);
    SubmitFormatted(s, s', k.chains, h, r);
    SubmitFree(s, s', k.chains, h, r);
  }

  lemma {:induction false} AppendDistinct(q: seq<nat>, h: nat)
    requires Distinct(q) && h !in q
    ensures Distinct(q + [h]) && forall x :: x in q + [h] <==> x in q || x == h
  {
  }

  lemma {:induction false} RestDistinct(q: seq<nat>)
    requires Distinct(q) && q != []
    ensures Distinct(q[1..]) && forall x :: x in q[1..] <==> x in q && x != q[0]
  {
    forall x | x in q && x != q[0] ensures x in q[1..] {
      var i :| 0 <= i < |q| && q[i] == x;
      assert q[1..][i - 1] == x;
    }
    forall x | x in q[1..] ensures x in q && x != q[0] {
      var i :| 0 <= i < |q[1..]| && q[1..][i] == x;
      assert q[i + 1] == x;
    }
  }

  /** The heads between the indices of a ring are heads of chains, so there is room for one more. */
  lemma {:induction false} RingRoom(s: Sys, k: Book, q: seq<nat>, h: nat)
    requires Shape(s) && ChainsOk(s, k.chains) && Distinct(q) && h !in q && h < NUM && forall x :: x in q ==>
        x in k.chains
    ensures |q| < NUM
  {
    AppendDistinct(q, h);
    forall x | x in q + [h] ensures x < NUM {
      if x != h {
        assert Formatted(s, x, k.chains[x]);
      }
    }
    AtMostNum(q + [h], NUM);
  }

  lemma {:induction false} SubmitStages(s: Sys, k: Book, s': Sys, h: nat, r: Req)
    requires Shape(s) && Shape(s') && StagesOk(s, k) && BuffersOk(s, k.chains) && h !in k.chains && h < NUM
    requires r.stage.Queued? && NotInFlight(k, r.b) && s'.busy == s.busy + {r.b} && s'.serving == s.serving
    requires forall x: nat :: x in k.chains && x < NUM ==> s'.info[x] == s.info[x]
    ensures var k' := k.(chains := k.chains[h := r], availQ := k.availQ + [h]);
      h !in k.availQ && StagesOk(s', k') && BuffersOk(s', k'.chains)
  {
    AppendDistinct(k.availQ, h);
    hide Distinct;
  }

  /** A request that is put on the ring overwrites no other. */
  lemma {:induction false} SubmitKeeps(s: Sys, k: Book, b: nat, write: bool, sector: nat, h: nat, d1: nat, d2: nat)
    requires Inv(s, k) && Chosen(s, h, d1, d2) && NotInFlight(k, b)
    ensures Inv(Submit(s, b, write, sector, h, d1, d2), SubmitBook(k, b, write, sector, h, d1, d2))
  {
    var s' := Submit(s, b, write, sector, h, d1, d2);
    var r := Req(b, write, sector, d1, d2, Queued);
    SubmitChains(s, k, b, write, sector, h, d1, d2);
    SubmitWords(s, b, write, sector, h, d1, d2);
    FreshOwner(s, k.chains, h, d1, d2);
    assert forall x: nat :: x in k.chains && x < NUM ==> Owns(x, k.chains[x], x) && s'.info[x] == s.info[x] by {
      forall x: nat | x in k.chains && x < NUM ensures Owns(x, k.chains[x], x) && s'.info[x] == s.info[x] {
        assert Owns(x, k.chains[x], x);
        assert SameWords(s, s', x);
      }
    }
    hide FreeRest, ChainsOk, Disjoint, Formatted, SameWords, Window, Owns;
    SubmitStages(s, k, s', h, r);
    RingRoom(s, k, k.availQ, h);
    Push(s.avail, s.takenIdx, s.availIdx, k.availQ, h);
    hide StagesOk, BuffersOk;
  }

  // ---------------------------------------------------------------- device

  /** The device takes the next head from the available ring. */
  function Take(s: Sys): Sys
    requires Shape(s)
  {
    s.(serving := s.serving + {s.avail[s.takenIdx % NUM]}, takenIdx := Next(s.takenIdx))
  }

  function TakeBook(k: Book): Book
    requires k.availQ != [] && k.availQ[0] in k.chains
  {
    var h := k.availQ[0];
    k.(chains := k.chains[h := k.chains[h].(stage := Serving)], availQ := k.availQ[1..])
  }

  /** The chain from `h` reads as a request: header, data, status. */
  predicate Readable(s: Sys, h: nat)
    requires Shape(s)
  {
    && h < NUM && s.desc[h].addr.Header? && s.desc[h].addr.i < NUM && s.desc[h].flags == F_NEXT && s.desc[h].next < NUM
    && var d := s.desc[s.desc[h].next];
    && d.addr.Data? && d.len == BSIZE && d.next < NUM
    && d.flags == F_NEXT + (if s.ops[s.desc[h].addr.i].write then 0 else F_WRITE)
    && var e := s.desc[d.next];
    e.addr.Status? && e.addr.i < NUM && e.flags == F_WRITE && e.len == 1
  }

  /** The device follows the chain, moves the data, writes the status and puts the head on the used ring. */
  function Complete(s: Sys, h: nat): Sys
    requires Shape(s) && Readable(s, h)
  {
    var op := s.ops[s.desc[h].addr.i];
    var d := s.desc[s.desc[h].next];
    var i := s.desc[d.next].addr.i;
    s.(blocks := if op.write then s.blocks[op.sector := Lookup(s.data, d.addr.b)] else s.blocks,
       data := if op.write then s.data else s.data[d.addr.b := Lookup(s.blocks, op.sector)],
       info := s.info[i := s.info[i].(status := 0)],
       serving := s.serving - {h},
       used := s.used[s.usedIdx % NUM := h],
       usedIdx := Next(s.usedIdx))
  }

  function CompleteBook(k: Book, h: nat): Book
    requires h in k.chains
  {
    k.(chains := k.chains[h := k.chains[h].(stage := Served)], usedQ := k.usedQ + [h])
  }

  /** A chain in use reads as the request that was made, whatever else goes on. */
  lemma {:induction false} ReadsRequest(s: Sys, k: Book, h: nat)
    requires Inv(s, k) && h in k.chains
    ensures var r := k.chains[h];
      && Readable(s, h) && s.ops[s.desc[h].addr.i] == Op(r.write, r.sector)
      && s.desc[s.desc[h].next].addr == Data(r.b) && s.desc[s.desc[s.desc[h].next].next].addr == Status(h)
  {
    assert Formatted(s, h, k.chains[h]);
  }

  lemma {:induction false} StageFormatted(s: Sys, s': Sys, chains: map<nat, Req>, h: nat, stage: Stage)
    requires Shape(s) && Shape(s') && ChainsOk(s, chains) && h in chains
    requires s'.desc == s.desc && s'.ops == s.ops && forall i: nat :: i < NUM ==> s'.info[i].b == s.info[i].b
    ensures ChainsOk(s', chains[h := chains[h].(stage := stage)])
  {
    var c := chains[h := chains[h].(stage := stage)];
    forall x | x in c ensures Formatted(s', x, c[x]) {
      assert Formatted(s, x, chains[x]);
    }
  }

  lemma {:induction false} StageOwners(chains: map<nat, Req>, h: nat, stage: Stage)
    requires Disjoint(chains) && h in chains
    ensures var c := chains[h := chains[h].(stage := stage)];
      Disjoint(c) && forall i: nat :: InChain(c, i) <==> InChain(chains, i)
  {
    var c := chains[h := chains[h].(stage := stage)];
    assert forall x :: x in c <==> x in chains;
    assert forall x, i: nat :: x in chains ==> (Owns(x, c[x], i) <==> Owns(x, chains[x], i));
    hide Owns;
    forall i: nat ensures InChain(c, i) <==> InChain(chains, i) {
      if x :| x in chains && Owns(x, chains[x], i) {
        assert x in c && Owns(x, c[x], i);
      }
    }
  }

  /** Only the stage of one chain changes. */
  lemma {:induction false} StageOnly(s: Sys, s': Sys, chains: map<nat, Req>, h: nat, stage: Stage)
    requires Shape(s) && Shape(s') && ChainsOk(s, chains) && Disjoint(chains) && FreeRest(s, chains) && h in chains
    requires s'.desc == s.desc && s'.free == s.free && s'.ops == s.ops
    requires forall i: nat :: i < NUM ==> s'.info[i].b == s.info[i].b
    ensures var c := chains[h := chains[h].(stage := stage)];
      ChainsOk(s', c) && Disjoint(c) && FreeRest(s', c)
  {
    hide InChain, Disjoint, ChainsOk, Formatted;
    StageFormatted(s, s', chains, h, stage);
    StageOwners(chains, h, stage);
  }

  lemma {:induction false} TakeStages(s: Sys, k: Book, s': Sys)
    requires Shape(s) && Shape(s') && StagesOk(s, k) && BuffersOk(s, k.chains) && k.availQ != []
    requires k.availQ[0] in k.chains && s'.serving == s.serving + {k.availQ[0]} && s'.busy == s.busy
    requires s'.info == s.info
    ensures StagesOk(s', TakeBook(k)) && BuffersOk(s', TakeBook(k).chains)
  {
    RestDistinct(k.availQ);
    hide Distinct;
  }

  lemma {:induction false} TakeKeeps(s: Sys, k: Book)
    requires Inv(s, k) && s.takenIdx != s.availIdx
    ensures k.availQ != [] && k.availQ[0] in k.chains && Inv(Take(s), TakeBook(k))
  {
    hide Window, ChainsOk, FreeRest, Disjoint, Formatted, BuffersOk, Distinct;
    Pop(s.avail, s.takenIdx, s.availIdx, k.availQ);
    assert k.availQ[0] in k.availQ;
    var h := k.availQ[0];
    StageOnly(s, Take(s), k.chains, h, Serving);
    TakeStages(s, k, Take(s));
    hide StagesOk, BuffersOk;
  }

  lemma {:induction false} CompleteStages(s: Sys, k: Book, s': Sys, h: nat)
    requires Shape(s) && Shape(s') && StagesOk(s, k) && BuffersOk(s, k.chains) && h in s.serving && h < NUM
    requires s'.serving == s.serving - {h} && s'.busy == s.busy && s'.info[h].status == 0
    requires forall i: nat :: i < NUM && i != h ==> s'.info[i] == s.info[i]
    ensures h in k.chains && h !in k.usedQ && StagesOk(s', CompleteBook(k, h))
    ensures BuffersOk(s', CompleteBook(k, h).chains)
  {
    AppendDistinct(k.usedQ, h);
    hide Distinct;
  }

  lemma {:induction false} CompleteWords(s: Sys, h: nat)
    requires Shape(s) && Readable(s, h) && s.desc[s.desc[s.desc[h].next].next].addr == Status(h)
    ensures var s' := Complete(s, h);
      && Shape(s') && s'.desc == s.desc && s'.free == s.free && s'.ops == s.ops && s'.busy == s.busy
      && s'.serving == s.serving - {h} && s'.avail == s.avail && s'.availIdx == s.availIdx && s'.takenIdx == s.takenIdx
      && s'.used == s.used[s.usedIdx % NUM := h] && s'.usedIdx == Next(s.usedIdx) && s'.seenIdx == s.seenIdx
      && s'.info[h] == s.info[h].(status := 0) && forall i: nat :: i < NUM && i != h ==> s'.info[i] == s.info[i]
  {
  }

  lemma {:induction false} CompleteKeeps(s: Sys, k: Book, h: nat)
    requires Inv(s, k) && h in s.serving
    ensures h in k.chains && Readable(s, h) && Inv(Complete(s, h), CompleteBook(k, h))
  {
    hide Window, ChainsOk, FreeRest, Disjoint, Formatted, Readable, BuffersOk;
    ReadsRequest(s, k, h);
    CompleteWords(s, h);
    var s' := Complete(s, h);
    hide Complete;
    StageOnly(s, s', k.chains, h, Served);
    CompleteStages(s, k, s', h);
    RingRoom(s, k, k.usedQ, h);
    Push(s.used, s.seenIdx, s.usedIdx, k.usedQ, h);
    hide StagesOk, BuffersOk;
  }

  // ---------------------------------------------------------------- driver: the end of a request

  /** One turn of the loop of virtio_disk_intr; none if it panics or follows a null pointer. */
  function Notice(s: Sys): Option<Sys>
    requires Shape(s)
  {
    var id := s.used[s.seenIdx % NUM];
    if id >= NUM || s.info[id].status != 0 || s.info[id].b.None? then None
    else Some(s.(busy := s.busy - {s.info[id].b.value}, seenIdx := Next(s.seenIdx)))
  }

  function NoticeBook(k: Book): Book
    requires k.usedQ != [] && k.usedQ[0] in k.chains
  {
    var h := k.usedQ[0];
    k.(chains := k.chains[h := k.chains[h].(stage := Noticed)], usedQ := k.usedQ[1..])
  }

  lemma {:induction false} NoticeStages(s: Sys, k: Book, s': Sys)
    requires Shape(s) && Shape(s') && StagesOk(s, k) && BuffersOk(s, k.chains) && k.usedQ != []
    requires k.usedQ[0] in k.chains
    requires forall x :: x in k.chains ==> x < NUM
    requires s'.serving == s.serving && s'.busy == s.busy - {k.chains[k.usedQ[0]].b} && s'.info == s.info
    ensures StagesOk(s', NoticeBook(k)) && BuffersOk(s', NoticeBook(k).chains)
  {
    hide Distinct;
    RestDistinct(k.usedQ);
    assert k.usedQ[0] in k.usedQ;
  }

  /** A completion finds the buffer of its own request; the interrupt handler does not panic. */
  lemma {:induction false} NoticeKeeps(s: Sys, k: Book)
    requires Inv(s, k) && s.seenIdx != s.usedIdx
    ensures k.usedQ != [] && k.usedQ[0] in k.chains && s.used[s.seenIdx % NUM] == k.usedQ[0]
    ensures Notice(s).Some? && Inv(Notice(s).value, NoticeBook(k))
    ensures Notice(s).value.busy == s.busy - {k.chains[k.usedQ[0]].b}
  {
    hide Window, FreeRest, Disjoint, Distinct, ChainsOk, Formatted, BuffersOk;
    Pop(s.used, s.seenIdx, s.usedIdx, k.usedQ);
    var h := k.usedQ[0];
    assert h in k.usedQ;
    ServedInfo(s, k, h);
    HeadsBelow(s, k.chains);
    var s' := Notice(s).value;
    assert s' == s.(busy := s.busy - {k.chains[h].b}, seenIdx := Next(s.seenIdx));
    hide Notice;
    StageOnly(s, s', k.chains, h, Noticed);
    NoticeStages(s, k, s');
    hide StagesOk;
  }

  lemma {:induction false} HeadsBelow(s: Sys, chains: map<nat, Req>)
    requires Shape(s) && ChainsOk(s, chains)
    ensures forall x :: x in chains ==> x < NUM
  {
    forall x | x in chains ensures x < NUM {
      assert Formatted(s, x, chains[x]);
    }
  }

  lemma {:induction false} ServedInfo(s: Sys, k: Book, h: nat)
    requires Shape(s) && ChainsOk(s, k.chains) && BuffersOk(s, k.chains) && h in k.chains && k.chains[h].stage.Served?
    ensures h < NUM && s.info[h] == Info(Some(k.chains[h].b), 0)
  {
    assert Formatted(s, h, k.chains[h]);
  }

  ghost function Taken(free: seq<bool>): set<nat> {
    set i: nat | i < |free| && !free[i]
  }

  lemma {:induction false} TakenLess(free: seq<bool>, i: nat)
    requires i < |free| && !free[i]
    ensures Taken(free[i := true]) < Taken(free)
  {
    assert i in Taken(free) && i !in Taken(free[i := true]);
  }

  /** free_chain: free descriptors along the links; none if one of them is free already. */
  function FreeChain(desc: seq<Desc>, free: seq<bool>, i: nat): Option<(seq<Desc>, seq<bool>)>
    requires |desc| == NUM && |free| == NUM
    decreases Taken(free)
  {
    if i >= NUM || free[i] then None
    else
      var d, f := desc[i := NONE], free[i := true];
      if desc[i].flags % 2 == F_NEXT then TakenLess(free, i); FreeChain(d, f, desc[i].next) else Some((d, f))
  }

  /** free_chain frees the three descriptors of its chain and no others. */
  lemma {:induction false} FreesItsChain(s: Sys, h: nat, r: Req)
    requires Shape(s) && Formatted(s, h, r) && !s.free[h] && !s.free[r.d1] && !s.free[r.d2]
    ensures FreeChain(s.desc, s.free, h) ==
      Some((s.desc[h := NONE][r.d1 := NONE][r.d2 := NONE], s.free[h := true][r.d1 := true][r.d2 := true]))
  {
    var d1, f1 := s.desc[h := NONE], s.free[h := true];
    var d2, f2 := d1[r.d1 := NONE], f1[r.d1 := true];
    var d3, f3 := d2[r.d2 := NONE], f2[r.d2 := true];
    assert FreeChain(d2, f2, r.d2) == Some((d3, f3));
    assert FreeChain(d1, f1, r.d1) == FreeChain(d2, f2, r.d2);
  }

  /** virtio_disk_rw after the wait. */
  function Finish(s: Sys, h: nat): Option<Sys>
    requires Shape(s) && h < NUM
  {
    match FreeChain(s.desc, s.free, h)
    case None => None
    case Some((d, f)) =>
      if |d| == NUM && |f| == NUM then Some(s.(desc := d, free := f,
          info := s.info[h := s.info[h].(b := None)])) else None
  }

  function FinishBook(k: Book, h: nat): Book {
    k.(chains := k.chains - {h})
  }

  lemma {:induction false} DropChain(chains: map<nat, Req>, h: nat)
    requires Disjoint(chains) && h in chains
    ensures Disjoint(chains - {h})
    ensures forall i: nat :: InChain(chains - {h}, i) <==> InChain(chains, i) && !Owns(h, chains[h], i)
    ensures forall x, i: nat :: x in chains && x != h && Owns(x, chains[x], i) ==> !Owns(h, chains[h], i)
  {
    var c := chains - {h};
    hide Owns;
    forall i: nat ensures InChain(c, i) <==> InChain(chains, i) && !Owns(h, chains[h], i) {
      if x :| x in chains && Owns(x, chains[x], i) && !Owns(h, chains[h], i) {
        assert x in c && Owns(x, c[x], i);
      }
    }
  }

  lemma {:induction false} FinishFormatted(s: Sys, s': Sys, chains: map<nat, Req>, h: nat)
    requires Shape(s) && Shape(s') && ChainsOk(s, chains) && h in chains
    requires forall i: nat :: i < NUM && !Owns(h, chains[h], i) ==> SameWords(s, s', i)
    requires forall x, i: nat :: x in chains && x != h && Owns(x, chains[x], i) ==> !Owns(h, chains[h], i)
    ensures ChainsOk(s', chains - {h})
  {
    var left := chains - {h};
    forall x | x in left ensures Formatted(s', x, left[x]) {
      var c := chains[x];
      assert Formatted(s, x, c) && Owns(x, c, x) && Owns(x, c, c.d1) && Owns(x, c, c.d2);
      assert SameWords(s, s', x) && SameWords(s, s', c.d1) && SameWords(s, s', c.d2);
      hide Owns;
    }
  }

  lemma {:induction false} FinishFree(s: Sys, s': Sys, chains: map<nat, Req>, h: nat)
    requires Shape(s) && Shape(s') && FreeRest(s, chains) && h in chains
    requires forall i: nat :: i < NUM ==>
        if Owns(h, chains[h], i) then s'.free[i] && s'.desc[i] == NONE else SameWords(s, s', i)
    requires forall i: nat :: InChain(chains - {h}, i) <==> InChain(chains, i) && !Owns(h, chains[h], i)
    ensures FreeRest(s', chains - {h})
  {
    hide Owns, InChain;
  }

  lemma {:induction false} FinishWords(s: Sys, h: nat, r: Req)
    requires Shape(s) && Formatted(s, h, r) && !s.free[h] && !s.free[r.d1] && !s.free[r.d2]
    ensures Finish(s, h).Some?
    ensures var s' := Finish(s, h).value;
      && Shape(s') && s' == s.(desc := s'.desc, free := s'.free, info := s'.info)
      && forall i: nat :: i < NUM ==> if Owns(h, r, i) then s'.free[i] && s'.desc[i] == NONE else SameWords(s, s', i)
  {
    FreesItsChain(s, h, r);
    hide FreeChain;
  }

  lemma {:induction false} ChainTaken(s: Sys, chains: map<nat, Req>, h: nat)
    requires Shape(s) && ChainsOk(s, chains) && FreeRest(s, chains) && h in chains
    ensures var r := chains[h];
      Formatted(s, h, r) && !s.free[h] && !s.free[r.d1] && !s.free[r.d2]
  {
    var r := chains[h];
    assert Formatted(s, h, r) && Owns(h, r, h) && Owns(h, r, r.d1) && Owns(h, r, r.d2);
    assert InChain(chains, h) && InChain(chains, r.d1) && InChain(chains, r.d2);
  }

  lemma {:induction false} FinishStages(s: Sys, k: Book, s': Sys, h: nat)
    requires Shape(s) && Shape(s') && StagesOk(s, k) && BuffersOk(s, k.chains) && h in k.chains
    requires k.chains[h].stage.Noticed?
    requires s'.serving == s.serving && s'.busy == s.busy
    requires forall i: nat :: i < NUM && i in k.chains && i != h ==> s'.info[i] == s.info[i]
    ensures StagesOk(s', FinishBook(k, h)) && BuffersOk(s', FinishBook(k, h).chains)
  {
    hide Distinct;
  }

  lemma {:induction false} OthersKept(s: Sys, s': Sys, chains: map<nat, Req>, h: nat)
    requires Shape(s) && Shape(s') && h in chains
    requires forall i: nat :: i < NUM && !Owns(h, chains[h], i) ==> SameWords(s, s', i)
    requires forall x, i: nat :: x in chains && x != h && Owns(x, chains[x], i) ==> !Owns(h, chains[h], i)
    ensures forall i: nat :: i < NUM && i in chains && i != h ==> s'.info[i] == s.info[i]
  {
    forall i: nat | i < NUM && i in chains && i != h ensures s'.info[i] == s.info[i] {
      assert Owns(i, chains[i], i);
      assert SameWords(s, s', i);
    }
  }

  /** A noticed request gives its three descriptors back, and free_chain does not panic. */
  lemma {:induction false} FinishKeeps(s: Sys, k: Book, h: nat)
    requires Inv(s, k) && h in k.chains && k.chains[h].stage.Noticed?
    ensures h < NUM && Finish(s, h).Some? && Inv(Finish(s, h).value, FinishBook(k, h))
  {
    hide Finish, Window, FreeRest, ChainsOk, Disjoint, SameWords, Owns, Distinct, StagesOk, BuffersOk;
    ChainTaken(s, k.chains, h);
    FinishWords(s, h, k.chains[h]);
    hide Formatted;
    var s' := Finish(s, h).value;
    DropChain(k.chains, h);
    FinishFormatted(s, s', k.chains, h);
    FinishFree(s, s', k.chains, h);
    OthersKept(s, s', k.chains, h);
    FinishStages(s, k, s', h);
  }

  // ---------------------------------------------------------------- runs

  datatype Event =
    | DoSubmit(b: nat, write: bool, sector: nat, h: nat, d1: nat, d2: nat)
    | DoTake
    | DoComplete(h: nat)
    | DoNotice
    | DoFinish(h: nat)
    | DoStore(b: nat, v: int)

  /**
   * What driver and device wait for. The waiting process knows the head and the buffer of its own request; whoever
   * holds a buffer stores into it only while no request is about it.
   */
  ghost predicate Enabled(s: Sys, k: Book, e: Event)
    requires Shape(s)
  {
    match e
    case DoSubmit(b, _, _, h, d1, d2) => Chosen(s, h, d1, d2) && NotInFlight(k, b)
    case DoTake => s.takenIdx != s.availIdx
    case DoComplete(h) => h in s.serving
    case DoNotice => s.seenIdx != s.usedIdx
    case DoFinish(h) => h in k.chains && k.chains[h].b !in s.busy
    case DoStore(b, _) => NotInFlight(k, b)
  }

  /** A request whose buffer is no longer busy has been noticed. */
  lemma {:induction false} NotBusyNoticed(s: Sys, k: Book, h: nat)
    requires Inv(s, k) && h in k.chains && k.chains[h].b !in s.busy
    ensures k.chains[h].stage.Noticed?
  {
    HeadsBelow(s, k.chains);
  }

  ghost function Apply(s: Sys, k: Book, e: Event): (Sys, Book)
    requires Inv(s, k) && Enabled(s, k, e)
  {
    match e
    case DoSubmit(b, write, sector, h, d1, d2) =>
      (Submit(s, b, write, sector, h, d1, d2), SubmitBook(k, b, write, sector, h, d1, d2))
    case DoTake => TakeKeeps(s, k); (Take(s), TakeBook(k))
    case DoComplete(h) => CompleteKeeps(s, k, h); (Complete(s, h), CompleteBook(k, h))
    case DoNotice => NoticeKeeps(s, k); (Notice(s).value, NoticeBook(k))
    case DoFinish(h) => NotBusyNoticed(s, k, h); FinishKeeps(s, k, h); (Finish(s, h).value, FinishBook(k, h))
    case DoStore(b, v) => (s.(data := s.data[b := v]), k)
  }

  lemma {:induction false} ApplyKeeps(s: Sys, k: Book, e: Event)
    requires Inv(s, k) && Enabled(s, k, e)
    ensures Inv(Apply(s, k, e).0, Apply(s, k, e).1)
  {
    hide Inv, Submit, Take, Complete, Notice, Finish;
    match e
    case DoSubmit(b, write, sector, h, d1, d2) => SubmitKeeps(s, k, b, write, sector, h, d1, d2);
    case DoTake => TakeKeeps(s, k);
    case DoComplete(h) => CompleteKeeps(s, k, h);
    case DoNotice => NoticeKeeps(s, k);
    case DoFinish(h) => NotBusyNoticed(s, k, h); FinishKeeps(s, k, h);
    case DoStore(b, v) => StoreKeeps(s, k, b, v);
  }

  lemma {:induction false} StoreKeeps(s: Sys, k: Book, b: nat, v: int)
    requires Inv(s, k)
    ensures Inv(s.(data := s.data[b := v]), k)
  {
    hide ChainsOk, FreeRest, BuffersOk, StagesOk, Window, Disjoint;
    var s' := s.(data := s.data[b := v]);
    StoreChains(s, s', k.chains);
    StoreFree(s, s', k.chains);
    StoreStages(s, s', k);
  }

  lemma {:induction false} StoreChains(s: Sys, s': Sys, chains: map<nat, Req>)
    requires Shape(s) && Shape(s') && ChainsOk(s, chains) && s' == s.(data := s'.data)
    ensures ChainsOk(s', chains)
  {
    forall h | h in chains ensures Formatted(s', h, chains[h]) {
      assert Formatted(s, h, chains[h]);
    }
  }

  lemma {:induction false} StoreFree(s: Sys, s': Sys, chains: map<nat, Req>)
    requires Shape(s) && Shape(s') && FreeRest(s, chains) && s' == s.(data := s'.data)
    ensures FreeRest(s', chains)
  {
    hide InChain;
  }

  lemma {:induction false} StoreStages(s: Sys, s': Sys, k: Book)
    requires Shape(s) && Shape(s') && StagesOk(s, k) && BuffersOk(s, k.chains) && s' == s.(data := s'.data)
    ensures StagesOk(s', k) && BuffersOk(s', k.chains)
  {
    hide Distinct;
  }

  // ---------------------------------------------------------------- the plain disk

  /** A request waits, is done with the value it moved, or its process has been told. */
  datatype Progress = Waiting | Done(v: int) | Told(v: int)

  datatype Ask = Ask(b: nat, write: bool, sector: nat, progress: Progress)

  /** A disk without rings: requests by tag, buffers, blocks, and the request that wrote each block last. */
  datatype Plain = Plain(asks: map<nat, Ask>, data: map<nat, int>, blocks: map<nat, int>, writer: map<nat, nat>)

  /** The request moves its block, once. */
  function Move(p: Plain, h: nat): Plain
    requires h in p.asks
  {
    var a := p.asks[h];
    var v := if a.write then Lookup(p.data, a.b) else Lookup(p.blocks, a.sector);
    Plain(p.asks[h := a.(progress := Done(v))],
          if a.write then p.data else p.data[a.b := v],
          if a.write then p.blocks[a.sector := v] else p.blocks,
          if a.write then p.writer[a.sector := h] else p.writer)
  }

  datatype PlainEvent =
    | Request(h: nat, b: nat, write: bool, sector: nat)
    | Nothing
    | Serve(h: nat)
    | Tell(h: nat)
    | Return(h: nat)
    | Fill(b: nat, v: int)

  /** A request is served once, while it waits; it returns only after that. */
  ghost predicate PlainOk(p: Plain, e: PlainEvent) {
    match e
    case Request(h, b, _, _) => h !in p.asks && forall x :: x in p.asks ==> p.asks[x].b != b
    case Nothing => true
    case Serve(h) => h in p.asks && p.asks[h].progress.Waiting?
    case Tell(h) => h in p.asks && p.asks[h].progress.Done?
    case Return(h) => h in p.asks && p.asks[h].progress.Told?
    case Fill(b, _) => forall x :: x in p.asks ==> p.asks[x].b != b
  }

  ghost function PlainDo(p: Plain, e: PlainEvent): Plain
    requires PlainOk(p, e)
  {
    match e
    case Request(h, b, write, sector) => p.(asks := p.asks[h := Ask(b, write, sector, Waiting)])
    case Nothing => p
    case Serve(h) => Move(p, h)
    case Tell(h) => p.(asks := p.asks[h := p.asks[h].(progress := Told(p.asks[h].progress.v))])
    case Return(h) => p.(asks := p.asks - {h})
    case Fill(b, v) => p.(data := p.data[b := v])
  }

  /** What an event of driver and device is on the plain disk. */
  function Seen(k: Book, e: Event): PlainEvent {
    match e
    case DoSubmit(b, write, sector, h, _, _) => Request(h, b, write, sector)
    case DoTake => Nothing
    case DoComplete(h) => Serve(h)
    case DoNotice => if k.usedQ == [] then Nothing else Tell(k.usedQ[0])
    case DoFinish(h) => Return(h)
    case DoStore(b, v) => Fill(b, v)
  }

  predicate SameProgress(stage: Stage, progress: Progress) {
    match stage
    case Queued => progress.Waiting?
    case Serving => progress.Waiting?
    case Served => progress.Done?
    case Noticed => progress.Told?
  }

  ghost predicate Matches(r: Req, a: Ask) {
    a.b == r.b && a.write == r.write && a.sector == r.sector && SameProgress(r.stage, a.progress)
  }

  ghost predicate Refines(s: Sys, k: Book, p: Plain) {
    s.data == p.data && s.blocks == p.blocks && Agree(k.chains, p.asks)
  }

  lemma {:induction false} CompleteMoves(s: Sys, k: Book, p: Plain, h: nat)
    requires Inv(s, k) && Refines(s, k, p) && h in s.serving
    ensures h in k.chains && Readable(s, h) && p.asks[h].progress.Waiting?
    ensures Complete(s, h).data == Move(p, h).data && Complete(s, h).blocks == Move(p, h).blocks
  {
    ReadsRequest(s, k, h);
    hide ChainsOk, Disjoint, FreeRest, BuffersOk, Window, Readable, Distinct;
    assert Matches(k.chains[h], p.asks[h]);
  }

  /** The chains and the requests of the plain disk agree. */
  ghost predicate Agree(chains: map<nat, Req>, asks: map<nat, Ask>) {
    chains.Keys == asks.Keys && forall h :: h in chains ==> Matches(chains[h], asks[h])
  }

  lemma {:induction false} AgreeUpdate(chains: map<nat, Req>, asks: map<nat, Ask>, h: nat, r: Req, a: Ask)
    requires Agree(chains, asks) && Matches(r, a)
    ensures Agree(chains[h := r], asks[h := a])
  {
  }

  lemma {:induction false} AgreeStage(chains: map<nat, Req>, asks: map<nat, Ask>, h: nat, stage: Stage)
    requires Agree(chains, asks) && h in chains && SameProgress(stage, asks[h].progress)
    ensures Agree(chains[h := chains[h].(stage := stage)], asks)
  {
  }

  lemma {:induction false} AgreeDrop(chains: map<nat, Req>, asks: map<nat, Ask>, h: nat)
    requires Agree(chains, asks) && h in chains
    ensures Agree(chains - {h}, asks - {h})
  {
  }

  lemma {:induction false} StageOf(s: Sys, k: Book, p: Plain, h: nat)
    requires Refines(s, k, p) && h in k.chains
    ensures h in p.asks && Matches(k.chains[h], p.asks[h])
  {
  }

  lemma {:induction false} SubmitRefines(s: Sys, k: Book, p: Plain, b: nat, write: bool, sector: nat, h: nat, d1: nat,
      d2: nat)
    requires Inv(s, k) && Chosen(s, h, d1, d2) && NotInFlight(k, b) && Refines(s, k, p)
    ensures PlainOk(p, Request(h, b, write, sector))
    ensures Refines(Submit(s, b, write, sector, h, d1, d2), SubmitBook(k, b, write, sector, h, d1, d2),
                    PlainDo(p, Request(h, b, write, sector)))
  {
    assert h !in k.chains by {
      hide Submit, SubmitBook, Chosen, Formatted;
      SubmitChains(s, k, b, write, sector, h, d1, d2);
    }
    hide Inv, Chosen;
    AgreeUpdate(k.chains, p.asks, h, Req(b, write, sector, d1, d2, Queued), Ask(b, write, sector, Waiting));
  }

  lemma {:induction false} TakeRefines(s: Sys, k: Book, p: Plain)
    requires Inv(s, k) && s.takenIdx != s.availIdx && Refines(s, k, p)
    ensures k.availQ != [] && k.availQ[0] in k.chains && Refines(Take(s), TakeBook(k), p)
  {
    TakeKeeps(s, k);
    QueuedHead(s, k);
    hide Inv;
    AgreeStage(k.chains, p.asks, k.availQ[0], Serving);
  }

  lemma {:induction false} CompleteRefines(s: Sys, k: Book, p: Plain, h: nat)
    requires Inv(s, k) && h in s.serving && Refines(s, k, p)
    ensures h in k.chains && Readable(s, h) && PlainOk(p, Serve(h))
    ensures Refines(Complete(s, h), CompleteBook(k, h), PlainDo(p, Serve(h)))
  {
    hide Inv, Complete, Readable;
    CompleteMoves(s, k, p, h);
    AgreeUpdate(k.chains, p.asks, h, k.chains[h].(stage := Served), Move(p, h).asks[h]);
  }

  lemma {:induction false} NoticeRefines(s: Sys, k: Book, p: Plain)
    requires Inv(s, k) && s.seenIdx != s.usedIdx && Refines(s, k, p)
    ensures k.usedQ != [] && k.usedQ[0] in k.chains && Notice(s).Some? && PlainOk(p, Tell(k.usedQ[0]))
    ensures Refines(Notice(s).value, NoticeBook(k), PlainDo(p, Tell(k.usedQ[0])))
  {
    hide Inv, Notice;
    InvShape(s, k);
    NoticeKeeps(s, k);
    ServedHead(s, k);
    NoticeData(s);
    var h := k.usedQ[0];
    AgreeUpdate(k.chains, p.asks, h, k.chains[h].(stage := Noticed),
        p.asks[h].(progress := Told(p.asks[h].progress.v)));
  }

  lemma {:induction false} FinishRefines(s: Sys, k: Book, p: Plain, h: nat)
    requires Inv(s, k) && h in k.chains && k.chains[h].b !in s.busy && Refines(s, k, p)
    ensures h < NUM && Finish(s, h).Some? && PlainOk(p, Return(h))
    ensures Refines(Finish(s, h).value, FinishBook(k, h), PlainDo(p, Return(h)))
  {
    hide Inv, Finish;
    InvShape(s, k);
    NotBusyNoticed(s, k, h);
    FinishKeeps(s, k, h);
    FinishData(s, h);
    AgreeDrop(k.chains, p.asks, h);
  }

  /** Every step of driver and device is a step of the plain disk. */
  lemma {:induction false} StepRefines(s: Sys, k: Book, p: Plain, e: Event)
    requires Inv(s, k) && Enabled(s, k, e) && Refines(s, k, p)
    ensures var (s', k') := Apply(s, k, e);
      PlainOk(p, Seen(k, e)) && Refines(s', k', PlainDo(p, Seen(k, e)))
  {
    hide Inv, Refines, PlainOk, PlainDo, Submit, SubmitBook, Take, TakeBook, Complete, CompleteBook, Notice, NoticeBook;
    hide Finish, FinishBook, Chosen, NotInFlight;
    match e
    case DoSubmit(b, write, sector, h, d1, d2) => SubmitRefines(s, k, p, b, write, sector, h, d1, d2);
    case DoTake => TakeRefines(s, k, p); assert PlainOk(p, Nothing) && PlainDo(p, Nothing) == p by { NothingDone(p); }
    case DoComplete(h) => CompleteRefines(s, k, p, h);
    case DoNotice => NoticeRefines(s, k, p);
    case DoFinish(h) => FinishRefines(s, k, p, h);
    case DoStore(b, v) => StoreRefines(s, k, p, b, v);
  }

  lemma {:induction false} StoreRefines(s: Sys, k: Book, p: Plain, b: nat, v: int)
    requires NotInFlight(k, b) && Refines(s, k, p)
    ensures PlainOk(p, Fill(b, v)) && Refines(s.(data := s.data[b := v]), k, PlainDo(p, Fill(b, v)))
  {
    assert forall x :: x in p.asks ==> Matches(k.chains[x], p.asks[x]);
  }

  lemma {:induction false} NothingDone(p: Plain)
    ensures PlainOk(p, Nothing) && PlainDo(p, Nothing) == p
  {
  }

  lemma {:induction false} QueuedHead(s: Sys, k: Book)
    requires Inv(s, k) && k.availQ != []
    ensures k.availQ[0] in k.chains && k.chains[k.availQ[0]].stage.Queued?
  {
    assert k.availQ[0] in k.availQ;
  }

  lemma {:induction false} ServedHead(s: Sys, k: Book)
    requires Inv(s, k) && k.usedQ != []
    ensures k.usedQ[0] in k.chains && k.chains[k.usedQ[0]].stage.Served?
  {
    assert k.usedQ[0] in k.usedQ;
  }

  lemma {:induction false} InvShape(s: Sys, k: Book)
    requires Inv(s, k)
    ensures Shape(s)
  {
  }

  lemma {:induction false} NoticeData(s: Sys)
    requires Shape(s) && Notice(s).Some?
    ensures Notice(s).value.data == s.data && Notice(s).value.blocks == s.blocks
  {
  }

  lemma {:induction false} FinishData(s: Sys, h: nat)
    requires Shape(s) && h < NUM && Finish(s, h).Some?
    ensures Finish(s, h).value.data == s.data && Finish(s, h).value.blocks == s.blocks
  {
    hide FreeChain;
  }

  ghost predicate Run(s: Sys, k: Book, es: seq<Event>)
    requires Inv(s, k)
    decreases |es|
  {
    es == [] || (Enabled(s, k, es[0]) &&
                 (ApplyKeeps(s, k, es[0]); Run(Apply(s, k, es[0]).0, Apply(s, k, es[0]).1, es[1..])))
  }

  ghost function Final(s: Sys, k: Book, es: seq<Event>): (Sys, Book)
    requires Inv(s, k) && Run(s, k, es)
    decreases |es|
  {
    if es == [] then (s, k)
    else ApplyKeeps(s, k, es[0]); Final(Apply(s, k, es[0]).0, Apply(s, k, es[0]).1, es[1..])
  }

  ghost function PlainTrace(s: Sys, k: Book, es: seq<Event>): seq<PlainEvent>
    requires Inv(s, k) && Run(s, k, es)
    decreases |es|
  {
    if es == [] then []
    else ApplyKeeps(s, k, es[0]); [Seen(k, es[0])] + PlainTrace(Apply(s, k, es[0]).0, Apply(s, k, es[0]).1, es[1..])
  }

  ghost predicate PlainRun(p: Plain, es: seq<PlainEvent>)
    decreases |es|
  {
    es == [] || (PlainOk(p, es[0]) && PlainRun(PlainDo(p, es[0]), es[1..]))
  }

  ghost function PlainFinal(p: Plain, es: seq<PlainEvent>): Plain
    requires PlainRun(p, es)
    decreases |es|
  {
    if es == [] then p else PlainFinal(PlainDo(p, es[0]), es[1..])
  }

  /** Every run of driver and device keeps the invariant, and is a run of the plain disk. */
  lemma {:induction false} RunRefines(s: Sys, k: Book, p: Plain, es: seq<Event>)
    requires Inv(s, k) && Run(s, k, es) && Refines(s, k, p)
    ensures Inv(Final(s, k, es).0, Final(s, k, es).1) && PlainRun(p, PlainTrace(s, k, es))
    ensures Refines(Final(s, k, es).0, Final(s, k, es).1, PlainFinal(p, PlainTrace(s, k, es)))
    decreases |es|
  {
    hide Inv, Refines, PlainOk, PlainDo, Apply, Enabled, Seen;
    if es != [] {
      var e := es[0];
      ApplyKeeps(s, k, e);
      StepRefines(s, k, p, e);
      var (s', k') := Apply(s, k, e);
      RunRefines(s', k', PlainDo(p, Seen(k, e)), es[1..]);
      var t := PlainTrace(s, k, es);
      assert t[0] == Seen(k, e) && t[1..] == PlainTrace(s', k', es[1..]);
    }
  }

  /**
   * Requests are about different buffers. The buffer of a served request holds what was moved, and so does the
   * block of a served write that no other request has written since.
   */
  ghost predicate PlainInv(p: Plain) {
    && (forall x, y :: x in p.asks && y in p.asks && p.asks[x].b == p.asks[y].b ==> x == y)
    && forall h :: h in p.asks && !p.asks[h].progress.Waiting? ==> Moved(p, h)
  }

  ghost predicate Moved(p: Plain, h: nat)
    requires h in p.asks && !p.asks[h].progress.Waiting?
  {
    var a := p.asks[h];
    && Lookup(p.data, a.b) == a.progress.v
    && (a.write ==> a.sector in p.writer && (p.writer[a.sector] == h ==> Lookup(p.blocks, a.sector) == a.progress.v))
  }

  lemma {:induction false} PlainKeeps(p: Plain, e: PlainEvent)
    requires PlainInv(p) && PlainOk(p, e)
    ensures PlainInv(PlainDo(p, e))
  {
    var q := PlainDo(p, e);
    forall h | h in q.asks && !q.asks[h].progress.Waiting? ensures Moved(q, h) {
      if h in p.asks && !p.asks[h].progress.Waiting? {
        assert Moved(p, h);
      }
    }
  }

  lemma {:induction false} PlainRunKeeps(p: Plain, es: seq<PlainEvent>)
    requires PlainInv(p) && PlainRun(p, es)
    ensures PlainInv(PlainFinal(p, es))
    decreases |es|
  {
    hide PlainInv, PlainOk, PlainDo;
    if es != [] {
      PlainKeeps(p, es[0]);
      PlainRunKeeps(PlainDo(p, es[0]), es[1..]);
    }
  }

  /** The state after virtio_disk_init, for any disk and any buffers. */
  ghost predicate Fresh(s: Sys) {
    && Shape(s) && s.availIdx == 0 && s.usedIdx == 0 && s.seenIdx == 0 && s.takenIdx == 0
    && s.busy == {} && s.serving == {} && forall i :: 0 <= i < NUM ==> s.free[i] && s.desc[i] == NONE
  }

  lemma {:induction false} FreshInv(s: Sys)
    requires Fresh(s)
    ensures Inv(s, Book(map[], [], [])) && Refines(s, Book(map[], [], []), Plain(map[], s.data, s.blocks, map[]))
  {
  }

  /** The run of the plain disk that a run from a fresh driver is. */
  ghost function PlainEnd(s: Sys, es: seq<Event>): Plain
    requires Fresh(s) && Inv(s, Book(map[], [], [])) && Run(s, Book(map[], [], []), es)
  {
    var k := Book(map[], [], []);
    var p := Plain(map[], s.data, s.blocks, map[]);
    FreshInv(s);
    RunRefines(s, k, p, es);
    PlainFinal(p, PlainTrace(s, k, es))
  }

  /**
   * In every run, a request that is about to return has been served, once, and its buffer holds what was moved: a
   * read has brought the block it read then, a write has put on its block what the buffer holds.
   */
  lemma {:induction false} RequestReturns(s: Sys, es: seq<Event>, h: nat)
    requires Fresh(s) && Inv(s, Book(map[], [], [])) && Run(s, Book(map[], [], []), es)
    requires var (s', k') := Final(s, Book(map[], [], []), es);
      Shape(s') && Enabled(s', k', DoFinish(h))
    ensures var (s', k') := Final(s, Book(map[], [], []), es); var p := PlainEnd(s, es); var r := k'.chains[h];
      && h in p.asks && p.asks[h] == Ask(r.b, r.write, r.sector, p.asks[h].progress) && p.asks[h].progress.Told?
      && Lookup(s'.data, r.b) == p.asks[h].progress.v
      && (r.write ==> r.sector in p.writer && (p.writer[r.sector] == h ==>
          Lookup(s'.blocks, r.sector) == Lookup(s'.data, r.b)))
  {
    var k := Book(map[], [], []);
    var p := Plain(map[], s.data, s.blocks, map[]);
    FreshInv(s);
    hide Inv, Run, Final, PlainTrace, PlainRun, PlainFinal, Fresh, PlainInv, Refines;
    RunRefines(s, k, p, es);
    assert PlainInv(p) by { NoAsks(p); }
    PlainRunKeeps(p, PlainTrace(s, k, es));
    var (s', k') := Final(s, k, es);
    EndOfRequest(s', k', PlainEnd(s, es), h);
  }

  lemma {:induction false} EndOfRequest(s: Sys, k: Book, p: Plain, h: nat)
    requires Inv(s, k) && Refines(s, k, p) && PlainInv(p) && h in k.chains && k.chains[h].b !in s.busy
    ensures var r := k.chains[h];
      && h in p.asks && p.asks[h] == Ask(r.b, r.write, r.sector, p.asks[h].progress) && p.asks[h].progress.Told?
      && Lookup(s.data, r.b) == p.asks[h].progress.v
      && (r.write ==> r.sector in p.writer && (p.writer[r.sector] == h ==>
          Lookup(s.blocks, r.sector) == Lookup(s.data, r.b)))
  {
    hide Inv, PlainInv;
    NotBusyNoticed(s, k, h);
    StageOf(s, k, p, h);
    PlainMoved(p, h);
  }

  lemma {:induction false} NoAsks(p: Plain)
    requires p.asks == map[]
    ensures PlainInv(p)
  {
  }

  lemma {:induction false} PlainMoved(p: Plain, h: nat)
    requires PlainInv(p) && h in p.asks && !p.asks[h].progress.Waiting?
    ensures Moved(p, h)
  {
  }

  // ---------------------------------------------------------------- how many requests are in flight

  /** The descriptors of the chains. */
  ghost function Owned(chains: map<nat, Req>): set<nat> {
    set i: nat | i < NUM && InChain(chains, i)
  }

  ghost predicate Proper(chains: map<nat, Req>) {
    && Disjoint(chains)
    && forall h :: h in chains ==> var r := chains[h];
        h < NUM && r.d1 < NUM && r.d2 < NUM && h != r.d1 && h != r.d2 && r.d1 != r.d2
  }

  lemma {:induction false} LessChain(chains: map<nat, Req>, h: nat, i: nat)
    requires h in chains
    ensures InChain(chains, i) <==> InChain(chains - {h}, i) || Owns(h, chains[h], i)
  {
    hide Owns;
    var rest := chains - {h};
    if InChain(chains, i) && !Owns(h, chains[h], i) {
      var g :| g in chains && Owns(g, chains[g], i);
      assert g in rest && Owns(g, rest[g], i);
    }
    if InChain(rest, i) {
      var g :| g in rest && Owns(g, rest[g], i);
      assert g in chains && Owns(g, chains[g], i);
    }
  }

  lemma {:induction false} LessApart(chains: map<nat, Req>, h: nat, i: nat)
    requires Disjoint(chains) && h in chains && InChain(chains - {h}, i)
    ensures !Owns(h, chains[h], i)
  {
    hide Owns;
    var g :| g in chains - {h} && Owns(g, (chains - {h})[g], i);
    assert Owns(g, chains[g], i);
  }

  lemma {:induction false} LessProper(chains: map<nat, Req>, h: nat)
    requires Proper(chains) && h in chains
    ensures Proper(chains - {h}) && |chains - {h}| == |chains| - 1
  {
    hide Owns;
    assert (chains - {h}).Keys == chains.Keys - {h};
  }

  /** Without one chain, exactly its three descriptors are free of chains. */
  lemma {:induction false} OwnedLess(chains: map<nat, Req>, h: nat)
    requires Proper(chains) && h in chains
    ensures var r, rest := chains[h], chains - {h};
      && Proper(rest) && |rest| == |chains| - 1 && Owned(rest) !! {h, r.d1, r.d2}
      && Owned(chains) == Owned(rest) + {h, r.d1, r.d2}
  {
    hide Disjoint, InChain;
    var r, rest := chains[h], chains - {h};
    LessProper(chains, h);
    forall i: nat ensures i in Owned(chains) <==> i in Owned(rest) || i in {h, r.d1, r.d2} {
      LessChain(chains, h, i);
    }
    forall i | i in Owned(rest) ensures i !in {h, r.d1, r.d2} {
      LessApart(chains, h, i);
    }
  }

  lemma {:induction false} OwnedCount(chains: map<nat, Req>)
    requires Proper(chains)
    ensures |Owned(chains)| == 3 * |chains|
    decreases |chains|
  {
    hide Proper, Owned;
    if chains == map[] {
      OwnedNone();
    } else {
      var h :| h in chains;
      OwnedLess(chains, h);
      ThreeDistinct(chains, h);
      OwnedCount(chains - {h});
    }
  }

  lemma {:induction false} OwnedNone()
    ensures Owned(map[]) == {}
  {
  }

  lemma {:induction false} ThreeDistinct(chains: map<nat, Req>, h: nat)
    requires Proper(chains) && h in chains
    ensures |{h, chains[h].d1, chains[h].d2}| == 3
  {
  }

  ghost function FreeOnes(s: Sys): set<nat>
    requires Shape(s)
  {
    set i: nat | i < NUM && s.free[i]
  }

  function Numbers(n: nat): (r: set<nat>)
    ensures |r| == n && forall i: nat :: i in r <==> i < n
  {
    if n == 0 then {} else Numbers(n - 1) + {n - 1}
  }

  lemma {:induction false} ProperChains(s: Sys, chains: map<nat, Req>)
    requires Shape(s) && ChainsOk(s, chains) && Disjoint(chains)
    ensures Proper(chains)
  {
    hide Disjoint;
  }

  lemma {:induction false} FreeOrOwned(s: Sys, chains: map<nat, Req>)
    requires Shape(s) && FreeRest(s, chains)
    ensures FreeOnes(s) !! Owned(chains) && FreeOnes(s) + Owned(chains) == Numbers(NUM)
  {
    hide InChain, Numbers;
    var a, b, c := FreeOnes(s), Owned(chains), Numbers(NUM);
    forall i: nat ensures i in a + b <==> i in c {
    }
  }

  lemma {:induction false} FreeCount(s: Sys, k: Book)
    requires Inv(s, k)
    ensures Shape(s) && |FreeOnes(s)| + 3 * |k.chains| == NUM
  {
    hide Window, StagesOk, BuffersOk, Disjoint, ChainsOk, FreeRest, Shape, Owned, FreeOnes, Numbers, Proper;
    ProperChains(s, k.chains);
    OwnedCount(k.chains);
    FreeOrOwned(s, k.chains);
  }

  /**
   In every run each of the NUM descriptors is free or in exactly one chain, three to a chain, so
   at most NUM / 3 requests are in flight and both rings have room for all of them.
   */
  lemma {:induction false} InFlight(s: Sys, k: Book, es: seq<Event>)
    requires Inv(s, k) && Run(s, k, es)
    ensures var (r, b) := Final(s, k, es);
      && Shape(r) && |FreeOnes(r)| + 3 * |b.chains| == NUM && |b.chains| <= NUM / 3
      && |b.availQ| <= |b.chains| && |b.usedQ| <= |b.chains|
    decreases |es|
  {
    hide Inv, Apply, Enabled;
    if es == [] {
      FreeCount(s, k);
      QueuedCount(s, k);
    } else {
      ApplyKeeps(s, k, es[0]);
      InFlight(Apply(s, k, es[0]).0, Apply(s, k, es[0]).1, es[1..]);
    }
  }

  lemma {:induction false} QueuedCount(s: Sys, k: Book)
    requires Inv(s, k)
    ensures |k.availQ| <= |k.chains| && |k.usedQ| <= |k.chains|
  {
    hide Window, ChainsOk, Disjoint, FreeRest, BuffersOk;
    DistinctAmong(k.availQ, k.chains.Keys);
    DistinctAmong(k.usedQ, k.chains.Keys);
  }

  lemma {:induction false} DistinctAmong(q: seq<nat>, keys: set<nat>)
    requires Distinct(q) && forall x :: x in q ==> x in keys
    ensures |q| <= |keys|
  {
    if q != [] {
      var x, rest := q[0], q[1..];
      assert x in q;
      forall y | y in rest ensures y in keys - {x} {
        var j :| 0 <= j < |rest| && rest[j] == y;
        assert q[j + 1] == y && y in q;
      }
      DistinctAmong(rest, keys - {x});
    }
  }

  /** A request that is in flight can always move on: the step that waits for it is enabled. */
  lemma {:induction false} NoneStuck(s: Sys, k: Book, h: nat)
    requires Inv(s, k) && h in k.chains
    ensures k.chains[h].stage.Queued? ==> Enabled(s, k, DoTake)
    ensures k.chains[h].stage.Serving? ==> Enabled(s, k, DoComplete(h))
    ensures k.chains[h].stage.Served? ==> Enabled(s, k, DoNotice)
    ensures k.chains[h].stage.Noticed? ==> Enabled(s, k, DoFinish(h))
  {
    hide FreeRest, Disjoint;
    HeadsBelow(s, k.chains);
    if k.chains[h].stage.Queued? {
      assert h in k.availQ;
      Ahead(s.avail, s.takenIdx, s.availIdx, k.availQ);
    } else if k.chains[h].stage.Served? {
      assert h in k.usedQ;
      Ahead(s.used, s.seenIdx, s.usedIdx, k.usedQ);
    }
  }

  lemma {:induction false} Ahead(ring: seq<nat>, from: nat, to: nat, q: seq<nat>)
    requires Window(ring, from, to, q) && q != [] && from < WRAP
    ensures from != to
  {
  }
}
