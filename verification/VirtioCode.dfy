/** The functions of kernel/virtio_disk.c on the driver's and the device's variables. */
module VirtioCode {
  import opened Common
  import opened Virtio

  class Disk {
    var desc: seq<Desc>
    var free: seq<bool>
    var ops: seq<Op>
    var info: seq<Info>
    var avail: seq<nat>
    var availIdx: nat
    var used: seq<nat>
    var usedIdx: nat
    var seenIdx: nat
    var busy: set<nat>
    var data: map<nat, int>
    var takenIdx: nat
    var serving: set<nat>
    var blocks: map<nat, int>
    ghost var book: Book

    function State(): Sys
      reads this
    {
      Sys(desc, free, ops, info, avail, availIdx, used, usedIdx, seenIdx, busy, data, takenIdx, serving, blocks)
    }

    ghost predicate Valid()
      reads this
    {
      Inv(State(), book)
    }

    /** virtio_disk_init: every descriptor is free and both rings are empty. */
    constructor (disk: map<nat, int>)
      ensures Valid() && book.chains == map[] && blocks == disk
    {
      desc, free, ops := seq(NUM, _ => NONE), seq(NUM, _ => true), seq(NUM, _ => Op(false, 0));
      info, avail, used := seq(NUM, _ => Info(None, 0)), seq(NUM, _ => 0), seq(NUM, _ => 0);
      availIdx, usedIdx, seenIdx, takenIdx := 0, 0, 0, 0;
      busy, data, serving, blocks := {}, map[], {}, disk;
      book := Book(map[], [], []);
      new;
      FreshInv(State());
    }

    /** alloc_desc: the lowest free descriptor. */
    method AllocDesc() returns (d: Option<nat>)
      requires |free| == NUM
      modifies this`free
      ensures d.None? ==> free == old(free) && forall i :: 0 <= i < NUM ==> !free[i]
      ensures d.Some? ==> d.value < NUM && old(free)[d.value] && free == old(free)[d.value := false]
      ensures d.Some? ==> forall i :: 0 <= i < d.value ==> !old(free)[i]
    {
      var i := 0;
      while i < NUM
        invariant 0 <= i <= NUM && free == old(free) && forall j :: 0 <= j < i ==> !free[j]
      {
        if free[i] {
          free := free[i := false];
          return Some(i);
        }
        i := i + 1;
      }
      return None;
    }

    /** free_desc; not ok if it panics. */
    method FreeDesc(i: nat) returns (ok: bool)
      requires |free| == NUM && |desc| == NUM
      modifies this`free, this`desc
      ensures ok <==> i < NUM && !old(free)[i]
      ensures ok ==> free == old(free)[i := true] && desc == old(desc)[i := NONE]
      ensures !ok ==> free == old(free) && desc == old(desc)
    {
      if i >= NUM {
        return false;
      }
      if free[i] {
        return false;
      }
      desc := desc[i := NONE];
      free := free[i := true];
      return true;
    }

    /** free_chain. */
    method FreeAll(h: nat) returns (ok: bool)
      requires |free| == NUM && |desc| == NUM
      modifies this`free, this`desc
      ensures var r := FreeChain(old(desc), old(free), h);
        (ok <==> r.Some?) && (ok ==> (desc, free) == r.value)
    {
      var i: nat := h;
      var more := true;
      while more
        invariant |free| == NUM && |desc| == NUM
        invariant if more then FreeChain(old(desc), old(free), h) == FreeChain(desc, free, i)
                  else FreeChain(old(desc), old(free), h) == Some((desc, free))
        decreases more, Taken(free)
      {
        if i < NUM && !free[i] {
          TakenLess(free, i);
        }
        ghost var d, f, at := desc, free, i;
        var flag, nxt := 0, 0;
        if i < NUM {
          flag, nxt := desc[i].flags, desc[i].next;
        }
        ok := FreeDesc(i);
        ChainStep(d, f, at);
        if !ok {
          return;
        }
        if flag % 2 == F_NEXT {
          i := nxt;
        } else {
          more := false;
        }
      }
      ok := true;
    }

    /** alloc3_desc: three descriptors, or none and nothing changed. */
    method Alloc3Desc() returns (idx: seq<nat>)
      requires Shape(State()) && ClearedFree(desc, free)
      modifies this`free, this`desc
      ensures |idx| == 3 || idx == []
      ensures idx == [] ==> free == old(free) && desc == old(desc) && forall h, d1, d2 :: !Chosen(State(), h, d1, d2)
      ensures idx != [] ==> Chosen(old(State()), idx[0], idx[1], idx[2]) && desc == old(desc)
      ensures idx != [] ==> free == old(free)[idx[0] := false][idx[1] := false][idx[2] := false]
    {
      var a := AllocDesc();
      if a.None? {
        return [];
      }
      var b := AllocDesc();
      if b.None? {
        var ok := FreeDesc(a.value);
        Restored(old(desc), old(free), a.value);
        return [];
      }
      ghost var f2 := free;
      var c := AllocDesc();
      if c.None? {
        var ok := FreeDesc(a.value);
        ok := FreeDesc(b.value);
        Restored2(old(desc), old(free), a.value, b.value);
        return [];
      }
      return [a.value, b.value, c.value];
    }

    /** The three descriptors of a request and its header, formatted. */
    method Format(b: nat, write: bool, sector: nat, h: nat, d1: nat, d2: nat)
      requires Shape(State()) && h < NUM && d1 < NUM && d2 < NUM && h != d1 && h != d2 && d1 != d2
      modifies this`desc, this`ops, this`info
      ensures desc == old(desc)[h := Desc(Header(h), 16, F_NEXT, d1)]
                               [d1 := Desc(Data(b), BSIZE, if write then F_NEXT else F_WRITE + F_NEXT, d2)]
                               [d2 := Desc(Status(h), 1, F_WRITE, 0)]
      ensures ops == old(ops)[h := Op(write, sector)] && info == old(info)[h := Info(Some(b), 0xff)]
    {
      ops := ops[h := Op(write, sector)];
      desc := desc[h := Desc(Header(h), 16, F_NEXT, d1)];
      var flags := if write then 0 else F_WRITE;
      desc := desc[d1 := Desc(Data(b), BSIZE, flags + F_NEXT, d2)];
      info := info[h := info[h].(status := 0xff)];
      desc := desc[d2 := Desc(Status(h), 1, F_WRITE, 0)];
      info := info[h := info[h].(b := Some(b))];
    }

    /** The descriptors are taken: format them, mark the buffer busy, put the head on the ring. */
    method Publish(b: nat, write: bool, sector: nat, h: nat, d1: nat, d2: nat, ghost s0: Sys)
      requires Shape(s0) && Chosen(s0, h, d1, d2)
      requires State() == s0.(free := s0.free[h := false][d1 := false][d2 := false])
      modifies this`desc, this`ops, this`info, this`busy, this`avail, this`availIdx
      ensures State() == Submit(s0, b, write, sector, h, d1, d2)
    {
      Format(b, write, sector, h, d1, d2);
      hide Chosen;
      busy := busy + {b};
      avail := avail[availIdx % NUM := h];
      availIdx := Next(availIdx);
      hide Submit;
      SubmitIs(s0, State(), b, write, sector, h, d1, d2);
    }

    /** virtio_disk_rw up to the wait; no descriptors are returned if it has to sleep for them. */
    method Request(b: nat, write: bool, blockno: nat) returns (idx: seq<nat>)
      requires Valid() && NotInFlight(book, b) && blockno < 0x1_0000_0000
      modifies this
      ensures Valid() && (|idx| == 3 || idx == [])
      ensures idx == [] ==> State() == old(State()) && book == old(book)
      ensures idx == [] ==> forall h, d1, d2 :: !Chosen(State(), h, d1, d2)
      ensures idx != [] ==> Chosen(old(State()), idx[0], idx[1], idx[2])
      ensures idx != [] ==>
        && State() == Submit(old(State()), b, write, Sector(blockno), idx[0], idx[1], idx[2])
        && book == SubmitBook(old(book), b, write, Sector(blockno), idx[0], idx[1], idx[2])
    {
      hide Inv, Chosen, Submit, Sector, SubmitBook, NotInFlight, ClearedFree;
      ghost var s0, k0 := State(), book;
      FreeCleared(s0, k0);
      idx := Alloc3Desc();
      if idx != [] {
        SubmitKeeps(s0, k0, b, write, Sector(blockno), idx[0], idx[1], idx[2]);
        Publish(b, write, Sector(blockno), idx[0], idx[1], idx[2], s0);
        book := SubmitBook(book, b, write, Sector(blockno), idx[0], idx[1], idx[2]);
      }
    }

    /** virtio_disk_intr: every completion on the ring is noticed; it never panics. */
    method Intr() returns (ok: bool)
      requires Valid()
      modifies this`busy, this`seenIdx, this`book
      ensures ok && Valid() && seenIdx == usedIdx && book.usedQ == []
      ensures busy == old(busy) - BuffersOf(old(book).chains, old(book).usedQ)
      ensures ChainsAfter(old(book).chains, old(book).usedQ, book.chains)
    {
      hide Inv, Notice, NoticedSoFar, ChainsAfter, BuffersOf;
      ghost var k0 := book;
      ghost var q: seq<nat> := [];
      NoticedNone(k0, busy);
      while seenIdx != usedIdx
        invariant Valid() && NoticedSoFar(k0, old(busy), book, busy, q)
        decreases |book.usedQ|
      {
        ghost var s, k := State(), book;
        InvShape(s, k);
        NoticeKeeps(s, k);
        NoticeSteps(s);
        var id := used[seenIdx % NUM];
        if info[id].status != 0 {
          return false;
        }
        NoticedMore(k0, old(busy), k, busy, q);
        q := q + [k.usedQ[0]];
        busy := busy - {info[id].b.value};
        seenIdx := Next(seenIdx);
        book := NoticeBook(book);
      }
      RingEmpty(State(), book);
      NoticedAll(k0, old(busy), book, busy, q);
      return true;
    }

    /** virtio_disk_rw after the wait: the buffer is no longer busy. */
    method Done(h: nat) returns (ok: bool)
      requires Valid() && h in book.chains && book.chains[h].b !in busy
      modifies this`desc, this`free, this`info, this`book
      ensures ok && Valid() && book == FinishBook(old(book), h)
    {
      ghost var s, k := State(), book;
      hide Inv, Finish;
      InvShape(s, k);
      NotBusyNoticed(s, k, h);
      FinishKeeps(s, k, h);
      FinishSteps(s, h);
      info := info[h := info[h].(b := None)];
      ok := FreeAll(h);
      book := FinishBook(book, h);
    }
  }

  /** The first sector of a block, in 32-bit arithmetic. */
  function Sector(blockno: nat): nat { (blockno * 2) % 0x1_0000_0000 }

  lemma {:induction false} FreeCleared(s: Sys, k: Book)
    requires Inv(s, k)
    ensures Shape(s) && ClearedFree(s.desc, s.free)
  {
  }

  lemma {:induction false} SubmitIs(s: Sys, s': Sys, b: nat, write: bool, sector: nat, h: nat, d1: nat, d2: nat)
    requires Shape(s) && Chosen(s, h, d1, d2)
    requires s'.free == s.free[h := false][d1 := false][d2 := false]
    requires s'.desc == s.desc[h := Desc(Header(h), 16, F_NEXT, d1)]
                              [d1 := Desc(Data(b), BSIZE, if write then F_NEXT else F_WRITE + F_NEXT, d2)]
                              [d2 := Desc(Status(h), 1, F_WRITE, 0)]
    requires s'.ops == s.ops[h := Op(write, sector)] && s'.info == s.info[h := Info(Some(b), 0xff)]
    requires s'.busy == s.busy + {b} && s'.avail == s.avail[s.availIdx % NUM := h] && s'.availIdx == Next(s.availIdx)
    requires s'.used == s.used && s'.usedIdx == s.usedIdx && s'.seenIdx == s.seenIdx && s'.data == s.data
    requires s'.takenIdx == s.takenIdx && s'.serving == s.serving && s'.blocks == s.blocks
    ensures s' == Submit(s, b, write, sector, h, d1, d2)
  {
  }

  /** The buffers of the requests with the given heads. */
  ghost function BuffersOf(chains: map<nat, Req>, q: seq<nat>): set<nat> {
    set h | h in q && h in chains :: chains[h].b
  }

  /** The chain of `h` after the completions in `q` have been noticed. */
  ghost function NoticedIn(chains: map<nat, Req>, q: seq<nat>, h: nat): Req
    requires h in chains
  {
    if h in q then chains[h].(stage := Noticed) else chains[h]
  }

  ghost predicate ChainsAfter(chains: map<nat, Req>, q: seq<nat>, chains': map<nat, Req>) {
    chains'.Keys == chains.Keys && forall h :: h in chains' ==> chains'[h] == NoticedIn(chains, q, h)
  }

  /** The first of the completions have been noticed: `q` of them. */
  ghost predicate NoticedSoFar(k0: Book, busy0: set<nat>, k: Book, busy: set<nat>, q: seq<nat>) {
    q + k.usedQ == k0.usedQ && busy == busy0 - BuffersOf(k0.chains, q) && ChainsAfter(k0.chains, q, k.chains)
  }

  lemma {:induction false} NoticedNone(k0: Book, busy0: set<nat>)
    ensures NoticedSoFar(k0, busy0, k0, busy0, [])
  {
    assert BuffersOf(k0.chains, []) == {};
  }

  lemma {:induction false} OneMoreBuffer(chains: map<nat, Req>, q: seq<nat>, h: nat)
    requires h in chains
    ensures BuffersOf(chains, q + [h]) == BuffersOf(chains, q) + {chains[h].b}
  {
  }

  lemma {:induction false} OneMoreChain(chains: map<nat, Req>, q: seq<nat>, chains': map<nat, Req>, h: nat)
    requires ChainsAfter(chains, q, chains') && h in chains'
    ensures h in chains && chains'[h].b == chains[h].b
    ensures ChainsAfter(chains, q + [h], chains'[h := chains'[h].(stage := Noticed)])
  {
    assert forall x :: x in q + [h] <==> x in q || x == h;
    assert chains'[h] == NoticedIn(chains, q, h);
  }

  lemma {:induction false} NoticedMore(k0: Book, busy0: set<nat>, k: Book, busy: set<nat>, q: seq<nat>)
    requires NoticedSoFar(k0, busy0, k, busy, q) && k.usedQ != [] && k.usedQ[0] in k.chains
    ensures NoticedSoFar(k0, busy0, NoticeBook(k), busy - {k.chains[k.usedQ[0]].b}, q + [k.usedQ[0]])
  {
    hide BuffersOf, ChainsAfter;
    var h := k.usedQ[0];
    OneMoreChain(k0.chains, q, k.chains, h);
    OneMoreBuffer(k0.chains, q, h);
    assert q + k.usedQ == (q + [h]) + k.usedQ[1..];
  }

  lemma {:induction false} NoticedAll(k0: Book, busy0: set<nat>, k: Book, busy: set<nat>, q: seq<nat>)
    requires NoticedSoFar(k0, busy0, k, busy, q) && k.usedQ == []
    ensures busy == busy0 - BuffersOf(k0.chains, k0.usedQ) && ChainsAfter(k0.chains, k0.usedQ, k.chains)
  {
    hide BuffersOf, ChainsAfter;
    assert q + [] == q;
  }

  lemma {:induction false} RingEmpty(s: Sys, k: Book)
    requires Inv(s, k) && s.seenIdx == s.usedIdx
    ensures k.usedQ == []
  {
    Pop(s.used, s.seenIdx, s.usedIdx, k.usedQ);
  }

  lemma {:induction false} NoticeSteps(s: Sys)
    requires Shape(s) && Notice(s).Some?
    ensures var id := s.used[s.seenIdx % NUM];
      && id < NUM && s.info[id].status == 0 && s.info[id].b.Some?
      && Notice(s).value == s.(busy := s.busy - {s.info[id].b.value}, seenIdx := Next(s.seenIdx))
  {
  }

  lemma {:induction false} FinishSteps(s: Sys, h: nat)
    requires Shape(s) && h < NUM && Finish(s, h).Some?
    ensures var r := FreeChain(s.desc, s.free, h);
      r.Some? && Finish(s, h).value == s.(desc := r.value.0, free := r.value.1,
          info := s.info[h := s.info[h].(b := None)])
  {
    hide FreeChain;
  }

  ghost predicate ClearedFree(desc: seq<Desc>, free: seq<bool>) {
    |desc| == NUM && |free| == NUM && forall i :: 0 <= i < NUM && free[i] ==> desc[i] == NONE
  }

  lemma {:induction false} Restored(desc: seq<Desc>, free: seq<bool>, a: nat)
    requires ClearedFree(desc, free) && a < NUM && free[a]
    ensures free[a := false][a := true] == free && desc[a := NONE] == desc
  {
  }

  lemma {:induction false} Restored2(desc: seq<Desc>, free: seq<bool>, a: nat, b: nat)
    requires ClearedFree(desc, free) && a < NUM && free[a] && b < NUM && free[b] && a != b
    ensures free[a := false][b := false][a := true][b := true] == free && desc[a := NONE][b := NONE] == desc
  {
  }

  lemma {:induction false} ChainStep(desc: seq<Desc>, free: seq<bool>, i: nat)
    requires |desc| == NUM && |free| == NUM
    ensures i >= NUM || free[i] ==> FreeChain(desc, free, i).None?
    ensures i < NUM && !free[i] && desc[i].flags % 2 == F_NEXT ==>
      FreeChain(desc, free, i) == FreeChain(desc[i := NONE], free[i := true], desc[i].next)
    ensures i < NUM && !free[i] && desc[i].flags % 2 != F_NEXT ==>
      FreeChain(desc, free, i) == Some((desc[i := NONE], free[i := true]))
  {
  }
}
