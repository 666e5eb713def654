/**
 The paging code of `kernel/vm.c` and `kernel/trap.c` over the process fields it
 changes in place. Each method is proved equal to the function of `Pager` it
 implements, so the run theorems there are about this code.
 */
module PagerCode {
  import opened Common
  import opened Pager

  class Process {
    var pt: map<int, Pte>
    var mem: map<nat, Page>
    var free: seq<nat>
    var resident: seq<Resident>
    var swapped: seq<Swapped>
    var slots: seq<bool>
    var swapFile: seq<Page>
    var nextSeq: int
    const exec: map<int, Segment>
    const heapStart: int
    var sz: int
    var num: int
    var slot0: Resident
    ghost var outside: seq<Resident>
    var alive: bool
    // The RESIDENT and VICTIM lines printed so far.
    ghost var admitted: seq<Line>
    ghost var victims: seq<Line>

    ghost function State(): Proc
      reads this
    {
      Proc(pt, mem, free, resident, swapped, slots, swapFile, nextSeq,
           exec, heapStart, sz, admitted, victims, num, slot0, outside, alive)
    }

    constructor (p: Proc)
      ensures State() == p
    {
      pt, mem, free, resident, swapped, slots := p.pt, p.mem, p.free, p.resident, p.swapped, p.slots;
      swapFile, nextSeq, exec, heapStart, sz := p.swapFile, p.nextSeq, p.exec, p.heapStart, p.sz;
      alive, admitted, victims, num, slot0, outside := p.alive, p.admitted, p.victims, p.num, p.slot0, p.outside;
    }

    /** swap_allocated_slot */
    method SwapAllocatedSlot() returns (slot: int)
      modifies this`slots
      ensures slot == if FreeSlot(old(slots), 0) < |old(slots)| then FreeSlot(old(slots), 0) else -1
      ensures slots == if slot == -1 then old(slots) else old(slots)[slot := true]
    {
      var i := 0;
      while i < |slots|
        invariant 0 <= i <= |slots| && slots == old(slots)
        invariant FreeSlot(slots, 0) == FreeSlot(slots, i)
      {
        if !slots[i] {
          slots := slots[i := true];
          return i;
        }
        i := i + 1;
      }
      return -1;
    }

    /** swap_write_page: the one writei call into the swap file. */
    method SwapWritePage(slot: nat, page: Page, diskOk: bool) returns (ok: bool)
      modifies this`swapFile
      ensures ok <==> diskOk && slot <= |old(swapFile)|
      ensures swapFile == if ok then SwapWrite(old(swapFile), slot, page).value else old(swapFile)
    {
      if slot > |swapFile| || !diskOk {
        return false;
      }
      swapFile := if slot == |swapFile| then swapFile + [page] else swapFile[slot := page];
      return true;
    }

    /** The victim search of evict_page. */
    method FindVictim() returns (victim: nat)
      requires resident != []
      ensures victim == Oldest(resident, |resident|)
    {
      victim := 0;
      var i := 1;
      while i < |resident|
        invariant 1 <= i <= |resident| && victim == Oldest(resident, i)
      {
        if resident[i].seqno < resident[victim].seqno {
          victim := i;
        }
        i := i + 1;
      }
    }

    /** uvmunmap of one page, freeing its frame. */
    method Uvmunmap(va: int)
      modifies this`pt, this`mem, this`free
      ensures State() == UnmapPage(old(State()), va)
    {
      if va in pt {
        var frame := pt[va].frame;
        free := [frame] + free;
        mem := mem - {frame};
        pt := pt - {va};
      }
    }

    /** uvmunmap of the victim and the swap-with-last removal. */
    method UnmapVictim(victim: nat)
      requires victim < |resident|
      modifies this
      ensures State() == Unmap(old(State()), victim)
    {
      Uvmunmap(resident[victim].va);
      if |resident| == 1 {
        slot0 := resident[0];
      }
      resident := resident[victim := resident[|resident| - 1]];
      resident := resident[..|resident| - 1];
      num := num - 1;
    }

    /** The SWAPOUT branch of evict_page for a dirty page whose contents are `page`. */
    method SwapOutVictim(va: int, page: Page, diskOk: bool) returns (ok: bool)
      requires alive
      modifies this`slots, this`swapFile, this`swapped, this`alive
      ensures var k := FreeSlot(old(slots), 0);
        && ok == alive
        && (ok <==> k < |old(slots)| && diskOk && k <= |old(swapFile)|)
        && (ok ==> State() == SwapOut(old(State()), va, k, SwapWrite(old(swapFile), k, page).value))
        && (!ok ==> State() == old(State()).(alive := false,
            slots := if k < |old(slots)| then old(slots)[k := true] else old(slots)))
    {
      var slot := SwapAllocatedSlot();
      if slot == -1 {
        alive := false;
        return false;
      }
      var written := SwapWritePage(slot, page, diskOk);
      if !written {
        alive := false;
        return false;
      }
      swapped := swapped + [Swapped(va, slot)];
      return true;
    }

    /** evict_page; `ok` is false when kexit was called. */
    method EvictPage(diskOk: bool) returns (ok: bool)
      requires Inv(State()) && alive && resident != []
      modifies this
      ensures State() == Evict(old(State()), diskOk) && ok == alive
    {
      InvFacts(State());
      hide Inv, SwapInv, Unmap, Oldest, DropAt;
      var victim := FindVictim();
      var va := resident[victim].va;
      victims := victims + [Line(va, resident[victim].seqno)];
      if resident[victim].dirty {
        var kept := SwapOutVictim(va, mem[pt[va].frame], diskOk);
        if !kept {
          return false;
        }
      }
      UnmapVictim(victim);
      return true;
    }

    /** evict_page when the resident list is empty; `below` is the memory before the array. */
    method EvictNothing(diskOk: bool, below: Resident) returns (ok: bool)
      requires alive && resident == []
      modifies this
      ensures State() == EvictStale(old(State()), diskOk, below) && ok == alive
    {
      hide FreeSlot;
      var va := slot0.va;
      victims := victims + [Line(va, slot0.seqno)];
      if slot0.dirty {
        if FreeSlot(slots, 0) < |slots| && (va !in pt || pt[va].frame !in mem) {
          alive := false;   // walkaddr gives no page to write
          return false;
        }
        if FreeSlot(slots, 0) == |slots| {
          alive := false;
          return false;
        }
        var kept := SwapOutVictim(va, mem[pt[va].frame], diskOk);
        if !kept {
          return false;
        }
      }
      Uvmunmap(va);
      slot0 := below;
      num := num - 1;
      return true;
    }

    /** add_to_resident_set */
    method AddToResidentSet(va: int, dirty: bool)
      modifies this`alive, this`nextSeq, this`resident, this`outside, this`num, this`admitted
      ensures State() == Admit(old(State()), va, dirty)
    {
      if num >= MAX_RESIDENT_PAGES {
        alive := false;
        return;
      }
      nextSeq := nextSeq + 1;
      if num >= 0 {
        resident := resident + [Resident(va, nextSeq, dirty)];
      } else {
        outside := outside + [Resident(va, nextSeq, dirty)];
      }
      num := num + 1;
      admitted := admitted + [Line(va, nextSeq)];
    }

    /** The scan of the swapped list in handle_pgfault. */
    method FindInSwap(va: int) returns (i: nat)
      ensures i == FindSwapped(swapped, va, 0)
    {
      i := 0;
      while i < |swapped|
        invariant i <= |swapped| && FindSwapped(swapped, va, 0) == FindSwapped(swapped, va, i)
      {
        if swapped[i].va == va {
          return;
        }
        i := i + 1;
      }
    }

    /** The page is in the swap file, as entry `i` of the swapped list. */
    method SwapIn(va: int, frame: nat, i: nat)
      requires i < |swapped| && swapped[i].slot < |slots| && swapped[i].slot < |swapFile|
      modifies this
      ensures State() == Bring(ForgetSwapped(old(State()), i), va, frame, old(swapFile)[old(swapped)[i].slot], false,
          true)
    {
      hide Admit;
      var slot := swapped[i].slot;
      swapped := swapped[i := swapped[|swapped| - 1]];
      swapped := swapped[..|swapped| - 1];
      slots := slots[slot := false];
      pt, mem := pt[va := Pte(frame, false)], mem[frame := swapFile[slot]];
      AddToResidentSet(va, true);
    }

    /** The page is loaded from the executable or filled with zeroes. */
    method Load(va: int, frame: nat)
      modifies this
      ensures State() == Bring(old(State()), va, frame, Initial(exec, va), va in exec && exec[va].writable, false)
    {
      hide Admit;
      if va in exec {
        pt, mem := pt[va := Pte(frame, exec[va].writable)], mem[frame := exec[va].image];
      } else {
        pt, mem := pt[va := Pte(frame, false)], mem[frame := ZeroPage()];
      }
      AddToResidentSet(va, false);
    }

    /** handle_pgfault after kalloc succeeded. */
    method ServeFault(va: int, frame: nat, mapOk: bool) returns (ok: bool)
      requires SwapInv(swapped, slots, |swapFile|, pt)
      modifies this
      ensures Served(State(), ok) == Serve(old(State()), va, frame, mapOk)
    {
      SwappedOut(State(), va);
      hide Bring, SwapInv, Initial;
      var i := FindInSwap(va);
      if i < |swapped| {
        SwapIn(va, frame, i);
        return true;
      }
      if !(va < heapStart) && !(va >= heapStart && va < sz) {
        return false;
      }
      if va in pt || !mapOk {
        free := [frame] + free;
        return false;
      }
      Load(va, frame);
      return true;
    }

    /** evict_page in every state; not ok when kexit was called. */
    method EvictAny(diskOk: bool, below: Resident) returns (ok: bool)
      requires Inv(State()) && alive
      modifies this
      ensures State() == if old(resident) != [] then Evict(old(State()), diskOk)
          else EvictStale(old(State()), diskOk, below)
      ensures ok == alive
    {
      hide Inv, Evict, EvictStale;
      if resident != [] {
        ok := EvictPage(diskOk);
      } else {
        ok := EvictNothing(diskOk, below);
      }
    }

    /** evict_page and the second kalloc of handle_pgfault; `late` has been freed by others meanwhile. */
    method MakeRoom(diskOk: bool, late: seq<nat>, below: Resident) returns (ok: bool)
      requires Inv(State()) && alive && free == []
      modifies this
      ensures var x := if old(resident) != [] then Evict(old(State()), diskOk)
          else EvictStale(old(State()), diskOk, below);
        var f := if old(resident) != [] then x.free else x.free + late;
        && (ok <==> x.alive && f != [])
        && State() == (if ok then x.(free := f) else x.(alive := false))
      ensures ok ==> SwapInv(swapped, slots, |swapFile|, pt)
    {
      hide Inv, Evict, EvictStale, SwapInv;
      AfterRoom(State(), diskOk, below);
      var nothing := resident == [];
      ok := EvictAny(diskOk, below);
      if !ok {
        return;
      }
      if nothing {
        free := free + late;
      }
      if free == [] {
        alive := false;   // kalloc failed after eviction
        ok := false;
      }
    }

    /** handle_pgfault, proved against the fault function and with it the flat-memory view. */
    method HandlePgfault(addr: int, mapOk: bool, diskOk: bool, late: seq<nat>, below: Resident) returns (ok: bool)
      requires Inv(State()) && alive
      modifies this
      ensures Served(State(), ok) == AnyFault(old(State()), addr, mapOk, diskOk, late, below)
      ensures alive && old(Backed(State())) ==> Inv(State()) && SameView(old(State()), State())
      ensures alive && old(Backed(State())) && ok ==> PageDown(addr) in pt
      ensures old(Backed(State())) ==> FaultDone(old(State()), State(), ok, addr, mapOk, diskOk)
    {
      hide Inv, Evict, EvictStale, Serve, SwapInv, SameView, AnyFault, Fault, FaultDone;
      ghost var s := State();
      FaultSteps(s, addr, mapOk, diskOk, late, below);
      if Backed(s) {
        FaultKeeps(s, addr, mapOk, diskOk);
        FaultIs(s, addr, mapOk, diskOk);
      }
      if addr >= MAXVA {
        return false;
      }
      var va := addr - addr % PGSIZE;
      InvSwap(s);
      if free == [] {
        ok := MakeRoom(diskOk, late, below);
        if !ok {
          return;
        }
      }
      var frame := free[0];
      free := free[1..];
      ok := ServeFault(va, frame, mapOk);
    }

    /** The trap-on-write part of usertrap. */
    method TrapOnWrite(addr: int)
      requires Inv(State()) && alive && PageDown(addr) in pt && !pt[PageDown(addr)].writable
      modifies this
      ensures State() == WriteTrap(old(State()), addr)
      ensures alive ==> Inv(State()) && SameView(old(State()), State())
      ensures TrapDone(old(State()), State(), PageDown(addr))
    {
      hide Inv, PageAt, TrapDone;
      TrapKeeps(State(), addr);
      TrapGrants(State(), addr);
      var va := addr - addr % PGSIZE;
      var canWrite := false;
      if va >= heapStart {
        canWrite := true;
      } else if va in exec {
        canWrite := exec[va].writable;
      }
      if canWrite {
        pt := pt[va := pt[va].(writable := true)];
        var i := 0;
        while i < |resident|
          invariant 0 <= i <= |resident| && resident == old(resident)
          invariant FindResident(resident, va, 0) == FindResident(resident, va, i)
        {
          if resident[i].va == va {
            resident := resident[i := resident[i].(dirty := true)];
            return;
          }
          i := i + 1;
        }
      } else {
        alive := false;
      }
    }
  }

  /** A fault, once room is made, takes the first free frame. */
  lemma {:induction false} FaultSteps(s: Proc, addr: int, mapOk: bool, diskOk: bool, late: seq<nat>, below: Resident)
    requires s.alive
    ensures var r := AnyFault(s, addr, mapOk, diskOk, late, below);
      && (Backed(s) ==> r == Fault(s, addr, mapOk, diskOk))
      && (addr >= MAXVA ==> r == Served(s, false))
      && (addr < MAXVA && s.free != [] ==> r == Serve(s.(free := s.free[1..]), PageDown(addr), s.free[0], mapOk))
    ensures addr < MAXVA && s.free == [] ==>
      var x := if s.resident != [] then Evict(s, diskOk) else EvictStale(s, diskOk, below);
      var f := if s.resident != [] then x.free else x.free + late;
      AnyFault(s, addr, mapOk, diskOk, late, below) ==
        if x.alive && f != [] then Serve(x.(free := f[1..]), PageDown(addr), f[0], mapOk)
            else Served(x.(alive := false), false)
  {
    hide Evict, EvictStale, Serve;
  }

  lemma {:induction false} SwappedOut(s: Proc, va: int)
    requires SwapInv(s.swapped, s.slots, |s.swapFile|, s.pt)
    ensures var i := FindSwapped(s.swapped, va, 0);
      i < |s.swapped| ==> va !in s.pt && s.swapped[i].slot < |s.slots| && s.swapped[i].slot < |s.swapFile|
  {
  }

  lemma {:induction false} InvSwap(s: Proc)
    requires Inv(s)
    ensures SwapInv(s.swapped, s.slots, |s.swapFile|, s.pt)
  {
  }

  /** After making room the swapped list and the slots still match. */
  lemma {:induction false} AfterRoom(s: Proc, diskOk: bool, below: Resident)
    requires Inv(s) && s.alive
    ensures SwapInv(s.swapped, s.slots, |s.swapFile|, s.pt)
    ensures s.resident != [] ==>
      var r := Evict(s, diskOk); r.alive ==> SwapInv(r.swapped, r.slots, |r.swapFile|, r.pt) && r.free != []
    ensures s.resident == [] ==>
      var r := EvictStale(s, diskOk, below); r.alive ==> SwapInv(r.swapped, r.slots, |r.swapFile|, r.pt)
  {
    if s.resident != [] {
      EvictKeeps(s, diskOk);
      hide Evict, SwapInv;
    } else {
      StaleSwap(s, diskOk, below);
    }
  }

  lemma {:induction false} StaleSwap(s: Proc, diskOk: bool, below: Resident)
    requires SwapInv(s.swapped, s.slots, |s.swapFile|, s.pt)
    ensures var r := EvictStale(s, diskOk, below); r.alive ==> SwapInv(r.swapped, r.slots, |r.swapFile|, r.pt)
  {
    var va, k := s.slot0.va, FreeSlot(s.slots, 0);
    SwapShrink(s.swapped, s.slots, |s.swapFile|, s.pt, va);
    if k < |s.slots| && va in s.pt {
      SlotFits(s.swapped, s.slots, |s.swapFile|, s.pt);
      SwapOutInv(s.swapped, s.slots, |s.swapFile|, s.pt, va, k);
    }
    hide SwapInv, FreeSlot;
  }
}
