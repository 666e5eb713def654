/**
 Demand paging with FIFO eviction and swap, from `kernel/vm.c` and the page-fault
 part of `kernel/trap.c`: one process, its page table, its resident and swapped
 lists, its swap slots and its swap file. User pages are keyed by their
 page-aligned virtual address.
 */
module Pager {
  import opened Common

  const TRAPFRAME: int := MAXVA - 2 * PGSIZE
  const MAX_RESIDENT_PAGES: nat := 35000
  const MAX_SWAP_PAGES: nat := 60
  const INT_MAX: int := 0x7fff_ffff

  datatype Page = Page(bytes: seq<int>)

  function ZeroPage(): (p: Page)
    ensures |p.bytes| == PGSIZE && forall i :: 0 <= i < PGSIZE ==> p.bytes[i] == 0
  {
    Page(seq(PGSIZE, _ => 0))
  }

  datatype Resident = Resident(va: int, seqno: int, dirty: bool)
  datatype Swapped = Swapped(va: int, slot: nat)
  /** A valid user PTE. */
  datatype Pte = Pte(frame: nat, writable: bool)
  /** What the executable says about a page: the bytes to load and whether the segment is writable. */
  datatype Segment = Segment(image: Page, writable: bool)
  /** A RESIDENT or VICTIM line of the kernel log. */
  datatype Line = Line(va: int, seqno: int)

  /**
   `resident` is the part of the resident array below `num`, the counter of the kernel; `slot0` is what the
   first entry of the array holds while the list is empty, and `outside` what was written below the array.
   */
  datatype Proc = Proc(
    pt: map<int, Pte>,
    mem: map<nat, Page>,
    free: seq<nat>,
    resident: seq<Resident>,
    swapped: seq<Swapped>,
    slots: seq<bool>,
    swapFile: seq<Page>,
    nextSeq: int,
    exec: map<int, Segment>,
    heapStart: int,
    sz: int,
    admitted: seq<Line>,
    victims: seq<Line>,
    num: int,
    slot0: Resident,
    outside: seq<Resident>,
    alive: bool)

  function PageDown(addr: int): int { addr - addr % PGSIZE }

  // ---------------------------------------------------------------- list code

  /** Remove entry `i` the way the kernel does: the last entry moves into its place. */
  function DropAt<T>(q: seq<T>, i: nat): seq<T>
    requires i < |q|
  {
    q[i := Last(q)][..|q| - 1]
  }

  /** The first entry of `q[..k]` with the smallest sequence number. */
  function Oldest(q: seq<Resident>, k: nat): (v: nat)
    requires 0 < k <= |q|
    ensures v < k
  {
    if k == 1 then 0
    else
      var v := Oldest(q, k - 1);
      if q[k - 1].seqno < q[v].seqno then k - 1 else v
  }

  /** The lowest slot at or above `i` that is not in use, or |slots|. */
  function FreeSlot(slots: seq<bool>, i: nat): (r: nat)
    requires i <= |slots|
    ensures i <= r <= |slots| && (r < |slots| ==> !slots[r])
    ensures forall j :: i <= j < r ==> slots[j]
    decreases |slots| - i
  {
    if i == |slots| || !slots[i] then i else FreeSlot(slots, i + 1)
  }

  /** The index of the first entry for `va`, or the length of the list. */
  function FindSwapped(q: seq<Swapped>, va: int, i: nat): (r: nat)
    requires i <= |q|
    ensures i <= r <= |q| && (r < |q| ==> q[r].va == va)
    ensures forall j :: i <= j < r ==> q[j].va != va
    decreases |q| - i
  {
    if i == |q| || q[i].va == va then i else FindSwapped(q, va, i + 1)
  }

  function FindResident(q: seq<Resident>, va: int, i: nat): (r: nat)
    requires i <= |q|
    ensures i <= r <= |q| && (r < |q| ==> q[r].va == va)
    ensures forall j :: i <= j < r ==> q[j].va != va
    decreases |q| - i
  {
    if i == |q| || q[i].va == va then i else FindResident(q, va, i + 1)
  }

  // ---------------------------------------------------------------- operations

  /** writei of one page at `slot`: rejected past the end of the swap file. */
  function SwapWrite(file: seq<Page>, slot: nat, p: Page): Option<seq<Page>> {
    if slot > |file| then None
    else if slot == |file| then Some(file + [p])
    else Some(file[slot := p])
  }

  /** uvmunmap of one page with do_free. */
  function UnmapPage(s: Proc, va: int): Proc {
    if va in s.pt then
      var f := s.pt[va].frame;
      s.(pt := s.pt - {va}, mem := s.mem - {f}, free := [f] + s.free)
    else s
  }

  /** uvmunmap of a page and its removal from the resident list. */
  function Unmap(s: Proc, v: nat): Proc
    requires v < |s.resident|
  {
    UnmapPage(s, s.resident[v].va).(
      resident := DropAt(s.resident, v), num := s.num - 1,
      slot0 := if |s.resident| == 1 then s.resident[0] else s.slot0)
  }

  /** Record that page `va` now lives in `slot` of the swap file. */
  function SwapOut(s: Proc, va: int, slot: nat, file: seq<Page>): Proc
    requires slot < |s.slots|
  {
    s.(slots := s.slots[slot := true], swapFile := file, swapped := s.swapped + [Swapped(va, slot)])
  }

  /** The VICTIM line of evict_page. */
  function Announce(s: Proc, v: nat): Proc
    requires v < |s.resident|
  {
    s.(victims := s.victims + [Line(s.resident[v].va, s.resident[v].seqno)])
  }

  /** evict_page. The process does not survive a full or failing swap file. */
  function Evict(s: Proc, diskOk: bool): Proc
    requires s.resident != []
  {
    var v := Oldest(s.resident, |s.resident|);
    var va := s.resident[v].va;
    var s0 := Announce(s, v);
    if !s.resident[v].dirty then Unmap(s0, v)
    else
      var slot := FreeSlot(s.slots, 0);
      if slot == |s.slots| || va !in s.pt || s.pt[va].frame !in s.mem then s0.(alive := false)
      else
        var file := SwapWrite(s.swapFile, slot, s.mem[s.pt[va].frame]);
        if !diskOk || file.None? then s0.(slots := s.slots[slot := true], alive := false)
        else Unmap(SwapOut(s0, va, slot, file.value), v)
  }

  /** evict_page when nothing is resident: it goes by the first entry of the array all the same, and counts it out. */
  function EvictStale(s: Proc, diskOk: bool, below: Resident): Proc {
    var e := s.slot0;
    var s0 := s.(victims := s.victims + [Line(e.va, e.seqno)]);
    var s1 :=
      if !e.dirty then UnmapPage(s0, e.va)
      else
        var slot := FreeSlot(s.slots, 0);
        if slot == |s.slots| || e.va !in s.pt || s.pt[e.va].frame !in s.mem then s0.(alive := false)
        else
          var file := SwapWrite(s.swapFile, slot, s.mem[s.pt[e.va].frame]);
          if !diskOk || file.None? then s0.(slots := s.slots[slot := true], alive := false)
          else UnmapPage(SwapOut(s0, e.va, slot, file.value), e.va);
    if s1.alive then s1.(num := s.num - 1, slot0 := below) else s1
  }

  /** add_to_resident_set; a counter below zero makes it write outside the array. */
  function Admit(s: Proc, va: int, dirty: bool): Proc {
    var e := Resident(va, s.nextSeq + 1, dirty);
    if s.num >= MAX_RESIDENT_PAGES then s.(alive := false)
    else
      var s1 := s.(nextSeq := s.nextSeq + 1, num := s.num + 1, admitted := s.admitted + [Line(va, s.nextSeq + 1)]);
      if s.num < 0 then s1.(outside := s.outside + [e]) else s1.(resident := s.resident + [e])
  }

  /** Map `va` to `frame` with the given contents and add it to the resident set. */
  function Bring(s: Proc, va: int, frame: nat, p: Page, writable: bool, dirty: bool): Proc {
    Admit(s.(pt := s.pt[va := Pte(frame, writable)], mem := s.mem[frame := p]), va, dirty)
  }

  /** The contents a page has before anything is stored to it. */
  function Initial(exec: map<int, Segment>, va: int): Page {
    if va in exec then exec[va].image else ZeroPage()
  }

  /** What handle_pgfault leaves behind, and whether it returned 0. */
  datatype Served = Served(proc: Proc, ok: bool)

  /**
   handle_pgfault once a frame is in hand: swap in, load, or zero-fill. The
   page-table pages for a swapped page exist already, so mapping it can fail only
   if it is mapped; `mapOk` covers the other failures (page-table pages, reading
   the executable).
   */
  function Serve(s: Proc, va: int, frame: nat, mapOk: bool): Served {
    var i := FindSwapped(s.swapped, va, 0);
    if i < |s.swapped| then
      var slot := s.swapped[i].slot;
      if slot >= |s.slots| || slot >= |s.swapFile| then Served(s.(alive := false), false)
      else
        var s1 := s.(swapped := DropAt(s.swapped, i), slots := s.slots[slot := false]);
        if va in s.pt then Served(s1.(free := [frame] + s.free), false)
        else Served(Bring(s1, va, frame, s.swapFile[slot], false, true), true)
    else if va >= s.heapStart && va >= s.sz then Served(s, false)   // the frame is lost
    else if va in s.pt || !mapOk then Served(s.(free := [frame] + s.free), false)
    else Served(Bring(s, va, frame, Initial(s.exec, va), va in s.exec && s.exec[va].writable, false), true)
  }

  predicate CanFault(s: Proc) {
    s.alive && s.nextSeq < INT_MAX
  }

  /** Some frame is free or some page can be evicted. */
  predicate Backed(s: Proc) {
    s.free != [] || s.resident != []
  }

  /** kalloc, evicting a page first when memory is full. */
  function Room(s: Proc, diskOk: bool): Proc
    requires Backed(s)
  {
    if s.free == [] then Evict(s, diskOk) else s
  }

  /** handle_pgfault; `mapOk` and `diskOk` say whether page-table pages and disk blocks were to be had. */
  function Fault(s: Proc, addr: int, mapOk: bool, diskOk: bool): Served
    requires Backed(s)
  {
    if addr >= MAXVA then Served(s, false)
    else
      var s1 := Room(s, diskOk);
      if !s1.alive || s1.free == [] then Served(s1.(alive := false), false)
      else Serve(s1.(free := s1.free[1..]), PageDown(addr), s1.free[0], mapOk)
  }

  /**
   handle_pgfault with nothing to evict. `late` are frames other processes free between the two calls of
   kalloc, without which it panics; `below` is what lies in memory before the resident array.
   */
  function Starved(s: Proc, addr: int, mapOk: bool, diskOk: bool, late: seq<nat>, below: Resident): Served {
    if addr >= MAXVA then Served(s, false)
    else
      var s1 := EvictStale(s, diskOk, below);
      var free := s1.free + late;
      if !s1.alive || free == [] then Served(s1.(alive := false), false)
      else Serve(s1.(free := free[1..]), PageDown(addr), free[0], mapOk)
  }

  /** handle_pgfault in every state. */
  function AnyFault(s: Proc, addr: int, mapOk: bool, diskOk: bool, late: seq<nat>, below: Resident): Served {
    if Backed(s) then Fault(s, addr, mapOk, diskOk) else Starved(s, addr, mapOk, diskOk, late, below)
  }

  /** A fault from user mode kills the process when it cannot be served; copyin and copyout only fail. */
  function Touched(r: Served, user: bool): Proc {
    if user && !r.ok then r.proc.(alive := false) else r.proc
  }

  /** The write trap of usertrap on a page that is mapped read-only. */
  function WriteTrap(s: Proc, addr: int): Proc
    requires PageDown(addr) in s.pt
  {
    var va := PageDown(addr);
    if va >= s.heapStart || (va in s.exec && s.exec[va].writable) then
      var i := FindResident(s.resident, va, 0);
      s.(pt := s.pt[va := s.pt[va].(writable := true)],
         resident := if i < |s.resident| then s.resident[i := s.resident[i].(dirty := true)] else s.resident)
    else s.(alive := false)
  }

  function PutByte(p: Page, off: nat, b: int): Page {
    if off < |p.bytes| then Page(p.bytes[off := b]) else p
  }

  /** A user store to a mapped, writable page. */
  function Store(s: Proc, addr: int, b: int): Proc
    requires PageDown(addr) in s.pt && s.pt[PageDown(addr)].frame in s.mem
  {
    var f := s.pt[PageDown(addr)].frame;
    s.(mem := s.mem[f := PutByte(s.mem[f], addr % PGSIZE, b)])
  }

  // ---------------------------------------------------------------- steps

  datatype Step =
    | Touch(addr: int, user: bool, mapOk: bool, diskOk: bool, late: seq<nat>, below: Resident)   // a major fault
    | Trap(addr: int)                               // a write to a read-only page
    | Write(addr: int, b: int)
    | Grow(n: nat)                                  // sbrk(n), n > 0
    | Others(free: seq<nat>)                        // other processes took or returned frames

  predicate Enabled(s: Proc, l: Step) {
    && s.alive
    && match l
       case Touch(addr, _, _, _, late, _) => CanFault(s) && 0 <= addr && FreeInv(s.pt, s.free + late)
       case Trap(addr) => PageDown(addr) in s.pt && !s.pt[PageDown(addr)].writable
       case Write(addr, _) =>
         PageDown(addr) in s.pt && s.pt[PageDown(addr)].writable && s.pt[PageDown(addr)].frame in s.mem
       case Grow(n) => s.sz + n <= TRAPFRAME
       case Others(free) => FreeInv(s.pt, free)
  }

  function Apply(s: Proc, l: Step): Proc
    requires Enabled(s, l)
  {
    match l
    case Touch(addr, user, mapOk, diskOk, late, below) => Touched(AnyFault(s, addr, mapOk, diskOk, late, below), user)
    case Trap(addr) => WriteTrap(s, addr)
    case Write(addr, b) => Store(s, addr, b)
    case Grow(n) => s.(sz := s.sz + n)
    case Others(free) => s.(free := free)
  }

  /** The free list has no duplicates and no frame that the process maps. */
  predicate FreeInv(pt: map<int, Pte>, free: seq<nat>) {
    && Distinct(free)
    && forall va :: va in pt ==> pt[va].frame !in free
  }

  // ---------------------------------------------------------------- invariant

  /** Every valid PTE names a frame with contents, and no two PTEs share one. */
  ghost predicate FramesInv(pt: map<int, Pte>, mem: map<nat, Page>) {
    && (forall va :: va in pt ==> pt[va].frame in mem && |mem[pt[va].frame].bytes| == PGSIZE)
    && (forall va, vb :: va in pt && vb in pt && va != vb ==> pt[va].frame != pt[vb].frame)
  }

  ghost predicate ResidentInv(resident: seq<Resident>, pt: map<int, Pte>) {
    && (forall i :: 0 <= i < |resident| ==> resident[i].va in pt)
    && (forall i, j :: 0 <= i < j < |resident| ==> resident[i].va != resident[j].va)
  }

  ghost predicate SlotHolder(swapped: seq<Swapped>, k: nat) {
    exists i :: 0 <= i < |swapped| && swapped[i].slot == k
  }

  /** Swapped pages are unmapped, and slots in use match swapped pages one to one. */
  ghost predicate SwapInv(swapped: seq<Swapped>, slots: seq<bool>, size: nat, pt: map<int, Pte>) {
    && |slots| == MAX_SWAP_PAGES && size <= MAX_SWAP_PAGES
    && (forall i :: 0 <= i < |swapped| ==>
          swapped[i].va !in pt && swapped[i].slot < |slots| && slots[swapped[i].slot] && swapped[i].slot < size)
    && (forall i, j :: 0 <= i < j < |swapped| ==>
          swapped[i].va != swapped[j].va && swapped[i].slot != swapped[j].slot)
    && (forall k :: 0 <= k < |slots| && slots[k] ==> SlotHolder(swapped, k))
  }

  /** Pages that keep what is stored to them: all but those of writable executable segments. */
  predicate Safe(exec: map<int, Segment>, va: int) {
    va !in exec || !exec[va].writable
  }

  /** A safe page that is not dirty is write-protected and still has its initial contents. */
  ghost predicate CleanInv(resident: seq<Resident>, pt: map<int, Pte>, mem: map<nat, Page>, exec: map<int, Segment>)
    requires ResidentInv(resident, pt) && FramesInv(pt, mem)
  {
    forall i :: 0 <= i < |resident| && !resident[i].dirty && Safe(exec, resident[i].va) ==>
      !pt[resident[i].va].writable && mem[pt[resident[i].va].frame] == Initial(exec, resident[i].va)
  }

  ghost predicate SeqHolder(resident: seq<Resident>, n: int) {
    exists i :: 0 <= i < |resident| && resident[i].seqno == n
  }

  /** Victims so far are a prefix of the admissions; the resident pages are the rest. */
  ghost predicate FifoInv(resident: seq<Resident>, admitted: seq<Line>, victims: seq<Line>, nextSeq: int) {
    && nextSeq == |admitted|
    && victims <= admitted
    && (forall k :: 0 <= k < |admitted| ==> admitted[k].seqno == k + 1)
    && (forall i :: 0 <= i < |resident| ==>
          |victims| < resident[i].seqno <= |admitted| && admitted[resident[i].seqno - 1].va == resident[i].va)
    && (forall i, j :: 0 <= i < j < |resident| ==> resident[i].seqno != resident[j].seqno)
    && (forall n :: |victims| < n <= |admitted| ==> SeqHolder(resident, n))
  }

  /** Program image below the heap, heap below the break, every known page below the break. */
  ghost predicate LayoutInv(s: Proc) {
    && s.heapStart <= s.sz
    && (forall va :: va in s.exec ==> va < s.heapStart && |s.exec[va].image.bytes| == PGSIZE)
    && (forall va :: va in s.pt ==> va < s.sz)
    && (forall i :: 0 <= i < |s.swapped| ==> s.swapped[i].va < s.sz)
    && (forall k :: 0 <= k < |s.swapFile| ==> |s.swapFile[k].bytes| == PGSIZE)
  }

  /** The counter is the length of the list, and nothing was written outside the array. */
  predicate CountInv(s: Proc) {
    s.num == |s.resident| && s.outside == []
  }

  ghost predicate Inv(s: Proc) {
    && CountInv(s)
    && FramesInv(s.pt, s.mem) && FreeInv(s.pt, s.free)
    && ResidentInv(s.resident, s.pt)
    && SwapInv(s.swapped, s.slots, |s.swapFile|, s.pt)
    && CleanInv(s.resident, s.pt, s.mem, s.exec)
    && FifoInv(s.resident, s.admitted, s.victims, s.nextSeq)
    && LayoutInv(s)
  }

  // ---------------------------------------------------------------- list lemmas

  lemma {:induction false} OldestIsLeast(q: seq<Resident>, k: nat)
    requires 0 < k <= |q|
    ensures forall i :: 0 <= i < k ==> q[Oldest(q, k)].seqno <= q[i].seqno
  {
    if k > 1 {
      OldestIsLeast(q, k - 1);
    }
  }

  /** Where entry `j` of the shortened list comes from. */
  function DropFrom<T>(q: seq<T>, i: nat, j: nat): nat
    requires i < |q|
  {
    if j == i then |q| - 1 else j
  }

  lemma {:induction false} DropAtAt<T>(q: seq<T>, i: nat, j: nat)
    requires i < |q| && j < |q| - 1
    ensures |DropAt(q, i)| == |q| - 1 && DropAt(q, i)[j] == q[DropFrom(q, i, j)] && DropFrom(q, i, j) != i
  {
  }

  lemma {:induction false} DropSize<T>(q: seq<T>, i: nat)
    requires i < |q|
    ensures |DropAt(q, i)| == |q| - 1
  {
  }

  /** FIFO: the victim is the page admitted longest ago among those not yet evicted. */
  lemma {:induction false} VictimIsNext(s: Proc)
    requires Inv(s) && s.resident != []
    ensures |s.victims| < |s.admitted|
    ensures var r := s.resident[Oldest(s.resident, |s.resident|)];
      r.seqno == |s.victims| + 1 && Line(r.va, r.seqno) == s.admitted[|s.victims|]
  {
    OldestIsLeast(s.resident, |s.resident|);
    assert |s.victims| < s.resident[0].seqno <= |s.admitted|;
    assert SeqHolder(s.resident, |s.victims| + 1);
  }

  // ---------------------------------------------------------------- eviction

  lemma {:induction false} UnmapFrames(pt: map<int, Pte>, mem: map<nat, Page>, free: seq<nat>, va: int)
    requires FramesInv(pt, mem) && FreeInv(pt, free) && va in pt
    ensures FramesInv(pt - {va}, mem - {pt[va].frame})
    ensures FreeInv(pt - {va}, [pt[va].frame] + free)
  {
    var f := pt[va].frame;
    assert forall i :: 0 <= i < |free| ==> free[i] != f;
  }

  lemma {:induction false} DropResident(resident: seq<Resident>, pt: map<int, Pte>, v: nat)
    requires ResidentInv(resident, pt) && v < |resident|
    ensures ResidentInv(DropAt(resident, v), pt - {resident[v].va})
  {
    var q := DropAt(resident, v);
    forall i | 0 <= i < |q| ensures q[i].va in pt && q[i].va != resident[v].va {
      DropAtAt(resident, v, i);
    }
    forall i, j | 0 <= i < j < |q| ensures q[i].va != q[j].va {
      DropAtAt(resident, v, i);
      DropAtAt(resident, v, j);
    }
  }

  lemma {:induction false} DropCleanInv(
    resident: seq<Resident>, pt: map<int, Pte>, mem: map<nat, Page>, exec: map<int, Segment>, v: nat)
    requires ResidentInv(resident, pt) && FramesInv(pt, mem) && CleanInv(resident, pt, mem, exec) && v < |resident|
    requires ResidentInv(DropAt(resident, v), pt - {resident[v].va})
    requires FramesInv(pt - {resident[v].va}, mem - {pt[resident[v].va].frame})
    ensures CleanInv(DropAt(resident, v), pt - {resident[v].va}, mem - {pt[resident[v].va].frame}, exec)
  {
    var q := DropAt(resident, v);
    forall i | 0 <= i < |q|
      ensures q[i] in resident && q[i].va != resident[v].va
    {
      DropAtAt(resident, v, i);
    }
  }

  lemma {:induction false} SeqHolderKept(resident: seq<Resident>, v: nat, n: int)
    requires v < |resident| && SeqHolder(resident, n) && resident[v].seqno != n
    ensures SeqHolder(DropAt(resident, v), n)
  {
    hide DropAt;
    var q := DropAt(resident, v);
    DropSize(resident, v);
    var i :| 0 <= i < |resident| && resident[i].seqno == n;
    if i == |resident| - 1 {
      DropAtAt(resident, v, v);
      assert q[v].seqno == n;
    } else {
      DropAtAt(resident, v, i);
      assert q[i].seqno == n;
    }
  }

  /** The oldest page leaves: the victims stay a prefix of the admissions. */
  lemma {:induction false} FifoEvict(
    resident: seq<Resident>, admitted: seq<Line>, victims: seq<Line>, nextSeq: int, v: nat)
    requires FifoInv(resident, admitted, victims, nextSeq) && v < |resident|
    requires resident[v].seqno == |victims| + 1
    ensures FifoInv(DropAt(resident, v), admitted, victims + [Line(resident[v].va, resident[v].seqno)], nextSeq)
  {
    var q := DropAt(resident, v);
    forall i | 0 <= i < |q|
      ensures q[i] in resident && q[i].seqno != resident[v].seqno
    {
      DropAtAt(resident, v, i);
    }
    forall i, j | 0 <= i < j < |q| ensures q[i].seqno != q[j].seqno {
      DropAtAt(resident, v, i);
      DropAtAt(resident, v, j);
    }
    forall n | |victims| + 1 < n <= |admitted| ensures SeqHolder(q, n) {
      SeqHolderKept(resident, v, n);
    }
  }

  /** The lowest free slot never lies past the end of the swap file. */
  lemma {:induction false} SlotFits(swapped: seq<Swapped>, slots: seq<bool>, size: nat, pt: map<int, Pte>)
    requires SwapInv(swapped, slots, size, pt) && FreeSlot(slots, 0) < |slots|
    ensures FreeSlot(slots, 0) <= size
  {
    assert forall k :: 0 <= k < FreeSlot(slots, 0) ==> slots[k] && SlotHolder(swapped, k);
    assert !SlotHolder(swapped, size);
  }

  lemma {:induction false} SwapOutInv(
    swapped: seq<Swapped>, slots: seq<bool>, size: nat, pt: map<int, Pte>, va: int, k: nat)
    requires SwapInv(swapped, slots, size, pt) && va in pt && k < |slots| && !slots[k] && k <= size
    ensures SwapInv(swapped + [Swapped(va, k)], slots[k := true], if k == size then size + 1 else size, pt - {va})
  {
    var q := swapped + [Swapped(va, k)];
    forall j | 0 <= j < |slots| && slots[k := true][j] ensures SlotHolder(q, j) {
      if j == k {
        assert q[|swapped|].slot == j;
      } else {
        assert SlotHolder(swapped, j);
        var i :| 0 <= i < |swapped| && swapped[i].slot == j;
        assert q[i].slot == j;
      }
    }
  }

  lemma {:induction false} SwapShrink(swapped: seq<Swapped>, slots: seq<bool>, size: nat, pt: map<int, Pte>, va: int)
    requires SwapInv(swapped, slots, size, pt)
    ensures SwapInv(swapped, slots, size, pt - {va})
  {
  }

  // ---------------------------------------------------------------- the flat view

  /** What the process would read in page `va`: the frame, the swap slot, or the initial contents. */
  function PageAt(s: Proc, va: int): Page {
    if va in s.pt && s.pt[va].frame in s.mem then s.mem[s.pt[va].frame]
    else
      var i := FindSwapped(s.swapped, va, 0);
      if i < |s.swapped| && s.swapped[i].slot < |s.swapFile| then s.swapFile[s.swapped[i].slot]
      else Initial(s.exec, va)
  }

  /** Every safe page reads the same in both states. */
  ghost predicate SameView(s: Proc, r: Proc) {
    forall va :: Safe(s.exec, va) ==> PageAt(r, va) == PageAt(s, va)
  }

  lemma {:induction false} FindAppend(q: seq<Swapped>, e: Swapped, va: int)
    ensures FindSwapped(q, va, 0) < |q| ==> FindSwapped(q + [e], va, 0) == FindSwapped(q, va, 0)
    ensures FindSwapped(q, va, 0) == |q| && e.va != va ==> FindSwapped(q + [e], va, 0) == |q| + 1
    ensures FindSwapped(q, va, 0) == |q| && e.va == va ==> FindSwapped(q + [e], va, 0) == |q|
  {
    var r := FindSwapped(q + [e], va, 0);
    assert forall j :: 0 <= j < |q| ==> (q + [e])[j] == q[j];
    assert (q + [e])[|q|] == e;
  }

  /** Dropping an entry leaves the slots of all other pages alone. */
  lemma {:induction false} FindDropped(q: seq<Swapped>, i: nat, va: int)
    requires i < |q| && va != q[i].va && forall j, k :: 0 <= j < k < |q| ==> q[j].va != q[k].va
    ensures var d := DropAt(q, i);
      var a, b := FindSwapped(q, va, 0), FindSwapped(d, va, 0);
      if a == |q| then b == |d| else b < |d| && d[b] == q[a]
  {
    var d := DropAt(q, i);
    var a, b := FindSwapped(q, va, 0), FindSwapped(d, va, 0);
    forall j | 0 <= j < |d| ensures d[j] == q[DropFrom(q, i, j)] {
      DropAtAt(q, i, j);
    }
    if a < |q| {
      var at := if a == |q| - 1 then i else a;
      assert d[at] == q[a];
    }
  }

  /** A clean victim falls back to its initial contents; every other page is untouched. */
  lemma {:induction false} CleanPageAt(s: Proc, v: nat, w: int)
    requires Inv(s) && v < |s.resident|
    ensures PageAt(Unmap(s, v), w) == if w == s.resident[v].va then Initial(s.exec, w) else PageAt(s, w)
  {
    assert FindSwapped(s.swapped, s.resident[v].va, 0) == |s.swapped|;
    if w in s.pt && w != s.resident[v].va {
      assert s.pt[w].frame != s.pt[s.resident[v].va].frame;
    }
  }

  /** A dirty victim reads from its slot as it did from its frame. */
  lemma {:induction false} DirtyPageAt(s: Proc, v: nat, k: nat, file: seq<Page>, w: int)
    requires Inv(s) && v < |s.resident| && k < |s.slots| && !s.slots[k] && k <= |s.swapFile|
    requires SwapWrite(s.swapFile, k, s.mem[s.pt[s.resident[v].va].frame]) == Some(file)
    ensures PageAt(Unmap(SwapOut(s, s.resident[v].va, k, file), v), w) == PageAt(s, w)
  {
    hide CleanInv, FifoInv, FreeInv, LayoutInv, SlotHolder, DropAt, Initial;
    var va := s.resident[v].va;
    assert FindSwapped(s.swapped, va, 0) == |s.swapped|;
    FindAppend(s.swapped, Swapped(va, k), w);
    if w in s.pt && w != va {
      assert s.pt[w].frame != s.pt[va].frame;
    }
  }

  lemma {:induction false} UnmapKeeps(s: Proc, v: nat)
    requires Inv(s) && v < |s.resident| && s.resident[v].seqno == |s.victims| + 1
    ensures Inv(Unmap(Announce(s, v), v))
  {
    var va := s.resident[v].va;
    UnmapFrames(s.pt, s.mem, s.free, va);
    DropResident(s.resident, s.pt, v);
    DropCleanInv(s.resident, s.pt, s.mem, s.exec, v);
    FifoEvict(s.resident, s.admitted, s.victims, s.nextSeq, v);
    SwapShrink(s.swapped, s.slots, |s.swapFile|, s.pt, va);
  }

  lemma {:induction false} FrameSize(s: Proc, va: int)
    requires Inv(s) && va in s.pt
    ensures s.pt[va].frame in s.mem && |s.mem[s.pt[va].frame].bytes| == PGSIZE
  {
  }

  lemma {:induction false} SwapOutKeeps(s: Proc, v: nat, k: nat, file: seq<Page>)
    requires Inv(s) && v < |s.resident| && s.resident[v].seqno == |s.victims| + 1
    requires k < |s.slots| && !s.slots[k] && k <= |s.swapFile|
    requires SwapWrite(s.swapFile, k, s.mem[s.pt[s.resident[v].va].frame]) == Some(file)
    ensures Inv(Unmap(SwapOut(Announce(s, v), s.resident[v].va, k, file), v))
  {
    hide CleanInv, FifoInv, FramesInv, FreeInv, ResidentInv, SwapInv, DropAt;
    InvFacts(s);
    var va := s.resident[v].va;
    FrameSize(s, va);
    UnmapFrames(s.pt, s.mem, s.free, va);
    DropResident(s.resident, s.pt, v);
    DropCleanInv(s.resident, s.pt, s.mem, s.exec, v);
    FifoEvict(s.resident, s.admitted, s.victims, s.nextSeq, v);
    DropSize(s.resident, v);
    SwapOutInv(s.swapped, s.slots, |s.swapFile|, s.pt, va, k);
  }

  lemma {:induction false} CleanView(s: Proc, v: nat)
    requires Inv(s) && v < |s.resident| && !s.resident[v].dirty
    ensures SameView(s, Unmap(Announce(s, v), v))
  {
    forall w | Safe(s.exec, w) ensures PageAt(Unmap(Announce(s, v), v), w) == PageAt(s, w) {
      CleanPageAt(s, v, w);
    }
  }

  lemma {:induction false} DirtyView(s: Proc, v: nat, k: nat, file: seq<Page>)
    requires Inv(s) && v < |s.resident| && k < |s.slots| && !s.slots[k] && k <= |s.swapFile|
    requires SwapWrite(s.swapFile, k, s.mem[s.pt[s.resident[v].va].frame]) == Some(file)
    ensures SameView(s, Unmap(SwapOut(Announce(s, v), s.resident[v].va, k, file), v))
  {
    forall w
      ensures PageAt(Unmap(SwapOut(Announce(s, v), s.resident[v].va, k, file), v), w) == PageAt(s, w)
    {
      DirtyPageAt(s, v, k, file, w);
    }
  }

  lemma {:induction false} InvCount(s: Proc)
    requires Inv(s)
    ensures s.num == |s.resident| && s.outside == []
  {
  }

  lemma {:induction false} InvFacts(s: Proc)
    requires Inv(s)
    ensures |s.slots| == MAX_SWAP_PAGES && SwapInv(s.swapped, s.slots, |s.swapFile|, s.pt)
    ensures forall i :: 0 <= i < |s.resident| ==> s.resident[i].va in s.pt
    ensures forall va :: va in s.pt ==> s.pt[va].frame in s.mem
  {
  }

  /**
   evict_page: a surviving process keeps its invariant, gains a free frame, and
   every safe page still reads the same. It dies only if all slots are in use or
   the disk refuses the write; the swap file is never too short for the slot.
   */
  lemma {:induction false} EvictKeeps(s: Proc, diskOk: bool)
    requires Inv(s) && s.alive && s.resident != []
    ensures var r := Evict(s, diskOk);
      && (r.alive ==> Inv(r) && SameView(s, r) && r.free != [] && r.exec == s.exec && r.sz == s.sz)
      && (r.alive ==> r.nextSeq == s.nextSeq && r.heapStart == s.heapStart)
      && (!r.alive <==> s.resident[Oldest(s.resident, |s.resident|)].dirty
                        && (FreeSlot(s.slots, 0) == MAX_SWAP_PAGES || !diskOk))
  {
    var v := Oldest(s.resident, |s.resident|);
    var k := FreeSlot(s.slots, 0);
    InvFacts(s);
    VictimIsNext(s);
    hide Inv, SwapInv, PageAt;
    if !s.resident[v].dirty {
      UnmapKeeps(s, v);
      CleanView(s, v);
    } else if k < |s.slots| {
      SlotFits(s.swapped, s.slots, |s.swapFile|, s.pt);
      var file := SwapWrite(s.swapFile, k, s.mem[s.pt[s.resident[v].va].frame]).value;
      SwapOutKeeps(s, v, k, file);
      DirtyView(s, v, k, file);
    }
  }

  // ---------------------------------------------------------------- fault service

  lemma {:induction false} FifoAdmit(
    resident: seq<Resident>, admitted: seq<Line>, victims: seq<Line>, nextSeq: int, va: int, dirty: bool)
    requires FifoInv(resident, admitted, victims, nextSeq)
    ensures FifoInv(resident + [Resident(va, nextSeq + 1, dirty)], admitted + [Line(va, nextSeq + 1)], victims,
        nextSeq + 1)
  {
    var q := resident + [Resident(va, nextSeq + 1, dirty)];
    var a := admitted + [Line(va, nextSeq + 1)];
    assert victims <= a;
    forall n | |victims| < n <= |a| ensures SeqHolder(q, n) {
      if n == |a| {
        assert q[|resident|].seqno == n;
      } else {
        assert SeqHolder(resident, n);
        var i :| 0 <= i < |resident| && resident[i].seqno == n;
        assert q[i].seqno == n;
      }
    }
  }

  /** `frame` is in nobody's hands. */
  ghost predicate Spare(pt: map<int, Pte>, free: seq<nat>, frame: nat) {
    frame !in free && forall va :: va in pt ==> pt[va].frame != frame
  }

  lemma {:induction false} MapFrames(pt: map<int, Pte>, mem: map<nat, Page>, free: seq<nat>, va: int, frame: nat,
      p: Page, w: bool)
    requires FramesInv(pt, mem) && FreeInv(pt, free) && va !in pt && Spare(pt, free, frame) && |p.bytes| == PGSIZE
    ensures FramesInv(pt[va := Pte(frame, w)], mem[frame := p])
    ensures FreeInv(pt[va := Pte(frame, w)], free)
  {
  }

  lemma {:induction false} AdmitClean(
    resident: seq<Resident>, pt: map<int, Pte>, mem: map<nat, Page>, exec: map<int, Segment>,
    e: Resident, frame: nat, p: Page, w: bool)
    requires ResidentInv(resident, pt) && FramesInv(pt, mem) && CleanInv(resident, pt, mem, exec)
    requires e.va !in pt && (forall va :: va in pt ==> pt[va].frame != frame) && |p.bytes| == PGSIZE
    requires FramesInv(pt[e.va := Pte(frame, w)], mem[frame := p])
    requires !e.dirty && Safe(exec, e.va) ==> !w && p == Initial(exec, e.va)
    ensures ResidentInv(resident + [e], pt[e.va := Pte(frame, w)])
    ensures CleanInv(resident + [e], pt[e.va := Pte(frame, w)], mem[frame := p], exec)
  {
    assert forall i :: 0 <= i < |resident| ==> (resident + [e])[i] == resident[i];
  }

  lemma {:induction false} BringKeeps(s: Proc, va: int, frame: nat, p: Page, w: bool, dirty: bool)
    requires Inv(s) && va !in s.pt && Spare(s.pt, s.free, frame) && |p.bytes| == PGSIZE && va < s.sz
    requires FindSwapped(s.swapped, va, 0) == |s.swapped|
    requires !dirty && Safe(s.exec, va) ==> !w && p == Initial(s.exec, va)
    requires |s.resident| < MAX_RESIDENT_PAGES
    ensures Inv(Bring(s, va, frame, p, w, dirty))
  {
    hide CleanInv, FifoInv, FramesInv, FreeInv, ResidentInv, SlotHolder, Initial;
    MapFrames(s.pt, s.mem, s.free, va, frame, p, w);
    FifoAdmit(s.resident, s.admitted, s.victims, s.nextSeq, va, dirty);
    AdmitClean(s.resident, s.pt, s.mem, s.exec, Resident(va, s.nextSeq + 1, dirty), frame, p, w);
  }

  lemma {:induction false} BringView(s: Proc, va: int, frame: nat, p: Page, w: bool, dirty: bool)
    requires Inv(s) && va !in s.pt && Spare(s.pt, s.free, frame)
    ensures var r := Bring(s, va, frame, p, w, dirty);
      PageAt(r, va) == p && forall x :: x != va ==> PageAt(r, x) == PageAt(s, x)
  {
  }

  /** Dropping the entry of one slot keeps a holder for every other slot. */
  lemma {:induction false} HolderKept(swapped: seq<Swapped>, i: nat, k: nat)
    requires i < |swapped| && SlotHolder(swapped, k) && swapped[i].slot != k
    ensures SlotHolder(DropAt(swapped, i), k)
  {
    var j :| 0 <= j < |swapped| && swapped[j].slot == k;
    assert DropAt(swapped, i)[if j == |swapped| - 1 then i else j].slot == k;
  }

  /** The swapped entry and its slot are given back together. */
  lemma {:induction false} SwapInInv(swapped: seq<Swapped>, slots: seq<bool>, size: nat, pt: map<int, Pte>, i: nat)
    requires SwapInv(swapped, slots, size, pt) && i < |swapped|
    ensures SwapInv(DropAt(swapped, i), slots[swapped[i].slot := false], size, pt)
    ensures FindSwapped(DropAt(swapped, i), swapped[i].va, 0) == |swapped| - 1
  {
    var q := DropAt(swapped, i);
    forall j | 0 <= j < |q| ensures q[j] == swapped[DropFrom(swapped, i, j)] && DropFrom(swapped, i, j) != i {
      DropAtAt(swapped, i, j);
    }
    forall k | 0 <= k < |slots| && slots[swapped[i].slot := false][k] ensures SlotHolder(q, k) {
      HolderKept(swapped, i, k);
    }
  }

  function ForgetSwapped(s: Proc, i: nat): Proc
    requires i < |s.swapped| && s.swapped[i].slot < |s.slots|
  {
    s.(swapped := DropAt(s.swapped, i), slots := s.slots[s.swapped[i].slot := false])
  }

  lemma {:induction false} ForgetKeeps(s: Proc, i: nat)
    requires Inv(s) && i < |s.swapped|
    ensures Inv(ForgetSwapped(s, i))
    ensures FindSwapped(ForgetSwapped(s, i).swapped, s.swapped[i].va, 0) == |s.swapped| - 1
  {
    SwapInInv(s.swapped, s.slots, |s.swapFile|, s.pt, i);
    forall j | 0 <= j < |s.swapped| - 1 ensures DropAt(s.swapped, i)[j].va < s.sz {
      DropAtAt(s.swapped, i, j);
    }
  }

  lemma {:induction false} ForgetView(s: Proc, i: nat, va: int)
    requires Inv(s) && i < |s.swapped| && va != s.swapped[i].va
    ensures PageAt(ForgetSwapped(s, i), va) == PageAt(s, va)
  {
    FindDropped(s.swapped, i, va);
  }

  lemma {:induction false} SwappedPage(s: Proc, i: nat)
    requires Inv(s) && i < |s.swapped|
    ensures s.swapped[i].va < s.sz && s.swapped[i].slot < |s.swapFile|
    ensures |s.swapFile[s.swapped[i].slot].bytes| == PGSIZE
    ensures FindSwapped(s.swapped, s.swapped[i].va, 0) == i ==>
        PageAt(s, s.swapped[i].va) == s.swapFile[s.swapped[i].slot]
  {
  }

  lemma {:induction false} SwapInKeeps(s: Proc, va: int, frame: nat)
    requires Inv(s) && Spare(s.pt, s.free, frame) && FindSwapped(s.swapped, va, 0) < |s.swapped|
    requires s.alive && |s.resident| < MAX_RESIDENT_PAGES
    ensures var r := Serve(s, va, frame, true).proc;
      r == Serve(s, va, frame, false).proc && Inv(r) && SameView(s, r)
  {
    hide Inv, PageAt, Spare;
    InvCount(s);
    SwapInFacts(s, va);
    var i := FindSwapped(s.swapped, va, 0);
    SwappedPage(s, i);
    var p := s.swapFile[s.swapped[i].slot];
    ForgetKeeps(s, i);
    var f := ForgetSwapped(s, i);
    BringKeeps(f, va, frame, p, false, true);
    BringView(f, va, frame, p, false, true);
    forall x | x != va ensures PageAt(f, x) == PageAt(s, x) {
      ForgetView(s, i, x);
    }
  }

  lemma {:induction false} LoadKeeps(s: Proc, va: int, frame: nat)
    requires Inv(s) && Spare(s.pt, s.free, frame) && FindSwapped(s.swapped, va, 0) == |s.swapped|
    requires va !in s.pt && (va < s.heapStart || va < s.sz)
    requires s.alive && |s.resident| < MAX_RESIDENT_PAGES
    ensures var r := Serve(s, va, frame, true).proc; Inv(r) && SameView(s, r)
  {
    var w := va in s.exec && s.exec[va].writable;
    BringKeeps(s, va, frame, Initial(s.exec, va), w, false);
    BringView(s, va, frame, Initial(s.exec, va), w, false);
  }

  lemma {:induction false} GiveBack(s: Proc, frame: nat)
    requires Inv(s) && Spare(s.pt, s.free, frame)
    ensures Inv(s.(free := [frame] + s.free)) && SameView(s, s.(free := [frame] + s.free))
  {
  }

  lemma {:induction false} SwapInFacts(s: Proc, va: int)
    requires Inv(s) && FindSwapped(s.swapped, va, 0) < |s.swapped|
    ensures var k := s.swapped[FindSwapped(s.swapped, va, 0)].slot; k < |s.slots| && k < |s.swapFile|
    ensures va !in s.pt
  {
  }

  /** handle_pgfault with a frame in hand: the invariant and every safe page survive. */
  lemma {:induction false} ServeKeeps(s: Proc, va: int, frame: nat, mapOk: bool)
    requires Inv(s) && s.alive && Spare(s.pt, s.free, frame)
    ensures var r := Serve(s, va, frame, mapOk);
      && (r.proc.alive ==> Inv(r.proc) && SameView(s, r.proc) && r.proc.exec == s.exec)
      && (r.proc.alive && r.ok ==> va in r.proc.pt)
  {
    hide Inv, PageAt, Spare;
    InvCount(s);
    GiveBack(s, frame);
    if FindSwapped(s.swapped, va, 0) < |s.swapped| {
      SwapInFacts(s, va);
      if |s.resident| < MAX_RESIDENT_PAGES {
        SwapInKeeps(s, va, frame);
      }
    } else if va !in s.pt && (va < s.heapStart || va < s.sz) && |s.resident| < MAX_RESIDENT_PAGES {
      LoadKeeps(s, va, frame);
    }
  }

  // ---------------------------------------------------------------- every step

  lemma {:induction false} TakeFrame(s: Proc)
    requires Inv(s) && s.free != []
    ensures var r := s.(free := s.free[1..]);
      Inv(r) && SameView(s, r) && Spare(s.pt, r.free, s.free[0])
  {
  }

  lemma {:induction false} FaultKeeps(s: Proc, addr: int, mapOk: bool, diskOk: bool)
    requires Inv(s) && s.alive && Backed(s)
    ensures var r := Fault(s, addr, mapOk, diskOk);
      && (r.proc.alive ==> Inv(r.proc) && SameView(s, r.proc) && r.proc.exec == s.exec)
      && (r.proc.alive && r.ok ==> PageDown(addr) in r.proc.pt)
  {
    hide Inv, PageAt, Spare, Serve, Evict;
    if addr < MAXVA {
      if s.free == [] {
        EvictKeeps(s, diskOk);
      }
      var s1 := Room(s, diskOk);
      if s1.alive {
        TakeFrame(s1);
        ServeKeeps(s1.(free := s1.free[1..]), PageDown(addr), s1.free[0], mapOk);
      }
    }
  }

  /** Marking a page dirty changes neither the addresses nor the ages in the resident list. */
  lemma {:induction false} MarkDirty(s: Proc, i: nat)
    requires Inv(s) && i < |s.resident|
    ensures var q := s.resident[i := s.resident[i].(dirty := true)];
      && ResidentInv(q, s.pt) && FifoInv(q, s.admitted, s.victims, s.nextSeq) && CleanInv(q, s.pt, s.mem, s.exec)
      && forall j :: 0 <= j < |q| && q[j].va == q[i].va ==> q[j].dirty
  {
    hide FramesInv, FreeInv, SwapInv, LayoutInv;
    var q := s.resident[i := s.resident[i].(dirty := true)];
    assert forall j :: 0 <= j < |q| ==> q[j].va == s.resident[j].va && q[j].seqno == s.resident[j].seqno;
    forall n | |s.victims| < n <= |s.admitted| ensures SeqHolder(q, n) {
      assert SeqHolder(s.resident, n);
      var j :| 0 <= j < |s.resident| && s.resident[j].seqno == n;
      assert q[j].seqno == n;
    }
  }

  /** Granting write permission to a page with no clean entry keeps the clean pages protected. */
  lemma {:induction false} GrantWrite(
    q: seq<Resident>, pt: map<int, Pte>, mem: map<nat, Page>, exec: map<int, Segment>, va: int)
    requires ResidentInv(q, pt) && FramesInv(pt, mem) && CleanInv(q, pt, mem, exec) && va in pt
    requires forall i :: 0 <= i < |q| && q[i].va == va ==> q[i].dirty
    ensures var pt' := pt[va := pt[va].(writable := true)];
      ResidentInv(q, pt') && FramesInv(pt', mem) && CleanInv(q, pt', mem, exec)
  {
  }

  lemma {:induction false} TrapView(s: Proc, addr: int)
    requires PageDown(addr) in s.pt
    ensures SameView(s, WriteTrap(s, addr))
  {
    hide FindResident, Initial;
  }

  lemma {:induction false} TrapKeeps(s: Proc, addr: int)
    requires Inv(s) && PageDown(addr) in s.pt
    ensures var r := WriteTrap(s, addr); r.alive ==> Inv(r) && SameView(s, r)
  {
    hide CleanInv, FifoInv, FramesInv, ResidentInv, SlotHolder, SameView, PageAt;
    var va := PageDown(addr);
    TrapView(s, addr);
    var i := FindResident(s.resident, va, 0);
    if i < |s.resident| {
      MarkDirty(s, i);
      var q := s.resident[i := s.resident[i].(dirty := true)];
      GrantWrite(q, s.pt, s.mem, s.exec, va);
    } else {
      GrantWrite(s.resident, s.pt, s.mem, s.exec, va);
    }
  }

  /** A byte lands in the page it addresses and nowhere else. */
  lemma {:induction false} StoreKeeps(s: Proc, addr: int, b: int)
    requires Inv(s) && PageDown(addr) in s.pt && s.pt[PageDown(addr)].writable
    ensures var r := Store(s, addr, b); var va := PageDown(addr);
      && Inv(r)
      && PageAt(r, va) == PutByte(PageAt(s, va), addr % PGSIZE, b)
      && forall w :: w != va ==> PageAt(r, w) == PageAt(s, w)
  {
    var r := Store(s, addr, b);
    assert FramesInv(r.pt, r.mem);
    assert CleanInv(r.resident, r.pt, r.mem, r.exec);
  }

  // ---------------------------------------------------------------- runs

  /** The state after a run of steps, if each can be taken in turn. */
  function Exec(s: Proc, ls: seq<Step>): Option<Proc> {
    if ls == [] then Some(s)
    else match Exec(s, Init(ls))
      case None => None
      case Some(m) => if Enabled(m, Last(ls)) then Some(Apply(m, Last(ls))) else None
  }

  /** If the step is a fault that needs a frame, there is one free or a page to evict. */
  predicate Feeds(s: Proc, l: Step) {
    l.Touch? && l.addr < MAXVA ==> Backed(s)
  }

  /** Every fault of a run finds a free frame or a page to evict. */
  predicate Fed(s: Proc, ls: seq<Step>)
    requires Exec(s, ls).Some?
  {
    ls == [] || (Fed(s, Init(ls)) && Feeds(Exec(s, Init(ls)).value, Last(ls)))
  }

  /** Page `va` of a flat memory after the stores of a run. */
  function Stores(ls: seq<Step>, va: int, p: Page): Page {
    if ls == [] then p
    else
      var q := Stores(Init(ls), va, p);
      match Last(ls)
      case Write(addr, b) => if PageDown(addr) == va then PutByte(q, addr % PGSIZE, b) else q
      case _ => q
  }

  lemma {:induction false} StepFlat(s: Proc, l: Step, va: int)
    requires Inv(s) && Enabled(s, l) && Feeds(s, l)
    ensures var r := Apply(s, l);
      && (r.alive ==> Inv(r) && r.exec == s.exec)
      && (r.alive && Safe(s.exec, va) ==> PageAt(r, va) == Stores([l], va, PageAt(s, va)))
  {
    hide Inv, PageAt, Fault;
    assert Init([l]) == [];
    match l
    case Touch(addr, user, mapOk, diskOk, late, below) => if Backed(s) { FaultKeeps(s, addr, mapOk, diskOk); }
    case Trap(addr) => TrapKeeps(s, addr);
    case Write(addr, b) => StoreKeeps(s, addr, b);
    case Grow(n) => GrowKeeps(s, n, va);
    case Others(free) => OthersKeep(s, free, va);
  }

  lemma {:induction false} GrowKeeps(s: Proc, n: nat, va: int)
    requires Inv(s)
    ensures Inv(s.(sz := s.sz + n)) && PageAt(s.(sz := s.sz + n), va) == PageAt(s, va)
  {
  }

  lemma {:induction false} OthersKeep(s: Proc, free: seq<nat>, va: int)
    requires Inv(s) && FreeInv(s.pt, free)
    ensures Inv(s.(free := free)) && PageAt(s.(free := free), va) == PageAt(s, va)
  {
  }

  /**
   Demand paging is flat memory: after any run of faults, evictions, swap-ins,
   traps, stores and growth, every safe page reads as the stores of the run left it.
   */
  lemma {:induction false} RunFlat(s: Proc, ls: seq<Step>, va: int)
    requires Inv(s) && Exec(s, ls).Some? && Exec(s, ls).value.alive && Fed(s, ls)
    ensures var r := Exec(s, ls).value;
      Inv(r) && r.exec == s.exec && (Safe(s.exec, va) ==> PageAt(r, va) == Stores(ls, va, PageAt(s, va)))
  {
    if ls != [] {
      var m := Exec(s, Init(ls)).value;
      RunFlat(s, Init(ls), va);
      StepFlat(m, Last(ls), va);
      hide Inv, Apply, PageAt;
      assert Init([Last(ls)]) == [];
    }
  }

  /** The byte last stored at `addr` in a run. */
  function LastByte(ls: seq<Step>, addr: int): Option<int> {
    if ls == [] then None
    else if Last(ls).Write? && Last(ls).addr == addr then Some(Last(ls).b)
    else LastByte(Init(ls), addr)
  }

  lemma {:induction false} StoresLast(ls: seq<Step>, addr: int, p: Page)
    requires |p.bytes| == PGSIZE
    ensures var q := Stores(ls, PageDown(addr), p);
      && |q.bytes| == PGSIZE
      && q.bytes[addr % PGSIZE] ==
         match LastByte(ls, addr) case Some(b) => b case None => p.bytes[addr % PGSIZE]
  {
    if ls != [] {
      StoresLast(Init(ls), addr, p);
      if Last(ls).Write? {
        var a := Last(ls).addr;
        assert PageDown(a) == PageDown(addr) && a % PGSIZE == addr % PGSIZE ==> a == addr;
      }
    }
  }

  /** A process as kexec leaves it: stack pages mapped, nothing resident, nothing swapped. */
  ghost predicate Fresh(s: Proc) {
    && s.alive && s.resident == [] && s.swapped == [] && s.admitted == [] && s.victims == [] && s.nextSeq == 0
    && CountInv(s)
    && |s.slots| == MAX_SWAP_PAGES && (forall k :: 0 <= k < |s.slots| ==> !s.slots[k])
    && |s.swapFile| <= MAX_SWAP_PAGES
    && FramesInv(s.pt, s.mem) && FreeInv(s.pt, s.free) && LayoutInv(s)
  }

  lemma {:induction false} FreshInv(s: Proc)
    requires Fresh(s)
    ensures Inv(s)
  {
  }

  /** A heap page that is mapped after any run holds, at each address, the last byte stored there, or zero. */
  lemma {:induction false} HeapReadsLastStore(s: Proc, ls: seq<Step>, addr: int)
    requires Fresh(s) && Exec(s, ls).Some? && Exec(s, ls).value.alive && Fed(s, ls)
    requires PageDown(addr) !in s.exec && PageDown(addr) !in s.pt
    requires PageDown(addr) in Exec(s, ls).value.pt
    ensures var r := Exec(s, ls).value; var pte := r.pt[PageDown(addr)];
      && pte.frame in r.mem && |r.mem[pte.frame].bytes| == PGSIZE
      && r.mem[pte.frame].bytes[addr % PGSIZE] == if LastByte(ls, addr).Some? then LastByte(ls, addr).value else 0
  {
    FreshInv(s);
    RunFlat(s, ls, PageDown(addr));
    StoresLast(ls, addr, ZeroPage());
    assert PageAt(s, PageDown(addr)) == ZeroPage();
  }

  lemma {:induction false} InvFifo(s: Proc)
    requires Inv(s)
    ensures FifoInv(s.resident, s.admitted, s.victims, s.nextSeq)
  {
  }

  /** FIFO over a whole run: pages leave in exactly the order in which they became resident. */
  lemma {:induction false} RunFifo(s: Proc, ls: seq<Step>)
    requires Fresh(s) && Exec(s, ls).Some? && Exec(s, ls).value.alive && Fed(s, ls)
    ensures var r := Exec(s, ls).value;
      && r.victims <= r.admitted && |r.admitted| == |r.victims| + |r.resident|
      && (forall k :: 0 <= k < |r.admitted| ==> r.admitted[k].seqno == k + 1)
  {
    hide Inv, Fresh, Exec, Fed, PageAt, Stores;
    FreshInv(s);
    RunFlat(s, ls, 0);
    var r := Exec(s, ls).value;
    InvFifo(r);
    var ages := set i | 0 <= i < |r.resident| :: r.resident[i].seqno;
    var span := Span(|r.victims|, |r.admitted|);
    assert ages == span by {
      forall n | n in span ensures n in ages {
        assert SeqHolder(r.resident, n);
      }
    }
    AgesSize(r.resident, |r.resident|);
  }

  lemma {:induction false} AgesSize(q: seq<Resident>, k: nat)
    requires k <= |q| && forall i, j :: 0 <= i < j < |q| ==> q[i].seqno != q[j].seqno
    ensures |set i | 0 <= i < k :: q[i].seqno| == k
  {
    var a := set i | 0 <= i < k :: q[i].seqno;
    if k > 0 {
      AgesSize(q, k - 1);
      var c := set i | 0 <= i < k - 1 :: q[i].seqno;
      assert a == c + {q[k - 1].seqno};
    } else {
      assert a == {};
    }
  }

  function Span(lo: int, hi: int): (r: set<int>)
    requires lo <= hi
    ensures |r| == hi - lo && forall n :: n in r <==> lo < n <= hi
    decreases hi - lo
  {
    if lo == hi then {} else Span(lo, hi - 1) + {hi}
  }

  lemma {:induction false} SlotsSize(q: seq<Swapped>, n: nat)
    requires forall i, j :: 0 <= i < j < |q| ==> q[i].slot != q[j].slot
    requires forall i :: 0 <= i < |q| ==> q[i].slot < n
    ensures |q| <= n
    decreases n
  {
    if i :| 0 <= i < |q| && q[i].slot == n - 1 {
      SlotsSize(q[..i] + q[i + 1..], n - 1);
    } else if q != [] {
      assert q[0].slot < n;
      SlotsSize(q, n - 1);
    }
  }

  /**
   Bookkeeping after any run: no page is both resident and swapped, none is listed
   twice, the swapped list has room for one more entry whenever a slot is free, and
   a swap write at the lowest free slot is in range for the swap file.
   */
  lemma {:induction false} RunBookkeeping(s: Proc, ls: seq<Step>)
    requires Fresh(s) && Exec(s, ls).Some? && Exec(s, ls).value.alive && Fed(s, ls)
    ensures var r := Exec(s, ls).value;
      && (forall i, j :: 0 <= i < |r.resident| && 0 <= j < |r.swapped| ==> r.resident[i].va != r.swapped[j].va)
      && (forall i, j :: 0 <= i < j < |r.resident| ==> r.resident[i].va != r.resident[j].va)
      && (forall i, j :: 0 <= i < j < |r.swapped| ==> r.swapped[i].va != r.swapped[j].va)
      && |r.swapped| <= MAX_SWAP_PAGES == |r.slots|
      && (forall k :: 0 <= k < |r.slots| ==> (r.slots[k] <==> SlotHolder(r.swapped, k)))
      && (FreeSlot(r.slots, 0) < MAX_SWAP_PAGES ==>
            |r.swapped| < MAX_SWAP_PAGES && FreeSlot(r.slots, 0) <= |r.swapFile|)
  {
    FreshInv(s);
    RunFlat(s, ls, 0);
    var r := Exec(s, ls).value;
    SlotsSize(r.swapped, MAX_SWAP_PAGES);
    var k := FreeSlot(r.slots, 0);
    if k < MAX_SWAP_PAGES {
      SlotFits(r.swapped, r.slots, |r.swapFile|, r.pt);
      if |r.swapped| == MAX_SWAP_PAGES {
        var q := r.swapped + [Swapped(0, k)];
        SlotsSize(q, MAX_SWAP_PAGES);
      }
    }
  }

  // ------------------------------------------------- faults with nothing to evict

  /** The list is what the counter says, as far as a list can be: a counter below zero goes with an empty list. */
  predicate Loose(s: Proc) {
    |s.resident| == if s.num > 0 then s.num else 0
  }

  /** The counter has gone below zero, or an entry was written outside the array. */
  predicate Broken(s: Proc) {
    s.num < 0 || s.outside != []
  }

  lemma {:induction false} ServeCounts(s: Proc, va: int, frame: nat, mapOk: bool)
    requires Loose(s)
    ensures var r := Serve(s, va, frame, mapOk).proc; Loose(r) && (Broken(s) ==> Broken(r))
  {
  }

  lemma {:induction false} EvictCounts(s: Proc, diskOk: bool)
    requires Loose(s) && s.resident != []
    ensures var r := Evict(s, diskOk); Loose(r) && (Broken(s) ==> Broken(r))
  {
    hide Oldest, FreeSlot, SwapWrite;
    var v := Oldest(s.resident, |s.resident|);
    assert |DropAt(s.resident, v)| == |s.resident| - 1;
  }

  lemma {:induction false} StaleCounts(s: Proc, diskOk: bool, below: Resident)
    requires Loose(s) && s.resident == []
    ensures var r := EvictStale(s, diskOk, below); Loose(r) && (r.alive ==> Broken(r)) && (Broken(s) ==> Broken(r))
  {
  }

  lemma {:induction false} FaultCounts(s: Proc, addr: int, mapOk: bool, diskOk: bool, late: seq<nat>, below: Resident)
    requires Loose(s) && s.alive
    ensures var r := AnyFault(s, addr, mapOk, diskOk, late, below).proc;
      && Loose(r) && (Broken(s) ==> Broken(r))
      && (r.alive && addr < MAXVA && !Backed(s) ==> Broken(r))
  {
    hide Serve, Evict, EvictStale;
    if Backed(s) {
      if s.free == [] {
        EvictCounts(s, diskOk);
      }
      var s1 := Room(s, diskOk);
      if s1.alive && s1.free != [] {
        ServeCounts(s1.(free := s1.free[1..]), PageDown(addr), s1.free[0], mapOk);
      }
    } else {
      StaleCounts(s, diskOk, below);
      var s1 := EvictStale(s, diskOk, below);
      var free := s1.free + late;
      if s1.alive && free != [] {
        ServeCounts(s1.(free := free[1..]), PageDown(addr), free[0], mapOk);
      }
    }
  }

  lemma {:induction false} StepCounts(s: Proc, l: Step)
    requires Loose(s) && Enabled(s, l)
    ensures var r := Apply(s, l);
      Loose(r) && (Broken(s) ==> Broken(r)) && (r.alive && !Feeds(s, l) ==> Broken(r))
  {
    if l.Touch? {
      hide AnyFault;
      FaultCounts(s, l.addr, l.mapOk, l.diskOk, l.late, l.below);
    } else {
      hide AnyFault, FindResident;
    }
  }

  /**
   A fault keeps the bookkeeping exactly if a frame is free or the resident list is not empty; otherwise, if the
   kernel goes on at all, the counter is below zero or an entry has been written outside the array.
   */
  lemma {:induction false} FaultCountsIff(s: Proc, addr: int, mapOk: bool, diskOk: bool, late: seq<nat>,
      below: Resident)
    requires Inv(s) && s.alive && addr < MAXVA && AnyFault(s, addr, mapOk, diskOk, late, below).proc.alive
    ensures var r := AnyFault(s, addr, mapOk, diskOk, late, below).proc;
      (Inv(r) <==> Backed(s)) && (CountInv(r) <==> Backed(s))
  {
    if Backed(s) {
      FaultKeeps(s, addr, mapOk, diskOk);
    }
    FaultCounts(s, addr, mapOk, diskOk, late, below);
    hide AnyFault;
  }

  /** Over a whole run: the counter is right at the end exactly if every fault found a frame or a page to evict. */
  lemma {:induction false} RunCountsIff(s: Proc, ls: seq<Step>)
    requires Fresh(s) && Exec(s, ls).Some? && Exec(s, ls).value.alive
    ensures Fed(s, ls) <==> CountInv(Exec(s, ls).value)
  {
    RunBroken(s, ls);
    if Fed(s, ls) {
      FreshInv(s);
      RunFlat(s, ls, 0);
    }
  }

  lemma {:induction false} RunBroken(s: Proc, ls: seq<Step>)
    requires Loose(s) && Exec(s, ls).Some? && Exec(s, ls).value.alive
    ensures Loose(Exec(s, ls).value) && (!Fed(s, ls) ==> Broken(Exec(s, ls).value))
  {
    if ls != [] {
      var m := Exec(s, Init(ls)).value;
      RunBroken(s, Init(ls));
      StepCounts(m, Last(ls));
      hide Apply, Feeds;
    }
  }

  /**
   The first fault of a fresh process when no frame is free: the kernel panics, or, if another process frees a
   frame in time, the page is mapped but not listed, so that it can never be evicted.
   */
  lemma {:induction false} FirstFaultStarved(s: Proc, addr: int, f: nat, below: Resident)
    requires Fresh(s) && s.free == [] && !s.slot0.dirty && s.slot0.va !in s.pt
    requires 0 <= addr < MAXVA && PageDown(addr) !in s.pt && PageDown(addr) < s.sz
    ensures !AnyFault(s, addr, true, true, [], below).proc.alive
    ensures var r := AnyFault(s, addr, true, true, [f], below).proc;
      && r.alive && PageDown(addr) in r.pt && r.resident == [] && r.num == 0
      && r.outside == [Resident(PageDown(addr), 1, false)]
  {
  }

  // ------------------------------------------------- writable program segments

  lemma {:induction false} EvictDirtyPage(s: Proc, diskOk: bool, va: int)
    requires Inv(s) && s.alive && s.resident != [] && Evict(s, diskOk).alive
    requires s.resident[Oldest(s.resident, |s.resident|)].dirty
    ensures PageAt(Evict(s, diskOk), va) == PageAt(s, va)
  {
    hide Inv, SwapInv, Initial, DropAt;
    var v := Oldest(s.resident, |s.resident|);
    InvFacts(s);
    SlotFits(s.swapped, s.slots, |s.swapFile|, s.pt);
    var k := FreeSlot(s.slots, 0);
    var file := SwapWrite(s.swapFile, k, s.mem[s.pt[s.resident[v].va].frame]).value;
    DirtyPageAt(s, v, k, file, va);
  }

  lemma {:induction false} EvictCleanPage(s: Proc, diskOk: bool, va: int)
    requires Inv(s) && s.alive && s.resident != [] && !s.resident[Oldest(s.resident, |s.resident|)].dirty
    ensures var v := s.resident[Oldest(s.resident, |s.resident|)];
      PageAt(Evict(s, diskOk), va) == if v.va == va then Initial(s.exec, va) else PageAt(s, va)
  {
    hide Inv, Initial, DropAt;
    CleanPageAt(s, Oldest(s.resident, |s.resident|), va);
  }

  /**
   evict_page preserves a page exactly when it is not the victim, or the victim is
   marked dirty, or it still has its initial contents. Pages of writable program
   segments are mapped writable at once, so a store to one never marks it dirty.
   */
  lemma {:induction false} EvictPreservesIff(s: Proc, diskOk: bool, va: int)
    requires Inv(s) && s.alive && s.resident != [] && Evict(s, diskOk).alive
    ensures var v := s.resident[Oldest(s.resident, |s.resident|)];
      PageAt(Evict(s, diskOk), va) == PageAt(s, va) <==>
      (v.va != va || v.dirty || PageAt(s, va) == Initial(s.exec, va))
  {
    hide Inv, SwapInv, PageAt, Initial, Evict;
    var v := Oldest(s.resident, |s.resident|);
    if s.resident[v].dirty {
      EvictDirtyPage(s, diskOk, va);
    } else {
      EvictCleanPage(s, diskOk, va);
    }
  }

  /** The three steps after which a store to a writable program segment is gone. */
  function LosingRun(va: int, b: int, w: int): seq<Step> {
    var none := Resident(0, 0, false);
    [Touch(va, true, true, true, [], none), Write(va, b), Touch(w, true, true, true, [], none)]
  }

  lemma {:induction false} LostByte(va: int, b: int, w: int)
    requires va % PGSIZE == 0
    ensures LastByte(LosingRun(va, b, w), va) == Some(b)
  {
    var ls := LosingRun(va, b, w);
    assert Init(ls) == ls[..2] && Last(ls).Touch?;
    assert Last(ls[..2]) == Write(va, b);
  }

  /**
   Flat memory is false of writable program segments: with one free frame, load
   such a page, store to it, and touch another page. The store is lost.
   */
  lemma {:induction false} ProgramDataCanBeLost(s: Proc, va: int, b: int, w: int, f: nat)
    requires Fresh(s) && s.free == [f] && 0 <= va && 0 <= w < MAXVA && va < MAXVA
    requires va % PGSIZE == 0 && w % PGSIZE == 0 && va != w && va !in s.pt && w !in s.pt && w < s.sz
    requires va in s.exec && s.exec[va].writable && s.exec[va].image.bytes[0] != b
    ensures var ls := LosingRun(va, b, w);
      && Exec(s, ls).Some? && Fed(s, ls) && Exec(s, ls).value.alive && LastByte(ls, va) == Some(b)
      && PageAt(Exec(s, ls).value, va) == s.exec[va].image
  {
    hide Inv, Touched, Fresh, PageAt, Fault;
    var ls := LosingRun(va, b, w);
    LoadAndStore(s, va, b, w, f);
    assert Init(ls) == ls[..2];
    LostByEviction(Exec(s, ls[..2]).value, va, w);
    LostByte(va, b, w);
  }

  lemma {:induction false} LoadAndStore(s: Proc, va: int, b: int, w: int, f: nat)
    requires Fresh(s) && s.free == [f] && 0 <= va < MAXVA && va % PGSIZE == 0 && va !in s.pt
    requires va in s.exec && s.exec[va].writable
    ensures var m := Exec(s, LosingRun(va, b, w)[..2]);
      && m.Some? && Fed(s, LosingRun(va, b, w)[..2]) && Inv(m.value) && CanFault(m.value) && m.value.free == []
          && m.value.swapped == []
      && m.value.resident == [Resident(va, 1, false)] && m.value.exec == s.exec && m.value.sz == s.sz
      && m.value.pt.Keys == s.pt.Keys + {va}
  {
    hide Inv, PageAt, Stores, SwapInv;
    var ls := LosingRun(va, b, w);
    var s1 := Bring(s.(free := []), va, f, s.exec[va].image, true, false);
    assert Apply(s, ls[0]) == s1;
    assert Init(ls[..1]) == [] && Init(ls[..2]) == ls[..1];
    assert Exec(s, ls[..1]) == Some(s1);
    assert Exec(s, ls[..2]) == Some(Store(s1, va, b));
    assert Fed(s, []) && Fed(s, ls[..1]) && Fed(s, ls[..2]);
    FreshInv(s);
    RunFlat(s, ls[..2], va);
  }

  lemma {:induction false} LostByEviction(s: Proc, va: int, w: int)
    requires Inv(s) && CanFault(s) && s.free == [] && |s.resident| == 1 && s.resident[0].va == va
    requires !s.resident[0].dirty && 0 <= w < MAXVA && w % PGSIZE == 0 && w != va && w !in s.pt && w < s.sz
    requires s.swapped == []
    ensures var r := Touched(Fault(s, w, true, true), true);
      r.alive && PageAt(r, va) == Initial(s.exec, va)
  {
    CleanPageAt(s, 0, va);
  }

  // ------------------------------------------------- heap pages recorded outside the list

  /** A process that has no free frame and no resident entry, and whose entry 0 is left clean. */
  predicate Hungry(s: Proc) {
    && s.alive && s.free == [] && s.resident == [] && s.swapped == [] && s.num == 0 && !s.slot0.dirty
    && s.nextSeq < INT_MAX
  }

  /** A heap page that the process can fault on. */
  predicate OnHeap(s: Proc, va: int) {
    0 <= va < MAXVA && va % PGSIZE == 0 && s.heapStart <= va < s.sz && va !in s.exec
  }

  /** The page of entry 0 goes, the faulting page comes, and its entry is written before the array. */
  function AfterStarved(s: Proc, va: int, late: seq<nat>, below: Resident): Proc
    requires (UnmapPage(s, s.slot0.va).free + late) != []
  {
    var u := UnmapPage(s, s.slot0.va);
    var f := (u.free + late)[0];
    s.(pt := u.pt[va := Pte(f, false)], mem := u.mem[f := ZeroPage()], free := (u.free + late)[1..], slot0 := below,
       outside := s.outside + [Resident(va, s.nextSeq + 1, false)], nextSeq := s.nextSeq + 1,
       admitted := s.admitted + [Line(va, s.nextSeq + 1)], victims := s.victims + [Line(s.slot0.va, s.slot0.seqno)])
  }

  lemma {:induction false} StaleIs(s: Proc, below: Resident)
    requires Hungry(s)
    ensures var u := UnmapPage(s, s.slot0.va);
      EvictStale(s, true, below) == s.(pt := u.pt, mem := u.mem, free := u.free, num := -1, slot0 := below,
                                       victims := s.victims + [Line(s.slot0.va, s.slot0.seqno)])
  {
  }

  lemma {:induction false} ServeHeap(s: Proc, va: int, f: nat)
    requires s.alive && s.num == -1 && s.swapped == [] && OnHeap(s, va) && va !in s.pt
    ensures Serve(s, va, f, true) == Served(
      s.(pt := s.pt[va := Pte(f, false)], mem := s.mem[f := ZeroPage()], num := 0, nextSeq := s.nextSeq + 1,
         outside := s.outside + [Resident(va, s.nextSeq + 1, false)],
         admitted := s.admitted + [Line(va, s.nextSeq + 1)]), true)
  {
  }

  lemma {:induction false} StarvedIs(s: Proc, va: int, late: seq<nat>, below: Resident)
    requires Hungry(s) && OnHeap(s, va) && (va in s.pt ==> va == s.slot0.va)
    requires UnmapPage(s, s.slot0.va).free + late != []
    ensures Starved(s, va, true, true, late, below) == Served(AfterStarved(s, va, late, below), true)
  {
    hide EvictStale, Serve;
    StaleIs(s, below);
    assert PageDown(va) == va;
    var m := EvictStale(s, true, below);
    var free := m.free + late;
    assert va !in m.pt;
    ServeHeap(m.(free := free[1..]), va, free[0]);
  }

  lemma {:induction false} StarvedTouch(s: Proc, va: int, late: seq<nat>, below: Resident)
    requires Hungry(s) && OnHeap(s, va) && (va in s.pt ==> va == s.slot0.va) && FreeInv(s.pt, late)
    requires UnmapPage(s, s.slot0.va).free + late != []
    ensures var l := Touch(va, true, true, true, late, below);
      Enabled(s, l) && Apply(s, l) == AfterStarved(s, va, late, below) && !Feeds(s, l)
  {
    hide Starved, Fault, AfterStarved, UnmapPage, WriteTrap, Store;
    StarvedIs(s, va, late, below);
    assert s.free + late == late;
    assert PageDown(va) == va;
  }

  /** The first fault, the write trap and the store: the page is writable and not marked dirty. */
  lemma {:induction false} StarvedStore(s: Proc, a: int, b: int, f: nat, x: Resident)
    requires Hungry(s) && OnHeap(s, a) && s.slot0.va !in s.pt && a !in s.pt && FreeInv(s.pt, [f])
    ensures var s1 := AfterStarved(s, a, [f], x); a in s1.pt && Enabled(s1, Trap(a))
    ensures var s2 := WriteTrap(AfterStarved(s, a, [f], x), a);
      && Enabled(s2, Write(a, b))
      && Apply(s2, Write(a, b)) == AfterStarved(s, a, [f], x).(
           pt := s.pt[a := Pte(f, true)], mem := s.mem[f := Page(ZeroPage().bytes[0 := b])])
  {
    assert PageDown(a) == a;
    var s1 := AfterStarved(s, a, [f], x);
    assert s1.pt == s.pt[a := Pte(f, false)] && FindResident(s1.resident, a, 0) == 0;
    assert WriteTrap(s1, a).pt == s.pt[a := Pte(f, true)];
  }

  lemma {:induction false} ExecSnoc(s: Proc, ls: seq<Step>, m: Proc, l: Step)
    requires Exec(s, ls) == Some(m) && Enabled(m, l)
    ensures Exec(s, ls + [l]) == Some(Apply(m, l))
  {
    hide Enabled, Apply;
    assert Init(ls + [l]) == ls && Last(ls + [l]) == l;
  }

  /** Store to heap page `a`, then fault on `c`, `d` and again on `a`, with no frame free and nothing resident. */
  function HeapRun(a: int, b: int, c: int, d: int, f: nat, g: nat, x: Resident): seq<Step> {
    [Touch(a, true, true, true, [f], x), Trap(a), Write(a, b)]
    + [Touch(c, true, true, true, [g], Resident(a, 1, false))]
    + [Touch(d, true, true, true, [], Resident(c, 2, false))]
    + [Touch(a, true, true, true, [], Resident(d, 3, false))]
  }

  /** The state after the store: `x` is what lay before the array. */
  lemma {:induction false} HeapStored(s: Proc, a: int, b: int, f: nat, x: Resident)
    requires Hungry(s) && s.nextSeq == 0 && OnHeap(s, a) && s.slot0.va !in s.pt && a !in s.pt && FreeInv(s.pt, [f])
    requires !x.dirty
    ensures var r := Exec(s, [Touch(a, true, true, true, [f], x), Trap(a), Write(a, b)]);
      && r.Some? && Hungry(r.value) && r.value.nextSeq == 1 && r.value.slot0 == x
      && r.value.pt == s.pt[a := Pte(f, true)] && r.value.mem == s.mem[f := Page(ZeroPage().bytes[0 := b])]
      && r.value.exec == s.exec && r.value.heapStart == s.heapStart && r.value.sz == s.sz
  {
    hide Enabled, Apply, Feeds, WriteTrap;
    StarvedTouch(s, a, [f], x);
    StarvedStore(s, a, b, f, x);
    var s1 := AfterStarved(s, a, [f], x);
    TrapIs(s1, a);
    ExecSnoc(s, [], s, Touch(a, true, true, true, [f], x));
    ExecSnoc(s, [Touch(a, true, true, true, [f], x)], s1, Trap(a));
    ExecSnoc(s, [Touch(a, true, true, true, [f], x), Trap(a)], WriteTrap(s1, a), Write(a, b));
    assert [] + [Touch(a, true, true, true, [f], x)] == [Touch(a, true, true, true, [f], x)];
    assert [Touch(a, true, true, true, [f], x)] + [Trap(a)] == [Touch(a, true, true, true, [f], x), Trap(a)];
    assert [Touch(a, true, true, true, [f], x), Trap(a)] + [Write(a, b)] ==
           [Touch(a, true, true, true, [f], x), Trap(a), Write(a, b)];
  }

  lemma {:induction false} TrapIs(s: Proc, a: int)
    requires Enabled(s, Trap(a))
    ensures Apply(s, Trap(a)) == WriteTrap(s, a)
  {
  }

  /**
   Without a free frame and a resident page at every fault the heap is not flat memory:
   the page stored to is recorded before the array, its entry copied to place 0 by the
   next eviction, and the one after unmaps it as a clean page. It comes back as zeros.
   */
  lemma {:induction false} HeapByteCanBeLost(
    s: Proc, a: int, b: int, c: int, d: int, f: nat, g: nat, x: Resident)
    requires Fresh(s) && s.free == [] && !s.slot0.dirty && s.slot0.va !in s.pt && !x.dirty && x.va !in s.pt && x.va != a
    requires OnHeap(s, a) && OnHeap(s, c) && OnHeap(s, d) && a != c && a != d && c != d && b != 0
    requires a !in s.pt && c !in s.pt && d !in s.pt && FreeInv(s.pt, [f, g])
    ensures var ls := HeapRun(a, b, c, d, f, g, x); var r := Exec(s, ls);
      && r.Some? && r.value.alive && LastByte(ls, a) == Some(b)
      && a in r.value.pt && r.value.pt[a].frame in r.value.mem && r.value.mem[r.value.pt[a].frame] == ZeroPage()
      && CanFault(s) && !Fed(s, ls)
  {
    hide Enabled, Apply, Feeds, Exec, Fed, LastByte;
    TwoFrames(s.pt, f, g, a);
    HeapStored(s, a, b, f, x);
    var l3 := [Touch(a, true, true, true, [f], x), Trap(a), Write(a, b)];
    var s3 := Exec(s, l3).value;
    StarvedTouch(s3, c, [g], Resident(a, 1, false));
    ExecSnoc(s, l3, s3, Touch(c, true, true, true, [g], Resident(a, 1, false)));
    var l4 := l3 + [Touch(c, true, true, true, [g], Resident(a, 1, false))];
    var s4 := AfterStarved(s3, c, [g], Resident(a, 1, false));
    assert s4.pt == s3.pt[c := Pte(g, false)] && s4.free == [];
    StarvedTouch(s4, d, [], Resident(c, 2, false));
    ExecSnoc(s, l4, s4, Touch(d, true, true, true, [], Resident(c, 2, false)));
    var l5 := l4 + [Touch(d, true, true, true, [], Resident(c, 2, false))];
    var s5 := AfterStarved(s4, d, [], Resident(c, 2, false));
    assert a !in s5.pt && s5.pt[c] == Pte(g, false) && s5.free == [];
    StarvedTouch(s5, a, [], Resident(d, 3, false));
    ExecSnoc(s, l5, s5, Touch(a, true, true, true, [], Resident(d, 3, false)));
    assert HeapRun(a, b, c, d, f, g, x) == l5 + [Touch(a, true, true, true, [], Resident(d, 3, false))];
    HeapLast(a, b, c, d, f, g, x);
    HeapUnfed(s, a, b, c, d, f, g, x, s5);
  }

  lemma {:induction false} TwoFrames(pt: map<int, Pte>, f: nat, g: nat, a: int)
    requires FreeInv(pt, [f, g])
    ensures FreeInv(pt, [f]) && FreeInv(pt[a := Pte(f, true)], [g]) && forall p: map<int, Pte> :: FreeInv(p, [])
  {
    assert [f, g][0] != [f, g][1];
    assert f in [f, g] && g in [f, g];
  }

  lemma {:induction false} HeapLast(a: int, b: int, c: int, d: int, f: nat, g: nat, x: Resident)
    ensures LastByte(HeapRun(a, b, c, d, f, g, x), a) == Some(b)
  {
    var ls := HeapRun(a, b, c, d, f, g, x);
    assert Init(ls) == ls[..5] && Init(ls[..5]) == ls[..4] && Init(ls[..4]) == ls[..3];
    assert LastByte(ls[..3], a) == Some(b);
    assert LastByte(ls[..4], a) == Some(b);
    assert LastByte(ls[..5], a) == Some(b);
  }

  lemma {:induction false} HeapUnfed(s: Proc, a: int, b: int, c: int, d: int, f: nat, g: nat, x: Resident, m: Proc)
    requires Exec(s, HeapRun(a, b, c, d, f, g, x)).Some? && a < MAXVA && Hungry(m)
    requires Exec(s, Init(HeapRun(a, b, c, d, f, g, x))) == Some(m)
    ensures !Fed(s, HeapRun(a, b, c, d, f, g, x))
  {
    hide Exec, Enabled, Apply;
  }

  // ---------------------------------------------------------------- which faults are served

  ghost predicate Listed(swapped: seq<Swapped>, va: int) {
    exists k :: 0 <= k < |swapped| && swapped[k].va == va
  }

  /** The resident page that was admitted longest ago. */
  ghost predicate IsVictim(s: Proc, e: Resident) {
    e in s.resident && e.seqno == |s.victims| + 1
  }

  /** The page at `va` leaves so that another can come. */
  ghost predicate Leaves(s: Proc, va: int) {
    s.free == [] && exists e :: IsVictim(s, e) && e.va == va
  }

  ghost predicate LeavesDirty(s: Proc, va: int) {
    s.free == [] && exists e :: IsVictim(s, e) && e.va == va && e.dirty
  }

  /** A frame is free, or the page to leave is clean, or it finds a slot and room on the disk. */
  ghost predicate CanMakeRoom(s: Proc, diskOk: bool) {
    s.free != [] || exists e :: IsVictim(s, e) && (!e.dirty || (diskOk && false in s.slots))
  }

  /** The page is in the swap file once room has been made. */
  ghost predicate InSwap(s: Proc, va: int) { Listed(s.swapped, va) || LeavesDirty(s, va) }

  /** The page is mapped once room has been made. */
  ghost predicate Stays(s: Proc, va: int) { va in s.pt && !Leaves(s, va) }

  /** A fault on page `va` is to be served. */
  ghost predicate Serves(s: Proc, va: int, mapOk: bool) {
    InSwap(s, va) || ((va < s.heapStart || va < s.sz) && !Stays(s, va) && mapOk)
  }

  /** Free frames once room has been made. */
  ghost function Frames(s: Proc): int { if s.free == [] then 1 else |s.free| }

  /** Resident pages once room has been made. */
  ghost function Remaining(s: Proc): int { if s.free == [] then |s.resident| - 1 else |s.resident| }

  /** Pages other than `va` are mapped and swapped as making room has left them. */
  ghost predicate OthersKept(s: Proc, r: Proc, va: int) {
    && (forall x :: x != va ==> (x in r.pt <==> Stays(s, x)) && (x in r.pt ==> r.pt[x] == s.pt[x]))
    && (forall x :: x != va ==> (Listed(r.swapped, x) <==> InSwap(s, x)))
  }

  /** Page `va` is mapped, newest in the list, marked dirty exactly if it came from the swap file, and left that. */
  ghost predicate BroughtIn(s: Proc, r: Proc, va: int) {
    && r.alive && va in r.pt && r.pt[va].frame in r.mem && !Listed(r.swapped, va)
    && 0 < |r.resident| == Remaining(s) + 1 && Last(r.resident) == Resident(va, s.nextSeq + 1, InSwap(s, va))
    && (forall e :: e in Init(r.resident) <==> e in s.resident && !(s.free == [] && IsVictim(s, e)))
    && r.nextSeq == s.nextSeq + 1 && |r.free| == Frames(s) - 1
    && (r.pt[va].writable <==> !InSwap(s, va) && va in s.exec && s.exec[va].writable)
  }

  /** What the page holds when it comes: its slot of the swap file, its part of the executable, or zeros. */
  ghost predicate RightContents(s: Proc, r: Proc, va: int)
    requires va in r.pt && r.pt[va].frame in r.mem
  {
    var p := r.mem[r.pt[va].frame];
    && (forall k :: 0 <= k < |s.swapped| && s.swapped[k].va == va && s.swapped[k].slot < |s.swapFile| ==>
          p == s.swapFile[s.swapped[k].slot])
    && (!InSwap(s, va) ==> p == if va in s.exec then s.exec[va].image else ZeroPage())
  }

  /**
   Nothing came: the page is as making room has left it, and so is the list. The frame that was taken is
   given back, but not if the address belongs to no part of the process.
   */
  ghost predicate NothingCame(s: Proc, r: Proc, va: int) {
    && r.alive && |r.resident| == Remaining(s) && r.nextSeq == s.nextSeq && (va in r.pt <==> Stays(s, va))
    && (Listed(r.swapped, va) <==> InSwap(s, va))
    && |r.free| == (if va >= s.heapStart && va >= s.sz then Frames(s) - 1 else Frames(s))
    && (forall e :: e in r.resident <==> e in s.resident && !(s.free == [] && IsVictim(s, e)))
  }

  /** What a fault at `addr` does, said of the states before and after. */
  ghost predicate FaultDone(s: Proc, r: Proc, ok: bool, addr: int, mapOk: bool, diskOk: bool) {
    var va := PageDown(addr);
    && (addr >= MAXVA ==> !ok && r == s)
    && (addr < MAXVA && !CanMakeRoom(s, diskOk) ==> !ok && !r.alive)
    && (addr < MAXVA && CanMakeRoom(s, diskOk) ==> (ok <==> Serves(s, va, mapOk)))
    && (addr < MAXVA && CanMakeRoom(s, diskOk) && !ok ==> NothingCame(s, r, va) && OthersKept(s, r, va))
    && (ok && Remaining(s) < MAX_RESIDENT_PAGES ==>
          BroughtIn(s, r, va) && OthersKept(s, r, va) && RightContents(s, r, va))
    && (ok && Remaining(s) >= MAX_RESIDENT_PAGES ==> !r.alive)
  }

  lemma {:induction false} TheVictim(s: Proc)
    requires Inv(s) && s.resident != []
    ensures var e := s.resident[Oldest(s.resident, |s.resident|)];
      IsVictim(s, e) && forall x :: IsVictim(s, x) ==> x == e
  {
    VictimIsNext(s);
    hide FramesInv, FreeInv, SwapInv, CleanInv, LayoutInv, ResidentInv;
    var v := Oldest(s.resident, |s.resident|);
    forall x | IsVictim(s, x) ensures x == s.resident[v] {
      var i :| 0 <= i < |s.resident| && s.resident[i] == x;
      assert i == v;
    }
  }

  lemma {:induction false} SlotFree(slots: seq<bool>)
    ensures false in slots <==> FreeSlot(slots, 0) < |slots|
  {
    if FreeSlot(slots, 0) < |slots| {
      assert slots[FreeSlot(slots, 0)] == false;
    }
  }

  /** The state after the victim has left. */
  ghost predicate RoomMade(s: Proc, r: Proc) {
    && r.alive && |r.free| == Frames(s) && r.exec == s.exec && r.heapStart == s.heapStart && r.sz == s.sz
    && r.nextSeq == s.nextSeq && r.num == |r.resident| == Remaining(s)
    && (forall x :: (x in r.pt <==> Stays(s, x)) && (x in r.pt ==> r.pt[x] == s.pt[x]))
    && (forall x :: Listed(r.swapped, x) <==> InSwap(s, x))
    && (forall e :: e in r.resident <==> e in s.resident && !(s.free == [] && IsVictim(s, e)))
    && s.swapped <= r.swapped
    && (forall k :: 0 <= k < |s.swapped| && s.swapped[k].slot < |s.swapFile| ==>
          s.swapped[k].slot < |r.swapFile| && r.swapFile[s.swapped[k].slot] == s.swapFile[s.swapped[k].slot])
  }

  lemma {:induction false} DropMembers(q: seq<Resident>, v: nat)
    requires v < |q| && forall i :: 0 <= i < |q| && i != v ==> q[i] != q[v]
    ensures |DropAt(q, v)| == |q| - 1 && forall e :: e in DropAt(q, v) <==> e in q && e != q[v]
  {
    var d := DropAt(q, v);
    forall e | e in q && e != q[v] ensures e in d {
      var i :| 0 <= i < |q| && q[i] == e;
      if i == |q| - 1 {
        assert d[v] == e;
      } else {
        assert d[i] == e;
      }
    }
    forall e | e in d ensures e in q && e != q[v] {
      var j :| 0 <= j < |d| && d[j] == e;
      DropAtAt(q, v, j);
    }
  }

  lemma {:induction false} ListedMore(swapped: seq<Swapped>, e: Swapped, x: int)
    ensures Listed(swapped + [e], x) <==> Listed(swapped, x) || e.va == x
  {
    var q := swapped + [e];
    if Listed(swapped, x) {
      var k :| 0 <= k < |swapped| && swapped[k].va == x;
      assert q[k].va == x;
    }
    if e.va == x {
      assert q[|swapped|].va == x;
    }
    if Listed(q, x) {
      var k :| 0 <= k < |q| && q[k].va == x;
      assert k < |swapped| ==> swapped[k].va == x;
    }
  }

  /** With no frame free the victim, and only it, leaves. */
  lemma {:induction false} LeavesIs(s: Proc, diskOk: bool)
    requires Inv(s) && s.resident != [] && s.free == []
    ensures var e := s.resident[Oldest(s.resident, |s.resident|)];
      && (forall x :: Leaves(s, x) <==> x == e.va) && (forall x :: LeavesDirty(s, x) <==> x == e.va && e.dirty)
      && (forall x :: IsVictim(s, x) <==> x == e)
      && (CanMakeRoom(s, diskOk) <==> !e.dirty || (diskOk && FreeSlot(s.slots, 0) < |s.slots|))
  {
    hide Inv, FreeSlot;
    TheVictim(s);
    SlotFree(s.slots);
  }

  /** evict_page, field by field. */
  lemma {:induction false} EvictIs(s: Proc, diskOk: bool)
    requires Inv(s) && s.alive && s.resident != []
    ensures var v := Oldest(s.resident, |s.resident|); var e := s.resident[v]; var k := FreeSlot(s.slots, 0);
      var r := Evict(s, diskOk);
      && (r.alive <==> !e.dirty || (diskOk && k < |s.slots|)) && e.va in s.pt
      && (r.alive ==> r.pt == s.pt - {e.va} && |r.free| == 1 + |s.free| && r.resident == DropAt(s.resident, v))
      && (r.alive ==> r.num == s.num - 1 && r.exec == s.exec && r.heapStart == s.heapStart && r.sz == s.sz)
      && (r.alive ==> r.nextSeq == s.nextSeq)
      && (r.alive ==> r.swapped == if e.dirty then s.swapped + [Swapped(e.va, k)] else s.swapped)
      && (r.alive ==> |s.swapFile| <= |r.swapFile|)
      && (r.alive ==> forall j :: 0 <= j < |s.swapFile| && (e.dirty ==> j != k) ==> r.swapFile[j] == s.swapFile[j])
  {
    hide CleanInv, FifoInv, LayoutInv, FreeInv, DropAt, Oldest, FreeSlot;
    var v := Oldest(s.resident, |s.resident|);
    assert s.resident[v].va in s.pt && s.pt[s.resident[v].va].frame in s.mem;
    if FreeSlot(s.slots, 0) < |s.slots| {
      SlotFits(s.swapped, s.slots, |s.swapFile|, s.pt);
    }
    hide SwapInv, FramesInv, ResidentInv;
  }

  lemma {:induction false} OnlyOne(s: Proc, v: nat)
    requires Inv(s) && v < |s.resident|
    ensures forall i :: 0 <= i < |s.resident| && i != v ==> s.resident[i] != s.resident[v]
  {
    hide FramesInv, FreeInv, SwapInv, CleanInv, LayoutInv, FifoInv;
  }

  /** Slots in use are not the free one. */
  lemma {:induction false} SlotsApart(s: Proc)
    requires Inv(s)
    ensures forall j :: 0 <= j < |s.swapped| && FreeSlot(s.slots, 0) < |s.slots| ==>
      s.swapped[j].slot != FreeSlot(s.slots, 0)
  {
    hide FramesInv, FreeInv, CleanInv, LayoutInv, FifoInv, ResidentInv;
  }

  lemma {:induction false} RoomIs(s: Proc, diskOk: bool)
    requires Inv(s) && s.alive && Backed(s)
    ensures var r := Room(s, diskOk); (r.alive <==> CanMakeRoom(s, diskOk)) && (r.alive ==> RoomMade(s, r))
  {
    hide Inv, Evict, DropAt, Oldest, FreeSlot, CanMakeRoom, Leaves, LeavesDirty, IsVictim, Listed;
    if s.free == [] {
      var v := Oldest(s.resident, |s.resident|);
      var e := s.resident[v];
      InvCount(s);
      LeavesIs(s, diskOk);
      EvictIs(s, diskOk);
      OnlyOne(s, v);
      DropMembers(s.resident, v);
      SlotsApart(s);
      forall x
        ensures Listed(s.swapped + [Swapped(e.va, FreeSlot(s.slots, 0))], x) <==> Listed(s.swapped, x) || x == e.va
      {
        ListedMore(s.swapped, Swapped(e.va, FreeSlot(s.slots, 0)), x);
      }
    } else {
      RoomThere(s, diskOk);
    }
  }

  lemma {:induction false} RoomThere(s: Proc, diskOk: bool)
    requires Inv(s) && s.alive && s.free != []
    ensures CanMakeRoom(s, diskOk) && RoomMade(s, s)
  {
    InvCount(s);
    hide Inv, Listed;
  }

  /** The page may be written: it belongs to the heap or to a writable part of the program. */
  predicate MayWrite(s: Proc, va: int) {
    va >= s.heapStart || (va in s.exec && s.exec[va].writable)
  }

  /** A write trap on page `va`: the write is granted and the page marked dirty, or the process is killed. */
  ghost predicate TrapDone(s: Proc, r: Proc, va: int)
    requires va in s.pt
  {
    && (r.alive <==> MayWrite(s, va)) && r.mem == s.mem && r.free == s.free && r.swapped == s.swapped
    && (r.alive ==> r.pt == s.pt[va := Pte(s.pt[va].frame, true)])
    && (r.alive ==> |r.resident| == |s.resident| && forall k :: 0 <= k < |s.resident| ==>
          r.resident[k] == if s.resident[k].va == va then s.resident[k].(dirty := true) else s.resident[k])
  }

  lemma {:induction false} TrapGrants(s: Proc, addr: int)
    requires Inv(s) && s.alive && PageDown(addr) in s.pt
    ensures TrapDone(s, WriteTrap(s, addr), PageDown(addr))
  {
    hide FramesInv, FreeInv, SwapInv, CleanInv, LayoutInv, FifoInv;
  }

  lemma {:induction false} ListedFound(swapped: seq<Swapped>, va: int)
    ensures Listed(swapped, va) <==> FindSwapped(swapped, va, 0) < |swapped|
  {
  }

  /** A list without its entry for `va` lists the other pages. */
  lemma {:induction false} ListedLess(swapped: seq<Swapped>, i: nat, x: int)
    requires i < |swapped| && forall k :: 0 <= k < |swapped| && k != i ==> swapped[k].va != swapped[i].va
    ensures Listed(DropAt(swapped, i), x) <==> Listed(swapped, x) && x != swapped[i].va
  {
    var d := DropAt(swapped, i);
    if Listed(swapped, x) && x != swapped[i].va {
      var k :| 0 <= k < |swapped| && swapped[k].va == x;
      if k == |swapped| - 1 {
        assert d[i].va == x;
      } else {
        assert d[k].va == x;
      }
    }
    if Listed(d, x) {
      var j :| 0 <= j < |d| && d[j].va == x;
      DropAtAt(swapped, i, j);
    }
  }

  /** The page that comes, once a frame is in hand. */
  ghost predicate Came(m: Proc, r: Proc, va: int, frame: nat) {
    var w := Listed(m.swapped, va);
    && r.alive && r.pt == m.pt[va := Pte(frame, !w && va in m.exec && m.exec[va].writable)] && frame in r.mem
    && r.resident == m.resident + [Resident(va, m.nextSeq + 1, w)] && r.nextSeq == m.nextSeq + 1 && r.free == m.free
    && (forall x :: Listed(r.swapped, x) <==> Listed(m.swapped, x) && x != va)
    && (forall k :: 0 <= k < |m.swapped| && m.swapped[k].va == va && m.swapped[k].slot < |m.swapFile| ==>
          r.mem[frame] == m.swapFile[m.swapped[k].slot])
    && (!w ==> r.mem[frame] == if va in m.exec then m.exec[va].image else ZeroPage())
  }

  lemma {:induction false} SwapInIs(m: Proc, va: int, frame: nat, mapOk: bool)
    requires SwapInv(m.swapped, m.slots, |m.swapFile|, m.pt) && m.alive && m.num == |m.resident|
    requires Listed(m.swapped, va)
    ensures var r := Serve(m, va, frame, mapOk);
      && r.ok && (m.num < MAX_RESIDENT_PAGES ==> Came(m, r.proc, va, frame))
      && (m.num >= MAX_RESIDENT_PAGES ==> !r.proc.alive)
  {
    hide Listed, DropAt;
    ListedFound(m.swapped, va);
    var i := FindSwapped(m.swapped, va, 0);
    forall x ensures Listed(DropAt(m.swapped, i), x) <==> Listed(m.swapped, x) && x != va {
      ListedLess(m.swapped, i, x);
    }
    assert forall k :: 0 <= k < |m.swapped| && m.swapped[k].va == va ==> k == i;
    hide SwapInv;
  }

  lemma {:induction false} LoadIs(m: Proc, va: int, frame: nat, mapOk: bool)
    requires m.alive && m.num == |m.resident| && !Listed(m.swapped, va)
    ensures var r := Serve(m, va, frame, mapOk);
      && (r.ok <==> (va < m.heapStart || va < m.sz) && va !in m.pt && mapOk)
      && (r.ok && m.num < MAX_RESIDENT_PAGES ==> Came(m, r.proc, va, frame))
      && (r.ok && m.num >= MAX_RESIDENT_PAGES ==> !r.proc.alive)
      && (!r.ok ==> r.proc.(free := m.free) == m)
      && (!r.ok ==> |r.proc.free| == |m.free| + if va >= m.heapStart && va >= m.sz then 0 else 1)
  {
    ListedFound(m.swapped, va);
    assert forall k :: 0 <= k < |m.swapped| ==> m.swapped[k].va != va;
    assert forall x :: Listed(m.swapped, x) ==> x != va;
  }

  /** Which faults are served, and what that does. */
  lemma {:induction false} FaultIs(s: Proc, addr: int, mapOk: bool, diskOk: bool)
    requires Inv(s) && s.alive && Backed(s)
    ensures var r := Fault(s, addr, mapOk, diskOk); FaultDone(s, r.proc, r.ok, addr, mapOk, diskOk)
  {
    hide Inv, Room, Serve, RoomMade, CanMakeRoom, Serves, BroughtIn, RightContents, NothingCame, OthersKept, InSwap;
    if addr < MAXVA {
      RoomIs(s, diskOk);
      var s1 := Room(s, diskOk);
      if s1.alive {
        RoomSwap(s, diskOk);
        ServedIs(s, s1, PageDown(addr), mapOk);
      }
    }
  }

  lemma {:induction false} RoomSwap(s: Proc, diskOk: bool)
    requires Inv(s) && s.alive && Backed(s) && Room(s, diskOk).alive
    ensures var r := Room(s, diskOk); SwapInv(r.swapped, r.slots, |r.swapFile|, r.pt) && r.free != []
  {
    if s.free == [] {
      EvictKeeps(s, diskOk);
    }
    hide Evict, FramesInv, FreeInv, CleanInv, LayoutInv, FifoInv, ResidentInv;
  }

  /** Serving a fault in the state that making room has left. */
  lemma {:induction false} ServedIs(s: Proc, s1: Proc, va: int, mapOk: bool)
    requires RoomMade(s, s1) && s1.free != [] && SwapInv(s1.swapped, s1.slots, |s1.swapFile|, s1.pt)
    ensures var r := Serve(s1.(free := s1.free[1..]), va, s1.free[0], mapOk);
      && (r.ok <==> Serves(s, va, mapOk))
      && (!r.ok ==> NothingCame(s, r.proc, va) && OthersKept(s, r.proc, va))
      && (r.ok && Remaining(s) < MAX_RESIDENT_PAGES ==>
            BroughtIn(s, r.proc, va) && OthersKept(s, r.proc, va) && RightContents(s, r.proc, va))
      && (r.ok && Remaining(s) >= MAX_RESIDENT_PAGES ==> !r.proc.alive)
  {
    hide Serve, SwapInv, Listed, InSwap, Stays, IsVictim, Came;
    var m := s1.(free := s1.free[1..]);
    if Listed(m.swapped, va) {
      SwapInIs(m, va, s1.free[0], mapOk);
    } else {
      LoadIs(m, va, s1.free[0], mapOk);
    }
    var r := Serve(m, va, s1.free[0], mapOk);
    if r.ok && m.num < MAX_RESIDENT_PAGES {
      CameIs(s, s1, m, r.proc, va);
    }
  }

  lemma {:induction false} CameIs(s: Proc, s1: Proc, m: Proc, r: Proc, va: int)
    requires RoomMade(s, s1) && s1.free != [] && m == s1.(free := s1.free[1..]) && Came(m, r, va, s1.free[0])
    ensures BroughtIn(s, r, va) && OthersKept(s, r, va) && RightContents(s, r, va)
  {
    hide Listed, InSwap, Stays, IsVictim;
    assert Init(r.resident) == m.resident;
    assert forall k :: 0 <= k < |s.swapped| ==> m.swapped[k] == s.swapped[k];
  }

  /** A living process can fault at any address, write to any page that is mapped, and grow to the trap frame. */
  lemma {:induction false} NeverBlocked(
    s: Proc, addr: int, user: bool, mapOk: bool, diskOk: bool, below: Resident, b: int)
    requires Inv(s) && s.alive && s.nextSeq < INT_MAX && 0 <= addr
    ensures Enabled(s, Touch(addr, user, mapOk, diskOk, [], below))
    ensures PageDown(addr) in s.pt ==> Enabled(s, if s.pt[PageDown(addr)].writable then Write(addr, b) else Trap(addr))
  {
    hide SwapInv, CleanInv, LayoutInv, FifoInv, ResidentInv;
    assert s.free + [] == s.free;
  }
}
