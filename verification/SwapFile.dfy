/**
 The swap file of a process is a file like any other: `swap_write_page` goes through
 writei and the page-in path through readi. Seen as pages, the two do what the
 pager assumes of its swap file.
 */
module SwapFile {
  import opened Common
  import opened FileBlocks
  import opened FileCode
  import Pager

  /** The contents of a file, page by page. */
  function Pages(c: seq<Byte>): (ps: seq<Pager.Page>)
    ensures |ps| == |c| / PGSIZE
    ensures forall k :: 0 <= k < |ps| ==> (k + 1) * PGSIZE <= |c| && ps[k].bytes == c[k * PGSIZE..(k + 1) * PGSIZE]
  {
    seq(|c| / PGSIZE, k requires 0 <= k < |c| / PGSIZE => Pager.Page(c[k * PGSIZE..(k + 1) * PGSIZE]))
  }

  lemma {:induction false} SplicedPage(c: seq<Byte>, slot: nat, bytes: seq<Byte>, k: nat)
    requires slot * PGSIZE <= |c| && |bytes| == PGSIZE
    requires k == slot || (k + 1) * PGSIZE <= |c|
    ensures var r := Splice(c, slot * PGSIZE, bytes);
      && (k + 1) * PGSIZE <= |r|
      && r[k * PGSIZE..(k + 1) * PGSIZE] == if k == slot then bytes else c[k * PGSIZE..(k + 1) * PGSIZE]
  {
    var r := Splice(c, slot * PGSIZE, bytes);
    if k != slot {
      forall x | k * PGSIZE <= x < (k + 1) * PGSIZE ensures x < |r| && r[x] == c[x] {
        assert x < slot * PGSIZE || slot * PGSIZE + PGSIZE <= x;
      }
    }
  }

  /** A page spliced in at a slot of a file of whole pages is that slot, written or added. */
  lemma {:induction false} SplicePages(c: seq<Byte>, slot: nat, bytes: seq<Byte>)
    requires |c| % PGSIZE == 0 && slot * PGSIZE <= |c| && |bytes| == PGSIZE
    ensures var r := Splice(c, slot * PGSIZE, bytes);
      |r| % PGSIZE == 0 && Pager.SwapWrite(Pages(c), slot, Pager.Page(bytes)) == Some(Pages(r))
  {
    var r := Splice(c, slot * PGSIZE, bytes);
    var n := |c| / PGSIZE;
    assert n * PGSIZE == |c|;
    var was, now := Pager.SwapWrite(Pages(c), slot, Pager.Page(bytes)).value, Pages(r);
    assert |r| == if slot == n then (n + 1) * PGSIZE else |c|;
    forall k | 0 <= k < |now| ensures was[k] == now[k] {
      SplicedPage(c, slot, bytes, k);
      assert was[k].bytes == now[k].bytes;
    }
    assert was == now;
  }

  /** Every slot is within the size limits of a file, and one page is within what a transaction may log. */
  lemma {:induction false} SlotFitsLog(slot: nat)
    requires slot < Pager.MAX_SWAP_PAGES
    ensures slot * PGSIZE + PGSIZE <= MAXFILE * BSIZE <= UINT_MAX
    ensures Turns(slot * PGSIZE, PGSIZE) + 4 <= MAXOPBLOCKS
  {
    assert slot * PGSIZE % BSIZE == 0 by {
      assert slot * PGSIZE == slot * 4 * BSIZE;
      InBlock(slot * 4, 0);
    }
  }

  /** The swap file: inode `i`, made of whole pages. */
  ghost predicate IsSwap(fs: FileSystem, i: nat)
    reads fs
  {
    fs.Valid() && i < |fs.inodes| && fs.inodes[i].size % PGSIZE == 0
  }

  ghost function SwapPages(fs: FileSystem, i: nat): seq<Pager.Page>
    requires IsSwap(fs, i)
    reads fs
  {
    Pages(Content(fs.State(), i))
  }

  /**
   swap_write_page: what the pager's SwapWrite does to the pages, other files keep
   theirs. It fails exactly when the slot lies past the end of the file, or part of
   the page did not fit on the disk. `touched` covers every block it logs.
   */
  method SwapWritePage(fs: FileSystem, i: nat, slot: nat, bytes: seq<Byte>) returns (result: int,
      ghost touched: set<nat>)
    requires IsSwap(fs, i) && slot < Pager.MAX_SWAP_PAGES && |bytes| == PGSIZE
    modifies fs
    ensures fs.Valid() && (result == 0 || result == -1)
    ensures result == 0 ==>
      && IsSwap(fs, i)
      && Some(SwapPages(fs, i)) == Pager.SwapWrite(old(SwapPages(fs, i)), slot, Pager.Page(bytes))
    ensures result == 0 && old(NoHoles(fs.State(), i)) ==> NoHoles(fs.State(), i)
    ensures result == -1 ==> slot > |old(SwapPages(fs, i))| || FreeBlock(fs.State().used, 0) == fs.size
    ensures |fs.inodes| == |old(fs.inodes)|
    ensures forall j: nat :: j < |fs.inodes| && j != i ==> Content(fs.State(), j) == old(Content(fs.State(), j))
    ensures fs.size <= BPB ==> fs.logged <= old(fs.logged) + touched
    ensures |touched| <= MAXOPBLOCKS
  {
    SlotFitsLog(slot);
    var r;
    r, touched := fs.Writei(i, slot * PGSIZE, bytes);
    if r == PGSIZE {
      SplicePages(old(Content(fs.State(), i)), slot, bytes);
      assert bytes[..r] == bytes;
    }
    result := if r == PGSIZE then 0 else -1;
  }

  /**
   The page-in path: of a file without holes it reads the whole page the pager sees
   in that slot, and changes nothing; otherwise it returns at most part of it.
   */
  method SwapReadPage(fs: FileSystem, i: nat, slot: nat) returns (bytes: seq<Byte>)
    requires IsSwap(fs, i) && fs.inodes[i].size <= MAXFILE * BSIZE && slot < |SwapPages(fs, i)|
    modifies fs
    ensures fs.Valid() && |bytes| <= PGSIZE
    ensures old(NoHoles(fs.State(), i)) ==> |bytes| == PGSIZE && fs.State() == old(fs.State())
    ensures |bytes| == PGSIZE ==> Pager.Page(bytes) == old(SwapPages(fs, i))[slot]
  {
    ghost var c := Content(fs.State(), i);
    PageWithin(c, slot);
    bytes := fs.Readi(i, slot * PGSIZE, PGSIZE);
  }

  lemma {:induction false} PageWithin(c: seq<Byte>, slot: nat)
    requires |c| <= MAXFILE * BSIZE && slot < |Pages(c)|
    ensures slot * PGSIZE + PGSIZE <= |c| && slot * PGSIZE + PGSIZE <= UINT_MAX
    ensures Pages(c)[slot] == Pager.Page(c[slot * PGSIZE..slot * PGSIZE + PGSIZE])
  {
    assert (slot + 1) * PGSIZE <= |c|;
  }

  /**
   A page goes to the lowest free slot, as evict_page sends it: it is never rejected
   and fails only when the disk is full. Otherwise its slot reads back as the page,
   the slots of the other swapped pages as before, and the bookkeeping of the slots
   stays right for the file that is really there.
   */
  method SwapOutPage(fs: FileSystem, i: nat, slots: seq<bool>, bytes: seq<Byte>,
    ghost swapped: seq<Pager.Swapped>, ghost pt: map<int, Pager.Pte>, ghost va: int) returns (result: int, slot: nat)
    requires IsSwap(fs, i) && |bytes| == PGSIZE && Pager.SwapInv(swapped, slots, |SwapPages(fs, i)|, pt)
    requires va in pt && Pager.FreeSlot(slots, 0) < |slots|
    modifies fs
    ensures fs.Valid() && slot == Pager.FreeSlot(slots, 0)
    ensures result == -1 ==> FreeBlock(fs.State().used, 0) == fs.size
    ensures result != -1 ==>
      && IsSwap(fs, i)
      && Pager.SwapInv(swapped + [Pager.Swapped(va, slot)], slots[slot := true], |SwapPages(fs, i)|, pt - {va})
      && slot < |SwapPages(fs, i)| && SwapPages(fs, i)[slot] == Pager.Page(bytes)
    ensures result != -1 ==> forall k :: 0 <= k < |swapped| ==>
      && swapped[k].slot < |SwapPages(fs, i)|
      && SwapPages(fs, i)[swapped[k].slot] == old(SwapPages(fs, i)[swapped[k].slot])
    ensures result != -1 && old(NoHoles(fs.State(), i)) ==> NoHoles(fs.State(), i)
  {
    slot := Pager.FreeSlot(slots, 0);
    Pager.SlotFits(swapped, slots, |SwapPages(fs, i)|, pt);
    Pager.SwapOutInv(swapped, slots, |SwapPages(fs, i)|, pt, va, slot);
    ghost var touched;
    result, touched := SwapWritePage(fs, i, slot, bytes);
  }
}
