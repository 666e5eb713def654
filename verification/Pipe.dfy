/** The pipe of kernel/pipe.c: a ring of 512 bytes with 32-bit counters, and the byte stream it carries. */
module Pipe {

  const PIPESIZE := 512
  const WRAP := 0x1_0000_0000

  type Byte = x: int | 0 <= x < 256

  function Next(n: nat): nat { (n + 1) % WRAP }

  /** The bytes between the counters are `q`. */
  ghost predicate Window(data: seq<Byte>, nread: nat, nwrite: nat, q: seq<Byte>) {
    && |data| == PIPESIZE && |q| <= PIPESIZE && nread < WRAP && nwrite == (nread + |q|) % WRAP
    && forall i :: 0 <= i < |q| ==> data[(nread + i) % PIPESIZE] == q[i]
  }

  /** The tests for an empty and a full pipe are right, also when one counter has wrapped and the other has not. */
  lemma {:induction false} EmptyAndFull(data: seq<Byte>, nread: nat, nwrite: nat, q: seq<Byte>)
    requires Window(data, nread, nwrite, q)
    ensures nread == nwrite <==> q == []
    ensures nwrite == (nread + PIPESIZE) % WRAP <==> |q| == PIPESIZE
  {
  }

  lemma {:induction false} SlotOf(nread: nat, n: nat)
    requires n <= PIPESIZE
    ensures ((nread + n) % WRAP) % PIPESIZE == (nread + n) % PIPESIZE
    ensures Next((nread + n) % WRAP) == (nread + n + 1) % WRAP
  {
    var w := (nread + n) / WRAP;
    var r := (nread + n) % WRAP;
    assert nread + n == (w * (WRAP / PIPESIZE)) * PIPESIZE + r;
    Slots(w * (WRAP / PIPESIZE), r);
  }

  lemma {:induction false} Slots(a: nat, b: nat)
    ensures (a * PIPESIZE + b) % PIPESIZE == b % PIPESIZE
  {
  }

  lemma {:induction false} OtherSlot(nread: nat, i: nat, n: nat)
    requires i < n < PIPESIZE
    ensures (nread + i) % PIPESIZE != (nread + n) % PIPESIZE
  {
  }

  /** A byte put in a pipe that is not full overwrites none that is still to be read. */
  lemma {:induction false} Put(data: seq<Byte>, nread: nat, nwrite: nat, q: seq<Byte>, b: Byte)
    requires Window(data, nread, nwrite, q) && |q| < PIPESIZE
    ensures Window(data[nwrite % PIPESIZE := b], nread, Next(nwrite), q + [b])
  {
    SlotOf(nread, |q|);
    var d, r := data[nwrite % PIPESIZE := b], q + [b];
    forall i | 0 <= i < |r| ensures d[(nread + i) % PIPESIZE] == r[i] {
      if i < |q| {
        OtherSlot(nread, i, |q|);
      }
    }
  }

  /** The byte at the read counter is the oldest one. */
  lemma {:induction false} Take(data: seq<Byte>, nread: nat, nwrite: nat, q: seq<Byte>)
    requires Window(data, nread, nwrite, q) && q != []
    ensures data[nread % PIPESIZE] == q[0] && Window(data, Next(nread), nwrite, q[1..])
  {
    assert data[(nread + 0) % PIPESIZE] == q[0];
    var n := Next(nread);
    forall i | 0 <= i < |q| - 1 ensures data[(n + i) % PIPESIZE] == q[1..][i] {
      assert data[(nread + (i + 1)) % PIPESIZE] == q[i + 1];
      SlotAfter(nread, i);
    }
    SlotAfter(nread, |q| - 1);
  }

  lemma {:induction false} SlotAfter(nread: nat, i: nat)
    requires nread < WRAP
    ensures (Next(nread) + i) % PIPESIZE == (nread + (i + 1)) % PIPESIZE
    ensures (Next(nread) + i) % WRAP == (nread + (i + 1)) % WRAP
  {
  }

  /** How a burst of writing ends: all written, asleep on a full pipe, no reader or killed, or a bad address. */
  datatype WriteEnd = Written | Full | Refused | BadSource

  /** How a turn of reading ends: asleep on an empty pipe, killed there, a bad address for the first byte, or copied. */
  datatype ReadEnd = Waits | Killed | BadTarget | Copied

  /** A call by a process that uses the pipe, up to where it returns or sleeps. */
  datatype Use =
    | Writes(source: seq<Byte>, from: nat, good: nat, kill: nat)
    | Reads(n: nat, good: nat, killed: bool)
    | Closes(writable: bool)

  function Min(a: nat, b: nat): nat { if a < b then a else b }

  /** The bytes of a sequence of calls, one after the other. */
  function Flat(parts: seq<seq<Byte>>): seq<Byte> {
    if parts == [] then [] else Flat(parts[..|parts| - 1]) + parts[|parts| - 1]
  }

  lemma {:induction false} FlatMore(parts: seq<seq<Byte>>, p: seq<Byte>)
    ensures Flat(parts + [p]) == Flat(parts) + p
  {
    assert (parts + [p])[..|parts|] == parts;
  }

  /** What call `u` may have put in and taken out. */
  predicate Fair(u: Use, given: seq<Byte>, taken: seq<Byte>) {
    match u
    case Writes(source, from, _, _) => taken == [] && from <= |source| && given <= source[from..]
    case Reads(n, _, _) => given == [] && |taken| <= n
    case Closes(_) => given == [] && taken == []
  }

  /** What was taken is the first part of what was given, and the rest fits in the pipe. */
  predicate InOrder(given: seq<seq<Byte>>, taken: seq<seq<Byte>>) {
    Flat(taken) <= Flat(given) && |Flat(given)| - |Flat(taken)| <= PIPESIZE
  }

  lemma {:induction false} FlatNone()
    ensures Flat([]) == []
  {
  }

  lemma {:induction false} OrderedMore(given: seq<seq<Byte>>, taken: seq<seq<Byte>>, g: seq<Byte>, t: seq<Byte>)
    requires |given| == |taken| && InOrder(given + [g], taken + [t])
    requires forall k :: 0 <= k <= |given| ==> InOrder(given[..k], taken[..k])
    ensures forall k :: 0 <= k <= |given| + 1 ==> InOrder((given + [g])[..k], (taken + [t])[..k])
  {
    hide InOrder;
    forall k | 0 <= k <= |given| + 1 ensures InOrder((given + [g])[..k], (taken + [t])[..k]) {
      if k <= |given| {
        assert (given + [g])[..k] == given[..k] && (taken + [t])[..k] == taken[..k];
      } else {
        assert (given + [g])[..k] == given + [g] && (taken + [t])[..k] == taken + [t];
      }
    }
  }

  class PipeBuffer {
    var data: seq<Byte>
    var nread: nat
    var nwrite: nat
    var readopen: bool
    var writeopen: bool
    ghost var put: seq<Byte>
    ghost var got: seq<Byte>

    /** What is in the pipe is what has been put in and not yet taken out. */
    ghost predicate Valid()
      reads this
    {
      |got| <= |put| && got == put[..|got|] && Window(data, nread, nwrite, put[|got|..])
    }

    constructor ()
      ensures Valid() && put == [] && got == [] && readopen && writeopen
    {
      data, nread, nwrite := seq(PIPESIZE, _ => 0), 0, 0;
      readopen, writeopen, put, got := true, true, [], [];
    }

    lemma {:induction false} Ordered(given: seq<seq<Byte>>, taken: seq<seq<Byte>>)
      requires Valid() && put == Flat(given) && got == Flat(taken)
      ensures InOrder(given, taken)
    {
      hide Flat;
    }

    /** data[nwrite++ % PIPESIZE] = ch. */
    method PutByte(b: Byte)
      requires Valid() && |put| - |got| < PIPESIZE
      modifies this`data, this`nwrite, this`put
      ensures Valid() && put == old(put) + [b]
    {
      Put(data, nread, nwrite, put[|got|..], b);
      assert (put + [b])[|got|..] == put[|got|..] + [b];
      hide Window;
      data := data[nwrite % PIPESIZE := b];
      nwrite := Next(nwrite);
      put := put + [b];
      assert got == put[..|got|];
    }

    /** ch = data[nread % PIPESIZE]; nread++. */
    method TakeByte() returns (b: Byte)
      requires Valid() && |got| < |put|
      modifies this`nread, this`got
      ensures Valid() && b == put[|old(got)|] && got == old(got) + [b]
    {
      Take(data, nread, nwrite, put[|got|..]);
      assert put[|got|..][1..] == put[|got| + 1..];
      hide Window;
      b := data[nread % PIPESIZE];
      nread := Next(nread);
      got := got + [b];
      assert got == put[..|got|];
    }

    /**
     * The loop of pipewrite from byte `i` of `n` on, until it ends or sleeps with the lock released; the first
     * `good` bytes of the source can be read, and the writer is seen to be killed at byte `kill`.
     */
    method Write(source: seq<Byte>, i: nat, good: nat, kill: nat) returns (j: nat, end: WriteEnd)
      requires Valid() && i <= |source|
      modifies this`data, this`nwrite, this`put
      ensures Valid() && i <= j <= |source| && put == old(put) + source[i..j]
      ensures end.Written? <==> j == |source|
      ensures end.Refused? <==> j < |source| && (!readopen || j >= kill)
      ensures end.Full? <==> j < |source| && readopen && j < kill && |put| - |got| == PIPESIZE
      ensures end.BadSource? <==> j < |source| && readopen && j < kill && |put| - |got| < PIPESIZE && j >= good
      ensures j > i ==> readopen && j <= kill && j <= good
    {
      j := i;
      assert source[i..i] == [];
      while j < |source|
        invariant Valid() && i <= j <= |source| && put == old(put) + source[i..j]
        invariant j > i ==> readopen && j <= kill && j <= good
      {
        if !readopen || j >= kill {
          return j, Refused;
        }
        EmptyAndFull(data, nread, nwrite, put[|got|..]);
        if nwrite == (nread + PIPESIZE) % WRAP {
          return j, Full;
        }
        if j >= good {
          return j, BadSource;
        }
        PutByte(source[j]);
        assert source[i..j + 1] == source[i..j] + [source[j]];
        j := j + 1;
      }
      end := Written;
    }

    /** The copy loop of piperead; the first `good` bytes of the destination can be written. */
    method Read(n: nat, good: nat) returns (bytes: seq<Byte>)
      requires Valid()
      modifies this`nread, this`got
      ensures Valid() && got == old(got) + bytes && bytes <= put[|old(got)|..]
      ensures |bytes| == Min(n, Min(good, |put| - |old(got)|))
    {
      bytes := [];
      var i := 0;
      while i < n
        invariant Valid() && 0 <= i <= n && i <= good && |bytes| == i && got == old(got) + bytes
        invariant bytes <= put[|old(got)|..]
      {
        EmptyAndFull(data, nread, nwrite, put[|got|..]);
        if nread == nwrite {
          assert got == put;
          break;
        }
        if i >= good {
          break;
        }
        var b := TakeByte();
        bytes := bytes + [b];
        assert put[|old(got)|..][i] == b;
        i := i + 1;
      }
    }

    /**
     piperead from where it holds the lock, until it returns or sleeps. It waits exactly while the
     pipe is empty and can still be written, and otherwise takes as many of the oldest bytes as
     there are, as were asked for and as the destination holds; -1 stands for the failures.
     */
    method Piperead(n: nat, good: nat, killed: bool) returns (bytes: seq<Byte>, end: ReadEnd, ret: int)
      requires Valid()
      modifies this`nread, this`got
      ensures Valid() && got == old(got) + bytes && bytes <= put[|old(got)|..]
      ensures end.Waits? <==> old(got) == put && writeopen && !killed
      ensures end.Killed? <==> old(got) == put && writeopen && killed
      ensures end.BadTarget? <==> old(got) != put && n > 0 && good == 0
      ensures |bytes| == if end.Copied? then Min(n, Min(good, |put| - |old(got)|)) else 0
      ensures ret == if end.Copied? then |bytes| else -1
      ensures end.Copied? && ret == 0 && n > 0 ==> old(got) == put && !writeopen
    {
      EmptyAndFull(data, nread, nwrite, put[|got|..]);
      bytes := [];
      if nread == nwrite && writeopen {
        if killed {
          return [], Killed, -1;
        }
        return [], Waits, -1;
      }
      var some := nread != nwrite;
      bytes := Read(n, good);
      if n > 0 && some && good == 0 {
        return [], BadTarget, -1;
      }
      return bytes, Copied, |bytes|;
    }

    /** pipeclose. */
    method Close(writable: bool) returns (gone: bool)
      requires Valid()
      modifies this`readopen, this`writeopen
      ensures Valid() && readopen == (old(readopen) && writable) && writeopen == (old(writeopen) && !writable)
      ensures gone <==> !readopen && !writeopen
    {
      if writable {
        writeopen := false;
      } else {
        readopen := false;
      }
      gone := !readopen && !writeopen;
    }

    /** One call of a run. */
    method Perform(u: Use) returns (given: seq<Byte>, taken: seq<Byte>)
      requires Valid() && (u.Writes? ==> u.from <= |u.source|)
      modifies this
      ensures Valid() && Fair(u, given, taken) && put == old(put) + given && got == old(got) + taken
    {
      hide Window;
      given, taken := [], [];
      match u {
        case Writes(source, from, good, kill) =>
          var j, _ := Write(source, from, good, kill);
          given := source[from..j];
          assert given == source[from..][..j - from];
        case Reads(n, good, killed) =>
          var bytes, _, _ := Piperead(n, good, killed);
          taken := bytes;
        case Closes(writable) =>
          var _ := Close(writable);
      }
    }
  }

  /**
   Any calls of pipewrite, piperead and pipeclose, by any processes in any order. After each of
   them the bytes read so far are the first of the bytes written so far, in order, none lost and
   none twice, and at most 512 are still to be read.
   */
  method Session(uses: seq<Use>) returns (given: seq<seq<Byte>>, taken: seq<seq<Byte>>)
    requires forall k :: 0 <= k < |uses| && uses[k].Writes? ==> uses[k].from <= |uses[k].source|
    ensures |given| == |taken| == |uses|
    ensures forall k :: 0 <= k < |uses| ==> Fair(uses[k], given[k], taken[k])
    ensures forall k :: 0 <= k <= |uses| ==> InOrder(given[..k], taken[..k])
  {
    hide Fair, Flat, PipeBuffer.Valid, InOrder;
    var p := new PipeBuffer();
    given, taken := [], [];
    FlatNone();
    p.Ordered([], []);
    while |given| < |uses|
      invariant |given| == |taken| <= |uses| && p.Valid() && fresh(p)
      invariant p.put == Flat(given) && p.got == Flat(taken)
      invariant forall k :: 0 <= k < |given| ==> Fair(uses[k], given[k], taken[k])
      invariant forall k :: 0 <= k <= |given| ==> InOrder(given[..k], taken[..k])
    {
      var g, t := p.Perform(uses[|given|]);
      FlatMore(given, g);
      FlatMore(taken, t);
      p.Ordered(given + [g], taken + [t]);
      OrderedMore(given, taken, g, t);
      given, taken := given + [g], taken + [t];
    }
  }
}
