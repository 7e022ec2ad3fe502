/**
  pipe.c: a ring buffer between writers and readers.

  Each method is what a process does under pi->lock from one sleep to the next, so any
  interleaving of readers and writers is a sequence of calls.  `accepted` and `delivered`
  are all bytes ever written to and read from the pipe.
 */
module Pipe {
  import opened Blocks

  const PIPESIZE: nat := 512

  // Bytes [from, upto) of the history are where the ring has them.
  ghost predicate Buffered(data: seq<Byte>, accepted: seq<Byte>, from: nat) {
    && |data| == PIPESIZE && from <= |accepted|
    && forall k :: from <= k < |accepted| ==> data[k % PIPESIZE] == accepted[k]
  }

  lemma Put(data: seq<Byte>, accepted: seq<Byte>, from: nat, ch: Byte)
    requires Buffered(data, accepted, from) && |accepted| - from < PIPESIZE
    ensures Buffered(data[|accepted| % PIPESIZE := ch], accepted + [ch], from)
  {
    var n := |accepted|;
    forall k | from <= k < n + 1 ensures data[n % PIPESIZE := ch][k % PIPESIZE] == (accepted + [ch])[k] {
      if k < n {
        OtherSlot(k, n);
      }
    }
  }

  lemma OtherSlot(a: nat, b: nat)
    requires a < b < a + PIPESIZE
    ensures a % PIPESIZE != b % PIPESIZE
  {
  }

  /** 32-bit counters: the ring slot is that of the full count, and they tell full from not full. */
  lemma Counters(r: nat, w: nat)
    requires r <= w <= r + PIPESIZE
    ensures w % UINT % PIPESIZE == w % PIPESIZE && r % UINT % PIPESIZE == r % PIPESIZE
    ensures w % UINT == (r % UINT + PIPESIZE) % UINT <==> w == r + PIPESIZE
    ensures w % UINT == r % UINT <==> w == r
    ensures (w % UINT + 1) % UINT == (w + 1) % UINT && (r % UINT + 1) % UINT == (r + 1) % UINT
  {
    Slot(w);
    Slot(r);
    Advance(r, w - r);
    Advance(r, PIPESIZE);
    Advance(r, 1);
    Advance(w, 1);
  }

  lemma Slot(a: nat)
    ensures a % UINT % PIPESIZE == a % PIPESIZE
  {
    var q, m := a / UINT, a % UINT;
    assert a == UINT * q + m;
    assert a == PIPESIZE * (0x80_0000 * q) + m;
    Residue(a, 0x80_0000 * q, m);
  }

  lemma Residue(a: nat, q: nat, m: nat)
    requires a == PIPESIZE * q + m
    ensures a % PIPESIZE == m % PIPESIZE
  {
  }

  // Adding d to a 32-bit counter.
  lemma Advance(a: nat, d: nat)
    requires d <= PIPESIZE
    ensures (a + d) % UINT == (a % UINT + d) % UINT
    ensures (a + d) % UINT == if a % UINT + d < UINT then a % UINT + d else a % UINT + d - UINT
  {
    var q, m := a / UINT, a % UINT;
    assert a == UINT * q + m;
    if m + d < UINT {
      Digit32(a + d, q, m + d);
      Digit32(m + d, 0, m + d);
    } else {
      Digit32(a + d, q + 1, m + d - UINT);
      Digit32(m + d, 1, m + d - UINT);
    }
  }

  lemma Digit32(a: nat, q: nat, m: nat)
    requires a == UINT * q + m && m < UINT
    ensures a % UINT == m
  {
  }

  /** How a stretch of pipewrite or piperead ends. */
  datatype Outcome = Returns(r: int) | Sleeps

  class Channel {
    const data: array<Byte>
    var nread: nat
    var nwrite: nat
    var readopen: bool
    var writeopen: bool
    ghost var accepted: seq<Byte>
    ghost var delivered: seq<Byte>

    ghost predicate Valid()
      reads this, data
    {
      && data.Length == PIPESIZE
      && |delivered| <= |accepted| <= |delivered| + PIPESIZE && delivered == accepted[..|delivered|]
      && nwrite == |accepted| % UINT && nread == |delivered| % UINT
      && Buffered(data[..], accepted, |delivered|)
    }

    constructor ()
      ensures Valid() && fresh(data) && readopen && writeopen && accepted == [] && delivered == []
    {
      data := new Byte[PIPESIZE];
      nread, nwrite, readopen, writeopen := 0, 0, true, true;
      accepted, delivered := [], [];
    }

    /**
      pipewrite of n bytes from byte i on; src are the bytes that can be copied in.  They
      are accepted in order, until all are, the pipe is full, or there is no reader.
     */
    method Write(src: seq<Byte>, n: int, i: nat, killed: bool) returns (out: Outcome, j: nat)
      requires Valid() && i <= |src| && (i < n ==> |src| <= n)
      modifies this`nwrite, this`accepted, data
      ensures Valid() && i <= j <= |src| && accepted == old(accepted) + src[i..j]
      ensures out.Sleeps? ==> readopen && !killed && |accepted| == |delivered| + PIPESIZE && j < n
      ensures out.Returns? ==> out.r == -1 || out.r == j
      ensures out == Returns(-1) <==> i < n && (!readopen || killed)
      ensures out == Returns(j) && j < n ==> j == |src|
    {
      hide Buffered;
      j := i;
      while j < n
        invariant Valid() && i <= j <= |src| && accepted == old(accepted) + src[i..j]
        invariant j > i ==> readopen && !killed
        invariant j < n ==> i < n
      {
        Counters(|delivered|, |accepted|);
        if !readopen || killed {
          return Returns(-1), j;
        }
        if nwrite == (nread + PIPESIZE) % UINT {
          return Sleeps, j;
        }
        if j == |src| {
          break;  // copyin failed
        }
        ghost var ring := data[..];
        Put(ring, accepted, |delivered|, src[j]);
        data[nwrite % PIPESIZE] := src[j];
        assert data[..] == ring[|accepted| % PIPESIZE := src[j]];
        nwrite := (nwrite + 1) % UINT;
        accepted := accepted + [src[j]];
        j := j + 1;
      }
      out := Returns(j);
    }

    /**
      piperead of n bytes, of which `room` can be copied out.  The bytes delivered are the
      oldest ones accepted and not delivered yet.  0 is returned for n > 0 only if the
      write end is closed and everything accepted has been delivered.
     */
    method Read(n: int, room: nat, killed: bool) returns (out: Outcome, dst: seq<Byte>)
      requires Valid()
      modifies this`nread, this`delivered
      ensures Valid() && delivered == old(delivered) + dst
      ensures out.Sleeps? <==> old(delivered) == accepted && writeopen && !killed
      ensures out.Sleeps? ==> dst == []
      ensures out.Returns? ==> out.r == |dst| || (out.r == -1 && dst == [])
      ensures out == Returns(-1) ==> (old(delivered) == accepted && writeopen && killed) || (room == 0 && n > 0 && old(delivered) != accepted)
      ensures out == Returns(0) && n > 0 ==> !writeopen && delivered == accepted
      ensures out.Returns? && out.r > 0 ==> |dst| <= n && |dst| <= room && (|dst| < n && |dst| < room ==> delivered == accepted)
    {
      hide Buffered;
      dst := [];
      Counters(|delivered|, |accepted|);
      Drained();
      if nread == nwrite && writeopen {
        if killed {
          return Returns(-1), dst;
        }
        return Sleeps, dst;
      }
      var i := 0;
      while i < n
        invariant 0 <= i == |dst| && i <= room && (i > 0 ==> i <= n) && Valid() && delivered == old(delivered) + dst
      {
        Counters(|delivered|, |accepted|);
        Drained();
        if nread == nwrite {
          break;
        }
        if i >= room {  // copyout failed
          if i == 0 {
            return Returns(-1), dst;
          }
          break;
        }
        var ch := Take();
        dst := dst + [ch];
        i := i + 1;
      }
      Drained();
      out := Returns(i);
    }

    // One byte, and the count of bytes read.
    method Take() returns (ch: Byte)
      requires Valid() && |delivered| < |accepted|
      modifies this`nread, this`delivered
      ensures Valid() && delivered == old(delivered) + [ch]
    {
      hide Buffered;
      Counters(|delivered|, |accepted|);
      Oldest();
      ch := data[nread % PIPESIZE];
      nread := (nread + 1) % UINT;
      delivered := delivered + [ch];
    }

    lemma Drained()
      requires Valid()
      ensures delivered == accepted <==> |delivered| == |accepted|
    {
    }

    // The slot at nread holds the oldest byte not delivered.
    lemma Oldest()
      requires Valid() && |delivered| < |accepted|
      ensures data[|delivered| % PIPESIZE] == accepted[|delivered|]
      ensures delivered + [accepted[|delivered|]] == accepted[..|delivered| + 1]
      ensures Buffered(data[..], accepted, |delivered| + 1)
    {
    }

    /** pipeclose; both ends closed frees the pipe. */
    method Close(writable: bool) returns (freed: bool)
      requires Valid()
      modifies this`readopen, this`writeopen
      ensures Valid() && readopen == (old(readopen) && writable) && writeopen == (old(writeopen) && !writable)
      ensures freed <==> !readopen && !writeopen
    {
      if writable {
        writeopen := false;
      } else {
        readopen := false;
      }
      freed := !readopen && !writeopen;
    }
  }
}
