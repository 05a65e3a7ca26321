/** The pipe of pipe.c: a ring of 512 bytes between two counters that wrap around at
    2^32. Whoever holds the lock runs from one sleep to the next; these stretches are
    the methods here, and they may come in any order. */
module Pipe {
  import opened Blocks

  const PIPESIZE := 512
  const WRAP := 0x1_0000_0000

  /** The slot of byte number i. */
  function Slot(i: nat): (s: nat)
    ensures s < PIPESIZE
  {
    i % 512
  }

  /** The counter after i bytes. */
  function Counter(i: nat): (c: Word) {
    i % 0x1_0000_0000
  }

  /** Wrapping around does not disturb the slots. */
  lemma CounterSlot(i: nat)
    ensures Counter(i) % 512 == Slot(i)
    ensures (Counter(i) + 1) % WRAP == Counter(i + 1)
  {
    var q := i / 0x1_0000_0000;
    assert i == q * 0x80_0000 * 512 + Counter(i);
  }

  /** The counters tell a full and an empty pipe, however often they have wrapped. */
  lemma CounterTests(read: nat, written: nat)
    requires read <= written <= read + PIPESIZE
    ensures Counter(written) == (Counter(read) + PIPESIZE) % WRAP <==> written == read + PIPESIZE
    ensures Counter(written) == Counter(read) <==> written == read
    ensures (Counter(written) - Counter(read)) % WRAP == written - read
  {
  }

  lemma SlotsDiffer(i: nat, j: nat)
    requires i < j < i + PIPESIZE
    ensures Slot(i) != Slot(j)
  {
  }

  class Pipe {
    const data: array<Byte>
    var nread: Word
    var nwrite: Word
    var readopen: bool
    var writeopen: bool
    /** All bytes ever stored, and how many of them have been delivered. */
    ghost var stored: seq<Byte>
    ghost var delivered: nat

    ghost predicate Valid()
      reads this, data
    {
      && data.Length == PIPESIZE
      && delivered <= |stored| <= delivered + PIPESIZE
      && nread == Counter(delivered) && nwrite == Counter(|stored|)
      && forall i | delivered <= i < |stored| :: data[Slot(i)] == stored[i]
    }

    /** pipealloc's part */
    constructor ()
      ensures Valid() && stored == [] && delivered == 0 && readopen && writeopen && fresh(data)
    {
      data := new Byte[PIPESIZE](i => 0);
      nread, nwrite, readopen, writeopen := 0, 0, true, true;
      stored, delivered := [], 0;
    }

    /** What is in the pipe. */
    ghost function Buffered(): seq<Byte>
      requires Valid()
      reads this, data
    {
      stored[delivered..]
    }

    method StoreByte(b: Byte)
      requires Valid() && |stored| < delivered + PIPESIZE
      modifies this`nwrite, this`stored, data
      ensures Valid() && stored == old(stored) + [b]
    {
      CounterSlot(|stored|);
      ghost var n := |stored|;
      data[nwrite % PIPESIZE] := b;
      nwrite := (nwrite + 1) % WRAP;
      stored := stored + [b];
      forall i | delivered <= i < n
        ensures data[Slot(i)] == stored[i]
      {
        SlotsDiffer(i, n);
      }
    }

    method FetchByte() returns (b: Byte)
      requires Valid() && delivered < |stored|
      modifies this`nread, this`delivered
      ensures Valid() && delivered == old(delivered) + 1 && b == stored[old(delivered)]
    {
      CounterSlot(delivered);
      b := data[nread % PIPESIZE];
      nread := (nread + 1) % WRAP;
      delivered := delivered + 1;
    }

    /** pipewrite from byte i on, until all is stored or the pipe is full. It then sleeps,
        or gives up if there is no reader any more or the process has been killed. */
    method Write(addr: seq<Byte>, i: nat, killed: bool) returns (j: nat, r: int)
      requires Valid() && i <= |addr|
      modifies this`nwrite, this`stored, data
      ensures Valid() && i <= j <= |addr| && stored == old(stored) + addr[i..j]
      ensures r == if j == |addr| then |addr| else if !readopen || killed then -1 else 0
      ensures j < |addr| ==> |Buffered()| == PIPESIZE
    {
      j := i;
      while j < |addr|
        invariant i <= j <= |addr| && Valid() && stored == old(stored) + addr[i..j]
      {
        CounterTests(delivered, |stored|);
        if nwrite == (nread + PIPESIZE) % WRAP {
          if !readopen || killed {
            return j, -1;
          }
          return j, 0;
        }
        StoreByte(addr[j]);
        j := j + 1;
      }
      return j, |addr|;
    }

    /** piperead when it does not sleep: up to n bytes, in order; -1 if it would have
        slept and has been killed. */
    method Read(n: nat, killed: bool) returns (sleeps: bool, r: int, addr: seq<Byte>)
      requires Valid()
      modifies this`nread, this`delivered
      ensures Valid() && stored == old(stored) && delivered == old(delivered) + |addr|
      ensures addr == stored[old(delivered)..delivered]
      ensures sleeps <==> old(Buffered()) == [] && writeopen && !killed
      ensures r == -1 <==> old(Buffered()) == [] && writeopen && killed
      ensures !sleeps && r != -1 ==> r == |addr| && (|addr| == n || Buffered() == [])
      ensures |addr| <= n && (sleeps || r == -1 ==> addr == [])
    {
      addr, r, sleeps := [], 0, false;
      CounterTests(delivered, |stored|);
      if nread == nwrite && writeopen {
        if killed {
          return false, -1, [];
        }
        return true, 0, [];
      }
      var i := 0;
      while i < n
        invariant 0 <= i <= n && Valid() && i == |addr| && delivered == old(delivered) + i
        invariant addr == stored[old(delivered)..delivered]
      {
        CounterTests(delivered, |stored|);
        if nread == nwrite {
          break;
        }
        var b := FetchByte();
        addr := addr + [b];
        i := i + 1;
      }
      return false, i, addr;
    }

    /** pipeclose: the bytes in the pipe stay. */
    method Close(writable: bool) returns (gone: bool)
      requires Valid()
      modifies this`readopen, this`writeopen
      ensures Valid() && gone == (!readopen && !writeopen)
      ensures writeopen == (old(writeopen) && !writable) && readopen == (old(readopen) && writable)
    {
      if writable {
        writeopen := false;
      } else {
        readopen := false;
      }
      gone := !readopen && !writeopen;
    }
  }
}
