/** The buffer cache of bio.c over the synchronous disk of memide.c. Every method
    is what one process does under bcache.lock or under a buffer's sleep lock;
    BufferUsers is about processes that take turns at it. */
module BufferCache {
  import opened Blocks
  import opened LruList
  import Log

  const NBUF: nat := 30
  const HEAD: nat := NBUF  // bcache.head
  const ROOTDEV := 1

  /** struct buf, without its list links. */
  datatype Buf = Buf(
    dev: nat, blockno: nat, valid: bool, dirty: bool, locked: bool, refcnt: nat, data: Block)

  predicate Holds(b: Buf, dev: nat, blockno: nat) {
    b.dev == dev && b.blockno == blockno
  }

  /** What bget may recycle. */
  predicate Unused(b: Buf) {
    b.refcnt == 0 && !b.dirty
  }

  /** Buffer b against the disk and against the last contents written or logged. */
  predicate Agrees(b: Buf, disk: Disk, contents: Disk)
    requires |disk| == |contents|
  {
    && (b.locked ==> 0 < b.refcnt)
    && (b.dirty ==> b.valid)
    && (b.valid ==> b.dev == ROOTDEV && b.blockno < |disk|)
    && (b.dev == ROOTDEV && b.blockno < |disk| ==>
          && (!b.dirty ==> disk[b.blockno] == contents[b.blockno])
          && (b.valid && !b.locked ==> b.data == contents[b.blockno]))
  }

  predicate Differ(a: Buf, b: Buf) {
    a.dev != 0 ==> !Holds(b, a.dev, a.blockno)
  }

  /** At most one buffer per block (binit leaves every buffer at device 0). */
  ghost predicate Unique(bufs: seq<Buf>) {
    forall i, j {:trigger Differ(bufs[i], bufs[j])} | 0 <= i < |bufs| && 0 <= j < |bufs| && i != j ::
      Differ(bufs[i], bufs[j])
  }

  /** A block whose disk copy is out of date has a dirty buffer. */
  ghost predicate Stale(bufs: seq<Buf>, disk: Disk, contents: Disk)
    requires |disk| == |contents|
  {
    forall n | 0 <= n < |disk| && disk[n] != contents[n] ::
      exists i | 0 <= i < |bufs| :: Holds(bufs[i], ROOTDEV, n) && bufs[i].dirty
  }

  ghost predicate Coherent(bufs: seq<Buf>, disk: Disk, contents: Disk) {
    && |disk| == |contents|
    && Unique(bufs)
    && (forall i {:trigger Agrees(bufs[i], disk, contents)} | 0 <= i < |bufs| :: Agrees(bufs[i], disk, contents))
    && Stale(bufs, disk, contents)
  }

  /** Every buffer is on the list once, latest release first. */
  ghost predicate ByRelease(order: seq<nat>, released: seq<nat>, time: nat) {
    && |released| == NBUF
    && (forall b: nat | b < NBUF :: b in order)
    && (forall i | 0 <= i < |order| :: order[i] < NBUF && released[order[i]] < time)
    && (forall i, j | 0 <= i < j < |order| :: released[order[i]] > released[order[j]])
  }

  // ----- what one buffer's change does to the cache -----

  /** Changing buffer i in place, and with it at most the disk and the contents
      of the block it holds. */
  lemma UpdateCoherent(bufs: seq<Buf>, i: nat, b: Buf, disk: Disk, contents: Disk, disk': Disk, contents': Disk)
    requires Coherent(bufs, disk, contents) && i < |bufs| && Holds(b, bufs[i].dev, bufs[i].blockno)
    requires |disk'| == |contents'| == |disk|
    requires forall n | 0 <= n < |disk| && !Holds(b, ROOTDEV, n) :: disk'[n] == disk[n] && contents'[n] == contents[n]
    requires Agrees(b, disk', contents')
    ensures Coherent(bufs[i := b], disk', contents')
  {
    var bufs' := bufs[i := b];
    forall j, k | 0 <= j < |bufs| && 0 <= k < |bufs| && j != k
      ensures Differ(bufs'[j], bufs'[k])
    {
      assert Differ(bufs[j], bufs[k]);
    }
    forall j | 0 <= j < |bufs|
      ensures Agrees(bufs'[j], disk', contents')
    {
      if j != i {
        assert Differ(bufs[j], bufs[i]) && Agrees(bufs[j], disk, contents);
      }
    }
    forall n | 0 <= n < |disk'| && disk'[n] != contents'[n]
      ensures exists k | 0 <= k < |bufs'| :: Holds(bufs'[k], ROOTDEV, n) && bufs'[k].dirty
    {
      if Holds(b, ROOTDEV, n) {
        assert Holds(bufs'[i], ROOTDEV, n) && bufs'[i].dirty;
      } else {
        var k :| 0 <= k < |bufs| && Holds(bufs[k], ROOTDEV, n) && bufs[k].dirty;
        assert Holds(bufs'[k], ROOTDEV, n) && bufs'[k].dirty;
      }
    }
  }

  /** Giving an unused buffer to a block that no buffer holds loses nothing. */
  lemma RecycleCoherent(bufs: seq<Buf>, i: nat, b: Buf, disk: Disk, contents: Disk)
    requires Coherent(bufs, disk, contents) && i < |bufs| && Unused(bufs[i])
    requires forall j | 0 <= j < |bufs| :: !Holds(bufs[j], b.dev, b.blockno)
    requires !b.valid && !b.dirty && !b.locked
    ensures !bufs[i].locked
    ensures Coherent(bufs[i := b], disk, contents)
  {
    assert Agrees(bufs[i], disk, contents);
    var bufs' := bufs[i := b];
    forall j, k | 0 <= j < |bufs| && 0 <= k < |bufs| && j != k
      ensures Differ(bufs'[j], bufs'[k])
    {
      assert Differ(bufs[j], bufs[k]);
    }
    forall j | 0 <= j < |bufs|
      ensures Agrees(bufs'[j], disk, contents)
    {
      assert Agrees(bufs[j], disk, contents);
    }
    forall n | 0 <= n < |disk| && disk[n] != contents[n]
      ensures exists k | 0 <= k < |bufs'| :: Holds(bufs'[k], ROOTDEV, n) && bufs'[k].dirty
    {
      var k :| 0 <= k < |bufs| && Holds(bufs[k], ROOTDEV, n) && bufs[k].dirty;
      assert Holds(bufs'[k], ROOTDEV, n) && bufs'[k].dirty;
    }
  }

  lemma FrontByRelease(order: seq<nat>, released: seq<nat>, time: nat, k: nat)
    requires ByRelease(order, released, time) && Distinct(order) && k < |order|
    ensures ByRelease(ToFront(order, k), released[order[k] := time], time + 1)
  {
    var order', released' := ToFront(order, k), released[order[k] := time];
    assert forall i | 0 < i < |order'| :: order'[i] == order[if i <= k then i - 1 else i];
    forall b: nat | b < NBUF
      ensures b in order'
    {
      assert b in order;
      var i :| 0 <= i < |order| && order[i] == b;
      assert order'[if i < k then i + 1 else if i == k then 0 else i] == b;
    }
  }

  // ----- binit -----

  /** The list after buffers 0 ..< n have been pushed. */
  ghost predicate Descending(order: seq<nat>, n: nat) {
    |order| == n && forall i | 0 <= i < n :: order[i] == n - 1 - i
  }

  lemma EmptyRing(next: seq<nat>, prev: seq<nat>)
    requires |next| == |prev| == HEAD + 1 && next[HEAD] == HEAD == prev[HEAD]
    ensures Ring([], HEAD, next, prev)
  {
    assert LinkAt([], HEAD, next, prev, -1);
  }

  lemma DescendingByRelease(order: seq<nat>, released: seq<nat>)
    requires Descending(order, NBUF) && |released| == NBUF && forall i | 0 <= i < NBUF :: released[i] == i
    ensures ByRelease(order, released, NBUF)
  {
    forall b: nat | b < NBUF
      ensures b in order
    {
      assert order[NBUF - 1 - b] == b;
    }
  }

  class Cache {
    const buf: array<Buf>
    const next: array<nat>
    const prev: array<nat>
    var disk: Disk                 // memdisk
    ghost var contents: Disk       // last contents written or logged, per block
    ghost var order: seq<nat>      // the list from head.next on
    ghost var released: seq<nat>   // when each buffer last dropped to refcnt 0
    ghost var time: nat

    ghost predicate ValidList()
      reads this, next, prev
    {
      && next != prev
      && Ring(order, HEAD, next[..], prev[..])
      && ByRelease(order, released, time)
    }

    ghost predicate Valid()
      reads this, buf, next, prev
    {
      && buf.Length == NBUF
      && ValidList()
      && Coherent(buf[..], disk, contents)
    }

    /** binit: the buffers in order of their last insertion, all at device 0. */
    constructor (disk: Disk)
      ensures Valid() && this.disk == disk == contents
      ensures fresh(buf) && fresh(next) && fresh(prev)
      ensures forall i | 0 <= i < NBUF :: buf[i].dev == 0 && buf[i].refcnt == 0
    {
      this.disk, contents := disk, disk;
      buf := new Buf[NBUF](_ => Buf(0, 0, false, false, false, 0, ZeroBlock()));
      next := new nat[NBUF + 1](_ => HEAD);
      prev := new nat[NBUF + 1](_ => HEAD);
      order, released, time := [], seq(NBUF, i => i), NBUF;
      new;
      EmptyRing(next[..], prev[..]);
      for b := 0 to NBUF
        invariant Ring(order, HEAD, next[..], prev[..])
        invariant Descending(order, b)
        modifies next, prev, this`order
      {
        LinkFront(b, order);
        order := [b] + order;
      }
      DescendingByRelease(order, released);
    }

    /** A buffer that is not in the ring goes in behind head. */
    method LinkFront(b: nat, ghost rest: seq<nat>)
      requires next != prev && Ring(rest, HEAD, next[..], prev[..]) && b < HEAD && b !in rest
      modifies next, prev
      ensures Ring([b] + rest, HEAD, next[..], prev[..])
    {
      ghost var N, P := next[..], prev[..];
      assert LinkAt(rest, HEAD, N, P, -1);
      next[b] := next[HEAD];
      prev[b] := HEAD;
      prev[next[HEAD]] := b;
      next[HEAD] := b;
      PushRing(rest, HEAD, b, N, P, next[..], prev[..]);
    }

    /** The first loop of bget, from head.next on: k is where it stops. */
    method FindCached(dev: nat, blockno: nat) returns (b: nat, ghost k: nat)
      requires buf.Length == NBUF && Ring(order, HEAD, next[..], prev[..])
      ensures k <= |order| && b == Node(order, HEAD, k)
      ensures forall i | 0 <= i < k :: order[i] < NBUF && !Holds(buf[order[i]], dev, blockno)
      ensures k < |order| ==> b < NBUF && Holds(buf[b], dev, blockno)
    {
      assert LinkAt(order, HEAD, next[..], prev[..], -1);
      b := next[HEAD];
      k := 0;
      while b != HEAD
        invariant k <= |order| && b == Node(order, HEAD, k)
        invariant forall i | 0 <= i < k :: order[i] < NBUF && !Holds(buf[order[i]], dev, blockno)
        decreases |order| - k
      {
        assert k < |order|;
        if buf[b].dev == dev && buf[b].blockno == blockno {
          return;
        }
        assert LinkAt(order, HEAD, next[..], prev[..], k);
        b := next[b];
        k := k + 1;
      }
    }

    /** The second loop of bget, from head.prev on. */
    method FindUnused() returns (b: nat, ghost k: int)
      requires buf.Length == NBUF && Ring(order, HEAD, next[..], prev[..])
      ensures -1 <= k < |order| && b == Node(order, HEAD, k)
      ensures forall i | k < i < |order| :: order[i] < NBUF && !Unused(buf[order[i]])
      ensures 0 <= k ==> b < NBUF && Unused(buf[b])
    {
      assert LinkAt(order, HEAD, next[..], prev[..], |order| - 1);
      b := prev[HEAD];
      k := |order| - 1;
      while b != HEAD
        invariant -1 <= k < |order| && b == Node(order, HEAD, k)
        invariant forall i | k < i < |order| :: order[i] < NBUF && !Unused(buf[order[i]])
        decreases k
      {
        assert 0 <= k;
        if buf[b].refcnt == 0 && !buf[b].dirty {
          return;
        }
        assert LinkAt(order, HEAD, next[..], prev[..], k - 1);
        b := prev[b];
        k := k - 1;
      }
    }

    /** A reference to the buffer for (dev, blockno), lock not yet taken; NBUF
        stands for the panic when there is none to recycle. Recycling takes the
        buffer released longest ago among the unused ones. */
    method Bget(dev: nat, blockno: nat) returns (b: nat)
      requires Valid()
      modifies buf
      ensures Valid()
      ensures b <= NBUF
      ensures b == NBUF ==>
                && buf[..] == old(buf[..])
                && forall i | 0 <= i < NBUF :: !Holds(buf[i], dev, blockno) && !Unused(buf[i])
      ensures b < NBUF ==>
                && Holds(buf[b], dev, blockno)
                && 0 < buf[b].refcnt
                && buf[..] == old(buf[..])[b := buf[b]]
                && (if old(Holds(buf[b], dev, blockno)) then buf[b] == old(buf[b]).(refcnt := old(buf[b].refcnt) + 1)
                    else
                      && !buf[b].valid && !buf[b].locked && buf[b].refcnt == 1
                      && old(Unused(buf[b]))
                      && (forall i | 0 <= i < NBUF && old(Unused(buf[i])) :: released[b] <= released[i])
                      && (forall i | 0 <= i < NBUF :: !old(Holds(buf[i], dev, blockno))))
    {
      ghost var k;
      b, k := FindCached(dev, blockno);
      if b != HEAD {
        assert Agrees(buf[..][b], disk, contents);
        UpdateCoherent(buf[..], b, buf[b].(refcnt := buf[b].refcnt + 1), disk, contents, disk, contents);
        buf[b] := buf[b].(refcnt := buf[b].refcnt + 1);
        assert buf[..] == old(buf[..])[b := buf[b]];
        return;
      }
      NotOnList(dev, blockno, k);
      ghost var u;
      b, u := FindUnused();
      if b != HEAD {
        OldestUnused(u);
        RecycleCoherent(buf[..], b, Buf(dev, blockno, false, false, false, 1, buf[b].data), disk, contents);
        buf[b] := Buf(dev, blockno, false, false, buf[b].locked, 1, buf[b].data);
        assert buf[..] == old(buf[..])[b := buf[b]];
      } else {
        OldestUnused(u);
      }
    }

    lemma NotOnList(dev: nat, blockno: nat, k: nat)
      requires Valid() && k == |order|
      requires forall i | 0 <= i < k :: order[i] < NBUF && !Holds(buf[order[i]], dev, blockno)
      ensures forall i | 0 <= i < NBUF :: !Holds(buf[i], dev, blockno)
    {
      forall i: nat | i < NBUF
        ensures !Holds(buf[i], dev, blockno)
      {
        assert i in order;
      }
    }

    lemma OldestUnused(k: int)
      requires Valid() && -1 <= k < |order|
      requires forall i | k < i < |order| :: order[i] < NBUF && !Unused(buf[order[i]])
      ensures forall i | 0 <= i < NBUF && Unused(buf[i]) :: 0 <= k && released[order[k]] <= released[i]
    {
      forall i: nat | i < NBUF && Unused(buf[i])
        ensures 0 <= k && released[order[k]] <= released[i]
      {
        assert i in order;
        var j :| 0 <= j < |order| && order[j] == i;
      }
    }

    /** iderw of memide.c: false stands for one of its panics. */
    method Iderw(b: nat) returns (ok: bool)
      requires buf.Length == NBUF && b < NBUF
      modifies buf, this`disk
      ensures ok <==> old(
                && buf[b].locked && !(buf[b].valid && !buf[b].dirty)
                && buf[b].dev == ROOTDEV && buf[b].blockno < |disk|)
      ensures !ok ==> buf[..] == old(buf[..]) && disk == old(disk)
      ensures ok ==>
                var o := old(buf[b]);
                if o.dirty then
                  && disk == old(disk)[o.blockno := o.data]
                  && buf[..] == old(buf[..])[b := o.(dirty := false, valid := true)]
                else
                  && disk == old(disk)
                  && buf[..] == old(buf[..])[b := o.(data := disk[o.blockno], valid := true)]
    {
      var x := buf[b];
      if !x.locked || (x.valid && !x.dirty) || x.dev != ROOTDEV || x.blockno >= |disk| {
        return false;
      }
      if x.dirty {
        x := x.(dirty := false);
        disk := disk[x.blockno := x.data];
      } else {
        x := x.(data := disk[x.blockno]);
      }
      buf[b] := x.(valid := true);
      ok := true;
    }

    /** The rest of bread, once the buffer's lock is free: take the lock and read
        the block if need be. The caller gets the last contents written or logged,
        whoever held the buffer in between. False is a panic of the driver. */
    method Enter(b: nat) returns (ok: bool)
      requires Valid() && b < NBUF && 0 < buf[b].refcnt && !buf[b].locked
      modifies buf, this`disk
      ensures Valid() && disk == old(disk)
      ensures ok <==> buf[b].dev == ROOTDEV && buf[b].blockno < |disk|
      ensures ok ==> buf[b].valid && buf[b].locked && buf[b].data == contents[buf[b].blockno]
      ensures buf[..] == old(buf[..])[b := old(buf[b]).(locked := true, valid := ok, data := buf[b].data)]
    {
      assert Agrees(buf[..][b], disk, contents);
      buf[b] := buf[b].(locked := true);
      ok := true;
      if !buf[b].valid {
        ok := Iderw(b);
      }
      UpdateCoherent(old(buf[..]), b, buf[b], disk, contents, disk, contents);
      assert buf[..] == old(buf[..])[b := buf[b]];
    }

    /** The holder of a buffer changes its data. */
    method Modify(b: nat, data: Block)
      requires Valid() && b < NBUF && buf[b].locked
      modifies buf
      ensures Valid()
      ensures buf[..] == old(buf[..])[b := old(buf[b]).(data := data)]
    {
      assert Agrees(buf[..][b], disk, contents);
      UpdateCoherent(buf[..], b, buf[b].(data := data), disk, contents, disk, contents);
      buf[b] := buf[b].(data := data);
      assert buf[..] == old(buf[..])[b := buf[b]];
    }

    /** bwrite: the data reaches the disk at once. */
    method Bwrite(b: nat) returns (ok: bool)
      requires Valid() && b < NBUF && buf[b].valid
      modifies buf, this`disk, this`contents
      ensures ok == old(buf[b].locked)
      ensures ok ==>
                && Valid() && buf[b].blockno < |old(disk)|
                && buf[..] == old(buf[..])[b := old(buf[b]).(dirty := false)]
                && disk == old(disk)[buf[b].blockno := buf[b].data]
                && contents == old(contents)[buf[b].blockno := buf[b].data]
    {
      assert Agrees(buf[..][b], disk, contents);
      if !buf[b].locked {
        return false;
      }
      buf[b] := buf[b].(dirty := true);
      ok := Iderw(b);
      if ok {
        contents := contents[buf[b].blockno := buf[b].data];
        UpdateCoherent(old(buf[..]), b, buf[b], old(disk), old(contents), disk, contents);
        assert buf[..] == old(buf[..])[b := buf[b]];
      }
    }

    /** What log_write does to the buffer: pinned until it is written. */
    method Pin(b: nat)
      requires Valid() && b < NBUF && buf[b].valid && buf[b].locked
      modifies buf, this`contents
      ensures Valid() && buf[b].blockno < |old(contents)|
      ensures buf[..] == old(buf[..])[b := old(buf[b]).(dirty := true)]
      ensures contents == old(contents)[buf[b].blockno := buf[b].data]
    {
      assert Agrees(buf[..][b], disk, contents);
      buf[b] := buf[b].(dirty := true);
      contents := contents[buf[b].blockno := buf[b].data];
      UpdateCoherent(old(buf[..]), b, buf[b], disk, old(contents), disk, contents);
      assert buf[..] == old(buf[..])[b := buf[b]];
    }

    /** The first half of brelse. The holder must have written or logged every
        change it made. */
    method Unlock(b: nat)
      requires Valid() && b < NBUF && buf[b].locked
      requires buf[b].valid && buf[b].blockno < |contents| ==> buf[b].data == contents[buf[b].blockno]
      modifies buf
      ensures Valid()
      ensures buf[..] == old(buf[..])[b := old(buf[b]).(locked := false)]
    {
      assert Agrees(buf[..][b], disk, contents);
      UpdateCoherent(buf[..], b, buf[b].(locked := false), disk, contents, disk, contents);
      buf[b] := buf[b].(locked := false);
      assert buf[..] == old(buf[..])[b := buf[b]];
    }

    /** The list surgery of brelse: b, at position k, moves to the front. */
    method MoveToFront(b: nat, ghost k: nat)
      requires ValidList() && k < |order| && order[k] == b
      modifies next, prev, this`order, this`released, this`time
      ensures ValidList()
      ensures order == ToFront(old(order), k)
      ensures released == old(released)[b := old(time)] && time == old(time) + 1
    {
      ghost var N, P := next[..], prev[..];
      assert LinkAt(order, HEAD, N, P, k - 1) && LinkAt(order, HEAD, N, P, k);
      prev[next[b]] := prev[b];
      next[prev[b]] := next[b];
      RemoveRing(order, HEAD, k, N, P, next[..], prev[..]);
      LinkFront(b, Remove(order, k));
      FrontByRelease(order, released, time, k);
      order := ToFront(order, k);
      released := released[b := time];
      time := time + 1;
    }

    /** The second half of brelse: drop the reference; with the last one the
        buffer becomes the most recently released. */
    method Drop(b: nat)
      requires Valid() && b < NBUF && 0 < buf[b].refcnt && (buf[b].locked ==> 1 < buf[b].refcnt)
      modifies buf, next, prev, this`order, this`released, this`time
      ensures Valid()
      ensures buf[..] == old(buf[..])[b := old(buf[b]).(refcnt := old(buf[b].refcnt) - 1)]
      ensures if buf[b].refcnt == 0 then
                && released == old(released)[b := old(time)] && time == old(time) + 1
                && order != [] && order[0] == b
              else released == old(released) && order == old(order) && time == old(time)
    {
      assert Agrees(buf[..][b], disk, contents);
      UpdateCoherent(buf[..], b, buf[b].(refcnt := buf[b].refcnt - 1), disk, contents, disk, contents);
      buf[b] := buf[b].(refcnt := buf[b].refcnt - 1);
      assert buf[..] == old(buf[..])[b := buf[b]];
      if buf[b].refcnt == 0 {
        assert b in order;
        ghost var k :| 0 <= k < |order| && order[k] == b;
        MoveToFront(b, k);
      }
    }

    /** bread when no other process has the block locked: the block's last contents, in
        a locked buffer. NBUF is a panic: there is neither a buffer for the block nor one
        to recycle, or the driver has no such block. */
    method Bread(dev: nat, blockno: nat) returns (b: nat)
      requires Valid()
      requires forall i | 0 <= i < NBUF && Holds(buf[i], dev, blockno) :: !buf[i].locked
      modifies buf, this`disk
      ensures Valid() && disk == old(disk) && b <= NBUF
      ensures b == NBUF <==>
                || dev != ROOTDEV || blockno >= |disk|
                || forall i | 0 <= i < NBUF :: !old(Holds(buf[i], dev, blockno)) && !old(Unused(buf[i]))
      ensures b < NBUF ==>
                && Holds(buf[b], dev, blockno) && buf[b].valid && buf[b].locked
                && buf[b].data == contents[blockno]
                && buf[b].refcnt == (if old(Holds(buf[b], dev, blockno)) then old(buf[b].refcnt) + 1 else 1)
                && buf[..] == old(buf[..])[b := buf[b]]
    {
      b := Bget(dev, blockno);
      if b < NBUF {
        assert Agrees(buf[..][b], disk, contents);
        var ok := Enter(b);
        if !ok {
          b := NBUF;
        }
      }
    }

    /** brelse with nobody in between its halves: false is its panic. With the last
        reference the buffer becomes the most recently released. */
    method Brelse(b: nat) returns (ok: bool)
      requires Valid() && b < NBUF && 0 < buf[b].refcnt
      requires buf[b].valid && buf[b].blockno < |contents| ==> buf[b].data == contents[buf[b].blockno]
      modifies buf, next, prev, this`order, this`released, this`time
      ensures Valid() && ok == old(buf[b].locked)
      ensures buf[..] == if ok then old(buf[..])[b := old(buf[b]).(locked := false, refcnt := old(buf[b].refcnt) - 1)]
                         else old(buf[..])
      ensures if ok && buf[b].refcnt == 0 then
                && released == old(released)[b := old(time)] && time == old(time) + 1
                && order != [] && order[0] == b
              else released == old(released) && order == old(order) && time == old(time)
    {
      ok := buf[b].locked;
      if ok {
        assert Agrees(buf[..][b], disk, contents);
        Unlock(b);
        Drop(b);
      }
    }
  }

  // ----- the cache as log.c sees it -----

  /** The dirty buffers among the first k. */
  ghost function DirtyMap(bufs: seq<Buf>, k: nat): map<nat, Block>
    requires k <= |bufs|
  {
    if k == 0 then map[]
    else
      var m, b := DirtyMap(bufs, k - 1), bufs[k - 1];
      if b.dirty && b.dev == ROOTDEV then m[b.blockno := b.data] else m
  }

  lemma {:induction false} DirtyMapAt(bufs: seq<Buf>, k: nat, disk: Disk, contents: Disk, n: nat)
    requires Coherent(bufs, disk, contents) && k <= |bufs| && n < |disk|
    requires forall i | 0 <= i < |bufs| :: !bufs[i].locked
    ensures n in DirtyMap(bufs, k) <==> exists i | 0 <= i < k :: Holds(bufs[i], ROOTDEV, n) && bufs[i].dirty
    ensures n in DirtyMap(bufs, k) ==> DirtyMap(bufs, k)[n] == contents[n]
  {
    if k > 0 {
      DirtyMapAt(bufs, k - 1, disk, contents, n);
      assert Agrees(bufs[k - 1], disk, contents);
      if Holds(bufs[k - 1], ROOTDEV, n) && bufs[k - 1].dirty {
        assert n in DirtyMap(bufs, k);
      }
    }
  }

  /** With no buffer locked, the last contents written or logged are the dirty
      buffers laid over the disk: what the log's procedures read. */
  lemma ContentsAreCached(bufs: seq<Buf>, disk: Disk, contents: Disk)
    requires Coherent(bufs, disk, contents)
    requires forall i | 0 <= i < |bufs| :: !bufs[i].locked
    ensures contents == Log.Cached(disk, DirtyMap(bufs, |bufs|))
  {
    var c := Log.Cached(disk, DirtyMap(bufs, |bufs|));
    forall n | 0 <= n < |disk|
      ensures c[n] == contents[n]
    {
      DirtyMapAt(bufs, |bufs|, disk, contents, n);
    }
  }
}
