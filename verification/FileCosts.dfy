/** What bmap and writei cost: the blocks they take from the bitmap, and the blocks
    they give to log_write (fs.c, file.c). */
module FileCosts {
  import opened Blocks
  import opened Common
  import opened DiskFormat
  import opened Ownership
  import opened FileData
  import opened FileSteps

  // ----- free blocks -----

  /** The number of clear bits from n on. */
  ghost function FreeFrom(blk: Disk, sb: Superblock, n: nat): nat
    requires |blk| == sb.size && GoodLayout(sb)
    decreases sb.size - n
  {
    if n >= sb.size then 0 else FreeFrom(blk, sb, n + 1) + if Used(blk, sb, n) then 0 else 1
  }

  /** The number of clear bits. */
  ghost function FreeCount(blk: Disk, sb: Superblock): nat
    requires |blk| == sb.size && GoodLayout(sb)
  {
    FreeFrom(blk, sb, 0)
  }

  /** From blk to blk' n free blocks have been taken. */
  ghost predicate Took(blk: Disk, blk': Disk, sb: Superblock, n: nat) {
    |blk| == |blk'| == sb.size && GoodLayout(sb) && FreeCount(blk, sb) == FreeCount(blk', sb) + n
  }

  lemma {:induction false} NoneFrom(blk: Disk, sb: Superblock, n: nat)
    requires |blk| == sb.size && GoodLayout(sb) && forall b | 0 <= b < sb.size :: Used(blk, sb, b)
    ensures FreeFrom(blk, sb, n) == 0
    decreases sb.size - n
  {
    if n < sb.size {
      NoneFrom(blk, sb, n + 1);
    }
  }

  lemma NoneFree(blk: Disk, sb: Superblock)
    requires |blk| == sb.size && GoodLayout(sb) && forall b | 0 <= b < sb.size :: Used(blk, sb, b)
    ensures FreeCount(blk, sb) == 0
  {
    NoneFrom(blk, sb, 0);
  }

  lemma {:induction false} MarkedFrom(blk: Disk, sb: Superblock, a: nat, n: nat)
    requires |blk| == sb.size && GoodLayout(sb) && DataStart(sb) <= a < sb.size && !Used(blk, sb, a)
    ensures FreeFrom(blk, sb, n) == FreeFrom(Marked(blk, sb, a), sb, n) + if n <= a then 1 else 0
    decreases sb.size - n
  {
    if n < sb.size {
      MarkedUsed(blk, sb, a, n);
      MarkedFrom(blk, sb, a, n + 1);
    }
  }

  /** balloc takes one. */
  lemma MarkedTakes(blk: Disk, sb: Superblock, a: nat)
    requires |blk| == sb.size && GoodLayout(sb) && DataStart(sb) <= a < sb.size && !Used(blk, sb, a)
    ensures Took(blk, Marked(blk, sb, a), sb, 1)
  {
    MarkedFrom(blk, sb, a, 0);
  }

  lemma {:induction false} WriteFrom(blk: Disk, sb: Superblock, x: nat, data: Block, n: nat)
    requires |blk| == sb.size && GoodLayout(sb) && x < sb.size && (x < sb.bmapstart || DataStart(sb) <= x)
    ensures FreeFrom(blk, sb, n) == FreeFrom(blk[x := data], sb, n)
    decreases sb.size - n
  {
    if n < sb.size {
      UsedFrame(blk, sb, x, data, n);
      WriteFrom(blk, sb, x, data, n + 1);
    }
  }

  /** Writing a block outside the bitmap takes none. */
  lemma WriteTakesNone(blk: Disk, sb: Superblock, x: nat, data: Block)
    requires |blk| == sb.size && GoodLayout(sb) && x < sb.size && (x < sb.bmapstart || DataStart(sb) <= x)
    ensures Took(blk, blk[x := data], sb, 0)
  {
    WriteFrom(blk, sb, x, data, 0);
  }

  /** Free blocks that bmap takes for block bn of a file. */
  function Needs(blk: Disk, d: Dinode, bn: nat): nat
    requires WellFormed(d) && bn < MAXFILE
  {
    if Slot(blk, d, DataSlot(bn)) != 0 then 0
    else if bn >= NDIRECT && d.addrs[NDIRECT] == 0 then 2
    else 1
  }

  /** Free blocks that a file without holes takes to grow from m to m' blocks. */
  function Growth(m: nat, m': nat): nat {
    if m' <= m then 0 else m' - m + if m <= NDIRECT < m' then 1 else 0
  }

  lemma NeedsGrowth(blk: Disk, d: Dinode, m0: nat, cur: nat, k: nat)
    requires 0 < k && cur % BSIZE + k <= BSIZE && cur + k <= MAXBYTES
    requires WellFormed(d) && Dense(blk, d, Max(m0, BlocksFor(cur)))
    ensures Needs(blk, d, cur / BSIZE) + Growth(m0, BlocksFor(cur)) == Growth(m0, BlocksFor(cur + k))
  {
    BlockArithmetic(m0, cur, k);
  }

  lemma GrowthMonotone(m0: nat, a: nat, b: nat)
    requires a <= b
    ensures BlocksFor(a) <= BlocksFor(b) && Growth(m0, BlocksFor(a)) <= Growth(m0, BlocksFor(b))
  {
  }

  lemma TookMore(blk0: Disk, blk1: Disk, blk2: Disk, sb: Superblock, m: nat, n: nat)
    requires Took(blk0, blk1, sb, m) && Took(blk1, blk2, sb, n)
    ensures Took(blk0, blk2, sb, m + n)
  {
  }

  // ----- what is logged -----

  /** What bmap logs when it finds a new block at addr: the bit, the zeroed block,
      and the indirect block x if the address goes into it. */
  ghost function BmapLogs(sb: Superblock, owner: Owner, bn: nat, addr: nat, x: nat): set<nat> {
    {addr, BitmapBlock(sb, addr)}
    + if bn < NDIRECT then {} else if x in owner then {x} else {x, BitmapBlock(sb, x)}
  }

  /** All that a call of bmap does when it finds an address. */
  ghost predicate Bmapped(blk: Disk, ino: seq<Dinode>, owner: Owner, l: set<nat>,
                          blk': Disk, ino': seq<Dinode>, owner': Owner, l': set<nat>,
                          sb: Superblock, i: nat, bn: nat, addr: Word)
    requires |blk| == sb.size && GoodLayout(sb) && GoodTable(sb, ino) && i < |ino| && bn < MAXFILE
  {
    && Mapped(blk, ino, owner, blk', ino', owner', sb, i, bn, addr)
    && Took(blk, blk', sb, Needs(blk, ino[i], bn))
    && l' == l + if addr in owner then {} else BmapLogs(sb, owner, bn, addr, ino'[i].addrs[NDIRECT])
  }

  /** The block of the file that slot k is for. */
  function FileBlock(k: nat): int {
    if k < NDIRECT then k else k - 1
  }

  /** a has the bit of a block that was taken. */
  ghost predicate NewBit(sb: Superblock, owner0: Owner, owner: Owner, a: nat) {
    exists b | b in owner && b !in owner0 :: BitmapBlock(sb, b) == a
  }

  /** Block a has a new bit, or it is one of the data blocks lo ..< hi of inode i, or
      its indirect block, where `ind` says whether that has a new address. */
  ghost predicate Charged(sb: Superblock, owner0: Owner, owner: Owner, i: nat, lo: nat, hi: nat, ind: bool, a: nat) {
    || NewBit(sb, owner0, owner, a)
    || (a in owner && owner[a].0 == i && if owner[a].1 == NDIRECT then ind else lo <= FileBlock(owner[a].1) < hi)
  }

  /** Between l and l' exactly these blocks have been logged. */
  ghost predicate Logs(l: set<nat>, l': set<nat>, sb: Superblock, owner0: Owner, owner: Owner,
                       i: nat, lo: nat, hi: nat, ind: bool) {
    forall a: nat {:trigger Charged(sb, owner0, owner, i, lo, hi, ind, a)} ::
      a in l' <==> a in l || Charged(sb, owner0, owner, i, lo, hi, ind, a)
  }

  /** Blocks keep their owners. */
  ghost predicate Grows(owner: Owner, owner': Owner) {
    forall a | a in owner :: a in owner' && owner'[a] == owner[a]
  }

  /** Where the blocks that bmap takes go. */
  ghost predicate NewOwners(owner: Owner, owner': Owner, i: nat, bn: nat, addr: nat, x: nat) {
    && Grows(owner, owner')
    && addr in owner' && owner'[addr] == (i, DataSlot(bn))
    && (forall b | b in owner' && owner'[b] == (i, DataSlot(bn)) :: b == addr)
    && (bn >= NDIRECT ==> x in owner' && owner'[x] == (i, NDIRECT))
    && (forall b | b in owner' && owner'[b] == (i, NDIRECT) :: b == x)
    && (forall b | b in owner' && b !in owner :: b == addr || (bn >= NDIRECT && b == x))
  }

  lemma MappedOwners(blk: Disk, ino: seq<Dinode>, owner: Owner, blk': Disk, ino': seq<Dinode>, owner': Owner,
                     sb: Superblock, i: nat, bn: nat, addr: Word)
    requires GoodTable(sb, ino) && Allocated(ino, i) && bn < MAXFILE
    requires Mapped(blk, ino, owner, blk', ino', owner', sb, i, bn, addr)
    ensures NewOwners(owner, owner', i, bn, addr, ino'[i].addrs[NDIRECT])
  {
    assert OnRecord(blk', ino', owner', i, DataSlot(bn));
    if ino'[i].addrs[NDIRECT] != 0 {
      IndirectOnRecord(blk', sb, ino', owner', i);
    }
    forall b | b in owner'
      ensures owner'[b] == (i, DataSlot(bn)) ==> b == addr
      ensures owner'[b] == (i, NDIRECT) ==> b == ino'[i].addrs[NDIRECT]
    {
      assert Genuine(blk', sb, ino', owner', b);
    }
  }

  /** One turn of writei's loop: bmap, and log_write of the data block. */
  lemma ChunkLogs(l: set<nat>, l': set<nat>, sb: Superblock, owner: Owner, owner': Owner,
                  i: nat, bn: nat, next: nat, addr: nat, x: nat)
    requires NewOwners(owner, owner', i, bn, addr, x) && next == bn + 1
    requires l' == l + {addr} + if addr in owner then {} else BmapLogs(sb, owner, bn, addr, x)
    requires addr in owner ==> owner' == owner
    ensures Logs(l, l', sb, owner, owner', i, bn, next, addr !in owner && bn >= NDIRECT)
  {
    if addr !in owner {
      assert NewBit(sb, owner, owner', BitmapBlock(sb, addr));
      assert bn >= NDIRECT && x !in owner ==> NewBit(sb, owner, owner', BitmapBlock(sb, x));
      forall a | NewBit(sb, owner, owner', a)
        ensures a in l'
      {
        var b :| b in owner' && b !in owner && BitmapBlock(sb, b) == a;
        assert b == addr || (bn >= NDIRECT && b == x);
      }
    }
  }

  /** A further turn of writei's loop. */
  lemma LogsMore(l0: set<nat>, l1: set<nat>, l2: set<nat>, sb: Superblock, owner0: Owner, owner1: Owner, owner2: Owner,
                 i: nat, lo: nat, hi: nat, bn: nat, next: nat, ind1: bool, ind2: bool)
    requires Grows(owner0, owner1) && Grows(owner1, owner2) && lo <= bn && bn <= hi <= next == bn + 1
    requires Logs(l0, l1, sb, owner0, owner1, i, lo, hi, ind1) && Logs(l1, l2, sb, owner1, owner2, i, bn, next, ind2)
    requires forall a | a in owner2 && a !in owner1 ::
               owner2[a] == (i, DataSlot(bn)) || (ind2 && owner2[a] == (i, NDIRECT))
    ensures Logs(l0, l2, sb, owner0, owner2, i, lo, next, ind1 || ind2)
  {
    forall a: nat
      ensures a in l2 <==> a in l0 || Charged(sb, owner0, owner2, i, lo, next, ind1 || ind2, a)
    {
      assert a in l1 <==> a in l0 || Charged(sb, owner0, owner1, i, lo, hi, ind1, a);
      assert a in l2 <==> a in l1 || Charged(sb, owner1, owner2, i, bn, next, ind2, a);
      BitsMore(sb, owner0, owner1, owner2, a);
    }
  }

  lemma BitsMore(sb: Superblock, owner0: Owner, owner1: Owner, owner2: Owner, a: nat)
    requires Grows(owner0, owner1) && Grows(owner1, owner2)
    ensures NewBit(sb, owner0, owner2, a) <==> NewBit(sb, owner0, owner1, a) || NewBit(sb, owner1, owner2, a)
  {
  }

  // ----- writei -----

  /** The block after the last one logged when n bytes have been written from off on. */
  function LogEnd(off: nat, n: nat): nat {
    if n == 0 then off / BSIZE else BlocksFor(off + n)
  }

  /** Growing from m to m' blocks puts an address into the indirect block. */
  predicate NewIndirect(m: nat, m': nat) {
    m' > m && m' > NDIRECT
  }

  /** What n bytes from off on have cost in a file that had m0 blocks. */
  ghost predicate Cost(l0: set<nat>, blk0: Disk, owner0: Owner, l: set<nat>, blk: Disk, owner: Owner,
                       sb: Superblock, i: nat, m0: nat, off: nat, n: nat) {
    && Grows(owner0, owner)
    && (BlocksFor(off + n) <= m0 ==> owner == owner0)
    && Took(blk0, blk, sb, Growth(m0, BlocksFor(off + n)))
    && Logs(l0, l, sb, owner0, owner, i, off / BSIZE, LogEnd(off, n), NewIndirect(m0, BlocksFor(off + n)))
  }

  lemma CostStarts(l: set<nat>, blk: Disk, owner: Owner, sb: Superblock, i: nat, m0: nat, off: nat)
    requires |blk| == sb.size && GoodLayout(sb) && BlocksFor(off) <= m0
    ensures Cost(l, blk, owner, l, blk, owner, sb, i, m0, off, 0)
  {
  }

  /** Whether the turn at byte cur puts an address into the indirect block. */
  lemma IndirectStep(blk: Disk, d: Dinode, m0: nat, cur: nat, k: nat)
    requires 0 < k && cur % BSIZE + k <= BSIZE && cur + k <= MAXBYTES
    requires WellFormed(d) && Dense(blk, d, Max(m0, BlocksFor(cur)))
    ensures BlocksFor(cur + k) == cur / BSIZE + 1
    ensures NewIndirect(m0, BlocksFor(cur + k)) <==>
              || NewIndirect(m0, BlocksFor(cur))
              || (Slot(blk, d, DataSlot(cur / BSIZE)) == 0 && cur / BSIZE >= NDIRECT)
  {
    BlockArithmetic(m0, cur, k);
  }

  /** One turn of writei's loop that finds its block. */
  lemma CostStep(l0: set<nat>, blk0: Disk, owner0: Owner, l1: set<nat>, blk1: Disk, ino1: seq<Dinode>, owner1: Owner,
                 l2: set<nat>, blk2: Disk, ino2: seq<Dinode>, owner2: Owner, sb: Superblock, i: nat, m0: nat,
                 off: nat, cur: nat, k: nat, addr: Word, data: Block)
    requires off <= cur && Cost(l0, blk0, owner0, l1, blk1, owner1, sb, i, m0, off, cur - off)
    requires 0 < k && cur % BSIZE + k <= BSIZE && cur + k <= MAXBYTES
    requires Owned(blk1, sb, ino1, owner1) && Allocated(ino1, i) && Dense(blk1, ino1[i], Max(m0, BlocksFor(cur)))
    requires Mapped(blk1, ino1, owner1, blk2, ino2, owner2, sb, i, cur / BSIZE, addr) && addr < |blk2|
    requires Took(blk1, blk2, sb, Needs(blk1, ino1[i], cur / BSIZE))
    requires l2 == l1 + {addr} + if addr in owner1 then {}
                                 else BmapLogs(sb, owner1, cur / BSIZE, addr, ino2[i].addrs[NDIRECT])
    ensures Cost(l0, blk0, owner0, l2, blk2[addr := data], owner2, sb, i, m0, off, cur + k - off)
  {
    var bn := cur / BSIZE;
    var next := BlocksFor(cur + k);
    var ind1, ind2 := NewIndirect(m0, BlocksFor(cur)), addr !in owner1 && bn >= NDIRECT;
    assert OnRecord(blk1, ino1, owner1, i, DataSlot(bn));
    IndirectStep(blk1, ino1[i], m0, cur, k);
    BlockArithmetic(m0, cur, k);
    MappedOwners(blk1, ino1, owner1, blk2, ino2, owner2, sb, i, bn, addr);
    ChunkLogs(l1, l2, sb, owner1, owner2, i, bn, next, addr, ino2[i].addrs[NDIRECT]);
    LogsMore(l0, l1, l2, sb, owner0, owner1, owner2, i, off / BSIZE, LogEnd(off, cur - off), bn, next, ind1, ind2);
    CostTook(blk0, blk1, ino1, blk2, ino2, owner2, sb, i, m0, cur, k, addr, data);
  }

  lemma CostTook(blk0: Disk, blk1: Disk, ino1: seq<Dinode>, blk2: Disk, ino2: seq<Dinode>, owner2: Owner,
                 sb: Superblock,
                 i: nat, m0: nat, cur: nat, k: nat, addr: Word, data: Block)
    requires 0 < k && cur % BSIZE + k <= BSIZE && cur + k <= MAXBYTES
    requires i < |ino1| && WellFormed(ino1[i]) && Dense(blk1, ino1[i], Max(m0, BlocksFor(cur)))
    requires Owned(blk2, sb, ino2, owner2) && Allocated(ino2, i)
    requires addr == Slot(blk2, ino2[i], DataSlot(cur / BSIZE)) != 0 && addr < |blk2|
    requires Took(blk0, blk1, sb, Growth(m0, BlocksFor(cur))) && Took(blk1, blk2, sb, Needs(blk1, ino1[i], cur / BSIZE))
    ensures Took(blk0, blk2[addr := data], sb, Growth(m0, BlocksFor(cur + k)))
  {
    var needs := Needs(blk1, ino1[i], cur / BSIZE);
    NeedsGrowth(blk1, ino1[i], m0, cur, k);
    AddressInRange(blk2, sb, ino2, owner2, i, DataSlot(cur / BSIZE));
    WriteTakesNone(blk2, sb, addr, data);
    TookMore(blk0, blk1, blk2, sb, Growth(m0, BlocksFor(cur)), needs);
  }

  /** One turn that does not. */
  lemma CostFails(l0: set<nat>, blk0: Disk, owner0: Owner, l1: set<nat>, blk1: Disk, d: Dinode, owner1: Owner,
                  sb: Superblock, i: nat, m0: nat, off: nat, cur: nat, k: nat)
    requires off <= cur && Cost(l0, blk0, owner0, l1, blk1, owner1, sb, i, m0, off, cur - off)
    requires 0 < k && cur % BSIZE + k <= BSIZE && cur + k <= MAXBYTES
    requires WellFormed(d) && Dense(blk1, d, Max(m0, BlocksFor(cur)))
    requires FreeCount(blk1, sb) < Needs(blk1, d, cur / BSIZE)
    ensures FreeCount(blk0, sb) < Growth(m0, BlocksFor(cur + k))
  {
    NeedsGrowth(blk1, d, m0, cur, k);
  }

  lemma LogsElsewhere(l0: set<nat>, l: set<nat>, sb: Superblock, owner0: Owner, owner: Owner,
                      i: nat, lo: nat, hi: nat, ind: bool, more: set<nat>)
    requires Logs(l0, l, sb, owner0, owner, i, lo, hi, ind)
    ensures Logs(l0 + more, l + more, sb, owner0, owner, i, lo, hi, ind)
  {
    forall a: nat
      ensures a in l + more <==> a in l0 + more || Charged(sb, owner0, owner, i, lo, hi, ind, a)
    {
      assert a in l <==> a in l0 || Charged(sb, owner0, owner, i, lo, hi, ind, a);
    }
  }

  /** The end of writei logs the inode's block if the size grows. */
  function InodeLog(sb: Superblock, i: nat, size: nat, off: nat, n: nat): set<nat> {
    if 0 < n && size < off + n then {InodeBlock(sb, i)} else {}
  }

  lemma CostEnds(l0: set<nat>, blk0: Disk, owner0: Owner, l: set<nat>, blk: Disk, owner: Owner, blk': Disk,
                 sb: Superblock, i: nat, m0: nat, off: nat, n: nat, more: set<nat>)
    requires Cost(l0, blk0, owner0, l, blk, owner, sb, i, m0, off, n) && Took(blk, blk', sb, 0)
    ensures Cost(l0 + more, blk0, owner0, l + more, blk', owner, sb, i, m0, off, n)
  {
    LogsElsewhere(l0, l, sb, owner0, owner, i, off / BSIZE, LogEnd(off, n), NewIndirect(m0, BlocksFor(off + n)), more);
  }

  /** Where writei is: what it has done and what that has cost. */
  ghost predicate Underway(sb: Superblock, blk0: Disk, ino0: seq<Dinode>, owner0: Owner, l0: set<nat>,
                           blk: Disk, ino: seq<Dinode>, owner: Owner, l: set<nat>,
                           i: nat, m0: nat, off: nat, src: seq<Byte>, cur: nat) {
    && Writing(sb, blk0, ino0, owner0, blk, ino, owner, i, m0, off, src, cur)
    && Cost(l0, blk0, owner0, l, blk, owner, sb, i, m0, off, cur - off)
  }

  lemma UnderwayStarts(sb: Superblock, blk: Disk, ino: seq<Dinode>, owner: Owner, l: set<nat>,
                       i: nat, off: nat, src: seq<Byte>)
    requires Owned(blk, sb, ino, owner) && Allocated(ino, i) && IsFile(blk, ino[i]) && off <= ino[i].size
    ensures Underway(sb, blk, ino, owner, l, blk, ino, owner, l, i, BlocksFor(ino[i].size), off, src, off)
  {
    WritingStarts(sb, blk, ino, owner, i, off, src);
    CostStarts(l, blk, owner, sb, i, BlocksFor(ino[i].size), off);
  }

  /** One turn of writei's loop. */
  lemma UnderwayStep(sb: Superblock, blk0: Disk, ino0: seq<Dinode>, owner0: Owner, l0: set<nat>,
                     blk: Disk, ino: seq<Dinode>, owner: Owner, l: set<nat>,
                     blk1: Disk, ino1: seq<Dinode>, owner1: Owner, l1: set<nat>, blk2: Disk,
                     i: nat, m0: nat, off: nat, src: seq<Byte>, cur: nat, k: nat, next: nat, addr: Word)
    requires Underway(sb, blk0, ino0, owner0, l0, blk, ino, owner, l, i, m0, off, src, cur)
    requires 0 < k && cur + k <= MAXBYTES && cur + k - off <= |src| && cur % BSIZE + k <= BSIZE
    requires off <= m0 * BSIZE && next == cur + k
    requires Bmapped(blk, ino, owner, l, blk1, ino1, owner1, l1, sb, i, cur / BSIZE, addr) && addr < |blk1|
    requires blk2 == blk1[addr := Patched(blk1[addr], cur % BSIZE, src[cur - off..cur - off + k])]
    ensures Underway(sb, blk0, ino0, owner0, l0, blk2, ino1, owner1, l1 + {addr}, i, m0, off, src, next)
  {
    WritingStep(sb, blk0, ino0, owner0, blk, ino, owner, blk1, ino1, owner1, blk2, i, m0, off, src, cur, k, addr);
    CostStep(l0, blk0, owner0, l, blk, ino, owner, l1 + {addr}, blk1, ino1, owner1, sb, i, m0, off, cur, k, addr,
             blk2[addr]);
  }

  /** What writei has promised when it returns, and what it has cost. */
  ghost predicate Done(sb: Superblock, blk0: Disk, ino0: seq<Dinode>, owner0: Owner, l0: set<nat>,
                       blk: Disk, ino: seq<Dinode>, owner: Owner, l: set<nat>, i: nat, off: nat, src: seq<Byte>)
    requires i < |ino0| && WellFormed(ino0[i]) && off <= ino0[i].size <= MAXBYTES
  {
    && Spliced(sb, blk0, ino0, owner0, blk, ino, owner, i, off, src)
    && Cost(l0 + InodeLog(sb, i, ino0[i].size, off, |src|), blk0, owner0, l, blk, owner, sb, i,
            BlocksFor(ino0[i].size), off, |src|)
  }

  /** The last step of writei: iupdate if the size has grown. */
  lemma UnderwayEnds(sb: Superblock, blk0: Disk, ino0: seq<Dinode>, owner0: Owner, l0: set<nat>,
                     blk: Disk, ino: seq<Dinode>, owner: Owner, l: set<nat>,
                     i: nat, off: nat, src: seq<Byte>, ino': seq<Dinode>, blk': Disk)
    requires Owned(blk0, sb, ino0, owner0) && Allocated(ino0, i) && IsFile(blk0, ino0[i]) && off <= ino0[i].size
    requires Underway(sb, blk0, ino0, owner0, l0, blk, ino, owner, l, i, BlocksFor(ino0[i].size), off, src, off + |src|)
    requires forall j | 0 <= j < sb.ninodes :: OnDisk(blk0, sb, ino0, j)
    requires ino' == ino[i := ino[i].(size := SizeAfter(ino0[i].size, off, |src|))]
    requires InodeBlock(sb, i) < |blk|
    requires blk' == if ino'[i].size == ino0[i].size then blk
                     else blk[InodeBlock(sb, i) := PutInode(blk[InodeBlock(sb, i)], i % IPB, ino'[i])]
    ensures Done(sb, blk0, ino0, owner0, l0, blk', ino', owner, l + InodeLog(sb, i, ino0[i].size, off, |src|),
                 i, off, src)
  {
    WriteiOut(sb, blk0, ino0, owner0, blk, ino, owner, i, off, src, ino', blk');
    MetaBlocks(sb, i, 0);
    WriteTakesNone(blk, sb, InodeBlock(sb, i), PutInode(blk[InodeBlock(sb, i)], i % IPB, ino'[i]));
    CostEnds(l0, blk0, owner0, l, blk, owner, blk', sb, i, BlocksFor(ino0[i].size), off, |src|,
             InodeLog(sb, i, ino0[i].size, off, |src|));
  }

  // ----- how many blocks an operation logs -----

  ghost function DataBlocks(owner: Owner, i: nat, lo: nat, hi: nat): set<nat> {
    set a | a in owner && owner[a].0 == i && owner[a].1 != NDIRECT && lo <= FileBlock(owner[a].1) < hi
  }

  ghost function NewBits(sb: Superblock, owner0: Owner, owner: Owner): set<nat> {
    set b | b in owner && b !in owner0 :: BitmapBlock(sb, b)
  }

  lemma {:induction false} CountData(blk: Disk, sb: Superblock, ino: seq<Dinode>, owner: Owner, i: nat, lo: nat,
                                     hi: nat)
    requires Owned(blk, sb, ino, owner) && Allocated(ino, i) && lo <= hi <= MAXFILE
    requires forall n: nat | lo <= n < hi :: Slot(blk, ino[i], DataSlot(n)) != 0
    ensures |DataBlocks(owner, i, lo, hi)| == hi - lo
    decreases hi - lo
  {
    if lo == hi {
      assert DataBlocks(owner, i, lo, hi) == {};
    } else {
      var k := DataSlot(hi - 1);
      var a := Slot(blk, ino[i], k);
      CountData(blk, sb, ino, owner, i, lo, hi - 1);
      assert OnRecord(blk, ino, owner, i, k);
      forall b | b in owner && owner[b] == (i, k)
        ensures b == a
      {
        assert Genuine(blk, sb, ino, owner, b);
      }
      assert DataBlocks(owner, i, lo, hi) == DataBlocks(owner, i, lo, hi - 1) + {a};
    }
  }

  /** Blocks that writing n bytes at off logs, for a file of `size` bytes. */
  function LoggedBy(size: nat, off: nat, n: nat, bits: nat): int {
    LogEnd(off, n) - off / BSIZE + bits
    + (if NewIndirect(BlocksFor(size), BlocksFor(off + n)) then 1 else 0)
    + (if 0 < n && size < off + n then 1 else 0)
  }

  /** Four kinds of blocks, each in its own part of the disk. */
  lemma CountParts(l: set<nat>, data: set<nat>, bits: set<nat>, ind: set<nat>, inode: set<nat>, sb: Superblock)
    requires GoodLayout(sb) && l == data + bits + ind + inode && data !! ind
    requires forall a <- data :: DataStart(sb) <= a
    requires forall a <- ind :: DataStart(sb) <= a
    requires forall a <- bits :: sb.bmapstart <= a < DataStart(sb)
    requires forall a <- inode :: a < sb.bmapstart
    ensures |l| == |data| + |bits| + |ind| + |inode|
  {
    assert data !! bits && (data + bits) !! ind && (data + bits + ind) !! inode;
  }

  lemma LoggedParts(l0: set<nat>, l: set<nat>, sb: Superblock, owner0: Owner, owner: Owner,
                    i: nat, lo: nat, hi: nat, ind: bool, x: nat)
    requires Logs(l0, l, sb, owner0, owner, i, lo, hi, ind)
    requires forall a | a in owner && owner[a] == (i, NDIRECT) :: a == x
    requires ind ==> x in owner && owner[x] == (i, NDIRECT)
    ensures l == DataBlocks(owner, i, lo, hi) + NewBits(sb, owner0, owner) + (if ind then {x} else {}) + l0
  {
    forall a: nat
      ensures a in l <==>
                a in DataBlocks(owner, i, lo, hi) + NewBits(sb, owner0, owner) + (if ind then {x} else {}) + l0
    {
      assert a in l <==> a in l0 || Charged(sb, owner0, owner, i, lo, hi, ind, a);
    }
  }

  lemma CountCharged(l0: set<nat>, l: set<nat>, blk: Disk, ino: seq<Dinode>, owner0: Owner, owner: Owner,
                     sb: Superblock,
                     i: nat, lo: nat, hi: nat, ind: bool)
    requires Owned(blk, sb, ino, owner) && Allocated(ino, i) && lo <= hi <= MAXFILE
    requires forall n: nat | lo <= n < hi :: Slot(blk, ino[i], DataSlot(n)) != 0
    requires Logs(l0, l, sb, owner0, owner, i, lo, hi, ind) && (ind ==> ino[i].addrs[NDIRECT] != 0)
    requires forall a <- l0 :: a < sb.bmapstart
    ensures |l| == hi - lo + |NewBits(sb, owner0, owner)| + |l0| + if ind then 1 else 0
  {
    var x := ino[i].addrs[NDIRECT];
    CountData(blk, sb, ino, owner, i, lo, hi);
    if x != 0 {
      IndirectOnRecord(blk, sb, ino, owner, i);
    }
    forall a | a in owner
      ensures DataStart(sb) <= a < sb.size && (owner[a] == (i, NDIRECT) ==> a == x)
      ensures sb.bmapstart <= BitmapBlock(sb, a) < DataStart(sb)
    {
      assert Genuine(blk, sb, ino, owner, a);
      MetaBlocks(sb, i, a);
    }
    LoggedParts(l0, l, sb, owner0, owner, i, lo, hi, ind, x);
    CountParts(l, DataBlocks(owner, i, lo, hi), NewBits(sb, owner0, owner), if ind then {x} else {}, l0, sb);
  }

  /** The number of blocks that a call of writei logs, in an operation of its own. */
  lemma CountLogged(blk0: Disk, owner0: Owner, l: set<nat>, blk: Disk, ino: seq<Dinode>, owner: Owner, sb: Superblock,
                    i: nat, size: nat, off: nat, n: nat)
    requires Owned(blk, sb, ino, owner) && Allocated(ino, i) && off + n <= MAXBYTES && off <= size
    requires Dense(blk, ino[i], Max(BlocksFor(size), BlocksFor(off + n)))
    requires Cost(InodeLog(sb, i, size, off, n), blk0, owner0, l, blk, owner, sb, i, BlocksFor(size), off, n)
    ensures |l| == LoggedBy(size, off, n, |NewBits(sb, owner0, owner)|)
  {
    var lo, hi, ind := off / BSIZE, LogEnd(off, n), NewIndirect(BlocksFor(size), BlocksFor(off + n));
    assert lo <= hi <= Max(BlocksFor(size), BlocksFor(off + n));
    MetaBlocks(sb, i, 0);
    CountCharged(InodeLog(sb, i, size, off, n), l, blk, ino, owner0, owner, sb, i, lo, hi, ind);
  }

  /** On a disk with one block of bitmap it is that block. */
  lemma OneBitmap(blk0: Disk, ino0: seq<Dinode>, owner0: Owner, l0: set<nat>, l: set<nat>,
                  blk: Disk, ino: seq<Dinode>, owner: Owner, sb: Superblock, i: nat, m0: nat, off: nat, n: nat)
    requires sb.size < BPB && Owned(blk0, sb, ino0, owner0) && Owned(blk, sb, ino, owner)
    requires Allocated(ino0, i) && Allocated(ino, i) && off + n <= MAXBYTES
    requires Dense(blk0, ino0[i], m0) && Dense(blk, ino[i], Max(m0, BlocksFor(off + n)))
    requires Cost(l0, blk0, owner0, l, blk, owner, sb, i, m0, off, n)
    ensures |NewBits(sb, owner0, owner)| == if BlocksFor(off + n) > m0 then 1 else 0
  {
    if BlocksFor(off + n) > m0 {
      var a := Slot(blk, ino[i], DataSlot(m0));
      assert OnRecord(blk, ino, owner, i, DataSlot(m0));
      assert a in owner0 ==> Genuine(blk0, sb, ino0, owner0, a);
      assert a in owner && a !in owner0;
      forall b | b in owner
        ensures BitmapBlock(sb, b) == sb.bmapstart
      {
        assert Genuine(blk, sb, ino, owner, b);
      }
      assert NewBits(sb, owner0, owner) == {sb.bmapstart};
    } else {
      assert NewBits(sb, owner0, owner) == {};
    }
  }

  /** When a chunk of filewrite logs more blocks than an operation may: it reaches over
      eight data blocks, and the file grows by a block that needs an indirect address. */
  lemma TooMany(size: nat, off: nat, n: nat)
    requires 0 < n <= CHUNK && off <= size
    ensures
      var m, m' := BlocksFor(size), BlocksFor(off + n);
      var count := LoggedBy(size, off, n, if m' > m then 1 else 0);
      && count <= MAXOPBLOCKS + 1
      && (count > MAXOPBLOCKS <==> m' - off / BSIZE == 8 && m' > m && m' > NDIRECT)
  {
  }

  // ----- filewrite -----

  /** The bytes that the chunks of filewrite carry before the first one is refused. */
  function Accepted(size: nat, off: nat, n: nat): nat {
    if off > size then 0
    else if off + n <= MAXBYTES then n
    else if off > MAXBYTES then 0
    else (MAXBYTES - off) / CHUNK * CHUNK
  }

  /** Free blocks that a file of `size` bytes takes for k bytes written at off. */
  function FileGrowth(size: nat, off: nat, k: nat): nat {
    if k == 0 then 0 else Growth(BlocksFor(size), BlocksFor(off + k))
  }

  function FileSize(size: nat, off: nat, k: nat): nat {
    if k == 0 then size else Max(size, off + k)
  }

  /** The end of the chunk that starts at k. */
  function ChunkEnd(k: nat, n: nat): nat {
    if n - k > CHUNK then k + CHUNK else n
  }

  /** filewrite has come to byte k, at the start of a chunk. */
  predicate AtChunk(size: nat, off: nat, k: nat, n: nat) {
    k <= n && (k == n || k % CHUNK == 0) && (k > 0 ==> off <= size && off + k <= MAXBYTES)
  }

  lemma GrowthAdds(size: nat, off: nat, k: nat, j: nat)
    requires k < j && off <= FileSize(size, off, k)
    ensures FileGrowth(size, off, j)
         == FileGrowth(size, off, k) + Growth(BlocksFor(FileSize(size, off, k)), BlocksFor(off + j))
  {
    assert BlocksFor(Max(size, off + k)) == Max(BlocksFor(size), BlocksFor(off + k));
    assert BlocksFor(off + k) <= BlocksFor(off + j);
  }

  lemma RoundsDown(k: nat, room: nat)
    requires k % CHUNK == 0 && k <= room
    ensures k <= room / CHUNK * CHUNK
    ensures room < k + CHUNK ==> room / CHUNK * CHUNK == k
  {
    assert k % 6656 == 0 && room / CHUNK == room / 6656;
  }

  /** A chunk that writei refuses is the first one not accepted. */
  lemma ChunkRefused(size: nat, off: nat, k: nat, n: nat)
    requires AtChunk(size, off, k, n) && k < n && size <= MAXBYTES
    requires off + k > FileSize(size, off, k) || off + ChunkEnd(k, n) > MAXBYTES
    ensures Accepted(size, off, n) == k
  {
    if off + k <= MAXBYTES {
      RoundsDown(k, MAXBYTES - off);
    }
  }

  lemma ChunkAccepted(size: nat, off: nat, k: nat, n: nat)
    requires AtChunk(size, off, k, n) && k < n && size <= MAXBYTES
    requires off + k <= FileSize(size, off, k) && off + ChunkEnd(k, n) <= MAXBYTES
    ensures AtChunk(size, off, ChunkEnd(k, n), n)
    ensures ChunkEnd(k, n) <= Accepted(size, off, n)
  {
    var j := ChunkEnd(k, n);
    if j != n {
      RoundsDown(j, MAXBYTES - off);
    }
  }

  lemma FileGrowthMonotone(size: nat, off: nat, j: nat, k: nat)
    requires j <= k
    ensures FileGrowth(size, off, j) <= FileGrowth(size, off, k)
  {
    if j > 0 {
      GrowthMonotone(BlocksFor(size), off + j, off + k);
    }
  }

  lemma AllAccepted(size: nat, off: nat, n: nat)
    requires AtChunk(size, off, n, n) && size <= MAXBYTES
    ensures Accepted(size, off, n) == n
  {
  }

  /** Where filewrite is: k bytes of addr are in a file that had bytes c and has bytes d. */
  ghost predicate Progress(c: seq<Byte>, off: nat, addr: seq<Byte>, k: nat, d: seq<Byte>,
                           blk0: Disk, blk: Disk, sb: Superblock) {
    && AtChunk(|c|, off, k, |addr|)
    && |c| <= MAXBYTES
    && |d| == FileSize(|c|, off, k)
    && InPart(c, off, addr, k, d)
    && Took(blk0, blk, sb, FileGrowth(|c|, off, k))
  }

  /** src is the chunk addr[k..j], which goes to offset at. */
  predicate IsChunk(addr: seq<Byte>, off: nat, k: nat, j: nat, at: nat, src: seq<Byte>) {
    k < |addr| && j == ChunkEnd(k, |addr|) && src == addr[k..j] && at == off + k
  }

  lemma ProgressStep(c: seq<Byte>, off: nat, addr: seq<Byte>, k: nat, j: nat, d: seq<Byte>, d': seq<Byte>,
                     at: nat, src: seq<Byte>, blk0: Disk, blk: Disk, blk': Disk, sb: Superblock)
    requires Progress(c, off, addr, k, d, blk0, blk, sb) && IsChunk(addr, off, k, j, at, src)
    requires at <= |d| && at + |src| <= MAXBYTES
    requires File(d') == File(Overwrite(d, at, src))
    requires Took(blk, blk', sb, Growth(BlocksFor(|d|), BlocksFor(at + |src|)))
    ensures Progress(c, off, addr, j, d', blk0, blk', sb)
  {
    assert at + |src| == off + j;
    ChunkAccepted(|c|, off, k, |addr|);
    GrowthAdds(|c|, off, k, j);
    TookMore(blk0, blk, blk', sb, FileGrowth(|c|, off, k), Growth(BlocksFor(|d|), BlocksFor(off + j)));
    SpliceMore(c, off, addr, k, j, d, at, d');
    assert |d'| == Max(|d|, off + j);
  }

  lemma ProgressPanics(c: seq<Byte>, off: nat, addr: seq<Byte>, k: nat, j: nat, d: seq<Byte>,
                       at: nat, src: seq<Byte>, blk0: Disk, blk: Disk, sb: Superblock)
    requires Progress(c, off, addr, k, d, blk0, blk, sb) && IsChunk(addr, off, k, j, at, src)
    requires at <= |d| && at + |src| <= MAXBYTES
    requires FreeCount(blk, sb) < Growth(BlocksFor(|d|), BlocksFor(at + |src|))
    ensures FreeCount(blk0, sb) < FileGrowth(|c|, off, Accepted(|c|, off, |addr|))
  {
    assert at + |src| == off + j;
    ChunkAccepted(|c|, off, k, |addr|);
    GrowthAdds(|c|, off, k, j);
    FileGrowthMonotone(|c|, off, j, Accepted(|c|, off, |addr|));
  }

  /** A chunk that writei refuses ends the loop. */
  lemma ProgressEnds(c: seq<Byte>, off: nat, addr: seq<Byte>, k: nat, j: nat, d: seq<Byte>,
                     at: nat, src: seq<Byte>, blk0: Disk, blk: Disk, sb: Superblock)
    requires Progress(c, off, addr, k, d, blk0, blk, sb) && IsChunk(addr, off, k, j, at, src)
    requires at > |d| || at + |src| > MAXBYTES
    ensures Accepted(|c|, off, |addr|) == k
  {
    ChunkRefused(|c|, off, k, |addr|);
  }

  /** What filewrite of addr at off has made of a file with bytes c: the bytes of the
      accepted chunks are written over it as if at once. */
  ghost predicate FileWritten(c: seq<Byte>, off: nat, addr: seq<Byte>, r: int, off': nat, file: File,
                              blk0: Disk, blk: Disk, sb: Superblock) {
    var n := Accepted(|c|, off, |addr|);
    && n <= |addr| && (n > 0 ==> off <= |c|)
    && r == (if n == |addr| then |addr| else -1)
    && off' == off + n
    && file == File(if n == 0 then c else Overwrite(c, off, addr[..n]))
    && Took(blk0, blk, sb, FileGrowth(|c|, off, n))
  }

  lemma ProgressGives(c: seq<Byte>, off: nat, addr: seq<Byte>, k: nat, d: seq<Byte>, r: int, off': nat,
                      blk0: Disk, blk: Disk, sb: Superblock)
    requires Progress(c, off, addr, k, d, blk0, blk, sb) && k == Accepted(|c|, off, |addr|) && off' == off + k
    requires r == if off' == off + |addr| then |addr| else -1
    ensures FileWritten(c, off, addr, r, off', File(d), blk0, blk, sb)
  {
    if k > 0 {
      SpliceIs(c, off, addr, k);
    }
  }
}
