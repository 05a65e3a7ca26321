/** What bmap, writei, itrunc and ialloc do to the blocks, the inodes and their
    owners, step by step (fs.c), and filewrite's chunks (file.c). */
module FileSteps {
  import opened Blocks
  import opened Common
  import opened DiskFormat
  import opened Ownership
  import opened FileData

  /** Inode i as it is stored on disk. */
  function InodeOn(blk: Disk, sb: Superblock, i: nat): (d: Dinode)
    requires |blk| == sb.size && GoodLayout(sb) && i < sb.ninodes
    ensures WellFormed(d)
  {
    MetaBlocks(sb, i, 0);
    GetInode(blk[InodeBlock(sb, i)], i % IPB)
  }

  ghost predicate OnDisk(blk: Disk, sb: Superblock, ino: seq<Dinode>, i: nat)
    requires |blk| == sb.size && GoodLayout(sb) && i < sb.ninodes && i < |ino|
  {
    InodeOn(blk, sb, i) == ino[i]
  }

  /** What bmap does: block bn of inode i has an address afterwards; every other
      block keeps its own, and no block held by anyone changes, except that the
      indirect block of i may get one more address. */
  ghost predicate Mapped(blk: Disk, ino: seq<Dinode>, owner: Owner, blk': Disk, ino': seq<Dinode>, owner': Owner,
                         sb: Superblock, i: nat, bn: nat, addr: Word)
    requires GoodTable(sb, ino) && i < |ino| && bn < MAXFILE
  {
    && Owned(blk', sb, ino', owner')
    && |blk'| == |blk|
    && ino' == ino[i := ino[i].(addrs := ino'[i].addrs)]
    && addr == Slot(blk', ino'[i], DataSlot(bn)) != 0
    && (forall n: nat | n < MAXFILE && n != bn :: Slot(blk', ino'[i], DataSlot(n)) == Slot(blk, ino[i], DataSlot(n)))
    && (if Slot(blk, ino[i], DataSlot(bn)) != 0 then blk' == blk && ino' == ino && owner' == owner
        else addr !in owner && addr < |blk'| && blk'[addr] == ZeroBlock())
    && (ino'[i].addrs[NDIRECT] != 0 <==> ino[i].addrs[NDIRECT] != 0 || bn >= NDIRECT)
    && (forall a <- owner :: a in owner' && owner'[a] == owner[a])
    && (forall a <- owner' ::
          a in owner || owner'[a] == (i, DataSlot(bn)) || (bn >= NDIRECT && owner'[a] == (i, NDIRECT)))
    && (forall a <- owner :: a < |blk| && owner[a] != (i, NDIRECT) ==> blk'[a] == blk[a])
    && (forall b | 0 <= b < sb.bmapstart && b < |blk| :: blk'[b] == blk[b])
  }

  /** Marking and zeroing free block a touches nothing held by anyone. */
  lemma MarkedElsewhere(blk: Disk, sb: Superblock, ino: seq<Dinode>, owner: Owner, a: nat)
    requires Owned(blk, sb, ino, owner) && a < sb.size && !Used(blk, sb, a)
    ensures DataStart(sb) <= a && a !in owner
    ensures forall b | b in owner && b < |blk| :: Marked(blk, sb, a)[b] == blk[b]
    ensures forall b | 0 <= b < sb.bmapstart && b < |blk| :: Marked(blk, sb, a)[b] == blk[b]
    ensures Marked(blk, sb, a)[a] == ZeroBlock()
    ensures forall i: nat, k: nat | Allocated(ino, i) && k < SLOTS ::
              Slot(Marked(blk, sb, a), ino[i], k) == Slot(blk, ino[i], k)
  {
    FreeIsUnowned(blk, sb, ino, owner, a);
    MetaBlocks(sb, 0, a);
    forall b | b in owner && b < |blk|
      ensures Marked(blk, sb, a)[b] == blk[b]
    {
      assert Genuine(blk, sb, ino, owner, b);
    }
    forall i: nat, k: nat | Allocated(ino, i) && k < SLOTS
      ensures Slot(Marked(blk, sb, a), ino[i], k) == Slot(blk, ino[i], k)
    {
      if ino[i].addrs[NDIRECT] != 0 {
        IndirectOnRecord(blk, sb, ino, owner, i);
      }
    }
  }

  /** balloc into slot k <= NDIRECT of inode i. */
  lemma AllocDirect(blk: Disk, sb: Superblock, ino: seq<Dinode>, owner: Owner, i: nat, k: nat, a: Word)
    requires Owned(blk, sb, ino, owner) && Allocated(ino, i) && k <= NDIRECT && ino[i].addrs[k] == 0
    requires a < sb.size && !Used(blk, sb, a)
    ensures Owned(Marked(blk, sb, a), sb, ino[i := WithAddr(ino[i], k, a)], owner[a := (i, k)])
    ensures forall l: nat | l < SLOTS && l != k ::
              Slot(Marked(blk, sb, a), WithAddr(ino[i], k, a), l) == Slot(blk, ino[i], l)
  {
    MarkedElsewhere(blk, sb, ino, owner, a);
    MarkKeepsOwned(blk, sb, ino, owner, a);
    MarkedUsed(blk, sb, a, a);
    AttachDirect(Marked(blk, sb, a), sb, ino, owner, i, k, a);
  }

  lemma MappedDirect(blk: Disk, sb: Superblock, ino: seq<Dinode>, owner: Owner, i: nat, bn: nat, a: Word)
    requires Owned(blk, sb, ino, owner) && Allocated(ino, i) && bn < NDIRECT && ino[i].addrs[bn] == 0
    requires a < sb.size && !Used(blk, sb, a)
    ensures Mapped(blk, ino, owner, Marked(blk, sb, a), ino[i := WithAddr(ino[i], bn, a)], owner[a := (i, bn)],
                   sb, i, bn, a)
  {
    AllocDirect(blk, sb, ino, owner, i, bn, a);
    MarkedElsewhere(blk, sb, ino, owner, a);
  }

  /** balloc into word w of the indirect block x of inode i. */
  lemma MappedIndirect(blk: Disk, blk': Disk, sb: Superblock, ino: seq<Dinode>, owner: Owner, i: nat, w: nat, a: Word)
    requires Owned(blk, sb, ino, owner) && Allocated(ino, i) && w < NINDIRECT
    requires 0 < ino[i].addrs[NDIRECT] < |blk| && Slot(blk, ino[i], NDIRECT + 1 + w) == 0
    requires a < sb.size && !Used(blk, sb, a)
    requires
      var x, m := ino[i].addrs[NDIRECT], Marked(blk, sb, a);
      blk' == m[x := PutWord(m[x], w, a)]
    ensures Mapped(blk, ino, owner, blk', ino, owner[a := (i, NDIRECT + 1 + w)], sb, i, NDIRECT + w, a)
  {
    var x, m := ino[i].addrs[NDIRECT], Marked(blk, sb, a);
    MarkedElsewhere(blk, sb, ino, owner, a);
    MarkKeepsOwned(blk, sb, ino, owner, a);
    MarkedUsed(blk, sb, a, a);
    AttachIndirect(m, blk', sb, ino, owner, i, x, w, a);
    forall l: nat | l < SLOTS
      ensures Slot(blk', ino[i], l) == if l == NDIRECT + 1 + w then a else Slot(blk, ino[i], l)
    {
      IndirectSlots(m, ino[i], x, w, a, l);
    }
    IndirectOnRecord(blk, sb, ino, owner, i);
    assert ino[i := ino[i].(addrs := ino[i].addrs)] == ino;
  }

  /** A fresh indirect block first, then bmap as before. */
  lemma MappedAfterIndirect(blk: Disk, sb: Superblock, ino: seq<Dinode>, owner: Owner, i: nat, x: Word,
                            blk2: Disk, ino2: seq<Dinode>, owner2: Owner, bn: nat, addr: Word)
    requires Owned(blk, sb, ino, owner) && Allocated(ino, i) && ino[i].addrs[NDIRECT] == 0
    requires x < sb.size && !Used(blk, sb, x) && NDIRECT <= bn < MAXFILE
    requires Mapped(Marked(blk, sb, x), ino[i := WithAddr(ino[i], NDIRECT, x)], owner[x := (i, NDIRECT)],
                    blk2, ino2, owner2, sb, i, bn, addr)
    requires Slot(Marked(blk, sb, x), WithAddr(ino[i], NDIRECT, x), DataSlot(bn)) == 0
    ensures Mapped(blk, ino, owner, blk2, ino2, owner2, sb, i, bn, addr)
  {
    AllocDirect(blk, sb, ino, owner, i, NDIRECT, x);
    MarkedElsewhere(blk, sb, ino, owner, x);
    var owner1 := owner[x := (i, NDIRECT)];
    forall a | a in owner
      ensures a in owner2 && owner2[a] == owner[a]
      ensures a < |blk| && owner[a] != (i, NDIRECT) ==> blk2[a] == blk[a]
    {
      assert a in owner1 && owner1[a] == owner[a];
    }
  }

  // ----- one step of writei -----

  /** bmap for the next block of a dense file keeps it dense and keeps its bytes. */
  lemma MapKeepsFile(blk: Disk, ino: seq<Dinode>, owner: Owner, blk': Disk, ino': seq<Dinode>, owner': Owner,
                     sb: Superblock, i: nat, bn: nat, addr: Word, m: nat)
    requires Owned(blk, sb, ino, owner) && Allocated(ino, i) && Dense(blk, ino[i], m) && bn <= m && bn < MAXFILE
    requires Mapped(blk, ino, owner, blk', ino', owner', sb, i, bn, addr)
    ensures Dense(blk', ino'[i], Max(m, bn + 1))
    ensures forall x: nat | x < m * BSIZE :: ByteAt(blk', ino'[i], x) == ByteAt(blk, ino[i], x)
    ensures OthersKept(blk, ino, owner, blk', ino', owner', i)
    ensures bn < m ==> ino' == ino
  {
    forall x: nat | x < m * BSIZE
      ensures ByteAt(blk', ino'[i], x) == ByteAt(blk, ino[i], x)
    {
      var n := x / BSIZE;
      var k := DataSlot(n);
      assert OnRecord(blk, ino, owner, i, k);
      if Slot(blk, ino[i], k) in owner {
        assert Genuine(blk, sb, ino, owner, Slot(blk, ino[i], k));
      }
      assert n != bn ==> Slot(blk', ino'[i], k) == Slot(blk, ino[i], k);
    }
  }

  /** Overwriting data block bn of file i. */
  lemma WriteBlock(blk: Disk, sb: Superblock, ino: seq<Dinode>, owner: Owner, i: nat, bn: nat, addr: nat, data: Block)
    requires Owned(blk, sb, ino, owner) && Allocated(ino, i) && bn < MAXFILE
    requires addr == Slot(blk, ino[i], DataSlot(bn)) != 0
    ensures addr < sb.size && Owned(blk[addr := data], sb, ino, owner)
    ensures DataStart(sb) <= addr
    ensures forall k: nat | k < SLOTS :: Slot(blk[addr := data], ino[i], k) == Slot(blk, ino[i], k)
    ensures forall x: nat | x < MAXBYTES ::
              ByteAt(blk[addr := data], ino[i], x)
              == if x / BSIZE == bn then data[x % BSIZE] else ByteAt(blk, ino[i], x)
    ensures OthersKept(blk, ino, owner, blk[addr := data], ino, owner, i)
  {
    assert OnRecord(blk, ino, owner, i, DataSlot(bn));
    assert Genuine(blk, sb, ino, owner, addr);
    forall b | 0 <= b < sb.size
      ensures Used(blk[addr := data], sb, b) == Used(blk, sb, b)
    {
      UsedFrame(blk, sb, addr, data, b);
    }
    ChangeKeepsOwned(blk, blk[addr := data], sb, ino, owner, {addr});
    forall x: nat | x < MAXBYTES
      ensures ByteAt(blk[addr := data], ino[i], x)
           == if x / BSIZE == bn then data[x % BSIZE] else ByteAt(blk, ino[i], x)
    {
      assert OnRecord(blk, ino, owner, i, DataSlot(x / BSIZE));
    }
  }

  /** The blocks of file d hold the old bytes with src[..cur - off] written at off. */
  ghost predicate Wrote(blk0: Disk, d0: Dinode, m0: nat, blk: Disk, d: Dinode, off: nat, src: seq<Byte>, cur: nat)
    requires WellFormed(d0) && WellFormed(d) && off <= cur <= MAXBYTES && cur - off <= |src| && m0 <= MAXFILE
  {
    forall x: nat | x < cur || x < m0 * BSIZE ::
      ByteAt(blk, d, x) == if off <= x < cur then src[x - off] else ByteAt(blk0, d0, x)
  }

  /** memmove(bp->data + o, src, k) */
  function Patched(b: Block, o: nat, src: seq<Byte>): Block
    requires o + |src| <= BSIZE
  {
    b[..o] + src + b[o + |src|..]
  }

  /** One turn of writei's loop. */
  lemma WroteStep(blk0: Disk, d0: Dinode, m0: nat, blk: Disk, d: Dinode, blk1: Disk, d1: Dinode, blk2: Disk,
                  off: nat, src: seq<Byte>, cur: nat, k: nat, addr: nat, m: nat)
    requires WellFormed(d0) && WellFormed(d) && WellFormed(d1) && m0 <= m <= MAXFILE
    requires off <= cur < cur + k <= MAXBYTES && cur + k - off <= |src| && cur % BSIZE + k <= BSIZE
    requires cur <= m * BSIZE && off <= m0 * BSIZE
    requires Wrote(blk0, d0, m0, blk, d, off, src, cur)
    requires forall x: nat | x < m * BSIZE :: ByteAt(blk1, d1, x) == ByteAt(blk, d, x)
    requires addr < |blk1| && addr == Slot(blk1, d1, DataSlot(cur / BSIZE)) != 0
    requires blk2 == blk1[addr := Patched(blk1[addr], cur % BSIZE, src[cur - off..cur - off + k])]
    requires forall x: nat | x < MAXBYTES ::
               ByteAt(blk2, d1, x) == if x / BSIZE == cur / BSIZE then blk2[addr][x % BSIZE] else ByteAt(blk1, d1, x)
    ensures Wrote(blk0, d0, m0, blk2, d1, off, src, cur + k)
  {
    var o := cur % BSIZE;
    forall x: nat | x < cur + k || x < m0 * BSIZE
      ensures ByteAt(blk2, d1, x) == if off <= x < cur + k then src[x - off] else ByteAt(blk0, d0, x)
    {
      if x / BSIZE == cur / BSIZE {
        assert ByteAt(blk1, d1, x) == blk1[addr][x % BSIZE];
        assert x < cur || x >= cur + k ==> blk2[addr][x % BSIZE] == blk1[addr][x % BSIZE];
        assert cur <= x < cur + k ==> blk2[addr][x % BSIZE] == src[x - off];
      }
    }
  }

  /** Where writei is: cur - off bytes of src are in the file's blocks. */
  ghost predicate Writing(sb: Superblock, blk0: Disk, ino0: seq<Dinode>, owner0: Owner,
                          blk: Disk, ino: seq<Dinode>, owner: Owner, i: nat, m0: nat, off: nat, src: seq<Byte>,
                          cur: nat) {
    && Owned(blk, sb, ino, owner)
    && GoodTable(sb, ino0)
    && Allocated(ino, i) && i < |ino0|
    && off <= cur <= MAXBYTES && cur - off <= |src| && m0 <= MAXFILE
    && ino[i] == ino0[i].(addrs := ino[i].addrs)
    && Dense(blk, ino[i], Max(m0, BlocksFor(cur)))
    && Wrote(blk0, ino0[i], m0, blk, ino[i], off, src, cur)
    && OthersKept(blk0, ino0, owner0, blk, ino, owner, i)
    && (forall b | 0 <= b < sb.bmapstart && b < |blk| && b < |blk0| :: blk[b] == blk0[b])
    && (BlocksFor(cur) <= m0 ==> ino == ino0)
  }

  lemma OthersKeptTwice(blk: Disk, ino: seq<Dinode>, owner: Owner, blk1: Disk, ino1: seq<Dinode>, owner1: Owner,
                        blk2: Disk, ino2: seq<Dinode>, owner2: Owner, i: nat)
    requires OthersKept(blk, ino, owner, blk1, ino1, owner1, i) && OthersKept(blk1, ino1, owner1, blk2, ino2, owner2, i)
    ensures OthersKept(blk, ino, owner, blk2, ino2, owner2, i)
  {
    forall a | a in owner && owner[a].0 != i
      ensures a in owner2 && owner2[a] == owner[a] && (a < |blk| ==> blk2[a] == blk[a])
    {
      assert a in owner1 && owner1[a] == owner[a];
    }
  }

  lemma BlockArithmetic(m0: nat, cur: nat, k: nat)
    requires 0 < k && cur % BSIZE + k <= BSIZE && cur + k <= MAXBYTES
    ensures cur / BSIZE <= Max(m0, BlocksFor(cur)) && cur / BSIZE < MAXFILE
    ensures Max(Max(m0, BlocksFor(cur)), cur / BSIZE + 1) == Max(m0, BlocksFor(cur + k))
    ensures cur <= Max(m0, BlocksFor(cur)) * BSIZE
    ensures BlocksFor(cur) <= BlocksFor(cur + k)
    ensures BlocksFor(cur + k) <= m0 ==> cur / BSIZE < Max(m0, BlocksFor(cur))
  {
  }

  /** The bytes of `left` that are in the block of byte cur. */
  function ChunkAt(cur: nat, left: nat): (k: nat)
    requires 0 < left
    ensures 0 < k <= left && cur % BSIZE + k <= BSIZE
  {
    if left < BSIZE - cur % BSIZE then left else BSIZE - cur % BSIZE
  }

  /** One turn of writei's loop, the whole state. */
  lemma WritingStep(sb: Superblock, blk0: Disk, ino0: seq<Dinode>, owner0: Owner,
                    blk: Disk, ino: seq<Dinode>, owner: Owner, blk1: Disk, ino1: seq<Dinode>, owner1: Owner, blk2: Disk,
                    i: nat, m0: nat, off: nat, src: seq<Byte>, cur: nat, k: nat, addr: Word)
    requires Writing(sb, blk0, ino0, owner0, blk, ino, owner, i, m0, off, src, cur)
    requires 0 < k && cur + k <= MAXBYTES && cur + k - off <= |src| && cur % BSIZE + k <= BSIZE
    requires off <= m0 * BSIZE && |blk0| == |blk|
    requires Mapped(blk, ino, owner, blk1, ino1, owner1, sb, i, cur / BSIZE, addr) && addr < |blk1|
    requires blk2 == blk1[addr := Patched(blk1[addr], cur % BSIZE, src[cur - off..cur - off + k])]
    ensures Writing(sb, blk0, ino0, owner0, blk2, ino1, owner1, i, m0, off, src, cur + k)
  {
    BlockArithmetic(m0, cur, k);
    var m, bn := Max(m0, BlocksFor(cur)), cur / BSIZE;
    MapKeepsFile(blk, ino, owner, blk1, ino1, owner1, sb, i, bn, addr, m);
    WriteBlock(blk1, sb, ino1, owner1, i, bn, addr, blk2[addr]);
    WroteStep(blk0, ino0[i], m0, blk, ino[i], blk1, ino1[i], blk2, off, src, cur, k, addr, m);
    OthersKeptTwice(blk0, ino0, owner0, blk, ino, owner, blk1, ino1, owner1, i);
    OthersKeptTwice(blk0, ino0, owner0, blk1, ino1, owner1, blk2, ino1, owner1, i);
    MetaBlocks(sb, 0, 0);
  }

  /** iupdate puts inode i on disk and leaves the other inodes there alone. */
  lemma IupdateValid(blk: Disk, blk': Disk, sb: Superblock, ino: seq<Dinode>, owner: Owner, i: nat)
    requires Owned(blk, sb, ino, owner) && i < sb.ninodes
    requires forall j | 0 <= j < sb.ninodes && j != i :: OnDisk(blk, sb, ino, j)
    requires InodeBlock(sb, i) < |blk|
    requires blk' == blk[InodeBlock(sb, i) := PutInode(blk[InodeBlock(sb, i)], i % IPB, ino[i])]
    ensures Owned(blk', sb, ino, owner)
    ensures forall j | 0 <= j < sb.ninodes :: OnDisk(blk', sb, ino, j)
  {
    MetaBlocks(sb, i, 0);
    forall b | 0 <= b < sb.size
      ensures Used(blk', sb, b) == Used(blk, sb, b)
    {
      UsedFrame(blk, sb, InodeBlock(sb, i), blk'[InodeBlock(sb, i)], b);
    }
    ChangeKeepsOwned(blk, blk', sb, ino, owner, {InodeBlock(sb, i)});
    forall j | 0 <= j < sb.ninodes
      ensures OnDisk(blk', sb, ino, j)
    {
      assert j != i ==> OnDisk(blk, sb, ino, j);
      GetPutInode(blk[InodeBlock(sb, i)], i % IPB, ino[i], j % IPB);
      assert j / IPB == i / IPB && j % IPB == i % IPB ==> j == i;
    }
  }

  /** The size with which writei ends. */
  function SizeAfter(size: Word, off: nat, n: nat): Word
    requires off + n <= MAXBYTES
  {
    if 0 < n && size < off + n then off + n else size
  }

  /** The bytes of the file when the loop is done, given the new size. */
  lemma WroteContents(blk0: Disk, d0: Dinode, blk: Disk, d: Dinode, d': Dinode, off: nat, src: seq<Byte>)
    requires IsFile(blk0, d0) && off <= d0.size && off + |src| <= MAXBYTES
    requires WellFormed(d) && d == d0.(addrs := d.addrs)
    requires Dense(blk, d, Max(BlocksFor(d0.size), BlocksFor(off + |src|)))
    requires Wrote(blk0, d0, BlocksFor(d0.size), blk, d, off, src, off + |src|)
    requires d' == d.(size := SizeAfter(d0.size, off, |src|))
    ensures IsFile(blk, d') && Contents(blk, d') == Overwrite(Contents(blk0, d0), off, src)
  {
    assert forall n: nat | n < MAXFILE :: Slot(blk, d', DataSlot(n)) == Slot(blk, d, DataSlot(n));
    assert BlocksFor(d'.size) == Max(BlocksFor(d0.size), BlocksFor(off + |src|));
    var c, w := Contents(blk, d'), Overwrite(Contents(blk0, d0), off, src);
    forall x: nat | x < |c|
      ensures c[x] == w[x]
    {
      WroteByte(blk0, d0, blk, d, d', off, src, x);
    }
  }

  lemma WroteByte(blk0: Disk, d0: Dinode, blk: Disk, d: Dinode, d': Dinode, off: nat, src: seq<Byte>, x: nat)
    requires IsFile(blk0, d0) && off <= d0.size && off + |src| <= MAXBYTES
    requires WellFormed(d) && d == d0.(addrs := d.addrs)
    requires Wrote(blk0, d0, BlocksFor(d0.size), blk, d, off, src, off + |src|)
    requires d' == d.(size := SizeAfter(d0.size, off, |src|)) && x < d'.size
    ensures Contents(blk, d')[x] == Overwrite(Contents(blk0, d0), off, src)[x]
  {
    OverwriteAt(Contents(blk0, d0), off, src, x);
    BytesAt(blk, d', d'.size, x);
    SameBytes(blk, d, d', x);
    if x < d0.size {
      InBlocks(x, d0.size);
      BytesAt(blk0, d0, d0.size, x);
    }
  }

  lemma SameBytes(blk: Disk, d: Dinode, d': Dinode, x: nat)
    requires WellFormed(d) && WellFormed(d') && d'.addrs == d.addrs && x < MAXBYTES
    ensures ByteAt(blk, d', x) == ByteAt(blk, d, x)
  {
  }

  lemma InBlocks(x: nat, size: nat)
    requires x < size
    ensures x < BlocksFor(size) * BSIZE
  {
  }

  lemma OverwriteAt(s: seq<Byte>, off: nat, src: seq<Byte>, x: nat)
    requires off <= |s| && (x < |s| || x < off + |src|)
    ensures x < |Overwrite(s, off, src)|
    ensures Overwrite(s, off, src)[x] == if off <= x < off + |src| then src[x - off] else s[x]
  {
  }

  /** No inode block was written by the loop. */
  lemma StillOnDisk(sb: Superblock, blk0: Disk, ino0: seq<Dinode>, blk: Disk, ino: seq<Dinode>, j: nat)
    requires GoodLayout(sb) && |blk0| == |blk| == sb.size && j < sb.ninodes == |ino0| == |ino|
    requires forall b | 0 <= b < sb.bmapstart && b < |blk| && b < |blk0| :: blk[b] == blk0[b]
    requires OnDisk(blk0, sb, ino0, j) && ino[j] == ino0[j]
    ensures OnDisk(blk, sb, ino, j)
  {
    MetaBlocks(sb, j, 0);
  }

  /** The end of writei: the size grows to cover what was written. */
  lemma WriteiDone(sb: Superblock, blk0: Disk, ino0: seq<Dinode>, owner0: Owner,
                   blk: Disk, ino: seq<Dinode>, owner: Owner, i: nat, off: nat, src: seq<Byte>, ino': seq<Dinode>)
    requires Owned(blk0, sb, ino0, owner0) && Allocated(ino0, i) && IsFile(blk0, ino0[i]) && off <= ino0[i].size
    requires Writing(sb, blk0, ino0, owner0, blk, ino, owner, i, BlocksFor(ino0[i].size), off, src, off + |src|)
    requires forall j | 0 <= j < sb.ninodes :: OnDisk(blk0, sb, ino0, j)
    requires ino' == ino[i := ino[i].(size := SizeAfter(ino0[i].size, off, |src|))]
    ensures Owned(blk, sb, ino', owner)
    ensures IsFile(blk, ino'[i]) && Contents(blk, ino'[i]) == Overwrite(Contents(blk0, ino0[i]), off, src)
    ensures OthersKept(blk0, ino0, owner0, blk, ino', owner, i)
    ensures forall j | 0 <= j < sb.ninodes && (j != i || ino'[i].size == ino0[i].size) :: OnDisk(blk, sb, ino', j)
  {
    SizeKeepsOwned(blk, sb, ino, owner, i, ino'[i]);
    WroteContents(blk0, ino0[i], blk, ino[i], ino'[i], off, src);
    forall j | 0 <= j < sb.ninodes && (j != i || ino'[i].size == ino0[i].size)
      ensures OnDisk(blk, sb, ino', j)
    {
      assert OnDisk(blk0, sb, ino0, j);
      StillOnDisk(sb, blk0, ino0, blk, ino', j);
    }
  }

  /** Writing an inode block changes no file. */
  lemma IupdateKeeps(blk0: Disk, ino0: seq<Dinode>, owner0: Owner, blk: Disk, blk': Disk, sb: Superblock,
                     ino: seq<Dinode>, owner: Owner, i: nat)
    requires Owned(blk, sb, ino, owner) && Allocated(ino, i) && IsFile(blk, ino[i])
    requires OthersKept(blk0, ino0, owner0, blk, ino, owner, i)
    requires InodeBlock(sb, i) < |blk| == |blk'| && blk' == blk[InodeBlock(sb, i) := blk'[InodeBlock(sb, i)]]
    ensures IsFile(blk', ino[i]) && Contents(blk', ino[i]) == Contents(blk, ino[i])
    ensures OthersKept(blk0, ino0, owner0, blk', ino, owner, i)
  {
    MetaBlocks(sb, i, 0);
    if ino[i].addrs[NDIRECT] != 0 {
      IndirectOnRecord(blk, sb, ino, owner, i);
    }
    forall k: nat | k < SLOTS
      ensures Slot(blk', ino[i], k) == Slot(blk, ino[i], k)
    {
      SlotsFrame(blk, blk', sb, ino, owner, i, k);
    }
    ContentsAre(blk, ino[i]);
    ContentsAre(blk', ino[i]);
    forall x: nat | x < ino[i].size
      ensures ByteAt(blk', ino[i], x) == ByteAt(blk, ino[i], x)
    {
      assert OnRecord(blk, ino, owner, i, DataSlot(x / BSIZE));
      var a := Slot(blk, ino[i], DataSlot(x / BSIZE));
      assert a != 0 ==> Genuine(blk, sb, ino, owner, a);
    }
    forall a | a in owner0 && owner0[a].0 != i
      ensures a < |blk0| ==> blk'[a] == blk0[a]
    {
      assert a in owner && Genuine(blk, sb, ino, owner, a);
    }
  }

  /** What writei has promised when it returns. */
  ghost predicate Spliced(sb: Superblock, blk0: Disk, ino0: seq<Dinode>, owner0: Owner,
                          blk: Disk, ino: seq<Dinode>, owner: Owner, i: nat, off: nat, src: seq<Byte>)
    requires i < |ino0| && WellFormed(ino0[i]) && off <= ino0[i].size <= MAXBYTES
  {
    && Owned(blk, sb, ino, owner) && (forall j | 0 <= j < sb.ninodes :: OnDisk(blk, sb, ino, j))
    && Allocated(ino, i) && IsFile(blk, ino[i])
    && Contents(blk, ino[i]) == Overwrite(Contents(blk0, ino0[i]), off, src)
    && OthersKept(blk0, ino0, owner0, blk, ino, owner, i)
  }

  /** The last step of writei: iupdate if the size has grown. */
  lemma WriteiOut(sb: Superblock, blk0: Disk, ino0: seq<Dinode>, owner0: Owner, blk: Disk, ino: seq<Dinode>,
                  owner: Owner,
                  i: nat, off: nat, src: seq<Byte>, ino': seq<Dinode>, blk': Disk)
    requires Owned(blk0, sb, ino0, owner0) && Allocated(ino0, i) && IsFile(blk0, ino0[i]) && off <= ino0[i].size
    requires Writing(sb, blk0, ino0, owner0, blk, ino, owner, i, BlocksFor(ino0[i].size), off, src, off + |src|)
    requires forall j | 0 <= j < sb.ninodes :: OnDisk(blk0, sb, ino0, j)
    requires ino' == ino[i := ino[i].(size := SizeAfter(ino0[i].size, off, |src|))]
    requires InodeBlock(sb, i) < |blk|
    requires blk' == if ino'[i].size == ino0[i].size then blk
                     else blk[InodeBlock(sb, i) := PutInode(blk[InodeBlock(sb, i)], i % IPB, ino'[i])]
    ensures Spliced(sb, blk0, ino0, owner0, blk', ino', owner, i, off, src)
  {
    WriteiDone(sb, blk0, ino0, owner0, blk, ino, owner, i, off, src, ino');
    if ino'[i].size != ino0[i].size {
      IupdateValid(blk, blk', sb, ino', owner, i);
      IupdateKeeps(blk0, ino0, owner0, blk, blk', sb, ino', owner, i);
    }
  }

  /** A new inode: only its type is set. */
  function NewInode(typ: Half): (d: Dinode)
    ensures WellFormed(d) && d.typ == typ && d.size == 0 && forall k | 0 <= k <= NDIRECT :: d.addrs[k] == 0
  {
    Dinode(typ, 0, 0, 0, 0, seq(NDIRECT + 1, _ => 0))
  }

  /** It is an empty file. */
  lemma NewIsFile(blk: Disk, typ: Half)
    ensures IsFile(blk, NewInode(typ)) && Contents(blk, NewInode(typ)) == []
  {
  }

  lemma EmptiedIsFile(blk: Disk, d: Dinode)
    ensures IsFile(blk, Emptied(d)) && Contents(blk, Emptied(d)) == []
  {
  }

  lemma NewKeepsOwned(blk: Disk, sb: Superblock, ino: seq<Dinode>, owner: Owner, i: nat, typ: Half, ino': seq<Dinode>)
    requires Owned(blk, sb, ino, owner) && i < |ino| && ino[i].typ == 0 && ino' == ino[i := NewInode(typ)]
    ensures Owned(blk, sb, ino', owner)
  {
    forall j: nat, k: nat | Allocated(ino', j) && k < SLOTS
      ensures OnRecord(blk, ino', owner, j, k)
    {
      assert j != i ==> Allocated(ino, j) && OnRecord(blk, ino, owner, j, k);
    }
    forall a | a in owner
      ensures Genuine(blk, sb, ino', owner, a)
    {
      assert Genuine(blk, sb, ino, owner, a);
    }
  }

  lemma IallocDone(blk: Disk, sb: Superblock, ino: seq<Dinode>, owner: Owner, i: nat, typ: Half, ino': seq<Dinode>,
                   blk': Disk)
    requires Owned(blk, sb, ino, owner) && Owned(blk, sb, ino', owner) && 0 < i < |ino| && typ != 0
    requires ino' == ino[i := NewInode(typ)] && forall j | 0 <= j < sb.ninodes :: OnDisk(blk, sb, ino, j)
    requires InodeBlock(sb, i) < |blk|
    requires blk' == blk[InodeBlock(sb, i) := PutInode(blk[InodeBlock(sb, i)], i % IPB, NewInode(typ))]
    ensures Owned(blk', sb, ino', owner) && forall j | 0 <= j < sb.ninodes :: OnDisk(blk', sb, ino', j)
    ensures IsFile(blk', ino'[i]) && Contents(blk', ino'[i]) == []
    ensures OthersKept(blk, ino, owner, blk', ino', owner, i)
  {
    NewIsFile(blk, typ);
    forall j | 0 <= j < sb.ninodes && j != i
      ensures OnDisk(blk, sb, ino', j)
    {
      assert OnDisk(blk, sb, ino, j);
    }
    IupdateValid(blk, blk', sb, ino', owner, i);
    IupdateKeeps(blk, ino, owner, blk, blk', sb, ino', owner, i);
  }

  lemma WritingStarts(sb: Superblock, blk: Disk, ino: seq<Dinode>, owner: Owner, i: nat, off: nat, src: seq<Byte>)
    requires Owned(blk, sb, ino, owner) && Allocated(ino, i) && IsFile(blk, ino[i]) && off <= ino[i].size
    ensures Writing(sb, blk, ino, owner, blk, ino, owner, i, BlocksFor(ino[i].size), off, src, off)
  {
    assert BlocksFor(off) <= BlocksFor(ino[i].size);
  }

  lemma AddressInRange(blk: Disk, sb: Superblock, ino: seq<Dinode>, owner: Owner, i: nat, k: nat)
    requires Owned(blk, sb, ino, owner) && Allocated(ino, i) && k < SLOTS && Slot(blk, ino[i], k) != 0
    ensures DataStart(sb) <= Slot(blk, ino[i], k) < sb.size
  {
    assert OnRecord(blk, ino, owner, i, k);
    assert Genuine(blk, sb, ino, owner, Slot(blk, ino[i], k));
  }

  /** k bytes of a file that lie in one block. */
  lemma SliceOfBlock(blk: Disk, d: Dinode, cur: nat, k: nat, addr: nat)
    requires WellFormed(d) && d.size <= MAXBYTES && cur + k <= d.size && cur % BSIZE + k <= BSIZE
    requires cur < MAXBYTES && addr == Slot(blk, d, DataSlot(cur / BSIZE)) && 0 < addr < |blk|
    ensures blk[addr][cur % BSIZE..cur % BSIZE + k] == Contents(blk, d)[cur..cur + k]
  {
    var o, c := cur % BSIZE, Contents(blk, d);
    ContentsAre(blk, d);
    forall x | cur <= x < cur + k
      ensures c[x] == blk[addr][x - cur + o]
    {
      assert x / BSIZE == cur / BSIZE && x % BSIZE == x - cur + o;
      assert c[x] == ByteAt(blk, d, x);
    }
  }

  lemma JoinSlices(c: seq<Byte>, off: nat, cur: nat, k: nat)
    requires off <= cur && cur + k <= |c|
    ensures c[off..cur] + c[cur..cur + k] == c[off..cur + k]
  {
  }

  /** The size field takes no part in ownership. */
  lemma SizeKeepsOwned(blk: Disk, sb: Superblock, ino: seq<Dinode>, owner: Owner, i: nat, d: Dinode)
    requires Owned(blk, sb, ino, owner) && i < |ino| && d == ino[i].(size := d.size)
    ensures Owned(blk, sb, ino[i := d], owner)
  {
    var ino' := ino[i := d];
    forall j: nat, k: nat | Allocated(ino', j) && k < SLOTS
      ensures OnRecord(blk, ino', owner, j, k)
    {
      assert OnRecord(blk, ino, owner, j, k);
    }
    forall a | a in owner
      ensures Genuine(blk, sb, ino', owner, a)
    {
      assert Genuine(blk, sb, ino, owner, a);
    }
  }

  // ----- itrunc -----

  /** Where itrunc is: the blocks in the slots in `done` of inode i are free again,
      and apart from the bitmap nothing on disk has changed. */
  ghost predicate Truncating(sb: Superblock, blk0: Disk, ino: seq<Dinode>, owner: Owner, blk: Disk, i: nat,
                             done: set<nat>) {
    && Owned(blk0, sb, ino, owner)
    && i < |ino|
    && Owned(blk, sb, ino[i := Emptied(ino[i])], Others(owner, i))
    && (forall b | 0 <= b < sb.size && (b < sb.bmapstart || DataStart(sb) <= b) :: blk[b] == blk0[b])
    && (forall b | 0 <= b < sb.size ::
          Used(blk, sb, b) <==> Used(blk0, sb, b) && !(b in owner && owner[b].0 == i && owner[b].1 in done))
  }

  lemma TruncateSlot(sb: Superblock, blk0: Disk, ino: seq<Dinode>, owner: Owner, blk: Disk, i: nat, done: set<nat>,
                     k: nat)
    requires Truncating(sb, blk0, ino, owner, blk, i, done) && Allocated(ino, i) && k < SLOTS && k !in done
    ensures
      var a := Slot(blk0, ino[i], k);
      if a == 0 then Truncating(sb, blk0, ino, owner, blk, i, done + {k})
      else DataStart(sb) <= a < sb.size && Used(blk, sb, a)
           && Truncating(sb, blk0, ino, owner, Cleared(blk, sb, a), i, done + {k})
  {
    var a := Slot(blk0, ino[i], k);
    assert OnRecord(blk0, ino, owner, i, k);
    if a != 0 {
      assert Genuine(blk0, sb, ino, owner, a);
      MetaBlocks(sb, 0, a);
      ClearKeepsOwned(blk, sb, ino[i := Emptied(ino[i])], Others(owner, i), a);
      forall b | 0 <= b < sb.size
        ensures Used(Cleared(blk, sb, a), sb, b) == (a != b && Used(blk, sb, b))
        ensures b in owner && owner[b] == (i, k) ==> b == a
      {
        ClearedUsed(blk, sb, a, b);
        assert b in owner ==> Genuine(blk0, sb, ino, owner, b);
      }
    } else {
      forall b | b in owner
        ensures owner[b] != (i, k)
      {
        assert Genuine(blk0, sb, ino, owner, b);
      }
    }
  }

  lemma Truncated(sb: Superblock, blk0: Disk, ino: seq<Dinode>, owner: Owner, blk: Disk, i: nat, done: set<nat>,
                  ino': seq<Dinode>)
    requires Truncating(sb, blk0, ino, owner, blk, i, done) && forall k: nat | k < SLOTS :: k in done
    requires forall j | 0 <= j < sb.ninodes :: OnDisk(blk0, sb, ino, j)
    requires ino' == ino[i := Emptied(ino[i])]
    ensures forall b | 0 <= b < sb.size :: Used(blk, sb, b) <==> Used(blk0, sb, b) && !(b in owner && owner[b].0 == i)
    ensures forall j | 0 <= j < sb.ninodes && j != i :: OnDisk(blk, sb, ino', j)
    ensures OthersKept(blk0, ino, owner, blk, ino', Others(owner, i), i)
  {
    forall b | b in owner
      ensures owner[b].1 < SLOTS && DataStart(sb) <= b < sb.size
    {
      assert Genuine(blk0, sb, ino, owner, b);
    }
    forall j | 0 <= j < sb.ninodes && j != i
      ensures OnDisk(blk, sb, ino', j)
    {
      assert OnDisk(blk0, sb, ino, j);
      MetaBlocks(sb, j, 0);
    }
  }

  /** Writing out the emptied inode. */
  lemma TruncatedOnDisk(sb: Superblock, blk0: Disk, ino: seq<Dinode>, owner: Owner, blk: Disk, blk': Disk, i: nat,
                        ino': seq<Dinode>)
    requires Owned(blk0, sb, ino, owner) && |blk| == |blk'| == |blk0| && i < sb.ninodes
    requires Owned(blk, sb, ino', Others(owner, i)) && OthersKept(blk0, ino, owner, blk, ino', Others(owner, i), i)
    requires InodeBlock(sb, i) < |blk| && blk' == blk[InodeBlock(sb, i) := blk'[InodeBlock(sb, i)]]
    ensures OthersKept(blk0, ino, owner, blk', ino', Others(owner, i), i)
    ensures forall b | 0 <= b < sb.size :: Used(blk', sb, b) == Used(blk, sb, b)
  {
    MetaBlocks(sb, i, 0);
    forall a | a in owner && owner[a].0 != i
      ensures a < |blk0| ==> blk'[a] == blk0[a]
    {
      assert Genuine(blk0, sb, ino, owner, a);
    }
    forall b | 0 <= b < sb.size
      ensures Used(blk', sb, b) == Used(blk, sb, b)
    {
      UsedFrame(blk, sb, InodeBlock(sb, i), blk'[InodeBlock(sb, i)], b);
    }
  }

  // ----- filewrite -----

  /** Most bytes that filewrite hands to one call of writei. */
  const CHUNK := ((LOGSIZE - 1 - 1 - 2) / 2) * 512

  lemma OverwriteTwice(s: seq<Byte>, off: nat, a: seq<Byte>, b: seq<Byte>)
    requires off <= |s|
    ensures Overwrite(Overwrite(s, off, a), off + |a|, b) == Overwrite(s, off, a + b)
  {
  }

  /** s with byte b at position p, or after its end. */
  function PutByte(s: seq<Byte>, p: nat, b: Byte): seq<Byte> {
    if p < |s| then s[p := b] else s + [b]
  }

  /** s when i bytes of addr have been put over it one by one, from off on. */
  function Splice(s: seq<Byte>, off: nat, addr: seq<Byte>, i: nat): seq<Byte>
    requires i <= |addr|
  {
    if i == 0 then s else PutByte(Splice(s, off, addr, i - 1), off + i - 1, addr[i - 1])
  }

  /** That is what Overwrite does at once. */
  lemma {:induction false} SpliceIs(s: seq<Byte>, off: nat, addr: seq<Byte>, i: nat)
    requires i <= |addr| && off <= |s|
    ensures Splice(s, off, addr, i) == Overwrite(s, off, addr[..i])
  {
    if i > 0 {
      SpliceIs(s, off, addr, i - 1);
      var t := Overwrite(s, off, addr[..i - 1]);
      assert PutByte(t, off + i - 1, addr[i - 1]) == Overwrite(s, off, addr[..i]);
    }
  }

  /** A value that is compared whole. */
  datatype File = File(bytes: seq<Byte>)

  ghost predicate InPart(s: seq<Byte>, off: nat, addr: seq<Byte>, i: nat, d: seq<Byte>) {
    i <= |addr| && (i > 0 ==> off <= |s|) && File(d) == File(Splice(s, off, addr, i))
  }

  lemma SpliceMore(s: seq<Byte>, off: nat, addr: seq<Byte>, i: nat, j: nat, d: seq<Byte>, at: nat, d': seq<Byte>)
    requires i < j <= |addr| && InPart(s, off, addr, i, d) && at == off + i <= |d|
    requires File(d') == File(Overwrite(d, at, addr[i..j]))
    ensures InPart(s, off, addr, j, d')
  {
    SpliceIs(s, off, addr, i);
    SpliceIs(s, off, addr, j);
    assert addr[..i] + addr[i..j] == addr[..j];
    OverwriteTwice(s, off, addr[..i], addr[i..j]);
  }
}
