/** A file as a sequence of bytes spread over the blocks of its inode. */
module FileData {
  import opened Blocks
  import opened DiskFormat
  import opened Ownership

  const MAXBYTES := MAXFILE * BSIZE

  /** Byte x of the blocks of inode d. */
  function ByteAt(blk: Disk, d: Dinode, x: nat): Byte
    requires WellFormed(d) && x < MAXBYTES
  {
    var a := Slot(blk, d, DataSlot(x / BSIZE));
    if 0 < a < |blk| then blk[a][x % BSIZE] else 0
  }

  /** Blocks a file of this many bytes takes. */
  function BlocksFor(size: nat): nat {
    (size + BSIZE - 1) / BSIZE
  }

  /** Exactly the first m blocks of d are there, and the indirect block if needed. */
  ghost predicate Dense(blk: Disk, d: Dinode, m: nat)
    requires WellFormed(d)
  {
    && m <= MAXFILE
    && (forall n: nat | n < MAXFILE :: Slot(blk, d, DataSlot(n)) != 0 <==> n < m)
    && (d.addrs[NDIRECT] != 0 <==> m > NDIRECT)
  }

  /** A file without holes, as ialloc starts it and writei grows it. */
  ghost predicate IsFile(blk: Disk, d: Dinode) {
    WellFormed(d) && d.size <= MAXBYTES && Dense(blk, d, BlocksFor(d.size))
  }

  /** The first n bytes of the blocks of inode d. */
  function BytesTo(blk: Disk, d: Dinode, n: nat): (s: seq<Byte>)
    requires WellFormed(d) && n <= MAXBYTES
    ensures |s| == n
  {
    if n == 0 then [] else BytesTo(blk, d, n - 1) + [ByteAt(blk, d, n - 1)]
  }

  lemma {:induction false} BytesAt(blk: Disk, d: Dinode, n: nat, x: nat)
    requires WellFormed(d) && x < n <= MAXBYTES
    ensures BytesTo(blk, d, n)[x] == ByteAt(blk, d, x)
  {
    if x < n - 1 {
      BytesAt(blk, d, n - 1, x);
    }
  }

  /** The file: the reference that readi and writei refine. */
  function Contents(blk: Disk, d: Dinode): (s: seq<Byte>)
    requires WellFormed(d) && d.size <= MAXBYTES
    ensures |s| == d.size
  {
    BytesTo(blk, d, d.size)
  }

  lemma ContentsAre(blk: Disk, d: Dinode)
    requires WellFormed(d) && d.size <= MAXBYTES
    ensures forall x: nat | x < d.size :: Contents(blk, d)[x] == ByteAt(blk, d, x)
  {
    forall x: nat | x < d.size
      ensures Contents(blk, d)[x] == ByteAt(blk, d, x)
    {
      BytesAt(blk, d, d.size, x);
    }
  }

  /** s with src written over it from position off on. */
  function Overwrite(s: seq<Byte>, off: nat, src: seq<Byte>): seq<Byte>
    requires off <= |s|
  {
    s[..off] + src + (if off + |src| < |s| then s[off + |src|..] else [])
  }

  // ----- other files -----

  /** Every block of an inode other than i is as it was. */
  ghost predicate OthersKept(blk: Disk, ino: seq<Dinode>, owner: Owner, blk': Disk, ino': seq<Dinode>, owner': Owner,
                             i: nat) {
    && |blk'| == |blk|
    && |ino'| == |ino|
    && (forall j: nat | j < |ino| && j != i :: ino'[j] == ino[j])
    && (forall a <- owner :: owner[a].0 != i ==>
          a in owner' && owner'[a] == owner[a] && (a < |blk| ==> blk'[a] == blk[a]))
  }

  /** So every other file has the bytes it had. */
  lemma OthersKeepContents(blk: Disk, sb: Superblock, ino: seq<Dinode>, owner: Owner,
                           blk': Disk, ino': seq<Dinode>, owner': Owner, i: nat, j: nat)
    requires Owned(blk, sb, ino, owner) && OthersKept(blk, ino, owner, blk', ino', owner', i)
    requires Allocated(ino, j) && j != i && ino[j].size <= MAXBYTES
    ensures ino'[j] == ino[j] && Contents(blk', ino'[j]) == Contents(blk, ino[j])
  {
    var d := ino[j];
    ContentsAre(blk, d);
    ContentsAre(blk', d);
    if d.addrs[NDIRECT] != 0 {
      IndirectOnRecord(blk, sb, ino, owner, j);
    }
    forall x: nat | x < d.size
      ensures ByteAt(blk', d, x) == ByteAt(blk, d, x)
    {
      var k := DataSlot(x / BSIZE);
      SlotsFrame(blk, blk', sb, ino, owner, j, k);
      assert OnRecord(blk, ino, owner, j, k);
    }
  }

  /** Every inode in use is a file without holes. */
  ghost predicate Files(blk: Disk, ino: seq<Dinode>) {
    forall i: nat {:trigger IsFile(blk, ino[i])} | Allocated(ino, i) :: IsFile(blk, ino[i])
  }

  lemma OthersStayFiles(blk: Disk, sb: Superblock, ino: seq<Dinode>, owner: Owner,
                        blk': Disk, ino': seq<Dinode>, owner': Owner, i: nat)
    requires Owned(blk, sb, ino, owner) && Files(blk, ino) && OthersKept(blk, ino, owner, blk', ino', owner', i)
    requires Allocated(ino', i) ==> IsFile(blk', ino'[i])
    ensures Files(blk', ino')
  {
    forall j: nat | Allocated(ino', j) && j != i
      ensures IsFile(blk', ino'[j])
    {
      assert IsFile(blk, ino[j]);
      if ino[j].addrs[NDIRECT] != 0 {
        IndirectOnRecord(blk, sb, ino, owner, j);
      }
      forall n: nat | n < MAXFILE
        ensures Slot(blk', ino'[j], DataSlot(n)) == Slot(blk, ino[j], DataSlot(n))
      {
        SlotsFrame(blk, blk', sb, ino, owner, j, DataSlot(n));
      }
    }
  }
}
