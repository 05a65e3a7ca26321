/** The block allocator and the inode layer of fs.c: balloc, bfree, bmap, iupdate,
    ialloc, readi, writei, itrunc; and filewrite of file.c. blk is the disk as the
    buffer cache and the log present it; ino and owner are what the blocks mean. */
module FileSystem {
  import opened Blocks
  import opened Common
  import opened DiskFormat
  import opened Ownership
  import opened FileData
  import opened FileSteps
  import opened FileCosts

  /** struct inode: the in-memory copy. */
  class Inode {
    const inum: nat
    var typ: Half
    var major: Half
    var minor: Half
    var nlink: Half
    var size: Word
    const addrs: array<Word>

    constructor (inum: nat, d: Dinode)
      requires WellFormed(d)
      ensures addrs.Length == NDIRECT + 1 && fresh(addrs)
      ensures this.inum == inum && Mem() == d
    {
      this.inum := inum;
      typ, major, minor, nlink, size := d.typ, d.major, d.minor, d.nlink, d.size;
      addrs := new Word[NDIRECT + 1](i requires 0 <= i <= NDIRECT => d.addrs[i]);
    }

    ghost function Mem(): (d: Dinode)
      requires addrs.Length == NDIRECT + 1
      reads this, addrs
      ensures WellFormed(d)
    {
      Dinode(typ, major, minor, nlink, size, addrs[..])
    }
  }

  /** One bitmap block covers the BPB blocks from base on. */
  lemma SameBitmap(base: nat, bi: nat)
    requires base % BPB == 0 && bi < BPB
    ensures (base + bi) / BPB == base / BPB && (base + bi) % BPB == bi
  {
  }

  class Fs {
    const sb: Superblock
    var blk: Disk
    ghost var ino: seq<Dinode>
    ghost var owner: Owner
    ghost var logged: set<nat>     // blocks given to log_write in this operation

    /** A formatted disk: no inode is in use, and the bitmap has every block before the
        data blocks. */
    constructor (sb: Superblock, blk: Disk)
      requires GoodLayout(sb) && |blk| == sb.size
      requires forall b | 0 <= b < DataStart(sb) :: Used(blk, sb, b)
      requires forall i | 0 <= i < sb.ninodes :: InodeOn(blk, sb, i).typ == 0
      ensures Valid() && this.sb == sb && this.blk == blk && owner == map[]
      ensures forall i: nat :: !Allocated(ino, i)
    {
      this.sb, this.blk := sb, blk;
      ino, owner, logged := seq(sb.ninodes, i requires 0 <= i < sb.ninodes => InodeOn(blk, sb, i)), map[], {};
      MetaBlocks(sb, 0, 0);
    }

    /** balloc: the first free block, marked and zeroed; sb.size is the panic. */
    method Balloc() returns (b: nat)
      requires |blk| == sb.size && GoodLayout(sb)
      modifies this`blk, this`logged
      ensures b <= sb.size
      ensures forall x | 0 <= x < b :: Used(old(blk), sb, x)
      ensures if b == sb.size then blk == old(blk) else !Used(old(blk), sb, b) && blk == Marked(old(blk), sb, b)
      ensures logged == if b == sb.size then old(logged) else old(logged) + {BitmapBlock(sb, b), b}
    {
      var base := 0;
      while base < sb.size
        invariant base % BPB == 0 && blk == old(blk) && logged == old(logged)
        invariant forall x | 0 <= x < base && x < sb.size :: Used(blk, sb, x)
      {
        b := ScanBitmap(base);
        if b < sb.size && b < base + BPB {
          MarkBlock(b);
          return;
        }
        base := base + BPB;
      }
      b := sb.size;
    }

    /** balloc's inner loop, over the bitmap block of `base`: the first free block there,
        or the end of what the bitmap block covers. */
    method ScanBitmap(base: nat) returns (b: nat)
      requires |blk| == sb.size && GoodLayout(sb) && base < sb.size && base % BPB == 0
      ensures base <= b <= base + BPB && b <= sb.size
      ensures forall x | base <= x < b :: Used(blk, sb, x)
      ensures if b < sb.size && b < base + BPB then !Used(blk, sb, b) else b == sb.size || b == base + BPB
    {
      MetaBlocks(sb, 0, base);
      var bp := blk[BitmapBlock(sb, base)];
      var bi := 0;
      while bi < BPB && base + bi < sb.size
        invariant 0 <= bi <= BPB && base + bi <= sb.size
        invariant forall x | base <= x < base + bi :: Used(blk, sb, x)
      {
        SameBitmap(base, bi);
        if !GetBit(bp, bi) {
          return base + bi;
        }
        bi := bi + 1;
      }
      b := base + bi;
    }

    /** The bit of b set, and the block zeroed. */
    method MarkBlock(b: nat)
      requires |blk| == sb.size && GoodLayout(sb) && b < sb.size
      modifies this`blk, this`logged
      ensures blk == Marked(old(blk), sb, b) && logged == old(logged) + {BitmapBlock(sb, b), b}
    {
      MetaBlocks(sb, 0, b);
      var bp := blk[BitmapBlock(sb, b)];
      blk := blk[BitmapBlock(sb, b) := PutBit(bp, b % BPB, true)];
      blk := blk[b := ZeroBlock()];
      logged := logged + {BitmapBlock(sb, b), b};
    }

    /** bfree: false is the panic for a block that is free already. */
    method Bfree(b: nat) returns (ok: bool)
      requires |blk| == sb.size && GoodLayout(sb) && b < sb.size
      modifies this`blk, this`logged
      ensures ok == Used(old(blk), sb, b)
      ensures blk == if ok then Cleared(old(blk), sb, b) else old(blk)
    {
      MetaBlocks(sb, 0, b);
      var bp := blk[BitmapBlock(sb, b)];
      ok := GetBit(bp, b % BPB);
      if ok {
        blk := blk[BitmapBlock(sb, b) := PutBit(bp, b % BPB, false)];
        logged := logged + {BitmapBlock(sb, b)};
      }
    }

    /** Everything is owned, every inode is on disk as it is in memory, and every inode
        in use is a file without holes. */
    ghost predicate Valid()
      reads this
    {
      && Owned(blk, sb, ino, owner)
      && Files(blk, ino)
      && forall i | 0 <= i < sb.ninodes :: OnDisk(blk, sb, ino, i)
    }

    /** ip is the in-memory copy of an allocated inode. */
    ghost predicate Backs(ip: Inode)
      reads this, ip, ip.addrs
    {
      && ip.addrs.Length == NDIRECT + 1
      && Allocated(ino, ip.inum)
      && ip.Mem() == ino[ip.inum]
    }

    /** Puts a block into slot k of ip, found by balloc; 0 is the panic. */
    method FillDirect(ip: Inode, k: nat) returns (addr: Word)
      requires Owned(blk, sb, ino, owner) && Backs(ip) && k <= NDIRECT && ip.addrs[k] == 0
      modifies this`blk, this`logged, this`ino, this`owner, ip.addrs
      ensures if addr == 0 then FreeCount(old(blk), sb) == 0 else Took(old(blk), blk, sb, 1)
      ensures addr != 0 ==>
                && addr < sb.size && !Used(old(blk), sb, addr)
                && Backs(ip)
                && blk == Marked(old(blk), sb, addr)
                && ino == old(ino)[ip.inum := WithAddr(old(ino)[ip.inum], k, addr)]
                && owner == old(owner)[addr := (ip.inum, k)]
                && logged == old(logged) + {BitmapBlock(sb, addr), addr}
    {
      var b := Balloc();
      if b == sb.size {
        NoneFree(blk, sb);
        return 0;
      }
      addr := b;
      FreeIsUnowned(old(blk), sb, ino, owner, addr);
      MarkedTakes(old(blk), sb, addr);
      ip.addrs[k] := addr;
      ino := ino[ip.inum := WithAddr(ino[ip.inum], k, addr)];
      owner := owner[addr := (ip.inum, k)];
    }

    /** bmap: the address of block bn of ip, allocated if there was none. 0 is a
        panic: bn out of range, or fewer free blocks than needed. */
    method Bmap(ip: Inode, bn: nat) returns (addr: Word)
      requires Owned(blk, sb, ino, owner) && Backs(ip)
      modifies this`blk, this`logged, this`ino, this`owner, ip.addrs
      ensures addr == 0 <==> bn >= MAXFILE || FreeCount(old(blk), sb) < Needs(old(blk), old(ino)[ip.inum], bn)
      ensures addr != 0 ==>
                && Backs(ip)
                && Bmapped(old(blk), old(ino), old(owner), old(logged), blk, ino, owner, logged, sb, ip.inum, bn, addr)
    {
      if bn < NDIRECT {
        addr := MapDirect(ip, bn);
      } else if bn - NDIRECT < NINDIRECT {
        addr := MapIndirect(ip, bn - NDIRECT);
      } else {
        addr := 0;
      }
    }

    /** bmap for a block named in the inode itself. */
    method MapDirect(ip: Inode, bn: nat) returns (addr: Word)
      requires Owned(blk, sb, ino, owner) && Backs(ip) && bn < NDIRECT
      modifies this`blk, this`logged, this`ino, this`owner, ip.addrs
      ensures addr == 0 <==> FreeCount(old(blk), sb) < Needs(old(blk), old(ino)[ip.inum], bn)
      ensures addr != 0 ==>
                && Backs(ip)
                && Bmapped(old(blk), old(ino), old(owner), old(logged), blk, ino, owner, logged, sb, ip.inum, bn, addr)
    {
      assert OnRecord(blk, ino, owner, ip.inum, bn);
      addr := ip.addrs[bn];
      if addr == 0 {
        addr := FillDirect(ip, bn);
        if addr != 0 {
          MappedDirect(old(blk), sb, old(ino), old(owner), ip.inum, bn, addr);
        }
      } else {
        assert ino[ip.inum := ino[ip.inum].(addrs := ino[ip.inum].addrs)] == ino;
      }
    }

    /** bmap for word w of the indirect block, which is itself allocated first if
        there is none. */
    method MapIndirect(ip: Inode, w: nat) returns (addr: Word)
      requires Owned(blk, sb, ino, owner) && Backs(ip) && w < NINDIRECT
      modifies this`blk, this`logged, this`ino, this`owner, ip.addrs
      ensures addr == 0 <==> FreeCount(old(blk), sb) < Needs(old(blk), old(ino)[ip.inum], NDIRECT + w)
      ensures addr != 0 ==>
                && Backs(ip)
                && Bmapped(old(blk), old(ino), old(owner), old(logged), blk, ino, owner, logged, sb, ip.inum,
                           NDIRECT + w, addr)
    {
      if ip.addrs[NDIRECT] != 0 {
        addr := FillIndirect(ip, ip.addrs[NDIRECT], w);
      } else {
        addr := StartIndirect(ip, w);
      }
    }

    /** The same where there is no indirect block yet. */
    method StartIndirect(ip: Inode, w: nat) returns (addr: Word)
      requires Owned(blk, sb, ino, owner) && Backs(ip) && w < NINDIRECT && ip.addrs[NDIRECT] == 0
      modifies this`blk, this`logged, this`ino, this`owner, ip.addrs
      ensures addr == 0 <==> FreeCount(old(blk), sb) < Needs(old(blk), old(ino)[ip.inum], NDIRECT + w)
      ensures addr != 0 ==>
                && Backs(ip)
                && Bmapped(old(blk), old(ino), old(owner), old(logged), blk, ino, owner, logged, sb, ip.inum,
                           NDIRECT + w, addr)
    {
      var x := FillDirect(ip, NDIRECT);
      if x == 0 {
        return 0;
      }
      AllocDirect(old(blk), sb, old(ino), old(owner), ip.inum, NDIRECT, x);
      FreeIsUnowned(old(blk), sb, old(ino), old(owner), x);
      addr := FillIndirect(ip, x, w);
      if addr != 0 {
        MappedAfterIndirect(old(blk), sb, old(ino), old(owner), ip.inum, x, blk, ino, owner, NDIRECT + w, addr);
      }
    }

    /** The second half of bmap: word w of the indirect block x. */
    method FillIndirect(ip: Inode, x: Word, w: nat) returns (addr: Word)
      requires Owned(blk, sb, ino, owner) && Backs(ip) && w < NINDIRECT && ip.addrs[NDIRECT] == x != 0
      modifies this`blk, this`logged, this`owner
      ensures addr == 0 <==> FreeCount(old(blk), sb) < Needs(old(blk), ino[ip.inum], NDIRECT + w)
      ensures addr != 0 ==> Bmapped(old(blk), ino, old(owner), old(logged), blk, ino, owner, logged, sb, ip.inum,
                                    NDIRECT + w, addr)
    {
      IndirectOnRecord(blk, sb, ino, owner, ip.inum);
      assert OnRecord(blk, ino, owner, ip.inum, NDIRECT + 1 + w);
      addr := GetWord(blk[x], w);
      if addr == 0 {
        var b := Balloc();
        if b == sb.size {
          NoneFree(blk, sb);
          return 0;
        }
        addr := b;
        FreeIsUnowned(old(blk), sb, ino, owner, addr);
        MarkedTakes(old(blk), sb, addr);
        WriteTakesNone(blk, sb, x, PutWord(blk[x], w, addr));
        blk := blk[x := PutWord(blk[x], w, addr)];
        logged := logged + {x};
        MappedIndirect(old(blk), blk, sb, ino, owner, ip.inum, w, addr);
        owner := owner[addr := (ip.inum, NDIRECT + 1 + w)];
      } else {
        assert ino[ip.inum := ino[ip.inum].(addrs := ino[ip.inum].addrs)] == ino;
      }
    }

    /** iupdate: the in-memory inode goes into its place in the inode block. */
    method Iupdate(ip: Inode)
      requires |blk| == sb.size && GoodLayout(sb) && ip.inum < sb.ninodes && ip.addrs.Length == NDIRECT + 1
      modifies this`blk, this`logged
      ensures InodeBlock(sb, ip.inum) < |old(blk)|
      ensures
        var b := InodeBlock(sb, ip.inum);
        blk == old(blk)[b := PutInode(old(blk)[b], ip.inum % IPB, ip.Mem())] && logged == old(logged) + {b}
    {
      MetaBlocks(sb, ip.inum, 0);
      var d := Dinode(ip.typ, ip.major, ip.minor, ip.nlink, ip.size, ip.addrs[..]);
      var b := InodeBlock(sb, ip.inum);
      blk := blk[b := PutInode(blk[b], ip.inum % IPB, d)];
      logged := logged + {b};
    }

    /** ialloc: the first free inode becomes an empty file; 0 is the panic. */
    method Ialloc(typ: Half) returns (i: nat)
      requires Valid() && typ != 0
      modifies this`blk, this`logged, this`ino
      ensures Valid()
      ensures i == 0 ==> blk == old(blk) && ino == old(ino) && forall x: nat | 0 < x < sb.ninodes :: Allocated(ino, x)
      ensures i != 0 ==>
                && i < |old(ino)| && !Allocated(old(ino), i) && ino == old(ino)[i := NewInode(typ)]
                && IsFile(blk, ino[i]) && Contents(blk, ino[i]) == []
                && OthersKept(old(blk), old(ino), owner, blk, ino, owner, i)
      ensures Took(old(blk), blk, sb, 0)
    {
      i := 1;
      while i < sb.ninodes
        invariant 1 <= i && blk == old(blk) && ino == old(ino)
        invariant forall x: nat | 0 < x < i && x < sb.ninodes :: Allocated(ino, x)
      {
        MetaBlocks(sb, i, 0);
        assert OnDisk(blk, sb, ino, i);
        var b := InodeBlock(sb, i);
        if GetInode(blk[b], i % IPB).typ == 0 {
          NewKeepsOwned(blk, sb, ino, owner, i, typ, ino[i := NewInode(typ)]);
          WriteTakesNone(blk, sb, b, PutInode(blk[b], i % IPB, NewInode(typ)));
          blk := blk[b := PutInode(blk[b], i % IPB, NewInode(typ))];
          ino, logged := ino[i := NewInode(typ)], logged + {b};
          IallocDone(old(blk), sb, old(ino), owner, i, typ, ino, blk);
          OthersStayFiles(old(blk), sb, old(ino), owner, blk, ino, owner, i);
          return;
        }
        i := i + 1;
      }
      i := 0;
    }

    /** k bytes into one block. */
    method WriteChunk(ip: Inode, src: seq<Byte>, off: nat, cur: nat, k: nat, next: nat, ghost blk0: Disk,
                      ghost ino0: seq<Dinode>, ghost owner0: Owner, ghost l0: set<nat>, ghost m0: nat)
      returns (ok: bool)
      requires Backs(ip) && off <= m0 * BSIZE && off <= cur && cur - off + k <= |src| && next == cur + k <= MAXBYTES
      requires 0 < k && cur % BSIZE + k <= BSIZE
      requires Underway(sb, blk0, ino0, owner0, l0, blk, ino, owner, logged, ip.inum, m0, off, src, cur)
      modifies this`blk, this`logged, this`ino, this`owner, ip.addrs
      ensures ok ==> Backs(ip)
      ensures ok ==> Underway(sb, blk0, ino0, owner0, l0, blk, ino, owner, logged, ip.inum, m0, off, src, next)
      ensures !ok ==> |blk0| == sb.size && FreeCount(blk0, sb) < Growth(m0, BlocksFor(next))
    {
      var addr := Bmap(ip, cur / BSIZE);
      if addr == 0 {
        CostFails(l0, blk0, owner0, old(logged), old(blk), old(ino)[ip.inum], old(owner), sb, ip.inum, m0, off, cur, k);
        return false;
      }
      AddressInRange(blk, sb, ino, owner, ip.inum, DataSlot(cur / BSIZE));
      PutBytes(ip.inum, addr, src, off, cur, k, next, blk0, ino0, owner0, l0, m0, old(blk), old(ino), old(owner),
               old(logged));
      ok := true;
    }

    /** k bytes of src into the data block that bmap has found. */
    method PutBytes(ghost i: nat, addr: Word, src: seq<Byte>, off: nat, cur: nat, k: nat, ghost next: nat,
                    ghost blk0: Disk, ghost ino0: seq<Dinode>, ghost owner0: Owner, ghost l0: set<nat>, ghost m0: nat,
                    ghost blk1: Disk, ghost ino1: seq<Dinode>, ghost owner1: Owner, ghost l1: set<nat>)
      requires off <= m0 * BSIZE && off <= cur && cur - off + k <= |src| && next == cur + k <= MAXBYTES
      requires 0 < k && cur % BSIZE + k <= BSIZE && addr < |blk|
      requires Underway(sb, blk0, ino0, owner0, l0, blk1, ino1, owner1, l1, i, m0, off, src, cur)
      requires Bmapped(blk1, ino1, owner1, l1, blk, ino, owner, logged, sb, i, cur / BSIZE, addr)
      modifies this`blk, this`logged
      ensures Underway(sb, blk0, ino0, owner0, l0, blk, ino, owner, logged, i, m0, off, src, next)
    {
      ghost var b2, l2 := blk, logged;
      blk := blk[addr := Patched(blk[addr], cur % BSIZE, src[cur - off..cur - off + k])];
      logged := logged + {addr};
      UnderwayStep(sb, blk0, ino0, owner0, l0, blk1, ino1, owner1, l1, b2, ino, owner, l2, blk, i, m0, off, src, cur,
                   k, next, addr);
    }

    /** One turn of writei's loop: the bytes from cur on that go into one block. */
    method WriteTurn(ip: Inode, src: seq<Byte>, off: nat, cur: nat, ghost blk0: Disk, ghost ino0: seq<Dinode>,
                     ghost owner0: Owner, ghost l0: set<nat>, ghost m0: nat) returns (ok: bool, next: nat)
      requires Backs(ip) && off <= m0 * BSIZE && off <= cur < off + |src| <= MAXBYTES
      requires Underway(sb, blk0, ino0, owner0, l0, blk, ino, owner, logged, ip.inum, m0, off, src, cur)
      modifies this`blk, this`logged, this`ino, this`owner, ip.addrs
      ensures cur < next <= off + |src|
      ensures ok ==> Backs(ip)
      ensures ok ==> Underway(sb, blk0, ino0, owner0, l0, blk, ino, owner, logged, ip.inum, m0, off, src, next)
      ensures !ok ==> |blk0| == sb.size && FreeCount(blk0, sb) < Growth(m0, BlocksFor(off + |src|))
    {
      var k := ChunkAt(cur, off + |src| - cur);
      next := cur + k;
      ok := WriteChunk(ip, src, off, cur, k, next, blk0, ino0, owner0, l0, m0);
      GrowthMonotone(m0, next, off + |src|);
    }

    /** The loop of writei. False is a panic: the disk is full. */
    method WriteLoop(ip: Inode, src: seq<Byte>, off: nat) returns (ok: bool)
      requires Owned(blk, sb, ino, owner) && Backs(ip) && IsFile(blk, ino[ip.inum])
      requires off <= ip.size && off + |src| <= MAXBYTES
      modifies this`blk, this`logged, this`ino, this`owner, ip.addrs
      ensures ok ==> Backs(ip)
      ensures ok ==> Underway(sb, old(blk), old(ino), old(owner), old(logged), blk, ino, owner, logged, ip.inum,
                              BlocksFor(old(ip.size)), off, src, off + |src|)
      ensures !ok ==> FreeCount(old(blk), sb) < Growth(BlocksFor(old(ip.size)), BlocksFor(off + |src|))
    {
      var cur, end := off, off + |src|;
      ghost var m0 := BlocksFor(ip.size);
      UnderwayStarts(sb, blk, ino, owner, logged, ip.inum, off, src);
      ok := true;
      while cur < end
        invariant off <= cur <= end && ok && Backs(ip)
        invariant Underway(sb, old(blk), old(ino), old(owner), old(logged), blk, ino, owner, logged,
                           ip.inum, m0, off, src, cur)
      {
        ok, cur := WriteTurn(ip, src, off, cur, old(blk), old(ino), old(owner), old(logged), m0);
        if !ok {
          return;
        }
      }
    }

    /** writei: on a device whatever its function returns, `dev`, if it has one. On a
        file -1 for a bad range, and otherwise the bytes are in the file as if it were
        one sequence. Every other file is as it was, and the inode on disk is the inode
        in memory. It panics exactly if the file grows by more blocks than are free. */
    method Writei(ip: Inode, src: seq<Byte>, off: Word, dev: Option<int>) returns (r: int, panic: bool)
      requires Valid() && Backs(ip) && |src| < 0x1_0000_0000
      modifies this`blk, this`logged, this`ino, this`owner, ip.addrs, ip`size
      ensures ip.typ == T_DEV ==> !panic && r == if dev.None? then -1 else dev.value
      ensures ip.typ != T_DEV ==>
                (r == -1 <==> off > old(ip.size) || off + |src| >= 0x1_0000_0000 || off + |src| > MAXBYTES)
      ensures ip.typ == T_DEV || r == -1 ==>
                && !panic && Valid() && Backs(ip)
                && blk == old(blk) && ino == old(ino) && owner == old(owner) && logged == old(logged)
      ensures ip.typ != T_DEV && r != -1 ==>
                && r == |src|
                && (panic <==> FreeCount(old(blk), sb) < Growth(BlocksFor(old(ip.size)), BlocksFor(off + |src|)))
      ensures ip.typ != T_DEV && r != -1 && !panic ==>
                && Valid() && Backs(ip) && IsFile(blk, ino[ip.inum]) && IsFile(old(blk), old(ino)[ip.inum])
                && Contents(blk, ino[ip.inum])
                   == Overwrite(Contents(old(blk), old(ino)[ip.inum]), off, src)
                && OthersKept(old(blk), old(ino), old(owner), blk, ino, owner, ip.inum)
                && Cost(old(logged) + InodeLog(sb, ip.inum, old(ip.size), off, |src|), old(blk), old(owner),
                        logged, blk, owner, sb, ip.inum, BlocksFor(old(ip.size)), off, |src|)
    {
      assert IsFile(blk, ino[ip.inum]);
      if ip.typ == T_DEV {
        return if dev.None? then -1 else dev.value, false;
      }
      if off > ip.size || (off + |src|) % 0x1_0000_0000 < off {
        return -1, false;
      }
      if off + |src| > MAXBYTES {
        return -1, false;
      }
      var ok := WriteLoop(ip, src, off);
      if !ok {
        return |src|, true;
      }
      WriteSize(ip, src, off, old(blk), old(ino), old(owner), old(logged));
      OthersStayFiles(old(blk), sb, old(ino), old(owner), blk, ino, owner, ip.inum);
      return |src|, false;
    }

    /** The end of writei: the size, and iupdate if it has grown. */
    method WriteSize(ip: Inode, src: seq<Byte>, off: Word, ghost blk0: Disk, ghost ino0: seq<Dinode>,
                     ghost owner0: Owner, ghost l0: set<nat>)
      requires Owned(blk0, sb, ino0, owner0) && Allocated(ino0, ip.inum) && IsFile(blk0, ino0[ip.inum])
      requires forall j | 0 <= j < sb.ninodes :: OnDisk(blk0, sb, ino0, j)
      requires Backs(ip) && off <= ino0[ip.inum].size
      requires Underway(sb, blk0, ino0, owner0, l0, blk, ino, owner, logged, ip.inum, BlocksFor(ino0[ip.inum].size),
                        off, src, off + |src|)
      modifies this`blk, this`logged, this`ino, ip`size
      ensures Backs(ip) && Done(sb, blk0, ino0, owner0, l0, blk, ino, owner, logged, ip.inum, off, src)
    {
      ghost var b1, i1 := blk, ino;
      MetaBlocks(sb, ip.inum, 0);
      if |src| > 0 && off + |src| > ip.size {
        ip.size := off + |src|;
        ino := ino[ip.inum := ino[ip.inum].(size := ip.size)];
        Iupdate(ip);
      } else {
        assert ino == ino[ip.inum := ino[ip.inum].(size := ino0[ip.inum].size)];
      }
      assert logged == old(logged) + InodeLog(sb, ip.inum, ino0[ip.inum].size, off, |src|);
      UnderwayEnds(sb, blk0, ino0, owner0, l0, b1, i1, owner, old(logged), ip.inum, off, src, ino, blk);
    }

    /** ip is a file with these bytes. */
    ghost predicate Reads(ip: Inode, c: seq<Byte>)
      reads this, ip, ip.addrs
    {
      Owned(blk, sb, ino, owner) && Backs(ip) && IsFile(blk, ino[ip.inum]) && c == Contents(blk, ino[ip.inum])
    }

    /** One turn of readi's loop: k bytes from one block within the file, for
        which bmap allocates nothing. */
    method ReadChunk(ip: Inode, cur: nat, k: nat, ghost c: seq<Byte>) returns (data: seq<Byte>)
      requires Reads(ip, c) && 0 < k && cur + k <= |c| && cur % BSIZE + k <= BSIZE
      modifies this`blk, this`logged, this`ino, this`owner, ip.addrs
      ensures blk == old(blk) && ino == old(ino) && owner == old(owner) && logged == old(logged) && Reads(ip, c)
      ensures data == c[cur..cur + k]
    {
      var bn := cur / BSIZE;
      assert bn < BlocksFor(ip.size);
      assert OnRecord(blk, ino, owner, ip.inum, DataSlot(bn));
      var addr := Bmap(ip, bn);
      assert logged == old(logged);
      AddressInRange(blk, sb, ino, owner, ip.inum, DataSlot(bn));
      SliceOfBlock(blk, ino[ip.inum], cur, k, addr);
      data := blk[addr][cur % BSIZE..cur % BSIZE + k];
    }

    method ReadLoop(ip: Inode, off: nat, n: nat, ghost c: seq<Byte>) returns (dst: seq<Byte>)
      requires Reads(ip, c) && off + n <= |c|
      modifies this`blk, this`logged, this`ino, this`owner, ip.addrs
      ensures blk == old(blk) && ino == old(ino) && owner == old(owner) && logged == old(logged) && Reads(ip, c)
      ensures dst == c[off..off + n]
    {
      var tot := 0;
      dst := [];
      while tot < n
        invariant 0 <= tot <= n && Reads(ip, c)
        invariant blk == old(blk) && ino == old(ino) && owner == old(owner) && logged == old(logged)
        invariant dst == c[off..off + tot]
      {
        var cur := off + tot;
        var k := ChunkAt(cur, n - tot);
        var data := ReadChunk(ip, cur, k, c);
        JoinSlices(c, off, cur, k);
        dst := dst + data;
        tot := tot + k;
      }
    }

    /** readi: on a device what its function returns and delivers, `dev`, if it has one.
        On a file -1 for a bad range, and otherwise the slice of the file, cut off at
        its end. Nothing is allocated and nothing changes. */
    method Readi(ip: Inode, off: Word, count: Word, dev: Option<(int, seq<Byte>)>) returns (r: int, dst: seq<Byte>)
      requires Valid() && Backs(ip)
      modifies this`blk, this`logged, this`ino, this`owner, ip.addrs
      ensures blk == old(blk) && ino == old(ino) && owner == old(owner) && logged == old(logged) && Valid() && Backs(ip)
      ensures ip.typ == T_DEV ==> (r, dst) == if dev.None? then (-1, []) else dev.value
      ensures ip.typ != T_DEV ==> (r == -1 <==> off > ip.size || off + count >= 0x1_0000_0000)
      ensures ip.typ != T_DEV && r != -1 ==>
                && r == |dst| && IsFile(blk, ino[ip.inum])
                && dst == Contents(blk, ino[ip.inum])[off..if off + count > ip.size then ip.size else off + count]
    {
      assert IsFile(blk, ino[ip.inum]);
      dst := [];
      if ip.typ == T_DEV {
        if dev.None? {
          return -1, dst;
        }
        return dev.value.0, dev.value.1;
      }
      if off > ip.size || (off + count) % 0x1_0000_0000 < off {
        return -1, dst;
      }
      var n: nat := count;
      if off + n > ip.size {
        n := ip.size - off;
      }
      dst := ReadLoop(ip, off, n, Contents(blk, ino[ip.inum]));
      return n, dst;
    }

    /** Frees the block in slot k of an inode, if there is one; false is a panic. */
    method FreeSlot(a: Word, ghost k: nat, ghost i: nat, ghost blk0: Disk, ghost done: set<nat>) returns (ok: bool)
      requires Truncating(sb, blk0, ino, owner, blk, i, done) && Allocated(ino, i) && k < SLOTS && k !in done
      requires a == Slot(blk0, ino[i], k)
      modifies this`blk, this`logged
      ensures ok && Truncating(sb, blk0, ino, owner, blk, i, done + {k})
    {
      TruncateSlot(sb, blk0, ino, owner, blk, i, done, k);
      ok := true;
      if a != 0 {
        ok := Bfree(a);
      }
    }

    /** The loops of itrunc: `done` ends up as all the slots. */
    method FreeAll(ip: Inode) returns (ghost done: set<nat>)
      requires Valid() && Backs(ip)
      modifies this`blk, this`logged, ip.addrs
      ensures Truncating(sb, old(blk), ino, owner, blk, ip.inum, done)
      ensures forall k: nat | k < SLOTS :: k in done
      ensures ip.addrs[..] == Emptied(ino[ip.inum]).addrs
    {
      ghost var i, d := ip.inum, ino[ip.inum];
      done := {};
      EmptiedOwned(blk, sb, ino, owner, i);
      var ok;
      for k := 0 to NDIRECT
        invariant forall l: nat :: l in done <==> l < k
        invariant Truncating(sb, old(blk), ino, owner, blk, i, done)
        invariant forall l | 0 <= l < k :: ip.addrs[l] == 0
        invariant forall l | k <= l <= NDIRECT :: ip.addrs[l] == d.addrs[l]
      {
        ok := FreeSlot(ip.addrs[k], k, i, old(blk), done);
        ip.addrs[k] := 0;
        done := done + {k};
      }
      if ip.addrs[NDIRECT] != 0 {
        done := FreeIndirect(ip.addrs[NDIRECT], i, old(blk), done);
        ip.addrs[NDIRECT] := 0;
      } else {
        done := NoIndirect(i, old(blk), done);
      }
    }

    /** The blocks named in the indirect block x, and x itself. */
    method FreeIndirect(x: Word, ghost i: nat, ghost blk0: Disk, ghost done0: set<nat>) returns (ghost done: set<nat>)
      requires Truncating(sb, blk0, ino, owner, blk, i, done0) && Allocated(ino, i)
      requires x == ino[i].addrs[NDIRECT] != 0 && forall l: nat :: l in done0 <==> l < NDIRECT
      modifies this`blk, this`logged
      ensures Truncating(sb, blk0, ino, owner, blk, i, done)
      ensures forall k: nat | k < SLOTS :: k in done
    {
      done := done0;
      IndirectOnRecord(blk0, sb, ino, owner, i);
      var ok;
      for j := 0 to NINDIRECT
        invariant forall l: nat :: l in done <==> l < NDIRECT || NDIRECT < l <= NDIRECT + j
        invariant Truncating(sb, blk0, ino, owner, blk, i, done)
      {
        ok := FreeSlot(GetWord(blk[x], j), NDIRECT + 1 + j, i, blk0, done);
        done := done + {NDIRECT + 1 + j};
      }
      ok := FreeSlot(x, NDIRECT, i, blk0, done);
      done := done + {NDIRECT};
    }

    /** Without an indirect block the remaining slots are empty. */
    lemma NoIndirect(i: nat, blk0: Disk, done0: set<nat>) returns (done: set<nat>)
      requires Truncating(sb, blk0, ino, owner, blk, i, done0) && Allocated(ino, i)
      requires ino[i].addrs[NDIRECT] == 0 && forall l: nat :: l in done0 <==> l < NDIRECT
      ensures Truncating(sb, blk0, ino, owner, blk, i, done)
      ensures forall k: nat | k < SLOTS :: k in done
    {
      done := done0;
      for j := 0 to NINDIRECT + 1
        invariant forall l: nat :: l in done <==> l < NDIRECT + j
        invariant Truncating(sb, blk0, ino, owner, blk, i, done)
      {
        TruncateSlot(sb, blk0, ino, owner, blk, i, done, NDIRECT + j);
        done := done + {NDIRECT + j};
      }
    }

    /** itrunc: clears exactly the bits of the blocks the inode held, none of
        which was free already; all other files are as they were. */
    method Itrunc(ip: Inode)
      requires Valid() && Backs(ip)
      modifies this`blk, this`logged, this`ino, this`owner, ip.addrs, ip`size
      ensures Valid() && Backs(ip)
      ensures ino == old(ino)[ip.inum := Emptied(old(ino)[ip.inum])] && owner == Others(old(owner), ip.inum)
      ensures forall b | 0 <= b < sb.size ::
                Used(blk, sb, b) <==> Used(old(blk), sb, b) && !(b in old(owner) && old(owner)[b].0 == ip.inum)
      ensures OthersKept(old(blk), old(ino), old(owner), blk, ino, owner, ip.inum)
    {
      ghost var done := FreeAll(ip);
      ghost var blk1, ino1 := blk, ino[ip.inum := Emptied(ino[ip.inum])];
      Truncated(sb, old(blk), ino, owner, blk, ip.inum, done, ino1);
      ip.size := 0;
      ino, owner := ino1, Others(owner, ip.inum);
      Iupdate(ip);
      IupdateValid(blk1, blk, sb, ino, owner, ip.inum);
      TruncatedOnDisk(sb, old(blk), old(ino), old(owner), blk1, blk, ip.inum, ino);
      EmptiedIsFile(blk, old(ino)[ip.inum]);
      OthersStayFiles(old(blk), sb, old(ino), old(owner), blk, ino, owner, ip.inum);
    }

    /** ip is a file that may be written. */
    ghost predicate Ready(ip: Inode)
      reads this, ip, ip.addrs
    {
      Valid() && Backs(ip) && ip.typ != T_DEV && IsFile(blk, ino[ip.inum])
    }

    ghost function BytesOf(ip: Inode): seq<Byte>
      requires Ready(ip)
      reads this, ip, ip.addrs
    {
      Contents(blk, ino[ip.inum])
    }

    /** filewrite to an inode: the bytes go to writei in chunks, up to the first one that
        is refused, and end up in the file as if written at once. */
    method Filewrite(ip: Inode, addr: seq<Byte>, off: Word) returns (r: int, off': Word, panic: bool)
      requires Ready(ip) && |addr| < 0x8000_0000
      modifies this`blk, this`logged, this`ino, this`owner, ip.addrs, ip`size
      ensures
        var size := |old(BytesOf(ip))|;
        panic <==> FreeCount(old(blk), sb) < FileGrowth(size, off, Accepted(size, off, |addr|))
      ensures !panic ==>
                && Ready(ip)
                && FileWritten(old(BytesOf(ip)), off, addr, r, off', File(BytesOf(ip)), old(blk), blk, sb)
                && OthersKept(old(blk), old(ino), old(owner), blk, ino, owner, ip.inum)
    {
      ghost var c, d, n := BytesOf(ip), BytesOf(ip), 0;
      off', n, d, panic := FilewriteLoop(ip, addr, off, c, blk, ino, owner);
      r := if off' == off + |addr| then |addr| else -1;
      if !panic {
        ProgressGives(c, off, addr, n, d, r, off', old(blk), blk, sb);
      }
    }

    /** The file has bytes d, and all others are as they were. */
    ghost predicate Filewriting(ip: Inode, d: seq<Byte>, blk0: Disk, ino0: seq<Dinode>, owner0: Owner)
      reads this, ip, ip.addrs
    {
      && Ready(ip) && File(BytesOf(ip)) == File(d)
      && OthersKept(blk0, ino0, owner0, blk, ino, owner, ip.inum)
    }

    method FilewriteLoop(ip: Inode, addr: seq<Byte>, off: Word, ghost c: seq<Byte>,
                         ghost blk0: Disk, ghost ino0: seq<Dinode>, ghost owner0: Owner)
      returns (off': Word, ghost i: nat, ghost d: seq<Byte>, panic: bool)
      requires Filewriting(ip, c, blk0, ino0, owner0) && |c| <= MAXBYTES && blk == blk0 && |addr| < 0x8000_0000
      modifies this`blk, this`logged, this`ino, this`owner, ip.addrs, ip`size
      ensures |blk0| == sb.size && GoodLayout(sb)
      ensures panic ==> FreeCount(blk0, sb) < FileGrowth(|c|, off, Accepted(|c|, off, |addr|))
      ensures !panic ==> i == Accepted(|c|, off, |addr|) && Progress(c, off, addr, i, d, blk0, blk, sb)
      ensures !panic ==> off' == off + i && Filewriting(ip, d, blk0, ino0, owner0)
    {
      var k := 0;
      off', d, panic := off, c, false;
      while k < |addr|
        invariant off' == off + k && !panic && Filewriting(ip, d, blk0, ino0, owner0)
        invariant Progress(c, off, addr, k, d, blk0, blk, sb)
      {
        var r, j;
        r, j, d, panic := FilewriteTurn(ip, addr, off, k, c, d, blk0, ino0, owner0);
        if r < 0 || panic {
          i := k;
          return;
        }
        k := j;
        off' := off + k;
      }
      AllAccepted(|c|, off, |addr|);
      i := k;
    }

    /** One turn of the loop of filewrite: the chunk addr[k..j]. */
    method FilewriteTurn(ip: Inode, addr: seq<Byte>, off: Word, k: nat, ghost c: seq<Byte>, ghost d: seq<Byte>,
                         ghost blk0: Disk, ghost ino0: seq<Dinode>, ghost owner0: Owner)
      returns (r: int, j: nat, ghost d': seq<Byte>, panic: bool)
      requires k < |addr| && off + k < 0x1_0000_0000
      requires Filewriting(ip, d, blk0, ino0, owner0) && Progress(c, off, addr, k, d, blk0, blk, sb)
      modifies this`blk, this`logged, this`ino, this`owner, ip.addrs, ip`size
      ensures panic ==> r >= 0 && FreeCount(blk0, sb) < FileGrowth(|c|, off, Accepted(|c|, off, |addr|))
      ensures r < 0 ==> k == Accepted(|c|, off, |addr|) && Progress(c, off, addr, k, d', blk0, blk, sb)
      ensures r >= 0 && !panic ==>
                k < j <= |addr| && off + j < 0x1_0000_0000 && Progress(c, off, addr, j, d', blk0, blk, sb)
      ensures !panic ==> Filewriting(ip, d', blk0, ino0, owner0)
    {
      j := ChunkEnd(k, |addr|);
      var src, at := addr[k..j], off + k;
      r, panic := WriteSome(ip, src, at);
      d' := d;
      if r < 0 {
        ProgressEnds(c, off, addr, k, j, d, at, src, blk0, blk, sb);
      } else if panic {
        ProgressPanics(c, off, addr, k, j, d, at, src, blk0, old(blk), sb);
      } else {
        d' := BytesOf(ip);
        OthersKeptTwice(blk0, ino0, owner0, old(blk), old(ino), old(owner), blk, ino, owner, ip.inum);
        ProgressStep(c, off, addr, k, j, d, d', at, src, blk0, old(blk), blk, sb);
      }
    }

    /** One chunk, in an operation of its own. On a disk with one block of bitmap it
        logs at most 11 blocks, and that many exactly if it reaches over eight data
        blocks and the file grows by a block that needs an indirect address. */
    method WriteSome(ip: Inode, src: seq<Byte>, off: Word) returns (r: int, panic: bool)
      requires Ready(ip) && 0 < |src| <= CHUNK
      modifies this`blk, this`logged, this`ino, this`owner, ip.addrs, ip`size
      ensures |old(blk)| == sb.size && GoodLayout(sb)
      ensures r < 0 <==> off > |old(BytesOf(ip))| || off + |src| > MAXBYTES
      ensures r < 0 ==> !panic && Ready(ip) && blk == old(blk) && ino == old(ino) && owner == old(owner)
      ensures r < 0 ==> File(BytesOf(ip)) == File(old(BytesOf(ip)))
      ensures r >= 0 ==> (panic <==> FreeCount(old(blk), sb)
                                     < Growth(BlocksFor(|old(BytesOf(ip))|), BlocksFor(off + |src|)))
      ensures r >= 0 && !panic ==>
                && r == |src|
                && Ready(ip) && File(BytesOf(ip)) == File(Overwrite(old(BytesOf(ip)), off, src))
                && OthersKept(old(blk), old(ino), old(owner), blk, ino, owner, ip.inum)
                && Took(old(blk), blk, sb, Growth(BlocksFor(|old(BytesOf(ip))|), BlocksFor(off + |src|)))
                && |logged| == LoggedBy(|old(BytesOf(ip))|, off, |src|, |NewBits(sb, old(owner), owner)|)
      ensures r >= 0 && !panic && sb.size < BPB ==>
                var m, m' := BlocksFor(|old(BytesOf(ip))|), BlocksFor(off + |src|);
                && |logged| <= MAXOPBLOCKS + 1
                && (|logged| > MAXOPBLOCKS <==> m' - off / BSIZE == 8 && m' > m && m' > NDIRECT)
    {
      logged := {};  // begin_op
      ghost var size := ip.size;
      r, panic := Writei(ip, src, off, None);
      if r >= 0 && !panic {
        assert {} + InodeLog(sb, ip.inum, size, off, |src|) == InodeLog(sb, ip.inum, size, off, |src|);
        LogCount(ip, src, off, size, old(blk), old(ino), old(owner));
      }
    }

    /** The number of blocks that writei has logged. */
    lemma LogCount(ip: Inode, src: seq<Byte>, off: nat, size: nat, blk0: Disk, ino0: seq<Dinode>, owner0: Owner)
      requires Ready(ip) && Owned(blk0, sb, ino0, owner0) && Allocated(ino0, ip.inum) && IsFile(blk0, ino0[ip.inum])
      requires 0 < |src| <= CHUNK && off <= size == ino0[ip.inum].size && off + |src| <= MAXBYTES
      requires ip.size == Max(size, off + |src|)
      requires Cost(InodeLog(sb, ip.inum, size, off, |src|), blk0, owner0, logged, blk, owner, sb, ip.inum,
                    BlocksFor(size), off, |src|)
      ensures |logged| == LoggedBy(size, off, |src|, |NewBits(sb, owner0, owner)|)
      ensures sb.size < BPB ==>
                var m, m' := BlocksFor(size), BlocksFor(off + |src|);
                && |logged| <= MAXOPBLOCKS + 1
                && (|logged| > MAXOPBLOCKS <==> m' - off / BSIZE == 8 && m' > m && m' > NDIRECT)
    {
      assert BlocksFor(ip.size) == Max(BlocksFor(size), BlocksFor(off + |src|));
      CountLogged(blk0, owner0, logged, blk, ino, owner, sb, ip.inum, size, off, |src|);
      if sb.size < BPB {
        OneBitmap(blk0, ino0, owner0, InodeLog(sb, ip.inum, size, off, |src|), logged, blk, ino, owner, sb,
                  ip.inum, BlocksFor(size), off, |src|);
        TooMany(size, off, |src|);
      }
    }
  }

  /** A file of 12287 bytes, all direct blocks but one byte, on a formatted disk. */
  method NearlyDirect(sb: Superblock, blk: Disk) returns (fs: Fs, ip: Inode)
    requires GoodLayout(sb) && |blk| == sb.size && sb.ninodes > 1
    requires forall b | 0 <= b < DataStart(sb) :: Used(blk, sb, b)
    requires forall i | 0 <= i < sb.ninodes :: InodeOn(blk, sb, i).typ == 0
    requires FreeCount(blk, sb) >= NDIRECT
    ensures fresh(fs) && fresh(ip) && fresh(ip.addrs)
    ensures fs.sb == sb && fs.Ready(ip) && |fs.BytesOf(ip)| == 12287 && Took(blk, fs.blk, sb, NDIRECT)
  {
    fs := new Fs(sb, blk);
    assert !Allocated(fs.ino, 1);
    var i := fs.Ialloc(T_FILE);
    ip := new Inode(i, NewInode(T_FILE));
    var r, off, panic := fs.Filewrite(ip, seq(12287, _ => 0), 0);
  }

  /** The next chunk logs 11 blocks. */
  method ElevenBlocks(sb: Superblock, blk: Disk) returns (fs: Fs, ip: Inode)
    requires GoodLayout(sb) && |blk| == sb.size < BPB && sb.ninodes > 1
    requires forall b | 0 <= b < DataStart(sb) :: Used(blk, sb, b)
    requires forall i | 0 <= i < sb.ninodes :: InodeOn(blk, sb, i).typ == 0
    requires FreeCount(blk, sb) >= NDIRECT + 8
    ensures fs.Ready(ip) && |fs.BytesOf(ip)| == 12287 + CHUNK && |fs.logged| == MAXOPBLOCKS + 1
  {
    fs, ip := NearlyDirect(sb, blk);
    var r, panic := fs.WriteSome(ip, seq(CHUNK, _ => 0), 12287);
  }
}
