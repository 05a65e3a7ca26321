/** Which inode holds which block: every address in an inode or in an indirect
    block belongs to that one place, is marked used, and lies among the data
    blocks. */
module Ownership {
  import opened Blocks
  import opened DiskFormat

  /** Address slots of an inode: NDIRECT direct ones, the indirect block itself,
      and the NINDIRECT addresses inside it. */
  const SLOTS := NDIRECT + 1 + NINDIRECT

  /** Address in slot k of inode d; 0 if there is none. */
  function Slot(blk: Disk, d: Dinode, k: nat): Word
    requires WellFormed(d) && k < SLOTS
  {
    if k <= NDIRECT then d.addrs[k]
    else if d.addrs[NDIRECT] == 0 || d.addrs[NDIRECT] >= |blk| then 0
    else GetWord(blk[d.addrs[NDIRECT]], k - NDIRECT - 1)
  }

  /** The slot of the nth block of a file. */
  function DataSlot(n: nat): nat {
    if n < NDIRECT then n else n + 1
  }

  /** The bit of block b in the free bitmap. */
  function Used(blk: Disk, sb: Superblock, b: nat): bool
    requires |blk| == sb.size && GoodLayout(sb) && b < sb.size
  {
    GetBit(blk[BitmapBlock(sb, b)], b % BPB)
  }

  predicate Allocated(ino: seq<Dinode>, i: nat) {
    i < |ino| && ino[i].typ != 0
  }

  ghost predicate GoodTable(sb: Superblock, ino: seq<Dinode>) {
    |ino| == sb.ninodes && forall i | 0 <= i < |ino| :: WellFormed(ino[i])
  }

  type Owner = map<nat, (nat, nat)>

  /** Slot k of inode i, if it holds an address, is on record as its owner. */
  ghost predicate OnRecord(blk: Disk, ino: seq<Dinode>, owner: Owner, i: nat, k: nat)
    requires i < |ino| && WellFormed(ino[i]) && k < SLOTS
  {
    var a := Slot(blk, ino[i], k);
    a != 0 ==> a in owner && owner[a] == (i, k)
  }

  /** A block on record is a data block, in use, and where the record says. */
  ghost predicate Genuine(blk: Disk, sb: Superblock, ino: seq<Dinode>, owner: Owner, a: nat)
    requires |blk| == sb.size && GoodLayout(sb) && GoodTable(sb, ino) && a in owner
  {
    && DataStart(sb) <= a < sb.size
    && Used(blk, sb, a)
    && Allocated(ino, owner[a].0)
    && owner[a].1 < SLOTS
    && Slot(blk, ino[owner[a].0], owner[a].1) == a
  }

  ghost predicate Owned(blk: Disk, sb: Superblock, ino: seq<Dinode>, owner: Owner) {
    && |blk| == sb.size && GoodLayout(sb) && GoodTable(sb, ino)
    && (forall i: nat, k: nat | Allocated(ino, i) && k < SLOTS :: OnRecord(blk, ino, owner, i, k))
    && (forall a {:trigger Genuine(blk, sb, ino, owner, a)} | a in owner :: Genuine(blk, sb, ino, owner, a))
    && (forall b | 0 <= b < DataStart(sb) :: Used(blk, sb, b))
  }

  /** No address is held twice. */
  lemma HeldOnce(blk: Disk, sb: Superblock, ino: seq<Dinode>, owner: Owner, i: nat, k: nat, j: nat, l: nat)
    requires Owned(blk, sb, ino, owner) && Allocated(ino, i) && Allocated(ino, j) && k < SLOTS && l < SLOTS
    requires Slot(blk, ino[i], k) != 0 && Slot(blk, ino[i], k) == Slot(blk, ino[j], l)
    ensures i == j && k == l
  {
    assert OnRecord(blk, ino, owner, i, k) && OnRecord(blk, ino, owner, j, l);
  }

  lemma ZeroWords(j: nat)
    requires j < WORDS
    ensures GetWord(ZeroBlock(), j) == 0
  {
    var s := ZeroBlock()[4 * j..4 * j + 4];
    assert s == [0, 0, 0, 0];
    ZeroValue(s);
  }

  lemma {:induction false} ZeroValue(s: seq<Byte>)
    requires forall i | 0 <= i < |s| :: s[i] == 0
    ensures Value(s) == 0
  {
    if s != [] {
      ZeroValue(s[1..]);
    }
  }

  /** The indirect block of inode i, if it has one, is on record as that. */
  lemma IndirectOnRecord(blk: Disk, sb: Superblock, ino: seq<Dinode>, owner: Owner, i: nat)
    requires Owned(blk, sb, ino, owner) && Allocated(ino, i) && ino[i].addrs[NDIRECT] != 0
    ensures ino[i].addrs[NDIRECT] in owner && owner[ino[i].addrs[NDIRECT]] == (i, NDIRECT)
    ensures DataStart(sb) <= ino[i].addrs[NDIRECT] < sb.size
  {
    assert OnRecord(blk, ino, owner, i, NDIRECT);
    assert Genuine(blk, sb, ino, owner, ino[i].addrs[NDIRECT]);
  }

  /** Changing blocks that are no inode's indirect block changes no slot. */
  lemma SlotsFrame(blk: Disk, blk': Disk, sb: Superblock, ino: seq<Dinode>, owner: Owner, i: nat, k: nat)
    requires Owned(blk, sb, ino, owner) && |blk'| == |blk| && Allocated(ino, i) && k < SLOTS
    requires var x := ino[i].addrs[NDIRECT]; x != 0 && x < |blk| ==> blk'[x] == blk[x]
    ensures Slot(blk', ino[i], k) == Slot(blk, ino[i], k)
  {
  }

  // ----- bitmap -----

  lemma UsedAfterPut(blk: Disk, sb: Superblock, a: nat, v: bool, b: nat)
    requires |blk| == sb.size && GoodLayout(sb) && a < sb.size && b < sb.size
    ensures BitmapBlock(sb, a) < |blk|
    ensures Used(blk[BitmapBlock(sb, a) := PutBit(blk[BitmapBlock(sb, a)], a % BPB, v)], sb, b)
         == if a == b then v else Used(blk, sb, b)
  {
    MetaBlocks(sb, 0, a);
    MetaBlocks(sb, 0, b);
    GetPutBit(blk[BitmapBlock(sb, a)], a % BPB, v, b % BPB);
    assert a / BPB == b / BPB && a % BPB == b % BPB ==> a == b;
  }

  lemma UsedFrame(blk: Disk, sb: Superblock, x: nat, data: Block, b: nat)
    requires |blk| == sb.size && GoodLayout(sb) && x < sb.size && b < sb.size
    requires x < sb.bmapstart || DataStart(sb) <= x
    ensures Used(blk[x := data], sb, b) == Used(blk, sb, b)
  {
    MetaBlocks(sb, 0, b);
  }

  /** blk after balloc has marked and zeroed a. */
  function Marked(blk: Disk, sb: Superblock, a: nat): (r: Disk)
    requires |blk| == sb.size && GoodLayout(sb) && a < sb.size
    ensures |r| == |blk|
  {
    MetaBlocks(sb, 0, a);
    blk[BitmapBlock(sb, a) := PutBit(blk[BitmapBlock(sb, a)], a % BPB, true)][a := ZeroBlock()]
  }

  /** A free block is a data block that nobody holds. */
  lemma FreeIsUnowned(blk: Disk, sb: Superblock, ino: seq<Dinode>, owner: Owner, a: nat)
    requires Owned(blk, sb, ino, owner) && a < sb.size && !Used(blk, sb, a)
    ensures DataStart(sb) <= a && a !in owner
  {
    assert a in owner ==> Genuine(blk, sb, ino, owner, a);
  }

  lemma MarkedUsed(blk: Disk, sb: Superblock, a: nat, b: nat)
    requires |blk| == sb.size && GoodLayout(sb) && DataStart(sb) <= a < sb.size && b < sb.size
    ensures Used(Marked(blk, sb, a), sb, b) == (a == b || Used(blk, sb, b))
  {
    UsedAfterPut(blk, sb, a, true, b);
    var bm := BitmapBlock(sb, a);
    UsedFrame(blk[bm := PutBit(blk[bm], a % BPB, true)], sb, a, ZeroBlock(), b);
  }

  lemma MarkKeepsOwned(blk: Disk, sb: Superblock, ino: seq<Dinode>, owner: Owner, a: nat)
    requires Owned(blk, sb, ino, owner) && a < sb.size && !Used(blk, sb, a)
    ensures Owned(Marked(blk, sb, a), sb, ino, owner)
  {
    FreeIsUnowned(blk, sb, ino, owner, a);
    var blk' := Marked(blk, sb, a);
    MetaBlocks(sb, 0, a);
    forall b | 0 <= b < sb.size
      ensures Used(blk, sb, b) ==> Used(blk', sb, b)
    {
      MarkedUsed(blk, sb, a, b);
    }
    ChangeKeepsOwned(blk, blk', sb, ino, owner, {BitmapBlock(sb, a), a});
  }

  /** Changing blocks that are not indirect blocks, without clearing a bit. */
  lemma ChangeKeepsOwned(blk: Disk, blk': Disk, sb: Superblock, ino: seq<Dinode>, owner: Owner, changed: set<nat>)
    requires Owned(blk, sb, ino, owner) && |blk'| == |blk|
    requires forall b | 0 <= b < |blk| && b !in changed :: blk'[b] == blk[b]
    requires forall b <- changed :: DataStart(sb) <= b && b in owner ==> owner[b].1 != NDIRECT
    requires forall b | 0 <= b < sb.size && (b < DataStart(sb) || b in owner) :: Used(blk, sb, b) ==> Used(blk', sb, b)
    ensures Owned(blk', sb, ino, owner)
    ensures forall i: nat, k: nat | Allocated(ino, i) && k < SLOTS :: Slot(blk', ino[i], k) == Slot(blk, ino[i], k)
  {
    forall i: nat, k: nat | Allocated(ino, i) && k < SLOTS
      ensures Slot(blk', ino[i], k) == Slot(blk, ino[i], k)
      ensures OnRecord(blk', ino, owner, i, k)
    {
      if ino[i].addrs[NDIRECT] != 0 {
        IndirectOnRecord(blk, sb, ino, owner, i);
      }
      SlotsFrame(blk, blk', sb, ino, owner, i, k);
      assert OnRecord(blk, ino, owner, i, k);
    }
    forall a | a in owner
      ensures Genuine(blk', sb, ino, owner, a)
    {
      assert Genuine(blk, sb, ino, owner, a);
    }
  }

  // ----- attaching a fresh block -----

  /** ino with address a in slot k <= NDIRECT of inode i. */
  function WithAddr(d: Dinode, k: nat, a: Word): (r: Dinode)
    requires WellFormed(d) && k <= NDIRECT
    ensures WellFormed(r)
  {
    d.(addrs := d.addrs[k := a])
  }

  /** A fresh block in a direct slot, or a fresh zeroed block as indirect block. */
  lemma AttachDirect(blk: Disk, sb: Superblock, ino: seq<Dinode>, owner: Owner, i: nat, k: nat, a: Word)
    requires Owned(blk, sb, ino, owner) && Allocated(ino, i) && k <= NDIRECT && ino[i].addrs[k] == 0
    requires DataStart(sb) <= a < sb.size && a !in owner && Used(blk, sb, a)
    requires k == NDIRECT ==> blk[a] == ZeroBlock()
    ensures Owned(blk, sb, ino[i := WithAddr(ino[i], k, a)], owner[a := (i, k)])
    ensures forall l: nat | l < SLOTS && l != k :: Slot(blk, WithAddr(ino[i], k, a), l) == Slot(blk, ino[i], l)
  {
    var ino', owner' := ino[i := WithAddr(ino[i], k, a)], owner[a := (i, k)];
    forall l: nat | l < SLOTS && l != k
      ensures Slot(blk, ino'[i], l) == Slot(blk, ino[i], l)
    {
      if l > NDIRECT && k == NDIRECT {
        ZeroWords(l - NDIRECT - 1);
      }
    }
    forall j: nat, l: nat | Allocated(ino', j) && l < SLOTS
      ensures OnRecord(blk, ino', owner', j, l)
    {
      assert OnRecord(blk, ino, owner, j, l);
    }
    forall x | x in owner'
      ensures Genuine(blk, sb, ino', owner', x)
    {
      if x != a {
        assert Genuine(blk, sb, ino, owner, x);
      }
    }
  }

  /** Storing a word in the indirect block of inode i changes that slot only. */
  lemma IndirectSlots(blk: Disk, d: Dinode, x: nat, w: nat, a: Word, l: nat)
    requires WellFormed(d) && w < NINDIRECT && l < SLOTS
    requires x == d.addrs[NDIRECT] && 0 < x < |blk|
    ensures Slot(blk[x := PutWord(blk[x], w, a)], d, l) == if l == NDIRECT + 1 + w then a else Slot(blk, d, l)
  {
    if l > NDIRECT {
      GetPutSame(blk[x], w, a);
      if l != NDIRECT + 1 + w {
        GetPutOther(blk[x], w, a, l - NDIRECT - 1);
      }
    }
  }

  /** A fresh block in word w of the indirect block x of inode i. */
  lemma AttachIndirect(blk: Disk, blk': Disk, sb: Superblock, ino: seq<Dinode>, owner: Owner, i: nat, x: nat, w: nat,
                       a: Word)
    requires Owned(blk, sb, ino, owner) && Allocated(ino, i) && w < NINDIRECT
    requires x == ino[i].addrs[NDIRECT] && 0 < x < |blk| && Slot(blk, ino[i], NDIRECT + 1 + w) == 0
    requires DataStart(sb) <= a < sb.size && a !in owner && Used(blk, sb, a)
    requires blk' == blk[x := PutWord(blk[x], w, a)]
    ensures Owned(blk', sb, ino, owner[a := (i, NDIRECT + 1 + w)])
  {
    IndirectOnRecord(blk, sb, ino, owner, i);
    forall j: nat, l: nat | Allocated(ino, j) && l < SLOTS
      ensures Slot(blk', ino[j], l) == if (j, l) == (i, NDIRECT + 1 + w) then a else Slot(blk, ino[j], l)
    {
      if j == i {
        IndirectSlots(blk, ino[i], x, w, a, l);
      } else if ino[j].addrs[NDIRECT] != 0 {
        IndirectOnRecord(blk, sb, ino, owner, j);
      }
    }
    forall b | 0 <= b < sb.size
      ensures Used(blk', sb, b) == Used(blk, sb, b)
    {
      UsedFrame(blk, sb, x, PutWord(blk[x], w, a), b);
    }
    AttachedOwned(blk, blk', sb, ino, owner, i, NDIRECT + 1 + w, a);
  }

  /** One slot more, everything else as it was. */
  lemma AttachedOwned(blk: Disk, blk': Disk, sb: Superblock, ino: seq<Dinode>, owner: Owner, i: nat, k: nat, a: Word)
    requires Owned(blk, sb, ino, owner) && Allocated(ino, i) && k < SLOTS && |blk'| == |blk|
    requires Slot(blk, ino[i], k) == 0 && a != 0 && a !in owner && DataStart(sb) <= a < sb.size
    requires forall j: nat, l: nat | Allocated(ino, j) && l < SLOTS ::
               Slot(blk', ino[j], l) == if (j, l) == (i, k) then a else Slot(blk, ino[j], l)
    requires Used(blk, sb, a) && forall b | 0 <= b < sb.size :: Used(blk', sb, b) == Used(blk, sb, b)
    ensures Owned(blk', sb, ino, owner[a := (i, k)])
  {
    var owner' := owner[a := (i, k)];
    forall j: nat, l: nat | Allocated(ino, j) && l < SLOTS
      ensures OnRecord(blk', ino, owner', j, l)
    {
      assert OnRecord(blk, ino, owner, j, l);
    }
    forall y | y in owner'
      ensures Genuine(blk', sb, ino, owner', y)
    {
      if y != a {
        assert Genuine(blk, sb, ino, owner, y);
      }
    }
  }

  // ----- releasing a block -----

  /** blk after bfree has cleared the bit of a. */
  function Cleared(blk: Disk, sb: Superblock, a: nat): (r: Disk)
    requires |blk| == sb.size && GoodLayout(sb) && a < sb.size
    ensures |r| == |blk|
  {
    MetaBlocks(sb, 0, a);
    blk[BitmapBlock(sb, a) := PutBit(blk[BitmapBlock(sb, a)], a % BPB, false)]
  }

  lemma ClearedUsed(blk: Disk, sb: Superblock, a: nat, b: nat)
    requires |blk| == sb.size && GoodLayout(sb) && a < sb.size && b < sb.size
    ensures Used(Cleared(blk, sb, a), sb, b) == (a != b && Used(blk, sb, b))
  {
    UsedAfterPut(blk, sb, a, false, b);
  }

  /** Clearing the bit of a data block that nobody holds. */
  lemma ClearKeepsOwned(blk: Disk, sb: Superblock, ino: seq<Dinode>, owner: Owner, a: nat)
    requires Owned(blk, sb, ino, owner) && DataStart(sb) <= a < sb.size && a !in owner
    ensures Owned(Cleared(blk, sb, a), sb, ino, owner)
  {
    var blk' := Cleared(blk, sb, a);
    MetaBlocks(sb, 0, a);
    forall b | 0 <= b < sb.size
      ensures Used(blk', sb, b) == (a != b && Used(blk, sb, b))
    {
      ClearedUsed(blk, sb, a, b);
    }
    ChangeKeepsOwned(blk, blk', sb, ino, owner, {BitmapBlock(sb, a)});
  }

  /** The inode with no blocks and no bytes. */
  function Emptied(d: Dinode): (r: Dinode)
    ensures WellFormed(r)
  {
    d.(size := 0, addrs := seq(NDIRECT + 1, _ => 0))
  }

  /** The blocks held by inodes other than i. */
  ghost function Others(owner: Owner, i: nat): Owner {
    map a | a in owner && owner[a].0 != i :: owner[a]
  }

  lemma EmptiedOwned(blk: Disk, sb: Superblock, ino: seq<Dinode>, owner: Owner, i: nat)
    requires Owned(blk, sb, ino, owner) && i < |ino|
    ensures Owned(blk, sb, ino[i := Emptied(ino[i])], Others(owner, i))
  {
    var ino', owner' := ino[i := Emptied(ino[i])], Others(owner, i);
    forall j: nat, k: nat | Allocated(ino', j) && k < SLOTS
      ensures OnRecord(blk, ino', owner', j, k)
    {
      if j != i {
        assert OnRecord(blk, ino, owner, j, k);
      }
    }
    forall a | a in owner'
      ensures Genuine(blk, sb, ino', owner', a)
    {
      assert Genuine(blk, sb, ino, owner, a);
    }
  }
}
