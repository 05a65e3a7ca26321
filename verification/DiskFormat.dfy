/** The on-disk format of fs.h: inodes packed into blocks, and the free bitmap. */
module DiskFormat {
  import opened Blocks

  const NDIRECT := 12
  const NINDIRECT := WORDS           // addresses in the indirect block
  const MAXFILE := NDIRECT + NINDIRECT
  const DINODE := 64                 // sizeof(struct dinode)
  const IPB := 16                    // inodes per block
  const BPB := 8192                  // bitmap bits per block
  const T_DIR := 1
  const T_FILE := 2
  const T_DEV := 3

  type Half = x: int | 0 <= x < 0x1_0000

  /** struct dinode; the shorts as their 16 bits. */
  datatype Dinode = Dinode(typ: Half, major: Half, minor: Half, nlink: Half, size: Word, addrs: seq<Word>)

  predicate WellFormed(d: Dinode) {
    |d.addrs| == NDIRECT + 1
  }

  /** What the model needs of the superblock. */
  datatype Superblock = Superblock(size: nat, ninodes: nat, inodestart: nat, bmapstart: nat)

  /** First data block: the layout mkfs makes. */
  function DataStart(sb: Superblock): nat {
    sb.bmapstart + sb.size / BPB + 1
  }

  predicate GoodLayout(sb: Superblock) {
    && 1 <= sb.inodestart
    && sb.inodestart + sb.ninodes / IPB + 1 <= sb.bmapstart
    && DataStart(sb) <= sb.size < 0x1_0000_0000
  }

  function InodeBlock(sb: Superblock, i: nat): nat {
    i / IPB + sb.inodestart
  }

  function BitmapBlock(sb: Superblock, b: nat): nat {
    b / BPB + sb.bmapstart
  }

  lemma MetaBlocks(sb: Superblock, i: nat, b: nat)
    requires GoodLayout(sb)
    ensures i < sb.ninodes ==> InodeBlock(sb, i) < sb.bmapstart
    ensures b < sb.size ==> sb.bmapstart <= BitmapBlock(sb, b) < DataStart(sb)
  {
  }

  // ----- bits -----

  function Bit(x: nat, k: nat): bool {
    if k == 0 then x % 2 == 1 else Bit(x / 2, k - 1)
  }

  /** x with bit k set to v. */
  function WithBit(x: nat, k: nat, v: bool): nat {
    if k == 0 then x / 2 * 2 + (if v then 1 else 0) else WithBit(x / 2, k - 1, v) * 2 + x % 2
  }

  function Pow2(n: nat): nat {
    if n == 0 then 1 else 2 * Pow2(n - 1)
  }

  lemma {:induction false} BitOfWithBit(x: nat, k: nat, v: bool, l: nat)
    ensures Bit(WithBit(x, k, v), l) == if k == l then v else Bit(x, l)
  {
    if k == 0 {
      assert WithBit(x, k, v) / 2 == x / 2;
    } else {
      var y := WithBit(x / 2, k - 1, v);
      assert WithBit(x, k, v) / 2 == y && WithBit(x, k, v) % 2 == x % 2;
      if l > 0 {
        BitOfWithBit(x / 2, k - 1, v, l - 1);
      }
    }
  }

  lemma {:induction false} WithBitBound(x: nat, k: nat, v: bool, n: nat)
    requires x < Pow2(n) && k < n
    ensures WithBit(x, k, v) < Pow2(n)
  {
    var h := Pow2(n - 1);
    assert Pow2(n) == 2 * h && x / 2 < h;
    if k > 0 {
      WithBitBound(x / 2, k - 1, v, n - 1);
      assert WithBit(x / 2, k - 1, v) <= h - 1;
    }
  }

  lemma ByteBound()
    ensures Pow2(8) == 256
  {
    assert Pow2(4) == 16;
  }

  function GetBit(b: Block, i: nat): bool
    requires i < BPB
  {
    Bit(b[i / 8], i % 8)
  }

  /** data[bi / 8] |= m or &= ~m, with m = 1 << (bi % 8). */
  function PutBit(b: Block, i: nat, v: bool): Block
    requires i < BPB
  {
    ByteBound();
    WithBitBound(b[i / 8], i % 8, v, 8);
    b[i / 8 := WithBit(b[i / 8], i % 8, v)]
  }

  lemma GetPutBit(b: Block, i: nat, v: bool, j: nat)
    requires i < BPB && j < BPB
    ensures GetBit(PutBit(b, i, v), j) == if i == j then v else GetBit(b, j)
  {
    BitOfWithBit(b[i / 8], i % 8, v, j % 8);
    assert i / 8 == j / 8 && i % 8 == j % 8 ==> i == j;
  }

  // ----- inodes -----

  function EncodeAddrs(a: seq<Word>): (s: seq<Byte>)
    ensures |s| == 4 * |a|
  {
    if a == [] then [] else Bytes(a[0], 4) + EncodeAddrs(a[1..])
  }

  function DecodeAddrs(s: seq<Byte>): (a: seq<Word>)
    requires |s| % 4 == 0
    ensures |a| == |s| / 4
  {
    if s == [] then []
    else
      ValueBound(s[..4]);
      WordBound();
      [Value(s[..4])] + DecodeAddrs(s[4..])
  }

  lemma {:induction false} AddrsRoundTrip(a: seq<Word>)
    ensures DecodeAddrs(EncodeAddrs(a)) == a
  {
    if a != [] {
      WordBound();
      ValueBytes(a[0], 4);
      AddrsRoundTrip(a[1..]);
      assert EncodeAddrs(a)[..4] == Bytes(a[0], 4) && EncodeAddrs(a)[4..] == EncodeAddrs(a[1..]);
    }
  }

  function Encode(d: Dinode): (s: seq<Byte>)
    requires WellFormed(d)
    ensures |s| == DINODE
  {
    Bytes(d.typ, 2) + Bytes(d.major, 2) + Bytes(d.minor, 2) + Bytes(d.nlink, 2)
    + Bytes(d.size, 4) + EncodeAddrs(d.addrs)
  }

  function GetHalf(s: seq<Byte>, at: nat): Half
    requires at + 2 <= |s|
  {
    ValueBound(s[at..at + 2]);
    assert Pow256(2) == 0x1_0000;
    Value(s[at..at + 2])
  }

  function Decode(s: seq<Byte>): (d: Dinode)
    requires |s| == DINODE
    ensures WellFormed(d)
  {
    ValueBound(s[8..12]);
    WordBound();
    Dinode(GetHalf(s, 0), GetHalf(s, 2), GetHalf(s, 4), GetHalf(s, 6), Value(s[8..12]), DecodeAddrs(s[12..]))
  }

  lemma InodeRoundTrip(d: Dinode)
    requires WellFormed(d)
    ensures Decode(Encode(d)) == d
  {
    var s := Encode(d);
    assert s[0..2] == Bytes(d.typ, 2) && s[2..4] == Bytes(d.major, 2) && s[4..6] == Bytes(d.minor, 2);
    assert s[6..8] == Bytes(d.nlink, 2) && s[8..12] == Bytes(d.size, 4) && s[12..] == EncodeAddrs(d.addrs);
    assert Pow256(2) == 0x1_0000;
    ValueBytes(d.typ, 2);
    ValueBytes(d.major, 2);
    ValueBytes(d.minor, 2);
    ValueBytes(d.nlink, 2);
    WordBound();
    ValueBytes(d.size, 4);
    AddrsRoundTrip(d.addrs);
  }

  function GetInode(b: Block, k: nat): (d: Dinode)
    requires k < IPB
    ensures WellFormed(d)
  {
    Decode(b[DINODE * k..DINODE * k + DINODE])
  }

  function PutInode(b: Block, k: nat, d: Dinode): Block
    requires k < IPB && WellFormed(d)
  {
    b[..DINODE * k] + Encode(d) + b[DINODE * k + DINODE..]
  }

  /** iupdate writes one inode of the block and no other. */
  lemma GetPutInode(b: Block, k: nat, d: Dinode, j: nat)
    requires k < IPB && j < IPB && WellFormed(d)
    ensures GetInode(PutInode(b, k, d), j) == if j == k then d else GetInode(b, j)
  {
    if j == k {
      InodeRoundTrip(d);
      assert PutInode(b, k, d)[DINODE * k..DINODE * k + DINODE] == Encode(d);
    } else {
      assert PutInode(b, k, d)[DINODE * j..DINODE * j + DINODE] == b[DINODE * j..DINODE * j + DINODE];
    }
  }
}
