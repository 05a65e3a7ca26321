/** Disk blocks as byte arrays, with the little-endian 32-bit words that the
    log header, the inodes and the indirect blocks are made of (fs.h, log.c). */
module Blocks {

  const BSIZE := 1024
  const WORDS := 256  // 32-bit words per block

  type Byte = x: int | 0 <= x < 256
  type Word = x: int | 0 <= x < 0x1_0000_0000
  type Block = b: seq<Byte> | |b| == BSIZE witness seq(BSIZE, _ => 0)
  type Disk = seq<Block>

  function ZeroBlock(): (b: Block)
    ensures forall i | 0 <= i < BSIZE :: b[i] == 0
  {
    seq(BSIZE, _ => 0)
  }

  /** Little-endian bytes of v, n of them. */
  function Bytes(v: nat, n: nat): (s: seq<Byte>)
    ensures |s| == n
  {
    if n == 0 then [] else [v % 256] + Bytes(v / 256, n - 1)
  }

  function Value(s: seq<Byte>): nat {
    if s == [] then 0 else s[0] + 256 * Value(s[1..])
  }

  function Pow256(n: nat): nat {
    if n == 0 then 1 else 256 * Pow256(n - 1)
  }

  lemma {:induction false} ValueBytes(v: nat, n: nat)
    requires v < Pow256(n)
    ensures Value(Bytes(v, n)) == v
  {
    if n > 0 {
      ValueBytes(v / 256, n - 1);
      assert Bytes(v, n)[1..] == Bytes(v / 256, n - 1);
    }
  }

  lemma {:induction false} ValueBound(s: seq<Byte>)
    ensures Value(s) < Pow256(|s|)
  {
    if s != [] {
      ValueBound(s[1..]);
    }
  }

  lemma WordBound()
    ensures Pow256(4) == 0x1_0000_0000
  {
    assert Pow256(2) == 0x1_0000;
  }

  function GetWord(b: Block, i: nat): Word
    requires i < WORDS
  {
    ValueBound(b[4 * i..4 * i + 4]);
    WordBound();
    Value(b[4 * i..4 * i + 4])
  }

  function PutWord(b: Block, i: nat, w: Word): (r: Block)
    requires i < WORDS
  {
    b[..4 * i] + Bytes(w, 4) + b[4 * i + 4..]
  }

  /** A stored word reads back. */
  lemma GetPutSame(b: Block, i: nat, w: Word)
    requires i < WORDS
    ensures GetWord(PutWord(b, i, w), i) == w
  {
    WordBound();
    ValueBytes(w, 4);
    assert PutWord(b, i, w)[4 * i..4 * i + 4] == Bytes(w, 4);
  }

  /** Storing one word leaves every other word alone. */
  lemma GetPutOther(b: Block, i: nat, w: Word, j: nat)
    requires i < WORDS && j < WORDS && i != j
    ensures GetWord(PutWord(b, i, w), j) == GetWord(b, j)
  {
    assert PutWord(b, i, w)[4 * j..4 * j + 4] == b[4 * j..4 * j + 4];
  }
}
