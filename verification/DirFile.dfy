/** Directories as they are on disk: dirlookup and dirlink of fs.c over readi and
    writei, on 16-byte entries compared and copied by strncmp and strncpy. They do to
    the bytes what DirTree does to sequences of entries. */
module DirFile {
  import opened Blocks
  import opened Common
  import opened DiskFormat
  import opened Ownership
  import opened FileData
  import opened FileSteps
  import opened FileCosts
  import opened FileSystem
  import opened Strings
  import D = DirTree
  import opened Paths

  const DIRENT := 16  // sizeof(struct dirent)

  /** The bytes of a name as characters. */
  function Text(s: seq<Byte>): (r: string)
    ensures |r| == |s|
    ensures forall i | 0 <= i < |s| :: r[i] == s[i] as char
  {
    seq(|s|, i requires 0 <= i < |s| => s[i] as char)
  }

  lemma TextSame(s: seq<Byte>, t: seq<Byte>)
    ensures Text(s) == Text(t) <==> s == t
  {
    if Text(s) == Text(t) {
      assert |s| == |t|;
      forall i | 0 <= i < |s|
        ensures s[i] == t[i]
      {
        assert Text(s)[i] == Text(t)[i];
      }
    }
  }

  /** struct dirent in 16 bytes. */
  ghost function DirentOf(e: seq<Byte>): D.Dirent
    requires |e| == DIRENT
  {
    D.Dirent(GetHalf(e, 0), Text(Name(e[2..], DIRSIZ)))
  }

  /** The bytes of slot k. */
  ghost function SlotBytes(c: seq<Byte>, k: nat): (e: seq<Byte>)
    requires k * DIRENT + DIRENT <= |c|
    ensures |e| == DIRENT
  {
    c[k * DIRENT..k * DIRENT + DIRENT]
  }

  /** The entries of the directory with bytes c. */
  ghost function Entries(c: seq<Byte>): (es: seq<D.Dirent>)
    requires |c| % DIRENT == 0
    ensures |es| == |c| / DIRENT
    ensures forall k | 0 <= k < |es| :: es[k] == DirentOf(SlotBytes(c, k))
  {
    seq(|c| / DIRENT, k requires 0 <= k < |c| / DIRENT => DirentOf(SlotBytes(c, k)))
  }

  /** es with e in slot k, or after the last one. */
  function PutAt(es: seq<D.Dirent>, k: nat, e: D.Dirent): seq<D.Dirent> {
    if k < |es| then es[k := e] else es + [e]
  }

  lemma OverwriteSlot(c: seq<Byte>, c': seq<Byte>, k: nat, e: seq<Byte>, j: nat)
    requires k * DIRENT <= |c| && |e| == DIRENT && c' == Overwrite(c, k * DIRENT, e)
    requires j * DIRENT + DIRENT <= |c'| && (j != k ==> j * DIRENT + DIRENT <= |c|)
    ensures SlotBytes(c', j) == if j == k then e else SlotBytes(c, j)
  {
  }

  /** Writing 16 bytes over slot k, or after the last one, replaces or adds an entry. */
  lemma OverwriteEntry(c: seq<Byte>, k: nat, e: seq<Byte>)
    requires |c| % DIRENT == 0 && k * DIRENT <= |c| && |e| == DIRENT
    ensures
      var c', es := Overwrite(c, k * DIRENT, e), Entries(c);
      |c'| % DIRENT == 0 && Entries(c') == PutAt(es, k, DirentOf(e))
  {
    var c' := Overwrite(c, k * DIRENT, e);
    var n, n' := |c| / DIRENT, |c'| / DIRENT;
    assert n' == Max(n, k + 1);
    forall j: nat | j < n'
      ensures Entries(c')[j] == if j == k then DirentOf(e) else Entries(c)[j]
    {
      OverwriteSlot(c, c', k, e, j);
    }
  }

  /** The entry that dirlink builds. */
  lemma BuiltEntry(inum: nat, padded: seq<Byte>, name: seq<Byte>)
    requires |padded| == DIRSIZ && Readable(name, DIRSIZ) && Name(padded, DIRSIZ) == Name(name, DIRSIZ)
    ensures DirentOf(Bytes(inum % 0x1_0000, 2) + padded) == D.Dirent(inum % 0x1_0000, Text(Name(name, DIRSIZ)))
  {
    var e := Bytes(inum % 0x1_0000, 2) + padded;
    assert e[2..] == padded && e[0..2] == Bytes(inum % 0x1_0000, 2);
    assert Pow256(2) == 0x1_0000;
    ValueBytes(inum % 0x1_0000, 2);
  }

  /** dp is a directory made of whole entries. */
  ghost predicate IsDirectory(fs: Fs, dp: Inode)
    reads fs, dp, dp.addrs
  {
    fs.Ready(dp) && dp.typ == T_DIR && |fs.BytesOf(dp)| % DIRENT == 0
  }

  lemma WholeSlot(size: nat, k: nat)
    requires size % DIRENT == 0 && k * DIRENT < size
    ensures k * DIRENT + DIRENT <= size && k < size / DIRENT
  {
    assert size == size / DIRENT * DIRENT;
  }

  /** readi of the entry in slot k. */
  method ReadEntry(fs: Fs, dp: Inode, k: nat) returns (de: seq<Byte>)
    requires IsDirectory(fs, dp) && k * DIRENT < dp.size
    modifies fs`blk, fs`logged, fs`ino, fs`owner, dp.addrs
    ensures fs.blk == old(fs.blk) && fs.ino == old(fs.ino) && fs.owner == old(fs.owner) && fs.logged == old(fs.logged)
    ensures IsDirectory(fs, dp) && fs.BytesOf(dp) == old(fs.BytesOf(dp))
    ensures |de| == DIRENT && k < |Entries(fs.BytesOf(dp))| && DirentOf(de) == Entries(fs.BytesOf(dp))[k]
  {
    var r;
    ghost var c := fs.BytesOf(dp);
    WholeSlot(|c|, k);
    r, de := fs.Readi(dp, k * DIRENT, DIRENT, None);
    assert de == SlotBytes(c, k);
  }

  /** The loop of dirlookup. */
  method FindName(fs: Fs, dp: Inode, name: seq<Byte>) returns (k: nat)
    requires IsDirectory(fs, dp) && Readable(name, DIRSIZ)
    modifies fs`blk, fs`logged, fs`ino, fs`owner, dp.addrs
    ensures fs.blk == old(fs.blk) && fs.ino == old(fs.ino) && fs.owner == old(fs.owner) && fs.logged == old(fs.logged)
    ensures IsDirectory(fs, dp) && fs.BytesOf(dp) == old(fs.BytesOf(dp))
    ensures k == D.Find(Entries(fs.BytesOf(dp)), Text(Name(name, DIRSIZ)), 0)
  {
    ghost var es, text := Entries(fs.BytesOf(dp)), Text(Name(name, DIRSIZ));
    k := 0;
    while k * DIRENT < dp.size
      invariant fs.blk == old(fs.blk) && fs.ino == old(fs.ino) && fs.owner == old(fs.owner) &&
                fs.logged == old(fs.logged)
      invariant IsDirectory(fs, dp) && fs.BytesOf(dp) == old(fs.BytesOf(dp))
      invariant k <= |es| && D.Find(es, text, 0) == D.Find(es, text, k)
    {
      var de := ReadEntry(fs, dp, k);
      if GetHalf(de, 0) != 0 {
        var r := Strncmp(name, de[2..], DIRSIZ);
        TextSame(Name(name, DIRSIZ), Name(de[2..], DIRSIZ));
        if r == 0 {
          return;
        }
      }
      k := k + 1;
    }
  }

  /** A directory, if dp is one, is made of whole entries. */
  ghost predicate Proper(fs: Fs, dp: Inode)
    reads fs, dp, dp.addrs
  {
    fs.Valid() && fs.Backs(dp) && (dp.typ == T_DIR ==> IsDirectory(fs, dp))
  }

  /** dirlookup: the slot of the entry with this name, or the number of entries. It
      panics exactly for an inode that is no directory. */
  method Dirlookup(fs: Fs, dp: Inode, name: seq<Byte>) returns (k: nat, panic: bool)
    requires Proper(fs, dp) && Readable(name, DIRSIZ)
    modifies fs`blk, fs`logged, fs`ino, fs`owner, dp.addrs
    ensures fs.blk == old(fs.blk) && fs.ino == old(fs.ino) && fs.owner == old(fs.owner) && fs.logged == old(fs.logged)
    ensures Proper(fs, dp) && (panic <==> dp.typ != T_DIR)
    ensures !panic ==>
              && IsDirectory(fs, dp) && fs.BytesOf(dp) == old(fs.BytesOf(dp))
              && k == D.Find(Entries(fs.BytesOf(dp)), Text(Name(name, DIRSIZ)), 0)
  {
    if dp.typ != T_DIR {
      return 0, true;
    }
    k := FindName(fs, dp, name);
    panic := false;
  }

  /** The second loop of dirlink: the first free slot, or the end. */
  method FindHole(fs: Fs, dp: Inode) returns (k: nat)
    requires IsDirectory(fs, dp)
    modifies fs`blk, fs`logged, fs`ino, fs`owner, dp.addrs
    ensures fs.blk == old(fs.blk) && fs.ino == old(fs.ino) && fs.owner == old(fs.owner) && fs.logged == old(fs.logged)
    ensures IsDirectory(fs, dp) && fs.BytesOf(dp) == old(fs.BytesOf(dp))
    ensures k == D.Hole(Entries(fs.BytesOf(dp)), 0)
  {
    ghost var es := Entries(fs.BytesOf(dp));
    k := 0;
    while k * DIRENT < dp.size
      invariant fs.blk == old(fs.blk) && fs.ino == old(fs.ino) && fs.owner == old(fs.owner) &&
                fs.logged == old(fs.logged)
      invariant IsDirectory(fs, dp) && fs.BytesOf(dp) == old(fs.BytesOf(dp))
      invariant k <= |es| && D.Hole(es, 0) == D.Hole(es, k)
    {
      var de := ReadEntry(fs, dp, k);
      if GetHalf(de, 0) == 0 {
        return;
      }
      k := k + 1;
    }
  }

  /** A directory of `size` bytes can have an entry in slot k. */
  ghost predicate HasRoom(blk: Disk, sb: Superblock, size: nat, k: nat)
    requires |blk| == sb.size && GoodLayout(sb)
  {
    var end := k * DIRENT + DIRENT;
    end <= MAXBYTES && FreeCount(blk, sb) >= Growth(BlocksFor(size), BlocksFor(end))
  }

  /** writei of a whole entry to slot k, or after the last one. It fails exactly if the
      directory cannot get longer, or the disk is full. */
  method PutEntry(fs: Fs, dp: Inode, k: nat, de: seq<Byte>) returns (ok: bool)
    requires IsDirectory(fs, dp) && k <= |Entries(fs.BytesOf(dp))| && |de| == DIRENT
    modifies fs`blk, fs`logged, fs`ino, fs`owner, dp.addrs, dp`size
    ensures ok <==> HasRoom(old(fs.blk), fs.sb, old(dp.size), k)
    ensures ok ==>
              && IsDirectory(fs, dp)
              && Entries(fs.BytesOf(dp)) == PutAt(old(Entries(fs.BytesOf(dp))), k, DirentOf(de))
              && OthersKept(old(fs.blk), old(fs.ino), old(fs.owner), fs.blk, fs.ino, fs.owner, dp.inum)
  {
    ghost var c := fs.BytesOf(dp);
    var r, panic := fs.Writei(dp, de, k * DIRENT, None);
    ok := r == DIRENT && !panic;
    if ok {
      OverwriteEntry(c, k, de);
    }
  }

  /** dirlink: -1 if the name is there; otherwise one more entry, in the first free slot
      or at the end, and no other file is touched. It panics exactly if dp is no
      directory, or if it cannot get longer, or the disk is full. */
  method Dirlink(fs: Fs, dp: Inode, name: seq<Byte>, inum: Word) returns (r: int, panic: bool)
    requires Proper(fs, dp) && Readable(name, DIRSIZ)
    modifies fs`blk, fs`logged, fs`ino, fs`owner, dp.addrs, dp`size
    ensures dp.typ != T_DIR ==> panic
    ensures dp.typ == T_DIR ==>
              var es, text := Entries(old(fs.BytesOf(dp))), Text(Name(name, DIRSIZ));
              if D.Find(es, text, 0) < |es| then
                && r == -1 && !panic && IsDirectory(fs, dp)
                && fs.blk == old(fs.blk) && fs.ino == old(fs.ino) && fs.owner == old(fs.owner)
              else
                && (panic <==> !HasRoom(old(fs.blk), fs.sb, old(dp.size), D.Hole(es, 0)))
                && (!panic ==>
                      && r == 0 && IsDirectory(fs, dp)
                      && Entries(fs.BytesOf(dp)) == D.WithEntry(es, D.Dirent(inum % 0x1_0000, text))
                      && OthersKept(old(fs.blk), old(fs.ino), old(fs.owner), fs.blk, fs.ino, fs.owner, dp.inum))
  {
    var k;
    k, panic := Dirlookup(fs, dp, name);
    if panic {
      return -1, true;
    }
    if k * DIRENT < dp.size {
      return -1, false;
    }
    k := FindHole(fs, dp);
    var de := NewEntry(name, inum);
    var ok := PutEntry(fs, dp, k, de);
    return 0, !ok;
  }

  /** strncpy of the name, and the inode number in 16 bits. */
  method NewEntry(name: seq<Byte>, inum: Word) returns (de: seq<Byte>)
    requires Readable(name, DIRSIZ)
    ensures |de| == DIRENT && DirentOf(de) == D.Dirent(inum % 0x1_0000, Text(Name(name, DIRSIZ)))
  {
    var padded := new Byte[DIRSIZ];
    Strncpy(padded, name, DIRSIZ);
    de := Bytes(inum % 0x1_0000, 2) + padded[..];
    BuiltEntry(inum, padded[..], name);
  }

  /** An entry of zero bytes is a free slot. */
  lemma ZeroEntry(e: seq<Byte>)
    requires |e| == DIRENT && forall i | 0 <= i < DIRENT :: e[i] == 0
    ensures DirentOf(e) == D.Dirent(0, "")
  {
    ZeroValue(e[0..2]);
    assert NameLen(e[2..], DIRSIZ) == 0;
  }

  /** The writei of unlink: slot k is free, and it cannot fail. */
  method ClearEntry(fs: Fs, dp: Inode, k: nat) returns (ok: bool)
    requires IsDirectory(fs, dp) && k < |Entries(fs.BytesOf(dp))|
    modifies fs`blk, fs`logged, fs`ino, fs`owner, dp.addrs, dp`size
    ensures ok && IsDirectory(fs, dp)
    ensures Entries(fs.BytesOf(dp)) == PutAt(old(Entries(fs.BytesOf(dp))), k, D.Dirent(0, ""))
    ensures OthersKept(old(fs.blk), old(fs.ino), old(fs.owner), fs.blk, fs.ino, fs.owner, dp.inum)
  {
    var de: seq<Byte> := seq(DIRENT, _ => 0);
    ZeroEntry(de);
    ok := PutEntry(fs, dp, k, de);
  }
}
