/** dirlookup, dirlink, create, link, unlink and iput on the inode table and the
    reference counts, each system call as one step (fs.c, sysfile.c). Path lookups have
    been done: the directory, which the caller holds, and the name in it are parameters. */
module FileTree {
  import opened DirNames
  import opened DirTree
  import L = InodeLife

  /** The name is there, is no dot, and is not that of a directory with entries. */
  ghost predicate CanUnlink(t: seq<Node>, dp: nat, name: string)
    requires dp < |t|
  {
    var es := t[dp].entries;
    var k := Find(es, name, 0);
    && name != DOT && name != DOTDOT && k < |es| && es[k].inum < |t|
    && (t[es[k].inum].kind == Directory ==> EmptyDir(t[es[k].inum].entries))
  }

  /** Two dirlinks into an empty directory. */
  lemma TwoDots(i: nat, dp: nat)
    requires i != 0
    ensures WithEntry(WithEntry([], Dirent(i, DOT)), Dirent(dp, DOTDOT)) == FirstEntries(Directory, i, dp)
    ensures Find(WithEntry([], Dirent(i, DOT)), DOTDOT, 0) == 1
  {
    var es := WithEntry([], Dirent(i, DOT));
    assert es == [Dirent(i, DOT)];
    assert Hole(es, 0) == Hole(es, 1) == 1;
    assert Find(es, DOTDOT, 0) == Find(es, DOTDOT, 1) == 1;
  }

  class Tree {
    var t: seq<Node>
    var refs: seq<nat>   // ip->ref of each inode
    ghost var s: Shape

    ghost function W(): L.World
      reads this
    {
      L.World(t, s, refs)
    }

    /** The directory tree, and that exactly the inodes without link and holder are free. */
    ghost predicate Valid()
      reads this
    {
      L.Alive(W())
    }

    /** A new file system of n inodes, with nothing in it but the root, which the first
        process holds. */
    constructor (n: nat)
      requires n >= 2
      ensures Valid() && t == NewTable(n) && refs == seq(n, i => if i == ROOTINO then 1 else 0)
    {
      t, refs := NewTable(n), seq(n, i => if i == ROOTINO then 1 else 0);
      s := Shape(seq(n, _ => 0), seq(n, _ => 0));
      NewTableInv(n);
    }

    /** iget of inode i. */
    method Iget(i: nat)
      requires i < |refs|
      modifies this`refs
      ensures W() == L.More(old(W()), i)
    {
      refs := refs[i := refs[i] + 1];
    }

    /** iput: frees the inode if it has no links and this is the last reference. */
    method Iput(i: nat)
      requires Valid() && L.Held(W(), i)
      modifies this`t, this`refs
      ensures Valid() && W() == L.Less(old(W()), i)
    {
      L.StepIff(W(), L.Put(i));
      if t[i].nlink == 0 && refs[i] == 1 {
        t := t[i := Node(Unused, 0, [])];
      }
      refs := refs[i := refs[i] - 1];
    }

    /** dirlookup: the slot of the entry, or the end of the directory. */
    method Dirlookup(dp: nat, name: string) returns (k: nat)
      requires dp < |t|
      ensures k == Find(t[dp].entries, name, 0)
    {
      k := 0;
      while k < |t[dp].entries|
        invariant k <= |t[dp].entries| && Find(t[dp].entries, name, 0) == Find(t[dp].entries, name, k)
      {
        var de := t[dp].entries[k];
        if de.inum != 0 && de.name == name {
          return;
        }
        k := k + 1;
      }
    }

    /** dirlink: false if the name is there already. */
    method Dirlink(dp: nat, name: string, inum: nat) returns (ok: bool)
      requires dp < |t|
      modifies this`t
      ensures ok == (Find(old(t)[dp].entries, name, 0) == |old(t)[dp].entries|)
      ensures t == if ok then old(t)[dp := old(t)[dp].(entries := WithEntry(old(t)[dp].entries, Dirent(inum, name)))]
                   else old(t)
    {
      var k := Dirlookup(dp, name);
      if k < |t[dp].entries| {
        return false;
      }
      k := 0;
      while k < |t[dp].entries|
        invariant k <= |t[dp].entries| && Hole(t[dp].entries, 0) == Hole(t[dp].entries, k) && t == old(t)
      {
        if t[dp].entries[k].inum == 0 {
          break;
        }
        k := k + 1;
      }
      var es := t[dp].entries;
      t := t[dp := t[dp].(entries := if k < |es| then es[k := Dirent(inum, name)] else es + [Dirent(inum, name)])];
      ok := true;
    }

    method Isdirempty(d: nat) returns (b: bool)
      requires d < |t| && |t[d].entries| >= 2
      ensures b == EmptyDir(t[d].entries)
    {
      var k := 2;
      while k < |t[d].entries|
        invariant 2 <= k <= |t[d].entries| && forall j | 2 <= j < k :: t[d].entries[j].inum == 0
      {
        if t[d].entries[k].inum != 0 {
          return false;
        }
        k := k + 1;
      }
      b := true;
    }

    /** ialloc: the first inode not in use, or 0 for the panic. */
    method Ialloc(kind: Kind) returns (i: nat)
      requires |t| > 0
      modifies this`t
      ensures i == 0 ==> t == old(t) && forall x | 0 < x < |t| :: t[x].kind != Unused
      ensures i != 0 ==> i < |old(t)| && old(t)[i].kind == Unused && t == old(t)[i := Node(kind, 0, [])]
    {
      i := 1;
      while i < |t|
        invariant 1 <= i <= |t| && t == old(t) && forall x | 0 < x < i :: t[x].kind != Unused
      {
        if t[i].kind == Unused {
          t := t[i := Node(kind, 0, [])];
          return;
        }
        i := i + 1;
      }
      i := 0;
    }

    /** create in the directory dp: the inode, held, or 0 if the name is taken. A new inode
        is of that kind, has one link and the name leads to it; every other name and inode
        is what it was. Everything is in order again if dp has a link and its count does
        not wrap around; DirTree.CreateKeepsIff says that it has to be so. It panics exactly
        if there is no free inode, or if the name is taken by an inode that has been freed. */
    method Create(dp: nat, name: string, kind: Kind) returns (i: nat, panic: bool)
      requires Valid() && L.Held(W(), dp) && IsDir(t, dp) && kind != Unused
      modifies this`t, this`s, this`refs
      ensures
        var es := old(t)[dp].entries;
        var k := Find(es, name, 0);
        if k < |es| then
          && es[k].inum < |old(t)|
          && (panic <==> old(t)[es[k].inum].kind == Unused)
          && t == old(t) && s == old(s)
          && (!panic ==>
                && Valid()
                && i == (if kind == File && t[es[k].inum].kind == File then es[k].inum else 0)
                && refs == if i == 0 then old(refs) else old(refs)[i := old(refs)[i] + 1])
        else
          && (panic <==> forall x | 0 < x < |old(t)| :: old(t)[x].kind != Unused)
          && (!panic ==>
                && Creates(old(t), dp, name, kind, i) && t == Created(old(t), dp, name, kind, i)
                && Makes(old(t), dp, name, kind, i, t)
                && refs == old(refs)[i := old(refs)[i] + 1]
                && (MayCreate(old(t), dp, kind) ==> Valid()))
    {
      assert GoodDir(t, dp);
      var k := Dirlookup(dp, name);
      if k < |t[dp].entries| {
        assert k >= 2 ==> GoodSlot(t, dp, k);
        i, panic := OpenOld(dp, k, kind);
      } else {
        i, panic := MakeNew(dp, name, kind);
        if !panic {
          CreatedMakes(old(t), dp, name, kind, i);
        }
      }
    }

    /** create where the name is in slot k of dp. */
    method OpenOld(dp: nat, k: nat, kind: Kind) returns (i: nat, panic: bool)
      requires Valid() && L.Allowed(W(), L.Lookup(dp, k))
      modifies this`t, this`refs
      ensures
        var x := old(t)[dp].entries[k].inum;
        && (panic <==> old(t)[x].kind == Unused)
        && t == old(t)
        && (!panic ==>
              && Valid()
              && i == (if kind == File && t[x].kind == File then x else 0)
              && refs == if i == 0 then old(refs) else old(refs)[i := old(refs)[i] + 1])
    {
      i, panic := t[dp].entries[k].inum, false;
      if t[i].kind == Unused {
        return 0, true;
      }
      L.StepIff(W(), L.Lookup(dp, k));
      Iget(i);
      if kind == File && t[i].kind == File {
        return;
      }
      assert L.UsedIff(old(W()), i);
      Iput(i);
      assert refs == old(refs);
      i := 0;
    }

    /** create where it is not. */
    method MakeNew(dp: nat, name: string, kind: Kind) returns (i: nat, panic: bool)
      requires Valid() && L.Held(W(), dp) && IsDir(t, dp) && kind != Unused
      requires Find(t[dp].entries, name, 0) == |t[dp].entries|
      modifies this`t, this`s, this`refs
      ensures panic <==> forall x | 0 < x < |old(t)| :: old(t)[x].kind != Unused
      ensures !panic ==>
                && Creates(old(t), dp, name, kind, i) && t == Created(old(t), dp, name, kind, i)
                && refs == old(refs)[i := old(refs)[i] + 1]
                && (MayCreate(old(t), dp, kind) ==> Valid())
    {
      panic := false;
      i := Ialloc(kind);
      if i == 0 {
        return 0, true;
      }
      FillNew(dp, name, kind, i);
      CreatedSame(old(t), dp, name, kind, i);
      s := Shape(s.depth[i := s.depth[dp] + 1], s.slot[i := Hole(old(t)[dp].entries, 0)]);
      Iget(i);
      CreatedAlive(old(W()), dp, name, kind, i, W());
    }

    /** The rest of create once there is an inode: link count, dots, and the entry in dp. */
    method FillNew(dp: nat, name: string, kind: Kind, i: nat)
      requires dp < |t| && 0 < i < |t| && dp != i && t[i] == Node(kind, 0, []) && t[dp].kind == Directory
      requires Find(t[dp].entries, name, 0) == |t[dp].entries|
      modifies this`t
      ensures t == Created(old(t), dp, name, kind, i)
    {
      t := t[i := t[i].(nlink := 1)];
      var ok;
      if kind == Directory {
        t := t[dp := t[dp].(nlink := Inc(t[dp].nlink))];
        ok := Dirlink(i, DOT, i);
        ok := Dirlink(i, DOTDOT, dp);
        TwoDots(i, dp);
      }
      ok := Dirlink(dp, name, i);
    }

    /** link of inode i, which the caller holds and gives up, as `name` in dp; false if
        i is a directory or the name is taken. */
    method Link(i: nat, dp: nat, name: string) returns (ok: bool)
      requires Valid() && L.Held(W(), i) && L.Held(W(), dp) && IsDir(t, dp)
      modifies this`t, this`refs
      ensures ok == (old(t)[i].kind != Directory && Find(old(t)[dp].entries, name, 0) == |old(t)[dp].entries|)
      ensures ok ==>
                && Joins(old(t), dp, name, i, t) && t == Linked(old(t), dp, name, i)
                && refs == old(refs)[i := old(refs)[i] - 1]
                && (MayLink(old(t), dp, i) ==> Valid())
      ensures !ok ==> Valid() && W() == L.Less(old(W()), i)
    {
      assert L.UsedIff(W(), i);
      if t[i].kind == Directory {
        Iput(i);
        return false;
      }
      t := t[i := t[i].(nlink := Inc(t[i].nlink))];
      ok := Dirlink(dp, name, i);
      if !ok {
        t := t[i := t[i].(nlink := Dec(t[i].nlink))];
        assert t == old(t);
        Iput(i);
        return;
      }
      refs := refs[i := refs[i] - 1];  // iput, with a link
      LinkedJoins(old(t), dp, name, i);
      if MayLink(old(t), dp, i) {
        LinkAndPut(old(W()), dp, name, i);
      }
    }

    /** unlink of `name` in dp. The link counts go down and never below 0: neither of
        the panics of unlink occurs. An inode without links that nobody else holds is
        free at once. */
    method Unlink(dp: nat, name: string) returns (ok: bool)
      requires Valid() && L.Held(W(), dp) && IsDir(t, dp)
      modifies this`t, this`refs
      ensures Valid()
      ensures ok <==> CanUnlink(old(t), dp, name)
      ensures !ok ==> t == old(t) && refs == old(refs)
      ensures ok ==>
                var step := L.Unlink(dp, Find(old(t)[dp].entries, name, 0));
                L.Allowed(old(W()), step) && W() == L.After(old(W()), step)
      ensures ok ==>
                var i := old(t)[dp].entries[Find(old(t)[dp].entries, name, 0)].inum;
                i < |old(refs)| && Parts(old(t), dp, name, i, old(refs)[i] > 0, t)
    {
      assert GoodDir(t, dp);
      if name == DOT || name == DOTDOT {
        return false;
      }
      var k := Dirlookup(dp, name);
      if k == |t[dp].entries| {
        return false;
      }
      assert GoodSlot(t, dp, k);
      var i := t[dp].entries[k].inum;
      if t[i].kind == Directory {
        assert GoodDir(t, i);
        var b := Isdirempty(i);
        if !b {
          return false;
        }
      }
      UnlinkParts(W(), dp, k, i);
      UnlinkEntry(dp, k, i);
      ok := true;
    }

    /** The rest of unlink, once the entry and its inode i may go. */
    method UnlinkEntry(dp: nat, k: nat, i: nat)
      requires Valid() && L.Allowed(W(), L.Unlink(dp, k)) && i == t[dp].entries[k].inum
      modifies this`t, this`refs
      ensures Valid() && W() == L.After(old(W()), L.Unlink(dp, k))
    {
      UnlinkCounts(t, s, dp, k, i, Unlinked(t, dp, k));
      L.StepIff(W(), L.Unlink(dp, k));
      t := t[dp := t[dp].(entries := t[dp].entries[k := Dirent(0, "")])];
      if t[i].kind == Directory {
        t := t[dp := t[dp].(nlink := Dec(t[dp].nlink))];
      }
      t := t[i := t[i].(nlink := Dec(t[i].nlink))];
      assert t == Unlinked(old(t), dp, k);
      if t[i].nlink == 0 && refs[i] == 0 {
        t := t[i := Node(Unused, 0, [])];  // iput of the reference that dirlookup took
      }
      assert refs[i := refs[i] + 1][i := refs[i]] == refs;
    }
  }

  /** ialloc leaves nothing of its own behind. */
  lemma CreatedSame(t: seq<Node>, dp: nat, name: string, kind: Kind, i: nat)
    requires dp < |t| && i < |t| && i != dp
    ensures Created(t[i := Node(kind, 0, [])], dp, name, kind, i) == Created(t, dp, name, kind, i)
  {
  }

  lemma CreatedAlive(w: L.World, dp: nat, name: string, kind: Kind, i: nat, w': L.World)
    requires L.Alive(w) && L.Held(w, dp) && Creates(w.t, dp, name, kind, i)
    requires w'.t == Created(w.t, dp, name, kind, i) && w'.refs == w.refs[i := w.refs[i] + 1]
    requires w'.s == Shape(w.s.depth[i := w.s.depth[dp] + 1], w.s.slot[i := Hole(w.t[dp].entries, 0)])
    ensures MayCreate(w.t, dp, kind) ==> L.Alive(w')
  {
    if MayCreate(w.t, dp, kind) {
      L.StepIff(w, L.Create(dp, name, kind, i));
    }
  }

  /** unlink and then iput. */
  lemma UnlinkParts(w: L.World, dp: nat, k: nat, i: nat)
    requires L.Alive(w) && L.Allowed(w, L.Unlink(dp, k)) && i == w.t[dp].entries[k].inum
    ensures Parts(w.t, dp, w.t[dp].entries[k].name, i, w.refs[i] > 0, L.After(w, L.Unlink(dp, k)).t)
  {
    UnlinkedParts(w.t, w.s, dp, k, i, Unlinked(w.t, dp, k), w.refs[i] > 0);
  }

  /** link and then iput. */
  lemma LinkAndPut(w: L.World, dp: nat, name: string, i: nat)
    requires L.Alive(w) && L.Allowed(w, L.Link(dp, name, i))
    ensures L.Alive(L.World(Linked(w.t, dp, name, i), w.s, w.refs[i := w.refs[i] - 1]))
  {
    L.StepIff(w, L.Link(dp, name, i));
    var w1 := L.After(w, L.Link(dp, name, i));
    assert L.UsedIff(w, i) && L.UsedIff(w1, i);
    L.StepIff(w1, L.Put(i));
  }
}
