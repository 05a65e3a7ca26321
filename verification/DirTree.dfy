/** Directories, link counts and the shape of the directory tree (fs.c, sysfile.c).
    An inode table is a sequence indexed by inode number. */
module DirTree {
  const ROOTINO := 1

  datatype Dirent = Dirent(inum: nat, name: string)
  datatype Kind = Unused | Directory | File | Device
  datatype Node = Node(kind: Kind, nlink: Short, entries: seq<Dirent>)

  /** A link count is a short. */
  type Short = x: int | -MAXLINK - 1 <= x <= MAXLINK

  const MAXLINK := 32767

  /** nlink++ */
  function Inc(n: Short): Short {
    if n == MAXLINK then -MAXLINK - 1 else n + 1
  }

  /** nlink-- */
  function Dec(n: Short): Short {
    if n == -MAXLINK - 1 then MAXLINK else n - 1
  }

  const DOT := "."
  const DOTDOT := ".."

  // ----- one directory -----

  /** The first slot from k on with this name, or |es|: what dirlookup finds. */
  function Find(es: seq<Dirent>, name: string, k: nat): (r: nat)
    requires k <= |es|
    ensures k <= r <= |es|
    ensures r < |es| ==> es[r].inum != 0 && es[r].name == name
    ensures forall j | k <= j < r :: es[j].inum == 0 || es[j].name != name
    decreases |es| - k
  {
    if k == |es| then k else if es[k].inum != 0 && es[k].name == name then k else Find(es, name, k + 1)
  }

  /** The first empty slot from k on, or |es|. */
  function Hole(es: seq<Dirent>, k: nat): (r: nat)
    requires k <= |es|
    ensures k <= r <= |es|
    ensures r < |es| ==> es[r].inum == 0
    ensures forall j | k <= j < r :: es[j].inum != 0
    decreases |es| - k
  {
    if k == |es| then k else if es[k].inum == 0 then k else Hole(es, k + 1)
  }

  /** es with one more entry, in the first empty slot or at the end. */
  function WithEntry(es: seq<Dirent>, e: Dirent): (r: seq<Dirent>)
    ensures |es| <= |r| && Hole(es, 0) < |r|
    ensures forall j | 0 <= j < |r| :: r[j] == if j == Hole(es, 0) then e else if j < |es| then es[j] else e
  {
    var k := Hole(es, 0);
    if k < |es| then es[k := e] else es + [e]
  }

  // ----- references -----

  /** Entries of es before n, the first not counted, that name inode i. */
  function RefsIn(es: seq<Dirent>, i: nat, n: nat): nat
    requires n <= |es|
  {
    if n <= 1 then 0 else RefsIn(es, i, n - 1) + if es[n - 1].inum == i then 1 else 0
  }

  /** What one inode contributes: a directory that has been unlinked counts for nothing. */
  function Part(n: Node, i: nat): nat {
    if n.kind == Directory && n.nlink > 0 then RefsIn(n.entries, i, |n.entries|) else 0
  }

  /** The live entries that name inode i, in the inodes before n. */
  function RefsTo(t: seq<Node>, i: nat, n: nat): nat
    requires n <= |t|
  {
    if n == 0 then 0 else RefsTo(t, i, n - 1) + Part(t[n - 1], i)
  }

  function Refs(t: seq<Node>, i: nat): nat {
    RefsTo(t, i, |t|)
  }

  lemma {:induction false} RefsInSet(es: seq<Dirent>, k: nat, e: Dirent, i: nat, n: nat)
    requires 1 <= k < |es| && n <= |es|
    ensures RefsIn(es[k := e], i, n)
         == RefsIn(es, i, n)
            + (if k < n && e.inum == i then 1 else 0) - (if k < n && es[k].inum == i then 1 else 0)
  {
    if n > 1 {
      RefsInSet(es, k, e, i, n - 1);
    }
  }

  lemma {:induction false} RefsInMore(es: seq<Dirent>, e: Dirent, i: nat, n: nat)
    requires n <= |es|
    ensures RefsIn(es + [e], i, n) == RefsIn(es, i, n)
  {
    if n > 1 {
      RefsInMore(es, e, i, n - 1);
    }
  }

  /** dirlink adds one reference, to the inode it is given. */
  lemma RefsWithEntry(es: seq<Dirent>, e: Dirent, i: nat)
    requires 2 <= |es| && es[0].inum != 0 && i != 0
    ensures RefsIn(WithEntry(es, e), i, |WithEntry(es, e)|)
         == RefsIn(es, i, |es|) + if e.inum == i then 1 else 0
  {
    var k := Hole(es, 0);
    if k < |es| {
      RefsInSet(es, k, e, i, |es|);
    } else {
      RefsInMore(es, e, i, |es|);
    }
  }

  lemma {:induction false} RefsToSet(t: seq<Node>, d: nat, x: Node, i: nat, n: nat)
    requires d < |t| && n <= |t|
    ensures RefsTo(t[d := x], i, n) == RefsTo(t, i, n) + if d < n then Part(x, i) - Part(t[d], i) else 0
  {
    if n > 0 {
      RefsToSet(t, d, x, i, n - 1);
    }
  }

  lemma {:induction false} NoRefsIn(es: seq<Dirent>, i: nat, n: nat)
    requires n <= |es| && forall k | 1 <= k < n :: es[k].inum != i
    ensures RefsIn(es, i, n) == 0
  {
    if n > 1 {
      NoRefsIn(es, i, n - 1);
    }
  }

  lemma {:induction false} SomeRefsIn(es: seq<Dirent>, i: nat, n: nat, k: nat)
    requires 1 <= k < n <= |es| && es[k].inum == i
    ensures RefsIn(es, i, n) >= 1
  {
    if k < n - 1 {
      SomeRefsIn(es, i, n - 1, k);
    }
  }

  lemma {:induction false} OneRefIn(es: seq<Dirent>, i: nat, n: nat, k: nat)
    requires 1 <= k < n <= |es| && forall j | 1 <= j < n :: es[j].inum == i <==> j == k
    ensures RefsIn(es, i, n) == 1
  {
    if k < n - 1 {
      OneRefIn(es, i, n - 1, k);
    } else {
      NoRefsIn(es, i, n - 1);
    }
  }

  lemma {:induction false} SomeRefs(t: seq<Node>, i: nat, n: nat, d: nat)
    requires d < n <= |t|
    ensures RefsTo(t, i, n) >= Part(t[d], i)
  {
    if d < n - 1 {
      SomeRefs(t, i, n - 1, d);
    }
  }

  lemma {:induction false} OnlyRefs(t: seq<Node>, i: nat, n: nat, d: nat)
    requires n <= |t| && forall e | 0 <= e < n && e != d :: Part(t[e], i) == 0
    ensures RefsTo(t, i, n) == if d < n then Part(t[d], i) else 0
  {
    if n > 0 {
      OnlyRefs(t, i, n - 1, d);
    }
  }

  // ----- the tree -----

  /** Where things are: how deep a directory is, and in which slot of its parent. */
  datatype Shape = Shape(depth: seq<nat>, slot: seq<nat>)

  predicate IsDir(t: seq<Node>, d: nat) {
    d < |t| && t[d].kind == Directory
  }

  predicate Live(t: seq<Node>, d: nat) {
    IsDir(t, d) && t[d].nlink > 0
  }

  predicate GoodSlot(t: seq<Node>, d: nat, k: nat)
    requires d < |t| && k < |t[d].entries|
  {
    var e := t[d].entries[k];
    && e.inum < |t|
    && (e.inum != 0 ==> e.name != DOT && e.name != DOTDOT)
    && (t[d].nlink <= 0 ==> e.inum == 0)
  }

  /** No two entries of a directory have the same name. */
  predicate Differ(es: seq<Dirent>, j: nat, k: nat)
    requires j < |es| && k < |es|
  {
    es[j].inum == 0 || es[k].inum == 0 || es[j].name != es[k].name
  }

  /** A directory starts with "." and ".."; an unlinked one has nothing else. */
  ghost predicate GoodDir(t: seq<Node>, d: nat)
    requires d < |t|
  {
    var es := t[d].entries;
    && 0 < d && |es| >= 2 && es[0] == Dirent(d, DOT) && 0 < es[1].inum < |t| && es[1].name == DOTDOT
    && (forall k: nat | 2 <= k < |es| :: GoodSlot(t, d, k))
    && (forall j: nat, k: nat | j < k < |es| :: Differ(es, j, k))
  }

  /** What ".." names. */
  function ParentOf(t: seq<Node>, d: nat): nat
    requires d < |t|
  {
    if |t[d].entries| >= 2 then t[d].entries[1].inum else 0
  }

  /** A live directory other than the root is in a live directory one level up. */
  ghost predicate Placed(t: seq<Node>, s: Shape, d: nat)
    requires |s.depth| == |s.slot| == |t| && d < |t|
  {
    var p := ParentOf(t, d);
    && Live(t, p) && s.depth[d] == s.depth[p] + 1
    && 2 <= s.slot[d] < |t[p].entries| && t[p].entries[s.slot[d]].inum == d
  }

  /** An entry that names a directory is the one place where that directory is. */
  ghost predicate Only(t: seq<Node>, s: Shape, d: nat, k: nat)
    requires |s.depth| == |s.slot| == |t| && d < |t| && k < |t[d].entries|
  {
    var i := t[d].entries[k].inum;
    IsDir(t, i) ==> i != ROOTINO && Live(t, i) && ParentOf(t, i) == d && s.slot[i] == k
  }

  /** The link count of i is the number of live entries that name it. */
  ghost predicate Counted(t: seq<Node>, i: nat)
    requires i < |t|
  {
    Refs(t, i) == if t[i].kind == Unused then 0 else t[i].nlink
  }

  ghost predicate Inv(t: seq<Node>, s: Shape) {
    && |s.depth| == |s.slot| == |t| && Live(t, ROOTINO) && t[0].kind == Unused
    && (forall d: nat {:trigger GoodDir(t, d)} | IsDir(t, d) :: GoodDir(t, d))
    && ParentOf(t, ROOTINO) == ROOTINO && s.depth[ROOTINO] == 0
    && (forall d: nat {:trigger Placed(t, s, d)} | Live(t, d) && d != ROOTINO :: Placed(t, s, d))
    && (forall d: nat, k: nat {:trigger Only(t, s, d, k)} | Live(t, d) && 2 <= k < |t[d].entries| :: Only(t, s, d, k))
    && (forall i: nat | 0 < i < |t| :: Counted(t, i))
  }

  /** Following ".." from a live directory ends at the root. */
  ghost function Ancestor(t: seq<Node>, d: nat, n: nat): nat
    decreases n
  {
    if n == 0 then d
    else if d < |t| then Ancestor(t, ParentOf(t, d), n - 1)
    else 0
  }

  lemma {:induction false} AncestorAt(t: seq<Node>, s: Shape, d: nat, n: nat)
    requires Inv(t, s) && Live(t, d) && n <= s.depth[d]
    ensures Live(t, Ancestor(t, d, n)) && s.depth[Ancestor(t, d, n)] == s.depth[d] - n
    decreases n
  {
    if n > 0 {
      assert GoodDir(t, d) && Placed(t, s, d);
      AncestorAt(t, s, ParentOf(t, d), n - 1);
    }
  }

  lemma Deeper(t: seq<Node>, s: Shape, d: nat)
    requires Inv(t, s) && Live(t, d) && d != ROOTINO
    ensures s.depth[d] > 0
  {
    assert Placed(t, s, d);
  }

  /** So the live directories are a tree: no directory is above itself, and all are
      below the root. */
  lemma IsTree(t: seq<Node>, s: Shape, d: nat, n: nat)
    requires Inv(t, s) && Live(t, d)
    ensures Ancestor(t, d, s.depth[d]) == ROOTINO
    ensures 0 < n <= s.depth[d] ==> Ancestor(t, d, n) != d
  {
    AncestorAt(t, s, d, s.depth[d]);
    if Ancestor(t, d, s.depth[d]) != ROOTINO {
      Deeper(t, s, Ancestor(t, d, s.depth[d]));
    }
    if 0 < n <= s.depth[d] {
      AncestorAt(t, s, d, n);
    }
  }

  /** The directory has a link, and its count can go up if it has to. */
  predicate MayCreate(t: seq<Node>, dp: nat, kind: Kind) {
    Live(t, dp) && (kind == Directory ==> t[dp].nlink < MAXLINK)
  }

  predicate MayLink(t: seq<Node>, dp: nat, i: nat) {
    Live(t, dp) && i < |t| && t[i].nlink < MAXLINK
  }

  // ----- create -----

  function FirstEntries(kind: Kind, i: nat, dp: nat): seq<Dirent> {
    if kind == Directory then [Dirent(i, DOT), Dirent(dp, DOTDOT)] else []
  }

  /** The table after create of inode i as `name` in dp. */
  function Created(t: seq<Node>, dp: nat, name: string, kind: Kind, i: nat): (r: seq<Node>)
    requires dp < |t| && i < |t|
    ensures |r| == |t|
  {
    t[i := Node(kind, 1, FirstEntries(kind, i, dp))]
     [dp := Node(Directory, if kind == Directory then Inc(t[dp].nlink) else t[dp].nlink,
                 WithEntry(t[dp].entries, Dirent(i, name)))]
  }

  ghost predicate Creates(t: seq<Node>, dp: nat, name: string, kind: Kind, i: nat) {
    && IsDir(t, dp) && 0 < i < |t| && t[i].kind == Unused && kind != Unused
    && Find(t[dp].entries, name, 0) == |t[dp].entries|
  }

  /** A directory in which dirlink has put an entry is still a good one. */
  lemma WithEntryGood(t: seq<Node>, t': seq<Node>, d: nat, e: Dirent)
    requires IsDir(t, d) && GoodDir(t, d) && |t'| == |t| && t[d].nlink > 0 && t'[d].nlink > 0
    requires t'[d].entries == WithEntry(t[d].entries, e) && 0 < e.inum < |t|
    requires Find(t[d].entries, e.name, 0) == |t[d].entries|
    ensures GoodDir(t', d) && Hole(t[d].entries, 0) >= 2
  {
    var es, es' := t[d].entries, t'[d].entries;
    assert e.name != DOT && e.name != DOTDOT;
    forall k: nat | 2 <= k < |es'|
      ensures GoodSlot(t', d, k)
    {
      assert k < |es| ==> GoodSlot(t, d, k);
    }
    forall j: nat, k: nat | j < k < |es'|
      ensures Differ(es', j, k)
    {
      assert k < |es| ==> Differ(es, j, k);
    }
  }

  lemma CreatedRefs(t: seq<Node>, dp: nat, name: string, kind: Kind, i: nat, x: nat)
    requires Creates(t, dp, name, kind, i) && MayCreate(t, dp, kind) && GoodDir(t, dp) && 0 < x < |t|
    ensures Refs(Created(t, dp, name, kind, i), x)
         == Refs(t, x) + (if x == i then 1 else 0) + (if kind == Directory && x == dp then 1 else 0)
  {
    var n, m := Node(kind, 1, FirstEntries(kind, i, dp)), Created(t, dp, name, kind, i)[dp];
    RefsToSet(t, i, n, x, |t|);
    RefsToSet(t[i := n], dp, m, x, |t|);
    RefsWithEntry(t[dp].entries, Dirent(i, name), x);
    if kind == Directory {
      assert RefsIn(n.entries, x, 1) == 0;
    }
  }

  ghost predicate CreateStep(t: seq<Node>, s: Shape, dp: nat, name: string, kind: Kind, i: nat, t': seq<Node>,
                             s': Shape) {
    && Inv(t, s) && Creates(t, dp, name, kind, i) && MayCreate(t, dp, kind)
    && t' == Created(t, dp, name, kind, i)
    && s' == Shape(s.depth[i := s.depth[dp] + 1], s.slot[i := Hole(t[dp].entries, 0)])
  }

  lemma CreateGood(t: seq<Node>, s: Shape, dp: nat, name: string, kind: Kind, i: nat, t': seq<Node>, s': Shape, d: nat)
    requires CreateStep(t, s, dp, name, kind, i, t', s') && IsDir(t', d)
    ensures GoodDir(t', d)
  {
    if d == dp {
      WithEntryGood(t, t', dp, Dirent(i, name));
    } else if d != i {
      assert GoodDir(t, d);
      assert forall k: nat | 2 <= k < |t[d].entries| :: GoodSlot(t, d, k) ==> GoodSlot(t', d, k);
    }
  }

  lemma CreatePlaced(t: seq<Node>, s: Shape, dp: nat, name: string, kind: Kind, i: nat, t': seq<Node>, s': Shape,
                     d: nat)
    requires CreateStep(t, s, dp, name, kind, i, t', s') && Live(t', d) && d != ROOTINO
    ensures Placed(t', s', d)
  {
    WithEntryGood(t, t', dp, Dirent(i, name));
    if d != i {
      assert Placed(t, s, d) && GoodDir(t, d) && GoodDir(t, ParentOf(t, d));
    }
  }

  lemma CreateOnly(t: seq<Node>, s: Shape, dp: nat, name: string, kind: Kind, i: nat, t': seq<Node>, s': Shape,
                   d: nat, k: nat)
    requires CreateStep(t, s, dp, name, kind, i, t', s') && Live(t', d) && 2 <= k < |t'[d].entries|
    ensures Only(t', s', d, k)
  {
    WithEntryGood(t, t', dp, Dirent(i, name));
    assert d != i && Live(t, d);
    if d == dp && k == Hole(t[dp].entries, 0) {
    } else {
      assert GoodDir(t, d) && GoodSlot(t, d, k) && Only(t, s, d, k);
      var x := t[d].entries[k].inum;
      if x != 0 {
        NotUnused(t, s, d, k);
      }
      assert IsDir(t, x) ==> GoodDir(t, x);
    }
  }

  lemma CreateKeeps(t: seq<Node>, s: Shape, dp: nat, name: string, kind: Kind, i: nat, t': seq<Node>, s': Shape)
    requires CreateStep(t, s, dp, name, kind, i, t', s')
    ensures Inv(t', s')
  {
    forall d: nat | IsDir(t', d)
      ensures GoodDir(t', d)
    {
      CreateGood(t, s, dp, name, kind, i, t', s', d);
    }
    assert GoodDir(t, dp);
    WithEntryGood(t, t', dp, Dirent(i, name));
    forall d: nat | Live(t', d) && d != ROOTINO
      ensures Placed(t', s', d)
    {
      CreatePlaced(t, s, dp, name, kind, i, t', s', d);
    }
    forall d: nat, k: nat | Live(t', d) && 2 <= k < |t'[d].entries|
      ensures Only(t', s', d, k)
    {
      CreateOnly(t, s, dp, name, kind, i, t', s', d, k);
    }
    forall x: nat | 0 < x < |t|
      ensures Counted(t', x)
    {
      assert Counted(t, x);
      CreatedRefs(t, dp, name, kind, i, x);
    }
  }

  /** A live entry names an inode that is in use. */
  lemma NotUnused(t: seq<Node>, s: Shape, d: nat, k: nat)
    requires Inv(t, s) && Live(t, d) && 1 <= k < |t[d].entries| && t[d].entries[k].inum != 0
    ensures
      var i := t[d].entries[k].inum;
      i < |t| && t[i].kind != Unused && t[i].nlink >= 1
  {
    assert GoodDir(t, d);
    assert k >= 2 ==> GoodSlot(t, d, k);
    var i := t[d].entries[k].inum;
    assert Counted(t, i);
    SomeRefsIn(t[d].entries, i, |t[d].entries|, k);
    SomeRefs(t, i, |t|, d);
  }

  // ----- unlink -----

  ghost predicate EmptyDir(es: seq<Dirent>) {
    forall k | 2 <= k < |es| :: es[k].inum == 0
  }

  /** The table after unlink of slot k of dp. */
  function Unlinked(t: seq<Node>, dp: nat, k: nat): (r: seq<Node>)
    requires dp < |t| && k < |t[dp].entries| && t[dp].entries[k].inum < |t|
    ensures |r| == |t|
  {
    var i := t[dp].entries[k].inum;
    t[i := t[i].(nlink := Dec(t[i].nlink))]
     [dp := Node(t[dp].kind, if t[i].kind == Directory then Dec(t[dp].nlink) else t[dp].nlink,
                 t[dp].entries[k := Dirent(0, "")])]
  }

  ghost predicate UnlinkStep(t: seq<Node>, s: Shape, dp: nat, k: nat, i: nat, t': seq<Node>) {
    && Inv(t, s) && IsDir(t, dp) && 2 <= k < |t[dp].entries| && 0 < i < |t| && t[dp].entries[k].inum == i
    && (t[i].kind == Directory ==> EmptyDir(t[i].entries))
    && t' == Unlinked(t, dp, k)
  }

  /** What unlink relies on: the link counts are high enough to go down. */
  lemma UnlinkCounts(t: seq<Node>, s: Shape, dp: nat, k: nat, i: nat, t': seq<Node>)
    requires UnlinkStep(t, s, dp, k, i, t')
    ensures Live(t, dp) && i != dp && t[i].kind != Unused && t[i].nlink >= 1
    ensures t[i].kind == Directory ==> t[i].nlink == 1 && t[dp].nlink >= 2 && i != ROOTINO && ParentOf(t, i) == dp
  {
    assert GoodDir(t, dp) && GoodSlot(t, dp, k);
    NotUnused(t, s, dp, k);
    assert Only(t, s, dp, k);
    assert dp != ROOTINO ==> Placed(t, s, dp);
    if t[i].kind == Directory {
      EmptyHasOneRef(t, s, dp, k, i);
      HasTwoRefs(t, s, dp, i);
    }
  }

  /** An empty directory is named by its own entry and by no "..". */
  lemma EmptyHasOneRef(t: seq<Node>, s: Shape, dp: nat, k: nat, i: nat)
    requires Inv(t, s) && Live(t, dp) && 2 <= k < |t[dp].entries| && t[dp].entries[k].inum == i
    requires IsDir(t, i) && EmptyDir(t[i].entries)
    ensures t[i].nlink == 1
  {
    assert Only(t, s, dp, k) && GoodDir(t, i) && Counted(t, i);
    forall e: nat | e < |t| && Live(t, e)
      ensures forall j | 1 <= j < |t[e].entries| :: t[e].entries[j].inum == i <==> e == dp && j == k
    {
      assert GoodDir(t, e);
      assert e != ROOTINO ==> Placed(t, s, e);
      forall j: nat | 1 <= j < |t[e].entries|
        ensures t[e].entries[j].inum == i <==> e == dp && j == k
      {
        if j >= 2 {
          assert Only(t, s, e, j);
        }
      }
    }
    forall e | 0 <= e < |t| && e != dp
      ensures Part(t[e], i) == 0
    {
      if Live(t, e) {
        NoRefsIn(t[e].entries, i, |t[e].entries|);
      }
    }
    OnlyRefs(t, i, |t|, dp);
    OneRefIn(t[dp].entries, i, |t[dp].entries|, k);
  }

  /** A directory with a subdirectory i is named by its own entry, or the root by its
      own "..", and by the ".." of i. */
  lemma HasTwoRefs(t: seq<Node>, s: Shape, dp: nat, i: nat)
    requires Inv(t, s) && Live(t, dp) && Live(t, i) && i != ROOTINO && ParentOf(t, i) == dp && EmptyDir(t[i].entries)
    ensures t[dp].nlink >= 2
  {
    assert GoodDir(t, i) && GoodDir(t, dp) && Counted(t, dp);
    SomeRefsIn(t[i].entries, dp, |t[i].entries|, 1);
    var p := ParentOf(t, dp);
    if dp == ROOTINO {
      SomeRefsIn(t[p].entries, dp, |t[p].entries|, 1);
    } else {
      assert Placed(t, s, dp);
      SomeRefsIn(t[p].entries, dp, |t[p].entries|, s.slot[dp]);
    }
    TwoParts(t, dp, |t|, i, p);
  }

  lemma {:induction false} TwoParts(t: seq<Node>, i: nat, n: nat, d: nat, e: nat)
    requires d < n <= |t| && e < n && d != e
    ensures RefsTo(t, i, n) >= Part(t[d], i) + Part(t[e], i)
  {
    if d == n - 1 {
      SomeRefs(t, i, n - 1, e);
    } else if e == n - 1 {
      SomeRefs(t, i, n - 1, d);
    } else {
      TwoParts(t, i, n - 1, d, e);
    }
  }

  lemma UnlinkedRefs(t: seq<Node>, s: Shape, dp: nat, k: nat, i: nat, t': seq<Node>, x: nat)
    requires UnlinkStep(t, s, dp, k, i, t') && 0 < x < |t|
    ensures Refs(t', x) == Refs(t, x) - (if x == i then 1 else 0) - (if t[i].kind == Directory && x == dp then 1 else 0)
  {
    UnlinkCounts(t, s, dp, k, i, t');
    var n := t[i].(nlink := Dec(t[i].nlink));
    RefsToSet(t, i, n, x, |t|);
    RefsToSet(t[i := n], dp, t'[dp], x, |t|);
    RefsInSet(t[dp].entries, k, Dirent(0, ""), x, |t[dp].entries|);
    if t[i].kind == Directory {
      assert GoodDir(t, i);
      DotsOnly(t[i].entries, x);
    }
  }

  lemma DotsOnly(es: seq<Dirent>, x: nat)
    requires |es| >= 2 && EmptyDir(es) && x != 0
    ensures RefsIn(es, x, |es|) == if es[1].inum == x then 1 else 0
  {
    if es[1].inum == x {
      OneRefIn(es, x, |es|, 1);
    } else {
      NoRefsIn(es, x, |es|);
    }
  }

  lemma UnlinkGood(t: seq<Node>, s: Shape, dp: nat, k: nat, i: nat, t': seq<Node>, d: nat)
    requires UnlinkStep(t, s, dp, k, i, t') && IsDir(t', d)
    ensures GoodDir(t', d)
  {
    UnlinkCounts(t, s, dp, k, i, t');
    assert GoodDir(t, d);
    var es, es' := t[d].entries, t'[d].entries;
    forall j: nat | 2 <= j < |es'|
      ensures GoodSlot(t', d, j)
    {
      assert GoodSlot(t, d, j);
    }
    forall j: nat, l: nat | j < l < |es'|
      ensures Differ(es', j, l)
    {
      assert Differ(es, j, l);
    }
  }

  lemma UnlinkPlaced(t: seq<Node>, s: Shape, dp: nat, k: nat, i: nat, t': seq<Node>, d: nat)
    requires UnlinkStep(t, s, dp, k, i, t') && Live(t', d) && d != ROOTINO
    ensures Placed(t', s, d)
  {
    UnlinkCounts(t, s, dp, k, i, t');
    assert Live(t, d) && GoodDir(t, d) && Placed(t, s, d);
    var p := ParentOf(t, d);
    assert GoodDir(t, p);
  }

  lemma UnlinkOnly(t: seq<Node>, s: Shape, dp: nat, k: nat, i: nat, t': seq<Node>, d: nat, j: nat)
    requires UnlinkStep(t, s, dp, k, i, t') && Live(t', d) && 2 <= j < |t'[d].entries|
    ensures Only(t', s, d, j)
  {
    UnlinkCounts(t, s, dp, k, i, t');
    assert Live(t, d) && Only(t, s, d, j) && Only(t, s, dp, k);
    var x := t'[d].entries[j].inum;
    assert IsDir(t, x) ==> GoodDir(t, x);
  }

  lemma UnlinkKeeps(t: seq<Node>, s: Shape, dp: nat, k: nat, i: nat, t': seq<Node>)
    requires UnlinkStep(t, s, dp, k, i, t')
    ensures Inv(t', s)
  {
    UnlinkCounts(t, s, dp, k, i, t');
    forall d: nat | IsDir(t', d)
      ensures GoodDir(t', d)
    {
      UnlinkGood(t, s, dp, k, i, t', d);
    }
    forall d: nat | Live(t', d) && d != ROOTINO
      ensures Placed(t', s, d)
    {
      UnlinkPlaced(t, s, dp, k, i, t', d);
    }
    forall d: nat, j: nat | Live(t', d) && 2 <= j < |t'[d].entries|
      ensures Only(t', s, d, j)
    {
      UnlinkOnly(t, s, dp, k, i, t', d, j);
    }
    forall x: nat | 0 < x < |t|
      ensures Counted(t', x)
    {
      assert Counted(t, x);
      UnlinkedRefs(t, s, dp, k, i, t', x);
    }
  }

  // ----- link -----

  /** The table after link of inode i as `name` in dp. */
  function Linked(t: seq<Node>, dp: nat, name: string, i: nat): (r: seq<Node>)
    requires dp < |t| && i < |t|
    ensures |r| == |t|
  {
    t[i := t[i].(nlink := Inc(t[i].nlink))]
     [dp := t[dp].(entries := WithEntry(t[dp].entries, Dirent(i, name)))]
  }

  ghost predicate Links(t: seq<Node>, dp: nat, name: string, i: nat) {
    && IsDir(t, dp) && 0 < i < |t| && t[i].kind != Unused && t[i].kind != Directory
    && Find(t[dp].entries, name, 0) == |t[dp].entries|
  }

  lemma LinkGood(t: seq<Node>, s: Shape, dp: nat, name: string, i: nat, t': seq<Node>, d: nat)
    requires Inv(t, s) && Links(t, dp, name, i) && MayLink(t, dp, i) && t' == Linked(t, dp, name, i) && IsDir(t', d)
    ensures GoodDir(t', d)
  {
    if d == dp {
      WithEntryGood(t, t', dp, Dirent(i, name));
    } else {
      assert GoodDir(t, d);
      assert forall k: nat | 2 <= k < |t[d].entries| :: GoodSlot(t, d, k) ==> GoodSlot(t', d, k);
    }
  }

  lemma LinkOnly(t: seq<Node>, s: Shape, dp: nat, name: string, i: nat, t': seq<Node>, d: nat, k: nat)
    requires Inv(t, s) && Links(t, dp, name, i) && MayLink(t, dp, i) && t' == Linked(t, dp, name, i)
    requires Live(t', d) && 2 <= k < |t'[d].entries|
    ensures Only(t', s, d, k)
  {
    WithEntryGood(t, t', dp, Dirent(i, name));
    if k < |t[d].entries| && !(d == dp && k == Hole(t[dp].entries, 0)) {
      assert Only(t, s, d, k);
      assert IsDir(t, t[d].entries[k].inum) ==> GoodDir(t, t[d].entries[k].inum);
    }
  }

  lemma LinkKeeps(t: seq<Node>, s: Shape, dp: nat, name: string, i: nat, t': seq<Node>)
    requires Inv(t, s) && Links(t, dp, name, i) && MayLink(t, dp, i) && t' == Linked(t, dp, name, i)
    ensures Inv(t', s)
  {
    forall d: nat | IsDir(t', d)
      ensures GoodDir(t', d)
    {
      LinkGood(t, s, dp, name, i, t', d);
    }
    assert GoodDir(t, dp);
    WithEntryGood(t, t', dp, Dirent(i, name));
    forall d: nat | Live(t', d) && d != ROOTINO
      ensures Placed(t', s, d)
    {
      assert Placed(t, s, d) && GoodDir(t, d) && GoodDir(t, ParentOf(t, d));
    }
    forall d: nat, k: nat | Live(t', d) && 2 <= k < |t'[d].entries|
      ensures Only(t', s, d, k)
    {
      LinkOnly(t, s, dp, name, i, t', d, k);
    }
    forall x: nat | 0 < x < |t|
      ensures Counted(t', x)
    {
      assert Counted(t, x);
      LinkedRefs(t, dp, name, i, x);
    }
  }

  lemma LinkedRefs(t: seq<Node>, dp: nat, name: string, i: nat, x: nat)
    requires Links(t, dp, name, i) && MayLink(t, dp, i) && GoodDir(t, dp) && 0 < x < |t|
    ensures Refs(Linked(t, dp, name, i), x) == Refs(t, x) + if x == i then 1 else 0
  {
    var n := t[i].(nlink := Inc(t[i].nlink));
    RefsToSet(t, i, n, x, |t|);
    RefsToSet(t[i := n], dp, Linked(t, dp, name, i)[dp], x, |t|);
    RefsWithEntry(t[dp].entries, Dirent(i, name), x);
  }

  // ----- iput -----

  /** iput of the last reference to an inode without links frees it. */
  function Freed(t: seq<Node>, i: nat): seq<Node>
    requires i < |t|
  {
    t[i := Node(Unused, 0, [])]
  }

  lemma FreeKeeps(t: seq<Node>, s: Shape, i: nat)
    requires Inv(t, s) && 0 < i < |t| && t[i].kind != Unused && t[i].nlink == 0
    ensures Inv(Freed(t, i), s)
  {
    var t' := Freed(t, i);
    forall d: nat | IsDir(t', d)
      ensures GoodDir(t', d)
    {
      assert GoodDir(t, d);
      assert forall k: nat | 2 <= k < |t[d].entries| :: GoodSlot(t, d, k) ==> GoodSlot(t', d, k);
    }
    forall d: nat | Live(t', d) && d != ROOTINO
      ensures Placed(t', s, d)
    {
      assert Placed(t, s, d);
    }
    forall d: nat, k: nat | Live(t', d) && 2 <= k < |t'[d].entries|
      ensures Only(t', s, d, k)
    {
      assert Only(t, s, d, k);
    }
    forall x: nat | 0 < x < |t|
      ensures Counted(t', x)
    {
      assert Counted(t, x);
      RefsToSet(t, i, t'[i], x, |t|);
    }
  }

  // ----- unlinked directories -----

  /** In an unlinked directory a new file has a link count that no live entry backs,
      and a new directory makes its parent live again without a place in the tree. */
  lemma DeadCreate(t: seq<Node>, s: Shape, dp: nat, name: string, kind: Kind, i: nat, s': Shape)
    requires Inv(t, s) && Creates(t, dp, name, kind, i) && t[dp].nlink <= 0
    ensures !Inv(Created(t, dp, name, kind, i), s')
  {
    var t' := Created(t, dp, name, kind, i);
    assert GoodDir(t, dp) && Counted(t, dp) && Counted(t, i);
    if kind != Directory {
      RefsToSet(t, i, t'[i], i, |t|);
      RefsToSet(t[i := t'[i]], dp, t'[dp], i, |t|);
      assert !Counted(t', i);
    } else if Inv(t', s') {
      assert Placed(t', s', dp);
      var q := ParentOf(t', dp);
      assert q != dp && q != i && Live(t, q);
      SomeRefsIn(t[q].entries, dp, |t[q].entries|, s'.slot[dp]);
      SomeRefs(t, dp, |t|, q);
    }
  }

  /** A count that has wrapped around is no number of entries. */
  lemma WrappedCount(t: seq<Node>, i: nat, s: Shape)
    requires 0 < i < |t| && t[i].kind != Unused && t[i].nlink < 0
    ensures !Inv(t, s)
  {
    assert !Counted(t, i);
  }

  /** create keeps the invariant exactly if the directory has not been unlinked and,
      when it gets a subdirectory, its link count does not wrap around. */
  lemma CreateKeepsIff(t: seq<Node>, s: Shape, dp: nat, name: string, kind: Kind, i: nat)
    requires Inv(t, s) && Creates(t, dp, name, kind, i)
    ensures (exists s' :: Inv(Created(t, dp, name, kind, i), s')) <==> MayCreate(t, dp, kind)
  {
    var t' := Created(t, dp, name, kind, i);
    if MayCreate(t, dp, kind) {
      var s' := Shape(s.depth[i := s.depth[dp] + 1], s.slot[i := Hole(t[dp].entries, 0)]);
      CreateKeeps(t, s, dp, name, kind, i, t', s');
    } else {
      assert GoodDir(t, dp);
      forall s'
        ensures !Inv(t', s')
      {
        if t[dp].nlink <= 0 {
          DeadCreate(t, s, dp, name, kind, i, s');
        } else {
          WrappedCount(t', dp, s');
        }
      }
    }
  }

  /** link keeps it exactly if the directory has not been unlinked and the link count of
      the file does not wrap around. */
  lemma LinkKeepsIff(t: seq<Node>, s: Shape, dp: nat, name: string, i: nat)
    requires Inv(t, s) && Links(t, dp, name, i)
    ensures (exists s' :: Inv(Linked(t, dp, name, i), s')) <==> MayLink(t, dp, i)
  {
    var t' := Linked(t, dp, name, i);
    if MayLink(t, dp, i) {
      LinkKeeps(t, s, dp, name, i, t');
    } else {
      assert GoodDir(t, dp) && Counted(t, i);
      forall s'
        ensures !Inv(t', s')
      {
        if t[i].nlink == MAXLINK {
          WrappedCount(t', i, s');
        } else {
          RefsToSet(t, i, t'[i], i, |t|);
          RefsToSet(t[i := t'[i]], dp, t'[dp], i, |t|);
          assert !Counted(t', i);
        }
      }
    }
  }

  /** Nothing but the root. */
  function NewTable(n: nat): (t: seq<Node>)
    requires n >= 2
    ensures |t| == n
  {
    seq(n, i => if i == ROOTINO then Node(Directory, 1, [Dirent(1, DOT), Dirent(1, DOTDOT)]) else Node(Unused, 0, []))
  }

  lemma NewTableInv(n: nat)
    requires n >= 2
    ensures Inv(NewTable(n), Shape(seq(n, _ => 0), seq(n, _ => 0)))
  {
    var t := NewTable(n);
    forall i: nat | 0 < i < n
      ensures Counted(t, i)
    {
      OnlyRefs(t, i, n, ROOTINO);
      assert RefsIn(t[1].entries, i, 1) == 0;
    }
  }

  /** A new directory: the dots and nothing else. */
  lemma NewDir(es: seq<Dirent>, name: string)
    requires |es| == 2 && es[0].inum != 0 && es[1].inum != 0 && es[0].name == DOT && es[1].name == DOTDOT
    requires name != DOT && name != DOTDOT
    ensures Find(es, name, 0) == Hole(es, 0) == 2
  {
    assert Find(es, name, 1) == Find(es, name, 2) == 2;
    assert Hole(es, 1) == Hole(es, 2) == 2;
  }

  /** In a new file system directory 2 is created in the root and unlinked while it is
      still referenced, and then a file is created in it. */
  lemma UnlinkedExample(n: nat, s': Shape) returns (t: seq<Node>, s: Shape)
    requires n >= 4
    ensures Creates(NewTable(n), ROOTINO, "d", Directory, 2)
    ensures
      var t1 := Created(NewTable(n), ROOTINO, "d", Directory, 2);
      && |t1[ROOTINO].entries| == 3 && t1[ROOTINO].entries[2] == Dirent(2, "d") && EmptyDir(t1[2].entries)
      && t == Unlinked(t1, ROOTINO, 2)
    ensures Inv(t, s) && Creates(t, 2, "a", File, 3) && !Inv(Created(t, 2, "a", File, 3), s')
  {
    var t0, s0 := NewTable(n), Shape(seq(n, _ => 0), seq(n, _ => 0));
    NewTableInv(n);
    assert Find(t0[1].entries, "d", 0) == Find(t0[1].entries, "d", 1) == Find(t0[1].entries, "d", 2) == 2;
    assert Hole(t0[1].entries, 0) == Hole(t0[1].entries, 1) == Hole(t0[1].entries, 2) == 2;
    var t1 := Created(t0, ROOTINO, "d", Directory, 2);
    s := Shape(s0.depth[2 := 1], s0.slot[2 := 2]);
    CreateKeeps(t0, s0, ROOTINO, "d", Directory, 2, t1, s);
    t := Unlinked(t1, ROOTINO, 2);
    UnlinkKeeps(t1, s, ROOTINO, 2, 2, t);
    assert Find(t[2].entries, "a", 0) == Find(t[2].entries, "a", 1) == Find(t[2].entries, "a", 2) == 2;
    DeadCreate(t, s, 2, "a", File, 3, s');
  }
}
