/** When an inode is freed: links, references from processes and the directory tree
    together (iput and dirlookup of fs.c, create, link and unlink of sysfile.c). */
module InodeLife {
  import opened DirTree

  /** refs[i] is the reference count of inode i in the inode cache, 0 if it is not there. */
  datatype World = World(t: seq<Node>, s: Shape, refs: seq<nat>)

  datatype Step =
    | Lookup(d: nat, k: nat)                              // dirlookup finds slot k of directory d
    | Dup(i: nat)
    | Put(i: nat)
    | Create(dp: nat, name: string, kind: Kind, i: nat)
    | Link(dp: nat, name: string, i: nat)
    | Unlink(dp: nat, k: nat)

  predicate Held(w: World, i: nat) {
    0 < i < |w.refs| && w.refs[i] > 0
  }

  /** What the system calls let through: they work on inodes they hold. Creating and
      linking keep the link counts right; DirTree.CreateKeepsIff and LinkKeepsIff say when
      they do not. */
  ghost predicate Allowed(w: World, e: Step) {
    && |w.s.depth| == |w.s.slot| == |w.refs| == |w.t|
    && match e
       case Lookup(d, k) =>
         Held(w, d) && IsDir(w.t, d) && k < |w.t[d].entries| && 0 < w.t[d].entries[k].inum < |w.t|
       case Dup(i) => Held(w, i)
       case Put(i) => Held(w, i)
       case Create(dp, name, kind, i) => Held(w, dp) && MayCreate(w.t, dp, kind) && Creates(w.t, dp, name, kind, i)
       case Link(dp, name, i) => Held(w, dp) && Held(w, i) && MayLink(w.t, dp, i) && Links(w.t, dp, name, i)
       case Unlink(dp, k) =>
         && Held(w, dp) && IsDir(w.t, dp) && 2 <= k < |w.t[dp].entries|
         && var i := w.t[dp].entries[k].inum;
            0 < i < |w.t| && (w.t[i].kind == Directory ==> EmptyDir(w.t[i].entries))
  }

  ghost function More(w: World, i: nat): World
    requires i < |w.refs|
  {
    w.(refs := w.refs[i := w.refs[i] + 1])
  }

  /** iput: the last reference to an inode without links frees it. */
  ghost function Less(w: World, i: nat): World
    requires i < |w.refs| == |w.t| && w.refs[i] > 0
  {
    World(if w.refs[i] == 1 && w.t[i].nlink == 0 then Freed(w.t, i) else w.t, w.s, w.refs[i := w.refs[i] - 1])
  }

  ghost function After(w: World, e: Step): World
    requires Allowed(w, e)
  {
    match e
    case Lookup(d, k) => More(w, w.t[d].entries[k].inum)
    case Dup(i) => More(w, i)
    case Put(i) => Less(w, i)
    case Create(dp, name, kind, i) =>
      More(w.(t := Created(w.t, dp, name, kind, i),
              s := Shape(w.s.depth[i := w.s.depth[dp] + 1], w.s.slot[i := Hole(w.t[dp].entries, 0)])), i)
    case Link(dp, name, i) => w.(t := Linked(w.t, dp, name, i))
    case Unlink(dp, k) =>
      // the inode is looked up, loses the entry, and is given up again
      var i := w.t[dp].entries[k].inum;
      Less(More(w.(t := Unlinked(w.t, dp, k)), i), i)
  }

  /** An inode is in use exactly as long as it has a link or somebody holds it. */
  ghost predicate UsedIff(w: World, i: nat)
    requires i < |w.t| == |w.refs|
  {
    (w.t[i].kind == Unused <==> w.t[i].nlink == 0 && w.refs[i] == 0) && w.t[i].nlink >= 0
  }

  ghost predicate Alive(w: World) {
    && |w.refs| == |w.t| && Inv(w.t, w.s)
    && forall i: nat {:trigger UsedIff(w, i)} | 0 < i < |w.t| :: UsedIff(w, i)
  }

  /** The lookup leads to an inode that has been freed. */
  ghost predicate Dangles(w: World, e: Step)
    requires Allowed(w, e)
  {
    e.Lookup? && w.t[w.t[e.d].entries[e.k].inum].kind == Unused
  }

  /** That is the ".." of a directory that has been unlinked. */
  lemma DanglesAt(w: World, e: Step)
    requires Alive(w) && Allowed(w, e) && Dangles(w, e)
    ensures w.t[e.d].nlink == 0 && e.k == 1
  {
    assert GoodDir(w.t, e.d) && UsedIff(w, e.d);
    assert e.k > 1 ==> GoodSlot(w.t, e.d, e.k);
    if w.t[e.d].nlink > 0 && e.k > 0 {
      NotUnused(w.t, w.s, e.d, e.k);
    }
  }

  lemma LessInv(w: World, i: nat)
    requires Inv(w.t, w.s) && |w.refs| == |w.t| && 0 < i < |w.t| && w.refs[i] > 0 && w.t[i].kind != Unused
    ensures Inv(Less(w, i).t, w.s)
  {
    if w.refs[i] == 1 && w.t[i].nlink == 0 {
      FreeKeeps(w.t, w.s, i);
    }
  }

  /** Every step keeps the directory tree. */
  lemma StepTree(w: World, e: Step)
    requires Alive(w) && Allowed(w, e)
    ensures Inv(After(w, e).t, After(w, e).s) && |After(w, e).refs| == |After(w, e).t|
  {
    var w' := After(w, e);
    match e
    case Lookup(d, k) =>
    case Dup(i) =>
    case Put(i) =>
      assert UsedIff(w, i);
      LessInv(w, i);
    case Create(dp, name, kind, i) => CreateKeeps(w.t, w.s, dp, name, kind, i, w'.t, w'.s);
    case Link(dp, name, i) => LinkKeeps(w.t, w.s, dp, name, i, w'.t);
    case Unlink(dp, k) =>
      var i := w.t[dp].entries[k].inum;
      UnlinkKeeps(w.t, w.s, dp, k, i, Unlinked(w.t, dp, k));
      UnlinkCounts(w.t, w.s, dp, k, i, Unlinked(w.t, dp, k));
      LessInv(More(w.(t := Unlinked(w.t, dp, k)), i), i);
  }

  /** One step, exactly: inodes in use are those with a link or a holder, unless it looks
      up the ".." of an unlinked directory whose parent is gone. */
  lemma StepIff(w: World, e: Step)
    requires Alive(w) && Allowed(w, e)
    ensures Alive(After(w, e)) <==> !Dangles(w, e)
  {
    var w' := After(w, e);
    StepTree(w, e);
    if Dangles(w, e) {
      var i := w.t[e.d].entries[e.k].inum;
      assert UsedIff(w, i) && !UsedIff(w', i);
    } else {
      forall i: nat | 0 < i < |w'.t|
        ensures UsedIff(w', i)
      {
        StepUsed(w, e, i);
      }
    }
  }

  lemma StepUsed(w: World, e: Step, x: nat)
    requires Alive(w) && Allowed(w, e) && !Dangles(w, e) && 0 < x < |w.t|
    ensures UsedIff(After(w, e), x)
  {
    assert UsedIff(w, x);
    if e.Create? {
      assert UsedIff(w, e.i) && UsedIff(w, e.dp);
    } else if e.Unlink? {
      var i := w.t[e.dp].entries[e.k].inum;
      UnlinkCounts(w.t, w.s, e.dp, e.k, i, Unlinked(w.t, e.dp, e.k));
      assert UsedIff(w, e.dp) && UsedIff(w, i);
    }
  }

  // ----- runs -----

  ghost predicate CanRun(w: World, es: seq<Step>)
    decreases |es|
  {
    es == [] || (Allowed(w, es[0]) && CanRun(After(w, es[0]), es[1..]))
  }

  ghost function Exec(w: World, es: seq<Step>): World
    requires CanRun(w, es)
    decreases |es|
  {
    if es == [] then w else Exec(After(w, es[0]), es[1..])
  }

  ghost predicate AliveThroughout(w: World, es: seq<Step>)
    requires CanRun(w, es)
    decreases |es|
  {
    Alive(w) && (es != [] ==> AliveThroughout(After(w, es[0]), es[1..]))
  }

  ghost predicate DanglesSome(w: World, es: seq<Step>)
    requires CanRun(w, es)
    decreases |es|
  {
    es != [] && (Dangles(w, es[0]) || DanglesSome(After(w, es[0]), es[1..]))
  }

  /** Over every run: at each point exactly the inodes with neither link nor holder are
      free, if and only if no step looks up such a "..". */
  lemma {:induction false} RunIff(w: World, es: seq<Step>)
    requires Alive(w) && CanRun(w, es)
    ensures AliveThroughout(w, es) <==> !DanglesSome(w, es)
    decreases |es|
  {
    if es != [] {
      StepIff(w, es[0]);
      if Alive(After(w, es[0])) {
        RunIff(After(w, es[0]), es[1..]);
      }
    }
  }

  /** The references to x that a step hands out, less those it takes back. */
  ghost function Gain(w: World, e: Step, x: nat): int
    requires Allowed(w, e)
  {
    match e
    case Lookup(d, k) => if w.t[d].entries[k].inum == x then 1 else 0
    case Dup(i) => if i == x then 1 else 0
    case Put(i) => if i == x then -1 else 0
    case Create(_, _, _, i) => if i == x then 1 else 0
    case _ => 0
  }

  ghost function Gains(w: World, es: seq<Step>, x: nat): int
    requires CanRun(w, es)
    decreases |es|
  {
    if es == [] then 0 else Gain(w, es[0], x) + Gains(After(w, es[0]), es[1..], x)
  }

  /** Over every run the count of an inode is the number of references handed out and not
      yet given back. */
  lemma {:induction false} RefsCount(w: World, es: seq<Step>, x: nat)
    requires CanRun(w, es) && x < |w.refs|
    ensures |Exec(w, es).refs| == |w.refs| && Exec(w, es).refs[x] == w.refs[x] + Gains(w, es, x)
    decreases |es|
  {
    if es != [] {
      RefsCount(After(w, es[0]), es[1..], x);
    }
  }

  /** One more step in front of a run. */
  lemma Before(w: World, e: Step, es: seq<Step>)
    requires Allowed(w, e) && CanRun(After(w, e), es)
    ensures CanRun(w, [e] + es) && Exec(w, [e] + es) == Exec(After(w, e), es)
  {
    assert ([e] + es)[1..] == es;
  }

  /** A new file system, where somebody holds the root, and directory 3 in 2 in the root. */
  lemma TwoDeep(w0: World) returns (w: World)
    requires w0.t == NewTable(4) && w0.s == Shape(seq(4, _ => 0), seq(4, _ => 0)) && w0.refs == [0, 1, 0, 0]
    ensures Alive(w0)
    ensures
      var a, b := Create(1, "c", Directory, 2), Create(2, "a", Directory, 3);
      Allowed(w0, a) && Allowed(After(w0, a), b) && w == After(After(w0, a), b)
    ensures w.refs == [0, 1, 1, 1] && |w.t| == |w.s.depth| == |w.s.slot| == 4
    ensures w.t[1] == Node(Directory, 2, [Dirent(1, DOT), Dirent(1, DOTDOT), Dirent(2, "c")])
    ensures w.t[2] == Node(Directory, 2, [Dirent(2, DOT), Dirent(1, DOTDOT), Dirent(3, "a")])
    ensures w.t[3] == Node(Directory, 1, [Dirent(3, DOT), Dirent(2, DOTDOT)])
  {
    NewTableInv(4);
    NewDir(w0.t[1].entries, "c");
    var w1 := After(w0, Create(1, "c", Directory, 2));
    NewDir(w1.t[2].entries, "a");
    w := After(w1, Create(2, "a", Directory, 3));
  }

  /** Somebody holds directory 3 while it and then the directory above it are unlinked,
      and the one above is given up and freed. */
  lemma ParentGone(w: World) returns (w': World, es: seq<Step>)
    requires w.refs == [0, 1, 1, 1] && |w.t| == |w.s.depth| == |w.s.slot| == 4
    requires w.t[1] == Node(Directory, 2, [Dirent(1, DOT), Dirent(1, DOTDOT), Dirent(2, "c")])
    requires w.t[2] == Node(Directory, 2, [Dirent(2, DOT), Dirent(1, DOTDOT), Dirent(3, "a")])
    requires w.t[3] == Node(Directory, 1, [Dirent(3, DOT), Dirent(2, DOTDOT)])
    ensures CanRun(w, es) && Exec(w, es) == w' && Allowed(w', Lookup(3, 1)) && Dangles(w', Lookup(3, 1))
  {
    var w3 := After(w, Unlink(2, 2));
    assert w3.t[2] == Node(Directory, 1, [Dirent(2, DOT), Dirent(1, DOTDOT), Dirent(0, "")]);
    assert w3.t[3] == Node(Directory, 0, [Dirent(3, DOT), Dirent(2, DOTDOT)]);
    assert w3.refs == [0, 1, 1, 1];
    var w4 := After(w3, Unlink(1, 2));
    assert w4.t[2].nlink == 0 && w4.t[3] == w3.t[3] && w4.refs == [0, 1, 1, 1];
    w' := After(w4, Put(2));
    Before(w4, Put(2), []);
    Before(w3, Unlink(1, 2), [Put(2)] + []);
    Before(w, Unlink(2, 2), [Unlink(1, 2)] + ([Put(2)] + []));
    es := [Unlink(2, 2)] + ([Unlink(1, 2)] + ([Put(2)] + []));
  }

  /** From a new file system on: the ".." of a directory that somebody holds leads to an
      inode that has been freed. */
  lemma DotDotGone() returns (w0: World, es: seq<Step>)
    ensures Alive(w0) && CanRun(w0, es) && Allowed(Exec(w0, es), Lookup(3, 1))
    ensures Dangles(Exec(w0, es), Lookup(3, 1))
  {
    w0 := World(NewTable(4), Shape(seq(4, _ => 0), seq(4, _ => 0)), [0, 1, 0, 0]);
    var a, b := Create(1, "c", Directory, 2), Create(2, "a", Directory, 3);
    var w2 := TwoDeep(w0);
    var w', rest := ParentGone(w2);
    Before(After(w0, a), b, rest);
    Before(w0, a, [b] + rest);
    es := [a] + ([b] + rest);
  }
}
