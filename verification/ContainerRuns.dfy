/** Confinement while the tree changes: any process may create, link, unlink and give
    up inodes between the calls of a confined one (sysfile.c, fs.c, proc.c). */
module ContainerRuns {
  import opened Common
  import opened DirTree
  import opened Paths
  import opened Container

  datatype World = World(t: seq<Node>, s: Shape, ps: seq<Proc>)

  datatype Step =
    | Calls(c: Call)
    | Create(dp: nat, name: string, kind: Kind, i: nat)
    | Link(dp: nat, name: string, i: nat)
    | Unlink(dp: nat, k: nat)
    | Iput(i: nat)

  /** No process has inode i as its directory or root. */
  predicate Unheld(ps: seq<Proc>, i: nat) {
    forall q <- ps :: q.cwd != i && q.newroot != Some(i)
  }

  /** What the system calls let through. Creating and linking keep the link counts right;
      DirTree.CreateKeepsIff and LinkKeepsIff say when they do not. */
  ghost predicate Allowed(w: World, e: Step) {
    && |w.s.depth| == |w.s.slot| == |w.t|
    && match e
       case Calls(c) => c.who < |w.ps|
       case Create(dp, name, kind, i) => Creates(w.t, dp, name, kind, i) && MayCreate(w.t, dp, kind) && Unheld(w.ps, i)
       case Link(dp, name, i) => Links(w.t, dp, name, i) && MayLink(w.t, dp, i)
       case Unlink(dp, k) =>
         && IsDir(w.t, dp) && 2 <= k < |w.t[dp].entries|
         && var i := w.t[dp].entries[k].inum;
            0 < i < |w.t| && (w.t[i].kind == Directory ==> EmptyDir(w.t[i].entries))
       case Iput(i) => 0 < i < |w.t| && w.t[i].kind != Unused && w.t[i].nlink == 0 && Unheld(w.ps, i)
  }

  ghost function After(w: World, e: Step): World
    requires Allowed(w, e)
  {
    match e
    case Calls(c) => w.(ps := Apply(w.t, w.ps, c))
    case Create(dp, name, kind, i) =>
      w.(t := Created(w.t, dp, name, kind, i),
         s := Shape(w.s.depth[i := w.s.depth[dp] + 1], w.s.slot[i := Hole(w.t[dp].entries, 0)]))
    case Link(dp, name, i) => w.(t := Linked(w.t, dp, name, i))
    case Unlink(dp, k) => w.(t := Unlinked(w.t, dp, k))
    case Iput(i) => w.(t := Freed(w.t, i))
  }

  lemma StepInv(w: World, e: Step)
    requires Inv(w.t, w.s) && Allowed(w, e)
    ensures Inv(After(w, e).t, After(w, e).s)
  {
    var w' := After(w, e);
    match e
    case Calls(c) =>
    case Create(dp, name, kind, i) => CreateKeeps(w.t, w.s, dp, name, kind, i, w'.t, w'.s);
    case Link(dp, name, i) => LinkKeeps(w.t, w.s, dp, name, i, w'.t);
    case Unlink(dp, k) => UnlinkKeeps(w.t, w.s, dp, k, w.t[dp].entries[k].inum, w'.t);
    case Iput(i) => FreeKeeps(w.t, w.s, i);
  }

  // ----- linked directories keep their place -----

  /** A directory that has a link stays a directory in the same parent. */
  lemma StepParent(w: World, e: Step, d: nat)
    requires Inv(w.t, w.s) && Allowed(w, e) && Live(w.t, d)
    ensures IsDir(After(w, e).t, d) && ParentOf(After(w, e).t, d) == ParentOf(w.t, d)
    ensures Live(w.t, ParentOf(w.t, d))
  {
    assert GoodDir(w.t, d);
    assert d != ROOTINO ==> Placed(w.t, w.s, d);
    if e.Create? || e.Link? {
      assert GoodDir(w.t, e.dp);
      assert Hole(w.t[e.dp].entries, 0) >= 2;
    }
  }

  lemma {:induction false} StepAncestor(w: World, e: Step, d: nat, n: nat)
    requires Inv(w.t, w.s) && Allowed(w, e) && Live(w.t, d)
    ensures Ancestor(After(w, e).t, d, n) == Ancestor(w.t, d, n) && Live(w.t, Ancestor(w.t, d, n))
    decreases n
  {
    if n > 0 {
      StepParent(w, e, d);
      StepAncestor(w, e, ParentOf(w.t, d), n - 1);
    }
  }

  /** One step of anyone: a confined process whose directory has a link is confined
      afterwards, and its root is still a directory. */
  lemma StepConfined(w: World, e: Step, root: nat, q: nat)
    requires Inv(w.t, w.s) && Allowed(w, e) && q < |w.ps|
    requires Confined(w.t, root, w.ps[q]) && Live(w.t, w.ps[q].cwd)
    ensures q < |After(w, e).ps| && Confined(After(w, e).t, root, After(w, e).ps[q])
    ensures IsDir(w.t, root)
  {
    var d := w.ps[q].cwd;
    var n: nat :| Ancestor(w.t, d, n) == root;
    StepAncestor(w, e, d, n);
    StepParent(w, e, d);
    if e.Calls? {
      TreesAreNested(w.t, w.s);
      if e.c.who == q && e.c.Chdir? {
        ConfinedNames(w.t, root, w.ps[q], e.c.path);
      }
    } else {
      assert Ancestor(After(w, e).t, d, n) == root;
    }
  }

  // ----- runs -----

  ghost predicate CanRun(w: World, es: seq<Step>)
    decreases |es|
  {
    es == [] || (Allowed(w, es[0]) && CanRun(After(w, es[0]), es[1..]))
  }

  ghost function Exec(w: World, es: seq<Step>): World
    requires CanRun(w, es)
    decreases |es|
  {
    if es == [] then w else Exec(After(w, es[0]), es[1..])
  }

  /** Before each step of the run the directory of process q has a link. */
  ghost predicate StaysLinked(w: World, es: seq<Step>, q: nat)
    requires CanRun(w, es)
    decreases |es|
  {
    es != [] ==> q < |w.ps| && Live(w.t, w.ps[q].cwd) && StaysLinked(After(w, es[0]), es[1..], q)
  }

  /** Whatever the others do to the tree, a confined process stays confined, and can
      name nothing outside, as long as nobody unlinks its directory. */
  lemma {:induction false} RunConfined(w: World, es: seq<Step>, root: nat, q: nat)
    requires Inv(w.t, w.s) && CanRun(w, es)
    requires q < |w.ps| && Confined(w.t, root, w.ps[q]) && StaysLinked(w, es, q)
    ensures
      var w' := Exec(w, es);
      && Inv(w'.t, w'.s)
      && q < |w'.ps| && Confined(w'.t, root, w'.ps[q])
      && (Live(w'.t, w'.ps[q].cwd) ==>
            forall path | Namei(w'.t, w'.ps[q], path).Some? :: Inside(w'.t, root, Namei(w'.t, w'.ps[q], path).value))
    decreases |es|
  {
    if es != [] {
      StepInv(w, es[0]);
      StepConfined(w, es[0], root, q);
      RunConfined(After(w, es[0]), es[1..], root, q);
    } else if Live(w.t, w.ps[q].cwd) {
      TreesAreNested(w.t, w.s);
      StepConfined(w, Calls(Fork(q)), root, q);
      forall path | Namei(w.t, w.ps[q], path).Some?
        ensures Inside(w.t, root, Namei(w.t, w.ps[q], path).value)
      {
        ConfinedNames(w.t, root, w.ps[q], path);
      }
    }
  }

  // ----- exactly when a process stays confined -----

  /** Only directories have entries. */
  ghost predicate Bare(t: seq<Node>) {
    forall i: nat | i < |t| && t[i].kind != Directory :: t[i].entries == []
  }

  lemma NewTableBare(n: nat)
    requires n >= 2
    ensures Bare(NewTable(n))
  {
  }

  lemma StepBare(w: World, e: Step)
    requires Bare(w.t) && Allowed(w, e)
    ensures Bare(After(w, e).t)
  {
  }

  /** Directory i is on the way up from d, before `root`. */
  ghost predicate Between(t: seq<Node>, root: nat, d: nat, i: nat) {
    i < |t| && exists n: nat :: BetweenAt(t, root, d, i, n)
  }

  ghost predicate BetweenAt(t: seq<Node>, root: nat, d: nat, i: nat, n: nat) {
    Ancestor(t, d, n) == i && forall m: nat | m <= n :: Ancestor(t, d, m) != root
  }

  /** Parents that are the same make the same way up. */
  lemma {:induction false} SameWay(t: seq<Node>, t': seq<Node>, d: nat, n: nat)
    requires |t'| == |t|
    requires forall m: nat | m < n && Ancestor(t, d, m) < |t| ::
               ParentOf(t', Ancestor(t, d, m)) == ParentOf(t, Ancestor(t, d, m))
    ensures Ancestor(t', d, n) == Ancestor(t, d, n)
    decreases n
  {
    if n > 0 && d < |t| {
      assert ParentOf(t', d) == ParentOf(t, d) by {
        assert Ancestor(t, d, 0) == d;
      }
      forall m: nat | m < n - 1 && Ancestor(t, ParentOf(t, d), m) < |t|
        ensures ParentOf(t', Ancestor(t, ParentOf(t, d), m)) == ParentOf(t, Ancestor(t, ParentOf(t, d), m))
      {
        assert Ancestor(t, d, m + 1) == Ancestor(t, ParentOf(t, d), m);
      }
      SameWay(t, t', ParentOf(t, d), n - 1);
    }
  }

  /** The way up goes on from where it has come. */
  lemma {:induction false} WayOn(t: seq<Node>, s: Shape, d: nat, a: nat, b: nat)
    requires Inv(t, s) && Bare(t) && d < |t|
    ensures Ancestor(t, d, a) < |t| && Ancestor(t, d, a + b) == Ancestor(t, Ancestor(t, d, a), b)
    decreases a
  {
    if a > 0 {
      assert IsDir(t, d) ==> GoodDir(t, d);
      WayOn(t, s, ParentOf(t, d), a - 1, b);
    }
  }

  /** From an inode that is no directory it goes to 0 and stays there. */
  lemma {:induction false} WayEnds(t: seq<Node>, i: nat, n: nat)
    requires 0 < |t| && t[0].kind != Directory && Bare(t) && i < |t| && !IsDir(t, i)
    ensures Ancestor(t, i, n + 1) == 0
    decreases n
  {
    if n > 0 {
      WayEnds(t, 0, n - 1);
    }
  }

  /** The first time that the way up comes to `root`. */
  lemma {:induction false} FirstTime(t: seq<Node>, root: nat, d: nat, n: nat) returns (k: nat)
    requires Ancestor(t, d, n) == root
    ensures k <= n && Ancestor(t, d, k) == root && forall m: nat | m < k :: Ancestor(t, d, m) != root
    decreases n
  {
    if m: nat :| m < n && Ancestor(t, d, m) == root {
      k := FirstTime(t, root, d, m);
    } else {
      k := n;
    }
  }

  /** What lies between a confined process and its root are directories. */
  lemma BetweenDirs(t: seq<Node>, s: Shape, root: nat, d: nat, i: nat)
    requires Inv(t, s) && Bare(t) && IsDir(t, root) && Below(t, root, d) && Between(t, root, d, i)
    ensures IsDir(t, i) && i != 0 && t[i].nlink >= 0
  {
    var n: nat :| BetweenAt(t, root, d, i, n);
    var k: nat :| Ancestor(t, d, k) == root;
    assert k > n;
    WayOn(t, s, d, n, k - n);
    assert GoodDir(t, root);
    if !IsDir(t, i) {
      WayEnds(t, i, k - n - 1);
    }
    assert Counted(t, i);
  }

  /** A step other than the freeing of i leaves the parents of directories alone. */
  lemma StepParents(w: World, e: Step, x: nat)
    requires Inv(w.t, w.s) && Allowed(w, e) && IsDir(w.t, x) && !(e.Iput? && e.i == x)
    ensures IsDir(After(w, e).t, x) && ParentOf(After(w, e).t, x) == ParentOf(w.t, x)
  {
    assert GoodDir(w.t, x);
    if e.Create? || e.Link? {
      assert GoodDir(w.t, e.dp);
      assert Hole(w.t[e.dp].entries, 0) >= 2;
    }
  }

  /** Freeing nothing on the way up leaves the process where it is. */
  lemma StaysBelow(w: World, e: Step, root: nat, d: nat)
    requires Inv(w.t, w.s) && Bare(w.t) && Allowed(w, e) && IsDir(w.t, root) && Below(w.t, root, d)
    requires e.Iput? ==> e.i != d && !Between(w.t, root, d, e.i)
    ensures Below(After(w, e).t, root, d)
  {
    var t, t' := w.t, After(w, e).t;
    var n: nat :| Ancestor(t, d, n) == root;
    var k := FirstTime(t, root, d, n);
    forall m: nat | m < k && Ancestor(t, d, m) < |t|
      ensures ParentOf(t', Ancestor(t, d, m)) == ParentOf(t, Ancestor(t, d, m))
    {
      var x := Ancestor(t, d, m);
      assert BetweenAt(t, root, d, x, m);
      BetweenDirs(t, w.s, root, d, x);
      StepParents(w, e, x);
    }
    SameWay(t, t', d, k);
    StepParents(w, e, d);
  }

  /** Freeing a directory on the way up cuts it off. */
  lemma CutOff(w: World, i: nat, root: nat, d: nat)
    requires Inv(w.t, w.s) && Bare(w.t) && Allowed(w, Iput(i)) && IsDir(w.t, root) && Between(w.t, root, d, i)
    requires d < |w.t|
    ensures !Below(Freed(w.t, i), root, d)
  {
    var t, t' := w.t, Freed(w.t, i);
    StepInv(w, Iput(i));
    StepBare(w, Iput(i));
    var n: nat :| BetweenAt(t, root, d, i, n);
    var k := FirstTime(t, i, d, n);
    SameWay(t, t', d, k);
    assert GoodDir(t, root);
    forall m: nat
      ensures Ancestor(t', d, m) != root
    {
      if m <= k {
        SameWay(t, t', d, m);
      } else {
        WayOn(t', w.s, d, k, m - k);
        WayEnds(t', i, m - k - 1);
      }
    }
  }

  /** One step, exactly: it takes a process out of its container if and only if it frees
      a directory between the process and its root. */
  lemma StepConfinedIff(w: World, e: Step, root: nat, q: nat)
    requires Inv(w.t, w.s) && Bare(w.t) && Allowed(w, e) && IsDir(w.t, root)
    requires q < |w.ps| && Confined(w.t, root, w.ps[q])
    ensures q < |After(w, e).ps|
    ensures Confined(After(w, e).t, root, After(w, e).ps[q])
       <==> !(e.Iput? && Between(w.t, root, w.ps[q].cwd, e.i))
  {
    var d := w.ps[q].cwd;
    if e.Calls? {
      TreesAreNested(w.t, w.s);
      if e.c.who == q && e.c.Chdir? {
        ConfinedNames(w.t, root, w.ps[q], e.c.path);
      }
    } else if e.Iput? && Between(w.t, root, d, e.i) {
      CutOff(w, e.i, root, d);
    } else {
      assert w.ps[q] in w.ps;
      StaysBelow(w, e, root, d);
    }
  }

  /** What can be seen before the step: no step can take the process out if and only if
      every directory between it and its root has a link or is held by a process. */
  lemma SafeIff(w: World, root: nat, q: nat)
    requires Inv(w.t, w.s) && Bare(w.t) && IsDir(w.t, root) && q < |w.ps| && Confined(w.t, root, w.ps[q])
    ensures (forall e | Allowed(w, e) :: Confined(After(w, e).t, root, After(w, e).ps[q]))
       <==> (forall i: nat | Between(w.t, root, w.ps[q].cwd, i) :: w.t[i].nlink > 0 || !Unheld(w.ps, i))
  {
    var d := w.ps[q].cwd;
    forall e | Allowed(w, e)
      ensures q < |After(w, e).ps|
      ensures Confined(After(w, e).t, root, After(w, e).ps[q]) <==> !(e.Iput? && Between(w.t, root, d, e.i))
    {
      StepConfinedIff(w, e, root, q);
    }
    forall i: nat | Between(w.t, root, d, i)
      ensures Allowed(w, Iput(i)) <==> !(w.t[i].nlink > 0 || !Unheld(w.ps, i))
    {
      BetweenDirs(w.t, w.s, root, d, i);
    }
  }

  /** Whatever path the process gives, it leads inside. */
  ghost predicate NamesInside(t: seq<Node>, root: nat, p: Proc) {
    forall path | Namei(t, p, path).Some? :: Inside(t, root, Namei(t, p, path).value)
  }

  lemma InsideIff(t: seq<Node>, root: nat, p: Proc)
    requires Nested(t) && IsDir(t, root) && IsDir(t, p.cwd) && p.newroot == Some(root)
    ensures NamesInside(t, root, p) <==> Confined(t, root, p)
  {
    if Confined(t, root, p) {
      forall path | Namei(t, p, path).Some?
        ensures Inside(t, root, Namei(t, p, path).value)
      {
        ConfinedNames(t, root, p, path);
      }
    } else {
      assert Elems("", 0) == [];
      assert Namei(t, p, "") == Some(p.cwd) && !Inside(t, root, p.cwd);
    }
  }

  /** At every point of the run, whatever path process q gives leads inside. */
  ghost predicate InsideThroughout(w: World, es: seq<Step>, root: nat, q: nat)
    requires CanRun(w, es)
    decreases |es|
  {
    && q < |w.ps| && NamesInside(w.t, root, w.ps[q])
    && (es != [] ==> InsideThroughout(After(w, es[0]), es[1..], root, q))
  }

  /** Some step of the run frees a directory between process q and its root. */
  ghost predicate FreesBetween(w: World, es: seq<Step>, root: nat, q: nat)
    requires CanRun(w, es)
    decreases |es|
  {
    && es != [] && q < |w.ps|
    && (|| (es[0].Iput? && Between(w.t, root, w.ps[q].cwd, es[0].i))
        || FreesBetween(After(w, es[0]), es[1..], root, q))
  }

  /** Directory and root of a process are directories as long as it is there. */
  lemma StepHolds(w: World, e: Step, root: nat, q: nat)
    requires Inv(w.t, w.s) && Allowed(w, e) && IsDir(w.t, root) && q < |w.ps|
    requires w.ps[q].newroot == Some(root) && IsDir(w.t, w.ps[q].cwd)
    ensures q < |After(w, e).ps| && After(w, e).ps[q].newroot == Some(root)
    ensures IsDir(After(w, e).t, root) && IsDir(After(w, e).t, After(w, e).ps[q].cwd)
  {
    assert w.ps[q] in w.ps;
    if !e.Calls? {
      StepParents(w, e, root);
      StepParents(w, e, w.ps[q].cwd);
    }
  }

  /** A whole run, exactly: the process can name nothing outside its container, at any
      point, if and only if no step frees a directory between it and its root. */
  lemma {:induction false} RunConfinedIff(w: World, es: seq<Step>, root: nat, q: nat)
    requires Inv(w.t, w.s) && Bare(w.t) && CanRun(w, es) && IsDir(w.t, root)
    requires q < |w.ps| && Confined(w.t, root, w.ps[q])
    ensures InsideThroughout(w, es, root, q) <==> !FreesBetween(w, es, root, q)
    decreases |es|
  {
    TreesAreNested(w.t, w.s);
    InsideIff(w.t, root, w.ps[q]);
    if es != [] {
      var w' := After(w, es[0]);
      StepInv(w, es[0]);
      StepBare(w, es[0]);
      StepHolds(w, es[0], root, q);
      StepConfinedIff(w, es[0], root, q);
      TreesAreNested(w'.t, w'.s);
      InsideIff(w'.t, root, w'.ps[q]);
      if Confined(w'.t, root, w'.ps[q]) {
        RunConfinedIff(w', es[1..], root, q);
      }
    }
  }

  /** As long as its directory has a link, nothing between a process and its root can be
      freed. */
  lemma {:induction false} LinkedIsEnough(w: World, es: seq<Step>, root: nat, q: nat)
    requires Inv(w.t, w.s) && CanRun(w, es) && StaysLinked(w, es, q)
    ensures !FreesBetween(w, es, root, q)
    decreases |es|
  {
    if es != [] {
      var e, d := es[0], w.ps[q].cwd;
      forall n: nat | e.Iput?
        ensures Ancestor(w.t, d, n) != e.i
      {
        StepAncestor(w, e, d, n);
      }
      StepInv(w, e);
      LinkedIsEnough(After(w, e), es[1..], root, q);
    }
  }

  // ----- an unlinked directory -----

  /** Directories 2, 3 and 4 in each other, as create makes them in a new file system;
      a process is in 4, and 2 is its root. */
  lemma ThreeDeep() returns (w: World)
    ensures Inv(w.t, w.s) && w.ps == [Proc(4, Some(2))] && Confined(w.t, 2, w.ps[0])
    ensures w.t ==
              [Node(Unused, 0, []),
               Node(Directory, 2, [Dirent(1, DOT), Dirent(1, DOTDOT), Dirent(2, "c")]),
               Node(Directory, 2, [Dirent(2, DOT), Dirent(1, DOTDOT), Dirent(3, "a")]),
               Node(Directory, 2, [Dirent(3, DOT), Dirent(2, DOTDOT), Dirent(4, "b")]),
               Node(Directory, 1, [Dirent(4, DOT), Dirent(3, DOTDOT)])]
  {
    NewTableInv(5);
    w := World(NewTable(5), Shape(seq(5, _ => 0), seq(5, _ => 0)), []);
    w := MakeDir(w, 1, "c", 2);
    w := MakeDir(w, 2, "a", 3);
    w := MakeDir(w, 3, "b", 4);
    w := w.(ps := [Proc(4, Some(2))]);
    assert w.t[1].entries == [Dirent(1, DOT), Dirent(1, DOTDOT), Dirent(2, "c")];
    assert w.t[2].entries == [Dirent(2, DOT), Dirent(1, DOTDOT), Dirent(3, "a")];
    assert w.t[3].entries == [Dirent(3, DOT), Dirent(2, DOTDOT), Dirent(4, "b")];
    assert Ancestor(w.t, 2, 0) == Ancestor(w.t, 3, 1) == Ancestor(w.t, 4, 2) == 2;
  }

  /** create of directory i in the new directory dp. */
  lemma MakeDir(w: World, dp: nat, name: string, i: nat) returns (w': World)
    requires Inv(w.t, w.s) && w.ps == [] && MayCreate(w.t, dp, Directory) && |w.t[dp].entries| == 2
    requires 0 < i < |w.t| && i != dp && w.t[i].kind == Unused && name != DOT && name != DOTDOT
    ensures Inv(w'.t, w'.s) && w'.ps == [] && |w'.t| == |w.t|
    ensures w'.t[i] == Node(Directory, 1, [Dirent(i, DOT), Dirent(dp, DOTDOT)])
    ensures w'.t[dp] == Node(Directory, w.t[dp].nlink + 1, w.t[dp].entries + [Dirent(i, name)])
    ensures forall x | 0 <= x < |w.t| && x != i && x != dp :: w'.t[x] == w.t[x]
  {
    assert GoodDir(w.t, dp);
    NewDir(w.t[dp].entries, name);
    w' := After(w, Create(dp, name, Directory, i));
    StepInv(w, Create(dp, name, Directory, i));
  }

  /** Directory 4 is unlinked, then 3, which nobody holds. */
  lemma ThreeGone(w0: World) returns (w: World)
    requires Inv(w0.t, w0.s) && w0.ps == [Proc(4, Some(2))] && |w0.t| == 5
    requires w0.t[1] == Node(Directory, 2, [Dirent(1, DOT), Dirent(1, DOTDOT), Dirent(2, "c")])
    requires w0.t[2] == Node(Directory, 2, [Dirent(2, DOT), Dirent(1, DOTDOT), Dirent(3, "a")])
    requires w0.t[3] == Node(Directory, 2, [Dirent(3, DOT), Dirent(2, DOTDOT), Dirent(4, "b")])
    requires w0.t[4] == Node(Directory, 1, [Dirent(4, DOT), Dirent(3, DOTDOT)])
    ensures CanRun(w0, [Unlink(3, 2)] + ([Unlink(2, 2)] + [Iput(3)]))
    ensures w == Exec(w0, [Unlink(3, 2)] + ([Unlink(2, 2)] + [Iput(3)])) && w.ps == w0.ps && |w.t| == 5
    ensures w.t[1] == w0.t[1] && w.t[3].kind == Unused && w.t[4].kind == Directory && w.t[4].entries == w0.t[4].entries
    ensures |w.s.depth| == |w.s.slot| == 5
  {
    var w1 := After(w0, Unlink(3, 2));
    var w2 := After(w1, Unlink(2, 2));
    w := After(w2, Iput(3));
    Before(w2, Iput(3), []);
    assert [Iput(3)] + [] == [Iput(3)];
    Before(w1, Unlink(2, 2), [Iput(3)]);
    Before(w0, Unlink(3, 2), [Unlink(2, 2)] + [Iput(3)]);
  }

  /** Once its directory has been unlinked, the directory above can be unlinked too,
      given up, and made anew elsewhere. Then ".." leads out of the container. */
  lemma Escape() returns (w0: World, es: seq<Step>)
    ensures Inv(w0.t, w0.s) && w0.ps == [Proc(4, Some(2))] && Confined(w0.t, 2, w0.ps[0]) && Live(w0.t, 4)
    ensures es == [Unlink(3, 2), Unlink(2, 2), Iput(3), Create(1, "x", Directory, 3)] && CanRun(w0, es)
    ensures
      var w := Exec(w0, es);
      w.ps == w0.ps && Namei(w.t, w.ps[0], "..") == Some(3) && !Inside(w.t, 2, 3)
  {
    w0 := ThreeDeep();
    var gone, last := [Unlink(3, 2)] + ([Unlink(2, 2)] + [Iput(3)]), Create(1, "x", Directory, 3);
    es := [Unlink(3, 2), Unlink(2, 2), Iput(3), last];
    var w3 := ThreeGone(w0);
    RootEntries(w3.t[1].entries);
    Outside(After(w3, last));
    Before(w3, last, []);
    assert [last] + [] == [last];
    RunConcat(w0, gone, [last]);
    assert es == gone + [last];
  }

  lemma {:induction false} RunConcat(w: World, a: seq<Step>, b: seq<Step>)
    requires CanRun(w, a) && CanRun(Exec(w, a), b)
    ensures CanRun(w, a + b) && Exec(w, a + b) == Exec(Exec(w, a), b)
    decreases |a|
  {
    if a == [] {
      assert a + b == b;
    } else {
      RunConcat(After(w, a[0]), a[1..], b);
      assert (a + b)[1..] == a[1..] + b;
    }
  }

  /** One more step in front of a run. */
  lemma Before(w: World, e: Step, es: seq<Step>)
    requires Allowed(w, e) && CanRun(After(w, e), es)
    ensures CanRun(w, [e] + es) && Exec(w, [e] + es) == Exec(After(w, e), es)
  {
    assert ([e] + es)[1..] == es;
  }

  lemma RootEntries(es: seq<Dirent>)
    requires es == [Dirent(1, DOT), Dirent(1, DOTDOT), Dirent(2, "c")]
    ensures Find(es, "x", 0) == Hole(es, 0) == 3
  {
    assert Find(es, "x", 1) == Find(es, "x", 2) == Find(es, "x", 3) == 3;
    assert Hole(es, 1) == Hole(es, 2) == Hole(es, 3) == 3;
  }

  lemma Outside(w: World)
    requires w.ps == [Proc(4, Some(2))] && |w.t| == 5 && IsDir(w.t, 1) && IsDir(w.t, 3) && IsDir(w.t, 4)
    requires w.t[4].entries == [Dirent(4, DOT), Dirent(3, DOTDOT)]
    requires ParentOf(w.t, 3) == 1 && ParentOf(w.t, 1) == 1
    ensures Namei(w.t, w.ps[0], "..") == Some(3) && !Inside(w.t, 2, 3)
  {
    assert ElemEnd("..", 0) == ElemEnd("..", 1) == ElemEnd("..", 2) == 2;
    assert Elems("..", 2) == [];
    assert SkipSlashes("..", 0) == 0 && ".."[0..2] == "..";
    assert Elems("..", 0) == [".."];
    var es := w.t[4].entries;
    assert Find(es, DOTDOT, 0) == Find(es, DOTDOT, 1) == 1;
    assert Walk(w.t, Some(2), 3, []) == Some(3);
    forall n: nat
      ensures Ancestor(w.t, 3, n) != 2
    {
      if n > 0 {
        RootStays(w.t, n - 1);
      }
    }
  }
}
