/** Path walking under a container root, over a fixed directory tree (fs.c, proc.c). */
module Container {
  import opened Common
  import opened DirNames
  import opened DirTree
  import opened Paths

  /** What a process knows of the tree: inode numbers of its directory and of its
      root, if it has been given one. */
  datatype Proc = Proc(cwd: nat, newroot: Option<nat>)

  /** One turn of namex: the inode that `name` leads to from i. */
  function Next(t: seq<Node>, newroot: Option<nat>, i: nat, name: string): Option<nat> {
    if i >= |t| || t[i].kind != Directory then None
    else if newroot == Some(i) && name == DOTDOT then Some(i)
    else
      var k := Find(t[i].entries, name, 0);
      if k == |t[i].entries| then None else Some(t[i].entries[k].inum)
  }

  function Walk(t: seq<Node>, newroot: Option<nat>, i: nat, names: seq<string>): Option<nat>
    decreases |names|
  {
    if names == [] then Some(i)
    else
      match Next(t, newroot, i, names[0])
      case None => None
      case Some(j) => Walk(t, newroot, j, names[1..])
  }

  /** Walking stops at the directory of the last name. */
  function WalkParent(t: seq<Node>, newroot: Option<nat>, i: nat, names: seq<string>): Option<nat>
    decreases |names|
  {
    if names == [] || i >= |t| || t[i].kind != Directory then None
    else if |names| == 1 then Some(i)
    else
      match Next(t, newroot, i, names[0])
      case None => None
      case Some(j) => WalkParent(t, newroot, j, names[1..])
  }

  /** What namex looks for. */
  function Goal(t: seq<Node>, newroot: Option<nat>, i: nat, names: seq<string>, parent: bool): Option<nat> {
    if parent then WalkParent(t, newroot, i, names) else Walk(t, newroot, i, names)
  }

  lemma GoalStep(t: seq<Node>, newroot: Option<nat>, i: nat, name: string, rest: seq<string>, parent: bool)
    ensures Goal(t, newroot, i, [name] + rest, parent)
         == if !IsDir(t, i) then None
            else if parent && rest == [] then Some(i)
            else
              match Next(t, newroot, i, name)
              case None => None
              case Some(j) => Goal(t, newroot, j, rest, parent)
  {
    assert ([name] + rest)[1..] == rest;
  }

  /** Where namex starts: in a container an absolute path starts at cwd too. */
  function Start(p: Proc, path: string): nat {
    if p.newroot == None && path != "" && path[0] == '/' then ROOTINO else p.cwd
  }

  function Namei(t: seq<Node>, p: Proc, path: string): Option<nat> {
    Goal(t, p.newroot, Start(p, path), Elems(path, 0), false)
  }

  function NameiParent(t: seq<Node>, p: Proc, path: string): Option<nat> {
    Goal(t, p.newroot, Start(p, path), Elems(path, 0), true)
  }

  // ----- what a path names -----

  /** In directory d the name leads to inode j. */
  ghost predicate Leads(t: seq<Node>, d: nat, name: string, j: nat) {
    IsDir(t, d) && Points(t[d].entries, name, j)
  }

  /** ".." at the container root stays there. */
  ghost predicate Goes(t: seq<Node>, newroot: Option<nat>, d: nat, name: string, j: nat) {
    if newroot == Some(d) && name == DOTDOT then IsDir(t, d) && j == d else Leads(t, d, name, j)
  }

  /** The inodes that a walk through these names visits, the first and the last included. */
  ghost predicate Chain(t: seq<Node>, newroot: Option<nat>, vs: seq<nat>, names: seq<string>) {
    |vs| == |names| + 1 && forall k: nat | k < |names| :: Goes(t, newroot, vs[k], names[k], vs[k + 1])
  }

  ghost predicate ChainTo(t: seq<Node>, newroot: Option<nat>, i: nat, names: seq<string>, j: nat) {
    exists vs: seq<nat> :: Chain(t, newroot, vs, names) && vs[0] == i && vs[|names|] == j
  }

  lemma NextGoes(t: seq<Node>, newroot: Option<nat>, i: nat, name: string, j: nat)
    ensures Next(t, newroot, i, name) == Some(j) <==> Goes(t, newroot, i, name, j)
  {
    if IsDir(t, i) {
      PointsIff(t[i].entries, name, j);
    }
  }

  lemma {:induction false} WalkIff(t: seq<Node>, newroot: Option<nat>, i: nat, names: seq<string>, j: nat)
    ensures Walk(t, newroot, i, names) == Some(j) <==> ChainTo(t, newroot, i, names, j)
    decreases |names|
  {
    if names == [] {
      assert Chain(t, newroot, [i], names);
    } else {
      if Walk(t, newroot, i, names) == Some(j) {
        var n := Next(t, newroot, i, names[0]).value;
        NextGoes(t, newroot, i, names[0], n);
        WalkIff(t, newroot, n, names[1..], j);
        var vs :| Chain(t, newroot, vs, names[1..]) && vs[0] == n && vs[|names| - 1] == j;
        ChainFront(t, newroot, i, vs, names);
      }
      if ChainTo(t, newroot, i, names, j) {
        var vs :| Chain(t, newroot, vs, names) && vs[0] == i && vs[|names|] == j;
        NextGoes(t, newroot, i, names[0], vs[1]);
        ChainRest(t, newroot, vs, names);
        WalkIff(t, newroot, vs[1], names[1..], j);
      }
    }
  }

  lemma ChainFront(t: seq<Node>, newroot: Option<nat>, i: nat, vs: seq<nat>, names: seq<string>)
    requires names != [] && Chain(t, newroot, vs, names[1..]) && Goes(t, newroot, i, names[0], vs[0])
    ensures Chain(t, newroot, [i] + vs, names)
  {
    forall k: nat | k < |names|
      ensures Goes(t, newroot, ([i] + vs)[k], names[k], ([i] + vs)[k + 1])
    {
      assert k > 0 ==> names[k] == names[1..][k - 1];
    }
  }

  lemma ChainRest(t: seq<Node>, newroot: Option<nat>, vs: seq<nat>, names: seq<string>)
    requires names != [] && Chain(t, newroot, vs, names)
    ensures Chain(t, newroot, vs[1..], names[1..])
  {
    forall k: nat | k < |names| - 1
      ensures Goes(t, newroot, vs[1..][k], names[1..][k], vs[1..][k + 1])
    {
      assert Goes(t, newroot, vs[k + 1], names[k + 1], vs[k + 2]);
    }
  }

  /** Stopping early is walking all but the last name, to a directory. */
  lemma {:induction false} ParentWalk(t: seq<Node>, newroot: Option<nat>, i: nat, names: seq<string>)
    requires names != []
    ensures WalkParent(t, newroot, i, names)
         == match Walk(t, newroot, i, names[..|names| - 1])
            case None => None
            case Some(d) => if IsDir(t, d) then Some(d) else None
    decreases |names|
  {
    if |names| > 1 {
      assert names[..|names| - 1][0] == names[0];
      assert names[..|names| - 1][1..] == names[1..][..|names| - 2];
      if Next(t, newroot, i, names[0]).Some? {
        ParentWalk(t, newroot, Next(t, newroot, i, names[0]).value, names[1..]);
      }
    }
  }

  /** namei finds exactly the inode at the end of the path's chain of entries. The chain
      starts at the root of the file system for an absolute path of an ordinary process,
      and at the current directory for every other path. */
  lemma NameiIff(t: seq<Node>, p: Proc, path: string, names: seq<string>, j: nat)
    requires Spells(path, 0, names)
    ensures p.newroot.None? && path != "" && path[0] == '/' ==>
              (Namei(t, p, path) == Some(j) <==> ChainTo(t, None, ROOTINO, Cut(names), j))
    ensures p.newroot.Some? || path == "" || path[0] != '/' ==>
              (Namei(t, p, path) == Some(j) <==> ChainTo(t, p.newroot, p.cwd, Cut(names), j))
  {
    SpelledElems(path, 0, names);
    WalkIff(t, p.newroot, Start(p, path), Cut(names), j);
  }

  /** nameiparent finds the directory that the last name is to be looked up in. */
  lemma NameiParentIff(t: seq<Node>, p: Proc, path: string, names: seq<string>, d: nat)
    requires Spells(path, 0, names)
    ensures names == [] ==> NameiParent(t, p, path) == None
    ensures names != [] && p.newroot.None? && path[0] == '/' ==>
              (NameiParent(t, p, path) == Some(d) <==>
               IsDir(t, d) && ChainTo(t, None, ROOTINO, Cut(names[..|names| - 1]), d))
    ensures names != [] && (p.newroot.Some? || path[0] != '/') ==>
              (NameiParent(t, p, path) == Some(d) <==>
               IsDir(t, d) && ChainTo(t, p.newroot, p.cwd, Cut(names[..|names| - 1]), d))
  {
    SpelledElems(path, 0, names);
    if names != [] {
      ParentWalk(t, p.newroot, Start(p, path), Cut(names));
      assert Cut(names)[..|names| - 1] == Cut(names[..|names| - 1]);
      WalkIff(t, p.newroot, Start(p, path), Cut(names[..|names| - 1]), d);
    }
  }

  /** To an ordinary process an absolute path means the same wherever it is. */
  lemma AbsolutePath(t: seq<Node>, path: string, c: nat, d: nat)
    requires path != "" && path[0] == '/'
    ensures Namei(t, Proc(c, None), path) == Namei(t, Proc(d, None), path)
    ensures NameiParent(t, Proc(c, None), path) == NameiParent(t, Proc(d, None), path)
  {
    var names := EveryPathSpells(path, 0);
    SpelledElems(path, 0, names);
  }

  // ----- staying inside -----

  /** "." and ".." come first, and a directory's ".." names the directory it is in. */
  ghost predicate Nested(t: seq<Node>) {
    forall d: nat | IsDir(t, d) :: NestedAt(t, d)
  }

  ghost predicate NestedAt(t: seq<Node>, d: nat)
    requires d < |t|
  {
    var es := t[d].entries;
    && |es| >= 2 && es[0] == Dirent(d, DOT) && es[1].inum != 0 && es[1].name == DOTDOT
    && forall k: nat | 2 <= k < |es| :: es[k].inum != 0 && IsDir(t, es[k].inum) ==> ParentOf(t, es[k].inum) == d
  }

  /** Trees kept by create, link and unlink are of this kind. */
  lemma TreesAreNested(t: seq<Node>, s: Shape)
    requires Inv(t, s)
    ensures Nested(t)
  {
    forall d: nat | IsDir(t, d)
      ensures NestedAt(t, d)
    {
      assert GoodDir(t, d);
      forall k: nat | 2 <= k < |t[d].entries| && t[d].entries[k].inum != 0 && IsDir(t, t[d].entries[k].inum)
        ensures ParentOf(t, t[d].entries[k].inum) == d
      {
        assert GoodSlot(t, d, k);
        assert Only(t, s, d, k);
      }
    }
  }

  /** Directory d is `root` or below it. */
  ghost predicate Below(t: seq<Node>, root: nat, d: nat) {
    IsDir(t, d) && exists n: nat :: Ancestor(t, d, n) == root
  }

  /** Inode i is a directory below `root`, or is named in one. */
  ghost predicate Inside(t: seq<Node>, root: nat, i: nat) {
    if IsDir(t, i) then Below(t, root, i)
    else exists d: nat, k: nat :: Below(t, root, d) && Names(t, d, k, i)
  }

  ghost predicate Names(t: seq<Node>, d: nat, k: nat, i: nat) {
    d < |t| && k < |t[d].entries| && t[d].entries[k].inum == i && i != 0
  }

  /** ".." leads to a directory, if it leads anywhere inside. */
  lemma BelowParent(t: seq<Node>, root: nat, d: nat)
    requires IsDir(t, root) && Below(t, root, d) && d != root
    ensures exists n: nat :: Ancestor(t, ParentOf(t, d), n) == root
  {
    var n: nat :| Ancestor(t, d, n) == root;
    assert Ancestor(t, d, n) == Ancestor(t, ParentOf(t, d), n - 1);
  }

  lemma BelowChild(t: seq<Node>, root: nat, d: nat, x: nat)
    requires Below(t, root, d) && IsDir(t, x) && ParentOf(t, x) == d
    ensures Below(t, root, x)
  {
    var n: nat :| Ancestor(t, d, n) == root;
    assert Ancestor(t, x, n + 1) == Ancestor(t, d, n);
  }

  lemma NextInside(t: seq<Node>, root: nat, i: nat, name: string)
    requires Nested(t) && IsDir(t, root) && Below(t, root, i)
    requires Next(t, Some(root), i, name).Some?
    ensures Inside(t, root, Next(t, Some(root), i, name).value)
  {
    var j := Next(t, Some(root), i, name).value;
    if i == root && name == DOTDOT {
    } else {
      var k := Find(t[i].entries, name, 0);
      assert NestedAt(t, i) && Names(t, i, k, j);
      if IsDir(t, j) {
        if k == 1 {
          BelowParent(t, root, i);
        } else if k >= 2 {
          BelowChild(t, root, i, j);
        }
      }
    }
  }

  /** Whatever the path, a walk that starts inside the container ends inside. */
  lemma {:induction false} WalkInside(t: seq<Node>, root: nat, i: nat, names: seq<string>)
    requires Nested(t) && IsDir(t, root) && Inside(t, root, i)
    ensures Walk(t, Some(root), i, names).Some? ==> Inside(t, root, Walk(t, Some(root), i, names).value)
    ensures WalkParent(t, Some(root), i, names).Some? ==> Below(t, root, WalkParent(t, Some(root), i, names).value)
    decreases |names|
  {
    if names != [] && Next(t, Some(root), i, names[0]).Some? {
      assert IsDir(t, i) by {
        assert Inside(t, root, i);
      }
      NextInside(t, root, i, names[0]);
      WalkInside(t, root, Next(t, Some(root), i, names[0]).value, names[1..]);
    }
  }

  // ----- runs -----

  datatype Call = Chdir(who: nat, path: string) | Fork(who: nat) | Setroot(who: nat, path: string, len: int)

  const MAXPATH := 256

  /** chdir, fork and setroot by one of the processes; a call that fails changes nothing. */
  function Apply(t: seq<Node>, ps: seq<Proc>, c: Call): seq<Proc>
    requires c.who < |ps|
  {
    var p := ps[c.who];
    match c
    case Chdir(w, path) =>
      (match Namei(t, p, path)
       case None => ps
       case Some(i) => if IsDir(t, i) then ps[w := p.(cwd := i)] else ps)
    case Fork(w) => ps + [p]
    case Setroot(w, path, len) =>
      if p.newroot != None || path == "" || path[0] != '/' || len >= MAXPATH then ps
      else
        match Namei(t, p, path)
        case None => ps
        case Some(i) => if IsDir(t, i) then ps[w := p.(newroot := Some(i))] else ps
  }

  function Run(t: seq<Node>, ps: seq<Proc>, cs: seq<Call>): seq<Proc>
    decreases |cs|
  {
    if cs == [] then ps
    else if cs[0].who < |ps| then Run(t, Apply(t, ps, cs[0]), cs[1..])
    else Run(t, ps, cs[1..])
  }

  /** setroot gives a process that has no root exactly the directory that the absolute path
      names, and changes nothing else. */
  lemma SetrootIff(t: seq<Node>, ps: seq<Proc>, w: nat, path: string, len: int, names: seq<string>, i: nat)
    requires w < |ps| && ps[w].newroot == None && Spells(path, 0, names)
    ensures
      var ps' := Apply(t, ps, Setroot(w, path, len));
      && |ps'| == |ps| && ps' == ps[w := Proc(ps[w].cwd, ps'[w].newroot)]
      && (ps'[w].newroot == Some(i) <==>
          path != "" && path[0] == '/' && len < 256 && IsDir(t, i) && ChainTo(t, None, ROOTINO, Cut(names), i))
  {
    NameiIff(t, ps[w], path, names, i);
    if Namei(t, ps[w], path).Some? {
      NameiIff(t, ps[w], path, names, Namei(t, ps[w], path).value);
    }
  }

  /** chdir takes a process exactly to the directory that the path names. */
  lemma ChdirIff(t: seq<Node>, ps: seq<Proc>, w: nat, path: string, names: seq<string>, i: nat)
    requires w < |ps| && Spells(path, 0, names) && i != ps[w].cwd
    ensures
      var ps', p := Apply(t, ps, Chdir(w, path)), ps[w];
      && |ps'| == |ps| && ps' == ps[w := Proc(ps'[w].cwd, p.newroot)]
      && (ps'[w].cwd == i <==>
          && IsDir(t, i)
          && if p.newroot.None? && path != "" && path[0] == '/' then ChainTo(t, None, ROOTINO, Cut(names), i)
             else ChainTo(t, p.newroot, p.cwd, Cut(names), i))
  {
    NameiIff(t, ps[w], path, names, i);
  }

  /** Over every run a process that has a root keeps it. */
  lemma {:induction false} KeepsRoot(t: seq<Node>, ps: seq<Proc>, cs: seq<Call>, q: nat)
    requires q < |ps| && ps[q].newroot.Some?
    ensures q < |Run(t, ps, cs)| && Run(t, ps, cs)[q].newroot == ps[q].newroot
    decreases |cs|
  {
    if cs != [] {
      KeepsRoot(t, if cs[0].who < |ps| then Apply(t, ps, cs[0]) else ps, cs[1..], q);
    }
  }

  /** p is in the container with this root. */
  ghost predicate Confined(t: seq<Node>, root: nat, p: Proc) {
    p.newroot == Some(root) && Below(t, root, p.cwd)
  }

  /** Everything a confined process can name is inside. */
  lemma ConfinedNames(t: seq<Node>, root: nat, p: Proc, path: string)
    requires Nested(t) && IsDir(t, root) && Confined(t, root, p)
    ensures Namei(t, p, path).Some? ==> Inside(t, root, Namei(t, p, path).value)
    ensures NameiParent(t, p, path).Some? ==> Below(t, root, NameiParent(t, p, path).value)
  {
    WalkInside(t, root, p.cwd, Elems(path, 0));
  }

  /** Whatever is called, a confined process stays confined, and so is each process
      that a confined one has forked. */
  lemma {:induction false} RunConfined(t: seq<Node>, root: nat, ps: seq<Proc>, cs: seq<Call>, conf: set<nat>)
    requires Nested(t) && IsDir(t, root)
    requires forall w <- conf :: w < |ps| && Confined(t, root, ps[w])
    ensures |ps| <= |Run(t, ps, cs)|
    ensures forall w <- conf :: w < |Run(t, ps, cs)| && Confined(t, root, Run(t, ps, cs)[w])
    decreases |cs|
  {
    if cs != [] {
      if cs[0].who < |ps| {
        if cs[0].who in conf && cs[0].Chdir? {
          ConfinedNames(t, root, ps[cs[0].who], cs[0].path);
        }
        RunConfined(t, root, Apply(t, ps, cs[0]), cs[1..], conf);
      } else {
        RunConfined(t, root, ps, cs[1..], conf);
      }
    }
  }

  /** The child of a confined process is confined from the start. */
  lemma ForkConfined(t: seq<Node>, root: nat, ps: seq<Proc>, w: nat, cs: seq<Call>)
    requires Nested(t) && IsDir(t, root) && w < |ps| && Confined(t, root, ps[w])
    ensures |ps| < |Run(t, ps, [Fork(w)] + cs)| && Confined(t, root, Run(t, ps, [Fork(w)] + cs)[|ps|])
  {
    var ps' := ps + [ps[w]];
    assert ([Fork(w)] + cs)[1..] == cs;
    RunConfined(t, root, ps', cs, {|ps|});
  }

  /** setroot by itself keeps a process from naming anything outside exactly if its
      directory is below the new root already. */
  lemma SetrootConfines(t: seq<Node>, ps: seq<Proc>, w: nat, path: string, len: int, i: nat)
    requires Nested(t) && w < |ps| && IsDir(t, ps[w].cwd)
    requires ps[w].newroot == None && path != "" && path[0] == '/' && len < MAXPATH
    requires Namei(t, ps[w], path) == Some(i) && IsDir(t, i)
    ensures
      var p := Apply(t, ps, Setroot(w, path, len))[w];
      && p == ps[w].(newroot := Some(i))
      && ((forall x | Namei(t, p, x).Some? :: Inside(t, i, Namei(t, p, x).value)) <==> Below(t, i, ps[w].cwd))
  {
    var p := ps[w].(newroot := Some(i));
    if Below(t, i, p.cwd) {
      forall x | Namei(t, p, x).Some?
        ensures Inside(t, i, Namei(t, p, x).value)
      {
        ConfinedNames(t, i, p, x);
      }
    } else {
      assert Elems("", 0) == [];
      assert Namei(t, p, "") == Some(p.cwd) && !Inside(t, i, p.cwd);
    }
  }

  /** A process in the system's root that sets another one is not confined: its "/"
      is still the system's root. */
  lemma SetrootNeedsChdir(t: seq<Node>, i: nat)
    requires Nested(t) && IsDir(t, ROOTINO) && ParentOf(t, ROOTINO) == ROOTINO && IsDir(t, i) && i != ROOTINO
    ensures Namei(t, Proc(ROOTINO, Some(i)), "/") == Some(ROOTINO) && !Inside(t, i, ROOTINO)
  {
    assert SkipSlashes("/", 0) == SkipSlashes("/", 1) == 1;
    assert Elems("/", 0) == [];
    forall n: nat
      ensures Ancestor(t, ROOTINO, n) == ROOTINO
    {
      RootStays(t, n);
    }
  }

  lemma {:induction false} RootStays(t: seq<Node>, n: nat)
    requires IsDir(t, ROOTINO) && ParentOf(t, ROOTINO) == ROOTINO
    ensures Ancestor(t, ROOTINO, n) == ROOTINO
  {
    if n > 0 {
      RootStays(t, n - 1);
    }
  }
}
