/** The inode cache, and the path operations that take references to its entries
    (fs.c, sysfile.c, proc.c). An inode is held by its index in the cache. The
    directory tree is fixed; it is in one file system. */
module Inodes {
  import opened Common
  import opened DirTree
  import opened Paths
  import opened Container

  const NINODE := 50

  /** Live entries of the cache are for different inodes. */
  predicate Apart(inum: seq<nat>, refc: seq<nat>, j: nat, k: nat)
    requires |inum| == |refc| && j < |refc| && k < |refc|
  {
    refc[j] > 0 && refc[k] > 0 && inum[j] == inum[k] ==> j == k
  }

  ghost predicate Unique(inum: seq<nat>, refc: seq<nat>) {
    && |inum| == |refc| == NINODE
    && forall j: nat, k: nat | j < NINODE && k < NINODE :: Apart(inum, refc, j, k)
  }

  /** What was live is for the same inode still. */
  ghost predicate SameLive(inum: seq<nat>, refc: seq<nat>, inum': seq<nat>) {
    && |inum| == |refc| == |inum'| == NINODE
    && forall j | 0 <= j < NINODE && refc[j] > 0 :: inum'[j] == inum[j]
  }

  /** refc with one reference more to k. */
  function Plus(refc: seq<nat>, k: nat): seq<nat>
    requires k < |refc|
  {
    refc[k := refc[k] + 1]
  }

  /** An entry that is in use and belongs to inode i is the only one. */
  lemma OneEntry(inum: seq<nat>, refc: seq<nat>, j: nat, k: nat)
    requires Unique(inum, refc) && j < NINODE && k < NINODE && refc[j] > 0 && refc[k] > 0
    ensures j == k <==> inum[j] == inum[k]
  {
    assert Apart(inum, refc, j, k);
  }

  lemma RecycleUnique(inum: seq<nat>, refc: seq<nat>, k: nat, i: nat)
    requires Unique(inum, refc) && k < NINODE && (refc[k] == 0 || inum[k] == i)
    requires refc[k] == 0 ==> forall j | 0 <= j < NINODE && refc[j] > 0 :: inum[j] != i
    ensures Unique(inum[k := i], Plus(refc, k)) && SameLive(inum, refc, inum[k := i])
  {
    var inum', refc' := inum[k := i], Plus(refc, k);
    forall j: nat, l: nat | j < NINODE && l < NINODE
      ensures Apart(inum', refc', j, l)
    {
      assert Apart(inum, refc, j, l);
    }
  }

  lemma FewerUnique(inum: seq<nat>, refc: seq<nat>, refc': seq<nat>)
    requires Unique(inum, refc) && |refc'| == NINODE && forall j | 0 <= j < NINODE && refc'[j] > 0 :: refc[j] > 0
    ensures Unique(inum, refc')
  {
    forall j: nat, l: nat | j < NINODE && l < NINODE
      ensures Apart(inum, refc', j, l)
    {
      assert Apart(inum, refc, j, l);
    }
  }

  // ----- when the cache is full -----

  /** The inodes that are in the cache. */
  ghost function Cached(inum: seq<nat>, refc: seq<nat>): set<nat>
    requires |inum| == |refc|
  {
    CachedBelow(inum, refc, |refc|)
  }

  ghost function CachedBelow(inum: seq<nat>, refc: seq<nat>, n: nat): set<nat>
    requires |inum| == |refc| && n <= |refc|
  {
    if n == 0 then {} else CachedBelow(inum, refc, n - 1) + if refc[n - 1] > 0 then {inum[n - 1]} else {}
  }

  lemma {:induction false} InCached(inum: seq<nat>, refc: seq<nat>, n: nat, i: nat)
    requires |inum| == |refc| && n <= |refc|
    ensures i in CachedBelow(inum, refc, n) <==> exists j :: 0 <= j < n && refc[j] > 0 && inum[j] == i
  {
    if n > 0 {
      InCached(inum, refc, n - 1, i);
    }
  }

  /** There is an entry for inode i when those in `live` have theirs. */
  ghost predicate Room(live: set<nat>, i: nat) {
    |live + {i}| <= NINODE
  }

  lemma {:induction false} CountCached(inum: seq<nat>, refc: seq<nat>, n: nat)
    requires Unique(inum, refc) && n <= NINODE
    ensures |CachedBelow(inum, refc, n)| <= n
    ensures |CachedBelow(inum, refc, n)| == n <==> forall j | 0 <= j < n :: refc[j] > 0
  {
    if n > 0 {
      var last: nat := n - 1;
      CountCached(inum, refc, last);
      InCached(inum, refc, last, inum[last]);
      forall j: nat | j < last
        ensures refc[j] > 0 && refc[last] > 0 ==> inum[j] != inum[last]
      {
        assert Apart(inum, refc, j, last);
      }
      if refc[last] > 0 {
        assert inum[last] !in CachedBelow(inum, refc, last);
      } else {
        assert CachedBelow(inum, refc, n) == CachedBelow(inum, refc, last);
      }
    }
  }

  /** iget has an entry to give exactly if there is room. */
  lemma RoomIff(inum: seq<nat>, refc: seq<nat>, i: nat)
    requires Unique(inum, refc)
    ensures Room(Cached(inum, refc), i) <==>
              i in Cached(inum, refc) || exists j :: 0 <= j < NINODE && refc[j] == 0
  {
    CountCached(inum, refc, NINODE);
    assert (exists j :: 0 <= j < NINODE && refc[j] == 0) <==> |Cached(inum, refc)| < NINODE;
    if i in Cached(inum, refc) {
      assert Cached(inum, refc) + {i} == Cached(inum, refc);
    }
  }

  /** namex holds one entry and asks for the next: there is room for both at every step. */
  ghost predicate WalkFits(t: seq<Node>, newroot: Option<nat>, live: set<nat>, i: nat, names: seq<string>, parent: bool)
    decreases |names|
  {
    || names == []
    || !IsDir(t, i)
    || (parent && |names| == 1)
    || match Next(t, newroot, i, names[0])
       case None => true
       case Some(j) => Room(live + {i}, j) && WalkFits(t, newroot, live, j, names[1..], parent)
  }

  lemma FitsStep(t: seq<Node>, newroot: Option<nat>, live: set<nat>, i: nat, name: string, rest: seq<string>,
                 parent: bool)
    ensures WalkFits(t, newroot, live, i, [name] + rest, parent)
         == if !IsDir(t, i) || (parent && rest == []) then true
            else
              match Next(t, newroot, i, name)
              case None => true
              case Some(j) => Room(live + {i}, j) && WalkFits(t, newroot, live, j, rest, parent)
  {
    assert ([name] + rest)[1..] == rest;
  }

  /** The cache is large enough for a walk along the path. */
  ghost predicate NamexFits(t: seq<Node>, live: set<nat>, p: Proc, path: string, parent: bool) {
    Room(live, Start(p, path)) && WalkFits(t, p.newroot, live, Start(p, path), Elems(path, 0), parent)
  }

  /** Two free entries are enough for every path. */
  lemma {:induction false} TwoFreeFit(t: seq<Node>, newroot: Option<nat>, live: set<nat>, i: nat, names: seq<string>,
                                      parent: bool)
    requires |live| + 2 <= NINODE
    ensures Room(live, i) && WalkFits(t, newroot, live, i, names, parent)
    decreases |names|
  {
    if names != [] && Next(t, newroot, i, names[0]).Some? {
      TwoFreeFit(t, newroot, live, Next(t, newroot, i, names[0]).value, names[1..], parent);
    }
  }

  /** struct proc: its directory, and its root if it has one of its own. */
  class Process {
    var cwd: nat
    var newroot: nat
    var inNewroot: bool
  }

  class Icache {
    const t: seq<Node>
    var inum: seq<nat>
    var refc: seq<nat>

    /** At boot no entry is in use. */
    constructor (t: seq<Node>)
      ensures Valid() && this.t == t && refc == seq(NINODE, _ => 0)
    {
      this.t := t;
      inum, refc := seq(NINODE, _ => 0), seq(NINODE, _ => 0);
    }

    ghost predicate Valid()
      reads this
    {
      Unique(inum, refc)
    }

    /** p holds references to its directory and its root. */
    ghost predicate Holds(p: Process)
      reads this, p
    {
      && p.cwd < |refc| == |inum| && refc[p.cwd] > 0
      && (p.inNewroot ==>
            p.newroot < |refc| && refc[p.newroot] > 0 && (p.newroot == p.cwd ==> refc[p.cwd] > 1))
    }

    /** The inodes that p's entries are for. */
    ghost function View(p: Process): Proc
      requires Holds(p)
      reads this, p
    {
      Proc(inum[p.cwd], if p.inNewroot then Some(inum[p.newroot]) else None)
    }

    /** iget: an entry for inode i with one more reference. NINODE is the panic. */
    method Iget(i: nat) returns (k: nat)
      requires Valid()
      modifies this`inum, this`refc
      ensures Valid() && k <= NINODE
      ensures k < NINODE ==>
                inum[k] == i && refc == Plus(old(refc), k) && SameLive(old(inum), old(refc), inum)
      ensures k == NINODE ==> inum == old(inum) && refc == old(refc)
      ensures k == NINODE <==> !Room(Cached(old(inum), old(refc)), i)
    {
      RoomIff(inum, refc, i);
      InCached(inum, refc, NINODE, i);
      var empty: nat := NINODE;
      var j := 0;
      while j < NINODE
        invariant 0 <= j <= NINODE && empty <= NINODE && inum == old(inum) && refc == old(refc)
        invariant forall l | 0 <= l < j :: !(refc[l] > 0 && inum[l] == i)
        invariant if empty < NINODE then refc[empty] == 0 else forall l | 0 <= l < j :: refc[l] > 0
      {
        if refc[j] > 0 && inum[j] == i {
          RecycleUnique(inum, refc, j, i);
          assert inum[j := i] == inum;
          refc := refc[j := refc[j] + 1];
          return j;
        }
        if empty == NINODE && refc[j] == 0 {
          empty := j;
        }
        j := j + 1;
      }
      if empty == NINODE {
        return NINODE;
      }
      k := empty;
      RecycleUnique(inum, refc, k, i);
      inum, refc := inum[k := i], refc[k := 1];
    }

    /** idup */
    method Idup(k: nat)
      requires Valid() && k < NINODE && refc[k] > 0
      modifies this`refc
      ensures Valid() && refc == Plus(old(refc), k)
    {
      FewerUnique(inum, refc, Plus(refc, k));
      refc := refc[k := refc[k] + 1];
    }

    /** iput, where the inode has links. */
    method Iput(k: nat)
      requires Valid() && k < NINODE && refc[k] > 0
      modifies this`refc
      ensures Valid() && refc == old(refc)[k := old(refc)[k] - 1]
    {
      FewerUnique(inum, refc, refc[k := refc[k] - 1]);
      refc := refc[k := refc[k] - 1];
    }

    /** dirlookup in the directory of entry k: the entry of what it names, with a
        reference. */
    method Dirlookup(k: nat, name: string) returns (found: bool, n: nat)
      requires Valid() && k < NINODE && inum[k] < |t|
      modifies this`inum, this`refc
      ensures Valid() && n <= NINODE
      ensures found == (Find(t[old(inum)[k]].entries, name, 0) < |t[old(inum)[k]].entries|)
      ensures !found || n == NINODE ==> inum == old(inum) && refc == old(refc)
      ensures !found ==> n < NINODE
      ensures found ==> (n == NINODE <==>
                !Room(Cached(old(inum), old(refc)),
                      t[old(inum)[k]].entries[Find(t[old(inum)[k]].entries, name, 0)].inum))
      ensures found && n < NINODE ==>
                && inum[n] == t[old(inum)[k]].entries[Find(t[old(inum)[k]].entries, name, 0)].inum
                && refc == Plus(old(refc), n) && SameLive(old(inum), old(refc), inum)
    {
      var es := t[inum[k]].entries;
      var off := 0;
      while off < |es|
        invariant off <= |es| && Find(es, name, 0) == Find(es, name, off) && inum == old(inum) && refc == old(refc)
      {
        if es[off].inum != 0 && es[off].name == name {
          n := Iget(es[off].inum);
          return true, n;
        }
        off := off + 1;
      }
      return false, 0;
    }

    /** The references are those of refc0 and one to entry k. */
    ghost predicate OneMore(k: nat, inum0: seq<nat>, refc0: seq<nat>)
      reads this
    {
      && Valid() && |refc0| == NINODE && k < NINODE && refc == Plus(refc0, k)
      && SameLive(inum0, refc0, inum)
    }

    lemma CachedMore(k: nat, inum0: seq<nat>, refc0: seq<nat>)
      requires OneMore(k, inum0, refc0)
      ensures Cached(inum, refc) == Cached(inum0, refc0) + {inum[k]} && Room(Cached(inum, refc), inum[k])
    {
      InCached(inum, refc, NINODE, inum[k]);
      RoomIff(inum, refc, inum[k]);
      forall i: nat
        ensures i in Cached(inum, refc) <==> i in Cached(inum0, refc0) + {inum[k]}
      {
        InCached(inum, refc, NINODE, i);
        InCached(inum0, refc0, NINODE, i);
        assert forall j | 0 <= j < NINODE && refc0[j] > 0 :: refc[j] > 0 && inum[j] == inum0[j];
      }
    }

    /** iput of that one. */
    method Drop(k: nat, ghost inum0: seq<nat>, ghost refc0: seq<nat>)
      requires OneMore(k, inum0, refc0)
      modifies this`refc
      ensures Valid() && refc == refc0 && SameLive(inum0, refc0, inum)
    {
      Iput(k);
    }

    /** The inode that p may not leave by "..". */
    ghost function RootOf(p: Process, inum0: seq<nat>): Option<nat>
      requires p.inNewroot ==> p.newroot < |inum0|
      reads p
    {
      if p.inNewroot then Some(inum0[p.newroot]) else None
    }

    /** Moving on from entry k to what `name` leads to: the reference to k is given up
        for one to the next entry. */
    method Advance(p: Process, k: nat, name: string, ghost inum0: seq<nat>, ghost refc0: seq<nat>)
      returns (found: bool, n: nat)
      requires OneMore(k, inum0, refc0) && inum[k] < |t| && t[inum[k]].kind == Directory
      requires p.inNewroot ==> p.newroot < NINODE && refc0[p.newroot] > 0
      modifies this`inum, this`refc
      ensures Valid() && n <= NINODE && (found && n < NINODE ==> OneMore(n, inum0, refc0))
      ensures !found ==> n < NINODE && refc == refc0 && SameLive(inum0, refc0, inum)
      ensures n == NINODE <==>
                var j := Next(t, RootOf(p, inum0), old(inum)[k], name);
                j.Some? && !Room(Cached(inum0, refc0) + {old(inum)[k]}, j.value)
      ensures n < NINODE ==>
                Next(t, RootOf(p, inum0), old(inum)[k], name) == if found then Some(inum[n]) else None
    {
      CachedMore(k, inum0, refc0);
      if p.inNewroot {
        OneEntry(inum, refc, k, p.newroot);
      }
      if p.inNewroot && k == p.newroot && name == DOTDOT {
        Idup(k);
        found, n := true, k;
      } else {
        found, n := Dirlookup(k, name);
      }
      if n < NINODE {
        Iput(k);
      }
    }

    /** namex: the entry of the inode that the path leads to, or of the directory it is
        in, with one more reference; otherwise the references are as they were. It
        panics exactly if the cache has no room for the walk. */
    method Namex(p: Process, path: string, parent: bool) returns (ok: bool, k: nat, panic: bool)
      requires Valid() && Holds(p)
      modifies this`inum, this`refc
      ensures Valid()
      ensures panic <==> !NamexFits(t, Cached(old(inum), old(refc)), old(View(p)), path, parent)
      ensures !panic ==> Holds(p) && SameLive(old(inum), old(refc), inum) && k < NINODE
      ensures !panic && !ok ==> refc == old(refc)
      ensures !panic && ok ==> refc == Plus(old(refc), k)
      ensures !panic ==>
                (if parent then NameiParent(t, old(View(p)), path) else Namei(t, old(View(p)), path))
                == if ok then Some(inum[k]) else None
    {
      panic := false;
      if path != "" && path[0] == '/' {
        k := Iget(if p.inNewroot then inum[p.cwd] else ROOTINO);
        if k == NINODE {
          return false, 0, true;
        }
      } else {
        k := p.cwd;
        InCached(inum, refc, NINODE, inum[k]);
        RoomIff(inum, refc, inum[k]);
        Idup(k);
      }
      ok, k, panic := NamexLoop(p, path, parent, k, old(inum), old(refc));
    }

    /** What namex has come to: the panic exactly if the walk from i does not fit, and
        otherwise where the walk leads, with a reference if it leads anywhere. */
    ghost predicate Ended(root: Option<nat>, i: nat, es: seq<string>, parent: bool, inum0: seq<nat>, refc0: seq<nat>,
                          ok: bool, k: nat, panic: bool)
      reads this
    {
      && Valid() && |inum0| == |refc0| == NINODE
      && (panic <==> !WalkFits(t, root, Cached(inum0, refc0), i, es, parent))
      && (!panic ==>
            && k < NINODE
            && Goal(t, root, i, es, parent) == (if ok then Some(inum[k]) else None)
            && if ok then OneMore(k, inum0, refc0) else refc == refc0 && SameLive(inum0, refc0, inum))
    }

    /** One turn of the loop of namex at entry k: it goes on at entry n, or it ends. */
    method Turn(p: Process, k: nat, name: string, last: bool, parent: bool, ghost rest: seq<string>,
                ghost inum0: seq<nat>, ghost refc0: seq<nat>)
      returns (go: bool, ok: bool, n: nat, panic: bool)
      requires OneMore(k, inum0, refc0) && (last <==> rest == [])
      requires p.inNewroot ==> p.newroot < NINODE && refc0[p.newroot] > 0
      modifies this`inum, this`refc
      ensures go ==>
                var root, live, i := RootOf(p, inum0), Cached(inum0, refc0), old(inum)[k];
                && OneMore(n, inum0, refc0)
                && Goal(t, root, i, [name] + rest, parent) == Goal(t, root, inum[n], rest, parent)
                && WalkFits(t, root, live, i, [name] + rest, parent) == WalkFits(t, root, live, inum[n], rest, parent)
      ensures !go ==> Ended(RootOf(p, inum0), old(inum)[k], [name] + rest, parent, inum0, refc0, ok, n, panic)
    {
      GoalStep(t, RootOf(p, inum0), inum[k], name, rest, parent);
      FitsStep(t, RootOf(p, inum0), Cached(inum0, refc0), inum[k], name, rest, parent);
      if inum[k] >= |t| || t[inum[k]].kind != Directory {
        Drop(k, inum0, refc0);
        return false, false, k, false;
      }
      if parent && last {
        return false, true, k, false;
      }
      var found;
      found, n := Advance(p, k, name, inum0, refc0);
      go, ok, panic := found && n < NINODE, false, n == NINODE;
    }

    /** The loop of namex, from entry k0 on. */
    method NamexLoop(p: Process, path: string, parent: bool, k0: nat, ghost inum0: seq<nat>, ghost refc0: seq<nat>)
      returns (ok: bool, k: nat, panic: bool)
      requires OneMore(k0, inum0, refc0)
      requires p.inNewroot ==> p.newroot < NINODE && refc0[p.newroot] > 0
      modifies this`inum, this`refc
      ensures Ended(RootOf(p, inum0), old(inum)[k0], Elems(path, 0), parent, inum0, refc0, ok, k, panic)
    {
      ghost var root, es := RootOf(p, inum0), Elems(path, 0);
      ghost var goal, live := Goal(t, root, inum[k0], es, parent), Cached(inum0, refc0);
      ghost var fits := WalkFits(t, root, live, inum[k0], es, parent);
      k := k0;
      var i := 0;
      var more, name, j := Skipelem(path, 0);
      while more
        invariant more <==> es != []
        invariant more ==> i < j <= |path| && es == [name] + Elems(path, j)
        invariant more ==> (j == |path| <==> Elems(path, j) == [])
        invariant OneMore(k, inum0, refc0)
        invariant goal == Goal(t, root, inum[k], es, parent)
        invariant fits == WalkFits(t, root, live, inum[k], es, parent)
        decreases |path| - i
      {
        ghost var rest := Elems(path, j);
        var go;
        go, ok, k, panic := Turn(p, k, name, j == |path|, parent, rest, inum0, refc0);
        if !go {
          return;
        }
        i, es := j, rest;
        more, name, j := Skipelem(path, i);
      }
      ok, panic := !parent, false;
      if parent {
        Drop(k, inum0, refc0);
      }
    }

    /** chdir: the process gives up the reference to its directory for one to the new. */
    method Chdir(p: Process, path: string) returns (ok: bool, panic: bool)
      requires Valid() && Holds(p)
      modifies this`inum, this`refc, p`cwd
      ensures Valid()
      ensures panic <==> !NamexFits(t, Cached(old(inum), old(refc)), old(View(p)), path, false)
      ensures !panic ==> Holds(p) && SameLive(old(inum), old(refc), inum) && p.cwd < NINODE
      ensures !panic && !ok ==> refc == old(refc) && p.cwd == old(p.cwd)
      ensures !panic && ok ==>
                Plus(refc, old(p.cwd)) == Plus(old(refc), p.cwd) && Namei(t, old(View(p)), path) == Some(inum[p.cwd])
      ensures !panic ==> Apply(t, [old(View(p))], Call.Chdir(0, path)) == [View(p)]
      ensures !panic ==> (ok <==> exists i :: Namei(t, old(View(p)), path) == Some(i) && IsDir(t, i))
    {
      ghost var v := View(p);
      var k;
      ok, k, panic := Namex(p, path, false);
      if panic || !ok {
        return;
      }
      if inum[k] >= |t| || t[inum[k]].kind != Directory {
        Iput(k);
        assert refc == old(refc);
        return false, false;
      }
      Iput(p.cwd);
      p.cwd := k;
    }

    /** The part of fork that copies the parent's place in the tree; `copied` says whether
        copyuvm succeeds in between. When it does not, the reference to the root that was
        taken before stays behind: references are as they were exactly if the parent is
        in no container. */
    method ForkPlace(p: Process, np: Process, copied: bool) returns (ok: bool)
      requires Valid() && Holds(p) && p != np
      modifies this`refc, np
      ensures Valid() && Holds(p) && View(p) == old(View(p)) && ok == copied
      ensures ok ==> Holds(np) && View(np) == View(p)
      ensures ok ==> refc == if p.inNewroot then Plus(Plus(old(refc), p.newroot), p.cwd) else Plus(old(refc), p.cwd)
      ensures !ok ==> refc == if p.inNewroot then Plus(old(refc), p.newroot) else old(refc)
      ensures !ok ==> (refc == old(refc) <==> !p.inNewroot)
    {
      np.inNewroot := p.inNewroot;
      if p.inNewroot {
        Idup(p.newroot);
        np.newroot := p.newroot;
      } else {
        np.newroot := 0;
      }
      if !copied {
        assert p.inNewroot ==> refc[p.newroot] != old(refc)[p.newroot];
        return false;
      }
      Idup(p.cwd);
      np.cwd := p.cwd;
      ok := true;
    }

    /** What exit gives back: the directory, and not the root. All references that fork
        has taken for the process are back exactly if it is in no container. */
    method ExitPlace(p: Process)
      requires Valid() && Holds(p)
      modifies this`refc
      ensures Valid() && Plus(refc, p.cwd) == old(refc)
      ensures !p.inNewroot <==>
                (if p.inNewroot then Plus(Plus(refc, p.newroot), p.cwd) else Plus(refc, p.cwd)) == old(refc)
    {
      Iput(p.cwd);
      assert Plus(refc, p.cwd) == old(refc);
      if p.inNewroot {
        var both := Plus(Plus(refc, p.newroot), p.cwd);
        assert both[p.newroot] != old(refc)[p.newroot];
      }
    }
  }
}
