/** What create, link and unlink do to the names in a directory and to the inodes, without
    regard to the slots that the entries are in (sysfile.c). */
module DirNames {
  import opened DirTree

  /** No entry before slot k has this name. */
  ghost predicate Unnamed(es: seq<Dirent>, k: nat, name: string)
    requires k <= |es|
  {
    forall m: nat | m < k :: es[m].inum == 0 || es[m].name != name
  }

  ghost predicate NamedAt(es: seq<Dirent>, k: nat, name: string, j: nat) {
    k < |es| && es[k] == Dirent(j, name) && j != 0 && Unnamed(es, k, name)
  }

  /** The name leads to inode j: the first entry that has it is for j. */
  ghost predicate Points(es: seq<Dirent>, name: string, j: nat) {
    exists k: nat :: NamedAt(es, k, name, j)
  }

  ghost predicate Nowhere(es: seq<Dirent>, name: string) {
    forall j: nat :: !Points(es, name, j)
  }

  /** It leads to one inode, the one that dirlookup finds, or nowhere. */
  lemma PointsIff(es: seq<Dirent>, name: string, j: nat)
    ensures Points(es, name, j) <==> Find(es, name, 0) < |es| && es[Find(es, name, 0)].inum == j
  {
    var k := Find(es, name, 0);
    if k < |es| && es[k].inum == j {
      assert NamedAt(es, k, name, j);
    }
    if m: nat :| NamedAt(es, m, name, j) {
      assert m == k;
    }
  }

  /** Every name but this one leads where it led. */
  ghost predicate ElseSame(es: seq<Dirent>, es': seq<Dirent>, name: string) {
    forall x: string, j: nat | x != name :: Points(es', x, j) <==> Points(es, x, j)
  }

  // ----- adding and removing a name -----

  lemma AddedName(es: seq<Dirent>, name: string, i: nat)
    requires Find(es, name, 0) == |es| && i != 0
    ensures Points(WithEntry(es, Dirent(i, name)), name, i)
    ensures ElseSame(es, WithEntry(es, Dirent(i, name)), name)
  {
    var es', h := WithEntry(es, Dirent(i, name)), Hole(es, 0);
    assert NamedAt(es', h, name, i);
    forall x: string, j: nat | x != name
      ensures Points(es', x, j) <==> Points(es, x, j)
    {
      if k: nat :| NamedAt(es, k, x, j) {
        assert NamedAt(es', k, x, j);
      }
      if k: nat :| NamedAt(es', k, x, j) {
        assert forall m: nat | m < k && m < |es| :: es[m] == es'[m] || es[m].inum == 0;
        assert NamedAt(es, k, x, j);
      }
    }
  }

  /** An entry cleared, in a directory where no name is twice. */
  lemma RemovedName(es: seq<Dirent>, k: nat)
    requires k < |es| && es[k].inum != 0 && forall j: nat, m: nat | j < m < |es| :: Differ(es, j, m)
    ensures Nowhere(es[k := Dirent(0, "")], es[k].name)
    ensures ElseSame(es, es[k := Dirent(0, "")], es[k].name)
  {
    var es', name := es[k := Dirent(0, "")], es[k].name;
    forall m: nat, j: nat
      ensures !NamedAt(es', m, name, j)
    {
      if m < k {
        assert Differ(es, m, k);
      } else if k < m < |es| {
        assert Differ(es, k, m);
      }
    }
    forall x: string, j: nat | x != name
      ensures Points(es', x, j) <==> Points(es, x, j)
    {
      if m: nat :| NamedAt(es, m, x, j) {
        assert NamedAt(es', m, x, j);
      }
      if m: nat :| NamedAt(es', m, x, j) {
        assert forall l: nat | l < m :: es[l] == es'[l] || l == k;
        assert NamedAt(es, m, x, j);
      }
    }
  }

  // ----- the three system calls -----

  ghost predicate OthersSame(t: seq<Node>, t': seq<Node>, i: nat, dp: nat) {
    |t'| == |t| && forall x: nat | x < |t| && x != i && x != dp :: t'[x] == t[x]
  }

  /** A new directory has its two dots, any other inode no names. */
  ghost predicate FirstNames(es: seq<Dirent>, kind: Kind, i: nat, dp: nat) {
    forall x: string, j: nat ::
      Points(es, x, j) <==> kind == Directory && ((x == DOT && j == i) || (x == DOTDOT && j == dp))
  }

  /** Inode i is new, of this kind, with one link, which is `name` in directory dp. */
  ghost predicate Makes(t: seq<Node>, dp: nat, name: string, kind: Kind, i: nat, t': seq<Node>) {
    && i < |t| && dp < |t| && i != dp && OthersSame(t, t', i, dp)
    && t[i].kind == Unused
    && t'[i].kind == kind && t'[i].nlink == 1 && FirstNames(t'[i].entries, kind, i, dp)
    && t'[dp].kind == t[dp].kind && t'[dp].nlink == (if kind == Directory then Inc(t[dp].nlink) else t[dp].nlink)
    && Nowhere(t[dp].entries, name) && Points(t'[dp].entries, name, i)
    && ElseSame(t[dp].entries, t'[dp].entries, name)
  }

  lemma FirstNamed(kind: Kind, i: nat, dp: nat)
    requires 0 < i && 0 < dp
    ensures FirstNames(FirstEntries(kind, i, dp), kind, i, dp)
  {
    var es := FirstEntries(kind, i, dp);
    if kind == Directory {
      assert NamedAt(es, 0, DOT, i) && NamedAt(es, 1, DOTDOT, dp);
      assert forall k: nat, x: string, j: nat | NamedAt(es, k, x, j) :: k == 0 || k == 1;
    }
  }

  lemma NoSuchName(es: seq<Dirent>, name: string)
    ensures Nowhere(es, name) <==> Find(es, name, 0) == |es|
  {
    forall j: nat
      ensures Points(es, name, j) <==> Find(es, name, 0) < |es| && es[Find(es, name, 0)].inum == j
    {
      PointsIff(es, name, j);
    }
    assert Find(es, name, 0) < |es| ==> Points(es, name, es[Find(es, name, 0)].inum);
  }

  lemma CreatedMakes(t: seq<Node>, dp: nat, name: string, kind: Kind, i: nat)
    requires Creates(t, dp, name, kind, i) && 0 < dp
    ensures Makes(t, dp, name, kind, i, Created(t, dp, name, kind, i))
  {
    FirstNamed(kind, i, dp);
    NoSuchName(t[dp].entries, name);
    AddedName(t[dp].entries, name, i);
  }

  /** `name` in directory dp is one more link to inode i, of which nothing else changes. */
  ghost predicate Joins(t: seq<Node>, dp: nat, name: string, i: nat, t': seq<Node>) {
    && i < |t| && dp < |t| && i != dp && OthersSame(t, t', i, dp)
    && t'[i] == t[i].(nlink := Inc(t[i].nlink))
    && t'[dp].kind == t[dp].kind && t'[dp].nlink == t[dp].nlink
    && Nowhere(t[dp].entries, name) && Points(t'[dp].entries, name, i)
    && ElseSame(t[dp].entries, t'[dp].entries, name)
  }

  lemma LinkedJoins(t: seq<Node>, dp: nat, name: string, i: nat)
    requires Links(t, dp, name, i)
    ensures Joins(t, dp, name, i, Linked(t, dp, name, i))
  {
    NoSuchName(t[dp].entries, name);
    AddedName(t[dp].entries, name, i);
  }

  /** `name` in directory dp, which led to inode i, leads nowhere; i has one link less, and
      is free if that was the last and nobody holds it. */
  ghost predicate Parts(t: seq<Node>, dp: nat, name: string, i: nat, held: bool, t': seq<Node>) {
    && i < |t| && dp < |t| && i != dp && OthersSame(t, t', i, dp)
    && t[i].nlink > 0
    && t'[i] == (if t[i].nlink == 1 && !held then Node(Unused, 0, []) else t[i].(nlink := t[i].nlink - 1))
    && t'[dp].kind == t[dp].kind
    && t'[dp].nlink == (if t[i].kind == Directory then Dec(t[dp].nlink) else t[dp].nlink)
    && Points(t[dp].entries, name, i) && Nowhere(t'[dp].entries, name)
    && ElseSame(t[dp].entries, t'[dp].entries, name)
  }

  lemma UnlinkedParts(t: seq<Node>, s: Shape, dp: nat, k: nat, i: nat, t1: seq<Node>, held: bool)
    requires UnlinkStep(t, s, dp, k, i, t1)
    ensures Parts(t, dp, t[dp].entries[k].name, i, held, if t1[i].nlink == 0 && !held then Freed(t1, i) else t1)
  {
    UnlinkCounts(t, s, dp, k, i, t1);
    assert GoodDir(t, dp);
    RemovedName(t[dp].entries, k);
    OnlyName(t[dp].entries, k);
  }

  lemma OnlyName(es: seq<Dirent>, k: nat)
    requires k < |es| && es[k].inum != 0 && forall j: nat, m: nat | j < m < |es| :: Differ(es, j, m)
    ensures Points(es, es[k].name, es[k].inum)
  {
    forall m: nat | m < k
      ensures es[m].inum == 0 || es[m].name != es[k].name
    {
      assert Differ(es, m, k);
    }
    assert NamedAt(es, k, es[k].name, es[k].inum);
  }
}
