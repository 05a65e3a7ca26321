/** Path names and their elements (skipelem in fs.c). */
module Paths {
  const DIRSIZ := 14

  function Trunc(s: string): (r: string)
    ensures |r| <= DIRSIZ
  {
    if |s| >= DIRSIZ then s[..DIRSIZ] else s
  }

  /** The first position from i on that is no slash. */
  function SkipSlashes(path: string, i: nat): (r: nat)
    requires i <= |path|
    ensures i <= r <= |path| && (r < |path| ==> path[r] != '/')
    decreases |path| - i
  {
    if i < |path| && path[i] == '/' then SkipSlashes(path, i + 1) else i
  }

  /** The first position from i on that is a slash or the end. */
  function ElemEnd(path: string, i: nat): (r: nat)
    requires i <= |path|
    ensures i <= r <= |path| && (r < |path| ==> path[r] == '/')
    ensures i < |path| && path[i] != '/' ==> i < r
    decreases |path| - i
  {
    if i < |path| && path[i] != '/' then ElemEnd(path, i + 1) else i
  }

  /** The names that a path goes through, each cut to DIRSIZ. */
  function Elems(path: string, i: nat): seq<string>
    requires i <= |path|
    decreases |path| - i
  {
    var a := SkipSlashes(path, i);
    if a == |path| then []
    else
      var b := ElemEnd(path, a);
      [Trunc(path[a..b])] + Elems(path, b)
  }

  /** Slashes in front make no difference. */
  lemma ElemsSkip(path: string, i: nat, j: nat)
    requires i <= j <= |path| && forall k | i <= k < j :: path[k] == '/'
    ensures Elems(path, i) == Elems(path, j)
    decreases j - i
  {
    if i < j {
      ElemsSkip(path, i + 1, j);
      assert SkipSlashes(path, i) == SkipSlashes(path, i + 1);
    }
  }

  /** skipelem: the next name and where the path goes on, with no slash in front. */
  method Skipelem(path: string, i: nat) returns (found: bool, name: string, j: nat)
    requires i <= |path|
    ensures found <==> Elems(path, i) != []
    ensures found ==> i < j <= |path| && Elems(path, i) == [name] + Elems(path, j)
    ensures found ==> (j == |path| <==> Elems(path, j) == [])
  {
    j, name := i, "";
    while j < |path| && path[j] == '/'
      invariant i <= j <= |path| && SkipSlashes(path, i) == SkipSlashes(path, j)
    {
      j := j + 1;
    }
    if j == |path| {
      return false, "", j;
    }
    var s := j;
    while j < |path| && path[j] != '/'
      invariant s <= j <= |path| && ElemEnd(path, s) == ElemEnd(path, j) && (j == s ==> path[s] != '/')
    {
      j := j + 1;
    }
    assert j == ElemEnd(path, s);
    name := if j - s >= DIRSIZ then path[s..s + DIRSIZ] else path[s..j];
    assert j - s >= DIRSIZ ==> path[s..j][..DIRSIZ] == path[s..s + DIRSIZ];
    ghost var e := j;
    while j < |path| && path[j] == '/'
      invariant e <= j <= |path| && forall k | e <= k < j :: path[k] == '/'
    {
      j := j + 1;
    }
    ElemsSkip(path, e, j);
    found := true;
  }

  // ----- paths made of names -----

  predicate Slashes(path: string, i: nat, a: nat) {
    i <= a <= |path| && forall k | i <= k < a :: path[k] == '/'
  }

  /** path[a..b] is the name n, up to a slash or the end. */
  predicate NameAt(path: string, a: nat, b: nat, n: string) {
    a < b <= |path| && path[a..b] == n && '/' !in n && (b == |path| || path[b] == '/')
  }

  /** From i on, path is these names in order, with slashes between them and perhaps
      before the first and after the last. */
  ghost predicate Spells(path: string, i: nat, names: seq<string>)
    decreases |names|
  {
    if names == [] then Slashes(path, i, |path|)
    else exists a: nat, b: nat ::
      Slashes(path, i, a) && NameAt(path, a, b, names[0]) && Spells(path, b, names[1..])
  }

  /** What fits into a directory entry. */
  function Cut(names: seq<string>): (r: seq<string>)
    ensures |r| == |names|
    ensures forall k | 0 <= k < |r| :: r[k] <= names[k] && |r[k]| == if |names[k]| < DIRSIZ then |names[k]| else DIRSIZ
  {
    seq(|names|, k requires 0 <= k < |names| => if |names[k]| < DIRSIZ then names[k] else names[k][..DIRSIZ])
  }

  /** The elements of a path are the names it spells, cut to what an entry holds. */
  lemma {:induction false} SpelledElems(path: string, i: nat, names: seq<string>)
    requires Spells(path, i, names)
    ensures i <= |path| && Elems(path, i) == Cut(names)
    decreases |names|
  {
    if names == [] {
      SkipTo(path, i, |path|);
    } else {
      var a: nat, b: nat :|
        Slashes(path, i, a) && NameAt(path, a, b, names[0]) && Spells(path, b, names[1..]);
      SpelledElems(path, b, names[1..]);
      assert forall k | a <= k < b :: path[k] == names[0][k - a];
      SkipTo(path, i, a);
      EndAt(path, a, b);
      assert Cut(names)[0] == Trunc(names[0]);
      assert Cut(names)[1..] == Cut(names[1..]);
    }
  }

  /** Every path spells some names. */
  lemma {:induction false} EveryPathSpells(path: string, i: nat) returns (names: seq<string>)
    requires i <= |path|
    ensures Spells(path, i, names)
    decreases |path| - i
  {
    var a := SkipSlashes(path, i);
    SkippedSlashes(path, i);
    if a == |path| {
      names := [];
    } else {
      var b := ElemEnd(path, a);
      NoSlashes(path, a);
      assert NameAt(path, a, b, path[a..b]);
      var rest := EveryPathSpells(path, b);
      names := [path[a..b]] + rest;
      assert names[1..] == rest;
    }
  }

  lemma {:induction false} SkippedSlashes(path: string, i: nat)
    requires i <= |path|
    ensures Slashes(path, i, SkipSlashes(path, i))
    decreases |path| - i
  {
    if i < |path| && path[i] == '/' {
      SkippedSlashes(path, i + 1);
    }
  }

  lemma {:induction false} NoSlashes(path: string, i: nat)
    requires i <= |path|
    ensures '/' !in path[i..ElemEnd(path, i)]
    decreases |path| - i
  {
    if i < |path| && path[i] != '/' {
      NoSlashes(path, i + 1);
      assert path[i..ElemEnd(path, i)] == [path[i]] + path[i + 1..ElemEnd(path, i)];
    }
  }

  lemma {:induction false} SkipTo(path: string, i: nat, a: nat)
    requires Slashes(path, i, a) && (a < |path| ==> path[a] != '/')
    ensures SkipSlashes(path, i) == a
    decreases a - i
  {
    if i < a {
      SkipTo(path, i + 1, a);
    }
  }

  lemma {:induction false} EndAt(path: string, i: nat, b: nat)
    requires i <= b <= |path| && (b < |path| ==> path[b] == '/') && forall k | i <= k < b :: path[k] != '/'
    ensures ElemEnd(path, i) == b
    decreases b - i
  {
    if i < b {
      EndAt(path, i + 1, b);
    }
  }
}
