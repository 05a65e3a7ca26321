/** The free list of umalloc.c as a sequence of blocks in address order. Sizes
    and addresses are in Header units; the first block is the static `base`. */
module FreeList {

  const BASE: nat := 1  // address of `base`, below the heap; 0 is the null pointer

  datatype Blk = Blk(addr: nat, size: nat)

  predicate In(b: Blk, u: nat) {
    b.addr <= u < b.addr + b.size
  }

  /** Block i ends before block j starts, with a gap between them. */
  ghost predicate Before(l: seq<Blk>, i: nat, j: nat)
    requires i < |l| && j < |l|
  {
    l[i].addr + l[i].size < l[j].addr
  }

  /** In address order, and no block ends where the next one starts. */
  ghost predicate Ordered(l: seq<Blk>) {
    && 0 < |l|
    && l[0] == Blk(BASE, 0)
    && (forall i | 0 < i < |l| :: 0 < l[i].size)
    && (forall i, j | 0 <= i < j < |l| :: Before(l, i, j))
  }

  ghost predicate Covers(l: seq<Blk>, u: nat) {
    exists i | 0 <= i < |l| :: In(l[i], u)
  }

  /** Position t is where a block at address a belongs. */
  ghost predicate Slot(l: seq<Blk>, t: nat, a: nat) {
    && t < |l|
    && l[t].addr < a
    && (t + 1 < |l| ==> a < l[t + 1].addr)
  }

  /** a and b do not overlap. */
  predicate Clear(a: Blk, b: Blk) {
    a.addr + a.size <= b.addr || b.addr + b.size <= a.addr
  }

  /** b overlaps no block of l. */
  ghost predicate Apart(l: seq<Blk>, b: Blk) {
    forall i {:trigger Clear(l[i], b)} | 0 <= i < |l| :: Clear(l[i], b)
  }

  predicate JoinsNext(l: seq<Blk>, t: nat, b: Blk) {
    t + 1 < |l| && b.addr + b.size == l[t + 1].addr
  }

  predicate JoinsPrev(l: seq<Blk>, t: nat, b: Blk)
    requires t < |l|
  {
    l[t].addr + l[t].size == b.addr
  }

  /** l with the blocks k ..< m replaced by one block. */
  function Splice(l: seq<Blk>, k: nat, b: Blk, m: nat): seq<Blk>
    requires k <= m <= |l|
  {
    l[..k] + [b] + l[m..]
  }

  /** b merged with the neighbours it touches in slot t. */
  function Merged(l: seq<Blk>, t: nat, b: Blk): Blk
    requires t < |l|
  {
    var prev, next := JoinsPrev(l, t, b), JoinsNext(l, t, b);
    Blk(if prev then l[t].addr else b.addr,
        (if prev then l[t].size else 0) + b.size + (if next then l[t + 1].size else 0))
  }

  function From(l: seq<Blk>, t: nat, b: Blk): (k: nat)
    requires t < |l|
    ensures t <= k <= t + 1
  {
    if JoinsPrev(l, t, b) then t else t + 1
  }

  function To(l: seq<Blk>, t: nat, b: Blk): (m: nat)
    requires t < |l|
    ensures t + 1 <= m <= t + 2 && m <= |l|
  {
    if JoinsNext(l, t, b) then t + 2 else t + 1
  }

  /** The list with b freed into slot t. */
  function Insert(l: seq<Blk>, t: nat, b: Blk): seq<Blk>
    requires t < |l|
  {
    Splice(l, From(l, t, b), Merged(l, t, b), To(l, t, b))
  }

  lemma SpliceOrdered(l: seq<Blk>, k: nat, b: Blk, m: nat)
    requires Ordered(l) && 0 < k <= m <= |l| && 0 < b.size
    requires l[k - 1].addr + l[k - 1].size < b.addr
    requires m < |l| ==> b.addr + b.size < l[m].addr
    ensures Ordered(Splice(l, k, b, m))
  {
    var l' := Splice(l, k, b, m);
    forall i, j | 0 <= i < j < |l'|
      ensures Before(l', i, j)
    {
      var i0, j0 := if i < k then i else i - k - 1 + m, if j < k then j else j - k - 1 + m;
      if i != k && j != k {
        assert l'[i] == l[i0] && l'[j] == l[j0] && Before(l, i0, j0);
      } else if j == k {
        assert l'[i] == l[i] && (i < k - 1 ==> Before(l, i, k - 1));
      } else {
        assert l'[j] == l[j0] && (m < j0 ==> Before(l, m, j0));
      }
    }
  }

  lemma SpliceCovers(l: seq<Blk>, k: nat, b: Blk, m: nat, u: nat)
    requires k <= m <= |l|
    ensures Covers(Splice(l, k, b, m), u) <==> Covers(l[..k], u) || In(b, u) || Covers(l[m..], u)
  {
    var l' := Splice(l, k, b, m);
    if Covers(l', u) {
      var i :| 0 <= i < |l'| && In(l'[i], u);
      if i < k {
        assert In(l[..k][i], u);
      } else if i > k {
        assert In(l[m..][i - k - 1], u);
      }
    }
    if i :| 0 <= i < k && In(l[..k][i], u) {
      assert In(l'[i], u);
    }
    if In(b, u) {
      assert In(l'[k], u);
    }
    if i :| 0 <= i < |l| - m && In(l[m..][i], u) {
      assert In(l'[i + k + 1], u);
    }
  }

  lemma SplitCovers(l: seq<Blk>, k: nat, u: nat)
    requires k <= |l|
    ensures Covers(l, u) <==> Covers(l[..k], u) || Covers(l[k..], u)
  {
    if i :| 0 <= i < |l| && In(l[i], u) {
      assert if i < k then In(l[..k][i], u) else In(l[k..][i - k], u);
    }
    if i :| 0 <= i < k && In(l[..k][i], u) {
      assert In(l[i], u);
    }
    if i :| 0 <= i < |l| - k && In(l[k..][i], u) {
      assert In(l[i + k], u);
    }
  }

  lemma CoversOne(b: Blk, u: nat)
    ensures Covers([b], u) <==> In(b, u)
  {
    if In(b, u) {
      assert In([b][0], u);
    }
  }

  lemma SlotExists(l: seq<Blk>, a: nat) returns (t: nat)
    requires Ordered(l) && BASE < a && forall i | 0 <= i < |l| :: l[i].addr != a
    ensures Slot(l, t, a)
  {
    t := 0;
    while t + 1 < |l| && l[t + 1].addr < a
      invariant t < |l| && l[t].addr < a
    {
      t := t + 1;
    }
  }

  /** Merging leaves a gap on both sides. */
  lemma Neighbours(l: seq<Blk>, t: nat, b: Blk)
    requires Ordered(l) && Slot(l, t, b.addr) && Apart(l, b) && 0 < b.size
    ensures l[t].addr + l[t].size <= b.addr
    ensures t + 1 < |l| ==> b.addr + b.size <= l[t + 1].addr
    ensures
      var k, m, c := From(l, t, b), To(l, t, b), Merged(l, t, b);
      && 0 < k
      && l[k - 1].addr + l[k - 1].size < c.addr
      && (m < |l| ==> c.addr + c.size < l[m].addr)
  {
    assert Clear(l[t], b);
    assert t + 1 < |l| ==> Clear(l[t + 1], b);
    assert 0 < t ==> Before(l, t - 1, t);
    assert t + 2 < |l| ==> Before(l, t + 1, t + 2);
  }

  lemma InsertOrdered(l: seq<Blk>, t: nat, b: Blk)
    requires Ordered(l) && Slot(l, t, b.addr) && Apart(l, b) && 0 < b.size
    ensures Ordered(Insert(l, t, b))
  {
    Neighbours(l, t, b);
    SpliceOrdered(l, From(l, t, b), Merged(l, t, b), To(l, t, b));
  }

  /** The units of the blocks that Insert replaces. */
  lemma MergedCovers(l: seq<Blk>, t: nat, b: Blk, u: nat)
    requires t < |l| && 0 < b.size
    ensures In(Merged(l, t, b), u) <==> In(b, u) || Covers(l[From(l, t, b)..To(l, t, b)], u)
  {
    var mid := l[From(l, t, b)..To(l, t, b)];
    if JoinsPrev(l, t, b) {
      SplitCovers(mid, 1, u);
      assert mid[..1] == [l[t]];
      CoversOne(l[t], u);
      if JoinsNext(l, t, b) {
        assert mid[1..] == [l[t + 1]];
        CoversOne(l[t + 1], u);
      } else {
        assert mid[1..] == [];
      }
    } else if JoinsNext(l, t, b) {
      assert mid == [l[t + 1]];
      CoversOne(l[t + 1], u);
    }
  }

  /** Freeing b adds exactly the units of b. */
  lemma InsertCovers(l: seq<Blk>, t: nat, b: Blk, u: nat)
    requires t < |l| && 0 < b.size
    ensures Covers(Insert(l, t, b), u) <==> Covers(l, u) || In(b, u)
  {
    var k, m := From(l, t, b), To(l, t, b);
    SpliceCovers(l, k, Merged(l, t, b), m, u);
    MergedCovers(l, t, b, u);
    SplitCovers(l, k, u);
    SplitCovers(l[k..], m - k, u);
    assert l[k..][m - k..] == l[m..] && l[k..][..m - k] == l[k..m];
  }

  /** A block apart from the list and from b is apart from the list with b freed. */
  lemma InsertApart(l: seq<Blk>, t: nat, b: Blk, x: Blk)
    requires Ordered(l) && Slot(l, t, b.addr) && Apart(l, b) && 0 < b.size
    requires Apart(l, x) && 0 < x.size && Clear(b, x)
    ensures Apart(Insert(l, t, b), x)
  {
    Neighbours(l, t, b);
    var l', k, m := Insert(l, t, b), From(l, t, b), To(l, t, b);
    forall i | 0 <= i < |l'|
      ensures Clear(l'[i], x)
    {
      if i < k {
        assert l'[i] == l[i] && Clear(l[i], x);
      } else if i > k {
        assert l'[i] == l[i - k - 1 + m] && Clear(l[i - k - 1 + m], x);
      } else {
        assert l'[i] == Merged(l, t, b);
        assert Clear(l[t], x);
        assert t + 1 < |l| ==> Clear(l[t + 1], x);
      }
    }
  }

  /** The list with n units carved off the end of block k. */
  function Carve(l: seq<Blk>, k: nat, n: nat): seq<Blk>
    requires k < |l| && n <= l[k].size
  {
    if l[k].size == n then l[..k] + l[k + 1..] else l[k := Blk(l[k].addr, l[k].size - n)]
  }

  function Carved(l: seq<Blk>, k: nat, n: nat): Blk
    requires k < |l| && n <= l[k].size
  {
    Blk(l[k].addr + l[k].size - n, n)
  }

  lemma CarveOrdered(l: seq<Blk>, k: nat, n: nat)
    requires Ordered(l) && 0 < k < |l| && 0 < n <= l[k].size
    ensures Ordered(Carve(l, k, n))
  {
    var l', gone := Carve(l, k, n), l[k].size == n;
    forall i, j | 0 <= i < j < |l'|
      ensures Before(l', i, j)
    {
      assert Before(l, if gone && i >= k then i + 1 else i, if gone && j >= k then j + 1 else j);
    }
  }

  /** Carving removes exactly the units carved. */
  lemma CarveCovers(l: seq<Blk>, k: nat, n: nat, u: nat)
    requires Ordered(l) && 0 < k < |l| && 0 < n <= l[k].size
    ensures Covers(Carve(l, k, n), u) <==> Covers(l, u) && !In(Carved(l, k, n), u)
    ensures In(Carved(l, k, n), u) ==> Covers(l, u)
  {
    var l', gone := Carve(l, k, n), l[k].size == n;
    if In(Carved(l, k, n), u) {
      assert In(l[k], u);
    }
    if Covers(l, u) && !In(Carved(l, k, n), u) {
      var i :| 0 <= i < |l| && In(l[i], u);
      assert In(l'[if gone && i > k then i - 1 else i], u);
    }
    if Covers(l', u) {
      var i :| 0 <= i < |l'| && In(l'[i], u);
      var i0 := if gone && i >= k then i + 1 else i;
      assert In(l[i0], u);
      assert i0 < k ==> Before(l, i0, k);
      assert k < i0 ==> Before(l, k, i0);
    }
  }

  lemma CarveApart(l: seq<Blk>, k: nat, n: nat, x: Blk)
    requires Ordered(l) && 0 < k < |l| && 0 < n <= l[k].size
    requires Apart(l, x)
    ensures Apart(Carve(l, k, n), x)
    ensures Clear(Carved(l, k, n), x)
  {
    assert Clear(l[k], x);
    var l', gone := Carve(l, k, n), l[k].size == n;
    forall i | 0 <= i < |l'|
      ensures Clear(l'[i], x)
    {
      assert Clear(l[if gone && i >= k then i + 1 else i], x);
    }
  }

  lemma CarvedApart(l: seq<Blk>, k: nat, n: nat)
    requires Ordered(l) && 0 < k < |l| && 0 < n <= l[k].size
    ensures Apart(Carve(l, k, n), Carved(l, k, n))
  {
    var l', gone := Carve(l, k, n), l[k].size == n;
    forall i | 0 <= i < |l'|
      ensures Clear(l'[i], Carved(l, k, n))
    {
      var i0 := if gone && i >= k then i + 1 else i;
      assert i0 < k ==> Before(l, i0, k);
      assert k < i0 ==> Before(l, k, i0);
    }
  }

  /** A slot is unique. */
  lemma SlotUnique(l: seq<Blk>, t: nat, k: nat, a: nat)
    requires Ordered(l) && Slot(l, t, a) && Slot(l, k, a)
    ensures t == k
  {
    assert t + 1 < k ==> Before(l, t + 1, k);
    assert k + 1 < t ==> Before(l, k + 1, t);
  }

  /** Freeing what malloc just took restores the list, block for block. */
  lemma FreeUndoesMalloc(l: seq<Blk>, k: nat, n: nat, t: nat)
    requires Ordered(l) && 0 < k < |l| && 0 < n <= l[k].size
    requires Slot(Carve(l, k, n), t, Carved(l, k, n).addr)
    ensures Insert(Carve(l, k, n), t, Carved(l, k, n)) == l
  {
    var l', c := Carve(l, k, n), Carved(l, k, n);
    var slot := if l[k].size == n then k - 1 else k;
    CarveOrdered(l, k, n);
    assert Before(l, k - 1, k);
    assert k + 1 < |l| ==> Before(l, k, k + 1);
    assert Slot(l', slot, c.addr);
    SlotUnique(l', t, slot, c.addr);
    assert !JoinsNext(l', t, c);
    assert JoinsPrev(l', t, c) <==> l[k].size != n;
  }
}
