/** malloc, free and morecore of umalloc.c on a memory of Header units. ptr[u] and
    size[u] are the two words of unit u: a header if a block starts there, and
    otherwise whatever the program stores in its own blocks. */
module Umalloc {
  import opened Common
  import opened FreeList

  function Succ(i: nat, n: nat): nat
    requires i < n
  {
    if i + 1 < n then i + 1 else 0
  }

  /** The header of block i of l has its size and points at the next block. */
  ghost predicate LinkedAt(l: seq<Blk>, ptr: seq<nat>, size: seq<nat>, i: nat)
    requires i < |l|
  {
    && l[i].addr < |ptr| == |size|
    && size[l[i].addr] == l[i].size
    && ptr[l[i].addr] == l[Succ(i, |l|)].addr
  }

  /** The headers of l form one circular list through s.ptr. */
  ghost predicate Linked(l: seq<Blk>, ptr: seq<nat>, size: seq<nat>) {
    && |ptr| == |size|
    && forall i | 0 <= i < |l| :: LinkedAt(l, ptr, size, i)
  }

  /** Block i keeps its header across a change of memory. */
  ghost predicate SameHeader(l: seq<Blk>, ptr: seq<nat>, size: seq<nat>, ptr': seq<nat>, size': seq<nat>, i: nat)
    requires i < |l|
  {
    && l[i].addr < |ptr| == |size| == |ptr'| == |size'|
    && size'[l[i].addr] == size[l[i].addr]
    && ptr'[l[i].addr] == ptr[l[i].addr]
  }

  lemma SpliceLinked(l: seq<Blk>, k: nat, c: Blk, m: nat, ptr: seq<nat>, size: seq<nat>, ptr': seq<nat>,
                     size': seq<nat>)
    requires 0 < k <= m <= |l| && Linked(l, ptr, size)
    requires |ptr'| == |size'| == |ptr| && c.addr < |ptr|
    requires forall i | 0 <= i < k - 1 || m <= i < |l| :: SameHeader(l, ptr, size, ptr', size', i)
    requires l[k - 1].addr < |ptr| && size'[l[k - 1].addr] == l[k - 1].size && ptr'[l[k - 1].addr] == c.addr
    requires size'[c.addr] == c.size
    requires ptr'[c.addr] == if m < |l| then l[m].addr else l[0].addr
    ensures Linked(Splice(l, k, c, m), ptr', size')
  {
    var l' := Splice(l, k, c, m);
    forall i | 0 <= i < |l'|
      ensures LinkedAt(l', ptr', size', i)
    {
      var i0 := if i < k then i else i - k - 1 + m;
      if i != k {
        assert l'[i] == l[i0];
        assert LinkedAt(l, ptr, size, i0);
        assert i != k - 1 ==> SameHeader(l, ptr, size, ptr', size', i0);
      }
    }
  }

  lemma RemoveLinked(l: seq<Blk>, k: nat, ptr: seq<nat>, size: seq<nat>, ptr': seq<nat>, size': seq<nat>)
    requires 0 < k < |l| && Linked(l, ptr, size)
    requires |ptr'| == |size'| == |ptr|
    requires forall i | 0 <= i < k - 1 || k < i < |l| :: SameHeader(l, ptr, size, ptr', size', i)
    requires l[k - 1].addr < |ptr| && size'[l[k - 1].addr] == l[k - 1].size
    requires l[k].addr < |ptr| && ptr'[l[k - 1].addr] == ptr[l[k].addr]
    ensures Linked(l[..k] + l[k + 1..], ptr', size')
  {
    var l' := l[..k] + l[k + 1..];
    assert LinkedAt(l, ptr, size, k);
    forall i | 0 <= i < |l'|
      ensures LinkedAt(l', ptr', size', i)
    {
      var i0 := if i < k then i else i + 1;
      assert l'[i] == l[i0];
      assert LinkedAt(l, ptr, size, i0);
      assert i != k - 1 ==> SameHeader(l, ptr, size, ptr', size', i0);
    }
  }

  /** Units of a block that the program holds. */
  ghost predicate Held(live: map<nat, nat>, u: nat) {
    exists a <- live :: In(Blk(a, live[a]), u)
  }

  /** The free list is circular in address order with one wrap, coalesced, and
      lies below brk; freep is somewhere on it. */
  ghost predicate GoodList(l: seq<Blk>, freep: nat, brk: nat, ptr: seq<nat>, size: seq<nat>) {
    && Ordered(l)
    && Linked(l, ptr, size)
    && (exists i | 0 <= i < |l| :: l[i].addr == freep)
    && 0 < freep
    && BASE < brk <= |ptr|
    && (forall i | 0 <= i < |l| :: l[i].addr + l[i].size <= brk)
  }

  /** Live blocks have their header, overlap neither each other nor a free block. */
  ghost predicate GoodLive(l: seq<Blk>, live: map<nat, nat>, brk: nat, size: seq<nat>) {
    && brk <= |size|
    && (forall a <- live :: BASE < a && 0 < live[a] && a + live[a] <= brk && size[a] == live[a])
    && (forall a <- live :: Apart(l, Blk(a, live[a])))
    && (forall a, b | a in live && b in live && a < b :: a + live[a] <= b)
  }

  /** Every unit ever obtained is in a free block or in a live one. */
  ghost predicate Conserved(l: seq<Blk>, live: map<nat, nat>, core: set<nat>, brk: nat) {
    && (forall u: nat {:trigger u in core} :: u in core <==> Covers(l, u) || Held(live, u))
    && (forall u <- core :: u < brk)
  }

  /** No word of a block in live has changed. */
  ghost predicate Untouched(live: map<nat, nat>, ptr: seq<nat>, size: seq<nat>, ptr': seq<nat>, size': seq<nat>) {
    && |ptr| == |size| == |ptr'| == |size'|
    && forall a, u: nat | a in live && In(Blk(a, live[a]), u) && u < |ptr| :: ptr'[u] == ptr[u] && size'[u] == size[u]
  }

  /** Steps from block i round to block f. */
  function Dist(i: nat, f: nat, n: nat): nat
    requires i < n && f < n
  {
    if i <= f then f - i else f + n - i
  }

  // ----- free -----

  /** The two ways free's search loop ends at p. */
  predicate StopsAt(p: nat, next: nat, bp: nat) {
    (bp > p && bp < next) || (p >= next && (bp > p || bp < next))
  }

  /** At block t the search ends in a slot for a, and in `slot` it does end. */
  ghost predicate SearchOk(l: seq<Blk>, t: nat, slot: nat, a: nat)
    requires t < |l|
  {
    && (StopsAt(l[t].addr, l[Succ(t, |l|)].addr, a) ==> Slot(l, t, a))
    && (t == slot ==> StopsAt(l[t].addr, l[Succ(t, |l|)].addr, a))
  }

  lemma SearchWorks(l: seq<Blk>, slot: nat, a: nat)
    requires Ordered(l) && Slot(l, slot, a) && BASE < a
    ensures forall t | 0 <= t < |l| :: SearchOk(l, t, slot, a)
  {
    forall t | 0 <= t < |l|
      ensures SearchOk(l, t, slot, a)
    {
      assert t + 1 < |l| ==> Before(l, t, t + 1);
      assert t + 1 == |l| && 0 < t ==> Before(l, 0, t);
    }
  }

  /** Only the units x and y have changed. */
  ghost predicate OnlyAt(x: nat, y: nat, ptr: seq<nat>, size: seq<nat>, ptr': seq<nat>, size': seq<nat>) {
    && |ptr| == |size| == |ptr'| == |size'|
    && forall u: nat | u < |ptr| && u != x && u != y :: ptr'[u] == ptr[u] && size'[u] == size[u]
  }

  /** The two headers free writes: b's, and that of the block before it. */
  ghost predicate FreedHeaders(l: seq<Blk>, t: nat, b: Blk, ptr': seq<nat>, size': seq<nat>)
    requires t < |l|
  {
    && |ptr'| == |size'|
    && l[t].addr < |ptr'| && b.addr < |ptr'|
    && var c, m := Merged(l, t, b), To(l, t, b);
       && size'[c.addr] == c.size
       && ptr'[c.addr] == (if m < |l| then l[m].addr else BASE)
       && (!JoinsPrev(l, t, b) ==> size'[l[t].addr] == l[t].size && ptr'[l[t].addr] == b.addr)
  }

  lemma FreeKeepsList(l: seq<Blk>, t: nat, b: Blk, freep: nat, brk: nat,
                      ptr: seq<nat>, size: seq<nat>, ptr': seq<nat>, size': seq<nat>)
    requires GoodList(l, freep, brk, ptr, size) && Slot(l, t, b.addr) && Apart(l, b) && 0 < b.size
    requires b.addr + b.size <= brk
    requires OnlyAt(b.addr, l[t].addr, ptr, size, ptr', size') && FreedHeaders(l, t, b, ptr', size')
    ensures GoodList(Insert(l, t, b), l[t].addr, brk, ptr', size')
    ensures t < |Insert(l, t, b)| && Insert(l, t, b)[t].addr == l[t].addr
  {
    var k, m, c := From(l, t, b), To(l, t, b), Merged(l, t, b);
    Neighbours(l, t, b);
    InsertOrdered(l, t, b);
    forall i | 0 <= i < k - 1 || m <= i < |l|
      ensures SameHeader(l, ptr, size, ptr', size', i)
    {
      assert LinkedAt(l, ptr, size, i) && Clear(l[i], b);
      assert i < t ==> Before(l, i, t);
      assert t < i ==> Before(l, t, i);
    }
    assert LinkedAt(l, ptr, size, k - 1);
    assert 0 < k - 1 ==> Before(l, 0, k - 1);
    assert 0 < t ==> Before(l, 0, t) && Before(l, t - 1, t);
    SpliceLinked(l, k, c, m, ptr, size, ptr', size');
    var l' := Insert(l, t, b);
    assert l'[t].addr == l[t].addr;
    forall i | 0 <= i < |l'|
      ensures l'[i].addr + l'[i].size <= brk
    {
      assert i < k ==> l'[i] == l[i];
      assert i > k ==> l'[i] == l[i - k - 1 + m];
    }
  }

  lemma FreeKeepsLive(l: seq<Blk>, t: nat, b: Blk, live: map<nat, nat>, brk: nat,
                      ptr: seq<nat>, size: seq<nat>, ptr': seq<nat>, size': seq<nat>)
    requires Ordered(l) && GoodLive(l, live, brk, size) && b.addr in live && b.size == live[b.addr]
    requires Slot(l, t, b.addr) && OnlyAt(b.addr, l[t].addr, ptr, size, ptr', size')
    ensures GoodLive(Insert(l, t, b), live - {b.addr}, brk, size')
    ensures Untouched(live - {b.addr}, ptr, size, ptr', size')
  {
    var live' := live - {b.addr};
    forall a | a in live'
      ensures Apart(Insert(l, t, b), Blk(a, live[a]))
      ensures size'[a] == size[a]
      ensures forall u: nat | In(Blk(a, live[a]), u) :: u != b.addr && u != l[t].addr
    {
      InsertApart(l, t, b, Blk(a, live[a]));
      assert Clear(l[t], Blk(a, live[a]));
      assert l[t].size == 0 ==> t == 0;
    }
  }

  lemma FreeConserves(l: seq<Blk>, t: nat, b: Blk, live: map<nat, nat>, core: set<nat>, brk: nat)
    requires Ordered(l) && Conserved(l, live, core, brk) && b.addr in live && b.size == live[b.addr]
    requires Slot(l, t, b.addr) && Apart(l, b) && 0 < b.size
    ensures Conserved(Insert(l, t, b), live - {b.addr}, core, brk)
  {
    var live' := live - {b.addr};
    forall u: nat
      ensures u in core <==> Covers(Insert(l, t, b), u) || Held(live', u)
    {
      InsertCovers(l, t, b, u);
      if Held(live, u) {
        var a :| a in live && In(Blk(a, live[a]), u);
        assert a != b.addr ==> a in live' && In(Blk(a, live'[a]), u);
      }
      if Held(live', u) {
        var a :| a in live' && In(Blk(a, live'[a]), u);
        assert a in live && In(Blk(a, live[a]), u);
      }
      if In(b, u) {
        assert In(Blk(b.addr, live[b.addr]), u);
      }
    }
  }

  // ----- malloc -----

  const HEADER := 8  // sizeof(Header)

  /** Header units malloc asks for, in 32-bit unsigned arithmetic. */
  function Units(nbytes: nat): (n: nat)
    ensures 0 < n
  {
    (nbytes + HEADER - 1) % 0x1_0000_0000 / HEADER + 1
  }

  /** The units cover the request exactly when the rounding does not wrap. */
  lemma UnitsCover(nbytes: nat)
    requires nbytes < 0x1_0000_0000
    ensures (Units(nbytes) - 1) * HEADER >= nbytes <==> nbytes <= 0x1_0000_0000 - HEADER
  {
  }

  /** What reaches sbrk when morecore asks for nu units: 32 unsigned bits, read as a
      signed number. */
  function SbrkArg(nu: nat): int {
    var x := nu * HEADER % 0x1_0000_0000;
    if x < 0x8000_0000 then x else x - 0x1_0000_0000
  }

  /** Where the memory of a process that ended at sz ends after sbrk(n); 0 is failure.
      For n < 0 deallocuvm is given sz + n as an unsigned number, and does nothing when
      that is not below sz. */
  function EndAfter(sz: nat, n: int): nat {
    if n > 0 then sz + n
    else
      var x := (sz + n) % 0x1_0000_0000;
      if x < sz then x else sz
  }

  /** The block that morecore frees lies in the process's memory exactly if the bytes
      asked for are fewer than 2^31. */
  lemma AskedIff(nbytes: nat, sz: nat)
    requires nbytes < 0x1_0000_0000 && 0 < sz < 0x8000_0000
    ensures
      var nu := Max(Units(nbytes), 4096);
      EndAfter(sz, SbrkArg(nu)) >= sz + nu * HEADER <==> Units(nbytes) * HEADER < 0x8000_0000
  {
    var nu := Max(Units(nbytes), 4096);
    assert Units(nbytes) <= 0x2000_0000;
    if nu * HEADER == 0x1_0000_0000 {
      assert SbrkArg(nu) == 0;
    }
  }

  /** For 2^31 - 8 bytes sbrk is asked to give 2^31 bytes back. It changes nothing and
      does not fail, and the block handed out is all beyond the end. */
  lemma AskedBackwards(sz: nat)
    requires 0 < sz < 0x8000_0000
    ensures SbrkArg(Max(Units(0x7fff_fff8), 4096)) == -0x8000_0000
    ensures EndAfter(sz, -0x8000_0000) == sz
  {
    assert Units(0x7fff_fff8) == 0x1000_0000;
  }

  ghost predicate NoneFits(l: seq<Blk>, n: nat) {
    forall i | 0 <= i < |l| :: l[i].size < n
  }

  /** The headers malloc writes when it takes n units from block k. */
  ghost predicate TakenHeaders(l: seq<Blk>, k: nat, n: nat,
                               ptr: seq<nat>, size: seq<nat>, ptr': seq<nat>, size': seq<nat>)
    requires 0 < k < |l| && 0 < n <= l[k].size
  {
    && OnlyAt(l[k].addr, if l[k].size == n then l[k - 1].addr else Carved(l, k, n).addr, ptr, size, ptr', size')
    && l[k - 1].addr < |ptr| && l[k].addr < |ptr| && Carved(l, k, n).addr < |ptr|
    && size'[Carved(l, k, n).addr] == n
    && if l[k].size == n then ptr'[l[k - 1].addr] == ptr[l[k].addr] && size'[l[k - 1].addr] == size[l[k - 1].addr]
       else size'[l[k].addr] == l[k].size - n && ptr'[l[k].addr] == ptr[l[k].addr]
  }

  lemma TakeKeepsList(l: seq<Blk>, k: nat, n: nat, freep: nat, brk: nat,
                      ptr: seq<nat>, size: seq<nat>, ptr': seq<nat>, size': seq<nat>)
    requires GoodList(l, freep, brk, ptr, size) && 0 < k < |l| && 0 < n <= l[k].size
    requires TakenHeaders(l, k, n, ptr, size, ptr', size')
    ensures GoodList(Carve(l, k, n), l[k - 1].addr, brk, ptr', size')
  {
    var l' := Carve(l, k, n);
    CarveOrdered(l, k, n);
    assert 0 < k - 1 ==> Before(l, 0, k - 1);
    assert l'[k - 1] == l[k - 1];
    forall i | 0 <= i < |l| && i != k && (i == k - 1 ==> l[k].size != n)
      ensures SameHeader(l, ptr, size, ptr', size', i)
    {
      assert LinkedAt(l, ptr, size, i);
      var c := Carved(l, k, n).addr;
      assert i < k ==> Before(l, i, k);
      assert i < k - 1 ==> Before(l, i, k - 1);
      assert i > k ==> Before(l, k, i) && Before(l, k - 1, k);
    }
    assert LinkedAt(l, ptr, size, k - 1);
    assert LinkedAt(l, ptr, size, k);
    if l[k].size == n {
      RemoveLinked(l, k, ptr, size, ptr', size');
    } else {
      forall i | 0 <= i < |l'|
        ensures LinkedAt(l', ptr', size', i)
      {
        assert LinkedAt(l, ptr, size, i);
        assert i != k ==> SameHeader(l, ptr, size, ptr', size', i);
      }
    }
    forall i | 0 <= i < |l'|
      ensures l'[i].addr + l'[i].size <= brk
    {
      assert l'[i] == l[if l[k].size == n && i >= k then i + 1 else i] || i == k;
    }
  }

  lemma TakeKeepsLive(l: seq<Blk>, k: nat, n: nat, live: map<nat, nat>, brk: nat,
                      ptr: seq<nat>, size: seq<nat>, ptr': seq<nat>, size': seq<nat>)
    requires Ordered(l) && GoodLive(l, live, brk, size) && 0 < k < |l| && 0 < n <= l[k].size
    requires l[k].addr + l[k].size <= brk && TakenHeaders(l, k, n, ptr, size, ptr', size')
    ensures Carved(l, k, n).addr !in live
    ensures GoodLive(Carve(l, k, n), live[Carved(l, k, n).addr := n], brk, size')
    ensures Untouched(live, ptr, size, ptr', size')
  {
    var c := Carved(l, k, n);
    assert Before(l, 0, k);
    CarvedApart(l, k, n);
    forall a | a in live
      ensures Apart(Carve(l, k, n), Blk(a, live[a]))
      ensures c.addr + c.size <= a || a + live[a] <= c.addr
      ensures size'[a] == size[a]
      ensures forall u: nat | In(Blk(a, live[a]), u) :: u != c.addr && u != l[k].addr && u != l[k - 1].addr
    {
      CarveApart(l, k, n, Blk(a, live[a]));
      assert Clear(l[k], Blk(a, live[a])) && Clear(l[k - 1], Blk(a, live[a]));
      assert l[k - 1].size == 0 ==> k - 1 == 0;
    }
  }

  lemma TakeConserves(l: seq<Blk>, k: nat, n: nat, live: map<nat, nat>, core: set<nat>, brk: nat)
    requires Ordered(l) && Conserved(l, live, core, brk) && 0 < k < |l| && 0 < n <= l[k].size
    requires Carved(l, k, n).addr !in live
    ensures Conserved(Carve(l, k, n), live[Carved(l, k, n).addr := n], core, brk)
  {
    var c := Carved(l, k, n);
    var live' := live[c.addr := n];
    forall u: nat
      ensures u in core <==> Covers(Carve(l, k, n), u) || Held(live', u)
    {
      CarveCovers(l, k, n, u);
      if Held(live, u) {
        var a :| a in live && In(Blk(a, live[a]), u);
        assert a in live' && In(Blk(a, live'[a]), u);
      }
      if In(c, u) {
        assert c.addr in live' && In(Blk(c.addr, live'[c.addr]), u);
      }
      if Held(live', u) {
        var a :| a in live' && In(Blk(a, live'[a]), u);
        assert a == c.addr || (a in live && In(Blk(a, live[a]), u));
      }
    }
  }

  ghost predicate GoodHeap(l: seq<Blk>, live: map<nat, nat>, core: set<nat>, freep: nat, brk: nat, ptr: seq<nat>,
                           size: seq<nat>) {
    GoodList(l, freep, brk, ptr, size) && GoodLive(l, live, brk, size) && Conserved(l, live, core, brk)
  }

  lemma TakeKeeps(l: seq<Blk>, k: nat, n: nat, live: map<nat, nat>, core: set<nat>, freep: nat, brk: nat,
                  ptr: seq<nat>, size: seq<nat>, ptr': seq<nat>, size': seq<nat>)
    requires GoodHeap(l, live, core, freep, brk, ptr, size) && 0 < k < |l| && 0 < n <= l[k].size
    requires l[k].addr + l[k].size <= brk && TakenHeaders(l, k, n, ptr, size, ptr', size')
    ensures Carved(l, k, n).addr !in live
    ensures GoodHeap(Carve(l, k, n), live[Carved(l, k, n).addr := n], core, l[k - 1].addr, brk, ptr', size')
    ensures Untouched(live, ptr, size, ptr', size')
  {
    TakeKeepsList(l, k, n, freep, brk, ptr, size, ptr', size');
    TakeKeepsLive(l, k, n, live, brk, ptr, size, ptr', size');
    TakeConserves(l, k, n, live, core, brk);
  }

  lemma FreeKeeps(l: seq<Blk>, t: nat, b: Blk, live: map<nat, nat>, core: set<nat>, freep: nat, brk: nat,
                  ptr: seq<nat>, size: seq<nat>, ptr': seq<nat>, size': seq<nat>)
    requires GoodHeap(l, live, core, freep, brk, ptr, size) && b.addr in live && b.size == live[b.addr]
    requires Slot(l, t, b.addr) && Apart(l, b) && 0 < b.size && b.addr + b.size <= brk
    requires OnlyAt(b.addr, l[t].addr, ptr, size, ptr', size') && FreedHeaders(l, t, b, ptr', size')
    ensures GoodHeap(Insert(l, t, b), live - {b.addr}, core, l[t].addr, brk, ptr', size')
    ensures t < |Insert(l, t, b)| && Insert(l, t, b)[t].addr == l[t].addr
    ensures Untouched(live - {b.addr}, ptr, size, ptr', size')
  {
    FreeKeepsList(l, t, b, freep, brk, ptr, size, ptr', size');
    FreeKeepsLive(l, t, b, live, brk, ptr, size, ptr', size');
    FreeConserves(l, t, b, live, core, brk);
  }

  class Heap {
    const ptr: array<nat>
    const size: array<nat>
    var freep: nat                // 0 until the first malloc
    var brk: nat                  // end of the memory obtained from sbrk
    ghost var list: seq<Blk>      // the free list in address order
    ghost var live: map<nat, nat> // header address and units of every block handed out
    ghost var core: set<nat>      // every unit ever obtained from sbrk

    ghost predicate Valid()
      reads this, ptr, size
    {
      && ptr != size
      && ptr.Length == size.Length
      && BASE < brk <= ptr.Length
      && if freep == 0 then list == [] && live == map[] && core == {}
         else GoodHeap(list, live, core, freep, brk, ptr[..], size[..])
    }

    /** Before the first malloc: n units of address space, none of them obtained. */
    constructor (n: nat, brk: nat)
      requires BASE < brk <= n
      ensures Valid() && freep == 0 && live == map[] && core == {}
      ensures fresh(ptr) && fresh(size) && ptr.Length == n && this.brk == brk
    {
      ptr := new nat[n](_ => 0);
      size := new nat[n](_ => 0);
      freep, this.brk := 0, brk;
      list, live, core := [], map[], {};
    }

    /** The search loop of free: p ends in the slot where bp belongs. */
    method FindSlot(bp: nat, ghost slot: nat) returns (p: nat, ghost t: nat)
      requires ptr.Length == size.Length && Linked(list, ptr[..], size[..])
      requires slot < |list| && forall i | 0 <= i < |list| :: SearchOk(list, i, slot, bp)
      requires exists i | 0 <= i < |list| :: list[i].addr == freep
      ensures Slot(list, t, bp) && p == list[t].addr
    {
      ghost var n := |list|;
      p := freep;
      t :| 0 <= t < n && list[t].addr == p;
      assert LinkedAt(list, ptr[..], size[..], t) && SearchOk(list, t, slot, bp);
      while !(bp > p && bp < ptr[p])
        invariant 0 <= t < n && p == list[t].addr
        invariant LinkedAt(list, ptr[..], size[..], t) && SearchOk(list, t, slot, bp)
        decreases Dist(t, slot, n)
      {
        if p >= ptr[p] && (bp > p || bp < ptr[p]) {
          break;
        }
        p := ptr[p];
        t := Succ(t, n);
        assert LinkedAt(list, ptr[..], size[..], t) && SearchOk(list, t, slot, bp);
      }
    }

    /** The relinking at the end of free: bp goes in after p, merged with either. */
    method LinkIn(bp: nat, p: nat, ghost t: nat, ghost b: Blk)
      requires ptr != size && ptr.Length == size.Length && Linked(list, ptr[..], size[..]) && Ordered(list)
      requires Slot(list, t, bp) && Apart(list, b) && p == list[t].addr
      requires bp < ptr.Length && b == Blk(bp, size[bp]) && 0 < b.size
      modifies ptr, size
      ensures OnlyAt(bp, p, old(ptr[..]), old(size[..]), ptr[..], size[..])
      ensures FreedHeaders(list, t, b, ptr[..], size[..])
    {
      assert LinkedAt(list, ptr[..], size[..], t);
      Neighbours(list, t, b);
      if bp + size[bp] == ptr[p] {
        assert LinkedAt(list, ptr[..], size[..], t + 1);
        size[bp] := size[bp] + size[ptr[p]];
        ptr[bp] := ptr[ptr[p]];
      } else {
        ptr[bp] := ptr[p];
      }
      if p + size[p] == bp {
        size[p] := size[p] + size[bp];
        ptr[p] := ptr[bp];
      } else {
        ptr[p] := bp;
      }
    }

    /** Puts a block back: it joins the free list, merged with any neighbour it
        touches; no other block's memory is written. */
    method Free(ap: nat) returns (ghost t: nat)
      requires Valid() && 0 < ap && ap - 1 in live
      modifies this`freep, this`list, this`live, ptr, size
      ensures Valid()
      ensures live == old(live) - {ap - 1}
      ensures Slot(old(list), t, ap - 1)
      ensures list == Insert(old(list), t, Blk(ap - 1, old(live)[ap - 1]))
      ensures freep == list[t].addr
      ensures Untouched(live, old(ptr[..]), old(size[..]), ptr[..], size[..])
    {
      var bp := ap - 1;
      ghost var l, P, S, b := list, ptr[..], size[..], Blk(bp, live[bp]);
      assert Apart(l, b);
      forall i | 0 <= i < |l|
        ensures l[i].addr != bp
      {
        assert Clear(l[i], b);
      }
      var p;
      ghost var slot := SlotExists(l, bp);
      SearchWorks(l, slot, bp);
      p, t := FindSlot(bp, slot);
      LinkIn(bp, p, t, b);
      FreeKeeps(l, t, b, live, core, freep, brk, P, S, ptr[..], size[..]);
      freep := p;
      list := Insert(l, t, b);
      live := live - {bp};
    }

    /** sbrk(n * sizeof(Header)): 0 stands for failure. Other callers of sbrk take memory
        too: `skip` is what they have taken since. */
    method Sbrk(n: nat, skip: nat) returns (p: nat)
      requires 0 < brk <= ptr.Length
      modifies this`brk
      ensures p == 0 <==> old(brk) + skip + n > ptr.Length
      ensures p == 0 ==> brk == old(brk)
      ensures p != 0 ==> p == old(brk) + skip && brk == p + n
    {
      if brk + skip + n > ptr.Length {
        return 0;
      }
      p := brk + skip;
      brk := p + n;
    }

    /** The header morecore writes makes the fresh memory one live block. */
    method AddCore(p: nat, n: nat, ghost oldBrk: nat)
      requires ptr != size && ptr.Length == size.Length && freep != 0
      requires GoodList(list, freep, oldBrk, ptr[..], size[..])
      requires GoodLive(list, live, oldBrk, size[..]) && Conserved(list, live, core, oldBrk)
      requires oldBrk <= p && 0 < n && brk == p + n <= ptr.Length
      modifies this`live, this`core, size
      ensures Valid()
      ensures p !in old(live) && live == old(live)[p := n] && core == old(core) + Span(p, n)
      ensures Untouched(old(live), old(ptr[..]), old(size[..]), ptr[..], size[..])
    {
      size[p] := n;
      GrowKeeps(list, live, core, freep, oldBrk, Blk(p, n), brk, ptr[..], old(size[..]), ptr[..], size[..]);
      live := live[p := n];
      core := core + Span(p, n);
    }

    /** Fresh memory, handed to Free as one block. */
    method Donate(p: nat, n: nat, ghost oldBrk: nat) returns (ghost t: nat)
      requires ptr != size && ptr.Length == size.Length && freep != 0
      requires GoodList(list, freep, oldBrk, ptr[..], size[..])
      requires GoodLive(list, live, oldBrk, size[..]) && Conserved(list, live, core, oldBrk)
      requires oldBrk <= p && 0 < n && brk == p + n <= ptr.Length
      modifies this`freep, this`list, this`live, this`core, ptr, size
      ensures Valid() && freep != 0
      ensures live == old(live) && core == old(core) + Span(p, n)
      ensures t < |old(list)| && list == Insert(old(list), t, Blk(p, n))
      ensures Untouched(old(live), old(ptr[..]), old(size[..]), ptr[..], size[..])
    {
      AddCore(p, n, oldBrk);
      t := FreeCore(p, n, old(live), old(ptr[..]), old(size[..]));
    }

    /** free of the fresh block: the live blocks are those of live0 again. */
    method FreeCore(p: nat, n: nat, ghost live0: map<nat, nat>, ghost P: seq<nat>, ghost S: seq<nat>)
      returns (ghost t: nat)
      requires Valid() && freep != 0 && p !in live0 && live == live0[p := n]
      requires Untouched(live0, P, S, ptr[..], size[..])
      modifies this`freep, this`list, this`live, ptr, size
      ensures Valid() && freep != 0 && live == live0
      ensures t < |old(list)| && list == Insert(old(list), t, Blk(p, n))
      ensures Untouched(live0, P, S, ptr[..], size[..])
    {
      AddRemove(live0, p, n);
      t := Free(p + 1);
      UntouchedTwice(live0, P, S, old(ptr[..]), old(size[..]), ptr[..], size[..]);
    }

    /** morecore: at least 4096 fresh units, at h, join the free list, if there are any. */
    method Morecore(n: nat, skip: nat) returns (r: nat, ghost h: nat)
      requires Valid() && freep != 0
      modifies this, ptr, size
      ensures Valid() && freep != 0 && live == old(live)
      ensures Untouched(live, old(ptr[..]), old(size[..]), ptr[..], size[..])
      ensures r == 0 <==> old(brk) + skip + Max(n, 4096) > ptr.Length
      ensures r == 0 ==> list == old(list) && core == old(core) && brk == old(brk) && freep == old(freep)
      ensures r != 0 ==> r == freep && h == old(brk) + skip && core == old(core) + Span(h, Max(n, 4096))
      ensures r != 0 ==> !NoneFits(list, n)
    {
      var nu := Max(n, 4096);
      var p := Sbrk(nu, skip);
      h := p;
      if p == 0 {
        return 0, 0;
      }
      ghost var t := Donate(p, nu, old(brk));
      InsertFits(old(list), t, Blk(p, nu), n);
      r := freep;
    }

    /** Takes n units from block k, which p heads; r is the new block's header. */
    method Take(prevp: nat, p: nat, n: nat, ghost k: nat) returns (r: nat)
      requires Valid() && freep != 0 && 0 < k < |list| && 0 < n <= list[k].size
      requires prevp == list[k - 1].addr && p == list[k].addr
      modifies this`freep, this`list, this`live, ptr, size
      ensures Valid() && freep == prevp
      ensures r == Carved(old(list), k, n).addr && r !in old(live) && live == old(live)[r := n]
      ensures list == Carve(old(list), k, n)
      ensures Untouched(old(live), old(ptr[..]), old(size[..]), ptr[..], size[..])
    {
      ghost var l, P, S := list, ptr[..], size[..];
      assert LinkedAt(l, P, S, k) && LinkedAt(l, P, S, k - 1);
      assert Before(l, k - 1, k) && l[k].addr + l[k].size <= brk;
      r := p;
      if size[p] == n {
        ptr[prevp] := ptr[p];
      } else {
        size[p] := size[p] - n;
        r := r + size[p];
        size[r] := n;
      }
      freep := prevp;
      TakeKeeps(l, k, n, live, core, old(freep), brk, P, S, ptr[..], size[..]);
      list := Carve(l, k, n);
      live := live[r := n];
    }

    /** The same, told from an earlier state of the memory, and the address handed out. */
    method Hand(prevp: nat, p: nat, n: nat, ghost k: nat, ghost P: seq<nat>, ghost S: seq<nat>) returns (r: nat)
      requires Valid() && freep != 0 && 0 < k < |list| && 0 < n <= list[k].size
      requires prevp == list[k - 1].addr && p == list[k].addr && Untouched(live, P, S, ptr[..], size[..])
      modifies this`freep, this`list, this`live, ptr, size
      ensures Valid() && 0 < r && r - 1 !in old(live) && live == old(live)[r - 1 := n]
      ensures Untouched(old(live), P, S, ptr[..], size[..])
    {
      r := Take(prevp, p, n, k);
      UntouchedTwice(old(live), P, S, old(ptr[..]), old(size[..]), ptr[..], size[..]);
      r := r + 1;
    }

    /** The first call makes `base` a list of its own. */
    method InitBase()
      requires Valid()
      modifies this`freep, this`list, ptr, size
      ensures Valid() && freep != 0
      ensures list == if old(freep) == 0 then [Blk(BASE, 0)] else old(list)
      ensures Untouched(live, old(ptr[..]), old(size[..]), ptr[..], size[..])
    {
      if freep == 0 {
        ptr[BASE] := BASE;
        freep := BASE;
        size[BASE] := 0;
        list := [Blk(BASE, 0)];
        assert LinkedAt(list, ptr[..], size[..], 0);
        assert list[0].addr == freep;
      }
    }

    /** One round of malloc's loop, from the block after freep to freep: stops at
        the first block that fits. */
    method Search(n: nat) returns (found: bool, prevp: nat, p: nat, ghost f: nat, ghost k: nat)
      requires ptr.Length == size.Length && Linked(list, ptr[..], size[..])
      requires 0 < |list| && list[0].size < n
      requires exists i | 0 <= i < |list| :: list[i].addr == freep
      requires forall i, j | 0 <= i < |list| && 0 <= j < |list| && list[i].addr == list[j].addr :: i == j
      ensures Walking(list, f, k, freep, prevp, p, n)
      ensures found ==> 0 < k && n <= list[k].size
      ensures !found ==> NoneFits(list, n)
    {
      f :| 0 <= f < |list| && list[f].addr == freep;
      assert LinkedAt(list, ptr[..], size[..], f);
      prevp := freep;
      p := ptr[prevp];
      k := Succ(f, |list|);
      while true
        invariant Walking(list, f, k, freep, prevp, p, n)
        decreases Dist(k, f, |list|)
      {
        assert LinkedAt(list, ptr[..], size[..], k);
        if size[p] >= n {
          return true, prevp, p, f, k;
        }
        if p == freep {
          return false, prevp, p, f, k;
        }
        WalkOn(list, f, k, freep, prevp, p, n);
        prevp := p;
        p := ptr[p];
        k := Succ(k, |list|);
      }
    }

    /** malloc's loop: if no free block fits, ask for more memory and search again
        from freep. This time a block fits, so morecore is called at most once. */
    method FindOrGrow(n: nat, skip: nat)
      returns (ok: bool, prevp: nat, p: nat, ghost k: nat, ghost grown: bool, ghost h: nat)
      requires Valid() && freep != 0 && 0 < n
      modifies this, ptr, size
      ensures Valid() && freep != 0 && live == old(live)
      ensures Untouched(live, old(ptr[..]), old(size[..]), ptr[..], size[..])
      ensures ok ==> 0 < k < |list| && n <= list[k].size && prevp == list[k - 1].addr && p == list[k].addr
      ensures !ok <==> NoneFits(old(list), n) && old(brk) + skip + Max(n, 4096) > ptr.Length
      ensures grown <==> NoneFits(old(list), n) && ok
      ensures if grown then h == old(brk) + skip && core == old(core) + Span(h, Max(n, 4096))
              else core == old(core) && brk == old(brk) && list == old(list)
    {
      grown, h := false, 0;
      DistinctAddresses(list);
      ghost var f;
      ok, prevp, p, f, k := Search(n);
      if !ok {
        p, h := Morecore(n, skip);
        if p == 0 {
          return;
        }
        grown := true;
        DistinctAddresses(list);
        ok, prevp, p, f, k := Search(n);
      }
    }

    /** The same from the first call on, when there is no list yet and so nothing fits. */
    method Obtain(n: nat, skip: nat)
      returns (ok: bool, prevp: nat, p: nat, ghost k: nat, ghost grown: bool, ghost h: nat)
      requires Valid() && 0 < n
      modifies this, ptr, size
      ensures Valid() && freep != 0 && live == old(live)
      ensures Untouched(live, old(ptr[..]), old(size[..]), ptr[..], size[..])
      ensures ok ==> 0 < k < |list| && n <= list[k].size && prevp == list[k - 1].addr && p == list[k].addr
      ensures !ok <==> NoneFits(old(list), n) && old(brk) + skip + Max(n, 4096) > ptr.Length
      ensures grown <==> NoneFits(old(list), n) && ok
      ensures if grown then h == old(brk) + skip && core == old(core) + Span(h, Max(n, 4096))
              else core == old(core) && brk == old(brk)
    {
      InitBase();
      ghost var P, S := ptr[..], size[..];
      assert NoneFits(list, n) <==> NoneFits(old(list), n);
      ok, prevp, p, k, grown, h := FindOrGrow(n, skip);
      UntouchedTwice(live, old(ptr[..]), old(size[..]), P, S, ptr[..], size[..]);
    }

    /** Allocates by first fit from freep on; 0, the null pointer, exactly if no free
        block fits and there is no more memory to be had. The new block is disjoint
        from all others and no other block is written. */
    method Malloc(nbytes: nat, skip: nat) returns (r: nat, ghost grown: bool, ghost h: nat)
      requires Valid()
      requires nbytes < 0x1_0000_0000 && Units(nbytes) * HEADER < 0x8000_0000
      modifies this, ptr, size
      ensures Valid()
      ensures Untouched(old(live), old(ptr[..]), old(size[..]), ptr[..], size[..])
      ensures r == 0 <==>
                NoneFits(old(list), Units(nbytes)) && old(brk) + skip + Max(Units(nbytes), 4096) > ptr.Length
      ensures r == 0 ==> live == old(live)
      ensures r != 0 ==> r - 1 !in old(live) && live == old(live)[r - 1 := Units(nbytes)]
      ensures grown <==> NoneFits(old(list), Units(nbytes)) && r != 0
      ensures if grown then h == old(brk) + skip && core == old(core) + Span(h, Max(Units(nbytes), 4096))
              else core == old(core) && brk == old(brk)
    {
      var n := Units(nbytes);
      ghost var k;
      var ok, prevp, p;
      ok, prevp, p, k, grown, h := Obtain(n, skip);
      r := 0;
      if ok {
        r := Hand(prevp, p, n, k, old(ptr[..]), old(size[..]));
      }
    }
  }

  lemma DistinctAddresses(l: seq<Blk>)
    requires Ordered(l)
    ensures forall i, j | 0 <= i < |l| && 0 <= j < |l| && l[i].addr == l[j].addr :: i == j
  {
    forall i, j | 0 <= i < |l| && 0 <= j < |l| && l[i].addr == l[j].addr
      ensures i == j
    {
      assert i < j ==> Before(l, i, j);
      assert j < i ==> Before(l, j, i);
    }
  }

  /** Where malloc's loop is: p heads block k, prevp the block before it, freep
      block f, and no block passed since freep fits. */
  ghost predicate Walking(l: seq<Blk>, f: nat, k: nat, freep: nat, prevp: nat, p: nat, n: nat) {
    && f < |l| && k < |l|
    && l[f].addr == freep
    && l[k].addr == p
    && l[if k == 0 then |l| - 1 else k - 1].addr == prevp
    && forall i | 0 <= i < |l| && Dist(i, f, |l|) > Dist(k, f, |l|) :: l[i].size < n
  }

  lemma WalkOn(l: seq<Blk>, f: nat, k: nat, freep: nat, prevp: nat, p: nat, n: nat)
    requires Walking(l, f, k, freep, prevp, p, n) && p != freep && l[k].size < n
    ensures Walking(l, f, Succ(k, |l|), freep, p, l[Succ(k, |l|)].addr, n)
    ensures Dist(Succ(k, |l|), f, |l|) < Dist(k, f, |l|)
  {
  }

  lemma AddRemove(m: map<nat, nat>, p: nat, n: nat)
    requires p !in m
    ensures m[p := n] - {p} == m
  {
  }

  lemma UntouchedTwice(live: map<nat, nat>, ptr: seq<nat>, size: seq<nat>, ptr1: seq<nat>, size1: seq<nat>,
                       ptr2: seq<nat>, size2: seq<nat>)
    requires Untouched(live, ptr, size, ptr1, size1) && Untouched(live, ptr1, size1, ptr2, size2)
    ensures Untouched(live, ptr, size, ptr2, size2)
  {
  }

  /** The units a ..< a + n. */
  ghost function Span(a: nat, n: nat): (s: set<nat>)
    ensures forall u: nat :: u in s <==> a <= u < a + n
  {
    if n == 0 then {} else Span(a, n - 1) + {a + n - 1}
  }

  /** Somewhere in the list with b freed there is a block as large as b. */
  lemma InsertFits(l: seq<Blk>, t: nat, b: Blk, n: nat)
    requires t < |l| && n <= b.size
    ensures !NoneFits(Insert(l, t, b), n)
  {
    assert Insert(l, t, b)[From(l, t, b)] == Merged(l, t, b);
  }

  /** Adding fresh memory h as one live block. */
  lemma GrowKeeps(l: seq<Blk>, live: map<nat, nat>, core: set<nat>, freep: nat, brk: nat, h: Blk, brk': nat,
                  ptr: seq<nat>, size: seq<nat>, ptr': seq<nat>, size': seq<nat>)
    requires GoodList(l, freep, brk, ptr, size) && GoodLive(l, live, brk, size) && Conserved(l, live, core, brk)
    requires brk <= h.addr && 0 < h.size && brk' == h.addr + h.size <= |ptr|
    requires |size| == |ptr| && ptr' == ptr && size' == size[h.addr := h.size]
    ensures h.addr !in live
    ensures GoodList(l, freep, brk', ptr', size')
    ensures GoodLive(l, live[h.addr := h.size], brk', size')
    ensures Conserved(l, live[h.addr := h.size], core + Span(h.addr, h.size), brk')
    ensures Untouched(live, ptr, size, ptr', size')
  {
    forall i | 0 <= i < |l|
      ensures LinkedAt(l, ptr', size', i)
    {
      assert LinkedAt(l, ptr, size, i);
      assert l[i].addr < brk by {
        assert l[i].size == 0 ==> i == 0;
      }
    }
    GrowConserves(l, live, core, brk, h, brk');
  }

  lemma GrowConserves(l: seq<Blk>, live: map<nat, nat>, core: set<nat>, brk: nat, h: Blk, brk': nat)
    requires Conserved(l, live, core, brk) && h.addr !in live && brk <= h.addr && brk' == h.addr + h.size
    ensures Conserved(l, live[h.addr := h.size], core + Span(h.addr, h.size), brk')
  {
    var live' := live[h.addr := h.size];
    forall u: nat
      ensures u in core + Span(h.addr, h.size) <==> Covers(l, u) || Held(live', u)
    {
      if Held(live, u) {
        var a :| a in live && In(Blk(a, live[a]), u);
        assert a in live' && In(Blk(a, live'[a]), u);
      }
      if In(h, u) {
        assert h.addr in live' && In(Blk(h.addr, live'[h.addr]), u);
      }
      if Held(live', u) {
        var a :| a in live' && In(Blk(a, live'[a]), u);
        assert a == h.addr || (a in live && In(Blk(a, live[a]), u));
      }
    }
  }
}
