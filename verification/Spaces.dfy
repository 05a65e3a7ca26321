/** What each change to a page directory or page table does to the maps of all
    address spaces and to the frames (vm.c). */
module Spaces {
  import opened Blocks
  import opened Frames

  /** All maps are as they were. */
  ghost predicate SameMaps(own: seq<Role>, mem: seq<Page>, mem': seq<Page>)
    requires |own| == |mem| == |mem'|
  {
    forall d: nat, p: nat | IsDir(own, d) && p < PAGES :: Pte(mem', d, p) == Pte(mem, d, p)
  }

  /** All maps are as they were, but for page p of d, which now has entry e. */
  ghost predicate OneChanged(own: seq<Role>, mem: seq<Page>, mem': seq<Page>, d: nat, p: nat, e: Word)
    requires |own| == |mem| == |mem'|
  {
    forall x: nat, q: nat | IsDir(own, x) && q < PAGES ::
      Pte(mem', x, q) == if x == d && q == p then e else Pte(mem, x, q)
  }

  /** A zeroed frame becomes page table i of d: no map changes. */
  lemma TableKeepsInv(mem: seq<Page>, own: seq<Role>, free: seq<Frame>, first: nat, d: nat, i: nat, t: nat, e: Word)
    requires Inv(mem, own, free, first) && IsDir(own, d) && i < ENTRIES && !Present(mem[d][i])
    requires t < NFRAMES && own[t] == Held && Present(e) && FrameOf(e) == t
    ensures Inv(mem[t := Filled(0)][d := mem[d][i := e]], own[t := Table(d, i)], free, first)
    ensures SameMaps(own, mem, mem[t := Filled(0)][d := mem[d][i := e]])
  {
    var mem', own' := mem[t := Filled(0)][d := mem[d][i := e]], own[t := Table(d, i)];
    SameDirs(own, own');
    forall x: nat, q: nat | IsDir(own, x) && q < PAGES
      ensures Pte(mem', x, q) == Pte(mem, x, q)
    {
      PageIndex(q, q);
      assert TableKnown(mem, own, x, Pdx(q));
    }
    forall x: nat, j: nat | IsDir(own', x) && j < ENTRIES
      ensures TableKnown(mem', own', x, j)
    {
      assert TableKnown(mem, own, x, j);
    }
    forall x: nat, p: nat | IsDir(own', x) && p < USERPAGES
      ensures PageKnown(mem', own', x, p)
    {
      assert PageKnown(mem, own, x, p);
    }
    forall k: nat | k < |free|
      ensures FreeKnown(mem', own', free, k)
    {
      assert FreeKnown(mem, own, free, k);
    }
    forall x: nat | x < |own|
      ensures Honest(mem', own', free, first, x)
    {
      assert Honest(mem, own, free, first, x);
    }
  }

  /** *pte = e, in table t for page p of d. */
  function WithPte(mem: seq<Page>, t: nat, p: nat, e: Word): (r: seq<Page>)
    requires t < |mem|
    ensures |r| == |mem|
  {
    mem[t := mem[t][Ptx(p) := e]]
  }

  /** t is the table that page p of d is looked up in. */
  ghost predicate InTable(mem: seq<Page>, d: nat, p: nat, t: nat)
    requires d < |mem| && p < PAGES
  {
    Present(mem[d][Pdx(p)]) && FrameOf(mem[d][Pdx(p)]) == t < |mem|
  }

  lemma SetPte(mem: seq<Page>, own: seq<Role>, free: seq<Frame>, first: nat, d: nat, p: nat, t: nat, e: Word)
    requires Inv(mem, own, free, first) && IsDir(own, d) && p < PAGES && InTable(mem, d, p, t)
    ensures own[t] == Table(d, Pdx(p))
    ensures OneChanged(own, mem, WithPte(mem, t, p, e), d, p, e)
  {
    PageIndex(p, p);
    assert TableKnown(mem, own, d, Pdx(p));
    var mem' := WithPte(mem, t, p, e);
    forall x: nat, q: nat | IsDir(own, x) && q < PAGES
      ensures Pte(mem', x, q) == if x == d && q == p then e else Pte(mem, x, q)
    {
      PageIndex(p, q);
      assert TableKnown(mem, own, x, Pdx(q));
    }
  }

  /** A changed entry, with the one frame whose role changes with it: the frame the
      page gets, or the frame it loses, or none for a page of the kernel. */
  lemma PteKeepsInv(mem: seq<Page>, own: seq<Role>, free: seq<Frame>, first: nat, d: nat, p: nat, t: nat, e: Word,
                    f: nat, own': seq<Role>)
    requires Inv(mem, own, free, first) && IsDir(own, d) && p < PAGES && InTable(mem, d, p, t) && f < NFRAMES
    requires p >= USERPAGES ==> own' == own
    requires p < USERPAGES && Present(e) ==>
               !Present(Pte(mem, d, p)) && FrameOf(e) == f && own[f] == Held && own' == own[f := User(d, p)]
    requires p < USERPAGES && !Present(e) ==>
               Present(Pte(mem, d, p)) && FrameOf(Pte(mem, d, p)) == f && own' == own[f := Held]
    ensures Inv(WithPte(mem, t, p, e), own', free, first)
  {
    SetPte(mem, own, free, first, d, p, t, e);
    var mem' := WithPte(mem, t, p, e);
    if p < USERPAGES {
      assert PageKnown(mem, own, d, p);
    }
    SameDirs(own, own');
    forall x: nat, j: nat | IsDir(own', x) && j < ENTRIES
      ensures TableKnown(mem', own', x, j)
    {
      assert TableKnown(mem, own, x, j);
    }
    forall x: nat, q: nat | IsDir(own', x) && q < USERPAGES
      ensures PageKnown(mem', own', x, q)
    {
      assert PageKnown(mem, own, x, q);
    }
    forall k: nat | k < |free|
      ensures FreeKnown(mem', own', free, k)
    {
      assert FreeKnown(mem, own, free, k);
    }
    forall x: nat | x < |own|
      ensures Honest(mem', own', free, first, x)
    {
      assert Honest(mem, own, free, first, x);
    }
  }

  /** kfree of the frame of page p followed by *pte = 0: in between the frame is
      both free and mapped, afterwards it is only free. */
  lemma FreePageKeepsInv(mem: seq<Page>, own: seq<Role>, free: seq<Frame>, first: nat, d: nat, p: nat, t: nat, f: nat,
                         mem': seq<Page>)
    requires Inv(mem, own, free, first) && IsDir(own, d) && p < USERPAGES && InTable(mem, d, p, t)
    requires Present(Pte(mem, d, p)) && f == FrameOf(Pte(mem, d, p)) && f < NFRAMES
    requires mem' == WithPte(mem[f := Linked(HeadOf(free))], t, p, 0)
    ensures own[f] == User(d, p)
    ensures Inv(mem', own[f := Free(|free|)], free + [f], first)
    ensures OneChanged(own, mem, mem', d, p, 0)
  {
    assert PageKnown(mem, own, d, p);
    var own1, mem1 := own[f := Held], WithPte(mem, t, p, 0);
    SetPte(mem, own, free, first, d, p, t, 0);
    PteKeepsInv(mem, own, free, first, d, p, t, 0, f, own1);
    PushKeepsInv(mem1, own1, free, first, f);
    assert mem' == mem1[f := Linked(HeadOf(free))];
    assert own1[f := Free(|free|)] == own[f := Free(|free|)];
    SameDirs(own, own1);
  }

  /** A zeroed frame becomes a directory with an empty map. */
  lemma DirKeepsInv(mem: seq<Page>, own: seq<Role>, free: seq<Frame>, first: nat, d: nat)
    requires Inv(mem, own, free, first) && d < NFRAMES && own[d] == Held && mem[d] == Filled(0)
    ensures Inv(mem, own[d := Dir], free, first)
    ensures forall p: nat | p < PAGES :: Pte(mem, d, p) == 0
  {
    var own' := own[d := Dir];
    forall p: nat | p < PAGES
      ensures Pte(mem, d, p) == 0
    {
      PageIndex(p, p);
    }
    forall x: nat, j: nat | IsDir(own', x) && j < ENTRIES
      ensures TableKnown(mem, own', x, j)
    {
      assert x != d ==> IsDir(own, x) && TableKnown(mem, own, x, j);
    }
    forall x: nat, q: nat | IsDir(own', x) && q < USERPAGES
      ensures PageKnown(mem, own', x, q)
    {
      assert x != d ==> IsDir(own, x) && PageKnown(mem, own, x, q);
    }
    forall k: nat | k < |free|
      ensures FreeKnown(mem, own', free, k)
    {
      assert FreeKnown(mem, own, free, k);
    }
    forall x: nat | x < |own|
      ensures Honest(mem, own', free, first, x)
    {
      assert Honest(mem, own, free, first, x);
    }
  }

  // ----- giving up a whole space -----

  ghost predicate Of(r: Role, d: nat) {
    (r.Table? || r.User?) && r.d == d
  }

  /** The roles once the directory d and its tables are no longer in use. */
  ghost function Retired(own: seq<Role>, d: nat): (r: seq<Role>)
    ensures |r| == |own|
    ensures forall f: nat | f < |own| :: r[f] == if f == d || Of(own[f], d) then Held else own[f]
  {
    seq(|own|, f requires 0 <= f < |own| => if f == d || Of(own[f], d) then Held else own[f])
  }

  lemma RetireKeepsInv(mem: seq<Page>, own: seq<Role>, free: seq<Frame>, first: nat, d: nat)
    requires Inv(mem, own, free, first) && IsDir(own, d)
    ensures Inv(mem, Retired(own, d), free, first)
  {
    var own' := Retired(own, d);
    assert forall x: nat :: IsDir(own', x) <==> IsDir(own, x) && x != d;
    forall x: nat, j: nat | IsDir(own', x) && j < ENTRIES
      ensures TableKnown(mem, own', x, j)
    {
      assert TableKnown(mem, own, x, j);
    }
    forall x: nat, q: nat | IsDir(own', x) && q < USERPAGES
      ensures PageKnown(mem, own', x, q)
    {
      assert PageKnown(mem, own, x, q);
    }
    forall k: nat | k < |free|
      ensures FreeKnown(mem, own', free, k)
    {
      assert FreeKnown(mem, own, free, k);
    }
    forall x: nat | x < |own|
      ensures Honest(mem, own', free, first, x)
    {
      assert Honest(mem, own, free, first, x) && Honest(mem, own, free, first, d);
    }
  }

  // ----- what an operation on the space d leaves alone -----

  ghost predicate UserBetween(r: Role, d: nat, lo: nat, hi: nat) {
    r.User? && r.d == d && lo <= r.p < hi
  }

  /** Roles that frames may have once they are used for d between pages lo and hi. */
  ghost predicate InPool(r: Role, d: nat, lo: nat, hi: nat) {
    r.Free? || (r.Table? && r.d == d) || UserBetween(r, d, lo, hi)
  }

  /** A frame that is neither free nor a page of d between lo and hi keeps its role,
      and its contents unless it is a table of d. */
  ghost predicate FrameKept(mem: seq<Page>, own: seq<Role>, mem': seq<Page>, own': seq<Role>,
                            d: nat, lo: nat, hi: nat, f: nat)
    requires |mem| == |own| == |mem'| == |own'| && f < |mem|
  {
    if own[f].Free? || UserBetween(own[f], d, lo, hi)
    then InPool(own'[f], d, lo, hi)
    else own'[f] == own[f] && ((own[f].Table? && own[f].d == d) || mem'[f] == mem[f])
  }

  ghost predicate Kept(mem: seq<Page>, own: seq<Role>, mem': seq<Page>, own': seq<Role>, d: nat, lo: nat, hi: nat) {
    && |mem| == |own| == |mem'| == |own'|
    && forall f: nat | f < |mem| && f != d :: FrameKept(mem, own, mem', own', d, lo, hi, f)
  }

  lemma KeptTwice(mem: seq<Page>, own: seq<Role>, mem1: seq<Page>, own1: seq<Role>, mem2: seq<Page>, own2: seq<Role>,
                  d: nat, lo: nat, hi: nat)
    requires Kept(mem, own, mem1, own1, d, lo, hi) && Kept(mem1, own1, mem2, own2, d, lo, hi)
    ensures Kept(mem, own, mem2, own2, d, lo, hi)
  {
    forall f: nat | f < |mem| && f != d
      ensures FrameKept(mem, own, mem2, own2, d, lo, hi, f)
    {
      assert FrameKept(mem, own, mem1, own1, d, lo, hi, f) && FrameKept(mem1, own1, mem2, own2, d, lo, hi, f);
    }
  }

  /** So every other space has the map it had, and its pages the contents. */
  lemma OthersKeepMaps(mem: seq<Page>, own: seq<Role>, free: seq<Frame>, first: nat, mem': seq<Page>, own': seq<Role>,
                       d: nat, lo: nat, hi: nat, x: nat, p: nat)
    requires Inv(mem, own, free, first) && Kept(mem, own, mem', own', d, lo, hi)
    requires IsDir(own, x) && x != d && p < PAGES && (d < |own| ==> !own[d].Table? && !own[d].User?)
    ensures IsDir(own', x) && Pte(mem', x, p) == Pte(mem, x, p)
    ensures
      var e := Pte(mem, x, p);
      p < USERPAGES && Present(e) ==> FrameOf(e) < |mem| && mem'[FrameOf(e)] == mem[FrameOf(e)]
  {
    PageIndex(p, p);
    assert FrameKept(mem, own, mem', own', d, lo, hi, x);
    assert TableKnown(mem, own, x, Pdx(p));
    var t := FrameOf(mem[x][Pdx(p)]);
    if Present(mem[x][Pdx(p)]) && t != d {
      assert FrameKept(mem, own, mem', own', d, lo, hi, t);
    }
    if p < USERPAGES {
      assert PageKnown(mem, own, x, p);
      var f := FrameOf(Pte(mem, x, p));
      if Present(Pte(mem, x, p)) && f != d {
        assert FrameKept(mem, own, mem', own', d, lo, hi, f);
      }
    }
  }
}
