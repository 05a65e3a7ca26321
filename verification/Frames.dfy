/** Physical frames, page directories and page tables as words in memory, and who
    holds each frame (vm.c, kalloc.c). Frames and pages are given by number:
    frame f is physical address f * 4096, page p is virtual address p * 4096. */
module Frames {
  import opened Blocks

  const ENTRIES := 1024
  const NFRAMES := 0xE000
  const USERPAGES := 0x8_0000
  const PAGES := 0x10_0000
  const KERNBASE := 0x8000_0000

  type Frame = f: nat | f < NFRAMES

  type Page = s: seq<Word> | |s| == ENTRIES witness seq(ENTRIES, _ => 0)

  function Filled(w: Word): (r: Page) {
    seq(ENTRIES, _ => w)
  }

  // ----- entries -----

  predicate Present(e: Word) {
    e % 2 == 1
  }

  function FrameOf(e: Word): nat {
    e / 4096
  }

  /** pa | perm | PTE_P for the frame f. */
  function Entry(f: nat, perm: nat): (e: Word)
    requires f < PAGES && perm < 4096
    ensures Present(e) && FrameOf(e) == f
    ensures e % 4096 == if perm % 2 == 1 then perm else perm + 1
  {
    f * 4096 + if perm % 2 == 1 then perm else perm + 1
  }

  /** Kernel virtual address of frame f, as the free list links hold it. */
  function AddrOf(f: Frame): (a: Word)
    ensures a != 0 && FrameAt(a) == f
  {
    KERNBASE + f * 4096
  }

  function FrameAt(a: Word): int {
    (a - KERNBASE) / 4096
  }

  function Pdx(p: nat): nat {
    p / 1024
  }

  function Ptx(p: nat): (j: nat)
    ensures j < ENTRIES
  {
    p % 1024
  }

  lemma PageIndex(p: nat, q: nat)
    ensures Pdx(p) == Pdx(q) && Ptx(p) == Ptx(q) ==> p == q
    ensures p < PAGES ==> Pdx(p) < ENTRIES
  {
  }

  /** The page table as a partial map: entry of page p under directory d, 0 where
      the page table is absent. */
  function Pte(mem: seq<Page>, d: nat, p: nat): Word
    requires d < |mem| && p < PAGES
  {
    var e := mem[d][Pdx(p)];
    if Present(e) && FrameOf(e) < |mem| then mem[FrameOf(e)][Ptx(p)] else 0
  }

  // ----- who holds a frame -----

  datatype Role =
    | Kernel                     // below the first frame that kalloc manages
    | Held                       // handed out by kalloc, not part of an address space
    | Free(k: nat)               // k-th on the free list, counted from its end
    | Dir
    | Table(d: nat, i: nat)      // page table i of directory d
    | User(d: nat, p: nat)       // user page p of directory d

  ghost predicate IsDir(own: seq<Role>, d: nat) {
    d < |own| && own[d] == Dir
  }

  ghost predicate TableKnown(mem: seq<Page>, own: seq<Role>, d: nat, i: nat)
    requires |mem| == |own| && d < |mem| && i < ENTRIES
  {
    Present(mem[d][i]) ==> FrameOf(mem[d][i]) < |own| && own[FrameOf(mem[d][i])] == Table(d, i)
  }

  ghost predicate PageKnown(mem: seq<Page>, own: seq<Role>, d: nat, p: nat)
    requires |mem| == |own| && d < |mem| && p < USERPAGES
  {
    var e := Pte(mem, d, p);
    Present(e) ==> FrameOf(e) < |own| && own[FrameOf(e)] == User(d, p)
  }

  ghost predicate FreeKnown(mem: seq<Page>, own: seq<Role>, free: seq<Frame>, k: nat)
    requires |mem| == |own| == NFRAMES && k < |free|
  {
    own[free[k]] == Free(k) && mem[free[k]][0] == HeadOf(free[..k])
  }

  ghost predicate Honest(mem: seq<Page>, own: seq<Role>, free: seq<Frame>, first: nat, f: nat)
    requires |mem| == |own| && f < |own|
  {
    && (own[f] == Kernel <==> f < first)
    && match own[f]
       case Free(k) => k < |free| && free[k] == f
       case Table(d, i) => IsDir(own, d) && i < ENTRIES && Present(mem[d][i]) && FrameOf(mem[d][i]) == f
       case User(d, p) =>
         IsDir(own, d) && p < USERPAGES && Present(Pte(mem, d, p)) && FrameOf(Pte(mem, d, p)) == f
       case _ => true
  }

  /** Every frame has one role, and the role says how it is reached: so no frame is
      both free and mapped, and none is mapped twice. */
  ghost predicate Inv(mem: seq<Page>, own: seq<Role>, free: seq<Frame>, first: nat) {
    && |mem| == |own| == NFRAMES && 0 < first
    && (forall d: nat, i: nat | IsDir(own, d) && i < ENTRIES :: TableKnown(mem, own, d, i))
    && (forall d: nat, p: nat | IsDir(own, d) && p < USERPAGES :: PageKnown(mem, own, d, p))
    && (forall k: nat | k < |free| :: FreeKnown(mem, own, free, k))
    && (forall f: nat | f < |own| :: Honest(mem, own, free, first, f))
  }

  function HeadOf(free: seq<Frame>): Word {
    if free == [] then 0 else AddrOf(free[|free| - 1])
  }

  /** The roles at boot. */
  ghost function Boot(first: nat): (own: seq<Role>)
    ensures |own| == NFRAMES
    ensures forall f | 0 <= f < NFRAMES :: own[f] == if f < first then Kernel else Held
  {
    seq(NFRAMES, f => if f < first then Kernel else Held)
  }

  /** Page p is mapped at most once: two pages of any two spaces share no frame. */
  lemma MappedOnce(mem: seq<Page>, own: seq<Role>, free: seq<Frame>, first: nat, d: nat, p: nat, c: nat, q: nat)
    requires Inv(mem, own, free, first) && IsDir(own, d) && IsDir(own, c) && p < USERPAGES && q < USERPAGES
    requires Present(Pte(mem, d, p)) && Present(Pte(mem, c, q)) && FrameOf(Pte(mem, d, p)) == FrameOf(Pte(mem, c, q))
    ensures d == c && p == q
    ensures FrameOf(Pte(mem, d, p)) !in free
  {
    assert PageKnown(mem, own, d, p) && PageKnown(mem, own, c, q);
    assert forall k: nat | k < |free| :: FreeKnown(mem, own, free, k) ==> own[free[k]] == Free(k);
  }

  // ----- the free list -----

  lemma PopKeepsInv(mem: seq<Page>, own: seq<Role>, free: seq<Frame>, first: nat)
    requires Inv(mem, own, free, first) && |free| > 0
    ensures
      var f, rest := free[|free| - 1], free[..|free| - 1];
      && first <= f < NFRAMES && own[f] == Free(|rest|)
      && mem[f][0] == HeadOf(rest)
      && Inv(mem, own[f := Held], rest, first)
  {
    var f, rest := free[|free| - 1], free[..|free| - 1];
    assert FreeKnown(mem, own, free, |free| - 1) && Honest(mem, own, free, first, f);
    if |rest| > 0 {
      assert FreeKnown(mem, own, free, |free| - 2);
    }
    var own' := own[f := Held];
    SameDirs(own, own');
    forall d: nat, i: nat | IsDir(own', d) && i < ENTRIES
      ensures TableKnown(mem, own', d, i)
    {
      assert TableKnown(mem, own, d, i);
    }
    forall d: nat, p: nat | IsDir(own', d) && p < USERPAGES
      ensures PageKnown(mem, own', d, p)
    {
      assert PageKnown(mem, own, d, p);
    }
    forall k: nat | k < |rest|
      ensures FreeKnown(mem, own', rest, k)
    {
      assert FreeKnown(mem, own, free, k);
    }
    forall x: nat | x < |own|
      ensures Honest(mem, own', rest, first, x)
    {
      assert Honest(mem, own, free, first, x);
    }
  }

  lemma SameDirs(own: seq<Role>, own': seq<Role>)
    requires |own| == |own'| && forall f: nat | f < |own| :: own'[f] == Dir <==> own[f] == Dir
    ensures forall d: nat :: IsDir(own', d) <==> IsDir(own, d)
  {
  }

  /** Frames that carry no page table or free-list link may hold anything. */
  ghost predicate Plain(own: seq<Role>, f: nat)
    requires f < |own|
  {
    own[f] == Held || own[f] == Kernel || own[f].User?
  }

  lemma {:induction false} PteSame(mem: seq<Page>, mem': seq<Page>, own: seq<Role>, free: seq<Frame>, first: nat,
                                   d: nat, p: nat)
    requires Inv(mem, own, free, first) && |mem'| == |mem| && IsDir(own, d) && p < PAGES
    requires mem'[d] == mem[d]
    requires forall f: nat | f < |mem| && own[f].Table? && own[f].d == d :: mem'[f] == mem[f]
    ensures Pte(mem', d, p) == Pte(mem, d, p)
  {
    PageIndex(p, p);
    assert TableKnown(mem, own, d, Pdx(p));
  }

  lemma WriteKeepsInv(mem: seq<Page>, own: seq<Role>, free: seq<Frame>, first: nat, f: nat, data: Page)
    requires Inv(mem, own, free, first) && f < |mem| && Plain(own, f)
    ensures Inv(mem[f := data], own, free, first)
    ensures forall d: nat, p: nat | IsDir(own, d) && p < PAGES :: Pte(mem[f := data], d, p) == Pte(mem, d, p)
  {
    var mem' := mem[f := data];
    forall d: nat, p: nat | IsDir(own, d) && p < PAGES
      ensures Pte(mem', d, p) == Pte(mem, d, p)
    {
      PteSame(mem, mem', own, free, first, d, p);
    }
    forall d: nat, i: nat | IsDir(own, d) && i < ENTRIES
      ensures TableKnown(mem', own, d, i)
    {
      assert TableKnown(mem, own, d, i);
    }
    forall d: nat, p: nat | IsDir(own, d) && p < USERPAGES
      ensures PageKnown(mem', own, d, p)
    {
      assert PageKnown(mem, own, d, p);
    }
    forall k: nat | k < |free|
      ensures FreeKnown(mem', own, free, k)
    {
      assert FreeKnown(mem, own, free, k);
    }
    forall x: nat | x < |own|
      ensures Honest(mem', own, free, first, x)
    {
      assert Honest(mem, own, free, first, x);
    }
  }

  /** kfree's junk fill with the link to the old head in its first word. */
  function Linked(head: Word): Page {
    Filled(0x01010101)[0 := head]
  }

  lemma PushKeepsInv(mem: seq<Page>, own: seq<Role>, free: seq<Frame>, first: nat, f: nat)
    requires Inv(mem, own, free, first) && f < NFRAMES && own[f] == Held
    ensures Inv(mem[f := Linked(HeadOf(free))], own[f := Free(|free|)], free + [f], first)
    ensures forall d: nat, p: nat | IsDir(own, d) && p < PAGES ::
              Pte(mem[f := Linked(HeadOf(free))], d, p) == Pte(mem, d, p)
  {
    var mem', own', free' := mem[f := Linked(HeadOf(free))], own[f := Free(|free|)], free + [f];
    WriteKeepsInv(mem, own, free, first, f, mem'[f]);
    SameDirs(own, own');
    forall d: nat, i: nat | IsDir(own', d) && i < ENTRIES
      ensures TableKnown(mem', own', d, i)
    {
      assert TableKnown(mem', own, d, i);
    }
    forall d: nat, p: nat | IsDir(own', d) && p < USERPAGES
      ensures PageKnown(mem', own', d, p)
    {
      assert PageKnown(mem', own, d, p);
    }
    forall k: nat | k < |free'|
      ensures FreeKnown(mem', own', free', k)
    {
      if k < |free| {
        assert FreeKnown(mem', own, free, k);
      } else if k > 0 {
        assert FreeKnown(mem', own, free, k - 1);
      }
    }
    forall x: nat | x < |own|
      ensures Honest(mem', own', free', first, x)
    {
      assert Honest(mem', own, free, first, x);
    }
  }
}
