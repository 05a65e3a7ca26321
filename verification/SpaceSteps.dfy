/** What mappages, deallocuvm, allocuvm, freevm, setupkvm and copyuvm do to the maps
    and the frames, step by step (vm.c). */
module SpaceSteps {
  import opened Blocks
  import opened Common
  import opened Frames
  import opened Spaces

  const WRITE_USER := 6     // PTE_W | PTE_U

  datatype Outcome = Done | NoMemory | Remap

  /** The page of the last byte. */
  function LastPage(va: nat, size: nat): (p: nat)
    requires 0 < size
    ensures va / 4096 <= p
  {
    (va + size - 1) / 4096
  }

  lemma OnePage(p: nat, f: nat)
    requires p < PAGES && f < PAGES
    ensures LastPage(p * 4096, 4096) == p * 4096 / 4096 == p && f * 4096 / 4096 == f && f * 4096 % 4096 == 0
    ensures p * 4096 + 4096 <= 0x1_0000_0000 && f * 4096 < 0x1_0000_0000
  {
  }

  function PageUp(sz: nat): nat {
    (sz + 4095) / 4096
  }

  /** The roles when n frames from f on have become the pages from p on of d; pages
      of the kernel take no frames. */
  ghost function Given(own: seq<Role>, d: nat, p: nat, f: nat, n: nat): (r: seq<Role>)
    ensures |r| == |own|
    ensures forall x {:trigger r[x]} | 0 <= x < |own| ::
              r[x] == if f <= x < f + n && p + x - f < USERPAGES then User(d, p + x - f) else own[x]
  {
    seq(|own|, x requires 0 <= x < |own| =>
      if f <= x < f + n && p + x - f < USERPAGES then User(d, p + x - f) else own[x])
  }

  /** One more frame handed over does not disturb what was kept so far. */
  lemma KeptGiven(mem: seq<Page>, own: seq<Role>, mem1: seq<Page>, own1: seq<Role>, d: nat, lo: nat, hi: nat,
                  f: nat, p: nat, own': seq<Role>, own1': seq<Role>)
    requires Kept(mem, own, mem1, own1, d, lo, hi) && f < |own| && f != d && own[f] == Held && !(lo <= p < hi)
    requires own' == own[f := User(d, p)] && own1' == own1[f := User(d, p)]
    ensures own1[f] == Held && Kept(mem, own', mem1, own1', d, lo, hi)
  {
    assert FrameKept(mem, own, mem1, own1, d, lo, hi, f);
    forall x: nat | x < |mem| && x != d
      ensures FrameKept(mem, own', mem1, own1', d, lo, hi, x)
    {
      assert FrameKept(mem, own, mem1, own1, d, lo, hi, x);
    }
  }

  lemma GivenNone(own: seq<Role>, d: nat, p: nat, f: nat)
    ensures Given(own, d, p, f, 0) == own
  {
  }

  lemma GivenKernel(own: seq<Role>, d: nat, p: nat, f: nat, n: nat)
    requires p >= USERPAGES
    ensures Given(own, d, p, f, n) == own
  {
  }

  /** Handing over frames one by one. */
  lemma GivenMore(own: seq<Role>, d: nat, p: nat, f: nat, n: nat)
    requires p + n < USERPAGES ==> f + n < |own|
    ensures Given(own, d, p, f, n + 1)
         == if p + n < USERPAGES then Given(own, d, p, f, n)[f + n := User(d, p + n)] else Given(own, d, p, f, n)
  {
  }

  /** Changing a table of d is within what is allowed. */
  lemma KeptTable(mem: seq<Page>, own: seq<Role>, mem1: seq<Page>, own1: seq<Role>, d: nat, lo: nat, hi: nat, t: nat,
                  data: Page)
    requires Kept(mem, own, mem1, own1, d, lo, hi) && t < |own| && own1[t].Table? && own1[t].d == d
    ensures Kept(mem, own, mem1[t := data], own1, d, lo, hi)
  {
    var mem2 := mem1[t := data];
    forall x: nat | x < |mem| && x != d
      ensures FrameKept(mem, own, mem2, own1, d, lo, hi, x)
    {
      assert FrameKept(mem, own, mem1, own1, d, lo, hi, x);
    }
  }

  lemma KeptDirs(mem: seq<Page>, own: seq<Role>, mem1: seq<Page>, own1: seq<Role>, d: nat, lo: nat, hi: nat)
    requires Kept(mem, own, mem1, own1, d, lo, hi) && IsDir(own, d) && IsDir(own1, d)
    ensures forall x: nat :: IsDir(own, x) <==> IsDir(own1, x)
  {
    forall x: nat | x < |own| && x != d
      ensures own[x] == Dir <==> own1[x] == Dir
    {
      assert FrameKept(mem, own, mem1, own1, d, lo, hi, x);
    }
  }

  // ----- mappages -----

  ghost predicate HeldFrame(own: seq<Role>, x: nat) {
    x < |own| && own[x] == Held
  }

  /** The caller holds the frames for those of the n pages from p on that are user pages. */
  ghost predicate HeldFrames(own: seq<Role>, p: nat, f: nat, n: nat) {
    forall x: nat | f <= x < f + n && p + x - f < USERPAGES :: HeldFrame(own, x)
  }

  /** All maps are as they were, but for n pages of d from p on, which now are the
      frames from f on. */
  ghost predicate Mapped(own: seq<Role>, mem: seq<Page>, mem': seq<Page>, d: nat, p: nat, f: nat, n: nat, perm: nat)
    requires |own| == |mem| == |mem'| && f + n <= PAGES && perm < 4096
  {
    forall x: nat, q: nat | IsDir(own, x) && q < PAGES ::
      Pte(mem', x, q) == if x == d && p <= q < p + n then Entry(f + q - p, perm) else Pte(mem, x, q)
  }

  /** An absent entry in table t is filled in. */
  lemma MapPageDone(mem0: seq<Page>, own0: seq<Role>, mem: seq<Page>, own: seq<Role>, free: seq<Frame>, first: nat,
                    d: nat, p: nat, t: nat, f: nat, perm: nat, own': seq<Role>)
    requires IsDir(own0, d) && IsDir(own, d) && p < PAGES && f < PAGES && perm < 4096 && HeldFrames(own0, p, f, 1)
    requires Kept(mem0, own0, mem, own, d, 0, 0) && SameMaps(own0, mem0, mem) && Inv(mem, own, free, first)
    requires InTable(mem, d, p, t) && !Present(Pte(mem, d, p))
    requires own' == if p < USERPAGES && f < |own| then own[f := User(d, p)] else own
    ensures Inv(WithPte(mem, t, p, Entry(f, perm)), own', free, first)
    ensures Kept(mem0, Given(own0, d, p, f, 1), WithPte(mem, t, p, Entry(f, perm)), own', d, 0, 0)
    ensures OneChanged(own0, mem0, WithPte(mem, t, p, Entry(f, perm)), d, p, Entry(f, perm))
  {
    KeptDirs(mem0, own0, mem, own, d, 0, 0);
    SetPte(mem, own, free, first, d, p, t, Entry(f, perm));
    GivenNone(own0, d, p, f);
    assert p < USERPAGES ==> HeldFrame(own0, f);
    GivenMore(own0, d, p, f, 0);
    if p < USERPAGES {
      KeptGiven(mem0, own0, mem, own, d, 0, 0, f, p, Given(own0, d, p, f, 1), own');
    }
    PteKeepsInv(mem, own, free, first, d, p, t, Entry(f, perm), f % NFRAMES, own');
    KeptTable(mem0, Given(own0, d, p, f, 1), mem, own', d, 0, 0, t, mem[t][Ptx(p) := Entry(f, perm)]);
  }

  /** The tables that are missing in directory page `dir` for the n pages from p on. */
  ghost function NewTables(dir: Page, p: nat, n: nat): nat
    requires p + n <= PAGES
  {
    if n == 0 then 0
    else
      NewTables(dir, p, n - 1)
      + if !Present(dir[Pdx(p + n - 1)]) && (n == 1 || Pdx(p + n - 2) != Pdx(p + n - 1)) then 1 else 0
  }

  /** dir' has the tables of dir and those for the n pages from p on. */
  ghost predicate TablesFor(dir: Page, dir': Page, p: nat, n: nat) {
    forall i | 0 <= i < ENTRIES :: Present(dir'[i]) <==> Present(dir[i]) || (n > 0 && Pdx(p) <= i <= Pdx(p + n - 1))
  }

  lemma TablesMore(dir: Page, dir1: Page, dir2: Page, p: nat, n: nat)
    requires p + n < PAGES && TablesFor(dir, dir1, p, n) && TablesFor(dir1, dir2, p + n, 1)
    ensures TablesFor(dir, dir2, p, n + 1)
    ensures NewTables(dir, p, n + 1) == NewTables(dir, p, n) + NewTables(dir1, p + n, 1)
  {
    assert NewTables(dir1, p + n, 0) == 0;
    assert p + n + 1 - 1 == p + n && p + (n + 1) - 2 == p + n - 1;
    assert n > 0 ==> Pdx(p + n) == Pdx(p + n - 1) || Pdx(p + n) == Pdx(p + n - 1) + 1;
    assert Pdx(p + n) < ENTRIES;
  }

  /** Where mappages is: n pages are mapped, and the tables for them are there. */
  ghost predicate Mapping(mem0: seq<Page>, own0: seq<Role>, free0: seq<Frame>, mem: seq<Page>, own: seq<Role>,
                          free: seq<Frame>, d: nat, p: nat, f: nat, n: nat, perm: nat)
    requires f + n <= PAGES && p + n <= PAGES && perm < 4096 && d < |mem0|
  {
    && Kept(mem0, Given(own0, d, p, f, n), mem, own, d, 0, 0)
    && Mapped(own0, mem0, mem, d, p, f, n, perm)
    && |free| == |free0| - NewTables(mem0[d], p, n)
    && TablesFor(mem0[d], mem[d], p, n)
  }

  lemma MappingStarts(mem: seq<Page>, own: seq<Role>, free: seq<Frame>, d: nat, p: nat, f: nat, perm: nat)
    requires f <= PAGES && p <= PAGES && perm < 4096 && IsDir(own, d) && |mem| == |own|
    ensures Mapping(mem, own, free, mem, own, free, d, p, f, 0, perm)
  {
    GivenNone(own, d, p, f);
  }

  lemma MappingMore(mem0: seq<Page>, own0: seq<Role>, free0: seq<Frame>, mem: seq<Page>, own: seq<Role>,
                    free: seq<Frame>,
                    mem': seq<Page>, own': seq<Role>, free': seq<Frame>, d: nat, p: nat, f: nat, n: nat, perm: nat)
    requires IsDir(own0, d) && IsDir(own, d) && IsDir(own', d) && d < |mem0| && d < |mem| == |own|
    requires f + n < PAGES && p + n < PAGES && perm < 4096 && HeldFrames(own0, p, f, n + 1)
    requires Mapping(mem0, own0, free0, mem, own, free, d, p, f, n, perm)
    requires Mapping(mem, own, free, mem', own', free', d, p + n, f + n, 1, perm)
    ensures Mapping(mem0, own0, free0, mem', own', free', d, p, f, n + 1, perm)
  {
    assert OneChanged(own, mem, mem', d, p + n, Entry(f + n, perm));
    MappedMore(mem0, own0, mem, own, mem', own', d, p, f, n, perm);
    TablesMore(mem0[d], mem[d], mem'[d], p, n);
  }

  /** The frames not yet mapped are still the caller's. */
  lemma StillHeld(mem0: seq<Page>, own0: seq<Role>, free0: seq<Frame>, mem: seq<Page>, own: seq<Role>, free: seq<Frame>,
                  d: nat, p: nat, f: nat, n: nat, m: nat, perm: nat)
    requires f + n < PAGES && p + n < PAGES && perm < 4096 && IsDir(own0, d) && d < |mem0|
    requires Mapping(mem0, own0, free0, mem, own, free, d, p, f, n, perm) && n < m && HeldFrames(own0, p, f, m)
    ensures HeldFrames(own, p + n, f + n, 1)
  {
    if p + n < USERPAGES {
      assert HeldFrame(own0, f + n);
      assert FrameKept(mem0, Given(own0, d, p, f, n), mem, own, d, 0, 0, f + n);
    }
  }

  /** One turn of the loop of mappages, after n pages. */
  lemma MappedMore(mem0: seq<Page>, own0: seq<Role>, mem: seq<Page>, own: seq<Role>, mem': seq<Page>, own': seq<Role>,
                   d: nat, p: nat, f: nat, n: nat, perm: nat)
    requires IsDir(own0, d) && IsDir(own, d) && IsDir(own', d)
    requires f + n < PAGES && p + n < PAGES && perm < 4096 && HeldFrames(own0, p, f, n + 1)
    requires Kept(mem0, Given(own0, d, p, f, n), mem, own, d, 0, 0)
    requires Mapped(own0, mem0, mem, d, p, f, n, perm)
    requires Kept(mem, Given(own, d, p + n, f + n, 1), mem', own', d, 0, 0)
    requires OneChanged(own, mem, mem', d, p + n, Entry(f + n, perm))
    ensures Kept(mem0, Given(own0, d, p, f, n + 1), mem', own', d, 0, 0)
    ensures Mapped(own0, mem0, mem', d, p, f, n + 1, perm)
  {
    assert p + n < USERPAGES ==> HeldFrame(own0, f + n);
    assert forall x: nat :: IsDir(own0, x) <==> IsDir(Given(own0, d, p, f, n), x) by {
      NoDirGiven(own0, d, p, f, n);
    }
    KeptDirs(mem0, Given(own0, d, p, f, n), mem, own, d, 0, 0);
    GivenMore(own0, d, p, f, n);
    GivenNone(own, d, p + n, f + n);
    GivenMore(own, d, p + n, f + n, 0);
    if p + n < USERPAGES {
      KeptGiven(mem0, Given(own0, d, p, f, n), mem, own, d, 0, 0, f + n, p + n,
                Given(own0, d, p, f, n + 1), Given(own, d, p + n, f + n, 1));
    }
    KeptTwice(mem0, Given(own0, d, p, f, n + 1), mem, Given(own, d, p + n, f + n, 1), mem', own', d, 0, 0);
  }

  /** The end of mappages where it fails: a table may have been added. */
  lemma MappedStop(mem0: seq<Page>, own0: seq<Role>, mem: seq<Page>, own: seq<Role>, mem': seq<Page>, own': seq<Role>,
                   d: nat, p: nat, f: nat, n: nat, perm: nat)
    requires IsDir(own0, d) && IsDir(own, d) && f + n < PAGES && perm < 4096 && HeldFrames(own0, p, f, n)
    requires Kept(mem0, Given(own0, d, p, f, n), mem, own, d, 0, 0)
    requires Mapped(own0, mem0, mem, d, p, f, n, perm)
    requires Kept(mem, own, mem', own', d, 0, 0) && SameMaps(own, mem, mem')
    ensures Kept(mem0, Given(own0, d, p, f, n), mem', own', d, 0, 0)
    ensures Mapped(own0, mem0, mem', d, p, f, n, perm)
  {
    NoDirGiven(own0, d, p, f, n);
    KeptDirs(mem0, Given(own0, d, p, f, n), mem, own, d, 0, 0);
    KeptTwice(mem0, Given(own0, d, p, f, n), mem, own, mem', own', d, 0, 0);
  }

  /** How mappages ends at a page that is mapped already. */
  ghost predicate Remapped(mem0: seq<Page>, own0: seq<Role>, mem: seq<Page>, own: seq<Role>,
                           d: nat, p: nat, f: nat, n: nat, perm: nat)
    requires f + n < PAGES && p + n < PAGES && perm < 4096 && d < |mem0|
  {
    && Kept(mem0, Given(own0, d, p, f, n), mem, own, d, 0, 0)
    && Mapped(own0, mem0, mem, d, p, f, n, perm)
    && Present(Pte(mem0, d, p + n))
  }

  lemma NoDirGiven(own: seq<Role>, d: nat, p: nat, f: nat, n: nat)
    requires HeldFrames(own, p, f, n)
    ensures forall x: nat :: IsDir(own, x) <==> IsDir(Given(own, d, p, f, n), x)
  {
    forall x: nat | f <= x < f + n && p + x - f < USERPAGES
      ensures !IsDir(own, x)
    {
      assert HeldFrame(own, x);
    }
  }

  // ----- deallocuvm -----

  /** All maps are as they were, but the pages of d between lo and hi are gone. */
  ghost predicate Unmapped(own: seq<Role>, mem: seq<Page>, mem': seq<Page>, d: nat, lo: nat, hi: nat)
    requires |own| == |mem| == |mem'|
  {
    forall x: nat, q: nat | IsDir(own, x) && q < PAGES ::
      Pte(mem', x, q) == if x == d && lo <= q < hi && Present(Pte(mem, x, q)) then 0 else Pte(mem, x, q)
  }

  /** An absent table takes care of all its pages at once. */
  lemma JumpTable(own: seq<Role>, mem0: seq<Page>, mem: seq<Page>, d: nat, lo: nat, p: nat, c: nat)
    requires |own| == |mem0| == |mem| && IsDir(own, d) && Unmapped(own, mem0, mem, d, lo, p)
    requires p < USERPAGES && !Present(mem[d][Pdx(p)]) && p <= c <= (Pdx(p) + 1) * 1024
    ensures Unmapped(own, mem0, mem, d, lo, c)
  {
    forall q: nat | p <= q < c
      ensures Pte(mem, d, q) == 0
    {
      assert Pdx(q) == Pdx(p);
    }
  }

  lemma SkipPage(own: seq<Role>, mem0: seq<Page>, mem: seq<Page>, d: nat, lo: nat, p: nat)
    requires |own| == |mem0| == |mem| && IsDir(own, d) && p < PAGES && Unmapped(own, mem0, mem, d, lo, p)
    requires !Present(Pte(mem, d, p))
    ensures Unmapped(own, mem0, mem, d, lo, p + 1)
  {
  }

  /** Every frame that was free or a page between lo and hi is free. */
  ghost predicate Returned(own: seq<Role>, own': seq<Role>, d: nat, lo: nat, hi: nat)
    requires |own| == |own'|
  {
    forall f: nat | f < |own| :: own[f].Free? || UserBetween(own[f], d, lo, hi) ==> own'[f].Free?
  }

  lemma AllReturned(mem: seq<Page>, own: seq<Role>, mem': seq<Page>, own': seq<Role>, free': seq<Frame>, first: nat,
                    d: nat, lo: nat, hi: nat)
    requires Inv(mem', own', free', first) && Kept(mem, own, mem', own', d, lo, hi) && IsDir(own, d) && IsDir(own', d)
    requires Unmapped(own, mem, mem', d, lo, hi)
    requires forall f: nat | f < |own| :: own'[f].Table? ==> own[f] == own'[f]
    ensures Returned(own, own', d, lo, hi)
  {
    forall f: nat | f < |own| && (own[f].Free? || UserBetween(own[f], d, lo, hi))
      ensures own'[f].Free?
    {
      assert f != d && FrameKept(mem, own, mem', own', d, lo, hi, f);
      assert Honest(mem', own', free', first, f);
      assert own'[f].User? ==> !Present(Pte(mem', d, own'[f].p));
    }
  }

  lemma PageFreed(mem: seq<Page>, own: seq<Role>, mem': seq<Page>, own': seq<Role>, d: nat, lo: nat, hi: nat, f: nat,
                  t: nat)
    requires |mem| == |own| == |mem'| == |own'| && f < |mem| && t < |mem|
    requires UserBetween(own[f], d, lo, hi) && own[t].Table? && own[t].d == d
    requires own'[f].Free? && own' == own[f := own'[f]] && mem' == mem[f := mem'[f]][t := mem'[t]]
    ensures Kept(mem, own, mem', own', d, lo, hi)
  {
    forall x: nat | x < |mem| && x != d
      ensures FrameKept(mem, own, mem', own', d, lo, hi, x)
    {
    }
  }

  // ----- allocuvm -----

  /** An entry as a place in a partial map. */
  function View(e: Word): Word {
    if Present(e) then e else 0
  }

  ghost predicate SameViews(own: seq<Role>, mem: seq<Page>, mem': seq<Page>)
    requires |own| == |mem| == |mem'|
  {
    forall x: nat, q: nat | IsDir(own, x) && q < PAGES :: View(Pte(mem', x, q)) == View(Pte(mem, x, q))
  }

  /** e is a zeroed page that the user may write to. */
  ghost predicate ZeroPage(mem: seq<Page>, e: Word) {
    Present(e) && e % 4096 == 7 && FrameOf(e) < |mem| && mem[FrameOf(e)] == Filled(0)
  }

  ghost predicate Clear(mem: seq<Page>, d: nat, lo: nat, hi: nat)
    requires d < |mem|
  {
    forall q: nat | lo <= q < hi && q < PAGES :: !Present(Pte(mem, d, q))
  }

  /** All maps are as they were, but for new zeroed pages of d from lo up to hi. */
  ghost predicate Grown(own: seq<Role>, mem: seq<Page>, mem': seq<Page>, d: nat, lo: nat, hi: nat)
    requires |own| == |mem| == |mem'|
  {
    forall x: nat, q: nat | IsDir(own, x) && q < PAGES ::
      if x == d && lo <= q < hi then ZeroPage(mem', Pte(mem', x, q)) else Pte(mem', x, q) == Pte(mem, x, q)
  }

  lemma KeptWider(mem: seq<Page>, own: seq<Role>, mem': seq<Page>, own': seq<Role>, d: nat, lo: nat, hi: nat,
                  lo': nat, hi': nat)
    requires Kept(mem, own, mem', own', d, lo, hi) && (lo < hi ==> lo' <= lo && hi <= hi')
    ensures Kept(mem, own, mem', own', d, lo', hi')
  {
    forall f: nat | f < |mem| && f != d
      ensures FrameKept(mem, own, mem', own', d, lo', hi', f)
    {
      assert FrameKept(mem, own, mem', own', d, lo, hi, f);
    }
  }

  /** A frame taken from the free list at the start and back in the pool at the end. */
  lemma KeptAround(mem: seq<Page>, own: seq<Role>, mem1: seq<Page>, own1: seq<Role>, mem2: seq<Page>, own2: seq<Role>,
                   mem3: seq<Page>, own3: seq<Role>, d: nat, lo: nat, hi: nat, f: nat)
    requires Kept(mem1, own1, mem2, own2, d, lo, hi) && f < |mem1| == |mem| == |own| == |mem3| == |own3|
    requires own[f].Free? && InPool(own3[f], d, lo, hi)
    requires mem1 == mem[f := mem1[f]] && own1 == own[f := own1[f]]
    requires mem3 == mem2[f := mem3[f]] && own3 == own2[f := own3[f]]
    ensures Kept(mem, own, mem3, own3, d, lo, hi)
  {
    forall x: nat | x < |mem| && x != d
      ensures FrameKept(mem, own, mem3, own3, d, lo, hi, x)
    {
      assert FrameKept(mem1, own1, mem2, own2, d, lo, hi, x);
    }
  }

  /** Where no page between lo and hi is mapped before or after, no frame went there. */
  lemma KeptNarrow(mem: seq<Page>, own: seq<Role>, free: seq<Frame>, mem': seq<Page>, own': seq<Role>,
                   free': seq<Frame>,
                   first: nat, d: nat, lo: nat, hi: nat)
    requires Inv(mem, own, free, first) && Inv(mem', own', free', first) && IsDir(own, d) && IsDir(own', d)
    requires Kept(mem, own, mem', own', d, lo, hi) && Clear(mem, d, lo, hi) && Clear(mem', d, lo, hi)
    ensures Kept(mem, own, mem', own', d, 0, 0)
  {
    forall f: nat | f < |mem| && f != d
      ensures FrameKept(mem, own, mem', own', d, 0, 0, f)
    {
      assert FrameKept(mem, own, mem', own', d, lo, hi, f);
      assert Honest(mem, own, free, first, f) && Honest(mem', own', free', first, f);
    }
  }

  /** A frame has gone from the free list to page p. */
  lemma PagePut(mem: seq<Page>, own: seq<Role>, mem1: seq<Page>, own1: seq<Role>, mem': seq<Page>, own': seq<Role>,
                d: nat, p: nat, f: nat, content: Page)
    requires f < |mem| == |own| && f != d && own[f].Free? && p < USERPAGES
    requires mem1 == mem[f := content] && own1 == own[f := Held]
    requires Kept(mem1, Given(own1, d, p, f, 1), mem', own', d, 0, 0)
    ensures Kept(mem, own, mem', own', d, p, p + 1) && mem'[f] == content
  {
    GivenNone(own1, d, p, f);
    GivenMore(own1, d, p, f, 0);
    assert FrameKept(mem1, Given(own1, d, p, f, 1), mem', own', d, 0, 0, f);
    KeptWider(mem1, Given(own1, d, p, f, 1), mem', own', d, 0, 0, p, p + 1);
    KeptAround(mem, own, mem1, Given(own1, d, p, f, 1), mem', own', mem', own', d, p, p + 1, f);
  }

  lemma GrownMore(own0: seq<Role>, mem0: seq<Page>, own: seq<Role>, free: seq<Frame>, first: nat,
                  mem: seq<Page>, mem': seq<Page>, own': seq<Role>, d: nat, lo: nat, p: nat, f: nat)
    requires |own0| == |mem0| == |mem| && Inv(mem, own, free, first) && IsDir(own, d)
    requires (forall x: nat :: IsDir(own0, x) <==> IsDir(own, x)) && lo <= p < USERPAGES
    requires Grown(own0, mem0, mem, d, lo, p) && Kept(mem, own, mem', own', d, p, p + 1)
    requires !Present(Pte(mem, d, p))
    requires f < NFRAMES && OneChanged(own, mem, mem', d, p, Entry(f, WRITE_USER)) && mem'[f] == Filled(0)
    ensures Grown(own0, mem0, mem', d, lo, p + 1)
  {
    forall x: nat, q: nat | IsDir(own0, x) && q < PAGES
      ensures if x == d && lo <= q < p + 1 then ZeroPage(mem', Pte(mem', x, q)) else Pte(mem', x, q) == Pte(mem0, x, q)
    {
      if x == d && lo <= q < p {
        assert PageKnown(mem, own, d, q);
        var g := FrameOf(Pte(mem, d, q));
        assert g != d && FrameKept(mem, own, mem', own', d, p, p + 1, g);
      }
    }
  }

  /** After deallocuvm the pages that allocuvm had added are gone again. */
  lemma GrownBack(own: seq<Role>, mem: seq<Page>, mem1: seq<Page>, mem2: seq<Page>, own1: seq<Role>, d: nat, lo: nat,
                  p: nat, hi: nat)
    requires |own| == |mem| == |mem1| == |mem2| == |own1| && IsDir(own, d) && p <= hi <= USERPAGES
    requires forall x: nat :: IsDir(own, x) <==> IsDir(own1, x)
    requires Clear(mem, d, lo, hi) && Grown(own, mem, mem1, d, lo, p) && Unmapped(own1, mem1, mem2, d, lo, hi)
    ensures SameViews(own, mem, mem2) && Clear(mem2, d, lo, hi)
  {
  }

  /** One more page in the loop of allocuvm. */
  lemma AllocTurn(mem: seq<Page>, own: seq<Role>, mem1: seq<Page>, own1: seq<Role>, free1: seq<Frame>, first: nat,
                  mem2: seq<Page>, own2: seq<Role>, d: nat, lo: nat, p: nat, hi: nat, f: nat)
    requires IsDir(own, d) && IsDir(own1, d) && Inv(mem1, own1, free1, first) && lo <= p < hi <= USERPAGES &&
             f < NFRAMES
    requires Kept(mem, own, mem1, own1, d, lo, hi) && Grown(own, mem, mem1, d, lo, p)
    requires Kept(mem1, own1, mem2, own2, d, p, p + 1) && !Present(Pte(mem1, d, p))
    requires OneChanged(own1, mem1, mem2, d, p, Entry(f, WRITE_USER)) && mem2[f] == Filled(0)
    ensures Kept(mem, own, mem2, own2, d, lo, hi) && Grown(own, mem, mem2, d, lo, p + 1)
  {
    KeptDirs(mem, own, mem1, own1, d, lo, hi);
    KeptWider(mem1, own1, mem2, own2, d, p, p + 1, lo, hi);
    KeptTwice(mem, own, mem1, own1, mem2, own2, d, lo, hi);
    GrownMore(own, mem, own1, free1, first, mem1, mem2, own2, d, lo, p, f);
  }

  /** The way back in allocuvm. */
  lemma AllocBack(mem: seq<Page>, own: seq<Role>, free: seq<Frame>, first: nat, mem1: seq<Page>, own1: seq<Role>,
                  mem2: seq<Page>, own2: seq<Role>, free2: seq<Frame>, d: nat, lo: nat, p: nat, hi: nat)
    requires IsDir(own, d) && IsDir(own1, d) && IsDir(own2, d) && p <= hi <= USERPAGES
    requires Inv(mem, own, free, first) && Inv(mem2, own2, free2, first)
    requires Clear(mem, d, lo, hi) && Kept(mem, own, mem1, own1, d, lo, hi) && Grown(own, mem, mem1, d, lo, p)
    requires Kept(mem1, own1, mem2, own2, d, lo, hi) && Unmapped(own1, mem1, mem2, d, lo, hi)
    ensures SameViews(own, mem, mem2) && Kept(mem, own, mem2, own2, d, 0, 0)
  {
    KeptDirs(mem, own, mem1, own1, d, lo, hi);
    KeptTwice(mem, own, mem1, own1, mem2, own2, d, lo, hi);
    GrownBack(own, mem, mem1, mem2, own1, d, lo, p, hi);
    KeptNarrow(mem, own, free, mem2, own2, free2, first, d, lo, hi);
  }

  /** Frames that n pages from lo on take: one each, and one for each table that is
      missing in directory page `dir`. */
  ghost function Demand(dir: Page, lo: nat, n: nat): nat
    requires lo + n <= PAGES
  {
    n + NewTables(dir, lo, n)
  }

  /** n pages from lo on have been paid for out of free0 frames. */
  ghost predicate Supplied(dir0: Page, dir: Page, lo: nat, n: nat, free0: nat, free: nat) {
    lo + n <= PAGES && free0 == free + Demand(dir0, lo, n) && TablesFor(dir0, dir, lo, n)
  }

  lemma SuppliedMore(dir0: Page, dir: Page, dir': Page, lo: nat, n: nat, free0: nat, free: nat, free': nat)
    requires Supplied(dir0, dir, lo, n, free0, free) && lo + n < PAGES
    requires free == free' + 1 + NewTables(dir, lo + n, 1) && TablesFor(dir, dir', lo + n, 1)
    ensures Supplied(dir0, dir', lo, n + 1, free0, free')
  {
    TablesMore(dir0, dir, dir', lo, n);
  }

  lemma {:induction false} DemandMonotone(dir: Page, lo: nat, n: nat, m: nat)
    requires n <= m && lo + m <= PAGES
    ensures Demand(dir, lo, n) <= Demand(dir, lo, m)
  {
    if n < m {
      DemandMonotone(dir, lo, n, m - 1);
    }
  }

  /** The next page fails: there is no frame, or only one and a table is missing too. */
  lemma SupplyFails(dir0: Page, dir: Page, lo: nat, n: nat, m: nat, free0: nat, free: nat)
    requires Supplied(dir0, dir, lo, n, free0, free) && n < m && lo + m <= PAGES
    requires free == 0 || (free == 1 && !Present(dir[Pdx(lo + n)]))
    ensures free0 < Demand(dir0, lo, m)
  {
    var dir' := dir[Pdx(lo + n) := 1];
    assert NewTables(dir, lo + n, 0) == 0;
    assert TablesFor(dir, dir', lo + n, 1);
    TablesMore(dir0, dir, dir', lo, n);
    DemandMonotone(dir0, lo, n + 1, m);
  }

  /** Where allocuvm is: the pages from lo up to p are mapped and paid for. */
  ghost predicate Growing(mem0: seq<Page>, own0: seq<Role>, free0: seq<Frame>, mem: seq<Page>, own: seq<Role>,
                          free: seq<Frame>, d: nat, lo: nat, p: nat, hi: nat) {
    && lo <= p <= hi <= USERPAGES && d < |mem0| == |own0| == |mem|
    && Kept(mem0, own0, mem, own, d, lo, hi)
    && Grown(own0, mem0, mem, d, lo, p)
    && Supplied(mem0[d], mem[d], lo, p - lo, |free0|, |free|)
  }

  lemma GrowingStarts(mem: seq<Page>, own: seq<Role>, free: seq<Frame>, d: nat, lo: nat, hi: nat)
    requires lo <= hi <= USERPAGES && IsDir(own, d) && |mem| == |own|
    ensures Growing(mem, own, free, mem, own, free, d, lo, lo, hi)
  {
    assert NewTables(mem[d], lo, 0) == 0;
  }

  /** One turn of the loop of allocuvm that finds its frames. */
  lemma GrowingMore(mem0: seq<Page>, own0: seq<Role>, free0: seq<Frame>, mem: seq<Page>, own: seq<Role>,
                    free: seq<Frame>,
                    first: nat, mem': seq<Page>, own': seq<Role>, free': seq<Frame>,
                    d: nat, lo: nat, p: nat, next: nat, hi: nat, f: nat)
    requires Growing(mem0, own0, free0, mem, own, free, d, lo, p, hi) && p < hi && next == p + 1
    requires IsDir(own0, d) && IsDir(own, d) && Inv(mem, own, free, first) && f < NFRAMES
    requires Kept(mem, own, mem', own', d, p, p + 1) && !Present(Pte(mem, d, p))
    requires OneChanged(own, mem, mem', d, p, Entry(f, WRITE_USER)) && mem'[f] == Filled(0)
    requires |free'| == |free| - 1 - NewTables(mem[d], p, 1) && TablesFor(mem[d], mem'[d], p, 1)
    ensures Growing(mem0, own0, free0, mem', own', free', d, lo, next, hi)
  {
    AllocTurn(mem0, own0, mem, own, free, first, mem', own', d, lo, p, hi, f);
    SuppliedMore(mem0[d], mem[d], mem'[d], lo, p - lo, |free0|, |free|, |free'|);
  }

  /** One that does not. */
  lemma GrowingFails(mem0: seq<Page>, own0: seq<Role>, free0: seq<Frame>, mem: seq<Page>, own: seq<Role>,
                     free: seq<Frame>, d: nat, lo: nat, p: nat, hi: nat)
    requires Growing(mem0, own0, free0, mem, own, free, d, lo, p, hi) && p < hi
    requires free == [] || (|free| == 1 && !Present(mem[d][Pdx(p)]))
    ensures |free0| < Demand(mem0[d], lo, hi - lo)
  {
    SupplyFails(mem0[d], mem[d], lo, p - lo, hi - lo, |free0|, |free|);
  }

  // ----- freevm -----

  /** Every frame of the space d is free, and no other frame is touched. */
  ghost predicate Reclaimed(mem: seq<Page>, own: seq<Role>, mem': seq<Page>, own': seq<Role>, d: nat) {
    && |mem| == |own| == |mem'| == |own'|
    && forall f: nat | f < |mem| :: FrameReclaimed(mem, own, mem', own', d, f)
  }

  ghost predicate FrameReclaimed(mem: seq<Page>, own: seq<Role>, mem': seq<Page>, own': seq<Role>, d: nat, f: nat)
    requires |mem| == |own| == |mem'| == |own'| && f < |mem|
  {
    if own[f].Free? || f == d || Of(own[f], d) then own'[f].Free? else own'[f] == own[f] && mem'[f] == mem[f]
  }

  /** So every other space has the map it had, and its pages the contents. */
  lemma ReclaimedKeepsMaps(mem: seq<Page>, own: seq<Role>, free: seq<Frame>, first: nat, mem': seq<Page>,
                           own': seq<Role>,
                           d: nat, x: nat, p: nat)
    requires Inv(mem, own, free, first) && IsDir(own, d) && Reclaimed(mem, own, mem', own', d)
    requires IsDir(own, x) && x != d && p < PAGES
    ensures IsDir(own', x) && Pte(mem', x, p) == Pte(mem, x, p)
    ensures
      var e := Pte(mem, x, p);
      p < USERPAGES && Present(e) ==> FrameOf(e) < |mem| && mem'[FrameOf(e)] == mem[FrameOf(e)]
  {
    PageIndex(p, p);
    assert FrameReclaimed(mem, own, mem', own', d, x);
    assert TableKnown(mem, own, x, Pdx(p));
    if Present(mem[x][Pdx(p)]) {
      assert FrameReclaimed(mem, own, mem', own', d, FrameOf(mem[x][Pdx(p)]));
    }
    if p < USERPAGES {
      assert PageKnown(mem, own, x, p);
      if Present(Pte(mem, x, p)) {
        assert FrameReclaimed(mem, own, mem', own', d, FrameOf(Pte(mem, x, p)));
      }
    }
  }

  /** Where freevm is: the tables of d before i are free, the others held. */
  ghost predicate Freeing(mem: seq<Page>, own: seq<Role>, mem': seq<Page>, own': seq<Role>, d: nat, i: nat) {
    && |mem| == |own| == |mem'| == |own'|
    && forall f: nat | f < |mem| :: FrameFreeing(mem, own, mem', own', d, i, f)
  }

  ghost predicate FrameFreeing(mem: seq<Page>, own: seq<Role>, mem': seq<Page>, own': seq<Role>, d: nat, i: nat, f: nat)
    requires |mem| == |own| == |mem'| == |own'| && f < |mem|
  {
    if own[f].Table? && own[f].d == d && own[f].i < i then own'[f].Free?
    else own'[f] == Retired(own, d)[f] && mem'[f] == mem[f]
  }

  lemma FreeingTable(mem: seq<Page>, own: seq<Role>, free: seq<Frame>, first: nat, mem1: seq<Page>, own1: seq<Role>,
                     mem2: seq<Page>, own2: seq<Role>, d: nat, i: nat, f: nat)
    requires Inv(mem, own, free, first) && IsDir(own, d) && i < ENTRIES && Freeing(mem, own, mem1, own1, d, i)
    requires Present(mem[d][i]) && f == FrameOf(mem[d][i]) && f < NFRAMES == |own2| == |mem2|
    requires own2[f].Free? && own2 == own1[f := own2[f]] && mem2 == mem1[f := mem2[f]]
    ensures Freeing(mem, own, mem2, own2, d, i + 1)
  {
    var j := i + 1;
    assert TableKnown(mem, own, d, i);
    forall x: nat | x < |mem|
      ensures FrameFreeing(mem, own, mem2, own2, d, j, x)
    {
      assert FrameFreeing(mem, own, mem1, own1, d, i, x);
      assert Honest(mem, own, free, first, x);
    }
  }

  lemma FreeingNone(mem: seq<Page>, own: seq<Role>, free: seq<Frame>, first: nat, mem1: seq<Page>, own1: seq<Role>,
                    d: nat, i: nat)
    requires Inv(mem, own, free, first) && IsDir(own, d) && i < ENTRIES && Freeing(mem, own, mem1, own1, d, i)
    requires !Present(mem[d][i])
    ensures Freeing(mem, own, mem1, own1, d, i + 1)
  {
    var j := i + 1;
    forall x: nat | x < |mem|
      ensures FrameFreeing(mem, own, mem1, own1, d, j, x)
    {
      assert FrameFreeing(mem, own, mem1, own1, d, i, x);
      assert Honest(mem, own, free, first, x);
    }
  }

  /** deallocuvm of all user pages, then kfree of the tables, then of d. */
  lemma FreevmDone(mem: seq<Page>, own: seq<Role>, mem1: seq<Page>, own1: seq<Role>, free1: seq<Frame>, first: nat,
                   mem2: seq<Page>, own2: seq<Role>, mem3: seq<Page>, own3: seq<Role>, d: nat)
    requires IsDir(own, d) && IsDir(own1, d) && Inv(mem1, own1, free1, first)
    requires Kept(mem, own, mem1, own1, d, 0, USERPAGES) && Returned(own, own1, d, 0, USERPAGES)
    requires Clear(mem1, d, 0, USERPAGES)
    requires forall f: nat | f < |own| :: own[f].User? ==> own[f].p < USERPAGES
    requires Freeing(mem1, own1, mem2, own2, d, ENTRIES) && |mem3| == |own3| == |mem|
    requires own3[d].Free? && own3 == own2[d := own3[d]] && mem3 == mem2[d := mem3[d]]
    ensures Reclaimed(mem, own, mem3, own3, d)
  {
    forall f: nat | f < |mem|
      ensures FrameReclaimed(mem, own, mem3, own3, d, f)
    {
      if f != d {
        assert FrameKept(mem, own, mem1, own1, d, 0, USERPAGES, f);
        assert FrameFreeing(mem1, own1, mem2, own2, d, ENTRIES, f);
        assert Honest(mem1, own1, free1, first, f);
      }
    }
  }

  // ----- setupkvm -----

  /** A row of kmap, in pages and frames. */
  datatype Kmap = Kmap(page: nat, frame: nat, count: nat, perm: nat)

  /** kmap: I/O space, kernel text, kernel data and memory, devices. The kernel's
      data begins in frame `data`. */
  function KernelMap(data: nat): (rows: seq<Kmap>)
    requires 0x100 < data < NFRAMES
    ensures |rows| == 4
    ensures forall k | 0 <= k < 4 :: GoodRow(rows[k])
  {
    [Kmap(0x8_0000, 0, 0x100, 2),
     Kmap(0x8_0100, 0x100, data - 0x100, 0),
     Kmap(0x8_0000 + data, data, NFRAMES - data, 2),
     Kmap(0xF_E000, 0xF_E000, 0x2000, 2)]
  }

  predicate GoodRow(row: Kmap) {
    && USERPAGES <= row.page && 0 < row.count && row.page + row.count <= PAGES
    && row.frame + row.count <= PAGES && row.perm < 4096
  }

  /** Page p as the first k rows map it. */
  function RowsAt(rows: seq<Kmap>, k: nat, p: nat): Word
    requires k <= |rows| && forall j | 0 <= j < k :: GoodRow(rows[j])
  {
    if k == 0 then 0
    else
      var row := rows[k - 1];
      assert GoodRow(row);
      if row.page <= p < row.page + row.count then Entry(row.frame + p - row.page, row.perm)
      else RowsAt(rows, k - 1, p)
  }

  /** What they map: the physical memory from page 0x80000 on, writable but for the kernel's
      text, and the devices at the top where they are. None of it is for the user. */
  lemma KernelPages(data: nat, p: nat)
    requires 0x100 < data < NFRAMES && p < PAGES
    ensures RowsAt(KernelMap(data), 4, p)
         == if 0x8_0000 <= p < 0x8_0000 + NFRAMES then
              Entry(p - 0x8_0000, if 0x100 <= p - 0x8_0000 < data then 0 else 2)
            else if p >= 0xF_E000 then Entry(p, 2) else 0
  {
    var rows := KernelMap(data);
    assert RowsAt(rows, 0, p) == 0;
    assert RowsAt(rows, 1, p) == if 0x8_0000 <= p < 0x8_0100 then Entry(p - 0x8_0000, 2) else 0;
    assert RowsAt(rows, 2, p) == if 0x8_0100 <= p < 0x8_0000 + data then Entry(p - 0x8_0000, 0) else RowsAt(rows, 1, p);
  }

  /** The rows of kmap do not overlap. */
  lemma RowsApart(data: nat, k: nat, p: nat)
    requires 0x100 < data < NFRAMES && k < 4
    requires KernelMap(data)[k].page <= p < KernelMap(data)[k].page + KernelMap(data)[k].count
    ensures RowsAt(KernelMap(data), k, p) == 0
  {
    RowsMiss(KernelMap(data), k, p);
  }

  lemma UserPageAbsent(data: nat, p: nat)
    requires 0x100 < data < NFRAMES && p < USERPAGES
    ensures RowsAt(KernelMap(data), 4, p) == 0
  {
    RowsMiss(KernelMap(data), 4, p);
  }

  lemma {:induction false} RowsMiss(rows: seq<Kmap>, k: nat, p: nat)
    requires k <= |rows| && forall j | 0 <= j < k :: GoodRow(rows[j])
    requires forall j | 0 <= j < k :: !(rows[j].page <= p < rows[j].page + rows[j].count)
    ensures RowsAt(rows, k, p) == 0
  {
    if k > 0 {
      RowsMiss(rows, k - 1, p);
    }
  }

  /** The map of d is the first k rows and nothing else. */
  ghost predicate IsKernelMap(mem: seq<Page>, d: nat, rows: seq<Kmap>, k: nat)
    requires d < |mem| && k <= |rows| && forall j | 0 <= j < k :: GoodRow(rows[j])
  {
    forall p: nat | p < PAGES :: Pte(mem, d, p) == RowsAt(rows, k, p)
  }

  /** Frames that were free are free, and no other frame is touched. */
  ghost predicate Undone(mem: seq<Page>, own: seq<Role>, mem': seq<Page>, own': seq<Role>) {
    && |mem| == |own| == |mem'| == |own'|
    && forall f: nat | f < |mem| :: FrameUndone(mem, own, mem', own', f)
  }

  ghost predicate FrameUndone(mem: seq<Page>, own: seq<Role>, mem': seq<Page>, own': seq<Role>, f: nat)
    requires |mem| == |own| == |mem'| == |own'| && f < |mem|
  {
    if own[f].Free? then own'[f].Free? else own'[f] == own[f] && mem'[f] == mem[f]
  }

  /** A space built from free frames and reclaimed again leaves no trace. */
  lemma BuiltAndReclaimed(mem: seq<Page>, own: seq<Role>, free: seq<Frame>, first: nat, mem1: seq<Page>,
                          own1: seq<Role>,
                          mem2: seq<Page>, own2: seq<Role>, d: nat, lo: nat, hi: nat)
    requires Inv(mem, own, free, first) && d < |own| && own[d].Free?
    requires Kept(mem, own, mem1, own1, d, lo, hi) && Reclaimed(mem1, own1, mem2, own2, d)
    ensures Undone(mem, own, mem2, own2)
  {
    forall f: nat | f < |mem|
      ensures FrameUndone(mem, own, mem2, own2, f)
    {
      assert FrameReclaimed(mem1, own1, mem2, own2, d, f);
      assert Honest(mem, own, free, first, f);
      if f != d {
        assert FrameKept(mem, own, mem1, own1, d, lo, hi, f);
      }
    }
  }

  // ----- copyuvm -----

  datatype CopyResult = Copied(c: nat) | CopyFailed | CopyPanic

  /** The same page in two spaces: same flags and contents, different frames. */
  ghost predicate SamePage(mem: seq<Page>, e: Word, e': Word) {
    && (Present(e) <==> Present(e'))
    && (Present(e) ==>
          && e % 4096 == e' % 4096 && FrameOf(e) < |mem| && FrameOf(e') < |mem| && FrameOf(e) != FrameOf(e')
          && mem[FrameOf(e')] == mem[FrameOf(e)])
  }

  /** c has the first n pages of d, and the kernel's. */
  ghost predicate Copies(mem: seq<Page>, d: nat, c: nat, rows: seq<Kmap>, n: nat)
    requires d < |mem| && c < |mem| && |rows| == 4 && forall k | 0 <= k < 4 :: GoodRow(rows[k])
  {
    forall p: nat | p < PAGES ::
      if p < n then SamePage(mem, Pte(mem, d, p), Pte(mem, c, p)) else Pte(mem, c, p) == RowsAt(rows, 4, p)
  }

  ghost predicate NoTable(mem: seq<Page>, d: nat, p: nat) {
    d < |mem| && p < PAGES && !Present(mem[d][Pdx(p)])
  }

  /** Everything is undone but that the frame `lost` is held by nobody. */
  ghost predicate UndoneBut(mem: seq<Page>, own: seq<Role>, mem': seq<Page>, own': seq<Role>, lost: nat) {
    && |mem| == |own| == |mem'| == |own'| && lost < |own|
    && own[lost].Free? && own'[lost] == Held
    && forall f: nat | f < |mem| && f != lost :: FrameUndone(mem, own, mem', own', f)
  }

  lemma CopiesMore(mem: seq<Page>, own: seq<Role>, free: seq<Frame>, first: nat, mem': seq<Page>, own': seq<Role>,
                   d: nat, c: nat, rows: seq<Kmap>, p: nat, f: nat)
    requires |rows| == 4 && forall k | 0 <= k < 4 :: GoodRow(rows[k])
    requires Inv(mem, own, free, first) && IsDir(own, d) && IsDir(own, c) && d != c && p < USERPAGES && f < NFRAMES
    requires Copies(mem, d, c, rows, p) && Kept(mem, own, mem', own', c, p, p + 1)
    requires Present(Pte(mem, d, p)) && !Present(Pte(mem, c, p)) && own[f].Free?
    requires OneChanged(own, mem, mem', c, p, Entry(f, Pte(mem, d, p) % 4096))
    requires FrameOf(Pte(mem, d, p)) < |mem| && mem'[f] == mem[FrameOf(Pte(mem, d, p))]
    ensures Copies(mem', d, c, rows, p + 1)
  {
    var n := p + 1;
    forall q: nat | q < PAGES
      ensures if q < n then SamePage(mem', Pte(mem', d, q), Pte(mem', c, q)) else Pte(mem', c, q) == RowsAt(rows, 4, q)
    {
      if q < n {
        PagesKept(mem, own, free, first, mem', own', c, p, d, q);
        if q < p {
          PagesKept(mem, own, free, first, mem', own', c, p, c, q);
        }
      }
    }
  }

  /** A page other than page p of c has its contents still. */
  lemma PagesKept(mem: seq<Page>, own: seq<Role>, free: seq<Frame>, first: nat, mem': seq<Page>, own': seq<Role>,
                  c: nat, p: nat, x: nat, q: nat)
    requires Inv(mem, own, free, first) && IsDir(own, c) && IsDir(own, x) && q < USERPAGES && (x != c || q != p)
    requires Kept(mem, own, mem', own', c, p, p + 1)
    ensures
      var e := Pte(mem, x, q);
      Present(e) ==> FrameOf(e) < |mem| && own[FrameOf(e)] == User(x, q) && mem'[FrameOf(e)] == mem[FrameOf(e)]
  {
    assert PageKnown(mem, own, x, q);
    var g := FrameOf(Pte(mem, x, q));
    if Present(Pte(mem, x, q)) {
      assert FrameKept(mem, own, mem', own', c, p, p + 1, g);
    }
  }

  /** The way out of copyuvm where a page could not be mapped: nobody frees its frame. */
  lemma OneLost(mem: seq<Page>, own: seq<Role>, free: seq<Frame>, first: nat, mem1: seq<Page>, own1: seq<Role>,
                mem2: seq<Page>, own2: seq<Role>, mem3: seq<Page>, own3: seq<Role>, c: nat, f: nat, content: Page)
    requires Inv(mem, own, free, first) && c < |own| && own[c].Free? && f < |own| && f != c
    requires Kept(mem, own, mem1, own1, c, 0, USERPAGES) && own1[f].Free?
    requires Kept(mem1[f := content], own1[f := Held], mem2, own2, c, 0, 0)
    requires Reclaimed(mem2, own2, mem3, own3, c)
    ensures UndoneBut(mem, own, mem3, own3, f)
  {
    var m, o := mem1[f := content], own1[f := Held];
    assert FrameKept(mem, own, mem1, own1, c, 0, USERPAGES, f) && Honest(mem, own, free, first, f);
    assert FrameKept(m, o, mem2, own2, c, 0, 0, f) && FrameReclaimed(mem2, own2, mem3, own3, c, f);
    forall x: nat | x < |mem| && x != f
      ensures FrameUndone(mem, own, mem3, own3, x)
    {
      assert Honest(mem, own, free, first, x);
      assert FrameReclaimed(mem2, own2, mem3, own3, c, x);
      if x != c {
        assert FrameKept(mem, own, mem1, own1, c, 0, USERPAGES, x) && FrameKept(m, o, mem2, own2, c, 0, 0, x);
      }
    }
  }

  // ----- how many frames it takes -----

  lemma {:induction false} MoreTables(dir: Page, p: nat, n: nat, m: nat)
    requires n <= m && p + m <= PAGES
    ensures NewTables(dir, p, n) <= NewTables(dir, p, m)
  {
    if n < m {
      MoreTables(dir, p, n, m - 1);
    }
  }

  /** Where exactly the tables before b are there. */
  lemma {:induction false} TablesBeyond(dir: Page, p: nat, n: nat, b: nat)
    requires 0 < n && p + n <= PAGES && Pdx(p) <= b
    requires forall i | Pdx(p) <= i <= Pdx(p + n - 1) :: Present(dir[i]) <==> i < b
    ensures NewTables(dir, p, n) == if Pdx(p + n - 1) < b then 0 else Pdx(p + n - 1) + 1 - b
  {
    assert Pdx(p + n - 1) < ENTRIES;
    if n > 1 {
      assert Pdx(p + n - 1) == Pdx(p + n - 2) || Pdx(p + n - 1) == Pdx(p + n - 2) + 1;
      TablesBeyond(dir, p, n - 1, b);
    } else {
      assert NewTables(dir, p, 0) == 0;
    }
  }

  lemma RowPages(row: Kmap)
    requires GoodRow(row)
    ensures row.page * 4096 / 4096 == row.page && row.frame * 4096 / 4096 == row.frame && row.frame * 4096 % 4096 == 0
    ensures LastPage(row.page * 4096, row.count * 4096) == row.page + row.count - 1
    ensures (row.page + row.count) * 4096 <= 0x1_0000_0000 && row.frame * 4096 < 0x1_0000_0000
  {
  }

  lemma RowMapped(own: seq<Role>, mem: seq<Page>, mem': seq<Page>, d: nat, data: nat, k: nat)
    requires 0x100 < data < NFRAMES && k < 4 && IsDir(own, d) && |own| == |mem| == |mem'|
    requires IsKernelMap(mem, d, KernelMap(data), k)
    requires
      var row := KernelMap(data)[k];
      GoodRow(row) && Mapped(own, mem, mem', d, row.page, row.frame, row.count, row.perm)
    ensures IsKernelMap(mem', d, KernelMap(data), k + 1)
  {
  }

  /** The kernel's tables when k rows of kmap are done: 512 up to this one, and the
      last eight once all rows are done. */
  function TableEnd(k: nat, data: nat): nat {
    if k == 0 then 512 else if k == 1 then 513 else if k == 2 then Pdx(0x8_0000 + data - 1) + 1 else 568
  }

  ghost predicate KernelTables(dir: Page, k: nat, data: nat) {
    forall i | 0 <= i < ENTRIES :: Present(dir[i]) <==> 512 <= i < TableEnd(k, data) || (k == 4 && 1016 <= i)
  }

  function KernelFrames(k: nat, data: nat): int {
    TableEnd(k, data) - 512 + if k == 4 then 8 else 0
  }

  lemma RowTables(dir: Page, dir': Page, k: nat, data: nat)
    requires 0x100 < data < NFRAMES && k < 4 && KernelTables(dir, k, data)
    requires TablesFor(dir, dir', KernelMap(data)[k].page, KernelMap(data)[k].count)
    ensures KernelTables(dir', k + 1, data)
    ensures NewTables(dir, KernelMap(data)[k].page, KernelMap(data)[k].count)
         == KernelFrames(k + 1, data) - KernelFrames(k, data)
  {
    var row := KernelMap(data)[k];
    var b := if k == 3 then 1016 else TableEnd(k, data);
    TablesBeyond(dir, row.page, row.count, b);
  }

  /** Where the kernel's mappings do not fit, there were too few frames. */
  lemma RowStops(dir: Page, dir': Page, k: nat, data: nat, n: nat)
    requires 0x100 < data < NFRAMES && k < 4 && KernelTables(dir, k, data) && n < KernelMap(data)[k].count
    requires TablesFor(dir, dir', KernelMap(data)[k].page, n) && !Present(dir'[Pdx(KernelMap(data)[k].page + n)])
    ensures KernelFrames(k, data) + NewTables(dir, KernelMap(data)[k].page, n) < 64
  {
    var row := KernelMap(data)[k];
    var b := if k == 3 then 1016 else TableEnd(k, data);
    MoreTables(dir, row.page, n + 1, row.count);
    TablesBeyond(dir, row.page, row.count, b);
    assert row.page + (n + 1) - 1 == row.page + n;
    assert n > 0 ==> Pdx(row.page + n) != Pdx(row.page + n - 1);
  }

  // ----- what a copy takes -----

  /** No page before n in the table of page p is mapped. */
  ghost predicate FirstAt(mem: seq<Page>, d: nat, n: nat, p: nat)
    requires d < |mem|
  {
    forall q: nat | q < n && q < PAGES && Pdx(q) == Pdx(p) :: !Present(Pte(mem, d, q))
  }

  /** The frames a copy of the first n pages of d takes beyond the kernel's part: one
      for each page, and one for each table. */
  ghost function Needed(mem: seq<Page>, d: nat, n: nat): nat
    requires d < |mem| && n <= USERPAGES
  {
    if n == 0 then 0
    else
      Needed(mem, d, n - 1)
      + if !Present(Pte(mem, d, n - 1)) then 0 else if FirstAt(mem, d, n - 1, n - 1) then 2 else 1
  }

  lemma {:induction false} NeededGrows(mem: seq<Page>, d: nat, n: nat, m: nat)
    requires d < |mem| && n <= m <= USERPAGES
    ensures Needed(mem, d, n) <= Needed(mem, d, m)
  {
    if n < m {
      NeededGrows(mem, d, n, m - 1);
    }
  }

  /** The copy has a table for page p just if one of the first n pages is in it. */
  ghost predicate TableAt(dir: Page, mem: seq<Page>, d: nat, n: nat, p: nat)
    requires d < |mem| && p < USERPAGES
  {
    Present(dir[Pdx(p)]) <==> !FirstAt(mem, d, n, p)
  }

  /** The user tables of the copy when n pages are done. */
  ghost predicate UserTables(dir: Page, mem: seq<Page>, d: nat, n: nat)
    requires d < |mem|
  {
    forall p: nat | p < USERPAGES :: TableAt(dir, mem, d, n, p)
  }

  lemma NoUserTables(dir: Page, data: nat, mem: seq<Page>, d: nat)
    requires d < |mem| && KernelTables(dir, 4, data)
    ensures UserTables(dir, mem, d, 0)
  {
  }

  lemma UserTablesMore(dir: Page, dir': Page, mem: seq<Page>, d: nat, n: nat)
    requires d < |mem| && n < USERPAGES && UserTables(dir, mem, d, n)
    requires if Present(Pte(mem, d, n)) then TablesFor(dir, dir', n, 1) else dir' == dir
    ensures UserTables(dir', mem, d, n + 1)
    ensures Needed(mem, d, n + 1)
         == Needed(mem, d, n) + if Present(Pte(mem, d, n)) then 1 + NewTables(dir, n, 1) else 0
  {
    assert NewTables(dir, n, 0) == 0;
    assert TableAt(dir, mem, d, n, n);
    var m := n + 1;
    forall p: nat | p < USERPAGES
      ensures TableAt(dir', mem, d, m, p)
    {
      assert TableAt(dir, mem, d, n, p);
      assert FirstAt(mem, d, m, p) <==> FirstAt(mem, d, n, p) && (Pdx(n) == Pdx(p) ==> !Present(Pte(mem, d, n)));
    }
  }

  /** copyuvm finds a frame for page p and none for its table. */
  ghost predicate SplitsAt(mem: seq<Page>, d: nat, p: nat, frames: nat) {
    && d < |mem| && p < USERPAGES && Present(Pte(mem, d, p)) && FirstAt(mem, d, p, p)
    && frames == 65 + Needed(mem, d, p) + 1
  }

  /** copyuvm finds no frame for page p. */
  ghost predicate StopsAt(mem: seq<Page>, d: nat, p: nat, frames: nat) {
    d < |mem| && p < USERPAGES && Present(Pte(mem, d, p)) && frames == 65 + Needed(mem, d, p)
  }

  /** With this many free frames a copy of the first n pages loses one. */
  ghost predicate LosesFrame(mem: seq<Page>, d: nat, n: nat, frames: nat) {
    exists p: nat :: p < n && SplitsAt(mem, d, p, frames)
  }

  /** A frame can be lost only where the copy does not fit and does not fail at once. */
  lemma SplitsOnly(mem: seq<Page>, d: nat, n: nat, frames: nat, p: nat)
    requires d < |mem| && p < n <= USERPAGES && SplitsAt(mem, d, p, frames)
    ensures 65 < frames < 65 + Needed(mem, d, n)
    ensures forall q: nat | q < n :: !StopsAt(mem, d, q, frames)
  {
    NeededGrows(mem, d, p + 1, n);
    forall q: nat | q < n && d < |mem|
      ensures !StopsAt(mem, d, q, frames)
    {
      if q <= p {
        NeededGrows(mem, d, q, p);
      } else {
        NeededGrows(mem, d, p + 1, q);
      }
    }
  }

  ghost predicate SamePtes(mem: seq<Page>, mem': seq<Page>, d: nat) {
    && d < |mem| == |mem'|
    && forall p: nat | p < PAGES :: Pte(mem', d, p) == Pte(mem, d, p)
  }

  lemma SameSpace(mem: seq<Page>, own: seq<Role>, free: seq<Frame>, first: nat, mem': seq<Page>, own': seq<Role>,
                  c: nat, d: nat)
    requires Inv(mem, own, free, first) && Kept(mem, own, mem', own', c, 0, USERPAGES)
    requires IsDir(own, d) && c < |own| && own[c].Free?
    ensures IsDir(own', d) && SamePtes(mem, mem', d)
  {
    OthersKeepMaps(mem, own, free, first, mem', own', c, 0, USERPAGES, d, 0);
    forall p: nat | p < PAGES
      ensures Pte(mem', d, p) == Pte(mem, d, p)
    {
      OthersKeepMaps(mem, own, free, first, mem', own', c, 0, USERPAGES, d, p);
    }
  }

  /** copyuvm comes to page p, for which there is no table: a panic. */
  ghost predicate PanicsAt(mem: seq<Page>, d: nat, p: nat, frames: nat) {
    p < USERPAGES && NoTable(mem, d, p) && frames >= 65 + Needed(mem, d, p)
  }

  ghost predicate Panics(mem: seq<Page>, d: nat, n: nat, frames: nat) {
    exists p: nat :: p < n && PanicsAt(mem, d, p, frames)
  }

  /** The pages before n have tables. */
  ghost predicate Tabled(mem: seq<Page>, d: nat, n: nat) {
    forall p: nat | p < n :: !NoTable(mem, d, p)
  }

  /** A copy that stops at page p does not come to a later one. */
  lemma StopsBefore(mem: seq<Page>, d: nat, n: nat, frames: nat, p: nat)
    requires d < |mem| && p < n <= USERPAGES && Tabled(mem, d, p + 1) && frames < 65 + Needed(mem, d, p + 1)
    ensures !Panics(mem, d, n, frames)
  {
    forall q: nat | q < n
      ensures !PanicsAt(mem, d, q, frames)
    {
      if q > p {
        NeededGrows(mem, d, p + 1, q);
      }
    }
  }

  /** Where the copy has no frame for page p, nothing is lost. */
  lemma CopyStops(mem: seq<Page>, d: nat, n: nat, frames: nat, p: nat)
    requires d < |mem| && n <= USERPAGES && (frames < 65 || (p < n && StopsAt(mem, d, p, frames)))
    ensures frames < 65 + Needed(mem, d, n) && !LosesFrame(mem, d, n, frames)
  {
    if frames >= 65 {
      NeededGrows(mem, d, p + 1, n);
    }
    forall q: nat | q < n && SplitsAt(mem, d, q, frames)
      ensures false
    {
      SplitsOnly(mem, d, n, frames, q);
    }
  }

  lemma CopyFits(mem: seq<Page>, d: nat, n: nat, frames: nat)
    requires d < |mem| && n <= USERPAGES && frames >= 65 + Needed(mem, d, n)
    ensures !LosesFrame(mem, d, n, frames)
  {
    forall q: nat | q < n && SplitsAt(mem, d, q, frames)
      ensures false
    {
      SplitsOnly(mem, d, n, frames, q);
    }
  }

  /** How copyuvm fails: there were too few frames. A frame is lost just if there was
      one for some page and none for its table. */
  ghost predicate CopyFailure(mem: seq<Page>, own: seq<Role>, frames: nat, mem': seq<Page>, own': seq<Role>,
                              d: nat, n: nat, lost: nat)
    requires d < |mem| && n <= USERPAGES
  {
    && frames < 65 + Needed(mem, d, n)
    && (lost != 0 <==> LosesFrame(mem, d, n, frames))
    && if lost == 0 then Undone(mem, own, mem', own') else UndoneBut(mem, own, mem', own', lost)
  }

  /** Where copyuvm is: the first n pages of d are copied to c. */
  ghost predicate Copying(mem0: seq<Page>, own0: seq<Role>, free0: seq<Frame>, mem: seq<Page>, own: seq<Role>,
                          free: seq<Frame>, d: nat, c: nat, data: nat, n: nat)
    requires 0x100 < data < NFRAMES && d < |mem0| && c < |mem0| && n <= USERPAGES
  {
    && Kept(mem0, own0, mem, own, c, 0, USERPAGES)
    && own0[c].Free? && mem[d] == mem0[d] && SamePtes(mem0, mem, d)
    && Copies(mem, d, c, KernelMap(data), n)
    && UserTables(mem[c], mem0, d, n)
    && |free| == |free0| - 65 - Needed(mem0, d, n)
  }

  lemma CopyingStarts(mem0: seq<Page>, own0: seq<Role>, free0: seq<Frame>, first: nat, mem: seq<Page>, own: seq<Role>,
                      free: seq<Frame>, d: nat, c: nat, data: nat)
    requires Inv(mem0, own0, free0, first) && IsDir(own0, d) && c < NFRAMES && own0[c].Free? && 0x100 < data < NFRAMES
    requires Kept(mem0, own0, mem, own, c, 0, 0) && IsKernelMap(mem, c, KernelMap(data), 4)
    requires KernelTables(mem[c], 4, data) && |free| == |free0| - 65
    ensures IsDir(own, d) && Copying(mem0, own0, free0, mem, own, free, d, c, data, 0)
  {
    KeptWider(mem0, own0, mem, own, c, 0, 0, 0, USERPAGES);
    SameSpace(mem0, own0, free0, first, mem, own, c, d);
    assert FrameKept(mem0, own0, mem, own, c, 0, 0, d);
    NoUserTables(mem[c], data, mem0, d);
  }

  lemma CopyingMore(mem0: seq<Page>, own0: seq<Role>, free0: seq<Frame>, first: nat, mem: seq<Page>, own: seq<Role>,
                    free: seq<Frame>, mem': seq<Page>, own': seq<Role>, free': seq<Frame>, d: nat, c: nat, data: nat,
                    n: nat)
    requires Inv(mem0, own0, free0, first) && IsDir(own0, d) && c < NFRAMES && 0x100 < data < NFRAMES && n < USERPAGES
    requires Copying(mem0, own0, free0, mem, own, free, d, c, data, n)
    requires Kept(mem, own, mem', own', c, n, n + 1) && Copies(mem', d, c, KernelMap(data), n + 1)
    requires UserTables(mem'[c], mem0, d, n + 1)
    requires |free'| == |free| - Needed(mem0, d, n + 1) + Needed(mem0, d, n)
    ensures Copying(mem0, own0, free0, mem', own', free', d, c, data, n + 1)
  {
    KeptWider(mem, own, mem', own', c, n, n + 1, 0, USERPAGES);
    KeptTwice(mem0, own0, mem, own, mem', own', c, 0, USERPAGES);
    SameSpace(mem0, own0, free0, first, mem', own', c, d);
    assert FrameKept(mem0, own0, mem', own', c, 0, USERPAGES, d);
  }

  /** Where copyuvm is, and that it has not come to a page without a table. */
  ghost predicate CopiedTo(mem0: seq<Page>, own0: seq<Role>, free0: seq<Frame>, mem: seq<Page>, own: seq<Role>,
                           free: seq<Frame>, d: nat, c: nat, data: nat, n: nat)
    requires 0x100 < data < NFRAMES && d < |mem0| && c < |mem0| && n <= USERPAGES
  {
    Copying(mem0, own0, free0, mem, own, free, d, c, data, n) && Tabled(mem0, d, n)
  }

  lemma CopiedMore(mem0: seq<Page>, own0: seq<Role>, free0: seq<Frame>, first: nat, mem: seq<Page>, own: seq<Role>,
                   free: seq<Frame>, mem': seq<Page>, own': seq<Role>, free': seq<Frame>,
                   d: nat, c: nat, data: nat, n: nat, next: nat)
    requires Inv(mem0, own0, free0, first) && IsDir(own0, d) && c < NFRAMES && 0x100 < data < NFRAMES && n < USERPAGES
    requires CopiedTo(mem0, own0, free0, mem, own, free, d, c, data, n) && !NoTable(mem0, d, n) && next == n + 1
    requires Kept(mem, own, mem', own', c, n, n + 1) && Copies(mem', d, c, KernelMap(data), n + 1)
    requires UserTables(mem'[c], mem0, d, n + 1)
    requires |free'| == |free| - Needed(mem0, d, n + 1) + Needed(mem0, d, n)
    ensures CopiedTo(mem0, own0, free0, mem', own', free', d, c, data, next)
  {
    CopyingMore(mem0, own0, free0, first, mem, own, free, mem', own', free', d, c, data, n);
  }

  lemma CopyPanics(mem0: seq<Page>, own0: seq<Role>, free0: seq<Frame>, mem: seq<Page>, own: seq<Role>,
                   free: seq<Frame>, d: nat, c: nat, data: nat, n: nat, m: nat)
    requires 0x100 < data < NFRAMES && d < |mem0| && c < |mem0| && n < m <= USERPAGES
    requires CopiedTo(mem0, own0, free0, mem, own, free, d, c, data, n) && NoTable(mem0, d, n)
    ensures Panics(mem0, d, m, |free0|)
  {
    assert PanicsAt(mem0, d, n, |free0|);
  }

  /** The way out of copyuvm where there is no frame for page n. */
  lemma CopyFails(mem0: seq<Page>, own0: seq<Role>, free0: seq<Frame>, first: nat, mem: seq<Page>, own: seq<Role>,
                  free: seq<Frame>, mem': seq<Page>, own': seq<Role>, d: nat, c: nat, data: nat, n: nat, m: nat)
    requires Inv(mem0, own0, free0, first) && IsDir(own0, d) && c < NFRAMES && 0x100 < data < NFRAMES &&
             n < m <= USERPAGES
    requires Copying(mem0, own0, free0, mem, own, free, d, c, data, n) && free == [] && Present(Pte(mem0, d, n))
    requires Reclaimed(mem, own, mem', own', c)
    ensures Undone(mem0, own0, mem', own')
    ensures |free0| < 65 + Needed(mem0, d, m) && !LosesFrame(mem0, d, m, |free0|)
    ensures |free0| < 65 + Needed(mem0, d, n + 1)
  {
    BuiltAndReclaimed(mem0, own0, free0, first, mem, own, mem', own', c, 0, USERPAGES);
    assert StopsAt(mem0, d, n, |free0|);
    CopyStops(mem0, d, m, |free0|, n);
  }

  /** The way out of copyuvm where there is a frame for page n but none for its table. */
  lemma CopyLoses(mem0: seq<Page>, own0: seq<Role>, free0: seq<Frame>, first: nat, mem: seq<Page>, own: seq<Role>,
                  free: seq<Frame>, mem1: seq<Page>, own1: seq<Role>, mem': seq<Page>, own': seq<Role>,
                  d: nat, c: nat, data: nat, n: nat, m: nat, f: nat)
    requires Inv(mem0, own0, free0, first) && IsDir(own0, d) && c < NFRAMES && 0x100 < data < NFRAMES &&
             n < m <= USERPAGES
    requires Copying(mem0, own0, free0, mem, own, free, d, c, data, n) && |free| == 1 && Present(Pte(mem0, d, n))
    requires FirstAt(mem0, d, n, n) && f < NFRAMES && f != c && own[f].Free? && |mem1| == |mem|
    requires Kept(mem[f := mem1[f]], own[f := Held], mem1, own1, c, 0, 0)
    requires Reclaimed(mem1, own1, mem', own', c)
    ensures UndoneBut(mem0, own0, mem', own', f)
    ensures |free0| < 65 + Needed(mem0, d, m) && LosesFrame(mem0, d, m, |free0|)
    ensures |free0| < 65 + Needed(mem0, d, n + 1)
  {
    OneLost(mem0, own0, free0, first, mem, own, mem1, own1, mem', own', c, f, mem1[f]);
    assert SplitsAt(mem0, d, n, |free0|);
    SplitsOnly(mem0, d, m, |free0|, n);
  }

  /** A process with one page and 66 free frames: fork fails and a frame is lost. */
  lemma FrameLost(mem: seq<Page>, d: nat)
    requires d < |mem| && Present(Pte(mem, d, 0))
    ensures LosesFrame(mem, d, 1, 66)
  {
    assert SplitsAt(mem, d, 0, 66);
  }
}
