/** kalloc.c and the address space operations of vm.c. */
module VirtualMemory {
  import opened Blocks
  import opened Common
  import opened Frames
  import opened Spaces
  import opened SpaceSteps

  class Vm {
    const first: nat
    var mem: seq<Page>
    var head: Word
    ghost var own: seq<Role>
    ghost var free: seq<Frame>

    ghost predicate Valid()
      reads this
    {
      Inv(mem, own, free, first) && head == HeadOf(free)
    }

    /** At boot nothing is free yet: the frames from `first` on are the kernel's to give. */
    constructor (first: nat, mem: seq<Page>)
      requires 0 < first <= NFRAMES && |mem| == NFRAMES
      ensures Valid() && this.first == first && this.mem == mem && free == []
      ensures own == Boot(first)
    {
      this.first, this.mem, head := first, mem, 0;
      own, free := Boot(first), [];
    }

    /** freerange, as kinit1 and kinit2 call it, for the frames from lo up to hi. */
    method Freerange(lo: nat, hi: nat)
      requires Valid() && lo <= hi <= NFRAMES && forall f | lo <= f < hi :: own[f] == Held
      modifies this`mem, this`head, this`own, this`free
      ensures Valid() && |free| == |old(free)| + hi - lo && free[..|old(free)|] == old(free)
      ensures forall k | |old(free)| <= k < |free| :: free[k] == lo + k - |old(free)|
      ensures forall f | 0 <= f < NFRAMES :: if lo <= f < hi then own[f].Free? else own[f] == old(own)[f]
      ensures forall f | 0 <= f < NFRAMES && !(lo <= f < hi) :: mem[f] == old(mem)[f]
    {
      var p := lo;
      while p < hi
        invariant lo <= p <= hi && Valid()
        invariant |free| == |old(free)| + p - lo && free[..|old(free)|] == old(free)
        invariant forall k | |old(free)| <= k < |free| :: free[k] == lo + k - |old(free)|
        invariant forall f | 0 <= f < NFRAMES :: if lo <= f < p then own[f].Free? else own[f] == old(own)[f]
        invariant forall f | 0 <= f < NFRAMES && !(lo <= f < hi) :: mem[f] == old(mem)[f]
      {
        Release(p);
        p := p + 1;
      }
    }

    /** kalloc: 0 when there is none. */
    method Kalloc() returns (f: nat)
      requires Valid()
      modifies this`head, this`own, this`free
      ensures Valid()
      ensures f == 0 ==> old(free) == [] && own == old(own) && free == old(free)
      ensures f != 0 ==>
                && |old(free)| > 0 && f == old(free)[|old(free)| - 1] && free == old(free)[..|old(free)| - 1]
                && f < NFRAMES && old(own)[f].Free? && own == old(own)[f := Held]
    {
      if head == 0 {
        return 0;
      }
      PopKeepsInv(mem, own, free, first);
      f := FrameAt(head);
      head := mem[f][0];
      own, free := own[f := Held], free[..|free| - 1];
    }

    /** kfree: false is the panic for an address kalloc does not manage. The ghost
        state is for the caller to bring up to date. */
    method Kfree(f: nat) returns (ok: bool)
      requires |mem| == NFRAMES
      modifies this`mem, this`head
      ensures ok == (first <= f < NFRAMES)
      ensures ok ==> mem == old(mem)[f := Linked(old(head))] && head == AddrOf(f)
      ensures !ok ==> mem == old(mem) && head == old(head)
    {
      if f < first || f >= NFRAMES {
        return false;
      }
      mem := mem[f := Filled(0x01010101)];
      mem := mem[f := mem[f][0 := head]];
      head := AddrOf(f);
      ok := true;
    }

    /** kfree of a frame that the caller holds. */
    method Release(f: nat)
      requires Valid() && f < NFRAMES && own[f] == Held
      modifies this`mem, this`head, this`own, this`free
      ensures Valid() && free == old(free) + [f] && own == old(own)[f := Free(|old(free)|)]
      ensures mem == old(mem)[f := Linked(HeadOf(old(free)))] && SameMaps(old(own), old(mem), mem)
    {
      assert Honest(mem, own, free, first, f);
      PushKeepsInv(mem, own, free, first, f);
      var ok := Kfree(f);
      own, free := own[f := Free(|free|)], free + [f];
    }

    /** walkpgdir: the table for page p, or 0. Nothing changes but that a table may
        be added, which changes no map. */
    method Walkpgdir(d: nat, p: nat, alloc: bool) returns (t: nat)
      requires Valid() && IsDir(own, d) && p < PAGES
      modifies this`mem, this`head, this`own, this`free
      ensures Valid() && IsDir(own, d)
      ensures Kept(old(mem), old(own), mem, own, d, 0, 0) && SameMaps(old(own), old(mem), mem)
      ensures !alloc || t == 0 ==> mem == old(mem) && own == old(own) && free == old(free)
      ensures t == 0 <==> !Present(old(mem)[d][Pdx(p)]) && (!alloc || old(free) == [])
      ensures t != 0 ==> t != d && InTable(mem, d, p, t) && own[t] == Table(d, Pdx(p))
      ensures t != 0 ==>
                |free| == |old(free)| - NewTables(old(mem)[d], p, 1) && TablesFor(old(mem)[d], mem[d], p, 1)
      ensures t != 0 && !Present(old(mem)[d][Pdx(p)]) ==> mem[d][Pdx(p)] == Entry(t, 7) && mem[t] == Filled(0)
    {
      assert NewTables(mem[d], p, 0) == 0;
      PageIndex(p, p);
      var pde := mem[d][Pdx(p)];
      assert TableKnown(mem, own, d, Pdx(p));
      if Present(pde) {
        t := FrameOf(pde);
        assert Honest(mem, own, free, first, t);
        return;
      }
      if !alloc {
        return 0;
      }
      t := Kalloc();
      if t == 0 {
        return;
      }
      TableKeepsInv(mem, own, free, first, d, Pdx(p), t, Entry(t, 7));
      mem := mem[t := Filled(0)];
      mem := mem[d := mem[d][Pdx(p) := Entry(t, 7)]];
      own := own[t := Table(d, Pdx(p))];
    }

    /** One turn of the loop of mappages. */
    method MapPage(d: nat, p: nat, f: nat, perm: nat) returns (r: Outcome)
      requires Valid() && IsDir(own, d) && p < PAGES && f < PAGES && perm < 4096 && HeldFrames(own, p, f, 1)
      modifies this`mem, this`head, this`own, this`free
      ensures Valid() && IsDir(own, d)
      ensures r == Done ==> Mapping(old(mem), old(own), old(free), mem, own, free, d, p, f, 1, perm)
      ensures r == Remap <==> Present(Pte(old(mem), d, p))
      ensures r == Remap ==> Kept(old(mem), old(own), mem, own, d, 0, 0) && SameMaps(old(own), old(mem), mem)
      ensures r == NoMemory <==> old(free) == [] && !Present(old(mem)[d][Pdx(p)])
      ensures r == NoMemory ==> mem == old(mem) && own == old(own) && free == old(free)
    {
      var t := Walkpgdir(d, p, true);
      if t == 0 {
        return NoMemory;
      }
      if Present(mem[t][Ptx(p)]) {
        return Remap;
      }
      ghost var o2 := if p < USERPAGES && f < |own| then own[f := User(d, p)] else own;
      MapPageDone(old(mem), old(own), mem, own, free, first, d, p, t, f, perm, o2);
      assert p < USERPAGES ==> HeldFrame(old(own), f);
      mem := mem[t := mem[t][Ptx(p) := Entry(f, perm)]];
      own := o2;
      r := Done;
    }

    /** The same after n turns, which began with page p0 and frame f0. */
    method MapNext(d: nat, p: nat, f: nat, perm: nat, ghost p0: nat, ghost f0: nat, ghost n: nat, ghost m: nat,
                   ghost mem0: seq<Page>, ghost own0: seq<Role>, ghost free0: seq<Frame>) returns (r: Outcome)
      requires Valid() && IsDir(own, d) && IsDir(own0, d) && d < |mem0| && perm < 4096
      requires n < m && p == p0 + n < PAGES && f == f0 + n < PAGES && HeldFrames(own0, p0, f0, m)
      requires Mapping(mem0, own0, free0, mem, own, free, d, p0, f0, n, perm)
      modifies this`mem, this`head, this`own, this`free
      ensures Valid() && IsDir(own, d)
      ensures r == Done ==> Mapping(mem0, own0, free0, mem, own, free, d, p0, f0, n + 1, perm)
      ensures r == Remap ==> Remapped(mem0, own0, mem, own, d, p0, f0, n, perm)
      ensures r == NoMemory ==>
                mem == old(mem) && own == old(own) && free == old(free) == [] && !Present(mem[d][Pdx(p)])
    {
      StillHeld(mem0, own0, free0, mem, own, free, d, p0, f0, n, m, perm);
      r := MapPage(d, p, f, perm);
      if r == Remap {
        MappedStop(mem0, own0, old(mem), old(own), mem, own, d, p0, f0, n, perm);
      } else if r == Done {
        MappingMore(mem0, own0, free0, old(mem), old(own), old(free), mem, own, free, d, p0, f0, n, perm);
      }
    }

    /** The loop of mappages, for the pages from p to last. */
    method MapRange(d: nat, p: nat, last: nat, f: nat, perm: nat) returns (r: Outcome, ghost n: nat)
      requires Valid() && IsDir(own, d) && p <= last < PAGES && f + last - p < PAGES && perm < 4096
      requires HeldFrames(own, p, f, last - p + 1)
      modifies this`mem, this`head, this`own, this`free
      ensures Valid() && IsDir(own, d) && n <= last - p + 1
      ensures r == Done <==> n == last - p + 1
      ensures r != Remap ==> Mapping(old(mem), old(own), old(free), mem, own, free, d, p, f, n, perm)
      ensures r == Remap ==> Remapped(old(mem), old(own), mem, own, d, p, f, n, perm)
      ensures r == NoMemory ==> free == [] && !Present(mem[d][Pdx(p + n)])
    {
      var a, pa := p, f;
      n := 0;
      MappingStarts(mem, own, free, d, p, f, perm);
      while true
        invariant n <= last - p && a == p + n && pa == f + n
        invariant Valid() && IsDir(own, d)
        invariant Mapping(old(mem), old(own), old(free), mem, own, free, d, p, f, n, perm)
        decreases last - a
      {
        r := MapNext(d, a, pa, perm, p, f, n, last - p + 1, old(mem), old(own), old(free));
        if r != Done {
          return;
        }
        n := n + 1;
        if a == last {
          break;
        }
        a, pa := a + 1, pa + 1;
      }
    }

    /** mappages: the pages of va up to va + size are mapped in order, up to the first
        that is mapped already or that there is no table for. */
    method Mappages(d: nat, va: Word, size: nat, pa: Word, perm: nat) returns (r: Outcome, ghost n: nat)
      requires Valid() && IsDir(own, d)
      requires 0 < size && va + size <= 0x1_0000_0000 && pa % 4096 == 0 && perm < 4096
      requires pa / 4096 + LastPage(va, size) - va / 4096 < PAGES
      requires HeldFrames(own, va / 4096, pa / 4096, LastPage(va, size) - va / 4096 + 1)
      modifies this`mem, this`head, this`own, this`free
      ensures Valid() && IsDir(own, d) && n <= LastPage(va, size) - va / 4096 + 1
      ensures r == Done <==> n == LastPage(va, size) - va / 4096 + 1
      ensures r != Remap ==>
                Mapping(old(mem), old(own), old(free), mem, own, free, d, va / 4096, pa / 4096, n, perm)
      ensures r == Remap ==> Remapped(old(mem), old(own), mem, own, d, va / 4096, pa / 4096, n, perm)
      ensures r == NoMemory ==> free == [] && !Present(mem[d][Pdx(va / 4096 + n)])
    {
      r, n := MapRange(d, va / 4096, LastPage(va, size), pa / 4096, perm);
    }

    /** kfree and *pte = 0 for one page in the loop of deallocuvm. */
    method FreePage(d: nat, p: nat, t: nat, ghost mem0: seq<Page>, ghost own0: seq<Role>, ghost lo: nat, ghost hi: nat)
      requires Valid() && IsDir(own, d) && IsDir(own0, d) && lo <= p < hi <= USERPAGES
      requires InTable(mem, d, p, t) && Present(Pte(mem, d, p))
      requires Kept(mem0, own0, mem, own, d, lo, hi) && Unmapped(own0, mem0, mem, d, lo, p)
      requires forall f: nat | f < |own| :: own[f].Table? ==> own0[f] == own[f]
      modifies this`mem, this`head, this`own, this`free
      ensures Valid() && IsDir(own, d)
      ensures Kept(mem0, own0, mem, own, d, lo, hi) && Unmapped(own0, mem0, mem, d, lo, p + 1)
      ensures forall f: nat | f < |own| :: own[f].Table? ==> own0[f] == own[f]
    {
      KeptDirs(mem0, own0, mem, own, d, lo, hi);
      var f := FrameOf(mem[t][Ptx(p)]);
      PageIndex(p, p);
      assert PageKnown(mem, own, d, p) && TableKnown(mem, own, d, Pdx(p));
      assert Honest(mem, own, free, first, f);
      FreePageKeepsInv(mem, own, free, first, d, p, t, f, WithPte(mem[f := Linked(HeadOf(free))], t, p, 0));
      var ok := Kfree(f);
      mem := mem[t := mem[t][Ptx(p) := 0]];
      own, free := own[f := Free(|free|)], free + [f];
      assert Kept(old(mem), old(own), mem, own, d, lo, hi) by {
        PageFreed(old(mem), old(own), mem, own, d, lo, hi, f, t);
      }
      KeptTwice(mem0, own0, old(mem), old(own), mem, own, d, lo, hi);
    }

    /** deallocuvm: exactly the pages from newsz up to oldsz are gone, although
        whole absent tables are jumped over, and their frames are free. Neither of
        the panics of the loop occurs. */
    method Deallocuvm(d: nat, oldsz: nat, newsz: nat) returns (r: nat)
      requires Valid() && IsDir(own, d) && oldsz <= KERNBASE
      modifies this`mem, this`head, this`own, this`free
      ensures Valid() && IsDir(own, d)
      ensures r == if newsz >= oldsz then oldsz else newsz
      ensures Kept(old(mem), old(own), mem, own, d, PageUp(newsz), PageUp(oldsz))
      ensures Unmapped(old(own), old(mem), mem, d, PageUp(newsz), PageUp(oldsz))
      ensures Returned(old(own), own, d, PageUp(newsz), PageUp(oldsz))
    {
      ghost var lo, hi := PageUp(newsz), PageUp(oldsz);
      if newsz >= oldsz {
        return oldsz;
      }
      var a := PageUp(newsz) * 4096;
      while a < oldsz
        invariant a % 4096 == 0 && lo <= a / 4096
        invariant Valid() && IsDir(own, d)
        invariant Kept(old(mem), old(own), mem, own, d, lo, hi)
        invariant Unmapped(old(own), old(mem), mem, d, lo, Min(a / 4096, hi))
        invariant forall f: nat | f < |own| :: own[f].Table? ==> old(own)[f] == own[f]
      {
        a := DeallocTurn(d, a, old(mem), old(own), lo, hi);
        a := a + 4096;
      }
      AllReturned(old(mem), old(own), mem, own, free, first, d, lo, hi);
      r := newsz;
    }

    /** One turn of the loop of deallocuvm: the page at a, or the jump to the end of
        its table. */
    method DeallocTurn(d: nat, a: nat, ghost mem0: seq<Page>, ghost own0: seq<Role>, ghost lo: nat, ghost hi: nat)
      returns (b: nat)
      requires Valid() && IsDir(own, d) && IsDir(own0, d) && a % 4096 == 0 && lo <= a / 4096 < hi <= USERPAGES
      requires Kept(mem0, own0, mem, own, d, lo, hi) && Unmapped(own0, mem0, mem, d, lo, a / 4096)
      requires forall f: nat | f < |own| :: own[f].Table? ==> own0[f] == own[f]
      modifies this`mem, this`head, this`own, this`free
      ensures Valid() && IsDir(own, d) && b % 4096 == 0 && a <= b
      ensures Kept(mem0, own0, mem, own, d, lo, hi) && Unmapped(own0, mem0, mem, d, lo, Min(b / 4096 + 1, hi))
      ensures forall f: nat | f < |own| :: own[f].Table? ==> own0[f] == own[f]
    {
      var p := a / 4096;
      b := a;
      KeptDirs(mem0, own0, mem, own, d, lo, hi);
      var t := Walkpgdir(d, p, false);
      if t == 0 {
        b := (Pdx(p) + 1) * 0x40_0000 - 4096;
        JumpTable(own0, mem0, mem, d, lo, p, Min((Pdx(p) + 1) * 1024, hi));
      } else if Present(mem[t][Ptx(p)]) {
        FreePage(d, p, t, mem0, own0, lo, hi);
      } else {
        SkipPage(own0, mem0, mem, d, lo, p);
      }
    }

    /** mappages for a single page. */
    method MapOne(d: nat, p: nat, f: nat, perm: nat) returns (r: Outcome)
      requires Valid() && IsDir(own, d) && p < PAGES && f < PAGES && perm < 4096 && HeldFrames(own, p, f, 1)
      modifies this`mem, this`head, this`own, this`free
      ensures Valid() && IsDir(own, d)
      ensures r == Done ==> Mapping(old(mem), old(own), old(free), mem, own, free, d, p, f, 1, perm)
      ensures r == Remap ==> Present(Pte(old(mem), d, p))
      ensures r == NoMemory ==> old(free) == [] && !Present(old(mem)[d][Pdx(p)])
      ensures r == NoMemory ==> Mapping(old(mem), old(own), old(free), mem, own, free, d, p, f, 0, perm)
    {
      ghost var n;
      OnePage(p, f);
      r, n := Mappages(d, p * 4096, 4096, f * 4096, perm);
    }

    /** kalloc, then memset or memmove, then mappages, as in the loops of allocuvm and
        copyuvm. When the page cannot be mapped, its frame is still held. */
    method PutPage(d: nat, p: nat, content: Page, perm: nat) returns (r: Outcome, f: nat)
      requires Valid() && IsDir(own, d) && p < USERPAGES && !Present(Pte(mem, d, p)) && perm < 4096
      modifies this`mem, this`head, this`own, this`free
      ensures Valid() && IsDir(own, d) && f < NFRAMES && r != Remap
      ensures r == Done ==>
                && Kept(old(mem), old(own), mem, own, d, p, p + 1)
                && OneChanged(old(own), old(mem), mem, d, p, Entry(f, perm)) && mem[f] == content
                && old(own)[f].Free?
                && |free| == |old(free)| - 1 - NewTables(old(mem)[d], p, 1)
                && TablesFor(old(mem)[d], mem[d], p, 1)
      ensures r == NoMemory && f == 0 ==> mem == old(mem) && own == old(own) && free == old(free) == []
      ensures r == NoMemory && f != 0 ==>
                && old(own)[f].Free? && own[f] == Held && SameMaps(old(own), old(mem), mem)
                && Kept(old(mem)[f := content], old(own)[f := Held], mem, own, d, 0, 0)
                && |old(free)| == 1 && !Present(old(mem)[d][Pdx(p)])
    {
      f := Kalloc();
      if f == 0 {
        return NoMemory, 0;
      }
      WriteKeepsInv(mem, own, free, first, f, content);
      mem := mem[f := content];
      ghost var m1, o1 := mem, own;
      assert HeldFrame(own, f);
      r := MapOne(d, p, f, perm);
      SameDirs(old(own), o1);
      if r == Done {
        PagePut(old(mem), old(own), m1, o1, mem, own, d, p, f, content);
      } else {
        GivenNone(o1, d, p, f);
        assert FrameKept(m1, o1, mem, own, d, 0, 0, f);
      }
    }

    /** allocuvm for a range with no page mapped in it: if there are frames enough for
        the pages and their tables, the map grows by exactly the pages of the range,
        all zero; otherwise every map is as it was, and the frames that were free are
        free or are new tables of d. */
    method Allocuvm(d: nat, oldsz: Word, newsz: Word) returns (r: Word, ok: bool)
      requires Valid() && IsDir(own, d) && (newsz < KERNBASE ==> Clear(mem, d, PageUp(oldsz), PageUp(newsz)))
      modifies this`mem, this`head, this`own, this`free
      ensures Valid() && IsDir(own, d)
      ensures newsz >= KERNBASE ==> r == 0 && !ok
      ensures newsz < KERNBASE ==> r == if !ok then 0 else if newsz < oldsz then oldsz else newsz
      ensures newsz < KERNBASE && newsz < oldsz ==> ok && free == old(free)
      ensures oldsz <= newsz < KERNBASE ==>
                var demand := Demand(old(mem)[d], PageUp(oldsz), PageUp(newsz) - PageUp(oldsz));
                && (ok <==> |old(free)| >= demand)
                && (ok ==> |free| == |old(free)| - demand)
      ensures ok ==>
                && Grown(old(own), old(mem), mem, d, PageUp(oldsz), PageUp(newsz))
                && Kept(old(mem), old(own), mem, own, d, PageUp(oldsz), PageUp(newsz))
      ensures !ok ==> SameViews(old(own), old(mem), mem) && Kept(old(mem), old(own), mem, own, d, 0, 0)
    {
      if newsz >= KERNBASE {
        return 0, false;
      }
      if newsz < oldsz {
        return oldsz, true;
      }
      var p, hi := PageUp(oldsz), PageUp(newsz);
      GrowingStarts(mem, own, free, d, p, hi);
      while p * 4096 < newsz
        invariant Valid() && IsDir(own, d)
        invariant Growing(old(mem), old(own), old(free), mem, own, free, d, PageUp(oldsz), p, hi)
      {
        ok, p := AllocPage(d, p, hi, oldsz, newsz, old(mem), old(own), old(free));
        if !ok {
          return 0, false;
        }
      }
      return newsz, true;
    }

    /** One turn of the loop of allocuvm, with the way back where it fails. */
    method AllocPage(d: nat, p: nat, hi: nat, oldsz: Word, newsz: Word,
                     ghost mem0: seq<Page>, ghost own0: seq<Role>, ghost free0: seq<Frame>)
      returns (ok: bool, next: nat)
      requires oldsz <= newsz < KERNBASE && p < hi == PageUp(newsz)
      requires Inv(mem0, own0, free0, first) && IsDir(own0, d) && Clear(mem0, d, PageUp(oldsz), hi)
      requires Valid() && IsDir(own, d) && Growing(mem0, own0, free0, mem, own, free, d, PageUp(oldsz), p, hi)
      modifies this`mem, this`head, this`own, this`free
      ensures Valid() && IsDir(own, d) && next == p + 1
      ensures ok ==> Growing(mem0, own0, free0, mem, own, free, d, PageUp(oldsz), next, hi)
      ensures !ok ==> SameViews(own0, mem0, mem) && Kept(mem0, own0, mem, own, d, 0, 0)
      ensures !ok ==> |free0| < Demand(mem0[d], PageUp(oldsz), hi - PageUp(oldsz))
    {
      ghost var lo := PageUp(oldsz);
      next := p + 1;
      var r, f := PutPage(d, p, Filled(0), WRITE_USER);
      ok := r == Done;
      if ok {
        GrowingMore(mem0, own0, free0, old(mem), old(own), old(free), first, mem, own, free, d, lo, p, next, hi, f);
      } else {
        GrowingFails(mem0, own0, free0, old(mem), old(own), old(free), d, lo, p, hi);
        Retreat(d, p, hi, newsz, oldsz, f, mem0, own0, free0, old(mem), old(own), old(free));
      }
    }

    /** Where the page at p could not be mapped, everything is taken back. */
    method Retreat(d: nat, ghost p: nat, ghost hi: nat, newsz: nat, oldsz: nat, f: nat,
                   ghost mem0: seq<Page>, ghost own0: seq<Role>, ghost free0: seq<Frame>,
                   ghost mem1: seq<Page>, ghost own1: seq<Role>, ghost free1: seq<Frame>)
      requires oldsz <= newsz < KERNBASE && hi == PageUp(newsz) && IsDir(own1, d) && f < NFRAMES
      requires Inv(mem0, own0, free0, first) && IsDir(own0, d) && Clear(mem0, d, PageUp(oldsz), hi)
      requires Growing(mem0, own0, free0, mem1, own1, free1, d, PageUp(oldsz), p, hi)
      requires Valid() && IsDir(own, d) && |mem1| == |own1| == NFRAMES
      requires f == 0 ==> mem == mem1 && own == own1
      requires f != 0 ==> own1[f].Free? && own[f] == Held && SameMaps(own1, mem1, mem)
      requires f != 0 ==> Kept(mem1[f := Filled(0)], own1[f := Held], mem, own, d, 0, 0)
      modifies this`mem, this`head, this`own, this`free
      ensures Valid() && IsDir(own, d)
      ensures SameViews(own0, mem0, mem) && Kept(mem0, own0, mem, own, d, 0, 0)
    {
      Shrink(d, newsz, oldsz, f, mem1, own1);
      AllocBack(mem0, own0, free0, first, mem1, own1, mem, own, free, d, PageUp(oldsz), p, hi);
    }

    /** The way back in allocuvm: deallocuvm, and kfree for a frame that could not be mapped. */
    method Shrink(d: nat, newsz: nat, oldsz: nat, f: nat, ghost mem0: seq<Page>, ghost own0: seq<Role>)
      requires Valid() && IsDir(own, d) && IsDir(own0, d) && oldsz <= newsz < KERNBASE && f < NFRAMES
      requires |mem0| == |own0| == NFRAMES
      requires f == 0 ==> mem == mem0 && own == own0
      requires f != 0 ==> own0[f].Free? && own[f] == Held && SameMaps(own0, mem0, mem)
      requires f != 0 ==> Kept(mem0[f := Filled(0)], own0[f := Held], mem, own, d, 0, 0)
      modifies this`mem, this`head, this`own, this`free
      ensures Valid() && IsDir(own, d)
      ensures Kept(mem0, own0, mem, own, d, PageUp(oldsz), PageUp(newsz))
      ensures Unmapped(own0, mem0, mem, d, PageUp(oldsz), PageUp(newsz))
    {
      ghost var lo, hi := PageUp(oldsz), PageUp(newsz);
      ghost var m1, o1 := mem, own;
      var r := Deallocuvm(d, newsz, oldsz);
      if f != 0 {
        ghost var m2, o2 := mem, own;
        assert FrameKept(m1, o1, m2, o2, d, lo, hi, f);
        SameDirs(own0, own0[f := Held]);
        KeptDirs(mem0[f := Filled(0)], own0[f := Held], m1, o1, d, 0, 0);
        KeptDirs(m1, o1, m2, o2, d, lo, hi);
        KeptWider(mem0[f := Filled(0)], own0[f := Held], m1, o1, d, 0, 0, lo, hi);
        KeptTwice(mem0[f := Filled(0)], own0[f := Held], m1, o1, m2, o2, d, lo, hi);
        Release(f);
        KeptAround(mem0, own0, mem0[f := Filled(0)], own0[f := Held], m2, o2, mem, own, d, lo, hi, f);
      }
    }

    /** freevm: every frame of the space, its tables and its directory included, is
        free, and nothing else has changed. */
    method Freevm(d: nat)
      requires Valid() && IsDir(own, d)
      modifies this`mem, this`head, this`own, this`free
      ensures Valid() && Reclaimed(old(mem), old(own), mem, own, d)
    {
      assert forall f: nat | f < |own| :: Honest(mem, own, free, first, f) ==> own[f].User? ==> own[f].p < USERPAGES;
      var r := Deallocuvm(d, KERNBASE, 0);
      assert Clear(mem, d, 0, USERPAGES);
      ghost var m1, o1, f1 := mem, own, free;
      RetireKeepsInv(mem, own, free, first, d);
      own := Retired(own, d);
      for i := 0 to ENTRIES
        invariant Valid() && Freeing(m1, o1, mem, own, d, i)
      {
        assert FrameFreeing(m1, o1, mem, own, d, i, d);
        if Present(mem[d][i]) {
          ghost var m2, o2 := mem, own;
          var f := FrameOf(mem[d][i]);
          assert TableKnown(m1, o1, d, i);
          assert FrameFreeing(m1, o1, mem, own, d, i, f);
          Release(f);
          FreeingTable(m1, o1, f1, first, m2, o2, mem, own, d, i, f);
        } else {
          FreeingNone(m1, o1, f1, first, mem, own, d, i);
        }
      }
      ghost var m2, o2 := mem, own;
      assert FrameFreeing(m1, o1, mem, own, d, ENTRIES, d);
      Release(d);
      FreevmDone(old(mem), old(own), m1, o1, f1, first, m2, o2, mem, own, d);
    }

    /** setupkvm: a new directory with exactly the kernel's mappings, or 0 and no
        trace. It takes 65 frames. */
    method Setupkvm(data: nat) returns (d: nat)
      requires Valid() && 0x100 < data < NFRAMES
      modifies this`mem, this`head, this`own, this`free
      ensures Valid()
      ensures d == 0 ==> Undone(old(mem), old(own), mem, own)
      ensures d != 0 ==>
                && d < NFRAMES && old(own)[d].Free? && IsDir(own, d)
                && Kept(old(mem), old(own), mem, own, d, 0, 0)
                && IsKernelMap(mem, d, KernelMap(data), 4)
                && KernelTables(mem[d], 4, data) && |free| == |old(free)| - 65
      ensures d != 0 <==> |old(free)| >= 65
    {
      d := Kalloc();
      if d == 0 {
        return;
      }
      WriteKeepsInv(mem, own, free, first, d, Filled(0));
      mem := mem[d := Filled(0)];
      DirKeepsInv(mem, own, free, first, d);
      own := own[d := Dir];
      var rows := KernelMap(data);
      for k := 0 to 4
        invariant Valid() && IsDir(own, d)
        invariant Kept(old(mem), old(own), mem, own, d, 0, 0)
        invariant IsKernelMap(mem, d, rows, k)
        invariant KernelTables(mem[d], k, data) && |free| == |old(free)| - 1 - KernelFrames(k, data)
      {
        ghost var m1, o1 := mem, own;
        var r := MapKernelRow(d, data, k);
        KeptTwice(old(mem), old(own), m1, o1, mem, own, d, 0, 0);
        if r != Done {
          ghost var m2, o2 := mem, own;
          Freevm(d);
          BuiltAndReclaimed(old(mem), old(own), old(free), first, m2, o2, mem, own, d, 0, 0);
          return 0;
        }
      }
    }

    /** mappages for one row of kmap. */
    method MapRow(d: nat, row: Kmap) returns (r: Outcome, ghost n: nat)
      requires Valid() && IsDir(own, d) && GoodRow(row)
      modifies this`mem, this`head, this`own, this`free
      ensures Valid() && IsDir(own, d) && n <= row.count && (r == Done <==> n == row.count)
      ensures r != Remap ==>
                Mapping(old(mem), old(own), old(free), mem, own, free, d, row.page, row.frame, n, row.perm)
      ensures r == Remap ==> Present(Pte(old(mem), d, row.page + n))
      ensures Kept(old(mem), old(own), mem, own, d, 0, 0)
      ensures r == NoMemory ==> free == [] && !Present(mem[d][Pdx(row.page + n)])
    {
      RowPages(row);
      r, n := Mappages(d, row.page * 4096, row.count * 4096, row.frame * 4096, row.perm);
      GivenKernel(old(own), d, row.page, row.frame, n);
    }

    /** Row k of kmap. */
    method MapKernelRow(d: nat, data: nat, k: nat) returns (r: Outcome)
      requires Valid() && IsDir(own, d) && 0x100 < data < NFRAMES && k < 4
      requires IsKernelMap(mem, d, KernelMap(data), k) && KernelTables(mem[d], k, data)
      modifies this`mem, this`head, this`own, this`free
      ensures Valid() && IsDir(own, d) && r != Remap
      ensures Kept(old(mem), old(own), mem, own, d, 0, 0)
      ensures r == Done ==> IsKernelMap(mem, d, KernelMap(data), k + 1) && KernelTables(mem[d], k + 1, data)
      ensures r == Done ==> |free| == |old(free)| - (KernelFrames(k + 1, data) - KernelFrames(k, data))
      ensures r == NoMemory ==> |old(free)| + KernelFrames(k, data) < 64
    {
      var row := KernelMap(data)[k];
      ghost var n;
      r, n := MapRow(d, row);
      if r == Remap {
        RowsApart(data, k, row.page + n);
      } else if r == Done {
        RowMapped(old(own), old(mem), mem, d, data, k);
        RowTables(old(mem)[d], mem[d], k, data);
      } else {
        RowStops(old(mem)[d], mem[d], k, data, n);
      }
    }

    /** copyuvm where no page is shared. A copy has the pages of d below sz, with the
        same flags and contents and frames of its own; d itself is as it was. It
        succeeds if there are frames enough. Otherwise everything is undone, except
        that a frame is lost when it was the last one and a table was needed too. It
        panics at a page that has no table. */
    method Copyuvm(d: nat, sz: nat, data: nat) returns (r: CopyResult, ghost lost: nat)
      requires Valid() && IsDir(own, d) && sz <= KERNBASE && 0x100 < data < NFRAMES
      modifies this`mem, this`head, this`own, this`free
      ensures Valid()
      ensures r.Copied? ==>
                && r.c < NFRAMES && old(own)[r.c].Free? && IsDir(own, r.c)
                && Kept(old(mem), old(own), mem, own, r.c, 0, USERPAGES)
                && Copies(mem, d, r.c, KernelMap(data), PageUp(sz))
                && |free| == |old(free)| - 65 - Needed(old(mem), d, PageUp(sz))
      ensures r == CopyFailed ==> CopyFailure(old(mem), old(own), |old(free)|, mem, own, d, PageUp(sz), lost)
      ensures r == CopyPanic <==> Panics(old(mem), d, PageUp(sz), |old(free)|)
    {
      var c := Setupkvm(data);
      if c == 0 {
        CopyStops(old(mem), d, PageUp(sz), |old(free)|, 0);
        return CopyFailed, 0;
      }
      CopyingStarts(old(mem), old(own), old(free), first, mem, own, free, d, c, data);
      r, lost := CopyLoop(d, c, sz, data, old(mem), old(own), old(free));
    }

    /** The loop of copyuvm. */
    method CopyLoop(d: nat, c: nat, sz: nat, data: nat, ghost mem0: seq<Page>, ghost own0: seq<Role>,
                    ghost free0: seq<Frame>)
      returns (r: CopyResult, ghost lost: nat)
      requires Inv(mem0, own0, free0, first) && IsDir(own0, d) && sz <= KERNBASE && 0x100 < data < NFRAMES
      requires Valid() && IsDir(own, d) && IsDir(own, c) && c < NFRAMES && d != c
      requires Copying(mem0, own0, free0, mem, own, free, d, c, data, 0)
      modifies this`mem, this`head, this`own, this`free
      ensures Valid()
      ensures r.Copied? ==> r.c == c && IsDir(own, c)
      ensures r.Copied? ==> Copying(mem0, own0, free0, mem, own, free, d, c, data, PageUp(sz))
      ensures r == CopyFailed ==> CopyFailure(mem0, own0, |free0|, mem, own, d, PageUp(sz), lost)
      ensures r == CopyPanic <==> Panics(mem0, d, PageUp(sz), |free0|)
    {
      var p, m := 0, PageUp(sz);
      while p * 4096 < sz
        invariant p <= m && Valid() && IsDir(own, d) && IsDir(own, c)
        invariant CopiedTo(mem0, own0, free0, mem, own, free, d, c, data, p)
      {
        r, p, lost := CopyTurn(d, c, p, m, data, mem0, own0, free0);
        if !r.Copied? {
          return;
        }
      }
      return Copied(c), 0;
    }

    /** One turn of the loop of copyuvm, with freevm where it fails. */
    method CopyTurn(d: nat, c: nat, p: nat, m: nat, data: nat, ghost mem0: seq<Page>, ghost own0: seq<Role>,
                    ghost free0: seq<Frame>)
      returns (r: CopyResult, next: nat, ghost lost: nat)
      requires Inv(mem0, own0, free0, first) && IsDir(own0, d) && p < m <= USERPAGES && 0x100 < data < NFRAMES
      requires Valid() && IsDir(own, d) && IsDir(own, c) && c < NFRAMES && d != c
      requires CopiedTo(mem0, own0, free0, mem, own, free, d, c, data, p)
      modifies this`mem, this`head, this`own, this`free
      ensures Valid() && next == p + 1
      ensures r.Copied? ==> r.c == c && IsDir(own, d) && IsDir(own, c)
      ensures r.Copied? ==> CopiedTo(mem0, own0, free0, mem, own, free, d, c, data, next)
      ensures r == CopyFailed ==> CopyFailure(mem0, own0, |free0|, mem, own, d, m, lost)
      ensures r == CopyFailed ==> !Panics(mem0, d, m, |free0|)
      ensures r == CopyPanic ==> Panics(mem0, d, m, |free0|)
    {
      next := p + 1;
      var t := Walkpgdir(d, p, false);
      if t == 0 {
        CopyPanics(mem0, own0, free0, mem, own, free, d, c, data, p, m);
        return CopyPanic, next, 0;
      }
      var ok, f := CopyPage(d, c, p, t, data, mem0);
      if ok {
        CopiedMore(mem0, own0, free0, first, old(mem), old(own), old(free), mem, own, free, d, c, data, p, next);
        return Copied(c), next, 0;
      }
      CopyUndo(d, c, f, p, m, data, mem0, own0, free0, old(mem), old(own), old(free));
      return CopyFailed, next, f;
    }

    /** The way out of copyuvm at page p, where f is the frame that could not be mapped. */
    method CopyUndo(ghost d: nat, c: nat, ghost f: nat, ghost p: nat, ghost m: nat, ghost data: nat,
                    ghost mem0: seq<Page>, ghost own0: seq<Role>, ghost free0: seq<Frame>,
                    ghost mem1: seq<Page>, ghost own1: seq<Role>, ghost free1: seq<Frame>)
      requires Inv(mem0, own0, free0, first) && IsDir(own0, d) && p < m <= USERPAGES && 0x100 < data < NFRAMES
      requires Valid() && IsDir(own, c) && c < NFRAMES && f < NFRAMES && |mem1| == |own1| == NFRAMES && IsDir(own1, c)
      requires CopiedTo(mem0, own0, free0, mem1, own1, free1, d, c, data, p) && !NoTable(mem0, d, p)
      requires Present(Pte(mem0, d, p))
      requires f == 0 ==> mem == mem1 && own == own1 && free1 == []
      requires f != 0 ==>
                 && own1[f].Free? && Kept(mem1[f := mem[f]], own1[f := Held], mem, own, c, 0, 0)
                 && |free1| == 1 && FirstAt(mem0, d, p, p)
      modifies this`mem, this`head, this`own, this`free
      ensures Valid() && CopyFailure(mem0, own0, |free0|, mem, own, d, m, f) && !Panics(mem0, d, m, |free0|)
    {
      ghost var m1, o1 := mem, own;
      Freevm(c);
      if f == 0 {
        CopyFails(mem0, own0, free0, first, m1, o1, free1, mem, own, d, c, data, p, m);
      } else {
        CopyLoses(mem0, own0, free0, first, mem1, own1, free1, m1, o1, mem, own, d, c, data, p, m, f);
      }
      StopsBefore(mem0, d, m, |free0|, p);
    }

    /** The copy of one page. */
    method CopyPage(d: nat, c: nat, p: nat, t: nat, data: nat, ghost mem0: seq<Page>) returns (ok: bool, f: nat)
      requires Valid() && IsDir(own, d) && IsDir(own, c) && d != c && p < USERPAGES && 0x100 < data < NFRAMES
      requires InTable(mem, d, p, t) && Copies(mem, d, c, KernelMap(data), p)
      requires d < |mem0| && SamePtes(mem0, mem, d) && UserTables(mem[c], mem0, d, p)
      modifies this`mem, this`head, this`own, this`free
      ensures Valid() && IsDir(own, d) && IsDir(own, c) && f < NFRAMES
      ensures ok ==> Kept(old(mem), old(own), mem, own, c, p, p + 1) && Copies(mem, d, c, KernelMap(data), p + 1)
      ensures ok ==> UserTables(mem[c], mem0, d, p + 1)
      ensures ok ==> |free| == |old(free)| - Needed(mem0, d, p + 1) + Needed(mem0, d, p)
      ensures !ok ==> Present(Pte(mem0, d, p))
      ensures !ok && f == 0 ==> mem == old(mem) && own == old(own) && old(free) == []
      ensures !ok && f != 0 ==>
                && old(own)[f].Free? && Kept(old(mem)[f := mem[f]], old(own)[f := Held], mem, own, c, 0, 0)
                && |old(free)| == 1 && FirstAt(mem0, d, p, p)
    {
      UserPageAbsent(data, p);
      if !Present(mem[t][Ptx(p)]) {
        UserTablesMore(mem[c], mem[c], mem0, d, p);
        return true, 0;
      }
      var src, flags := FrameOf(mem[t][Ptx(p)]), mem[t][Ptx(p)] % 4096;
      assert PageKnown(mem, own, d, p);
      ghost var content := mem[src];
      var r;
      r, f := PutPage(c, p, mem[src], flags);
      ok := r == Done;
      if ok {
        CopiesMore(old(mem), old(own), old(free), first, mem, own, d, c, KernelMap(data), p, f);
        UserTablesMore(old(mem)[c], mem[c], mem0, d, p);
        assert FrameKept(old(mem), old(own), mem, own, c, p, p + 1, d);
      } else if f != 0 {
        assert FrameKept(old(mem)[f := content], old(own)[f := Held], mem, own, c, 0, 0, f);
        assert FrameKept(old(mem)[f := content], old(own)[f := Held], mem, own, c, 0, 0, d);
      }
    }
  }

  /** A process with one page, and 66 frames left. */
  method OnePageProcess(first: nat, mem: seq<Page>, data: nat) returns (vm: Vm, d: nat)
    requires 0 < first && first + 133 <= NFRAMES && |mem| == NFRAMES && 0x100 < data < NFRAMES
    ensures fresh(vm) && vm.Valid() && IsDir(vm.own, d) && d < |vm.mem| && Present(Pte(vm.mem, d, 0)) && |vm.free| == 66
  {
    vm := new Vm(first, mem);
    vm.Freerange(first, first + 133);
    d := vm.Setupkvm(data);
    assert !Present(vm.mem[d][0]) && Pdx(0) == 0;
    assert NewTables(vm.mem[d], 0, 0) == 0 && NewTables(vm.mem[d], 0, 1) == 1;
    var sz, ok := vm.Allocuvm(d, 0, 4096);
  }

  /** fork of that process: the copy fails, and a frame is lost. */
  method LostByFork(first: nat, mem: seq<Page>, data: nat) returns (vm: Vm, r: CopyResult, ghost lost: nat)
    requires 0 < first && first + 133 <= NFRAMES && |mem| == NFRAMES && 0x100 < data < NFRAMES
    ensures vm.Valid() && r == CopyFailed && lost < |vm.own| && vm.own[lost] == Held
  {
    var d;
    vm, d := OnePageProcess(first, mem, data);
    FrameLost(vm.mem, d);
    CopyNeedsTwo(vm.mem, d);
    assert forall p: nat | p < 1 :: !PanicsAt(vm.mem, d, p, 66);
    r, lost := vm.Copyuvm(d, 4096, data);
  }

  lemma CopyNeedsTwo(mem: seq<Page>, d: nat)
    requires d < |mem| && Present(Pte(mem, d, 0))
    ensures Needed(mem, d, 1) == 2 && !NoTable(mem, d, 0)
  {
    assert Needed(mem, d, 0) == 0 && FirstAt(mem, d, 0, 0);
  }
}
