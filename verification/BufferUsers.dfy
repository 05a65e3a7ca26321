/** Any number of processes at the buffer cache (bio.c): each method is one step of
    one of them, and they may come in any order. A reference is known by a number that
    the process chooses when it asks for the block. */
module BufferUsers {
  import opened Blocks
  import opened BufferCache

  /** A reference to buffer b, taken for this block; `holding` is its lock. */
  datatype Ref = Ref(b: nat, dev: nat, blockno: nat, holding: bool)

  ghost function RefsOf(refs: map<nat, Ref>, b: nat): set<nat> {
    set h | h in refs && refs[h].b == b
  }

  ghost predicate GoodRef(r: Ref, bufs: seq<Buf>) {
    && r.b < |bufs| && Holds(bufs[r.b], r.dev, r.blockno)
    && (r.holding ==> bufs[r.b].locked && bufs[r.b].valid)
  }

  /** The reference count is the number of references. */
  ghost predicate CountedAt(refs: map<nat, Ref>, bufs: seq<Buf>, b: nat)
    requires b < |bufs|
  {
    bufs[b].refcnt == |RefsOf(refs, b)|
  }

  /** Nobody else has the lock. */
  ghost predicate Alone(refs: map<nat, Ref>, h: nat, g: nat)
    requires h in refs && g in refs
  {
    refs[h].holding && refs[g].holding && refs[h].b == refs[g].b ==> h == g
  }

  /** A locked buffer is locked by somebody. */
  ghost predicate HeldAt(refs: map<nat, Ref>, bufs: seq<Buf>, b: nat)
    requires b < |bufs|
  {
    bufs[b].locked ==> exists h :: h in refs && refs[h].b == b && refs[h].holding
  }

  ghost predicate Counted(refs: map<nat, Ref>, bufs: seq<Buf>) {
    && (forall h {:trigger GoodRef(refs[h], bufs)} | h in refs :: GoodRef(refs[h], bufs))
    && (forall b: nat {:trigger CountedAt(refs, bufs, b)} | b < |bufs| :: CountedAt(refs, bufs, b))
    && (forall b: nat {:trigger HeldAt(refs, bufs, b)} | b < |bufs| :: HeldAt(refs, bufs, b))
    && (forall h, g {:trigger Alone(refs, h, g)} | h in refs && g in refs :: Alone(refs, h, g))
  }

  /** A step by h leaves alone what others hold. */
  ghost predicate Undisturbed(refs: map<nat, Ref>, bufs: seq<Buf>, bufs': seq<Buf>, h: nat) {
    && |bufs'| == |bufs|
    && forall g {:trigger refs[g]} | g in refs && g != h && refs[g].holding && refs[g].b < |bufs| ::
         bufs'[refs[g].b].data == bufs[refs[g].b].data && bufs'[refs[g].b].locked
  }

  /** Two references that hold the same block are one. */
  lemma OneHolder(refs: map<nat, Ref>, bufs: seq<Buf>, h: nat, g: nat)
    requires Counted(refs, bufs) && Unique(bufs) && h in refs && g in refs
    requires refs[h].holding && refs[g].holding && refs[h].dev == refs[g].dev == ROOTDEV
    requires refs[h].blockno == refs[g].blockno
    ensures h == g
  {
    assert GoodRef(refs[h], bufs) && GoodRef(refs[g], bufs);
    assert refs[h].b == refs[g].b || Differ(bufs[refs[h].b], bufs[refs[g].b]);
    assert Alone(refs, h, g);
  }

  /** Only reference h differs. */
  ghost predicate SameBut(refs: map<nat, Ref>, refs': map<nat, Ref>, h: nat) {
    forall g | g != h :: (g in refs' <==> g in refs) && (g in refs ==> refs'[g] == refs[g])
  }

  lemma CountBut(refs: map<nat, Ref>, refs': map<nat, Ref>, h: nat, b: nat, c: nat)
    requires SameBut(refs, refs', h) && (h in refs ==> refs[h].b == b) && (h in refs' ==> refs'[h].b == b)
    ensures c != b ==> RefsOf(refs', c) == RefsOf(refs, c)
    ensures |RefsOf(refs', b)| - (if h in refs' then 1 else 0) == |RefsOf(refs, b)| - if h in refs then 1 else 0
  {
    var rest := RefsOf(refs, b) - {h};
    assert RefsOf(refs, b) == if h in refs then rest + {h} else rest;
    assert RefsOf(refs', b) == if h in refs' then rest + {h} else rest;
  }

  lemma StillLocked(refs: map<nat, Ref>, refs': map<nat, Ref>, h: nat, b: nat, c: nat, was: bool, now: bool)
    requires SameBut(refs, refs', h) && (h in refs ==> refs[h].b == b) && (h in refs' ==> refs'[h].b == b)
    requires was ==> exists g :: g in refs && refs[g].b == c && refs[g].holding
    requires c != b && now ==> was
    requires c == b && now ==> (h in refs' && refs'[h].holding) || (was && !(h in refs && refs[h].holding))
    ensures now ==> exists g :: g in refs' && refs'[g].b == c && refs'[g].holding
  {
    if now && !(c == b && h in refs' && refs'[h].holding) {
      var g :| g in refs && refs[g].b == c && refs[g].holding;
      assert g != h && g in refs' && refs'[g] == refs[g];
    } else if now {
      assert h in refs' && refs'[h].b == c && refs'[h].holding;
    }
  }

  /** One buffer changes, and with it at most the reference h. */
  lemma ChangeCounted(refs: map<nat, Ref>, bufs: seq<Buf>, refs': map<nat, Ref>, b: nat, x: Buf, h: nat)
    requires Counted(refs, bufs) && b < |bufs|
    requires SameBut(refs, refs', h) && (h in refs ==> refs[h].b == b) && (h in refs' ==> refs'[h].b == b)
    requires forall g | g in refs && g != h && refs[g].b == b :: GoodRef(refs[g], bufs[b := x])
    requires h in refs' ==> GoodRef(refs'[h], bufs[b := x])
    requires h in refs' && refs'[h].holding ==> forall g | g in refs && g != h && refs[g].b == b :: !refs[g].holding
    requires x.refcnt == bufs[b].refcnt - (if h in refs then 1 else 0) + (if h in refs' then 1 else 0)
    requires x.locked ==> (h in refs' && refs'[h].holding) || (bufs[b].locked && !(h in refs && refs[h].holding))
    ensures Counted(refs', bufs[b := x])
  {
    var bufs' := bufs[b := x];
    forall g | g in refs'
      ensures GoodRef(refs'[g], bufs')
    {
      if g != h {
        assert GoodRef(refs[g], bufs);
      }
    }
    forall c: nat | c < |bufs'|
      ensures CountedAt(refs', bufs', c)
    {
      assert CountedAt(refs, bufs, c);
      CountBut(refs, refs', h, b, c);
    }
    forall c: nat | c < |bufs'|
      ensures HeldAt(refs', bufs', c)
    {
      assert HeldAt(refs, bufs, c);
      StillLocked(refs, refs', h, b, c, bufs[c].locked, bufs'[c].locked);
    }
    forall g, k | g in refs' && k in refs'
      ensures Alone(refs', g, k)
    {
      if g != h && k != h {
        assert Alone(refs, g, k);
      }
    }
  }

  class Users {
    const cache: Cache
    ghost var refs: map<nat, Ref>

    ghost predicate Valid()
      reads this, cache, cache.buf, cache.next, cache.prev
    {
      cache.Valid() && Counted(refs, cache.buf[..])
    }

    /** After binit nobody has a buffer. */
    constructor (disk: Disk)
      ensures Valid() && refs == map[] && cache.disk == cache.contents == disk && fresh(cache)
    {
      cache := new Cache(disk);
      refs := map[];
      new;
      assert forall b: nat :: RefsOf(refs, b) == {};
      forall b: nat | b < NBUF
        ensures !cache.buf[..][b].locked
      {
        assert Agrees(cache.buf[..][b], cache.disk, cache.contents);
      }
    }

    /** bget by a process that will wait for the lock: whatever happens before it gets
        the lock, the buffer stays the block's, since a buffer with references is not
        recycled. NBUF is the panic. */
    method Get(ghost h: nat, dev: nat, blockno: nat) returns (b: nat)
      requires Valid() && h !in refs
      modifies this`refs, cache.buf
      ensures Valid() && b <= NBUF
      ensures b == NBUF <==> forall i | 0 <= i < NBUF ::
                !old(Holds(cache.buf[i], dev, blockno)) && !old(Unused(cache.buf[i]))
      ensures refs == if b < NBUF then old(refs)[h := Ref(b, dev, blockno, false)] else old(refs)
      ensures Undisturbed(old(refs), old(cache.buf[..]), cache.buf[..], h)
    {
      b := cache.Bget(dev, blockno);
      if b < NBUF {
        GetCounted(refs, old(cache.buf[..]), h, Ref(b, dev, blockno, false), cache.buf[b]);
        refs := refs[h := Ref(b, dev, blockno, false)];
      } else {
        StillHeld(refs, cache.buf[..]);
      }
    }

    /** The rest of bread, when the lock is free: the block asked for, with its last
        contents. False is a panic of the driver. */
    method Lock(ghost h: nat, b: nat) returns (ok: bool)
      requires Valid() && h in refs && refs[h].b == b < NBUF && !cache.buf[b].locked
      modifies this`refs, cache.buf, cache`disk
      ensures ok <==> old(refs)[h].dev == ROOTDEV && old(refs)[h].blockno < |cache.disk|
      ensures ok ==>
                && Valid() && refs == old(refs)[h := old(refs)[h].(holding := true)]
                && Holds(cache.buf[b], refs[h].dev, refs[h].blockno)
                && cache.buf[b].data == cache.contents[refs[h].blockno]
      ensures Undisturbed(old(refs), old(cache.buf[..]), cache.buf[..], h)
    {
      assert GoodRef(refs[h], cache.buf[..]) && CountedAt(refs, cache.buf[..], b);
      assert h in RefsOf(refs, b);
      StillHeld(refs, cache.buf[..]);
      NobodyHolds(refs, cache.buf[..], b);
      ok := cache.Enter(b);
      if ok {
        LockCounted(refs, old(cache.buf[..]), h, cache.buf[b]);
        refs := refs[h := refs[h].(holding := true)];
      }
    }

    /** Whoever holds the block changes it and logs or writes it, which makes the bytes
        the block's last contents. */
    method Update(ghost h: nat, b: nat, data: Block)
      requires Valid() && h in refs && refs[h].b == b < NBUF && refs[h].holding
      modifies cache.buf, cache`contents
      ensures Valid() && refs[h].blockno < |old(cache.contents)|
      ensures cache.contents == old(cache.contents)[refs[h].blockno := data] && cache.buf[b].data == data
      ensures Undisturbed(refs, old(cache.buf[..]), cache.buf[..], h)
    {
      assert GoodRef(refs[h], cache.buf[..]);
      ghost var x := cache.buf[b].(data := data, dirty := true);
      UpdateCounted(refs, cache.buf[..], h, x);
      cache.Modify(b, data);
      cache.Pin(b);
      assert cache.buf[..] == old(cache.buf[..])[b := x];
    }

    /** The same by bwrite: the bytes are on the disk too. */
    method Store(ghost h: nat, b: nat, data: Block) returns (ok: bool)
      requires Valid() && h in refs && refs[h].b == b < NBUF && refs[h].holding
      modifies cache.buf, cache`disk, cache`contents
      ensures ok && Valid() && refs[h].blockno < |old(cache.contents)| == |old(cache.disk)|
      ensures cache.contents == old(cache.contents)[refs[h].blockno := data] && cache.buf[b].data == data
      ensures cache.disk == old(cache.disk)[refs[h].blockno := data]
      ensures Undisturbed(refs, old(cache.buf[..]), cache.buf[..], h)
    {
      assert GoodRef(refs[h], cache.buf[..]);
      ghost var x := cache.buf[b].(data := data, dirty := false);
      UpdateCounted(refs, cache.buf[..], h, x);
      cache.Modify(b, data);
      ok := cache.Bwrite(b);
      assert cache.buf[..] == old(cache.buf[..])[b := x];
    }

    /** The first half of brelse, by the holder, whose changes have been logged or
        written: from here on others can take the lock. */
    method Unlock(ghost h: nat, b: nat)
      requires Valid() && h in refs && refs[h].b == b < NBUF && refs[h].holding
      requires refs[h].blockno < |cache.contents| ==> cache.buf[b].data == cache.contents[refs[h].blockno]
      modifies this`refs, cache.buf
      ensures Valid() && refs == old(refs)[h := old(refs)[h].(holding := false)]
      ensures Undisturbed(old(refs), old(cache.buf[..]), cache.buf[..], h)
    {
      assert GoodRef(refs[h], cache.buf[..]);
      UnlockCounted(refs, cache.buf[..], h, cache.buf[b].(locked := false));
      cache.Unlock(b);
      refs := refs[h := refs[h].(holding := false)];
    }

    /** The second half: the reference is gone, whoever holds the buffer by now. */
    method Drop(ghost h: nat, b: nat)
      requires Valid() && h in refs && refs[h].b == b < NBUF && !refs[h].holding
      modifies this`refs, cache.buf, cache.next, cache.prev, cache`order, cache`released, cache`time
      ensures Valid() && refs == old(refs) - {h}
      ensures Undisturbed(old(refs), old(cache.buf[..]), cache.buf[..], h)
    {
      DropCounted(refs, cache.buf[..], h);
      cache.Drop(b);
      refs := refs - {h};
    }
  }

  /** Whoever holds a buffer has it locked. */
  lemma StillHeld(refs: map<nat, Ref>, bufs: seq<Buf>)
    requires Counted(refs, bufs)
    ensures forall g | g in refs && refs[g].holding :: refs[g].b < |bufs| && bufs[refs[g].b].locked
  {
    forall g | g in refs && refs[g].holding
      ensures refs[g].b < |bufs| && bufs[refs[g].b].locked
    {
      assert GoodRef(refs[g], bufs);
    }
  }

  /** Nobody holds a buffer that is not locked. */
  lemma NobodyHolds(refs: map<nat, Ref>, bufs: seq<Buf>, b: nat)
    requires Counted(refs, bufs) && b < |bufs| && !bufs[b].locked
    ensures forall g | g in refs && refs[g].b == b :: !refs[g].holding
  {
    forall g | g in refs && refs[g].b == b
      ensures !refs[g].holding
    {
      assert GoodRef(refs[g], bufs);
    }
  }

  /** One more reference, to a buffer for the block or to one that had none. */
  lemma GetCounted(refs: map<nat, Ref>, bufs: seq<Buf>, h: nat, r: Ref, x: Buf)
    requires Counted(refs, bufs) && h !in refs && r.b < |bufs| && !r.holding && Holds(x, r.dev, r.blockno)
    requires if Holds(bufs[r.b], r.dev, r.blockno) then x == bufs[r.b].(refcnt := bufs[r.b].refcnt + 1)
             else bufs[r.b].refcnt == 0 && x.refcnt == 1 && !x.locked
    ensures Counted(refs[h := r], bufs[r.b := x])
    ensures Undisturbed(refs, bufs, bufs[r.b := x], h)
  {
    assert CountedAt(refs, bufs, r.b);
    StillHeld(refs, bufs);
    forall g | g in refs && refs[g].b == r.b
      ensures Holds(bufs[r.b], r.dev, r.blockno) && GoodRef(refs[g], bufs[r.b := x])
    {
      assert GoodRef(refs[g], bufs);
      assert g in RefsOf(refs, r.b);
    }
    ChangeCounted(refs, bufs, refs[h := r], r.b, x, h);
  }

  lemma LockCounted(refs: map<nat, Ref>, bufs: seq<Buf>, h: nat, x: Buf)
    requires Counted(refs, bufs) && h in refs && refs[h].b < |bufs| && !bufs[refs[h].b].locked
    requires x == bufs[refs[h].b].(locked := true, valid := true, data := x.data)
    ensures Counted(refs[h := refs[h].(holding := true)], bufs[refs[h].b := x])
  {
    var b := refs[h].b;
    NobodyHolds(refs, bufs, b);
    forall g | g in refs && refs[g].b == b
      ensures Holds(bufs[b], refs[g].dev, refs[g].blockno)
    {
      assert GoodRef(refs[g], bufs);
    }
    ChangeCounted(refs, bufs, refs[h := refs[h].(holding := true)], b, x, h);
  }

  /** The holder is the only one. */
  lemma OnlyHolder(refs: map<nat, Ref>, bufs: seq<Buf>, h: nat)
    requires Counted(refs, bufs) && h in refs && refs[h].holding
    ensures forall g | g in refs && g != h && refs[g].b == refs[h].b :: !refs[g].holding
    ensures forall g | g in refs :: GoodRef(refs[g], bufs)
  {
    forall g | g in refs && g != h && refs[g].b == refs[h].b
      ensures !refs[g].holding
    {
      assert Alone(refs, g, h);
    }
  }

  lemma UpdateCounted(refs: map<nat, Ref>, bufs: seq<Buf>, h: nat, x: Buf)
    requires Counted(refs, bufs) && h in refs && refs[h].b < |bufs| && refs[h].holding
    requires x == bufs[refs[h].b].(data := x.data, dirty := x.dirty)
    ensures Counted(refs, bufs[refs[h].b := x]) && Undisturbed(refs, bufs, bufs[refs[h].b := x], h)
  {
    OnlyHolder(refs, bufs, h);
    ChangeCounted(refs, bufs, refs, refs[h].b, x, h);
  }

  lemma UnlockCounted(refs: map<nat, Ref>, bufs: seq<Buf>, h: nat, x: Buf)
    requires Counted(refs, bufs) && h in refs && refs[h].b < |bufs| && refs[h].holding
    requires x == bufs[refs[h].b].(locked := false)
    ensures Counted(refs[h := refs[h].(holding := false)], bufs[refs[h].b := x])
    ensures Undisturbed(refs, bufs, bufs[refs[h].b := x], h)
  {
    OnlyHolder(refs, bufs, h);
    ChangeCounted(refs, bufs, refs[h := refs[h].(holding := false)], refs[h].b, x, h);
  }

  /** Whoever has let go of the lock can drop the reference: a buffer that is locked by
      then has another one. */
  lemma DropCounted(refs: map<nat, Ref>, bufs: seq<Buf>, h: nat)
    requires Counted(refs, bufs) && h in refs && refs[h].b < |bufs| && !refs[h].holding
    ensures
      var b := refs[h].b;
      && 0 < bufs[b].refcnt && (bufs[b].locked ==> 1 < bufs[b].refcnt)
      && var x := bufs[b].(refcnt := bufs[b].refcnt - 1);
         Counted(refs - {h}, bufs[b := x]) && Undisturbed(refs, bufs, bufs[b := x], h)
  {
    var b := refs[h].b;
    assert CountedAt(refs, bufs, b) && HeldAt(refs, bufs, b);
    TwoRefs(refs, bufs, h);
    StillHeld(refs, bufs);
    forall g | g in refs
      ensures GoodRef(refs[g], bufs)
    {
    }
    ChangeCounted(refs, bufs, refs - {h}, b, bufs[b].(refcnt := bufs[b].refcnt - 1), h);
  }

  lemma TwoRefs(refs: map<nat, Ref>, bufs: seq<Buf>, h: nat)
    requires Counted(refs, bufs) && h in refs && refs[h].b < |bufs| && !refs[h].holding
    ensures 0 < |RefsOf(refs, refs[h].b)| && (bufs[refs[h].b].locked ==> 1 < |RefsOf(refs, refs[h].b)|)
  {
    var b, s := refs[h].b, RefsOf(refs, refs[h].b);
    assert h in s && HeldAt(refs, bufs, b);
    if bufs[b].locked {
      var g :| g in refs && refs[g].b == b && refs[g].holding;
      assert g in s - {h};
      assert s == (s - {h}) + {h};
    }
  }
}
