/** The procedures of log.c, working in place on the disk and on the in-memory
    log header. Each is tied to the write sequence RedoLog gives for it, so that
    the crash theorems there are about these procedures. */
module Log {
  import opened Blocks
  import opened Common
  import opened Replay
  import opened RedoLog

  class Log {
    const area: Area          // log.start, log.size
    var n: nat                // log.lh.n
    const block: array<Word>  // log.lh.block
    var outstanding: nat
    var disk: Disk
    var dirty: map<nat, Block>      // buffers changed since they were last written
    ghost var trace: seq<Write<Block>>     // every write issued so far

    ghost predicate Valid()
      reads this, block
    {
      && block.Length == LOGSIZE
      && n <= LOGSIZE
      && GoodArea(disk, area)
      && GoodList(disk, area, block[..n])
      && dirty.Keys == set b | b in block[..n]
    }

    /** What bread returns for each block. */
    ghost function Contents(): (c: Disk)
      reads this
    {
      Cached(disk, dirty)
    }

    /** initlog: a log with nothing in it, once whatever the header describes has been
        recovered. */
    constructor (area: Area, disk: Disk)
      requires GoodDisk(disk, area)
      ensures Valid() && this.area == area && n == 0 && outstanding == 0 && fresh(block)
      ensures Issued(disk, [], this.disk, trace, RecoveryWrites(disk, area))
      ensures HeadCount(this.disk[area.start]) == 0
    {
      this.area := area;
      this.disk := disk;
      n, outstanding, dirty, trace := 0, 0, map[], [];
      block := new Word[LOGSIZE](_ => 0);
      new;
      RecoverFromLog();
    }

    method Bread(b: nat) returns (data: Block)
      requires b < |disk|
      ensures data == Contents()[b]
    {
      data := if b in dirty then dirty[b] else disk[b];
    }

    method Bwrite(b: nat, data: Block)
      requires b < |disk|
      modifies this`disk, this`dirty, this`trace
      ensures disk == old(disk)[b := data]
      ensures dirty == old(dirty) - {b}
      ensures trace == old(trace) + [Write(b, data)]
    {
      disk := disk[b := data];
      dirty := dirty - {b};
      trace := trace + [Write(b, data)];
    }

    /** log_write: false stands for the two panics. A block already in the list
        is absorbed. */
    method LogWrite(b: Word, data: Block) returns (ok: bool)
      requires Valid() && Home(disk, area, b)
      modifies this`n, this`dirty, block
      ensures ok <==> old(n) < LOGSIZE && old(n) < area.size - 1 && outstanding >= 1
      ensures Valid()
      ensures block[..n] == if ok && b !in old(block[..n]) then old(block[..n]) + [b] else old(block[..n])
      ensures Contents() == if ok then old(Contents())[b := data] else old(Contents())
    {
      if n >= LOGSIZE || n >= area.size - 1 || outstanding < 1 {
        return false;
      }
      var i := 0;
      while i < n && block[i] != b
        invariant 0 <= i <= n
        invariant b !in block[..i]
      {
        i := i + 1;
      }
      ghost var bs := block[..n];
      assert i < n ==> bs[i] == b;
      block[i] := b;
      if i == n {
        n := n + 1;
        assert block[..n] == bs + [b];
      } else {
        assert block[..n] == bs;
      }
      dirty := dirty[b := data];
      ok := true;
    }

    method WriteLog()
      requires GoodArea(disk, area) && block.Length == LOGSIZE && n <= LOGSIZE
      requires GoodList(disk, area, block[..n])
      requires forall b <- dirty :: !InLog(area, b)
      modifies this`disk, this`dirty, this`trace
      ensures dirty == old(dirty)
      ensures Reaches(old(disk), LogWrites(area, block[..n], old(Contents())), n, disk)
      ensures trace == old(trace) + LogWrites(area, block[..n], old(Contents()))
    {
      ghost var bs, ws := block[..n], LogWrites(area, block[..n], Contents());
      for tail := 0 to n
        invariant dirty == old(dirty) && Under(old(disk), old(trace), ws, tail)
      {
        CopyToLog(tail, bs, ws, old(disk), old(trace));
      }
      assert ws[..n] == ws;
    }

    /** k of the writes ws have been issued since the disk was d and the trace t. */
    ghost predicate Under(d: Disk, t: seq<Write<Block>>, ws: seq<Write<Block>>, k: nat)
      reads this
    {
      Reaches(d, ws, k, disk) && trace == t + ws[..k]
    }

    /** One turn of write_log. */
    method CopyToLog(tail: nat, ghost bs: seq<Word>, ghost ws: seq<Write<Block>>, ghost d: Disk,
                     ghost t: seq<Write<Block>>)
      requires GoodArea(d, area) && GoodList(d, area, bs) && tail < |bs| <= block.Length && bs == block[..|bs|]
      requires forall b <- dirty :: !InLog(area, b)
      requires ws == LogWrites(area, bs, Cached(d, dirty)) && Under(d, t, ws, tail)
      modifies this`disk, this`dirty, this`trace
      ensures dirty == old(dirty) && Under(d, t, ws, tail + 1)
    {
      ReachesMore(d, ws, tail, disk);
      LogStep(d, area, bs, dirty, tail);
      assert block[tail] == bs[tail] && Home(d, area, bs[tail]);
      var data := Bread(block[tail]);
      Bwrite(area.start + tail + 1, data);
      assert InLog(area, area.start + tail + 1);
      assert ws[tail] == Write(area.start + tail + 1, data);
      OneMore(t, ws, tail);
    }

    /** The header entries go into the block that is on disk already. */
    method WriteHead()
      requires GoodArea(disk, area) && block.Length == LOGSIZE && n <= LOGSIZE && area.start !in dirty
      modifies this`disk, this`dirty, this`trace
      ensures dirty == old(dirty)
      ensures disk == old(disk)[area.start := PutHead(old(disk)[area.start], block[..n])]
      ensures trace == old(trace) + [Write(area.start, PutHead(old(disk)[area.start], block[..n]))]
    {
      var hb := Bread(area.start);
      hb := PutWord(hb, 0, n);
      ghost var h0, bs := hb, block[..n];
      for i := 0 to n
        invariant hb == PutList(h0, bs, i)
      {
        hb := PutWord(hb, i + 1, block[i]);
      }
      Bwrite(area.start, hb);
    }

    method InstallTrans()
      requires GoodArea(disk, area) && block.Length == LOGSIZE && n <= LOGSIZE
      requires GoodList(disk, area, block[..n])
      requires forall b <- dirty :: !InLog(area, b)
      modifies this`disk, this`dirty, this`trace
      ensures dirty == Without(old(dirty), block[..n], n)
      ensures Reaches(old(disk), InstallWrites(old(disk), area, block[..n]), n, disk)
      ensures trace == old(trace) + InstallWrites(old(disk), area, block[..n])
    {
      ghost var bs, ws := block[..n], InstallWrites(disk, area, block[..n]);
      for tail := 0 to n
        invariant dirty == Without(old(dirty), bs, tail) && Under(old(disk), old(trace), ws, tail)
      {
        CopyHome(tail, bs, ws, old(disk), old(trace), old(dirty));
      }
      assert ws[..n] == ws;
    }

    /** One turn of install_trans. */
    method CopyHome(tail: nat, ghost bs: seq<Word>, ghost ws: seq<Write<Block>>, ghost d: Disk,
                    ghost t: seq<Write<Block>>,
                    ghost dirty0: map<nat, Block>)
      requires GoodArea(d, area) && GoodList(d, area, bs) && tail < |bs| <= block.Length && bs == block[..|bs|]
      requires (forall b <- dirty0 :: !InLog(area, b)) && dirty == Without(dirty0, bs, tail)
      requires ws == InstallWrites(d, area, bs) && Under(d, t, ws, tail)
      modifies this`disk, this`dirty, this`trace
      ensures dirty == Without(dirty0, bs, tail + 1) && Under(d, t, ws, tail + 1)
    {
      ReachesMore(d, ws, tail, disk);
      WithoutKeys(dirty0, bs, tail);
      InstallPrefix(d, area, bs, tail, area.start + tail + 1);
      var data := Bread(area.start + tail + 1);
      assert block[tail] == bs[tail] && Home(d, area, bs[tail]);
      Bwrite(block[tail], data);
      assert ws[..tail + 1] == ws[..tail] + [Write(bs[tail], data)];
    }

    method ReadHead()
      requires GoodDisk(disk, area) && block.Length == LOGSIZE && area.start !in dirty
      modifies this`n, block
      ensures n == HeadCount(disk[area.start])
      ensures block[..n] == HeadList(disk[area.start])
    {
      var lh := Bread(area.start);
      n := GetWord(lh, 0);
      for i := 0 to n
        invariant n == HeadCount(disk[area.start])
        invariant forall j | 0 <= j < i :: block[j] == GetWord(lh, j + 1)
      {
        block[i] := GetWord(lh, i + 1);
      }
    }

    /** At boot no buffer is dirty. */
    method RecoverFromLog()
      requires Valid() && dirty == map[] && GoodDisk(disk, area)
      modifies this`n, this`disk, this`dirty, this`trace, block
      ensures Valid() && n == 0
      ensures Issued(old(disk), old(trace), disk, trace, RecoveryWrites(old(disk), area))
      ensures HeadCount(disk[area.start]) == 0
    {
      ReadHead();
      ghost var d0, bs := disk, block[..n];
      WithoutKeys(dirty, bs, n);
      HeadRoundTrip(d0[area.start], []);
      InstallTrans();
      ReplayPhases(d0, area, bs, disk, PutHead(d0[area.start], []));
      n := 0;
      assert block[..n] == [];
      WriteHead();
    }

    /** The body of commit when some block is logged. */
    method CommitLogged()
      requires GoodArea(disk, area) && block.Length == LOGSIZE && 0 < n <= LOGSIZE
      requires GoodList(disk, area, block[..n])
      requires forall b <- dirty :: !InLog(area, b)
      modifies this`n, this`disk, this`dirty, this`trace
      ensures n == 0
      ensures dirty == Without(old(dirty), old(block[..n]), old(n))
      ensures Issued(old(disk), old(trace), disk, trace,
                     CommitWrites(old(disk), area, old(block[..n]), old(Contents())))
    {
      ghost var d0, tx := disk, Tx(block[..n], Contents());
      ghost var hb := PutHead(d0[area.start], tx.blocks);
      WriteLog();
      PreparePhases(d0, area, tx, hb, disk);
      WriteHead();
      ghost var d2 := disk;
      WithoutKeys(dirty, tx.blocks, n);
      InstallTrans();
      ReplayPhases(d2, area, tx.blocks, disk, PutHead(hb, []));
      n := 0;
      assert block[..n] == [];
      WriteHead();
      CommitEnds(d0, d2, disk, area, tx, hb);
      CommitParts(d0, d2, area, tx, hb);
      Regroup(old(trace), LogWrites(area, tx.blocks, tx.contents), [Write(area.start, hb)],
              InstallWrites(d2, area, tx.blocks), [Write(area.start, PutHead(hb, []))]);
    }

    /** On a disk whose log is empty, commit brings every home block on disk up
        to what the buffers hold, and leaves the log empty. */
    method Commit()
      requires Valid() && GoodDisk(disk, area) && HeadCount(disk[area.start]) == 0
      modifies this`n, this`disk, this`dirty, this`trace
      ensures Valid() && n == 0 && dirty == map[]
      ensures Issued(old(disk), old(trace), disk, trace,
                     CommitWrites(old(disk), area, old(block[..n]), old(Contents())))
      ensures Settled(disk, area, old(Contents()))
    {
      CommitSettles(disk, area, block[..n], dirty);
      if n > 0 {
        CommitLogged();
      }
      assert block[..n] == [];
    }
  }

  /** The log is empty, and every home block is as in c. */
  ghost predicate Settled(d: Disk, lg: Area, c: Disk) {
    && GoodArea(d, lg) && |c| == |d| && HeadCount(d[lg.start]) == 0
    && forall b | 0 <= b < |d| && Home(d, lg, b) :: d[b] == c[b]
  }

  lemma CommitSettles(d: Disk, lg: Area, bs: seq<Word>, dirty: map<nat, Block>)
    requires GoodDisk(d, lg) && HeadCount(d[lg.start]) == 0 && GoodList(d, lg, bs)
    requires dirty.Keys == set b | b in bs
    ensures
      var ws := CommitWrites(d, lg, bs, Cached(d, dirty));
      Settled(After(d, ws, |ws|), lg, Cached(d, dirty))
    ensures (forall b <- dirty :: !InLog(lg, b)) && Without(dirty, bs, |bs|) == map[]
  {
    assert forall b <- dirty :: b in bs;
    CommitWhole(d, lg, Tx(bs, Cached(d, dirty)));
    WithoutKeys(dirty, bs, |bs|);
  }

  /** The writes ws have been issued, in order and to the end. */
  ghost predicate Issued(d: Disk, trace: seq<Write<Block>>, d': Disk, trace': seq<Write<Block>>,
                         ws: seq<Write<Block>>) {
    trace' == trace + ws && Reaches(d, ws, |ws|, d')
  }

  function Cached(d: Disk, dirty: map<nat, Block>): (c: Disk)
    ensures |c| == |d|
    ensures forall b {:trigger c[b]} | 0 <= b < |d| :: c[b] == if b in dirty then dirty[b] else d[b]
  {
    seq(|d|, b requires 0 <= b < |d| => if b in dirty then dirty[b] else d[b])
  }

  /** Filling log blocks does not change what later entries are copied from. */
  lemma LogStep(d: Disk, lg: Area, bs: seq<Word>, dirty: map<nat, Block>, k: nat)
    requires GoodArea(d, lg) && GoodList(d, lg, bs) && k < |bs|
    ensures Cached(After(d, LogWrites(lg, bs, Cached(d, dirty)), k), dirty)[bs[k]] == Cached(d, dirty)[bs[k]]
  {
    LogPrefix(d, lg, Tx(bs, Cached(d, dirty)), k);
    assert Home(d, lg, bs[k]);
  }

  /** m without the first k keys of bs. */
  function Without(m: map<nat, Block>, bs: seq<Word>, k: nat): map<nat, Block>
    requires k <= |bs|
  {
    if k == 0 then m else Without(m, bs, k - 1) - {bs[k - 1]}
  }

  lemma {:induction false} WithoutKeys(m: map<nat, Block>, bs: seq<Word>, k: nat)
    requires k <= |bs|
    ensures forall b: nat :: b in Without(m, bs, k) <==> b in m && b !in bs[..k]
    ensures k == |bs| && m.Keys <= (set b | b in bs) ==> Without(m, bs, k) == map[]
  {
    if k > 0 {
      WithoutKeys(m, bs, k - 1);
      assert bs[..k] == bs[..k - 1] + [bs[k - 1]];
    }
    assert bs[..|bs|] == bs;
  }

  lemma OneMore<T>(t: seq<T>, ws: seq<T>, k: nat)
    requires k < |ws|
    ensures t + ws[..k] + [ws[k]] == t + ws[..k + 1]
  {
    assert ws[..k + 1] == ws[..k] + [ws[k]];
  }

  lemma Regroup<T>(t: seq<T>, a: seq<T>, b: seq<T>, c: seq<T>, d: seq<T>)
    ensures t + a + b + c + d == t + ((a + b) + (c + d))
  {
  }

  /** Install then clear is a whole replay. */
  lemma ReplayPhases(d: Disk, lg: Area, bs: seq<Word>, d1: Disk, cb: Block)
    requires GoodArea(d, lg) && GoodList(d, lg, bs) && Reaches(d, InstallWrites(d, lg, bs), |bs|, d1)
    ensures |d1| == |d| && d1[lg.start] == d[lg.start]
    ensures Reaches(d, ReplayWrites(d, lg, bs, cb), |bs| + 1, d1[lg.start := cb])
  {
    InstallPrefix(d, lg, bs, |bs|, lg.start);
    AfterOneMore(d, InstallWrites(d, lg, bs), Write(lg.start, cb));
  }

  /** Log then header reaches the commit point. */
  lemma PreparePhases(d: Disk, lg: Area, tx: Tx<Block>, hb: Block, d1: Disk)
    requires GoodArea(d, lg) && GoodTx(d, lg, tx)
    requires Reaches(d, LogWrites(lg, tx.blocks, tx.contents), |tx.blocks|, d1)
    ensures |d1| == |d| && d1[lg.start] == d[lg.start]
    ensures Reaches(d, PrepareWrites(lg, tx.blocks, tx.contents, hb), |tx.blocks| + 1, d1[lg.start := hb])
  {
    LogPrefix(d, lg, tx, |tx.blocks|);
    AfterOneMore(d, LogWrites(lg, tx.blocks, tx.contents), Write(lg.start, hb));
  }

  /** The two together are a whole commit: the disk after it ... */
  lemma CommitEnds(d: Disk, d2: Disk, d3: Disk, lg: Area, tx: Tx<Block>, hb: Block)
    requires GoodArea(d, lg) && GoodTx(d, lg, tx) && tx.blocks != [] && |d2| == |d|
    requires hb == PutHead(d[lg.start], tx.blocks)
    requires Reaches(d, PrepareWrites(lg, tx.blocks, tx.contents, hb), |tx.blocks| + 1, d2)
    requires Reaches(d2, ReplayWrites(d2, lg, tx.blocks, PutHead(hb, [])), |tx.blocks| + 1, d3)
    ensures
      var ws := CommitWrites(d, lg, tx.blocks, tx.contents);
      Reaches(d, ws, |ws|, d3)
  {
    CommitReplays(d, d2, lg, tx, hb, |tx.blocks| + 1);
  }

  /** ... and the writes it has issued. */
  lemma CommitParts(d: Disk, d2: Disk, lg: Area, tx: Tx<Block>, hb: Block)
    requires GoodArea(d, lg) && GoodTx(d, lg, tx) && tx.blocks != []
    requires hb == PutHead(d[lg.start], tx.blocks)
    requires Reaches(d, PrepareWrites(lg, tx.blocks, tx.contents, hb), |tx.blocks| + 1, d2)
    ensures CommitWrites(d, lg, tx.blocks, tx.contents)
         == (LogWrites(lg, tx.blocks, tx.contents) + [Write(lg.start, hb)])
            + (InstallWrites(d2, lg, tx.blocks) + [Write(lg.start, PutHead(hb, []))])
  {
  }

  /** A whole commit on an empty log. */
  lemma CommitWhole(d: Disk, lg: Area, tx: Tx<Block>)
    requires GoodDisk(d, lg) && HeadCount(d[lg.start]) == 0 && GoodTx(d, lg, tx)
    ensures
      var ws := CommitWrites(d, lg, tx.blocks, tx.contents);
      var d' := After(d, ws, |ws|);
      && HeadCount(d'[lg.start]) == 0
      && forall b | 0 <= b < |d| && Home(d, lg, b) :: d'[b] == if b in tx.blocks then tx.contents[b] else d[b]
  {
    var m := Machine(d, true);
    assert HeadList(d[lg.start]) == [];
    assert Means(d, lg, d);
    var ws := CommitWrites(d, lg, tx.blocks, tx.contents);
    CommitMeans(m, lg, tx, |ws|, d);
    var d' := After(d, ws, |ws|);
    assert HeadList(d'[lg.start]) == [];
    forall b | 0 <= b < |d| && Home(d, lg, b)
      ensures d'[b] == Overlay(d, tx)[b]
    {
      assert Home(d', lg, b);
      assert Replayed(d', lg, [], 0, b) == d'[b];
    }
  }
}
