/** The on-disk log with its header block: what commit and recover_from_log of
    log.c write, and what any history of commits, crashes and recoveries leaves
    on the disk. */
module RedoLog {
  import opened Blocks
  import opened Common
  import opened Replay

  // ----- header block -----

  /** lh->n */
  ghost function HeadCount(b: Block): Word {
    GetWord(b, 0)
  }

  /** The first n entries of lh->block. */
  ghost function HeadPrefix(b: Block, n: nat): (bs: seq<Word>)
    requires n <= LOGSIZE
    ensures |bs| == n
    ensures forall i | 0 <= i < n :: bs[i] == GetWord(b, i + 1)
  {
    if n == 0 then [] else HeadPrefix(b, n - 1) + [GetWord(b, n)]
  }

  ghost function HeadList(b: Block): (bs: seq<Word>)
    requires HeadCount(b) <= LOGSIZE
    ensures |bs| == HeadCount(b)
  {
    HeadPrefix(b, HeadCount(b))
  }

  ghost function PutList(b: Block, bs: seq<Word>, k: nat): Block
    requires k <= |bs| <= LOGSIZE
  {
    if k == 0 then b else PutWord(PutList(b, bs, k - 1), k, bs[k - 1])
  }

  /** write_head overwrites the count and the first n entries; the rest of the
      old header block survives. */
  ghost function PutHead(b: Block, bs: seq<Word>): Block
    requires |bs| <= LOGSIZE
  {
    PutList(PutWord(b, 0, |bs|), bs, |bs|)
  }

  lemma {:induction false} PutListWords(b: Block, bs: seq<Word>, k: nat, j: nat)
    requires k <= |bs| <= LOGSIZE && j < WORDS
    ensures GetWord(PutList(b, bs, k), j) == if 1 <= j <= k then bs[j - 1] else GetWord(b, j)
  {
    if k > 0 {
      PutListWords(b, bs, k - 1, j);
      if j == k {
        GetPutSame(PutList(b, bs, k - 1), k, bs[k - 1]);
      } else {
        GetPutOther(PutList(b, bs, k - 1), k, bs[k - 1], j);
      }
    }
  }

  /** The header round trip, whatever was in the block before. */
  lemma HeadRoundTrip(b: Block, bs: seq<Word>)
    requires |bs| <= LOGSIZE
    ensures HeadCount(PutHead(b, bs)) == |bs|
    ensures HeadList(PutHead(b, bs)) == bs
  {
    var c := PutWord(b, 0, |bs|);
    GetPutSame(b, 0, |bs|);
    PutListWords(c, bs, |bs|, 0);
    forall j | 0 <= j < |bs|
      ensures GetWord(PutHead(b, bs), j + 1) == bs[j]
    {
      PutListWords(c, bs, |bs|, j + 1);
    }
  }

  // ----- what a disk with a log means -----

  ghost predicate GoodDisk(d: Disk, lg: Area) {
    && GoodArea(d, lg)
    && HeadCount(d[lg.start]) <= LOGSIZE
    && GoodList(d, lg, HeadList(d[lg.start]))
  }

  /** What the disk means, whatever state its log is in: the home blocks that
      replaying the log its header describes would leave. */
  ghost predicate Means(d: Disk, lg: Area, target: Disk)
    requires GoodDisk(d, lg)
  {
    ReplaysTo(d, lg, HeadList(d[lg.start]), target)
  }

  // ----- write sequences -----

  /** recover_from_log on whatever the header says. */
  ghost function RecoveryWrites(d: Disk, lg: Area): (ws: seq<Write<Block>>)
    requires GoodDisk(d, lg)
    ensures |ws| == |HeadList(d[lg.start])| + 1
  {
    ReplayWrites(d, lg, HeadList(d[lg.start]), PutHead(d[lg.start], []))
  }

  /** commit: nothing at all when no block is logged. */
  ghost function CommitWrites(d: Disk, lg: Area, bs: seq<Word>, contents: Disk): (ws: seq<Write<Block>>)
    requires GoodArea(d, lg) && GoodList(d, lg, bs) && |contents| == |d|
    ensures |ws| == if bs == [] then 0 else 2 * |bs| + 2
  {
    if bs == [] then []
    else
      var hb := PutHead(d[lg.start], bs);
      var pw := PrepareWrites(lg, bs, contents, hb);
      pw + ReplayWrites(After(d, pw, |pw|), lg, bs, PutHead(hb, []))
  }

  // ----- whole histories -----

  /** What can happen to a machine: a commit that runs to its end or is cut
      after k writes, a crash between commits, and recoveries that are cut
      after k writes or complete. */
  datatype Event =
    | Commit(tx: Tx<Block>)
    | CommitCrash(tx: Tx<Block>, cut: nat)
    | IdleCrash
    | RecoveryCrash(cut: nat)
    | Recovery

  datatype Machine = Machine(disk: Disk, up: bool)

  ghost predicate GoodMachine(m: Machine, lg: Area) {
    GoodDisk(m.disk, lg) && (m.up ==> HeadCount(m.disk[lg.start]) == 0)
  }

  ghost predicate Enabled(m: Machine, lg: Area, e: Event)
    requires GoodMachine(m, lg)
  {
    match e
    case Commit(tx) => m.up && GoodTx(m.disk, lg, tx)
    case CommitCrash(tx, k) =>
      m.up && GoodTx(m.disk, lg, tx) && k < |CommitWrites(m.disk, lg, tx.blocks, tx.contents)|
    case IdleCrash => m.up
    case RecoveryCrash(k) => !m.up && k < |RecoveryWrites(m.disk, lg)|
    case Recovery => !m.up
  }

  ghost function Next(m: Machine, lg: Area, e: Event): Machine
    requires GoodMachine(m, lg) && Enabled(m, lg, e)
  {
    match e
    case Commit(tx) =>
      var ws := CommitWrites(m.disk, lg, tx.blocks, tx.contents);
      Machine(After(m.disk, ws, |ws|), true)
    case CommitCrash(tx, k) =>
      Machine(After(m.disk, CommitWrites(m.disk, lg, tx.blocks, tx.contents), k), false)
    case IdleCrash => m.(up := false)
    case RecoveryCrash(k) => Machine(After(m.disk, RecoveryWrites(m.disk, lg), k), false)
    case Recovery =>
      var ws := RecoveryWrites(m.disk, lg);
      Machine(After(m.disk, ws, |ws|), true)
  }

  /** The reference: a disk on which each committed transaction happens at once. */
  ghost function Ideal(d: Disk, e: Event): (r: Disk)
    ensures |r| == |d|
  {
    match e
    case Commit(tx) => Overlay(d, tx)
    case CommitCrash(tx, k) => if k > |tx.blocks| then Overlay(d, tx) else d
    case _ => d
  }

  /** A header that says bs turns ReplaysTo into Means. */
  lemma HeaderMeans(d: Disk, lg: Area, bs: seq<Word>, target: Disk)
    requires GoodList(d, lg, bs) && ReplaysTo(d, lg, bs, target)
    requires HeadCount(d[lg.start]) == |bs| && HeadList(d[lg.start]) == bs
    ensures GoodDisk(d, lg) && Means(d, lg, target)
  {
  }

  /** Before the header write a cut commit has changed nothing ... */
  lemma EarlyCommit(d: Disk, lg: Area, tx: Tx<Block>, k: nat, ideal: Disk)
    requires GoodDisk(d, lg) && HeadCount(d[lg.start]) == 0 && GoodTx(d, lg, tx) && Means(d, lg, ideal)
    requires k <= |tx.blocks| && tx.blocks != []
    ensures
      var d' := After(d, CommitWrites(d, lg, tx.blocks, tx.contents), k);
      GoodDisk(d', lg) && Means(d', lg, ideal)
  {
    var hb := PutHead(d[lg.start], tx.blocks);
    var pw := PrepareWrites(lg, tx.blocks, tx.contents, hb);
    assert HeadList(d[lg.start]) == [];
    EarlyCut(d, lg, tx, hb, ReplayWrites(After(d, pw, |pw|), lg, tx.blocks, PutHead(hb, [])), ideal, k);
    HeaderMeans(After(d, CommitWrites(d, lg, tx.blocks, tx.contents), k), lg, [], ideal);
  }

  /** The rest of a commit is a replay of the prepared disk. */
  lemma CommitReplays(d: Disk, d2: Disk, lg: Area, tx: Tx<Block>, hb: Block, j: nat)
    requires GoodArea(d, lg) && GoodTx(d, lg, tx) && tx.blocks != [] && j <= |tx.blocks| + 1
    requires hb == PutHead(d[lg.start], tx.blocks)
    requires d2 == After(d, PrepareWrites(lg, tx.blocks, tx.contents, hb), |tx.blocks| + 1)
    ensures After(d, CommitWrites(d, lg, tx.blocks, tx.contents), |tx.blocks| + 1 + j)
         == After(d2, ReplayWrites(d2, lg, tx.blocks, PutHead(hb, [])), j)
  {
    var pw := PrepareWrites(lg, tx.blocks, tx.contents, hb);
    var rw := ReplayWrites(d2, lg, tx.blocks, PutHead(hb, []));
    assert |pw| == |tx.blocks| + 1 && CommitWrites(d, lg, tx.blocks, tx.contents) == pw + rw;
    AfterSuffix(d, pw, rw, j);
  }

  /** ... and after it, it has changed everything. */
  lemma LateCommit(d: Disk, lg: Area, tx: Tx<Block>, j: nat, ideal: Disk)
    requires GoodDisk(d, lg) && HeadCount(d[lg.start]) == 0 && GoodTx(d, lg, tx) && Means(d, lg, ideal)
    requires j <= |tx.blocks| + 1 && tx.blocks != []
    ensures
      var d' := After(d, CommitWrites(d, lg, tx.blocks, tx.contents), |tx.blocks| + 1 + j);
      && GoodDisk(d', lg)
      && Means(d', lg, Overlay(ideal, tx))
      && (j == |tx.blocks| + 1 ==> HeadCount(d'[lg.start]) == 0)
  {
    var hb := PutHead(d[lg.start], tx.blocks);
    var cb := PutHead(hb, []);
    var d2 := After(d, PrepareWrites(lg, tx.blocks, tx.contents, hb), |tx.blocks| + 1);
    assert HeadList(d[lg.start]) == [];
    LateCut(d, d2, lg, tx, hb, cb, ideal, j);
    CommitReplays(d, d2, lg, tx, hb, j);
    HeadRoundTrip(d[lg.start], tx.blocks);
    HeadRoundTrip(hb, []);
    var d' := After(d2, ReplayWrites(d2, lg, tx.blocks, cb), j);
    HeaderMeans(d', lg, if j <= |tx.blocks| then tx.blocks else [], Overlay(ideal, tx));
  }

  /** A crash anywhere in commit is all or nothing, and which of the two it is
      depends only on whether the header write reached the disk. */
  lemma CommitMeans(m: Machine, lg: Area, tx: Tx<Block>, k: nat, ideal: Disk)
    requires GoodMachine(m, lg) && m.up && GoodTx(m.disk, lg, tx) && Means(m.disk, lg, ideal)
    requires k <= |CommitWrites(m.disk, lg, tx.blocks, tx.contents)|
    ensures
      var ws := CommitWrites(m.disk, lg, tx.blocks, tx.contents);
      var m' := Machine(After(m.disk, ws, k), k == |ws|);
      && GoodMachine(m', lg)
      && Means(m'.disk, lg, if k > |tx.blocks| || k == |ws| then Overlay(ideal, tx) else ideal)
  {
    if tx.blocks == [] {
      assert Overlay(ideal, tx) == ideal;
    } else if k <= |tx.blocks| {
      EarlyCommit(m.disk, lg, tx, k, ideal);
    } else {
      LateCommit(m.disk, lg, tx, k - |tx.blocks| - 1, ideal);
    }
  }

  /** A crash at any write of recovery changes nothing of what the disk means;
      a completed recovery has emptied the log. */
  lemma RecoveryMeans(m: Machine, lg: Area, k: nat, ideal: Disk)
    requires GoodMachine(m, lg) && Means(m.disk, lg, ideal) && k <= |RecoveryWrites(m.disk, lg)|
    ensures
      var m' := Machine(After(m.disk, RecoveryWrites(m.disk, lg), k), k == |RecoveryWrites(m.disk, lg)|);
      GoodMachine(m', lg) && Means(m'.disk, lg, ideal)
  {
    var d := m.disk;
    var bs, cb := HeadList(d[lg.start]), PutHead(d[lg.start], []);
    ReplayCut(d, lg, bs, cb, ideal, k);
    HeadRoundTrip(d[lg.start], []);
    HeaderMeans(After(d, RecoveryWrites(d, lg), k), lg, if k <= |bs| then bs else [], ideal);
  }

  lemma StepMeans(m: Machine, lg: Area, e: Event, ideal: Disk)
    requires GoodMachine(m, lg) && Enabled(m, lg, e) && Means(m.disk, lg, ideal)
    ensures GoodMachine(Next(m, lg, e), lg)
    ensures Means(Next(m, lg, e).disk, lg, Ideal(ideal, e))
  {
    match e
    case Commit(tx) =>
      CommitMeans(m, lg, tx, |CommitWrites(m.disk, lg, tx.blocks, tx.contents)|, ideal);
    case CommitCrash(tx, k) => CommitMeans(m, lg, tx, k, ideal);
    case IdleCrash =>
    case RecoveryCrash(k) => RecoveryMeans(m, lg, k, ideal);
    case Recovery => RecoveryMeans(m, lg, |RecoveryWrites(m.disk, lg)|, ideal);
  }

  /** A run is a sequence of machines related by enabled events. */
  ghost predicate Run(ms: seq<Machine>, lg: Area, es: seq<Event>) {
    && |ms| == |es| + 1
    && forall i | 0 <= i < |es| ::
         GoodMachine(ms[i], lg) && Enabled(ms[i], lg, es[i]) && ms[i + 1] == Next(ms[i], lg, es[i])
  }

  ghost function IdealRun(d: Disk, es: seq<Event>): (r: Disk)
    ensures |r| == |d|
  {
    if es == [] then d else Ideal(IdealRun(d, es[..|es| - 1]), es[|es| - 1])
  }

  /** Over every history of commits, crashes anywhere and repeated recoveries:
      whenever the machine is up, its home blocks are exactly those of a disk on
      which every transaction whose header reached the disk happened at once, in
      order, and no other transaction happened at all. */
  lemma {:induction false} CrashSafety(ms: seq<Machine>, lg: Area, es: seq<Event>)
    requires Run(ms, lg, es) && GoodMachine(ms[0], lg) && ms[0].up
    ensures
      var m, ideal := ms[|es|], IdealRun(ms[0].disk, es);
      && GoodMachine(m, lg)
      && Means(m.disk, lg, ideal)
      && (m.up ==> forall b | 0 <= b < |ideal| && Home(m.disk, lg, b) :: m.disk[b] == ideal[b])
  {
    if es != [] {
      var n := |es| - 1;
      CrashSafety(ms[..|es|], lg, es[..n]);
      StepMeans(ms[n], lg, es[n], IdealRun(ms[0].disk, es[..n]));
    }
    var m := ms[|es|];
    if m.up {
      assert HeadList(m.disk[lg.start]) == [];
      assert forall b | 0 <= b < |m.disk| && Home(m.disk, lg, b) ::
          Replayed(m.disk, lg, [], 0, b) == m.disk[b];
    }
  }

  // ----- a list that does not fit -----

  /** What k writes of write_log do, whether or not the list fits. */
  lemma {:induction false} LogWritesAt(d: Disk, lg: Area, bs: seq<Word>, contents: Disk, k: nat, b: nat)
    requires k <= |bs| && b < |d| && forall i | 0 <= i < |bs| :: bs[i] < |contents|
    ensures After(d, LogWrites(lg, bs, contents), k)[b]
         == if lg.start < b <= lg.start + k then contents[bs[b - lg.start - 1]] else d[b]
  {
    if k > 0 {
      LogWritesAt(d, lg, bs, contents, k - 1, b);
    }
  }

  /** A crash after write_log and before the header is written leaves the home blocks as
      they were if and only if each entry that does not fit in the log, and so goes to a
      block behind it, has the bytes that were there. */
  lemma WriteLogKeepsIff(d: Disk, lg: Area, bs: seq<Word>, contents: Disk)
    requires GoodArea(d, lg) && forall i | 0 <= i < |bs| :: bs[i] < |contents|
    ensures
      var d' := After(d, LogWrites(lg, bs, contents), |bs|);
      && d'[lg.start] == d[lg.start]
      && ((forall b: nat | Home(d, lg, b) :: d'[b] == d[b])
          <==> forall b: nat | lg.start + lg.size <= b <= lg.start + |bs| && b < |d| ::
                 contents[bs[b - lg.start - 1]] == d[b])
  {
    var d' := After(d, LogWrites(lg, bs, contents), |bs|);
    forall b: nat | b < |d|
      ensures d'[b] == if lg.start < b <= lg.start + |bs| then contents[bs[b - lg.start - 1]] else d[b]
    {
      LogWritesAt(d, lg, bs, contents, |bs|, b);
    }
    assert forall b: nat | lg.start + lg.size <= b && b < |d| :: Home(d, lg, b);
  }

  /** A list of log.size blocks, which LogProtocol.Overflows reaches: its last entry goes
      to the first block behind the log. The header still says that nothing is logged, so
      recovery after a crash leaves that block as it is. */
  lemma OverflowHits(d: Disk, lg: Area, bs: seq<Word>, contents: Disk)
    requires GoodDisk(d, lg) && HeadCount(d[lg.start]) == 0
    requires |bs| == lg.size && lg.start + lg.size < |d| && forall i | 0 <= i < |bs| :: bs[i] < |contents|
    ensures
      var d', b := After(d, LogWrites(lg, bs, contents), |bs|), lg.start + lg.size;
      && Home(d, lg, b) && d'[b] == contents[bs[|bs| - 1]]
      && GoodDisk(d', lg) && Means(d', lg, d')
      && After(d', RecoveryWrites(d', lg), |RecoveryWrites(d', lg)|)[b] == contents[bs[|bs| - 1]]
  {
    var d', b := After(d, LogWrites(lg, bs, contents), |bs|), lg.start + lg.size;
    LogWritesAt(d, lg, bs, contents, |bs|, b);
    LogWritesAt(d, lg, bs, contents, |bs|, lg.start);
    assert HeadList(d'[lg.start]) == [];
    forall x | 0 <= x < |d'| && Home(d', lg, x)
      ensures Replayed(d', lg, [], 0, x) == d'[x]
    {
    }
    assert RecoveryWrites(d', lg) == [Write(lg.start, PutHead(d'[lg.start], []))];
    AfterOneMore(d', [], Write(lg.start, PutHead(d'[lg.start], [])));
    assert [] + [Write(lg.start, PutHead(d'[lg.start], []))] == [Write(lg.start, PutHead(d'[lg.start], []))];
  }
}
