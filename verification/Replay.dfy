/** The redo log of log.c as a sequence of atomic block writes, whatever a block
    is: what installing the log writes, what preparing a commit writes, and what
    a crash between any two of those writes can leave behind. */
module Replay {
  import opened Blocks
  import opened Common

  /** Header block at `start`, log blocks at `start + 1 ..< start + size`. */
  datatype Area = Area(start: nat, size: nat)

  datatype Write<B> = Write(bno: nat, data: B)

  /** The disk after the first k of the writes ws. A request past the end of
      the disk panics in the driver and writes nothing. */
  ghost function After<B>(d: seq<B>, ws: seq<Write<B>>, k: nat): (r: seq<B>)
    requires k <= |ws|
    ensures |r| == |d|
  {
    if k == 0 then d
    else
      var r, w := After(d, ws, k - 1), ws[k - 1];
      if w.bno < |d| then r[w.bno := w.data] else r
  }

  lemma {:induction false} AfterPrefix<B>(d: seq<B>, a: seq<Write<B>>, b: seq<Write<B>>, k: nat)
    requires k <= |a|
    ensures After(d, a + b, k) == After(d, a, k)
  {
    if k > 0 {
      AfterPrefix(d, a, b, k - 1);
    }
  }

  lemma {:induction false} AfterSuffix<B>(d: seq<B>, a: seq<Write<B>>, b: seq<Write<B>>, k: nat)
    requires k <= |b|
    ensures After(d, a + b, |a| + k) == After(After(d, a, |a|), b, k)
  {
    if k == 0 {
      AfterPrefix(d, a, b, |a|);
    } else {
      AfterSuffix(d, a, b, k - 1);
    }
  }

  /** After k of the writes ws the disk d has become d'. */
  ghost predicate Reaches<B>(d: seq<B>, ws: seq<Write<B>>, k: nat, d': seq<B>) {
    k <= |ws| && d' == After(d, ws, k)
  }

  lemma ReachesMore<B>(d: seq<B>, ws: seq<Write<B>>, k: nat, d': seq<B>)
    requires k < |ws| && Reaches(d, ws, k, d')
    ensures Reaches(d, ws, k + 1, if ws[k].bno < |d'| then d'[ws[k].bno := ws[k].data] else d')
  {
  }

  lemma AfterOneMore<B>(d: seq<B>, ws: seq<Write<B>>, w: Write<B>)
    requires w.bno < |d|
    ensures After(d, ws + [w], |ws| + 1) == After(d, ws, |ws|)[w.bno := w.data]
  {
    AfterPrefix(d, ws, [w], |ws|);
  }

  // ----- what a disk with a log means -----

  ghost predicate InLog(lg: Area, b: nat) {
    lg.start <= b < lg.start + lg.size
  }

  ghost predicate Home<B>(d: seq<B>, lg: Area, b: nat) {
    b < |d| && !InLog(lg, b)
  }

  ghost predicate GoodArea<B>(d: seq<B>, lg: Area) {
    lg.start + lg.size <= |d| && 0 < lg.size
  }

  /** A block list that fits in the log and names home blocks only. It may
      name a block twice. */
  ghost predicate GoodList<B>(d: seq<B>, lg: Area, bs: seq<Word>) {
    && |bs| <= LOGSIZE
    && |bs| < lg.size
    && forall i | 0 <= i < |bs| :: Home(d, lg, bs[i])
  }

  /** Last position of b among the first k entries of bs, or -1. */
  ghost function Last(bs: seq<Word>, k: nat, b: nat): (i: int)
    requires k <= |bs|
    ensures -1 <= i < k
    ensures 0 <= i ==> bs[i] == b
    ensures forall j | i < j < k :: bs[j] != b
  {
    if k == 0 then -1
    else if bs[k - 1] == b then k - 1
    else Last(bs, k - 1, b)
  }

  /** The contents block b has once the first k entries are replayed. */
  ghost function Replayed<B>(d: seq<B>, lg: Area, bs: seq<Word>, k: nat, b: nat): B
    requires GoodArea(d, lg) && k <= |bs| < lg.size && b < |d|
  {
    var i := Last(bs, k, b);
    if i >= 0 then d[lg.start + 1 + i] else d[b]
  }

  /** Replaying the entries bs turns every home block into that of target. */
  ghost predicate ReplaysTo<B>(d: seq<B>, lg: Area, bs: seq<Word>, target: seq<B>) {
    && GoodArea(d, lg)
    && |bs| < lg.size
    && |d| == |target|
    && forall b {:trigger Replayed(d, lg, bs, |bs|, b)} | 0 <= b < |d| && Home(d, lg, b) ::
         Replayed(d, lg, bs, |bs|, b) == target[b]
  }

  // ----- write sequences -----

  /** write_log: cached contents into the log blocks. */
  ghost function LogWrites<B>(lg: Area, bs: seq<Word>, contents: seq<B>): (ws: seq<Write<B>>)
    requires forall i | 0 <= i < |bs| :: bs[i] < |contents|
    ensures |ws| == |bs|
    ensures forall i {:trigger ws[i]} | 0 <= i < |ws| :: ws[i] == Write(lg.start + i + 1, contents[bs[i]])
  {
    seq(|bs|, i requires 0 <= i < |bs| => Write(lg.start + i + 1, contents[bs[i]]))
  }

  /** install_trans: log blocks into their home locations. */
  ghost function InstallWrites<B>(d: seq<B>, lg: Area, bs: seq<Word>): (ws: seq<Write<B>>)
    requires GoodArea(d, lg) && |bs| < lg.size
    ensures |ws| == |bs|
    ensures forall i {:trigger ws[i]} | 0 <= i < |ws| :: ws[i] == Write(bs[i], d[lg.start + i + 1])
  {
    seq(|bs|, i requires 0 <= i < |bs| => Write(bs[i], d[lg.start + i + 1]))
  }

  /** install_trans followed by writing the header block hb. */
  ghost function ReplayWrites<B>(d: seq<B>, lg: Area, bs: seq<Word>, hb: B): (ws: seq<Write<B>>)
    requires GoodArea(d, lg) && |bs| < lg.size
    ensures |ws| == |bs| + 1
  {
    InstallWrites(d, lg, bs) + [Write(lg.start, hb)]
  }

  /** write_log followed by writing the header block hb: up to the commit point. */
  ghost function PrepareWrites<B>(lg: Area, bs: seq<Word>, contents: seq<B>, hb: B): (ws: seq<Write<B>>)
    requires forall i | 0 <= i < |bs| :: bs[i] < |contents|
    ensures |ws| == |bs| + 1
  {
    LogWrites(lg, bs, contents) + [Write(lg.start, hb)]
  }

  // ----- recovery -----

  /** After k install writes exactly the blocks named among the first k entries
      hold their log copy, and the log itself is untouched. */
  lemma {:induction false} InstallPrefix<B>(d: seq<B>, lg: Area, bs: seq<Word>, k: nat, b: nat)
    requires GoodArea(d, lg) && GoodList(d, lg, bs) && k <= |bs| && b < |d|
    ensures After(d, InstallWrites(d, lg, bs), k)[b] == Replayed(d, lg, bs, k, b)
    ensures InLog(lg, b) ==> After(d, InstallWrites(d, lg, bs), k)[b] == d[b]
  {
    if k > 0 {
      InstallPrefix(d, lg, bs, k - 1, b);
    }
  }

  /** k writes into a replay: k installs leave what the log replays to alone,
      and the header write empties a log that has been installed. */
  lemma ReplayCut<B>(d: seq<B>, lg: Area, bs: seq<Word>, hb: B, target: seq<B>, k: nat)
    requires GoodList(d, lg, bs) && ReplaysTo(d, lg, bs, target) && k <= |bs| + 1
    ensures
      var d' := After(d, ReplayWrites(d, lg, bs, hb), k);
      if k <= |bs| then d'[lg.start] == d[lg.start] && ReplaysTo(d', lg, bs, target)
      else d'[lg.start] == hb && ReplaysTo(d', lg, [], target)
  {
    var k' := if k <= |bs| then k else |bs|;
    AfterPrefix(d, InstallWrites(d, lg, bs), [Write(lg.start, hb)], k');
    InstalledReplays(d, lg, bs, target, k');
  }

  /** k installs leave what the log replays to alone; all of them do the replay. */
  lemma InstalledReplays<B>(d: seq<B>, lg: Area, bs: seq<Word>, target: seq<B>, k: nat)
    requires GoodList(d, lg, bs) && ReplaysTo(d, lg, bs, target) && k <= |bs|
    ensures
      var d1 := After(d, InstallWrites(d, lg, bs), k);
      && |d1| == |d| && d1[lg.start] == d[lg.start] && ReplaysTo(d1, lg, bs, target)
      && (k == |bs| ==> forall b | 0 <= b < |d| && Home(d, lg, b) :: d1[b] == target[b])
  {
    InstallPrefix(d, lg, bs, k, lg.start);
    forall b | 0 <= b < |d| && Home(d, lg, b)
      ensures
        var d1 := After(d, InstallWrites(d, lg, bs), k);
        |d1| == |d| && Replayed(d1, lg, bs, |bs|, b) == target[b] && (k == |bs| ==> d1[b] == target[b])
    {
      assert Replayed(d, lg, bs, |bs|, b) == target[b];
      InstalledBlock(d, lg, bs, k, b);
    }
  }

  /** One home block, k installs into a replay. */
  lemma InstalledBlock<B>(d: seq<B>, lg: Area, bs: seq<Word>, k: nat, b: nat)
    requires GoodArea(d, lg) && GoodList(d, lg, bs) && k <= |bs| && b < |d| && Home(d, lg, b)
    ensures
      var d1 := After(d, InstallWrites(d, lg, bs), k);
      && |d1| == |d| && GoodArea(d1, lg) && Replayed(d1, lg, bs, |bs|, b) == Replayed(d, lg, bs, |bs|, b)
      && (k == |bs| ==> d1[b] == Replayed(d, lg, bs, |bs|, b))
  {
    InstallPrefix(d, lg, bs, k, b);
    var i := Last(bs, |bs|, b);
    if i >= 0 {
      InstallPrefix(d, lg, bs, k, lg.start + 1 + i);
    }
  }

  // ----- commit -----

  datatype Tx<B> = Tx(blocks: seq<Word>, contents: seq<B>)

  /** The reference: every block of the transaction changes at once. */
  ghost function Overlay<B>(d: seq<B>, tx: Tx<B>): (r: seq<B>)
    ensures |r| == |d|
  {
    seq(|d|, b requires 0 <= b < |d| =>
      if b in tx.blocks && b < |tx.contents| then tx.contents[b] else d[b])
  }

  ghost predicate GoodTx<B>(d: seq<B>, lg: Area, tx: Tx<B>) {
    GoodList(d, lg, tx.blocks) && |tx.contents| == |d|
  }

  /** After k log writes: the first k log blocks are filled, nothing else moved. */
  ghost predicate IsLogged<B>(d: seq<B>, d1: seq<B>, lg: Area, tx: Tx<B>, k: nat)
    requires GoodArea(d, lg) && GoodTx(d, lg, tx) && k <= |tx.blocks|
  {
    && |d1| == |d|
    && (forall i | 0 <= i < k :: d1[lg.start + 1 + i] == tx.contents[tx.blocks[i]])
    && (forall b | 0 <= b < |d| && (Home(d, lg, b) || b == lg.start) :: d1[b] == d[b])
  }

  lemma {:induction false} LogPrefix<B>(d: seq<B>, lg: Area, tx: Tx<B>, k: nat)
    requires GoodArea(d, lg) && GoodTx(d, lg, tx) && k <= |tx.blocks|
    ensures IsLogged(d, After(d, LogWrites(lg, tx.blocks, tx.contents), k), lg, tx, k)
  {
    if k > 0 {
      LogPrefix(d, lg, tx, k - 1);
      var d0 := After(d, LogWrites(lg, tx.blocks, tx.contents), k - 1);
      assert After(d, LogWrites(lg, tx.blocks, tx.contents), k)
          == d0[lg.start + k := tx.contents[tx.blocks[k - 1]]];
    }
  }

  /** Filling log blocks moves nothing that the disk means ... */
  lemma LoggedReplays<B>(d: seq<B>, d1: seq<B>, lg: Area, tx: Tx<B>, target: seq<B>, k: nat)
    requires GoodTx(d, lg, tx) && ReplaysTo(d, lg, [], target) && k <= |tx.blocks|
    requires IsLogged(d, d1, lg, tx, k)
    ensures ReplaysTo(d1, lg, [], target)
  {
    forall b | 0 <= b < |d| && Home(d1, lg, b)
      ensures Replayed(d1, lg, [], 0, b) == target[b]
    {
      assert Replayed(d, lg, [], 0, b) == target[b];
      assert Home(d, lg, b);
    }
  }

  /** ... and a header naming the filled blocks makes it mean all of the transaction. */
  lemma PreparedReplays<B>(d: seq<B>, d1: seq<B>, lg: Area, tx: Tx<B>, hb: B, target: seq<B>)
    requires GoodTx(d, lg, tx) && ReplaysTo(d, lg, [], target)
    requires IsLogged(d, d1, lg, tx, |tx.blocks|)
    ensures ReplaysTo(d1[lg.start := hb], lg, tx.blocks, Overlay(target, tx))
  {
    var d2 := d1[lg.start := hb];
    forall b | 0 <= b < |d| && Home(d2, lg, b)
      ensures Replayed(d2, lg, tx.blocks, |tx.blocks|, b) == Overlay(target, tx)[b]
    {
      assert Replayed(d, lg, [], 0, b) == target[b];
      assert Home(d, lg, b);
      var i := Last(tx.blocks, |tx.blocks|, b);
      assert i >= 0 ==> d1[lg.start + 1 + i] == tx.contents[tx.blocks[i]];
    }
  }

  /** Cut before the header write, whatever was to come after it. */
  lemma EarlyCut<B>(d: seq<B>, lg: Area, tx: Tx<B>, hb: B, rw: seq<Write<B>>, target: seq<B>, k: nat)
    requires GoodTx(d, lg, tx) && ReplaysTo(d, lg, [], target) && k <= |tx.blocks|
    ensures
      var d' := After(d, PrepareWrites(lg, tx.blocks, tx.contents, hb) + rw, k);
      d'[lg.start] == d[lg.start] && ReplaysTo(d', lg, [], target)
  {
    var lw := LogWrites(lg, tx.blocks, tx.contents);
    AfterPrefix(d, lw + [Write(lg.start, hb)], rw, k);
    AfterPrefix(d, lw, [Write(lg.start, hb)], k);
    LogPrefix(d, lg, tx, k);
    LoggedReplays(d, After(d, lw, k), lg, tx, target, k);
  }

  lemma Prepared<B>(d: seq<B>, lg: Area, tx: Tx<B>, hb: B, target: seq<B>)
    requires GoodTx(d, lg, tx) && ReplaysTo(d, lg, [], target)
    ensures
      var d2 := After(d, PrepareWrites(lg, tx.blocks, tx.contents, hb), |tx.blocks| + 1);
      d2[lg.start] == hb && ReplaysTo(d2, lg, tx.blocks, Overlay(target, tx))
  {
    var lw := LogWrites(lg, tx.blocks, tx.contents);
    AfterPrefix(d, lw, [Write(lg.start, hb)], |lw|);
    LogPrefix(d, lg, tx, |lw|);
    PreparedReplays(d, After(d, lw, |lw|), lg, tx, hb, target);
  }

  /** Cut after the header write: j writes of the replay are done. */
  lemma LateCut<B>(d: seq<B>, d2: seq<B>, lg: Area, tx: Tx<B>, hb: B, cb: B, target: seq<B>, j: nat)
    requires GoodTx(d, lg, tx) && ReplaysTo(d, lg, [], target) && j <= |tx.blocks| + 1
    requires d2 == After(d, PrepareWrites(lg, tx.blocks, tx.contents, hb), |tx.blocks| + 1)
    ensures ReplaysTo(d2, lg, tx.blocks, Overlay(target, tx))
    ensures
      var d' := After(d2, ReplayWrites(d2, lg, tx.blocks, cb), j);
      if j <= |tx.blocks| then d'[lg.start] == hb && ReplaysTo(d', lg, tx.blocks, Overlay(target, tx))
      else d'[lg.start] == cb && ReplaysTo(d', lg, [], Overlay(target, tx))
  {
    Prepared(d, lg, tx, hb, target);
    ReplayCut(d2, lg, tx.blocks, cb, Overlay(target, tx), j);
  }
}
