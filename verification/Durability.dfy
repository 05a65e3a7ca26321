/** Operations, commits and crashes together: processes interleave begin_op, log_write
    and end_op, the last one out commits, and the machine can crash between any two
    block writes (log.c). What is on the disk is then the work of exactly the
    operations whose transaction was committed. */
module Durability {
  import opened Blocks
  import opened Common
  import opened Replay
  import P = LogProtocol
  import R = RedoLog

  /** Operation `op` gave block b these bytes. */
  datatype Update = Update(op: nat, b: nat, data: Block)

  datatype System = System(
    proto: P.State,
    mach: R.Machine,
    cached: Disk,            // what reading a block gives
    updates: seq<Update>     // history, oldest first
  )

  datatype Event =
    | Step(e: P.Event)              // begin_op or its sleep, the size check, end_op, the end of a commit
    | LogWrite(p: nat, data: Block) // log_write of a buffer that p has changed under its lock
    | Commit(p: nat)
    | CommitCrash(p: nat, cut: nat)
    | Crash
    | RecoveryCrash(cut: nat)
    | Recovery

  ghost predicate Listed(s: System, lg: Area) {
    && |s.cached| == |s.mach.disk| < 0x1_0000_0000
    && forall i | 0 <= i < |s.proto.lh| :: Home(s.mach.disk, lg, s.proto.lh[i])
  }

  /** What commit writes: the blocks in the list, as they are in the cache. */
  ghost function TxOf(s: System, lg: Area): Tx<Block>
    requires Listed(s, lg)
  {
    Tx(s.proto.lh, s.cached)
  }

  /** The transaction fits in the log; LogProtocol.FitsIff says when it always does. */
  ghost predicate CanCommit(s: System, lg: Area, p: nat) {
    s.mach.up && P.Enabled(s.proto, P.Commit(p)) && Listed(s, lg) && |s.proto.lh| <= LOGSIZE && |s.proto.lh| < lg.size
  }

  ghost predicate Enabled(s: System, lg: Area, e: Event)
    requires R.GoodMachine(s.mach, lg)
  {
    match e
    case Step(x) => s.mach.up && P.Enabled(s.proto, x) && !x.Append? && !x.Commit?
    case LogWrite(p, data) =>
      s.mach.up && P.Enabled(s.proto, P.Append(p)) && Home(s.mach.disk, lg, s.proto.procs[p].b) && Listed(s, lg)
    case Commit(p) => CanCommit(s, lg, p)
    case CommitCrash(p, k) => CanCommit(s, lg, p) && R.Enabled(s.mach, lg, R.CommitCrash(TxOf(s, lg), k))
    case Crash => s.mach.up
    case RecoveryCrash(k) => R.Enabled(s.mach, lg, R.RecoveryCrash(k))
    case Recovery => !s.mach.up
  }

  /** A crash ends all processes. */
  ghost function Rebooted(s: P.State): P.State {
    s.(procs := seq(|s.procs|, _ => P.Ready), outstanding := 0, committing := false, lh := [], current := {})
  }

  ghost function Next(s: System, lg: Area, e: Event): System
    requires R.GoodMachine(s.mach, lg) && Enabled(s, lg, e)
  {
    match e
    case Step(x) => s.(proto := P.Next(s.proto, x))
    case LogWrite(p, data) =>
      var q := s.proto.procs[p];
      System(P.Next(s.proto, P.Append(p)), s.mach, s.cached[q.b := data], s.updates + [Update(q.op, q.b, data)])
    case Commit(p) =>
      s.(proto := P.Next(s.proto, P.Commit(p)), mach := R.Next(s.mach, lg, R.Commit(TxOf(s, lg))))
    case CommitCrash(p, k) =>
      s.(proto := Rebooted(if k > |s.proto.lh| then P.Next(s.proto, P.Commit(p)) else s.proto),
         mach := R.Next(s.mach, lg, R.CommitCrash(TxOf(s, lg), k)))
    case Crash => s.(proto := Rebooted(s.proto), mach := R.Next(s.mach, lg, R.IdleCrash))
    case RecoveryCrash(k) => s.(mach := R.Next(s.mach, lg, R.RecoveryCrash(k)))
    case Recovery =>
      var m := R.Next(s.mach, lg, R.Recovery);
      s.(mach := m, cached := m.disk)
  }

  // ----- the reference: operations one update at a time -----

  /** d after the updates of the operations in ops, in order. */
  ghost function Effect(d: Disk, us: seq<Update>, ops: set<nat>): (r: Disk)
    ensures |r| == |d|
  {
    if us == [] then d
    else
      var r, u := Effect(d, us[..|us| - 1], ops), us[|us| - 1];
      if u.op in ops && u.b < |d| then r[u.b := u.data] else r
  }

  /** The operations of all commits. */
  ghost function Committed(cs: seq<P.Txn>): set<nat> {
    if cs == [] then {} else Committed(cs[..|cs| - 1]) + cs[|cs| - 1].ops
  }

  lemma {:induction false} InCommitted(cs: seq<P.Txn>, o: nat)
    ensures o in Committed(cs) <==> exists i :: 0 <= i < |cs| && o in cs[i].ops
  {
    if cs != [] {
      InCommitted(cs[..|cs| - 1], o);
      assert cs == cs[..|cs| - 1] + [cs[|cs| - 1]];
    }
  }

  /** Block b is the same for two sets that agree on the operations that changed it. */
  lemma {:induction false} EffectAt(d: Disk, us: seq<Update>, a: set<nat>, c: set<nat>, b: nat)
    requires b < |d| && forall u <- us :: u.b == b ==> (u.op in a <==> u.op in c)
    ensures Effect(d, us, a)[b] == Effect(d, us, c)[b]
  {
    if us != [] {
      var u := us[|us| - 1];
      assert u in us;
      EffectAt(d, us[..|us| - 1], a, c, b);
    }
  }

  lemma EffectMore(d: Disk, us: seq<Update>, u: Update, ops: set<nat>)
    ensures Effect(d, us + [u], ops)
         == if u.op in ops && u.b < |d| then Effect(d, us, ops)[u.b := u.data] else Effect(d, us, ops)
  {
    assert (us + [u])[..|us|] == us;
  }

  // ----- the invariant -----

  /** Every update is on record as its operation's. */
  ghost predicate Recorded(s: System) {
    forall u <- s.updates :: u.op in s.proto.wrote && u.b in s.proto.wrote[u.op]
  }

  /** The cache has the work of the committed and of the current operations. */
  ghost predicate Current(s: System, lg: Area, d0: Disk)
    requires |s.cached| == |d0|
  {
    forall b | 0 <= b < |d0| && !InLog(lg, b) ::
      s.cached[b] == Effect(d0, s.updates, Committed(s.proto.commits) + s.proto.current)[b]
  }

  /** What the disk ought to be. */
  ghost function Due(s: System, d0: Disk): Disk {
    Effect(d0, s.updates, Committed(s.proto.commits))
  }

  ghost predicate Inv(s: System, lg: Area, d0: Disk) {
    P.Inv(s.proto) && Kept(s, lg, d0)
  }

  ghost predicate Kept(s: System, lg: Area, d0: Disk) {
    && R.GoodMachine(s.mach, lg)
    && Listed(s, lg)
    && |s.mach.disk| == |d0|
    && Recorded(s)
    && R.Means(s.mach.disk, lg, Due(s, d0))
    && (if s.mach.up then Current(s, lg, d0) else s.proto == Rebooted(s.proto))
  }

  ghost predicate Start(s: System, lg: Area) {
    && P.Init(s.proto) && s.proto.size == lg.size
    && R.GoodMachine(s.mach, lg) && s.mach.up && |s.mach.disk| < 0x1_0000_0000
    && s.cached == s.mach.disk && s.updates == []
  }

  /** A machine that is up has the blocks it means. */
  lemma UpMeans(m: R.Machine, lg: Area, ideal: Disk, b: nat)
    requires R.GoodMachine(m, lg) && m.up && |ideal| == |m.disk| && Home(m.disk, lg, b)
    requires R.Means(m.disk, lg, ideal)
    ensures m.disk[b] == ideal[b]
  {
    assert R.HeadList(m.disk[lg.start]) == [];
    assert Replayed(m.disk, lg, [], 0, b) == m.disk[b];
  }

  lemma StartInv(s: System, lg: Area)
    requires Start(s, lg)
    ensures Inv(s, lg, s.mach.disk)
  {
    P.InitInv(s.proto);
    assert R.HeadList(s.mach.disk[lg.start]) == [];
    forall b | 0 <= b < |s.mach.disk| && Home(s.mach.disk, lg, b)
      ensures Replayed(s.mach.disk, lg, [], 0, b) == s.mach.disk[b]
    {
    }
  }

  // ----- every step keeps it -----

  lemma RebootInv(s: P.State)
    requires P.Inv(s)
    ensures P.Inv(Rebooted(s))
  {
    var s' := Rebooted(s);
    assert forall q <- s'.procs :: q.Ready?;
    P.SumBounds(s'.procs, P.ActiveWeight, P.ActiveWeight, 0);
    P.SumBounds(s'.procs, P.CommitWeight, P.CommitWeight, 0);
    P.SumBounds(s'.procs, P.SlackWeight, P.SlackWeight, 0);
  }

  lemma MeansSame(d: Disk, lg: Area, a: Disk, c: Disk)
    requires R.GoodDisk(d, lg) && R.Means(d, lg, a) && |a| == |c| == |d|
    requires forall b | 0 <= b < |d| && !InLog(lg, b) :: a[b] == c[b]
    ensures R.Means(d, lg, c)
  {
    var bs := R.HeadList(d[lg.start]);
    forall b | 0 <= b < |d| && Home(d, lg, b)
      ensures Replayed(d, lg, bs, |bs|, b) == c[b]
    {
      assert Replayed(d, lg, bs, |bs|, b) == a[b];
    }
  }

  /** A new operation has changed nothing yet. */
  lemma StepKeeps(s: System, lg: Area, d0: Disk, x: P.Event)
    requires Inv(s, lg, d0) && Enabled(s, lg, Step(x))
    ensures Inv(Next(s, lg, Step(x)), lg, d0)
  {
    P.StepInv(s.proto, x);
    StepWrote(s.proto, x);
    StepKept(s, lg, d0, x);
  }

  /** What the steps apart from log_write and commit do to the history. */
  ghost predicate OnlyBegins(s: P.State, s': P.State) {
    && s'.lh == s.lh && s'.commits == s.commits
    && (forall o | o in s.wrote :: o in s'.wrote && s'.wrote[o] == s.wrote[o])
    && (forall o | o in s'.current && o !in s.current :: o !in s.wrote)
    && s.current <= s'.current
  }

  lemma StepWrote(s: P.State, x: P.Event)
    requires P.Inv(s) && P.Enabled(s, x) && !x.Append? && !x.Commit?
    ensures OnlyBegins(s, P.Next(s, x))
  {
  }

  lemma StepKept(s: System, lg: Area, d0: Disk, x: P.Event)
    requires Kept(s, lg, d0) && Enabled(s, lg, Step(x)) && OnlyBegins(s.proto, P.Next(s.proto, x))
    ensures Kept(Next(s, lg, Step(x)), lg, d0)
  {
    var s' := Next(s, lg, Step(x));
    forall u | u in s'.updates
      ensures u.op in s'.proto.wrote && u.b in s'.proto.wrote[u.op]
    {
      assert u.op in s.proto.wrote && u.b in s.proto.wrote[u.op];
    }
    forall b | 0 <= b < |d0| && !InLog(lg, b)
      ensures s'.cached[b] == Effect(d0, s'.updates, Committed(s'.proto.commits) + s'.proto.current)[b]
    {
      EffectAt(d0, s.updates, Committed(s.proto.commits) + s.proto.current,
               Committed(s'.proto.commits) + s'.proto.current, b);
    }
  }

  /** An operation that logs a block is a current one. */
  lemma WriterCurrent(s: P.State, p: nat)
    requires P.Inv(s) && P.Enabled(s, P.Append(p))
    ensures Writes(s, s.procs[p].op)
  {
    InCommitted(s.commits, s.procs[p].op);
  }

  ghost predicate Writes(s: P.State, o: nat) {
    o in s.current && o !in Committed(s.commits) && o in s.wrote
  }

  lemma LogWriteKeeps(s: System, lg: Area, d0: Disk, p: nat, data: Block)
    requires Inv(s, lg, d0) && Enabled(s, lg, LogWrite(p, data))
    ensures Inv(Next(s, lg, LogWrite(p, data)), lg, d0)
  {
    P.StepInv(s.proto, P.Append(p));
    WriterCurrent(s.proto, p);
    LogWriteKept(s, lg, d0, p, data);
  }

  lemma LogWriteKept(s: System, lg: Area, d0: Disk, p: nat, data: Block)
    requires Kept(s, lg, d0) && Enabled(s, lg, LogWrite(p, data)) && Writes(s.proto, s.proto.procs[p].op)
    ensures Kept(Next(s, lg, LogWrite(p, data)), lg, d0)
  {
    var q := s.proto.procs[p];
    var u, com := Update(q.op, q.b, data), Committed(s.proto.commits);
    EffectMore(d0, s.updates, u, com);
    EffectMore(d0, s.updates, u, com + s.proto.current);
    LogWriteRecorded(s, lg, p, data);
    LogWriteListed(s, lg, p, data);
    assert Due(Next(s, lg, LogWrite(p, data)), d0) == Due(s, d0);
  }

  lemma LogWriteListed(s: System, lg: Area, p: nat, data: Block)
    requires R.GoodMachine(s.mach, lg) && Enabled(s, lg, LogWrite(p, data))
    ensures Listed(Next(s, lg, LogWrite(p, data)), lg)
  {
  }

  lemma LogWriteRecorded(s: System, lg: Area, p: nat, data: Block)
    requires Recorded(s) && R.GoodMachine(s.mach, lg) && Enabled(s, lg, LogWrite(p, data))
    requires s.proto.procs[p].op in s.proto.wrote
    ensures Recorded(Next(s, lg, LogWrite(p, data)))
  {
    var q, s' := s.proto.procs[p], Next(s, lg, LogWrite(p, data));
    forall u | u in s'.updates
      ensures u.op in s'.proto.wrote && u.b in s'.proto.wrote[u.op]
    {
      if u in s.updates {
        assert u.b in s.proto.wrote[u.op];
      } else {
        assert u == Update(q.op, q.b, data);
      }
    }
  }

  /** The blocks that the current operations have changed are in the list. */
  lemma CurrentListed(s: System)
    requires P.Inv(s.proto) && Recorded(s)
    ensures forall u | u in s.updates && u.op in s.proto.current :: u.b in s.proto.lh
  {
  }

  /** The blocks of the transaction, put over what was committed before. */
  lemma CommitEffect(s: System, lg: Area, d0: Disk, b: nat)
    requires Inv(s, lg, d0) && s.mach.up && b < |d0| && !InLog(lg, b)
    ensures Overlay(Due(s, d0), TxOf(s, lg))[b] == s.cached[b]
  {
    var com, cur := Committed(s.proto.commits), s.proto.current;
    if b !in s.proto.lh {
      CurrentListed(s);
      EffectAt(d0, s.updates, com, com + cur, b);
    }
  }

  /** The operations of the transaction, whether or not it has a block. */
  lemma CommitOps(s: System, d0: Disk, p: nat, b: nat)
    requires P.Enabled(s.proto, P.Commit(p)) && b < |d0|
    requires s.proto.lh == [] ==> forall u <- s.updates :: u.op !in s.proto.current
    ensures Effect(d0, s.updates, Committed(P.Next(s.proto, P.Commit(p)).commits))[b]
         == Effect(d0, s.updates, Committed(s.proto.commits) + s.proto.current)[b]
  {
    var cs, cur := s.proto.commits, s.proto.current;
    var cs' := P.Next(s.proto, P.Commit(p)).commits;
    if s.proto.lh == [] {
      EffectAt(d0, s.updates, Committed(cs), Committed(cs) + cur, b);
    } else {
      assert cs'[..|cs|] == cs;
    }
  }

  /** Both together: what the disk means after the commit is what is due then. */
  lemma CommitDue(s: System, lg: Area, d0: Disk, p: nat, b: nat)
    requires Inv(s, lg, d0) && CanCommit(s, lg, p) && b < |d0| && !InLog(lg, b)
    ensures Overlay(Due(s, d0), TxOf(s, lg))[b] == s.cached[b]
    ensures Effect(d0, s.updates, Committed(P.Next(s.proto, P.Commit(p)).commits))[b] == s.cached[b]
  {
    CommitEffect(s, lg, d0, b);
    CurrentListed(s);
    CommitOps(s, d0, p, b);
  }

  lemma CommitKeeps(s: System, lg: Area, d0: Disk, p: nat)
    requires Inv(s, lg, d0) && CanCommit(s, lg, p)
    ensures Inv(Next(s, lg, Commit(p)), lg, d0)
  {
    P.StepInv(s.proto, P.Commit(p));
    forall b: nat | b < |d0| && !InLog(lg, b)
      ensures OverlayAt(s, lg, d0, P.Next(s.proto, P.Commit(p)).commits, b)
    {
      CommitDue(s, lg, d0, p, b);
    }
    CommitKept(s, lg, d0, p);
  }

  /** The transaction over what was due is what is due once it is committed. */
  ghost predicate OverlayAt(s: System, lg: Area, d0: Disk, cs: seq<P.Txn>, b: nat)
    requires Listed(s, lg) && b < |d0| == |s.cached|
  {
    Overlay(Due(s, d0), TxOf(s, lg))[b] == Effect(d0, s.updates, Committed(cs))[b] == s.cached[b]
  }

  lemma CommitKept(s: System, lg: Area, d0: Disk, p: nat)
    requires Kept(s, lg, d0) && CanCommit(s, lg, p)
    requires forall b: nat | b < |d0| && !InLog(lg, b) :: OverlayAt(s, lg, d0, P.Next(s.proto, P.Commit(p)).commits, b)
    ensures Kept(Next(s, lg, Commit(p)), lg, d0)
  {
    var s', tx := Next(s, lg, Commit(p)), TxOf(s, lg);
    R.StepMeans(s.mach, lg, R.Commit(tx), Due(s, d0));
    OverlayMeans(s, lg, d0, s'.proto.commits, s'.mach.disk);
    CommitCurrent(s, lg, d0, s'.proto.commits);
  }

  /** The cache then has what is committed, and nothing is current. */
  lemma CommitCurrent(s: System, lg: Area, d0: Disk, cs: seq<P.Txn>)
    requires Listed(s, lg) && |d0| == |s.cached|
    requires forall b: nat | b < |d0| && !InLog(lg, b) :: OverlayAt(s, lg, d0, cs, b)
    ensures forall b | 0 <= b < |d0| && !InLog(lg, b) :: s.cached[b] == Effect(d0, s.updates, Committed(cs) + {})[b]
  {
    assert Committed(cs) + {} == Committed(cs);
    forall b | 0 <= b < |d0| && !InLog(lg, b)
      ensures s.cached[b] == Effect(d0, s.updates, Committed(cs))[b]
    {
      assert OverlayAt(s, lg, d0, cs, b);
    }
  }

  lemma OverlayMeans(s: System, lg: Area, d0: Disk, cs: seq<P.Txn>, d: Disk)
    requires Listed(s, lg) && |d| == |d0| == |s.cached| && R.GoodDisk(d, lg)
    requires R.Means(d, lg, Overlay(Due(s, d0), TxOf(s, lg)))
    requires forall b: nat | b < |d0| && !InLog(lg, b) :: OverlayAt(s, lg, d0, cs, b)
    ensures R.Means(d, lg, Effect(d0, s.updates, Committed(cs)))
  {
    forall b | 0 <= b < |d| && !InLog(lg, b)
      ensures Overlay(Due(s, d0), TxOf(s, lg))[b] == Effect(d0, s.updates, Committed(cs))[b]
    {
      assert OverlayAt(s, lg, d0, cs, b);
    }
    MeansSame(d, lg, Overlay(Due(s, d0), TxOf(s, lg)), Effect(d0, s.updates, Committed(cs)));
  }

  lemma CommitCrashKeeps(s: System, lg: Area, d0: Disk, p: nat, k: nat)
    requires Inv(s, lg, d0) && Enabled(s, lg, CommitCrash(p, k))
    ensures Inv(Next(s, lg, CommitCrash(p, k)), lg, d0)
  {
    if k > |s.proto.lh| {
      P.StepInv(s.proto, P.Commit(p));
      RebootInv(P.Next(s.proto, P.Commit(p)));
      forall b: nat | b < |d0| && !InLog(lg, b)
        ensures OverlayAt(s, lg, d0, P.Next(s.proto, P.Commit(p)).commits, b)
      {
        CommitDue(s, lg, d0, p, b);
      }
    } else {
      RebootInv(s.proto);
    }
    CommitCrashKept(s, lg, d0, p, k);
  }

  lemma CommitCrashKept(s: System, lg: Area, d0: Disk, p: nat, k: nat)
    requires Kept(s, lg, d0) && Enabled(s, lg, CommitCrash(p, k))
    requires k > |s.proto.lh| ==>
               forall b: nat | b < |d0| && !InLog(lg, b) ::
                 OverlayAt(s, lg, d0, P.Next(s.proto, P.Commit(p)).commits, b)
    ensures Kept(Next(s, lg, CommitCrash(p, k)), lg, d0)
  {
    R.StepMeans(s.mach, lg, R.CommitCrash(TxOf(s, lg), k), Due(s, d0));
    CommitCrashMeans(s, lg, d0, P.Next(s.proto, P.Commit(p)).commits, k);
  }

  /** Cut after the header was written, the disk means what is due with the transaction. */
  lemma CommitCrashMeans(s: System, lg: Area, d0: Disk, cs: seq<P.Txn>, k: nat)
    requires R.GoodMachine(s.mach, lg) && Listed(s, lg) && |d0| == |s.cached|
    requires R.Enabled(s.mach, lg, R.CommitCrash(TxOf(s, lg), k))
    requires R.GoodDisk(R.Next(s.mach, lg, R.CommitCrash(TxOf(s, lg), k)).disk, lg)
    requires k > |s.proto.lh| ==>
               && R.Means(R.Next(s.mach, lg, R.CommitCrash(TxOf(s, lg), k)).disk, lg, Overlay(Due(s, d0), TxOf(s, lg)))
               && forall b: nat | b < |d0| && !InLog(lg, b) :: OverlayAt(s, lg, d0, cs, b)
    ensures k > |s.proto.lh| ==>
              R.Means(R.Next(s.mach, lg, R.CommitCrash(TxOf(s, lg), k)).disk, lg, Effect(d0, s.updates, Committed(cs)))
  {
    if k > |s.proto.lh| {
      OverlayMeans(s, lg, d0, cs, R.Next(s.mach, lg, R.CommitCrash(TxOf(s, lg), k)).disk);
    }
  }

  lemma RecoveryKeeps(s: System, lg: Area, d0: Disk)
    requires Inv(s, lg, d0) && !s.mach.up
    ensures Inv(Next(s, lg, Recovery), lg, d0)
  {
    RecoveryKept(s, lg, d0);
  }

  lemma RecoveryKept(s: System, lg: Area, d0: Disk)
    requires Kept(s, lg, d0) && !s.mach.up
    ensures Kept(Next(s, lg, Recovery), lg, d0)
  {
    var s' := Next(s, lg, Recovery);
    R.StepMeans(s.mach, lg, R.Recovery, Due(s, d0));
    assert Committed(s.proto.commits) + {} == Committed(s.proto.commits);
    forall b | 0 <= b < |d0| && !InLog(lg, b)
      ensures s'.cached[b] == Due(s, d0)[b]
    {
      UpMeans(s'.mach, lg, Due(s, d0), b);
    }
  }

  lemma EventKeeps(s: System, lg: Area, d0: Disk, e: Event)
    requires Inv(s, lg, d0) && Enabled(s, lg, e)
    ensures Inv(Next(s, lg, e), lg, d0)
  {
    match e
    case Step(x) => StepKeeps(s, lg, d0, x);
    case LogWrite(p, data) => LogWriteKeeps(s, lg, d0, p, data);
    case Commit(p) => CommitKeeps(s, lg, d0, p);
    case CommitCrash(p, k) => CommitCrashKeeps(s, lg, d0, p, k);
    case Crash =>
      RebootInv(s.proto);
      R.StepMeans(s.mach, lg, R.IdleCrash, Due(s, d0));
    case RecoveryCrash(k) => R.StepMeans(s.mach, lg, R.RecoveryCrash(k), Due(s, d0));
    case Recovery => RecoveryKeeps(s, lg, d0);
  }

  // ----- runs -----

  ghost predicate CanRun(s: System, lg: Area, es: seq<Event>)
    decreases |es|
  {
    R.GoodMachine(s.mach, lg) && (es == [] || (Enabled(s, lg, es[0]) && CanRun(Next(s, lg, es[0]), lg, es[1..])))
  }

  ghost function Exec(s: System, lg: Area, es: seq<Event>): System
    requires CanRun(s, lg, es)
    decreases |es|
  {
    if es == [] then s else Exec(Next(s, lg, es[0]), lg, es[1..])
  }

  lemma {:induction false} RunInv(s: System, lg: Area, d0: Disk, es: seq<Event>)
    requires Inv(s, lg, d0) && CanRun(s, lg, es)
    ensures Inv(Exec(s, lg, es), lg, d0)
    decreases |es|
  {
    if es != [] {
      EventKeeps(s, lg, d0, es[0]);
      RunInv(Next(s, lg, es[0]), lg, d0, es[1..]);
    }
  }

  /** In a log of more than LOGSIZE blocks a commit never has to be refused. */
  lemma CommitGoesThrough(s0: System, lg: Area, es: seq<Event>, p: nat)
    requires Start(s0, lg) && CanRun(s0, lg, es) && lg.size > LOGSIZE
    ensures Exec(s0, lg, es).mach.up && P.Enabled(Exec(s0, lg, es).proto, P.Commit(p)) ==>
              CanCommit(Exec(s0, lg, es), lg, p)
  {
    StartInv(s0, lg);
    RunInv(s0, lg, s0.mach.disk, es);
    var s := Exec(s0, lg, es).proto;
    P.SumBounds(s.procs, P.SlackWeight, P.ActiveWeight, MAXOPBLOCKS);
  }
}
