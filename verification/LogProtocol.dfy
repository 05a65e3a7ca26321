/** begin_op, log_write, end_op and commit of log.c as steps that any number of
    processes interleave. One step is what a process does between acquiring and
    releasing log.lock. log_write takes two: its size check (log.c:216-217) runs
    before the lock is taken. */
module LogProtocol {
  import opened Common

  /** Where a process is. Ready is outside any operation, or at the top of
      begin_op's loop; Asleep is in begin_op's sleep; Passed(b) has passed
      log_write's check for block b; Committing is inside commit() and Committed
      has returned from it. `appended` counts the numbers an operation added. */
  datatype Proc =
    | Ready
    | Asleep
    | InOp(op: nat, appended: nat)
    | Passed(op: nat, appended: nat, b: nat)
    | Committing
    | Committed

  /** One finished commit: the operations in it and the block list it wrote. */
  datatype Txn = Txn(ops: set<nat>, blocks: seq<nat>)

  datatype State = State(
    procs: seq<Proc>,
    outstanding: int,             // log.outstanding
    committing: bool,             // log.committing
    lh: seq<nat>,                 // log.lh.block[..log.lh.n]
    size: nat,                    // log.size
    // history
    nextOp: nat,
    wrote: map<nat, set<nat>>,    // blocks each operation has logged
    current: set<nat>,            // operations begun since the last commit
    commits: seq<Txn>
  )

  datatype Event =
    | Sleep(p: nat)
    | Begin(p: nat)
    | Check(p: nat, block: nat)
    | Append(p: nat)
    | End(p: nat)
    | Commit(p: nat)
    | Finish(p: nat)

  predicate Active(q: Proc) {
    q.InOp? || q.Passed?
  }

  predicate InCommit(q: Proc) {
    q.Committing? || q.Committed?
  }

  /** begin_op's two reasons to wait. */
  predicate MustWait(s: State) {
    s.committing || |s.lh| + (s.outstanding + 1) * MAXOPBLOCKS > LOGSIZE
  }

  predicate Enabled(s: State, e: Event) {
    && e.p < |s.procs|
    && var q := s.procs[e.p];
       match e
       case Sleep(_) => q.Ready? && MustWait(s)
       case Begin(_) => q.Ready? && !MustWait(s)
       case Check(_, b) =>
         // otherwise log_write panics
         q.InOp? && |s.lh| < LOGSIZE && |s.lh| < s.size - 1 && s.outstanding >= 1
       case Append(_) =>
         // the hypothesis on callers: an operation adds at most MAXOPBLOCKS numbers
         q.Passed? && (q.b in s.lh || q.appended < MAXOPBLOCKS)
       case End(_) => q.InOp?
       case Commit(_) => q.Committing?
       case Finish(_) => q.Committed?
  }

  /** wakeup(&log) */
  function WakeAll(ps: seq<Proc>): (r: seq<Proc>)
    ensures |r| == |ps|
    ensures forall i | 0 <= i < |ps| :: r[i] == if ps[i].Asleep? then Ready else ps[i]
  {
    seq(|ps|, i requires 0 <= i < |ps| => if ps[i].Asleep? then Ready else ps[i])
  }

  ghost function Next(s: State, e: Event): State
    requires Enabled(s, e)
  {
    var q := s.procs[e.p];
    match e
    case Sleep(p) => s.(procs := s.procs[p := Asleep])
    case Begin(p) =>
      s.(procs := s.procs[p := InOp(s.nextOp, 0)],
         outstanding := s.outstanding + 1,
         nextOp := s.nextOp + 1,
         wrote := s.wrote[s.nextOp := {}],
         current := s.current + {s.nextOp})
    case Check(p, b) => s.(procs := s.procs[p := Passed(q.op, q.appended, b)])
    case Append(p) =>
      var isNew := q.b !in s.lh;
      s.(procs := s.procs[p := InOp(q.op, q.appended + if isNew then 1 else 0)],
         lh := if isNew then s.lh + [q.b] else s.lh,
         wrote := s.wrote[q.op := (if q.op in s.wrote then s.wrote[q.op] else {}) + {q.b}])
    case End(p) =>
      var s1 := s.(outstanding := s.outstanding - 1);
      if s1.outstanding == 0 then s1.(procs := s.procs[p := Committing], committing := true)
      else s1.(procs := WakeAll(s.procs[p := Ready]))
    case Commit(p) =>
      s.(procs := s.procs[p := Committed],
         lh := [],
         current := {},
         commits := if s.lh == [] then s.commits else s.commits + [Txn(s.current, s.lh)])
    case Finish(p) => s.(procs := WakeAll(s.procs[p := Ready]), committing := false)
  }

  // ----- counting -----

  function Sum(ps: seq<Proc>, weight: Proc -> int): int {
    if ps == [] then 0 else weight(ps[0]) + Sum(ps[1..], weight)
  }

  lemma {:induction false} SumUpdate(ps: seq<Proc>, i: nat, q: Proc, w: Proc -> int)
    requires i < |ps|
    ensures Sum(ps[i := q], w) == Sum(ps, w) - w(ps[i]) + w(q)
  {
    if i == 0 {
      assert ps[i := q][1..] == ps[1..];
    } else {
      SumUpdate(ps[1..], i - 1, q, w);
      assert ps[i := q][1..] == ps[1..][i - 1 := q];
    }
  }

  lemma {:induction false} SumSame(ps: seq<Proc>, qs: seq<Proc>, w: Proc -> int)
    requires |ps| == |qs| && forall i | 0 <= i < |ps| :: w(ps[i]) == w(qs[i])
    ensures Sum(ps, w) == Sum(qs, w)
  {
    if ps != [] {
      SumSame(ps[1..], qs[1..], w);
    }
  }

  lemma {:induction false} SumBounds(ps: seq<Proc>, w: Proc -> int, v: Proc -> int, m: nat)
    requires forall q <- ps :: 0 <= w(q) <= m * v(q)
    ensures 0 <= Sum(ps, w) <= m * Sum(ps, v)
  {
    if ps != [] {
      SumBounds(ps[1..], w, v, m);
    }
  }

  lemma {:induction false} SumAt(ps: seq<Proc>, i: nat, w: Proc -> int)
    requires i < |ps| && forall q <- ps :: 0 <= w(q)
    ensures w(ps[i]) <= Sum(ps, w)
  {
    SumUpdate(ps, i, ps[i], _ => 0);
    if i > 0 {
      SumAt(ps[1..], i - 1, w);
    } else {
      SumBounds(ps[1..], w, w, 1);
    }
  }

  function ActiveWeight(q: Proc): int {
    if Active(q) then 1 else 0
  }

  function CommitWeight(q: Proc): int {
    if InCommit(q) then 1 else 0
  }

  /** Log space an operation may still claim. */
  function SlackWeight(q: Proc): int {
    if Active(q) then MAXOPBLOCKS - q.appended else 0
  }

  // ----- the invariant -----

  ghost predicate NoDuplicates(bs: seq<nat>) {
    forall i, j | 0 <= i < j < |bs| :: bs[i] != bs[j]
  }

  /** The counters of log.c agree with where the processes are. */
  ghost predicate Counts(s: State) {
    && (forall q <- s.procs :: Active(q) ==> q.appended <= MAXOPBLOCKS)
    && s.outstanding == Sum(s.procs, ActiveWeight)
    && Sum(s.procs, CommitWeight) == (if s.committing then 1 else 0)
    && (s.committing ==> s.outstanding == 0)
    && (s.lh != [] ==> s.committing || s.outstanding > 0)
    && (s.lh != [] ==> Committed !in s.procs)
  }

  /** The space reserved by begin_op is there. */
  ghost predicate Reserved(s: State) {
    NoDuplicates(s.lh) && |s.lh| + Sum(s.procs, SlackWeight) <= LOGSIZE
  }

  /** Whoever sleeps in begin_op has someone left to wake it. */
  ghost predicate Wakeable(s: State) {
    (exists q <- s.procs :: q.Asleep?) ==> s.committing || s.outstanding > 0
  }

  /** A block list is what a set of operations wrote, all of it. */
  ghost predicate Exactly(bs: seq<nat>, ops: set<nat>, wrote: map<nat, set<nat>>) {
    && ops <= wrote.Keys
    && (forall b <- bs :: exists o <- ops :: b in wrote[o])
    && (forall o <- ops :: forall b <- wrote[o] :: b in bs)
  }

  /** Every running operation is one of the current ones, and no two share it. */
  ghost predicate Running(s: State) {
    && (forall i | 0 <= i < |s.procs| && Active(s.procs[i]) :: s.procs[i].op in s.current)
    && (forall i, j | 0 <= i < j < |s.procs| && Active(s.procs[i]) && Active(s.procs[j]) ::
          s.procs[i].op != s.procs[j].op)
    && (forall o <- s.current :: o < s.nextOp)
  }

  /** Each commit wrote exactly what a set of operations wrote, and no operation
      is in two commits or in a commit and in the log. */
  ghost predicate Whole(s: State) {
    && (forall i | 0 <= i < |s.commits| ::
          && s.commits[i].ops !! s.current
          && Exactly(s.commits[i].blocks, s.commits[i].ops, s.wrote)
          && NoDuplicates(s.commits[i].blocks))
    && (forall i, j | 0 <= i < j < |s.commits| :: s.commits[i].ops !! s.commits[j].ops)
    && (forall o <- s.wrote :: o < s.nextOp)
  }

  ghost predicate History(s: State) {
    Exactly(s.lh, s.current, s.wrote) && Running(s) && Whole(s)
  }

  ghost predicate Inv(s: State) {
    Counts(s) && Reserved(s) && Wakeable(s) && History(s)
  }

  ghost predicate Init(s: State) {
    && (forall i | 0 <= i < |s.procs| :: s.procs[i].Ready?)
    && s.outstanding == 0 && !s.committing && s.lh == []
    && s.nextOp == 0 && s.wrote == map[] && s.current == {} && s.commits == []
  }

  lemma InitInv(s: State)
    requires Init(s)
    ensures Inv(s)
  {
    assert forall q <- s.procs :: q.Ready?;
    SumBounds(s.procs, ActiveWeight, ActiveWeight, 0);
    SumBounds(s.procs, CommitWeight, CommitWeight, 0);
    SumBounds(s.procs, SlackWeight, SlackWeight, 0);
  }

  // ----- every step keeps it -----

  /** What replacing one process does to the three counts. */
  lemma Counted(ps: seq<Proc>, p: nat, q: Proc)
    requires p < |ps|
    ensures Sum(ps[p := q], ActiveWeight) == Sum(ps, ActiveWeight) - ActiveWeight(ps[p]) + ActiveWeight(q)
    ensures Sum(ps[p := q], CommitWeight) == Sum(ps, CommitWeight) - CommitWeight(ps[p]) + CommitWeight(q)
    ensures Sum(ps[p := q], SlackWeight) == Sum(ps, SlackWeight) - SlackWeight(ps[p]) + SlackWeight(q)
  {
    SumUpdate(ps, p, q, ActiveWeight);
    SumUpdate(ps, p, q, CommitWeight);
    SumUpdate(ps, p, q, SlackWeight);
  }

  lemma WokenCounts(ps: seq<Proc>)
    ensures Sum(WakeAll(ps), ActiveWeight) == Sum(ps, ActiveWeight)
    ensures Sum(WakeAll(ps), CommitWeight) == Sum(ps, CommitWeight)
    ensures Sum(WakeAll(ps), SlackWeight) == Sum(ps, SlackWeight)
  {
    SumSame(WakeAll(ps), ps, ActiveWeight);
    SumSame(WakeAll(ps), ps, CommitWeight);
    SumSame(WakeAll(ps), ps, SlackWeight);
  }

  /** A process in an operation and one in commit exclude each other. */
  lemma Exclusive(s: State, p: nat)
    requires Counts(s) && p < |s.procs|
    ensures Active(s.procs[p]) ==> s.outstanding >= 1 && !s.committing
    ensures InCommit(s.procs[p]) ==> s.committing && s.outstanding == 0
  {
    SumAt(s.procs, p, ActiveWeight);
    SumAt(s.procs, p, CommitWeight);
  }

  /** The process that event e replaces, before any wakeup. */
  ghost function Replaced(s: State, e: Event): (q: Proc)
    requires Enabled(s, e)
    ensures Next(s, e).procs == s.procs[e.p := q] || Next(s, e).procs == WakeAll(s.procs[e.p := q])
  {
    match e
    case Sleep(_) => Asleep
    case Begin(_) => InOp(s.nextOp, 0)
    case Check(_, b) => Passed(s.procs[e.p].op, s.procs[e.p].appended, b)
    case Append(_) => InOp(s.procs[e.p].op, s.procs[e.p].appended + if s.procs[e.p].b !in s.lh then 1 else 0)
    case End(_) => if s.outstanding == 1 then Committing else Ready
    case Commit(_) => Committed
    case Finish(_) => Ready
  }

  lemma StepSums(s: State, e: Event)
    requires Enabled(s, e)
    ensures
      var ps, q, r := s.procs, s.procs[e.p], Replaced(s, e);
      && Sum(Next(s, e).procs, ActiveWeight) == Sum(ps, ActiveWeight) - ActiveWeight(q) + ActiveWeight(r)
      && Sum(Next(s, e).procs, CommitWeight) == Sum(ps, CommitWeight) - CommitWeight(q) + CommitWeight(r)
      && Sum(Next(s, e).procs, SlackWeight) == Sum(ps, SlackWeight) - SlackWeight(q) + SlackWeight(r)
  {
    Counted(s.procs, e.p, Replaced(s, e));
    WokenCounts(s.procs[e.p := Replaced(s, e)]);
  }

  /** Every process after a step is the replaced one, a woken one or unmoved. */
  lemma StepProcs(s: State, e: Event, i: nat)
    requires Enabled(s, e) && i < |s.procs|
    ensures |Next(s, e).procs| == |s.procs|
    ensures i == e.p ==> Next(s, e).procs[i] == Replaced(s, e) || Replaced(s, e).Asleep?
    ensures i != e.p && !s.procs[i].Asleep? ==> Next(s, e).procs[i] == s.procs[i]
    ensures i != e.p && s.procs[i].Asleep? ==> Next(s, e).procs[i].Asleep? || Next(s, e).procs[i].Ready?
    ensures i != e.p && s.procs[i].Asleep? && (e.Finish? || (e.End? && s.outstanding != 1)) ==>
              Next(s, e).procs[i].Ready?
  {
  }

  lemma CountsKept(s: State, e: Event)
    requires Counts(s) && Enabled(s, e)
    ensures Counts(Next(s, e))
  {
    StepSums(s, e);
    Exclusive(s, e.p);
    var s' := Next(s, e);
    forall q | q in s'.procs && Active(q)
      ensures q.appended <= MAXOPBLOCKS
    {
      var i :| 0 <= i < |s'.procs| && s'.procs[i] == q;
      StepProcs(s, e, i);
    }
    if i :| 0 <= i < |s'.procs| && s'.procs[i] == Committed && s'.lh != [] {
      StepProcs(s, e, i);
      Exclusive(s, i);
      assert false;
    }
    SumBounds(s'.procs, ActiveWeight, ActiveWeight, 1);
  }

  lemma ReservedKept(s: State, e: Event)
    requires Counts(s) && Reserved(s) && Enabled(s, e)
    ensures Reserved(Next(s, e))
  {
    StepSums(s, e);
    SumBounds(s.procs, SlackWeight, ActiveWeight, MAXOPBLOCKS);
  }

  lemma WakeableKept(s: State, e: Event)
    requires Counts(s) && Wakeable(s) && Enabled(s, e)
    ensures Wakeable(Next(s, e))
  {
    StepSums(s, e);
    Exclusive(s, e.p);
    var s' := Next(s, e);
    SumBounds(s.procs, ActiveWeight, ActiveWeight, 1);
    if q :| q in s'.procs && q.Asleep? {
      var i :| 0 <= i < |s'.procs| && s'.procs[i] == q;
      StepProcs(s, e, i);
    }
  }

  lemma RunningKept(s: State, e: Event)
    requires Counts(s) && Running(s) && Enabled(s, e)
    ensures Running(Next(s, e))
  {
    var s' := Next(s, e);
    forall i | 0 <= i < |s'.procs| && Active(s'.procs[i])
      ensures (i == e.p && e.Begin?) || (Active(s.procs[i]) && s'.procs[i].op == s.procs[i].op)
      ensures !e.Commit?
    {
      StepProcs(s, e, i);
      Exclusive(s, i);
      Exclusive(s, e.p);
    }
  }

  lemma ExactlyAppend(bs: seq<nat>, ops: set<nat>, wrote: map<nat, set<nat>>, o: nat, b: nat)
    requires Exactly(bs, ops, wrote) && o in ops
    ensures Exactly(if b in bs then bs else bs + [b], ops, wrote[o := wrote[o] + {b}])
  {
    var bs', wrote' := if b in bs then bs else bs + [b], wrote[o := wrote[o] + {b}];
    forall x | x in bs'
      ensures exists o' <- ops :: x in wrote'[o']
    {
      if x == b {
        assert b in wrote'[o];
      } else {
        assert x in bs;
        var o' :| o' in ops && x in wrote[o'];
        assert x in wrote'[o'];
      }
    }
  }

  lemma ListKept(s: State, e: Event)
    requires Counts(s) && History(s) && Enabled(s, e)
    ensures Exactly(Next(s, e).lh, Next(s, e).current, Next(s, e).wrote)
  {
    if e.Append? {
      var q := s.procs[e.p];
      assert q.op in s.current;
      ExactlyAppend(s.lh, s.current, s.wrote, q.op, q.b);
    } else if e.Begin? {
      var s' := Next(s, e);
      forall b | b in s'.lh
        ensures exists o <- s'.current :: b in s'.wrote[o]
      {
        var o :| o in s.current && b in s.wrote[o];
        assert o in s'.current && b in s'.wrote[o];
      }
    }
  }

  lemma ExactlyFrame(bs: seq<nat>, ops: set<nat>, wrote: map<nat, set<nat>>, wrote': map<nat, set<nat>>)
    requires Exactly(bs, ops, wrote) && wrote.Keys <= wrote'.Keys
    requires forall o <- ops :: wrote'[o] == wrote[o]
    ensures Exactly(bs, ops, wrote')
  {
    forall b | b in bs
      ensures exists o <- ops :: b in wrote'[o]
    {
      var o :| o in ops && b in wrote[o];
      assert b in wrote'[o];
    }
  }

  lemma WholeKept(s: State, e: Event)
    requires Counts(s) && Reserved(s) && History(s) && Enabled(s, e)
    ensures Whole(Next(s, e))
  {
    var s' := Next(s, e);
    assert e.Append? ==> s.procs[e.p].op in s.current;
    assert forall o | o in s'.wrote && o !in s.wrote :: o == s.nextOp && e.Begin?;
    forall i | 0 <= i < |s.commits|
      ensures Exactly(s.commits[i].blocks, s.commits[i].ops, s'.wrote)
      ensures s.commits[i].ops !! s'.current
    {
      ExactlyFrame(s.commits[i].blocks, s.commits[i].ops, s.wrote, s'.wrote);
    }
  }

  lemma StepInv(s: State, e: Event)
    requires Inv(s) && Enabled(s, e)
    ensures Inv(Next(s, e))
  {
    CountsKept(s, e);
    ReservedKept(s, e);
    WakeableKept(s, e);
    RunningKept(s, e);
    ListKept(s, e);
    WholeKept(s, e);
  }

  // ----- runs -----

  ghost predicate CanRun(s: State, es: seq<Event>)
    decreases |es|
  {
    es == [] || (Enabled(s, es[0]) && CanRun(Next(s, es[0]), es[1..]))
  }

  ghost function Exec(s: State, es: seq<Event>): State
    requires CanRun(s, es)
    decreases |es|
  {
    if es == [] then s else Exec(Next(s, es[0]), es[1..])
  }

  lemma {:induction false} RunInv(s: State, es: seq<Event>)
    requires Inv(s) && CanRun(s, es)
    ensures Inv(Exec(s, es))
    decreases |es|
  {
    if es != [] {
      StepInv(s, es[0]);
      RunInv(Next(s, es[0]), es[1..]);
    }
  }

  /** In every interleaving: while a commit is under way no operation is
      outstanding and no process can log a block, begin or end an operation;
      the block list has no duplicates and never outgrows LOGSIZE. */
  lemma CommitsAlone(s0: State, es: seq<Event>)
    requires Init(s0) && CanRun(s0, es)
    ensures
      var s := Exec(s0, es);
      && (s.committing ==> s.outstanding == 0)
      && (s.committing ==> forall e | Enabled(s, e) :: e.Sleep? || e.Commit? || e.Finish?)
      && (forall e | Enabled(s, e) && (e.Commit? || e.End?) :: e.Commit? == s.committing)
      && NoDuplicates(s.lh)
      && |s.lh| <= LOGSIZE
  {
    InitInv(s0);
    RunInv(s0, es);
    var s := Exec(s0, es);
    forall e | Enabled(s, e)
      ensures s.committing ==> e.Sleep? || e.Commit? || e.Finish?
      ensures e.Commit? || e.End? ==> e.Commit? == s.committing
    {
      Exclusive(s, e.p);
    }
    SumBounds(s.procs, SlackWeight, ActiveWeight, MAXOPBLOCKS);
  }

  /** In every interleaving: each commit writes exactly the blocks that a set of
      finished operations logged, all of them, and no operation is split over
      two commits. */
  lemma CommitsWhole(s0: State, es: seq<Event>, i: nat)
    requires Init(s0) && CanRun(s0, es) && i < |Exec(s0, es).commits|
    ensures
      var s := Exec(s0, es);
      var t := s.commits[i];
      && Exactly(t.blocks, t.ops, s.wrote)
      && (forall q <- s.procs :: Active(q) ==> q.op !in t.ops)
      && (forall j | 0 <= j < |s.commits| && j != i :: t.ops !! s.commits[j].ops)
  {
    InitInv(s0);
    RunInv(s0, es);
  }

  /** In every interleaving: a process asleep in begin_op has a wakeup coming,
      and once nothing is outstanding or committing begin_op goes through. */
  lemma NoLostBegin(s0: State, es: seq<Event>, p: nat)
    requires Init(s0) && CanRun(s0, es) && p < |s0.procs|
    ensures |Exec(s0, es).procs| == |s0.procs|
    ensures
      var s := Exec(s0, es);
      && (s.procs[p].Asleep? ==> s.committing || s.outstanding > 0)
      && (s.procs[p].Ready? && !s.committing && s.outstanding == 0 ==> Enabled(s, Begin(p)))
  {
    InitInv(s0);
    RunInv(s0, es);
    SameProcs(s0, es);
    var s := Exec(s0, es);
    assert s.procs[p].Asleep? ==> s.procs[p] in s.procs;
  }

  lemma {:induction false} SameProcs(s: State, es: seq<Event>)
    requires CanRun(s, es)
    ensures |Exec(s, es).procs| == |s.procs| && Exec(s, es).size == s.size
    decreases |es|
  {
    if es != [] {
      StepProcs(s, es[0], es[0].p);
      SameProcs(Next(s, es[0]), es[1..]);
    }
  }

  // ----- the size check -----

  /** A run in which every size check is followed at once by its own append. */
  ghost predicate AtomicChecks(es: seq<Event>) {
    forall i | 0 <= i < |es| && es[i].Check? :: i + 1 < |es| && es[i + 1] == Append(es[i].p)
  }

  /** Were log_write one step, the block list would fit in the log.size - 1
      blocks after the header. */
  lemma {:induction false} AtomicCheckFits(s: State, es: seq<Event>)
    requires CanRun(s, es) && AtomicChecks(es)
    requires |s.lh| < s.size
    requires forall q <- s.procs :: !q.Passed?
    ensures |Exec(s, es).lh| < s.size
    decreases |es|
  {
    if es != [] {
      var e := es[0];
      var s1 := Next(s, e);
      if e.Check? {
        assert es[1] == Append(e.p);
        var s2 := Next(s1, es[1]);
        assert s2.procs == s.procs[e.p := s2.procs[e.p]];
        assert forall q <- s2.procs :: !q.Passed?;
        assert CanRun(s2, es[1..][1..]);
        assert AtomicChecks(es[1..][1..]);
        AtomicCheckFits(s2, es[1..][1..]);
      } else {
        assert AtomicChecks(es[1..]);
        forall q | q in s1.procs
          ensures !q.Passed?
        {
          var i :| 0 <= i < |s1.procs| && s1.procs[i] == q;
          StepProcs(s, e, i);
        }
        AtomicCheckFits(s1, es[1..]);
      }
    }
  }

  lemma {:induction false} RunConcat(s: State, a: seq<Event>, b: seq<Event>)
    requires CanRun(s, a) && CanRun(Exec(s, a), b)
    ensures CanRun(s, a + b) && Exec(s, a + b) == Exec(Exec(s, a), b)
    decreases |a|
  {
    if a == [] {
      assert a + b == b;
    } else {
      RunConcat(Next(s, a[0]), a[1..], b);
      assert (a + b)[1..] == a[1..] + b;
    }
  }

  /** es takes s to s'. */
  ghost predicate Leads(s: State, es: seq<Event>, s': State) {
    CanRun(s, es) && Exec(s, es) == s'
  }

  lemma LeadsOn(s: State, a: seq<Event>, s1: State, e: Event)
    requires Leads(s, a, s1) && Enabled(s1, e)
    ensures Leads(s, a + [e], Next(s1, e))
  {
    var s2 := Next(s1, e);
    assert [e][1..] == [];
    assert CanRun(s2, []) && Exec(s2, []) == s2;
    assert CanRun(s1, [e]) && Exec(s1, [e]) == s2;
    RunConcat(s, a, [e]);
  }

  /** s' is s after process p has appended m blocks, all below `below`. */
  ghost predicate Appended(s: State, s': State, p: nat, m: nat, below: nat) {
    && p < |s.procs|
    && s.procs[p].InOp?
    && s'.procs == s.procs[p := InOp(s.procs[p].op, s.procs[p].appended + m)]
    && |s'.lh| == |s.lh| + m
    && (forall x <- s'.lh :: x < below)
    && s'.outstanding == s.outstanding && s'.committing == s.committing
    && s'.size == s.size
  }

  /** Process p logs the blocks from ..< from + m, one at a time. */
  lemma {:induction false} Appends(s0: State, es0: seq<Event>, s: State, p: nat, from: nat, m: nat)
    returns (es: seq<Event>, s': State)
    requires Leads(s0, es0, s)
    requires p < |s.procs| && s.procs[p].InOp? && s.procs[p].appended + m <= MAXOPBLOCKS
    requires |s.lh| + m < s.size <= LOGSIZE && s.outstanding >= 1
    requires forall x <- s.lh :: x < from
    ensures Leads(s0, es, s')
    ensures Appended(s, s', p, m, from + m)
    decreases m
  {
    if m == 0 {
      es, s' := es0, s;
      assert s.procs[p := s.procs[p]] == s.procs;
    } else {
      var s1, b;
      es, s1 := Appends(s0, es0, s, p, from, m - 1);
      b := from + m - 1;
      var s2 := Next(s1, Check(p, b));
      LeadsOn(s0, es, s1, Check(p, b));
      LeadsOn(s0, es + [Check(p, b)], s2, Append(p));
      es, s' := es + [Check(p, b)] + [Append(p)], Next(s2, Append(p));
      assert b !in s1.lh;
      assert s'.procs == s.procs[p := InOp(s.procs[p].op, s.procs[p].appended + m)];
    }
  }

  /** The first two processes begin an operation. */
  lemma TwoBegin(s: State) returns (es: seq<Event>, s': State)
    requires Init(s) && |s.procs| >= 2
    ensures Leads(s, es, s')
    ensures s'.procs == s.procs[0 := InOp(0, 0)][1 := InOp(1, 0)]
    ensures s'.lh == [] && s'.outstanding == 2 && !s'.committing && s'.nextOp == 2 && s'.size == s.size
  {
    assert Leads(s, [], s);
    var s1 := Next(s, Begin(0));
    LeadsOn(s, [], s, Begin(0));
    LeadsOn(s, [] + [Begin(0)], s1, Begin(1));
    es, s' := [] + [Begin(0)] + [Begin(1)], Next(s1, Begin(1));
  }

  /** Process 0 ends its operation and begins another one in the same transaction. */
  lemma EndAndBegin(s0: State, es0: seq<Event>, s: State) returns (es: seq<Event>, s': State)
    requires Leads(s0, es0, s)
    requires |s.procs| >= 2 && s.procs[0].InOp? && s.procs[1].InOp? && !s.committing
    requires forall i | 2 <= i < |s.procs| :: s.procs[i].Ready?
    requires s.outstanding == 2 && |s.lh| <= LOGSIZE - 2 * MAXOPBLOCKS
    ensures Leads(s0, es, s') && s'.procs == s.procs[0 := InOp(s.nextOp, 0)]
    ensures s'.lh == s.lh && s'.outstanding == 2 && s'.size == s.size
  {
    var s1 := Next(s, End(0));
    LeadsOn(s0, es0, s, End(0));
    assert s1.procs == s.procs[0 := Ready];
    LeadsOn(s0, es0 + [End(0)], s1, Begin(0));
    es, s' := es0 + [End(0)] + [Begin(0)], Next(s1, Begin(0));
  }

  /** Two processes check against the same list, one short of full, and then both
      append. */
  lemma BothAppend(s0: State, es0: seq<Event>, s: State) returns (es: seq<Event>, s': State)
    requires Leads(s0, es0, s)
    requires |s.procs| >= 2 && s.outstanding == 2 && |s.lh| + 2 == s.size <= LOGSIZE
    requires forall p | 0 <= p < 2 :: s.procs[p].InOp? && s.procs[p].appended < MAXOPBLOCKS
    requires forall x <- s.lh :: x < |s.lh|
    ensures Leads(s0, es, s') && |s'.lh| == s.size
  {
    var n := |s.lh|;
    var s1 := Next(s, Check(0, n));
    LeadsOn(s0, es0, s, Check(0, n));
    var s2 := Next(s1, Check(1, n + 1));
    LeadsOn(s0, es0 + [Check(0, n)], s1, Check(1, n + 1));
    var s3 := Next(s2, Append(0));
    LeadsOn(s0, es0 + [Check(0, n)] + [Check(1, n + 1)], s2, Append(0));
    LeadsOn(s0, es0 + [Check(0, n)] + [Check(1, n + 1)] + [Append(0)], s3, Append(1));
    es := es0 + [Check(0, n)] + [Check(1, n + 1)] + [Append(0)] + [Append(1)];
    s' := Next(s3, Append(1));
  }

  /** As the code stands, with the check outside the lock, two processes whose
      operations each keep to MAXOPBLOCKS can log log.size blocks, one more than
      the log has room for, on any log of 2 to LOGSIZE blocks. */
  lemma Overflows(s0: State) returns (es: seq<Event>)
    requires Init(s0) && |s0.procs| >= 2 && 2 <= s0.size <= LOGSIZE
    ensures CanRun(s0, es) && |Exec(s0, es).lh| == s0.size
  {
    var n := s0.size - 2;
    var first := if n < MAXOPBLOCKS then n else MAXOPBLOCKS;
    var second := if n - first < MAXOPBLOCKS then n - first else MAXOPBLOCKS - 1;
    var s;
    es, s := TwoBegin(s0);
    es, s := Appends(s0, es, s, 0, 0, first);
    es, s := EndAndBegin(s0, es, s);
    es, s := Appends(s0, es, s, 0, first, second);
    es, s := Appends(s0, es, s, 1, first + second, n - first - second);
    es, s := BothAppend(s0, es, s);
  }

  /** The disk that mkfs makes has log.size == LOGSIZE. */
  lemma SplitCheckOverflows() returns (s0: State, es: seq<Event>)
    ensures Init(s0) && |s0.procs| == 2 && s0.size == LOGSIZE && CanRun(s0, es)
    ensures |Exec(s0, es).lh| == LOGSIZE
  {
    s0 := State([Ready, Ready], 0, false, [], LOGSIZE, 0, map[], {}, []);
    es := Overflows(s0);
  }

  /** A process that is alone finds the list as it was when it checked. */
  lemma {:induction false} AloneFits(s: State, es: seq<Event>)
    requires CanRun(s, es) && |s.procs| <= 1 && |s.lh| < s.size
    requires forall q <- s.procs :: q.Passed? ==> |s.lh| < s.size - 1
    ensures |Exec(s, es).lh| < s.size
    decreases |es|
  {
    if es != [] {
      StepProcs(s, es[0], 0);
      AloneFits(Next(s, es[0]), es[1..]);
    }
  }

  /** Runs of n processes on a log of `size` blocks never list more blocks than the
      size - 1 after the header. */
  ghost predicate AlwaysFits(n: nat, size: nat) {
    forall s, es | Init(s) && |s.procs| == n && s.size == size && CanRun(s, es) :: |Exec(s, es).lh| < size
  }

  /** Exactly when the check of log_write does what it is for: the log is larger
      than LOGSIZE, or has the header only, or one process has it for itself. */
  lemma FitsIff(n: nat, size: nat)
    ensures AlwaysFits(n, size) <==> size > 0 && (size > LOGSIZE || size == 1 || n < 2)
  {
    var s0 := State(seq(n, _ => Ready), 0, false, [], size, 0, map[], {}, []);
    if size == 0 {
      assert CanRun(s0, []) && |Exec(s0, []).lh| == 0;
    } else if n >= 2 && 2 <= size <= LOGSIZE {
      var es := Overflows(s0);
      assert CanRun(s0, es) && !(|Exec(s0, es).lh| < size);
    } else {
      forall s, es | Init(s) && |s.procs| == n && s.size == size && CanRun(s, es)
        ensures |Exec(s, es).lh| < size
      {
        if size > LOGSIZE {
          CommitsAlone(s, es);
        } else if n < 2 {
          AloneFits(s, es);
        } else {
          HeaderOnly(s, es);
        }
      }
    }
  }

  /** With no block after the header every check fails. */
  lemma {:induction false} HeaderOnly(s: State, es: seq<Event>)
    requires CanRun(s, es) && s.size == 1 && s.lh == []
    requires forall q <- s.procs :: !q.Passed?
    ensures Exec(s, es).lh == []
    decreases |es|
  {
    if es != [] {
      var s1 := Next(s, es[0]);
      forall q | q in s1.procs
        ensures !q.Passed?
      {
        var i :| 0 <= i < |s1.procs| && s1.procs[i] == q;
        StepProcs(s, es[0], i);
      }
      HeaderOnly(s1, es[1..]);
    }
  }
}
