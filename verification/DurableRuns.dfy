/** What a run of Durability has to leave on the disk, read off the events alone: which
    operation each log_write belongs to, which block it names and whether that
    operation's transaction was committed (log.c). */
module DurableRuns {
  import opened Blocks
  import opened Durability
  import opened Replay
  import P = LogProtocol
  import R = RedoLog

  /** An observer's notes. Operations are numbered by their begin_op, in order. */
  datatype Notes = Notes(
    begun: nat,               // operations begun so far
    op: map<nat, nat>,        // each process's latest operation
    block: map<nat, nat>,     // the block of each process's latest size check
    updates: seq<Update>,     // every log_write, in order
    listed: set<nat>,         // blocks logged since the last commit or crash
    open: set<nat>,           // operations begun since then
    committed: set<nat>
  )

  const NOTHING := Notes(0, map[], map[], [], {}, {}, {})

  /** One event seen. A commit that crashes counts once its header is on the disk: that is
      the write after the blocks of the transaction. */
  ghost function Noted(h: Notes, e: Event): Notes {
    match e
    case Step(Begin(p)) =>
      h.(begun := h.begun + 1, op := h.op[p := h.begun], open := h.open + {h.begun})
    case Step(Check(p, b)) => h.(block := h.block[p := b])
    case LogWrite(p, data) =>
      if p in h.op && p in h.block then
        h.(updates := h.updates + [Update(h.op[p], h.block[p], data)], listed := h.listed + {h.block[p]})
      else h
    case Commit(_) => h.(listed := {}, open := {}, committed := h.committed + h.open)
    case CommitCrash(_, cut) =>
      h.(listed := {}, open := {}, committed := h.committed + if cut > |h.listed| then h.open else {})
    case Crash => h.(listed := {}, open := {})
    case _ => h
  }

  ghost function NotesOf(h: Notes, es: seq<Event>): Notes
    decreases |es|
  {
    if es == [] then h else NotesOf(Noted(h, es[0]), es[1..])
  }

  // ----- the notes agree with the machine -----

  /** Each process is in the operation, and at the block, that its events say. */
  ghost predicate Placed(s: P.State, h: Notes) {
    && s.nextOp == h.begun && s.current == h.open
    && (forall p | 0 <= p < |s.procs| && P.Active(s.procs[p]) :: p in h.op && h.op[p] == s.procs[p].op)
    && (forall p | 0 <= p < |s.procs| && s.procs[p].Passed? :: p in h.block && h.block[p] == s.procs[p].b)
  }

  /** An open operation has a transaction that is still to be committed. */
  ghost predicate Open(s: P.State, h: Notes) {
    h.open != {} ==> (s.committing || s.outstanding > 0) && P.Committed !in s.procs
  }

  ghost predicate Numbered(h: Notes) {
    && (forall o <- h.committed :: o < h.begun && o !in h.open)
    && (forall o <- h.open :: o < h.begun)
  }

  ghost predicate SameList(bs: seq<nat>, listed: set<nat>) {
    (forall b <- bs :: b in listed) && (forall b <- listed :: b in bs)
  }

  /** The committed operations, as far as they changed anything. */
  ghost predicate SameCommitted(s: System, committed: set<nat>) {
    forall u <- s.updates :: u.op in Committed(s.proto.commits) <==> u.op in committed
  }

  ghost predicate Agree(s: System, h: Notes) {
    && Placed(s.proto, h) && Open(s.proto, h) && Numbered(h)
    && SameList(s.proto.lh, h.listed)
    && s.updates == h.updates
    && SameCommitted(s, h.committed)
  }

  lemma {:induction false} ListSize(bs: seq<nat>, listed: set<nat>)
    requires P.NoDuplicates(bs) && SameList(bs, listed)
    ensures |bs| == |listed|
  {
    if bs == [] {
      assert listed == {};
    } else {
      var b := bs[|bs| - 1];
      assert b in listed;
      ListSize(bs[..|bs| - 1], listed - {b});
    }
  }

  lemma BeginAgrees(s: P.State, h: Notes, p: nat)
    requires P.Counts(s) && P.Enabled(s, P.Begin(p)) && Placed(s, h)
    ensures Placed(P.Next(s, P.Begin(p)), Noted(h, Step(P.Begin(p))))
    ensures Open(P.Next(s, P.Begin(p)), Noted(h, Step(P.Begin(p))))
  {
    P.SumBounds(s.procs, P.ActiveWeight, P.ActiveWeight, 1);
    forall i: nat | i < |s.procs|
      ensures s.procs[i] != P.Committed
    {
      P.Exclusive(s, i);
    }
  }

  /** A step without a log_write or a commit: the rest of the notes is what it was. */
  lemma StepAgrees(s: System, lg: Area, h: Notes, x: P.Event)
    requires P.Inv(s.proto) && R.GoodMachine(s.mach, lg) && Enabled(s, lg, Step(x)) && Agree(s, h)
    ensures Agree(Next(s, lg, Step(x)), Noted(h, Step(x)))
  {
    if x.Begin? {
      BeginAgrees(s.proto, h, x.p);
    } else {
      MovesAgree(s.proto, h, x);
    }
    StepWrote(s.proto, x);
    RestAgrees(s, lg, h, x);
  }

  lemma RestAgrees(s: System, lg: Area, h: Notes, x: P.Event)
    requires R.GoodMachine(s.mach, lg) && Enabled(s, lg, Step(x)) && OnlyBegins(s.proto, P.Next(s.proto, x))
    requires Agree(s, h)
    requires Placed(P.Next(s.proto, x), Noted(h, Step(x))) && Open(P.Next(s.proto, x), Noted(h, Step(x)))
    ensures Agree(Next(s, lg, Step(x)), Noted(h, Step(x)))
  {
    assert Numbered(Noted(h, Step(x)));
  }

  lemma MovesAgree(s: P.State, h: Notes, x: P.Event)
    requires P.Enabled(s, x) && Placed(s, h) && Open(s, h) && P.Counts(s)
    requires !x.Begin? && !x.Append? && !x.Commit?
    ensures Placed(P.Next(s, x), Noted(h, Step(x)))
    ensures Open(P.Next(s, x), Noted(h, Step(x)))
  {
    if x.End? {
      forall i: nat | i < |s.procs|
        ensures s.procs[i] != P.Committed
      {
        P.Exclusive(s, i);
        P.Exclusive(s, x.p);
      }
    }
  }

  lemma LogWriteAgrees(s: System, lg: Area, h: Notes, p: nat, data: Block)
    requires P.Inv(s.proto) && R.GoodMachine(s.mach, lg) && Enabled(s, lg, LogWrite(p, data)) && Agree(s, h)
    ensures Agree(Next(s, lg, LogWrite(p, data)), Noted(h, LogWrite(p, data)))
  {
    WriterCurrent(s.proto, p);
  }

  /** A commit takes in the open operations; one with an empty list has changed nothing. */
  lemma CommitTakes(s: System, h: Notes, p: nat)
    requires P.Inv(s.proto) && Recorded(s) && P.Enabled(s.proto, P.Commit(p)) && Agree(s, h)
    ensures forall u <- s.updates ::
              u.op in Committed(P.Next(s.proto, P.Commit(p)).commits) <==> u.op in h.committed + h.open
  {
    CurrentListed(s);
    var cs, cs' := s.proto.commits, P.Next(s.proto, P.Commit(p)).commits;
    if s.proto.lh != [] {
      assert cs'[..|cs|] == cs;
    }
  }

  lemma CommitAgrees(s: System, lg: Area, h: Notes, p: nat)
    requires P.Inv(s.proto) && Recorded(s) && R.GoodMachine(s.mach, lg) && Enabled(s, lg, Commit(p)) && Agree(s, h)
    ensures Agree(Next(s, lg, Commit(p)), Noted(h, Commit(p)))
  {
    CommitTakes(s, h, p);
  }

  /** After a crash nothing is under way. */
  lemma CrashAgrees(s: P.State, h: Notes)
    requires s.nextOp == h.begun && Numbered(h)
    ensures var h' := h.(listed := {}, open := {});
            Placed(Rebooted(s), h') && Open(Rebooted(s), h') && Numbered(h') && SameList(Rebooted(s).lh, h'.listed)
  {
  }

  lemma CommitCrashAgrees(s: System, lg: Area, h: Notes, p: nat, k: nat)
    requires P.Inv(s.proto) && Recorded(s) && R.GoodMachine(s.mach, lg) && Enabled(s, lg, CommitCrash(p, k))
    requires Agree(s, h) && |s.proto.lh| == |h.listed|
    ensures Agree(Next(s, lg, CommitCrash(p, k)), Noted(h, CommitCrash(p, k)))
  {
    var h' := h.(committed := h.committed + if k > |h.listed| then h.open else {}, open := {});
    CrashAgrees(if k > |s.proto.lh| then P.Next(s.proto, P.Commit(p)) else s.proto, h');
    CommitTakes(s, h, p);
  }

  lemma EventAgrees(s: System, lg: Area, d0: Disk, h: Notes, e: Event)
    requires Inv(s, lg, d0) && Enabled(s, lg, e) && Agree(s, h)
    ensures Agree(Next(s, lg, e), Noted(h, e))
  {
    match e
    case Step(x) => StepAgrees(s, lg, h, x);
    case LogWrite(p, data) => LogWriteAgrees(s, lg, h, p, data);
    case Commit(p) => CommitAgrees(s, lg, h, p);
    case CommitCrash(p, k) =>
      ListSize(s.proto.lh, h.listed);
      CommitCrashAgrees(s, lg, h, p, k);
    case Crash => CrashAgrees(s.proto, h);
    case _ =>
  }

  lemma {:induction false} RunAgrees(s: System, lg: Area, d0: Disk, h: Notes, es: seq<Event>)
    requires Inv(s, lg, d0) && CanRun(s, lg, es) && Agree(s, h)
    ensures Agree(Exec(s, lg, es), NotesOf(h, es))
    decreases |es|
  {
    if es != [] {
      EventAgrees(s, lg, d0, h, es[0]);
      EventKeeps(s, lg, d0, es[0]);
      RunAgrees(Next(s, lg, es[0]), lg, d0, Noted(h, es[0]), es[1..]);
    }
  }

  // ----- the main result -----

  /** Whatever the processes do, and wherever the machine crashes: a machine that is up
      has on its disk the log_writes of exactly the committed operations, in order, and
      in its cache those of the open ones too. No operation is both, and with none under
      way none is open and everything is on the disk. */
  lemma Durable(s0: System, lg: Area, es: seq<Event>)
    requires Start(s0, lg) && CanRun(s0, lg, es)
    ensures
      var s, d0, h := Exec(s0, lg, es), s0.mach.disk, NotesOf(NOTHING, es);
      && |s.mach.disk| == |s.cached| == |d0|
      && (s.mach.up ==> forall b: nat | Home(d0, lg, b) ::
            && s.mach.disk[b] == Effect(d0, h.updates, h.committed)[b]
            && s.cached[b] == Effect(d0, h.updates, h.committed + h.open)[b])
      && h.committed !! h.open
      && (s.proto.outstanding == 0 && !s.proto.committing ==> h.open == {})
  {
    StartInv(s0, lg);
    var s, d0, h := Exec(s0, lg, es), s0.mach.disk, NotesOf(NOTHING, es);
    RunInv(s0, lg, d0, es);
    RunAgrees(s0, lg, d0, NOTHING, es);
    var com, cur := Committed(s.proto.commits), s.proto.current;
    if s.mach.up {
      forall b: nat | Home(d0, lg, b)
        ensures s.mach.disk[b] == Effect(d0, h.updates, h.committed)[b]
        ensures s.cached[b] == Effect(d0, h.updates, h.committed + h.open)[b]
      {
        UpMeans(s.mach, lg, Due(s, d0), b);
        EffectAt(d0, s.updates, com, h.committed, b);
        EffectAt(d0, s.updates, com + cur, h.committed + h.open, b);
      }
    }
  }

  /** What is committed stays committed, whatever happens next. */
  lemma {:induction false} StaysCommitted(h: Notes, es: seq<Event>)
    ensures h.committed <= NotesOf(h, es).committed
    ensures h.updates <= NotesOf(h, es).updates
    decreases |es|
  {
    if es != [] {
      StaysCommitted(Noted(h, es[0]), es[1..]);
    }
  }
}
