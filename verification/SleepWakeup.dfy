/** sleep/wakeup (proc.c) under two locks that use it: acquiresleep/releasesleep
    (sleeplock.c), which wake before releasing the spinlock, and
    mutex_lock/mutex_unlock (proc.c), which wake after releasing it. Any number of
    processes interleave; a step is one action between two points where another
    processor can get in. */
module SleepWakeup {
  import opened Common

  datatype Kind = SleepLock | Mutex

  /** Program points of one process. `lk` is the spinlock inside the lock. */
  datatype Pc =
    | Idle
    // acquiresleep / mutex_lock
    | WantLk           // acquire(lk)
    | Testing          // holds lk: while (locked)
    | Taken            // holds lk: locked = 1 and pid set, release(lk) next
    | Holding          // has the lock
    // sleep(chan, lk)
    | WantPtable       // holds lk: acquire(ptable.lock)
    | BothHeld         // holds lk and ptable.lock: release(lk) next
    | GoingDown        // holds ptable.lock: chan, SLEEPING, sched()
    | Asleep           // SLEEPING on chan
    | Runnable         // made RUNNABLE, not yet resumed
    | Resumed          // scheduled again, holds ptable.lock: chan = 0, release
    // releasesleep / mutex_unlock
    | WantLkToFree     // acquire(lk)
    | Freeing          // holds lk: checks (mutex), clears locked and pid
    | Refused          // holds lk: not the owner, release(lk) next (mutex)
    | WakeUnderLk      // holds lk: wakeup acquires ptable.lock (sleep lock)
    | WakingUnderLk    // holds lk and ptable.lock: wakeup1
    | WokenUnderLk     // holds lk and ptable.lock: release(ptable.lock) next
    | DoneUnderLk      // holds lk: release(lk) next
    | Freed            // holds lk: release(lk) next, wakeup still to come (mutex)
    | WakeAfter        // holds nothing: wakeup acquires ptable.lock
    | WakingAfter      // holds ptable.lock: wakeup1
    | WokenAfter       // holds ptable.lock: release(ptable.lock) next

  datatype State = State(
    kind: Kind,
    pcs: seq<Pc>,
    lk: Option<nat>,      // holder of the spinlock
    ptable: Option<nat>,  // holder of ptable.lock
    locked: bool,
    pid: Option<nat>      // the lock's pid field; None for 0 or -1
  )

  datatype Event =
    | Lock(p: nat)
    | Unlock(p: nat)
    | Go(p: nat)
    | Kill(p: nat)

  predicate HoldsLk(c: Pc) {
    || c.Testing? || c.Taken? || c.WantPtable? || c.BothHeld? || c.Freeing? || c.Refused?
    || c.WakeUnderLk? || c.WakingUnderLk? || c.WokenUnderLk? || c.DoneUnderLk? || c.Freed?
  }

  predicate HoldsPtable(c: Pc) {
    || c.BothHeld? || c.GoingDown? || c.Resumed?
    || c.WakingUnderLk? || c.WokenUnderLk? || c.WakingAfter? || c.WokenAfter?
  }

  /** Has cleared `locked` and not yet run wakeup1. */
  predicate OwesWakeup(c: Pc) {
    c.WakeUnderLk? || c.WakingUnderLk? || c.Freed? || c.WakeAfter? || c.WakingAfter?
  }

  predicate Enabled(s: State, e: Event) {
    && e.p < |s.pcs|
    && var c := s.pcs[e.p];
       match e
       // mutex_lock returns -3 at once to the process whose pid is in the mutex
       case Lock(p) => c.Idle? && (s.kind.Mutex? ==> s.pid != Some(p))
       // anyone may call mutex_unlock; releasesleep is called by the holder
       case Unlock(_) => c.Holding? || (c.Idle? && s.kind.Mutex?)
       case Go(_) =>
         (match c
          case Idle => false
          case Holding => false
          case Asleep => false
          case WantLk => s.lk.None?
          case WantLkToFree => s.lk.None?
          case WantPtable => s.ptable.None?
          case Runnable => s.ptable.None?
          case WakeUnderLk => s.ptable.None?
          case WakeAfter => s.ptable.None?
          case _ => true)
       // kill() takes ptable.lock and makes a sleeper RUNNABLE
       case Kill(_) => c.Asleep? && s.ptable.None?
  }

  /** wakeup1(chan) */
  function WakeAll(cs: seq<Pc>): (r: seq<Pc>)
    ensures |r| == |cs|
    ensures forall i | 0 <= i < |cs| :: r[i] == if cs[i].Asleep? then Runnable else cs[i]
  {
    seq(|cs|, i requires 0 <= i < |cs| => if cs[i].Asleep? then Runnable else cs[i])
  }

  function Goto(s: State, p: nat, c: Pc): State
    requires p < |s.pcs|
  {
    s.(pcs := s.pcs[p := c])
  }

  function Next(s: State, e: Event): State
    requires Enabled(s, e)
  {
    var p := e.p;
    match e
    case Lock(_) => Goto(s, p, WantLk)
    case Unlock(_) => Goto(s, p, WantLkToFree)
    case Kill(_) => Goto(s, p, Runnable)
    case Go(_) =>
      match s.pcs[p]
      case WantLk => Goto(s, p, Testing).(lk := Some(p))
      case Testing =>
        if s.locked then Goto(s, p, WantPtable)
        else Goto(s, p, Taken).(locked := true, pid := Some(p))
      case Taken => Goto(s, p, Holding).(lk := None)
      case WantPtable => Goto(s, p, BothHeld).(ptable := Some(p))
      case BothHeld => Goto(s, p, GoingDown).(lk := None)
      case GoingDown => Goto(s, p, Asleep).(ptable := None)
      case Runnable => Goto(s, p, Resumed).(ptable := Some(p))
      case Resumed => Goto(s, p, WantLk).(ptable := None)
      case WantLkToFree => Goto(s, p, Freeing).(lk := Some(p))
      case Freeing =>
        if s.kind.Mutex? && s.pid != Some(p) then Goto(s, p, Refused)
        else Goto(s, p, if s.kind.Mutex? then Freed else WakeUnderLk).(locked := false, pid := None)
      case Refused => Goto(s, p, Idle).(lk := None)
      case WakeUnderLk => Goto(s, p, WakingUnderLk).(ptable := Some(p))
      case WakingUnderLk => s.(pcs := WakeAll(s.pcs[p := WokenUnderLk]))
      case WokenUnderLk => Goto(s, p, DoneUnderLk).(ptable := None)
      case DoneUnderLk => Goto(s, p, Idle).(lk := None)
      case Freed => Goto(s, p, WakeAfter).(lk := None)
      case WakeAfter => Goto(s, p, WakingAfter).(ptable := Some(p))
      case WakingAfter => s.(pcs := WakeAll(s.pcs[p := WokenAfter]))
      case WokenAfter => Goto(s, p, Idle).(ptable := None)
      case _ => s
  }

  // ----- the invariant -----

  /** The spinlocks are held by whoever is at a point that holds them. */
  ghost predicate Spinlocks(s: State) {
    && (s.lk.Some? ==> s.lk.value < |s.pcs|)
    && (s.ptable.Some? ==> s.ptable.value < |s.pcs|)
    && forall i | 0 <= i < |s.pcs| ::
         (HoldsLk(s.pcs[i]) <==> s.lk == Some(i)) && (HoldsPtable(s.pcs[i]) <==> s.ptable == Some(i))
  }

  /** Points a process with the lock can be at, in the order it reaches them. */
  predicate MayOwn(c: Pc) {
    c.Taken? || c.Holding? || c.WantLkToFree? || c.Freeing?
  }

  /** Points only a process with the lock can be at. */
  predicate MustOwn(k: Kind, c: Pc) {
    c.Taken? || c.Holding? || (k.SleepLock? && (c.WantLkToFree? || c.Freeing?))
  }

  /** locked and pid say who has the lock. */
  ghost predicate Ownership(s: State) {
    && (s.locked <==> s.pid.Some?)
    && (s.pid.Some? ==> s.pid.value < |s.pcs| && MayOwn(s.pcs[s.pid.value]))
    && (forall i | 0 <= i < |s.pcs| && MustOwn(s.kind, s.pcs[i]) :: s.pid == Some(i))
  }

  /** The lock is held or somebody still has a wakeup to run. */
  ghost predicate WakeupComing(s: State) {
    s.locked || exists i | 0 <= i < |s.pcs| :: OwesWakeup(s.pcs[i])
  }

  /** No wakeup is lost: whoever sleeps, or has committed itself to sleep, can
      count on one. */
  ghost predicate NotLost(s: State) {
    && (forall i | 0 <= i < |s.pcs| && (s.pcs[i].WantPtable? || s.pcs[i].BothHeld?) :: s.locked)
    && ((exists i | 0 <= i < |s.pcs| :: s.pcs[i].GoingDown? || s.pcs[i].Asleep?) ==> WakeupComing(s))
  }

  ghost predicate Inv(s: State) {
    Spinlocks(s) && Ownership(s) && NotLost(s)
  }

  ghost predicate Init(s: State) {
    && (forall i | 0 <= i < |s.pcs| :: s.pcs[i].Idle?)
    && s.lk.None? && s.ptable.None? && !s.locked && s.pid.None?
  }

  /** A step moves one process; a wakeup also moves the sleepers. */
  lemma Others(s: State, e: Event, i: nat)
    requires Enabled(s, e) && i < |s.pcs| && i != e.p
    ensures |Next(s, e).pcs| == |s.pcs| && Next(s, e).kind == s.kind
    ensures Next(s, e).pcs[i] == s.pcs[i] || (s.pcs[i].Asleep? && Next(s, e).pcs[i].Runnable?)
    ensures e.Go? && (s.pcs[e.p].WakingUnderLk? || s.pcs[e.p].WakingAfter?) ==> !Next(s, e).pcs[i].Asleep?
  {
  }

  /** A step takes a spinlock only when it is free and drops only its own. */
  ghost predicate Moves(lk: Option<nat>, lk': Option<nat>, p: nat, had: bool, has: bool) {
    lk' == (if has then Some(p) else if had then None else lk) && (has && !had ==> lk.None?)
  }

  lemma LkMoves(s: State, e: Event)
    requires Enabled(s, e) && (HoldsLk(s.pcs[e.p]) <==> s.lk == Some(e.p))
    ensures |Next(s, e).pcs| == |s.pcs|
    ensures Moves(s.lk, Next(s, e).lk, e.p, HoldsLk(s.pcs[e.p]), HoldsLk(Next(s, e).pcs[e.p]))
  {
  }

  lemma PtableMoves(s: State, e: Event)
    requires Enabled(s, e) && (HoldsPtable(s.pcs[e.p]) <==> s.ptable == Some(e.p))
    ensures |Next(s, e).pcs| == |s.pcs|
    ensures Moves(s.ptable, Next(s, e).ptable, e.p, HoldsPtable(s.pcs[e.p]), HoldsPtable(Next(s, e).pcs[e.p]))
  {
  }

  lemma SpinlocksKept(s: State, e: Event)
    requires Spinlocks(s) && Enabled(s, e)
    ensures Spinlocks(Next(s, e))
  {
    var s' := Next(s, e);
    LkMoves(s, e);
    PtableMoves(s, e);
    forall i | 0 <= i < |s'.pcs|
      ensures (HoldsLk(s'.pcs[i]) <==> s'.lk == Some(i)) && (HoldsPtable(s'.pcs[i]) <==> s'.ptable == Some(i))
    {
      assert HoldsLk(s.pcs[e.p]) <==> s.lk == Some(e.p);
      assert HoldsPtable(s.pcs[e.p]) <==> s.ptable == Some(e.p);
      if i != e.p {
        Others(s, e, i);
      }
    }
  }

  /** locked and pid change hands in two places only. */
  lemma OwnerMoves(s: State, e: Event)
    requires Enabled(s, e) && (s.locked <==> s.pid.Some?)
    ensures
      var s', c, c' := Next(s, e), s.pcs[e.p], Next(s, e).pcs[e.p];
      && (s'.locked <==> s'.pid.Some?)
      && s'.kind == s.kind
      && (c'.Taken? ==> c.Testing? && s.pid.None? && s'.pid == Some(e.p))
      && (OwesWakeup(c') && !OwesWakeup(c) ==>
            c.Freeing? && s'.pid.None? && (s.kind.Mutex? ==> s.pid == Some(e.p)))
      && (!c'.Taken? && !(OwesWakeup(c') && !OwesWakeup(c)) ==> s'.pid == s.pid)
      && (MayOwn(c') ==> MayOwn(c) || c'.Taken? || (s.kind.Mutex? && c.Idle? && !MustOwn(s.kind, c')))
      && (MayOwn(c) ==> MayOwn(c') || c.Freeing?)
      && (MustOwn(s.kind, c') ==> MustOwn(s.kind, c) || c'.Taken?)
      && (c.Freeing? && !OwesWakeup(c') ==> s.kind.Mutex? && s.pid != Some(e.p))
  {
  }

  lemma OwnershipKept(s: State, e: Event)
    requires Ownership(s) && Enabled(s, e)
    ensures Ownership(Next(s, e))
  {
    var s' := Next(s, e);
    OwnerMoves(s, e);
    if s'.pid.Some? && s'.pid.value != e.p {
      Others(s, e, s'.pid.value);
    }
    forall i | 0 <= i < |s'.pcs| && MustOwn(s'.kind, s'.pcs[i])
      ensures s'.pid == Some(i)
    {
      if i != e.p {
        Others(s, e, i);
        assert s.pid == Some(i);
      }
    }
  }

  lemma NotLostKept(s: State, e: Event)
    requires Inv(s) && Enabled(s, e)
    ensures NotLost(Next(s, e))
  {
    var s' := Next(s, e);
    forall i | 0 <= i < |s'.pcs| && (s'.pcs[i].WantPtable? || s'.pcs[i].BothHeld?)
      ensures s'.locked
    {
      if i != e.p {
        Others(s, e, i);
      }
    }
    if i :| 0 <= i < |s'.pcs| && (s'.pcs[i].GoingDown? || s'.pcs[i].Asleep?) {
      if i != e.p {
        Others(s, e, i);
      }
      SleeperKept(s, e, i);
    }
  }

  /** A sleeper that is still there after a step still has its wakeup coming. */
  lemma SleeperKept(s: State, e: Event, i: nat)
    requires Inv(s) && Enabled(s, e) && i < |Next(s, e).pcs|
    requires Next(s, e).pcs[i].GoingDown? || Next(s, e).pcs[i].Asleep?
    ensures WakeupComing(Next(s, e))
  {
    var s' := Next(s, e);
    if i != e.p {
      Others(s, e, i);
    }
    if !s'.locked {
      if s.locked {
        assert OwesWakeup(s'.pcs[e.p]);
      } else {
        assert s.pcs[i].GoingDown? || s.pcs[i].Asleep?;
        var j :| 0 <= j < |s.pcs| && OwesWakeup(s.pcs[j]);
        if j != e.p {
          Others(s, e, j);
        }
        assert OwesWakeup(s'.pcs[j]);
      }
    }
  }

  lemma StepInv(s: State, e: Event)
    requires Inv(s) && Enabled(s, e)
    ensures Inv(Next(s, e))
  {
    SpinlocksKept(s, e);
    OwnershipKept(s, e);
    NotLostKept(s, e);
  }

  // ----- runs -----

  ghost predicate CanRun(s: State, es: seq<Event>)
    decreases |es|
  {
    es == [] || (Enabled(s, es[0]) && CanRun(Next(s, es[0]), es[1..]))
  }

  ghost function Exec(s: State, es: seq<Event>): State
    requires CanRun(s, es)
    decreases |es|
  {
    if es == [] then s else Exec(Next(s, es[0]), es[1..])
  }

  lemma {:induction false} RunInv(s: State, es: seq<Event>)
    requires Inv(s) && CanRun(s, es)
    ensures Inv(Exec(s, es))
    decreases |es|
  {
    if es != [] {
      StepInv(s, es[0]);
      RunInv(Next(s, es[0]), es[1..]);
    }
  }

  /** In every run of either lock at most one process has it. */
  lemma MutualExclusion(s0: State, es: seq<Event>, p: nat, q: nat)
    requires Init(s0) && CanRun(s0, es)
    requires p < |Exec(s0, es).pcs| && q < |Exec(s0, es).pcs|
    requires Exec(s0, es).pcs[p].Holding? && Exec(s0, es).pcs[q].Holding?
    ensures p == q
  {
    RunInv(s0, es);
  }

  /** In every run of either lock, a process asleep on it finds the lock held or
      a wakeup still to be run. */
  lemma NoLostWakeup(s0: State, es: seq<Event>, p: nat)
    requires Init(s0) && CanRun(s0, es)
    requires p < |Exec(s0, es).pcs| && Exec(s0, es).pcs[p].Asleep?
    ensures WakeupComing(Exec(s0, es))
  {
    RunInv(s0, es);
  }

  /** In every run of either lock, a sleeper never waits on a machine that is
      stuck: some process can take a step of its own, or the holder can unlock. */
  lemma NeverStuck(s0: State, es: seq<Event>, p: nat)
    requires Init(s0) && CanRun(s0, es)
    requires p < |Exec(s0, es).pcs| && Exec(s0, es).pcs[p].Asleep?
    ensures exists q: nat :: Enabled(Exec(s0, es), Go(q)) ||
              (q < |Exec(s0, es).pcs| && Exec(s0, es).pcs[q].Holding? && Enabled(Exec(s0, es), Unlock(q)))
  {
    RunInv(s0, es);
    var q := Mover(Exec(s0, es), p);
  }

  lemma Mover(s: State, p: nat) returns (q: nat)
    requires Inv(s) && p < |s.pcs| && s.pcs[p].Asleep?
    ensures q < |s.pcs| && (Enabled(s, Go(q)) || (s.pcs[q].Holding? && Enabled(s, Unlock(q))))
  {
    if i :| 0 <= i < |s.pcs| && HoldsPtable(s.pcs[i]) {
      q := i;
    } else if i :| 0 <= i < |s.pcs| && HoldsLk(s.pcs[i]) {
      q := i;
    } else if s.locked {
      q := s.pid.value;
    } else {
      q :| 0 <= q < |s.pcs| && OwesWakeup(s.pcs[q]);
    }
  }
}
