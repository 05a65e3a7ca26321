/** Whole calls of acquiresleep and mutex_lock, of releasesleep and mutex_unlock, over the
    runs of SleepWakeup: what has happened by the time the call returns (sleeplock.c, proc.c). */
module LockCalls {
  import opened Common
  import opened SleepWakeup

  /** A run with all its states: ss[k] is the one before event es[k]. */
  ghost predicate Run(ss: seq<State>, es: seq<Event>) {
    |ss| == |es| + 1 && Init(ss[0]) && forall k: nat | k < |es| :: StepAt(ss, es, k)
  }

  ghost predicate StepAt(ss: seq<State>, es: seq<Event>, k: nat)
    requires |ss| == |es| + 1 && k < |es|
  {
    Enabled(ss[k], es[k]) && ss[k + 1] == Next(ss[k], es[k])
  }

  lemma {:induction false} RunStates(ss: seq<State>, es: seq<Event>, k: nat)
    requires Run(ss, es) && k <= |es|
    ensures Inv(ss[k]) && |ss[k].pcs| == |ss[0].pcs|
    decreases k
  {
    if k > 0 {
      RunStates(ss, es, k - 1);
      assert StepAt(ss, es, k - 1);
      StepInv(ss[k - 1], es[k - 1]);
      SameProcesses(ss[k - 1], es[k - 1]);
    }
  }

  lemma SameProcesses(s: State, e: Event)
    requires Enabled(s, e)
    ensures |Next(s, e).pcs| == |s.pcs|
  {
  }

  // ----- taking the lock -----

  /** Inside acquiresleep or mutex_lock and without the lock, or with `lk` still to drop. */
  predicate Acquiring(c: Pc) {
    || c.WantLk? || c.Testing? || c.Taken? || c.WantPtable? || c.BothHeld?
    || c.GoingDown? || c.Asleep? || c.Runnable? || c.Resumed?
  }

  predicate InLock(s: State, p: nat) {
    p < |s.pcs| && Acquiring(s.pcs[p])
  }

  predicate Held(s: State, p: nat) {
    p < |s.pcs| && s.pcs[p].Holding? && s.locked && s.pid == Some(p)
  }

  predicate Outside(s: State, p: nat) {
    p < |s.pcs| && s.pcs[p].Idle?
  }

  lemma AcquireStep(s: State, e: Event, p: nat)
    requires Inv(s) && Enabled(s, e) && InLock(s, p)
    ensures InLock(Next(s, e), p) || Held(Next(s, e), p)
  {
    StepInv(s, e);
    if p != e.p {
      Others(s, e, p);
    }
  }

  lemma {:induction false} AcquirePath(ss: seq<State>, es: seq<Event>, p: nat, i: nat, j: nat) returns (k: nat)
    requires Run(ss, es) && i <= j <= |es| && InLock(ss[i], p) && Outside(ss[j], p)
    ensures i <= k <= j && Held(ss[k], p)
    decreases j - i
  {
    RunStates(ss, es, i);
    assert StepAt(ss, es, i);
    AcquireStep(ss[i], es[i], p);
    if InLock(ss[i + 1], p) {
      k := AcquirePath(ss, es, p, i + 1, j);
    } else {
      k := i + 1;
    }
  }

  /** In every run of either lock: a process that called to take the lock and is back
      outside has had it in between. */
  lemma LockEndsHeld(ss: seq<State>, es: seq<Event>, p: nat, i: nat, j: nat)
    requires Run(ss, es) && i < j <= |es| && es[i] == Lock(p) && Outside(ss[j], p)
    ensures exists k: nat :: i < k <= j && Held(ss[k], p)
  {
    assert StepAt(ss, es, i);
    var k := AcquirePath(ss, es, p, i + 1, j);
  }

  /** A process that has been woken and finds the lock free gets it by its own steps. */
  lemma WokenGets(s: State, p: nat)
    requires p < |s.pcs| && s.pcs[p].Runnable? && !s.locked && s.lk.None? && s.ptable.None?
    ensures CanRun(s, Steps(p, 5)) && Held(Exec(s, Steps(p, 5)), p)
  {
    var s2 := Next(Next(s, Go(p)), Go(p));
    assert s2 == Goto(s, p, WantLk);
    Takes(s2, p);
    GoOn(Next(s, Go(p)), p, 3);
    GoOn(s, p, 4);
  }

  lemma Takes(s: State, p: nat)
    requires p < |s.pcs| && s.pcs[p].WantLk? && !s.locked && s.lk.None?
    ensures CanRun(s, Steps(p, 3)) && Held(Exec(s, Steps(p, 3)), p)
  {
    var s1 := Next(s, Go(p));
    var s2 := Next(s1, Go(p));
    GoOn(s2, p, 0);
    GoOn(s1, p, 1);
    GoOn(s, p, 2);
  }

  function Steps(p: nat, n: nat): seq<Event> {
    seq(n, _ => Go(p))
  }

  lemma GoOn(s: State, p: nat, n: nat)
    requires Enabled(s, Go(p)) && CanRun(Next(s, Go(p)), Steps(p, n))
    ensures CanRun(s, Steps(p, n + 1)) && Exec(s, Steps(p, n + 1)) == Exec(Next(s, Go(p)), Steps(p, n))
  {
    assert Steps(p, n + 1)[1..] == Steps(p, n);
  }

  /** kill wakes a sleeper, and it looks at the lock again before anything else. */
  lemma KillRetries(s: State, p: nat)
    requires p < |s.pcs| && s.pcs[p].Asleep? && s.lk.None? && s.ptable.None?
    ensures Enabled(s, Kill(p)) && CanRun(Next(s, Kill(p)), Steps(p, 3))
    ensures Exec(Next(s, Kill(p)), Steps(p, 3)) == Goto(s, p, Testing).(lk := Some(p))
  {
    var s1 := Next(s, Kill(p));
    var s2 := Next(s1, Go(p));
    var s3 := Next(s2, Go(p));
    assert s3 == Goto(s, p, WantLk);
    GoOn(s3, p, 0);
    GoOn(s2, p, 1);
    GoOn(s1, p, 2);
  }

  // ----- giving it back -----

  /** Called to give the lock back and has it still. */
  predicate InUnlock(s: State, p: nat) {
    p < |s.pcs| && (s.pcs[p].WantLkToFree? || s.pcs[p].Freeing?) && s.pid == Some(p)
  }

  /** The lock is free again, and p has yet to wake the sleepers. */
  predicate FreedBy(s: State, p: nat) {
    p < |s.pcs| && OwesWakeup(s.pcs[p]) && !s.locked
  }

  predicate Owing(s: State, p: nat) {
    p < |s.pcs| && OwesWakeup(s.pcs[p])
  }

  /** p has run its wakeup, and nobody sleeps on the lock. */
  predicate WokenBy(s: State, p: nat) {
    p < |s.pcs| && (s.pcs[p].WokenUnderLk? || s.pcs[p].WokenAfter?) && forall q <- s.pcs :: !q.Asleep?
  }

  lemma FreeStep(s: State, e: Event, p: nat)
    requires Inv(s) && Enabled(s, e) && InUnlock(s, p)
    ensures FreedBy(Next(s, e), p) || InUnlock(Next(s, e), p)
  {
    if p != e.p {
      Others(s, e, p);
      OwnerMoves(s, e);
      assert MustOwn(s.kind, s.pcs[e.p]) ==> s.pid == Some(e.p);
    }
  }

  lemma WakeStep(s: State, e: Event, p: nat)
    requires Enabled(s, e) && Owing(s, p)
    ensures Owing(Next(s, e), p) || WokenBy(Next(s, e), p)
  {
    if p != e.p {
      Others(s, e, p);
    }
  }

  lemma {:induction false} FreePath(ss: seq<State>, es: seq<Event>, p: nat, i: nat, j: nat) returns (k: nat)
    requires Run(ss, es) && i <= j <= |es| && InUnlock(ss[i], p) && Outside(ss[j], p)
    ensures i <= k <= j && FreedBy(ss[k], p)
    decreases j - i
  {
    RunStates(ss, es, i);
    assert StepAt(ss, es, i);
    FreeStep(ss[i], es[i], p);
    if FreedBy(ss[i + 1], p) {
      k := i + 1;
    } else {
      k := FreePath(ss, es, p, i + 1, j);
    }
  }

  lemma {:induction false} WakePath(ss: seq<State>, es: seq<Event>, p: nat, i: nat, j: nat) returns (k: nat)
    requires Run(ss, es) && i <= j <= |es| && Owing(ss[i], p) && Outside(ss[j], p)
    ensures i <= k <= j && WokenBy(ss[k], p)
    decreases j - i
  {
    assert StepAt(ss, es, i);
    WakeStep(ss[i], es[i], p);
    if Owing(ss[i + 1], p) {
      k := WakePath(ss, es, p, i + 1, j);
    } else {
      k := i + 1;
    }
  }

  /** In every run of either lock: when the owner's call to give the lock back has
      returned, the lock was freed in between and after that all its sleepers were woken. */
  lemma UnlockEndsFree(ss: seq<State>, es: seq<Event>, p: nat, i: nat, j: nat)
    requires Run(ss, es) && i < j <= |es| && es[i] == Unlock(p) && ss[i].pid == Some(p) && Outside(ss[j], p)
    ensures exists k: nat, m: nat :: i < k <= m <= j && FreedBy(ss[k], p) && WokenBy(ss[m], p)
  {
    assert StepAt(ss, es, i);
    var k := FreePath(ss, es, p, i + 1, j);
    var m := WakePath(ss, es, p, k, j);
  }

  /** Called mutex_unlock on a mutex that another process has. */
  predicate NotOwner(s: State, p: nat) {
    && p < |s.pcs| && s.pid != Some(p)
    && (s.pcs[p].WantLkToFree? || s.pcs[p].Freeing? || s.pcs[p].Refused?)
  }

  predicate SameLock(s: State, s': State) {
    s'.locked == s.locked && s'.pid == s.pid
  }

  /** mutex_unlock by another process than the owner leaves the lock as it is. */
  lemma RefusedStep(s: State, e: Event, p: nat)
    requires Inv(s) && Enabled(s, e) && s.kind.Mutex? && NotOwner(s, p)
    ensures NotOwner(Next(s, e), p) || Outside(Next(s, e), p)
    ensures Next(s, e).kind == s.kind && (e.p == p ==> SameLock(s, Next(s, e)))
  {
    if p != e.p {
      Others(s, e, p);
    }
  }

  /** The lock is the same before and after every step of p from i to k. */
  ghost predicate Spared(ss: seq<State>, es: seq<Event>, p: nat, i: nat, k: nat)
    requires |ss| == |es| + 1 && k <= |es|
  {
    forall m: nat | i <= m < k && es[m].p == p :: SameLock(ss[m], ss[m + 1])
  }

  lemma {:induction false} RefusedPath(ss: seq<State>, es: seq<Event>, p: nat, i: nat, j: nat) returns (k: nat)
    requires Run(ss, es) && i <= j <= |es| && ss[i].kind.Mutex? && NotOwner(ss[i], p) && Outside(ss[j], p)
    ensures i < k <= j && Outside(ss[k], p) && Spared(ss, es, p, i, k)
    decreases j - i
  {
    RunStates(ss, es, i);
    assert StepAt(ss, es, i);
    RefusedStep(ss[i], es[i], p);
    if Outside(ss[i + 1], p) {
      k := i + 1;
    } else {
      k := RefusedPath(ss, es, p, i + 1, j);
    }
  }

  /** In every run: mutex_unlock called without owning the mutex returns without having
      touched it. */
  lemma UnlockRefused(ss: seq<State>, es: seq<Event>, p: nat, i: nat, j: nat)
    requires Run(ss, es) && i < j <= |es| && es[i] == Unlock(p) && ss[i].kind.Mutex?
    requires ss[i].pid != Some(p) && Outside(ss[j], p)
    ensures exists k: nat :: i < k <= j && Outside(ss[k], p) && Spared(ss, es, p, i, k)
  {
    assert StepAt(ss, es, i);
    var k := RefusedPath(ss, es, p, i + 1, j);
  }
}
