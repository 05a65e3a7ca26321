/** What the calls of pipewrite and piperead move, over the runs of PipeRuns: every write
    stores its own bytes in order, however often it sleeps in between, and the reads
    deliver the stored bytes in order, each once (pipe.c). */
module PipeCalls {
  import opened Blocks
  import opened Common
  import opened PipeRuns
  import Ring = Pipe

  /** A run with all its states: ss[k] is the one before event es[k]. */
  ghost predicate Run(ss: seq<State>, es: seq<Event>) {
    |ss| == |es| + 1 && Init(ss[0]) && forall k: nat | k < |es| :: StepAt(ss, es, k)
  }

  ghost predicate StepAt(ss: seq<State>, es: seq<Event>, k: nat)
    requires |ss| == |es| + 1 && k < |es|
  {
    Enabled(ss[k], es[k]) && ss[k + 1] == Next(ss[k], es[k])
  }

  /** The step is one of p's own. */
  predicate By(e: Event, p: nat) {
    (e.Read? || e.Write? || e.Resume?) && e.p == p
  }

  predicate Calls(e: Event, p: nat) {
    (e.Read? || e.Write?) && e.p == p
  }

  /** What a step put into the pipe. */
  ghost function Added(s: State, s': State): seq<Byte> {
    if |s.stored| <= |s'.stored| then s'.stored[|s.stored|..] else []
  }

  /** What a step took out of it. */
  ghost function Taken(s: State, s': State): seq<Byte> {
    if s.delivered <= s'.delivered <= |s.stored| then s.stored[s.delivered..s'.delivered] else []
  }

  /** What p's own steps from i to j put into the pipe. */
  ghost function AddedBy(ss: seq<State>, es: seq<Event>, p: nat, i: nat, j: nat): seq<Byte>
    requires |ss| == |es| + 1 && i <= j <= |es|
    decreases j
  {
    if i == j then []
    else AddedBy(ss, es, p, i, j - 1) + if By(es[j - 1], p) then Added(ss[j - 1], ss[j]) else []
  }

  /** What p's own steps from i to j took out of it. */
  ghost function TakenBy(ss: seq<State>, es: seq<Event>, p: nat, i: nat, j: nat): seq<Byte>
    requires |ss| == |es| + 1 && i <= j <= |es|
    decreases j
  {
    if i == j then []
    else TakenBy(ss, es, p, i, j - 1) + if By(es[j - 1], p) then Taken(ss[j - 1], ss[j]) else []
  }

  // ----- one step -----

  /** Only a writer's own step adds anything, and only at the end; only a reader's takes. */
  lemma StepMoves(s: State, e: Event)
    requires Enabled(s, e)
    ensures Next(s, e).stored == s.stored + Added(s, Next(s, e))
    ensures s.delivered <= Next(s, e).delivered <= |s.stored|
    ensures Added(s, Next(s, e)) != [] ==> e.Write? || (e.Resume? && s.procs[e.p].at.WriteWoken?)
    ensures Taken(s, Next(s, e)) != [] ==> e.Read? || (e.Resume? && s.procs[e.p].at.ReadWoken?)
  {
  }

  /** Others can only wake a process. */
  lemma StepElse(s: State, e: Event, p: nat)
    requires Enabled(s, e) && p < |s.procs| && !By(e, p)
    ensures |Next(s, e).procs| == |s.procs|
    ensures Next(s, e).procs[p].at == s.procs[p].at || Next(s, e).procs[p].at == Woken(s.procs[p].at)
  {
  }

  // ----- everything that goes in and out -----

  ghost function AllAdded(ss: seq<State>, j: nat): seq<Byte>
    requires j < |ss|
  {
    if j == 0 then [] else AllAdded(ss, j - 1) + Added(ss[j - 1], ss[j])
  }

  ghost function AllTaken(ss: seq<State>, j: nat): seq<Byte>
    requires j < |ss|
  {
    if j == 0 then [] else AllTaken(ss, j - 1) + Taken(ss[j - 1], ss[j])
  }

  /** In every run: what the steps took out, one after the other, is what the steps put
      in, up to a point at most PIPESIZE bytes behind. */
  lemma {:induction false} InOrder(ss: seq<State>, es: seq<Event>, j: nat)
    requires Run(ss, es) && j <= |es|
    ensures AllAdded(ss, j) == ss[j].stored && Bounded(ss[j])
    ensures AllTaken(ss, j) == ss[j].stored[..ss[j].delivered]
    ensures AllTaken(ss, j) <= AllAdded(ss, j) && |AllAdded(ss, j)| <= |AllTaken(ss, j)| + Ring.PIPESIZE
  {
    if j > 0 {
      InOrder(ss, es, j - 1);
      assert StepAt(ss, es, j - 1);
      OneMore(ss[j - 1], es[j - 1]);
    }
  }

  lemma OneMore(s: State, e: Event)
    requires Enabled(s, e)
    ensures Bounded(Next(s, e)) && Next(s, e).stored == s.stored + Added(s, Next(s, e))
    ensures Next(s, e).stored[..Next(s, e).delivered] == s.stored[..s.delivered] + Taken(s, Next(s, e))
  {
    BoundedKept(s, e);
    StepMoves(s, e);
    var s' := Next(s, e);
    assert s'.stored[..s'.delivered] == s.stored[..s'.delivered];
    assert s.stored[..s'.delivered] == s.stored[..s.delivered] + s.stored[s.delivered..s'.delivered];
  }

  lemma BoundedKept(s: State, e: Event)
    requires Enabled(s, e)
    ensures Bounded(Next(s, e))
  {
  }

  // ----- one call -----

  /** How far a write of addr has come: n bytes, and where it is. */
  ghost predicate WriteAt(q: Place, addr: seq<Byte>, n: nat) {
    n <= |addr| && (q == Out || q == WriteWait(addr, n) || q == WriteWoken(addr, n))
  }

  /** The write gave up: the pipe was full, and had no reader or the writer was killed. */
  ghost predicate GivesUp(s: State, p: nat, s': State) {
    && p < |s.procs| && (!s.readopen || s.procs[p].killed)
    && |s'.stored| == s'.delivered + Ring.PIPESIZE
  }

  ghost predicate GaveUp(ss: seq<State>, es: seq<Event>, p: nat, i: nat, j: nat)
    requires |ss| == |es| + 1 && j <= |es|
  {
    exists m: nat :: i <= m < j && By(es[m], p) && GivesUp(ss[m], p, ss[m + 1])
  }

  /** p calls pipewrite, or comes back to it, with byte i of addr the next one to store. */
  predicate OnWrite(s: State, e: Event, p: nat, addr: seq<Byte>, i: nat) {
    || (e == Write(p, addr) && i == 0)
    || (e == Resume(p) && p < |s.procs| && s.procs[p].at == WriteWoken(addr, i))
  }

  lemma WriteStretch(s: State, e: Event, p: nat, addr: seq<Byte>, i: nat) returns (n: nat)
    requires Enabled(s, e) && OnWrite(s, e, p, addr, i)
    ensures i <= n <= |addr| && Added(s, Next(s, e)) == addr[i..n]
    ensures p < |Next(s, e).procs| && WriteAt(Next(s, e).procs[p].at, addr, n)
    ensures Next(s, e).procs[p].at.Out? ==> n == |addr| || GivesUp(s, p, Next(s, e))
  {
    n := i + Stores(s, addr, i);
    assert Next(s, e) == Writing(s, p, addr, i);
  }

  /** p's call, made at i, has not returned before j, and p has made no other. */
  ghost predicate During(ss: seq<State>, es: seq<Event>, p: nat, i: nat, j: nat)
    requires |ss| == |es| + 1
  {
    i < j <= |es| && forall m: nat | i < m < j :: !Calls(es[m], p)
  }

  /** n bytes of addr are stored by the call at i, and p is where that says. */
  ghost predicate Written(ss: seq<State>, es: seq<Event>, p: nat, i: nat, j: nat, addr: seq<Byte>, n: nat)
    requires |ss| == |es| + 1 && i <= j <= |es|
  {
    && n <= |addr| && AddedBy(ss, es, p, i, j) == addr[..n]
    && p < |ss[j].procs| && WriteAt(ss[j].procs[p].at, addr, n)
    && (ss[j].procs[p].at.Out? ==> n == |addr| || GaveUp(ss, es, p, i, j))
  }

  lemma WriteOwn(ss: seq<State>, es: seq<Event>, p: nat, i: nat, j: nat, addr: seq<Byte>, k: nat) returns (n: nat)
    requires |ss| == |es| + 1 && i < j <= |es| && StepAt(ss, es, j - 1) && OnWrite(ss[j - 1], es[j - 1], p, addr, k)
    requires k <= |addr| && AddedBy(ss, es, p, i, j - 1) == addr[..k]
    ensures Written(ss, es, p, i, j, addr, n)
  {
    n := WriteStretch(ss[j - 1], es[j - 1], p, addr, k);
    assert addr[..n] == addr[..k] + addr[k..n];
  }

  lemma WriteOther(ss: seq<State>, es: seq<Event>, p: nat, i: nat, j: nat, addr: seq<Byte>, k: nat)
    requires |ss| == |es| + 1 && i < j <= |es| && StepAt(ss, es, j - 1) && !By(es[j - 1], p)
    requires Written(ss, es, p, i, j - 1, addr, k)
    ensures Written(ss, es, p, i, j, addr, k)
  {
    StepElse(ss[j - 1], es[j - 1], p);
    assert GaveUp(ss, es, p, i, j - 1) ==> GaveUp(ss, es, p, i, j);
  }

  /** In every run: the bytes that one write call has stored, over all its sleeps, are the
      first n of its buffer, where n is where it stands. It returns with all of them
      stored, or from a full pipe without a reader or killed. */
  lemma {:induction false} WriteCall(ss: seq<State>, es: seq<Event>, p: nat, i: nat, j: nat) returns (n: nat)
    requires Run(ss, es) && During(ss, es, p, i, j) && es[i].Write? && es[i].p == p
    ensures Written(ss, es, p, i, j, es[i].addr, n)
    decreases j
  {
    assert StepAt(ss, es, j - 1);
    if j == i + 1 {
      assert AddedBy(ss, es, p, i, i) == es[i].addr[..0];
      n := WriteOwn(ss, es, p, i, j, es[i].addr, 0);
    } else {
      var k := WriteCall(ss, es, p, i, j - 1);
      if By(es[j - 1], p) {
        assert !Calls(es[j - 1], p);
        n := WriteOwn(ss, es, p, i, j, es[i].addr, k);
      } else {
        WriteOther(ss, es, p, i, j, es[i].addr, k);
        n := k;
      }
    }
  }

  predicate OnRead(s: State, e: Event, p: nat, n: nat) {
    || e == Read(p, n)
    || (e == Resume(p) && p < |s.procs| && s.procs[p].at == ReadWoken(n))
  }

  lemma ReadStretch(s: State, e: Event, p: nat, n: nat)
    requires Enabled(s, e) && OnRead(s, e, p, n)
    ensures p < |Next(s, e).procs|
    ensures
      var q, got := Next(s, e).procs[p].at, Taken(s, Next(s, e));
      if q.Out? then Returns(s, p, n, got) else q == ReadWait(n) && got == []
  {
    assert Next(s, e) == Reading(s, p, n);
  }

  /** What a read of n returns with: the next bytes, n of them or all there are. It comes
      back without any only at the end of the file, when asked for none, or killed. */
  ghost predicate Returns(s: State, p: nat, n: nat, got: seq<Byte>) {
    && s.delivered <= |s.stored|
    && got <= s.stored[s.delivered..]
    && if s.stored[s.delivered..] == [] && s.writeopen then p < |s.procs| && s.procs[p].killed
       else |got| == Min(n, |s.stored| - s.delivered)
  }

  /** In every run: a read call takes nothing while it sleeps, and returns with the bytes
      that are next at that moment, at most as many as it asked for. */
  lemma {:induction false} ReadCall(ss: seq<State>, es: seq<Event>, p: nat, i: nat, j: nat)
    requires Run(ss, es) && During(ss, es, p, i, j) && es[i].Read? && es[i].p == p
    ensures p < |ss[j].procs|
    ensures
      var n, q, got := es[i].n, ss[j].procs[p].at, TakenBy(ss, es, p, i, j);
      if q.Out? then exists m: nat :: i <= m < j && By(es[m], p) && Returns(ss[m], p, n, got)
      else (q == ReadWait(n) || q == ReadWoken(n)) && got == []
    decreases j
  {
    var n := es[i].n;
    assert StepAt(ss, es, j - 1);
    if j == i + 1 {
      ReadStretch(ss[i], es[i], p, n);
      assert TakenBy(ss, es, p, i, i) == [];
      assert TakenBy(ss, es, p, i, j) == Taken(ss[i], ss[j]);
    } else {
      ReadCall(ss, es, p, i, j - 1);
      if By(es[j - 1], p) {
        ReadStretch(ss[j - 1], es[j - 1], p, n);
        assert TakenBy(ss, es, p, i, j) == Taken(ss[j - 1], ss[j]);
      } else {
        StepElse(ss[j - 1], es[j - 1], p);
        assert TakenBy(ss, es, p, i, j) == TakenBy(ss, es, p, i, j - 1);
      }
    }
  }

  /** A process that is killed while it sleeps here leaves with its next step. */
  lemma KillEnds(s: State, p: nat)
    requires Inv(s) && p < |s.procs| && (s.procs[p].at.ReadWait? || s.procs[p].at.WriteWait?)
    ensures Enabled(s, Kill(p)) && Enabled(Next(s, Kill(p)), Resume(p))
    ensures
      var s' := Next(Next(s, Kill(p)), Resume(p));
      |s'.procs| == |s.procs| && s'.procs[p].at.Out? && s'.stored == s.stored && s'.delivered == s.delivered
  {
  }

  // ----- the ring buffer does these steps -----

  ghost predicate Shows(pipe: Ring.Pipe, s: State)
    reads pipe
  {
    && pipe.stored == s.stored && pipe.delivered == s.delivered
    && pipe.readopen == s.readopen && pipe.writeopen == s.writeopen
  }

  /** One stretch of pipewrite on the ring is p's step. */
  method RingWrite(pipe: Ring.Pipe, ghost s: State, ghost p: nat, addr: seq<Byte>, i: nat, killed: bool)
    returns (j: nat, r: int)
    requires pipe.Valid() && Shows(pipe, s) && p < |s.procs| && s.procs[p].killed == killed && i <= |addr|
    modifies pipe`nwrite, pipe`stored, pipe.data
    ensures pipe.Valid() && Shows(pipe, Writing(s, p, addr, i))
    ensures Writing(s, p, addr, i).procs[p].at == if j < |addr| && r == 0 then WriteWait(addr, j) else Out
    ensures r == |addr| <==> j == |addr|
  {
    j, r := pipe.Write(addr, i, killed);
    assert j == i + Stores(s, addr, i);
  }

  /** One stretch of piperead on the ring is p's step, and returns what the step takes. */
  method RingRead(pipe: Ring.Pipe, ghost s: State, ghost p: nat, n: nat, killed: bool)
    returns (sleeps: bool, r: int, addr: seq<Byte>)
    requires pipe.Valid() && Shows(pipe, s) && p < |s.procs| && s.procs[p].killed == killed
    modifies pipe`nread, pipe`delivered
    ensures pipe.Valid() && Shows(pipe, Reading(s, p, n))
    ensures Reading(s, p, n).procs[p].at == if sleeps then ReadWait(n) else Out
    ensures addr == Taken(s, Reading(s, p, n)) && (!sleeps ==> r == -1 || r == |addr|)
  {
    sleeps, r, addr := pipe.Read(n, killed);
  }
}
