/** Readers and writers of one pipe that sleep and wake each other (pipe.c). A step is
    what a process does between taking the pipe's lock and giving it up, which sleep
    does too. */
module PipeRuns {
  import opened Blocks
  import opened Common
  import opened Pipe

  /** Where a process is: outside, asleep in piperead or pipewrite, or woken there. */
  datatype Place =
    | Out
    | ReadWait(n: nat)
    | ReadWoken(n: nat)
    | WriteWait(addr: seq<Byte>, i: nat)
    | WriteWoken(addr: seq<Byte>, i: nat)

  datatype Proc = Proc(at: Place, killed: bool)

  datatype State = State(
    stored: seq<Byte>,   // all bytes ever stored
    delivered: nat,      // how many of them have been read
    readopen: bool,
    writeopen: bool,
    procs: seq<Proc>
  )

  datatype Event =
    | Read(p: nat, n: nat)
    | Write(p: nat, addr: seq<Byte>)
    | Resume(p: nat)
    | CloseRead
    | CloseWrite
    | Kill(p: nat)

  predicate Bounded(s: State) {
    s.delivered <= |s.stored| <= s.delivered + PIPESIZE
  }

  predicate Enabled(s: State, e: Event) {
    && Bounded(s)
    && match e
       case Read(p, _) => p < |s.procs| && s.procs[p].at.Out?
       case Write(p, _) => p < |s.procs| && s.procs[p].at.Out?
       case Resume(p) =>
         p < |s.procs| && var at := s.procs[p].at; at.ReadWoken? || (at.WriteWoken? && at.i <= |at.addr|)
       case CloseRead => true
       case CloseWrite => true
       case Kill(p) => p < |s.procs|
  }

  /** A process that is no longer asleep. */
  function Woken(q: Place): Place {
    match q
    case ReadWait(n) => ReadWoken(n)
    case WriteWait(addr, i) => WriteWoken(addr, i)
    case _ => q
  }

  /** wakeup(&p->nread) */
  function WakeReaders(ps: seq<Proc>): (r: seq<Proc>)
    ensures |r| == |ps|
    ensures forall i | 0 <= i < |ps| :: r[i] == if ps[i].at.ReadWait? then ps[i].(at := Woken(ps[i].at)) else ps[i]
  {
    seq(|ps|, i requires 0 <= i < |ps| => if ps[i].at.ReadWait? then ps[i].(at := Woken(ps[i].at)) else ps[i])
  }

  /** wakeup(&p->nwrite) */
  function WakeWriters(ps: seq<Proc>): (r: seq<Proc>)
    ensures |r| == |ps|
    ensures forall i | 0 <= i < |ps| :: r[i] == if ps[i].at.WriteWait? then ps[i].(at := Woken(ps[i].at)) else ps[i]
  {
    seq(|ps|, i requires 0 <= i < |ps| => if ps[i].at.WriteWait? then ps[i].(at := Woken(ps[i].at)) else ps[i])
  }

  /** piperead by p, up to its return or its sleep. */
  function Reading(s: State, p: nat, n: nat): State
    requires Bounded(s) && p < |s.procs|
  {
    var q := s.procs[p];
    if |s.stored| == s.delivered && s.writeopen then
      s.(procs := s.procs[p := q.(at := if q.killed then Out else ReadWait(n))])
    else
      s.(delivered := s.delivered + Min(n, |s.stored| - s.delivered),
         procs := WakeWriters(s.procs)[p := q.(at := Out)])
  }

  /** The bytes of addr from i on that pipewrite can store at once. */
  function Stores(s: State, addr: seq<Byte>, i: nat): (m: nat)
    requires Bounded(s) && i <= |addr|
    ensures i + m <= |addr|
  {
    Min(|addr| - i, s.delivered + PIPESIZE - |s.stored|)
  }

  /** pipewrite by p from byte i on, up to its return or its sleep. */
  function Writing(s: State, p: nat, addr: seq<Byte>, i: nat): State
    requires Bounded(s) && p < |s.procs| && i <= |addr|
  {
    var q, j := s.procs[p], i + Stores(s, addr, i);
    var s1 := s.(stored := s.stored + addr[i..j]);
    if j == |addr| then s1.(procs := WakeReaders(s.procs)[p := q.(at := Out)])
    else if !s.readopen || q.killed then s1.(procs := s.procs[p := q.(at := Out)])
    else s1.(procs := WakeReaders(s.procs)[p := q.(at := WriteWait(addr, j))])
  }

  function Next(s: State, e: Event): State
    requires Enabled(s, e)
  {
    match e
    case Read(p, n) => Reading(s, p, n)
    case Write(p, addr) => Writing(s, p, addr, 0)
    case Resume(p) =>
      var at := s.procs[p].at;
      if at.ReadWoken? then Reading(s, p, at.n) else Writing(s, p, at.addr, at.i)
    case CloseRead => s.(readopen := false, procs := WakeWriters(s.procs))
    case CloseWrite => s.(writeopen := false, procs := WakeReaders(s.procs))
    case Kill(p) => s.(procs := s.procs[p := Proc(Woken(s.procs[p].at), true)])
  }

  // ----- nobody sleeps in vain -----

  /** Whoever sleeps in piperead waits for a byte that a writer may still bring. */
  ghost predicate ReadersWait(s: State) {
    forall i | 0 <= i < |s.procs| && s.procs[i].at.ReadWait? :: |s.stored| == s.delivered && s.writeopen
  }

  /** Whoever sleeps in pipewrite waits for room that a reader may still make. */
  ghost predicate WritersWait(s: State) {
    forall i | 0 <= i < |s.procs| && s.procs[i].at.WriteWait? ::
      |s.stored| == s.delivered + PIPESIZE && s.readopen && s.procs[i].at.i < |s.procs[i].at.addr|
  }

  ghost predicate Placed(s: State) {
    forall i | 0 <= i < |s.procs| && s.procs[i].at.WriteWoken? :: s.procs[i].at.i <= |s.procs[i].at.addr|
  }

  ghost predicate Inv(s: State) {
    Bounded(s) && ReadersWait(s) && WritersWait(s) && Placed(s)
  }

  ghost predicate Init(s: State) {
    s.stored == [] && s.delivered == 0 && forall i | 0 <= i < |s.procs| :: s.procs[i].at.Out?
  }

  /** pipewrite from byte i on leaves by its -1 with bytes stored, and wakes nobody. */
  ghost predicate LeavesBytes(s: State, p: nat, addr: seq<Byte>, i: nat)
    requires Bounded(s) && p < |s.procs| && i <= |addr|
  {
    0 < Stores(s, addr, i) < |addr| - i && (!s.readopen || s.procs[p].killed)
  }

  /** The step stores bytes that a sleeping reader is not told of: a writer that has been
      killed, or has no reader end left, fills the pipe and gives up. */
  ghost predicate Forgets(s: State, e: Event)
    requires Enabled(s, e)
  {
    && (exists i :: 0 <= i < |s.procs| && s.procs[i].at.ReadWait?)
    && (match e
        case Write(p, addr) => LeavesBytes(s, p, addr, 0)
        case Resume(p) =>
          s.procs[p].at.WriteWoken? && LeavesBytes(s, p, s.procs[p].at.addr, s.procs[p].at.i)
        case _ => false)
  }

  lemma ReadingKeeps(s: State, p: nat, n: nat)
    requires Inv(s) && p < |s.procs| && !s.procs[p].at.ReadWait? && !s.procs[p].at.WriteWait?
    ensures Inv(Reading(s, p, n))
  {
  }

  lemma WritingKeepsIff(s: State, p: nat, addr: seq<Byte>, i: nat)
    requires Inv(s) && p < |s.procs| && i <= |addr| && !s.procs[p].at.ReadWait? && !s.procs[p].at.WriteWait?
    ensures Inv(Writing(s, p, addr, i)) <==>
              !(LeavesBytes(s, p, addr, i) && exists k :: 0 <= k < |s.procs| && s.procs[k].at.ReadWait?)
  {
    var s', m := Writing(s, p, addr, i), Stores(s, addr, i);
    if LeavesBytes(s, p, addr, i) {
      assert forall k | 0 <= k < |s.procs| && s.procs[k].at.ReadWait? :: s'.procs[k].at.ReadWait?;
      assert |s'.stored| != s'.delivered;
    }
  }

  /** Every step keeps sleepers and the pipe in agreement, exactly unless it is such a one. */
  lemma StepIff(s: State, e: Event)
    requires Inv(s) && Enabled(s, e)
    ensures Inv(Next(s, e)) <==> !Forgets(s, e)
  {
    match e
    case Read(p, n) => ReadingKeeps(s, p, n);
    case Write(p, addr) => WritingKeepsIff(s, p, addr, 0);
    case Resume(p) =>
      if s.procs[p].at.ReadWoken? {
        ReadingKeeps(s, p, s.procs[p].at.n);
      } else {
        WritingKeepsIff(s, p, s.procs[p].at.addr, s.procs[p].at.i);
      }
    case CloseRead =>
    case CloseWrite =>
    case Kill(p) =>
  }

  // ----- runs -----

  ghost predicate CanRun(s: State, es: seq<Event>)
    decreases |es|
  {
    es == [] || (Enabled(s, es[0]) && CanRun(Next(s, es[0]), es[1..]))
  }

  ghost function Exec(s: State, es: seq<Event>): State
    requires CanRun(s, es)
    decreases |es|
  {
    if es == [] then s else Exec(Next(s, es[0]), es[1..])
  }

  /** At every point of the run nobody sleeps in vain. */
  ghost predicate Throughout(s: State, es: seq<Event>)
    requires CanRun(s, es)
    decreases |es|
  {
    ReadersWait(s) && WritersWait(s) && (es != [] ==> Throughout(Next(s, es[0]), es[1..]))
  }

  ghost predicate ForgetsSome(s: State, es: seq<Event>)
    requires CanRun(s, es)
    decreases |es|
  {
    es != [] && (Forgets(s, es[0]) || ForgetsSome(Next(s, es[0]), es[1..]))
  }

  lemma InitInv(s: State)
    requires Init(s)
    ensures Inv(s)
  {
  }

  /** Over every run of any number of readers and writers: nobody sleeps in vain if and
      only if no writer fills the pipe and gives up while a reader sleeps. */
  lemma {:induction false} RunIff(s: State, es: seq<Event>)
    requires Inv(s) && CanRun(s, es)
    ensures Throughout(s, es) <==> !ForgetsSome(s, es)
    decreases |es|
  {
    if es != [] {
      StepIff(s, es[0]);
      StepShape(s, es[0]);
      if Inv(Next(s, es[0])) {
        RunIff(Next(s, es[0]), es[1..]);
      }
    }
  }

  /** What no step breaks. */
  lemma StepShape(s: State, e: Event)
    requires Inv(s) && Enabled(s, e)
    ensures Bounded(Next(s, e)) && Placed(Next(s, e))
  {
  }

  /** Readers and writers are never asleep at the same time. */
  lemma NotBoth(s: State, i: nat, j: nat)
    requires Inv(s) && i < |s.procs| && j < |s.procs| && s.procs[i].at.ReadWait?
    ensures !s.procs[j].at.WriteWait?
  {
  }

  /** A reader sleeps on the empty pipe. A writer that has been killed stores 512 of its
      513 bytes and returns -1; the reader sleeps on, with a full pipe that has both its
      ends open and nobody on the way to wake it. */
  lemma LostWakeup() returns (s0: State, es: seq<Event>)
    ensures Init(s0) && CanRun(s0, es)
    ensures
      var s := Exec(s0, es);
      && |s.procs| == 2 && s.procs[0].at.ReadWait? && s.procs[1].at.Out?
      && |s.stored| == s.delivered + PIPESIZE && s.readopen && s.writeopen
  {
    var addr := seq(513, _ => 0);
    s0 := State([], 0, true, true, [Proc(Out, false), Proc(Out, false)]);
    es := [Read(0, 1), Kill(1), Write(1, addr)];
    var s1 := Next(s0, es[0]);
    var s2 := Next(s1, es[1]);
    var s3 := Next(s2, es[2]);
    assert es[1..] == [es[1], es[2]] && es[1..][1..] == [es[2]] && es[1..][1..][1..] == [];
    assert CanRun(s3, []) && Exec(s3, []) == s3;
    assert CanRun(s2, [es[2]]) && Exec(s2, [es[2]]) == s3;
    assert CanRun(s1, [es[1], es[2]]) && Exec(s1, [es[1], es[2]]) == s3;
  }
}
