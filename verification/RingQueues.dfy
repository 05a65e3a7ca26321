/** The priority queues of the fixed-priority scheduler (proc.c). */
module RingQueues {
  const PRIO_MAX := 10
  const QUEUESIZE := 50

  /** C's remainder, which has the sign of the dividend. */
  function Remainder(a: int, b: int): int
    requires b > 0
  {
    if a >= 0 then a % b else -(-a % b)
  }

  /** The slot x places from slot 0 on, going round once. */
  function Round(x: nat): nat
    requires x < 2 * QUEUESIZE
  {
    if x < QUEUESIZE then x else x - QUEUESIZE
  }

  /** The entries from head up to tail, going round. */
  function Entries<P>(ring: seq<P>, head: nat, tail: nat): (q: seq<P>)
    requires |ring| == QUEUESIZE && head < QUEUESIZE && tail < QUEUESIZE
    ensures |q| == Length(head, tail)
    ensures forall i | 0 <= i < |q| :: q[i] == ring[Round(head + i)]
  {
    if head <= tail then ring[head..tail] else ring[head..] + ring[..tail]
  }

  function Length(head: nat, tail: nat): nat
    requires head < QUEUESIZE && tail < QUEUESIZE
  {
    if head <= tail then tail - head else QUEUESIZE - head + tail
  }

  /** The test of fp_enqueue for a full queue, as C evaluates it. */
  predicate SeenFull(head: nat, tail: nat) {
    tail == Remainder(head - 1, QUEUESIZE)
  }

  /** The test finds a full queue, except one that starts at slot 0. */
  lemma FullTest(head: nat, tail: nat)
    requires head < QUEUESIZE && tail < QUEUESIZE
    ensures SeenFull(head, tail) <==> Length(head, tail) == QUEUESIZE - 1 && head != 0
  {
  }

  /** What storing one more entry does to the queue: it is appended, unless there are
      QUEUESIZE - 1 already, and then the queue is empty. */
  lemma Stored<P>(ring: seq<P>, head: nat, tail: nat, p: P)
    requires |ring| == QUEUESIZE && head < QUEUESIZE && tail < QUEUESIZE
    ensures Entries(ring[tail := p], head, (tail + 1) % QUEUESIZE)
         == if Length(head, tail) < QUEUESIZE - 1 then Entries(ring, head, tail) + [p] else []
  {
    var q, q' := Entries(ring, head, tail), Entries(ring[tail := p], head, (tail + 1) % QUEUESIZE);
    if Length(head, tail) < QUEUESIZE - 1 {
      assert |q'| == |q| + 1;
      assert Round(head + |q|) == tail;
      forall i | 0 <= i < |q'|
        ensures q'[i] == (q + [p])[i]
      {
        assert i < |q| ==> Round(head + i) != tail;
      }
    }
  }

  lemma Removed<P>(ring: seq<P>, head: nat, tail: nat)
    requires |ring| == QUEUESIZE && head < QUEUESIZE && tail < QUEUESIZE && head != tail
    ensures Entries(ring, head, tail) == [ring[head]] + Entries(ring, (head + 1) % QUEUESIZE, tail)
  {
    var h := (head + 1) % QUEUESIZE;
    assert h == Round(head + 1);
    var q, q' := Entries(ring, head, tail), Entries(ring, h, tail);
    assert |q| == |q'| + 1;
    forall i | 0 <= i < |q|
      ensures q[i] == ([ring[head]] + q')[i]
    {
      assert i > 0 ==> Round(h + (i - 1)) == Round(head + i);
    }
  }

  /** The ring and its tail after fp_enqueue of a runnable process. */
  function Enqueued<P>(ring: seq<P>, head: nat, tail: nat, p: P): (seq<P>, nat)
    requires |ring| == QUEUESIZE && tail < QUEUESIZE
  {
    if SeenFull(head, tail) then (ring, tail) else (ring[tail := p], (tail + 1) % QUEUESIZE)
  }

  /** fp_enqueue appends or refuses, and loses no entry, exactly if it does not meet 49
      entries from slot 0 on. */
  lemma LosesNothingIff<P>(ring: seq<P>, head: nat, tail: nat, p: P)
    requires |ring| == QUEUESIZE && head < QUEUESIZE && tail < QUEUESIZE
    ensures
      var q, (ring', tail') := Entries(ring, head, tail), Enqueued(ring, head, tail, p);
      var q' := Entries(ring', head, tail');
      (q' == q + [p] || (q' == q && |q| == QUEUESIZE - 1)) <==> !(head == 0 && tail == QUEUESIZE - 1)
  {
    FullTest(head, tail);
    Stored(ring, head, tail, p);
  }

  /** struct proc, as far as the queues look at it. */
  datatype Process = Process(pid: int, runnable: bool, priority: nat)

  class Queues {
    const rings: seq<array<Process>>
    const head: array<nat>
    const tail: array<nat>

    /** At boot all queues are empty. */
    constructor ()
      ensures Valid() && fresh(head) && fresh(tail) && forall i | 0 <= i < PRIO_MAX :: fresh(rings[i]) && Queue(i) == []
    {
      var rs: seq<array<Process>> := [];
      while |rs| < PRIO_MAX
        invariant |rs| <= PRIO_MAX && forall i | 0 <= i < |rs| :: fresh(rs[i]) && rs[i].Length == QUEUESIZE
        invariant forall i, j | 0 <= i < j < |rs| :: rs[i] != rs[j]
      {
        var ring := new Process[QUEUESIZE];
        rs := rs + [ring];
      }
      rings := rs;
      head := new nat[PRIO_MAX](i => 0);
      tail := new nat[PRIO_MAX](i => 0);
    }

    ghost predicate Valid()
      reads this, head, tail, rings
    {
      && |rings| == head.Length == tail.Length == PRIO_MAX && head != tail
      && (forall i | 0 <= i < PRIO_MAX :: rings[i].Length == QUEUESIZE)
      && (forall i, j | 0 <= i < j < PRIO_MAX :: rings[i] != rings[j])
      && (forall i | 0 <= i < PRIO_MAX :: head[i] < QUEUESIZE && tail[i] < QUEUESIZE)
    }

    /** The queue of one priority. */
    ghost function Queue(i: nat): seq<Process>
      requires Valid() && i < PRIO_MAX
      reads this, head, tail, rings
    {
      Entries(rings[i][..], head[i], tail[i])
    }

    /** fp_enqueue: a runnable process is appended to the queue of its priority, if that
        is not full. The one full queue that is not noticed, with its first entry in
        slot 0, is emptied. */
    method Enqueue(p: Process) returns (r: int)
      requires Valid() && p.priority < PRIO_MAX
      modifies tail, rings[p.priority]
      ensures Valid() && forall i | 0 <= i < PRIO_MAX && i != p.priority :: Queue(i) == old(Queue(i))
      ensures head[..] == old(head[..])
      ensures
        var q := old(Queue(p.priority));
        if !p.runnable || (|q| == QUEUESIZE - 1 && head[p.priority] != 0) then r == -1 && Queue(p.priority) == q
        else r == 1 && Queue(p.priority) == if |q| < QUEUESIZE - 1 then q + [p] else []
    {
      if !p.runnable {
        return -1;
      }
      var pr := p.priority;
      var h: int, t := head[pr], tail[pr];
      FullTest(h, t);
      if t == Remainder(h - 1, QUEUESIZE) {
        return -1;
      }
      Stored(rings[pr][..], h, t, p);
      rings[pr][t] := p;
      tail[pr] := (t + 1) % QUEUESIZE;
      assert rings[pr][..] == old(rings[pr][..])[t := p];
      forall i | 0 <= i < PRIO_MAX && i != pr
        ensures Queue(i) == old(Queue(i))
      {
        assert rings[i] != rings[pr];
      }
      return 1;
    }

    /** fp_dequeue: the oldest entry of the lowest-numbered queue that is not empty. */
    method Dequeue() returns (found: bool, p: Process, ghost pr: nat)
      requires Valid()
      modifies head
      ensures Valid() && pr <= PRIO_MAX && (found <==> pr < PRIO_MAX)
      ensures forall i | 0 <= i < pr :: old(Queue(i)) == []
      ensures forall i | 0 <= i < PRIO_MAX && i != pr :: Queue(i) == old(Queue(i))
      ensures found ==> old(Queue(pr)) == [p] + Queue(pr)
    {
      var i := 0;
      while i < PRIO_MAX && head[i] == tail[i]
        invariant 0 <= i <= PRIO_MAX && forall j | 0 <= j < i :: Queue(j) == []
      {
        i := i + 1;
      }
      pr := i;
      if i >= PRIO_MAX {
        return false, Process(0, false, 0), pr;
      }
      var h := head[i];
      Removed(rings[i][..], h, tail[i]);
      p := rings[i][h];
      head[i] := (h + 1) % QUEUESIZE;
      found := true;
    }
  }
}
