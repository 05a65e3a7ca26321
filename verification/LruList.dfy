/** The doubly linked buffer list of bio.c: links are indices into the buffer
    table, and the list head is one extra node. */
module LruList {

  /** Node at position i of the list; the head closes it at both ends. */
  function Node(order: seq<nat>, head: nat, i: int): nat
    requires -1 <= i <= |order|
  {
    if 0 <= i < |order| then order[i] else head
  }

  /** The link between positions i and i + 1, seen from both sides. */
  ghost predicate LinkAt(order: seq<nat>, head: nat, next: seq<nat>, prev: seq<nat>, i: int)
    requires -1 <= i < |order|
  {
    var a, b := Node(order, head, i), Node(order, head, i + 1);
    a < |next| && b < |prev| && next[a] == b && prev[b] == a
  }

  ghost predicate Distinct(order: seq<nat>) {
    forall i, j | 0 <= i < j < |order| :: order[i] != order[j]
  }

  /** next and prev link the nodes in `order` into a ring through the head. */
  ghost predicate Ring(order: seq<nat>, head: nat, next: seq<nat>, prev: seq<nat>) {
    && |next| == |prev| == head + 1
    && Distinct(order)
    && (forall i | 0 <= i < |order| :: order[i] < head)
    && (forall i | -1 <= i < |order| :: LinkAt(order, head, next, prev, i))
  }

  function Remove(order: seq<nat>, k: nat): seq<nat>
    requires k < |order|
  {
    order[..k] + order[k + 1..]
  }

  /** Unlinking position k. */
  lemma RemoveRing(order: seq<nat>, head: nat, k: nat, next: seq<nat>, prev: seq<nat>, next': seq<nat>, prev': seq<nat>)
    requires Ring(order, head, next, prev) && k < |order|
    requires
      var a, c := Node(order, head, k - 1), Node(order, head, k + 1);
      a < |next| && c < |prev| && next' == next[a := c] && prev' == prev[c := a]
    ensures Ring(Remove(order, k), head, next', prev')
  {
    var order' := Remove(order, k);
    forall i | -1 <= i < |order'|
      ensures LinkAt(order', head, next', prev', i)
    {
      var i0 := if i < k then i else i + 1;
      assert LinkAt(order, head, next, prev, i0);
      assert Node(order', head, i) == Node(order, head, i0);
      assert i != k - 1 ==> Node(order', head, i + 1) == Node(order, head, i0 + 1);
      assert i == k - 1 ==> Node(order', head, i + 1) == Node(order, head, k + 1);
    }
  }

  /** Linking b in right after the head. */
  lemma PushRing(order: seq<nat>, head: nat, b: nat, next: seq<nat>, prev: seq<nat>, next': seq<nat>, prev': seq<nat>)
    requires Ring(order, head, next, prev) && b < head && b !in order
    requires
      var c := Node(order, head, 0);
      c < |prev| && next' == next[b := c][head := b] && prev' == prev[b := head][c := b]
    ensures Ring([b] + order, head, next', prev')
  {
    var order' := [b] + order;
    assert LinkAt(order, head, next, prev, -1);
    forall i | -1 <= i < |order'|
      ensures LinkAt(order', head, next', prev', i)
    {
      if i >= 1 {
        assert LinkAt(order, head, next, prev, i - 1);
        assert Node(order', head, i) == Node(order, head, i - 1);
        assert Node(order', head, i + 1) == Node(order, head, i);
      }
    }
  }

  function ToFront(order: seq<nat>, k: nat): seq<nat>
    requires k < |order|
  {
    [order[k]] + Remove(order, k)
  }
}
