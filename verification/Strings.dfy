/** The routines of string.c that file and directory code rests on. */
module Strings {
  import opened Blocks

  /** memmove within one memory: the n bytes at src arrive at dst whole, also where the
      two ranges overlap, and no other byte changes. */
  method Memmove(mem: array<Byte>, dst: nat, src: nat, n: nat)
    requires dst + n <= mem.Length && src + n <= mem.Length
    modifies mem
    ensures mem[dst..dst + n] == old(mem[src..src + n])
    ensures mem[..dst] == old(mem[..dst]) && mem[dst + n..] == old(mem[dst + n..])
  {
    ghost var was := mem[..];
    if src < dst && src + n > dst {
      var i := n;
      while i > 0
        invariant 0 <= i <= n && Moved(was, mem[..], dst, src, i, n)
      {
        i := i - 1;
        ghost var now := mem[..];
        mem[dst + i] := mem[src + i];
        assert mem[..] == now[dst + i := now[src + i]];
      }
    } else {
      var i := 0;
      while i < n
        invariant 0 <= i <= n && Moved(was, mem[..], dst, src, 0, i)
      {
        ghost var now := mem[..];
        mem[dst + i] := mem[src + i];
        assert mem[..] == now[dst + i := now[src + i]];
        i := i + 1;
      }
    }
    MovedWhole(was, mem[..], dst, src, n);
  }

  /** The bytes from a up to b have arrived, and no other has changed. */
  ghost predicate Moved(was: seq<Byte>, now: seq<Byte>, dst: nat, src: nat, a: nat, b: nat) {
    && |now| == |was| && dst + b <= |was| && src + b <= |was|
    && (forall k | 0 <= k < |was| && !(dst + a <= k < dst + b) :: now[k] == was[k])
    && (forall k | dst + a <= k < dst + b :: now[k] == was[k - dst + src])
  }

  lemma MovedWhole(was: seq<Byte>, now: seq<Byte>, dst: nat, src: nat, n: nat)
    requires Moved(was, now, dst, src, 0, n)
    ensures now[dst..dst + n] == was[src..src + n]
    ensures now[..dst] == was[..dst] && now[dst + n..] == was[dst + n..]
  {
  }

  // ----- names of at most n bytes, ended by a zero byte if they are shorter -----

  /** How long the name in s is. */
  function NameLen(s: seq<Byte>, n: nat): (r: nat)
    requires Readable(s, n)
    ensures r <= n && r <= |s| && (r < n ==> r < |s| && s[r] == 0)
    ensures forall k | 0 <= k < r :: s[k] != 0
  {
    LenFrom(s, n, 0)
  }

  function LenFrom(s: seq<Byte>, n: nat, i: nat): (r: nat)
    requires Readable(s, n) && i <= n && i <= |s| && forall k | 0 <= k < i :: s[k] != 0
    ensures i <= r <= n && r <= |s| && (r < n ==> r < |s| && s[r] == 0)
    ensures forall k | 0 <= k < r :: s[k] != 0
    decreases n - i
  {
    if i == n || s[i] == 0 then i else LenFrom(s, n, i + 1)
  }

  /** n bytes of s may be read, or there is a zero byte before that. */
  ghost predicate Readable(s: seq<Byte>, n: nat) {
    n <= |s| || exists k :: 0 <= k < |s| && s[k] == 0
  }

  ghost function Name(s: seq<Byte>, n: nat): seq<Byte>
    requires Readable(s, n)
  {
    s[..NameLen(s, n)]
  }

  /** strncmp as namecmp uses it: 0 exactly for equal names. */
  method Strncmp(p: seq<Byte>, q: seq<Byte>, n: nat) returns (r: int)
    requires Readable(p, n) && Readable(q, n)
    ensures r == 0 <==> Name(p, n) == Name(q, n)
  {
    var i := 0;
    while i < n && p[i] != 0 && p[i] == q[i]
      invariant 0 <= i <= n && i <= NameLen(p, n) && i <= NameLen(q, n)
      invariant forall k | 0 <= k < i :: p[k] == q[k] != 0
    {
      i := i + 1;
    }
    if i == n {
      return 0;
    }
    var a: int, b: int := p[i], q[i];
    r := a - b;
  }

  /** strncpy as dirlink uses it: the name arrives, and the rest is zero. */
  method Strncpy(s: array<Byte>, t: seq<Byte>, n: nat)
    requires Readable(t, n) && n <= s.Length
    modifies s
    ensures Name(s[..], n) == Name(t, n)
    ensures forall k | NameLen(t, n) <= k < n :: s[k] == 0
    ensures s[n..] == old(s[n..])
  {
    var i := 0;
    var copying := true;
    while i < n
      invariant 0 <= i <= n && s[n..] == old(s[n..])
      invariant copying ==> i <= NameLen(t, n)
      invariant forall k | 0 <= k < i :: s[k] == if k < NameLen(t, n) then t[k] else 0
      invariant !copying ==> NameLen(t, n) < i
    {
      if copying {
        s[i] := t[i];
        copying := t[i] != 0;
      } else {
        s[i] := 0;
      }
      i := i + 1;
    }
    assert NameLen(s[..], n) == NameLen(t, n);
  }
}
