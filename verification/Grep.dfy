/** The regular expression matcher of grep.c, and the language it decides. */
module Grep {
  // ----- what an expression means -----

  /** c stands for itself, or for anything if it is a dot. */
  predicate Fits(c: char, x: char) {
    c == '.' || c == x
  }

  datatype Item = One(c: char) | Star(c: char)

  /** The items of re from p on, without a final '$'. */
  function Items(re: string, p: nat): seq<Item>
    decreases |re| - p
  {
    if p >= |re| then []
    else if p + 1 < |re| && re[p + 1] == '*' then [Star(re[p])] + Items(re, p + 2)
    else if re[p] == '$' && p + 1 == |re| then []
    else [One(re[p])] + Items(re, p + 1)
  }

  /** re ends in a '$' that is not starred. */
  predicate Anchored(re: string, p: nat)
    decreases |re| - p
  {
    if p >= |re| then false
    else if p + 1 < |re| && re[p + 1] == '*' then Anchored(re, p + 2)
    else (re[p] == '$' && p + 1 == |re|) || Anchored(re, p + 1)
  }

  /** text[a..b] consists of characters that c stands for. */
  predicate Run(c: char, text: string, a: nat, b: nat)
    requires a <= b <= |text|
  {
    forall j | a <= j < b :: Fits(c, text[j])
  }

  /** text[a..b] belongs to the language of the items. */
  ghost predicate Lang(items: seq<Item>, text: string, a: nat, b: nat)
    requires a <= b <= |text|
    decreases |items|
  {
    if items == [] then a == b
    else
      match items[0]
      case One(c) => a < b && Fits(c, text[a]) && Lang(items[1..], text, a + 1, b)
      case Star(c) => exists m: nat :: a <= m <= b && Run(c, text, a, m) && Lang(items[1..], text, m, b)
  }

  /** text from q on has a beginning in the language of re from p on. */
  ghost predicate Here(re: string, p: nat, text: string, q: nat)
    requires q <= |text|
  {
    exists b: nat :: q <= b <= |text| && (Anchored(re, p) ==> b == |text|) && Lang(Items(re, p), text, q, b)
  }

  /** Some part of text is in the language of re from p on: one at the end if re ends
      with '$', and one at the beginning if `first`. */
  ghost predicate Within(re: string, p: nat, text: string, first: bool) {
    exists a: nat, b: nat ::
      && a <= b <= |text| && (first ==> a == 0) && (Anchored(re, p) ==> b == |text|)
      && Lang(Items(re, p), text, a, b)
  }

  /** The text belongs to the language of re, which may start with '^'. */
  ghost predicate Belongs(re: string, text: string) {
    if re != "" && re[0] == '^' then Within(re, 1, text, true) else Within(re, 0, text, false)
  }

  // ----- how the meaning unfolds -----

  lemma HereEmpty(re: string, p: nat, text: string, q: nat)
    requires p >= |re| && q <= |text|
    ensures Here(re, p, text, q)
  {
    assert Lang(Items(re, p), text, q, q);
  }

  lemma HereDollar(re: string, p: nat, text: string, q: nat)
    requires p + 1 == |re| && re[p] == '$' && q <= |text|
    ensures Here(re, p, text, q) <==> q == |text|
  {
    if q == |text| {
      assert Lang(Items(re, p), text, q, q);
    }
  }

  lemma HereOne(re: string, p: nat, text: string, q: nat)
    requires p < |re| && q <= |text|
    requires !(p + 1 < |re| && re[p + 1] == '*') && !(re[p] == '$' && p + 1 == |re|)
    ensures Here(re, p, text, q) <==> q < |text| && Fits(re[p], text[q]) && Here(re, p + 1, text, q + 1)
  {
    var items, rest := Items(re, p), Items(re, p + 1);
    assert items[0] == One(re[p]) && items[1..] == rest;
    if Here(re, p, text, q) {
      var b: nat :| q <= b <= |text| && (Anchored(re, p) ==> b == |text|) && Lang(items, text, q, b);
      assert Lang(rest, text, q + 1, b);
    }
    if q < |text| && Fits(re[p], text[q]) && Here(re, p + 1, text, q + 1) {
      var b: nat :| q + 1 <= b <= |text| && (Anchored(re, p + 1) ==> b == |text|) && Lang(rest, text, q + 1, b);
      assert Lang(items, text, q, b);
    }
  }

  lemma HereStar(re: string, p: nat, text: string, q: nat)
    requires p + 1 < |re| && re[p + 1] == '*' && q <= |text|
    ensures Here(re, p, text, q)
       <==> exists m: nat :: q <= m <= |text| && Run(re[p], text, q, m) && Here(re, p + 2, text, m)
  {
    var items, rest := Items(re, p), Items(re, p + 2);
    assert items[0] == Star(re[p]) && items[1..] == rest;
    if Here(re, p, text, q) {
      var b: nat :| q <= b <= |text| && (Anchored(re, p) ==> b == |text|) && Lang(items, text, q, b);
      var m: nat :| q <= m <= b && Run(re[p], text, q, m) && Lang(rest, text, m, b);
      assert Here(re, p + 2, text, m);
    }
    if m: nat :| q <= m <= |text| && Run(re[p], text, q, m) && Here(re, p + 2, text, m) {
      var b: nat :| m <= b <= |text| && (Anchored(re, p + 2) ==> b == |text|) && Lang(rest, text, m, b);
      assert Lang(items, text, q, b);
    }
  }

  lemma WithinHere(re: string, p: nat, text: string)
    ensures Within(re, p, text, true) <==> Here(re, p, text, 0)
    ensures Within(re, p, text, false) <==> exists a: nat :: a <= |text| && Here(re, p, text, a)
  {
    if a: nat :| a <= |text| && Here(re, p, text, a) {
      var b: nat :| a <= b <= |text| && (Anchored(re, p) ==> b == |text|) && Lang(Items(re, p), text, a, b);
      assert Within(re, p, text, false);
    }
    if Within(re, p, text, false) {
      var a: nat, b: nat :| a <= b <= |text| && (Anchored(re, p) ==> b == |text|) && Lang(Items(re, p), text, a, b);
      assert Here(re, p, text, a);
    }
  }

  // ----- the matcher -----

  /** matchhere */
  method Matchhere(re: string, p: nat, text: string, q: nat) returns (r: bool)
    requires p <= |re| && q <= |text|
    ensures r == Here(re, p, text, q)
    decreases |re| - p, 0
  {
    if p == |re| {
      HereEmpty(re, p, text, q);
      return true;
    }
    if p + 1 < |re| && re[p + 1] == '*' {
      HereStar(re, p, text, q);
      r := Matchstar(re[p], re, p + 2, text, q);
      return;
    }
    if re[p] == '$' && p + 1 == |re| {
      HereDollar(re, p, text, q);
      return q == |text|;
    }
    HereOne(re, p, text, q);
    if q < |text| && Fits(re[p], text[q]) {
      r := Matchhere(re, p + 1, text, q + 1);
      return;
    }
    return false;
  }

  /** matchstar */
  method Matchstar(c: char, re: string, p: nat, text: string, q: nat) returns (r: bool)
    requires p <= |re| && q <= |text|
    ensures r <==> exists m: nat :: q <= m <= |text| && Run(c, text, q, m) && Here(re, p, text, m)
    decreases |re| - p, 1
  {
    var i := q;
    while true
      invariant q <= i <= |text| && Run(c, text, q, i)
      invariant forall m: nat | q <= m < i :: !Here(re, p, text, m)
      decreases |text| - i
    {
      r := Matchhere(re, p, text, i);
      if r {
        return;
      }
      if i == |text| || !(text[i] == c || c == '.') {
        return false;
      }
      i := i + 1;
    }
  }

  /** match: true exactly if the text belongs to the language. */
  method Match(re: string, text: string) returns (r: bool)
    ensures r == Belongs(re, text)
  {
    if re != "" && re[0] == '^' {
      WithinHere(re, 1, text);
      r := Matchhere(re, 1, text, 0);
      return;
    }
    WithinHere(re, 0, text);
    var i := 0;
    while true
      invariant 0 <= i <= |text|
      invariant forall a: nat | a < i :: !Here(re, 0, text, a)
      decreases |text| - i
    {
      r := Matchhere(re, 0, text, i);
      if r {
        return;
      }
      if i == |text| {
        return false;
      }
      i := i + 1;
    }
  }
}
