/** JSON texts by their structure, in the grammar of RFC 8259 but for what jsmn takes
    as a primitive, and the tokens that jsmn finds for them. */
module JsonText {
  import opened Json

  // ----- texts -----

  /** A value with its place in the text: quotes at a and b, or a primitive from a up
      to b, or brackets at a and b. */
  datatype Value =
    | Text(a: nat, b: nat)
    | Atom(a: nat, b: nat)
    | List(a: nat, vs: Values, b: nat)
    | Dict(a: nat, ps: Pairs, b: nat)
  datatype Values = None | Some(head: Value, comma: nat, tail: Values)
  datatype Pairs = Nothing | Pair(ka: nat, kb: nat, colon: nat, value: Value, comma: nat, tail: Pairs)

  predicate IsBlank(c: char) {
    c == '\t' || c == '\r' || c == '\n' || c == ' '
  }

  predicate Blank(js: string, p: nat, q: nat) {
    p <= q <= |js| && forall i | p <= i < q :: IsBlank(js[i])
  }

  predicate Special(c: char) {
    c == '{' || c == '}' || c == '[' || c == ']' || c == '\"' || c == '\0' || Delimiter(c)
  }

  /** The position after the value. */
  function Finish(v: Value): nat {
    if v.Atom? then v.b else v.b + 1
  }

  /** js[p..b] is made of characters and escapes as section 7 of RFC 8259 has them. */
  predicate StringBody(js: string, p: nat, b: nat)
    requires b <= |js|
    decreases b - p
  {
    p <= b && (p == b
               || (Unescaped(js[p]) && StringBody(js, p + 1, b))
               || (js[p] == '\\' && p + 1 < b && Escape(js[p + 1]) && StringBody(js, p + 2, b))
               || (js[p] == '\\' && p + 6 <= b && js[p + 1] == 'u' && HexDigit(js[p + 2]) && HexDigit(js[p + 3])
                   && HexDigit(js[p + 4]) && HexDigit(js[p + 5]) && StringBody(js, p + 6, b)))
  }

  predicate Escape(c: char) {
    c in {'\"', '\\', '/', 'b', 'f', 'n', 'r', 't'}
  }

  predicate HexDigit(c: char) {
    '0' <= c <= '9' || 'a' <= c <= 'f' || 'A' <= c <= 'F'
  }

  predicate Unescaped(c: char) {
    c as int >= 32 && c != '\"' && c != '\\'
  }

  predicate IsString(js: string, a: nat, b: nat) {
    a < b < |js| && js[a] == '\"' && js[b] == '\"' && StringBody(js, a + 1, b)
  }

  /** js[a..b] is what jsmn takes as a primitive: printable, and followed by the end or
      a delimiter. Numbers, true, false and null are of this kind. */
  predicate IsAtom(js: string, a: nat, b: nat) {
    && a < b <= |js| && !Special(js[a]) && (AtEnd(js, b) || Delimiter(js[b]))
    && forall i | a <= i < b :: Printable(js[i]) && !Delimiter(js[i])
  }

  /** The scanner finds the closing quote of a string. */
  lemma {:induction false} StringScans(js: string, p: nat, b: nat)
    requires p <= b < |js| && js[b] == '\"' && StringBody(js, p, b)
    ensures StrEnd(js, p) == Quote(b)
    decreases b - p
  {
    if p < b {
      if Unescaped(js[p]) {
        StringScans(js, p + 1, b);
      } else if SimpleEscape(js[p + 1]) {
        StringScans(js, p + 2, b);
      } else {
        assert HexRun(js, p + 2, 4) == HexRun(js, p + 3, 3) == HexRun(js, p + 4, 2) == HexRun(js, p + 5, 1);
        StringScans(js, p + 6, b);
      }
    }
  }

  /** And the end of a primitive. */
  lemma {:induction false} AtomScans(js: string, p: nat, b: nat)
    requires p <= b <= |js| && (AtEnd(js, b) || Delimiter(js[b]))
    requires forall i | p <= i < b :: Printable(js[i]) && !Delimiter(js[i])
    ensures PrimEnd(js, p) == b
    decreases b - p
  {
    if p < b {
      AtomScans(js, p + 1, b);
    }
  }

  predicate At(js: string, p: nat, c: char) {
    p < |js| && js[p] == c
  }

  /** js has v where v says. */
  predicate Spells(js: string, v: Value)
    decreases v
  {
    match v
    case Text(a, b) => IsString(js, a, b)
    case Atom(a, b) => IsAtom(js, a, b)
    case List(a, vs, b) => At(js, a, '[') && At(js, b, ']') && SpellsAll(js, a + 1, vs, b)
    case Dict(a, ps, b) => At(js, a, '{') && At(js, b, '}') && SpellsPairs(js, a + 1, ps, b)
  }

  /** js has the values from p up to b, with commas between them. */
  predicate SpellsAll(js: string, p: nat, vs: Values, b: nat)
    decreases vs
  {
    match vs
    case None => Blank(js, p, b)
    case Some(v, c, rest) =>
      && Blank(js, p, v.a) && Spells(js, v)
      && if rest == None then Blank(js, Finish(v), b)
         else Blank(js, Finish(v), c) && At(js, c, ',') && SpellsAll(js, c + 1, rest, b)
  }

  predicate SpellsPairs(js: string, p: nat, ps: Pairs, b: nat)
    decreases ps
  {
    match ps
    case Nothing => Blank(js, p, b)
    case Pair(ka, kb, co, v, c, rest) =>
      && Blank(js, p, ka) && IsString(js, ka, kb) && Blank(js, kb + 1, co) && At(js, co, ':')
      && Blank(js, co + 1, v.a) && Spells(js, v)
      && if rest == Nothing then Blank(js, Finish(v), b)
         else Blank(js, Finish(v), c) && At(js, c, ',') && SpellsPairs(js, c + 1, rest, b)
  }

  // ----- their tokens -----

  function Many(vs: Values): nat {
    if vs == None then 0 else 1 + Many(vs.tail)
  }

  function ManyPairs(ps: Pairs): nat {
    if ps == Nothing then 0 else 1 + ManyPairs(ps.tail)
  }

  /** A token for each value and key, parents before children. The size of a box is
      the number of its values or keys, and a key has size 1. */
  function Toks(v: Value): (r: seq<Token>)
    ensures |r| > 0
  {
    match v
    case Text(a, b) => [Token(Str, a + 1, b, 0)]
    case Atom(a, b) => [Token(Primitive, a, b, 0)]
    case List(a, vs, b) => [Token(Array, a, b + 1, Many(vs))] + ToksAll(vs)
    case Dict(a, ps, b) => [Token(Object, a, b + 1, ManyPairs(ps))] + ToksPairs(ps)
  }

  function ToksAll(vs: Values): seq<Token> {
    if vs == None then [] else Toks(vs.head) + ToksAll(vs.tail)
  }

  function ToksPairs(ps: Pairs): seq<Token> {
    if ps == Nothing then []
    else [Token(Str, ps.ka + 1, ps.kb, 1)] + Toks(ps.value) + ToksPairs(ps.tail)
  }

  // ----- the state after a value -----

  /** The innermost open token. */
  function Box(st: State): int {
    LastOpen(st.toks, |st.toks|)
  }

  /** All tokens of s are closed. */
  predicate Closed(s: seq<Token>) {
    forall i | 0 <= i < |s| :: !IsOpen(s[i])
  }

  lemma {:induction false} ToksClosed(v: Value)
    ensures Closed(Toks(v))
  {
    match v {
      case List(a, vs, b) => AllClosed(vs);
      case Dict(a, ps, b) => PairsClosed(ps);
      case _ =>
    }
  }

  lemma {:induction false} AllClosed(vs: Values)
    ensures Closed(ToksAll(vs))
  {
    if vs != None {
      ToksClosed(vs.head);
      AllClosed(vs.tail);
    }
  }

  lemma {:induction false} PairsClosed(ps: Pairs)
    ensures Closed(ToksPairs(ps))
  {
    if ps != Nothing {
      ToksClosed(ps.value);
      PairsClosed(ps.tail);
    }
  }

  /** Which token is the last open one depends on nothing but ends and starts. */
  lemma {:induction false} SameLastOpen(s: seq<Token>, s': seq<Token>, n: nat)
    requires n <= |s| && n <= |s'| && forall i | 0 <= i < n :: IsOpen(s'[i]) == IsOpen(s[i])
    ensures LastOpen(s', n) == LastOpen(s, n)
  {
    if n > 0 {
      SameLastOpen(s, s', n - 1);
    }
  }

  lemma {:induction false} LastOpenAppend(s: seq<Token>, more: seq<Token>)
    requires Closed(more)
    ensures LastOpen(s + more, |s + more|) == LastOpen(s, |s|)
    decreases |more|
  {
    if more == [] {
      assert s + more == s;
    } else {
      var most := more[..|more| - 1];
      LastOpenAppend(s, most);
      SameLastOpen(s + most, s + more, |s + most|);
      assert (s + more)[|s + more| - 1] == more[|more| - 1];
    }
  }

  /** The state after a value: its tokens are there, as one child of the superior one. */
  function After(st: State, v: Value): State
    requires -1 <= st.super < |st.toks|
  {
    State(Finish(v), Bump(st.toks, st.super) + Toks(v),
          if v.Text? || v.Atom? then st.super else Box(st), st.count + |Toks(v)|)
  }

  /** From one state the parser gets to another. */
  ghost predicate Gets(js: string, st: State, st': State, cap: nat) {
    Good(js, st) && Good(js, st') && Parse(js, st, cap) == Parse(js, st', cap)
  }

  lemma OneTurn(js: string, st: State, cap: nat)
    requires Good(js, st) && !AtEnd(js, st.pos) && Turn(js, st, cap).Go?
    ensures Gets(js, st, Turn(js, st, cap).st, cap)
  {
    TurnGood(js, st, cap);
  }

  lemma {:induction false} SkipBlank(js: string, st: State, q: nat, cap: nat)
    requires Good(js, st) && Blank(js, st.pos, q)
    ensures Gets(js, st, st.(pos := q), cap)
    decreases q - st.pos
  {
    if st.pos < q {
      assert IsBlank(js[st.pos]);
      OneTurn(js, st, cap);
      SkipBlank(js, st.(pos := st.pos + 1), q, cap);
    } else {
      assert st.(pos := q) == st;
    }
  }

  lemma GetsTwice(js: string, st: State, st1: State, st2: State, cap: nat)
    requires Gets(js, st, st1, cap) && Gets(js, st1, st2, cap)
    ensures Gets(js, st, st2, cap)
  {
  }

  // ----- bookkeeping for tokens -----

  /** k children more for token i. */
  function Add(toks: seq<Token>, i: nat, k: nat): (r: seq<Token>)
    requires i < |toks|
    ensures |r| == |toks|
  {
    toks[i := toks[i].(size := toks[i].size + k)]
  }

  lemma BumpAppend(s: seq<Token>, more: seq<Token>, i: int)
    requires -1 <= i < |s|
    ensures Bump(s + more, i) == Bump(s, i) + more
  {
  }

  /** A child and then k more. */
  lemma AddMore(s: seq<Token>, i: nat, v: seq<Token>, k: nat, rest: seq<Token>)
    requires i < |s|
    ensures Add(Bump(s, i) + v, i, k) + rest == Add(s, i, k + 1) + (v + rest)
  {
  }

  /** The innermost open token is the same when closed tokens have been added. */
  lemma BoxStays(st: State, st': State, more: seq<Token>, i: int)
    requires -1 <= i < |st.toks| && Closed(more) && st'.toks == Bump(st.toks, i) + more
    ensures Box(st') == Box(st)
  {
    LastOpenAppend(Bump(st.toks, i), more);
    SameLastOpen(st.toks, Bump(st.toks, i), |st.toks|);
  }

  lemma {:induction false} LastBoxIs(toks: seq<Token>, n: nat, i: nat)
    requires i < n <= |toks| && LastOpen(toks, n) == i && IsBox(toks[i])
    ensures LastBox(toks, n) == i
  {
    if i < n - 1 {
      LastBoxIs(toks, n - 1, i);
    }
  }

  // ----- one value -----

  lemma TextGets(js: string, st: State, v: Value, cap: nat)
    requires Good(js, st) && v.Text? && Spells(js, v) && st.pos == v.a && |st.toks| < cap
    ensures Gets(js, st, After(st, v), cap)
  {
    StringScans(js, v.a + 1, v.b);
    OneTurn(js, st, cap);
    BumpAppend(st.toks, Toks(v), st.super);
  }

  lemma AtomGets(js: string, st: State, v: Value, cap: nat)
    requires Good(js, st) && v.Atom? && Spells(js, v) && st.pos == v.a && |st.toks| < cap
    ensures Gets(js, st, After(st, v), cap)
  {
    AtomScans(js, v.a, v.b);
    OneTurn(js, st, cap);
    BumpAppend(st.toks, Toks(v), st.super);
  }

  /** The state after the opening bracket at a. */
  function Opened(st: State, a: nat, typ: Type): State
    requires -1 <= st.super < |st.toks|
  {
    State(a + 1, Bump(st.toks, st.super) + [Token(typ, a, -1, 0)], |st.toks|, st.count + 1)
  }

  lemma OpenGets(js: string, st: State, typ: Type, cap: nat)
    requires Good(js, st) && (typ == Object || typ == Array) && At(js, st.pos, OpenChar(typ)) && |st.toks| < cap
    ensures Gets(js, st, Opened(st, st.pos, typ), cap)
    ensures Box(Opened(st, st.pos, typ)) == |st.toks|
  {
    OneTurn(js, st, cap);
    BumpAppend(st.toks, [Token(typ, st.pos, -1, 0)], st.super);
  }

  /** The closing bracket, when k children with the tokens `inner` have come since the
      opening one. */
  lemma CloseGets(js: string, st: State, typ: Type, a: nat, k: nat, inner: seq<Token>, st': State, cap: nat)
    requires Good(js, st) && Good(js, st') && (typ == Object || typ == Array) && Closed(inner)
    requires st'.toks == Add(Opened(st, a, typ).toks, |st.toks|, k) + inner && At(js, st'.pos, CloseChar(typ))
    ensures Gets(js, st', State(st'.pos + 1, Bump(st.toks, st.super) + ([Token(typ, a, st'.pos + 1, k)] + inner),
                                Box(st), st'.count), cap)
  {
    var n, toks := |st.toks|, Opened(st, a, typ).toks;
    LastOpenAppend(Add(toks, n, k), inner);
    assert LastOpen(Add(toks, n, k), n + 1) == n;
    OneTurn(js, st', cap);
    var closed := Turn(js, st', cap).st;
    SameLastOpen(st.toks, closed.toks, n);
    assert closed.toks == Bump(st.toks, st.super) + ([Token(typ, a, st'.pos + 1, k)] + inner);
  }

  /** A whole bracketed value, when what is inside leads from the opening bracket to st2. */
  lemma BoxGets(js: string, st: State, typ: Type, b: nat, k: nat, inner: seq<Token>, st2: State, st': State, cap: nat)
    requires Good(js, st) && (typ == Object || typ == Array) && At(js, st.pos, OpenChar(typ)) && |st.toks| < cap
    requires Gets(js, Opened(st, st.pos, typ), st2, cap) && Closed(inner) && st2.pos == b && At(js, b, CloseChar(typ))
    requires st2.toks == Add(Opened(st, st.pos, typ).toks, |st.toks|, k) + inner
    requires st' == State(b + 1, Bump(st.toks, st.super) + ([Token(typ, st.pos, b + 1, k)] + inner), Box(st), st2.count)
    ensures Gets(js, st, st', cap)
  {
    var st1 := Opened(st, st.pos, typ);
    OpenGets(js, st, typ, cap);
    CloseGets(js, st, typ, st.pos, k, inner, st2, cap);
    GetsTwice(js, st, st1, st2, cap);
    GetsTwice(js, st, st2, st', cap);
  }

  lemma AfterBox(st: State, v: Value)
    requires -1 <= st.super < |st.toks| && (v.List? || v.Dict?)
    ensures v.List? ==>
              After(st, v) == State(v.b + 1, Bump(st.toks, st.super)
                                             + ([Token(Array, v.a, v.b + 1, Many(v.vs))] + ToksAll(v.vs)),
                                    Box(st), st.count + 1 + |ToksAll(v.vs)|)
    ensures v.Dict? ==>
              After(st, v) == State(v.b + 1, Bump(st.toks, st.super)
                                             + ([Token(Object, v.a, v.b + 1, ManyPairs(v.ps))] + ToksPairs(v.ps)),
                                    Box(st), st.count + 1 + |ToksPairs(v.ps)|)
  {
  }

  // ----- the main induction -----

  /** The state after the values of an array, whose token is the innermost open one. */
  function AfterAll(st: State, vs: Values, b: nat): State
    requires 0 <= st.super < |st.toks|
  {
    State(b, Add(st.toks, st.super, Many(vs)) + ToksAll(vs), st.super, st.count + |ToksAll(vs)|)
  }

  lemma {:induction false} ValueGets(js: string, st: State, v: Value, cap: nat)
    requires Good(js, st) && Spells(js, v) && st.pos == v.a && |st.toks| + |Toks(v)| <= cap
    ensures Gets(js, st, After(st, v), cap)
    decreases v, 1
  {
    match v {
      case Text(_, _) => TextGets(js, st, v, cap);
      case Atom(_, _) => AtomGets(js, st, v, cap);
      case List(_, _, _) => ListGets(js, st, v, cap);
      case Dict(_, _, _) => DictGets(js, st, v, cap);
    }
  }

  /** The state after the pairs of an object; which token is then the superior one does
      not matter. */
  ghost predicate AfterPairs(st: State, ps: Pairs, b: nat, st': State)
    requires 0 <= st.super < |st.toks|
  {
    && st'.pos == b && st'.count == st.count + |ToksPairs(ps)|
    && st'.toks == Add(st.toks, st.super, ManyPairs(ps)) + ToksPairs(ps)
  }

  /** The opening bracket of v. */
  lemma BoxOpens(js: string, st: State, v: Value, typ: Type, cap: nat) returns (st1: State)
    requires Good(js, st) && Spells(js, v) && st.pos == v.a && |st.toks| + |Toks(v)| <= cap
    requires (v.List? && typ == Array) || (v.Dict? && typ == Object)
    ensures st1 == Opened(st, st.pos, typ) && Good(js, st1) && 0 <= st1.super == Box(st1) && IsBox(st1.toks[st1.super])
    ensures v.List? ==> SpellsAll(js, st1.pos, v.vs, v.b) && |st1.toks| + |ToksAll(v.vs)| <= cap
    ensures v.Dict? ==> SpellsPairs(js, st1.pos, v.ps, v.b) && |st1.toks| + |ToksPairs(v.ps)| <= cap
  {
    OpenGets(js, st, typ, cap);
    st1 := Opened(st, st.pos, typ);
  }

  lemma ListCloses(js: string, st: State, v: Value, st1: State, cap: nat)
    requires Good(js, st) && v.List? && Spells(js, v) && st.pos == v.a && |st.toks| < cap
    requires st1 == Opened(st, st.pos, Array) && Gets(js, st1, AfterAll(st1, v.vs, v.b), cap)
    ensures Gets(js, st, After(st, v), cap)
  {
    AllClosed(v.vs);
    AfterBox(st, v);
    BoxGets(js, st, Array, v.b, Many(v.vs), ToksAll(v.vs), AfterAll(st1, v.vs, v.b), After(st, v), cap);
  }

  lemma DictCloses(js: string, st: State, v: Value, st1: State, st2: State, cap: nat)
    requires Good(js, st) && v.Dict? && Spells(js, v) && st.pos == v.a && |st.toks| < cap
    requires st1 == Opened(st, st.pos, Object) && Gets(js, st1, st2, cap) && AfterPairs(st1, v.ps, v.b, st2)
    ensures Gets(js, st, After(st, v), cap)
  {
    PairsClosed(v.ps);
    AfterBox(st, v);
    BoxGets(js, st, Object, v.b, ManyPairs(v.ps), ToksPairs(v.ps), st2, After(st, v), cap);
  }

  lemma {:induction false} ListGets(js: string, st: State, v: Value, cap: nat)
    requires Good(js, st) && v.List? && Spells(js, v) && st.pos == v.a && |st.toks| + |Toks(v)| <= cap
    ensures Gets(js, st, After(st, v), cap)
    decreases v, 0
  {
    var st1 := BoxOpens(js, st, v, Array, cap);
    AllGets(js, st1, v.vs, v.b, cap);
    ListCloses(js, st, v, st1, cap);
  }

  lemma {:induction false} DictGets(js: string, st: State, v: Value, cap: nat)
    requires Good(js, st) && v.Dict? && Spells(js, v) && st.pos == v.a && |st.toks| + |Toks(v)| <= cap
    ensures Gets(js, st, After(st, v), cap)
    decreases v, 0
  {
    var st1 := BoxOpens(js, st, v, Object, cap);
    var st2 := PairsGet(js, st1, v.ps, v.b, cap);
    DictCloses(js, st, v, st1, st2, cap);
  }

  /** One value of an array. */
  lemma {:induction false} ElementGets(js: string, st: State, v: Value, cap: nat) returns (st': State)
    requires Good(js, st) && Blank(js, st.pos, v.a) && Spells(js, v) && |st.toks| + |Toks(v)| <= cap
    requires 0 <= st.super == Box(st) && IsBox(st.toks[st.super])
    ensures st' == State(Finish(v), Bump(st.toks, st.super) + Toks(v), st.super, st.count + |Toks(v)|)
    ensures Gets(js, st, st', cap) && Box(st') == st.super && IsBox(st'.toks[st.super])
    decreases v, 2
  {
    var st1 := st.(pos := v.a);
    SkipBlank(js, st, v.a, cap);
    ValueGets(js, st1, v, cap);
    st' := After(st1, v);
    GetsTwice(js, st, st1, st', cap);
    ToksClosed(v);
    BoxStays(st1, st', Toks(v), st1.super);
  }

  lemma {:induction false} AllGets(js: string, st: State, vs: Values, b: nat, cap: nat)
    requires Good(js, st) && SpellsAll(js, st.pos, vs, b) && |st.toks| + |ToksAll(vs)| <= cap
    requires 0 <= st.super == Box(st) && IsBox(st.toks[st.super])
    ensures Gets(js, st, AfterAll(st, vs, b), cap)
    decreases vs
  {
    match vs {
      case None =>
        SkipBlank(js, st, b, cap);
        assert AfterAll(st, vs, b) == st.(pos := b);
      case Some(v, c, rest) =>
        var st2 := ElementGets(js, st, v, cap);
        AddMore(st.toks, st.super, Toks(v), Many(rest), ToksAll(rest));
        if rest == None {
          SkipBlank(js, st2, b, cap);
          GetsTwice(js, st, st2, st2.(pos := b), cap);
          assert st2.(pos := b) == AfterAll(st, vs, b);
        } else {
          var st3 := CommaGets(js, st2, st.super, c, cap);
          GetsTwice(js, st, st2, st3, cap);
          AllGets(js, st3, rest, b, cap);
          GetsTwice(js, st, st3, AfterAll(st3, rest, b), cap);
        }
    }
  }

  lemma {:induction false} PairsGet(js: string, st: State, ps: Pairs, b: nat, cap: nat) returns (st': State)
    requires Good(js, st) && SpellsPairs(js, st.pos, ps, b) && |st.toks| + |ToksPairs(ps)| <= cap
    requires 0 <= st.super == Box(st) && IsBox(st.toks[st.super])
    ensures Gets(js, st, st', cap) && AfterPairs(st, ps, b, st')
    decreases ps
  {
    match ps {
      case Nothing =>
        SkipBlank(js, st, b, cap);
        st' := st.(pos := b);
        assert st'.toks == Add(st.toks, st.super, 0) + [];
      case Pair(ka, kb, co, v, c, rest) =>
        if rest == Nothing {
          st' := LastPairGets(js, st, ka, kb, co, v, b, cap);
          PairsMore(st, st', ps, b, st');
        } else {
          var st1 := NextPairGets(js, st, ka, kb, co, v, c, cap);
          st' := PairsGet(js, st1, rest, b, cap);
          GetsTwice(js, st, st1, st', cap);
          PairsMore(st, st1, ps, b, st');
        }
    }
  }

  /** The last pair, up to the closing bracket. */
  lemma {:induction false} LastPairGets(js: string, st: State, ka: nat, kb: nat, co: nat, v: Value, b: nat, cap: nat)
    returns (st': State)
    requires Good(js, st) && Blank(js, st.pos, ka) && IsString(js, ka, kb) && Blank(js, kb + 1, co) && At(js, co, ':')
    requires Blank(js, co + 1, v.a) && Spells(js, v) && |st.toks| + 1 + |Toks(v)| <= cap && Blank(js, Finish(v), b)
    requires 0 <= st.super == Box(st) && IsBox(st.toks[st.super])
    ensures Gets(js, st, st', cap) && st'.pos == b && st'.count == st.count + 1 + |Toks(v)|
    ensures st'.toks == Bump(st.toks, st.super) + ([Token(Str, ka + 1, kb, 1)] + Toks(v))
    decreases v, 3
  {
    var st1 := PairGets(js, st, ka, kb, co, v, cap);
    SkipBlank(js, st1, b, cap);
    st' := st1.(pos := b);
    GetsTwice(js, st, st1, st', cap);
  }

  /** Another pair, with the comma after it. */
  lemma {:induction false} NextPairGets(js: string, st: State, ka: nat, kb: nat, co: nat, v: Value, c: nat, cap: nat)
    returns (st': State)
    requires Good(js, st) && Blank(js, st.pos, ka) && IsString(js, ka, kb) && Blank(js, kb + 1, co) && At(js, co, ':')
    requires Blank(js, co + 1, v.a) && Spells(js, v) && |st.toks| + 1 + |Toks(v)| <= cap
    requires Blank(js, Finish(v), c) && At(js, c, ',')
    requires 0 <= st.super == Box(st) && IsBox(st.toks[st.super])
    ensures Gets(js, st, st', cap) && st'.pos == c + 1 && st'.count == st.count + 1 + |Toks(v)|
    ensures st'.toks == Bump(st.toks, st.super) + ([Token(Str, ka + 1, kb, 1)] + Toks(v))
    ensures st'.super == Box(st') == st.super && IsBox(st'.toks[st.super])
    decreases v, 3
  {
    var st1 := PairGets(js, st, ka, kb, co, v, cap);
    st' := CommaGets(js, st1, st.super, c, cap);
    GetsTwice(js, st, st1, st', cap);
  }

  /** A pair and then the rest. */
  lemma PairsMore(st: State, st2: State, ps: Pairs, b: nat, st': State)
    requires 0 <= st.super < |st.toks| && ps.Pair? && st2.count == st.count + 1 + |Toks(ps.value)|
    requires st2.toks == Bump(st.toks, st.super) + ([Token(Str, ps.ka + 1, ps.kb, 1)] + Toks(ps.value))
    requires if ps.tail == Nothing then st' == st2.(pos := b) else AfterPairs(st2.(super := st.super), ps.tail, b, st')
    ensures AfterPairs(st, ps, b, st')
  {
    var one := [Token(Str, ps.ka + 1, ps.kb, 1)] + Toks(ps.value);
    AddMore(st.toks, st.super, one, ManyPairs(ps.tail), ToksPairs(ps.tail));
    assert one + ToksPairs(ps.tail) == ToksPairs(ps);
  }

  /** A key and its value. */
  lemma {:induction false} PairGets(js: string, st: State, ka: nat, kb: nat, co: nat, v: Value,
                                    cap: nat) returns (st': State)
    requires Good(js, st) && Blank(js, st.pos, ka) && IsString(js, ka, kb) && Blank(js, kb + 1, co) && At(js, co, ':')
    requires Blank(js, co + 1, v.a) && Spells(js, v) && |st.toks| + 1 + |Toks(v)| <= cap
    requires 0 <= st.super == Box(st) && IsBox(st.toks[st.super])
    ensures Gets(js, st, st', cap) && st'.pos == Finish(v) && st'.count == st.count + 1 + |Toks(v)|
    ensures st'.toks == Bump(st.toks, st.super) + ([Token(Str, ka + 1, kb, 1)] + Toks(v))
    ensures Box(st') == st.super && IsBox(st'.toks[st.super])
    ensures st'.super == st.super || (st'.super == |st.toks| && !IsBox(st'.toks[st'.super]))
    decreases v, 2
  {
    var st1 := KeyGets(js, st, ka, kb, co, v.a, cap);
    ValueGets(js, st1, v, cap);
    st' := After(st1, v);
    GetsTwice(js, st, st1, st', cap);
    PairDone(st, st1, ka, kb, v);
  }

  /** A comma makes the innermost open object or array the superior token again. */
  lemma CommaGets(js: string, st: State, n: nat, c: nat, cap: nat) returns (st': State)
    requires Good(js, st) && Blank(js, st.pos, c) && At(js, c, ',') && n == Box(st) && n < |st.toks| &&
             IsBox(st.toks[n])
    requires st.super == n || (0 <= st.super && !IsBox(st.toks[st.super]))
    ensures st' == st.(pos := c + 1, super := n) && Gets(js, st, st', cap)
  {
    SkipBlank(js, st, c, cap);
    LastBoxIs(st.toks, |st.toks|, n);
    OneTurn(js, st.(pos := c), cap);
    st' := st.(pos := c + 1, super := n);
    GetsTwice(js, st, st.(pos := c), st', cap);
  }

  /** A colon makes the last token the superior one. */
  lemma ColonGets(js: string, st: State, cap: nat)
    requires Good(js, st) && At(js, st.pos, ':') && |st.toks| > 0
    ensures Gets(js, st, st.(pos := st.pos + 1, super := |st.toks| - 1), cap)
  {
    OneTurn(js, st, cap);
  }

  /** A key and its colon, up to the value: the key is the superior token. */
  lemma KeyGets(js: string, st: State, ka: nat, kb: nat, co: nat, p: nat, cap: nat) returns (st': State)
    requires Good(js, st) && Blank(js, st.pos, ka) && IsString(js, ka, kb) && Blank(js, kb + 1, co) && At(js, co, ':')
    requires Blank(js, co + 1, p) && |st.toks| < cap && 0 <= st.super
    ensures st' == State(p, Bump(st.toks, st.super) + [Token(Str, ka + 1, kb, 0)], |st.toks|, st.count + 1)
    ensures Gets(js, st, st', cap)
  {
    SkipBlank(js, st, ka, cap);
    var st1, key := st.(pos := ka), Text(ka, kb);
    TextGets(js, st1, key, cap);
    var st2 := After(st1, key);
    GetsTwice(js, st, st1, st2, cap);
    st' := st2.(pos := p, super := |st2.toks| - 1);
    ColonBetween(js, st2, co, p, st', cap);
    GetsTwice(js, st, st2, st', cap);
  }

  /** A colon with blanks around it. */
  lemma ColonBetween(js: string, st: State, co: nat, p: nat, st': State, cap: nat)
    requires Good(js, st) && Blank(js, st.pos, co) && At(js, co, ':') && Blank(js, co + 1, p) && |st.toks| > 0
    requires st' == st.(pos := p, super := |st.toks| - 1)
    ensures Gets(js, st, st', cap)
  {
    SkipBlank(js, st, co, cap);
    ColonGets(js, st.(pos := co), cap);
    var st1 := st.(pos := co + 1, super := |st.toks| - 1);
    GetsTwice(js, st, st.(pos := co), st1, cap);
    SkipBlank(js, st1, p, cap);
    GetsTwice(js, st, st1, st', cap);
  }

  /** The tokens after the value of a key. */
  lemma PairDone(st: State, st1: State, ka: nat, kb: nat, v: Value)
    requires 0 <= st.super < |st.toks| && st.super == Box(st) && IsBox(st.toks[st.super])
    requires st1 == State(v.a, Bump(st.toks, st.super) + [Token(Str, ka + 1, kb, 0)], |st.toks|, st.count + 1)
    ensures
      var st2 := After(st1, v);
      && st2.toks == Bump(st.toks, st.super) + ([Token(Str, ka + 1, kb, 1)] + Toks(v))
      && Box(st2) == st.super && IsBox(st2.toks[st.super])
      && (st2.super == st.super || (st2.super == |st.toks| && !IsBox(st2.toks[st2.super])))
  {
    var st2 := After(st1, v);
    BoxStays(st, st1, [Token(Str, ka + 1, kb, 0)], st.super);
    ToksClosed(v);
    BoxStays(st1, st2, Toks(v), |st.toks|);
  }

  /** The tokens of a JSON text are those of its structure, if there is room for them. */
  lemma TextTokens(js: string, v: Value, cap: nat)
    requires Blank(js, 0, v.a) && Spells(js, v) && Blank(js, Finish(v), |js|)
    requires |Toks(v)| <= cap
    ensures Parse(js, START, cap).code == |Toks(v)| && Parse(js, START, cap).st.toks == Toks(v)
    ensures Count(js, 0, 0) == |Toks(v)|
  {
    var st1 := START.(pos := v.a);
    SkipBlank(js, START, v.a, cap);
    ValueGets(js, st1, v, cap);
    var st2 := After(st1, v);
    GetsTwice(js, START, st1, st2, cap);
    SkipBlank(js, st2, |js|, cap);
    GetsTwice(js, START, st2, st2.(pos := |js|), cap);
    ToksClosed(v);
    BoxStays(st1, st2, Toks(v), -1);
    assert st2.toks == Toks(v);
    CountAgrees(js, START, cap);
  }
}
