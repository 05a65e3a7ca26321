/** The jsmn tokenizer as a function from text and state to state, one turn of its
    main loop at a time, and what its tokens mean (jsmn.h, without JSMN_STRICT and
    JSMN_PARENT_LINKS). */
module Json {
  const NOMEM := -1
  const INVAL := -2
  const PART := -3

  datatype Type = Undefined | Object | Array | Str | Primitive
  datatype Token = Token(typ: Type, start: int, end: int, size: int)

  /** The parser and the tokens it has allocated. */
  datatype State = State(pos: nat, toks: seq<Token>, super: int, count: int)

  datatype Turned = Go(st: State) | Stop(err: int)
  datatype Result = Result(code: int, st: State)

  predicate AtEnd(js: string, p: nat) {
    p >= |js| || js[p] == '\0'
  }

  // ----- primitives -----

  predicate Delimiter(c: char) {
    c == ':' || c == '\t' || c == '\r' || c == '\n' || c == ' ' || c == ',' || c == ']' || c == '}'
  }

  predicate Printable(c: char) {
    32 <= c as int < 127
  }

  /** Where the primitive that p is in ends, or -1 if it has an invalid character. */
  function PrimEnd(js: string, p: nat): (r: int)
    requires p <= |js|
    ensures r == -1 || p <= r <= |js|
    ensures r != -1 && !AtEnd(js, p) && !Delimiter(js[p]) ==> p < r
    decreases |js| - p
  {
    if AtEnd(js, p) || Delimiter(js[p]) then p
    else if !Printable(js[p]) then -1
    else PrimEnd(js, p + 1)
  }

  // ----- strings -----

  datatype Scan = Quote(at: nat) | BadString | Unfinished

  predicate Hex(c: char) {
    '0' <= c <= '9' || 'A' <= c <= 'F' || 'a' <= c <= 'f'
  }

  predicate SimpleEscape(c: char) {
    c == '\"' || c == '/' || c == '\\' || c == 'b' || c == 'f' || c == 'r' || c == 'n' || c == 't'
  }

  /** The position after up to n hexadecimal digits from p on, or -1 if another
      character comes first. */
  function HexRun(js: string, p: nat, n: nat): (r: int)
    requires p <= |js|
    ensures r == -1 || p <= r <= |js|
    decreases n
  {
    if n == 0 || AtEnd(js, p) then p else if !Hex(js[p]) then -1 else HexRun(js, p + 1, n - 1)
  }

  /** The closing quote of the string that p is in. */
  function StrEnd(js: string, p: nat): (r: Scan)
    requires p <= |js|
    ensures r.Quote? ==> p <= r.at < |js| && js[r.at] == '\"'
    decreases |js| - p
  {
    if AtEnd(js, p) then Unfinished
    else if js[p] == '\"' then Quote(p)
    else if js[p] == '\\' && p + 1 < |js| then
      if SimpleEscape(js[p + 1]) then StrEnd(js, p + 2)
      else if js[p + 1] == 'u' then
        var q := HexRun(js, p + 2, 4);
        if q == -1 then BadString else StrEnd(js, q)
      else BadString
    else StrEnd(js, p + 1)
  }

  // ----- one turn -----

  predicate IsOpen(t: Token) {
    t.start != -1 && t.end == -1
  }

  predicate IsBox(t: Token) {
    t.typ == Array || t.typ == Object
  }

  /** The last open token before n, or -1. */
  function LastOpen(toks: seq<Token>, n: nat): (r: int)
    requires n <= |toks|
    ensures -1 <= r < n
    ensures r >= 0 ==> IsOpen(toks[r])
    ensures forall j | r < j < n :: !IsOpen(toks[j])
  {
    if n == 0 then -1 else if IsOpen(toks[n - 1]) then n - 1 else LastOpen(toks, n - 1)
  }

  /** The last open object or array before n, or -1. */
  function LastBox(toks: seq<Token>, n: nat): (r: int)
    requires n <= |toks|
    ensures -1 <= r < n
  {
    if n == 0 then -1 else if IsBox(toks[n - 1]) && IsOpen(toks[n - 1]) then n - 1 else LastBox(toks, n - 1)
  }

  predicate Good(js: string, st: State) {
    st.pos <= |js| && -1 <= st.super < |st.toks| && st.count == |st.toks|
  }

  /** One child more for token i, if it is one. */
  function Bump(toks: seq<Token>, i: int): (r: seq<Token>)
    requires -1 <= i < |toks|
    ensures |r| == |toks|
    ensures forall j | 0 <= j < |toks| :: r[j] == toks[j].(size := r[j].size)
  {
    if i == -1 then toks else toks[i := toks[i].(size := toks[i].size + 1)]
  }

  /** A new token, the child of the superior one. */
  function Put(st: State, tok: Token, pos: nat): State
    requires -1 <= st.super < |st.toks|
  {
    State(pos, Bump(st.toks + [tok], st.super), st.super, st.count + 1)
  }

  function OpenTurn(js: string, st: State, typ: Type, cap: nat): Turned
    requires Good(js, st)
  {
    if |st.toks| >= cap then Stop(NOMEM)
    else Go(Put(st, Token(typ, st.pos, -1, 0), st.pos + 1).(super := |st.toks|))
  }

  function CloseTurn(js: string, st: State, typ: Type): Turned
    requires Good(js, st)
  {
    var i := LastOpen(st.toks, |st.toks|);
    if i == -1 || st.toks[i].typ != typ then Stop(INVAL)
    else
      var toks := st.toks[i := st.toks[i].(end := st.pos + 1)];
      Go(st.(pos := st.pos + 1, toks := toks, super := LastOpen(toks, i)))
  }

  function StringTurn(js: string, st: State, cap: nat): Turned
    requires Good(js, st) && st.pos < |js|
  {
    match StrEnd(js, st.pos + 1)
    case BadString => Stop(INVAL)
    case Unfinished => Stop(PART)
    case Quote(e) => if |st.toks| >= cap then Stop(NOMEM) else Go(Put(st, Token(Str, st.pos + 1, e, 0), e + 1))
  }

  function PrimitiveTurn(js: string, st: State, cap: nat): Turned
    requires Good(js, st)
  {
    var e := PrimEnd(js, st.pos);
    if e == -1 then Stop(INVAL)
    else if |st.toks| >= cap then Stop(NOMEM)
    else Go(Put(st, Token(Primitive, st.pos, e, 0), e))
  }

  function CommaTurn(js: string, st: State): Turned
    requires Good(js, st)
  {
    if st.super != -1 && !IsBox(st.toks[st.super]) && LastBox(st.toks, |st.toks|) != -1
    then Go(st.(pos := st.pos + 1, super := LastBox(st.toks, |st.toks|)))
    else Go(st.(pos := st.pos + 1))
  }

  /** One turn of the loop of jsmn_parse, with room for cap tokens. */
  function Turn(js: string, st: State, cap: nat): Turned
    requires Good(js, st) && !AtEnd(js, st.pos)
  {
    var c := js[st.pos];
    if c == '{' then OpenTurn(js, st, Object, cap)
    else if c == '[' then OpenTurn(js, st, Array, cap)
    else if c == '}' then CloseTurn(js, st, Object)
    else if c == ']' then CloseTurn(js, st, Array)
    else if c == '\"' then StringTurn(js, st, cap)
    else if c == '\t' || c == '\r' || c == '\n' || c == ' ' then Go(st.(pos := st.pos + 1))
    else if c == ':' then Go(st.(pos := st.pos + 1, super := |st.toks| - 1))
    else if c == ',' then CommaTurn(js, st)
    else PrimitiveTurn(js, st, cap)
  }

  lemma TurnGood(js: string, st: State, cap: nat)
    requires Good(js, st) && !AtEnd(js, st.pos)
    ensures Turn(js, st, cap).Go? ==> Good(js, Turn(js, st, cap).st) && st.pos < Turn(js, st, cap).st.pos
  {
  }

  /** jsmn_parse from a state on. Where it stops in a turn, that turn leaves no trace. */
  function Parse(js: string, st: State, cap: nat): Result
    requires Good(js, st)
    decreases |js| - st.pos
  {
    if AtEnd(js, st.pos) then
      Result(if LastOpen(st.toks, |st.toks|) != -1 then PART else st.count, st)
    else
      TurnGood(js, st, cap);
      match Turn(js, st, cap)
      case Stop(e) => Result(e, st)
      case Go(st') => Parse(js, st', cap)
  }

  const START := State(0, [], -1, 0)

  // ----- stopping for lack of tokens and going on -----

  lemma TurnMore(js: string, st: State, cap: nat, more: nat)
    requires Good(js, st) && !AtEnd(js, st.pos) && cap <= more
    ensures Turn(js, st, cap) != Stop(NOMEM) ==> Turn(js, st, more) == Turn(js, st, cap)
  {
  }

  /** A run that stops for lack of tokens and is continued with more room ends as a
      run with that room from the start. */
  lemma {:induction false} Resume(js: string, st: State, cap: nat, more: nat)
    requires Good(js, st) && cap <= more
    ensures Good(js, Parse(js, st, cap).st)
    ensures Parse(js, st, cap).code == NOMEM ==> Parse(js, Parse(js, st, cap).st, more) == Parse(js, st, more)
    ensures Parse(js, st, cap).code != NOMEM ==> Parse(js, st, more) == Parse(js, st, cap)
    decreases |js| - st.pos
  {
    if !AtEnd(js, st.pos) {
      TurnGood(js, st, cap);
      TurnMore(js, st, cap, more);
      if Turn(js, st, cap).Go? {
        Resume(js, Turn(js, st, cap).st, cap, more);
      }
    }
  }

  // ----- counting without tokens -----

  /** One turn with tokens == NULL: where to go on and whether a token was met. */
  function CountTurn(js: string, p: nat): (r: (int, int))
    requires !AtEnd(js, p)
    ensures r.0 < 0 || (p < r.0 <= |js| && 0 <= r.1 <= 1)
  {
    var c := js[p];
    if c == '{' || c == '[' then (p + 1, 1)
    else if c == '\"' then
      match StrEnd(js, p + 1) {
        case BadString => (INVAL, 0)
        case Unfinished => (PART, 0)
        case Quote(e) => (e + 1, 1)
      }
    else if c == '}' || c == ']' || c == '\t' || c == '\r' || c == '\n' || c == ' ' || c == ':' || c == ',' then
      (p + 1, 0)
    else if PrimEnd(js, p) == -1 then (INVAL, 0) else (PrimEnd(js, p), 1)
  }

  /** jsmn_parse with tokens == NULL. */
  function Count(js: string, p: nat, count: int): int
    requires p <= |js|
    decreases |js| - p
  {
    if AtEnd(js, p) then count
    else
      var (q, n) := CountTurn(js, p);
      if q < 0 then q else Count(js, q, count + n)
  }

  /** Counting agrees with every run that succeeds. */
  lemma {:induction false} CountAgrees(js: string, st: State, cap: nat)
    requires Good(js, st) && Parse(js, st, cap).code >= 0
    ensures Count(js, st.pos, st.count) == Parse(js, st, cap).code == |Parse(js, st, cap).st.toks|
    decreases |js| - st.pos
  {
    if !AtEnd(js, st.pos) {
      TurnGood(js, st, cap);
      var st' := Turn(js, st, cap).st;
      assert CountTurn(js, st.pos) == (st'.pos, st'.count - st.count);
      CountAgrees(js, st', cap);
    }
  }

  // ----- sizes -----

  function Sizes(toks: seq<Token>): int {
    if toks == [] then 0 else Sizes(toks[..|toks| - 1]) + toks[|toks| - 1].size
  }

  /** How many tokens the rest of the run allocates under a superior token. */
  function Children(js: string, st: State, cap: nat): nat
    requires Good(js, st)
    decreases |js| - st.pos
  {
    if AtEnd(js, st.pos) then 0
    else
      TurnGood(js, st, cap);
      match Turn(js, st, cap)
      case Stop(_) => 0
      case Go(st') => Children(js, st', cap) + if |st'.toks| > |st.toks| && st.super != -1 then 1 else 0
  }

  lemma {:induction false} SizesSet(toks: seq<Token>, i: nat, t: Token)
    requires i < |toks|
    ensures Sizes(toks[i := t]) == Sizes(toks) - toks[i].size + t.size
    decreases |toks|
  {
    var n := |toks| - 1;
    if i < n {
      SizesSet(toks[..n], i, t);
      assert toks[i := t][..n] == toks[..n][i := t];
    } else {
      assert toks[i := t][..n] == toks[..n];
    }
  }

  lemma SizesPut(st: State, tok: Token, pos: nat)
    requires -1 <= st.super < |st.toks| && tok.size == 0
    ensures Sizes(Put(st, tok, pos).toks) == Sizes(st.toks) + if st.super != -1 then 1 else 0
  {
    var toks := st.toks + [tok];
    assert toks[..|toks| - 1] == st.toks;
    if st.super != -1 {
      SizesSet(toks, st.super, toks[st.super].(size := toks[st.super].size + 1));
    }
  }

  lemma SizesTurn(js: string, st: State, cap: nat)
    requires Good(js, st) && !AtEnd(js, st.pos) && Turn(js, st, cap).Go?
    ensures
      var st' := Turn(js, st, cap).st;
      && Sizes(st'.toks) == Sizes(st.toks) + if |st'.toks| > |st.toks| && st.super != -1 then 1 else 0
  {
    var c, st' := js[st.pos], Turn(js, st, cap).st;
    if c == '{' || c == '[' {
      SizesPut(st, Token(if c == '{' then Object else Array, st.pos, -1, 0), st.pos + 1);
    } else if c == '}' || c == ']' {
      var i := LastOpen(st.toks, |st.toks|);
      SizesSet(st.toks, i, st'.toks[i]);
    } else if c == '\"' {
      SizesPut(st, Token(Str, st.pos + 1, StrEnd(js, st.pos + 1).at, 0), st'.pos);
    } else if |st'.toks| > |st.toks| {
      SizesPut(st, Token(Primitive, st.pos, st'.pos, 0), st'.pos);
    }
  }

  /** The sizes add up to the number of tokens that had a superior one. */
  lemma {:induction false} SizesAddUp(js: string, st: State, cap: nat)
    requires Good(js, st)
    ensures Sizes(Parse(js, st, cap).st.toks) == Sizes(st.toks) + Children(js, st, cap)
    decreases |js| - st.pos
  {
    if !AtEnd(js, st.pos) && Turn(js, st, cap).Go? {
      TurnGood(js, st, cap);
      SizesTurn(js, st, cap);
      SizesAddUp(js, Turn(js, st, cap).st, cap);
    }
  }

  // ----- what the tokens are -----

  function OpenChar(typ: Type): char {
    if typ == Object then '{' else '['
  }

  function CloseChar(typ: Type): char {
    if typ == Object then '}' else ']'
  }

  /** A token is a bracket with its matching bracket if there is one yet, or the text
      between two quotes, or the text of a primitive; it is before p. */
  ghost predicate Meant(js: string, t: Token, p: nat) {
    match t.typ
    case Undefined => false
    case Str => 1 <= t.start <= t.end < p <= |js| && js[t.start - 1] == '\"' && StrEnd(js, t.start) == Quote(t.end)
    case Primitive => 0 <= t.start < t.end <= p <= |js| && PrimEnd(js, t.start) == t.end
    case _ =>
      && 0 <= t.start < p <= |js| && js[t.start] == OpenChar(t.typ)
      && (t.end != -1 ==> t.start + 1 < t.end <= p && js[t.end - 1] == CloseChar(t.typ))
  }

  /** Tokens in order: t ends before u starts or u is inside t. */
  ghost predicate InOrder(t: Token, u: Token) {
    && t.start < u.start
    && (t.end != -1 ==> t.end <= u.start || (u.end != -1 && u.end <= t.end))
  }

  ghost predicate Ordered(toks: seq<Token>, i: nat, j: nat)
    requires i < |toks| && j < |toks|
  {
    InOrder(toks[i], toks[j])
  }

  ghost predicate MeantAt(js: string, toks: seq<Token>, p: nat, i: nat)
    requires i < |toks|
  {
    Meant(js, toks[i], p)
  }

  ghost predicate Structured(js: string, st: State) {
    && Good(js, st)
    && (forall i: nat | i < |st.toks| :: MeantAt(js, st.toks, st.pos, i))
    && (forall i: nat, j: nat | i < j < |st.toks| :: Ordered(st.toks, i, j))
  }

  /** Later on in the text the old tokens mean the same. */
  lemma StructuredLater(js: string, st: State, st': State)
    requires Structured(js, st) && Good(js, st') && st'.toks == st.toks && st.pos <= st'.pos
    ensures Structured(js, st')
  {
    forall i: nat | i < |st'.toks|
      ensures MeantAt(js, st'.toks, st'.pos, i)
    {
      assert MeantAt(js, st.toks, st.pos, i);
    }
  }

  lemma StructuredPut(js: string, st: State, tok: Token, pos: nat, st': State)
    requires Structured(js, st) && st.pos <= tok.start && st.pos <= pos && Meant(js, tok, pos)
    requires st' == Put(st, tok, pos).(super := st'.super) && -1 <= st'.super < |st'.toks|
    ensures Structured(js, st')
  {
    var n := |st.toks|;
    forall i: nat | i <= n
      ensures MeantAt(js, st'.toks, pos, i)
    {
      assert i < n ==> MeantAt(js, st.toks, st.pos, i);
    }
    forall i: nat, j: nat | i < j <= n
      ensures Ordered(st'.toks, i, j)
    {
      if j < n {
        assert Ordered(st.toks, i, j);
      } else {
        assert MeantAt(js, st.toks, st.pos, i);
      }
    }
  }

  /** A closing bracket closes the innermost open token, and only one of its type. */
  lemma ClosesInnermost(js: string, st: State, typ: Type)
    requires Structured(js, st) && CloseTurn(js, st, typ).Go?
    ensures
      var i, toks' := LastOpen(st.toks, |st.toks|), CloseTurn(js, st, typ).st.toks;
      && 0 <= i < |st.toks| && st.toks[i].typ == typ && toks' == st.toks[i := st.toks[i].(end := st.pos + 1)]
      && forall j: nat | i < j < |st.toks| :: st.toks[i].start < st.toks[j].start && st.toks[j].end != -1
  {
    var i := LastOpen(st.toks, |st.toks|);
    forall j: nat | i < j < |st.toks|
      ensures st.toks[i].start < st.toks[j].start && st.toks[j].end != -1
    {
      assert Ordered(st.toks, i, j) && MeantAt(js, st.toks, st.pos, j);
    }
  }

  lemma StructuredClose(js: string, st: State, typ: Type)
    requires Structured(js, st) && CloseTurn(js, st, typ).Go? && st.pos < |js| && js[st.pos] == CloseChar(typ)
    ensures Structured(js, CloseTurn(js, st, typ).st)
  {
    var i, st' := LastOpen(st.toks, |st.toks|), CloseTurn(js, st, typ).st;
    ClosesInnermost(js, st, typ);
    forall j: nat | j < |st.toks|
      ensures MeantAt(js, st'.toks, st'.pos, j)
    {
      assert MeantAt(js, st.toks, st.pos, j);
    }
    forall j: nat, k: nat | j < k < |st.toks|
      ensures Ordered(st'.toks, j, k)
    {
      assert Ordered(st.toks, j, k) && MeantAt(js, st.toks, st.pos, k);
    }
  }

  lemma StructuredTurn(js: string, st: State, cap: nat)
    requires Structured(js, st) && !AtEnd(js, st.pos) && Turn(js, st, cap).Go?
    ensures Structured(js, Turn(js, st, cap).st)
  {
    TurnGood(js, st, cap);
    var c, st' := js[st.pos], Turn(js, st, cap).st;
    if c == '{' || c == '[' {
      StructuredPut(js, st, Token(if c == '{' then Object else Array, st.pos, -1, 0), st.pos + 1, st');
    } else if c == '}' || c == ']' {
      StructuredClose(js, st, if c == '}' then Object else Array);
    } else if c == '\"' {
      StructuredPut(js, st, Token(Str, st.pos + 1, StrEnd(js, st.pos + 1).at, 0), st'.pos, st');
    } else if |st'.toks| > |st.toks| {
      StructuredPut(js, st, Token(Primitive, st.pos, st'.pos, 0), st'.pos, st');
    } else {
      StructuredLater(js, st, st');
    }
  }

  lemma {:induction false} StructuredParse(js: string, st: State, cap: nat)
    requires Structured(js, st)
    ensures Structured(js, Parse(js, st, cap).st)
    ensures Parse(js, st, cap).code >= 0 ==>
              forall i: nat | i < |Parse(js, st, cap).st.toks| :: !IsOpen(Parse(js, st, cap).st.toks[i])
    decreases |js| - st.pos
  {
    if !AtEnd(js, st.pos) && Turn(js, st, cap).Go? {
      TurnGood(js, st, cap);
      StructuredTurn(js, st, cap);
      StructuredParse(js, Turn(js, st, cap).st, cap);
    }
  }

  /** What a successful run has found. */
  ghost predicate Tokens(js: string, toks: seq<Token>) {
    && (forall i: nat | i < |toks| :: MeantAt(js, toks, |js|, i) && 0 <= toks[i].start <= toks[i].end <= |js|)
    && (forall i: nat, j: nat | i < j < |toks| :: Nested(toks, i, j))
  }

  /** Token i starts before token j, and ends before it starts or not before it ends. */
  ghost predicate Nested(toks: seq<Token>, i: nat, j: nat)
    requires i < |toks| && j < |toks|
  {
    toks[i].start < toks[j].start && (toks[i].end <= toks[j].start || toks[j].end <= toks[i].end)
  }

  /** After a run that succeeds, from the start: the count is that of the tokens, all
      are closed, they are in the order of their starts, nested or apart, and each is
      what its type says. */
  lemma ParseTokens(js: string, cap: nat)
    requires Parse(js, START, cap).code >= 0
    ensures Parse(js, START, cap).code == |Parse(js, START, cap).st.toks| == Count(js, 0, 0)
    ensures Tokens(js, Parse(js, START, cap).st.toks)
  {
    var st := Parse(js, START, cap).st;
    CountAgrees(js, START, cap);
    StructuredParse(js, START, cap);
    forall i: nat | i < |st.toks|
      ensures MeantAt(js, st.toks, |js|, i) && 0 <= st.toks[i].start <= st.toks[i].end <= |js|
    {
      assert MeantAt(js, st.toks, st.pos, i) && !IsOpen(st.toks[i]);
    }
    forall i: nat, j: nat | i < j < |st.toks|
      ensures Nested(st.toks, i, j)
    {
      assert Ordered(st.toks, i, j) && !IsOpen(st.toks[i]) && MeantAt(js, st.toks, st.pos, i);
    }
  }
}
