/** Where a string ends, is bad or is unfinished, and what jsmn says to a JSON text that
    has not been read to its end (jsmn.h). */
module JsonCuts {
  import opened Json
  import opened JsonText

  // ----- strings -----

  /** js[p..q] are hexadecimal digits. */
  predicate HexDigits(js: string, p: nat, q: nat) {
    p <= q <= |js| && forall i | p <= i < q :: HexDigit(js[i])
  }

  /** One character or escape that is passed over, from p up to q: a backslash stands for
      itself at the very end, and the end may cut the digits of an escape short. */
  predicate Piece(js: string, p: nat, q: nat) {
    && p < q <= |js| && js[p] != '\"' && js[p] != '\0'
    && if js[p] != '\\' || p + 1 == |js| then q == p + 1
       else if Escape(js[p + 1]) then q == p + 2
       else js[p + 1] == 'u' && p + 2 <= q <= p + 6 && HexDigits(js, p + 2, q) && (q == p + 6 || AtEnd(js, q))
  }

  /** js[p..q] is made of such pieces. */
  ghost predicate Pieces(js: string, p: nat, q: nat)
    requires q <= |js|
    decreases q - p
  {
    p == q || exists r: nat :: p < r <= q && Piece(js, p, r) && Pieces(js, r, q)
  }

  /** A backslash with no escape after it: an unknown letter, or u and fewer than four
      digits before another character. */
  predicate BadEscape(js: string, p: nat) {
    && p + 1 < |js| && js[p] == '\\' && !Escape(js[p + 1])
    && (js[p + 1] == 'u' ==>
          exists q | p + 2 <= q < p + 6 :: HexDigits(js, p + 2, q) && !AtEnd(js, q) && !HexDigit(js[q]))
  }

  /** The digits of an escape, as far as the scanner takes them. */
  lemma {:induction false} HexRunIs(js: string, p: nat, n: nat)
    requires p <= |js|
    ensures
      var r := HexRun(js, p, n);
      if r == -1 then exists q: nat :: q < p + n && HexDigits(js, p, q) && !AtEnd(js, q) && !HexDigit(js[q])
      else r <= p + n && HexDigits(js, p, r) && (r == p + n || AtEnd(js, r))
    decreases n
  {
    if n > 0 && !AtEnd(js, p) {
      if HexDigit(js[p]) {
        HexRunIs(js, p + 1, n - 1);
        if HexRun(js, p, n) == -1 {
          var q: nat :| q < p + n && HexDigits(js, p + 1, q) && !AtEnd(js, q) && !HexDigit(js[q]);
          assert HexDigits(js, p, q);
        }
      } else {
        assert HexDigits(js, p, p);
      }
    }
  }

  /** The scanner takes one piece at a time, or stops. */
  lemma ScanStep(js: string, p: nat) returns (r: nat)
    requires p <= |js|
    ensures
      if AtEnd(js, p) then StrEnd(js, p) == Unfinished
      else if js[p] == '\"' then StrEnd(js, p) == Quote(p)
      else if BadEscape(js, p) then StrEnd(js, p) == BadString
      else Piece(js, p, r) && StrEnd(js, p) == StrEnd(js, r)
  {
    r := p + 1;
    if !AtEnd(js, p) && js[p] == '\\' && p + 1 < |js| {
      if Escape(js[p + 1]) {
        r := p + 2;
      } else if js[p + 1] == 'u' {
        HexRunIs(js, p + 2, 4);
        var q := HexRun(js, p + 2, 4);
        if q == -1 {
          assert BadEscape(js, p);
        } else {
          r := q;
          NotBad(js, p, q);
        }
      }
    }
  }

  lemma NotBad(js: string, p: nat, q: nat)
    requires p + 2 <= q <= p + 6 && HexDigits(js, p + 2, q) && (q == p + 6 || AtEnd(js, q)) && js[p + 1] == 'u'
    ensures !BadEscape(js, p)
  {
    forall r | p + 2 <= r < p + 6 && HexDigits(js, p + 2, r) && !AtEnd(js, r)
      ensures HexDigit(js[r])
    {
      assert r >= q ==> r == q || AtEnd(js, q);
    }
  }

  lemma OnePiece(js: string, p: nat, q: nat, r: nat)
    requires Piece(js, p, q) && Piece(js, p, r)
    ensures q == r && !BadEscape(js, p)
  {
    if js[p] == '\\' && p + 1 < |js| && js[p + 1] == 'u' {
      NotBad(js, p, q);
      assert q < r ==> AtEnd(js, q) && HexDigit(js[q]);
      assert r < q ==> AtEnd(js, r) && HexDigit(js[r]);
    }
  }

  lemma {:induction false} PassedOver(js: string, p: nat, q: nat)
    requires q <= |js| && p <= q && Pieces(js, p, q)
    ensures StrEnd(js, p) == StrEnd(js, q)
    decreases q - p
  {
    if p < q {
      var r: nat :| p < r <= q && Piece(js, p, r) && Pieces(js, r, q);
      var r' := ScanStep(js, p);
      OnePiece(js, p, r, r);
      OnePiece(js, p, r, r');
      PassedOver(js, r, q);
    }
  }

  lemma {:induction false} StopsAt(js: string, p: nat) returns (q: nat)
    requires p <= |js|
    ensures p <= q <= |js| && Pieces(js, p, q) && StrEnd(js, p) == StrEnd(js, q)
    ensures AtEnd(js, q) || js[q] == '\"' || BadEscape(js, q)
    decreases |js| - p
  {
    if AtEnd(js, p) || js[p] == '\"' || BadEscape(js, p) {
      q := p;
    } else {
      var r := ScanStep(js, p);
      q := StopsAt(js, r);
    }
  }

  /** Exactly when a string has its closing quote at q. */
  lemma QuoteIff(js: string, p: nat, q: nat)
    requires p <= |js|
    ensures StrEnd(js, p) == Quote(q) <==> p <= q < |js| && js[q] == '\"' && Pieces(js, p, q)
  {
    var e := StopsAt(js, p);
    var r := ScanStep(js, e);
    if p <= q < |js| && js[q] == '\"' && Pieces(js, p, q) {
      PassedOver(js, p, q);
    }
  }

  /** Exactly when it is bad: a bad escape comes first. */
  lemma BadIff(js: string, p: nat)
    requires p <= |js|
    ensures StrEnd(js, p) == BadString <==> exists q: nat :: p <= q <= |js| && Pieces(js, p, q) && BadEscape(js, q)
  {
    var e := StopsAt(js, p);
    var r := ScanStep(js, e);
    if q: nat :| p <= q <= |js| && Pieces(js, p, q) && BadEscape(js, q) {
      PassedOver(js, p, q);
      var r' := ScanStep(js, q);
    }
  }

  /** Exactly when it is unfinished: the end of the text comes first. */
  lemma UnfinishedIff(js: string, p: nat)
    requires p <= |js|
    ensures StrEnd(js, p) == Unfinished <==> exists q: nat :: p <= q <= |js| && Pieces(js, p, q) && AtEnd(js, q)
  {
    var e := StopsAt(js, p);
    var r := ScanStep(js, e);
    if q: nat :| p <= q <= |js| && Pieces(js, p, q) && AtEnd(js, q) {
      PassedOver(js, p, q);
    }
  }

  // ----- primitives -----

  /** A character that a primitive goes through. */
  predicate Inner(c: char) {
    32 < c as int < 127 && c !in {':', ',', ']', '}'}
  }

  predicate Ends(js: string, e: nat) {
    e == |js| || (e < |js| && js[e] in {'\0', '\t', '\r', '\n', ' ', ':', ',', ']', '}'})
  }

  /** Exactly where a primitive ends, and exactly when it is bad: a character that is not
      printable comes before any end. */
  lemma {:induction false} PrimitiveIff(js: string, p: nat, e: nat)
    requires p <= |js|
    ensures PrimEnd(js, p) == e <==> p <= e <= |js| && Ends(js, e) && forall i | p <= i < e :: Inner(js[i])
    ensures PrimEnd(js, p) == -1 <==>
              exists i: nat :: p <= i < |js| && !Inner(js[i]) && !Ends(js, i) && forall k | p <= k < i :: Inner(js[k])
    decreases |js| - p
  {
    if p < |js| && Inner(js[p]) {
      PrimitiveIff(js, p + 1, e);
    }
  }

  // ----- a text cut short -----

  /** The scanner does not look past where it stops, but for the escapes that a cut hits. */
  lemma {:induction false} CutHex(js: string, n: nat, p: nat, k: nat)
    requires p <= n <= |js| && HexRun(js, p, k) != -1
    ensures HexRun(js[..n], p, k) == if HexRun(js, p, k) <= n then HexRun(js, p, k) else n
    decreases k
  {
    if k > 0 && p < n && !AtEnd(js, p) {
      CutHex(js, n, p + 1, k - 1);
    }
  }

  /** A cut string is unfinished if the cut is not after its closing quote. */
  lemma {:induction false} CutString(js: string, n: nat, p: nat)
    requires p <= n <= |js| && StrEnd(js, p).Quote?
    ensures StrEnd(js[..n], p) == if StrEnd(js, p).at < n then StrEnd(js, p) else Unfinished
    decreases |js| - p
  {
    if p < n && js[p] != '\"' {
      if js[p] == '\\' && p + 1 < |js| && !Escape(js[p + 1]) {
        var q := HexRun(js, p + 2, 4);
        if p + 2 <= n {
          CutHex(js, n, p + 2, 4);
          if q <= n {
            CutString(js, n, q);
          }
        }
      } else {
        var q := if js[p] == '\\' && p + 1 < |js| then p + 2 else p + 1;
        if q <= n {
          CutString(js, n, q);
        }
      }
    }
  }

  /** A cut primitive ends at the cut. */
  lemma {:induction false} CutPrimitive(js: string, n: nat, p: nat)
    requires p <= n <= |js| && PrimEnd(js, p) != -1
    ensures PrimEnd(js[..n], p) == if PrimEnd(js, p) <= n then PrimEnd(js, p) else n
    decreases |js| - p
  {
    if p < n && !AtEnd(js, p) && !Delimiter(js[p]) {
      CutPrimitive(js, n, p + 1);
    }
  }

  /** Token 0 is an object or array that is not closed. */
  predicate Open0(toks: seq<Token>) {
    |toks| > 0 && IsOpen(toks[0])
  }

  lemma {:induction false} OpenMeansPart(toks: seq<Token>, n: nat)
    requires 0 < n <= |toks| && IsOpen(toks[0])
    ensures LastOpen(toks, n) != -1
  {
    if n > 1 {
      OpenMeansPart(toks, n - 1);
    }
  }

  /** One turn on the cut text: the same, or it ends in the middle of a string or a primitive. */
  lemma CutTurn(js: string, n: nat, st: State, cap: nat)
    requires Good(js, st) && st.pos < n <= |js| && !AtEnd(js, st.pos) && Turn(js, st, cap).Go?
    ensures Good(js[..n], st) && !AtEnd(js[..n], st.pos)
    ensures
      var st', r := Turn(js, st, cap).st, Turn(js[..n], st, cap);
      if st'.pos <= n then r == Go(st')
      else r == Stop(PART) || (r.Go? && r.st == Put(st, Token(Primitive, st.pos, n, 0), n))
  {
    var c := js[st.pos];
    if c == '\"' {
      CutString(js, n, st.pos + 1);
    } else if PrimEnd(js, st.pos) != -1 {
      CutPrimitive(js, n, st.pos);
    }
  }

  /** A token that is closed keeps its end. */
  lemma TurnEnds(js: string, st: State, cap: nat)
    requires Structured(js, st) && !AtEnd(js, st.pos) && Turn(js, st, cap).Go? && |st.toks| > 0
    ensures |Turn(js, st, cap).st.toks| > 0
    ensures !Open0(st.toks) ==> Turn(js, st, cap).st.toks[0].end == st.toks[0].end
  {
    assert MeantAt(js, st.toks, st.pos, 0);
  }

  lemma {:induction false} ParseEnds(js: string, st: State, cap: nat)
    requires Structured(js, st) && |st.toks| > 0
    ensures |Parse(js, st, cap).st.toks| > 0
    ensures !Open0(st.toks) ==> Parse(js, st, cap).st.toks[0].end == st.toks[0].end <= st.pos
    decreases |js| - st.pos
  {
    assert MeantAt(js, st.toks, st.pos, 0);
    if !AtEnd(js, st.pos) && Turn(js, st, cap).Go? {
      TurnGood(js, st, cap);
      TurnEnds(js, st, cap);
      StructuredTurn(js, st, cap);
      ParseEnds(js, Turn(js, st, cap).st, cap);
    }
  }

  /** From a state in which token 0 is still to be closed, beyond the cut. */
  lemma {:induction false} CutParse(js: string, n: nat, st: State, cap: nat)
    requires Structured(js, st) && st.pos <= n <= |js| && |st.toks| > 0
    requires Parse(js, st, cap).code >= 0 && |Parse(js, st, cap).st.toks| > 0
    requires Parse(js, st, cap).st.toks[0].end > n
    ensures Good(js[..n], st) && Parse(js[..n], st, cap).code == PART
    decreases |js| - st.pos
  {
    var cut := js[..n];
    ParseEnds(js, st, cap);
    OpenMeansPart(st.toks, |st.toks|);
    if st.pos < n {
      assert !AtEnd(js, st.pos);
      var st' := Turn(js, st, cap).st;
      TurnGood(js, st, cap);
      CutTurn(js, n, st, cap);
      if st'.pos <= n {
        StructuredTurn(js, st, cap);
        CutParse(js, n, st', cap);
      } else if Turn(cut, st, cap).Go? {
        var st2 := Turn(cut, st, cap).st;
        OpenMeansPart(st2.toks, |st2.toks|);
        assert AtEnd(cut, st2.pos);
      }
    }
  }

  /** An object or array of which the end is missing, at whatever point: jsmn asks for
      more bytes. */
  lemma CutText(js: string, v: Value, cap: nat, n: nat)
    requires Blank(js, 0, v.a) && Spells(js, v) && Blank(js, Finish(v), |js|) && |Toks(v)| <= cap
    requires (v.List? || v.Dict?) && v.a < n < Finish(v)
    ensures Parse(js[..n], START, cap).code == PART
  {
    TextTokens(js, v, cap);
    var st1, cut := START.(pos := v.a), js[..n];
    SkipBlank(js, START, v.a, cap);
    SkipBlank(cut, START, v.a, cap);
    OneTurn(js, st1, cap);
    var st2 := Turn(js, st1, cap).st;
    CutTurn(js, n, st1, cap);
    OneTurn(cut, st1, cap);
    StructuredTurn(js, st1, cap);
    CutParse(js, n, st2, cap);
  }

  /** And so to a string without its closing quote. */
  lemma CutTextString(js: string, v: Value, cap: nat, n: nat)
    requires Blank(js, 0, v.a) && Spells(js, v) && v.Text? && v.a < n < Finish(v)
    ensures Parse(js[..n], START, cap).code == PART
  {
    var st1, cut := START.(pos := v.a), js[..n];
    SkipBlank(cut, START, v.a, cap);
    StringScans(js, v.a + 1, v.b);
    CutString(js, n, v.a + 1);
  }

  // ----- every stop -----

  /** A token starts at p. */
  ghost predicate TokenAt(js: string, p: nat)
    requires p < |js|
  {
    || js[p] in {'{', '['}
    || (js[p] == '\"' && StrEnd(js, p + 1).Quote?)
    || (js[p] !in {'{', '[', '}', ']', '\"', ':', ','} && Inner(js[p]) && PrimEnd(js, p) != -1)
  }

  /** A bracket closes nothing: the innermost open token is not of its type. */
  ghost predicate Unmatched(js: string, st: State)
    requires Good(js, st) && st.pos < |js|
  {
    var i := LastOpen(st.toks, |st.toks|);
    || (js[st.pos] == '}' && (i == -1 || st.toks[i].typ != Object))
    || (js[st.pos] == ']' && (i == -1 || st.toks[i].typ != Array))
  }

  /** Exactly when a turn stops, and with which error. */
  lemma StopsWith(js: string, st: State, cap: nat)
    requires Good(js, st) && !AtEnd(js, st.pos)
    ensures Turn(js, st, cap) == Stop(NOMEM) <==> TokenAt(js, st.pos) && |st.toks| >= cap
    ensures Turn(js, st, cap) == Stop(PART) <==> js[st.pos] == '\"' && StrEnd(js, st.pos + 1) == Unfinished
    ensures Turn(js, st, cap) == Stop(INVAL) <==>
              || Unmatched(js, st)
              || (js[st.pos] == '\"' && StrEnd(js, st.pos + 1) == BadString)
              || (js[st.pos] !in {'{', '[', '}', ']', '\"'} && PrimEnd(js, st.pos) == -1)
    ensures Turn(js, st, cap).Stop? ==> Turn(js, st, cap).err in {NOMEM, PART, INVAL}
  {
    PrimitiveIff(js, st.pos, st.pos);
  }
}
