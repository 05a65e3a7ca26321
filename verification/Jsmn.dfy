/** jsmn.h in its own form: a parser that is updated in place and an array of tokens,
    which may be absent. */
module Jsmn {
  import opened Json

  class Parser {
    var pos: nat
    var toknext: nat
    var toksuper: int

    /** jsmn_init */
    constructor ()
      ensures pos == 0 && toknext == 0 && toksuper == -1
    {
      pos, toknext, toksuper := 0, 0, -1;
    }

    /** The state that the parser and its tokens stand for. */
    ghost function Now(tokens: array<Token>): State
      requires toknext <= tokens.Length
      reads this, tokens
    {
      State(pos, tokens[..toknext], toksuper, toknext)
    }

    /** jsmn_alloc_token followed by jsmn_fill_token. False if there is no room. */
    method AddToken(tokens: array<Token>, num: nat, t: Token) returns (ok: bool)
      requires num <= tokens.Length && toknext <= tokens.Length && t.size == 0
      modifies this`toknext, tokens
      ensures ok == (old(toknext) < num)
      ensures ok ==> toknext == old(toknext) + 1 && tokens[..toknext] == old(tokens[..toknext]) + [t]
      ensures !ok ==> toknext == old(toknext) && tokens[..] == old(tokens[..])
    {
      if toknext >= num {
        return false;
      }
      tokens[toknext] := tokens[toknext].(start := -1, end := -1, size := 0);
      tokens[toknext] := Token(t.typ, t.start, t.end, 0);
      toknext := toknext + 1;
      ok := true;
    }

    /** One child more for the superior token. */
    method AddChild(tokens: array<Token>)
      requires toknext <= tokens.Length && -1 <= toksuper < toknext
      modifies tokens
      ensures tokens[..toknext] == Bump(old(tokens[..toknext]), toksuper)
    {
      if toksuper != -1 {
        tokens[toksuper] := tokens[toksuper].(size := tokens[toksuper].size + 1);
      }
    }

    /** jsmn_parse_primitive */
    method ParsePrimitive(js: string, tokens: array?<Token>, num: nat) returns (r: int)
      requires !AtEnd(js, pos) && !Delimiter(js[pos])
      requires tokens != null ==> num <= tokens.Length && toknext <= tokens.Length
      modifies this`pos, this`toknext, tokens
      ensures tokens == null ==> toknext == old(toknext)
      ensures tokens != null && r != 0 ==> tokens[..] == old(tokens[..]) && toknext == old(toknext)
      ensures r != 0 ==> pos == old(pos)
      ensures
        var e := PrimEnd(js, old(pos));
        if e == -1 then r == INVAL
        else if tokens != null && old(toknext) >= num then r == NOMEM
        else
          && r == 0 && pos == e - 1
          && (tokens != null ==>
                toknext == old(toknext) + 1 <= num
                && tokens[..toknext] == old(tokens[..toknext]) + [Token(Primitive, old(pos), e, 0)])
    {
      var start := pos;
      while !AtEnd(js, pos)
        invariant start <= pos <= |js| && PrimEnd(js, start) == PrimEnd(js, pos)
        invariant toknext == old(toknext) && (tokens != null ==> tokens[..] == old(tokens[..]))
        decreases |js| - pos
      {
        if Delimiter(js[pos]) {
          break;
        }
        if !Printable(js[pos]) {
          pos := start;
          return INVAL;
        }
        pos := pos + 1;
      }
      if tokens == null {
        pos := pos - 1;
        return 0;
      }
      var ok := AddToken(tokens, num, Token(Primitive, start, pos, 0));
      if !ok {
        pos := start;
        return NOMEM;
      }
      pos := pos - 1;
      return 0;
    }

    /** The escape after a backslash: pos is at the character after it, and is left at
        the last character of the escape. */
    method SkipEscape(js: string) returns (ok: bool)
      requires pos < |js|
      modifies this`pos
      ensures SimpleEscape(js[old(pos)]) ==> ok && pos == old(pos)
      ensures !SimpleEscape(js[old(pos)]) && js[old(pos)] != 'u' ==> !ok
      ensures js[old(pos)] == 'u' ==> ok == (HexRun(js, old(pos) + 1, 4) != -1)
      ensures js[old(pos)] == 'u' && ok ==> pos + 1 == HexRun(js, old(pos) + 1, 4)
    {
      if SimpleEscape(js[pos]) {
        return true;
      }
      if js[pos] != 'u' {
        return false;
      }
      pos := pos + 1;
      ghost var from := pos;
      var i := 0;
      while i < 4 && !AtEnd(js, pos)
        invariant 0 <= i <= 4 && from <= pos <= |js| && HexRun(js, from, 4) == HexRun(js, pos, 4 - i)
      {
        if !Hex(js[pos]) {
          return false;
        }
        pos := pos + 1;
        i := i + 1;
      }
      pos := pos - 1;
      return true;
    }

    /** jsmn_parse_string */
    method ParseString(js: string, tokens: array?<Token>, num: nat) returns (r: int)
      requires !AtEnd(js, pos)
      requires tokens != null ==> num <= tokens.Length && toknext <= tokens.Length
      modifies this`pos, this`toknext, tokens
      ensures tokens == null ==> toknext == old(toknext)
      ensures tokens != null && r != 0 ==> tokens[..] == old(tokens[..]) && toknext == old(toknext)
      ensures r != 0 ==> pos == old(pos)
      ensures
        match StrEnd(js, old(pos) + 1)
        case BadString => r == INVAL
        case Unfinished => r == PART
        case Quote(e) =>
          if tokens != null && old(toknext) >= num then r == NOMEM
          else
            && r == 0 && pos == e
            && (tokens != null ==>
                  toknext == old(toknext) + 1 <= num
                  && tokens[..toknext] == old(tokens[..toknext]) + [Token(Str, old(pos) + 1, e, 0)])
    {
      var start := pos;
      pos := pos + 1;
      while !AtEnd(js, pos)
        invariant start < pos <= |js| && StrEnd(js, start + 1) == StrEnd(js, pos)
        invariant toknext == old(toknext) && (tokens != null ==> tokens[..] == old(tokens[..]))
        decreases |js| - pos
      {
        if js[pos] == '\"' {
          if tokens == null {
            return 0;
          }
          var ok := AddToken(tokens, num, Token(Str, start + 1, pos, 0));
          if !ok {
            pos := start;
            return NOMEM;
          }
          return 0;
        }
        if js[pos] == '\\' && pos + 1 < |js| {
          pos := pos + 1;
          var ok := SkipEscape(js);
          if !ok {
            pos := start;
            return INVAL;
          }
        }
        pos := pos + 1;
      }
      pos := start;
      return PART;
    }

    /** The case of '{' and '[' with tokens. */
    method OpenBox(js: string, tokens: array<Token>, num: nat, typ: Type) returns (r: int)
      requires num <= tokens.Length && toknext <= tokens.Length && Good(js, Now(tokens)) && pos < |js|
      modifies this`toknext, this`toksuper, tokens
      ensures toknext <= tokens.Length
      ensures r == 0 ==> OpenTurn(js, old(Now(tokens)), typ, num) == Go(Now(tokens).(pos := pos + 1))
      ensures r != 0 ==> OpenTurn(js, old(Now(tokens)), typ, num) == Stop(r) && Now(tokens) == old(Now(tokens))
    {
      var ok := AddToken(tokens, num, Token(typ, pos, -1, 0));
      if !ok {
        return NOMEM;
      }
      AddChild(tokens);
      toksuper := toknext - 1;
      return 0;
    }

    /** The last open token before n, or -1. */
    method FindOpen(tokens: array<Token>, n: nat) returns (i: int)
      requires n <= toknext <= tokens.Length
      ensures i == LastOpen(tokens[..toknext], n)
    {
      i := n - 1;
      while i >= 0
        invariant -1 <= i < n && LastOpen(tokens[..toknext], n) == LastOpen(tokens[..toknext], i + 1)
      {
        if IsOpen(tokens[i]) {
          return;
        }
        i := i - 1;
      }
    }

    /** The case of '}' and ']' with tokens. */
    method CloseBox(js: string, tokens: array<Token>, typ: Type) returns (r: int)
      requires toknext <= tokens.Length && Good(js, Now(tokens)) && pos < |js|
      modifies this`toksuper, tokens
      ensures r == 0 ==> CloseTurn(js, old(Now(tokens)), typ) == Go(Now(tokens).(pos := pos + 1))
      ensures r != 0 ==> CloseTurn(js, old(Now(tokens)), typ) == Stop(r) && Now(tokens) == old(Now(tokens))
    {
      var i := FindOpen(tokens, toknext);
      if i == -1 || tokens[i].typ != typ {
        return INVAL;
      }
      tokens[i] := tokens[i].(end := pos + 1);
      assert tokens[..toknext] == old(tokens[..toknext])[i := tokens[i]];
      toksuper := -1;
      i := FindOpen(tokens, i);
      if i >= 0 {
        toksuper := i;
      }
      return 0;
    }

    /** The case of ',' with tokens. */
    method Comma(js: string, tokens: array<Token>)
      requires toknext <= tokens.Length && Good(js, Now(tokens)) && pos < |js|
      modifies this`toksuper
      ensures CommaTurn(js, old(Now(tokens))) == Go(Now(tokens).(pos := pos + 1))
    {
      if toksuper != -1 && !IsBox(tokens[toksuper]) {
        ghost var toks := tokens[..toknext];
        var i := toknext - 1;
        while i >= 0
          invariant -1 <= i < toknext && LastBox(toks, toknext) == LastBox(toks, i + 1) && toksuper == old(toksuper)
        {
          if IsBox(tokens[i]) && IsOpen(tokens[i]) {
            toksuper := i;
            return;
          }
          i := i - 1;
        }
      }
    }

    /** One turn of jsmn_parse with tokens: n is what it adds to the count. pos++ is
        left to the loop. */
    method TurnTokens(js: string, tokens: array<Token>, num: nat) returns (r: int, n: nat)
      requires num <= tokens.Length && toknext <= tokens.Length && Good(js, Now(tokens)) && !AtEnd(js, pos)
      modifies this, tokens
      ensures toknext <= tokens.Length && r <= 0
      ensures r == 0 ==> Turn(js, old(Now(tokens)), num) == Go(Now(tokens).(pos := pos + 1))
      ensures r == 0 ==> toknext == old(toknext) + n
      ensures r != 0 ==> Turn(js, old(Now(tokens)), num) == Stop(r) && Now(tokens) == old(Now(tokens))
    {
      var c := js[pos];
      r, n := 0, 0;
      if c == '{' || c == '[' {
        n := 1;
        r := OpenBox(js, tokens, num, if c == '{' then Object else Array);
      } else if c == '}' || c == ']' {
        r := CloseBox(js, tokens, if c == '}' then Object else Array);
      } else if c == '\"' {
        r := ParseString(js, tokens, num);
        if r == 0 {
          n := 1;
          AddChild(tokens);
        }
      } else if c == '\t' || c == '\r' || c == '\n' || c == ' ' {
      } else if c == ':' {
        toksuper := toknext - 1;
      } else if c == ',' {
        Comma(js, tokens);
      } else {
        r := ParsePrimitive(js, tokens, num);
        if r == 0 {
          n := 1;
          AddChild(tokens);
        }
      }
    }

    /** jsmn_parse with tokens. */
    method ParseTokens(js: string, tokens: array<Token>, num: nat) returns (r: int)
      requires num <= tokens.Length && toknext <= tokens.Length && Good(js, Now(tokens))
      modifies this, tokens
      ensures toknext <= tokens.Length && Json.Parse(js, old(Now(tokens)), num) == Result(r, Now(tokens))
    {
      var count := toknext;
      while !AtEnd(js, pos)
        invariant toknext <= tokens.Length && Good(js, Now(tokens)) && count == toknext
        invariant Json.Parse(js, old(Now(tokens)), num) == Json.Parse(js, Now(tokens), num)
        decreases |js| - pos
      {
        TurnGood(js, Now(tokens), num);
        var n;
        r, n := TurnTokens(js, tokens, num);
        if r < 0 {
          return;
        }
        count := count + n;
        pos := pos + 1;
      }
      var i := FindOpen(tokens, toknext);
      return if i >= 0 then PART else count;
    }

    /** One turn of jsmn_parse without tokens. */
    method TurnCount(js: string) returns (r: int, n: nat)
      requires !AtEnd(js, pos)
      modifies this
      ensures toknext == old(toknext) && pos <= |js|
      ensures r == 0 ==> CountTurn(js, old(pos)) == (pos + 1, n)
      ensures r != 0 ==> r < 0 && CountTurn(js, old(pos)).0 == r
    {
      var c := js[pos];
      r, n := 0, 0;
      if c == '{' || c == '[' {
        n := 1;
      } else if c == '\"' {
        r := ParseString(js, null, 0);
        n := 1;
      } else if c == '}' || c == ']' || c == '\t' || c == '\r' || c == '\n' || c == ' ' || c == ',' {
      } else if c == ':' {
        toksuper := toknext - 1;
      } else {
        r := ParsePrimitive(js, null, 0);
        n := 1;
      }
    }

    /** jsmn_parse: with tokens, or without them, where it only counts. */
    method Parse(js: string, tokens: array?<Token>, num: nat) returns (r: int)
      requires pos <= |js|
      requires tokens != null ==> num <= tokens.Length && toknext <= tokens.Length && Good(js, Now(tokens))
      modifies this, tokens
      ensures tokens == null ==> r == Count(js, old(pos), old(toknext))
      ensures tokens != null ==>
                toknext <= tokens.Length && Json.Parse(js, old(Now(tokens)), num) == Result(r, Now(tokens))
    {
      if tokens != null {
        r := ParseTokens(js, tokens, num);
        return;
      }
      var count := toknext;
      while !AtEnd(js, pos)
        invariant pos <= |js| && Count(js, old(pos), old(toknext)) == Count(js, pos, count)
        decreases |js| - pos
      {
        var n;
        r, n := TurnCount(js);
        if r < 0 {
          return;
        }
        count := count + n;
        pos := pos + 1;
      }
      return count;
    }
  }
}
