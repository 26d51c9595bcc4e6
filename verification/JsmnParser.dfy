// jsmn_parse() and its helpers, in place on a token array (core/jsmn.c, strict mode, without parent links).
module JsmnParser {
  import opened Jsmn

  // enum jsmnerr
  const ERROR_NOMEM := -1
  const ERROR_INVAL := -2
  const ERROR_PART := -3

  function Code(e: Error): int {
    match e
    case NoMemory => ERROR_NOMEM
    case Invalid => ERROR_INVAL
    case Partial => ERROR_PART
  }

  // What is returned for the outcome of each pass.
  function FilledCode(f: Filled): int {
    match f
    case Tokens(toks) => |toks|
    case Refused(e) => Code(e)
  }

  function CountedCode(c: Counted): int {
    match c
    case Total(n) => n
    case Miscounted(e) => Code(e)
  }

  // Token k is the last one that is open, and of that kind.
  predicate Closable(toks: seq<Token>, k: int, kind: Kind) {
    0 <= k < |toks| && IsOpen(toks[k]) && toks[k].kind == kind && forall j | k < j < |toks| :: !IsOpen(toks[j])
  }

  class Parser {
    var pos: nat
    var toknext: nat
    var toksuper: int

    // jsmn_init()
    constructor ()
      ensures pos == 0 && toknext == 0 && toksuper == -1
    {
      pos, toknext, toksuper := 0, 0, -1;
    }

    // The parser stands at a state of the filling pass over the given array.
    ghost predicate Filling(tokens: array<Token>, num: nat)
      reads this, tokens
    {
      toknext <= num <= tokens.Length && -1 <= toksuper < toknext
    }

    ghost function Now(tokens: array<Token>): State
      requires toknext <= tokens.Length
      reads this, tokens
    {
      State(pos, tokens[..toknext], toksuper)
    }

    // Scans over a primitive from pos; on success pos is where it ends.
    method ScanOverPrimitive(js: string) returns (r: int)
      modifies `pos
      ensures var s := ScanPrimitive(js, old(pos));
        if s.Ends? then r == 0 && pos == s.pos else r == Code(s.error) && pos == old(pos)
    {
      var start := pos;
      while pos < |js| && js[pos] != '\0'
        invariant start <= pos
        invariant ScanPrimitive(js, pos) == ScanPrimitive(js, start)
      {
        if EndsPrimitive(js[pos]) {
          return 0;
        }
        if !IsPrintable(js[pos]) {
          pos := start;
          return ERROR_INVAL;
        }
        pos := pos + 1;
      }
      pos := start;
      return ERROR_PART;
    }

    // Up to four hexadecimal digits; pos is left on the last of them.
    method ScanOverHex(js: string, start: nat) returns (r: int)
      requires 1 <= pos <= |js|
      modifies `pos
      ensures var s := ScanHex(js, old(pos), 4);
        if s.Ends? then r == 0 && pos + 1 == s.pos else r == ERROR_INVAL && pos == start
    {
      var i := 0;
      while i < 4 && pos < |js| && js[pos] != '\0'
        invariant 0 <= i <= 4 && old(pos) <= pos <= |js|
        invariant ScanHex(js, pos, 4 - i) == ScanHex(js, old(pos), 4)
      {
        if !IsHex(js[pos]) {
          pos := start;
          return ERROR_INVAL;
        }
        pos := pos + 1;
        i := i + 1;
      }
      pos := pos - 1;
      return 0;
    }

    // Scans over a string from its opening quote; on success pos is at the closing one.
    method ScanOverString(js: string) returns (r: int)
      requires pos < |js|
      modifies `pos
      ensures var s := ScanString(js, old(pos) + 1);
        if s.Ends? then r == 0 && pos == s.pos else r == Code(s.error) && pos == old(pos)
    {
      var start := pos;
      pos := pos + 1;
      while pos < |js| && js[pos] != '\0'
        invariant start < pos
        invariant ScanString(js, pos) == ScanString(js, start + 1)
        decreases |js| - pos
      {
        var c := js[pos];
        if c == '"' {
          return 0;
        }
        if c == '\\' && pos + 1 < |js| {
          pos := pos + 1;
          if IsEscape(js[pos]) {
          } else if js[pos] == 'u' {
            pos := pos + 1;
            r := ScanOverHex(js, start);
            if r < 0 {
              return;
            }
          } else {
            pos := start;
            return ERROR_INVAL;
          }
        }
        pos := pos + 1;
      }
      pos := start;
      return ERROR_PART;
    }

    // jsmn_alloc_token()
    method AllocToken(tokens: array<Token>, num: nat) returns (i: int)
      requires toknext <= num <= tokens.Length
      modifies `toknext, tokens
      ensures tokens[..old(toknext)] == old(tokens[..toknext])
      ensures if old(toknext) >= num then i == -1 && toknext == old(toknext)
              else i == old(toknext) && toknext == old(toknext) + 1
    {
      if toknext >= num {
        return -1;
      }
      i := toknext;
      toknext := toknext + 1;
      tokens[i] := tokens[i].(start := -1, end := -1, size := 0);
    }

    // jsmn_parse_string() or jsmn_parse_primitive() once the extent is known: write the token.
    method WriteToken(tokens: array<Token>, num: nat, token: Token) returns (r: int)
      requires toknext <= num <= tokens.Length
      modifies `toknext, tokens
      ensures if old(toknext) >= num
              then r == ERROR_NOMEM && toknext == old(toknext) && tokens[..toknext] == old(tokens[..toknext])
              else r == 0 && toknext == old(toknext) + 1 && tokens[..toknext] == old(tokens[..toknext]) + [token]
    {
      var i := AllocToken(tokens, num);
      if i == -1 {
        return ERROR_NOMEM;
      }
      tokens[i] := token;
      return 0;
    }

    // tokens[toksuper].size++
    method BumpSuper(tokens: array<Token>, n: nat)
      requires n <= toknext <= tokens.Length && -1 <= toksuper < n
      modifies tokens
      ensures tokens[..n] == Bump(old(tokens[..n]), toksuper)
      ensures tokens[n..] == old(tokens[n..])
    {
      if toksuper != -1 {
        tokens[toksuper] := tokens[toksuper].(size := tokens[toksuper].size + 1);
      }
    }

    // Write a token and count it in the superior one.
    method AppendToken(tokens: array<Token>, num: nat, token: Token) returns (r: int)
      requires Filling(tokens, num)
      modifies `toknext, tokens
      ensures if old(toknext) >= num
              then r == ERROR_NOMEM && toknext == old(toknext)
              else r == 0 && toknext == old(toknext) + 1 && tokens[..toknext] == Bump(old(tokens[..toknext]), toksuper) + [token]
    {
      r := WriteToken(tokens, num, token);
      if r == 0 {
        ghost var n := toknext - 1;
        assert tokens[..n] == tokens[..toknext][..n] == old(tokens[..toknext]);
        assert tokens[n..][0] == tokens[..toknext][n] == token;
        BumpSuper(tokens, toknext - 1);
        assert tokens[n] == tokens[n..][0];
        assert tokens[..toknext] == tokens[..n] + [tokens[n]];
      }
    }

    // The last token below n that is still open, or -1.
    method FindOpen(tokens: array<Token>, n: nat) returns (i: int)
      requires n <= tokens.Length
      ensures i == LastOpen(tokens[..n])
    {
      i := n - 1;
      while i >= 0
        invariant -1 <= i < n
        invariant LastOpen(tokens[..n]) == LastOpen(tokens[..i + 1])
      {
        var t := tokens[i];
        if t.start != -1 && t.end == -1 {
          assert tokens[..i + 1][i] == t;
          return;
        }
        assert tokens[..i + 1][..i] == tokens[..i];
        i := i - 1;
      }
    }

    // The same with the test that a comma makes: the token must be an object or array.
    method FindOpenContainer(js: string, tokens: array<Token>, n: nat) returns (i: int)
      requires n <= tokens.Length && forall k | 0 <= k < n :: Placed(js, pos, tokens[k])
      ensures i == LastOpen(tokens[..n])
    {
      i := n - 1;
      while i >= 0
        invariant -1 <= i < n
        invariant LastOpen(tokens[..n]) == LastOpen(tokens[..i + 1])
      {
        var t := tokens[i];
        assert tokens[..i + 1][i] == t && Placed(js, pos, t);
        if t.kind == Array || t.kind == Object {
          if t.start != -1 && t.end == -1 {
            return;
          }
        }
        assert tokens[..i + 1][..i] == tokens[..i];
        i := i - 1;
      }
    }

    // '{' or '['
    method Open(js: string, tokens: array<Token>, num: nat) returns (r: int)
      requires Filling(tokens, num) && More(js, pos) && js[pos] in {'{', '['}
      modifies this, tokens
      ensures Stepped(StepAt(js, num, old(Now(tokens))), r, tokens, num)
    {
      r := AppendToken(tokens, num, Token(if js[pos] == '{' then Object else Array, pos, -1, 0));
      if r < 0 {
        return;
      }
      toksuper := toknext - 1;
    }

    // After one turn, before the pos++ of the loop.
    ghost predicate Stepped(step: Step, r: int, tokens: array<Token>, num: nat)
      reads this, tokens
    {
      match step
      case Stop(e) => r == Code(e)
      case Next(s) => r == 0 && Filling(tokens, num) && State(pos + 1, tokens[..toknext], toksuper) == s
    }

    // '}' or ']'
    method Close(js: string, tokens: array<Token>, num: nat) returns (r: int)
      requires Filling(tokens, num) && More(js, pos) && js[pos] in {'}', ']'}
      modifies this, tokens
      ensures Stepped(StepAt(js, num, old(Now(tokens))), r, tokens, num)
      ensures var before, kind := old(tokens[..toknext]), if js[old(pos)] == '}' then Object else Array;
        && (r == 0 || r == ERROR_INVAL) && (r == 0 <==> exists k :: Closable(before, k, kind))
        && forall k | r == 0 && Closable(before, k, kind) :: tokens[..toknext] == before[k := before[k].(end := old(pos) + 1)]
    {
      ghost var before := tokens[..toknext];
      var kind := if js[pos] == '}' then Object else Array;
      var i := FindOpen(tokens, toknext);
      if i == -1 {
        return ERROR_INVAL;
      }
      if tokens[i].kind != kind {
        return ERROR_INVAL;
      }
      assert Closable(before, i, kind);
      toksuper := -1;
      tokens[i] := tokens[i].(end := pos + 1);
      assert tokens[..i] == before[..i];
      toksuper := FindOpen(tokens, i);
      r := 0;
    }

    // '"'
    method ParseString(js: string, tokens: array<Token>, num: nat) returns (r: int)
      requires Filling(tokens, num) && More(js, pos) && js[pos] == '"'
      modifies this, tokens
      ensures Stepped(StepAt(js, num, old(Now(tokens))), r, tokens, num)
    {
      hide ScanPrimitive, ScanString, LastOpen, Bump;
      var start := pos;
      r := ScanOverString(js);
      if r < 0 {
        return;
      }
      r := AppendToken(tokens, num, Token(String, start + 1, pos, 0));
      if r < 0 {
        pos := start;
      }
    }

    // A number, a boolean or null; not in the place of a key, not after a value.
    method ParsePrimitive(js: string, tokens: array<Token>, num: nat) returns (r: int)
      requires Filling(tokens, num) && More(js, pos) && StartsPrimitive(js[pos])
      modifies this, tokens
      ensures Stepped(StepAt(js, num, old(Now(tokens))), r, tokens, num)
    {
      if toksuper != -1 {
        var t := tokens[toksuper];
        if t.kind == Object || (t.kind == String && t.size != 0) {
          return ERROR_INVAL;
        }
      }
      var start := pos;
      PrimitiveAdvances(js, pos);
      hide ScanPrimitive, ScanString, LastOpen, Bump;
      r := ScanOverPrimitive(js);
      if r < 0 {
        return;
      }
      r := AppendToken(tokens, num, Token(Primitive, start, pos, 0));
      pos := if r < 0 then start else pos - 1;
    }

    // ','
    method Comma(js: string, tokens: array<Token>, num: nat)
      requires Filling(tokens, num) && More(js, pos) && js[pos] == ',' && AllPlaced(js, Now(tokens))
      modifies this
      ensures Stepped(StepAt(js, num, old(Now(tokens))), 0, tokens, num)
    {
      if toksuper != -1 && tokens[toksuper].kind != Array && tokens[toksuper].kind != Object {
        assert forall k | 0 <= k < toknext :: tokens[k] == tokens[..toknext][k];
        var i := FindOpenContainer(js, tokens, toknext);
        if i >= 0 {
          toksuper := i;
        }
      }
    }

    // One turn of the main loop when there are tokens to write; inc says whether a token was counted.
    method FillTurn(js: string, tokens: array<Token>, num: nat) returns (r: int, inc: bool)
      requires Filling(tokens, num) && More(js, pos) && AllPlaced(js, Now(tokens))
      modifies this, tokens
      ensures Stepped(StepAt(js, num, old(Now(tokens))), r, tokens, num)
      ensures r == 0 ==> toknext == old(toknext) + if inc then 1 else 0
    {
      var c := js[pos];
      r, inc := 0, false;
      if c == '{' || c == '[' {
        inc := true;
        r := Open(js, tokens, num);
      } else if c == '}' || c == ']' {
        r := Close(js, tokens, num);
      } else if c == '"' {
        r := ParseString(js, tokens, num);
        inc := true;
      } else if IsSpace(c) {
      } else if c == ':' {
        toksuper := toknext - 1;
      } else if c == ',' {
        Comma(js, tokens, num);
      } else if StartsPrimitive(c) {
        r := ParsePrimitive(js, tokens, num);
        inc := true;
      } else {
        r := ERROR_INVAL;
      }
    }

    // One turn of the main loop when tokens is NULL: inc says whether a token was counted.
    method CountTurn(js: string) returns (r: int, inc: bool)
      requires More(js, pos)
      modifies this
      ensures r == 0 || r < 0
      ensures r == 0 ==> pos >= old(pos) && forall n: nat ::
        Count(js, old(pos), n) == Count(js, pos + 1, if inc then n + 1 else n)
      ensures r < 0 ==> forall n: nat :: CountedCode(Count(js, old(pos), n)) == r
    {
      var c := js[pos];
      r, inc := 0, false;
      if c == '{' || c == '[' {
        inc := true;
      } else if c == '}' || c == ']' || IsSpace(c) || c == ',' {
      } else if c == '"' {
        r := ScanOverString(js);
        inc := true;
      } else if c == ':' {
        toksuper := -1;
      } else if StartsPrimitive(c) {
        PrimitiveAdvances(js, pos);
        r := ScanOverPrimitive(js);
        if r == 0 {
          pos := pos - 1;
        }
        inc := true;
      } else {
        r := ERROR_INVAL;
      }
    }

    // jsmn_parse() right after jsmn_init(): without tokens it counts, with tokens it fills.
    method Parse(js: string, tokens: array?<Token>, num: nat) returns (rv: int)
      requires pos == 0 && toknext == 0 && toksuper == -1
      requires tokens != null ==> num <= tokens.Length
      modifies this, tokens
      ensures tokens == null ==> rv == CountedCode(Count(js, 0, 0))
      ensures tokens != null ==>
        && rv == FilledCode(Fill(js, num, START))
        && (rv >= 0 ==> rv <= num && Fill(js, num, START) == Tokens(tokens[..rv]))
    {
      if tokens == null {
        rv := CountAll(js);
      } else {
        rv := FillAll(js, tokens, num);
      }
    }

    method CountAll(js: string) returns (rv: int)
      requires pos == 0
      modifies this
      ensures rv == CountedCode(Count(js, 0, 0))
    {
      var count := 0;
      while pos < |js| && js[pos] != '\0'
        invariant Count(js, 0, 0) == Count(js, pos, count)
        decreases |js| - pos
      {
        var r, inc := CountTurn(js);
        if r < 0 {
          return r;
        }
        if inc {
          count := count + 1;
        }
        pos := pos + 1;
      }
      return count;
    }

    method FillAll(js: string, tokens: array<Token>, num: nat) returns (rv: int)
      requires pos == 0 && toknext == 0 && toksuper == -1 && num <= tokens.Length
      modifies this, tokens
      ensures rv == FilledCode(Fill(js, num, START))
      ensures rv >= 0 ==> rv <= num && Fill(js, num, START) == Tokens(tokens[..rv])
    {
      assert tokens[..0] == [];
      var count := toknext;
      while pos < |js| && js[pos] != '\0'
        invariant Filling(tokens, num) && Fill(js, num, START) == Fill(js, num, Now(tokens))
        invariant count == toknext && AllPlaced(js, Now(tokens))
        decreases |js| - pos
      {
        StepPlaced(js, num, Now(tokens));
        var r, inc := FillTurn(js, tokens, num);
        if r < 0 {
          return r;
        }
        if inc {
          count := count + 1;
        }
        pos := pos + 1;
      }
      var i := FindOpen(tokens, toknext);
      if i >= 0 {
        return ERROR_PART;
      }
      return count;
    }
  }
}
