// The jsmn tokenizer in strict mode (core/jsmn.c), as functions on the input.
//
// `Fill` is the pass that writes tokens, `Count` the pass that only counts them.  The parser itself, which
// works in place on a token array, is in JsmnParser.dfy and is proved equal to these.
module Jsmn {

  datatype Kind = Object | Array | String | Primitive

  datatype Token = Token(kind: Kind, start: int, end: int, size: nat)

  datatype Error = NoMemory | Invalid | Partial

  // ---------------------------------------------------------------- characters

  predicate IsSpace(c: char) {
    c in {'\t', '\r', '\n', ' '}
  }

  predicate EndsPrimitive(c: char) {
    IsSpace(c) || c in {',', ']', '}'}
  }

  predicate StartsPrimitive(c: char) {
    c == '-' || '0' <= c <= '9' || c in {'t', 'f', 'n'}
  }

  predicate IsPrintable(c: char) {
    32 <= c as int < 127
  }

  predicate IsHex(c: char) {
    '0' <= c <= '9' || 'A' <= c <= 'F' || 'a' <= c <= 'f'
  }

  predicate IsEscape(c: char) {
    c in {'"', '/', '\\', 'b', 'f', 'r', 'n', 't'}
  }

  // The parser stops at a NUL as it does at the end of the buffer.
  predicate More(js: string, pos: nat) {
    pos < |js| && js[pos] != '\0'
  }

  // ---------------------------------------------------------------- strings and primitives

  // Where a string or a primitive ends, if it does.
  datatype Scan = Ends(pos: nat) | Fails(error: Error)

  function ScanPrimitive(js: string, pos: nat): (r: Scan)
    ensures r.Ends? ==> pos <= r.pos < |js|
    ensures r.Fails? ==> r.error in {Invalid, Partial}
    decreases |js| - pos
  {
    if !More(js, pos) then Fails(Partial)
    else if EndsPrimitive(js[pos]) then Ends(pos)
    else if !IsPrintable(js[pos]) then Fails(Invalid)
    else ScanPrimitive(js, pos + 1)
  }

  // At most n hexadecimal digits.
  function ScanHex(js: string, pos: nat, n: nat): (r: Scan)
    requires pos <= |js|
    ensures r.Ends? ==> pos <= r.pos <= |js|
    ensures r.Fails? ==> r.error == Invalid
    decreases n
  {
    if n == 0 || !More(js, pos) then Ends(pos)
    else if !IsHex(js[pos]) then Fails(Invalid)
    else ScanHex(js, pos + 1, n - 1)
  }

  // From after the opening quote to the closing one.
  function ScanString(js: string, pos: nat): (r: Scan)
    ensures r.Ends? ==> pos <= r.pos < |js|
    ensures r.Fails? ==> r.error in {Invalid, Partial}
    decreases |js| - pos
  {
    if !More(js, pos) then Fails(Partial)
    else if js[pos] == '"' then Ends(pos)
    else if js[pos] == '\\' && pos + 1 < |js| then
      if IsEscape(js[pos + 1]) then ScanString(js, pos + 2)
      else if js[pos + 1] == 'u' then
        match ScanHex(js, pos + 2, 4)
        case Ends(p) => ScanString(js, p)
        case Fails(e) => Fails(e)
      else Fails(Invalid)
    else ScanString(js, pos + 1)
  }

  // ---------------------------------------------------------------- the token array

  predicate IsOpen(t: Token) {
    t.start != -1 && t.end == -1
  }

  // The last token that is still open, or -1.
  function LastOpen(toks: seq<Token>): (k: int)
    ensures -1 <= k < |toks|
    ensures k != -1 ==> IsOpen(toks[k])
    ensures forall i | k < i < |toks| :: !IsOpen(toks[i])
  {
    if toks == [] then -1
    else if IsOpen(toks[|toks| - 1]) then |toks| - 1
    else LastOpen(toks[..|toks| - 1])
  }

  // tokens[super].size++
  function Bump(toks: seq<Token>, super: int): (r: seq<Token>)
    requires -1 <= super < |toks|
    ensures |r| == |toks|
  {
    if super == -1 then toks else toks[super := toks[super].(size := toks[super].size + 1)]
  }

  // ---------------------------------------------------------------- the filling pass

  // pos, the tokens written so far (toknext is their number) and toksuper.
  datatype State = State(pos: nat, toks: seq<Token>, super: int) {
    predicate Valid() {
      -1 <= super < |toks|
    }
  }

  datatype Step = Next(state: State) | Stop(error: Error)

  // One turn of the main loop, with room for cap tokens.
  function StepAt(js: string, cap: nat, st: State): (r: Step)
    requires st.Valid() && More(js, st.pos)
    ensures r.Next? ==> r.state.Valid() && st.pos < r.state.pos <= |js| && |st.toks| <= |r.state.toks|
  {
    var State(pos, toks, super) := st;
    var c := js[pos];
    if c in {'{', '['} then
      if |toks| >= cap then Stop(NoMemory)
      else
        Next(State(pos + 1, Bump(toks, super) + [Token(if c == '{' then Object else Array, pos, -1, 0)], |toks|))
    else if c in {'}', ']'} then
      var k := LastOpen(toks);
      if k == -1 || toks[k].kind != (if c == '}' then Object else Array) then Stop(Invalid)
      else Next(State(pos + 1, toks[k := toks[k].(end := pos + 1)], LastOpen(toks[..k])))
    else if c == '"' then
      match ScanString(js, pos + 1)
      case Fails(e) => Stop(e)
      case Ends(e) =>
        if |toks| >= cap then Stop(NoMemory)
        else Next(State(e + 1, Bump(toks, super) + [Token(String, pos + 1, e, 0)], super))
    else if IsSpace(c) then Next(st.(pos := pos + 1))
    else if c == ':' then Next(State(pos + 1, toks, |toks| - 1))
    else if c == ',' then
      if super != -1 && toks[super].kind !in {Object, Array} && LastOpen(toks) != -1
      then Next(State(pos + 1, toks, LastOpen(toks)))
      else Next(st.(pos := pos + 1))
    else if StartsPrimitive(c) then
      if super != -1 && (toks[super].kind == Object || (toks[super].kind == String && toks[super].size != 0))
      then Stop(Invalid)
      else
        match ScanPrimitive(js, pos)
        case Fails(e) => Stop(e)
        case Ends(e) =>
          PrimitiveAdvances(js, pos);
          if |toks| >= cap then Stop(NoMemory)
          else Next(State(e, Bump(toks, super) + [Token(Primitive, pos, e, 0)], super))
    else Stop(Invalid)
  }

  lemma PrimitiveAdvances(js: string, pos: nat)
    requires More(js, pos) && StartsPrimitive(js[pos])
    ensures ScanPrimitive(js, pos).Ends? ==> pos < ScanPrimitive(js, pos).pos
  {}

  // Only objects and arrays are ever open. A closed token is inside of the text, and only a string can be empty.
  predicate Placed(js: string, pos: nat, t: Token) {
    && 0 <= t.start
    && if t.end == -1 then t.kind in {Object, Array} && t.start < pos
       else 1 <= t.end <= |js| && t.start <= t.end && (t.kind != String ==> t.start < t.end)
  }

  ghost predicate AllPlaced(js: string, st: State) {
    forall i | 0 <= i < |st.toks| :: Placed(js, st.pos, st.toks[i])
  }

  lemma StepPlaced(js: string, cap: nat, st: State)
    requires st.Valid() && More(js, st.pos) && AllPlaced(js, st)
    ensures var r := StepAt(js, cap, st); r.Next? ==> AllPlaced(js, r.state)
  {
    if StartsPrimitive(js[st.pos]) {
      PrimitiveAdvances(js, st.pos);
    }
    hide ScanPrimitive, ScanString, LastOpen;
  }

  datatype Filled = Tokens(toks: seq<Token>) | Refused(error: Error)

  function Fill(js: string, cap: nat, st: State): Filled
    requires st.Valid()
    decreases |js| - st.pos
  {
    if !More(js, st.pos) then
      if LastOpen(st.toks) != -1 then Refused(Partial) else Tokens(st.toks)
    else
      match StepAt(js, cap, st)
      case Next(s) => Fill(js, cap, s)
      case Stop(e) => Refused(e)
  }

  // ---------------------------------------------------------------- the counting pass

  datatype Counted = Total(n: nat) | Miscounted(error: Error)

  function Count(js: string, pos: nat, n: nat): Counted
    decreases |js| - pos
  {
    if !More(js, pos) then Total(n)
    else
      var c := js[pos];
      if c in {'{', '['} then Count(js, pos + 1, n + 1)
      else if c in {'}', ']', ':', ','} || IsSpace(c) then Count(js, pos + 1, n)
      else if c == '"' then
        match ScanString(js, pos + 1)
        case Fails(e) => Miscounted(e)
        case Ends(e) => Count(js, e + 1, n + 1)
      else if StartsPrimitive(c) then
        match ScanPrimitive(js, pos)
        case Fails(e) => Miscounted(e)
        case Ends(e) => PrimitiveAdvances(js, pos); Count(js, e, n + 1)
      else Miscounted(Invalid)
  }

  const START := State(0, [], -1)
}
