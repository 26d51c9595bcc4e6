// Which texts the tokenizer takes and which it refuses, for any characters whatever (core/jsmn.c): what its tokens look
// like in the text, and the error of a text without tokens.
module JsmnRefusal {
  import opened Common
  import opened Jsmn
  import opened Json
  import opened JsmnGrammar
  import opened JsmnTheorems

  // ---------------------------------------------------------------- strings

  // A backslash before something that is no escape, or fewer than four hexadecimal digits.
  predicate BadEscape(js: string, i: nat) {
    && i + 1 < |js| && js[i] == '\\' && !IsEscape(js[i + 1])
    && (js[i + 1] == 'u' ==> BadDigits(js, i + 2, 4))
  }

  predicate BadDigits(js: string, p: nat, n: nat)
    decreases n
  {
    n > 0 && More(js, p) && (!IsHex(js[p]) || BadDigits(js, p + 1, n - 1))
  }

  lemma {:induction false} HexEnds(js: string, p: nat, n: nat)
    requires p <= |js|
    ensures ScanHex(js, p, n) == Fails(Invalid) <==> BadDigits(js, p, n)
    ensures var r := ScanHex(js, p, n);
      r.Ends? ==> r.pos <= p + n && (forall i | p <= i < r.pos :: IsHex(js[i])) && (r.pos < p + n ==> !More(js, r.pos))
    decreases n
  {
    if n > 0 && More(js, p) && IsHex(js[p]) { HexEnds(js, p + 1, n - 1); }
  }

  // A string that ends has a legal body and its closing quote.
  lemma {:induction false} StringEnds(js: string, p: nat)
    ensures var r := ScanString(js, p);
      r.Ends? ==> r.pos < |js| && js[r.pos] == '"' && LegalBody(js[p..r.pos])
    decreases |js| - p
  {
    var r := ScanString(js, p);
    if r.Ends? && js[p] != '"' {
      var k := if js[p] != '\\' then 1 else if IsEscape(js[p + 1]) then 2 else 6;
      if k == 6 { HexEnds(js, p + 2, 4); }
      StringEnds(js, p + k);
      BodyStep(js, p, k, r.pos);
    }
  }

  // One character or one escape in front of a legal body.
  predicate Unit(js: string, p: nat, k: nat) {
    && p + k <= |js|
    && if k == 1 then js[p] !in {'"', '\0', '\\'}
       else if k == 2 then js[p] == '\\' && IsEscape(js[p + 1])
       else k == 6 && js[p] == '\\' && js[p + 1] == 'u' && forall i | p + 2 <= i < p + 6 :: IsHex(js[i])
  }

  lemma BodyStep(js: string, p: nat, k: nat, e: nat)
    requires Unit(js, p, k) && p + k <= e <= |js|
    ensures LegalBody(js[p..e]) <==> LegalBody(js[p + k..e])
  {
    var b := js[p..e];
    assert b[k..] == js[p + k..e] && b[0] == js[p] && (k > 1 ==> b[1] == js[p + 1]);
    if k == 6 {
      assert forall i | 2 <= i < 6 :: b[i] == js[p + i];
    }
  }

  ghost predicate HasBadEscape(js: string, p: nat) {
    exists i: nat :: BadEscapeAt(js, p, i)
  }

  ghost predicate BadEscapeAt(js: string, p: nat, i: nat) {
    p <= i < |js| && LegalBody(js[p..i]) && BadEscape(js, i)
  }

  // A string is invalid if and only if a legal body leads to a bad escape.
  lemma {:induction false} StringInvalid(js: string, p: nat)
    ensures ScanString(js, p) == Fails(Invalid) <==> HasBadEscape(js, p)
    decreases |js| - p
  {
    if !More(js, p) || js[p] == '"' {
      NoBadEscape(js, p);
    } else if BadEscape(js, p) {
      assert js[p..p] == [];
      assert BadEscapeAt(js, p, p);
      if js[p + 1] == 'u' { HexEnds(js, p + 2, 4); }
    } else {
      StringInvalidLater(js, p);
    }
  }

  // Neither at the end of the text nor behind a quote.
  lemma NoBadEscape(js: string, p: nat)
    requires !More(js, p) || js[p] == '"'
    ensures !HasBadEscape(js, p)
  {
    forall i: nat | p < i < |js| ensures !LegalBody(js[p..i]) {
      assert js[p..i][0] == js[p];
    }
  }

  lemma {:induction false} StringInvalidLater(js: string, p: nat)
    requires More(js, p) && js[p] != '"' && !BadEscape(js, p)
    ensures ScanString(js, p) == Fails(Invalid) <==> HasBadEscape(js, p)
    decreases |js| - p, 0
  {
    if js[p] != '\\' {
      StringInvalid(js, p + 1);
      BadEscapeLater(js, p, 1);
    } else if p + 1 == |js| {
      LoneBackslash(js, p);
    } else if IsEscape(js[p + 1]) {
      StringInvalid(js, p + 2);
      BadEscapeLater(js, p, 2);
    } else {
      HexEnds(js, p + 2, 4);
      var q := ScanHex(js, p + 2, 4).pos;
      StringInvalid(js, q);
      if q == p + 6 {
        BadEscapeLater(js, p, 6);
      } else {
        NoBadEscape(js, q);
        CutUnicode(js, p, q);
      }
    }
  }

  lemma LoneBackslash(js: string, p: nat)
    requires p + 1 == |js| && js[p] == '\\'
    ensures !HasBadEscape(js, p) && ScanString(js, p) == Fails(Partial)
  {}

  // The text ends inside the digits.
  lemma CutUnicode(js: string, p: nat, q: nat)
    requires p + 2 <= q < p + 6 && q <= |js| && js[p] == '\\' && js[p + 1] == 'u' && !More(js, q) && !BadEscape(js, p)
    requires forall i | p + 2 <= i < q :: IsHex(js[i])
    ensures !HasBadEscape(js, p)
  {
    forall i: nat | p < i < |js| ensures !LegalBody(js[p..i]) {
      var b := js[p..i];
      assert b[0] == '\\' && (i > p + 1 ==> b[1] == 'u');
      if q < i {
        assert b[q - p] == js[q];
      }
    }
  }

  lemma BadEscapeLater(js: string, p: nat, k: nat)
    requires Unit(js, p, k) && !BadEscape(js, p)
    ensures HasBadEscape(js, p) <==> HasBadEscape(js, p + k)
  {
    if HasBadEscape(js, p + k) {
      var i: nat :| BadEscapeAt(js, p + k, i);
      BodyStep(js, p, k, i);
      assert BadEscapeAt(js, p, i);
    }
    if HasBadEscape(js, p) {
      var i: nat :| BadEscapeAt(js, p, i);
      if i < p + k {
        InsideUnit(js, p, k, i);
      } else {
        BodyStep(js, p, k, i);
        assert BadEscapeAt(js, p + k, i);
      }
    }
  }

  // No body ends inside an escape.
  lemma InsideUnit(js: string, p: nat, k: nat, i: nat)
    requires Unit(js, p, k) && p < i < p + k
    ensures !LegalBody(js[p..i])
  {
    var b := js[p..i];
    assert b[0] == js[p] && (i > p + 1 ==> b[1] == js[p + 1]);
  }

  // ---------------------------------------------------------------- primitives

  ghost predicate Plain(js: string, p: nat, e: nat) {
    p <= e <= |js| && forall i | p <= i < e :: IsPrintable(js[i]) && !EndsPrimitive(js[i])
  }

  ghost predicate Unprintable(js: string, p: nat, i: nat) {
    Plain(js, p, i) && More(js, i) && !IsPrintable(js[i]) && !EndsPrimitive(js[i])
  }

  ghost predicate HasUnprintable(js: string, p: nat) {
    exists i: nat :: Unprintable(js, p, i)
  }

  // A primitive that ends is printable and stops at the first delimiter; it is invalid if and only if a character that
  // is not printable comes first.
  lemma {:induction false} PrimitiveEnds(js: string, p: nat)
    ensures var r := ScanPrimitive(js, p); r.Ends? ==> Plain(js, p, r.pos) && EndsPrimitive(js[r.pos])
    ensures ScanPrimitive(js, p) == Fails(Invalid) <==> HasUnprintable(js, p)
    decreases |js| - p
  {
    if More(js, p) && !EndsPrimitive(js[p]) {
      if IsPrintable(js[p]) {
        PrimitiveEnds(js, p + 1);
        if HasUnprintable(js, p + 1) {
          var i: nat :| Unprintable(js, p + 1, i);
          assert Unprintable(js, p, i);
        }
        if HasUnprintable(js, p) {
          var i: nat :| Unprintable(js, p, i);
          assert Unprintable(js, p + 1, i);
        }
      } else {
        assert Unprintable(js, p, p);
      }
    }
  }

  // ---------------------------------------------------------------- tokens in the text

  function Opening(kind: Kind): char {
    if kind == Object then '{' else '['
  }

  function Closing(kind: Kind): char {
    if kind == Object then '}' else ']'
  }

  // Where a token begins and ends with its quotes or brackets.
  function From(t: Token): int {
    if t.kind == String then t.start - 1 else t.start
  }

  function To(t: Token): int {
    if t.kind == String then t.end + 1 else t.end
  }

  // A token stands for what is written there: an object or array from its bracket to the bracket of its kind, if that
  // was met, a string between its quotes, a primitive up to a delimiter.
  ghost predicate Spells(js: string, t: Token) {
    match t.kind
    case String =>
      1 <= t.start <= t.end < |js| && js[t.start - 1] == '"' && js[t.end] == '"' && LegalBody(js[t.start..t.end])
    case Primitive =>
      && 0 <= t.start < t.end < |js| && StartsPrimitive(js[t.start])
      && Plain(js, t.start, t.end) && EndsPrimitive(js[t.end])
    case _ =>
      && 0 <= t.start < |js| && js[t.start] == Opening(t.kind)
      && (t.end != -1 ==> t.start < t.end - 1 < |js| && js[t.end - 1] == Closing(t.kind))
  }

  // Tokens are in the order in which they begin, and one that ended does so before the next one or around it.
  ghost predicate Apart(t: Token, u: Token) {
    && From(t) < From(u)
    && (t.end != -1 ==> To(t) <= From(u) || (t.kind in {Object, Array} && u.end != -1 && To(u) < t.end))
  }

  ghost predicate AllSpell(js: string, st: State) {
    forall i | 0 <= i < |st.toks| :: Spells(js, st.toks[i]) && From(st.toks[i]) < st.pos && To(st.toks[i]) <= st.pos
  }

  ghost predicate AllApart(toks: seq<Token>) {
    forall i, j | 0 <= i < j < |toks| :: Apart(toks[i], toks[j])
  }

  lemma OneMoreToken(js: string, st: State, t: Token, pos: nat)
    requires st.Valid() && AllSpell(js, st) && AllApart(st.toks)
    requires Spells(js, t) && From(t) == st.pos < pos && To(t) <= pos
    ensures var toks := Bump(st.toks, st.super) + [t]; AllSpell(js, State(pos, toks, -1)) && AllApart(toks)
  {
    var b := Bump(st.toks, st.super);
    forall i | 0 <= i < |b| ensures From(b[i]) == From(st.toks[i]) && To(b[i]) == To(st.toks[i]) && Spells(js, b[i]) {
      SameSpelling(js, st.toks[i], b[i]);
    }
    assert forall i | 0 <= i < |b| :: b[i].kind == st.toks[i].kind && b[i].end == st.toks[i].end;
    hide Spells, Bump;
    var toks := b + [t];
    forall i, j | 0 <= i < j < |toks| ensures Apart(toks[i], toks[j]) {
      if j < |b| {
        assert Apart(st.toks[i], st.toks[j]);
      }
    }
  }

  lemma SameSpelling(js: string, t: Token, u: Token)
    requires Spells(js, t) && u.kind == t.kind && u.start == t.start && u.end == t.end
    ensures Spells(js, u)
  {}

  lemma CloseToken(js: string, st: State, k: nat)
    requires AllSpell(js, st) && AllApart(st.toks) && k < |st.toks| && st.pos < |js|
    requires IsOpen(st.toks[k]) && st.toks[k].kind in {Object, Array} && (forall i | k < i < |st.toks| :: !IsOpen(st.toks[i]))
    requires js[st.pos] == Closing(st.toks[k].kind)
    ensures var toks := st.toks[k := st.toks[k].(end := st.pos + 1)];
      AllSpell(js, State(st.pos + 1, toks, -1)) && AllApart(toks)
  {
    var toks := st.toks[k := st.toks[k].(end := st.pos + 1)];
    assert Spells(js, toks[k]);
    hide Spells;
    forall i, j | 0 <= i < j < |toks| ensures Apart(toks[i], toks[j]) {
      assert Apart(st.toks[i], st.toks[j]);
    }
  }

  // What a turn makes of tokens that spell what is written.
  ghost predicate SpellsOn(js: string, cap: nat, st: State)
    requires st.Valid() && More(js, st.pos)
  {
    var r := StepAt(js, cap, st); r.Next? ==> AllSpell(js, r.state) && AllApart(r.state.toks)
  }

  lemma AddedSpells(js: string, st: State, t: Token, pos: nat, super: int)
    requires st.Valid() && AllSpell(js, st) && AllApart(st.toks)
    requires Spells(js, t) && From(t) == st.pos < pos && To(t) <= pos
    ensures var toks := Bump(st.toks, st.super) + [t]; AllSpell(js, State(pos, toks, super)) && AllApart(toks)
  {
    hide AllSpell, AllApart, Spells, Bump;
    OneMoreToken(js, st, t, pos);
    SameTokens(js, State(pos, Bump(st.toks, st.super) + [t], -1), pos);
  }

  lemma OpenTurnSpells(js: string, cap: nat, st: State)
    requires st.Valid() && More(js, st.pos) && AllSpell(js, st) && AllApart(st.toks) && js[st.pos] in {'{', '['}
    ensures SpellsOn(js, cap, st)
  {
    hide AllSpell, AllApart, Spells, Bump, ScanString, ScanPrimitive, LastOpen;
    var t := Token(if js[st.pos] == '{' then Object else Array, st.pos, -1, 0);
    OpenSpells(js, t);
    AddedSpells(js, st, t, st.pos + 1, |st.toks|);
  }

  lemma CloseTurnSpells(js: string, cap: nat, st: State)
    requires st.Valid() && More(js, st.pos) && AllSpell(js, st) && AllApart(st.toks) && AllPlaced(js, st)
    requires js[st.pos] in {'}', ']'}
    ensures SpellsOn(js, cap, st)
  {
    hide AllSpell, AllApart, Spells, Bump, ScanString, ScanPrimitive;
    var r := StepAt(js, cap, st);
    if r.Next? {
      CloseToken(js, st, LastOpen(st.toks));
      SameTokens(js, State(r.state.pos, r.state.toks, -1), r.state.pos);
    }
  }

  lemma StringTurnSpells(js: string, cap: nat, st: State)
    requires st.Valid() && More(js, st.pos) && AllSpell(js, st) && AllApart(st.toks) && js[st.pos] == '"'
    ensures SpellsOn(js, cap, st)
  {
    hide AllSpell, AllApart, Spells, Bump, ScanString, ScanPrimitive, LastOpen, LegalBody;
    var r, p := StepAt(js, cap, st), st.pos;
    if r.Next? {
      StringEnds(js, p + 1);
      StringSpells(js, p + 1);
      AddedSpells(js, st, Token(String, p + 1, r.state.pos - 1, 0), r.state.pos, st.super);
    }
  }

  lemma PrimitiveTurnSpells(js: string, cap: nat, st: State)
    requires st.Valid() && More(js, st.pos) && AllSpell(js, st) && AllApart(st.toks) && StartsPrimitive(js[st.pos])
    ensures SpellsOn(js, cap, st)
  {
    hide AllSpell, AllApart, Spells, Bump, ScanString, ScanPrimitive, LastOpen, Plain, HasUnprintable;
    var r, p := StepAt(js, cap, st), st.pos;
    if r.Next? {
      PrimitiveAdvances(js, p);
      PrimitiveEnds(js, p);
      PrimitiveSpells(js, p);
      AddedSpells(js, st, Token(Primitive, p, r.state.pos, 0), r.state.pos, st.super);
    }
  }

  lemma StepSpells(js: string, cap: nat, st: State)
    requires st.Valid() && More(js, st.pos) && AllSpell(js, st) && AllApart(st.toks) && AllPlaced(js, st)
    ensures SpellsOn(js, cap, st)
  {
    hide AllSpell, AllApart, ScanString, ScanPrimitive, Bump, LastOpen;
    var c := js[st.pos];
    if c in {'{', '['} {
      OpenTurnSpells(js, cap, st);
    } else if c in {'}', ']'} {
      CloseTurnSpells(js, cap, st);
    } else if c == '"' {
      StringTurnSpells(js, cap, st);
    } else if StartsPrimitive(c) {
      PrimitiveTurnSpells(js, cap, st);
    } else {
      SameTokens(js, st, st.pos + 1);
    }
  }

  lemma OpenSpells(js: string, t: Token)
    requires t.kind in {Object, Array} && t.end == -1 && 0 <= t.start < |js| && js[t.start] == Opening(t.kind)
    ensures Spells(js, t)
  {}

  lemma StringSpells(js: string, p: nat)
    requires 1 <= p && ScanString(js, p).Ends? && js[p - 1] == '"'
    ensures var e := ScanString(js, p).pos; js[e] == '"' && LegalBody(js[p..e]) ==> Spells(js, Token(String, p, e, 0))
  {}

  lemma PrimitiveSpells(js: string, p: nat)
    requires ScanPrimitive(js, p).Ends? && p < ScanPrimitive(js, p).pos && StartsPrimitive(js[p])
    ensures var e := ScanPrimitive(js, p).pos;
      Plain(js, p, e) && EndsPrimitive(js[e]) ==> Spells(js, Token(Primitive, p, e, 0))
  {}

  lemma SameTokens(js: string, st: State, pos: nat)
    requires AllSpell(js, st) && st.pos <= pos
    ensures forall super :: AllSpell(js, State(pos, st.toks, super))
  {
    hide Spells;
  }

  // For any text: the tokens of a successful pass are what is written, brackets closed by brackets of their kind, and two of
  // them are either apart or the first is an object or array around the second.
  lemma {:induction false} FilledSpells(js: string, cap: nat, st: State)
    requires st.Valid() && AllSpell(js, st) && AllApart(st.toks) && AllPlaced(js, st)
    ensures var f := Fill(js, cap, st);
      f.Tokens? ==> (forall i | 0 <= i < |f.toks| :: f.toks[i].end != -1 && Spells(js, f.toks[i])) && AllApart(f.toks)
    decreases |js| - st.pos
  {
    hide StepAt, Spells, Apart;
    if More(js, st.pos) {
      var r := StepAt(js, cap, st);
      StepPlaced(js, cap, st);
      StepSpells(js, cap, st);
      if r.Next? { FilledSpells(js, cap, r.state); }
    }
  }

  // ---------------------------------------------------------------- taken or refused

  // What decides, without any token: the kinds of the open objects and arrays, outermost first, the kind of the superior
  // token and whether it is a string that has its value, and the kind of the last token.
  datatype Above = Above(kind: Kind, full: bool)

  datatype Gist = Gist(open: seq<Kind>, above: Option<Above>, last: Option<Kind>)

  const NOTHING: Gist := Gist([], None, None)

  datatype Verdict = Taken | Turned(error: Error)

  function Top(open: seq<Kind>): Option<Above> {
    if open == [] then None else Some(Above(open[|open| - 1], false))
  }

  // One more token below the superior one.
  function Filled(above: Option<Above>): Option<Above> {
    if above.Some? && above.value.kind == String then Some(Above(String, true)) else above
  }

  // In the place of a key, or after a value.
  predicate Misplaced(above: Option<Above>) {
    above.Some? && (above.value.kind == Object || above.value.full)
  }

  function Judge(js: string, pos: nat, g: Gist): Verdict
    decreases |js| - pos
  {
    if !More(js, pos) then if g.open == [] then Taken else Turned(Partial)
    else
      var c := js[pos];
      if c in {'{', '['} then
        var kind := if c == '{' then Object else Array;
        Judge(js, pos + 1, Gist(g.open + [kind], Some(Above(kind, false)), Some(kind)))
      else if c in {'}', ']'} then
        if g.open == [] || Closing(g.open[|g.open| - 1]) != c then Turned(Invalid)
        else Judge(js, pos + 1, g.(open := g.open[..|g.open| - 1], above := Top(g.open[..|g.open| - 1])))
      else if c == '"' then
        match ScanString(js, pos + 1)
        case Fails(e) => Turned(e)
        case Ends(e) => Judge(js, e + 1, g.(above := Filled(g.above), last := Some(String)))
      else if IsSpace(c) then Judge(js, pos + 1, g)
      else if c == ':' then
        Judge(js, pos + 1, g.(above := if g.last.None? then None else Some(Above(g.last.value, false))))
      else if c == ',' then
        var stray := g.above.Some? && g.above.value.kind !in {Object, Array} && g.open != [];
        Judge(js, pos + 1, g.(above := if stray then Top(g.open) else g.above))
      else if StartsPrimitive(c) then
        if Misplaced(g.above) then Turned(Invalid)
        else
          match ScanPrimitive(js, pos)
          case Fails(e) => Turned(e)
          case Ends(e) => PrimitiveAdvances(js, pos); Judge(js, e, g.(above := Filled(g.above), last := Some(Primitive)))
      else Turned(Invalid)
  }

  function OpenKinds(toks: seq<Token>): seq<Kind> {
    if toks == [] then []
    else
      var t := toks[|toks| - 1];
      OpenKinds(toks[..|toks| - 1]) + if IsOpen(t) then [t.kind] else []
  }

  // The gist of a state of the filling pass.
  function GistOf(st: State): Gist
    requires st.Valid()
  {
    Gist(OpenKinds(st.toks),
         if st.super == -1 then None
         else Some(Above(st.toks[st.super].kind, st.toks[st.super].kind == String && st.toks[st.super].size != 0)),
         if st.toks == [] then None else Some(st.toks[|st.toks| - 1].kind))
  }

  // Nothing is below the last token yet.
  predicate Fresh(st: State) {
    st.toks != [] ==> st.toks[|st.toks| - 1].size == 0
  }

  lemma {:induction false} OpenKindsTop(toks: seq<Token>)
    ensures LastOpen(toks) == -1 <==> OpenKinds(toks) == []
    ensures var k := LastOpen(toks);
      k != -1 ==> OpenKinds(toks) == OpenKinds(toks[..k]) + [toks[k].kind]
    decreases |toks|
  {
    if toks != [] {
      var n := |toks| - 1;
      OpenKindsTop(toks[..n]);
      if !IsOpen(toks[n]) && LastOpen(toks) != -1 {
        assert toks[..n][..LastOpen(toks)] == toks[..LastOpen(toks)];
      }
    }
  }

  lemma {:induction false} OpenKindsSame(toks: seq<Token>, us: seq<Token>)
    requires |us| == |toks| && forall i | 0 <= i < |toks| :: IsOpen(us[i]) == IsOpen(toks[i]) && us[i].kind == toks[i].kind
    ensures OpenKinds(us) == OpenKinds(toks)
    decreases |toks|
  {
    if toks != [] { OpenKindsSame(toks[..|toks| - 1], us[..|us| - 1]); }
  }

  lemma {:induction false} OpenKindsClosed(toks: seq<Token>, k: nat)
    requires k <= |toks| && forall i | k <= i < |toks| :: !IsOpen(toks[i])
    ensures OpenKinds(toks) == OpenKinds(toks[..k])
    decreases |toks|
  {
    if k < |toks| {
      var n := |toks| - 1;
      OpenKindsClosed(toks[..n], k);
      assert toks[..n][..k] == toks[..k];
    } else {
      assert toks[..k] == toks;
    }
  }

  lemma OpenKindsAdded(toks: seq<Token>, super: int, t: Token)
    requires -1 <= super < |toks|
    ensures OpenKinds(Bump(toks, super) + [t]) == OpenKinds(toks) + if IsOpen(t) then [t.kind] else []
  {
    var b := Bump(toks, super);
    OpenKindsSame(toks, b);
    assert (b + [t])[..|b|] == b;
  }

  // The superior token after one is added below it.
  lemma GistAdded(st: State, t: Token, pos: nat)
    requires st.Valid() && t.size == 0 && !IsOpen(t)
    ensures var s := State(pos, Bump(st.toks, st.super) + [t], st.super);
      s.Valid() && Fresh(s) && GistOf(s) == GistOf(st).(above := Filled(GistOf(st).above), last := Some(t.kind))
  {
    OpenKindsAdded(st.toks, st.super, t);
    hide OpenKinds;
  }

  lemma GistOpened(st: State, t: Token, pos: nat)
    requires st.Valid() && t.size == 0 && IsOpen(t) && t.kind in {Object, Array}
    ensures var s := State(pos, Bump(st.toks, st.super) + [t], |st.toks|);
      s.Valid() && Fresh(s) && GistOf(s) == Gist(GistOf(st).open + [t.kind], Some(Above(t.kind, false)), Some(t.kind))
  {
    OpenKindsAdded(st.toks, st.super, t);
    hide OpenKinds;
  }

  lemma GistClosed(js: string, st: State, pos: nat)
    requires st.Valid() && Fresh(st) && AllPlaced(js, st) && LastOpen(st.toks) != -1 && 0 <= pos
    ensures var k, g := LastOpen(st.toks), GistOf(st);
      var s := State(pos, st.toks[k := st.toks[k].(end := pos)], LastOpen(st.toks[..k]));
      && g.open != [] && g.open[|g.open| - 1] == st.toks[k].kind && st.toks[k].kind in {Object, Array}
      && s.Valid() && Fresh(s)
      && GistOf(s) == g.(open := g.open[..|g.open| - 1], above := Top(g.open[..|g.open| - 1]))
  {
    hide OpenKinds, LastOpen;
    var k := LastOpen(st.toks);
    var toks := st.toks[k := st.toks[k].(end := pos)];
    OpenKindsTop(st.toks);
    OpenKindsClosed(toks, k);
    assert toks[..k] == st.toks[..k];
    OpenKindsTop(st.toks[..k]);
    var p := LastOpen(st.toks[..k]);
    if p != -1 { assert Placed(js, st.pos, st.toks[p]); }
    assert Placed(js, st.pos, st.toks[k]);
  }

  // A comma goes back to the last open object or array.
  lemma GistComma(js: string, st: State)
    requires st.Valid() && AllPlaced(js, st) && LastOpen(st.toks) != -1
    ensures var s, g := State(st.pos + 1, st.toks, LastOpen(st.toks)), GistOf(st);
      s.Valid() && GistOf(s) == g.(above := Top(g.open))
  {
    OpenKindsTop(st.toks);
    hide OpenKinds;
    assert Placed(js, st.pos, st.toks[LastOpen(st.toks)]);
  }

  // One turn of the filling pass, as far as the gist goes.
  ghost predicate Agrees(js: string, cap: nat, st: State)
    requires st.Valid() && More(js, st.pos)
  {
    var r := StepAt(js, cap, st);
    if r.Stop? then r.error == NoMemory || Judge(js, st.pos, GistOf(st)) == Turned(r.error)
    else
      && r.state.Valid() && Fresh(r.state)
      && Judge(js, st.pos, GistOf(st)) == Judge(js, r.state.pos, GistOf(r.state))
  }

  lemma OpenJudged(js: string, cap: nat, st: State)
    requires st.Valid() && More(js, st.pos) && js[st.pos] in {'{', '['}
    ensures Agrees(js, cap, st)
  {
    hide GistOf, LastOpen, ScanString, ScanPrimitive, Bump;
    GistOpened(st, Token(if js[st.pos] == '{' then Object else Array, st.pos, -1, 0), st.pos + 1);
  }

  lemma CloseJudged(js: string, cap: nat, st: State)
    requires st.Valid() && More(js, st.pos) && js[st.pos] in {'}', ']'} && Fresh(st) && AllPlaced(js, st)
    ensures Agrees(js, cap, st)
  {
    hide OpenKinds, LastOpen, ScanString, ScanPrimitive, Bump, AllPlaced, Fresh;
    OpenKindsTop(st.toks);
    if LastOpen(st.toks) != -1 {
      hide GistOf, Top;
      GistClosed(js, st, st.pos + 1);
    }
  }

  lemma StringJudged(js: string, cap: nat, st: State)
    requires st.Valid() && More(js, st.pos) && js[st.pos] == '"'
    ensures Agrees(js, cap, st)
  {
    hide GistOf, LastOpen, ScanString, ScanPrimitive, Bump, Filled, Fresh;
    var r := ScanString(js, st.pos + 1);
    if r.Ends? { GistAdded(st, Token(String, st.pos + 1, r.pos, 0), r.pos + 1); }
  }

  lemma PrimitiveJudged(js: string, cap: nat, st: State)
    requires st.Valid() && More(js, st.pos) && StartsPrimitive(js[st.pos])
    ensures Agrees(js, cap, st)
  {
    hide OpenKinds, LastOpen, ScanString, ScanPrimitive, Bump, Filled, Fresh;
    PrimitiveAdvances(js, st.pos);
    var r := ScanPrimitive(js, st.pos);
    if r.Ends? { GistAdded(st, Token(Primitive, st.pos, r.pos, 0), r.pos); }
  }

  lemma CommaJudged(js: string, cap: nat, st: State)
    requires st.Valid() && More(js, st.pos) && js[st.pos] == ',' && Fresh(st) && AllPlaced(js, st)
    ensures Agrees(js, cap, st)
  {
    hide OpenKinds, LastOpen, ScanString, ScanPrimitive, Bump, AllPlaced;
    OpenKindsTop(st.toks);
    if LastOpen(st.toks) != -1 { GistComma(js, st); }
  }

  lemma StepJudged(js: string, cap: nat, st: State)
    requires st.Valid() && More(js, st.pos) && Fresh(st) && AllPlaced(js, st)
    ensures Agrees(js, cap, st)
  {
    hide OpenKinds, LastOpen, ScanString, ScanPrimitive, Bump;
    var c := js[st.pos];
    if c in {'{', '['} {
      OpenJudged(js, cap, st);
    } else if c in {'}', ']'} {
      CloseJudged(js, cap, st);
    } else if c == '"' {
      StringJudged(js, cap, st);
    } else if c == ',' {
      CommaJudged(js, cap, st);
    } else if StartsPrimitive(c) {
      PrimitiveJudged(js, cap, st);
    }
  }

  // For any text and any room: the filling pass runs out of room, or takes the text exactly when the gist does, and
  // refuses it with the same error.
  lemma {:induction false} FillJudged(js: string, cap: nat, st: State)
    requires st.Valid() && Fresh(st) && AllPlaced(js, st)
    ensures var f, v := Fill(js, cap, st), Judge(js, st.pos, GistOf(st));
      f == Refused(NoMemory) || (if f.Tokens? then v == Taken else v == Turned(f.error))
    decreases |js| - st.pos
  {
    if More(js, st.pos) {
      StepJudged(js, cap, st);
      StepPlaced(js, cap, st);
      hide StepAt, Judge, GistOf, AllPlaced;
      var r := StepAt(js, cap, st);
      if r.Next? { FillJudged(js, cap, r.state); }
    } else {
      OpenKindsTop(st.toks);
    }
  }

  lemma StartIsNothing(js: string)
    ensures START.Valid() && Fresh(START) && AllPlaced(js, START) && AllSpell(js, START) && AllApart(START.toks)
    ensures GistOf(START) == NOTHING
  {}

  // Both passes, as the pipe makes them: a text without a fault in a string, a primitive or a character that starts nothing
  // is taken exactly when the gist says so.
  lemma TwoPassesJudged(js: string)
    ensures var t, c, v := TwoPasses(js), Count(js, 0, 0), Judge(js, 0, NOTHING);
      && (t.Tokens? <==> v == Taken)
      && (t.Refused? ==> t.error == if c.Miscounted? then c.error else v.error)
      && (t.Tokens? ==> (forall i | 0 <= i < |t.toks| :: t.toks[i].end != -1 && Spells(js, t.toks[i])) && AllApart(t.toks))
  {
    StartIsNothing(js);
    var c := Count(js, 0, 0);
    hide Fill, Count, Judge, GistOf, StepAt, Spells;
    if c.Total? {
      CountedIsEnough(js, c.n);
      FillJudged(js, c.n, START);
      FilledSpells(js, c.n, START);
    } else {
      MiscountedIsTurned(js);
    }
  }

  // A text that cannot be counted cannot be filled.
  lemma MiscountedIsTurned(js: string)
    requires Count(js, 0, 0).Miscounted?
    ensures Judge(js, 0, NOTHING) != Taken
  {
    StartIsNothing(js);
    hide Fill, Count, Judge, GistOf, StepAt;
    var cap := |js|;
    FillJudged(js, cap, START);
    Lockstep(js, cap, START);
    RoomForAll(js, cap, START);
  }

  // There is at most one token per character.
  lemma {:induction false} RoomForAll(js: string, cap: nat, st: State)
    requires st.Valid() && |st.toks| <= st.pos && |js| <= cap
    ensures Fill(js, cap, st) != Refused(NoMemory)
    decreases |js| - st.pos
  {
    if More(js, st.pos) {
      var r := StepAt(js, cap, st);
      if StartsPrimitive(js[st.pos]) { PrimitiveAdvances(js, st.pos); }
      hide ScanString, ScanPrimitive, LastOpen;
      if r.Next? { RoomForAll(js, cap, r.state); }
    }
  }

  // ---------------------------------------------------------------- faults that the counting pass sees

  // A character that starts nothing, a string with a bad escape, or a primitive with a character that is not printable.
  ghost predicate Fault(js: string, p: nat) {
    More(js, p) &&
    (StartsNothing(js[p]) || (js[p] == '"' && HasBadEscape(js, p + 1)) || (StartsPrimitive(js[p]) && HasUnprintable(js, p)))
  }

  // What starts at p goes up to q.
  ghost predicate Spans(js: string, p: nat, q: nat) {
    More(js, p) && p < q <= |js| &&
    if js[p] == '"' then p + 1 < q && js[q - 1] == '"' && LegalBody(js[p + 1..q - 1])
    else if StartsPrimitive(js[p]) then q < |js| && Plain(js, p, q) && EndsPrimitive(js[q])
    else q == p + 1 && (js[p] in {'{', '}', '[', ']', ':', ','} || IsSpace(js[p]))
  }

  // One thing after the other from p on, there is a fault.
  ghost predicate Faulty(js: string, p: nat)
    decreases |js| - p
  {
    Fault(js, p) || exists q: nat | Spans(js, p, q) :: Faulty(js, q)
  }

  lemma StringSpan(js: string, p: nat)
    requires More(js, p) && js[p] == '"'
    ensures var r := ScanString(js, p + 1);
      forall q: nat :: Spans(js, p, q) <==> r.Ends? && q == r.pos + 1
  {
    StringEnds(js, p + 1);
    forall q: nat | Spans(js, p, q) ensures ScanString(js, p + 1) == Ends(q - 1) {
      var b := js[p + 1..q - 1];
      assert js[q - 1..q] == "\"";
      ScanLegalBody(js, p + 1, b);
    }
  }

  lemma PrimitiveSpan(js: string, p: nat)
    requires More(js, p) && StartsPrimitive(js[p])
    ensures var r := ScanPrimitive(js, p);
      forall q: nat :: Spans(js, p, q) <==> r.Ends? && q == r.pos
  {
    PrimitiveEnds(js, p);
    PrimitiveAdvances(js, p);
    forall q: nat | Spans(js, p, q) ensures ScanPrimitive(js, p) == Ends(q) {
      ScanLegalPrim(js, p, js[p..q]);
    }
  }

  // For any text: the counting pass finds it invalid if and only if there is such a fault.
  lemma {:induction false} CountFaulty(js: string, pos: nat, n: nat)
    ensures Count(js, pos, n) == Miscounted(Invalid) <==> Faulty(js, pos)
    decreases |js| - pos
  {
    hide ScanString, ScanPrimitive, HasBadEscape, HasUnprintable, LegalBody, Plain;
    if More(js, pos) {
      var c := js[pos];
      if c == '"' {
        StringInvalid(js, pos + 1);
        StringSpan(js, pos);
        if ScanString(js, pos + 1).Ends? { CountFaulty(js, ScanString(js, pos + 1).pos + 1, n + 1); }
      } else if StartsPrimitive(c) {
        PrimitiveEnds(js, pos);
        PrimitiveSpan(js, pos);
        PrimitiveAdvances(js, pos);
        if ScanPrimitive(js, pos).Ends? { CountFaulty(js, ScanPrimitive(js, pos).pos, n + 1); }
      } else if !StartsNothing(c) {
        CountFaulty(js, pos + 1, if c in {'{', '['} then n + 1 else n);
        assert Spans(js, pos, pos + 1);
      }
    }
  }

  // ---------------------------------------------------------------- what stands behind a stream

  // The texts of a stream are taken whatever follows them.
  lemma {:induction false} FillStreamAhead(js: string, cap: nat, st: State, s: Stream)
    requires Between(st) && LegalStream(s) && |st.toks| + |FlattenStream(s, st.pos)| <= cap && At(js, st.pos, StreamText(s))
    ensures var after := State(st.pos + |StreamText(s)|, st.toks + FlattenStream(s, st.pos), -1);
      Between(after) && Fill(js, cap, st) == Fill(js, cap, after)
    decreases s
  {
    hide Fill, StepAt, At, Text, Flatten, Legal;
    match s
    case End(ws) =>
      FillSpace(js, cap, st, ws);
      assert st.toks + [] == st.toks;
    case Then(ws, v, rest) =>
      AtSplit(js, st.pos, ws, Text(v) + StreamText(rest));
      AtSplit(js, st.pos + |ws|, Text(v), StreamText(rest));
      FillSpace(js, cap, st, ws);
      var s1 := st.(pos := st.pos + |ws|);
      FillRoot(js, cap, s1, v);
      var s2 := State(s1.pos + |Text(v)|, st.toks + Flatten(v, s1.pos), -1);
      FillStreamAhead(js, cap, s2, rest);
      assert st.toks + Flatten(v, s1.pos) + FlattenStream(rest, s2.pos)
        == st.toks + (Flatten(v, s1.pos) + FlattenStream(rest, s2.pos));
  }

  // What no text can go on with: a closing bracket, a character that starts nothing, a string with a bad escape.
  ghost predicate Garbage(js: string, p: nat) {
    More(js, p) &&
    (js[p] in {'}', ']'} || StartsNothing(js[p]) || (js[p] == '"' && HasBadEscape(js, p + 1)))
  }

  predicate StartsNothing(c: char) {
    !IsSpace(c) && !StartsPrimitive(c) && c !in {'{', '}', '[', ']', '"', ':', ',', '\0'}
  }

  // Behind any legal stream, garbage is invalid, and so is the whole text.
  lemma GarbageIsInvalid(js: string, cap: nat, s: Stream)
    requires LegalStream(s) && At(js, 0, StreamText(s)) && Garbage(js, |StreamText(s)|) && |FlattenStream(s, 0)| <= cap
    ensures Fill(js, cap, START) == Refused(Invalid)
  {
    hide Fill, Garbage, FlattenStream, StreamText, LegalStream, At;
    FillStreamAhead(js, cap, START, s);
    assert [] + FlattenStream(s, 0) == FlattenStream(s, 0);
    GarbageStops(js, cap, State(|StreamText(s)|, FlattenStream(s, 0), -1));
  }

  lemma GarbageStops(js: string, cap: nat, st: State)
    requires Between(st) && Garbage(js, st.pos)
    ensures st.Valid() && Fill(js, cap, st) == Refused(Invalid)
  {
    hide LastOpen, ScanString, ScanPrimitive, HasBadEscape, IsSpace, StartsPrimitive;
    NothingOpen(st);
    StringInvalid(js, st.pos + 1);
  }

  lemma NothingOpen(st: State)
    requires Between(st)
    ensures LastOpen(st.toks) == -1
  {}
}
