module JsmnGrammar {
  import opened Jsmn
  import opened Json

  // t stands at position p of js.
  ghost predicate At(js: string, p: nat, t: string) {
    p + |t| <= |js| && js[p..p + |t|] == t
  }

  lemma AtSplit(js: string, p: nat, a: string, b: string)
    ensures At(js, p, a + b) <==> At(js, p, a) && At(js, p + |a|, b)
  {
    var t := a + b;
    if At(js, p, t) {
      assert js[p..p + |a|] == t[..|a|];
      assert js[p + |a|..p + |a| + |b|] == t[|a|..];
    }
    if At(js, p, a) && At(js, p + |a|, b) {
      assert js[p..p + |t|] == js[p..p + |a|] + js[p + |a|..p + |t|];
    }
  }

  lemma AtChar(js: string, p: nat, c: char)
    ensures At(js, p, [c]) <==> p < |js| && js[p] == c
  {}

  // ---------------------------------------------------------------- scanning

  lemma AtIndex(js: string, p: nat, t: string, i: nat)
    requires At(js, p, t) && i < |t|
    ensures js[p + i] == t[i]
  {
    assert js[p + i] == js[p..p + |t|][i];
  }

  lemma {:induction false} ScanLegalBody(js: string, p: nat, b: string)
    requires LegalBody(b) && At(js, p, b) && At(js, p + |b|, "\"")
    ensures ScanString(js, p) == Ends(p + |b|)
    decreases |b|
  {
    AtChar(js, p + |b|, '"');
    if b != [] {
      var k := if b[0] != '\\' then 1 else if IsEscape(b[1]) then 2 else 6;
      AtIndex(js, p, b, 0);
      if k > 1 { AtIndex(js, p, b, 1); }
      if k == 6 { ScanUnicode(js, p, b); }
      TailAt(js, p, b, k);
      ScanLegalBody(js, p + k, b[k..]);
    }
  }

  lemma ScanUnicode(js: string, p: nat, b: string)
    requires At(js, p, b) && |b| >= 6 && forall i | 2 <= i < 6 :: IsHex(b[i])
    ensures ScanHex(js, p + 2, 4) == Ends(p + 6)
  {
    AtIndex(js, p, b, 2);
    AtIndex(js, p, b, 3);
    AtIndex(js, p, b, 4);
    AtIndex(js, p, b, 5);
  }

  lemma TailAt(js: string, p: nat, b: string, k: nat)
    requires k <= |b| && At(js, p, b)
    ensures At(js, p + k, b[k..])
  {
    assert b == b[..k] + b[k..];
    AtSplit(js, p, b[..k], b[k..]);
  }

  lemma {:induction false} ScanLegalPrim(js: string, p: nat, t: string)
    requires At(js, p, t) && forall c | c in t :: IsPrintable(c) && !EndsPrimitive(c)
    requires More(js, p + |t|) && EndsPrimitive(js[p + |t|])
    ensures ScanPrimitive(js, p) == Ends(p + |t|)
    decreases |t|
  {
    if t != [] {
      assert js[p] == js[p..p + |t|][0] == t[0] && t[0] in t;
      assert t == t[..1] + t[1..];
      AtSplit(js, p, t[..1], t[1..]);
      ScanLegalPrim(js, p + 1, t[1..]);
    }
  }

  // ---------------------------------------------------------------- single steps

  lemma FillStep(js: string, cap: nat, st: State)
    requires st.Valid() && More(js, st.pos) && StepAt(js, cap, st).Next?
    ensures Fill(js, cap, st) == Fill(js, cap, StepAt(js, cap, st).state)
  {}

  lemma {:induction false} FillSpace(js: string, cap: nat, st: State, ws: string)
    requires st.Valid() && Space(ws) && At(js, st.pos, ws)
    ensures Fill(js, cap, st) == Fill(js, cap, st.(pos := st.pos + |ws|))
    decreases |ws|
  {
    hide Fill, StepAt;
    if ws != [] {
      assert ws == ws[..1] + ws[1..] && ws[0] in ws;
      AtSplit(js, st.pos, ws[..1], ws[1..]);
      AtChar(js, st.pos, ws[0]);
      assert ws[..1] == [ws[0]];
      SpaceStep(js, cap, st);
      FillStep(js, cap, st);
      FillSpace(js, cap, st.(pos := st.pos + 1), ws[1..]);
    }
  }

  lemma SpaceStep(js: string, cap: nat, st: State)
    requires st.Valid() && More(js, st.pos) && IsSpace(js[st.pos])
    ensures StepAt(js, cap, st) == Next(st.(pos := st.pos + 1))
  {
    hide ScanPrimitive, ScanString, LastOpen, Bump;
  }

  // A container token that is still open.
  function Opened(kind: Kind, p: nat): Token {
    Token(kind, p, -1, 0)
  }

  lemma FillOpen(js: string, cap: nat, st: State, kind: Kind)
    requires st.Valid() && kind in {Object, Array} && |st.toks| < cap
    requires At(js, st.pos, if kind == Object then "{" else "[")
    ensures Fill(js, cap, st) ==
      Fill(js, cap, State(st.pos + 1, Bump(st.toks, st.super) + [Opened(kind, st.pos)], |st.toks|))
  {
    AtChar(js, st.pos, if kind == Object then '{' else '[');
    FillStep(js, cap, st);
  }

  lemma FillClose(js: string, cap: nat, st: State)
    requires st.Valid() && LastOpen(st.toks) != -1
    requires var k := st.toks[LastOpen(st.toks)].kind;
      k in {Object, Array} && At(js, st.pos, if k == Object then "}" else "]")
    ensures var a := LastOpen(st.toks);
      Fill(js, cap, st) ==
      Fill(js, cap, State(st.pos + 1, st.toks[a := st.toks[a].(end := st.pos + 1)], LastOpen(st.toks[..a])))
  {
    AtChar(js, st.pos, if st.toks[LastOpen(st.toks)].kind == Object then '}' else ']');
    FillStep(js, cap, st);
  }

  lemma FillString(js: string, cap: nat, st: State, b: string)
    requires st.Valid() && LegalBody(b) && |st.toks| < cap
    requires At(js, st.pos, "\"") && At(js, st.pos + 1, b) && At(js, st.pos + 1 + |b|, "\"")
    ensures Fill(js, cap, st) ==
      Fill(js, cap, State(st.pos + |b| + 2,
                          Bump(st.toks, st.super) + [Token(String, st.pos + 1, st.pos + 1 + |b|, 0)],
                          st.super))
  {
    AtChar(js, st.pos, '"');
    ScanLegalBody(js, st.pos + 1, b);
    FillStep(js, cap, st);
  }

  // A primitive may stand here: not in the place of a key, not after a value.
  predicate AllowsPrimitive(toks: seq<Token>, super: int)
    requires -1 <= super < |toks|
  {
    super != -1 ==> toks[super].kind != Object && (toks[super].kind == String ==> toks[super].size == 0)
  }

  lemma FillPrim(js: string, cap: nat, st: State, t: string)
    requires st.Valid() && LegalPrim(t) && |st.toks| < cap && At(js, st.pos, t)
    requires More(js, st.pos + |t|) && EndsPrimitive(js[st.pos + |t|]) && AllowsPrimitive(st.toks, st.super)
    ensures Fill(js, cap, st) ==
      Fill(js, cap, State(st.pos + |t|, Bump(st.toks, st.super) + [Token(Primitive, st.pos, st.pos + |t|, 0)], st.super))
  {
    assert js[st.pos] == js[st.pos..st.pos + |t|][0] == t[0] && t[0] in t;
    ScanLegalPrim(js, st.pos, t);
    FillStep(js, cap, st);
  }

  lemma FillColon(js: string, cap: nat, st: State)
    requires st.Valid() && At(js, st.pos, ":")
    ensures Fill(js, cap, st) == Fill(js, cap, State(st.pos + 1, st.toks, |st.toks| - 1))
  {
    AtChar(js, st.pos, ':');
    FillStep(js, cap, st);
  }

  // A comma brings back the container after a key's value.
  lemma FillComma(js: string, cap: nat, st: State, a: nat)
    requires st.Valid() && At(js, st.pos, ",") && a == LastOpen(st.toks)
    requires st.super == a || (st.super != -1 && st.toks[st.super].kind == String)
    requires st.toks[a].kind in {Object, Array}
    ensures Fill(js, cap, st) == Fill(js, cap, State(st.pos + 1, st.toks, a))
  {
    AtChar(js, st.pos, ',');
    FillStep(js, cap, st);
  }

  // ---------------------------------------------------------------- open and closed tokens

  ghost predicate AllClosed(toks: seq<Token>) {
    forall t | t in toks :: !IsOpen(t)
  }

  lemma LastOpenIs(toks: seq<Token>, k: int)
    requires -1 <= k < |toks| && (k != -1 ==> IsOpen(toks[k]))
    requires forall i | k < i < |toks| :: !IsOpen(toks[i])
    ensures LastOpen(toks) == k
  {}

  lemma LastOpenBump(toks: seq<Token>, super: int)
    requires -1 <= super < |toks|
    ensures LastOpen(Bump(toks, super)) == LastOpen(toks)
  {
    LastOpenIs(Bump(toks, super), LastOpen(toks));
  }

  lemma LastOpenPlusClosed(toks: seq<Token>, more: seq<Token>)
    requires AllClosed(more)
    ensures LastOpen(toks + more) == LastOpen(toks)
  {
    LastOpenIs(toks + more, LastOpen(toks));
  }

  lemma {:induction false} FlattenClosed(v: Value, p: nat)
    ensures AllClosed(Flatten(v, p)) && Flatten(v, p) != []
  {
    hide FlattenElems, FlattenMembers, Text, AllClosed;
    match v
    case Prim(t) => OneClosed(Token(Primitive, p, p + |t|, 0));
    case Str(b) => OneClosed(Token(String, p + 1, p + 1 + |b|, 0));
    case Arr(ws, es) =>
      var t := Token(Array, p, p + |Text(v)|, Length(es));
      OneClosed(t);
      FlattenElemsClosed(es, p + 1 + |ws|);
      BothClosed([t], FlattenElems(es, p + 1 + |ws|));
    case Obj(ws, ms) =>
      var t := Token(Object, p, p + |Text(v)|, MemberCount(ms));
      OneClosed(t);
      FlattenMembersClosed(ms, p + 1 + |ws|);
      BothClosed([t], FlattenMembers(ms, p + 1 + |ws|));
  }

  lemma OneClosed(t: Token)
    requires t.end >= 0
    ensures AllClosed([t])
  {}

  lemma BothClosed(a: seq<Token>, b: seq<Token>)
    requires AllClosed(a) && AllClosed(b)
    ensures AllClosed(a + b)
  {}

  lemma {:induction false} FlattenElemsClosed(es: Elems, p: nat)
    ensures AllClosed(FlattenElems(es, p))
  {
    match es
    case NoElems =>
    case Elem(pre, v, post, rest) =>
      FlattenClosed(v, p + |pre|);
      FlattenElemsClosed(rest, p + |pre| + |Text(v)| + |post| + 1);
  }

  lemma {:induction false} FlattenMembersClosed(ms: Members, p: nat)
    ensures AllClosed(FlattenMembers(ms, p))
  {
    match ms
    case NoMembers =>
    case Member(_, _, _, _, v, post, rest) =>
      var q := ValuePos(ms, p);
      FlattenClosed(v, q);
      FlattenMembersClosed(rest, q + |Text(v)| + |post| + 1);
  }

  // ---------------------------------------------------------------- pieces of a text

  lemma SplitElems(js: string, p: nat, es: Elems)
    requires es.Elem? && At(js, p, ElemsText(es))
    ensures At(js, p, es.pre) && At(js, p + |es.pre|, Text(es.value))
    ensures At(js, p + |es.pre| + |Text(es.value)|, es.post + ElemsTail(es))
  {
    hide At;
    AtSplit(js, p, es.pre, Text(es.value) + (es.post + ElemsTail(es)));
    AtSplit(js, p + |es.pre|, Text(es.value), es.post + ElemsTail(es));
  }

  lemma SplitMembers(js: string, p: nat, ms: Members)
    requires ms.Member? && At(js, p, MembersText(ms))
    ensures KeyAt(js, p, ms)
    ensures At(js, ValuePos(ms, p), Text(ms.value))
    ensures At(js, ValuePos(ms, p) + |Text(ms.value)|, ms.post + MembersTail(ms))
  {
    hide At, MembersTail, Text;
    var x5 := Text(ms.value) + (ms.post + MembersTail(ms));
    var x4 := ms.lead + x5;
    var x3 := ms.mid + (":" + x4);
    AtSplit(js, p, ms.pre, Quoted(ms.key, x3));
    AtSplit(js, p + |ms.pre|, "\"", ms.key + ("\"" + x3));
    AtSplit(js, p + |ms.pre| + 1, ms.key, "\"" + x3);
    var q := p + |ms.pre| + 1 + |ms.key|;
    AtSplit(js, q, "\"", x3);
    AtSplit(js, q + 1, ms.mid, ":" + x4);
    AtSplit(js, q + 1 + |ms.mid|, ":", x4);
    AtSplit(js, q + 1 + |ms.mid| + 1, ms.lead, x5);
    AtSplit(js, ValuePos(ms, p), Text(ms.value), ms.post + MembersTail(ms));
  }

  // What comes after a value in a container ends a primitive.
  lemma EndsAfter(js: string, p: nat, post: string, tail: string)
    requires Space(post) && At(js, p, post + tail) && tail != [] && tail[0] in {',', ']', '}'}
    ensures More(js, p) && EndsPrimitive(js[p])
    ensures At(js, p, post) && At(js, p + |post|, tail)
  {
    var t := post + tail;
    AtSplit(js, p, post, tail);
    assert js[p] == js[p..p + |t|][0] == t[0];
    assert post != [] ==> post[0] in post;
  }

  // ---------------------------------------------------------------- values

  // toks[a] gains n elements and ends at e.
  function Closed(toks: seq<Token>, a: nat, n: nat, e: nat): seq<Token>
    requires a < |toks|
  {
    toks[a := toks[a].(size := toks[a].size + n, end := e)]
  }

  ghost predicate InContainer(st: State, a: nat, kind: Kind) {
    st.Valid() && st.super == a && LastOpen(st.toks) == a && st.toks[a].kind == kind
  }

  function AfterValue(st: State, v: Value): State
    requires st.Valid()
  {
    State(st.pos + |Text(v)|, Bump(st.toks, st.super) + Flatten(v, st.pos),
          if v.IsContainer() then LastOpen(st.toks) else st.super)
  }

  ghost predicate ValueAt(js: string, cap: nat, st: State, v: Value) {
    && st.Valid() && Legal(v) && At(js, st.pos, Text(v)) && |st.toks| + |Flatten(v, st.pos)| <= cap
    && (v.Prim? ==> More(js, st.pos + |Text(v)|) && EndsPrimitive(js[st.pos + |Text(v)|]) && AllowsPrimitive(st.toks, st.super))
  }

  // The whole text of a value is consumed, and its tokens are exactly its flat form.
  lemma {:induction false} FillValue(js: string, cap: nat, st: State, v: Value)
    requires ValueAt(js, cap, st, v)
    ensures AfterValue(st, v).Valid()
    ensures Fill(js, cap, st) == Fill(js, cap, AfterValue(st, v))
    decreases v, 1
  {
    hide Fill, StepAt, ValueAt, AfterValue;
    match v
    case Prim(_) => FillPrimValue(js, cap, st, v);
    case Str(_) => FillStringValue(js, cap, st, v);
    case Arr(_, _) => FillArray(js, cap, st, v);
    case Obj(_, _) => FillObject(js, cap, st, v);
  }

  lemma FillPrimValue(js: string, cap: nat, st: State, v: Value)
    requires ValueAt(js, cap, st, v) && v.Prim?
    ensures AfterValue(st, v).Valid()
    ensures Fill(js, cap, st) == Fill(js, cap, AfterValue(st, v))
  {
    hide Fill, StepAt, At, LegalPrim;
    FillPrim(js, cap, st, v.text);
  }

  lemma FillStringValue(js: string, cap: nat, st: State, v: Value)
    requires ValueAt(js, cap, st, v) && v.Str?
    ensures AfterValue(st, v).Valid()
    ensures Fill(js, cap, st) == Fill(js, cap, AfterValue(st, v))
  {
    hide Fill, StepAt, At, LegalBody;
    assert Text(v) == "\"" + (v.body + "\"");
    AtSplit(js, st.pos, "\"", v.body + "\"");
    AtSplit(js, st.pos + 1, v.body, "\"");
    FillString(js, cap, st, v.body);
  }

  // The state after the opening bracket and the whitespace that follows it.
  function AfterOpen(st: State, kind: Kind, ws: string): State
    requires st.Valid()
  {
    State(st.pos + 1 + |ws|, Bump(st.toks, st.super) + [Opened(kind, st.pos)], |st.toks|)
  }

  lemma FillOpenSpace(js: string, cap: nat, st: State, kind: Kind, ws: string, body: string)
    requires st.Valid() && kind in {Object, Array} && |st.toks| < cap && Space(ws)
    requires At(js, st.pos, (if kind == Object then "{" else "[") + (ws + body))
    ensures InContainer(AfterOpen(st, kind, ws), |st.toks|, kind)
    ensures At(js, st.pos + 1 + |ws|, body)
    ensures Fill(js, cap, st) == Fill(js, cap, AfterOpen(st, kind, ws))
    ensures LastOpen(AfterOpen(st, kind, ws).toks[..|st.toks|]) == LastOpen(st.toks)
  {
    hide Fill, StepAt, Space;
    AtSplit(js, st.pos, if kind == Object then "{" else "[", ws + body);
    AtSplit(js, st.pos + 1, ws, body);
    var a, s1 := |st.toks|, AfterOpen(st, kind, ws);
    FillOpen(js, cap, st, kind);
    FillSpace(js, cap, s1.(pos := st.pos + 1), ws);
    LastOpenIs(s1.toks, a);
    LastOpenBump(st.toks, st.super);
    assert s1.toks[..a] == Bump(st.toks, st.super);
  }

  lemma ClosedAfterOpen(st: State, kind: Kind, ws: string, n: nat, e: nat)
    requires st.Valid()
    ensures Closed(AfterOpen(st, kind, ws).toks, |st.toks|, n, e) == Bump(st.toks, st.super) + [Token(kind, st.pos, e, n)]
  {}

  lemma {:induction false} FillArray(js: string, cap: nat, st: State, v: Value)
    requires ValueAt(js, cap, st, v) && v.Arr?
    ensures AfterValue(st, v).Valid()
    ensures Fill(js, cap, st) == Fill(js, cap, AfterValue(st, v))
    decreases v, 0
  {
    hide Fill, StepAt, At, Space, LegalElems, LastOpen, Bump, Closed, ElemsText, FlattenElems;
    var a, s1 := |st.toks|, AfterOpen(st, Array, v.ws);
    FillOpenSpace(js, cap, st, Array, v.ws, ElemsText(v.elems));
    FillElems(js, cap, s1, v.elems, a);
    ClosedAfterOpen(st, Array, v.ws, Length(v.elems), st.pos + |Text(v)|);
    var b, t, f := Bump(st.toks, st.super), Token(Array, st.pos, st.pos + |Text(v)|, Length(v.elems)),
      FlattenElems(v.elems, s1.pos);
    assert b + [t] + f == b + ([t] + f);
  }

  lemma {:induction false} FillObject(js: string, cap: nat, st: State, v: Value)
    requires ValueAt(js, cap, st, v) && v.Obj?
    ensures AfterValue(st, v).Valid()
    ensures Fill(js, cap, st) == Fill(js, cap, AfterValue(st, v))
    decreases v, 0
  {
    hide Fill, StepAt, At, Space, LegalMembers, LastOpen, Bump, Closed, MembersText, FlattenMembers;
    var a, s1 := |st.toks|, AfterOpen(st, Object, v.ws);
    FillOpenSpace(js, cap, st, Object, v.ws, MembersText(v.members));
    FillMembers(js, cap, s1, v.members, a);
    ClosedAfterOpen(st, Object, v.ws, MemberCount(v.members), st.pos + |Text(v)|);
    var b, t, f := Bump(st.toks, st.super), Token(Object, st.pos, st.pos + |Text(v)|, MemberCount(v.members)),
      FlattenMembers(v.members, s1.pos);
    assert b + [t] + f == b + ([t] + f);
  }

  function AfterElems(st: State, es: Elems, a: nat): State
    requires a < |st.toks|
  {
    var e := st.pos + |ElemsText(es)|;
    State(e, Closed(st.toks, a, Length(es), e) + FlattenElems(es, st.pos), LastOpen(st.toks[..a]))
  }

  // toks[a] gains one element, which is written after toks, and then n more, and ends at e.
  lemma ClosedAfterOne(toks: seq<Token>, a: nat, n: nat, e: nat, one: seq<Token>, more: seq<Token>)
    requires a < |toks|
    ensures Closed(Bump(toks, a) + one, a, n, e) + more == Closed(toks, a, 1 + n, e) + (one + more)
    ensures (Bump(toks, a) + one)[..a] == toks[..a]
  {}

  lemma ClosedNothing(toks: seq<Token>, a: nat, e: nat)
    requires a < |toks|
    ensures Closed(toks, a, 0, e) + [] == toks[a := toks[a].(end := e)]
  {}

  // The state after the first element and the whitespace around it.
  function AfterElem(st: State, es: Elems, a: nat): State
    requires es.Elem? && a < |st.toks|
  {
    State(st.pos + |es.pre| + |Text(es.value)| + |es.post|, Bump(st.toks, a) + Flatten(es.value, st.pos + |es.pre|), a)
  }

  lemma {:induction false} FillElem(js: string, cap: nat, st: State, es: Elems, a: nat)
    requires InContainer(st, a, Array) && LegalElems(es) && es.Elem?
    requires At(js, st.pos, es.pre) && ValueAt(js, cap, st.(pos := st.pos + |es.pre|), es.value)
    requires At(js, st.pos + |es.pre| + |Text(es.value)|, es.post)
    ensures InContainer(AfterElem(st, es, a), a, Array)
    ensures Fill(js, cap, st) == Fill(js, cap, AfterElem(st, es, a))
    decreases es, 0
  {
    hide Fill, StepAt, Space, At, Text, ElemsTail, Flatten, ValueAt;
    var s1 := st.(pos := st.pos + |es.pre|);
    var s2 := AfterValue(s1, es.value);
    FillSpace(js, cap, st, es.pre);
    FlattenClosed(es.value, s1.pos);
    FillValue(js, cap, s1, es.value);
    LastOpenBump(st.toks, a);
    LastOpenPlusClosed(Bump(st.toks, a), Flatten(es.value, s1.pos));
    FillSpace(js, cap, s2, es.post);
  }

  // The elements of an array and its closing bracket.
  lemma {:induction false} FillElems(js: string, cap: nat, st: State, es: Elems, a: nat)
    requires InContainer(st, a, Array) && LegalElems(es) && At(js, st.pos, ElemsText(es))
    requires |st.toks| + |FlattenElems(es, st.pos)| <= cap
    ensures AfterElems(st, es, a).Valid()
    ensures Fill(js, cap, st) == Fill(js, cap, AfterElems(st, es, a))
    decreases es, 1
  {
    hide Fill, StepAt, Space, At, Text, Flatten, LastOpen;
    if es.NoElems? {
      FillClose(js, cap, st);
      ClosedNothing(st.toks, a, st.pos + 1);
    } else {
      var s1, one := AfterElem(st, es, a), Flatten(es.value, st.pos + |es.pre|);
      SplitElems(js, st.pos, es);
      EndsAfter(js, st.pos + |es.pre| + |Text(es.value)|, es.post, ElemsTail(es));
      FillElem(js, cap, st, es, a);
      var e := st.pos + |ElemsText(es)|;
      ClosedAfterOne(st.toks, a, Length(es.rest), e, one, FlattenElems(es.rest, s1.pos + 1));
      if es.rest.NoElems? {
        FillClose(js, cap, s1);
        ClosedNothing(s1.toks, a, e);
      } else {
        AtSplit(js, s1.pos, ",", ElemsText(es.rest));
        FillComma(js, cap, s1, a);
        FillElems(js, cap, s1.(pos := s1.pos + 1), es.rest, a);
      }
    }
  }

  function AfterMembers(st: State, ms: Members, a: nat): State
    requires a < |st.toks|
  {
    var e := st.pos + |MembersText(ms)|;
    State(e, Closed(st.toks, a, MemberCount(ms), e) + FlattenMembers(ms, st.pos), LastOpen(st.toks[..a]))
  }

  // The state after a key, its colon and the whitespace around them.
  function AfterKey(st: State, ms: Members, a: nat): State
    requires ms.Member? && a < |st.toks|
  {
    State(ValuePos(ms, st.pos), Bump(st.toks, a) + [KeyToken(ms, st.pos).(size := 0)], |st.toks|)
  }

  ghost predicate KeyAt(js: string, p: nat, ms: Members)
    requires ms.Member?
  {
    var q := p + |ms.pre| + |ms.key| + 2;
    && At(js, p, ms.pre) && At(js, p + |ms.pre|, "\"") && At(js, p + |ms.pre| + 1, ms.key)
    && At(js, p + |ms.pre| + 1 + |ms.key|, "\"")
    && At(js, q, ms.mid) && At(js, q + |ms.mid|, ":") && At(js, q + |ms.mid| + 1, ms.lead)
  }

  lemma FillKey(js: string, cap: nat, st: State, ms: Members, a: nat)
    requires InContainer(st, a, Object) && LegalMembers(ms) && ms.Member? && KeyAt(js, st.pos, ms)
    requires |st.toks| < cap
    ensures LastOpen(AfterKey(st, ms, a).toks) == a
    ensures Fill(js, cap, st) == Fill(js, cap, AfterKey(st, ms, a))
  {
    hide Fill, StepAt, Space, At, Text, MembersText, LegalBody;
    var s1 := st.(pos := st.pos + |ms.pre|);
    FillSpace(js, cap, st, ms.pre);
    FillString(js, cap, s1, ms.key);
    var s4 := AfterKey(st, ms, a);
    var s2 := State(s1.pos + |ms.key| + 2, s4.toks, a);
    FillSpace(js, cap, s2, ms.mid);
    var s3 := s2.(pos := s2.pos + |ms.mid|);
    FillColon(js, cap, s3);
    FillSpace(js, cap, s4.(pos := s3.pos + 1), ms.lead);
    LastOpenBump(st.toks, a);
    LastOpenPlusClosed(Bump(st.toks, a), [KeyToken(ms, st.pos).(size := 0)]);
  }

  function MemberTokens(ms: Members, p: nat): seq<Token>
    requires ms.Member?
  {
    [KeyToken(ms, p)] + Flatten(ms.value, ValuePos(ms, p))
  }

  // The state after the first member and the whitespace around it: a container brings back the object, any
  // other value leaves the key as the superior token.
  function AfterMember(st: State, ms: Members, a: nat): State
    requires ms.Member? && a < |st.toks|
  {
    State(ValuePos(ms, st.pos) + |Text(ms.value)| + |ms.post|, Bump(st.toks, a) + MemberTokens(ms, st.pos),
          if ms.value.IsContainer() then a else |st.toks|)
  }

  lemma {:induction false} FillMember(js: string, cap: nat, st: State, ms: Members, a: nat)
    requires InContainer(st, a, Object) && LegalMembers(ms) && ms.Member? && KeyAt(js, st.pos, ms)
    requires ValueAt(js, cap, AfterKey(st, ms, a), ms.value)
    requires At(js, ValuePos(ms, st.pos) + |Text(ms.value)|, ms.post)
    ensures LastOpen(AfterMember(st, ms, a).toks) == a
    ensures Fill(js, cap, st) == Fill(js, cap, AfterMember(st, ms, a))
    decreases ms, 0
  {
    hide Fill, StepAt, Space, At, Text, MembersText, MembersTail, Flatten, KeyAt, Legal, LegalBody, LastOpen;
    FillKey(js, cap, st, ms, a);
    var s1 := AfterKey(st, ms, a);
    var s2 := AfterValue(s1, ms.value);
    var f := Flatten(ms.value, s1.pos);
    FlattenClosed(ms.value, s1.pos);
    FillValue(js, cap, s1, ms.value);
    assert Bump(s1.toks, |st.toks|) == Bump(st.toks, a) + [KeyToken(ms, st.pos)];
    assert s2.toks == Bump(st.toks, a) + MemberTokens(ms, st.pos);
    LastOpenBump(s1.toks, |st.toks|);
    LastOpenPlusClosed(Bump(s1.toks, |st.toks|), f);
    FillSpace(js, cap, s2, ms.post);
  }

  lemma MemberReady(js: string, cap: nat, st: State, ms: Members, a: nat)
    requires InContainer(st, a, Object) && LegalMembers(ms) && ms.Member? && At(js, st.pos, MembersText(ms))
    requires |st.toks| + |MemberTokens(ms, st.pos)| <= cap
    ensures KeyAt(js, st.pos, ms) && ValueAt(js, cap, AfterKey(st, ms, a), ms.value)
    ensures At(js, ValuePos(ms, st.pos) + |Text(ms.value)|, ms.post)
    ensures At(js, AfterMember(st, ms, a).pos, MembersTail(ms))
  {
    hide At, Text, MembersText, MembersTail, KeyAt, Flatten;
    SplitMembers(js, st.pos, ms);
    EndsAfter(js, ValuePos(ms, st.pos) + |Text(ms.value)|, ms.post, MembersTail(ms));
  }

  lemma MembersEnd(ms: Members, p: nat)
    requires ms.Member?
    ensures p + |MembersText(ms)|
         == ValuePos(ms, p) + |Text(ms.value)| + |ms.post| + 1 + if ms.rest.Member? then |MembersText(ms.rest)| else 0
    ensures |MembersText(NoMembers)| == 1
  {
    hide Text;
  }

  lemma MembersTokens(ms: Members, p: nat)
    requires ms.Member?
    ensures FlattenMembers(ms, p)
         == MemberTokens(ms, p) + FlattenMembers(ms.rest, ValuePos(ms, p) + |Text(ms.value)| + |ms.post| + 1)
  {
    hide Text, Flatten;
  }

  // After the first member, what is left of the object is its other members.
  lemma MembersAfterOne(st: State, ms: Members, a: nat)
    requires ms.Member? && a < |st.toks|
    ensures var s1 := AfterMember(st, ms, a);
      && a < |s1.toks| == |st.toks| + |MemberTokens(ms, st.pos)|
      && |FlattenMembers(ms, st.pos)| == |MemberTokens(ms, st.pos)| + |FlattenMembers(ms.rest, s1.pos + 1)|
      && AfterMembers(st, ms, a) ==
         if ms.rest.Member? then AfterMembers(State(s1.pos + 1, s1.toks, a), ms.rest, a) else AfterMembers(s1, NoMembers, a)
  {
    hide Text, Flatten, LastOpen, Closed, MembersText, MemberTokens, FlattenMembers, Bump, ValuePos;
    var s1, one := AfterMember(st, ms, a), MemberTokens(ms, st.pos);
    MembersEnd(ms, st.pos);
    MembersTokens(ms, st.pos);
    NoTokens(s1.pos, s1.pos + 1);
    ClosedAfterOne(st.toks, a, MemberCount(ms.rest), st.pos + |MembersText(ms)|, one, FlattenMembers(ms.rest, s1.pos + 1));
  }

  lemma NoTokens(p: nat, q: nat)
    ensures FlattenMembers(NoMembers, p) == FlattenMembers(NoMembers, q) == []
  {}

  // The members of an object and its closing brace.
  lemma {:induction false} FillMembers(js: string, cap: nat, st: State, ms: Members, a: nat)
    requires InContainer(st, a, Object) && LegalMembers(ms) && At(js, st.pos, MembersText(ms))
    requires |st.toks| + |FlattenMembers(ms, st.pos)| <= cap
    ensures AfterMembers(st, ms, a).Valid()
    ensures Fill(js, cap, st) == Fill(js, cap, AfterMembers(st, ms, a))
    decreases ms, 1
  {
    hide Fill, StepAt, Space, At, Text, Flatten, LastOpen, KeyAt, ValueAt, LegalBody, Legal;
    if ms.NoMembers? {
      FillClose(js, cap, st);
      ClosedNothing(st.toks, a, st.pos + 1);
    } else {
      var s1 := AfterMember(st, ms, a);
      MembersAfterOne(st, ms, a);
      MemberReady(js, cap, st, ms, a);
      FillMember(js, cap, st, ms, a);
      hide FlattenMembers;
      if ms.rest.NoMembers? {
        FillClose(js, cap, s1);
        ClosedNothing(s1.toks, a, s1.pos + 1);
        NoTokens(s1.pos, s1.pos);
      } else {
        AtSplit(js, s1.pos, ",", MembersText(ms.rest));
        FillComma(js, cap, s1, a);
        FillMembers(js, cap, State(s1.pos + 1, s1.toks, a), ms.rest, a);
      }
    }
  }
}
