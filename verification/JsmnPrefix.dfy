// What the tokenizer makes of a text that is cut off: a text that has begun and is not finished is reported
// as partial, never as invalid (core/jsmn.c, the JSMN_ERROR_PART returns).
module JsmnPrefix {
  import opened Jsmn
  import opened Json
  import opened JsmnGrammar

  // From p on, js is t cut off somewhere (or all of t).
  ghost predicate CutAt(js: string, p: nat, t: string) {
    p <= |js| <= p + |t| && js[p..] == t[..|js| - p]
  }

  lemma CutSplit(js: string, p: nat, a: string, b: string)
    requires CutAt(js, p, a + b)
    ensures |js| - p <= |a| ==> CutAt(js, p, a)
    ensures |js| - p >= |a| ==> At(js, p, a) && CutAt(js, p + |a|, b)
  {
    var t, n := a + b, |js| - p;
    if n <= |a| {
      assert t[..n] == a[..n];
    }
    if n >= |a| {
      assert js[p..p + |a|] == js[p..][..|a|] == t[..n][..|a|] == a;
      assert js[p + |a|..] == js[p..][|a|..] == t[..n][|a|..] == b[..n - |a|];
    }
  }

  lemma CutChar(js: string, p: nat, t: string)
    requires CutAt(js, p, t) && p < |js|
    ensures t != [] && js[p] == t[0]
  {
    assert js[p] == js[p..][0] == t[..|js| - p][0];
  }

  // ---------------------------------------------------------------- scanning

  lemma {:induction false} ScanCutPrim(js: string, p: nat, t: string)
    requires CutAt(js, p, t) && forall c | c in t :: IsPrintable(c) && !EndsPrimitive(c)
    ensures ScanPrimitive(js, p) == Fails(Partial)
    decreases |js| - p
  {
    if p < |js| {
      CutChar(js, p, t);
      assert t[0] in t && t == t[..1] + t[1..];
      CutSplit(js, p, t[..1], t[1..]);
      ScanCutPrim(js, p + 1, t[1..]);
    }
  }

  lemma {:induction false} ScanCutHex(js: string, p: nat, h: string)
    requires CutAt(js, p, h) && p + |h| > |js| && forall c | c in h :: IsHex(c)
    ensures ScanHex(js, p, |h|) == Ends(|js|)
    decreases |js| - p
  {
    if p < |js| {
      CutChar(js, p, h);
      assert h[0] in h && h == h[..1] + h[1..];
      CutSplit(js, p, h[..1], h[1..]);
      ScanCutHex(js, p + 1, h[1..]);
    }
  }

  lemma {:induction false} ScanCutBody(js: string, p: nat, b: string)
    requires LegalBody(b) && CutAt(js, p, b)
    ensures ScanString(js, p) == Fails(Partial)
    decreases |js| - p
  {
    if p < |js| {
      CutChar(js, p, b);
      if b[0] == '\\' && p + 1 < |js| {
        assert js[p + 1] == js[p..][1] == b[..|js| - p][1] == b[1];
        var k := if IsEscape(b[1]) then 2 else 6;
        assert b == b[..k] + b[k..];
        CutSplit(js, p, b[..k], b[k..]);
        if k == 2 {
          ScanCutBody(js, p + 2, b[2..]);
        } else {
          CutUnicode(js, p, b);
          if |js| - p >= 6 { ScanCutBody(js, p + 6, b[6..]); }
        }
      } else {
        assert b == b[..1] + b[1..];
        CutSplit(js, p, b[..1], b[1..]);
        if b[0] != '\\' { ScanCutBody(js, p + 1, b[1..]); }
      }
    }
  }

  // \uXXXX, whole or cut off among the digits.
  lemma CutUnicode(js: string, p: nat, b: string)
    requires CutAt(js, p, b) && p + 1 < |js| && |b| >= 6 && forall i | 2 <= i < 6 :: IsHex(b[i])
    ensures ScanHex(js, p + 2, 4) == Ends(if |js| - p >= 6 then p + 6 else |js|)
  {
    var h := b[2..6];
    assert b == b[..2] + (h + b[6..]);
    CutSplit(js, p, b[..2], h + b[6..]);
    CutSplit(js, p + 2, h, b[6..]);
    if |js| - p >= 6 {
      assert forall i | 0 <= i < 4 :: js[p + 2 + i] == js[p + 2..p + 6][i] == h[i] == b[2 + i];
    } else {
      assert forall c | c in h :: IsHex(c);
      ScanCutHex(js, p + 2, h);
    }
  }

  // ---------------------------------------------------------------- ends of input

  lemma FillEnds(js: string, cap: nat, st: State)
    requires st.Valid() && st.pos == |js| && LastOpen(st.toks) != -1
    ensures Fill(js, cap, st) == Refused(Partial)
  {}

  // Cut off in whitespace, inside some container.
  lemma FillEndsInSpace(js: string, cap: nat, st: State, ws: string)
    requires st.Valid() && LastOpen(st.toks) != -1 && Space(ws) && CutAt(js, st.pos, ws)
    ensures Fill(js, cap, st) == Refused(Partial)
  {
    hide Fill, StepAt, Space;
    var w := js[st.pos..];
    SpacePrefix(ws, |w|);
    FillSpace(js, cap, st, w);
    FillEnds(js, cap, st.(pos := |js|));
  }

  lemma SpacePrefix(ws: string, n: nat)
    requires Space(ws) && n <= |ws|
    ensures Space(ws[..n])
  {}

  lemma FillCutString(js: string, cap: nat, st: State, b: string)
    requires st.Valid() && LegalBody(b) && CutAt(js, st.pos, "\"" + b) && st.pos < |js|
    ensures Fill(js, cap, st) == Refused(Partial)
  {
    CutSplit(js, st.pos, "\"", b);
    AtChar(js, st.pos, '"');
    ScanCutBody(js, st.pos + 1, b);
  }

  lemma FillCutPrim(js: string, cap: nat, st: State, t: string)
    requires st.Valid() && LegalPrim(t) && CutAt(js, st.pos, t) && st.pos < |js| && AllowsPrimitive(st.toks, st.super)
    ensures Fill(js, cap, st) == Refused(Partial)
  {
    CutChar(js, st.pos, t);
    ScanCutPrim(js, st.pos, t);
  }

  // ---------------------------------------------------------------- values

  // v has begun and is not finished; a primitive is only finished by what follows it.
  ghost predicate Unfinished(js: string, cap: nat, st: State, v: Value) {
    && st.Valid() && Legal(v) && |st.toks| + |Flatten(v, st.pos)| <= cap
    && st.pos < |js| && CutAt(js, st.pos, Text(v))
    && (if v.Prim? then AllowsPrimitive(st.toks, st.super) else |js| < st.pos + |Text(v)|)
  }

  lemma {:induction false} FillCutValue(js: string, cap: nat, st: State, v: Value)
    requires Unfinished(js, cap, st, v)
    ensures Fill(js, cap, st) == Refused(Partial)
    decreases v, 1
  {
    match v
    case Prim(t) => FillCutPrim(js, cap, st, t);
    case Str(b) =>
      assert Text(v) == ("\"" + b) + "\"";
      CutSplit(js, st.pos, "\"" + b, "\"");
      FillCutString(js, cap, st, b);
    case Arr(ws, es) => FillCutArray(js, cap, st, v);
    case Obj(ws, ms) => FillCutObject(js, cap, st, v);
  }

  // The bracket that opens a container is there, and perhaps all of the whitespace after it.
  lemma FillCutOpen(js: string, cap: nat, st: State, kind: Kind, ws: string, body: string)
    requires st.Valid() && kind in {Object, Array} && |st.toks| < cap && Space(ws) && st.pos < |js|
    requires CutAt(js, st.pos, (if kind == Object then "{" else "[") + (ws + body))
    ensures |js| <= st.pos + 1 + |ws| ==> Fill(js, cap, st) == Refused(Partial)
    ensures |js| >= st.pos + 1 + |ws| ==>
      && CutAt(js, st.pos + 1 + |ws|, body)
      && InContainer(AfterOpen(st, kind, ws), |st.toks|, kind)
      && Fill(js, cap, st) == Fill(js, cap, AfterOpen(st, kind, ws))
  {
    hide Fill, StepAt, Space;
    var s1 := AfterOpen(st, kind, []);
    CutSplit(js, st.pos, if kind == Object then "{" else "[", ws + body);
    CutSplit(js, st.pos + 1, ws, body);
    FillOpen(js, cap, st, kind);
    LastOpenIs(s1.toks, |st.toks|);
    if |js| <= st.pos + 1 + |ws| {
      FillEndsInSpace(js, cap, s1, ws);
    }
    if |js| >= st.pos + 1 + |ws| {
      FillSpace(js, cap, s1, ws);
    }
  }

  lemma {:induction false} FillCutArray(js: string, cap: nat, st: State, v: Value)
    requires Unfinished(js, cap, st, v) && v.Arr?
    ensures Fill(js, cap, st) == Refused(Partial)
    decreases v, 0
  {
    hide Fill, StepAt, CutAt, LegalElems;
    FillCutOpen(js, cap, st, Array, v.ws, ElemsText(v.elems));
    if |js| > st.pos + 1 + |v.ws| {
      FillCutElems(js, cap, AfterOpen(st, Array, v.ws), v.elems, |st.toks|);
    }
  }

  lemma {:induction false} FillCutObject(js: string, cap: nat, st: State, v: Value)
    requires Unfinished(js, cap, st, v) && v.Obj?
    ensures Fill(js, cap, st) == Refused(Partial)
    decreases v, 0
  {
    hide Fill, StepAt, CutAt, LegalMembers;
    FillCutOpen(js, cap, st, Object, v.ws, MembersText(v.members));
    if |js| > st.pos + 1 + |v.ws| {
      FillCutMembers(js, cap, AfterOpen(st, Object, v.ws), v.members, |st.toks|);
    }
  }

  // A value in a container, and what follows it there up to the end of input: either the value is
  // unfinished, or it is whole and ready to be consumed.
  lemma WholeOrUnfinished(js: string, cap: nat, st: State, v: Value, post: string, tail: string)
    requires st.Valid() && Legal(v) && |st.toks| + |Flatten(v, st.pos)| <= cap && st.pos < |js|
    requires v.Prim? ==> AllowsPrimitive(st.toks, st.super)
    requires Space(post) && tail != [] && tail[0] in {',', ']', '}'} && CutAt(js, st.pos, Text(v) + (post + tail))
    ensures Unfinished(js, cap, st, v) || (ValueAt(js, cap, st, v) && CutAt(js, st.pos + |Text(v)|, post + tail))
  {
    CutSplit(js, st.pos, Text(v), post + tail);
    var p := st.pos + |Text(v)|;
    if p < |js| {
      CutChar(js, p, post + tail);
      assert post != [] ==> post[0] in post;
    }
  }

  lemma {:induction false} FillCutElems(js: string, cap: nat, st: State, es: Elems, a: nat)
    requires InContainer(st, a, Array) && LegalElems(es) && |st.toks| + |FlattenElems(es, st.pos)| <= cap
    requires CutAt(js, st.pos, ElemsText(es)) && |js| < st.pos + |ElemsText(es)|
    ensures Fill(js, cap, st) == Refused(Partial)
    decreases es, 1
  {
    hide Fill, StepAt, Space, CutAt, Text, Flatten, ValueAt, Unfinished, LastOpen;
    if es.NoElems? {
      CutEmpty(js, st.pos);
      FillEnds(js, cap, st);
    } else {
      var s1 := st.(pos := st.pos + |es.pre|);
      CutSplit(js, st.pos, es.pre, Text(es.value) + (es.post + ElemsTail(es)));
      if |js| <= s1.pos {
        FillEndsInSpace(js, cap, st, es.pre);
      } else {
        FillSpace(js, cap, st, es.pre);
        WholeOrUnfinished(js, cap, s1, es.value, es.post, ElemsTail(es));
        if Unfinished(js, cap, s1, es.value) {
          FillCutValue(js, cap, s1, es.value);
        } else {
          FillCutElemsTail(js, cap, st, es, a);
        }
      }
    }
  }

  lemma CutEmpty(js: string, p: nat)
    requires CutAt(js, p, "]") || CutAt(js, p, "}")
    requires |js| < p + 1
    ensures p == |js|
  {}

  // The first element is whole.
  lemma {:induction false} FillCutElemsTail(js: string, cap: nat, st: State, es: Elems, a: nat)
    requires InContainer(st, a, Array) && LegalElems(es) && es.Elem?
    requires |st.toks| + |FlattenElems(es, st.pos)| <= cap && |js| < st.pos + |ElemsText(es)|
    requires At(js, st.pos, es.pre) && ValueAt(js, cap, st.(pos := st.pos + |es.pre|), es.value)
    requires CutAt(js, st.pos + |es.pre| + |Text(es.value)|, es.post + ElemsTail(es))
    ensures Fill(js, cap, st) == Refused(Partial)
    decreases es, 0
  {
    hide Fill, StepAt, Space, CutAt, At, Text, Flatten, ValueAt;
    var s1 := st.(pos := st.pos + |es.pre|);
    var s2 := AfterValue(s1, es.value);
    CutSplit(js, s2.pos, es.post, ElemsTail(es));
    if |js| <= s2.pos + |es.post| {
      FillSpace(js, cap, st, es.pre);
      FillValue(js, cap, s1, es.value);
      LastOpenAfterValue(s1, es.value, a);
      FillEndsInSpace(js, cap, s2, es.post);
    } else {
      var s3 := AfterElem(st, es, a);
      FillElem(js, cap, st, es, a);
      if es.rest.Elem? {
        CutSplit(js, s3.pos, ",", ElemsText(es.rest));
        FillComma(js, cap, s3, a);
        FillCutElems(js, cap, s3.(pos := s3.pos + 1), es.rest, a);
      }
    }
  }

  lemma LastOpenAfterValue(st: State, v: Value, a: int)
    requires st.Valid() && LastOpen(st.toks) == a
    ensures LastOpen(AfterValue(st, v).toks) == a
  {
    FlattenClosed(v, st.pos);
    LastOpenBump(st.toks, st.super);
    LastOpenPlusClosed(Bump(st.toks, st.super), Flatten(v, st.pos));
  }

  function MemberRest(ms: Members): string
    requires ms.Member?
  {
    Text(ms.value) + (ms.post + MembersTail(ms))
  }

  lemma {:induction false} FillCutMembers(js: string, cap: nat, st: State, ms: Members, a: nat)
    requires InContainer(st, a, Object) && LegalMembers(ms) && |st.toks| + |FlattenMembers(ms, st.pos)| <= cap
    requires CutAt(js, st.pos, MembersText(ms)) && |js| < st.pos + |MembersText(ms)|
    ensures Fill(js, cap, st) == Refused(Partial)
    decreases ms, 1
  {
    hide Fill, StepAt, Space, CutAt, Text, Flatten, ValueAt, Unfinished, LastOpen, KeyAt;
    if ms.NoMembers? {
      CutEmpty(js, st.pos);
      FillEnds(js, cap, st);
    } else {
      FillCutKey(js, cap, st, ms, a);
      var s1 := AfterKey(st, ms, a);
      if s1.pos < |js| {
        FillKey(js, cap, st, ms, a);
        WholeOrUnfinished(js, cap, s1, ms.value, ms.post, MembersTail(ms));
        if Unfinished(js, cap, s1, ms.value) {
          FillCutValue(js, cap, s1, ms.value);
        } else {
          FillCutMembersTail(js, cap, st, ms, a);
        }
      }
    }
  }

  // The first member is whole.
  lemma {:induction false} FillCutMembersTail(js: string, cap: nat, st: State, ms: Members, a: nat)
    requires InContainer(st, a, Object) && LegalMembers(ms) && ms.Member?
    requires |st.toks| + |FlattenMembers(ms, st.pos)| <= cap && |js| < st.pos + |MembersText(ms)|
    requires KeyAt(js, st.pos, ms) && ValueAt(js, cap, AfterKey(st, ms, a), ms.value)
    requires CutAt(js, ValuePos(ms, st.pos) + |Text(ms.value)|, ms.post + MembersTail(ms))
    ensures Fill(js, cap, st) == Refused(Partial)
    decreases ms, 0
  {
    hide Fill, StepAt, Space, CutAt, At, Text, Flatten, ValueAt, KeyAt;
    var s1 := AfterKey(st, ms, a);
    var s2 := AfterValue(s1, ms.value);
    CutSplit(js, s2.pos, ms.post, MembersTail(ms));
    if |js| <= s2.pos + |ms.post| {
      FillKey(js, cap, st, ms, a);
      FillValue(js, cap, s1, ms.value);
      LastOpenAfterValue(s1, ms.value, a);
      FillEndsInSpace(js, cap, s2, ms.post);
    } else {
      var s3 := AfterMember(st, ms, a);
      FillMember(js, cap, st, ms, a);
      if ms.rest.Member? {
        CutSplit(js, s3.pos, ",", MembersText(ms.rest));
        FillComma(js, cap, s3, a);
        FillCutMembers(js, cap, State(s3.pos + 1, s3.toks, a), ms.rest, a);
      }
    }
  }

  lemma CutQuoted(js: string, p: nat, key: string, rest: string)
    requires CutAt(js, p, Quoted(key, rest))
    ensures |js| < p + |key| + 2 ==> CutAt(js, p, "\"" + key)
    ensures |js| >= p + |key| + 2 ==>
      At(js, p, "\"") && At(js, p + 1, key) && At(js, p + 1 + |key|, "\"") && CutAt(js, p + |key| + 2, rest)
  {
    assert Quoted(key, rest) == ("\"" + key) + ("\"" + rest);
    CutSplit(js, p, "\"" + key, "\"" + rest);
    if |js| >= p + |key| + 2 {
      CutSplit(js, p + 1 + |key|, "\"", rest);
      AtSplit(js, p, "\"", key);
    }
  }

  // The key is whole: what comes between it and its value.
  lemma FillCutColon(js: string, cap: nat, st: State, mid: string, lead: string, rest: string)
    requires st.Valid() && LastOpen(st.toks) != -1 && Space(mid) && Space(lead)
    requires CutAt(js, st.pos, mid + (":" + (lead + rest)))
    ensures |js| <= st.pos + |mid| + 1 + |lead| ==> Fill(js, cap, st) == Refused(Partial)
    ensures |js| >= st.pos + |mid| + 1 + |lead| ==>
      && At(js, st.pos, mid) && At(js, st.pos + |mid|, ":") && At(js, st.pos + |mid| + 1, lead)
      && CutAt(js, st.pos + |mid| + 1 + |lead|, rest)
  {
    hide Fill, StepAt, Space, At, CutAt, LastOpen;
    CutSplit(js, st.pos, mid, ":" + (lead + rest));
    if |js| <= st.pos + |mid| {
      FillEndsInSpace(js, cap, st, mid);
    } else {
      FillSpace(js, cap, st, mid);
      var s1 := st.(pos := st.pos + |mid|);
      CutSplit(js, s1.pos, ":", lead + rest);
      FillColon(js, cap, s1);
      var s2 := State(s1.pos + 1, s1.toks, |s1.toks| - 1);
      CutSplit(js, s2.pos, lead, rest);
      if |js| <= s2.pos + |lead| {
        FillEndsInSpace(js, cap, s2, lead);
      }
    }
  }

  // Cut off before the value of a member begins; otherwise the key is whole.
  lemma FillCutKey(js: string, cap: nat, st: State, ms: Members, a: nat)
    requires InContainer(st, a, Object) && LegalMembers(ms) && ms.Member? && |st.toks| < cap
    requires CutAt(js, st.pos, MembersText(ms))
    ensures |js| <= ValuePos(ms, st.pos) ==> Fill(js, cap, st) == Refused(Partial)
    ensures |js| >= ValuePos(ms, st.pos) ==>
      KeyAt(js, st.pos, ms) && CutAt(js, ValuePos(ms, st.pos), MemberRest(ms))
  {
    hide Fill, StepAt, Space, At, CutAt, LegalBody, LegalMembers, Legal, Quoted, MemberRest, LastOpen, Bump;
    KeyParts(ms);
    var x := ms.mid + (":" + (ms.lead + MemberRest(ms)));
    CutSplit(js, st.pos, ms.pre, Quoted(ms.key, x));
    var s1 := st.(pos := st.pos + |ms.pre|);
    if |js| <= s1.pos {
      FillEndsInSpace(js, cap, st, ms.pre);
    } else {
      FillSpace(js, cap, st, ms.pre);
      CutQuoted(js, s1.pos, ms.key, x);
      if |js| < s1.pos + |ms.key| + 2 {
        FillCutString(js, cap, s1, ms.key);
      } else {
        FillKeyString(js, cap, s1, ms, a);
        FillCutColon(js, cap, AfterKeyString(s1, ms, a), ms.mid, ms.lead, MemberRest(ms));
      }
    }
  }

  function AfterKeyString(st: State, ms: Members, a: nat): State
    requires ms.Member? && a < |st.toks|
  {
    State(st.pos + |ms.key| + 2, Bump(st.toks, a) + [Token(String, st.pos + 1, st.pos + 1 + |ms.key|, 0)], a)
  }

  lemma FillKeyString(js: string, cap: nat, st: State, ms: Members, a: nat)
    requires InContainer(st, a, Object) && ms.Member? && LegalBody(ms.key) && |st.toks| < cap
    requires At(js, st.pos, "\"") && At(js, st.pos + 1, ms.key) && At(js, st.pos + 1 + |ms.key|, "\"")
    ensures LastOpen(AfterKeyString(st, ms, a).toks) == a
    ensures Fill(js, cap, st) == Fill(js, cap, AfterKeyString(st, ms, a))
  {
    hide Fill, StepAt, At, LegalBody;
    FillString(js, cap, st, ms.key);
    LastOpenBump(st.toks, a);
    LastOpenPlusClosed(Bump(st.toks, a), [Token(String, st.pos + 1, st.pos + 1 + |ms.key|, 0)]);
  }

  lemma KeyParts(ms: Members)
    requires LegalMembers(ms) && ms.Member?
    ensures Space(ms.pre) && LegalBody(ms.key) && Space(ms.mid) && Space(ms.lead)
    ensures MembersText(ms) == ms.pre + Quoted(ms.key, ms.mid + (":" + (ms.lead + MemberRest(ms))))
  {}
}
