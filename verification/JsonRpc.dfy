// Walking the flat token array of a JSON-RPC 2.0 request (core/jsonrpc.c).
module JsonRpc {
  import opened Common
  import opened Jsmn
  import opened Json
  import opened JsmnGrammar

  // The tokens f stand at index i.
  ghost predicate TokensAt(toks: seq<Token>, i: nat, f: seq<Token>) {
    i + |f| <= |toks| && toks[i..i + |f|] == f
  }

  lemma TokensSplit(toks: seq<Token>, i: nat, a: seq<Token>, b: seq<Token>)
    ensures TokensAt(toks, i, a + b) <==> TokensAt(toks, i, a) && TokensAt(toks, i + |a|, b)
  {
    var f := a + b;
    if TokensAt(toks, i, f) {
      assert toks[i..i + |a|] == f[..|a|] && toks[i + |a|..i + |f|] == f[|a|..];
    }
    if TokensAt(toks, i, a) && TokensAt(toks, i + |a|, b) {
      assert toks[i..i + |f|] == toks[i..i + |a|] + toks[i + |a|..i + |f|];
    }
  }

  lemma TokenAt(toks: seq<Token>, i: nat, f: seq<Token>)
    requires TokensAt(toks, i, f) && f != []
    ensures i < |toks| && toks[i] == f[0]
  {
    assert toks[i] == toks[i..i + |f|][0];
  }

  // The kind of the first token of a value.
  function KindOf(v: Value): Kind {
    match v
    case Prim(_) => Primitive
    case Str(_) => String
    case Arr(_, _) => Array
    case Obj(_, _) => Object
  }

  lemma Head(v: Value, p: nat)
    ensures Flatten(v, p) != [] && Flatten(v, p)[0].kind == KindOf(v)
    ensures !v.IsContainer() ==> |Flatten(v, p)| == 1
    ensures v.Arr? ==> Flatten(v, p)[0].size == Length(v.elems) && Flatten(v, p)[1..] == FlattenElems(v.elems, p + 1 + |v.ws|)
    ensures v.Obj? ==> Flatten(v, p)[0].size == MemberCount(v.members)
    ensures v.Obj? ==> Flatten(v, p)[1..] == FlattenMembers(v.members, p + 1 + |v.ws|)
  {}

  // ---------------------------------------------------------------- lgtd_jsonrpc_consume_object_or_array

  // On the flat form of an object or array, the walk ends one past the subtree.
  method ConsumeObjectOrArray(tokens: seq<Token>, start: nat, parsed: nat, ghost v: Value, ghost p: nat) returns (ti: nat)
    requires v.IsContainer() && TokensAt(tokens, start, Flatten(v, p))
    requires start + |Flatten(v, p)| <= parsed <= |tokens|
    ensures ti == start + |Flatten(v, p)|
    decreases v
  {
    Head(v, p);
    TokenAt(tokens, start, Flatten(v, p));
    assert Flatten(v, p) == Flatten(v, p)[..1] + Flatten(v, p)[1..];
    TokensSplit(tokens, start, Flatten(v, p)[..1], Flatten(v, p)[1..]);
    if tokens[start].kind == Array {
      ti := ConsumeElems(tokens, start + 1, parsed, tokens[start].size, v.elems, p + 1 + |v.ws|);
    } else {
      ti := ConsumeMembers(tokens, start + 1, parsed, tokens[start].size, v.members, p + 1 + |v.ws|);
    }
  }

  method ConsumeElems(tokens: seq<Token>, start: nat, parsed: nat, size: nat, ghost elems: Elems, ghost p: nat)
    returns (ti: nat)
    requires size == Length(elems) && TokensAt(tokens, start, FlattenElems(elems, p))
    requires start + |FlattenElems(elems, p)| <= parsed <= |tokens|
    ensures ti == start + |FlattenElems(elems, p)|
    decreases elems
  {
    ti := start;
    var objsize := size;
    ghost var es: Elems, q: nat := elems, p;
    hide TokensAt, Text, Flatten;
    while objsize != 0 && ti < parsed
      invariant objsize == Length(es) && (es == elems || es < elems)
      invariant TokensAt(tokens, ti, FlattenElems(es, q))
      invariant ti + |FlattenElems(es, q)| == start + |FlattenElems(elems, p)|
      decreases es
    {
      objsize := objsize - 1;
      ghost var v, vp := es.value, q + |es.pre|;
      ghost var rest := FlattenElems(es.rest, vp + |Text(v)| + |es.post| + 1);
      Head(v, vp);
      TokensSplit(tokens, ti, Flatten(v, vp), rest);
      TokenAt(tokens, ti, Flatten(v, vp));
      if tokens[ti].kind == Object || tokens[ti].kind == Array {
        ti := ConsumeObjectOrArray(tokens, ti, parsed, v, vp);
      } else {
        ti := ti + 1;
      }
      es, q := es.rest, vp + |Text(v)| + |es.post| + 1;
    }
  }

  method ConsumeMembers(tokens: seq<Token>, start: nat, parsed: nat, size: nat, ghost members: Members, ghost p: nat)
    returns (ti: nat)
    requires size == MemberCount(members) && TokensAt(tokens, start, FlattenMembers(members, p))
    requires start + |FlattenMembers(members, p)| <= parsed <= |tokens|
    ensures ti == start + |FlattenMembers(members, p)|
    decreases members
  {
    ti := start;
    var objsize := size;
    ghost var ms: Members, q: nat := members, p;
    hide TokensAt, Text, Flatten;
    while objsize != 0 && ti < parsed
      invariant objsize == MemberCount(ms) && (ms == members || ms < members)
      invariant TokensAt(tokens, ti, FlattenMembers(ms, q))
      invariant ti + |FlattenMembers(ms, q)| == start + |FlattenMembers(members, p)|
      decreases ms
    {
      objsize := objsize - 1;
      ghost var v, vp := ms.value, ValuePos(ms, q);
      ghost var rest := FlattenMembers(ms.rest, vp + |Text(v)| + |ms.post| + 1);
      Head(v, vp);
      TokensSplit(tokens, ti, [KeyToken(ms, q)], Flatten(v, vp) + rest);
      ti := ti + 1; // past the key
      TokensSplit(tokens, ti, Flatten(v, vp), rest);
      TokenAt(tokens, ti, Flatten(v, vp));
      if tokens[ti].kind == Object || tokens[ti].kind == Array {
        ti := ConsumeObjectOrArray(tokens, ti, parsed, v, vp);
      } else {
        ti := ti + 1;
      }
      ms, q := ms.rest, vp + |Text(v)| + |ms.post| + 1;
    }
  }

  // ---------------------------------------------------------------- schemas

  // The number of tokens of a value.
  function TokenCount(v: Value): (n: nat)
    ensures n >= 1
  {
    match v
    case Prim(_) => 1
    case Str(_) => 1
    case Arr(_, es) => 1 + ElemsCount(es)
    case Obj(_, ms) => 1 + MembersCount(ms)
  }

  function ElemsCount(es: Elems): nat {
    if es.NoElems? then 0 else TokenCount(es.value) + ElemsCount(es.rest)
  }

  function MembersCount(ms: Members): nat {
    if ms.NoMembers? then 0 else 1 + TokenCount(ms.value) + MembersCount(ms.rest)
  }

  lemma {:induction false} CountIsLength(v: Value, p: nat)
    ensures |Flatten(v, p)| == TokenCount(v)
  {
    match v
    case Prim(_) =>
    case Str(_) =>
    case Arr(ws, es) => ElemsCountIsLength(es, p + 1 + |ws|);
    case Obj(ws, ms) => MembersCountIsLength(ms, p + 1 + |ws|);
  }

  lemma {:induction false} ElemsCountIsLength(es: Elems, p: nat)
    ensures |FlattenElems(es, p)| == ElemsCount(es)
  {
    if es.Elem? {
      var q := p + |es.pre|;
      CountIsLength(es.value, q);
      ElemsCountIsLength(es.rest, q + |Text(es.value)| + |es.post| + 1);
    }
  }

  lemma {:induction false} MembersCountIsLength(ms: Members, p: nat)
    ensures |FlattenMembers(ms, p)| == MembersCount(ms)
  {
    if ms.Member? {
      var q := ValuePos(ms, p);
      CountIsLength(ms.value, q);
      MembersCountIsLength(ms.rest, q + |Text(ms.value)| + |ms.post| + 1);
    }
  }

  datatype Check = IsString | IsObjectOrArray | IsStringNumberOrNull

  // struct lgtd_jsonrpc_node
  datatype Node = Node(key: string, keepsValue: bool, keepsCount: bool, check: Check, optional: bool)

  predicate StartsNumber(c: char) {
    c == '-' || '0' <= c <= '9'
  }

  const NULL_TEXT: string := "null\0"

  // lgtd_jsonrpc_type_null(): compares as many characters as the token has children, and is true when they
  // differ.
  predicate TypeNull(t: Token, json: string)
    requires t.start >= 0
  {
    exists i | 0 <= i < (if t.size < |NULL_TEXT| then t.size else |NULL_TEXT|) ::
      t.start + i >= |json| || json[t.start + i] != NULL_TEXT[i]
  }

  predicate TypeNumber(t: Token, json: string)
    requires 0 <= t.start < |json|
  {
    t.kind == Primitive && StartsNumber(json[t.start])
  }

  predicate Passes(check: Check, t: Token, json: string)
    requires 0 <= t.start < |json|
  {
    match check
    case IsString => t.kind == String
    case IsObjectOrArray => t.kind == Object || t.kind == Array
    case IsStringNumberOrNull => TypeNumber(t, json) || TypeNull(t, json) || t.kind == String
  }

  // The same in terms of the value: null is refused, and a container that is not empty is let through.
  predicate Allows(check: Check, v: Value) {
    match check
    case IsString => v.Str?
    case IsObjectOrArray => v.IsContainer()
    case IsStringNumberOrNull =>
      match v
      case Prim(t) => t != [] && StartsNumber(t[0])
      case Str(_) => true
      case Arr(_, es) => es.Elem?
      case Obj(_, ms) => ms.Member?
  }

  lemma PassesIffAllows(check: Check, v: Value, json: string, p: nat)
    requires Legal(v) && At(json, p, Text(v))
    ensures var t := Flatten(v, p); t != [] && 0 <= t[0].start < |json| && (Passes(check, t[0], json) <==> Allows(check, v))
  {
    var t := Flatten(v, p)[0];
    AtIndex(json, p, Text(v), 0);
    match v
    case Prim(_) =>
    case Str(b) =>
      assert |Text(v)| >= 2;
    case Arr(_, es) =>
      if es.Elem? { assert json[t.start + 0] != NULL_TEXT[0]; }
    case Obj(_, ms) =>
      if ms.Member? { assert json[t.start + 0] != NULL_TEXT[0]; }
  }

  // ---------------------------------------------------------------- lgtd_jsonrpc_extract_values_from_schema_and_dict

  // What has been found for each node of the schema: the index of the value token, and its token count.
  datatype Slots = Slots(values: seq<Option<nat>>, counts: seq<nat>)

  datatype Extraction = Accepted(slots: Slots) | Rejected(slots: Slots)

  function NoSlots(schema: seq<Node>): Slots {
    Slots(seq(|schema|, _ => None), seq(|schema|, _ => 0))
  }

  ghost predicate Fit(slots: Slots, schema: seq<Node>) {
    |slots.values| == |schema| && |slots.counts| == |schema|
  }

  // The first node with that key, or the size of the schema.
  function FindKey(schema: seq<Node>, key: string, si: nat): (r: nat)
    requires si <= |schema|
    ensures si <= r <= |schema|
    decreases |schema| - si
  {
    if si == |schema| || schema[si].key == key then si else FindKey(schema, key, si + 1)
  }

  // Members in order, the first key at token i: a value of the wrong type or a key seen before ends it.
  function ExtractMembers(schema: seq<Node>, ms: Members, i: nat, slots: Slots): (r: Extraction)
    requires |slots.values| == |schema| && |slots.counts| == |schema|
    ensures Fit(r.slots, schema)
    decreases ms
  {
    if ms.NoMembers? then Accepted(slots)
    else
      var si := FindKey(schema, ms.key, 0);
      var n := TokenCount(ms.value);
      if si == |schema| then ExtractMembers(schema, ms.rest, i + 1 + n, slots)
      else
        var node := schema[si];
        if !Allows(node.check, ms.value) || (node.keepsValue && slots.values[si].Some?) then Rejected(slots)
        else ExtractMembers(schema, ms.rest, i + 1 + n, FillSlot(slots, node, si, i + 1, n))
  }

  function FillSlot(slots: Slots, node: Node, si: nat, value: nat, count: nat): (r: Slots)
    requires si < |slots.values| && si < |slots.counts|
    ensures |r.values| == |slots.values| && |r.counts| == |slots.counts|
  {
    Slots(if node.keepsValue then slots.values[si := Some(value)] else slots.values,
          if node.keepsCount then slots.counts[si := count] else slots.counts)
  }

  predicate Complete(schema: seq<Node>, slots: Slots)
    requires |slots.values| == |schema|
  {
    forall si | 0 <= si < |schema| :: schema[si].optional || !schema[si].keepsValue || slots.values[si].Some?
  }

  function Finished(schema: seq<Node>, e: Extraction): Extraction
    requires |e.slots.values| == |schema|
  {
    if e.Accepted? && !Complete(schema, e.slots) then Rejected(e.slots) else e
  }

  // What the members of an object are meant to give.
  function Extract(schema: seq<Node>, ms: Members): Extraction {
    Finished(schema, ExtractMembers(schema, ms, 1, NoSlots(schema)))
  }

  // ---------------------------------------------------------------- what a token stands for

  // The value that starts at each token of a value; a key stands for a string.
  function Items(v: Value): (r: seq<Value>)
    ensures |r| == TokenCount(v) && r[0] == v
  {
    match v
    case Prim(_) => [v]
    case Str(_) => [v]
    case Arr(_, es) => [v] + ItemsOfElems(es)
    case Obj(_, ms) => [v] + ItemsOfMembers(ms)
  }

  function ItemsOfElems(es: Elems): (r: seq<Value>)
    ensures |r| == ElemsCount(es)
  {
    if es.NoElems? then [] else Items(es.value) + ItemsOfElems(es.rest)
  }

  function ItemsOfMembers(ms: Members): (r: seq<Value>)
    ensures |r| == MembersCount(ms)
  {
    if ms.NoMembers? then [] else [Str(ms.key)] + (Items(ms.value) + ItemsOfMembers(ms.rest))
  }

  ghost predicate StringHere(t: Token, json: string, body: string) {
    && t.kind == String && 1 <= t.start <= t.end < |json|
    && json[t.start - 1..t.end + 1] == Text(Str(body)) && json[t.start..t.end] == body
  }

  ghost predicate ValueHere(tokens: seq<Token>, j: nat, json: string, w: Value, p: nat) {
    TokensAt(tokens, j, Flatten(w, p)) && At(json, p, Text(w)) && Legal(w)
  }

  ghost predicate ItemHere(tokens: seq<Token>, j: nat, json: string, w: Value) {
    j < |tokens| && if w.Str? then StringHere(tokens[j], json, w.body) else exists p: nat :: ValueHere(tokens, j, json, w, p)
  }

  ghost predicate ItemsHere(tokens: seq<Token>, i: nat, json: string, items: seq<Value>) {
    i + |items| <= |tokens| && forall j | 0 <= j < |items| :: ItemHere(tokens, i + j, json, items[j])
  }

  // Every token stands for its item.
  ghost predicate Parsed(tokens: seq<Token>, json: string, items: seq<Value>) {
    |items| == |tokens| && ItemsHere(tokens, 0, json, items)
  }

  lemma ItemsJoin(tokens: seq<Token>, i: nat, json: string, a: seq<Value>, b: seq<Value>)
    requires ItemsHere(tokens, i, json, a) && ItemsHere(tokens, i + |a|, json, b)
    ensures ItemsHere(tokens, i, json, a + b)
  {
    hide ItemHere;
    forall j | 0 <= j < |a + b| ensures ItemHere(tokens, i + j, json, (a + b)[j]) {
      if j >= |a| {
        assert ItemHere(tokens, i + |a| + (j - |a|), json, b[j - |a|]);
      }
    }
  }

  lemma ItemsOne(tokens: seq<Token>, i: nat, json: string, w: Value)
    requires ItemHere(tokens, i, json, w)
    ensures ItemsHere(tokens, i, json, [w])
  {
    hide ValueHere, StringHere;
  }

  lemma ValueIsItem(tokens: seq<Token>, i: nat, json: string, v: Value, p: nat)
    requires ValueHere(tokens, i, json, v, p)
    ensures ItemHere(tokens, i, json, v)
  {
    Head(v, p);
    TokenAt(tokens, i, Flatten(v, p));
    if v.Str? {
      StringText(json, v.body, p);
    }
  }

  lemma StringText(json: string, body: string, p: nat)
    requires At(json, p, Text(Str(body)))
    ensures p + 1 + |body| < |json| && json[p..p + 2 + |body|] == Text(Str(body)) && json[p + 1..p + 1 + |body|] == body
  {
    AtSplit(json, p, "\"", body + "\"");
    AtSplit(json, p + 1, body, "\"");
  }

  lemma {:induction false} ItemsOfValue(tokens: seq<Token>, i: nat, json: string, v: Value, p: nat)
    requires ValueHere(tokens, i, json, v, p)
    ensures ItemsHere(tokens, i, json, Items(v))
    decreases v
  {
    hide At, TokensAt, ItemHere, ItemsHere, Flatten, Text;
    ValueIsItem(tokens, i, json, v, p);
    ItemsOne(tokens, i, json, v);
    if v.Arr? {
      ArrayParts(tokens, i, json, v, p);
      ItemsOfElemsHere(tokens, i + 1, json, v.elems, p + 1 + |v.ws|);
      ItemsJoin(tokens, i, json, [v], ItemsOfElems(v.elems));
    } else if v.Obj? {
      ObjectParts(tokens, i, json, v, p);
      ItemsOfMembersHere(tokens, i + 1, json, v.members, p + 1 + |v.ws|);
      ItemsJoin(tokens, i, json, [v], ItemsOfMembers(v.members));
    }
  }

  // The elements es, written at q of json, have their tokens at i.
  ghost predicate ElemsHere(tokens: seq<Token>, i: nat, json: string, es: Elems, q: nat) {
    TokensAt(tokens, i, FlattenElems(es, q)) && At(json, q, ElemsText(es)) && LegalElems(es)
  }

  // The members ms, written at q of json, have their tokens at i.
  ghost predicate MembersHere(tokens: seq<Token>, i: nat, json: string, ms: Members, q: nat) {
    TokensAt(tokens, i, FlattenMembers(ms, q)) && At(json, q, MembersText(ms)) && LegalMembers(ms)
  }

  lemma ArrayParts(tokens: seq<Token>, i: nat, json: string, v: Value, p: nat)
    requires ValueHere(tokens, i, json, v, p) && v.Arr?
    ensures ElemsHere(tokens, i + 1, json, v.elems, p + 1 + |v.ws|)
  {
    Head(v, p);
    var f := Flatten(v, p);
    assert f == f[..1] + f[1..];
    TokensSplit(tokens, i, f[..1], f[1..]);
    AtSplit(json, p, "[", v.ws + ElemsText(v.elems));
    AtSplit(json, p + 1, v.ws, ElemsText(v.elems));
  }

  lemma ObjectParts(tokens: seq<Token>, i: nat, json: string, v: Value, p: nat)
    requires ValueHere(tokens, i, json, v, p) && v.Obj?
    ensures MembersHere(tokens, i + 1, json, v.members, p + 1 + |v.ws|)
  {
    Head(v, p);
    var f := Flatten(v, p);
    assert f == f[..1] + f[1..];
    TokensSplit(tokens, i, f[..1], f[1..]);
    AtSplit(json, p, "{", v.ws + MembersText(v.members));
    AtSplit(json, p + 1, v.ws, MembersText(v.members));
  }

  // Where the next element is written.
  function AfterElem(es: Elems, q: nat): nat
    requires es.Elem?
  {
    q + |es.pre| + |Text(es.value)| + |es.post| + 1
  }

  // Where the next member is written.
  function AfterMember(ms: Members, q: nat): nat
    requires ms.Member?
  {
    ValuePos(ms, q) + |Text(ms.value)| + |ms.post| + 1
  }

  lemma FirstElem(tokens: seq<Token>, i: nat, json: string, es: Elems, q: nat)
    requires ElemsHere(tokens, i, json, es, q) && es.Elem?
    ensures ValueHere(tokens, i, json, es.value, q + |es.pre|) && i + TokenCount(es.value) <= |tokens|
    ensures es.rest.Elem? ==> ElemsHere(tokens, i + TokenCount(es.value), json, es.rest, AfterElem(es, q))
  {
    hide TokensAt, At, Text, Flatten;
    var v, vp := es.value, q + |es.pre|;
    CountIsLength(v, vp);
    TokensSplit(tokens, i, Flatten(v, vp), FlattenElems(es.rest, AfterElem(es, q)));
    TokensFit(tokens, i, Flatten(v, vp));
    SplitElems(json, q, es);
    EndsAfter(json, vp + |Text(v)|, es.post, ElemsTail(es));
    if es.rest.Elem? {
      AtSplit(json, vp + |Text(v)| + |es.post|, ",", ElemsText(es.rest));
    }
  }

  lemma TokensFit(tokens: seq<Token>, i: nat, f: seq<Token>)
    requires TokensAt(tokens, i, f)
    ensures i + |f| <= |tokens|
  {}

  lemma FirstMember(tokens: seq<Token>, i: nat, json: string, ms: Members, q: nat)
    requires MembersHere(tokens, i, json, ms, q) && ms.Member?
    ensures i < |tokens| && StringHere(tokens[i], json, ms.key)
    ensures ValueHere(tokens, i + 1, json, ms.value, ValuePos(ms, q)) && i + 1 + TokenCount(ms.value) <= |tokens|
    ensures ms.rest.Member? ==> MembersHere(tokens, i + 1 + TokenCount(ms.value), json, ms.rest, AfterMember(ms, q))
  {
    hide TokensAt, At, Text, Flatten;
    var v, vp := ms.value, ValuePos(ms, q);
    CountIsLength(v, vp);
    TokensSplit(tokens, i, [KeyToken(ms, q)], Flatten(v, vp) + FlattenMembers(ms.rest, AfterMember(ms, q)));
    TokenAt(tokens, i, [KeyToken(ms, q)]);
    TokensSplit(tokens, i + 1, Flatten(v, vp), FlattenMembers(ms.rest, AfterMember(ms, q)));
    TokensFit(tokens, i + 1, Flatten(v, vp));
    SplitMembers(json, q, ms);
    KeySlice(json, q, ms);
    EndsAfter(json, vp + |Text(v)|, ms.post, MembersTail(ms));
    if ms.rest.Member? {
      AtSplit(json, vp + |Text(v)| + |ms.post|, ",", MembersText(ms.rest));
    }
  }

  lemma KeySlice(json: string, q: nat, ms: Members)
    requires ms.Member? && KeyAt(json, q, ms)
    ensures StringHere(KeyToken(ms, q), json, ms.key)
  {
    var t := KeyToken(ms, q);
    assert json[t.start - 1..t.end + 1] == "\"" + (ms.key + "\"");
  }

  lemma {:induction false} ItemsOfElemsHere(tokens: seq<Token>, i: nat, json: string, es: Elems, q: nat)
    requires i <= |tokens| && (es.Elem? ==> ElemsHere(tokens, i, json, es, q))
    ensures ItemsHere(tokens, i, json, ItemsOfElems(es))
    decreases es
  {
    hide ElemsHere, ValueHere, ItemHere, ItemsHere, Items, Text;
    if es.Elem? {
      FirstElem(tokens, i, json, es, q);
      ItemsOfValue(tokens, i, json, es.value, q + |es.pre|);
      ItemsOfElemsHere(tokens, i + TokenCount(es.value), json, es.rest, AfterElem(es, q));
      ItemsJoin(tokens, i, json, Items(es.value), ItemsOfElems(es.rest));
    } else {
      ItemsNone(tokens, i, json);
    }
  }

  lemma ItemsNone(tokens: seq<Token>, i: nat, json: string)
    requires i <= |tokens|
    ensures ItemsHere(tokens, i, json, [])
  {}

  lemma {:induction false} ItemsOfMembersHere(tokens: seq<Token>, i: nat, json: string, ms: Members, q: nat)
    requires i <= |tokens| && (ms.Member? ==> MembersHere(tokens, i, json, ms, q))
    ensures ItemsHere(tokens, i, json, ItemsOfMembers(ms))
    decreases ms
  {
    hide MembersHere, ValueHere, ItemHere, ItemsHere, Items, Text;
    if ms.Member? {
      FirstMember(tokens, i, json, ms, q);
      KeyIsItem(tokens, i, json, ms.key);
      ItemsOne(tokens, i, json, Str(ms.key));
      ItemsOfValue(tokens, i + 1, json, ms.value, ValuePos(ms, q));
      ItemsOfMembersHere(tokens, i + 1 + TokenCount(ms.value), json, ms.rest, AfterMember(ms, q));
      ItemsJoin(tokens, i + 1, json, Items(ms.value), ItemsOfMembers(ms.rest));
      ItemsJoin(tokens, i, json, [Str(ms.key)], Items(ms.value) + ItemsOfMembers(ms.rest));
    } else {
      ItemsNone(tokens, i, json);
    }
  }

  lemma KeyIsItem(tokens: seq<Token>, i: nat, json: string, key: string)
    requires i < |tokens| && StringHere(tokens[i], json, key)
    ensures ItemHere(tokens, i, json, Str(key))
  {}

  // ---------------------------------------------------------------- lgtd_jsonrpc_extract_values_from_schema_and_dict

  // Keys and values as the loop reads them: as long as there is a string, it is a key and what follows is its value.
  // A key that is the last token has no value.
  datatype Pairs = Pairs(members: Members, dangling: bool)

  function ReadPairs(items: seq<Value>, j: nat): Pairs
    decreases |items| - j
  {
    if j >= |items| || !items[j].Str? then Pairs(NoMembers, false)
    else if j + 1 == |items| then Pairs(NoMembers, true)
    else
      var rest := ReadPairs(items, j + 1 + TokenCount(items[j + 1]));
      Pairs(Member("", items[j].body, "", "", items[j + 1], "", rest.members), rest.dangling)
  }

  // What is extracted from the pairs at j.
  function ExtractPairs(schema: seq<Node>, items: seq<Value>, j: nat, slots: Slots): (r: Extraction)
    requires Fit(slots, schema)
    ensures Fit(r.slots, schema)
  {
    ExtractMembers(schema, ReadPairs(items, j).members, j, slots)
  }

  // A key and its value, then the pairs behind them.
  lemma NextPair(schema: seq<Node>, items: seq<Value>, j: nat, slots: Slots)
    requires Fit(slots, schema) && j + 1 < |items| && items[j].Str?
    ensures
      var si, n := FindKey(schema, items[j].body, 0), TokenCount(items[j + 1]);
      ExtractPairs(schema, items, j, slots) ==
        if si == |schema| then ExtractPairs(schema, items, j + 1 + n, slots)
        else if !Allows(schema[si].check, items[j + 1]) then Rejected(slots)
        else if schema[si].keepsValue && slots.values[si].Some? then Rejected(slots)
        else ExtractPairs(schema, items, j + 1 + n, FillSlot(slots, schema[si], si, j + 1, n))
  {
    hide FindKey, Allows, TokenCount, FillSlot;
  }

  lemma NoPair(schema: seq<Node>, items: seq<Value>, j: nat, slots: Slots)
    requires Fit(slots, schema) && (j + 1 >= |items| || !items[j].Str?)
    ensures ExtractPairs(schema, items, j, slots) == Accepted(slots)
    ensures ReadPairs(items, j).dangling <==> j + 1 == |items| && items[j].Str?
  {}

  // The loop reads one past the last token when it gets to a key without a value.
  datatype Reading = Read(extraction: Extraction) | Overrun

  function ReadDict(schema: seq<Node>, items: seq<Value>): Reading {
    if items == [] || !items[0].Obj? then Read(Rejected(NoSlots(schema)))
    else
      var e := ExtractPairs(schema, items, 1, NoSlots(schema));
      if e.Accepted? && ReadPairs(items, 1).dangling then Overrun else Read(Finished(schema, e))
  }

  lemma ItemFits(tokens: seq<Token>, json: string, items: seq<Value>, j: nat)
    requires Parsed(tokens, json, items) && j < |items|
    ensures ItemHere(tokens, j, json, items[j]) && tokens[j].kind == KindOf(items[j]) && j + TokenCount(items[j]) <= |tokens|
  {
    hide ValueHere;
    assert ItemHere(tokens, 0 + j, json, items[j]);
    if !items[j].Str? {
      var p: nat :| ValueHere(tokens, j, json, items[j], p);
      ValueFits(tokens, j, json, items[j], p);
    }
  }

  lemma ValueFits(tokens: seq<Token>, j: nat, json: string, w: Value, p: nat)
    requires ValueHere(tokens, j, json, w, p)
    ensures j < |tokens| && tokens[j].kind == KindOf(w) && j + TokenCount(w) <= |tokens|
  {
    hide At, Text;
    Head(w, p);
    CountIsLength(w, p);
    TokenAt(tokens, j, Flatten(w, p));
  }

  method FindKeyInSchema(schema: seq<Node>, key: string) returns (si: nat)
    ensures si == FindKey(schema, key, 0)
  {
    si := 0;
    while si != |schema| && schema[si].key != key
      invariant si <= |schema| && FindKey(schema, key, si) == FindKey(schema, key, 0)
    {
      si := si + 1;
    }
  }

  method AllRequiredSeen(schema: seq<Node>, slots: Slots) returns (ok: bool)
    requires |slots.values| == |schema|
    ensures ok <==> Complete(schema, slots)
  {
    var si := 0;
    while si != |schema|
      invariant si <= |schema|
      invariant forall k | 0 <= k < si :: schema[k].optional || !schema[k].keepsValue || slots.values[k].Some?
    {
      if !schema[si].optional && schema[si].keepsValue && slots.values[si].None? {
        return false;
      }
      si := si + 1;
    }
    return true;
  }

  // The value at a token is skipped, whatever it is.
  method SkipValue(tokens: seq<Token>, j: nat, json: string, ghost items: seq<Value>) returns (next: nat)
    requires Parsed(tokens, json, items) && j < |tokens|
    ensures next == j + TokenCount(items[j]) <= |tokens|
  {
    hide ValueHere, StringHere, Parsed;
    OneItemEach(tokens, json, items);
    ItemFits(tokens, json, items, j);
    if tokens[j].kind == Object || tokens[j].kind == Array {
      ghost var p: nat :| ValueHere(tokens, j, json, items[j], p);
      next := SkipContainer(tokens, j, json, items[j], p);
    } else {
      next := j + 1;
    }
  }

  method SkipContainer(tokens: seq<Token>, j: nat, json: string, ghost w: Value, ghost p: nat) returns (next: nat)
    requires ValueHere(tokens, j, json, w, p) && w.IsContainer()
    ensures next == j + TokenCount(w)
  {
    CountIsLength(w, p);
    TokensFit(tokens, j, Flatten(w, p));
    next := ConsumeObjectOrArray(tokens, j, |tokens|, w, p);
  }

  // The type test on a token, in terms of its item.
  lemma ItemPasses(check: Check, tokens: seq<Token>, j: nat, json: string, w: Value)
    requires ItemHere(tokens, j, json, w)
    ensures 0 <= tokens[j].start < |json| && (Passes(check, tokens[j], json) <==> Allows(check, w))
  {
    if !w.Str? {
      var p: nat :| ValueHere(tokens, j, json, w, p);
      PassesIffAllows(check, w, json, p);
      Head(w, p);
      TokenAt(tokens, j, Flatten(w, p));
    }
  }

  // One key at ti with its value: a value of the wrong type or a key seen before ends the loop.
  method ExtractPair(schema: seq<Node>, tokens: seq<Token>, ti: nat, json: string, before: Slots, ghost items: seq<Value>)
    returns (ok: bool, next: nat, slots: Slots)
    requires Parsed(tokens, json, items) && ti + 1 < |tokens| && items[ti].Str? && Fit(before, schema)
    ensures Fit(slots, schema) && (ok ==> next == ti + 1 + TokenCount(items[ti + 1]) <= |tokens|)
    ensures ExtractPairs(schema, items, ti, before) == if ok then ExtractPairs(schema, items, next, slots) else Rejected(slots)
    ensures ok ==> ReadPairs(items, ti).dangling == ReadPairs(items, next).dangling
  {
    hide Parsed, ItemHere, Passes, Allows, TokenCount, FindKey, ExtractPairs;
    OneItemEach(tokens, json, items);
    NextPair(schema, items, ti, before);
    ItemFits(tokens, json, items, ti);
    ItemFits(tokens, json, items, ti + 1);
    KeyText(tokens, ti, json, items[ti]);
    slots := before;
    var si := FindKeyInSchema(schema, json[tokens[ti].start..tokens[ti].end]);
    var value := ti + 1;
    if si < |schema| {
      ItemPasses(schema[si].check, tokens, value, json, items[value]);
      if !Passes(schema[si].check, tokens[value], json) {
        return false, 0, slots;
      }
      if schema[si].keepsValue && slots.values[si].Some? {
        return false, 0, slots;
      }
    }
    next := SkipValue(tokens, value, json, items);
    if si < |schema| {
      slots := FillSlot(slots, schema[si], si, value, next - value);
    }
    ok := true;
  }

  lemma KeyText(tokens: seq<Token>, j: nat, json: string, w: Value)
    requires ItemHere(tokens, j, json, w) && w.Str?
    ensures 0 <= tokens[j].start <= tokens[j].end <= |json| && json[tokens[j].start..tokens[j].end] == w.body
  {}

  // lgtd_jsonrpc_extract_values_from_schema_and_dict(): overrun when it gets to a key that is the last token, whose
  // value it would read behind the array
  method ExtractFromDict(schema: seq<Node>, tokens: seq<Token>, json: string, ghost items: seq<Value>)
    returns (ok: bool, slots: Slots, overrun: bool)
    requires Parsed(tokens, json, items)
    ensures ReadDict(schema, items) == if overrun then Overrun else Read(if ok then Accepted(slots) else Rejected(slots))
    ensures Fit(slots, schema)
  {
    hide Parsed, ItemHere, ReadPairs, ExtractPairs, Complete, NoSlots;
    slots := NoSlots(schema);
    NothingExtracted(schema);
    overrun := false;
    OneItemEach(tokens, json, items);
    if tokens != [] {
      ItemFits(tokens, json, items, 0);
    }
    if tokens == [] || tokens[0].kind != Object {
      return false, slots, false;
    }
    var ti := 1;
    while ti < |tokens|
      invariant Fit(slots, schema) && 1 <= ti <= |tokens| && ReadPairs(items, ti).dangling == ReadPairs(items, 1).dangling
      invariant ExtractPairs(schema, items, ti, slots) == ExtractPairs(schema, items, 1, NoSlots(schema))
    {
      ItemFits(tokens, json, items, ti);
      // only a string can be a key
      if tokens[ti].kind != String {
        break;
      }
      if ti + 1 == |tokens| {
        NoPair(schema, items, ti, slots);
        return false, slots, true;
      }
      ok, ti, slots := ExtractPair(schema, tokens, ti, json, slots, items);
      if !ok {
        return;
      }
    }
    NoPair(schema, items, ti, slots);
    ok := AllRequiredSeen(schema, slots);
  }

  lemma NothingExtracted(schema: seq<Node>)
    ensures Fit(NoSlots(schema), schema)
  {}

  lemma OneItemEach(tokens: seq<Token>, json: string, items: seq<Value>)
    requires Parsed(tokens, json, items)
    ensures |items| == |tokens|
  {}
}
