// JSON texts as concrete syntax trees: every tree carries the whitespace and the exact characters it was
// written with, so that the trees are all the ways to write JSON (RFC 8259, sections 2 to 7).
module Json {
  import opened Jsmn

  datatype Value =
    | Prim(text: string)
    | Str(body: string)
    | Arr(ws: string, elems: Elems)
    | Obj(ws: string, members: Members)
  {
    predicate IsContainer() {
      Arr? || Obj?
    }
  }

  datatype Elems = NoElems | Elem(pre: string, value: Value, post: string, rest: Elems)

  // pre "key" mid : lead value post , rest
  datatype Members =
    | NoMembers
    | Member(pre: string, key: string, mid: string, lead: string, value: Value, post: string, rest: Members)

  // ---------------------------------------------------------------- what is legal

  predicate Space(s: string) {
    forall c | c in s :: IsSpace(c)
  }

  // Every number and literal of RFC 8259 is one of these.
  predicate LegalPrim(s: string) {
    && s != [] && StartsPrimitive(s[0])
    && forall c | c in s :: IsPrintable(c) && !EndsPrimitive(c)
  }

  // Plain characters and escapes, without the closing quote.
  predicate LegalBody(s: string) {
    if s == [] then true
    else if s[0] == '\\' then
      && |s| >= 2
      && if IsEscape(s[1]) then LegalBody(s[2..])
         else s[1] == 'u' && |s| >= 6 && (forall i | 2 <= i < 6 :: IsHex(s[i])) && LegalBody(s[6..])
    else s[0] !in {'"', '\0'} && LegalBody(s[1..])
  }

  predicate Legal(v: Value) {
    match v
    case Prim(t) => LegalPrim(t)
    case Str(b) => LegalBody(b)
    case Arr(ws, es) => Space(ws) && LegalElems(es)
    case Obj(ws, ms) => Space(ws) && LegalMembers(ms)
  }

  predicate LegalElems(es: Elems) {
    es.Elem? ==> Space(es.pre) && Legal(es.value) && Space(es.post) && LegalElems(es.rest)
  }

  predicate LegalMembers(ms: Members) {
    ms.Member? ==>
      && Space(ms.pre) && LegalBody(ms.key) && Space(ms.mid)
      && Space(ms.lead) && Legal(ms.value) && Space(ms.post) && LegalMembers(ms.rest)
  }

  // ---------------------------------------------------------------- how it is written

  function Text(v: Value): (t: string)
    ensures Legal(v) ==> t != []
  {
    match v
    case Prim(t) => t
    case Str(b) => Quoted(b, [])
    case Arr(ws, es) => "[" + (ws + ElemsText(es))
    case Obj(ws, ms) => "{" + (ws + MembersText(ms))
  }

  function Quoted(body: string, rest: string): string {
    "\"" + (body + ("\"" + rest))
  }

  // The elements with the bracket that closes them.
  function ElemsText(es: Elems): (t: string)
    ensures t != []
    decreases es, 1
  {
    if es.NoElems? then "]" else es.pre + (Text(es.value) + (es.post + ElemsTail(es)))
  }

  // What follows an element: the closing bracket, or a comma and the other elements.
  function ElemsTail(es: Elems): (t: string)
    requires es.Elem?
    ensures t != [] && t[0] in {',', ']'}
    decreases es, 0
  {
    if es.rest.NoElems? then "]" else "," + ElemsText(es.rest)
  }

  function MembersText(ms: Members): (t: string)
    ensures t != []
    decreases ms, 1
  {
    if ms.NoMembers? then "}"
    else ms.pre + Quoted(ms.key, ms.mid + (":" + (ms.lead + (Text(ms.value) + (ms.post + MembersTail(ms))))))
  }

  function MembersTail(ms: Members): (t: string)
    requires ms.Member?
    ensures t != [] && t[0] in {',', '}'}
    decreases ms, 0
  {
    if ms.rest.NoMembers? then "}" else "," + MembersText(ms.rest)
  }

  // ---------------------------------------------------------------- the flat form

  function Length(es: Elems): nat {
    if es.NoElems? then 0 else 1 + Length(es.rest)
  }

  function MemberCount(ms: Members): nat {
    if ms.NoMembers? then 0 else 1 + MemberCount(ms.rest)
  }

  // The tokens of v written at position p, in preorder: a container counts its elements or members, a key
  // counts its one value.
  function Flatten(v: Value, p: nat): seq<Token> {
    match v
    case Prim(t) => [Token(Primitive, p, p + |t|, 0)]
    case Str(b) => [Token(String, p + 1, p + 1 + |b|, 0)]
    case Arr(ws, es) => [Token(Array, p, p + |Text(v)|, Length(es))] + FlattenElems(es, p + 1 + |ws|)
    case Obj(ws, ms) => [Token(Object, p, p + |Text(v)|, MemberCount(ms))] + FlattenMembers(ms, p + 1 + |ws|)
  }

  function FlattenElems(es: Elems, p: nat): seq<Token> {
    match es
    case NoElems => []
    case Elem(pre, v, post, rest) =>
      Flatten(v, p + |pre|) + FlattenElems(rest, p + |pre| + |Text(v)| + |post| + 1)
  }

  function KeyToken(ms: Members, p: nat): Token
    requires ms.Member?
  {
    Token(String, p + |ms.pre| + 1, p + |ms.pre| + 1 + |ms.key|, 1)
  }

  // Where the value of the first member is written.
  function ValuePos(ms: Members, p: nat): nat
    requires ms.Member?
  {
    p + |ms.pre| + |ms.key| + 2 + |ms.mid| + 1 + |ms.lead|
  }

  function FlattenMembers(ms: Members, p: nat): seq<Token> {
    match ms
    case NoMembers => []
    case Member(_, _, _, _, v, post, rest) =>
      var q := ValuePos(ms, p);
      [KeyToken(ms, p)] + (Flatten(v, q) + FlattenMembers(rest, q + |Text(v)| + |post| + 1))
  }

  // ---------------------------------------------------------------- streams of texts

  // Whitespace, then a text rooted at an object or array, and so on; whitespace at the end.
  datatype Stream = End(ws: string) | Then(ws: string, root: Value, rest: Stream)

  predicate LegalStream(s: Stream) {
    match s
    case End(ws) => Space(ws)
    case Then(ws, v, rest) => Space(ws) && v.IsContainer() && Legal(v) && LegalStream(rest)
  }

  function StreamText(s: Stream): string {
    match s
    case End(ws) => ws
    case Then(ws, v, rest) => ws + (Text(v) + StreamText(rest))
  }

  function FlattenStream(s: Stream, p: nat): seq<Token> {
    match s
    case End(_) => []
    case Then(ws, v, rest) => Flatten(v, p + |ws|) + FlattenStream(rest, p + |ws| + |Text(v)|)
  }
}
