// Requests and batches (core/jsonrpc.c, lgtd_jsonrpc_check_and_extract_request to lgtd_jsonrpc_dispatch_request).
module JsonRpcDispatch {
  import opened Common
  import opened Jsmn
  import opened Json
  import opened JsmnGrammar
  import opened JsonRpc

  // ---------------------------------------------------------------- requests

  const REQUEST_SCHEMA: seq<Node> := [
    Node("jsonrpc", false, false, IsString, false),
    Node("method", true, false, IsString, false),
    Node("params", true, true, IsObjectOrArray, true),
    Node("id", true, false, IsStringNumberOrNull, true)
  ]

  const METHOD := 1
  const PARAMS := 2
  const ID := 3

  // request_ntokens: one for the object, a key and its value for jsonrpc, method and an id, and a key with all of params.
  function RequestNtokens(slots: Slots): nat
    requires |slots.values| == 4 && |slots.counts| == 4
  {
    1 + 2 + 2
    + (if slots.values[PARAMS].Some? then 1 + slots.counts[PARAMS] else 0)
    + (if slots.values[ID].Some? then 2 else 0)
  }

  lemma SchemaKeys(key: string)
    ensures FindKey(REQUEST_SCHEMA, key, 0) ==
      if key == "jsonrpc" then 0 else if key == "method" then METHOD
      else if key == "params" then PARAMS else if key == "id" then ID else 4
  {
    assert FindKey(REQUEST_SCHEMA, key, 4) == 4;
    assert FindKey(REQUEST_SCHEMA, key, 3) == if key == "id" then 3 else 4;
    assert FindKey(REQUEST_SCHEMA, key, 2) == if key == "params" then 2 else FindKey(REQUEST_SCHEMA, key, 3);
    assert FindKey(REQUEST_SCHEMA, key, 1) == if key == "method" then 1 else FindKey(REQUEST_SCHEMA, key, 2);
  }

  // Tokens of the members that the arithmetic does not count as it should: jsonrpc, which it takes for granted,
  // keys it does not know, and what an id has beyond one token.
  function Uncounted(ms: Members): nat {
    if ms.NoMembers? then 0
    else
      Uncounted(ms.rest) +
      if ms.key == "method" || ms.key == "params" then 0
      else if ms.key == "id" then TokenCount(ms.value) - 1
      else 1 + TokenCount(ms.value)
  }

  // What the slots account for.
  function Counted(slots: Slots): nat
    requires |slots.values| == 4 && |slots.counts| == 4
  {
    (if slots.values[METHOD].Some? then 2 else 0)
    + (if slots.values[PARAMS].Some? then 1 + slots.counts[PARAMS] else 0)
    + (if slots.values[ID].Some? then 2 else 0)
  }

  lemma {:induction false} MembersAreCounted(ms: Members, i: nat, slots: Slots)
    requires |slots.values| == 4 && |slots.counts| == 4
    ensures var e := ExtractMembers(REQUEST_SCHEMA, ms, i, slots);
      e.Accepted? ==> Counted(e.slots) + Uncounted(ms) == Counted(slots) + MembersCount(ms)
    decreases ms
  {
    if ms.Member? {
      SchemaKeys(ms.key);
      hide FindKey;
      var si, n := FindKey(REQUEST_SCHEMA, ms.key, 0), TokenCount(ms.value);
      if si == 4 {
        MembersAreCounted(ms.rest, i + 1 + n, slots);
      } else {
        var node := REQUEST_SCHEMA[si];
        if Allows(node.check, ms.value) && !(node.keepsValue && slots.values[si].Some?) {
          MembersAreCounted(ms.rest, i + 1 + n, FillSlot(slots, node, si, i + 1, n));
        }
      }
    }
  }

  // For an accepted request, the arithmetic count is the number of tokens of the object exactly when the
  // members outside of it add up to the two tokens it grants to jsonrpc.
  lemma RequestCountExact(ms: Members)
    requires Extract(REQUEST_SCHEMA, ms).Accepted?
    ensures RequestNtokens(Extract(REQUEST_SCHEMA, ms).slots) + Uncounted(ms) == 1 + MembersCount(ms) + 2
    ensures RequestNtokens(Extract(REQUEST_SCHEMA, ms).slots) == 1 + MembersCount(ms) <==> Uncounted(ms) == 2
  {
    var none := NoSlots(REQUEST_SCHEMA);
    MembersAreCounted(ms, 1, none);
    assert none.values[METHOD].None? && none.values[PARAMS].None? && none.values[ID].None?;
    var e := Extract(REQUEST_SCHEMA, ms);
    assert !REQUEST_SCHEMA[METHOD].optional && REQUEST_SCHEMA[METHOD].keepsValue;
    assert e.slots.values[METHOD].Some?;
  }

  function Occurrences(ms: Members, key: string): nat {
    if ms.NoMembers? then 0 else Occurrences(ms.rest, key) + if ms.key == key then 1 else 0
  }

  predicate OnlyRequestKeys(ms: Members) {
    ms.Member? ==> ms.key in {"jsonrpc", "method", "params", "id"} && OnlyRequestKeys(ms.rest)
  }

  // jsonrpc and every id hold a single token.
  predicate ScalarIds(ms: Members) {
    ms.Member? ==> (ms.key in {"jsonrpc", "id"} ==> !ms.value.IsContainer()) && ScalarIds(ms.rest)
  }

  lemma {:induction false} UncountedIsJsonrpc(ms: Members)
    requires OnlyRequestKeys(ms) && ScalarIds(ms)
    ensures Uncounted(ms) == 2 * Occurrences(ms, "jsonrpc")
  {
    if ms.Member? { UncountedIsJsonrpc(ms.rest); }
  }

  // So it is right for every accepted request with jsonrpc once, no unknown key and a string or number as id,
  // in any order.
  lemma RequestCountRight(ms: Members)
    requires Extract(REQUEST_SCHEMA, ms).Accepted?
    requires OnlyRequestKeys(ms) && ScalarIds(ms) && Occurrences(ms, "jsonrpc") == 1
    ensures RequestNtokens(Extract(REQUEST_SCHEMA, ms).slots) == 1 + MembersCount(ms)
  {
    UncountedIsJsonrpc(ms);
    RequestCountExact(ms);
  }

  // A request with an unknown key is counted short.
  lemma UnknownKeyIsNotCounted()
    ensures var ms := Member("", "jsonrpc", "", "", Str("2.0"), "",
                      Member("", "method", "", "", Str("power_on"), "",
                      Member("", "extra", "", "", Prim("1"), "", NoMembers)));
      Extract(REQUEST_SCHEMA, ms).Accepted? && RequestNtokens(Extract(REQUEST_SCHEMA, ms).slots) == 5
        && 1 + MembersCount(ms) == 7
  {
    var m3 := Member("", "extra", "", "", Prim("1"), "", NoMembers);
    var m2 := Member("", "method", "", "", Str("power_on"), "", m3);
    var m1 := Member("", "jsonrpc", "", "", Str("2.0"), "", m2);
    SchemaKeys("jsonrpc");
    SchemaKeys("method");
    SchemaKeys("extra");
    var s0 := NoSlots(REQUEST_SCHEMA);
    var s1 := s0.(values := s0.values[METHOD := Some(4)]);
    assert ExtractMembers(REQUEST_SCHEMA, m3, 5, s1) == ExtractMembers(REQUEST_SCHEMA, NoMembers, 7, s1);
    assert FillSlot(s0, REQUEST_SCHEMA[0], 0, 2, 1) == s0;
    assert FillSlot(s0, REQUEST_SCHEMA[METHOD], METHOD, 4, 1) == s1;
    assert ExtractMembers(REQUEST_SCHEMA, m2, 3, s0) == ExtractMembers(REQUEST_SCHEMA, m3, 5, s1);
    assert ExtractMembers(REQUEST_SCHEMA, m1, 1, s0) == Accepted(s1);
    assert Complete(REQUEST_SCHEMA, s1);
  }

  // ---------------------------------------------------------------- values of a request

  function Slot(slots: Slots, k: nat): Option<nat> {
    if k < |slots.values| then slots.values[k] else None
  }

  function ItemAt(items: seq<Value>, slot: Option<nat>): Option<Value> {
    if slot.Some? && slot.value < |items| then Some(items[slot.value]) else None
  }

  // The slots of a request, whether it is accepted or not, hold values of the right type.
  ghost predicate RequestSlots(items: seq<Value>, slots: Slots) {
    && |slots.values| == 4 && |slots.counts| == 4
    && forall si | 0 <= si < 4 && slots.values[si].Some? ::
         slots.values[si].value < |items| && Allows(REQUEST_SCHEMA[si].check, items[slots.values[si].value])
  }

  lemma {:induction false} SlotsHoldItems(items: seq<Value>, j: nat, slots: Slots)
    requires RequestSlots(items, slots)
    ensures RequestSlots(items, ExtractPairs(REQUEST_SCHEMA, items, j, slots).slots)
    decreases |items| - j
  {
    hide ExtractPairs, FindKey, Allows;
    if j + 1 < |items| && items[j].Str? {
      SchemaKeys(items[j].body);
      NextPair(REQUEST_SCHEMA, items, j, slots);
      var k, n := FindKey(REQUEST_SCHEMA, items[j].body, 0), TokenCount(items[j + 1]);
      if k == 4 {
        SlotsHoldItems(items, j + 1 + n, slots);
      } else {
        var node := REQUEST_SCHEMA[k];
        if Allows(node.check, items[j + 1]) && !(node.keepsValue && slots.values[k].Some?) {
          FilledSlot(items, slots, k, j + 1, n);
          hide RequestSlots, FillSlot;
          SlotsHoldItems(items, j + 1 + n, FillSlot(slots, node, k, j + 1, n));
        }
      }
    } else {
      NoPair(REQUEST_SCHEMA, items, j, slots);
    }
  }

  lemma FilledSlot(items: seq<Value>, slots: Slots, k: nat, value: nat, n: nat)
    requires RequestSlots(items, slots) && k < 4 && value < |items| && Allows(REQUEST_SCHEMA[k].check, items[value])
    ensures RequestSlots(items, FillSlot(slots, REQUEST_SCHEMA[k], k, value, n))
  {
    hide Allows;
  }

  lemma SlotsOfRequest(items: seq<Value>)
    ensures var r := ReadDict(REQUEST_SCHEMA, items);
      r.Read? ==>
        && RequestSlots(items, r.extraction.slots)
        && (r.extraction.Accepted? ==> items != [] && items[0].Obj? && Slot(r.extraction.slots, METHOD).Some?)
  {
    SlotsHoldItems(items, 1, NoSlots(REQUEST_SCHEMA));
    hide ExtractMembers, ReadPairs;
    assert !REQUEST_SCHEMA[METHOD].optional && REQUEST_SCHEMA[METHOD].keepsValue;
  }

  // ---------------------------------------------------------------- what a request comes to

  const METHODS: seq<string> := [
    "power_on", "power_off", "power_toggle", "set_light_from_hsbk", "set_waveform", "get_light_state", "tag", "untag",
    "set_label"
  ]

  // A method that is called, with its parameters and the id of the request; a notification has no id.
  datatype Call = Call(name: string, params: Option<Value>, id: Option<Value>)

  datatype Act = BadRequest(id: Option<Value>) | NotFound(id: Option<Value>) | Run(call: Call)

  function NameAt(items: seq<Value>, slot: Option<nat>): string {
    match ItemAt(items, slot)
    case Some(Str(body)) => body
    case _ => ""
  }

  function Decide(items: seq<Value>, e: Extraction): Act {
    var id := ItemAt(items, Slot(e.slots, ID));
    var name := NameAt(items, Slot(e.slots, METHOD));
    if e.Rejected? then BadRequest(id)
    else if name !in METHODS then NotFound(id)
    else Run(Call(name, ItemAt(items, Slot(e.slots, PARAMS)), id))
  }

  // What a method writes, given the number of methods called before, its name, the text of its parameters and that of
  // the id: one response, whatever it is.
  type Handler = (nat, string, Option<string>, string) -> string

  function ErrorText(id: string, code: string, message: string): string {
    "{\"jsonrpc\": \"2.0\", \"id\": " + id + ", \"error\": {\"code\": " + code + ", \"message\": \"" + message + "\"}}"
  }

  function InvalidRequest(id: string): string {
    ErrorText(id, "-32600", "Invalid request")
  }

  function MethodNotFound(id: string): string {
    ErrorText(id, "-32601", "Method not found")
  }

  function IdText(id: Option<Value>): string {
    if id.None? then "null" else Text(id.value)
  }

  function ParamsText(params: Option<Value>): Option<string> {
    if params.None? then None else Some(Text(params.value))
  }

  // A notification of a known method has no reply; everything else has one.
  function Reply(act: Act, n: nat, respond: Handler): Option<string> {
    match act
    case BadRequest(id) => Some(InvalidRequest(IdText(id)))
    case NotFound(id) => Some(MethodNotFound(IdText(id)))
    case Run(c) => if c.id.None? then None else Some(respond(n, c.name, ParamsText(c.params), IdText(c.id)))
  }

  function CallOf(act: Act): seq<Call> {
    if act.Run? then [act.call] else []
  }

  function Calls(acts: seq<Act>): seq<Call> {
    if acts == [] then [] else Calls(acts[..|acts| - 1]) + CallOf(acts[|acts| - 1])
  }

  function ReplyOf(act: Act, n: nat, respond: Handler): (rs: seq<string>)
    ensures |rs| <= 1
  {
    var r := Reply(act, n, respond);
    if r.Some? then [r.value] else []
  }

  // The replies to acts when n methods have been called before them.
  function Replies(acts: seq<Act>, n: nat, respond: Handler): seq<string> {
    if acts == [] then []
    else
      var before := acts[..|acts| - 1];
      Replies(before, n, respond) + ReplyOf(acts[|acts| - 1], n + |Calls(before)|, respond)
  }

  lemma OneMore(acts: seq<Act>, act: Act, n: nat, respond: Handler)
    ensures Calls(acts + [act]) == Calls(acts) + CallOf(act)
    ensures Replies(acts + [act], n, respond) == Replies(acts, n, respond) + ReplyOf(act, n + |Calls(acts)|, respond)
  {
    assert (acts + [act])[..|acts|] == acts;
  }

  lemma {:induction false} CallsJoin(a: seq<Act>, b: seq<Act>)
    ensures Calls(a + b) == Calls(a) + Calls(b)
    decreases |b|
  {
    if b == [] {
      assert a + b == a;
    } else {
      var k := |b| - 1;
      CallsJoin(a, b[..k]);
      assert (a + b)[..|a + b| - 1] == a + b[..k];
      assert (a + b)[|a + b| - 1] == b[k];
    }
  }

  // ---------------------------------------------------------------- the text of a batch

  // What precedes reply number n.
  function Separator(inBatch: bool, n: nat): string {
    if !inBatch then "" else if n == 1 then "[" else ","
  }

  // A comma between two replies.
  function Join(rs: seq<string>): string {
    if rs == [] then "" else if |rs| == 1 then rs[0] else rs[0] + "," + Join(rs[1..])
  }

  // Replies as they are written one by one.
  function Written(rs: seq<string>): string {
    if rs == [] then "" else Written(rs[..|rs| - 1]) + (Separator(true, |rs|) + rs[|rs| - 1])
  }

  lemma {:induction false} JoinLast(rs: seq<string>, r: string)
    requires rs != []
    ensures Join(rs + [r]) == Join(rs) + ("," + r)
  {
    if |rs| > 1 {
      assert (rs + [r])[1..] == rs[1..] + [r];
      JoinLast(rs[1..], r);
      assert Join(rs + [r]) == rs[0] + "," + (Join(rs[1..]) + ("," + r));
    }
  }

  lemma {:induction false} WrittenIsJoined(rs: seq<string>)
    requires rs != []
    ensures Written(rs) == "[" + Join(rs)
  {
    var n := |rs| - 1;
    if n > 0 {
      WrittenIsJoined(rs[..n]);
      JoinLast(rs[..n], rs[n]);
      assert rs == rs[..n] + [rs[n]];
    } else {
      assert rs[..0] == [];
    }
  }

  // The output for a batch: nothing, or the replies in an array.
  function BatchText(rs: seq<string>): string {
    if rs == [] then "" else "[" + Join(rs) + "]"
  }

  // One more reply, or none.
  lemma Answered(out: string, before: string, done: seq<string>, r: seq<string>, io: bool)
    requires before == (out + if io then Written(done) else "") && |r| <= 1
    ensures out + (if io then Written(done + r) else "")
         == before + if r != [] && io then Separator(true, |done + r|) + r[0] else ""
  {
    if r != [] {
      assert (done + r)[..|done|] == done;
      var w, a := if io then Written(done) else "", if io then Separator(true, |done + r|) + r[0] else "";
      assert out + (w + a) == (out + w) + a;
    } else {
      assert done + r == done && before + "" == before;
    }
  }

  lemma Bracketed(out: string, rs: seq<string>)
    ensures out + Written(rs) + (if rs == [] then "" else "]") == out + BatchText(rs)
  {
    if rs != [] {
      WrittenIsJoined(rs);
      assert out + ("[" + Join(rs)) + "]" == out + ("[" + Join(rs) + "]");
    }
  }

  // ---------------------------------------------------------------- batches

  datatype Visit = Visit(at: nat, extraction: Extraction)

  datatype Walk = Walk(visits: seq<Visit>, overrun: bool)

  // The tokens an element of a batch is taken to have.
  function Consumed(v: Value, e: Extraction): (n: nat)
    ensures n > 0
  {
    if e.Accepted? && |e.slots.values| == 4 && |e.slots.counts| == 4 then RequestNtokens(e.slots) else TokenCount(v)
  }

  // The loop over a batch, from token ti on: what it takes for elements, and what it reads there.
  function WalkBatch(items: seq<Value>, ti: nat): Walk
    decreases |items| - ti
  {
    if ti >= |items| then Walk([], false)
    else
      var r := ReadDict(REQUEST_SCHEMA, items[ti..]);
      if r.Overrun? then Walk([], true)
      else
        var rest := WalkBatch(items, ti + Consumed(items[ti], r.extraction));
        Walk([Visit(ti, r.extraction)] + rest.visits, rest.overrun)
  }

  function Acts(items: seq<Value>, visits: seq<Visit>): seq<Act> {
    if visits == [] then []
    else
      var v := visits[0];
      [Decide(if v.at <= |items| then items[v.at..] else [], v.extraction)] + Acts(items, visits[1..])
  }

  predicate IsEmpty(v: Value) {
    match v
    case Arr(_, es) => es.NoElems?
    case Obj(_, ms) => ms.NoMembers?
    case _ => true
  }

  // What a buffer of tokens comes to.
  datatype Answer = Single(act: Act) | Batch(acts: seq<Act>, overrun: bool) | Outside

  function AnswerTo(items: seq<Value>): Answer {
    if items == [] || IsEmpty(items[0]) then Single(BadRequest(None))
    else if items[0].Arr? then
      var w := WalkBatch(items, 1);
      Batch(Acts(items, w.visits), w.overrun)
    else
      var r := ReadDict(REQUEST_SCHEMA, items);
      if r.Overrun? then Outside else Single(Decide(items, r.extraction))
  }

  function CallsMade(a: Answer): seq<Call> {
    match a
    case Single(act) => CallOf(act)
    case Batch(acts, _) => Calls(acts)
    case Outside => []
  }

  // A batch that runs past the tokens is left without its closing bracket.
  function Output(a: Answer, n: nat, respond: Handler): string {
    match a
    case Single(act) => (var r := Reply(act, n, respond); if r.Some? then r.value else "")
    case Batch(acts, overrun) => (var rs := Replies(acts, n, respond); if overrun then Written(rs) else BatchText(rs))
    case Outside => ""
  }

  lemma WalkStep(items: seq<Value>, ti: nat)
    requires ti < |items|
    ensures var r := ReadDict(REQUEST_SCHEMA, items[ti..]);
      if r.Overrun? then WalkBatch(items, ti) == Walk([], true) && Acts(items, []) == []
      else
        var rest := WalkBatch(items, ti + Consumed(items[ti], r.extraction));
        && WalkBatch(items, ti).overrun == rest.overrun
        && Acts(items, WalkBatch(items, ti).visits) == [Decide(items[ti..], r.extraction)] + Acts(items, rest.visits)
  {
    hide ReadDict, Consumed, Decide;
    var r := ReadDict(REQUEST_SCHEMA, items[ti..]);
    if r.Read? {
      var rest := WalkBatch(items, ti + Consumed(items[ti], r.extraction));
      assert ([Visit(ti, r.extraction)] + rest.visits)[1..] == rest.visits;
    }
  }

  lemma WalkEnd(items: seq<Value>, ti: nat)
    requires ti >= |items|
    ensures WalkBatch(items, ti) == Walk([], false) && Acts(items, []) == []
  {}

  // ---------------------------------------------------------------- the tokens of a request

  // The characters of a token; a string has its quotes around it.
  lemma ItemText(tokens: seq<Token>, j: nat, json: string, w: Value)
    requires ItemHere(tokens, j, json, w)
    ensures var t := tokens[j];
      && t.kind == KindOf(w) && 0 <= t.start <= t.end <= |json|
      && if w.Str? then 1 <= t.start && t.end < |json| && json[t.start - 1..t.end + 1] == Text(w)
         else json[t.start..t.end] == Text(w)
  {
    if !w.Str? {
      var p: nat :| ValueHere(tokens, j, json, w, p);
      Head(w, p);
      TokenAt(tokens, j, Flatten(w, p));
    }
  }

  lemma ItemFrom(tokens: seq<Token>, k: nat, j: nat, json: string, w: Value)
    requires ItemHere(tokens, k + j, json, w) && k <= |tokens|
    ensures ItemHere(tokens[k..], j, json, w)
  {
    if !w.Str? {
      var p: nat :| ValueHere(tokens, k + j, json, w, p);
      var f := Flatten(w, p);
      assert tokens[k..][j..j + |f|] == tokens[k + j..k + j + |f|];
      assert ValueHere(tokens[k..], j, json, w, p);
    }
  }

  lemma ParsedFrom(tokens: seq<Token>, json: string, items: seq<Value>, k: nat)
    requires Parsed(tokens, json, items) && k <= |tokens|
    ensures |items| == |tokens| && Parsed(tokens[k..], json, items[k..])
  {
    hide ItemHere;
    var ts, vs := tokens[k..], items[k..];
    forall j | 0 <= j < |vs| ensures ItemHere(ts, 0 + j, json, vs[j]) {
      assert ItemHere(tokens, 0 + (k + j), json, items[k + j]);
      ItemFrom(tokens, k, j, json, vs[j]);
    }
  }

  // The size of the first token tells whether the value is empty.
  lemma RootSize(tokens: seq<Token>, json: string, items: seq<Value>)
    requires Parsed(tokens, json, items) && items != []
    ensures |items| == |tokens| && tokens[0].kind == KindOf(items[0])
    ensures items[0].IsContainer() ==> (tokens[0].size == 0 <==> IsEmpty(items[0]))
  {
    ItemFits(tokens, json, items, 0);
    if items[0].IsContainer() {
      var p: nat :| ValueHere(tokens, 0, json, items[0], p);
      Head(items[0], p);
      TokenAt(tokens, 0, Flatten(items[0], p));
    }
  }

  class Client {
    // false while client->io is NULL: what is written is lost
    var io: bool
    var output: string
    // how many methods have been called, and which ones
    var served: nat
    ghost var calls: seq<Call>

    ghost predicate Valid()
      reads this
    {
      served == |calls|
    }

    constructor ()
      ensures Valid() && io && output == "" && calls == []
    {
      io, output, served, calls := true, "", 0, [];
    }

    // lgtd_client_open_from_pipe(): a client without a connection
    constructor FromPipe()
      ensures Valid() && !io && output == "" && calls == []
    {
      io, output, served, calls := false, "", 0, [];
    }

    method WriteString(s: string)
      modifies `output
      ensures output == old(output) + if io then s else ""
    {
      if io {
        output := output + s;
      }
    }

    // lgtd_jsonrpc_write_id(): the text of the id, or null.
    method IdOf(json: string, tokens: seq<Token>, slots: Slots, ghost items: seq<Value>) returns (id: string)
      requires Parsed(tokens, json, items) && RequestSlots(items, slots)
      ensures id == IdText(ItemAt(items, Slot(slots, ID)))
    {
      hide Parsed, ItemHere, Allows;
      if slots.values[ID].None? {
        return "null";
      }
      var j := slots.values[ID].value;
      OneItemEach(tokens, json, items);
      ItemFits(tokens, json, items, j);
      ItemText(tokens, j, json, items[j]);
      // the token of a string leaves its quotes out
      if tokens[j].kind == String {
        id := json[tokens[j].start - 1..tokens[j].end + 1];
      } else {
        id := json[tokens[j].start..tokens[j].end];
      }
    }

    method ParamsOf(json: string, tokens: seq<Token>, slots: Slots, ghost items: seq<Value>) returns (params: Option<string>)
      requires Parsed(tokens, json, items) && RequestSlots(items, slots)
      ensures params == ParamsText(ItemAt(items, Slot(slots, PARAMS)))
    {
      hide Parsed, ItemHere;
      if slots.values[PARAMS].None? {
        return None;
      }
      var j := slots.values[PARAMS].value;
      OneItemEach(tokens, json, items);
      ItemFits(tokens, json, items, j);
      ItemText(tokens, j, json, items[j]);
      params := Some(json[tokens[j].start..tokens[j].end]);
    }

    // The loop over the known methods.
    method IsKnownMethod(json: string, tokens: seq<Token>, slots: Slots, ghost items: seq<Value>)
      returns (known: bool, name: string)
      requires Parsed(tokens, json, items) && RequestSlots(items, slots) && slots.values[METHOD].Some?
      ensures name == NameAt(items, Slot(slots, METHOD)) && (known <==> name in METHODS)
    {
      hide Parsed, ItemHere;
      var j := slots.values[METHOD].value;
      OneItemEach(tokens, json, items);
      ItemFits(tokens, json, items, j);
      KeyText(tokens, j, json, items[j]);
      name := json[tokens[j].start..tokens[j].end];
      var i := 0;
      while i != |METHODS|
        invariant 0 <= i <= |METHODS| && name !in METHODS[..i]
      {
        if name == METHODS[i] {
          return true, name;
        }
        i := i + 1;
      }
      return false, name;
    }

    // A reply of a batch, or the only one
    method WriteReply(inBatch: bool, sent: nat, message: string)
      modifies `output
      ensures output == old(output) + if io then Separator(inBatch, sent) + message else ""
    {
      hide Separator;
      WriteString(Separator(inBatch, sent));
      WriteString(message);
    }

    // A method of the table: for a notification it runs with client->io set to NULL
    method CallMethod(isNotification: bool, inBatch: bool, batchSent: nat, respond: Handler, name: string,
                      params: Option<string>, id: string, ghost call: Call)
      returns (sent: nat)
      requires batchSent > 0 && Valid()
      requires name == call.name && params == ParamsText(call.params) && id == IdText(call.id)
      requires call.id.None? <==> isNotification
      modifies this
      ensures Valid() && io == old(io) && calls == old(calls) + [call]
      ensures sent == batchSent - (if isNotification then 1 else 0)
      ensures output == old(output)
        + if io && !isNotification then Separator(inBatch, sent) + respond(|old(calls)|, name, params, id) else ""
    {
      hide Separator;
      sent := batchSent;
      var reply := respond(served, name, params, id);
      served, calls := served + 1, calls + [call];
      if isNotification {
        var clientIo := io;
        io := false;
        sent := sent - 1;
        WriteString(reply);
        io := clientIo;
      } else {
        WriteReply(inBatch, sent, reply);
      }
    }

    // lgtd_jsonrpc_dispatch_one(): the number of tokens it says it has used, and the replies sent so far.
    method DispatchOne(json: string, tokens: seq<Token>, inBatch: bool, batchSent: nat, respond: Handler,
                       ghost items: seq<Value>)
      returns (ntokens: nat, sent: nat, overrun: bool)
      requires Parsed(tokens, json, items) && items != [] && items[0].Obj? && Valid()
      modifies this
      ensures Valid() && io == old(io) && (overrun <==> ReadDict(REQUEST_SCHEMA, items).Overrun?)
      ensures overrun ==> output == old(output) && calls == old(calls)
      ensures !overrun ==>
        var e := ReadDict(REQUEST_SCHEMA, items).extraction;
        var r := ReplyOf(Decide(items, e), |old(calls)|, respond);
        && ntokens == Consumed(items[0], e) && sent == batchSent + |r|
        && calls == old(calls) + CallOf(Decide(items, e))
        && output == old(output) + if r != [] && io then Separator(inBatch, sent) + r[0] else ""
    {
      hide Parsed, ReadDict, RequestNtokens, InvalidRequest, MethodNotFound, Separator, TokenCount, Text;
      SlotsOfRequest(items);
      OneItemEach(tokens, json, items);
      sent := batchSent + 1;
      var ok, slots;
      ok, slots, overrun := ExtractFromDict(REQUEST_SCHEMA, tokens, json, items);
      if overrun {
        return 0, sent, true;
      }
      var id := IdOf(json, tokens, slots, items);
      if !ok {
        ntokens := SkipValue(tokens, 0, json, items);
        WriteReply(inBatch, sent, InvalidRequest(id));
        return;
      }
      ntokens := RequestNtokens(slots);
      var known, name := IsKnownMethod(json, tokens, slots, items);
      if known {
        var params := ParamsOf(json, tokens, slots, items);
        sent := CallMethod(slots.values[ID].None?, inBatch, sent, respond, name, params, id,
            Decide(items, Accepted(slots)).call);
      } else {
        WriteReply(inBatch, sent, MethodNotFound(id));
      }
    }

    // What is taken for an element of a batch.
    method DispatchElement(json: string, tokens: seq<Token>, ti: nat, batchSent: nat, respond: Handler, ghost items: seq<Value>)
      returns (next: nat, sent: nat, overrun: bool)
      requires Parsed(tokens, json, items) && ti < |tokens| == |items| && Valid()
      modifies this
      ensures Valid() && io == old(io) && (overrun <==> ReadDict(REQUEST_SCHEMA, items[ti..]).Overrun?)
      ensures overrun ==> output == old(output) && calls == old(calls)
      ensures !overrun ==>
        var e := ReadDict(REQUEST_SCHEMA, items[ti..]).extraction;
        var r := ReplyOf(Decide(items[ti..], e), |old(calls)|, respond);
        && next == ti + Consumed(items[ti], e) && sent == batchSent + |r|
        && calls == old(calls) + CallOf(Decide(items[ti..], e))
        && output == old(output) + if r != [] && io then Separator(true, sent) + r[0] else ""
    {
      hide Parsed, InvalidRequest, Separator, TokenCount, ReadPairs, ExtractMembers, Finished, RequestNtokens;
      ParsedFrom(tokens, json, items, ti);
      ItemFits(tokens, json, items, ti);
      if tokens[ti].kind == Object {
        hide ReadDict, Decide, ReplyOf, Consumed;
        var n;
        n, sent, overrun := DispatchOne(json, tokens[ti..], true, batchSent, respond, items[ti..]);
        next := ti + n;
      } else {
        overrun := false;
        sent := batchSent + 1;
        WriteReply(true, sent, InvalidRequest("null"));
        next := SkipValue(tokens, ti, json, items);
        assert calls + [] == calls;
      }
    }

    // lgtd_jsonrpc_dispatch_request() on a batch.
    method DispatchBatch(json: string, tokens: seq<Token>, respond: Handler, ghost items: seq<Value>) returns (overrun: bool)
      requires Parsed(tokens, json, items) && items != [] && items[0].Arr? && !IsEmpty(items[0]) && Valid()
      modifies this
      ensures Valid() && io == old(io) && overrun == WalkBatch(items, 1).overrun
      ensures calls == old(calls) + CallsMade(AnswerTo(items))
      ensures output == old(output) + if io then Output(AnswerTo(items), |old(calls)|, respond) else ""
    {
      hide Parsed, ReadDict, Decide, Consumed, ReplyOf, Separator, Written, BatchText, WalkBatch, Acts;
      OneItemEach(tokens, json, items);
      overrun := false;
      var batchSent := 0;
      var ti := 1;
      ghost var n0, all := |calls|, WalkBatch(items, 1);
      ghost var done: seq<Act> := [];
      NothingWritten();
      while ti < |tokens|
        invariant ti >= 1 && Valid() && io == old(io)
        invariant done + Acts(items, WalkBatch(items, ti).visits) == Acts(items, all.visits)
        invariant WalkBatch(items, ti).overrun == all.overrun
        invariant batchSent == |Replies(done, n0, respond)| && calls == old(calls) + Calls(done)
        invariant output == old(output) + if io then Written(Replies(done, n0, respond)) else ""
      {
        WalkStep(items, ti);
        ghost var ahead, before, n := items[ti..], output, |calls|;
        ti, batchSent, overrun := DispatchElement(json, tokens, ti, batchSent, respond, items);
        if overrun {
          assert done + [] == done;
          return;
        }
        ghost var act := Decide(ahead, ReadDict(REQUEST_SCHEMA, ahead).extraction);
        ghost var rs := ReplyOf(act, n, respond);
        OneMore(done, act, n0, respond);
        Answered(old(output), before, Replies(done, n0, respond), rs, io);
        Regrouped(done, [act], Acts(items, WalkBatch(items, ti).visits));
        done := done + [act];
      }
      WalkEnd(items, ti);
      assert done + [] == done;
      Bracketed(old(output), Replies(done, n0, respond));
      if batchSent != 0 {
        WriteString("]");
      }
    }

    // lgtd_jsonrpc_dispatch_request()
    method DispatchRequest(json: string, tokens: seq<Token>, respond: Handler, ghost items: seq<Value>) returns (overrun: bool)
      requires Parsed(tokens, json, items) && Valid()
      requires items != [] && !items[0].IsContainer() ==> tokens[0].size == 0
      modifies this
      ensures Valid() && io == old(io)
      ensures overrun <==> AnswerTo(items).Outside? || (AnswerTo(items).Batch? && AnswerTo(items).overrun)
      ensures calls == old(calls) + CallsMade(AnswerTo(items))
      ensures output == old(output) + if io then Output(AnswerTo(items), |old(calls)|, respond) else ""
    {
      hide Parsed, ReadDict, Decide, Replies, WalkBatch, InvalidRequest, BatchText, Separator;
      OneItemEach(tokens, json, items);
      if items != [] {
        RootSize(tokens, json, items);
      }
      overrun := false;
      if tokens == [] || tokens[0].size == 0 {
        WriteString(InvalidRequest("null"));
      } else if tokens[0].kind != Array {
        var n, sent;
        n, sent, overrun := DispatchOne(json, tokens, false, 0, respond, items);
        NoSeparator(sent);
      } else {
        overrun := DispatchBatch(json, tokens, respond, items);
      }
    }
  }

  lemma NothingWritten()
    ensures Written([]) == ""
  {}

  lemma NoSeparator(n: nat)
    ensures Separator(false, n) == ""
  {}

  lemma Regrouped(a: seq<Act>, b: seq<Act>, c: seq<Act>)
    ensures a + (b + c) == (a + b) + c
  {}
}
