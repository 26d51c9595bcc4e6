// What a request object comes to, in terms of its members alone, and what the replies are as JSON (core/jsonrpc.c).
module JsonRequest {
  import opened Common
  import opened Jsmn
  import opened Json
  import opened JsonRpc
  import opened JsonRpcDispatch
  import opened JsonBatch

  // ---------------------------------------------------------------- members

  // The first value of a key.
  function ValueOf(ms: Members, key: string): Option<Value> {
    if ms.NoMembers? then None else if ms.key == key then Some(ms.value) else ValueOf(ms.rest, key)
  }

  // What each key of a request may hold: an id is a string, a number, or an array or object that is not empty.
  predicate RightType(key: string, v: Value) {
    if key == "jsonrpc" || key == "method" then v.Str?
    else if key == "params" then v.Arr? || v.Obj?
    else if key == "id" then
      match v
      case Str(_) => true
      case Prim(t) => t != [] && (t[0] == '-' || '0' <= t[0] <= '9')
      case Arr(_, es) => es.Elem?
      case Obj(_, ms) => ms.Member?
    else true
  }

  predicate WellTyped(ms: Members) {
    ms.Member? ==> RightType(ms.key, ms.value) && WellTyped(ms.rest)
  }

  // A method once, params and id at most once, all of the right type; jsonrpc may be missing or repeated, and other keys are
  // of no account.
  predicate IsRequest(ms: Members) {
    && WellTyped(ms) && Occurrences(ms, "method") == 1 && Occurrences(ms, "params") <= 1 && Occurrences(ms, "id") <= 1
  }

  // The members up to the first one that is of the wrong type or repeats a key.
  function Sound(ms: Members, seen: set<string>): Members {
    if ms.NoMembers? || !RightType(ms.key, ms.value) || ms.key in seen then NoMembers
    else ms.(rest := Sound(ms.rest, if ms.key in {"method", "params", "id"} then seen + {ms.key} else seen))
  }

  // The method, the parameters and the id of a request, by their keys.
  function Meant(ms: Members): Act {
    if !IsRequest(ms) then BadRequest(ValueOf(Sound(ms, {}), "id"))
    else
      var name := match ValueOf(ms, "method") case Some(Str(body)) => body case _ => "";
      if name in METHODS then Run(Call(name, ValueOf(ms, "params"), ValueOf(ms, "id"))) else NotFound(ValueOf(ms, "id"))
  }

  // ---------------------------------------------------------------- one member after the other

  datatype Got = Got(ok: bool, name: Option<Value>, params: Option<Value>, id: Option<Value>)

  const NOTHING_GOT: Got := Got(true, None, None, None)

  function Gather(ms: Members, g: Got): Got
    decreases ms
  {
    if ms.NoMembers? then g
    else if !RightType(ms.key, ms.value) then g.(ok := false)
    else if ms.key == "method" then
      if g.name.Some? then g.(ok := false) else Gather(ms.rest, g.(name := Some(ms.value)))
    else if ms.key == "params" then
      if g.params.Some? then g.(ok := false) else Gather(ms.rest, g.(params := Some(ms.value)))
    else if ms.key == "id" then
      if g.id.Some? then g.(ok := false) else Gather(ms.rest, g.(id := Some(ms.value)))
    else Gather(ms.rest, g)
  }

  function One(o: Option<Value>): nat {
    if o.Some? then 1 else 0
  }

  function Or(a: Option<Value>, b: Option<Value>): Option<Value> {
    if a.Some? then a else b
  }

  lemma {:induction false} GatherMeans(ms: Members, g: Got)
    requires g.ok
    ensures var h := Gather(ms, g);
      && (h.ok <==> WellTyped(ms) && One(g.name) + Occurrences(ms, "method") <= 1
                    && One(g.params) + Occurrences(ms, "params") <= 1 && One(g.id) + Occurrences(ms, "id") <= 1)
      && (h.ok ==> h.name == Or(g.name, ValueOf(ms, "method")) && h.params == Or(g.params, ValueOf(ms, "params"))
                   && h.id == Or(g.id, ValueOf(ms, "id")))
    decreases ms
  {
    if ms.Member? && RightType(ms.key, ms.value) {
      hide RightType;
      if ms.key == "method" {
        GatherMeans(ms.rest, g.(name := Some(ms.value)));
      } else if ms.key == "params" {
        GatherMeans(ms.rest, g.(params := Some(ms.value)));
      } else if ms.key == "id" {
        GatherMeans(ms.rest, g.(id := Some(ms.value)));
      } else {
        GatherMeans(ms.rest, g);
      }
    }
  }

  ghost predicate Seen(g: Got, seen: set<string>) {
    && (g.name.Some? <==> "method" in seen) && (g.params.Some? <==> "params" in seen) && (g.id.Some? <==> "id" in seen)
    && seen <= {"method", "params", "id"}
  }

  lemma {:induction false} GatherSound(ms: Members, g: Got, seen: set<string>)
    requires g.ok && Seen(g, seen)
    ensures Gather(ms, g).id == Or(g.id, ValueOf(Sound(ms, seen), "id"))
    decreases ms
  {
    if ms.Member? && RightType(ms.key, ms.value) && ms.key !in seen {
      hide RightType;
      if ms.key == "method" {
        GatherSound(ms.rest, g.(name := Some(ms.value)), seen + {ms.key});
      } else if ms.key == "params" {
        GatherSound(ms.rest, g.(params := Some(ms.value)), seen + {ms.key});
      } else if ms.key == "id" {
        GatherSound(ms.rest, g.(id := Some(ms.value)), seen + {ms.key});
      } else {
        GatherSound(ms.rest, g, seen);
      }
    }
  }

  // ---------------------------------------------------------------- the slots hold what was gathered

  ghost predicate SlotHolds(items: seq<Value>, slots: Slots, k: nat, o: Option<Value>) {
    (Slot(slots, k).Some? <==> o.Some?) && ItemAt(items, Slot(slots, k)) == o
  }

  ghost predicate SlotsHold(items: seq<Value>, slots: Slots, g: Got) {
    && |slots.values| == 4 && |slots.counts| == 4 && SlotHolds(items, slots, METHOD, g.name)
    && SlotHolds(items, slots, PARAMS, g.params) && SlotHolds(items, slots, ID, g.id)
  }

  lemma TypesAgree(key: string, v: Value)
    ensures var k := FindKey(REQUEST_SCHEMA, key, 0); k < 4 ==> (Allows(REQUEST_SCHEMA[k].check, v) <==> RightType(key, v))
    ensures FindKey(REQUEST_SCHEMA, key, 0) == 4 ==> RightType(key, v)
  {
    SchemaKeys(key);
  }

  lemma {:induction false} SlotsGather(ms: Members, items: seq<Value>, j: nat, slots: Slots, g: Got)
    requires MembersAt(items, j, ms) && SlotsHold(items, slots, g) && g.ok
    ensures var e, h := ExtractMembers(REQUEST_SCHEMA, ms, j, slots), Gather(ms, g);
      (e.Accepted? <==> h.ok) && SlotsHold(items, e.slots, h)
    decreases ms
  {
    hide MembersAt, Allows, RightType, FindKey, TokenCount;
    if ms.Member? {
      FirstPair(ms, items, j);
      SchemaKeys(ms.key);
      TypesAgree(ms.key, ms.value);
      var k, n := FindKey(REQUEST_SCHEMA, ms.key, 0), TokenCount(ms.value);
      if k == 4 {
        SlotsGather(ms.rest, items, j + 1 + n, slots, g);
      } else if RightType(ms.key, ms.value) {
        GatherOne(ms, items, j, slots, g, k, n);
      }
    }
  }

  lemma {:induction false} GatherOne(ms: Members, items: seq<Value>, j: nat, slots: Slots, g: Got, k: nat, n: nat)
    requires ms.Member? && SlotsHold(items, slots, g) && g.ok && RightType(ms.key, ms.value)
    requires j + 1 < |items| && items[j + 1] == ms.value && n == TokenCount(ms.value) && MembersAt(items, j + 1 + n, ms.rest)
    requires k == FindKey(REQUEST_SCHEMA, ms.key, 0) < 4 && Allows(REQUEST_SCHEMA[k].check, ms.value)
    ensures var e, h := ExtractMembers(REQUEST_SCHEMA, ms, j, slots), Gather(ms, g);
      (e.Accepted? <==> h.ok) && SlotsHold(items, e.slots, h)
    decreases ms, 0
  {
    hide MembersAt, Allows, RightType, FindKey, TokenCount, ItemAt;
    SchemaKeys(ms.key);
    if k == 0 {
      SlotsGather(ms.rest, items, j + 1 + n, slots, g);
    } else if slots.values[k].None? {
      var filled := FillSlot(slots, REQUEST_SCHEMA[k], k, j + 1, n);
      FilledHolds(items, slots, g, k, j + 1, n);
      hide FillSlot, SlotsHold;
      SlotsGather(ms.rest, items, j + 1 + n, filled, With(g, k, ms.value));
    }
  }

  function With(g: Got, k: nat, v: Value): Got {
    if k == METHOD then g.(name := Some(v)) else if k == PARAMS then g.(params := Some(v)) else g.(id := Some(v))
  }

  lemma FilledHolds(items: seq<Value>, slots: Slots, g: Got, k: nat, value: nat, n: nat)
    requires SlotsHold(items, slots, g) && 1 <= k < 4 && value < |items|
    ensures SlotsHold(items, FillSlot(slots, REQUEST_SCHEMA[k], k, value, n), With(g, k, items[value]))
  {}

  // ---------------------------------------------------------------- every request object

  // For every object, whatever its members and their order: it comes to a call of its method with its parameters and its id
  // exactly when it is a request for a known method.
  lemma RequestRead(v: Value)
    requires v.Obj?
    ensures OwnAct(v) == Meant(v.members)
  {
    var ms, items, none := v.members, Items(v), NoSlots(REQUEST_SCHEMA);
    ObjectItems(v, NoElems);
    assert Items(v) + ItemsOfElems(NoElems) == items;
    SlotsGather(ms, items, 1, none, NOTHING_GOT);
    GatherMeans(ms, NOTHING_GOT);
    GatherSound(ms, NOTHING_GOT, {});
    var e := ExtractMembers(REQUEST_SCHEMA, ms, 1, none);
    CompleteIsMethod(e.slots);
    MethodIsString(ms);
    FirstOccurs(ms, "method");
    hide ExtractMembers, Gather, Items, ItemsOfElems, MembersAt, WellTyped, Occurrences, Sound, ValueOf, Complete;
  }

  // In front of anything that leaves it alone, dispatching the object decides on what its members mean.
  lemma DispatchedAsMeant(v: Value, es: Elems)
    requires v.Obj? && ReadAlone(v.members, es)
    ensures var items := Items(v) + ItemsOfElems(es);
      var r := ReadDict(REQUEST_SCHEMA, items);
      r.Read? && Decide(items, r.extraction) == Meant(v.members)
  {
    hide ReadDict, Decide, Extract, Meant, ReadAlone;
    ReadAloneExact(v, es);
    DecideAlone(v, ItemsOfElems(es));
    RequestRead(v);
  }

  lemma {:induction false} MethodIsString(ms: Members)
    ensures var o := ValueOf(ms, "method"); WellTyped(ms) && o.Some? ==> o.value.Str?
  {
    if ms.Member? { MethodIsString(ms.rest); }
  }

  lemma {:induction false} FirstOccurs(ms: Members, key: string)
    ensures ValueOf(ms, key).Some? <==> Occurrences(ms, key) > 0
  {
    if ms.Member? { FirstOccurs(ms.rest, key); }
  }

  // {"jsonrpc":"2.0","method":"power_on","params":["*"],"id":1} is called with its parameters and its id.
  lemma ParametersAreGiven(params: Value, id: Value)
    requires params.IsContainer() && RightType("id", id)
    ensures
      var ms := Member("", "jsonrpc", "", "", Str("2.0"), "", Member("", "method", "", "", Str("power_on"), "",
                Member("", "params", "", "", params, "", Member("", "id", "", "", id, "", NoMembers))));
      OwnAct(Obj("", ms)) == Run(Call("power_on", Some(params), Some(id)))
  {
    var m3 := Member("", "id", "", "", id, "", NoMembers);
    var m2 := Member("", "params", "", "", params, "", m3);
    var m1 := Member("", "method", "", "", Str("power_on"), "", m2);
    var ms := Member("", "jsonrpc", "", "", Str("2.0"), "", m1);
    RequestRead(Obj("", ms));
    hide OwnAct, WellTyped, ValueOf, Occurrences;
    assert RightType("params", params) && RightType("method", Str("power_on")) && RightType("jsonrpc", Str("2.0"));
    hide RightType;
    NoneTyped();
    TypedFirst(m3);
    TypedFirst(m2);
    TypedFirst(m1);
    TypedFirst(ms);
    LastOccurs(m3);
    SkipsOther(m2);
    SkipsOther(m1);
    SkipsOther(ms);
    assert METHODS[0] == "power_on";
  }

  lemma NoneTyped()
    ensures WellTyped(NoMembers)
  {}

  lemma TypedFirst(ms: Members)
    requires ms.Member? && RightType(ms.key, ms.value) && WellTyped(ms.rest)
    ensures WellTyped(ms)
  {}

  lemma LastOccurs(ms: Members)
    requires ms.Member? && ms.rest.NoMembers?
    ensures forall key :: ValueOf(ms, key) == (if key == ms.key then Some(ms.value) else None)
    ensures forall key :: Occurrences(ms, key) == if key == ms.key then 1 else 0
  {
    assert forall key :: ValueOf(ms.rest, key) == None && Occurrences(ms.rest, key) == 0;
  }

  lemma SkipsOther(ms: Members)
    requires ms.Member?
    ensures forall key | key != ms.key ::
      ValueOf(ms, key) == ValueOf(ms.rest, key) && Occurrences(ms, key) == Occurrences(ms.rest, key)
    ensures ValueOf(ms, ms.key) == Some(ms.value) && Occurrences(ms, ms.key) == Occurrences(ms.rest, ms.key) + 1
  {}

  // ---------------------------------------------------------------- replies

  function IdValue(id: Option<Value>): Value {
    if id.None? then Prim("null") else id.value
  }

  function ErrorMembers(code: string, message: string): Members {
    Member("", "code", "", " ", Prim(code), "", Member(" ", "message", "", " ", Str(message), "", NoMembers))
  }

  // {"jsonrpc": "2.0", "id": ..., "error": {"code": ..., "message": "..."}}
  function ErrorValue(id: Option<Value>, code: string, message: string): Value {
    Obj("", Member("", "jsonrpc", "", " ", Str("2.0"), "", Member(" ", "id", "", " ", IdValue(id), "",
        Member(" ", "error", "", " ", Obj("", ErrorMembers(code, message)), "", NoMembers))))
  }

  // A member without whitespace but one space after the colon.
  lemma MemberText(pre: string, key: string, v: Value, rest: Members)
    ensures MembersText(Member(pre, key, "", " ", v, "", rest))
         == pre + ("\"" + (key + ("\": " + (Text(v) + if rest.NoMembers? then "}" else "," + MembersText(rest)))))
  {
    hide Text;
    var ms := Member(pre, key, "", " ", v, "", rest);
    var tail := Text(v) + MembersTail(ms);
    assert "" + MembersTail(ms) == MembersTail(ms);
    assert "\"" + ("" + (":" + (" " + tail))) == "\": " + tail;
  }

  // The object with the code and the message.
  lemma ErrorObjectText(code: string, message: string)
    ensures Text(Obj("", ErrorMembers(code, message))) == "{\"code\": " + (code + (", \"message\": \"" + (message + "\"}")))
  {
    var m := Member(" ", "message", "", " ", Str(message), "", NoMembers);
    MemberText(" ", "message", Str(message), NoMembers);
    MemberText("", "code", Prim(code), m);
    MessageText(message);
    hide MembersText;
    var x := code + ("," + MembersText(m));
    assert MembersText(ErrorMembers(code, message)) == "" + ("\"" + ("code" + ("\": " + x)));
    assert "{" + ("" + ("" + ("\"" + ("code" + ("\": " + x))))) == "{\"code\": " + x;
  }

  lemma MessageText(message: string)
    ensures Text(Str(message)) == "\"" + (message + "\"")
    ensures "," + (" " + ("\"" + ("message" + ("\": " + (("\"" + (message + "\"")) + "}")))))
         == ", \"message\": \"" + (message + "\"}")
  {
    assert ("\"" + (message + "\"")) + "}" == "\"" + (message + "\"}");
    var x := message + "\"}";
    assert "," + (" " + ("\"" + ("message" + ("\": " + ("\"" + x))))) == ", \"message\": \"" + x;
  }

  // An error reply is a JSON object with that id, or null, and that code and message.
  lemma ErrorIsJson(id: Option<Value>, code: string, message: string)
    requires (id.Some? ==> Legal(id.value)) && LegalPrim(code) && LegalBody(message)
    ensures Legal(ErrorValue(id, code, message)) && Text(ErrorValue(id, code, message)) == ErrorText(IdText(id), code, message)
  {
    hide MembersText, Legal, LegalPrim, LegalBody, ErrorText, ErrorMembers, Quoted;
    ErrorIsLegal(id, code, message);
    var error := Obj("", ErrorMembers(code, message));
    var m3 := Member(" ", "error", "", " ", error, "", NoMembers);
    var m2 := Member(" ", "id", "", " ", IdValue(id), "", m3);
    var m1 := Member("", "jsonrpc", "", " ", Str("2.0"), "", m2);
    ErrorObjectText(code, message);
    MemberText(" ", "error", error, NoMembers);
    MemberText(" ", "id", IdValue(id), m3);
    MemberText("", "jsonrpc", Str("2.0"), m2);
    SmallTexts(id, m1);
    hide Text;
    ErrorPieces(IdText(id), Text(error), MembersText(m3), MembersText(m2));
    ErrorTextPieces(IdText(id), code, message);
  }

  lemma SmallTexts(id: Option<Value>, ms: Members)
    ensures Text(IdValue(id)) == IdText(id) && Text(Str("2.0")) == "\"2.0\""
    ensures Text(Obj("", ms)) == "{" + ("" + MembersText(ms))
  {
    hide MembersText;
  }

  lemma ErrorPieces(id: string, error: string, t3: string, t2: string)
    requires t3 == " " + ("\"" + ("error" + ("\": " + (error + "}"))))
    requires t2 == " " + ("\"" + ("id" + ("\": " + (id + ("," + t3)))))
    ensures "{" + ("" + ("" + ("\"" + ("jsonrpc" + ("\": " + ("\"2.0\"" + ("," + t2)))))))
         == "{\"jsonrpc\": \"2.0\", \"id\": " + (id + (", \"error\": " + (error + "}")))
  {
    ErrorKey(error + "}");
    IdKey(id + ("," + t3));
    VersionKey(id + ("," + t3));
  }

  lemma ErrorKey(x: string)
    ensures "," + (" " + ("\"" + ("error" + ("\": " + x)))) == ", \"error\": " + x
  {}

  lemma IdKey(x: string)
    ensures "," + (" " + ("\"" + ("id" + ("\": " + x)))) == ", \"id\": " + x
  {}

  lemma VersionKey(x: string)
    ensures "{" + ("" + ("" + ("\"" + ("jsonrpc" + ("\": " + ("\"2.0\"" + (", \"id\": " + x)))))))
         == "{\"jsonrpc\": \"2.0\", \"id\": " + x
  {}

  lemma ErrorTextPieces(id: string, code: string, message: string)
    ensures ErrorText(id, code, message)
         == "{\"jsonrpc\": \"2.0\", \"id\": "
            + (id + (", \"error\": " + (("{\"code\": " + (code + (", \"message\": \"" + (message + "\"}")))) + "}")))
  {
    var a, b, c := "{\"jsonrpc\": \"2.0\", \"id\": ", ", \"error\": {\"code\": ", ", \"message\": \"";
    assert ErrorText(id, code, message) == a + id + b + code + c + message + "\"}}";
    var x := code + (c + (message + "\"}"));
    assert x + "}" == code + (c + (message + "\"}}"));
    assert ", \"error\": " + (("{\"code\": " + x) + "}") == b + (x + "}");
  }

  predicate Unquoted(s: string) {
    forall c | c in s :: c !in {'"', '\\', '\0'}
  }

  lemma {:induction false} PlainBody(s: string)
    requires Unquoted(s)
    ensures LegalBody(s)
    decreases |s|
  {
    if s != [] {
      assert s[0] in s && forall c | c in s[1..] :: c in s;
      PlainBody(s[1..]);
    }
  }

  lemma LegalMember(ms: Members)
    requires ms.Member? && ms.pre in {"", " "} && ms.mid == "" && ms.lead == " " && ms.post == ""
    requires Unquoted(ms.key) && Legal(ms.value) && LegalMembers(ms.rest)
    ensures LegalMembers(ms)
  {
    PlainBody(ms.key);
  }

  lemma ErrorIsLegal(id: Option<Value>, code: string, message: string)
    requires (id.Some? ==> Legal(id.value)) && LegalPrim(code) && LegalBody(message)
    ensures Legal(ErrorValue(id, code, message))
  {
    hide LegalMembers, LegalBody, LegalPrim, Unquoted;
    KeysUnquoted();
    var m := Member(" ", "message", "", " ", Str(message), "", NoMembers);
    NoMembersLegal();
    LegalMember(m);
    LegalMember(ErrorMembers(code, message));
    var error := Obj("", ErrorMembers(code, message));
    var m3 := Member(" ", "error", "", " ", error, "", NoMembers);
    LegalMember(m3);
    var m2 := Member(" ", "id", "", " ", IdValue(id), "", m3);
    NullIsLegal();
    LegalMember(m2);
    PlainBody("2.0");
    LegalMember(Member("", "jsonrpc", "", " ", Str("2.0"), "", m2));
  }

  lemma KeysUnquoted()
    ensures Unquoted("jsonrpc") && Unquoted("2.0") && Unquoted("id")
    ensures Unquoted("error") && Unquoted("code") && Unquoted("message")
  {}

  lemma NoMembersLegal()
    ensures LegalMembers(NoMembers)
  {}

  lemma NullIsLegal()
    ensures LegalPrim("null")
  {}

  function ElemsOf(vs: seq<Value>): Elems {
    if vs == [] then NoElems else Elem("", vs[0], "", ElemsOf(vs[1..]))
  }

  ghost predicate AreTexts(rs: seq<string>, vs: seq<Value>) {
    |rs| == |vs| && forall i | 0 <= i < |vs| :: Legal(vs[i]) && rs[i] == Text(vs[i])
  }

  lemma {:induction false} JoinedIsJson(rs: seq<string>, vs: seq<Value>)
    requires AreTexts(rs, vs) && rs != []
    ensures LegalElems(ElemsOf(vs)) && Join(rs) + "]" == ElemsText(ElemsOf(vs))
    decreases |rs|
  {
    hide Text, Legal;
    var es := ElemsOf(vs);
    if |rs| == 1 {
      assert ElemsOf(vs[1..]) == NoElems;
      assert ElemsText(es) == "" + (rs[0] + ("" + "]"));
    } else {
      JoinedIsJson(rs[1..], vs[1..]);
      assert ElemsText(es) == "" + (rs[0] + ("" + ("," + ElemsText(es.rest))));
      assert rs[0] + "," + Join(rs[1..]) + "]" == rs[0] + ("," + (Join(rs[1..]) + "]"));
    }
  }

  // The output for a batch is nothing, or a JSON array with the replies for its elements.
  lemma BatchIsJson(rs: seq<string>, vs: seq<Value>)
    requires AreTexts(rs, vs)
    ensures if rs == [] then BatchText(rs) == "" else Legal(Arr("", ElemsOf(vs))) && BatchText(rs) == Text(Arr("", ElemsOf(vs)))
  {
    hide Join, ElemsText;
    if rs != [] {
      JoinedIsJson(rs, vs);
      assert "[" + Join(rs) + "]" == "[" + ("" + (Join(rs) + "]"));
    }
  }

  lemma {:induction false} ValuesAreLegal(ms: Members, key: string, seen: set<string>)
    requires LegalMembers(ms)
    ensures ValueOf(ms, key).Some? ==> Legal(ValueOf(ms, key).value)
    ensures ValueOf(Sound(ms, seen), key).Some? ==> Legal(ValueOf(Sound(ms, seen), key).value)
    decreases ms
  {
    hide RightType, LegalBody, Space;
    if ms.Member? {
      ValuesAreLegal(ms.rest, key, if ms.key in {"method", "params", "id"} then seen + {ms.key} else seen);
    }
  }

  // The reply to a legal object that calls nothing is a JSON object: its id or null, and the code of an invalid request or of
  // a method that was not found.
  lemma RefusalIsJson(v: Value, n: nat, respond: Handler)
    requires v.Obj? && Legal(v) && !OwnAct(v).Run?
    ensures var act := OwnAct(v);
      var reply := if act.BadRequest? then ErrorValue(act.id, "-32600", "Invalid request")
                   else ErrorValue(act.id, "-32601", "Method not found");
      Legal(reply) && Reply(act, n, respond) == Some(Text(reply))
  {
    RequestRead(v);
    ValuesAreLegal(v.members, "id", {});
    CodesAreLegal();
    var act := OwnAct(v);
    hide OwnAct, Legal, LegalPrim, LegalBody, Text, ErrorText, ErrorValue, IsRequest, Sound, ValueOf;
    if act.BadRequest? {
      ErrorIsJson(act.id, "-32600", "Invalid request");
    } else {
      ErrorIsJson(act.id, "-32601", "Method not found");
    }
  }

  lemma CodesAreLegal()
    ensures LegalPrim("-32600") && LegalPrim("-32601") && LegalBody("Invalid request") && LegalBody("Method not found")
  {
    hide LegalBody, Unquoted;
    MessagesUnquoted();
    PlainBody("Invalid request");
    PlainBody("Method not found");
  }

  lemma MessagesUnquoted()
    ensures Unquoted("Invalid request") && Unquoted("Method not found")
  {}
}
