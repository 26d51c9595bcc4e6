/** What is written for requests and batches, told by their members alone. */
module JsonReplies {

  import opened Common
  import opened Json
  import opened JsonRpc
  import opened JsonRpcDispatch
  import opened JsonBatch
  import opened JsonRequest

  // What a value of a batch, or a text by itself, asks for.
  function Want(v: Value): Act {
    if v.Obj? then Meant(v.members) else BadRequest(None)
  }

  lemma OwnActWanted(v: Value)
    ensures OwnAct(v) == Want(v)
  {
    hide Meant;
    if v.Obj? {
      RequestRead(v);
    }
  }

  // The answer of the handler to a call with an id, with the texts of its parameters and of its id, or an error object
  // with the id, or null. Nothing for a call without an id.
  function AnswersTo(a: Act, n: nat, respond: Handler): seq<string> {
    match a
    case BadRequest(id) => [Text(ErrorValue(id, "-32600", "Invalid request"))]
    case NotFound(id) => [Text(ErrorValue(id, "-32601", "Method not found"))]
    case Run(Call(name, params, id)) =>
      if id.None? then []
      else [respond(n, name, if params.Some? then Some(Text(params.value)) else None, Text(id.value))]
  }

  // In the order of the elements, each call being counted before the next.
  function AnswersToAll(es: Elems, n: nat, respond: Handler): seq<string>
    decreases es
  {
    if es.NoElems? then []
    else
      AnswersTo(Want(es.value), n, respond) + AnswersToAll(es.rest, if Want(es.value).Run? then n + 1 else n, respond)
  }

  lemma WantedIdIsLegal(v: Value)
    requires Legal(v) && !Want(v).Run?
    ensures Want(v).id.Some? ==> Legal(Want(v).id.value)
  {
    hide IsRequest, Sound, ValueOf;
    if v.Obj? {
      ValuesAreLegal(v.members, "id", {});
    }
  }

  lemma ReplyWanted(v: Value, n: nat, respond: Handler)
    requires Legal(v)
    ensures ReplyOf(Want(v), n, respond) == AnswersTo(Want(v), n, respond)
  {
    hide Legal, LegalPrim, LegalBody, Text, ErrorText, ErrorValue, Want;
    CodesAreLegal();
    if !Want(v).Run? {
      WantedIdIsLegal(v);
      if Want(v).BadRequest? {
        ErrorIsJson(Want(v).id, "-32600", "Invalid request");
      } else {
        ErrorIsJson(Want(v).id, "-32601", "Method not found");
      }
    }
  }

  lemma {:induction false} RepliesFront(a: Act, acts: seq<Act>, n: nat, respond: Handler)
    ensures Replies([a] + acts, n, respond) == ReplyOf(a, n, respond) + Replies(acts, n + |CallOf(a)|, respond)
    decreases |acts|
  {
    hide ReplyOf, CallOf, Calls;
    if acts == [] {
      assert [a] + acts == [] + [a];
      OneMore([], a, n, respond);
      NoCallsYet();
    } else {
      var k := |acts| - 1;
      var front, last := acts[..k], acts[k];
      RepliesFront(a, front, n, respond);
      assert [a] + acts == ([a] + front) + [last] && acts == front + [last];
      OneMore([a] + front, last, n, respond);
      OneMore(front, last, n + |CallOf(a)|, respond);
      CallsFront(a, front);
    }
  }

  lemma NoCallsYet()
    ensures Calls([]) == []
  {}

  lemma CallsFront(a: Act, acts: seq<Act>)
    ensures Calls([a] + acts) == CallOf(a) + Calls(acts)
  {
    hide CallOf;
    CallsJoin([a], acts);
    OneCall(a);
  }

  lemma OneCall(a: Act)
    ensures Calls([a]) == CallOf(a)
  {
    hide CallOf;
    assert [a][..0] == [];
    assert Calls([a]) == Calls([]) + CallOf(a);
  }

  lemma {:induction false} RepliesWanted(es: Elems, n: nat, respond: Handler)
    requires LegalElems(es)
    ensures Replies(OwnActs(es), n, respond) == AnswersToAll(es, n, respond)
    decreases es
  {
    hide Legal, Want, ReplyOf, AnswersTo, OwnAct, Replies;
    if es.Elem? {
      OwnActWanted(es.value);
      ReplyWanted(es.value, n, respond);
      RepliesFront(Want(es.value), OwnActs(es.rest), n, respond);
      RepliesWanted(es.rest, n + |CallOf(Want(es.value))|, respond);
    } else {
      NoReplies(n, respond);
    }
  }

  lemma NoReplies(n: nat, respond: Handler)
    ensures Replies([], n, respond) == []
  {}

  // For every fair batch: the answers to its elements, in order, between brackets and with commas, or nothing.
  lemma BatchOutput(v: Value, n: nat, respond: Handler)
    requires Legal(v) && v.Arr? && v.elems.Elem? && Fair(v.elems)
    ensures Output(AnswerTo(Items(v)), n, respond) == BatchText(AnswersToAll(v.elems, n, respond))
  {
    assert LegalElems(v.elems);
    hide Fair, OwnActs, Items, AnswerTo, Legal, LegalElems, BatchText, Replies, AnswersToAll;
    OneActPerElement(v);
    RepliesWanted(v.elems, n, respond);
  }

  // For every object: its one answer, or nothing.
  lemma ObjectOutput(v: Value, n: nat, respond: Handler)
    requires Legal(v) && v.Obj?
    ensures var rs := AnswersTo(Want(v), n, respond);
      Output(AnswerTo(Items(v)), n, respond) == if rs == [] then "" else rs[0]
  {
    hide Legal, OwnAct, Items, AnswerTo, Want, AnswersTo;
    ObjectAnswered(v, NoElems);
    assert Items(v) + ItemsOfElems(NoElems) == Items(v);
    OwnActWanted(v);
    ReplyWanted(v, n, respond);
  }

  // ---------------------------------------------------------------- the output is JSON

  // What the handlers write is JSON.
  ghost predicate SpeaksJson(respond: Handler) {
    forall n, name, params, id :: IsJson(respond(n, name, params, id))
  }

  ghost predicate IsJson(s: string) {
    exists v :: Legal(v) && s == Text(v)
  }

  lemma AnswersAreJson(v: Value, n: nat, respond: Handler)
    requires Legal(v) && SpeaksJson(respond)
    ensures forall s <- AnswersTo(Want(v), n, respond) :: IsJson(s)
  {
    hide Legal, LegalPrim, LegalBody, Text, ErrorValue, Want, IsJson;
    CodesAreLegal();
    if !Want(v).Run? {
      WantedIdIsLegal(v);
      ErrorIsLegalJson(Want(v).id, "-32600", "Invalid request");
      ErrorIsLegalJson(Want(v).id, "-32601", "Method not found");
    }
  }

  lemma ErrorIsLegalJson(id: Option<Value>, code: string, message: string)
    requires (id.Some? ==> Legal(id.value)) && LegalPrim(code) && LegalBody(message)
    ensures IsJson(Text(ErrorValue(id, code, message)))
  {
    hide Legal, LegalPrim, LegalBody, Text, ErrorValue, ErrorText;
    ErrorIsJson(id, code, message);
  }

  lemma {:induction false} AllAnswersAreJson(es: Elems, n: nat, respond: Handler)
    requires LegalElems(es) && SpeaksJson(respond)
    ensures forall s <- AnswersToAll(es, n, respond) :: IsJson(s)
    decreases es
  {
    hide Legal, Want, AnswersTo, SpeaksJson, IsJson;
    if es.Elem? {
      AnswersAreJson(es.value, n, respond);
      AllAnswersAreJson(es.rest, if Want(es.value).Run? then n + 1 else n, respond);
    }
  }

  lemma {:induction false} TextsOfValues(rs: seq<string>) returns (vs: seq<Value>)
    requires forall s <- rs :: IsJson(s)
    ensures AreTexts(rs, vs)
    decreases |rs|
  {
    hide Legal, Text;
    vs := [];
    if rs != [] {
      assert IsJson(rs[0]);
      var v :| Legal(v) && rs[0] == Text(v);
      var rest := TextsOfValues(rs[1..]);
      vs := [v] + rest;
    }
  }

  // If the handlers write JSON, so does every fair batch, or nothing when it has notifications only.
  lemma BatchOutputIsJson(v: Value, n: nat, respond: Handler)
    requires Legal(v) && v.Arr? && v.elems.Elem? && Fair(v.elems) && SpeaksJson(respond)
    ensures var out := Output(AnswerTo(Items(v)), n, respond);
      if AnswersToAll(v.elems, n, respond) == [] then out == "" else IsJson(out)
  {
    assert LegalElems(v.elems);
    hide Fair, Items, AnswerTo, Legal, LegalElems, BatchText, AnswersToAll, SpeaksJson, Text, AreTexts, Output;
    BatchOutput(v, n, respond);
    AllAnswersAreJson(v.elems, n, respond);
    var rs := AnswersToAll(v.elems, n, respond);
    var vs := TextsOfValues(rs);
    BatchIsJson(rs, vs);
  }
}
