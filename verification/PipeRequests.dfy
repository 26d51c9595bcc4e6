/** From the bytes on the command pipe to the calls, told by the members of the requests alone. */
module PipeRequests {

  import opened Common
  import opened Json
  import opened JsmnGrammar
  import opened JsonRpc
  import opened JsonRpcDispatch
  import opened JsonBatch
  import opened JsonRequest
  import opened Pipe
  import opened PipeFraming
  import opened FrontEnd
  import opened PipeCalls

  // The call of one element: none unless it is an object that is a request of a known method.
  function AskedByOne(v: Value): seq<Call> {
    if v.Obj? && Meant(v.members).Run? then [Meant(v.members).call] else []
  }

  function AskedByAll(es: Elems): seq<Call> {
    if es.NoElems? then [] else AskedByOne(es.value) + AskedByAll(es.rest)
  }

  // The calls of a text: a request, or a batch of them.
  function Asked(v: Value): seq<Call> {
    if v.Arr? then AskedByAll(v.elems) else AskedByOne(v)
  }

  function AllAsked(vs: seq<Value>): seq<Call> {
    if vs == [] then [] else Asked(vs[0]) + AllAsked(vs[1..])
  }

  lemma OwnActAsked(v: Value)
    ensures CallOf(OwnAct(v)) == AskedByOne(v)
  {
    hide Meant;
    if v.Obj? {
      RequestRead(v);
    }
  }

  lemma {:induction false} OwnActsAsked(es: Elems)
    ensures Calls(OwnActs(es)) == AskedByAll(es)
  {
    hide OwnAct, AskedByOne;
    if es.Elem? {
      OwnActAsked(es.value);
      OwnActsAsked(es.rest);
      CallsJoin([OwnAct(es.value)], OwnActs(es.rest));
    }
  }

  lemma OwnCallsAsked(v: Value)
    requires v.IsContainer() && (IsBatch(v) ==> Fair(v.elems))
    ensures OwnCalls(v) == Asked(v)
  {
    hide Fair, OwnActs, OwnAct, Items, AskedByOne;
    if IsBatch(v) {
      OneActPerElement(v);
      OwnActsAsked(v.elems);
    } else if v.Obj? {
      ObjectAnswered(v, NoElems);
      assert Items(v) + ItemsOfElems(NoElems) == Items(v);
      OwnActAsked(v);
    } else {
      NothingAsked(v);
    }
  }

  lemma NothingAsked(v: Value)
    requires v.Arr? && v.elems.NoElems?
    ensures OwnCalls(v) == Asked(v) == []
  {}

  lemma {:induction false} StreamAsked(s: Stream)
    requires LegalStream(s) && FairStream(s)
    ensures AllCalls(Roots(s)) == AllAsked(Roots(s))
    decreases s
  {
    hide OwnCalls, Asked, Fair;
    if s.Then? {
      IsContainerRoot(s);
      if IsBatch(s.root) {
        assert Texts(Take(s.rest, 0)) == NoElems;
        assert Fair(Append(s.root.elems, Texts(Take(s.rest, 0))));
        NothingBehind(s.root.elems);
      }
      OwnCallsAsked(s.root);
      StreamAsked(s.rest);
    }
  }

  // However a stream is read, exactly the calls that its texts ask for are made, in order, when its batches are fair
  // and none is followed by a text that calls a method.
  lemma RunCallsAsked(s: Stream, chunks: seq<string>)
    requires LegalStream(s) && FairStream(s) && NoCallBehindBatch(s) && IsSplit(s, chunks)
    ensures RunCalls(s, chunks) == AllAsked(Roots(s))
  {
    hide LegalStream, FairStream, NoCallBehindBatch, Bounded, CallsOver, AllCalls, AllAsked, Steady;
    SteadyExactly(s);
    assert StreamText(s)[0..] == StreamText(s);
    SteadyRun(s, 0, chunks);
    StreamAsked(s);
  }
}
