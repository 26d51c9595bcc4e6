// From the bytes on the command pipe to the methods that are called (core/pipe.c, core/jsonrpc.c).
module FrontEnd {
  import opened Common
  import opened Jsmn
  import opened Json
  import opened JsmnGrammar
  import opened JsmnTheorems
  import opened Pipe
  import opened PipeFraming
  import opened JsonRpc
  import opened JsonRpcDispatch
  import opened JsonBatch

  // ---------------------------------------------------------------- the tokens of a buffer

  // The texts of a buffer, as the elements of a batch.
  function Texts(s: Stream): Elems {
    if s.End? then NoElems else Elem("", s.root, "", Texts(s.rest))
  }

  function ItemsOf(s: Stream): seq<Value> {
    ItemsOfElems(Texts(s))
  }

  lemma {:induction false} StreamParsed(tokens: seq<Token>, i: nat, json: string, s: Stream, p: nat)
    requires LegalStream(s) && TokensAt(tokens, i, FlattenStream(s, p)) && At(json, p, StreamText(s))
    ensures ItemsHere(tokens, i, json, ItemsOf(s)) && |ItemsOf(s)| == |FlattenStream(s, p)|
    decreases s
  {
    hide Text, Flatten, Legal, Items, TokensAt, At, TokenCount, ItemHere, ItemsHere, ValueHere;
    TokensFit(tokens, i, FlattenStream(s, p));
    if s.End? {
      ItemsNone(tokens, i, json);
    } else {
      var v, q := s.root, p + |s.ws|;
      var f := Flatten(v, q);
      CountIsLength(v, q);
      TokensSplit(tokens, i, f, FlattenStream(s.rest, q + |Text(v)|));
      AtSplit(json, p, s.ws, Text(v) + StreamText(s.rest));
      AtSplit(json, q, Text(v), StreamText(s.rest));
      ValueIsHere(tokens, i, json, v, q);
      ItemsOfValue(tokens, i, json, v, q);
      StreamParsed(tokens, i + |f|, json, s.rest, q + |Text(v)|);
      ItemsJoin(tokens, i, json, Items(v), ItemsOf(s.rest));
    }
  }

  lemma ValueIsHere(tokens: seq<Token>, i: nat, json: string, v: Value, q: nat)
    requires TokensAt(tokens, i, Flatten(v, q)) && At(json, q, Text(v)) && Legal(v)
    ensures ValueHere(tokens, i, json, v, q)
  {}

  lemma BufferParsed(s: Stream)
    requires LegalStream(s)
    ensures Parsed(FlattenStream(s, 0), StreamText(s), ItemsOf(s))
  {
    hide ItemHere, FlattenStream, StreamText, ItemsOfElems;
    var f := FlattenStream(s, 0);
    assert f[0..|f|] == f;
    assert StreamText(s)[0..|StreamText(s)|] == StreamText(s);
    StreamParsed(f, 0, StreamText(s), s, 0);
  }

  // ---------------------------------------------------------------- what a run does

  function AnswerFor(s: Stream): Answer {
    AnswerTo(ItemsOf(s))
  }

  predicate RunsOver(a: Answer) {
    a.Outside? || (a.Batch? && a.overrun)
  }

  // The methods called for some dispatches, in order.
  function CallsOver(frames: seq<Stream>): seq<Call> {
    if frames == [] then [] else CallsOver(frames[..|frames| - 1]) + CallsMade(AnswerFor(frames[|frames| - 1]))
  }

  // The replies written for them when n methods have been called before.
  function OutputOver(frames: seq<Stream>, n: nat, respond: Handler): string {
    if frames == [] then ""
    else
      var before := frames[..|frames| - 1];
      OutputOver(before, n, respond) + Output(AnswerFor(frames[|frames| - 1]), n + |CallsOver(before)|, respond)
  }

  lemma OneFrameMore(frames: seq<Stream>, s: Stream, n: nat, respond: Handler)
    ensures CallsOver(frames + [s]) == CallsOver(frames) + CallsMade(AnswerFor(s))
    ensures OutputOver(frames + [s], n, respond)
         == OutputOver(frames, n, respond) + Output(AnswerFor(s), n + |CallsOver(frames)|, respond)
  {
    hide AnswerFor, CallsMade, Output;
    assert (frames + [s])[..|frames|] == frames;
  }

  lemma {:induction false} CallsOverJoin(a: seq<Stream>, b: seq<Stream>)
    ensures CallsOver(a + b) == CallsOver(a) + CallsOver(b)
    decreases |b|
  {
    hide AnswerFor, CallsMade;
    if b == [] {
      assert a + b == a;
    } else {
      var k := |b| - 1;
      CallsOverJoin(a, b[..k]);
      assert (a + b)[..|a + b| - 1] == a + b[..k];
      assert (a + b)[|a + b| - 1] == b[k];
    }
  }

  ghost predicate Frameable(frames: seq<Stream>) {
    forall i | 0 <= i < |frames| :: LegalStream(frames[i]) && frames[i].Then?
  }

  // One dispatch.
  method AnswerOne(client: Client, d: Dispatch, respond: Handler, ghost s: Stream) returns (overrun: bool)
    requires d == DispatchOf(s) && LegalStream(s) && s.Then? && client.Valid()
    modifies client
    ensures client.Valid() && client.io == old(client.io) && (overrun <==> RunsOver(AnswerFor(s)))
    ensures client.calls == old(client.calls) + CallsMade(AnswerFor(s))
    ensures client.output == old(client.output) + if client.io then Output(AnswerFor(s), |old(client.calls)|, respond) else ""
  {
    hide AnswerTo, ItemsOf, FlattenStream, StreamText, CallsMade, Output, LegalStream;
    BufferParsed(s);
    RootIsContainer(s);
    overrun := client.DispatchRequest(d.json, d.toks, respond, ItemsOf(s));
  }

  // The dispatches of a run, one after the other, up to one that reads past its tokens: they call these methods and
  // write these replies. A client without a connection gets nothing.
  method AnswerAll(client: Client, log: seq<Dispatch>, respond: Handler, ghost frames: seq<Stream>) returns (overrun: bool)
    requires log == Logged(frames) && Frameable(frames) && client.Valid()
    modifies client
    ensures client.Valid() && client.io == old(client.io)
    ensures !client.io ==> client.output == old(client.output)
    ensures overrun <==> exists i | 0 <= i < |frames| :: RunsOver(AnswerFor(frames[i]))
    ensures !overrun ==>
      && client.calls == old(client.calls) + CallsOver(frames)
      && client.output == old(client.output) + if client.io then OutputOver(frames, |old(client.calls)|, respond) else ""
  {
    hide AnswerFor, DispatchOf, CallsMade, Output, CallsOver, OutputOver, LegalStream, RunsOver;
    overrun := false;
    var i := 0;
    NoFrames(|old(client.calls)|, respond);
    assert frames[..0] == [];
    while i < |log|
      invariant 0 <= i <= |log| && client.Valid() && client.io == old(client.io)
      invariant forall j | 0 <= j < i :: !RunsOver(AnswerFor(frames[j]))
      invariant client.calls == old(client.calls) + CallsOver(frames[..i])
      invariant client.output
             == old(client.output) + if client.io then OutputOver(frames[..i], |old(client.calls)|, respond) else ""
    {
      ghost var s := frames[i];
      overrun := AnswerOne(client, log[i], respond, s);
      if overrun {
        return;
      }
      OneFrameMore(frames[..i], s, |old(client.calls)|, respond);
      assert frames[..i + 1] == frames[..i] + [s];
      i := i + 1;
    }
    assert frames[..i] == frames;
  }

  lemma NoFrames(n: nat, respond: Handler)
    ensures CallsOver([]) == [] && OutputOver([], n, respond) == ""
  {}

  lemma RootIsContainer(s: Stream)
    requires LegalStream(s) && s.Then?
    ensures ItemsOf(s) != [] && ItemsOf(s)[0] == s.root && s.root.IsContainer()
  {
    hide Items;
  }
}
