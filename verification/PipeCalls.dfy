// Whether the methods called depend on how the stream was cut into reads (core/pipe.c, core/jsonrpc.c): a batch is
// dispatched with all the texts of the buffer in view, and its loop takes those behind it for elements.
module PipeCalls {
  import opened Common
  import opened Jsmn
  import opened Json
  import opened JsmnTheorems
  import opened Pipe
  import opened PipeFraming
  import opened JsonRpc
  import opened JsonRpcDispatch
  import opened JsonBatch
  import opened FrontEnd

  // ---------------------------------------------------------------- a text and those behind it

  // The first n texts of a stream.
  function Take(s: Stream, n: nat): Stream {
    if s.End? || n == 0 then End("") else Then(s.ws, s.root, Take(s.rest, n - 1))
  }

  // The first text and n texts behind it.
  function Buffered(s: Stream, n: nat): Stream
    requires s.Then?
  {
    Then(s.ws, s.root, Take(s.rest, n))
  }

  // The methods a text calls when it is alone in the buffer.
  function OwnCalls(v: Value): seq<Call> {
    CallsMade(AnswerTo(Items(v)))
  }

  function AllCalls(vs: seq<Value>): seq<Call> {
    if vs == [] then [] else OwnCalls(vs[0]) + AllCalls(vs[1..])
  }

  // Every text calls the same methods whatever stands behind it.
  ghost predicate Steady(s: Stream) {
    s.Then? ==> (forall n: nat :: CallsMade(AnswerFor(Buffered(s, n))) == OwnCalls(s.root)) && Steady(s.rest)
  }

  // No text is read past the tokens of the buffer, whatever stands behind it.
  ghost predicate Sound(s: Stream) {
    s.Then? ==> (forall n: nat :: !RunsOver(AnswerFor(Buffered(s, n)))) && Sound(s.rest)
  }

  lemma {:induction false} CutTexts(s: Stream, k: nat)
    requires k <= |StreamText(s)| && !Inside(s, k)
    ensures Texts(Cut(s, k)) == Texts(Take(s, |RootsIn(s, k)|))
    decreases s
  {
    if s.Then? && k > |s.ws| {
      CutTexts(s.rest, k - |s.ws| - |Text(s.root)|);
    }
  }

  // What is dispatched first from a prefix of a stream.
  lemma CutAnswer(s: Stream, k: nat)
    requires k <= |StreamText(s)| && !Inside(s, k) && s.Then? && k > |s.ws|
    ensures var n := |s.ws| + |Text(s.root)|;
      && k >= n && k - n <= |StreamText(s.rest)| && !Inside(s.rest, k - n)
      && Cut(s, k) == Then(s.ws, s.root, Cut(s.rest, k - n)) && RootsIn(s, k) == [s.root] + RootsIn(s.rest, k - n)
      && AnswerFor(Cut(s, k)) == AnswerFor(Buffered(s, |RootsIn(s.rest, k - n)|))
  {
    CutTexts(s.rest, k - |s.ws| - |Text(s.root)|);
    hide AnswerTo;
  }

  lemma {:induction false} AllCallsJoin(a: seq<Value>, b: seq<Value>)
    ensures AllCalls(a + b) == AllCalls(a) + AllCalls(b)
    decreases |a|
  {
    hide OwnCalls;
    if a == [] {
      assert a + b == b;
    } else {
      AllCallsJoin(a[1..], b);
      assert (a + b)[1..] == a[1..] + b;
    }
  }

  // ---------------------------------------------------------------- steady streams

  lemma {:induction false} SteadyFrames(s: Stream, k: nat)
    requires k <= |StreamText(s)| && !Inside(s, k) && Steady(s)
    ensures CallsOver(Frames(Cut(s, k))) == AllCalls(RootsIn(s, k))
    decreases s
  {
    hide OwnCalls, AnswerFor, CallsMade;
    if s.Then? && k > |s.ws| {
      var n := |s.ws| + |Text(s.root)|;
      CutAnswer(s, k);
      SteadyFrames(s.rest, k - n);
      FirstFrame(Cut(s, k));
      assert ([s.root] + RootsIn(s.rest, k - n))[1..] == RootsIn(s.rest, k - n);
    }
  }

  lemma FirstFrame(s: Stream)
    requires s.Then?
    ensures CallsOver(Frames(s)) == CallsMade(AnswerFor(s)) + CallsOver(Frames(s.rest))
  {
    hide AnswerFor, CallsMade, CallsOver;
    CallsOverJoin([s], Frames(s.rest));
    OneFrame(s);
  }

  lemma OneFrame(s: Stream)
    ensures CallsOver([s]) == CallsMade(AnswerFor(s))
  {
    hide AnswerFor, CallsMade;
    assert [s][..0] == [];
    assert CallsOver([s]) == CallsOver([]) + CallsMade(AnswerFor(s));
  }

  lemma {:induction false} DropSteady(s: Stream, k: nat)
    ensures Steady(s) ==> Steady(Drop(s, k))
    ensures Sound(s) ==> Sound(Drop(s, k))
    decreases s
  {
    if !(k <= |s.ws| || s.End?) && k >= |s.ws| + |Text(s.root)| {
      DropSteady(s.rest, k - |s.ws| - |Text(s.root)|);
    }
  }

  lemma {:induction false} SteadyRun(s: Stream, k: nat, chunks: seq<string>)
    requires LegalStream(s) && Settled(s, k) && Concat(chunks) == StreamText(s)[k..] && Steady(s)
    ensures CallsOver(FramesFrom(s, k, chunks)) == AllCalls(Roots(s))
    decreases |chunks|
  {
    hide OwnCalls, AnswerFor, CallsMade, Steady, CallsOver, AllCalls;
    if chunks == [] {
      InsideEnds(s);
      NoCalls();
    } else {
      var n := k + |chunks[0]|;
      assert StreamText(s)[n..] == StreamText(s)[k..][|chunks[0]|..] == Concat(chunks[1..]);
      if Inside(s, n) {
        SteadyRun(s, n, chunks[1..]);
      } else {
        CutParts(s, n);
        SteadyFrames(s, n);
        DropSteady(s, n);
        var rest := FramesFrom(Drop(s, n), Left(s, n), chunks[1..]);
        SteadyRun(Drop(s, n), Left(s, n), chunks[1..]);
        CallsOverJoin(Frames(Cut(s, n)), rest);
        AllCallsJoin(RootsIn(s, n), Roots(Drop(s, n)));
      }
    }
  }

  lemma NoCalls()
    ensures CallsOver([]) == [] && AllCalls([]) == []
  {}

  // ---------------------------------------------------------------- any two splits

  // Reads that make up the stream and never let unfinished data reach the limit.
  ghost predicate IsSplit(s: Stream, chunks: seq<string>) {
    Concat(chunks) == StreamText(s) && Bounded(s, 0, chunks)
  }

  // The methods that are called when the stream is read that way.
  ghost function RunCalls(s: Stream, chunks: seq<string>): seq<Call>
    requires LegalStream(s) && IsSplit(s, chunks)
  {
    CallsOver(FramesFrom(s, 0, chunks))
  }

  ghost predicate SplitsAgree(s: Stream)
    requires LegalStream(s)
  {
    forall a, b | IsSplit(s, a) && IsSplit(s, b) :: RunCalls(s, a) == RunCalls(s, b)
  }

  // Where the first n texts end.
  function EndOf(s: Stream, n: nat): nat {
    if s.End? || n == 0 then 0 else |s.ws| + |Text(s.root)| + EndOf(s.rest, n - 1)
  }

  lemma {:induction false} FirstTexts(s: Stream, n: nat)
    requires LegalStream(s)
    ensures var k := EndOf(s, n);
      k <= |StreamText(s)| && !Inside(s, k) && Left(s, k) == 0 && Texts(Cut(s, k)) == Texts(Take(s, n))
    decreases s
  {
    if s.Then? && n > 0 {
      FirstTexts(s.rest, n - 1);
      IsContainerRoot(s);
    }
  }

  // A first read that ends where a text ends.
  lemma FirstChunk(s: Stream, k: nat, others: seq<string>)
    requires LegalStream(s) && k <= |StreamText(s)| && !Inside(s, k) && Left(s, k) == 0
    requires LegalStream(Drop(s, k)) && IsSplit(Drop(s, k), others) && StreamText(s)[k..] == StreamText(Drop(s, k))
    ensures IsSplit(s, [StreamText(s)[..k]] + others)
    ensures FramesFrom(s, 0, [StreamText(s)[..k]] + others) == Frames(Cut(s, k)) + FramesFrom(Drop(s, k), 0, others)
  {
    hide Inside, Cut, Drop, Left, StreamText, LegalStream, Frames;
    var t := StreamText(s);
    var chunks := [t[..k]] + others;
    assert chunks[1..] == others && chunks[0] == t[..k];
    assert t == t[..k] + t[k..];
  }

  // The first n texts in one read, then the others.
  lemma ReadFirst(s: Stream, n: nat, others: seq<string>)
    requires LegalStream(s) && LegalStream(Drop(s, EndOf(s, n))) && IsSplit(Drop(s, EndOf(s, n)), others)
    ensures var k := EndOf(s, n);
      && k <= |StreamText(s)| && !Inside(s, k) && IsSplit(s, [StreamText(s)[..k]] + others)
      && RunCalls(s, [StreamText(s)[..k]] + others) == CallsOver(Frames(Cut(s, k))) + RunCalls(Drop(s, k), others)
  {
    hide Inside, Cut, Drop, Left, LegalStream, Frames, CallsOver, Texts, Bounded, Concat, FramesFrom;
    var k := EndOf(s, n);
    FirstTexts(s, n);
    CutParts(s, k);
    assert StreamText(Drop(s, k))[0..] == StreamText(Drop(s, k));
    FirstChunk(s, k, others);
    CallsOverJoin(Frames(Cut(s, k)), FramesFrom(Drop(s, k), 0, others));
  }

  // Everything in one read.
  lemma {:induction false} LeftAtEnd(s: Stream)
    requires LegalStream(s)
    ensures !Inside(s, |StreamText(s)|) && Left(s, |StreamText(s)|) == |Trailing(s)|
    decreases s
  {
    if s.Then? {
      IsContainerRoot(s);
      LeftAtEnd(s.rest);
    }
  }

  lemma ReadWhole(s: Stream)
    requires LegalStream(s) && |Trailing(s)| < MAX_REQUEST_BUF_SIZE
    ensures IsSplit(s, [StreamText(s)])
  {
    LeftAtEnd(s);
    var chunks := [StreamText(s)];
    assert chunks[1..] == [];
    assert Concat(chunks) == StreamText(s) + Concat([]);
  }

  lemma {:induction false} TrailingOfDrop(s: Stream, k: nat)
    requires LegalStream(s)
    ensures Trailing(Drop(s, k)) == Trailing(s) && LegalStream(Drop(s, k))
    decreases s
  {
    if !(k <= |s.ws| || s.End?) && k >= |s.ws| + |Text(s.root)| {
      TrailingOfDrop(s.rest, k - |s.ws| - |Text(s.root)|);
    }
  }

  // The rest of a steady stream, in one read.
  lemma ReadRest(s: Stream)
    requires LegalStream(s) && Steady(s) && |Trailing(s)| < MAX_REQUEST_BUF_SIZE
    ensures IsSplit(s, [StreamText(s)]) && RunCalls(s, [StreamText(s)]) == AllCalls(Roots(s))
  {
    hide Steady, AllCalls, CallsOver, FramesFrom, Bounded;
    ReadWhole(s);
    assert StreamText(s)[0..] == StreamText(s);
    SteadyRun(s, 0, [StreamText(s)]);
  }

  lemma BufferedCut(s: Stream, n: nat)
    requires LegalStream(s) && s.Then?
    ensures var k, m := EndOf(s, n + 1), |s.ws| + |Text(s.root)|;
      && |s.ws| < k <= |StreamText(s)| && !Inside(s, k) && LegalStream(s.rest)
      && Drop(s, k) == Drop(s.rest, k - m) && Texts(Cut(s, k)) == Texts(Buffered(s, n))
  {
    IsContainerRoot(s);
    FirstTexts(s, n + 1);
    hide Text, LegalStream;
  }

  // The calls for the first text with n texts behind it, in one read, and for those.
  lemma BufferedFrames(s: Stream, n: nat)
    requires LegalStream(s) && s.Then? && Steady(s.rest)
    ensures var k := EndOf(s, n + 1);
      && k <= |StreamText(s)| && !Inside(s, k) && Steady(Drop(s, k)) && LegalStream(Drop(s, k))
        && Trailing(Drop(s, k)) == Trailing(s)
      && CallsOver(Frames(Cut(s, k))) + AllCalls(Roots(Drop(s, k)))
        == CallsMade(AnswerFor(Buffered(s, n))) + AllCalls(Roots(s.rest))
  {
    hide AnswerFor, CallsMade, CallsOver, AllCalls, Steady, OwnCalls, Text, Inside, Cut, Drop, Left, StreamText, LegalStream,
      Frames, Texts, EndOf, Take;
    var k, m := EndOf(s, n + 1), |s.ws| + |Text(s.root)|;
    BufferedCut(s, n);
    TrailingOfDrop(s, k);
    SameTexts(Cut(s, k), Buffered(s, n));
    CutAnswer(s, k);
    FirstFrame(Cut(s, k));
    SteadyFrames(s.rest, k - m);
    CutParts(s.rest, k - m);
    DropSteady(s.rest, k - m);
    AllCallsJoin(RootsIn(s.rest, k - m), Roots(Drop(s, k)));
  }

  // The first text with n texts behind it in one read, then the others, which are steady.
  lemma ReadBuffered(s: Stream, n: nat) returns (chunks: seq<string>)
    requires LegalStream(s) && s.Then? && Steady(s.rest) && |Trailing(s)| < MAX_REQUEST_BUF_SIZE
    ensures EndOf(s, n + 1) <= |StreamText(s)|
    ensures chunks == [StreamText(s)[..EndOf(s, n + 1)], StreamText(Drop(s, EndOf(s, n + 1)))]
    ensures IsSplit(s, chunks) && RunCalls(s, chunks) == CallsMade(AnswerFor(Buffered(s, n))) + AllCalls(Roots(s.rest))
  {
    hide AnswerFor, CallsMade, CallsOver, AllCalls, Steady, OwnCalls, IsSplit, RunCalls, LegalStream, StreamText,
      Drop, Cut, Inside, EndOf;
    var k := EndOf(s, n + 1);
    BufferedFrames(s, n);
    ReadRest(Drop(s, k));
    ReadFirst(s, n + 1, [StreamText(Drop(s, k))]);
    chunks := [StreamText(s)[..k]] + [StreamText(Drop(s, k))];
  }

  lemma SameTexts(s: Stream, t: Stream)
    requires Texts(s) == Texts(t)
    ensures AnswerFor(s) == AnswerFor(t)
  {
    hide AnswerTo;
  }

  lemma AloneInBuffer(s: Stream)
    requires s.Then?
    ensures CallsMade(AnswerFor(Buffered(s, 0))) == OwnCalls(s.root)
  {
    hide AnswerTo, CallsMade, Items;
    assert Texts(Buffered(s, 0)) == Elem("", s.root, "", NoElems);
    assert ItemsOf(Buffered(s, 0)) == Items(s.root) + [] == Items(s.root);
  }

  lemma SameEnd(a: seq<Call>, b: seq<Call>, end: seq<Call>)
    ensures a + end == b + end ==> a == b
  {
    if a + end == b + end {
      assert |a| == |b|;
      assert a == (a + end)[..|a|] && b == (b + end)[..|b|];
    }
  }

  lemma SameStart(start: seq<Call>, a: seq<Call>, b: seq<Call>)
    ensures start + a == start + b ==> a == b
  {
    assert a == (start + a)[|start|..] && b == (start + b)[|start|..];
  }

  // Two ways to read a stream that is not steady.
  lemma {:induction false} UnsteadySplits(s: Stream) returns (a: seq<string>, b: seq<string>)
    requires LegalStream(s) && !Steady(s) && |Trailing(s)| < MAX_REQUEST_BUF_SIZE
    ensures IsSplit(s, a) && IsSplit(s, b) && RunCalls(s, a) != RunCalls(s, b)
    decreases s
  {
    hide AnswerFor, CallsMade, AllCalls, OwnCalls, RunCalls, IsSplit;
    IsContainerRoot(s);
    if Steady(s.rest) {
      var n: nat :| CallsMade(AnswerFor(Buffered(s, n))) != OwnCalls(s.root);
      a := ReadBuffered(s, n);
      b := ReadBuffered(s, 0);
      AloneInBuffer(s);
      SameEnd(CallsMade(AnswerFor(Buffered(s, n))), OwnCalls(s.root), AllCalls(Roots(s.rest)));
    } else {
      var a', b' := UnsteadySplits(s.rest);
      assert Drop(s, EndOf(s, 1)) == s.rest;
      ReadFirst(s, 1, a');
      ReadFirst(s, 1, b');
      a, b := [StreamText(s)[..EndOf(s, 1)]] + a', [StreamText(s)[..EndOf(s, 1)]] + b';
      SameStart(CallsOver(Frames(Cut(s, EndOf(s, 1)))), RunCalls(s.rest, a'), RunCalls(s.rest, b'));
    }
  }

  // Whatever the reads, the same methods are called in the same order exactly when the stream is steady: then it is
  // those of each text alone.
  lemma SplitsAgreeExactly(s: Stream)
    requires LegalStream(s) && |Trailing(s)| < MAX_REQUEST_BUF_SIZE
    ensures SplitsAgree(s) <==> Steady(s)
    ensures Steady(s) ==> forall a | IsSplit(s, a) :: RunCalls(s, a) == AllCalls(Roots(s))
  {
    hide AllCalls, CallsOver, Bounded;
    if Steady(s) {
      forall a | IsSplit(s, a) ensures RunCalls(s, a) == AllCalls(Roots(s)) {
        assert StreamText(s)[0..] == StreamText(s);
        SteadyRun(s, 0, a);
      }
    } else {
      var a, b := UnsteadySplits(s);
    }
  }

  // ---------------------------------------------------------------- which streams are steady

  lemma {:induction false} TakenTexts(s: Stream, n: nat)
    requires LegalStream(s)
    ensures Texts(Take(s, n)).Elem? ==> !Texts(Take(s, n)).value.Str?
  {}

  // An object calls the same method whatever stands behind it.
  lemma ObjectText(s: Stream, n: nat)
    requires LegalStream(s) && s.Then? && s.root.Obj?
    ensures AnswerFor(Buffered(s, n)) == Single(OwnAct(s.root)) == AnswerTo(Items(s.root))
  {
    hide AnswerTo, OwnAct, Items;
    TakenTexts(s.rest, n);
    ObjectAnswered(s.root, Texts(Take(s.rest, n)));
    ObjectAnswered(s.root, NoElems);
    assert Items(s.root) + ItemsOfElems(NoElems) == Items(s.root);
  }

  // So does an array without elements.
  lemma EmptyText(s: Stream, n: nat)
    requires s.Then? && s.root.Arr? && s.root.elems.NoElems?
    ensures AnswerFor(Buffered(s, n)) == Single(BadRequest(None)) == AnswerTo(Items(s.root))
  {}

  predicate IsBatch(v: Value) {
    v.Arr? && v.elems.Elem?
  }

  // A batch followed by nothing.
  lemma LastText(s: Stream, n: nat)
    requires s.Then? && Roots(s.rest) == []
    ensures AnswerFor(Buffered(s, n)) == AnswerTo(Items(s.root))
  {
    hide AnswerTo, Items;
    assert Texts(Buffered(s, n)) == Elem("", s.root, "", NoElems);
    assert ItemsOf(Buffered(s, n)) == Items(s.root) + [] == Items(s.root);
  }

  // At most the last text is a batch.
  predicate BatchLast(s: Stream) {
    s.Then? ==> (IsBatch(s.root) ==> Roots(s.rest) == []) && BatchLast(s.rest)
  }

  // Requests one by one, and a batch only at the end: the same methods are called however the stream is read.
  lemma {:induction false} BatchLastIsSteady(s: Stream)
    requires LegalStream(s) && BatchLast(s)
    ensures Steady(s)
    ensures (forall v | v in Roots(s) && IsBatch(v) :: !RunsOver(AnswerTo(Items(v)))) ==> Sound(s)
    decreases s
  {
    hide AnswerTo, AnswerFor, CallsMade, OwnAct, Items, RunsOver;
    if s.Then? {
      BatchLastIsSteady(s.rest);
      IsContainerRoot(s);
      assert s.root in Roots(s) && forall v | v in Roots(s.rest) :: v in Roots(s);
      forall n: nat
        ensures CallsMade(AnswerFor(Buffered(s, n))) == OwnCalls(s.root)
        ensures (IsBatch(s.root) ==> !RunsOver(AnswerTo(Items(s.root)))) ==> !RunsOver(AnswerFor(Buffered(s, n)))
      {
        if IsBatch(s.root) {
          LastText(s, n);
        } else if s.root.Obj? {
          ObjectText(s, n);
          NotOver(OwnAct(s.root));
        } else {
          EmptyText(s, n);
          NotOver(BadRequest(None));
        }
      }
    }
  }

  lemma NotOver(act: Act)
    ensures !RunsOver(Single(act))
  {}

  // ---------------------------------------------------------------- batches with texts behind them

  // Every batch is fair, with the texts that may stand behind it for elements.
  ghost predicate FairStream(s: Stream) {
    s.Then? ==>
      && (IsBatch(s.root) ==> forall n: nat :: Fair(Append(s.root.elems, Texts(Take(s.rest, n)))))
      && FairStream(s.rest)
  }

  // No text behind a batch calls a method.
  predicate NoCallBehindBatch(s: Stream) {
    s.Then? ==> (IsBatch(s.root) ==> Calls(OwnActs(Texts(s.rest))) == []) && NoCallBehindBatch(s.rest)
  }

  // A batch also calls the methods of the texts behind it.
  lemma BufferedBatch(s: Stream, n: nat)
    requires s.Then? && IsBatch(s.root) && Fair(Append(s.root.elems, Texts(Take(s.rest, n))))
    ensures !RunsOver(AnswerFor(Buffered(s, n)))
    ensures CallsMade(AnswerFor(Buffered(s, n))) == Calls(OwnActs(s.root.elems)) + Calls(OwnActs(Texts(Take(s.rest, n))))
  {
    hide AnswerTo, Items, Fair, OwnActs, Calls;
    BatchAnswered(s.root, Texts(Take(s.rest, n)));
    CallsJoin(OwnActs(s.root.elems), OwnActs(Texts(Take(s.rest, n))));
  }

  function TextCount(s: Stream): nat {
    if s.End? then 0 else 1 + TextCount(s.rest)
  }

  lemma {:induction false} TakeAll(s: Stream)
    ensures Texts(Take(s, TextCount(s))) == Texts(s)
  {
    if s.Then? { TakeAll(s.rest); }
  }

  lemma {:induction false} TakenActs(s: Stream, n: nat)
    ensures OwnActs(Texts(Take(s, n))) <= OwnActs(Texts(s))
    decreases s
  {
    hide OwnAct;
    if s.Then? && n > 0 { TakenActs(s.rest, n - 1); }
  }

  lemma PrefixCalls(a: seq<Act>, b: seq<Act>)
    requires a <= b && Calls(b) == []
    ensures Calls(a) == []
  {
    hide Calls;
    CallsJoin(a, b[|a|..]);
    assert b == a + b[|a|..];
  }

  // When batches are fair, the methods called do not depend on the reads exactly when no batch is followed by a text
  // that calls a method.
  lemma {:induction false} SteadyExactly(s: Stream)
    requires LegalStream(s) && FairStream(s)
    ensures Sound(s) && (Steady(s) <==> NoCallBehindBatch(s))
    decreases s
  {
    hide AnswerTo, AnswerFor, CallsMade, OwnAct, OwnActs, OwnCalls, Items, RunsOver, Calls, Fair;
    if s.Then? {
      IsContainerRoot(s);
      SteadyExactly(s.rest);
      if IsBatch(s.root) {
        BatchSteady(s);
      } else {
        ScalarSteady(s);
      }
    }
  }

  lemma ScalarSteady(s: Stream)
    requires LegalStream(s) && s.Then? && !IsBatch(s.root)
    ensures forall n: nat :: !RunsOver(AnswerFor(Buffered(s, n))) && CallsMade(AnswerFor(Buffered(s, n))) == OwnCalls(s.root)
  {
    hide AnswerTo, AnswerFor, CallsMade, OwnAct, Items;
    IsContainerRoot(s);
    forall n: nat
      ensures !RunsOver(AnswerFor(Buffered(s, n))) && CallsMade(AnswerFor(Buffered(s, n))) == OwnCalls(s.root)
    {
      if s.root.Obj? {
        ObjectText(s, n);
      } else {
        EmptyText(s, n);
      }
    }
  }

  lemma BatchSteady(s: Stream)
    requires s.Then? && IsBatch(s.root) && forall n: nat :: Fair(Append(s.root.elems, Texts(Take(s.rest, n))))
    ensures forall n: nat :: !RunsOver(AnswerFor(Buffered(s, n)))
    ensures (forall n: nat :: CallsMade(AnswerFor(Buffered(s, n))) == OwnCalls(s.root)) <==> Calls(OwnActs(Texts(s.rest))) == []
  {
    hide AnswerTo, AnswerFor, CallsMade, OwnAct, OwnActs, OwnCalls, Items, RunsOver, Calls, Fair;
    var own := Calls(OwnActs(s.root.elems));
    forall n: nat
      ensures !RunsOver(AnswerFor(Buffered(s, n)))
      ensures CallsMade(AnswerFor(Buffered(s, n))) == own + Calls(OwnActs(Texts(Take(s.rest, n))))
    {
      BufferedBatch(s, n);
    }
    AloneInBuffer(s);
    NoActs();
    assert Texts(Take(s.rest, 0)) == NoElems;
    assert OwnCalls(s.root) == own + [] == own;
    if Calls(OwnActs(Texts(s.rest))) == [] {
      forall n: nat ensures CallsMade(AnswerFor(Buffered(s, n))) == own {
        TakenActs(s.rest, n);
        PrefixCalls(OwnActs(Texts(Take(s.rest, n))), OwnActs(Texts(s.rest)));
      }
    } else {
      TakeAll(s.rest);
      assert CallsMade(AnswerFor(Buffered(s, TextCount(s.rest)))) != own;
    }
  }

  lemma NoActs()
    ensures OwnActs(NoElems) == [] && Calls([]) == []
  {}

  // ---------------------------------------------------------------- plain streams

  predicate PlainText(v: Value) {
    Plain(v) || (v.Arr? && PlainOrArray(v.elems))
  }

  predicate PlainStream(s: Stream) {
    s.Then? ==> PlainText(s.root) && PlainStream(s.rest)
  }

  lemma {:induction false} PlainTexts(s: Stream, n: nat)
    requires PlainStream(s)
    ensures PlainOrArray(Texts(Take(s, n)))
    decreases s
  {
    hide Plain;
    if s.Then? && n > 0 { PlainTexts(s.rest, n - 1); }
  }

  lemma {:induction false} PlainAppend(es: Elems, fs: Elems)
    requires PlainOrArray(es) && PlainOrArray(fs)
    ensures PlainOrArray(Append(es, fs))
    decreases es
  {
    hide Plain;
    if es.Elem? { PlainAppend(es.rest, fs); }
  }

  // Streams of plain requests and batches of them are fair.
  lemma {:induction false} PlainStreamIsFair(s: Stream)
    requires PlainStream(s)
    ensures FairStream(s)
  {
    hide Plain, PlainOrArray, Fair;
    if s.Then? {
      PlainStreamIsFair(s.rest);
      if IsBatch(s.root) {
        PlainArray(s.root);
        forall n: nat ensures Fair(Append(s.root.elems, Texts(Take(s.rest, n)))) {
          PlainTexts(s.rest, n);
          PlainAppend(s.root.elems, Texts(Take(s.rest, n)));
          PlainOrArrayIsFair(Append(s.root.elems, Texts(Take(s.rest, n))));
        }
      }
    }
  }

  lemma PlainArray(v: Value)
    requires PlainText(v) && v.Arr?
    ensures PlainOrArray(v.elems)
  {}

  // ---------------------------------------------------------------- a batch and a request in one read

  function BatchOf(v: Value): Value {
    Arr("", Elem("", v, "", NoElems))
  }

  // A batch of one request, and the same request behind it.
  function BatchThenRequest(v: Value): Stream {
    Then("", BatchOf(v), Then("", v, End("\n")))
  }

  // For every plain request of a method, like the one above: [{...}]{...} calls the method twice when the texts are
  // read one by one, and three times when they are read together.
  lemma CalledAgain(v: Value, c: Call)
    requires Legal(v) && Plain(v) && OwnAct(v) == Run(c)
    ensures
      var s, one, two := BatchThenRequest(v), [Text(BatchOf(v)), Text(v) + "\n"], [Text(BatchOf(v)) + Text(v), "\n"];
      && LegalStream(s) && PlainStream(s)
      && IsSplit(s, one) && RunCalls(s, one) == [c, c]
      && IsSplit(s, two) && RunCalls(s, two) == [c, c, c]
  {
    hide Text, AnswerFor, CallsMade, RunCalls, IsSplit, OwnAct, OwnActs, Calls, Fair, Plain, Legal, AllCalls, Steady,
      Texts, Take, StreamText, EndOf, Drop;
    var s := BatchThenRequest(v);
    RequestIsPlain(v);
    PlainStreamIsFair(s);
    BatchLastIsSteady(s.rest);
    var one := ReadBuffered(s, 0);
    var two := ReadBuffered(s, 1);
    BufferedBatch(s, 0);
    BufferedBatch(s, 1);
    RequestCalls(v, c);
    RequestReads(v);
  }

  lemma RequestIsPlain(v: Value)
    requires Legal(v) && Plain(v)
    ensures var s := BatchThenRequest(v);
      v.Obj? && PlainStream(s) && LegalStream(s) && LegalStream(s.rest) && BatchLast(s.rest) && |Trailing(s)| == 1
  {
    assert v.Obj?;
    hide Plain;
    var s := BatchThenRequest(v);
    assert LegalStream(s.rest.rest) && PlainStream(s.rest.rest) && BatchLast(s.rest.rest) && Trailing(s.rest) == "\n";
    assert LegalStream(s.rest) && PlainStream(s.rest);
    assert PlainOrArray(BatchOf(v).elems) && LegalElems(BatchOf(v).elems.rest) && LegalElems(BatchOf(v).elems);
  }

  lemma RequestCalls(v: Value, c: Call)
    requires v.Obj? && OwnAct(v) == Run(c)
    ensures var s := BatchThenRequest(v);
      && Calls(OwnActs(BatchOf(v).elems)) == [c] && AllCalls(Roots(s.rest)) == [c]
      && Calls(OwnActs(Texts(Take(s.rest, 0)))) == [] && Calls(OwnActs(Texts(Take(s.rest, 1)))) == [c]
  {
    hide OwnAct, AnswerTo, AnswerFor, Items;
    var s := BatchThenRequest(v);
    assert OwnActs(BatchOf(v).elems) == [Run(c)] && [Run(c)][..0] == [];
    assert Calls([Run(c)]) == [c];
    assert Take(s.rest, 1) == Then("", v, End(""));
    assert OwnActs(Texts(Take(s.rest, 1))) == [Run(c)];
    ObjectAnswered(v, NoElems);
    assert Items(v) + ItemsOfElems(NoElems) == Items(v);
    assert Roots(s.rest) == [v] && [v][1..] == [];
    assert AllCalls([v]) == OwnCalls(v) + AllCalls([]);
  }

  lemma RequestReads(v: Value)
    requires Legal(v)
    ensures var s := BatchThenRequest(v);
      && EndOf(s, 1) <= |StreamText(s)| && EndOf(s, 2) <= |StreamText(s)|
      && [StreamText(s)[..EndOf(s, 1)], StreamText(Drop(s, EndOf(s, 1)))] == [Text(BatchOf(v)), Text(v) + "\n"]
      && [StreamText(s)[..EndOf(s, 2)], StreamText(Drop(s, EndOf(s, 2)))] == [Text(BatchOf(v)) + Text(v), "\n"]
  {
    hide Legal;
    var s, b := BatchThenRequest(v), Text(BatchOf(v));
    assert b != [];
    hide Text;
    var t := Text(v);
    assert StreamText(s.rest.rest) == "\n" && StreamText(s.rest) == t + "\n" && StreamText(s) == b + (t + "\n");
    assert EndOf(s.rest, 0) == 0 && EndOf(s.rest.rest, 0) == 0 && EndOf(s.rest, 1) == |t|;
    assert EndOf(s, 1) == |b| && EndOf(s, 2) == |b| + |t|;
    assert (b + (t + "\n"))[..|b|] == b && (b + (t + "\n"))[..|b| + |t|] == b + t;
    assert t != [] && Drop(s.rest, |t|) == s.rest.rest;
    assert Drop(s, |b|) == s.rest && Drop(s, |b| + |t|) == s.rest.rest;
  }

  // ---------------------------------------------------------------- the pipe

  lemma {:induction false} FramesAreLegal(s: Stream)
    requires LegalStream(s)
    ensures Frameable(Frames(s))
  {
    hide Legal, Text;
    if s.Then? { FramesAreLegal(s.rest); }
  }

  lemma {:induction false} SoundFrames(s: Stream, k: nat)
    requires k <= |StreamText(s)| && !Inside(s, k) && Sound(s)
    ensures forall i | 0 <= i < |Frames(Cut(s, k))| :: !RunsOver(AnswerFor(Frames(Cut(s, k))[i]))
    decreases s
  {
    hide AnswerFor, RunsOver;
    if s.Then? && k > |s.ws| {
      CutAnswer(s, k);
      SoundFrames(s.rest, k - |s.ws| - |Text(s.root)|);
    }
  }

  lemma {:induction false} RunFrames(s: Stream, k: nat, chunks: seq<string>)
    requires LegalStream(s) && k + |Concat(chunks)| <= |StreamText(s)|
    ensures Frameable(FramesFrom(s, k, chunks))
    ensures Sound(s) ==> forall i | 0 <= i < |FramesFrom(s, k, chunks)| :: !RunsOver(AnswerFor(FramesFrom(s, k, chunks)[i]))
    decreases |chunks|
  {
    hide AnswerFor, RunsOver, Frames, Sound;
    if chunks != [] {
      var n := k + |chunks[0]|;
      if Inside(s, n) {
        RunFrames(s, n, chunks[1..]);
      } else {
        CutParts(s, n);
        CutIsPrefix(s, n);
        FramesAreLegal(Cut(s, n));
        DropSteady(s, n);
        if Sound(s) { SoundFrames(s, n); }
        RunFrames(Drop(s, n), Left(s, n), chunks[1..]);
      }
    }
  }

  method ReadAll(pipe: CommandPipe, callbacks: seq<seq<Read>>)
    requires forall rs | rs in callbacks :: rs != [] && rs[|rs| - 1] in {WouldBlock, Failed, Eof}
    modifies pipe
    ensures pipe.State() == AfterCallbacks(old(pipe.State()), callbacks)
  {
    hide AfterReads;
    var i := 0;
    assert callbacks[0..] == callbacks;
    while i < |callbacks|
      invariant 0 <= i <= |callbacks|
      invariant AfterCallbacks(pipe.State(), callbacks[i..]) == AfterCallbacks(old(pipe.State()), callbacks)
    {
      assert callbacks[i] in callbacks && callbacks[i..][1..] == callbacks[i + 1..];
      pipe.ReadCallback(callbacks[i]);
      i := i + 1;
    }
  }

  // A pipe that is read in any number of callbacks, and a client for it: nothing is ever written back, and a sound
  // and steady stream calls the methods of its texts, in order.
  method Serve(callbacks: seq<seq<Read>>, respond: Handler, ghost s: Stream) returns (client: Client, overrun: bool)
    requires forall rs | rs in callbacks :: StaysOpen(rs) && rs != [] && rs[|rs| - 1] == WouldBlock
    requires LegalStream(s) && IsSplit(s, AllChunks(callbacks))
    ensures client.Valid() && !client.io && client.output == ""
    ensures Sound(s) ==> !overrun && client.calls == RunCalls(s, AllChunks(callbacks))
    ensures Sound(s) && Steady(s) ==> client.calls == AllCalls(Roots(s))
  {
    hide Sound, Steady, LegalStream, AllChunks, AfterCallbacks, Bounded, CallsOver, OutputOver, AllCalls, RunsOver,
      AnswerFor, FramesFrom, StreamText, Concat, Logged, DispatchOf, Frameable;
    client := new Client.FromPipe();
    var pipe := new CommandPipe();
    ReadAll(pipe, callbacks);
    ghost var chunks := AllChunks(callbacks);
    FramingIgnoresCallbacks(s, callbacks);
    RunFrames(s, 0, chunks);
    overrun := AnswerAll(client, pipe.log, respond, FramesFrom(s, 0, chunks));
    if Steady(s) {
      assert StreamText(s)[0..] == StreamText(s);
      SteadyRun(s, 0, chunks);
    }
  }
}
