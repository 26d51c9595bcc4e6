// Framing does not depend on how the stream is cut into reads (core/pipe.c).
module PipeFraming {
  import opened Jsmn
  import opened Json
  import opened JsmnGrammar
  import opened JsmnTheorems
  import opened Pipe

  // The call for the first text of a buffer that holds the texts of s.
  function DispatchOf(s: Stream): Dispatch {
    Dispatch(StreamText(s), FlattenStream(s, 0))
  }

  // The buffer holds the text of v, maybe with others behind it; the tokens are those of all of them, and token 0
  // spans v.
  ghost predicate IsRequestFor(d: Dispatch, v: Value) {
    exists s: Stream :: RequestFrom(d, s) && s.root == v
  }

  ghost predicate RequestFrom(d: Dispatch, s: Stream) {
    LegalStream(s) && s.Then? && d == DispatchOf(s) && RequestAt(d, s.root, |s.ws|)
  }

  ghost predicate RequestAt(d: Dispatch, v: Value, p: nat) {
    && At(d.json, p, Text(v)) && Flatten(v, p) <= d.toks && d.toks != []
    && d.toks[0].start == p && d.toks[0].end == p + |Text(v)|
  }

  function Roots(s: Stream): seq<Value> {
    if s.End? then [] else [s.root] + Roots(s.rest)
  }

  // One call per text, in order.
  ghost predicate Dispatches(log: seq<Dispatch>, roots: seq<Value>) {
    |log| == |roots| && forall i | 0 <= i < |log| :: IsRequestFor(log[i], roots[i])
  }

  // ---------------------------------------------------------------- a buffer of complete texts

  function Trailing(s: Stream): string {
    if s.End? then s.ws else Trailing(s.rest)
  }

  lemma FlattenRoot(v: Value, p: nat)
    requires v.IsContainer()
    ensures var f := Flatten(v, p); f != [] && f[0].start == p && f[0].end == p + |Text(v)|
  {}

  lemma FirstRequest(s: Stream)
    requires LegalStream(s) && s.Then?
    ensures NextRequest(StreamText(s)) == Request(FlattenStream(s, 0))
    ensures FlattenStream(s, 0) != [] && FlattenStream(s, 0)[0].end == |s.ws| + |Text(s.root)|
    ensures RequestFrom(DispatchOf(s), s)
  {
    hide Count, Fill, StepAt, LegalStream, Flatten, Text;
    TokenizesStream(s);
    IsContainerRoot(s);
    FlattenRoot(s.root, |s.ws|);
    var t := StreamText(s);
    assert t == s.ws + (Text(s.root) + StreamText(s.rest));
    assert At(t, 0, t);
    AtSplit(t, 0, s.ws, Text(s.root) + StreamText(s.rest));
    AtSplit(t, |s.ws|, Text(s.root), StreamText(s.rest));
  }

  lemma IsContainerRoot(s: Stream)
    requires LegalStream(s) && s.Then?
    ensures s.root.IsContainer() && Legal(s.root) && Text(s.root) != [] && LegalStream(s.rest)
  {}

  // A buffer of several texts is dispatched text by text: first with all of them in view, then with those left.
  function Frames(s: Stream): seq<Stream> {
    if s.End? then [] else [s] + Frames(s.rest)
  }

  function Logged(frames: seq<Stream>): seq<Dispatch> {
    seq(|frames|, i requires 0 <= i < |frames| => DispatchOf(frames[i]))
  }

  lemma LoggedJoin(a: seq<Stream>, b: seq<Stream>)
    ensures Logged(a + b) == Logged(a) + Logged(b)
  {}

  lemma {:induction false} FramesDispatch(s: Stream)
    requires LegalStream(s)
    ensures Dispatches(Logged(Frames(s)), Roots(s))
  {
    hide IsRequestFor, DispatchOf;
    if s.Then? {
      FramesDispatch(s.rest);
      FirstRequest(s);
      RequestForRoot(s);
      LoggedJoin([s], Frames(s.rest));
      assert Logged([s]) == [DispatchOf(s)];
    }
  }

  lemma RequestForRoot(s: Stream)
    requires RequestFrom(DispatchOf(s), s)
    ensures s.Then? && IsRequestFor(DispatchOf(s), s.root)
  {}

  // All of them are dispatched, and the whitespace at the end stays.
  lemma {:induction false} ProcessComplete(s: Stream)
    requires LegalStream(s) && |Trailing(s)| < MAX_REQUEST_BUF_SIZE
    ensures Process(StreamText(s)).rest == Trailing(s)
    ensures Process(StreamText(s)).dispatched == Logged(Frames(s))
  {
    hide Count, Fill, StepAt;
    var buf := StreamText(s);
    TokenizesStream(s);
    if s.Then? {
      FirstRequest(s);
      var size := |s.ws| + |Text(s.root)|;
      assert buf[size..] == StreamText(s.rest);
      ProcessComplete(s.rest);
      LoggedJoin([s], Frames(s.rest));
      assert Logged([s]) == [DispatchOf(s)];
      if size >= |buf| { NothingLeft(s.rest); }
    }
  }

  lemma NothingLeft(s: Stream)
    requires LegalStream(s) && StreamText(s) == []
    ensures s == End([])
  {}

  // ---------------------------------------------------------------- any buffer

  // The stream from the last text of the first k characters on, and how much of it they hold.
  function Drop(s: Stream, k: nat): Stream {
    if k <= |s.ws| || s.End? then s
    else if k < |s.ws| + |Text(s.root)| then s
    else Drop(s.rest, k - |s.ws| - |Text(s.root)|)
  }

  function Left(s: Stream, k: nat): nat {
    if k <= |s.ws| || s.End? then k
    else if k < |s.ws| + |Text(s.root)| then k
    else Left(s.rest, k - |s.ws| - |Text(s.root)|)
  }

  // The roots whose texts are complete in the first k characters.
  function RootsIn(s: Stream, k: nat): seq<Value> {
    if k <= |s.ws| || s.End? || k < |s.ws| + |Text(s.root)| then []
    else [s.root] + RootsIn(s.rest, k - |s.ws| - |Text(s.root)|)
  }

  lemma {:induction false} CutParts(s: Stream, k: nat)
    requires LegalStream(s) && k <= |StreamText(s)| && !Inside(s, k)
    ensures Roots(Cut(s, k)) == RootsIn(s, k) && Roots(s) == RootsIn(s, k) + Roots(Drop(s, k))
    ensures var r, l := Drop(s, k), Left(s, k);
      && LegalStream(r) && l <= |r.ws| && l <= |StreamText(r)|
      && Trailing(Cut(s, k)) == StreamText(r)[..l] && StreamText(s)[k..] == StreamText(r)[l..]
  {
    if k > |s.ws| {
      var n := |s.ws| + |Text(s.root)|;
      CutParts(s.rest, k - n);
      assert StreamText(s)[k..] == StreamText(s.rest)[k - n..];
    } else if s.Then? {
      assert StreamText(s)[..k] == s.ws[..k];
    }
  }

  // No complete text is left waiting, unless another one has begun after it.
  predicate Settled(s: Stream, k: nat) {
    k <= |StreamText(s)| && (k <= |s.ws| || Inside(s, k))
  }

  // Data held back never reaches the limit: neither an unfinished text nor whitespace.
  predicate Bounded(s: Stream, k: nat, chunks: seq<string>)
    decreases |chunks|
  {
    chunks != [] ==>
      var n := k + |chunks[0]|;
      if Inside(s, n)
      then n < MAX_REQUEST_BUF_SIZE && Bounded(s, n, chunks[1..])
      else Left(s, n) < MAX_REQUEST_BUF_SIZE && Bounded(Drop(s, n), Left(s, n), chunks[1..])
  }

  lemma ProcessPrefix(s: Stream, k: nat)
    requires LegalStream(s) && k <= |StreamText(s)|
    requires if Inside(s, k) then k < MAX_REQUEST_BUF_SIZE else Left(s, k) < MAX_REQUEST_BUF_SIZE
    ensures var o := Process(StreamText(s)[..k]);
      if Inside(s, k) then o == Outcome([], StreamText(s)[..k])
      else
        && Left(s, k) <= |StreamText(Drop(s, k))| && o.rest == StreamText(Drop(s, k))[..Left(s, k)]
        && o.dispatched == Logged(Frames(Cut(s, k)))
  {
    hide Count, Fill, StepAt;
    TokenizesPrefix(s, k);
    if !Inside(s, k) {
      CutIsPrefix(s, k);
      CutParts(s, k);
      ProcessComplete(Cut(s, k));
    }
  }

  // What is dispatched from any point between two reads on.
  function FramesFrom(s: Stream, k: nat, chunks: seq<string>): seq<Stream>
    requires k + |Concat(chunks)| <= |StreamText(s)| && LegalStream(s)
    decreases |chunks|
  {
    if chunks == [] then []
    else
      var n := k + |chunks[0]|;
      if Inside(s, n) then FramesFrom(s, n, chunks[1..])
      else
        CutParts(s, n);
        Frames(Cut(s, n)) + FramesFrom(Drop(s, n), Left(s, n), chunks[1..])
  }

  // The chunks are what the stream goes on with after k characters, up to some point.
  ghost predicate Continues(s: Stream, k: nat, chunks: seq<string>) {
    var n := k + |Concat(chunks)|;
    n <= |StreamText(s)| && Concat(chunks) == StreamText(s)[k..n]
  }

  lemma ContinuesNext(s: Stream, k: nat, chunks: seq<string>)
    requires LegalStream(s) && Continues(s, k, chunks) && chunks != []
    ensures var n := k + |chunks[0]|;
      && n <= |StreamText(s)| && Continues(s, n, chunks[1..]) && StreamText(s)[..k] + chunks[0] == StreamText(s)[..n]
      && n + |Concat(chunks[1..])| == k + |Concat(chunks)|
      && (!Inside(s, n) ==> Continues(Drop(s, n), Left(s, n), chunks[1..]))
  {
    hide LegalStream, StreamText, Inside, Cut, Drop, Left, Concat, RootsIn, Roots, Trailing;
    var n, t, rest := k + |chunks[0]|, StreamText(s), Concat(chunks[1..]);
    FirstOf(chunks);
    SliceInTwo(t, k, chunks[0], rest);
    if !Inside(s, n) {
      CutParts(s, n);
      SameSlice(t, n, StreamText(Drop(s, n)), Left(s, n), |rest|);
    }
  }

  lemma FirstOf(chunks: seq<string>)
    requires chunks != []
    ensures Concat(chunks) == chunks[0] + Concat(chunks[1..])
  {}

  lemma SliceInTwo(t: string, k: nat, a: string, b: string)
    requires k + |a + b| <= |t| && t[k..k + |a + b|] == a + b
    ensures t[..k] + a == t[..k + |a|] && t[k + |a|..k + |a| + |b|] == b
  {
    assert t[k..k + |a|] == (a + b)[..|a|];
    assert t[k + |a|..k + |a| + |b|] == (a + b)[|a|..];
  }

  lemma SameSlice(t: string, n: nat, u: string, l: nat, m: nat)
    requires n + m <= |t| && l <= |u| && t[n..] == u[l..]
    ensures l + m <= |u| && u[l..l + m] == t[n..n + m]
  {
    assert u[l..l + m] == u[l..][..m] && t[n..n + m] == t[n..][..m];
  }

  // From any point between two reads on, whatever the reads are, the texts still to come are dispatched.
  lemma {:induction false} FramingFrom(s: Stream, k: nat, chunks: seq<string>, log: seq<Dispatch>)
    requires LegalStream(s) && k <= |StreamText(s)| && Bounded(s, k, chunks) && Continues(s, k, chunks)
    ensures DeliverAll(PipeState(StreamText(s)[..k], log), chunks).log == log + Logged(FramesFrom(s, k, chunks))
    decreases |chunks|
  {
    hide Process, Logged, LegalStream, StreamText, Inside, Cut, Drop, Left, Frames, Continues;
    if chunks == [] {
      LoggedNone(log);
    } else {
      var n, t := k + |chunks[0]|, StreamText(s);
      ContinuesNext(s, k, chunks);
      ProcessPrefix(s, n);
      var o := Process(t[..n]);
      if Inside(s, n) {
        assert log + [] == log;
        FramingFrom(s, n, chunks[1..], log);
      } else {
        CutParts(s, n);
        FramingFrom(Drop(s, n), Left(s, n), chunks[1..], log + o.dispatched);
        ContinuesFits(Drop(s, n), Left(s, n), chunks[1..]);
        LoggedJoin(Frames(Cut(s, n)), FramesFrom(Drop(s, n), Left(s, n), chunks[1..]));
      }
    }
  }

  lemma LoggedNone(log: seq<Dispatch>)
    ensures log + Logged([]) == log
  {}

  // The roots of the texts that are dispatched: when a read ends inside a text, those in front of it wait with it.
  function Answered(s: Stream, k: nat, chunks: seq<string>): seq<Value>
    decreases |chunks|
  {
    if chunks == [] then []
    else
      var n := k + |chunks[0]|;
      if Inside(s, n) then Answered(s, n, chunks[1..])
      else RootsIn(s, n) + Answered(Drop(s, n), Left(s, n), chunks[1..])
  }

  // One by one, in order.
  lemma {:induction false} FramesInOrder(s: Stream, k: nat, chunks: seq<string>)
    requires LegalStream(s) && Continues(s, k, chunks)
    ensures k + |Concat(chunks)| <= |StreamText(s)|
    ensures Dispatches(Logged(FramesFrom(s, k, chunks)), Answered(s, k, chunks))
    decreases |chunks|
  {
    hide IsRequestFor, DispatchOf, LegalStream, StreamText, Inside, Cut, Drop, Left, Frames, Continues, RootsIn;
    ContinuesFits(s, k, chunks);
    if chunks != [] {
      var n := k + |chunks[0]|;
      ContinuesNext(s, k, chunks);
      if Inside(s, n) {
        FramesInOrder(s, n, chunks[1..]);
      } else {
        CutParts(s, n);
        CutIsPrefix(s, n);
        FramesDispatch(Cut(s, n));
        var rest := FramesFrom(Drop(s, n), Left(s, n), chunks[1..]);
        FramesInOrder(Drop(s, n), Left(s, n), chunks[1..]);
        LoggedJoin(Frames(Cut(s, n)), rest);
        DispatchesJoin(Logged(Frames(Cut(s, n))), Logged(rest), RootsIn(s, n), Answered(Drop(s, n), Left(s, n), chunks[1..]));
      }
    }
  }

  lemma ContinuesFits(s: Stream, k: nat, chunks: seq<string>)
    requires Continues(s, k, chunks)
    ensures k + |Concat(chunks)| <= |StreamText(s)|
  {}

  // Unless the last read ends inside a text, every text that is complete has been dispatched.
  lemma {:induction false} AllAnswered(s: Stream, k: nat, chunks: seq<string>)
    requires LegalStream(s) && Settled(s, k) && Continues(s, k, chunks)
    ensures var n := k + |Concat(chunks)|; !Inside(s, n) ==> Answered(s, k, chunks) == RootsIn(s, n)
    decreases |chunks|
  {
    if chunks != [] {
      var n := k + |chunks[0]|;
      ContinuesNext(s, k, chunks);
      hide LegalStream, StreamText, Cut, Continues;
      if Inside(s, n) {
        AllAnswered(s, n, chunks[1..]);
      } else {
        CutParts(s, n);
        AllAnswered(Drop(s, n), Left(s, n), chunks[1..]);
        RootsInTwo(s, n, |Concat(chunks[1..])|);
      }
    }
  }

  // The first n characters, then m more.
  lemma {:induction false} RootsInTwo(s: Stream, n: nat, m: nat)
    requires !Inside(s, n)
    ensures RootsIn(s, n + m) == RootsIn(s, n) + RootsIn(Drop(s, n), Left(s, n) + m)
    ensures Inside(s, n + m) <==> Inside(Drop(s, n), Left(s, n) + m)
    decreases s
  {
    hide Text;
    if s.Then? && n > |s.ws| {
      RootsInTwo(s.rest, n - |s.ws| - |Text(s.root)|, m);
    }
  }

  lemma {:induction false} RootsInAll(s: Stream)
    requires LegalStream(s)
    ensures RootsIn(s, |StreamText(s)|) == Roots(s)
    decreases s
  {
    if s.Then? {
      IsContainerRoot(s);
      RootsInAll(s.rest);
    }
  }

  lemma {:induction false} InsideEnds(s: Stream)
    requires LegalStream(s)
    ensures !Inside(s, |StreamText(s)|)
    ensures |StreamText(s)| <= |s.ws| ==> Roots(s) == []
  {
    if s.Then? { InsideEnds(s.rest); }
  }

  lemma DispatchesJoin(d: seq<Dispatch>, e: seq<Dispatch>, a: seq<Value>, b: seq<Value>)
    requires Dispatches(d, a) && Dispatches(e, b)
    ensures Dispatches(d + e, a + b)
  {}

  // The dispatches of a stream of legal texts, read in any pieces: one per text, in order, with token 0 spanning that
  // text.
  lemma FramingIgnoresChunks(s: Stream, chunks: seq<string>)
    requires LegalStream(s) && Concat(chunks) == StreamText(s) && Bounded(s, 0, chunks)
    ensures Dispatches(DeliverAll(PipeState([], []), chunks).log, Roots(s))
    ensures DeliverAll(PipeState([], []), chunks).log == Logged(FramesFrom(s, 0, chunks))
  {
    hide IsRequestFor, DispatchOf;
    var t := StreamText(s);
    assert t[..0] == [] && t[0..|t|] == t;
    FramingFrom(s, 0, chunks, []);
    FramesInOrder(s, 0, chunks);
    InsideEnds(s);
    AllAnswered(s, 0, chunks);
    RootsInAll(s);
  }

  // ---------------------------------------------------------------- callbacks

  // The bytes a callback reads: interrupted reads are tried again, and a read that would block ends it.
  function Chunks(rs: seq<Read>): seq<string> {
    if rs == [] || rs[0].WouldBlock? then []
    else if rs[0].Data? then [rs[0].bytes] + Chunks(rs[1..])
    else Chunks(rs[1..])
  }

  function AllChunks(callbacks: seq<seq<Read>>): seq<string> {
    if callbacks == [] then [] else Chunks(callbacks[0]) + AllChunks(callbacks[1..])
  }

  function AfterCallbacks(st: PipeState, callbacks: seq<seq<Read>>): PipeState
    decreases |callbacks|
  {
    if callbacks == [] then st else AfterCallbacks(AfterReads(st, callbacks[0]), callbacks[1..])
  }

  ghost predicate StaysOpen(rs: seq<Read>) {
    forall r | r in rs :: !r.Failed? && !r.Eof?
  }

  lemma {:induction false} CallbackDelivers(st: PipeState, rs: seq<Read>)
    requires StaysOpen(rs)
    ensures AfterReads(st, rs) == DeliverAll(st, Chunks(rs))
    decreases |rs|
  {
    if rs != [] {
      assert rs[0] in rs && forall r | r in rs[1..] :: r in rs;
      CallbackDelivers(if rs[0].Data? then Deliver(st, rs[0].bytes) else st, rs[1..]);
    }
  }

  lemma {:induction false} DeliverAllJoins(st: PipeState, a: seq<string>, b: seq<string>)
    ensures DeliverAll(st, a + b) == DeliverAll(DeliverAll(st, a), b)
    decreases |a|
  {
    if a == [] {
      assert a + b == b;
    } else {
      assert (a + b)[1..] == a[1..] + b;
      DeliverAllJoins(Deliver(st, a[0]), a[1..], b);
    }
  }

  lemma {:induction false} CallbacksDeliver(st: PipeState, callbacks: seq<seq<Read>>)
    requires forall rs | rs in callbacks :: StaysOpen(rs)
    ensures AfterCallbacks(st, callbacks) == DeliverAll(st, AllChunks(callbacks))
    decreases |callbacks|
  {
    if callbacks != [] {
      assert callbacks[0] in callbacks && forall rs | rs in callbacks[1..] :: rs in callbacks;
      var st' := AfterReads(st, callbacks[0]);
      CallbackDelivers(st, callbacks[0]);
      CallbacksDeliver(st', callbacks[1..]);
      DeliverAllJoins(st, Chunks(callbacks[0]), AllChunks(callbacks[1..]));
    }
  }

  // The same for any sequence of read callbacks, with interrupted reads and returns to the event loop anywhere.
  lemma FramingIgnoresCallbacks(s: Stream, callbacks: seq<seq<Read>>)
    requires forall rs | rs in callbacks :: StaysOpen(rs)
    requires LegalStream(s) && Concat(AllChunks(callbacks)) == StreamText(s) && Bounded(s, 0, AllChunks(callbacks))
    ensures Dispatches(AfterCallbacks(PipeState([], []), callbacks).log, Roots(s))
    ensures AfterCallbacks(PipeState([], []), callbacks).log == Logged(FramesFrom(s, 0, AllChunks(callbacks)))
  {
    CallbacksDeliver(PipeState([], []), callbacks);
    FramingIgnoresChunks(s, AllChunks(callbacks));
  }
}
