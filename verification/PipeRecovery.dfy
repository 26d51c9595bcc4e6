// What becomes of the buffer of the command pipe when a request is refused, is too long or is cut off (core/pipe.c).
module PipeRecovery {
  import opened Common
  import opened Jsmn
  import opened Json
  import opened JsmnGrammar
  import opened JsmnTheorems
  import opened JsmnRefusal
  import opened Pipe
  import opened PipeFraming

  // ---------------------------------------------------------------- any buffer whatever

  // The limit applies to what cannot be dispatched yet.
  function Held(buf: string): Next {
    if |buf| >= MAX_REQUEST_BUF_SIZE then Drain else Wait
  }

  // A buffer holds a request if and only if it has tokens and the tokenizer takes it. It is thrown away when a string, a
  // primitive or a character is at fault, or else, with tokens, when brackets or primitives are; what is unfinished or has
  // no tokens waits, up to the limit.
  lemma NextRequestExactly(buf: string)
    ensures var c, v, r := Count(buf, 0, 0), Judge(buf, 0, NOTHING), NextRequest(buf);
      && (r.Request? <==> v == Taken && c.Total? && c.n > 0)
      && (!r.Request? ==>
            r == if c == Miscounted(Partial) || c == Total(0) || (c.Total? && v == Turned(Partial)) then Held(buf) else Drain)
  {
    var c := Count(buf, 0, 0);
    TwoPassesJudged(buf);
    hide Count, Fill, Judge, Spells;
    if c.Total? { CountedIsEnough(buf, c.n); }
    NeverShort(buf);
  }

  lemma {:induction false} CountNeverShort(js: string, pos: nat, n: nat)
    ensures Count(js, pos, n) != Miscounted(NoMemory)
    decreases |js| - pos
  {
    hide ScanString, ScanPrimitive;
    if More(js, pos) {
      var c := js[pos];
      if c in {'{', '['} { CountNeverShort(js, pos + 1, n + 1); }
      else if c in {'}', ']', ':', ','} || IsSpace(c) { CountNeverShort(js, pos + 1, n); }
      else if c == '"' {
        var r := ScanString(js, pos + 1);
        if r.Ends? { CountNeverShort(js, r.pos + 1, n + 1); }
      } else if StartsPrimitive(c) {
        var r := ScanPrimitive(js, pos);
        PrimitiveAdvances(js, pos);
        if r.Ends? { CountNeverShort(js, r.pos, n + 1); }
      }
    }
  }

  lemma NeverShort(buf: string)
    ensures Count(buf, 0, 0) != Miscounted(NoMemory)
  {
    CountNeverShort(buf, 0, 0);
  }

  ghost predicate IsTailOf(t: string, buf: string) {
    exists k: nat :: k <= |buf| && t == buf[k..]
  }

  lemma TailOfSelf(buf: string)
    ensures IsTailOf(buf, buf)
  {
    assert buf == buf[0..];
  }

  lemma TailOfTail(t: string, buf: string, n: nat)
    requires n <= |buf| && IsTailOf(t, buf[n..])
    ensures IsTailOf(t, buf)
  {
    var k: nat :| k <= |buf[n..]| && t == buf[n..][k..];
    assert t == buf[n + k..];
  }

  lemma NothingWaits()
    ensures NextRequest([]) == Wait
  {}

  // What is kept is the end of the buffer, less than the limit, and holds no request; every request was dispatched with
  // the buffer from its first character on.
  ghost predicate Kept(buf: string, o: Outcome) {
    && |o.rest| < MAX_REQUEST_BUF_SIZE && NextRequest(o.rest) == Wait && IsTailOf(o.rest, buf)
    && forall d <- o.dispatched :: IsTailOf(d.json, buf) && NextRequest(d.json) == Request(d.toks)
  }

  lemma KeptMore(buf: string, toks: seq<Token>, n: nat, o: Outcome)
    requires n <= |buf| && NextRequest(buf) == Request(toks) && Kept(buf[n..], o)
    ensures Kept(buf, Outcome([Dispatch(buf, toks)] + o.dispatched, o.rest))
  {
    hide NextRequest, IsTailOf;
    TailOfSelf(buf);
    TailOfTail(o.rest, buf, n);
    forall d | d in o.dispatched ensures IsTailOf(d.json, buf) {
      TailOfTail(d.json, buf, n);
    }
  }

  lemma KeptNothing(buf: string, n: nat)
    requires n <= |buf|
    ensures Kept(buf[n..], Outcome([], []))
  {
    NothingWaits();
    hide NextRequest;
    assert buf[n..][|buf| - n..] == [];
  }

  lemma {:induction false} KeptIsShort(buf: string)
    ensures Kept(buf, Process(buf))
    decreases |buf|
  {
    match NextRequest(buf)
    case Drain =>
      hide NextRequest, Kept;
      KeptNothing(buf, 0);
      assert buf[0..] == buf;
    case Wait => TailOfSelf(buf);
    case Request(toks) =>
      RequestEnds(buf);
      hide NextRequest, Kept;
      var size := toks[0].end;
      if size >= |buf| {
        KeptNothing(buf, size);
        KeptMore(buf, toks, size, Outcome([], []));
      } else {
        KeptIsShort(buf[size..]);
        KeptMore(buf, toks, size, Process(buf[size..]));
      }
  }

  // ---------------------------------------------------------------- garbage

  lemma {:induction false} NoNulInBody(b: string)
    requires LegalBody(b)
    ensures '\0' !in b
    decreases |b|
  {
    if b != [] {
      var k := if b[0] != '\\' then 1 else if IsEscape(b[1]) then 2 else 6;
      NoNulInBody(b[k..]);
      assert b == b[..k] + b[k..];
    }
  }

  lemma {:induction false} NoNul(v: Value)
    requires Legal(v)
    ensures '\0' !in Text(v)
    decreases v, 1
  {
    match v
    case Prim(t) =>
    case Str(b) => NoNulInBody(b);
    case Arr(ws, es) => NoNulInElems(es);
    case Obj(ws, ms) => NoNulInMembers(ms);
  }

  lemma {:induction false} NoNulInElems(es: Elems)
    requires LegalElems(es)
    ensures '\0' !in ElemsText(es)
    decreases es, 0
  {
    if es.Elem? {
      NoNul(es.value);
      NoNulInElems(es.rest);
    }
  }

  lemma {:induction false} NoNulInMembers(ms: Members)
    requires LegalMembers(ms)
    ensures '\0' !in MembersText(ms)
    decreases ms, 0
  {
    if ms.Member? {
      NoNulInBody(ms.key);
      NoNul(ms.value);
      NoNulInMembers(ms.rest);
    }
  }

  lemma {:induction false} NoNulInStream(s: Stream)
    requires LegalStream(s)
    ensures '\0' !in StreamText(s)
  {
    if s.Then? {
      NoNul(s.root);
      NoNulInStream(s.rest);
    }
  }

  // What can be counted up to p is counted the same when more follows.
  lemma {:induction false} CountAhead(js: string, p: nat, pos: nat, n: nat)
    requires pos <= p <= |js| && '\0' !in js[..p] && Count(js[..p], pos, n).Total?
    ensures Count(js, pos, n) == Count(js, p, Count(js[..p], pos, n).n)
    decreases p - pos
  {
    var t := js[..p];
    if pos < p {
      var c := t[pos];
      assert c == js[pos] && c in t;
      if c in {'{', '['} {
        CountAhead(js, p, pos + 1, n + 1);
      } else if c in {'}', ']', ':', ','} || IsSpace(c) {
        CountAhead(js, p, pos + 1, n);
      } else if c == '"' {
        StringAhead(js, p, pos + 1);
        CountAhead(js, p, ScanString(t, pos + 1).pos + 1, n + 1);
      } else {
        PrimitiveAhead(js, p, pos);
        PrimitiveAdvances(t, pos);
        CountAhead(js, p, ScanPrimitive(t, pos).pos, n + 1);
      }
    }
  }

  lemma StringAhead(js: string, p: nat, pos: nat)
    requires pos <= p <= |js| && ScanString(js[..p], pos).Ends?
    ensures ScanString(js, pos) == ScanString(js[..p], pos)
  {
    hide ScanString;
    var t := js[..p];
    var e := ScanString(t, pos).pos;
    StringEnds(t, pos);
    assert t[pos..e] == js[pos..e];
    AtChar(js, e, '"');
    ScanLegalBody(js, pos, js[pos..e]);
  }

  lemma PrimitiveAhead(js: string, p: nat, pos: nat)
    requires pos <= p <= |js| && ScanPrimitive(js[..p], pos).Ends?
    ensures ScanPrimitive(js, pos) == ScanPrimitive(js[..p], pos)
  {
    hide ScanPrimitive;
    var t := js[..p];
    var e := ScanPrimitive(t, pos).pos;
    PrimitiveEnds(t, pos);
    forall c | c in js[pos..e] ensures IsPrintable(c) && !EndsPrimitive(c) {
      var i :| 0 <= i < e - pos && js[pos..e][i] == c;
      assert js[pos + i] == t[pos + i];
    }
    ScanLegalPrim(js, pos, js[pos..e]);
  }

  // A character that starts nothing, or a string with a bad escape, behind any number of complete texts: the whole buffer
  // is thrown away, and none of these texts is dispatched.
  lemma GarbageDrainsAll(s: Stream, rest: string)
    requires LegalStream(s) && rest != []
    requires StartsNothing(rest[0]) || (rest[0] == '"' && HasBadEscape(StreamText(s) + rest, |StreamText(s)| + 1))
    ensures Process(StreamText(s) + rest) == Outcome([], [])
  {
    var t := StreamText(s);
    var js := t + rest;
    assert js[..|t|] == t && js[|t|] == rest[0];
    TokenizesStream(s);
    NoNulInStream(s);
    hide StreamText, LegalStream;
    CountAhead(js, |t|, 0, 0);
    StringInvalid(js, |t| + 1);
    hide ScanString, HasBadEscape;
  }

  // ---------------------------------------------------------------- the pipe closed and opened again

  // Callbacks that read from the pipe, then one that gets to the end of file or an error.
  datatype Session = Session(stream: Stream, callbacks: seq<seq<Read>>, final: seq<Read>, ends: Read)

  function Delivered(x: Session): seq<string> {
    AllChunks(x.callbacks) + Chunks(x.final)
  }

  // Each session reads the beginning of some stream, cut off anywhere.
  ghost predicate IsSession(x: Session) {
    && (x.ends.Failed? || x.ends.Eof?) && LegalStream(x.stream)
    && (forall rs | rs in x.callbacks :: StaysOpen(rs)) && StaysOpen(x.final) && (forall r | r in x.final :: !r.WouldBlock?)
    && Continues(x.stream, 0, Delivered(x)) && Bounded(x.stream, 0, Delivered(x))
  }

  function Reads(x: Session): seq<seq<Read>> {
    x.callbacks + [x.final + [x.ends]]
  }

  function AllReads(xs: seq<Session>): seq<seq<Read>> {
    if xs == [] then [] else Reads(xs[0]) + AllReads(xs[1..])
  }

  // The texts that are answered over all sessions.
  function AnsweredIn(xs: seq<Session>): seq<Value> {
    if xs == [] then [] else Answered(xs[0].stream, 0, Delivered(xs[0])) + AnsweredIn(xs[1..])
  }

  lemma {:induction false} ClosingDelivers(st: PipeState, rs: seq<Read>, r: Read)
    requires StaysOpen(rs) && (forall q | q in rs :: !q.WouldBlock?) && (r.Failed? || r.Eof?)
    ensures AfterReads(st, rs + [r]) == PipeState([], DeliverAll(st, Chunks(rs)).log)
    decreases |rs|
  {
    hide Deliver;
    if rs != [] {
      assert rs[0] in rs && forall q | q in rs[1..] :: q in rs;
      assert (rs + [r])[0] == rs[0] && (rs + [r])[1..] == rs[1..] + [r];
      ClosingDelivers(if rs[0].Data? then Deliver(st, rs[0].bytes) else st, rs[1..], r);
    } else {
      assert rs + [r] == [r];
    }
  }

  lemma {:induction false} CallbacksJoin(st: PipeState, a: seq<seq<Read>>, b: seq<seq<Read>>)
    ensures AfterCallbacks(st, a + b) == AfterCallbacks(AfterCallbacks(st, a), b)
    decreases |a|
  {
    hide AfterReads;
    if a == [] {
      assert a + b == b;
    } else {
      assert (a + b)[1..] == a[1..] + b;
      CallbacksJoin(AfterReads(st, a[0]), a[1..], b);
    }
  }

  // One session leaves an empty buffer, whatever it was cut off in.
  lemma SessionDelivers(log: seq<Dispatch>, x: Session)
    requires IsSession(x)
    ensures |Concat(Delivered(x))| <= |StreamText(x.stream)| && LegalStream(x.stream)
    ensures AfterCallbacks(PipeState([], log), Reads(x)) == PipeState([], log + Logged(FramesFrom(x.stream, 0, Delivered(x))))
  {
    hide AfterReads, DeliverAll, Logged, FramesFrom, Bounded, LegalStream;
    var st, last := PipeState([], log), x.final + [x.ends];
    CallbacksJoin(st, x.callbacks, [last]);
    CallbacksDeliver(st, x.callbacks);
    var mid := AfterCallbacks(st, x.callbacks);
    assert [last][1..] == [] && AfterCallbacks(mid, [last]) == AfterReads(mid, last);
    ClosingDelivers(mid, x.final, x.ends);
    DeliverAllJoins(st, AllChunks(x.callbacks), Chunks(x.final));
    assert StreamText(x.stream)[..0] == [];
    FramingFrom(x.stream, 0, Delivered(x), log);
  }

  // Over any number of sessions, an unfinished request of one has no part in the next: the dispatches are those of the texts
  // that each of them answers, in order.
  lemma {:induction false} SessionsFramed(log: seq<Dispatch>, xs: seq<Session>)
    requires forall x <- xs :: IsSession(x)
    ensures var r := AfterCallbacks(PipeState([], log), AllReads(xs));
      r.buf == [] && log <= r.log && Dispatches(r.log[|log|..], AnsweredIn(xs))
    decreases |xs|
  {
    hide AfterReads, IsRequestFor, Logged, FramesFrom, Answered, IsSession, Reads;
    if xs != [] {
      var x, st := xs[0], PipeState([], log);
      assert x in xs && forall y | y in xs[1..] :: y in xs;
      SessionDelivers(log, x);
      SessionInOrder(x);
      var one := Logged(FramesFrom(x.stream, 0, Delivered(x)));
      CallbacksJoin(st, Reads(x), AllReads(xs[1..]));
      SessionsFramed(log + one, xs[1..]);
      var r := AfterCallbacks(st, AllReads(xs));
      assert r.log[|log|..] == one + r.log[|log + one|..];
      DispatchesJoin(one, r.log[|log + one|..], Answered(x.stream, 0, Delivered(x)), AnsweredIn(xs[1..]));
    }
  }

  lemma SessionInOrder(x: Session)
    requires IsSession(x)
    ensures |Concat(Delivered(x))| <= |StreamText(x.stream)|
    ensures Dispatches(Logged(FramesFrom(x.stream, 0, Delivered(x))), Answered(x.stream, 0, Delivered(x)))
  {
    FramesInOrder(x.stream, 0, Delivered(x));
  }

  // A complete request that shares its read with the beginning of another one is lost with it at the end of file.
  lemma LostWithTheNext(v: Value, w: Value, k: nat)
    requires v.IsContainer() && Legal(v) && w.IsContainer() && Legal(w) && 0 < k < |Text(w)|
    ensures var s := Then("", v, Then("", w, End("")));
      Answered(s, 0, [Text(v) + Text(w)[..k]]) == [] && RootsIn(s, |Text(v)| + k) == [v]
  {
    hide Text, Legal;
    var s, c := Then("", v, Then("", w, End(""))), Text(v) + Text(w)[..k];
    assert Inside(s.rest, k) && Inside(s, |Text(v)| + k);
    assert [c][1..] == [] && |c| == |Text(v)| + k;
    assert RootsIn(s.rest, k) == [];
  }
}
