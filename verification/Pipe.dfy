// The framing loop of the command pipe (core/pipe.c, lgtd_command_pipe_read_callback).
module Pipe {
  import opened Jsmn
  import opened Json
  import opened JsmnGrammar
  import opened JsmnTheorems
  import JsmnParser

  // LGTD_CLIENT_MAX_REQUEST_BUF_SIZE
  const MAX_REQUEST_BUF_SIZE := 4096

  // One call of lgtd_jsonrpc_dispatch_request(): the buffer and the tokens it is given.
  datatype Dispatch = Dispatch(json: string, toks: seq<Token>)

  // ---------------------------------------------------------------- bounds of tokens

  // The tokens of a successful pass are all closed and inside of the buffer, and only strings may be empty.
  lemma {:induction false} FilledInBounds(js: string, cap: nat, st: State)
    requires st.Valid() && AllPlaced(js, st)
    ensures var f := Fill(js, cap, st);
      f.Tokens? ==> forall i | 0 <= i < |f.toks| :: f.toks[i].end != -1 && Placed(js, 0, f.toks[i])
    decreases |js| - st.pos
  {
    hide StepAt, ScanPrimitive, ScanString;
    if More(js, st.pos) {
      var r := StepAt(js, cap, st);
      StepPlaced(js, cap, st);
      if r.Next? { FilledInBounds(js, cap, r.state); }
    }
  }

  // ---------------------------------------------------------------- one request

  // What the two parses of the buffer lead to.
  datatype Next = Request(toks: seq<Token>) | Wait | Drain

  function NextRequest(buf: string): (r: Next)
    ensures r.Request? ==> r.toks != []
  {
    var waiting := if |buf| >= MAX_REQUEST_BUF_SIZE then Drain else Wait;
    match Count(buf, 0, 0)
    case Miscounted(e) => if e == Partial then waiting else Drain
    case Total(n) =>
      if n == 0 then waiting
      else
        match Fill(buf, n, START)
        case Refused(e) => if e == Partial then waiting else Drain
        case Tokens(toks) => Lockstep(buf, n, START); Request(toks)
  }

  lemma RequestEnds(buf: string)
    requires NextRequest(buf).Request?
    ensures 1 <= NextRequest(buf).toks[0].end <= |buf|
  {
    var n := Count(buf, 0, 0).n;
    FilledInBounds(buf, n, START);
  }

  // ---------------------------------------------------------------- all requests of a buffer

  datatype Outcome = Outcome(dispatched: seq<Dispatch>, rest: string)

  // The requests are dispatched one after the other, each drained from the buffer; what is too big or
  // invalid is thrown away.
  function Process(buf: string): Outcome
    decreases |buf|
  {
    match NextRequest(buf)
    case Drain => Outcome([], [])
    case Wait => Outcome([], buf)
    case Request(toks) =>
      RequestEnds(buf);
      var size := toks[0].end;
      var o := if size >= |buf| then Outcome([], []) else Process(buf[size..]);
      Outcome([Dispatch(buf, toks)] + o.dispatched, o.rest)
  }

  datatype PipeState = PipeState(buf: string, log: seq<Dispatch>)

  // A read of some bytes.
  function Deliver(st: PipeState, chunk: string): PipeState {
    var o := Process(st.buf + chunk);
    PipeState(o.rest, st.log + o.dispatched)
  }

  function DeliverAll(st: PipeState, chunks: seq<string>): PipeState
    decreases |chunks|
  {
    if chunks == [] then st else DeliverAll(Deliver(st, chunks[0]), chunks[1..])
  }

  function Concat(chunks: seq<string>): string {
    if chunks == [] then [] else chunks[0] + Concat(chunks[1..])
  }

  // ---------------------------------------------------------------- the pipe

  datatype Read = Data(bytes: string) | Interrupted | WouldBlock | Failed | Eof

  function AfterReads(st: PipeState, rs: seq<Read>): PipeState
    decreases |rs|
  {
    if rs == [] then st
    else
      match rs[0]
      case Data(bytes) => AfterReads(Deliver(st, bytes), rs[1..])
      case Interrupted => AfterReads(st, rs[1..])
      case WouldBlock => st
      case _ => PipeState([], st.log)
  }

  class CommandPipe {
    var readBuf: string
    var log: seq<Dispatch>

    ghost function State(): PipeState
      reads this
    {
      PipeState(readBuf, log)
    }

    constructor ()
      ensures State() == PipeState([], [])
    {
      readBuf, log := [], [];
    }

    // Count the tokens of the buffer, then write them.
    method ParseRequest() returns (rv: int, tokens: array?<Token>)
      ensures var next := NextRequest(readBuf);
        && (next.Request? <==> rv > 0)
        && (rv > 0 ==> tokens != null && rv <= tokens.Length && next == Request(tokens[..rv]))
        && (rv == JsmnParser.ERROR_NOMEM || rv == JsmnParser.ERROR_INVAL ==> next == Drain)
        && (rv == JsmnParser.ERROR_PART || rv == 0 ==>
              next == if |readBuf| >= MAX_REQUEST_BUF_SIZE then Drain else Wait)
      ensures rv in {JsmnParser.ERROR_NOMEM, JsmnParser.ERROR_INVAL, JsmnParser.ERROR_PART} || rv >= 0
    {
      tokens := null;
      var parser := new JsmnParser.Parser();
      rv := parser.Parse(readBuf, tokens, 0);
      if rv > 0 {
        var n := rv;
        tokens := new Token[n];
        parser := new JsmnParser.Parser();
        rv := parser.Parse(readBuf, tokens, n);
        Lockstep(readBuf, n, START);
      }
    }

    // Dispatch and drain the requests of the buffer; true if what is left must be thrown away.
    method ProcessBuffer() returns (drain: bool)
      modifies this
      ensures drain ==> Process(old(readBuf)).rest == []
      ensures drain ==> State() == PipeState(readBuf, old(log) + Process(old(readBuf)).dispatched)
      ensures !drain ==> State() == PipeState(Process(old(readBuf)).rest, old(log) + Process(old(readBuf)).dispatched)
    {
      while true
        invariant log + Process(readBuf).dispatched == old(log) + Process(old(readBuf)).dispatched
        invariant Process(readBuf).rest == Process(old(readBuf)).rest
        decreases |readBuf|
      {
        var rv, tokens := ParseRequest();
        if rv == JsmnParser.ERROR_NOMEM || rv == JsmnParser.ERROR_INVAL {
          return true;
        } else if rv == JsmnParser.ERROR_PART || rv == 0 {
          return |readBuf| >= MAX_REQUEST_BUF_SIZE;
        }
        RequestEnds(readBuf);
        ghost var o := Process(readBuf);
        var bufsz, requestSize := |readBuf|, tokens[0].end;
        log := log + [Dispatch(readBuf, tokens[..rv])];
        readBuf := readBuf[requestSize..];
        if requestSize >= bufsz {
          return false;
        }
      }
    }

    // lgtd_command_pipe_read_callback(): reads until there is nothing left to read.  At the end of file and
    // on errors the pipe is closed and opened again.
    method ReadCallback(rs: seq<Read>)
      requires rs != [] && rs[|rs| - 1] in {WouldBlock, Failed, Eof}
      modifies this
      ensures State() == AfterReads(old(State()), rs)
    {
      var i := 0;
      while true
        invariant 0 <= i < |rs|
        invariant AfterReads(State(), rs[i..]) == AfterReads(old(State()), rs)
        decreases |rs| - i
      {
        var nbytes := rs[i];
        i := i + 1;
        assert rs[i - 1..][1..] == rs[i..];
        if nbytes.WouldBlock? {
          return;
        } else if nbytes.Failed? || nbytes.Eof? {
          break;
        } else if nbytes.Data? {
          readBuf := readBuf + nbytes.bytes;
          var drain := ProcessBuffer();
          if drain {
            readBuf := [];
          }
        }
      }
      readBuf := [];
    }
  }
}
