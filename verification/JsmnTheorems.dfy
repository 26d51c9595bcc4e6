// What the tokenizer promises: the flat token array means exactly the trees that were written, the two
// passes agree, and a stream that is cut off is partial (core/jsmn.c).
module JsmnTheorems {
  import opened Jsmn
  import opened Json
  import opened JsmnGrammar
  import opened JsmnPrefix

  // ---------------------------------------------------------------- whole streams

  // Between two texts: nothing is open.
  ghost predicate Between(st: State) {
    st.super == -1 && AllClosed(st.toks)
  }

  lemma {:induction false} FillStreamFrom(js: string, cap: nat, st: State, s: Stream)
    requires Between(st) && LegalStream(s) && |st.toks| + |FlattenStream(s, st.pos)| <= cap
    requires At(js, st.pos, StreamText(s)) && st.pos + |StreamText(s)| == |js|
    ensures Fill(js, cap, st) == Tokens(st.toks + FlattenStream(s, st.pos))
    decreases s
  {
    hide Fill, StepAt, Space, Legal, Text, Flatten;
    match s
    case End(ws) =>
      FillSpace(js, cap, st, ws);
      FillDone(js, cap, st.(pos := |js|));
    case Then(ws, v, rest) =>
      AtSplit(js, st.pos, ws, Text(v) + StreamText(rest));
      AtSplit(js, st.pos + |ws|, Text(v), StreamText(rest));
      FillSpace(js, cap, st, ws);
      var s1 := st.(pos := st.pos + |ws|);
      FillRoot(js, cap, s1, v);
      var s2 := State(s1.pos + |Text(v)|, st.toks + Flatten(v, s1.pos), -1);
      FillStreamFrom(js, cap, s2, rest);
      assert st.toks + Flatten(v, s1.pos) + FlattenStream(rest, s2.pos)
        == st.toks + (Flatten(v, s1.pos) + FlattenStream(rest, s2.pos));
  }

  lemma FillDone(js: string, cap: nat, st: State)
    requires Between(st) && st.pos == |js|
    ensures Fill(js, cap, st) == Tokens(st.toks)
  {}

  // A text at the top leaves nothing open.
  lemma FillRoot(js: string, cap: nat, st: State, v: Value)
    requires Between(st) && Legal(v) && v.IsContainer() && At(js, st.pos, Text(v))
    requires |st.toks| + |Flatten(v, st.pos)| <= cap
    ensures var after := State(st.pos + |Text(v)|, st.toks + Flatten(v, st.pos), -1);
      Between(after) && Fill(js, cap, st) == Fill(js, cap, after)
  {
    hide Fill, StepAt, At, Text, Flatten, Legal;
    assert LastOpen(st.toks) == -1;
    FillValue(js, cap, st, v);
    FlattenClosed(v, st.pos);
  }

  // For every sequence of legal texts rooted at an object or array, written in any legal way, the filling
  // pass gives exactly the preorder flattening of the trees.
  lemma FillIsFlatten(s: Stream, cap: nat)
    requires LegalStream(s) && |FlattenStream(s, 0)| <= cap
    ensures Fill(StreamText(s), cap, START) == Tokens(FlattenStream(s, 0))
  {
    FillStreamFrom(StreamText(s), cap, START, s);
    assert [] + FlattenStream(s, 0) == FlattenStream(s, 0);
  }

  // ---------------------------------------------------------------- the two passes

  // On any input whatever, the two passes run in lockstep: as long as filling goes on it has written as many
  // tokens as counting has counted.
  lemma {:induction false} Lockstep(js: string, cap: nat, st: State)
    requires st.Valid()
    ensures var c, f := Count(js, st.pos, |st.toks|), Fill(js, cap, st);
      && (c.Total? ==> |st.toks| <= c.n)
      && (f.Tokens? ==> c == Total(|f.toks|))
      && (f == Refused(Partial) ==> c.Total? || c == Miscounted(Partial))
      && (c.Total? && c.n <= cap ==> f != Refused(NoMemory))
    decreases |js| - st.pos
  {
    CountMonotone(js, st.pos, |st.toks|);
    if More(js, st.pos) {
      var r := StepAt(js, cap, st);
      CountStep(js, cap, st);
      if r.Next? {
        Lockstep(js, cap, r.state);
      }
    }
  }

  // One turn of the loop in both passes.
  lemma CountStep(js: string, cap: nat, st: State)
    requires st.Valid() && More(js, st.pos)
    ensures var r, c := StepAt(js, cap, st), Count(js, st.pos, |st.toks|);
      if r.Next? then c == Count(js, r.state.pos, |r.state.toks|)
      else if r.error == NoMemory then c.Total? ==> cap < c.n
      else r.error == Invalid || c == Miscounted(r.error)
  {
    if StepAt(js, cap, st) == Stop(NoMemory) {
      CountGrows(js, cap, st);
    }
  }

  lemma {:induction false} CountMonotone(js: string, pos: nat, n: nat)
    ensures var c := Count(js, pos, n); c.Total? ==> n <= c.n
    decreases |js| - pos
  {
    if More(js, pos) {
      var c := js[pos];
      if c in {'{', '['} { CountMonotone(js, pos + 1, n + 1); }
      else if c in {'}', ']', ':', ','} || IsSpace(c) { CountMonotone(js, pos + 1, n); }
      else if c == '"' {
        var r := ScanString(js, pos + 1);
        if r.Ends? { CountMonotone(js, r.pos + 1, n + 1); }
      } else if StartsPrimitive(c) {
        var r := ScanPrimitive(js, pos);
        PrimitiveAdvances(js, pos);
        if r.Ends? { CountMonotone(js, r.pos, n + 1); }
      }
    }
  }

  // Where filling runs out of room, counting goes past it.
  lemma CountGrows(js: string, cap: nat, st: State)
    requires st.Valid() && More(js, st.pos) && StepAt(js, cap, st) == Stop(NoMemory)
    ensures var c := Count(js, st.pos, |st.toks|); c.Total? ==> cap < c.n
  {
    var pos, n := st.pos, |st.toks|;
    var c := js[pos];
    if c in {'{', '['} {
      CountMonotone(js, pos + 1, n + 1);
    } else if c == '"' {
      CountMonotone(js, ScanString(js, pos + 1).pos + 1, n + 1);
    } else {
      PrimitiveAdvances(js, pos);
      CountMonotone(js, ScanPrimitive(js, pos).pos, n + 1);
    }
  }

  // If counting returns n, filling with n slots returns n, invalid or partial: it never runs out of room.
  lemma CountedIsEnough(js: string, n: nat)
    requires Count(js, 0, 0) == Total(n)
    ensures var f := Fill(js, n, START);
      (f.Tokens? && |f.toks| == n) || f == Refused(Invalid) || f == Refused(Partial)
  {
    hide Fill, Count, StepAt;
    assert START.pos == 0 && |START.toks| == 0;
    Lockstep(js, n, START);
    var f := Fill(js, n, START);
    assert f.Tokens? || f.error.NoMemory? || f.error.Invalid? || f.error.Partial?;
  }

  // Once there is room enough, more room changes nothing.
  lemma {:induction false} MoreRoom(js: string, cap: nat, cap': nat, st: State)
    requires st.Valid() && cap <= cap' && Fill(js, cap, st) != Refused(NoMemory)
    ensures Fill(js, cap', st) == Fill(js, cap, st)
    decreases |js| - st.pos
  {
    if More(js, st.pos) {
      var r := StepAt(js, cap, st);
      if r.Next? { MoreRoom(js, cap, cap', r.state); }
    }
  }

  // ---------------------------------------------------------------- both passes on a stream

  // What jsmn_parse() returns and writes when it is called twice, first to count and then to fill.
  function TwoPasses(js: string): Filled {
    match Count(js, 0, 0)
    case Miscounted(e) => Refused(e)
    case Total(n) => Fill(js, n, START)
  }

  lemma TwoPassesAsFill(js: string, cap: nat)
    requires Fill(js, cap, START) !in {Refused(NoMemory), Refused(Invalid)}
    ensures TwoPasses(js) == Fill(js, cap, START)
  {
    hide Fill, Count, StepAt;
    assert START.pos == 0 && |START.toks| == 0;
    Lockstep(js, cap, START);
    var f := Fill(js, cap, START);
    assert f.Tokens? || f.error.Partial?;
    var c := Count(js, 0, 0);
    if c.Total? {
      CountedIsEnough(js, c.n);
      if c.n <= cap { MoreRoom(js, c.n, cap, START); } else { MoreRoom(js, cap, c.n, START); }
    }
  }

  lemma TokenizesStream(s: Stream)
    requires LegalStream(s)
    ensures TwoPasses(StreamText(s)) == Tokens(FlattenStream(s, 0))
    ensures Count(StreamText(s), 0, 0) == Total(|FlattenStream(s, 0)|)
  {
    var n := |FlattenStream(s, 0)|;
    FillIsFlatten(s, n);
    TwoPassesAsFill(StreamText(s), n);
    Lockstep(StreamText(s), n, START);
  }

  // ---------------------------------------------------------------- streams that are cut off

  // The first k characters end inside a text: after its first character and before its last.
  predicate Inside(s: Stream, k: nat) {
    s.Then? && k > |s.ws| && (k < |s.ws| + |Text(s.root)| || Inside(s.rest, k - |s.ws| - |Text(s.root)|))
  }

  // Otherwise they are a stream themselves.
  function Cut(s: Stream, k: nat): Stream
    requires !Inside(s, k) && k <= |StreamText(s)|
  {
    if k <= |s.ws| then End(s.ws[..k])
    else Then(s.ws, s.root, Cut(s.rest, k - |s.ws| - |Text(s.root)|))
  }

  lemma {:induction false} CutIsPrefix(s: Stream, k: nat)
    requires LegalStream(s) && k <= |StreamText(s)| && !Inside(s, k)
    ensures LegalStream(Cut(s, k)) && StreamText(Cut(s, k)) == StreamText(s)[..k]
  {
    if k <= |s.ws| {
      SpacePrefix(s.ws, k);
    } else {
      var n := k - |s.ws| - |Text(s.root)|;
      CutIsPrefix(s.rest, n);
      assert StreamText(s)[..k] == s.ws + (Text(s.root) + StreamText(s.rest)[..n]);
    }
  }

  lemma {:induction false} FillCutStream(js: string, cap: nat, st: State, s: Stream)
    requires Between(st) && LegalStream(s) && |st.toks| + |FlattenStream(s, st.pos)| <= cap
    requires CutAt(js, st.pos, StreamText(s)) && Inside(s, |js| - st.pos)
    ensures Fill(js, cap, st) == Refused(Partial)
    decreases s
  {
    hide Fill, StepAt, Space, Legal, Text, Flatten, CutAt, At;
    var ws, v, rest := s.ws, s.root, s.rest;
    CutSplitBounds(js, st.pos, s);
    CutSplit(js, st.pos, ws, Text(v) + StreamText(rest));
    FillSpace(js, cap, st, ws);
    var s1 := st.(pos := st.pos + |ws|);
    CutSplit(js, s1.pos, Text(v), StreamText(rest));
    if |js| < s1.pos + |Text(v)| {
      FillCutValue(js, cap, s1, v);
    } else {
      FillRoot(js, cap, s1, v);
      FillCutStream(js, cap, State(s1.pos + |Text(v)|, st.toks + Flatten(v, s1.pos), -1), rest);
    }
  }

  lemma CutSplitBounds(js: string, p: nat, s: Stream)
    requires CutAt(js, p, StreamText(s)) && s.Then?
    ensures p <= |js| && CutAt(js, p, s.ws + (Text(s.root) + StreamText(s.rest)))
  {}

  // Every prefix of a stream is either partial, when it ends inside a text, or the tokens of the texts that
  // are complete; it is never invalid.
  lemma TokenizesPrefix(s: Stream, k: nat)
    requires LegalStream(s) && k <= |StreamText(s)|
    ensures TwoPasses(StreamText(s)[..k]) ==
      if Inside(s, k) then Refused(Partial) else Tokens(FlattenStream(Cut(s, k), 0))
  {
    if Inside(s, k) {
      var js, n := StreamText(s)[..k], |FlattenStream(s, 0)|;
      assert js[0..] == StreamText(s)[..k];
      FillCutStream(js, n, START, s);
      TwoPassesAsFill(js, n);
    } else {
      CutIsPrefix(s, k);
      TokenizesStream(Cut(s, k));
    }
  }
}
