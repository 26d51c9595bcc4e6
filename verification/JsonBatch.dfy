// When a batch gets one answer per element (core/jsonrpc.c): an object of a batch is read with the tokens behind it
// in view, and left with a count that is made up from the keys that were found.
module JsonBatch {
  import opened Common
  import opened Jsmn
  import opened Json
  import opened JsmnGrammar
  import opened JsonRpc
  import opened JsonRpcDispatch

  // ---------------------------------------------------------------- an object with something behind it

  // The members ms start at token j.
  ghost predicate MembersAt(items: seq<Value>, j: nat, ms: Members) {
    j + MembersCount(ms) <= |items| && items[j..j + MembersCount(ms)] == ItemsOfMembers(ms)
  }

  lemma Split(items: seq<Value>, j: nat, a: seq<Value>, b: seq<Value>)
    requires j + |a + b| <= |items| && items[j..j + |a + b|] == a + b
    ensures items[j..j + |a|] == a && items[j + |a|..j + |a| + |b|] == b
  {
    assert items[j..j + |a|] == (a + b)[..|a|];
    assert items[j + |a|..j + |a| + |b|] == (a + b)[|a|..];
  }

  lemma FirstPair(ms: Members, items: seq<Value>, j: nat)
    requires ms.Member? && MembersAt(items, j, ms)
    ensures j + 1 < |items| && items[j] == Str(ms.key) && items[j + 1] == ms.value
    ensures var next := j + 1 + TokenCount(ms.value);
      next + MembersCount(ms.rest) == j + MembersCount(ms) && MembersAt(items, next, ms.rest)
  {
    hide Items, ItemsOfMembers, TokenCount, MembersCount;
    MembersItems(ms);
    var v, rest := Items(ms.value), ItemsOfMembers(ms.rest);
    Split(items, j, [Str(ms.key)], v + rest);
    Split(items, j + 1, v, rest);
    assert items[j] == items[j..j + 1][0] && items[j + 1] == items[j + 1..j + 1 + |v|][0];
  }

  lemma MembersItems(ms: Members)
    requires ms.Member?
    ensures ItemsOfMembers(ms) == [Str(ms.key)] + (Items(ms.value) + ItemsOfMembers(ms.rest))
    ensures MembersCount(ms) == 1 + TokenCount(ms.value) + MembersCount(ms.rest)
  {}

  // The members of an object are read as they are, and the loop goes on behind them.
  lemma {:induction false} OwnMembersFirst(schema: seq<Node>, ms: Members, items: seq<Value>, j: nat, slots: Slots)
    requires Fit(slots, schema) && MembersAt(items, j, ms)
    ensures var e, end := ExtractMembers(schema, ms, j, slots), j + MembersCount(ms);
      && ExtractPairs(schema, items, j, slots) == (if e.Accepted? then ExtractPairs(schema, items, end, e.slots) else e)
      && (e.Accepted? ==> ReadPairs(items, j).dangling == ReadPairs(items, end).dangling)
    decreases ms
  {
    hide ExtractPairs, FindKey, Allows, MembersAt, TokenCount;
    if ms.Member? {
      var n := TokenCount(ms.value);
      var next := j + 1 + n;
      FirstPair(ms, items, j);
      NextPair(schema, items, j, slots);
      var si := FindKey(schema, ms.key, 0);
      if si == |schema| {
        OwnMembersFirst(schema, ms.rest, items, next, slots);
      } else {
        OwnMembersFirst(schema, ms.rest, items, next, FillSlot(slots, schema[si], si, j + 1, n));
      }
    }
  }

  // ---------------------------------------------------------------- what the elements behind an object do to it

  // The elements es start at token j.
  ghost predicate ElemsAt(items: seq<Value>, j: nat, es: Elems) {
    j + ElemsCount(es) == |items| && items[j..] == ItemsOfElems(es)
  }

  lemma FirstItem(items: seq<Value>, j: nat, es: Elems)
    requires ElemsAt(items, j, es) && es.Elem?
    ensures j < |items| && items[j] == es.value && ElemsAt(items, j + TokenCount(es.value), es.rest)
    ensures j + TokenCount(es.value) == |items| <==> es.rest.NoElems?
    ensures items[j..] == Items(es.value) + ItemsOfElems(es.rest)
  {
    hide Items, TokenCount;
    var n := TokenCount(es.value);
    assert items[j] == items[j..][0] == Items(es.value)[0];
    assert items[j + n..] == items[j..][n..];
    NoElemsNoTokens(es.rest);
  }

  lemma NoElemsNoTokens(es: Elems)
    ensures ElemsCount(es) == 0 <==> es.NoElems?
  {}

  // The elements behind an object leave what it gave alone. As long as they start with a string, the dictionary loop
  // takes that string for a key and the next element for its value: a key of the request that is not filled gets
  // filled, a string that is the last element has no value, and a value that is refused makes an invalid request of a
  // complete one.
  predicate Quiet(es: Elems, slots: Slots)
    requires |slots.values| == 4
    decreases es
  {
    if es.NoElems? || !es.value.Str? then true
    else if es.rest.NoElems? then false
    else
      var key, value := es.value.body, es.rest.value;
      if key == "jsonrpc" then if value.Str? then Quiet(es.rest.rest, slots) else slots.values[METHOD].None?
      else if key == "method" then slots.values[METHOD].None? && !value.Str?
      else if key == "params" then slots.values[METHOD].None? && (slots.values[PARAMS].Some? || !value.IsContainer())
      else if key == "id" then
        slots.values[METHOD].None? && (slots.values[ID].Some? || !Allows(IsStringNumberOrNull, value))
      else Quiet(es.rest.rest, slots)
  }

  // What the dictionary loop is to come to behind the object: it stops with the same slots, or it refuses with them
  // and they were not enough anyway.
  ghost predicate Unchanged(items: seq<Value>, j: nat, slots: Slots)
    requires Fit(slots, REQUEST_SCHEMA)
  {
    var e := ExtractPairs(REQUEST_SCHEMA, items, j, slots);
    e.slots == slots && if e.Accepted? then !ReadPairs(items, j).dangling else slots.values[METHOD].None?
  }

  lemma SecondItem(items: seq<Value>, j: nat, es: Elems)
    requires ElemsAt(items, j, es) && es.Elem? && es.value.Str?
    ensures es.rest.NoElems? ==> j + 1 == |items|
    ensures es.rest.Elem? ==>
      && j + 1 < |items| && items[j + 1] == es.rest.value
      && ElemsAt(items, j + 1 + TokenCount(es.rest.value), es.rest.rest)
  {
    hide ElemsAt;
    FirstItem(items, j, es);
    if es.rest.Elem? {
      FirstItem(items, j + 1, es.rest);
    }
  }

  // Slots are only ever filled.
  ghost predicate Extends(a: Slots, b: Slots) {
    |a.values| == |b.values| && forall i | 0 <= i < |a.values| && a.values[i].Some? :: b.values[i] == a.values[i]
  }

  lemma {:induction false} SlotsExtend(items: seq<Value>, j: nat, slots: Slots)
    requires Fit(slots, REQUEST_SCHEMA)
    ensures Extends(slots, ExtractPairs(REQUEST_SCHEMA, items, j, slots).slots)
    decreases |items| - j
  {
    hide ExtractPairs, FindKey, Allows;
    if j + 1 < |items| && items[j].Str? {
      NextPair(REQUEST_SCHEMA, items, j, slots);
      var k, n := FindKey(REQUEST_SCHEMA, items[j].body, 0), TokenCount(items[j + 1]);
      if k == 4 {
        SlotsExtend(items, j + 1 + n, slots);
      } else {
        SlotsExtend(items, j + 1 + n, FillSlot(slots, REQUEST_SCHEMA[k], k, j + 1, n));
      }
    } else {
      NoPair(REQUEST_SCHEMA, items, j, slots);
    }
  }

  // A slot that gets filled stays filled.
  lemma FilledIsChanged(items: seq<Value>, j: nat, slots: Slots, k: nat, n: nat)
    requires Fit(slots, REQUEST_SCHEMA) && 1 <= k < 4 && slots.values[k].None?
    ensures ExtractPairs(REQUEST_SCHEMA, items, j + n, FillSlot(slots, REQUEST_SCHEMA[k], k, j, n)).slots != slots
  {
    SlotsExtend(items, j + n, FillSlot(slots, REQUEST_SCHEMA[k], k, j, n));
    hide ExtractPairs;
  }

  lemma {:induction false} QuietExact(es: Elems, items: seq<Value>, j: nat, slots: Slots)
    requires Fit(slots, REQUEST_SCHEMA) && ElemsAt(items, j, es)
    ensures Quiet(es, slots) <==> Unchanged(items, j, slots)
    decreases es
  {
    hide ElemsAt, ExtractPairs;
    if es.NoElems? || !es.value.Str? || es.rest.NoElems? {
      if es.Elem? { FirstItem(items, j, es); } else { NoItems(items, j, es); }
      NoPair(REQUEST_SCHEMA, items, j, slots);
    } else {
      FirstItem(items, j, es);
      SecondItem(items, j, es);
      QuietPair(es, items, j, slots);
    }
  }

  lemma NoItems(items: seq<Value>, j: nat, es: Elems)
    requires ElemsAt(items, j, es) && es.NoElems?
    ensures j == |items|
  {}

  lemma {:induction false} QuietPair(es: Elems, items: seq<Value>, j: nat, slots: Slots)
    requires Fit(slots, REQUEST_SCHEMA) && es.Elem? && es.value.Str? && es.rest.Elem?
    requires j + 1 < |items| && items[j] == es.value && items[j + 1] == es.rest.value
    requires ElemsAt(items, j + 1 + TokenCount(es.rest.value), es.rest.rest)
    ensures Quiet(es, slots) <==> Unchanged(items, j, slots)
    decreases es, 0
  {
    hide ElemsAt, ExtractPairs, FindKey;
    var key, value, n := es.value.body, es.rest.value, TokenCount(es.rest.value);
    SchemaKeys(key);
    NextPair(REQUEST_SCHEMA, items, j, slots);
    var k := FindKey(REQUEST_SCHEMA, key, 0);
    if k == 4 || k == 0 {
      QuietExact(es.rest.rest, items, j + 1 + n, slots);
    } else if slots.values[k].None? {
      FilledIsChanged(items, j + 1, slots, k, n);
    }
  }

  // ---------------------------------------------------------------- one object of a batch

  // The object is read as if it stood alone exactly when it is refused for its own members or the elements behind it
  // are quiet.
  predicate ReadAlone(ms: Members, es: Elems) {
    var e := ExtractMembers(REQUEST_SCHEMA, ms, 1, NoSlots(REQUEST_SCHEMA));
    e.Rejected? || Quiet(es, e.slots)
  }

  lemma ReadAloneExact(v: Value, es: Elems)
    requires v.Obj?
    ensures ReadDict(REQUEST_SCHEMA, Items(v) + ItemsOfElems(es)) == Read(Extract(REQUEST_SCHEMA, v.members))
       <==> ReadAlone(v.members, es)
  {
    hide ExtractPairs, ExtractMembers, ReadPairs, Complete, Quiet;
    var items, ms, none := Items(v) + ItemsOfElems(es), v.members, NoSlots(REQUEST_SCHEMA);
    var e, end := ExtractMembers(REQUEST_SCHEMA, ms, 1, none), 1 + MembersCount(ms);
    ObjectItems(v, es);
    OwnMembersFirst(REQUEST_SCHEMA, ms, items, 1, none);
    CompleteIsMethod(e.slots);
    if e.Accepted? {
      QuietExact(es, items, end, e.slots);
      CompleteIsMethod(ExtractPairs(REQUEST_SCHEMA, items, end, e.slots).slots);
    }
  }

  lemma ObjectItems(v: Value, es: Elems)
    requires v.Obj?
    ensures var items := Items(v) + ItemsOfElems(es);
      items[0] == v && MembersAt(items, 1, v.members) && ElemsAt(items, 1 + MembersCount(v.members), es)
  {
    hide ItemsOfMembers, ItemsOfElems, MembersCount, ElemsCount;
    var a, b := ItemsOfMembers(v.members), ItemsOfElems(es);
    assert Items(v) == [v] + a;
    assert ([v] + a + b)[1..1 + |a|] == a && ([v] + a + b)[1 + |a|..] == b;
  }

  // The method is the one value a request cannot do without.
  lemma CompleteIsMethod(slots: Slots)
    requires |slots.values| == 4
    ensures Complete(REQUEST_SCHEMA, slots) <==> slots.values[METHOD].Some?
  {
    assert !REQUEST_SCHEMA[METHOD].optional && REQUEST_SCHEMA[METHOD].keepsValue;
  }

  // ---------------------------------------------------------------- a whole batch

  function OwnExtraction(v: Value): Extraction {
    if v.Obj? then Extract(REQUEST_SCHEMA, v.members) else Rejected(NoSlots(REQUEST_SCHEMA))
  }

  // One visit per element, each of which reads that element and nothing else.
  function OwnVisits(es: Elems, ti: nat): seq<Visit> {
    if es.NoElems? then [] else [Visit(ti, OwnExtraction(es.value))] + OwnVisits(es.rest, ti + TokenCount(es.value))
  }

  // Every object is read alone, and counted right unless it is the last one, where too many tokens do no harm.
  predicate Fair(es: Elems) {
    es.Elem? ==>
      && (es.value.Obj? ==>
            && ReadAlone(es.value.members, es.rest)
            && (Extract(REQUEST_SCHEMA, es.value.members).Accepted? ==>
                  if es.rest.NoElems? then Uncounted(es.value.members) <= 2 else Uncounted(es.value.members) == 2))
      && Fair(es.rest)
  }

  // What is read at the first element.
  lemma FirstReading(items: seq<Value>, ti: nat, es: Elems)
    requires ElemsAt(items, ti, es) && es.Elem?
    ensures ti < |items|
    ensures ReadDict(REQUEST_SCHEMA, items[ti..]) == Read(OwnExtraction(es.value))
       <==> (es.value.Obj? ==> ReadAlone(es.value.members, es.rest))
  {
    hide ElemsAt, ReadAlone, Extract, Items, ItemsOfElems, ReadPairs, ExtractPairs;
    FirstItem(items, ti, es);
    if es.value.Obj? {
      hide ReadDict;
      ReadAloneExact(es.value, es.rest);
    }
  }

  // Whether the next visit is to the next element, if there is one.
  lemma NextVisit(es: Elems, ti: nat)
    requires es.Elem?
    ensures var n, c := Consumed(es.value, OwnExtraction(es.value)), TokenCount(es.value);
      es.value.Obj? && Extract(REQUEST_SCHEMA, es.value.members).Accepted? ==> n == c + 2 - Uncounted(es.value.members)
    ensures var n, c := Consumed(es.value, OwnExtraction(es.value)), TokenCount(es.value);
      !(es.value.Obj? && Extract(REQUEST_SCHEMA, es.value.members).Accepted?) ==> n == c
  {
    hide ExtractMembers, Uncounted, RequestNtokens;
    if es.value.Obj? && Extract(REQUEST_SCHEMA, es.value.members).Accepted? {
      RequestCountExact(es.value.members);
    }
  }

  lemma WalkUnfold(items: seq<Value>, ti: nat)
    ensures ti >= |items| ==> WalkBatch(items, ti) == Walk([], false)
    ensures ti < |items| ==>
      var r, w := ReadDict(REQUEST_SCHEMA, items[ti..]), WalkBatch(items, ti);
      if r.Overrun? then w == Walk([], true)
      else
        var rest := WalkBatch(items, ti + Consumed(items[ti], r.extraction));
        w == Walk([Visit(ti, r.extraction)] + rest.visits, rest.overrun)
  {
    hide ReadDict, Consumed;
  }

  // The loop visits the elements, one after the other, and reads nothing but them, exactly when the batch is fair.
  lemma {:induction false} FairExact(es: Elems, items: seq<Value>, ti: nat)
    requires ElemsAt(items, ti, es)
    ensures WalkBatch(items, ti) == Walk(OwnVisits(es, ti), false) <==> Fair(es)
    decreases es
  {
    hide ElemsAt, ReadDict, Consumed, ReadAlone, OwnExtraction, Uncounted, Extract, TokenCount, WalkBatch;
    WalkUnfold(items, ti);
    if es.NoElems? {
      NoItems(items, ti, es);
    } else {
      FirstItem(items, ti, es);
      FirstReading(items, ti, es);
      NextVisit(es, ti);
      var r := ReadDict(REQUEST_SCHEMA, items[ti..]);
      if r == Read(OwnExtraction(es.value)) {
        var next := ti + Consumed(es.value, r.extraction);
        var w := WalkBatch(items, next);
        assert WalkBatch(items, ti).visits[1..] == w.visits;
        assert OwnVisits(es, ti)[1..] == OwnVisits(es.rest, ti + TokenCount(es.value));
        var after := ti + TokenCount(es.value);
        WalkUnfold(items, next);
        if es.rest.NoElems? {
          assert (w.visits == [] && !w.overrun) <==> next >= |items|;
        } else if next == after {
          FairExact(es.rest, items, after);
        } else {
          assert OwnVisits(es.rest, after)[0].at == after;
          assert w.visits == [] || w.visits[0].at == next;
        }
      } else {
        FirstVisits(es, items, ti);
      }
    }
  }

  lemma FirstVisits(es: Elems, items: seq<Value>, ti: nat)
    requires es.Elem? && ti < |items| && ReadDict(REQUEST_SCHEMA, items[ti..]) != Read(OwnExtraction(es.value))
    ensures WalkBatch(items, ti) != Walk(OwnVisits(es, ti), false)
  {
    hide ReadDict, OwnExtraction, Consumed;
    var r := ReadDict(REQUEST_SCHEMA, items[ti..]);
    if r.Read? {
      assert WalkBatch(items, ti).visits[0] == Visit(ti, r.extraction);
      assert OwnVisits(es, ti)[0] == Visit(ti, OwnExtraction(es.value));
    }
  }

  // ---------------------------------------------------------------- one act per element

  // What a value comes to by itself.
  function OwnAct(v: Value): Act {
    Decide(Items(v), OwnExtraction(v))
  }

  function OwnActs(es: Elems): (acts: seq<Act>)
    ensures |acts| == Length(es)
  {
    if es.NoElems? then [] else [OwnAct(es.value)] + OwnActs(es.rest)
  }

  // The values of a request are its own.
  lemma OwnSlots(v: Value)
    ensures RequestSlots(Items(v), OwnExtraction(v).slots)
  {
    if v.Obj? {
      ReadAloneExact(v, NoElems);
      assert Items(v) + ItemsOfElems(NoElems) == Items(v);
      SlotsOfRequest(Items(v));
    }
  }

  lemma DecideAlone(v: Value, after: seq<Value>)
    ensures Decide(Items(v) + after, OwnExtraction(v)) == OwnAct(v)
  {
    OwnSlots(v);
    hide Items, OwnExtraction, Allows;
    var slots := OwnExtraction(v).slots;
    assert forall k: nat | k < 4 :: ItemAt(Items(v) + after, Slot(slots, k)) == ItemAt(Items(v), Slot(slots, k));
  }

  lemma {:induction false} OwnVisitsAct(es: Elems, items: seq<Value>, ti: nat)
    requires ElemsAt(items, ti, es)
    ensures Acts(items, OwnVisits(es, ti)) == OwnActs(es)
    decreases es
  {
    hide ElemsAt, Decide, OwnExtraction, Items, TokenCount, ItemsOfElems;
    if es.Elem? {
      FirstItem(items, ti, es);
      DecideAlone(es.value, ItemsOfElems(es.rest));
      assert OwnVisits(es, ti)[1..] == OwnVisits(es.rest, ti + TokenCount(es.value));
      OwnVisitsAct(es.rest, items, ti + TokenCount(es.value));
    }
  }

  function Append(es: Elems, fs: Elems): Elems {
    if es.NoElems? then fs else Elem(es.pre, es.value, es.post, Append(es.rest, fs))
  }

  lemma {:induction false} ItemsOfAppend(es: Elems, fs: Elems)
    ensures ItemsOfElems(Append(es, fs)) == ItemsOfElems(es) + ItemsOfElems(fs)
    decreases es
  {
    if es.Elem? {
      ItemsOfAppend(es.rest, fs);
    }
  }

  lemma {:induction false} OwnActsOfAppend(es: Elems, fs: Elems)
    ensures OwnActs(Append(es, fs)) == OwnActs(es) + OwnActs(fs)
    decreases es
  {
    hide OwnAct;
    if es.Elem? {
      OwnActsOfAppend(es.rest, fs);
    }
  }

  // An array in front of other texts of the same buffer, which the loop takes for elements: with all of them fair,
  // every one is answered, in order, and no token behind the last one is read.
  lemma BatchAnswered(v: Value, texts: Elems)
    requires v.Arr? && v.elems.Elem? && Fair(Append(v.elems, texts))
    ensures AnswerTo(Items(v) + ItemsOfElems(texts)) == Batch(OwnActs(v.elems) + OwnActs(texts), false)
  {
    hide Fair, WalkBatch, Acts, OwnActs, OwnVisits, ItemsOfElems;
    var items, es := Items(v) + ItemsOfElems(texts), Append(v.elems, texts);
    ItemsOfAppend(v.elems, texts);
    assert items[1..] == ItemsOfElems(es);
    FairExact(es, items, 1);
    OwnVisitsAct(es, items, 1);
    OwnActsOfAppend(v.elems, texts);
  }

  // An object in front of other texts is read alone: a text does not start with a string.
  lemma ObjectAnswered(v: Value, texts: Elems)
    requires v.Obj? && (texts.Elem? ==> !texts.value.Str?)
    ensures AnswerTo(Items(v) + ItemsOfElems(texts)) == Single(OwnAct(v))
  {
    hide ReadDict, Decide, Extract;
    var items := Items(v) + ItemsOfElems(texts);
    ReadAloneExact(v, texts);
    DecideAlone(v, ItemsOfElems(texts));
    if v.members.NoMembers? {
      EmptyObject(v);
    }
  }

  lemma EmptyObject(v: Value)
    requires v.Obj? && v.members.NoMembers?
    ensures OwnAct(v) == BadRequest(None)
  {
    CompleteIsMethod(NoSlots(REQUEST_SCHEMA));
  }

  // A batch alone: one act per element of the array exactly as if each were sent by itself.
  lemma OneActPerElement(v: Value)
    requires v.Arr? && v.elems.Elem? && Fair(v.elems)
    ensures AnswerTo(Items(v)) == Batch(OwnActs(v.elems), false)
  {
    hide Fair, AnswerTo, OwnActs;
    NothingBehind(v.elems);
    BatchAnswered(v, NoElems);
    assert Items(v) + ItemsOfElems(NoElems) == Items(v);
  }

  lemma {:induction false} NothingBehind(es: Elems)
    ensures Append(es, NoElems) == es && OwnActs(es) + OwnActs(NoElems) == OwnActs(es)
  {
    if es.Elem? { NothingBehind(es.rest); }
  }

  // Objects with the keys of a request only, jsonrpc once, and a string or number as id.
  predicate Plain(v: Value) {
    v.Obj? && OnlyRequestKeys(v.members) && ScalarIds(v.members) && Occurrences(v.members, "jsonrpc") == 1
  }

  predicate PlainOrArray(es: Elems) {
    es.Elem? ==> (Plain(es.value) || es.value.Arr?) && PlainOrArray(es.rest)
  }

  // Batches of plain requests, and arrays among them, are fair.
  lemma {:induction false} PlainOrArrayIsFair(es: Elems)
    requires PlainOrArray(es)
    ensures Fair(es)
  {
    hide Extract, ExtractMembers;
    if es.Elem? {
      if es.value.Obj? {
        UncountedIsJsonrpc(es.value.members);
      }
      PlainOrArrayIsFair(es.rest);
    }
  }

  // ---------------------------------------------------------------- token indices

  lemma {:induction false} DanglingIsLast(items: seq<Value>, j: nat)
    requires ReadPairs(items, j).dangling
    ensures items != [] && items[|items| - 1].Str?
    decreases |items| - j
  {
    hide TokenCount;
    if j + 1 < |items| {
      DanglingIsLast(items, j + 1 + TokenCount(items[j + 1]));
    }
  }

  // Whatever the tokens are, the loops stay inside of them unless the last one is a string.
  lemma {:induction false} StaysInside(items: seq<Value>, ti: nat)
    requires WalkBatch(items, ti).overrun
    ensures items[|items| - 1].Str?
    decreases |items| - ti
  {
    hide TokenCount, ExtractPairs, ReadPairs, Consumed;
    WalkUnfold(items, ti);
    var r := ReadDict(REQUEST_SCHEMA, items[ti..]);
    if r.Overrun? {
      DanglingIsLast(items[ti..], 1);
    } else {
      StaysInside(items, ti + Consumed(items[ti], r.extraction));
    }
  }

  // ---------------------------------------------------------------- what goes wrong

  const POWER_ON: Value := Obj("", Member("", "jsonrpc", "", "", Str("2.0"), "",
      Member("", "method", "", "", Str("power_on"), "", NoMembers)))

  const POWERED: Slots := Slots([None, Some(4), None, None], [0, 0, 0, 0])

  lemma PowerOnSlots()
    ensures ExtractMembers(REQUEST_SCHEMA, POWER_ON.members, 1, NoSlots(REQUEST_SCHEMA)) == Accepted(POWERED)
    ensures MembersCount(POWER_ON.members) == 4
  {
    var m2 := Member("", "method", "", "", Str("power_on"), "", NoMembers);
    var s0 := NoSlots(REQUEST_SCHEMA);
    SchemaKeys("jsonrpc");
    SchemaKeys("method");
    assert s0 == Slots([None, None, None, None], [0, 0, 0, 0]);
    assert FillSlot(s0, REQUEST_SCHEMA[0], 0, 2, 1) == s0;
    assert FillSlot(s0, REQUEST_SCHEMA[METHOD], METHOD, 4, 1) == POWERED;
    assert ExtractMembers(REQUEST_SCHEMA, m2, 3, s0) == Accepted(POWERED);
    assert ExtractMembers(REQUEST_SCHEMA, POWER_ON.members, 1, s0) == ExtractMembers(REQUEST_SCHEMA, m2, 3, s0);
  }

  lemma PowerOnAct()
    ensures OwnAct(POWER_ON) == Run(Call("power_on", None, None))
  {
    PowerOnSlots();
    CompleteIsMethod(POWERED);
    var m2 := Member("", "method", "", "", Str("power_on"), "", NoMembers);
    assert ItemsOfMembers(m2) == [Str("method"), Str("power_on")];
    assert ItemsOfMembers(POWER_ON.members) == [Str("jsonrpc"), Str("2.0")] + ItemsOfMembers(m2);
    assert Items(POWER_ON)[4] == Str("power_on");
    assert METHODS[0] == "power_on";
  }

  const ID_AND_FIVE: Elems := Elem("", Str("id"), "", Elem("", Prim("5"), "", NoElems))

  const POWERED_WITH_ID: Slots := Slots([None, Some(4), None, Some(6)], [0, 0, 0, 0])

  lemma IdIsTaken()
    ensures var ahead := Items(POWER_ON) + ItemsOfElems(ID_AND_FIVE);
      && ReadDict(REQUEST_SCHEMA, ahead) == Read(Accepted(POWERED_WITH_ID))
      && |ahead| == 7 && ahead[4] == Str("power_on") && ahead[6] == Prim("5")
  {
    hide ExtractMembers, ExtractPairs, ReadPairs, FindKey, Complete, Items, ItemsOfMembers, ItemsOfElems, MembersCount,
      MembersAt, ElemsAt, NoSlots, FillSlot;
    var ahead := Items(POWER_ON) + ItemsOfElems(ID_AND_FIVE);
    PowerOnItems();
    ObjectItems(POWER_ON, ID_AND_FIVE);
    NothingExtracted(REQUEST_SCHEMA);
    OwnMembersFirst(REQUEST_SCHEMA, POWER_ON.members, ahead, 1, NoSlots(REQUEST_SCHEMA));
    NextPair(REQUEST_SCHEMA, ahead, 5, POWERED);
    SchemaKeys("id");
    IdFills();
    NoPair(REQUEST_SCHEMA, ahead, 7, POWERED_WITH_ID);
    IdFollows(ahead);
    CompleteIsMethod(POWERED_WITH_ID);
  }

  lemma IdFills()
    ensures FillSlot(POWERED, REQUEST_SCHEMA[ID], ID, 6, 1) == POWERED_WITH_ID
  {}

  lemma IdFollows(items: seq<Value>)
    requires |items| == 7 && items[5] == Str("id") && items[6] == Prim("5")
    ensures !ReadPairs(items, 5).dangling
  {}

  lemma PowerOnItems()
    ensures var ahead := Items(POWER_ON) + ItemsOfElems(ID_AND_FIVE);
      |ahead| == 7 && ahead[0] == POWER_ON && ahead[4] == Str("power_on") && ahead[5] == Str("id") && ahead[6] == Prim("5")
    ensures ExtractMembers(REQUEST_SCHEMA, POWER_ON.members, 1, NoSlots(REQUEST_SCHEMA)) == Accepted(POWERED)
    ensures MembersCount(POWER_ON.members) == 4
  {
    PowerOnSlots();
    hide ExtractMembers;
    var m2 := Member("", "method", "", "", Str("power_on"), "", NoMembers);
    assert ItemsOfMembers(m2) == [Str("method"), Str("power_on")];
    assert ItemsOfMembers(POWER_ON.members) == [Str("jsonrpc"), Str("2.0")] + ItemsOfMembers(m2);
    assert ItemsOfElems(ID_AND_FIVE.rest) == [Prim("5")];
    assert ItemsOfElems(ID_AND_FIVE) == [Str("id")] + [Prim("5")];
  }

  // [{"jsonrpc":"2.0","method":"power_on"},"id",5]: the two elements behind the notification become its id, and get
  // no reply of their own.
  lemma SwallowsNext()
    ensures
      var es := Elem("", POWER_ON, "", ID_AND_FIVE);
      var items := Items(Arr("", es));
      && |items| == 8 && Length(es) == 3 && !Fair(es) && RequestNtokens(POWERED_WITH_ID) == 7
      && WalkBatch(items, 1) == Walk([Visit(1, Accepted(POWERED_WITH_ID))], false)
      && AnswerTo(items) == Batch([Run(Call("power_on", None, Some(Prim("5"))))], false)
  {
    hide ReadDict, ReadAlone, Items, ItemsOfMembers, AnswerTo, Decide, Acts;
    var es := Elem("", POWER_ON, "", ID_AND_FIVE);
    var v := Arr("", es);
    ArrayItems(v);
    var items, ahead := Items(v), Items(POWER_ON) + ItemsOfElems(ID_AND_FIVE);
    assert items[1..] == ahead;
    IdIsTaken();
    assert items[1] == ahead[0];
    WalkUnfold(items, 1);
    WalkUnfold(items, 8);
    FairExact(es, items, 1);
    IdAnswered(ahead);
    SingleVisit(items, Accepted(POWERED_WITH_ID));
  }

  lemma SingleVisit(items: seq<Value>, e: Extraction)
    requires items != [] && items[0].Arr? && !IsEmpty(items[0]) && WalkBatch(items, 1) == Walk([Visit(1, e)], false)
    ensures AnswerTo(items) == Batch([Decide(items[1..], e)], false)
  {
    hide WalkBatch, Decide;
    assert [Visit(1, e)][1..] == [];
    assert Acts(items, [Visit(1, e)]) == [Decide(items[1..], e)] + Acts(items, []);
  }

  lemma IdAnswered(ahead: seq<Value>)
    requires |ahead| == 7 && ahead[4] == Str("power_on") && ahead[6] == Prim("5")
    ensures Decide(ahead, Accepted(POWERED_WITH_ID)) == Run(Call("power_on", None, Some(Prim("5"))))
  {
    assert METHODS[0] == "power_on";
  }

  lemma ArrayItems(v: Value)
    requires v.Arr?
    ensures Items(v) == [v] + ItemsOfElems(v.elems) && ElemsAt(Items(v), 1, v.elems)
  {}

  // [{...},"x"]: whatever the object is, unless its own members are refused, its loop takes the string for a key and
  // looks for the value behind the last token.
  lemma LoneStringRunsOver(v: Value, x: string)
    requires v.Obj? && ExtractMembers(REQUEST_SCHEMA, v.members, 1, NoSlots(REQUEST_SCHEMA)).Accepted?
    ensures AnswerTo(Items(Arr("", Elem("", v, "", Elem("", Str(x), "", NoElems))))) == Batch([], true)
  {
    hide Items, ItemsOfElems, ItemsOfMembers, MembersAt, ExtractMembers, ExtractPairs, ReadPairs, WalkBatch;
    var last := Elem("", Str(x), "", NoElems);
    var es := Elem("", v, "", last);
    ArrayItems(Arr("", es));
    var items := Items(Arr("", es));
    FirstItem(items, 1, es);
    var ahead, end := items[1..], 1 + MembersCount(v.members);
    ObjectItems(v, last);
    OwnMembersFirst(REQUEST_SCHEMA, v.members, ahead, 1, NoSlots(REQUEST_SCHEMA));
    FirstItem(ahead, end, last);
    NoPair(REQUEST_SCHEMA, ahead, end, ExtractMembers(REQUEST_SCHEMA, v.members, 1, NoSlots(REQUEST_SCHEMA)).slots);
    WalkUnfold(items, 1);
  }
}
