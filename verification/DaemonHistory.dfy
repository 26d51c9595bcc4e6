/** What a run of the daemon has made of every bulb, every gateway and every tag id, told from its events. */
module DaemonHistory {

  import opened BitScan
  import opened Common
  import T = Tagging
  import TH = TagHandlers
  import TC = TagCall
  import TL = TagLabels
  import B = BulbTable
  import opened Daemon

  // ---------------------------------------------------------------- one bulb

  ghost function Entry(bulbs: map<Addr, B.Bulb>, a: Addr): Option<B.Bulb> {
    if a in bulbs then Some(bulbs[a]) else None
  }

  // A bulb as the table has it.
  ghost function BulbOf(s: State, a: Addr): Option<B.Bulb> {
    Entry(s.bulbs.bulbs, a)
  }

  // The bulb of a packet: the one that was known, or a new one on the gateway of the packet if there is room.
  ghost function Met(b: Option<B.Bulb>, g: Ref, room: bool): Option<B.Bulb> {
    if b.Some? then b else if room then Some(B.Bulb(g, POWER_OFF, 0)) else None
  }

  // What an event makes of one bulb. Nothing of the other bulbs, the counts or the lists has a part in it.
  ghost function BulbAfter(b: Option<B.Bulb>, e: Event, a: Addr): Option<B.Bulb> {
    match e
    case GatewayOpened(g) => b
    case GatewayClosed(g) => if b.Some? && b.value.gw == g then None else b
    case OnTags(_) => b
    case OnBulbs(BulbClosed(a')) => if a' == a then None else b
    case OnBulbs(LightStatus(g, a', power, tags, room)) =>
      if a' == a && Met(b, g, room).Some?
      then Some(Met(b, g, room).value.(power := if power == POWER_ON then POWER_ON else POWER_OFF, tags := tags)) else b
    case OnBulbs(PowerState(g, a', power, room)) =>
      if a' == a && Met(b, g, room).Some?
      then Some(Met(b, g, room).value.(power := if power == POWER_ON then POWER_ON else POWER_OFF)) else b
    case OnBulbs(BulbTags(g, a', tags, room)) =>
      if a' == a && Met(b, g, room).Some? then Some(Met(b, g, room).value.(tags := tags)) else b
  }

  ghost function BulbStory(b: Option<B.Bulb>, es: seq<Event>, a: Addr): Option<B.Bulb>
    decreases |es|
  {
    if es == [] then b else BulbStory(BulbAfter(b, es[0], a), es[1..], a)
  }

  ghost function GatewaysAfter(gs: set<Ref>, e: Event): set<Ref> {
    match e
    case GatewayOpened(g) => gs + {g}
    case GatewayClosed(g) => gs - {g}
    case _ => gs
  }

  ghost function GatewayStory(gs: set<Ref>, es: seq<Event>): set<Ref>
    decreases |es|
  {
    if es == [] then gs else GatewayStory(GatewaysAfter(gs, es[0]), es[1..])
  }

  lemma BulbStepStory(s: B.State, e: BulbEvent)
    requires B.Valid(s) && BulbEnabled(s, e)
    ensures forall a :: Entry(BulbStep(s, e).bulbs, a) == BulbAfter(Entry(s.bulbs, a), OnBulbs(e), a)
  {
    hide B.Valid, B.OnLightStatus, B.OnPowerState, B.OnTags, B.CloseBulb;
    match e
    case LightStatus(g, a, power, tags, room) =>
      if a in s.bulbs || room {
        B.PacketsSet(s, g, a, power, tags, room);
      } else {
        B.NoRoomNoChange(s, g, a, power, tags);
      }
    case PowerState(g, a, power, room) =>
      if a in s.bulbs || room {
        B.PacketsSet(s, g, a, power, 0, room);
      } else {
        B.NoRoomNoChange(s, g, a, power, 0);
      }
    case BulbTags(g, a, tags, room) =>
      if a in s.bulbs || room {
        B.PacketsSet(s, g, a, 0, tags, room);
      } else {
        B.NoRoomNoChange(s, g, a, 0, tags);
      }
    case BulbClosed(a) =>
      B.OnItsGateway(s, a);
      B.CloseBulbExactly(s, a);
  }

  lemma StepStory(s: State, e: Event)
    requires Valid(s) && Enabled(s, e)
    ensures forall a :: BulbOf(Step(s, e), a) == BulbAfter(BulbOf(s, a), e, a)
    ensures Step(s, e).bulbs.gws.Keys == GatewaysAfter(s.bulbs.gws.Keys, e)
  {
    hide T.Valid, B.Valid, BulbStep, TagStep, BulbEnabled, TagEnabled;
    match e
    case GatewayOpened(g) =>
    case GatewayClosed(g) =>
      TH.Slotted(s.tags, g);
      B.CloseGatewayKeeps(s.bulbs, g);
    case OnBulbs(be) =>
      BulbStepKeeps(s.bulbs, be);
      BulbStepStory(s.bulbs, be);
    case OnTags(te) =>
  }

  // After any run every bulb is what its own events made of it, and the gateways are those that were opened and not
  // closed since.
  lemma {:induction false} RunStory(s: State, es: seq<Event>, s': State)
    requires Valid(s) && Leads(s, es, s')
    ensures forall a :: BulbOf(s', a) == BulbStory(BulbOf(s, a), es, a)
    ensures s'.bulbs.gws.Keys == GatewayStory(s.bulbs.gws.Keys, es)
    decreases |es|
  {
    hide Valid, Enabled, Step, BulbAfter, GatewaysAfter, BulbOf;
    if es != [] {
      StepKeeps(s, es[0]);
      StepStory(s, es[0]);
      RunStory(Step(s, es[0]), es[1..], s');
    }
  }

  // A run of the daemon from its start.
  ghost predicate Ran(es: seq<Event>, s: State) {
    StartValid();
    Leads(START, es, s)
  }

  // Two runs that make the same of every bulb and of the gateways agree on the statistics, the reference counts and,
  // but for their order, the lists of bulbs.
  lemma SameStory(es: seq<Event>, fs: seq<Event>, s: State, t: State)
    requires Ran(es, s) && Ran(fs, t)
    requires GatewayStory({}, es) == GatewayStory({}, fs)
    requires forall a :: BulbStory(None, es, a) == BulbStory(None, fs, a)
    ensures s.bulbs.bulbs == t.bulbs.bulbs && s.bulbs.gws.Keys == t.bulbs.gws.Keys
    ensures s.bulbs.bulbCount == t.bulbs.bulbCount && s.bulbs.poweredOn == t.bulbs.poweredOn
    ensures forall g <- s.bulbs.gws ::
      && s.bulbs.gws[g].refcounts == t.bulbs.gws[g].refcounts
      && multiset(s.bulbs.gws[g].bulbs) == multiset(t.bulbs.gws[g].bulbs)
  {
    StartValid();
    assert forall a :: BulbOf(START, a) == None;
    assert START.bulbs.gws.Keys == {};
    hide Leads, B.Valid, T.Valid, BulbStory, GatewayStory;
    RunKeeps(START, es, s);
    RunKeeps(START, fs, t);
    RunStory(START, es, s);
    RunStory(START, fs, t);
    forall a ensures Entry(s.bulbs.bulbs, a) == Entry(t.bulbs.bulbs, a) {
      assert BulbOf(s, a) == BulbOf(t, a);
    }
    SameEntries(s.bulbs.bulbs, t.bulbs.bulbs);
    B.DeterminedByBulbs(s.bulbs, t.bulbs);
  }

  lemma SameEntries(m: map<Addr, B.Bulb>, n: map<Addr, B.Bulb>)
    requires forall a :: Entry(m, a) == Entry(n, a)
    ensures m == n
  {
    forall a ensures a in m <==> a in n {
      assert Entry(m, a) == Entry(n, a);
    }
    forall a | a in m ensures m[a] == n[a] {
      assert Entry(m, a) == Entry(n, a);
    }
  }

  // ---------------------------------------------------------------- the labels

  // What an event may make of the labels of the tag ids.
  ghost predicate LabelsAfter(s: T.State, e: Event, s': T.State) {
    match e
    case GatewayOpened(g) => TL.SameLabels(s, s')
    case GatewayClosed(g) => forall h, j :: TL.Label(s', h, j) == if h == g then None else TL.Label(s, h, j)
    case OnBulbs(_) => TL.SameLabels(s, s')
    case OnTags(TagLabels(g, ids, name, mem)) => TL.PacketLabels(s, s', g, TH.IdsOf(ids), name, mem)
    case OnTags(TagCalled(gs, name, _, _)) =>
      if gs.None? then TL.SameLabels(s, s') else TL.CallLabels(s, s', gs.value, name) || TL.Unlabelled(s, s', name)
  }

  lemma StepLabels(s: State, e: Event)
    requires Valid(s) && Enabled(s, e)
    ensures LabelsAfter(s.tags, e, Step(s, e).tags)
  {
    hide T.Valid, B.Valid, BulbStep, BulbEnabled, TH.LabelAll, TC.CallTag;
    hide TL.Label, TL.PacketLabels, TL.CallLabels, TL.Unlabelled;
    match e
    case GatewayOpened(g) => TL.OpenGatewayLabels(s.tags, g);
    case GatewayClosed(g) =>
      TH.Slotted(s.tags, g);
      TL.CloseGatewayLabels(s.tags, g);
    case OnBulbs(be) =>
    case OnTags(TagLabels(g, ids, name, mem)) =>
      TH.LabelAllAborts(s.tags, g, ids, name, mem, 0);
      TL.LabelAllLabels(s.tags, g, ids, name, mem, 0);
    case OnTags(TagCalled(gs, name, alloc, mem)) => TL.CallTagLabels(s.tags, name, gs, alloc, mem);
  }
}
