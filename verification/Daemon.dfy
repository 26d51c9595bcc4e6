/** Whole runs of the daemon: what every sequence of events keeps of the tags, the bulbs and the gateways. */
module Daemon {

  import opened BitScan
  import opened Common
  import T = Tagging
  import TH = TagHandlers
  import TC = TagCall
  import B = BulbTable
  import R = Router

  type Ref = nat
  type Addr = nat

  datatype State = State(tags: T.State, bulbs: B.State)

  const START: State := State(T.State(map[], map[], []), B.State(map[], map[], 0, 0))

  // room and mem say what the allocator has at that time
  datatype BulbEvent =
    | LightStatus(gw: Ref, addr: Addr, power: int, tags: Word, room: bool)
    | PowerState(gw: Ref, addr: Addr, power: int, room: bool)
    | BulbTags(gw: Ref, addr: Addr, tags: Word, room: bool)
    | BulbClosed(addr: Addr)

  datatype TagEvent =
    | TagLabels(gw: Ref, ids: seq<int>, name: string, mem: TH.Memory)
    | TagCalled(gws: Option<seq<Ref>>, name: string, alloc: T.Alloc, mem: TH.Memory)

  datatype Event = GatewayOpened(gw: Ref) | GatewayClosed(gw: Ref) | OnBulbs(bulb: BulbEvent) | OnTags(tag: TagEvent)

  ghost predicate Valid(s: State) {
    T.Valid(s.tags) && B.Valid(s.bulbs) && s.tags.gws.Keys == s.bulbs.gws.Keys
  }

  // Packets come through an open gateway, and no tag gets to more than 255 bulbs of a gateway.
  ghost predicate BulbEnabled(s: B.State, e: BulbEvent)
    requires B.Valid(s)
  {
    match e
    case LightStatus(g, a, power, tags, room) => g in s.gws && B.Fits(s, g, a, tags, room)
    case PowerState(g, a, power, room) => g in s.gws
    case BulbTags(g, a, tags, room) => g in s.gws && B.Fits(s, g, a, tags, room)
    case BulbClosed(a) => a in s.bulbs
  }

  // Labels do not clash.
  ghost predicate TagEnabled(s: T.State, e: TagEvent) {
    match e
    case TagLabels(g, ids, name, mem) =>
      g in s.gws && TH.Sound(mem) && TH.TagIds(ids) && Ascending(ids) && !TH.Clash(s, g, ids, name)
    case TagCalled(gs, name, alloc, mem) => (gs.Some? ==> TC.Open(s, gs.value)) && T.Unused(s, alloc) && TH.Sound(mem)
  }

  ghost predicate Enabled(s: State, e: Event)
    requires Valid(s)
  {
    match e
    case GatewayOpened(g) => g !in s.tags.gws
    case GatewayClosed(g) => g in s.tags.gws
    case OnBulbs(be) => BulbEnabled(s.bulbs, be)
    case OnTags(te) => TagEnabled(s.tags, te)
  }

  ghost function BulbStep(s: B.State, e: BulbEvent): B.State
    requires B.Valid(s) && BulbEnabled(s, e)
  {
    match e
    case LightStatus(g, a, power, tags, room) => B.OnLightStatus(s, g, a, power, tags, room)
    case PowerState(g, a, power, room) => B.OnPowerState(s, g, a, power, room)
    case BulbTags(g, a, tags, room) => B.OnTags(s, g, a, tags, room)
    case BulbClosed(a) => CloseBulb(s, a)
  }

  ghost function TagStep(s: T.State, e: TagEvent): T.State
    requires T.Valid(s) && TagEnabled(s, e)
  {
    match e
    case TagLabels(g, ids, name, mem) => Relabel(s, g, ids, name, mem)
    case TagCalled(gs, name, alloc, mem) => TC.CallTag(s, name, gs, alloc, mem).0
  }

  ghost function Step(s: State, e: Event): State
    requires Valid(s) && Enabled(s, e)
  {
    match e
    case GatewayOpened(g) => State(TH.OpenGateway(s.tags, g), B.OpenGateway(s.bulbs, g))
    case GatewayClosed(g) => CloseGateway(s, g)
    case OnBulbs(be) => State(s.tags, BulbStep(s.bulbs, be))
    case OnTags(te) => State(TagStep(s.tags, te), s.bulbs)
  }

  ghost function CloseBulb(s: B.State, a: Addr): B.State
    requires B.Valid(s) && a in s.bulbs
  {
    B.OnItsGateway(s, a);
    B.CloseBulb(s, a)
  }

  ghost function Relabel(s: T.State, g: Ref, ids: seq<int>, name: string, mem: TH.Memory): T.State
    requires T.Valid(s) && g in s.gws && TH.Sound(mem) && TH.TagIds(ids) && Ascending(ids) && !TH.Clash(s, g, ids, name)
  {
    TH.LabelAllAborts(s, g, ids, name, mem, 0);
    TH.LabelAll(s, g, ids, name, mem, 0).value
  }

  // lgtd_lifx_gateway_close()
  ghost function CloseGateway(s: State, g: Ref): State
    requires Valid(s) && g in s.tags.gws
  {
    TH.Slotted(s.tags, g);
    State(TH.CloseGateway(s.tags, g), B.CloseGateway(s.bulbs, g))
  }

  lemma BulbStepKeeps(s: B.State, e: BulbEvent)
    requires B.Valid(s) && BulbEnabled(s, e)
    ensures B.Valid(BulbStep(s, e)) && BulbStep(s, e).gws.Keys == s.gws.Keys
  {
    hide B.Filed, B.Counted, B.Powered;
    match e
    case LightStatus(g, a, power, tags, room) => B.OnLightStatusKeeps(s, g, a, power, tags, room);
    case PowerState(g, a, power, room) => B.OnPowerStateKeeps(s, g, a, power, room);
    case BulbTags(g, a, tags, room) => B.OnTagsKeeps(s, g, a, tags, room);
    case BulbClosed(a) => B.CloseBulbKeeps(s, a);
  }

  lemma TagStepKeeps(s: T.State, e: TagEvent)
    requires T.Valid(s) && TagEnabled(s, e)
    ensures T.Valid(TagStep(s, e)) && TagStep(s, e).gws.Keys == s.gws.Keys
  {
    hide T.Linked;
    match e
    case TagLabels(g, ids, name, mem) =>
      TH.LabelAllAborts(s, g, ids, name, mem, 0);
      TH.LabelAllValid(s, g, ids, name, mem, 0);
    case TagCalled(gs, name, alloc, mem) => TC.CallTagAllOrNothing(s, name, gs, alloc, mem);
  }

  // Every event keeps the links between tags and gateways, the reference counts and the statistics.
  lemma StepKeeps(s: State, e: Event)
    requires Valid(s) && Enabled(s, e)
    ensures Valid(Step(s, e))
  {
    hide T.Linked, B.Filed, B.Counted, B.Powered, BulbStep, TagStep, BulbEnabled, TagEnabled;
    match e
    case GatewayOpened(g) =>
      TH.OpenGatewayValid(s.tags, g);
      B.OpenGatewayKeeps(s.bulbs, g);
    case GatewayClosed(g) =>
      TH.Slotted(s.tags, g);
      TH.CloseGatewayValid(s.tags, g);
      B.CloseGatewayKeeps(s.bulbs, g);
    case OnBulbs(be) => BulbStepKeeps(s.bulbs, be);
    case OnTags(te) => TagStepKeeps(s.tags, te);
  }

  // The state after the events es, if each of them is enabled when it comes.
  ghost predicate Leads(s: State, es: seq<Event>, s': State)
    requires Valid(s)
    decreases |es|
  {
    if es == [] then s' == s
    else
      && Enabled(s, es[0])
      && (StepKeeps(s, es[0]); Leads(Step(s, es[0]), es[1..], s'))
  }

  lemma StartValid()
    ensures Valid(START)
  {}

  lemma {:induction false} RunKeeps(s: State, es: seq<Event>, s': State)
    requires Valid(s) && Leads(s, es, s')
    ensures Valid(s')
    decreases |es|
  {
    hide Valid, Enabled, Step;
    if es != [] {
      StepKeeps(s, es[0]);
      RunKeeps(Step(s, es[0]), es[1..], s');
    }
  }

  ghost predicate Reachable(s: State) {
    StartValid();
    exists es :: Leads(START, es, s)
  }

  lemma ReachableValid(s: State)
    requires Reachable(s)
    ensures Valid(s)
  {
    hide Valid, Leads;
    StartValid();
    var es :| Leads(START, es, s);
    RunKeeps(START, es, s);
  }

  // In every reachable state: slot i of a gateway is in use if and only if its tag has exactly one site for the
  // gateway, with id i; labels are unique; no site and no slot names anything that was released.
  lemma ReachableTags(s: State)
    requires Reachable(s)
    ensures T.Valid(s.tags)
  {
    hide Valid, Reachable;
    ReachableValid(s);
    Parts(s);
  }

  // In every reachable state: the reference counts are the numbers of bulbs that carry a tag, and the statistics are
  // right.
  lemma ReachableBulbs(s: State)
    requires Reachable(s)
    ensures B.Valid(s.bulbs) && s.bulbs.poweredOn == |B.On(s.bulbs.bulbs)| >= 0
  {
    hide Valid, Reachable;
    ReachableValid(s);
    Parts(s);
  }

  lemma Parts(s: State)
    requires Valid(s)
    ensures T.Valid(s.tags) && B.Valid(s.bulbs)
  {}

  // What the router sees of a state: the gateways in some order, the tags of the list, and the table of bulbs.
  ghost predicate Shows(v: R.View, s: State) {
    && (forall g :: g in v.gateways <==> g in s.bulbs.gws)
    && v.lists.Keys == s.bulbs.gws.Keys && (forall g <- v.lists :: v.lists[g] == s.bulbs.gws[g].bulbs)
    && v.bulbs.Keys == s.bulbs.bulbs.Keys
    && (forall a <- v.bulbs :: v.bulbs[a].gw == s.bulbs.bulbs[a].gw && v.bulbs[a].tags == s.bulbs.bulbs[a].tags)
    && Distinct(v.table) && (forall a :: a in v.table <==> a in v.bulbs)
    && (forall t <- v.tags :: exists r :: r in s.tags.tags && s.tags.tags[r] == t)
  }

  // In every reachable state the router sees what its resolvers need to agree.
  lemma ReachableView(s: State, v: R.View)
    requires Reachable(s) && Shows(v, s)
    ensures R.Consistent(v)
  {
    hide Reachable, B.Valid, T.Valid;
    ReachableValid(s);
    ViewOfBulbs(s, v);
    ViewOfTags(s, v);
  }

  lemma ViewOfBulbs(s: State, v: R.View)
    requires B.Valid(s.bulbs) && Shows(v, s)
    ensures forall g, a | g in v.lists && a in v.lists[g] :: a in v.bulbs
    ensures forall a <- v.bulbs :: v.bulbs[a].gw in v.gateways && v.bulbs[a].gw in v.lists && a in v.lists[v.bulbs[a].gw]
  {
    hide B.Counted, B.Powered;
  }

  lemma ViewOfTags(s: State, v: R.View)
    requires T.Valid(s.tags) && s.tags.gws.Keys == s.bulbs.gws.Keys && Shows(v, s)
    ensures forall t, x | t in v.tags && x in t.sites :: x.gw in v.lists && 0 <= x.tagId < 64
  {
    forall t, x | t in v.tags && x in t.sites ensures x.gw in v.lists && 0 <= x.tagId < 64 {
      var r :| r in s.tags.tags && s.tags.tags[r] == t;
      TC.SiteSlot(s.tags, r, x);
      TH.Slotted(s.tags, x.gw);
    }
  }
}
