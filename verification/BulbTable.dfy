/** Bulbs: the table of all of them, the list and the tag reference counts of every gateway, and the statistics. */
module BulbTable {

  import opened BitScan
  import opened Common

  const UINT8_MAX: int := 255

  datatype Bulb = Bulb(gw: Ref, power: int, tags: Word)

  // The reference counts of the tag ids of a gateway, and its bulbs.
  datatype Counts = Counts(refcounts: seq<int>, bulbs: seq<Addr>)

  datatype State = State(gws: map<Ref, Counts>, bulbs: map<Addr, Bulb>, bulbCount: int, poweredOn: int)

  // ---------------------------------------------------------------- the invariants

  // The list of every gateway has the bulbs of the table that are on that gateway, once each.
  ghost predicate Filed(s: State) {
    && (forall a <- s.bulbs :: s.bulbs[a].gw in s.gws)
    && (forall g <- s.gws :: Distinct(s.gws[g].bulbs))
    && (forall g, a | g in s.gws :: a in s.gws[g].bulbs <==> a in s.bulbs && s.bulbs[a].gw == g)
  }

  ghost function Carries(bulbs: map<Addr, Bulb>, a: Addr, i: int): int {
    if a in bulbs && i in Bits(bulbs[a].tags) then 1 else 0
  }

  // How many bulbs of a list carry a tag id.
  ghost function Carriers(bulbs: map<Addr, Bulb>, list: seq<Addr>, i: int): (n: nat)
    ensures n <= |list|
  {
    if list == [] then 0 else Carries(bulbs, list[0], i) + Carriers(bulbs, list[1..], i)
  }

  // The reference counts of a gateway are right.
  ghost predicate CountsMatch(bulbs: map<Addr, Bulb>, c: Counts) {
    |c.refcounts| == MAX_TAGS && forall i | 0 <= i < MAX_TAGS :: c.refcounts[i] == Carriers(bulbs, c.bulbs, i) <= UINT8_MAX
  }

  ghost predicate Counted(s: State) {
    forall g <- s.gws :: CountsMatch(s.bulbs, s.gws[g])
  }

  ghost function On(bulbs: map<Addr, Bulb>): set<Addr> {
    set a | a in bulbs && bulbs[a].power == POWER_ON
  }

  // The statistics are right.
  ghost predicate Powered(s: State) {
    && (forall a <- s.bulbs :: s.bulbs[a].power == POWER_OFF || s.bulbs[a].power == POWER_ON)
    && s.bulbCount == |s.bulbs| && s.poweredOn == |On(s.bulbs)|
  }

  ghost predicate Valid(s: State) {
    Filed(s) && Counted(s) && Powered(s)
  }

  // ---------------------------------------------------------------- counting

  lemma {:induction false} CarriersSame(bulbs: map<Addr, Bulb>, bulbs': map<Addr, Bulb>, list: seq<Addr>, i: int)
    requires forall a <- list :: Carries(bulbs', a, i) == Carries(bulbs, a, i)
    ensures Carriers(bulbs', list, i) == Carriers(bulbs, list, i)
  {
    hide Carries;
    if list != [] {
      assert list[0] in list && forall a <- list[1..] :: a in list;
      CarriersSame(bulbs, bulbs', list[1..], i);
    }
  }

  lemma {:induction false} CarriersChange(bulbs: map<Addr, Bulb>, bulbs': map<Addr, Bulb>, list: seq<Addr>, a: Addr, i: int)
    requires Distinct(list) && a in list && forall b <- list | b != a :: Carries(bulbs', b, i) == Carries(bulbs, b, i)
    ensures Carriers(bulbs', list, i) == Carriers(bulbs, list, i) - Carries(bulbs, a, i) + Carries(bulbs', a, i)
  {
    hide Carries;
    var rest := list[1..];
    assert forall b <- rest :: b in list;
    if list[0] == a {
      assert a !in rest;
      CarriersSame(bulbs, bulbs', rest, i);
    } else {
      CarriersChange(bulbs, bulbs', rest, a, i);
    }
  }

  function AddrIndex(list: seq<Addr>, a: Addr): (k: nat)
    ensures k <= |list| && (k < |list| <==> a in list) && (k < |list| ==> list[k] == a)
  {
    if list == [] || list[0] == a then 0 else 1 + AddrIndex(list[1..], a)
  }

  // SLIST_REMOVE
  function Removed(list: seq<Addr>, a: Addr): seq<Addr>
    requires a in list
  {
    list[..AddrIndex(list, a)] + list[AddrIndex(list, a) + 1..]
  }

  lemma RemovedMembers(list: seq<Addr>, a: Addr)
    requires Distinct(list) && a in list
    ensures Distinct(Removed(list, a)) && forall b :: b in Removed(list, a) <==> b in list && b != a
  {
    var k := AddrIndex(list, a);
    var left := Removed(list, a);
    assert forall j | 0 <= j < |left| :: left[j] == if j < k then list[j] else list[j + 1];
    hide AddrIndex, Removed;
    forall b | b in left ensures b in list && b != a {
      var j :| 0 <= j < |left| && left[j] == b;
    }
    forall b | b in list && b != a ensures b in left {
      var j :| 0 <= j < |list| && list[j] == b;
      assert left[if j < k then j else j - 1] == b;
    }
  }

  lemma {:induction false} CarriersSplit(bulbs: map<Addr, Bulb>, front: seq<Addr>, back: seq<Addr>, i: int)
    ensures Carriers(bulbs, front + back, i) == Carriers(bulbs, front, i) + Carriers(bulbs, back, i)
  {
    hide Carries;
    if front == [] {
      assert front + back == back;
    } else {
      assert (front + back)[1..] == front[1..] + back;
      CarriersSplit(bulbs, front[1..], back, i);
    }
  }

  lemma CarriersRemoved(bulbs: map<Addr, Bulb>, list: seq<Addr>, a: Addr, i: int)
    requires a in list
    ensures Carriers(bulbs, Removed(list, a), i) == Carriers(bulbs, list, i) - Carries(bulbs, a, i)
  {
    var k := AddrIndex(list, a);
    assert list == list[..k] + ([a] + list[k + 1..]);
    CarriersSplit(bulbs, list[..k], [a] + list[k + 1..], i);
    CarriersSplit(bulbs, [a], list[k + 1..], i);
    CarriersSplit(bulbs, list[..k], list[k + 1..], i);
    assert Carriers(bulbs, [a], i) == Carries(bulbs, a, i);
  }

  // ---------------------------------------------------------------- setting the tags of a bulb

  // What lgtd_lifx_gateway_update_tag_refcounts() makes of one count: it does not go past 255.
  function NewCount(n: int, was: bool, now: bool): int {
    if now && !was then (if n != UINT8_MAX then n + 1 else n) else if was && !now then n - 1 else n
  }

  ghost function NewCounts(refcounts: seq<int>, was: Word, now: Word): (r: seq<int>)
    requires |refcounts| == MAX_TAGS
    ensures |r| == MAX_TAGS && forall i | 0 <= i < MAX_TAGS :: r[i] == NewCount(refcounts[i], i in Bits(was), i in Bits(now))
  {
    seq(MAX_TAGS, i requires 0 <= i < MAX_TAGS => NewCount(refcounts[i], i in Bits(was), i in Bits(now)))
  }

  ghost predicate Known(s: State, a: Addr) {
    a in s.bulbs && s.bulbs[a].gw in s.gws && |s.gws[s.bulbs[a].gw].refcounts| == MAX_TAGS
  }

  ghost function GatewayOf(s: State, a: Addr): Counts
    requires Known(s, a)
  {
    s.gws[s.bulbs[a].gw]
  }

  // lgtd_lifx_bulb_set_tags()
  ghost function SetTags(s: State, a: Addr, tags: Word): State
    requires Known(s, a)
  {
    var c := GatewayOf(s, a);
    State(s.gws[s.bulbs[a].gw := Counts(NewCounts(c.refcounts, s.bulbs[a].tags, tags), c.bulbs)],
          s.bulbs[a := s.bulbs[a].(tags := tags)], s.bulbCount, s.poweredOn)
  }

  // No count that goes up is at its limit.
  ghost predicate RoomFor(s: State, a: Addr, tags: Word)
    requires Known(s, a)
  {
    forall i | i in Bits(tags) && i !in Bits(s.bulbs[a].tags) :: GatewayOf(s, a).refcounts[i] < UINT8_MAX
  }

  lemma OthersSame(s: State, a: Addr, b: Bulb, g: Ref)
    requires Filed(s) && a in s.bulbs && g in s.gws && s.bulbs[a].gw != g && CountsMatch(s.bulbs, s.gws[g])
    ensures CountsMatch(s.bulbs[a := b], s.gws[g])
  {
    hide Bits;
    forall i | 0 <= i < MAX_TAGS
      ensures s.gws[g].refcounts[i] == Carriers(s.bulbs[a := b], s.gws[g].bulbs, i) <= UINT8_MAX
    {
      CarriersSame(s.bulbs, s.bulbs[a := b], s.gws[g].bulbs, i);
    }
  }

  // The counts of the gateway of the bulb stay right if and only if there was room.
  lemma OwnCounts(s: State, a: Addr, tags: Word)
    requires Filed(s) && Known(s, a) && CountsMatch(s.bulbs, GatewayOf(s, a))
    ensures var c := GatewayOf(s, a);
      CountsMatch(s.bulbs[a := s.bulbs[a].(tags := tags)], Counts(NewCounts(c.refcounts, s.bulbs[a].tags, tags), c.bulbs))
      <==> RoomFor(s, a, tags)
  {
    hide Bits, Carriers;
    var c, bulbs := GatewayOf(s, a), s.bulbs[a := s.bulbs[a].(tags := tags)];
    var counts := NewCounts(c.refcounts, s.bulbs[a].tags, tags);
    hide NewCounts;
    forall i | 0 <= i < MAX_TAGS ensures counts[i] == Carriers(bulbs, c.bulbs, i) <= UINT8_MAX <==> RoomForOne(s, a, tags, i) {
      OwnCount(s, a, tags, i);
    }
    hide NewCount, Filed;
    if CountsMatch(bulbs, Counts(counts, c.bulbs)) {
      forall i | i in Bits(tags) && i !in Bits(s.bulbs[a].tags) ensures c.refcounts[i] < UINT8_MAX {
        assert RoomForOne(s, a, tags, i);
      }
    }
  }

  ghost predicate RoomForOne(s: State, a: Addr, tags: Word, i: int)
    requires Known(s, a) && 0 <= i < MAX_TAGS
  {
    i in Bits(tags) && i !in Bits(s.bulbs[a].tags) ==> GatewayOf(s, a).refcounts[i] < UINT8_MAX
  }

  lemma OwnCount(s: State, a: Addr, tags: Word, i: int)
    requires Filed(s) && Known(s, a) && CountsMatch(s.bulbs, GatewayOf(s, a)) && 0 <= i < MAX_TAGS
    ensures var c, bulbs := GatewayOf(s, a), s.bulbs[a := s.bulbs[a].(tags := tags)];
      NewCount(c.refcounts[i], i in Bits(s.bulbs[a].tags), i in Bits(tags)) == Carriers(bulbs, c.bulbs, i) <= UINT8_MAX
      <==> RoomForOne(s, a, tags, i)
  {
    hide Bits, Carriers;
    CarriersChange(s.bulbs, s.bulbs[a := s.bulbs[a].(tags := tags)], GatewayOf(s, a).bulbs, a, i);
  }

  lemma FiledSame(s: State, a: Addr, b: Bulb, c: Counts)
    requires Filed(s) && a in s.bulbs && b.gw == s.bulbs[a].gw && s.bulbs[a].gw in s.gws && c.bulbs == s.gws[b.gw].bulbs
    ensures Filed(State(s.gws[b.gw := c], s.bulbs[a := b], s.bulbCount, s.poweredOn))
  {
    hide Bits;
  }

  lemma PoweredSame(s: State, s': State, a: Addr)
    requires Powered(s) && a in s.bulbs && s'.bulbs.Keys == s.bulbs.Keys && s'.bulbCount == s.bulbCount
      && s'.poweredOn == s.poweredOn
    requires forall b <- s.bulbs :: s'.bulbs[b].power == s.bulbs[b].power
    ensures Powered(s')
  {
    assert On(s'.bulbs) == On(s.bulbs);
    assert |s'.bulbs| == |s'.bulbs.Keys| && |s.bulbs| == |s.bulbs.Keys|;
  }

  lemma KnownBulb(s: State, a: Addr)
    requires Valid(s) && a in s.bulbs
    ensures Known(s, a)
  {
    hide Bits;
  }

  // Setting tags keeps the reference counts right if and only if none that goes up is at its limit.
  lemma SetTagsKeeps(s: State, a: Addr, tags: Word)
    requires Valid(s) && Known(s, a)
    ensures Filed(SetTags(s, a, tags)) && Powered(SetTags(s, a, tags))
    ensures Counted(SetTags(s, a, tags)) <==> RoomFor(s, a, tags)
  {
    hide CountsMatch, Filed, Powered, NewCounts, RoomFor;
    var g, b := s.bulbs[a].gw, s.bulbs[a].(tags := tags);
    var c := Counts(NewCounts(GatewayOf(s, a).refcounts, s.bulbs[a].tags, tags), GatewayOf(s, a).bulbs);
    FiledSame(s, a, b, c);
    PoweredSame(s, SetTags(s, a, tags), a);
    OwnCounts(s, a, tags);
    forall h | h in s.gws && h != g ensures CountsMatch(s.bulbs[a := b], s.gws[h]) {
      OthersSame(s, a, b, h);
    }
    var s' := SetTags(s, a, tags);
    assert g in s'.gws && s'.gws[g] == c;
  }

  // ---------------------------------------------------------------- power

  // lgtd_lifx_bulb_set_power_state()
  function SetPower(s: State, a: Addr, power: int): State
    requires a in s.bulbs
  {
    var change := if power == s.bulbs[a].power then 0 else if power == POWER_ON then 1 else -1;
    State(s.gws, s.bulbs[a := s.bulbs[a].(power := power)], s.bulbCount, s.poweredOn + change)
  }

  lemma OnChanges(bulbs: map<Addr, Bulb>, a: Addr, b: Bulb)
    requires a in bulbs
    ensures |On(bulbs[a := b])|
         == |On(bulbs)| - (if bulbs[a].power == POWER_ON then 1 else 0) + (if b.power == POWER_ON then 1 else 0)
  {
    var rest := On(bulbs) - {a};
    assert On(bulbs) == rest + (if bulbs[a].power == POWER_ON then {a} else {});
    assert On(bulbs[a := b]) == rest + (if b.power == POWER_ON then {a} else {});
  }

  // The statistics stay right if and only if the power is one that the decoders let through.
  lemma SetPowerPowered(s: State, a: Addr, power: int)
    requires Powered(s) && a in s.bulbs
    ensures Powered(SetPower(s, a, power)) <==> power == POWER_OFF || power == POWER_ON
  {
    OnChanges(s.bulbs, a, s.bulbs[a].(power := power));
    hide On;
    var bulbs := s.bulbs[a := s.bulbs[a].(power := power)];
    assert bulbs.Keys == s.bulbs.Keys;
    assert |bulbs| == |bulbs.Keys| && |s.bulbs| == |s.bulbs.Keys|;
    assert bulbs[a].power == power;
  }

  lemma SetPowerKeeps(s: State, a: Addr, power: int)
    requires Valid(s) && a in s.bulbs
    ensures Valid(SetPower(s, a, DecodePower(power)))
  {
    KnownBulb(s, a);
    hide CountsMatch, Filed, Powered;
    SetPowerPowered(s, a, DecodePower(power));
    var b := s.bulbs[a].(power := DecodePower(power));
    FiledSame(s, a, b, s.gws[b.gw]);
    assert s.gws[b.gw := s.gws[b.gw]] == s.gws;
    FiledStatistics(State(s.gws, s.bulbs[a := b], s.bulbCount, s.poweredOn), SetPower(s, a, DecodePower(power)));
    forall g | g in s.gws ensures CountsMatch(s.bulbs[a := b], s.gws[g]) {
      SameTags(s, a, b, g);
    }
  }

  lemma FiledStatistics(s: State, s': State)
    requires Filed(s) && s'.gws == s.gws && s'.bulbs == s.bulbs
    ensures Filed(s')
  {}

  lemma SameRoom(s: State, a: Addr, power: int, tags: Word)
    requires Known(s, a)
    ensures Known(SetPower(s, a, power), a) && (RoomFor(SetPower(s, a, power), a, tags) <==> RoomFor(s, a, tags))
  {
    hide Bits;
  }

  lemma SameTags(s: State, a: Addr, b: Bulb, g: Ref)
    requires a in s.bulbs && b.tags == s.bulbs[a].tags && g in s.gws && CountsMatch(s.bulbs, s.gws[g])
    ensures CountsMatch(s.bulbs[a := b], s.gws[g])
  {
    hide Bits;
    forall i | 0 <= i < MAX_TAGS
      ensures s.gws[g].refcounts[i] == Carriers(s.bulbs[a := b], s.gws[g].bulbs, i) <= UINT8_MAX
    {
      CarriersSame(s.bulbs, s.bulbs[a := b], s.gws[g].bulbs, i);
    }
  }

  // lgtd_lifx_bulb_set_light_state()
  ghost function SetLightState(s: State, a: Addr, power: int, tags: Word): State
    requires Known(s, a)
  {
    SetTags(SetPower(s, a, power), a, tags)
  }

  lemma SetLightStateKeeps(s: State, a: Addr, power: int, tags: Word)
    requires Valid(s) && a in s.bulbs
    ensures Known(s, a) && (Valid(SetLightState(s, a, DecodePower(power), tags)) <==> RoomFor(s, a, tags))
  {
    KnownBulb(s, a);
    hide Filed, Counted, Powered, RoomFor, SetTags, SetPower, DecodePower;
    SetPowerKeeps(s, a, power);
    SameRoom(s, a, DecodePower(power), tags);
    SetTagsKeeps(SetPower(s, a, DecodePower(power)), a, tags);
  }

  // ---------------------------------------------------------------- opening and closing bulbs

  // lgtd_lifx_bulb_open(), and the new bulb at the head of the list of its gateway
  function OpenBulb(s: State, g: Ref, a: Addr): State
    requires g in s.gws
  {
    State(s.gws[g := Counts(s.gws[g].refcounts, [a] + s.gws[g].bulbs)], s.bulbs[a := Bulb(g, POWER_OFF, 0)],
          s.bulbCount + 1, s.poweredOn)
  }

  lemma OpenBulbFiled(s: State, g: Ref, a: Addr)
    requires Filed(s) && g in s.gws && a !in s.bulbs
    ensures Filed(OpenBulb(s, g, a))
  {
    hide Bits;
    var list := [a] + s.gws[g].bulbs;
    assert a !in s.gws[g].bulbs;
    assert forall k | 0 < k < |list| :: list[k] == s.gws[g].bulbs[k - 1] && list[k] in s.gws[g].bulbs;
    assert forall b :: b in list <==> b == a || b in s.gws[g].bulbs;
  }

  lemma OpenBulbPowered(s: State, g: Ref, a: Addr)
    requires Powered(s) && g in s.gws && a !in s.bulbs
    ensures Powered(OpenBulb(s, g, a))
  {
    var bulbs := s.bulbs[a := Bulb(g, POWER_OFF, 0)];
    assert On(bulbs) == On(s.bulbs);
    assert bulbs.Keys == s.bulbs.Keys + {a};
    assert |bulbs| == |bulbs.Keys| && |s.bulbs| == |s.bulbs.Keys|;
  }

  // A bulb without tags changes no count.
  lemma OpenBulbCounts(s: State, g: Ref, a: Addr, h: Ref)
    requires Filed(s) && g in s.gws && h in s.gws && a !in s.bulbs && CountsMatch(s.bulbs, s.gws[h])
    ensures CountsMatch(OpenBulb(s, g, a).bulbs, OpenBulb(s, g, a).gws[h])
  {
    BitsZero();
    hide Bits;
    var bulbs := OpenBulb(s, g, a).bulbs;
    forall i | 0 <= i < MAX_TAGS
      ensures Carriers(bulbs, OpenBulb(s, g, a).gws[h].bulbs, i) == Carriers(s.bulbs, s.gws[h].bulbs, i)
    {
      CarriersSame(s.bulbs, bulbs, s.gws[h].bulbs, i);
      assert ([a] + s.gws[h].bulbs)[1..] == s.gws[h].bulbs;
    }
  }

  lemma OpenBulbKeeps(s: State, g: Ref, a: Addr)
    requires Valid(s) && g in s.gws && a !in s.bulbs
    ensures Valid(OpenBulb(s, g, a))
  {
    hide CountsMatch, Filed, Powered;
    OpenBulbFiled(s, g, a);
    OpenBulbPowered(s, g, a);
    forall h | h in s.gws ensures CountsMatch(OpenBulb(s, g, a).bulbs, OpenBulb(s, g, a).gws[h]) {
      OpenBulbCounts(s, g, a, h);
    }
  }

  // The counts of a gateway that loses a bulb.
  ghost function LessCounts(refcounts: seq<int>, tags: Word): (r: seq<int>)
    requires |refcounts| == MAX_TAGS
    ensures |r| == MAX_TAGS && forall i | 0 <= i < MAX_TAGS :: r[i] == refcounts[i] - if i in Bits(tags) then 1 else 0
  {
    seq(MAX_TAGS, i requires 0 <= i < MAX_TAGS => refcounts[i] - if i in Bits(tags) then 1 else 0)
  }

  // lgtd_lifx_gateway_remove_and_close_bulb()
  ghost function CloseBulb(s: State, a: Addr): State
    requires Known(s, a) && a in GatewayOf(s, a).bulbs
  {
    var c := GatewayOf(s, a);
    State(s.gws[s.bulbs[a].gw := Counts(LessCounts(c.refcounts, s.bulbs[a].tags), Removed(c.bulbs, a))], s.bulbs - {a},
          s.bulbCount - 1, s.poweredOn - if s.bulbs[a].power == POWER_ON then 1 else 0)
  }

  lemma OnItsGateway(s: State, a: Addr)
    requires Valid(s) && a in s.bulbs
    ensures Known(s, a) && a in GatewayOf(s, a).bulbs
  {
    hide Bits;
  }

  // Before a bulb is closed: every count that goes down is positive, and what is left counts the bulbs that are left.
  lemma CloseBulbChecks(s: State, a: Addr, i: int)
    requires Valid(s) && a in s.bulbs && 0 <= i < MAX_TAGS
    ensures Known(s, a) && a in GatewayOf(s, a).bulbs
    ensures i in Bits(s.bulbs[a].tags) ==> GatewayOf(s, a).refcounts[i] > 0
    ensures LessCounts(GatewayOf(s, a).refcounts, s.bulbs[a].tags)[i] == Carriers(s.bulbs, Removed(GatewayOf(s, a).bulbs, a), i)
  {
    OnItsGateway(s, a);
    hide Bits, Removed, Carriers;
    assert CountsMatch(s.bulbs, GatewayOf(s, a));
    CarriersRemoved(s.bulbs, GatewayOf(s, a).bulbs, a, i);
  }

  lemma CloseBulbFiled(s: State, a: Addr)
    requires Filed(s) && Known(s, a) && a in GatewayOf(s, a).bulbs
    ensures Filed(CloseBulb(s, a))
  {
    hide Bits, Removed, LessCounts;
    RemovedMembers(GatewayOf(s, a).bulbs, a);
  }

  lemma CloseBulbPowered(s: State, a: Addr)
    requires Powered(s) && Known(s, a) && a in GatewayOf(s, a).bulbs
    ensures Powered(CloseBulb(s, a)) && CloseBulb(s, a).poweredOn >= 0
  {
    hide Bits, Removed, LessCounts;
    var bulbs := s.bulbs - {a};
    assert On(bulbs) == On(s.bulbs) - {a};
    assert bulbs.Keys == s.bulbs.Keys - {a};
    assert |bulbs| == |bulbs.Keys| && |s.bulbs| == |s.bulbs.Keys|;
  }

  lemma CloseBulbOthers(s: State, a: Addr, g: Ref)
    requires Filed(s) && a in s.bulbs && g in s.gws && s.bulbs[a].gw != g && CountsMatch(s.bulbs, s.gws[g])
    ensures CountsMatch(s.bulbs - {a}, s.gws[g])
  {
    hide Bits;
    forall i | 0 <= i < MAX_TAGS ensures Carriers(s.bulbs - {a}, s.gws[g].bulbs, i) == Carriers(s.bulbs, s.gws[g].bulbs, i) {
      CarriersSame(s.bulbs, s.bulbs - {a}, s.gws[g].bulbs, i);
    }
  }

  lemma CloseBulbOwn(s: State, a: Addr)
    requires Valid(s) && Known(s, a) && a in GatewayOf(s, a).bulbs
    ensures var c := GatewayOf(s, a);
      CountsMatch(s.bulbs - {a}, Counts(LessCounts(c.refcounts, s.bulbs[a].tags), Removed(c.bulbs, a)))
  {
    var c := GatewayOf(s, a);
    assert CountsMatch(s.bulbs, c) && Distinct(c.bulbs);
    hide Bits, Removed, Carriers, Filed, Powered, Counted;
    RemovedMembers(c.bulbs, a);
    forall i | 0 <= i < MAX_TAGS
      ensures LessCounts(c.refcounts, s.bulbs[a].tags)[i] == Carriers(s.bulbs - {a}, Removed(c.bulbs, a), i) <= UINT8_MAX
    {
      CloseBulbChecks(s, a, i);
      CarriersSame(s.bulbs, s.bulbs - {a}, Removed(c.bulbs, a), i);
    }
  }

  lemma CloseBulbKeeps(s: State, a: Addr)
    requires Valid(s) && a in s.bulbs
    ensures Known(s, a) && a in GatewayOf(s, a).bulbs && Valid(CloseBulb(s, a))
  {
    OnItsGateway(s, a);
    hide CountsMatch, Filed, Powered, LessCounts, Removed;
    CloseBulbFiled(s, a);
    CloseBulbPowered(s, a);
    CloseBulbOwn(s, a);
    forall g | g in s.gws && g != s.bulbs[a].gw ensures CountsMatch(s.bulbs - {a}, s.gws[g]) {
      CloseBulbOthers(s, a, g);
    }
  }

  // ---------------------------------------------------------------- opening and closing gateways

  function NoBulbs(): (c: Counts)
    ensures |c.refcounts| == MAX_TAGS && c.bulbs == [] && forall i | 0 <= i < MAX_TAGS :: c.refcounts[i] == 0
  {
    Counts(seq(MAX_TAGS, _ => 0), [])
  }

  function OpenGateway(s: State, g: Ref): State {
    State(s.gws[g := NoBulbs()], s.bulbs, s.bulbCount, s.poweredOn)
  }

  lemma OpenGatewayKeeps(s: State, g: Ref)
    requires Valid(s) && g !in s.gws
    ensures Valid(OpenGateway(s, g))
  {
    hide CountsMatch, Powered;
    SameStatistics(s, OpenGateway(s, g));
    NobodyCounted(s.bulbs);
  }

  lemma NobodyCounted(bulbs: map<Addr, Bulb>)
    ensures CountsMatch(bulbs, NoBulbs())
  {}

  lemma SameStatistics(s: State, s': State)
    requires Powered(s) && s'.bulbs == s.bulbs && s'.bulbCount == s.bulbCount && s'.poweredOn == s.poweredOn
    ensures Powered(s')
  {}

  // The first bulb of a gateway.
  lemma FirstBulb(s: State, g: Ref)
    requires Valid(s) && g in s.gws && s.gws[g].bulbs != []
    ensures var a := s.gws[g].bulbs[0];
      && a in s.bulbs && s.bulbs[a].gw == g && Known(s, a) && a in GatewayOf(s, a).bulbs && Valid(CloseBulb(s, a))
      && CloseBulb(s, a).gws[g].bulbs == s.gws[g].bulbs[1..] && CloseBulb(s, a).gws.Keys == s.gws.Keys
  {
    hide Filed, Counted, Powered, LessCounts;
    var a := s.gws[g].bulbs[0];
    ListedBulb(s, g, a);
    CloseBulbKeeps(s, a);
    assert AddrIndex(s.gws[g].bulbs, a) == 0;
  }

  lemma ListedBulb(s: State, g: Ref, a: Addr)
    requires Filed(s) && g in s.gws && a in s.gws[g].bulbs
    ensures a in s.bulbs && s.bulbs[a].gw == g
  {}

  // The last loop of lgtd_lifx_gateway_close(): the bulbs are closed one by one, from the head of the list.
  ghost function CloseBulbs(s: State, g: Ref): State
    requires Valid(s) && g in s.gws
    decreases if g in s.gws then |s.gws[g].bulbs| else 0
  {
    if s.gws[g].bulbs == [] then s
    else
      FirstBulb(s, g);
      CloseBulbs(CloseBulb(s, s.gws[g].bulbs[0]), g)
  }

  lemma {:induction false} CloseBulbsKeeps(s: State, g: Ref)
    requires Valid(s) && g in s.gws
    ensures Valid(CloseBulbs(s, g)) && CloseBulbs(s, g).gws.Keys == s.gws.Keys && CloseBulbs(s, g).gws[g].bulbs == []
    decreases |s.gws[g].bulbs|
  {
    hide Valid, CloseBulb;
    if s.gws[g].bulbs != [] {
      FirstBulb(s, g);
      CloseBulbsKeeps(CloseBulb(s, s.gws[g].bulbs[0]), g);
    }
  }

  // The bulbs of the other gateways.
  ghost function OffGateway(bulbs: map<Addr, Bulb>, g: Ref): map<Addr, Bulb> {
    map a | a in bulbs && bulbs[a].gw != g :: bulbs[a]
  }

  // Only the bulbs of the gateway go, and nothing of the other gateways changes.
  lemma {:induction false} CloseBulbsExactly(s: State, g: Ref)
    requires Valid(s) && g in s.gws
    ensures var s' := CloseBulbs(s, g);
      s'.bulbs == OffGateway(s.bulbs, g) && s'.gws.Keys == s.gws.Keys && forall h <- s.gws | h != g :: s'.gws[h] == s.gws[h]
    decreases |s.gws[g].bulbs|
  {
    hide Valid, CloseBulb, OffGateway;
    if s.gws[g].bulbs == [] {
      NobodyThere(s, g);
    } else {
      FirstBulb(s, g);
      var a := s.gws[g].bulbs[0];
      CloseBulbExactly(s, a);
      OffWithout(s.bulbs, g, a);
      CloseBulbsExactly(CloseBulb(s, a), g);
    }
  }

  // One bulb goes, and the other gateways are as they were.
  lemma CloseBulbExactly(s: State, a: Addr)
    requires Known(s, a) && a in GatewayOf(s, a).bulbs
    ensures CloseBulb(s, a).bulbs == s.bulbs - {a} && CloseBulb(s, a).gws.Keys == s.gws.Keys
    ensures forall h <- s.gws | h != s.bulbs[a].gw :: CloseBulb(s, a).gws[h] == s.gws[h]
  {}

  lemma OffWithout(bulbs: map<Addr, Bulb>, g: Ref, a: Addr)
    requires a in bulbs && bulbs[a].gw == g
    ensures OffGateway(bulbs - {a}, g) == OffGateway(bulbs, g)
  {}

  lemma NobodyThere(s: State, g: Ref)
    requires Valid(s) && g in s.gws && s.gws[g].bulbs == []
    ensures OffGateway(s.bulbs, g) == s.bulbs
  {
    hide Counted, Powered;
    DroppedFiled(s, g);
  }

  function Dropped(s: State, g: Ref): State {
    State(s.gws - {g}, s.bulbs, s.bulbCount, s.poweredOn)
  }

  ghost function CloseGateway(s: State, g: Ref): State
    requires Valid(s) && g in s.gws
  {
    Dropped(CloseBulbs(s, g), g)
  }

  lemma DroppedFiled(s: State, g: Ref)
    requires Filed(s) && g in s.gws && s.gws[g].bulbs == []
    ensures Filed(Dropped(s, g)) && forall a <- s.bulbs :: s.bulbs[a].gw != g
  {
    forall a <- s.bulbs ensures s.bulbs[a].gw != g {
      assert a in s.gws[g].bulbs <==> s.bulbs[a].gw == g;
    }
  }

  lemma DroppedKeeps(s: State, g: Ref)
    requires Valid(s) && g in s.gws && s.gws[g].bulbs == []
    ensures Valid(Dropped(s, g))
  {
    hide Filed, CountsMatch, Powered;
    DroppedFiled(s, g);
    SameStatistics(s, Dropped(s, g));
  }

  // A closed gateway takes its bulbs with it, and no other: the other gateways are as they were.
  lemma CloseGatewayKeeps(s: State, g: Ref)
    requires Valid(s) && g in s.gws
    ensures Valid(CloseGateway(s, g)) && CloseGateway(s, g).gws == s.gws - {g}
    ensures CloseGateway(s, g).bulbs == OffGateway(s.bulbs, g)
  {
    hide Filed, Counted, Powered, CloseBulbs, OffGateway;
    CloseBulbsKeeps(s, g);
    CloseBulbsExactly(s, g);
    DroppedKeeps(CloseBulbs(s, g), g);
  }

  // ---------------------------------------------------------------- packets from a bulb

  // The bulb that a packet is about is opened when it is not known, if there is room.
  function Found(s: State, g: Ref, a: Addr, room: bool): State
    requires g in s.gws
  {
    if a in s.bulbs || !room then s else OpenBulb(s, g, a)
  }

  lemma FoundKeeps(s: State, g: Ref, a: Addr, room: bool)
    requires Valid(s) && g in s.gws
    ensures Valid(Found(s, g, a, room)) && (a in Found(s, g, a, room).bulbs <==> a in s.bulbs || room)
    ensures a in Found(s, g, a, room).bulbs ==> Known(Found(s, g, a, room), a)
    ensures Found(s, g, a, room).gws.Keys == s.gws.Keys
  {
    hide Filed, Counted, Powered;
    if a !in s.bulbs && room {
      OpenBulbKeeps(s, g, a);
    }
    if a in Found(s, g, a, room).bulbs {
      KnownBulb(Found(s, g, a, room), a);
    }
  }

  ghost function OnLightStatus(s: State, g: Ref, a: Addr, power: int, tags: Word, room: bool): State
    requires Valid(s) && g in s.gws
  {
    FoundKeeps(s, g, a, room);
    if a in s.bulbs || room then SetLightState(Found(s, g, a, room), a, DecodePower(power), tags) else s
  }

  ghost function OnPowerState(s: State, g: Ref, a: Addr, power: int, room: bool): State
    requires Valid(s) && g in s.gws
  {
    FoundKeeps(s, g, a, room);
    if a in s.bulbs || room then SetPower(Found(s, g, a, room), a, DecodePower(power)) else s
  }

  ghost function OnTags(s: State, g: Ref, a: Addr, tags: Word, room: bool): State
    requires Valid(s) && g in s.gws
  {
    FoundKeeps(s, g, a, room);
    if a in s.bulbs || room then SetTags(Found(s, g, a, room), a, tags) else s
  }

  // The packet does not bring a tag to more than 255 bulbs of the gateway.
  ghost predicate Fits(s: State, g: Ref, a: Addr, tags: Word, room: bool)
    requires Valid(s) && g in s.gws
  {
    FoundKeeps(s, g, a, room);
    a in s.bulbs || room ==> RoomFor(Found(s, g, a, room), a, tags)
  }

  lemma OnLightStatusKeeps(s: State, g: Ref, a: Addr, power: int, tags: Word, room: bool)
    requires Valid(s) && g in s.gws
    ensures Valid(OnLightStatus(s, g, a, power, tags, room)) <==> Fits(s, g, a, tags, room)
    ensures OnLightStatus(s, g, a, power, tags, room).gws.Keys == s.gws.Keys
  {
    hide Filed, Counted, Powered, Found, RoomFor, DecodePower;
    FoundKeeps(s, g, a, room);
    if a in s.bulbs || room {
      SetLightStateKeeps(Found(s, g, a, room), a, power, tags);
    }
  }

  lemma OnPowerStateKeeps(s: State, g: Ref, a: Addr, power: int, room: bool)
    requires Valid(s) && g in s.gws
    ensures Valid(OnPowerState(s, g, a, power, room)) && OnPowerState(s, g, a, power, room).gws.Keys == s.gws.Keys
  {
    hide Filed, Counted, Powered, Found, DecodePower;
    FoundKeeps(s, g, a, room);
    if a in s.bulbs || room {
      SetPowerKeeps(Found(s, g, a, room), a, power);
    }
  }

  lemma OnTagsKeeps(s: State, g: Ref, a: Addr, tags: Word, room: bool)
    requires Valid(s) && g in s.gws
    ensures Valid(OnTags(s, g, a, tags, room)) <==> Fits(s, g, a, tags, room)
    ensures OnTags(s, g, a, tags, room).gws.Keys == s.gws.Keys
  {
    hide Filed, Counted, Powered, Found, RoomFor;
    FoundKeeps(s, g, a, room);
    if a in s.bulbs || room {
      SetTagsKeeps(Found(s, g, a, room), a, tags);
    }
  }

  // What a packet leaves in the table: the bulb it is about, on the gateway it was on or came through, with what the
  // packet says.
  lemma PacketsSet(s: State, g: Ref, a: Addr, power: int, tags: Word, room: bool)
    requires Valid(s) && g in s.gws && (a in s.bulbs || room)
    ensures var b := if a in s.bulbs then s.bulbs[a] else Bulb(g, POWER_OFF, 0);
      && OnLightStatus(s, g, a, power, tags, room).bulbs == s.bulbs[a := b.(power := DecodePower(power), tags := tags)]
      && OnPowerState(s, g, a, power, room).bulbs == s.bulbs[a := b.(power := DecodePower(power))]
      && OnTags(s, g, a, tags, room).bulbs == s.bulbs[a := b.(tags := tags)]
  {
    hide Valid, NewCounts, DecodePower;
    FoundKeeps(s, g, a, room);
  }

  // Without room for a new bulb nothing changes.
  lemma NoRoomNoChange(s: State, g: Ref, a: Addr, power: int, tags: Word)
    requires Valid(s) && g in s.gws && a !in s.bulbs
    ensures OnLightStatus(s, g, a, power, tags, false) == s
    ensures OnPowerState(s, g, a, power, false) == s && OnTags(s, g, a, tags, false) == s
  {
    hide Valid;
    FoundKeeps(s, g, a, false);
  }

  // The bulbs and the gateways say everything: the lists have the same bulbs, and counts and statistics are the same.
  lemma DeterminedByBulbs(s: State, t: State)
    requires Valid(s) && Valid(t) && s.bulbs == t.bulbs && s.gws.Keys == t.gws.Keys
    ensures s.bulbCount == t.bulbCount && s.poweredOn == t.poweredOn
    ensures forall g <- s.gws ::
      s.gws[g].refcounts == t.gws[g].refcounts && multiset(s.gws[g].bulbs) == multiset(t.gws[g].bulbs)
  {
    hide Bits, Filed, Powered;
    SameNumbers(s, t);
    forall g <- s.gws
      ensures s.gws[g].refcounts == t.gws[g].refcounts && multiset(s.gws[g].bulbs) == multiset(t.gws[g].bulbs)
    {
      var c, d := s.gws[g], t.gws[g];
      SameLists(s, t, g);
      SameMembers(c.bulbs, d.bulbs);
      forall i | 0 <= i < MAX_TAGS ensures c.refcounts[i] == d.refcounts[i] {
        CarriersOfSame(s.bulbs, c.bulbs, d.bulbs, i);
        assert c.refcounts[i] == Carriers(s.bulbs, c.bulbs, i) && d.refcounts[i] == Carriers(t.bulbs, d.bulbs, i);
      }
    }
  }

  lemma SameNumbers(s: State, t: State)
    requires Powered(s) && Powered(t) && s.bulbs == t.bulbs
    ensures s.bulbCount == t.bulbCount && s.poweredOn == t.poweredOn
  {}

  lemma SameLists(s: State, t: State, g: Ref)
    requires Filed(s) && Filed(t) && s.bulbs == t.bulbs && s.gws.Keys == t.gws.Keys && g in s.gws
    ensures Distinct(s.gws[g].bulbs) && Distinct(t.gws[g].bulbs)
    ensures forall a :: a in s.gws[g].bulbs <==> a in t.gws[g].bulbs
  {
    assert g in t.gws;
    forall a ensures a in s.gws[g].bulbs <==> a in t.gws[g].bulbs {
      assert a in s.gws[g].bulbs <==> a in s.bulbs && s.bulbs[a].gw == g;
      assert a in t.gws[g].bulbs <==> a in t.bulbs && t.bulbs[a].gw == g;
    }
  }

  lemma {:induction false} OnceEach(list: seq<Addr>, x: Addr)
    requires Distinct(list)
    ensures multiset(list)[x] == if x in list then 1 else 0
  {
    if list != [] {
      assert list == [list[0]] + list[1..];
      OnceEach(list[1..], x);
      assert list[0] !in list[1..];
    }
  }

  lemma SameMembers(a: seq<Addr>, b: seq<Addr>)
    requires Distinct(a) && Distinct(b) && forall x :: x in a <==> x in b
    ensures multiset(a) == multiset(b)
  {
    forall x ensures multiset(a)[x] == multiset(b)[x] {
      OnceEach(a, x);
      OnceEach(b, x);
    }
  }

  // How many carry a tag does not depend on the order.
  lemma {:induction false} CarriersOfSame(bulbs: map<Addr, Bulb>, a: seq<Addr>, b: seq<Addr>, i: int)
    requires multiset(a) == multiset(b)
    ensures Carriers(bulbs, a, i) == Carriers(bulbs, b, i)
    decreases |a|
  {
    hide Carries, Carriers;
    if a == [] {
      assert |multiset(b)| == |b| == 0;
    } else {
      var k := FirstPlace(a, b);
      TakenOut(a, 0);
      TakenOut(b, k);
      assert a[..0] + a[1..] == a[1..];
      CarriersOfSame(bulbs, a[1..], b[..k] + b[k + 1..], i);
      CarriersTakenOut(bulbs, a, 0, i);
      CarriersTakenOut(bulbs, b, k, i);
    }
  }

  lemma FirstPlace(a: seq<Addr>, b: seq<Addr>) returns (k: nat)
    requires a != [] && multiset(a) == multiset(b)
    ensures k < |b| && b[k] == a[0]
  {
    assert a[0] in multiset(b);
    k :| 0 <= k < |b| && b[k] == a[0];
  }

  lemma CarriersTakenOut(bulbs: map<Addr, Bulb>, list: seq<Addr>, k: nat, i: int)
    requires k < |list|
    ensures Carriers(bulbs, list, i) == Carries(bulbs, list[k], i) + Carriers(bulbs, list[..k] + list[k + 1..], i)
  {
    hide Carries;
    assert list == list[..k] + ([list[k]] + list[k + 1..]);
    CarriersSplit(bulbs, list[..k], [list[k]] + list[k + 1..], i);
    CarriersSplit(bulbs, list[..k], list[k + 1..], i);
    assert ([list[k]] + list[k + 1..])[1..] == list[k + 1..];
  }

  lemma TakenOut(list: seq<Addr>, k: nat)
    requires k < |list|
    ensures list == list[..k] + ([list[k]] + list[k + 1..])
    ensures multiset(list[..k] + list[k + 1..]) == multiset(list) - multiset{list[k]}
  {
    assert list == list[..k] + ([list[k]] + list[k + 1..]);
    var front, back := list[..k], list[k + 1..];
    assert multiset(front + ([list[k]] + back)) == multiset(front) + (multiset{list[k]} + multiset(back));
  }
}
