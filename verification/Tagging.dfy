/** Tags: the global list with the sites of each tag, and the sixty-four tag ids of every gateway. */
module Tagging {

  import opened BitScan
  import opened Common

  // A gateway that has the tag, and the id it gives to it.
  datatype Site = Site(gw: Ref, tagId: int)

  datatype Tag = Tag(name: string, sites: seq<Site>)

  // The tag ids in use on a gateway, and the tag of each.
  datatype Slots = Slots(tagIds: Word, tags: seq<Option<Ref>>)

  // A reference that is not in the maps was released.
  datatype State = State(gws: map<Ref, Slots>, tags: map<Ref, Tag>, list: seq<Ref>)

  // ---------------------------------------------------------------- tag words

  function SetBit(w: Word, i: int): Word
    requires 0 <= i < 64
  {
    w | Value(i)
  }

  function ClearBit(w: Word, i: int): Word
    requires 0 <= i < 64
  {
    w & Complement(Value(i))
  }

  function Complement(w: Word): Word {
    !w
  }

  lemma BitsComplement(w: Word)
    ensures forall j | 0 <= j < 64 :: j in Bits(Complement(w)) <==> j !in Bits(w)
  {
    hide Bits;
    BitsNot(w);
  }

  predicate TestBit(w: Word, i: int)
    requires 0 <= i < 64
  {
    MaskTest(w, Value(i))
  }

  lemma BitsSet(w: Word, i: int)
    requires 0 <= i < 64
    ensures Bits(SetBit(w, i)) == Bits(w) + {i}
  {
    hide Bits, Value;
    BitsOr(w, Value(i));
    BitsValue(i);
  }

  lemma BitsClear(w: Word, i: int)
    requires 0 <= i < 64
    ensures Bits(ClearBit(w, i)) == Bits(w) - {i}
  {
    hide Bits, Value, Complement;
    var v := Complement(Value(i));
    BitsAnd(w, v);
    BitsComplement(Value(i));
    BitsValue(i);
    AllBut(Bits(w), Bits(v), i);
  }

  lemma AllBut(a: set<int>, b: set<int>, i: int)
    requires (forall j <- a :: 0 <= j < 64) && forall j | 0 <= j < 64 :: j in b <==> j != i
    ensures a * b == a - {i}
  {
    forall j <- a ensures j in b <==> j != i {
      assert 0 <= j < 64;
    }
  }

  lemma BitsTest(w: Word, i: int)
    requires 0 <= i < 64
    ensures TestBit(w, i) <==> i in Bits(w)
  {
    hide Bits, Value, MaskTest;
    HasIsMaskTest(w, i);
  }

  // ---------------------------------------------------------------- the invariant

  ghost predicate OnePerGateway(sites: seq<Site>) {
    forall i, j | 0 <= i < j < |sites| :: sites[i].gw != sites[j].gw
  }

  // Bit i of the ids of a gateway is set if and only if slot i holds a tag.
  ghost predicate SlotsMatch(slots: Slots) {
    |slots.tags| == MAX_TAGS && forall i | 0 <= i < MAX_TAGS :: i in Bits(slots.tagIds) <==> slots.tags[i].Some?
  }

  ghost predicate GatewaysMatch(s: State) {
    forall g <- s.gws :: SlotsMatch(s.gws[g])
  }

  // The list holds every tag once, and no two tags have the same label.
  ghost predicate Listed(s: State) {
    && Distinct(s.list)
    && (forall t :: t in s.list <==> t in s.tags)
    && (forall t, u | t in s.tags && u in s.tags && s.tags[t].name == s.tags[u].name :: t == u)
    && (forall t <- s.tags :: OnePerGateway(s.tags[t].sites))
  }

  // Some slots of a gateway may be in the middle of being released.
  predicate Live(x: Site, c: Ref, dead: set<int>) {
    x.gw != c || x.tagId !in dead
  }

  // Every tag in a slot is in the list, with a site for that slot.
  ghost predicate SlotsHaveSites(s: State, c: Ref, dead: set<int>)
    requires GatewaysMatch(s)
  {
    forall g, i | g in s.gws && 0 <= i < MAX_TAGS && s.gws[g].tags[i].Some? && Live(Site(g, i), c, dead) ::
      var t := s.gws[g].tags[i].value; t in s.tags && Site(g, i) in s.tags[t].sites
  }

  // Every site is for a slot that holds the tag.
  ghost predicate SitesHaveSlots(s: State, c: Ref, dead: set<int>)
    requires GatewaysMatch(s)
  {
    forall t, x | t in s.tags && x in s.tags[t].sites ::
      x.gw in s.gws && 0 <= x.tagId < MAX_TAGS && Live(x, c, dead) && s.gws[x.gw].tags[x.tagId] == Some(t)
  }

  ghost predicate Linked(s: State, c: Ref, dead: set<int>) {
    GatewaysMatch(s) && Listed(s) && SlotsHaveSites(s, c, dead) && SitesHaveSlots(s, c, dead)
  }

  ghost predicate Valid(s: State) {
    Linked(s, 0, {})
  }

  lemma NoneDead(s: State, c: Ref)
    ensures Linked(s, c, {}) <==> Valid(s)
  {
    hide Bits;
  }

  // What the links mean for one slot: the tag has exactly one site for the gateway, and its id is the number of the
  // slot.
  lemma ExactlyOneSite(s: State, g: Ref, i: int)
    requires Valid(s) && g in s.gws && 0 <= i < MAX_TAGS
    ensures |s.gws[g].tags| == MAX_TAGS && (i in Bits(s.gws[g].tagIds) <==> s.gws[g].tags[i].Some?)
    ensures s.gws[g].tags[i].Some? ==>
      var t := s.gws[g].tags[i].value;
      t in s.tags && exists k :: 0 <= k < |s.tags[t].sites| && s.tags[t].sites[k] == Site(g, i)
                                 && forall j | 0 <= j < |s.tags[t].sites| && s.tags[t].sites[j].gw == g :: j == k
  {
    hide Bits;
    if s.gws[g].tags[i].Some? {
      var t := s.gws[g].tags[i].value;
      assert Site(g, i) in s.tags[t].sites;
      var k :| 0 <= k < |s.tags[t].sites| && s.tags[t].sites[k] == Site(g, i);
      assert OnePerGateway(s.tags[t].sites);
    }
  }

  // ---------------------------------------------------------------- looking up

  function SiteIndex(sites: seq<Site>, g: Ref): (k: nat)
    ensures k <= |sites| && (k < |sites| ==> sites[k].gw == g) && forall j | 0 <= j < k :: sites[j].gw != g
  {
    if sites == [] || sites[0].gw == g then 0 else 1 + SiteIndex(sites[1..], g)
  }

  function LabelIndex(list: seq<Ref>, tags: map<Ref, Tag>, name: string): (k: nat)
    requires forall t <- list :: t in tags
    ensures k <= |list| && (k < |list| ==> tags[list[k]].name == name) && forall j | 0 <= j < k :: tags[list[j]].name != name
  {
    if list == [] || tags[list[0]].name == name then 0 else 1 + LabelIndex(list[1..], tags, name)
  }

  function FindTag(s: State, name: string): (r: Option<Ref>)
    requires ListIsLive(s)
    ensures r.Some? ==> r.value in s.tags && s.tags[r.value].name == name
    ensures r.None? ==> forall t <- s.list :: s.tags[t].name != name
  {
    var k := LabelIndex(s.list, s.tags, name);
    if k < |s.list| then Some(s.list[k]) else None
  }

  // ---------------------------------------------------------------- releasing

  function Without<T>(xs: seq<T>, k: nat): seq<T>
    requires k <= |xs|
  {
    if k < |xs| then xs[..k] + xs[k + 1..] else xs
  }

  lemma WithoutAt<T>(xs: seq<T>, k: nat)
    requires k < |xs|
    ensures |Without(xs, k)| == |xs| - 1
    ensures forall j | 0 <= j < |xs| - 1 :: Without(xs, k)[j] == if j < k then xs[j] else xs[j + 1]
  {}

  lemma WithoutSite(sites: seq<Site>, g: Ref)
    requires OnePerGateway(sites)
    ensures var left := Without(sites, SiteIndex(sites, g));
      OnePerGateway(left) && forall x :: x in left <==> x in sites && x.gw != g
  {
    var k := SiteIndex(sites, g);
    var left := Without(sites, k);
    if k < |sites| {
      WithoutAt(sites, k);
      hide Without, SiteIndex;
      forall x | x in left ensures x in sites && x.gw != g {
        var j :| 0 <= j < |left| && left[j] == x;
      }
      forall x | x in sites && x.gw != g ensures x in left {
        var j :| 0 <= j < |sites| && sites[j] == x;
        assert left[if j < k then j else j - 1] == x;
      }
    }
  }

  lemma WithoutRef(list: seq<Ref>, t: Ref, k: nat)
    requires Distinct(list) && k < |list| && list[k] == t
    ensures Distinct(Without(list, k)) && forall u :: u in Without(list, k) <==> u in list && u != t
  {
    assert list == list[..k] + [list[k]] + list[k + 1..];
  }

  function RefIndex(list: seq<Ref>, t: Ref): (k: nat)
    ensures k <= |list| && (k < |list| <==> t in list) && (k < |list| ==> list[k] == t)
  {
    if list == [] || list[0] == t then 0 else 1 + RefIndex(list[1..], t)
  }

  // lgtd_lifx_tagging_deallocate_tag()
  function DeallocateTag(s: State, t: Ref): State {
    s.(tags := s.tags - {t}, list := Without(s.list, RefIndex(s.list, t)))
  }

  // lgtd_lifx_tagging_decref(): the tag goes with its last site.
  function Decref(s: State, t: Ref, g: Ref): State
    requires t in s.tags
  {
    var sites := Without(s.tags[t].sites, SiteIndex(s.tags[t].sites, g));
    var s' := s.(tags := s.tags[t := s.tags[t].(sites := sites)]);
    if sites == [] then DeallocateTag(s', t) else s'
  }

  lemma ListedWithout(s: State, t: Ref)
    requires Listed(s) && t in s.tags
    ensures Listed(DeallocateTag(s, t))
  {
    WithoutRef(s.list, t, RefIndex(s.list, t));
  }

  lemma ListedWithSites(s: State, t: Ref, sites: seq<Site>)
    requires Listed(s) && t in s.tags && OnePerGateway(sites)
    ensures Listed(s.(tags := s.tags[t := s.tags[t].(sites := sites)]))
  {}

  lemma DecrefListed(s: State, t: Ref, g: Ref)
    requires Listed(s) && t in s.tags
    ensures Listed(Decref(s, t, g))
  {
    assert OnePerGateway(s.tags[t].sites);
    hide Listed, OnePerGateway;
    WithoutSite(s.tags[t].sites, g);
    var sites := Without(s.tags[t].sites, SiteIndex(s.tags[t].sites, g));
    ListedWithSites(s, t, sites);
    if sites == [] {
      ListedWithout(s.(tags := s.tags[t := s.tags[t].(sites := sites)]), t);
    }
  }

  lemma DecrefReleases(s: State, t: Ref, g: Ref)
    requires t in s.tags && OnePerGateway(s.tags[t].sites)
    ensures Released(s, Decref(s, t, g), t, g)
  {
    hide OnePerGateway, Without, SiteIndex, RefIndex;
    WithoutSite(s.tags[t].sites, g);
  }

  // s' is s after the site of t for gateway c was released.
  ghost predicate Released(s: State, s': State, t: Ref, c: Ref)
    requires t in s.tags
  {
    && s'.gws == s.gws
    && (forall u | u != t :: (u in s'.tags <==> u in s.tags) && (u in s.tags ==> s'.tags[u] == s.tags[u]))
    && (forall x :: (t in s'.tags && x in s'.tags[t].sites) <==> (x in s.tags[t].sites && x.gw != c))
  }

  lemma ReleasedSlots(s: State, s': State, c: Ref, dead: set<int>, i: int, t: Ref)
    requires GatewaysMatch(s) && SlotsHaveSites(s, c, dead) && SitesHaveSlots(s, c, dead)
    requires t in s.tags && OnePerGateway(s.tags[t].sites) && Site(c, i) in s.tags[t].sites && Released(s, s', t, c)
    ensures GatewaysMatch(s') && SlotsHaveSites(s', c, dead + {i})
  {
    hide Bits;
    forall g, j | g in s'.gws && 0 <= j < MAX_TAGS && s'.gws[g].tags[j].Some? && Live(Site(g, j), c, dead + {i})
      ensures var u := s'.gws[g].tags[j].value; u in s'.tags && Site(g, j) in s'.tags[u].sites
    {
      var u := s.gws[g].tags[j].value;
      assert Live(Site(g, j), c, dead);
      assert u in s.tags && Site(g, j) in s.tags[u].sites;
      if u == t && g == c {
        SameSite(s.tags[t].sites, Site(c, i), Site(c, j));
      }
    }
  }

  lemma SameSite(sites: seq<Site>, x: Site, y: Site)
    requires OnePerGateway(sites) && x in sites && y in sites && x.gw == y.gw
    ensures x == y
  {}

  lemma ReleasedSites(s: State, s': State, c: Ref, dead: set<int>, i: int, t: Ref)
    requires GatewaysMatch(s) && SitesHaveSlots(s, c, dead) && t in s.tags && Released(s, s', t, c)
    requires c in s.gws && 0 <= i < MAX_TAGS && s.gws[c].tags[i] == Some(t)
    ensures GatewaysMatch(s') && SitesHaveSlots(s', c, dead + {i})
  {
    hide Bits;
    forall u, x | u in s'.tags && x in s'.tags[u].sites
      ensures x.gw in s'.gws && 0 <= x.tagId < MAX_TAGS && Live(x, c, dead + {i}) && s'.gws[x.gw].tags[x.tagId] == Some(u)
    {
      assert u in s.tags && x in s.tags[u].sites;
    }
  }

  // Releasing the tag of slot i of gateway c.
  lemma DecrefLinked(s: State, c: Ref, dead: set<int>, i: int, t: Ref)
    requires Linked(s, c, dead) && c in s.gws && 0 <= i < MAX_TAGS && i !in dead
    requires |s.gws[c].tags| == MAX_TAGS && s.gws[c].tags[i] == Some(t)
    ensures t in s.tags && Linked(Decref(s, t, c), c, dead + {i})
  {
    assert Live(Site(c, i), c, dead);
    assert t in s.tags && Site(c, i) in s.tags[t].sites && OnePerGateway(s.tags[t].sites);
    hide Listed, OnePerGateway, GatewaysMatch, SlotsHaveSites, SitesHaveSlots, Decref, Released;
    DecrefListed(s, t, c);
    DecrefReleases(s, t, c);
    ReleasedSlots(s, Decref(s, t, c), c, dead, i, t);
    ReleasedSites(s, Decref(s, t, c), c, dead, i, t);
  }

  // lgtd_lifx_gateway_deallocate_tag_id()
  function Vacated(slots: Slots, i: int): Slots
    requires 0 <= i < |slots.tags| == MAX_TAGS
  {
    Slots(ClearBit(slots.tagIds, i), slots.tags[i := None])
  }

  function DeallocateTagId(s: State, g: Ref, i: int): State
    requires g in s.gws && 0 <= i < |s.gws[g].tags| == MAX_TAGS && (s.gws[g].tags[i].Some? ==> s.gws[g].tags[i].value in s.tags)
  {
    if s.gws[g].tags[i].None? then s
    else
      var s' := Decref(s, s.gws[g].tags[i].value, g);
      s'.(gws := s'.gws[g := Vacated(s.gws[g], i)])
  }

  lemma VacatedMatch(slots: Slots, i: int)
    requires SlotsMatch(slots) && 0 <= i < MAX_TAGS
    ensures SlotsMatch(Vacated(slots, i))
  {
    hide Bits;
    BitsClear(slots.tagIds, i);
    hide ClearBit;
  }

  lemma VacatedLinked(s: State, g: Ref, i: int)
    requires Linked(s, g, {i}) && g in s.gws && 0 <= i < |s.gws[g].tags| == MAX_TAGS
    ensures Valid(s.(gws := s.gws[g := Vacated(s.gws[g], i)]))
  {
    VacatedMatch(s.gws[g], i);
    hide SlotsMatch, Listed, ClearBit;
  }

  lemma DeallocateTagIdValid(s: State, g: Ref, i: int)
    requires Valid(s) && g in s.gws && 0 <= i < MAX_TAGS && |s.gws[g].tags| == MAX_TAGS
    ensures s.gws[g].tags[i].Some? ==> s.gws[g].tags[i].value in s.tags
    ensures Valid(DeallocateTagId(s, g, i))
  {
    NoneDead(s, g);
    hide Linked, Decref, Vacated;
    if s.gws[g].tags[i].Some? {
      DecrefLinked(s, g, {}, i, s.gws[g].tags[i].value);
      assert {} + {i} == {i};
      DecrefGateways(s, s.gws[g].tags[i].value, g);
      VacatedLinked(Decref(s, s.gws[g].tags[i].value, g), g, i);
    }
  }

  lemma DecrefGateways(s: State, t: Ref, g: Ref)
    requires t in s.tags
    ensures Decref(s, t, g).gws == s.gws
  {}

  // ---------------------------------------------------------------- allocating

  // What the allocator has: an address for a tag, and room for a site.
  datatype Alloc = Alloc(tag: Option<Ref>, site: bool)

  predicate Unused(s: State, alloc: Alloc) {
    alloc.tag.Some? ==> alloc.tag.value !in s.tags
  }

  // lgtd_lifx_tagging_allocate_tag()
  function NewTag(s: State, t: Ref, name: string): State {
    s.(tags := s.tags[t := Tag(name, [])], list := [t] + s.list)
  }

  function WithSite(s: State, t: Ref, g: Ref, i: int): State
    requires t in s.tags
  {
    s.(tags := s.tags[t := s.tags[t].(sites := [Site(g, i)] + s.tags[t].sites)])
  }

  datatype Increment = Conflict | NoMemory | Taken(state: State, tag: Ref)

  ghost predicate ListIsLive(s: State) {
    forall t <- s.list :: t in s.tags
  }

  // lgtd_lifx_tagging_incref(): a conflict is the failure of its last assertion.
  function Incref(s: State, name: string, g: Ref, i: int, alloc: Alloc): Increment
    requires ListIsLive(s)
  {
    var found := FindTag(s, name);
    if found.None? && alloc.tag.None? then NoMemory
    else
      var t := if found.Some? then found.value else alloc.tag.value;
      var s' := if found.Some? then s else NewTag(s, t, name);
      var sites := s'.tags[t].sites;
      var k := SiteIndex(sites, g);
      if k < |sites| then (if sites[k].tagId == i then Taken(s', t) else Conflict)
      else if alloc.site then Taken(WithSite(s', t, g, i), t)
      else NoMemory
  }

  function Occupied(slots: Slots, i: int, t: Ref): Slots
    requires 0 <= i < |slots.tags| == MAX_TAGS
  {
    Slots(SetBit(slots.tagIds, i), slots.tags[i := Some(t)])
  }

  datatype Outcome = Aborted | Refused | Allocated(state: State, id: int)

  function FreeId(slots: Slots): int {
    BitScanForward(Complement(slots.tagIds))
  }

  // lgtd_lifx_gateway_allocate_tag_id() with a tag id of its own choice
  function AllocateTagId(s: State, g: Ref, i: int, name: string, alloc: Alloc): Outcome
    requires ListIsLive(s) && g in s.gws && 0 <= i < |s.gws[g].tags| == MAX_TAGS
  {
    if TestBit(s.gws[g].tagIds, i) then Allocated(s, i)
    else
      match Incref(s, name, g, i, alloc)
      case Conflict => Aborted
      case NoMemory => Refused
      case Taken(s', t) => Allocated(s'.(gws := s'.gws[g := Occupied(s.gws[g], i, t)]), i)
  }

  // The lowest free id of a gateway, and -1 when all of them are in use.
  lemma FreeIdIsLowest(slots: Slots)
    ensures -1 <= FreeId(slots) < MAX_TAGS
    ensures FreeId(slots) == -1 <==> forall i | 0 <= i < MAX_TAGS :: i in Bits(slots.tagIds)
    ensures FreeId(slots) != -1 ==> FreeId(slots) !in Bits(slots.tagIds)
    ensures FreeId(slots) != -1 ==> forall i | 0 <= i < FreeId(slots) :: i in Bits(slots.tagIds)
  {
    hide Bits, BitScanForward, Complement;
    var free := Complement(slots.tagIds);
    BitsComplement(slots.tagIds);
    BitScanForwardLowest(free);
    forall i | 0 <= i < MAX_TAGS ensures i in Bits(free) <==> i !in Bits(slots.tagIds) {
    }
  }

  lemma NewTagValid(s: State, t: Ref, name: string)
    requires Valid(s) && t !in s.tags && forall u <- s.tags :: s.tags[u].name != name
    ensures Valid(NewTag(s, t, name))
  {
    hide Bits;
    NewTagListed(s, t, name);
    hide Listed;
  }

  lemma NewTagListed(s: State, t: Ref, name: string)
    requires Listed(s) && t !in s.tags && forall u <- s.tags :: s.tags[u].name != name
    ensures Listed(NewTag(s, t, name))
  {
    var list := [t] + s.list;
    assert forall i | 0 < i < |list| :: list[i] == s.list[i - 1];
    assert forall u :: u in list <==> u == t || u in s.list;
  }

  lemma OccupiedMatch(slots: Slots, i: int, t: Ref)
    requires SlotsMatch(slots) && 0 <= i < MAX_TAGS
    ensures SlotsMatch(Occupied(slots, i, t))
  {
    hide Bits;
    BitsSet(slots.tagIds, i);
    hide SetBit;
  }

  // A tag gets a site for a slot that was free.
  function Given(s: State, t: Ref, g: Ref, i: int): State
    requires t in s.tags && g in s.gws && 0 <= i < |s.gws[g].tags| == MAX_TAGS
  {
    WithSite(s, t, g, i).(gws := s.gws[g := Occupied(s.gws[g], i, t)])
  }

  lemma GivenListed(s: State, t: Ref, g: Ref, i: int)
    requires Listed(s) && t in s.tags && forall x <- s.tags[t].sites :: x.gw != g
    ensures Listed(WithSite(s, t, g, i))
    ensures forall x :: x in WithSite(s, t, g, i).tags[t].sites <==> x == Site(g, i) || x in s.tags[t].sites
  {
    var sites := [Site(g, i)] + s.tags[t].sites;
    assert OnePerGateway(s.tags[t].sites);
    assert forall k | 0 < k < |sites| :: sites[k] == s.tags[t].sites[k - 1] && sites[k] in s.tags[t].sites;
    ListedWithSites(s, t, sites);
  }

  lemma GivenValid(s: State, t: Ref, g: Ref, i: int)
    requires Valid(s) && t in s.tags && g in s.gws && 0 <= i < |s.gws[g].tags| == MAX_TAGS && s.gws[g].tags[i].None?
    requires forall x <- s.tags[t].sites :: x.gw != g
    ensures Valid(Given(s, t, g, i))
  {
    hide Bits, SetBit, Listed, SlotsHaveSites, SitesHaveSlots;
    GivenListed(s, t, g, i);
    ListedSame(WithSite(s, t, g, i), Given(s, t, g, i));
    OccupiedMatch(s.gws[g], i, t);
    GivenLinks(s, t, g, i);
  }

  lemma GivenLinks(s: State, t: Ref, g: Ref, i: int)
    requires Valid(s) && t in s.tags && g in s.gws && 0 <= i < |s.gws[g].tags| == MAX_TAGS && s.gws[g].tags[i].None?
    requires GatewaysMatch(Given(s, t, g, i))
    ensures SlotsHaveSites(Given(s, t, g, i), 0, {}) && SitesHaveSlots(Given(s, t, g, i), 0, {})
  {
    hide Listed, SlotsHaveSites, SitesHaveSlots, Given, GatewaysMatch;
    GivenSlotLinks(s, t, g, i);
    GivenSiteLinks(s, t, g, i);
  }

  lemma GivenSlotLinks(s: State, t: Ref, g: Ref, i: int)
    requires GatewaysMatch(s) && SlotsHaveSites(s, 0, {}) && t in s.tags && g in s.gws && 0 <= i < |s.gws[g].tags| == MAX_TAGS
    requires GatewaysMatch(Given(s, t, g, i))
    ensures SlotsHaveSites(Given(s, t, g, i), 0, {})
  {
    hide Bits, SetBit;
  }

  lemma GivenSiteLinks(s: State, t: Ref, g: Ref, i: int)
    requires GatewaysMatch(s) && SitesHaveSlots(s, 0, {}) && t in s.tags
    requires g in s.gws && 0 <= i < |s.gws[g].tags| == MAX_TAGS && s.gws[g].tags[i].None?
    requires GatewaysMatch(Given(s, t, g, i))
    ensures SitesHaveSlots(Given(s, t, g, i), 0, {})
  {
    hide Bits, SetBit;
  }

  lemma ListedSame(s: State, s': State)
    requires Listed(s) && s'.tags == s.tags && s'.list == s.list
    ensures Listed(s')
  {}

  // A gateway has a tag of that name.
  ghost predicate OnGateway(s: State, name: string, g: Ref) {
    exists t :: t in s.tags && s.tags[t].name == name && exists x :: x in s.tags[t].sites && x.gw == g
  }

  // The tag of that name, once it exists.
  function Named(s: State, name: string, alloc: Alloc): State
    requires ListIsLive(s)
  {
    if FindTag(s, name).None? && alloc.tag.Some? then NewTag(s, alloc.tag.value, name) else s
  }

  lemma ValidIsLive(s: State)
    requires Valid(s)
    ensures ListIsLive(s)
  {
    hide Bits;
  }

  lemma NamedValid(s: State, name: string, alloc: Alloc)
    requires Valid(s) && Unused(s, alloc)
    ensures ListIsLive(s) && Valid(Named(s, name, alloc)) && Named(s, name, alloc).gws == s.gws
  {
    ValidIsLive(s);
    assert forall u <- s.tags :: u in s.list by { Members(s); }
    hide Linked;
    if FindTag(s, name).None? && alloc.tag.Some? {
      NewTagValid(s, alloc.tag.value, name);
    }
  }

  lemma Members(s: State)
    requires Valid(s)
    ensures forall u <- s.tags :: u in s.list
    ensures forall t, u | t in s.tags && u in s.tags && s.tags[t].name == s.tags[u].name :: t == u
  {
    hide Bits;
  }

  lemma SitesOfGateway(s: State, t: Ref, g: Ref, i: int)
    requires Valid(s) && t in s.tags && g in s.gws && 0 <= i < |s.gws[g].tags| == MAX_TAGS && s.gws[g].tags[i].None?
    ensures Site(g, i) !in s.tags[t].sites
  {
    hide Bits;
  }

  // Taking a free slot: it is given to the tag of that name, unless that one has another slot already.
  lemma IncrefFree(s: State, g: Ref, i: int, name: string, alloc: Alloc)
    requires Valid(s) && ListIsLive(s) && Unused(s, alloc)
    requires g in s.gws && 0 <= i < |s.gws[g].tags| == MAX_TAGS && s.gws[g].tags[i].None?
    ensures var r := Incref(s, name, g, i, alloc);
      && (r.Conflict? <==> OnGateway(s, name, g))
      && (r.Taken? ==> var s' := Named(s, name, alloc);
            r.tag in s'.tags && s'.tags[r.tag].name == name && r.state == WithSite(s', r.tag, g, i)
            && forall x <- s'.tags[r.tag].sites :: x.gw != g)
  {
    Members(s);
    hide Linked;
    var found := FindTag(s, name);
    if found.Some? {
      SitesOfGateway(s, found.value, g, i);
      var sites := s.tags[found.value].sites;
      if SiteIndex(sites, g) < |sites| {
        assert sites[SiteIndex(sites, g)] in sites;
      }
    }
  }

  // s' has the slots of s that were in use, and maybe more.
  ghost predicate Grows(s: State, s': State) {
    && s'.gws.Keys == s.gws.Keys
    && (forall g, j | g in s.gws && 0 <= j < |s.gws[g].tags| && s.gws[g].tags[j].Some? ::
          j < |s'.gws[g].tags| && s'.gws[g].tags[j] == s.gws[g].tags[j])
    && (forall t <- s.tags :: t in s'.tags && s'.tags[t].name == s.tags[t].name)
  }

  lemma GivenSlots(s: State, t: Ref, g: Ref, i: int)
    requires GatewaysMatch(s) && t in s.tags && g in s.gws && 0 <= i < |s.gws[g].tags| == MAX_TAGS && s.gws[g].tags[i].None?
    ensures GatewaysMatch(Given(s, t, g, i)) && Grows(s, Given(s, t, g, i))
    ensures Bits(Given(s, t, g, i).gws[g].tagIds) == Bits(s.gws[g].tagIds) + {i}
  {
    hide Bits, SetBit;
    OccupiedMatch(s.gws[g], i, t);
    BitsSet(s.gws[g].tagIds, i);
  }

  lemma GivenOnGateway(s: State, t: Ref, g: Ref, i: int, name: string)
    requires t in s.tags && g in s.gws && 0 <= i < |s.gws[g].tags| == MAX_TAGS && s.tags[t].name == name
    ensures OnGateway(Given(s, t, g, i), name, g)
  {
    assert Given(s, t, g, i).tags[t].sites[0] == Site(g, i);
  }

  lemma NamedGrows(s: State, s': State, name: string, alloc: Alloc)
    requires ListIsLive(s) && GatewaysMatch(s) && Unused(s, alloc)
    requires GatewaysMatch(s') && GatewaysMatch(Named(s, name, alloc)) && Grows(Named(s, name, alloc), s')
    ensures Grows(s, s')
  {
    hide Bits;
  }

  lemma GivenGrows(s: State, name: string, alloc: Alloc, t: Ref, g: Ref, i: int)
    requires ListIsLive(s) && GatewaysMatch(s) && GatewaysMatch(Named(s, name, alloc)) && Unused(s, alloc)
    requires t in Named(s, name, alloc).tags && g in s.gws && 0 <= i < |s.gws[g].tags| == MAX_TAGS && s.gws[g].tags[i].None?
    requires Named(s, name, alloc).tags[t].name == name && Named(s, name, alloc).gws == s.gws
    ensures var s' := Given(Named(s, name, alloc), t, g, i);
      GatewaysMatch(s') && Grows(s, s') && Bits(s'.gws[g].tagIds) == Bits(s.gws[g].tagIds) + {i} && OnGateway(s', name, g)
  {
    hide Bits, GatewaysMatch, Grows, OnGateway, Given, Named;
    var s' := Named(s, name, alloc);
    GivenSlots(s', t, g, i);
    GivenOnGateway(s', t, g, i, name);
    NamedGrows(s, Given(s', t, g, i), name, alloc);
  }

  // Allocating an id keeps the links; it goes wrong if and only if the name is on another id of the gateway.
  lemma AllocateTagIdValid(s: State, g: Ref, i: int, name: string, alloc: Alloc)
    requires Valid(s) && g in s.gws && 0 <= i < |s.gws[g].tags| == MAX_TAGS && Unused(s, alloc)
    ensures ListIsLive(s)
    ensures var r := AllocateTagId(s, g, i, name, alloc);
      && (r.Aborted? <==> i !in Bits(s.gws[g].tagIds) && OnGateway(s, name, g))
      && (alloc.tag.Some? && alloc.site ==> !r.Refused?)
      && (r.Allocated? ==> r.id == i && Valid(r.state) && Grows(s, r.state)
                           && Bits(r.state.gws[g].tagIds) == Bits(s.gws[g].tagIds) + {i}
                           && (i !in Bits(s.gws[g].tagIds) ==> OnGateway(r.state, name, g)))
  {
    ValidIsLive(s);
    assert i in Bits(s.gws[g].tagIds) <==> s.gws[g].tags[i].Some? by { ExactlyOneSite(s, g, i); }
    assert GatewaysMatch(s);
    hide SlotsHaveSites, SitesHaveSlots, Listed, GatewaysMatch, Bits, TestBit, Incref, OnGateway, Named, WithSite, Grows, Given;
    BitsTest(s.gws[g].tagIds, i);
    if s.gws[g].tags[i].None? {
      IncrefFree(s, g, i, name, alloc);
      if alloc.tag.Some? && alloc.site {
        IncrefRefused(s, g, i, name, alloc);
      }
      NamedValid(s, name, alloc);
      var r := Incref(s, name, g, i, alloc);
      if r.Taken? {
        GivenValid(Named(s, name, alloc), r.tag, g, i);
        GivenGrows(s, name, alloc, r.tag, g, i);
        GivenIs(Named(s, name, alloc), r.tag, g, i);
      }
    } else {
      GrowsSelf(s);
      assert Bits(s.gws[g].tagIds) == Bits(s.gws[g].tagIds) + {i};
    }
  }

  lemma GrowsSelf(s: State)
    requires GatewaysMatch(s)
    ensures Grows(s, s)
  {
    hide Bits;
  }

  lemma IncrefRefused(s: State, g: Ref, i: int, name: string, alloc: Alloc)
    requires ListIsLive(s) && alloc.tag.Some? && alloc.site
    ensures !Incref(s, name, g, i, alloc).NoMemory?
  {}

  lemma GivenIs(s: State, t: Ref, g: Ref, i: int)
    requires t in s.tags && g in s.gws && 0 <= i < |s.gws[g].tags| == MAX_TAGS
    ensures var s' := WithSite(s, t, g, i); Given(s, t, g, i) == s'.(gws := s'.gws[g := Occupied(s.gws[g], i, t)])
  {}
}
