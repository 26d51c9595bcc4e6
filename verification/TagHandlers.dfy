/** What closing a gateway, a packet of tag labels and a tag call do to the tags. */
module TagHandlers {

  import opened BitScan
  import opened Common
  import opened Tagging

  // ---------------------------------------------------------------- closing a gateway

  // The slots before k.
  ghost function SlotsBefore(k: nat): (r: set<int>)
    ensures forall i :: i in r <==> 0 <= i < k
  {
    if k == 0 then {} else SlotsBefore(k - 1) + {k - 1}
  }

  lemma SlotsBeforeNext(k: nat)
    ensures SlotsBefore(k) + {k} == SlotsBefore(k + 1)
  {}

  // The loop over the tags of a gateway that is closed, from slot k on.
  ghost function ReleaseFrom(s: State, g: Ref, k: nat): State
    requires Linked(s, g, SlotsBefore(k)) && g in s.gws && |s.gws[g].tags| == MAX_TAGS && k <= MAX_TAGS
    decreases MAX_TAGS - k
  {
    if k == MAX_TAGS then s
    else
      ReleaseStep(s, g, k);
      ReleaseFrom(ReleaseOne(s, g, k), g, k + 1)
  }

  lemma ReleaseUnfold(s: State, g: Ref, k: nat)
    requires Linked(s, g, SlotsBefore(k)) && g in s.gws && |s.gws[g].tags| == MAX_TAGS && k <= MAX_TAGS
    ensures k == MAX_TAGS ==> ReleaseFrom(s, g, k) == s
    ensures k < MAX_TAGS ==>
      && (s.gws[g].tags[k].Some? ==> s.gws[g].tags[k].value in s.tags)
      && Linked(ReleaseOne(s, g, k), g, SlotsBefore(k + 1)) && ReleaseOne(s, g, k).gws == s.gws
      && ReleaseFrom(s, g, k) == ReleaseFrom(ReleaseOne(s, g, k), g, k + 1)
  {
    hide Linked, ReleaseOne;
    if k < MAX_TAGS {
      ReleaseStep(s, g, k);
    }
  }

  function ReleaseOne(s: State, g: Ref, k: nat): State
    requires g in s.gws && k < |s.gws[g].tags| && (s.gws[g].tags[k].Some? ==> s.gws[g].tags[k].value in s.tags)
  {
    if s.gws[g].tags[k].Some? then Decref(s, s.gws[g].tags[k].value, g) else s
  }

  lemma ReleaseStep(s: State, g: Ref, k: nat)
    requires Linked(s, g, SlotsBefore(k)) && g in s.gws && |s.gws[g].tags| == MAX_TAGS && k < MAX_TAGS
    ensures s.gws[g].tags[k].Some? ==> s.gws[g].tags[k].value in s.tags
    ensures Linked(ReleaseOne(s, g, k), g, SlotsBefore(k + 1)) && ReleaseOne(s, g, k).gws == s.gws
  {
    SlotsBeforeNext(k);
    if s.gws[g].tags[k].Some? {
      hide Linked, Decref;
      var t := s.gws[g].tags[k].value;
      DecrefLinked(s, g, SlotsBefore(k), k, t);
      DecrefGateways(s, t, g);
    } else {
      NoTagThere(s, g, k);
    }
  }

  lemma NoTagThere(s: State, g: Ref, k: nat)
    requires Linked(s, g, SlotsBefore(k)) && g in s.gws && |s.gws[g].tags| == MAX_TAGS && k < MAX_TAGS && s.gws[g].tags[k].None?
    ensures Linked(s, g, SlotsBefore(k + 1))
  {
    hide Bits, Listed;
    forall t, x | t in s.tags && x in s.tags[t].sites
      ensures x.gw in s.gws && 0 <= x.tagId < MAX_TAGS && Live(x, g, SlotsBefore(k + 1)) && s.gws[x.gw].tags[x.tagId] == Some(t)
    {
    }
  }

  ghost function CloseGateway(s: State, g: Ref): State
    requires Valid(s) && g in s.gws && |s.gws[g].tags| == MAX_TAGS
  {
    NothingReleased(s, g);
    Dropped(ReleaseFrom(s, g, 0), g)
  }

  function Dropped(s: State, g: Ref): State {
    s.(gws := s.gws - {g})
  }

  lemma NothingReleased(s: State, g: Ref)
    ensures Linked(s, g, SlotsBefore(0)) <==> Valid(s)
  {
    hide Linked;
    assert SlotsBefore(0) == {};
    NoneDead(s, g);
  }

  lemma {:induction false} ReleasedAll(s: State, g: Ref, k: nat)
    requires Linked(s, g, SlotsBefore(k)) && g in s.gws && |s.gws[g].tags| == MAX_TAGS && k <= MAX_TAGS
    ensures Linked(ReleaseFrom(s, g, k), g, SlotsBefore(MAX_TAGS)) && ReleaseFrom(s, g, k).gws == s.gws
    decreases MAX_TAGS - k
  {
    hide Linked, ReleaseOne;
    if k < MAX_TAGS {
      ReleaseStep(s, g, k);
      ReleasedAll(ReleaseOne(s, g, k), g, k + 1);
    }
  }

  lemma GoneSites(s: State, g: Ref)
    requires GatewaysMatch(s) && SitesHaveSlots(s, g, SlotsBefore(MAX_TAGS))
    ensures forall t, x | t in s.tags && x in s.tags[t].sites :: x.gw != g
  {
    hide Bits;
    forall t, x | t in s.tags && x in s.tags[t].sites ensures x.gw != g {
      assert Live(x, g, SlotsBefore(MAX_TAGS));
      assert x.tagId in SlotsBefore(MAX_TAGS);
    }
  }

  lemma GoneLinks(s: State, g: Ref, dead: set<int>)
    requires GatewaysMatch(s) && SlotsHaveSites(s, g, dead) && SitesHaveSlots(s, g, dead)
    requires forall t, x | t in s.tags && x in s.tags[t].sites :: x.gw != g
    ensures GatewaysMatch(Dropped(s, g)) && SlotsHaveSites(Dropped(s, g), 0, {}) && SitesHaveSlots(Dropped(s, g), 0, {})
  {
    hide Bits;
  }

  lemma GoneGateway(s: State, g: Ref)
    requires Linked(s, g, SlotsBefore(MAX_TAGS))
    ensures Valid(Dropped(s, g))
    ensures forall t, x | t in s.tags && x in s.tags[t].sites :: x.gw != g
  {
    hide Listed, GatewaysMatch, SlotsHaveSites, SitesHaveSlots;
    ListedSame(s, Dropped(s, g));
    GoneSites(s, g);
    GoneLinks(s, g, SlotsBefore(MAX_TAGS));
  }

  // The sites of a tag for the other gateways, in their order.
  function OffSites(sites: seq<Site>, g: Ref): seq<Site> {
    if sites == [] then [] else (if sites[0].gw != g then [sites[0]] else []) + OffSites(sites[1..], g)
  }

  lemma {:induction false} OffSitesWithout(sites: seq<Site>, g: Ref)
    ensures OffSites(Without(sites, SiteIndex(sites, g)), g) == OffSites(sites, g)
  {
    var k := SiteIndex(sites, g);
    if 0 < k {
      OffSitesWithout(sites[1..], g);
      assert SiteIndex(sites[1..], g) == k - 1;
      assert Without(sites, k) == [sites[0]] + Without(sites[1..], k - 1);
    } else if sites != [] {
      assert Without(sites, 0) == sites[1..];
    }
  }

  lemma {:induction false} AllOff(sites: seq<Site>, g: Ref)
    requires forall x <- sites :: x.gw != g
    ensures OffSites(sites, g) == sites
  {
    if sites != [] {
      assert sites == [sites[0]] + sites[1..];
      AllOff(sites[1..], g);
    }
  }

  // Only sites for the gateway may be gone, and a tag went only with its last site.
  ghost predicate Fades(s: State, s': State, g: Ref) {
    && s'.gws == s.gws && s'.tags.Keys <= s.tags.Keys
    && (forall t <- s'.tags ::
          && s'.tags[t].name == s.tags[t].name && OffSites(s'.tags[t].sites, g) == OffSites(s.tags[t].sites, g)
          && (s'.tags[t].sites == [] <==> s.tags[t].sites == []))
    && (forall t <- s.tags | t !in s'.tags :: s.tags[t].sites != [] && OffSites(s.tags[t].sites, g) == [])
  }

  lemma FadesMore(s1: State, s2: State, s3: State, g: Ref)
    requires Fades(s1, s2, g) && Fades(s2, s3, g)
    ensures Fades(s1, s3, g)
  {
    hide OffSites;
  }

  lemma DecrefFades(s: State, t: Ref, g: Ref)
    requires t in s.tags && s.tags[t].sites != []
    ensures Fades(s, Decref(s, t, g), g)
  {
    hide OffSites;
    var sites := s.tags[t].sites;
    OffSitesWithout(sites, g);
    assert OffSites([], g) == [] by { AllOff([], g); }
  }

  lemma ReleaseOneFades(s: State, g: Ref, k: nat)
    requires Linked(s, g, SlotsBefore(k)) && g in s.gws && |s.gws[g].tags| == MAX_TAGS && k < MAX_TAGS
    ensures s.gws[g].tags[k].Some? ==> s.gws[g].tags[k].value in s.tags
    ensures Fades(s, ReleaseOne(s, g, k), g)
  {
    if s.gws[g].tags[k].Some? {
      assert Live(Site(g, k), g, SlotsBefore(k));
      var t := s.gws[g].tags[k].value;
      assert t in s.tags && Site(g, k) in s.tags[t].sites;
      hide Linked, Decref, Fades;
      DecrefFades(s, t, g);
    } else {
      hide Linked, OffSites;
    }
  }

  lemma {:induction false} ReleaseFades(s: State, g: Ref, k: nat)
    requires Linked(s, g, SlotsBefore(k)) && g in s.gws && |s.gws[g].tags| == MAX_TAGS && k <= MAX_TAGS
    ensures Fades(s, ReleaseFrom(s, g, k), g)
    decreases MAX_TAGS - k
  {
    hide Linked, ReleaseOne, Fades;
    if k == MAX_TAGS {
      FadesSelf(s, g);
    } else {
      ReleaseStep(s, g, k);
      ReleaseOneFades(s, g, k);
      ReleaseFades(ReleaseOne(s, g, k), g, k + 1);
      FadesMore(s, ReleaseOne(s, g, k), ReleaseFrom(s, g, k), g);
    }
  }

  lemma FadesSelf(s: State, g: Ref)
    ensures Fades(s, s, g)
  {
    hide OffSites;
  }

  // Without the gateway g: the other gateways have the tags they had, and every tag has exactly its sites for these,
  // in their order. A tag is gone if it had sites, and all of them were for g.
  ghost predicate WithoutGateway(s: State, s': State, g: Ref) {
    && s'.gws == s.gws - {g}
    && (forall t :: t in s'.tags <==> t in s.tags && (s.tags[t].sites == [] || OffSites(s.tags[t].sites, g) != []))
    && (forall t <- s'.tags :: s'.tags[t] == Tag(s.tags[t].name, OffSites(s.tags[t].sites, g)))
  }

  lemma FadedAway(s: State, s': State, g: Ref)
    requires Fades(s, s', g) && forall t, x | t in s'.tags && x in s'.tags[t].sites :: x.gw != g
    ensures WithoutGateway(s, Dropped(s', g), g)
  {
    hide OffSites;
    forall t <- s'.tags ensures OffSites(s'.tags[t].sites, g) == s'.tags[t].sites {
      AllOff(s'.tags[t].sites, g);
    }
  }

  // A closed gateway is in no site, the links of the others hold, and nothing of them changes.
  lemma CloseGatewayValid(s: State, g: Ref)
    requires Valid(s) && g in s.gws && |s.gws[g].tags| == MAX_TAGS
    ensures var s' := CloseGateway(s, g);
      && Valid(s') && s'.gws.Keys == s.gws.Keys - {g}
      && forall t, x | t in s'.tags && x in s'.tags[t].sites :: x.gw != g
    ensures WithoutGateway(s, CloseGateway(s, g), g)
  {
    hide Linked, ReleaseFrom, Fades, WithoutGateway;
    NothingReleased(s, g);
    ReleasedAll(s, g, 0);
    ReleaseFades(s, g, 0);
    GoneGateway(ReleaseFrom(s, g, 0), g);
    FadedAway(s, ReleaseFrom(s, g, 0), g);
  }

  // ---------------------------------------------------------------- opening one

  function NoTags(): (slots: Slots)
    ensures |slots.tags| == MAX_TAGS && forall i | 0 <= i < MAX_TAGS :: slots.tags[i].None?
  {
    Slots(0, seq(MAX_TAGS, _ => None))
  }

  function OpenGateway(s: State, g: Ref): State {
    State(s.gws[g := NoTags()], s.tags, s.list)
  }

  lemma OpenGatewayValid(s: State, g: Ref)
    requires Valid(s) && g !in s.gws
    ensures Valid(OpenGateway(s, g))
  {
    BitsZero();
    hide Bits, Listed;
    ListedSame(s, OpenGateway(s, g));
  }

  // ---------------------------------------------------------------- a packet of tag labels

  // What the n-th round of a loop gets when it allocates, while some addresses are in use; it is never one of these.
  type Memory = (nat, set<Ref>) -> Alloc

  ghost predicate Sound(mem: Memory) {
    forall n, live :: mem(n, live).tag.Some? ==> mem(n, live).tag.value !in live
  }

  // There is always room.
  ghost predicate Plenty(mem: Memory) {
    forall n, live :: mem(n, live).tag.Some? && mem(n, live).site
  }

  lemma Slotted(s: State, g: Ref)
    requires Valid(s) && g in s.gws
    ensures |s.gws[g].tags| == MAX_TAGS && ListIsLive(s)
    ensures forall i | 0 <= i < MAX_TAGS && s.gws[g].tags[i].Some? :: s.gws[g].tags[i].value in s.tags
  {
    hide Bits;
    forall i | 0 <= i < MAX_TAGS && s.gws[g].tags[i].Some? ensures s.gws[g].tags[i].value in s.tags {
      assert Live(Site(g, i), 0, {});
    }
  }

  // One id of the packet; None is an abort.
  ghost function LabelOne(s: State, g: Ref, i: int, name: string, mem: Memory, n: nat): Option<State>
    requires Valid(s) && g in s.gws && 0 <= i < MAX_TAGS
  {
    Slotted(s, g);
    if name == "" then Some(DeallocateTagId(s, g, i))
    else
      var r := AllocateTagId(s, g, i, name, mem(n, s.tags.Keys));
      if r.Aborted? then None else if r.Refused? then Some(s) else Some(r.state)
  }

  lemma LabelOneValid(s: State, g: Ref, i: int, name: string, mem: Memory, n: nat)
    requires Valid(s) && g in s.gws && 0 <= i < MAX_TAGS && Sound(mem)
    ensures var r := LabelOne(s, g, i, name, mem, n); r.Some? ==> Valid(r.value) && r.value.gws.Keys == s.gws.Keys
  {
    hide Linked, AllocateTagId, DeallocateTagId;
    Slotted(s, g);
    if name == "" {
      DeallocateTagIdValid(s, g, i);
      DeallocateKeys(s, g, i);
    } else {
      assert Unused(s, mem(n, s.tags.Keys));
      AllocateTagIdValid(s, g, i, name, mem(n, s.tags.Keys));
    }
  }

  lemma DeallocateKeys(s: State, g: Ref, i: int)
    requires g in s.gws && 0 <= i < |s.gws[g].tags| == MAX_TAGS && (s.gws[g].tags[i].Some? ==> s.gws[g].tags[i].value in s.tags)
    ensures DeallocateTagId(s, g, i).gws.Keys == s.gws.Keys
  {}

  ghost predicate TagIds(ids: seq<int>) {
    forall k | 0 <= k < |ids| :: 0 <= ids[k] < MAX_TAGS
  }

  // lgtd_lifx_gateway_handle_tag_labels()
  ghost function LabelAll(s: State, g: Ref, ids: seq<int>, name: string, mem: Memory, n: nat): Option<State>
    requires Valid(s) && g in s.gws && Sound(mem) && TagIds(ids)
    decreases |ids|
  {
    if ids == [] then Some(s)
    else
      LabelOneValid(s, g, ids[0], name, mem, n);
      var r := LabelOne(s, g, ids[0], name, mem, n);
      if r.None? then None else LabelAll(r.value, g, ids[1..], name, mem, n + 1)
  }

  // The links hold after any packet of tag labels that does not abort.
  lemma {:induction false} LabelAllValid(s: State, g: Ref, ids: seq<int>, name: string, mem: Memory, n: nat)
    requires Valid(s) && g in s.gws && Sound(mem) && TagIds(ids)
    ensures var r := LabelAll(s, g, ids, name, mem, n); r.Some? ==> Valid(r.value) && r.value.gws.Keys == s.gws.Keys
    decreases |ids|
  {
    hide Valid, LabelOne;
    if ids != [] {
      LabelOneValid(s, g, ids[0], name, mem, n);
      var r := LabelOne(s, g, ids[0], name, mem, n);
      if r.Some? {
        LabelAllValid(r.value, g, ids[1..], name, mem, n + 1);
      }
    }
  }

  ghost predicate IsFree(s: State, g: Ref, i: int) {
    g in s.gws && i !in Bits(s.gws[g].tagIds)
  }

  // A free id when the gateway has the name already, or two free ids.
  ghost predicate Clash(s: State, g: Ref, ids: seq<int>, name: string) {
    && name != ""
    && ((OnGateway(s, name, g) && exists k :: 0 <= k < |ids| && IsFree(s, g, ids[k]))
        || exists j, k :: 0 <= j < k < |ids| && IsFree(s, g, ids[j]) && IsFree(s, g, ids[k]))
  }

  lemma ClashSkips(s: State, g: Ref, ids: seq<int>, name: string)
    requires ids != [] && !IsFree(s, g, ids[0])
    ensures Clash(s, g, ids, name) <==> Clash(s, g, ids[1..], name)
  {
    hide OnGateway, IsFree;
    var rest := ids[1..];
    assert forall k | 0 < k < |ids| :: ids[k] == rest[k - 1];
    if OnGateway(s, name, g) && exists k :: 0 <= k < |ids| && IsFree(s, g, ids[k]) {
      var k :| 0 <= k < |ids| && IsFree(s, g, ids[k]);
      assert IsFree(s, g, rest[k - 1]);
    }
    if exists j, k :: 0 <= j < k < |ids| && IsFree(s, g, ids[j]) && IsFree(s, g, ids[k]) {
      var j, k :| 0 <= j < k < |ids| && IsFree(s, g, ids[j]) && IsFree(s, g, ids[k]);
      assert IsFree(s, g, rest[j - 1]) && IsFree(s, g, rest[k - 1]);
    }
    assert forall k | 0 <= k < |rest| :: rest[k] == ids[k + 1];
  }

  lemma ClashTaken(s: State, s': State, g: Ref, ids: seq<int>, name: string)
    requires ids != [] && Ascending(ids) && IsFree(s, g, ids[0]) && !OnGateway(s, name, g) && name != ""
    requires g in s'.gws && Bits(s'.gws[g].tagIds) == Bits(s.gws[g].tagIds) + {ids[0]} && OnGateway(s', name, g)
    ensures Clash(s, g, ids, name) <==> Clash(s', g, ids[1..], name)
  {
    hide OnGateway, Bits;
    var rest := ids[1..];
    assert forall k | 0 <= k < |rest| :: rest[k] == ids[k + 1] && (IsFree(s', g, rest[k]) <==> IsFree(s, g, ids[k + 1]));
    if Clash(s, g, ids, name) {
      var j, k :| 0 <= j < k < |ids| && IsFree(s, g, ids[j]) && IsFree(s, g, ids[k]);
      assert IsFree(s', g, rest[k - 1]);
    }
    if Clash(s', g, rest, name) {
      var k :| 0 <= k < |rest| && IsFree(s', g, rest[k]);
      assert IsFree(s, g, ids[0]) && IsFree(s, g, ids[k + 1]);
    }
  }

  lemma ClashRefused(s: State, g: Ref, ids: seq<int>, name: string)
    requires ids != [] && Clash(s, g, ids[1..], name)
    ensures Clash(s, g, ids, name)
  {
    hide OnGateway, IsFree;
    var rest := ids[1..];
    assert forall k | 0 <= k < |rest| :: rest[k] == ids[k + 1];
    if exists k :: 0 <= k < |rest| && IsFree(s, g, rest[k]) {
      var k :| 0 <= k < |rest| && IsFree(s, g, rest[k]);
      assert IsFree(s, g, ids[k + 1]);
    }
    if exists j, k :: 0 <= j < k < |rest| && IsFree(s, g, rest[j]) && IsFree(s, g, rest[k]) {
      var j, k :| 0 <= j < k < |rest| && IsFree(s, g, rest[j]) && IsFree(s, g, rest[k]);
      assert IsFree(s, g, ids[j + 1]) && IsFree(s, g, ids[k + 1]);
    }
  }

  lemma ClashFirst(s: State, g: Ref, ids: seq<int>, name: string)
    requires ids != [] && IsFree(s, g, ids[0]) && OnGateway(s, name, g) && name != ""
    ensures Clash(s, g, ids, name)
  {
    hide OnGateway, IsFree;
  }

  // What one id does to the possibility of a clash.
  lemma LabelOneClash(s: State, g: Ref, ids: seq<int>, name: string, mem: Memory, n: nat)
    requires Valid(s) && g in s.gws && Sound(mem) && TagIds(ids) && Ascending(ids) && ids != []
    ensures var r := LabelOne(s, g, ids[0], name, mem, n);
      && (r.None? ==> Clash(s, g, ids, name))
      && (r.Some? && Clash(r.value, g, ids[1..], name) ==> Clash(s, g, ids, name))
      && (Plenty(mem) && r.Some? && Clash(s, g, ids, name) ==> Clash(r.value, g, ids[1..], name))
  {
    if name != "" {
      hide Linked, AllocateTagId, Clash, OnGateway, Bits;
      Slotted(s, g);
      var i, alloc := ids[0], mem(n, s.tags.Keys);
      assert Unused(s, alloc);
      AllocateTagIdValid(s, g, i, name, alloc);
      if !IsFree(s, g, i) {
        ClashSkips(s, g, ids, name);
        AllocateInUse(s, g, i, name, alloc);
      } else if OnGateway(s, name, g) {
        ClashFirst(s, g, ids, name);
      } else {
        var r := AllocateTagId(s, g, i, name, alloc);
        if r.Allocated? {
          ClashTaken(s, r.state, g, ids, name);
        } else if Clash(s, g, ids[1..], name) {
          ClashRefused(s, g, ids, name);
        }
      }
    }
  }

  lemma AllocateInUse(s: State, g: Ref, i: int, name: string, alloc: Alloc)
    requires ListIsLive(s) && g in s.gws && 0 <= i < |s.gws[g].tags| == MAX_TAGS && i in Bits(s.gws[g].tagIds)
    ensures AllocateTagId(s, g, i, name, alloc) == Allocated(s, i)
  {
    hide Bits, TestBit;
    BitsTest(s.gws[g].tagIds, i);
  }

  lemma NoClash(s: State, g: Ref, name: string)
    ensures !Clash(s, g, [], name)
  {}

  lemma AscendingRest(ids: seq<int>)
    requires ids != [] && Ascending(ids) && TagIds(ids)
    ensures Ascending(ids[1..]) && TagIds(ids[1..])
  {}

  // A packet of tag labels aborts only on a clash, and always does when memory is not short.
  lemma {:induction false} LabelAllAborts(s: State, g: Ref, ids: seq<int>, name: string, mem: Memory, n: nat)
    requires Valid(s) && g in s.gws && Sound(mem) && TagIds(ids) && Ascending(ids)
    ensures LabelAll(s, g, ids, name, mem, n).None? ==> Clash(s, g, ids, name)
    ensures Plenty(mem) && Clash(s, g, ids, name) ==> LabelAll(s, g, ids, name, mem, n).None?
    decreases |ids|
  {
    hide Valid, LabelOne, Clash, Ascending, Sound, Plenty;
    if ids == [] {
      NoClash(s, g, name);
    } else {
      AscendingRest(ids);
      LabelOneValid(s, g, ids[0], name, mem, n);
      LabelOneClash(s, g, ids, name, mem, n);
      var r := LabelOne(s, g, ids[0], name, mem, n);
      if r.Some? {
        LabelAllAborts(r.value, g, ids[1..], name, mem, n + 1);
      }
    }
  }

  // ---------------------------------------------------------------- what a packet of tag labels does

  lemma DeallocatedBits(s: State, g: Ref, i: int)
    requires g in s.gws && 0 <= i < |s.gws[g].tags| == MAX_TAGS && SlotsMatch(s.gws[g])
    requires s.gws[g].tags[i].Some? ==> s.gws[g].tags[i].value in s.tags
    ensures Bits(DeallocateTagId(s, g, i).gws[g].tagIds) == Bits(s.gws[g].tagIds) - {i}
  {
    hide Bits, ClearBit, Decref;
    BitsClear(s.gws[g].tagIds, i);
    if s.gws[g].tags[i].Some? {
      DecrefGateways(s, s.gws[g].tags[i].value, g);
    }
  }

  // With no label the ids of a packet are free afterwards; with one they are in use, as far as memory goes; no other
  // id changes.
  ghost predicate IdsChange(before: set<int>, after: set<int>, ids: set<int>, name: string, mem: Memory) {
    if name == "" then after == before - ids else before <= after <= before + ids && (Plenty(mem) ==> ids <= after)
  }

  lemma LabelOneIds(s: State, g: Ref, i: int, name: string, mem: Memory, n: nat)
    requires Valid(s) && g in s.gws && 0 <= i < MAX_TAGS && Sound(mem)
    ensures var r := LabelOne(s, g, i, name, mem, n);
      r.Some? ==> g in r.value.gws && IdsChange(Bits(s.gws[g].tagIds), Bits(r.value.gws[g].tagIds), {i}, name, mem)
  {
    assert SlotsMatch(s.gws[g]);
    hide Linked, AllocateTagId, DeallocateTagId, Bits;
    Slotted(s, g);
    if name == "" {
      DeallocatedBits(s, g, i);
      DeallocateKeys(s, g, i);
    } else {
      assert Unused(s, mem(n, s.tags.Keys));
      AllocateTagIdValid(s, g, i, name, mem(n, s.tags.Keys));
    }
  }

  ghost function IdsOf(ids: seq<int>): set<int> {
    set i | i in ids
  }

  lemma {:induction false} LabelAllIds(s: State, g: Ref, ids: seq<int>, name: string, mem: Memory, n: nat)
    requires Valid(s) && g in s.gws && Sound(mem) && TagIds(ids)
    ensures var r := LabelAll(s, g, ids, name, mem, n);
      r.Some? ==> g in r.value.gws && IdsChange(Bits(s.gws[g].tagIds), Bits(r.value.gws[g].tagIds), IdsOf(ids), name, mem)
    decreases |ids|
  {
    hide Valid, LabelOne, Bits, Sound, Plenty;
    if ids != [] {
      LabelOneValid(s, g, ids[0], name, mem, n);
      LabelOneIds(s, g, ids[0], name, mem, n);
      assert IdsOf(ids) == {ids[0]} + IdsOf(ids[1..]) by { assert ids == [ids[0]] + ids[1..]; }
      var r := LabelOne(s, g, ids[0], name, mem, n);
      if r.Some? {
        LabelAllIds(r.value, g, ids[1..], name, mem, n + 1);
      }
    } else {
      assert IdsOf(ids) == {};
    }
  }
}
