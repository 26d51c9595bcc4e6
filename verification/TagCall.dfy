/** The tag call of the protocol: a tag is put on the gateways of some devices, or on none at all. */
module TagCall {

  import opened BitScan
  import opened Common
  import opened Tagging
  import opened TagHandlers

  // ---------------------------------------------------------------- rolling back

  ghost function DeallocateSites(s: State, sites: seq<Site>): State
    requires Valid(s) && forall x <- sites :: x.gw in s.gws && 0 <= x.tagId < MAX_TAGS
    decreases |sites|
  {
    if sites == [] then s
    else
      DeallocatedValid(s, sites[0]);
      assert forall x <- sites[1..] :: x in sites;
      DeallocateSites(Deallocated(s, sites[0]), sites[1..])
  }

  ghost function Deallocated(s: State, x: Site): State
    requires Valid(s) && x.gw in s.gws && 0 <= x.tagId < MAX_TAGS
  {
    Slotted(s, x.gw);
    DeallocateTagId(s, x.gw, x.tagId)
  }

  lemma DeallocatedValid(s: State, x: Site)
    requires Valid(s) && x.gw in s.gws && 0 <= x.tagId < MAX_TAGS
    ensures Valid(Deallocated(s, x)) && Deallocated(s, x).gws.Keys == s.gws.Keys
  {
    hide Linked, DeallocateTagId;
    Slotted(s, x.gw);
    DeallocateTagIdValid(s, x.gw, x.tagId);
    DeallocateKeys(s, x.gw, x.tagId);
  }

  // Nothing is left of tag t, and the other tags are as they were.
  ghost predicate Forgot(s: State, s': State, t: Ref) {
    s'.gws.Keys == s.gws.Keys && s'.tags.Keys == s.tags.Keys - {t} && forall u <- s'.tags :: s'.tags[u] == s.tags[u]
  }

  // The first site of tag t is gone.
  ghost predicate OneLess(s: State, s': State, t: Ref)
    requires t in s.tags && s.tags[t].sites != []
  {
    && s'.gws.Keys == s.gws.Keys && s'.tags.Keys == s.tags.Keys && s'.tags[t].sites == s.tags[t].sites[1..]
    && forall u <- s.tags | u != t :: s'.tags[u] == s.tags[u]
  }

  lemma ForgotAfter(s: State, s1: State, s2: State, t: Ref)
    requires t in s.tags && s.tags[t].sites != [] && OneLess(s, s1, t) && Forgot(s1, s2, t)
    ensures Forgot(s, s2, t)
  {}

  // The sites of a tag go one by one, and the tag with the last of them.
  lemma DeallocatedFirst(s: State, t: Ref)
    requires Valid(s) && t in s.tags && s.tags[t].sites != []
    ensures var x := s.tags[t].sites[0];
      x.gw in s.gws && 0 <= x.tagId < MAX_TAGS
      && if |s.tags[t].sites| == 1 then Forgot(s, Deallocated(s, x), t) else OneLess(s, Deallocated(s, x), t)
  {
    var x := s.tags[t].sites[0];
    FirstSlotHolds(s, t);
    hide Linked;
    Slotted(s, x.gw);
    var sites := s.tags[t].sites;
    assert SiteIndex(sites, x.gw) == 0 && Without(sites, 0) == sites[1..];
  }

  lemma FirstSlotHolds(s: State, t: Ref)
    requires Valid(s) && t in s.tags && s.tags[t].sites != []
    ensures var x := s.tags[t].sites[0];
      x.gw in s.gws && 0 <= x.tagId < |s.gws[x.gw].tags| == MAX_TAGS && s.gws[x.gw].tags[x.tagId] == Some(t)
  {
    hide Bits;
    assert s.tags[t].sites[0] in s.tags[t].sites;
  }

  lemma SitesInBounds(s: State, t: Ref)
    requires Valid(s) && t in s.tags
    ensures forall x <- s.tags[t].sites :: x.gw in s.gws && 0 <= x.tagId < MAX_TAGS
  {
    hide Bits;
  }

  lemma {:induction false} DeallocateSitesForgets(s: State, t: Ref)
    requires Valid(s) && t in s.tags && s.tags[t].sites != []
    ensures forall x <- s.tags[t].sites :: x.gw in s.gws && 0 <= x.tagId < MAX_TAGS
    ensures Valid(DeallocateSites(s, s.tags[t].sites)) && Forgot(s, DeallocateSites(s, s.tags[t].sites), t)
    decreases |s.tags[t].sites|
  {
    SitesInBounds(s, t);
    hide Valid, Deallocated, Forgot;
    var sites := s.tags[t].sites;
    var s' := Deallocated(s, sites[0]);
    DeallocatedFirst(s, t);
    DeallocatedValid(s, sites[0]);
    if |sites| == 1 {
      assert DeallocateSites(s', sites[1..]) == s';
    } else {
      DeallocateSitesForgets(s', t);
      ForgotAfter(s, s', DeallocateSites(s', sites[1..]), t);
    }
  }

  // The error path of lgtd_proto_tag(), once the tag exists.
  ghost function Rollback(s: State, t: Ref): State
    requires Valid(s) && t in s.tags
  {
    SitesInBounds(s, t);
    if s.tags[t].sites == [] then DeallocateTag(s, t) else DeallocateSites(s, s.tags[t].sites)
  }

  lemma TaglessLinks(s: State, s': State, t: Ref)
    requires GatewaysMatch(s) && SlotsHaveSites(s, 0, {}) && SitesHaveSlots(s, 0, {}) && t in s.tags && s.tags[t].sites == []
    requires s'.gws == s.gws && s'.tags == s.tags - {t}
    ensures GatewaysMatch(s') && SlotsHaveSites(s', 0, {}) && SitesHaveSlots(s', 0, {})
  {
    hide Bits;
  }

  lemma DeallocateTagValid(s: State, t: Ref)
    requires Valid(s) && t in s.tags && s.tags[t].sites == []
    ensures Valid(DeallocateTag(s, t))
  {
    hide Listed, GatewaysMatch, SlotsHaveSites, SitesHaveSlots;
    ListedWithout(s, t);
    TaglessLinks(s, DeallocateTag(s, t), t);
  }

  lemma RollbackForgets(s: State, t: Ref)
    requires Valid(s) && t in s.tags
    ensures Valid(Rollback(s, t)) && Forgot(s, Rollback(s, t), t)
  {
    hide Valid, DeallocateSites;
    if s.tags[t].sites == [] {
      DeallocateTagValid(s, t);
    } else {
      DeallocateSitesForgets(s, t);
    }
  }

  // ---------------------------------------------------------------- tagging

  // lgtd_lifx_gateway_get_tag_id(): the first slot that holds the tag, from slot k on.
  function TagIdFrom(tags: seq<Option<Ref>>, t: Ref, k: nat): (i: int)
    requires k <= |tags|
    ensures i == -1 ==> forall j | k <= j < |tags| :: tags[j] != Some(t)
    ensures i != -1 ==> k <= i < |tags| && tags[i] == Some(t) && forall j | k <= j < i :: tags[j] != Some(t)
    decreases |tags| - k
  {
    if k == |tags| then -1 else if tags[k] == Some(t) then k else TagIdFrom(tags, t, k + 1)
  }

  function TagIdOf(slots: Slots, t: Ref): int {
    TagIdFrom(slots.tags, t, 0)
  }

  // One gateway gets the tag, if it does not have it already.
  ghost function TagOne(s: State, name: string, g: Ref, t: Ref, mem: Memory, n: nat): Option<State>
    requires Valid(s) && g in s.gws
  {
    Slotted(s, g);
    FreeIdIsLowest(s.gws[g]);
    var i := FreeId(s.gws[g]);
    if TagIdOf(s.gws[g], t) != -1 then Some(s)
    else if i == -1 then None
    else
      var r := AllocateTagId(s, g, i, name, mem(n, s.tags.Keys));
      if r.Allocated? then Some(r.state) else None
  }

  ghost predicate HasTag(s: State, g: Ref, t: Ref) {
    g in s.gws && TagIdOf(s.gws[g], t) != -1
  }

  // A gateway without the tag has no site of it, so that allocating an id for it never aborts.
  lemma NotOnGateway(s: State, name: string, g: Ref, t: Ref)
    requires Valid(s) && g in s.gws && t in s.tags && s.tags[t].name == name && TagIdOf(s.gws[g], t) == -1
    ensures !OnGateway(s, name, g)
  {
    hide Bits;
    forall u, x | u in s.tags && s.tags[u].name == name && x in s.tags[u].sites ensures x.gw != g {
      assert u == t;
      assert s.gws[x.gw].tags[x.tagId] == Some(t);
    }
  }

  lemma TagOneValid(s: State, name: string, g: Ref, t: Ref, mem: Memory, n: nat)
    requires Valid(s) && g in s.gws && t in s.tags && s.tags[t].name == name && Sound(mem)
    ensures var r := TagOne(s, name, g, t, mem, n); r.Some? ==> Valid(r.value) && Grows(s, r.value) && HasTag(r.value, g, t)
  {
    hide Linked, AllocateTagId, OnGateway, Grows, TagIdOf;
    Slotted(s, g);
    FreeIdIsLowest(s.gws[g]);
    var i := FreeId(s.gws[g]);
    if TagIdOf(s.gws[g], t) != -1 {
      ValidGrows(s);
    } else if i != -1 {
      NotOnGateway(s, name, g, t);
      var alloc := mem(n, s.tags.Keys);
      assert Unused(s, alloc);
      AllocateTagIdValid(s, g, i, name, alloc);
      var r := AllocateTagId(s, g, i, name, alloc);
      if r.Allocated? {
        GotTag(s, r.state, name, g, t);
      }
    }
  }

  // The id that the call asks for is never refused by an abort; it fails only when all ids are in use or memory is
  // short.
  lemma TagOneFails(s: State, name: string, g: Ref, t: Ref, mem: Memory, n: nat)
    requires Valid(s) && g in s.gws && t in s.tags && s.tags[t].name == name && Sound(mem)
    ensures |s.gws[g].tags| == MAX_TAGS && ListIsLive(s)
    ensures var i := FreeId(s.gws[g]);
      TagIdOf(s.gws[g], t) == -1 && i != -1 ==>
        0 <= i < MAX_TAGS && !AllocateTagId(s, g, i, name, mem(n, s.tags.Keys)).Aborted?
    ensures TagOne(s, name, g, t, mem, n).None? && Plenty(mem) ==> forall i | 0 <= i < MAX_TAGS :: i in Bits(s.gws[g].tagIds)
  {
    hide Linked, AllocateTagId, OnGateway, Grows, TagIdOf, Bits;
    Slotted(s, g);
    FreeIdIsLowest(s.gws[g]);
    var i := FreeId(s.gws[g]);
    if TagIdOf(s.gws[g], t) == -1 && i != -1 {
      NotOnGateway(s, name, g, t);
      assert Unused(s, mem(n, s.tags.Keys));
      AllocateTagIdValid(s, g, i, name, mem(n, s.tags.Keys));
    }
  }

  lemma ValidGrows(s: State)
    requires Valid(s)
    ensures Grows(s, s)
  {
    hide Bits;
    GrowsSelf(s);
  }

  // The name is on the gateway now, so the tag of that name is in one of its slots.
  lemma GotTag(s: State, s': State, name: string, g: Ref, t: Ref)
    requires Valid(s) && Valid(s') && Grows(s, s') && g in s.gws && t in s.tags && s.tags[t].name == name
      && OnGateway(s', name, g)
    ensures HasTag(s', g, t)
  {
    hide Valid;
    Members(s');
    var u, x :| u in s'.tags && s'.tags[u].name == name && x in s'.tags[u].sites && x.gw == g;
    assert u == t;
    SiteSlot(s', t, x);
  }

  lemma SiteSlot(s: State, t: Ref, x: Site)
    requires Valid(s) && t in s.tags && x in s.tags[t].sites
    ensures x.gw in s.gws && 0 <= x.tagId < |s.gws[x.gw].tags| && s.gws[x.gw].tags[x.tagId] == Some(t)
  {
    hide Bits;
  }

  // The first loop of lgtd_proto_tag(), over the gateways of the devices; the state where it stopped, and whether
  // that is the end.
  ghost function TagAll(s: State, name: string, gs: seq<Ref>, t: Ref, mem: Memory, n: nat): (State, bool)
    requires Valid(s) && t in s.tags && s.tags[t].name == name && Sound(mem) && Open(s, gs)
    decreases |gs|
  {
    if gs == [] then (s, true)
    else
      TagOneValid(s, name, gs[0], t, mem, n);
      var r := TagOne(s, name, gs[0], t, mem, n);
      if r.None? then (s, false)
      else TagAll(r.value, name, gs[1..], t, mem, n + 1)
  }

  ghost predicate Open(s: State, gs: seq<Ref>) {
    forall k | 0 <= k < |gs| :: gs[k] in s.gws
  }

  lemma GrowsKeeps(s: State, s': State, g: Ref, t: Ref)
    requires Valid(s) && Valid(s') && Grows(s, s') && HasTag(s, g, t)
    ensures HasTag(s', g, t)
  {
    hide Bits;
    var i := TagIdOf(s.gws[g], t);
    assert s'.gws[g].tags[i] == Some(t);
  }

  lemma GrowsMore(s1: State, s2: State, s3: State)
    requires Valid(s1) && Valid(s2) && Valid(s3) && Grows(s1, s2) && Grows(s2, s3)
    ensures Grows(s1, s3)
  {
    hide Bits;
  }

  lemma GrowsLive(s: State, s': State, gs: seq<Ref>, t: Ref)
    requires Grows(s, s') && t in s.tags && Open(s, gs)
    ensures t in s'.tags && s'.tags[t].name == s.tags[t].name && Open(s', gs)
  {}

  lemma {:induction false} TagAllValid(s: State, name: string, gs: seq<Ref>, t: Ref, mem: Memory, n: nat)
    requires Valid(s) && t in s.tags && s.tags[t].name == name && Sound(mem) && Open(s, gs)
    ensures var r := TagAll(s, name, gs, t, mem, n);
      Valid(r.0) && Grows(s, r.0) && (r.1 ==> forall k | 0 <= k < |gs| :: HasTag(r.0, gs[k], t))
    decreases |gs|
  {
    hide Valid, TagOne, HasTag, Grows;
    if gs == [] {
      ValidGrows(s);
    } else {
      TagOneValid(s, name, gs[0], t, mem, n);
      var r := TagOne(s, name, gs[0], t, mem, n);
      if r.None? {
        ValidGrows(s);
      } else {
        GrowsLive(s, r.value, gs, t);
        TagAllValid(r.value, name, gs[1..], t, mem, n + 1);
        var s' := TagAll(r.value, name, gs[1..], t, mem, n + 1).0;
        GrowsMore(s, r.value, s');
        GrowsKeeps(r.value, s', gs[0], t);
        assert forall k | 0 < k < |gs| :: gs[k] == gs[1..][k - 1];
      }
    }
  }

  // lgtd_proto_tag(), for the gateways of the devices, or without them when there was no memory for the list: the
  // state after it, and whether it succeeded.
  ghost function CallTag(s: State, name: string, gs: Option<seq<Ref>>, alloc: Alloc, mem: Memory): (State, bool)
    requires Valid(s) && Unused(s, alloc) && Sound(mem) && (gs.Some? ==> Open(s, gs.value))
  {
    NamedHere(s, name, alloc);
    var s' := Named(s, name, alloc);
    var found := FindTag(s', name);
    if gs.None? || found.None? then (s, false)
    else
      var r := TagAll(s', name, gs.value, found.value, mem, 0);
      TagAllValid(s', name, gs.value, found.value, mem, 0);
      if r.1 then r else (Rollback(r.0, found.value), false)
  }

  lemma NamedHere(s: State, name: string, alloc: Alloc)
    requires Valid(s) && Unused(s, alloc)
    ensures ListIsLive(s) && Valid(Named(s, name, alloc)) && Named(s, name, alloc).gws == s.gws
      && ListIsLive(Named(s, name, alloc))
    ensures FindTag(Named(s, name, alloc), name).None? ==> Named(s, name, alloc) == s
  {
    hide Valid, FindTag;
    NamedValid(s, name, alloc);
    ValidIsLive(s);
    ValidIsLive(Named(s, name, alloc));
    if FindTag(s, name).None? && alloc.tag.Some? {
      FoundNew(s, alloc.tag.value, name);
    }
  }

  lemma FoundNew(s: State, t: Ref, name: string)
    requires ListIsLive(s) && t !in s.tags
    ensures ListIsLive(NewTag(s, t, name)) && FindTag(NewTag(s, t, name), name) == Some(t)
  {}

  // The tags with other names are the same.
  ghost predicate OthersKept(s: State, s': State, name: string) {
    && (forall t <- s.tags | s.tags[t].name != name :: t in s'.tags && s'.tags[t] == s.tags[t])
    && (forall t <- s'.tags | s'.tags[t].name != name :: t in s.tags && s.tags[t] == s'.tags[t])
  }

  lemma OthersKeptMore(s1: State, s2: State, s3: State, name: string)
    requires OthersKept(s1, s2, name) && OthersKept(s2, s3, name)
    ensures OthersKept(s1, s3, name)
  {}

  lemma AllocateKeepsOthers(s: State, g: Ref, i: int, name: string, alloc: Alloc)
    requires ListIsLive(s) && g in s.gws && 0 <= i < |s.gws[g].tags| == MAX_TAGS && Unused(s, alloc)
    ensures var r := AllocateTagId(s, g, i, name, alloc); r.Allocated? ==> OthersKept(s, r.state, name)
  {
    hide TestBit, LabelIndex, SiteIndex, SetBit;
  }

  lemma NamedKeepsOthers(s: State, name: string, alloc: Alloc)
    requires ListIsLive(s) && Unused(s, alloc)
    ensures OthersKept(s, Named(s, name, alloc), name)
  {
    hide FindTag;
  }

  lemma {:induction false} TagAllKeepsOthers(s: State, name: string, gs: seq<Ref>, t: Ref, mem: Memory, n: nat)
    requires Valid(s) && t in s.tags && s.tags[t].name == name && Sound(mem) && Open(s, gs)
    ensures OthersKept(s, TagAll(s, name, gs, t, mem, n).0, name)
    decreases |gs|
  {
    hide Valid, AllocateTagId, HasTag, Grows, OthersKept, TagIdOf;
    KeptSame(s, name);
    if gs != [] {
      Slotted(s, gs[0]);
      FreeIdIsLowest(s.gws[gs[0]]);
      TagOneValid(s, name, gs[0], t, mem, n);
      var r := TagOne(s, name, gs[0], t, mem, n);
      if r.Some? {
        var i := FreeId(s.gws[gs[0]]);
        if i != -1 {
          assert Unused(s, mem(n, s.tags.Keys));
          AllocateKeepsOthers(s, gs[0], i, name, mem(n, s.tags.Keys));
        }
        GrowsLive(s, r.value, gs, t);
        TagAllKeepsOthers(r.value, name, gs[1..], t, mem, n + 1);
        OthersKeptMore(s, r.value, TagAll(r.value, name, gs[1..], t, mem, n + 1).0, name);
      }
    }
  }

  lemma KeptSame(s: State, name: string)
    ensures OthersKept(s, s, name)
  {}

  lemma ForgotKeepsOthers(s: State, s': State, t: Ref, name: string)
    requires Forgot(s, s', t) && t in s.tags && s.tags[t].name == name
    ensures OthersKept(s, s', name)
  {}

  // A tag call that succeeds has an id for the tag on the gateway of every device. One that fails for lack of the
  // list of devices changes nothing; one that fails later leaves no tag of that name, even if there was one before.
  // Other tags stay.
  lemma CallTagAllOrNothing(s: State, name: string, gs: Option<seq<Ref>>, alloc: Alloc, mem: Memory)
    requires Valid(s) && Unused(s, alloc) && Sound(mem) && (gs.Some? ==> Open(s, gs.value))
    ensures var r := CallTag(s, name, gs, alloc, mem);
      && Valid(r.0) && r.0.gws.Keys == s.gws.Keys && OthersKept(s, r.0, name)
      && (r.1 ==> gs.Some? && exists t :: t in r.0.tags && r.0.tags[t].name == name && AllHave(r.0, gs.value, t))
      && (gs.None? ==> r == (s, false))
      && (gs.Some? && !r.1 ==> forall t <- r.0.tags :: r.0.tags[t].name != name)
  {
    hide Valid, TagAll, Rollback, HasTag, Grows, OthersKept;
    KeptSame(s, name);
    NamedHere(s, name, alloc);
    var s' := Named(s, name, alloc);
    var found := FindTag(s', name);
    if found.None? {
      Members(s);
    } else if gs.Some? {
      var t := found.value;
      NamedKeepsOthers(s, name, alloc);
      TagAllValid(s', name, gs.value, t, mem, 0);
      TagAllKeepsOthers(s', name, gs.value, t, mem, 0);
      var r := TagAll(s', name, gs.value, t, mem, 0);
      OthersKeptMore(s, s', r.0, name);
      GrowsLive(s', r.0, gs.value, t);
      GrowsKeys(s', r.0);
      if !r.1 {
        RollbackForgets(r.0, t);
        ForgotKeepsOthers(r.0, Rollback(r.0, t), t, name);
        OthersKeptMore(s, r.0, Rollback(r.0, t), name);
        Members(r.0);
      }
    }
  }

  ghost predicate AllHave(s: State, gs: seq<Ref>, t: Ref) {
    forall k | 0 <= k < |gs| :: HasTag(s, gs[k], t)
  }

  lemma GrowsKeys(s: State, s': State)
    requires Grows(s, s')
    ensures s'.gws.Keys == s.gws.Keys
  {}

  // When no tag has a name, no slot and no site refers to one that had it.
  lemma NothingRefersTo(s: State, name: string)
    requires Valid(s) && forall t <- s.tags :: s.tags[t].name != name
    ensures forall g, i | g in s.gws && 0 <= i < |s.gws[g].tags| && s.gws[g].tags[i].Some? ::
      s.gws[g].tags[i].value in s.tags && s.tags[s.gws[g].tags[i].value].name != name
  {
    hide Bits;
    forall g, i | g in s.gws && 0 <= i < |s.gws[g].tags| && s.gws[g].tags[i].Some?
      ensures s.gws[g].tags[i].value in s.tags
    {
      assert Live(Site(g, i), 0, {});
    }
  }
}
