/** What every tag id of every gateway stands for, and what each operation changes of that. */
module TagLabels {

  import opened BitScan
  import opened Common
  import opened Tagging
  import opened TagHandlers
  import opened TagCall

  // The label of tag id i on gateway g.
  ghost function Label(s: State, g: Ref, i: int): Option<string> {
    if g in s.gws && 0 <= i < |s.gws[g].tags| && s.gws[g].tags[i].Some? && s.gws[g].tags[i].value in s.tags
    then Some(s.tags[s.gws[g].tags[i].value].name) else None
  }

  // A label is that of the one tag that has a site for the id.
  lemma LabelIsSite(s: State, g: Ref, i: int, name: string)
    requires Valid(s)
    ensures Label(s, g, i) == Some(name) <==> exists t :: t in s.tags && s.tags[t].name == name && Site(g, i) in s.tags[t].sites
  {
    hide Bits;
    if Label(s, g, i) == Some(name) {
      assert Live(Site(g, i), 0, {});
      var t := s.gws[g].tags[i].value;
      assert t in s.tags && Site(g, i) in s.tags[t].sites;
    }
    forall t | t in s.tags && s.tags[t].name == name && Site(g, i) in s.tags[t].sites ensures Label(s, g, i) == Some(name) {
      SiteSlot(s, t, Site(g, i));
    }
  }

  // An id has a label if and only if its bit is set.
  lemma LabelIsBit(s: State, g: Ref, i: int)
    requires Valid(s) && g in s.gws && 0 <= i < MAX_TAGS
    ensures Label(s, g, i).Some? <==> i in Bits(s.gws[g].tagIds)
  {
    hide Linked, Bits;
    ExactlyOneSite(s, g, i);
  }

  ghost predicate SameLabels(s: State, s': State) {
    forall h, j :: Label(s', h, j) == Label(s, h, j)
  }

  // Only the label of id i of gateway g changes.
  ghost predicate Relabelled(s: State, s': State, g: Ref, i: int, now: Option<string>) {
    forall h, j :: Label(s', h, j) == if h == g && j == i then now else Label(s, h, j)
  }

  // ---------------------------------------------------------------- gateways

  lemma OpenGatewayLabels(s: State, g: Ref)
    requires g !in s.gws
    ensures SameLabels(s, OpenGateway(s, g))
  {}

  lemma OffSitesMembers(sites: seq<Site>, g: Ref)
    ensures forall x :: x in OffSites(sites, g) <==> x in sites && x.gw != g
  {
    if sites != [] {
      assert sites == [sites[0]] + sites[1..];
      OffSitesMembers(sites[1..], g);
    }
  }

  // A gateway that is closed takes its labels with it, and no other.
  lemma CloseGatewayLabels(s: State, g: Ref)
    requires Valid(s) && g in s.gws && |s.gws[g].tags| == MAX_TAGS
    ensures forall h, j :: Label(CloseGateway(s, g), h, j) == if h == g then None else Label(s, h, j)
  {
    hide CloseGateway, Valid, OffSites;
    CloseGatewayValid(s, g);
    var s' := CloseGateway(s, g);
    forall h, j ensures Label(s', h, j) == if h == g then None else Label(s, h, j) {
      if h != g && Label(s, h, j).Some? {
        LabelIsSite(s, h, j, Label(s, h, j).value);
        var t :| t in s.tags && s.tags[t].name == Label(s, h, j).value && Site(h, j) in s.tags[t].sites;
        OffSitesMembers(s.tags[t].sites, g);
        SiteSlot(s, t, Site(h, j));
        assert t in s'.tags;
      }
    }
  }

  // ---------------------------------------------------------------- one id

  lemma DecrefNames(s: State, t: Ref, g: Ref)
    requires t in s.tags
    ensures forall u <- Decref(s, t, g).tags :: u in s.tags && Decref(s, t, g).tags[u].name == s.tags[u].name
  {}

  lemma DeallocatedSlots(s: State, g: Ref, i: int)
    requires g in s.gws && 0 <= i < |s.gws[g].tags| == MAX_TAGS && s.gws[g].tags[i].Some? && s.gws[g].tags[i].value in s.tags
    ensures DeallocateTagId(s, g, i).gws == s.gws[g := Vacated(s.gws[g], i)]
    ensures DeallocateTagId(s, g, i).tags == Decref(s, s.gws[g].tags[i].value, g).tags
  {
    hide Decref, Vacated;
    DecrefGateways(s, s.gws[g].tags[i].value, g);
  }

  lemma OnlySite(s: State, g: Ref, i: int, h: Ref, j: int, t: Ref)
    requires Valid(s) && g in s.gws && h in s.gws && 0 <= i < |s.gws[g].tags| == MAX_TAGS && 0 <= j < |s.gws[h].tags|
    requires s.gws[g].tags[i] == Some(t) == s.gws[h].tags[j] && (h != g || j != i)
    ensures t in s.tags && OnePerGateway(s.tags[t].sites) && Site(h, j) in s.tags[t].sites && h != g
  {
    hide Bits;
    assert Live(Site(g, i), 0, {}) && Live(Site(h, j), 0, {});
    assert Site(g, i) in s.tags[t].sites && Site(h, j) in s.tags[t].sites;
    if h == g {
      SameSite(s.tags[t].sites, Site(g, i), Site(h, j));
    }
  }

  lemma DeallocateLabels(s: State, g: Ref, i: int)
    requires Valid(s) && g in s.gws && 0 <= i < |s.gws[g].tags| == MAX_TAGS
    ensures s.gws[g].tags[i].Some? ==> s.gws[g].tags[i].value in s.tags
    ensures Relabelled(s, DeallocateTagId(s, g, i), g, i, None)
  {
    hide Valid, Decref, DeallocateTagId, Vacated, Label;
    Slotted(s, g);
    if s.gws[g].tags[i].Some? {
      DeallocatedSlots(s, g, i);
      forall h, j ensures Label(DeallocateTagId(s, g, i), h, j) == if h == g && j == i then None else Label(s, h, j) {
        DeallocatedLabel(s, DeallocateTagId(s, g, i), g, i, h, j);
      }
    } else {
      NothingThere(s, g, i);
    }
  }

  lemma NothingThere(s: State, g: Ref, i: int)
    requires g in s.gws && 0 <= i < |s.gws[g].tags| == MAX_TAGS && s.gws[g].tags[i].None?
    ensures DeallocateTagId(s, g, i) == s && Relabelled(s, s, g, i, None)
  {}

  lemma DeallocatedLabel(s: State, s': State, g: Ref, i: int, h: Ref, j: int)
    requires Valid(s) && g in s.gws && 0 <= i < |s.gws[g].tags| == MAX_TAGS && s.gws[g].tags[i].Some?
    requires s.gws[g].tags[i].value in s.tags
    requires s'.gws == s.gws[g := Vacated(s.gws[g], i)] && s'.tags == Decref(s, s.gws[g].tags[i].value, g).tags
    ensures Label(s', h, j) == if h == g && j == i then None else Label(s, h, j)
  {
    hide Valid, Decref, ClearBit;
    DecrefNames(s, s.gws[g].tags[i].value, g);
    if (h != g || j != i) && Label(s, h, j).Some? {
      StillTagged(s, g, i, h, j);
    }
  }

  lemma StillTagged(s: State, g: Ref, i: int, h: Ref, j: int)
    requires Valid(s) && g in s.gws && 0 <= i < |s.gws[g].tags| == MAX_TAGS && s.gws[g].tags[i].Some?
    requires s.gws[g].tags[i].value in s.tags && Label(s, h, j).Some? && (h != g || j != i)
    ensures s.gws[h].tags[j].value in Decref(s, s.gws[g].tags[i].value, g).tags
  {
    hide Valid, Decref;
    var t, u := s.gws[g].tags[i].value, s.gws[h].tags[j].value;
    if t == u {
      OnlySite(s, g, i, h, j, t);
      DecrefReleases(s, t, g);
    } else {
      DecrefOthers(s, t, g, u);
    }
  }

  lemma DecrefOthers(s: State, t: Ref, g: Ref, u: Ref)
    requires t in s.tags && u in s.tags && u != t
    ensures u in Decref(s, t, g).tags
  {}

  lemma AllocatedSlots(s: State, g: Ref, i: int, name: string, alloc: Alloc)
    requires ListIsLive(s) && g in s.gws && 0 <= i < |s.gws[g].tags| == MAX_TAGS && Unused(s, alloc)
    ensures var r := AllocateTagId(s, g, i, name, alloc);
      r.Allocated? ==>
        && (TestBit(s.gws[g].tagIds, i) ==> r.state == s)
        && (!TestBit(s.gws[g].tagIds, i) ==>
              exists t ::
                t in r.state.tags && r.state.tags[t].name == name && r.state.gws == s.gws[g := Occupied(s.gws[g], i, t)])
        && forall u <- s.tags :: u in r.state.tags && r.state.tags[u].name == s.tags[u].name
  {
    hide TestBit, LabelIndex, SiteIndex, SetBit;
  }

  // Taking an id labels it if it was free, and nothing else.
  lemma AllocateLabels(s: State, g: Ref, i: int, name: string, alloc: Alloc)
    requires Valid(s) && g in s.gws && 0 <= i < |s.gws[g].tags| == MAX_TAGS && Unused(s, alloc)
    ensures ListIsLive(s)
    ensures var r := AllocateTagId(s, g, i, name, alloc);
      r.Allocated? ==> if Label(s, g, i).Some? then r.state == s else Relabelled(s, r.state, g, i, Some(name))
  {
    ValidIsLive(s);
    hide Valid, AllocateTagId, Bits, TestBit, Occupied;
    AllocatedSlots(s, g, i, name, alloc);
    LabelIsBit(s, g, i);
    BitsTest(s.gws[g].tagIds, i);
    var r := AllocateTagId(s, g, i, name, alloc);
    if r.Allocated? && Label(s, g, i).None? {
      var t :| t in r.state.tags && r.state.tags[t].name == name && r.state.gws == s.gws[g := Occupied(s.gws[g], i, t)];
      OccupiedLabels(s, r.state, g, i, t);
    }
  }

  lemma OccupiedLabels(s: State, s': State, g: Ref, i: int, t: Ref)
    requires Valid(s) && g in s.gws && 0 <= i < |s.gws[g].tags| == MAX_TAGS
    requires t in s'.tags && s'.gws == s.gws[g := Occupied(s.gws[g], i, t)]
    requires forall u <- s.tags :: u in s'.tags && s'.tags[u].name == s.tags[u].name
    ensures Relabelled(s, s', g, i, Some(s'.tags[t].name))
  {
    hide Valid, SetBit;
    forall h, j ensures Label(s', h, j) == if h == g && j == i then Some(s'.tags[t].name) else Label(s, h, j) {
      if h in s.gws {
        Slotted(s, h);
      }
    }
  }

  // ---------------------------------------------------------------- a packet of tag labels

  // Without a label the ids of the packet lose theirs; with one, those that had none get it, as far as memory goes.
  ghost predicate PacketLabels(s: State, s': State, g: Ref, ids: set<int>, name: string, mem: Memory) {
    forall h, j ::
      if h != g || j !in ids || (name != "" && Label(s, h, j).Some?) then Label(s', h, j) == Label(s, h, j)
      else if name == "" then Label(s', h, j).None?
      else Label(s', h, j) == Some(name) || (Label(s', h, j).None? && !Plenty(mem))
  }

  lemma LabelOneLabels(s: State, g: Ref, i: int, name: string, mem: Memory, n: nat)
    requires Valid(s) && g in s.gws && 0 <= i < MAX_TAGS && Sound(mem)
    ensures var r := LabelOne(s, g, i, name, mem, n); r.Some? ==> PacketLabels(s, r.value, g, {i}, name, mem)
  {
    hide Linked, AllocateTagId, DeallocateTagId, Label, Bits;
    Slotted(s, g);
    if name == "" {
      DeallocateLabels(s, g, i);
    } else {
      var alloc := mem(n, s.tags.Keys);
      assert Unused(s, alloc);
      AllocateLabels(s, g, i, name, alloc);
      AllocateTagIdValid(s, g, i, name, alloc);
    }
  }

  lemma PacketLabelsMore(s1: State, s2: State, s3: State, g: Ref, a: set<int>, b: set<int>, name: string, mem: Memory)
    requires PacketLabels(s1, s2, g, a, name, mem) && PacketLabels(s2, s3, g, b, name, mem)
    ensures PacketLabels(s1, s3, g, a + b, name, mem)
  {
    hide Label, Plenty;
  }

  lemma {:induction false} LabelAllLabels(s: State, g: Ref, ids: seq<int>, name: string, mem: Memory, n: nat)
    requires Valid(s) && g in s.gws && Sound(mem) && TagIds(ids)
    ensures var r := LabelAll(s, g, ids, name, mem, n); r.Some? ==> PacketLabels(s, r.value, g, IdsOf(ids), name, mem)
    decreases |ids|
  {
    hide Valid, LabelOne, Sound, Plenty, PacketLabels;
    if ids != [] {
      LabelOneValid(s, g, ids[0], name, mem, n);
      LabelOneLabels(s, g, ids[0], name, mem, n);
      assert IdsOf(ids) == {ids[0]} + IdsOf(ids[1..]) by { assert ids == [ids[0]] + ids[1..]; }
      var r := LabelOne(s, g, ids[0], name, mem, n);
      if r.Some? {
        LabelAllLabels(r.value, g, ids[1..], name, mem, n + 1);
        var r' := LabelAll(r.value, g, ids[1..], name, mem, n + 1);
        if r'.Some? {
          PacketLabelsMore(s, r.value, r'.value, g, {ids[0]}, IdsOf(ids[1..]), name, mem);
        }
      }
    } else {
      NoIds(s, g, IdsOf(ids), name, mem);
    }
  }

  lemma NoIds(s: State, g: Ref, ids: set<int>, name: string, mem: Memory)
    requires ids == {}
    ensures PacketLabels(s, s, g, ids, name, mem)
  {
    hide Label, Plenty;
  }

  // ---------------------------------------------------------------- a tag call

  // The gateway has no id with the label, and i is the lowest that has none.
  ghost predicate NextId(s: State, g: Ref, i: int, name: string) {
    && g in s.gws && 0 <= i < MAX_TAGS && Label(s, g, i).None?
    && (forall j | 0 <= j < i :: Label(s, g, j).Some?) && forall j :: Label(s, g, j) != Some(name)
  }

  // Every gateway of gs has the label: on the id that had it, or on the lowest free one. Nothing else changes.
  ghost predicate CallLabels(s: State, s': State, gs: seq<Ref>, name: string) {
    forall h, j :: Label(s', h, j) == if h in gs && NextId(s, h, j, name) then Some(name) else Label(s, h, j)
  }

  // A slot that holds the tag is an id with its label.
  lemma TagIdIsLabel(s: State, g: Ref, t: Ref, name: string)
    requires Valid(s) && g in s.gws && t in s.tags && s.tags[t].name == name
    ensures TagIdOf(s.gws[g], t) != -1 <==> exists j :: Label(s, g, j) == Some(name)
  {
    hide Valid;
    Slotted(s, g);
    Members(s);
    if TagIdOf(s.gws[g], t) != -1 {
      assert Label(s, g, TagIdOf(s.gws[g], t)) == Some(name);
    }
  }

  lemma FreeIdIsNext(s: State, g: Ref, name: string, i: int)
    requires Valid(s) && g in s.gws && forall j :: Label(s, g, j) != Some(name)
    ensures NextId(s, g, i, name) <==> i == FreeId(s.gws[g]) != -1
  {
    hide Valid, Bits, Label, FreeId;
    FreeIdIsLowest(s.gws[g]);
    var free := FreeId(s.gws[g]);
    forall j | 0 <= j < MAX_TAGS ensures Label(s, g, j).Some? <==> j in Bits(s.gws[g].tagIds) {
      LabelIsBit(s, g, j);
    }
  }

  lemma TagOneLabels(s: State, name: string, g: Ref, t: Ref, mem: Memory, n: nat)
    requires Valid(s) && g in s.gws && t in s.tags && s.tags[t].name == name && Sound(mem)
    ensures var r := TagOne(s, name, g, t, mem, n); r.Some? ==> CallLabels(s, r.value, [g], name)
  {
    hide Linked, AllocateTagId, TagIdOf, Label, Bits, FreeId;
    Slotted(s, g);
    FreeIdIsLowest(s.gws[g]);
    TagIdIsLabel(s, g, t, name);
    var i := FreeId(s.gws[g]);
    if TagIdOf(s.gws[g], t) == -1 && i != -1 {
      assert Unused(s, mem(n, s.tags.Keys));
      AllocateLabels(s, g, i, name, mem(n, s.tags.Keys));
      forall j ensures NextId(s, g, j, name) <==> j == i {
        FreeIdIsNext(s, g, name, j);
      }
    }
  }

  lemma OtherNextIds(s: State, s': State, g: Ref, name: string, h: Ref, j: int)
    requires CallLabels(s, s', [g], name) && s'.gws.Keys == s.gws.Keys && h != g
    ensures NextId(s', h, j, name) <==> NextId(s, h, j, name)
  {
    hide Label;
    assert forall i :: Label(s', h, i) == Label(s, h, i);
  }

  // After its turn a gateway has no next id.
  lemma OwnNextId(s: State, s': State, g: Ref, name: string, j: int)
    requires CallLabels(s, s', [g], name) && s'.gws.Keys == s.gws.Keys
    ensures !NextId(s', g, j, name)
  {
    hide Label;
    if i :| NextId(s, g, i, name) {
      assert Label(s', g, i) == Some(name);
    } else {
      assert forall i :: Label(s', g, i) == Label(s, g, i);
      assert NextId(s', g, j, name) <==> NextId(s, g, j, name);
    }
  }

  lemma CallLabelsMore(s1: State, s2: State, s3: State, g: Ref, gs: seq<Ref>, name: string)
    requires CallLabels(s1, s2, [g], name) && CallLabels(s2, s3, gs, name) && s2.gws.Keys == s1.gws.Keys
    ensures CallLabels(s1, s3, [g] + gs, name)
  {
    hide Label, NextId;
    forall h, j
      ensures Label(s3, h, j) == if h in [g] + gs && NextId(s1, h, j, name) then Some(name) else Label(s1, h, j)
    {
      assert h in [g] + gs <==> h == g || h in gs;
      if h != g {
        OtherNextIds(s1, s2, g, name, h, j);
      } else {
        OwnNextId(s1, s2, g, name, j);
      }
    }
  }

  lemma NoGateways(s: State, name: string)
    ensures CallLabels(s, s, [], name)
  {
    hide Label, NextId;
  }

  lemma {:induction false} TagAllLabels(s: State, name: string, gs: seq<Ref>, t: Ref, mem: Memory, n: nat)
    requires Valid(s) && t in s.tags && s.tags[t].name == name && Sound(mem) && Open(s, gs)
    ensures var r := TagAll(s, name, gs, t, mem, n); r.1 ==> CallLabels(s, r.0, gs, name)
    decreases |gs|
  {
    hide Valid, TagOne, HasTag, Grows, CallLabels, Sound;
    if gs == [] {
      NoGateways(s, name);
    } else {
      TagOneValid(s, name, gs[0], t, mem, n);
      TagOneLabels(s, name, gs[0], t, mem, n);
      var r := TagOne(s, name, gs[0], t, mem, n);
      if r.Some? {
        GrowsLive(s, r.value, gs, t);
        GrowsKeys(s, r.value);
        TagAllLabels(r.value, name, gs[1..], t, mem, n + 1);
        var r' := TagAll(r.value, name, gs[1..], t, mem, n + 1);
        assert gs == [gs[0]] + gs[1..];
        if r'.1 {
          CallLabelsMore(s, r.value, r'.0, gs[0], gs[1..], name);
        }
      }
    }
  }

  lemma NamedLabels(s: State, name: string, alloc: Alloc)
    requires Valid(s) && Unused(s, alloc)
    ensures ListIsLive(s) && SameLabels(s, Named(s, name, alloc))
  {
    hide Valid, FindTag;
    ValidIsLive(s);
    var s' := Named(s, name, alloc);
    forall h, j ensures Label(s', h, j) == Label(s, h, j) {
      if h in s.gws {
        Slotted(s, h);
      }
    }
  }

  // The label is on no id any more, and the other labels stay.
  ghost predicate Unlabelled(s: State, s': State, name: string) {
    forall h, j :: Label(s', h, j) == if Label(s, h, j) == Some(name) then None else Label(s, h, j)
  }

  lemma OtherLabels(s: State, s': State, name: string, h: Ref, j: int, m: string)
    requires Valid(s) && Valid(s') && OthersKept(s, s', name) && m != name
    ensures Label(s', h, j) == Some(m) <==> Label(s, h, j) == Some(m)
  {
    hide Valid, Label;
    LabelIsSite(s, h, j, m);
    LabelIsSite(s', h, j, m);
    assert forall t <- s.tags | s.tags[t].name == m :: t in s'.tags && s'.tags[t] == s.tags[t];
    assert forall t <- s'.tags | s'.tags[t].name == m :: t in s.tags && s'.tags[t] == s.tags[t];
  }

  lemma ForgottenLabels(s: State, s': State, name: string)
    requires Valid(s) && Valid(s') && OthersKept(s, s', name) && forall t <- s'.tags :: s'.tags[t].name != name
    ensures Unlabelled(s, s', name)
  {
    hide Valid, OthersKept;
    forall h, j ensures Label(s', h, j) == if Label(s, h, j) == Some(name) then None else Label(s, h, j) {
      assert Label(s', h, j) != Some(name);
      hide Label;
      if Label(s', h, j).Some? {
        OtherLabels(s, s', name, h, j, Label(s', h, j).value);
      }
      if Label(s, h, j).Some? && Label(s, h, j).value != name {
        OtherLabels(s, s', name, h, j, Label(s, h, j).value);
      }
    }
  }

  lemma CallLabelsFrom(s: State, s1: State, s2: State, gs: seq<Ref>, name: string)
    requires SameLabels(s, s1) && s1.gws == s.gws && CallLabels(s1, s2, gs, name)
    ensures CallLabels(s, s2, gs, name)
  {
    hide Label;
    forall h, j ensures NextId(s, h, j, name) <==> NextId(s1, h, j, name) {
      assert forall i :: Label(s1, h, i) == Label(s, h, i);
    }
  }

  // A tag call that succeeds labels one id on every gateway of its devices that has none with the label: the lowest
  // free one. One that fails after it had its devices takes the label from every id of every gateway.
  lemma CallTagLabels(s: State, name: string, gs: Option<seq<Ref>>, alloc: Alloc, mem: Memory)
    requires Valid(s) && Unused(s, alloc) && Sound(mem) && (gs.Some? ==> Open(s, gs.value))
    ensures var r := CallTag(s, name, gs, alloc, mem);
      && (r.1 ==> gs.Some? && CallLabels(s, r.0, gs.value, name))
      && (gs.None? ==> r == (s, false))
      && (gs.Some? && !r.1 ==> Unlabelled(s, r.0, name))
  {
    hide Valid, TagAll, Rollback, OthersKept, CallLabels, Unlabelled, SameLabels, HasTag, Grows;
    CallTagAllOrNothing(s, name, gs, alloc, mem);
    var r := CallTag(s, name, gs, alloc, mem);
    if gs.Some? && !r.1 {
      ForgottenLabels(s, r.0, name);
    } else if gs.Some? {
      NamedHere(s, name, alloc);
      NamedLabels(s, name, alloc);
      var s' := Named(s, name, alloc);
      var found := FindTag(s', name);
      TagAllLabels(s', name, gs.value, found.value, mem, 0);
      CallLabelsFrom(s, s', r.0, gs.value, name);
    }
  }
}
