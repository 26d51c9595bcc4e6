/** The tag code of the daemon, step by step, over the global list of tags and the slots of the gateways. */
module TagRegistry {

  import opened BitScan
  import opened Common
  import opened Tagging
  import opened TagHandlers
  import opened TagCall

  class Registry {
    var gws: map<Ref, Slots>
    var tags: map<Ref, Tag>
    // the order of the global list
    var list: seq<Ref>

    ghost function S(): State
      reads this
    {
      State(gws, tags, list)
    }

    constructor ()
      ensures Valid(S()) && gws == map[]
    {
      gws, tags, list := map[], map[], [];
    }

    // lgtd_lifx_tagging_find_tag()
    method Find(name: string) returns (t: Option<Ref>)
      requires ListIsLive(S())
      ensures t == FindTag(S(), name)
    {
      var k := 0;
      while k < |list|
        invariant 0 <= k <= |list| && LabelIndex(list, tags, name) == k + LabelIndex(list[k..], tags, name)
      {
        assert list[k] in list && list[k..][1..] == list[k + 1..];
        if tags[list[k]].name == name {
          return Some(list[k]);
        }
        k := k + 1;
      }
      return None;
    }

    // lgtd_lifx_tagging_find_site()
    static method FindSite(sites: seq<Site>, g: Ref) returns (k: nat)
      ensures k == SiteIndex(sites, g)
    {
      k := 0;
      while k < |sites|
        invariant k <= |sites| && SiteIndex(sites, g) == k + SiteIndex(sites[k..], g)
      {
        assert sites[k..][1..] == sites[k + 1..];
        if sites[k].gw == g {
          return;
        }
        k := k + 1;
      }
    }

    // lgtd_lifx_tagging_deallocate_tag(), which asserts that the tag has no site
    method Deallocate(t: Ref)
      requires t in tags && tags[t].sites == []
      modifies this
      ensures S() == DeallocateTag(old(S()), t)
    {
      tags := tags - {t};
      var k := 0;
      while k < |list| && list[k] != t
        invariant 0 <= k <= |list| && RefIndex(list, t) == k + RefIndex(list[k..], t)
      {
        assert list[k..][1..] == list[k + 1..];
        k := k + 1;
      }
      if k < |list| {
        list := list[..k] + list[k + 1..];
      }
    }

    // lgtd_lifx_tagging_decref()
    method Release(t: Ref, g: Ref)
      requires t in tags
      modifies this
      ensures S() == Decref(old(S()), t, g)
    {
      var tag := tags[t];
      var k := FindSite(tag.sites, g);
      var sites := tag.sites;
      if k < |sites| {
        sites := sites[..k] + sites[k + 1..];
      }
      tags := tags[t := tag.(sites := sites)];
      if sites == [] {
        Deallocate(t);
      }
    }

    // The site of a tag for a gateway, which must have that id if it is there already.
    method AddSite(t: Ref, g: Ref, i: int, room: bool) returns (ok: bool, conflict: bool)
      requires t in tags
      modifies this
      ensures var sites := old(tags)[t].sites;
        var k := SiteIndex(sites, g);
        && conflict == (k < |sites| && sites[k].tagId != i) && ok == (!conflict && (k < |sites| || room))
        && S() == if k == |sites| && room then WithSite(old(S()), t, g, i) else old(S())
    {
      hide SiteIndex;
      conflict := false;
      var k := FindSite(tags[t].sites, g);
      if k == |tags[t].sites| {
        if !room {
          return false, false;
        }
        tags := tags[t := tags[t].(sites := [Site(g, i)] + tags[t].sites)];
      } else if tags[t].sites[k].tagId != i {
        return false, true; // the assertion at the end
      }
      ok := true;
    }

    // lgtd_lifx_tagging_incref(): the tag, or why there is none; nothing changes in that case.
    method Take(name: string, g: Ref, i: int, alloc: Alloc) returns (r: Option<Ref>, conflict: bool)
      requires ListIsLive(S()) && Unused(S(), alloc)
      modifies this
      ensures var e := Incref(old(S()), name, g, i, alloc);
        if e.Taken? then r == Some(e.tag) && !conflict && S() == e.state
        else r == None && S() == old(S()) && conflict == e.Conflict?
    {
      hide SiteIndex, LabelIndex, FindTag, DeallocateTag, WithSite, NewTag;
      conflict := false;
      ghost var before := S();
      r := Find(name);
      var t: Ref;
      var deallocTag := false;
      if r.Some? {
        t := r.value;
      } else {
        if alloc.tag.None? {
          return;
        }
        t := alloc.tag.value;
        AddTag(t, name);
        deallocTag := true;
      }
      var ok;
      ok, conflict := AddSite(t, g, i, alloc.site);
      if !ok {
        if !conflict && deallocTag {
          UndoneNewTag(before, t, name);
          Deallocate(t);
        }
        return None, conflict;
      }
      r := Some(t);
    }

    // lgtd_lifx_tagging_allocate_tag()
    method AddTag(t: Ref, name: string)
      requires t !in tags
      modifies this
      ensures S() == NewTag(old(S()), t, name) && t in tags && tags[t] == Tag(name, [])
    {
      tags := tags[t := Tag(name, [])];
      list := [t] + list;
    }

    // The second half of lgtd_lifx_gateway_allocate_tag_id(), with an id
    method AllocateAt(g: Ref, i: int, name: string, alloc: Alloc) returns (id: int, aborted: bool)
      requires ListIsLive(S()) && g in gws && 0 <= i < |gws[g].tags| == MAX_TAGS && Unused(S(), alloc)
      modifies this
      ensures var r := AllocateTagId(old(S()), g, i, name, alloc);
        aborted == r.Aborted? && id == (if r.Allocated? then i else -1) && S() == if r.Allocated? then r.state else old(S())
    {
      hide Incref, TestBit, SetBit;
      id, aborted := i, false;
      if !TestBit(gws[g].tagIds, i) {
        var slots := gws[g];
        var t;
        t, aborted := Take(name, g, i, alloc);
        if t.None? {
          return -1, aborted;
        }
        gws := gws[g := Slots(SetBit(slots.tagIds, i), slots.tags[i := t])];
      }
    }

    // lgtd_lifx_gateway_allocate_tag_id(): the id, -1 when there is none; the id -1 asks for the lowest free one.
    method AllocateId(g: Ref, tagId: int, name: string, mem: Memory, n: nat) returns (id: int, aborted: bool)
      requires Valid(S()) && g in gws && -1 <= tagId < MAX_TAGS && Sound(mem)
      modifies this
      ensures Slots64(old(S()), g) && ListIsLive(old(S())) && -1 <= FreeId(old(gws)[g]) < MAX_TAGS
      ensures var chosen := if tagId == -1 then FreeId(old(gws)[g]) else tagId;
        if chosen == -1 then id == -1 && !aborted && S() == old(S())
        else
          var r := AllocateTagId(old(S()), g, chosen, name, mem(n, old(tags).Keys));
          aborted == r.Aborted? && id == (if r.Allocated? then chosen else -1)
            && S() == if r.Allocated? then r.state else old(S())
    {
      Slotted(S(), g);
      FreeIdIsLowest(gws[g]);
      hide Linked, AllocateTagId;
      var i := tagId;
      if i == -1 {
        i := BitScanForward(Complement(gws[g].tagIds));
        if i == -1 {
          return -1, false;
        }
      }
      var alloc := mem(n, tags.Keys);
      assert Unused(S(), alloc);
      id, aborted := AllocateAt(g, i, name, alloc);
    }

    // lgtd_lifx_gateway_deallocate_tag_id()
    method DeallocateId(g: Ref, i: int)
      requires Valid(S()) && g in gws && 0 <= i < MAX_TAGS
      modifies this
      ensures Slots64(old(S()), g) && (old(gws)[g].tags[i].Some? ==> old(gws)[g].tags[i].value in old(tags))
      ensures S() == DeallocateTagId(old(S()), g, i)
    {
      Slotted(S(), g);
      ExactlyOneSite(S(), g, i);
      BitsTest(gws[g].tagIds, i);
      hide Linked, Decref, TestBit, ClearBit, Bits;
      if TestBit(gws[g].tagIds, i) {
        var slots := gws[g];
        Release(slots.tags[i].value, g);
        DecrefGateways(old(S()), slots.tags[i].value, g);
        gws := gws[g := Slots(ClearBit(slots.tagIds, i), slots.tags[i := None])];
      }
    }

    // lgtd_lifx_gateway_get_tag_id()
    method GetTagId(g: Ref, t: Ref) returns (id: int)
      requires Valid(S()) && g in gws
      ensures id == TagIdOf(gws[g], t)
    {
      Slotted(S(), g);
      var slots := gws[g];
      var ids := ForEachTagId(slots.tagIds);
      SlotsInUse(S(), g);
      assert forall id :: id in ids <==> id in (set id | id in ids);
      hide Linked, Bits, Ascending;
      assert forall id :: id in ids <==> id in Bits(slots.tagIds);
      var k := 0;
      while k < |ids|
        invariant 0 <= k <= |ids| && forall j | 0 <= j < k :: 0 <= ids[j] < MAX_TAGS && slots.tags[ids[j]] != Some(t)
      {
        assert ids[k] in ids;
        if slots.tags[ids[k]] == Some(t) {
          Scanned(slots.tags, ids, k, t);
          return ids[k];
        }
        k := k + 1;
      }
      Scanned(slots.tags, ids, k, t);
      return -1;
    }

    // The tag part of lgtd_lifx_gateway_close()
    method Close(g: Ref)
      requires Valid(S()) && g in gws
      modifies this
      ensures Slots64(old(S()), g) && S() == CloseGateway(old(S()), g)
    {
      hide Valid, Linked, ListIsLive, ReleaseFrom, SlotsBefore;
      Slotted(S(), g);
      NothingReleased(S(), g);
      ghost var all := ReleaseFrom(S(), g, 0);
      var i := 0;
      while i != MAX_TAGS
        invariant 0 <= i <= MAX_TAGS && gws == old(gws) && Linked(S(), g, SlotsBefore(i)) && ReleaseFrom(S(), g, i) == all
      {
        CloseSlot(g, i);
        i := i + 1;
      }
      ReleaseUnfold(S(), g, i);
      gws := gws - {g};
    }

    method CloseSlot(g: Ref, i: nat)
      requires Linked(S(), g, SlotsBefore(i)) && g in gws && i < |gws[g].tags| == MAX_TAGS
      modifies this
      ensures gws == old(gws) && Linked(S(), g, SlotsBefore(i + 1))
      ensures ReleaseFrom(S(), g, i + 1) == ReleaseFrom(old(S()), g, i)
    {
      hide Linked, Decref, ReleaseFrom, SlotsBefore;
      ReleaseUnfold(S(), g, i);
      if gws[g].tags[i].Some? {
        Release(gws[g].tags[i].value, g);
      }
    }

    // lgtd_lifx_gateway_handle_tag_labels(); ids are the ones in the packet
    method HandleTagLabels(g: Ref, pktTags: Word, name: string, mem: Memory) returns (aborted: bool, ghost ids: seq<int>)
      requires Valid(S()) && g in gws && Sound(mem)
      modifies this
      ensures Ascending(ids) && (set id | id in ids) == Bits(pktTags) && TagIds(ids)
      ensures var r := LabelAll(old(S()), g, ids, name, mem, 0);
        aborted == r.None? && (r.Some? ==> S() == r.value)
    {
      var pktIds := ForEachTagId(pktTags);
      assert TagIds(pktIds) by { InRange(pktTags, pktIds); }
      ids := pktIds;
      aborted := false;
      hide Valid, LabelOne;
      var k := 0;
      while k < |pktIds|
        invariant 0 <= k <= |pktIds| && Valid(S()) && g in gws && TagIds(pktIds[k..])
        invariant LabelAll(S(), g, pktIds[k..], name, mem, k) == LabelAll(old(S()), g, pktIds, name, mem, 0)
      {
        LabelOneValid(S(), g, pktIds[k], name, mem, k);
        assert pktIds[k..][0] == pktIds[k] && pktIds[k..][1..] == pktIds[k + 1..];
        aborted := LabelSlot(g, pktIds[k], name, mem, k);
        if aborted {
          return;
        }
        k := k + 1;
      }
      assert pktIds[k..] == [];
    }

    method LabelSlot(g: Ref, i: int, name: string, mem: Memory, n: nat) returns (aborted: bool)
      requires Valid(S()) && g in gws && Sound(mem) && 0 <= i < MAX_TAGS
      modifies this
      ensures var r := LabelOne(old(S()), g, i, name, mem, n); aborted == r.None? && (r.Some? ==> S() == r.value)
    {
      Slotted(S(), g);
      hide Linked, AllocateTagId;
      aborted := false;
      if name != "" {
        var id;
        id, aborted := AllocateId(g, i, name, mem, n);
      } else if gws[g].tags[i].Some? {
        DeallocateId(g, i);
      }
    }

    // lgtd_proto_tag(): gs are the gateways of the devices, if there was memory for the list of them
    method TagDevices(gs: Option<seq<Ref>>, name: string, alloc: Alloc, mem: Memory) returns (ok: bool)
      requires Valid(S()) && Unused(S(), alloc) && Sound(mem) && (gs.Some? ==> Open(S(), gs.value))
      modifies this
      ensures (S(), ok) == CallTag(old(S()), name, gs, alloc, mem)
    {
      hide Valid, ListIsLive, TagAll, Rollback, FindTag;
      NamedHere(S(), name, alloc);
      if gs.None? {
        return false;
      }
      var t := Find(name);
      if t.None? {
        if alloc.tag.None? {
          return false;
        }
        t := alloc.tag;
        FoundNew(S(), t.value, name);
        AddTag(t.value, name);
      }
      assert S() == Named(old(S()), name, alloc) && FindTag(S(), name) == t;
      ghost var named := S();
      ok := TagGateways(gs.value, name, t.value, mem);
      TagAllValid(named, name, gs.value, t.value, mem, 0);
      if !ok {
        GrowsLive(named, S(), gs.value, t.value);
        RollbackTag(t.value);
      }
    }

    method TagGateways(gs: seq<Ref>, name: string, t: Ref, mem: Memory) returns (ok: bool)
      requires Valid(S()) && t in tags && tags[t].name == name && Sound(mem) && Open(S(), gs)
      modifies this
      ensures (S(), ok) == TagAll(old(S()), name, gs, t, mem, 0)
    {
      hide Valid, TagOne;
      var k := 0;
      while k < |gs|
        invariant 0 <= k <= |gs| && Valid(S()) && t in tags && tags[t].name == name && Open(S(), gs) && Open(S(), gs[k..])
        invariant TagAll(S(), name, gs[k..], t, mem, k) == TagAll(old(S()), name, gs, t, mem, 0)
      {
        TagOneValid(S(), name, gs[k], t, mem, k);
        assert gs[k..][0] == gs[k] && gs[k..][1..] == gs[k + 1..];
        ok := TagGateway(gs[k], name, t, mem, k);
        if !ok {
          return;
        }
        k := k + 1;
      }
      assert gs[k..] == [];
      return true;
    }

    method TagGateway(g: Ref, name: string, t: Ref, mem: Memory, n: nat) returns (ok: bool)
      requires Valid(S()) && g in gws && t in tags && tags[t].name == name && Sound(mem)
      modifies this
      ensures var r := TagOne(old(S()), name, g, t, mem, n); ok == r.Some? && S() == if ok then r.value else old(S())
    {
      Slotted(S(), g);
      FreeIdIsLowest(gws[g]);
      hide Linked, AllocateTagId, TagIdOf;
      var tagId := GetTagId(g, t);
      if tagId == -1 {
        var aborted;
        tagId, aborted := AllocateId(g, -1, name, mem, n);
        if tagId == -1 {
          return false;
        }
      }
      return true;
    }

    // The error path: LIST_FOREACH_SAFE over the sites of the tag
    method RollbackTag(t: Ref)
      requires Valid(S()) && t in tags
      modifies this
      ensures S() == Rollback(old(S()), t)
    {
      SitesInBounds(S(), t);
      hide Valid, Deallocated, DeallocateTag;
      var sites := tags[t].sites;
      if sites == [] {
        Deallocate(t);
      } else {
        var k := 0;
        while k < |sites|
          invariant 0 <= k <= |sites| && Valid(S()) && gws.Keys == old(gws).Keys
          invariant DeallocateSites(S(), sites[k..]) == DeallocateSites(old(S()), sites)
        {
          var site := sites[k];
          DeallocatedValid(S(), site);
          assert sites[k..][0] == site && sites[k..][1..] == sites[k + 1..];
          DeallocateId(site.gw, site.tagId);
          k := k + 1;
        }
        assert sites[k..] == [];
      }
    }
  }

  ghost predicate Slots64(s: State, g: Ref) {
    g in s.gws && |s.gws[g].tags| == MAX_TAGS
  }

  lemma UndoneNewTag(s: State, t: Ref, name: string)
    requires t !in s.tags
    ensures DeallocateTag(NewTag(s, t, name), t) == s
  {
    assert s.tags[t := Tag(name, [])] - {t} == s.tags;
    assert RefIndex([t] + s.list, t) == 0;
  }

  lemma SlotsInUse(s: State, g: Ref)
    requires Valid(s) && g in s.gws
    ensures |s.gws[g].tags| == MAX_TAGS
    ensures forall i | 0 <= i < MAX_TAGS :: i in Bits(s.gws[g].tagIds) <==> s.gws[g].tags[i].Some?
  {
    hide Bits;
  }

  // Scanning the ids in use in ascending order finds the first slot that holds a tag.
  lemma Scanned(tags: seq<Option<Ref>>, ids: seq<int>, k: nat, t: Ref)
    requires Ascending(ids) && k <= |ids| && forall i | 0 <= i < |tags| && tags[i].Some? :: i in ids
    requires forall j | 0 <= j < k :: 0 <= ids[j] < |tags| && tags[ids[j]] != Some(t)
    requires k < |ids| ==> 0 <= ids[k] < |tags| && tags[ids[k]] == Some(t)
    ensures TagIdFrom(tags, t, 0) == if k < |ids| then ids[k] else -1
  {
    hide TagIdFrom, Ascending;
    forall i | 0 <= i < (if k < |ids| then ids[k] else |tags|) ensures tags[i] != Some(t) {
      if tags[i].Some? {
        var m := PositionBefore(ids, k, i);
        assert tags[ids[m]] != Some(t);
      }
    }
  }

  lemma PositionBefore(ids: seq<int>, k: nat, i: int) returns (m: nat)
    requires Ascending(ids) && i in ids && k <= |ids| && (k < |ids| ==> i < ids[k])
    ensures m < k && ids[m] == i
  {
    m :| 0 <= m < |ids| && ids[m] == i;
  }

  lemma InRange(w: Word, ids: seq<int>)
    requires (set id | id in ids) == Bits(w)
    ensures TagIds(ids)
  {
    hide Bits;
    forall k | 0 <= k < |ids| ensures 0 <= ids[k] < MAX_TAGS {
      assert ids[k] in (set id | id in ids);
      assert ids[k] in Bits(w);
    }
  }
}
