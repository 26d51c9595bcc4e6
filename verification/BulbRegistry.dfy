/** The bulb code of the daemon, step by step, over the table of bulbs and the counts of the gateways. */
module BulbRegistry {

  import opened BitScan
  import opened Common
  import opened BulbTable

  function Changes(a: Word, b: Word): Word {
    a ^ b
  }

  function Both(a: Word, b: Word): Word {
    a & b
  }

  lemma BitsChanges(a: Word, b: Word)
    ensures Bits(Changes(a, b)) == (Bits(a) - Bits(b)) + (Bits(b) - Bits(a))
  {
    hide Bits;
    BitsXor(a, b);
  }

  lemma BitsCommon(a: Word, b: Word)
    ensures Bits(Both(a, b)) == Bits(a) * Bits(b)
  {
    hide Bits;
    BitsAnd(a, b);
  }

  // The tags that a bulb gets and loses.
  lemma ChangedTags(was: Word, now: Word)
    ensures Bits(Both(Changes(was, now), now)) == Bits(now) - Bits(was)
    ensures Bits(Both(Changes(was, now), was)) == Bits(was) - Bits(now)
  {
    hide Bits, Changes, Both;
    BitsChanges(was, now);
    BitsCommon(Changes(was, now), now);
    BitsCommon(Changes(was, now), was);
  }

  lemma InBits(w: Word, ids: seq<int>)
    requires (set id | id in ids) == Bits(w)
    ensures forall id :: id in ids <==> id in Bits(w)
    ensures forall k | 0 <= k < |ids| :: 0 <= ids[k] < MAX_TAGS
  {
    hide Bits;
    forall id ensures id in ids <==> id in Bits(w) {
      assert id in ids <==> id in (set i | i in ids);
    }
    assert forall k | 0 <= k < |ids| :: ids[k] in ids;
  }

  // The first loop of lgtd_lifx_gateway_update_tag_refcounts()
  method Increase(refcounts: seq<int>, added: Word) returns (r: seq<int>)
    requires |refcounts| == MAX_TAGS
    ensures |r| == MAX_TAGS && forall i | 0 <= i < MAX_TAGS :: r[i] == NewCount(refcounts[i], false, i in Bits(added))
  {
    var ids := ForEachTagId(added);
    InBits(added, ids);
    hide Bits;
    r := refcounts;
    var k := 0;
    while k < |ids|
      invariant 0 <= k <= |ids| && |r| == MAX_TAGS
      invariant forall i | 0 <= i < MAX_TAGS :: r[i] == NewCount(refcounts[i], false, i in ids[..k])
    {
      var id := ids[k];
      assert id !in ids[..k];
      assert ids[..k + 1] == ids[..k] + [id];
      if r[id] != UINT8_MAX {
        r := r[id := r[id] + 1];
      }
      k := k + 1;
    }
    assert ids[..k] == ids;
  }

  // The loop that takes tags away, which asserts that every count is positive
  method Decrease(refcounts: seq<int>, gone: Word) returns (r: seq<int>)
    requires |refcounts| == MAX_TAGS && forall i | i in Bits(gone) :: refcounts[i] > 0
    ensures |r| == MAX_TAGS && forall i | 0 <= i < MAX_TAGS :: r[i] == NewCount(refcounts[i], i in Bits(gone), false)
  {
    var ids := ForEachTagId(gone);
    InBits(gone, ids);
    hide Bits;
    r := refcounts;
    var k := 0;
    while k < |ids|
      invariant 0 <= k <= |ids| && |r| == MAX_TAGS
      invariant forall i | 0 <= i < MAX_TAGS :: r[i] == NewCount(refcounts[i], i in ids[..k], false)
    {
      var id := ids[k];
      assert id !in ids[..k];
      assert ids[..k + 1] == ids[..k] + [id];
      assert r[id] > 0 by {
        assert id in ids;
      }
      r := r[id := r[id] - 1];
      k := k + 1;
    }
    assert ids[..k] == ids;
  }

  class Registry {
    var gws: map<Ref, Counts>
    var bulbs: map<Addr, Bulb>
    var bulbCount: int
    var poweredOn: int

    ghost function S(): State
      reads this
    {
      State(gws, bulbs, bulbCount, poweredOn)
    }

    constructor ()
      ensures Valid(S()) && gws == map[]
    {
      gws, bulbs, bulbCount, poweredOn := map[], map[], 0, 0;
    }

    // lgtd_lifx_gateway_update_tag_refcounts()
    method UpdateTagRefcounts(g: Ref, was: Word, now: Word)
      requires g in gws && |gws[g].refcounts| == MAX_TAGS
      requires forall i | i in Bits(was) && i !in Bits(now) :: gws[g].refcounts[i] > 0
      modifies this
      ensures gws == old(gws)[g := Counts(NewCounts(old(gws)[g].refcounts, was, now), old(gws)[g].bulbs)]
      ensures bulbs == old(bulbs) && bulbCount == old(bulbCount) && poweredOn == old(poweredOn)
    {
      hide Bits, Changes, Both;
      ChangedTags(was, now);
      var changes := Changes(was, now);
      var addedTags := Both(changes, now);
      var removedTags := Both(changes, was);
      var c := gws[g];
      var more := Increase(c.refcounts, addedTags);
      var r := Decrease(more, removedTags);
      assert r == NewCounts(c.refcounts, was, now);
      gws := gws[g := Counts(r, c.bulbs)];
    }

    // lgtd_lifx_bulb_set_tags()
    method SetBulbTags(a: Addr, tags: Word)
      requires Valid(S()) && a in bulbs
      modifies this
      ensures Known(old(S()), a) && S() == SetTags(old(S()), a, tags)
    {
      hide Bits, Filed, Counted, Powered, NewCounts;
      KnownBulb(S(), a);
      forall i | i in Bits(bulbs[a].tags) && i !in Bits(tags) ensures gws[bulbs[a].gw].refcounts[i] > 0 {
        CloseBulbChecks(S(), a, i);
      }
      UpdateTagRefcounts(bulbs[a].gw, bulbs[a].tags, tags);
      bulbs := bulbs[a := bulbs[a].(tags := tags)];
    }

    // lgtd_lifx_bulb_set_power_state()
    method SetBulbPower(a: Addr, power: int)
      requires a in bulbs
      modifies this
      ensures S() == SetPower(old(S()), a, power)
    {
      if power != bulbs[a].power {
        poweredOn := poweredOn + if power == POWER_ON then 1 else -1;
      }
      bulbs := bulbs[a := bulbs[a].(power := power)];
    }

    // lgtd_lifx_bulb_set_light_state(), as the decoder leaves the packet
    method SetBulbLightState(a: Addr, power: int, tags: Word)
      requires Valid(S()) && a in bulbs && (power == POWER_OFF || power == POWER_ON)
      modifies this
      ensures Known(old(S()), a) && S() == SetLightState(old(S()), a, power, tags)
    {
      KnownBulb(S(), a);
      SetPowerKeeps(S(), a, power);
      assert DecodePower(power) == power;
      hide Valid, SetTags, SetPower;
      assert a in SetPower(S(), a, power).bulbs by { StillThere(S(), a, power); }
      SetBulbPower(a, power);
      SetBulbTags(a, tags);
    }

    // lgtd_lifx_gateway_get_or_open_bulb()
    method GetOrOpen(g: Ref, a: Addr, room: bool) returns (found: bool)
      requires g in gws
      modifies this
      ensures found == (a in old(bulbs) || room)
      ensures S() == if a in old(bulbs) || !room then old(S()) else OpenBulb(old(S()), g, a)
    {
      if a in bulbs {
        return true;
      }
      if !room {
        return false;
      }
      bulbs := bulbs[a := Bulb(g, POWER_OFF, 0)];
      bulbCount := bulbCount + 1;
      gws := gws[g := Counts(gws[g].refcounts, [a] + gws[g].bulbs)];
      return true;
    }

    // The loop of the check in lgtd_lifx_bulb_close()
    method CountCarriers(list: seq<Addr>, i: int) returns (n: int)
      requires 0 <= i < MAX_TAGS && forall b <- list :: b in bulbs
      ensures n == Carriers(bulbs, list, i)
    {
      n := 0;
      var k := 0;
      while k < |list|
        invariant 0 <= k <= |list| && n + Carriers(bulbs, list[k..], i) == Carriers(bulbs, list, i)
      {
        assert list[k] in list && list[k..][1..] == list[k + 1..];
        HasIsMaskTest(bulbs[list[k]].tags, i);
        if MaskTest(bulbs[list[k]].tags, Value(i)) {
          n := n + 1;
        }
        k := k + 1;
      }
    }

    // lgtd_lifx_bulb_close(), the bulb being off the list of its gateway: every count is the number of bulbs that are
    // left
    method BulbClose(a: Addr)
      requires a in bulbs && bulbs[a].gw in gws
      requires var c := gws[bulbs[a].gw];
        |c.refcounts| == MAX_TAGS && (forall b <- c.bulbs :: b in bulbs && b != a)
        && forall i | i in Bits(bulbs[a].tags) :: c.refcounts[i] == Carriers(bulbs, c.bulbs, i)
      modifies this
      ensures S() == State(old(gws), old(bulbs) - {a}, old(bulbCount) - 1,
                           old(poweredOn) - if old(bulbs)[a].power == POWER_ON then 1 else 0)
    {
      var c := gws[bulbs[a].gw];
      var ids := ForEachTagId(bulbs[a].tags);
      InBits(bulbs[a].tags, ids);
      hide Bits;
      var k := 0;
      while k < |ids|
        invariant 0 <= k <= |ids| && S() == old(S())
      {
        assert ids[k] in ids;
        var n := CountCarriers(c.bulbs, ids[k]);
        assert c.refcounts[ids[k]] == n;
        k := k + 1;
      }
      bulbCount := bulbCount - 1;
      if bulbs[a].power == POWER_ON {
        poweredOn := poweredOn - 1;
      }
      bulbs := bulbs - {a};
    }

    // lgtd_lifx_gateway_remove_and_close_bulb()
    method RemoveAndClose(a: Addr)
      requires Valid(S()) && a in bulbs
      modifies this
      ensures Known(old(S()), a) && a in GatewayOf(old(S()), a).bulbs && S() == CloseBulb(old(S()), a)
    {
      hide Valid, Bits, Carriers, LessCounts, Removed;
      ghost var s := S();
      OnItsGateway(s, a);
      forall i | 0 <= i < MAX_TAGS ensures Checked(s, a, i) {
        CloseBulbChecks(s, a, i);
      }
      var g := bulbs[a].gw;
      var c := gws[g];
      assert forall i | i in Bits(bulbs[a].tags) :: Checked(s, a, i);
      var r := Decrease(c.refcounts, bulbs[a].tags);
      assert r == LessCounts(c.refcounts, bulbs[a].tags);
      var list := Unlink(c.bulbs, a);
      ListAfter(s, a);
      gws := gws[g := Counts(r, list)];
      BulbClose(a);
    }

    // SLIST_REMOVE
    static method Unlink(list: seq<Addr>, a: Addr) returns (left: seq<Addr>)
      requires a in list
      ensures left == Removed(list, a)
    {
      var k := 0;
      while list[k] != a
        invariant 0 <= k < |list| && AddrIndex(list, a) == k + AddrIndex(list[k..], a) && a in list[k..]
        decreases |list| - k
      {
        assert list[k..][1..] == list[k + 1..];
        assert a in list[k + 1..];
        k := k + 1;
      }
      left := list[..k] + list[k + 1..];
    }

    // lgtd_lifx_gateway_handle_light_status(), up to what it does to the table
    method HandleLightStatus(g: Ref, a: Addr, power: int, tags: Word, room: bool)
      requires Valid(S()) && g in gws
      modifies this
      ensures S() == OnLightStatus(old(S()), g, a, power, tags, room)
    {
      FoundKeeps(S(), g, a, room);
      hide Valid, SetLightState, OpenBulb;
      var found := GetOrOpen(g, a, room);
      if !found {
        return;
      }
      SetBulbLightState(a, DecodePower(power), tags);
    }

    // lgtd_lifx_gateway_handle_power_state()
    method HandlePowerState(g: Ref, a: Addr, power: int, room: bool)
      requires Valid(S()) && g in gws
      modifies this
      ensures S() == OnPowerState(old(S()), g, a, power, room)
    {
      FoundKeeps(S(), g, a, room);
      hide Valid, SetPower, OpenBulb;
      var found := GetOrOpen(g, a, room);
      if !found {
        return;
      }
      SetBulbPower(a, DecodePower(power));
    }

    // lgtd_lifx_gateway_handle_tags()
    method HandleTags(g: Ref, a: Addr, tags: Word, room: bool)
      requires Valid(S()) && g in gws
      modifies this
      ensures S() == OnTags(old(S()), g, a, tags, room)
    {
      FoundKeeps(S(), g, a, room);
      hide Valid, SetTags, OpenBulb;
      var found := GetOrOpen(g, a, room);
      if !found {
        return;
      }
      SetBulbTags(a, tags);
    }

    // The bulb part of lgtd_lifx_gateway_close()
    method Close(g: Ref)
      requires Valid(S()) && g in gws
      modifies this
      ensures S() == CloseGateway(old(S()), g)
      ensures bulbs == OffGateway(old(bulbs), g) && gws == old(gws) - {g}
    {
      hide Valid, CloseBulb;
      CloseGatewayKeeps(S(), g);
      while gws[g].bulbs != []
        invariant Valid(S()) && g in gws && CloseBulbs(S(), g) == CloseBulbs(old(S()), g)
        decreases |gws[g].bulbs|
      {
        FirstBulb(S(), g);
        RemoveAndClose(gws[g].bulbs[0]);
      }
      gws := gws - {g};
    }
  }

  // What closing a bulb checks of one count.
  ghost predicate Checked(s: State, a: Addr, i: int) {
    && Known(s, a) && a in GatewayOf(s, a).bulbs && 0 <= i < MAX_TAGS
    && (i in Bits(s.bulbs[a].tags) ==> GatewayOf(s, a).refcounts[i] > 0)
    && LessCounts(GatewayOf(s, a).refcounts, s.bulbs[a].tags)[i] == Carriers(s.bulbs, Removed(GatewayOf(s, a).bulbs, a), i)
  }

  lemma ListAfter(s: State, a: Addr)
    requires Valid(s) && a in s.bulbs && Known(s, a) && a in GatewayOf(s, a).bulbs
    ensures forall b <- Removed(GatewayOf(s, a).bulbs, a) :: b in s.bulbs && b != a
  {
    hide Bits, Removed;
    assert Distinct(GatewayOf(s, a).bulbs);
    RemovedMembers(GatewayOf(s, a).bulbs, a);
  }

  lemma StillThere(s: State, a: Addr, power: int)
    requires a in s.bulbs
    ensures a in SetPower(s, a, power).bulbs
  {}
}
