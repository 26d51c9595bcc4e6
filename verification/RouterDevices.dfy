/** The resolver that lists the devices of some targets, and its agreement with the one that sends. */
module RouterDevices {

  import opened BitScan
  import opened Common
  import opened Router
  import T = Tagging

  // Whether the n-th allocation succeeds.
  type Memory = nat -> bool

  ghost predicate Plenty(mem: Memory) {
    forall n :: mem(n)
  }

  ghost function Elements(list: seq<Addr>): set<Addr> {
    set a | a in list
  }

  // The list grows at its head, and fails when an allocation does; n counts the allocations.
  datatype Devices = Devices(list: seq<Addr>, n: nat, failed: bool)

  // The devices xs, each once; with enough memory there is no failure.
  ghost predicate Holds(d: Devices, xs: set<Addr>, mem: Memory) {
    (!d.failed ==> Distinct(d.list) && Elements(d.list) == xs) && (Plenty(mem) ==> !d.failed)
  }

  lemma DistinctHead(list: seq<Addr>, a: Addr)
    requires Distinct(list) && a !in list
    ensures Distinct([a] + list) && Elements([a] + list) == Elements(list) + {a}
  {
    assert forall k | 0 < k < |[a] + list| :: ([a] + list)[k] == list[k - 1] && list[k - 1] in list;
  }

  // lgtd_router_insert_device_if_not_in_list()
  method Insert(d: Devices, a: Addr, mem: Memory, ghost xs: set<Addr>) returns (d': Devices)
    requires Holds(d, xs, mem)
    ensures Holds(d', xs + {a}, mem)
  {
    if d.failed {
      return d;
    }
    var k := 0;
    while k < |d.list|
      invariant 0 <= k <= |d.list| && a !in d.list[..k]
    {
      if d.list[k] == a {
        assert xs + {a} == xs;
        return d;
      }
      k := k + 1;
    }
    assert d.list[..k] == d.list;
    DistinctHead(d.list, a);
    if mem(d.n) {
      d' := Devices([a] + d.list, d.n + 1, false);
    } else {
      d' := Devices(d.list, d.n, true);
    }
  }

  lemma SiteIsChosen(v: View, x: Site)
    requires Consistent(v) && x.gw in v.lists && 0 <= x.tagId < 64
    ensures forall a <- v.lists[x.gw] :: a in v.bulbs
    ensures Chosen(v, v.lists[x.gw][..0], Some(x)) == {} && Chosen(v, v.lists[x.gw], Some(x)) == OnSite(v, x)
  {
    hide Bits;
    ChosenIsAddressed(v, x.gw, Some(x));
  }

  // The loop over the bulbs of a site
  method AddSite(v: View, d: Devices, x: Site, mem: Memory, ghost xs: set<Addr>) returns (d': Devices)
    requires Consistent(v) && Holds(d, xs, mem) && x.gw in v.lists && 0 <= x.tagId < 64
    ensures Holds(d', xs + OnSite(v, x), mem)
  {
    hide Consistent, Chosen, Holds, Bits, MaskTest, Value, OnSite;
    var list := v.lists[x.gw];
    SiteIsChosen(v, x);
    d' := d;
    var k := 0;
    assert xs + {} == xs;
    while k < |list|
      invariant 0 <= k <= |list| && Holds(d', xs + Chosen(v, list[..k], Some(x)), mem)
    {
      var a := list[k];
      ChosenMore(v, list, k, Some(x));
      HasIsMaskTest(v.bulbs[a].tags, x.tagId);
      ghost var ys := Chosen(v, list[..k], Some(x));
      assert xs + (ys + {a}) == (xs + ys) + {a} && xs + (ys + {}) == xs + ys;
      if MaskTest(v.bulbs[a].tags, Value(x.tagId)) {
        d' := Insert(d', a, mem, xs + ys);
      }
      k := k + 1;
    }
    assert list[..k] == list;
  }

  method AddTag(v: View, d: Devices, t: Tag, mem: Memory, ghost xs: set<Addr>) returns (d': Devices)
    requires Consistent(v) && Holds(d, xs, mem) && t in v.tags
    ensures Holds(d', xs + OnSites(v, t.sites), mem)
  {
    assert forall x <- t.sites :: x.gw in v.lists && 0 <= x.tagId < 64 by { hide Bits; }
    assert OnSites(v, t.sites[..0]) == {};
    hide Consistent, Holds, OnSites, OnSite;
    d' := d;
    var k := 0;
    assert xs + {} == xs;
    while k < |t.sites|
      invariant 0 <= k <= |t.sites| && Holds(d', xs + OnSites(v, t.sites[..k]), mem)
    {
      var x := t.sites[k];
      OnSitesMore(v, t.sites, k);
      ghost var ys := OnSites(v, t.sites[..k]);
      assert x == T.Site(x.gw, x.tagId);
      assert xs + (ys + OnSite(v, x)) == (xs + ys) + OnSite(v, x);
      d' := AddSite(v, d', x, mem, xs + ys);
      k := k + 1;
    }
    assert t.sites[..k] == t.sites;
  }

  method AddLabelled(v: View, d: Devices, s: string, mem: Memory, ghost xs: set<Addr>) returns (d': Devices)
    requires Consistent(v) && Holds(d, xs, mem)
    ensures Holds(d', xs + Labelled(v, s), mem)
  {
    hide Consistent, Holds, LabelledIn, Labelled, HasLabel;
    TableIsAll(v, s);
    assert v.table[..0] == [];
    d' := d;
    var k := 0;
    assert xs + {} == xs;
    while k < |v.table|
      invariant 0 <= k <= |v.table| && Holds(d', xs + LabelledIn(v, v.table[..k], s), mem)
    {
      var a := v.table[k];
      LabelledMore(v, v.table, k, s);
      ghost var ys := LabelledIn(v, v.table[..k], s);
      assert xs + (ys + {a}) == (xs + ys) + {a} && xs + (ys + {}) == xs + ys;
      if HasLabel(v.bulbs[a], s) {
        d' := Insert(d', a, mem, xs + ys);
      }
      k := k + 1;
    }
    assert v.table[..k] == v.table;
  }

  // Every bulb of the table, at the head of an empty list one after the other
  method AllBulbs(v: View, n: nat, mem: Memory) returns (d: Devices)
    requires Consistent(v)
    ensures Holds(d, v.bulbs.Keys, mem)
  {
    assert Elements(v.table) == v.bulbs.Keys && Distinct(v.table) by { hide Bits; }
    hide Consistent;
    d := Devices([], n, false);
    var k := 0;
    while k < |v.table|
      invariant 0 <= k <= |v.table| && !d.failed && Distinct(d.list) && Elements(d.list) == Elements(v.table[..k])
    {
      var a := v.table[k];
      assert a !in v.table[..k];
      assert a !in d.list by { assert a in Elements(d.list) <==> a in d.list; }
      assert v.table[..k + 1] == v.table[..k] + [a];
      DistinctHead(d.list, a);
      if !mem(d.n) {
        return Devices(d.list, d.n, true);
      }
      d := Devices([a] + d.list, d.n + 1, false);
      k := k + 1;
    }
    assert v.table[..k] == v.table;
  }

  method AddTarget(v: View, d: Devices, s: string, mem: Memory, ghost xs: set<Addr>) returns (d': Devices)
    requires Consistent(v) && Holds(d, xs, mem) && s != "*"
    ensures Holds(d', xs + Meaning(v, s), mem)
  {
    hide Consistent, Holds, OnSites, DeviceOf, Labelled, TagIndex;
    d' := d;
    assert xs + {} == xs;
    if s != "" && s[0] == '#' {
      var t := FindTag(v.tags, s[1..]);
      if t.Some? {
        d' := AddTag(v, d, t.value, mem, xs);
      }
    } else if s != "" {
      var a := FindDevice(v, s);
      if a.Some? {
        d' := Insert(d, a.value, mem, xs);
      } else {
        d' := AddLabelled(v, d, s, mem, xs);
      }
    }
  }

  lemma AtMostAll(v: View, targets: seq<string>)
    requires Consistent(v) && "*" in targets
    ensures MeaningOfAll(v, targets) == v.bulbs.Keys
  {
    forall s | s in targets ensures Meaning(v, s) <= v.bulbs.Keys {
      MeaningIsBulbs(v, s);
    }
    assert Meaning(v, "*") == v.bulbs.Keys;
    hide Meaning, Consistent;
  }

  // lgtd_router_targets_to_devices(): the bulbs that the targets mean, once each, or nothing when memory is short
  method TargetsToDevices(v: View, targets: seq<string>, mem: Memory) returns (devices: Option<seq<Addr>>)
    requires Consistent(v)
    ensures devices.Some? ==> Distinct(devices.value) && Elements(devices.value) == MeaningOfAll(v, targets)
    ensures Plenty(mem) ==> devices.Some?
  {
    var d := Devices([], 0, false);
    assert MeaningOfAll(v, targets[..0]) == {};
    assert Holds(d, {}, mem);
    hide Consistent, Meaning, MeaningOfAll;
    var k := 0;
    while k < |targets|
      invariant 0 <= k <= |targets| && !d.failed && Holds(d, MeaningOfAll(v, targets[..k]), mem)
    {
      if targets[k] == "*" {
        AtMostAll(v, targets);
        d := AllBulbs(v, d.n, mem);
        return if d.failed then None else Some(d.list);
      }
      MeaningOfFirst(v, targets, k);
      d := AddTarget(v, d, targets[k], mem, MeaningOfAll(v, targets[..k]));
      if d.failed {
        return None;
      }
      k := k + 1;
    }
    assert targets[..k] == targets;
    return Some(d.list);
  }

  // ---------------------------------------------------------------- both resolvers

  // What is sent to some bulbs: those that take a packet are xs, and exactly these get a mark, at a reading of the
  // clock that was made meanwhile.
  ghost predicate SentTo(v: View, clock: Clock, s: Trace, s': Trace, xs: set<Addr>, power: int) {
    && s.outbox <= s'.outbox && AddressedByAll(v, s'.outbox[|s.outbox|..]) == xs
    && MarkedWithin(s.marks, s'.marks, xs, power, clock, s.readings, s'.readings)
  }

  lemma DidSend(v: View, clock: Clock, s: Trace, s': Trace, ps: seq<Sent>, power: int)
    requires Did(v, clock, s, s', ps, Some(power))
    ensures SentTo(v, clock, s, s', AddressedByAll(v, ps), power)
  {
    hide AddressedByAll, Stamped, MarkedWithin;
    assert s'.outbox[|s.outbox|..] == ps;
    StampedMeans(v, s.marks, ps, clock, s.readings, power);
  }

  // A list of the devices of some targets, then a power packet to the same targets: the bulbs that take a packet and
  // get a mark are the ones that were listed, once each.
  method ListAndSend(s: Sender, targets: seq<string>, power: int, mem: Memory) returns (devices: Option<seq<Addr>>, ok: bool)
    requires s.Valid()
    modifies s
    ensures s.Valid() && ok == (forall k | 0 <= k < |targets| :: !IsInvalid(s.v, targets[k]))
    ensures SentTo(s.v, s.clock, old(s.S()), s.S(), MeaningOfAll(s.v, targets), power)
    ensures devices.Some? ==>
      Distinct(devices.value) && SentTo(s.v, s.clock, old(s.S()), s.S(), Elements(devices.value), power)
    ensures Plenty(mem) ==> devices.Some?
  {
    hide Consistent, SentTo, Did, MeaningOfAll, IsInvalid;
    devices := TargetsToDevices(s.v, targets, mem);
    ok := s.Send(targets, Some(power));
    DidSend(s.v, s.clock, old(s.S()), s.S(), PacketsOfAll(s.v, targets), power);
  }

  ghost predicate SameTargets(targets: seq<string>, others: seq<string>) {
    forall t :: t in targets <==> t in others
  }

  // The same targets in another order, or some of them several times: the lists have the same devices, and packets of
  // the same power reach and mark the same bulbs.
  method ListAndSendReordered(s: Sender, r: Sender, targets: seq<string>, others: seq<string>, power: int,
      mem: Memory, mem': Memory)
    returns (a: Option<seq<Addr>>, b: Option<seq<Addr>>)
    requires s != r && s.v == r.v && s.Valid() && r.Valid() && SameTargets(targets, others)
    modifies s, r
    ensures a.Some? && b.Some? ==> multiset(a.value) == multiset(b.value)
    ensures SentTo(s.v, s.clock, old(s.S()), s.S(), MeaningOfAll(s.v, targets), power)
    ensures SentTo(r.v, r.clock, old(r.S()), r.S(), MeaningOfAll(s.v, targets), power)
  {
    hide Consistent, SentTo, MeaningOfAll, IsInvalid;
    var ok;
    a, ok := ListAndSend(s, targets, power, mem);
    b, ok := ListAndSend(r, others, power, mem');
    OrderDoesNotMatter(s.v, targets, others);
    if a.Some? && b.Some? {
      SameDevices(s.v, s.clock, old(s.S()), s.S(), a.value, MeaningOfAll(s.v, targets), power);
      SameDevices(r.v, r.clock, old(r.S()), r.S(), b.value, MeaningOfAll(s.v, targets), power);
      DistinctIsPermutation(a.value, b.value);
    }
  }

  lemma SameDevices(v: View, clock: Clock, s: Trace, s': Trace, devices: seq<Addr>, xs: set<Addr>, power: int)
    requires SentTo(v, clock, s, s', xs, power) && SentTo(v, clock, s, s', Elements(devices), power)
    ensures Elements(devices) == xs
  {
    hide AddressedByAll, MarkedWithin;
  }

  lemma {:induction false} DistinctIsPermutation(a: seq<Addr>, b: seq<Addr>)
    requires Distinct(a) && Distinct(b) && Elements(a) == Elements(b)
    ensures multiset(a) == multiset(b)
  {
    forall x ensures multiset(a)[x] == multiset(b)[x] {
      CountInDistinct(a, x);
      CountInDistinct(b, x);
      assert x in a <==> x in Elements(a);
      assert x in b <==> x in Elements(b);
    }
  }

  lemma {:induction false} CountInDistinct(a: seq<Addr>, x: Addr)
    requires Distinct(a)
    ensures multiset(a)[x] == if x in a then 1 else 0
  {
    if a != [] {
      assert a == [a[0]] + a[1..];
      CountInDistinct(a[1..], x);
      assert a[0] !in a[1..];
    }
  }
}
