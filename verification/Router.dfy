/** Targets: the two resolvers of the same target language, one that sends packets and one that lists devices. */
module Router {

  import opened BitScan
  import opened Common
  import T = Tagging

  type Site = T.Site
  type Tag = T.Tag

  datatype Bulb = Bulb(gw: Ref, tags: Word, name: string)

  // What targets are resolved against: the gateways with their bulbs, the list of tags, the bulbs in the order of the
  // table.
  datatype View = View(gateways: seq<Ref>, lists: map<Ref, seq<Addr>>, tags: seq<Tag>, table: seq<Addr>, bulbs: map<Addr, Bulb>)

  ghost predicate Consistent(v: View) {
    && Distinct(v.table) && (forall a :: a in v.table <==> a in v.bulbs)
    && (forall g <- v.gateways :: g in v.lists)
    && (forall g, a | g in v.lists && a in v.lists[g] :: a in v.bulbs)
    && (forall a <- v.bulbs :: v.bulbs[a].gw in v.gateways && v.bulbs[a].gw in v.lists && a in v.lists[v.bulbs[a].gw])
    && (forall t, x | t in v.tags && x in t.sites :: x.gw in v.lists && 0 <= x.tagId < 64)
  }

  // ---------------------------------------------------------------- what a target means

  predicate IsHexDigit(c: char) {
    '0' <= c <= '9' || 'a' <= c <= 'f' || 'A' <= c <= 'F'
  }

  function HexValue(c: char): (d: nat)
    requires IsHexDigit(c)
    ensures d < 16
  {
    if '0' <= c <= '9' then c as int - '0' as int
    else if 'a' <= c <= 'f' then c as int - 'a' as int + 10
    else c as int - 'A' as int + 10
  }

  predicate AllHex(s: string) {
    forall i | 0 <= i < |s| :: IsHexDigit(s[i])
  }

  function HexNumber(acc: nat, s: string): nat
    requires AllHex(s)
    decreases |s|
  {
    if s == "" then acc else HexNumber(16 * acc + HexValue(s[0]), s[1..])
  }

  // The digits that strtoull() reads in base 16 after an optional 0x.
  function HexDigits(s: string): string {
    if |s| > 2 && s[0] == '0' && (s[1] == 'x' || s[1] == 'X') && IsHexDigit(s[2]) then s[2..] else s
  }

  const TWO_48: nat := 0x1_0000_0000_0000
  const TWO_64: nat := 0x1_0000_0000_0000_0000

  // A whole hexadecimal number of 64 bits; its last 48 are the address.
  function AddressOf(s: string): Option<Addr> {
    var digits := HexDigits(s);
    if AllHex(digits) && HexNumber(0, digits) < TWO_64 then Some(HexNumber(0, digits) % TWO_48) else None
  }

  // A digit in either case.
  function HexDigit(d: nat, upper: bool): (c: char)
    requires d < 16
    ensures IsHexDigit(c) && HexValue(c) == d
  {
    if upper then "0123456789ABCDEF"[d] else "0123456789abcdef"[d]
  }

  function Power16(n: nat): nat {
    if n == 0 then 1 else 16 * Power16(n - 1)
  }

  // The last n hexadecimal digits of a, each in the case that is asked for.
  function HexText(a: nat, n: nat, upper: nat -> bool): (s: string)
    ensures |s| == n && AllHex(s)
  {
    if n == 0 then "" else HexText(a / 16, n - 1, upper) + [HexDigit(a % 16, upper(n - 1))]
  }

  lemma {:induction false} HexNumberLast(acc: nat, s: string, c: char)
    requires AllHex(s) && IsHexDigit(c)
    ensures AllHex(s + [c]) && HexNumber(acc, s + [c]) == 16 * HexNumber(acc, s) + HexValue(c)
    decreases |s|
  {
    hide HexValue, IsHexDigit;
    if s == "" {
      assert s + [c] == [c] && [c][1..] == "";
    } else {
      assert (s + [c])[1..] == s[1..] + [c];
      HexNumberLast(16 * acc + HexValue(s[0]), s[1..], c);
    }
  }

  lemma {:induction false} HexTextDenotes(a: nat, n: nat, upper: nat -> bool)
    requires a < Power16(n)
    ensures HexNumber(0, HexText(a, n, upper)) == a
    decreases n
  {
    hide HexValue, IsHexDigit, HexDigit;
    if n > 0 {
      assert a / 16 < Power16(n - 1);
      HexTextDenotes(a / 16, n - 1, upper);
      HexNumberLast(0, HexText(a / 16, n - 1, upper), HexDigit(a % 16, upper(n - 1)));
    }
  }

  lemma TwelveDigits()
    ensures Power16(12) == TWO_48
  {
    assert Power16(4) == 0x1_0000;
    assert Power16(8) == 0x1_0000_0000;
  }

  // Digits alone, and after 0x.
  lemma NoPrefix(s: string)
    requires s != "" && AllHex(s)
    ensures HexDigits(s) == s && HexDigits("0x" + s) == s
  {
    hide HexValue;
    assert IsHexDigit(s[0]) && (|s| > 1 ==> IsHexDigit(s[1]));
    var t := "0x" + s;
    assert t[2] == s[0] && t[2..] == s;
  }

  // Any number of digits, in either case and maybe after 0x, are read as the last 48 bits of what they denote, unless that
  // needs more than 64.
  lemma NumberRead(a: nat, n: nat, upper: nat -> bool)
    requires n > 0 && a < Power16(n)
    ensures var s := HexText(a, n, upper);
      AddressOf(s) == AddressOf("0x" + s) == if a < TWO_64 then Some(a % TWO_48) else None
  {
    hide HexText, HexNumber, HexDigits, Power16, IsHexDigit;
    HexTextDenotes(a, n, upper);
    NoPrefix(HexText(a, n, upper));
  }

  // The twelve digits of an address are read as that address.
  lemma AddressRead(a: Addr, upper: nat -> bool)
    requires a < TWO_48
    ensures AddressOf(HexText(a, 12, upper)) == Some(a) && AddressOf("0x" + HexText(a, 12, upper)) == Some(a)
  {
    hide HexText, AddressOf, Power16;
    TwelveDigits();
    NumberRead(a, 12, upper);
  }

  function DeviceOf(v: View, s: string): Option<Addr> {
    if s != "" && IsHexDigit(s[0]) && AddressOf(s).Some? && AddressOf(s).value in v.bulbs then AddressOf(s) else None
  }

  // A label is clipped at 32 characters.
  predicate HasLabel(b: Bulb, s: string) {
    b.name == if |s| <= LABEL_SIZE then s else s[..LABEL_SIZE]
  }

  function TagIndex(tags: seq<Tag>, name: string): (k: nat)
    ensures k <= |tags| && (k < |tags| ==> tags[k].name == name)
    ensures k == |tags| <==> forall j | 0 <= j < |tags| :: tags[j].name != name
  {
    if tags == [] || tags[0].name == name then 0 else 1 + TagIndex(tags[1..], name)
  }

  ghost predicate Carries(v: View, a: Addr, x: Site) {
    a in v.bulbs && x.tagId in Bits(v.bulbs[a].tags)
  }

  // The bulbs of a gateway that carry the tag of a site.
  ghost function OnSite(v: View, x: Site): set<Addr> {
    if x.gw in v.lists then set a | a in v.lists[x.gw] && Carries(v, a, x) else {}
  }

  ghost function OnSites(v: View, sites: seq<Site>): set<Addr> {
    set x, a | x in sites && a in OnSite(v, x) :: a
  }

  ghost function Labelled(v: View, s: string): set<Addr> {
    set a | a in v.bulbs && HasLabel(v.bulbs[a], s)
  }

  ghost function Meaning(v: View, s: string): set<Addr> {
    if s == "*" then v.bulbs.Keys
    else if s == "" then {}
    else if s[0] == '#' then
      var k := TagIndex(v.tags, s[1..]);
      if k < |v.tags| then OnSites(v, v.tags[k].sites) else {}
    else if DeviceOf(v, s).Some? then {DeviceOf(v, s).value}
    else Labelled(v, s)
  }

  // The empty target and unknown tags are invalid.
  predicate IsInvalid(v: View, s: string) {
    s == "" || (s[0] == '#' && TagIndex(v.tags, s[1..]) == |v.tags|)
  }

  ghost function MeaningOfAll(v: View, targets: seq<string>): set<Addr> {
    set s, a | s in targets && a in Meaning(v, s) :: a
  }

  // The order of the targets does not matter, nor how often one is given.
  lemma OrderDoesNotMatter(v: View, targets: seq<string>, others: seq<string>)
    requires forall s :: s in targets <==> s in others
    ensures MeaningOfAll(v, targets) == MeaningOfAll(v, others)
  {
    hide Meaning;
  }

  lemma MeaningOfFirst(v: View, targets: seq<string>, k: nat)
    requires k < |targets|
    ensures MeaningOfAll(v, targets[..k + 1]) == MeaningOfAll(v, targets[..k]) + Meaning(v, targets[k])
  {
    hide Meaning;
    assert targets[..k + 1] == targets[..k] + [targets[k]];
  }

  lemma MeaningIsBulbs(v: View, s: string)
    requires Consistent(v)
    ensures Meaning(v, s) <= v.bulbs.Keys
  {}

  // The twelve digits of the address of a bulb mean that bulb, whatever labels there are.
  lemma AddressMeans(v: View, a: Addr, upper: nat -> bool)
    requires a in v.bulbs && a < TWO_48
    ensures Meaning(v, HexText(a, 12, upper)) == {a} && !IsInvalid(v, HexText(a, 12, upper))
  {
    AddressRead(a, upper);
    var s := HexText(a, 12, upper);
    hide AddressOf, HexText;
    assert IsHexDigit(s[0]);
  }

  // ---------------------------------------------------------------- sending

  datatype Mark = Mark(dirtyAt: nat, expectedPowerOn: int)

  datatype To = AllDevices | TagId(id: int) | Device(addr: Addr)

  // A packet on a gateway.
  datatype Sent = Sent(gw: Ref, to: To)

  // The n-th reading of the monotonic clock.
  type Clock = nat -> nat

  // The marks, the packets sent, and how often the clock was read.
  datatype Trace = Trace(marks: map<Addr, Mark>, outbox: seq<Sent>, readings: nat)

  ghost function Marked(marks: map<Addr, Mark>, xs: set<Addr>, m: Mark): map<Addr, Mark> {
    map a | a in marks :: if a in xs then m else marks[a]
  }

  lemma MarkedOne(marks: map<Addr, Mark>, xs: set<Addr>, a: Addr, m: Mark)
    requires a in marks
    ensures Marked(marks, xs, m)[a := m] == Marked(marks, xs + {a}, m)
  {}

  // The bulbs that take a packet: the ones of its gateway that it is for.
  ghost function Addressed(v: View, p: Sent): set<Addr> {
    match p.to
    case AllDevices => if p.gw in v.lists then set a | a in v.lists[p.gw] else {}
    case TagId(i) => OnSite(v, T.Site(p.gw, i))
    case Device(a) => if a in v.bulbs && v.bulbs[a].gw == p.gw then {a} else {}
  }

  ghost function AddressedByAll(v: View, ps: seq<Sent>): set<Addr> {
    set p, a | p in ps && a in Addressed(v, p) :: a
  }

  lemma AddressedBoth(v: View, ps: seq<Sent>, qs: seq<Sent>)
    ensures AddressedByAll(v, ps + qs) == AddressedByAll(v, ps) + AddressedByAll(v, qs)
  {
    hide Addressed;
  }

  // The bulbs of a list that carry the tag of a site, or all of them.
  ghost function Chosen(v: View, list: seq<Addr>, x: Option<Site>): set<Addr> {
    set a | a in list && (x.Some? ==> Carries(v, a, x.value))
  }

  lemma ChosenMore(v: View, list: seq<Addr>, k: nat, x: Option<Site>)
    requires k < |list|
    ensures Chosen(v, list[..k + 1], x)
         == Chosen(v, list[..k], x) + if x.Some? ==> Carries(v, list[k], x.value) then {list[k]} else {}
  {
    hide Carries;
    assert list[..k + 1] == list[..k] + [list[k]];
  }

  // Every bulb is on the list of some gateway.
  lemma AllAreListed(v: View)
    requires Consistent(v)
    ensures ListedOn(v, v.gateways) == v.bulbs.Keys
  {
    hide Bits;
    forall a | a in v.bulbs ensures a in ListedOn(v, v.gateways) {
      assert v.bulbs[a].gw in v.gateways;
    }
  }

  // Every packet that sets the power marks the bulbs that take it, with a reading of the clock of its own.
  ghost function Stamped(v: View, marks: map<Addr, Mark>, ps: seq<Sent>, clock: Clock, n: nat, power: int): map<Addr, Mark>
    decreases |ps|
  {
    if ps == [] then marks
    else
      var k := |ps| - 1;
      Marked(Stamped(v, marks, ps[..k], clock, n, power), Addressed(v, ps[k]), Mark(clock(n + k), power))
  }

  lemma {:induction false} StampedBoth(v: View, marks: map<Addr, Mark>, ps: seq<Sent>, qs: seq<Sent>, clock: Clock,
      n: nat, power: int)
    ensures Stamped(v, marks, ps + qs, clock, n, power)
         == Stamped(v, Stamped(v, marks, ps, clock, n, power), qs, clock, n + |ps|, power)
    decreases |qs|
  {
    hide Addressed, Marked;
    if qs == [] {
      assert ps + qs == ps;
    } else {
      var k := |qs| - 1;
      StampedBoth(v, marks, ps, qs[..k], clock, n, power);
      assert (ps + qs)[..|ps + qs| - 1] == ps + qs[..k] && (ps + qs)[|ps + qs| - 1] == qs[k];
    }
  }

  // The bulbs xs are marked with that power and some reading from n to n' of the clock, the others are left alone.
  ghost predicate MarkedWithin(marks: map<Addr, Mark>, marks': map<Addr, Mark>, xs: set<Addr>, power: int,
      clock: Clock, n: nat, n': nat) {
    && marks'.Keys == marks.Keys
    && (forall a | a in marks && a !in xs :: marks'[a] == marks[a])
    && (forall a | a in marks && a in xs :: ReadAt(marks'[a], power, clock, n, n'))
  }

  ghost predicate ReadAt(m: Mark, power: int, clock: Clock, n: nat, n': nat) {
    exists i | n <= i < n' :: m == Mark(clock(i), power)
  }

  // One more packet.
  lemma MarkedMore(marks: map<Addr, Mark>, front: map<Addr, Mark>, xs: set<Addr>, ys: set<Addr>, power: int,
      clock: Clock, n: nat, k: nat)
    requires MarkedWithin(marks, front, xs, power, clock, n, n + k)
    ensures MarkedWithin(marks, Marked(front, ys, Mark(clock(n + k), power)), xs + ys, power, clock, n, n + k + 1)
  {
    var after := Marked(front, ys, Mark(clock(n + k), power));
    forall a | a in marks && a in xs + ys ensures ReadAt(after[a], power, clock, n, n + k + 1) {
      if a in ys {
        assert after[a] == Mark(clock(n + k), power);
      } else {
        assert ReadAt(front[a], power, clock, n, n + k);
      }
    }
  }

  lemma {:induction false} StampedMeans(v: View, marks: map<Addr, Mark>, ps: seq<Sent>, clock: Clock, n: nat, power: int)
    ensures MarkedWithin(marks, Stamped(v, marks, ps, clock, n, power), AddressedByAll(v, ps), power, clock, n, n + |ps|)
    decreases |ps|
  {
    if ps == [] {
      assert AddressedByAll(v, ps) == {};
    } else {
      hide Addressed, AddressedByAll, Marked, MarkedWithin;
      var k := |ps| - 1;
      StampedMeans(v, marks, ps[..k], clock, n, power);
      AddressedBoth(v, ps[..k], [ps[k]]);
      assert ps == ps[..k] + [ps[k]];
      AddressedByOne(v, ps[k]);
      MarkedMore(marks, Stamped(v, marks, ps[..k], clock, n, power), AddressedByAll(v, ps[..k]), Addressed(v, ps[k]),
          power, clock, n, k);
    }
  }

  lemma AddressedByOne(v: View, p: Sent)
    ensures AddressedByAll(v, [p]) == Addressed(v, p)
  {
    hide Addressed;
  }

  // The packets ps were sent, and the bulbs that take them were marked when the packets set the power.
  ghost predicate Did(v: View, clock: Clock, s: Trace, s': Trace, ps: seq<Sent>, power: Option<int>) {
    && s'.outbox == s.outbox + ps
    && if power.None? then s'.marks == s.marks && s'.readings == s.readings
       else s'.readings == s.readings + |ps| && s'.marks == Stamped(v, s.marks, ps, clock, s.readings, power.value)
  }

  lemma DidNothing(v: View, clock: Clock, s: Trace, power: Option<int>)
    ensures Did(v, clock, s, s, [], power)
  {}

  lemma DidBoth(v: View, clock: Clock, s: Trace, s1: Trace, s2: Trace, ps: seq<Sent>, qs: seq<Sent>, power: Option<int>)
    requires Did(v, clock, s, s1, ps, power) && Did(v, clock, s1, s2, qs, power)
    ensures Did(v, clock, s, s2, ps + qs, power)
  {
    hide Stamped;
    assert s.outbox + ps + qs == s.outbox + (ps + qs);
    if power.Some? {
      StampedBoth(v, s.marks, ps, qs, clock, s.readings, power.value);
    }
  }

  // One packet, and the marks of the bulbs that take it.
  lemma DidOne(v: View, clock: Clock, s: Trace, s': Trace, p: Sent, power: Option<int>)
    requires s'.outbox == s.outbox + [p]
    requires power.None? ==> s'.marks == s.marks && s'.readings == s.readings
    requires power.Some? ==>
      s'.readings == s.readings + 1 && s'.marks == Marked(s.marks, Addressed(v, p), Mark(clock(s.readings), power.value))
    ensures Did(v, clock, s, s', [p], power)
  {
    hide Addressed, Marked;
    assert [p][..0] == [];
    if power.Some? {
      assert Stamped(v, s.marks, [p], clock, s.readings, power.value)
          == Marked(Stamped(v, s.marks, [p][..0], clock, s.readings, power.value), Addressed(v, p),
                    Mark(clock(s.readings + 0), power.value));
    }
  }

  lemma ChosenIsAddressed(v: View, g: Ref, x: Option<Site>)
    requires g in v.lists && (x.Some? ==> x.value.gw == g)
    ensures Chosen(v, v.lists[g], x) == Addressed(v, Sent(g, if x.Some? then TagId(x.value.tagId) else AllDevices))
  {
    if x.Some? {
      assert x.value == T.Site(g, x.value.tagId);
    }
  }

  // The bulbs of the first k gateways.
  ghost function ListedOn(v: View, gs: seq<Ref>): set<Addr> {
    set g, a | g in gs && g in v.lists && a in v.lists[g] :: a
  }

  lemma OnSitesMore(v: View, sites: seq<Site>, k: nat)
    requires k < |sites|
    ensures OnSites(v, sites[..k + 1]) == OnSites(v, sites[..k]) + OnSite(v, sites[k])
  {
    hide OnSite;
    assert sites[..k + 1] == sites[..k] + [sites[k]];
  }

  // ---------------------------------------------------------------- the packets for a target

  // One for every gateway.
  function ToGateways(gs: seq<Ref>): seq<Sent> {
    seq(|gs|, i requires 0 <= i < |gs| => Sent(gs[i], AllDevices))
  }

  // One for every site, with the id that its gateway gives to the tag.
  function ToSites(sites: seq<Site>): seq<Sent> {
    seq(|sites|, i requires 0 <= i < |sites| => Sent(sites[i].gw, TagId(sites[i].tagId)))
  }

  // One for a bulb, on its own gateway.
  function ToDevice(v: View, a: Addr): seq<Sent> {
    if a in v.bulbs then [Sent(v.bulbs[a].gw, Device(a))] else []
  }

  // One for every bulb of a list that has the label.
  function ToLabel(v: View, list: seq<Addr>, s: string): seq<Sent> {
    if list == [] then []
    else
      var a := list[|list| - 1];
      ToLabel(v, list[..|list| - 1], s) + if a in v.bulbs && HasLabel(v.bulbs[a], s) then ToDevice(v, a) else []
  }

  function Packets(v: View, s: string): seq<Sent> {
    if s == "*" then ToGateways(v.gateways)
    else if s == "" then []
    else if s[0] == '#' then
      var k := TagIndex(v.tags, s[1..]);
      if k < |v.tags| then ToSites(v.tags[k].sites) else []
    else if DeviceOf(v, s).Some? then ToDevice(v, DeviceOf(v, s).value)
    else ToLabel(v, v.table, s)
  }

  function PacketsOfAll(v: View, targets: seq<string>): seq<Sent> {
    if targets == [] then []
    else PacketsOfAll(v, targets[..|targets| - 1]) + Packets(v, targets[|targets| - 1])
  }

  lemma GatewaysReach(v: View, gs: seq<Ref>)
    ensures AddressedByAll(v, ToGateways(gs)) == ListedOn(v, gs)
  {
    forall a | a in ListedOn(v, gs) ensures a in AddressedByAll(v, ToGateways(gs)) {
      var i :| 0 <= i < |gs| && gs[i] in v.lists && a in v.lists[gs[i]];
      assert ToGateways(gs)[i] in ToGateways(gs) && a in Addressed(v, ToGateways(gs)[i]);
    }
  }

  lemma SitesReach(v: View, sites: seq<Site>)
    ensures AddressedByAll(v, ToSites(sites)) == OnSites(v, sites)
  {
    hide OnSite;
    forall a | a in OnSites(v, sites) ensures a in AddressedByAll(v, ToSites(sites)) {
      var i :| 0 <= i < |sites| && a in OnSite(v, sites[i]);
      assert sites[i] == T.Site(sites[i].gw, sites[i].tagId);
      assert ToSites(sites)[i] in ToSites(sites) && a in Addressed(v, ToSites(sites)[i]);
    }
    forall a | a in AddressedByAll(v, ToSites(sites)) ensures a in OnSites(v, sites) {
      var i :| 0 <= i < |sites| && a in Addressed(v, ToSites(sites)[i]);
      assert sites[i] == T.Site(sites[i].gw, sites[i].tagId) && sites[i] in sites;
    }
  }

  lemma DeviceReached(v: View, a: Addr)
    requires a in v.bulbs
    ensures AddressedByAll(v, ToDevice(v, a)) == {a}
  {
    AddressedByOne(v, Sent(v.bulbs[a].gw, Device(a)));
  }

  lemma {:induction false} LabelReaches(v: View, list: seq<Addr>, s: string)
    ensures AddressedByAll(v, ToLabel(v, list, s)) == LabelledIn(v, list, s)
    decreases |list|
  {
    hide HasLabel;
    if list == [] {
      assert AddressedByAll(v, []) == {} && LabelledIn(v, [], s) == {};
    } else {
      var k := |list| - 1;
      var a := list[k];
      LabelReaches(v, list[..k], s);
      assert list == list[..k] + [a];
      var last := if a in v.bulbs && HasLabel(v.bulbs[a], s) then ToDevice(v, a) else [];
      AddressedBoth(v, ToLabel(v, list[..k], s), last);
      if last != [] {
        DeviceReached(v, a);
      } else {
        assert AddressedByAll(v, []) == {};
      }
    }
  }

  // The bulbs that take the packets for a target are those that the target means.
  lemma PacketsReach(v: View, s: string)
    requires Consistent(v)
    ensures AddressedByAll(v, Packets(v, s)) == Meaning(v, s)
  {
    hide Addressed, AddressedByAll, DeviceOf, TagIndex, ToGateways, ToSites, ToDevice, ToLabel, OnSites, Labelled, LabelledIn;
    NothingReached(v);
    if s == "*" {
      AllAreListed(v);
      GatewaysReach(v, v.gateways);
    } else if s != "" && s[0] == '#' {
      var k := TagIndex(v.tags, s[1..]);
      if k < |v.tags| { SitesReach(v, v.tags[k].sites); }
    } else if DeviceOf(v, s).Some? {
      FoundIsBulb(v, s);
      DeviceReached(v, DeviceOf(v, s).value);
    } else {
      TableIsAll(v, s);
      LabelReaches(v, v.table, s);
    }
  }

  lemma NothingReached(v: View)
    ensures AddressedByAll(v, []) == {}
  {}

  lemma {:induction false} AllPacketsReach(v: View, targets: seq<string>)
    requires Consistent(v)
    ensures AddressedByAll(v, PacketsOfAll(v, targets)) == MeaningOfAll(v, targets)
    decreases |targets|
  {
    hide Consistent, AddressedByAll, Packets, Meaning;
    if targets == [] {
      NothingReached(v);
      assert MeaningOfAll(v, []) == {};
    } else {
      var k := |targets| - 1;
      AllPacketsReach(v, targets[..k]);
      PacketsReach(v, targets[k]);
      AddressedBoth(v, PacketsOfAll(v, targets[..k]), Packets(v, targets[k]));
      MeaningOfFirst(v, targets, k);
      assert targets[..k + 1] == targets;
    }
  }

  // A packet for one device goes out on the gateway of that device.
  lemma {:induction false} DevicesOnOwnGateway(v: View, targets: seq<string>)
    ensures forall p <- PacketsOfAll(v, targets) | p.to.Device? :: p.to.addr in v.bulbs && p.gw == v.bulbs[p.to.addr].gw
    decreases |targets|
  {
    hide DeviceOf, TagIndex;
    if targets != [] {
      DevicesOnOwnGateway(v, targets[..|targets| - 1]);
      LabelsOnOwnGateway(v, v.table, targets[|targets| - 1]);
    }
  }

  lemma {:induction false} LabelsOnOwnGateway(v: View, list: seq<Addr>, s: string)
    ensures forall p <- ToLabel(v, list, s) | p.to.Device? :: p.to.addr in v.bulbs && p.gw == v.bulbs[p.to.addr].gw
    decreases |list|
  {
    if list != [] { LabelsOnOwnGateway(v, list[..|list| - 1], s); }
  }

  // lgtd_lifx_tagging_find_tag()
  method FindTag(tags: seq<Tag>, name: string) returns (t: Option<Tag>)
    ensures var k := TagIndex(tags, name); t == if k < |tags| then Some(tags[k]) else None
  {
    var k := 0;
    while k < |tags|
      invariant 0 <= k <= |tags| && TagIndex(tags, name) == k + TagIndex(tags[k..], name)
    {
      assert tags[k..][1..] == tags[k + 1..];
      if tags[k].name == name {
        return Some(tags[k]);
      }
      k := k + 1;
    }
    return None;
  }

  // strtoull() in base 16, for a text that starts with a hexadecimal digit: the address if it is a whole number of 64
  // bits
  method ParseAddress(s: string) returns (a: Option<Addr>)
    ensures a == AddressOf(s)
  {
    var digits := HexDigits(s);
    hide HexDigits, HexValue;
    var n: nat, k: nat := 0, 0;
    while k < |digits|
      invariant k <= |digits| && AllHex(digits[..k]) && (AllHex(digits) ==> HexNumber(0, digits) == HexNumber(n, digits[k..]))
    {
      if !IsHexDigit(digits[k]) {
        return None;
      }
      assert digits[k..][0] == digits[k] && digits[k..][1..] == digits[k + 1..];
      assert digits[..k + 1] == digits[..k] + [digits[k]];
      n := 16 * n + HexValue(digits[k]);
      k := k + 1;
    }
    assert digits[..k] == digits && digits[k..] == "";
    if n >= TWO_64 {
      return None; // ERANGE
    }
    a := Some(n % TWO_48);
  }

  // lgtd_router_device_addr_to_device(), for a text that looks like an address
  method FindDevice(v: View, s: string) returns (a: Option<Addr>)
    ensures a == DeviceOf(v, s)
  {
    if s == "" || !IsHexDigit(s[0]) {
      return None;
    }
    a := ParseAddress(s);
    hide AddressOf;
    if a.Some? && a.value !in v.bulbs {
      a := None;
    }
  }

  class Sender {
    const v: View
    const clock: Clock
    var marks: map<Addr, Mark>
    var outbox: seq<Sent>
    var readings: nat

    ghost function S(): Trace
      reads this
    {
      Trace(marks, outbox, readings)
    }

    ghost predicate Valid()
      reads this
    {
      Consistent(v) && marks.Keys == v.bulbs.Keys
    }

    // Bulbs of a list are marked dirty: all of them, or the ones that carry the tag of a site.
    method MarkBulbs(list: seq<Addr>, x: Option<Site>, m: Mark)
      requires Valid() && (forall a <- list :: a in v.bulbs) && (x.Some? ==> 0 <= x.value.tagId < 64)
      modifies `marks
      ensures Valid() && marks == Marked(old(marks), Chosen(v, list, x), m)
    {
      hide Consistent, Chosen, Bits, MaskTest, Value, Marked;
      var k := 0;
      ghost var start := marks;
      NoneChosen(v, list, x, start, m);
      while k < |list|
        invariant 0 <= k <= |list| && marks.Keys == v.bulbs.Keys == start.Keys
        invariant marks == Marked(start, Chosen(v, list[..k], x), m)
      {
        var a := list[k];
        ChosenMore(v, list, k, x);
        var carries := x.None? || MaskTest(v.bulbs[a].tags, Value(x.value.tagId));
        if x.Some? {
          HasIsMaskTest(v.bulbs[a].tags, x.value.tagId);
        }
        if carries {
          MarkedOne(start, Chosen(v, list[..k], x), a, m);
          marks := marks[a := m];
        } else {
          assert Chosen(v, list[..k], x) + {} == Chosen(v, list[..k], x);
        }
        k := k + 1;
      }
      assert list[..k] == list;
    }

    // What the senders do to one gateway: a packet, and marks on the bulbs of its list that take it
    method SendOnGateway(g: Ref, x: Option<Site>, power: Option<int>)
      requires Valid() && g in v.lists && (x.Some? ==> x.value.gw == g && 0 <= x.value.tagId < 64)
      modifies this
      ensures Valid()
      ensures var p := Sent(g, if x.Some? then TagId(x.value.tagId) else AllDevices);
        Did(v, clock, old(S()), S(), [p], power)
    {
      ghost var before := S();
      var p := Sent(g, if x.Some? then TagId(x.value.tagId) else AllDevices);
      assert forall a <- v.lists[g] :: a in v.bulbs by { hide Bits; }
      hide Consistent, Chosen, Addressed, Marked, Did;
      outbox := outbox + [p];
      if power.Some? {
        var now := clock(readings);
        readings := readings + 1;
        MarkBulbs(v.lists[g], x, Mark(now, power.value));
      }
      ChosenIsAddressed(v, g, x);
      DidOne(v, clock, before, S(), p, power);
    }

    // lgtd_router_broadcast()
    method Broadcast(power: Option<int>)
      requires Valid()
      modifies this
      ensures Valid() && Did(v, clock, old(S()), S(), ToGateways(v.gateways), power)
    {
      assert forall g <- v.gateways :: g in v.lists by { hide Bits; }
      hide Consistent, Did;
      ghost var s0 := S();
      DidNothing(v, clock, s0, power);
      assert ToGateways(v.gateways[..0]) == [];
      var k := 0;
      while k < |v.gateways|
        invariant 0 <= k <= |v.gateways| && Valid()
        invariant Did(v, clock, s0, S(), ToGateways(v.gateways[..k]), power)
      {
        ghost var s1 := S();
        SendOnGateway(v.gateways[k], None, power);
        DidBoth(v, clock, s0, s1, S(), ToGateways(v.gateways[..k]), [Sent(v.gateways[k], AllDevices)], power);
        assert ToGateways(v.gateways[..k + 1]) == ToGateways(v.gateways[..k]) + [Sent(v.gateways[k], AllDevices)];
        k := k + 1;
      }
      assert v.gateways[..k] == v.gateways;
    }

    // lgtd_router_send_to_tag()
    method SendToTag(t: Tag, power: Option<int>)
      requires Valid() && t in v.tags
      modifies this
      ensures Valid() && Did(v, clock, old(S()), S(), ToSites(t.sites), power)
    {
      assert forall x <- t.sites :: x.gw in v.lists && 0 <= x.tagId < 64 by { hide Bits; }
      hide Consistent, Did;
      ghost var s0 := S();
      DidNothing(v, clock, s0, power);
      assert ToSites(t.sites[..0]) == [];
      var k := 0;
      while k < |t.sites|
        invariant 0 <= k <= |t.sites| && Valid()
        invariant Did(v, clock, s0, S(), ToSites(t.sites[..k]), power)
      {
        ghost var s1 := S();
        var x := t.sites[k];
        SendOnGateway(x.gw, Some(x), power);
        DidBoth(v, clock, s0, s1, S(), ToSites(t.sites[..k]), [Sent(x.gw, TagId(x.tagId))], power);
        assert ToSites(t.sites[..k + 1]) == ToSites(t.sites[..k]) + [Sent(x.gw, TagId(x.tagId))];
        k := k + 1;
      }
      assert t.sites[..k] == t.sites;
    }

    // lgtd_router_send_to_device()
    method SendToDevice(a: Addr, power: Option<int>)
      requires Valid() && a in v.bulbs
      modifies this
      ensures Valid() && Did(v, clock, old(S()), S(), ToDevice(v, a), power)
    {
      var p := Sent(v.bulbs[a].gw, Device(a));
      ghost var s0 := S();
      hide Consistent;
      outbox := outbox + [p];
      if power.Some? {
        var now := clock(readings);
        readings := readings + 1;
        marks := marks[a := Mark(now, power.value)];
        assert marks == Marked(s0.marks, {a}, Mark(now, power.value));
      }
      assert Addressed(v, p) == {a};
      DidOne(v, clock, s0, S(), p, power);
    }

    // lgtd_router_send_to_label()
    method SendToLabel(s: string, power: Option<int>)
      requires Valid()
      modifies this
      ensures Valid() && Did(v, clock, old(S()), S(), ToLabel(v, v.table, s), power)
    {
      hide Consistent, Did, HasLabel, ToDevice;
      TableIsAll(v, s);
      ghost var s0 := S();
      DidNothing(v, clock, s0, power);
      assert v.table[..0] == [];
      var k := 0;
      while k < |v.table|
        invariant 0 <= k <= |v.table| && Valid()
        invariant Did(v, clock, s0, S(), ToLabel(v, v.table[..k], s), power)
      {
        var a := v.table[k];
        ghost var done := v.table[..k];
        assert v.table[..k + 1][..k] == done && v.table[..k + 1][k] == a;
        if HasLabel(v.bulbs[a], s) {
          ghost var s1 := S();
          SendToDevice(a, power);
          DidBoth(v, clock, s0, s1, S(), ToLabel(v, done, s), ToDevice(v, a), power);
        } else {
          assert ToLabel(v, done, s) + [] == ToLabel(v, done, s);
        }
        k := k + 1;
      }
      assert v.table[..k] == v.table;
    }

    // One target of lgtd_router_send()
    method SendToTarget(s: string, power: Option<int>) returns (ok: bool)
      requires Valid()
      modifies this
      ensures Valid() && ok == !IsInvalid(v, s) && Did(v, clock, old(S()), S(), Packets(v, s), power)
    {
      hide Consistent, Did, DeviceOf, TagIndex, ToGateways, ToSites, ToDevice, ToLabel;
      ghost var s0 := S();
      DidNothing(v, clock, s0, power);
      ok := true;
      if s == "*" {
        Broadcast(power);
      } else if s != "" && s[0] == '#' {
        var t := FindTag(v.tags, s[1..]);
        if t.None? {
          return false;
        }
        SendToTag(t.value, power);
      } else if s != "" {
        var a := FindDevice(v, s);
        if a.Some? {
          FoundIsBulb(v, s);
          SendToDevice(a.value, power);
        } else {
          SendToLabel(s, power);
        }
      } else {
        return false;
      }
    }

    // lgtd_router_send(): power is that of a packet that sets it
    method Send(targets: seq<string>, power: Option<int>) returns (ok: bool)
      requires Valid()
      modifies this
      ensures Valid() && ok == (forall k | 0 <= k < |targets| :: !IsInvalid(v, targets[k]))
      ensures Did(v, clock, old(S()), S(), PacketsOfAll(v, targets), power)
      ensures AddressedByAll(v, PacketsOfAll(v, targets)) == MeaningOfAll(v, targets)
    {
      hide Consistent, Did, Packets, IsInvalid, AddressedByAll, MeaningOfAll;
      AllPacketsReach(v, targets);
      ghost var s0 := S();
      DidNothing(v, clock, s0, power);
      assert targets[..0] == [];
      ok := true;
      var k := 0;
      while k < |targets|
        invariant 0 <= k <= |targets| && Valid() && ok == (forall j | 0 <= j < k :: !IsInvalid(v, targets[j]))
        invariant Did(v, clock, s0, S(), PacketsOfAll(v, targets[..k]), power)
      {
        ghost var s1 := S();
        assert targets[..k + 1][..k] == targets[..k];
        var sent := SendToTarget(targets[k], power);
        DidBoth(v, clock, s0, s1, S(), PacketsOfAll(v, targets[..k]), Packets(v, targets[k]), power);
        ok := ok && sent;
        k := k + 1;
      }
      assert targets[..k] == targets;
    }
  }

  lemma FoundIsBulb(v: View, s: string)
    requires DeviceOf(v, s).Some?
    ensures DeviceOf(v, s).value in v.bulbs
  {}

  // The bulbs of a list that have a label.
  ghost function LabelledIn(v: View, list: seq<Addr>, s: string): set<Addr> {
    set a | a in list && a in v.bulbs && HasLabel(v.bulbs[a], s)
  }

  lemma LabelledMore(v: View, list: seq<Addr>, k: nat, s: string)
    requires k < |list| && list[k] in v.bulbs
    ensures LabelledIn(v, list[..k + 1], s)
         == LabelledIn(v, list[..k], s) + if HasLabel(v.bulbs[list[k]], s) then {list[k]} else {}
  {
    hide HasLabel;
    assert list[..k + 1] == list[..k] + [list[k]];
  }

  lemma TableIsAll(v: View, s: string)
    requires Consistent(v)
    ensures LabelledIn(v, v.table, s) == Labelled(v, s) && LabelledIn(v, [], s) == {}
    ensures forall a <- v.table :: a in v.bulbs
  {
    hide Bits, HasLabel;
  }

  lemma NoneChosen(v: View, list: seq<Addr>, x: Option<Site>, marks: map<Addr, Mark>, m: Mark)
    ensures Marked(marks, Chosen(v, list[..0], x), m) == marks
  {}
}
