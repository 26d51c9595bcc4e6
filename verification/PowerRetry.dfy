/** Power commands and their retransmission: the dirty mark of a bulb, against what it is meant to do. */
module PowerRetry {

  import opened Common

  const TWO_64: int := 0x1_0000_0000_0000_0000
  const PATIENCE: int := 400

  type Time = t: int | 0 <= t < TWO_64

  // What is sent to a bulb and what becomes of it; a status is known by the time it was received at.
  datatype Entry =
    | Commanded(at: Time, power: int)
    | Resent(received: Time, at: Time, power: int)
    | Cleared(received: Time, power: int)

  // A command, a light status or a power state through the gateway of the bulb or another one, or any other known
  // packet through its gateway; now is the time when a handler looks at the clock.
  datatype Event =
    | Command(now: Time, power: int)
    | Status(own: bool, received: Time, now: Time, power: int)
    | OtherPacket(received: Time)
    | PowerState(own: bool, received: Time, power: int)

  // ---------------------------------------------------------------- what is meant

  // The command that waits for its confirmation, and when it was last sent.
  datatype Pending = Pending(sentAt: Time, power: int)

  datatype Protocol = Protocol(pending: Option<Pending>, log: seq<Entry>)

  predicate IsLate(p: Protocol, received: Time) {
    p.pending.Some? && received > p.pending.value.sentAt + PATIENCE
  }

  // A status that is late enough confirms the command, or else it is sent again.
  function Meant(p: Protocol, e: Event): Protocol {
    match e
    case Command(now, power) => Protocol(Some(Pending(now, power)), p.log + [Commanded(now, power)])
    case Status(_, received, now, power) =>
      if !IsLate(p, received) then p
      else if power == p.pending.value.power then Protocol(None, p.log + [Cleared(received, power)])
      else Protocol(Some(p.pending.value.(sentAt := now)), p.log + [Resent(received, now, p.pending.value.power)])
    case _ => p
  }

  // ---------------------------------------------------------------- what the code does

  datatype Bulb = Bulb(dirtyAt: Time, expectedPowerOn: int, power: int, lastLightStateAt: Time, gwLastPktAt: Time,
      log: seq<Entry>)

  // The subtraction of 64-bit unsigned integers.
  function Sub64(a: Time, b: Time): Time {
    if a >= b then a - b else a - b + TWO_64
  }

  // lgtd_router_send_to_device() with a power packet
  function Send(b: Bulb, now: Time, power: int, e: Entry): Bulb {
    b.(dirtyAt := now, expectedPowerOn := power, log := b.log + [e])
  }

  // The test in lgtd_lifx_gateway_handle_light_status(), once the light state was set
  predicate ChecksPower(b: Bulb) {
    b.dirtyAt != 0 && b.lastLightStateAt > b.dirtyAt && Sub64(b.gwLastPktAt, b.dirtyAt) > PATIENCE
  }

  function Received(b: Bulb, own: bool, received: Time, power: int): Bulb {
    b.(lastLightStateAt := received, power := power, gwLastPktAt := if own then received else b.gwLastPktAt)
  }

  function Done(b: Bulb, e: Event): Bulb {
    match e
    case Command(now, power) => Send(b, now, power, Commanded(now, power))
    case Status(own, received, now, power) =>
      var b' := Received(b, own, received, power);
      if !ChecksPower(b') then b'
      else if b'.expectedPowerOn == power then b'.(dirtyAt := 0, log := b'.log + [Cleared(received, power)])
      else
        var again := if b'.expectedPowerOn != 0 then POWER_ON else POWER_OFF;
        Send(b', now, again, Resent(received, now, again))
    case OtherPacket(received) => b.(gwLastPktAt := received)
    case PowerState(own, received, power) => b.(gwLastPktAt := if own then received else b.gwLastPktAt, power := power)
  }

  // ---------------------------------------------------------------- the code does what is meant

  function View(b: Bulb): Protocol {
    Protocol(if b.dirtyAt == 0 then None else Some(Pending(b.dirtyAt, b.expectedPowerOn)), b.log)
  }

  // The clock never reads zero, and commands are for one of the two powers.
  predicate Sane(e: Event) {
    match e
    case Command(now, power) => now > 0 && IsPower(power)
    case Status(own, received, now, power) => now > 0
    case _ => true
  }

  predicate ThroughOwnGateway(e: Event) {
    e.Status? ==> e.own
  }

  ghost predicate Valid(b: Bulb) {
    b.dirtyAt != 0 ==> IsPower(b.expectedPowerOn)
  }

  lemma DoneKeeps(b: Bulb, e: Event)
    requires Valid(b) && Sane(e)
    ensures Valid(Done(b, e))
  {}

  // A status through the gateway of the bulb, and every other event, does what is meant.
  lemma DoneAsMeant(b: Bulb, e: Event)
    requires Valid(b) && Sane(e) && ThroughOwnGateway(e)
    ensures View(Done(b, e)) == Meant(View(b), e)
  {}

  // A status through another gateway, when the one of the bulb was last heard of at some time, which is the one the
  // code looks at: more than 400 ms after the command, or before it, since the difference wraps, it acts on every
  // status after the command; otherwise on none.
  predicate GoesWrong(sentAt: Time, heard: Time, received: Time) {
    if Sub64(heard, sentAt) > PATIENCE then sentAt < received <= sentAt + PATIENCE else received > sentAt + PATIENCE
  }

  predicate Misjudged(p: Protocol, heard: Time, e: Event) {
    e.Status? && !e.own && p.pending.Some? && GoesWrong(p.pending.value.sentAt, heard, e.received)
  }

  // An event does what is meant if and only if it is not one of these.
  lemma AsMeantExactly(b: Bulb, e: Event)
    requires Valid(b) && Sane(e)
    ensures View(Done(b, e)) == Meant(View(b), e) <==> !Misjudged(View(b), b.gwLastPktAt, e)
  {}

  // By the clock: when the gateway of the bulb was last heard of before the command, a status in the first 400 ms is
  // acted on too early; when it was heard of in the first 400 ms, a status after that is missed.
  lemma WhichGoWrong(sentAt: Time, heard: Time, received: Time)
    requires heard <= received && sentAt + PATIENCE < TWO_64
    ensures GoesWrong(sentAt, heard, received) <==>
      if heard < sentAt then sentAt < received <= sentAt + PATIENCE else received > sentAt + PATIENCE >= heard
  {}

  // A command is taken as confirmed after one millisecond, when the status came through another gateway and the
  // gateway of the bulb was last heard of before the command.
  lemma TooEarly()
    ensures var b := Bulb(1000, POWER_ON, POWER_OFF, 900, 900, []);
      View(Done(b, Status(false, 1001, 1001, POWER_ON))).pending.None?
        && Meant(View(b), Status(false, 1001, 1001, POWER_ON)).pending.Some?
  {}

  // ---------------------------------------------------------------- whole runs

  function DoneAll(b: Bulb, es: seq<Event>): Bulb {
    if es == [] then b else Done(DoneAll(b, es[..|es| - 1]), es[|es| - 1])
  }

  function MeantAll(p: Protocol, es: seq<Event>): Protocol {
    if es == [] then p else Meant(MeantAll(p, es[..|es| - 1]), es[|es| - 1])
  }

  ghost predicate AllOwn(es: seq<Event>) {
    forall k | 0 <= k < |es| :: Sane(es[k]) && ThroughOwnGateway(es[k])
  }

  lemma {:induction false} RunAsMeant(b: Bulb, es: seq<Event>)
    requires Valid(b) && AllOwn(es)
    ensures Valid(DoneAll(b, es)) && View(DoneAll(b, es)) == MeantAll(View(b), es)
    decreases |es|
  {
    hide Done, Meant, View;
    if es != [] {
      var n := |es| - 1;
      RunAsMeant(b, es[..n]);
      DoneKeeps(DoneAll(b, es[..n]), es[n]);
      DoneAsMeant(DoneAll(b, es[..n]), es[n]);
    }
  }

  // ---------------------------------------------------------------- what a run leaves in the other fields

  // A packet through the gateway of the bulb.
  predicate IsHeard(e: Event) {
    e.OtherPacket? || ((e.Status? || e.PowerState?) && e.own)
  }

  // When the gateway was last heard of.
  function Heard(before: Time, es: seq<Event>): Time {
    if es == [] then before
    else if IsHeard(es[|es| - 1]) then es[|es| - 1].received
    else Heard(before, es[..|es| - 1])
  }

  function Reported(before: int, es: seq<Event>): int {
    if es == [] then before
    else if es[|es| - 1].Status? || es[|es| - 1].PowerState? then es[|es| - 1].power
    else Reported(before, es[..|es| - 1])
  }

  function StatusAt(before: Time, es: seq<Event>): Time {
    if es == [] then before
    else if es[|es| - 1].Status? then es[|es| - 1].received
    else StatusAt(before, es[..|es| - 1])
  }

  // After any run the gateway was last heard of with the last packet through it, whatever gateways the statuses came
  // through; the power is the last that was reported, and the light state is as old as the last status.
  lemma {:induction false} RunRecords(b: Bulb, es: seq<Event>)
    ensures var b' := DoneAll(b, es);
      && b'.gwLastPktAt == Heard(b.gwLastPktAt, es) && b'.power == Reported(b.power, es)
      && b'.lastLightStateAt == StatusAt(b.lastLightStateAt, es)
    decreases |es|
  {
    if es != [] {
      RunRecords(b, es[..|es| - 1]);
    }
  }

  // That is the time of the packet after which no other came through the gateway.
  lemma {:induction false} HeardLast(before: Time, es: seq<Event>, k: nat)
    requires k < |es| && IsHeard(es[k]) && forall j | k < j < |es| :: !IsHeard(es[j])
    ensures Heard(before, es) == es[k].received
    decreases |es|
  {
    if k < |es| - 1 {
      HeardLast(before, es[..|es| - 1], k);
    }
  }

  // No status through another gateway goes wrong by what is pending and by when the gateway of the bulb was last
  // heard of. There is none when every status comes through the gateway of the bulb.
  ghost predicate WellJudged(b: Bulb, es: seq<Event>) {
    forall k | 0 <= k < |es| :: !Misjudged(MeantAll(View(b), es[..k]), Heard(b.gwLastPktAt, es[..k]), es[k])
  }

  ghost predicate AllSane(es: seq<Event>) {
    forall k | 0 <= k < |es| :: Sane(es[k])
  }

  // That is the exact condition for the code to do what is meant at every event of a run.
  lemma RunAsMeantExactly(b: Bulb, es: seq<Event>)
    requires Valid(b) && AllSane(es)
    ensures (forall k | 0 <= k <= |es| :: View(DoneAll(b, es[..k])) == MeantAll(View(b), es[..k])) <==> WellJudged(b, es)
  {
    hide DoneAll, MeantAll, View, Valid, Misjudged, Sane;
    if forall k | 0 <= k <= |es| :: View(DoneAll(b, es[..k])) == MeantAll(View(b), es[..k]) {
      forall k | 0 <= k < |es|
        ensures !Misjudged(MeantAll(View(b), es[..k]), Heard(b.gwLastPktAt, es[..k]), es[k])
      {
        RunValid(b, es[..k]);
        NextAsMeant(b, es, k);
      }
    }
    if WellJudged(b, es) {
      forall k | 0 <= k <= |es| ensures View(DoneAll(b, es[..k])) == MeantAll(View(b), es[..k]) {
        NoneGoesWrong(b, es, k);
      }
    }
  }

  lemma {:induction false} NoneGoesWrong(b: Bulb, es: seq<Event>, k: nat)
    requires Valid(b) && k <= |es| && AllSane(es) && WellJudged(b, es)
    ensures View(DoneAll(b, es[..k])) == MeantAll(View(b), es[..k])
    decreases k
  {
    hide DoneAll, MeantAll, View, Valid, Misjudged, Sane;
    if k == 0 {
      assert es[..0] == [];
      NothingDone(b);
    } else {
      NoneGoesWrong(b, es, k - 1);
      RunValid(b, es[..k - 1]);
      NextAsMeant(b, es, k - 1);
    }
  }

  lemma NothingDone(b: Bulb)
    ensures View(DoneAll(b, [])) == MeantAll(View(b), [])
  {}

  lemma NextAsMeant(b: Bulb, es: seq<Event>, k: nat)
    requires k < |es| && Sane(es[k]) && Valid(DoneAll(b, es[..k]))
    requires View(DoneAll(b, es[..k])) == MeantAll(View(b), es[..k])
    ensures View(DoneAll(b, es[..k + 1])) == MeantAll(View(b), es[..k + 1])
            <==> !Misjudged(MeantAll(View(b), es[..k]), Heard(b.gwLastPktAt, es[..k]), es[k])
  {
    hide Done, Meant, View, Misjudged, Heard, Valid, Sane;
    assert es[..k + 1][..k] == es[..k] && es[..k + 1][k] == es[k];
    AsMeantExactly(DoneAll(b, es[..k]), es[k]);
    RunRecords(b, es[..k]);
  }

  lemma {:induction false} RunValid(b: Bulb, es: seq<Event>)
    requires Valid(b) && AllSane(es)
    ensures Valid(DoneAll(b, es))
    decreases |es|
  {
    hide Done, Valid, Sane;
    if es != [] {
      var n := |es| - 1;
      assert forall k | 0 <= k < n :: es[..n][k] == es[k];
      RunValid(b, es[..n]);
      DoneKeeps(DoneAll(b, es[..n]), es[n]);
    }
  }

  // ---------------------------------------------------------------- safety

  // The power of the last command of a log.
  function LastCommand(log: seq<Entry>): Option<int> {
    if log == [] then None
    else if log[|log| - 1].Commanded? then Some(log[|log| - 1].power)
    else LastCommand(log[..|log| - 1])
  }

  // When the last command was last sent, if it was not confirmed since.
  function LastSent(log: seq<Entry>): Option<Time> {
    if log == [] || log[|log| - 1].Cleared? then None else Some(log[|log| - 1].at)
  }

  // What comes after a command: it is sent again or confirmed only on a status more than 400 ms after it was last
  // sent, and always for the power of the last command.
  ghost predicate Safe(log: seq<Entry>) {
    if log == [] then true
    else
      var front, e := log[..|log| - 1], log[|log| - 1];
      && Safe(front)
      && (!e.Commanded? ==>
            && LastCommand(front) == Some(e.power)
            && LastSent(front).Some? && e.received > LastSent(front).value + PATIENCE)
  }

  ghost predicate Explains(p: Protocol) {
    && Safe(p.log) && (p.pending.Some? <==> LastSent(p.log).Some?)
    && (p.pending.Some? ==> LastSent(p.log) == Some(p.pending.value.sentAt))
    && (p.pending.Some? ==> LastCommand(p.log) == Some(p.pending.value.power))
  }

  lemma MeantExplains(p: Protocol, e: Event)
    requires Explains(p)
    ensures Explains(Meant(p, e))
  {
    if |Meant(p, e).log| > |p.log| {
      var log := Meant(p, e).log;
      assert log[..|log| - 1] == p.log;
    }
  }

  lemma {:induction false} RunIsSafe(p: Protocol, es: seq<Event>)
    requires Explains(p)
    ensures Explains(MeantAll(p, es))
    decreases |es|
  {
    hide Meant, Explains;
    if es != [] {
      RunIsSafe(p, es[..|es| - 1]);
      MeantExplains(MeantAll(p, es[..|es| - 1]), es[|es| - 1]);
    }
  }

  // A bulb that was sent nothing yet.
  predicate IsNew(b: Bulb) {
    b.dirtyAt == 0 && b.log == []
  }

  // Over any run of a bulb: the dirty mark goes, and commands are sent again, only as Safe says.
  lemma RetrySafety(b: Bulb, es: seq<Event>)
    requires IsNew(b) && AllSane(es) && WellJudged(b, es)
    ensures var b' := DoneAll(b, es); Safe(b'.log) && View(b') == MeantAll(View(b), es)
    ensures var b' := DoneAll(b, es);
      b'.dirtyAt != 0 ==> LastSent(b'.log) == Some(b'.dirtyAt) && LastCommand(b'.log) == Some(b'.expectedPowerOn)
  {
    hide DoneAll, MeantAll, Safe, WellJudged;
    NoneGoesWrong(b, es, |es|);
    assert es[..|es|] == es;
    StartExplains(b);
    RunIsSafe(View(b), es);
  }

  lemma StartExplains(b: Bulb)
    requires IsNew(b)
    ensures Explains(View(b))
  {}

  // What an event adds to a log: a command is always sent; a status more than 400 ms after the last command was last
  // sent confirms it or has it sent again; nothing else does anything.
  function Adds(log: seq<Entry>, e: Event): seq<Entry> {
    if e.Command? then [Commanded(e.now, e.power)]
    else if e.Status? && LastSent(log).Some? && LastCommand(log).Some? && e.received > LastSent(log).value + PATIENCE then
      if e.power == LastCommand(log).value then [Cleared(e.received, e.power)]
      else [Resent(e.received, e.now, LastCommand(log).value)]
    else []
  }

  // Whatever happened before, this is what the next event adds, and the dirty mark is there as long as the last command
  // is not confirmed, with the time and the power it was last sent with.
  lemma NextEntry(start: Bulb, es: seq<Event>, e: Event)
    requires IsNew(start) && AllSane(es + [e]) && WellJudged(start, es + [e])
    ensures var b, b' := DoneAll(start, es), DoneAll(start, es + [e]);
      && b'.log == b.log + Adds(b.log, e)
      && (b'.dirtyAt == 0 <==> LastSent(b'.log).None?)
      && (b'.dirtyAt != 0 ==> LastSent(b'.log) == Some(b'.dirtyAt) && LastCommand(b'.log) == Some(b'.expectedPowerOn))
  {
    var fs, n := es + [e], |es|;
    assert fs[..n] == es && fs[n] == e && fs[..n + 1] == fs;
    StartExplains(start);
    NoneGoesWrong(start, fs, n);
    NoneGoesWrong(start, fs, n + 1);
    RunIsSafe(View(start), es);
    RunIsSafe(View(start), fs);
    hide DoneAll, Safe, LastCommand, LastSent, WellJudged, AllSane;
    MeantAdds(MeantAll(View(start), es), e);
  }

  lemma MeantAdds(p: Protocol, e: Event)
    requires Explains(p)
    ensures Meant(p, e).log == p.log + Adds(p.log, e)
  {
    hide Safe, LastCommand, LastSent;
  }

  // ---------------------------------------------------------------- the bulb

  class Light {
    var dirtyAt: Time
    var expectedPowerOn: int
    var power: int
    var lastLightStateAt: Time
    // of the gateway that the bulb is on
    var gwLastPktAt: Time
    ghost var log: seq<Entry>

    ghost function B(): Bulb
      reads this
    {
      Bulb(dirtyAt, expectedPowerOn, power, lastLightStateAt, gwLastPktAt, log)
    }

    // lgtd_lifx_bulb_open(), on a gateway that was last heard of at some time
    constructor (now: Time, heard: Time)
      ensures IsNew(B()) && power == POWER_OFF && lastLightStateAt == now && gwLastPktAt == heard
    {
      dirtyAt, expectedPowerOn, power, lastLightStateAt, gwLastPktAt, log := 0, 0, POWER_OFF, now, heard, [];
    }

    method SendPower(now: Time, payload: int, ghost e: Entry)
      modifies this
      ensures B() == Send(old(B()), now, payload, e)
    {
      dirtyAt := now;
      expectedPowerOn := payload;
      log := log + [e];
    }

    method HandleCommand(now: Time, payload: int)
      modifies this
      ensures B() == Done(old(B()), Command(now, payload))
    {
      SendPower(now, payload, Commanded(now, payload));
    }

    // lgtd_lifx_gateway_handle_light_status(), own telling whether the packet came through the gateway of the bulb
    method HandleLightStatus(own: bool, received: Time, now: Time, payload: int)
      modifies this
      ensures B() == Done(old(B()), Status(own, received, now, DecodePower(payload)))
      ensures Valid(old(B())) && now > 0 && own ==>
        View(B()) == Meant(View(old(B())), Status(own, received, now, DecodePower(payload)))
    {
      if Valid(B()) && now > 0 && own {
        DoneAsMeant(B(), Status(own, received, now, DecodePower(payload)));
      }
      if own {
        gwLastPktAt := received;
      }
      lastLightStateAt := received;
      power := DecodePower(payload);
      if dirtyAt != 0 && lastLightStateAt > dirtyAt && Sub64(gwLastPktAt, dirtyAt) > PATIENCE {
        if expectedPowerOn == power {
          dirtyAt := 0;
          log := log + [Cleared(received, power)];
        } else {
          var again := if expectedPowerOn != 0 then POWER_ON else POWER_OFF;
          SendPower(now, again, Resent(received, now, again));
        }
      }
    }

    // lgtd_lifx_gateway_handle_power_state()
    method HandlePowerState(own: bool, received: Time, payload: int)
      modifies this
      ensures B() == Done(old(B()), PowerState(own, received, DecodePower(payload)))
      ensures View(B()) == View(old(B()))
    {
      if own {
        gwLastPktAt := received;
      }
      power := DecodePower(payload);
    }

    // Any other packet that lgtd_lifx_gateway_handle_packet() knows, through the gateway of the bulb
    method HandleOtherPacket(received: Time)
      modifies this
      ensures B() == Done(old(B()), OtherPacket(received))
      ensures View(B()) == View(old(B()))
    {
      gwLastPktAt := received;
    }
  }
}
