/** What several parts of the model share. */
module Common {

  datatype Option<+T> = None | Some(value: T)

  // Gateways and tags are known by their address in memory, bulbs by their device address.
  type Ref = nat
  type Addr = nat

  const MAX_TAGS: int := 64
  const LABEL_SIZE: nat := 32
  const POWER_OFF: int := 0
  const POWER_ON: int := 0xffff

  predicate IsPower(power: int) {
    power == POWER_OFF || power == POWER_ON
  }

  // The decoders know two powers only: what is not on is off.
  function DecodePower(power: int): (r: int)
    ensures IsPower(r)
  {
    if power != POWER_ON then POWER_OFF else power
  }

  ghost predicate Distinct<T>(list: seq<T>) {
    forall i, j | 0 <= i < j < |list| :: list[i] != list[j]
  }
}
