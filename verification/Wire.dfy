/** The messages the control plane streams to data planes, as plain values. */
module Wire {

  datatype Option<+T> = None | Some(value: T)

  const MAX_INT32: int := 0x7FFF_FFFF

  /** Durations are nanoseconds. */
  const SECOND: int := 1_000_000_000

  /** A weight that is not positive counts as one. */
  function Clamp(weight: int): (w: int)
    ensures w >= 1 && (weight >= 1 ==> w == weight) && (weight < 1 ==> w == 1)
  {
    if weight <= 0 then 1 else weight
  }

  datatype Backend = Backend(address: string, weight: int)

  datatype BackendSet = BackendSet(
    group: string,
    backends: seq<Backend>,
    version: int,
    algorithm: string,
    sticky: bool,
    stickyCookieName: string,
    stickyTtlSeconds: int,
    rateLimitRps: real,
    rateLimitBurst: int)

  /** The receiver's version guard: a set at `incoming` replaces one held at
      `held` unless it is not newer; version 0 means nothing is held yet. */
  predicate Accepts(held: int, incoming: int) {
    !(incoming <= held && held != 0)
  }

  /** A receiver that holds nothing takes any set, any other only a newer one. */
  lemma GuardIs(held: int, incoming: int)
    ensures Accepts(0, incoming)
    ensures held != 0 ==> (Accepts(held, incoming) <==> incoming > held)
  {}

  predicate DistinctAddresses(backends: seq<Backend>) {
    forall i, j :: 0 <= i < j < |backends| ==> backends[i].address != backends[j].address
  }
}
