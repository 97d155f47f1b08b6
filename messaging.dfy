/** The vocabulary the messaging runtime shares: addresses, clock ticks and the envelope in transit. */
module Messaging {
  import opened Wrappers

  /** `System.Uri`, reduced to the scheme that selects a transport and the rest of the address. */
  datatype Uri = Uri(scheme: string, rest: string)

  /** Ticks of 100 nanoseconds, as `DateTime` and `TimeSpan` count them. */
  const MaxDateTimeTicks: int := 3155378975999999999

  /** A `DateTime`: a tick count from 0 to `DateTime.MaxValue`. */
  type DateTime = t: int | 0 <= t <= MaxDateTimeTicks

  /** A `TimeSpan`: a signed 64-bit tick count. */
  newtype TimeSpan = t: int | -0x8000_0000_0000_0000 <= t < 0x8000_0000_0000_0000

  newtype int32 = x: int | -0x8000_0000 <= x < 0x8000_0000

  /** The persisted lifecycle states of an envelope. */
  datatype EnvelopeStatus = Incoming | Scheduled | Outgoing | Handled

  /** The owner id meaning "no node has claimed this envelope". */
  const AnyNode: int := 0

  /** One message in transit, reduced to what this core reads and writes: its fixed identity and its
      scheduled execution time (none means "deliver now"). */
  class Envelope {
    const id: nat
    var executionTime: Option<DateTime>

    constructor (id: nat)
      ensures this.id == id && executionTime == None
    {
      this.id := id;
      executionTime := None;
    }
  }
}
