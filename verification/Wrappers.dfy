/** What several modules share: optional values, and the identity of a unit. */
module Wrappers {
  datatype Option<+T> = None | Some(value: T)

  /** The client that created a unit, and the client's clock at that unit. */
  datatype Id = Id(client: int, clock: nat)
}
