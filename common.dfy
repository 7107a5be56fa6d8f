/** Small shared vocabulary: optional values and entity identifiers. */
module Common {

  /** A value that may be absent, standing for a nullable reference. */
  datatype Option<+T> = None | Some(value: T)

  /** An entity of the game world, identified by its uid. */
  type EntityId = nat

  /** A point in game time, counted in ticks. */
  type Tick = int
}
