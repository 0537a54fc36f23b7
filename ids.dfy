/** Identifiers shared by the node records, the graph and the execution context. */
module Ids {
  /** A node identifier (a LineaID). */
  type Id = string
}
