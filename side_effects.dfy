/**
 * The records through which an executed call reports what it did to the
 * shared variables: which globals it read or bound, which input objects it
 * may have mutated, and which values now alias one another.
 */
module SideEffects {
  import opened Ids

  /** A value, named either by the node that produced it or by the global name now bound to it. */
  datatype ExecutorPointer = ID(id: Id) | Variable(name: string)

  datatype SideEffect =
    | AccessedGlobals(retrieved: seq<string>, addedOrUpdated: seq<string>)
    | MutatedNode(pointer: ExecutorPointer)
    | ViewOfNodes(pointers: seq<ExecutorPointer>)
}
