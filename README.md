# lineapy dependency graph and execution context, in Dafny

This project models two parts of lineapy, a tool that records a running Python
program as a provenance graph.

**The dependency graph** (`Graph`, module `DataGraph`) is built once, from a list of
nodes and a session context. Building it does four things:

- It indexes the nodes by id. A later node replaces an earlier one with the same id.
- It derives one reference edge into each node for every id the node refers to.
  Which fields count as references depends on the node's kind.
- It adds line-number edges. For each data-source node, it takes the call nodes that
  descend from it along the reference edges and sorts them stably by line. It then joins
  each neighbouring pair that no reference edge already connects in either direction.
- It raises `InternalLogicError` if the result has a cycle.

After construction the graph is only queried:

- the visit order;
- parents, children, ancestors, descendants and leaves;
- node lookup, lenient or strict;
- the value a node denotes, through alias chains of variable nodes;
- the positional and keyword argument values of a call.

**The execution context** (module `Context`) brackets a single call while the executor
runs it:

- `set_context` snapshots the call's input globals into the shared globals dictionary and
  records whether each value is mutable. It refuses to run while another context is
  active, and fails an assertion if the dictionary is not empty.
- `get_context` and `_is_executing` report the active context.
- `teardown_context` returns the state to idle. It turns what the globals dictionary
  reports into an ordered list of side effects:
  - an accessed-globals record;
  - one mutated-node record for each mutable input that was read;
  - one view group of the mutable inputs and the mutable new bindings, when that group
    has more than one member.

Supporting modules:

| module | contents |
|---|---|
| `Ids` | the node identifier type shared by the other modules |
| `Nodes` | the node kinds and the session context |
| `SideEffects` | the side-effect records |
| `Digraph` | the graph notions networkx provides to the source: reachability, ancestors, descendants, acyclicity, topological order. They are proved against a path-based definition. |
| `Sorting` | Python's stable `list.sort(key=...)` |
| `Wrappers` | `Option`, `Result` and `Outcome` |

The graph is an immutable datatype, because it is never changed after construction. The
construction loops and the argument loop are methods, each proved equal to a
specification function. The line-number pass leaves two choices open: the order in
which the descendant set is listed, and the order among calls that share a line. The
construction contract therefore quantifies over the line orders it may have chosen. The
context's two module-level variables are the fields of the class `ExecutionState`.

Where the code and its written description differ, the model follows the code:

- **Broken alias chain.** Only a missing *first* hop gives None, together with a
  warning (graph.py:136-139). A missing id further along ends the loop with None in
  hand, and reading `.value` of it raises `AttributeError` (graph.py:144-151).
- **End of an alias chain.** An alias chain resolves to the *stored* value of its last
  node. A data source's access path or an import's module is not consulted there.
- **Dangling references.** A reference to an id that no node carries is not an error.
  Adding the edge creates the vertex (graph.py:57-59), which becomes a root.
- **Argument nodes.** An argument node with neither a literal nor a value reference
  resolves to None (graph.py:159); it is not an error.
- **Empty node lists.** An empty node list builds an empty graph.

## Model

| member | source | states |
|---|---|---|
| DataGraph.IdIndex | lineapy/data/graph.py:52 | the index has exactly the node ids as keys; each entry is a listed node carrying its key |
| DataGraph.IdIndexLastWins | lineapy/data/graph.py:52 | of several nodes sharing an id, the index holds the last one in the list |
| DataGraph.ParentsFromNode | lineapy/data/graph.py:202-236 | an id is listed exactly when the node refers to it: a call's arguments, function module and locally defined function; an argument's value node; a loop, condition or function definition's imports and input state changes; a state change's associated node on write and initial value on read; a variable's source |
| DataGraph.RootsHaveNoParents | lineapy/data/graph.py:202-236 | imports, data sources and arguments without a value reference have no parents |
| DataGraph.EdgesToNode | lineapy/data/graph.py:245-251 | one edge per listed parent, each from that parent into the node, in the order the parents are listed |
| DataGraph.EdgesFromNodes | lineapy/data/graph.py:238-243 | the loop yields the inbound edges of every node in list order |
| DataGraph.RefEdgeMembers | lineapy/data/graph.py:238-251 | an edge is a reference edge exactly when some listed node with the edge's sink as id refers to the edge's source |
| DataGraph.RefEdgeTargets | lineapy/data/graph.py:238-251 | every reference edge ends at a listed node |
| DataGraph.ReferenceDescendantsIndexed | lineapy/data/graph.py:258-264 | every descendant along the reference edges is a listed node, so the strict lookup of each descendant never raises |
| DataGraph.ConsecutiveMembers | lineapy/data/graph.py:272-284 | a neighbour pair of a listing becomes an edge, from earlier to later, exactly when no reference edge joins the two either way |
| DataGraph.JoinNeighbours | lineapy/data/graph.py:272-284 | the inner loop yields the unjoined neighbour pairs of the sorted listing, in order |
| DataGraph.LineNumberEdges | lineapy/data/graph.py:253-286 | for each data source in list order, its call descendants are listed in ascending line order, and the result is the unjoined neighbour pairs of those listings |
| DataGraph.LineEdgeShape | lineapy/data/graph.py:253-286 | every line-number edge joins two call descendants of one data source that are neighbours in its line order, points from the earlier line to a line no earlier, and stands where no reference edge joined them |
| DataGraph.NeighboursAreJoined | lineapy/data/graph.py:272-284 | conversely, every neighbour pair of a listing that no reference edge joins is a line-number edge |
| DataGraph.LineEdgeTargets | lineapy/data/graph.py:253-286 | both ends of every line-number edge are indexed nodes |
| DataGraph.TwoCallsOnOneSource | lineapy/data/graph.py:253-286 | two call descendants of one data source, on lines 3 and 5, get exactly the edge from the line-3 call to the line-5 call, or none when a reference edge joins them |
| DataGraph.NewGraph | lineapy/data/graph.py:38-71 | construction yields the graph over the index, the reference edges and some line-order choice of line-number edges, with its vertex set; it yields `InternalLogicError` exactly when those edges have a cycle; a built graph is valid and keeps the nodes and the session |
| DataGraph.StateChangeCycleFails | lineapy/data/graph.py:69-71 | a state-change read whose initial value is a state-change write associated with that reader makes construction fail with `InternalLogicError` |
| DataGraph.GetSubgraph | lineapy/data/graph.py:288-292 | a fresh construction over the given nodes, with this graph's session |
| Digraph.IsDagIffAcyclic | lineapy/data/graph.py:69-71 | the acyclicity test succeeds exactly when no vertex reaches itself |
| DataGraph.VisitOrder | lineapy/data/graph.py:97-98 | every vertex exactly once, with every edge pointing forward |
| Digraph.TopologicalSort | lineapy/data/graph.py:97-98 | the same, for any finite vertex set and acyclic edge set whose endpoints are vertices |
| DataGraph.LastVisitedIsLeaf | lineapy/data/graph.py:97-117 | the last vertex of a visit order has no outbound edge |
| DataGraph.GetParents | lineapy/data/graph.py:100-101 | the ids with an edge into the node; `NetworkXError` exactly when the node is not a vertex |
| DataGraph.GetChildren | lineapy/data/graph.py:106-107 | the ids with an edge from the node; `NetworkXError` exactly when it is not a vertex |
| DataGraph.GetAncestors | lineapy/data/graph.py:103-104 | the ids from which the given one is reachable along one or more edges; `NetworkXError` exactly when it is not a vertex |
| DataGraph.GetDescendants | lineapy/data/graph.py:109-110 | the ids reachable from the node along one or more edges; `NetworkXError` exactly when it is not a vertex |
| Digraph.DescendantsReach | lineapy/data/graph.py:109-110 | the breadth-first closure holds exactly the vertices reachable by a path |
| Digraph.AncestorsReach | lineapy/data/graph.py:103-104 | the closure over reversed edges holds exactly the vertices that reach the given one |
| DataGraph.AncestorsDescendantsAgree | lineapy/data/graph.py:103-110 | u is an ancestor of v exactly when v is a descendant of u |
| DataGraph.OneStepIsReachable | lineapy/data/graph.py:100-110 | parents are ancestors and children are descendants |
| DataGraph.NoParentsNoAncestors | lineapy/data/graph.py:100-104 | a vertex without parents has no ancestors |
| DataGraph.LeafNodes | lineapy/data/graph.py:112-117 | the vertices with no outbound edge, and only those |
| DataGraph.DanglingReferenceIsRoot | lineapy/data/graph.py:53-59 | a reference to an id no node carries still yields a vertex, which has no inbound edge |
| DataGraph.GetNode | lineapy/data/graph.py:119-122 | the indexed node; None exactly for an absent or unindexed id |
| DataGraph.GetNodeFindsListed | lineapy/data/graph.py:119-122 | a found node carries the id it was looked up by and is the last listed node with that id |
| DataGraph.GetNodeElseRaise | lineapy/data/graph.py:124-127 | the same node as the lenient lookup, and `NullValueError` exactly where that gives None |
| DataGraph.ValueOf | lineapy/data/graph.py:129-169 | value resolution terminates on every valid graph, through any alias chain and argument reference, and its only exception is `AttributeError` |
| DataGraph.GetNodeValue | lineapy/data/graph.py:129-169 | the loop-and-recursion resolution agrees with `ValueOf` on every node |
| DataGraph.AliasChainResolves | lineapy/data/graph.py:134-151 | a variable node heading a complete alias chain of any length resolves to the stored value of the chain's last node |
| DataGraph.BrokenAliasChain | lineapy/data/graph.py:136-151 | a missing first hop resolves to None; a missing id further along the chain raises `AttributeError` |
| DataGraph.LiteralArgumentValue | lineapy/data/graph.py:153-156 | an argument with a literal resolves to the literal |
| DataGraph.ReferenceArgumentValue | lineapy/data/graph.py:157-158 | an argument without a literal resolves to the value of the node it refers to |
| DataGraph.GetNodeValueFromId | lineapy/data/graph.py:171-175 | the value of the node that the lenient lookup finds |
| DataGraph.CollectArguments | lineapy/data/graph.py:184-194 | the argument loop agrees with its specification and stops at the first failure |
| DataGraph.CollectShape | lineapy/data/graph.py:187-194 | a successful loop keeps exactly the keyword-less argument nodes, in order, and one entry per keyword used |
| DataGraph.CollectKeywordLastWins | lineapy/data/graph.py:189-192 | a keyword maps to the value of the last argument carrying it |
| DataGraph.CollectMissing | lineapy/data/graph.py:187-188 | an argument id that no node carries makes the loop fail; a missing id raises `NullValueError` once the arguments before it went through; `NullValueError` arises only from such an id |
| DataGraph.CollectMissingRaises | lineapy/data/graph.py:185-188 | when the arguments before a missing id went through, the loop stops at that id with `NullValueError` |
| DataGraph.CollectSucceeds | lineapy/data/graph.py:187-194 | every id indexed as an argument node whose value resolves: the loop succeeds |
| DataGraph.ValuesOf | lineapy/data/graph.py:198 | a successful comprehension holds each node's value at its position; its only exception is `AttributeError` |
| DataGraph.ValuesOfFails | lineapy/data/graph.py:198 | the comprehension fails exactly when some node's value does |
| DataGraph.ResolveAll | lineapy/data/graph.py:198 | the comprehension's loop agrees with `ValuesOf` |
| Sorting.SortBy | lineapy/data/graph.py:196 | the result is sorted by key, is a permutation of the input, and keeps the relative order of elements with equal keys |
| Sorting.InsertBeforeStable | lineapy/data/graph.py:196 | insertion puts the new element in front of every element carrying its key, so equal keys keep their order |
| DataGraph.GetArgumentsFromCallNode | lineapy/data/graph.py:177-198 | the whole operation: collect, stable sort by argument position, resolve |
| DataGraph.ArgumentsMissing | lineapy/data/graph.py:187-188 | a missing argument id makes the call fail; a missing id raises `NullValueError` once the arguments before it went through; `NullValueError` arises only from a missing id |
| DataGraph.MissingOnlyArgument | lineapy/data/graph.py:185-188 | a call whose only argument id no node carries fails with `NullValueError` |
| DataGraph.ArgumentsSucceed | lineapy/data/graph.py:177-198 | with every argument an indexed, resolvable argument node, the call's arguments are returned |
| DataGraph.ArgumentsShape | lineapy/data/graph.py:184-198 | the positional values are the values of the keyword-less arguments in a stable position order, one per argument; the keywords are exactly those used |
| DataGraph.ArgumentsKeywordLastWins | lineapy/data/graph.py:189-192 | a keyword maps to the value of the last argument carrying it |
| DataGraph.SetAttrArguments | tests/__snapshots__/test_end_to_end/TestDelete.test_set_attr.1.py:40-103 | the recorded `setattr` call, with arguments at positions 1, 2 and 0, gets the values of `SimpleNamespace()` (None), "hi" and 1, in that order |
| DataGraph.MixedArguments | lineapy/data/graph.py:184-198 | positions 1 and 0 and a keyword `b` split into the two positional values in position order and `{b: ...}` |
| Context.Lookup | lineapy/execution/context.py:145 | a dict read gives the value of the last binding of the name, and None exactly when the name is unbound |
| Context.InputNodeIds | lineapy/execution/context.py:99 | the given mapping when present and non-empty, else the node's recorded global reads |
| Context.Snapshot | lineapy/execution/context.py:100-102 | the only failure of the snapshot is a key error |
| Context.SnapshotFails | lineapy/execution/context.py:100-102 | the snapshot fails exactly when some input id has no value in the executor |
| Context.SnapshotKeys | lineapy/execution/context.py:100-102 | a snapshot binds exactly the input names |
| Context.SnapshotValues | lineapy/execution/context.py:100-102 | each input name is bound to the executor's value for the id of its last item |
| Context.Mutability | lineapy/execution/context.py:110-112 | one entry per snapshot name, holding whether the snapshot value is mutable |
| Context.InputNodes | lineapy/execution/context.py:68-76 | the only failure of `input_nodes` is a key error |
| Context.InputNodesFail | lineapy/execution/context.py:68-76 | `input_nodes` fails exactly when some input name is no longer bound |
| Context.InputNodesKeys | lineapy/execution/context.py:68-76 | its keys are exactly the input ids |
| Context.InputNodesValues | lineapy/execution/context.py:68-76 | each input id maps to the current global under the name of its last item |
| Context.InputNodesAtSetTime | lineapy/execution/context.py:68-104 | right after set-up, with distinct input names, `input_nodes` gives each input id the executor's value for it |
| Context.MutableNames | lineapy/execution/context.py:144-148 | at most one name per accessed name |
| Context.MutableNamesMembers | lineapy/execution/context.py:144-148 | the accessed names that were mutable inputs, and only those |
| Context.MutableNamesOne | lineapy/execution/context.py:144-148 | a single accessed name is kept exactly when it was a mutable input |
| Context.MutableNamesAppend | lineapy/execution/context.py:144-148 | the filter keeps access order: filtering two runs of accessed names gives the first run's result followed by the second's |
| Context.MutableInputPointers | lineapy/execution/context.py:144-148 | the input id of each accessed mutable name, in access order; a key error exactly when some accessed name has no mutability entry, or is mutable and has no id |
| Context.MutableOutputPointers | lineapy/execution/context.py:167-171 | at most one pointer per added or changed binding |
| Context.MutableOutputPointersMembers | lineapy/execution/context.py:167-171 | only variable pointers, and a variable pointer for a name exactly when that name was added or changed with a mutable value |
| Context.MutableOutputPointersOne | lineapy/execution/context.py:167-171 | a single binding gives a variable pointer exactly when its value is mutable |
| Context.MutableOutputPointersAppend | lineapy/execution/context.py:167-171 | the filter keeps binding order: two runs of bindings give the first run's pointers followed by the second's |
| Context.ComputeSideEffects | lineapy/execution/context.py:139-176 | it fails, with a key error, exactly when an accessed name cannot be resolved |
| Context.EffectsInPhaseOrder | lineapy/execution/context.py:149-176 | at most one accessed-globals record first, then mutations, then at most one view group |
| Context.AccessedGlobalsWhenTouched | lineapy/execution/context.py:149-154 | the accessed-globals record is present exactly when an input was read or a binding added or changed, and it then comes first and names both |
| Context.MutatedAreMutableInputs | lineapy/execution/context.py:144-156 | the mutation records name, in access order, the input id of each accessed name that was mutable at set time |
| Context.ViewWhenSeveral | lineapy/execution/context.py:167-176 | the view group is present exactly when the mutable inputs and mutable new bindings are more than one pointer, and it then comes last and lists them |
| Context.NothingMutable | lineapy/execution/context.py:139-176 | with no mutable input read and no mutable value bound, nothing is recorded as mutated or aliased |
| Context.NothingTouched | lineapy/execution/context.py:149-176 | a call that reads no input and binds nothing has no side effects |
| Context.MutableReadNewMutable | lineapy/execution/context.py:139-176 | reading a mutable x and binding a new mutable y gives the accessed-globals record (x read, y added), x's node mutated, and x's node and y as one view group |
| Context.PureCall | lineapy/execution/context.py:139-176 | reading an immutable x and binding an immutable y gives only the accessed-globals record |
| Context.MutableReadOnly | lineapy/execution/context.py:139-176 | reading a mutable x and binding nothing gives the accessed-globals record and x's node mutated, without a view group |
| Context.ExecutionState.constructor | lineapy/execution/context.py:37-38 | the module starts idle: no context and an empty globals dictionary |
| Context.ExecutionState.SetContext | lineapy/execution/context.py:79-113 | refused with "Context already set" while active, then on a non-empty globals dictionary, then with a key error on an input without a value; any refusal leaves the state unchanged; success makes the globals the snapshot and activates a context with the inputs and their mutability |
| Context.ExecutionState.GetContext | lineapy/execution/context.py:116-120 | the active context, and "No context set" exactly when there is none |
| Context.ExecutionState.IsExecuting | lineapy/__init__.py:44-49 | true exactly when a context is active |
| Context.ExecutionState.RecordSideEffect | lineapy/execution/context.py:57-59 | appends one effect to the active context's list, touching nothing else; "No context set" when idle |
| Context.ExecutionState.TeardownContext | lineapy/execution/context.py:123-136 | refused with "No context set" when idle; otherwise the state is idle again, even when computing the effects then raises a key error, and the result is the added or changed bindings with the recorded effects followed by the computed ones |
| Context.TracedCall | lineapy/execution/context.py:79-136 | one call bracketed end to end: a second set is refused, the context is visible while active, a recorded effect precedes the computed ones, and a second teardown is refused |

## Left out

- networkx itself is not part of this model. Its vertex and edge sets, reachability,
  acyclicity test and topological sort are modelled directly in `Digraph`.
- The order of the lists that networkx returns from `predecessors`, `successors`,
  `ancestors`, `descendants` and its node iteration is not modelled. Those results are
  sets here.
- `Digraph.TopologicalSort`: `visit_order` is stated for every topological order, not
  for networkx's particular one.
- `Graph.__eq__` (graph isomorphism) is left out; deciding isomorphism is not part of
  building or querying the graph.
- `__str__`, `__repr__` and the graph printer are left out, because they only produce
  output.
- The warning that `get_node_value` prints is left out, because it is output only.
- The property accessors `nx_graph`, `ids`, `nodes` and `source_code` are fields of the
  `Graph` datatype rather than members.
- `DataGraph.NewGraph` and `DataGraph.GetSubgraph` require `LinenosKnown`: every call
  node carries a line number. This is stronger than what makes the source fail. The
  source raises `TypeError` only when a data source has two or more call descendants
  and one of them has no line number, because the sort then compares None with a
  value (the FIXME at graph.py:267-270). That error path is not modelled. The requires
  also excludes two inputs the source builds without error: a call without a line
  number that descends from no data source, and a data source whose single call
  descendant has no line number.
- The node classes are not part of this model; only the fields the core reads are kept.
  Every node has an optional stored `value`, which is what `get_node_value` returns for
  a non-alias node.
- The runtime values of the traced program are an abstract type.
- The argument-position helper (`get_arg_position`) and the mutability test
  (`is_mutable`) are not part of this model. Both are parameters.
- The executor is not part of this model. The context sees it only as its id-to-value
  map.
- The globals dictionary (`GlobalsDict`) is not part of this model.
  - Setting it up is taken to make its contents the snapshot.
  - What tearing it down reports (accessed inputs, added or changed bindings) is a
    parameter of `TeardownContext`.
  - Teardown is taken to clear it.
- Session creation time and hardware metadata are left out; nothing in the core reads
  them.
- The side-effect classes are not part of this model. Only their fields are kept.
- `Context.ExecutionState.RecordSideEffect` stands for a running call appending to
  `get_context().side_effects`. How that call runs is left out.
- Python dicts are sequences of items in insertion order, and a read gives the last
  binding of a name.
- How the running call changes the globals dictionary is left out. `input_nodes` takes
  the dictionary as a parameter.
- `_compute_side_effects` is a generator. The model computes its whole output at once:
  every failure in it is raised before its first output, so the results agree.
- Concurrency is left out. The source is single-threaded, and the active-context check
  is the only guard the model needs.
