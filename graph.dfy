/**
 * The dependency graph of a traced program (the `Graph` class): built once
 * from a list of nodes and a session, validated to be acyclic, and queried
 * read-only afterwards.
 *
 * The graph engine's vertex set is the node ids together with every endpoint
 * of an edge: a reference to an id that no node carries still becomes a
 * vertex, exactly as adding an edge to the engine creates its endpoints.
 */
module DataGraph {
  import opened Wrappers
  import opened Ids
  import opened Digraph
  import opened Nodes
  import Sorting

  /** The exceptions the graph raises, by their Python names. */
  datatype GraphError =
    | InternalLogicError  // the derived edges contain a cycle
    | NullValueError      // strict lookup of a missing id
    | NetworkXError       // a structural query about an id that is not a vertex
    | AttributeError      // an attribute read on None, or `.keyword` on a node that is not an argument

  /**
   * nodes: the list the graph was built from; ids: the id index;
   * refEdges: the reference edges in derivation order; edges: all edges,
   * reference and line-number; vertices: the engine's vertex set.
   */
  datatype Graph = Graph(
    nodes: seq<Node>,
    ids: map<Id, Node>,
    refEdges: seq<Edge>,
    edges: set<Edge>,
    vertices: set<Id>,
    session: SessionContext)

  function NodeIds(nodes: seq<Node>): set<Id>
  {
    set n | n in nodes :: n.id
  }

  /** `n` is the later of the two nodes with its id in `nodes`, or the only one. */
  ghost predicate LastWithId(nodes: seq<Node>, i: int)
    requires 0 <= i < |nodes|
  {
    forall j :: i < j < |nodes| ==> nodes[j].id != nodes[i].id
  }

  /** The id index `dict((n.id, n) for n in nodes)`: a later node replaces an earlier one with the same id. */
  function IdIndex(nodes: seq<Node>): (ids: map<Id, Node>)
    ensures ids.Keys == NodeIds(nodes)
    ensures forall k | k in ids :: ids[k].id == k && ids[k] in nodes
    decreases |nodes|
  {
    if nodes == [] then map[]
    else
      var front := nodes[..|nodes| - 1];
      var last := nodes[|nodes| - 1];
      assert nodes == front + [last];
      IdIndex(front)[last.id := last]
  }

  /** Of several nodes with one id, the index keeps the last. */
  lemma {:induction false} IdIndexLastWins(nodes: seq<Node>, i: int)
    requires 0 <= i < |nodes| && LastWithId(nodes, i)
    ensures IdIndex(nodes)[nodes[i].id] == nodes[i]
    decreases |nodes|
  {
    var front := nodes[..|nodes| - 1];
    if i < |nodes| - 1 {
      assert LastWithId(front, i) by {
        forall j | i < j < |front| ensures front[j].id != front[i].id {
          assert front[j] == nodes[j];
        }
      }
      IdIndexLastWins(front, i);
      assert nodes[|nodes| - 1].id != nodes[i].id;
    }
  }

  // ---------------------------------------------------------------- reference edges

  /** The reference table: which ids each node variant refers to. */
  predicate RefersTo(n: Node, x: Id)
  {
    match n.kind
    case CallNode(_, m, f, args, _, _) => x in args || m == Some(x) || f == Some(x)
    case ArgumentNode(_, _, v, _) => v == Some(x)
    case LoopNode(i, s) => (i.Some? && x in i.value) || (s.Some? && x in s.value)
    case ConditionNode(i, s) => (i.Some? && x in i.value) || (s.Some? && x in s.value)
    case FunctionDefinitionNode(i, s) => (i.Some? && x in i.value) || (s.Some? && x in s.value)
    case StateChangeNode(t, a, iv) => x == (if t == Write then a else iv)
    case VariableNode(s) => x == s
    case ImportNode(_, _, _, _) => false
    case DataSourceNode(_) => false
  }

  /** The ids a node refers to, each of which becomes an inbound edge of the node, in the order they are listed. */
  function ParentsFromNode(n: Node): (r: seq<Id>)
    ensures forall x :: x in r <==> RefersTo(n, x)
  {
    match n.kind
    case CallNode(_, m, f, args, _, _) =>
      args + (if m.Some? then [m.value] else []) + (if f.Some? then [f.value] else [])
    case ArgumentNode(_, _, v, _) =>
      if v.Some? then [v.value] else []
    case LoopNode(i, s) => SideEffectInputs(i, s)
    case ConditionNode(i, s) => SideEffectInputs(i, s)
    case FunctionDefinitionNode(i, s) => SideEffectInputs(i, s)
    case StateChangeNode(t, a, iv) =>
      if t == Write then [a] else [iv]
    case VariableNode(s) => [s]
    case ImportNode(_, _, _, _) => []
    case DataSourceNode(_) => []
  }

  function SideEffectInputs(imports: Option<seq<Id>>, states: Option<seq<Id>>): seq<Id>
  {
    (if imports.Some? then imports.value else []) + (if states.Some? then states.value else [])
  }

  /** Imports, data sources and arguments without a value reference are roots. */
  lemma {:induction false} RootsHaveNoParents(n: Node)
    requires n.kind.ImportNode? || n.kind.DataSourceNode? || (n.kind.ArgumentNode? && n.kind.valueNodeId.None?)
    ensures ParentsFromNode(n) == []
  {
  }

  /** The edges into one node: one per id it refers to. */
  function EdgesToNode(n: Node): (r: seq<Edge>)
    ensures |r| == |ParentsFromNode(n)|
    ensures forall i :: 0 <= i < |r| ==> r[i] == (ParentsFromNode(n)[i], n.id)
    ensures forall e :: e in r <==> e.1 == n.id && e.0 in ParentsFromNode(n)
  {
    var ps := ParentsFromNode(n);
    var r := seq(|ps|, i requires 0 <= i < |ps| => (ps[i], n.id));
    forall e: Edge | e.1 == n.id && e.0 in ps
      ensures e in r
    {
      var i :| 0 <= i < |ps| && ps[i] == e.0;
      assert r[i] == e;
    }
    r
  }

  /** The reference edges of a node list, node by node. */
  function RefEdges(nodes: seq<Node>): seq<Edge>
    decreases |nodes|
  {
    if nodes == [] then []
    else RefEdges(nodes[..|nodes| - 1]) + EdgesToNode(nodes[|nodes| - 1])
  }

  /** The listed node a reference edge points into, which refers to the edge's source. */
  lemma {:induction false} RefEdgeSource(nodes: seq<Node>, e: Edge) returns (n: Node)
    requires e in RefEdges(nodes)
    ensures n in nodes && e.1 == n.id && e.0 in ParentsFromNode(n)
    decreases |nodes|
  {
    var front := nodes[..|nodes| - 1];
    var last := nodes[|nodes| - 1];
    if e in EdgesToNode(last) {
      n := last;
    } else {
      n := RefEdgeSource(front, e);
      var i :| 0 <= i < |front| && front[i] == n;
      assert nodes[i] == n;
    }
  }

  /** A listed node's reference becomes a reference edge. */
  lemma {:induction false} RefEdgeFrom(nodes: seq<Node>, n: Node, e: Edge)
    requires n in nodes && e.1 == n.id && e.0 in ParentsFromNode(n)
    ensures e in RefEdges(nodes)
    decreases |nodes|
  {
    var front := nodes[..|nodes| - 1];
    var last := nodes[|nodes| - 1];
    assert nodes == front + [last];
    if n != last {
      RefEdgeFrom(front, n, e);
    }
  }

  /** An edge is a reference edge exactly when some listed node refers to its source. */
  lemma {:induction false} RefEdgeMembers(nodes: seq<Node>, e: Edge)
    ensures e in RefEdges(nodes) <==> exists n :: n in nodes && e.1 == n.id && e.0 in ParentsFromNode(n)
  {
    if e in RefEdges(nodes) {
      var n := RefEdgeSource(nodes, e);
    }
    if n :| n in nodes && e.1 == n.id && e.0 in ParentsFromNode(n) {
      RefEdgeFrom(nodes, n, e);
    }
  }

  /** Every reference edge ends at a listed node. */
  lemma {:induction false} RefEdgeTargets(nodes: seq<Node>)
    ensures Targets(set e | e in RefEdges(nodes)) <= NodeIds(nodes)
  {
    forall x | x in Targets(set e | e in RefEdges(nodes))
      ensures x in NodeIds(nodes)
    {
      var e :| e in RefEdges(nodes) && e.1 == x;
      RefEdgeMembers(nodes, e);
    }
  }

  /** `__get_edges_from_nodes`: the inbound edges of every node, in list order. */
  method EdgesFromNodes(nodes: seq<Node>) returns (es: seq<Edge>)
    ensures es == RefEdges(nodes)
  {
    es := [];
    for i := 0 to |nodes|
      invariant es == RefEdges(nodes[..i])
    {
      assert nodes[..i + 1][..i] == nodes[..i];
      es := es + EdgesToNode(nodes[i]);
    }
    assert nodes[..|nodes|] == nodes;
  }

  function RefEdgeSet(nodes: seq<Node>): set<Edge>
  {
    set e | e in RefEdges(nodes)
  }

  // ---------------------------------------------------------------- line-number edges

  /** The ids of the data-source nodes of the list, one entry per such node, in list order. */
  function DataSourceIds(nodes: seq<Node>): seq<Id>
    decreases |nodes|
  {
    if nodes == [] then []
    else
      var last := nodes[|nodes| - 1];
      DataSourceIds(nodes[..|nodes| - 1]) + (if last.kind.DataSourceNode? then [last.id] else [])
  }

  /** Every call node of the list records its source line. */
  predicate LinenosKnown(nodes: seq<Node>)
  {
    forall n | n in nodes && n.kind.CallNode? :: n.span.lineno.Some?
  }

  /** The source line of an indexed node (0 when it has none, which `LinenosKnown` rules out for calls). */
  function Line(ids: map<Id, Node>, x: Id): int
  {
    if x in ids && ids[x].span.lineno.Some? then ids[x].span.lineno.value else 0
  }

  /** The sort key of the line-number pass. */
  function LineKey(ids: map<Id, Node>): Id -> int
  {
    x => Line(ids, x)
  }

  /** The call nodes reachable from `src` along the reference edges `E0`. */
  function CallDescendants(ids: map<Id, Node>, E0: set<Edge>, src: Id): set<Id>
  {
    set x | x in Descendants(E0, src) && x in ids && ids[x].kind.CallNode?
  }

  /** `s` lists the ids of `D` once each, in ascending line order (ties in any order). */
  ghost predicate IsLinenoOrder(ids: map<Id, Node>, D: set<Id>, s: seq<Id>)
  {
    multiset(s) == multiset(D) && Sorting.SortedBy(s, LineKey(ids))
  }

  /** One line-ordered listing of the call descendants of each data-source node, in list order. */
  ghost predicate LinenoOrders(nodes: seq<Node>, ids: map<Id, Node>, E0: set<Edge>, orders: seq<seq<Id>>)
  {
    var srcs := DataSourceIds(nodes);
    && |orders| == |srcs|
    && forall i :: 0 <= i < |orders| ==> IsLinenoOrder(ids, CallDescendants(ids, E0, srcs[i]), orders[i])
  }

  /** The pairs of neighbours in `s`, earlier to later, that no edge of `E0` joins in either direction. */
  function Consecutive(E0: set<Edge>, s: seq<Id>): seq<Edge>
    decreases |s|
  {
    if |s| < 2 then []
    else
      var a, b := s[|s| - 2], s[|s| - 1];
      Consecutive(E0, s[..|s| - 1]) + (if (a, b) in E0 || (b, a) in E0 then [] else [(a, b)])
  }

  /** The line-number edges of every listing, in order. */
  function LineEdges(E0: set<Edge>, orders: seq<seq<Id>>): seq<Edge>
    decreases |orders|
  {
    if orders == [] then []
    else LineEdges(E0, orders[..|orders| - 1]) + Consecutive(E0, orders[|orders| - 1])
  }

  /** A neighbour pair becomes an edge exactly when no reference edge joins it either way. */
  lemma {:induction false} ConsecutiveMembers(E0: set<Edge>, s: seq<Id>, e: Edge)
    ensures e in Consecutive(E0, s) <==>
      exists d :: 0 <= d < |s| - 1 && e == (s[d], s[d + 1]) && (s[d], s[d + 1]) !in E0 && (s[d + 1], s[d]) !in E0
    decreases |s|
  {
    if |s| >= 2 {
      var front := s[..|s| - 1];
      ConsecutiveMembers(E0, front, e);
      assert forall d :: 0 <= d < |front| ==> front[d] == s[d];
    }
  }

  lemma {:induction false} LineEdgeMembers(E0: set<Edge>, orders: seq<seq<Id>>, e: Edge)
    ensures e in LineEdges(E0, orders) <==> exists i :: 0 <= i < |orders| && e in Consecutive(E0, orders[i])
    decreases |orders|
  {
    if orders != [] {
      var front := orders[..|orders| - 1];
      LineEdgeMembers(E0, front, e);
      assert forall i :: 0 <= i < |front| ==> front[i] == orders[i];
    }
  }

  /**
   * Each line-number edge joins two call nodes that are neighbours in the line
   * order of one data source's call descendants, points from the earlier line
   * to the later, and stands where no reference edge joined them either way.
   */
  lemma {:induction false} LineEdgeShape(nodes: seq<Node>, ids: map<Id, Node>, E0: set<Edge>, orders: seq<seq<Id>>, e: Edge)
    requires LinenoOrders(nodes, ids, E0, orders)
    requires e in LineEdges(E0, orders)
    ensures exists i, d ::
      && 0 <= i < |orders| && 0 <= d < |orders[i]| - 1
      && e == (orders[i][d], orders[i][d + 1])
      && e.0 in CallDescendants(ids, E0, DataSourceIds(nodes)[i])
      && e.1 in CallDescendants(ids, E0, DataSourceIds(nodes)[i])
      && Line(ids, e.0) <= Line(ids, e.1)
      && e !in E0 && (e.1, e.0) !in E0
  {
    var i := LineEdgeListing(E0, orders, e);
    var d := ConsecutivePosition(E0, orders[i], e);
    NeighbourInOrder(ids, CallDescendants(ids, E0, DataSourceIds(nodes)[i]), orders[i], d);
  }

  /** The listing a line-number edge comes from. */
  lemma LineEdgeListing(E0: set<Edge>, orders: seq<seq<Id>>, e: Edge) returns (i: int)
    requires e in LineEdges(E0, orders)
    ensures 0 <= i < |orders| && e in Consecutive(E0, orders[i])
  {
    LineEdgeMembers(E0, orders, e);
    i :| 0 <= i < |orders| && e in Consecutive(E0, orders[i]);
  }

  /** The position in `s` of the neighbour pair an edge of `Consecutive(E0, s)` joins. */
  lemma ConsecutivePosition(E0: set<Edge>, s: seq<Id>, e: Edge) returns (d: int)
    requires e in Consecutive(E0, s)
    ensures 0 <= d < |s| - 1 && e == (s[d], s[d + 1]) && e !in E0 && (e.1, e.0) !in E0
  {
    ConsecutiveMembers(E0, s, e);
    d :| 0 <= d < |s| - 1 && e == (s[d], s[d + 1]) && (s[d], s[d + 1]) !in E0 && (s[d + 1], s[d]) !in E0;
  }

  /** Neighbours in a line order are both listed ids, the earlier on a line no later. */
  lemma NeighbourInOrder(ids: map<Id, Node>, D: set<Id>, s: seq<Id>, d: int)
    requires IsLinenoOrder(ids, D, s) && 0 <= d < |s| - 1
    ensures s[d] in D && s[d + 1] in D && Line(ids, s[d]) <= Line(ids, s[d + 1])
  {
    assert s[d] in multiset(s) && s[d + 1] in multiset(s);
    assert LineKey(ids)(s[d]) <= LineKey(ids)(s[d + 1]);
  }

  /** Conversely, every unjoined neighbour pair of a listing is a line-number edge. */
  lemma {:induction false} NeighboursAreJoined(E0: set<Edge>, orders: seq<seq<Id>>, i: int, d: int)
    requires 0 <= i < |orders| && 0 <= d < |orders[i]| - 1
    requires (orders[i][d], orders[i][d + 1]) !in E0 && (orders[i][d + 1], orders[i][d]) !in E0
    ensures (orders[i][d], orders[i][d + 1]) in LineEdges(E0, orders)
  {
    ConsecutiveMembers(E0, orders[i], (orders[i][d], orders[i][d + 1]));
    LineEdgeMembers(E0, orders, (orders[i][d], orders[i][d + 1]));
  }

  /** Both ends of every line-number edge are indexed call nodes. */
  lemma {:induction false} LineEdgeTargets(nodes: seq<Node>, ids: map<Id, Node>, E0: set<Edge>, orders: seq<seq<Id>>)
    requires LinenoOrders(nodes, ids, E0, orders)
    ensures forall e | e in LineEdges(E0, orders) :: e.0 in ids && e.1 in ids
  {
    forall e | e in LineEdges(E0, orders)
      ensures e.0 in ids && e.1 in ids
    {
      LineEdgeShape(nodes, ids, E0, orders, e);
    }
  }

  /**
   * Every descendant along the reference edges is a listed node, so the strict
   * lookup the line-number pass makes of each descendant never raises.
   */
  lemma {:induction false} ReferenceDescendantsIndexed(nodes: seq<Node>, src: Id)
    ensures Descendants(RefEdgeSet(nodes), src) <= IdIndex(nodes).Keys
  {
    RefEdgeTargets(nodes);
  }

  /** Lists a set in some order; the order is not specified. */
  method Enumerate(D: set<Id>) returns (s: seq<Id>)
    ensures multiset(s) == multiset(D)
  {
    s := [];
    var rest := D;
    while rest != {}
      invariant multiset(s) + multiset(rest) == multiset(D)
      decreases |rest|
    {
      var x :| x in rest;
      assert rest == (rest - {x}) + {x};
      s := s + [x];
      rest := rest - {x};
    }
  }

  /** The inner loop of the pass: join each unjoined neighbour pair of one line-ordered listing. */
  method JoinNeighbours(E0: set<Edge>, sorted: seq<Id>) returns (es: seq<Edge>)
    ensures es == Consecutive(E0, sorted)
  {
    es := [];
    if sorted != [] {
      for d := 0 to |sorted| - 1
        invariant es == Consecutive(E0, sorted[..d + 1])
      {
        var a, b := sorted[d], sorted[d + 1];
        assert sorted[..d + 2][..d + 1] == sorted[..d + 1];
        if !((a, b) in E0 || (b, a) in E0) {
          es := es + [(a, b)];
        }
      }
      assert sorted[..|sorted|] == sorted;
    }
  }

  lemma {:induction false} LinenoOrdersSnoc(nodes: seq<Node>, n: Node, ids: map<Id, Node>, E0: set<Edge>, orders: seq<seq<Id>>, s: seq<Id>)
    requires LinenoOrders(nodes, ids, E0, orders)
    ensures !n.kind.DataSourceNode? ==> LinenoOrders(nodes + [n], ids, E0, orders)
    ensures n.kind.DataSourceNode? && IsLinenoOrder(ids, CallDescendants(ids, E0, n.id), s) ==>
              LinenoOrders(nodes + [n], ids, E0, orders + [s])
  {
    assert (nodes + [n])[..|nodes|] == nodes;
  }

  /**
   * `__get_edges_from_line_number`, run against the reference edges `E0`
   * alone: the graph does not yet hold the edges this pass produces, so both
   * the descendant search and the "already joined" test see only `E0`.
   * The result is the edges of some line order of each data source's descendants.
   */
  method LineNumberEdges(nodes: seq<Node>, ids: map<Id, Node>, E0: set<Edge>) returns (es: seq<Edge>)
    ensures exists orders :: LinenoOrders(nodes, ids, E0, orders) && es == LineEdges(E0, orders)
  {
    es := [];
    ghost var orders := [];
    for i := 0 to |nodes|
      invariant LinenoOrders(nodes[..i], ids, E0, orders)
      invariant es == LineEdges(E0, orders)
    {
      var n := nodes[i];
      assert nodes[..i + 1] == nodes[..i] + [n];
      if n.kind.DataSourceNode? {
        var listed := Enumerate(CallDescendants(ids, E0, n.id));
        var sorted := Sorting.SortBy(listed, LineKey(ids));
        var joined := JoinNeighbours(E0, sorted);
        LinenoOrdersSnoc(nodes[..i], n, ids, E0, orders, sorted);
        var orders' := orders + [sorted];
        assert orders'[..|orders'| - 1] == orders;
        es := es + joined;
        orders := orders';
      } else {
        LinenoOrdersSnoc(nodes[..i], n, ids, E0, orders, []);
      }
    }
    assert nodes[..|nodes|] == nodes;
    assert LinenoOrders(nodes, ids, E0, orders) && es == LineEdges(E0, orders);
  }

  // ---------------------------------------------------------------- construction

  /** All edges of the graph: the reference edges and the line-number edges. */
  function AllEdges(nodes: seq<Node>, lineEdges: seq<Edge>): set<Edge>
  {
    RefEdgeSet(nodes) + set e | e in lineEdges
  }

  /** The outcome of building from `nodes` given the line-number edges: the graph, or `InternalLogicError` on a cycle. */
  ghost function Built(nodes: seq<Node>, session: SessionContext, lineEdges: seq<Edge>): Result<Graph, GraphError>
  {
    var E := AllEdges(nodes, lineEdges);
    if Acyclic(E) then
      Ok(Graph(nodes, IdIndex(nodes), RefEdges(nodes), E, NodeIds(nodes) + Sources(E) + Targets(E), session))
    else
      Err(InternalLogicError)
  }

  /** What every constructed graph satisfies. */
  ghost predicate Valid(g: Graph)
  {
    && g.ids == IdIndex(g.nodes)
    && g.refEdges == RefEdges(g.nodes)
    && RefEdgeSet(g.nodes) <= g.edges
    && Targets(g.edges) <= g.ids.Keys
    && g.vertices == NodeIds(g.nodes) + Sources(g.edges) + Targets(g.edges)
    && Acyclic(g.edges)
  }

  /**
   * `Graph(nodes, session_context)`: index the nodes, derive the reference
   * edges, add the line-number edges, and raise `InternalLogicError` if the
   * result has a cycle.
   */
  method NewGraph(nodes: seq<Node>, session: SessionContext) returns (r: Result<Graph, GraphError>)
    requires LinenosKnown(nodes)
    ensures exists orders :: LinenoOrders(nodes, IdIndex(nodes), RefEdgeSet(nodes), orders)
                          && r == Built(nodes, session, LineEdges(RefEdgeSet(nodes), orders))
    ensures r.Ok? ==> Valid(r.value) && r.value.nodes == nodes && r.value.session == session
  {
    var ids := map[];
    for i := 0 to |nodes|
      invariant ids == IdIndex(nodes[..i])
    {
      assert nodes[..i + 1][..i] == nodes[..i];
      ids := ids[nodes[i].id := nodes[i]];
    }
    assert nodes[..|nodes|] == nodes;
    var refEdges := EdgesFromNodes(nodes);
    var E0 := set e | e in refEdges;
    var lineEdges := LineNumberEdges(nodes, ids, E0);
    ghost var orders :| LinenoOrders(nodes, ids, E0, orders) && lineEdges == LineEdges(E0, orders);
    var E := E0 + set e | e in lineEdges;
    var V := NodeIds(nodes) + Sources(E) + Targets(E);
    assert E == AllEdges(nodes, lineEdges);
    IsDagIffAcyclic(V, E);
    if !IsDag(V, E) {
      r := Err(InternalLogicError);
    } else {
      r := Ok(Graph(nodes, ids, refEdges, E, V, session));
      RefEdgeTargets(nodes);
      LineEdgeTargets(nodes, ids, E0, orders);
      assert Targets(E) <= ids.Keys;
    }
    assert LinenoOrders(nodes, IdIndex(nodes), RefEdgeSet(nodes), orders);
  }

  /** A reference cycle between two state-change nodes (a read of one, a write of the other) makes construction fail. */
  lemma {:induction false} StateChangeCycleFails(nodes: seq<Node>, session: SessionContext, lineEdges: seq<Edge>, a: Node, b: Node)
    requires a in nodes && b in nodes
    requires a.kind.StateChangeNode? && a.kind.stateDependencyType == Read && a.kind.initialValueNodeId == b.id
    requires b.kind.StateChangeNode? && b.kind.stateDependencyType == Write && b.kind.associatedNodeId == a.id
    ensures Built(nodes, session, lineEdges) == Err(InternalLogicError)
  {
    var E := AllEdges(nodes, lineEdges);
    assert ParentsFromNode(a) == [b.id] && ParentsFromNode(b) == [a.id];
    RefEdgeFrom(nodes, a, (b.id, a.id));
    RefEdgeFrom(nodes, b, (a.id, b.id));
    EdgeReaches(E, a.id, b.id);
    ReachesThenEdge(E, a.id, b.id, a.id);
  }

  /** `get_subgraph`: a fresh graph over the given nodes that shares this graph's session. */
  method GetSubgraph(g: Graph, nodes: seq<Node>) returns (r: Result<Graph, GraphError>)
    requires LinenosKnown(nodes)
    ensures exists orders :: LinenoOrders(nodes, IdIndex(nodes), RefEdgeSet(nodes), orders)
                          && r == Built(nodes, g.session, LineEdges(RefEdgeSet(nodes), orders))
    ensures r.Ok? ==> Valid(r.value) && r.value.nodes == nodes && r.value.session == g.session
  {
    r := NewGraph(nodes, g.session);
  }

  // ---------------------------------------------------------------- structural queries

  /** `visit_order`: every vertex exactly once, with every edge pointing forward. */
  method VisitOrder(g: Graph) returns (o: seq<Id>)
    requires Valid(g)
    ensures IsTopologicalOrder(g.vertices, g.edges, o)
  {
    o := TopologicalSort(g.vertices, g.edges);
  }

  /** `get_parents`: the direct predecessors; the engine raises for an id that is not a vertex. */
  function GetParents(g: Graph, n: Node): (r: Result<set<Id>, GraphError>)
    ensures r.Err? <==> n.id !in g.vertices
    ensures r.Err? ==> r.error == NetworkXError
    ensures r.Ok? ==> forall u :: u in r.value <==> (u, n.id) in g.edges
  {
    if n.id in g.vertices then Ok(Predecessors(g.edges, n.id)) else Err(NetworkXError)
  }

  /** `get_children`: the direct successors. */
  function GetChildren(g: Graph, n: Node): (r: Result<set<Id>, GraphError>)
    ensures r.Err? <==> n.id !in g.vertices
    ensures r.Err? ==> r.error == NetworkXError
    ensures r.Ok? ==> forall w :: w in r.value <==> (n.id, w) in g.edges
  {
    if n.id in g.vertices then
      var r := Successors(g.edges, {n.id});
      assert forall w | w in r :: (n.id, w) in g.edges;
      Ok(r)
    else
      Err(NetworkXError)
  }

  /** `get_ancestors`: every vertex from which the given one is reachable. */
  function GetAncestors(g: Graph, id: Id): (r: Result<set<Id>, GraphError>)
    ensures r.Err? <==> id !in g.vertices
    ensures r.Err? ==> r.error == NetworkXError
    ensures r.Ok? ==> forall u :: u in r.value <==> Reaches(g.edges, u, id)
  {
    if id in g.vertices then
      var r := Ancestors(g.edges, id);
      assert forall u :: u in r <==> Reaches(g.edges, u, id) by {
        forall u ensures u in r <==> Reaches(g.edges, u, id) {
          AncestorsReach(g.edges, u, id);
        }
      }
      Ok(r)
    else
      Err(NetworkXError)
  }

  /** `get_descendants`: every vertex reachable from the given node. */
  function GetDescendants(g: Graph, n: Node): (r: Result<set<Id>, GraphError>)
    ensures r.Err? <==> n.id !in g.vertices
    ensures r.Err? ==> r.error == NetworkXError
    ensures r.Ok? ==> forall v :: v in r.value <==> Reaches(g.edges, n.id, v)
  {
    if n.id in g.vertices then
      var r := Descendants(g.edges, n.id);
      assert forall v :: v in r <==> Reaches(g.edges, n.id, v) by {
        forall v ensures v in r <==> Reaches(g.edges, n.id, v) {
          DescendantsReach(g.edges, n.id, v);
        }
      }
      Ok(r)
    else
      Err(NetworkXError)
  }

  /** u is an ancestor of v exactly when v is a descendant of u. */
  lemma {:induction false} AncestorsDescendantsAgree(g: Graph, u: Node, v: Node)
    requires u.id in g.vertices && v.id in g.vertices
    ensures u.id in GetAncestors(g, v.id).value <==> v.id in GetDescendants(g, u).value
  {
  }

  /** Parents are ancestors and children are descendants. */
  lemma {:induction false} OneStepIsReachable(g: Graph, n: Node, x: Id)
    requires n.id in g.vertices
    ensures x in GetParents(g, n).value ==> x in GetAncestors(g, n.id).value
    ensures x in GetChildren(g, n).value ==> x in GetDescendants(g, n).value
  {
    if (x, n.id) in g.edges {
      EdgeReaches(g.edges, x, n.id);
    }
    if (n.id, x) in g.edges {
      EdgeReaches(g.edges, n.id, x);
    }
  }

  /** A node with no inbound edge has no ancestor (it is a root). */
  lemma {:induction false} NoParentsNoAncestors(g: Graph, n: Node)
    requires n.id in g.vertices && GetParents(g, n).value == {}
    ensures GetAncestors(g, n.id).value == {}
  {
    assert n.id !in Targets(g.edges);
    forall u ensures !Reaches(g.edges, u, n.id) {
      ReachesEndpoints(g.edges, u, n.id);
    }
  }

  /** `get_leaf_nodes`: the vertices with no outbound edge. */
  function LeafNodes(g: Graph): (r: set<Id>)
    ensures forall v :: v in r <==> v in g.vertices && forall w :: (v, w) !in g.edges
  {
    set v | v in g.vertices && forall e | e in g.edges :: e.0 != v
  }

  /** The vertex a visit order ends with is a leaf. */
  lemma {:induction false} LastVisitedIsLeaf(g: Graph, o: seq<Id>)
    requires Valid(g) && IsTopologicalOrder(g.vertices, g.edges, o) && |o| > 0
    ensures o[|o| - 1] in LeafNodes(g)
  {
    assert o[|o| - 1] in multiset(o);
    forall e | e in g.edges ensures e.0 != o[|o| - 1] {
      LastIsSink(g.vertices, g.edges, o, e.1);
    }
  }

  /**
   * A listed node's reference to an id that no node carries still yields a
   * vertex; it has no parents, so it is a root of the graph.
   */
  lemma {:induction false} DanglingReferenceIsRoot(g: Graph, n: Node, x: Id)
    requires Valid(g) && n in g.nodes && x in ParentsFromNode(n) && x !in g.ids
    ensures x in g.vertices
    ensures forall u :: (u, x) !in g.edges
  {
    RefEdgeMembers(g.nodes, (x, n.id));
    assert x in Sources(g.edges);
  }

  // ---------------------------------------------------------------- lookup

  /** `get_node`: the indexed node, or None for a missing or absent id. */
  function GetNode(g: Graph, id: Option<Id>): (r: Option<Node>)
    ensures r.None? <==> id.None? || id.value !in g.ids
    ensures r.Some? ==> r.value == g.ids[id.value]
  {
    if id.Some? && id.value in g.ids then Some(g.ids[id.value]) else None
  }

  /** A found node carries the id it was looked up by and is one of the listed nodes, the last with that id. */
  lemma {:induction false} GetNodeFindsListed(g: Graph, id: Id)
    requires Valid(g) && id in g.ids
    ensures GetNode(g, Some(id)).value.id == id
    ensures exists i :: 0 <= i < |g.nodes| && LastWithId(g.nodes, i) && g.nodes[i] == GetNode(g, Some(id)).value
  {
    var n := g.ids[id];
    var i :| 0 <= i < |g.nodes| && g.nodes[i] == n;
    while !LastWithId(g.nodes, i)
      invariant 0 <= i < |g.nodes| && g.nodes[i].id == id
      decreases |g.nodes| - i
    {
      var j :| i < j < |g.nodes| && g.nodes[j].id == id;
      i := j;
    }
    IdIndexLastWins(g.nodes, i);
  }

  /** `get_node_else_raise`: the same node as `get_node`, but `NullValueError` where that gives None. */
  function GetNodeElseRaise(g: Graph, id: Option<Id>): (r: Result<Node, GraphError>)
    ensures r.Err? <==> GetNode(g, id).None?
    ensures r.Err? ==> r.error == NullValueError
    ensures r.Ok? ==> r.value == GetNode(g, id).value
  {
    if id.None? || id.value !in g.ids then Err(NullValueError) else Ok(g.ids[id.value])
  }

  // ---------------------------------------------------------------- values

  /** What `get_node_value` can return: a runtime object, or a data source's access path (a string). */
  datatype NodeValue = Runtime(obj: Value) | AccessPath(path: string)

  function Lift(v: Option<Value>): Option<NodeValue>
  {
    if v.Some? then Some(Runtime(v.value)) else None
  }

  /** `n` is the node the index holds under its id. */
  predicate Indexed(g: Graph, n: Node)
  {
    n.id in g.ids && g.ids[n.id] == n
  }

  /** A reference of an indexed node is an edge into it, so the referenced id has strictly fewer ancestors. */
  lemma {:induction false} ReferenceShrinksAncestors(g: Graph, n: Node, x: Id)
    requires Valid(g) && Indexed(g, n) && x in ParentsFromNode(n)
    ensures (x, n.id) in g.edges
    ensures |Ancestors(g.edges, x)| < |Ancestors(g.edges, n.id)|
  {
    RefEdgeMembers(g.nodes, (x, n.id));
    AncestorsShrink(g.edges, x, n.id);
  }

  lemma {:induction false} AncestorsBounded(g: Graph, x: Id)
    requires Valid(g)
    ensures |Ancestors(g.edges, x)| <= |g.vertices|
  {
    assert Sources(g.edges) <= g.vertices by {
      assert g.vertices == NodeIds(g.nodes) + Sources(g.edges) + Targets(g.edges);
    }
    AncestorsWithin(g.edges, x, g.vertices);
  }

  /**
   * The rest of an alias chain once it has reached the indexed node `s`:
   * follow variable nodes to the first other node and yield its own stored
   * value. A missing id on the way leaves None in hand, and reading `.value`
   * of None fails.
   */
  function AliasValue(g: Graph, s: Node): (r: Result<Option<NodeValue>, GraphError>)
    requires Valid(g) && Indexed(g, s)
    ensures r.Err? ==> r.error == AttributeError
    decreases |Ancestors(g.edges, s.id)|
  {
    match s.kind
    case VariableNode(t) =>
      if t in g.ids then
        ReferenceShrinksAncestors(g, s, t);
        AliasValue(g, g.ids[t])
      else
        Err(AttributeError)
    case _ => Ok(Lift(s.value))
  }

  /** Termination measure of value resolution: indexed nodes by their ancestor count, any other node above all of them. */
  function Rank(g: Graph, n: Option<Node>): nat
  {
    if n.None? then 0
    else if Indexed(g, n.value) then |Ancestors(g.edges, n.value.id)| + 1
    else |g.vertices| + 2
  }

  lemma {:induction false} ArgumentRankDecreases(g: Graph, n: Node)
    requires Valid(g) && n.kind.ArgumentNode? && n.kind.valueNodeId.Some?
    ensures Rank(g, GetNode(g, n.kind.valueNodeId)) < Rank(g, Some(n))
  {
    var x := n.kind.valueNodeId.value;
    if x in g.ids {
      AncestorsBounded(g, x);
      if Indexed(g, n) {
        ReferenceShrinksAncestors(g, n, x);
      }
    }
  }

  /**
   * `get_node_value`. A variable node resolves through its alias chain, where
   * only a missing first hop is lenient (None); an argument prefers its literal,
   * then the value of the node it refers to; a data source yields its access
   * path, an import its module, any other node its stored value. The only
   * exception it raises is the attribute read on None deeper in a chain.
   */
  function ValueOf(g: Graph, n: Option<Node>): (r: Result<Option<NodeValue>, GraphError>)
    requires Valid(g)
    ensures r.Err? ==> r.error == AttributeError
    decreases Rank(g, n)
  {
    match n
    case None => Ok(None)
    case Some(node) =>
      match node.kind
      case VariableNode(src) =>
        if src in g.ids then AliasValue(g, g.ids[src]) else Ok(None)
      case ArgumentNode(_, _, ref, literal) =>
        if literal.Some? then Ok(Some(Runtime(literal.value)))
        else if ref.Some? then
          ArgumentRankDecreases(g, node);
          ValueOf(g, GetNode(g, ref))
        else Ok(None)
      case DataSourceNode(path) => Ok(Some(AccessPath(path)))
      case ImportNode(_, _, _, m) => Ok(Lift(m))
      case _ => Ok(Lift(node.value))
  }

  /** `get_node_value`, walking the alias chain with a loop. */
  method GetNodeValue(g: Graph, n: Option<Node>) returns (r: Result<Option<NodeValue>, GraphError>)
    requires Valid(g)
    ensures r == ValueOf(g, n)
    decreases Rank(g, n)
  {
    if n.None? {
      return Ok(None);
    }
    var node := n.value;
    match node.kind {
      case VariableNode(src) =>
        var source := GetNode(g, Some(src));
        if source.None? {
          return Ok(None);
        }
        if source.value.kind.VariableNode? {
          while source.Some? && source.value.kind.VariableNode?
            invariant source.Some? ==> Indexed(g, source.value)
            invariant AliasValue(g, g.ids[src]) == if source.Some? then AliasValue(g, source.value) else Err(AttributeError)
            decreases if source.Some? then |Ancestors(g.edges, source.value.id)| + 1 else 0
          {
            ReferenceShrinksAncestors(g, source.value, source.value.kind.sourceVariableId);
            source := GetNode(g, Some(source.value.kind.sourceVariableId));
          }
        }
        if source.None? {
          return Err(AttributeError);
        }
        return Ok(Lift(source.value.value));
      case ArgumentNode(_, _, ref, literal) =>
        if literal.Some? {
          return Ok(Some(Runtime(literal.value)));
        } else if ref.Some? {
          ArgumentRankDecreases(g, node);
          r := GetNodeValue(g, GetNode(g, ref));
          return;
        }
        return Ok(None);
      case DataSourceNode(path) =>
        return Ok(Some(AccessPath(path)));
      case ImportNode(_, _, _, m) =>
        return Ok(Lift(m));
      case _ =>
        return Ok(Lift(node.value));
    }
  }

  /** `get_node_value_from_id`: look the id up, then resolve. */
  method GetNodeValueFromId(g: Graph, id: Option<Id>) returns (r: Result<Option<NodeValue>, GraphError>)
    requires Valid(g)
    ensures r == ValueOf(g, GetNode(g, id))
  {
    r := GetNodeValue(g, GetNode(g, id));
  }

  /** `c` is an alias chain of indexed nodes: each but the last a variable node referring to the next. */
  ghost predicate IsAliasChain(g: Graph, c: seq<Node>)
  {
    && (forall i :: 0 <= i < |c| ==> Indexed(g, c[i]))
    && (forall i :: 0 <= i < |c| - 1 ==> c[i].kind.VariableNode? && c[i + 1].id == c[i].kind.sourceVariableId)
  }

  lemma {:induction false} ChainTail(g: Graph, c: seq<Node>)
    requires Valid(g) && IsAliasChain(g, c) && |c| >= 2
    ensures IsAliasChain(g, c[1..])
    ensures c[0].kind.VariableNode? && c[0].kind.sourceVariableId in g.ids && g.ids[c[0].kind.sourceVariableId] == c[1]
  {
    assert Indexed(g, c[1]);
  }

  /** Along a complete chain the value is the stored value of its last node, whatever its length. */
  lemma {:induction false} AliasValueOfChain(g: Graph, c: seq<Node>)
    requires Valid(g) && IsAliasChain(g, c) && |c| >= 1 && !c[|c| - 1].kind.VariableNode?
    ensures AliasValue(g, c[0]) == Ok(Lift(c[|c| - 1].value))
    decreases |c|
  {
    if |c| >= 2 {
      ChainTail(g, c);
      AliasValueOfChain(g, c[1..]);
    }
  }

  /** Along a chain of variable nodes whose last refers to a missing id, resolution fails. */
  lemma {:induction false} AliasValueOfBrokenChain(g: Graph, c: seq<Node>)
    requires Valid(g) && IsAliasChain(g, c) && |c| >= 1
    requires c[|c| - 1].kind.VariableNode? && c[|c| - 1].kind.sourceVariableId !in g.ids
    ensures AliasValue(g, c[0]) == Err(AttributeError)
    decreases |c|
  {
    if |c| >= 2 {
      ChainTail(g, c);
      AliasValueOfBrokenChain(g, c[1..]);
    }
  }

  /**
   * A variable node heading a complete alias chain resolves to the raw stored
   * value of the chain's last node, for every chain length; the last node's
   * access path or module is not consulted.
   */
  lemma {:induction false} AliasChainResolves(g: Graph, head: Node, c: seq<Node>)
    requires Valid(g) && head.kind.VariableNode?
    requires IsAliasChain(g, c) && |c| >= 1 && c[0].id == head.kind.sourceVariableId
    requires !c[|c| - 1].kind.VariableNode?
    ensures ValueOf(g, Some(head)) == Ok(Lift(c[|c| - 1].value))
  {
    AliasValueOfChain(g, c);
  }

  /**
   * A broken alias chain: with no first hop the result is None; with at least
   * one hop, the missing id further on makes resolution fail.
   */
  lemma {:induction false} BrokenAliasChain(g: Graph, head: Node, c: seq<Node>)
    requires Valid(g) && head.kind.VariableNode?
    requires c == [] ==> head.kind.sourceVariableId !in g.ids
    requires c != [] ==> IsAliasChain(g, c) && c[0].id == head.kind.sourceVariableId
                         && c[|c| - 1].kind.VariableNode? && c[|c| - 1].kind.sourceVariableId !in g.ids
    ensures ValueOf(g, Some(head)) == if c == [] then Ok(None) else Err(AttributeError)
  {
    if c != [] {
      AliasValueOfBrokenChain(g, c);
    }
  }

  // ---------------------------------------------------------------- call arguments

  /** The arguments of a call: positional values in position order, and keyword values by name. */
  datatype CallArguments = CallArguments(positional: seq<Option<NodeValue>>, keyword: map<string, Option<NodeValue>>)

  /** What the argument loop has gathered: the keyword-less argument nodes in order, and the keyword values. */
  type Gathered = (seq<Node>, map<string, Option<NodeValue>>)

  /**
   * The loop over a call's argument ids: a missing id raises
   * `NullValueError`; a node that is not an argument has no `keyword`; a
   * keyword argument stores its value under its name, replacing an earlier
   * one; any other argument node is kept for sorting.
   */
  function Collect(g: Graph, args: seq<Id>): Result<Gathered, GraphError>
    requires Valid(g)
    decreases |args|
  {
    if args == [] then Ok(([], map[]))
    else
      match Collect(g, args[..|args| - 1])
      case Err(e) => Err(e)
      case Ok(acc) =>
        match GetNodeElseRaise(g, Some(args[|args| - 1]))
        case Err(e) => Err(e)
        case Ok(n) =>
          if !n.kind.ArgumentNode? then Err(AttributeError)
          else if n.kind.keyword.Some? then
            match ValueOf(g, Some(n))
            case Err(e) => Err(e)
            case Ok(v) => Ok((acc.0, acc.1[n.kind.keyword.value := v]))
          else Ok((acc.0 + [n], acc.1))
  }

  /** The values of a list of nodes, or the first failure. */
  function ValuesOf(g: Graph, s: seq<Node>): (r: Result<seq<Option<NodeValue>>, GraphError>)
    requires Valid(g)
    ensures r.Ok? ==> |r.value| == |s| && forall i :: 0 <= i < |s| ==> ValueOf(g, Some(s[i])) == Ok(r.value[i])
    ensures r.Err? ==> r.error == AttributeError
    decreases |s|
  {
    if s == [] then Ok([])
    else
      var front := s[..|s| - 1];
      match ValuesOf(g, front)
      case Err(e) => Err(e)
      case Ok(vs) =>
        match ValueOf(g, Some(s[|s| - 1]))
        case Err(e) => Err(e)
        case Ok(v) =>
          ValuesSnoc(g, s, front, vs, v);
          Ok(vs + [v])
  }

  lemma ValuesSnoc(g: Graph, s: seq<Node>, front: seq<Node>, vs: seq<Option<NodeValue>>, v: Option<NodeValue>)
    requires Valid(g) && s != [] && front == s[..|s| - 1]
    requires |vs| == |front| && forall i :: 0 <= i < |front| ==> ValueOf(g, Some(front[i])) == Ok(vs[i])
    requires ValueOf(g, Some(s[|s| - 1])) == Ok(v)
    ensures var r := vs + [v];
            |r| == |s| && forall i :: 0 <= i < |s| ==> ValueOf(g, Some(s[i])) == Ok(r[i])
  {
    var r := vs + [v];
    forall i | 0 <= i < |s| ensures ValueOf(g, Some(s[i])) == Ok(r[i]) {
      if i < |front| {
        assert front[i] == s[i] && r[i] == vs[i];
      }
    }
  }

  /** The values fail exactly when some node's value does. */
  lemma {:induction false} ValuesOfFails(g: Graph, s: seq<Node>)
    requires Valid(g)
    ensures ValuesOf(g, s).Err? <==> exists i :: 0 <= i < |s| && ValueOf(g, Some(s[i])).Err?
    decreases |s|
  {
    if s != [] {
      var front := s[..|s| - 1];
      ValuesOfFails(g, front);
      assert forall i :: 0 <= i < |front| ==> front[i] == s[i];
    }
  }

  /**
   * `get_arguments_from_call_node`: the keyword-less arguments, stably sorted
   * by `position` (the argument-position helper), resolved to values; and the
   * keyword values by name.
   */
  function ArgumentsOf(g: Graph, call: Node, position: Node -> int): Result<CallArguments, GraphError>
    requires Valid(g) && call.kind.CallNode?
  {
    match Collect(g, call.kind.arguments)
    case Err(e) => Err(e)
    case Ok(acc) =>
      match ValuesOf(g, Sorting.SortBy(acc.0, position))
      case Err(e) => Err(e)
      case Ok(vs) => Ok(CallArguments(vs, acc.1))
  }

  lemma {:induction false} CollectPrefixError(g: Graph, args: seq<Id>, j: int)
    requires Valid(g) && 0 <= j <= |args| && Collect(g, args[..j]).Err?
    ensures Collect(g, args) == Collect(g, args[..j])
    decreases |args| - j
  {
    if j < |args| {
      assert args[..j + 1][..j] == args[..j];
      CollectPrefixError(g, args, j + 1);
    } else {
      assert args[..j] == args;
    }
  }

  lemma {:induction false} ValuesPrefixError(g: Graph, s: seq<Node>, j: int)
    requires Valid(g) && 0 <= j <= |s| && ValuesOf(g, s[..j]).Err?
    ensures ValuesOf(g, s) == ValuesOf(g, s[..j])
    decreases |s| - j
  {
    if j < |s| {
      assert s[..j + 1][..j] == s[..j];
      ValuesPrefixError(g, s, j + 1);
    } else {
      assert s[..j] == s;
    }
  }

  /** The first loop of `get_arguments_from_call_node`: fetch each argument node and sort it into positional or keyword. */
  method CollectArguments(g: Graph, args: seq<Id>) returns (r: Result<Gathered, GraphError>)
    requires Valid(g)
    ensures r == Collect(g, args)
  {
    var argNodes: seq<Node> := [];
    var kwargValues: map<string, Option<NodeValue>> := map[];
    for i := 0 to |args|
      invariant Collect(g, args[..i]) == Ok((argNodes, kwargValues))
    {
      assert args[..i + 1][..i] == args[..i];
      var found := GetNodeElseRaise(g, Some(args[i]));
      if found.Err? {
        CollectPrefixError(g, args, i + 1);
        return Err(found.error);
      }
      var argument := found.value;
      if !argument.kind.ArgumentNode? {
        CollectPrefixError(g, args, i + 1);
        return Err(AttributeError);
      }
      if argument.kind.keyword.Some? {
        var v := GetNodeValue(g, Some(argument));
        if v.Err? {
          CollectPrefixError(g, args, i + 1);
          return Err(v.error);
        }
        kwargValues := kwargValues[argument.kind.keyword.value := v.value];
      } else {
        argNodes := argNodes + [argument];
      }
    }
    assert args[..|args|] == args;
    r := Ok((argNodes, kwargValues));
  }

  /** One more node: its failure, or its value appended. */
  lemma {:induction false} ValuesExtend(g: Graph, s: seq<Node>, i: int, vs: seq<Option<NodeValue>>)
    requires Valid(g) && 0 <= i < |s| && ValuesOf(g, s[..i]) == Ok(vs)
    ensures ValuesOf(g, s[..i + 1]) == match ValueOf(g, Some(s[i]))
                                      case Err(e) => Err(e)
                                      case Ok(v) => Ok(vs + [v])
  {
    assert s[..i + 1][..i] == s[..i];
  }

  /** The final comprehension: the value of each sorted argument node, in order. */
  method ResolveAll(g: Graph, sorted: seq<Node>) returns (r: Result<seq<Option<NodeValue>>, GraphError>)
    requires Valid(g)
    ensures r == ValuesOf(g, sorted)
  {
    var values := [];
    for i := 0 to |sorted|
      invariant ValuesOf(g, sorted[..i]) == Ok(values)
    {
      var v := GetNodeValue(g, Some(sorted[i]));
      ValuesExtend(g, sorted, i, values);
      if v.Err? {
        ValuesPrefixError(g, sorted, i + 1);
        return Err(v.error);
      }
      values := values + [v.value];
    }
    assert sorted[..|sorted|] == sorted;
    r := Ok(values);
  }

  /** `get_arguments_from_call_node`. */
  method GetArgumentsFromCallNode(g: Graph, call: Node, position: Node -> int) returns (r: Result<CallArguments, GraphError>)
    requires Valid(g) && call.kind.CallNode?
    ensures r == ArgumentsOf(g, call, position)
  {
    var gathered := CollectArguments(g, call.kind.arguments);
    if gathered.Err? {
      return Err(gathered.error);
    }
    var sorted := Sorting.SortBy(gathered.value.0, position);
    var values := ResolveAll(g, sorted);
    if values.Err? {
      return Err(values.error);
    }
    r := Ok(CallArguments(values.value, gathered.value.1));
  }

  /** `a` names an indexed argument node carrying keyword `k`. */
  predicate HasKeyword(g: Graph, a: Id, k: string)
  {
    a in g.ids && g.ids[a].kind.ArgumentNode? && g.ids[a].kind.keyword == Some(k)
  }

  /** The indexed argument nodes among `args` that carry no keyword, in order. */
  function KeywordLessNodes(g: Graph, args: seq<Id>): seq<Node>
    decreases |args|
  {
    if args == [] then []
    else
      var a := args[|args| - 1];
      KeywordLessNodes(g, args[..|args| - 1])
        + (if a in g.ids && g.ids[a].kind.ArgumentNode? && g.ids[a].kind.keyword.None? then [g.ids[a]] else [])
  }

  /** The keywords the indexed argument nodes among `args` carry. */
  function KeywordsOf(g: Graph, args: seq<Id>): set<string>
    decreases |args|
  {
    if args == [] then {}
    else KeywordsOf(g, args[..|args| - 1]) + ArgumentKeyword(g, args[|args| - 1])
  }

  function ArgumentKeyword(g: Graph, a: Id): set<string>
  {
    if a in g.ids && g.ids[a].kind.ArgumentNode? && g.ids[a].kind.keyword.Some? then {g.ids[a].kind.keyword.value} else {}
  }

  /** The argument loop keeps exactly the keyword-less argument nodes and one entry per keyword. */
  lemma {:induction false} CollectShape(g: Graph, args: seq<Id>)
    requires Valid(g) && Collect(g, args).Ok?
    ensures Collect(g, args).value.0 == KeywordLessNodes(g, args)
    ensures Collect(g, args).value.1.Keys == KeywordsOf(g, args)
    decreases |args|
  {
    if args != [] {
      var front := args[..|args| - 1];
      CollectShape(g, front);
    }
  }

  /** A keyword maps to the value of the last argument that carries it. */
  lemma {:induction false} CollectKeywordLastWins(g: Graph, args: seq<Id>, i: int, k: string)
    requires Valid(g) && Collect(g, args).Ok?
    requires 0 <= i < |args| && HasKeyword(g, args[i], k)
    requires forall j :: i < j < |args| ==> !HasKeyword(g, args[j], k)
    ensures k in Collect(g, args).value.1
    ensures ValueOf(g, Some(g.ids[args[i]])) == Ok(Collect(g, args).value.1[k])
    decreases |args|
  {
    var front := args[..|args| - 1];
    if i < |args| - 1 {
      assert forall j :: i < j < |front| ==> front[j] == args[j];
      CollectKeywordLastWins(g, front, i, k);
    }
  }

  lemma {:induction false} CollectMissingFails(g: Graph, args: seq<Id>, i: int)
    requires Valid(g) && 0 <= i < |args| && args[i] !in g.ids
    ensures Collect(g, args).Err?
    decreases |args|
  {
    var front := args[..|args| - 1];
    if i < |args| - 1 {
      assert front[i] == args[i];
      CollectMissingFails(g, front, i);
    }
  }

  lemma {:induction false} CollectNullFromMissing(g: Graph, args: seq<Id>)
    requires Valid(g) && Collect(g, args) == Err(NullValueError)
    ensures exists i :: 0 <= i < |args| && args[i] !in g.ids
    decreases |args|
  {
    var front := args[..|args| - 1];
    var last := args[|args| - 1];
    if Collect(g, front) == Err(NullValueError) {
      CollectNullFromMissing(g, front);
      var i :| 0 <= i < |front| && front[i] !in g.ids;
      assert args[i] == front[i];
    } else {
      assert last !in g.ids;
    }
  }

  /** A missing id reached after the arguments before it went through raises `NullValueError`. */
  lemma {:induction false} CollectMissingRaises(g: Graph, args: seq<Id>, i: int)
    requires Valid(g) && 0 <= i < |args| && args[i] !in g.ids && Collect(g, args[..i]).Ok?
    ensures Collect(g, args) == Err(NullValueError)
  {
    assert args[..i + 1][..i] == args[..i];
    CollectPrefixError(g, args, i + 1);
  }

  /**
   * An argument id that no node carries makes the call fail, with
   * `NullValueError` once the arguments before it went through;
   * `NullValueError` arises only from such an id.
   */
  lemma {:induction false} CollectMissing(g: Graph, args: seq<Id>)
    requires Valid(g)
    ensures (exists i :: 0 <= i < |args| && args[i] !in g.ids) ==> Collect(g, args).Err?
    ensures forall i :: 0 <= i < |args| && args[i] !in g.ids && Collect(g, args[..i]).Ok? ==>
              Collect(g, args) == Err(NullValueError)
    ensures Collect(g, args) == Err(NullValueError) ==> exists i :: 0 <= i < |args| && args[i] !in g.ids
  {
    if i :| 0 <= i < |args| && args[i] !in g.ids {
      CollectMissingFails(g, args, i);
    }
    forall i | 0 <= i < |args| && args[i] !in g.ids && Collect(g, args[..i]).Ok?
      ensures Collect(g, args) == Err(NullValueError)
    {
      CollectMissingRaises(g, args, i);
    }
    if Collect(g, args) == Err(NullValueError) {
      CollectNullFromMissing(g, args);
    }
  }

  /** Every id indexed, every node an argument, every keyword value resolving: the loop succeeds. */
  lemma {:induction false} CollectSucceeds(g: Graph, args: seq<Id>)
    requires Valid(g)
    requires forall a | a in args :: a in g.ids && g.ids[a].kind.ArgumentNode? && ValueOf(g, Some(g.ids[a])).Ok?
    ensures Collect(g, args).Ok?
    decreases |args|
  {
    if args != [] {
      CollectSucceeds(g, args[..|args| - 1]);
    }
  }

  lemma {:induction false} KeywordLessFrom(g: Graph, args: seq<Id>, n: Node)
    requires n in KeywordLessNodes(g, args)
    ensures exists a :: a in args && a in g.ids && g.ids[a] == n
    decreases |args|
  {
    if args != [] {
      var front := args[..|args| - 1];
      if n in KeywordLessNodes(g, front) {
        KeywordLessFrom(g, front, n);
      }
    }
  }

  /**
   * A missing argument id makes `get_arguments_from_call_node` fail, with
   * `NullValueError` once the arguments before it went through, and its
   * `NullValueError` arises only from a missing id.
   */
  lemma {:induction false} ArgumentsMissing(g: Graph, call: Node, position: Node -> int)
    requires Valid(g) && call.kind.CallNode?
    ensures (exists i :: 0 <= i < |call.kind.arguments| && call.kind.arguments[i] !in g.ids) ==>
              ArgumentsOf(g, call, position).Err?
    ensures forall i :: 0 <= i < |call.kind.arguments| && call.kind.arguments[i] !in g.ids &&
                        Collect(g, call.kind.arguments[..i]).Ok? ==>
              ArgumentsOf(g, call, position) == Err(NullValueError)
    ensures ArgumentsOf(g, call, position) == Err(NullValueError) ==>
              exists i :: 0 <= i < |call.kind.arguments| && call.kind.arguments[i] !in g.ids
  {
    CollectMissing(g, call.kind.arguments);
  }

  /** A call whose only argument id no node carries raises `NullValueError`. */
  lemma {:induction false} MissingOnlyArgument(g: Graph, call: Node, position: Node -> int, x: Id)
    requires Valid(g) && call.kind.CallNode? && call.kind.arguments == [x] && x !in g.ids
    ensures ArgumentsOf(g, call, position) == Err(NullValueError)
  {
    ArgumentsMissing(g, call, position);
    assert call.kind.arguments[..0] == [];
    assert call.kind.arguments[0] !in g.ids;
  }

  /** With every argument indexed, an argument node, and resolvable, the call's arguments are returned. */
  lemma {:induction false} ArgumentsSucceed(g: Graph, call: Node, position: Node -> int)
    requires Valid(g) && call.kind.CallNode?
    requires forall a | a in call.kind.arguments ::
               a in g.ids && g.ids[a].kind.ArgumentNode? && ValueOf(g, Some(g.ids[a])).Ok?
    ensures ArgumentsOf(g, call, position).Ok?
  {
    var args := call.kind.arguments;
    CollectSucceeds(g, args);
    CollectShape(g, args);
    var sorted := Sorting.SortBy(Collect(g, args).value.0, position);
    forall i | 0 <= i < |sorted|
      ensures ValueOf(g, Some(sorted[i])).Ok?
    {
      assert sorted[i] in multiset(sorted);
      KeywordLessFrom(g, args, sorted[i]);
    }
    ValuesOfFails(g, sorted);
  }

  /**
   * A successful result holds one positional value per keyword-less argument:
   * the values of those argument nodes stably sorted by position; and one
   * keyword entry per keyword used.
   */
  lemma {:induction false} ArgumentsShape(g: Graph, call: Node, position: Node -> int)
    requires Valid(g) && call.kind.CallNode? && ArgumentsOf(g, call, position).Ok?
    ensures var r := ArgumentsOf(g, call, position).value;
            var plain := KeywordLessNodes(g, call.kind.arguments);
            && |r.positional| == |plain|
            && (exists s ::
                 && multiset(s) == multiset(plain)
                 && Sorting.SortedBy(s, position)
                 && (forall k :: Sorting.WithKey(s, position, k) == Sorting.WithKey(plain, position, k))
                 && |s| == |r.positional|
                 && forall i :: 0 <= i < |s| ==> ValueOf(g, Some(s[i])) == Ok(r.positional[i]))
            && r.keyword.Keys == KeywordsOf(g, call.kind.arguments)
  {
    CollectShape(g, call.kind.arguments);
    var s := Sorting.SortBy(Collect(g, call.kind.arguments).value.0, position);
    assert |s| == |ArgumentsOf(g, call, position).value.positional|;
  }

  /** A keyword maps to the value of the last argument carrying it. */
  lemma {:induction false} ArgumentsKeywordLastWins(g: Graph, call: Node, position: Node -> int, i: int, k: string)
    requires Valid(g) && call.kind.CallNode? && ArgumentsOf(g, call, position).Ok?
    requires 0 <= i < |call.kind.arguments| && HasKeyword(g, call.kind.arguments[i], k)
    requires forall j :: i < j < |call.kind.arguments| ==> !HasKeyword(g, call.kind.arguments[j], k)
    ensures k in ArgumentsOf(g, call, position).value.keyword
    ensures ValueOf(g, Some(g.ids[call.kind.arguments[i]])) == Ok(ArgumentsOf(g, call, position).value.keyword[k])
  {
    CollectKeywordLastWins(g, call.kind.arguments, i, k);
  }

  // ---------------------------------------------------------------- examples

  /** The argument-position helper as the examples take it: an argument's positional order. */
  function PositionalOrder(n: Node): int
  {
    if n.kind.ArgumentNode? && n.kind.positionalOrder.Some? then n.kind.positionalOrder.value else 0
  }

  const NoSpan := Span(None, None, None, None)

  /** `a` names an argument node without a keyword. */
  predicate PlainArgument(g: Graph, a: Id)
  {
    a in g.ids && g.ids[a].kind.ArgumentNode? && g.ids[a].kind.keyword.None?
  }

  lemma {:induction false} CollectPlain(g: Graph, args: seq<Id>, acc: Gathered, a: Id, args': seq<Id>)
    requires Valid(g) && Collect(g, args) == Ok(acc) && PlainArgument(g, a) && args' == args + [a]
    ensures Collect(g, args') == Ok((acc.0 + [g.ids[a]], acc.1))
  {
    assert args'[..|args|] == args;
  }

  lemma {:induction false} CollectKeyword(g: Graph, args: seq<Id>, acc: Gathered, a: Id, v: Option<NodeValue>, args': seq<Id>)
    requires Valid(g) && Collect(g, args) == Ok(acc) && args' == args + [a]
    requires a in g.ids && g.ids[a].kind.ArgumentNode? && g.ids[a].kind.keyword.Some?
    requires ValueOf(g, Some(g.ids[a])) == Ok(v)
    ensures Collect(g, args') == Ok((acc.0, acc.1[g.ids[a].kind.keyword.value := v]))
  {
    assert args'[..|args|] == args;
  }

  lemma {:induction false} CollectTwoPlain(g: Graph, a: Id, b: Id)
    requires Valid(g) && PlainArgument(g, a) && PlainArgument(g, b)
    ensures Collect(g, [a, b]) == Ok(([g.ids[a], g.ids[b]], map[]))
  {
    var n1, n2 := g.ids[a], g.ids[b];
    assert Collect(g, []) == Ok(([], map[]));
    CollectPlain(g, [], ([], map[]), a, [a]);
    assert [] + [n1] == [n1];
    CollectPlain(g, [a], ([n1], map[]), b, [a, b]);
    assert [n1] + [n2] == [n1, n2];
  }

  lemma {:induction false} CollectThreePlain(g: Graph, a: Id, b: Id, c: Id)
    requires Valid(g) && PlainArgument(g, a) && PlainArgument(g, b) && PlainArgument(g, c)
    ensures Collect(g, [a, b, c]) == Ok(([g.ids[a], g.ids[b], g.ids[c]], map[]))
  {
    var n1, n2, n3 := g.ids[a], g.ids[b], g.ids[c];
    CollectTwoPlain(g, a, b);
    CollectPlain(g, [a, b], ([n1, n2], map[]), c, [a, b, c]);
    assert [n1, n2] + [n3] == [n1, n2, n3];
  }

  lemma {:induction false} CollectTwoPlainKeyword(g: Graph, a: Id, b: Id, c: Id, v: Option<NodeValue>)
    requires Valid(g) && PlainArgument(g, a) && PlainArgument(g, b)
    requires c in g.ids && g.ids[c].kind.ArgumentNode? && g.ids[c].kind.keyword.Some?
    requires ValueOf(g, Some(g.ids[c])) == Ok(v)
    ensures Collect(g, [a, b, c]) == Ok(([g.ids[a], g.ids[b]], map[g.ids[c].kind.keyword.value := v]))
  {
    CollectTwoPlain(g, a, b);
    CollectKeyword(g, [a, b], ([g.ids[a], g.ids[b]], map[]), c, v, [a, b, c]);
  }

  lemma {:induction false} ValuesOfPair(g: Graph, x: Node, y: Node, vx: Option<NodeValue>, vy: Option<NodeValue>)
    requires Valid(g) && ValueOf(g, Some(x)) == Ok(vx) && ValueOf(g, Some(y)) == Ok(vy)
    ensures ValuesOf(g, [x, y]) == Ok([vx, vy])
  {
    assert [x][..0] == [];
    assert ValuesOf(g, []) == Ok([]);
    assert ValuesOf(g, [x]) == Ok([] + [vx]);
    assert [x, y][..1] == [x] && [] + [vx] == [vx];
    assert ValuesOf(g, [x, y]) == Ok([vx] + [vy]);
    assert [vx] + [vy] == [vx, vy];
  }

  lemma {:induction false} ValuesOfTriple(g: Graph, x: Node, y: Node, z: Node, vx: Option<NodeValue>, vy: Option<NodeValue>, vz: Option<NodeValue>)
    requires Valid(g) && ValueOf(g, Some(x)) == Ok(vx) && ValueOf(g, Some(y)) == Ok(vy) && ValueOf(g, Some(z)) == Ok(vz)
    ensures ValuesOf(g, [x, y, z]) == Ok([vx, vy, vz])
  {
    ValuesOfPair(g, x, y, vx, vy);
    assert [x, y, z][..2] == [x, y];
    assert ValuesOf(g, [x, y, z]) == Ok([vx, vy] + [vz]);
    assert [vx, vy] + [vz] == [vx, vy, vz];
  }

  lemma {:induction false} ArgumentsFromParts(g: Graph, call: Node, position: Node -> int, acc: Gathered, sorted: seq<Node>, vs: seq<Option<NodeValue>>)
    requires Valid(g) && call.kind.CallNode?
    requires Collect(g, call.kind.arguments) == Ok(acc)
    requires Sorting.SortBy(acc.0, position) == sorted && ValuesOf(g, sorted) == Ok(vs)
    ensures ArgumentsOf(g, call, position) == Ok(CallArguments(vs, acc.1))
  {
  }

  lemma {:induction false} SortOne(z: Node)
    ensures Sorting.SortBy([z], PositionalOrder) == [z]
  {
    assert [z][1..] == [];
  }

  lemma {:induction false} SortStep(s: seq<Node>, t: seq<Node>)
    requires s != [] && s[1..] == t
    ensures Sorting.SortBy(s, PositionalOrder) == Sorting.InsertBefore(Sorting.SortBy(t, PositionalOrder), s[0], PositionalOrder)
  {
  }

  /** The insertion of x behind a single node that sorts below it. */
  lemma {:induction false} InsertBehindOne(y: Node, x: Node)
    requires PositionalOrder(y) < PositionalOrder(x)
    ensures Sorting.InsertBefore([y], x, PositionalOrder) == [y, x]
  {
    Sorting.InsertBeforeStep([y], x, PositionalOrder);
    assert [y][1..] == [];
    Sorting.InsertBeforeStep([], x, PositionalOrder);
    assert [] + [x] == [x] && [y] + [x] == [y, x];
  }

  lemma {:induction false} SortTwo(x: Node, y: Node)
    requires PositionalOrder(y) < PositionalOrder(x)
    ensures Sorting.SortBy([x, y], PositionalOrder) == [y, x]
  {
    SortOne(y);
    assert [x, y][1..] == [y];
    SortStep([x, y], [y]);
    InsertBehindOne(y, x);
  }

  /** The insertion of x between two sorted nodes, the first below it and the second not. */
  lemma {:induction false} InsertBetween(z: Node, y: Node, x: Node)
    requires PositionalOrder(z) < PositionalOrder(x) <= PositionalOrder(y)
    ensures Sorting.InsertBefore([z, y], x, PositionalOrder) == [z, x, y]
  {
    Sorting.InsertBeforeStep([z, y], x, PositionalOrder);
    assert [z, y][1..] == [y];
    Sorting.InsertBeforeStep([y], x, PositionalOrder);
    assert [z] + ([x] + [y]) == [z, x, y];
  }

  lemma {:induction false} SortThree(x: Node, y: Node, z: Node)
    requires PositionalOrder(x) == 1 && PositionalOrder(y) == 2 && PositionalOrder(z) == 0
    ensures Sorting.SortBy([x, y, z], PositionalOrder) == [z, x, y]
  {
    SortTwo(y, z);
    assert [x, y, z][1..] == [y, z];
    SortStep([x, y, z], [y, z]);
    InsertBetween(z, y, x);
  }

  /** An argument node with a literal takes the literal's value. */
  lemma {:induction false} LiteralArgumentValue(g: Graph, a: Node, v: Value)
    requires Valid(g) && a.kind.ArgumentNode? && a.kind.valueLiteral == Some(v)
    ensures ValueOf(g, Some(a)) == Ok(Some(Runtime(v)))
  {
  }

  /** An argument node without a literal takes the value of the node it refers to. */
  lemma {:induction false} ReferenceArgumentValue(g: Graph, a: Node, c: Id)
    requires Valid(g)
    requires a.kind.ArgumentNode? && a.kind.valueLiteral.None? && a.kind.valueNodeId == Some(c) && c in g.ids
    ensures ValueOf(g, Some(a)) == ValueOf(g, Some(g.ids[c]))
  {
    assert GetNode(g, Some(c)) == Some(g.ids[c]);
  }

  lemma {:induction false} SetAttrValues(g: Graph, a1: Node, a2: Node, a3: Node, hi: Value, one: Value)
    requires Valid(g)
    requires a1.kind == ArgumentNode(None, Some(1), None, Some(hi))
    requires a2.kind == ArgumentNode(None, Some(2), None, Some(one))
    requires a3.kind == ArgumentNode(None, Some(0), Some("call_1"), None)
    requires "call_1" in g.ids && g.ids["call_1"].value.None? && g.ids["call_1"].kind.CallNode?
    ensures ValuesOf(g, [a3, a1, a2]) == Ok([None, Some(Runtime(hi)), Some(Runtime(one))])
  {
    LiteralArgumentValue(g, a1, hi);
    LiteralArgumentValue(g, a2, one);
    ReferenceArgumentValue(g, a3, "call_1");
    assert ValueOf(g, Some(g.ids["call_1"])) == Ok(None);
    ValuesOfTriple(g, a3, a1, a2, None, Some(Runtime(hi)), Some(Runtime(one)));
  }

  /**
   * The `setattr(x, "hi", 1)` call of the recorded `x.hi = 1` example: its
   * arguments at positions 1, 2 and 0 come back as the value of the
   * `SimpleNamespace()` call (None), then "hi", then 1.
   */
  lemma {:induction false} SetAttrArguments(g: Graph, sid: Id, hi: Value, one: Value)
    requires Valid(g)
    requires "argument_1" in g.ids && g.ids["argument_1"] == Node("argument_1", sid, NoSpan, None, ArgumentNode(None, Some(1), None, Some(hi)))
    requires "argument_2" in g.ids && g.ids["argument_2"] == Node("argument_2", sid, NoSpan, None, ArgumentNode(None, Some(2), None, Some(one)))
    requires "argument_3" in g.ids && g.ids["argument_3"] == Node("argument_3", sid, NoSpan, None, ArgumentNode(None, Some(0), Some("call_1"), None))
    requires "call_1" in g.ids && g.ids["call_1"] == Node("call_1", sid, Span(Some(1), Some(14), Some(1), Some(41)), None,
                                     CallNode("SimpleNamespace", Some("import_1"), None, [], Some("x"), []))
    ensures var call2 := Node("call_2", sid, Span(Some(1), Some(43), Some(1), Some(51)), None,
                              CallNode("setattr", None, None, ["argument_1", "argument_2", "argument_3"], None, []));
            ArgumentsOf(g, call2, PositionalOrder) == Ok(CallArguments([None, Some(Runtime(hi)), Some(Runtime(one))], map[]))
  {
    var a1, a2, a3 := g.ids["argument_1"], g.ids["argument_2"], g.ids["argument_3"];
    CollectThreePlain(g, "argument_1", "argument_2", "argument_3");
    SortThree(a1, a2, a3);
    SetAttrValues(g, a1, a2, a3, hi, one);
    var call2 := Node("call_2", sid, Span(Some(1), Some(43), Some(1), Some(51)), None,
                      CallNode("setattr", None, None, ["argument_1", "argument_2", "argument_3"], None, []));
    ArgumentsFromParts(g, call2, PositionalOrder, ([a1, a2, a3], map[]), [a3, a1, a2], [None, Some(Runtime(hi)), Some(Runtime(one))]);
  }

  /** Arguments [position 1 gives v5, position 0 gives v7, keyword "b" gives v1] split into [v7, v5] and {"b": v1}. */
  lemma {:induction false} MixedArguments(g: Graph, sid: Id, v5: Value, v7: Value, v1: Value)
    requires Valid(g)
    requires "p1" in g.ids && g.ids["p1"] == Node("p1", sid, NoSpan, None, ArgumentNode(None, Some(1), None, Some(v5)))
    requires "p0" in g.ids && g.ids["p0"] == Node("p0", sid, NoSpan, None, ArgumentNode(None, Some(0), None, Some(v7)))
    requires "kb" in g.ids && g.ids["kb"] == Node("kb", sid, NoSpan, None, ArgumentNode(Some("b"), None, None, Some(v1)))
    ensures var call := Node("f", sid, NoSpan, None, CallNode("f", None, None, ["p1", "p0", "kb"], None, []));
            ArgumentsOf(g, call, PositionalOrder)
              == Ok(CallArguments([Some(Runtime(v7)), Some(Runtime(v5))], map["b" := Some(Runtime(v1))]))
  {
    var p1, p0 := g.ids["p1"], g.ids["p0"];
    CollectTwoPlainKeyword(g, "p1", "p0", "kb", Some(Runtime(v1)));
    SortTwo(p1, p0);
    ValuesOfPair(g, p0, p1, Some(Runtime(v7)), Some(Runtime(v5)));
    var call := Node("f", sid, NoSpan, None, CallNode("f", None, None, ["p1", "p0", "kb"], None, []));
    ArgumentsFromParts(g, call, PositionalOrder, ([p1, p0], map["b" := Some(Runtime(v1))]), [p0, p1], [Some(Runtime(v7)), Some(Runtime(v5))]);
  }

  /** Two ids on different lines have exactly one line order. */
  lemma {:induction false} TwoLineOrder(ids: map<Id, Node>, a: Id, b: Id, s: seq<Id>)
    requires IsLinenoOrder(ids, {a, b}, s) && Line(ids, a) < Line(ids, b)
    ensures s == [a, b]
  {
    assert a != b;
    assert multiset({a, b}) == multiset{a, b};
    assert |s| == |multiset(s)| == 2;
    assert s == [s[0]] + [s[1]];
    assert multiset(s) == multiset{s[0]} + multiset{s[1]};
    assert s[0] in {a, b} && s[1] in {a, b};
    assert multiset(s)[s[0]] <= 1;
    assert s[0] != s[1];
    assert LineKey(ids)(s[0]) <= LineKey(ids)(s[1]);
  }

  /**
   * Two call nodes on lines 3 and 5 below one data source, with no reference
   * edge between them: the pass adds exactly the edge from the line-3 call to
   * the line-5 call. With a reference edge between them either way, it adds none.
   */
  lemma {:induction false} TwoCallsOnOneSource(nodes: seq<Node>, E0: set<Edge>, orders: seq<seq<Id>>, a: Id, b: Id)
    requires LinenoOrders(nodes, IdIndex(nodes), E0, orders)
    requires |DataSourceIds(nodes)| == 1
    requires CallDescendants(IdIndex(nodes), E0, DataSourceIds(nodes)[0]) == {a, b}
    requires Line(IdIndex(nodes), a) == 3 && Line(IdIndex(nodes), b) == 5
    ensures LineEdges(E0, orders) == if (a, b) in E0 || (b, a) in E0 then [] else [(a, b)]
  {
    var ids := IdIndex(nodes);
    assert IsLinenoOrder(ids, CallDescendants(ids, E0, DataSourceIds(nodes)[0]), orders[0]);
    TwoLineOrder(ids, a, b, orders[0]);
    assert orders == [[a, b]];
    assert orders[..0] == [];
    assert [a, b][..1] == [a];
    assert Consecutive(E0, [a]) == [];
    assert LineEdges(E0, orders) == LineEdges(E0, []) + Consecutive(E0, [a, b]);
  }
}
