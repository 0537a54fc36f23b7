/**
 * The directed-graph notions the dependency graph relies on: successor sets,
 * reachability, ancestors and descendants, acyclicity and topological orders.
 * The source delegates all of these to networkx; here they are defined over a
 * finite edge set and proved against a path-based definition of reachability.
 */
module Digraph {
  import opened Ids

  /** A directed edge (source, sink). */
  type Edge = (Id, Id)

  function Sources(E: set<Edge>): set<Id> { set e | e in E :: e.0 }

  function Targets(E: set<Edge>): set<Id> { set e | e in E :: e.1 }

  /** Every edge turned around. */
  function Reverse(E: set<Edge>): set<Edge> { set e | e in E :: (e.1, e.0) }

  /** The vertices reached from some vertex of S by exactly one edge. */
  function Successors(E: set<Edge>, S: set<Id>): (r: set<Id>)
    ensures r <= Targets(E)
    ensures forall e :: e in E && e.0 in S ==> e.1 in r
  {
    set e | e in E && e.0 in S :: e.1
  }

  /** The direct predecessors of v. */
  function Predecessors(E: set<Edge>, v: Id): (r: set<Id>)
    ensures forall u :: u in r <==> (u, v) in E
  {
    set e | e in E && e.1 == v :: e.0
  }

  lemma ProperSubsetSmaller(A: set<Id>, B: set<Id>)
    requires A < B
    ensures |A| < |B|
  {
    assert B == A + (B - A);
    assert A * (B - A) == {};
    assert B - A != {};
  }

  lemma ClosureStep(E: set<Edge>, S: set<Id>, next: set<Id>)
    requires next == S + Successors(E, S) && !(next <= S)
    ensures |Targets(E) - next| < |Targets(E) - S|
  {
    var x :| x in next && x !in S;
    assert x in Targets(E) - S;
    ProperSubsetSmaller(Targets(E) - next, Targets(E) - S);
  }

  /** The least superset of S that is closed under successors (breadth-first search). */
  function Closure(E: set<Edge>, S: set<Id>): (r: set<Id>)
    ensures S <= r <= S + Targets(E)
    ensures Successors(E, r) <= r
    decreases |Targets(E) - S|
  {
    var next := S + Successors(E, S);
    if next <= S then S
    else
      ClosureStep(E, S, next);
      Closure(E, next)
  }

  /** Outbound reachability by one or more edges (networkx `descendants`). */
  function Descendants(E: set<Edge>, u: Id): set<Id>
  {
    Closure(E, Successors(E, {u}))
  }

  /** Inbound reachability by one or more edges (networkx `ancestors`): a search over the reversed edges. */
  function Ancestors(E: set<Edge>, v: Id): set<Id>
  {
    Closure(Reverse(E), Successors(Reverse(E), {v}))
  }

  // ---------------------------------------------------------------- paths

  ghost predicate IsPath(E: set<Edge>, p: seq<Id>)
  {
    forall i :: 0 <= i < |p| - 1 ==> (p[i], p[i + 1]) in E
  }

  /** v can be reached from u along one or more edges. */
  ghost predicate Reaches(E: set<Edge>, u: Id, v: Id)
  {
    exists p :: |p| >= 2 && p[0] == u && p[|p| - 1] == v && IsPath(E, p)
  }

  /** No vertex reaches itself. */
  ghost predicate Acyclic(E: set<Edge>)
  {
    forall u :: !Reaches(E, u, u)
  }

  lemma EdgeReaches(E: set<Edge>, u: Id, v: Id)
    requires (u, v) in E
    ensures Reaches(E, u, v)
  {
    assert IsPath(E, [u, v]);
  }

  lemma ReachesEndpoints(E: set<Edge>, u: Id, v: Id)
    ensures Reaches(E, u, v) ==> u in Sources(E) && v in Targets(E)
  {
    if Reaches(E, u, v) {
      var p :| |p| >= 2 && p[0] == u && p[|p| - 1] == v && IsPath(E, p);
      assert (p[0], p[1]) in E;
      assert (p[|p| - 2], p[|p| - 1]) in E;
    }
  }

  lemma ReachesThenEdge(E: set<Edge>, u: Id, v: Id, w: Id)
    requires Reaches(E, u, v) && (v, w) in E
    ensures Reaches(E, u, w)
  {
    var p :| |p| >= 2 && p[0] == u && p[|p| - 1] == v && IsPath(E, p);
    var q := p + [w];
    assert IsPath(E, q);
  }

  /** Every member of a successor-closed set C reached along a path from a member of C lies in C. */
  lemma {:induction false} PathStaysIn(E: set<Edge>, C: set<Id>, p: seq<Id>)
    requires Successors(E, C) <= C
    requires |p| >= 1 && IsPath(E, p) && p[0] in C
    ensures p[|p| - 1] in C
    decreases |p|
  {
    if |p| > 1 {
      assert (p[0], p[1]) in E;
      assert p[1] in Successors(E, C);
      assert IsPath(E, p[1..]);
      PathStaysIn(E, C, p[1..]);
    }
  }

  lemma {:induction false} ClosureSound(E: set<Edge>, S: set<Id>, u: Id)
    requires forall x :: x in S ==> Reaches(E, u, x)
    ensures forall x :: x in Closure(E, S) ==> Reaches(E, u, x)
    decreases |Targets(E) - S|
  {
    var next := S + Successors(E, S);
    if !(next <= S) {
      forall x | x in next
        ensures Reaches(E, u, x)
      {
        if x !in S {
          var e :| e in E && e.0 in S && e.1 == x;
          ReachesThenEdge(E, u, e.0, x);
        }
      }
      ClosureStep(E, S, next);
      ClosureSound(E, next, u);
    }
  }

  /** Descendants are exactly the vertices reachable by a path of one or more edges. */
  lemma DescendantsReach(E: set<Edge>, u: Id, v: Id)
    ensures v in Descendants(E, u) <==> Reaches(E, u, v)
  {
    var S := Successors(E, {u});
    forall x | x in S
      ensures Reaches(E, u, x)
    {
      var e :| e in E && e.0 == u && e.1 == x;
      EdgeReaches(E, u, x);
    }
    ClosureSound(E, S, u);
    if Reaches(E, u, v) {
      var p :| |p| >= 2 && p[0] == u && p[|p| - 1] == v && IsPath(E, p);
      assert (p[0], p[1]) in E;
      assert IsPath(E, p[1..]);
      PathStaysIn(E, Descendants(E, u), p[1..]);
    }
  }

  function Rev(p: seq<Id>): (r: seq<Id>)
    ensures |r| == |p| && forall i :: 0 <= i < |p| ==> r[i] == p[|p| - 1 - i]
  {
    seq(|p|, i requires 0 <= i < |p| => p[|p| - 1 - i])
  }

  lemma ReverseReverse(E: set<Edge>)
    ensures Reverse(Reverse(E)) == E
  {
    forall e | e in E ensures e in Reverse(Reverse(E)) {
      assert (e.1, e.0) in Reverse(E);
    }
  }

  lemma ReversedPathReaches(E: set<Edge>, u: Id, v: Id)
    requires Reaches(E, u, v)
    ensures Reaches(Reverse(E), v, u)
  {
    var p :| |p| >= 2 && p[0] == u && p[|p| - 1] == v && IsPath(E, p);
    var q := Rev(p);
    forall i | 0 <= i < |q| - 1
      ensures (q[i], q[i + 1]) in Reverse(E)
    {
      var k := |p| - 2 - i;
      assert (p[k], p[k + 1]) in E;
    }
    assert IsPath(Reverse(E), q);
  }

  /** Reachability over the reversed edges is reachability the other way round. */
  lemma ReverseReaches(E: set<Edge>, u: Id, v: Id)
    ensures Reaches(Reverse(E), v, u) <==> Reaches(E, u, v)
  {
    if Reaches(E, u, v) {
      ReversedPathReaches(E, u, v);
    }
    if Reaches(Reverse(E), v, u) {
      ReversedPathReaches(Reverse(E), v, u);
      ReverseReverse(E);
    }
  }

  /** Ancestors are exactly the vertices from which v is reachable. */
  lemma AncestorsReach(E: set<Edge>, u: Id, v: Id)
    ensures u in Ancestors(E, v) <==> Reaches(E, u, v)
  {
    DescendantsReach(Reverse(E), v, u);
    ReverseReaches(E, u, v);
  }

  lemma AncestorsAreSources(E: set<Edge>, v: Id)
    ensures Ancestors(E, v) <= Sources(E)
  {
    assert Targets(Reverse(E)) <= Sources(E) by {
      forall x | x in Targets(Reverse(E)) ensures x in Sources(E) {
        var e :| e in Reverse(E) && e.1 == x;
        var f :| f in E && e == (f.1, f.0);
      }
    }
  }

  /** The ancestors of any vertex are no more than a vertex set holding every edge source. */
  lemma AncestorsWithin(E: set<Edge>, v: Id, V: set<Id>)
    requires Sources(E) <= V
    ensures |Ancestors(E, v)| <= |V|
  {
    AncestorsAreSources(E, v);
    var A := Ancestors(E, v);
    if A != V {
      ProperSubsetSmaller(A, V);
    }
  }

  /** Along an edge z -> x of an acyclic graph, the ancestors strictly shrink. */
  lemma AncestorsShrink(E: set<Edge>, z: Id, x: Id)
    requires Acyclic(E) && (z, x) in E
    ensures Ancestors(E, z) < Ancestors(E, x)
    ensures |Ancestors(E, z)| < |Ancestors(E, x)|
  {
    forall w | w in Ancestors(E, z)
      ensures w in Ancestors(E, x)
    {
      AncestorsReach(E, w, z);
      ReachesThenEdge(E, w, z, x);
      AncestorsReach(E, w, x);
    }
    EdgeReaches(E, z, x);
    AncestorsReach(E, z, x);
    AncestorsReach(E, z, z);
    ProperSubsetSmaller(Ancestors(E, z), Ancestors(E, x));
  }

  // ---------------------------------------------------------------- acyclicity

  /** The executable acyclicity test: no vertex is its own descendant. */
  predicate IsDag(V: set<Id>, E: set<Edge>)
  {
    forall v | v in V :: v !in Descendants(E, v)
  }

  lemma IsDagIffAcyclic(V: set<Id>, E: set<Edge>)
    requires Sources(E) <= V
    ensures IsDag(V, E) <==> Acyclic(E)
  {
    if IsDag(V, E) {
      forall u ensures !Reaches(E, u, u) {
        DescendantsReach(E, u, u);
        ReachesEndpoints(E, u, u);
      }
    } else {
      var v :| v in V && v in Descendants(E, v);
      DescendantsReach(E, v, v);
    }
  }

  // ---------------------------------------------------------------- topological order

  /** o lists every vertex of V exactly once, and every edge points forward in o. */
  ghost predicate IsTopologicalOrder(V: set<Id>, E: set<Edge>, o: seq<Id>)
  {
    && multiset(o) == multiset(V)
    && forall i, j :: 0 <= i < |o| && 0 <= j < |o| && (o[i], o[j]) in E ==> i < j
  }

  /** Every non-empty vertex set of an acyclic graph has a member with no predecessor inside it. */
  lemma {:induction false} SourceExists(E: set<Edge>, R: set<Id>, x: Id)
    requires Acyclic(E) && x in R
    ensures exists y :: y in R && forall z :: z in R ==> (z, y) !in E
    decreases |Ancestors(E, x)|
  {
    if z :| z in R && (z, x) in E {
      AncestorsShrink(E, z, x);
      SourceExists(E, R, z);
    } else {
      assert forall z :: z in R ==> (z, x) !in E;
    }
  }

  /** Appending a vertex with no predecessor among those left keeps the edges pointing forward. */
  lemma AppendSource(V: set<Id>, E: set<Edge>, o: seq<Id>, rest: set<Id>, x: Id)
    requires Sources(E) <= V
    requires x in rest && forall z :: z in rest ==> (z, x) !in E
    requires forall y :: y in V <==> (y in o || y in rest)
    requires forall y :: y in o ==> y !in rest
    requires forall i, j :: 0 <= i < |o| && 0 <= j < |o| && (o[i], o[j]) in E ==> i < j
    requires forall e :: e in E && e.1 in o ==> e.0 in o
    ensures var o' := o + [x];
            (forall i, j :: 0 <= i < |o'| && 0 <= j < |o'| && (o'[i], o'[j]) in E ==> i < j) &&
            (forall e :: e in E && e.1 in o' ==> e.0 in o')
  {
    var o' := o + [x];
    forall e | e in E && e.1 == x
      ensures e.0 in o
    {
      assert e.0 in Sources(E);
    }
    forall i, j | 0 <= i < |o'| && 0 <= j < |o'| && (o'[i], o'[j]) in E
      ensures i < j
    {
      if i < |o| { assert o'[i] == o[i]; }
      if j < |o| { assert o'[j] == o[j] && o[j] in o; }
    }
  }

  /**
   * Kahn's algorithm: repeatedly emit a remaining vertex none of whose
   * predecessors remains. Ties are broken arbitrarily.
   */
  method TopologicalSort(V: set<Id>, E: set<Edge>) returns (o: seq<Id>)
    requires Sources(E) <= V && Targets(E) <= V
    requires Acyclic(E)
    ensures IsTopologicalOrder(V, E, o)
  {
    o := [];
    var rest := V;
    while rest != {}
      invariant rest <= V
      invariant multiset(o) + multiset(rest) == multiset(V)
      invariant forall y :: y in V <==> (y in o || y in rest)
      invariant forall y :: y in o ==> y !in rest
      invariant forall i, j :: 0 <= i < |o| && 0 <= j < |o| && (o[i], o[j]) in E ==> i < j
      invariant forall e :: e in E && e.1 in o ==> e.0 in o
      decreases |rest|
    {
      var x0 :| x0 in rest;
      SourceExists(E, rest, x0);
      var x :| x in rest && forall z :: z in rest ==> (z, x) !in E;
      AppendSource(V, E, o, rest, x);
      assert rest == (rest - {x}) + {x};
      o := o + [x];
      rest := rest - {x};
    }
  }

  /** The last vertex of a topological order has no outgoing edge. */
  lemma LastIsSink(V: set<Id>, E: set<Edge>, o: seq<Id>, w: Id)
    requires Targets(E) <= V
    requires IsTopologicalOrder(V, E, o) && |o| > 0
    ensures (o[|o| - 1], w) !in E
  {
    if w in o {
      var j :| 0 <= j < |o| && o[j] == w;
      assert (o[|o| - 1], o[j]) !in E;
    } else {
      assert w !in multiset(V);
      assert forall e :: e in E ==> e.1 in V;
    }
  }
}
