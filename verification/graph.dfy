/** `MedicalGraph` (medkit/graph.py): node and edge lists that never take
    a second node with the same id or a second edge between the same
    endpoints.
 */
module Graph {
  import opened Wrappers

  datatype Node = Node(id: string, lbl: string, kind: string)
  datatype Edge = Edge(source: string, target: string, relationship: string)
  datatype MedicalGraph = MedicalGraph(nodes: seq<Node>, edges: seq<Edge>)

  function EmptyGraph(): MedicalGraph { MedicalGraph([], []) }

  predicate HasNode(g: MedicalGraph, id: string) {
    exists i :: 0 <= i < |g.nodes| && g.nodes[i].id == id
  }

  predicate HasEdge(g: MedicalGraph, source: string, target: string) {
    exists i :: 0 <= i < |g.edges| && g.edges[i].source == source && g.edges[i].target == target
  }

  /** No two nodes share an id. */
  predicate UniqueIds(nodes: seq<Node>) {
    forall i, j :: 0 <= i < j < |nodes| ==> nodes[i].id != nodes[j].id
  }

  /** No two edges share both endpoints. */
  predicate UniqueEndpoints(edges: seq<Edge>) {
    forall i, j :: 0 <= i < j < |edges| ==> edges[i].source != edges[j].source || edges[i].target != edges[j].target
  }

  /** `add_node`: appended only when no node has the id; otherwise the
      graph is unchanged, whatever the label and type. */
  function AddNode(g: MedicalGraph, id: string, lbl: string, kind: string): (r: MedicalGraph)
    ensures HasNode(r, id)
    ensures r.edges == g.edges
    ensures HasNode(g, id) ==> r == g
    ensures !HasNode(g, id) ==> r.nodes == g.nodes + [Node(id, lbl, kind)]
    ensures UniqueIds(g.nodes) ==> UniqueIds(r.nodes)
  {
    if exists i :: 0 <= i < |g.nodes| && g.nodes[i].id == id then g
    else
      var r := g.(nodes := g.nodes + [Node(id, lbl, kind)]);
      assert r.nodes[|g.nodes|].id == id;
      r
  }

  /** `add_edge`: appended only when no edge joins the same endpoints,
      whatever its relationship; the endpoints need not be nodes. */
  function AddEdge(g: MedicalGraph, source: string, target: string, relationship: string): (r: MedicalGraph)
    ensures HasEdge(r, source, target)
    ensures r.nodes == g.nodes
    ensures HasEdge(g, source, target) ==> r == g
    ensures !HasEdge(g, source, target) ==> r.edges == g.edges + [Edge(source, target, relationship)]
    ensures UniqueEndpoints(g.edges) ==> UniqueEndpoints(r.edges)
  {
    if exists i :: 0 <= i < |g.edges| && g.edges[i].source == source && g.edges[i].target == target then g
    else
      var r := g.(edges := g.edges + [Edge(source, target, relationship)]);
      assert r.edges[|g.edges|].source == source && r.edges[|g.edges|].target == target;
      r
  }

  /** After `add_edge` the graph has exactly its old edges and the new
      one. */
  lemma EdgesAfterAddEdge(g: MedicalGraph, source: string, target: string, rel: string, s: string, x: string)
    ensures HasEdge(AddEdge(g, source, target, rel), s, x) <==> HasEdge(g, s, x) || (s == source && x == target)
  {
    var r := AddEdge(g, source, target, rel);
    if HasEdge(g, s, x) {
      var k :| 0 <= k < |g.edges| && g.edges[k].source == s && g.edges[k].target == x;
      assert r.edges[k] == g.edges[k];
    }
    if HasEdge(r, s, x) && !HasEdge(g, s, x) {
      var k :| 0 <= k < |r.edges| && r.edges[k].source == s && r.edges[k].target == x;
      assert k == |g.edges|;
    }
  }

  /** Adding a node twice is adding it once, even with another label. */
  lemma AddNodeIdempotent(g: MedicalGraph, id: string, lbl: string, kind: string, lbl2: string, kind2: string)
    ensures AddNode(AddNode(g, id, lbl, kind), id, lbl2, kind2) == AddNode(g, id, lbl, kind)
  {
  }

  lemma AddEdgeIdempotent(g: MedicalGraph, source: string, target: string, rel: string, rel2: string)
    ensures AddEdge(AddEdge(g, source, target, rel), source, target, rel2) == AddEdge(g, source, target, rel)
  {
  }

  /** A node request: id, label, type. */
  datatype NodeRequest = NodeRequest(id: string, lbl: string, kind: string)

  function AddNodes(g: MedicalGraph, reqs: seq<NodeRequest>): MedicalGraph
    decreases |reqs|
  {
    if |reqs| == 0 then g
    else AddNodes(AddNode(g, reqs[0].id, reqs[0].lbl, reqs[0].kind), reqs[1..])
  }

  /** Node ids stay unique under any sequence of `add_node` calls, which
      only ever extend the node list, and every requested id ends up
      present. */
  lemma {:induction false} AddNodesKeepsIdsUnique(g: MedicalGraph, reqs: seq<NodeRequest>)
    requires UniqueIds(g.nodes)
    ensures UniqueIds(AddNodes(g, reqs).nodes)
    ensures |g.nodes| <= |AddNodes(g, reqs).nodes| && AddNodes(g, reqs).nodes[..|g.nodes|] == g.nodes
    ensures AddNodes(g, reqs).edges == g.edges
    ensures forall k :: 0 <= k < |reqs| ==> HasNode(AddNodes(g, reqs), reqs[k].id)
    decreases |reqs|
  {
    if |reqs| > 0 {
      var g1 := AddNode(g, reqs[0].id, reqs[0].lbl, reqs[0].kind);
      AddNodesKeepsIdsUnique(g1, reqs[1..]);
      var r := AddNodes(g1, reqs[1..]);
      assert r.nodes[..|g1.nodes|] == g1.nodes;
      assert g1.nodes[..|g.nodes|] == g.nodes;
      assert r.nodes[..|g.nodes|] == r.nodes[..|g1.nodes|][..|g.nodes|];
      var i :| 0 <= i < |g1.nodes| && g1.nodes[i].id == reqs[0].id;
      assert r.nodes[i] == r.nodes[..|g1.nodes|][i] == g1.nodes[i];
      forall k | 1 <= k < |reqs| ensures HasNode(r, reqs[k].id) {
        assert reqs[k] == reqs[1..][k - 1];
      }
    }
  }

  /** Adding `a` and then `b` is adding `a + b`. */
  lemma {:induction false} AddNodesConcat(g: MedicalGraph, a: seq<NodeRequest>, b: seq<NodeRequest>)
    ensures AddNodes(AddNodes(g, a), b) == AddNodes(g, a + b)
    decreases |a|
  {
    if |a| == 0 {
      assert a + b == b;
    } else {
      assert (a + b)[0] == a[0] && (a + b)[1..] == a[1..] + b;
      AddNodesConcat(AddNode(g, a[0].id, a[0].lbl, a[0].kind), a[1..], b);
    }
  }

  /** Node adds see only the node list. */
  lemma {:induction false} AddNodesOnlyNodes(g: MedicalGraph, h: MedicalGraph, reqs: seq<NodeRequest>)
    requires g.nodes == h.nodes
    ensures AddNodes(g, reqs).nodes == AddNodes(h, reqs).nodes
    decreases |reqs|
  {
    if |reqs| > 0 {
      AddNodesOnlyNodes(AddNode(g, reqs[0].id, reqs[0].lbl, reqs[0].kind),
                        AddNode(h, reqs[0].id, reqs[0].lbl, reqs[0].kind), reqs[1..]);
    }
  }

  /** The earliest request for `id`. */
  function FirstRequestFor(reqs: seq<NodeRequest>, id: string): (r: Option<NodeRequest>)
    ensures r.Some? <==> exists k :: 0 <= k < |reqs| && reqs[k].id == id
    ensures r.Some? ==> r.value.id == id && r.value in reqs
  {
    if |reqs| == 0 then None
    else if reqs[0].id == id then Some(reqs[0])
    else
      var r := FirstRequestFor(reqs[1..], id);
      assert forall k :: 1 <= k < |reqs| ==> reqs[k] == reqs[1..][k - 1];
      r
  }

  lemma {:induction false} FirstRequestAppend(reqs: seq<NodeRequest>, q: NodeRequest, id: string)
    ensures FirstRequestFor(reqs + [q], id)
         == if FirstRequestFor(reqs, id).Some? then FirstRequestFor(reqs, id)
            else if q.id == id then Some(q) else None
  {
    if |reqs| > 0 {
      assert (reqs + [q])[1..] == reqs[1..] + [q];
      FirstRequestAppend(reqs[1..], q, id);
    } else {
      assert reqs + [q] == [q];
    }
  }

  function AsRequest(n: Node): NodeRequest { NodeRequest(n.id, n.lbl, n.kind) }

  /** After `add_node` the graph has exactly its old nodes and the new
      id, and every old node keeps its place. */
  lemma NodesAfterAddNode(g: MedicalGraph, id: string, lbl: string, kind: string, x: string)
    ensures HasNode(AddNode(g, id, lbl, kind), x) <==> HasNode(g, x) || x == id
    ensures forall i :: 0 <= i < |g.nodes| ==> AddNode(g, id, lbl, kind).nodes[i] == g.nodes[i]
  {
    var r := AddNode(g, id, lbl, kind);
    if HasNode(g, x) {
      var k :| 0 <= k < |g.nodes| && g.nodes[k].id == x;
      assert r.nodes[k] == g.nodes[k];
    }
    if HasNode(r, x) && !HasNode(g, x) {
      var k :| 0 <= k < |r.nodes| && r.nodes[k].id == x;
      assert k == |g.nodes|;
    }
  }

  /** From an empty graph the nodes are exactly the requested ids, and
      each node is the earliest request with its id: a later label or
      type for the same id is ignored. */
  lemma {:induction false} AddNodesFirstWins(reqs: seq<NodeRequest>)
    ensures forall x :: HasNode(AddNodes(EmptyGraph(), reqs), x) <==> FirstRequestFor(reqs, x).Some?
    ensures forall i :: 0 <= i < |AddNodes(EmptyGraph(), reqs).nodes| ==>
              FirstRequestFor(reqs, AddNodes(EmptyGraph(), reqs).nodes[i].id)
              == Some(AsRequest(AddNodes(EmptyGraph(), reqs).nodes[i]))
    decreases |reqs|
  {
    if |reqs| > 0 {
      var init, q := reqs[..|reqs| - 1], reqs[|reqs| - 1];
      assert reqs == init + [q];
      AddNodesFirstWins(init);
      var g := AddNodes(EmptyGraph(), init);
      AddNodesConcat(EmptyGraph(), init, [q]);
      assert AddNodes(g, [q]) == AddNode(g, q.id, q.lbl, q.kind);
      var r := AddNode(g, q.id, q.lbl, q.kind);
      forall x ensures HasNode(r, x) <==> FirstRequestFor(reqs, x).Some? {
        FirstRequestAppend(init, q, x);
        NodesAfterAddNode(g, q.id, q.lbl, q.kind, x);
      }
      forall i | 0 <= i < |r.nodes| ensures FirstRequestFor(reqs, r.nodes[i].id) == Some(AsRequest(r.nodes[i])) {
        FirstRequestAppend(init, q, r.nodes[i].id);
        NodesAfterAddNode(g, q.id, q.lbl, q.kind, q.id);
        if i < |g.nodes| {
          assert HasNode(g, g.nodes[i].id);
        }
      }
    }
  }
}
