/**
 TopologyGraph: nodes and edges in insertion order, with each node's outgoing and incoming edges.

 A Graph is the value of the object. It agrees with itself when the adjacency lists are exactly
 the edge list filtered by source and by target; this is what the graph algorithms rely on, and
 what adding an edge keeps exactly when the edge's id is new.
 */
module Topology {
  import opened Utf16

  datatype NodeKind = SERVICE | DATABASE | CACHE | OBJECT_STORE | SEARCH | MESSAGE_BROKER | EXTERNAL_API

  datatype EdgeKind =
    | SYNC_HTTP | SYNC_GRPC | DB_QUERY | CACHE_READ | CACHE_WRITE
    | OBJECT_READ | OBJECT_WRITE | KAFKA_PUBLISH | KAFKA_CONSUME | EXTERNAL_HTTP

  datatype GraphNode = GraphNode(id: Text, name: Text, kind: NodeKind)

  datatype GraphEdge = GraphEdge(id: Text, sourceId: Text, targetId: Text, kind: EdgeKind)

  /** The edges that leave a node, in order. */
  function Leaving(edges: seq<GraphEdge>, n: Text): seq<GraphEdge> {
    if edges == [] then []
    else
      var last := edges[|edges| - 1];
      Leaving(edges[..|edges| - 1], n) + if last.sourceId == n then [last] else []
  }

  function Entering(edges: seq<GraphEdge>, n: Text): seq<GraphEdge> {
    if edges == [] then []
    else
      var last := edges[|edges| - 1];
      Entering(edges[..|edges| - 1], n) + if last.targetId == n then [last] else []
  }

  predicate Distinct<T(==)>(s: seq<T>) {
    forall i, j :: 0 <= i < j < |s| ==> s[i] != s[j]
  }

  /** `nodeOrder` and `edgeOrder` are the insertion orders of the two maps beside them. */
  datatype Graph = Graph(
    nodeOrder: seq<Text>, nodes: map<Text, GraphNode>,
    edgeOrder: seq<Text>, edges: map<Text, GraphEdge>,
    outgoing: map<Text, seq<GraphEdge>>, incoming: map<Text, seq<GraphEdge>>)
  {
    /** The maps and their orders belong together, and every edge joins two nodes. */
    ghost predicate WellFormed() {
      && Distinct(nodeOrder) && (forall n :: n in nodeOrder <==> n in nodes)
      && Distinct(edgeOrder) && (forall i :: i in edgeOrder <==> i in edges)
      && outgoing.Keys == nodes.Keys && incoming.Keys == nodes.Keys
      && (forall i :: i in edges ==> edges[i].id == i && edges[i].sourceId in nodes && edges[i].targetId in nodes)
    }

    /** All edges, in insertion order. */
    function EdgeList(): seq<GraphEdge>
      requires forall i :: i in edgeOrder ==> i in edges
    {
      Listed(edgeOrder, edges)
    }

    /** The adjacency lists are those of this list of edges. */
    ghost predicate Lists(all: seq<GraphEdge>) {
      && outgoing.Keys == nodes.Keys == incoming.Keys
      && forall n :: n in nodes ==> outgoing[n] == Leaving(all, n) && incoming[n] == Entering(all, n)
    }

    ghost predicate Agrees() {
      WellFormed() && Lists(EdgeList())
    }

    /** The edges the algorithms follow. */
    ghost predicate HasEdge(e: GraphEdge) {
      e.sourceId in outgoing && e in outgoing[e.sourceId]
    }

    function AddNode(node: GraphNode): Graph {
      Graph(if node.id in nodes then nodeOrder else nodeOrder + [node.id], nodes[node.id := node],
            edgeOrder, edges,
            if node.id in outgoing then outgoing else outgoing[node.id := []],
            if node.id in incoming then incoming else incoming[node.id := []])
    }

    /** addEdge, for an edge whose two ends exist. */
    function AddEdge(e: GraphEdge): Graph {
      var from := if e.sourceId in outgoing then outgoing[e.sourceId] else [];
      var to := if e.targetId in incoming then incoming[e.targetId] else [];
      Graph(nodeOrder, nodes,
            if e.id in edges then edgeOrder else edgeOrder + [e.id], edges[e.id := e],
            outgoing[e.sourceId := from + [e]], incoming[e.targetId := to + [e]])
    }
  }

  const EmptyGraph: Graph := Graph([], map[], [], map[], map[], map[])

  function Listed(ids: seq<Text>, edges: map<Text, GraphEdge>): (r: seq<GraphEdge>)
    requires forall i :: i in ids ==> i in edges
    ensures |r| == |ids| && forall k :: 0 <= k < |ids| ==> r[k] == edges[ids[k]]
  {
    if ids == [] then [] else Listed(ids[..|ids| - 1], edges) + [edges[ids[|ids| - 1]]]
  }

  // ---------- what filtering keeps ----------

  lemma {:induction false} LeavingMeans(edges: seq<GraphEdge>, n: Text, e: GraphEdge)
    ensures e in Leaving(edges, n) <==> e in edges && e.sourceId == n
  {
    if edges != [] {
      LeavingMeans(edges[..|edges| - 1], n, e);
      assert edges == edges[..|edges| - 1] + [edges[|edges| - 1]];
    }
  }

  lemma {:induction false} LeavingPush(edges: seq<GraphEdge>, e: GraphEdge, n: Text)
    ensures Leaving(edges + [e], n) == Leaving(edges, n) + if e.sourceId == n then [e] else []
    ensures Entering(edges + [e], n) == Entering(edges, n) + if e.targetId == n then [e] else []
  {
    assert (edges + [e])[..|edges|] == edges;
  }

  /** Replacing one edge changes how many leave a node by what the two edges say. */
  lemma {:induction false} LeavingReplace(edges: seq<GraphEdge>, k: nat, e: GraphEdge, n: Text)
    requires k < |edges|
    ensures |Leaving(edges[k := e], n)| + (if edges[k].sourceId == n then 1 else 0) ==
            |Leaving(edges, n)| + (if e.sourceId == n then 1 else 0)
  {
    var front := edges[..|edges| - 1];
    if k == |edges| - 1 {
      assert edges[k := e][..k] == front;
    } else {
      LeavingReplace(front, k, e, n);
      assert edges[k := e][..|edges| - 1] == front[k := e];
    }
  }

  lemma {:induction false} ListedIgnores(ids: seq<Text>, edges: map<Text, GraphEdge>, e: GraphEdge)
    requires forall i :: i in ids ==> i in edges
    requires e.id !in ids
    ensures Listed(ids, edges[e.id := e]) == Listed(ids, edges)
  {
    assert forall k :: 0 <= k < |ids| ==> ids[k] in ids;
  }

  lemma {:induction false} ListedReplaces(ids: seq<Text>, edges: map<Text, GraphEdge>, e: GraphEdge, k: nat)
    requires Distinct(ids) && k < |ids| && ids[k] == e.id && forall i :: i in ids ==> i in edges
    ensures Listed(ids, edges[e.id := e]) == Listed(ids, edges)[k := e]
  {
    assert forall j :: 0 <= j < |ids| ==> ids[j] in ids;
  }

  // ---------- agreement ----------

  lemma {:induction false} NoneTouch(edges: seq<GraphEdge>, n: Text)
    requires forall e :: e in edges ==> e.sourceId != n && e.targetId != n
    ensures Leaving(edges, n) == [] && Entering(edges, n) == []
  {
    if edges != [] {
      NoneTouch(edges[..|edges| - 1], n);
      assert edges[|edges| - 1] in edges;
    }
  }

  lemma {:induction false} AddNodeWellFormed(g: Graph, node: GraphNode)
    requires g.WellFormed()
    ensures g.AddNode(node).WellFormed() && g.AddNode(node).EdgeList() == g.EdgeList()
  {
    var h := g.AddNode(node);
    assert h.outgoing.Keys == h.nodes.Keys == h.incoming.Keys;
    assert Distinct(h.nodeOrder);
  }

  lemma {:induction false} AddNodeLists(g: Graph, node: GraphNode, all: seq<GraphEdge>)
    requires g.Lists(all) && forall e :: e in all ==> e.sourceId in g.nodes && e.targetId in g.nodes
    ensures g.AddNode(node).Lists(all)
  {
    if node.id !in g.nodes {
      NoneTouch(all, node.id);
    }
  }

  lemma {:induction false} EdgesJoinNodes(g: Graph)
    requires g.WellFormed()
    ensures forall e :: e in g.EdgeList() ==> e.sourceId in g.nodes && e.targetId in g.nodes
  {
    forall e | e in g.EdgeList() ensures e.sourceId in g.nodes && e.targetId in g.nodes {
      var k :| 0 <= k < |g.edgeOrder| && g.EdgeList()[k] == e;
      assert g.edgeOrder[k] in g.edges;
    }
  }

  /** A node may be added, or replaced, at any time. */
  lemma {:induction false} AddNodeKeepsAgreement(g: Graph, node: GraphNode)
    requires g.Agrees()
    ensures g.AddNode(node).Agrees()
  {
    AddNodeWellFormed(g, node);
    EdgesJoinNodes(g);
    AddNodeLists(g, node, g.EdgeList());
  }

  lemma {:induction false} AddEdgeWellFormed(g: Graph, e: GraphEdge)
    requires g.WellFormed() && e.sourceId in g.nodes && e.targetId in g.nodes
    ensures g.AddEdge(e).WellFormed()
  {
    var h := g.AddEdge(e);
    AddEdgeOrder(g, e);
    assert h.outgoing.Keys == h.nodes.Keys == h.incoming.Keys;
    forall i | i in h.edges
      ensures h.edges[i].id == i && h.edges[i].sourceId in h.nodes && h.edges[i].targetId in h.nodes
    {
      if i != e.id { assert h.edges[i] == g.edges[i]; }
    }
  }

  lemma {:induction false} AddEdgeOrder(g: Graph, e: GraphEdge)
    requires Distinct(g.edgeOrder) && forall i :: i in g.edgeOrder <==> i in g.edges
    ensures Distinct(g.AddEdge(e).edgeOrder)
    ensures forall i :: i in g.AddEdge(e).edgeOrder <==> i in g.AddEdge(e).edges
  {
  }

  lemma {:induction false} AddEdgeLists(g: Graph, e: GraphEdge, all: seq<GraphEdge>)
    requires g.Lists(all) && e.sourceId in g.nodes && e.targetId in g.nodes
    ensures g.AddEdge(e).Lists(all + [e])
  {
    var h := g.AddEdge(e);
    forall n | n in g.nodes ensures h.outgoing[n] == Leaving(all + [e], n) && h.incoming[n] == Entering(all + [e], n) {
      LeavingPush(all, e, n);
    }
  }

  lemma {:induction false} AddFreshEdge(g: Graph, e: GraphEdge)
    requires g.Agrees() && e.sourceId in g.nodes && e.targetId in g.nodes && e.id !in g.edges
    ensures g.AddEdge(e).Agrees()
  {
    AddEdgeWellFormed(g, e);
    AddEdgeLists(g, e, g.EdgeList());
    ListedIgnores(g.edgeOrder, g.edges, e);
    assert g.AddEdge(e).edgeOrder[..|g.edgeOrder|] == g.edgeOrder;
    assert g.AddEdge(e).EdgeList() == g.EdgeList() + [e];
  }

  /** A replaced edge leaves the list as long as it was, but some node's outgoing edges are one too many. */
  lemma {:induction false} AddKnownEdgeLists(g: Graph, e: GraphEdge, all: seq<GraphEdge>, k: nat)
    requires g.Lists(all) && e.sourceId in g.nodes && e.targetId in g.nodes
    requires k < |all| && all[k].sourceId in g.nodes
    ensures !g.AddEdge(e).Lists(all[k := e])
  {
    var h, was := g.AddEdge(e), all[k].sourceId;
    LeavingReplace(all, k, e, was);
    if was == e.sourceId {
      assert |h.outgoing[was]| == |g.outgoing[was]| + 1;
    } else {
      assert h.outgoing[was] == g.outgoing[was];
    }
  }

  lemma {:induction false} AddKnownEdge(g: Graph, e: GraphEdge)
    requires g.Agrees() && e.sourceId in g.nodes && e.targetId in g.nodes && e.id in g.edges
    ensures !g.AddEdge(e).Agrees()
  {
    AddEdgeWellFormed(g, e);
    EdgesJoinNodes(g);
    var k :| 0 <= k < |g.edgeOrder| && g.edgeOrder[k] == e.id;
    ListedReplaces(g.edgeOrder, g.edges, e, k);
    assert g.EdgeList()[k] in g.EdgeList();
    AddKnownEdgeLists(g, e, g.EdgeList(), k);
  }

  /** Adding an edge keeps the agreement exactly when its id is new. */
  lemma {:induction false} AddEdgeKeepsAgreementIff(g: Graph, e: GraphEdge)
    requires g.Agrees() && e.sourceId in g.nodes && e.targetId in g.nodes
    ensures g.AddEdge(e).Agrees() <==> e.id !in g.edges
  {
    if e.id in g.edges { AddKnownEdge(g, e); } else { AddFreshEdge(g, e); }
  }

  /** In a graph that agrees with itself, an edge leaves its source when it is listed. */
  lemma {:induction false} HasEdgeMeans(g: Graph, e: GraphEdge)
    requires g.Agrees()
    ensures g.HasEdge(e) <==> e in g.EdgeList()
    ensures g.HasEdge(e) ==> e.sourceId in g.nodes && e.targetId in g.nodes
  {
    LeavingMeans(g.EdgeList(), e.sourceId, e);
    if e in g.EdgeList() {
      var k :| 0 <= k < |g.edgeOrder| && g.EdgeList()[k] == e;
      assert g.edgeOrder[k] in g.edgeOrder;
    }
  }

  // ---------- the object ----------

  datatype AddEdgeResult = Added | SourceNotFound | TargetNotFound

  class TopologyGraph {
    var nodeOrder: seq<Text>
    var nodes: map<Text, GraphNode>
    var edgeOrder: seq<Text>
    var edges: map<Text, GraphEdge>
    var outgoing: map<Text, seq<GraphEdge>>
    var incoming: map<Text, seq<GraphEdge>>

    function State(): Graph
      reads this
    {
      Graph(nodeOrder, nodes, edgeOrder, edges, outgoing, incoming)
    }

    constructor ()
      ensures State() == EmptyGraph && State().Agrees()
    {
      nodeOrder, nodes, edgeOrder, edges, outgoing, incoming := [], map[], [], map[], map[], map[];
    }

    method AddNode(node: GraphNode)
      modifies this
      ensures State() == old(State()).AddNode(node)
      ensures old(State().Agrees()) ==> State().Agrees()
      ensures nodes == old(nodes)[node.id := node] && edges == old(edges) && edgeOrder == old(edgeOrder)
      ensures nodeOrder == if node.id in old(nodes) then old(nodeOrder) else old(nodeOrder) + [node.id]
      ensures outgoing == if node.id in old(outgoing) then old(outgoing) else old(outgoing)[node.id := []]
      ensures incoming == if node.id in old(incoming) then old(incoming) else old(incoming)[node.id := []]
    {
      if node.id !in nodes {
        nodeOrder := nodeOrder + [node.id];
      }
      nodes := nodes[node.id := node];
      if node.id !in outgoing {
        outgoing := outgoing[node.id := []];
      }
      if node.id !in incoming {
        incoming := incoming[node.id := []];
      }
      if old(State().Agrees()) {
        AddNodeKeepsAgreement(old(State()), node);
      }
    }

    method AddEdge(edge: GraphEdge) returns (result: AddEdgeResult)
      modifies this
      ensures result == if edge.sourceId !in old(nodes) then SourceNotFound
                        else if edge.targetId !in old(nodes) then TargetNotFound else Added
      ensures State() == if result == Added then old(State()).AddEdge(edge) else old(State())
      ensures old(State().Agrees()) && edge.id !in old(edges) ==> State().Agrees()
      ensures nodes == old(nodes) && nodeOrder == old(nodeOrder)
      ensures result == Added ==>
                && edges == old(edges)[edge.id := edge]
                && (edgeOrder == if edge.id in old(edges) then old(edgeOrder) else old(edgeOrder) + [edge.id])
                && outgoing == old(outgoing)[edge.sourceId :=
                     (if edge.sourceId in old(outgoing) then old(outgoing)[edge.sourceId] else []) + [edge]]
                && incoming == old(incoming)[edge.targetId :=
                     (if edge.targetId in old(incoming) then old(incoming)[edge.targetId] else []) + [edge]]
    {
      if edge.sourceId !in nodes {
        return SourceNotFound;
      }
      if edge.targetId !in nodes {
        return TargetNotFound;
      }
      if edge.id !in edges {
        edgeOrder := edgeOrder + [edge.id];
      }
      edges := edges[edge.id := edge];
      var outList := if edge.sourceId in outgoing then outgoing[edge.sourceId] else [];
      outgoing := outgoing[edge.sourceId := outList + [edge]];
      var inList := if edge.targetId in incoming then incoming[edge.targetId] else [];
      incoming := incoming[edge.targetId := inList + [edge]];
      ghost var before := old(State());
      assert State() == before.AddEdge(edge);
      if before.Agrees() && edge.id !in before.edges {
        AddFreshEdge(before, edge);
      }
      return Added;
    }
  }
}
