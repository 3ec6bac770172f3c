/** What a load leaves in the store, row by row and edge by edge, and what is read back. */
module StoreLaws {
  import opened Records
  import opened Store

  /** Position `i` is the last of the nodes with this id. */
  ghost predicate LastNode(nodes: seq<GraphNode>, i: nat, id: string) {
    i < |nodes| && nodes[i].id == id && forall j :: i < j < |nodes| ==> nodes[j].id != id
  }

  /** The row holds the node's fields; an absent range reads as zeros, absent metadata as none. */
  ghost predicate HoldsNode(row: NodeRow, n: GraphNode) {
    && row.kind == n.kind && row.name == n.name && row.filePath == n.filePath
    && (row.exported <==> n.exported == Some(true))
    && row.startLine == (match n.range case Some(range) => range.startLine case None => 0)
    && row.endLine == (match n.range case Some(range) => range.endLine case None => 0)
    && row.metadata == match n.metadata case Some(m) => m case None => map[]
  }

  lemma RowHoldsNode(n: GraphNode)
    ensures HoldsNode(RowOf(n), n)
  {
  }

  lemma LastNodeStep(nodes: seq<GraphNode>, i: nat, id: string)
    requires nodes != []
    ensures LastNode(nodes, i, id) <==>
      if nodes[|nodes| - 1].id == id then i == |nodes| - 1 else LastNode(nodes[..|nodes| - 1], i, id)
  {
    var init := nodes[..|nodes| - 1];
    assert forall j :: 0 <= j < |init| ==> init[j] == nodes[j];
  }

  /** An id that some node has is some node's last. */
  lemma {:induction false} SomeLastNode(nodes: seq<GraphNode>, k: nat) returns (i: nat)
    requires k < |nodes|
    ensures LastNode(nodes, i, nodes[k].id)
  {
    if nodes[|nodes| - 1].id == nodes[k].id {
      i := |nodes| - 1;
    } else {
      i := SomeLastNode(nodes[..|nodes| - 1], k);
      LastNodeStep(nodes, i, nodes[k].id);
    }
  }

  /** After a load the row of an id is that of the last loaded node with it, and the earlier one if there is none. */
  lemma {:induction false} LoadedNode(db: Db, nodes: seq<GraphNode>, id: string)
    ensures var t := MergeNodes(db, nodes);
      && (forall i: nat :: LastNode(nodes, i, id) ==> id in t.nodes && HoldsNode(t.nodes[id], nodes[i]))
      && ((forall i: nat :: !LastNode(nodes, i, id)) ==>
            (id in t.nodes <==> id in db.nodes) && (id in db.nodes ==> t.nodes[id] == db.nodes[id]))
    ensures forall k :: 0 <= k < |nodes| && nodes[k].id == id ==> exists i: nat :: LastNode(nodes, i, id)
  {
    forall k | 0 <= k < |nodes| && nodes[k].id == id
      ensures exists i: nat :: LastNode(nodes, i, id)
    {
      var i := SomeLastNode(nodes, k);
    }
    if nodes != [] {
      var init, last := nodes[..|nodes| - 1], nodes[|nodes| - 1];
      LoadedNode(db, init, id);
      RowHoldsNode(last);
      forall i: nat
        ensures LastNode(nodes, i, id) ==> if last.id == id then i == |init| else LastNode(init, i, id)
      {
        LastNodeStep(nodes, i, id);
      }
      forall i: nat | last.id != id
        ensures LastNode(init, i, id) ==> LastNode(nodes, i, id)
      {
        LastNodeStep(nodes, i, id);
      }
      hide HoldsNode, RowOf, LastNode;
      LastNodeStep(nodes, |init|, id);
    }
  }

  /** Position `i` is the last of the edges with these ends and this kind. */
  ghost predicate LastEdge(edges: seq<GraphEdge>, i: nat, from: string, to: string, kind: string) {
    && i < |edges| && edges[i].from == from && edges[i].to == to && edges[i].kind == kind
    && forall j :: i < j < |edges| ==> edges[j].from != from || edges[j].to != to || edges[j].kind != kind
  }

  lemma LastEdgeStep(edges: seq<GraphEdge>, i: nat, from: string, to: string, kind: string)
    requires edges != []
    ensures var last := edges[|edges| - 1];
      LastEdge(edges, i, from, to, kind) <==>
        if last.from == from && last.to == to && last.kind == kind then i == |edges| - 1
        else LastEdge(edges[..|edges| - 1], i, from, to, kind)
  {
    var init := edges[..|edges| - 1];
    assert forall j :: 0 <= j < |init| ==> init[j] == edges[j];
  }

  /**
   * After edges are written, the metadata between two nodes and of a kind is that of the last written edge
   * with these ends and this kind; an edge with a missing end is not stored.
   */
  lemma {:induction false} WrittenEdge(db: Db, edges: seq<GraphEdge>, from: string, to: string, kind: string)
    ensures var t, k := MergeEdges(db, edges), (from, to, kind);
      && (forall i: nat :: LastEdge(edges, i, from, to, kind) && from in db.nodes && to in db.nodes ==>
            k in t.edges && t.edges[k] == match edges[i].metadata case Some(m) => m case None => map[])
      && ((forall i: nat :: !LastEdge(edges, i, from, to, kind)) || from !in db.nodes || to !in db.nodes ==>
            (k in t.edges <==> k in db.edges) && (k in db.edges ==> t.edges[k] == db.edges[k]))
  {
    if edges != [] {
      var init, last := edges[..|edges| - 1], edges[|edges| - 1];
      WrittenEdge(db, init, from, to, kind);
      MergeEdgesFrame(db, init);
      var fits := last.from == from && last.to == to && last.kind == kind;
      forall i: nat
        ensures LastEdge(edges, i, from, to, kind) ==> if fits then i == |init| else LastEdge(init, i, from, to, kind)
      {
        LastEdgeStep(edges, i, from, to, kind);
      }
      forall i: nat | !fits
        ensures LastEdge(init, i, from, to, kind) ==> LastEdge(edges, i, from, to, kind)
      {
        LastEdgeStep(edges, i, from, to, kind);
      }
      hide LastEdge;
      LastEdgeStep(edges, |init|, from, to, kind);
      assert MergeEdges(db, edges) == MergeEdge(MergeEdges(db, init), last);
      hide MergeEdges;
    }
  }

  /** A row handed out has the fields of the stored node it stands for. */
  lemma RowReads(db: Db, i: nat)
    requires i < |db.order| && db.order[i] in db.nodes
    ensures var row, n := Rows(db)[i], db.nodes[db.order[i]];
      && row.id == db.order[i] && row.kind == n.kind && row.name == n.name && row.filePath == n.filePath
      && row.startLine == n.startLine && row.endLine == n.endLine && row.metadata == n.metadata
  {
  }
}
