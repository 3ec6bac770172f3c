/** Three stored nodes and four call edges whose cost query reports a share of the total of two. */
module Overcharge {
  import opened Sums
  import opened Records
  import opened CostNet
  import opened CostReach
  import opened CostQuery
  import opened CostAttribution

  const MEASURED: Metadata := map[RUNTIME_KEY := Obj(map["selfMs" := Num(10.0)])]
  const A := StoredNode("a", "Function", "a", "f", 1, 1, MEASURED)
  const B := StoredNode("b", "Function", "b", "f", 2, 2, map[])
  const C := StoredNode("c", "Function", "c", "f", 3, 3, map[])

  /** `a` and `b` call each other, and `c` calls both. */
  const NODES := [A, B, C]
  const EDGES := [CallEdge("a", "b", 1.0), CallEdge("b", "a", 1.0), CallEdge("c", "a", 1.0), CallEdge("c", "b", 1.0)]
  const INDEX: map<string, nat> := map["a" := 0, "b" := 1, "c" := 2]

  lemma IdsDiffer()
    ensures "a" != "b" && "a" != "c" && "b" != "c"
  {
    assert "a"[0] == 'a' && "b"[0] == 'b' && "c"[0] == 'c';
  }

  lemma NodesIndexed()
    ensures DistinctIds(NODES) && IsIndex(NODES, INDEX)
    ensures INDEX["a"] == 0 && INDEX["b"] == 1 && INDEX["c"] == 2
  {
    IdsDiffer();
  }

  lemma SelfCosts()
    ensures forall i :: 0 <= i < 3 ==> RuntimeValue(NODES[i].metadata, MetricKey(SelfTime)) == TwoEntries().self[i]
  {
    assert MEASURED[RUNTIME_KEY].fields["selfMs"].n == 10.0;
  }

  predicate JoinsTwo(indexOf: map<string, nat>, e: CallEdge) {
    e.fromId in indexOf && e.toId in indexOf && indexOf[e.fromId] != indexOf[e.toId]
  }

  function CallOf(indexOf: map<string, nat>, e: CallEdge): Call
    requires JoinsTwo(indexOf, e)
  {
    Call(indexOf[e.fromId], indexOf[e.toId], e.count)
  }

  /** Edges that all join two known nodes are resolved one by one. */
  lemma {:induction false} AllResolved(indexOf: map<string, nat>, edges: seq<CallEdge>)
    requires forall i :: 0 <= i < |edges| ==> JoinsTwo(indexOf, edges[i])
    ensures |Resolved(indexOf, edges)| == |edges|
    ensures forall i :: 0 <= i < |edges| ==> Resolved(indexOf, edges)[i] == CallOf(indexOf, edges[i])
  {
    if edges != [] {
      AllResolved(indexOf, edges[..|edges| - 1]);
    }
  }

  lemma CallsResolved()
    ensures Resolved(INDEX, EDGES) == TwoEntries().calls
  {
    NodesIndexed();
    AllResolved(INDEX, EDGES);
    hide Resolved, INDEX;
  }

  /** The stored nodes and edges pose the overcharged net. */
  lemma OverchargePosed()
    ensures Poses(NODES, EDGES, SelfTime, TwoEntries()) && DistinctIds(NODES)
  {
    NodesIndexed();
    SelfCosts();
    CallsResolved();
    TwoEntriesNumbered();
    hide Resolved, IsIndex, Numbered, RuntimeValue, INDEX;
  }

  /** Every cost model of this input charges `c` twice the total: its reported share is two. */
  lemma ReportedShareIsTwo(model: CostModel)
    requires IsCostModel(NODES, EDGES, SelfTime, model)
    ensures model.totalSelf == 10.0 && ToCostRef(model, "c").inclusiveCost == 20.0
    ensures ToCostRef(model, "c").shareOfTotal == 2.0
  {
    var net := TwoEntries();
    OverchargePosed();
    NumberedValid(net);
    net.InclusiveExists();
    TwoEntriesOvercharge(net.Propagateds());
    assert net.comp[2] == 1 && |net.self| == 3 && NODES[2].id == "c";
    hide TwoEntries, Poses, Net.Inclusive, Net.Propagateds, Net.Inbound, Renamed, Select, Measured, Numbered;
    CostModelReports(NODES, EDGES, SelfTime, model, net, net.Propagateds(), 2);
    hide IsCostModel;
  }
}
