/** The causal breakdown of one node: where its inclusive cost goes and who is responsible for it. */
module CostAttribution {
  import opened Sums
  import opened Tallies
  import opened Records
  import opened Flow
  import opened CostNet
  import opened CostReach
  import opened CostQuery

  /** A node with its propagated cost. */
  datatype CostRef = CostRef(
    id: string, selfCost: real, inclusiveCost: real, shareOfTotal: real, cyclic: bool, cycleSize: nat)

  /** One caller or callee, with the cost attributed along the edge and its share of the focal inclusive cost. */
  datatype CostFlow = CostFlow(id: string, amount: real, share: real, callCount: real)

  datatype Attribution = Unknown | Known(node: CostRef, callees: seq<CostFlow>, callers: seq<CostFlow>)

  function ShareOf(amount: real, whole: real): real {
    if whole > 0.0 then amount / whole else 0.0
  }

  ghost function Amount(): CostFlow -> real {
    (f: CostFlow) => f.amount
  }

  ghost function FlowShare(): CostFlow -> real {
    (f: CostFlow) => f.share
  }

  /** The calls of a list that cross a component border. */
  ghost function Crossing(net: Net, calls: seq<Call>): seq<Call> {
    if calls == [] then [] else
      Crossing(net, calls[..|calls| - 1]) + if net.Cross(calls[|calls| - 1]) then [calls[|calls| - 1]] else []
  }

  /** One flow per crossing call: it carries what the call draws from its callee. */
  ghost predicate Lists(nodes: seq<StoredNode>, net: Net, x: nat -> real, calls: seq<Call>, flows: seq<CostFlow>,
                        neighbour: Call -> nat, share: Call -> real) {
    var crossing := Crossing(net, calls);
    && |flows| == |crossing|
    && forall k :: 0 <= k < |flows| ==>
      flows[k] == CostFlow(IdOf(nodes, neighbour(crossing[k])), net.Flows().Drawn(x)(crossing[k]),
                           share(crossing[k]), crossing[k].count)
  }

  ghost function CalleeShare(net: Net, x: nat -> real, v: nat): Call -> real {
    (e: Call) => ShareOf(net.Flows().Drawn(x)(e), x(net.CompOf(v)))
  }

  lemma ListsSnoc(nodes: seq<StoredNode>, net: Net, x: nat -> real, calls: seq<Call>, k: nat, flows: seq<CostFlow>,
                  neighbour: Call -> nat, share: Call -> real)
    requires k < |calls| && Lists(nodes, net, x, calls[..k], flows, neighbour, share)
    ensures Lists(nodes, net, x, calls[..k + 1],
                  if net.Cross(calls[k])
                  then flows + [CostFlow(IdOf(nodes, neighbour(calls[k])), net.Flows().Drawn(x)(calls[k]),
                                         share(calls[k]), calls[k].count)]
                  else flows,
                  neighbour, share)
  {
    assert calls[..k + 1][..k] == calls[..k];
  }

  lemma ListsNone(nodes: seq<StoredNode>, net: Net, x: nat -> real, calls: seq<Call>, neighbour: Call -> nat,
                  share: Call -> real)
    requires calls == []
    ensures Lists(nodes, net, x, calls, [], neighbour, share)
  {
  }

  predicate SameComponent(model: CostModel, id: string, other: string) {
    id in model.componentOf && other in model.componentOf && model.componentOf[id] == model.componentOf[other]
  }

  function Edges(m: map<string, seq<CallEdge>>, id: string): seq<CallEdge> {
    if id in m then m[id] else []
  }

  function CalleeFlow(model: CostModel, id: string, edge: CallEdge): CostFlow {
    var inbound := GetOrZero(model.externalInbound, edge.toId);
    var amount :=
      if inbound > 0.0 then Portion(GetOrZero(model.inclusiveCost, edge.toId), edge.count, inbound) else 0.0;
    CostFlow(edge.toId, amount, ShareOf(amount, GetOrZero(model.inclusiveCost, id)), edge.count)
  }

  function CallerFlow(model: CostModel, id: string, edge: CallEdge): CostFlow {
    var inbound := GetOrZero(model.externalInbound, id);
    CostFlow(edge.fromId,
             if inbound > 0.0 then Portion(GetOrZero(model.inclusiveCost, id), edge.count, inbound) else 0.0,
             ShareOf(edge.count, inbound), edge.count)
  }

  /** What the model's maps hold for one node. */
  lemma Entry(nodes: seq<StoredNode>, model: CostModel, net: Net, inclusive: seq<real>, i: nat)
    requires net.Valid() && |nodes| == |net.self| && Describes(model, nodes, net, inclusive, |nodes|) && i < |nodes|
    ensures var id := nodes[i].id;
      && IdOf(nodes, i) == id && id in model.componentOf && model.componentOf[id] == net.CompOf(i)
      && GetOrZero(model.externalInbound, id) == net.Inbound(i)
      && GetOrZero(model.inclusiveCost, id) == AsCosts(inclusive)(net.CompOf(i))
      && Edges(model.outEdges, id) == Renamed(nodes, Select(net.calls, Caller(), i))
      && Edges(model.inEdges, id) == Renamed(nodes, Select(net.calls, Callee(), i))
  {
    assert DescribesNode(model, nodes, net, inclusive, i);
  }

  /** The loops compute, for a crossing call, exactly what the call draws in the propagation. */
  lemma FlowOfCall(nodes: seq<StoredNode>, model: CostModel, net: Net, inclusive: seq<real>, e: Call)
    requires net.Valid() && |nodes| == |net.self| && Describes(model, nodes, net, inclusive, |nodes|)
    requires e.from < |nodes| && e.to < |nodes|
    ensures var x := AsCosts(inclusive); var drawn := net.Flows().Drawn(x)(e);
      var caller, callee, edge := nodes[e.from].id, nodes[e.to].id, ById(nodes)(e);
      && (SameComponent(model, callee, caller) <==> !net.Cross(e))
      && (SameComponent(model, caller, callee) <==> !net.Cross(e))
      && (net.Cross(e) ==>
            && CalleeFlow(model, caller, edge) == CostFlow(callee, drawn, CalleeShare(net, x, e.from)(e), e.count)
            && CallerFlow(model, callee, edge) == CostFlow(caller, drawn, net.Share()(e), e.count))
  {
    hide Describes, Select, Net.Inbound, Edges, Renamed, Net.Share, Net.Flows, CalleeFlow, CallerFlow, CalleeShare;
    Entry(nodes, model, net, inclusive, e.from);
    Entry(nodes, model, net, inclusive, e.to);
    if net.Cross(e) {
      CalleeFlowOfCall(nodes, model, net, inclusive, e);
      CallerFlowOfCall(nodes, model, net, inclusive, e);
    }
    hide GetOrZero;
  }

  lemma CalleeFlowOfCall(nodes: seq<StoredNode>, model: CostModel, net: Net, inclusive: seq<real>, e: Call)
    requires net.Valid() && |nodes| == |net.self| && Describes(model, nodes, net, inclusive, |nodes|)
    requires e.from < |nodes| && e.to < |nodes| && net.Cross(e)
    ensures var x := AsCosts(inclusive);
      CalleeFlow(model, nodes[e.from].id, ById(nodes)(e))
      == CostFlow(nodes[e.to].id, net.Flows().Drawn(x)(e), CalleeShare(net, x, e.from)(e), e.count)
  {
    hide Describes, Select, Net.Inbound, Edges, Renamed;
    Entry(nodes, model, net, inclusive, e.from);
    Entry(nodes, model, net, inclusive, e.to);
    DrawnAmount(net, AsCosts(inclusive), e);
  }

  lemma CallerFlowOfCall(nodes: seq<StoredNode>, model: CostModel, net: Net, inclusive: seq<real>, e: Call)
    requires net.Valid() && |nodes| == |net.self| && Describes(model, nodes, net, inclusive, |nodes|)
    requires e.from < |nodes| && e.to < |nodes| && net.Cross(e)
    ensures CallerFlow(model, nodes[e.to].id, ById(nodes)(e))
      == CostFlow(nodes[e.from].id, net.Flows().Drawn(AsCosts(inclusive))(e), net.Share()(e), e.count)
  {
    hide Describes, Select, Net.Inbound, Edges, Renamed;
    Entry(nodes, model, net, inclusive, e.to);
    Entry(nodes, model, net, inclusive, e.from);
    DrawnAmount(net, AsCosts(inclusive), e);
  }

  method Callees(nodes: seq<StoredNode>, model: CostModel, id: string, ghost i: nat, ghost net: Net,
                 ghost inclusive: seq<real>)
      returns (callees: seq<CostFlow>)
    requires net.Valid() && |nodes| == |net.self| && Describes(model, nodes, net, inclusive, |nodes|)
    requires i < |nodes| && nodes[i].id == id
    ensures Lists(nodes, net, AsCosts(inclusive), Select(net.calls, Caller(), i), callees, Callee(),
                  CalleeShare(net, AsCosts(inclusive), i))
  {
    ghost var x := AsCosts(inclusive);
    ghost var calls := Select(net.calls, Caller(), i);
    ghost var share := CalleeShare(net, x, i);
    var outEdges := Edges(model.outEdges, id);
    Entry(nodes, model, net, inclusive, i);
    LeavingCalls(net, i, x);
    callees := [];
    ListsNone(nodes, net, x, calls[..0], Callee(), share);
    hide Lists, Net.Inbound, Net.Share, Network<Call, nat>.Drawn, Net.Flows, Describes, Select, Crossing, AsCosts,
         CalleeFlow, SameComponent;
    for k: nat := 0 to |outEdges|
      invariant Lists(nodes, net, x, calls[..k], callees, Callee(), share)
    {
      var edge := outEdges[k];
      FlowOfCall(nodes, model, net, inclusive, calls[k]);
      ListsSnoc(nodes, net, x, calls, k, callees, Callee(), share);
      if SameComponent(model, edge.toId, id) {
        continue;
      }
      callees := callees + [CalleeFlow(model, id, edge)];
    }
    assert calls[..|calls|] == calls;
  }

  method Callers(nodes: seq<StoredNode>, model: CostModel, id: string, ghost i: nat, ghost net: Net,
                 ghost inclusive: seq<real>)
      returns (callers: seq<CostFlow>)
    requires net.Valid() && |nodes| == |net.self| && Describes(model, nodes, net, inclusive, |nodes|)
    requires i < |nodes| && nodes[i].id == id
    ensures Lists(nodes, net, AsCosts(inclusive), Select(net.calls, Callee(), i), callers, Caller(), net.Share())
  {
    ghost var x := AsCosts(inclusive);
    ghost var calls := Select(net.calls, Callee(), i);
    var inEdges := Edges(model.inEdges, id);
    Entry(nodes, model, net, inclusive, i);
    ArrivingCalls(net, i);
    callers := [];
    ListsNone(nodes, net, x, calls[..0], Caller(), net.Share());
    hide Lists, Net.Inbound, Net.Share, Network<Call, nat>.Drawn, Net.Flows, Describes, Select, Crossing, AsCosts,
         CallerFlow, SameComponent;
    for k: nat := 0 to |inEdges|
      invariant Lists(nodes, net, x, calls[..k], callers, Caller(), net.Share())
    {
      var edge := inEdges[k];
      FlowOfCall(nodes, model, net, inclusive, calls[k]);
      ListsSnoc(nodes, net, x, calls, k, callers, Caller(), net.Share());
      if SameComponent(model, edge.fromId, id) {
        continue;
      }
      callers := callers + [CallerFlow(model, id, edge)];
    }
    assert calls[..|calls|] == calls;
  }

  function ToCostRef(model: CostModel, id: string): CostRef {
    var inclusiveCost := GetOrZero(model.inclusiveCost, id);
    var cycleSize: nat := if id in model.cycleSize then model.cycleSize[id] else 1;
    CostRef(id, GetOrZero(model.selfCost, id), inclusiveCost, ShareOf(inclusiveCost, model.totalSelf),
            cycleSize > 1, cycleSize)
  }

  /**
   * The breakdown of the node with the given id: `Unknown` when no node has it. The display order of
   * the two lists is not modelled.
   */
  method Attribute(nodes: seq<StoredNode>, edges: seq<CallEdge>, metric: CostMetric, id: string)
      returns (result: Attribution, ghost net: Net, ghost inclusive: seq<real>)
    requires DistinctIds(nodes)
    ensures Poses(nodes, edges, metric, net) && |inclusive| == net.count && net.Inclusive(AsCosts(inclusive))
    ensures result.Unknown? <==> forall i :: 0 <= i < |nodes| ==> nodes[i].id != id
    ensures forall i: nat :: i < |nodes| && nodes[i].id == id ==> BreaksDown(result, nodes, net, inclusive, i)
  {
    hide *;
    var model;
    model, net, inclusive := ComputeCostModel(nodes, edges, metric);
    ExplainsUnfolds(nodes, edges, metric, model, net, inclusive);
    var nodeIndex := IndexNodes(nodes);
    IndexFinds(nodes, nodeIndex, id);
    if id !in nodeIndex {
      return Unknown, net, inclusive;
    }
    ghost var i := nodeIndex[id];
    var callees := Callees(nodes, model, id, i, net, inclusive);
    var callers := Callers(nodes, model, id, i, net, inclusive);
    RefOf(nodes, model, net, inclusive, i);
    result := Known(ToCostRef(model, id), callees, callers);
    BreaksDownOf(result, nodes, net, inclusive, i);
  }

  lemma ExplainsUnfolds(nodes: seq<StoredNode>, edges: seq<CallEdge>, metric: CostMetric, model: CostModel, net: Net,
                        inclusive: seq<real>)
    requires Explains(nodes, edges, metric, model, net, inclusive)
    ensures Poses(nodes, edges, metric, net) && |net.self| == |net.comp| == |nodes| && net.Valid()
    ensures |inclusive| == net.count && net.Inclusive(AsCosts(inclusive))
    ensures Describes(model, nodes, net, inclusive, |nodes|)
  {
    NumberedValid(net);
    hide Numbered, Net.Valid, Net.Inclusive, Describes;
  }

  /** With distinct ids, the indexed node is the only one with its id. */
  lemma IndexFinds(nodes: seq<StoredNode>, nodeIndex: map<string, nat>, id: string)
    requires DistinctIds(nodes) && IsIndex(nodes, nodeIndex)
    ensures id in nodeIndex ==> nodeIndex[id] < |nodes| && nodes[nodeIndex[id]].id == id
    ensures forall j :: 0 <= j < |nodes| && nodes[j].id == id ==> id in nodeIndex && j == nodeIndex[id]
  {
  }

  /** The reported node carries the net's figures, and the lists hold one flow per crossing call. */
  ghost predicate BreaksDown(result: Attribution, nodes: seq<StoredNode>, net: Net, inclusive: seq<real>, i: nat)
    requires i < |nodes| == |net.self| == |net.comp|
  {
    var x := AsCosts(inclusive);
    && result.Known? && IsRef(result.node, nodes, net, inclusive, i)
    && Lists(nodes, net, x, Select(net.calls, Caller(), i), result.callees, Callee(), CalleeShare(net, x, i))
    && Lists(nodes, net, x, Select(net.calls, Callee(), i), result.callers, Caller(), net.Share())
  }

  lemma BreaksDownOf(result: Attribution, nodes: seq<StoredNode>, net: Net, inclusive: seq<real>, i: nat)
    requires i < |nodes| == |net.self| == |net.comp|
    requires var x := AsCosts(inclusive);
      && result.Known? && IsRef(result.node, nodes, net, inclusive, i)
      && Lists(nodes, net, x, Select(net.calls, Caller(), i), result.callees, Callee(), CalleeShare(net, x, i))
      && Lists(nodes, net, x, Select(net.calls, Callee(), i), result.callers, Caller(), net.Share())
    ensures BreaksDown(result, nodes, net, inclusive, i)
  {
    hide IsRef, Lists, Select, AsCosts, Net.Share;
  }

  ghost predicate IsRef(ref: CostRef, nodes: seq<StoredNode>, net: Net, inclusive: seq<real>, i: nat)
    requires i < |nodes| == |net.self| == |net.comp|
  {
    && ref.id == nodes[i].id && ref.selfCost == net.self[i]
    && ref.inclusiveCost == AsCosts(inclusive)(net.comp[i])
    && ref.shareOfTotal == ShareOf(ref.inclusiveCost, net.TotalSelf())
    && ref.cycleSize == |Select(Range(|net.self|), net.Comps(), net.comp[i])|
    && ref.cyclic == (ref.cycleSize > 1)
  }

  lemma RefOf(nodes: seq<StoredNode>, model: CostModel, net: Net, inclusive: seq<real>, i: nat)
    requires |nodes| == |net.self| == |net.comp| && Describes(model, nodes, net, inclusive, |nodes|) && i < |nodes|
    ensures IsRef(ToCostRef(model, nodes[i].id), nodes, net, inclusive, i)
  {
    assert DescribesNode(model, nodes, net, inclusive, i);
  }

  // ---------------------------------------------------------------- what the breakdown adds up to

  lemma {:induction false} CrossingSum(net: Net, calls: seq<Call>, g: Call -> real)
    requires forall i :: 0 <= i < |calls| && !net.Cross(calls[i]) ==> g(calls[i]) == 0.0
    ensures Sum(Crossing(net, calls), g) == Sum(calls, g)
  {
    if calls != [] {
      var init, last := calls[..|calls| - 1], calls[|calls| - 1];
      CrossingSum(net, init, g);
      if net.Cross(last) {
        SumSnoc(Crossing(net, init), last, g);
      } else {
        assert Crossing(net, calls) == Crossing(net, init);
      }
    }
  }

  lemma ListsSum(nodes: seq<StoredNode>, net: Net, x: nat -> real, calls: seq<Call>, flows: seq<CostFlow>,
                 neighbour: Call -> nat, share: Call -> real)
    requires Lists(nodes, net, x, calls, flows, neighbour, share)
    ensures Sum(flows, Amount()) == Sum(calls, net.Flows().Drawn(x))
  {
    SumZip(flows, Crossing(net, calls), Amount(), net.Flows().Drawn(x));
    CrossingSum(net, calls, net.Flows().Drawn(x));
  }

  lemma ListsShareSum(nodes: seq<StoredNode>, net: Net, x: nat -> real, calls: seq<Call>, flows: seq<CostFlow>,
                      neighbour: Call -> nat, share: Call -> real)
    requires Lists(nodes, net, x, calls, flows, neighbour, share)
    requires forall e :: !net.Cross(e) ==> share(e) == 0.0
    ensures Sum(flows, FlowShare()) == Sum(calls, share)
  {
    SumZip(flows, Crossing(net, calls), FlowShare(), share);
    CrossingSum(net, calls, share);
  }

  /** Caller amounts add up to the inclusive cost of an entry, and caller shares to one. */
  lemma CallersAddUp(nodes: seq<StoredNode>, net: Net, x: nat -> real, i: nat, callers: seq<CostFlow>)
    requires Lists(nodes, net, x, Select(net.calls, Callee(), i), callers, Caller(), net.Share())
    ensures Sum(callers, FlowShare()) == net.IsEntry()(i)
    ensures Sum(callers, Amount()) == x(net.CompOf(i)) * net.IsEntry()(i)
  {
    var calls := Select(net.calls, Callee(), i);
    ListsSum(nodes, net, x, calls, callers, Caller(), net.Share());
    ListsShareSum(nodes, net, x, calls, callers, Caller(), net.Share());
    SelectSum(net.calls, Callee(), i, net.Share());
    SelectSum(net.calls, Callee(), i, net.Flows().Drawn(x));
    net.SharesOfNode(i);
    net.CallersExplainInclusive(x, i);
  }

  /** The factor that turns an amount into a share of a whole. */
  ghost function Inverse(whole: real): real {
    if whole > 0.0 then 1.0 / whole else 0.0
  }

  lemma InverseScales(a: real, whole: real)
    ensures ShareOf(a, whole) == Inverse(whole) * a
    ensures 0.0 <= a <= whole ==> 0.0 <= Inverse(whole) * a <= 1.0
  {
  }

  lemma CalleeShareOf(net: Net, x: nat -> real, i: nat, e: Call)
    ensures CalleeShare(net, x, i)(e) == Inverse(x(net.CompOf(i))) * net.Flows().Drawn(x)(e)
    ensures !net.Cross(e) ==> CalleeShare(net, x, i)(e) == 0.0
  {
    var drawn, whole := net.Flows().Drawn(x)(e), x(net.CompOf(i));
    assert CalleeShare(net, x, i)(e) == ShareOf(drawn, whole);
    assert !net.Cross(e) ==> drawn == 0.0;
    hide Net.Flows, CalleeShare;
    InverseScales(drawn, whole);
    hide Inverse;
  }

  lemma CalleeSharesSum(net: Net, x: nat -> real, i: nat, calls: seq<Call>)
    requires 0.0 <= Sum(calls, net.Flows().Drawn(x)) <= x(net.CompOf(i))
    ensures 0.0 <= Sum(calls, CalleeShare(net, x, i)) <= 1.0
  {
    hide *;
    var drawn, share, whole := net.Flows().Drawn(x), CalleeShare(net, x, i), x(net.CompOf(i));
    forall e: Call
      ensures share(e) == Inverse(whole) * drawn(e)
    {
      CalleeShareOf(net, x, i, e);
    }
    SumScale(calls, Inverse(whole), drawn, share);
    InverseScales(Sum(calls, drawn), whole);
  }

  /** Callee amounts stay within the inclusive cost, and callee shares within one. */
  lemma CalleesAddUp(nodes: seq<StoredNode>, net: Net, x: nat -> real, i: nat, callees: seq<CostFlow>)
    requires net.Valid() && net.NonNegative() && net.Inclusive(x) && i < |net.self|
    requires Lists(nodes, net, x, Select(net.calls, Caller(), i), callees, Callee(), CalleeShare(net, x, i))
    ensures Sum(callees, Amount()) == net.CalleeAmounts(x)(i) <= x(net.comp[i])
    ensures 0.0 <= Sum(callees, FlowShare()) <= 1.0
  {
    var calls := Select(net.calls, Caller(), i);
    hide Lists, CalleeShare, Net.Inclusive, Net.NonNegative, Net.Cross;
    forall e: Call | !net.Cross(e)
      ensures CalleeShare(net, x, i)(e) == 0.0
    {
      CalleeShareOf(net, x, i, e);
    }
    ListsSum(nodes, net, x, calls, callees, Callee(), CalleeShare(net, x, i));
    ListsShareSum(nodes, net, x, calls, callees, Callee(), CalleeShare(net, x, i));
    SelectSum(net.calls, Caller(), i, net.Flows().Drawn(x));
    net.CalleesWithinInclusive(x, i);
    CalleeSharesSum(net, x, i, calls);
  }
}
