/** The cost queries as loops over the stored nodes and call edges. */
module CostQuery {
  import opened Sums
  import opened Records
  import opened Flow
  import opened CostNet
  import opened CostReach
  import Scc
  import Tarjan

  datatype CallEdge = CallEdge(fromId: string, toId: string, count: real)

  datatype CostMetric = SelfTime | Samples

  function MetricKey(metric: CostMetric): string {
    if metric.SelfTime? then "selfMs" else "samples"
  }

  function IdOf(nodes: seq<StoredNode>, i: nat): string {
    if i < |nodes| then nodes[i].id else ""
  }

  // ---------------------------------------------------------------- resolving ids to indices

  ghost predicate IsIndex(nodes: seq<StoredNode>, indexOf: map<string, nat>) {
    && (forall id :: id in indexOf ==> indexOf[id] < |nodes| && nodes[indexOf[id]].id == id)
    && (forall i :: 0 <= i < |nodes| ==> nodes[i].id in indexOf)
  }

  method IndexNodes(nodes: seq<StoredNode>) returns (indexOf: map<string, nat>)
    ensures IsIndex(nodes, indexOf)
  {
    indexOf := map[];
    for i := 0 to |nodes|
      invariant forall id :: id in indexOf ==> indexOf[id] < i && nodes[indexOf[id]].id == id
      invariant forall k :: 0 <= k < i ==> nodes[k].id in indexOf
    {
      indexOf := indexOf[nodes[i].id := i];
    }
  }

  /** The call an edge stands for, if it joins two different known nodes. */
  ghost function Resolve(indexOf: map<string, nat>, e: CallEdge): seq<Call> {
    if e.fromId in indexOf && e.toId in indexOf && indexOf[e.fromId] != indexOf[e.toId]
    then [Call(indexOf[e.fromId], indexOf[e.toId], e.count)] else []
  }

  /** The calls between two different known nodes, in the order of the edges; all other edges are dropped. */
  ghost function Resolved(indexOf: map<string, nat>, edges: seq<CallEdge>): seq<Call> {
    if edges == [] then [] else Resolved(indexOf, edges[..|edges| - 1]) + Resolve(indexOf, edges[|edges| - 1])
  }

  lemma {:induction false} ResolvedInRange(indexOf: map<string, nat>, n: nat, edges: seq<CallEdge>)
    requires forall id :: id in indexOf ==> indexOf[id] < n
    ensures forall e :: e in Resolved(indexOf, edges) ==> e.from < n && e.to < n && e.from != e.to
  {
    if edges != [] {
      ResolvedInRange(indexOf, n, edges[..|edges| - 1]);
    }
  }

  /** Adjacency lists of `n` nodes that hold exactly `calls`. */
  ghost predicate Adjacency(n: nat, calls: seq<Call>, successors: seq<seq<nat>>, outEdges: seq<seq<Call>>,
                            inEdges: seq<seq<Call>>) {
    && |successors| == |outEdges| == |inEdges| == n
    && forall v: nat :: v < n ==>
      && successors[v] == Targets(calls, v)
      && outEdges[v] == Select(calls, Caller(), v)
      && inEdges[v] == Select(calls, Callee(), v)
  }

  lemma AdjacencySnoc(n: nat, calls: seq<Call>, e: Call,
                      successors: seq<seq<nat>>, outEdges: seq<seq<Call>>, inEdges: seq<seq<Call>>)
    requires Adjacency(n, calls, successors, outEdges, inEdges) && e.from < n && e.to < n
    ensures Adjacency(n, calls + [e],
                      successors[e.from := successors[e.from] + [e.to]],
                      outEdges[e.from := outEdges[e.from] + [e]],
                      inEdges[e.to := inEdges[e.to] + [e]])
  {
    assert (calls + [e])[..|calls|] == calls;
    forall v: nat | v < n
      ensures Targets(calls + [e], v) == Targets(calls, v) + if e.from == v then [e.to] else []
      ensures Select(calls + [e], Caller(), v) == Select(calls, Caller(), v) + if e.from == v then [e] else []
      ensures Select(calls + [e], Callee(), v) == Select(calls, Callee(), v) + if e.to == v then [e] else []
    {
      SelectSnoc(calls, e, Caller(), v);
      SelectSnoc(calls, e, Callee(), v);
    }
  }

  method BuildAdjacency(n: nat, indexOf: map<string, nat>, edges: seq<CallEdge>)
      returns (successors: seq<seq<nat>>, outEdges: seq<seq<Call>>, inEdges: seq<seq<Call>>)
    requires forall id :: id in indexOf ==> indexOf[id] < n
    ensures Adjacency(n, Resolved(indexOf, edges), successors, outEdges, inEdges)
  {
    successors, outEdges, inEdges := seq(n, _ => []), seq(n, _ => []), seq(n, _ => []);
    hide Targets, Select;
    for i := 0 to |edges|
      invariant Adjacency(n, Resolved(indexOf, edges[..i]), successors, outEdges, inEdges)
    {
      var edge := edges[i];
      assert edges[..i + 1][..i] == edges[..i];
      assert Resolved(indexOf, edges[..i + 1]) == Resolved(indexOf, edges[..i]) + Resolve(indexOf, edge);
      if edge.fromId !in indexOf || edge.toId !in indexOf || indexOf[edge.fromId] == indexOf[edge.toId] {
        assert Resolved(indexOf, edges[..i + 1]) == Resolved(indexOf, edges[..i]);
        continue;
      }
      var from, to := indexOf[edge.fromId], indexOf[edge.toId];
      AdjacencySnoc(n, Resolved(indexOf, edges[..i]), Call(from, to, edge.count), successors, outEdges, inEdges);
      successors := successors[from := successors[from] + [to]];
      outEdges := outEdges[from := outEdges[from] + [Call(from, to, edge.count)]];
      inEdges := inEdges[to := inEdges[to] + [Call(from, to, edge.count)]];
    }
    assert edges[..|edges|] == edges;
  }

  // ---------------------------------------------------------------- the cost model

  /** The component groups: every component's members, in node order. */
  ghost predicate Grouped(net: Net, componentSize: seq<nat>, selfByComponent: seq<real>, members: seq<seq<nat>>, n: nat)
    requires n <= |net.self|
  {
    && |componentSize| == |selfByComponent| == |members| == net.count
    && forall c: nat :: c < net.count ==>
      && members[c] == Select(Range(n), net.Comps(), c)
      && componentSize[c] == |members[c]|
      && selfByComponent[c] == At(Range(n), net.Comps(), net.Selfs(), c)
  }

  lemma GroupStep(net: Net, i: nat, d: nat)
    requires net.Valid() && i < |net.self|
    ensures Select(Range(i + 1), net.Comps(), d)
      == Select(Range(i), net.Comps(), d) + if d == net.comp[i] then [i] else []
    ensures At(Range(i + 1), net.Comps(), net.Selfs(), d)
         == At(Range(i), net.Comps(), net.Selfs(), d) + if d == net.comp[i] then net.self[i] else 0.0
  {
    SelectSnoc(Range(i), i, net.Comps(), d);
    SumSnoc(Range(i), i, Only(net.Comps(), net.Selfs(), d));
  }

  lemma NoneGrouped(net: Net)
    ensures Grouped(net, seq(net.count, _ => 0), seq(net.count, _ => 0.0), seq(net.count, _ => []), 0)
  {
  }

  lemma GroupedStep(net: Net, componentSize: seq<nat>, selfByComponent: seq<real>, members: seq<seq<nat>>, i: nat)
    requires net.Valid() && i < |net.self| && Grouped(net, componentSize, selfByComponent, members, i)
    ensures var c := net.CompOf(i);
      && c < net.count
      && Grouped(net, componentSize[c := componentSize[c] + 1], selfByComponent[c := selfByComponent[c] + net.self[i]],
                 members[c := members[c] + [i]], i + 1)
  {
    forall d: nat | d < net.count
      ensures Select(Range(i + 1), net.Comps(), d)
        == Select(Range(i), net.Comps(), d) + if d == net.CompOf(i) then [i] else []
      ensures At(Range(i + 1), net.Comps(), net.Selfs(), d)
        == At(Range(i), net.Comps(), net.Selfs(), d) + if d == net.CompOf(i) then net.self[i] else 0.0
    {
      GroupStep(net, i, d);
    }
    hide At, Select, Range, Net.Comps, Net.Selfs;
  }

  method GroupComponents(self: seq<real>, componentOf: seq<nat>, componentCount: nat, ghost net: Net)
      returns (componentSize: seq<nat>, selfByComponent: seq<real>, members: seq<seq<nat>>)
    requires net.Valid() && self == net.self && componentOf == net.comp && componentCount == net.count
    ensures Grouped(net, componentSize, selfByComponent, members, |self|)
  {
    componentSize := seq(componentCount, _ => 0);
    selfByComponent := seq(componentCount, _ => 0.0);
    members := seq(componentCount, _ => []);
    NoneGrouped(net);
    hide Grouped;
    for i: nat := 0 to |self|
      invariant Grouped(net, componentSize, selfByComponent, members, i)
      invariant |componentSize| == |selfByComponent| == |members| == componentCount
    {
      var c := componentOf[i];
      GroupedStep(net, componentSize, selfByComponent, members, i);
      componentSize := componentSize[c := componentSize[c] + 1];
      selfByComponent := selfByComponent[c := selfByComponent[c] + self[i]];
      members := members[c := members[c] + [i]];
    }
  }

  lemma ArrivingCalls(net: Net, to: nat)
    requires net.Valid() && to < |net.self|
    ensures var arriving := Select(net.calls, Callee(), to);
      && Sum(arriving, net.CrossCount()) == net.Inbound(to)
      && forall k :: 0 <= k < |arriving| ==>
        && arriving[k].from < |net.self| && arriving[k].to == to
        && net.CrossCount()(arriving[k])
             == if net.comp[arriving[k].from] != net.comp[to] then arriving[k].count else 0.0
  {
    var arriving := Select(net.calls, Callee(), to);
    SelectMembers(net.calls, Callee(), to);
    SelectSum(net.calls, Callee(), to, net.CrossCount());
    forall k | 0 <= k < |arriving|
      ensures arriving[k] in net.calls && arriving[k].to == to
    {
      assert arriving[k] in arriving;
    }
  }

  /** Inbound weight from outside each node's component. */
  method ExternalInbound(componentOf: seq<nat>, inEdges: seq<seq<Call>>, ghost net: Net)
      returns (externalInbound: seq<real>)
    requires net.Valid() && componentOf == net.comp && |inEdges| == |net.self|
    requires forall v: nat :: v < |net.self| ==> inEdges[v] == Select(net.calls, Callee(), v)
    ensures |externalInbound| == |net.self|
    ensures forall v: nat :: v < |net.self| ==> externalInbound[v] == net.Inbound(v)
  {
    hide Net.Inbound, Net.CrossCount;
    externalInbound := [];
    for to: nat := 0 to |componentOf|
      invariant |externalInbound| == to
      invariant forall v: nat :: v < to ==> externalInbound[v] == net.Inbound(v)
    {
      var inbound := 0.0;
      var arriving := inEdges[to];
      ArrivingCalls(net, to);
      for k := 0 to |arriving|
        invariant inbound == Sum(arriving[..k], net.CrossCount())
      {
        var edge := arriving[k];
        SumPrefix(arriving, k, net.CrossCount());
        if componentOf[edge.from] != componentOf[to] {
          inbound := inbound + edge.count;
        }
      }
      assert arriving[..|arriving|] == arriving;
      externalInbound := externalInbound + [inbound];
    }
  }

  ghost function AsCosts(inclusive: seq<real>): nat -> real {
    (c: nat) => if c < |inclusive| then inclusive[c] else 0.0
  }

  /** The propagation equation of one component. */
  ghost predicate Settled(net: Net, inclusive: seq<real>, c: nat) {
    AsCosts(inclusive)(c)
      == net.ComponentSelf()(c) + At(net.calls, net.CallerComp(), net.Flows().Drawn(AsCosts(inclusive)), c)
  }

  /** Writing the cost of a later component leaves settled ones settled: they only read smaller numbers. */
  lemma StaysSettled(net: Net, inclusive: seq<real>, later: nat, amount: real, c: nat)
    requires net.Valid() && Settled(net, inclusive, c) && c < later < |inclusive|
    ensures Settled(net, inclusive[later := amount], c)
  {
    AtCong(net.calls, net.CallerComp(), net.Flows().Drawn(AsCosts(inclusive)),
           net.Flows().Drawn(AsCosts(inclusive[later := amount])), c);
  }

  lemma BecomesSettled(net: Net, inclusive: seq<real>, c: nat, amount: real)
    requires net.Valid() && c < |inclusive|
    requires amount
      == net.ComponentSelf()(c) + At(net.calls, net.CallerComp(), net.Flows().Drawn(AsCosts(inclusive)), c)
    ensures Settled(net, inclusive[c := amount], c)
  {
    AtCong(net.calls, net.CallerComp(), net.Flows().Drawn(AsCosts(inclusive)),
           net.Flows().Drawn(AsCosts(inclusive[c := amount])), c);
  }

  /** A callee's inclusive cost, partitioned by call weight. */
  function Portion(cost: real, count: real, inbound: real): real
    requires inbound > 0.0
  {
    cost * count / inbound
  }

  /** What one call contributes, in the order of operations of the loop. */
  lemma DrawnAmount(net: Net, x: nat -> real, e: Call)
    ensures net.Flows().Drawn(x)(e) ==
      if net.Cross(e) && net.Inbound(e.to) > 0.0 then Portion(x(net.CompOf(e.to)), e.count, net.Inbound(e.to)) else 0.0
  {
    var inbound := net.Inbound(e.to);
    if net.Cross(e) && inbound > 0.0 {
      hide Net.Inbound;
      calc {
        e.count / inbound * x(net.CompOf(e.to));
        x(net.CompOf(e.to)) * e.count / inbound;
      }
    }
  }

  /** What one node draws from its callees outside its component, given final costs for smaller components. */
  method DrawFrom(leaving: seq<Call>, comp: nat, componentOf: seq<nat>, externalInbound: seq<real>,
                  inclusiveByComponent: array<real>, before: real, ghost net: Net, ghost member: nat)
      returns (inclusive: real)
    requires net.Valid() && member < |net.self| && net.comp[member] == comp < net.count && componentOf == net.comp
    requires leaving == Select(net.calls, Caller(), member)
    requires |externalInbound| == |net.self| && forall v: nat :: v < |net.self| ==> externalInbound[v] == net.Inbound(v)
    requires inclusiveByComponent.Length == net.count
    ensures inclusive == before + net.CalleeAmounts(AsCosts(inclusiveByComponent[..]))(member)
  {
    hide Net.Inbound, Net.Share, Network<Call, nat>.Drawn, Portion;
    ghost var x := AsCosts(inclusiveByComponent[..]);
    ghost var drawn := net.Flows().Drawn(x);
    inclusive := before;
    LeavingCalls(net, member, x);
    hide Net.Flows, Net.Valid, Net.CalleeAmounts, Select;
    for k := 0 to |leaving|
      invariant inclusive == before + Sum(leaving[..k], drawn)
    {
      var edge := leaving[k];
      SumPrefix(leaving, k, drawn);
      var target := componentOf[edge.to];
      if target == comp {
        continue;
      }
      var inbound := externalInbound[edge.to];
      if inbound > 0.0 {
        // a smaller number: its inclusive cost is final
        assert target < comp;
        inclusive := inclusive + Portion(inclusiveByComponent[target], edge.count, inbound);
      }
    }
    assert leaving[..|leaving|] == leaving;
  }

  lemma LeavingCall(net: Net, member: nat, x: nat -> real, k: nat)
    requires net.Valid() && member < |net.self| && k < |Select(net.calls, Caller(), member)|
    ensures var e := Select(net.calls, Caller(), member)[k];
      && e.from == member && e.to < |net.self| && net.comp[e.to] <= net.comp[member]
      && net.Flows().Drawn(x)(e) ==
         if net.comp[e.to] != net.comp[member] && net.Inbound(e.to) > 0.0
         then Portion(x(net.comp[e.to]), e.count, net.Inbound(e.to)) else 0.0
  {
    var e := Select(net.calls, Caller(), member)[k];
    SelectMembers(net.calls, Caller(), member);
    assert e in Select(net.calls, Caller(), member);
    DrawnAmount(net, x, e);
    hide Select, Net.Inbound, Net.Flows, Portion;
  }

  lemma LeavingCalls(net: Net, member: nat, x: nat -> real)
    requires net.Valid() && member < |net.self|
    ensures var leaving := Select(net.calls, Caller(), member);
      && Sum(leaving, net.Flows().Drawn(x)) == net.CalleeAmounts(x)(member)
      && forall k :: 0 <= k < |leaving| ==>
        && leaving[k].from == member && leaving[k].to < |net.self| && net.comp[leaving[k].to] <= net.comp[member]
        && net.Flows().Drawn(x)(leaving[k]) ==
           if net.comp[leaving[k].to] != net.comp[member] && net.Inbound(leaving[k].to) > 0.0
           then Portion(x(net.comp[leaving[k].to]), leaving[k].count, net.Inbound(leaving[k].to)) else 0.0
  {
    SelectSum(net.calls, Caller(), member, net.Flows().Drawn(x));
    forall k: nat | k < |Select(net.calls, Caller(), member)| {
      LeavingCall(net, member, x, k);
    }
    hide Select, Net.Inbound, Net.Flows, Net.Valid, Portion;
  }

  ghost predicate AllSettled(net: Net, inclusive: seq<real>, n: nat) {
    forall c: nat :: c < n ==> Settled(net, inclusive, c)
  }

  /** Settling one more component: its own cost and what its members draw. */
  lemma SettlesNext(net: Net, costs: seq<real>, comp: nat, total: real)
    requires net.Valid() && comp < net.count == |costs| && AllSettled(net, costs, comp)
    requires var members := Select(Range(|net.self|), net.Comps(), comp);
      total == net.ComponentSelf()(comp) + Sum(members, net.CalleeAmounts(AsCosts(costs)))
    ensures AllSettled(net, costs[comp := total], comp + 1)
  {
    SelectSum(Range(|net.self|), net.Comps(), comp, net.CalleeAmounts(AsCosts(costs)));
    net.CalleeAmountsOfComponent(AsCosts(costs), comp);
    BecomesSettled(net, costs, comp, total);
    var next := costs[comp := total];
    hide Settled, Net.Valid;
    forall c: nat | c < comp
      ensures Settled(net, next, c)
    {
      StaysSettled(net, costs, comp, total, c);
    }
  }

  lemma SettledSolves(net: Net, inclusive: seq<real>)
    requires AllSettled(net, inclusive, net.count)
    ensures net.Inclusive(AsCosts(inclusive))
  {
    forall c: nat | c < net.count
      ensures AsCosts(inclusive)(c) ==
        net.ComponentSelf()(c) + At(net.calls, net.CallerComp(), net.Flows().Drawn(AsCosts(inclusive)), c)
    {
      assert Settled(net, inclusive, c);
    }
  }

  lemma NoneSettled(net: Net, inclusive: seq<real>)
    ensures AllSettled(net, inclusive, 0)
  {
  }

  lemma GroupOf(net: Net, componentSize: seq<nat>, selfByComponent: seq<real>, members: seq<seq<nat>>, c: nat)
    requires net.Valid() && Grouped(net, componentSize, selfByComponent, members, |net.self|) && c < net.count
    ensures |selfByComponent| == |members| == net.count && selfByComponent[c] == net.ComponentSelf()(c)
    ensures members[c] == Select(Range(|net.self|), net.Comps(), c)
    ensures forall k :: 0 <= k < |members[c]| ==>
      members[c][k] < |net.self| == |net.comp| && net.comp[members[c][k]] == c
  {
    SelectMembers(Range(|net.self|), net.Comps(), c);
    forall k | 0 <= k < |members[c]|
      ensures members[c][k] < |net.self| && net.comp[members[c][k]] == c
    {
      assert members[c][k] in members[c];
    }
  }

  /** The one forward pass over the components. */
  method Propagate(componentOf: seq<nat>, componentCount: nat, selfByComponent: seq<real>, members: seq<seq<nat>>,
                   outEdges: seq<seq<Call>>, externalInbound: seq<real>, ghost net: Net, ghost componentSize: seq<nat>)
      returns (inclusive: seq<real>)
    requires net.Valid() && componentOf == net.comp && componentCount == net.count
    requires Grouped(net, componentSize, selfByComponent, members, |net.self|)
    requires |outEdges| == |net.self|
    requires forall v: nat :: v < |net.self| ==> outEdges[v] == Select(net.calls, Caller(), v)
    requires |externalInbound| == |net.self| && forall v: nat :: v < |net.self| ==> externalInbound[v] == net.Inbound(v)
    ensures |inclusive| == net.count && net.Inclusive(AsCosts(inclusive))
  {
    hide Settled, AllSettled, Grouped, AsCosts, Select, Range;
    hide Net.Valid, Net.Inclusive, Net.CalleeAmounts, Net.ComponentSelf, Net.Inbound, Net.Comps;
    var inclusiveByComponent := new real[componentCount](_ => 0.0);
    NoneSettled(net, inclusiveByComponent[..]);
    for comp: nat := 0 to componentCount
      invariant AllSettled(net, inclusiveByComponent[..], comp)
    {
      ghost var costs := inclusiveByComponent[..];
      ghost var x := AsCosts(costs);
      GroupOf(net, componentSize, selfByComponent, members, comp);
      var total := selfByComponent[comp];
      for k := 0 to |members[comp]|
        invariant inclusiveByComponent[..] == costs
        invariant total == net.ComponentSelf()(comp) + Sum(members[comp][..k], net.CalleeAmounts(x))
      {
        var member := members[comp][k];
        SumPrefix(members[comp], k, net.CalleeAmounts(x));
        total := DrawFrom(outEdges[member], comp, componentOf, externalInbound, inclusiveByComponent, total,
                          net, member);
      }
      assert members[comp][..|members[comp]|] == members[comp];
      SettlesNext(net, costs, comp, total);
      inclusiveByComponent[comp] := total;
      assert inclusiveByComponent[..] == costs[comp := total];
    }
    inclusive := inclusiveByComponent[..];
    SettledSolves(net, inclusive);
  }

  /** The propagated model, keyed by node id. */
  datatype CostModel = CostModel(
    totalSelf: real,
    measuredNodes: nat,
    selfCost: map<string, real>,
    inclusiveCost: map<string, real>,
    componentOf: map<string, nat>,
    cycleSize: map<string, nat>,
    externalInbound: map<string, real>,
    outEdges: map<string, seq<CallEdge>>,
    inEdges: map<string, seq<CallEdge>>)

  ghost function ById(nodes: seq<StoredNode>): Call -> CallEdge {
    (e: Call) => CallEdge(IdOf(nodes, e.from), IdOf(nodes, e.to), e.count)
  }

  function Renamed(nodes: seq<StoredNode>, calls: seq<Call>): (edges: seq<CallEdge>)
    ensures |edges| == |calls|
    ensures forall i :: 0 <= i < |calls| ==> edges[i] == ById(nodes)(calls[i])
  {
    seq(|calls|, i requires 0 <= i < |calls| =>
      CallEdge(IdOf(nodes, calls[i].from), IdOf(nodes, calls[i].to), calls[i].count))
  }

  ghost function Measured(nodes: seq<StoredNode>): nat {
    if nodes == [] then 0 else
      Measured(nodes[..|nodes| - 1]) + if HasRuntime(nodes[|nodes| - 1].metadata) then 1 else 0
  }

  /** The model's entries for the first `n` nodes are what the net says about them. */
  ghost predicate Describes(model: CostModel, nodes: seq<StoredNode>, net: Net, inclusive: seq<real>, n: nat)
    requires |nodes| == |net.self| == |net.comp| && n <= |nodes|
  {
    && model.totalSelf == Sum(Range(n), net.Selfs())
    && model.measuredNodes == Measured(nodes[..n])
    && forall i :: 0 <= i < n ==> DescribesNode(model, nodes, net, inclusive, i)
  }

  ghost predicate DescribesNode(model: CostModel, nodes: seq<StoredNode>, net: Net, inclusive: seq<real>, i: nat)
    requires i < |nodes| == |net.self| == |net.comp|
  {
    var id := nodes[i].id;
    && id in model.selfCost && model.selfCost[id] == net.self[i]
    && id in model.inclusiveCost && model.inclusiveCost[id] == AsCosts(inclusive)(net.comp[i])
    && id in model.componentOf && model.componentOf[id] == net.comp[i]
    && id in model.cycleSize && model.cycleSize[id] == |Select(Range(|net.self|), net.Comps(), net.comp[i])|
    && id in model.externalInbound && model.externalInbound[id] == net.Inbound(i)
    && id in model.outEdges && model.outEdges[id] == Renamed(nodes, Select(net.calls, Caller(), i))
    && id in model.inEdges && model.inEdges[id] == Renamed(nodes, Select(net.calls, Callee(), i))
  }

  /** The index-level problem that a set of stored nodes and call edges poses, with components `comp`. */
  ghost predicate Poses(nodes: seq<StoredNode>, edges: seq<CallEdge>, metric: CostMetric, net: Net) {
    && |net.self| == |nodes|
    && (forall i :: 0 <= i < |nodes| ==> net.self[i] == RuntimeValue(nodes[i].metadata, MetricKey(metric)))
    && (exists indexOf :: IsIndex(nodes, indexOf) && net.calls == Resolved(indexOf, edges))
    && Numbered(net)
  }

  /** The model reports the inclusive costs of the problem that the nodes and edges pose. */
  ghost predicate Explains(nodes: seq<StoredNode>, edges: seq<CallEdge>, metric: CostMetric,
                           model: CostModel, net: Net, inclusive: seq<real>) {
    && Poses(nodes, edges, metric, net) && |net.self| == |net.comp| == |nodes|
    && |inclusive| == net.count && net.Inclusive(AsCosts(inclusive))
    && Describes(model, nodes, net, inclusive, |nodes|)
  }

  ghost predicate IsCostModel(nodes: seq<StoredNode>, edges: seq<CallEdge>, metric: CostMetric, model: CostModel) {
    exists net, inclusive :: Explains(nodes, edges, metric, model, net, inclusive)
  }

  /** The numbering of the calls' components makes a net that nodes and edges pose. */
  lemma NetIsPosed(nodes: seq<StoredNode>, edges: seq<CallEdge>, metric: CostMetric, indexOf: map<string, nat>,
                   successors: Scc.Graph, net: Net)
    requires IsIndex(nodes, indexOf) && net.calls == Resolved(indexOf, edges) && |net.self| == |nodes|
    requires forall i :: 0 <= i < |nodes| ==> net.self[i] == RuntimeValue(nodes[i].metadata, MetricKey(metric))
    requires forall i :: 0 <= i < |net.calls| ==> net.calls[i].from < |nodes| && net.calls[i].to < |nodes|
    requires successors == GraphOf(|nodes|, net.calls) && Scc.IsSccNumbering(successors, net.comp, net.count)
    ensures Poses(nodes, edges, metric, net) && net.Valid()
    ensures |net.comp| == |nodes| && forall v :: 0 <= v < |nodes| ==> net.comp[v] < net.count
  {
    assert |successors| == |nodes|;
    assert |net.comp| == |nodes| && forall v :: 0 <= v < |nodes| ==> net.comp[v] < net.count;
    hide Scc.IsSccNumbering, Resolved, IsIndex, RuntimeValue, GraphOf;
    assert Numbered(net);
    NumberedValid(net);
    hide Numbered, Net.Valid;
  }

  method ComputeCostModel(nodes: seq<StoredNode>, edges: seq<CallEdge>, metric: CostMetric)
      returns (model: CostModel, ghost net: Net, ghost inclusive: seq<real>)
    requires DistinctIds(nodes)
    ensures IsCostModel(nodes, edges, metric, model)
    ensures Explains(nodes, edges, metric, model, net, inclusive)
  {
    var indexOf := IndexNodes(nodes);
    var self := seq(|nodes|, i requires 0 <= i < |nodes| => RuntimeValue(nodes[i].metadata, MetricKey(metric)));
    var successors, outEdges, inEdges := BuildAdjacency(|nodes|, indexOf, edges);
    ghost var calls := Resolved(indexOf, edges);
    SuccessorsAreGraph(indexOf, |nodes|, edges, successors);
    var componentOf, componentCount, _ := Tarjan.StronglyConnectedComponents(successors);
    net := Net(self, calls, componentOf, componentCount);
    NetIsPosed(nodes, edges, metric, indexOf, successors, net);
    hide Scc.IsSccNumbering, Net.Valid, MetricKey, RuntimeValue, Targets, DistinctIds;
    hide Poses, Resolved, IsIndex, Net.Inclusive, Describes, Net.Inbound, Select, Explains, IsCostModel;
    assert forall v :: 0 <= v < |nodes| ==> componentOf[v] < componentCount;
    var componentSize, selfByComponent, members := GroupComponents(self, componentOf, componentCount, net);
    var externalInbound := ExternalInbound(componentOf, inEdges, net);
    var costs := Propagate(componentOf, componentCount, selfByComponent, members, outEdges, externalInbound, net,
                           componentSize);
    inclusive := costs;
    model := BuildModel(nodes, self, componentOf, componentSize, externalInbound, costs, outEdges, inEdges, net);
    ModelExplains(nodes, edges, metric, model, net, inclusive);
  }

  lemma ModelExplains(nodes: seq<StoredNode>, edges: seq<CallEdge>, metric: CostMetric,
                      model: CostModel, net: Net, inclusive: seq<real>)
    requires Poses(nodes, edges, metric, net) && |net.self| == |net.comp| == |nodes|
    requires |inclusive| == net.count && net.Inclusive(AsCosts(inclusive))
    requires Describes(model, nodes, net, inclusive, |nodes|)
    ensures Explains(nodes, edges, metric, model, net, inclusive) && IsCostModel(nodes, edges, metric, model)
  {
    hide Poses, Describes, Net.Inclusive;
    assert Explains(nodes, edges, metric, model, net, inclusive);
  }

  lemma SuccessorsAreGraph(indexOf: map<string, nat>, n: nat, edges: seq<CallEdge>, successors: seq<seq<nat>>)
    requires forall id :: id in indexOf ==> indexOf[id] < n
    requires |successors| == n && forall v: nat :: v < n ==> successors[v] == Targets(Resolved(indexOf, edges), v)
    ensures successors == GraphOf(n, Resolved(indexOf, edges)) && Scc.InRange(successors)
    ensures var calls := Resolved(indexOf, edges);
      forall i :: 0 <= i < |calls| ==> calls[i].from < n && calls[i].to < n
  {
    ResolvedInRange(indexOf, n, edges);
    forall v, j | 0 <= v < n && 0 <= j < |successors[v]|
      ensures successors[v][j] < n
    {
      assert successors[v][j] in Targets(Resolved(indexOf, edges), v);
    }
  }

  method BuildModel(nodes: seq<StoredNode>, self: seq<real>, componentOf: seq<nat>, componentSize: seq<nat>,
                    externalInbound: seq<real>, costs: seq<real>, outEdges: seq<seq<Call>>, inEdges: seq<seq<Call>>,
                    ghost net: Net)
      returns (model: CostModel)
    requires DistinctIds(nodes) && |nodes| == |self| == |componentOf| == |externalInbound| == |outEdges| == |inEdges|
    requires self == net.self && componentOf == net.comp && |costs| == |componentSize| == net.count
    requires forall v :: 0 <= v < |nodes| ==> componentOf[v] < net.count
    requires forall c: nat :: c < net.count ==> componentSize[c] == |Select(Range(|self|), net.Comps(), c)|
    requires forall v: nat :: v < |nodes| ==>
      && externalInbound[v] == net.Inbound(v)
      && outEdges[v] == Select(net.calls, Caller(), v) && inEdges[v] == Select(net.calls, Callee(), v)
    ensures Describes(model, nodes, net, costs, |nodes|)
  {
    model := CostModel(0.0, 0, map[], map[], map[], map[], map[], map[], map[]);
    for i: nat := 0 to |nodes|
      invariant Describes(model, nodes, net, costs, i)
    {
      var node, comp := nodes[i], componentOf[i];
      ghost var before := model;
      model := CostModel(
        model.totalSelf + self[i],
        model.measuredNodes + if HasRuntime(node.metadata) then 1 else 0,
        model.selfCost[node.id := self[i]],
        model.inclusiveCost[node.id := costs[comp]],
        model.componentOf[node.id := comp],
        model.cycleSize[node.id := componentSize[comp]],
        model.externalInbound[node.id := externalInbound[i]],
        model.outEdges[node.id := Renamed(nodes, outEdges[i])],
        model.inEdges[node.id := Renamed(nodes, inEdges[i])]);
      assert DescribesNode(model, nodes, net, costs, i);
      DescribesStep(before, model, nodes, net, costs, i);
      hide DescribesNode, Describes;
    }
    assert nodes[..|nodes|] == nodes;
  }

  lemma IndexUnique(nodes: seq<StoredNode>, a: map<string, nat>, b: map<string, nat>)
    requires DistinctIds(nodes) && IsIndex(nodes, a) && IsIndex(nodes, b)
    ensures a == b
  {
    forall id | id in a
      ensures id in b && a[id] == b[id]
    {
      assert nodes[a[id]].id == id;
    }
    forall id | id in b
      ensures id in a
    {
      assert nodes[b[id]].id == id;
    }
  }

  lemma PosedAlike(nodes: seq<StoredNode>, edges: seq<CallEdge>, metric: CostMetric, net: Net, other: Net)
    requires DistinctIds(nodes) && Poses(nodes, edges, metric, net) && Poses(nodes, edges, metric, other)
    ensures Renumbered(net, other)
  {
    hide Numbered, DistinctIds;
    var a :| IsIndex(nodes, a) && net.calls == Resolved(a, edges);
    var b :| IsIndex(nodes, b) && other.calls == Resolved(b, edges);
    IndexUnique(nodes, a, b);
    hide IsIndex, Resolved;
    assert net.self == other.self;
  }

  /** A cost model reports the total and the inclusive costs of any net that its input poses. */
  lemma CostModelReports(nodes: seq<StoredNode>, edges: seq<CallEdge>, metric: CostMetric, model: CostModel, net: Net,
                         x: nat -> real, i: nat)
    requires DistinctIds(nodes) && i < |nodes| && IsCostModel(nodes, edges, metric, model)
    requires Poses(nodes, edges, metric, net) && net.Inclusive(x) && i < |net.comp|
    ensures var id := nodes[i].id;
      model.totalSelf == net.TotalSelf() && id in model.inclusiveCost && model.inclusiveCost[id] == x(net.comp[i])
  {
    hide Poses, Net.Inclusive, Net.Inbound, Renamed, Select, Measured, Numbered;
    var other, y :| Explains(nodes, edges, metric, model, other, y);
    PosedAlike(nodes, edges, metric, net, other);
    InclusiveIgnoresNumbering(net, other, x, AsCosts(y), i);
    assert DescribesNode(model, nodes, other, y, i);
    assert net.Selfs() == other.Selfs();
    hide AsCosts;
  }

  /** The reported total and inclusive costs are determined by the nodes and edges. */
  lemma CostModelUnique(nodes: seq<StoredNode>, edges: seq<CallEdge>, metric: CostMetric, a: CostModel, b: CostModel,
                        i: nat)
    requires DistinctIds(nodes) && i < |nodes|
    requires IsCostModel(nodes, edges, metric, a) && IsCostModel(nodes, edges, metric, b)
    ensures a.totalSelf == b.totalSelf
    ensures var id := nodes[i].id;
      id in a.inclusiveCost && id in b.inclusiveCost && a.inclusiveCost[id] == b.inclusiveCost[id]
  {
    hide Poses, Net.Inclusive, Describes;
    var net, x :| Explains(nodes, edges, metric, a, net, x);
    CostModelReports(nodes, edges, metric, a, net, AsCosts(x), i);
    CostModelReports(nodes, edges, metric, b, net, AsCosts(x), i);
    hide IsCostModel;
  }

  /** One more node is described; the entries of the earlier ones stay. */
  lemma DescribesStep(before: CostModel, after: CostModel, nodes: seq<StoredNode>, net: Net, costs: seq<real>, i: nat)
    requires DistinctIds(nodes) && |nodes| == |net.self| == |net.comp| && i < |nodes|
    requires Describes(before, nodes, net, costs, i) && DescribesNode(after, nodes, net, costs, i)
    requires after.totalSelf == before.totalSelf + net.self[i]
    requires after.measuredNodes == before.measuredNodes + if HasRuntime(nodes[i].metadata) then 1 else 0
    requires SameBut(before, after, nodes[i].id)
    ensures Describes(after, nodes, net, costs, i + 1)
  {
    TotalStep(net, i);
    assert nodes[..i + 1][..i] == nodes[..i] && nodes[..i + 1][i] == nodes[i];
    hide DescribesNode, HasRuntime, SameBut, Sum, Select, Net.Inbound, Net.Selfs, Renamed, AsCosts, Range;
    forall k: nat | k < i
      ensures DescribesNode(after, nodes, net, costs, k)
    {
      DescribesStays(before, after, nodes, net, costs, i, k);
    }
  }

  lemma TotalStep(net: Net, i: nat)
    requires i < |net.self|
    ensures Sum(Range(i + 1), net.Selfs()) == Sum(Range(i), net.Selfs()) + net.self[i]
  {
    SumSnoc(Range(i), i, net.Selfs());
  }

  lemma DescribesStays(before: CostModel, after: CostModel, nodes: seq<StoredNode>, net: Net, costs: seq<real>, i: nat,
                       k: nat)
    requires |nodes| == |net.self| == |net.comp| && i < |nodes| && k < |nodes| && nodes[k].id != nodes[i].id
    requires DescribesNode(before, nodes, net, costs, k) && SameBut(before, after, nodes[i].id)
    ensures DescribesNode(after, nodes, net, costs, k)
  {
    hide Select, Net.Inbound, Renamed, AsCosts, Range, Net.Comps;
  }

  /** The entries of all other ids are unchanged. */
  ghost predicate SameBut(a: CostModel, b: CostModel, id: string) {
    && b.selfCost == a.selfCost[id := if id in b.selfCost then b.selfCost[id] else 0.0]
    && b.inclusiveCost == a.inclusiveCost[id := if id in b.inclusiveCost then b.inclusiveCost[id] else 0.0]
    && b.componentOf == a.componentOf[id := if id in b.componentOf then b.componentOf[id] else 0]
    && b.cycleSize == a.cycleSize[id := if id in b.cycleSize then b.cycleSize[id] else 0]
    && b.externalInbound == a.externalInbound[id := if id in b.externalInbound then b.externalInbound[id] else 0.0]
    && b.outEdges == a.outEdges[id := if id in b.outEdges then b.outEdges[id] else []]
    && b.inEdges == a.inEdges[id := if id in b.inEdges then b.inEdges[id] else []]
  }
}
