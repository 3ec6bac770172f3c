/**
 * What the cost queries report, told by the stored nodes and call edges alone: mutual calls instead of
 * component numbers, and call edges between ids instead of adjacency lists of indices.
 */
module CostMeaning {
  import opened Sums
  import opened Tallies
  import opened Records
  import opened Flow
  import opened CostNet
  import opened CostReach
  import opened CostQuery
  import opened CostAttribution
  import opened Cycles
  import Scc

  /** The edge calls out of one cycle into another node's. */
  ghost predicate Crosses(nodes: seq<StoredNode>, edges: seq<CallEdge>, e: CallEdge) {
    Stored(nodes, e.fromId) && Stored(nodes, e.toId) && !CallEachOther(nodes, edges, e.fromId, e.toId)
  }

  /** An edge's count when it enters the node from outside the node's cycle. */
  ghost function Entering(nodes: seq<StoredNode>, edges: seq<CallEdge>, id: string): CallEdge -> real {
    (e: CallEdge) => if e.toId == id && Crosses(nodes, edges, e) then e.count else 0.0
  }

  /** How much a node is called from outside its cycle. */
  ghost function EnteringWeight(nodes: seq<StoredNode>, edges: seq<CallEdge>, id: string): real {
    Sum(edges, Entering(nodes, edges, id))
  }

  /** The net is posed by nodes and edges under this index. */
  ghost predicate PosedBy(nodes: seq<StoredNode>, edges: seq<CallEdge>, net: Net, indexOf: map<string, nat>) {
    && DistinctIds(nodes) && IsIndex(nodes, indexOf) && |net.self| == |nodes|
    && net.calls == Resolved(indexOf, edges) && Numbered(net)
  }

  lemma StoredIffIndexed(nodes: seq<StoredNode>, indexOf: map<string, nat>, id: string)
    requires IsIndex(nodes, indexOf)
    ensures Stored(nodes, id) <==> id in indexOf
  {
    if id in indexOf {
      assert nodes[indexOf[id]].id == id;
    }
  }

  lemma IndexAt(nodes: seq<StoredNode>, indexOf: map<string, nat>, v: nat)
    requires DistinctIds(nodes) && IsIndex(nodes, indexOf) && v < |nodes|
    ensures nodes[v].id in indexOf && indexOf[nodes[v].id] == v
  {
  }

  /** The call that a crossing edge stands for; no other edge stands for a call across components. */
  lemma CrossesIff(nodes: seq<StoredNode>, edges: seq<CallEdge>, net: Net, indexOf: map<string, nat>, e: CallEdge)
    requires PosedBy(nodes, edges, net, indexOf)
    ensures Crosses(nodes, edges, e) ==>
      && e.fromId in indexOf && e.toId in indexOf
      && Resolve(indexOf, e) == [Call(indexOf[e.fromId], indexOf[e.toId], e.count)]
      && net.Cross(Resolve(indexOf, e)[0])
    ensures !Crosses(nodes, edges, e) ==>
      Resolve(indexOf, e) == [] || (|Resolve(indexOf, e)| == 1 && !net.Cross(Resolve(indexOf, e)[0]))
  {
    StoredIffIndexed(nodes, indexOf, e.fromId);
    StoredIffIndexed(nodes, indexOf, e.toId);
    if e.fromId in indexOf && e.toId in indexOf {
      var v, w := indexOf[e.fromId], indexOf[e.toId];
      SameComponentIff(nodes, edges, indexOf, net.comp, net.count, v, w);
      hide Scc.IsSccNumbering, CallEachOther, Stored, Resolved;
    }
  }

  lemma {:induction false} ResolvedSum(indexOf: map<string, nat>, edges: seq<CallEdge>, f: Call -> real,
                                       g: CallEdge -> real)
    requires forall k :: 0 <= k < |edges| ==> Sum(Resolve(indexOf, edges[k]), f) == g(edges[k])
    ensures Sum(Resolved(indexOf, edges), f) == Sum(edges, g)
  {
    if edges != [] {
      var init, last := edges[..|edges| - 1], edges[|edges| - 1];
      ResolvedSum(indexOf, init, f, g);
      SumConcat(Resolved(indexOf, init), Resolve(indexOf, last), f);
      hide Resolve;
    }
  }

  lemma EnteringOfEdge(nodes: seq<StoredNode>, edges: seq<CallEdge>, net: Net, indexOf: map<string, nat>, v: nat,
                       e: CallEdge)
    requires PosedBy(nodes, edges, net, indexOf) && v < |nodes|
    ensures Sum(Resolve(indexOf, e), Only(Callee(), net.CrossCount(), v)) == Entering(nodes, edges, nodes[v].id)(e)
  {
    CrossesIff(nodes, edges, net, indexOf, e);
    IndexAt(nodes, indexOf, v);
    hide Numbered, Crosses, DistinctIds, Resolved;
    var f := Only(Callee(), net.CrossCount(), v);
    var calls := Resolve(indexOf, e);
    if calls != [] {
      SumSnoc([], calls[0], f);
      assert calls == [] + [calls[0]];
    }
    hide Resolve;
  }

  /** The inbound weight of the propagation is the weight of the edges that enter the node's cycle at the node. */
  lemma InboundIsEntering(nodes: seq<StoredNode>, edges: seq<CallEdge>, net: Net, indexOf: map<string, nat>, v: nat)
    requires PosedBy(nodes, edges, net, indexOf) && v < |nodes|
    ensures net.Inbound(v) == EnteringWeight(nodes, edges, nodes[v].id)
  {
    var f := Only(Callee(), net.CrossCount(), v);
    forall k | 0 <= k < |edges|
      ensures Sum(Resolve(indexOf, edges[k]), f) == Entering(nodes, edges, nodes[v].id)(edges[k])
    {
      EnteringOfEdge(nodes, edges, net, indexOf, v, edges[k]);
    }
    hide Resolve, Numbered, DistinctIds, IsIndex, Entering;
    ResolvedSum(indexOf, edges, f, Entering(nodes, edges, nodes[v].id));
  }

  // ---------------------------------------------------------------- inclusive costs

  /** The part of a cost that falls to `count` out of `weight`. */
  ghost function ByCount(cost: real, count: real, weight: real): real {
    if weight > 0.0 then cost * count / weight else 0.0
  }

  /**
   * What an edge out of a node charges that node: the callee's cost, divided by count among the edges
   * that enter the callee.
   */
  ghost function ChargedTo(nodes: seq<StoredNode>, edges: seq<CallEdge>, cost: map<string, real>,
                           id: string): CallEdge -> real {
    (e: CallEdge) =>
      if e.fromId == id && Crosses(nodes, edges, e)
      then ByCount(GetOrZero(cost, e.toId), e.count, EnteringWeight(nodes, edges, e.toId)) else 0.0
  }

  ghost function MetricOf(metric: CostMetric, n: StoredNode): real {
    match metric case Samples => RuntimeValue(n.metadata, "samples") case SelfTime => RuntimeValue(n.metadata, "selfMs")
  }

  /** A cycle member's own metric and what its calls out of the cycle charge it. */
  ghost function CycleCost(nodes: seq<StoredNode>, edges: seq<CallEdge>, metric: CostMetric, cost: map<string, real>,
                           id: string): StoredNode -> real {
    (n: StoredNode) =>
      if CallEachOther(nodes, edges, id, n.id)
      then MetricOf(metric, n) + Sum(edges, ChargedTo(nodes, edges, cost, n.id)) else 0.0
  }

  /** The costs that a model reports are those of the solution, node by node. */
  ghost predicate Costs(nodes: seq<StoredNode>, net: Net, x: nat -> real, cost: map<string, real>) {
    |net.comp| == |nodes| && forall v :: 0 <= v < |nodes| ==> GetOrZero(cost, nodes[v].id) == x(net.comp[v])
  }

  lemma SumOne<T>(x: T, f: T -> real)
    ensures Sum([x], f) == f(x) && Sum([], f) == 0.0
  {
    SumSnoc([], x, f);
    assert [] + [x] == [x];
  }

  lemma DrawnIsByCount(net: Net, x: nat -> real, e: Call)
    requires net.Cross(e)
    ensures net.Flows().Drawn(x)(e) == ByCount(x(net.CompOf(e.to)), e.count, net.Inbound(e.to))
  {
    DrawnAmount(net, x, e);
    hide Net.Flows, Net.Inbound;
  }

  lemma EndsOf(nodes: seq<StoredNode>, edges: seq<CallEdge>, net: Net, indexOf: map<string, nat>, e: CallEdge)
    requires PosedBy(nodes, edges, net, indexOf) && e.fromId in indexOf && e.toId in indexOf
    ensures indexOf[e.fromId] < |nodes| && nodes[indexOf[e.fromId]].id == e.fromId
    ensures indexOf[e.toId] < |nodes| && nodes[indexOf[e.toId]].id == e.toId
  {
    hide Numbered, DistinctIds, Resolved;
  }

  lemma CostOf(nodes: seq<StoredNode>, net: Net, x: nat -> real, cost: map<string, real>, v: nat)
    requires Costs(nodes, net, x, cost) && v < |nodes|
    ensures GetOrZero(cost, nodes[v].id) == x(net.CompOf(v))
  {
    hide GetOrZero;
  }

  /** What a crossing call draws from its callee, in terms of ids. */
  lemma DrawnByCrossing(nodes: seq<StoredNode>, edges: seq<CallEdge>, net: Net, indexOf: map<string, nat>,
                        x: nat -> real, cost: map<string, real>, e: CallEdge)
    requires PosedBy(nodes, edges, net, indexOf) && Costs(nodes, net, x, cost) && Crosses(nodes, edges, e)
    ensures e.fromId in indexOf && e.toId in indexOf
    ensures net.Flows().Drawn(x)(Call(indexOf[e.fromId], indexOf[e.toId], e.count))
      == ByCount(GetOrZero(cost, e.toId), e.count, EnteringWeight(nodes, edges, e.toId))
  {
    hide *;
    CrossesIff(nodes, edges, net, indexOf, e);
    EndsOf(nodes, edges, net, indexOf, e);
    var c := Call(indexOf[e.fromId], indexOf[e.toId], e.count);
    DrawnIsByCount(net, x, c);
    InboundIsEntering(nodes, edges, net, indexOf, c.to);
    CostOf(nodes, net, x, cost, c.to);
  }

  lemma ChargeOfEdge(nodes: seq<StoredNode>, edges: seq<CallEdge>, net: Net, indexOf: map<string, nat>, x: nat -> real,
                     cost: map<string, real>, v: nat, e: CallEdge)
    requires PosedBy(nodes, edges, net, indexOf) && v < |nodes| && Costs(nodes, net, x, cost)
    ensures Sum(Resolve(indexOf, e), Only(Caller(), net.Flows().Drawn(x), v))
      == ChargedTo(nodes, edges, cost, nodes[v].id)(e)
  {
    var f := Only(Caller(), net.Flows().Drawn(x), v);
    CrossesIff(nodes, edges, net, indexOf, e);
    if Crosses(nodes, edges, e) {
      var c := Call(indexOf[e.fromId], indexOf[e.toId], e.count);
      DrawnByCrossing(nodes, edges, net, indexOf, x, cost, e);
      EndsOf(nodes, edges, net, indexOf, e);
      IndexAt(nodes, indexOf, v);
      SumOne(c, f);
      assert c.from == v <==> e.fromId == nodes[v].id;
    } else {
      ChargesNothing(net, x, v, Resolve(indexOf, e));
    }
    hide Resolve, PosedBy, Costs, Crosses, EnteringWeight, ByCount, Network<Call, nat>.Drawn, Net.Flows, Net.Cross, Sum,
         GetOrZero;
  }

  /** A call inside a component draws nothing. */
  lemma ChargesNothing(net: Net, x: nat -> real, v: nat, calls: seq<Call>)
    requires calls == [] || (|calls| == 1 && !net.Cross(calls[0]))
    ensures Sum(calls, Only(Caller(), net.Flows().Drawn(x), v)) == 0.0
  {
    var f := Only(Caller(), net.Flows().Drawn(x), v);
    if calls != [] {
      SumOne(calls[0], f);
      assert calls == [calls[0]];
      DrawnAmount(net, x, calls[0]);
      hide Net.Flows, Net.Inbound, Net.Cross;
    }
  }

  lemma ChargesOfNode(nodes: seq<StoredNode>, edges: seq<CallEdge>, net: Net, indexOf: map<string, nat>, x: nat -> real,
                      cost: map<string, real>, v: nat)
    requires PosedBy(nodes, edges, net, indexOf) && v < |nodes| && Costs(nodes, net, x, cost)
    ensures net.CalleeAmounts(x)(v) == Sum(edges, ChargedTo(nodes, edges, cost, nodes[v].id))
  {
    var f := Only(Caller(), net.Flows().Drawn(x), v);
    forall k | 0 <= k < |edges|
      ensures Sum(Resolve(indexOf, edges[k]), f) == ChargedTo(nodes, edges, cost, nodes[v].id)(edges[k])
    {
      ChargeOfEdge(nodes, edges, net, indexOf, x, cost, v, edges[k]);
    }
    hide Resolve, Numbered, DistinctIds, IsIndex, ChargedTo, Net.Flows;
    ResolvedSum(indexOf, edges, f, ChargedTo(nodes, edges, cost, nodes[v].id));
  }

  lemma MemberCost(nodes: seq<StoredNode>, edges: seq<CallEdge>, metric: CostMetric, net: Net,
                   indexOf: map<string, nat>, x: nat -> real, cost: map<string, real>, i: nat, v: nat)
    requires PosedBy(nodes, edges, net, indexOf) && i < |nodes| && v < |nodes| && Costs(nodes, net, x, cost)
    requires net.self[v] == RuntimeValue(nodes[v].metadata, MetricKey(metric))
    ensures CycleCost(nodes, edges, metric, cost, nodes[i].id)(nodes[v])
      == Only(net.Comps(), net.Selfs(), net.CompOf(i))(v) + Only(net.Comps(), net.CalleeAmounts(x), net.CompOf(i))(v)
  {
    SameComponentIff(nodes, edges, indexOf, net.comp, net.count, i, v);
    ChargesOfNode(nodes, edges, net, indexOf, x, cost, v);
    hide Scc.IsSccNumbering, CallEachOther, Resolved, RuntimeValue, Net.CalleeAmounts, ChargedTo, IsIndex, DistinctIds,
         Sum;
  }

  /**
   * A reported inclusive cost is, over all nodes that call each other with the node, their own metric and
   * what each of their calls out of the cycle charges them: the callee's inclusive cost, divided by count
   * among the call edges that enter the callee from outside its cycle.
   */
  lemma InclusiveCostMeaning(nodes: seq<StoredNode>, edges: seq<CallEdge>, metric: CostMetric, model: CostModel, i: nat)
    requires DistinctIds(nodes) && IsCostModel(nodes, edges, metric, model) && i < |nodes|
    ensures nodes[i].id in model.inclusiveCost
    ensures model.inclusiveCost[nodes[i].id]
      == Sum(nodes, CycleCost(nodes, edges, metric, model.inclusiveCost, nodes[i].id))
  {
    hide Numbered, Net.Inclusive, Describes, IsIndex, Resolved, DistinctIds, RuntimeValue;
    var net, y :| Explains(nodes, edges, metric, model, net, y);
    var indexOf :| IsIndex(nodes, indexOf) && net.calls == Resolved(indexOf, edges);
    assert PosedBy(nodes, edges, net, indexOf);
    hide *;
    NumberedValid(net);
    SelfsPosed(nodes, edges, metric, net);
    CostsReported(nodes, model, net, y);
    CostAt(nodes, net, AsCosts(y), model.inclusiveCost, i);
    CycleTotal(nodes, edges, metric, net, indexOf, AsCosts(y), model.inclusiveCost, i);
  }

  lemma CostsReported(nodes: seq<StoredNode>, model: CostModel, net: Net, y: seq<real>)
    requires |net.self| == |net.comp| == |nodes| && Describes(model, nodes, net, y, |nodes|)
    ensures Costs(nodes, net, AsCosts(y), model.inclusiveCost)
    ensures forall v :: 0 <= v < |nodes| ==> nodes[v].id in model.inclusiveCost
  {
    forall v | 0 <= v < |nodes|
      ensures nodes[v].id in model.inclusiveCost
      ensures GetOrZero(model.inclusiveCost, nodes[v].id) == AsCosts(y)(net.comp[v])
    {
      assert DescribesNode(model, nodes, net, y, v);
      hide Select, Net.Inbound, Renamed, AsCosts;
    }
    hide DescribesNode, AsCosts, GetOrZero;
  }

  lemma CostAt(nodes: seq<StoredNode>, net: Net, x: nat -> real, cost: map<string, real>, v: nat)
    requires Costs(nodes, net, x, cost) && v < |nodes|
    ensures |net.comp| == |nodes| && (nodes[v].id in cost ==> cost[nodes[v].id] == x(net.comp[v]))
  {
  }

  lemma SelfsPosed(nodes: seq<StoredNode>, edges: seq<CallEdge>, metric: CostMetric, net: Net)
    requires Poses(nodes, edges, metric, net)
    ensures |net.self| == |nodes| && MeasuredBy(nodes, metric, net)
  {
  }

  /** The self costs are the nodes' stored metrics. */
  ghost predicate MeasuredBy(nodes: seq<StoredNode>, metric: CostMetric, net: Net) {
    |net.self| == |nodes| && forall v :: 0 <= v < |nodes| ==>
      net.self[v] == RuntimeValue(nodes[v].metadata, MetricKey(metric))
  }

  lemma CycleTotal(nodes: seq<StoredNode>, edges: seq<CallEdge>, metric: CostMetric, net: Net,
                   indexOf: map<string, nat>, x: nat -> real, cost: map<string, real>, i: nat)
    requires PosedBy(nodes, edges, net, indexOf) && i < |nodes| && Costs(nodes, net, x, cost)
    requires net.Valid() && net.Inclusive(x) && MeasuredBy(nodes, metric, net)
    ensures |net.comp| == |nodes| && x(net.comp[i]) == Sum(nodes, CycleCost(nodes, edges, metric, cost, nodes[i].id))
  {
    hide *;
    LengthOf(nodes, metric, net);
    CompAt(net, i);
    SumsExplain(net, x, net.CompOf(i));
    CycleSums(nodes, edges, metric, net, indexOf, x, cost, i);
  }

  lemma CycleSums(nodes: seq<StoredNode>, edges: seq<CallEdge>, metric: CostMetric, net: Net, indexOf: map<string, nat>,
                  x: nat -> real, cost: map<string, real>, i: nat)
    requires PosedBy(nodes, edges, net, indexOf) && i < |nodes| && Costs(nodes, net, x, cost)
    requires MeasuredBy(nodes, metric, net)
    ensures Sum(nodes, CycleCost(nodes, edges, metric, cost, nodes[i].id))
      == Sum(Range(|net.self|), Only(net.Comps(), net.Selfs(), net.CompOf(i)))
       + Sum(Range(|net.self|), Only(net.Comps(), net.CalleeAmounts(x), net.CompOf(i)))
  {
    hide *;
    LengthOf(nodes, metric, net);
    RangeAt(|net.self|);
    MembersAdd(nodes, edges, metric, net, indexOf, x, cost, i, Range(|net.self|));
    SumTwo(nodes, Range(|net.self|), CycleCost(nodes, edges, metric, cost, nodes[i].id),
           Only(net.Comps(), net.Selfs(), net.CompOf(i)), Only(net.Comps(), net.CalleeAmounts(x), net.CompOf(i)));
  }

  lemma RangeAt(n: nat)
    ensures |Range(n)| == n && forall v :: 0 <= v < n ==> Range(n)[v] == v
  {
  }

  lemma MembersAdd(nodes: seq<StoredNode>, edges: seq<CallEdge>, metric: CostMetric, net: Net,
                   indexOf: map<string, nat>, x: nat -> real, cost: map<string, real>, i: nat, range: seq<nat>)
    requires PosedBy(nodes, edges, net, indexOf) && i < |nodes| && Costs(nodes, net, x, cost)
    requires MeasuredBy(nodes, metric, net)
    requires |range| == |nodes| && forall v :: 0 <= v < |range| ==> range[v] == v
    ensures Adds(nodes, range, CycleCost(nodes, edges, metric, cost, nodes[i].id),
                 Only(net.Comps(), net.Selfs(), net.CompOf(i)), Only(net.Comps(), net.CalleeAmounts(x), net.CompOf(i)))
  {
    hide PosedBy, Costs, RuntimeValue, MetricKey, CycleCost, Only, Net.Comps, Net.Selfs, Net.CalleeAmounts, Net.CompOf;
    forall v | 0 <= v < |nodes|
      ensures CycleCost(nodes, edges, metric, cost, nodes[i].id)(nodes[v])
        == Only(net.Comps(), net.Selfs(), net.CompOf(i))(range[v])
          + Only(net.Comps(), net.CalleeAmounts(x), net.CompOf(i))(range[v])
    {
      MemberCost(nodes, edges, metric, net, indexOf, x, cost, i, v);
    }
  }

  /** Term by term, `f` over the one list is `g` plus `h` over the other. */
  ghost predicate Adds<A, B>(s: seq<A>, t: seq<B>, f: A -> real, g: B -> real, h: B -> real) {
    |s| == |t| && forall i :: 0 <= i < |s| ==> f(s[i]) == g(t[i]) + h(t[i])
  }

  lemma SumTwo<A, B>(s: seq<A>, t: seq<B>, f: A -> real, g: B -> real, h: B -> real)
    requires Adds(s, t, f, g, h)
    ensures Sum(s, f) == Sum(t, g) + Sum(t, h)
  {
    var both := (x: B) => g(x) + h(x);
    SumAdd(t, g, h, both);
    SumZip(s, t, f, both);
  }

  lemma LengthOf(nodes: seq<StoredNode>, metric: CostMetric, net: Net)
    requires MeasuredBy(nodes, metric, net)
    ensures |net.self| == |nodes|
  {
  }

  lemma CompAt(net: Net, i: nat)
    requires net.Valid() && i < |net.self|
    ensures |net.comp| == |net.self| && net.CompOf(i) == net.comp[i] < net.count
  {
  }

  lemma SumsExplain(net: Net, x: nat -> real, c: nat)
    requires net.Valid() && net.Inclusive(x) && c < net.count
    ensures x(c) == Sum(Range(|net.self|), Only(net.Comps(), net.Selfs(), c))
      + Sum(Range(|net.self|), Only(net.Comps(), net.CalleeAmounts(x), c))
  {
    net.CalleesExplainInclusive(x, c);
    hide Net.Inclusive, Net.CalleeAmounts, Net.Selfs;
  }

  // ---------------------------------------------------------------- the breakdown of one node

  /** The edge crosses into the node, or out of it. */
  ghost predicate Involves(nodes: seq<StoredNode>, edges: seq<CallEdge>, incoming: bool, id: string, e: CallEdge) {
    Crosses(nodes, edges, e) && (if incoming then e.toId else e.fromId) == id
  }

  /**
   * The flows are those of the edges at these positions below `n`: all that involve the node, once each
   * and in order.
   */
  ghost predicate FlowsAt(nodes: seq<StoredNode>, edges: seq<CallEdge>, incoming: bool, id: string, n: nat,
                          ends: seq<(string, string, real)>, at: seq<nat>)
    requires n <= |edges|
  {
    && |at| == |ends| && (forall i, j :: 0 <= i < j < |at| ==> at[i] < at[j])
    && (forall p: nat :: p in at <==> p < n && Involves(nodes, edges, incoming, id, edges[p]))
    && forall i :: 0 <= i < |at| ==>
         at[i] < n && ends[i] == (edges[at[i]].fromId, edges[at[i]].toId, edges[at[i]].count)
  }

  /** The ends and the count of each of these calls, by id. */
  ghost function EndsById(nodes: seq<StoredNode>, calls: seq<Call>): (ends: seq<(string, string, real)>)
    ensures |ends| == |calls|
    ensures forall k :: 0 <= k < |calls| ==>
      ends[k] == (IdOf(nodes, calls[k].from), IdOf(nodes, calls[k].to), calls[k].count)
  {
    seq(|calls|, k requires 0 <= k < |calls| => (IdOf(nodes, calls[k].from), IdOf(nodes, calls[k].to), calls[k].count))
  }

  ghost function EndOf(incoming: bool): Call -> nat {
    if incoming then Callee() else Caller()
  }

  /** The crossing calls of a node among the first `n` edges. */
  ghost function CrossingUpTo(net: Net, indexOf: map<string, nat>, edges: seq<CallEdge>, incoming: bool, i: nat,
                              n: nat): seq<Call>
    requires n <= |edges|
  {
    Crossing(net, Select(Resolved(indexOf, edges[..n]), EndOf(incoming), i))
  }

  lemma CrossingSnoc(net: Net, calls: seq<Call>, c: Call)
    ensures Crossing(net, calls + [c]) == Crossing(net, calls) + if net.Cross(c) then [c] else []
  {
    assert (calls + [c])[..|calls|] == calls;
    hide Net.Cross;
  }

  lemma ResolvedStep(indexOf: map<string, nat>, edges: seq<CallEdge>, n: nat)
    requires n < |edges|
    ensures Resolved(indexOf, edges[..n + 1]) == Resolved(indexOf, edges[..n]) + Resolve(indexOf, edges[n])
  {
    assert edges[..n + 1][..n] == edges[..n];
    hide Resolve;
  }

  /** One more edge adds its call exactly when it involves the node. */
  lemma CrossingStep(nodes: seq<StoredNode>, edges: seq<CallEdge>, net: Net, indexOf: map<string, nat>, incoming: bool,
                     i: nat, n: nat)
    requires PosedBy(nodes, edges, net, indexOf) && i < |nodes| && n < |edges|
    ensures Involves(nodes, edges, incoming, nodes[i].id, edges[n]) ==>
      && edges[n].fromId in indexOf && edges[n].toId in indexOf
      && CrossingUpTo(net, indexOf, edges, incoming, i, n + 1) == CrossingUpTo(net, indexOf, edges, incoming, i, n)
         + [Call(indexOf[edges[n].fromId], indexOf[edges[n].toId], edges[n].count)]
    ensures !Involves(nodes, edges, incoming, nodes[i].id, edges[n]) ==>
      CrossingUpTo(net, indexOf, edges, incoming, i, n + 1) == CrossingUpTo(net, indexOf, edges, incoming, i, n)
  {
    hide *;
    var e := edges[n];
    CrossingSplit(net, indexOf, edges, incoming, i, n);
    CrossesIff(nodes, edges, net, indexOf, e);
    IndexAtPosed(nodes, edges, net, indexOf, i);
    InvolvesIs(nodes, edges, incoming, nodes[i].id, e);
    if Crosses(nodes, edges, e) {
      EndsOf(nodes, edges, net, indexOf, e);
      EndOfCall(incoming, Call(indexOf[e.fromId], indexOf[e.toId], e.count));
    }
  }

  lemma IndexAtPosed(nodes: seq<StoredNode>, edges: seq<CallEdge>, net: Net, indexOf: map<string, nat>, v: nat)
    requires PosedBy(nodes, edges, net, indexOf) && v < |nodes|
    ensures nodes[v].id in indexOf && indexOf[nodes[v].id] == v
  {
    IndexAt(nodes, indexOf, v);
  }

  lemma InvolvesIs(nodes: seq<StoredNode>, edges: seq<CallEdge>, incoming: bool, id: string, e: CallEdge)
    ensures Involves(nodes, edges, incoming, id, e)
      <==> Crosses(nodes, edges, e) && (if incoming then e.toId else e.fromId) == id
  {
    hide Crosses;
  }

  lemma EndOfCall(incoming: bool, c: Call)
    ensures EndOf(incoming)(c) == if incoming then c.to else c.from
  {
  }

  /** One more edge adds its call when it has one at the node that crosses. */
  lemma CrossingSplit(net: Net, indexOf: map<string, nat>, edges: seq<CallEdge>, incoming: bool, i: nat, n: nat)
    requires n < |edges|
    ensures var calls, before := Resolve(indexOf, edges[n]), CrossingUpTo(net, indexOf, edges, incoming, i, n);
      && |calls| <= 1
      && CrossingUpTo(net, indexOf, edges, incoming, i, n + 1) ==
         if calls != [] && EndOf(incoming)(calls[0]) == i && net.Cross(calls[0]) then before + [calls[0]] else before
  {
    var calls, before := Resolve(indexOf, edges[n]), Resolved(indexOf, edges[..n]);
    ResolvedStep(indexOf, edges, n);
    hide Resolved, EndOf, Net.Cross, Select, Crossing;
    if calls == [] {
      assert before + calls == before;
    } else {
      assert calls == [calls[0]];
      SelectSnoc(before, calls[0], EndOf(incoming), i);
      var chosen := Select(before, EndOf(incoming), i);
      CrossingSnoc(net, chosen, calls[0]);
      assert chosen + [] == chosen && Crossing(net, chosen) + [] == Crossing(net, chosen);
    }
  }

  lemma NoFlows(nodes: seq<StoredNode>, edges: seq<CallEdge>, net: Net, indexOf: map<string, nat>, incoming: bool,
                i: nat)
    requires i < |nodes|
    ensures FlowsAt(nodes, edges, incoming, nodes[i].id, 0,
                    EndsById(nodes, CrossingUpTo(net, indexOf, edges, incoming, i, 0)), [])
  {
    assert edges[..0] == [];
  }

  lemma FlowsStep(nodes: seq<StoredNode>, edges: seq<CallEdge>, incoming: bool, id: string, n: nat,
                  ends: seq<(string, string, real)>, at: seq<nat>)
    requires n < |edges| && FlowsAt(nodes, edges, incoming, id, n, ends, at)
    ensures if Involves(nodes, edges, incoming, id, edges[n])
            then FlowsAt(nodes, edges, incoming, id, n + 1,
                         ends + [(edges[n].fromId, edges[n].toId, edges[n].count)], at + [n])
            else FlowsAt(nodes, edges, incoming, id, n + 1, ends, at)
  {
    hide Involves;
  }

  lemma EndsSnoc(nodes: seq<StoredNode>, calls: seq<Call>, c: Call)
    ensures EndsById(nodes, calls + [c]) == EndsById(nodes, calls) + [(IdOf(nodes, c.from), IdOf(nodes, c.to), c.count)]
  {
    hide IdOf;
  }

  lemma {:induction false} FlowsUpTo(nodes: seq<StoredNode>, edges: seq<CallEdge>, net: Net, indexOf: map<string, nat>,
                                     incoming: bool, i: nat, n: nat)
      returns (at: seq<nat>)
    requires PosedBy(nodes, edges, net, indexOf) && i < |nodes| && n <= |edges|
    ensures FlowsAt(nodes, edges, incoming, nodes[i].id, n,
                    EndsById(nodes, CrossingUpTo(net, indexOf, edges, incoming, i, n)), at)
    decreases n
  {
    hide *;
    if n == 0 {
      at := [];
      NoFlows(nodes, edges, net, indexOf, incoming, i);
    } else {
      at := FlowsUpTo(nodes, edges, net, indexOf, incoming, i, n - 1);
      var calls, e := CrossingUpTo(net, indexOf, edges, incoming, i, n - 1), edges[n - 1];
      CrossingStep(nodes, edges, net, indexOf, incoming, i, n - 1);
      FlowsStep(nodes, edges, incoming, nodes[i].id, n - 1, EndsById(nodes, calls), at);
      if Involves(nodes, edges, incoming, nodes[i].id, e) {
        EndsOf(nodes, edges, net, indexOf, e);
        EndsSnoc(nodes, calls, Call(indexOf[e.fromId], indexOf[e.toId], e.count));
        IdsOf(nodes, indexOf[e.fromId]);
        IdsOf(nodes, indexOf[e.toId]);
        at := at + [n - 1];
      }
    }
  }

  lemma IdsOf(nodes: seq<StoredNode>, v: nat)
    requires v < |nodes|
    ensures IdOf(nodes, v) == nodes[v].id
  {
  }

  /** The listed flows are those of exactly these calls. */
  ghost predicate FlowsOf(nodes: seq<StoredNode>, edges: seq<CallEdge>, incoming: bool, id: string,
                          flows: seq<CostFlow>) {
    exists ends: seq<(string, string, real)>, at: seq<nat> ::
      && FlowsAt(nodes, edges, incoming, id, |edges|, ends, at) && |ends| == |flows|
      && forall k :: 0 <= k < |flows| ==>
           flows[k].id == (if incoming then ends[k].0 else ends[k].1) && flows[k].callCount == ends[k].2
  }

  lemma ListedFlows(nodes: seq<StoredNode>, edges: seq<CallEdge>, net: Net, indexOf: map<string, nat>, x: nat -> real,
                    incoming: bool, i: nat, flows: seq<CostFlow>, neighbour: Call -> nat, share: Call -> real)
    requires PosedBy(nodes, edges, net, indexOf) && i < |nodes|
    requires neighbour == if incoming then Caller() else Callee()
    requires Lists(nodes, net, x, Select(net.calls, EndOf(incoming), i), flows, neighbour, share)
    ensures FlowsOf(nodes, edges, incoming, nodes[i].id, flows)
  {
    var at := FlowsUpTo(nodes, edges, net, indexOf, incoming, i, |edges|);
    var ends := EndsById(nodes, CrossingUpTo(net, indexOf, edges, incoming, i, |edges|));
    assert edges[..|edges|] == edges;
    hide FlowsAt, Select, Crossing, Resolved, Numbered, IsIndex, DistinctIds, IdOf, Network<Call, nat>.Drawn, Net.Flows;
    assert FlowsAt(nodes, edges, incoming, nodes[i].id, |edges|, ends, at);
  }

  /** A flow into a node takes the node's cost by its count among the edges that enter the node. */
  lemma FlowAmounts(nodes: seq<StoredNode>, edges: seq<CallEdge>, net: Net, indexOf: map<string, nat>, x: nat -> real,
                    calls: seq<Call>, flows: seq<CostFlow>, neighbour: Call -> nat, share: Call -> real, k: nat)
    requires PosedBy(nodes, edges, net, indexOf)
    requires Lists(nodes, net, x, calls, flows, neighbour, share) && k < |flows|
    requires forall e :: e in calls ==> e.from < |nodes| && e.to < |nodes|
    ensures var c := Crossing(net, calls)[k];
      && c in calls && c.to < |nodes| && flows[k].callCount == c.count && flows[k].share == share(c)
      && flows[k].id == IdOf(nodes, neighbour(c))
      && flows[k].amount == ByCount(x(net.CompOf(c.to)), c.count, EnteringWeight(nodes, edges, nodes[c.to].id))
  {
    CrossingIn(net, calls);
    var c := Crossing(net, calls)[k];
    assert c in Crossing(net, calls);
    DrawnIsByCount(net, x, c);
    InboundIsEntering(nodes, edges, net, indexOf, c.to);
    hide Crossing, ByCount, EnteringWeight, PosedBy, IdOf, Network<Call, nat>.Drawn, Net.Flows, Net.Cross, Net.Inbound;
  }

  lemma {:induction false} CrossingIn(net: Net, calls: seq<Call>)
    ensures forall c :: c in Crossing(net, calls) ==> c in calls && net.Cross(c)
  {
    hide Net.Cross;
    if calls != [] {
      CrossingIn(net, calls[..|calls| - 1]);
      assert calls == calls[..|calls| - 1] + [calls[|calls| - 1]];
    }
  }

  lemma SelectedEnds(net: Net, incoming: bool, i: nat)
    requires net.Valid()
    ensures forall c :: c in Select(net.calls, EndOf(incoming), i) ==>
      c.from < |net.self| && c.to < |net.self| && EndOf(incoming)(c) == i
  {
    SelectMembers(net.calls, EndOf(incoming), i);
    hide Select;
  }

  /**
   * The callers of a node in its breakdown are the call edges that enter it from outside its cycle, once
   * each and in order; each is charged the node's inclusive cost by its count among them.
   */
  lemma CallersMeaning(nodes: seq<StoredNode>, edges: seq<CallEdge>, metric: CostMetric, net: Net, inclusive: seq<real>,
                       i: nat, result: Attribution)
    requires DistinctIds(nodes) && Poses(nodes, edges, metric, net) && i < |nodes| == |net.self| == |net.comp|
    requires BreaksDown(result, nodes, net, inclusive, i)
    ensures var weight := EnteringWeight(nodes, edges, nodes[i].id);
      && FlowsOf(nodes, edges, true, nodes[i].id, result.callers)
      && forall k :: 0 <= k < |result.callers| ==>
        && result.callers[k].share == ByCount(1.0, result.callers[k].callCount, weight)
        && result.callers[k].amount == ByCount(result.node.inclusiveCost, result.callers[k].callCount, weight)
  {
    var x, calls := AsCosts(inclusive), Select(net.calls, Callee(), i);
    var indexOf :| IsIndex(nodes, indexOf) && net.calls == Resolved(indexOf, edges);
    assert PosedBy(nodes, edges, net, indexOf);
    NumberedValid(net);
    assert EndOf(true) == Callee();
    assert result.node.inclusiveCost == x(net.CompOf(i));
    assert Lists(nodes, net, x, calls, result.callers, Caller(), net.Share());
    hide *;
    SelectedEnds(net, true, i);
    ListedFlows(nodes, edges, net, indexOf, x, true, i, result.callers, Caller(), net.Share());
    forall k | 0 <= k < |result.callers|
      ensures var weight := EnteringWeight(nodes, edges, nodes[i].id); var f := result.callers[k];
        && f.share == ByCount(1.0, f.callCount, weight)
        && f.amount == ByCount(result.node.inclusiveCost, f.callCount, weight)
    {
      FlowAmounts(nodes, edges, net, indexOf, x, calls, result.callers, Caller(), net.Share(), k);
      var c := Crossing(net, calls)[k];
      InboundIsEntering(nodes, edges, net, indexOf, i);
      CalleeIs(c);
      CrossingIn(net, calls);
      ShareByCount(net, c);
    }
  }

  lemma CalleeIs(c: Call)
    ensures Callee()(c) == c.to && Caller()(c) == c.from
  {
  }

  lemma ShareByCount(net: Net, c: Call)
    requires net.Cross(c)
    ensures net.Share()(c) == ByCount(1.0, c.count, net.Inbound(c.to))
  {
    hide Net.Inbound, Net.Cross;
  }

  /**
   * The callees of a node in its breakdown are the call edges that leave its cycle at the node, once each
   * and in order; each charges the callee's inclusive cost by its count among the edges that enter the
   * callee, and its share is that amount over the node's own inclusive cost.
   */
  lemma CalleesMeaning(nodes: seq<StoredNode>, edges: seq<CallEdge>, metric: CostMetric, net: Net, inclusive: seq<real>,
                       i: nat, result: Attribution)
    requires DistinctIds(nodes) && Poses(nodes, edges, metric, net) && i < |nodes| == |net.self| == |net.comp|
    requires BreaksDown(result, nodes, net, inclusive, i)
    ensures FlowsOf(nodes, edges, false, nodes[i].id, result.callees)
    ensures forall k :: 0 <= k < |result.callees| ==>
      ChargesCallee(nodes, edges, net, inclusive, result.node.inclusiveCost, result.callees[k])
  {
    var x, calls := AsCosts(inclusive), Select(net.calls, Caller(), i);
    var indexOf :| IsIndex(nodes, indexOf) && net.calls == Resolved(indexOf, edges);
    assert PosedBy(nodes, edges, net, indexOf);
    NumberedValid(net);
    assert EndOf(false) == Caller();
    assert result.node.inclusiveCost == x(net.CompOf(i));
    assert Lists(nodes, net, x, calls, result.callees, Callee(), CalleeShare(net, x, i));
    hide *;
    SelectedEnds(net, false, i);
    ListedFlows(nodes, edges, net, indexOf, x, false, i, result.callees, Callee(), CalleeShare(net, x, i));
    forall k | 0 <= k < |result.callees|
      ensures ChargesCallee(nodes, edges, net, inclusive, result.node.inclusiveCost, result.callees[k])
    {
      CalleeOf(nodes, edges, net, indexOf, inclusive, i, calls, result.callees, k);
    }
  }

  lemma CalleeOf(nodes: seq<StoredNode>, edges: seq<CallEdge>, net: Net, indexOf: map<string, nat>,
                 inclusive: seq<real>, i: nat, calls: seq<Call>, flows: seq<CostFlow>, k: nat)
    requires PosedBy(nodes, edges, net, indexOf) && i < |nodes| == |net.comp| && k < |flows|
    requires Lists(nodes, net, AsCosts(inclusive), calls, flows, Callee(), CalleeShare(net, AsCosts(inclusive), i))
    requires forall e :: e in calls ==> e.from < |nodes| && e.to < |nodes|
    ensures ChargesCallee(nodes, edges, net, inclusive, AsCosts(inclusive)(net.CompOf(i)), flows[k])
  {
    ListsLength(nodes, net, AsCosts(inclusive), calls, flows, Callee(), CalleeShare(net, AsCosts(inclusive), i));
    hide *;
    var x := AsCosts(inclusive);
    FlowAmounts(nodes, edges, net, indexOf, x, calls, flows, Callee(), CalleeShare(net, x, i), k);
    var c := Crossing(net, calls)[k];
    CalleeIs(c);
    IdsOf(nodes, c.to);
    DrawnAt(nodes, net, x, calls, flows, i, k);
    CalleeFlowReads(nodes, edges, net, inclusive, i, c.to, flows[k]);
  }

  lemma ListsLength(nodes: seq<StoredNode>, net: Net, x: nat -> real, calls: seq<Call>, flows: seq<CostFlow>,
                    neighbour: Call -> nat, share: Call -> real)
    requires Lists(nodes, net, x, calls, flows, neighbour, share)
    ensures |Crossing(net, calls)| == |flows|
  {
  }

  /** The flow goes to some node, charges its inclusive cost by count, and is that amount over `whole`. */
  ghost predicate ChargesCallee(nodes: seq<StoredNode>, edges: seq<CallEdge>, net: Net, inclusive: seq<real>,
                                whole: real, f: CostFlow) {
    exists j: nat :: IsCalleeFlow(nodes, edges, net, inclusive, whole, j, f)
  }

  /** The flow goes to node `j`, charges its inclusive cost by count, and is that amount over `whole`. */
  ghost predicate IsCalleeFlow(nodes: seq<StoredNode>, edges: seq<CallEdge>, net: Net, inclusive: seq<real>,
                               whole: real, j: nat, f: CostFlow) {
    && j < |nodes| && j < |net.comp| && f.id == nodes[j].id
    && f.amount == ByCount(AsCosts(inclusive)(net.comp[j]), f.callCount, EnteringWeight(nodes, edges, nodes[j].id))
    && f.share == if whole > 0.0 then f.amount / whole else 0.0
  }

  lemma DrawnAt(nodes: seq<StoredNode>, net: Net, x: nat -> real, calls: seq<Call>, flows: seq<CostFlow>, i: nat,
                k: nat)
    requires Lists(nodes, net, x, calls, flows, Callee(), CalleeShare(net, x, i)) && k < |flows|
    ensures flows[k].share == ShareOf(flows[k].amount, x(net.CompOf(i)))
  {
    hide Crossing, ShareOf, IdOf, Network<Call, nat>.Drawn, Net.Flows;
  }

  lemma CalleeFlowReads(nodes: seq<StoredNode>, edges: seq<CallEdge>, net: Net, inclusive: seq<real>, i: nat, j: nat,
                        f: CostFlow)
    requires i < |nodes| == |net.comp| && j < |nodes| && f.id == nodes[j].id
    requires f.amount
      == ByCount(AsCosts(inclusive)(net.CompOf(j)), f.callCount, EnteringWeight(nodes, edges, nodes[j].id))
    requires f.share == ShareOf(f.amount, AsCosts(inclusive)(net.CompOf(i)))
    ensures ChargesCallee(nodes, edges, net, inclusive, AsCosts(inclusive)(net.CompOf(i)), f)
  {
    hide ByCount, EnteringWeight, AsCosts;
    assert IsCalleeFlow(nodes, edges, net, inclusive, AsCosts(inclusive)(net.CompOf(i)), j, f);
  }

  // ---------------------------------------------------------------- cycles

  ghost function WithinCycle(nodes: seq<StoredNode>, edges: seq<CallEdge>, id: string): StoredNode -> real {
    (n: StoredNode) => if CallEachOther(nodes, edges, id, n.id) then 1.0 else 0.0
  }

  ghost function Unit(): nat -> real {
    (v: nat) => 1.0
  }

  lemma {:induction false} SumUnits(s: seq<nat>)
    ensures Sum(s, Unit()) == |s| as real
  {
    if s != [] {
      SumUnits(s[..|s| - 1]);
    }
  }

  /** The reported cycle size is the number of nodes that the node calls and is called by; cyclic is more than one. */
  lemma CycleSizeMeaning(nodes: seq<StoredNode>, edges: seq<CallEdge>, metric: CostMetric, net: Net,
                         inclusive: seq<real>, i: nat, result: Attribution)
    requires DistinctIds(nodes) && Poses(nodes, edges, metric, net) && i < |nodes| == |net.self| == |net.comp|
    requires BreaksDown(result, nodes, net, inclusive, i)
    ensures result.node.cycleSize as real == Sum(nodes, WithinCycle(nodes, edges, nodes[i].id))
    ensures result.node.cyclic <==> result.node.cycleSize > 1
  {
    var indexOf :| IsIndex(nodes, indexOf) && net.calls == Resolved(indexOf, edges);
    var range, c := Range(|net.self|), net.comp[i];
    var members := Select(range, net.Comps(), c);
    assert PosedBy(nodes, edges, net, indexOf);
    assert result.node.cycleSize == |members|;
    hide *;
    SumUnits(members);
    SelectSum(range, net.Comps(), c, Unit());
    AtIsSum(range, net.Comps(), Unit(), c);
    forall v | 0 <= v < |nodes|
      ensures WithinCycle(nodes, edges, nodes[i].id)(nodes[v]) == Only(net.Comps(), Unit(), c)(range[v])
    {
      MemberOfCycle(nodes, edges, net, indexOf, i, v);
    }
    SumZip(nodes, range, WithinCycle(nodes, edges, nodes[i].id), Only(net.Comps(), Unit(), c));
  }

  lemma AtIsSum<K, T>(s: seq<T>, key: T -> K, w: T -> real, k: K)
    ensures At(s, key, w, k) == Sum(s, Only(key, w, k))
  {
  }

  lemma MemberOfCycle(nodes: seq<StoredNode>, edges: seq<CallEdge>, net: Net, indexOf: map<string, nat>, i: nat, v: nat)
    requires PosedBy(nodes, edges, net, indexOf) && i < |nodes| && v < |nodes|
    ensures |net.comp| == |nodes|
    ensures WithinCycle(nodes, edges, nodes[i].id)(nodes[v]) == Only(net.Comps(), Unit(), net.comp[i])(v)
  {
    SameComponentIff(nodes, edges, indexOf, net.comp, net.count, i, v);
    hide Scc.IsSccNumbering, CallEachOther, Resolved, IsIndex, DistinctIds;
  }

  ghost function MetricAt(metric: CostMetric): StoredNode -> real {
    (n: StoredNode) => MetricOf(metric, n)
  }

  /** The node shows its own metric, its inclusive cost and that cost's share of all nodes' metric. */
  lemma NodeMeaning(nodes: seq<StoredNode>, edges: seq<CallEdge>, metric: CostMetric, net: Net, inclusive: seq<real>,
                    i: nat, result: Attribution)
    requires Poses(nodes, edges, metric, net) && i < |nodes| == |net.self| == |net.comp|
    requires BreaksDown(result, nodes, net, inclusive, i)
    ensures var total := Sum(nodes, MetricAt(metric));
      && result.node.id == nodes[i].id && result.node.selfCost == MetricOf(metric, nodes[i])
      && result.node.inclusiveCost == AsCosts(inclusive)(net.comp[i])
      && result.node.shareOfTotal == if total > 0.0 then result.node.inclusiveCost / total else 0.0
  {
    SelfsPosed(nodes, edges, metric, net);
    OwnMetric(nodes, metric, net, i);
    hide Poses, Lists, AsCosts, Select, MeasuredBy, MetricOf, MetricAt, Net.TotalSelf;
    TotalMeaning(nodes, metric, net);
  }

  lemma OwnMetric(nodes: seq<StoredNode>, metric: CostMetric, net: Net, v: nat)
    requires MeasuredBy(nodes, metric, net) && v < |nodes|
    ensures net.self[v] == MetricOf(metric, nodes[v])
  {
    hide RuntimeValue;
  }

  lemma TotalMeaning(nodes: seq<StoredNode>, metric: CostMetric, net: Net)
    requires MeasuredBy(nodes, metric, net)
    ensures net.TotalSelf() == Sum(nodes, MetricAt(metric))
  {
    var range := Range(|net.self|);
    LengthOf(nodes, metric, net);
    RangeAt(|net.self|);
    hide MeasuredBy, MetricOf, Range;
    forall v | 0 <= v < |nodes|
      ensures MetricAt(metric)(nodes[v]) == net.Selfs()(range[v])
    {
      OwnMetric(nodes, metric, net, v);
    }
    SumZip(nodes, range, MetricAt(metric), net.Selfs());
  }
}
