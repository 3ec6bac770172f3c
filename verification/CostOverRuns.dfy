/** From profile to share: over every run, the costs a query reads are non-negative and its shares true fractions. */
module CostOverRuns {
  import opened Sums
  import opened Tallies
  import opened Records
  import opened ProfileReader
  import opened Resolve
  import opened CallTree
  import opened Join
  import opened Store
  import opened Enrich
  import opened EnrichLaws
  import opened EnrichTotals
  import opened Coverage
  import opened CostNet
  import opened CostReach
  import opened CostQuery
  import opened CostAttribution

  // ---------------------------------------------------------------- stored metrics are non-negative

  ghost predicate NonNegativeMetadata(m: Metadata) {
    RuntimeValue(m, "samples") >= 0.0 && RuntimeValue(m, "selfMs") >= 0.0
  }

  ghost predicate NonNegativeMetrics(db: Db) {
    forall id :: id in db.nodes ==> NonNegativeMetadata(db.nodes[id].metadata)
  }

  lemma MicrosToMsNonNegative(micros: real)
    requires micros >= 0.0
    ensures MicrosToMs(micros) >= 0.0
  {
    assert Round(micros) as real > micros - 0.5;
  }

  lemma TallyNonNegative<K(!new), T>(s: seq<T>, key: T -> K, w: T -> real, m: map<K, real>, k: K)
    requires IsTally(s, key, w, m) && forall i :: 0 <= i < |s| ==> w(s[i]) >= 0.0
    ensures GetOrZero(m, k) >= 0.0
  {
    SumNonneg(s, Only(key, w, k));
  }

  /** An enrichment attributes no negative weight to any node. */
  lemma AttributionNonNegative(db: Db, profile: Profile, paths: Paths, id: string)
    ensures var r := JoinFor(db, profile, paths);
      && r.microsById.Keys == r.samplesById.Keys
      && GetOrZero(r.samplesById, id) >= 0.0 && GetOrZero(r.microsById, id) >= 0.0
  {
    var site, frames := SiteOf(db, paths), FramesOf(profile);
    var r, matched := JoinOf(site, frames), MatchedFrames(site, frames);
    JoinOfAccounts(site, frames);
    SameKeys(site, frames, r);
    SplitTotals(site, frames, ProfileReader.Samples());
    forall id { CountsNonNegative(profile, id); }
    FramesNonNegative(profile.nodes, SampleCount(profile), MicroCount(profile));
    hide JoinOf, MatchedFrames, DroppedFrames, IsTally, Frames, SiteOf;
    forall i | 0 <= i < |matched|
      ensures ProfileReader.Samples()(matched[i]) >= 0.0 && Micros()(matched[i]) >= 0.0
    {
      assert matched[i] in matched;
    }
    TallyNonNegative(matched, NodeId(site), ProfileReader.Samples(), r.samplesById, id);
    TallyNonNegative(matched, NodeId(site), Micros(), r.microsById, id);
  }

  lemma AttachedNonNegative(db: Db, r: JoinResult, id: string)
    requires id in db.nodes && NonNegativeMetadata(db.nodes[id].metadata) && r.microsById.Keys == r.samplesById.Keys
    requires GetOrZero(r.samplesById, id) >= 0.0 && GetOrZero(r.microsById, id) >= 0.0
    ensures NonNegativeMetadata(Attach(db, r).nodes[id].metadata)
  {
    MetricRead(db, r, id);
    if id in r.samplesById {
      MicrosToMsNonNegative(r.microsById[id]);
    }
    hide Attach, RuntimeValue, MicrosToMs;
  }

  /** Enrichment keeps stored metrics non-negative, whatever the store held before. */
  lemma EnrichNonNegative(db: Db, profile: Profile, paths: Paths)
    requires NonNegativeMetrics(db)
    ensures NonNegativeMetrics(Enriched(db, profile, paths))
  {
    var r := JoinFor(db, profile, paths);
    EnrichedNodes(db, profile, paths);
    hide Enriched, JoinFor, NonNegativeMetadata;
    forall id | id in db.nodes
      ensures NonNegativeMetadata(Attach(db, r).nodes[id].metadata)
    {
      AttributionNonNegative(db, profile, paths, id);
      AttachedNonNegative(db, r, id);
    }
  }

  /** Loaded nodes carry no negative runtime metrics; extracted nodes carry none at all. */
  ghost predicate NonNegativeLoads(nodes: seq<GraphNode>) {
    forall i :: 0 <= i < |nodes| ==> NonNegativeMetadata(OrEmpty(nodes[i].metadata))
  }

  lemma {:induction false} MergeNonNegative(db: Db, nodes: seq<GraphNode>)
    requires NonNegativeMetrics(db) && NonNegativeLoads(nodes)
    ensures NonNegativeMetrics(MergeNodes(db, nodes))
  {
    hide NonNegativeMetadata;
    if nodes != [] {
      MergeNonNegative(db, nodes[..|nodes| - 1]);
    }
  }

  ghost predicate LoadsNonNegative(ops: seq<Op>) {
    forall i :: 0 <= i < |ops| && ops[i].LoadGraph? ==> NonNegativeLoads(ops[i].nodes)
  }

  /** Over every run of loads, enrichments and clears, stored metrics are non-negative. */
  lemma {:induction false} RunsNonNegative(ops: seq<Op>)
    requires LoadsNonNegative(ops)
    ensures NonNegativeMetrics(RunOps(ops))
  {
    if ops != [] {
      var db := RunOps(ops[..|ops| - 1]);
      RunsNonNegative(ops[..|ops| - 1]);
      hide Enriched, NonNegativeMetadata;
      match ops[|ops| - 1]
      case LoadGraph(nodes, edges) =>
        MergeNonNegative(db, nodes);
        MergeEdgesFrame(MergeNodes(db, nodes), edges);
      case EnrichWith(profile, paths) =>
        EnrichNonNegative(db, profile, paths);
      case ClearEdges(kind) =>
      case ClearMeta(key) =>
    }
  }

  // ---------------------------------------------------------------- shares

  lemma {:induction false} ResolvedCounts(indexOf: map<string, nat>, edges: seq<CallEdge>)
    requires forall i :: 0 <= i < |edges| ==> edges[i].count >= 0.0
    ensures forall i :: 0 <= i < |Resolved(indexOf, edges)| ==> Resolved(indexOf, edges)[i].count >= 0.0
  {
    if edges != [] {
      ResolvedCounts(indexOf, edges[..|edges| - 1]);
    }
  }

  /** A problem posed by non-negative metrics and call weights is non-negative. */
  lemma PosedNonNegative(db: Db, edges: seq<CallEdge>, metric: CostMetric, net: Net)
    requires Sound(db) && NonNegativeMetrics(db) && Poses(Rows(db), edges, metric, net)
    requires forall i :: 0 <= i < |edges| ==> edges[i].count >= 0.0
    ensures net.NonNegative()
  {
    hide Numbered;
    var indexOf :| IsIndex(Rows(db), indexOf) && net.calls == Resolved(indexOf, edges);
    ResolvedCounts(indexOf, edges);
    hide RuntimeValue, Resolved, IsIndex;
    forall i | 0 <= i < |net.self|
      ensures net.self[i] >= 0.0
    {
      assert db.order[i] in db.order;
      assert Rows(db)[i] == StoredRow(db, db.order[i]);
      assert NonNegativeMetadata(db.nodes[db.order[i]].metadata);
    }
  }

  /** The inclusive cost that any cost model reports for the node lies between zero and the reported total. */
  lemma ReportedWithinTotal(nodes: seq<StoredNode>, edges: seq<CallEdge>, metric: CostMetric, model: CostModel,
                            net: Net, i: nat)
    requires DistinctIds(nodes) && i < |nodes| && IsCostModel(nodes, edges, metric, model)
    requires Poses(nodes, edges, metric, net) && net.NonNegative() && net.SingleEntry()
    ensures var id := nodes[i].id; id in model.inclusiveCost && 0.0 <= model.inclusiveCost[id] <= model.totalSelf
  {
    PosedLengths(nodes, edges, metric, net);
    NumberedValid(net);
    net.InclusiveExists();
    hide *;
    net.SingleEntryFraction(net.Propagateds(), net.comp[i]);
    CostModelReports(nodes, edges, metric, model, net, net.Propagateds(), i);
  }

  lemma PosedLengths(nodes: seq<StoredNode>, edges: seq<CallEdge>, metric: CostMetric, net: Net)
    requires Poses(nodes, edges, metric, net)
    ensures |net.self| == |net.comp| == |nodes| && Numbered(net)
    ensures forall v :: 0 <= v < |net.comp| ==> net.comp[v] < net.count
  {
    NumberedValid(net);
  }

  /**
   * Over every run: when no component of the call graph is entered through more than one member, every
   * share of the total that the cost query reports is a true fraction.
   */
  lemma SharesOverRuns(ops: seq<Op>, edges: seq<CallEdge>, metric: CostMetric, model: CostModel, net: Net, i: nat)
    requires LoadsNonNegative(ops) && forall k :: 0 <= k < |edges| ==> edges[k].count >= 0.0
    requires var rows := Rows(RunOps(ops));
      i < |rows| && IsCostModel(rows, edges, metric, model) && Poses(rows, edges, metric, net)
    requires net.SingleEntry()
    ensures 0.0 <= ToCostRef(model, Rows(RunOps(ops))[i].id).shareOfTotal <= 1.0
  {
    var db := RunOps(ops);
    RunsStaySound(ops);
    RunsNonNegative(ops);
    RowsDistinct(db);
    hide RunOps, Sound, IsCostModel, Poses, NonNegativeMetrics, Net.SingleEntry, Net.NonNegative;
    PosedNonNegative(db, edges, metric, net);
    ReportedWithinTotal(Rows(db), edges, metric, model, net, i);
    hide *;
    ShareWithin(model, Rows(db)[i].id);
  }

  lemma ShareWithin(model: CostModel, id: string)
    requires id in model.inclusiveCost && 0.0 <= model.inclusiveCost[id] <= model.totalSelf
    ensures 0.0 <= ToCostRef(model, id).shareOfTotal <= 1.0
  {
    if model.totalSelf > 0.0 {
      FractionOf(model.inclusiveCost[id], model.totalSelf);
    }
  }

  /** In particular on every acyclic call graph. */
  lemma AcyclicSharesOverRuns(ops: seq<Op>, edges: seq<CallEdge>, metric: CostMetric, model: CostModel, net: Net,
                              i: nat)
    requires LoadsNonNegative(ops) && forall k :: 0 <= k < |edges| ==> edges[k].count >= 0.0
    requires var rows := Rows(RunOps(ops));
      i < |rows| && IsCostModel(rows, edges, metric, model) && Poses(rows, edges, metric, net)
    requires Acyclic(net)
    ensures 0.0 <= ToCostRef(model, Rows(RunOps(ops))[i].id).shareOfTotal <= 1.0
  {
    PosedLengths(Rows(RunOps(ops)), edges, metric, net);
    NumberedValid(net);
    net.InclusiveExists();
    AcyclicConserves(net, net.Propagateds());
    hide *;
    SharesOverRuns(ops, edges, metric, model, net, i);
  }
}
