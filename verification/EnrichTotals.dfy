/** How the numbers of an enrichment reconcile: node metrics, manifest, coverage and the cost query's total. */
module EnrichTotals {
  import opened Sums
  import opened Tallies
  import opened Records
  import opened Resolve
  import opened CallTree
  import opened ProfileReader
  import opened Join
  import opened Store
  import opened Enrich
  import opened EnrichLaws
  import CostNet
  import CostQuery

  /** A metric of the stored node with the given id, as the cost query reads it. */
  ghost function NodeMetric(db: Db, key: string): string -> real {
    (id: string) => if id in db.nodes then RuntimeValue(db.nodes[id].metadata, key) else 0.0
  }

  /** No node carries runtime metrics. */
  ghost predicate Unmeasured(db: Db) {
    forall id :: id in db.nodes ==> RUNTIME_KEY !in db.nodes[id].metadata
  }

  ghost function JoinFor(db: Db, profile: Profile, paths: Paths): JoinResult {
    JoinOf(SiteOf(db, paths), FramesOf(profile))
  }

  lemma EnrichedNodes(db: Db, profile: Profile, paths: Paths)
    ensures var t := Enriched(db, profile, paths);
      t.order == db.order && t.nodes == Attach(db, JoinFor(db, profile, paths)).nodes
  {
    var site := SiteOf(db, paths);
    var r := JoinOf(site, FramesOf(profile));
    hide JoinOf, RuntimeEdges, Encoded, ManifestOf, FramesOf, SiteOf, Attach, Written;
    WrittenFrame(db, r, Encoded(ManifestOf(profile, r)), RuntimeGraphEdges(RuntimeEdges(site, profile)));
  }

  /** What a node reads after enrichment: the new metrics if it is attributed, and its earlier ones if not. */
  lemma MetricRead(db: Db, r: JoinResult, id: string)
    requires id in db.nodes && r.microsById.Keys == r.samplesById.Keys
    ensures var before, after := db.nodes[id].metadata, Attach(db, r).nodes[id].metadata;
      if id in r.samplesById
      then RuntimeValue(after, "samples") == r.samplesById[id]
        && RuntimeValue(after, "selfMs") == MicrosToMs(r.microsById[id])
      else after == before
  {
    if id in r.samplesById {
      assert Attach(db, r).nodes[id].metadata[RUNTIME_KEY] == Metrics(r.samplesById[id], r.microsById[id]);
    }
  }

  /** The metrics of the `i`-th stored node after an enrichment. */
  lemma MetricAfter(db: Db, profile: Profile, paths: Paths, i: nat)
    requires Sound(db) && Unmeasured(db) && i < |db.order|
    ensures var r, t, id := JoinFor(db, profile, paths), Enriched(db, profile, paths), db.order[i];
      && NodeMetric(t, "samples")(id) == ValueOf(r.samplesById)(id)
      && NodeMetric(t, "selfMs")(id) == if id in r.microsById then MicrosToMs(r.microsById[id]) else 0.0
  {
    var r, id := JoinFor(db, profile, paths), db.order[i];
    JoinOfAccounts(SiteOf(db, paths), FramesOf(profile));
    SameKeys(SiteOf(db, paths), FramesOf(profile), r);
    EnrichedNodes(db, profile, paths);
    hide Enriched, JoinFor, Accounts;
    assert id in db.order;
    MetricRead(db, r, id);
    assert id in Attach(db, r).nodes;
    hide Attach, Enumerates, RuntimeValue;
  }

  lemma SameKeys(site: Site, frames: seq<FrameSample>, r: JoinResult)
    requires Accounts(site, frames, r)
    ensures r.microsById.Keys == r.samplesById.Keys
  {
  }

  /** Samples are attributed to stored nodes only. */
  lemma AttributedIsStored(db: Db, paths: Paths, frames: seq<FrameSample>, r: JoinResult, id: string)
    requires Accounts(SiteOf(db, paths), frames, r) && id in r.samplesById
    ensures id in db.order
  {
    var site := SiteOf(db, paths);
    AttributedToStored(site, frames, r, id);
    var n :| n in site.nodes && n.id == id;
    var i :| 0 <= i < |site.nodes| && site.nodes[i] == n;
    assert site.nodes[i] == AsTarget(StoredRow(db, db.order[i]));
  }

  /** So the reported number of matched nodes is the number of attributions. */
  lemma AllAttributedStored(db: Db, paths: Paths, frames: seq<FrameSample>, r: JoinResult)
    requires Sound(db) && Accounts(SiteOf(db, paths), frames, r)
    ensures MatchedNodes(db, r) == |r.samplesById.Keys|
  {
    hide Accounts, SiteOf;
    forall id | id in r.samplesById.Keys
      ensures id in db.nodes.Keys
    {
      AttributedIsStored(db, paths, frames, r, id);
    }
    assert r.samplesById.Keys * db.nodes.Keys == r.samplesById.Keys;
  }

  /** Summed over all stored nodes, a per-node attribution makes up the whole attributed weight. */
  lemma AttributionTotal(db: Db, paths: Paths, frames: seq<FrameSample>, r: JoinResult, w: FrameSample -> real,
                         m: map<string, real>)
    requires Sound(db) && Accounts(SiteOf(db, paths), frames, r)
    requires IsTally(MatchedFrames(SiteOf(db, paths), frames), NodeId(SiteOf(db, paths)), w, m)
    ensures Sum(db.order, ValueOf(m)) == Sum(MatchedFrames(SiteOf(db, paths), frames), w)
  {
    var site := SiteOf(db, paths);
    var matched := MatchedFrames(site, frames);
    hide MatchedFrames, SiteOf, NodeId;
    forall i | 0 <= i < |matched|
      ensures NodeId(site)(matched[i]) in db.order
    {
      assert NodeId(site)(matched[i]) in Keys(matched, NodeId(site));
      AttributedIsStored(db, paths, frames, r, NodeId(site)(matched[i]));
    }
    hide Accounts, At, Keys;
    forall i | 0 <= i < |db.order|
      ensures ValueOf(m)(db.order[i]) == At(matched, NodeId(site), w, db.order[i])
    {
      assert GetOrZero(m, db.order[i]) == At(matched, NodeId(site), w, db.order[i]);
    }
    SumByKey(db.order, matched, NodeId(site), w, ValueOf(m));
  }

  /**
   * On a store without earlier metrics, the node samples after enrichment add up to the manifest's
   * matched samples.
   */
  lemma SamplesReconcile(db: Db, profile: Profile, paths: Paths)
    requires Sound(db) && Unmeasured(db)
    ensures Sum(db.order, NodeMetric(Enriched(db, profile, paths), "samples"))
      == ManifestOf(profile, JoinFor(db, profile, paths)).matchedSamples
  {
    var site, frames := SiteOf(db, paths), FramesOf(profile);
    var r, t := JoinOf(site, frames), Enriched(db, profile, paths);
    JoinOfAccounts(site, frames);
    hide Enriched, JoinOf, MatchedFrames, FramesOf, SiteOf, IsTally, NodeMetric, ValueOf;
    AttributionTotal(db, paths, frames, r, Samples(), r.samplesById);
    forall i | 0 <= i < |db.order|
      ensures NodeMetric(t, "samples")(db.order[i]) == ValueOf(r.samplesById)(db.order[i])
    {
      MetricAfter(db, profile, paths, i);
    }
    SumCong(db.order, NodeMetric(t, "samples"), ValueOf(r.samplesById));
  }

  /** The runtime metric that the cost query adds up. */
  ghost function KeyFor(metric: CostQuery.CostMetric): string {
    match metric case Samples => "samples" case SelfTime => "selfMs"
  }

  lemma PosedSelf(t: Db, edges: seq<CostQuery.CallEdge>, metric: CostQuery.CostMetric, net: CostNet.Net, i: nat)
    requires Sound(t) && CostQuery.Poses(Rows(t), edges, metric, net) && i < |t.order|
    ensures |net.self| == |t.order|
    ensures net.Selfs()(Range(|net.self|)[i]) == NodeMetric(t, KeyFor(metric))(t.order[i])
  {
    assert Rows(t)[i] == StoredRow(t, t.order[i]);
    assert t.order[i] in t.order;
    hide RuntimeValue, CostQuery.Resolved, CostQuery.IsIndex;
  }

  /** The query's total self cost is the sum of the stored metric. */
  lemma PosedTotal(t: Db, edges: seq<CostQuery.CallEdge>, metric: CostQuery.CostMetric, net: CostNet.Net)
    requires Sound(t) && CostQuery.Poses(Rows(t), edges, metric, net)
    ensures net.TotalSelf() == Sum(t.order, NodeMetric(t, KeyFor(metric)))
  {
    PosedLength(t, edges, metric, net);
    hide CostQuery.Poses, NodeMetric, KeyFor, CostNet.Net.Selfs, Sound, Sum;
    forall i | 0 <= i < |t.order|
      ensures net.Selfs()(Range(|net.self|)[i]) == NodeMetric(t, KeyFor(metric))(t.order[i])
    {
      PosedSelf(t, edges, metric, net, i);
    }
    SumZip(Range(|net.self|), t.order, net.Selfs(), NodeMetric(t, KeyFor(metric)));
  }

  lemma PosedLength(t: Db, edges: seq<CostQuery.CallEdge>, metric: CostQuery.CostMetric, net: CostNet.Net)
    requires CostQuery.Poses(Rows(t), edges, metric, net)
    ensures |net.self| == |t.order|
  {
  }

  /** So the cost query's total self cost in samples, over whatever call edges, is the manifest's matched samples. */
  lemma CostTotalIsMatchedSamples(db: Db, profile: Profile, paths: Paths, edges: seq<CostQuery.CallEdge>,
                                  net: CostNet.Net)
    requires Sound(db) && Unmeasured(db)
    requires CostQuery.Poses(Rows(Enriched(db, profile, paths)), edges, CostQuery.Samples, net)
    ensures net.TotalSelf() == ManifestOf(profile, JoinFor(db, profile, paths)).matchedSamples
  {
    hide JoinFor, ManifestOf, CostQuery.Poses, NodeMetric, Sound, Sum, Rows, Attach, Written;
    var t := Enriched(db, profile, paths);
    EnrichSound(db, profile, paths);
    SamplesReconcile(db, profile, paths);
    EnrichedNodes(db, profile, paths);
    hide Enriched;
    PosedTotal(t, edges, CostQuery.Samples, net);
  }

  // ---------------------------------------------------------------- rounding

  lemma RoundingError(micros: real)
    ensures -0.0005 <= MicrosToMs(micros) - micros / 1000.0 <= 0.0005
  {
    var n := (micros + 0.5).Floor;
    assert n as real <= micros + 0.5 < n as real + 1.0;
  }

  ghost function Member<T>(all: set<T>): T -> real {
    (t: T) => if t in all then 1.0 else 0.0
  }

  /** Summing a set's indicator over a list that covers it counts the set. */
  lemma {:induction false} SumMembers<T>(s: seq<T>, all: set<T>)
    requires Distinct(s) && forall t :: t in all ==> t in s
    ensures Sum(s, Member(all)) == |all| as real
  {
    if s == [] {
      assert all == {};
    } else {
      var init, last := s[..|s| - 1], s[|s| - 1];
      var rest := all - {last};
      assert s == init + [last] && last !in init;
      SumMembers(init, rest);
      SumCong(init, Member(all), Member(rest));
    }
  }

  ghost function Millis(m: map<string, real>): string -> real {
    (id: string) => (if id in m then m[id] else 0.0) / 1000.0
  }

  /** The attributed time in milliseconds, plus `c` for each attributed node. */
  ghost function Within(m: map<string, real>, c: real): string -> real {
    (id: string) => (if id in m then m[id] else 0.0) / 1000.0 + if id in m then c else 0.0
  }

  lemma MillisTotal(order: seq<string>, m: map<string, real>)
    ensures Sum(order, Millis(m)) == Sum(order, ValueOf(m)) / 1000.0
  {
    SumScale(order, 0.001, ValueOf(m), Millis(m));
  }

  ghost function Slack(m: map<string, real>, c: real): string -> real {
    (id: string) => if id in m then c else 0.0
  }

  lemma SlackTotal(order: seq<string>, m: map<string, real>, c: real)
    requires Distinct(order) && forall id :: id in m ==> id in order
    ensures Sum(order, Slack(m, c)) == c * |m.Keys| as real
  {
    SumMembers(order, m.Keys);
    forall i | 0 <= i < |order|
      ensures Slack(m, c)(order[i]) == c * Member(m.Keys)(order[i])
    {
    }
    hide *;
    SumScale(order, c, Member(m.Keys), Slack(m, c));
  }

  lemma WithinTotal(order: seq<string>, m: map<string, real>, c: real)
    requires Distinct(order) && forall id :: id in m ==> id in order
    ensures Sum(order, Within(m, c)) == Sum(order, ValueOf(m)) / 1000.0 + c * |m.Keys| as real
  {
    MillisTotal(order, m);
    SlackTotal(order, m, c);
    SumAdd(order, Millis(m), Slack(m, c), Within(m, c));
    hide Millis, Slack, Within, ValueOf;
  }

  lemma RoundedWithin(m: map<string, real>, id: string, x: real)
    requires x == if id in m then MicrosToMs(m[id]) else 0.0
    ensures Within(m, -0.0005)(id) <= x <= Within(m, 0.0005)(id)
  {
    if id in m {
      RoundingError(m[id]);
    }
    hide MicrosToMs;
  }

  /** Times rounded one by one add up to the exact total, to within half a microsecond each. */
  lemma RoundedTotal(order: seq<string>, m: map<string, real>, rounded: string -> real)
    requires Distinct(order) && forall id :: id in m ==> id in order
    requires forall i :: 0 <= i < |order| ==>
      rounded(order[i]) == if order[i] in m then MicrosToMs(m[order[i]]) else 0.0
    ensures Sum(order, ValueOf(m)) / 1000.0 - 0.0005 * |m.Keys| as real <= Sum(order, rounded)
         <= Sum(order, ValueOf(m)) / 1000.0 + 0.0005 * |m.Keys| as real
  {
    hide *;
    WithinTotal(order, m, 0.0005);
    WithinTotal(order, m, -0.0005);
    RoundedBetween(order, m, rounded);
  }

  lemma RoundedBetween(order: seq<string>, m: map<string, real>, rounded: string -> real)
    requires forall i :: 0 <= i < |order| ==>
      rounded(order[i]) == if order[i] in m then MicrosToMs(m[order[i]]) else 0.0
    ensures Sum(order, Within(m, -0.0005)) <= Sum(order, rounded) <= Sum(order, Within(m, 0.0005))
  {
    hide *;
    forall i | 0 <= i < |order|
      ensures Within(m, -0.0005)(order[i]) <= rounded(order[i]) <= Within(m, 0.0005)(order[i])
    {
      RoundedWithin(m, order[i], rounded(order[i]));
    }
    SumLe(order, Within(m, -0.0005), rounded);
    SumLe(order, rounded, Within(m, 0.0005));
  }

  /**
   * The stored self times, each rounded to a microsecond, add up to the manifest's matched time to
   * within half a microsecond per attributed node.
   */
  lemma SelfTimeReconciles(db: Db, profile: Profile, paths: Paths)
    requires Sound(db) && Unmeasured(db)
    ensures var r := JoinFor(db, profile, paths);
      var stored := Sum(db.order, NodeMetric(Enriched(db, profile, paths), "selfMs"));
      var matched := ManifestOf(profile, r).matchedSelfMicros / 1000.0;
      var slack := 0.0005 * |r.samplesById.Keys| as real;
      matched - slack <= stored <= matched + slack
  {
    var site, frames := SiteOf(db, paths), FramesOf(profile);
    var r, t := JoinOf(site, frames), Enriched(db, profile, paths);
    JoinOfAccounts(site, frames);
    hide Enriched, JoinOf, MatchedFrames, FramesOf, SiteOf, IsTally, NodeMetric, ValueOf, Sum, MicrosToMs;
    AttributionTotal(db, paths, frames, r, Micros(), r.microsById);
    SameKeys(site, frames, r);
    forall id | id in r.microsById
      ensures id in db.order
    {
      AttributedIsStored(db, paths, frames, r, id);
    }
    hide Accounts;
    forall i | 0 <= i < |db.order|
      ensures NodeMetric(t, "selfMs")(db.order[i])
        == if db.order[i] in r.microsById then MicrosToMs(r.microsById[db.order[i]]) else 0.0
    {
      MetricAfter(db, profile, paths, i);
    }
    RoundedTotal(db.order, r.microsById, NodeMetric(t, "selfMs"));
  }

  /** So the query's total self cost in time is the matched time, up to that rounding. */
  lemma CostTotalIsMatchedTime(db: Db, profile: Profile, paths: Paths, edges: seq<CostQuery.CallEdge>, net: CostNet.Net)
    requires Sound(db) && Unmeasured(db)
    requires CostQuery.Poses(Rows(Enriched(db, profile, paths)), edges, CostQuery.SelfTime, net)
    ensures var r := JoinFor(db, profile, paths);
      var matched := ManifestOf(profile, r).matchedSelfMicros / 1000.0;
      var slack := 0.0005 * |r.samplesById.Keys| as real;
      matched - slack <= net.TotalSelf() <= matched + slack
  {
    hide JoinFor, ManifestOf, CostQuery.Poses, NodeMetric, Sound, Sum, Rows, Attach, Written;
    var t := Enriched(db, profile, paths);
    EnrichSound(db, profile, paths);
    SelfTimeReconciles(db, profile, paths);
    EnrichedNodes(db, profile, paths);
    hide Enriched;
    PosedTotal(t, edges, CostQuery.SelfTime, net);
  }

  // ---------------------------------------------------------------- measured nodes

  ghost function IsMeasured(): StoredNode -> real {
    (n: StoredNode) => if HasRuntime(n.metadata) then 1.0 else 0.0
  }

  lemma {:induction false} MeasuredSum(rows: seq<StoredNode>)
    ensures CostQuery.Measured(rows) as real == Sum(rows, IsMeasured())
  {
    hide HasRuntime;
    if rows != [] {
      MeasuredSum(rows[..|rows| - 1]);
    }
  }

  /** After an enrichment of an unmeasured store, exactly the attributed nodes count as measured. */
  lemma MeasuredAfter(db: Db, profile: Profile, paths: Paths, id: string)
    requires Unmeasured(db) && id in db.nodes
    ensures var t := Enriched(db, profile, paths);
      var attributed := JoinFor(db, profile, paths).samplesById.Keys * db.nodes.Keys;
      IsMeasured()(StoredRow(t, id)) == Member(attributed)(id)
  {
    EnrichedNodes(db, profile, paths);
    hide Enriched, JoinFor;
  }

  /** So the cost query's number of measured nodes is the enrichment's number of matched nodes. */
  lemma MeasuredNodesAreMatched(db: Db, profile: Profile, paths: Paths, edges: seq<CostQuery.CallEdge>,
                                metric: CostQuery.CostMetric, model: CostQuery.CostModel)
    requires Sound(db) && Unmeasured(db)
    requires CostQuery.IsCostModel(Rows(Enriched(db, profile, paths)), edges, metric, model)
    ensures model.measuredNodes == MatchedNodes(db, JoinFor(db, profile, paths))
  {
    var t, r := Enriched(db, profile, paths), JoinFor(db, profile, paths);
    var rows, attributed := Rows(t), r.samplesById.Keys * db.nodes.Keys;
    OrderListsNodes(db);
    hide *;
    EnrichedNodes(db, profile, paths);
    MeasuredOfModel(rows, edges, metric, model);
    MatchedNodesIs(db, r);
    forall i | 0 <= i < |rows|
      ensures IsMeasured()(rows[i]) == Member(attributed)(db.order[i])
    {
      MeasuredAfter(db, profile, paths, db.order[i]);
    }
    MeasuredCount(rows, db.order, attributed);
  }

  lemma MeasuredCount(rows: seq<StoredNode>, order: seq<string>, attributed: set<string>)
    requires |rows| == |order| && Distinct(order) && forall id :: id in attributed ==> id in order
    requires forall i :: 0 <= i < |rows| ==> IsMeasured()(rows[i]) == Member(attributed)(order[i])
    ensures CostQuery.Measured(rows) == |attributed|
  {
    hide *;
    MeasuredSum(rows);
    SumZip(rows, order, IsMeasured(), Member(attributed));
    SumMembers(order, attributed);
  }

  lemma OrderListsNodes(db: Db)
    requires Sound(db)
    ensures Distinct(db.order) && forall i :: 0 <= i < |db.order| ==> db.order[i] in db.nodes
    ensures forall id :: id in db.nodes ==> id in db.order
  {
    forall i | 0 <= i < |db.order|
      ensures db.order[i] in db.nodes
    {
      assert db.order[i] in db.order;
    }
  }

  lemma MatchedNodesIs(db: Db, r: JoinResult)
    ensures MatchedNodes(db, r) == |r.samplesById.Keys * db.nodes.Keys|
  {
  }

  lemma MeasuredOfModel(rows: seq<StoredNode>, edges: seq<CostQuery.CallEdge>, metric: CostQuery.CostMetric,
                        model: CostQuery.CostModel)
    requires CostQuery.IsCostModel(rows, edges, metric, model)
    ensures model.measuredNodes == CostQuery.Measured(rows)
  {
    hide CostQuery.Poses, CostQuery.DescribesNode, CostQuery.Measured, CostNet.Net.Inclusive;
    var net, x :| CostQuery.Explains(rows, edges, metric, model, net, x);
    assert rows[..|rows|] == rows;
  }
}
