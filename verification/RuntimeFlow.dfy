/** The call edges that the queries read back from the store, and what an enrichment leaves for them to read. */
module RuntimeFlow {
  import opened Sums
  import opened Records
  import opened Resolve
  import opened CallTree
  import opened ProfileReader
  import opened Join
  import opened Store
  import opened Enrich
  import opened EnrichLaws
  import opened Coverage
  import opened CostQuery

  // ---------------------------------------------------------------- reading call edges

  /** The weight of a runtime call edge; one when it is absent, no number or negative. */
  function SampleFlow(metadata: Metadata): real {
    if "samples" in metadata && metadata["samples"].Num? && metadata["samples"].n >= 0.0
    then metadata["samples"].n else 1.0
  }

  /** The number of call sites of a static call edge; one when it is absent, no number or not positive. */
  function CallCount(metadata: Metadata): real {
    if "count" in metadata && metadata["count"].Num? && metadata["count"].n > 0.0 then metadata["count"].n else 1.0
  }

  ghost predicate OfKind(db: Db, kind: string, k: EdgeKey) {
    k in db.edges && k.2 == kind
  }

  /** These edges are the stored ones of a kind under the keys `keys`, once each, decoded. */
  ghost predicate ReadAt(db: Db, kind: string, weight: Metadata -> real, edges: seq<CallEdge>, keys: seq<EdgeKey>) {
    && |keys| == |edges| && Distinct(keys)
    && (forall k :: k in keys <==> OfKind(db, kind, k))
    && forall i :: 0 <= i < |edges| ==>
         keys[i] in db.edges && edges[i] == CallEdge(keys[i].0, keys[i].1, weight(db.edges[keys[i]]))
  }

  /** The stored edges of a kind, once each in some order, decoded. */
  ghost predicate Reads(db: Db, kind: string, weight: Metadata -> real, edges: seq<CallEdge>) {
    exists keys :: ReadAt(db, kind, weight, edges, keys)
  }

  /** The decoded edges of one kind, in whatever order the store hands them out. */
  method ReadEdges(store: KuzuStore, kind: string, weight: Metadata -> real) returns (edges: seq<CallEdge>)
    ensures Reads(store.Now(), kind, weight, edges)
  {
    ghost var keys: seq<EdgeKey>;
    var rows := set k | k in store.edges && k.2 == kind;
    edges, keys := [], [];
    while rows != {}
      invariant |keys| == |edges| && Distinct(keys)
      invariant forall k :: k in store.edges && k.2 == kind <==> k in rows || k in keys
      invariant forall k :: k in keys ==> k !in rows
      invariant forall i :: 0 <= i < |edges| ==>
        keys[i] in store.edges && edges[i] == CallEdge(keys[i].0, keys[i].1, weight(store.edges[keys[i]]))
    {
      var k :| k in rows;
      edges := edges + [CallEdge(k.0, k.1, weight(store.edges[k]))];
      keys := keys + [k];
      rows := rows - {k};
    }
    assert ReadAt(store.Now(), kind, weight, edges, keys);
  }

  method ReadCallEdges(store: KuzuStore) returns (edges: seq<CallEdge>)
    ensures Reads(store.Now(), "CALLS", CallCount, edges)
  {
    edges := ReadEdges(store, "CALLS", CallCount);
  }

  method ReadRuntimeCallEdges(store: KuzuStore) returns (edges: seq<CallEdge>)
    ensures Reads(store.Now(), "CALLS_RUNTIME", SampleFlow, edges)
  {
    edges := ReadEdges(store, "CALLS_RUNTIME", SampleFlow);
  }

  datatype CostFlowGraph = Static | Runtime

  /** The call graph that cost propagates along: the runtime one when it is asked for and not empty. */
  method ResolveFlowEdges(store: KuzuStore, requested: CostFlowGraph)
      returns (edges: seq<CallEdge>, flow: CostFlowGraph, fellBack: bool)
    ensures flow.Runtime? <==> requested.Runtime? && exists k :: OfKind(store.Now(), "CALLS_RUNTIME", k)
    ensures fellBack <==> requested.Runtime? && flow.Static?
    ensures if flow.Runtime? then Reads(store.Now(), "CALLS_RUNTIME", SampleFlow, edges)
            else Reads(store.Now(), "CALLS", CallCount, edges)
  {
    if requested.Runtime? {
      edges := ReadRuntimeCallEdges(store);
      ReadsSome(store.Now(), "CALLS_RUNTIME", SampleFlow, edges);
      if |edges| > 0 {
        return edges, Runtime, false;
      }
    }
    edges := ReadCallEdges(store);
    flow, fellBack := Static, requested.Runtime?;
  }

  /** Something is read exactly when something is stored. */
  lemma ReadsSome(db: Db, kind: string, weight: Metadata -> real, edges: seq<CallEdge>)
    requires Reads(db, kind, weight, edges)
    ensures edges != [] <==> exists k :: OfKind(db, kind, k)
  {
    var keys :| ReadAt(db, kind, weight, edges, keys);
    if edges != [] {
      assert keys[0] in keys;
    }
  }

  /** Decoding reads a weight back, and one where there is none, so none is negative and no static one zero. */
  lemma DecodedWeights(metadata: Metadata, x: real)
    ensures SampleFlow(metadata["samples" := Num(x)]) == if x < 0.0 then 1.0 else x
    ensures CallCount(metadata["count" := Num(x)]) == if x <= 0.0 then 1.0 else x
    ensures SampleFlow(metadata - {"samples"}) == 1.0 && CallCount(metadata - {"count"}) == 1.0
    ensures SampleFlow(metadata) >= 0.0 && CallCount(metadata) > 0.0
  {
  }

  // ---------------------------------------------------------------- what an enrichment leaves to read

  lemma CallWeightsNonNegative(profile: Profile)
    ensures forall e :: e in CallEdgeList(profile) ==> e.samples >= 0.0
  {
    forall id {
      CountsNonNegative(profile, id);
    }
    RunAllNonNegative(CallTree.ById(profile.nodes), SampleCount(profile), profile.nodes);
    var total, nodes := SubtreeMap(profile), profile.nodes;
    CallsOfProfile(profile);
    hide SampleCount, RunAll, CallTree.ById, CallEdgeList;
    var edges := CallEdgeList(profile);
    var at :| CallsAt(nodes, total, (|nodes|, 0), edges, at);
    forall i | 0 <= i < |edges|
      ensures edges[i].samples >= 0.0
    {
      assert IsCallAt(nodes, total, edges[i], at[i]);
    }
  }

  lemma AtNonNegative(joined: seq<RuntimeCallEdge>, site: Site, pair: (string, string))
    requires forall e :: e in joined ==> e.samples >= 0.0
    ensures At(joined, Pair(site), Weight(), pair) >= 0.0
  {
    forall i | 0 <= i < |joined|
      ensures Only(Pair(site), Weight(), pair)(joined[i]) >= 0.0
    {
      assert joined[i] in joined;
    }
    SumNonneg(joined, Only(Pair(site), Weight(), pair));
  }

  lemma JoinedWeights(site: Site, profile: Profile, pair: (string, string))
    ensures At(JoinedEdges(site, CallEdgeList(profile)), Pair(site), Weight(), pair) >= 0.0
  {
    CallWeightsNonNegative(profile);
    EdgeSplitTotals(site, CallEdgeList(profile));
    hide CallEdgeList, JoinedEdges, Joined, Pair, At;
    AtNonNegative(JoinedEdges(site, CallEdgeList(profile)), site, pair);
  }

  /** What the query decodes from a stored runtime edge. */
  lemma StoredFlow(e: RuntimeEdge, metadata: Metadata)
    requires Some(metadata) == RuntimeGraphEdge(e).metadata && e.samples >= 0.0
    ensures SampleFlow(metadata) == e.samples
  {
    assert |"source"| != |"samples"|;
  }

  /**
   * Reading back what an enrichment stored, when no two joined call edges with different ends share a
   * key: one edge per pair of nodes that some joined call edge joins and no other, weighing exactly the
   * samples of the call edges that join them.
   */
  lemma RuntimeEdgesReadBack(db: Db, profile: Profile, paths: Paths, edges: seq<CallEdge>)
    requires Sound(db) && KeysExact(SiteOf(db, paths), JoinedEdges(SiteOf(db, paths), CallEdgeList(profile)))
    requires Reads(Enriched(db, profile, paths), "CALLS_RUNTIME", SampleFlow, edges)
    ensures var site, callEdges := SiteOf(db, paths), CallEdgeList(profile);
      && (forall i, j :: 0 <= i < j < |edges| ==>
            (edges[i].fromId, edges[i].toId) != (edges[j].fromId, edges[j].toId))
      && (forall i :: 0 <= i < |edges| ==> PairJoined(site, callEdges, (edges[i].fromId, edges[i].toId)))
      && (forall pair :: PairJoined(site, callEdges, pair) ==>
            exists i :: 0 <= i < |edges| && (edges[i].fromId, edges[i].toId) == pair)
      && forall i :: 0 <= i < |edges| ==>
           edges[i].count
           == At(JoinedEdges(site, callEdges), Pair(site), Weight(), (edges[i].fromId, edges[i].toId))
  {
    var t, site, callEdges := Enriched(db, profile, paths), SiteOf(db, paths), CallEdgeList(profile);
    var keys :| ReadAt(t, "CALLS_RUNTIME", SampleFlow, edges, keys);
    KeyOfKind();
    hide Enriched, SiteOf, CallEdgeList, JoinedEdges, KeysExact, PairJoined, At, Pair, SampleFlow, RuntimeGraphEdge,
         Sound;
    JoinedPairsStored(db, profile, paths);
    forall i | 0 <= i < |edges|
      ensures var pair := (edges[i].fromId, edges[i].toId);
        PairJoined(site, callEdges, pair) && keys[i] == RuntimeKey(pair)
        && edges[i].count == At(JoinedEdges(site, callEdges), Pair(site), Weight(), pair)
    {
      var pair := (edges[i].fromId, edges[i].toId);
      assert keys[i] in keys && keys[i] == RuntimeKey(pair);
      StoredSamplesExact(db, profile, paths, pair);
      JoinedWeights(site, profile, pair);
      var samples := At(JoinedEdges(site, callEdges), Pair(site), Weight(), pair);
      StoredFlow(RuntimeEdge(pair.0, pair.1, samples), t.edges[keys[i]]);
    }
    forall pair | PairJoined(site, callEdges, pair)
      ensures exists i :: 0 <= i < |edges| && (edges[i].fromId, edges[i].toId) == pair
    {
      assert OfKind(t, "CALLS_RUNTIME", RuntimeKey(pair));
      assert RuntimeKey(pair) in keys;
    }
  }

  ghost function KeyOf(): RuntimeEdge -> EdgeKey {
    (e: RuntimeEdge) => RuntimeKey((e.from, e.to))
  }

  /** The weight the query decodes under a key. */
  ghost function FlowUnder(db: Db): EdgeKey -> real {
    (k: EdgeKey) => if k in db.edges then SampleFlow(db.edges[k]) else 0.0
  }

  ghost function Count(): CallEdge -> real {
    (e: CallEdge) => e.count
  }

  /** Under the key of an output edge the query decodes that edge's samples. */
  lemma FlowOfListed(db: Db, profile: Profile, paths: Paths, r: CallJoin, k: EdgeKey) returns (j: nat)
    requires Sound(db) && IsCallJoin(SiteOf(db, paths), CallEdgeList(profile), r)
    requires OfKind(Enriched(db, profile, paths), "CALLS_RUNTIME", k)
    ensures j < |r.edges| && KeyOf()(r.edges[j]) == k
    ensures FlowUnder(Enriched(db, profile, paths))(k) == r.edges[j].samples
  {
    assert k.2 == CALLS_RUNTIME;
    hide SiteOf, CallEdgeList, Enriched, RuntimeEdges, IsCallJoin, Sound, SampleFlow, RuntimeGraphEdge;
    RuntimeEdgesOf(SiteOf(db, paths), profile, r);
    RuntimeEdgesExact(db, profile, paths, k);
    CallWeightsNonNegative(profile);
    ListedNonNegative(SiteOf(db, paths), CallEdgeList(profile), r);
    var t := Enriched(db, profile, paths);
    j :| JoinsEnds(r.edges, j, k) && Some(t.edges[k]) == RuntimeGraphEdge(r.edges[j]).metadata;
    StoredFlow(r.edges[j], t.edges[k]);
  }

  /** No sample is lost or counted twice between the join and the query, whatever the ids and keys are. */
  lemma RuntimeFlowConserved(db: Db, profile: Profile, paths: Paths, edges: seq<CallEdge>)
    requires Sound(db) && Reads(Enriched(db, profile, paths), "CALLS_RUNTIME", SampleFlow, edges)
    ensures Sum(edges, Count()) == Sum(JoinedEdges(SiteOf(db, paths), CallEdgeList(profile)), Weight())
  {
    var t, site, callEdges := Enriched(db, profile, paths), SiteOf(db, paths), CallEdgeList(profile);
    var keys :| ReadAt(t, "CALLS_RUNTIME", SampleFlow, edges, keys);
    hide Enriched, SiteOf, CallEdgeList, IsCallJoin, SampleFlow, Sound, JoinedEdges, UnjoinedEdges, OfKind, Joined;
    var r := CallJoinOf(site, callEdges);
    ListedDistinct(site, callEdges, r);
    forall i | 0 <= i < |keys|
      ensures FlowUnder(t)(keys[i]) == At(r.edges, KeyOf(), EdgeSamples(), keys[i])
    {
      assert keys[i] in keys;
      var j := FlowOfListed(db, profile, paths, r, keys[i]);
      PickListed(r.edges, j);
    }
    forall j | 0 <= j < |r.edges|
      ensures KeyOf()(r.edges[j]) in keys
    {
      ListedIsStored(db, profile, paths, r, j);
    }
    SumZip(edges, keys, Count(), FlowUnder(t));
    hide KeyOf, FlowUnder, Count, ReadAt;
    SumByKey(keys, r.edges, KeyOf(), EdgeSamples(), FlowUnder(t));
    CallJoinConserves(site, callEdges, r);
    EdgeSplitTotals(site, callEdges);
    DroppedOf(site, callEdges, r);
  }

  lemma DroppedOf(site: Site, callEdges: seq<RuntimeCallEdge>, r: CallJoin)
    requires IsCallJoin(site, callEdges, r)
    ensures r.droppedSamples == Sum(UnjoinedEdges(site, callEdges), Weight())
  {
    hide AggregationOf, UnjoinedEdges, JoinedEdges;
  }

  lemma ListedIsStored(db: Db, profile: Profile, paths: Paths, r: CallJoin, j: nat)
    requires Sound(db) && IsCallJoin(SiteOf(db, paths), CallEdgeList(profile), r) && j < |r.edges|
    ensures OfKind(Enriched(db, profile, paths), "CALLS_RUNTIME", KeyOf()(r.edges[j]))
  {
    var pair := (r.edges[j].from, r.edges[j].to);
    assert IsListed(r, pair);
    hide Enriched, SiteOf, CallEdgeList, IsCallJoin, Sound;
    StoredIffListed(db, profile, paths, r, pair);
  }

  /** With different ends everywhere, one output edge is all there is under its key. */
  lemma PickListed(edges: seq<RuntimeEdge>, j: nat)
    requires j < |edges|
    requires forall i, k :: 0 <= i < k < |edges| ==> (edges[i].from, edges[i].to) != (edges[k].from, edges[k].to)
    ensures At(edges, KeyOf(), EdgeSamples(), KeyOf()(edges[j])) == edges[j].samples
  {
    SumPick(edges, edges[j], Only(KeyOf(), EdgeSamples(), KeyOf()(edges[j])));
  }

  lemma KeyOfKind()
    ensures forall k: EdgeKey, pair ::
      k == RuntimeKey(pair) <==> k.0 == pair.0 && k.1 == pair.1 && k.2 == "CALLS_RUNTIME"
  {
  }
}
