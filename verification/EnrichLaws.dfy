/** What enrichment keeps, that running it twice is running it once, and how its numbers reconcile. */
module EnrichLaws {
  import opened Sums
  import opened Tallies
  import opened Records
  import opened Resolve
  import opened CallTree
  import opened ProfileReader
  import opened Join
  import opened Store
  import opened Enrich

  // ---------------------------------------------------------------- frame

  /** The two stores hold the same nodes up to the runtime metadata of some of them. */
  ghost predicate SameButRuntime(a: Db, b: Db) {
    && a.order == b.order && a.nodes.Keys == b.nodes.Keys
    && forall id :: id in a.nodes ==>
      && b.nodes[id] == a.nodes[id].(metadata := b.nodes[id].metadata)
      && forall k :: k != RUNTIME_KEY ==>
        && (k in a.nodes[id].metadata <==> k in b.nodes[id].metadata)
        && (k in a.nodes[id].metadata ==> a.nodes[id].metadata[k] == b.nodes[id].metadata[k])
  }

  lemma {:induction false} MergedEdges(db: Db, edges: seq<GraphEdge>, kind: string)
    requires forall i :: 0 <= i < |edges| ==> edges[i].kind == kind
    ensures var t := MergeEdges(db, edges);
      && (forall k: EdgeKey :: k.2 != kind ==>
            (k in t.edges <==> k in db.edges) && (k in db.edges ==> t.edges[k] == db.edges[k]))
      && ClearKind(t, kind) == ClearKind(db, kind)
  {
    MergeEdgesFrame(db, edges);
    if edges != [] {
      MergedEdges(db, edges[..|edges| - 1], kind);
    }
  }

  lemma AttachKeeps(db: Db, r: JoinResult)
    ensures SameButRuntime(db, Attach(db, r))
  {
    hide Metrics;
  }

  lemma WrittenFrame(db: Db, r: JoinResult, manifest: Metadata, added: seq<GraphEdge>)
    requires forall i :: 0 <= i < |added| ==> added[i].kind == CALLS_RUNTIME
    ensures var t := Written(db, r, manifest, added);
      && t.order == db.order && t.nodes == Attach(db, r).nodes && t.meta == db.meta[MANIFEST_KEY := manifest]
      && (forall k: EdgeKey :: k.2 != CALLS_RUNTIME ==>
            (k in t.edges <==> k in db.edges) && (k in db.edges ==> t.edges[k] == db.edges[k]))
      && (Sound(db) ==> Sound(t))
  {
    var attached := Attach(db, r);
    assert attached.order == db.order && attached.edges == db.edges && attached.meta == db.meta
      && attached.nodes.Keys == db.nodes.Keys;
    var cleared := ClearKind(Noted(attached, manifest), CALLS_RUNTIME);
    hide Attach;
    MergeEdgesFrame(cleared, added);
    MergedEdges(cleared, added, CALLS_RUNTIME);
    hide MergeEdges, Enumerates;
  }

  /** Enriching changes no node field, no other metadata key, no other graph fact and no other edge kind. */
  lemma EnrichKeeps(db: Db, profile: Profile, paths: Paths)
    ensures var t := Enriched(db, profile, paths);
      && SameButRuntime(db, t)
      && (forall k :: k != MANIFEST_KEY ==>
            (k in t.meta <==> k in db.meta) && (k in db.meta ==> t.meta[k] == db.meta[k]))
      && (forall k: EdgeKey :: k.2 != CALLS_RUNTIME ==>
            (k in t.edges <==> k in db.edges) && (k in db.edges ==> t.edges[k] == db.edges[k]))
  {
    var site := SiteOf(db, paths);
    var r := JoinOf(site, FramesOf(profile));
    var manifest, added := Encoded(ManifestOf(profile, r)), RuntimeGraphEdges(RuntimeEdges(site, profile));
    hide JoinOf, RuntimeEdges, Encoded, ManifestOf, FramesOf, SiteOf, Attach, Written;
    AttachKeeps(db, r);
    WrittenFrame(db, r, manifest, added);
  }

  // ---------------------------------------------------------------- every run

  lemma EnrichSound(db: Db, profile: Profile, paths: Paths)
    requires Sound(db)
    ensures Sound(Enriched(db, profile, paths))
  {
    var site := SiteOf(db, paths);
    var r := JoinOf(site, FramesOf(profile));
    hide JoinOf, RuntimeEdges, Encoded, ManifestOf, FramesOf, SiteOf, Attach, Written, Sound;
    WrittenFrame(db, r, Encoded(ManifestOf(profile, r)), RuntimeGraphEdges(RuntimeEdges(site, profile)));
  }

  datatype Op =
    | LoadGraph(nodes: seq<GraphNode>, edges: seq<GraphEdge>)
    | EnrichWith(profile: Profile, paths: Paths)
    | ClearEdges(kind: string)
    | ClearMeta(key: string)

  ghost function Apply(db: Db, op: Op): Db {
    match op
    case LoadGraph(nodes, edges) => MergeEdges(MergeNodes(db, nodes), edges)
    case EnrichWith(profile, paths) => Enriched(db, profile, paths)
    case ClearEdges(kind) => ClearKind(db, kind)
    case ClearMeta(key) => db.(meta := db.meta - {key})
  }

  ghost function RunOps(ops: seq<Op>): Db {
    if ops == [] then Db([], map[], map[], map[]) else Apply(RunOps(ops[..|ops| - 1]), ops[|ops| - 1])
  }

  /** Over every run of loads, enrichments and clears, edges join stored nodes and rows are listed once. */
  lemma {:induction false} RunsStaySound(ops: seq<Op>)
    ensures Sound(RunOps(ops))
  {
    if ops != [] {
      var db := RunOps(ops[..|ops| - 1]);
      RunsStaySound(ops[..|ops| - 1]);
      match ops[|ops| - 1]
      case LoadGraph(nodes, edges) =>
        MergeNodesSound(db, nodes);
        MergeEdgesFrame(MergeNodes(db, nodes), edges);
      case EnrichWith(profile, paths) =>
        EnrichSound(db, profile, paths);
      case ClearEdges(kind) =>
      case ClearMeta(key) =>
    }
  }

  // ---------------------------------------------------------------- idempotence

  lemma SiteKept(db: Db, profile: Profile, paths: Paths)
    ensures SiteOf(Enriched(db, profile, paths), paths) == SiteOf(db, paths)
  {
    var t := Enriched(db, profile, paths);
    EnrichKeeps(db, profile, paths);
    hide Enriched;
    assert |Targets(Rows(t))| == |Targets(Rows(db))|;
    forall i | 0 <= i < |db.order|
      ensures Targets(Rows(t))[i] == Targets(Rows(db))[i]
    {
      assert Rows(t)[i] == StoredRow(t, db.order[i]) && Rows(db)[i] == StoredRow(db, db.order[i]);
    }
  }

  lemma AttachTwice(db: Db, t: Db, r: JoinResult)
    requires t.nodes == Attach(db, r).nodes
    ensures Attach(t, r).nodes == t.nodes
  {
    forall id | id in t.nodes
      ensures Attach(t, r).nodes[id] == t.nodes[id]
    {
      var m := db.nodes[id].metadata;
      var v := Metrics(GetOrZero(r.samplesById, id), GetOrZero(r.microsById, id));
      assert m[RUNTIME_KEY := v][RUNTIME_KEY := v] == m[RUNTIME_KEY := v];
      hide Metrics;
    }
  }

  /** Merging edges only looks at which nodes exist. */
  lemma {:induction false} MergeEdgesCong(a: Db, b: Db, edges: seq<GraphEdge>)
    requires a.nodes.Keys == b.nodes.Keys && a.edges == b.edges
    ensures MergeEdges(a, edges).edges == MergeEdges(b, edges).edges
  {
    MergeEdgesFrame(a, if edges == [] then [] else edges[..|edges| - 1]);
    MergeEdgesFrame(b, if edges == [] then [] else edges[..|edges| - 1]);
    if edges != [] {
      MergeEdgesCong(a, b, edges[..|edges| - 1]);
    }
  }

  /** Enriching twice with one profile leaves exactly the store that enriching once leaves. */
  lemma EnrichIdempotent(db: Db, profile: Profile, paths: Paths)
    ensures Enriched(Enriched(db, profile, paths), profile, paths) == Enriched(db, profile, paths)
  {
    var t := Enriched(db, profile, paths);
    var site := SiteOf(db, paths);
    var r := JoinOf(site, FramesOf(profile));
    var added := RuntimeGraphEdges(RuntimeEdges(site, profile));
    SiteKept(db, profile, paths);
    hide JoinOf, RuntimeEdges, MergeEdges, Encoded, ManifestOf, FramesOf, SiteOf, ClearKind, Attach;
    var manifest := Encoded(ManifestOf(profile, r));
    EnrichTwiceParts(db, r, manifest, added);
  }

  lemma EnrichTwiceParts(db: Db, r: JoinResult, manifest: Metadata, added: seq<GraphEdge>)
    requires forall i :: 0 <= i < |added| ==> added[i].kind == CALLS_RUNTIME
    ensures Written(Written(db, r, manifest, added), r, manifest, added) == Written(db, r, manifest, added)
  {
    var t := Written(db, r, manifest, added);
    var cleared := ClearKind(Noted(Attach(db, r), manifest), CALLS_RUNTIME);
    MergeEdgesFrame(cleared, added);
    MergedEdges(cleared, added, CALLS_RUNTIME);
    AttachTwice(db, t, r);
    var clearedAgain := ClearKind(Noted(Attach(t, r), manifest), CALLS_RUNTIME);
    assert clearedAgain.edges == cleared.edges;
    MergeEdgesCong(cleared, clearedAgain, added);
    MergeEdgesFrame(clearedAgain, added);
    assert t.meta[MANIFEST_KEY := manifest] == t.meta;
    hide MergeEdges, Attach;
  }

  // ---------------------------------------------------------------- no stale edges

  /** The `i`-th output edge of the call join joins these ends. */
  predicate JoinsEnds(edges: seq<RuntimeEdge>, i: nat, k: EdgeKey) {
    i < |edges| && edges[i].from == k.0 && edges[i].to == k.1
  }

  lemma {:induction false} MergedKeys(db: Db, edges: seq<RuntimeEdge>, added: seq<GraphEdge>, k: EdgeKey)
    requires |added| == |edges| && forall i :: 0 <= i < |edges| ==> added[i] == RuntimeGraphEdge(edges[i])
    requires forall i :: 0 <= i < |edges| ==> edges[i].from in db.nodes && edges[i].to in db.nodes
    requires k !in db.edges && k.2 == CALLS_RUNTIME
    ensures var t := MergeEdges(db, added);
      && (k in t.edges <==> exists i: nat :: JoinsEnds(edges, i, k))
      && (k in t.edges ==> exists i: nat ::
            JoinsEnds(edges, i, k) && Some(t.edges[k]) == RuntimeGraphEdge(edges[i]).metadata)
  {
    if edges != [] {
      var n := |edges| - 1;
      MergeEdgesFrame(db, added[..n]);
      MergedKeys(db, edges[..n], added[..n], k);
      forall i: nat
        ensures JoinsEnds(edges, i, k)
          <==> JoinsEnds(edges[..n], i, k) || (i == n && edges[n].from == k.0 && edges[n].to == k.1)
      {
        if i < n { assert edges[..n][i] == edges[i]; }
      }
      assert added[n] == RuntimeGraphEdge(edges[n]);
      if edges[n].from == k.0 && edges[n].to == k.1 {
        assert JoinsEnds(edges, n, k);
      } else if k in MergeEdges(db, added).edges {
        var i: nat :| JoinsEnds(edges[..n], i, k)
          && Some(MergeEdges(db, added[..n]).edges[k]) == RuntimeGraphEdge(edges[..n][i]).metadata;
        assert JoinsEnds(edges, i, k);
      }
    }
  }

  /** The ends of aggregated call edges are stored nodes. */
  lemma EndsStored(db: Db, paths: Paths, profile: Profile, i: nat)
    requires Sound(db) && i < |RuntimeEdges(SiteOf(db, paths), profile)|
    ensures var e := RuntimeEdges(SiteOf(db, paths), profile)[i]; e.from in db.nodes && e.to in db.nodes
  {
    var site, callEdges := SiteOf(db, paths), CallEdgeList(profile);
    hide CallEdgeList, SiteOf, JoinedEdges, Rows;
    var a := AggregationOf(site, callEdges);
    AggregationOk(site, callEdges);
    EdgeSplitTotals(site, callEdges);
    hide AggregationOf, IsTally;
    var k := a.order[i];
    assert k in a.order;
    var joined := JoinedEdges(site, callEdges);
    var j :| 0 <= j < |joined| && Ends(site, joined[j]) == a.ends[k];
    assert Joined(site, joined[j]);
    ResolvedIsStored(db, paths, joined[j].caller);
    ResolvedIsStored(db, paths, joined[j].callee);
  }

  lemma ResolvedIsStored(db: Db, paths: Paths, f: FrameRef)
    requires Sound(db)
    ensures var r := ResolveRef(SiteOf(db, paths), f); r.Found? ==> r.node.id in db.nodes
  {
    var site := SiteOf(db, paths);
    var r := ResolveRef(site, f);
    if r.Found? {
      FrameResolvesToStored(paths, site.nodes, f.functionName, f.url, f.line);
      var i :| 0 <= i < |site.nodes| && site.nodes[i] == r.node;
      assert site.nodes[i] == AsTarget(StoredRow(db, db.order[i]));
    }
    hide ResolveFrame;
  }

  /**
   * After enrichment the runtime call edges of the store are exactly what the aggregation put out for
   * this profile: none is left over from an earlier profile and none is skipped for a missing end.
   */
  lemma RuntimeEdgesExact(db: Db, profile: Profile, paths: Paths, k: EdgeKey)
    requires Sound(db) && k.2 == CALLS_RUNTIME
    ensures var t, edges := Enriched(db, profile, paths), RuntimeEdges(SiteOf(db, paths), profile);
      && (k in t.edges <==> exists i: nat :: JoinsEnds(edges, i, k))
      && (k in t.edges ==> exists i: nat ::
            JoinsEnds(edges, i, k) && Some(t.edges[k]) == RuntimeGraphEdge(edges[i]).metadata)
  {
    var site := SiteOf(db, paths);
    var r := JoinOf(site, FramesOf(profile));
    var attached := Attach(db, r);
    assert attached.nodes.Keys == db.nodes.Keys;
    var edges := RuntimeEdges(site, profile);
    var cleared := ClearKind(Noted(attached, Encoded(ManifestOf(profile, r))), CALLS_RUNTIME);
    forall i | 0 <= i < |edges|
      ensures edges[i].from in db.nodes && edges[i].to in db.nodes
    {
      EndsStored(db, paths, profile, i);
    }
    hide JoinOf, RuntimeEdges, Encoded, ManifestOf, FramesOf, SiteOf, Attach, Sound;
    MergedKeys(cleared, edges, RuntimeGraphEdges(edges), k);
    hide MergeEdges, JoinsEnds;
  }

  // ---------------------------------------------------------------- which joined pairs are stored

  function RuntimeKey(pair: (string, string)): EdgeKey {
    (pair.0, pair.1, CALLS_RUNTIME)
  }

  lemma ListedEnds(r: CallJoin, pair: (string, string))
    ensures IsListed(r, pair) <==> exists i: nat :: JoinsEnds(r.edges, i, RuntimeKey(pair))
  {
    if IsListed(r, pair) {
      var i :| 0 <= i < |r.edges| && (r.edges[i].from, r.edges[i].to) == pair;
      assert JoinsEnds(r.edges, i, RuntimeKey(pair));
    }
    if i: nat :| JoinsEnds(r.edges, i, RuntimeKey(pair)) {
      assert (r.edges[i].from, r.edges[i].to) == pair;
    }
  }

  lemma RuntimeEdgesOf(site: Site, profile: Profile, r: CallJoin)
    requires IsCallJoin(site, CallEdgeList(profile), r)
    ensures RuntimeEdges(site, profile) == r.edges
  {
    hide AggregationOf, CallEdgeList, JoinedEdges, UnjoinedEdges;
  }

  lemma StoredIffListed(db: Db, profile: Profile, paths: Paths, r: CallJoin, pair: (string, string))
    requires Sound(db) && IsCallJoin(SiteOf(db, paths), CallEdgeList(profile), r)
    ensures RuntimeKey(pair) in Enriched(db, profile, paths).edges <==> IsListed(r, pair)
  {
    assert RuntimeKey(pair).2 == CALLS_RUNTIME;
    hide *;
    RuntimeEdgesOf(SiteOf(db, paths), profile, r);
    RuntimeEdgesExact(db, profile, paths, RuntimeKey(pair));
    ListedEnds(r, pair);
  }

  /**
   * Every stored runtime edge is the pair of a call edge this profile joined, and all joined pairs are
   * stored exactly when no two joined call edges with different pairs share a key.
   */
  lemma JoinedPairsStored(db: Db, profile: Profile, paths: Paths)
    requires Sound(db)
    ensures var t, site, callEdges := Enriched(db, profile, paths), SiteOf(db, paths), CallEdgeList(profile);
      && (forall pair :: RuntimeKey(pair) in t.edges ==> PairJoined(site, callEdges, pair))
      && ((forall pair :: PairJoined(site, callEdges, pair) ==> RuntimeKey(pair) in t.edges)
          <==> KeysExact(site, JoinedEdges(site, callEdges)))
  {
    hide *;
    var t, site, callEdges := Enriched(db, profile, paths), SiteOf(db, paths), CallEdgeList(profile);
    var r := CallJoinOf(site, callEdges);
    forall pair
      ensures RuntimeKey(pair) in t.edges <==> IsListed(r, pair)
      ensures IsListed(r, pair) ==> PairJoined(site, callEdges, pair)
    {
      StoredIffListed(db, profile, paths, r, pair);
      if IsListed(r, pair) {
        ListedIsJoined(site, callEdges, r, pair);
      }
    }
    PairsListedIff(site, callEdges, r);
    PairsListedJoined(site, callEdges, r);
  }

  lemma PairsListedJoined(site: Site, callEdges: seq<RuntimeCallEdge>, r: CallJoin)
    ensures PairsListed(site, callEdges, r) <==> forall pair :: PairJoined(site, callEdges, pair) ==> IsListed(r, pair)
  {
    hide JoinedEdges, Ends, IsListed;
    if forall pair :: PairJoined(site, callEdges, pair) ==> IsListed(r, pair) {
      forall e | e in JoinedEdges(site, callEdges)
        ensures IsListed(r, Ends(site, e))
      {
        assert PairJoined(site, callEdges, Ends(site, e));
      }
    }
  }

  /** When the keys are exact, a stored runtime edge carries exactly the samples of its joined call edges. */
  lemma StoredSamplesExact(db: Db, profile: Profile, paths: Paths, pair: (string, string))
    requires Sound(db) && KeysExact(SiteOf(db, paths), JoinedEdges(SiteOf(db, paths), CallEdgeList(profile)))
    requires PairJoined(SiteOf(db, paths), CallEdgeList(profile), pair)
    ensures var t, site := Enriched(db, profile, paths), SiteOf(db, paths);
      var samples := At(JoinedEdges(site, CallEdgeList(profile)), Pair(site), Weight(), pair);
      RuntimeKey(pair) in t.edges
      && Some(t.edges[RuntimeKey(pair)]) == RuntimeGraphEdge(RuntimeEdge(pair.0, pair.1, samples)).metadata
  {
    assert RuntimeKey(pair).2 == CALLS_RUNTIME;
    hide *;
    var t, site, callEdges := Enriched(db, profile, paths), SiteOf(db, paths), CallEdgeList(profile);
    var r := CallJoinOf(site, callEdges);
    JoinedPairsStored(db, profile, paths);
    RuntimeEdgesOf(site, profile, r);
    RuntimeEdgesExact(db, profile, paths, RuntimeKey(pair));
    CallJoinExact(site, callEdges, r);
    var i: nat :| JoinsEnds(r.edges, i, RuntimeKey(pair))
                  && Some(t.edges[RuntimeKey(pair)]) == RuntimeGraphEdge(r.edges[i]).metadata;
    EdgeOfEnds(r.edges, i, pair);
  }

  lemma EdgeOfEnds(edges: seq<RuntimeEdge>, i: nat, pair: (string, string))
    requires JoinsEnds(edges, i, RuntimeKey(pair))
    ensures i < |edges| && (edges[i].from, edges[i].to) == pair
    ensures edges[i] == RuntimeEdge(pair.0, pair.1, edges[i].samples)
  {
  }
}
