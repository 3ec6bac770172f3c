/** Enrichment: attaching a CPU profile's metrics and call graph to a stored graph. */
module Enrich {
  import opened Tallies
  import opened Records
  import opened Resolve
  import opened CallTree
  import opened ProfileReader
  import opened Join
  import opened Sorting
  import opened Store

  const SOURCE := "v8-cpuprofile"
  const CALLS_RUNTIME := "CALLS_RUNTIME"
  const MANIFEST_KEY := "runtime"

  /** Rounds half up, as the runtime's `round` does. */
  function Round(x: real): int {
    (x + 0.5).Floor
  }

  function MicrosToMs(micros: real): real {
    Round(micros) as real / 1000.0
  }

  function Metrics(samples: real, micros: real): Json {
    Obj(map["source" := Str(SOURCE), "samples" := Num(samples), "selfMicros" := Num(micros),
            "selfMs" := Num(MicrosToMs(micros))])
  }

  datatype Manifest = Manifest(totalSamples: real, matchedSamples: real, totalSelfMicros: real, matchedSelfMicros: real)

  function Encoded(m: Manifest): Metadata {
    map["source" := Str(SOURCE), "totalSamples" := Num(m.totalSamples), "matchedSamples" := Num(m.matchedSamples),
        "totalSelfMicros" := Num(m.totalSelfMicros), "matchedSelfMicros" := Num(m.matchedSelfMicros)]
  }

  function NumberAt(m: Metadata, key: string): Option<real> {
    if key in m && m[key].Num? then Some(m[key].n) else None
  }

  /** The manifest a metadata record holds; a record that lacks a field is no manifest. */
  function Decoded(m: Metadata): Option<Manifest> {
    var totalSamples, matchedSamples := NumberAt(m, "totalSamples"), NumberAt(m, "matchedSamples");
    var totalMicros, matchedMicros := NumberAt(m, "totalSelfMicros"), NumberAt(m, "matchedSelfMicros");
    if "source" in m && m["source"].Str? && totalSamples.Some? && matchedSamples.Some? && totalMicros.Some?
       && matchedMicros.Some?
    then Some(Manifest(totalSamples.value, matchedSamples.value, totalMicros.value, matchedMicros.value))
    else None
  }

  /** Reading a written manifest gives it back. */
  lemma ManifestRoundTrip(m: Manifest)
    ensures Decoded(Encoded(m)) == Some(m)
  {
    KeysDiffer();
  }

  lemma KeysDiffer()
    ensures "source" != "totalSamples" && "source" != "matchedSamples" && "source" != "totalSelfMicros"
    ensures "source" != "matchedSelfMicros"
    ensures "totalSamples" != "matchedSamples" && "totalSamples" != "totalSelfMicros"
    ensures "totalSamples" != "matchedSelfMicros"
    ensures "matchedSamples" != "totalSelfMicros" && "matchedSamples" != "matchedSelfMicros"
    ensures "totalSelfMicros" != "matchedSelfMicros"
  {
    assert |"source"| == 6 && |"totalSamples"| == 12 && |"matchedSamples"| == 14 && |"totalSelfMicros"| == 15
      && |"matchedSelfMicros"| == 17;
  }

  /** The manifest a query finds in the store: none when it is absent or malformed. */
  function StoredManifest(db: Db): Option<Manifest> {
    match MetaAt(db, MANIFEST_KEY)
    case None => None
    case Some(raw) => Decoded(raw)
  }

  method ReadRuntimeManifest(store: KuzuStore) returns (manifest: Option<Manifest>)
    ensures manifest == StoredManifest(store.Now())
  {
    var raw := store.ReadGraphMeta(MANIFEST_KEY);
    if raw.None? {
      return None;
    }
    manifest := Decoded(raw.value);
  }

  function AsTarget(n: StoredNode): TargetNode {
    TargetNode(n.id, n.kind, n.name, n.filePath, n.startLine, n.endLine)
  }

  function Targets(rows: seq<StoredNode>): (targets: seq<TargetNode>)
    ensures |targets| == |rows| && forall i :: 0 <= i < |rows| ==> targets[i] == AsTarget(rows[i])
  {
    seq(|rows|, i requires 0 <= i < |rows| => AsTarget(rows[i]))
  }

  function RuntimeGraphEdge(e: RuntimeEdge): GraphEdge {
    GraphEdge(CALLS_RUNTIME + ":" + e.from + "->" + e.to, CALLS_RUNTIME, e.from, e.to,
              Some(map["source" := Str(SOURCE), "samples" := Num(e.samples)]))
  }

  function RuntimeGraphEdges(edges: seq<RuntimeEdge>): (g: seq<GraphEdge>)
    ensures |g| == |edges| && forall i :: 0 <= i < |g| ==> g[i] == RuntimeGraphEdge(edges[i])
  {
    seq(|edges|, i requires 0 <= i < |edges| => RuntimeGraphEdge(edges[i]))
  }

  // ---------------------------------------------------------------- enrichment as a transition

  ghost function FramesOf(profile: Profile): seq<FrameSample> {
    Frames(profile.nodes, SampleCount(profile), MicroCount(profile))
  }

  ghost function SiteOf(db: Db, paths: Paths): Site {
    Site(Targets(Rows(db)), paths)
  }

  function WithMetrics(row: NodeRow, samples: real, micros: real): NodeRow {
    row.(metadata := row.metadata[RUNTIME_KEY := Metrics(samples, micros)])
  }

  /** Every attributed node gets its metrics under the runtime key; nothing else changes. */
  ghost function Attach(db: Db, r: JoinResult): Db {
    db.(nodes := map id | id in db.nodes ::
          if id in r.samplesById
          then WithMetrics(db.nodes[id], GetOrZero(r.samplesById, id), GetOrZero(r.microsById, id))
          else db.nodes[id])
  }

  ghost function ManifestOf(profile: Profile, r: JoinResult): Manifest {
    Manifest(TotalOf(profile), r.matchedSamples, r.matchedSelfMicros + r.droppedSelfMicros, r.matchedSelfMicros)
  }

  ghost function RuntimeEdges(site: Site, profile: Profile): seq<RuntimeEdge> {
    AggregationOk(site, CallEdgeList(profile));
    Listed(AggregationOf(site, CallEdgeList(profile)))
  }

  function Noted(db: Db, manifest: Metadata): Db {
    db.(meta := db.meta[MANIFEST_KEY := manifest])
  }

  /** The four writes of an enrichment: metrics, manifest, and the runtime call edges in place of the old ones. */
  ghost function Written(db: Db, r: JoinResult, manifest: Metadata, edges: seq<GraphEdge>): Db {
    MergeEdges(ClearKind(Noted(Attach(db, r), manifest), CALLS_RUNTIME), edges)
  }

  /** The store after enriching with a profile. */
  ghost function Enriched(db: Db, profile: Profile, paths: Paths): Db {
    var site := SiteOf(db, paths);
    var r := JoinOf(site, FramesOf(profile));
    Written(db, r, Encoded(ManifestOf(profile, r)), RuntimeGraphEdges(RuntimeEdges(site, profile)))
  }

  datatype Hotspot = Hotspot(id: string, name: string, kind: string, filePath: string, selfMs: real, samples: real)

  datatype EnrichReport = EnrichReport(
    manifest: Manifest, join: JoinResult, calls: CallJoin, matchedNodes: nat, matchedSelfMs: real,
    hotspots: seq<Hotspot>)

  function UpdateOf(row: StoredNode, r: JoinResult): MetadataEntry {
    var metrics := Metrics(GetOrZero(r.samplesById, row.id), GetOrZero(r.microsById, row.id));
    MetadataEntry(row.id, row.metadata[RUNTIME_KEY := metrics])
  }

  method NodeById(rows: seq<StoredNode>, ghost db: Db) returns (byId: map<string, StoredNode>)
    requires Sound(db) && rows == Rows(db)
    ensures byId.Keys == db.nodes.Keys && forall id :: id in byId ==> byId[id] == StoredRow(db, id)
  {
    byId := map[];
    for i := 0 to |rows|
      invariant forall id :: id in byId <==> id in db.order[..i]
      invariant forall id :: id in byId ==> byId[id] == StoredRow(db, id)
    {
      hide Sound;
      assert rows[i] == StoredRow(db, db.order[i]) && rows[i].id == db.order[i];
      byId := byId[rows[i].id := rows[i]];
    }
    assert db.order[..|db.order|] == db.order;
  }

  /** The updates name distinct nodes: exactly the attributed stored ones, each with its row's update. */
  ghost predicate AreUpdates(db: Db, r: JoinResult, updates: seq<MetadataEntry>) {
    && (forall i, j :: 0 <= i < j < |updates| ==> updates[i].id != updates[j].id)
    && (forall i :: 0 <= i < |updates| ==> IsUpdate(db, r, updates[i]))
    && (forall id :: id in r.samplesById && id in db.nodes ==> exists i :: 0 <= i < |updates| && updates[i].id == id)
  }

  ghost predicate IsUpdate(db: Db, r: JoinResult, u: MetadataEntry) {
    u.id in r.samplesById && u.id in db.nodes && u == UpdateOf(StoredRow(db, u.id), r)
  }

  function HotspotOf(row: StoredNode, r: JoinResult): Hotspot {
    Hotspot(row.id, row.name, row.kind, row.filePath, MicrosToMs(GetOrZero(r.microsById, row.id)),
            GetOrZero(r.samplesById, row.id))
  }

  /** The `i`-th hotspot describes the node of the `i`-th update. */
  ghost predicate AlongUpdates(db: Db, r: JoinResult, updates: seq<MetadataEntry>, hotspots: seq<Hotspot>) {
    |hotspots| == |updates| && forall i :: 0 <= i < |updates| ==>
      hotspots[i] == HotspotOf(StoredRow(db, updates[i].id), r)
  }

  /**
   * One metadata update and one hotspot per attributed stored node. The model leaves the order of the
   * attributions open.
   */
  method Updates(rows: seq<StoredNode>, r: JoinResult, ghost db: Db)
      returns (updates: seq<MetadataEntry>, hotspots: seq<Hotspot>)
    requires Sound(db) && rows == Rows(db)
    ensures AreUpdates(db, r, updates) && AlongUpdates(db, r, updates, hotspots)
  {
    var byId := NodeById(rows, db);
    var ids := r.samplesById.Keys;
    updates, hotspots := [], [];
    assert UpdatesBut(db, r, ids, updates, hotspots);
    hide UpdatesBut, UpdateOf, HotspotOf, StoredRow;
    while ids != {}
      invariant UpdatesBut(db, r, ids, updates, hotspots)
    {
      var id :| id in ids;
      UpdatesStep(db, r, ids, updates, hotspots, id);
      if id in byId {
        updates := updates + [UpdateOf(byId[id], r)];
        hotspots := hotspots + [HotspotOf(byId[id], r)];
      }
      ids := ids - {id};
    }
    UpdatesDone(db, r, updates, hotspots);
  }

  /** The updates and hotspots of all attributed stored nodes but those in `ids`. */
  ghost predicate UpdatesBut(db: Db, r: JoinResult, ids: set<string>, updates: seq<MetadataEntry>,
                             hotspots: seq<Hotspot>) {
    && ids <= r.samplesById.Keys
    && (forall i, j :: 0 <= i < j < |updates| ==> updates[i].id != updates[j].id)
    && (forall i :: 0 <= i < |updates| ==> IsUpdate(db, r, updates[i]) && updates[i].id !in ids)
    && (forall id :: id in r.samplesById && id !in ids && id in db.nodes ==> HasUpdate(updates, id))
    && AlongUpdates(db, r, updates, hotspots)
  }

  ghost predicate HasUpdate(updates: seq<MetadataEntry>, id: string) {
    exists i :: 0 <= i < |updates| && updates[i].id == id
  }

  lemma UpdatesStep(db: Db, r: JoinResult, ids: set<string>, updates: seq<MetadataEntry>, hotspots: seq<Hotspot>,
                    id: string)
    requires UpdatesBut(db, r, ids, updates, hotspots) && id in ids
    ensures var row := StoredRow(db, id);
      if id in db.nodes then UpdatesBut(db, r, ids - {id}, updates + [UpdateOf(row, r)], hotspots + [HotspotOf(row, r)])
      else UpdatesBut(db, r, ids - {id}, updates, hotspots)
  {
    hide UpdateOf, HotspotOf, StoredRow, IsUpdate, AlongUpdates, HasUpdate;
    if id in db.nodes {
      UpdateOfRow(db, r, id);
      hide UpdatesBut;
      UpdatesAdd(db, r, ids, updates, hotspots, UpdateOf(StoredRow(db, id), r));
    }
  }

  lemma UpdatesAdd(db: Db, r: JoinResult, ids: set<string>, updates: seq<MetadataEntry>, hotspots: seq<Hotspot>,
                   u: MetadataEntry)
    requires UpdatesBut(db, r, ids, updates, hotspots) && u.id in ids && IsUpdate(db, r, u)
    ensures UpdatesBut(db, r, ids - {u.id}, updates + [u], hotspots + [HotspotOf(StoredRow(db, u.id), r)])
  {
    hide HotspotOf, StoredRow, IsUpdate, HasUpdate;
    HasUpdateSnoc(updates, u);
  }

  lemma HasUpdateSnoc(updates: seq<MetadataEntry>, u: MetadataEntry)
    ensures HasUpdate(updates + [u], u.id)
    ensures forall id :: HasUpdate(updates, id) ==> HasUpdate(updates + [u], id)
  {
    var all := updates + [u];
    assert all[|updates|].id == u.id;
    forall id | HasUpdate(updates, id)
      ensures HasUpdate(all, id)
    {
      var i :| 0 <= i < |updates| && updates[i].id == id;
      assert all[i].id == id;
    }
  }

  lemma UpdatesDone(db: Db, r: JoinResult, updates: seq<MetadataEntry>, hotspots: seq<Hotspot>)
    requires UpdatesBut(db, r, {}, updates, hotspots)
    ensures AreUpdates(db, r, updates) && AlongUpdates(db, r, updates, hotspots)
  {
    hide IsUpdate, AlongUpdates;
    forall id | id in r.samplesById && id in db.nodes
      ensures exists i :: 0 <= i < |updates| && updates[i].id == id
    {
      assert HasUpdate(updates, id);
    }
  }

  lemma UpdateOfRow(db: Db, r: JoinResult, id: string)
    requires id in r.samplesById && id in db.nodes
    ensures UpdateOf(StoredRow(db, id), r).id == id && IsUpdate(db, r, UpdateOf(StoredRow(db, id), r))
  {
  }

  /** More self time first, then more samples. */
  function Hotter(): (Hotspot, Hotspot) -> bool {
    (a: Hotspot, b: Hotspot) => a.selfMs > b.selfMs || (a.selfMs == b.selfMs && a.samples >= b.samples)
  }

  /** The attributed stored nodes, once each, with their metrics, the hottest first. */
  ghost predicate AreHotspots(db: Db, r: JoinResult, hotspots: seq<Hotspot>) {
    && (forall h :: h in hotspots ==>
          h.id in r.samplesById && h.id in db.nodes && h == HotspotOf(StoredRow(db, h.id), r))
    && (forall id :: id in r.samplesById && id in db.nodes ==> HotspotOf(StoredRow(db, id), r) in hotspots)
    && |hotspots| == MatchedNodes(db, r)
    && Ranked(hotspots, Hotter())
  }

  /** No hotspot has less self time than a later one, and none of equal self time fewer samples. */
  lemma HottestFirst(db: Db, r: JoinResult, hotspots: seq<Hotspot>, i: nat, j: nat)
    requires AreHotspots(db, r, hotspots) && i < j < |hotspots|
    ensures hotspots[i].selfMs >= hotspots[j].selfMs
    ensures hotspots[i].selfMs == hotspots[j].selfMs ==> hotspots[i].samples >= hotspots[j].samples
  {
    assert Hotter()(hotspots[i], hotspots[j]);
    hide HotspotOf, MatchedNodes;
  }

  method RankHotspots(found: seq<Hotspot>, r: JoinResult, ghost db: Db, ghost updates: seq<MetadataEntry>)
      returns (hotspots: seq<Hotspot>)
    requires AreUpdates(db, r, updates) && AlongUpdates(db, r, updates, found)
    ensures AreHotspots(db, r, hotspots)
  {
    HotterRanks();
    hide *;
    hotspots := Sorted(found, Hotter());
    UpdateCount(db, r, updates);
    SamePermuted(found, hotspots);
    HotspotsFound(db, r, updates, found);
    AreHotspotsUnfolds(db, r, hotspots);
  }

  lemma HotterRanks()
    ensures IsRanking(Hotter())
  {
  }

  lemma SamePermuted<T>(s: seq<T>, t: seq<T>)
    requires multiset(s) == multiset(t)
    ensures |s| == |t| && forall x :: x in s <==> x in t
  {
    assert |multiset(s)| == |s| && |multiset(t)| == |t|;
    forall x
      ensures x in s <==> x in t
    {
      assert x in s <==> x in multiset(s);
    }
  }

  lemma AreHotspotsUnfolds(db: Db, r: JoinResult, hotspots: seq<Hotspot>)
    ensures AreHotspots(db, r, hotspots) <==>
      && (forall h :: h in hotspots ==>
            h.id in r.samplesById && h.id in db.nodes && h == HotspotOf(StoredRow(db, h.id), r))
      && (forall id :: id in r.samplesById && id in db.nodes ==> HotspotOf(StoredRow(db, id), r) in hotspots)
      && |hotspots| == MatchedNodes(db, r)
      && Ranked(hotspots, Hotter())
  {
    hide Ranked, MatchedNodes, HotspotOf, StoredRow;
  }

  lemma HotspotsFound(db: Db, r: JoinResult, updates: seq<MetadataEntry>, found: seq<Hotspot>)
    requires AreUpdates(db, r, updates) && AlongUpdates(db, r, updates, found)
    ensures |found| == |updates|
    ensures forall h :: h in found ==>
      h.id in r.samplesById && h.id in db.nodes && h == HotspotOf(StoredRow(db, h.id), r)
    ensures forall id :: id in r.samplesById && id in db.nodes ==> HotspotOf(StoredRow(db, id), r) in found
  {
    forall h | h in found
      ensures h.id in r.samplesById && h.id in db.nodes && h == HotspotOf(StoredRow(db, h.id), r)
    {
      var i :| 0 <= i < |found| && found[i] == h;
      assert IsUpdate(db, r, updates[i]);
    }
    forall id | id in r.samplesById && id in db.nodes
      ensures HotspotOf(StoredRow(db, id), r) in found
    {
      var i :| 0 <= i < |updates| && updates[i].id == id;
      assert found[i] == HotspotOf(StoredRow(db, id), r);
    }
  }

  lemma UpdateAttaches(db: Db, r: JoinResult, updates: seq<MetadataEntry>, id: string)
    requires AreUpdates(db, r, updates) && id in db.nodes
    ensures var t := SetEach(db, updates); id in t.nodes && t.nodes[id] == Attach(db, r).nodes[id]
  {
    SetEachNodes(db, updates);
    hide SetEach;
    if id in r.samplesById {
      var i :| 0 <= i < |updates| && updates[i].id == id;
      assert IsUpdate(db, r, updates[i]);
    }
  }

  /** Writing the updates attaches the metrics. */
  lemma UpdatesAttach(db: Db, r: JoinResult, updates: seq<MetadataEntry>)
    requires AreUpdates(db, r, updates)
    ensures SetEach(db, updates) == Attach(db, r)
  {
    SetEachNodes(db, updates);
    hide SetEach, AreUpdates;
    forall id | id in db.nodes
      ensures SetEach(db, updates).nodes[id] == Attach(db, r).nodes[id]
    {
      UpdateAttaches(db, r, updates, id);
    }
  }

  /** The number of stored nodes that have an attribution. */
  ghost function MatchedNodes(db: Db, r: JoinResult): nat {
    |r.samplesById.Keys * db.nodes.Keys|
  }

  ghost function EntryIds(entries: seq<MetadataEntry>): (ids: set<string>)
    ensures forall id :: id in ids <==> exists i :: 0 <= i < |entries| && entries[i].id == id
  {
    set i | 0 <= i < |entries| :: entries[i].id
  }

  lemma EntryIdsSnoc(entries: seq<MetadataEntry>, last: MetadataEntry)
    ensures EntryIds(entries + [last]) == EntryIds(entries) + {last.id}
  {
    var all := entries + [last];
    forall id
      ensures id in EntryIds(all) <==> id in EntryIds(entries) + {last.id}
    {
      if id in EntryIds(entries) {
        var i :| 0 <= i < |entries| && entries[i].id == id;
        assert all[i].id == id;
      }
      if id == last.id {
        assert all[|entries|].id == id;
      }
    }
  }

  lemma {:induction false} EntryCount(entries: seq<MetadataEntry>)
    requires forall i, j :: 0 <= i < j < |entries| ==> entries[i].id != entries[j].id
    ensures |EntryIds(entries)| == |entries|
  {
    if entries != [] {
      var init, last := entries[..|entries| - 1], entries[|entries| - 1];
      EntryCount(init);
      assert last.id !in EntryIds(init);
      hide EntryIds;
      assert entries == init + [last];
      EntryIdsSnoc(init, last);
    }
  }

  /** There is one update per attributed stored node. */
  lemma UpdateCount(db: Db, r: JoinResult, updates: seq<MetadataEntry>)
    requires AreUpdates(db, r, updates)
    ensures |updates| == MatchedNodes(db, r)
  {
    EntryCount(updates);
    forall i | 0 <= i < |updates|
      ensures updates[i].id in r.samplesById && updates[i].id in db.nodes
    {
      assert IsUpdate(db, r, updates[i]);
    }
    hide IsUpdate;
    assert EntryIds(updates) == r.samplesById.Keys * db.nodes.Keys;
  }

  /** The four writes, taken one after the other, make the transition. */
  lemma WritesEnrich(db: Db, profile: Profile, paths: Paths, r: JoinResult, updates: seq<MetadataEntry>,
                     calls: CallJoin)
    requires r == JoinOf(SiteOf(db, paths), FramesOf(profile)) && AreUpdates(db, r, updates)
    requires IsCallJoin(SiteOf(db, paths), CallEdgeList(profile), calls)
    ensures MergeEdges(ClearKind(Noted(SetEach(db, updates), Encoded(ManifestOf(profile, r))), CALLS_RUNTIME),
                       RuntimeGraphEdges(calls.edges))
      == Enriched(db, profile, paths)
  {
    hide JoinOf, AreUpdates, Attach, SetEach, AggregationOf, FramesOf, SiteOf, ManifestOf, Encoded, CallEdgeList,
         MergeEdges, ClearKind, Noted;
    UpdatesAttach(db, r, updates);
  }

  lemma SiteUnfolds(db: Db, profile: Profile, paths: Paths)
    ensures FramesOf(profile) == Frames(profile.nodes, SampleCount(profile), MicroCount(profile))
    ensures SiteOf(db, paths) == Site(Targets(Rows(db)), paths)
  {
  }

  lemma ManifestUnfolds(profile: Profile, r: JoinResult)
    ensures ManifestOf(profile, r)
      == Manifest(TotalOf(profile), r.matchedSamples, r.matchedSelfMicros + r.droppedSelfMicros, r.matchedSelfMicros)
  {
  }

  lemma NotedUnfolds(db: Db, manifest: Metadata)
    ensures Noted(db, manifest) == db.(meta := db.meta[MANIFEST_KEY := manifest])
  {
  }

  method Enrich(store: KuzuStore, profile: Profile, paths: Paths) returns (report: EnrichReport)
    requires Sound(store.Now())
    modifies store
    ensures store.Now() == Enriched(old(store.Now()), profile, paths)
    ensures report.join == JoinOf(SiteOf(old(store.Now()), paths), FramesOf(profile))
    ensures report.manifest == ManifestOf(profile, report.join)
    ensures IsCallJoin(SiteOf(old(store.Now()), paths), CallEdgeList(profile), report.calls)
    ensures report.matchedNodes == MatchedNodes(old(store.Now()), report.join)
    ensures report.matchedSelfMs == MicrosToMs(report.join.matchedSelfMicros)
    ensures AreHotspots(old(store.Now()), report.join, report.hotspots)
  {
    hide *;
    ghost var db := store.Now();
    SiteUnfolds(db, profile, paths);
    var frames := Aggregate(profile);
    var rows := store.ReadNodes();
    var site := Site(Targets(rows), paths);
    var r := JoinFrames(site, frames);
    var updates, found := Updates(rows, r, db);
    UpdateCount(db, r, updates);
    store.WriteNodeMetadata(updates);
    var total := TotalSamples(profile);
    var manifest := Manifest(total, r.matchedSamples, r.matchedSelfMicros + r.droppedSelfMicros, r.matchedSelfMicros);
    ManifestUnfolds(profile, r);
    NotedUnfolds(store.Now(), Encoded(manifest));
    store.WriteGraphMeta(MANIFEST_KEY, Encoded(manifest));
    var callEdges := CallEdges(profile);
    var calls := JoinCallEdges(site, callEdges);
    store.ClearEdgesByKind(CALLS_RUNTIME);
    store.WriteEdges(RuntimeGraphEdges(calls.edges));
    WritesEnrich(db, profile, paths, r, updates, calls);
    var hotspots := RankHotspots(found, r, db, updates);
    report := EnrichReport(manifest, r, calls, |updates|, MicrosToMs(r.matchedSelfMicros), hotspots);
  }
}
