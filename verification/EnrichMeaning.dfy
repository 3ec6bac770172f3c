/** What an enrichment writes, field by field: node metrics, the manifest and the report's hotspots. */
module EnrichMeaning {
  import opened Sums
  import opened Tallies
  import opened Records
  import opened Resolve
  import opened CallTree
  import opened ProfileReader
  import opened Join
  import opened Store
  import opened Enrich
  import opened EnrichLaws
  import opened EnrichTotals

  /** The join sees the stored rows' own ids, kinds, names, files and lines. */
  lemma TargetReads(db: Db, paths: Paths, i: nat)
    requires i < |db.order| && db.order[i] in db.nodes
    ensures var site := SiteOf(db, paths); var row := db.nodes[db.order[i]];
      && site.paths == paths && |site.nodes| == |db.order| && site.nodes[i].id == db.order[i]
      && site.nodes[i].kind == row.kind && site.nodes[i].name == row.name && site.nodes[i].filePath == row.filePath
      && site.nodes[i].startLine == row.startLine && site.nodes[i].endLine == row.endLine
  {
  }

  /** Rounding goes to the nearest whole number, and up from the middle between two. */
  lemma RoundsHalfUp(x: real, n: int)
    ensures Round(x) == n <==> n as real - 0.5 <= x < n as real + 0.5
  {
  }

  // ---------------------------------------------------------------- node metrics

  /** A frame's weight when the frame is attached to the node. */
  ghost function OnNode(site: Site, id: string, w: FrameSample -> real): FrameSample -> real {
    (f: FrameSample) =>
      var r := ResolveFrame(site.paths, site.nodes, f.functionName, f.url, f.line);
      if r.Found? && r.node.id == id then w(f) else 0.0
  }

  ghost predicate IsAttached(site: Site, frames: seq<FrameSample>, id: string) {
    exists f :: f in frames
      && var r := ResolveFrame(site.paths, site.nodes, f.functionName, f.url, f.line); r.Found? && r.node.id == id
  }

  lemma {:induction false} AttachedSum(site: Site, frames: seq<FrameSample>, id: string, w: FrameSample -> real)
    ensures At(MatchedFrames(site, frames), NodeId(site), w, id) == Sum(frames, OnNode(site, id, w))
  {
    hide ResolveFrame;
    if frames != [] {
      var init, last := frames[..|frames| - 1], frames[|frames| - 1];
      AttachedSum(site, init, id, w);
      assert frames == init + [last];
      FramesSplit(site, init, last);
      SumSnoc(MatchedFrames(site, init), last, Only(NodeId(site), w, id));
      SumSnoc(init, last, OnNode(site, id, w));
      hide MatchedFrames;
    }
  }

  lemma {:induction false} MatchedFrom(site: Site, frames: seq<FrameSample>)
    ensures forall f :: f in MatchedFrames(site, frames) <==> f in frames && Matched(site, f)
  {
    hide Matched;
    if frames != [] {
      MatchedFrom(site, frames[..|frames| - 1]);
      assert frames == frames[..|frames| - 1] + [frames[|frames| - 1]];
    }
  }

  lemma AttachedKey(site: Site, frames: seq<FrameSample>, id: string)
    ensures id in Keys(MatchedFrames(site, frames), NodeId(site)) <==> IsAttached(site, frames, id)
  {
    hide ResolveFrame;
    var matched := MatchedFrames(site, frames);
    MatchedFrom(site, frames);
    hide MatchedFrames;
    if id in Keys(matched, NodeId(site)) {
      var i :| 0 <= i < |matched| && NodeId(site)(matched[i]) == id;
      assert matched[i] in matched;
    }
    if f :| f in frames && ResolveSample(site, f).Found? && ResolveSample(site, f).node.id == id {
      var i :| 0 <= i < |matched| && matched[i] == f;
      assert NodeId(site)(matched[i]) == id;
    }
  }

  /**
   * A node that some frame is attached to carries, under its runtime key, the source, the samples and the
   * self time of all frames attached to it, and that time in rounded milliseconds; every other node keeps
   * its metadata.
   */
  lemma NodeMetricsRead(db: Db, profile: Profile, paths: Paths, id: string)
    requires id in db.nodes
    ensures var t, site, frames := Enriched(db, profile, paths), SiteOf(db, paths), FramesOf(profile);
      var samples, micros := Sum(frames, OnNode(site, id, Samples())), Sum(frames, OnNode(site, id, Micros()));
      && id in t.nodes
      && t.nodes[id].metadata ==
        if IsAttached(site, frames, id) then
          db.nodes[id].metadata["runtime" := Obj(map[
            "source" := Str("v8-cpuprofile"), "samples" := Num(samples), "selfMicros" := Num(micros),
            "selfMs" := Num(Round(micros) as real / 1000.0)])]
        else db.nodes[id].metadata
  {
    var site, frames := SiteOf(db, paths), FramesOf(profile);
    var r := JoinFor(db, profile, paths);
    EnrichedNodes(db, profile, paths);
    JoinOfAccounts(site, frames);
    AttachedKey(site, frames, id);
    AttachedSum(site, frames, id, Samples());
    AttachedSum(site, frames, id, Micros());
    hide JoinOf, SiteOf, FramesOf, Enriched, MatchedFrames, IsAttached, OnNode, At, Round, Keys;
    assert GetOrZero(r.samplesById, id) == At(MatchedFrames(site, frames), NodeId(site), Samples(), id);
    assert GetOrZero(r.microsById, id) == At(MatchedFrames(site, frames), NodeId(site), Micros(), id);
    assert id in r.samplesById <==> id in Keys(MatchedFrames(site, frames), NodeId(site));
    hide IsTally;
  }

  // ---------------------------------------------------------------- the manifest

  /** The manifest is stored under the runtime key, with the sums over all frames and the attached ones. */
  lemma ManifestReads(db: Db, profile: Profile, paths: Paths)
    ensures var t, site, frames := Enriched(db, profile, paths), SiteOf(db, paths), FramesOf(profile);
      "runtime" in t.meta
      && t.meta["runtime"] == map[
        "source" := Str("v8-cpuprofile"),
        "totalSamples" := Num(TotalOf(profile)),
        "matchedSamples" := Num(Sum(MatchedFrames(site, frames), Samples())),
        "totalSelfMicros" := Num(Sum(frames, Micros())),
        "matchedSelfMicros" := Num(Sum(MatchedFrames(site, frames), Micros()))]
  {
    var site, frames := SiteOf(db, paths), FramesOf(profile);
    var r := JoinOf(site, frames);
    JoinOfAccounts(site, frames);
    SplitTotals(site, frames, Micros());
    hide JoinOf, RuntimeEdges, FramesOf, SiteOf, Attach, Written, MatchedFrames, DroppedFrames, IsTally, TotalOf;
    WrittenFrame(db, r, Encoded(ManifestOf(profile, r)), RuntimeGraphEdges(RuntimeEdges(site, profile)));
  }

  /** A record reads as a manifest exactly when all its fields are there and of their kind. */
  lemma ManifestIff(m: Metadata, manifest: Manifest)
    ensures Decoded(m) == Some(manifest) <==>
      && "source" in m && m["source"].Str?
      && "totalSamples" in m && m["totalSamples"] == Num(manifest.totalSamples)
      && "matchedSamples" in m && m["matchedSamples"] == Num(manifest.matchedSamples)
      && "totalSelfMicros" in m && m["totalSelfMicros"] == Num(manifest.totalSelfMicros)
      && "matchedSelfMicros" in m && m["matchedSelfMicros"] == Num(manifest.matchedSelfMicros)
  {
  }

  // ---------------------------------------------------------------- the report

  /** A reported hotspot shows a stored node's own fields and the metrics it was given. */
  lemma HotspotReads(db: Db, profile: Profile, paths: Paths, hotspots: seq<Hotspot>, h: Hotspot)
    requires AreHotspots(db, JoinFor(db, profile, paths), hotspots) && h in hotspots
    ensures h.id in db.nodes && IsAttached(SiteOf(db, paths), FramesOf(profile), h.id)
    ensures var row, site, frames := db.nodes[h.id], SiteOf(db, paths), FramesOf(profile);
      && h.name == row.name && h.kind == row.kind && h.filePath == row.filePath
      && h.samples == Sum(frames, OnNode(site, h.id, Samples()))
      && h.selfMs == Round(Sum(frames, OnNode(site, h.id, Micros()))) as real / 1000.0
  {
    var site, frames := SiteOf(db, paths), FramesOf(profile);
    var r := JoinFor(db, profile, paths);
    JoinOfAccounts(site, frames);
    AttachedKey(site, frames, h.id);
    AttachedSum(site, frames, h.id, Samples());
    AttachedSum(site, frames, h.id, Micros());
    hide JoinOf, SiteOf, FramesOf, MatchedFrames, IsAttached, OnNode, At, Round, Keys, MatchedNodes;
    assert GetOrZero(r.samplesById, h.id) == At(MatchedFrames(site, frames), NodeId(site), Samples(), h.id);
    assert GetOrZero(r.microsById, h.id) == At(MatchedFrames(site, frames), NodeId(site), Micros(), h.id);
    assert h.id in r.samplesById <==> h.id in Keys(MatchedFrames(site, frames), NodeId(site));
  }
}
