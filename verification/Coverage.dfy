/** Coverage: which part of the profiled cost an enrichment attributes, as the store remembers it over every run. */
module Coverage {
  import opened Sums
  import opened Tallies
  import opened Records
  import opened Resolve
  import opened CallTree
  import opened CallTreeLaws
  import opened ProfileReader
  import opened Join
  import opened Store
  import opened Enrich
  import opened EnrichLaws
  import opened EnrichTotals
  import CostQuery

  /** The matched part of the profiled cost; none without a manifest or when nothing was measured. */
  function CoverageFor(manifest: Option<Manifest>, metric: CostQuery.CostMetric): Option<real> {
    if manifest.None? then None
    else
      var m := manifest.value;
      if metric.Samples? then (if m.totalSamples > 0.0 then Some(m.matchedSamples / m.totalSamples) else None)
      else (if m.totalSelfMicros > 0.0 then Some(m.matchedSelfMicros / m.totalSelfMicros) else None)
  }

  lemma {:induction false} FramesNonNegative(nodes: seq<ProfileNode>, samples: int -> real, micros: int -> real)
    requires forall id :: samples(id) >= 0.0 && micros(id) >= 0.0
    ensures forall f :: f in Frames(nodes, samples, micros) ==> f.samples >= 0.0 && f.selfMicros >= 0.0
  {
    if nodes != [] {
      FramesNonNegative(nodes[..|nodes| - 1], samples, micros);
    }
  }

  lemma CountsNonNegative(profile: Profile, id: int)
    ensures SampleCount(profile)(id) >= 0.0 && MicroCount(profile)(id) >= 0.0
  {
    var ticks := Ticks(profile);
    forall i | 0 <= i < |ticks|
      ensures ticks[i].micros >= 0.0
    {
      assert ticks[i] == Tick(profile.samples[i], SafeDelta(profile, i));
    }
    SumNonneg(ticks, Only(TickNode(), OneTick(), id));
    SumNonneg(ticks, Only(TickNode(), TickMicros(), id));
    HitsNonNegative(profile.nodes, id);
  }

  lemma {:induction false} HitsNonNegative(nodes: seq<ProfileNode>, id: int)
    ensures Hits(nodes, id) >= 0.0
  {
    if nodes != [] {
      HitsNonNegative(nodes[..|nodes| - 1], id);
    }
  }

  /** Matched and dropped weight are both non-negative parts of the frames' weight. */
  lemma PartsOfFrames(site: Site, frames: seq<FrameSample>, w: FrameSample -> real)
    requires forall f :: f in frames ==> w(f) >= 0.0
    ensures 0.0 <= Sum(MatchedFrames(site, frames), w) <= Sum(frames, w)
    ensures Sum(DroppedFrames(site, frames), w) >= 0.0
  {
    SplitTotals(site, frames, w);
    DroppedAreFrames(site, frames);
    var matched, dropped := MatchedFrames(site, frames), DroppedFrames(site, frames);
    forall i | 0 <= i < |matched|
      ensures w(matched[i]) >= 0.0
    {
      assert matched[i] in matched;
    }
    forall i | 0 <= i < |dropped|
      ensures w(dropped[i]) >= 0.0
    {
      assert dropped[i] in dropped;
    }
    SumNonneg(matched, w);
    SumNonneg(dropped, w);
  }

  lemma {:induction false} DroppedAreFrames(site: Site, frames: seq<FrameSample>)
    ensures forall f :: f in DroppedFrames(site, frames) ==> f in frames
  {
    if frames != [] {
      DroppedAreFrames(site, frames[..|frames| - 1]);
      assert frames == frames[..|frames| - 1] + [frames[|frames| - 1]];
    }
  }

  /** Matched time is a part of the total time, on every profile. */
  lemma MatchedMicrosWithinTotal(db: Db, profile: Profile, paths: Paths)
    ensures var m := ManifestOf(profile, JoinFor(db, profile, paths)); 0.0 <= m.matchedSelfMicros <= m.totalSelfMicros
  {
    var site, frames := SiteOf(db, paths), FramesOf(profile);
    JoinOfAccounts(site, frames);
    hide JoinOf, MatchedFrames, DroppedFrames, IsTally;
    forall id { CountsNonNegative(profile, id); }
    FramesNonNegative(profile.nodes, SampleCount(profile), MicroCount(profile));
    PartsOfFrames(site, frames, Micros());
  }

  /** The samples of all frames of a profile, which count an id once per node that has it. */
  ghost function FrameTotal(profile: Profile): real {
    Sum(Ids(profile.nodes), SampleCount(profile))
  }

  /**
   * Matched and dropped samples make up the frames' samples. With distinct profile ids those are at most
   * the total plus its negative hit counts.
   */
  lemma MatchedSamplesWithinTotal(db: Db, profile: Profile, paths: Paths)
    ensures var r := JoinFor(db, profile, paths);
      0.0 <= r.matchedSamples && 0.0 <= r.droppedSamples && r.matchedSamples + r.droppedSamples == FrameTotal(profile)
    ensures DistinctNodes(profile.nodes) ==>
      && (profile.samples != [] ==> FrameTotal(profile) <= TotalOf(profile))
      && (profile.samples == [] ==> FrameTotal(profile) == TotalOf(profile) + HitGap(profile))
  {
    var site, frames := SiteOf(db, paths), FramesOf(profile);
    JoinOfAccounts(site, frames);
    SplitTotals(site, frames, Samples());
    FramesSum(profile.nodes, SampleCount(profile), MicroCount(profile));
    hide JoinOf, MatchedFrames, DroppedFrames, IsTally, TotalOf;
    forall id { CountsNonNegative(profile, id); }
    FramesNonNegative(profile.nodes, SampleCount(profile), MicroCount(profile));
    if DistinctNodes(profile.nodes) {
      FramesWithinTotal(profile);
    }
    PartsOfFrames(site, frames, Samples());
  }

  /**
   * Coverage, when there is one, is not negative. By time it is at most one on every profile; by samples
   * it is when the frames carry no more samples than the profile's total, so with distinct profile ids
   * whenever the profile has ticks or no negative hit count.
   */
  lemma CoverageIsFraction(db: Db, profile: Profile, paths: Paths, metric: CostQuery.CostMetric)
    ensures var coverage := CoverageFor(Some(ManifestOf(profile, JoinFor(db, profile, paths))), metric);
      coverage.Some? ==>
        && 0.0 <= coverage.value
        && (metric.SelfTime? || FrameTotal(profile) <= TotalOf(profile) ==> coverage.value <= 1.0)
        && (metric.Samples? ==>
              (coverage.value <= 1.0
               <==> FrameTotal(profile) <= TotalOf(profile) + JoinFor(db, profile, paths).droppedSamples))
        && (DistinctNodes(profile.nodes) && (profile.samples != [] || NonNegativeHits(profile.nodes)) ==>
              coverage.value <= 1.0)
  {
    MatchedMicrosWithinTotal(db, profile, paths);
    MatchedSamplesWithinTotal(db, profile, paths);
    HitGapNonNegative(profile);
    ManifestUnfolds(profile, JoinFor(db, profile, paths));
    hide ManifestOf, JoinFor, HitGap, NonNegativeHits, FrameTotal, TotalOf, DistinctNodes;
    var m := ManifestOf(profile, JoinFor(db, profile, paths));
    if m.totalSamples > 0.0 { FractionOf(m.matchedSamples, m.totalSamples); }
    if m.totalSelfMicros > 0.0 { FractionOf(m.matchedSelfMicros, m.totalSelfMicros); }
  }

  /**
   * What a query reports as coverage after an enrichment: of the time of all frames, and of the samples of
   * the profile, the part on frames that were attached to a node; nothing when there is no such time or
   * no such sample.
   */
  lemma CoverageAfterEnrich(db: Db, profile: Profile, paths: Paths)
    ensures var site, manifest := SiteOf(db, paths), StoredManifest(Enriched(db, profile, paths));
      var matched, dropped := MatchedFrames(site, FramesOf(profile)), DroppedFrames(site, FramesOf(profile));
      var time, whole := Sum(matched, Micros()), Sum(matched, Micros()) + Sum(dropped, Micros());
      && CoverageFor(manifest, CostQuery.SelfTime) == (if whole > 0.0 then Some(time / whole) else None)
      && CoverageFor(manifest, CostQuery.Samples)
         == if TotalOf(profile) > 0.0 then Some(Sum(matched, Samples()) / TotalOf(profile)) else None
  {
    ManifestAfterEnrich(db, profile, paths);
    ManifestUnfolds(profile, JoinFor(db, profile, paths));
    JoinOfAccounts(SiteOf(db, paths), FramesOf(profile));
    hide Enriched, StoredManifest, ManifestOf, JoinOf, MatchedFrames, DroppedFrames, TotalOf, FramesOf, SiteOf, IsTally;
  }

  lemma FractionOf(part: real, whole: real)
    requires whole > 0.0
    ensures 0.0 <= part ==> 0.0 <= part / whole
    ensures part / whole <= 1.0 <==> part <= whole
  {
    assert part / whole * whole == part;
  }

  // ---------------------------------------------------------------- over every run

  /** The store after enrichment holds the enrichment's manifest. */
  lemma ManifestAfterEnrich(db: Db, profile: Profile, paths: Paths)
    ensures StoredManifest(Enriched(db, profile, paths)) == Some(ManifestOf(profile, JoinFor(db, profile, paths)))
  {
    var site := SiteOf(db, paths);
    var r := JoinOf(site, FramesOf(profile));
    var manifest := ManifestOf(profile, r);
    ManifestRoundTrip(manifest);
    hide JoinOf, RuntimeEdges, Encoded, Decoded, ManifestOf, FramesOf, SiteOf, Attach, Written;
    WrittenFrame(db, r, Encoded(manifest), RuntimeGraphEdges(RuntimeEdges(site, profile)));
  }

  lemma {:induction false} MergeNodesMeta(db: Db, nodes: seq<GraphNode>)
    ensures MergeNodes(db, nodes).meta == db.meta
  {
    if nodes != [] {
      MergeNodesMeta(db, nodes[..|nodes| - 1]);
    }
  }

  /** The manifest of the last enrichment that no clearing of its key followed. */
  ghost function LastManifest(ops: seq<Op>): Option<Manifest> {
    if ops == [] then None else
      var init := ops[..|ops| - 1];
      match ops[|ops| - 1]
      case EnrichWith(profile, paths) => Some(ManifestOf(profile, JoinFor(RunOps(init), profile, paths)))
      case ClearMeta(key) => if key == MANIFEST_KEY then None else LastManifest(init)
      case LoadGraph(_, _) => LastManifest(init)
      case ClearEdges(_) => LastManifest(init)
  }

  /** Over every run, what a query reads is the manifest of the last enrichment. */
  lemma {:induction false} ManifestOverRuns(ops: seq<Op>)
    ensures StoredManifest(RunOps(ops)) == LastManifest(ops)
  {
    if ops != [] {
      var db := RunOps(ops[..|ops| - 1]);
      ManifestOverRuns(ops[..|ops| - 1]);
      match ops[|ops| - 1]
      case LoadGraph(nodes, edges) =>
        MergeNodesMeta(db, nodes);
        MergeEdgesFrame(MergeNodes(db, nodes), edges);
      case EnrichWith(profile, paths) =>
        ManifestAfterEnrich(db, profile, paths);
      case ClearEdges(kind) =>
      case ClearMeta(key) =>
        hide Decoded;
    }
  }

  /** A stored manifest's matched time is a part of its total time. */
  lemma {:induction false} LastManifestTime(ops: seq<Op>)
    ensures var m := LastManifest(ops); m.Some? ==> 0.0 <= m.value.matchedSelfMicros <= m.value.totalSelfMicros
  {
    if ops != [] {
      LastManifestTime(ops[..|ops| - 1]);
      match ops[|ops| - 1]
      case EnrichWith(profile, paths) => MatchedMicrosWithinTotal(RunOps(ops[..|ops| - 1]), profile, paths);
      case _ =>
    }
  }

  /** Over every run of loads, enrichments and clears, the coverage by time that a query reports is a true fraction. */
  lemma CoverageOverRuns(ops: seq<Op>)
    ensures var coverage := CoverageFor(StoredManifest(RunOps(ops)), CostQuery.SelfTime);
      coverage.Some? ==> 0.0 <= coverage.value <= 1.0
  {
    ManifestOverRuns(ops);
    LastManifestTime(ops);
    hide LastManifest, RunOps, StoredManifest;
    var m := StoredManifest(RunOps(ops));
    if m.Some? && m.value.totalSelfMicros > 0.0 {
      FractionOf(m.value.matchedSelfMicros, m.value.totalSelfMicros);
    }
  }
}
