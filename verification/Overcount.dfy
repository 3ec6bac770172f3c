/** Which profiles are covered by at most their total wherever their frames lie, and two profiles that are not. */
module Overcount {
  import opened Sums
  import opened Tallies
  import opened Records
  import opened Resolve
  import opened CallTree
  import opened CallTreeLaws
  import opened ProfileReader
  import opened Join
  import opened Store
  import opened Enrich
  import opened EnrichTotals
  import opened Coverage
  import CostQuery

  // ---------------------------------------------------------------- a store in which every frame matches

  const IN_F := CallFrame("f", "a", 0, 0)
  const ONE_FUNCTION := Db(["x"], map["x" := NodeRow("Function", "f", "a", false, 1, 5, map[])], map[], map[])
  const NO_PATHS := Paths((url: string) => None, (path: string) => path, (path: string) => false)

  lemma OneFunctionSound()
    ensures Sound(ONE_FUNCTION)
  {
  }

  /** A file's only node is found by its own name. */
  lemma OnlyNodeMatches(n: TargetNode, line: int)
    requires n.kind == "Function" && IsMeaningfulName(n.name)
    ensures ResolveIn([n], n.name, line).Found?
  {
    assert [n][..0] == [] && n.name in CandidateNames(n.name);
    assert NameFilter([], n.name) == [];
    assert NameFilter([n], n.name) == [n];
    hide CandidateNames, NameFilter;
  }

  lemma OnlyFile(n: TargetNode)
    ensures Files([n]) == [n.filePath] && InFile([n], n.filePath) == [n]
  {
    assert [n][..0] == [];
  }

  lemma UrlAResolves()
    ensures ResolveFile(NO_PATHS, ["a"], "a") == Some("a")
  {
    assert !StartsWith("a", "node:") by {
      assert |"a"| < |"node:"|;
    }
  }

  const NODE_X := TargetNode("x", "Function", "f", "a", 1, 5)

  lemma SiteX()
    ensures SiteOf(ONE_FUNCTION, NO_PATHS) == Site([NODE_X], NO_PATHS)
  {
    assert SiteOf(ONE_FUNCTION, NO_PATHS).nodes == [NODE_X];
  }

  lemma NamesOfX()
    ensures NODE_X.kind == "Function" && NODE_X.name == "f" && NODE_X.filePath == "a"
    ensures IsMeaningfulName("f")
  {
    assert "f"[0] != '(';
  }

  lemma MatchedMeans(site: Site, f: FrameSample, file: string)
    requires ResolveFile(site.paths, Files(site.nodes), f.url) == Some(file)
    requires ResolveIn(InFile(site.nodes, file), f.functionName, f.line).Found?
    ensures Matched(site, f)
  {
    hide ResolveFile, Files, ResolveIn, InFile;
  }

  lemma FrameInFMatches(f: FrameSample)
    requires f.functionName == "f" && f.url == "a"
    ensures Matched(SiteOf(ONE_FUNCTION, NO_PATHS), f)
  {
    hide *;
    SiteX();
    NamesOfX();
    UrlAResolves();
    OnlyFile(NODE_X);
    OnlyNodeMatches(NODE_X, f.line);
    MatchedMeans(SiteOf(ONE_FUNCTION, NO_PATHS), f, "a");
  }

  ghost predicate AllInF(nodes: seq<ProfileNode>) {
    forall i :: 0 <= i < |nodes| ==> nodes[i].callFrame == IN_F
  }

  lemma {:induction false} NothingDropped(nodes: seq<ProfileNode>, samples: int -> real, micros: int -> real)
    requires AllInF(nodes)
    ensures DroppedFrames(SiteOf(ONE_FUNCTION, NO_PATHS), Frames(nodes, samples, micros)) == []
  {
    var site := SiteOf(ONE_FUNCTION, NO_PATHS);
    hide Matched, SiteOf;
    if nodes != [] {
      var init, last := nodes[..|nodes| - 1], nodes[|nodes| - 1];
      NothingDropped(init, samples, micros);
      var f := FrameOf(last, samples(last.id), micros(last.id));
      FrameInFMatches(f);
      FramesSplit(site, Frames(init, samples, micros), f);
      hide DroppedFrames;
      assert Frames(init, samples, micros) + [] == Frames(init, samples, micros);
    }
  }

  /** When all frames lie in the one function, every sample is matched. */
  lemma AllMatched(profile: Profile)
    requires AllInF(profile.nodes)
    ensures JoinFor(ONE_FUNCTION, profile, NO_PATHS).matchedSamples == FrameTotal(profile)
  {
    var site, frames := SiteOf(ONE_FUNCTION, NO_PATHS), FramesOf(profile);
    NothingDropped(profile.nodes, SampleCount(profile), MicroCount(profile));
    JoinOfAccounts(site, frames);
    MatchedSamplesWithinTotal(ONE_FUNCTION, profile, NO_PATHS);
    hide SiteOf, MatchedFrames, JoinOf, IsTally, FrameTotal;
  }

  // ---------------------------------------------------------------- when coverage by samples is always a fraction

  /** The two profiles have the same counts; their frames may lie anywhere. */
  ghost predicate SameCounts(p: Profile, q: Profile) {
    && p.samples == q.samples && p.timeDeltas == q.timeDeltas && |p.nodes| == |q.nodes|
    && forall i :: 0 <= i < |p.nodes| ==> p.nodes[i].id == q.nodes[i].id && p.nodes[i].hitCount == q.nodes[i].hitCount
  }

  ghost predicate Covered(db: Db, profile: Profile, paths: Paths) {
    var coverage := CoverageFor(Some(ManifestOf(profile, JoinFor(db, profile, paths))), CostQuery.Samples);
    coverage.Some? ==> coverage.value <= 1.0
  }

  /** Coverage by samples is at most one in every store, for all path helpers, wherever the frames lie. */
  ghost predicate AlwaysCovered(profile: Profile) {
    forall db, paths, placed :: Sound(db) && SameCounts(profile, placed) ==> Covered(db, placed, paths)
  }

  lemma {:induction false} SameHits(p: seq<ProfileNode>, q: seq<ProfileNode>, id: int)
    requires |p| == |q| && forall i :: 0 <= i < |p| ==> p[i].id == q[i].id && p[i].hitCount == q[i].hitCount
    ensures Hits(p, id) == Hits(q, id)
  {
    if p != [] {
      SameHits(p[..|p| - 1], q[..|q| - 1], id);
    }
  }

  /** Totals depend on the counts only. */
  lemma SameTotals(p: Profile, q: Profile)
    requires SameCounts(p, q)
    ensures FrameTotal(p) == FrameTotal(q) && TotalOf(p) == TotalOf(q)
  {
    assert Ids(p.nodes) == Ids(q.nodes);
    SameTicks(p, q);
    forall id
      ensures SampleCount(p)(id) == SampleCount(q)(id)
    {
      SameHits(p.nodes, q.nodes, id);
    }
    SumCong(Ids(p.nodes), SampleCount(p), SampleCount(q));
    SumZip(p.nodes, q.nodes, HitCount(), HitCount());
  }

  lemma SameTicks(p: Profile, q: Profile)
    requires p.samples == q.samples && p.timeDeltas == q.timeDeltas
    ensures Ticks(p) == Ticks(q)
  {
  }

  lemma CoveredWhenWithin(db: Db, profile: Profile, paths: Paths)
    requires FrameTotal(profile) <= TotalOf(profile) || TotalOf(profile) <= 0.0
    ensures Covered(db, profile, paths)
  {
    CoverageIsFraction(db, profile, paths, CostQuery.Samples);
    ManifestUnfolds(profile, JoinFor(db, profile, paths));
    hide JoinFor, ManifestOf, FrameTotal, TotalOf;
  }

  ghost function Placed(profile: Profile): (placed: Profile)
    ensures SameCounts(profile, placed) && AllInF(placed.nodes)
  {
    Profile(seq(|profile.nodes|, i requires 0 <= i < |profile.nodes| =>
                  ProfileNode(profile.nodes[i].id, IN_F, profile.nodes[i].hitCount, [])),
            profile.samples, profile.timeDeltas)
  }

  lemma WithinWhenCovered(profile: Profile)
    requires AllInF(profile.nodes) && Covered(ONE_FUNCTION, profile, NO_PATHS)
    ensures FrameTotal(profile) <= TotalOf(profile) || TotalOf(profile) <= 0.0
  {
    AllMatched(profile);
    ManifestUnfolds(profile, JoinFor(ONE_FUNCTION, profile, NO_PATHS));
    hide JoinFor, ManifestOf, FrameTotal, TotalOf, AllInF;
    if TotalOf(profile) > 0.0 {
      FractionOf(FrameTotal(profile), TotalOf(profile));
    }
  }

  /**
   * Coverage by samples is always a fraction exactly when the profile's frames carry no more samples than
   * its total, or the total is not positive and there is no coverage.
   */
  lemma AlwaysCoveredIff(profile: Profile)
    ensures AlwaysCovered(profile) <==> FrameTotal(profile) <= TotalOf(profile) || TotalOf(profile) <= 0.0
  {
    var placed := Placed(profile);
    SameTotals(profile, placed);
    OneFunctionSound();
    hide Covered, FrameTotal, TotalOf, Sound, SameCounts, AllInF;
    if AlwaysCovered(profile) {
      assert Covered(ONE_FUNCTION, placed, NO_PATHS);
      WithinWhenCovered(placed);
    }
    if FrameTotal(profile) <= TotalOf(profile) || TotalOf(profile) <= 0.0 {
      forall db, paths, other | Sound(db) && SameCounts(profile, other)
        ensures Covered(db, other, paths)
      {
        SameTotals(profile, other);
        CoveredWhenWithin(db, other, paths);
      }
    }
  }

  /** With distinct profile ids: exactly when there are ticks, no negative hit count, or no positive total. */
  lemma AlwaysCoveredDistinct(profile: Profile)
    requires DistinctNodes(profile.nodes)
    ensures AlwaysCovered(profile) <==>
      profile.samples != [] || NonNegativeHits(profile.nodes) || TotalOf(profile) <= 0.0
  {
    AlwaysCoveredIff(profile);
    MatchedSamplesWithinTotal(ONE_FUNCTION, profile, NO_PATHS);
    HitGapZero(profile);
    hide AlwaysCovered, FrameTotal, TotalOf, HitGap, NonNegativeHits, DistinctNodes, JoinFor;
  }

  lemma HitGapZero(profile: Profile)
    ensures HitGap(profile) >= 0.0
    ensures profile.samples == [] ==> (HitGap(profile) == 0.0 <==> NonNegativeHits(profile.nodes))
  {
    HitGapNonNegative(profile);
    if i :| 0 <= i < |profile.nodes| && profile.nodes[i].hitCount < 0.0 {
      SumTerm(profile.nodes, i, NegativeHits());
    }
  }

  // ---------------------------------------------------------------- two profiles that are covered twice over

  const COUNTED := ProfileNode(1, IN_F, 2.0, [])
  const UNCOUNTED := ProfileNode(2, IN_F, -1.0, [])

  /** Distinct ids and no ticks, but a negative hit count. */
  const NEGATIVE := Profile([COUNTED, UNCOUNTED], [], [])

  /** One tick and no negative hit count, but two nodes with one id. */
  const DUPLICATED := Profile([COUNTED, COUNTED], [1], [])

  lemma SumTwo<T>(a: T, b: T, f: T -> real)
    ensures Sum([a, b], f) == f(a) + f(b)
  {
    SumSnoc([], a, f);
    SumSnoc([a], b, f);
    assert [] + [a] == [a] && [a] + [b] == [a, b];
  }

  lemma NegativeTotals()
    ensures DistinctNodes(NEGATIVE.nodes) && !NonNegativeHits(NEGATIVE.nodes)
    ensures FrameTotal(NEGATIVE) == 2.0 && TotalOf(NEGATIVE) == 1.0
  {
    var nodes := NEGATIVE.nodes;
    assert nodes == [COUNTED, UNCOUNTED] && nodes[..1] == [COUNTED] && nodes[..1][..0] == [];
    assert Hits(nodes, 1) == Hits([COUNTED], 1) == 2.0;
    assert Hits(nodes, 2) == Hits([COUNTED], 2) == Hits([], 2) == 0.0;
    assert Ids(nodes) == [1, 2];
    assert nodes[1].hitCount < 0.0;
    SumTwo(1, 2, SampleCount(NEGATIVE));
    SumTwo(COUNTED, UNCOUNTED, HitCount());
  }

  lemma DuplicatedTotals()
    ensures NonNegativeHits(DUPLICATED.nodes) && DUPLICATED.samples != []
    ensures FrameTotal(DUPLICATED) == 2.0 && TotalOf(DUPLICATED) == 1.0
  {
    var nodes := DUPLICATED.nodes;
    var tick := Tick(1, SafeDelta(DUPLICATED, 0));
    assert Ids(nodes) == [1, 1] && Ticks(DUPLICATED) == [tick];
    SumSnoc([], tick, Only(TickNode(), OneTick(), 1));
    assert [] + [tick] == [tick];
    assert SampleCount(DUPLICATED)(1) == 1.0;
    SumTwo(1, 1, SampleCount(DUPLICATED));
  }

  /** On both profiles matched samples exceed the total, so coverage is no fraction. */
  lemma Overcovered(profile: Profile)
    requires profile == NEGATIVE || profile == DUPLICATED
    ensures var m := ManifestOf(profile, JoinFor(ONE_FUNCTION, profile, NO_PATHS));
      m.matchedSamples == 2.0 && m.totalSamples == 1.0
    ensures CoverageFor(Some(ManifestOf(profile, JoinFor(ONE_FUNCTION, profile, NO_PATHS))), CostQuery.Samples)
      == Some(2.0)
  {
    NegativeTotals();
    DuplicatedTotals();
    assert AllInF(profile.nodes);
    AllMatched(profile);
    ManifestUnfolds(profile, JoinFor(ONE_FUNCTION, profile, NO_PATHS));
    hide JoinFor, ManifestOf, FrameTotal, TotalOf, AllInF, NEGATIVE, DUPLICATED;
  }
}
