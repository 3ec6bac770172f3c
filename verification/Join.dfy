/** Joining profile frames and call edges onto stored nodes, with every frame and edge accounted for. */
module Join {
  import opened Sums
  import opened Tallies
  import opened Records
  import opened Resolve
  import opened ProfileReader
  import opened Numerals

  /** What a join is relative to: the stored nodes and the path helpers. */
  datatype Site = Site(nodes: seq<TargetNode>, paths: Paths)

  function ResolveSample(site: Site, f: FrameSample): Resolution {
    ResolveFrame(site.paths, site.nodes, f.functionName, f.url, f.line)
  }

  function ResolveRef(site: Site, f: FrameRef): Resolution {
    ResolveFrame(site.paths, site.nodes, f.functionName, f.url, f.line)
  }

  method IndexByFile(nodes: seq<TargetNode>) returns (byFile: map<string, seq<TargetNode>>, filePaths: seq<string>)
    ensures filePaths == Files(nodes)
    ensures forall f :: f in byFile <==> f in filePaths
    ensures forall f :: f in byFile ==> byFile[f] == InFile(nodes, f)
  {
    byFile, filePaths := map[], [];
    for i := 0 to |nodes|
      invariant filePaths == Files(nodes[..i])
      invariant forall f :: f in byFile <==> f in filePaths
      invariant forall f :: f in byFile ==> byFile[f] == InFile(nodes[..i], f)
      invariant forall f :: f !in byFile ==> InFile(nodes[..i], f) == []
    {
      var node := nodes[i];
      assert nodes[..i + 1][..i] == nodes[..i];
      if node.filePath !in byFile {
        byFile := byFile[node.filePath := [node]];
        filePaths := filePaths + [node.filePath];
      } else {
        byFile := byFile[node.filePath := byFile[node.filePath] + [node]];
      }
    }
    assert nodes[..|nodes|] == nodes;
  }

  /** Resolves one frame against the index. */
  method ResolveAgainst(site: Site, byFile: map<string, seq<TargetNode>>, filePaths: seq<string>,
                        functionName: string, url: string, line: int)
      returns (r: Resolution)
    requires filePaths == Files(site.nodes)
    requires forall f :: f in byFile <==> f in filePaths
    requires forall f :: f in byFile ==> byFile[f] == InFile(site.nodes, f)
    ensures r == ResolveFrame(site.paths, site.nodes, functionName, url, line)
  {
    var file := ResolveFilePath(site.paths, filePaths, url);
    if file == None {
      return Missing(NoFile);
    }
    FileIsKnown(site.paths, filePaths, url);
    r := ResolveNode(byFile[file.value], functionName, line);
  }

  lemma FileIsKnown(paths: Paths, files: seq<string>, url: string)
    ensures var f := ResolveFile(paths, files, url); f.Some? ==> f.value in files
  {
    if paths.toAbsolute(url).Some? {
      var m := Matching(files, paths.toAbsolute(url).value);
      assert |m| == 1 ==> m[0] in m;
    }
  }

  // ---------------------------------------------------------------- frames

  predicate Matched(site: Site, f: FrameSample) {
    ResolveSample(site, f).Found?
  }

  /** The matched and the dropped frames, in order. */
  ghost function MatchedFrames(site: Site, frames: seq<FrameSample>): seq<FrameSample> {
    if frames == [] then [] else
      MatchedFrames(site, frames[..|frames| - 1])
        + if Matched(site, frames[|frames| - 1]) then [frames[|frames| - 1]] else []
  }

  ghost function DroppedFrames(site: Site, frames: seq<FrameSample>): seq<FrameSample> {
    if frames == [] then [] else
      DroppedFrames(site, frames[..|frames| - 1])
        + if Matched(site, frames[|frames| - 1]) then [] else [frames[|frames| - 1]]
  }

  /** The node id a frame is attached to. */
  ghost function NodeId(site: Site): FrameSample -> string {
    (f: FrameSample) => var r := ResolveSample(site, f); if r.Found? then r.node.id else ""
  }

  function ReasonText(reason: Reason): string {
    match reason case NoFile => "no-file" case NoNode => "no-node" case Ambiguous => "ambiguous"
  }

  function LineText(line: int): string {
    if line < 0 then "-" + Decimal(-line) else Decimal(line)
  }

  function DropLabel(f: FrameSample, reason: Reason): string {
    var name := if f.functionName != "" then f.functionName else "(anonymous)";
    if reason.NoFile? then (if f.url == "" then name else name + " " + f.url)
    else name + " " + f.url + ":" + LineText(f.line)
  }

  function DropKeyOf(f: FrameSample, reason: Reason): string {
    ReasonText(reason) + ":" + DropLabel(f, reason)
  }

  ghost function DropKey(site: Site): FrameSample -> string {
    (f: FrameSample) => var r := ResolveSample(site, f); if r.Missing? then DropKeyOf(f, r.reason) else ""
  }

  ghost function Via(site: Site, via: Via): FrameSample -> real {
    (f: FrameSample) => if ResolveSample(site, f).Found? && ResolveSample(site, f).via == via then 1.0 else 0.0
  }

  /**
   * The outcome of the frame join. An attribution or drop group is one sample count and one time per
   * key, kept in two maps with the same keys.
   */
  datatype JoinResult = JoinResult(
    samplesById: map<string, real>, microsById: map<string, real>,
    matchedFrames: nat, matchedSamples: real, matchedSelfMicros: real, matchedByName: nat, matchedByRange: nat,
    droppedFrames: nat, droppedSamples: real, droppedSelfMicros: real,
    droppedSamplesByKey: map<string, real>, droppedMicrosByKey: map<string, real>)

  const NOTHING_JOINED := JoinResult(map[], map[], 0, 0.0, 0.0, 0, 0, 0, 0.0, 0.0, map[], map[])

  /** The result accounts for exactly these frames. */
  ghost predicate Accounts(site: Site, frames: seq<FrameSample>, r: JoinResult) {
    var matched, dropped := MatchedFrames(site, frames), DroppedFrames(site, frames);
    && IsTally(matched, NodeId(site), Samples(), r.samplesById)
    && IsTally(matched, NodeId(site), Micros(), r.microsById)
    && IsTally(dropped, DropKey(site), Samples(), r.droppedSamplesByKey)
    && IsTally(dropped, DropKey(site), Micros(), r.droppedMicrosByKey)
    && r.matchedFrames == |matched| && r.droppedFrames == |dropped|
    && r.matchedSamples == Sum(matched, Samples()) && r.matchedSelfMicros == Sum(matched, Micros())
    && r.droppedSamples == Sum(dropped, Samples()) && r.droppedSelfMicros == Sum(dropped, Micros())
    && r.matchedByName as real == Sum(matched, Via(site, ByName))
    && r.matchedByRange as real == Sum(matched, Via(site, ByRange))
  }

  function RecordMatch(r: JoinResult, f: FrameSample, id: string, via: Via): JoinResult {
    r.(samplesById := Plus(r.samplesById, id, f.samples),
       microsById := Plus(r.microsById, id, f.selfMicros),
       matchedFrames := r.matchedFrames + 1,
       matchedSamples := r.matchedSamples + f.samples,
       matchedSelfMicros := r.matchedSelfMicros + f.selfMicros,
       matchedByName := r.matchedByName + if via.ByName? then 1 else 0,
       matchedByRange := r.matchedByRange + if via.ByRange? then 1 else 0)
  }

  function RecordDrop(r: JoinResult, f: FrameSample, reason: Reason): JoinResult {
    r.(droppedSamplesByKey := Plus(r.droppedSamplesByKey, DropKeyOf(f, reason), f.samples),
       droppedMicrosByKey := Plus(r.droppedMicrosByKey, DropKeyOf(f, reason), f.selfMicros),
       droppedFrames := r.droppedFrames + 1,
       droppedSamples := r.droppedSamples + f.samples,
       droppedSelfMicros := r.droppedSelfMicros + f.selfMicros)
  }

  lemma FramesSplit(site: Site, frames: seq<FrameSample>, f: FrameSample)
    ensures MatchedFrames(site, frames + [f])
      == if Matched(site, f) then MatchedFrames(site, frames) + [f] else MatchedFrames(site, frames)
    ensures DroppedFrames(site, frames + [f])
      == if Matched(site, f) then DroppedFrames(site, frames) else DroppedFrames(site, frames) + [f]
  {
    assert (frames + [f])[..|frames|] == frames;
  }

  lemma RecordMatchAccounts(site: Site, frames: seq<FrameSample>, r: JoinResult, f: FrameSample)
    requires Accounts(site, frames, r) && Matched(site, f)
    ensures var found := ResolveSample(site, f);
      Accounts(site, frames + [f], RecordMatch(r, f, found.node.id, found.via))
  {
    var matched, dropped := MatchedFrames(site, frames), DroppedFrames(site, frames);
    hide IsTally, ResolveFrame, MatchedFrames, DroppedFrames, Plus, Sum;
    FramesSplit(site, frames, f);
    TallySnoc(matched, f, NodeId(site), Samples(), r.samplesById);
    TallySnoc(matched, f, NodeId(site), Micros(), r.microsById);
    SumSnoc(matched, f, Samples());
    SumSnoc(matched, f, Micros());
    SumSnoc(matched, f, Via(site, ByName));
    SumSnoc(matched, f, Via(site, ByRange));
  }

  lemma RecordDropAccounts(site: Site, frames: seq<FrameSample>, r: JoinResult, f: FrameSample)
    requires Accounts(site, frames, r) && !Matched(site, f)
    ensures Accounts(site, frames + [f], RecordDrop(r, f, ResolveSample(site, f).reason))
  {
    var matched, dropped := MatchedFrames(site, frames), DroppedFrames(site, frames);
    hide IsTally, ResolveFrame, MatchedFrames, DroppedFrames, Plus, Sum, DropKeyOf;
    FramesSplit(site, frames, f);
    TallySnoc(dropped, f, DropKey(site), Samples(), r.droppedSamplesByKey);
    TallySnoc(dropped, f, DropKey(site), Micros(), r.droppedMicrosByKey);
    SumSnoc(dropped, f, Samples());
    SumSnoc(dropped, f, Micros());
  }

  lemma NothingAccounts(site: Site)
    ensures Accounts(site, [], NOTHING_JOINED) && JoinOf(site, []) == NOTHING_JOINED
  {
  }

  /** The join as a function: frames are recorded one by one. */
  ghost function JoinOf(site: Site, frames: seq<FrameSample>): JoinResult {
    if frames == [] then NOTHING_JOINED else
      var r, f := JoinOf(site, frames[..|frames| - 1]), frames[|frames| - 1];
      match ResolveSample(site, f)
      case Found(node, via) => RecordMatch(r, f, node.id, via)
      case Missing(reason) => RecordDrop(r, f, reason)
  }

  lemma JoinOfSnoc(site: Site, frames: seq<FrameSample>, i: nat)
    requires i < |frames|
    ensures JoinOf(site, frames[..i + 1]) == match ResolveSample(site, frames[i])
      case Found(node, via) => RecordMatch(JoinOf(site, frames[..i]), frames[i], node.id, via)
      case Missing(reason) => RecordDrop(JoinOf(site, frames[..i]), frames[i], reason)
  {
    assert frames[..i + 1][..i] == frames[..i];
    hide ResolveFrame, RecordMatch, RecordDrop;
  }

  lemma {:induction false} JoinOfAccounts(site: Site, frames: seq<FrameSample>)
    ensures Accounts(site, frames, JoinOf(site, frames))
  {
    hide Accounts, ResolveSample, RecordMatch, RecordDrop, JoinOf;
    if frames == [] {
      NothingAccounts(site);
    } else {
      var init, f := frames[..|frames| - 1], frames[|frames| - 1];
      JoinOfAccounts(site, init);
      assert frames == init + [f] && frames[..|frames|] == frames;
      JoinOfSnoc(site, frames, |frames| - 1);
      if Matched(site, f) {
        RecordMatchAccounts(site, init, JoinOf(site, init), f);
      } else {
        RecordDropAccounts(site, init, JoinOf(site, init), f);
      }
    }
  }

  method JoinFrames(site: Site, frames: seq<FrameSample>) returns (r: JoinResult)
    ensures r == JoinOf(site, frames) && Accounts(site, frames, r)
  {
    var byFile, filePaths := IndexByFile(site.nodes);
    r := NOTHING_JOINED;
    hide ResolveFrame, RecordMatch, RecordDrop, Accounts;
    for i := 0 to |frames|
      invariant r == JoinOf(site, frames[..i])
    {
      var frame := frames[i];
      JoinOfSnoc(site, frames, i);
      var resolution := ResolveAgainst(site, byFile, filePaths, frame.functionName, frame.url, frame.line);
      if resolution.Missing? {
        r := RecordDrop(r, frame, resolution.reason);
        continue;
      }
      r := RecordMatch(r, frame, resolution.node.id, resolution.via);
    }
    assert frames[..|frames|] == frames;
    JoinOfAccounts(site, frames);
  }

  lemma {:induction false} SplitTotals(site: Site, frames: seq<FrameSample>, w: FrameSample -> real)
    ensures |MatchedFrames(site, frames)| + |DroppedFrames(site, frames)| == |frames|
    ensures Sum(MatchedFrames(site, frames), w) + Sum(DroppedFrames(site, frames), w) == Sum(frames, w)
    ensures forall f :: f in MatchedFrames(site, frames) ==> f in frames && Matched(site, f)
  {
    if frames != [] {
      var init, last := frames[..|frames| - 1], frames[|frames| - 1];
      SplitTotals(site, init, w);
      assert frames == init + [last];
      FramesSplit(site, init, last);
      SumSnoc(MatchedFrames(site, init), last, w);
      SumSnoc(DroppedFrames(site, init), last, w);
    }
  }

  /**
   * Every frame is counted exactly once: matched and dropped make up the input in frames, samples and
   * time; attributions add up to the matched and drop groups to the dropped totals; and every match is
   * by name or by range.
   */
  lemma JoinConserves(site: Site, frames: seq<FrameSample>, r: JoinResult, ids: seq<string>, keys: seq<string>)
    requires Accounts(site, frames, r)
    requires Enumerates(ids, r.samplesById.Keys) && Enumerates(keys, r.droppedSamplesByKey.Keys)
    ensures r.matchedFrames + r.droppedFrames == |frames|
    ensures r.matchedSamples + r.droppedSamples == Sum(frames, Samples())
    ensures r.matchedSelfMicros + r.droppedSelfMicros == Sum(frames, Micros())
    ensures Sum(ids, ValueOf(r.samplesById)) == r.matchedSamples
    ensures Sum(ids, ValueOf(r.microsById)) == r.matchedSelfMicros
    ensures Sum(keys, ValueOf(r.droppedSamplesByKey)) == r.droppedSamples
    ensures Sum(keys, ValueOf(r.droppedMicrosByKey)) == r.droppedSelfMicros
    ensures r.matchedFrames == r.matchedByName + r.matchedByRange
  {
    var matched, dropped := MatchedFrames(site, frames), DroppedFrames(site, frames);
    SplitTotals(site, frames, Samples());
    SplitTotals(site, frames, Micros());
    EveryMatchHasOneCause(site, matched);
    hide MatchedFrames, DroppedFrames, Sum;
    assert r.microsById.Keys == r.samplesById.Keys && r.droppedMicrosByKey.Keys == r.droppedSamplesByKey.Keys;
    hide Keys;
    TallyTotal(matched, NodeId(site), Samples(), r.samplesById, ids);
    TallyTotal(matched, NodeId(site), Micros(), r.microsById, ids);
    TallyTotal(dropped, DropKey(site), Samples(), r.droppedSamplesByKey, keys);
    TallyTotal(dropped, DropKey(site), Micros(), r.droppedMicrosByKey, keys);
  }

  lemma {:induction false} EveryMatchHasOneCause(site: Site, matched: seq<FrameSample>)
    requires forall f :: f in matched ==> Matched(site, f)
    ensures Sum(matched, Via(site, ByName)) + Sum(matched, Via(site, ByRange)) == |matched| as real
  {
    if matched != [] {
      EveryMatchHasOneCause(site, matched[..|matched| - 1]);
      assert Matched(site, matched[|matched| - 1]);
    }
  }

  /** Samples are attributed only to stored nodes. */
  lemma AttributedToStored(site: Site, frames: seq<FrameSample>, r: JoinResult, id: string)
    requires Accounts(site, frames, r) && id in r.samplesById
    ensures exists n :: n in site.nodes && n.id == id
  {
    var matched := MatchedFrames(site, frames);
    SplitTotals(site, frames, Samples());
    var i :| 0 <= i < |matched| && NodeId(site)(matched[i]) == id;
    var f := matched[i];
    assert Matched(site, f);
    FrameResolvesToStored(site.paths, site.nodes, f.functionName, f.url, f.line);
  }

  // ---------------------------------------------------------------- call edges

  /** A runtime call edge between two stored nodes. */
  datatype RuntimeEdge = RuntimeEdge(from: string, to: string, samples: real)

  /** Both ends resolve, to different nodes. */
  predicate Joined(site: Site, e: RuntimeCallEdge) {
    var from, to := ResolveRef(site, e.caller), ResolveRef(site, e.callee);
    from.Found? && to.Found? && from.node.id != to.node.id
  }

  function Ends(site: Site, e: RuntimeCallEdge): (string, string) {
    var from, to := ResolveRef(site, e.caller), ResolveRef(site, e.callee);
    if from.Found? && to.Found? then (from.node.id, to.node.id) else ("", "")
  }

  function PairKey(ends: (string, string)): string {
    ends.0 + "->" + ends.1
  }

  ghost function EdgeKey(site: Site): RuntimeCallEdge -> string {
    (e: RuntimeCallEdge) => PairKey(Ends(site, e))
  }

  ghost function JoinedEdges(site: Site, edges: seq<RuntimeCallEdge>): seq<RuntimeCallEdge> {
    if edges == [] then [] else
      JoinedEdges(site, edges[..|edges| - 1]) + if Joined(site, edges[|edges| - 1]) then [edges[|edges| - 1]] else []
  }

  ghost function UnjoinedEdges(site: Site, edges: seq<RuntimeCallEdge>): seq<RuntimeCallEdge> {
    if edges == [] then [] else
      UnjoinedEdges(site, edges[..|edges| - 1]) + if Joined(site, edges[|edges| - 1]) then [] else [edges[|edges| - 1]]
  }

  datatype CallJoin = CallJoin(edges: seq<RuntimeEdge>, matchedEdges: nat, droppedEdges: nat, droppedSamples: real)

  ghost function EdgeSamples(): RuntimeEdge -> real {
    (e: RuntimeEdge) => e.samples
  }

  /** The insertion-ordered map of aggregated edges: its keys in order, and the ends and weight per key. */
  datatype Aggregation = Aggregation(
    order: seq<string>, ends: map<string, (string, string)>, weights: map<string, real>)

  const NO_EDGES := Aggregation([], map[], map[])

  /** Adds a new key at the end, or adds the samples to an existing key. */
  function AddEdge(a: Aggregation, pair: (string, string), samples: real): Aggregation {
    var key := PairKey(pair);
    if key in a.weights then a.(weights := Plus(a.weights, key, samples))
    else Aggregation(a.order + [key], a.ends[key := pair], Plus(a.weights, key, samples))
  }

  /** The aggregation holds exactly these joined edges. */
  ghost predicate Aggregates(site: Site, joined: seq<RuntimeCallEdge>, a: Aggregation) {
    && IsTally(joined, EdgeKey(site), Weight(), a.weights)
    && Enumerates(a.order, a.weights.Keys)
    && a.ends.Keys == a.weights.Keys
    && forall k :: k in a.ends ==> IsEnd(site, joined, k, a.ends[k])
  }

  /** The pair has this key and is the pair of some joined edge. */
  ghost predicate IsEnd(site: Site, joined: seq<RuntimeCallEdge>, k: string, pair: (string, string)) {
    PairKey(pair) == k && exists i :: 0 <= i < |joined| && Ends(site, joined[i]) == pair
  }

  lemma IsEndStays(site: Site, joined: seq<RuntimeCallEdge>, e: RuntimeCallEdge, k: string, pair: (string, string))
    requires IsEnd(site, joined, k, pair)
    ensures IsEnd(site, joined + [e], k, pair)
  {
    var i :| 0 <= i < |joined| && Ends(site, joined[i]) == pair;
    assert (joined + [e])[i] == joined[i];
  }

  lemma IsEndLast(site: Site, joined: seq<RuntimeCallEdge>, e: RuntimeCallEdge)
    ensures IsEnd(site, joined + [e], PairKey(Ends(site, e)), Ends(site, e))
  {
    assert (joined + [e])[|joined|] == e;
  }

  lemma AggregatesSnoc(site: Site, joined: seq<RuntimeCallEdge>, a: Aggregation, e: RuntimeCallEdge)
    requires Aggregates(site, joined, a)
    ensures Aggregates(site, joined + [e], AddEdge(a, Ends(site, e), e.samples))
  {
    hide IsTally, Enumerates, Ends, PairKey;
    var key := PairKey(Ends(site, e));
    assert EdgeKey(site)(e) == key && Weight()(e) == e.samples;
    TallySnoc(joined, e, EdgeKey(site), Weight(), a.weights);
    EnumeratesUpdate(a.order, a.weights, key, GetOrZero(a.weights, key) + e.samples);
    assert Plus(a.weights, key, e.samples).Keys == a.weights.Keys + {key};
    hide Plus;
    IsEndLast(site, joined, e);
    forall k | k in a.ends
      ensures IsEnd(site, joined + [e], k, a.ends[k])
    {
      IsEndStays(site, joined, e, k, a.ends[k]);
    }
    hide IsEnd;
    if key in a.weights {
      assert a.weights.Keys + {key} == a.weights.Keys;
    }
  }

  /** The aggregated edges, in order of first use. */
  function Listed(a: Aggregation): (edges: seq<RuntimeEdge>)
    requires forall k :: k in a.order ==> k in a.ends && k in a.weights
    ensures |edges| == |a.order|
    ensures forall i :: 0 <= i < |a.order| ==>
      edges[i] == RuntimeEdge(a.ends[a.order[i]].0, a.ends[a.order[i]].1, a.weights[a.order[i]])
  {
    seq(|a.order|, i requires 0 <= i < |a.order| =>
      assert a.order[i] in a.order; RuntimeEdge(a.ends[a.order[i]].0, a.ends[a.order[i]].1, a.weights[a.order[i]]))
  }

  /** The aggregation as a function: joined edges are added one by one. */
  ghost function AggregationOf(site: Site, edges: seq<RuntimeCallEdge>): Aggregation {
    if edges == [] then NO_EDGES else
      var a, e := AggregationOf(site, edges[..|edges| - 1]), edges[|edges| - 1];
      if Joined(site, e) then AddEdge(a, Ends(site, e), e.samples) else a
  }

  lemma {:induction false} AggregationOk(site: Site, edges: seq<RuntimeCallEdge>)
    ensures var a := AggregationOf(site, edges);
      && Aggregates(site, JoinedEdges(site, edges), a)
      && (forall k :: k in a.order ==> k in a.ends && k in a.weights)
      && |a.order| <= |JoinedEdges(site, edges)|
  {
    hide *;
    if edges == [] {
      NoCallEdges(site, edges);
      assert edges[..0] == edges;
      NothingAggregated(site);
    } else {
      var init, e := edges[..|edges| - 1], edges[|edges| - 1];
      AggregationOk(site, init);
      assert edges[..|edges|] == edges;
      EdgesSplit(site, edges, |edges| - 1);
      AggregationStep(site, edges, |edges| - 1);
      if Joined(site, e) {
        AggregatesSnoc(site, JoinedEdges(site, init), AggregationOf(site, init), e);
        AddEdgeLength(AggregationOf(site, init), Ends(site, e), e.samples);
      }
    }
    AggregatesKeys(site, JoinedEdges(site, edges), AggregationOf(site, edges));
  }

  lemma AddEdgeLength(a: Aggregation, pair: (string, string), samples: real)
    ensures |AddEdge(a, pair, samples).order| <= |a.order| + 1
  {
    hide PairKey, Plus;
  }

  lemma NothingAggregated(site: Site)
    ensures Aggregates(site, [], NO_EDGES) && NO_EDGES.order == []
    ensures JoinedEdges(site, []) == [] && UnjoinedEdges(site, []) == [] && Sum([], Weight()) == 0.0
  {
    TallyNone(EdgeKey(site), Weight());
  }

  lemma JoinedIff(site: Site, e: RuntimeCallEdge, from: Resolution, to: Resolution)
    requires from == ResolveFrame(site.paths, site.nodes, e.caller.functionName, e.caller.url, e.caller.line)
    requires to == ResolveFrame(site.paths, site.nodes, e.callee.functionName, e.callee.url, e.callee.line)
    ensures Joined(site, e) <==> from.Found? && to.Found? && from.node.id != to.node.id
    ensures from.Found? && to.Found? ==> Ends(site, e) == (from.node.id, to.node.id)
  {
    hide ResolveFrame;
  }

  /** The outcome of the call-edge join. */
  ghost predicate IsCallJoin(site: Site, callEdges: seq<RuntimeCallEdge>, r: CallJoin) {
    var a := AggregationOf(site, callEdges);
    && (forall k :: k in a.order ==> k in a.ends && k in a.weights)
    && r.edges == Listed(a)
    && r.matchedEdges == |JoinedEdges(site, callEdges)|
    && r.droppedEdges == |UnjoinedEdges(site, callEdges)|
    && r.droppedSamples == Sum(UnjoinedEdges(site, callEdges), Weight())
  }

  method JoinCallEdges(site: Site, callEdges: seq<RuntimeCallEdge>) returns (r: CallJoin)
    ensures IsCallJoin(site, callEdges, r)
  {
    var byFile, filePaths := IndexByFile(site.nodes);
    var aggregated := NO_EDGES;
    var matchedEdges: nat, droppedEdges: nat, droppedSamples := 0, 0, 0.0;
    hide *;
    NoCallEdges(site, callEdges);
    for i := 0 to |callEdges|
      invariant aggregated == AggregationOf(site, callEdges[..i])
      invariant matchedEdges == |JoinedEdges(site, callEdges[..i])|
      invariant droppedEdges == |UnjoinedEdges(site, callEdges[..i])|
      invariant droppedSamples == Sum(UnjoinedEdges(site, callEdges[..i]), Weight())
    {
      var edge := callEdges[i];
      CallEdgeStep(site, callEdges, i);
      var from := ResolveAgainst(site, byFile, filePaths, edge.caller.functionName, edge.caller.url, edge.caller.line);
      var to := ResolveAgainst(site, byFile, filePaths, edge.callee.functionName, edge.callee.url, edge.callee.line);
      JoinedIff(site, edge, from, to);
      if from.Missing? || to.Missing? || from.node.id == to.node.id {
        droppedEdges := droppedEdges + 1;
        droppedSamples := droppedSamples + edge.samples;
        continue;
      }
      aggregated := AddEdge(aggregated, (from.node.id, to.node.id), edge.samples);
      matchedEdges := matchedEdges + 1;
    }
    assert callEdges[..|callEdges|] == callEdges;
    AggregationOk(site, callEdges);
    r := CallJoin(Listed(aggregated), matchedEdges, droppedEdges, droppedSamples);
    IsCallJoinUnfolds(site, callEdges, r);
  }

  lemma NoCallEdges(site: Site, callEdges: seq<RuntimeCallEdge>)
    ensures AggregationOf(site, callEdges[..0]) == NO_EDGES
    ensures JoinedEdges(site, callEdges[..0]) == [] && UnjoinedEdges(site, callEdges[..0]) == []
    ensures Sum(UnjoinedEdges(site, callEdges[..0]), Weight()) == 0.0
  {
    assert callEdges[..0] == [];
    hide IsTally, Enumerates;
  }

  /** What one more call edge does to the aggregation and to the drop counters. */
  lemma CallEdgeStep(site: Site, edges: seq<RuntimeCallEdge>, i: nat)
    requires i < |edges|
    ensures var e, a := edges[i], AggregationOf(site, edges[..i]);
      AggregationOf(site, edges[..i + 1]) == if Joined(site, e) then AddEdge(a, Ends(site, e), e.samples) else a
    ensures |JoinedEdges(site, edges[..i + 1])|
      == |JoinedEdges(site, edges[..i])| + if Joined(site, edges[i]) then 1 else 0
    ensures |UnjoinedEdges(site, edges[..i + 1])|
      == |UnjoinedEdges(site, edges[..i])| + if Joined(site, edges[i]) then 0 else 1
    ensures Sum(UnjoinedEdges(site, edges[..i + 1]), Weight())
      == Sum(UnjoinedEdges(site, edges[..i]), Weight()) + if Joined(site, edges[i]) then 0.0 else edges[i].samples
  {
    hide *;
    AggregationStep(site, edges, i);
    EdgesSplit(site, edges, i);
    SumSnoc(UnjoinedEdges(site, edges[..i]), edges[i], Weight());
    WeightOf(edges[i]);
  }

  lemma AggregationStep(site: Site, edges: seq<RuntimeCallEdge>, i: nat)
    requires i < |edges|
    ensures var e, a := edges[i], AggregationOf(site, edges[..i]);
      AggregationOf(site, edges[..i + 1]) == if Joined(site, e) then AddEdge(a, Ends(site, e), e.samples) else a
  {
    hide Joined, Ends, AddEdge;
    assert edges[..i + 1][..i] == edges[..i] && edges[..i + 1][i] == edges[i];
  }

  lemma WeightOf(e: RuntimeCallEdge)
    ensures Weight()(e) == e.samples
  {
  }

  lemma IsCallJoinUnfolds(site: Site, callEdges: seq<RuntimeCallEdge>, r: CallJoin)
    ensures var a := AggregationOf(site, callEdges);
      IsCallJoin(site, callEdges, r) <==>
        && (forall k :: k in a.order ==> k in a.ends && k in a.weights)
        && r.edges == Listed(a)
        && r.matchedEdges == |JoinedEdges(site, callEdges)|
        && r.droppedEdges == |UnjoinedEdges(site, callEdges)|
        && r.droppedSamples == Sum(UnjoinedEdges(site, callEdges), Weight())
  {
    hide AggregationOf, Listed, JoinedEdges, UnjoinedEdges;
  }

  lemma AggregatesKeys(site: Site, joined: seq<RuntimeCallEdge>, a: Aggregation)
    requires Aggregates(site, joined, a)
    ensures forall k :: k in a.order ==> k in a.ends && k in a.weights
  {
    hide IsTally, IsEnd;
    assert forall k :: k in a.order ==> k in a.weights.Keys;
  }

  lemma EdgesSplit(site: Site, edges: seq<RuntimeCallEdge>, i: nat)
    requires i < |edges|
    ensures JoinedEdges(site, edges[..i + 1]) ==
      if Joined(site, edges[i]) then JoinedEdges(site, edges[..i]) + [edges[i]] else JoinedEdges(site, edges[..i])
    ensures UnjoinedEdges(site, edges[..i + 1]) ==
      if Joined(site, edges[i]) then UnjoinedEdges(site, edges[..i]) else UnjoinedEdges(site, edges[..i]) + [edges[i]]
  {
    assert edges[..i + 1][..i] == edges[..i];
  }

  lemma {:induction false} EdgeSplitTotals(site: Site, edges: seq<RuntimeCallEdge>)
    ensures |JoinedEdges(site, edges)| + |UnjoinedEdges(site, edges)| == |edges|
    ensures Sum(JoinedEdges(site, edges), Weight()) + Sum(UnjoinedEdges(site, edges), Weight()) == Sum(edges, Weight())
    ensures forall e :: e in JoinedEdges(site, edges) ==> e in edges && Joined(site, e)
  {
    if edges != [] {
      var init, last := edges[..|edges| - 1], edges[|edges| - 1];
      EdgeSplitTotals(site, init);
      assert edges == init + [last];
      assert edges[..|edges|] == edges;
      EdgesSplit(site, edges, |edges| - 1);
      SumSnoc(JoinedEdges(site, init), last, Weight());
      SumSnoc(UnjoinedEdges(site, init), last, Weight());
    }
  }

  /**
   * Every call edge is counted once, the samples of the output and the dropped edges make up the
   * input, and no output edge is a self-edge.
   */
  lemma CallJoinConserves(site: Site, callEdges: seq<RuntimeCallEdge>, r: CallJoin)
    requires IsCallJoin(site, callEdges, r)
    ensures r.matchedEdges + r.droppedEdges == |callEdges| && |r.edges| <= r.matchedEdges
    ensures Sum(r.edges, EdgeSamples()) + r.droppedSamples == Sum(callEdges, Weight())
    ensures forall i :: 0 <= i < |r.edges| ==> r.edges[i].from != r.edges[i].to
  {
    var a := AggregationOf(site, callEdges);
    AggregationOk(site, callEdges);
    hide AggregationOf;
    var joined := JoinedEdges(site, callEdges);
    EdgeSplitTotals(site, callEdges);
    hide JoinedEdges, UnjoinedEdges, IsTally, IsEnd, Joined, Ends;
    TallyTotal(joined, EdgeKey(site), Weight(), a.weights, a.order);
    SumZip(Listed(a), a.order, EdgeSamples(), ValueOf(a.weights)) by {
      assert forall i :: 0 <= i < |a.order| ==> a.order[i] in a.order;
    }
    forall i | 0 <= i < |a.order|
      ensures a.ends[a.order[i]].0 != a.ends[a.order[i]].1
    {
      assert a.order[i] in a.order;
      EndsDiffer(site, joined, a.order[i], a.ends[a.order[i]]);
    }
  }

  lemma EndsDiffer(site: Site, joined: seq<RuntimeCallEdge>, k: string, pair: (string, string))
    requires IsEnd(site, joined, k, pair) && forall e :: e in joined ==> Joined(site, e)
    ensures pair.0 != pair.1
  {
    hide ResolveFrame;
    var j :| 0 <= j < |joined| && Ends(site, joined[j]) == pair;
    assert Joined(site, joined[j]);
  }

  // ---------------------------------------------------------------- when the pair key is exact

  predicate HasArrow(s: string) {
    exists i :: 0 <= i < |s| - 1 && s[i] == '-' && s[i + 1] == '>'
  }

  /** Without an arrow in the first id, the pair key determines the pair. */
  lemma PairKeyInjective(p: (string, string), q: (string, string))
    requires !HasArrow(p.0) && !HasArrow(q.0) && PairKey(p) == PairKey(q)
    ensures p == q
  {
    var s := PairKey(p);
    assert s[|p.0|] == '-' && s[|p.0| + 1] == '>' && s[|q.0|] == '-' && s[|q.0| + 1] == '>';
    if |p.0| < |q.0| {
      ArrowInside(q, |p.0|);
    } else if |q.0| < |p.0| {
      ArrowInside(p, |q.0|);
    }
    assert p.0 == s[..|p.0|] && q.0 == s[..|q.0|];
    assert p.1 == s[|p.0| + 2..] && q.1 == s[|q.0| + 2..];
  }

  lemma ArrowInside(p: (string, string), i: nat)
    requires !HasArrow(p.0) && i < |p.0|
    ensures PairKey(p)[i] != '-' || PairKey(p)[i + 1] != '>'
  {
  }

  /** With an arrow in an id the key is not exact: two different pairs share one. */
  lemma PairKeyCollides()
    ensures PairKey(("a", "b->c")) == PairKey(("a->b", "c")) && HasArrow("a->b")
  {
    assert "a->b"[1] == '-' && "a->b"[2] == '>';
  }

  ghost function Pair(site: Site): RuntimeCallEdge -> (string, string) {
    (e: RuntimeCallEdge) => Ends(site, e)
  }

  /** No two of these edges join different pairs under one key. */
  ghost predicate KeysExact(site: Site, edges: seq<RuntimeCallEdge>) {
    forall e, f :: e in edges && f in edges && PairKey(Ends(site, e)) == PairKey(Ends(site, f)) ==>
      Ends(site, e) == Ends(site, f)
  }

  /** Keys are exact when no caller's node id holds an arrow. */
  lemma ArrowFreeKeysExact(site: Site, edges: seq<RuntimeCallEdge>)
    requires forall e :: e in edges ==> !HasArrow(Ends(site, e).0)
    ensures KeysExact(site, edges)
  {
    hide Ends, PairKey, HasArrow;
    forall e, f | e in edges && f in edges && PairKey(Ends(site, e)) == PairKey(Ends(site, f))
      ensures Ends(site, e) == Ends(site, f)
    {
      PairKeyInjective(Ends(site, e), Ends(site, f));
    }
  }

  /** The pair of every joined edge is in the output. */
  ghost predicate PairsListed(site: Site, callEdges: seq<RuntimeCallEdge>, r: CallJoin) {
    forall e :: e in JoinedEdges(site, callEdges) ==> IsListed(r, Ends(site, e))
  }

  ghost predicate IsListed(r: CallJoin, pair: (string, string)) {
    exists i :: 0 <= i < |r.edges| && (r.edges[i].from, r.edges[i].to) == pair
  }

  lemma KeyListed(site: Site, joined: seq<RuntimeCallEdge>, a: Aggregation, e: RuntimeCallEdge)
    requires Aggregates(site, joined, a) && e in joined
    ensures PairKey(Ends(site, e)) in a.order && PairKey(Ends(site, e)) in a.ends
  {
    hide Ends, PairKey, At, IsEnd;
    var i :| 0 <= i < |joined| && joined[i] == e;
    assert EdgeKey(site)(joined[i]) in Keys(joined, EdgeKey(site));
    assert EdgeKey(site)(e) in a.weights.Keys;
  }

  /** A key's pair has that key and is the pair of a joined edge. */
  lemma KeyEnds(site: Site, joined: seq<RuntimeCallEdge>, a: Aggregation, k: string) returns (e: RuntimeCallEdge)
    requires Aggregates(site, joined, a) && k in a.ends
    ensures e in joined && Ends(site, e) == a.ends[k] && PairKey(a.ends[k]) == k
  {
    hide Ends, PairKey, IsTally, Enumerates;
    assert IsEnd(site, joined, k, a.ends[k]);
    var j :| 0 <= j < |joined| && Ends(site, joined[j]) == a.ends[k];
    e := joined[j];
  }

  /** The aggregation loses no pair exactly when no two joined edges with different pairs share a key. */
  lemma PairsListedIff(site: Site, callEdges: seq<RuntimeCallEdge>, r: CallJoin)
    requires IsCallJoin(site, callEdges, r)
    ensures PairsListed(site, callEdges, r) <==> KeysExact(site, JoinedEdges(site, callEdges))
  {
    var a, joined := AggregationOf(site, callEdges), JoinedEdges(site, callEdges);
    AggregationOk(site, callEdges);
    assert Distinct(a.order);
    hide AggregationOf, JoinedEdges, UnjoinedEdges, Ends, PairKey, Aggregates, IsListed, KeysExact, PairsListed;
    if KeysExact(site, joined) {
      forall e | e in joined
        ensures IsListed(r, Ends(site, e))
      {
        ExactIsListed(site, joined, a, r, e);
      }
      PairsListedOf(site, callEdges, r);
    }
    if PairsListed(site, callEdges, r) {
      PairsListedOf(site, callEdges, r);
      forall e, f | e in joined && f in joined && PairKey(Ends(site, e)) == PairKey(Ends(site, f))
        ensures Ends(site, e) == Ends(site, f)
      {
        ListedOnce(site, joined, a, r, Ends(site, e), Ends(site, f));
      }
      KeysExactOf(site, joined);
    }
  }

  lemma PairsListedOf(site: Site, callEdges: seq<RuntimeCallEdge>, r: CallJoin)
    ensures PairsListed(site, callEdges, r)
      <==> forall e :: e in JoinedEdges(site, callEdges) ==> IsListed(r, Ends(site, e))
  {
  }

  lemma KeysExactOf(site: Site, edges: seq<RuntimeCallEdge>)
    ensures KeysExact(site, edges) <==>
      forall e, f :: e in edges && f in edges && PairKey(Ends(site, e)) == PairKey(Ends(site, f)) ==>
        Ends(site, e) == Ends(site, f)
  {
  }

  lemma ExactIsListed(site: Site, joined: seq<RuntimeCallEdge>, a: Aggregation, r: CallJoin, e: RuntimeCallEdge)
    requires Aggregates(site, joined, a) && KeysExact(site, joined) && e in joined
    requires (forall k :: k in a.order ==> k in a.ends && k in a.weights) && r.edges == Listed(a)
    ensures IsListed(r, Ends(site, e))
  {
    hide Ends, PairKey, Aggregates;
    KeyListed(site, joined, a, e);
    var k := PairKey(Ends(site, e));
    var f := KeyEnds(site, joined, a, k);
    var i :| 0 <= i < |a.order| && a.order[i] == k;
    assert (r.edges[i].from, r.edges[i].to) == a.ends[k];
  }

  /** Two listed pairs under one key are one pair. */
  lemma ListedOnce(site: Site, joined: seq<RuntimeCallEdge>, a: Aggregation, r: CallJoin, p: (string, string),
                   q: (string, string))
    requires Aggregates(site, joined, a) && Distinct(a.order)
    requires (forall k :: k in a.order ==> k in a.ends && k in a.weights) && r.edges == Listed(a)
    requires IsListed(r, p) && IsListed(r, q) && PairKey(p) == PairKey(q)
    ensures p == q
  {
    hide PairKey, Aggregates;
    var i :| 0 <= i < |r.edges| && (r.edges[i].from, r.edges[i].to) == p;
    var j :| 0 <= j < |r.edges| && (r.edges[j].from, r.edges[j].to) == q;
    assert a.order[i] in a.order && a.order[j] in a.order;
    var e := KeyEnds(site, joined, a, a.order[i]);
    var f := KeyEnds(site, joined, a, a.order[j]);
    assert p == a.ends[a.order[i]] && q == a.ends[a.order[j]];
  }

  /** The pair of some joined edge. */
  ghost predicate PairJoined(site: Site, callEdges: seq<RuntimeCallEdge>, pair: (string, string)) {
    exists e :: e in JoinedEdges(site, callEdges) && Ends(site, e) == pair
  }

  /** The aggregation invents no pair. */
  lemma ListedIsJoined(site: Site, callEdges: seq<RuntimeCallEdge>, r: CallJoin, pair: (string, string))
    requires IsCallJoin(site, callEdges, r) && IsListed(r, pair)
    ensures PairJoined(site, callEdges, pair)
  {
    var a := AggregationOf(site, callEdges);
    AggregationOk(site, callEdges);
    hide AggregationOf, JoinedEdges, UnjoinedEdges, Aggregates, Ends, PairKey;
    var i :| 0 <= i < |r.edges| && (r.edges[i].from, r.edges[i].to) == pair;
    assert a.order[i] in a.order;
    var e := KeyEnds(site, JoinedEdges(site, callEdges), a, a.order[i]);
  }

  /** The outcome of the join. */
  lemma CallJoinOf(site: Site, callEdges: seq<RuntimeCallEdge>) returns (r: CallJoin)
    ensures IsCallJoin(site, callEdges, r)
  {
    var a := AggregationOf(site, callEdges);
    AggregationOk(site, callEdges);
    r := CallJoin(Listed(a), |JoinedEdges(site, callEdges)|, |UnjoinedEdges(site, callEdges)|,
                  Sum(UnjoinedEdges(site, callEdges), Weight()));
    hide AggregationOf, JoinedEdges, UnjoinedEdges;
  }

  /** The output lists no pair twice. */
  lemma ListedDistinct(site: Site, callEdges: seq<RuntimeCallEdge>, r: CallJoin)
    requires IsCallJoin(site, callEdges, r)
    ensures forall i, j :: 0 <= i < j < |r.edges| ==>
      (r.edges[i].from, r.edges[i].to) != (r.edges[j].from, r.edges[j].to)
  {
    var a, joined := AggregationOf(site, callEdges), JoinedEdges(site, callEdges);
    AggregationOk(site, callEdges);
    assert Distinct(a.order);
    hide AggregationOf, JoinedEdges, UnjoinedEdges, Aggregates, PairKey;
    forall i | 0 <= i < |a.order|
      ensures PairKey(a.ends[a.order[i]]) == a.order[i]
    {
      assert a.order[i] in a.order;
      var e := KeyEnds(site, joined, a, a.order[i]);
    }
  }

  /** No output edge weighs less than nothing when no call edge does. */
  lemma ListedNonNegative(site: Site, callEdges: seq<RuntimeCallEdge>, r: CallJoin)
    requires IsCallJoin(site, callEdges, r) && forall e :: e in callEdges ==> e.samples >= 0.0
    ensures forall i :: 0 <= i < |r.edges| ==> r.edges[i].samples >= 0.0
  {
    var a, joined := AggregationOf(site, callEdges), JoinedEdges(site, callEdges);
    AggregationOk(site, callEdges);
    EdgeSplitTotals(site, callEdges);
    hide AggregationOf, JoinedEdges, UnjoinedEdges, Enumerates, IsEnd, Joined;
    forall i | 0 <= i < |joined|
      ensures joined[i].samples >= 0.0
    {
      assert joined[i] in joined;
    }
    forall i | 0 <= i < |a.order|
      ensures a.weights[a.order[i]] >= 0.0
    {
      var k := a.order[i];
      assert k in a.order && GetOrZero(a.weights, k) == At(joined, EdgeKey(site), Weight(), k);
      SumNonneg(joined, Only(EdgeKey(site), Weight(), k));
    }
  }

  /**
   * When the keys of the joined edges are exact, the output lists exactly their pairs, once each, and
   * each output edge carries exactly its inputs' samples.
   */
  lemma CallJoinExact(site: Site, callEdges: seq<RuntimeCallEdge>, r: CallJoin)
    requires IsCallJoin(site, callEdges, r) && KeysExact(site, JoinedEdges(site, callEdges))
    ensures PairsListed(site, callEdges, r)
    ensures forall i, j :: 0 <= i < j < |r.edges| ==>
      (r.edges[i].from, r.edges[i].to) != (r.edges[j].from, r.edges[j].to)
    ensures forall i :: 0 <= i < |r.edges| ==>
      r.edges[i].samples == At(JoinedEdges(site, callEdges), Pair(site), Weight(), (r.edges[i].from, r.edges[i].to))
  {
    PairsListedIff(site, callEdges, r);
    var a := AggregationOf(site, callEdges);
    AggregationOk(site, callEdges);
    hide AggregationOf, PairsListed;
    var joined := JoinedEdges(site, callEdges);
    hide JoinedEdges, UnjoinedEdges, Ends, IsTally, IsEnd, PairKey, At, Joined, KeysExact;
    assert Distinct(a.order);
    forall i | 0 <= i < |a.order|
      ensures a.weights[a.order[i]] == At(joined, Pair(site), Weight(), a.ends[a.order[i]])
      ensures PairKey(a.ends[a.order[i]]) == a.order[i]
    {
      var k := a.order[i];
      assert k in a.order;
      ExactWeight(site, joined, a, k);
    }
  }

  lemma ExactWeight(site: Site, joined: seq<RuntimeCallEdge>, a: Aggregation, k: string)
    requires Aggregates(site, joined, a) && k in a.ends && k in a.weights && KeysExact(site, joined)
    ensures a.weights[k] == At(joined, Pair(site), Weight(), a.ends[k]) && PairKey(a.ends[k]) == k
  {
    assert GetOrZero(a.weights, k) == At(joined, EdgeKey(site), Weight(), k);
    hide Ends, PairKey, IsTally, Enumerates, At;
    var f := KeyEnds(site, joined, a, k);
    hide Aggregates, IsEnd;
    forall i | 0 <= i < |joined|
      ensures EdgeKey(site)(joined[i]) == k <==> Pair(site)(joined[i]) == a.ends[k]
    {
      assert joined[i] in joined && f in joined;
    }
    hide KeysExact, EdgeKey, Pair;
    SameAt(joined, EdgeKey(site), Pair(site), k, a.ends[k], Weight());
  }

  /** Keys that pick out the same elements sum the same weight. */
  lemma SameAt<K, L, T>(s: seq<T>, f: T -> K, g: T -> L, k: K, l: L, w: T -> real)
    requires forall i :: 0 <= i < |s| ==> (f(s[i]) == k <==> g(s[i]) == l)
    ensures At(s, f, w, k) == At(s, g, w, l)
  {
    SumCong(s, Only(f, w, k), Only(g, w, l));
  }
}
