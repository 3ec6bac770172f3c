/** Samples, frames and call edges read off a CPU profile. */
module ProfileReader {
  import opened Sums
  import opened Tallies
  import opened CallTree
  import opened CallTreeLaws

  /** An executing location with the samples and self time attributed to it; `line` is one-based. */
  datatype FrameSample = FrameSample(
    functionName: string, url: string, line: int, column: int, samples: real, selfMicros: real)

  datatype FrameRef = FrameRef(functionName: string, url: string, line: int)

  datatype RuntimeCallEdge = RuntimeCallEdge(caller: FrameRef, callee: FrameRef, samples: real)

  // ---------------------------------------------------------------- what a reader of the profile promises

  /** Position `i` as a tick on a node. */
  ghost function TickAt(profile: Profile, id: int): nat -> real {
    (i: nat) => if i < |profile.samples| && profile.samples[i] == id then 1.0 else 0.0
  }

  /** The time before tick `i`: its own delta, when there is one and it is positive. */
  ghost function DeltaAt(profile: Profile): nat -> real {
    (i: nat) => if i < |profile.timeDeltas| && profile.timeDeltas[i] > 0.0 then profile.timeDeltas[i] else 0.0
  }

  /** The time before tick `i`, when that tick is on the node. */
  ghost function TimeAt(profile: Profile, id: int): nat -> real {
    (i: nat) => if i < |profile.samples| && profile.samples[i] == id then DeltaAt(profile)(i) else 0.0
  }

  /** `x` is the last positive hit count recorded for an id, or zero when there is none. */
  ghost predicate IsHitCount(nodes: seq<ProfileNode>, id: int, x: real) {
    if x > 0.0 then exists m :: 0 <= m < |nodes| && LastHit(nodes, m, id) && nodes[m].hitCount == x
    else x == 0.0 && forall m :: 0 <= m < |nodes| && nodes[m].id == id ==> nodes[m].hitCount <= 0.0
  }

  ghost predicate LastHit(nodes: seq<ProfileNode>, m: nat, id: int)
    requires m < |nodes|
  {
    && nodes[m].id == id && nodes[m].hitCount > 0.0
    && forall j :: m < j < |nodes| && nodes[j].id == id ==> nodes[j].hitCount <= 0.0
  }

  /** The samples of a node: the number of ticks on it, or its hit count when there are no ticks. */
  ghost predicate IsSampleCount(profile: Profile, id: int, x: real) {
    if profile.samples != [] then x == Sum(Range(|profile.samples|), TickAt(profile, id))
    else IsHitCount(profile.nodes, id, x)
  }

  /** The frame of a node: its call frame with a one-based line, its samples, and the time of its ticks. */
  ghost predicate IsFrameOf(profile: Profile, node: ProfileNode, f: FrameSample) {
    && f.functionName == node.callFrame.functionName && f.url == node.callFrame.url
    && f.line == node.callFrame.lineNumber + 1 && f.column == node.callFrame.columnNumber
    && IsSampleCount(profile, node.id, f.samples) && f.samples != 0.0
    && f.selfMicros == Sum(Range(|profile.samples|), TimeAt(profile, node.id))
  }

  /** The frames are those of the nodes at these positions, the ones that have samples, in node order. */
  ghost predicate FramesAt(profile: Profile, n: nat, frames: seq<FrameSample>, at: seq<nat>)
    requires n <= |profile.nodes|
  {
    && |at| == |frames| && (forall i, j :: 0 <= i < j < |at| ==> at[i] < at[j])
    && (forall k: nat :: k in at <==> k < n && !IsSampleCount(profile, profile.nodes[k].id, 0.0))
    && forall i :: 0 <= i < |at| ==> at[i] < n && IsFrameOf(profile, profile.nodes[at[i]], frames[i])
  }

  /** One frame per profile node that has samples, in node order. */
  ghost predicate FramesRecorded(profile: Profile, frames: seq<FrameSample>) {
    exists at :: FramesAt(profile, |profile.nodes|, frames, at)
  }

  /** The last node with an id, which stands for it when the id repeats. */
  ghost predicate LastWith(nodes: seq<ProfileNode>, m: nat, id: int) {
    m < |nodes| && nodes[m].id == id && forall j :: m < j < |nodes| ==> nodes[j].id != id
  }

  /** Child number `at.1` of node number `at.0` is a node of the profile. */
  ghost predicate ListsChild(nodes: seq<ProfileNode>, at: (nat, nat)) {
    && at.0 < |nodes| && at.1 < |nodes[at.0].children|
    && exists m: nat :: LastWith(nodes, m, nodes[at.0].children[at.1])
  }

  /** The edge goes from the one call frame to the other, with one-based lines. */
  ghost predicate Joins(edge: RuntimeCallEdge, caller: CallFrame, callee: CallFrame) {
    && edge.caller.functionName == caller.functionName && edge.caller.url == caller.url
    && edge.caller.line == caller.lineNumber + 1
    && edge.callee.functionName == callee.functionName && edge.callee.url == callee.url
    && edge.callee.line == callee.lineNumber + 1
  }

  /** The edge from a node to its listed child, weighing the child's total. */
  ghost predicate IsCallAt(nodes: seq<ProfileNode>, total: map<int, real>, edge: RuntimeCallEdge, at: (nat, nat)) {
    && at.0 < |nodes| && at.1 < |nodes[at.0].children|
    && exists m: nat ::
         && LastWith(nodes, m, nodes[at.0].children[at.1])
         && Joins(edge, nodes[at.0].callFrame, nodes[m].callFrame)
         && nodes[m].id in total && edge.samples == total[nodes[m].id]
  }

  ghost predicate Earlier(a: (nat, nat), b: (nat, nat)) {
    a.0 < b.0 || (a.0 == b.0 && a.1 < b.1)
  }

  /** The edges are those of the listed known children before position `end`, once each and in order. */
  ghost predicate CallsAt(nodes: seq<ProfileNode>, total: map<int, real>, end: (nat, nat),
                          edges: seq<RuntimeCallEdge>, at: seq<(nat, nat)>) {
    && |at| == |edges| && (forall i, j :: 0 <= i < j < |at| ==> Earlier(at[i], at[j]))
    && (forall p :: p in at <==> ListsChild(nodes, p) && Earlier(p, end))
    && forall i :: 0 <= i < |at| ==> IsCallAt(nodes, total, edges[i], at[i])
  }

  /** One call edge per listed known child, in the order of the nodes and of their children. */
  ghost predicate CallsRecorded(nodes: seq<ProfileNode>, total: map<int, real>, edges: seq<RuntimeCallEdge>) {
    exists at :: CallsAt(nodes, total, (|nodes|, 0), edges, at)
  }

  // ---------------------------------------------------------------- what the profile says about a node

  /** One sampling tick: the node it hit and the time before it; a missing or negative delta counts as zero. */
  datatype Tick = Tick(node: int, micros: real)

  function SafeDelta(profile: Profile, i: nat): real {
    var delta := if i < |profile.timeDeltas| then profile.timeDeltas[i] else 0.0;
    if delta > 0.0 then delta else 0.0
  }

  ghost function Ticks(profile: Profile): (ticks: seq<Tick>)
    ensures |ticks| == |profile.samples|
  {
    seq(|profile.samples|, i requires 0 <= i < |profile.samples| => Tick(profile.samples[i], SafeDelta(profile, i)))
  }

  ghost function TickNode(): Tick -> int {
    (t: Tick) => t.node
  }

  ghost function OneTick(): Tick -> real {
    (t: Tick) => 1.0
  }

  ghost function TickMicros(): Tick -> real {
    (t: Tick) => t.micros
  }

  /** The last positive hit count recorded for an id. */
  ghost function Hits(nodes: seq<ProfileNode>, id: int): real {
    if nodes == [] then 0.0 else
      var last := nodes[|nodes| - 1];
      if last.id == id && last.hitCount > 0.0 then last.hitCount else Hits(nodes[..|nodes| - 1], id)
  }

  ghost function SampleCount(profile: Profile): int -> real {
    (id: int) =>
      if profile.samples != [] then At(Ticks(profile), TickNode(), OneTick(), id) else Hits(profile.nodes, id)
  }

  ghost function MicroCount(profile: Profile): int -> real {
    (id: int) => At(Ticks(profile), TickNode(), TickMicros(), id)
  }

  method SamplesByNode(profile: Profile) returns (counts: map<int, real>)
    ensures forall id :: GetOrZero(counts, id) == SampleCount(profile)(id)
  {
    counts := map[];
    ghost var ticks := Ticks(profile);
    if |profile.samples| > 0 {
      TallyNone(TickNode(), OneTick());
      for i: nat := 0 to |profile.samples|
        invariant IsTally(ticks[..i], TickNode(), OneTick(), counts)
      {
        TallyStep(ticks, i, TickNode(), OneTick(), counts);
        counts := Plus(counts, profile.samples[i], 1.0);
      }
      assert ticks[..|ticks|] == ticks;
      return;
    }
    for i := 0 to |profile.nodes|
      invariant forall id :: GetOrZero(counts, id) == Hits(profile.nodes[..i], id)
    {
      var node := profile.nodes[i];
      assert profile.nodes[..i + 1][..i] == profile.nodes[..i];
      if node.hitCount > 0.0 {
        counts := counts[node.id := node.hitCount];
      }
    }
    assert profile.nodes[..|profile.nodes|] == profile.nodes;
  }

  // ---------------------------------------------------------------- frames

  ghost function FrameOf(node: ProfileNode, samples: real, micros: real): FrameSample {
    FrameSample(node.callFrame.functionName, node.callFrame.url, node.callFrame.lineNumber + 1,
                node.callFrame.columnNumber, samples, micros)
  }

  /** One frame per profile node that has samples, in node order. */
  ghost function Frames(nodes: seq<ProfileNode>, samples: int -> real, micros: int -> real): seq<FrameSample> {
    if nodes == [] then [] else
      var last := nodes[|nodes| - 1];
      Frames(nodes[..|nodes| - 1], samples, micros) +
      if samples(last.id) == 0.0 then [] else [FrameOf(last, samples(last.id), micros(last.id))]
  }

  lemma {:induction false} FramesCong(nodes: seq<ProfileNode>, samples: int -> real, micros: int -> real,
                                      samples': int -> real, micros': int -> real)
    requires forall id :: samples(id) == samples'(id) && micros(id) == micros'(id)
    ensures Frames(nodes, samples, micros) == Frames(nodes, samples', micros')
  {
    if nodes != [] {
      FramesCong(nodes[..|nodes| - 1], samples, micros, samples', micros');
    }
  }

  method Aggregate(profile: Profile) returns (frames: seq<FrameSample>)
    ensures frames == Frames(profile.nodes, SampleCount(profile), MicroCount(profile))
    ensures FramesRecorded(profile, frames)
  {
    var samplesByNode: map<int, real>, microsByNode: map<int, real> := map[], map[];
    ghost var ticks := Ticks(profile);
    TallyNone(TickNode(), OneTick());
    TallyNone(TickNode(), TickMicros());
    if |profile.samples| > 0 {
      for index: nat := 0 to |profile.samples|
        invariant IsTally(ticks[..index], TickNode(), OneTick(), samplesByNode)
        invariant IsTally(ticks[..index], TickNode(), TickMicros(), microsByNode)
      {
        TallyStep(ticks, index, TickNode(), OneTick(), samplesByNode);
        TallyStep(ticks, index, TickNode(), TickMicros(), microsByNode);
        samplesByNode := Plus(samplesByNode, profile.samples[index], 1.0);
        microsByNode := Plus(microsByNode, profile.samples[index], SafeDelta(profile, index));
      }
      assert ticks[..|ticks|] == ticks;
    } else {
      samplesByNode := SamplesByNode(profile);
      assert ticks == [];
    }
    FramesCong(profile.nodes, ValueOf(samplesByNode), ValueOf(microsByNode), SampleCount(profile), MicroCount(profile));
    hide *;
    frames := ListFrames(profile.nodes, samplesByNode, microsByNode);
    FramesOfProfile(profile);
  }

  lemma {:induction false} HitsMeaning(nodes: seq<ProfileNode>, id: int)
    ensures IsHitCount(nodes, id, Hits(nodes, id))
  {
    if nodes != [] {
      var init, last := nodes[..|nodes| - 1], nodes[|nodes| - 1];
      HitsMeaning(init, id);
      if last.id == id && last.hitCount > 0.0 {
        assert LastHit(nodes, |init|, id);
      } else if Hits(init, id) > 0.0 {
        var m :| 0 <= m < |init| && LastHit(init, m, id) && init[m].hitCount == Hits(init, id);
        assert LastHit(nodes, m, id);
      } else {
        forall m | 0 <= m < |nodes| && nodes[m].id == id
          ensures nodes[m].hitCount <= 0.0
        {
          assert m < |init| ==> init[m] == nodes[m];
        }
      }
    }
  }

  lemma HitCountUnique(nodes: seq<ProfileNode>, id: int, x: real, y: real)
    requires IsHitCount(nodes, id, x) && IsHitCount(nodes, id, y)
    ensures x == y
  {
    if x > 0.0 && y > 0.0 {
      var m :| 0 <= m < |nodes| && LastHit(nodes, m, id) && nodes[m].hitCount == x;
      var k :| 0 <= k < |nodes| && LastHit(nodes, k, id) && nodes[k].hitCount == y;
      assert m == k;
    }
  }

  /** The counts the loops keep are the promised ones. */
  lemma SampleCountMeaning(profile: Profile, id: int, x: real)
    ensures IsSampleCount(profile, id, x) <==> x == SampleCount(profile)(id)
  {
    if profile.samples != [] {
      var ticks, range := Ticks(profile), Range(|profile.samples|);
      SumZip(ticks, range, Only(TickNode(), OneTick(), id), TickAt(profile, id));
    } else {
      HitsMeaning(profile.nodes, id);
      if IsHitCount(profile.nodes, id, x) {
        HitCountUnique(profile.nodes, id, x, Hits(profile.nodes, id));
      }
    }
  }

  lemma MicroCountMeaning(profile: Profile, id: int)
    ensures MicroCount(profile)(id) == Sum(Range(|profile.samples|), TimeAt(profile, id))
  {
    var ticks, range := Ticks(profile), Range(|profile.samples|);
    forall i | 0 <= i < |ticks|
      ensures Only(TickNode(), TickMicros(), id)(ticks[i]) == TimeAt(profile, id)(range[i])
    {
      assert SafeDelta(profile, i) == DeltaAt(profile)(i);
    }
    SumZip(ticks, range, Only(TickNode(), TickMicros(), id), TimeAt(profile, id));
  }

  lemma FrameMeaning(profile: Profile, node: ProfileNode)
    requires SampleCount(profile)(node.id) != 0.0
    ensures IsFrameOf(profile, node, FrameOf(node, SampleCount(profile)(node.id), MicroCount(profile)(node.id)))
  {
    SampleCountMeaning(profile, node.id, SampleCount(profile)(node.id));
    MicroCountMeaning(profile, node.id);
    hide SampleCount, MicroCount, IsSampleCount, TimeAt, Sum;
  }

  lemma FramesSnoc(profile: Profile, n: nat, frames: seq<FrameSample>, at: seq<nat>, frame: FrameSample)
    requires n < |profile.nodes| && FramesAt(profile, n, frames, at)
    requires !IsSampleCount(profile, profile.nodes[n].id, 0.0) ==> IsFrameOf(profile, profile.nodes[n], frame)
    ensures if IsSampleCount(profile, profile.nodes[n].id, 0.0) then FramesAt(profile, n + 1, frames, at)
            else FramesAt(profile, n + 1, frames + [frame], at + [n])
  {
    hide IsSampleCount, IsFrameOf;
  }

  lemma FramesStep(nodes: seq<ProfileNode>, samples: int -> real, micros: int -> real, n: nat)
    requires n < |nodes|
    ensures Frames(nodes[..n + 1], samples, micros) == Frames(nodes[..n], samples, micros)
      + if samples(nodes[n].id) == 0.0 then [] else [FrameOf(nodes[n], samples(nodes[n].id), micros(nodes[n].id))]
  {
    assert nodes[..n + 1][..n] == nodes[..n];
    hide FrameOf;
  }

  lemma NoFrames(profile: Profile)
    ensures FramesAt(profile, 0, Frames(profile.nodes[..0], SampleCount(profile), MicroCount(profile)), [])
  {
    assert profile.nodes[..0] == [];
  }

  lemma {:induction false} FramesBefore(profile: Profile, n: nat) returns (at: seq<nat>)
    requires n <= |profile.nodes|
    ensures FramesAt(profile, n, Frames(profile.nodes[..n], SampleCount(profile), MicroCount(profile)), at)
  {
    hide *;
    if n == 0 {
      at := [];
      NoFrames(profile);
    } else {
      var node := profile.nodes[n - 1];
      var frames := Frames(profile.nodes[..n - 1], SampleCount(profile), MicroCount(profile));
      var frame := FrameOf(node, SampleCount(profile)(node.id), MicroCount(profile)(node.id));
      at := FramesBefore(profile, n - 1);
      FramesStep(profile.nodes, SampleCount(profile), MicroCount(profile), n - 1);
      SampleCountMeaning(profile, node.id, 0.0);
      if SampleCount(profile)(node.id) != 0.0 {
        FrameMeaning(profile, node);
        FramesSnoc(profile, n - 1, frames, at, frame);
        at := at + [n - 1];
      } else {
        FramesSnoc(profile, n - 1, frames, at, frame);
        assert frames + [] == frames;
      }
    }
  }

  /** One frame per node with samples, each with its call frame, its samples and the time of its own ticks. */
  lemma FramesOfProfile(profile: Profile)
    ensures FramesRecorded(profile, Frames(profile.nodes, SampleCount(profile), MicroCount(profile)))
  {
    var at := FramesBefore(profile, |profile.nodes|);
    hide FramesAt, Frames;
    assert profile.nodes[..|profile.nodes|] == profile.nodes;
  }

  lemma {:induction false} FramesMicros(nodes: seq<ProfileNode>, samples: int -> real, micros: int -> real)
    requires forall id :: samples(id) == 0.0 ==> micros(id) == 0.0
    ensures Sum(Frames(nodes, samples, micros), Micros()) == Sum(Ids(nodes), micros)
  {
    if nodes != [] {
      var init, last := nodes[..|nodes| - 1], nodes[|nodes| - 1];
      FramesMicros(init, samples, micros);
      SumSnoc(Frames(init, samples, micros), FrameOf(last, samples(last.id), micros(last.id)), Micros());
      assert Ids(nodes) == Ids(init) + [last.id];
      SumSnoc(Ids(init), last.id, micros);
      assert Frames(init, samples, micros) + [] == Frames(init, samples, micros);
    }
  }

  /** A node without samples has no time. */
  lemma NoSamplesNoTime(profile: Profile, id: int)
    requires SampleCount(profile)(id) == 0.0
    ensures MicroCount(profile)(id) == 0.0
  {
    var ticks := Ticks(profile);
    forall i | 0 <= i < |ticks|
      ensures ticks[i].node != id
    {
      SumTerm(ticks, i, Only(TickNode(), OneTick(), id));
    }
    SumZero(ticks, Only(TickNode(), TickMicros(), id));
  }

  /** The time of the ticks on known nodes. */
  ghost function KnownTime(ids: seq<int>): Tick -> real {
    (t: Tick) => if t.node in ids then t.micros else 0.0
  }

  /**
   * With distinct ids the frames carry at most the positive deltas of the ticks, and exactly those when
   * every tick is on a node of the profile.
   */
  lemma FramesTime(profile: Profile)
    requires DistinctNodes(profile.nodes)
    ensures var time, whole := Sum(Frames(profile.nodes, SampleCount(profile), MicroCount(profile)), Micros()),
                               Sum(Range(|profile.samples|), DeltaAt(profile));
      && 0.0 <= time <= whole
      && ((forall t :: t in profile.samples ==> t in Ids(profile.nodes)) ==> time == whole)
  {
    var ids, ticks := Ids(profile.nodes), Ticks(profile);
    forall id | SampleCount(profile)(id) == 0.0
      ensures MicroCount(profile)(id) == 0.0
    {
      NoSamplesNoTime(profile, id);
    }
    FramesMicros(profile.nodes, SampleCount(profile), MicroCount(profile));
    forall i | 0 <= i < |ids|
      ensures MicroCount(profile)(ids[i]) == At(ticks, TickNode(), KnownTime(ids), ids[i])
    {
      AtCong(ticks, TickNode(), TickMicros(), KnownTime(ids), ids[i]);
    }
    TicksHaveTime(profile);
    hide SampleCount, MicroCount, Frames, Ticks, DeltaAt;
    SumByKey(ids, ticks, TickNode(), KnownTime(ids), MicroCount(profile));
    SumNonneg(ticks, KnownTime(ids));
    SumLe(ticks, KnownTime(ids), TickMicros());
    if forall t :: t in profile.samples ==> t in ids {
      forall i | 0 <= i < |ticks|
        ensures ticks[i].node in ids
      {
        assert ticks[i].node == profile.samples[i];
      }
      SumCong(ticks, KnownTime(ids), TickMicros());
    }
  }

  lemma TicksHaveTime(profile: Profile)
    ensures forall i :: 0 <= i < |Ticks(profile)| ==>
      Ticks(profile)[i].micros >= 0.0 && Ticks(profile)[i].node == profile.samples[i]
    ensures Sum(Ticks(profile), TickMicros()) == Sum(Range(|profile.samples|), DeltaAt(profile))
  {
    SumZip(Ticks(profile), Range(|profile.samples|), TickMicros(), DeltaAt(profile));
  }

  /** One frame per node that has samples. */
  method ListFrames(nodes: seq<ProfileNode>, samplesByNode: map<int, real>, microsByNode: map<int, real>)
      returns (frames: seq<FrameSample>)
    ensures frames == Frames(nodes, ValueOf(samplesByNode), ValueOf(microsByNode))
  {
    frames := [];
    ghost var samples, micros := ValueOf(samplesByNode), ValueOf(microsByNode);
    for i := 0 to |nodes|
      invariant frames == Frames(nodes[..i], samples, micros)
    {
      var node := nodes[i];
      assert nodes[..i + 1][..i] == nodes[..i];
      var sampleCount := GetOrZero(samplesByNode, node.id);
      if sampleCount == 0.0 {
        continue;
      }
      frames := frames + [FrameSample(node.callFrame.functionName, node.callFrame.url, node.callFrame.lineNumber + 1,
                                      node.callFrame.columnNumber, sampleCount, GetOrZero(microsByNode, node.id))];
    }
    assert nodes[..|nodes|] == nodes;
  }

  ghost function HitCount(): ProfileNode -> real {
    (n: ProfileNode) => n.hitCount
  }

  /** The number of ticks, or the sum of the hit counts when there are no ticks. */
  method TotalSamples(profile: Profile) returns (total: real)
    ensures total == TotalOf(profile)
  {
    if |profile.samples| > 0 {
      return |profile.samples| as real;
    }
    total := 0.0;
    for i := 0 to |profile.nodes|
      invariant total == Sum(profile.nodes[..i], HitCount())
    {
      SumPrefix(profile.nodes, i, HitCount());
      total := total + profile.nodes[i].hitCount;
    }
    assert profile.nodes[..|profile.nodes|] == profile.nodes;
  }

  ghost function TotalOf(profile: Profile): real {
    if profile.samples != [] then |profile.samples| as real else Sum(profile.nodes, HitCount())
  }

  ghost function Samples(): FrameSample -> real {
    (f: FrameSample) => f.samples
  }

  ghost function Micros(): FrameSample -> real {
    (f: FrameSample) => f.selfMicros
  }

  lemma {:induction false} FramesSum(nodes: seq<ProfileNode>, samples: int -> real, micros: int -> real)
    ensures Sum(Frames(nodes, samples, micros), Samples()) == Sum(Ids(nodes), samples)
  {
    if nodes != [] {
      var init, last := nodes[..|nodes| - 1], nodes[|nodes| - 1];
      FramesSum(init, samples, micros);
      SumSnoc(Frames(init, samples, micros), FrameOf(last, samples(last.id), micros(last.id)), Samples());
      assert Ids(nodes) == Ids(init) + [last.id];
      SumSnoc(Ids(init), last.id, samples);
      assert Frames(init, samples, micros) + [] == Frames(init, samples, micros);
    }
  }

  ghost predicate NonNegativeHits(nodes: seq<ProfileNode>) {
    forall i :: 0 <= i < |nodes| ==> nodes[i].hitCount >= 0.0
  }

  ghost function PositiveHits(): ProfileNode -> real {
    (n: ProfileNode) => if n.hitCount > 0.0 then n.hitCount else 0.0
  }

  ghost function NegativeHits(): ProfileNode -> real {
    (n: ProfileNode) => if n.hitCount < 0.0 then -n.hitCount else 0.0
  }

  /** What the total loses to negative hit counts, which the frames ignore. Ticks leave no such gap. */
  ghost function HitGap(profile: Profile): real {
    if profile.samples != [] then 0.0 else Sum(profile.nodes, NegativeHits())
  }

  lemma HitGapNonNegative(profile: Profile)
    ensures HitGap(profile) >= 0.0
    ensures NonNegativeHits(profile.nodes) ==> HitGap(profile) == 0.0
  {
    SumNonneg(profile.nodes, NegativeHits());
    if NonNegativeHits(profile.nodes) {
      SumZero(profile.nodes, NegativeHits());
    }
  }

  lemma {:induction false} HitsSum(nodes: seq<ProfileNode>)
    requires DistinctNodes(nodes)
    ensures forall k :: 0 <= k < |nodes| ==> Hits(nodes, nodes[k].id) == PositiveHits()(nodes[k])
  {
    if nodes != [] {
      var init, last := nodes[..|nodes| - 1], nodes[|nodes| - 1];
      assert forall i :: 0 <= i < |init| ==> Ids(init)[i] == Ids(nodes)[i];
      HitsSum(init);
      HitsAbsent(init, last.id) by {
        forall k | 0 <= k < |init|
          ensures init[k].id != last.id
        {
          assert Ids(nodes)[k] != Ids(nodes)[|nodes| - 1];
        }
      }
      forall k | 0 <= k < |init|
        ensures Hits(nodes, nodes[k].id) == PositiveHits()(nodes[k])
      {
        assert Ids(nodes)[k] != Ids(nodes)[|nodes| - 1];
        assert init[k] == nodes[k];
      }
    }
  }

  lemma {:induction false} HitsAbsent(nodes: seq<ProfileNode>, id: int)
    requires forall k :: 0 <= k < |nodes| ==> nodes[k].id != id
    ensures Hits(nodes, id) == 0.0
  {
    if nodes != [] {
      HitsAbsent(nodes[..|nodes| - 1], id);
    }
  }

  /**
   * The frames of a profile carry no more samples than its total, up to the negative hit counts in the
   * total: exactly the ticks on its nodes, or all positive hits when there are no ticks.
   */
  lemma FramesWithinTotal(profile: Profile)
    requires DistinctNodes(profile.nodes)
    ensures var frames := Frames(profile.nodes, SampleCount(profile), MicroCount(profile));
      && 0.0 <= Sum(frames, Samples()) <= TotalOf(profile) + HitGap(profile)
      && (profile.samples == [] || (forall t :: t in profile.samples ==> t in Ids(profile.nodes))
          ==> Sum(frames, Samples()) == TotalOf(profile) + HitGap(profile))
  {
    FramesSum(profile.nodes, SampleCount(profile), MicroCount(profile));
    if profile.samples == [] {
      HitsSum(profile.nodes);
      SumZip(Ids(profile.nodes), profile.nodes, SampleCount(profile), PositiveHits());
      SumNonneg(profile.nodes, PositiveHits());
      SumAdd(profile.nodes, HitCount(), NegativeHits(), PositiveHits());
    } else {
      TicksOnNodes(profile);
    }
  }

  ghost function KnownTick(ids: seq<int>): Tick -> real {
    (t: Tick) => if t.node in ids then 1.0 else 0.0
  }

  lemma TicksOnNodes(profile: Profile)
    requires DistinctNodes(profile.nodes) && profile.samples != []
    ensures 0.0 <= Sum(Ids(profile.nodes), SampleCount(profile)) <= |profile.samples| as real
    ensures (forall t :: t in profile.samples ==> t in Ids(profile.nodes))
      ==> Sum(Ids(profile.nodes), SampleCount(profile)) == |profile.samples| as real
  {
    var ids, ticks := Ids(profile.nodes), Ticks(profile);
    forall i | 0 <= i < |ids|
      ensures SampleCount(profile)(ids[i]) == At(ticks, TickNode(), KnownTick(ids), ids[i])
    {
      AtCong(ticks, TickNode(), OneTick(), KnownTick(ids), ids[i]);
    }
    SumByKey(ids, ticks, TickNode(), KnownTick(ids), SampleCount(profile));
    SumNonneg(ticks, KnownTick(ids));
    SumLe(ticks, KnownTick(ids), OneTick());
    SumOnes(ticks);
    if forall t :: t in profile.samples ==> t in ids {
      forall i | 0 <= i < |ticks|
        ensures KnownTick(ids)(ticks[i]) == 1.0
      {
        assert ticks[i].node == profile.samples[i];
      }
      SumCong(ticks, KnownTick(ids), OneTick());
    }
  }

  lemma {:induction false} SumOnes(ticks: seq<Tick>)
    ensures Sum(ticks, OneTick()) == |ticks| as real
  {
    if ticks != [] {
      SumOnes(ticks[..|ticks| - 1]);
    }
  }

  // ---------------------------------------------------------------- call edges

  function RefOf(frame: CallFrame): FrameRef {
    FrameRef(frame.functionName, frame.url, frame.lineNumber + 1)
  }

  function EdgeTo(byId: NodeMap, total: map<int, real>, parent: ProfileNode, child: int): RuntimeCallEdge
    requires child in byId
  {
    RuntimeCallEdge(RefOf(parent.callFrame), RefOf(byId[child].callFrame), GetOrZero(total, child))
  }

  /** One edge per known child of a node. */
  ghost function NodeEdges(byId: NodeMap, total: map<int, real>, parent: ProfileNode,
                           children: seq<int>): seq<RuntimeCallEdge> {
    if children == [] then [] else
      NodeEdges(byId, total, parent, children[..|children| - 1]) +
      if children[|children| - 1] in byId then [EdgeTo(byId, total, parent, children[|children| - 1])] else []
  }

  ghost function EdgeList(byId: NodeMap, total: map<int, real>, nodes: seq<ProfileNode>): seq<RuntimeCallEdge> {
    if nodes == [] then [] else
      EdgeList(byId, total, nodes[..|nodes| - 1])
        + NodeEdges(byId, total, nodes[|nodes| - 1], nodes[|nodes| - 1].children)
  }

  /** The subtree totals of a profile, on any input. */
  ghost function SubtreeMap(profile: Profile): map<int, real> {
    RunAll(ById(profile.nodes), SampleCount(profile), profile.nodes)
  }

  ghost function CallEdgeList(profile: Profile): seq<RuntimeCallEdge> {
    EdgeList(ById(profile.nodes), SubtreeMap(profile), profile.nodes)
  }

  ghost function Weight(): RuntimeCallEdge -> real {
    (e: RuntimeCallEdge) => e.samples
  }

  /** On a forest the subtree totals are the right ones. */
  lemma ForestTotals(profile: Profile)
    requires Forest(ById(profile.nodes))
    ensures SubtreeTable(ById(profile.nodes), SampleCount(profile), SubtreeMap(profile))
  {
    var byId := ById(profile.nodes);
    RunAllTotals(byId, SampleCount(profile), profile.nodes);
    AllNodesTotalled(profile.nodes, SampleCount(profile));
    hide Forest, RunAll, Totalled, ById, SampleCount;
  }

  /** There a subtree total is the samples of the node and of all nodes below it. */
  lemma TotalsOfDescendants(profile: Profile, id: int)
    requires DistinctNodes(profile.nodes) && Forest(ById(profile.nodes)) && id in SubtreeMap(profile)
    ensures SubtreeMap(profile)[id]
      == Sum(Ids(profile.nodes), SelfBelow(ById(profile.nodes), SampleCount(profile), id))
  {
    ForestTotals(profile);
    hide *;
    TotalOfDescendants(profile.nodes, SampleCount(profile), SubtreeMap(profile), id);
  }

  /** The edges from one node to its known children. */
  method EdgesFrom(byId: NodeMap, totals: map<int, real>, node: ProfileNode) returns (edges: seq<RuntimeCallEdge>)
    ensures edges == NodeEdges(byId, totals, node, node.children)
  {
    edges := [];
    for k := 0 to |node.children|
      invariant edges == NodeEdges(byId, totals, node, node.children[..k])
    {
      var childId := node.children[k];
      assert node.children[..k + 1][..k] == node.children[..k];
      if childId !in byId {
        continue;
      }
      edges := edges + [EdgeTo(byId, totals, node, childId)];
    }
    assert node.children[..|node.children|] == node.children;
  }

  /**
   * One call edge per listed known child, weighted by the child's subtree total; on a forest the totals
   * are those of `SubtreeTable`.
   */
  method CallEdges(profile: Profile) returns (edges: seq<RuntimeCallEdge>)
    ensures edges == CallEdgeList(profile)
    ensures CallsRecorded(profile.nodes, SubtreeMap(profile), edges)
    ensures Forest(ById(profile.nodes)) ==> SubtreeTable(ById(profile.nodes), SampleCount(profile), SubtreeMap(profile))
  {
    var self := SamplesByNode(profile);
    var subtree := SubtreeSamples(profile.nodes, self);
    var byId := ById(profile.nodes);
    TotalsOf(profile, self);
    hide *;
    if Forest(byId) {
      ForestTotals(profile);
    }
    EdgeListNone(byId, subtree);
    edges := [];
    assert profile.nodes[..0] == [];
    for n := 0 to |profile.nodes|
      invariant edges == EdgeList(byId, subtree, profile.nodes[..n])
    {
      EdgeListSnoc(byId, subtree, profile.nodes, n);
      var own := EdgesFrom(byId, subtree, profile.nodes[n]);
      edges := edges + own;
    }
    assert profile.nodes[..|profile.nodes|] == profile.nodes;
    CallEdgeListOf(profile);
    CallsOfProfile(profile);
  }

  lemma {:induction false} ByIdLast(nodes: seq<ProfileNode>, id: int)
    ensures id in ById(nodes) <==> exists m: nat :: LastWith(nodes, m, id)
    ensures forall m: nat :: LastWith(nodes, m, id) ==> ById(nodes)[id] == nodes[m]
  {
    if nodes != [] {
      var init, last := nodes[..|nodes| - 1], nodes[|nodes| - 1];
      ByIdLast(init, id);
      if last.id == id {
        assert LastWith(nodes, |init|, id);
      } else {
        forall m: nat
          ensures LastWith(nodes, m, id) <==> LastWith(init, m, id)
        {
        }
      }
    }
  }

  lemma CallsNone(nodes: seq<ProfileNode>, total: map<int, real>)
    ensures CallsAt(nodes, total, (0, 0), [], [])
  {
  }

  /** Past one more listed child, whose edge is there when the child is known. */
  lemma CallsStep(nodes: seq<ProfileNode>, total: map<int, real>, n: nat, k: nat,
                  edges: seq<RuntimeCallEdge>, at: seq<(nat, nat)>, edge: RuntimeCallEdge)
    requires n < |nodes| && k < |nodes[n].children| && CallsAt(nodes, total, (n, k), edges, at)
    requires ListsChild(nodes, (n, k)) ==> IsCallAt(nodes, total, edge, (n, k))
    ensures if ListsChild(nodes, (n, k)) then CallsAt(nodes, total, (n, k + 1), edges + [edge], at + [(n, k)])
            else CallsAt(nodes, total, (n, k + 1), edges, at)
  {
    hide ListsChild, IsCallAt;
    assert forall p :: Earlier(p, (n, k + 1)) <==> Earlier(p, (n, k)) || p == (n, k);
    forall i | 0 <= i < |at|
      ensures Earlier(at[i], (n, k))
    {
      assert at[i] in at;
    }
  }

  lemma CallsRow(nodes: seq<ProfileNode>, total: map<int, real>, n: nat,
                 edges: seq<RuntimeCallEdge>, at: seq<(nat, nat)>)
    requires n < |nodes| && CallsAt(nodes, total, (n, |nodes[n].children|), edges, at)
    ensures CallsAt(nodes, total, (n + 1, 0), edges, at)
  {
    hide IsCallAt, LastWith;
    assert forall p :: ListsChild(nodes, p) ==> (Earlier(p, (n + 1, 0)) <==> Earlier(p, (n, |nodes[n].children|)));
    hide ListsChild;
  }

  /** The edges of the first `n` nodes and of the first `k` children of the next one. */
  ghost function EdgesUpTo(byId: NodeMap, total: map<int, real>, nodes: seq<ProfileNode>, n: nat,
                           k: nat): seq<RuntimeCallEdge>
    requires n <= |nodes| && if n < |nodes| then k <= |nodes[n].children| else k == 0
  {
    EdgeList(byId, total, nodes[..n]) + if k == 0 then [] else NodeEdges(byId, total, nodes[n], nodes[n].children[..k])
  }

  lemma EdgesUpToStep(byId: NodeMap, total: map<int, real>, nodes: seq<ProfileNode>, n: nat, k: nat)
    requires n < |nodes| && k < |nodes[n].children|
    ensures var child := nodes[n].children[k];
      EdgesUpTo(byId, total, nodes, n, k + 1) == EdgesUpTo(byId, total, nodes, n, k)
        + if child in byId then [EdgeTo(byId, total, nodes[n], child)] else []
  {
    var children := nodes[n].children;
    assert children[..k + 1][..k] == children[..k] && children[..k + 1][k] == children[k];
    hide EdgeTo, EdgeList;
    assert k == 0 ==> children[..0] == [] && NodeEdges(byId, total, nodes[n], children[..0]) == [];
    var more := if children[k] in byId then [EdgeTo(byId, total, nodes[n], children[k])] else [];
    assert NodeEdges(byId, total, nodes[n], children[..k + 1])
      == NodeEdges(byId, total, nodes[n], children[..k]) + more;
  }

  lemma EdgesUpToRow(byId: NodeMap, total: map<int, real>, nodes: seq<ProfileNode>, n: nat)
    requires n < |nodes|
    ensures EdgesUpTo(byId, total, nodes, n + 1, 0) == EdgesUpTo(byId, total, nodes, n, |nodes[n].children|)
  {
    EdgeListSnoc(byId, total, nodes, n);
    assert nodes[n].children[..|nodes[n].children|] == nodes[n].children;
    hide EdgeTo, EdgeList;
  }

  lemma EdgeToIsCall(nodes: seq<ProfileNode>, total: map<int, real>, n: nat, k: nat)
    requires n < |nodes| && k < |nodes[n].children| && total.Keys == ById(nodes).Keys
    ensures nodes[n].children[k] in ById(nodes) <==> ListsChild(nodes, (n, k))
    ensures nodes[n].children[k] in ById(nodes) ==>
      IsCallAt(nodes, total, EdgeTo(ById(nodes), total, nodes[n], nodes[n].children[k]), (n, k))
  {
    var child := nodes[n].children[k];
    ByIdLast(nodes, child);
    hide ById;
    if child in ById(nodes) {
      var m: nat :| LastWith(nodes, m, child);
      assert child in total.Keys;
      assert Joins(EdgeTo(ById(nodes), total, nodes[n], child), nodes[n].callFrame, nodes[m].callFrame);
    }
  }

  lemma {:induction false} CallsUpTo(nodes: seq<ProfileNode>, total: map<int, real>, n: nat, k: nat)
      returns (at: seq<(nat, nat)>)
    requires n <= |nodes| && (if n < |nodes| then k <= |nodes[n].children| else k == 0)
    requires total.Keys == ById(nodes).Keys
    ensures CallsAt(nodes, total, (n, k), EdgesUpTo(ById(nodes), total, nodes, n, k), at)
    decreases n, k
  {
    var byId := ById(nodes);
    if k > 0 {
      at := CallsUpTo(nodes, total, n, k - 1);
      hide *;
      EdgesUpToStep(byId, total, nodes, n, k - 1);
      EdgeToIsCall(nodes, total, n, k - 1);
      var edges, child := EdgesUpTo(byId, total, nodes, n, k - 1), nodes[n].children[k - 1];
      if child in byId {
        CallsStep(nodes, total, n, k - 1, edges, at, EdgeTo(byId, total, nodes[n], child));
        at := at + [(n, k - 1)];
      } else {
        CallsStep(nodes, total, n, k - 1, edges, at, RuntimeCallEdge(FrameRef("", "", 0), FrameRef("", "", 0), 0.0));
        assert edges + [] == edges;
      }
    } else if n > 0 {
      at := CallsUpTo(nodes, total, n - 1, |nodes[n - 1].children|);
      hide *;
      EdgesUpToRow(byId, total, nodes, n - 1);
      CallsRow(nodes, total, n - 1, EdgesUpTo(byId, total, nodes, n - 1, |nodes[n - 1].children|), at);
    } else {
      at := [];
      CallsNone(nodes, total);
      assert nodes[..0] == [];
      EdgeListNone(byId, total);
      assert EdgesUpTo(byId, total, nodes, 0, 0) == [];
    }
  }

  /**
   * One call edge per listed known child, from the node that lists it to the last node with the child's
   * id, weighing that child's subtree total.
   */
  lemma CallsOfProfile(profile: Profile)
    ensures CallsRecorded(profile.nodes, SubtreeMap(profile), CallEdgeList(profile))
  {
    var nodes, total := profile.nodes, SubtreeMap(profile);
    AllNodesTotalled(nodes, SampleCount(profile));
    var at := CallsUpTo(nodes, total, |nodes|, 0);
    hide CallsAt, EdgeList, RunAll, ById;
    assert nodes[..|nodes|] == nodes;
    assert EdgesUpTo(ById(nodes), total, nodes, |nodes|, 0) == CallEdgeList(profile);
  }

  lemma TotalsOf(profile: Profile, self: map<int, real>)
    requires forall id :: GetOrZero(self, id) == SampleCount(profile)(id)
    ensures RunAll(ById(profile.nodes), ValueOf(self), profile.nodes) == SubtreeMap(profile)
  {
    hide RunAll, ById, SampleCount;
    RunAllCong(ById(profile.nodes), ValueOf(self), SampleCount(profile), profile.nodes);
  }

  lemma EdgeListNone(byId: NodeMap, total: map<int, real>)
    ensures EdgeList(byId, total, []) == []
  {
  }

  lemma EdgeListSnoc(byId: NodeMap, total: map<int, real>, nodes: seq<ProfileNode>, n: nat)
    requires n < |nodes|
    ensures EdgeList(byId, total, nodes[..n + 1])
      == EdgeList(byId, total, nodes[..n]) + NodeEdges(byId, total, nodes[n], nodes[n].children)
  {
    assert nodes[..n + 1][..n] == nodes[..n];
  }

  lemma CallEdgeListOf(profile: Profile)
    ensures CallEdgeList(profile) == EdgeList(ById(profile.nodes), SubtreeMap(profile), profile.nodes)
    ensures SubtreeMap(profile) == RunAll(ById(profile.nodes), SampleCount(profile), profile.nodes)
  {
  }

  lemma {:induction false} NodeEdgesSum(byId: NodeMap, total: map<int, real>, parent: ProfileNode, children: seq<int>)
    ensures Sum(NodeEdges(byId, total, parent, children), Weight())
      == Sum(KnownChildren(byId, children), ValueOf(total))
  {
    if children != [] {
      var init, last := children[..|children| - 1], children[|children| - 1];
      NodeEdgesSum(byId, total, parent, init);
      if last in byId {
        SumSnoc(NodeEdges(byId, total, parent, init), EdgeTo(byId, total, parent, last), Weight());
        SumSnoc(KnownChildren(byId, init), last, ValueOf(total));
      } else {
        assert NodeEdges(byId, total, parent, children) == NodeEdges(byId, total, parent, init);
        assert KnownChildren(byId, children) == KnownChildren(byId, init);
      }
    }
  }

  /** A node's subtree total is its own samples plus the weights of its outgoing call edges. */
  lemma NodeBalance(byId: NodeMap, count: int -> real, total: map<int, real>, id: int)
    requires SubtreeTable(byId, count, total) && id in byId
    ensures total[id] == count(id) + Sum(NodeEdges(byId, total, byId[id], byId[id].children), Weight())
  {
    NodeEdgesSum(byId, total, byId[id], byId[id].children);
    assert Totalled(byId, count, total, id);
  }

  /** With distinct ids, the weights of the reported edges add up to the child totals over the tree. */
  lemma {:induction false} EdgeListSum(byId: NodeMap, total: map<int, real>, nodes: seq<ProfileNode>)
    requires forall i :: 0 <= i < |nodes| ==> nodes[i].id in byId && byId[nodes[i].id] == nodes[i]
    ensures Sum(EdgeList(byId, total, nodes), Weight()) == Sum(Arcs(byId, Ids(nodes)), ChildTotal(total))
  {
    if nodes != [] {
      var init, last := nodes[..|nodes| - 1], nodes[|nodes| - 1];
      ListsStep(byId, total, nodes);
      EdgeListSum(byId, total, init);
      assert last.id in byId && byId[last.id] == last;
      hide *;
      ArcsOfNode(byId, total, last);
      SumConcat(EdgeList(byId, total, init), NodeEdges(byId, total, last, last.children), Weight());
      SumConcat(Arcs(byId, Ids(init)), ArcsOf(last.id, Children(byId, last.id)), ChildTotal(total));
    }
  }

  lemma ListsStep(byId: NodeMap, total: map<int, real>, nodes: seq<ProfileNode>)
    requires nodes != []
    ensures var init, last := nodes[..|nodes| - 1], nodes[|nodes| - 1];
      && EdgeList(byId, total, nodes) == EdgeList(byId, total, init) + NodeEdges(byId, total, last, last.children)
      && Arcs(byId, Ids(nodes)) == Arcs(byId, Ids(init)) + ArcsOf(last.id, Children(byId, last.id))
  {
    assert Ids(nodes)[..|nodes| - 1] == Ids(nodes[..|nodes| - 1]);
    hide NodeEdges, ArcsOf, Children;
  }

  /** The edges from one node weigh what its arcs' children total. */
  lemma ArcsOfNode(byId: NodeMap, total: map<int, real>, node: ProfileNode)
    requires node.id in byId && byId[node.id] == node
    ensures Sum(NodeEdges(byId, total, node, node.children), Weight())
      == Sum(ArcsOf(node.id, Children(byId, node.id)), ChildTotal(total))
  {
    var children := Children(byId, node.id);
    NodeEdgesSum(byId, total, node, node.children);
    SumZip(ArcsOf(node.id, children), children, ChildTotal(total), ValueOf(total));
  }

  lemma {:induction false} DistinctById(nodes: seq<ProfileNode>)
    requires DistinctNodes(nodes)
    ensures forall i :: 0 <= i < |nodes| ==> nodes[i].id in ById(nodes) && ById(nodes)[nodes[i].id] == nodes[i]
  {
    if nodes != [] {
      var init := nodes[..|nodes| - 1];
      assert forall i :: 0 <= i < |init| ==> Ids(init)[i] == Ids(nodes)[i];
      DistinctById(init);
      forall i | 0 <= i < |init|
        ensures nodes[i].id != nodes[|nodes| - 1].id && init[i] == nodes[i]
      {
        assert Ids(nodes)[i] != Ids(nodes)[|nodes| - 1];
      }
    }
  }

  /**
   * On a forest with distinct ids the weights of all call edges add up to the samples of each node
   * counted once per caller above it.
   */
  lemma CallEdgeTotals(profile: Profile, depth: int -> real)
    requires DistinctNodes(profile.nodes) && Forest(ById(profile.nodes)) && IsDepth(ById(profile.nodes), depth)
    ensures Sum(CallEdgeList(profile), Weight()) == Sum(Ids(profile.nodes), Times(depth, SampleCount(profile)))
  {
    ForestTotals(profile);
    DistinctById(profile.nodes);
    EdgeListSum(ById(profile.nodes), SubtreeMap(profile), profile.nodes);
    EdgeTotals(profile.nodes, SampleCount(profile), SubtreeMap(profile), depth);
  }

  /** In particular, counted once per caller above it, the number of which is the depth. */
  lemma CallEdgeTotalsByCallers(profile: Profile)
    requires DistinctNodes(profile.nodes) && Forest(ById(profile.nodes))
    ensures Sum(CallEdgeList(profile), Weight())
      == Sum(Ids(profile.nodes), Times(Depth(ById(profile.nodes)), SampleCount(profile)))
  {
    ForestDepth(ById(profile.nodes));
    hide *;
    CallEdgeTotals(profile, Depth(ById(profile.nodes)));
  }
}
