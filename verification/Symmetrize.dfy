/** Turning a weighted directed graph into an undirected one for community detection. */
module Symmetrize {
  import opened Sums
  import opened Tallies
  import opened Numerals

  datatype WeightedEdge = WeightedEdge(from: string, to: string, weight: real)

  ghost function EdgeWeight(): WeightedEdge -> real {
    (e: WeightedEdge) => e.weight
  }

  ghost predicate Touches(edges: seq<WeightedEdge>, id: string) {
    exists i :: 0 <= i < |edges| && (edges[i].from == id || edges[i].to == id)
  }

  /** `ids` and `indexOf` are inverse to each other. */
  ghost predicate IsNumbering(ids: seq<string>, indexOf: map<string, nat>) {
    && (forall i :: 0 <= i < |ids| ==> ids[i] in indexOf && indexOf[ids[i]] == i)
    && (forall id :: id in indexOf ==> indexOf[id] < |ids| && ids[indexOf[id]] == id)
  }

  /** Numbers an id that is met for the first time. */
  method Meet(ids: seq<string>, indexOf: map<string, nat>, id: string)
      returns (ids': seq<string>, indexOf': map<string, nat>)
    requires IsNumbering(ids, indexOf)
    ensures IsNumbering(ids', indexOf') && indexOf'.Keys == indexOf.Keys + {id}
  {
    ids', indexOf' := ids, indexOf;
    if id !in indexOf {
      indexOf' := indexOf[id := |ids|];
      ids' := ids + [id];
    }
  }

  /** The ids touched by an edge are numbered 0..n-1, one number each. */
  method IndexNodes(edges: seq<WeightedEdge>) returns (ids: seq<string>, indexOf: map<string, nat>)
    ensures IsNumbering(ids, indexOf)
    ensures forall id :: id in indexOf <==> Touches(edges, id)
  {
    ids, indexOf := [], map[];
    for i := 0 to |edges|
      invariant IsNumbering(ids, indexOf)
      invariant forall id :: id in indexOf <==> exists k :: 0 <= k < i && (edges[k].from == id || edges[k].to == id)
    {
      hide IsNumbering;
      ids, indexOf := Meet(ids, indexOf, edges[i].from);
      ids, indexOf := Meet(ids, indexOf, edges[i].to);
    }
  }

  // ---------------------------------------------------------------- pairs and keys

  /** The edge joins two different numbered nodes. */
  predicate Kept(indexOf: map<string, nat>, e: WeightedEdge) {
    e.from in indexOf && e.to in indexOf && indexOf[e.from] != indexOf[e.to]
  }

  ghost function KeptEdges(indexOf: map<string, nat>, edges: seq<WeightedEdge>): seq<WeightedEdge> {
    if edges == [] then [] else
      KeptEdges(indexOf, edges[..|edges| - 1]) + if Kept(indexOf, edges[|edges| - 1]) then [edges[|edges| - 1]] else []
  }

  /** The edge's two indices, the smaller one first. */
  function PairOf(indexOf: map<string, nat>, e: WeightedEdge): (nat, nat) {
    if e.from in indexOf && e.to in indexOf then
      var a, b := indexOf[e.from], indexOf[e.to];
      if a < b then (a, b) else (b, a)
    else (0, 0)
  }

  function PairText(pair: (nat, nat)): string {
    Decimal(pair.0) + ":" + Decimal(pair.1)
  }

  /** Position of the first colon, or the length when there is none. */
  function Colon(s: string): (i: nat)
    ensures i <= |s| && (i < |s| ==> s[i] == ':') && forall k :: 0 <= k < i ==> s[k] != ':'
  {
    if s == [] || s[0] == ':' then 0 else Colon(s[1..]) + 1
  }

  function ParsePair(key: string): (nat, nat) {
    var separator := Colon(key);
    (Number(key[..separator]), if separator < |key| then Number(key[separator + 1..]) else 0)
  }

  /** Reading a key back gives the pair it was made from. */
  lemma ParsePairText(pair: (nat, nat))
    ensures ParsePair(PairText(pair)) == pair
  {
    var low, high := Decimal(pair.0), Decimal(pair.1);
    var key := PairText(pair);
    assert key[|low|] == ':';
    assert forall k :: 0 <= k < |low| ==> key[k] == low[k] && IsDigit(low[k]);
    var i := Colon(key);
    assert i == |low|;
    assert key[..i] == low && key[i + 1..] == high;
    NumberDecimal(pair.0);
    NumberDecimal(pair.1);
  }

  ghost function EdgeText(indexOf: map<string, nat>): WeightedEdge -> string {
    (e: WeightedEdge) => PairText(PairOf(indexOf, e))
  }

  // ---------------------------------------------------------------- what the result means

  /** The weight of an edge between `a` and `b`, in either direction. */
  ghost function Joining(a: string, b: string): WeightedEdge -> real {
    (e: WeightedEdge) => if (e.from == a && e.to == b) || (e.from == b && e.to == a) then e.weight else 0.0
  }

  ghost function Between(edges: seq<WeightedEdge>, a: string, b: string): real {
    Sum(edges, Joining(a, b))
  }

  datatype Undirected = Undirected(source: nat, target: nat, weight: real)

  ghost function UndirectedWeight(): Undirected -> real {
    (u: Undirected) => u.weight
  }

  /** `result` has exactly one edge per pair of different joined nodes, carrying both directions' weight. */
  ghost predicate IsUndirected(edges: seq<WeightedEdge>, ids: seq<string>, indexOf: map<string, nat>,
                               result: seq<Undirected>) {
    && (forall k :: 0 <= k < |result| ==> result[k].source < result[k].target < |ids|)
    && (forall j, k :: 0 <= j < k < |result| ==>
          (result[j].source, result[j].target) != (result[k].source, result[k].target))
    && (forall k :: 0 <= k < |result| ==>
          result[k].weight == Between(edges, ids[result[k].source], ids[result[k].target]))
    && (forall e :: e in edges && Kept(indexOf, e) ==>
          exists k :: 0 <= k < |result| && (result[k].source, result[k].target) == PairOf(indexOf, e))
    && (forall k :: 0 <= k < |result| ==> IsJoined(edges, indexOf, (result[k].source, result[k].target)))
  }

  /** Some input edge joins the pair's nodes. */
  ghost predicate IsJoined(edges: seq<WeightedEdge>, indexOf: map<string, nat>, pair: (nat, nat)) {
    exists e :: e in edges && Kept(indexOf, e) && PairOf(indexOf, e) == pair
  }

  // ---------------------------------------------------------------- the loop

  lemma {:induction false} KeptSum(indexOf: map<string, nat>, edges: seq<WeightedEdge>, f: WeightedEdge -> real,
                                   g: WeightedEdge -> real)
    requires forall i :: 0 <= i < |edges| ==> g(edges[i]) == if Kept(indexOf, edges[i]) then f(edges[i]) else 0.0
    ensures Sum(KeptEdges(indexOf, edges), f) == Sum(edges, g)
    ensures forall e :: e in KeptEdges(indexOf, edges) <==> e in edges && Kept(indexOf, e)
  {
    if edges != [] {
      var init, last := edges[..|edges| - 1], edges[|edges| - 1];
      KeptSum(indexOf, init, f, g);
      SumSnoc(KeptEdges(indexOf, init), last, f);
      assert edges == init + [last];
      assert KeptEdges(indexOf, init) + [] == KeptEdges(indexOf, init);
      hide Kept;
    }
  }

  /** An edge is summed under a pair's key exactly when it joins the pair's nodes. */
  lemma KeyMatches(ids: seq<string>, indexOf: map<string, nat>, e: WeightedEdge, pair: (nat, nat))
    requires IsNumbering(ids, indexOf) && pair.0 < pair.1 < |ids|
    ensures Kept(indexOf, e) && PairText(PairOf(indexOf, e)) == PairText(pair)
      <==> (e.from == ids[pair.0] && e.to == ids[pair.1]) || (e.from == ids[pair.1] && e.to == ids[pair.0])
  {
    ParsePairText(pair);
    ParsePairText(PairOf(indexOf, e));
    hide PairText, ParsePair;
  }

  /** The tally under a pair's key is the weight between the pair's nodes. */
  lemma KeyWeight(edges: seq<WeightedEdge>, ids: seq<string>, indexOf: map<string, nat>, pair: (nat, nat))
    requires IsNumbering(ids, indexOf) && pair.0 < pair.1 < |ids|
    ensures At(KeptEdges(indexOf, edges), EdgeText(indexOf), EdgeWeight(), PairText(pair))
      == Between(edges, ids[pair.0], ids[pair.1])
  {
    var atKey := Only(EdgeText(indexOf), EdgeWeight(), PairText(pair));
    hide IsNumbering, PairText, PairOf;
    forall i | 0 <= i < |edges|
      ensures Joining(ids[pair.0], ids[pair.1])(edges[i]) == if Kept(indexOf, edges[i]) then atKey(edges[i]) else 0.0
    {
      KeyMatches(ids, indexOf, edges[i], pair);
      hide Kept;
    }
    KeptSum(indexOf, edges, atKey, Joining(ids[pair.0], ids[pair.1]));
  }

  /** The merged weights, with the keys in order of first use. */
  ghost predicate Merged(indexOf: map<string, nat>, edges: seq<WeightedEdge>, order: seq<string>,
                         merged: map<string, real>) {
    && IsTally(KeptEdges(indexOf, edges), EdgeText(indexOf), EdgeWeight(), merged)
    && Enumerates(order, merged.Keys)
  }

  lemma MergedSnoc(indexOf: map<string, nat>, edges: seq<WeightedEdge>, order: seq<string>, merged: map<string, real>,
                   e: WeightedEdge)
    requires Merged(indexOf, edges, order, merged)
    ensures var key := PairText(PairOf(indexOf, e));
      if Kept(indexOf, e)
      then Merged(indexOf, edges + [e], if key in merged then order else order + [key], Plus(merged, key, e.weight))
      else Merged(indexOf, edges + [e], order, merged)
  {
    assert (edges + [e])[..|edges|] == edges;
    if Kept(indexOf, e) {
      var key := PairText(PairOf(indexOf, e));
      hide IsTally, Enumerates, PairText, PairOf, Kept;
      TallySnoc(KeptEdges(indexOf, edges), e, EdgeText(indexOf), EdgeWeight(), merged);
      EnumeratesUpdate(order, merged, key, GetOrZero(merged, key) + e.weight);
      assert EdgeText(indexOf)(e) == key && EdgeWeight()(e) == e.weight;
    } else {
      assert KeptEdges(indexOf, edges + [e]) == KeptEdges(indexOf, edges);
    }
  }

  /** A merged key is the text of some kept edge's pair. */
  lemma MergedKey(indexOf: map<string, nat>, ids: seq<string>, edges: seq<WeightedEdge>, order: seq<string>,
                  merged: map<string, real>, key: string)
    requires IsNumbering(ids, indexOf) && Merged(indexOf, edges, order, merged) && key in order
    ensures var pair := ParsePair(key);
      pair.0 < pair.1 < |ids| && PairText(pair) == key && IsJoined(edges, indexOf, pair)
  {
    KeptSum(indexOf, edges, EdgeWeight(), e => if Kept(indexOf, e) then e.weight else 0.0);
    var kept := KeptEdges(indexOf, edges);
    assert key in Keys(kept, EdgeText(indexOf));
    var i :| 0 <= i < |kept| && EdgeText(indexOf)(kept[i]) == key;
    assert kept[i] in kept;
    ParsePairText(PairOf(indexOf, kept[i]));
    hide PairText, ParsePair;
    assert IsJoined(edges, indexOf, PairOf(indexOf, kept[i]));
  }

  ghost function ParsedEdge(merged: map<string, real>, key: string): Undirected {
    Undirected(ParsePair(key).0, ParsePair(key).1, GetOrZero(merged, key))
  }

  /** The parsed keys are the undirected edges. */
  lemma ParsedIsUndirected(edges: seq<WeightedEdge>, ids: seq<string>, indexOf: map<string, nat>,
                           order: seq<string>, merged: map<string, real>, result: seq<Undirected>)
    requires IsNumbering(ids, indexOf) && Merged(indexOf, edges, order, merged)
    requires |result| == |order| && forall k :: 0 <= k < |order| ==> result[k] == ParsedEdge(merged, order[k])
    ensures IsUndirected(edges, ids, indexOf, result)
  {
    hide PairText, ParsePair, IsNumbering, PairOf, IsJoined;
    forall k | 0 <= k < |result|
      ensures result[k].source < result[k].target < |ids| && PairText((result[k].source, result[k].target)) == order[k]
      ensures result[k].weight == Between(edges, ids[result[k].source], ids[result[k].target])
      ensures IsJoined(edges, indexOf, (result[k].source, result[k].target))
    {
      assert order[k] in order;
      MergedKey(indexOf, ids, edges, order, merged, order[k]);
      var pair := ParsePair(order[k]);
      KeyWeight(edges, ids, indexOf, pair);
      assert GetOrZero(merged, order[k]) == At(KeptEdges(indexOf, edges), EdgeText(indexOf), EdgeWeight(), order[k]);
    }
    forall e | e in edges && Kept(indexOf, e)
      ensures exists k :: 0 <= k < |result| && (result[k].source, result[k].target) == PairOf(indexOf, e)
    {
      KeyIsListed(edges, indexOf, order, merged, e);
      var k :| 0 <= k < |order| && order[k] == PairText(PairOf(indexOf, e));
      ParsePairText(PairOf(indexOf, e));
      assert (result[k].source, result[k].target) == PairOf(indexOf, e);
    }
    hide Between, Merged;
    assert Distinct(order) by {
      OrderDistinct(indexOf, edges, order, merged);
    }
  }

  lemma OrderDistinct(indexOf: map<string, nat>, edges: seq<WeightedEdge>, order: seq<string>,
                      merged: map<string, real>)
    requires Merged(indexOf, edges, order, merged)
    ensures Distinct(order)
  {
  }

  lemma KeyIsListed(edges: seq<WeightedEdge>, indexOf: map<string, nat>, order: seq<string>, merged: map<string, real>,
                    e: WeightedEdge)
    requires Merged(indexOf, edges, order, merged) && e in edges && Kept(indexOf, e)
    ensures PairText(PairOf(indexOf, e)) in order
  {
    KeptSum(indexOf, edges, EdgeWeight(), e => if Kept(indexOf, e) then e.weight else 0.0);
    var kept := KeptEdges(indexOf, edges);
    hide PairText, PairOf, Kept;
    var i :| 0 <= i < |kept| && kept[i] == e;
    assert EdgeText(indexOf)(kept[i]) in Keys(kept, EdgeText(indexOf));
  }

  method SymmetrizeEdges(edges: seq<WeightedEdge>, indexOf: map<string, nat>, ghost ids: seq<string>)
      returns (sources: seq<nat>, targets: seq<nat>, weights: seq<real>)
    requires IsNumbering(ids, indexOf)
    ensures |sources| == |targets| == |weights|
    ensures IsUndirected(edges, ids, indexOf,
      seq(|sources|, k requires 0 <= k < |sources| => Undirected(sources[k], targets[k], weights[k])))
  {
    hide IsNumbering, Merged, PairText, ParsePair, IsUndirected;
    var order: seq<string>, merged: map<string, real> := [], map[];
    assert Merged(indexOf, [], [], map[]) by {
      NothingMerged(indexOf);
    }
    assert edges[..0] == [];
    for i: nat := 0 to |edges|
      invariant Merged(indexOf, edges[..i], order, merged)
    {
      var edge := edges[i];
      assert edges[..i + 1] == edges[..i] + [edge];
      MergedSnoc(indexOf, edges[..i], order, merged, edge);
      if edge.from !in indexOf || edge.to !in indexOf || indexOf[edge.from] == indexOf[edge.to] {
        continue;
      }
      var a, b := indexOf[edge.from], indexOf[edge.to];
      var low := if a < b then a else b;
      var high := if a < b then b else a;
      var key := PairText((low, high));
      if key !in merged {
        order := order + [key];
      }
      merged := Plus(merged, key, edge.weight);
    }
    assert edges[..|edges|] == edges;
    sources, targets, weights := [], [], [];
    for k := 0 to |order|
      invariant |sources| == |targets| == |weights| == k
      invariant forall j :: 0 <= j < k ==>
        Undirected(sources[j], targets[j], weights[j]) == ParsedEdge(merged, order[j])
    {
      var pair := ParsePair(order[k]);
      sources := sources + [pair.0];
      targets := targets + [pair.1];
      weights := weights + [GetOrZero(merged, order[k])];
    }
    ParsedIsUndirected(edges, ids, indexOf, order, merged,
                       seq(|sources|, k requires 0 <= k < |sources| => Undirected(sources[k], targets[k], weights[k])));
  }

  lemma NothingMerged(indexOf: map<string, nat>)
    ensures Merged(indexOf, [], [], map[])
  {
    TallyNone(EdgeText(indexOf), EdgeWeight());
  }

  // ---------------------------------------------------------------- conservation and invariance

  ghost function LoopWeight(): WeightedEdge -> real {
    (e: WeightedEdge) => if e.from == e.to then e.weight else 0.0
  }

  ghost function CrossWeight(): WeightedEdge -> real {
    (e: WeightedEdge) => if e.from == e.to then 0.0 else e.weight
  }

  /** The undirected edge joins these two nodes. */
  ghost predicate Links(ids: seq<string>, u: Undirected, a: string, b: string) {
    && u.source < |ids| && u.target < |ids|
    && ((ids[u.source] == a && ids[u.target] == b) || (ids[u.source] == b && ids[u.target] == a))
  }

  /** The weight of an input edge, at the undirected edge that carries it. */
  ghost function Carried(ids: seq<string>): (Undirected, WeightedEdge) -> real {
    (u: Undirected, e: WeightedEdge) => if Links(ids, u, e.from, e.to) then e.weight else 0.0
  }

  lemma CarriedWeight(edges: seq<WeightedEdge>, ids: seq<string>, indexOf: map<string, nat>, result: seq<Undirected>,
                      k: nat)
    requires IsUndirected(edges, ids, indexOf, result) && k < |result|
    ensures result[k].weight == Sum(edges, Row(Carried(ids), result[k]))
  {
    SumCong(edges, Joining(ids[result[k].source], ids[result[k].target]), Row(Carried(ids), result[k]));
  }

  /** When every end is numbered, the total weight of the result is the input's without its self-loops. */
  lemma WeightConserved(edges: seq<WeightedEdge>, ids: seq<string>, indexOf: map<string, nat>, result: seq<Undirected>)
    requires IsNumbering(ids, indexOf) && IsUndirected(edges, ids, indexOf, result)
    requires forall e :: e in edges ==> e.from in indexOf && e.to in indexOf
    ensures Sum(result, UndirectedWeight()) == Sum(edges, EdgeWeight()) - Sum(edges, LoopWeight())
  {
    forall k | 0 <= k < |result|
      ensures UndirectedWeight()(result[k]) == Sum(edges, Row(Carried(ids), result[k]))
    {
      CarriedWeight(edges, ids, indexOf, result, k);
    }
    forall i | 0 <= i < |edges|
      ensures CrossWeight()(edges[i]) == Sum(result, Column(Carried(ids), edges[i]))
    {
      assert edges[i] in edges;
      CarriedOnce(edges, ids, indexOf, result, edges[i]);
    }
    hide IsUndirected, IsNumbering, Carried;
    DoubleCount(result, edges, Carried(ids), UndirectedWeight(), CrossWeight());
    SumAdd(edges, CrossWeight(), LoopWeight(), EdgeWeight());
  }

  /** Every edge that is no loop is carried by exactly one undirected edge. */
  lemma CarriedOnce(edges: seq<WeightedEdge>, ids: seq<string>, indexOf: map<string, nat>, result: seq<Undirected>,
                    e: WeightedEdge)
    requires IsNumbering(ids, indexOf) && IsUndirected(edges, ids, indexOf, result)
    requires e in edges && e.from in indexOf && e.to in indexOf
    ensures Sum(result, Column(Carried(ids), e)) == CrossWeight()(e)
  {
    if e.from == e.to {
      forall k | 0 <= k < |result|
        ensures Column(Carried(ids), e)(result[k]) == 0.0
      {
        assert ids[result[k].source] != ids[result[k].target];
      }
      SumZero(result, Column(Carried(ids), e));
    } else {
      assert Kept(indexOf, e);
      var k :| 0 <= k < |result| && (result[k].source, result[k].target) == PairOf(indexOf, e);
      assert Column(Carried(ids), e)(result[k]) == e.weight;
      forall j | 0 <= j < |result| && result[j] != result[k]
        ensures Column(Carried(ids), e)(result[j]) == 0.0
      {
        assert (result[j].source, result[j].target) != (result[k].source, result[k].target);
      }
      assert Distinct(result);
      SumPick(result, result[k], Column(Carried(ids), e));
    }
  }

  /** Reversing some edges. */
  ghost predicate UpToDirection(edges: seq<WeightedEdge>, turned: seq<WeightedEdge>) {
    && |edges| == |turned|
    && forall i :: 0 <= i < |edges| ==>
      turned[i] == edges[i] || turned[i] == WeightedEdge(edges[i].to, edges[i].from, edges[i].weight)
  }

  /** The weight between two nodes does not depend on the order or the direction of the edges. */
  lemma BetweenInvariant(edges: seq<WeightedEdge>, turned: seq<WeightedEdge>, shuffled: seq<WeightedEdge>, a: string,
                         b: string)
    requires UpToDirection(edges, turned) && multiset(turned) == multiset(shuffled)
    ensures Between(edges, a, b) == Between(shuffled, a, b) == Between(shuffled, b, a)
  {
    SumZip(edges, turned, Joining(a, b), Joining(a, b));
    SumPermutation(turned, shuffled, Joining(a, b));
    SumCong(shuffled, Joining(a, b), Joining(b, a));
  }

  /** The weighted pairs of nodes that a result stands for, whatever the numbering. */
  ghost function WeightedPairs(ids: seq<string>, result: seq<Undirected>): (pairs: set<(set<string>, real)>)
    requires forall k :: 0 <= k < |result| ==> result[k].source < |ids| && result[k].target < |ids|
    ensures forall p :: p in pairs <==> exists k :: 0 <= k < |result| && p == PairOfLink(ids, result[k])
  {
    set k | 0 <= k < |result| :: PairOfLink(ids, result[k])
  }

  ghost function PairOfLink(ids: seq<string>, u: Undirected): (set<string>, real)
    requires u.source < |ids| && u.target < |ids|
  {
    ({ids[u.source], ids[u.target]}, u.weight)
  }

  ghost function Turned(e: WeightedEdge): WeightedEdge {
    WeightedEdge(e.to, e.from, e.weight)
  }

  /** Every edge of the one is in the other, in its own or in the opposite direction. */
  ghost predicate Covers(edges: seq<WeightedEdge>, other: seq<WeightedEdge>) {
    forall e :: e in edges ==> e in other || Turned(e) in other
  }

  lemma PairsCarryOver(edges: seq<WeightedEdge>, ids: seq<string>, indexOf: map<string, nat>, result: seq<Undirected>,
                       edges': seq<WeightedEdge>, ids': seq<string>, indexOf': map<string, nat>,
                       result': seq<Undirected>, k: nat)
    requires Covers(edges, edges') && forall a, b :: Between(edges, a, b) == Between(edges', a, b)
    requires IsNumbering(ids, indexOf) && IsUndirected(edges, ids, indexOf, result) && k < |result|
    requires IsNumbering(ids', indexOf') && IsUndirected(edges', ids', indexOf', result')
    requires forall f :: f in edges' ==> f.from in indexOf' && f.to in indexOf'
    ensures PairOfLink(ids, result[k]) in WeightedPairs(ids', result')
  {
    hide Between;
    var u := result[k];
    assert IsJoined(edges, indexOf, (u.source, u.target));
    var e :| e in edges && Kept(indexOf, e) && PairOf(indexOf, e) == (u.source, u.target);
    var e' := if e in edges' then e else Turned(e);
    var j := LinkOf(edges', ids', indexOf', result', e');
    LinkPair(edges', ids', result'[j], e'.from, e'.to);
    EdgePair(ids, indexOf, e);
    LinkPair(edges, ids, u, e.from, e.to);
    BetweenSwap(edges', e.from, e.to);
    hide IsUndirected, IsNumbering, Covers, Links;
    assert {e'.from, e'.to} == {e.from, e.to};
    hide PairOfLink;
    assert PairOfLink(ids', result'[j]) == PairOfLink(ids, u);
  }

  lemma LinkPair(edges: seq<WeightedEdge>, ids: seq<string>, u: Undirected, a: string, b: string)
    requires Links(ids, u, a, b)
    requires u.weight == Between(edges, a, b) || u.weight == Between(edges, ids[u.source], ids[u.target])
    ensures PairOfLink(ids, u) == ({a, b}, Between(edges, a, b))
  {
    BetweenSwap(edges, a, b);
    hide Between;
    assert {ids[u.source], ids[u.target]} == {a, b};
  }

  /** A kept edge joins the nodes of its pair. */
  lemma EdgePair(ids: seq<string>, indexOf: map<string, nat>, e: WeightedEdge)
    requires IsNumbering(ids, indexOf) && Kept(indexOf, e)
    ensures forall u: Undirected :: (u.source, u.target) == PairOf(indexOf, e) ==> Links(ids, u, e.from, e.to)
  {
  }

  lemma BetweenSwap(edges: seq<WeightedEdge>, a: string, b: string)
    ensures Between(edges, a, b) == Between(edges, b, a)
  {
    SumCong(edges, Joining(a, b), Joining(b, a));
  }

  lemma CoversBothWays(edges: seq<WeightedEdge>, turned: seq<WeightedEdge>, shuffled: seq<WeightedEdge>)
    requires UpToDirection(edges, turned) && multiset(turned) == multiset(shuffled)
    ensures Covers(edges, shuffled) && Covers(shuffled, edges)
  {
    forall e | e in edges
      ensures e in shuffled || Turned(e) in shuffled
    {
      var i :| 0 <= i < |edges| && edges[i] == e;
      assert turned[i] in multiset(shuffled);
    }
    forall e | e in shuffled
      ensures e in edges || Turned(e) in edges
    {
      assert e in multiset(turned);
      var i :| 0 <= i < |turned| && turned[i] == e;
      assert edges[i] in edges;
    }
  }

  /**
   * Reversing and reordering the input leaves the weighted pairs unchanged: whatever numbering the two
   * runs used, they have exactly the same pairs of nodes with the same weights.
   */
  lemma ResultInvariant(edges: seq<WeightedEdge>, turned: seq<WeightedEdge>, shuffled: seq<WeightedEdge>,
                        ids: seq<string>, indexOf: map<string, nat>, result: seq<Undirected>,
                        ids': seq<string>, indexOf': map<string, nat>, result': seq<Undirected>)
    requires UpToDirection(edges, turned) && multiset(turned) == multiset(shuffled)
    requires IsNumbering(ids, indexOf) && IsUndirected(edges, ids, indexOf, result)
    requires IsNumbering(ids', indexOf') && IsUndirected(shuffled, ids', indexOf', result')
    requires forall f :: f in edges ==> f.from in indexOf && f.to in indexOf
    requires forall f :: f in shuffled ==> f.from in indexOf' && f.to in indexOf'
    ensures WeightedPairs(ids, result) == WeightedPairs(ids', result') && |result| == |result'|
  {
    CoversBothWays(edges, turned, shuffled);
    forall a, b { BetweenInvariant(edges, turned, shuffled, a, b); }
    forall k: nat | k < |result| {
      PairsCarryOver(edges, ids, indexOf, result, shuffled, ids', indexOf', result', k);
    }
    forall k: nat | k < |result'| {
      PairsCarryOver(shuffled, ids', indexOf', result', edges, ids, indexOf, result, k);
    }
    PairsCounted(edges, ids, indexOf, result);
    PairsCounted(shuffled, ids', indexOf', result');
    hide IsUndirected, IsNumbering, Covers, Between, PairOfLink;
  }

  /** The pairs are counted by the edges: no two undirected edges stand for one pair of nodes. */
  lemma PairsCounted(edges: seq<WeightedEdge>, ids: seq<string>, indexOf: map<string, nat>, result: seq<Undirected>)
    requires IsNumbering(ids, indexOf) && IsUndirected(edges, ids, indexOf, result)
    ensures |WeightedPairs(ids, result)| == |result|
  {
    forall j, k | 0 <= j < k < |result|
      ensures PairOfLink(ids, result[j]) != PairOfLink(ids, result[k])
    {
      NodesDiffer(ids, indexOf, result[j], result[k]);
    }
    hide PairOfLink;
    DistinctPairs(ids, result);
  }

  lemma {:induction false} DistinctPairs(ids: seq<string>, result: seq<Undirected>)
    requires forall k :: 0 <= k < |result| ==> result[k].source < |ids| && result[k].target < |ids|
    requires forall j, k :: 0 <= j < k < |result| ==> PairOfLink(ids, result[j]) != PairOfLink(ids, result[k])
    ensures |WeightedPairs(ids, result)| == |result|
  {
    hide PairOfLink;
    if result != [] {
      var init, last := result[..|result| - 1], result[|result| - 1];
      DistinctPairs(ids, init);
      forall p
        ensures p in WeightedPairs(ids, result) <==> p in WeightedPairs(ids, init) + {PairOfLink(ids, last)}
      {
        if p in WeightedPairs(ids, init) {
          var k :| 0 <= k < |init| && p == PairOfLink(ids, init[k]);
          assert result[k] == init[k];
        }
        if p in WeightedPairs(ids, result) && p != PairOfLink(ids, last) {
          var k :| 0 <= k < |result| && p == PairOfLink(ids, result[k]);
          assert init[k] == result[k];
        }
      }
      assert WeightedPairs(ids, result) == WeightedPairs(ids, init) + {PairOfLink(ids, last)};
    }
  }

  /** Different numbered pairs are different pairs of nodes. */
  lemma NodesDiffer(ids: seq<string>, indexOf: map<string, nat>, u: Undirected, v: Undirected)
    requires IsNumbering(ids, indexOf) && u.source < u.target < |ids| && v.source < v.target < |ids|
    requires (u.source, u.target) != (v.source, v.target)
    ensures PairOfLink(ids, u) != PairOfLink(ids, v)
  {
    assert ids[u.source] in PairOfLink(ids, u).0 && ids[u.target] in PairOfLink(ids, u).0;
  }

  lemma LinkOf(edges: seq<WeightedEdge>, ids: seq<string>, indexOf: map<string, nat>, result: seq<Undirected>,
               e: WeightedEdge) returns (k: nat)
    requires IsNumbering(ids, indexOf) && IsUndirected(edges, ids, indexOf, result)
    requires e in edges && e.from in indexOf && e.to in indexOf && e.from != e.to
    ensures k < |result| && Links(ids, result[k], e.from, e.to) && result[k].weight == Between(edges, e.from, e.to)
  {
    assert Kept(indexOf, e);
    k :| 0 <= k < |result| && (result[k].source, result[k].target) == PairOf(indexOf, e);
    if ids[result[k].source] != e.from {
      SumCong(edges, Joining(e.to, e.from), Joining(e.from, e.to));
    }
  }
}
