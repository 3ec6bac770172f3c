/** Blast radius: how many nodes transitively call a node; and the fan-in of each node. */
module BlastRadius {
  import opened Sums
  import opened Tallies
  import opened Graphs
  import opened Records
  import opened CostQuery

  // ---------------------------------------------------------------- blast radius

  /** `caller` calls `callee` directly. */
  ghost predicate IsCaller(edges: seq<CallEdge>, callee: string, caller: string) {
    exists i :: 0 <= i < |edges| && edges[i].toId == callee && edges[i].fromId == caller
  }

  ghost function CallerStep(edges: seq<CallEdge>): (string, string) -> bool {
    (callee: string, caller: string) => IsCaller(edges, callee, caller)
  }

  ghost function CallerIds(edges: seq<CallEdge>): set<string> {
    set i | 0 <= i < |edges| :: edges[i].fromId
  }

  /** The distinct other nodes with a call path to `id`. */
  ghost function Ancestors(edges: seq<CallEdge>, id: string): set<string> {
    set a | a in CallerIds(edges) && a != id && Reach(CallerStep(edges), id, a)
  }

  /** The direct callers of a node, one per call edge, in edge order. */
  ghost function CallersOf(edges: seq<CallEdge>, id: string): (callers: seq<string>)
    ensures forall a :: a in callers <==> IsCaller(edges, id, a)
  {
    if edges == [] then [] else
      var init, last := edges[..|edges| - 1], edges[|edges| - 1];
      assert forall i :: 0 <= i < |init| ==> edges[i] == init[i];
      CallersOf(init, id) + if last.toId == id then [last.fromId] else []
  }

  function Bucket(callers: map<string, seq<string>>, id: string): seq<string> {
    if id in callers then callers[id] else []
  }

  ghost predicate IsAdjacency(edges: seq<CallEdge>, callers: map<string, seq<string>>) {
    forall id :: Bucket(callers, id) == CallersOf(edges, id)
  }

  /** Every visited or pending node is an ancestor by at least one call, and nothing between them is skipped. */
  ghost predicate Exploring(edges: seq<CallEdge>, start: string, visited: set<string>, stack: seq<string>) {
    && visited <= CallerIds(edges)
    && (forall a :: a in visited || a in stack ==> Reach(CallerStep(edges), start, a))
    && (forall a :: a in stack ==> a in CallerIds(edges))
    && (forall a :: IsCaller(edges, start, a) ==> a in visited || a in stack)
    && (forall v, a :: v in visited && IsCaller(edges, v, a) ==> a in visited || a in stack)
  }

  lemma ExploringStart(edges: seq<CallEdge>, start: string)
    ensures Exploring(edges, start, {}, CallersOf(edges, start))
  {
    forall a | a in CallersOf(edges, start)
      ensures Reach(CallerStep(edges), start, a) && a in CallerIds(edges)
    {
      ReachStep(CallerStep(edges), start, a);
    }
    hide Reach;
  }

  /** A popped node that was seen before is skipped. */
  lemma ExploringSkip(edges: seq<CallEdge>, start: string, visited: set<string>, stack: seq<string>)
    requires Exploring(edges, start, visited, stack) && stack != [] && stack[|stack| - 1] in visited
    ensures Exploring(edges, start, visited, stack[..|stack| - 1])
  {
    hide Reach;
    assert stack == stack[..|stack| - 1] + [stack[|stack| - 1]];
  }

  /** A new node is visited and its unseen callers become pending. */
  lemma ExploringVisit(edges: seq<CallEdge>, start: string, visited: set<string>, stack: seq<string>,
                       pushed: seq<string>)
    requires Exploring(edges, start, visited, stack) && stack != []
    requires var id := stack[|stack| - 1];
      && (forall a :: a in pushed ==> IsCaller(edges, id, a))
      && (forall a :: IsCaller(edges, id, a) ==> a in pushed || a in visited + {id})
    ensures Exploring(edges, start, visited + {stack[|stack| - 1]}, stack[..|stack| - 1] + pushed)
  {
    var id := stack[|stack| - 1];
    assert stack == stack[..|stack| - 1] + [id];
    forall a | a in pushed
      ensures Reach(CallerStep(edges), start, a) && a in CallerIds(edges)
    {
      ReachStep(CallerStep(edges), id, a);
      ReachTrans(CallerStep(edges), start, id, a);
    }
    hide Reach;
  }

  /** When nothing is pending, the visited nodes other than the start are exactly its ancestors. */
  lemma Explored(edges: seq<CallEdge>, start: string, visited: set<string>)
    requires Exploring(edges, start, visited, [])
    ensures visited - {start} == Ancestors(edges, start)
  {
    var inside := (a: string) => a == start || a in visited;
    forall a | a in Ancestors(edges, start)
      ensures a in visited
    {
      ReachClosed(CallerStep(edges), inside, start, a);
    }
    hide Reach;
  }

  method ReachableCount(start: string, callers: map<string, seq<string>>, ghost edges: seq<CallEdge>)
      returns (count: nat)
    requires IsAdjacency(edges, callers)
    ensures count == |Ancestors(edges, start)|
  {
    hide Exploring, Ancestors, IsCaller;
    var visited: set<string> := {};
    var stack := Bucket(callers, start);
    ExploringStart(edges, start);
    while |stack| > 0
      invariant Exploring(edges, start, visited, stack) && visited <= CallerIds(edges)
      decreases |CallerIds(edges) - visited|, |stack|
    {
      ghost var before := stack;
      var id := stack[|stack| - 1];
      stack := stack[..|stack| - 1];
      if id in visited {
        ExploringSkip(edges, start, visited, before);
        continue;
      }
      ghost var seen := visited;
      visited := visited + {id};
      var pushed := Unseen(Bucket(callers, id), visited);
      stack := stack + pushed;
      ExploringVisit(edges, start, seen, before, pushed);
      Progresses(edges, start, seen, before);
    }
    Explored(edges, start, visited);
    count := |visited - {start}|;
  }

  lemma Progresses(edges: seq<CallEdge>, start: string, visited: set<string>, stack: seq<string>)
    requires Exploring(edges, start, visited, stack) && stack != [] && stack[|stack| - 1] !in visited
    ensures var now := visited + {stack[|stack| - 1]};
      now <= CallerIds(edges) && |CallerIds(edges) - now| < |CallerIds(edges) - visited|
  {
    hide Reach;
    var id := stack[|stack| - 1];
    assert CallerIds(edges) - visited == (CallerIds(edges) - (visited + {id})) + {id};
  }

  /** The callers not visited yet, in order. */
  method Unseen(bucket: seq<string>, visited: set<string>) returns (pushed: seq<string>)
    ensures forall a :: a in pushed <==> a in bucket && a !in visited
  {
    pushed := [];
    for i := 0 to |bucket|
      invariant forall a :: a in pushed <==> a in bucket[..i] && a !in visited
    {
      if bucket[i] !in visited {
        pushed := pushed + [bucket[i]];
      }
    }
    assert bucket[..|bucket|] == bucket;
  }

  method CallersByCallee(edges: seq<CallEdge>) returns (callers: map<string, seq<string>>)
    ensures IsAdjacency(edges, callers)
  {
    callers := map[];
    for i := 0 to |edges|
      invariant IsAdjacency(edges[..i], callers)
    {
      var edge := edges[i];
      assert edges[..i + 1][..i] == edges[..i];
      if edge.toId !in callers {
        callers := callers[edge.toId := [edge.fromId]];
      } else {
        callers := callers[edge.toId := callers[edge.toId] + [edge.fromId]];
      }
    }
    assert edges[..|edges|] == edges;
  }

  /** The blast radius of every node: exactly the number of its distinct ancestors, on any call graph. */
  method BlastRadiusSizes(nodes: seq<StoredNode>, edges: seq<CallEdge>) returns (sizes: map<string, nat>)
    ensures forall id :: id in sizes <==> exists i :: 0 <= i < |nodes| && nodes[i].id == id
    ensures forall id :: id in sizes ==> sizes[id] == |Ancestors(edges, id)|
  {
    hide IsAdjacency, Ancestors;
    var callers := CallersByCallee(edges);
    sizes := map[];
    for i := 0 to |nodes|
      invariant forall id :: id in sizes <==> exists k :: 0 <= k < i && nodes[k].id == id
      invariant forall id :: id in sizes ==> sizes[id] == |Ancestors(edges, id)|
    {
      var count := ReachableCount(nodes[i].id, callers, edges);
      sizes := sizes[nodes[i].id := count];
    }
  }

  /** Nodes that reach each other have the same ancestors up to each other, so the same blast radius. */
  lemma MutualCallersShareRadius(edges: seq<CallEdge>, a: string, b: string)
    requires Reach(CallerStep(edges), a, b) && Reach(CallerStep(edges), b, a)
    ensures |Ancestors(edges, a)| == |Ancestors(edges, b)|
  {
    if a != b {
      IsAncestor(edges, a, b);
      IsAncestor(edges, b, a);
      AncestorsVia(edges, a, b);
      AncestorsVia(edges, b, a);
      hide Reach;
      assert a !in Ancestors(edges, a) && b !in Ancestors(edges, b);
      assert Ancestors(edges, a) + {a} == Ancestors(edges, b) + {b};
    }
  }

  lemma IsAncestor(edges: seq<CallEdge>, id: string, a: string)
    requires id != a && Reach(CallerStep(edges), id, a)
    ensures a in Ancestors(edges, id)
  {
    var w := ReachLast(CallerStep(edges), id, a);
    hide Reach;
  }

  /** Whatever reaches `b` reaches `a`, when `b` reaches `a`. */
  lemma AncestorsVia(edges: seq<CallEdge>, a: string, b: string)
    requires Reach(CallerStep(edges), a, b)
    ensures Ancestors(edges, b) <= Ancestors(edges, a) + {a}
  {
    forall c | c in Ancestors(edges, b) && c != a
      ensures c in Ancestors(edges, a)
    {
      ReachTrans(CallerStep(edges), a, b, c);
    }
    hide Reach;
  }

  // ---------------------------------------------------------------- fan-in

  ghost function ToId(): CallEdge -> string {
    (e: CallEdge) => e.toId
  }

  /** An edge's weight when it calls the node. */
  ghost function Into(id: string, weight: CallEdge -> real): CallEdge -> real {
    (e: CallEdge) => if e.toId == id then weight(e) else 0.0
  }

  /** Inbound weight per callee. */
  method SumInbound(edges: seq<CallEdge>, weight: CallEdge -> real) returns (totals: map<string, real>)
    ensures IsTally(edges, ToId(), weight, totals)
    ensures forall id :: GetOrZero(totals, id) == Sum(edges, Into(id, weight))
  {
    totals := map[];
    TallyNone(ToId(), weight);
    hide IsTally;
    assert edges[..0] == [];
    for i: nat := 0 to |edges|
      invariant IsTally(edges[..i], ToId(), weight, totals)
    {
      TallyStep(edges, i, ToId(), weight, totals);
      totals := Plus(totals, edges[i].toId, weight(edges[i]));
    }
    assert edges[..|edges|] == edges;
    TalliedInto(edges, weight, totals);
  }

  lemma TalliedInto(edges: seq<CallEdge>, weight: CallEdge -> real, totals: map<string, real>)
    requires IsTally(edges, ToId(), weight, totals)
    ensures forall id :: GetOrZero(totals, id) == Sum(edges, Into(id, weight))
  {
    forall id
      ensures GetOrZero(totals, id) == Sum(edges, Into(id, weight))
    {
      SumCong(edges, Only(ToId(), weight, id), Into(id, weight));
      assert GetOrZero(totals, id) == At(edges, ToId(), weight, id);
    }
  }
}
