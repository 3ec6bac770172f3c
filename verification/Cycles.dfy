/** The call cycles of a graph: its strongly connected components of more than one node, largest first. */
module Cycles {
  import opened Sums
  import opened Graphs
  import opened Records
  import opened Sorting
  import opened CostNet
  import opened CostReach
  import opened CostQuery
  import opened BlastRadius
  import Scc
  import Tarjan

  ghost predicate Stored(nodes: seq<StoredNode>, id: string) {
    exists i :: 0 <= i < |nodes| && nodes[i].id == id
  }

  /** A call edge between two stored nodes. */
  ghost predicate IsCall(nodes: seq<StoredNode>, edges: seq<CallEdge>, from: string, to: string) {
    && Stored(nodes, from) && Stored(nodes, to)
    && exists i :: 0 <= i < |edges| && edges[i].fromId == from && edges[i].toId == to
  }

  ghost function CallStep(nodes: seq<StoredNode>, edges: seq<CallEdge>): (string, string) -> bool {
    (from: string, to: string) => IsCall(nodes, edges, from, to)
  }

  /** Each of the two calls the other, directly or through other stored nodes. */
  ghost predicate CallEachOther(nodes: seq<StoredNode>, edges: seq<CallEdge>, a: string, b: string) {
    Reach(CallStep(nodes, edges), a, b) && Reach(CallStep(nodes, edges), b, a)
  }

  ghost predicate Together(cycles: seq<seq<StoredNode>>, a: StoredNode, b: StoredNode) {
    exists g :: g in cycles && a in g && b in g
  }

  /**
   * The cycles group the nodes: no group is listed twice, no node is in two groups or twice in one,
   * a group has at least two stored nodes, and two different nodes are in one group exactly when they
   * call each other.
   */
  ghost predicate GroupsCallers(nodes: seq<StoredNode>, edges: seq<CallEdge>, cycles: seq<seq<StoredNode>>) {
    && Distinct(cycles)
    && (forall g :: g in cycles ==> |g| > 1 && Distinct(g) && forall n :: n in g ==> n in nodes)
    && (forall g, h, n :: g in cycles && h in cycles && n in g && n in h ==> g == h)
    && (forall a, b :: a in nodes && b in nodes && a != b ==>
          (Together(cycles, a, b) <==> CallEachOther(nodes, edges, a.id, b.id)))
  }

  // ---------------------------------------------------------------- indices and ids

  lemma TargetsSnoc(calls: seq<Call>, e: Call, v: nat)
    ensures Targets(calls + [e], v) == Targets(calls, v) + if e.from == v then [e.to] else []
  {
    assert (calls + [e])[..|calls|] == calls;
  }

  method BuildSuccessors(n: nat, indexOf: map<string, nat>, edges: seq<CallEdge>) returns (successors: seq<seq<nat>>)
    requires forall id :: id in indexOf ==> indexOf[id] < n
    ensures successors == GraphOf(n, Resolved(indexOf, edges))
  {
    successors := seq(n, _ => []);
    for i := 0 to |edges|
      invariant |successors| == n && forall v: nat :: v < n ==>
        successors[v] == Targets(Resolved(indexOf, edges[..i]), v)
    {
      var edge := edges[i];
      ghost var calls := Resolved(indexOf, edges[..i]);
      assert edges[..i + 1][..i] == edges[..i];
      assert Resolved(indexOf, edges[..i + 1]) == calls + Resolve(indexOf, edge);
      hide Resolved, Targets;
      if edge.fromId !in indexOf || edge.toId !in indexOf || indexOf[edge.fromId] == indexOf[edge.toId] {
        assert Resolved(indexOf, edges[..i + 1]) == calls;
        continue;
      }
      var from, to := indexOf[edge.fromId], indexOf[edge.toId];
      forall v: nat { TargetsSnoc(calls, Call(from, to, edge.count), v); }
      successors := successors[from := successors[from] + [to]];
    }
    assert edges[..|edges|] == edges;
    assert successors == GraphOf(n, Resolved(indexOf, edges));
  }

  ghost predicate JoinsIndices(indexOf: map<string, nat>, e: CallEdge, v: nat, w: nat) {
    e.fromId in indexOf && e.toId in indexOf && indexOf[e.fromId] == v && indexOf[e.toId] == w
  }

  ghost predicate HasCall(calls: seq<Call>, v: nat, w: nat) {
    exists k :: 0 <= k < |calls| && calls[k].from == v && calls[k].to == w
  }

  ghost predicate HasEdge(indexOf: map<string, nat>, edges: seq<CallEdge>, v: nat, w: nat) {
    exists i :: 0 <= i < |edges| && JoinsIndices(indexOf, edges[i], v, w)
  }

  /** The resolved calls are the edges between two different known nodes. */
  lemma {:induction false} ResolvedIff(indexOf: map<string, nat>, edges: seq<CallEdge>, v: nat, w: nat)
    ensures HasCall(Resolved(indexOf, edges), v, w) <==> v != w && HasEdge(indexOf, edges, v, w)
  {
    if edges != [] {
      var init, last := edges[..|edges| - 1], edges[|edges| - 1];
      var calls, more := Resolved(indexOf, init), Resolve(indexOf, last);
      ResolvedIff(indexOf, init, v, w);
      assert HasCall(calls + more, v, w) <==> HasCall(calls, v, w) || HasCall(more, v, w) by {
        assert forall k :: 0 <= k < |calls| ==> (calls + more)[k] == calls[k];
        assert forall k :: 0 <= k < |more| ==> (calls + more)[|calls| + k] == more[k];
      }
      assert HasCall(more, v, w) <==> v != w && JoinsIndices(indexOf, last, v, w) by {
        if v != w && JoinsIndices(indexOf, last, v, w) {
          assert more[0].from == v && more[0].to == w;
        }
      }
      assert HasEdge(indexOf, edges, v, w) <==> HasEdge(indexOf, init, v, w) || JoinsIndices(indexOf, last, v, w) by {
        assert forall i :: 0 <= i < |init| ==> edges[i] == init[i];
      }
    }
  }

  /** A call between indices is a call between the ids. */
  lemma StepToIds(nodes: seq<StoredNode>, indexOf: map<string, nat>, edges: seq<CallEdge>, v: nat, w: nat)
    requires IsIndex(nodes, indexOf)
    requires Scc.Calls(GraphOf(|nodes|, Resolved(indexOf, edges)))(v, w)
    ensures IsCall(nodes, edges, IdOf(nodes, v), IdOf(nodes, w))
  {
    ResolvedIff(indexOf, edges, v, w);
    var i :| 0 <= i < |edges| && JoinsIndices(indexOf, edges[i], v, w);
    assert edges[i].fromId == IdOf(nodes, v) && edges[i].toId == IdOf(nodes, w);
  }

  function IndexOf(indexOf: map<string, nat>, id: string): nat {
    if id in indexOf then indexOf[id] else 0
  }

  /** A call between ids is a call between their indices, unless it is a self-call. */
  lemma StepToIndices(nodes: seq<StoredNode>, indexOf: map<string, nat>, edges: seq<CallEdge>, a: string, b: string)
    requires IsIndex(nodes, indexOf) && IsCall(nodes, edges, a, b)
    ensures var v, w := IndexOf(indexOf, a), IndexOf(indexOf, b);
      v == w || Scc.Calls(GraphOf(|nodes|, Resolved(indexOf, edges)))(v, w)
  {
    var i :| 0 <= i < |edges| && edges[i].fromId == a && edges[i].toId == b;
    var v, w := IndexOf(indexOf, a), IndexOf(indexOf, b);
    assert JoinsIndices(indexOf, edges[i], v, w);
    ResolvedIff(indexOf, edges, v, w);
  }

  /** Reaching each other means the same by index and by id. */
  lemma SameReach(nodes: seq<StoredNode>, indexOf: map<string, nat>, edges: seq<CallEdge>, v: nat, w: nat)
    requires IsIndex(nodes, indexOf) && DistinctIds(nodes) && v < |nodes| && w < |nodes|
    ensures Reach(Scc.Calls(GraphOf(|nodes|, Resolved(indexOf, edges))), v, w)
      <==> Reach(CallStep(nodes, edges), nodes[v].id, nodes[w].id)
  {
    var step := Scc.Calls(GraphOf(|nodes|, Resolved(indexOf, edges)));
    assert indexOf[nodes[v].id] == v && indexOf[nodes[w].id] == w;
    if Reach(step, v, w) {
      forall x: nat, y: nat | step(x, y)
        ensures CallStep(nodes, edges)(IdOf(nodes, x), IdOf(nodes, y))
      {
        StepToIds(nodes, indexOf, edges, x, y);
      }
      hide Reach;
      ReachMap(step, CallStep(nodes, edges), (x: nat) => IdOf(nodes, x), v, w);
    }
    if Reach(CallStep(nodes, edges), nodes[v].id, nodes[w].id) {
      forall a, b | CallStep(nodes, edges)(a, b)
        ensures IndexOf(indexOf, a) == IndexOf(indexOf, b) || step(IndexOf(indexOf, a), IndexOf(indexOf, b))
      {
        StepToIndices(nodes, indexOf, edges, a, b);
      }
      hide Reach;
      ReachMap(CallStep(nodes, edges), step, (a: string) => IndexOf(indexOf, a), nodes[v].id, nodes[w].id);
    }
  }

  // ---------------------------------------------------------------- groups

  function NodesAt(nodes: seq<StoredNode>, indices: seq<nat>): (group: seq<StoredNode>)
    requires forall i :: i in indices ==> i < |nodes|
    ensures |group| == |indices|
    ensures forall k :: 0 <= k < |group| ==> indices[k] in indices && group[k] == nodes[indices[k]]
  {
    seq(|indices|, k requires 0 <= k < |indices| => assert indices[k] in indices; nodes[indices[k]])
  }

  ghost function CompAt(comp: seq<nat>): nat -> nat {
    (v: nat) => if v < |comp| then comp[v] else 0
  }

  /** The members of a component, in node order. */
  ghost function Members(comp: seq<nat>, c: nat): (members: seq<nat>)
    ensures Distinct(members) && forall v: nat :: v in members <==> v < |comp| && comp[v] == c
  {
    SelectMembers(Range(|comp|), CompAt(comp), c);
    Select(Range(|comp|), CompAt(comp), c)
  }

  method MembersByComponent(comp: seq<nat>, count: nat) returns (members: seq<seq<nat>>)
    requires forall v :: 0 <= v < |comp| ==> comp[v] < count
    ensures |members| == count && forall c :: 0 <= c < count ==> members[c] == Members(comp, c)
  {
    members := seq(count, _ => []);
    for v: nat := 0 to |comp|
      invariant |members| == count && forall c: nat :: c < count ==> members[c] == Select(Range(v), CompAt(comp), c)
    {
      forall c: nat | c < count
        ensures Select(Range(v + 1), CompAt(comp), c)
          == Select(Range(v), CompAt(comp), c) + if comp[v] == c then [v] else []
      {
        SelectSnoc(Range(v), v, CompAt(comp), c);
      }
      members := members[comp[v] := members[comp[v]] + [v]];
    }
  }

  /** The groups of the components below `c` that have more than one member. */
  ghost predicate GroupsBelow(nodes: seq<StoredNode>, comp: seq<nat>, c: nat, cycles: seq<seq<StoredNode>>)
    requires |comp| == |nodes|
  {
    && Distinct(cycles)
    && (forall g :: g in cycles <==>
          exists d: nat :: d < c && |Members(comp, d)| > 1 && g == NodesAt(nodes, Members(comp, d)))
  }

  /** Groups of different components share no node. */
  lemma GroupsDisjoint(nodes: seq<StoredNode>, comp: seq<nat>, c: nat, d: nat, n: StoredNode)
    requires |comp| == |nodes| && DistinctIds(nodes)
    requires n in NodesAt(nodes, Members(comp, c)) && n in NodesAt(nodes, Members(comp, d))
    ensures c == d
  {
    var i :| 0 <= i < |Members(comp, c)| && NodesAt(nodes, Members(comp, c))[i] == n;
    var j :| 0 <= j < |Members(comp, d)| && NodesAt(nodes, Members(comp, d))[j] == n;
    assert Members(comp, c)[i] in Members(comp, c) && Members(comp, d)[j] in Members(comp, d);
  }

  method LargerGroups(nodes: seq<StoredNode>, members: seq<seq<nat>>, ghost comp: seq<nat>)
      returns (cycles: seq<seq<StoredNode>>)
    requires |comp| == |nodes| && DistinctIds(nodes)
    requires forall c :: 0 <= c < |members| ==> members[c] == Members(comp, c)
    ensures GroupsBelow(nodes, comp, |members|, cycles)
  {
    cycles := [];
    for c: nat := 0 to |members|
      invariant GroupsBelow(nodes, comp, c, cycles)
    {
      if |members[c]| > 1 {
        var group := NodesAt(nodes, members[c]);
        forall g | g in cycles
          ensures g != group
        {
          var d: nat :| d < c && |Members(comp, d)| > 1 && g == NodesAt(nodes, Members(comp, d));
          if g == group {
            GroupsDisjoint(nodes, comp, c, d, group[0]);
          }
        }
        assert forall i :: 0 <= i < |cycles| ==> cycles[i] in cycles;
        cycles := cycles + [group];
      }
    }
  }

  /** A member of a group is a node of that component. */
  lemma InGroup(nodes: seq<StoredNode>, comp: seq<nat>, c: nat, v: nat)
    requires |comp| == |nodes| && DistinctIds(nodes) && v < |nodes|
    ensures nodes[v] in NodesAt(nodes, Members(comp, c)) <==> comp[v] == c
  {
    var members := Members(comp, c);
    if comp[v] == c {
      var k :| 0 <= k < |members| && members[k] == v;
      assert NodesAt(nodes, members)[k] == nodes[v];
    } else {
      forall k | 0 <= k < |members|
        ensures NodesAt(nodes, members)[k] != nodes[v]
      {
        assert members[k] in members;
      }
    }
  }

  lemma TwoMembers<T>(s: seq<T>, a: T, b: T)
    requires a in s && b in s && a != b
    ensures |s| > 1
  {
    var i :| 0 <= i < |s| && s[i] == a;
    var j :| 0 <= j < |s| && s[j] == b;
  }

  lemma TogetherIff(nodes: seq<StoredNode>, comp: seq<nat>, count: nat, cycles: seq<seq<StoredNode>>, v: nat, w: nat)
    requires |comp| == |nodes| && DistinctIds(nodes) && v < |nodes| && w < |nodes| && v != w
    requires comp[v] < count && GroupsBelow(nodes, comp, count, cycles)
    ensures Together(cycles, nodes[v], nodes[w]) <==> comp[v] == comp[w]
  {
    if comp[v] == comp[w] {
      TwoMembers(Members(comp, comp[v]), v, w);
      InGroup(nodes, comp, comp[v], v);
      InGroup(nodes, comp, comp[v], w);
      assert NodesAt(nodes, Members(comp, comp[v])) in cycles;
    } else if Together(cycles, nodes[v], nodes[w]) {
      var g :| g in cycles && nodes[v] in g && nodes[w] in g;
      var d: nat :| d < count && |Members(comp, d)| > 1 && g == NodesAt(nodes, Members(comp, d));
      InGroup(nodes, comp, d, v);
      InGroup(nodes, comp, d, w);
    }
  }

  lemma GroupIsCycle(nodes: seq<StoredNode>, comp: seq<nat>, count: nat, cycles: seq<seq<StoredNode>>,
                     g: seq<StoredNode>)
    requires |comp| == |nodes| && DistinctIds(nodes) && GroupsBelow(nodes, comp, count, cycles) && g in cycles
    ensures |g| > 1 && Distinct(g) && forall n :: n in g ==> n in nodes
  {
    var d: nat :| d < count && |Members(comp, d)| > 1 && g == NodesAt(nodes, Members(comp, d));
    hide *;
    NodesAtDistinct(nodes, Members(comp, d));
  }

  lemma NodesAtDistinct(nodes: seq<StoredNode>, members: seq<nat>)
    requires DistinctIds(nodes) && Distinct(members) && forall v :: v in members ==> v < |nodes|
    ensures Distinct(NodesAt(nodes, members)) && forall n :: n in NodesAt(nodes, members) ==> n in nodes
  {
    var g := NodesAt(nodes, members);
    hide NodesAt;
    forall i, j | 0 <= i < j < |g|
      ensures g[i] != g[j]
    {
      assert members[i] in members && members[j] in members && members[i] != members[j];
    }
  }

  lemma SameComponentIff(nodes: seq<StoredNode>, edges: seq<CallEdge>, indexOf: map<string, nat>, comp: seq<nat>,
                         count: nat, v: nat, w: nat)
    requires DistinctIds(nodes) && IsIndex(nodes, indexOf)
    requires Scc.IsSccNumbering(GraphOf(|nodes|, Resolved(indexOf, edges)), comp, count)
    requires v < |nodes| && w < |nodes|
    ensures |comp| == |nodes| && comp[v] < count
    ensures comp[v] == comp[w] <==> CallEachOther(nodes, edges, nodes[v].id, nodes[w].id)
  {
    SameReach(nodes, indexOf, edges, v, w);
    SameReach(nodes, indexOf, edges, w, v);
    hide Reach, IsIndex, Resolved, Targets;
  }

  lemma GroupsDiffer(nodes: seq<StoredNode>, comp: seq<nat>, count: nat, cycles: seq<seq<StoredNode>>,
                     g: seq<StoredNode>, h: seq<StoredNode>, n: StoredNode)
    requires |comp| == |nodes| && DistinctIds(nodes) && GroupsBelow(nodes, comp, count, cycles)
    requires g in cycles && h in cycles && n in g && n in h
    ensures g == h
  {
    var c: nat :| c < count && |Members(comp, c)| > 1 && g == NodesAt(nodes, Members(comp, c));
    var d: nat :| d < count && |Members(comp, d)| > 1 && h == NodesAt(nodes, Members(comp, d));
    GroupsDisjoint(nodes, comp, c, d, n);
  }

  lemma GroupsMeet(nodes: seq<StoredNode>, edges: seq<CallEdge>, indexOf: map<string, nat>, comp: seq<nat>, count: nat,
                   cycles: seq<seq<StoredNode>>)
    requires DistinctIds(nodes) && IsIndex(nodes, indexOf) && |comp| == |nodes|
    requires Scc.IsSccNumbering(GraphOf(|nodes|, Resolved(indexOf, edges)), comp, count)
    requires GroupsBelow(nodes, comp, count, cycles)
    ensures GroupsCallers(nodes, edges, cycles)
  {
    assert Distinct(cycles);
    hide Reach, IsIndex, GraphOf, GroupsBelow, Together, CallEachOther, Scc.IsSccNumbering, DistinctIds, Distinct;
    forall g | g in cycles
      ensures |g| > 1 && Distinct(g) && forall n :: n in g ==> n in nodes
    {
      GroupIsCycle(nodes, comp, count, cycles, g);
    }
    forall g, h, n | g in cycles && h in cycles && n in g && n in h
      ensures g == h
    {
      GroupsDiffer(nodes, comp, count, cycles, g, h, n);
    }
    forall a, b | a in nodes && b in nodes && a != b
      ensures Together(cycles, a, b) <==> CallEachOther(nodes, edges, a.id, b.id)
    {
      var v :| 0 <= v < |nodes| && nodes[v] == a;
      var w :| 0 <= w < |nodes| && nodes[w] == b;
      SameComponentIff(nodes, edges, indexOf, comp, count, v, w);
      TogetherIff(nodes, comp, count, cycles, v, w);
    }
  }

  // ---------------------------------------------------------------- largest first

  ghost predicate LargestFirst<T>(groups: seq<seq<T>>) {
    forall i, j :: 0 <= i < j < |groups| ==> |groups[i]| >= |groups[j]|
  }

  function AtLeastAsLarge<T>(): (seq<T>, seq<T>) -> bool {
    (g: seq<T>, h: seq<T>) => |g| >= |h|
  }

  /** The groups sorted by size, largest first. */
  function BySize<T(!new)>(groups: seq<seq<T>>): (r: seq<seq<T>>)
    ensures LargestFirst(r) && multiset(r) == multiset(groups)
  {
    assert IsRanking<seq<T>>(AtLeastAsLarge());
    Sorted(groups, AtLeastAsLarge())
  }

  lemma {:induction false} DistinctOnce<T>(s: seq<T>, x: T)
    ensures Distinct(s) ==> multiset(s)[x] <= 1
  {
    if s != [] {
      assert s == s[..|s| - 1] + [s[|s| - 1]];
      DistinctOnce(s[..|s| - 1], x);
    }
  }

  lemma DistinctPermuted<T>(s: seq<T>, t: seq<T>)
    requires Distinct(s) && multiset(s) == multiset(t)
    ensures Distinct(t)
  {
    forall i, j | 0 <= i < j < |t|
      ensures t[i] != t[j]
    {
      DistinctOnce(s, t[i]);
      assert t == t[..j] + [t[j]] + t[j + 1..];
      assert t[i] in t[..j];
    }
  }

  lemma Regrouped(nodes: seq<StoredNode>, edges: seq<CallEdge>, cycles: seq<seq<StoredNode>>,
                  sorted: seq<seq<StoredNode>>)
    requires GroupsCallers(nodes, edges, cycles) && multiset(cycles) == multiset(sorted)
    ensures GroupsCallers(nodes, edges, sorted)
  {
    DistinctPermuted(cycles, sorted);
    hide CallEachOther;
    forall g
      ensures g in sorted <==> g in cycles
    {
      assert g in sorted <==> g in multiset(sorted);
      assert g in cycles <==> g in multiset(cycles);
    }
    hide Distinct;
    forall a, b
      ensures Together(sorted, a, b) <==> Together(cycles, a, b)
    {
    }
  }

  /** The call cycles of the stored graph, largest first. */
  method StrongCycles(nodes: seq<StoredNode>, edges: seq<CallEdge>) returns (cycles: seq<seq<StoredNode>>)
    requires DistinctIds(nodes)
    ensures GroupsCallers(nodes, edges, cycles) && LargestFirst(cycles)
  {
    var indexOf := IndexNodes(nodes);
    var successors := BuildSuccessors(|nodes|, indexOf, edges);
    SuccessorsAreGraph(indexOf, |nodes|, edges, successors);
    hide Scc.IsSccNumbering, GroupsCallers, GroupsBelow, Resolved, GraphOf, Reach;
    var componentOf, componentCount, _ := Tarjan.StronglyConnectedComponents(successors);
    NumberedRange(successors, componentOf, componentCount);
    var members := MembersByComponent(componentOf, componentCount);
    var groups := LargerGroups(nodes, members, componentOf);
    GroupsMeet(nodes, edges, indexOf, componentOf, componentCount, groups);
    cycles := BySize(groups);
    Regrouped(nodes, edges, groups, cycles);
  }

  lemma NumberedRange(g: Scc.Graph, comp: seq<nat>, count: nat)
    requires Scc.IsSccNumbering(g, comp, count)
    ensures |comp| == |g| && forall v :: 0 <= v < |comp| ==> comp[v] < count
  {
  }

  /** All members of a reported cycle have the same blast radius. */
  lemma CycleSharesRadius(nodes: seq<StoredNode>, edges: seq<CallEdge>, cycles: seq<seq<StoredNode>>,
                          g: seq<StoredNode>, a: StoredNode, b: StoredNode)
    requires GroupsCallers(nodes, edges, cycles) && g in cycles && a in g && b in g
    ensures |Ancestors(edges, a.id)| == |Ancestors(edges, b.id)|
  {
    if a != b {
      assert Together(cycles, a, b);
      assert CallEachOther(nodes, edges, a.id, b.id);
      ReachBack(CallStep(nodes, edges), CallerStep(edges), a.id, b.id);
      ReachBack(CallStep(nodes, edges), CallerStep(edges), b.id, a.id);
      hide Reach, Ancestors;
      MutualCallersShareRadius(edges, a.id, b.id);
    }
  }
}
