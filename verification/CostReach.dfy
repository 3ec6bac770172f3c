/** Cost propagation and reachability: a component is charged for nothing that it does not reach. */
module CostReach {
  import opened Sums
  import opened Graphs
  import opened CostNet
  import Scc

  /** The successor list of one node, in the order of the calls. */
  ghost function Targets(calls: seq<Call>, v: nat): (t: seq<nat>)
    ensures forall w :: w in t <==> exists i :: 0 <= i < |calls| && calls[i].from == v && calls[i].to == w
  {
    if calls == [] then [] else
      var last := calls[|calls| - 1];
      var init := calls[..|calls| - 1];
      assert forall i :: 0 <= i < |init| ==> calls[i] == init[i];
      Targets(init, v) + if last.from == v then [last.to] else []
  }

  ghost function GraphOf(n: nat, calls: seq<Call>): Scc.Graph {
    seq(n, v requires 0 <= v < n => Targets(calls, v))
  }

  /** The net's components are the strongly connected components of its calls, as the pass numbers them. */
  ghost predicate Numbered(net: Net) {
    && |net.comp| == |net.self|
    && (forall i :: 0 <= i < |net.calls| ==> net.calls[i].from < |net.self| && net.calls[i].to < |net.self|)
    && Scc.IsSccNumbering(GraphOf(|net.self|, net.calls), net.comp, net.count)
  }

  ghost function Reaches(net: Net): (nat, nat) -> bool {
    Scc.Calls(GraphOf(|net.self|, net.calls))
  }

  lemma CallReaches(net: Net, i: nat)
    requires i < |net.calls| && net.calls[i].from < |net.self|
    ensures Reach(Reaches(net), net.calls[i].from, net.calls[i].to)
  {
    var g, e := GraphOf(|net.self|, net.calls), net.calls[i];
    assert e.to in g[e.from];
    ReachStep(Reaches(net), e.from, e.to);
  }

  lemma NumberedValid(net: Net)
    requires Numbered(net)
    ensures net.Valid()
  {
    hide Reach;
    var g := GraphOf(|net.self|, net.calls);
    forall i | 0 <= i < |net.calls|
      ensures net.CompOf(net.calls[i].to) <= net.CompOf(net.calls[i].from)
    {
      var e := net.calls[i];
      assert e.to in g[e.from];
    }
  }

  /** Responsibility needs a call path. */
  lemma {:induction false} RespReach(net: Net, v: nat, u: nat)
    requires Numbered(net) && v < |net.self| && u < |net.self|
    requires net.Resp(net.comp[v], net.comp[u]) != 0.0
    ensures Reach(Reaches(net), v, u)
    decreases if net.comp[u] <= net.comp[v] then net.comp[v] - net.comp[u] else 0
  {
    hide Reach;
    var c, d := net.comp[v], net.comp[u];
    if d < c {
      var i := net.RespStep(c, d);
      var e := net.calls[i];
      RespReach(net, v, e.from);
      CallReaches(net, i);
      ReachTrans(Reaches(net), v, e.from, e.to);
      ReachTrans(Reaches(net), v, e.to, u);
    }
  }

  ghost function ReachableSelf(net: Net, v: nat): nat -> real {
    (u: nat) => if Reach(Reaches(net), v, u) then net.Selfs()(u) else 0.0
  }

  lemma ReachableSelfNonNegative(net: Net, v: nat)
    requires net.NonNegative()
    ensures forall u :: ReachableSelf(net, v)(u) >= 0.0
  {
    hide Reach;
    forall u: nat
      ensures ReachableSelf(net, v)(u) >= 0.0
    {
      assert net.Selfs()(u) >= 0.0;
    }
  }

  lemma UnreachedPart(net: Net, c: nat, d: nat)
    requires net.Resp(c, d) == 0.0
    ensures net.Responsible(c)(d) == 0.0
  {
    assert net.Responsible(c)(d) == Mul(net.Resps(c)(d), net.ComponentSelf()(d));
    hide Net.Responsible, Net.ComponentSelf;
  }

  lemma ReachablePart(net: Net, v: nat, d: nat)
    requires Numbered(net) && net.NonNegative() && net.SingleEntry() && v < |net.self| && d < net.count
    ensures net.Responsible(net.comp[v])(d) <= At(Range(|net.self|), net.Comps(), ReachableSelf(net, v), d)
  {
    NumberedValid(net);
    ReachableSelfNonNegative(net, v);
    var c := net.comp[v];
    hide Reach, Net.Resp, Net.Responsible, Net.SingleEntry, Net.Inbound;
    if net.Resp(c, d) == 0.0 {
      UnreachedPart(net, c, d);
      SumNonneg(Range(|net.self|), Only(net.Comps(), ReachableSelf(net, v), d));
    } else {
      forall u: nat | u < |net.self| && net.CompOf(u) == d
        ensures ReachableSelf(net, v)(u) == net.Selfs()(u)
      {
        RespReach(net, v, u);
      }
      AtCong(Range(|net.self|), net.Comps(), ReachableSelf(net, v), net.Selfs(), d);
      net.SingleEntryResp(c, d);
      net.ResponsibleAtMost(c, d);
    }
  }

  /**
   * With single-entry components and non-negative inputs, a node's inclusive cost lies between zero
   * and the self cost of the nodes it reaches.
   */
  lemma InclusiveWithinReach(net: Net, x: nat -> real, v: nat)
    requires Numbered(net) && net.NonNegative() && net.SingleEntry() && net.Inclusive(x) && v < |net.self|
    ensures 0.0 <= x(net.comp[v]) <= Sum(Range(|net.self|), ReachableSelf(net, v)) <= net.TotalSelf()
  {
    hide Reach;
    NumberedValid(net);
    var c := net.comp[v];
    var part := (d: nat) => At(Range(|net.self|), net.Comps(), ReachableSelf(net, v), d);
    net.Duality(x, c);
    net.InclusiveNonNegative(x, c);
    forall d: nat | d < net.count
      ensures net.Responsible(c)(d) <= part(d)
    {
      ReachablePart(net, v, d);
    }
    SumLe(Range(|net.self|), ReachableSelf(net, v), net.Selfs());
    SumByKey(Range(net.count), Range(|net.self|), net.Comps(), ReachableSelf(net, v), part);
    hide Net.Responsible, Net.Inclusive, Net.NonNegative, Numbered;
    SumLe(Range(net.count), net.Responsible(c), part);
  }

  /** No two nodes reach each other. */
  ghost predicate Acyclic(net: Net) {
    forall u: nat, v: nat ::
      u < |net.self| && v < |net.self| && Reach(Reaches(net), u, v) && Reach(Reaches(net), v, u) ==> u == v
  }

  /** Two nodes of an acyclic graph are never in one component. */
  lemma AcyclicComponents(net: Net, u: nat, v: nat)
    requires Numbered(net) && Acyclic(net) && u < |net.self| && v < |net.self| && net.CompOf(u) == net.CompOf(v)
    ensures u == v
  {
    hide Reach;
    assert net.comp[u] == net.comp[v];
    assert Reach(Reaches(net), u, v) && Reach(Reaches(net), v, u);
  }

  /** The inclusive costs of the nodes that nothing outside their component calls with positive weight. */
  ghost function Uncalled(net: Net, x: nat -> real): nat -> real {
    (v: nat) => if net.Inbound(v) <= 0.0 then x(net.CompOf(v)) else 0.0
  }

  /** A component of an acyclic graph is one node, so the component is uncalled exactly when the node is. */
  lemma RootOfNode(net: Net, x: nat -> real, c: nat)
    requires Numbered(net) && Acyclic(net) && c < net.count
    ensures net.Roots(x)(c) == At(Range(|net.self|), net.Comps(), Uncalled(net, x), c)
  {
    assert c in net.comp;
    var v: nat :| v < |net.comp| && net.comp[v] == c;
    forall u: nat | u < |net.self| && net.CompOf(u) == c
      ensures u == v
    {
      AcyclicComponents(net, u, v);
    }
    hide Numbered, Acyclic, Net.Inbound;
    SumPick(Range(|net.self|), v, Only(net.Comps(), net.IsEntry(), c));
    SumPick(Range(|net.self|), v, Only(net.Comps(), Uncalled(net, x), c));
  }

  /** On an acyclic call graph the uncalled nodes account for exactly the total self cost. */
  lemma AcyclicConserves(net: Net, x: nat -> real)
    requires Numbered(net) && Acyclic(net) && net.Inclusive(x)
    ensures net.SingleEntry()
    ensures Sum(Range(|net.self|), Uncalled(net, x)) == Sum(Range(net.count), net.Roots(x)) == net.TotalSelf()
  {
    NumberedValid(net);
    forall u: nat, v: nat | u < |net.self| && v < |net.self| && net.CompOf(u) == net.CompOf(v)
      ensures u == v
    {
      AcyclicComponents(net, u, v);
    }
    forall c: nat | c < net.count
      ensures net.Roots(x)(c) == At(Range(|net.self|), net.Comps(), Uncalled(net, x), c)
    {
      RootOfNode(net, x, c);
    }
    hide Numbered, Acyclic, Net.Inclusive, Net.Roots, Uncalled, Net.Inbound;
    net.SingleEntryConserves(x);
    SumByKey(Range(net.count), Range(|net.self|), net.Comps(), Uncalled(net, x), net.Roots(x));
  }

  // ---------------------------------------------------------------- the numbering does not matter

  /** Two numberings of one graph. */
  ghost predicate Renumbered(net: Net, other: Net) {
    Numbered(net) && Numbered(other) && net.self == other.self && net.calls == other.calls
  }

  lemma SameComponents(net: Net, other: Net, u: nat, v: nat)
    requires Renumbered(net, other) && u < |net.self| && v < |net.self|
    ensures net.CompOf(u) == net.CompOf(v) <==> other.CompOf(u) == other.CompOf(v)
  {
    hide Reach;
  }

  lemma SameShare(net: Net, other: Net, i: nat)
    requires Renumbered(net, other) && i < |net.calls|
    ensures var e := net.calls[i]; net.Share()(e) == other.Share()(e) && net.Cross(e) == other.Cross(e)
  {
    var e := net.calls[i];
    forall k | 0 <= k < |net.calls|
      ensures net.CrossCount()(net.calls[k]) == other.CrossCount()(net.calls[k])
    {
      SameComponents(net, other, net.calls[k].from, net.calls[k].to);
    }
    hide Numbered;
    AtCong(net.calls, Callee(), net.CrossCount(), other.CrossCount(), e.to);
    hide Net.CrossCount;
  }

  lemma SameSelf(net: Net, other: Net, v: nat)
    requires Renumbered(net, other) && v < |net.self|
    ensures net.ComponentSelf()(net.comp[v]) == other.ComponentSelf()(other.comp[v])
  {
    var c, d := net.comp[v], other.comp[v];
    forall u: nat | u < |net.self|
      ensures Only(net.Comps(), net.Selfs(), c)(u) == Only(other.Comps(), other.Selfs(), d)(u)
    {
      SameComponents(net, other, u, v);
    }
    hide Numbered;
    SumCong(Range(|net.self|), Only(net.Comps(), net.Selfs(), c), Only(other.Comps(), other.Selfs(), d));
  }

  lemma DrawOf(net: Net, x: nat -> real, e: Call)
    ensures net.Flows().Drawn(x)(e) == if net.Cross(e) then Mul(net.Share()(e), x(net.CompOf(e.to))) else 0.0
  {
    assert !net.Cross(e) ==> net.Share()(e) == 0.0;
    hide Net.Share;
  }

  lemma SameDraw(net: Net, other: Net, x: nat -> real, y: nat -> real, v: nat, i: nat)
    requires Renumbered(net, other) && v < |net.self| && i < |net.calls|
    requires var e := net.calls[i];
      net.CompOf(e.from) == net.comp[v] && net.Cross(e) ==> x(net.CompOf(e.to)) == y(other.CompOf(e.to))
    ensures Only(net.CallerComp(), net.Flows().Drawn(x), net.comp[v])(net.calls[i])
      == Only(other.CallerComp(), other.Flows().Drawn(y), other.comp[v])(net.calls[i])
  {
    var e := net.calls[i];
    SameComponents(net, other, e.from, v);
    SameShare(net, other, i);
    DrawOf(net, x, e);
    DrawOf(other, y, e);
    hide Numbered, Net.Share, Net.Flows, Mul, Net.Cross;
  }

  lemma Equation(net: Net, x: nat -> real, c: nat)
    requires net.Inclusive(x) && c < net.count
    ensures x(c) == net.ComponentSelf()(c) + At(net.calls, net.CallerComp(), net.Flows().Drawn(x), c)
  {
    assert Range(net.count)[c] == c;
  }

  /** Inclusive costs depend on the graph, not on the order in which its components were numbered. */
  lemma {:induction false} InclusiveIgnoresNumbering(net: Net, other: Net, x: nat -> real, y: nat -> real, v: nat)
    requires Renumbered(net, other) && net.Inclusive(x) && other.Inclusive(y) && v < |net.self|
    ensures v < |net.comp| && v < |other.comp| && x(net.comp[v]) == y(other.comp[v])
    decreases net.CompOf(v)
  {
    NumberedValid(net);
    NumberedValid(other);
    var c, d := net.comp[v], other.comp[v];
    Equation(net, x, c);
    Equation(other, y, d);
    SameSelf(net, other, v);
    hide Numbered, Net.Share, Net.Inclusive, Net.Flows, Net.ComponentSelf;
    forall i: nat | i < |net.calls|
      ensures Only(net.CallerComp(), net.Flows().Drawn(x), c)(net.calls[i])
        == Only(other.CallerComp(), other.Flows().Drawn(y), d)(net.calls[i])
    {
      var e := net.calls[i];
      if net.CompOf(e.from) == c && net.Cross(e) {
        InclusiveIgnoresNumbering(net, other, x, y, e.to);
      }
      SameDraw(net, other, x, y, v, i);
    }
    hide Only, Net.CallerComp;
    SumCong(net.calls, Only(net.CallerComp(), net.Flows().Drawn(x), c),
            Only(other.CallerComp(), other.Flows().Drawn(y), d));
  }

  // ---------------------------------------------------------------- a cycle with two entries

  /** Nodes 0 and 1 call each other; node 2 calls both. Only node 0 has a self cost. */
  ghost function TwoEntries(): Net {
    Net([10.0, 0.0, 0.0], [Call(0, 1, 1.0), Call(1, 0, 1.0), Call(2, 0, 1.0), Call(2, 1, 1.0)], [0, 0, 1], 2)
  }

  lemma SumThree<T>(a: T, b: T, c: T, f: T -> real)
    ensures Sum([a, b, c], f) == f(a) + f(b) + f(c)
  {
    SumSnoc([], a, f);
    SumSnoc([a], b, f);
    SumSnoc([a, b], c, f);
    assert [] + [a] == [a] && [a] + [b] == [a, b] && [a, b] + [c] == [a, b, c];
  }

  lemma SumFour<T>(a: T, b: T, c: T, d: T, f: T -> real)
    ensures Sum([a, b, c, d], f) == f(a) + f(b) + f(c) + f(d)
  {
    SumThree(a, b, c, f);
    SumSnoc([a, b, c], d, f);
    assert [a, b, c] + [d] == [a, b, c, d];
  }

  lemma TwoEntriesShares()
    ensures var net := TwoEntries();
      forall i :: 0 <= i < 4 ==> net.Share()(net.calls[i]) == if i < 2 then 0.0 else 1.0
  {
    var net := TwoEntries();
    var c := net.calls;
    forall v: nat | v < 2
      ensures net.Inbound(v) == 1.0
    {
      SumFour(c[0], c[1], c[2], c[3], Only(Callee(), net.CrossCount(), v));
      assert c == [c[0], c[1], c[2], c[3]];
    }
    hide Net.Inbound;
  }

  lemma TwoEntriesSelf(k: nat)
    requires k < 2
    ensures TwoEntries().TotalSelf() == 10.0
    ensures TwoEntries().ComponentSelf()(k) == if k == 0 then 10.0 else 0.0
  {
    var net := TwoEntries();
    assert Range(3) == [0, 1, 2];
    SumThree<nat>(0, 1, 2, net.Selfs());
    SumThree<nat>(0, 1, 2, Only<nat, nat>(net.Comps(), net.Selfs(), k));
  }

  lemma TwoEntriesDrawn(x: nat -> real, k: nat)
    requires k < 2
    ensures var net := TwoEntries();
      At(net.calls, net.CallerComp(), net.Flows().Drawn(x), k) == if k == 0 then 0.0 else 2.0 * x(0)
  {
    var net := TwoEntries();
    var c := net.calls;
    TwoEntriesShares();
    hide Net.Share;
    assert c == [c[0], c[1], c[2], c[3]];
    SumFour(c[0], c[1], c[2], c[3], Only(net.CallerComp(), net.Flows().Drawn(x), k));
  }

  /** The caller of a two-entry cycle is charged twice the total: conservation and true fractions fail. */
  lemma TwoEntriesOvercharge(x: nat -> real)
    requires TwoEntries().Inclusive(x)
    ensures TwoEntries().NonNegative() && TwoEntries().Valid()
    ensures TwoEntries().TotalSelf() == 10.0 && x(1) == 20.0
  {
    TwoEntriesCharge(x, 0);
    TwoEntriesCharge(x, 1);
    TwoEntriesSelf(0);
    hide Net.Inclusive, Net.ComponentSelf, Net.Share, At;
  }

  lemma TwoEntriesCharge(x: nat -> real, k: nat)
    requires TwoEntries().Inclusive(x) && k < 2
    ensures x(k) == if k == 0 then 10.0 else 2.0 * x(0)
  {
    TwoEntriesSelf(k);
    TwoEntriesDrawn(x, k);
    assert Range(2)[k] == k;
    hide Net.ComponentSelf, Net.Share, At;
  }

  lemma TwoEntriesClosed(u: nat, v: nat)
    requires u < 2 && Reach(Reaches(TwoEntries()), u, v)
    ensures v < 2
  {
    var net := TwoEntries();
    var step := Reaches(net);
    hide Reach;
    forall w: nat, x: nat | w < 2 && step(w, x)
      ensures x < 2
    {
      assert x in Targets(net.calls, w);
    }
    ReachClosed(step, (w: nat) => w < 2, u, v);
  }

  lemma TwoEntriesMutual()
    ensures Reach(Reaches(TwoEntries()), 0, 1) && Reach(Reaches(TwoEntries()), 1, 0)
  {
    CallReaches(TwoEntries(), 0);
    CallReaches(TwoEntries(), 1);
    hide Reach, Reaches;
  }

  lemma TwoEntriesReach(u: nat, v: nat)
    requires u < 3 && v < 3
    ensures Reach(Reaches(TwoEntries()), u, v) && Reach(Reaches(TwoEntries()), v, u) <==> (u < 2 <==> v < 2)
  {
    var net := TwoEntries();
    TwoEntriesMutual();
    ReachRefl(Reaches(net), u);
    hide Reach, Reaches, TwoEntries;
    if Reach(Reaches(net), u, v) && u < 2 {
      TwoEntriesClosed(u, v);
    }
    if Reach(Reaches(net), v, u) && v < 2 {
      TwoEntriesClosed(v, u);
    }
  }

  lemma TwoEntriesTargets(v: nat, j: nat)
    requires var g := GraphOf(3, TwoEntries().calls); v < 3 && j < |g[v]|
    ensures GraphOf(3, TwoEntries().calls)[v][j] < 2
  {
    assert GraphOf(3, TwoEntries().calls)[v][j] in Targets(TwoEntries().calls, v);
  }

  lemma TwoEntriesShape()
    ensures var net := TwoEntries();
      && net.comp == [0, 0, 1] && |net.self| == 3 && net.count == 2 && |net.calls| == 4
      && (forall i :: 0 <= i < 4 ==> net.calls[i].from < 3 && net.calls[i].to < 3)
      && |GraphOf(3, net.calls)| == 3
  {
    hide Targets;
  }

  lemma TwoEntriesNumbered()
    ensures Numbered(TwoEntries())
  {
    hide *;
    var net := TwoEntries();
    var g := GraphOf(3, net.calls);
    TwoEntriesShape();
    forall u: nat, v: nat | u < 3 && v < 3
      ensures net.comp[u] == net.comp[v] <==> Reach(Scc.Calls(g), u, v) && Reach(Scc.Calls(g), v, u)
    {
      TwoEntriesMutualAt(u, v);
    }
    forall v: nat, j: nat | v < 3 && j < |g[v]|
      ensures g[v][j] < 2
    {
      TwoEntriesTargets(v, j);
    }
    assert net.comp[0] == 0 && net.comp[2] == 1;
    assert forall v: nat :: v < 2 ==> net.comp[v] == 0;
    NumberedUnfolds(net, g);
  }

  lemma NumberedUnfolds(net: Net, g: Scc.Graph)
    requires |net.comp| == |net.self| == |g| && g == GraphOf(|net.self|, net.calls)
    requires forall i :: 0 <= i < |net.calls| ==> net.calls[i].from < |net.self| && net.calls[i].to < |net.self|
    requires forall v :: 0 <= v < |g| ==> net.comp[v] < net.count
    requires forall c: nat :: c < net.count ==> c in net.comp
    requires forall u: nat, v: nat :: u < |g| && v < |g| ==>
      (net.comp[u] == net.comp[v] <==> Reach(Scc.Calls(g), u, v) && Reach(Scc.Calls(g), v, u))
    requires forall v: nat, j: nat :: v < |g| && j < |g[v]| ==> g[v][j] < |g| && net.comp[g[v][j]] <= net.comp[v]
    ensures Numbered(net)
  {
    hide Reach, GraphOf, Scc.Calls;
  }

  lemma TwoEntriesMutualAt(u: nat, v: nat)
    requires u < 3 && v < 3
    ensures var net := TwoEntries(); var calls := Scc.Calls(GraphOf(3, net.calls));
      |net.comp| == 3 && (net.comp[u] == net.comp[v] <==> Reach(calls, u, v) && Reach(calls, v, u))
  {
    hide *;
    TwoEntriesShape();
    ReachesAre(TwoEntries());
    TwoEntriesReach(u, v);
  }

  lemma ReachesAre(net: Net)
    ensures Reaches(net) == Scc.Calls(GraphOf(|net.self|, net.calls))
  {
  }
}
