/** What subtree totals of a forest add up to. */
module CallTreeLaws {
  import opened Sums
  import opened Graphs
  import opened Flow
  import opened Tallies
  import opened CallTree

  datatype TreeArc = TreeArc(parent: int, child: int)

  ghost function Parent(): TreeArc -> int {
    (a: TreeArc) => a.parent
  }

  ghost function Child(): TreeArc -> int {
    (a: TreeArc) => a.child
  }

  ghost function One(): TreeArc -> real {
    (a: TreeArc) => 1.0
  }

  ghost function Ids(nodes: seq<ProfileNode>): (ids: seq<int>)
    ensures |ids| == |nodes| && forall i :: 0 <= i < |ids| ==> ids[i] == nodes[i].id
  {
    seq(|nodes|, i requires 0 <= i < |nodes| => nodes[i].id)
  }

  /** The profile's node ids are distinct, as the profiler emits them. */
  ghost predicate DistinctNodes(nodes: seq<ProfileNode>) {
    Distinct(Ids(nodes))
  }

  ghost function ArcsOf(parent: int, children: seq<int>): seq<TreeArc> {
    seq(|children|, i requires 0 <= i < |children| => TreeArc(parent, children[i]))
  }

  /** One arc per listed known child, in the order of the nodes. */
  ghost function Arcs(byId: NodeMap, ids: seq<int>): seq<TreeArc> {
    if ids == [] then [] else Arcs(byId, ids[..|ids| - 1]) + ArcsOf(ids[|ids| - 1], Children(byId, ids[|ids| - 1]))
  }

  ghost function Tree(byId: NodeMap, ids: seq<int>): Network<TreeArc, int> {
    Network(ids, Arcs(byId, ids), Parent(), Child(), One())
  }

  lemma {:induction false} ArcsIn(byId: NodeMap, ids: seq<int>)
    ensures forall a :: a in Arcs(byId, ids) <==> a.parent in ids && a.child in Children(byId, a.parent)
  {
    if ids != [] {
      var init, last := ids[..|ids| - 1], ids[|ids| - 1];
      ArcsIn(byId, init);
      assert ids == init + [last];
      var own := ArcsOf(last, Children(byId, last));
      forall a
        ensures a in own <==> a.parent == last && a.child in Children(byId, last)
      {
        if a.parent == last && a.child in Children(byId, last) {
          var i :| 0 <= i < |Children(byId, last)| && Children(byId, last)[i] == a.child;
          assert own[i] == a;
        }
      }
    }
  }

  lemma {:induction false} ArcsDistinct(byId: NodeMap, ids: seq<int>)
    requires Forest(byId) && Distinct(ids)
    ensures Distinct(Arcs(byId, ids))
  {
    if ids != [] {
      var init, last := ids[..|ids| - 1], ids[|ids| - 1];
      ArcsDistinct(byId, init);
      ArcsIn(byId, init);
      assert last !in init;
      assert Distinct(Children(byId, last));
      hide Forest;
    }
  }

  lemma {:induction false} ArcsFrom(byId: NodeMap, ids: seq<int>, f: TreeArc -> real, g: int -> real, v: int)
    requires Distinct(ids) && forall a :: f(a) == g(a.child)
    ensures At(Arcs(byId, ids), Parent(), f, v) == if v in ids then Sum(Children(byId, v), g) else 0.0
  {
    if ids != [] {
      var init, last := ids[..|ids| - 1], ids[|ids| - 1];
      var own := ArcsOf(last, Children(byId, last));
      ArcsFrom(byId, init, f, g, v);
      SumConcat(Arcs(byId, init), own, Only(Parent(), f, v));
      assert ids == init + [last];
      if v == last {
        SumZip(own, Children(byId, last), Only(Parent(), f, v), g);
      } else {
        SumZero(own, Only(Parent(), f, v));
      }
    }
  }

  /** `total` is a table of subtree totals for all nodes. */
  ghost predicate SubtreeTable(byId: NodeMap, self: int -> real, total: map<int, real>) {
    total.Keys == byId.Keys && forall id :: id in byId ==> Totalled(byId, self, total, id)
  }

  lemma TreeSolves(byId: NodeMap, ids: seq<int>, self: int -> real, total: map<int, real>)
    requires Distinct(ids) && (forall id :: id in ids <==> id in byId) && SubtreeTable(byId, self, total)
    ensures Tree(byId, ids).Valid() && Tree(byId, ids).Solves(self, ValueOf(total))
  {
    var tree := Tree(byId, ids);
    ArcsIn(byId, ids);
    forall i | 0 <= i < |tree.arcs|
      ensures tree.arcs[i].parent in ids && tree.arcs[i].child in ids
    {
      assert tree.arcs[i] in tree.arcs;
      ChildrenIn(byId, tree.arcs[i].parent);
    }
    forall i | 0 <= i < |ids|
      ensures ValueOf(total)(ids[i]) == self(ids[i]) + At(tree.arcs, Parent(), tree.Drawn(ValueOf(total)), ids[i])
    {
      ArcsFrom(byId, ids, tree.Drawn(ValueOf(total)), ValueOf(total), ids[i]);
      assert Totalled(byId, self, total, ids[i]);
    }
  }

  ghost predicate HasParent(byId: NodeMap, v: int) {
    exists p :: v in Children(byId, p)
  }

  /** On a forest a node pulls the potential of its one parent. */
  lemma PullFromParent(byId: NodeMap, ids: seq<int>, phi: int -> real, v: int, p: int)
    requires Forest(byId) && Distinct(ids) && forall id :: id in ids <==> id in byId
    requires v in Children(byId, p)
    ensures Tree(byId, ids).Pull(phi)(v) == phi(p)
  {
    var tree, arc := Tree(byId, ids), TreeArc(p, v);
    ArcsIn(byId, ids);
    ArcsDistinct(byId, ids);
    assert arc in tree.arcs;
    forall i | 0 <= i < |tree.arcs| && tree.arcs[i] != arc
      ensures tree.arcs[i].child != v
    {
      assert tree.arcs[i] in tree.arcs;
    }
    hide Forest;
    SumPick(tree.arcs, arc, Only(Child(), tree.Passed(phi), v));
  }

  lemma PullWithoutParent(byId: NodeMap, ids: seq<int>, phi: int -> real, v: int)
    requires !HasParent(byId, v)
    ensures Tree(byId, ids).Pull(phi)(v) == 0.0
  {
    var tree := Tree(byId, ids);
    ArcsIn(byId, ids);
    forall i | 0 <= i < |tree.arcs|
      ensures tree.arcs[i].child != v
    {
      assert tree.arcs[i] in tree.arcs;
    }
    SumZero(tree.arcs, Only(Child(), tree.Passed(phi), v));
  }

  // ---------------------------------------------------------------- a total covers exactly the descendants

  ghost function Below(byId: NodeMap, r: int): int -> real {
    (v: int) => if Reach(ChildOf(byId), r, v) then 1.0 else 0.0
  }

  ghost function SelfBelow(byId: NodeMap, self: int -> real, r: int): int -> real {
    (v: int) => if Reach(ChildOf(byId), r, v) then self(v) else 0.0
  }

  lemma ReachedHasParent(byId: NodeMap, r: int, v: int)
    requires v != r && Reach(ChildOf(byId), r, v)
    ensures HasParent(byId, v)
  {
    var w := ReachLast(ChildOf(byId), r, v);
  }

  lemma BelowPull(byId: NodeMap, ids: seq<int>, r: int, v: int)
    requires Forest(byId) && Distinct(ids) && forall id :: id in ids <==> id in byId
    ensures Below(byId, r)(v) == Tree(byId, ids).Pull(Below(byId, r))(v) + if v == r then 1.0 else 0.0
  {
    hide Reach, Children;
    ReachRefl(ChildOf(byId), r);
    if p :| v in Children(byId, p) {
      PullFromParent(byId, ids, Below(byId, r), v, p);
      if v != r {
        if Reach(ChildOf(byId), r, v) {
          var w := ReachLast(ChildOf(byId), r, v);
          assert w == p;
        }
        if Reach(ChildOf(byId), r, p) {
          ReachStep(ChildOf(byId), p, v);
          ReachTrans(ChildOf(byId), r, p, v);
        }
      }
    } else {
      PullWithoutParent(byId, ids, Below(byId, r), v);
      if v != r && Reach(ChildOf(byId), r, v) {
        ReachedHasParent(byId, r, v);
      }
    }
  }

  /** On a forest, a subtree total is the sum of the samples of the node and all its descendants. */
  lemma TotalOfDescendants(nodes: seq<ProfileNode>, self: int -> real, total: map<int, real>, r: int)
    requires DistinctNodes(nodes) && Forest(ById(nodes)) && SubtreeTable(ById(nodes), self, total) && r in total
    ensures total[r] == Sum(Ids(nodes), SelfBelow(ById(nodes), self, r))
  {
    var byId, ids, x := ById(nodes), Ids(nodes), ValueOf(total);
    var phi, ofR := Below(byId, r), (v: int) => if v == r then x(v) else 0.0;
    IdsAreKeys(nodes);
    TreeSolves(byId, ids, self, total);
    TreeNodes(byId, ids);
    LookupAt(total, r);
    hide *;
    forall v
      ensures Mul(phi(v), x(v)) == Mul(Tree(byId, ids).Pull(phi)(v), x(v)) + ofR(v)
    {
      BelowTimes(byId, ids, r, v, x);
    }
    Tree(byId, ids).PotentialLaw(self, x, phi, ofR);
    SumPick(ids, r, ofR);
    BelowSum(byId, ids, r, self);
  }

  lemma BelowSum(byId: NodeMap, ids: seq<int>, r: int, self: int -> real)
    ensures Sum(ids, Times(Below(byId, r), self)) == Sum(ids, SelfBelow(byId, self, r))
  {
    hide Reach;
    forall v
      ensures Times(Below(byId, r), self)(v) == SelfBelow(byId, self, r)(v)
    {
      hide Mul;
      Weigh(Below(byId, r)(v), 0.0, Reach(ChildOf(byId), r, v), self(v));
    }
    SumCong(ids, Times(Below(byId, r), self), SelfBelow(byId, self, r));
  }

  lemma TreeNodes(byId: NodeMap, ids: seq<int>)
    ensures Tree(byId, ids).nodes == ids
  {
  }

  lemma LookupAt(m: map<int, real>, id: int)
    requires id in m
    ensures ValueOf(m)(id) == m[id]
  {
  }

  lemma BelowTimes(byId: NodeMap, ids: seq<int>, r: int, v: int, x: int -> real)
    requires Forest(byId) && Distinct(ids) && forall id :: id in ids <==> id in byId
    ensures Mul(Below(byId, r)(v), x(v))
      == Mul(Tree(byId, ids).Pull(Below(byId, r))(v), x(v)) + if v == r then x(v) else 0.0
  {
    var phi, pulled := Below(byId, r), Tree(byId, ids).Pull(Below(byId, r));
    BelowPull(byId, ids, r, v);
    hide Tree, Forest, Reach, Network<TreeArc, int>.Pull, Mul;
    Weigh(phi(v), pulled(v), v == r, x(v));
  }

  /** A weight that is another weight, plus one in one case, spread over a value. */
  lemma Weigh(a: real, b: real, more: bool, x: real)
    requires a == b + if more then 1.0 else 0.0
    ensures Mul(a, x) == Mul(b, x) + if more then x else 0.0
  {
  }

  lemma IdsAreKeys(nodes: seq<ProfileNode>)
    ensures forall id :: id in Ids(nodes) <==> id in ById(nodes)
  {
    ByIdKeys(nodes);
    forall id
      ensures id in Ids(nodes) <==> id in ById(nodes)
    {
      if id in ById(nodes) {
        var k :| 0 <= k < |nodes| && nodes[k].id == id;
        assert Ids(nodes)[k] == id;
      }
    }
  }

  // ---------------------------------------------------------------- totals of roots and of call edges

  ghost function OnRoots(byId: NodeMap, x: int -> real): int -> real {
    (v: int) => if HasParent(byId, v) then 0.0 else x(v)
  }

  ghost function OnChildren(byId: NodeMap, x: int -> real): int -> real {
    (v: int) => if HasParent(byId, v) then x(v) else 0.0
  }

  ghost function Unit(): int -> real {
    (v: int) => 1.0
  }

  lemma UnitPull(byId: NodeMap, ids: seq<int>, v: int)
    requires Forest(byId) && Distinct(ids) && forall id :: id in ids <==> id in byId
    ensures Tree(byId, ids).Pull(Unit())(v) == if HasParent(byId, v) then 1.0 else 0.0
  {
    hide Children;
    if p :| v in Children(byId, p) {
      PullFromParent(byId, ids, Unit(), v, p);
    } else {
      PullWithoutParent(byId, ids, Unit(), v);
    }
  }

  lemma UnitBalance(byId: NodeMap, ids: seq<int>, x: int -> real, v: int)
    requires Forest(byId) && Distinct(ids) && forall id :: id in ids <==> id in byId
    ensures Mul(Unit()(v), x(v)) == Mul(Tree(byId, ids).Pull(Unit())(v), x(v)) + OnRoots(byId, x)(v)
  {
    UnitPull(byId, ids, v);
    hide Tree, Forest, HasParent, Network<TreeArc, int>.Pull;
  }

  lemma UnitWeight(ids: seq<int>, self: int -> real)
    ensures Sum(ids, Times(Unit(), self)) == Sum(ids, self)
  {
    SumCong(ids, Times(Unit(), self), self);
  }

  /** The totals of the roots of a forest add up to all samples on its nodes. */
  lemma RootTotals(nodes: seq<ProfileNode>, self: int -> real, total: map<int, real>)
    requires DistinctNodes(nodes) && Forest(ById(nodes)) && SubtreeTable(ById(nodes), self, total)
    ensures Sum(Ids(nodes), OnRoots(ById(nodes), ValueOf(total))) == Sum(Ids(nodes), self)
  {
    var byId, ids, x := ById(nodes), Ids(nodes), ValueOf(total);
    assert Distinct(ids);
    hide *;
    IdsAreKeys(nodes);
    TreeSolves(byId, ids, self, total);
    TreeNodes(byId, ids);
    UnitWeight(ids, self);
    forall v {
      UnitBalance(byId, ids, x, v);
    }
    Tree(byId, ids).PotentialLaw(self, x, Unit(), OnRoots(byId, x));
  }

  /** `depth` counts the callers above each node: zero at the roots, one more at each child. */
  ghost predicate IsDepth(byId: NodeMap, depth: int -> real) {
    && (forall v :: !HasParent(byId, v) ==> depth(v) == 0.0)
    && (forall p, c :: c in Children(byId, p) ==> depth(c) == depth(p) + 1.0)
  }

  /** The nodes above a node: its caller, its caller's caller, and so on. */
  ghost function CallersAbove(byId: NodeMap, v: int): set<int> {
    set u | u in byId.Keys && u != v && Reach(ChildOf(byId), u, v)
  }

  ghost function Depth(byId: NodeMap): int -> real {
    (v: int) => |CallersAbove(byId, v)| as real
  }

  lemma NoneAboveRoot(byId: NodeMap, v: int)
    requires !HasParent(byId, v)
    ensures CallersAbove(byId, v) == {}
  {
    forall u | u in CallersAbove(byId, v)
      ensures false
    {
      var w := ReachLast(ChildOf(byId), u, v);
    }
    hide Reach;
  }

  /** Above a child are its one parent and everything above the parent. */
  lemma AboveChild(byId: NodeMap, p: int, c: int)
    requires Forest(byId) && c in Children(byId, p)
    ensures p !in CallersAbove(byId, p) && CallersAbove(byId, c) == CallersAbove(byId, p) + {p}
  {
    assert p in byId && !Reach(ChildOf(byId), c, p);
    ReachStep(ChildOf(byId), p, c);
    forall u
      ensures u in CallersAbove(byId, c) <==> u in CallersAbove(byId, p) + {p}
    {
      if u in CallersAbove(byId, c) {
        var w := ReachLast(ChildOf(byId), u, c);
        assert c in Children(byId, w);
      }
      if u in CallersAbove(byId, p) {
        ReachTrans(ChildOf(byId), u, p, c);
      }
      if u == p {
        ReachRefl(ChildOf(byId), p);
      }
    }
    hide Reach, Children;
  }

  /** Every forest has a depth: the number of callers above each node. */
  lemma ForestDepth(byId: NodeMap)
    requires Forest(byId)
    ensures IsDepth(byId, Depth(byId))
  {
    forall v | !HasParent(byId, v)
      ensures Depth(byId)(v) == 0.0
    {
      NoneAboveRoot(byId, v);
    }
    forall p, c | c in Children(byId, p)
      ensures Depth(byId)(c) == Depth(byId)(p) + 1.0
    {
      AboveChild(byId, p, c);
    }
    hide Forest, Children, HasParent;
  }

  ghost function ChildTotal(total: map<int, real>): TreeArc -> real {
    (a: TreeArc) => if a.child in total then total[a.child] else 0.0
  }

  lemma DepthPull(byId: NodeMap, ids: seq<int>, depth: int -> real, v: int)
    requires Forest(byId) && Distinct(ids) && IsDepth(byId, depth) && forall id :: id in ids <==> id in byId
    ensures depth(v) == Tree(byId, ids).Pull(depth)(v) + if HasParent(byId, v) then 1.0 else 0.0
  {
    hide Children;
    if p :| v in Children(byId, p) {
      PullFromParent(byId, ids, depth, v, p);
    } else {
      PullWithoutParent(byId, ids, depth, v);
    }
  }

  lemma DepthBalance(byId: NodeMap, ids: seq<int>, depth: int -> real, x: int -> real, v: int)
    requires Forest(byId) && Distinct(ids) && IsDepth(byId, depth) && forall id :: id in ids <==> id in byId
    ensures Mul(depth(v), x(v)) == Mul(Tree(byId, ids).Pull(depth)(v), x(v)) + OnChildren(byId, x)(v)
  {
    DepthPull(byId, ids, depth, v);
    hide Tree, Forest, HasParent, IsDepth, Network<TreeArc, int>.Pull, Mul;
    Weigh(depth(v), Tree(byId, ids).Pull(depth)(v), HasParent(byId, v), x(v));
  }

  /** The weights of all call edges add up to the samples of each node counted once per caller above it. */
  lemma EdgeTotals(nodes: seq<ProfileNode>, self: int -> real, total: map<int, real>, depth: int -> real)
    requires DistinctNodes(nodes) && Forest(ById(nodes)) && SubtreeTable(ById(nodes), self, total)
    requires IsDepth(ById(nodes), depth)
    ensures Sum(Arcs(ById(nodes), Ids(nodes)), ChildTotal(total)) == Sum(Ids(nodes), Times(depth, self))
  {
    var byId, ids, x := ById(nodes), Ids(nodes), ValueOf(total);
    assert Distinct(ids);
    hide *;
    IdsAreKeys(nodes);
    TreeSolves(byId, ids, self, total);
    TreeNodes(byId, ids);
    ArcsByChild(byId, ids, total);
    forall v {
      DepthBalance(byId, ids, depth, x, v);
    }
    Tree(byId, ids).PotentialLaw(self, x, depth, OnChildren(byId, x));
  }

  lemma ChildTotalAt(byId: NodeMap, ids: seq<int>, total: map<int, real>, v: int)
    requires Forest(byId) && Distinct(ids) && forall id :: id in ids <==> id in byId
    ensures OnChildren(byId, ValueOf(total))(v) == At(Tree(byId, ids).arcs, Child(), ChildTotal(total), v)
  {
    hide Forest, HasParent, Arcs, At;
    var tree := Tree(byId, ids);
    UnitPull(byId, ids, v);
    AtScale(tree.arcs, Child(), ValueOf(total)(v), tree.Passed(Unit()), ChildTotal(total), v);
    assert tree.Pull(Unit())(v) == At(tree.arcs, Child(), tree.Passed(Unit()), v);
    hide Tree, ValueOf;
  }

  /** Summing child totals over the arcs is summing the totals of the nodes that have a parent. */
  lemma ArcsByChild(byId: NodeMap, ids: seq<int>, total: map<int, real>)
    requires Forest(byId) && Distinct(ids) && forall id :: id in ids <==> id in byId
    ensures Sum(Arcs(byId, ids), ChildTotal(total)) == Sum(ids, OnChildren(byId, ValueOf(total)))
  {
    var tree := Tree(byId, ids);
    forall i | 0 <= i < |tree.arcs|
      ensures tree.arcs[i].child in ids
    {
      ArcsIn(byId, ids);
      assert tree.arcs[i] in tree.arcs;
      ChildrenIn(byId, tree.arcs[i].parent);
    }
    hide Forest, Children;
    forall i | 0 <= i < |ids|
      ensures OnChildren(byId, ValueOf(total))(ids[i]) == At(tree.arcs, Child(), ChildTotal(total), ids[i])
    {
      ChildTotalAt(byId, ids, total, ids[i]);
    }
    hide OnChildren, ChildTotal, At, Tree, Arcs;
    SumByKey(ids, tree.arcs, Child(), ChildTotal(total), OnChildren(byId, ValueOf(total)));
  }
}
