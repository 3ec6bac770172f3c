/** The call tree of a CPU profile: sample counts per node and per subtree, and the call edges they weigh. */
module CallTree {
  import opened Sums
  import opened Graphs
  import opened Tallies

  datatype CallFrame = CallFrame(functionName: string, url: string, lineNumber: int, columnNumber: int)

  /** A profile node as decoded; an absent hit count reads as zero and absent children as none. */
  datatype ProfileNode = ProfileNode(id: int, callFrame: CallFrame, hitCount: real, children: seq<int>)

  /** A profile as decoded; absent samples and time deltas read as none. */
  datatype Profile = Profile(nodes: seq<ProfileNode>, samples: seq<int>, timeDeltas: seq<real>)

  type NodeMap = map<int, ProfileNode>

  /** The nodes by id; a later node replaces an earlier one with the same id. */
  function ById(nodes: seq<ProfileNode>): NodeMap {
    if nodes == [] then map[] else ById(nodes[..|nodes| - 1])[nodes[|nodes| - 1].id := nodes[|nodes| - 1]]
  }

  /** Those children of a node that are nodes of the profile. */
  function KnownChildren(byId: NodeMap, children: seq<int>): seq<int> {
    if children == [] then [] else
      KnownChildren(byId, children[..|children| - 1]) +
      if children[|children| - 1] in byId then [children[|children| - 1]] else []
  }

  function Children(byId: NodeMap, id: int): seq<int> {
    if id in byId then KnownChildren(byId, byId[id].children) else []
  }

  lemma {:induction false} KnownChildrenIn(byId: NodeMap, children: seq<int>)
    ensures forall c :: c in KnownChildren(byId, children) <==> c in children && c in byId
  {
    if children != [] {
      KnownChildrenIn(byId, children[..|children| - 1]);
      assert children == children[..|children| - 1] + [children[|children| - 1]];
    }
  }

  ghost function ChildOf(byId: NodeMap): (int, int) -> bool {
    (p: int, c: int) => c in Children(byId, p)
  }

  /** No node has two parents or appears twice under one, and none lies below itself. */
  ghost predicate Forest(byId: NodeMap) {
    && (forall p, q, c :: c in Children(byId, p) && c in Children(byId, q) ==> p == q)
    && (forall p :: Distinct(Children(byId, p)))
    && (forall p, c :: c in Children(byId, p) ==> !Reach(ChildOf(byId), c, p))
  }

  /** `total` holds, for a node, its own samples plus its children's totals. */
  ghost predicate Totalled(byId: NodeMap, self: int -> real, total: map<int, real>, id: int) {
    && (forall c :: c in Children(byId, id) ==> c in total)
    && id in total && total[id] == self(id) + Sum(Children(byId, id), ValueOf(total))
  }

  /** Writing the total of a node that was not totalled before leaves the others totalled. */
  lemma StaysTotalled(byId: NodeMap, self: int -> real, total: map<int, real>, id: int, id': int, amount: real)
    requires Totalled(byId, self, total, id) && id' !in total
    ensures Totalled(byId, self, total[id' := amount], id)
  {
    forall i | 0 <= i < |Children(byId, id)|
      ensures ValueOf(total)(Children(byId, id)[i]) == ValueOf(total[id' := amount])(Children(byId, id)[i])
    {
      assert Children(byId, id)[i] in Children(byId, id);
    }
    SumCong(Children(byId, id), ValueOf(total), ValueOf(total[id' := amount]));
  }

  // ---------------------------------------------------------------- the subtree pass

  /** The node at position `j` was pushed by its parent, further down the stack. */
  ghost predicate Pushed(byId: NodeMap, stack: seq<int>, j: nat)
    requires j < |stack|
  {
    exists i :: 0 <= i < j && stack[j] in Children(byId, stack[i])
  }

  /** The stack of a pass over a forest: a chain of pushes below its root, none of it totalled yet. */
  ghost predicate StackOk(byId: NodeMap, stack: seq<int>, onStack: set<int>, total: map<int, real>) {
    && Distinct(stack)
    && (forall i :: 0 <= i < |stack| ==> stack[i] in onStack && stack[i] in byId && stack[i] !in total)
    && (forall id :: id in onStack ==> id in stack)
    && (forall j :: 0 < j < |stack| ==> Pushed(byId, stack, j))
    && (forall j :: 0 <= j < |stack| ==> Reach(ChildOf(byId), stack[0], stack[j]))
  }

  /** On a forest, a child of the top node that is not pending has been totalled. */
  lemma ChildrenTotalled(byId: NodeMap, stack: seq<int>, onStack: set<int>, total: map<int, real>)
    requires Forest(byId) && StackOk(byId, stack, onStack, total) && stack != []
    requires forall c :: c in Children(byId, stack[|stack| - 1]) ==> c in total || c in onStack
    ensures forall c :: c in Children(byId, stack[|stack| - 1]) ==> c in total
  {
    hide Reach, Forest, Children, Pushed;
    forall j | 0 <= j < |stack|
      ensures stack[j] !in Children(byId, stack[|stack| - 1])
    {
      NotBelowTop(byId, stack, j);
    }
  }

  lemma NotBelowTop(byId: NodeMap, stack: seq<int>, j: nat)
    requires Forest(byId) && Distinct(stack) && j < |stack|
    requires j > 0 ==> Pushed(byId, stack, j)
    requires Reach(ChildOf(byId), stack[0], stack[|stack| - 1])
    ensures stack[j] !in Children(byId, stack[|stack| - 1])
  {
    var top := stack[|stack| - 1];
    if j == 0 {
      assert Reach(ChildOf(byId), stack[j], top);
      assert stack[j] !in Children(byId, top);
    } else {
      var i :| 0 <= i < j && stack[j] in Children(byId, stack[i]);
      assert stack[i] != top;
      assert stack[j] !in Children(byId, top);
    }
  }

  lemma PushOk(byId: NodeMap, stack: seq<int>, onStack: set<int>, total: map<int, real>, child: int, k: nat)
    requires StackOk(byId, stack, onStack, total) && k < |stack|
    requires child in Children(byId, stack[k]) && child in byId && child !in total && child !in onStack
    ensures StackOk(byId, stack + [child], onStack + {child}, total)
  {
    var next := stack + [child];
    ReachStep(ChildOf(byId), stack[k], child);
    ReachTrans(ChildOf(byId), stack[0], stack[k], child);
    hide Reach, Children;
    assert next[|stack|] == child && next[k] == stack[k];
    assert Pushed(byId, next, |stack|);
    forall j | 0 < j < |stack|
      ensures Pushed(byId, next, j)
    {
      PushedStays(byId, stack, child, j);
    }
    hide Pushed;
  }

  lemma PushedStays(byId: NodeMap, stack: seq<int>, child: int, j: nat)
    requires j < |stack| && Pushed(byId, stack, j)
    ensures Pushed(byId, stack + [child], j)
  {
    var i :| 0 <= i < j && stack[j] in Children(byId, stack[i]);
    assert (stack + [child])[i] == stack[i];
  }

  lemma PopOk(byId: NodeMap, stack: seq<int>, onStack: set<int>, total: map<int, real>, amount: real)
    requires StackOk(byId, stack, onStack, total) && stack != []
    ensures var id := stack[|stack| - 1];
      StackOk(byId, stack[..|stack| - 1], onStack - {id}, total[id := amount])
  {
    hide Reach, Children;
    var rest := stack[..|stack| - 1];
    forall j | 0 < j < |rest|
      ensures Pushed(byId, rest, j)
    {
      assert Pushed(byId, stack, j);
      var i :| 0 <= i < j && stack[j] in Children(byId, stack[i]);
      assert rest[i] == stack[i];
    }
    hide Pushed;
  }

  /** The children that are neither totalled nor on the stack, in order. */
  function Pending(children: seq<int>, total: map<int, real>, onStack: set<int>): (pending: seq<int>)
    ensures forall c :: c in pending <==> c in children && c !in total && c !in onStack
  {
    if children == [] then [] else
      assert children == children[..|children| - 1] + [children[|children| - 1]];
      Pending(children[..|children| - 1], total, onStack) +
      if children[|children| - 1] in total || children[|children| - 1] in onStack
      then [] else [children[|children| - 1]]
  }

  lemma {:induction false} PendingDistinct(children: seq<int>, total: map<int, real>, onStack: set<int>)
    requires Distinct(children)
    ensures Distinct(Pending(children, total, onStack))
  {
    if children != [] {
      PendingDistinct(children[..|children| - 1], total, onStack);
    }
  }

  lemma ChildrenIn(byId: NodeMap, id: int)
    ensures forall c :: c in Children(byId, id) ==> c in byId
  {
    if id in byId {
      KnownChildrenIn(byId, byId[id].children);
    }
  }

  lemma PendingFresh(byId: NodeMap, id: int, total: map<int, real>, onStack: set<int>)
    ensures var pending := Pending(Children(byId, id), total, onStack);
      forall i :: 0 <= i < |pending| ==>
        pending[i] in pending && pending[i] in byId && pending[i] !in total && pending[i] !in onStack
  {
    ChildrenIn(byId, id);
    var pending := Pending(Children(byId, id), total, onStack);
    forall i | 0 <= i < |pending|
      ensures pending[i] in pending && pending[i] in byId && pending[i] !in total && pending[i] !in onStack
    {
      var c := pending[i];
      assert c in pending;
      assert c in Children(byId, id);
    }
  }

  ghost function FreshPending(byId: NodeMap, id: int, total: map<int, real>, onStack: set<int>): (pending: seq<int>)
    ensures pending == Pending(Children(byId, id), total, onStack)
    ensures forall i :: 0 <= i < |pending| ==>
      pending[i] in pending && pending[i] in byId && pending[i] !in total && pending[i] !in onStack
  {
    PendingFresh(byId, id, total, onStack);
    Pending(Children(byId, id), total, onStack)
  }

  ghost function SetOf(s: seq<int>): set<int> {
    set c | c in s
  }

  /** The nodes that are neither totalled nor pending. */
  ghost function Unseen(byId: NodeMap, total: map<int, real>, onStack: set<int>): set<int> {
    byId.Keys - total.Keys - onStack
  }

  /** What a pass needs of its stack: known nodes, each pending or totalled. */
  ghost predicate Stacked(byId: NodeMap, stack: seq<int>, onStack: set<int>, total: map<int, real>) {
    forall i :: 0 <= i < |stack| ==> stack[i] in byId && (stack[i] in onStack || stack[i] in total)
  }

  /** A node's samples and the totals its children have so far. */
  ghost function TotalAt(byId: NodeMap, self: int -> real, total: map<int, real>, id: int): real {
    self(id) + Sum(Children(byId, id), ValueOf(total))
  }

  /**
   * The pass as a function of its state, on any input: push the pending children of the top node, or
   * total it. Every push takes a node that is neither totalled nor stacked, so the pass ends.
   */
  ghost function Run(byId: NodeMap, self: int -> real, stack: seq<int>, onStack: set<int>,
                     total: map<int, real>): map<int, real>
    requires Stacked(byId, stack, onStack, total)
    decreases Unseen(byId, total, onStack), |stack|
  {
    if stack == [] then total else
      var id := stack[|stack| - 1];
      var pending := FreshPending(byId, id, total, onStack);
      if pending != [] then
        assert pending[0] in Unseen(byId, total, onStack);
        assert pending[0] !in Unseen(byId, total, onStack + SetOf(pending));
        Run(byId, self, stack + pending, onStack + SetOf(pending), total)
      else
        Run(byId, self, stack[..|stack| - 1], onStack - {id}, total[id := TotalAt(byId, self, total, id)])
  }

  lemma RunPush(byId: NodeMap, self: int -> real, stack: seq<int>, onStack: set<int>, total: map<int, real>)
    requires Stacked(byId, stack, onStack, total)
    requires stack != [] && Pending(Children(byId, stack[|stack| - 1]), total, onStack) != []
    ensures var pending := Pending(Children(byId, stack[|stack| - 1]), total, onStack);
      var onStack' := onStack + SetOf(pending);
      && Stacked(byId, stack + pending, onStack', total)
      && Run(byId, self, stack, onStack, total) == Run(byId, self, stack + pending, onStack', total)
      && Unseen(byId, total, onStack') < Unseen(byId, total, onStack)
  {
    PendingFresh(byId, stack[|stack| - 1], total, onStack);
    var pending := Pending(Children(byId, stack[|stack| - 1]), total, onStack);
    assert pending[0] in Unseen(byId, total, onStack);
  }

  lemma RunFinish(byId: NodeMap, self: int -> real, stack: seq<int>, onStack: set<int>, total: map<int, real>,
                  sum: real)
    requires Stacked(byId, stack, onStack, total)
    requires stack != [] && Pending(Children(byId, stack[|stack| - 1]), total, onStack) == []
    requires sum == TotalAt(byId, self, total, stack[|stack| - 1])
    ensures var id := stack[|stack| - 1]; var rest := stack[..|stack| - 1];
      var next := total[id := sum];
      && Stacked(byId, rest, onStack - {id}, next)
      && Run(byId, self, stack, onStack, total) == Run(byId, self, rest, onStack - {id}, next)
      && Unseen(byId, next, onStack - {id}) == Unseen(byId, total, onStack)
  {
    hide Children, Pending, TotalAt;
  }

  lemma RunDone(byId: NodeMap, self: int -> real, onStack: set<int>, total: map<int, real>)
    ensures Stacked(byId, [], onStack, total) && Run(byId, self, [], onStack, total) == total
  {
  }

  /** The passes from all roots that have no total yet, in node order. */
  ghost function RunAll(byId: NodeMap, self: int -> real, nodes: seq<ProfileNode>): map<int, real> {
    if nodes == [] then map[] else
      var total := RunAll(byId, self, nodes[..|nodes| - 1]);
      var root := nodes[|nodes| - 1].id;
      if root in total || root !in byId then total else Run(byId, self, [root], {root}, total)
  }

  /** Only the values of the sample counts matter. */
  lemma {:induction false} RunCong(byId: NodeMap, self: int -> real, self': int -> real, stack: seq<int>,
                                   onStack: set<int>, total: map<int, real>)
    requires Stacked(byId, stack, onStack, total) && forall id :: self(id) == self'(id)
    ensures Run(byId, self, stack, onStack, total) == Run(byId, self', stack, onStack, total)
    decreases Unseen(byId, total, onStack), |stack|
  {
    if stack == [] {
      return;
    }
    var id := stack[|stack| - 1];
    var pending := Pending(Children(byId, id), total, onStack);
    if pending != [] {
      RunPush(byId, self, stack, onStack, total);
      RunPush(byId, self', stack, onStack, total);
      hide *;
      RunCong(byId, self, self', stack + pending, onStack + SetOf(pending), total);
    } else {
      RunFinish(byId, self, stack, onStack, total, TotalAt(byId, self, total, id));
      RunFinish(byId, self', stack, onStack, total, TotalAt(byId, self', total, id));
      SameTotalAt(byId, self, self', total, id);
      hide *;
      RunCong(byId, self, self', stack[..|stack| - 1], onStack - {id}, total[id := TotalAt(byId, self, total, id)]);
    }
  }

  lemma SameTotalAt(byId: NodeMap, self: int -> real, self': int -> real, total: map<int, real>, id: int)
    requires self(id) == self'(id)
    ensures TotalAt(byId, self, total, id) == TotalAt(byId, self', total, id)
  {
  }

  lemma {:induction false} RunAllCong(byId: NodeMap, self: int -> real, self': int -> real, nodes: seq<ProfileNode>)
    requires forall id :: self(id) == self'(id)
    ensures RunAll(byId, self, nodes) == RunAll(byId, self', nodes)
  {
    hide Run;
    if nodes != [] {
      var init, root := nodes[..|nodes| - 1], nodes[|nodes| - 1].id;
      RunAllCong(byId, self, self', init);
      var total := RunAll(byId, self, init);
      if root !in total && root in byId {
        RunCong(byId, self, self', [root], {root}, total);
      }
    }
  }

  // ---------------------------------------------------------------- what a pass computes

  /** A pass keeps the totals it finds and adds the bottom of its stack, all of them known nodes. */
  lemma {:induction false} RunKeys(byId: NodeMap, self: int -> real, stack: seq<int>, onStack: set<int>,
                                   total: map<int, real>)
    requires Stacked(byId, stack, onStack, total) && total.Keys <= byId.Keys
    ensures total.Keys <= Run(byId, self, stack, onStack, total).Keys <= byId.Keys
    ensures stack != [] ==> stack[0] in Run(byId, self, stack, onStack, total)
    decreases Unseen(byId, total, onStack), |stack|
  {
    if stack == [] {
      return;
    }
    var id := stack[|stack| - 1];
    assert id in byId;
    var pending := Pending(Children(byId, id), total, onStack);
    if pending != [] {
      RunPush(byId, self, stack, onStack, total);
      hide *;
      RunKeys(byId, self, stack + pending, onStack + SetOf(pending), total);
      assert (stack + pending)[0] == stack[0];
    } else {
      RunFinish(byId, self, stack, onStack, total, TotalAt(byId, self, total, id));
      hide *;
      RunKeys(byId, self, stack[..|stack| - 1], onStack - {id}, total[id := TotalAt(byId, self, total, id)]);
    }
  }

  /** Over a forest, a pass that finds finished nodes totalled leaves them and all nodes it finishes totalled. */
  lemma {:induction false} RunTotals(byId: NodeMap, self: int -> real, stack: seq<int>, onStack: set<int>,
                                     total: map<int, real>)
    requires Forest(byId) && Stacked(byId, stack, onStack, total) && StackOk(byId, stack, onStack, total)
    requires AllTotalled(byId, self, total)
    ensures AllTotalled(byId, self, Run(byId, self, stack, onStack, total))
    decreases Unseen(byId, total, onStack), |stack|
  {
    if stack == [] {
      return;
    }
    var id := stack[|stack| - 1];
    var pending := Pending(Children(byId, id), total, onStack);
    if pending != [] {
      RunPush(byId, self, stack, onStack, total);
      PushPendingOk(byId, stack, onStack, total);
      hide *;
      RunTotals(byId, self, stack + pending, onStack + SetOf(pending), total);
    } else {
      RunFinish(byId, self, stack, onStack, total, TotalAt(byId, self, total, id));
      FinishOk(byId, self, total, stack, onStack);
      hide *;
      RunTotals(byId, self, stack[..|stack| - 1], onStack - {id}, total[id := TotalAt(byId, self, total, id)]);
    }
  }

  /** From non-negative samples and totals a pass makes non-negative totals. */
  lemma {:induction false} RunNonNegative(byId: NodeMap, self: int -> real, stack: seq<int>, onStack: set<int>,
                                          total: map<int, real>)
    requires Stacked(byId, stack, onStack, total) && (forall id :: self(id) >= 0.0) && NoneNegative(total)
    ensures NoneNegative(Run(byId, self, stack, onStack, total))
    decreases Unseen(byId, total, onStack), |stack|
  {
    if stack == [] {
      return;
    }
    var id := stack[|stack| - 1];
    var pending := Pending(Children(byId, id), total, onStack);
    if pending != [] {
      RunPush(byId, self, stack, onStack, total);
      hide *;
      RunNonNegative(byId, self, stack + pending, onStack + SetOf(pending), total);
    } else {
      RunFinish(byId, self, stack, onStack, total, TotalAt(byId, self, total, id));
      TotalNonNegative(byId, self, total, id);
      hide *;
      RunNonNegative(byId, self, stack[..|stack| - 1], onStack - {id}, total[id := TotalAt(byId, self, total, id)]);
    }
  }

  lemma TotalNonNegative(byId: NodeMap, self: int -> real, total: map<int, real>, id: int)
    requires self(id) >= 0.0 && NoneNegative(total)
    ensures NoneNegative(total[id := TotalAt(byId, self, total, id)])
  {
    forall c
      ensures ValueOf(total)(c) >= 0.0
    {
      assert GetOrZero(total, c) >= 0.0;
    }
    SumNonneg(Children(byId, id), ValueOf(total));
  }

  ghost predicate NoneNegative(total: map<int, real>) {
    forall id :: id in total ==> total[id] >= 0.0
  }

  lemma {:induction false} RunAllNonNegative(byId: NodeMap, self: int -> real, nodes: seq<ProfileNode>)
    requires forall id :: self(id) >= 0.0
    ensures NoneNegative(RunAll(byId, self, nodes))
  {
    hide Run;
    if nodes != [] {
      var init, root := nodes[..|nodes| - 1], nodes[|nodes| - 1].id;
      RunAllNonNegative(byId, self, init);
      var total := RunAll(byId, self, init);
      if root !in total && root in byId {
        RunNonNegative(byId, self, [root], {root}, total);
      }
    }
  }

  ghost predicate AllTotalled(byId: NodeMap, self: int -> real, total: map<int, real>) {
    forall id :: id in total ==> Totalled(byId, self, total, id)
  }

  /** All passes together: every node gets a total, and over a forest it is the right one. */
  lemma {:induction false} RunAllTotals(byId: NodeMap, self: int -> real, nodes: seq<ProfileNode>)
    ensures RunAll(byId, self, nodes).Keys <= byId.Keys
    ensures forall k :: 0 <= k < |nodes| && nodes[k].id in byId ==> nodes[k].id in RunAll(byId, self, nodes)
    ensures Forest(byId) ==> AllTotalled(byId, self, RunAll(byId, self, nodes))
  {
    hide Run, Forest, StackOk, Totalled;
    if nodes != [] {
      var init, root := nodes[..|nodes| - 1], nodes[|nodes| - 1].id;
      RunAllTotals(byId, self, init);
      var total := RunAll(byId, self, init);
      if root !in total && root in byId {
        RunKeys(byId, self, [root], {root}, total);
        if Forest(byId) {
          RootOk(byId, root, total);
          RunTotals(byId, self, [root], {root}, total);
        }
      }
    }
  }

  // ---------------------------------------------------------------- the pass with its explicit stack

  /** Pushes the pending children of the top node. */
  method PushPending(stack: seq<int>, onStack: set<int>, pending: seq<int>)
      returns (newStack: seq<int>, newOnStack: set<int>)
    ensures newStack == stack + pending
    ensures newOnStack == onStack + SetOf(pending)
  {
    newStack, newOnStack := stack, onStack;
    for k := 0 to |pending|
      invariant newStack == stack + pending[..k]
      invariant newOnStack == onStack + SetOf(pending[..k])
    {
      newOnStack := newOnStack + {pending[k]};
      newStack := newStack + [pending[k]];
      assert pending[..k + 1] == pending[..k] + [pending[k]];
    }
    assert pending[..|pending|] == pending;
  }

  /**
   * Every profile node gets a total, on every input. On a forest each total is the node's own samples
   * plus its children's totals.
   */
  method SubtreeSamples(nodes: seq<ProfileNode>, self: map<int, real>) returns (subtree: map<int, real>)
    ensures subtree.Keys == ById(nodes).Keys && subtree == RunAll(ById(nodes), ValueOf(self), nodes)
    ensures Forest(ById(nodes)) ==> forall id :: id in subtree ==> Totalled(ById(nodes), ValueOf(self), subtree, id)
  {
    var byId := ById(nodes);
    hide Forest, Totalled, Run, ById;
    subtree := map[];
    for r := 0 to |nodes|
      invariant subtree == RunAll(byId, ValueOf(self), nodes[..r])
    {
      var root := nodes[r].id;
      assert nodes[..r + 1][..r] == nodes[..r];
      ByIdKeys(nodes);
      if root in subtree {
        continue;
      }
      subtree := TotalFrom(byId, self, subtree, root);
    }
    assert nodes[..|nodes|] == nodes;
    AllNodesTotalled(nodes, ValueOf(self));
    RunAllTotals(byId, ValueOf(self), nodes);
  }

  lemma AllNodesTotalled(nodes: seq<ProfileNode>, self: int -> real)
    ensures RunAll(ById(nodes), self, nodes).Keys == ById(nodes).Keys
  {
    var total := RunAll(ById(nodes), self, nodes);
    RunAllTotals(ById(nodes), self, nodes);
    ByIdKeys(nodes);
    hide *;
    forall id | id in ById(nodes)
      ensures id in total
    {
      var k :| 0 <= k < |nodes| && nodes[k].id == id;
    }
  }

  lemma {:induction false} ByIdKeys(nodes: seq<ProfileNode>)
    ensures forall id :: id in ById(nodes) <==> exists k :: 0 <= k < |nodes| && nodes[k].id == id
    ensures forall id :: id in ById(nodes) ==> ById(nodes)[id] in nodes && ById(nodes)[id].id == id
  {
    if nodes != [] {
      ByIdKeys(nodes[..|nodes| - 1]);
      assert nodes == nodes[..|nodes| - 1] + [nodes[|nodes| - 1]];
    }
  }

  /** A node's own samples and its children's totals. */
  method AddTotals(self: map<int, real>, subtree: map<int, real>, id: int, children: seq<int>) returns (sum: real)
    ensures sum == ValueOf(self)(id) + Sum(children, ValueOf(subtree))
  {
    sum := GetOrZero(self, id);
    for k := 0 to |children|
      invariant sum == ValueOf(self)(id) + Sum(children[..k], ValueOf(subtree))
    {
      SumPrefix(children, k, ValueOf(subtree));
      sum := sum + GetOrZero(subtree, children[k]);
    }
    assert children[..|children|] == children;
  }

  /** The explicit-stack post-order from one root that has no total yet. */
  method TotalFrom(byId: NodeMap, self: map<int, real>, before: map<int, real>, root: int)
      returns (subtree: map<int, real>)
    requires root in byId
    ensures Stacked(byId, [root], {root}, before)
    ensures subtree == Run(byId, ValueOf(self), [root], {root}, before)
  {
    subtree := before;
    var stack, onStack := [root], {root};
    assert Stacked(byId, [root], {root}, before);
    hide *;
    while |stack| > 0
      invariant Stacked(byId, stack, onStack, subtree)
      invariant Run(byId, ValueOf(self), stack, onStack, subtree) == Run(byId, ValueOf(self), [root], {root}, before)
      decreases Unseen(byId, subtree, onStack), |stack|
    {
      var id := stack[|stack| - 1];
      var children := Children(byId, id);
      var pending := Pending(children, subtree, onStack);
      if |pending| > 0 {
        RunPush(byId, ValueOf(self), stack, onStack, subtree);
        stack, onStack := PushPending(stack, onStack, pending);
        continue;
      }
      var sum := AddTotals(self, subtree, id, children);
      TotalAtUnfolds(byId, ValueOf(self), subtree, id);
      RunFinish(byId, ValueOf(self), stack, onStack, subtree, sum);
      subtree := subtree[id := sum];
      onStack := onStack - {id};
      stack := stack[..|stack| - 1];
    }
    RunDone(byId, ValueOf(self), onStack, subtree);
  }

  lemma TotalAtUnfolds(byId: NodeMap, self: int -> real, total: map<int, real>, id: int)
    ensures TotalAt(byId, self, total, id) == self(id) + Sum(Children(byId, id), ValueOf(total))
  {
  }

  lemma RootOk(byId: NodeMap, root: int, total: map<int, real>)
    requires root in byId && root !in total
    ensures StackOk(byId, [root], {root}, total)
  {
    ReachRefl(ChildOf(byId), root);
  }

  lemma PendingDistinctOf(byId: NodeMap, id: int, total: map<int, real>, onStack: set<int>)
    requires Forest(byId)
    ensures Distinct(Pending(Children(byId, id), total, onStack))
  {
    PendingDistinct(Children(byId, id), total, onStack);
  }

  /** On a forest, pushing the pending children of the top node keeps the stack in order. */
  lemma PushPendingOk(byId: NodeMap, stack: seq<int>, onStack: set<int>, total: map<int, real>)
    requires Forest(byId) && stack != [] && StackOk(byId, stack, onStack, total)
    ensures var pending := Pending(Children(byId, stack[|stack| - 1]), total, onStack);
      StackOk(byId, stack + pending, onStack + SetOf(pending), total)
  {
    var top := stack[|stack| - 1];
    var pending := Pending(Children(byId, top), total, onStack);
    PendingDistinctOf(byId, top, total, onStack);
    ChildrenIn(byId, top);
    hide *;
    PushSomeOk(byId, stack, onStack, total, pending, |pending|);
    assert pending[..|pending|] == pending;
  }

  lemma {:induction false} PushSomeOk(byId: NodeMap, stack: seq<int>, onStack: set<int>, total: map<int, real>,
                                      pending: seq<int>, k: nat)
    requires stack != [] && StackOk(byId, stack, onStack, total) && k <= |pending| && Distinct(pending)
    requires forall c :: c in pending ==>
      c in Children(byId, stack[|stack| - 1]) && c in byId && c !in total && c !in onStack
    ensures StackOk(byId, stack + pending[..k], onStack + SetOf(pending[..k]), total)
  {
    hide Children, StackOk;
    if k == 0 {
      assert stack + pending[..0] == stack && onStack + SetOf(pending[..0]) == onStack;
    } else {
      var init, c := pending[..k - 1], pending[k - 1];
      PushSomeOk(byId, stack, onStack, total, pending, k - 1);
      assert c !in init && c in pending && (stack + init)[|stack| - 1] == stack[|stack| - 1];
      PushOk(byId, stack + init, onStack + SetOf(init), total, c, |stack| - 1);
      assert pending[..k] == init + [c];
      assert stack + pending[..k] == stack + init + [c];
      assert onStack + SetOf(pending[..k]) == onStack + SetOf(init) + {c};
    }
  }

  /** On a forest, finishing the top node totals it. */
  lemma FinishOk(byId: NodeMap, self: int -> real, total: map<int, real>, stack: seq<int>, onStack: set<int>)
    requires Forest(byId) && stack != [] && StackOk(byId, stack, onStack, total)
    requires Pending(Children(byId, stack[|stack| - 1]), total, onStack) == []
    requires AllTotalled(byId, self, total)
    ensures var id := stack[|stack| - 1]; var next := total[id := TotalAt(byId, self, total, id)];
      AllTotalled(byId, self, next) && StackOk(byId, stack[..|stack| - 1], onStack - {id}, next)
  {
    var id := stack[|stack| - 1];
    var sum := TotalAt(byId, self, total, id);
    assert forall c :: c in Children(byId, id) && c !in total && c !in onStack ==>
      c in Pending(Children(byId, id), total, onStack);
    hide Pending, Totalled, Children;
    ChildrenTotalled(byId, stack, onStack, total);
    PopOk(byId, stack, onStack, total, sum);
    assert id !in total;
    hide StackOk, Forest;
    FinishTotalled(byId, self, total, id, sum);
  }

  lemma FinishTotalled(byId: NodeMap, self: int -> real, total: map<int, real>, id: int, sum: real)
    requires id !in total && forall k :: k in total ==> Totalled(byId, self, total, k)
    requires forall c :: c in Children(byId, id) ==> c in total
    requires sum == self(id) + Sum(Children(byId, id), ValueOf(total))
    ensures var next := total[id := sum]; forall k :: k in next ==> Totalled(byId, self, next, k)
  {
    var next := total[id := sum];
    forall k | k in next
      ensures Totalled(byId, self, next, k)
    {
      if k == id {
        forall i | 0 <= i < |Children(byId, id)|
          ensures ValueOf(total)(Children(byId, id)[i]) == ValueOf(next)(Children(byId, id)[i])
        {
          assert Children(byId, id)[i] in Children(byId, id);
        }
        SumCong(Children(byId, id), ValueOf(total), ValueOf(next));
      } else {
        StaysTotalled(byId, self, total, k, id, sum);
      }
    }
  }
}
