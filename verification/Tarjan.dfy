/** The iterative Tarjan pass on arrays and stacks: it runs the state machine, once per node and once per call. */
module Tarjan {
  import opened Sums
  import opened Graphs
  import opened Scc
  import opened SccState
  import opened SccVisit
  import opened SccFinish

  // ---------------------------------------------------------------- counting iterations

  ghost function Total(s: seq<nat>): nat {
    if s == [] then 0 else Total(s[..|s| - 1]) + s[|s| - 1]
  }

  ghost function Degrees(g: Graph): (d: seq<nat>)
    ensures |d| == |g| && forall v :: 0 <= v < |g| ==> d[v] == |g[v]|
  {
    seq(|g|, v requires 0 <= v < |g| => |g[v]|)
  }

  lemma {:induction false} TotalUpdate(s: seq<nat>, i: nat, x: nat)
    requires i < |s|
    ensures Total(s[i := x]) == Total(s) - s[i] + x
  {
    var init := s[..|s| - 1];
    if i == |s| - 1 {
      assert s[i := x][..i] == init;
    } else {
      TotalUpdate(init, i, x);
      assert s[i := x][..|s| - 1] == init[i := x];
    }
  }

  /** `s` stays pointwise at most one above `d`, so its total stays at most `|d|` above that of `d`. */
  lemma {:induction false} TotalBound(s: seq<nat>, d: seq<nat>)
    requires |s| == |d| && forall i :: 0 <= i < |s| ==> s[i] <= d[i] + 1
    ensures Total(s) <= Total(d) + |d|
    ensures (exists i :: 0 <= i < |s| && s[i] <= d[i]) ==> Total(s) < Total(d) + |d|
    ensures (forall i :: 0 <= i < |s| ==> s[i] == d[i] + 1) ==> Total(s) == Total(d) + |d|
  {
    if s != [] {
      TotalBound(s[..|s| - 1], d[..|d| - 1]);
    }
  }

  lemma {:induction false} TotalZero(s: seq<nat>)
    requires forall i :: 0 <= i < |s| ==> s[i] == 0
    ensures Total(s) == 0
  {
    if s != [] {
      TotalZero(s[..|s| - 1]);
    }
  }

  // ---------------------------------------------------------------- the algorithm

  /** What the loop body relies on about the top of the work stack. */
  lemma TopFacts(g: Graph, s: State)
    requires Inv(g, s) && s.work != []
    ensures var top := |s.work| - 1; var node := s.work[top];
      && node < |g| && s.pos[top] == s.progress[node] <= |g[node]|
      && (forall k :: 0 <= k < |s.work| ==> s.work[k] < |g|)
      && Distinct(s.stack) && (forall i :: 0 <= i < |s.stack| ==> s.stack[i] < |g|)
      && node in s.stack
  {
    hide Reach, LowOk, WorkReaches, ReachesWork, EdgesVisited, EdgesLow, DoneOk;
  }

  /** Finishing a root leaves nothing to pass on: its parent's low is already smaller. */
  lemma RootLow(g: Graph, s: State)
    requires Inv(g, s) && |s.work| > 1
    requires var node := s.work[|s.work| - 1]; s.low[node] == s.index[node]
    ensures s.low[s.work[|s.work| - 2]] <= s.low[s.work[|s.work| - 1]]
  {
    hide Reach, LowWitness;
  }

  /** The machine's `Close` is what popping the component stack does to the arrays. */
  lemma CloseIsPop(g: Graph, s: State, p: nat, on: seq<bool>, comp: seq<int>)
    requires Shape(g, s) && StackOk(g, s) && p < |s.stack|
    requires |on| == |comp| == |g|
    requires forall v :: 0 <= v < |g| ==>
      && on[v] == (s.on[v] && v !in s.stack[p..])
      && comp[v] == if v in s.stack[p..] then s.count else s.comp[v]
    ensures s.(on := on, comp := comp, stack := s.stack[..p], count := s.count + 1) == Close(s, p)
  {
    forall v | 0 <= v < |g|
      ensures v in s.stack[p..] <==> s.on[v] && s.index[s.stack[p]] <= s.index[v]
    {
      if s.on[v] {
        var i :| 0 <= i < |s.stack| && s.stack[i] == v;
        if i >= p {
          assert s.stack[p..][i - p] == v;
        }
      }
    }
    assert on == Close(s, p).on;
    assert comp == Close(s, p).comp;
  }

  /** One more round has been spent, and no visit is undone. */
  ghost predicate OneRound(g: Graph, s: State, t: State)
    requires Inv(g, s) && Inv(g, t)
  {
    && Total(t.progress) == Total(s.progress) + 1
    && Total(s.progress) < |g| + Total(Degrees(g))
    && forall v :: 0 <= v < |g| && s.index[v] >= 0 ==> t.index[v] >= 0
  }

  lemma ExamineRound(g: Graph, s: State)
    requires Inv(g, s) && AtEdge(g, s)
    ensures var t := if s.index[Next(g, s)] == -1 then Discover(Advance(s), Next(g, s)) else Examine(g, s);
      Inv(g, t) && OneRound(g, s, t)
  {
    hide Rising, Reach, StackOk, WorkOk, ProgressOk, LowOk, WorkReaches, ReachesWork, EdgesVisited, EdgesLow, DoneOk;
    var node := s.work[|s.work| - 1];
    TopFacts(g, s);
    TotalBound(s.progress, Degrees(g));
    TotalUpdate(s.progress, node, s.progress[node] + 1);
    if s.index[Next(g, s)] == -1 {
      DiscoverNextInv(g, s);
    } else {
      ExamineInv(g, s);
    }
  }

  lemma RootRound(g: Graph, s: State, p: nat)
    requires Inv(g, s) && AtEnd(g, s) && AtRoot(g, s, p)
    ensures Inv(g, Finish(g, s, p)) && OneRound(g, s, Finish(g, s, p))
  {
    hide Rising, Reach, StackOk, WorkOk, ProgressOk, LowOk, WorkReaches, ReachesWork, EdgesVisited, EdgesLow, DoneOk;
    TopFacts(g, s);
    TotalBound(s.progress, Degrees(g));
    TotalUpdate(s.progress, s.work[|s.work| - 1], |g[s.work[|s.work| - 1]]| + 1);
    FinishInv(g, s, p);
  }

  lemma MergeRound(g: Graph, s: State)
    requires Inv(g, s) && AtEnd(g, s) && |s.work| > 1
    requires var node := s.work[|s.work| - 1]; s.low[node] != s.index[node]
    ensures var t := Drop(g, Lower(s, s.work[|s.work| - 2], s.low[s.work[|s.work| - 1]]));
      Inv(g, t) && OneRound(g, s, t)
  {
    hide Rising, Reach, StackOk, WorkOk, ProgressOk, LowOk, WorkReaches, ReachesWork, EdgesVisited, EdgesLow, DoneOk;
    TopFacts(g, s);
    TotalBound(s.progress, Degrees(g));
    TotalUpdate(s.progress, s.work[|s.work| - 1], |g[s.work[|s.work| - 1]]| + 1);
    MergeInv(g, s);
  }

  /** The variables of the pass. They live in one object so that the loop body can be split into methods. */
  class SccPass {
    const index: array<int>
    const lowlink: array<int>
    const onStack: array<bool>
    const componentOf: array<int>
    var sccStack: seq<nat>
    var workNode: seq<nat>
    var workNext: seq<nat>
    var counter: nat
    var componentCount: nat
    ghost var progress: seq<nat>

    ghost predicate Valid(count: nat) {
      && index.Length == lowlink.Length == onStack.Length == componentOf.Length == count
      && index != lowlink && index != componentOf && lowlink != componentOf
    }

    /** The machine state that the object holds. */
    ghost function Now(): State
      reads this, index, lowlink, onStack, componentOf
    {
      State(index[..], lowlink[..], onStack[..], componentOf[..], sccStack, workNode, workNext,
            counter, componentCount, progress)
    }

    constructor (count: nat)
      ensures Valid(count)
      ensures fresh(index) && fresh(lowlink) && fresh(onStack) && fresh(componentOf)
      ensures Now() == State(seq(count, _ => -1), seq(count, _ => 0), seq(count, _ => false), seq(count, _ => -1),
                             [], [], [], 0, 0, seq(count, _ => 0))
    {
      index := new int[count](_ => -1);
      lowlink := new int[count](_ => 0);
      onStack := new bool[count](_ => false);
      componentOf := new int[count](_ => -1);
      sccStack, workNode, workNext := [], [], [];
      counter, componentCount := 0, 0;
      progress := seq(count, _ => 0);
    }

    /** First visit of a node: number it and put it on both stacks. */
    method Visit(v: nat)
      requires Valid(index.Length) && v < index.Length
      modifies this, index, lowlink, onStack
      ensures Now() == Discover(old(Now()), v)
    {
      index[v] := counter;
      lowlink[v] := counter;
      counter := counter + 1;
      sccStack := sccStack + [v];
      onStack[v] := true;
      workNode := workNode + [v];
      workNext := workNext + [0];
    }

    /** Looks at the next successor of the top work node. */
    method ExamineNext(g: Graph)
      requires Valid(|g|) && InRange(g) && Shape(g, Now()) && WorkOk(g, Now()) && AtEdge(g, Now())
      modifies this, index, lowlink, onStack
      ensures Now() == var s := old(Now());
        if s.index[Next(g, s)] == -1 then Discover(Advance(s), Next(g, s)) else Examine(g, s)
    {
      var node := workNode[|workNode| - 1];
      var position := workNext[|workNext| - 1];
      workNext := workNext[|workNext| - 1 := position + 1];
      progress := progress[node := position + 1];
      var next := g[node][position];
      if index[next] == -1 {
        Visit(next);
      } else if onStack[next] && index[next] < lowlink[node] {
        lowlink[node] := index[next];
      }
    }

    /** Pops the component stack down to `node` and numbers what it pops. */
    method PopComponent(node: nat, ghost p: nat)
      requires Valid(index.Length) && p < |sccStack| && sccStack[p] == node && Distinct(sccStack)
      requires forall i :: 0 <= i < |sccStack| ==> sccStack[i] < index.Length
      modifies this`sccStack, this`componentCount, onStack, componentOf
      ensures sccStack == old(sccStack)[..p] && componentCount == old(componentCount) + 1
      ensures forall v :: 0 <= v < index.Length ==>
        && onStack[v] == (old(onStack[v]) && v !in old(sccStack)[p..])
        && componentOf[v] == if v in old(sccStack)[p..] then old(componentCount) else old(componentOf[v])
    {
      ghost var all := sccStack;
      var member: int := -1;
      while member != node
        invariant p <= |sccStack| <= |all| && sccStack == all[..|sccStack|]
        invariant member == node <==> |sccStack| == p
        invariant componentCount == old(componentCount)
        invariant forall v :: 0 <= v < index.Length ==>
          && onStack[v] == (old(onStack[v]) && v !in all[|sccStack|..])
          && componentOf[v] == if v in all[|sccStack|..] then componentCount else old(componentOf[v])
        decreases |sccStack|
      {
        // `node` is still on the stack, so the source's fallback for an empty pop is never taken
        var popped := sccStack[|sccStack| - 1];
        assert all[|sccStack| - 1..] == [popped] + all[|sccStack|..];
        sccStack := sccStack[..|sccStack| - 1];
        member := popped;
        onStack[popped] := false;
        componentOf[popped] := componentCount;
      }
      componentCount := componentCount + 1;
    }

    /** Closes the component whose root is at position `p` of the component stack. */
    method CloseComponent(g: Graph, node: nat, ghost p: nat)
      requires Valid(|g|) && Shape(g, Now()) && StackOk(g, Now()) && p < |sccStack| && sccStack[p] == node
      requires Distinct(sccStack) && forall i :: 0 <= i < |sccStack| ==> sccStack[i] < |g|
      modifies this`sccStack, this`componentCount, onStack, componentOf
      ensures Now() == Close(old(Now()), p)
    {
      hide StackOk, Close, Shape;
      ghost var s := Now();
      PopComponent(node, p);
      CloseIsPop(g, s, p, onStack[..], componentOf[..]);
    }

    /** Finishes the top work node: closes its component if it is a root, then leaves it. */
    method FinishTop(g: Graph)
      requires Valid(|g|) && Inv(g, Now()) && AtEnd(g, Now())
      modifies this, lowlink, onStack, componentOf
      ensures Left(g, old(Now()), Now())
    {
      hide Rising, Reach, StackOk, WorkOk, ProgressOk, LowOk, WorkReaches, ReachesWork, EdgesVisited, EdgesLow, DoneOk;
      ghost var s := Now();
      TopFacts(g, s);
      var node := workNode[|workNode| - 1];
      if lowlink[node] == index[node] {
        ghost var p :| 0 <= p < |sccStack| && sccStack[p] == node;
        assert AtRoot(g, s, p);
        if |workNode| > 1 {
          RootLow(g, s);
        }
        CloseComponent(g, node, p);
      } else {
        MergeInv(g, s);
      }
      LeaveTop(g);
    }

    /** Leaves the top work node and passes its low on to its parent. */
    method LeaveTop(g: Graph)
      requires Valid(|g|) && workNode != [] && |workNext| == |workNode| && |progress| == |g|
      requires forall k :: 0 <= k < |workNode| ==> workNode[k] < |g|
      modifies this`workNode, this`workNext, this`progress, lowlink
      ensures Now() == var s := old(Now());
        if |s.work| == 1 then Drop(g, s)
        else Drop(g, Lower(s, s.work[|s.work| - 2], s.low[s.work[|s.work| - 1]]))
    {
      var node := workNode[|workNode| - 1];
      progress := progress[node := |g[node]| + 1];
      workNode := workNode[..|workNode| - 1];
      workNext := workNext[..|workNext| - 1];
      if |workNode| > 0 {
        var parent := workNode[|workNode| - 1];
        if lowlink[node] < lowlink[parent] {
          lowlink[parent] := lowlink[node];
        }
      }
    }

    /** One round of the inner loop: it keeps the invariant and is one unit of progress. */
    method Round(g: Graph)
      requires Valid(|g|) && Inv(g, Now()) && workNode != []
      modifies this, index, lowlink, onStack, componentOf
      ensures Inv(g, Now())
      ensures forall v :: 0 <= v < |g| && old(index[v]) >= 0 ==> index[v] >= 0
      ensures Total(progress) == Total(old(progress)) + 1
      ensures Total(old(progress)) < |g| + Total(Degrees(g))
    {
      hide Rising, Reach, StackOk, WorkOk, ProgressOk, LowOk, WorkReaches, ReachesWork, EdgesVisited, EdgesLow, DoneOk;
      hide Discover, Advance, Examine, Drop, Close, Lower, Finish;
      ghost var s := Now();
      TopFacts(g, s);
      if workNext[|workNext| - 1] < |g[workNode[|workNode| - 1]]| {
        ExamineNext(g);
        ExamineRound(g, s);
      } else {
        FinishTop(g);
        if s.low[s.work[|s.work| - 1]] == s.index[s.work[|s.work| - 1]] {
          ghost var p: nat :| AtRoot(g, s, p) && Now() == Finish(g, s, p);
          RootRound(g, s, p);
        } else {
          MergeRound(g, s);
        }
      }
    }
  }

  /**
   * The pass over the whole graph. `iterations` counts the rounds of the inner loop: exactly one per
   * call edge and one per node.
   */
  method StronglyConnectedComponents(g: Graph)
      returns (components: seq<nat>, componentCount: nat, ghost iterations: nat)
    requires InRange(g)
    ensures IsSccNumbering(g, components, componentCount)
    ensures iterations == |g| + Total(Degrees(g))
  {
    hide Rising, Reach, StackOk, WorkOk, ProgressOk, LowOk, WorkReaches, ReachesWork, EdgesVisited, EdgesLow, DoneOk;
    var pass := new SccPass(|g|);
    iterations := 0;
    assert pass.Now() == Init(g);
    InitInv(g);
    TotalZero(pass.progress);
    for start := 0 to |g|
      invariant pass.Valid(|g|)
      invariant fresh(pass) && fresh(pass.index) && fresh(pass.lowlink) && fresh(pass.onStack)
      invariant fresh(pass.componentOf)
      invariant Inv(g, pass.Now()) && pass.workNode == []
      invariant forall v :: 0 <= v < start ==> pass.index[v] >= 0
      invariant iterations == Total(pass.progress)
    {
      if pass.index[start] != -1 {
        continue;
      }
      StartInv(g, pass.Now(), start);
      pass.Visit(start);
      while |pass.workNode| > 0
        invariant pass.Valid(|g|)
        invariant Inv(g, pass.Now())
        invariant forall v :: 0 <= v <= start ==> pass.index[v] >= 0
        invariant iterations == Total(pass.progress)
        decreases |g| + Total(Degrees(g)) - iterations
      {
        iterations := iterations + 1;
        pass.Round(g);
      }
    }
    FinalNumbering(g, pass.Now());
    TotalBound(pass.progress, Degrees(g));
    assert forall v :: 0 <= v < |g| ==> pass.componentOf[..][v] >= 0;
    components, componentCount := pass.componentOf[..], pass.componentCount;
  }
}
