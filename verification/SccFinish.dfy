/** Finishing a node keeps the invariant of the pass, and the invariant of a finished run is the numbering. */
module SccFinish {
  import opened Graphs
  import opened Scc
  import opened SccState
  import opened SccVisit

  // Finishing a node whose low lies below its index: its frame merges into its parent's.

  /** All successors of the top work node have been examined. */
  ghost predicate AtEnd(g: Graph, s: State)
    requires Shape(g, s) && WorkOk(g, s)
  {
    s.work != [] && s.pos[|s.work| - 1] == |g[s.work[|s.work| - 1]]|
  }

  lemma DropShape(g: Graph, s: State)
    requires Shape(g, s) && StackOk(g, s) && s.work != [] && s.work[|s.work| - 1] < |g|
    ensures Shape(g, Drop(g, s)) && StackOk(g, Drop(g, s))
  {
  }

  lemma DropWork(g: Graph, s: State)
    requires Shape(g, s) && WorkOk(g, s) && |s.work| > 1
    requires Shape(g, Drop(g, s))
    ensures WorkOk(g, Drop(g, s))
  {
    var t, top := Drop(g, s), |s.work| - 1;
    assert Rising(t.index, t.work);
    assert forall k :: 0 <= k < top ==> s.work[k] != s.work[top];
    hide Rising;
    assert t.work[0] == s.work[0];
  }

  lemma DropProgress(g: Graph, s: State)
    requires Shape(g, s) && ProgressOk(g, s) && s.work != [] && s.work[|s.work| - 1] < |g|
    requires s.index[s.work[|s.work| - 1]] >= 0
    requires Shape(g, Drop(g, s))
    ensures ProgressOk(g, Drop(g, s))
  {
    assert s.work == Drop(g, s).work + [s.work[|s.work| - 1]];
  }

  lemma DropLow(g: Graph, s: State)
    requires Shape(g, s) && LowOk(g, s) && s.work != [] && s.work[|s.work| - 1] < |g|
    requires Shape(g, Drop(g, s))
    ensures LowOk(g, Drop(g, s))
  {
    var t := Drop(g, s);
    forall k | 0 <= k < |t.work|
      ensures HasWitness(g, t, t.work[k])
    {
      var w: nat :| LowWitness(g, s, s.work[k], w);
      assert LowWitness(g, t, t.work[k], w);
    }
  }

  /** When the top node reaches a stacked node below it, everything stacked reaches its parent. */
  lemma DropReaches(g: Graph, s: State, w: nat)
    requires Shape(g, s) && WorkOk(g, s) && WorkReaches(g, s) && ReachesWork(g, s) && |s.work| > 1
    requires w < |g| && s.on[w] && s.index[w] < s.index[s.work[|s.work| - 1]]
    requires Reach(Calls(g), s.work[|s.work| - 1], w)
    requires var t := Drop(g, s); Shape(g, t) && WorkOk(g, t)
    ensures WorkReaches(g, Drop(g, s)) && ReachesWork(g, Drop(g, s))
  {
    hide Reach, Rising;
    var t, top := Drop(g, s), |s.work| - 1;
    var node, parent := s.work[top], s.work[top - 1];
    assert UpTo(s, w, top - 1);
    ReachTrans(Calls(g), node, w, parent);
    forall k: nat, v: nat | k < |t.work| && v < |g| && t.on[v] && UpTo(t, v, k)
      ensures Reach(Calls(g), v, t.work[k])
    {
      if k == top - 1 {
        assert UpTo(s, v, top);
        ReachTrans(Calls(g), v, node, parent);
      } else {
        assert UpTo(s, v, k);
      }
    }
  }

  lemma DropEdges(g: Graph, s: State)
    requires InRange(g) && Shape(g, s) && WorkOk(g, s) && EdgesVisited(g, s) && EdgesLow(g, s)
    requires AtEnd(g, s) && |s.work| > 1
    requires s.low[s.work[|s.work| - 2]] <= s.low[s.work[|s.work| - 1]]
    requires var t := Drop(g, s); Shape(g, t) && WorkOk(g, t)
    ensures EdgesVisited(g, Drop(g, s)) && EdgesLow(g, Drop(g, s))
  {
    hide Rising;
    var t, top := Drop(g, s), |s.work| - 1;
    forall u: nat, j: nat, k: nat | u < |g| && j < |g[u]| && k < |t.work|
      ensures LowEdge(g, t, u, j, k)
    {
      assert LowEdge(g, s, u, j, k);
      if k == top - 1 {
        assert LowEdge(g, s, u, j, top);
      }
    }
  }

  lemma DropDone(g: Graph, s: State)
    requires InRange(g) && Shape(g, s) && DoneOk(g, s) && s.work != [] && s.work[|s.work| - 1] < |g|
    requires Shape(g, Drop(g, s))
    ensures DoneOk(g, Drop(g, s))
  {
  }

  lemma LowLeadsBelow(g: Graph, s: State) returns (w: nat)
    requires Shape(g, s) && WorkOk(g, s) && LowOk(g, s) && s.work != []
    requires s.low[s.work[|s.work| - 1]] != s.index[s.work[|s.work| - 1]]
    ensures |s.work| > 1 && LowWitness(g, s, s.work[|s.work| - 1], w)
    ensures s.index[w] < s.index[s.work[|s.work| - 1]]
  {
    hide Rising, Reach;
    w :| LowWitness(g, s, s.work[|s.work| - 1], w);
  }

  /** Finishing a node that is not the root of its component. */
  lemma MergeInv(g: Graph, s: State)
    requires Inv(g, s) && AtEnd(g, s)
    requires var node := s.work[|s.work| - 1]; s.low[node] != s.index[node]
    ensures |s.work| > 1
    ensures Inv(g, Drop(g, Lower(s, s.work[|s.work| - 2], s.low[s.work[|s.work| - 1]])))
  {
    hide Rising, StackOk, ProgressOk, LowOk, WorkReaches, ReachesWork, DoneOk, EdgesVisited, EdgesLow, Reach;
    var w := LowLeadsBelow(g, s);
    var top := |s.work| - 1;
    var node, parent := s.work[top], s.work[top - 1];
    ParentReaches(g, s);
    ReachTrans(Calls(g), parent, node, w);
    LowerCore(g, s, top - 1, w);
    var m := Lower(s, parent, s.low[node]);
    LowerEdges(g, s, m);
    assert m.low[parent] <= m.low[node];
    DropShape(g, m);
    DropWork(g, m);
    DropProgress(g, m);
    DropLow(g, m);
    DropReaches(g, m, w);
    DropEdges(g, m);
    DropDone(g, m);
  }

  lemma ParentReaches(g: Graph, s: State)
    requires Shape(g, s) && WorkOk(g, s) && WorkReaches(g, s) && |s.work| > 1
    ensures Reach(Calls(g), s.work[|s.work| - 2], s.work[|s.work| - 1])
  {
  }

  lemma LowerEdges(g: Graph, s: State, t: State)
    requires InRange(g) && Shape(g, s) && WorkOk(g, s) && EdgesVisited(g, s) && EdgesLow(g, s)
    requires Shape(g, t) && WorkOk(g, t) && t == s.(low := t.low)
    requires forall v :: 0 <= v < |g| ==> t.low[v] <= s.low[v]
    ensures EdgesVisited(g, t) && EdgesLow(g, t)
  {
    forall u: nat, j: nat, k: nat | u < |g| && j < |g[u]| && k < |t.work|
      ensures LowEdge(g, t, u, j, k)
    {
      assert LowEdge(g, s, u, j, k);
    }
  }

  // Finishing the root of a component: everything stacked from the root on becomes one component.

  /** The top work node is the root of its component and sits at position `p` of the component stack. */
  ghost predicate AtRoot(g: Graph, s: State, p: nat)
    requires Shape(g, s) && WorkOk(g, s)
  {
    && AtEnd(g, s) && p < |s.stack| && s.stack[p] == s.work[|s.work| - 1]
    && s.low[s.stack[p]] == s.index[s.stack[p]]
  }

  ghost function Finish(g: Graph, s: State, p: nat): State
    requires Shape(g, s) && WorkOk(g, s) && AtRoot(g, s, p)
  {
    Drop(g, Close(s, p))
  }

  /** What leaving a finished top node makes of `s`: it closes the node's component, or merges with the parent. */
  ghost predicate Left(g: Graph, s: State, t: State)
    requires Shape(g, s) && WorkOk(g, s) && AtEnd(g, s)
  {
    if s.low[s.work[|s.work| - 1]] == s.index[s.work[|s.work| - 1]]
    then exists p: nat :: AtRoot(g, s, p) && t == Finish(g, s, p)
    else |s.work| > 1 && t == Drop(g, Lower(s, s.work[|s.work| - 2], s.low[s.work[|s.work| - 1]]))
  }

  /** The state after finishing the root, in terms of the state before. */
  lemma FinishFields(g: Graph, s: State, p: nat)
    requires Shape(g, s) && StackOk(g, s) && WorkOk(g, s) && AtRoot(g, s, p)
    ensures var t := Finish(g, s, p);
      && Shape(g, t) && t.index == s.index && t.stack == s.stack[..p]
      && (forall v :: 0 <= v < |g| ==> t.on[v] == (s.on[v] && s.index[v] < s.index[s.stack[p]]))
      && (forall v :: 0 <= v < |g| ==>
            t.comp[v] == if s.on[v] && s.index[s.stack[p]] <= s.index[v] then s.count else s.comp[v])
  {
  }

  /** `t` is `s` with everything stacked from position `p` on closed, as far as the component stack goes. */
  ghost predicate ClosedFrom(g: Graph, s: State, t: State, p: nat)
    requires Shape(g, s) && Shape(g, t) && p < |s.stack| && s.stack[p] < |g|
  {
    && t.index == s.index && t.stack == s.stack[..p]
    && (forall v :: 0 <= v < |g| ==> t.on[v] == (s.on[v] && s.index[v] < s.index[s.stack[p]]))
    && (forall v :: 0 <= v < |g| ==>
          t.comp[v] == if s.on[v] && s.index[s.stack[p]] <= s.index[v] then s.count else s.comp[v])
  }

  lemma ClosedStacked(g: Graph, s: State, t: State, p: nat)
    requires Shape(g, s) && Shape(g, t) && StackOk(g, s) && p < |s.stack| && s.stack[p] < |g| && ClosedFrom(g, s, t, p)
    ensures forall i :: 0 <= i < |t.stack| ==> t.stack[i] < |g| && t.on[t.stack[i]]
    ensures forall v :: 0 <= v < |g| && t.on[v] ==> v in t.stack
    ensures Rising(t.index, t.stack)
  {
    StackPrefix(g, s, p);
  }

  lemma ClosedNumbered(g: Graph, s: State, t: State, p: nat)
    requires Shape(g, s) && Shape(g, t) && StackOk(g, s) && p < |s.stack| && s.stack[p] < |g| && ClosedFrom(g, s, t, p)
    ensures forall v :: 0 <= v < |g| ==> (t.on[v] <==> t.index[v] >= 0 && t.comp[v] == -1)
    ensures forall v :: 0 <= v < |g| && t.comp[v] >= 0 ==> t.index[v] >= 0
  {
    hide Rising;
  }

  lemma FinishStack(g: Graph, s: State, p: nat)
    requires Shape(g, s) && StackOk(g, s) && WorkOk(g, s) && AtRoot(g, s, p)
    ensures Shape(g, Finish(g, s, p)) && StackOk(g, Finish(g, s, p))
  {
    FinishFields(g, s, p);
    hide Finish, Rising;
    var t := Finish(g, s, p);
    assert ClosedFrom(g, s, t, p);
    ClosedStacked(g, s, t, p);
    ClosedNumbered(g, s, t, p);
    hide ClosedFrom;
  }

  /** What is stacked below position `p` is what is stacked with a smaller index. */
  lemma StackPrefix(g: Graph, s: State, p: nat)
    requires Shape(g, s) && StackOk(g, s) && p < |s.stack|
    ensures forall v :: 0 <= v < |g| && s.on[v] && s.index[v] < s.index[s.stack[p]] ==> v in s.stack[..p]
  {
    forall v | 0 <= v < |g| && s.on[v] && s.index[v] < s.index[s.stack[p]]
      ensures v in s.stack[..p]
    {
      var i :| 0 <= i < |s.stack| && s.stack[i] == v;
      assert s.stack[..p][i] == v;
    }
  }

  lemma RisingPrefix(index: seq<int>, xs: seq<nat>, n: nat)
    requires Rising(index, xs) && n <= |xs|
    ensures Rising(index, xs[..n])
  {
  }

  lemma FinishWork(g: Graph, s: State, p: nat)
    requires Shape(g, s) && StackOk(g, s) && WorkOk(g, s) && AtRoot(g, s, p)
    requires Shape(g, Finish(g, s, p))
    ensures WorkOk(g, Finish(g, s, p))
  {
    var t, top := Finish(g, s, p), |s.work| - 1;
    FinishFields(g, s, p);
    FinishWorkFields(g, s, p);
    RisingPrefix(s.index, s.work, top);
    assert forall k :: 0 <= k < top ==> s.index[s.work[k]] < s.index[s.work[top]];
    assert p > 0 ==> s.index[s.stack[0]] < s.index[s.stack[p]];
    hide Finish, Rising;
  }

  lemma FinishWorkFields(g: Graph, s: State, p: nat)
    requires Shape(g, s) && WorkOk(g, s) && AtRoot(g, s, p)
    ensures var t, top := Finish(g, s, p), |s.work| - 1;
      && t.work == s.work[..top] && t.pos == s.pos[..top] && t.low == s.low && |t.progress| == |g|
      && forall v :: 0 <= v < |g| && v != s.work[top] ==> t.progress[v] == s.progress[v]
  {
  }

  lemma FinishProgress(g: Graph, s: State, p: nat)
    requires Shape(g, s) && WorkOk(g, s) && ProgressOk(g, s) && AtRoot(g, s, p)
    requires Shape(g, Finish(g, s, p))
    ensures ProgressOk(g, Finish(g, s, p))
  {
    hide Rising;
    assert s.work == Finish(g, s, p).work + [s.work[|s.work| - 1]];
  }

  lemma FinishLow(g: Graph, s: State, p: nat)
    requires Shape(g, s) && StackOk(g, s) && WorkOk(g, s) && LowOk(g, s) && AtRoot(g, s, p)
    requires Shape(g, Finish(g, s, p))
    ensures LowOk(g, Finish(g, s, p))
  {
    var t, top := Finish(g, s, p), |s.work| - 1;
    FinishWorkFields(g, s, p);
    forall k: nat | k < top
      ensures s.work[k] < |g| && t.low[s.work[k]] <= t.index[s.work[k]] && HasWitness(g, t, s.work[k])
    {
      FinishLowAt(g, s, p, k);
    }
    hide Finish, StackOk, WorkOk, AtRoot, HasWitness;
  }

  lemma FinishLowAt(g: Graph, s: State, p: nat, k: nat)
    requires Shape(g, s) && StackOk(g, s) && WorkOk(g, s) && LowOk(g, s) && AtRoot(g, s, p) && k < |s.work| - 1
    requires Shape(g, Finish(g, s, p))
    ensures var t, v := Finish(g, s, p), s.work[k]; v < |g| && t.low[v] <= t.index[v] && HasWitness(g, t, v)
  {
    hide Finish, StackOk, LowOk, Rising, LowWitness, WorkOk;
    BelowTop(g, s, k);
    var t, v, root := Finish(g, s, p), s.work[k], s.work[|s.work| - 1];
    FinishFields(g, s, p);
    FinishWorkFields(g, s, p);
    var w: nat :| LowWitness(g, s, v, w);
    WitnessStays(g, s, t, v, w, root);
  }

  lemma BelowTop(g: Graph, s: State, k: nat)
    requires Shape(g, s) && WorkOk(g, s) && LowOk(g, s) && k < |s.work| - 1
    ensures s.work[k] < |g| && s.work[|s.work| - 1] < |g| && HasWitness(g, s, s.work[k])
    ensures s.low[s.work[k]] <= s.index[s.work[k]] < s.index[s.work[|s.work| - 1]]
  {
    hide HasWitness;
  }

  /** A witness below the closed component stays stacked. */
  lemma WitnessStays(g: Graph, s: State, t: State, v: nat, w: nat, root: nat)
    requires Shape(g, s) && Shape(g, t) && v < |g| && root < |g| && LowWitness(g, s, v, w)
    requires t.index == s.index && t.low == s.low && s.low[v] <= s.index[v] < s.index[root]
    requires forall u :: 0 <= u < |g| ==> t.on[u] == (s.on[u] && s.index[u] < s.index[root])
    ensures LowWitness(g, t, v, w)
  {
    hide Reach;
  }

  lemma FinishReaches(g: Graph, s: State, p: nat)
    requires Shape(g, s) && WorkOk(g, s) && WorkReaches(g, s) && ReachesWork(g, s) && AtRoot(g, s, p)
    requires Shape(g, Finish(g, s, p)) && WorkOk(g, Finish(g, s, p))
    ensures WorkReaches(g, Finish(g, s, p)) && ReachesWork(g, Finish(g, s, p))
  {
    hide Reach, Rising;
    var t := Finish(g, s, p);
    forall k: nat, v: nat | k < |t.work| && v < |g| && t.on[v] && UpTo(t, v, k)
      ensures Reach(Calls(g), v, t.work[k])
    {
      assert UpTo(s, v, k);
    }
  }

  lemma FinishEdges(g: Graph, s: State, p: nat)
    requires InRange(g) && Shape(g, s) && WorkOk(g, s) && EdgesVisited(g, s) && EdgesLow(g, s) && AtRoot(g, s, p)
    requires Shape(g, Finish(g, s, p)) && WorkOk(g, Finish(g, s, p))
    ensures EdgesVisited(g, Finish(g, s, p)) && EdgesLow(g, Finish(g, s, p))
  {
    hide Rising;
    var t := Finish(g, s, p);
    forall u: nat, j: nat, k: nat | u < |g| && j < |g[u]| && k < |t.work|
      ensures LowEdge(g, t, u, j, k)
    {
      assert LowEdge(g, s, u, j, k);
    }
  }

  /** No call leads out of the closed component to a node that still has no component. */
  lemma FinishClosed(g: Graph, s: State, p: nat, v: nat, j: nat)
    requires InRange(g) && Shape(g, s) && StackOk(g, s) && WorkOk(g, s) && ProgressOk(g, s)
    requires EdgesVisited(g, s) && EdgesLow(g, s) && AtRoot(g, s, p)
    requires v < |g| && j < |g[v]| && s.on[v] && s.index[s.stack[p]] <= s.index[v]
    ensures s.comp[g[v][j]] >= 0 || (s.on[g[v][j]] && s.index[s.stack[p]] <= s.index[g[v][j]])
  {
    var top := |s.work| - 1;
    assert LowEdge(g, s, v, j, top);
    assert forall k :: 0 <= k < top ==> s.index[s.work[k]] < s.index[s.work[top]];
    assert j < s.progress[v];
  }

  lemma FinishNumbers(g: Graph, s: State, p: nat)
    requires Inv(g, s) && AtRoot(g, s, p)
    requires Shape(g, Finish(g, s, p))
    ensures var t := Finish(g, s, p);
      forall v, j :: 0 <= v < |g| && 0 <= j < |g[v]| && t.comp[v] >= 0 ==> 0 <= t.comp[g[v][j]] <= t.comp[v]
  {
    var t, node := Finish(g, s, p), s.stack[p];
    hide Rising, LowOk, EdgesVisited, EdgesLow, ProgressOk, WorkReaches, ReachesWork;
    forall v, j | 0 <= v < |g| && 0 <= j < |g[v]| && t.comp[v] >= 0
      ensures 0 <= t.comp[g[v][j]] <= t.comp[v]
    {
      if s.on[v] && s.index[node] <= s.index[v] {
        FinishClosed(g, s, p, v, j);
      }
    }
  }

  lemma FinishUsed(g: Graph, s: State, p: nat)
    requires InRange(g) && Shape(g, s) && StackOk(g, s) && WorkOk(g, s) && DoneOk(g, s) && AtRoot(g, s, p)
    requires Shape(g, Finish(g, s, p))
    ensures var t := Finish(g, s, p); forall c :: 0 <= c < t.count ==> c in t.comp
  {
    var t, node := Finish(g, s, p), s.stack[p];
    hide Rising;
    forall c | 0 <= c < t.count
      ensures c in t.comp
    {
      if c == s.count {
        assert t.comp[node] == c;
      } else {
        assert c in s.comp;
        var i :| 0 <= i < |s.comp| && s.comp[i] == c;
        assert t.comp[i] == c;
      }
    }
  }

  lemma FinishMutual(g: Graph, s: State, p: nat)
    requires InRange(g) && Shape(g, s) && WorkOk(g, s) && DoneOk(g, s) && AtRoot(g, s, p)
    requires WorkReaches(g, s) && ReachesWork(g, s) && Shape(g, Finish(g, s, p))
    ensures var t := Finish(g, s, p);
      forall u: nat, v: nat :: u < |g| && v < |g| && t.comp[u] == t.comp[v] >= 0 ==> Reach(Calls(g), u, v)
  {
    var t, node, top := Finish(g, s, p), s.stack[p], |s.work| - 1;
    hide Rising, Reach;
    forall u: nat, v: nat | u < |g| && v < |g| && t.comp[u] == t.comp[v] >= 0
      ensures Reach(Calls(g), u, v)
    {
      if t.comp[u] == s.count {
        assert UpTo(s, u, top);
        assert s.work[top] == node;
        ReachTrans(Calls(g), u, node, v);
      }
    }
  }

  /** Finishing the root of a component. */
  lemma FinishInv(g: Graph, s: State, p: nat)
    requires Inv(g, s) && AtRoot(g, s, p)
    ensures Inv(g, Finish(g, s, p))
  {
    hide Rising, StackOk, ProgressOk, LowOk, WorkReaches, ReachesWork, EdgesVisited, EdgesLow, Finish, Reach;
    FinishStack(g, s, p);
    FinishWork(g, s, p);
    FinishProgress(g, s, p);
    FinishLow(g, s, p);
    FinishReaches(g, s, p);
    FinishEdges(g, s, p);
    FinishNumbers(g, s, p);
    FinishUsed(g, s, p);
    FinishMutual(g, s, p);
    assert DoneOk(g, Finish(g, s, p));
  }

  // ---------------------------------------------------------------- what a finished run has computed

  /** Components never rise along calls, so mutual reachability forces equal components. */
  lemma ReachDown(g: Graph, s: State, u: nat, v: nat)
    requires InRange(g) && Shape(g, s) && DoneOk(g, s)
    requires u < |g| && s.comp[u] >= 0 && Reach(Calls(g), u, v)
    ensures v < |g| && 0 <= s.comp[v] <= s.comp[u]
  {
    var inside := (x: nat) => x < |g| && 0 <= s.comp[x] <= s.comp[u];
    hide Reach;
    forall x: nat, y: nat | inside(x) && Calls(g)(x, y)
      ensures inside(y)
    {
      var j :| 0 <= j < |g[x]| && g[x][j] == y;
      assert g[x][j] < |g|;
    }
    ReachClosed(Calls(g), inside, u, v);
  }

  lemma FinalNumbering(g: Graph, s: State)
    requires Inv(g, s) && s.work == [] && forall v :: 0 <= v < |g| ==> s.index[v] >= 0
    ensures forall v :: 0 <= v < |g| ==> s.comp[v] >= 0
    ensures IsSccNumbering(g, s.comp, s.count)
    ensures forall v :: 0 <= v < |g| ==> s.progress[v] == |g[v]| + 1
  {
    hide Rising, Reach, LowOk, WorkReaches, ReachesWork, EdgesVisited, EdgesLow;
    assert forall v :: 0 <= v < |g| ==> s.comp[v] >= 0 by {
      hide DoneOk;
    }
    forall u: nat, v: nat | u < |g| && v < |g| && Reach(Calls(g), u, v) && Reach(Calls(g), v, u)
      ensures s.comp[u] == s.comp[v]
    {
      ReachDown(g, s, u, v);
      ReachDown(g, s, v, u);
    }
  }
}
