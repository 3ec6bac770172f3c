/** Discovering a node and examining a successor keep the invariant of the pass. */
module SccVisit {
  import opened Graphs
  import opened Scc
  import opened SccState

  // Examining a successor: the work stack's counters move on, nothing else changes.

  lemma AdvanceShape(g: Graph, s: State)
    requires Shape(g, s) && StackOk(g, s) && WorkOk(g, s) && AtEdge(g, s)
    ensures Shape(g, Advance(s)) && StackOk(g, Advance(s))
  {
  }

  lemma AdvanceWork(g: Graph, s: State)
    requires Shape(g, s) && StackOk(g, s) && WorkOk(g, s) && AtEdge(g, s)
    requires Shape(g, Advance(s))
    ensures WorkOk(g, Advance(s))
  {
  }

  lemma AdvanceProgress(g: Graph, s: State)
    requires Shape(g, s) && WorkOk(g, s) && ProgressOk(g, s) && AtEdge(g, s)
    requires Shape(g, Advance(s))
    ensures ProgressOk(g, Advance(s))
  {
  }

  lemma AdvanceReach(g: Graph, s: State)
    requires Shape(g, s) && WorkOk(g, s) && WorkReaches(g, s) && ReachesWork(g, s) && AtEdge(g, s)
    requires Shape(g, Advance(s)) && WorkOk(g, Advance(s))
    ensures WorkReaches(g, Advance(s)) && ReachesWork(g, Advance(s))
  {
    var t := Advance(s);
    assert forall k: nat, v: nat {:trigger UpTo(t, v, k)} :: k < |s.work| && v < |g| ==> UpTo(t, v, k) == UpTo(s, v, k);
  }

  lemma AdvanceDone(g: Graph, s: State)
    requires InRange(g) && Shape(g, s) && WorkOk(g, s) && DoneOk(g, s) && AtEdge(g, s)
    requires Shape(g, Advance(s))
    ensures DoneOk(g, Advance(s))
  {
  }

  lemma AdvanceLow(g: Graph, s: State)
    requires Shape(g, s) && WorkOk(g, s) && LowOk(g, s) && AtEdge(g, s)
    requires Shape(g, Advance(s))
    ensures LowOk(g, Advance(s))
  {
    var t := Advance(s);
    forall k | 0 <= k < |t.work|
      ensures HasWitness(g, t, t.work[k])
    {
      var w: nat :| LowWitness(g, s, s.work[k], w);
      assert LowWitness(g, t, t.work[k], w);
    }
  }

  lemma AdvanceCore(g: Graph, s: State)
    requires Core(g, s) && AtEdge(g, s)
    ensures Core(g, Advance(s))
  {
    AdvanceShape(g, s);
    AdvanceWork(g, s);
    AdvanceProgress(g, s);
    AdvanceLow(g, s);
    AdvanceReach(g, s);
    AdvanceDone(g, s);
    hide StackOk, WorkOk, ProgressOk, LowOk, WorkReaches, ReachesWork, DoneOk;
  }

  // Discovering a node `v`, as a root or as the successor of the top work node.

  lemma RisingPush(index: seq<int>, xs: seq<nat>, v: nat, counter: nat)
    requires Rising(index, xs) && v < |index| && index[v] == -1
    requires forall u :: 0 <= u < |index| ==> index[u] < counter
    ensures Rising(index[v := counter], xs + [v])
  {
  }

  lemma DiscoverStack(g: Graph, s: State, v: nat)
    requires Shape(g, s) && StackOk(g, s) && v < |g| && s.index[v] == -1
    ensures var t := Discover(s, v); Shape(g, t) && StackOk(g, t)
  {
    var t := Discover(s, v);
    RisingPush(s.index, s.stack, v, s.counter);
    assert t.stack[|s.stack|] == v;
    assert forall u :: u in s.stack ==> u in t.stack;
    hide Rising;
  }

  lemma DiscoverWork(g: Graph, s: State, v: nat)
    requires Shape(g, s) && StackOk(g, s) && WorkOk(g, s) && ProgressOk(g, s) && v < |g| && s.index[v] == -1
    requires Shape(g, Discover(s, v))
    ensures WorkOk(g, Discover(s, v))
  {
    var t := Discover(s, v);
    RisingPush(s.index, s.work, v, s.counter);
    hide Rising, StackOk;
  }

  lemma DiscoverProgress(g: Graph, s: State, v: nat)
    requires Shape(g, s) && ProgressOk(g, s) && v < |g| && s.index[v] == -1
    requires Shape(g, Discover(s, v))
    ensures ProgressOk(g, Discover(s, v))
  {
    var t := Discover(s, v);
    assert t.work[|s.work|] == v;
    assert forall u :: u in s.work ==> u in t.work;
  }

  lemma DiscoverLow(g: Graph, s: State, v: nat)
    requires Shape(g, s) && WorkOk(g, s) && LowOk(g, s) && v < |g| && s.index[v] == -1
    requires Shape(g, Discover(s, v))
    ensures LowOk(g, Discover(s, v))
  {
    var t := Discover(s, v);
    forall k | 0 <= k < |s.work|
      ensures t.work[k] == s.work[k] && t.low[t.work[k]] <= t.index[t.work[k]]
      ensures HasWitness(g, t, t.work[k])
    {
      var w: nat :| LowWitness(g, s, s.work[k], w);
      assert LowWitness(g, t, t.work[k], w);
    }
    ReachRefl(Calls(g), v);
    assert LowWitness(g, t, v, v);
    assert t.work[|s.work|] == v;
  }

  /** `v` is called by the top work node, if there is one. */
  ghost predicate CalledFromTop(g: Graph, s: State, v: nat) {
    s.work == [] || Calls(g)(s.work[|s.work| - 1], v)
  }

  /** Every work node reaches the top one, so it reaches the new node. */
  lemma ReachesNew(g: Graph, s: State, v: nat, k: nat)
    requires Shape(g, s) && StackOk(g, s) && WorkOk(g, s) && WorkReaches(g, s)
    requires v < |g| && k < |s.work| && CalledFromTop(g, s, v)
    ensures Reach(Calls(g), s.work[k], v)
  {
    var top := |s.work| - 1;
    hide Reach, StackOk;
    assert s.index[s.work[k]] <= s.index[s.work[top]];
    assert s.on[s.work[top]];
    ReachStep(Calls(g), s.work[top], v);
    ReachTrans(Calls(g), s.work[k], s.work[top], v);
  }

  lemma DiscoverWorkReaches(g: Graph, s: State, v: nat)
    requires Shape(g, s) && StackOk(g, s) && WorkOk(g, s) && WorkReaches(g, s)
    requires v < |g| && s.index[v] == -1 && CalledFromTop(g, s, v)
    requires var t := Discover(s, v); Shape(g, t) && WorkOk(g, t)
    ensures WorkReaches(g, Discover(s, v))
  {
    var t := Discover(s, v);
    hide Reach, Rising, CalledFromTop;
    ReachRefl(Calls(g), v);
    forall k: nat, u: nat | k < |t.work| && u < |g| && t.on[u] && t.index[t.work[k]] <= t.index[u]
      ensures Reach(Calls(g), t.work[k], u)
    {
      if k < |s.work| {
        assert t.work[k] == s.work[k] != v;
        if u == v {
          ReachesNew(g, s, v, k);
        }
      }
    }
  }

  lemma DiscoverReachesWork(g: Graph, s: State, v: nat)
    requires Shape(g, s) && StackOk(g, s) && WorkOk(g, s) && ReachesWork(g, s)
    requires v < |g| && s.index[v] == -1 && CalledFromTop(g, s, v)
    requires var t := Discover(s, v); Shape(g, t) && WorkOk(g, t)
    ensures ReachesWork(g, Discover(s, v))
  {
    var t, top := Discover(s, v), |s.work| - 1;
    ReachRefl(Calls(g), v);
    hide Rising;
    forall k: nat, u: nat | k < |t.work| && u < |g| && t.on[u] && UpTo(t, u, k)
      ensures Reach(Calls(g), u, t.work[k])
    {
      if k <= top {
        assert t.work[k] == s.work[k];
        assert k == top ==> t.work[k + 1] == v;
        assert k < top ==> t.work[k + 1] == s.work[k + 1];
        assert u != v && UpTo(s, u, k);
      } else if u != v {
        assert UpTo(s, u, top);
        ReachStep(Calls(g), s.work[top], v);
        ReachTrans(Calls(g), u, s.work[top], v);
      }
    }
  }

  lemma DiscoverDone(g: Graph, s: State, v: nat)
    requires InRange(g) && Shape(g, s) && DoneOk(g, s) && v < |g|
    requires Shape(g, Discover(s, v))
    ensures DoneOk(g, Discover(s, v))
  {
  }

  lemma DiscoverCore(g: Graph, s: State, v: nat)
    requires Core(g, s) && v < |g| && s.index[v] == -1 && CalledFromTop(g, s, v)
    ensures Core(g, Discover(s, v))
  {
    DiscoverStack(g, s, v);
    DiscoverWork(g, s, v);
    DiscoverProgress(g, s, v);
    DiscoverLow(g, s, v);
    DiscoverWorkReaches(g, s, v);
    DiscoverReachesWork(g, s, v);
    DiscoverDone(g, s, v);
    hide StackOk, WorkOk, ProgressOk, LowOk, WorkReaches, ReachesWork, DoneOk;
  }

  lemma StartEdges(g: Graph, s: State, v: nat)
    requires InRange(g) && Shape(g, s) && EdgesVisited(g, s)
    requires v < |g| && s.index[v] == -1 && s.work == [] && s.progress[v] == 0
    requires forall u :: 0 <= u < |g| ==> !s.on[u]
    requires var t := Discover(s, v); Shape(g, t) && WorkOk(g, t)
    ensures var t := Discover(s, v); EdgesVisited(g, t) && EdgesLow(g, t)
  {
  }

  lemma DiscoverNextVisited(g: Graph, s: State)
    requires InRange(g) && Shape(g, s) && WorkOk(g, s) && EdgesVisited(g, s)
    requires AtEdge(g, s) && s.index[Next(g, s)] == -1
    requires Shape(g, Discover(Advance(s), Next(g, s)))
    ensures EdgesVisited(g, Discover(Advance(s), Next(g, s)))
  {
  }

  lemma LowBelowIndex(g: Graph, s: State)
    requires Shape(g, s) && LowOk(g, s)
    ensures forall i :: 0 <= i < |s.work| ==> s.work[i] < |g| && s.low[s.work[i]] <= s.index[s.work[i]]
  {
  }

  lemma DiscoverNextLow(g: Graph, s: State)
    requires InRange(g) && Shape(g, s) && StackOk(g, s) && WorkOk(g, s) && ProgressOk(g, s) && LowOk(g, s)
    requires EdgesLow(g, s) && AtEdge(g, s) && s.index[Next(g, s)] == -1
    requires var t := Discover(Advance(s), Next(g, s)); Shape(g, t) && WorkOk(g, t)
    ensures EdgesLow(g, Discover(Advance(s), Next(g, s)))
  {
    var v := Next(g, s);
    var t := Discover(Advance(s), v);
    assert s.progress[v] == 0;
    LowBelowIndex(g, s);
    hide Discover, Advance, Rising, StackOk, LowOk, UpTo, ProgressOk;
    forall u: nat, j: nat, k: nat | u < |g| && j < |g[u]| && k < |t.work|
      ensures LowEdge(g, t, u, j, k)
    {
      DiscoverNextLowAt(g, s, u, j, k);
    }
  }

  lemma DiscoverNextLowAt(g: Graph, s: State, u: nat, j: nat, k: nat)
    requires InRange(g) && Shape(g, s) && WorkOk(g, s)
    requires EdgesLow(g, s) && AtEdge(g, s) && s.index[Next(g, s)] == -1
    requires s.progress[Next(g, s)] == 0
    requires forall i :: 0 <= i < |s.work| ==> s.low[s.work[i]] <= s.index[s.work[i]]
    requires var t := Discover(Advance(s), Next(g, s));
      Shape(g, t) && WorkOk(g, t) && u < |g| && j < |g[u]| && k < |t.work|
    ensures LowEdge(g, Discover(Advance(s), Next(g, s)), u, j, k)
  {
    hide Rising;
    var top, v := |s.work| - 1, Next(g, s);
    var node, t := s.work[top], Discover(Advance(s), v);
    assert t.progress == s.progress[node := s.pos[top] + 1];
    if k <= top && u != v {
      assert t.work[k] == s.work[k] != v;
      assert LowEdge(g, s, u, j, k);
      if k == top { assert t.work[k + 1] == v; } else { assert t.work[k + 1] == s.work[k + 1]; }
    }
  }

  lemma StartInv(g: Graph, s: State, v: nat)
    requires Inv(g, s) && s.work == [] && v < |g| && s.index[v] == -1
    ensures Inv(g, Discover(s, v))
  {
    DiscoverCore(g, s, v);
    StartEdges(g, s, v);
    hide LowOk, WorkReaches, ReachesWork, DoneOk, EdgesVisited, EdgesLow, Discover;
  }

  lemma DiscoverNextInv(g: Graph, s: State)
    requires Inv(g, s) && AtEdge(g, s) && s.index[Next(g, s)] == -1
    ensures Inv(g, Discover(Advance(s), Next(g, s)))
  {
    hide StackOk, ProgressOk, LowOk, WorkReaches, ReachesWork, DoneOk, EdgesVisited, EdgesLow;
    AdvanceCore(g, s);
    DiscoverCore(g, Advance(s), Next(g, s));
    DiscoverNextVisited(g, s);
    DiscoverNextLow(g, s);
  }

  // Examining a successor that was visited before.

  ghost function Examine(g: Graph, s: State): State
    requires InRange(g) && Shape(g, s) && WorkOk(g, s) && AtEdge(g, s)
  {
    var next := Next(g, s);
    if s.on[next] then Lower(Advance(s), s.work[|s.work| - 1], s.index[next]) else Advance(s)
  }

  lemma LowerLow(g: Graph, s: State, k: nat, w: nat)
    requires Shape(g, s) && LowOk(g, s) && k < |s.work| && w < |g| && s.on[w] && s.work[k] < |g|
    requires Reach(Calls(g), s.work[k], w)
    ensures var t := Lower(s, s.work[k], s.index[w]); Shape(g, t) && LowOk(g, t)
  {
    var v := s.work[k];
    var t := Lower(s, v, s.index[w]);
    forall i | 0 <= i < |t.work|
      ensures t.low[t.work[i]] <= t.index[t.work[i]] && exists x :: LowWitness(g, t, t.work[i], x)
    {
      var x :| LowWitness(g, s, s.work[i], x);
      assert LowWitness(g, t, t.work[i], if t.work[i] == v && t.low[v] == s.index[w] then w else x);
    }
  }

  /** Changing lows only concerns `LowOk` and `EdgesLow`. */
  lemma LowerFrame(g: Graph, s: State, t: State)
    requires InRange(g) && Shape(g, s) && StackOk(g, s) && WorkOk(g, s) && ProgressOk(g, s) && DoneOk(g, s)
    requires t == s.(low := t.low) && |t.low| == |g|
    ensures StackOk(g, t) && WorkOk(g, t) && ProgressOk(g, t) && DoneOk(g, t)
  {
    hide Rising, Reach;
  }

  lemma LowerReaches(g: Graph, s: State, t: State)
    requires Shape(g, s) && WorkOk(g, s) && WorkReaches(g, s) && ReachesWork(g, s)
    requires t == s.(low := t.low) && |t.low| == |g| && WorkOk(g, t)
    ensures WorkReaches(g, t) && ReachesWork(g, t)
  {
    hide Rising, Reach;
    assert forall k: nat, v: nat {:trigger UpTo(t, v, k)} :: k < |s.work| && v < |g| ==> UpTo(t, v, k) == UpTo(s, v, k);
  }

  lemma LowerCore(g: Graph, s: State, k: nat, w: nat)
    requires Core(g, s) && k < |s.work| && w < |g| && s.on[w] && Reach(Calls(g), s.work[k], w)
    ensures Core(g, Lower(s, s.work[k], s.index[w]))
  {
    hide StackOk, ProgressOk, LowOk, WorkReaches, ReachesWork, DoneOk;
    LowerLow(g, s, k, w);
    LowerFrame(g, s, Lower(s, s.work[k], s.index[w]));
    hide WorkOk;
    LowerReaches(g, s, Lower(s, s.work[k], s.index[w]));
  }

  lemma ExamineVisited(g: Graph, s: State)
    requires InRange(g) && Shape(g, s) && WorkOk(g, s) && EdgesVisited(g, s)
    requires AtEdge(g, s) && s.index[Next(g, s)] != -1
    requires Shape(g, Examine(g, s))
    ensures EdgesVisited(g, Examine(g, s))
  {
  }

  lemma ExamineLow(g: Graph, s: State)
    requires InRange(g) && Shape(g, s) && WorkOk(g, s) && EdgesLow(g, s) && AtEdge(g, s)
    requires Shape(g, Examine(g, s)) && WorkOk(g, Examine(g, s))
    ensures EdgesLow(g, Examine(g, s))
  {
    var t := Examine(g, s);
    var top := |s.work| - 1;
    hide Examine;
    forall u: nat, j: nat, k: nat | u < |g| && j < |g[u]| && k < |t.work|
      ensures LowEdge(g, t, u, j, k)
    {
      ExamineLowAt(g, s, u, j, k);
    }
  }

  lemma ExamineLowAt(g: Graph, s: State, u: nat, j: nat, k: nat)
    requires InRange(g) && Shape(g, s) && WorkOk(g, s) && EdgesLow(g, s) && AtEdge(g, s)
    requires var t := Examine(g, s);
      Shape(g, t) && WorkOk(g, t) && u < |g| && j < |g[u]| && k < |t.work|
    ensures LowEdge(g, Examine(g, s), u, j, k)
  {
    var top := |s.work| - 1;
    assert LowEdge(g, s, u, j, k);
    if j == s.progress[u] && u == s.work[top] && k < top {
      assert s.index[s.work[k + 1]] <= s.index[s.work[top]];
    }
  }

  lemma ExamineInv(g: Graph, s: State)
    requires Inv(g, s) && AtEdge(g, s) && s.index[Next(g, s)] != -1
    ensures Inv(g, Examine(g, s))
  {
    hide Rising, StackOk, ProgressOk, LowOk, WorkReaches, ReachesWork, DoneOk, EdgesVisited, EdgesLow;
    var top, next := |s.work| - 1, Next(g, s);
    AdvanceCore(g, s);
    if s.on[next] {
      ReachStep(Calls(g), s.work[top], next);
      LowerCore(g, Advance(s), top, next);
    }
    ExamineVisited(g, s);
    ExamineLow(g, s);
  }
}
