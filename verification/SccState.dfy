/** The iterative Tarjan pass as a state machine with an explicit work stack, and its invariant. */
module SccState {
  import opened Graphs
  import opened Scc

  // ---------------------------------------------------------------- the machine

  /**
   * `progress[v]` counts the loop iterations spent on `v`: one per successor examined and one more
   * when `v` is finished. Everything else is a variable of the algorithm.
   */
  datatype State = State(
    index: seq<int>, low: seq<int>, on: seq<bool>, comp: seq<int>,
    stack: seq<nat>, work: seq<nat>, pos: seq<nat>,
    counter: nat, count: nat, progress: seq<nat>)

  ghost function Init(g: Graph): State {
    State(seq(|g|, _ => -1), seq(|g|, _ => 0), seq(|g|, _ => false), seq(|g|, _ => -1),
          [], [], [], 0, 0, seq(|g|, _ => 0))
  }

  ghost predicate Shape(g: Graph, s: State) {
    && |s.index| == |s.low| == |s.on| == |s.comp| == |s.progress| == |g|
    && |s.work| == |s.pos|
    && (forall v :: 0 <= v < |g| ==> -1 <= s.index[v] < s.counter)
    && (forall v :: 0 <= v < |g| ==> -1 <= s.comp[v] < s.count)
    && (forall v :: 0 <= v < |g| ==> s.progress[v] <= |g[v]| + 1)
  }

  /** `xs` lists visited nodes in the order of their discovery. */
  ghost predicate Rising(index: seq<int>, xs: seq<nat>) {
    && (forall i :: 0 <= i < |xs| ==> xs[i] < |index| && 0 <= index[xs[i]])
    && (forall i, j :: 0 <= i < j < |xs| ==> index[xs[i]] < index[xs[j]])
  }

  /** The component stack lists, in discovery order, the visited nodes that have no component yet. */
  ghost predicate StackOk(g: Graph, s: State)
    requires Shape(g, s)
  {
    && (forall u, v :: 0 <= u < |g| && 0 <= v < |g| && s.index[u] == s.index[v] >= 0 ==> u == v)
    && (forall v :: 0 <= v < |g| ==> (s.on[v] <==> s.index[v] >= 0 && s.comp[v] == -1))
    && (forall v :: 0 <= v < |g| && s.comp[v] >= 0 ==> s.index[v] >= 0)
    && (forall i :: 0 <= i < |s.stack| ==> s.stack[i] < |g| && s.on[s.stack[i]])
    && (forall v :: 0 <= v < |g| && s.on[v] ==> v in s.stack)
    && Rising(s.index, s.stack)
  }

  /** The work stack is a sub-chain of the component stack, starting at its bottom. */
  ghost predicate WorkOk(g: Graph, s: State)
    requires Shape(g, s)
  {
    && (forall k :: 0 <= k < |s.work| ==> s.work[k] < |g| && s.on[s.work[k]] && s.index[s.work[k]] >= 0)
    && (forall k :: 0 <= k < |s.work| ==> s.pos[k] == s.progress[s.work[k]] <= |g[s.work[k]]|)
    && Rising(s.index, s.work)
    && (s.work == [] ==> s.stack == [])
    && (forall v :: 0 <= v < |g| && s.on[v] && s.work != [] ==> s.index[s.work[0]] <= s.index[v])
  }

  /** Unvisited nodes have not been worked on; visited nodes off the work stack are finished. */
  ghost predicate ProgressOk(g: Graph, s: State)
    requires Shape(g, s)
  {
    && (forall v :: 0 <= v < |g| && s.index[v] < 0 ==> s.progress[v] == 0)
    && (forall v :: 0 <= v < |g| && s.index[v] >= 0 && v !in s.work ==> s.progress[v] == |g[v]| + 1)
  }

  /** `v` was discovered before the work node above `work[k]`, if there is one. */
  ghost predicate UpTo(s: State, v: nat, k: nat)
    requires v < |s.index| && k < |s.work| && (k + 1 < |s.work| ==> s.work[k + 1] < |s.index|)
  {
    k + 1 < |s.work| ==> s.index[v] < s.index[s.work[k + 1]]
  }

  ghost predicate LowWitness(g: Graph, s: State, v: nat, w: nat)
    requires Shape(g, s)
  {
    v < |g| && w < |g| && s.on[w] && s.index[w] == s.low[v] && Reach(Calls(g), v, w)
  }

  ghost predicate HasWitness(g: Graph, s: State, v: nat)
    requires Shape(g, s)
  {
    exists w: nat :: LowWitness(g, s, v, w)
  }

  /** `low[v]` is at most the index of `v`, and is the index of a stacked node that `v` reaches. */
  ghost predicate LowOk(g: Graph, s: State)
    requires Shape(g, s)
  {
    forall k :: 0 <= k < |s.work| ==>
      && s.work[k] < |g|
      && s.low[s.work[k]] <= s.index[s.work[k]]
      && HasWitness(g, s, s.work[k])
  }

  /** Every examined successor has been visited. */
  ghost predicate EdgesVisited(g: Graph, s: State)
    requires Shape(g, s) && InRange(g)
  {
    forall v, j :: 0 <= v < |g| && 0 <= j < |g[v]| && j < s.progress[v] ==> s.index[g[v][j]] >= 0
  }

  /** The edge `g[v][j]`, once examined from the frame of `work[k]`, does not lead below the frame's low. */
  ghost predicate LowEdge(g: Graph, s: State, v: nat, j: nat, k: nat)
    requires Shape(g, s) && InRange(g) && v < |g| && j < |g[v]|
    requires k < |s.work| && s.work[k] < |g| && (k + 1 < |s.work| ==> s.work[k + 1] < |g|)
  {
    j < s.progress[v] && s.on[v] && s.on[g[v][j]] && s.index[s.work[k]] <= s.index[v] && UpTo(s, v, k)
    ==> s.low[s.work[k]] <= s.index[g[v][j]]
  }

  /** No examined edge leaves a frame of the work stack for a stacked node below the frame's low. */
  ghost predicate EdgesLow(g: Graph, s: State)
    requires Shape(g, s) && WorkOk(g, s) && InRange(g)
  {
    forall v: nat, j: nat, k: nat {:trigger LowEdge(g, s, v, j, k)} ::
      v < |g| && j < |g[v]| && k < |s.work| ==> LowEdge(g, s, v, j, k)
  }

  /** A work node reaches everything stacked that was discovered after it. */
  ghost predicate WorkReaches(g: Graph, s: State)
    requires Shape(g, s) && WorkOk(g, s)
  {
    forall k: nat, v: nat {:trigger s.work[k], s.on[v]} ::
      k < |s.work| && v < |g| && s.on[v] && s.index[s.work[k]] <= s.index[v] ==> Reach(Calls(g), s.work[k], v)
  }

  /** Everything stacked reaches the work node it was discovered under, and the work nodes above that one. */
  ghost predicate ReachesWork(g: Graph, s: State)
    requires Shape(g, s) && WorkOk(g, s)
  {
    forall k: nat, v: nat {:trigger UpTo(s, v, k)} ::
      k < |s.work| && v < |g| && s.on[v] && UpTo(s, v, k) ==> Reach(Calls(g), v, s.work[k])
  }

  /** Finished components are closed under calls, numbered downwards, all used, and mutually reachable. */
  ghost predicate DoneOk(g: Graph, s: State)
    requires Shape(g, s) && InRange(g)
  {
    && (forall v, j :: 0 <= v < |g| && 0 <= j < |g[v]| && s.comp[v] >= 0 ==> 0 <= s.comp[g[v][j]] <= s.comp[v])
    && (forall c :: 0 <= c < s.count ==> c in s.comp)
    && (forall u: nat, v: nat :: u < |g| && v < |g| && s.comp[u] == s.comp[v] >= 0 ==> Reach(Calls(g), u, v))
  }

  ghost predicate Core(g: Graph, s: State) {
    && InRange(g)
    && Shape(g, s) && StackOk(g, s) && WorkOk(g, s) && ProgressOk(g, s) && LowOk(g, s)
    && WorkReaches(g, s) && ReachesWork(g, s) && DoneOk(g, s)
  }

  ghost predicate Inv(g: Graph, s: State) {
    Core(g, s) && EdgesVisited(g, s) && EdgesLow(g, s)
  }

  // ---------------------------------------------------------------- the steps

  /** Visit `v` for the first time: number it and put it on both stacks. */
  ghost function Discover(s: State, v: nat): State
    requires v < |s.index| == |s.low| == |s.on|
  {
    s.(index := s.index[v := s.counter], low := s.low[v := s.counter], on := s.on[v := true],
       stack := s.stack + [v], work := s.work + [v], pos := s.pos + [0], counter := s.counter + 1)
  }

  /** Step over the next successor of the top work node. */
  ghost function Advance(s: State): State
    requires 0 < |s.work| == |s.pos| && s.work[|s.work| - 1] < |s.progress|
  {
    var top := |s.work| - 1;
    s.(pos := s.pos[top := s.pos[top] + 1],
       progress := s.progress[s.work[top] := s.pos[top] + 1])
  }

  ghost function Lower(s: State, v: nat, bound: int): State
    requires v < |s.low|
  {
    if bound < s.low[v] then s.(low := s.low[v := bound]) else s
  }

  /** Give the next component number to everything stacked from position `p` on. */
  ghost function Close(s: State, p: nat): State
    requires p < |s.stack| && s.stack[p] < |s.index| == |s.on| == |s.comp|
  {
    var node := s.stack[p];
    s.(on := seq(|s.on|, v requires 0 <= v < |s.on| => s.on[v] && s.index[v] < s.index[node]),
       comp := seq(|s.on|, v requires 0 <= v < |s.on| =>
                     if s.on[v] && s.index[v] >= s.index[node] then s.count else s.comp[v]),
       stack := s.stack[..p], count := s.count + 1)
  }

  /** Leave the top work node. */
  ghost function Drop(g: Graph, s: State): State
    requires s.work != [] && |s.pos| == |s.work| && |s.progress| == |g| && s.work[|s.work| - 1] < |g|
  {
    var top := |s.work| - 1;
    var node := s.work[top];
    s.(work := s.work[..top], pos := s.pos[..top], progress := s.progress[node := |g[node]| + 1])
  }

  // ---------------------------------------------------------------- the start and the next edge

  lemma InitInv(g: Graph)
    requires InRange(g)
    ensures Inv(g, Init(g))
  {
  }

  /** The top work node still has a successor to examine. */
  ghost predicate AtEdge(g: Graph, s: State)
    requires Shape(g, s) && WorkOk(g, s)
  {
    s.work != [] && s.pos[|s.work| - 1] < |g[s.work[|s.work| - 1]]|
  }

  ghost function Next(g: Graph, s: State): nat
    requires Shape(g, s) && WorkOk(g, s) && AtEdge(g, s)
  {
    g[s.work[|s.work| - 1]][s.pos[|s.work| - 1]]
  }
}
