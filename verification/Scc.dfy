/** What a numbering of strongly connected components is, for an index-based call graph. */
module Scc {
  import opened Graphs

  type Graph = seq<seq<nat>>

  ghost predicate InRange(g: Graph) {
    forall v, j :: 0 <= v < |g| && 0 <= j < |g[v]| ==> g[v][j] < |g|
  }

  ghost function Calls(g: Graph): (nat, nat) -> bool {
    (u: nat, v: nat) => u < |g| && v in g[u]
  }

  /**
   * What the rest of the program needs from the pass: components are exactly the classes of mutual
   * reachability, every number below `count` is used, and no edge leads to a higher number.
   */
  ghost predicate IsSccNumbering(g: Graph, comp: seq<nat>, count: nat) {
    && |comp| == |g|
    && (forall v :: 0 <= v < |g| ==> comp[v] < count)
    && (forall c: nat :: c < count ==> c in comp)
    && (forall u: nat, v: nat :: u < |g| && v < |g| ==>
          (comp[u] == comp[v] <==> Reach(Calls(g), u, v) && Reach(Calls(g), v, u)))
    && (forall v, j :: 0 <= v < |g| && 0 <= j < |g[v]| ==> g[v][j] < |g| && comp[g[v][j]] <= comp[v])
  }
}
