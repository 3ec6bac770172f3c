/** Two call edges between four stored nodes whose pairs share one key, so that the call-edge join loses a pair. */
module Collision {
  import opened Sums
  import opened Records
  import opened Strings
  import opened Resolve
  import opened ProfileReader
  import opened Join

  const A := TargetNode("a", "Function", "p", "f", 1, 1)
  const BC := TargetNode("b->c", "Function", "q", "f", 2, 2)
  const AB := TargetNode("a->b", "Function", "r", "f", 3, 3)
  const C := TargetNode("c", "Function", "s", "f", 4, 4)
  const NODES := [A, BC, AB, C]
  const SITE := Site(NODES, Paths((url: string) => None, (path: string) => path, (path: string) => false))

  const P_CALLS_Q := RuntimeCallEdge(FrameRef("p", "f", 1), FrameRef("q", "f", 2), 3.0)
  const R_CALLS_S := RuntimeCallEdge(FrameRef("r", "f", 3), FrameRef("s", "f", 4), 4.0)
  const CALLS := [P_CALLS_Q, R_CALLS_S]

  lemma FileSnoc(nodes: seq<TargetNode>, n: TargetNode)
    ensures Files(nodes + [n]) == if n.filePath in Files(nodes) then Files(nodes) else Files(nodes) + [n.filePath]
    ensures InFile(nodes + [n], n.filePath) == InFile(nodes, n.filePath) + [n]
  {
    assert (nodes + [n])[..|nodes|] == nodes;
  }

  lemma NoFile(f: string)
    ensures Files([]) == [] && InFile([], f) == []
  {
  }

  /** Nodes that all lie in one file. */
  lemma {:induction false} InOneFile(nodes: seq<TargetNode>, f: string)
    requires nodes != [] && forall i :: 0 <= i < |nodes| ==> nodes[i].filePath == f
    ensures Files(nodes) == [f] && InFile(nodes, f) == nodes
  {
    hide *;
    var init, last := nodes[..|nodes| - 1], nodes[|nodes| - 1];
    assert nodes == init + [last];
    FileSnoc(init, last);
    NoFile(f);
    if init != [] {
      InOneFile(init, f);
    }
  }

  lemma OneFile()
    ensures Files(NODES) == ["f"] && InFile(NODES, "f") == NODES
  {
    InOneFile(NODES, "f");
  }

  lemma OneFileResolves()
    ensures ResolveFile(SITE.paths, ["f"], "f") == Some("f")
  {
    assert |"f"| < |"node:"|;
  }

  /** A one-letter name is its own only candidate. */
  lemma LetterNamed(n: TargetNode, name: string)
    requires |name| == 1 && name[0] != '.' && n.kind == "Function"
    ensures Named(n, name) <==> n.name == name
  {
    assert LastIndex(name, '.') == -1;
  }

  /** The names of the four nodes are different letters. */
  lemma LettersDiffer(m: TargetNode, n: TargetNode)
    requires m in NODES && n in NODES
    ensures m.name == n.name ==> m == n
    ensures |n.name| == 1 && n.name[0] != '.' && n.name[0] != '(' && n.kind == "Function"
  {
    assert "p"[0] == 'p' && "q"[0] == 'q' && "r"[0] == 'r' && "s"[0] == 's';
  }

  lemma NodesDistinct()
    ensures Distinct(NODES)
  {
    assert forall i :: 0 <= i < 4 ==> NODES[i].startLine == i + 1;
  }

  lemma ResolvesByName(n: TargetNode, line: int)
    requires NameFilter(NODES, n.name) == [n] && IsMeaningfulName(n.name)
    ensures ResolveRef(SITE, FrameRef(n.name, "f", line)) == Found(n, ByName)
  {
    OneFile();
    OneFileResolves();
    hide NameFilter, ResolveFile, Files, InFile, Innermost;
  }

  lemma FoundByLetter(n: TargetNode, line: int)
    requires n in NODES
    ensures ResolveRef(SITE, FrameRef(n.name, "f", line)) == Found(n, ByName)
  {
    hide Named, NameFilter, ResolveRef;
    var i: nat :| i < |NODES| && NODES[i] == n;
    NodesDistinct();
    forall k | 0 <= k < |NODES|
      ensures Named(NODES[k], n.name) <==> k == i
    {
      LettersDiffer(NODES[k], n);
      LettersDiffer(NODES[k], NODES[k]);
      LetterNamed(NODES[k], n.name);
    }
    OnlyNamed(NODES, i, n.name);
    LettersDiffer(n, n);
    ResolvesByName(n, line);
  }

  lemma EndsOfCalls()
    ensures Joined(SITE, P_CALLS_Q) && Ends(SITE, P_CALLS_Q) == ("a", "b->c")
    ensures Joined(SITE, R_CALLS_S) && Ends(SITE, R_CALLS_S) == ("a->b", "c")
  {
    FoundByLetter(A, 1);
    FoundByLetter(BC, 2);
    FoundByLetter(AB, 3);
    FoundByLetter(C, 4);
    hide ResolveRef;
    assert |"a"| == 1 && |"b->c"| == 4 && |"a->b"| == 4 && |"c"| == 1;
  }

  /** One key for two pairs keeps one entry, under the pair that came first. */
  lemma OneEntry(e: RuntimeCallEdge, f: RuntimeCallEdge)
    requires Joined(SITE, e) && Joined(SITE, f) && PairKey(Ends(SITE, e)) == PairKey(Ends(SITE, f))
    ensures JoinedEdges(SITE, [e, f]) == [e, f] && |AggregationOf(SITE, [e, f]).order| == 1
  {
    hide Joined, Ends, PairKey;
    assert [e, f][..1] == [e] && [e][..0] == [];
    assert JoinedEdges(SITE, [e]) == [e];
    assert AggregationOf(SITE, [e]) == AddEdge(NO_EDGES, Ends(SITE, e), e.samples);
  }

  lemma OneKey()
    ensures PairKey(("a", "b->c")) == PairKey(("a->b", "c")) && ("a", "b->c") != ("a->b", "c")
  {
    PairKeyCollides();
    assert |"a"| != |"a->b"|;
  }

  lemma KeysCollide()
    ensures !KeysExact(SITE, CALLS)
  {
    OneKey();
    EndsOfCalls();
    hide PairKey, Ends;
    assert P_CALLS_Q in CALLS && R_CALLS_S in CALLS;
  }

  /** Both edges join stored nodes, yet the output holds one edge and one of the two pairs is missing. */
  lemma PairIsLost(r: CallJoin)
    requires IsCallJoin(SITE, CALLS, r)
    ensures r.matchedEdges == 2 && r.droppedEdges == 0 && |r.edges| == 1
    ensures !PairsListed(SITE, CALLS, r)
  {
    OneKey();
    EndsOfCalls();
    KeysCollide();
    hide Joined, Ends, PairKey, JoinedEdges, AggregationOf, KeysExact, PairsListed, UnjoinedEdges;
    OneEntry(P_CALLS_Q, R_CALLS_S);
    EdgeSplitTotals(SITE, CALLS);
    PairsListedIff(SITE, CALLS, r);
  }
}
