/** What the join makes of a frame, told by the stored nodes alone: their files, names and line ranges. */
module FrameMeaning {
  import opened Sums
  import opened Records
  import opened Resolve
  import opened ProfileReader
  import opened Join
  import Numerals

  /** The node is of a named kind and has the frame's name or its last dotted part; synthetic frames name nothing. */
  ghost predicate Answers(n: TargetNode, functionName: string) {
    && functionName != "" && functionName[0] != '('
    && (n.kind == "Function" || n.kind == "Method" || n.kind == "Property" || n.kind == "Variable" || n.kind == "Class")
    && (n.name == functionName || EndsInName(functionName, n.name))
  }

  /** The node's line range is a proper one and holds the line. */
  ghost predicate Holds(n: TargetNode, line: int) {
    1 <= n.startLine <= line <= n.endLine
  }

  /** The narrower range, or of two equally wide ones the later. */
  ghost predicate Tighter(a: TargetNode, b: TargetNode) {
    || a.endLine - a.startLine < b.endLine - b.startLine
    || (a.endLine - a.startLine == b.endLine - b.startLine && a.startLine > b.startLine)
  }

  ghost function Answering(file: string, functionName: string): TargetNode -> real {
    (n: TargetNode) => if n.filePath == file && Answers(n, functionName) then 1.0 else 0.0
  }

  /** The number of nodes of the file that the frame names. */
  ghost function Named(nodes: seq<TargetNode>, file: string, functionName: string): real {
    Sum(nodes, Answering(file, functionName))
  }

  /** Of the file's nodes that qualify, this one holds the line and none that holds it is tighter. */
  ghost predicate Tightest(nodes: seq<TargetNode>, file: string, functionName: string, onlyNamed: bool, line: int,
                           n: TargetNode) {
    && Holds(n, line)
    && forall m :: m in nodes && m.filePath == file && (onlyNamed ==> Answers(m, functionName)) && Holds(m, line) ==>
         !Tighter(m, n)
  }

  /** None of the file's nodes that qualify holds the line. */
  ghost predicate NoneHolds(nodes: seq<TargetNode>, file: string, functionName: string, onlyNamed: bool, line: int) {
    forall m :: m in nodes && m.filePath == file && (onlyNamed ==> Answers(m, functionName)) ==> !Holds(m, line)
  }

  /**
   * The outcome for a frame whose url names `file`: the one node of the file so named, the tightest of
   * several that hold the line, or without a node so named the tightest node of the file that holds it.
   */
  ghost predicate IsOutcome(nodes: seq<TargetNode>, file: Option<string>, functionName: string, line: int,
                            r: Resolution) {
    match file
    case None => r == Missing(NoFile)
    case Some(f) =>
      var named := Named(nodes, f, functionName);
      match r
      case Found(n, ByName) =>
        && n in nodes && n.filePath == f && Answers(n, functionName)
        && (named == 1.0 || (named > 1.0 && Tightest(nodes, f, functionName, true, line, n)))
      case Found(n, ByRange) =>
        n in nodes && n.filePath == f && named == 0.0 && Tightest(nodes, f, functionName, false, line, n)
      case Missing(Ambiguous) => named > 1.0 && NoneHolds(nodes, f, functionName, true, line)
      case Missing(NoNode) => named == 0.0 && NoneHolds(nodes, f, functionName, false, line)
      case Missing(NoFile) => false
  }

  lemma AnswersIff(n: TargetNode, functionName: string)
    ensures Answers(n, functionName) <==> IsMeaningfulName(functionName) && Resolve.Named(n, functionName)
  {
    NamedIff(n, functionName);
    hide Resolve.Named, EndsInName;
  }

  lemma {:induction false} NamesCounted(nodes: seq<TargetNode>, file: string, functionName: string)
    ensures |NameMatches(InFile(nodes, file), functionName)| as real == Named(nodes, file, functionName)
  {
    if nodes != [] {
      var init, last := nodes[..|nodes| - 1], nodes[|nodes| - 1];
      NamesCounted(init, file, functionName);
      AnswersIff(last, functionName);
      var here := InFile(init, file);
      hide Resolve.Named, Answers, IsMeaningfulName;
      assert (here + [last])[..|here|] == here;
      assert here + [] == here;
    }
  }

  /** What is tightest among the nodes of a list that enclose the line. */
  lemma InnermostIsTightest(list: seq<TargetNode>, line: int, n: TargetNode)
    requires IsInnermostNode(list, line, n)
    ensures Holds(n, line) && forall m :: m in list && Holds(m, line) ==> !Tighter(m, n)
  {
    var k: nat :| IsInnermost(list, line, k) && list[k] == n;
    forall m | m in list && Holds(m, line)
      ensures !Tighter(m, n)
    {
      var j :| 0 <= j < |list| && list[j] == m;
    }
  }

  lemma ResolvedIsOutcome(nodes: seq<TargetNode>, file: string, functionName: string, line: int)
    ensures IsOutcome(nodes, Some(file), functionName, line, ResolveIn(InFile(nodes, file), functionName, line))
  {
    var here := InFile(nodes, file);
    var named, r := NameMatches(here, functionName), ResolveIn(here, functionName, line);
    ResolutionMeaning(here, functionName, line);
    NamesCounted(nodes, file, functionName);
    forall m {
      AnswersIff(m, functionName);
    }
    assert forall m :: m in named <==> m in nodes && m.filePath == file && Answers(m, functionName);
    hide ResolveIn, NameMatches, InFile, Answers, Named, Resolve.Named, IsInnermostNode, Tighter;
    match r
    case Found(n, ByName) =>
      assert n in named;
      if |named| > 1 {
        InnermostIsTightest(named, line, n);
      }
    case Found(n, ByRange) => InnermostIsTightest(here, line, n);
    case Missing(_) =>
  }

  /** Every frame and every end of a call edge has the outcome that its url, its name and its line determine. */
  lemma FrameOutcome(paths: Paths, nodes: seq<TargetNode>, functionName: string, url: string, line: int)
    ensures exists file: Option<string> ::
      && IsFileOf(paths, Files(nodes), url, file)
      && IsOutcome(nodes, file, functionName, line, ResolveFrame(paths, nodes, functionName, url, line))
  {
    var file := ResolveFile(paths, Files(nodes), url);
    ResolveFileMeaning(paths, Files(nodes), url);
    if file.Some? {
      ResolvedIsOutcome(nodes, file.value, functionName, line);
    }
    hide IsFileOf, ResolveFile, ResolveIn, Files, InFile, Named, Answers;
    assert IsFileOf(paths, Files(nodes), url, file);
  }

  // ---------------------------------------------------------------- drop groups

  /** A drop group's key: the cause, and the function with its url or with its place. */
  lemma DropKeyReads(f: FrameSample, reason: Reason)
    ensures var name := if f.functionName == "" then "(anonymous)" else f.functionName;
      var line := if f.line < 0 then "-" + Numerals.Decimal(-f.line) else Numerals.Decimal(f.line);
      DropKeyOf(f, reason) ==
        match reason
        case NoFile => if f.url == "" then "no-file:" + name else "no-file:" + name + " " + f.url
        case NoNode => "no-node:" + name + " " + f.url + ":" + line
        case Ambiguous => "ambiguous:" + name + " " + f.url + ":" + line
  {
    hide Numerals.Decimal;
    var name := if f.functionName == "" then "(anonymous)" else f.functionName;
    match reason
    case NoFile =>
      assert "no-file" + ":" == "no-file:";
      assert "no-file:" + (name + " " + f.url) == "no-file:" + name + " " + f.url;
    case NoNode =>
      assert "no-node" + ":" == "no-node:";
      KeyConcat("no-node:", name, f.url, LineText(f.line));
    case Ambiguous =>
      assert "ambiguous" + ":" == "ambiguous:";
      KeyConcat("ambiguous:", name, f.url, LineText(f.line));
  }

  lemma KeyConcat(reason: string, name: string, url: string, line: string)
    ensures reason + (name + " " + url + ":" + line) == reason + name + " " + url + ":" + line
  {
  }
}
