/** Resolving a profile frame to one stored node: file first, then name, then innermost enclosing range. */
module Resolve {
  import opened Sums
  import opened Records
  import opened Strings

  datatype Via = ByName | ByRange

  datatype Reason = NoFile | NoNode | Ambiguous

  datatype Resolution = Found(node: TargetNode, via: Via) | Missing(reason: Reason)

  /** The path helpers of the runtime, taken as given functions for one project root. */
  datatype Paths = Paths(
    toAbsolute: string -> Option<string>, relativeToRoot: string -> string, isAbsolute: string -> bool)

  // ---------------------------------------------------------------- files

  predicate StartsWith(s: string, prefix: string) {
    prefix <= s
  }

  predicate EndsWith(s: string, suffix: string) {
    |suffix| <= |s| && s[|s| - |suffix|..] == suffix
  }

  /** The path is the file, or ends with it at a separator. */
  predicate PathMatches(path: string, file: string) {
    path == file || EndsWith(path, "/" + file)
  }

  /** The files that a path matches, in order. */
  function Matching(files: seq<string>, path: string): (m: seq<string>)
    ensures forall f :: f in m <==> f in files && PathMatches(path, f)
  {
    if files == [] then [] else
      assert files == files[..|files| - 1] + [files[|files| - 1]];
      Matching(files[..|files| - 1], path) + if PathMatches(path, files[|files| - 1]) then [files[|files| - 1]] else []
  }

  /** The one file a path matches, if there is exactly one. */
  function UniqueMatch(files: seq<string>, path: string): Option<string> {
    var m := Matching(files, path);
    if |m| == 1 then Some(m[0]) else None
  }

  /** The path is the file's, or the file's under some directory. */
  ghost predicate LeadsTo(path: string, file: string) {
    path == file || exists prefix: string :: path == prefix + "/" + file
  }

  /** The one file that a path leads to, and none when it leads to several or to none. */
  ghost predicate IsOnlyFile(files: seq<string>, path: string, file: Option<string>) {
    forall f :: file == Some(f) <==>
      f in files && LeadsTo(path, f) && forall g :: g in files && LeadsTo(path, g) ==> g == f
  }

  /**
   * What a frame's url names: nothing for an empty or internal url, a listed file for a url that is no
   * absolute path, and otherwise the path below the root when that is a listed file, or else the one file
   * that the absolute path leads to.
   */
  ghost predicate IsFileOf(paths: Paths, files: seq<string>, url: string, file: Option<string>) {
    var absolute := paths.toAbsolute(url);
    if url == "" || "node:" <= url then file == None
    else if absolute == None then file == if url in files then Some(url) else None
    else
      var below := paths.relativeToRoot(absolute.value);
      if below in files && below != "" && !(".." <= below) && !paths.isAbsolute(below) then file == Some(below)
      else IsOnlyFile(files, absolute.value, file)
  }

  function ResolveFile(paths: Paths, files: seq<string>, url: string): Option<string> {
    if url == "" || StartsWith(url, "node:") then None
    else match paths.toAbsolute(url)
      case None => if url in files then Some(url) else None
      case Some(absolute) =>
        var candidate := paths.relativeToRoot(absolute);
        if candidate != "" && !StartsWith(candidate, "..") && !paths.isAbsolute(candidate) && candidate in files
        then Some(candidate)
        else UniqueMatch(files, absolute)
  }

  method ResolveFilePath(paths: Paths, files: seq<string>, url: string) returns (file: Option<string>)
    requires Distinct(files)
    ensures file == ResolveFile(paths, files, url) && IsFileOf(paths, files, url, file)
  {
    ResolveFileMeaning(paths, files, url);
    hide IsFileOf;
    if |url| == 0 || StartsWith(url, "node:") {
      return None;
    }
    var absolute := paths.toAbsolute(url);
    if absolute == None {
      return if url in files then Some(url) else None;
    }
    var candidate := paths.relativeToRoot(absolute.value);
    if |candidate| > 0 && !StartsWith(candidate, "..") && !paths.isAbsolute(candidate) && candidate in files {
      return Some(candidate);
    }
    file := None;
    for i := 0 to |files|
      invariant Matching(files[..i], absolute.value) == if file == None then [] else [file.value]
    {
      assert files[..i + 1][..i] == files[..i];
      if PathMatches(absolute.value, files[i]) {
        if file != None && file.value != files[i] {
          MatchingGrows(files, i + 1, absolute.value);
          return None;
        }
        file := Some(files[i]);
      }
    }
    assert files[..|files|] == files;
  }

  lemma {:induction false} MatchingGrows(files: seq<string>, i: nat, path: string)
    requires i <= |files|
    ensures |Matching(files[..i], path)| <= |Matching(files, path)|
    decreases |files| - i
  {
    if i < |files| {
      assert files[..i + 1][..i] == files[..i];
      MatchingGrows(files, i + 1, path);
    } else {
      assert files[..i] == files;
    }
  }

  /** Outside the root, a file is chosen exactly when it is the only one the path matches. */
  lemma UniqueMatchIff(files: seq<string>, path: string, f: string)
    requires Distinct(files)
    ensures UniqueMatch(files, path) == Some(f) <==>
      f in files && PathMatches(path, f) && forall g :: g in files && PathMatches(path, g) ==> g == f
  {
    var m := Matching(files, path);
    MatchingDistinct(files, path);
    if |m| == 1 {
      assert m[0] in m;
    } else if |m| > 1 {
      assert m[0] in m && m[1] in m;
    }
  }

  lemma {:induction false} MatchingDistinct(files: seq<string>, path: string)
    requires Distinct(files)
    ensures Distinct(Matching(files, path))
  {
    if files != [] {
      MatchingDistinct(files[..|files| - 1], path);
      assert files[|files| - 1] !in files[..|files| - 1];
    }
  }

  lemma MatchesLeads(path: string, file: string)
    ensures PathMatches(path, file) <==> LeadsTo(path, file)
  {
    if EndsWith(path, "/" + file) {
      assert path == path[..|path| - |file| - 1] + "/" + file;
    }
    if prefix: string :| path == prefix + "/" + file {
      assert path[|path| - |file| - 1..] == "/" + file;
    }
  }

  /** A url resolves to the file it names. */
  lemma ResolveFileMeaning(paths: Paths, files: seq<string>, url: string)
    requires Distinct(files)
    ensures IsFileOf(paths, files, url, ResolveFile(paths, files, url))
  {
    var absolute := paths.toAbsolute(url);
    if absolute.Some? {
      var file := UniqueMatch(files, absolute.value);
      forall f
        ensures file == Some(f) <==>
          f in files && LeadsTo(absolute.value, f) && forall g :: g in files && LeadsTo(absolute.value, g) ==> g == f
      {
        UniqueMatchIff(files, absolute.value, f);
        forall g {
          MatchesLeads(absolute.value, g);
        }
      }
      hide UniqueMatch, LeadsTo;
    }
  }

  // ---------------------------------------------------------------- names

  predicate IsMeaningfulName(functionName: string) {
    functionName != "" && functionName[0] != '('
  }

  /** The name itself and, when it has one, its non-empty last dotted segment. */
  function CandidateNames(functionName: string): seq<string> {
    var dot := LastIndex(functionName, '.');
    if dot >= 0 && dot < |functionName| - 1 then [functionName, functionName[dot + 1..]] else [functionName]
  }

  const NAME_MATCH_KINDS := {"Function", "Method", "Property", "Variable", "Class"}

  predicate Named(node: TargetNode, functionName: string) {
    node.kind in NAME_MATCH_KINDS && node.name in CandidateNames(functionName)
  }

  function NameFilter(nodes: seq<TargetNode>, functionName: string): (m: seq<TargetNode>)
    ensures forall n :: n in m <==> n in nodes && Named(n, functionName)
  {
    if nodes == [] then [] else
      assert nodes == nodes[..|nodes| - 1] + [nodes[|nodes| - 1]];
      NameFilter(nodes[..|nodes| - 1], functionName) +
      if Named(nodes[|nodes| - 1], functionName) then [nodes[|nodes| - 1]] else []
  }

  /** The dotted name ends in this name, which holds no dot. */
  ghost predicate EndsInName(functionName: string, name: string) {
    name != "" && '.' !in name && exists owner: string :: functionName == owner + "." + name
  }

  /** A node is matched by name when it is of a named kind and has the frame's name or its last dotted part. */
  lemma NamedIff(node: TargetNode, functionName: string)
    ensures Named(node, functionName) <==>
      && (node.kind == "Function" || node.kind == "Method" || node.kind == "Property" || node.kind == "Variable"
          || node.kind == "Class")
      && (node.name == functionName || EndsInName(functionName, node.name))
  {
    CandidateIff(functionName, node.name);
    hide EndsInName, CandidateNames;
  }

  lemma CandidateIff(functionName: string, name: string)
    ensures name in CandidateNames(functionName) <==> name == functionName || EndsInName(functionName, name)
  {
    hide LastIndex;
    var dot := LastIndex(functionName, '.');
    if EndsInName(functionName, name) {
      var owner: string :| functionName == owner + "." + name;
      LastAt(owner + ".", name, '.');
      assert functionName[|owner| + 1..] == name;
    }
    if dot >= 0 {
      var last := functionName[dot + 1..];
      assert functionName == functionName[..dot] + "." + last;
      assert '.' !in last;
    }
  }

  function NameMatches(nodes: seq<TargetNode>, functionName: string): seq<TargetNode> {
    if IsMeaningfulName(functionName) then NameFilter(nodes, functionName) else []
  }

  // ---------------------------------------------------------------- ranges

  /** The node has a proper line range and the line lies in it. */
  predicate Encloses(node: TargetNode, line: int) {
    1 <= node.startLine <= line <= node.endLine
  }

  function Span(node: TargetNode): int {
    node.endLine - node.startLine
  }

  /** A narrower range, or an equally wide one that starts later. */
  predicate Inner(a: TargetNode, b: TargetNode) {
    Span(a) < Span(b) || (Span(a) == Span(b) && a.startLine > b.startLine)
  }

  /** `nodes[k]` encloses the line, no other enclosing node is inner to it, and no earlier one ties with it. */
  ghost predicate IsInnermost(nodes: seq<TargetNode>, line: int, k: nat) {
    && k < |nodes| && Encloses(nodes[k], line)
    && (forall j :: 0 <= j < |nodes| && Encloses(nodes[j], line) ==> !Inner(nodes[j], nodes[k]))
    && (forall j :: 0 <= j < k && Encloses(nodes[j], line) ==> Inner(nodes[k], nodes[j]))
  }

  lemma InnermostUnique(nodes: seq<TargetNode>, line: int, j: nat, k: nat)
    requires IsInnermost(nodes, line, j) && IsInnermost(nodes, line, k)
    ensures j == k
  {
  }

  /** The position of the innermost node enclosing the line, or -1 when none does. */
  function Innermost(nodes: seq<TargetNode>, line: int): (k: int)
    ensures -1 <= k < |nodes|
    ensures k == -1 <==> forall j :: 0 <= j < |nodes| ==> !Encloses(nodes[j], line)
    ensures k >= 0 ==> IsInnermost(nodes, line, k)
  {
    if nodes == [] then -1 else
      var last := nodes[|nodes| - 1];
      var k := Innermost(nodes[..|nodes| - 1], line);
      if Encloses(last, line) && (k == -1 || Inner(last, nodes[k])) then |nodes| - 1 else k
  }

  method EnclosingNode(nodes: seq<TargetNode>, line: int) returns (best: Option<TargetNode>)
    ensures best == if Innermost(nodes, line) == -1 then None else Some(nodes[Innermost(nodes, line)])
  {
    if line < 1 {
      return None;
    }
    best := None;
    var bestSpan := 0;
    for i := 0 to |nodes|
      invariant best == if Innermost(nodes[..i], line) == -1 then None else Some(nodes[Innermost(nodes[..i], line)])
      invariant best.Some? ==> bestSpan == Span(best.value)
    {
      var node := nodes[i];
      assert nodes[..i + 1][..i] == nodes[..i];
      if node.startLine < 1 || node.endLine < node.startLine {
        continue;
      }
      if line < node.startLine || line > node.endLine {
        continue;
      }
      var span := node.endLine - node.startLine;
      if best == None || span < bestSpan || (span == bestSpan && node.startLine > best.value.startLine) {
        best := Some(node);
        bestSpan := span;
      }
    }
    assert nodes[..|nodes|] == nodes;
  }

  /** Two ranges are nested or disjoint. */
  predicate Nested(a: TargetNode, b: TargetNode) {
    || a.endLine < b.startLine || b.endLine < a.startLine
    || (a.startLine <= b.startLine && b.endLine <= a.endLine)
    || (b.startLine <= a.startLine && a.endLine <= b.endLine)
  }

  /** In a file of nested or disjoint ranges, the innermost node lies inside every enclosing one. */
  lemma InnermostContained(nodes: seq<TargetNode>, line: int, j: nat)
    requires forall a, b :: a in nodes && b in nodes ==> Nested(a, b)
    requires j < |nodes| && Encloses(nodes[j], line)
    ensures var k := Innermost(nodes, line);
      k >= 0 && nodes[j].startLine <= nodes[k].startLine && nodes[k].endLine <= nodes[j].endLine
  {
    var k := Innermost(nodes, line);
    assert Nested(nodes[j], nodes[k]);
  }

  // ---------------------------------------------------------------- nodes

  /** Name first; the range decides between several names, and alone when no name matches. */
  function ResolveIn(fileNodes: seq<TargetNode>, functionName: string, line: int): Resolution {
    var named := NameMatches(fileNodes, functionName);
    if |named| == 1 then Found(named[0], ByName)
    else if |named| > 1 then
      var k := Innermost(named, line);
      if k >= 0 then Found(named[k], ByName) else Missing(Ambiguous)
    else
      var k := Innermost(fileNodes, line);
      if k >= 0 then Found(fileNodes[k], ByRange) else Missing(NoNode)
  }

  method ResolveNode(fileNodes: seq<TargetNode>, functionName: string, line: int) returns (r: Resolution)
    ensures r == ResolveIn(fileNodes, functionName, line)
  {
    var named := NameMatches(fileNodes, functionName);
    if |named| == 1 {
      return Found(named[0], ByName);
    }
    if |named| > 1 {
      var disambiguated := EnclosingNode(named, line);
      return if disambiguated.Some? then Found(disambiguated.value, ByName) else Missing(Ambiguous);
    }
    var enclosed := EnclosingNode(fileNodes, line);
    return if enclosed.Some? then Found(enclosed.value, ByRange) else Missing(NoNode);
  }

  /** `n` is the innermost of the nodes that enclose the line. */
  ghost predicate IsInnermostNode(nodes: seq<TargetNode>, line: int, n: TargetNode) {
    exists k: nat :: IsInnermost(nodes, line, k) && nodes[k] == n
  }

  /**
   * What a resolution promises: by name, the only node so named or the innermost of several that enclose
   * the line; by range, the innermost enclosing node of a file that has no node so named; a drop names
   * its cause.
   */
  lemma ResolutionMeaning(fileNodes: seq<TargetNode>, functionName: string, line: int)
    ensures var r := ResolveIn(fileNodes, functionName, line); var named := NameMatches(fileNodes, functionName);
      match r
      case Found(n, ByName) =>
        n in fileNodes && Named(n, functionName) && (named == [n] || (|named| > 1 && IsInnermostNode(named, line, n)))
      case Found(n, ByRange) => n in fileNodes && named == [] && IsInnermostNode(fileNodes, line, n)
      case Missing(Ambiguous) => |named| > 1 && forall n :: n in named ==> !Encloses(n, line)
      case Missing(NoNode) => named == [] && forall n :: n in fileNodes ==> !Encloses(n, line)
      case Missing(NoFile) => false
  {
    var named := NameMatches(fileNodes, functionName);
    if |named| == 1 {
      assert named == [named[0]];
    }
    assert forall k :: 0 <= k < |named| ==> named[k] in named;
    var j, k := Innermost(named, line), Innermost(fileNodes, line);
    assert j >= 0 ==> IsInnermostNode(named, line, named[j]);
    assert k >= 0 ==> IsInnermostNode(fileNodes, line, fileNodes[k]);
    hide IsInnermost, Innermost;
  }

  /** A dotted name ends in one name only. */
  lemma OneLastName(functionName: string, name: string, other: string)
    requires EndsInName(functionName, name) && EndsInName(functionName, other)
    ensures name == other
  {
    hide LastIndex;
    var a: string :| functionName == a + "." + name;
    var b: string :| functionName == b + "." + other;
    LastAt(a + ".", name, '.');
    LastAt(b + ".", other, '.');
    SplitAt(a + ".", name);
    SplitAt(b + ".", other);
  }

  lemma OnlyNamed(nodes: seq<TargetNode>, i: nat, functionName: string)
    requires i < |nodes| && Named(nodes[i], functionName)
    requires forall k :: 0 <= k < |nodes| && k != i ==> !Named(nodes[k], functionName)
    ensures NameFilter(nodes, functionName) == [nodes[i]]
  {
    hide Named;
    if i == |nodes| - 1 {
      NoneNamed(nodes[..i], functionName);
    } else {
      OnlyNamed(nodes[..|nodes| - 1], i, functionName);
    }
  }

  lemma {:induction false} NoneNamed(nodes: seq<TargetNode>, functionName: string)
    requires forall k :: 0 <= k < |nodes| ==> !Named(nodes[k], functionName)
    ensures NameFilter(nodes, functionName) == []
  {
    hide Named;
    if nodes != [] {
      NoneNamed(nodes[..|nodes| - 1], functionName);
    }
  }

  /** A frame named after an owner is attached to the file's only node of that last name. */
  lemma DottedNameResolves(nodes: seq<TargetNode>, i: nat, owner: string, name: string, line: int)
    requires i < |nodes| && nodes[i].name == name && name != "" && '.' !in name
    requires nodes[i].kind in {"Function", "Method", "Property", "Variable", "Class"}
    requires forall k :: 0 <= k < |nodes| && k != i ==> nodes[k].name != name && nodes[k].name != owner + "." + name
    requires owner == [] || owner[0] != '('
    ensures ResolveIn(nodes, owner + "." + name, line) == Found(nodes[i], ByName)
  {
    var functionName := owner + "." + name;
    assert EndsInName(functionName, name);
    NamedIff(nodes[i], functionName);
    forall k | 0 <= k < |nodes| && k != i
      ensures !Named(nodes[k], functionName)
    {
      NamedIff(nodes[k], functionName);
      if EndsInName(functionName, nodes[k].name) {
        OneLastName(functionName, name, nodes[k].name);
      }
    }
    assert functionName[0] != '(';
    hide Named, EndsInName, LastIndex;
    OnlyNamed(nodes, i, functionName);
    hide NameFilter;
  }

  // ---------------------------------------------------------------- frames

  /** The nodes of one file, in order. */
  function InFile(nodes: seq<TargetNode>, file: string): (m: seq<TargetNode>)
    ensures forall n :: n in m <==> n in nodes && n.filePath == file
  {
    if nodes == [] then [] else
      assert nodes == nodes[..|nodes| - 1] + [nodes[|nodes| - 1]];
      InFile(nodes[..|nodes| - 1], file) + if nodes[|nodes| - 1].filePath == file then [nodes[|nodes| - 1]] else []
  }

  /** The distinct file paths, in order of first occurrence. */
  function Files(nodes: seq<TargetNode>): (files: seq<string>)
    ensures forall f :: f in files <==> exists i :: 0 <= i < |nodes| && nodes[i].filePath == f
    ensures forall i, j :: 0 <= i < j < |files| ==> files[i] != files[j]
  {
    if nodes == [] then [] else
      var files := Files(nodes[..|nodes| - 1]);
      var file := nodes[|nodes| - 1].filePath;
      assert forall i :: 0 <= i < |nodes| - 1 ==> nodes[..|nodes| - 1][i] == nodes[i];
      if file in files then files else files + [file]
  }

  /** The resolution of a frame against the stored nodes. */
  function ResolveFrame(paths: Paths, nodes: seq<TargetNode>, functionName: string, url: string,
                        line: int): Resolution {
    match ResolveFile(paths, Files(nodes), url)
    case None => Missing(NoFile)
    case Some(file) => ResolveIn(InFile(nodes, file), functionName, line)
  }

  /** A frame is only ever attached to a stored node. */
  lemma FrameResolvesToStored(paths: Paths, nodes: seq<TargetNode>, functionName: string, url: string, line: int)
    ensures var r := ResolveFrame(paths, nodes, functionName, url, line); r.Found? ==> r.node in nodes
  {
    match ResolveFile(paths, Files(nodes), url)
    case None =>
    case Some(file) => ResolutionMeaning(InFile(nodes, file), functionName, line);
  }
}
