/** Naming the communities of a clustered graph. */
module Labels {
  import opened Sums
  import opened Tallies
  import opened Records
  import opened Numerals
  import opened Strings
  import opened Symmetrize

  datatype LabelableNode = LabelableNode(id: string, name: string, kind: string, filePath: string)

  /** Node id to community index. */
  type Partition = map<string, nat>

  ghost predicate DistinctNodeIds(nodes: seq<LabelableNode>) {
    forall i, j :: 0 <= i < j < |nodes| ==> nodes[i].id != nodes[j].id
  }

  // ---------------------------------------------------------------- members and degrees

  ghost function CommunityOf(communityOf: Partition): LabelableNode -> int {
    (n: LabelableNode) => if n.id in communityOf then communityOf[n.id] as int else -1
  }

  /** The nodes of a community, in node order. */
  ghost function Members(communityOf: Partition, nodes: seq<LabelableNode>, c: nat): seq<LabelableNode> {
    Select(nodes, CommunityOf(communityOf), c)
  }

  function GroupAt(groups: map<nat, seq<LabelableNode>>, c: nat): seq<LabelableNode> {
    if c in groups then groups[c] else []
  }

  /** The groups are the communities that have a member, with their members. */
  ghost predicate Groups(communityOf: Partition, nodes: seq<LabelableNode>, groups: map<nat, seq<LabelableNode>>) {
    forall c: nat :: GroupAt(groups, c) == Members(communityOf, nodes, c) && (c in groups ==> groups[c] != [])
  }

  lemma GroupsSnoc(communityOf: Partition, nodes: seq<LabelableNode>, node: LabelableNode,
                   groups: map<nat, seq<LabelableNode>>)
    requires Groups(communityOf, nodes, groups)
    ensures Groups(communityOf, nodes + [node],
                   if node.id in communityOf
                   then groups[communityOf[node.id] := GroupAt(groups, communityOf[node.id]) + [node]] else groups)
  {
    forall c: nat
      ensures Members(communityOf, nodes + [node], c)
        == Members(communityOf, nodes, c) + if node.id in communityOf && communityOf[node.id] == c then [node] else []
    {
      SelectSnoc(nodes, node, CommunityOf(communityOf), c);
    }
    hide Members;
  }

  /** Some node belongs to `c`, and neither it nor any node before it belongs to `d`. */
  ghost predicate AppearsBefore(communityOf: Partition, nodes: seq<LabelableNode>, c: nat, d: nat) {
    exists p :: 0 <= p < |nodes| && FirstTo(communityOf, nodes, p, c, d)
  }

  ghost predicate FirstTo(communityOf: Partition, nodes: seq<LabelableNode>, p: nat, c: nat, d: nat)
    requires p < |nodes|
  {
    CommunityOf(communityOf)(nodes[p]) == c && forall q :: 0 <= q <= p ==> CommunityOf(communityOf)(nodes[q]) != d
  }

  /** Each listed community appears before the ones listed after it. */
  ghost predicate ByAppearance(communityOf: Partition, nodes: seq<LabelableNode>, order: seq<nat>) {
    forall i, j :: 0 <= i < j < |order| ==> AppearsBefore(communityOf, nodes, order[i], order[j])
  }

  lemma AppearsStays(communityOf: Partition, nodes: seq<LabelableNode>, node: LabelableNode, c: nat, d: nat)
    requires AppearsBefore(communityOf, nodes, c, d)
    ensures AppearsBefore(communityOf, nodes + [node], c, d)
  {
    var p :| 0 <= p < |nodes| && FirstTo(communityOf, nodes, p, c, d);
    hide CommunityOf;
    assert forall q :: 0 <= q <= p ==> (nodes + [node])[q] == nodes[q];
    assert FirstTo(communityOf, nodes + [node], p, c, d);
  }

  /** A community with a member appears before one without. */
  lemma AppearsFirst(communityOf: Partition, nodes: seq<LabelableNode>, c: nat, d: nat)
    requires Members(communityOf, nodes, c) != [] && Members(communityOf, nodes, d) == []
    ensures AppearsBefore(communityOf, nodes, c, d)
  {
    SelectMembers(nodes, CommunityOf(communityOf), c);
    SelectMembers(nodes, CommunityOf(communityOf), d);
    assert Members(communityOf, nodes, c)[0] in Members(communityOf, nodes, c);
    var p :| 0 <= p < |nodes| && nodes[p] == Members(communityOf, nodes, c)[0];
    hide CommunityOf;
    forall q | 0 <= q <= p
      ensures CommunityOf(communityOf)(nodes[q]) != d
    {
      assert nodes[q] in nodes;
    }
    assert FirstTo(communityOf, nodes, p, c, d);
  }

  /** Listing one more node's community, when it is new, after those that have appeared. */
  lemma AppearanceSnoc(communityOf: Partition, nodes: seq<LabelableNode>, node: LabelableNode, order: seq<nat>,
                       groups: map<nat, seq<LabelableNode>>)
    requires ByAppearance(communityOf, nodes, order) && Enumerates(order, groups.Keys)
    requires Groups(communityOf, nodes, groups)
    ensures ByAppearance(communityOf, nodes + [node],
                         if node.id in communityOf && communityOf[node.id] !in groups
                         then order + [communityOf[node.id]] else order)
  {
    hide AppearsBefore, Members;
    forall i, j | 0 <= i < j < |order|
      ensures AppearsBefore(communityOf, nodes + [node], order[i], order[j])
    {
      AppearsStays(communityOf, nodes, node, order[i], order[j]);
    }
    if node.id in communityOf && communityOf[node.id] !in groups {
      var d := communityOf[node.id];
      forall i | 0 <= i < |order|
        ensures AppearsBefore(communityOf, nodes + [node], order[i], d)
      {
        assert order[i] in groups.Keys;
        assert GroupAt(groups, d) == [] && GroupAt(groups, order[i]) != [];
        AppearsFirst(communityOf, nodes, order[i], d);
        AppearsStays(communityOf, nodes, node, order[i], d);
      }
    }
  }

  /** The communities with a member, in order of first appearance, and their members. */
  method GroupMembers(communityOf: Partition, nodes: seq<LabelableNode>)
      returns (order: seq<nat>, groups: map<nat, seq<LabelableNode>>)
    ensures Enumerates(order, groups.Keys) && ByAppearance(communityOf, nodes, order)
    ensures Groups(communityOf, nodes, groups)
  {
    order, groups := [], map[];
    EnumeratesNone<nat>();
    assert groups.Keys == {} && nodes[..0] == [];
    assert Groups(communityOf, nodes[..0], groups);
    hide Enumerates, Groups, GroupAt, AppearsBefore;
    for i := 0 to |nodes|
      invariant Enumerates(order, groups.Keys) && ByAppearance(communityOf, nodes[..i], order)
      invariant Groups(communityOf, nodes[..i], groups)
    {
      var node := nodes[i];
      assert nodes[..i + 1] == nodes[..i] + [node];
      GroupsSnoc(communityOf, nodes[..i], node, groups);
      AppearanceSnoc(communityOf, nodes[..i], node, order, groups);
      if node.id !in communityOf {
        continue;
      }
      var index := communityOf[node.id];
      var members := GroupAt(groups, index);
      EnumeratesUpdate(order, groups, index, members + [node]);
      if index !in groups {
        order := order + [index];
      }
      groups := groups[index := members + [node]];
    }
    assert nodes[..|nodes|] == nodes;
  }

  /** An edge's weight, at either end, when it joins two different nodes of one community. */
  ghost function Incident(communityOf: Partition, id: string): WeightedEdge -> real {
    (e: WeightedEdge) =>
      if e.from != e.to && e.from in communityOf && e.to in communityOf && communityOf[e.from] == communityOf[e.to]
         && (e.from == id || e.to == id)
      then e.weight else 0.0
  }

  /** The weight of a node's edges inside its community. */
  ghost function Degree(communityOf: Partition, edges: seq<WeightedEdge>, id: string): real {
    Sum(edges, Incident(communityOf, id))
  }

  method InternalDegree(communityOf: Partition, edges: seq<WeightedEdge>) returns (degree: map<string, real>)
    ensures forall id :: GetOrZero(degree, id) == Degree(communityOf, edges, id)
  {
    degree := map[];
    for i := 0 to |edges|
      invariant forall id :: GetOrZero(degree, id) == Degree(communityOf, edges[..i], id)
    {
      var edge := edges[i];
      forall id
        ensures Degree(communityOf, edges[..i + 1], id)
          == Degree(communityOf, edges[..i], id) + Incident(communityOf, id)(edge)
      {
        SumPrefix(edges, i, Incident(communityOf, id));
      }
      hide Degree;
      if edge.from == edge.to || edge.from !in communityOf || edge.to !in communityOf
         || communityOf[edge.from] != communityOf[edge.to] {
        continue;
      }
      degree := Plus(degree, edge.from, edge.weight);
      degree := Plus(degree, edge.to, edge.weight);
    }
    assert edges[..|edges|] == edges;
  }

  // ---------------------------------------------------------------- the hub

  /** More internal weight first, then by name, then by id. */
  predicate HubBefore(degree: map<string, real>, a: LabelableNode, b: LabelableNode) {
    var da, db := GetOrZero(degree, a.id), GetOrZero(degree, b.id);
    if db != da then db < da
    else if a.name != b.name then Less(a.name, b.name)
    else Less(a.id, b.id)
  }

  /** The member that comes before all others. */
  ghost predicate IsHub(members: seq<LabelableNode>, degree: map<string, real>, hub: LabelableNode) {
    hub in members && forall m :: m in members ==> m == hub || HubBefore(degree, hub, m)
  }

  lemma HubTrans(degree: map<string, real>, a: LabelableNode, b: LabelableNode, c: LabelableNode)
    requires HubBefore(degree, a, b) && HubBefore(degree, b, c)
    ensures HubBefore(degree, a, c)
  {
    if Less(a.name, b.name) && Less(b.name, c.name) { LessTrans(a.name, b.name, c.name); }
    if Less(a.id, b.id) && Less(b.id, c.id) { LessTrans(a.id, b.id, c.id); }
    LessTotal(a.name, b.name);
    hide Less;
  }

  lemma HubTotal(degree: map<string, real>, a: LabelableNode, b: LabelableNode)
    ensures a.id != b.id ==> HubBefore(degree, a, b) || HubBefore(degree, b, a)
    ensures !(HubBefore(degree, a, b) && HubBefore(degree, b, a))
  {
    LessTotal(a.name, b.name);
    LessTotal(a.id, b.id);
    hide Less;
  }

  function DisplayName(node: LabelableNode): string {
    if node.kind == "Module" then BaseName(node.filePath) else node.name
  }

  method Hub(members: seq<LabelableNode>, degree: map<string, real>) returns (hub: LabelableNode)
    requires members != [] && DistinctNodeIds(members)
    ensures IsHub(members, degree, hub)
  {
    hub := members[0];
    hide HubBefore;
    for i := 1 to |members|
      invariant IsHub(members[..i], degree, hub)
    {
      var m := members[i];
      assert members[..i + 1] == members[..i] + [m];
      var k :| 0 <= k < i && members[k] == hub;
      HubTotal(degree, m, hub);
      if HubBefore(degree, m, hub) {
        forall n | n in members[..i] && n != hub
          ensures HubBefore(degree, m, n)
        {
          HubTrans(degree, m, hub, n);
        }
        hub := m;
      }
    }
    assert members[..|members|] == members;
  }

  /** The display name of the hub; none for an empty group. */
  ghost predicate IsHubName(members: seq<LabelableNode>, degree: map<string, real>, hub: Option<string>) {
    if members == [] then hub.None?
    else exists h :: IsHub(members, degree, h) && hub == Some(DisplayName(h))
  }

  method HubName(members: seq<LabelableNode>, degree: map<string, real>) returns (hub: Option<string>)
    requires DistinctNodeIds(members)
    ensures IsHubName(members, degree, hub)
  {
    if |members| == 0 {
      return None;
    }
    var h := Hub(members, degree);
    hub := Some(DisplayName(h));
  }

  // ---------------------------------------------------------------- the dominant directory

  ghost function DirectoryKey(): LabelableNode -> string {
    (n: LabelableNode) => DirectoryOf(n.filePath)
  }

  ghost function One(): LabelableNode -> real {
    (n: LabelableNode) => 1.0
  }

  /** How many members live directly in a directory. */
  ghost function Count(members: seq<LabelableNode>, directory: string): real {
    At(members, DirectoryKey(), One(), directory)
  }

  /** More members first, then the shorter path, then lexical order. */
  predicate DirectoryBefore(countA: real, a: string, countB: real, b: string) {
    if countB != countA then countB < countA
    else if |a| != |b| then |a| < |b|
    else Less(a, b)
  }

  lemma DirectoryTrans(ca: real, a: string, cb: real, b: string, cc: real, c: string)
    requires DirectoryBefore(ca, a, cb, b) && DirectoryBefore(cb, b, cc, c)
    ensures DirectoryBefore(ca, a, cc, c)
  {
    if Less(a, b) && Less(b, c) { LessTrans(a, b, c); }
    hide Less;
  }

  lemma DirectoryTotal(ca: real, a: string, cb: real, b: string)
    ensures a != b ==> DirectoryBefore(ca, a, cb, b) || DirectoryBefore(cb, b, ca, a)
    ensures !(DirectoryBefore(ca, a, cb, b) && DirectoryBefore(cb, b, ca, a))
  {
    LessTotal(a, b);
    hide Less;
  }

  /** The directory of some member that comes before all other members' directories. */
  ghost predicate IsDominant(members: seq<LabelableNode>, directory: string) {
    && (exists m :: m in members && DirectoryOf(m.filePath) == directory)
    && forall m :: m in members ==>
      var other := DirectoryOf(m.filePath);
      other == directory || DirectoryBefore(Count(members, directory), directory, Count(members, other), other)
  }

  method CountDirectories(members: seq<LabelableNode>) returns (order: seq<string>, counts: map<string, real>)
    ensures IsTally(members, DirectoryKey(), One(), counts) && Enumerates(order, counts.Keys)
  {
    order, counts := [], map[];
    TallyNone(DirectoryKey(), One());
    EnumeratesNone<string>();
    assert members[..0] == [] && counts.Keys == {};
    hide IsTally, Enumerates;
    for i: nat := 0 to |members|
      invariant IsTally(members[..i], DirectoryKey(), One(), counts) && Enumerates(order, counts.Keys)
    {
      var directory := DirectoryOf(members[i].filePath);
      TallyStep(members, i, DirectoryKey(), One(), counts);
      EnumeratesUpdate(order, counts, directory, GetOrZero(counts, directory) + 1.0);
      if directory !in counts {
        order := order + [directory];
      }
      counts := Plus(counts, directory, 1.0);
    }
    assert members[..|members|] == members;
  }

  /** The first directory in the ranking, for a map of counts. */
  method FirstDirectory(order: seq<string>, counts: map<string, real>) returns (directory: string)
    requires order != []
    ensures directory in order
    ensures forall d :: d in order ==>
      d == directory || DirectoryBefore(GetOrZero(counts, directory), directory, GetOrZero(counts, d), d)
  {
    directory := order[0];
    hide DirectoryBefore;
    for i := 1 to |order|
      invariant directory in order
      invariant forall d :: d in order[..i] ==>
        d == directory || DirectoryBefore(GetOrZero(counts, directory), directory, GetOrZero(counts, d), d)
    {
      var next := order[i];
      assert order[..i + 1] == order[..i] + [next];
      DirectoryTotal(GetOrZero(counts, next), next, GetOrZero(counts, directory), directory);
      if DirectoryBefore(GetOrZero(counts, next), next, GetOrZero(counts, directory), directory) {
        forall d | d in order[..i] && d != directory
          ensures DirectoryBefore(GetOrZero(counts, next), next, GetOrZero(counts, d), d)
        {
          DirectoryTrans(GetOrZero(counts, next), next, GetOrZero(counts, directory), directory,
                         GetOrZero(counts, d), d);
        }
        directory := next;
      }
    }
    assert order[..|order|] == order;
  }

  /** The directory most members share and the fraction of members in it. */
  method DominantDirectory(members: seq<LabelableNode>) returns (directory: string, purity: real)
    requires members != []
    ensures IsDominant(members, directory) && purity == Count(members, directory) / |members| as real
  {
    var order, counts := CountDirectories(members);
    hide Less, DirectoryBefore, DirectoryOf;
    assert DirectoryKey()(members[0]) in Keys(members, DirectoryKey());
    directory := FirstDirectory(order, counts);
    forall d
      ensures GetOrZero(counts, d) == Count(members, d)
    {
    }
    forall m | m in members
      ensures DirectoryOf(m.filePath) in order
    {
      var i :| 0 <= i < |members| && members[i] == m;
      assert DirectoryKey()(members[i]) in Keys(members, DirectoryKey());
    }
    assert directory in Keys(members, DirectoryKey());
    ghost var i :| 0 <= i < |members| && DirectoryKey()(members[i]) == directory;
    assert members[i] in members;
    hide Count, At, IsTally, Enumerates;
    purity := GetOrZero(counts, directory) / |members| as real;
  }

  // ---------------------------------------------------------------- the composed label

  const PURITY_THRESHOLD := 0.6
  const SEPARATOR := " \U{00B7} "

  ghost predicate SingleFile(members: seq<LabelableNode>) {
    members != [] && forall m :: m in members ==> m.filePath == members[0].filePath
  }

  function Ordinal(index: nat): string {
    "community " + Decimal(index)
  }

  function HubOrOrdinal(index: nat, hub: Option<string>): string {
    if hub.Some? then hub.value else Ordinal(index)
  }

  /** The label of a community that spans several files. */
  function AreaLabel(index: nat, hub: Option<string>, directory: string, purity: real): string {
    var area := LastSegment(directory);
    if |area| > 0 && purity >= PURITY_THRESHOLD then (if hub.None? then area else area + SEPARATOR + hub.value)
    else if hub.Some? then hub.value
    else if |area| > 0 then area else Ordinal(index)
  }

  ghost predicate IsComposed(index: nat, members: seq<LabelableNode>, hub: Option<string>, text: string) {
    if members == [] then text == Ordinal(index)
    else if SingleFile(members) then
      var fileName := BaseName(members[0].filePath);
      text == if |fileName| > 0 then fileName else HubOrOrdinal(index, hub)
    else exists directory :: IsAreaLabel(index, members, hub, directory, text)
  }

  ghost predicate IsAreaLabel(index: nat, members: seq<LabelableNode>, hub: Option<string>, directory: string,
                              text: string)
    requires members != []
  {
    && IsDominant(members, directory)
    && text == AreaLabel(index, hub, directory, Count(members, directory) / |members| as real)
  }

  function FilesOf(members: seq<LabelableNode>): (files: set<string>) {
    set i | 0 <= i < |members| :: members[i].filePath
  }

  lemma OneFile(members: seq<LabelableNode>)
    ensures |FilesOf(members)| == 1 <==> SingleFile(members)
  {
    var files := FilesOf(members);
    if members != [] {
      assert members[0].filePath in files;
      if SingleFile(members) {
        forall f | f in files
          ensures f == members[0].filePath
        {
          var i :| 0 <= i < |members| && members[i].filePath == f;
          assert members[i] in members;
        }
        assert files == {members[0].filePath};
      } else {
        var m :| m in members && m.filePath != members[0].filePath;
        var i :| 0 <= i < |members| && members[i] == m;
        assert members[i].filePath in files;
        assert {members[0].filePath, m.filePath} <= files;
        assert |files - {members[0].filePath, m.filePath}| == |files| - 2;
      }
    } else {
      assert files == {};
    }
  }

  method ComposeLabel(index: nat, members: seq<LabelableNode>, hub: Option<string>) returns (text: string)
    ensures IsComposed(index, members, hub, text)
  {
    if |members| == 0 {
      return Ordinal(index);
    }
    OneFile(members);
    if |FilesOf(members)| == 1 {
      var fileName := BaseName(members[0].filePath);
      return if |fileName| > 0 then fileName else HubOrOrdinal(index, hub);
    }
    hide IsDominant, Count, SingleFile;
    var directory, purity := DominantDirectory(members);
    text := AreaLabel(index, hub, directory, purity);
    assert IsAreaLabel(index, members, hub, directory, text);
  }

  // ---------------------------------------------------------------- collisions

  /** Another community carries the same label. */
  ghost predicate Shared(labels: map<nat, string>, c: nat) {
    c in labels && exists d :: d in labels && d != c && labels[d] == labels[c]
  }

  ghost function LabelAt(labels: map<nat, string>): nat -> string {
    (c: nat) => if c in labels then labels[c] else ""
  }

  ghost function Each(): nat -> real {
    (c: nat) => 1.0
  }

  lemma {:induction false} CountsAtLeast(order: seq<nat>, labels: map<nat, string>, l: string, i: nat, j: nat)
    requires i < j < |order| && LabelAt(labels)(order[i]) == l && LabelAt(labels)(order[j]) == l
    ensures At(order, LabelAt(labels), Each(), l) >= 2.0
  {
    var f := Only(LabelAt(labels), Each(), l);
    SumTerm(order[..j], i, f);
    SumPrefix(order, j, f);
    SumNonneg(order[j + 1..], f);
    SumConcat(order[..j + 1], order[j + 1..], f);
    assert order == order[..j + 1] + order[j + 1..];
  }

  /** A label is counted more than once exactly when it is shared. */
  lemma CountedShared(order: seq<nat>, labels: map<nat, string>, c: nat)
    requires Enumerates(order, labels.Keys) && c in labels
    ensures At(order, LabelAt(labels), Each(), labels[c]) > 1.0 <==> Shared(labels, c)
  {
    var i :| 0 <= i < |order| && order[i] == c;
    if Shared(labels, c) {
      var d :| d in labels && d != c && labels[d] == labels[c];
      assert d in order;
      var j :| 0 <= j < |order| && order[j] == d;
      if i < j {
        CountsAtLeast(order, labels, labels[c], i, j);
      } else {
        CountsAtLeast(order, labels, labels[c], j, i);
      }
    } else {
      forall k | 0 <= k < |order| && order[k] != c
        ensures Only(LabelAt(labels), Each(), labels[c])(order[k]) == 0.0
      {
        assert order[k] in order;
      }
      SumPick(order, c, Only(LabelAt(labels), Each(), labels[c]));
    }
  }

  /** Renames every label that more than one community carries. */
  method Disambiguate(order: seq<nat>, labels: map<nat, string>, rename: (nat, string) -> string)
      returns (result: map<nat, string>)
    requires Enumerates(order, labels.Keys)
    ensures result.Keys == labels.Keys
    ensures forall c :: c in labels ==> result[c] == if Shared(labels, c) then rename(c, labels[c]) else labels[c]
  {
    var counts: map<string, real> := map[];
    TallyNone(LabelAt(labels), Each());
    assert order[..0] == [];
    for i: nat := 0 to |order|
      invariant IsTally(order[..i], LabelAt(labels), Each(), counts)
    {
      assert order[i] in order;
      TallyStep(order, i, LabelAt(labels), Each(), counts);
      counts := Plus(counts, labels[order[i]], 1.0);
    }
    assert order[..|order|] == order;
    result := map[];
    for i := 0 to |order|
      invariant forall c :: c in result <==> c in order[..i]
      invariant forall c :: c in result ==>
        c in labels && result[c] == if Shared(labels, c) then rename(c, labels[c]) else labels[c]
    {
      var index := order[i];
      assert index in order && order[..i + 1] == order[..i] + [index];
      CountedShared(order, labels, index);
      assert GetOrZero(counts, labels[index]) == At(order, LabelAt(labels), Each(), labels[index]);
      hide Shared, IsTally, At;
      var shared := GetOrZero(counts, labels[index]) > 1.0;
      result := result[index := if shared then rename(index, labels[index]) else labels[index]];
    }
    assert order[..|order|] == order;
  }

  function WithHub(hub: Option<string>, text: string): string {
    if hub.Some? && !Includes(text, hub.value) then text + SEPARATOR + hub.value else text
  }

  function WithIndex(index: nat, text: string): string {
    text + " #" + Decimal(index)
  }

  /** Labels after shared ones gained their hub. */
  ghost function HubStep(base: map<nat, string>, hubs: map<nat, Option<string>>): map<nat, string>
    requires hubs.Keys == base.Keys
  {
    map c | c in base :: if Shared(base, c) then WithHub(hubs[c], base[c]) else base[c]
  }

  /** Labels after those still shared gained their index. */
  ghost function IndexStep(labels: map<nat, string>): map<nat, string> {
    map c | c in labels :: if Shared(labels, c) then WithIndex(c, labels[c]) else labels[c]
  }

  method Dedupe(order: seq<nat>, base: map<nat, string>, hubs: map<nat, Option<string>>)
      returns (labels: map<nat, string>)
    requires Enumerates(order, base.Keys) && hubs.Keys == base.Keys
    ensures labels == IndexStep(HubStep(base, hubs))
  {
    hide Shared, Enumerates, Includes, Decimal;
    var withHub := Disambiguate(
      order, base, (index: nat, text: string) => if index in hubs then WithHub(hubs[index], text) else text);
    assert withHub == HubStep(base, hubs);
    labels := Disambiguate(order, withHub, (index: nat, text: string) => WithIndex(index, text));
  }

  /** What one labelling run computes on the way to its labels. */
  ghost predicate IsBase(communityOf: Partition, nodes: seq<LabelableNode>, edges: seq<WeightedEdge>,
                         base: map<nat, string>, hubs: map<nat, Option<string>>, degree: map<string, real>) {
    && hubs.Keys == base.Keys
    && (forall id :: GetOrZero(degree, id) == Degree(communityOf, edges, id))
    && (forall c: nat :: c in base <==> Members(communityOf, nodes, c) != [])
    && (forall c: nat :: c in base ==> IsHubName(Members(communityOf, nodes, c), degree, hubs[c]))
    && (forall c: nat :: c in base ==> IsComposed(c, Members(communityOf, nodes, c), hubs[c], base[c]))
  }

  /** The labels are those of some run on this input. */
  ghost predicate IsLabelling(communityOf: Partition, nodes: seq<LabelableNode>, edges: seq<WeightedEdge>,
                              labels: map<nat, string>) {
    exists base, hubs, degree :: IsBase(communityOf, nodes, edges, base, hubs, degree)
      && labels == IndexStep(HubStep(base, hubs))
  }

  lemma BaseLabels(communityOf: Partition, nodes: seq<LabelableNode>, edges: seq<WeightedEdge>,
                   base: map<nat, string>, hubs: map<nat, Option<string>>, degree: map<string, real>)
    requires IsBase(communityOf, nodes, edges, base, hubs, degree)
    ensures hubs.Keys == base.Keys && IsLabelling(communityOf, nodes, edges, IndexStep(HubStep(base, hubs)))
  {
    hide IsHubName, IsComposed, Degree, Members, IndexStep, HubStep;
  }

  lemma {:induction false} SelectDistinctIds(nodes: seq<LabelableNode>, key: LabelableNode -> int, k: int)
    requires DistinctNodeIds(nodes)
    ensures DistinctNodeIds(Select(nodes, key, k))
  {
    if nodes != [] {
      var init := nodes[..|nodes| - 1];
      SelectDistinctIds(init, key, k);
      SelectMembers(init, key, k);
      var kept := Select(init, key, k);
      forall i | 0 <= i < |kept|
        ensures kept[i].id != nodes[|nodes| - 1].id
      {
        assert kept[i] in kept;
        var j :| 0 <= j < |init| && init[j] == kept[i];
        assert nodes[j] == init[j];
      }
    }
  }

  method Label(communityOf: Partition, nodes: seq<LabelableNode>, edges: seq<WeightedEdge>)
      returns (labels: map<nat, string>, ghost base: map<nat, string>, ghost hubs: map<nat, Option<string>>,
               ghost degree: map<string, real>)
    requires DistinctNodeIds(nodes)
    ensures IsLabelling(communityOf, nodes, edges, labels)
    ensures IsBase(communityOf, nodes, edges, base, hubs, degree)
    ensures labels == IndexStep(HubStep(base, hubs))
  {
    hide IsLabelling;
    var order, groups := GroupMembers(communityOf, nodes);
    var internalDegree := InternalDegree(communityOf, edges);
    degree := internalDegree;
    var bases: map<nat, string>, hubNames: map<nat, Option<string>> := map[], map[];
    hide IsHubName, IsComposed, Degree, Members, IndexStep, HubStep, DistinctNodeIds, Distinct, ByAppearance;
    for i := 0 to |order|
      invariant bases.Keys == hubNames.Keys && forall c :: c in bases <==> c in order[..i]
      invariant forall c :: c in bases ==> c in groups
      invariant forall c :: c in bases ==>
        IsHubName(groups[c], degree, hubNames[c]) && IsComposed(c, groups[c], hubNames[c], bases[c])
    {
      var index := order[i];
      assert index in order && order[..i + 1] == order[..i] + [index];
      MembersDistinct(communityOf, nodes, index);
      var hub := HubName(groups[index], internalDegree);
      var text := ComposeLabel(index, groups[index], hub);
      hubNames := hubNames[index := hub];
      bases := bases[index := text];
    }
    assert order[..|order|] == order;
    assert bases.Keys == groups.Keys;
    base, hubs := bases, hubNames;
    labels := Dedupe(order, bases, hubNames);
    BaseLabels(communityOf, nodes, edges, base, hubs, degree);
  }

  lemma MembersDistinct(communityOf: Partition, nodes: seq<LabelableNode>, c: nat)
    requires DistinctNodeIds(nodes)
    ensures DistinctNodeIds(Members(communityOf, nodes, c))
  {
    SelectDistinctIds(nodes, CommunityOf(communityOf), c);
  }
}
