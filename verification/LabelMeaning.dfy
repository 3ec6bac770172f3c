/** What a community's label says: how it reads, and which members, directories and numbers it names. */
module LabelMeaning {
  import opened Sums
  import opened Tallies
  import opened Records
  import opened Numerals
  import opened Strings
  import opened Symmetrize
  import opened Labels

  // ---------------------------------------------------------------- directories

  /** The file lies directly in the directory. */
  ghost predicate LiesIn(filePath: string, directory: string) {
    exists name: string :: '/' !in name && (filePath == directory + "/" + name || (directory == "" && filePath == name))
  }

  ghost function Here(directory: string): LabelableNode -> real {
    (n: LabelableNode) => if LiesIn(n.filePath, directory) then 1.0 else 0.0
  }

  /** How many members lie directly in a directory. */
  ghost function Inside(members: seq<LabelableNode>, directory: string): real {
    Sum(members, Here(directory))
  }

  lemma LiesInIff(filePath: string, directory: string)
    ensures LiesIn(filePath, directory) <==> DirectoryOf(filePath) == directory
  {
    if LiesIn(filePath, directory) {
      var name: string :| '/' !in name && (filePath == directory + "/" + name || (directory == "" && filePath == name));
      PathParts(directory, name);
    }
    var d, name := PathSplits(filePath);
    if DirectoryOf(filePath) == directory {
      assert '/' !in name && (filePath == directory + "/" + name || (directory == "" && filePath == name));
    }
    hide DirectoryOf;
  }

  lemma CountIsInside(members: seq<LabelableNode>, directory: string)
    ensures Count(members, directory) == Inside(members, directory)
  {
    forall i | 0 <= i < |members|
      ensures Only(DirectoryKey(), Labels.One(), directory)(members[i]) == Here(directory)(members[i])
    {
      LiesInIff(members[i].filePath, directory);
    }
    hide DirectoryOf, LiesIn;
    SumCong(members, Only(DirectoryKey(), Labels.One(), directory), Here(directory));
  }

  /** Some member lies in the directory and no other holds more; ties go to the shorter path, then the first. */
  ghost predicate Leads(members: seq<LabelableNode>, directory: string) {
    && (exists m :: m in members && LiesIn(m.filePath, directory))
    && forall m, other :: m in members && LiesIn(m.filePath, other) && other != directory ==>
         || Inside(members, other) < Inside(members, directory)
         || (Inside(members, other) == Inside(members, directory)
             && (|directory| < |other| || (|directory| == |other| && Less(directory, other))))
  }

  /** The dominant directory holds the most members. */
  lemma DominantLeads(members: seq<LabelableNode>, directory: string)
    requires IsDominant(members, directory)
    ensures Leads(members, directory)
  {
    var first :| first in members && DirectoryOf(first.filePath) == directory;
    LiesInIff(first.filePath, directory);
    CountIsInside(members, directory);
    hide LiesIn, Less, DirectoryOf, Count, Inside;
    forall m, other | m in members && LiesIn(m.filePath, other) && other != directory
      ensures Inside(members, other) < Inside(members, directory)
        || (Inside(members, other) == Inside(members, directory)
            && (|directory| < |other| || (|directory| == |other| && Less(directory, other))))
    {
      LiesInIff(m.filePath, other);
      CountIsInside(members, other);
    }
  }

  // ---------------------------------------------------------------- the hub

  /** The weight between a node and another member, in either direction. */
  ghost function BetweenIt(edges: seq<WeightedEdge>, id: string): LabelableNode -> real {
    (m: LabelableNode) => if m.id == id then 0.0 else Between(edges, id, m.id)
  }

  ghost function JoiningIt(id: string, e: WeightedEdge): LabelableNode -> real {
    (m: LabelableNode) =>
      if m.id != id && ((e.from == id && e.to == m.id) || (e.from == m.id && e.to == id)) then e.weight else 0.0
  }

  /** Every id of the partition is a listed node. */
  ghost predicate Covers(nodes: seq<LabelableNode>, communityOf: Partition) {
    forall id :: id in communityOf ==> exists i :: 0 <= i < |nodes| && nodes[i].id == id
  }

  lemma MemberIff(communityOf: Partition, nodes: seq<LabelableNode>, c: nat)
    requires DistinctNodeIds(nodes)
    ensures var members := Members(communityOf, nodes, c);
      && Distinct(members)
      && (forall m :: m in members <==> m in nodes && m.id in communityOf && communityOf[m.id] == c)
      && forall m, n :: m in members && n in members && m.id == n.id ==> m == n
  {
    SelectMembers(nodes, CommunityOf(communityOf), c);
    hide Select;
  }

  lemma JoinedMembers(communityOf: Partition, nodes: seq<LabelableNode>, c: nat, id: string, e: WeightedEdge)
    requires DistinctNodeIds(nodes) && Covers(nodes, communityOf) && id in communityOf && communityOf[id] == c
    ensures Incident(communityOf, id)(e) == Sum(Members(communityOf, nodes, c), JoiningIt(id, e))
  {
    var members, f := Members(communityOf, nodes, c), JoiningIt(id, e);
    MemberIff(communityOf, nodes, c);
    hide Members, DistinctNodeIds, Distinct;
    var other := if e.from == id then e.to else e.from;
    if (e.from == id || e.to == id) && other != id && other in communityOf && communityOf[other] == c {
      var i :| 0 <= i < |nodes| && nodes[i].id == other;
      assert nodes[i] in members;
      SumPick(members, nodes[i], f);
    } else {
      SumZero(members, f) by {
        forall k | 0 <= k < |members|
          ensures f(members[k]) == 0.0
        {
          assert members[k] in members;
        }
      }
    }
  }

  lemma BetweenStep(edges: seq<WeightedEdge>, id: string, m: LabelableNode)
    requires edges != []
    ensures BetweenIt(edges, id)(m)
      == BetweenIt(edges[..|edges| - 1], id)(m) + JoiningIt(id, edges[|edges| - 1])(m)
  {
  }

  /**
   * When the nodes cover the partition, the weight that ranks a member is what joins it to the other
   * members of its community, in either direction.
   */
  lemma {:induction false} DegreeMeaning(communityOf: Partition, nodes: seq<LabelableNode>, edges: seq<WeightedEdge>,
                                         id: string)
    requires DistinctNodeIds(nodes) && Covers(nodes, communityOf) && id in communityOf
    ensures Degree(communityOf, edges, id)
      == Sum(Members(communityOf, nodes, communityOf[id]), BetweenIt(edges, id))
  {
    var members := Members(communityOf, nodes, communityOf[id]);
    hide Members, Covers, DistinctNodeIds;
    if edges == [] {
      SumZero(members, BetweenIt(edges, id));
    } else {
      var init, last := edges[..|edges| - 1], edges[|edges| - 1];
      DegreeMeaning(communityOf, nodes, init, id);
      JoinedMembers(communityOf, nodes, communityOf[id], id, last);
      forall k | 0 <= k < |members|
        ensures BetweenIt(edges, id)(members[k]) == BetweenIt(init, id)(members[k]) + JoiningIt(id, last)(members[k])
      {
        BetweenStep(edges, id, members[k]);
      }
      hide BetweenIt, JoiningIt, Incident;
      SumAdd(members, BetweenIt(init, id), JoiningIt(id, last), BetweenIt(edges, id));
    }
  }

  /** The hub has the most weight inside the community; ties go to the first name, then to the first id. */
  lemma HubHasMostWeight(members: seq<LabelableNode>, degree: map<string, real>, hub: LabelableNode)
    requires IsHub(members, degree, hub)
    ensures hub in members
    ensures forall m :: m in members && m != hub ==>
      || GetOrZero(degree, m.id) < GetOrZero(degree, hub.id)
      || (GetOrZero(degree, m.id) == GetOrZero(degree, hub.id)
          && (Less(hub.name, m.name) || (hub.name == m.name && Less(hub.id, m.id))))
  {
    hide Less;
  }

  /** A module is shown by the base name of its file, any other node by its name. */
  lemma Shown(node: LabelableNode, directory: string, stem: string, extension: string)
    requires node.filePath == directory + "/" + (stem + "." + extension)
    requires '/' !in stem && '/' !in extension && '.' !in extension && stem != ""
    ensures DisplayName(node) == if node.kind == "Module" then stem else node.name
  {
    BaseNameOfStem(directory, stem, extension);
    hide BaseName;
  }

  // ---------------------------------------------------------------- composed labels

  ghost predicate SeveralFiles(members: seq<LabelableNode>) {
    exists m, n :: m in members && n in members && m.filePath != n.filePath
  }

  /** The label of a community of several files whose leading directory ends in `area`. */
  ghost predicate ReadsAcross(index: nat, members: seq<LabelableNode>, hub: Option<string>, directory: string,
                              area: string, text: string) {
    var concentrated := area != "" && 5.0 * Inside(members, directory) >= 3.0 * |members| as real;
    match hub
    case Some(name) => text == if concentrated then area + " \U{00B7} " + name else name
    case None => text == if area != "" then area else "community " + Decimal(index)
  }

  /** The last part of a directory. */
  ghost predicate EndsIn(directory: string, area: string) {
    '/' !in area && (directory == area || exists parent: string :: directory == parent + "/" + area)
  }

  lemma LastSegmentEnds(directory: string)
    ensures EndsIn(directory, LastSegment(directory))
  {
    var parent, name := PathSplits(directory);
    hide LastSegment, DirectoryOf;
  }

  /** And there is only one last part. */
  lemma OneLastPart(directory: string, area: string)
    requires EndsIn(directory, area)
    ensures area == LastSegment(directory)
  {
    if directory == area {
      PathParts("", area);
    } else {
      var parent: string :| directory == parent + "/" + area;
      PathParts(parent, area);
    }
    hide LastSegment, DirectoryOf;
  }

  /**
   * Across several files: with a hub, the last part of the leading directory and the hub when at least
   * three fifths of the members lie directly in it, else the hub alone; without a hub that last part, and
   * the number only when there is none.
   */
  lemma ComposedAcross(index: nat, members: seq<LabelableNode>, hub: Option<string>, text: string)
    requires IsComposed(index, members, hub, text) && SeveralFiles(members)
    ensures exists directory, area ::
      Leads(members, directory) && EndsIn(directory, area) && ReadsAcross(index, members, hub, directory, area, text)
  {
    assert !SingleFile(members);
    var directory :| IsAreaLabel(index, members, hub, directory, text);
    DominantLeads(members, directory);
    LastSegmentEnds(directory);
    CountIsInside(members, directory);
    AreaReads(index, members, hub, directory, text);
    hide Leads, EndsIn, ReadsAcross, LastSegment;
    assert ReadsAcross(index, members, hub, directory, LastSegment(directory), text);
  }

  lemma AreaReads(index: nat, members: seq<LabelableNode>, hub: Option<string>, directory: string, text: string)
    requires members != [] && Count(members, directory) == Inside(members, directory)
    requires IsAreaLabel(index, members, hub, directory, text)
    ensures ReadsAcross(index, members, hub, directory, LastSegment(directory), text)
  {
    hide IsDominant, LastSegment, Inside, Count, Decimal;
    AtLeastPart(Inside(members, directory), |members| as real);
  }

  lemma AtLeastPart(part: real, whole: real)
    requires whole > 0.0
    ensures part / whole >= 0.6 <==> 5.0 * part >= 3.0 * whole
  {
    assert part / whole * whole == part;
  }

  /** In a single file: the file's base name, which is empty only for an empty file name. */
  lemma ComposedInFile(index: nat, members: seq<LabelableNode>, hub: Option<string>, text: string,
                       directory: string, stem: string, extension: string)
    requires IsComposed(index, members, hub, text) && members != []
    requires forall m :: m in members ==> m.filePath == directory + "/" + (stem + "." + extension)
    requires '/' !in stem && '/' !in extension && '.' !in extension && stem != ""
    ensures text == stem
  {
    assert members[0] in members;
    BaseNameOfStem(directory, stem, extension);
    hide BaseName;
  }

  /** In a single file without a name: the hub, or the number. */
  lemma ComposedUnnamed(index: nat, members: seq<LabelableNode>, hub: Option<string>, text: string, path: string)
    requires IsComposed(index, members, hub, text) && members != []
    requires forall m :: m in members ==> m.filePath == path && NamesNoFile(path)
    ensures text == match hub case Some(name) => name case None => "community " + Decimal(index)
  {
    assert members[0] in members;
    BaseNameOfNone(path);
    hide BaseName, Decimal;
  }

  /** Without members: the number. */
  lemma ComposedOfNone(index: nat, hub: Option<string>, text: string)
    requires IsComposed(index, [], hub, text)
    ensures text == "community " + Decimal(index)
  {
    hide Decimal;
  }

  // ---------------------------------------------------------------- final labels

  /** Another community has the same label. */
  ghost predicate Contested(labels: map<nat, string>, c: nat) {
    c in labels && exists d :: d in labels && d != c && labels[d] == labels[c]
  }

  ghost predicate Contains(text: string, part: string) {
    exists before: string, after: string :: text == before + part + after
  }

  lemma IncludesIff(text: string, part: string)
    ensures Includes(text, part) <==> Contains(text, part)
  {
    if Includes(text, part) {
      var i: nat :| i <= |text| && OccursAt(text, part, i);
      assert text == text[..i] + part + text[i + |part|..];
    }
    if before: string, after: string :| text == before + part + after {
      assert text[|before|..|before| + |part|] == part;
      assert OccursAt(text, part, |before|);
    }
  }

  /** A contested label gains the community's hub, unless it has none or says it already; others stay. */
  lemma HubStepReads(base: map<nat, string>, hubs: map<nat, Option<string>>, c: nat)
    requires hubs.Keys == base.Keys && c in base
    ensures HubStep(base, hubs).Keys == base.Keys
    ensures HubStep(base, hubs)[c] ==
      if Contested(base, c) && hubs[c].Some? && !Contains(base[c], hubs[c].value)
      then base[c] + " \U{00B7} " + hubs[c].value
      else base[c]
  {
    if hubs[c].Some? {
      IncludesIff(base[c], hubs[c].value);
    }
    hide Includes, Contains;
    assert Contested(base, c) <==> Shared(base, c);
    hide Contested, Shared;
  }

  /** A label that is still contested gains the community's number; others stay. */
  lemma IndexStepReads(labels: map<nat, string>, c: nat)
    requires c in labels
    ensures IndexStep(labels).Keys == labels.Keys
    ensures IndexStep(labels)[c] == if Contested(labels, c) then labels[c] + " #" + Decimal(c) else labels[c]
  {
    hide Decimal;
    assert Contested(labels, c) <==> Shared(labels, c);
    hide Contested, Shared;
  }
}
