/** Labels follow the member sets, not the numbering; and when they tell communities apart. */
module LabelLaws {
  import opened Sums
  import opened Tallies
  import opened Records
  import opened Numerals
  import opened Strings
  import opened Symmetrize
  import opened Labels

  // ---------------------------------------------------------------- order of nodes and edges

  lemma {:induction false} SelectCount<K, T>(s: seq<T>, key: T -> K, k: K, x: T)
    ensures multiset(Select(s, key, k))[x] == if key(x) == k then multiset(s)[x] else 0
  {
    if s != [] {
      SelectCount(s[..|s| - 1], key, k, x);
      assert s == s[..|s| - 1] + [s[|s| - 1]];
    }
  }

  lemma SameMembers<T>(s: seq<T>, t: seq<T>)
    requires multiset(s) == multiset(t)
    ensures forall x :: x in s <==> x in t
    ensures |s| == |t|
  {
    forall x
      ensures x in s <==> x in t
    {
      assert x in s <==> x in multiset(s);
      assert x in t <==> x in multiset(t);
    }
    assert |multiset(s)| == |multiset(t)|;
  }

  /** The members of a community and of its renumbered twin are the same nodes. */
  lemma MembersPermuted(p: Partition, nodes: seq<LabelableNode>, c: nat, q: Partition, nodes': seq<LabelableNode>,
                        d: nat)
    requires multiset(nodes) == multiset(nodes') && p.Keys == q.Keys
    requires forall id :: id in p ==> (p[id] == c <==> q[id] == d)
    ensures multiset(Members(p, nodes, c)) == multiset(Members(q, nodes', d))
  {
    forall x
      ensures multiset(Members(p, nodes, c))[x] == multiset(Members(q, nodes', d))[x]
    {
      SelectCount(nodes, CommunityOf(p), c, x);
      SelectCount(nodes', CommunityOf(q), d, x);
    }
  }

  /** `rename` renumbers the communities of `p` to those of `q` without merging any. */
  ghost predicate Renumbers(p: Partition, q: Partition, rename: nat -> nat) {
    && p.Keys == q.Keys
    && (forall id :: id in p ==> q[id] == rename(p[id]))
    && forall c, d :: rename(c) == rename(d) ==> c == d
  }

  lemma DegreePermuted(p: Partition, edges: seq<WeightedEdge>, q: Partition, edges': seq<WeightedEdge>,
                       rename: nat -> nat, id: string)
    requires Renumbers(p, q, rename) && multiset(edges) == multiset(edges')
    ensures Degree(p, edges, id) == Degree(q, edges', id)
  {
    SumCong(edges, Incident(p, id), Incident(q, id));
    SumPermutation(edges, edges', Incident(q, id));
  }

  lemma HubUnique(members: seq<LabelableNode>, degree: map<string, real>, hub: LabelableNode,
                  members': seq<LabelableNode>, degree': map<string, real>, hub': LabelableNode)
    requires multiset(members) == multiset(members') && forall id :: GetOrZero(degree, id) == GetOrZero(degree', id)
    requires IsHub(members, degree, hub) && IsHub(members', degree', hub')
    ensures hub == hub'
  {
    SameMembers(members, members');
    HubTotal(degree, hub, hub');
    assert HubBefore(degree', hub', hub) ==> HubBefore(degree, hub', hub);
    hide Less;
  }

  lemma CountPermuted(members: seq<LabelableNode>, members': seq<LabelableNode>, directory: string)
    requires multiset(members) == multiset(members')
    ensures Count(members, directory) == Count(members', directory)
  {
    SumPermutation(members, members', Only(DirectoryKey(), One(), directory));
  }

  lemma DominantUnique(members: seq<LabelableNode>, directory: string, members': seq<LabelableNode>, directory': string)
    requires multiset(members) == multiset(members')
    requires IsDominant(members, directory) && IsDominant(members', directory')
    ensures directory == directory'
  {
    SameMembers(members, members');
    CountPermuted(members, members', directory);
    CountPermuted(members, members', directory');
    var m :| m in members && DirectoryOf(m.filePath) == directory;
    var m' :| m' in members' && DirectoryOf(m'.filePath) == directory';
    assert m' in members && m in members';
    DirectoryTotal(Count(members, directory), directory, Count(members, directory'), directory');
    hide Less, Count, DirectoryBefore;
  }

  lemma SingleFilePermuted(members: seq<LabelableNode>, members': seq<LabelableNode>)
    requires multiset(members) == multiset(members') && members != []
    ensures members' != [] && (SingleFile(members) <==> SingleFile(members'))
    ensures SingleFile(members) ==> members[0].filePath == members'[0].filePath
  {
    SameMembers(members, members');
    assert members'[0] in members && members[0] in members';
  }

  lemma AreaUnique(c: nat, members: seq<LabelableNode>, directory: string, d: nat, members': seq<LabelableNode>,
                   directory': string, hub: Option<string>, text: string, text': string)
    requires multiset(members) == multiset(members') && members != [] && members' != [] && hub.Some?
    requires IsAreaLabel(c, members, hub, directory, text) && IsAreaLabel(d, members', hub, directory', text')
    ensures text == text'
  {
    hide IsDominant, Count, LastSegment;
    SameMembers(members, members');
    DominantUnique(members, directory, members', directory');
    CountPermuted(members, members', directory);
  }

  /** The label composed for the same nodes is the same, whatever their order and their number. */
  lemma ComposedUnique(c: nat, members: seq<LabelableNode>, d: nat, members': seq<LabelableNode>, hub: Option<string>,
                       text: string, text': string)
    requires multiset(members) == multiset(members') && members != [] && hub.Some?
    requires IsComposed(c, members, hub, text) && IsComposed(d, members', hub, text')
    ensures text == text'
  {
    SingleFilePermuted(members, members');
    hide IsAreaLabel, SingleFile, BaseName;
    if !SingleFile(members) {
      var directory :| IsAreaLabel(c, members, hub, directory, text);
      var directory' :| IsAreaLabel(d, members', hub, directory', text');
      AreaUnique(c, members, directory, d, members', directory', hub, text, text');
    }
  }

  lemma HubNameUnique(members: seq<LabelableNode>, degree: map<string, real>, hub: Option<string>,
                      members': seq<LabelableNode>, degree': map<string, real>, hub': Option<string>)
    requires multiset(members) == multiset(members') && forall id :: GetOrZero(degree, id) == GetOrZero(degree', id)
    requires members != [] && IsHubName(members, degree, hub) && IsHubName(members', degree', hub')
    ensures hub == hub' && hub.Some?
  {
    SameMembers(members, members');
    hide IsHub;
    var h :| IsHub(members, degree, h) && hub == Some(DisplayName(h));
    var h' :| IsHub(members', degree', h') && hub' == Some(DisplayName(h'));
    HubUnique(members, degree, h, members', degree', h');
  }

  /** One labelling run: its input and the labels before the collisions are resolved. */
  datatype Run = Run(communityOf: Partition, nodes: seq<LabelableNode>, edges: seq<WeightedEdge>,
                     base: map<nat, string>, hubs: map<nat, Option<string>>, degree: map<string, real>) {

    ghost predicate Valid() {
      IsBase(communityOf, nodes, edges, base, hubs, degree)
    }

    /** The labels entering the last step. */
    ghost function Entering(): map<nat, string>
      requires hubs.Keys == base.Keys
    {
      HubStep(base, hubs)
    }

    ghost function Final(): map<nat, string>
      requires hubs.Keys == base.Keys
    {
      IndexStep(Entering())
    }
  }

  /** The second run has the same nodes, edges and communities, in any order and under any numbers. */
  ghost predicate SameInput(a: Run, b: Run, rename: nat -> nat) {
    && Renumbers(a.communityOf, b.communityOf, rename)
    && multiset(a.nodes) == multiset(b.nodes) && multiset(a.edges) == multiset(b.edges)
  }

  lemma TwinMembers(a: Run, b: Run, rename: nat -> nat, c: nat)
    requires SameInput(a, b, rename)
    ensures multiset(Members(a.communityOf, a.nodes, c)) == multiset(Members(b.communityOf, b.nodes, rename(c)))
  {
    MembersPermuted(a.communityOf, a.nodes, c, b.communityOf, b.nodes, rename(c));
  }

  /** A community and its twin start with the same label and the same hub. */
  lemma TwinBase(a: Run, b: Run, rename: nat -> nat, c: nat)
    requires a.Valid() && b.Valid() && SameInput(a, b, rename)
    ensures c in a.base <==> rename(c) in b.base
    ensures c in a.base ==> a.base[c] == b.base[rename(c)] && a.hubs[c] == b.hubs[rename(c)]
  {
    var d := rename(c);
    var members, members' := Members(a.communityOf, a.nodes, c), Members(b.communityOf, b.nodes, d);
    TwinMembers(a, b, rename, c);
    SameMembers(members, members');
    if c in a.base {
      forall id
        ensures GetOrZero(a.degree, id) == GetOrZero(b.degree, id)
      {
        DegreePermuted(a.communityOf, a.edges, b.communityOf, b.edges, rename, id);
      }
      hide Members, IsComposed, IsHubName;
      HubNameUnique(members, a.degree, a.hubs[c], members', b.degree, b.hubs[d]);
      ComposedUnique(c, members, d, members', a.hubs[c], a.base[c], b.base[d]);
    }
  }

  /** Every community of the second run is the twin of one of the first. */
  lemma HasTwin(a: Run, b: Run, rename: nat -> nat, d: nat) returns (c: nat)
    requires a.Valid() && b.Valid() && SameInput(a, b, rename) && d in b.base
    ensures rename(c) == d && c in a.base
  {
    var members := Members(b.communityOf, b.nodes, d);
    SelectMembers(b.nodes, CommunityOf(b.communityOf), d);
    assert members[0] in members;
    var n := members[0];
    assert n.id in b.communityOf && b.communityOf[n.id] == d;
    c := a.communityOf[n.id];
    TwinMembers(a, b, rename, c);
    SameMembers(Members(a.communityOf, a.nodes, c), members);
  }

  /** Labellings that agree on twins share labels at the same communities. */
  lemma TwinShared(la: map<nat, string>, lb: map<nat, string>, rename: nat -> nat, c: nat)
    requires forall c, d :: rename(c) == rename(d) ==> c == d
    requires forall c :: c in la ==> rename(c) in lb && lb[rename(c)] == la[c]
    requires forall d :: d in lb ==> exists c :: c in la && rename(c) == d
    requires c in la
    ensures Shared(la, c) <==> Shared(lb, rename(c))
  {
    if Shared(la, c) {
      var d :| d in la && d != c && la[d] == la[c];
      assert rename(d) in lb;
    }
    if Shared(lb, rename(c)) {
      var e :| e in lb && e != rename(c) && lb[e] == lb[rename(c)];
      var d :| d in la && rename(d) == e;
    }
  }

  lemma TwinsEntering(a: Run, b: Run, rename: nat -> nat)
    requires a.Valid() && b.Valid() && SameInput(a, b, rename)
    ensures forall d :: d in b.base ==> exists c :: c in a.base && rename(c) == d
    ensures forall c :: c in a.base ==> rename(c) in b.base && b.Entering()[rename(c)] == a.Entering()[c]
  {
    forall d | d in b.base
      ensures exists c :: c in a.base && rename(c) == d
    {
      var c := HasTwin(a, b, rename, d);
    }
    forall c | c in a.base
      ensures rename(c) in b.base && b.base[rename(c)] == a.base[c] && a.hubs[c] == b.hubs[rename(c)]
    {
      TwinBase(a, b, rename, c);
    }
    hide IsBase, Includes;
    forall c | c in a.base
      ensures b.Entering()[rename(c)] == a.Entering()[c]
    {
      TwinShared(a.base, b.base, rename, c);
      hide Shared;
    }
  }

  /**
   * Renumbering the communities and reordering nodes and edges gives every community the same final
   * label, except where the label was still shared at the last step and so carries its number: there
   * it agrees only if the number did not change.
   */
  lemma LabelsFollowMembers(a: Run, b: Run, rename: nat -> nat, c: nat)
    requires a.Valid() && b.Valid() && SameInput(a, b, rename) && c in a.base
    ensures rename(c) in b.base
    ensures b.Final()[rename(c)] == a.Final()[c] <==> !Shared(a.Entering(), c) || rename(c) == c
  {
    TwinsEntering(a, b, rename);
    hide IsBase, HubStep, SameInput;
    assert Renumbers(a.communityOf, b.communityOf, rename) by {
      InputRenumbers(a, b, rename);
    }
    TwinShared(a.Entering(), b.Entering(), rename, c);
    hide Shared;
    if Shared(a.Entering(), c) && b.Final()[rename(c)] == a.Final()[c] {
      SameSuffix(rename(c), c, a.Entering()[c]);
    }
  }

  lemma InputRenumbers(a: Run, b: Run, rename: nat -> nat)
    requires SameInput(a, b, rename)
    ensures Renumbers(a.communityOf, b.communityOf, rename)
  {
  }

  lemma SameSuffix(c: nat, d: nat, text: string)
    requires WithIndex(c, text) == WithIndex(d, text)
    ensures c == d
  {
    var w := WithIndex(c, text);
    assert w[|text| + 2..] == Decimal(c);
    assert w[|text| + 2..] == Decimal(d);
    DecimalInjective(c, d);
  }

  // ---------------------------------------------------------------- injectivity

  ghost predicate Injective(labels: map<nat, string>) {
    forall c, d :: c in labels && d in labels && c != d ==> labels[c] != labels[d]
  }

  /** An unshared label that reads like another community's label with its number appended. */
  ghost predicate Mimics(labels: map<nat, string>, u: nat, s: nat) {
    u in labels && !Shared(labels, u) && Shared(labels, s) && labels[u] == WithIndex(s, labels[s])
  }

  /** Two different communities that gain their numbers never collide. */
  lemma SuffixesDiffer(c: nat, d: nat, text: string, text': string)
    requires WithIndex(c, text) == WithIndex(d, text')
    ensures c == d
  {
    var w := WithIndex(c, text);
    LastHash(text, Decimal(c));
    LastHash(text', Decimal(d));
    assert |text| == |text'|;
    assert w[|text| + 2..] == Decimal(c);
    assert w[|text| + 2..] == Decimal(d);
    DecimalInjective(c, d);
  }

  /** Digits hold no hash, so the last hash is the one before the number. */
  lemma LastHash(text: string, digits: string)
    requires forall i :: 0 <= i < |digits| ==> IsDigit(digits[i])
    ensures LastIndex(text + " #" + digits, '#') == |text| + 1
  {
    hide LastIndex;
    LastAt(text + " #", digits, '#');
  }

  /** The final labels are distinct exactly when no unshared label mimics a numbered one. */
  lemma InjectiveIff(labels: map<nat, string>)
    ensures Injective(IndexStep(labels)) <==> !exists u, s :: Mimics(labels, u, s)
  {
    var final := IndexStep(labels);
    if exists u, s :: Mimics(labels, u, s) {
      var u, s :| Mimics(labels, u, s);
      assert final[u] == final[s] && u != s;
    } else {
      forall c, d | c in final && d in final && c != d
        ensures final[c] != final[d]
      {
        NoCollision(labels, c, d);
      }
    }
  }

  lemma NoCollision(labels: map<nat, string>, c: nat, d: nat)
    requires c in labels && d in labels && c != d && !Mimics(labels, c, d) && !Mimics(labels, d, c)
    ensures IndexStep(labels)[c] != IndexStep(labels)[d]
  {
    if Shared(labels, c) && Shared(labels, d) {
      if WithIndex(c, labels[c]) == WithIndex(d, labels[d]) {
        SuffixesDiffer(c, d, labels[c], labels[d]);
      }
    }
    hide WithIndex;
  }

  /** The label ends in a space, a hash and digits. */
  ghost predicate EndsInNumber(text: string) {
    exists stem: string, c: nat :: text == WithIndex(c, stem)
  }

  /** So the final labels are distinct unless some label entering the last step ends in a number. */
  lemma InjectiveWithoutNumbers(labels: map<nat, string>)
    ensures Injective(IndexStep(labels)) || exists c :: c in labels && EndsInNumber(labels[c])
  {
    InjectiveIff(labels);
    if u, s :| Mimics(labels, u, s) {
      assert EndsInNumber(labels[u]);
    }
  }

  // ---------------------------------------------------------------- inputs without a hash

  predicate NoHash(s: string) {
    '#' !in s
  }

  lemma NoHashParts(path: string)
    requires NoHash(path)
    ensures NoHash(DirectoryOf(path)) && NoHash(LastSegment(path)) && NoHash(BaseName(path))
  {
    var slash := LastIndex(path, '/');
    hide LastIndex;
    PartNoHash(path, 0, if slash == -1 then 0 else slash);
    PartNoHash(path, slash + 1, |path|);
    var dot := LastIndex(LastSegment(path), '.');
    PartNoHash(LastSegment(path), 0, if dot <= 0 then 0 else dot);
    hide NoHash;
    assert path[slash + 1..|path|] == path[slash + 1..];
  }

  lemma PartNoHash(s: string, i: nat, j: nat)
    requires NoHash(s) && i <= j <= |s|
    ensures NoHash(s[i..j])
  {
    assert forall k :: 0 <= k < j - i ==> s[i..j][k] == s[i + k] && s[i + k] in s;
  }

  lemma JoinedNoHash(a: string, b: string)
    requires NoHash(a) && NoHash(b)
    ensures NoHash(a + SEPARATOR + b)
  {
    assert SEPARATOR[0] == ' ' && SEPARATOR[2] == ' ' && SEPARATOR[1] == '\U{00B7}' && |SEPARATOR| == 3;
    assert NoHash(SEPARATOR);
  }

  ghost predicate NoHashNodes(nodes: seq<LabelableNode>) {
    forall n :: n in nodes ==> NoHash(n.name) && NoHash(n.filePath)
  }

  lemma HubNoHash(members: seq<LabelableNode>, degree: map<string, real>, hub: Option<string>)
    requires NoHashNodes(members) && members != [] && IsHubName(members, degree, hub)
    ensures hub.Some? && NoHash(hub.value)
  {
    var h :| IsHub(members, degree, h) && hub == Some(DisplayName(h));
    NoHashParts(h.filePath);
    hide BaseName, NoHash;
  }

  lemma ComposedNoHash(c: nat, members: seq<LabelableNode>, hub: Option<string>, text: string)
    requires NoHashNodes(members) && members != [] && hub.Some? && NoHash(hub.value)
    requires IsComposed(c, members, hub, text)
    ensures NoHash(text)
  {
    hide BaseName, LastSegment, DirectoryOf, NoHash, SEPARATOR;
    if SingleFile(members) {
      assert members[0] in members;
      NoHashParts(members[0].filePath);
    } else {
      var directory :| IsAreaLabel(c, members, hub, directory, text);
      var m :| m in members && DirectoryOf(m.filePath) == directory;
      NoHashParts(m.filePath);
      NoHashParts(directory);
      JoinedNoHash(LastSegment(directory), hub.value);
      hide IsDominant, Count;
    }
  }

  lemma NumberedHasHash(text: string)
    requires EndsInNumber(text)
    ensures !NoHash(text)
  {
    var stem: string, c: nat :| text == WithIndex(c, stem);
    assert text[|stem| + 1] == '#';
  }

  lemma MembersNoHash(run: Run, c: nat)
    requires NoHashNodes(run.nodes)
    ensures NoHashNodes(Members(run.communityOf, run.nodes, c))
  {
    SelectMembers(run.nodes, CommunityOf(run.communityOf), c);
    hide NoHash, Select;
  }

  lemma BaseNoHash(run: Run, c: nat)
    requires run.Valid() && NoHashNodes(run.nodes) && c in run.base
    ensures NoHash(run.base[c]) && run.hubs[c].Some? && NoHash(run.hubs[c].value)
  {
    var members := Members(run.communityOf, run.nodes, c);
    MembersNoHash(run, c);
    hide Members, IsHubName, IsComposed, NoHash, NoHashNodes, Degree;
    HubNoHash(members, run.degree, run.hubs[c]);
    ComposedNoHash(c, members, run.hubs[c], run.base[c]);
  }

  lemma EnteringNoHash(run: Run, c: nat)
    requires run.Valid() && NoHashNodes(run.nodes) && c in run.base
    ensures NoHash(run.Entering()[c])
  {
    BaseNoHash(run, c);
    JoinedNoHash(run.base[c], run.hubs[c].value);
    hide IsBase, NoHash, NoHashNodes, SEPARATOR, Includes, Shared;
  }

  /** Labels are distinct whenever no node's name or path holds a hash. */
  lemma InjectiveWithoutHashes(run: Run)
    requires run.Valid() && NoHashNodes(run.nodes)
    ensures Injective(run.Final())
  {
    var labels := run.Entering();
    forall c | c in labels
      ensures !EndsInNumber(labels[c])
    {
      EnteringNoHash(run, c);
      if EndsInNumber(labels[c]) {
        NumberedHasHash(labels[c]);
      }
    }
    hide *;
    InjectiveWithoutNumbers(labels);
    FinalOf(run);
    EnteringOf(run);
  }

  lemma EnteringOf(run: Run)
    requires run.hubs.Keys == run.base.Keys
    ensures run.Entering() == HubStep(run.base, run.hubs)
  {
  }

  lemma FinalOf(run: Run)
    requires run.hubs.Keys == run.base.Keys
    ensures run.Final() == IndexStep(HubStep(run.base, run.hubs))
  {
  }

  // ---------------------------------------------------------------- a run whose labels collide

  const FIRST := LabelableNode("p", "a", "Function", "a")
  const SECOND := LabelableNode("q", "a", "Function", "a")
  const THIRD := LabelableNode("r", "a", "Function", "a #0")
  const COLLIDING_NODES := [FIRST, SECOND, THIRD]

  const COLLIDING_PARTITION: Partition := map["p" := 0, "q" := 1, "r" := 2]

  lemma SelectOfThree<T>(p: T, q: T, r: T, key: T -> int, k: int)
    ensures Select([p, q, r], key, k) ==
      (if key(p) == k then [p] else []) + (if key(q) == k then [q] else []) + (if key(r) == k then [r] else [])
  {
    SelectSnoc([], p, key, k);
    SelectSnoc([p], q, key, k);
    SelectSnoc([p, q], r, key, k);
    assert [p, q, r] == [p, q] + [r] && [p, q] == [p] + [q] && [p] == [] + [p];
  }

  lemma CollidingKeys()
    ensures CommunityOf(COLLIDING_PARTITION)(FIRST) == 0
    ensures CommunityOf(COLLIDING_PARTITION)(SECOND) == 1
    ensures CommunityOf(COLLIDING_PARTITION)(THIRD) == 2
  {
    assert "p"[0] == 'p' && "q"[0] == 'q' && "r"[0] == 'r';
  }

  lemma CollidingMembers()
    ensures Members(COLLIDING_PARTITION, COLLIDING_NODES, 0) == [FIRST]
    ensures Members(COLLIDING_PARTITION, COLLIDING_NODES, 1) == [SECOND]
    ensures Members(COLLIDING_PARTITION, COLLIDING_NODES, 2) == [THIRD]
    ensures forall c: nat :: c > 2 ==> Members(COLLIDING_PARTITION, COLLIDING_NODES, c) == []
  {
    CollidingKeys();
    hide CommunityOf, Select;
    forall c: nat
      ensures Members(COLLIDING_PARTITION, COLLIDING_NODES, c)
        == (if c == 0 then [FIRST] else []) + (if c == 1 then [SECOND] else []) + (if c == 2 then [THIRD] else [])
    {
      SelectOfThree(FIRST, SECOND, THIRD, CommunityOf(COLLIDING_PARTITION), c);
    }
  }

  lemma OneMember(run: Run, c: nat, n: LabelableNode)
    requires run.Valid() && c in run.base && Members(run.communityOf, run.nodes, c) == [n] && n.kind != "Module"
    ensures run.hubs[c] == Some(n.name)
    ensures BaseName(n.filePath) != [] ==> run.base[c] == BaseName(n.filePath)
  {
    assert SingleFile([n]);
  }

  lemma NoSlashNoDot(text: string)
    requires forall i :: 0 <= i < |text| ==> text[i] != '/' && text[i] != '.'
    ensures BaseName(text) == text
  {
    hide LastIndex;
    assert LastIndex(text, '/') == -1 && text[0..] == text && LastIndex(text, '.') == -1;
  }

  const COLLIDING_LABELS: map<nat, string> := map[0 := "a", 1 := "a", 2 := "a #0"]

  lemma ThreeKeys(run: Run, p: LabelableNode, q: LabelableNode, r: LabelableNode)
    requires run.Valid()
    requires Members(run.communityOf, run.nodes, 0) == [p] && Members(run.communityOf, run.nodes, 1) == [q]
    requires Members(run.communityOf, run.nodes, 2) == [r]
    requires forall c: nat :: c > 2 ==> Members(run.communityOf, run.nodes, c) == []
    ensures run.base.Keys == {0, 1, 2} == run.hubs.Keys
  {
    hide Members, IsHubName, IsComposed, Degree;
    forall c: nat
      ensures c in run.base <==> c < 3
    {
    }
  }

  lemma ThreeBases(run: Run, p: LabelableNode, q: LabelableNode, r: LabelableNode)
    requires run.Valid() && p.kind != "Module" && q.kind != "Module" && r.kind != "Module"
    requires Members(run.communityOf, run.nodes, 0) == [p] && Members(run.communityOf, run.nodes, 1) == [q]
    requires Members(run.communityOf, run.nodes, 2) == [r]
    requires forall c: nat :: c > 2 ==> Members(run.communityOf, run.nodes, c) == []
    requires BaseName(p.filePath) != [] && BaseName(q.filePath) != [] && BaseName(r.filePath) != []
    ensures run.base == map[0 := BaseName(p.filePath), 1 := BaseName(q.filePath), 2 := BaseName(r.filePath)]
    ensures run.hubs.Keys == run.base.Keys && run.hubs[0] == Some(p.name) && run.hubs[1] == Some(q.name)
  {
    hide BaseName, Members, IsBase;
    ThreeKeys(run, p, q, r);
    OneMember(run, 0, p);
    OneMember(run, 1, q);
    OneMember(run, 2, r);
  }

  lemma CollidingFacts()
    ensures FIRST.kind != "Module" && SECOND.kind != "Module" && THIRD.kind != "Module"
    ensures FIRST.name == SECOND.name == "a"
    ensures BaseName(FIRST.filePath) != [] && BaseName(SECOND.filePath) != [] && BaseName(THIRD.filePath) != []
    ensures COLLIDING_LABELS == map[0 := BaseName(FIRST.filePath), 1 := BaseName(SECOND.filePath),
                                    2 := BaseName(THIRD.filePath)]
  {
    hide BaseName;
    NoSlashNoDot("a");
    NoSlashNoDot("a #0");
    assert "Function"[0] == 'F' && "Module"[0] == 'M';
  }

  lemma CollidingBase(run: Run)
    requires run.Valid() && run.communityOf == COLLIDING_PARTITION && run.nodes == COLLIDING_NODES
    ensures run.base == COLLIDING_LABELS && run.hubs.Keys == run.base.Keys && run.hubs[0] == run.hubs[1] == Some("a")
  {
    hide *;
    CollidingMembers();
    CollidingFacts();
    ThreeBases(run, FIRST, SECOND, THIRD);
  }

  /** The hub adds nothing to the shared labels, so they enter the last step unchanged. */
  lemma CollidingEntering(hubs: map<nat, Option<string>>)
    requires hubs.Keys == COLLIDING_LABELS.Keys && hubs[0] == hubs[1] == Some("a")
    ensures HubStep(COLLIDING_LABELS, hubs) == COLLIDING_LABELS
    ensures Shared(COLLIDING_LABELS, 0) && !Shared(COLLIDING_LABELS, 2)
  {
    var labels := COLLIDING_LABELS;
    assert labels[0] == "a" && labels[1] == "a" && |labels[2]| == 4;
    assert Shared(labels, 0) && Shared(labels, 1) && !Shared(labels, 2);
    assert OccursAt("a", "a", 0);
    hide Shared;
    assert WithHub(hubs[0], "a") == "a" && WithHub(hubs[1], "a") == "a";
  }

  lemma CollidingFinal()
    requires Shared(COLLIDING_LABELS, 0) && !Shared(COLLIDING_LABELS, 2)
    ensures IndexStep(COLLIDING_LABELS)[0] == IndexStep(COLLIDING_LABELS)[2] == "a #0"
  {
    hide Shared;
    assert Decimal(0) == "0";
    assert WithIndex(0, "a") == "a #0";
  }

  /** Three one-node communities, of which two share a file and the third's file is named like a numbered label. */
  lemma LabelsCollide(run: Run)
    requires run.Valid() && run.communityOf == COLLIDING_PARTITION && run.nodes == COLLIDING_NODES
    ensures 0 in run.base && 2 in run.base && run.Final()[0] == run.Final()[2] == "a #0"
  {
    CollidingBase(run);
    hide *;
    CollidingEntering(run.hubs);
    CollidingFinal();
    FinalOf(run);
  }
}
