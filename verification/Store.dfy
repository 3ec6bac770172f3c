/** The graph store: nodes by id, edges by ends and kind, and graph-level metadata by key. */
module Store {
  import opened Tallies
  import opened Records

  datatype NodeRow = NodeRow(
    kind: string, name: string, filePath: string, exported: bool, startLine: int, endLine: int, metadata: Metadata)

  datatype LineRange = LineRange(startLine: int, endLine: int)

  /** An extracted node and edge, as handed to `Load`. */
  datatype GraphNode = GraphNode(
    id: string, kind: string, name: string, filePath: string, range: Option<LineRange>, exported: Option<bool>,
    metadata: Option<Metadata>)

  datatype GraphEdge = GraphEdge(id: string, kind: string, from: string, to: string, metadata: Option<Metadata>)

  type EdgeKey = (string, string, string)

  /** The contents of the store. `order` is the order in which node rows are read back. */
  datatype Db = Db(
    order: seq<string>, nodes: map<string, NodeRow>, edges: map<EdgeKey, Metadata>, meta: map<string, Metadata>)

  /** Rows are listed once each, and every edge joins two stored nodes. */
  ghost predicate Sound(db: Db) {
    && Enumerates(db.order, db.nodes.Keys)
    && forall k :: k in db.edges ==> k.0 in db.nodes && k.1 in db.nodes
  }

  function OrEmpty(metadata: Option<Metadata>): Metadata {
    if metadata.Some? then metadata.value else map[]
  }

  function RowOf(n: GraphNode): NodeRow {
    NodeRow(n.kind, n.name, n.filePath, n.exported.Some? && n.exported.value,
            if n.range.Some? then n.range.value.startLine else 0,
            if n.range.Some? then n.range.value.endLine else 0,
            OrEmpty(n.metadata))
  }

  /** Inserts or replaces a node; a new node is read back last. */
  function MergeNode(db: Db, n: GraphNode): Db {
    db.(order := if n.id in db.nodes then db.order else db.order + [n.id], nodes := db.nodes[n.id := RowOf(n)])
  }

  /** Inserts or updates an edge between stored nodes; an edge with a missing end is skipped. */
  function MergeEdge(db: Db, e: GraphEdge): Db {
    if e.from in db.nodes && e.to in db.nodes
    then db.(edges := db.edges[(e.from, e.to, e.kind) := OrEmpty(e.metadata)])
    else db
  }

  function MergeNodes(db: Db, nodes: seq<GraphNode>): Db {
    if nodes == [] then db else MergeNode(MergeNodes(db, nodes[..|nodes| - 1]), nodes[|nodes| - 1])
  }

  function MergeEdges(db: Db, edges: seq<GraphEdge>): Db {
    if edges == [] then db else MergeEdge(MergeEdges(db, edges[..|edges| - 1]), edges[|edges| - 1])
  }

  function ClearKind(db: Db, kind: string): Db {
    db.(edges := map k | k in db.edges && k.2 != kind :: db.edges[k])
  }

  /** The graph-level metadata under a key, if there is any. */
  function MetaAt(db: Db, key: string): Option<Metadata> {
    if key in db.meta then Some(db.meta[key]) else None
  }

  function SetMetadata(db: Db, id: string, metadata: Metadata): Db {
    if id in db.nodes then db.(nodes := db.nodes[id := db.nodes[id].(metadata := metadata)]) else db
  }

  datatype MetadataEntry = MetadataEntry(id: string, metadata: Metadata)

  function SetEach(db: Db, entries: seq<MetadataEntry>): Db {
    if entries == [] then db else
      SetMetadata(SetEach(db, entries[..|entries| - 1]), entries[|entries| - 1].id, entries[|entries| - 1].metadata)
  }

  function StoredRow(db: Db, id: string): StoredNode {
    if id in db.nodes then
      var r := db.nodes[id];
      StoredNode(id, r.kind, r.name, r.filePath, r.startLine, r.endLine, r.metadata)
    else StoredNode(id, "", "", "", 0, 0, map[])
  }

  function Rows(db: Db): (rows: seq<StoredNode>)
    ensures |rows| == |db.order| && forall i :: 0 <= i < |rows| ==> rows[i] == StoredRow(db, db.order[i])
  {
    seq(|db.order|, i requires 0 <= i < |db.order| => StoredRow(db, db.order[i]))
  }

  /** The rows a store hands to the queries have distinct ids. */
  lemma RowsDistinct(db: Db)
    requires Sound(db)
    ensures DistinctIds(Rows(db))
  {
  }

  /** What is read after a record was written or cleared: the new state of its key, the old one of every other. */
  lemma MetaReads(db: Db, key: string, value: Metadata, other: string)
    ensures MetaAt(db.(meta := db.meta[key := value]), other) == if other == key then Some(value) else MetaAt(db, other)
    ensures MetaAt(db.(meta := db.meta - {key}), other) == if other == key then None else MetaAt(db, other)
  {
  }

  lemma MergeNodeSound(db: Db, n: GraphNode)
    requires Sound(db)
    ensures Sound(MergeNode(db, n))
  {
    EnumeratesSnoc(db.order, db.nodes.Keys, n.id);
    assert MergeNode(db, n).nodes.Keys == db.nodes.Keys + {n.id};
    if n.id in db.nodes {
      assert db.nodes.Keys + {n.id} == db.nodes.Keys;
    }
    hide Enumerates;
  }

  lemma {:induction false} MergeNodesSound(db: Db, nodes: seq<GraphNode>)
    requires Sound(db)
    ensures Sound(MergeNodes(db, nodes))
  {
    if nodes != [] {
      MergeNodesSound(db, nodes[..|nodes| - 1]);
      MergeNodeSound(MergeNodes(db, nodes[..|nodes| - 1]), nodes[|nodes| - 1]);
    }
  }

  /** Merging edges touches edges only, and only between stored nodes. */
  lemma {:induction false} MergeEdgesFrame(db: Db, edges: seq<GraphEdge>)
    ensures var t := MergeEdges(db, edges);
      && t.order == db.order && t.nodes == db.nodes && t.meta == db.meta
      && (Sound(db) ==> Sound(t))
  {
    if edges != [] {
      MergeEdgesFrame(db, edges[..|edges| - 1]);
    }
  }

  lemma SetMetadataNodes(db: Db, id: string, metadata: Metadata)
    ensures var t := SetMetadata(db, id, metadata);
      && t == db.(nodes := t.nodes) && t.nodes.Keys == db.nodes.Keys
      && (id in db.nodes ==> t.nodes[id] == db.nodes[id].(metadata := metadata))
      && forall k :: k in db.nodes && k != id ==> t.nodes[k] == db.nodes[k]
  {
  }

  /** Entries with distinct ids set the metadata of exactly the stored nodes they name. */
  lemma {:induction false} SetEachNodes(db: Db, entries: seq<MetadataEntry>)
    requires forall i, j :: 0 <= i < j < |entries| ==> entries[i].id != entries[j].id
    ensures var t := SetEach(db, entries);
      && t == db.(nodes := t.nodes) && t.nodes.Keys == db.nodes.Keys
      && (forall i :: 0 <= i < |entries| && entries[i].id in db.nodes ==>
            t.nodes[entries[i].id] == db.nodes[entries[i].id].(metadata := entries[i].metadata))
      && (forall id :: id in db.nodes && (forall i :: 0 <= i < |entries| ==> entries[i].id != id) ==>
            t.nodes[id] == db.nodes[id])
  {
    if entries != [] {
      var init, last := entries[..|entries| - 1], entries[|entries| - 1];
      SetEachNodes(db, init);
      assert forall i :: 0 <= i < |init| ==> init[i] == entries[i] && init[i].id != last.id;
      SetMetadataNodes(SetEach(db, init), last.id, last.metadata);
      assert SetEach(db, entries) == SetMetadata(SetEach(db, init), last.id, last.metadata);
      hide SetEach, SetMetadata;
    }
  }

  class KuzuStore {
    var order: seq<string>
    var nodes: map<string, NodeRow>
    var edges: map<EdgeKey, Metadata>
    var meta: map<string, Metadata>

    ghost function Now(): Db
      reads this
    {
      Db(order, nodes, edges, meta)
    }

    constructor ()
      ensures Now() == Db([], map[], map[], map[]) && Sound(Now())
    {
      order, nodes, edges, meta := [], map[], map[], map[];
    }

    /** Merges nodes, then edges. */
    method Load(newNodes: seq<GraphNode>, newEdges: seq<GraphEdge>)
      modifies this
      ensures Now() == MergeEdges(MergeNodes(old(Now()), newNodes), newEdges)
    {
      ghost var db := Now();
      for i := 0 to |newNodes|
        invariant Now() == MergeNodes(db, newNodes[..i])
      {
        var n := newNodes[i];
        assert newNodes[..i + 1][..i] == newNodes[..i];
        if n.id !in nodes {
          order := order + [n.id];
        }
        nodes := nodes[n.id := RowOf(n)];
      }
      assert newNodes[..|newNodes|] == newNodes;
      WriteEdges(newEdges);
    }

    method WriteEdges(newEdges: seq<GraphEdge>)
      modifies this`edges
      ensures Now() == MergeEdges(old(Now()), newEdges)
    {
      ghost var db := Now();
      for i := 0 to |newEdges|
        invariant Now() == MergeEdges(db, newEdges[..i])
      {
        var e := newEdges[i];
        assert newEdges[..i + 1][..i] == newEdges[..i];
        if e.from in nodes && e.to in nodes {
          edges := edges[(e.from, e.to, e.kind) := OrEmpty(e.metadata)];
        }
      }
      assert newEdges[..|newEdges|] == newEdges;
    }

    method ClearEdgesByKind(kind: string)
      modifies this`edges
      ensures Now() == ClearKind(old(Now()), kind)
    {
      edges := map k | k in edges && k.2 != kind :: edges[k];
    }

    method ReadNodes() returns (rows: seq<StoredNode>)
      ensures rows == Rows(Now())
    {
      rows := [];
      for i := 0 to |order|
        invariant |rows| == i && forall k :: 0 <= k < i ==> rows[k] == StoredRow(Now(), order[k])
      {
        var id := order[i];
        var row := if id in nodes
          then StoredNode(id, nodes[id].kind, nodes[id].name, nodes[id].filePath, nodes[id].startLine,
                          nodes[id].endLine, nodes[id].metadata)
          else StoredNode(id, "", "", "", 0, 0, map[]);
        rows := rows + [row];
      }
    }

    /** Overwrites the metadata of the given nodes; an unknown id is skipped. */
    method WriteNodeMetadata(entries: seq<MetadataEntry>)
      modifies this`nodes
      ensures Now() == SetEach(old(Now()), entries)
    {
      ghost var db := Now();
      for i := 0 to |entries|
        invariant Now() == SetEach(db, entries[..i])
      {
        var entry := entries[i];
        assert entries[..i + 1][..i] == entries[..i];
        if entry.id in nodes {
          nodes := nodes[entry.id := nodes[entry.id].(metadata := entry.metadata)];
        }
      }
      assert entries[..|entries|] == entries;
    }

    method WriteGraphMeta(key: string, value: Metadata)
      modifies this`meta
      ensures Now() == old(Now()).(meta := old(Now()).meta[key := value])
    {
      meta := meta[key := value];
    }

    method ReadGraphMeta(key: string) returns (value: Option<Metadata>)
      ensures value == MetaAt(Now(), key)
    {
      value := if key in meta then Some(meta[key]) else None;
    }

    method ClearGraphMeta(key: string)
      modifies this`meta
      ensures Now() == old(Now()).(meta := old(Now()).meta - {key})
    {
      meta := meta - {key};
    }
  }
}
