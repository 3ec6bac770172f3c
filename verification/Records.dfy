/** The records of the stored graph that the queries and the enrichment share. */
module Records {

  datatype Option<+T> = None | Some(value: T)

  /** A decoded JSON value, as far as node metadata needs it. */
  datatype Json =
    | Null
    | Bool(b: bool)
    | Num(n: real)
    | Str(s: string)
    | Arr(items: seq<Json>)
    | Obj(fields: map<string, Json>)

  type Metadata = map<string, Json>

  datatype StoredNode = StoredNode(
    id: string, kind: string, name: string, filePath: string, startLine: int, endLine: int, metadata: Metadata)

  /** A stored node reduced to what the join reads. */
  datatype TargetNode = TargetNode(
    id: string, kind: string, name: string, filePath: string, startLine: int, endLine: int)

  const RUNTIME_KEY := "runtime"

  /** A numeric metric under `metadata.runtime`, or zero when it is absent or not a number. */
  function RuntimeValue(metadata: Metadata, key: string): real {
    if RUNTIME_KEY in metadata && metadata[RUNTIME_KEY].Obj? && key in metadata[RUNTIME_KEY].fields
       && metadata[RUNTIME_KEY].fields[key].Num?
    then metadata[RUNTIME_KEY].fields[key].n
    else 0.0
  }

  predicate HasRuntime(metadata: Metadata) {
    RUNTIME_KEY in metadata && (metadata[RUNTIME_KEY].Obj? || metadata[RUNTIME_KEY].Arr?)
  }

  /** Node ids are the primary key of the store. */
  ghost predicate DistinctIds(nodes: seq<StoredNode>) {
    forall i, j :: 0 <= i < j < |nodes| ==> nodes[i].id != nodes[j].id
  }
}
