/**
 Offline import: rows of CSV sources become node and relationship records, which are written in chunks to a
 staging database that is promoted only at the end. The specification knows no chunks.
 */
module Import {
  import opened Text
  import opened Wrappers

  datatype ImportError =
    | InvalidChunkSize
    | InvalidRow(detail: string)
    | MissingNodeId
    | DuplicateNodeId(id: string)
    | MissingRelationshipEndpoint(endpoint: string)
    | MissingRelationshipNode(endpoint: string, id: string)
    | MissingRelationshipType
    | DuplicateRelationshipId(id: string)
    | SchemaFailed
    | MissingNodeSource
    | PreflightFailed
    | Cancelled

  /** The parts of an id, with their id spaces. */
  type IdParts = seq<(Option<string>, string)>

  /** How a list of id spaces and values is written as JSON. */
  type JsonWriter = seq<(string, string)> -> string

  /** A CSV row under its header; `Malformed` is one that cannot be read, whatever its ids. */
  datatype NodeRow = Malformed(detail: string) | NodeRow(id: IdParts, content: string)

  datatype RelationshipRow =
    | MalformedRelationship(detail: string)
    | RelationshipRow(id: IdParts, start: IdParts, end: IdParts, edgeType: Option<string>, content: string)

  /** `identified` is whether the header has an id column. */
  datatype NodeSource = NodeSource(identified: bool, rows: seq<NodeRow>)

  datatype Options = Options(skipBadRelationships: bool, badRelationshipTolerance: nat, chunkSize: nat)

  /** Labels, properties and embeddings are `content`; creation times are left out. */
  datatype Node = Node(content: string)

  datatype Edge = Edge(startNode: string, endNode: string, edgeType: string, content: string)

  datatype Record<T> = Record(id: string, value: T)

  datatype Graph = Graph(nodes: map<string, Node>, edges: map<string, Edge>)

  // ---------- Records by id ----------

  predicate Distinct<T>(records: seq<Record<T>>) {
    forall i, j | 0 <= i < j < |records| :: records[i].id != records[j].id
  }

  predicate HasId<T>(records: seq<Record<T>>, id: string) {
    exists i | 0 <= i < |records| :: records[i].id == id
  }

  function MapOf<T>(records: seq<Record<T>>): map<string, T> {
    if records == [] then map[]
    else
      var last := records[|records| - 1];
      MapOf(records[..|records| - 1])[last.id := last.value]
  }

  lemma {:induction false} MapOfKeys<T>(records: seq<Record<T>>, id: string)
    ensures id in MapOf(records) <==> HasId(records, id)
    decreases |records|
  {
    if records != [] {
      var n := |records| - 1;
      MapOfKeys(records[..n], id);
      if HasId(records, id) && records[n].id != id {
        var i :| 0 <= i < |records| && records[i].id == id;
        assert records[..n][i].id == id;
      } else if HasId(records[..n], id) {
        var i :| 0 <= i < n && records[..n][i].id == id;
        assert records[i].id == id;
      }
    }
  }

  /** With distinct ids the map holds every record. */
  lemma {:induction false} MapOfHolds<T>(records: seq<Record<T>>, i: nat)
    requires Distinct(records) && i < |records|
    ensures records[i].id in MapOf(records) && MapOf(records)[records[i].id] == records[i].value
    decreases |records|
  {
    var n := |records| - 1;
    if i < n {
      assert records[..n][i] == records[i];
      MapOfHolds(records[..n], i);
    }
  }

  lemma {:induction false} MapOfAppend<T>(a: seq<Record<T>>, b: seq<Record<T>>)
    ensures MapOf(a + b) == MapOf(a) + MapOf(b)
    decreases |b|
  {
    if b == [] {
      assert a + b == a;
    } else {
      var n := |b| - 1;
      MapOfAppend(a, b[..n]);
      assert (a + b)[..|a + b| - 1] == a + b[..n];
    }
  }

  lemma DistinctAppend<T>(a: seq<Record<T>>, b: seq<Record<T>>)
    ensures Distinct(a + b) <==> Distinct(a) && Distinct(b) && forall i | 0 <= i < |b| :: !HasId(a, b[i].id)
  {
    var c := a + b;
    assert forall i | 0 <= i < |a| :: c[i] == a[i];
    assert forall i | 0 <= i < |b| :: c[|a| + i] == b[i];
    if Distinct(c) {
      forall i | 0 <= i < |b| ensures !HasId(a, b[i].id) {
        assert c[|a| + i].id == b[i].id;
      }
    }
    if Distinct(a) && Distinct(b) && forall i | 0 <= i < |b| :: !HasId(a, b[i].id) {
      forall i, j | 0 <= i < j < |c| ensures c[i].id != c[j].id {
        if i < |a| <= j {
          assert c[i] == a[i] && c[j] == b[j - |a|];
        } else if |a| <= i {
          assert c[i] == b[i - |a|] && c[j] == b[j - |a|];
        }
      }
    }
  }

  // ---------- Identifiers ----------

  const IMPORT_ID_PREFIX := "__copperdb_import_id__"

  function JsonParts(parts: IdParts): seq<(string, string)> {
    seq(|parts|, i requires 0 <= i < |parts| => (if parts[i].0.Some? then parts[i].0.value else "", parts[i].1))
  }

  function ImportIdentifier(parts: IdParts, json: JsonWriter): Option<string> {
    if parts == [] || exists p | p in parts :: p.1 == "" then None
    else if |parts| == 1 && parts[0].0 == None then Some(parts[0].1)
    else Some(IMPORT_ID_PREFIX + json(JsonParts(parts)))
  }

  // ---------- Nodes, without chunks ----------

  /** A row of any source: its position among all of them decides its generated id. */
  datatype NodeItem = NodeItem(identified: bool, row: NodeRow)

  function ItemsOf(source: NodeSource): seq<NodeItem> {
    seq(|source.rows|, i requires 0 <= i < |source.rows| => NodeItem(source.identified, source.rows[i]))
  }

  function NodeItems(sources: seq<NodeSource>): seq<NodeItem> {
    if sources == [] then [] else ItemsOf(sources[0]) + NodeItems(sources[1..])
  }

  /** How many of the first rows come from sources without ids. */
  function Anonymous(items: seq<NodeItem>, n: nat): nat
    requires n <= |items|
  {
    if n == 0 then 0 else Anonymous(items, n - 1) + if items[n - 1].identified then 0 else 1
  }

  function NodeFromRow(item: NodeItem, anonymous: nat, json: JsonWriter): Result<Record<Node>, ImportError> {
    match item.row
    case Malformed(detail) => Err(InvalidRow(detail))
    case NodeRow(parts, content) =>
      if !item.identified then Ok(Record("_anon_" + Decimal(anonymous), Node(content)))
      else
        match ImportIdentifier(parts, json)
        case None => Err(MissingNodeId)
        case Some(id) => Ok(Record(id, Node(content)))
  }

  function NodeAt(items: seq<NodeItem>, k: nat, json: JsonWriter): Result<Record<Node>, ImportError>
    requires k < |items|
  {
    NodeFromRow(items[k], Anonymous(items, k), json)
  }

  predicate AllNodesRead(items: seq<NodeItem>, n: nat, json: JsonWriter)
    requires n <= |items|
  {
    forall k: nat | k < n :: NodeAt(items, k, json).Ok?
  }

  function Nodes(items: seq<NodeItem>, n: nat, json: JsonWriter): (r: seq<Record<Node>>)
    requires n <= |items| && AllNodesRead(items, n, json)
    ensures |r| == n
  {
    seq(n, k requires 0 <= k < n => NodeAt(items, k, json).value)
  }

  /** Nodes of an import, if it gets past them: every row is read and no id comes twice. */
  ghost predicate NodesSucceed(items: seq<NodeItem>, json: JsonWriter) {
    AllNodesRead(items, |items|, json) && Distinct(Nodes(items, |items|, json))
  }

  // ---------- Relationships, without chunks ----------

  function RelationshipItems(sources: seq<seq<RelationshipRow>>): seq<RelationshipRow> {
    if sources == [] then [] else sources[0] + RelationshipItems(sources[1..])
  }

  /** A bad relationship may be skipped; any other error ends the import. */
  datatype EdgeReading = Good(record: Record<Edge>) | Bad(error: ImportError) | Fatal(error: ImportError)

  function EdgeFromRow(row: RelationshipRow, position: nat, nodes: map<string, Node>, json: JsonWriter): EdgeReading {
    match row
    case MalformedRelationship(detail) => Fatal(InvalidRow(detail))
    case RelationshipRow(idParts, startParts, endParts, edgeType, content) =>
      var start, end := ImportIdentifier(startParts, json), ImportIdentifier(endParts, json);
      if start == None then Bad(MissingRelationshipEndpoint("start"))
      else if end == None then Bad(MissingRelationshipEndpoint("end"))
      else if start.value !in nodes then Bad(MissingRelationshipNode("start", start.value))
      else if end.value !in nodes then Bad(MissingRelationshipNode("end", end.value))
      else if edgeType == None || edgeType.value == "" then Bad(MissingRelationshipType)
      else
        var edge := Edge(start.value, end.value, edgeType.value, content);
        if idParts == [] then Good(Record("rel_" + Decimal(position), edge))
        else
          match ImportIdentifier(idParts, json)
          case None => Bad(MissingRelationshipEndpoint("relationship"))
          case Some(id) => Good(Record(id, edge))
  }

  function EdgeAt(items: seq<RelationshipRow>, k: nat, nodes: map<string, Node>, json: JsonWriter): EdgeReading
    requires k < |items|
  {
    EdgeFromRow(items[k], k, nodes, json)
  }

  function GoodEdges(items: seq<RelationshipRow>, n: nat, nodes: map<string, Node>, json: JsonWriter): seq<Record<Edge>>
    requires n <= |items|
  {
    if n == 0 then []
    else
      var e := EdgeAt(items, n - 1, nodes, json);
      GoodEdges(items, n - 1, nodes, json) + if e.Good? then [e.record] else []
  }

  function BadCount(items: seq<RelationshipRow>, n: nat, nodes: map<string, Node>, json: JsonWriter): nat
    requires n <= |items|
  {
    if n == 0 then 0
    else BadCount(items, n - 1, nodes, json) + if EdgeAt(items, n - 1, nodes, json).Bad? then 1 else 0
  }

  predicate NoFatal(items: seq<RelationshipRow>, n: nat, nodes: map<string, Node>, json: JsonWriter)
    requires n <= |items|
  {
    forall k: nat | k < n :: !EdgeAt(items, k, nodes, json).Fatal?
  }

  predicate Tolerated(options: Options, bad: nat) {
    bad == 0 || options.skipBadRelationships || bad <= options.badRelationshipTolerance
  }

  ghost predicate EdgesSucceed(items: seq<RelationshipRow>, nodes: map<string, Node>, options: Options, json: JsonWriter) {
    && NoFatal(items, |items|, nodes, json) && Tolerated(options, BadCount(items, |items|, nodes, json))
    && Distinct(GoodEdges(items, |items|, nodes, json))
  }

  /** Imported and bad relationships together are the rows. */
  lemma {:induction false} EveryRowCounts(items: seq<RelationshipRow>, n: nat, nodes: map<string, Node>, json: JsonWriter)
    requires n <= |items| && NoFatal(items, n, nodes, json)
    ensures |GoodEdges(items, n, nodes, json)| + BadCount(items, n, nodes, json) == n
  {
    hide EdgeFromRow;
    if n > 0 {
      assert !EdgeAt(items, n - 1, nodes, json).Fatal?;
      EveryRowCounts(items, n - 1, nodes, json);
    }
  }

  /** Every edge that is imported joins two imported nodes. */
  lemma {:induction false} EdgesHaveEndpoints(items: seq<RelationshipRow>, n: nat, nodes: map<string, Node>, json: JsonWriter)
    requires n <= |items|
    ensures forall r | r in GoodEdges(items, n, nodes, json) :: r.value.startNode in nodes && r.value.endNode in nodes
                                                            && r.value.edgeType != ""
  {
    hide ImportIdentifier;
    if n > 0 {
      EdgesHaveEndpoints(items, n - 1, nodes, json);
    }
  }

  // ---------- Writing a chunk of nodes ----------

  class Staging {
    var nodes: map<string, Node>
    var edges: map<string, Edge>

    constructor ()
      ensures nodes == map[] && edges == map[]
    {
      nodes, edges := map[], map[];
    }

    /** All of the chunk, or nothing if an id is taken. */
    method WriteNodeBatch(records: seq<Record<Node>>) returns (r: Result<(), ImportError>)
      modifies this`nodes
      ensures r.Ok? <==> Distinct(records) && forall i | 0 <= i < |records| :: records[i].id !in old(nodes)
      ensures nodes == if r.Ok? then old(nodes) + MapOf(records) else old(nodes)
      ensures r.Err? ==> exists i :: 0 <= i < |records| && r.error == DuplicateNodeId(records[i].id)
    {
      var chunkIds: set<string> := {};
      for i := 0 to |records|
        invariant forall j | 0 <= j < i :: records[j].id in chunkIds
        invariant forall id | id in chunkIds :: exists j :: 0 <= j < i && records[j].id == id
        invariant forall j, k | 0 <= j < k < i :: records[j].id != records[k].id
        invariant forall j | 0 <= j < i :: records[j].id !in nodes
        invariant nodes == old(nodes)
      {
        if records[i].id in chunkIds || records[i].id in nodes {
          return Err(DuplicateNodeId(records[i].id));
        }
        chunkIds := chunkIds + {records[i].id};
      }
      nodes := nodes + MapOf(records);
      return Ok(());
    }

    method WriteRelationshipBatch(records: seq<Record<Edge>>) returns (r: Result<(), ImportError>)
      modifies this`edges
      ensures r.Ok? <==> Distinct(records) && forall i | 0 <= i < |records| :: records[i].id !in old(edges)
      ensures edges == if r.Ok? then old(edges) + MapOf(records) else old(edges)
      ensures r.Err? ==> exists i :: 0 <= i < |records| && r.error == DuplicateRelationshipId(records[i].id)
    {
      var chunkIds: set<string> := {};
      for i := 0 to |records|
        invariant forall j | 0 <= j < i :: records[j].id in chunkIds
        invariant forall id | id in chunkIds :: exists j :: 0 <= j < i && records[j].id == id
        invariant forall j, k | 0 <= j < k < i :: records[j].id != records[k].id
        invariant forall j | 0 <= j < i :: records[j].id !in edges
        invariant edges == old(edges)
      {
        if records[i].id in chunkIds || records[i].id in edges {
          return Err(DuplicateRelationshipId(records[i].id));
        }
        chunkIds := chunkIds + {records[i].id};
      }
      edges := edges + MapOf(records);
      return Ok(());
    }

    /** Success, and what is stored, do not depend on the chunk size. */
    method StreamNodeRecordBatches(sources: seq<NodeSource>, chunkSize: nat, json: JsonWriter)
      returns (r: Result<nat, ImportError>)
      requires nodes == map[]
      modifies this`nodes
      ensures r.Ok? <==> chunkSize > 0 && NodesSucceed(NodeItems(sources), json)
      ensures r.Ok? ==> var items := NodeItems(sources);
        nodes == MapOf(Nodes(items, |items|, json)) && r.value == |items|
    {
      hide NodeFromRow, MapOf, Distinct, HasId, ItemsOf, NodesWritten;
      if chunkSize == 0 {
        return Err(InvalidChunkSize);
      }
      ghost var items := NodeItems(sources);
      ghost var pos := 0;
      var records: seq<Record<Node>> := [];
      var streamed: nat := 0;
      var anonymous: nat := 0;
      NothingWritten(items, json);
      for s := 0 to |sources|
        invariant pos <= |items| && items[pos..] == NodeItems(sources[s..])
        invariant NodesWritten(items, pos, records, streamed, nodes, json)
        invariant anonymous == Anonymous(items, pos) && |records| < chunkSize
      {
        var source := sources[s];
        NextSource(items, pos, sources, s);
        ghost var first := pos;
        for i := 0 to |source.rows|
          invariant pos == first + i <= |items| && items[first..] == ItemsOf(source) + NodeItems(sources[s + 1..])
          invariant NodesWritten(items, pos, records, streamed, nodes, json)
          invariant anonymous == Anonymous(items, pos) && |records| < chunkSize
        {
          RowOfSource(items, first, source, sources[s + 1..], i);
          var record := NodeFromRow(NodeItem(source.identified, source.rows[i]), anonymous, json);
          if record.Err? {
            NodeUnread(items, pos, json);
            return Err(record.error);
          }
          ReadNode(items, pos, records, streamed, nodes, json);
          records := records + [record.value];
          if !source.identified {
            anonymous := anonymous + 1;
          }
          pos := pos + 1;
          if |records| == chunkSize {
            ghost var before := nodes;
            var written := WriteNodeBatch(records);
            FlushNodes(items, pos, records, streamed, before, json);
            if written.Err? {
              return Err(written.error);
            }
            streamed := streamed + |records|;
            records := [];
          }
        }
        SourceDone(items, first, pos, source, sources[s + 1..]);
      }
      assert sources[|sources|..] == [];
      assert pos == |items|;
      if records != [] {
        ghost var before := nodes;
        var written := WriteNodeBatch(records);
        FlushNodes(items, pos, records, streamed, before, json);
        if written.Err? {
          return Err(written.error);
        }
        streamed := streamed + |records|;
        records := [];
      }
      AllWritten(items, streamed, nodes, json);
      return Ok(streamed);
    }

    /** Good relationships are stored, bad ones counted, as far as they are tolerated. */
    method StreamRelationshipRecordBatches(sources: seq<seq<RelationshipRow>>, options: Options, json: JsonWriter)
      returns (r: Result<(nat, nat), ImportError>)
      requires edges == map[]
      modifies this`edges
      ensures r.Ok? <==> options.chunkSize > 0 && EdgesSucceed(RelationshipItems(sources), nodes, options, json)
      ensures r.Ok? ==> var items := RelationshipItems(sources);
        && edges == MapOf(GoodEdges(items, |items|, nodes, json))
        && r.value == (|GoodEdges(items, |items|, nodes, json)|, BadCount(items, |items|, nodes, json))
    {
      hide EdgeFromRow, MapOf, Distinct, HasId, EdgesWritten, GoodEdges, BadCount;
      if options.chunkSize == 0 {
        return Err(InvalidChunkSize);
      }
      ghost var items := RelationshipItems(sources);
      ghost var pos := 0;
      var records: seq<Record<Edge>> := [];
      var streamed: nat := 0;
      var bad: nat := 0;
      var generated: nat := 0;
      NoEdgesWritten(items, nodes, options, json);
      for s := 0 to |sources|
        invariant pos <= |items| && items[pos..] == RelationshipItems(sources[s..]) && generated == pos
        invariant EdgesWritten(items, pos, records, streamed, bad, edges, nodes, options, json)
        invariant |records| < options.chunkSize
      {
        var rows := sources[s];
        assert sources[s..][1..] == sources[s + 1..];
        ghost var first := pos;
        for i := 0 to |rows|
          invariant pos == first + i <= |items| && items[first..] == rows + RelationshipItems(sources[s + 1..])
          invariant generated == pos && |records| < options.chunkSize
          invariant EdgesWritten(items, pos, records, streamed, bad, edges, nodes, options, json)
        {
          assert items[first..][i] == rows[i];
          var position := generated;
          generated := generated + 1;
          var edge := EdgeFromRow(rows[i], position, nodes, json);
          ReadEdge(items, pos, records, streamed, bad, edges, nodes, options, json);
          pos := pos + 1;
          match edge
          case Fatal(error) =>
            return Err(error);
          case Bad(error) =>
            bad := bad + 1;
            if !(options.skipBadRelationships
                 || (options.badRelationshipTolerance > 0 && bad <= options.badRelationshipTolerance)) {
              return Err(error);
            }
          case Good(record) =>
            records := records + [record];
            if |records| == options.chunkSize {
              ghost var before := edges;
              var written := WriteRelationshipBatch(records);
              FlushEdges(items, pos, records, streamed, bad, before, nodes, options, json);
              if written.Err? {
                return Err(written.error);
              }
              streamed := streamed + |records|;
              records := [];
            }
        }
        assert items[pos..] == items[first..][|rows|..];
      }
      assert sources[|sources|..] == [];
      assert pos == |items|;
      if records != [] {
        ghost var before := edges;
        var written := WriteRelationshipBatch(records);
        FlushEdges(items, pos, records, streamed, bad, before, nodes, options, json);
        if written.Err? {
          return Err(written.error);
        }
        streamed := streamed + |records|;
        records := [];
      }
      AllEdgesWritten(items, streamed, bad, edges, nodes, options, json);
      return Ok((streamed, bad));
    }
  }

  ghost predicate EdgesWritten(items: seq<RelationshipRow>, pos: nat, records: seq<Record<Edge>>, streamed: nat, bad: nat,
                               edges: map<string, Edge>, nodes: map<string, Node>, options: Options, json: JsonWriter)
  {
    && pos <= |items| && NoFatal(items, pos, nodes, json) && bad == BadCount(items, pos, nodes, json) && Tolerated(options, bad)
    && streamed + |records| == |GoodEdges(items, pos, nodes, json)|
    && records == GoodEdges(items, pos, nodes, json)[streamed..]
    && Distinct(GoodEdges(items, pos, nodes, json)[..streamed])
    && edges == MapOf(GoodEdges(items, pos, nodes, json)[..streamed])
  }

  lemma NoEdgesWritten(items: seq<RelationshipRow>, nodes: map<string, Node>, options: Options, json: JsonWriter)
    ensures EdgesWritten(items, 0, [], 0, 0, map[], nodes, options, json) && items[0..] == items
  {
  }

  /** One more row: waiting, counted as bad, or the end of the import. */
  lemma ReadEdge(items: seq<RelationshipRow>, pos: nat, records: seq<Record<Edge>>, streamed: nat, bad: nat,
                 edges: map<string, Edge>, nodes: map<string, Node>, options: Options, json: JsonWriter)
    requires EdgesWritten(items, pos, records, streamed, bad, edges, nodes, options, json) && pos < |items|
    ensures EdgeAt(items, pos, nodes, json).Fatal? ==> !EdgesSucceed(items, nodes, options, json)
    ensures EdgeAt(items, pos, nodes, json).Bad? ==>
              if Tolerated(options, bad + 1)
              then EdgesWritten(items, pos + 1, records, streamed, bad + 1, edges, nodes, options, json)
              else !EdgesSucceed(items, nodes, options, json)
    ensures EdgeAt(items, pos, nodes, json).Good? ==>
              EdgesWritten(items, pos + 1, records + [EdgeAt(items, pos, nodes, json).record], streamed, bad, edges, nodes,
                           options, json)
  {
    hide EdgeFromRow, Distinct, MapOf;
    var all, more := GoodEdges(items, pos, nodes, json), GoodEdges(items, pos + 1, nodes, json);
    assert all <= more;
    assert more[..streamed] == all[..streamed];
    BadGrows(items, pos + 1, |items|, nodes, json);
  }

  lemma {:induction false} BadGrows(items: seq<RelationshipRow>, m: nat, n: nat, nodes: map<string, Node>, json: JsonWriter)
    requires m <= n <= |items|
    ensures BadCount(items, m, nodes, json) <= BadCount(items, n, nodes, json)
    ensures GoodEdges(items, m, nodes, json) <= GoodEdges(items, n, nodes, json)
    decreases n
  {
    hide EdgeFromRow;
    if m < n {
      BadGrows(items, m, n - 1, nodes, json);
    }
  }

  lemma FlushEdges(items: seq<RelationshipRow>, pos: nat, records: seq<Record<Edge>>, streamed: nat, bad: nat,
                   before: map<string, Edge>, nodes: map<string, Node>, options: Options, json: JsonWriter)
    requires EdgesWritten(items, pos, records, streamed, bad, before, nodes, options, json)
    ensures if Distinct(records) && forall i | 0 <= i < |records| :: records[i].id !in before
            then EdgesWritten(items, pos, [], streamed + |records|, bad, before + MapOf(records), nodes, options, json)
            else !EdgesSucceed(items, nodes, options, json)
  {
    hide EdgeFromRow, Distinct, MapOf, HasId, BadCount, GoodEdges;
    var all, every := GoodEdges(items, pos, nodes, json), GoodEdges(items, |items|, nodes, json);
    assert all == all[..streamed] + records && all[..|all|] == all && all[|all|..] == [];
    DistinctAppend(all[..streamed], records);
    MapOfAppend(all[..streamed], records);
    forall i | 0 <= i < |records| ensures records[i].id in before <==> HasId(all[..streamed], records[i].id) {
      MapOfKeys(all[..streamed], records[i].id);
    }
    BadGrows(items, pos, |items|, nodes, json);
    assert every == all + every[|all|..];
    DistinctAppend(all, every[|all|..]);
  }

  lemma AllEdgesWritten(items: seq<RelationshipRow>, streamed: nat, bad: nat, edges: map<string, Edge>,
                        nodes: map<string, Node>, options: Options, json: JsonWriter)
    requires EdgesWritten(items, |items|, [], streamed, bad, edges, nodes, options, json)
    ensures EdgesSucceed(items, nodes, options, json) && streamed == |GoodEdges(items, |items|, nodes, json)|
    ensures edges == MapOf(GoodEdges(items, |items|, nodes, json)) && bad == BadCount(items, |items|, nodes, json)
  {
    hide EdgeFromRow, Distinct, MapOf, GoodEdges;
    var all := GoodEdges(items, |items|, nodes, json);
    assert all[..|all|] == all;
  }

  /** The records of the first `pos` rows: those before `streamed` are stored, the rest wait in `records`. */
  ghost predicate NodesWritten(items: seq<NodeItem>, pos: nat, records: seq<Record<Node>>, streamed: nat,
                               nodes: map<string, Node>, json: JsonWriter): (b: bool)
    ensures b ==> streamed + |records| == pos
  {
    && streamed + |records| == pos <= |items| && AllNodesRead(items, pos, json)
    && records == Nodes(items, pos, json)[streamed..]
    && Distinct(Nodes(items, pos, json)[..streamed]) && nodes == MapOf(Nodes(items, pos, json)[..streamed])
  }

  lemma NothingWritten(items: seq<NodeItem>, json: JsonWriter)
    ensures NodesWritten(items, 0, [], 0, map[], json) && items[0..] == items
  {
  }

  lemma NextSource(items: seq<NodeItem>, pos: nat, sources: seq<NodeSource>, s: nat)
    requires pos <= |items| && s < |sources| && items[pos..] == NodeItems(sources[s..])
    ensures items[pos..] == ItemsOf(sources[s]) + NodeItems(sources[s + 1..])
  {
    assert sources[s..][1..] == sources[s + 1..];
  }

  lemma RowOfSource(items: seq<NodeItem>, first: nat, source: NodeSource, rest: seq<NodeSource>, i: nat)
    requires first <= |items| && items[first..] == ItemsOf(source) + NodeItems(rest) && i < |source.rows|
    ensures first + i < |items| && items[first + i] == NodeItem(source.identified, source.rows[i])
  {
    assert items[first..][i] == ItemsOf(source)[i];
  }

  lemma SourceDone(items: seq<NodeItem>, first: nat, pos: nat, source: NodeSource, rest: seq<NodeSource>)
    requires first <= |items| && items[first..] == ItemsOf(source) + NodeItems(rest) && pos == first + |source.rows|
    ensures pos <= |items| && items[pos..] == NodeItems(rest)
  {
    assert items[pos..] == items[first..][|source.rows|..];
  }

  lemma NodeUnread(items: seq<NodeItem>, pos: nat, json: JsonWriter)
    requires pos < |items| && NodeAt(items, pos, json).Err?
    ensures !NodesSucceed(items, json)
  {
    hide NodeAt;
  }

  lemma ReadNode(items: seq<NodeItem>, pos: nat, records: seq<Record<Node>>, streamed: nat, nodes: map<string, Node>,
                 json: JsonWriter)
    requires NodesWritten(items, pos, records, streamed, nodes, json) && pos < |items| && NodeAt(items, pos, json).Ok?
    ensures NodesWritten(items, pos + 1, records + [NodeAt(items, pos, json).value], streamed, nodes, json)
  {
    hide NodeAt, Distinct, MapOf;
    var all, more := Nodes(items, pos, json), Nodes(items, pos + 1, json);
    assert more == all + [NodeAt(items, pos, json).value];
    assert more[..streamed] == all[..streamed];
  }

  /** Writing the waiting records goes well exactly when all records so far have distinct ids. */
  lemma FlushNodes(items: seq<NodeItem>, pos: nat, records: seq<Record<Node>>, streamed: nat, before: map<string, Node>,
                   json: JsonWriter)
    requires NodesWritten(items, pos, records, streamed, before, json)
    ensures if Distinct(records) && forall i | 0 <= i < |records| :: records[i].id !in before
            then NodesWritten(items, pos, [], pos, before + MapOf(records), json) else !NodesSucceed(items, json)
  {
    hide NodeAt, Distinct, MapOf, HasId;
    var all := Nodes(items, pos, json);
    assert all == all[..streamed] + records && all[..pos] == all && all[pos..] == [];
    DistinctAppend(all[..streamed], records);
    MapOfAppend(all[..streamed], records);
    forall i | 0 <= i < |records| ensures records[i].id in before <==> HasId(all[..streamed], records[i].id) {
      MapOfKeys(all[..streamed], records[i].id);
    }
    if NodesSucceed(items, json) {
      var every := Nodes(items, |items|, json);
      assert every == all + every[pos..];
      DistinctAppend(all, every[pos..]);
    }
  }

  lemma AllWritten(items: seq<NodeItem>, streamed: nat, nodes: map<string, Node>, json: JsonWriter)
    requires NodesWritten(items, |items|, [], streamed, nodes, json)
    ensures NodesSucceed(items, json) && streamed == |items| && nodes == MapOf(Nodes(items, |items|, json))
  {
    hide NodeAt, Distinct, MapOf;
    var all := Nodes(items, |items|, json);
    assert all[..|items|] == all;
  }
}
