/** A whole offline import: what is promoted, and what never is. */
module ImportOffline {
  import opened Import
  import opened Text
  import opened Wrappers

  datatype Report = Report(nodesImported: nat, relationshipsImported: nat, badRelationships: nat)

  /** What is decided outside the rows: whether the schema file can be read, whether the names, paths and headers
      pass the preflight checks, whether the schema can be applied, and whether the request is cancelled before the
      last check. */
  datatype Checks = Checks(schemaReads: bool, preflightPasses: bool, schemaApplies: bool, cancelled: bool)

  predicate Passes(checks: Checks) {
    checks.schemaReads && checks.preflightPasses && checks.schemaApplies && !checks.cancelled
  }

  /** The import as one function of all rows, knowing no chunks. */
  ghost predicate Succeeds(nodeSources: seq<NodeSource>, relationshipSources: seq<seq<RelationshipRow>>, options: Options,
                           checks: Checks, json: JsonWriter)
  {
    var items := NodeItems(nodeSources);
    && nodeSources != [] && Passes(checks) && NodesSucceed(items, json)
    && EdgesSucceed(RelationshipItems(relationshipSources), MapOf(Nodes(items, |items|, json)), options, json)
  }

  ghost function Imported(nodeSources: seq<NodeSource>, relationshipSources: seq<seq<RelationshipRow>>, json: JsonWriter): Graph
    requires NodesSucceed(NodeItems(nodeSources), json)
  {
    var items, rows := NodeItems(nodeSources), RelationshipItems(relationshipSources);
    var nodes := MapOf(Nodes(items, |items|, json));
    Graph(nodes, MapOf(GoodEdges(rows, |rows|, nodes, json)))
  }

  /** `live` is the database's graph afterwards: the imported one, or the one that was there. For every chunk
      size but 0 the same inputs succeed, with the same graph. */
  method RunImport(target: Graph, nodeSources: seq<NodeSource>, relationshipSources: seq<seq<RelationshipRow>>,
                   options: Options, checks: Checks, json: JsonWriter)
    returns (r: Result<Report, ImportError>, live: Graph)
    ensures r.Ok? <==> options.chunkSize > 0 && Succeeds(nodeSources, relationshipSources, options, checks, json)
    ensures r.Err? ==> live == target
    ensures r.Ok? ==> live == Imported(nodeSources, relationshipSources, json)
    ensures r.Ok? ==> r.value.nodesImported == |NodeItems(nodeSources)|
                      && r.value.relationshipsImported + r.value.badRelationships == |RelationshipItems(relationshipSources)|
    ensures r.Ok? ==> var rows := RelationshipItems(relationshipSources);
      r.value.badRelationships == BadCount(rows, |rows|, live.nodes, json)
  {
    hide MapOf, GoodEdges, BadCount, NodesSucceed, EdgesSucceed, AllNodesRead;
    if !checks.schemaReads {
      return Err(SchemaFailed), target;
    }
    if nodeSources == [] {
      return Err(MissingNodeSource), target;
    }
    if !checks.preflightPasses {
      return Err(PreflightFailed), target;
    }
    var staging := new Staging();
    var nodes := staging.StreamNodeRecordBatches(nodeSources, options.chunkSize, json);
    if nodes.Err? {
      return Err(nodes.error), target;
    }
    var relationships := staging.StreamRelationshipRecordBatches(relationshipSources, options, json);
    if relationships.Err? {
      return Err(relationships.error), target;
    }
    if !checks.schemaApplies {
      return Err(SchemaFailed), target;
    }
    if checks.cancelled {
      return Err(Cancelled), target;
    }
    ghost var rows := RelationshipItems(relationshipSources);
    SuccessIsNotFatal(rows, staging.nodes, options, json);
    EveryRowCounts(rows, |rows|, staging.nodes, json);
    return Ok(Report(nodes.value, relationships.value.0, relationships.value.1)), Graph(staging.nodes, staging.edges);
  }

  lemma SuccessIsNotFatal(rows: seq<RelationshipRow>, nodes: map<string, Node>, options: Options, json: JsonWriter)
    requires EdgesSucceed(rows, nodes, options, json)
    ensures NoFatal(rows, |rows|, nodes, json)
  {
  }

  /** Whether the rows import does not depend on the size of the chunks they are staged in. */
  lemma ChunkSizeDoesNotMatter(nodeSources: seq<NodeSource>, relationshipSources: seq<seq<RelationshipRow>>,
                               options: Options, chunkSize: nat, checks: Checks, json: JsonWriter)
    ensures Succeeds(nodeSources, relationshipSources, options, checks, json)
       <==> Succeeds(nodeSources, relationshipSources, options.(chunkSize := chunkSize), checks, json)
  {
    hide MapOf, NodesSucceed;
  }

  // ---------- The promoted graph ----------

  lemma {:induction false} MapOfValues<T>(records: seq<Record<T>>, id: string)
    requires id in MapOf(records)
    ensures exists i :: 0 <= i < |records| && records[i] == Record(id, MapOf(records)[id])
    decreases |records|
  {
    if records != [] && records[|records| - 1].id != id {
      MapOfValues(records[..|records| - 1], id);
      var i :| 0 <= i < |records| - 1 && records[..|records| - 1][i] == Record(id, MapOf(records)[id]);
      assert records[i] == Record(id, MapOf(records)[id]);
    } else {
      assert records[|records| - 1] == Record(id, MapOf(records)[id]);
    }
  }

  /** No promoted relationship dangles. */
  lemma PromotedEdgesJoinPromotedNodes(nodeSources: seq<NodeSource>, relationshipSources: seq<seq<RelationshipRow>>,
                                       json: JsonWriter)
    requires NodesSucceed(NodeItems(nodeSources), json)
    ensures var g := Imported(nodeSources, relationshipSources, json);
      forall id | id in g.edges :: g.edges[id].startNode in g.nodes && g.edges[id].endNode in g.nodes
  {
    hide MapOf, GoodEdges, NodesSucceed, AllNodesRead;
    var g, rows := Imported(nodeSources, relationshipSources, json), RelationshipItems(relationshipSources);
    EdgesHaveEndpoints(rows, |rows|, g.nodes, json);
    forall id | id in g.edges ensures g.edges[id].startNode in g.nodes && g.edges[id].endNode in g.nodes {
      MapOfValues(GoodEdges(rows, |rows|, g.nodes, json), id);
    }
  }

  /** Every node row is in the promoted graph, under the id of its own row. */
  lemma EveryNodeIsPromoted(nodeSources: seq<NodeSource>, relationshipSources: seq<seq<RelationshipRow>>, json: JsonWriter,
                            k: nat)
    requires NodesSucceed(NodeItems(nodeSources), json) && k < |NodeItems(nodeSources)|
    ensures NodeAt(NodeItems(nodeSources), k, json).Ok?
    ensures var g, r := Imported(nodeSources, relationshipSources, json), NodeAt(NodeItems(nodeSources), k, json).value;
      r.id in g.nodes && g.nodes[r.id] == r.value
  {
    hide MapOf, GoodEdges, NodeFromRow;
    var items := NodeItems(nodeSources);
    MapOfHolds(Nodes(items, |items|, json), k);
  }

  // ---------- Identifiers ----------

  ghost predicate Injective(json: JsonWriter) {
    forall a, b :: json(a) == json(b) ==> a == b
  }

  /** An id of one column without an id space is used as it is. */
  predicate Plain(parts: IdParts) {
    |parts| == 1 && parts[0].0 == None
  }

  /** Rows get one id only for the same values in the same id spaces, unless a plain value looks like an id
      made by the import. */
  lemma SameIdSameParts(a: IdParts, b: IdParts, json: JsonWriter)
    requires Injective(json) && ImportIdentifier(a, json).Some? && ImportIdentifier(a, json) == ImportIdentifier(b, json)
    requires Plain(a) ==> !(IMPORT_ID_PREFIX <= a[0].1)
    requires Plain(b) ==> !(IMPORT_ID_PREFIX <= b[0].1)
    ensures JsonParts(a) == JsonParts(b) && (Plain(a) <==> Plain(b))
  {
    if Plain(a) && Plain(b) {
      assert a == b;
    } else if !Plain(a) && !Plain(b) {
      var x, y := json(JsonParts(a)), json(JsonParts(b));
      assert x == (IMPORT_ID_PREFIX + x)[|IMPORT_ID_PREFIX|..] == (IMPORT_ID_PREFIX + y)[|IMPORT_ID_PREFIX|..] == y;
    }
  }

  lemma DecimalInjective(m: nat, n: nat)
    ensures Decimal(m) == Decimal(n) ==> m == n
  {
    DecimalInverse(m);
    DecimalInverse(n);
  }

  lemma {:induction false} AllAnonymous(items: seq<NodeItem>, n: nat)
    requires n <= |items| && forall i | 0 <= i < |items| :: !items[i].identified
    ensures Anonymous(items, n) == n
  {
    if n > 0 {
      AllAnonymous(items, n - 1);
    }
  }

  /** Sources without id columns never clash: only an unreadable row can fail their import. */
  lemma AnonymousNodesNeverClash(items: seq<NodeItem>, json: JsonWriter)
    requires forall i | 0 <= i < |items| :: !items[i].identified && items[i].row.NodeRow?
    ensures NodesSucceed(items, json)
  {
    hide Decimal, Anonymous;
    forall i: nat, j: nat | i < j < |items| ensures Decimal(Anonymous(items, i)) != Decimal(Anonymous(items, j)) {
      AllAnonymous(items, i);
      AllAnonymous(items, j);
      DecimalInjective(i, j);
    }
    var records := Nodes(items, |items|, json);
    forall i, j | 0 <= i < j < |records| ensures records[i].id != records[j].id {
      assert records[i].id == "_anon_" + Decimal(Anonymous(items, i));
      assert records[j].id == "_anon_" + Decimal(Anonymous(items, j));
      assert records[i].id[6..] == Decimal(Anonymous(items, i));
      assert records[j].id[6..] == Decimal(Anonymous(items, j));
    }
  }
}
