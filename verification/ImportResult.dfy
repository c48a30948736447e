/** What an import reads from its rows and promotes, row by row. */
module ImportResult {
  import opened Import
  import opened ImportOffline
  import opened Numerals
  import opened Text
  import opened Wrappers

  // ---------- Ids ----------

  /** The values of the id columns make the id: a single one without an id space is used as it is, and otherwise the
      pairs of id space and value are written as JSON behind a prefix. */
  ghost predicate Names(parts: IdParts, json: JsonWriter, id: string) {
    && parts != [] && (forall i | 0 <= i < |parts| :: parts[i].1 != "")
    && if |parts| == 1 && parts[0].0 == None then id == parts[0].1
       else exists pairs :: Pairs(parts, pairs) && id == "__copperdb_import_id__" + json(pairs)
  }

  ghost predicate Pairs(parts: IdParts, pairs: seq<(string, string)>) {
    && |pairs| == |parts|
    && forall i | 0 <= i < |parts| ::
         pairs[i].1 == parts[i].1 && pairs[i].0 == match parts[i].0 case None => "" case Some(space) => space
  }

  /** `id` is `start` with the number `n` behind it. */
  predicate Counted(id: string, start: string, n: nat) {
    |id| > |start| && id[..|start|] == start && Numeral(id[|start|..], n)
  }

  lemma NamesIs(parts: IdParts, json: JsonWriter, id: string)
    ensures Names(parts, json, id) <==> ImportIdentifier(parts, json) == Some(id)
  {
    if forall i | 0 <= i < |parts| :: parts[i].1 != "" {
      assert Pairs(parts, JsonParts(parts));
      forall pairs | Pairs(parts, pairs) ensures pairs == JsonParts(parts) {
      }
    }
  }

  lemma CountedIs(id: string, start: string, n: nat)
    ensures Counted(id, start, n) <==> id == start + Decimal(n)
  {
    hide Decimal, Numeral;
    if |id| > |start| {
      NumeralIs(id[|start|..], n);
      assert id == id[..|start|] + id[|start|..];
    }
  }

  // ---------- Nodes ----------

  /** The row at `k` of all node rows gives a node: one of a source without id columns is numbered, counting the
      rows of such sources before it. */
  ghost predicate GivesNode(items: seq<NodeItem>, k: nat, json: JsonWriter, id: string, node: Node) {
    && k < |items| && items[k].row.NodeRow? && node.content == items[k].row.content
    && if items[k].identified then Names(items[k].row.id, json, id)
       else Counted(id, "_anon_", |set j | 0 <= j < k && !items[j].identified|)
  }

  ghost predicate GivesSomeNode(items: seq<NodeItem>, k: nat, json: JsonWriter) {
    exists id, node :: GivesNode(items, k, json, id, node)
  }

  lemma {:induction false} AnonymousCount(items: seq<NodeItem>, k: nat)
    requires k <= |items|
    ensures Anonymous(items, k) == |set j | 0 <= j < k && !items[j].identified|
  {
    if k > 0 {
      AnonymousCount(items, k - 1);
      var before, now := set j | 0 <= j < k - 1 && !items[j].identified, set j | 0 <= j < k && !items[j].identified;
      assert now == if items[k - 1].identified then before else before + {k - 1};
    }
  }

  lemma GivesNodeIs(items: seq<NodeItem>, k: nat, json: JsonWriter, id: string, node: Node)
    requires k < |items|
    ensures GivesNode(items, k, json, id, node) <==> NodeAt(items, k, json) == Ok(Record(id, node))
  {
    hide Names, Counted, Decimal, Anonymous, ImportIdentifier;
    AnonymousCount(items, k);
    var n := Anonymous(items, k);
    CountedIs(id, "_anon_", n);
    if items[k].row.NodeRow? {
      NamesIs(items[k].row.id, json, id);
    }
  }

  // ---------- Relationships ----------

  /** The row at `k` of all relationship rows gives a relationship between two nodes that there are. One without id
      columns is numbered by its row. */
  ghost predicate GivesEdge(items: seq<RelationshipRow>, k: nat, nodes: map<string, Node>, json: JsonWriter, id: string, edge: Edge) {
    && k < |items| && items[k].RelationshipRow? && edge.content == items[k].content
    && Names(items[k].start, json, edge.startNode) && edge.startNode in nodes
    && Names(items[k].end, json, edge.endNode) && edge.endNode in nodes
    && items[k].edgeType == Some(edge.edgeType) && edge.edgeType != ""
    && if items[k].id == [] then Counted(id, "rel_", k) else Names(items[k].id, json, id)
  }

  ghost predicate GivesNoEdge(items: seq<RelationshipRow>, k: nat, nodes: map<string, Node>, json: JsonWriter) {
    forall id, edge :: !GivesEdge(items, k, nodes, json, id, edge)
  }

  lemma GivesEdgeIs(items: seq<RelationshipRow>, k: nat, nodes: map<string, Node>, json: JsonWriter, id: string, edge: Edge)
    requires k < |items|
    ensures GivesEdge(items, k, nodes, json, id, edge) <==> EdgeAt(items, k, nodes, json) == Good(Record(id, edge))
  {
    hide Names, Counted, Decimal, ImportIdentifier;
    CountedIs(id, "rel_", k);
    if items[k].RelationshipRow? {
      NamesIs(items[k].start, json, edge.startNode);
      NamesIs(items[k].end, json, edge.endNode);
      NamesIs(items[k].id, json, id);
    }
  }

  /** A row that gives no relationship is bad if it can be read, and otherwise the end of the import. */
  lemma BadIs(items: seq<RelationshipRow>, k: nat, nodes: map<string, Node>, json: JsonWriter)
    requires k < |items|
    ensures EdgeAt(items, k, nodes, json).Fatal? <==> items[k].MalformedRelationship?
    ensures EdgeAt(items, k, nodes, json).Bad? <==> items[k].RelationshipRow? && GivesNoEdge(items, k, nodes, json)
  {
    FatalIs(items, k, nodes, json);
    hide EdgeAt, GivesEdge;
    forall id, edge
      ensures GivesEdge(items, k, nodes, json, id, edge) <==> EdgeAt(items, k, nodes, json) == Good(Record(id, edge))
    {
      GivesEdgeIs(items, k, nodes, json, id, edge);
    }
    var e := EdgeAt(items, k, nodes, json);
    if e.Good? {
      assert GivesEdge(items, k, nodes, json, e.record.id, e.record.value);
    }
  }

  lemma FatalIs(items: seq<RelationshipRow>, k: nat, nodes: map<string, Node>, json: JsonWriter)
    requires k < |items|
    ensures EdgeAt(items, k, nodes, json).Fatal? <==> items[k].MalformedRelationship?
  {
    hide ImportIdentifier, Decimal;
  }

  /** The first `n` rows without those that give a relationship. */
  ghost function BadRows(items: seq<RelationshipRow>, n: nat, nodes: map<string, Node>, json: JsonWriter): set<nat> {
    set k: nat | k < n && GivesNoEdge(items, k, nodes, json)
  }

  lemma {:induction false} BadRowsCount(items: seq<RelationshipRow>, n: nat, nodes: map<string, Node>, json: JsonWriter)
    requires n <= |items| && forall k | 0 <= k < |items| :: items[k].RelationshipRow?
    ensures BadCount(items, n, nodes, json) == |BadRows(items, n, nodes, json)|
  {
    hide EdgeAt, GivesNoEdge, BadRows;
    if n == 0 {
      NoBadRows(items, nodes, json);
    } else {
      BadRowsCount(items, n - 1, nodes, json);
      BadIs(items, n - 1, nodes, json);
      OneMoreRow(items, n - 1, nodes, json);
    }
  }

  lemma NoBadRows(items: seq<RelationshipRow>, nodes: map<string, Node>, json: JsonWriter)
    ensures BadRows(items, 0, nodes, json) == {}
  {
  }

  lemma OneMoreRow(items: seq<RelationshipRow>, n: nat, nodes: map<string, Node>, json: JsonWriter)
    ensures var before := BadRows(items, n, nodes, json);
      && n !in before
      && BadRows(items, n + 1, nodes, json) == if GivesNoEdge(items, n, nodes, json) then before + {n} else before
  {
    hide GivesNoEdge;
  }

  // ---------- The promoted graph ----------

  /** The rows of the sources, one source after the other. */
  lemma {:induction false} NodeRowsInOrder(sources: seq<NodeSource>, s: nat, i: nat)
    requires s < |sources| && i < |sources[s].rows|
    ensures var k := RowsBefore(seq(s, j requires 0 <= j < s => |sources[j].rows|)) + i;
      k < |NodeItems(sources)| && NodeItems(sources)[k] == NodeItem(sources[s].identified, sources[s].rows[i])
    decreases s
  {
    var lengths := seq(s, j requires 0 <= j < s => |sources[j].rows|);
    if s > 0 {
      NodeRowsInOrder(sources[1..], s - 1, i);
      assert lengths[1..] == seq(s - 1, j requires 0 <= j < s - 1 => |sources[1..][j].rows|);
    }
  }

  lemma {:induction false} RelationshipRowsInOrder(sources: seq<seq<RelationshipRow>>, s: nat, i: nat)
    requires s < |sources| && i < |sources[s]|
    ensures var k := RowsBefore(seq(s, j requires 0 <= j < s => |sources[j]|)) + i;
      k < |RelationshipItems(sources)| && RelationshipItems(sources)[k] == sources[s][i]
    decreases s
  {
    var lengths := seq(s, j requires 0 <= j < s => |sources[j]|);
    if s > 0 {
      RelationshipRowsInOrder(sources[1..], s - 1, i);
      assert lengths[1..] == seq(s - 1, j requires 0 <= j < s - 1 => |sources[1..][j]|);
    }
  }

  function RowsBefore(lengths: seq<nat>): nat {
    if lengths == [] then 0 else lengths[0] + RowsBefore(lengths[1..])
  }

  lemma {:induction false} NoOtherRows(nodeSources: seq<NodeSource>, relationshipSources: seq<seq<RelationshipRow>>)
    ensures |NodeItems(nodeSources)| == RowsBefore(seq(|nodeSources|, j requires 0 <= j < |nodeSources| => |nodeSources[j].rows|))
    ensures |RelationshipItems(relationshipSources)|
         == RowsBefore(seq(|relationshipSources|, j requires 0 <= j < |relationshipSources| => |relationshipSources[j]|))
    decreases |nodeSources| + |relationshipSources|
  {
    var a := seq(|nodeSources|, j requires 0 <= j < |nodeSources| => |nodeSources[j].rows|);
    var b := seq(|relationshipSources|, j requires 0 <= j < |relationshipSources| => |relationshipSources[j]|);
    if nodeSources != [] {
      NoOtherRows(nodeSources[1..], relationshipSources);
      assert a[1..] == seq(|nodeSources| - 1, j requires 0 <= j < |nodeSources| - 1 => |nodeSources[1..][j].rows|);
    } else if relationshipSources != [] {
      NoOtherRows([], relationshipSources[1..]);
      assert b[1..] == seq(|relationshipSources| - 1, j requires 0 <= j < |relationshipSources| - 1 => |relationshipSources[1..][j]|);
    }
  }

  /** Every node row gives a node, and no two rows give the same id. */
  ghost predicate NodesGood(items: seq<NodeItem>, json: JsonWriter) {
    && (forall k: nat | k < |items| :: GivesSomeNode(items, k, json))
    && forall j: nat, k: nat, id, m, n | GivesNode(items, j, json, id, m) && GivesNode(items, k, json, id, n) :: j == k
  }

  /** Every relationship row can be read, the bad ones are tolerated, and no two of the others give the same id. */
  ghost predicate EdgesGood(items: seq<RelationshipRow>, nodes: map<string, Node>, options: Options, json: JsonWriter) {
    && (forall k | 0 <= k < |items| :: items[k].RelationshipRow?)
    && (options.skipBadRelationships || |BadRows(items, |items|, nodes, json)| <= options.badRelationshipTolerance)
    && forall j: nat, k: nat, id, d, e |
         GivesEdge(items, j, nodes, json, id, d) && GivesEdge(items, k, nodes, json, id, e) :: j == k
  }

  lemma NodesGoodIs(items: seq<NodeItem>, json: JsonWriter)
    ensures NodesGood(items, json) <==> NodesSucceed(items, json)
  {
    hide GivesNode, NodeAt;
    forall k: nat, id, node | k < |items|
      ensures GivesNode(items, k, json, id, node) <==> NodeAt(items, k, json) == Ok(Record(id, node))
    {
      GivesNodeIs(items, k, json, id, node);
    }
    forall k: nat, id, node | GivesNode(items, k, json, id, node) ensures k < |items| {
      NodeRowIs(items, k, json, id, node);
    }
    if NodesGood(items, json) {
      forall k: nat | k < |items| ensures NodeAt(items, k, json).Ok? {
        assert GivesSomeNode(items, k, json);
        var id, node :| GivesNode(items, k, json, id, node);
      }
      var records := Nodes(items, |items|, json);
      forall i: nat, j: nat | i < j < |records| ensures records[i].id != records[j].id {
        assert GivesNode(items, i, json, records[i].id, records[i].value);
        assert GivesNode(items, j, json, records[j].id, records[j].value);
      }
    }
    if NodesSucceed(items, json) {
      var records := Nodes(items, |items|, json);
      forall k: nat | k < |items| ensures GivesSomeNode(items, k, json) {
        assert GivesNode(items, k, json, records[k].id, records[k].value);
      }
      forall j: nat, k: nat, id, m, n | GivesNode(items, j, json, id, m) && GivesNode(items, k, json, id, n) ensures j == k {
        assert records[j] == Record(id, m) && records[k] == Record(id, n);
      }
    }
  }

  lemma NodeRowIs(items: seq<NodeItem>, k: nat, json: JsonWriter, id: string, node: Node)
    ensures GivesNode(items, k, json, id, node) ==> k < |items|
  {
  }

  /** A node is promoted under an id exactly if some row gives it. */
  lemma PromotedNodes(nodeSources: seq<NodeSource>, relationshipSources: seq<seq<RelationshipRow>>, json: JsonWriter,
                      id: string, node: Node)
    requires NodesSucceed(NodeItems(nodeSources), json)
    ensures var g := Imported(nodeSources, relationshipSources, json);
      id in g.nodes && g.nodes[id] == node <==> exists k: nat :: GivesNode(NodeItems(nodeSources), k, json, id, node)
  {
    hide GivesNode, NodeAt, GoodEdges, Distinct, MapOf;
    var items := NodeItems(nodeSources);
    var records := Nodes(items, |items|, json);
    if id in MapOf(records) && MapOf(records)[id] == node {
      MapOfValues(records, id);
      var k: nat :| k < |records| && records[k] == Record(id, node);
      GivesNodeIs(items, k, json, id, node);
    }
    if k: nat :| GivesNode(items, k, json, id, node) {
      NodeRowIs(items, k, json, id, node);
      GivesNodeIs(items, k, json, id, node);
      MapOfHolds(records, k);
    }
  }

  /** Where the good relationships come from. */
  lemma {:induction false} GoodEdgesFrom(items: seq<RelationshipRow>, n: nat, nodes: map<string, Node>, json: JsonWriter,
                                         r: Record<Edge>)
    requires n <= |items|
    ensures r in GoodEdges(items, n, nodes, json) <==> exists k: nat :: k < n && EdgeAt(items, k, nodes, json) == Good(r)
  {
    hide EdgeAt;
    if n > 0 {
      GoodEdgesFrom(items, n - 1, nodes, json, r);
      if k: nat :| k < n && EdgeAt(items, k, nodes, json) == Good(r) {
        if k < n - 1 {
          assert r in GoodEdges(items, n - 1, nodes, json);
        }
      }
    }
  }

  lemma {:induction false} DistinctRows(items: seq<RelationshipRow>, n: nat, nodes: map<string, Node>, json: JsonWriter)
    requires n <= |items|
    ensures Distinct(GoodEdges(items, n, nodes, json))
       <==> forall j: nat, k: nat | j < k < n && EdgeAt(items, j, nodes, json).Good? && EdgeAt(items, k, nodes, json).Good? ::
              EdgeAt(items, j, nodes, json).record.id != EdgeAt(items, k, nodes, json).record.id
  {
    hide EdgeAt, Distinct;
    if n == 0 {
      NoneDistinct<Edge>();
    } else {
      DistinctRows(items, n - 1, nodes, json);
      var before, e := GoodEdges(items, n - 1, nodes, json), EdgeAt(items, n - 1, nodes, json);
      if e.Good? {
        LastDistinct(before, e.record);
        forall k: nat | k < n - 1 && EdgeAt(items, k, nodes, json).Good?
          ensures EdgeAt(items, k, nodes, json).record in before
        {
          GoodEdgesFrom(items, n - 1, nodes, json, EdgeAt(items, k, nodes, json).record);
        }
        forall r | r in before ensures exists k: nat :: k < n - 1 && EdgeAt(items, k, nodes, json) == Good(r) {
          GoodEdgesFrom(items, n - 1, nodes, json, r);
        }
      } else {
        assert GoodEdges(items, n, nodes, json) == before;
      }
    }
  }

  lemma NoneDistinct<T>()
    ensures Distinct<T>([])
  {
  }

  lemma LastDistinct<T>(before: seq<Record<T>>, r: Record<T>)
    ensures Distinct(before + [r]) <==> Distinct(before) && forall b | b in before :: b.id != r.id
  {
    DistinctAppend(before, [r]);
    OneDistinct(r);
    if b :| b in before && b.id == r.id {
      var i :| 0 <= i < |before| && before[i] == b;
      assert HasId(before, [r][0].id);
    }
  }

  lemma OneDistinct<T>(r: Record<T>)
    ensures Distinct([r])
  {
  }

  lemma EdgeRowIs(items: seq<RelationshipRow>, k: nat, nodes: map<string, Node>, json: JsonWriter, id: string, edge: Edge)
    ensures GivesEdge(items, k, nodes, json, id, edge) ==> k < |items|
  {
  }

  lemma EdgesGoodIs(items: seq<RelationshipRow>, nodes: map<string, Node>, options: Options, json: JsonWriter)
    ensures EdgesGood(items, nodes, options, json) <==> EdgesSucceed(items, nodes, options, json)
  {
    hide GivesEdge, EdgeAt, Distinct, GoodEdges, GivesNoEdge, BadCount;
    forall k: nat, id, edge | k < |items|
      ensures GivesEdge(items, k, nodes, json, id, edge) <==> EdgeAt(items, k, nodes, json) == Good(Record(id, edge))
    {
      GivesEdgeIs(items, k, nodes, json, id, edge);
    }
    forall k: nat, id, edge | GivesEdge(items, k, nodes, json, id, edge) ensures k < |items| {
      EdgeRowIs(items, k, nodes, json, id, edge);
    }
    forall k: nat | k < |items| ensures EdgeAt(items, k, nodes, json).Fatal? <==> items[k].MalformedRelationship? {
      BadIs(items, k, nodes, json);
    }
    DistinctRows(items, |items|, nodes, json);
    SameAsOnce(items, nodes, json);
    if forall k | 0 <= k < |items| :: items[k].RelationshipRow? {
      BadRowsCount(items, |items|, nodes, json);
    }
  }

  lemma SameAsOnce(items: seq<RelationshipRow>, nodes: map<string, Node>, json: JsonWriter)
    requires forall k: nat, id, edge | k < |items| ::
               GivesEdge(items, k, nodes, json, id, edge) <==> EdgeAt(items, k, nodes, json) == Good(Record(id, edge))
    requires forall k: nat, id, edge | GivesEdge(items, k, nodes, json, id, edge) :: k < |items|
    ensures (forall j: nat, k: nat, id, d, e |
               GivesEdge(items, j, nodes, json, id, d) && GivesEdge(items, k, nodes, json, id, e) :: j == k)
       <==> forall j: nat, k: nat |
              j < k < |items| && EdgeAt(items, j, nodes, json).Good? && EdgeAt(items, k, nodes, json).Good? ::
              EdgeAt(items, j, nodes, json).record.id != EdgeAt(items, k, nodes, json).record.id
  {
    hide GivesEdge, EdgeAt;
    if forall j: nat, k: nat, id, d, e |
         GivesEdge(items, j, nodes, json, id, d) && GivesEdge(items, k, nodes, json, id, e) :: j == k {
      forall j: nat, k: nat | j < k < |items| && EdgeAt(items, j, nodes, json).Good? && EdgeAt(items, k, nodes, json).Good?
        ensures EdgeAt(items, j, nodes, json).record.id != EdgeAt(items, k, nodes, json).record.id
      {
        var a, b := EdgeAt(items, j, nodes, json).record, EdgeAt(items, k, nodes, json).record;
        assert GivesEdge(items, j, nodes, json, a.id, a.value) && GivesEdge(items, k, nodes, json, b.id, b.value);
      }
    }
  }

  /** A relationship is promoted under an id exactly if some row gives it. */
  lemma PromotedEdges(nodeSources: seq<NodeSource>, relationshipSources: seq<seq<RelationshipRow>>, options: Options,
                      json: JsonWriter, id: string, edge: Edge)
    requires NodesSucceed(NodeItems(nodeSources), json)
    requires EdgesSucceed(RelationshipItems(relationshipSources), Imported(nodeSources, relationshipSources, json).nodes, options, json)
    ensures var g := Imported(nodeSources, relationshipSources, json);
      id in g.edges && g.edges[id] == edge <==>
        exists k: nat :: GivesEdge(RelationshipItems(relationshipSources), k, g.nodes, json, id, edge)
  {
    hide GivesEdge, EdgeAt, GoodEdges, Distinct, MapOf, NodesSucceed, BadCount;
    var g, items := Imported(nodeSources, relationshipSources, json), RelationshipItems(relationshipSources);
    var records := GoodEdges(items, |items|, g.nodes, json);
    GoodEdgesFrom(items, |items|, g.nodes, json, Record(id, edge));
    if id in g.edges && g.edges[id] == edge {
      MapOfValues(records, id);
      var k: nat :| k < |items| && EdgeAt(items, k, g.nodes, json) == Good(Record(id, edge));
      GivesEdgeIs(items, k, g.nodes, json, id, edge);
    }
    if k: nat :| GivesEdge(items, k, g.nodes, json, id, edge) {
      EdgeRowIs(items, k, g.nodes, json, id, edge);
      GivesEdgeIs(items, k, g.nodes, json, id, edge);
      var i :| 0 <= i < |records| && records[i] == Record(id, edge);
      MapOfHolds(records, i);
    }
  }

  /** The rows import exactly if the checks pass and the rows are good. */
  lemma SucceedsIff(nodeSources: seq<NodeSource>, relationshipSources: seq<seq<RelationshipRow>>, options: Options,
                    checks: Checks, json: JsonWriter)
    ensures Succeeds(nodeSources, relationshipSources, options, checks, json) <==>
      && nodeSources != []
      && checks.schemaReads && checks.preflightPasses && checks.schemaApplies && !checks.cancelled
      && NodesGood(NodeItems(nodeSources), json)
      && EdgesGood(RelationshipItems(relationshipSources),
                   ImportedNodes(nodeSources, relationshipSources, json), options, json)
  {
    hide NodesGood, NodesSucceed, EdgesGood, EdgesSucceed, MapOf, GoodEdges;
    NodesGoodIs(NodeItems(nodeSources), json);
    EdgesGoodIs(RelationshipItems(relationshipSources), ImportedNodes(nodeSources, relationshipSources, json), options, json);
  }

  /** The nodes of the promoted graph, if it gets that far. */
  ghost function ImportedNodes(nodeSources: seq<NodeSource>, relationshipSources: seq<seq<RelationshipRow>>, json: JsonWriter)
    : map<string, Node>
  {
    if NodesSucceed(NodeItems(nodeSources), json) then Imported(nodeSources, relationshipSources, json).nodes else map[]
  }
}
