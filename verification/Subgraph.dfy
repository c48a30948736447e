/**
 `apoc.path.subgraphNodes`: a breadth-first walk with label filters, a level window and a limit.
 `Loop` is the walk; module SubgraphExact says which nodes it emits.
 */
module Subgraph {
  import opened Wrappers

  const MAX_VISITED_NODES: nat := 100_000

  datatype Direction = Outgoing | Incoming | Both

  datatype Relationship = Relationship(startNode: string, endNode: string)

  datatype NodeRead = Found(labels: seq<string>) | NodeUnreadable(code: string)

  datatype EdgeRead = Edges(relationships: seq<Relationship>) | EdgesUnreadable(code: string)

  /** What the graph reader answers: a node without an entry does not exist, and the relationships of a
      node are those of the requested direction and types. */
  datatype Graph = Graph(nodes: map<string, NodeRead>, edges: map<string, EdgeRead>)

  datatype Config = Config(
    minLevel: nat,
    maxLevel: nat,
    direction: Direction,
    includeLabels: seq<string>,
    excludeLabels: seq<string>,
    terminationLabels: seq<string>,
    limit: Option<nat>)

  datatype WalkError = Cancelled | ReadFailed(code: string) | TraversalLimitExceeded

  predicate HasAnyLabel(labels: seq<string>, wanted: seq<string>) {
    exists l | l in wanted :: l in labels
  }

  predicate LabelIncluded(labels: seq<string>, cfg: Config) {
    !HasAnyLabel(labels, cfg.excludeLabels) && (cfg.includeLabels == [] || HasAnyLabel(labels, cfg.includeLabels))
  }

  predicate Terminates(labels: seq<string>, cfg: Config) {
    HasAnyLabel(labels, cfg.terminationLabels)
  }

  /** The node at the other end, if the relationship leaves `id` in the requested direction. */
  function NextId(r: Relationship, id: string, direction: Direction): Option<string> {
    if direction != Incoming && r.startNode == id then Some(r.endNode)
    else if direction != Outgoing && r.endNode == id then Some(r.startNode)
    else None
  }

  function NextIds(rs: seq<Relationship>, id: string, direction: Direction): seq<string> {
    if rs == [] then []
    else
      (match NextId(rs[0], id, direction) case None => [] case Some(next) => [next])
      + NextIds(rs[1..], id, direction)
  }

  datatype Pending = Pending(id: string, level: nat)

  /** Enqueue the nodes not seen before; refuse to look at any once the visited set is full. */
  function Visit(nexts: seq<string>, level: nat, queue: seq<Pending>, visited: set<string>)
    : (r: Option<(seq<Pending>, set<string>)>)
    requires |visited| <= MAX_VISITED_NODES
    ensures r.Some? ==> |r.value.1| <= MAX_VISITED_NODES && |r.value.0| - |queue| == |r.value.1| - |visited|
    decreases |nexts|
  {
    if nexts == [] then Some((queue, visited))
    else if |visited| >= MAX_VISITED_NODES then None
    else if nexts[0] in visited then Visit(nexts[1..], level, queue, visited)
    else Visit(nexts[1..], level, queue + [Pending(nexts[0], level)], visited + {nexts[0]})
  }

  /** `rounds` is how many turns of the loop the request stays active for, if it is cancelled at all. */
  function Loop(g: Graph, cfg: Config, queue: seq<Pending>, visited: set<string>, rows: seq<string>,
                rounds: Option<nat>): (r: Result<seq<string>, WalkError>)
    requires |visited| <= MAX_VISITED_NODES
    decreases |queue| + (MAX_VISITED_NODES - |visited|)
  {
    if queue == [] then Ok(rows)
    else if rounds == Some(0) then Err(Cancelled)
    else
      var (id, level, rest) := (queue[0].id, queue[0].level, queue[1..]);
      var rounds' := if rounds.Some? then Some(rounds.value - 1) else None;
      if id !in g.nodes then Loop(g, cfg, rest, visited, rows, rounds')
      else
        match g.nodes[id]
        case NodeUnreadable(code) => Err(ReadFailed(code))
        case Found(labels) =>
          var emit := level >= cfg.minLevel && LabelIncluded(labels, cfg);
          var rows' := if emit then rows + [id] else rows;
          if emit && cfg.limit.Some? && |rows'| >= cfg.limit.value then Ok(rows')
          else if level >= cfg.maxLevel || Terminates(labels, cfg) then Loop(g, cfg, rest, visited, rows', rounds')
          else
            match EdgesOf(g, id)
            case EdgesUnreadable(code) => Err(ReadFailed(code))
            case Edges(rs) =>
              match Visit(NextIds(rs, id, cfg.direction), level + 1, rest, visited)
              case None => Err(TraversalLimitExceeded)
              case Some((queue', visited')) => Loop(g, cfg, queue', visited', rows', rounds')
  }

  function EdgesOf(g: Graph, id: string): EdgeRead {
    if id in g.edges then g.edges[id] else Edges([])
  }

  /** The walk as the server runs it. */
  method SubgraphNodes(g: Graph, cfg: Config, start: string, rounds: Option<nat>)
    returns (r: Result<seq<string>, WalkError>)
    ensures r == Loop(g, cfg, [Pending(start, 0)], {start}, [], rounds)
  {
    hide HasAnyLabel, Visit;
    var queue := [Pending(start, 0)];
    var visited := {start};
    var rows: seq<string> := [];
    var left := rounds;
    while queue != []
      invariant |visited| <= MAX_VISITED_NODES
      invariant Loop(g, cfg, queue, visited, rows, left) == Loop(g, cfg, [Pending(start, 0)], {start}, [], rounds)
      decreases |queue| + (MAX_VISITED_NODES - |visited|)
    {
      var id, level := queue[0].id, queue[0].level;
      if left == Some(0) {
        return Err(Cancelled);
      }
      queue := queue[1..];
      left := if left.Some? then Some(left.value - 1) else None;
      if id !in g.nodes {
        continue;
      }
      var node := g.nodes[id];
      if node.NodeUnreadable? {
        return Err(ReadFailed(node.code));
      }
      if level >= cfg.minLevel && LabelIncluded(node.labels, cfg) {
        rows := rows + [id];
        if cfg.limit.Some? && |rows| >= cfg.limit.value {
          return Ok(rows);
        }
      }
      if level >= cfg.maxLevel || Terminates(node.labels, cfg) {
        continue;
      }
      var edges := EdgesOf(g, id);
      if edges.EdgesUnreadable? {
        return Err(ReadFailed(edges.code));
      }
      var full;
      full, queue, visited := VisitAll(edges.relationships, id, cfg.direction, level, queue, visited);
      if full {
        return Err(TraversalLimitExceeded);
      }
    }
    return Ok(rows);
  }

  /** The inner loop over the relationships of one node. */
  method VisitAll(rs: seq<Relationship>, id: string, direction: Direction, level: nat,
                  queue: seq<Pending>, visited: set<string>)
    returns (full: bool, queue': seq<Pending>, visited': set<string>)
    requires |visited| <= MAX_VISITED_NODES
    ensures Visit(NextIds(rs, id, direction), level + 1, queue, visited)
         == if full then None else Some((queue', visited'))
  {
    queue', visited' := queue, visited;
    for i := 0 to |rs|
      invariant |visited'| <= MAX_VISITED_NODES
      invariant Visit(NextIds(rs, id, direction), level + 1, queue, visited)
             == Visit(NextIds(rs[i..], id, direction), level + 1, queue', visited')
    {
      assert rs[i..][1..] == rs[i + 1..];
      var next := NextId(rs[i], id, direction);
      if next.Some? {
        assert NextIds(rs[i..], id, direction) == [next.value] + NextIds(rs[i + 1..], id, direction);
        assert NextIds(rs[i..], id, direction)[1..] == NextIds(rs[i + 1..], id, direction);
        if |visited'| >= MAX_VISITED_NODES {
          return true, queue', visited';
        }
        if next.value !in visited' {
          visited' := visited' + {next.value};
          queue' := queue' + [Pending(next.value, level + 1)];
        }
      } else {
        assert NextIds(rs[i..], id, direction) == NextIds(rs[i + 1..], id, direction);
      }
    }
    full := false;
  }
}
