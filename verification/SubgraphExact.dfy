/** Which nodes the breadth-first walk emits, in which order, and what a limit does. */
module SubgraphExact {
  import opened Wrappers
  import opened Subgraph

  // ---------- Distances ----------

  /** The relationship leads from `u` to `v` when followed in the direction. */
  predicate LeadsTo(r: Relationship, u: string, v: string, direction: Direction) {
    || (direction != Incoming && r.startNode == u && r.endNode == v)
    || (direction != Outgoing && r.endNode == u && r.startNode == v)
  }

  /** `u` exists, does not end the walk, and has a relationship to `v`. */
  ghost predicate Edge(g: Graph, cfg: Config, u: string, v: string) {
    && u in g.nodes && g.nodes[u].Found? && (forall l | l in g.nodes[u].labels :: l !in cfg.terminationLabels)
    && u in g.edges && g.edges[u].Edges? && exists r | r in g.edges[u].relationships :: LeadsTo(r, u, v, cfg.direction)
  }

  /** There is a walk of `k` steps from `s` to `v`. */
  ghost predicate Walk(g: Graph, cfg: Config, s: string, v: string, k: nat)
    decreases k
  {
    if k == 0 then s == v else exists u :: Walk(g, cfg, s, u, k - 1) && Edge(g, cfg, u, v)
  }

  /** The shortest walk from `s` to `v` has `k` steps. */
  ghost predicate Distance(g: Graph, cfg: Config, s: string, v: string, k: nat) {
    Walk(g, cfg, s, v, k) && forall j: nat | j < k :: !Walk(g, cfg, s, v, j)
  }

  lemma DistanceUnique(g: Graph, cfg: Config, s: string, v: string, j: nat, k: nat)
    requires Distance(g, cfg, s, v, j) && Distance(g, cfg, s, v, k)
    ensures j == k
  {
    hide Walk;
  }

  /** The nodes an unlimited walk is to emit. */
  ghost predicate Emitted(g: Graph, cfg: Config, s: string, v: string) {
    && v in g.nodes && g.nodes[v].Found?
    && (forall l | l in g.nodes[v].labels :: l !in cfg.excludeLabels)
    && (cfg.includeLabels == [] || exists l :: l in g.nodes[v].labels && l in cfg.includeLabels)
    && exists k: nat :: cfg.minLevel <= k <= cfg.maxLevel && Distance(g, cfg, s, v, k)
  }

  ghost predicate Distinct(rows: seq<string>) {
    forall i, j | 0 <= i < j < |rows| :: rows[i] != rows[j]
  }

  ghost predicate NonDecreasing(g: Graph, cfg: Config, s: string, rows: seq<string>) {
    forall i, j, m: nat, n: nat | 0 <= i < j < |rows| && Distance(g, cfg, s, rows[i], m) && Distance(g, cfg, s, rows[j], n) ::
      m <= n
  }

  // ---------- The state of the walk ----------

  ghost predicate Queued(queue: seq<Pending>, v: string) {
    exists i | 0 <= i < |queue| :: queue[i].id == v
  }

  /** `level` gives the distance of every visited node. */
  ghost predicate Levels(g: Graph, cfg: Config, s: string, visited: set<string>, level: map<string, nat>) {
    && s in visited && level.Keys == visited
    && forall v | v in visited :: level[v] <= cfg.maxLevel && Distance(g, cfg, s, v, level[v])
  }

  /** The queue holds visited nodes once each, by distance, over at most two distances. */
  ghost predicate QueueOk(queue: seq<Pending>, visited: set<string>, level: map<string, nat>)
    requires level.Keys == visited
  {
    && (forall i | 0 <= i < |queue| :: queue[i].id in visited && level[queue[i].id] == queue[i].level)
    && (forall i, j | 0 <= i < j < |queue| :: queue[i].id != queue[j].id && queue[i].level <= queue[j].level)
    && (forall i | 0 <= i < |queue| :: queue[i].level <= queue[0].level + 1)
  }

  /** The successors of every node already taken from the queue are visited. */
  ghost predicate Closed(g: Graph, cfg: Config, queue: seq<Pending>, visited: set<string>, level: map<string, nat>)
    requires level.Keys == visited
  {
    forall u, v | u in visited && !Queued(queue, u) && level[u] < cfg.maxLevel && Edge(g, cfg, u, v) :: v in visited
  }

  /** The rows are the nodes taken from the queue that are to be emitted, each once, by distance. */
  ghost predicate RowsOk(g: Graph, cfg: Config, queue: seq<Pending>, visited: set<string>, level: map<string, nat>,
                         rows: seq<string>)
    requires level.Keys == visited
  {
    && Distinct(rows)
    && (forall v | v in rows :: v in visited && !Queued(queue, v))
    && (forall v | v in visited && !Queued(queue, v) :: v in rows <==> Wanted(g, cfg, v, level[v]))
    && (forall i, j | 0 <= i < j < |rows| :: level[rows[i]] <= level[rows[j]])
    && (forall v | v in rows && queue != [] :: level[v] <= queue[0].level)
  }

  ghost predicate Wanted(g: Graph, cfg: Config, v: string, k: nat) {
    v in g.nodes && g.nodes[v].Found? && k >= cfg.minLevel && LabelIncluded(g.nodes[v].labels, cfg)
  }

  ghost predicate State(g: Graph, cfg: Config, s: string, queue: seq<Pending>, visited: set<string>, rows: seq<string>,
                        level: map<string, nat>)
  {
    && |visited| <= MAX_VISITED_NODES
    && Levels(g, cfg, s, visited, level)
    && QueueOk(queue, visited, level)
    && Closed(g, cfg, queue, visited, level)
    && RowsOk(g, cfg, queue, visited, level, rows)
  }

  /** Nodes nearer than the head of the queue have been taken; their successors are visited. */
  lemma {:induction false} NearIsVisited(g: Graph, cfg: Config, s: string, queue: seq<Pending>, visited: set<string>,
                                         level: map<string, nat>, bound: nat, v: string, k: nat)
    requires Levels(g, cfg, s, visited, level) && QueueOk(queue, visited, level) && Closed(g, cfg, queue, visited, level)
    requires k <= bound <= cfg.maxLevel && (queue != [] ==> bound <= queue[0].level) && Walk(g, cfg, s, v, k)
    ensures v in visited
    decreases k
  {
    hide Distance, Edge, QueueOk;
    if k > 0 {
      var u :| Walk(g, cfg, s, u, k - 1) && Edge(g, cfg, u, v);
      NearIsVisited(g, cfg, s, queue, visited, level, bound, u, k - 1);
      ShortestIsShort(g, cfg, s, u, level[u], k - 1);
      NearIsTaken(queue, visited, level, u);
    }
  }

  lemma ShortestIsShort(g: Graph, cfg: Config, s: string, v: string, j: nat, k: nat)
    requires Distance(g, cfg, s, v, j) && Walk(g, cfg, s, v, k)
    ensures j <= k
  {
    hide Walk;
  }

  lemma NearIsTaken(queue: seq<Pending>, visited: set<string>, level: map<string, nat>, u: string)
    requires level.Keys == visited && QueueOk(queue, visited, level)
    requires u in visited && (queue != [] ==> level[u] < queue[0].level)
    ensures !Queued(queue, u)
  {
  }

  lemma LabelsIncluded(labels: seq<string>, cfg: Config)
    ensures LabelIncluded(labels, cfg) <==>
      (forall l | l in labels :: l !in cfg.excludeLabels)
      && (cfg.includeLabels == [] || exists l :: l in labels && l in cfg.includeLabels)
  {
  }

  /** When the queue is empty the rows are exactly what is to be emitted. */
  lemma Finished(g: Graph, cfg: Config, s: string, visited: set<string>, rows: seq<string>, level: map<string, nat>)
    requires State(g, cfg, s, [], visited, rows, level)
    ensures Distinct(rows) && NonDecreasing(g, cfg, s, rows)
    ensures forall v :: v in rows <==> Emitted(g, cfg, s, v)
  {
    hide Walk, Edge, Distance, LabelIncluded;
    forall v | v in rows ensures Emitted(g, cfg, s, v) {
      LabelsIncluded(g.nodes[v].labels, cfg);
      assert Wanted(g, cfg, v, level[v]) && Distance(g, cfg, s, v, level[v]);
    }
    forall v | Emitted(g, cfg, s, v) ensures v in rows {
      LabelsIncluded(g.nodes[v].labels, cfg);
      var k: nat :| cfg.minLevel <= k <= cfg.maxLevel && Distance(g, cfg, s, v, k);
      DistanceWalk(g, cfg, s, v, k);
      NearIsVisited(g, cfg, s, [], visited, level, cfg.maxLevel, v, k);
      DistanceUnique(g, cfg, s, v, k, level[v]);
      assert Wanted(g, cfg, v, level[v]);
    }
    forall i, j, m: nat, n: nat | 0 <= i < j < |rows| && Distance(g, cfg, s, rows[i], m) && Distance(g, cfg, s, rows[j], n)
      ensures m <= n
    {
      DistanceUnique(g, cfg, s, rows[i], m, level[rows[i]]);
      DistanceUnique(g, cfg, s, rows[j], n, level[rows[j]]);
    }
  }

  lemma DistanceWalk(g: Graph, cfg: Config, s: string, v: string, k: nat)
    requires Distance(g, cfg, s, v, k)
    ensures Walk(g, cfg, s, v, k)
  {
  }

  // ---------- One turn of the loop ----------

  /** The state once the head `u` has been taken: its own successors may still be missing. */
  ghost predicate Taken(g: Graph, cfg: Config, s: string, queue: seq<Pending>, visited: set<string>, rows: seq<string>,
                        level: map<string, nat>, u: string)
  {
    && |visited| <= MAX_VISITED_NODES
    && Levels(g, cfg, s, visited, level) && level.Keys == visited
    && QueueOk(queue, visited, level)
    && RowsOk(g, cfg, queue, visited, level, rows)
    && u in visited && !Queued(queue, u)
    && (forall v | v in rows :: level[v] <= level[u])
    && (forall p | p in queue :: level[u] <= p.level <= level[u] + 1)
    && (forall w, v | w in visited && !Queued(queue, w) && w != u && level[w] < cfg.maxLevel && Edge(g, cfg, w, v) ::
          v in visited)
  }

  function RowsAfter(g: Graph, cfg: Config, rows: seq<string>, p: Pending): seq<string> {
    if p.id in g.nodes && g.nodes[p.id].Found? && p.level >= cfg.minLevel && LabelIncluded(g.nodes[p.id].labels, cfg)
    then rows + [p.id] else rows
  }

  lemma QueuedRest(queue: seq<Pending>, v: string)
    requires queue != []
    ensures Queued(queue, v) <==> queue[0].id == v || Queued(queue[1..], v)
  {
    if Queued(queue[1..], v) {
      var i :| 0 <= i < |queue[1..]| && queue[1..][i].id == v;
      assert queue[i + 1].id == v;
    }
    if Queued(queue, v) && queue[0].id != v {
      var i :| 0 <= i < |queue| && queue[i].id == v;
      assert queue[1..][i - 1].id == v;
    }
  }

  lemma TakeHead(g: Graph, cfg: Config, s: string, queue: seq<Pending>, visited: set<string>, rows: seq<string>,
                 level: map<string, nat>)
    requires State(g, cfg, s, queue, visited, rows, level) && queue != []
    ensures Taken(g, cfg, s, queue[1..], visited, RowsAfter(g, cfg, rows, queue[0]), level, queue[0].id)
  {
    hide Walk, Edge, Distance, LabelIncluded, Queued;
    var u, rest := queue[0].id, queue[1..];
    forall v ensures Queued(queue, v) <==> u == v || Queued(rest, v) {
      QueuedRest(queue, v);
    }
    NotQueued(queue);
    var rows' := RowsAfter(g, cfg, rows, queue[0]);
    assert u !in rows;
    assert rows' == rows + [u] || rows' == rows;
    assert forall v :: v in rows' <==> v in rows || (v == u && Wanted(g, cfg, u, level[u]));
  }

  lemma NotQueued(queue: seq<Pending>)
    requires queue != [] && forall i, j | 0 <= i < j < |queue| :: queue[i].id != queue[j].id
    ensures !Queued(queue[1..], queue[0].id)
  {
  }

  /** Nothing is to be done for the successors of a head that is absent, ends the walk, or is at the last level. */
  lemma NoSuccessors(g: Graph, cfg: Config, s: string, queue: seq<Pending>, visited: set<string>, rows: seq<string>,
                     level: map<string, nat>, u: string)
    requires Taken(g, cfg, s, queue, visited, rows, level, u)
    requires level[u] >= cfg.maxLevel || forall v :: !Edge(g, cfg, u, v)
    ensures State(g, cfg, s, queue, visited, rows, level)
  {
    hide Walk, Edge, Distance, Queued;
  }

  // ---------- Enqueuing ----------

  /** `queue'` is `queue` with the nodes of `visited' - visited` added at one level, each once, and
      every node of `nexts` is visited. */
  ghost predicate Extends(queue: seq<Pending>, visited: set<string>, nexts: seq<string>, level: nat,
                          queue': seq<Pending>, visited': set<string>)
  {
    && queue <= queue' && visited <= visited'
    && (forall i | |queue| <= i < |queue'| ::
          queue'[i].level == level && queue'[i].id in visited' - visited && queue'[i].id in nexts)
    && (forall i, j | |queue| <= i < j < |queue'| :: queue'[i].id != queue'[j].id)
    && (forall v | v in visited' - visited :: exists i :: |queue| <= i < |queue'| && queue'[i].id == v)
    && (forall v | v in nexts :: v in visited')
  }

  lemma {:induction false} VisitExtends(nexts: seq<string>, level: nat, queue: seq<Pending>, visited: set<string>)
    requires |visited| <= MAX_VISITED_NODES && Visit(nexts, level, queue, visited).Some?
    ensures var (queue', visited') := Visit(nexts, level, queue, visited).value;
      Extends(queue, visited, nexts, level, queue', visited')
    decreases |nexts|
  {
    if nexts != [] {
      var (queue', visited') := Visit(nexts, level, queue, visited).value;
      assert nexts == [nexts[0]] + nexts[1..];
      if nexts[0] in visited {
        VisitExtends(nexts[1..], level, queue, visited);
      } else {
        var more, seen := queue + [Pending(nexts[0], level)], visited + {nexts[0]};
        VisitExtends(nexts[1..], level, more, seen);
        assert queue'[|queue|] == more[|queue|];
        forall v | v in visited' - visited
          ensures exists i :: |queue| <= i < |queue'| && queue'[i].id == v
        {
          if v == nexts[0] {
            assert queue'[|queue|].id == v;
          } else {
            assert v in visited' - seen;
            var i :| |more| <= i < |queue'| && queue'[i].id == v;
            assert |queue| <= i && queue'[i].id == v;
          }
        }
      }
    }
  }

  ghost function Deeper(level: map<string, nat>, visited': set<string>, k: nat): map<string, nat> {
    map v | v in visited' :: if v in level then level[v] else k
  }

  lemma NewLevels(g: Graph, cfg: Config, s: string, queue: seq<Pending>, visited: set<string>, rows: seq<string>,
                  level: map<string, nat>, u: string, nexts: seq<string>, queue': seq<Pending>, visited': set<string>)
    requires Levels(g, cfg, s, visited, level) && u in visited && level[u] < cfg.maxLevel
    requires forall v | v in nexts :: Edge(g, cfg, u, v)
    requires forall v, k: nat | k <= level[u] && Walk(g, cfg, s, v, k) :: v in visited
    requires Extends(queue, visited, nexts, level[u] + 1, queue', visited')
    ensures Levels(g, cfg, s, visited', Deeper(level, visited', level[u] + 1))
  {
    var level' := Deeper(level, visited', level[u] + 1);
    forall v | v in visited'
      ensures level'[v] <= cfg.maxLevel && Distance(g, cfg, s, v, level'[v])
    {
      if v !in visited {
        assert v in visited' - visited;
        var i :| |queue| <= i < |queue'| && queue'[i].id == v;
        assert queue'[i].id in nexts;
        assert Walk(g, cfg, s, u, level[u]) && Edge(g, cfg, u, v);
        assert Walk(g, cfg, s, v, level[u] + 1);
      }
    }
  }

  lemma QueuedExtends(queue: seq<Pending>, visited: set<string>, nexts: seq<string>, level: nat,
                      queue': seq<Pending>, visited': set<string>, v: string)
    requires Extends(queue, visited, nexts, level, queue', visited')
    ensures Queued(queue', v) <==> Queued(queue, v) || v in visited' - visited
  {
    if Queued(queue, v) {
      var i :| 0 <= i < |queue| && queue[i].id == v;
      assert queue'[i].id == v;
    }
    if Queued(queue', v) {
      var i :| 0 <= i < |queue'| && queue'[i].id == v;
      if i < |queue| {
        assert queue[i].id == v;
      }
    }
  }

  lemma ExpandedQueue(queue: seq<Pending>, visited: set<string>, level: map<string, nat>, k: nat, nexts: seq<string>,
                      queue': seq<Pending>, visited': set<string>)
    requires level.Keys == visited && QueueOk(queue, visited, level)
    requires forall p | p in queue :: k <= p.level <= k + 1
    requires Extends(queue, visited, nexts, k + 1, queue', visited')
    ensures QueueOk(queue', visited', Deeper(level, visited', k + 1))
  {
    assert forall i | 0 <= i < |queue| :: queue'[i] == queue[i] && queue[i] in queue;
    assert forall i | |queue| <= i < |queue'| :: queue'[i].id in visited' - visited;
    assert forall i | 0 <= i < |queue| :: queue'[i].id in visited;
  }

  lemma Expanded(g: Graph, cfg: Config, s: string, queue: seq<Pending>, visited: set<string>, rows: seq<string>,
                 level: map<string, nat>, u: string, nexts: seq<string>, queue': seq<Pending>, visited': set<string>)
    requires Taken(g, cfg, s, queue, visited, rows, level, u) && level[u] < cfg.maxLevel
    requires forall v :: v in nexts <==> Edge(g, cfg, u, v)
    requires forall v, k: nat | k <= level[u] && Walk(g, cfg, s, v, k) :: v in visited
    requires Extends(queue, visited, nexts, level[u] + 1, queue', visited') && |visited'| <= MAX_VISITED_NODES
    ensures State(g, cfg, s, queue', visited', rows, Deeper(level, visited', level[u] + 1))
  {
    hide Walk, Edge, Distance, Queued, LabelIncluded, QueueOk, Levels, RowsOk, Closed, Extends;
    NewLevels(g, cfg, s, queue, visited, rows, level, u, nexts, queue', visited');
    ExpandedQueue(queue, visited, level, level[u], nexts, queue', visited');
    forall v ensures Queued(queue', v) <==> Queued(queue, v) || v in visited' - visited {
      QueuedExtends(queue, visited, nexts, level[u] + 1, queue', visited', v);
    }
    assert forall v | v in visited' && !Queued(queue', v) :: v in visited && !Queued(queue, v);
    ExpandedClosed(g, cfg, queue, visited, level, u, nexts, queue', visited');
    ExpandedRows(g, cfg, queue, visited, level, rows, u, nexts, queue', visited');
  }

  lemma ExpandedClosed(g: Graph, cfg: Config, queue: seq<Pending>, visited: set<string>, level: map<string, nat>,
                       u: string, nexts: seq<string>, queue': seq<Pending>, visited': set<string>)
    requires level.Keys == visited && u in visited
    requires forall w, v | w in visited && !Queued(queue, w) && w != u && level[w] < cfg.maxLevel && Edge(g, cfg, w, v) ::
               v in visited
    requires forall v :: v in nexts <==> Edge(g, cfg, u, v)
    requires Extends(queue, visited, nexts, level[u] + 1, queue', visited')
    requires forall v | v in visited' && !Queued(queue', v) :: v in visited && !Queued(queue, v)
    ensures Closed(g, cfg, queue', visited', Deeper(level, visited', level[u] + 1))
  {
    hide Edge, Queued;
    var level' := Deeper(level, visited', level[u] + 1);
    forall w, v | w in visited' && !Queued(queue', w) && level'[w] < cfg.maxLevel && Edge(g, cfg, w, v)
      ensures v in visited'
    {
      assert level'[w] == level[w];
    }
  }

  lemma ExpandedRows(g: Graph, cfg: Config, queue: seq<Pending>, visited: set<string>, level: map<string, nat>,
                     rows: seq<string>, u: string, nexts: seq<string>, queue': seq<Pending>, visited': set<string>)
    requires level.Keys == visited && RowsOk(g, cfg, queue, visited, level, rows) && u in visited
    requires forall v | v in rows :: level[v] <= level[u]
    requires Extends(queue, visited, nexts, level[u] + 1, queue', visited')
    requires forall v | v in visited' && !Queued(queue', v) :: v in visited && !Queued(queue, v)
    requires forall v :: Queued(queue', v) <==> Queued(queue, v) || v in visited' - visited
    ensures RowsOk(g, cfg, queue', visited', Deeper(level, visited', level[u] + 1), rows)
  {
    hide Queued, LabelIncluded;
    var level' := Deeper(level, visited', level[u] + 1);
    assert forall v | v in visited :: level'[v] == level[v];
    if queue' != [] && queue != [] {
      assert queue'[0] == queue[0];
    }
  }

  // ---------- The whole walk ----------

  /** The neighbours are the nodes that relationships lead to. */
  lemma {:induction false} NextIdsAre(rs: seq<Relationship>, u: string, direction: Direction, v: string)
    ensures v in NextIds(rs, u, direction) <==> exists r | r in rs :: LeadsTo(r, u, v, direction)
  {
    if rs != [] {
      NextIdsAre(rs[1..], u, direction, v);
      assert rs == [rs[0]] + rs[1..];
      assert NextId(rs[0], u, direction) == Some(v) <==> LeadsTo(rs[0], u, v, direction);
    }
  }

  lemma NextIdsAreEdges(g: Graph, cfg: Config, u: string)
    requires u in g.nodes && g.nodes[u].Found? && !Terminates(g.nodes[u].labels, cfg) && EdgesOf(g, u).Edges?
    ensures forall v :: v in NextIds(EdgesOf(g, u).relationships, u, cfg.direction) <==> Edge(g, cfg, u, v)
  {
    hide NextIds, LeadsTo;
    forall v ensures v in NextIds(EdgesOf(g, u).relationships, u, cfg.direction) <==> Edge(g, cfg, u, v) {
      NextIdsAre(EdgesOf(g, u).relationships, u, cfg.direction, v);
    }
  }

  lemma NoEdge(g: Graph, cfg: Config, u: string)
    requires u in g.nodes && g.nodes[u].Found? ==> Terminates(g.nodes[u].labels, cfg)
    ensures forall v :: !Edge(g, cfg, u, v)
  {
  }

  /** Every node as near as the head of the queue is visited. */
  lemma HeadLevel(g: Graph, cfg: Config, s: string, queue: seq<Pending>, visited: set<string>, rows: seq<string>,
                  level: map<string, nat>)
    requires State(g, cfg, s, queue, visited, rows, level) && queue != []
    ensures queue[0].id in level && level[queue[0].id] == queue[0].level
    ensures forall v, k: nat | k <= queue[0].level && Walk(g, cfg, s, v, k) :: v in visited
  {
    hide Walk, Edge, Distance, RowsOk, Closed;
    forall v, k: nat | k <= queue[0].level && Walk(g, cfg, s, v, k) ensures v in visited {
      NearIsVisited(g, cfg, s, queue, visited, level, queue[0].level, v, k);
    }
  }

  /** The rest of a walk from a good state, when it succeeds, ends with exactly the wanted rows. */
  lemma {:induction false} LoopExact(g: Graph, cfg: Config, s: string, queue: seq<Pending>, visited: set<string>,
                                     rows: seq<string>, level: map<string, nat>, rounds: Option<nat>)
    requires State(g, cfg, s, queue, visited, rows, level) && cfg.limit == None
    requires Loop(g, cfg, queue, visited, rows, rounds).Ok?
    ensures var all := Loop(g, cfg, queue, visited, rows, rounds).value;
      Distinct(all) && NonDecreasing(g, cfg, s, all) && forall v :: v in all <==> Emitted(g, cfg, s, v)
    decreases |queue| + (MAX_VISITED_NODES - |visited|)
  {
    hide Walk, Edge, Distance, LabelIncluded, Distinct, NonDecreasing, Emitted, Queued, Levels, QueueOk, RowsOk, Closed,
      Extends, Visit, NextIds, Taken, Terminates;
    if queue == [] {
      Finished(g, cfg, s, visited, rows, level);
    } else {
      var u, rest := queue[0].id, queue[1..];
      var rows' := RowsAfter(g, cfg, rows, queue[0]);
      var left := if rounds.Some? then Some(rounds.value - 1) else None;
      TakeHead(g, cfg, s, queue, visited, rows, level);
      HeadLevel(g, cfg, s, queue, visited, rows, level);
      if u !in g.nodes || level[u] >= cfg.maxLevel || Terminates(g.nodes[u].labels, cfg) {
        if level[u] < cfg.maxLevel {
          NoEdge(g, cfg, u);
        }
        NoSuccessors(g, cfg, s, rest, visited, rows', level, u);
        LoopExact(g, cfg, s, rest, visited, rows', level, left);
      } else {
        var nexts := NextIds(EdgesOf(g, u).relationships, u, cfg.direction);
        NextIdsAreEdges(g, cfg, u);
        VisitExtends(nexts, level[u] + 1, rest, visited);
        var (queue', visited') := Visit(nexts, level[u] + 1, rest, visited).value;
        Expanded(g, cfg, s, rest, visited, rows', level, u, nexts, queue', visited');
        LoopExact(g, cfg, s, queue', visited', rows', Deeper(level, visited', level[u] + 1), left);
      }
    }
  }

  lemma Start(g: Graph, cfg: Config, s: string)
    ensures State(g, cfg, s, [Pending(s, 0)], {s}, [], map[s := 0])
  {
    hide Edge;
    assert Walk(g, cfg, s, s, 0);
    assert [Pending(s, 0)][0].id == s;
  }

  /** An unlimited request that succeeds emits each wanted node once, nearest first, and no other node. */
  lemma WalkIsExact(g: Graph, cfg: Config, start: string, rounds: Option<nat>)
    requires cfg.limit == None && Loop(g, cfg, [Pending(start, 0)], {start}, [], rounds).Ok?
    ensures var all := Loop(g, cfg, [Pending(start, 0)], {start}, [], rounds).value;
      Distinct(all) && NonDecreasing(g, cfg, start, all) && forall v :: v in all <==> Emitted(g, cfg, start, v)
  {
    hide State, Loop, Distinct, NonDecreasing, Emitted;
    Start(g, cfg, start);
    LoopExact(g, cfg, start, [Pending(start, 0)], {start}, [], map[start := 0], rounds);
  }

  // ---------- The limit ----------

  lemma {:induction false} LoopKeepsRows(g: Graph, cfg: Config, queue: seq<Pending>, visited: set<string>, rows: seq<string>,
                                         rounds: Option<nat>)
    requires |visited| <= MAX_VISITED_NODES && Loop(g, cfg, queue, visited, rows, rounds).Ok?
    ensures rows <= Loop(g, cfg, queue, visited, rows, rounds).value
    decreases |queue| + (MAX_VISITED_NODES - |visited|)
  {
    hide LabelIncluded, Terminates, Visit, NextIds;
    if queue != [] {
      var (id, level, rest) := (queue[0].id, queue[0].level, queue[1..]);
      var rows' := RowsAfter(g, cfg, rows, queue[0]);
      var left := if rounds.Some? then Some(rounds.value - 1) else None;
      assert rows <= rows';
      if cfg.limit.Some? && |rows'| >= cfg.limit.value && rows' != rows {
      } else if id !in g.nodes || level >= cfg.maxLevel || Terminates(g.nodes[id].labels, cfg) {
        LoopKeepsRows(g, cfg, rest, visited, rows', left);
      } else {
        var (queue', visited') := Visit(NextIds(EdgesOf(g, id).relationships, id, cfg.direction), level + 1, rest, visited).value;
        LoopKeepsRows(g, cfg, queue', visited', rows', left);
      }
    }
  }

  /** The first rows up to a limit. */
  function FirstRows(all: seq<string>, limit: nat): seq<string> {
    if |all| <= limit then all else all[..limit]
  }

  lemma {:induction false} LoopLimited(g: Graph, cfg: Config, limit: nat, queue: seq<Pending>, visited: set<string>,
                                       rows: seq<string>, rounds: Option<nat>)
    requires |visited| <= MAX_VISITED_NODES && cfg.limit == None && |rows| < limit
    requires Loop(g, cfg, queue, visited, rows, rounds).Ok?
    ensures Loop(g, cfg.(limit := Some(limit)), queue, visited, rows, rounds)
         == Ok(FirstRows(Loop(g, cfg, queue, visited, rows, rounds).value, limit))
    decreases |queue| + (MAX_VISITED_NODES - |visited|)
  {
    hide HasAnyLabel, Visit, NextIds;
    if queue != [] {
      var (id, level, rest) := (queue[0].id, queue[0].level, queue[1..]);
      var capped := cfg.(limit := Some(limit));
      var rows' := RowsAfter(g, cfg, rows, queue[0]);
      assert rows' == RowsAfter(g, capped, rows, queue[0]);
      var left := if rounds.Some? then Some(rounds.value - 1) else None;
      if rows' != rows && |rows'| >= limit {
        LoopRest(g, cfg, queue, visited, rows, rounds);
        var all := Loop(g, cfg, queue, visited, rows, rounds).value;
        assert rows' <= all && FirstRows(all, limit) == rows';
      } else if id !in g.nodes || level >= cfg.maxLevel || Terminates(g.nodes[id].labels, cfg) {
        LoopLimited(g, cfg, limit, rest, visited, rows', left);
      } else {
        var (queue', visited') := Visit(NextIds(EdgesOf(g, id).relationships, id, cfg.direction), level + 1, rest, visited).value;
        LoopLimited(g, cfg, limit, queue', visited', rows', left);
      }
    }
  }

  /** The rows an unlimited walk has after its first turn stay in front. */
  lemma LoopRest(g: Graph, cfg: Config, queue: seq<Pending>, visited: set<string>, rows: seq<string>, rounds: Option<nat>)
    requires |visited| <= MAX_VISITED_NODES && cfg.limit == None && queue != []
    requires Loop(g, cfg, queue, visited, rows, rounds).Ok?
    ensures RowsAfter(g, cfg, rows, queue[0]) <= Loop(g, cfg, queue, visited, rows, rounds).value
  {
    hide LabelIncluded, Terminates, Visit, NextIds;
    var (id, level, rest) := (queue[0].id, queue[0].level, queue[1..]);
    var rows' := RowsAfter(g, cfg, rows, queue[0]);
    var left := if rounds.Some? then Some(rounds.value - 1) else None;
    if id !in g.nodes || level >= cfg.maxLevel || Terminates(g.nodes[id].labels, cfg) {
      LoopKeepsRows(g, cfg, rest, visited, rows', left);
    } else {
      var (queue', visited') := Visit(NextIds(EdgesOf(g, id).relationships, id, cfg.direction), level + 1, rest, visited).value;
      LoopKeepsRows(g, cfg, queue', visited', rows', left);
    }
  }

  /** A limited request emits the first rows of the unlimited one; a limit is at least 1, as the check comes
      after a row is added and the configuration lets no 0 through. */
  lemma LimitIsPrefix(g: Graph, cfg: Config, limit: nat, start: string, rounds: Option<nat>)
    requires cfg.limit == None && limit >= 1 && Loop(g, cfg, [Pending(start, 0)], {start}, [], rounds).Ok?
    ensures Loop(g, cfg.(limit := Some(limit)), [Pending(start, 0)], {start}, [], rounds)
         == Ok(FirstRows(Loop(g, cfg, [Pending(start, 0)], {start}, [], rounds).value, limit))
  {
    hide Loop, FirstRows;
    LoopLimited(g, cfg, limit, [Pending(start, 0)], {start}, [], rounds);
  }

  // ---------- When the walk succeeds ----------

  /** `near` holds every node within the last level. */
  ghost predicate Holds(g: Graph, cfg: Config, s: string, near: set<string>) {
    forall v, k: nat | k <= cfg.maxLevel && Walk(g, cfg, s, v, k) :: v in near
  }

  ghost predicate Readable(g: Graph, near: set<string>) {
    forall v | v in near :: (v in g.nodes ==> g.nodes[v].Found?) && EdgesOf(g, v).Edges?
  }

  lemma {:induction false} VisitFits(nexts: seq<string>, level: nat, queue: seq<Pending>, visited: set<string>, near: set<string>)
    requires visited <= near && |near| < MAX_VISITED_NODES && |visited| <= MAX_VISITED_NODES
    requires forall v | v in nexts :: v in near
    ensures Visit(nexts, level, queue, visited).Some?
    decreases |nexts|
  {
    Smaller(visited, near);
    if nexts != [] {
      var seen := visited + {nexts[0]};
      Smaller(seen, near);
      VisitFits(nexts[1..], level, if nexts[0] in visited then queue else queue + [Pending(nexts[0], level)], seen, near);
      assert nexts[0] in visited ==> seen == visited;
    }
  }

  lemma {:induction false} Smaller(a: set<string>, b: set<string>)
    requires a <= b
    ensures |a| <= |b|
  {
    assert b == a + (b - a);
  }

  lemma VisitedIsNear(g: Graph, cfg: Config, s: string, visited: set<string>, level: map<string, nat>, near: set<string>)
    requires Levels(g, cfg, s, visited, level) && Holds(g, cfg, s, near)
    ensures visited <= near
  {
    hide Walk;
  }

  lemma SuccessorsAreNear(g: Graph, cfg: Config, s: string, visited: set<string>, level: map<string, nat>, near: set<string>,
                          u: string)
    requires Levels(g, cfg, s, visited, level) && Holds(g, cfg, s, near) && u in visited && level[u] < cfg.maxLevel
    ensures forall v | Edge(g, cfg, u, v) :: v in near
  {
    hide Edge;
    forall v | Edge(g, cfg, u, v) ensures v in near {
      assert Walk(g, cfg, s, u, level[u]);
      assert Walk(g, cfg, s, v, level[u] + 1);
    }
  }

  lemma {:induction false} LoopSucceeds(g: Graph, cfg: Config, s: string, queue: seq<Pending>, visited: set<string>,
                                        rows: seq<string>, level: map<string, nat>, near: set<string>)
    requires State(g, cfg, s, queue, visited, rows, level) && Holds(g, cfg, s, near) && |near| < MAX_VISITED_NODES
    requires Readable(g, near)
    ensures Loop(g, cfg, queue, visited, rows, None).Ok?
    decreases |queue| + (MAX_VISITED_NODES - |visited|)
  {
    hide Walk, Edge, Distance, LabelIncluded, Queued, Levels, Closed, RowsOk, Extends, Visit, NextIds, Taken, Terminates, Holds;
    if queue != [] {
      var u, rest := queue[0].id, queue[1..];
      var rows' := RowsAfter(g, cfg, rows, queue[0]);
      TakeHead(g, cfg, s, queue, visited, rows, level);
      HeadLevel(g, cfg, s, queue, visited, rows, level);
      VisitedIsNear(g, cfg, s, visited, level, near);
      if cfg.limit.Some? && |rows'| >= cfg.limit.value && rows' != rows {
      } else if u !in g.nodes || level[u] >= cfg.maxLevel || Terminates(g.nodes[u].labels, cfg) {
        if level[u] < cfg.maxLevel {
          NoEdge(g, cfg, u);
        }
        NoSuccessors(g, cfg, s, rest, visited, rows', level, u);
        LoopSucceeds(g, cfg, s, rest, visited, rows', level, near);
      } else {
        var nexts := NextIds(EdgesOf(g, u).relationships, u, cfg.direction);
        NextIdsAreEdges(g, cfg, u);
        SuccessorsAreNear(g, cfg, s, visited, level, near, u);
        VisitFits(nexts, level[u] + 1, rest, visited, near);
        VisitExtends(nexts, level[u] + 1, rest, visited);
        var (queue', visited') := Visit(nexts, level[u] + 1, rest, visited).value;
        Expanded(g, cfg, s, rest, visited, rows', level, u, nexts, queue', visited');
        LoopSucceeds(g, cfg, s, queue', visited', rows', Deeper(level, visited', level[u] + 1), near);
      }
    }
  }

  /** A request that is not cancelled succeeds when fewer nodes than the cap lie within the last level and
      the graph can be read there. */
  lemma WalkSucceeds(g: Graph, cfg: Config, start: string, near: set<string>)
    requires Holds(g, cfg, start, near) && |near| < 100_000 && Readable(g, near)
    ensures Loop(g, cfg, [Pending(start, 0)], {start}, [], None).Ok?
  {
    hide State, Loop, Holds, Readable;
    Start(g, cfg, start);
    LoopSucceeds(g, cfg, start, [Pending(start, 0)], {start}, [], map[start := 0], near);
  }
}
