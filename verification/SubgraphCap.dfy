/** What the cap on visited nodes does to the walk: it is compared with the walk that has no cap. */
module SubgraphCap {
  import opened Wrappers
  import opened Subgraph
  import opened SubgraphExact

  // ---------- The walk without a cap ----------

  /** Every node that a relationship in the requested direction leads to. */
  ghost function Ends(g: Graph, cfg: Config): set<string> {
    set u, v | u in g.edges && g.edges[u].Edges? && v in NextIds(g.edges[u].relationships, u, cfg.direction) :: v
  }

  function Enqueue(nexts: seq<string>, level: nat, queue: seq<Pending>, visited: set<string>): (r: (seq<Pending>, set<string>))
    ensures r.1 == visited + Seen(nexts)
    decreases |nexts|
  {
    if nexts == [] then (queue, visited)
    else
      assert nexts == [nexts[0]] + nexts[1..];
      if nexts[0] in visited then Enqueue(nexts[1..], level, queue, visited)
      else Enqueue(nexts[1..], level, queue + [Pending(nexts[0], level)], visited + {nexts[0]})
  }

  function Seen(ids: seq<string>): set<string> {
    set v | v in ids
  }

  lemma {:induction false} EnqueueMeasure(nexts: seq<string>, level: nat, queue: seq<Pending>, visited: set<string>, all: set<string>)
    requires forall v | v in nexts :: v in all
    ensures var (queue', visited') := Enqueue(nexts, level, queue, visited);
      |queue'| + |all - visited'| == |queue| + |all - visited|
    decreases |nexts|
  {
    if nexts != [] {
      if nexts[0] in visited {
        EnqueueMeasure(nexts[1..], level, queue, visited, all);
      } else {
        EnqueueMeasure(nexts[1..], level, queue + [Pending(nexts[0], level)], visited + {nexts[0]}, all);
        assert all - visited == (all - (visited + {nexts[0]})) + {nexts[0]};
      }
    }
  }

  /** A turn of the walk makes the queue and what is still to be seen smaller together. */
  lemma TurnMeasure(g: Graph, cfg: Config, id: string, level: nat, queue: seq<Pending>, visited: set<string>)
    requires EdgesOf(g, id).Edges?
    ensures var (queue', visited') := Enqueue(NextIds(EdgesOf(g, id).relationships, id, cfg.direction), level, queue, visited);
      |queue'| + |Ends(g, cfg) - visited'| == |queue| + |Ends(g, cfg) - visited|
  {
    var nexts := NextIds(EdgesOf(g, id).relationships, id, cfg.direction);
    EnqueueMeasure(nexts, level, queue, visited, Ends(g, cfg));
  }

  /** How a walk ends, and the far ends of all relationships it looked at, in order. */
  datatype Outcome = Outcome(result: Result<seq<string>, WalkError>, looked: seq<string>)

  /** The walk as it would be without the cap. */
  ghost function Free(g: Graph, cfg: Config, queue: seq<Pending>, visited: set<string>, rows: seq<string>,
                      rounds: Option<nat>): (r: Outcome)
    ensures r.result != Err(TraversalLimitExceeded)
    decreases |queue| + |Ends(g, cfg) - visited|
  {
    hide Ends, NextIds, Enqueue, LabelIncluded, Terminates;
    if queue == [] then Outcome(Ok(rows), [])
    else if rounds == Some(0) then Outcome(Err(Cancelled), [])
    else
      var (id, level, rest) := (queue[0].id, queue[0].level, queue[1..]);
      var rounds' := if rounds.Some? then Some(rounds.value - 1) else None;
      if id !in g.nodes then Free(g, cfg, rest, visited, rows, rounds')
      else
        match g.nodes[id]
        case NodeUnreadable(code) => Outcome(Err(ReadFailed(code)), [])
        case Found(labels) =>
          var emit := level >= cfg.minLevel && LabelIncluded(labels, cfg);
          var rows' := if emit then rows + [id] else rows;
          if emit && cfg.limit.Some? && |rows'| >= cfg.limit.value then Outcome(Ok(rows'), [])
          else if level >= cfg.maxLevel || Terminates(labels, cfg) then Free(g, cfg, rest, visited, rows', rounds')
          else
            match EdgesOf(g, id)
            case EdgesUnreadable(code) => Outcome(Err(ReadFailed(code)), [])
            case Edges(rs) =>
              var nexts := NextIds(rs, id, cfg.direction);
              TurnMeasure(g, cfg, id, level + 1, rest, visited);
              var (queue', visited') := Enqueue(nexts, level + 1, rest, visited);
              var more := Free(g, cfg, queue', visited', rows', rounds');
              Outcome(more.result, nexts + more.looked)
  }

  // ---------- Reaching the cap ----------

  /** A relationship is looked at when as many nodes as the cap allows have been seen, whether or not its far
      end is one of them. */
  ghost predicate ReachesCap(visited: set<string>, looked: seq<string>) {
    exists k :: 0 <= k < |looked| && FullAt(visited, looked, k)
  }

  ghost predicate FullAt(visited: set<string>, looked: seq<string>, k: nat)
    requires k <= |looked|
  {
    |visited + Seen(looked[..k])| >= 100_000
  }

  lemma FullAtAppend(visited: set<string>, a: seq<string>, b: seq<string>, k: nat)
    requires k <= |a + b|
    ensures FullAt(visited, a + b, k) <==> if k < |a| then FullAt(visited, a, k) else FullAt(visited + Seen(a), b, k - |a|)
  {
    if k < |a| {
      assert (a + b)[..k] == a[..k];
    } else {
      assert (a + b)[..k] == a + b[..k - |a|];
      assert visited + Seen(a) + Seen(b[..k - |a|]) == visited + Seen(a + b[..k - |a|]);
    }
  }

  lemma ReachesCapAppend(visited: set<string>, a: seq<string>, b: seq<string>)
    ensures ReachesCap(visited, a + b) <==> ReachesCap(visited, a) || ReachesCap(visited + Seen(a), b)
  {
    hide FullAt, Seen;
    forall k | 0 <= k < |a + b|
      ensures FullAt(visited, a + b, k) <==> if k < |a| then FullAt(visited, a, k) else FullAt(visited + Seen(a), b, k - |a|)
    {
      FullAtAppend(visited, a, b, k);
    }
    if ReachesCap(visited, a) {
      var k :| 0 <= k < |a| && FullAt(visited, a, k);
      assert k < |a + b| && FullAt(visited, a + b, k);
    }
    if ReachesCap(visited + Seen(a), b) {
      var k :| 0 <= k < |b| && FullAt(visited + Seen(a), b, k);
      assert |a| + k < |a + b| && FullAt(visited, a + b, |a| + k);
    }
  }

  lemma ReachesCapOne(visited: set<string>, x: string)
    ensures ReachesCap(visited, [x]) <==> |visited| >= MAX_VISITED_NODES
  {
    assert visited + Seen([x][..0]) == visited;
    assert FullAt(visited, [x], 0) <==> |visited| >= MAX_VISITED_NODES;
  }

  lemma {:induction false} VisitIsCapped(nexts: seq<string>, level: nat, queue: seq<Pending>, visited: set<string>)
    requires |visited| <= MAX_VISITED_NODES
    ensures Visit(nexts, level, queue, visited)
         == if ReachesCap(visited, nexts) then None else Some(Enqueue(nexts, level, queue, visited))
    decreases |nexts|
  {
    hide ReachesCap;
    if nexts == [] {
      assert !ReachesCap(visited, []) by { NothingLookedAt(visited); }
    } else {
      assert nexts == [nexts[0]] + nexts[1..];
      ReachesCapAppend(visited, [nexts[0]], nexts[1..]);
      ReachesCapOne(visited, nexts[0]);
      assert visited + Seen([nexts[0]]) == visited + {nexts[0]};
      if |visited| < MAX_VISITED_NODES {
        if nexts[0] in visited {
          assert visited + {nexts[0]} == visited;
          VisitIsCapped(nexts[1..], level, queue, visited);
        } else {
          VisitIsCapped(nexts[1..], level, queue + [Pending(nexts[0], level)], visited + {nexts[0]});
        }
      }
    }
  }

  lemma NothingLookedAt(visited: set<string>)
    ensures !ReachesCap(visited, [])
  {
  }

  lemma {:induction false} LoopIsCapped(g: Graph, cfg: Config, queue: seq<Pending>, visited: set<string>, rows: seq<string>,
                                        rounds: Option<nat>)
    requires |visited| <= MAX_VISITED_NODES
    ensures var free := Free(g, cfg, queue, visited, rows, rounds);
      Loop(g, cfg, queue, visited, rows, rounds)
      == if ReachesCap(visited, free.looked) then Err(TraversalLimitExceeded) else free.result
    decreases |queue| + (MAX_VISITED_NODES - |visited|)
  {
    hide ReachesCap, LabelIncluded, Terminates, Visit, Enqueue, NextIds, Ends;
    NothingLookedAt(visited);
    if queue != [] && rounds != Some(0) {
      var (id, level, rest) := (queue[0].id, queue[0].level, queue[1..]);
      var left := if rounds.Some? then Some(rounds.value - 1) else None;
      if id !in g.nodes {
        LoopIsCapped(g, cfg, rest, visited, rows, left);
      } else if g.nodes[id].Found? {
        var emit := level >= cfg.minLevel && LabelIncluded(g.nodes[id].labels, cfg);
        var rows' := if emit then rows + [id] else rows;
        if emit && cfg.limit.Some? && |rows'| >= cfg.limit.value {
        } else if level >= cfg.maxLevel || Terminates(g.nodes[id].labels, cfg) {
          LoopIsCapped(g, cfg, rest, visited, rows', left);
        } else if EdgesOf(g, id).Edges? {
          var nexts := NextIds(EdgesOf(g, id).relationships, id, cfg.direction);
          VisitIsCapped(nexts, level + 1, rest, visited);
          var (queue', visited') := Enqueue(nexts, level + 1, rest, visited);
          ReachesCapAppend(visited, nexts, Free(g, cfg, queue', visited', rows', left).looked);
          if !ReachesCap(visited, nexts) {
            LoopIsCapped(g, cfg, queue', visited', rows', left);
          }
        }
      }
    }
  }

  /** The walk ends as it would without the cap, except that it fails exactly if, without the cap, it would look
      at a relationship with 100 000 nodes already seen. */
  lemma CapIsExact(g: Graph, cfg: Config, start: string, rounds: Option<nat>)
    ensures var free := Free(g, cfg, [Pending(start, 0)], {start}, [], rounds);
      Loop(g, cfg, [Pending(start, 0)], {start}, [], rounds)
      == if ReachesCap({start}, free.looked) then Err(TraversalLimitExceeded) else free.result
    ensures Loop(g, cfg, [Pending(start, 0)], {start}, [], rounds) == Err(TraversalLimitExceeded)
       <==> ReachesCap({start}, Free(g, cfg, [Pending(start, 0)], {start}, [], rounds).looked)
  {
    hide Loop, Free, ReachesCap;
    LoopIsCapped(g, cfg, [Pending(start, 0)], {start}, [], rounds);
  }

  // ---------- When the walk succeeds ----------

  /** What the walk reads of `v` at distance `k` can be read: the node, if there is one, and its relationships, if
      the walk goes on from there. */
  ghost predicate ReadableAt(g: Graph, cfg: Config, v: string, k: nat) {
    v in g.nodes ==>
      && g.nodes[v].Found?
      && (k < cfg.maxLevel && (forall l | l in g.nodes[v].labels :: l !in cfg.terminationLabels) ==>
            v !in g.edges || g.edges[v].Edges?)
  }

  lemma ReadableIs(g: Graph, cfg: Config, v: string, k: nat)
    ensures ReadableAt(g, cfg, v, k) <==>
      (v in g.nodes ==>
         && g.nodes[v].Found?
         && (k < cfg.maxLevel && !Terminates(g.nodes[v].labels, cfg) ==> EdgesOf(g, v).Edges?))
  {
  }

  ghost predicate ReadableWithin(g: Graph, cfg: Config, s: string) {
    forall v, k: nat | k <= cfg.maxLevel && Distance(g, cfg, s, v, k) :: ReadableAt(g, cfg, v, k)
  }

  lemma VisitedIsReadable(g: Graph, cfg: Config, s: string, visited: set<string>, level: map<string, nat>, v: string)
    requires Levels(g, cfg, s, visited, level) && ReadableWithin(g, cfg, s) && v in visited
    ensures ReadableAt(g, cfg, v, level[v])
  {
    hide Distance, ReadableAt;
  }

  lemma {:induction false} ReadableLoop(g: Graph, cfg: Config, s: string, queue: seq<Pending>, visited: set<string>,
                                        rows: seq<string>, level: map<string, nat>)
    requires State(g, cfg, s, queue, visited, rows, level) && cfg.limit == None && ReadableWithin(g, cfg, s)
    ensures var r := Loop(g, cfg, queue, visited, rows, None); r.Ok? || r == Err(TraversalLimitExceeded)
    decreases |queue| + (MAX_VISITED_NODES - |visited|)
  {
    hide Walk, Edge, Distance, LabelIncluded, Queued, Levels, QueueOk, RowsOk, Closed, Extends, Visit, NextIds, Taken,
      Terminates, ReadableWithin, ReadableAt;
    if queue != [] {
      var u, rest := queue[0].id, queue[1..];
      var rows' := RowsAfter(g, cfg, rows, queue[0]);
      TakeHead(g, cfg, s, queue, visited, rows, level);
      HeadLevel(g, cfg, s, queue, visited, rows, level);
      HeadIsVisited(g, cfg, s, queue, visited, rows, level);
      VisitedIsReadable(g, cfg, s, visited, level, u);
      ReadableIs(g, cfg, u, level[u]);
      if u !in g.nodes || level[u] >= cfg.maxLevel || Terminates(g.nodes[u].labels, cfg) {
        if level[u] < cfg.maxLevel {
          NoEdge(g, cfg, u);
        }
        NoSuccessors(g, cfg, s, rest, visited, rows', level, u);
        ReadableLoop(g, cfg, s, rest, visited, rows', level);
      } else {
        var nexts := NextIds(EdgesOf(g, u).relationships, u, cfg.direction);
        if Visit(nexts, level[u] + 1, rest, visited).Some? {
          NextIdsAreEdges(g, cfg, u);
          VisitExtends(nexts, level[u] + 1, rest, visited);
          var (queue', visited') := Visit(nexts, level[u] + 1, rest, visited).value;
          Expanded(g, cfg, s, rest, visited, rows', level, u, nexts, queue', visited');
          ReadableLoop(g, cfg, s, queue', visited', rows', Deeper(level, visited', level[u] + 1));
        }
      }
    }
  }

  lemma HeadIsVisited(g: Graph, cfg: Config, s: string, queue: seq<Pending>, visited: set<string>, rows: seq<string>,
                      level: map<string, nat>)
    requires State(g, cfg, s, queue, visited, rows, level) && queue != []
    ensures Levels(g, cfg, s, visited, level) && queue[0].id in visited && level[queue[0].id] == queue[0].level
  {
    hide Walk, Edge, Distance, RowsOk, Closed;
  }

  /** Everything taken from the queue could be read. */
  ghost predicate TakenWasRead(g: Graph, cfg: Config, queue: seq<Pending>, visited: set<string>, level: map<string, nat>)
    requires level.Keys == visited
  {
    forall v | v in visited && !Queued(queue, v) :: ReadableAt(g, cfg, v, level[v])
  }

  lemma TakenHeadWasRead(g: Graph, cfg: Config, queue: seq<Pending>, visited: set<string>, level: map<string, nat>)
    requires level.Keys == visited && queue != [] && TakenWasRead(g, cfg, queue, visited, level) && queue[0].id in visited
    requires ReadableAt(g, cfg, queue[0].id, level[queue[0].id])
    ensures TakenWasRead(g, cfg, queue[1..], visited, level)
  {
    hide Queued, ReadableAt;
    forall v | v in visited && !Queued(queue[1..], v) ensures ReadableAt(g, cfg, v, level[v]) {
      QueuedRest(queue, v);
    }
  }

  lemma ExpandedWasRead(g: Graph, cfg: Config, queue: seq<Pending>, visited: set<string>, level: map<string, nat>, k: nat,
                        nexts: seq<string>, queue': seq<Pending>, visited': set<string>)
    requires level.Keys == visited && TakenWasRead(g, cfg, queue, visited, level)
    requires Extends(queue, visited, nexts, k, queue', visited')
    ensures TakenWasRead(g, cfg, queue', visited', Deeper(level, visited', k))
  {
    hide Queued, ReadableAt, Extends;
    forall v | v in visited' && !Queued(queue', v) ensures ReadableAt(g, cfg, v, Deeper(level, visited', k)[v]) {
      QueuedExtends(queue, visited, nexts, k, queue', visited', v);
    }
  }

  lemma {:induction false} LoopReads(g: Graph, cfg: Config, s: string, queue: seq<Pending>, visited: set<string>,
                                     rows: seq<string>, level: map<string, nat>, rounds: Option<nat>)
    requires State(g, cfg, s, queue, visited, rows, level) && cfg.limit == None && level.Keys == visited
    requires TakenWasRead(g, cfg, queue, visited, level) && Loop(g, cfg, queue, visited, rows, rounds).Ok?
    ensures ReadableWithin(g, cfg, s)
    decreases |queue| + (MAX_VISITED_NODES - |visited|)
  {
    hide Walk, Edge, Distance, LabelIncluded, Queued, Levels, QueueOk, RowsOk, Closed, Extends, Visit, NextIds, Taken,
      Terminates, ReadableWithin, ReadableAt, TakenWasRead;
    if queue == [] {
      AllWasRead(g, cfg, s, visited, rows, level);
    } else {
      var u, rest := queue[0].id, queue[1..];
      var rows' := RowsAfter(g, cfg, rows, queue[0]);
      var left := if rounds.Some? then Some(rounds.value - 1) else None;
      TakeHead(g, cfg, s, queue, visited, rows, level);
      HeadLevel(g, cfg, s, queue, visited, rows, level);
      ReadableIs(g, cfg, u, level[u]);
      TakenHeadWasRead(g, cfg, queue, visited, level);
      if u !in g.nodes || level[u] >= cfg.maxLevel || Terminates(g.nodes[u].labels, cfg) {
        if level[u] < cfg.maxLevel {
          NoEdge(g, cfg, u);
        }
        NoSuccessors(g, cfg, s, rest, visited, rows', level, u);
        LoopReads(g, cfg, s, rest, visited, rows', level, left);
      } else {
        var nexts := NextIds(EdgesOf(g, u).relationships, u, cfg.direction);
        NextIdsAreEdges(g, cfg, u);
        VisitExtends(nexts, level[u] + 1, rest, visited);
        var (queue', visited') := Visit(nexts, level[u] + 1, rest, visited).value;
        Expanded(g, cfg, s, rest, visited, rows', level, u, nexts, queue', visited');
        ExpandedWasRead(g, cfg, rest, visited, level, level[u] + 1, nexts, queue', visited');
        LoopReads(g, cfg, s, queue', visited', rows', Deeper(level, visited', level[u] + 1), left);
      }
    }
  }

  lemma AllWasRead(g: Graph, cfg: Config, s: string, visited: set<string>, rows: seq<string>, level: map<string, nat>)
    requires State(g, cfg, s, [], visited, rows, level) && level.Keys == visited && TakenWasRead(g, cfg, [], visited, level)
    ensures ReadableWithin(g, cfg, s)
  {
    hide Walk, Edge, Distance, ReadableAt, RowsOk;
    forall v, k: nat | k <= cfg.maxLevel && Distance(g, cfg, s, v, k) ensures ReadableAt(g, cfg, v, k) {
      DistanceWalk(g, cfg, s, v, k);
      NearIsVisited(g, cfg, s, [], visited, level, cfg.maxLevel, v, k);
      DistanceUnique(g, cfg, s, v, k, level[v]);
    }
  }

  /** An unlimited request that is not cancelled succeeds exactly if everything within the last level can be read and
      the cap is not reached. */
  lemma WalkSucceedsIff(g: Graph, cfg: Config, start: string)
    requires cfg.limit == None
    ensures Loop(g, cfg, [Pending(start, 0)], {start}, [], None).Ok?
       <==> ReadableWithin(g, cfg, start)
            && !ReachesCap({start}, Free(g, cfg, [Pending(start, 0)], {start}, [], None).looked)
  {
    hide State, Loop, Free, ReachesCap, ReadableWithin, TakenWasRead;
    Start(g, cfg, start);
    CapIsExact(g, cfg, start, None);
    if ReadableWithin(g, cfg, start) {
      ReadableLoop(g, cfg, start, [Pending(start, 0)], {start}, [], map[start := 0]);
    }
    if Loop(g, cfg, [Pending(start, 0)], {start}, [], None).Ok? {
      NothingTaken(g, cfg, start);
      LoopReads(g, cfg, start, [Pending(start, 0)], {start}, [], map[start := 0], None);
    }
  }

  lemma NothingTaken(g: Graph, cfg: Config, s: string)
    ensures TakenWasRead(g, cfg, [Pending(s, 0)], {s}, map[s := 0])
  {
    assert [Pending(s, 0)][0].id == s;
  }
}
