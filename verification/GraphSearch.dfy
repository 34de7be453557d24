/** Depth-bounded neighbour search over the latest snapshot, with the edges it traversed. */
module GraphSearch {
  import opened Sums
  import opened Graphs
  import opened Distances

  /** `internalId` is the decimal rendering of the row id, which lookups also accept. */
  datatype SearchNode = SearchNode(entityId: Id, internalId: Id, nodeType: string, confidence: real)

  datatype SearchEdge = SearchEdge(edgeId: int, source: Id, target: Id, relationshipType: string, confidence: real)

  datatype Direction = Outgoing | Incoming | Both

  datatype Error = NodeNotFound | DanglingEdge

  /** What neighbors computes before it sorts and pages. */
  datatype Neighborhood = Neighborhood(root: SearchNode, visited: map<Id, nat>, traversed: map<int, SearchEdge>,
    found: map<Id, nat>)

  datatype Result<T> = Ok(value: T) | Err(error: Error)

  function Folded(fold: string -> string, types: set<string>): set<string> {
    set t | t in types :: fold(t)
  }

  predicate Passes(edge: SearchEdge, fold: string -> string, types: set<string>, minConfidence: real) {
    edge.confidence >= minConfidence && (types == {} || fold(edge.relationshipType) in types)
  }

  function FilterEdges(edges: seq<SearchEdge>, fold: string -> string, types: set<string>,
                       minConfidence: real): (kept: seq<SearchEdge>)
    ensures forall e :: e in kept <==>
      e in edges && e.confidence >= minConfidence && (types == {} || fold(e.relationshipType) in types)
  {
    if edges == [] then []
    else
      var rest := FilterEdges(edges[1..], fold, types, minConfidence);
      if Passes(edges[0], fold, types, minConfidence) then [edges[0]] + rest else rest
  }

  /** Filtering goes edge by edge: order and repetitions are kept. */
  lemma {:induction false} FilterEdgesInOrder(a: seq<SearchEdge>, b: seq<SearchEdge>, fold: string -> string,
                                              types: set<string>, minConfidence: real)
    ensures FilterEdges(a + b, fold, types, minConfidence) ==
      FilterEdges(a, fold, types, minConfidence) + FilterEdges(b, fold, types, minConfidence)
    ensures |a| == 1 ==>
      FilterEdges(a, fold, types, minConfidence) == if Passes(a[0], fold, types, minConfidence) then a else []
  {
    hide *;
    if a == [] {
      FilterNone(a, fold, types, minConfidence);
      assert a + b == b;
    } else {
      FilterEdgesInOrder(a[1..], b, fold, types, minConfidence);
      FilterFirst(a, fold, types, minConfidence);
      FilterFirst(a + b, fold, types, minConfidence);
      assert (a + b)[1..] == a[1..] + b && (a + b)[0] == a[0];
      Regroup(if Passes(a[0], fold, types, minConfidence) then [a[0]] else [],
        FilterEdges(a[1..], fold, types, minConfidence), FilterEdges(b, fold, types, minConfidence));
      if |a| == 1 { assert a == [a[0]]; }
    }
  }

  lemma Regroup<T>(a: seq<T>, b: seq<T>, c: seq<T>)
    ensures a + (b + c) == (a + b) + c && a + [] == a
  {
  }

  lemma FilterNone(edges: seq<SearchEdge>, fold: string -> string, types: set<string>, minConfidence: real)
    requires edges == []
    ensures FilterEdges(edges, fold, types, minConfidence) == []
  {
  }

  lemma FilterFirst(edges: seq<SearchEdge>, fold: string -> string, types: set<string>, minConfidence: real)
    requires edges != []
    ensures FilterEdges(edges, fold, types, minConfidence) ==
      (if Passes(edges[0], fold, types, minConfidence) then [edges[0]] else []) + FilterEdges(edges[1..], fold, types,
        minConfidence)
    ensures |edges| == 1 ==> FilterEdges(edges[1..], fold, types, minConfidence) == []
  {
    hide Passes;
  }

  /** Edge e can be walked from u to w in the requested direction. */
  predicate Arc(direction: Direction, u: Id, w: Id, e: SearchEdge) {
    || (direction != Incoming && e.source == u && e.target == w)
    || (direction != Outgoing && e.target == u && e.source == w)
  }

  predicate KnownNode(nodes: seq<SearchNode>, x: Id) {
    exists n :: n in nodes && n.entityId == x
  }

  /** Registering the edge needs an adjacency list for each end it can be walked from. */
  predicate Anchored(nodes: seq<SearchNode>, direction: Direction, e: SearchEdge) {
    (direction != Incoming ==> KnownNode(nodes, e.source)) && (direction != Outgoing ==> KnownNode(nodes, e.target))
  }

  type Adjacency = map<Id, set<(Id, SearchEdge)>>

  ghost predicate AdjacencyInv(nodes: seq<SearchNode>, edges: seq<SearchEdge>, direction: Direction,
                               adjacency: Adjacency) {
    && (forall u :: u in adjacency <==> KnownNode(nodes, u))
    && forall u, w, e :: u in adjacency ==> ((w, e) in adjacency[u] <==> e in edges && Arc(direction, u, w, e))
  }

  /** The adjacency lists, or the lookup error of the first edge whose end is not a node. */
  method BuildAdjacency(nodes: seq<SearchNode>, edges: seq<SearchEdge>, direction: Direction)
    returns (r: Result<Adjacency>)
    ensures r.Ok? <==> forall e :: e in edges ==> Anchored(nodes, direction, e)
    ensures r.Ok? ==> AdjacencyInv(nodes, edges, direction, r.value)
    ensures r.Err? ==> r.error == DanglingEdge
  {
    var adjacency: Adjacency := map n | n in nodes :: n.entityId := {};
    for i := 0 to |edges|
      invariant AdjacencyInv(nodes, edges[..i], direction, adjacency)
      invariant forall e :: e in edges[..i] ==> Anchored(nodes, direction, e)
    {
      var e := edges[i];
      assert edges[..i + 1] == edges[..i] + [e];
      assert e in edges;
      ghost var before := adjacency;
      if direction != Incoming {
        if e.source !in adjacency { return Err(DanglingEdge); }
        adjacency := adjacency[e.source := adjacency[e.source] + {(e.target, e)}];
      }
      if direction != Outgoing {
        if e.target !in adjacency { return Err(DanglingEdge); }
        adjacency := adjacency[e.target := adjacency[e.target] + {(e.source, e)}];
      }
      forall u, w, f | u in adjacency
        ensures (w, f) in adjacency[u] <==> f in edges[..i + 1] && Arc(direction, u, w, f)
      {
        assert (w, f) in adjacency[u] <==> (w, f) in before[u] || (f == e && Arc(direction, u, w, e));
      }
    }
    assert edges[..|edges|] == edges;
    return Ok(adjacency);
  }

  predicate Answers(n: SearchNode, entityId: Id) {
    n.entityId == entityId || n.internalId == entityId
  }

  /** n answers to the id, and no node before it does. */
  ghost predicate FirstAnswer(nodes: seq<SearchNode>, entityId: Id, n: SearchNode) {
    exists i :: 0 <= i < |nodes| && nodes[i] == n && Answers(nodes[i], entityId) && NoAnswer(nodes[..i], entityId)
  }

  ghost predicate NoAnswer(nodes: seq<SearchNode>, entityId: Id) {
    forall n :: n in nodes ==> !Answers(n, entityId)
  }

  lemma FirstAnswerLater(nodes: seq<SearchNode>, entityId: Id, n: SearchNode)
    requires nodes != [] && !Answers(nodes[0], entityId) && FirstAnswer(nodes[1..], entityId, n)
    ensures FirstAnswer(nodes, entityId, n)
  {
    var i :| 0 <= i < |nodes[1..]| && nodes[1..][i] == n && Answers(nodes[1..][i], entityId)
      && NoAnswer(nodes[1..][..i], entityId);
    assert nodes[..i + 1] == [nodes[0]] + nodes[1..][..i];
    assert nodes[i + 1] == n;
  }

  /** The first node, in list order, with that external or internal id. */
  function FindNode(nodes: seq<SearchNode>, entityId: Id): (r: Result<SearchNode>)
    ensures r.Ok? ==> FirstAnswer(nodes, entityId, r.value)
    ensures r.Ok? ==> r.value.entityId == entityId || r.value.internalId == entityId
    ensures r.Err? ==> r.error == NodeNotFound && NoAnswer(nodes, entityId)
  {
    if nodes == [] then Err(NodeNotFound)
    else if Answers(nodes[0], entityId) then
      assert NoAnswer(nodes[..0], entityId);
      Ok(nodes[0])
    else
      var r := FindNode(nodes[1..], entityId);
      if r.Ok? then
        FirstAnswerLater(nodes, entityId, r.value);
        r
      else r
  }

  /** The graph the search walks: known nodes joined by the edges that pass, plus the raw start. */
  ghost predicate IsSearchGraph(nodes: seq<SearchNode>, edges: seq<SearchEdge>, direction: Direction, start: Id,
                                g: Graph) {
    && g.Valid() && start in g.ids
    && (forall x :: x in g.ids <==> x == start || KnownNode(nodes, x))
    && (forall u, w :: g.Edge(u, w) <==> KnownNode(nodes, u) && KnownNode(nodes, w) && HasArc(edges, direction, u, w))
  }

  ghost predicate HasArc(edges: seq<SearchEdge>, direction: Direction, u: Id, w: Id) {
    exists e :: e in edges && Arc(direction, u, w, e)
  }

  lemma SearchGraphExists(nodes: seq<SearchNode>, edges: seq<SearchEdge>, direction: Direction, start: Id)
    ensures exists g :: IsSearchGraph(nodes, edges, direction, start, g)
  {
    var known := set n | n in nodes :: n.entityId;
    var ids := Listed(known + {start});
    var g := Graph(ids, map u | u in known + {start} ::
      set w | w in known && u in known && HasArc(edges, direction, u, w));
    assert IsSearchGraph(nodes, edges, direction, start, g);
  }

  ghost function SearchGraph(nodes: seq<SearchNode>, edges: seq<SearchEdge>, direction: Direction,
                             start: Id): (g: Graph)
    ensures IsSearchGraph(nodes, edges, direction, start, g)
  {
    SearchGraphExists(nodes, edges, direction, start);
    var g :| IsSearchGraph(nodes, edges, direction, start, g);
    g
  }

  lemma {:induction false} Listed(s: set<Id>) returns (xs: seq<Id>)
    ensures Distinct(xs) && forall x :: x in s <==> x in xs
    decreases |s|
  {
    xs := [];
    if s != {} {
      var x :| x in s;
      xs := Listed(s - {x});
      xs := xs + [x];
    }
  }

  ghost predicate Marked(traversed: map<int, SearchEdge>, e: SearchEdge) {
    e.edgeId in traversed && traversed[e.edgeId] == e
  }

  ghost predicate UniqueIds(edges: seq<SearchEdge>) {
    forall e, f :: e in edges && f in edges && e.edgeId == f.edgeId ==> e == f
  }

  /** e leaves u, in the requested direction, for a known node. */
  ghost predicate Adjacent(nodes: seq<SearchNode>, edges: seq<SearchEdge>, direction: Direction, u: Id, e: SearchEdge) {
    KnownNode(nodes, u) && e in edges && exists w :: KnownNode(nodes, w) && Arc(direction, u, w, e)
  }

  ghost predicate Seen(nodes: seq<SearchNode>, arcs: set<(Id, SearchEdge)>, e: SearchEdge) {
    exists w :: (w, e) in arcs && KnownNode(nodes, w)
  }

  ghost predicate TableOf(edges: seq<SearchEdge>, traversed: map<int, SearchEdge>) {
    forall id :: id in traversed ==> traversed[id] in edges && traversed[id].edgeId == id
  }

  lemma SeenNext(nodes: seq<SearchNode>, done: set<(Id, SearchEdge)>, w: Id, e: SearchEdge, f: SearchEdge)
    ensures Seen(nodes, done + {(w, e)}, f) <==> Seen(nodes, done, f) || (f == e && KnownNode(nodes, w))
  {
    if Seen(nodes, done, f) {
      var x :| (x, f) in done && KnownNode(nodes, x);
      assert (x, f) in done + {(w, e)};
    }
    assert (w, e) in done + {(w, e)};
  }

  /** What one expansion hands back to the outer loop. */
  ghost predicate Grown(g: Graph, start: Id, b: Search, queue: seq<Id>, visited: map<Id, nat>, c: Search) {
    && c.Inv(g, start) && c.order == b.order && c.level == b.level && c.node == b.node
    && c.dist == visited && c.queue == queue
    && (forall v :: v in b.dist ==> v in visited && visited[v] == b.dist[v])
    && (forall v :: v in visited && v !in b.dist ==> visited[v] == b.level + 1)
    && (forall v :: v in queue <==> v in b.queue || (v in visited && v !in b.dist))
  }

  lemma GrownScan(g: Graph, start: Id, b: Search, queue: seq<Id>, visited: map<Id, nat>, c: Search, w: Id)
    requires g.Valid() && Grown(g, start, b, queue, visited, c) && w in c.todo && b.node in b.dist
    requires b.dist[b.node] == b.level
    ensures w in visited ==> Grown(g, start, b, queue, visited, c.Scan(w))
    ensures w !in visited ==> Grown(g, start, b, queue + [w], visited[w := visited[b.node] + 1], c.Scan(w))
  {
    hide Search.Inv;
    ScanInv(g, start, c, w);
  }

  /** The loop over the adjacency list of one node, in any order. */
  method Expand(ghost g: Graph, ghost start: Id, nodes: seq<SearchNode>, ghost edges: seq<SearchEdge>,
                arcs: set<(Id, SearchEdge)>, node: Id, ghost b: Search, queue0: seq<Id>, visited0: map<Id, nat>,
                traversed0: map<int, SearchEdge>)
    returns (queue: seq<Id>, visited: map<Id, nat>, traversed: map<int, SearchEdge>, ghost c: Search)
    requires g.Valid() && b.Inv(g, start) && b.node == node && node in g.out && b.todo == g.out[node]
    requires b.queue == queue0 && b.dist == visited0 && node in visited0 && visited0[node] == b.level
    requires forall w :: w in g.out[node] <==> KnownNode(nodes, w) && exists e :: (w, e) in arcs
    requires UniqueIds(edges) && TableOf(edges, traversed0) && forall w, e :: (w, e) in arcs ==> e in edges
    ensures c.todo == {} && Grown(g, start, b, queue, visited, c)
    ensures TableOf(edges, traversed)
    ensures forall e :: e in edges ==> (Marked(traversed, e) <==> Marked(traversed0, e) || Seen(nodes, arcs, e))
  {
    queue, visited, traversed, c := queue0, visited0, traversed0, b;
    hide Search.Inv;
    assert Grown(g, start, b, queue, visited, c);
    var todo := arcs;
    while todo != {}
      invariant todo <= arcs && TableOf(edges, traversed)
      invariant Grown(g, start, b, queue, visited, c)
      invariant c.todo <= g.out[node]
      invariant forall w :: w in c.todo ==> exists e :: (w, e) in todo
      invariant forall w :: w in g.out[node] && w !in c.todo ==> w in visited
      invariant forall e :: e in edges ==>
        (Marked(traversed, e) <==> Marked(traversed0, e) || Seen(nodes, arcs - todo, e))
    {
      var arc :| arc in todo;
      var neighbor, edge := arc.0, arc.1;
      forall f ensures Seen(nodes, arcs - (todo - {arc}), f) <==>
        Seen(nodes, arcs - todo, f) || (f == edge && KnownNode(nodes, neighbor)) {
        assert arcs - (todo - {arc}) == (arcs - todo) + {(neighbor, edge)};
        SeenNext(nodes, arcs - todo, neighbor, edge, f);
      }
      todo := todo - {arc};
      if !KnownNode(nodes, neighbor) { continue; }
      assert neighbor in g.out[node];
      traversed := traversed[edge.edgeId := edge];
      if neighbor in c.todo { GrownScan(g, start, b, queue, visited, c, neighbor); c := c.Scan(neighbor); }
      if neighbor !in visited {
        visited := visited[neighbor := visited[node] + 1];
        queue := queue + [neighbor];
      }
    }
  }

  /** The outer loop's state. While `stopped` is false, b mirrors the queue; once the first node at the
      depth limit is taken, b stays put and the rest of the queue only drains. */
  ghost predicate TraverseInv(g: Graph, start: Id, depth: nat, queue: seq<Id>, visited: map<Id, nat>, b: Search,
                              stopped: bool) {
    && b.Inv(g, start) && b.dist == visited
    && (forall v :: v in visited ==> visited[v] <= depth)
    && (forall v :: v in queue ==> v in visited && v in g.out)
    && (!stopped ==> b.todo == {} && b.queue == queue)
    && (stopped ==> b.level >= depth && forall v :: v in queue ==> visited[v] >= depth)
  }

  /** A node is expanded once it has left the queue below the depth limit. */
  ghost predicate Expanded(depth: nat, queue: seq<Id>, visited: map<Id, nat>, u: Id) {
    u in visited && u !in queue && visited[u] < depth
  }

  lemma BeginTraverse(g: Graph, start: Id, depth: nat)
    requires g.Valid() && start in g.ids
    ensures TraverseInv(g, start, depth, [start], map[start := 0], Start(start), false)
  {
    StartInv(g, start);
  }

  /** Taking a node at the depth limit: either the search stops here or it had stopped already. */
  lemma Skip(g: Graph, start: Id, depth: nat, queue: seq<Id>, visited: map<Id, nat>, b: Search, stopped: bool)
    requires g.Valid() && TraverseInv(g, start, depth, queue, visited, b, stopped)
    requires queue != [] && visited[queue[0]] >= depth
    ensures !stopped ==> |b.order| < |g.ids| && TraverseInv(g, start, depth, queue[1..], visited, b.Pop(g), true)
    ensures stopped ==> TraverseInv(g, start, depth, queue[1..], visited, b, true)
    ensures forall u :: Expanded(depth, queue[1..], visited, u) <==> Expanded(depth, queue, visited, u)
  {
    assert forall v :: v in queue <==> v == queue[0] || v in queue[1..];
    if !stopped {
      PopInv(g, start, b);
      forall v | v in queue ensures visited[v] >= depth {
        var i :| 0 <= i < |queue| && queue[i] == v;
        assert i == 0 || visited[queue[0]] <= visited[queue[i]];
      }
    }
  }

  lemma Advance(g: Graph, start: Id, depth: nat, queue: seq<Id>, visited: map<Id, nat>, b: Search, stopped: bool)
    requires g.Valid() && TraverseInv(g, start, depth, queue, visited, b, stopped)
    requires queue != [] && visited[queue[0]] < depth
    ensures !stopped && |b.order| < |g.ids| && queue[0] in b.dist && queue[0] in g.out
    ensures
      var p := b.Pop(g);
      && p.Inv(g, start) && p.queue == queue[1..] && p.dist == visited && p.node == queue[0]
      && p.todo == g.out[queue[0]] && p.level == visited[queue[0]] && p.order == b.order + [queue[0]]
      && queue[0] !in queue[1..]
  {
    assert queue[0] in queue;
    PopInv(g, start, b);
  }

  lemma Grow(g: Graph, start: Id, depth: nat, queue: seq<Id>, visited: map<Id, nat>, b: Search,
             queue': seq<Id>, visited': map<Id, nat>, c: Search)
    requires g.Valid() && TraverseInv(g, start, depth, queue, visited, b, false) && queue != []
    requires visited[queue[0]] < depth
    requires queue[0] in b.dist && queue[0] in g.out && queue[0] !in queue[1..]
    requires Grown(g, start, b.Pop(g), queue', visited', c) && c.todo == {}
    ensures TraverseInv(g, start, depth, queue', visited', c, false)
    ensures forall u :: Expanded(depth, queue', visited', u) <==> Expanded(depth, queue, visited, u) || u == queue[0]
  {
    assert forall v :: v in queue <==> v == queue[0] || v in queue[1..];
  }

  /** A finished search: exactly the nodes within `depth` hops, each at its shortest distance. */
  lemma TraverseDone(g: Graph, start: Id, depth: nat, visited: map<Id, nat>, b: Search, stopped: bool)
    requires g.Valid() && TraverseInv(g, start, depth, [], visited, b, stopped)
    ensures forall v :: v in visited <==> Reachable(g, start, v) && Dist(g, start, v) <= depth
    ensures forall v :: v in visited ==> visited[v] == Dist(g, start, v)
  {
    forall v ensures v in visited <==> Reachable(g, start, v) && Dist(g, start, v) <= depth {
      if v in visited { Exact(g, start, b, v); }
      if Reachable(g, start, v) && Dist(g, start, v) <= depth { Covered(g, start, b, v, Dist(g, start, v)); }
    }
    forall v | v in visited ensures visited[v] == Dist(g, start, v) {
      Exact(g, start, b, v);
    }
  }

  ghost predicate TraversedInv(nodes: seq<SearchNode>, edges: seq<SearchEdge>, direction: Direction, depth: nat,
                               queue: seq<Id>, visited: map<Id, nat>, traversed: map<int, SearchEdge>) {
    && TableOf(edges, traversed)
    && forall e :: e in edges ==>
      (Marked(traversed, e) <==>
        exists u :: Expanded(depth, queue, visited, u) && Adjacent(nodes, edges, direction, u, e))
  }

  /** The traversal proper, over the filtered edges. */
  method Traverse(nodes: seq<SearchNode>, edges: seq<SearchEdge>, direction: Direction, start: Id, depth: nat,
                  adjacency: Adjacency, ghost g: Graph)
    returns (visited: map<Id, nat>, traversed: map<int, SearchEdge>)
    requires AdjacencyInv(nodes, edges, direction, adjacency) && UniqueIds(edges)
    requires IsSearchGraph(nodes, edges, direction, start, g)
    ensures forall v :: v in visited <==> Reachable(g, start, v) && Dist(g, start, v) <= depth
    ensures forall v :: v in visited ==> visited[v] == Dist(g, start, v)
    ensures TraversedInv(nodes, edges, direction, depth, [], visited, traversed)
  {
    visited := map[start := 0];
    traversed := map[];
    var queue := [start];
    ghost var b, stopped := Start(start), false;
    BeginTraverse(g, start, depth);
    while queue != []
      invariant TraverseInv(g, start, depth, queue, visited, b, stopped)
      invariant TraversedInv(nodes, edges, direction, depth, queue, visited, traversed)
      decreases if stopped then 0 else 1 + |g.ids| - |b.order|, |queue|
    {
      queue, visited, traversed, b, stopped :=
        TakeNext(nodes, edges, direction, start, depth, adjacency, g, queue, visited, traversed, b, stopped);
    }
    TraverseDone(g, start, depth, visited, b, stopped);
  }

  method TakeNext(nodes: seq<SearchNode>, ghost edges: seq<SearchEdge>, ghost direction: Direction, ghost start: Id,
                  depth: nat, adjacency: Adjacency, ghost g: Graph, queue0: seq<Id>, visited0: map<Id, nat>,
                  traversed0: map<int, SearchEdge>, ghost b0: Search, ghost stopped0: bool)
    returns (queue: seq<Id>, visited: map<Id, nat>, traversed: map<int, SearchEdge>, ghost b: Search,
      ghost stopped: bool)
    requires AdjacencyInv(nodes, edges, direction, adjacency) && UniqueIds(edges)
    requires IsSearchGraph(nodes, edges, direction, start, g) && queue0 != []
    requires TraverseInv(g, start, depth, queue0, visited0, b0, stopped0)
    requires TraversedInv(nodes, edges, direction, depth, queue0, visited0, traversed0)
    ensures TraverseInv(g, start, depth, queue, visited, b, stopped)
    ensures TraversedInv(nodes, edges, direction, depth, queue, visited, traversed)
    ensures stopped0 ==> stopped && |queue| < |queue0|
    ensures !stopped ==> |b0.order| < |g.ids| && |b.order| == |b0.order| + 1
    ensures !stopped0 ==> |b0.order| < |g.ids|
  {
    var current := queue0[0];
    queue, visited, traversed, b, stopped := queue0[1..], visited0, traversed0, b0, stopped0;
    if visited[current] >= depth {
      Skip(g, start, depth, queue0, visited0, b0, stopped0);
      if !stopped { b := b.Pop(g); stopped := true; }
      return;
    }
    queue, visited, traversed, b :=
      ExpandFirst(nodes, edges, direction, start, depth, adjacency, g, queue0, visited0, traversed0, b0, stopped0);
  }

  /** The first node of the queue lies above the depth limit and is expanded. */
  method ExpandFirst(nodes: seq<SearchNode>, ghost edges: seq<SearchEdge>, ghost direction: Direction, ghost start: Id,
                     ghost depth: nat, adjacency: Adjacency, ghost g: Graph, queue0: seq<Id>, visited0: map<Id, nat>,
                     traversed0: map<int, SearchEdge>, ghost b0: Search, ghost stopped: bool)
    returns (queue: seq<Id>, visited: map<Id, nat>, traversed: map<int, SearchEdge>, ghost b: Search)
    requires AdjacencyInv(nodes, edges, direction, adjacency) && UniqueIds(edges)
    requires IsSearchGraph(nodes, edges, direction, start, g) && queue0 != []
    requires TraverseInv(g, start, depth, queue0, visited0, b0, stopped) && visited0[queue0[0]] < depth
    requires TraversedInv(nodes, edges, direction, depth, queue0, visited0, traversed0)
    ensures TraverseInv(g, start, depth, queue, visited, b, false)
    ensures TraversedInv(nodes, edges, direction, depth, queue, visited, traversed)
    ensures !stopped && |b0.order| < |g.ids| && |b.order| == |b0.order| + 1
  {
    var current := queue0[0];
    Advance(g, start, depth, queue0, visited0, b0, stopped);
    var arcs := if current in adjacency then adjacency[current] else {};
    ArcsOf(nodes, edges, direction, start, adjacency, g, current, arcs);
    hide Search.Inv, AdjacencyInv, IsSearchGraph, TraverseInv, TraversedInv, Expanded, Marked, Seen, Adjacent, TableOf;
    var pending := queue0[1..];
    TableKept(nodes, edges, direction, depth, queue0, visited0, traversed0);
    queue, visited, traversed, b :=
      Expand(g, start, nodes, edges, arcs, current, b0.Pop(g), pending, visited0, traversed0);
    Grow(g, start, depth, queue0, visited0, b0, queue, visited, b);
    MarkedNext(nodes, edges, direction, depth, queue0, visited0, traversed0, queue, visited, traversed, current, arcs);
  }

  lemma TableKept(nodes: seq<SearchNode>, edges: seq<SearchEdge>, direction: Direction, depth: nat,
                  queue: seq<Id>, visited: map<Id, nat>, traversed: map<int, SearchEdge>)
    requires TraversedInv(nodes, edges, direction, depth, queue, visited, traversed)
    ensures TableOf(edges, traversed)
  {
  }

  lemma ArcsOf(nodes: seq<SearchNode>, edges: seq<SearchEdge>, direction: Direction, start: Id, adjacency: Adjacency,
               g: Graph, u: Id, arcs: set<(Id, SearchEdge)>)
    requires AdjacencyInv(nodes, edges, direction, adjacency) && IsSearchGraph(nodes, edges, direction, start, g)
    requires u in g.out && arcs == if u in adjacency then adjacency[u] else {}
    ensures g.Valid() && forall w :: w in g.out[u] <==> KnownNode(nodes, w) && exists e :: (w, e) in arcs
    ensures forall w, e :: (w, e) in arcs ==> e in edges
    ensures forall e :: e in edges ==> (Seen(nodes, arcs, e) <==> Adjacent(nodes, edges, direction, u, e))
  {
    forall w ensures w in g.out[u] <==> KnownNode(nodes, w) && exists e :: (w, e) in arcs {
      assert w in g.out[u] <==> g.Edge(u, w);
      if w in g.out[u] {
        var e :| e in edges && Arc(direction, u, w, e);
        assert (w, e) in arcs;
      }
    }
  }

  lemma MarkedNext(nodes: seq<SearchNode>, edges: seq<SearchEdge>, direction: Direction, depth: nat, queue: seq<Id>,
                   visited: map<Id, nat>, traversed: map<int, SearchEdge>, queue': seq<Id>, visited': map<Id, nat>,
                   traversed': map<int, SearchEdge>, u: Id, arcs: set<(Id, SearchEdge)>)
    requires TraversedInv(nodes, edges, direction, depth, queue, visited, traversed) && TableOf(edges, traversed')
    requires forall x :: Expanded(depth, queue', visited', x) <==> Expanded(depth, queue, visited, x) || x == u
    requires forall e :: e in edges ==> (Marked(traversed', e) <==> Marked(traversed, e) || Seen(nodes, arcs, e))
    requires forall e :: e in edges ==> (Seen(nodes, arcs, e) <==> Adjacent(nodes, edges, direction, u, e))
    ensures TraversedInv(nodes, edges, direction, depth, queue', visited', traversed')
  {
    hide Expanded, Adjacent, Marked, Seen, TableOf;
  }

  /** neighbors: looks up the root, filters, searches, and keeps the nodes that pass the node filters. */
  method Neighbors(nodes: seq<SearchNode>, allEdges: seq<SearchEdge>, entityId: Id, depth: nat, direction: Direction,
                   fold: string -> string, nodeTypes: set<string>, relationshipTypes: set<string>, minConfidence: real)
    returns (r: Result<Neighborhood>)
    requires UniqueIds(allEdges)
    ensures
      var edges := FilterEdges(allEdges, fold, Folded(fold, relationshipTypes), minConfidence);
      && (r == Err(NodeNotFound) <==> forall n :: n in nodes ==> n.entityId != entityId && n.internalId != entityId)
      && (r.Ok? ==> FindNode(nodes, entityId) == Ok(r.value.root))
      && (r.Ok? ==> forall e :: e in edges ==>
        && (direction == Incoming || exists n :: n in nodes && n.entityId == e.source)
        && (direction == Outgoing || exists n :: n in nodes && n.entityId == e.target))
      && (r == Err(DanglingEdge) ==>
        exists e ::
          && e in edges
          && ((direction != Incoming && forall n :: n in nodes ==> n.entityId != e.source)
            || (direction != Outgoing && forall n :: n in nodes ==> n.entityId != e.target)))
      && (r.Ok? ==> Surrounds(nodes, edges, direction, entityId, depth, fold, nodeTypes, minConfidence, r.value))
  {
    var types := Folded(fold, relationshipTypes);
    var edges := FilterEdges(allEdges, fold, types, minConfidence);
    ghost var g := SearchGraph(nodes, edges, direction, entityId);
    var root := FindNode(nodes, entityId);
    if root.Err? { return Err(NodeNotFound); }
    var adjacency := BuildAdjacency(nodes, edges, direction);
    if adjacency.Err? { return Err(DanglingEdge); }
    var visited, traversed := Traverse(nodes, edges, direction, entityId, depth, adjacency.value, g);
    var folded := Folded(fold, nodeTypes);
    VisitedKnown(nodes, edges, direction, entityId, g, visited);
    var found := map v | v in visited && v != entityId
      && Wanted(LastNode(nodes, v), fold, folded, minConfidence) :: visited[v];
    r := Ok(Neighborhood(root.value, visited, traversed, found));
  }

  /** The node table is a dict keyed by entity id, so the last node with an id wins. */
  function LastNode(nodes: seq<SearchNode>, v: Id): (n: SearchNode)
    requires KnownNode(nodes, v)
    ensures n in nodes && n.entityId == v
  {
    var last := nodes[|nodes| - 1];
    if last.entityId == v then last else LastNode(nodes[..|nodes| - 1], v)
  }

  predicate Wanted(n: SearchNode, fold: string -> string, types: set<string>, minConfidence: real) {
    n.confidence >= minConfidence && (types == {} || fold(n.nodeType) in types)
  }

  lemma VisitedKnown(nodes: seq<SearchNode>, edges: seq<SearchEdge>, direction: Direction, start: Id, g: Graph,
                     visited: map<Id, nat>)
    requires IsSearchGraph(nodes, edges, direction, start, g)
    requires forall v :: v in visited ==> Reachable(g, start, v)
    ensures forall v :: v in visited && v != start ==> KnownNode(nodes, v)
  {
    forall v | v in visited && v != start ensures KnownNode(nodes, v) {
      WalkInside(g, start, v, Dist(g, start, v));
    }
  }

  /** The declared answer: hop distances up to the limit, the edges met below it, the wanted nodes. */
  ghost predicate IsNeighborhood(nodes: seq<SearchNode>, edges: seq<SearchEdge>, direction: Direction, start: Id,
                                 depth: nat, fold: string -> string, nodeTypes: set<string>, minConfidence: real,
                                 g: Graph, n: Neighborhood) {
    && (forall v :: v in n.visited <==> Reachable(g, start, v) && Dist(g, start, v) <= depth)
    && (forall v :: v in n.visited ==> n.visited[v] == Dist(g, start, v))
    && TableOf(edges, n.traversed)
    && (forall e :: e in edges ==>
      (Marked(n.traversed, e) <==>
        exists u :: Reachable(g, start, u) && Dist(g, start, u) < depth && Adjacent(nodes, edges, direction, u, e)))
    && (forall v :: v in n.found <==>
      v in n.visited && v != start && KnownNode(nodes, v)
      && Wanted(LastNode(nodes, v), fold, Folded(fold, nodeTypes), minConfidence))
    && (forall v :: v in n.found ==> n.found[v] == n.visited[v])
  }

  /** The search only gets away from a start that is a node. */
  lemma LeavesKnown(nodes: seq<SearchNode>, edges: seq<SearchEdge>, direction: Direction, start: Id, g: Graph, v: Id)
    requires IsSearchGraph(nodes, edges, direction, start, g) && Reachable(g, start, v)
    ensures v == start || KnownNode(nodes, start)
  {
    var d := Dist(g, start, v);
    HasWalkZero(g, start, v);
    var p :| WalkFromTo(g, start, v, d, p);
    if d > 0 { assert g.Edge(p[0], p[0 + 1]); }
  }

  /** The declared answer on the graph that the nodes and edges make. */
  ghost predicate Surrounds(nodes: seq<SearchNode>, edges: seq<SearchEdge>, direction: Direction, start: Id, depth: nat,
                            fold: string -> string, nodeTypes: set<string>, minConfidence: real, n: Neighborhood) {
    IsNeighborhood(nodes, edges, direction, start, depth, fold, nodeTypes, minConfidence,
      SearchGraph(nodes, edges, direction, start), n)
  }

  /** A start that is no node's external id has nothing around it. */
  lemma InternalIdFindsNothing(nodes: seq<SearchNode>, edges: seq<SearchEdge>, direction: Direction, start: Id,
                               depth: nat, fold: string -> string, nodeTypes: set<string>, minConfidence: real,
                               g: Graph, n: Neighborhood)
    requires IsSearchGraph(nodes, edges, direction, start, g) && !KnownNode(nodes, start)
    requires IsNeighborhood(nodes, edges, direction, start, depth, fold, nodeTypes, minConfidence, g, n)
    ensures n.found == map[]
  {
    forall v ensures v !in n.found {
      if v in n.found { LeavesKnown(nodes, edges, direction, start, g, v); }
    }
  }

  // ---------------------------------------------------------------- the answer in terms of the snapshot

  /** What a caller asks for. */
  datatype Query = Query(direction: Direction, fold: string -> string, nodeTypes: set<string>,
    relationshipTypes: set<string>, minConfidence: real)

  /** Edge e leads from u to w in the direction asked for; its confidence suffices and its type, case folded, is asked
      for; both ends are nodes. */
  ghost predicate Leads(nodes: seq<SearchNode>, edges: seq<SearchEdge>, q: Query, u: Id, w: Id, e: SearchEdge) {
    && e in edges && e.confidence >= q.minConfidence
    && (q.relationshipTypes == {} || exists t :: t in q.relationshipTypes && q.fold(t) == q.fold(e.relationshipType))
    && (((q.direction == Outgoing || q.direction == Both) && e.source == u && e.target == w)
      || ((q.direction == Incoming || q.direction == Both) && e.source == w && e.target == u))
    && (exists n :: n in nodes && n.entityId == u) && exists n :: n in nodes && n.entityId == w
  }

  ghost predicate Hop(nodes: seq<SearchNode>, edges: seq<SearchEdge>, q: Query, u: Id, w: Id) {
    exists e :: Leads(nodes, edges, q, u, w, e)
  }

  ghost predicate Hops(nodes: seq<SearchNode>, edges: seq<SearchEdge>, q: Query, p: seq<Id>) {
    forall i :: 0 <= i < |p| - 1 ==> Hop(nodes, edges, q, p[i], p[i + 1])
  }

  /** v can be reached from a in k hops. */
  ghost predicate InHops(nodes: seq<SearchNode>, edges: seq<SearchEdge>, q: Query, a: Id, v: Id, k: nat) {
    exists p :: |p| == k + 1 && p[0] == a && p[k] == v && Hops(nodes, edges, q, p)
  }

  /** The node listed last under this id has the confidence and a type, case folded, that are asked for. */
  ghost predicate Displayed(nodes: seq<SearchNode>, q: Query, v: Id) {
    exists i :: 0 <= i < |nodes| && nodes[i].entityId == v && (forall j :: i < j < |nodes| ==> nodes[j].entityId != v)
      && nodes[i].confidence >= q.minConfidence
      && (q.nodeTypes == {} || exists t :: t in q.nodeTypes && q.fold(t) == q.fold(nodes[i].nodeType))
  }

  lemma FoldedHas(fold: string -> string, types: set<string>, s: string)
    ensures Folded(fold, types) == {} <==> types == {}
    ensures s in Folded(fold, types) <==> exists t :: t in types && fold(t) == s
  {
    if types != {} {
      var t :| t in types;
      assert fold(t) in Folded(fold, types);
    }
  }

  ghost function Kept(edges: seq<SearchEdge>, q: Query): seq<SearchEdge> {
    FilterEdges(edges, q.fold, Folded(q.fold, q.relationshipTypes), q.minConfidence)
  }

  lemma KeptLeads(nodes: seq<SearchNode>, edges: seq<SearchEdge>, q: Query, u: Id, w: Id, e: SearchEdge)
    ensures Leads(nodes, edges, q, u, w, e) <==>
      e in Kept(edges, q) && Arc(q.direction, u, w, e) && KnownNode(nodes, u) && KnownNode(nodes, w)
  {
    FoldedHas(q.fold, q.relationshipTypes, q.fold(e.relationshipType));
  }

  lemma SearchEdgeLeads(nodes: seq<SearchNode>, edges: seq<SearchEdge>, q: Query, a: Id, g: Graph, u: Id, w: Id)
    requires IsSearchGraph(nodes, Kept(edges, q), q.direction, a, g)
    ensures g.Edge(u, w) <==> Hop(nodes, edges, q, u, w)
  {
    forall e ensures Leads(nodes, edges, q, u, w, e) <==>
      e in Kept(edges, q) && Arc(q.direction, u, w, e) && KnownNode(nodes, u) && KnownNode(nodes, w)
    {
      KeptLeads(nodes, edges, q, u, w, e);
    }
    hide Leads, Arc, KnownNode, Kept;
    if g.Edge(u, w) { var e :| e in Kept(edges, q) && Arc(q.direction, u, w, e); }
  }

  lemma WalksAreHops(nodes: seq<SearchNode>, edges: seq<SearchEdge>, q: Query, a: Id, g: Graph, v: Id, k: nat)
    requires IsSearchGraph(nodes, Kept(edges, q), q.direction, a, g)
    ensures HasWalk(g, a, v, k) <==> InHops(nodes, edges, q, a, v, k)
  {
    forall u, w ensures g.Edge(u, w) <==> Hop(nodes, edges, q, u, w) {
      SearchEdgeLeads(nodes, edges, q, a, g, u, w);
    }
    hide Hop, IsSearchGraph, Graph.Edge;
    if HasWalk(g, a, v, k) {
      var p :| WalkFromTo(g, a, v, k, p);
      assert Hops(nodes, edges, q, p);
    }
    if InHops(nodes, edges, q, a, v, k) {
      var p :| |p| == k + 1 && p[0] == a && p[k] == v && Hops(nodes, edges, q, p);
      assert WalkFromTo(g, a, v, k, p);
    }
  }

  lemma {:induction false} LastNodeAt(nodes: seq<SearchNode>, v: Id, i: nat)
    requires i < |nodes| && nodes[i].entityId == v && forall j :: i < j < |nodes| ==> nodes[j].entityId != v
    ensures KnownNode(nodes, v) && LastNode(nodes, v) == nodes[i]
  {
    assert nodes[i] in nodes;
    if i < |nodes| - 1 { LastNodeAt(nodes[..|nodes| - 1], v, i); }
  }

  lemma {:induction false} LastPosition(nodes: seq<SearchNode>, v: Id) returns (i: nat)
    requires KnownNode(nodes, v)
    ensures i < |nodes| && nodes[i].entityId == v && forall j :: i < j < |nodes| ==> nodes[j].entityId != v
  {
    i := |nodes| - 1;
    if nodes[i].entityId != v { i := LastPosition(nodes[..i], v); }
  }

  lemma DisplayedShown(nodes: seq<SearchNode>, q: Query, v: Id)
    ensures Displayed(nodes, q, v) <==> Shown(nodes, v, q.fold, q.nodeTypes, q.minConfidence)
  {
    hide LastNode, KnownNode;
    if Displayed(nodes, q, v) {
      var i :| 0 <= i < |nodes| && nodes[i].entityId == v && (forall j :: i < j < |nodes| ==> nodes[j].entityId != v)
        && nodes[i].confidence >= q.minConfidence
        && (q.nodeTypes == {} || exists t :: t in q.nodeTypes && q.fold(t) == q.fold(nodes[i].nodeType));
      LastNodeAt(nodes, v, i);
      FoldedHas(q.fold, q.nodeTypes, q.fold(nodes[i].nodeType));
    }
    if Shown(nodes, v, q.fold, q.nodeTypes, q.minConfidence) {
      var i := LastPosition(nodes, v);
      LastNodeAt(nodes, v, i);
      FoldedHas(q.fold, q.nodeTypes, q.fold(nodes[i].nodeType));
    }
  }

  /** The items: exactly the displayed nodes other than the argument that hops lead to, each with the least number of
      hops, and no more of them than the depth. */
  lemma ItemsMeaning(nodes: seq<SearchNode>, edges: seq<SearchEdge>, q: Query, a: Id, depth: nat, n: Neighborhood,
                     v: Id, d: nat)
    requires Surrounds(nodes, Kept(edges, q), q.direction, a, depth, q.fold, q.nodeTypes, q.minConfidence, n)
    ensures v in n.found && n.found[v] == d <==>
      && v != a && d <= depth && Displayed(nodes, q, v)
      && InHops(nodes, edges, q, a, v, d) && forall k: nat :: k < d ==> !InHops(nodes, edges, q, a, v, k)
  {
    var g := SearchGraph(nodes, Kept(edges, q), q.direction, a);
    forall k: nat ensures HasWalk(g, a, v, k) <==> InHops(nodes, edges, q, a, v, k) {
      WalksAreHops(nodes, edges, q, a, g, v, k);
    }
    DisplayedShown(nodes, q, v);
    hide HasWalk, InHops, Displayed, Wanted, LastNode, KnownNode, TableOf, Marked, Adjacent, Kept, Folded,
      IsSearchGraph;
    DistIs(g, a, v, d);
    hide Reachable, Dist;
  }

  lemma DistIs(g: Graph, a: Id, v: Id, d: nat)
    ensures Reachable(g, a, v) && Dist(g, a, v) == d <==>
      HasWalk(g, a, v, d) && forall k: nat :: k < d ==> !HasWalk(g, a, v, k)
  {
    hide HasWalk;
  }

  /** The traversed edges: exactly those that lead onward from a node fewer hops away than the depth. */
  lemma EdgesMeaning(nodes: seq<SearchNode>, edges: seq<SearchEdge>, q: Query, a: Id, depth: nat, n: Neighborhood,
                     e: SearchEdge)
    requires Surrounds(nodes, Kept(edges, q), q.direction, a, depth, q.fold, q.nodeTypes, q.minConfidence, n)
    ensures e.edgeId in n.traversed && n.traversed[e.edgeId] == e <==>
      exists u, w, k: nat :: k < depth && InHops(nodes, edges, q, a, u, k) && Leads(nodes, edges, q, u, w, e)
  {
    var g := SearchGraph(nodes, Kept(edges, q), q.direction, a);
    forall u, k: nat ensures HasWalk(g, a, u, k) <==> InHops(nodes, edges, q, a, u, k) {
      WalksAreHops(nodes, edges, q, a, g, u, k);
    }
    forall u, w ensures Leads(nodes, edges, q, u, w, e) <==>
      e in Kept(edges, q) && Arc(q.direction, u, w, e) && KnownNode(nodes, u) && KnownNode(nodes, w)
    {
      KeptLeads(nodes, edges, q, u, w, e);
    }
    hide HasWalk, InHops, Leads, Arc, KnownNode, Kept, IsSearchGraph;
    if Marked(n.traversed, e) {
      assert e in Kept(edges, q);
      var u :| Reachable(g, a, u) && Dist(g, a, u) < depth && Adjacent(nodes, Kept(edges, q), q.direction, u, e);
      var w :| KnownNode(nodes, w) && Arc(q.direction, u, w, e);
      assert InHops(nodes, edges, q, a, u, Dist(g, a, u)) && Leads(nodes, edges, q, u, w, e);
    }
    if u, w, k: nat :| k < depth && InHops(nodes, edges, q, a, u, k) && Leads(nodes, edges, q, u, w, e) {
      assert HasWalk(g, a, u, k);
      assert Adjacent(nodes, Kept(edges, q), q.direction, u, e);
    }
  }

  lemma DistanceZero(g: Graph, s: Id, t: Id)
    requires s in g.ids && Reachable(g, s, t)
    ensures Reachable(g, s, s) && (Dist(g, s, t) == 0 <==> s == t)
  {
    HasWalkZero(g, s, t);
    HasWalkZero(g, s, s);
    if s == t { assert HasWalk(g, s, t, 0); }
  }

  /** What a call returns around its root: the items and the edges. */
  ghost predicate SameAnswer(n: Neighborhood, m: Neighborhood) {
    n.found == m.found && n.traversed == m.traversed
  }

  ghost predicate NothingAdjacent(nodes: seq<SearchNode>, edges: seq<SearchEdge>, direction: Direction, a: Id) {
    forall e :: !Adjacent(nodes, edges, direction, a, e)
  }

  /** The node table knows the id and its node passes the node filters. */
  ghost predicate Shown(nodes: seq<SearchNode>, a: Id, fold: string -> string, nodeTypes: set<string>,
                        minConfidence: real) {
    KnownNode(nodes, a) && Wanted(LastNode(nodes, a), fold, Folded(fold, nodeTypes), minConfidence)
  }

  /** The declared answer leaves no choice. */
  lemma AnswerUnique(nodes: seq<SearchNode>, edges: seq<SearchEdge>, direction: Direction, a: Id, depth: nat,
                     fold: string -> string, nodeTypes: set<string>, minConfidence: real, n: Neighborhood,
                     m: Neighborhood)
    requires Surrounds(nodes, edges, direction, a, depth, fold, nodeTypes, minConfidence, n)
    requires Surrounds(nodes, edges, direction, a, depth, fold, nodeTypes, minConfidence, m)
    ensures SameAnswer(n, m)
  {
    SameEdges(edges, n.traversed, m.traversed);
  }

  lemma SameEdges(edges: seq<SearchEdge>, t: map<int, SearchEdge>, t': map<int, SearchEdge>)
    requires TableOf(edges, t) && TableOf(edges, t')
    requires forall e :: e in edges ==> (Marked(t, e) <==> Marked(t', e))
    ensures t == t'
  {
    forall id | id in t ensures id in t' && t'[id] == t[id] { assert Marked(t, t[id]); }
    forall id | id in t' ensures id in t && t[id] == t'[id] { assert Marked(t', t'[id]); }
  }

  /** Nothing is returned around a seed that nothing is adjacent to, or at depth zero; otherwise its edges are. */
  lemma AroundSeed(nodes: seq<SearchNode>, edges: seq<SearchEdge>, direction: Direction, a: Id, depth: nat,
                   fold: string -> string, nodeTypes: set<string>, minConfidence: real, n: Neighborhood)
    requires Surrounds(nodes, edges, direction, a, depth, fold, nodeTypes, minConfidence, n)
    ensures depth == 0 || NothingAdjacent(nodes, edges, direction, a) ==> n.found == map[] && n.traversed == map[]
    ensures depth > 0 ==> forall e :: Adjacent(nodes, edges, direction, a, e) ==> Marked(n.traversed, e)
  {
    var g := SearchGraph(nodes, edges, direction, a);
    HasWalkZero(g, a, a);
    DistanceZero(g, a, a);
    if depth == 0 || NothingAdjacent(nodes, edges, direction, a) {
      forall v ensures v in n.visited ==> v == a {
        if v in n.visited && depth == 0 { DistanceZero(g, a, v); }
        if v in n.visited && depth > 0 { LeavesAdjacent(nodes, edges, direction, a, g, v); }
      }
      forall id ensures id !in n.traversed {
        if id in n.traversed { MarkedFrom(nodes, edges, direction, a, depth, fold, nodeTypes, minConfidence, n,
          n.traversed[id]); }
      }
    }
  }

  lemma LeavesAdjacent(nodes: seq<SearchNode>, edges: seq<SearchEdge>, direction: Direction, a: Id, g: Graph, v: Id)
    requires IsSearchGraph(nodes, edges, direction, a, g) && Reachable(g, a, v)
    ensures v == a || exists e :: Adjacent(nodes, edges, direction, a, e)
  {
    var d := Dist(g, a, v);
    HasWalkZero(g, a, v);
    var p :| WalkFromTo(g, a, v, d, p);
    if d > 0 {
      assert g.Edge(p[0], p[0 + 1]) && HasArc(edges, direction, a, p[1]);
      var e :| e in edges && Arc(direction, a, p[1], e);
      assert Adjacent(nodes, edges, direction, a, e);
    }
  }

  /** A returned edge is adjacent to a visited node below the depth limit. */
  lemma MarkedFrom(nodes: seq<SearchNode>, edges: seq<SearchEdge>, direction: Direction, a: Id, depth: nat,
                   fold: string -> string, nodeTypes: set<string>, minConfidence: real, n: Neighborhood, e: SearchEdge)
    requires Surrounds(nodes, edges, direction, a, depth, fold, nodeTypes, minConfidence, n)
    requires e.edgeId in n.traversed && n.traversed[e.edgeId] == e
    ensures exists u :: u in n.visited && n.visited[u] < depth && Adjacent(nodes, edges, direction, u, e)
  {
    var g := SearchGraph(nodes, edges, direction, a);
    assert Marked(n.traversed, e) && e in edges;
    var u :| Reachable(g, a, u) && Dist(g, a, u) < depth && Adjacent(nodes, edges, direction, u, e);
    assert u in n.visited;
  }

  /** An edge that is adjacent to two nodes leads from the one to the other. */
  lemma SharedEdge(nodes: seq<SearchNode>, edges: seq<SearchEdge>, direction: Direction, u: Id, a: Id, e: SearchEdge)
    requires Adjacent(nodes, edges, direction, u, e) && Adjacent(nodes, edges, direction, a, e) && u != a
    ensures KnownNode(nodes, u) && KnownNode(nodes, a) && HasArc(edges, direction, u, a)
  {
    var x :| KnownNode(nodes, x) && Arc(direction, u, x, e);
    var y :| KnownNode(nodes, y) && Arc(direction, a, y, e);
    assert Arc(direction, u, a, e);
  }

  lemma OneFarther(g: Graph, s: Id, u: Id, a: Id)
    requires g.Valid() && Reachable(g, s, u) && g.Edge(u, a)
    ensures Reachable(g, s, a) && Dist(g, s, a) <= Dist(g, s, u) + 1
  {
    WalkSnoc(g, s, u, a, Dist(g, s, u));
  }

  /** Whoever shares an edge with a visited node below the limit is visited. */
  lemma SharedVisited(nodes: seq<SearchNode>, edges: seq<SearchEdge>, direction: Direction, b: Id, depth: nat,
                      fold: string -> string, nodeTypes: set<string>, minConfidence: real, m: Neighborhood, a: Id,
                      e: SearchEdge)
    requires Surrounds(nodes, edges, direction, b, depth, fold, nodeTypes, minConfidence, m)
    requires e.edgeId in m.traversed && m.traversed[e.edgeId] == e && Adjacent(nodes, edges, direction, a, e)
    ensures a in m.visited
  {
    var g := SearchGraph(nodes, edges, direction, b);
    MarkedFrom(nodes, edges, direction, b, depth, fold, nodeTypes, minConfidence, m, e);
    var u :| u in m.visited && m.visited[u] < depth && Adjacent(nodes, edges, direction, u, e);
    if u != a {
      SharedEdge(nodes, edges, direction, u, a, e);
      assert g.Edge(u, a);
      OneFarther(g, b, u, a);
    }
  }

  /** Two different seeds can only get the same answer if nothing is adjacent to the one that passes the filters:
      an edge it shares with the other search makes it an item there, and it is never an item of its own. */
  lemma ShownTells(nodes: seq<SearchNode>, edges: seq<SearchEdge>, direction: Direction, a: Id, b: Id, depth: nat,
                   fold: string -> string, nodeTypes: set<string>, minConfidence: real, n: Neighborhood,
                   m: Neighborhood)
    requires a != b && depth > 0 && Shown(nodes, a, fold, nodeTypes, minConfidence) && SameAnswer(n, m)
    requires Surrounds(nodes, edges, direction, a, depth, fold, nodeTypes, minConfidence, n)
    requires Surrounds(nodes, edges, direction, b, depth, fold, nodeTypes, minConfidence, m)
    ensures NothingAdjacent(nodes, edges, direction, a)
  {
    AroundSeed(nodes, edges, direction, a, depth, fold, nodeTypes, minConfidence, n);
    forall e ensures !Adjacent(nodes, edges, direction, a, e) {
      if Adjacent(nodes, edges, direction, a, e) {
        SharedVisited(nodes, edges, direction, b, depth, fold, nodeTypes, minConfidence, m, a, e);
        FoundOthers(nodes, edges, direction, a, b, depth, fold, nodeTypes, minConfidence, n, m);
      }
    }
  }

  lemma FoundOthers(nodes: seq<SearchNode>, edges: seq<SearchEdge>, direction: Direction, a: Id, b: Id, depth: nat,
                    fold: string -> string, nodeTypes: set<string>, minConfidence: real, n: Neighborhood,
                    m: Neighborhood)
    requires a != b && Shown(nodes, a, fold, nodeTypes, minConfidence)
    requires Surrounds(nodes, edges, direction, a, depth, fold, nodeTypes, minConfidence, n)
    requires Surrounds(nodes, edges, direction, b, depth, fold, nodeTypes, minConfidence, m)
    ensures a !in n.found && (a in m.found <==> a in m.visited)
  {
  }

  lemma UnknownAlone(nodes: seq<SearchNode>, edges: seq<SearchEdge>, direction: Direction, a: Id)
    requires !KnownNode(nodes, a)
    ensures NothingAdjacent(nodes, edges, direction, a)
  {
  }

  /** n is what the call returns, seeded with its argument; m is the answer around the root it looked up. They agree
      when the argument is the root's external id. Otherwise, as long as the argument is no node's external id or one
      of the two nodes passes the node filters, they agree exactly when there is nothing to return: depth zero, or no
      edge adjacent to either. */
  lemma AnswersForRoot(nodes: seq<SearchNode>, edges: seq<SearchEdge>, direction: Direction, entityId: Id, depth: nat,
                       fold: string -> string, nodeTypes: set<string>, minConfidence: real, n: Neighborhood,
                       m: Neighborhood)
    requires FindNode(nodes, entityId) == Ok(n.root)
    requires Surrounds(nodes, edges, direction, entityId, depth, fold, nodeTypes, minConfidence, n)
    requires Surrounds(nodes, edges, direction, n.root.entityId, depth, fold, nodeTypes, minConfidence, m)
    ensures n.root.entityId == entityId ==> SameAnswer(n, m)
    ensures
      NothingAdjacent(nodes, edges, direction, n.root.entityId)
        && NothingAdjacent(nodes, edges, direction, entityId) ==>
      SameAnswer(n, m)
    ensures
      n.root.entityId != entityId
      && (!KnownNode(nodes, entityId) || Shown(nodes, entityId, fold, nodeTypes, minConfidence)
          || Shown(nodes, n.root.entityId, fold, nodeTypes, minConfidence)) ==>
      (SameAnswer(n, m) <==>
        depth == 0
        || (NothingAdjacent(nodes, edges, direction, n.root.entityId)
          && NothingAdjacent(nodes, edges, direction, entityId)))
  {
    var root := n.root.entityId;
    hide Surrounds, Shown, NothingAdjacent, KnownNode, FindNode;
    if root == entityId {
      AnswerUnique(nodes, edges, direction, entityId, depth, fold, nodeTypes, minConfidence, n, m);
    } else {
      DifferentSeeds(nodes, edges, direction, entityId, root, depth, fold, nodeTypes, minConfidence, n, m);
    }
  }

  lemma DifferentSeeds(nodes: seq<SearchNode>, edges: seq<SearchEdge>, direction: Direction, a: Id, b: Id, depth: nat,
                       fold: string -> string, nodeTypes: set<string>, minConfidence: real, n: Neighborhood,
                       m: Neighborhood)
    requires a != b
    requires Surrounds(nodes, edges, direction, a, depth, fold, nodeTypes, minConfidence, n)
    requires Surrounds(nodes, edges, direction, b, depth, fold, nodeTypes, minConfidence, m)
    ensures depth == 0 ==> SameAnswer(n, m)
    ensures NothingAdjacent(nodes, edges, direction, a) && NothingAdjacent(nodes, edges, direction, b) ==>
      SameAnswer(n, m)
    ensures
      SameAnswer(n, m) && depth > 0
      && (!KnownNode(nodes, a) || Shown(nodes, a, fold, nodeTypes, minConfidence)
          || Shown(nodes, b, fold, nodeTypes, minConfidence)) ==>
      NothingAdjacent(nodes, edges, direction, a) && NothingAdjacent(nodes, edges, direction, b)
  {
    hide Surrounds, Shown, KnownNode;
    AroundSeed(nodes, edges, direction, a, depth, fold, nodeTypes, minConfidence, n);
    AroundSeed(nodes, edges, direction, b, depth, fold, nodeTypes, minConfidence, m);
    if SameAnswer(n, m) && depth > 0 {
      if !KnownNode(nodes, a) { UnknownAlone(nodes, edges, direction, a); }
      if Shown(nodes, a, fold, nodeTypes, minConfidence) {
        ShownTells(nodes, edges, direction, a, b, depth, fold, nodeTypes, minConfidence, n, m);
      }
      if Shown(nodes, b, fold, nodeTypes, minConfidence) {
        ShownTells(nodes, edges, direction, b, a, depth, fold, nodeTypes, minConfidence, m, n);
      }
      hide Adjacent;
    }
  }

  lemma OneHop(g: Graph, u: Id, w: Id)
    requires g.Valid() && g.Edge(u, w) && u != w
    ensures Reachable(g, u, w) && Dist(g, u, w) == 1
  {
    HasWalkZero(g, u, u);
    WalkSnoc(g, u, u, w, 0);
    DistanceZero(g, u, w);
    assert HasWalk(g, u, w, 1);
  }

  /** Two nodes and one edge a -> b, asked for through `id`, the internal id of a. If id is also the external id of b
      (or of no node), the node found is a, but nothing is found around it, although b is one hop away. */
  lemma RootMissed(a: Id, b: Id, id: Id, other: Id, kind: string, depth: nat, fold: string -> string, n: Neighborhood,
                   m: Neighborhood)
    requires a != b && id != a && depth >= 1
    requires
      var nodes, edges := TwoNodes(a, b, id, other, kind), OneEdge(a, b, kind);
      && Surrounds(nodes, edges, Outgoing, id, depth, fold, {}, 0.0, n)
      && Surrounds(nodes, edges, Outgoing, a, depth, fold, {}, 0.0, m)
    ensures FindNode(TwoNodes(a, b, id, other, kind), id) == Ok(SearchNode(a, id, kind, 1.0))
    ensures n.found == map[] && b in m.found
  {
    var nodes, edges := TwoNodes(a, b, id, other, kind), OneEdge(a, b, kind);
    assert nodes[0] in nodes && nodes[1] in nodes && edges[0] in edges;
    assert HasArc(edges, Outgoing, a, b) && forall w :: !HasArc(edges, Outgoing, id, w);
    hide Surrounds;
    RootReaches(nodes, edges, a, b, depth, fold, m);
    SeedStaysAlone(nodes, edges, id, depth, fold, n);
  }

  function TwoNodes(a: Id, b: Id, id: Id, other: Id, kind: string): seq<SearchNode> {
    [SearchNode(a, id, kind, 1.0), SearchNode(b, other, kind, 1.0)]
  }

  function OneEdge(a: Id, b: Id, kind: string): seq<SearchEdge> {
    [SearchEdge(1, a, b, kind, 1.0)]
  }

  lemma RootReaches(nodes: seq<SearchNode>, edges: seq<SearchEdge>, a: Id, b: Id, depth: nat, fold: string -> string,
                    m: Neighborhood)
    requires a != b && depth >= 1 && KnownNode(nodes, a) && KnownNode(nodes, b) && HasArc(edges, Outgoing, a, b)
    requires forall n :: n in nodes ==> n.confidence >= 0.0
    requires Surrounds(nodes, edges, Outgoing, a, depth, fold, {}, 0.0, m)
    ensures b in m.found
  {
    var g := SearchGraph(nodes, edges, Outgoing, a);
    assert g.Edge(a, b);
    OneHop(g, a, b);
    assert LastNode(nodes, b) in nodes;
    assert Folded(fold, {}) == {};
  }

  lemma SeedStaysAlone(nodes: seq<SearchNode>, edges: seq<SearchEdge>, id: Id, depth: nat, fold: string -> string,
                       n: Neighborhood)
    requires forall w :: !HasArc(edges, Outgoing, id, w)
    requires Surrounds(nodes, edges, Outgoing, id, depth, fold, {}, 0.0, n)
    ensures n.found == map[]
  {
    var g := SearchGraph(nodes, edges, Outgoing, id);
    forall v ensures v !in n.found {
      if v in n.found { LeavesByArc(nodes, edges, Outgoing, id, g, v); }
    }
  }

  lemma LeavesByArc(nodes: seq<SearchNode>, edges: seq<SearchEdge>, direction: Direction, start: Id, g: Graph, v: Id)
    requires IsSearchGraph(nodes, edges, direction, start, g) && Reachable(g, start, v)
    ensures v == start || exists w :: HasArc(edges, direction, start, w)
  {
    var d := Dist(g, start, v);
    HasWalkZero(g, start, v);
    var p :| WalkFromTo(g, start, v, d, p);
    if d > 0 { assert g.Edge(p[0], p[0 + 1]) && HasArc(edges, direction, start, p[1]); }
  }

  /** The filters matter: two joined nodes of a type that is not asked for. The argument is the external id of the one
      and the internal id of the other, and both searches return the edge between them and no items. */
  lemma FilteredTwinsAgree(a: Id, b: Id, other: Id, kind: string, wanted: string, depth: nat, fold: string -> string,
                           n: Neighborhood, m: Neighborhood)
    requires a != b && depth >= 1 && fold(kind) != fold(wanted)
    requires
      var nodes, edges := TwoNodes(a, b, b, other, kind), OneEdge(a, b, kind);
      && Surrounds(nodes, edges, Both, b, depth, fold, {wanted}, 0.0, n)
      && Surrounds(nodes, edges, Both, a, depth, fold, {wanted}, 0.0, m)
    ensures FindNode(TwoNodes(a, b, b, other, kind), b) == Ok(SearchNode(a, b, kind, 1.0))
    ensures SameAnswer(n, m) && n.found == map[] && n.traversed == map[1 := SearchEdge(1, a, b, kind, 1.0)]
  {
    var nodes, edges := TwoNodes(a, b, b, other, kind), OneEdge(a, b, kind);
    var e := edges[0];
    assert nodes[0] in nodes && nodes[1] in nodes && e in edges;
    assert Arc(Both, a, b, e) && Arc(Both, b, a, e);
    assert Adjacent(nodes, edges, Both, a, e) && Adjacent(nodes, edges, Both, b, e);
    hide Surrounds;
    OnlyEdge(nodes, edges, b, e, kind, wanted, depth, fold, n);
    OnlyEdge(nodes, edges, a, e, kind, wanted, depth, fold, m);
  }

  lemma OnlyEdge(nodes: seq<SearchNode>, edges: seq<SearchEdge>, a: Id, e: SearchEdge, kind: string, wanted: string,
                 depth: nat, fold: string -> string, n: Neighborhood)
    requires depth >= 1 && edges == [e] && Adjacent(nodes, edges, Both, a, e)
    requires fold(kind) != fold(wanted) && forall x :: x in nodes ==> x.nodeType == kind
    requires Surrounds(nodes, edges, Both, a, depth, fold, {wanted}, 0.0, n)
    ensures n.found == map[] && n.traversed == map[e.edgeId := e]
  {
    AroundSeed(nodes, edges, Both, a, depth, fold, {wanted}, 0.0, n);
    OnlyMarked(edges, e, n.traversed);
    assert wanted in {wanted};
    assert Folded(fold, {wanted}) == {fold(wanted)};
    forall v ensures v !in n.found {
      if KnownNode(nodes, v) { assert LastNode(nodes, v) in nodes; }
    }
  }

  lemma OnlyMarked(edges: seq<SearchEdge>, e: SearchEdge, traversed: map<int, SearchEdge>)
    requires edges == [e] && TableOf(edges, traversed) && Marked(traversed, e)
    ensures traversed == map[e.edgeId := e]
  {
    forall id | id in traversed ensures id == e.edgeId && traversed[id] == e {
      assert traversed[id] in edges;
    }
  }

  // ---------------------------------------------------------------- paging

  function Upto<T>(items: seq<T>, k: nat): nat {
    if k <= |items| then k else |items|
  }

  /** A slice past the end is cut short, as Python cuts it. */
  function Page<T>(items: seq<T>, page: nat, size: nat): seq<T>
    requires page >= 1
  {
    items[Upto(items, (page - 1) * size)..Upto(items, (page - 1) * size + size)]
  }

  function FirstPages<T>(items: seq<T>, n: nat, size: nat): seq<T> {
    if n == 0 then [] else FirstPages(items, n - 1, size) + Page(items, n, size)
  }

  lemma PageExtends<T>(items: seq<T>, before: nat, size: nat)
    ensures items[..Upto(items, before)] + items[Upto(items, before)..Upto(items, before + size)] ==
      items[..Upto(items, before + size)]
  {
  }

  /** Reading pages one after the other gives the list: nothing is skipped, repeated or reordered. */
  lemma {:induction false} PagesCover<T>(items: seq<T>, n: nat, size: nat)
    ensures FirstPages(items, n, size) == items[..Upto(items, n * size)]
    ensures |items| <= n * size ==> FirstPages(items, n, size) == items
  {
    if n != 0 {
      PagesCover(items, n - 1, size);
      var before := (n - 1) * size;
      assert before + size == n * size;
      PageExtends(items, before, size);
    }
  }
}
