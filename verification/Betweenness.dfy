/** Betweenness centrality as the engine computes it: one search and one backward sweep a source. */
module Betweenness {
  import opened Sums
  import opened Graphs
  import opened Distances
  import opened Brandes

  ghost function PathBase(s: Id, v: Id): real {
    if v == s then 1.0 else 0.0
  }

  /** During the search, predecessors[v] lists the scanned vertices one step closer to the source. */
  ghost predicate PredecessorsInv(g: Graph, b: Search, predecessors: map<Id, seq<Id>>) {
    forall v :: v in g.ids ==>
      && v in predecessors && Distinct(predecessors[v])
      && forall u :: u in predecessors[v] <==> IsPredecessor(g, b, u, v)
  }

  ghost predicate IsPredecessor(g: Graph, b: Search, u: Id, v: Id) {
    b.Scanned(g, u, v) && u in b.dist && v in b.dist && b.dist[u] + 1 == b.dist[v]
  }

  ghost predicate PathsInv(g: Graph, s: Id, predecessors: map<Id, seq<Id>>, paths: map<Id, real>) {
    forall v :: v in g.ids ==>
      && v in predecessors && v in paths
      && paths[v] == PathBase(s, v) + Sum(predecessors[v], u => Sigma(g, s, u))
  }

  ghost predicate DistanceInv(g: Graph, b: Search, distance: map<Id, int>) {
    forall v :: v in g.ids ==> v in distance && distance[v] == if v in b.dist then b.dist[v] else -1
  }

  /** The number of shortest paths to v is the sum over its shortest-path predecessors. */
  lemma SigmaStep(g: Graph, s: Id, v: Id, parents: seq<Id>)
    requires g.Valid() && Reachable(g, s, v) && Distinct(parents)
    requires forall u :: u in parents <==> DagEdge(g, s, u, v)
    ensures Sigma(g, s, v) == PathBase(s, v) + Sum(parents, u => Sigma(g, s, u))
  {
    hide Count, Sigma;
    SigmaCount(g, s, v);
    HasWalkZero(g, s, v);
    if v == s {
      CountZero(g, s, s);
      HeadIn(parents);
    } else {
      var d := Dist(g, s, v) - 1;
      var f := u => if g.Edge(u, v) then Count(g, s, u, d) else 0.0;
      CountLastEdge(g, s, v, d, f);
      forall u ensures f(u) == if DagEdge(g, s, u, v) then Sigma(g, s, u) else 0.0 {
        SigmaCount(g, s, u);
        CountPositive(g, s, u, d);
        if g.Edge(u, v) && HasWalk(g, s, u, d) { WalkSnoc(g, s, u, v, Dist(g, s, u)); }
      }
      SumSupport(g.ids, parents, f, u => Sigma(g, s, u));
    }
  }

  lemma PredecessorsExact(g: Graph, s: Id, b: Search, predecessors: map<Id, seq<Id>>, v: Id)
    requires g.Valid() && b.Inv(g, s) && v in g.ids && v in b.dist && b.dist[v] <= b.level
    requires PredecessorsInv(g, b, predecessors)
    ensures forall u :: u in predecessors[v] <==> DagEdge(g, s, u, v)
  {
    Exact(g, s, b, v);
    forall u ensures u in predecessors[v] <==> DagEdge(g, s, u, v) {
      if u in predecessors[v] { Exact(g, s, b, u); }
      if DagEdge(g, s, u, v) {
        Covered(g, s, b, u, Dist(g, s, u));
        Exact(g, s, b, u);
      }
    }
  }

  /** Once v is taken from the queue all its predecessors are scanned, so its count is final. */
  lemma PathsFinal(g: Graph, s: Id, b: Search, predecessors: map<Id, seq<Id>>, paths: map<Id, real>, v: Id)
    requires g.Valid() && b.Inv(g, s) && v in g.ids && v in b.dist && b.dist[v] <= b.level
    requires PredecessorsInv(g, b, predecessors) && PathsInv(g, s, predecessors, paths)
    ensures paths[v] == Sigma(g, s, v)
  {
    Exact(g, s, b, v);
    PredecessorsExact(g, s, b, predecessors, v);
    SigmaStep(g, s, v, predecessors[v]);
  }

  lemma PredecessorsPop(g: Graph, s: Id, b: Search, predecessors: map<Id, seq<Id>>)
    requires g.Valid() && b.Inv(g, s) && b.todo == {} && b.queue != []
    requires b.queue[0] in b.dist && b.queue[0] in g.out
    requires PredecessorsInv(g, b, predecessors)
    ensures PredecessorsInv(g, b.Pop(g), predecessors)
  {
    var c := b.Pop(g);
    forall u, v ensures IsPredecessor(g, c, u, v) <==> IsPredecessor(g, b, u, v) {
      assert b.queue[0] in b.queue;
    }
  }

  ghost function Record(b: Search, predecessors: map<Id, seq<Id>>, target: Id): map<Id, seq<Id>>
    requires target in predecessors && target in b.Scan(target).dist
  {
    if b.Scan(target).dist[target] == b.level + 1 then predecessors[target := predecessors[target] + [b.node]]
      else predecessors
  }

  lemma PredecessorsScan(g: Graph, s: Id, b: Search, predecessors: map<Id, seq<Id>>, target: Id)
    requires g.Valid() && b.Inv(g, s) && target in b.todo && target in g.ids
    requires PredecessorsInv(g, b, predecessors)
    ensures PredecessorsInv(g, b.Scan(target), Record(b, predecessors, target))
  {
    var c := b.Scan(target);
    forall u, v ensures IsPredecessor(g, c, u, v) <==>
      IsPredecessor(g, b, u, v) || (u == b.node && v == target && c.dist[target] == b.level + 1)
    {
      if c.Scanned(g, u, v) && !b.Scanned(g, u, v) { assert u == b.node && v == target; }
    }
    assert !IsPredecessor(g, b, b.node, target);
  }

  /** All that the search of one source maintains between two scanned edges. */
  ghost predicate SearchInv(g: Graph, s: Id, b: Search, distance: map<Id, int>, predecessors: map<Id, seq<Id>>,
                            paths: map<Id, real>) {
    && b.Inv(g, s) && DistanceInv(g, b, distance)
    && PredecessorsInv(g, b, predecessors) && PathsInv(g, s, predecessors, paths)
  }

  lemma Begin(g: Graph, s: Id, distance: map<Id, int>, predecessors: map<Id, seq<Id>>, paths: map<Id, real>)
    requires g.Valid() && s in g.ids
    requires distance == map v | v in g.ids :: if v == s then 0 else -1
    requires predecessors == map v | v in g.ids :: []
    requires paths == map v | v in g.ids :: if v == s then 1.0 else 0.0
    ensures SearchInv(g, s, Start(s), distance, predecessors, paths)
    ensures Start(s).todo == {} && Start(s).queue == [s] && Start(s).order == []
  {
    StartInv(g, s);
  }

  lemma Take(g: Graph, s: Id, b: Search, distance: map<Id, int>, predecessors: map<Id, seq<Id>>, paths: map<Id, real>)
    requires g.Valid() && SearchInv(g, s, b, distance, predecessors, paths) && b.todo == {} && b.queue != []
    ensures b.queue[0] in b.dist && b.queue[0] in g.out && b.queue[0] in g.ids && b.queue[0] !in b.order
    ensures |b.order| < |g.ids|
    ensures
      var c := b.Pop(g);
      && SearchInv(g, s, c, distance, predecessors, paths)
      && c.queue == b.queue[1..] && c.order == b.order + [b.queue[0]] && c.node == b.queue[0] && c.todo == g.out[c.node]
  {
    hide Search.Inv, PredecessorsInv, PathsInv;
    PopInv(g, s, b);
    PredecessorsPop(g, s, b, predecessors);
  }

  lemma Defined(g: Graph, s: Id, b: Search, distance: map<Id, int>, predecessors: map<Id, seq<Id>>,
                paths: map<Id, real>, target: Id)
    requires g.Valid() && SearchInv(g, s, b, distance, predecessors, paths) && target in b.todo
    ensures target in g.ids && target in distance && target in predecessors && target in paths
    ensures b.node in distance && b.node in paths && distance[b.node] == b.level && paths[b.node] == Sigma(g, s, b.node)
    ensures distance[target] < 0 <==> target !in b.dist
  {
    hide PredecessorsInv, Sigma;
    PathsFinal(g, s, b, predecessors, paths, b.node);
  }

  /** The body of the innermost search loop: one edge node -> target. */
  method ScanEdge(g: Graph, ghost s: Id, ghost b: Search, node: Id, target: Id,
                  queue0: seq<Id>, distance0: map<Id, int>, predecessors0: map<Id, seq<Id>>, paths0: map<Id, real>)
    returns (queue: seq<Id>, distance: map<Id, int>, predecessors: map<Id, seq<Id>>, paths: map<Id, real>)
    requires g.Valid() && SearchInv(g, s, b, distance0, predecessors0, paths0)
    requires target in b.todo && b.node == node && b.queue == queue0
    ensures SearchInv(g, s, b.Scan(target), distance, predecessors, paths) && b.Scan(target).queue == queue
  {
    hide Search.Inv, PredecessorsInv, Sigma;
    Defined(g, s, b, distance0, predecessors0, paths0, target);
    ScanInv(g, s, b, target);
    PredecessorsScan(g, s, b, predecessors0, target);
    SumSnoc(predecessors0[target], node, u => Sigma(g, s, u));
    queue, distance, predecessors, paths := queue0, distance0, predecessors0, paths0;
    if distance[target] < 0 {
      queue := queue + [target];
      distance := distance[target := distance[node] + 1];
    }
    if distance[target] == distance[node] + 1 {
      paths := paths[target := paths[target] + paths[node]];
      predecessors := predecessors[target := predecessors[target] + [node]];
    }
  }

  /** The search of one source: discovery order, shortest-path predecessors and path counts. */
  method CountPaths(g: Graph, source: Id)
    returns (stack: seq<Id>, predecessors: map<Id, seq<Id>>, paths: map<Id, real>, distance: map<Id, int>)
    requires g.Valid() && source in g.ids
    ensures IsSearchResult(g, source, stack, predecessors, paths)
    ensures forall v :: v in g.ids ==>
      v in distance && distance[v] == if Reachable(g, source, v) then Dist(g, source, v) else -1
  {
    stack := [];
    predecessors := map v | v in g.ids :: [];
    paths := map v | v in g.ids :: if v == source then 1.0 else 0.0;
    distance := map v | v in g.ids :: if v == source then 0 else -1;
    var queue := [source];
    ghost var b := Start(source);
    Begin(g, source, distance, predecessors, paths);
    hide SearchInv, Search.Scan;
    while queue != []
      invariant SearchInv(g, source, b, distance, predecessors, paths)
      invariant b.todo == {} && b.queue == queue && b.order == stack
      decreases |g.ids| - |stack|
    {
      var node := queue[0];
      queue := queue[1..];
      Take(g, source, b, distance, predecessors, paths);
      stack := stack + [node];
      b := b.Pop(g);
      var todo := g.out[node];
      while todo != {}
        invariant SearchInv(g, source, b, distance, predecessors, paths)
        invariant b.todo == todo && b.queue == queue && b.order == stack && b.node == node
      {
        var target :| target in todo;
        queue, distance, predecessors, paths :=
          ScanEdge(g, source, b, node, target, queue, distance, predecessors, paths);
        todo := todo - {target};
        b := b.Scan(target);
      }
    }
    SearchDone(g, source, b, distance, predecessors, paths);
  }

  ghost predicate IsSearchResult(g: Graph, s: Id, stack: seq<Id>, predecessors: map<Id, seq<Id>>,
                                 paths: map<Id, real>) {
    && Distinct(stack)
    && (forall v :: v in stack <==> v in g.ids && Reachable(g, s, v))
    && (forall i, j :: 0 <= i < j < |stack| ==> Dist(g, s, stack[i]) <= Dist(g, s, stack[j]))
    && (forall v :: v in g.ids ==> v in predecessors && Distinct(predecessors[v]) && v in paths)
    && (forall u, v :: v in g.ids ==> (u in predecessors[v] <==> DagEdge(g, s, u, v)))
    && (forall v :: v in g.ids ==> paths[v] == Sigma(g, s, v))
  }

  lemma SearchDone(g: Graph, s: Id, b: Search, distance: map<Id, int>, predecessors: map<Id, seq<Id>>,
                   paths: map<Id, real>)
    requires g.Valid() && SearchInv(g, s, b, distance, predecessors, paths) && b.queue == [] && b.todo == {}
    ensures IsSearchResult(g, s, b.order, predecessors, paths)
    ensures forall v :: v in g.ids ==>
      v in distance && distance[v] == if Reachable(g, s, v) then Dist(g, s, v) else -1
  {
    hide Sigma, Search.Inv, PredecessorsInv, PathsInv;
    OrderDone(g, s, b);
    forall v | v in g.ids
      ensures v in predecessors && Distinct(predecessors[v]) && v in paths
      ensures (forall u :: u in predecessors[v] <==> DagEdge(g, s, u, v)) && paths[v] == Sigma(g, s, v)
      ensures distance[v] == if Reachable(g, s, v) then Dist(g, s, v) else -1
    {
      VertexDone(g, s, b, predecessors, paths, v);
    }
  }

  lemma OrderDone(g: Graph, s: Id, b: Search)
    requires g.Valid() && b.Inv(g, s) && b.queue == [] && b.todo == {}
    ensures Distinct(b.order)
    ensures forall v :: v in b.order <==> v in g.ids && Reachable(g, s, v)
    ensures forall i, j :: 0 <= i < j < |b.order| ==> Dist(g, s, b.order[i]) <= Dist(g, s, b.order[j])
  {
    forall v ensures v in b.order <==> v in g.ids && Reachable(g, s, v) {
      Complete(g, s, b, v);
    }
    forall i, j | 0 <= i < j < |b.order| ensures Dist(g, s, b.order[i]) <= Dist(g, s, b.order[j]) {
      Exact(g, s, b, b.order[i]);
      Exact(g, s, b, b.order[j]);
    }
  }

  lemma VertexDone(g: Graph, s: Id, b: Search, predecessors: map<Id, seq<Id>>, paths: map<Id, real>, v: Id)
    requires g.Valid() && b.Inv(g, s) && b.queue == [] && b.todo == {} && v in g.ids
    requires PredecessorsInv(g, b, predecessors) && PathsInv(g, s, predecessors, paths)
    ensures v in predecessors && Distinct(predecessors[v]) && v in paths && paths[v] == Sigma(g, s, v)
    ensures forall u :: u in predecessors[v] <==> DagEdge(g, s, u, v)
    ensures v in b.dist <==> Reachable(g, s, v)
    ensures v in b.dist ==> b.dist[v] == Dist(g, s, v)
  {
    hide Sigma;
    Complete(g, s, b, v);
    if v in b.dist {
      Exact(g, s, b, v);
      PredecessorsExact(g, s, b, predecessors, v);
      PathsFinal(g, s, b, predecessors, paths, v);
    } else {
      UnreachedPaths(g, s, b, predecessors, paths, v);
    }
  }

  lemma UnreachedPaths(g: Graph, s: Id, b: Search, predecessors: map<Id, seq<Id>>, paths: map<Id, real>, v: Id)
    requires g.Valid() && b.Inv(g, s) && v in g.ids && v !in b.dist && !Reachable(g, s, v)
    requires PredecessorsInv(g, b, predecessors) && PathsInv(g, s, predecessors, paths)
    ensures predecessors[v] == [] && paths[v] == Sigma(g, s, v)
  {
    HeadIn(predecessors[v]);
    SigmaCount(g, s, v);
  }

  ghost function HandedBy(g: Graph, s: Id, popped: seq<Id>, v: Id): real {
    Sum(popped, w => Handed(g, s, v, w))
  }

  /** `popped` holds the vertices stack[n..], each exactly once. */
  ghost predicate Popped(stack: seq<Id>, n: nat, popped: seq<Id>) {
    && n <= |stack| && Distinct(popped)
    && (forall w :: w in popped <==> w in stack[n..])
  }

  lemma SplitMember(xs: seq<Id>, n: nat, x: Id)
    requires n <= |xs| && x in xs
    ensures x in xs[n..] || exists i :: 0 <= i < n && xs[i] == x
  {
    var i :| 0 <= i < |xs| && xs[i] == x;
    assert i >= n ==> xs[n..][i - n] == x;
  }

  /** All shortest-path successors of stack[n - 1] were popped before it: its dependency is final. */
  lemma DependencyFinal(g: Graph, s: Id, stack: seq<Id>, n: nat, popped: seq<Id>, v: Id)
    requires g.Valid() && Distinct(stack) && Popped(stack, n, popped)
    requires forall w :: w in stack <==> w in g.ids && Reachable(g, s, w)
    requires forall i, j :: 0 <= i < j < |stack| ==> Dist(g, s, stack[i]) <= Dist(g, s, stack[j])
    requires v in g.ids && (n == 0 || v == stack[n - 1])
    ensures HandedBy(g, s, popped, v) == Dependency(g, s, v)
  {
    forall w | w in g.ids && w !in popped ensures Handed(g, s, v, w) == 0.0 {
      if DagEdge(g, s, v, w) {
        assert w in stack;
        SplitMember(stack, n, w);
      }
    }
    DependencyStep(g, s, v);
    SumSupport(g.ids, popped, w => Handed(g, s, v, w), w => Handed(g, s, v, w));
  }

  lemma PopOne(stack: seq<Id>, n: nat, popped: seq<Id>)
    requires Distinct(stack) && Popped(stack, n, popped) && n > 0
    ensures Popped(stack, n - 1, popped + [stack[n - 1]])
    ensures stack[n - 1] !in popped
  {
    var x := stack[n - 1];
    assert stack[n - 1..] == [x] + stack[n..];
    assert x !in stack[n..];
    forall w ensures w in popped + [x] <==> w in stack[n - 1..] {
      assert w in popped + [x] <==> w in popped || w == x;
      assert w in [x] + stack[n..] <==> w == x || w in stack[n..];
    }
  }

  /** Dependencies while target hands back to its first i predecessors. */
  ghost predicate HandingInv(g: Graph, s: Id, target: Id, parents: seq<Id>, before: map<Id, real>,
                             dependency: map<Id, real>) {
    forall v :: v in g.ids ==>
      && v in before && v in dependency
      && dependency[v] == before[v] + if v in parents then Handed(g, s, v, target) else 0.0
  }

  /** The inner loop of the sweep: target credits each of its predecessors once. */
  method HandBack(g: Graph, ghost s: Id, target: Id, parents: seq<Id>, paths: map<Id, real>, before: map<Id, real>)
    returns (dependency: map<Id, real>)
    requires g.Valid() && target in g.ids && Distinct(parents)
    requires forall v :: v in g.ids ==> v in before && v in paths && paths[v] == Sigma(g, s, v)
    requires forall u :: u in parents <==> DagEdge(g, s, u, target)
    requires before[target] == Dependency(g, s, target)
    ensures forall v :: v in g.ids ==> v in dependency && dependency[v] == before[v] + Handed(g, s, v, target)
  {
    hide Sigma, Dependency;
    dependency := before;
    for i := 0 to |parents|
      invariant HandingInv(g, s, target, parents[..i], before, dependency)
    {
      var parent := parents[i];
      assert parent in parents;
      SigmaCount(g, s, target);
      assert parents[..i + 1] == parents[..i] + [parent];
      assert target !in parents && parent !in parents[..i];
      dependency := dependency[parent :=
        dependency[parent] + (paths[parent] / paths[target]) * (1.0 + dependency[target])];
    }
    assert parents[..|parents|] == parents;
  }

  ghost predicate SweepInv(g: Graph, s: Id, stack: seq<Id>, n: nat, popped: seq<Id>,
                           dependency: map<Id, real>, scores0: map<Id, real>, scores: map<Id, real>) {
    && Popped(stack, n, popped) && ScoresInv(g, s, popped, scores0, scores)
    && forall v :: v in g.ids ==> v in dependency && dependency[v] == HandedBy(g, s, popped, v)
  }

  ghost predicate ScoresInv(g: Graph, s: Id, popped: seq<Id>, scores0: map<Id, real>, scores: map<Id, real>) {
    && (forall v :: v in scores <==> v in g.ids)
    && forall v :: v in g.ids ==>
      v in scores0 && scores[v] == scores0[v] + if v in popped && v != s then Dependency(g, s, v) else 0.0
  }

  /** One round of the sweep keeps the invariant, whatever the order inside HandBack. */
  lemma SweepNext(g: Graph, s: Id, stack: seq<Id>, n: nat, popped: seq<Id>, dependency: map<Id, real>,
                  scores0: map<Id, real>, scores: map<Id, real>, target: Id, next: map<Id, real>)
    requires Distinct(stack) && 0 < n <= |stack| && target == stack[n - 1] && target in g.ids
    requires SweepInv(g, s, stack, n, popped, dependency, scores0, scores)
    requires dependency[target] == Dependency(g, s, target)
    requires forall v :: v in g.ids ==> v in next && next[v] == dependency[v] + Handed(g, s, v, target)
    ensures next[target] == dependency[target] && target in scores
    ensures SweepInv(g, s, stack, n - 1, popped + [target], next, scores0,
      if target != s then scores[target := scores[target] + next[target]] else scores)
  {
    hide Dependency;
    PopOne(stack, n, popped);
    SelfHanded(g, s, target);
    hide Handed, Distinct, Popped;
    forall v | v in g.ids ensures next[v] == HandedBy(g, s, popped + [target], v) {
      SumSnoc(popped, target, w => Handed(g, s, v, w));
    }
  }

  /** The body of the sweep: the vertex popped hands back its dependency, then scores it. */
  method SweepOne(g: Graph, source: Id, ghost stack: seq<Id>, ghost n: nat, predecessors: map<Id, seq<Id>>,
                  paths: map<Id, real>, ghost popped: seq<Id>, before: map<Id, real>, ghost scores0: map<Id, real>,
                  scoresBefore: map<Id, real>, target: Id)
    returns (dependency: map<Id, real>, scores: map<Id, real>)
    requires g.Valid() && IsSearchResult(g, source, stack, predecessors, paths)
    requires 0 < n <= |stack| && target == stack[n - 1]
    requires SweepInv(g, source, stack, n, popped, before, scores0, scoresBefore)
    ensures SweepInv(g, source, stack, n - 1, popped + [target], dependency, scores0, scores)
  {
    hide Dependency, Handed, Sigma, DagEdge;
    scores := scoresBefore;
    DependencyFinal(g, source, stack, n, popped, target);
    dependency := HandBack(g, source, target, predecessors[target], paths, before);
    SweepNext(g, source, stack, n, popped, before, scores0, scoresBefore, target, dependency);
    hide SweepInv;
    if target != source {
      scores := scores[target := scores[target] + dependency[target]];
    }
  }

  /** The backward sweep of one source: dependencies, and their contribution to the scores. */
  method Sweep(g: Graph, source: Id, stack0: seq<Id>, predecessors: map<Id, seq<Id>>, paths: map<Id, real>,
               scores0: map<Id, real>)
    returns (dependency: map<Id, real>, scores: map<Id, real>)
    requires g.Valid() && IsSearchResult(g, source, stack0, predecessors, paths)
    requires forall v :: v in scores0 <==> v in g.ids
    ensures forall v :: v in g.ids ==> v in dependency && dependency[v] == Dependency(g, source, v)
    ensures forall v :: v in scores <==> v in g.ids
    ensures forall v :: v in g.ids ==> scores[v] == scores0[v] + if v == source then 0.0 else Dependency(g, source, v)
  {
    hide Dependency, Handed, Sigma, DagEdge;
    dependency := map v | v in g.ids :: 0.0;
    scores := scores0;
    var stack := stack0;
    ghost var popped: seq<Id> := [];
    while stack != []
      invariant |stack| <= |stack0| && stack == stack0[..|stack|]
      invariant SweepInv(g, source, stack0, |stack|, popped, dependency, scores0, scores)
    {
      var target := stack[|stack| - 1];
      assert target == stack0[|stack| - 1];
      dependency, scores :=
        SweepOne(g, source, stack0, |stack|, predecessors, paths, popped, dependency, scores0, scores, target);
      hide SweepInv, IsSearchResult;
      popped := popped + [target];
      stack := stack[..|stack| - 1];
    }
    SweepDone(g, source, stack0, popped, scores0, scores);
    forall v | v in g.ids ensures dependency[v] == Dependency(g, source, v) {
      DependencyFinal(g, source, stack0, 0, popped, v);
    }
  }

  lemma SelfHanded(g: Graph, s: Id, v: Id)
    ensures Handed(g, s, v, v) == 0.0
  {
  }

  lemma SweepDone(g: Graph, s: Id, stack: seq<Id>, popped: seq<Id>, scores0: map<Id, real>, scores: map<Id, real>)
    requires g.Valid() && Popped(stack, 0, popped) && ScoresInv(g, s, popped, scores0, scores)
    requires forall w :: w in stack <==> w in g.ids && Reachable(g, s, w)
    ensures forall v :: v in g.ids ==> scores[v] == scores0[v] + if v == s then 0.0 else Dependency(g, s, v)
  {
    hide Dependency;
    assert stack[0..] == stack;
    forall v | v in g.ids ensures scores[v] == scores0[v] + if v == s then 0.0 else Dependency(g, s, v) {
      if v !in popped { DependencyUnreached(g, s, v); }
    }
  }

  method Betweenness(g: Graph) returns (result: map<Id, real>)
    requires g.Valid()
    ensures forall v :: v in result <==> v in g.ids
    ensures forall v :: v in result ==> result[v] == NormalizedBetweenness(g, v)
  {
    hide Dependency, BetweennessOf, IsSearchResult;
    var scores := map v | v in g.ids :: 0.0;
    for i := 0 to |g.ids|
      invariant forall v :: v in scores <==> v in g.ids
      invariant forall v :: v in scores ==>
        scores[v] == Sum(g.ids[..i], s => if s == v then 0.0 else Dependency(g, s, v))
    {
      var source := g.ids[i];
      var stack, predecessors, paths, distance := CountPaths(g, source);
      var dependency;
      ghost var before := scores;
      dependency, scores := Sweep(g, source, stack, predecessors, paths, scores);
      forall v | v in g.ids ensures scores[v] == Sum(g.ids[..i + 1], s => if s == v then 0.0 else Dependency(g, s, v)) {
        SumPrefix(g.ids, i, s => if s == v then 0.0 else Dependency(g, s, v));
      }
    }
    assert g.ids[..|g.ids|] == g.ids;
    var size := |g.ids|;
    var normalizer := (size - 1) * (size - 2);
    forall v | v in g.ids ensures scores[v] == BetweennessOf(g, v) {
      BetweennessByDependency(g, v);
    }
    result := map v | v in g.ids :: if normalizer > 0 then scores[v] / normalizer as real else 0.0;
  }
}
