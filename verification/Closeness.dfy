/** Closeness centrality: breadth-first distances folded into one value per node. */
module Closeness {
  import opened Reals
  import opened Sums
  import opened Graphs
  import opened Distances

  ghost function DistanceOrZero(g: Graph, s: Id, v: Id): real {
    if Reachable(g, s, v) then Dist(g, s, v) as real else 0.0
  }

  /** How many other nodes s reaches. */
  ghost function ReachCount(g: Graph, s: Id): real {
    Sum(g.ids, v => if v != s && Reachable(g, s, v) then 1.0 else 0.0)
  }

  ghost function TotalDistance(g: Graph, s: Id): real {
    Sum(g.ids, v => DistanceOrZero(g, s, v))
  }

  /** The reached share of the graph divided by the mean distance to what is reached. */
  function Score(reach: real, total: real, size: nat): real {
    if reach != 0.0 && total != 0.0 && size > 1 then (reach / total) * (reach / (size - 1) as real) else 0.0
  }

  ghost function ClosenessOf(g: Graph, s: Id): real {
    Score(ReachCount(g, s), TotalDistance(g, s), |g.ids|)
  }

  lemma ReachBounds(g: Graph, s: Id)
    requires g.Valid() && s in g.ids
    ensures 0.0 <= ReachCount(g, s) <= TotalDistance(g, s)
    ensures ReachCount(g, s) <= (|g.ids| - 1) as real
  {
    var reached := v => if v != s && Reachable(g, s, v) then 1.0 else 0.0;
    forall v ensures reached(v) <= DistanceOrZero(g, s, v) {
      if v != s && Reachable(g, s, v) { HasWalkZero(g, s, v); }
    }
    SumLe(g.ids, reached, v => DistanceOrZero(g, s, v));
    SumNonNegative(g.ids, reached);
    var others := v => if v != s then 1.0 else 0.0;
    var all: Id -> real := _ => 1.0;
    SumLe(g.ids, reached, others);
    SumConst(g.ids, 1.0, all);
    SumPoint(g.ids, all, others, s);
    SumCongr(g.ids, reached, v => if v != s && Reachable(g, s, v) then 1.0 else 0.0);
  }

  lemma ClosenessInUnit(g: Graph, s: Id)
    requires g.Valid() && s in g.ids
    ensures 0.0 <= ClosenessOf(g, s) <= 1.0
  {
    hide ReachCount, TotalDistance;
    ReachBounds(g, s);
    var reach, total := ReachCount(g, s), TotalDistance(g, s);
    if reach != 0.0 && total != 0.0 && |g.ids| > 1 {
      UnitQuotient(reach, total);
      UnitQuotient(reach, (|g.ids| - 1) as real);
      UnitProduct(reach / total, reach / (|g.ids| - 1) as real);
    }
  }

  lemma NextIsEdge(g: Graph, s: Id, v: Id)
    requires g.Valid() && s in g.ids && v != s
    ensures Reachable(g, s, v) ==> Dist(g, s, v) >= 1
    ensures Reachable(g, s, v) && Dist(g, s, v) == 1 <==> g.Edge(s, v)
  {
    HasWalkZero(g, s, v);
    HasWalkZero(g, s, s);
    if g.Edge(s, v) { WalkSnoc(g, s, s, v, 0); }
    if Reachable(g, s, v) && Dist(g, s, v) == 1 {
      var u := WalkUnsnoc(g, s, v, 0);
      HasWalkZero(g, s, u);
    }
  }

  /** Distances sum to no more than the number of nodes reached exactly when every one is a direct successor. */
  lemma ReachTight(g: Graph, s: Id)
    requires g.Valid() && s in g.ids
    ensures ReachCount(g, s) == TotalDistance(g, s) <==>
      forall v :: v in g.ids && v != s && Reachable(g, s, v) ==> g.Edge(s, v)
    ensures ReachCount(g, s) == (|g.ids| - 1) as real <==> forall v :: v in g.ids && v != s ==> Reachable(g, s, v)
  {
    var reached := v => if v != s && Reachable(g, s, v) then 1.0 else 0.0;
    var distance := v => DistanceOrZero(g, s, v);
    var all: Id -> real := _ => 1.0;
    var others := v => if v != s then 1.0 else 0.0;
    HasWalkZero(g, s, s);
    forall v ensures reached(v) <= distance(v) &&
      (reached(v) == distance(v) <==> v == s || !Reachable(g, s, v) || g.Edge(s, v))
    {
      if v != s { NextIsEdge(g, s, v); }
    }
    assert forall v :: reached(v) == others(v) <==> v == s || Reachable(g, s, v);
    hide DistanceOrZero, Reachable, Sum, Dist;
    SumTight(g.ids, reached, distance);
    SumTight(g.ids, reached, others);
    SumConst(g.ids, 1.0, all);
    SumPoint(g.ids, all, others, s);
  }

  lemma ScoreOne(reach: real, total: real, size: nat)
    requires 0.0 <= reach <= total && reach <= (size - 1) as real
    ensures Score(reach, total, size) == 1.0 <==> size > 1 && reach == total && reach == (size - 1) as real
  {
    if reach != 0.0 && size > 1 {
      var x, y := reach / total, reach / (size - 1) as real;
      UnitQuotient(reach, total);
      UnitQuotient(reach, (size - 1) as real);
      assert reach == x * total && reach == y * (size - 1) as real;
      UnitProductOne(x, y);
    }
  }

  lemma UnitProductOne(x: real, y: real)
    requires 0.0 <= x <= 1.0 && 0.0 <= y <= 1.0
    ensures x * y == 1.0 <==> x == 1.0 && y == 1.0
  {
    if x == 1.0 {
      assert x * y == 1.0 * y;
    } else {
      MulLe(y, 1.0, x);
      assert y * x == x * y;
    }
  }

  /** Closeness is one exactly for a node with a link to every other node. */
  lemma ClosenessOne(g: Graph, s: Id)
    requires g.Valid() && s in g.ids
    ensures ClosenessOf(g, s) == 1.0 <==> |g.ids| > 1 && forall v :: v in g.ids && v != s ==> g.Edge(s, v)
  {
    ReachBounds(g, s);
    ReachTight(g, s);
    ScoreOne(ReachCount(g, s), TotalDistance(g, s), |g.ids|);
    forall v | v in g.ids && v != s && g.Edge(s, v) ensures Reachable(g, s, v) {
      NextIsEdge(g, s, v);
    }
    hide ReachCount, TotalDistance, Score, Reachable;
  }

  /** It is zero exactly for a node that reaches no other. */
  lemma ClosenessZero(g: Graph, s: Id)
    requires g.Valid() && s in g.ids
    ensures ClosenessOf(g, s) == 0.0 <==> forall v :: v in g.ids && v != s ==> !Reachable(g, s, v)
  {
    ReachBounds(g, s);
    ReachNone(g, s);
    hide ReachCount, TotalDistance, Reachable;
    var reach, total := ReachCount(g, s), TotalDistance(g, s);
    if reach != 0.0 {
      QuotientPositive(reach, total);
      QuotientPositive(reach, (|g.ids| - 1) as real);
      MulPositive(reach / total, reach / (|g.ids| - 1) as real);
    }
  }

  lemma ReachNone(g: Graph, s: Id)
    requires g.Valid() && s in g.ids
    ensures ReachCount(g, s) == 0.0 <==> forall v :: v in g.ids && v != s ==> !Reachable(g, s, v)
  {
    var zero: Id -> real := _ => 0.0;
    var reached := v => if v != s && Reachable(g, s, v) then 1.0 else 0.0;
    SumZero(g.ids, zero);
    SumTight(g.ids, zero, reached);
  }

  lemma QuotientPositive(x: real, y: real)
    requires 0.0 < x && 0.0 < y
    ensures 0.0 < x / y
  {
  }

  /** In general it is the square of the number of nodes reached, over their total distance and all other nodes. */
  lemma ClosenessMeaning(g: Graph, s: Id)
    requires g.Valid() && s in g.ids && |g.ids| > 1
    ensures ClosenessOf(g, s) * (TotalDistance(g, s) * (|g.ids| - 1) as real) == ReachCount(g, s) * ReachCount(g, s)
  {
    ReachBounds(g, s);
    hide ReachCount, TotalDistance;
    var reach, total, rest := ReachCount(g, s), TotalDistance(g, s), (|g.ids| - 1) as real;
    if reach != 0.0 { ProductOfQuotients(reach, total, rest); }
  }

  lemma ProductOfQuotients(reach: real, total: real, rest: real)
    requires total > 0.0 && rest > 0.0
    ensures ((reach / total) * (reach / rest)) * (total * rest) == reach * reach
  {
    var x, y := reach / total, reach / rest;
    assert x * total == reach && y * rest == reach;
    assert (x * y) * (total * rest) == (x * total) * (y * rest);
  }

  /** The loop variables of the search are those of b. */
  ghost predicate Mirrors(g: Graph, s: Id, b: Search, distances: map<Id, nat>, queue: seq<Id>, todo: set<Id>) {
    && b.Inv(g, s) && b.todo == todo && b.dist == distances && b.queue == queue
    && (todo != {} ==> b.node in distances && b.level == distances[b.node])
  }

  lemma StartMirrors(g: Graph, s: Id)
    requires g.Valid() && s in g.ids
    ensures Mirrors(g, s, Start(s), map[s := 0], [s], {})
  {
    StartInv(g, s);
  }

  lemma SearchResult(g: Graph, s: Id, b: Search, distances: map<Id, nat>)
    requires g.Valid() && Mirrors(g, s, b, distances, [], {})
    ensures forall v :: v in distances <==> Reachable(g, s, v)
    ensures forall v :: v in distances ==> distances[v] == Dist(g, s, v) && v in g.ids
  {
    forall v ensures v in b.dist <==> Reachable(g, s, v) {
      Complete(g, s, b, v);
    }
    forall v | v in b.dist ensures b.dist[v] == Dist(g, s, v) {
      Exact(g, s, b, v);
    }
  }

  lemma TakeNode(g: Graph, s: Id, b: Search, distances: map<Id, nat>, queue: seq<Id>)
    requires g.Valid() && Mirrors(g, s, b, distances, queue, {}) && queue != []
    ensures b.queue == queue && queue[0] in b.dist && queue[0] in g.out && |b.order| < |g.ids|
    ensures Mirrors(g, s, b.Pop(g), distances, queue[1..], g.out[queue[0]])
    ensures b.Pop(g).node == queue[0] && b.Pop(g).order == b.order + [queue[0]]
  {
    hide Search.Inv;
    PopInv(g, s, b);
  }

  lemma ScanTarget(g: Graph, s: Id, b: Search, distances: map<Id, nat>, queue: seq<Id>, todo: set<Id>, target: Id)
    requires g.Valid() && Mirrors(g, s, b, distances, queue, todo) && target in todo
    ensures b.node in distances
    ensures
      if target in distances then Mirrors(g, s, b.Scan(target), distances, queue, todo - {target})
      else Mirrors(g, s, b.Scan(target), distances[target := distances[b.node] + 1], queue + [target], todo - {target})
  {
    hide Search.Inv;
    ScanInv(g, s, b, target);
  }

  /** The loop over the successors of the vertex in hand. */
  method VisitTargets(g: Graph, ghost s: Id, ghost b0: Search, node: Id, distances0: map<Id, nat>, queue0: seq<Id>)
    returns (distances: map<Id, nat>, queue: seq<Id>, ghost b: Search)
    requires g.Valid() && node in g.out && b0.node == node && Mirrors(g, s, b0, distances0, queue0, g.out[node])
    ensures Mirrors(g, s, b, distances, queue, {}) && b.order == b0.order
  {
    hide *;
    distances, queue, b := distances0, queue0, b0;
    var todo := g.out[node];
    while todo != {}
      invariant Mirrors(g, s, b, distances, queue, todo) && b.node == node && b.order == b0.order
    {
      var target :| target in todo;
      ScanTarget(g, s, b, distances, queue, todo, target);
      if target !in distances {
        distances := distances[target := distances[node] + 1];
        queue := queue + [target];
      }
      todo := todo - {target};
      b := b.Scan(target);
    }
  }

  /** The breadth-first search of one source: exactly the reachable nodes, each at its distance. */
  method BreadthFirst(g: Graph, source: Id) returns (distances: map<Id, nat>)
    requires g.Valid() && source in g.ids
    ensures forall v :: v in distances <==> Reachable(g, source, v)
    ensures forall v :: v in distances ==> distances[v] == Dist(g, source, v) && v in g.ids
  {
    distances := map[source := 0];
    var queue := [source];
    ghost var b := Start(source);
    StartMirrors(g, source);
    hide *;
    while queue != []
      invariant Mirrors(g, source, b, distances, queue, {})
      decreases |g.ids| - |b.order|
    {
      var node := queue[0];
      TakeNode(g, source, b, distances, queue);
      distances, queue, b := VisitTargets(g, source, b.Pop(g), node, distances, queue[1..]);
    }
    SearchResult(g, source, b, distances);
  }

  /** The sum of a distance table's values, taken in any order. */
  method SumValues(g: Graph, distances: map<Id, nat>) returns (total: nat)
    requires g.Valid() && forall v :: v in distances ==> v in g.ids
    ensures total as real == Sum(g.ids, v => if v in distances then distances[v] as real else 0.0)
  {
    total := 0;
    var rest := distances.Keys;
    ghost var sum := v => if v in distances && v !in rest then distances[v] as real else 0.0;
    SumZero(g.ids, sum);
    while rest != {}
      invariant rest <= distances.Keys
      invariant sum == (v => if v in distances && v !in rest then distances[v] as real else 0.0)
      invariant total as real == Sum(g.ids, sum)
    {
      var v :| v in rest;
      total := total + distances[v];
      rest := rest - {v};
      ghost var next := v => if v in distances && v !in rest then distances[v] as real else 0.0;
      SumPoint(g.ids, sum, next, v);
      sum := next;
    }
    SumCongr(g.ids, sum, v => if v in distances then distances[v] as real else 0.0);
  }

  method SourceCloseness(g: Graph, source: Id) returns (value: real)
    requires g.Valid() && source in g.ids
    ensures value == ClosenessOf(g, source)
  {
    var distances := BreadthFirst(g, source);
    var total := SumValues(g, distances);
    hide Score, ReachCount, TotalDistance;
    TableTotal(g, source, distances);
    TableReach(g, source, distances);
    value := Score((|distances| - 1) as real, total as real, |g.ids|);
  }

  method Closeness(g: Graph) returns (result: map<Id, real>)
    requires g.Valid()
    ensures forall v :: v in result <==> v in g.ids
    ensures forall v :: v in result ==> result[v] == ClosenessOf(g, v)
  {
    hide ClosenessOf;
    result := map[];
    for i := 0 to |g.ids|
      invariant forall v :: v in result <==> v in g.ids[..i]
      invariant forall v :: v in result ==> result[v] == ClosenessOf(g, v)
    {
      var source := g.ids[i];
      var value := SourceCloseness(g, source);
      result := result[source := value];
    }
  }

  /** The table a search leaves behind holds the true distances. */
  ghost predicate IsTable(g: Graph, s: Id, distances: map<Id, nat>) {
    forall v :: (v in distances <==> Reachable(g, s, v))
      && (v in distances ==> v in g.ids && distances[v] == Dist(g, s, v))
  }

  lemma TableTotal(g: Graph, s: Id, distances: map<Id, nat>)
    requires g.Valid() && IsTable(g, s, distances)
    ensures Sum(g.ids, v => if v in distances then distances[v] as real else 0.0) == TotalDistance(g, s)
  {
    SumCongr(g.ids, v => if v in distances then distances[v] as real else 0.0, v => DistanceOrZero(g, s, v));
  }

  lemma TableReach(g: Graph, s: Id, distances: map<Id, nat>)
    requires g.Valid() && s in g.ids && IsTable(g, s, distances)
    ensures |distances| >= 1 && (|distances| - 1) as real == ReachCount(g, s)
  {
    HasWalkZero(g, s, s);
    assert Reachable(g, s, s);
    KeysWithout(distances, s);
    hide Sum, Reachable, Dist;
    SumIndicator(g.ids, distances.Keys - {s}, 1.0, v => if v != s && Reachable(g, s, v) then 1.0 else 0.0);
  }

  lemma KeysWithout<T>(m: map<Id, T>, s: Id)
    requires s in m
    ensures |m| >= 1 && |m.Keys - {s}| == |m| - 1
  {
    assert |m.Keys| == |m|;
  }
}
