/** Reachability, shortest-path length, and the invariant shared by every breadth-first search. */
module Distances {
  import opened Sums
  import opened Graphs

  ghost predicate HasWalk(g: Graph, s: Id, t: Id, k: nat) {
    exists p :: WalkFromTo(g, s, t, k, p)
  }

  ghost predicate Reachable(g: Graph, s: Id, t: Id) {
    exists k: nat :: HasWalk(g, s, t, k)
  }

  /** d is the length of a shortest walk from s to t. */
  ghost predicate IsDist(g: Graph, s: Id, t: Id, d: nat) {
    HasWalk(g, s, t, d) && forall k: nat :: HasWalk(g, s, t, k) ==> d <= k
  }

  ghost function Dist(g: Graph, s: Id, t: Id): (d: nat)
    requires Reachable(g, s, t)
    ensures IsDist(g, s, t, d)
  {
    var k: nat :| HasWalk(g, s, t, k);
    LeastWalk(g, s, t, k);
    var d: nat :| IsDist(g, s, t, d);
    d
  }

  lemma {:induction false} LeastWalk(g: Graph, s: Id, t: Id, k: nat)
    requires HasWalk(g, s, t, k)
    ensures exists d: nat :: IsDist(g, s, t, d)
  {
    if j: nat :| j < k && HasWalk(g, s, t, j) {
      LeastWalk(g, s, t, j);
    } else {
      assert IsDist(g, s, t, k);
    }
  }

  lemma HasWalkZero(g: Graph, s: Id, t: Id)
    ensures HasWalk(g, s, t, 0) <==> s == t
  {
    if s == t { assert WalkFromTo(g, s, t, 0, [s]); }
  }

  lemma WalkSnoc(g: Graph, s: Id, u: Id, t: Id, k: nat)
    requires HasWalk(g, s, u, k) && g.Edge(u, t)
    ensures HasWalk(g, s, t, k + 1)
  {
    var p :| WalkFromTo(g, s, u, k, p);
    assert WalkFromTo(g, s, t, k + 1, p + [t]);
  }

  lemma WalkUnsnoc(g: Graph, s: Id, t: Id, k: nat) returns (u: Id)
    requires HasWalk(g, s, t, k + 1)
    ensures HasWalk(g, s, u, k) && g.Edge(u, t)
  {
    var p :| WalkFromTo(g, s, t, k + 1, p);
    u := p[k];
    assert g.Edge(p[k], p[k + 1]);
    assert WalkFromTo(g, s, u, k, p[..k + 1]);
  }

  lemma WalkConcat(g: Graph, s: Id, v: Id, t: Id, j: nat, m: nat)
    requires HasWalk(g, s, v, j) && HasWalk(g, v, t, m)
    ensures HasWalk(g, s, t, j + m)
  {
    var p :| WalkFromTo(g, s, v, j, p);
    var q :| WalkFromTo(g, v, t, m, q);
    var r := p + q[1..];
    forall i | 0 <= i < |r| - 1 ensures g.Edge(r[i], r[i + 1]) {
      if i < j { assert g.Edge(p[i], p[i + 1]); } else { assert g.Edge(q[i - j], q[i - j + 1]); }
    }
    assert WalkFromTo(g, s, t, j + m, r);
  }

  lemma WalkSplit(g: Graph, s: Id, t: Id, k: nat, p: seq<Id>, i: nat)
    requires WalkFromTo(g, s, t, k, p) && i <= k
    ensures HasWalk(g, s, p[i], i) && HasWalk(g, p[i], t, k - i)
  {
    assert WalkFromTo(g, s, p[i], i, p[..i + 1]);
    var q := p[i..];
    forall n | 0 <= n < |q| - 1 ensures g.Edge(q[n], q[n + 1]) {
      assert g.Edge(p[i + n], p[i + n + 1]);
    }
    assert WalkFromTo(g, p[i], t, k - i, q);
  }

  lemma WalkInside(g: Graph, s: Id, t: Id, k: nat)
    requires g.Valid() && s in g.ids && HasWalk(g, s, t, k)
    ensures t in g.ids
  {
    if k == 0 { HasWalkZero(g, s, t); } else { var u := WalkUnsnoc(g, s, t, k - 1); }
  }

  lemma CountPositive(g: Graph, s: Id, t: Id, k: nat)
    requires g.Valid()
    ensures HasWalk(g, s, t, k) ==> Count(g, s, t, k) >= 1.0
    ensures !HasWalk(g, s, t, k) ==> Count(g, s, t, k) == 0.0
  {
    if p :| WalkFromTo(g, s, t, k, p) {
      WalksMember(g, s, t, k, p);
      assert Walks(g, s, t, k) >= {p};
    } else if p :| p in Walks(g, s, t, k) {
      WalksMember(g, s, t, k, p);
    }
  }

  /** A search in progress. `order` lists the vertices taken from the queue, the last of them being
      `node`, whose successors in `todo` are still to be scanned; `level` is the depth of `node`. */
  datatype Search = Search(dist: map<Id, nat>, queue: seq<Id>, order: seq<Id>, level: nat, node: Id, todo: set<Id>) {

    ghost predicate Scanned(g: Graph, u: Id, v: Id) {
      u in order && g.Edge(u, v) && !(u == node && v in todo)
    }

    ghost predicate Found(g: Graph, s: Id) {
      && s in dist && dist[s] == 0
      && (forall v :: v in dist ==> v in g.ids && HasWalk(g, s, v, dist[v]))
      && (forall v :: v in dist <==> v in order || v in queue)
    }

    ghost predicate Ordered() {
      && Distinct(order) && Distinct(queue)
      && (forall v :: v in order ==> v !in queue)
      && (forall v :: v in order ==> v in dist && dist[v] <= level)
      && (forall v :: v in queue ==> v in dist && level <= dist[v] <= level + 1)
      && (forall i, j :: 0 <= i < j < |order| ==> dist[order[i]] <= dist[order[j]])
      && (forall i, j :: 0 <= i < j < |queue| ==> dist[queue[i]] <= dist[queue[j]])
    }

    ghost predicate Relaxed(g: Graph) {
      forall u, v :: Scanned(g, u, v) ==> v in dist && u in dist && dist[v] <= dist[u] + 1
    }

    ghost predicate Current(g: Graph) {
      todo != {} ==> node in order && node in dist && dist[node] == level && node in g.out && todo <= g.out[node]
    }

    ghost predicate Inv(g: Graph, s: Id) {
      Found(g, s) && Ordered() && Relaxed(g) && Current(g)
    }

    ghost function Pop(g: Graph): Search
      requires queue != [] && queue[0] in dist && queue[0] in g.out
    {
      Search(dist, queue[1..], order + [queue[0]], dist[queue[0]], queue[0], g.out[queue[0]])
    }

    ghost function Scan(target: Id): (c: Search)
      ensures c.order == order && c.node == node && c.level == level && c.todo == todo - {target}
    {
      if target in dist then this.(todo := todo - {target})
      else Search(dist[target := level + 1], queue + [target], order, level, node, todo - {target})
    }
  }

  ghost function Start(s: Id): Search {
    Search(map[s := 0], [s], [], 0, s, {})
  }

  lemma StartInv(g: Graph, s: Id)
    requires g.Valid() && s in g.ids
    ensures Start(s).Inv(g, s)
  {
    HasWalkZero(g, s, s);
  }

  lemma PopLength(g: Graph, s: Id, b: Search)
    requires g.Valid() && b.Inv(g, s) && b.queue != []
    ensures |b.order| < |g.ids|
  {
    var taken := b.order + [b.queue[0]];
    forall v | v in taken ensures v in g.ids {
      assert v in b.dist;
    }
    DistinctLength(taken, g.ids);
  }

  lemma PopOrdered(g: Graph, s: Id, b: Search)
    requires b.Found(g, s) && b.Ordered() && b.queue != [] && b.queue[0] in b.dist && b.queue[0] in g.out
    ensures b.Pop(g).Ordered() && b.queue[0] !in b.order
  {
    hide Search.Found;
    var c := b.Pop(g);
    assert b.queue[0] in b.queue;
    assert forall i :: 0 <= i < |c.queue| ==> c.queue[i] == b.queue[i + 1];
    assert forall v :: v in c.queue ==> v in b.queue;
  }

  lemma PopRelaxed(g: Graph, b: Search)
    requires b.Relaxed(g) && b.todo == {} && b.queue != [] && b.queue[0] in b.dist && b.queue[0] in g.out
    requires b.queue[0] !in b.order && g.Valid()
    ensures b.Pop(g).Relaxed(g)
  {
    var c := b.Pop(g);
    forall u, v | c.Scanned(g, u, v) ensures v in c.dist && u in c.dist && c.dist[v] <= c.dist[u] + 1 {
      assert b.Scanned(g, u, v);
    }
  }

  lemma PopInv(g: Graph, s: Id, b: Search)
    requires g.Valid() && b.Inv(g, s) && b.todo == {} && b.queue != []
    ensures b.queue[0] in b.dist && b.queue[0] in g.out && b.queue[0] in g.ids && b.queue[0] !in b.order
    ensures |b.order| < |g.ids|
    ensures b.Pop(g).Inv(g, s)
  {
    PopLength(g, s, b);
    var node, c := b.queue[0], b.Pop(g);
    PopOrdered(g, s, b);
    PopRelaxed(g, b);
    hide Search.Ordered, Search.Relaxed;
    assert forall v :: v in b.queue <==> v == node || v in c.queue;
    assert forall v :: v in c.order <==> v in b.order || v == node;
  }

  lemma ScanRelaxed(g: Graph, b: Search, target: Id)
    requires b.Relaxed(g) && b.Current(g) && target in b.todo && (target in b.dist ==> b.dist[target] <= b.level + 1)
    ensures b.Scan(target).Relaxed(g)
  {
    var c := b.Scan(target);
    forall u, v | c.Scanned(g, u, v) ensures v in c.dist && u in c.dist && c.dist[v] <= c.dist[u] + 1 {
      if !b.Scanned(g, u, v) { assert u == b.node && v == target; }
    }
  }

  lemma ScanOrdered(g: Graph, s: Id, b: Search, target: Id)
    requires b.Found(g, s) && b.Ordered() && target !in b.dist
    ensures b.Scan(target).Ordered()
  {
    var c := b.Scan(target);
    assert forall v :: v in c.queue <==> v == target || v in b.queue;
  }

  lemma ScanFound(g: Graph, s: Id, b: Search, target: Id)
    requires g.Valid() && b.Found(g, s) && b.Current(g) && target in b.todo && target !in b.dist
    ensures b.Scan(target).Found(g, s)
  {
    var c := b.Scan(target);
    WalkSnoc(g, s, b.node, target, b.dist[b.node]);
    assert forall v :: v in c.queue <==> v == target || v in b.queue;
  }

  lemma ScanInv(g: Graph, s: Id, b: Search, target: Id)
    requires g.Valid() && b.Inv(g, s) && target in b.todo
    ensures b.Scan(target).Inv(g, s)
  {
    KnownIsNear(g, s, b, target);
    ScanRelaxed(g, b, target);
    hide Search.Relaxed;
    if target !in b.dist {
      ScanOrdered(g, s, b, target);
      ScanFound(g, s, b, target);
      hide Search.Ordered, Search.Found;
    }
  }

  /** Nothing found so far is more than one level beyond the vertex in hand. */
  lemma KnownIsNear(g: Graph, s: Id, b: Search, v: Id)
    requires b.Found(g, s) && b.Ordered()
    ensures v in b.dist ==> b.dist[v] <= b.level + 1
  {
  }

  /** Everything within `level` edges of the source has been found, at most that far away. */
  lemma {:induction false} Covered(g: Graph, s: Id, b: Search, v: Id, k: nat)
    requires g.Valid() && b.Inv(g, s) && HasWalk(g, s, v, k)
    requires k <= b.level || (b.queue == [] && b.todo == {})
    ensures v in b.dist && b.dist[v] <= k
    decreases k
  {
    if k == 0 {
      HasWalkZero(g, s, v);
    } else {
      var u := WalkUnsnoc(g, s, v, k - 1);
      Covered(g, s, b, u, k - 1);
      assert b.Scanned(g, u, v);
    }
  }

  /** Every depth recorded during the search is already the true distance. */
  lemma Exact(g: Graph, s: Id, b: Search, v: Id)
    requires g.Valid() && b.Inv(g, s) && v in b.dist
    ensures Reachable(g, s, v) && b.dist[v] == Dist(g, s, v)
  {
    var d := Dist(g, s, v);
    if d < b.dist[v] {
      assert d <= b.level;
      Covered(g, s, b, v, d);
    }
  }

  /** When the queue is empty the search has found exactly the reachable vertices. */
  lemma Complete(g: Graph, s: Id, b: Search, v: Id)
    requires g.Valid() && b.Inv(g, s) && b.queue == [] && b.todo == {}
    ensures v in b.dist <==> Reachable(g, s, v)
    ensures v in b.order <==> Reachable(g, s, v)
  {
    if v in b.dist { Exact(g, s, b, v); }
    if Reachable(g, s, v) { Covered(g, s, b, v, Dist(g, s, v)); }
  }
}
