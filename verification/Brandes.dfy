/** The declarative definition of betweenness, and the recurrences Brandes' algorithm evaluates. */
module Brandes {
  import opened Reals
  import opened Sums
  import opened Graphs
  import opened Distances

  /** The set of shortest walks from s to t; empty when t cannot be reached. */
  ghost function ShortestPaths(g: Graph, s: Id, t: Id): set<seq<Id>> {
    if Reachable(g, s, t) then Walks(g, s, t, Dist(g, s, t)) else {}
  }

  ghost function PathsThrough(g: Graph, s: Id, t: Id, v: Id): set<seq<Id>> {
    set p | p in ShortestPaths(g, s, t) && v in p
  }

  /** The fraction of the shortest s-t paths that pass through v. */
  ghost function PairShare(g: Graph, s: Id, t: Id, v: Id): real {
    if ShortestPaths(g, s, t) == {} then 0.0
    else |PathsThrough(g, s, t, v)| as real / |ShortestPaths(g, s, t)| as real
  }

  /** Unnormalised betweenness: the shares of v over all ordered pairs of two other nodes. */
  ghost function BetweennessOf(g: Graph, v: Id): real {
    Sum(g.ids, s => if s == v then 0.0 else Sum(g.ids, t => if t == v || t == s then 0.0 else PairShare(g, s, t, v)))
  }

  ghost function Sigma(g: Graph, s: Id, t: Id): real {
    |ShortestPaths(g, s, t)| as real
  }

  lemma ShortestMember(g: Graph, s: Id, t: Id, p: seq<Id>)
    requires g.Valid()
    ensures p in ShortestPaths(g, s, t) <==> Reachable(g, s, t) && WalkFromTo(g, s, t, Dist(g, s, t), p)
  {
    if Reachable(g, s, t) { WalksMember(g, s, t, Dist(g, s, t), p); }
  }

  lemma SigmaCount(g: Graph, s: Id, t: Id)
    requires g.Valid()
    ensures Reachable(g, s, t) ==> Sigma(g, s, t) == Count(g, s, t, Dist(g, s, t)) && Sigma(g, s, t) >= 1.0
    ensures !Reachable(g, s, t) ==> Sigma(g, s, t) == 0.0
  {
    if Reachable(g, s, t) { CountPositive(g, s, t, Dist(g, s, t)); }
  }

  /** v lies on a shortest path only at the step equal to its own distance. */
  lemma StepIsDistance(g: Graph, s: Id, t: Id, p: seq<Id>, i: nat)
    requires g.Valid() && Reachable(g, s, t) && WalkFromTo(g, s, t, Dist(g, s, t), p) && i < |p|
    ensures Reachable(g, s, p[i]) && Dist(g, s, p[i]) == i
  {
    var d := Dist(g, s, t);
    WalkSplit(g, s, t, d, p, i);
    WalkConcat(g, s, p[i], t, Dist(g, s, p[i]), d - i);
  }

  /** The number of ways to continue from v to t along shortest paths from s. */
  ghost function Onward(g: Graph, s: Id, v: Id, t: Id): real {
    if Reachable(g, s, v) && Reachable(g, s, t) && Dist(g, s, v) <= Dist(g, s, t)
    then Count(g, v, t, Dist(g, s, t) - Dist(g, s, v)) else 0.0
  }

  lemma ThroughVia(g: Graph, s: Id, t: Id, v: Id)
    requires g.Valid() && Reachable(g, s, t) && Reachable(g, s, v) && Dist(g, s, v) <= Dist(g, s, t)
    ensures PathsThrough(g, s, t, v) == WalksVia(g, s, Dist(g, s, v), v, t, Dist(g, s, t) - Dist(g, s, v))
  {
    var j, m := Dist(g, s, v), Dist(g, s, t) - Dist(g, s, v);
    forall p ensures p in PathsThrough(g, s, t, v) <==> p in WalksVia(g, s, j, v, t, m) {
      ShortestMember(g, s, t, p);
      WalksViaMember(g, s, j, v, t, m, p);
      if p in PathsThrough(g, s, t, v) {
        var i :| 0 <= i < |p| && p[i] == v;
        StepIsDistance(g, s, t, p, i);
      }
    }
  }

  lemma ThroughNone(g: Graph, s: Id, t: Id, v: Id)
    requires g.Valid() && (!Reachable(g, s, v) || (Reachable(g, s, t) && Dist(g, s, t) < Dist(g, s, v)))
    ensures PathsThrough(g, s, t, v) == {}
  {
    forall p | p in ShortestPaths(g, s, t) ensures v !in p {
      ShortestMember(g, s, t, p);
      if i :| 0 <= i < |p| && p[i] == v { StepIsDistance(g, s, t, p, i); }
    }
  }

  /** Shortest paths through v factor into the ways to reach v and the ways to go on from v. */
  lemma ThroughCount(g: Graph, s: Id, t: Id, v: Id)
    requires g.Valid() && Reachable(g, s, t)
    ensures |PathsThrough(g, s, t, v)| as real == Sigma(g, s, v) * Onward(g, s, v, t)
  {
    hide ShortestPaths, PathsThrough, Sigma, Count, WalksVia;
    if Reachable(g, s, v) && Dist(g, s, v) <= Dist(g, s, t) {
      ThroughVia(g, s, t, v);
      SigmaCount(g, s, v);
      CountVia(g, s, Dist(g, s, v), v, t, Dist(g, s, t) - Dist(g, s, v));
    } else {
      ThroughNone(g, s, t, v);
    }
  }

  lemma ShareFormula(g: Graph, s: Id, t: Id, v: Id)
    requires g.Valid()
    ensures Reachable(g, s, t) ==>
      Sigma(g, s, t) >= 1.0 && PairShare(g, s, t, v) == Sigma(g, s, v) * Onward(g, s, v, t) / Sigma(g, s, t)
    ensures !Reachable(g, s, t) ==> PairShare(g, s, t, v) == 0.0
  {
    hide Onward, PathsThrough;
    SigmaCount(g, s, t);
    if Reachable(g, s, t) { ThroughCount(g, s, t, v); }
  }

  lemma ShareInUnit(g: Graph, s: Id, t: Id, v: Id)
    ensures 0.0 <= PairShare(g, s, t, v) <= 1.0
  {
    var through, all := PathsThrough(g, s, t, v), ShortestPaths(g, s, t);
    SubsetCard(through, all);
    if all != {} { UnitQuotient(|through| as real, |all| as real); }
  }

  lemma SubsetCard<T>(a: set<T>, b: set<T>)
    requires a <= b
    ensures |a| <= |b|
  {
    assert b == a + (b - a);
  }

  lemma ShareOfTarget(g: Graph, s: Id, t: Id)
    requires g.Valid() && Reachable(g, s, t)
    ensures PairShare(g, s, t, t) == 1.0
  {
    forall p | p in ShortestPaths(g, s, t) ensures t in p {
      ShortestMember(g, s, t, p);
    }
    assert PathsThrough(g, s, t, t) == ShortestPaths(g, s, t);
    SigmaCount(g, s, t);
  }

  lemma ShareBeyond(g: Graph, s: Id, t: Id, v: Id)
    requires g.Valid() && (!Reachable(g, s, v) || (Reachable(g, s, t) && Dist(g, s, t) < Dist(g, s, v)))
    ensures PairShare(g, s, t, v) == 0.0
  {
    ThroughNone(g, s, t, v);
  }

  lemma ShareOfSource(g: Graph, s: Id, v: Id)
    requires g.Valid() && v != s
    ensures PairShare(g, s, s, v) == 0.0
  {
    HasWalkZero(g, s, s);
    HasWalkZero(g, s, v);
    ShareBeyond(g, s, s, v);
  }

  /** v -> w is an edge of the shortest-path graph of s. */
  ghost predicate DagEdge(g: Graph, s: Id, v: Id, w: Id) {
    g.Edge(v, w) && Reachable(g, s, v) && Reachable(g, s, w) && Dist(g, s, w) == Dist(g, s, v) + 1
  }

  lemma OnwardStep(g: Graph, s: Id, v: Id, t: Id, f: Id -> real)
    requires g.Valid() && v in g.ids && t in g.ids && v != t
    requires forall w :: w in g.ids ==> f(w) == if DagEdge(g, s, v, w) then Onward(g, s, w, t) else 0.0
    ensures Onward(g, s, v, t) == Sum(g.ids, f)
  {
    hide Count;
    if Reachable(g, s, v) && Reachable(g, s, t) && Dist(g, s, v) < Dist(g, s, t) {
      var m := Dist(g, s, t) - Dist(g, s, v) - 1;
      forall w | w in g.ids ensures f(w) == if g.Edge(v, w) then Count(g, w, t, m) else 0.0 {
        if g.Edge(v, w) { OnwardEdge(g, s, v, w, t, m); }
      }
      CountFirstEdge(g, v, t, m, f);
    } else {
      CountZero(g, v, t);
      SumZero(g.ids, f);
    }
  }

  lemma OnwardEdge(g: Graph, s: Id, v: Id, w: Id, t: Id, m: nat)
    requires g.Valid() && Reachable(g, s, v) && Reachable(g, s, t) && Dist(g, s, t) == Dist(g, s, v) + 1 + m
    requires g.Edge(v, w)
    ensures Count(g, w, t, m) == if DagEdge(g, s, v, w) then Onward(g, s, w, t) else 0.0
  {
    WalkSnoc(g, s, v, w, Dist(g, s, v));
    CountPositive(g, w, t, m);
    if HasWalk(g, w, t, m) { WalkConcat(g, s, w, t, Dist(g, s, w), m); }
  }

  /** The accumulated dependency of s on v: its shares summed over all other targets. */
  ghost function Dependency(g: Graph, s: Id, v: Id): real {
    Sum(g.ids, t => if t == v then 0.0 else PairShare(g, s, t, v))
  }

  ghost function Ratio(g: Graph, s: Id, v: Id, w: Id): real {
    if Sigma(g, s, w) == 0.0 then 0.0 else Sigma(g, s, v) / Sigma(g, s, w)
  }

  /** What one shortest-path successor w hands back to v. */
  ghost function Handed(g: Graph, s: Id, v: Id, w: Id): real {
    if DagEdge(g, s, v, w) then Ratio(g, s, v, w) * (1.0 + Dependency(g, s, w)) else 0.0
  }

  lemma RatioChain(a: real, b: real, c: real, x: real)
    requires b >= 1.0 && c >= 1.0
    ensures (a / b) * (b * x / c) == (a / c) * x
  {
    assert (a / b) * (b * x / c) == (a / b) * b * x / c;
  }

  /** The share of v for one target is what its successors hand back, path count by path count. */
  lemma ShareStep(g: Graph, s: Id, v: Id, t: Id, f: Id -> real)
    requires g.Valid() && v in g.ids && t in g.ids && v != t
    requires forall w :: w in g.ids ==>
      f(w) == if DagEdge(g, s, v, w) then Ratio(g, s, v, w) * PairShare(g, s, t, w) else 0.0
    ensures PairShare(g, s, t, v) == Sum(g.ids, f)
  {
    hide Sigma, PairShare, Onward, Sum;
    hide Ratio;
    if Reachable(g, s, t) {
      var onward := w => if DagEdge(g, s, v, w) then Onward(g, s, w, t) else 0.0;
      OnwardStep(g, s, v, t, onward);
      var c := Ratio(g, s, v, t);
      forall w | w in g.ids ensures f(w) == c * onward(w) {
        if DagEdge(g, s, v, w) { SharePart(g, s, v, t, w); }
      }
      ShareRatio(g, s, t, v);
      SumScale(g.ids, c, onward, f);
    } else {
      ShareFormula(g, s, t, v);
      forall w | w in g.ids ensures f(w) == 0.0 {
        UnreachedPart(g, s, v, t, w);
      }
      SumZero(g.ids, f);
    }
  }

  lemma UnreachedPart(g: Graph, s: Id, v: Id, t: Id, w: Id)
    requires g.Valid() && !Reachable(g, s, t)
    ensures Ratio(g, s, v, w) * PairShare(g, s, t, w) == 0.0
  {
    ShareFormula(g, s, t, w);
    hide PairShare, Ratio, Sigma;
    MulZero(Ratio(g, s, v, w), PairShare(g, s, t, w));
  }

  lemma ShareRatio(g: Graph, s: Id, t: Id, v: Id)
    requires g.Valid() && Reachable(g, s, t)
    ensures PairShare(g, s, t, v) == Ratio(g, s, v, t) * Onward(g, s, v, t)
  {
    hide Sigma, PairShare, Onward;
    ShareFormula(g, s, t, v);
    assert Sigma(g, s, v) * Onward(g, s, v, t) / Sigma(g, s, t) ==
      (Sigma(g, s, v) / Sigma(g, s, t)) * Onward(g, s, v, t);
  }

  lemma SharePart(g: Graph, s: Id, v: Id, t: Id, w: Id)
    requires g.Valid() && Reachable(g, s, t) && Reachable(g, s, w)
    ensures Ratio(g, s, v, w) * PairShare(g, s, t, w)
      == Ratio(g, s, v, t) * Onward(g, s, w, t)
  {
    hide Sigma, PairShare, Onward;
    ShareFormula(g, s, t, w);
    ShareFormula(g, s, w, w);
    RatioChain(Sigma(g, s, v), Sigma(g, s, w), Sigma(g, s, t), Onward(g, s, w, t));
  }

  /** Over all targets but v, the successor w collects its own dependency plus one for itself. */
  lemma DependencyWithout(g: Graph, s: Id, v: Id, w: Id)
    requires g.Valid() && v in g.ids && w in g.ids && DagEdge(g, s, v, w)
    ensures Sum(g.ids, t => if t == v then 0.0 else PairShare(g, s, t, w)) == 1.0 + Dependency(g, s, w)
  {
    hide PairShare;
    ShareOfTarget(g, s, w);
    ShareBeyond(g, s, v, w);
    assert v != w;
    SumPoint(g.ids, t => if t == w then 0.0 else PairShare(g, s, t, w),
      t => if t == v then 0.0 else PairShare(g, s, t, w), w);
  }

  /** Brandes' recurrence: the dependency on v is the sum of what its successors hand back. */
  lemma DependencyStep(g: Graph, s: Id, v: Id)
    requires g.Valid() && v in g.ids
    ensures Dependency(g, s, v) == Sum(g.ids, w => Handed(g, s, v, w))
  {
    hide PairShare, Sigma, DagEdge, Sum;
    var table := (t: Id, w: Id) =>
      if t != v && DagEdge(g, s, v, w) then Ratio(g, s, v, w) * PairShare(g, s, t, w) else 0.0;
    var share := t => if t == v then 0.0 else PairShare(g, s, t, v);
    forall t | t in g.ids ensures share(t) == Sum(g.ids, w => table(t, w)) {
      if t == v { SumZero(g.ids, w => table(t, w)); } else { ShareStep(g, s, v, t, w => table(t, w)); }
    }
    forall w | w in g.ids ensures Handed(g, s, v, w) == Sum(g.ids, t => table(t, w)) {
      HandedColumn(g, s, v, w, t => table(t, w));
    }
    SumSwap(g.ids, g.ids, share, w => Handed(g, s, v, w), table);
  }

  lemma HandedColumn(g: Graph, s: Id, v: Id, w: Id, column: Id -> real)
    requires g.Valid() && v in g.ids && w in g.ids
    requires forall t :: t in g.ids ==>
      column(t) == if t != v && DagEdge(g, s, v, w) then Ratio(g, s, v, w) * PairShare(g, s, t, w) else 0.0
    ensures Handed(g, s, v, w) == Sum(g.ids, column)
  {
    hide PairShare, Sigma, Sum;
    if DagEdge(g, s, v, w) {
      DependencyWithout(g, s, v, w);
      SumScale(g.ids, Ratio(g, s, v, w), t => if t == v then 0.0 else PairShare(g, s, t, w), column);
    } else {
      SumZero(g.ids, column);
    }
  }

  lemma DependencyUnreached(g: Graph, s: Id, v: Id)
    requires g.Valid() && !Reachable(g, s, v)
    ensures Dependency(g, s, v) == 0.0
  {
    forall t ensures PairShare(g, s, t, v) == 0.0 {
      ShareBeyond(g, s, t, v);
    }
    SumZero(g.ids, t => if t == v then 0.0 else PairShare(g, s, t, v));
  }

  /** Betweenness is the sum of the dependencies of the other sources. */
  lemma BetweennessByDependency(g: Graph, v: Id)
    requires g.Valid()
    ensures BetweennessOf(g, v) == Sum(g.ids, s => if s == v then 0.0 else Dependency(g, s, v))
  {
    forall s | s in g.ids && s != v
      ensures Sum(g.ids, t => if t == v || t == s then 0.0 else PairShare(g, s, t, v)) == Dependency(g, s, v)
    {
      ShareOfSource(g, s, v);
      SumCongr(g.ids, t => if t == v || t == s then 0.0 else PairShare(g, s, t, v),
        t => if t == v then 0.0 else PairShare(g, s, t, v));
    }
    SumCongr(g.ids,
      s => if s == v then 0.0 else Sum(g.ids, t => if t == v || t == s then 0.0 else PairShare(g, s, t, v)),
      s => if s == v then 0.0 else Dependency(g, s, v));
  }

  /** No source can depend on v for more than the n - 2 targets that remain. */
  lemma DependencyBound(g: Graph, s: Id, v: Id)
    requires g.Valid() && s in g.ids && v in g.ids && s != v
    ensures 0.0 <= Dependency(g, s, v) <= (|g.ids| - 2) as real
  {
    hide PairShare;
    var share := t => if t == v then 0.0 else PairShare(g, s, t, v);
    forall t ensures 0.0 <= share(t) <= 1.0 {
      ShareInUnit(g, s, t, v);
    }
    SumNonNegative(g.ids, share);
    var ones: Id -> real := _ => 1.0;
    var others := t => if t == v then 0.0 else 1.0;
    var rest := t => if t == v || t == s then 0.0 else 1.0;
    ShareOfSource(g, s, v);
    SumConst(g.ids, 1.0, ones);
    SumPoint(g.ids, ones, others, v);
    SumPoint(g.ids, others, rest, s);
    SumLe(g.ids, share, rest);
  }

  ghost function NormalizedBetweenness(g: Graph, v: Id): real {
    var normalizer := (|g.ids| - 1) * (|g.ids| - 2);
    if normalizer > 0 then BetweennessOf(g, v) / normalizer as real else 0.0
  }

  lemma BetweennessInUnit(g: Graph, v: Id)
    requires g.Valid() && v in g.ids
    ensures 0.0 <= NormalizedBetweenness(g, v) <= 1.0
  {
    hide BetweennessOf;
    var n := |g.ids|;
    var normalizer := (n - 1) * (n - 2);
    if normalizer > 0 {
      ThreeOrMore(n);
      BetweennessBound(g, v);
      UnitQuotient(BetweennessOf(g, v), normalizer as real);
    }
  }

  /** The share is one exactly when t is reached, and never around v. */
  lemma ShareOne(g: Graph, s: Id, t: Id, v: Id)
    requires g.Valid()
    ensures PairShare(g, s, t, v) == 1.0 <==>
      Reachable(g, s, t) && forall p :: WalkFromTo(g, s, t, Dist(g, s, t), p) ==> v in p
  {
    SigmaCount(g, s, t);
    if Reachable(g, s, t) {
      forall p { ShortestMember(g, s, t, p); }
      var through, all := PathsThrough(g, s, t, v), ShortestPaths(g, s, t);
      hide ShortestPaths, Count, Dist;
      SameCard(through, all);
      RatioOne(|through| as real, |all| as real);
    }
  }

  lemma SameCard<T>(a: set<T>, b: set<T>)
    requires a <= b
    ensures |a| == |b| <==> a == b
  {
    assert b == a + (b - a);
    assert |b| == |a| + |b - a|;
  }

  lemma RatioOne(x: real, y: real)
    requires y > 0.0
    ensures x / y == 1.0 <==> x == y
  {
  }

  /** Every shortest path between two other nodes passes through v, and there is one. */
  ghost predicate Broker(g: Graph, v: Id, s: Id, t: Id) {
    Reachable(g, s, t) && forall p :: WalkFromTo(g, s, t, Dist(g, s, t), p) ==> v in p
  }

  lemma DependencyFull(g: Graph, s: Id, v: Id)
    requires g.Valid() && s in g.ids && v in g.ids && s != v
    ensures Dependency(g, s, v) == (|g.ids| - 2) as real <==>
      forall t :: t in g.ids && t != v && t != s ==> Broker(g, v, s, t)
  {
    var share := t => if t == v then 0.0 else PairShare(g, s, t, v);
    var rest := t => if t == v || t == s then 0.0 else 1.0;
    forall t ensures share(t) <= rest(t) && (share(t) == rest(t) <==> t == v || t == s || Broker(g, v, s, t)) {
      ShareInUnit(g, s, t, v);
      ShareOne(g, s, t, v);
      ShareOfSource(g, s, v);
    }
    hide PairShare, Broker, Sum;
    RestTotal(g, s, v, rest);
    SumTight(g.ids, share, rest);
  }

  lemma RestTotal(g: Graph, s: Id, v: Id, rest: Id -> real)
    requires g.Valid() && s in g.ids && v in g.ids && s != v
    requires forall t :: rest(t) == if t == v || t == s then 0.0 else 1.0
    ensures Sum(g.ids, rest) == (|g.ids| - 2) as real
  {
    var ones: Id -> real := _ => 1.0;
    var others := t => if t == v then 0.0 else 1.0;
    SumConst(g.ids, 1.0, ones);
    SumPoint(g.ids, ones, others, v);
    SumPoint(g.ids, others, rest, s);
  }

  /** Betweenness is one exactly for a node through which every shortest path between two others leads. */
  lemma BetweennessOne(g: Graph, v: Id)
    requires g.Valid() && v in g.ids
    ensures NormalizedBetweenness(g, v) == 1.0 <==>
      && |g.ids| >= 3
      && forall s, t :: s in g.ids && t in g.ids && s != v && t != v && s != t ==>
        Reachable(g, s, t) && forall p :: WalkFromTo(g, s, t, Dist(g, s, t), p) ==> v in p
  {
    var n := |g.ids|;
    hide BetweennessOf;
    if n >= 3 {
      assert (n - 1) * (n - 2) > 0;
      RatioOne(BetweennessOf(g, v), ((n - 1) * (n - 2)) as real);
      BetweennessFull(g, v);
      assert forall s, t :: Broker(g, v, s, t) <==>
        (Reachable(g, s, t) && forall p :: WalkFromTo(g, s, t, Dist(g, s, t), p) ==> v in p);
    } else if (n - 1) * (n - 2) > 0 {
      ThreeOrMore(n);
    }
  }

  /** Some shortest path from s to t passes through v. */
  ghost predicate OnPath(g: Graph, v: Id, s: Id, t: Id) {
    Reachable(g, s, t) && exists p :: WalkFromTo(g, s, t, Dist(g, s, t), p) && v in p
  }

  lemma ShareZero(g: Graph, s: Id, t: Id, v: Id)
    requires g.Valid()
    ensures PairShare(g, s, t, v) == 0.0 <==> !OnPath(g, v, s, t)
  {
    SigmaCount(g, s, t);
    if Reachable(g, s, t) {
      forall p { ShortestMember(g, s, t, p); }
      var through, all := PathsThrough(g, s, t, v), ShortestPaths(g, s, t);
      hide ShortestPaths, Count, Dist;
      assert |through| == 0 <==> through == {};
      RatioZero(|through| as real, |all| as real);
      if p :| p in through { assert OnPath(g, v, s, t); }
      if OnPath(g, v, s, t) {
        var p :| WalkFromTo(g, s, t, Dist(g, s, t), p) && v in p;
        assert p in through;
      }
    }
  }

  lemma RatioZero(x: real, y: real)
    requires y > 0.0
    ensures x / y == 0.0 <==> x == 0.0
  {
  }

  lemma SumVanishes<T>(xs: seq<T>, f: T -> real)
    requires forall x :: x in xs ==> 0.0 <= f(x)
    ensures Sum(xs, f) == 0.0 <==> forall x :: x in xs ==> f(x) == 0.0
  {
    var zero: T -> real := _ => 0.0;
    SumZero(xs, zero);
    SumTight(xs, zero, f);
  }

  lemma DependencyNone(g: Graph, s: Id, v: Id)
    requires g.Valid() && s in g.ids && v in g.ids && s != v
    ensures Dependency(g, s, v) == 0.0 <==> forall t :: t in g.ids && t != v && t != s ==> !OnPath(g, v, s, t)
  {
    var share := t => if t == v then 0.0 else PairShare(g, s, t, v);
    forall t ensures 0.0 <= share(t) && (share(t) == 0.0 <==> t == v || t == s || !OnPath(g, v, s, t)) {
      ShareInUnit(g, s, t, v);
      ShareZero(g, s, t, v);
      ShareOfSource(g, s, v);
    }
    hide PairShare, OnPath, Sum;
    SumVanishes(g.ids, share);
  }

  /** Betweenness is zero exactly for a node that no shortest path between two others passes. */
  lemma BetweennessZero(g: Graph, v: Id)
    requires g.Valid() && v in g.ids
    ensures NormalizedBetweenness(g, v) == 0.0 <==>
      forall s, t :: s in g.ids && t in g.ids && s != v && t != v && s != t ==> !OnPath(g, v, s, t)
  {
    var n := |g.ids|;
    BetweennessNone(g, v);
    hide BetweennessOf, OnPath;
    if (n - 1) * (n - 2) > 0 {
      RatioZero(BetweennessOf(g, v), ((n - 1) * (n - 2)) as real);
    } else {
      forall s, t | s in g.ids && t in g.ids && s != v && t != v && s != t ensures false {
        DistinctLength([s, t, v], g.ids);
        assert n >= 3;
        PairsPositive(n);
      }
    }
  }

  lemma PairsPositive(n: nat)
    requires n >= 3
    ensures (n - 1) * (n - 2) > 0
  {
  }

  lemma BetweennessNone(g: Graph, v: Id)
    requires g.Valid() && v in g.ids
    ensures BetweennessOf(g, v) == 0.0 <==>
      forall s, t :: s in g.ids && t in g.ids && s != v && t != v && s != t ==> !OnPath(g, v, s, t)
  {
    hide Dependency, BetweennessOf, OnPath;
    BetweennessByDependency(g, v);
    var f := s => if s == v then 0.0 else Dependency(g, s, v);
    forall s | s in g.ids
      ensures 0.0 <= f(s)
      ensures f(s) == 0.0 <==> s == v || forall t :: t in g.ids && t != v && t != s ==> !OnPath(g, v, s, t)
    {
      if s != v {
        DependencyBound(g, s, v);
        DependencyNone(g, s, v);
      }
    }
    hide Sum;
    SumVanishes(g.ids, f);
  }

  lemma BetweennessFull(g: Graph, v: Id)
    requires g.Valid() && v in g.ids && |g.ids| >= 3
    ensures BetweennessOf(g, v) == ((|g.ids| - 1) * (|g.ids| - 2)) as real <==>
      forall s, t :: s in g.ids && t in g.ids && s != v && t != v && s != t ==> Broker(g, v, s, t)
  {
    hide Dependency, BetweennessOf, Broker;
    var n := |g.ids|;
    var c := (n - 2) as real;
    BetweennessByDependency(g, v);
    var f := s => if s == v then 0.0 else Dependency(g, s, v);
    var others := s => if s == v then 0.0 else c;
    forall s | s in g.ids
      ensures f(s) <= others(s)
      ensures f(s) == others(s) <==> s == v || forall t :: t in g.ids && t != v && t != s ==> Broker(g, v, s, t)
    {
      if s != v {
        DependencyBound(g, s, v);
        DependencyFull(g, s, v);
      }
    }
    hide Sum;
    SumTight(g.ids, f, others);
    OthersTotal(g, v, others);
  }

  lemma OthersTotal(g: Graph, v: Id, others: Id -> real)
    requires g.Valid() && v in g.ids && |g.ids| >= 3
    requires forall s :: others(s) == if s == v then 0.0 else (|g.ids| - 2) as real
    ensures Sum(g.ids, others) == ((|g.ids| - 1) * (|g.ids| - 2)) as real
  {
    var c := (|g.ids| - 2) as real;
    var all: Id -> real := _ => c;
    SumConst(g.ids, c, all);
    SumPoint(g.ids, all, others, v);
    hide Sum;
    PairsProduct(|g.ids|);
  }

  lemma ThreeOrMore(n: nat)
    requires n >= 1 && (n - 1) * (n - 2) > 0
    ensures n >= 3
  {
    assert n == 1 ==> (n - 1) * (n - 2) == 0;
    assert n == 2 ==> (n - 1) * (n - 2) == 0;
  }

  lemma BetweennessBound(g: Graph, v: Id)
    requires g.Valid() && v in g.ids && |g.ids| >= 3
    ensures 0.0 <= BetweennessOf(g, v) <= ((|g.ids| - 1) * (|g.ids| - 2)) as real
  {
    hide Dependency, BetweennessOf;
    var n := |g.ids|;
    var c := (n - 2) as real;
    BetweennessByDependency(g, v);
    var f := s => if s == v then 0.0 else Dependency(g, s, v);
    var all: Id -> real := _ => c;
    var others := s => if s == v then 0.0 else c;
    forall s | s in g.ids ensures 0.0 <= f(s) <= others(s) {
      if s != v { DependencyBound(g, s, v); }
    }
    SumNonNegative(g.ids, f);
    SumLe(g.ids, f, others);
    SumConst(g.ids, c, all);
    SumPoint(g.ids, all, others, v);
    hide Sum;
    PairsProduct(n);
  }

  lemma PairsProduct(n: nat)
    requires n >= 2
    ensures (n - 2) as real * n as real - (n - 2) as real == ((n - 1) * (n - 2)) as real
  {
    var c := (n - 2) as real;
    assert c * n as real - c == c * (n as real - 1.0);
    assert (n - 1) as real == n as real - 1.0;
  }

  /** What v has of the shortest paths from s to t, if it lies d away from s. */
  ghost function LayerShare(g: Graph, s: Id, d: nat, t: Id, v: Id): real {
    if v != t && Reachable(g, s, v) && Dist(g, s, v) == d then PairShare(g, s, t, v) else 0.0
  }

  /** Each shortest path to a vertex farther than d crosses the layer at distance d exactly once. */
  lemma ShareLayer(g: Graph, s: Id, d: nat, t: Id, f: Id -> real)
    requires g.Valid() && s in g.ids && t in g.ids
    requires forall v :: v in g.ids ==> f(v) == LayerShare(g, s, d, t, v)
    ensures Sum(g.ids, f) == if Reachable(g, s, t) && Dist(g, s, t) > d then 1.0 else 0.0
  {
    hide LayerShare, Sum;
    if Reachable(g, s, t) && Dist(g, s, t) > d {
      FarLayer(g, s, d, t, f);
    } else {
      forall v | v in g.ids ensures f(v) == 0.0 {
        NearLayer(g, s, d, t, v);
      }
      SumZero(g.ids, f);
    }
  }

  lemma FarLayer(g: Graph, s: Id, d: nat, t: Id, f: Id -> real)
    requires g.Valid() && s in g.ids && t in g.ids && Reachable(g, s, t) && Dist(g, s, t) > d
    requires forall v :: v in g.ids ==> f(v) == LayerShare(g, s, d, t, v)
    ensures Sum(g.ids, f) == 1.0
  {
    hide LayerShare, Sigma, Count, Sum;
    var m := Dist(g, s, t) - d;
    var product := v => Count(g, s, v, d) * Count(g, v, t, m);
    CountThroughLayer(g, s, d, t, m, product);
    SigmaCount(g, s, t);
    var c := 1.0 / Sigma(g, s, t);
    forall v | v in g.ids ensures f(v) == c * product(v) {
      LayerPart(g, s, d, t, v, m);
    }
    SumScale(g.ids, c, product, f);
  }

  lemma NearLayer(g: Graph, s: Id, d: nat, t: Id, v: Id)
    requires g.Valid() && !(Reachable(g, s, t) && Dist(g, s, t) > d)
    ensures LayerShare(g, s, d, t, v) == 0.0
  {
    hide PairShare;
    ShareFormula(g, s, t, v);
    if v != t && Reachable(g, s, v) && Dist(g, s, v) == d && Reachable(g, s, t) { LayerEmpty(g, s, t, v); }
  }

  lemma LayerEmpty(g: Graph, s: Id, t: Id, v: Id)
    requires g.Valid() && v != t && Reachable(g, s, v) && Reachable(g, s, t) && Dist(g, s, t) <= Dist(g, s, v)
    ensures PairShare(g, s, t, v) == 0.0
  {
    CountZero(g, v, t);
    ShareFormula(g, s, t, v);
  }

  lemma LayerPart(g: Graph, s: Id, d: nat, t: Id, v: Id, m: nat)
    requires g.Valid() && Reachable(g, s, t) && Dist(g, s, t) == d + m && m > 0 && Sigma(g, s, t) >= 1.0
    ensures LayerShare(g, s, d, t, v) == (1.0 / Sigma(g, s, t)) * (Count(g, s, v, d) * Count(g, v, t, m))
  {
    hide PairShare, Sigma, Count;
    CountPositive(g, s, v, d);
    CountPositive(g, v, t, m);
    if HasWalk(g, s, v, d) && HasWalk(g, v, t, m) {
      WalkConcat(g, s, v, t, Dist(g, s, v), m);
      ShareFormula(g, s, t, v);
      SigmaCount(g, s, v);
    } else if Reachable(g, s, v) && Dist(g, s, v) == d {
      ShareFormula(g, s, t, v);
    }
  }

  /** Conservation: the dependencies at distance d add up to the number of vertices farther than d. */
  lemma LayerConservation(g: Graph, s: Id, d: nat)
    requires g.Valid() && s in g.ids
    ensures Sum(g.ids, v => if Reachable(g, s, v) && Dist(g, s, v) == d then Dependency(g, s, v) else 0.0)
      == |set t | t in g.ids && Reachable(g, s, t) && Dist(g, s, t) > d| as real
  {
    hide PairShare, Sum;
    var table := (v: Id, t: Id) => LayerShare(g, s, d, t, v);
    var rows := v => if Reachable(g, s, v) && Dist(g, s, v) == d then Dependency(g, s, v) else 0.0;
    var columns := t => if Reachable(g, s, t) && Dist(g, s, t) > d then 1.0 else 0.0;
    forall v | v in g.ids ensures rows(v) == Sum(g.ids, t => table(v, t)) {
      if Reachable(g, s, v) && Dist(g, s, v) == d {
        SumCongr(g.ids, t => if t == v then 0.0 else PairShare(g, s, t, v), t => table(v, t));
      } else {
        SumZero(g.ids, t => table(v, t));
      }
    }
    forall t | t in g.ids ensures columns(t) == Sum(g.ids, v => table(v, t)) {
      ShareLayer(g, s, d, t, v => table(v, t));
    }
    SumSwap(g.ids, g.ids, rows, columns, table);
    SumIndicator(g.ids, set t | t in g.ids && Reachable(g, s, t) && Dist(g, s, t) > d, 1.0, columns);
  }
}
