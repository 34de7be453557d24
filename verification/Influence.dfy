/** The influence score: five centralities of one snapshot, each in [0, 1], folded into 0-100. */
module Influence {
  import opened Reals
  import opened Sums
  import opened Graphs
  import opened Brandes
  import Betweenness
  import Closeness
  import PageRank

  datatype Link = Link(source: Id, target: Id, weight: real)

  datatype Profile = Profile(degree: real, weightedDegree: real, pagerank: real, betweenness: real, closeness: real,
    score: real)

  const DEGREE_WEIGHT: real := 0.20
  const WEIGHTED_DEGREE_WEIGHT: real := 0.20
  const PAGERANK_WEIGHT: real := 0.25
  const BETWEENNESS_WEIGHT: real := 0.15
  const CLOSENESS_WEIGHT: real := 0.20

  /** Self-loops and links with an unknown end are skipped. */
  ghost predicate Usable(ids: seq<Id>, link: Link) {
    link.source in ids && link.target in ids && link.source != link.target
  }

  ghost predicate Linked(ids: seq<Id>, links: seq<Link>, x: Id, y: Id) {
    exists link :: link in links && Usable(ids, link) && link.source == x && link.target == y
  }

  function Clamp(weight: real): real {
    if weight < 0.0 then 0.0 else if weight > 1.0 then 1.0 else weight
  }

  /** What one link adds to the weighted degree of v. */
  ghost function LinkWeight(ids: seq<Id>, link: Link, v: Id): real {
    if Usable(ids, link) && (link.source == v || link.target == v) then Clamp(link.weight) else 0.0
  }

  ghost function WeightAt(ids: seq<Id>, links: seq<Link>, v: Id): real {
    Sum(links, link => LinkWeight(ids, link, v))
  }

  /** The tables _metrics fills from the links read so far. */
  ghost predicate TablesInv(ids: seq<Id>, links: seq<Link>, outgoing: map<Id, set<Id>>, incoming: map<Id, set<Id>>,
                            weighted: map<Id, real>) {
    && (forall v :: v in outgoing <==> v in ids)
    && (forall v :: v in incoming <==> v in ids)
    && (forall v :: v in weighted <==> v in ids)
    && (forall x, y :: x in outgoing ==> (y in outgoing[x] <==> Linked(ids, links, x, y)))
    && (forall x, y :: y in incoming ==> (x in incoming[y] <==> Linked(ids, links, x, y)))
    && (forall v :: v in weighted ==> weighted[v] == WeightAt(ids, links, v))
  }

  ghost function Carried(ids: seq<Id>, link: Link): real {
    if link.source in ids && link.target in ids && link.source != link.target
    then (if link.weight < 0.0 then 0.0 else if link.weight > 1.0 then 1.0 else link.weight) else 0.0
  }

  /** The weight links carry in all: each usable one, clamped to [0, 1]. */
  ghost function TotalWeight(ids: seq<Id>, links: seq<Link>): real {
    Sum(links, link => Carried(ids, link))
  }

  /** Handshake: each usable link adds its clamped weight to both of its ends and to nothing else. */
  lemma {:induction false} WeightHandshake(ids: seq<Id>, links: seq<Link>)
    requires Distinct(ids)
    ensures Sum(ids, v => WeightAt(ids, links, v)) == 2.0 * TotalWeight(ids, links)
  {
    if links == [] {
      SumZero(ids, v => WeightAt(ids, links, v));
    } else {
      var init, last := links[..|links| - 1], links[|links| - 1];
      WeightHandshake(ids, init);
      LinkEnds(ids, last);
      forall v ensures WeightAt(ids, links, v) == WeightAt(ids, init, v) + LinkWeight(ids, last, v) {
        WeightSnoc(ids, init, last, v);
        assert init + [last] == links;
      }
      hide Sum, LinkWeight, WeightAt;
      SumAdd(ids, v => WeightAt(ids, init, v), v => LinkWeight(ids, last, v), v => WeightAt(ids, links, v));
      TotalSnoc(ids, init, last);
      assert init + [last] == links;
    }
  }

  lemma TotalSnoc(ids: seq<Id>, links: seq<Link>, link: Link)
    ensures TotalWeight(ids, links + [link]) == TotalWeight(ids, links) + Carried(ids, link)
  {
    SumSnoc(links, link, l => Carried(ids, l));
  }

  lemma LinkEnds(ids: seq<Id>, link: Link)
    requires Distinct(ids)
    ensures Sum(ids, v => LinkWeight(ids, link, v)) == 2.0 * Carried(ids, link)
  {
    var w := Carried(ids, link);
    var both := v => LinkWeight(ids, link, v);
    if Usable(ids, link) {
      var one: Id -> real := v => if v == link.source then w else 0.0;
      SumSingle(ids, one, link.source);
      SumPoint(ids, one, both, link.target);
    } else {
      SumZero(ids, both);
    }
  }

  lemma WeightSnoc(ids: seq<Id>, links: seq<Link>, link: Link, v: Id)
    ensures WeightAt(ids, links + [link], v) == WeightAt(ids, links, v) + LinkWeight(ids, link, v)
  {
    SumSnoc(links, link, l => LinkWeight(ids, l, v));
  }

  lemma LinkedSnoc(ids: seq<Id>, links: seq<Link>, link: Link, x: Id, y: Id)
    ensures Linked(ids, links + [link], x, y) <==>
      Linked(ids, links, x, y) || (Usable(ids, link) && link.source == x && link.target == y)
  {
    if Linked(ids, links, x, y) {
      var l :| l in links && Usable(ids, l) && l.source == x && l.target == y;
      assert l in links + [link];
    }
    assert link in links + [link];
  }

  lemma TablesNext(ids: seq<Id>, links: seq<Link>, link: Link, outgoing: map<Id, set<Id>>, incoming: map<Id, set<Id>>,
                   weighted: map<Id, real>)
    requires TablesInv(ids, links, outgoing, incoming, weighted)
    ensures !Usable(ids, link) ==> TablesInv(ids, links + [link], outgoing, incoming, weighted)
    ensures Usable(ids, link) ==>
      && link.source in outgoing && link.target in incoming && link.source in weighted && link.target in weighted
      && var weight := Clamp(link.weight);
        TablesInv(ids, links + [link],
          outgoing[link.source := outgoing[link.source] + {link.target}],
          incoming[link.target := incoming[link.target] + {link.source}],
          weighted[link.source := weighted[link.source] + weight][link.target := weighted[link.target] + weight])
  {
    hide Linked, Sum;
    forall x, y ensures Linked(ids, links + [link], x, y) <==>
      Linked(ids, links, x, y) || (Usable(ids, link) && link.source == x && link.target == y)
    {
      LinkedSnoc(ids, links, link, x, y);
    }
    forall v ensures WeightAt(ids, links + [link], v) == WeightAt(ids, links, v) + LinkWeight(ids, link, v) {
      WeightSnoc(ids, links, link, v);
    }
  }

  method AddLink(ids: seq<Id>, ghost links: seq<Link>, link: Link, outgoing0: map<Id, set<Id>>,
                 incoming0: map<Id, set<Id>>, weighted0: map<Id, real>)
    returns (outgoing: map<Id, set<Id>>, incoming: map<Id, set<Id>>, weighted: map<Id, real>)
    requires TablesInv(ids, links, outgoing0, incoming0, weighted0)
    ensures TablesInv(ids, links + [link], outgoing, incoming, weighted)
  {
    TablesNext(ids, links, link, outgoing0, incoming0, weighted0);
    hide TablesInv;
    outgoing, incoming, weighted := outgoing0, incoming0, weighted0;
    var source, target := link.source, link.target;
    if source !in ids || target !in ids || source == target { return; }
    outgoing := outgoing[source := outgoing[source] + {target}];
    incoming := incoming[target := incoming[target] + {source}];
    var weight := Clamp(link.weight);
    weighted := weighted[source := weighted[source] + weight];
    weighted := weighted[target := weighted[target] + weight];
  }

  method Tables(ids: seq<Id>, links: seq<Link>)
    returns (outgoing: map<Id, set<Id>>, incoming: map<Id, set<Id>>, weighted: map<Id, real>)
    ensures TablesInv(ids, links, outgoing, incoming, weighted)
  {
    outgoing := map v | v in ids :: {};
    incoming := map v | v in ids :: {};
    weighted := map v | v in ids :: 0.0;
    assert TablesInv(ids, links[..0], outgoing, incoming, weighted);
    hide TablesInv;
    for i := 0 to |links|
      invariant TablesInv(ids, links[..i], outgoing, incoming, weighted)
    {
      assert links[..i + 1] == links[..i] + [links[i]];
      outgoing, incoming, weighted := AddLink(ids, links[..i], links[i], outgoing, incoming, weighted);
    }
    assert links[..|links|] == links;
  }

  /** The simple directed graph the centralities see, and its transpose. */
  lemma TablesGraph(ids: seq<Id>, links: seq<Link>, outgoing: map<Id, set<Id>>, incoming: map<Id, set<Id>>,
                    weighted: map<Id, real>)
    requires Distinct(ids) && TablesInv(ids, links, outgoing, incoming, weighted)
    ensures IsGraphOf(ids, links, Graph(ids, outgoing)) && PageRank.Transposed(Graph(ids, outgoing), incoming)
  {
  }

  ghost predicate IsGraphOf(ids: seq<Id>, links: seq<Link>, g: Graph) {
    && g.Valid() && g.ids == ids
    && (forall x, y :: g.Edge(x, y) <==> Linked(ids, links, x, y))
    && (forall x :: !g.Edge(x, x))
  }

  ghost function Neighbours(g: Graph, v: Id): set<Id> {
    set u | u in g.ids && (g.Edge(v, u) || g.Edge(u, v))
  }

  function Denominator(size: nat): real {
    if size > 1 then (size - 1) as real else 1.0
  }

  ghost function DegreeOf(g: Graph, v: Id): real {
    if |g.ids| > 1 then |Neighbours(g, v)| as real / Denominator(|g.ids|) else 0.0
  }

  lemma DegreeInUnit(g: Graph, v: Id)
    requires g.Valid() && v in g.ids && !g.Edge(v, v)
    ensures 0.0 <= DegreeOf(g, v) <= 1.0
  {
    if |g.ids| > 1 {
      var all := set u | u in g.ids;
      DistinctCard(g.ids, all);
      assert Neighbours(g, v) <= all - {v};
      SubsetCard(Neighbours(g, v), all - {v});
      UnitQuotient(|Neighbours(g, v)| as real, Denominator(|g.ids|));
    }
  }

  lemma NeighbourCount(g: Graph, v: Id)
    requires g.Valid() && v in g.ids && !g.Edge(v, v)
    ensures |Neighbours(g, v)| == |g.ids| - 1 <==> forall u :: u in g.ids && u != v ==> g.Edge(v, u) || g.Edge(u, v)
  {
    var all := set u | u in g.ids;
    DistinctCard(g.ids, all);
    assert Neighbours(g, v) <= all - {v} && |all - {v}| == |g.ids| - 1;
    SameCard(Neighbours(g, v), all - {v});
    forall u | u in g.ids && u != v && |Neighbours(g, v)| == |g.ids| - 1 ensures g.Edge(v, u) || g.Edge(u, v) {
      assert u in all - {v};
    }
    if forall u :: u in g.ids && u != v ==> g.Edge(v, u) || g.Edge(u, v) { assert Neighbours(g, v) == all - {v}; }
  }

  /** Degree is the share of the other nodes that are linked to or from v: one exactly when all are. */
  lemma DegreeMeaning(g: Graph, v: Id)
    requires g.Valid() && v in g.ids && !g.Edge(v, v) && |g.ids| > 1
    ensures DegreeOf(g, v) * (|g.ids| - 1) as real == |set u | u in g.ids && (g.Edge(v, u) || g.Edge(u, v))| as real
    ensures DegreeOf(g, v) == 1.0 <==> forall u :: u in g.ids && u != v ==> g.Edge(v, u) || g.Edge(u, v)
  {
    NeighbourCount(g, v);
    DegreeQuotient(g, v);
    hide DegreeOf;
    assert Neighbours(g, v) == set u | u in g.ids && (g.Edge(v, u) || g.Edge(u, v));
    hide Neighbours, Graph.Edge;
  }

  lemma DegreeQuotient(g: Graph, v: Id)
    requires |g.ids| > 1
    ensures DegreeOf(g, v) * (|g.ids| - 1) as real == |Neighbours(g, v)| as real
    ensures DegreeOf(g, v) == 1.0 <==> |Neighbours(g, v)| == |g.ids| - 1
  {
    hide Neighbours;
    Share(|Neighbours(g, v)| as real, (|g.ids| - 1) as real, DegreeOf(g, v));
  }

  lemma Share(x: real, n: real, share: real)
    requires n > 0.0 && share == x / n
    ensures share * n == x && (share == 1.0 <==> x == n)
  {
  }

  ghost function WeightedDegreeOf(ids: seq<Id>, links: seq<Link>, v: Id): real {
    if |ids| > 1 then Least(1.0, WeightAt(ids, links, v) / (2.0 * Denominator(|ids|))) else 0.0
  }

  lemma WeightedDegreeInUnit(ids: seq<Id>, links: seq<Link>, v: Id)
    ensures 0.0 <= WeightedDegreeOf(ids, links, v) <= 1.0
  {
    SumNonNegative(links, link => LinkWeight(ids, link, v));
  }

  /** Twice the other nodes is what the weights of v are measured against: one exactly when they reach it. */
  lemma WeightedDegreeMeaning(ids: seq<Id>, links: seq<Link>, v: Id)
    requires |ids| > 1
    ensures
      var most := 2.0 * (|ids| - 1) as real;
      if WeightAt(ids, links, v) >= most then WeightedDegreeOf(ids, links, v) == 1.0
      else WeightedDegreeOf(ids, links, v) < 1.0 && WeightedDegreeOf(ids, links, v) * most == WeightAt(ids, links, v)
  {
    CappedShare(WeightAt(ids, links, v), 2.0 * (|ids| - 1) as real);
    hide WeightAt;
  }

  lemma CappedShare(x: real, most: real)
    requires most > 0.0
    ensures if x >= most then Least(1.0, x / most) == 1.0
      else Least(1.0, x / most) < 1.0 && Least(1.0, x / most) * most == x
  {
    var q := x / most;
    assert q * most == x;
    if x >= most {
      if q < 1.0 { MulPositive(1.0 - q, most); }
    } else if q >= 1.0 {
      MulLe(1.0, q, most);
    }
  }

  function Composite(degree: real, weightedDegree: real, rank: real, betweenness: real, closeness: real): real {
    100.0 * (DEGREE_WEIGHT * degree + WEIGHTED_DEGREE_WEIGHT * weightedDegree + PAGERANK_WEIGHT * rank
      + BETWEENNESS_WEIGHT * betweenness + CLOSENESS_WEIGHT * closeness)
  }

  ghost predicate InUnit(x: real) {
    0.0 <= x <= 1.0
  }

  /** The largest rank, by which PageRank is normalised. */
  ghost predicate IsTop(ranks: map<Id, real>, top: real) {
    && (forall v :: v in ranks ==> ranks[v] <= top)
    && (ranks == map[] ==> top == 0.0)
    && (ranks != map[] ==> exists v :: v in ranks && ranks[v] == top)
  }

  method Top(ids: seq<Id>, ranks: map<Id, real>) returns (top: real)
    requires forall v :: v in ranks <==> v in ids
    ensures IsTop(ranks, top)
  {
    top := 0.0;
    if |ids| == 0 { return; }
    top := ranks[ids[0]];
    for i := 1 to |ids|
      invariant forall j :: 0 <= j < i ==> ranks[ids[j]] <= top
      invariant exists v :: v in ranks && ranks[v] == top
    {
      if ranks[ids[i]] > top { top := ranks[ids[i]]; }
    }
  }

  function NormalizedRank(rank: real, top: real): real {
    if top != 0.0 then rank / top else 0.0
  }

  /** The declared meaning of every column of a node's profile, after k power-iteration steps. */
  ghost predicate IsProfile(g: Graph, links: seq<Link>, k: nat, top: real, v: Id, p: Profile)
    requires g.ids != []
  {
    && p.degree == DegreeOf(g, v)
    && p.weightedDegree == WeightedDegreeOf(g.ids, links, v)
    && p.pagerank == PageRank.Surfer(g, k, v)
    && p.betweenness == NormalizedBetweenness(g, v)
    && p.closeness == Closeness.ClosenessOf(g, v)
    && p.score == 20.0 * p.degree + 20.0 * p.weightedDegree + 25.0 * (if top != 0.0 then p.pagerank / top else 0.0)
      + 15.0 * p.betweenness + 20.0 * p.closeness
  }

  /** The shares of the five centralities in a score of 100. */
  lemma CompositeShares(degree: real, weightedDegree: real, rank: real, betweenness: real, closeness: real)
    ensures Composite(degree, weightedDegree, rank, betweenness, closeness) ==
      20.0 * degree + 20.0 * weightedDegree + 25.0 * rank + 15.0 * betweenness + 20.0 * closeness
  {
  }

  /** Every component lies in [0, 1], so the composite lies in [0, 100] without any clipping. */
  lemma ScoreInRange(ids: seq<Id>, links: seq<Link>, g: Graph, k: nat, ranks: map<Id, real>, top: real, v: Id)
    requires IsGraphOf(ids, links, g) && v in ids && PageRank.IsIterate(g, ranks, k) && IsTop(ranks, top)
    ensures InUnit(DegreeOf(g, v)) && InUnit(WeightedDegreeOf(ids, links, v))
    ensures InUnit(NormalizedBetweenness(g, v)) && InUnit(Closeness.ClosenessOf(g, v))
    ensures 0.0 < ranks[v] <= 1.0 && InUnit(NormalizedRank(ranks[v], top))
    ensures 0.0 <= Composite(DegreeOf(g, v), WeightedDegreeOf(ids, links, v), NormalizedRank(ranks[v], top),
      NormalizedBetweenness(g, v), Closeness.ClosenessOf(g, v)) <= 100.0
  {
    DegreeInUnit(g, v);
    WeightedDegreeInUnit(ids, links, v);
    BetweennessInUnit(g, v);
    Closeness.ClosenessInUnit(g, v);
    hide DegreeOf, WeightedDegreeOf, NormalizedBetweenness, Closeness.ClosenessOf, Composite;
    RankBounds(g, k, ranks, top, v);
    CompositeInRange(DegreeOf(g, v), WeightedDegreeOf(ids, links, v), NormalizedRank(ranks[v], top),
      NormalizedBetweenness(g, v), Closeness.ClosenessOf(g, v));
  }

  lemma CompositeInRange(a: real, b: real, c: real, d: real, e: real)
    requires InUnit(a) && InUnit(b) && InUnit(c) && InUnit(d) && InUnit(e)
    ensures 0.0 <= Composite(a, b, c, d, e) <= 100.0
  {
  }

  lemma RankBounds(g: Graph, k: nat, ranks: map<Id, real>, top: real, v: Id)
    requires g.Valid() && v in g.ids && PageRank.IsIterate(g, ranks, k) && IsTop(ranks, top)
    ensures 0.0 < ranks[v] <= 1.0 && InUnit(NormalizedRank(ranks[v], top))
  {
    hide PageRank.Iterate;
    PageRank.IterateDistribution(g, k);
    UnitQuotient(1.0 - PageRank.DAMPING, |g.ids| as real);
    assert 0.0 < (1.0 - PageRank.DAMPING) / |g.ids| as real;
    UnitQuotient(ranks[v], top);
  }

  /** A profile that has its declared meaning and meets every bound. */
  ghost predicate GoodProfile(g: Graph, links: seq<Link>, k: nat, top: real, v: Id, p: Profile) {
    && g.ids != [] && IsProfile(g, links, k, top, v, p)
    && InUnit(p.degree) && InUnit(p.weightedDegree) && InUnit(p.pagerank)
    && InUnit(NormalizedRank(p.pagerank, top))
    && InUnit(p.betweenness) && InUnit(p.closeness) && 0.0 <= p.score <= 100.0
  }

  method Degrees(g: Graph, ghost links: seq<Link>, outgoing: map<Id, set<Id>>, incoming: map<Id, set<Id>>,
                 weighted: map<Id, real>, v: Id)
    returns (degree: real, weightedDegree: real)
    requires g == Graph(g.ids, outgoing) && v in g.ids && TablesInv(g.ids, links, outgoing, incoming, weighted)
    ensures degree == DegreeOf(g, v) && weightedDegree == WeightedDegreeOf(g.ids, links, v)
  {
    var size := |g.ids|;
    var denominator := Denominator(size);
    assert outgoing[v] + incoming[v] == Neighbours(g, v);
    degree := if size > 1 then |outgoing[v] + incoming[v]| as real / denominator else 0.0;
    weightedDegree := if size > 1 then Least(1.0, weighted[v] / (2.0 * denominator)) else 0.0;
  }

  method ProfileOf(ghost g: Graph, ghost links: seq<Link>, ghost k: nat, ranks: map<Id, real>, top: real, v: Id,
                   degree: real, weightedDegree: real, betweenness: real, closeness: real)
    returns (p: Profile)
    requires IsGraphOf(g.ids, links, g) && v in g.ids && PageRank.IsIterate(g, ranks, k) && IsTop(ranks, top)
    requires degree == DegreeOf(g, v) && weightedDegree == WeightedDegreeOf(g.ids, links, v)
    requires betweenness == NormalizedBetweenness(g, v) && closeness == Closeness.ClosenessOf(g, v)
    ensures GoodProfile(g, links, k, top, v, p)
  {
    hide DegreeOf, WeightedDegreeOf, NormalizedBetweenness, Closeness.ClosenessOf, PageRank.Iterate, PageRank.Surfer,
      Composite;
    ScoreInRange(g.ids, links, g, k, ranks, top, v);
    var score := Composite(degree, weightedDegree, NormalizedRank(ranks[v], top), betweenness, closeness);
    CompositeShares(degree, weightedDegree, NormalizedRank(ranks[v], top), betweenness, closeness);
    PageRank.IterateSurfer(g, k, v);
    p := Profile(degree, weightedDegree, ranks[v], betweenness, closeness, Least(100.0, score));
  }

  /** What the centrality passes hand to the loop that assembles the profiles. */
  ghost predicate Columns(g: Graph, links: seq<Link>, k: nat, ranks: map<Id, real>, top: real,
                          betweenness: map<Id, real>, closeness: map<Id, real>) {
    && IsGraphOf(g.ids, links, g) && IsTop(ranks, top)
    && (g.ids != [] ==> 1 <= k <= PageRank.MAX_ITERATIONS && PageRank.IsIterate(g, ranks, k))
    && forall v :: v in g.ids ==>
      && v in betweenness && betweenness[v] == NormalizedBetweenness(g, v)
      && v in closeness && closeness[v] == Closeness.ClosenessOf(g, v)
  }

  method Assemble(g: Graph, ghost links: seq<Link>, ghost k: nat, outgoing: map<Id, set<Id>>,
                  incoming: map<Id, set<Id>>, weighted: map<Id, real>, ranks: map<Id, real>, top: real,
                  betweenness: map<Id, real>, closeness: map<Id, real>)
    returns (result: map<Id, Profile>)
    requires g.out == outgoing && TablesInv(g.ids, links, outgoing, incoming, weighted)
    requires Columns(g, links, k, ranks, top, betweenness, closeness)
    ensures forall v :: v in result <==> v in g.ids
    ensures forall v :: v in result ==> GoodProfile(g, links, k, top, v, result[v])
  {
    hide GoodProfile, IsGraphOf, TablesInv, IsTop, PageRank.IsIterate, DegreeOf, WeightedDegreeOf;
    result := map[];
    for i := 0 to |g.ids|
      invariant forall v :: v in result <==> v in g.ids[..i]
      invariant forall v :: v in result ==> GoodProfile(g, links, k, top, v, result[v])
    {
      var v := g.ids[i];
      assert v in g.ids;
      var degree, weightedDegree := Degrees(g, links, outgoing, incoming, weighted, v);
      var p := ProfileOf(g, links, k, ranks, top, v, degree, weightedDegree, betweenness[v], closeness[v]);
      result := result[v := p];
    }
  }

  /** top is the greatest of the k-th ranks. */
  ghost predicate HasTopRank(g: Graph, k: nat, top: real)
    requires g.ids != []
  {
    && (exists v :: v in g.ids && PageRank.Iterate(g, k)(v) == top)
    && forall v :: v in g.ids ==> PageRank.Iterate(g, k)(v) <= top
  }

  /** The iteration ran while it moved by the tolerance or more, for at most its limit of steps. */
  ghost predicate StoppedAt(g: Graph, k: nat)
    requires g.ids != []
  {
    && 1 <= k <= PageRank.MAX_ITERATIONS && PageRank.KeptMoving(g, k - 1)
    && (k == PageRank.MAX_ITERATIONS || !PageRank.Moves(g, k))
  }

  lemma TopRank(g: Graph, k: nat, ranks: map<Id, real>, top: real)
    requires g.ids != [] && PageRank.IsIterate(g, ranks, k) && IsTop(ranks, top)
    ensures HasTopRank(g, k, top)
  {
    hide PageRank.Iterate;
    assert g.ids[0] in g.ids && g.ids[0] in ranks;
  }

  /** The three passes over the simple graph, and the largest rank. */
  method Centralities(g: Graph, ghost links: seq<Link>, incoming: map<Id, set<Id>>)
    returns (pagerank: map<Id, real>, maxPagerank: real, betweenness: map<Id, real>, closeness: map<Id, real>,
      ghost k: nat)
    requires IsGraphOf(g.ids, links, g) && PageRank.Transposed(g, incoming)
    ensures Columns(g, links, k, pagerank, maxPagerank, betweenness, closeness)
    ensures g.ids != [] ==> HasTopRank(g, k, maxPagerank) && StoppedAt(g, k)
  {
    GraphValid(g.ids, links, g);
    hide IsGraphOf, PageRank.IsIterate, PageRank.Transposed, IsTop, PageRank.Moves, PageRank.KeptMoving,
      PageRank.Surfer, HasTopRank;
    pagerank, k := PageRank.Run(g, incoming);
    betweenness := Betweenness.Betweenness(g);
    closeness := Closeness.Closeness(g);
    RankKeys(g, pagerank, k);
    maxPagerank := Top(g.ids, pagerank);
    if g.ids != [] { TopRank(g, k, pagerank, maxPagerank); }
  }

  /** _metrics: one profile a node, every column as declared and every bound met. */
  method Metrics(ids: seq<Id>, links: seq<Link>)
    returns (result: map<Id, Profile>, ghost g: Graph, ghost k: nat, ghost top: real)
    requires Distinct(ids)
    ensures IsGraphOf(ids, links, g)
    ensures forall v :: v in result <==> v in ids
    ensures forall v :: v in result ==> GoodProfile(g, links, k, top, v, result[v])
    ensures ids != [] ==> HasTopRank(g, k, top) && StoppedAt(g, k)
  {
    var outgoing, incoming, weighted := Tables(ids, links);
    TablesGraph(ids, links, outgoing, incoming, weighted);
    hide GoodProfile, TablesInv, IsGraphOf, PageRank.Transposed, HasTopRank, StoppedAt;
    var graph := Graph(ids, outgoing);
    g := graph;
    var pagerank, maxPagerank, betweenness, closeness;
    pagerank, maxPagerank, betweenness, closeness, k := Centralities(graph, links, incoming);
    top := maxPagerank;
    result := Assemble(graph, links, k, outgoing, incoming, weighted, pagerank, maxPagerank, betweenness, closeness);
  }

  lemma GraphValid(ids: seq<Id>, links: seq<Link>, g: Graph)
    requires IsGraphOf(ids, links, g)
    ensures g.Valid()
  {
  }

  lemma RankKeys(g: Graph, ranks: map<Id, real>, k: nat)
    requires g.ids == [] ==> ranks == map[]
    requires g.ids != [] ==> PageRank.IsIterate(g, ranks, k)
    ensures forall v :: v in ranks <==> v in g.ids
  {
  }
}
