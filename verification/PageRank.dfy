/** PageRank by power iteration, with the rank of sinks shared among all nodes. */
module PageRank {
  import opened Reals
  import opened Sums
  import opened Graphs

  const DAMPING: real := 0.85
  const TOLERANCE: real := 0.0000000001
  const MAX_ITERATIONS: nat := 100

  type Ranking = Id -> real

  ghost function Mass(g: Graph, r: Ranking): real {
    Sum(g.ids, r)
  }

  ghost predicate Sink(g: Graph, p: Id) {
    p in g.out && g.out[p] == {}
  }

  /** What p passes along each of its outgoing edges. */
  ghost function Passed(g: Graph, r: Ranking, p: Id, v: Id): real {
    if g.Edge(p, v) then r(p) / |g.out[p]| as real else 0.0
  }

  ghost function Inflow(g: Graph, r: Ranking, v: Id): real {
    Sum(g.ids, p => Passed(g, r, p, v))
  }

  ghost function SinkMass(g: Graph, r: Ranking): real {
    Sum(g.ids, p => if Sink(g, p) then r(p) else 0.0)
  }

  /** The undamped redistribution of a ranking: sinks share with everyone, others with their targets. */
  ghost function Spread(g: Graph, r: Ranking, v: Id): real
    requires g.ids != []
  {
    SinkMass(g, r) / |g.ids| as real + Inflow(g, r, v)
  }

  ghost function Update(g: Graph, r: Ranking): Ranking
    requires g.ids != []
  {
    v => (1.0 - DAMPING) / |g.ids| as real + DAMPING * Spread(g, r, v)
  }

  ghost function Iterate(g: Graph, k: nat): Ranking
    requires g.ids != []
  {
    if k == 0 then _ => 1.0 / |g.ids| as real else Update(g, Iterate(g, k - 1))
  }

  function Abs(x: real): real {
    if x < 0.0 then -x else x
  }

  /** The L1 distance of two rankings. */
  ghost function Gap(g: Graph, a: Ranking, b: Ranking): real {
    Sum(g.ids, v => Abs(a(v) - b(v)))
  }

  /** A non-sink hands out exactly its own rank. */
  lemma PassedTotal(g: Graph, r: Ranking, p: Id, f: Id -> real)
    requires g.Valid() && p in g.ids
    requires forall v :: v in g.ids ==> f(v) == Passed(g, r, p, v)
    ensures Sum(g.ids, f) == if Sink(g, p) then 0.0 else r(p)
  {
    if Sink(g, p) {
      SumZero(g.ids, f);
    } else {
      var share := r(p) / |g.out[p]| as real;
      SumIndicator(g.ids, g.out[p], share, f);
    }
  }

  lemma InflowTotal(g: Graph, r: Ranking)
    requires g.Valid()
    ensures Sum(g.ids, v => Inflow(g, r, v)) == Sum(g.ids, p => if Sink(g, p) then 0.0 else r(p))
  {
    hide Passed, Sum;
    var kept := p => if Sink(g, p) then 0.0 else r(p);
    var table := (p, v) => Passed(g, r, p, v);
    forall p | p in g.ids ensures kept(p) == Sum(g.ids, v => table(p, v)) {
      PassedTotal(g, r, p, v => table(p, v));
    }
    forall v | v in g.ids ensures Inflow(g, r, v) == Sum(g.ids, p => table(p, v)) {
      SumCongr(g.ids, p => Passed(g, r, p, v), p => table(p, v));
    }
    SumSwap(g.ids, g.ids, kept, v => Inflow(g, r, v), table);
  }

  /** Redistribution conserves mass, sinks included. */
  lemma SpreadConserves(g: Graph, r: Ranking)
    requires g.Valid() && g.ids != []
    ensures Sum(g.ids, v => Spread(g, r, v)) == Mass(g, r)
  {
    hide Inflow, Sum;
    var n := |g.ids| as real;
    var each := SinkMass(g, r) / n;
    SumConst(g.ids, each, (_: Id) => each);
    SumAdd(g.ids, (_: Id) => each, v => Inflow(g, r, v), v => Spread(g, r, v));
    InflowTotal(g, r);
    SumAdd(g.ids, p => if Sink(g, p) then r(p) else 0.0, p => if Sink(g, p) then 0.0 else r(p), r);
    assert each * n == SinkMass(g, r);
  }

  lemma UpdateMass(g: Graph, r: Ranking)
    requires g.Valid() && g.ids != []
    ensures Mass(g, Update(g, r)) == (1.0 - DAMPING) + DAMPING * Mass(g, r)
  {
    hide Spread, Sum;
    var n := |g.ids| as real;
    var base := (1.0 - DAMPING) / n;
    SpreadConserves(g, r);
    SumConst(g.ids, base, (_: Id) => base);
    SumScale(g.ids, DAMPING, v => Spread(g, r, v), v => DAMPING * Spread(g, r, v));
    SumAdd(g.ids, (_: Id) => base, v => DAMPING * Spread(g, r, v), Update(g, r));
    assert base * n == 1.0 - DAMPING;
  }

  lemma SpreadNonNegative(g: Graph, r: Ranking, v: Id)
    requires g.Valid() && g.ids != [] && forall p :: p in g.ids ==> 0.0 <= r(p)
    ensures 0.0 <= Spread(g, r, v)
  {
    hide Sum, Passed;
    SumNonNegative(g.ids, p => if Sink(g, p) then r(p) else 0.0);
    forall p | p in g.ids ensures 0.0 <= Passed(g, r, p, v) {
      PassedNonNegative(g, r, p, v);
    }
    SumNonNegative(g.ids, p => Passed(g, r, p, v));
    QuotientNonNegative(SinkMass(g, r), |g.ids| as real);
    hide SinkMass, Inflow;
  }

  lemma PassedNonNegative(g: Graph, r: Ranking, p: Id, v: Id)
    requires 0.0 <= r(p)
    ensures 0.0 <= Passed(g, r, p, v)
  {
    if g.Edge(p, v) { QuotientNonNegative(r(p), |g.out[p]| as real); }
  }

  // ---------------------------------------------------------------- the random surfer

  /** Where a surfer at u goes when it follows links: to each linked node alike, or anywhere when u has no link. */
  ghost function Follow(g: Graph, u: Id, v: Id): real
    requires g.ids != []
  {
    if g.Edge(u, v) then 1.0 / |g.out[u]| as real
    else if u in g.out && g.out[u] == {} then 1.0 / |g.ids| as real else 0.0
  }

  /** The chance that a surfer at u is at v next: it follows a link with DAMPING, and otherwise goes anywhere. */
  ghost function Chance(g: Graph, u: Id, v: Id): real
    requires g.ids != []
  {
    (1.0 - DAMPING) / |g.ids| as real + DAMPING * Follow(g, u, v)
  }

  /** The chance that a surfer who starts anywhere is at v after k moves. */
  ghost function Surfer(g: Graph, k: nat, v: Id): real
    requires g.ids != []
    decreases k
  {
    if k == 0 then 1.0 / |g.ids| as real else Sum(g.ids, u => Surfer(g, k - 1, u) * Chance(g, u, v))
  }

  lemma FollowRow(g: Graph, u: Id)
    requires g.Valid() && u in g.ids
    ensures Sum(g.ids, v => Follow(g, u, v)) == 1.0
  {
    hide Sum;
    if g.out[u] == {} {
      Inverse(|g.ids|);
      SumConst(g.ids, 1.0 / |g.ids| as real, v => Follow(g, u, v));
    } else {
      Inverse(|g.out[u]|);
      SumIndicator(g.ids, g.out[u], 1.0 / |g.out[u]| as real, v => Follow(g, u, v));
    }
    hide Follow;
  }

  lemma Inverse(n: nat)
    requires n > 0
    ensures (1.0 / n as real) * n as real == 1.0
  {
  }

  lemma BaseTotal(n: real)
    requires n > 0.0
    ensures (1.0 - DAMPING) / n * n == 1.0 - DAMPING
  {
  }

  lemma ChanceIs(g: Graph, u: Id, v: Id, base: real)
    requires g.ids != [] && base == (1.0 - DAMPING) / |g.ids| as real
    ensures Chance(g, u, v) == base * 1.0 + DAMPING * Follow(g, u, v)
  {
  }

  lemma RowParts(g: Graph, u: Id, base: real)
    requires g.ids != [] && base == (1.0 - DAMPING) / |g.ids| as real
    ensures Sum(g.ids, v => Chance(g, u, v)) == base * |g.ids| as real + DAMPING * Sum(g.ids, v => Follow(g, u, v))
  {
    var one: Id -> real := _ => 1.0;
    SumConst(g.ids, 1.0, one);
    forall v: Id ensures Chance(g, u, v) == base * one(v) + DAMPING * Follow(g, u, v) {
      ChanceIs(g, u, v, base);
    }
    hide Chance, Follow, Sum;
    SumAffine(g.ids, base, one, DAMPING, v => Follow(g, u, v), v => Chance(g, u, v));
  }

  /** From every node the chances of the next move sum to one. */
  lemma ChanceRow(g: Graph, u: Id)
    requires g.Valid() && u in g.ids
    ensures Sum(g.ids, v => Chance(g, u, v)) == 1.0
  {
    FollowRow(g, u);
    RowParts(g, u, (1.0 - DAMPING) / |g.ids| as real);
    BaseTotal(|g.ids| as real);
    hide Follow, Chance, Sum;
  }

  /** What u passes on to v by following links: its part of the sinks' share and what goes along a link. */
  lemma FollowParts(g: Graph, r: Ranking, u: Id, v: Id)
    requires g.Valid() && g.ids != []
    ensures r(u) * Follow(g, u, v) ==
      (1.0 / |g.ids| as real) * (if Sink(g, u) then r(u) else 0.0) + Passed(g, r, u, v)
  {
    if g.Edge(u, v) { assert r(u) * (1.0 / |g.out[u]| as real) == r(u) / |g.out[u]| as real; }
  }

  /** Redistribution is following links. */
  lemma SpreadFollows(g: Graph, r: Ranking, v: Id)
    requires g.Valid() && g.ids != []
    ensures Spread(g, r, v) == Sum(g.ids, u => r(u) * Follow(g, u, v))
  {
    hide Follow, Passed, Sum;
    var c := 1.0 / |g.ids| as real;
    var sinks := u => if Sink(g, u) then r(u) else 0.0;
    forall u: Id ensures r(u) * Follow(g, u, v) == c * sinks(u) + Passed(g, r, u, v) {
      FollowParts(g, r, u, v);
    }
    hide Sink;
    SumAffine(g.ids, c, sinks, 1.0, u => Passed(g, r, u, v), u => r(u) * Follow(g, u, v));
    assert c * SinkMass(g, r) == SinkMass(g, r) / |g.ids| as real;
  }

  lemma MoveParts(g: Graph, r: Ranking, v: Id, base: real)
    requires g.ids != [] && base == (1.0 - DAMPING) / |g.ids| as real
    ensures Sum(g.ids, u => r(u) * Chance(g, u, v)) ==
      base * Mass(g, r) + DAMPING * Sum(g.ids, u => r(u) * Follow(g, u, v))
  {
    hide Follow, Sum, Chance;
    var follow, all: Id -> real := u => r(u) * Follow(g, u, v), u => r(u) * Chance(g, u, v);
    forall u: Id ensures all(u) == base * r(u) + DAMPING * follow(u) {
      ChanceTerm(g, r, u, v, base);
    }
    SumAffine(g.ids, base, r, DAMPING, follow, all);
    assert all == (u => r(u) * Chance(g, u, v)) && follow == (u => r(u) * Follow(g, u, v));
  }

  /** One update moves every surfer once: the next rank of v collects every rank times its chance to move to v. */
  lemma UpdateMoves(g: Graph, r: Ranking, v: Id)
    requires g.Valid() && g.ids != [] && Mass(g, r) == 1.0
    ensures Update(g, r)(v) == Sum(g.ids, u => r(u) * Chance(g, u, v))
  {
    SpreadFollows(g, r, v);
    hide Follow, Spread, Sum, Chance, Mass;
    MoveParts(g, r, v, (1.0 - DAMPING) / |g.ids| as real);
  }

  lemma ChanceTerm(g: Graph, r: Ranking, u: Id, v: Id, base: real)
    requires g.ids != [] && base == (1.0 - DAMPING) / |g.ids| as real
    ensures r(u) * Chance(g, u, v) == base * r(u) + DAMPING * (r(u) * Follow(g, u, v))
  {
    hide Follow;
  }

  lemma SurferStep(g: Graph, k: nat, r: Ranking, v: Id)
    requires g.ids != [] && k > 0 && forall u :: u in g.ids ==> r(u) == Surfer(g, k - 1, u)
    ensures Sum(g.ids, u => r(u) * Chance(g, u, v)) == Surfer(g, k, v)
  {
    hide Chance;
    SumCongr(g.ids, u => r(u) * Chance(g, u, v), u => Surfer(g, k - 1, u) * Chance(g, u, v));
  }

  /** The iterates are the surfer's distribution. */
  lemma {:induction false} IterateSurfer(g: Graph, k: nat, v: Id)
    requires g.Valid() && g.ids != []
    ensures Iterate(g, k)(v) == Surfer(g, k, v)
  {
    if k > 0 {
      hide Chance, Update, Distribution, Surfer;
      IterateDistribution(g, k - 1);
      DistributionMass(g, Iterate(g, k - 1));
      UpdateMoves(g, Iterate(g, k - 1), v);
      forall u | u in g.ids ensures Iterate(g, k - 1)(u) == Surfer(g, k - 1, u) {
        IterateSurfer(g, k - 1, u);
      }
      SurferStep(g, k, Iterate(g, k - 1), v);
    }
  }

  lemma DistributionMass(g: Graph, r: Ranking)
    requires g.ids != [] && Distribution(g, r)
    ensures Mass(g, r) == 1.0
  {
  }

  /** Rank travels along links: u passes an equal part of its damped rank to each node it links to. */
  lemma LinkPasses(g: Graph, k: nat, u: Id, v: Id)
    requires g.Valid() && g.ids != [] && g.Edge(u, v)
    ensures Iterate(g, k + 1)(v) >=
      (1.0 - DAMPING) / |g.ids| as real + DAMPING * (Iterate(g, k)(u) / |g.out[u]| as real)
  {
    IterateDistribution(g, k);
    var r := Iterate(g, k);
    forall p | p in g.ids ensures 0.0 <= r(p) {
      UnitQuotient(1.0 - DAMPING, |g.ids| as real);
    }
    PassedArrives(g, r, u, v);
    hide Spread;
  }

  lemma PassedArrives(g: Graph, r: Ranking, u: Id, v: Id)
    requires g.Valid() && g.ids != [] && g.Edge(u, v) && forall p :: p in g.ids ==> 0.0 <= r(p)
    ensures Spread(g, r, v) >= r(u) / |g.out[u]| as real
  {
    assert Passed(g, r, u, v) == r(u) / |g.out[u]| as real;
    hide Sum, Passed;
    SumNonNegative(g.ids, p => if Sink(g, p) then r(p) else 0.0);
    forall p | p in g.ids ensures 0.0 <= Passed(g, r, p, v) {
      PassedNonNegative(g, r, p, v);
    }
    SumNonNegative(g.ids, p => Passed(g, r, p, v));
    QuotientNonNegative(SinkMass(g, r), |g.ids| as real);
  }

  // ---------------------------------------------------------------- distributions

  ghost predicate Distribution(g: Graph, r: Ranking)
    requires g.ids != []
  {
    && Mass(g, r) == 1.0
    && forall v :: v in g.ids ==> (1.0 - DAMPING) / |g.ids| as real <= r(v) <= 1.0
  }

  lemma UniformDistribution(g: Graph)
    requires g.ids != []
    ensures Distribution(g, Iterate(g, 0))
  {
    var n := |g.ids| as real;
    SumConst(g.ids, 1.0 / n, Iterate(g, 0));
    assert (1.0 / n) * n == 1.0;
    UnitQuotient(1.0, n);
    assert (1.0 - DAMPING) / n == (1.0 - DAMPING) * (1.0 / n);
    MulLe(1.0 - DAMPING, 1.0, 1.0 / n);
  }

  lemma UpdateDistribution(g: Graph, r: Ranking)
    requires g.Valid() && g.ids != [] && Distribution(g, r)
    ensures Distribution(g, Update(g, r))
  {
    hide Spread;
    var n := |g.ids| as real;
    UnitQuotient(1.0 - DAMPING, n);
    UpdateMass(g, r);
    forall v | v in g.ids ensures (1.0 - DAMPING) / n <= Update(g, r)(v) {
      SpreadNonNegative(g, r, v);
    }
    SumNonNegative(g.ids, Update(g, r));
  }

  /** Every iterate is a probability distribution whose entries never drop below (1 - DAMPING) / n. */
  lemma {:induction false} IterateDistribution(g: Graph, k: nat)
    requires g.Valid() && g.ids != []
    ensures Distribution(g, Iterate(g, k))
  {
    hide Distribution, Update;
    if k == 0 {
      UniformDistribution(g);
    } else {
      IterateDistribution(g, k - 1);
      UpdateDistribution(g, Iterate(g, k - 1));
    }
  }

  lemma {:induction false} SumAbs<T>(xs: seq<T>, f: T -> real, h: T -> real)
    requires forall x :: x in xs ==> h(x) == Abs(f(x))
    ensures Abs(Sum(xs, f)) <= Sum(xs, h)
  {
    if xs != [] { SumAbs(xs[..|xs| - 1], f, h); }
  }

  ghost function Difference(a: Ranking, b: Ranking): Ranking {
    v => a(v) - b(v)
  }

  ghost function Magnitude(a: Ranking): Ranking {
    v => Abs(a(v))
  }

  lemma PassedDifference(g: Graph, a: Ranking, b: Ranking, p: Id, v: Id)
    ensures Passed(g, a, p, v) == Passed(g, b, p, v) + Passed(g, Difference(a, b), p, v)
    ensures Passed(g, Magnitude(a), p, v) == Abs(Passed(g, a, p, v))
  {
  }

  lemma SpreadDifference(g: Graph, a: Ranking, b: Ranking, v: Id)
    requires g.Valid() && g.ids != []
    ensures Spread(g, a, v) == Spread(g, b, v) + Spread(g, Difference(a, b), v)
  {
    hide Passed, Sum;
    var d := Difference(a, b);
    SumAdd(g.ids, p => if Sink(g, p) then b(p) else 0.0, p => if Sink(g, p) then d(p) else 0.0,
      p => if Sink(g, p) then a(p) else 0.0);
    forall p ensures Passed(g, a, p, v) == Passed(g, b, p, v) + Passed(g, d, p, v) {
      PassedDifference(g, a, b, p, v);
    }
    SumAdd(g.ids, p => Passed(g, b, p, v), p => Passed(g, d, p, v), p => Passed(g, a, p, v));
  }

  lemma SpreadMagnitude(g: Graph, a: Ranking, v: Id)
    requires g.Valid() && g.ids != []
    ensures Abs(Spread(g, a, v)) <= Spread(g, Magnitude(a), v)
  {
    hide Passed, Sum;
    var m := Magnitude(a);
    SumAbs(g.ids, p => if Sink(g, p) then a(p) else 0.0, p => if Sink(g, p) then m(p) else 0.0);
    forall p ensures Passed(g, m, p, v) == Abs(Passed(g, a, p, v)) {
      PassedDifference(g, a, a, p, v);
    }
    SumAbs(g.ids, p => Passed(g, a, p, v), p => Passed(g, m, p, v));
    AbsQuotient(SinkMass(g, a), SinkMass(g, m), |g.ids| as real);
  }

  lemma AbsQuotient(x: real, y: real, n: real)
    requires Abs(x) <= y && 0.0 < n
    ensures Abs(x / n) <= y / n
  {
    MulLe(x, y, 1.0 / n);
    MulLe(-x, y, 1.0 / n);
    assert x / n == x * (1.0 / n) && y / n == y * (1.0 / n) && (-x) * (1.0 / n) == -(x / n);
  }

  /** One update brings any two rankings closer by at least the factor DAMPING. */
  lemma Contraction(g: Graph, a: Ranking, b: Ranking)
    requires g.Valid() && g.ids != []
    ensures Gap(g, Update(g, a), Update(g, b)) <= DAMPING * Gap(g, a, b)
  {
    hide Spread, Sum;
    var d := Difference(a, b);
    var m := Magnitude(d);
    var bound := v => DAMPING * Spread(g, m, v);
    var gap := v => Abs(Update(g, a)(v) - Update(g, b)(v));
    forall v | v in g.ids ensures gap(v) <= bound(v) {
      SpreadDifference(g, a, b, v);
      SpreadMagnitude(g, d, v);
      assert Update(g, a)(v) - Update(g, b)(v) == DAMPING * Spread(g, d, v);
    }
    SumLe(g.ids, gap, bound);
    SumScale(g.ids, DAMPING, v => Spread(g, m, v), bound);
    SpreadConserves(g, m);
    SumCongr(g.ids, m, v => Abs(a(v) - b(v)));
    SumCongr(g.ids, gap, v => Abs(Update(g, a)(v) - Update(g, b)(v)));
  }

  ghost function Power(x: real, k: nat): real {
    if k == 0 then 1.0 else x * Power(x, k - 1)
  }

  lemma {:induction false} Geometric(gap: nat -> real, k: nat)
    requires forall j: nat :: j < k ==> gap(j + 1) <= DAMPING * gap(j)
    ensures gap(k) <= Power(DAMPING, k) * gap(0)
  {
    if k > 0 {
      Geometric(gap, k - 1);
      var p, c := Power(DAMPING, k - 1), gap(0);
      assert gap(k - 1 + 1) <= DAMPING * gap(k - 1);
      assert DAMPING * (p * c) == (DAMPING * p) * c;
    }
  }

  lemma GapTriangle(g: Graph, a: Ranking, b: Ranking, c: Ranking)
    ensures Gap(g, a, c) <= Gap(g, a, b) + Gap(g, b, c)
  {
    var left, right := v => Abs(a(v) - b(v)), v => Abs(b(v) - c(v));
    var both := v => left(v) + right(v);
    SumAdd(g.ids, left, right, both);
    SumLe(g.ids, v => Abs(a(v) - c(v)), both);
  }

  lemma GapCongr(g: Graph, a: Ranking, b: Ranking, a': Ranking, b': Ranking)
    requires forall v :: v in g.ids ==> a(v) == a'(v) && b(v) == b'(v)
    ensures Gap(g, a, b) == Gap(g, a', b')
  {
    SumCongr(g.ids, v => Abs(a(v) - b(v)), v => Abs(a'(v) - b'(v)));
  }

  /** Successive iterates approach each other geometrically. */
  lemma SuccessiveGap(g: Graph, k: nat)
    requires g.Valid() && g.ids != []
    ensures Gap(g, Iterate(g, k + 1), Iterate(g, k)) <= Power(DAMPING, k) * Gap(g, Iterate(g, 1), Iterate(g, 0))
  {
    hide Gap, Update, Power;
    var gap := (j: nat) => Gap(g, Iterate(g, j + 1), Iterate(g, j));
    forall j: nat ensures gap(j + 1) <= DAMPING * gap(j) {
      Contraction(g, Iterate(g, j + 1), Iterate(g, j));
    }
    Geometric(gap, k);
  }

  /** With no stationary ranking assumed: all later iterates stay within a geometric tail of one step. */
  lemma {:induction false} CauchyBound(g: Graph, k: nat, m: nat)
    requires g.Valid() && g.ids != []
    ensures (1.0 - DAMPING) * Gap(g, Iterate(g, k + m), Iterate(g, k)) <= Gap(g, Iterate(g, k + 1), Iterate(g, k))
  {
    hide Gap, Update;
    if m == 0 {
      GapSelf(g, Iterate(g, k), Iterate(g, k + 1));
    } else {
      CauchyBound(g, k, m - 1);
      Contraction(g, Iterate(g, k + m - 1), Iterate(g, k));
      GapTriangle(g, Iterate(g, k + m), Iterate(g, k + 1), Iterate(g, k));
    }
  }

  lemma GapSelf(g: Graph, a: Ranking, b: Ranking)
    ensures Gap(g, a, a) == 0.0 && 0.0 <= Gap(g, b, a)
  {
    SumConst(g.ids, 0.0, (_: Id) => 0.0);
    SumCongr(g.ids, v => Abs(a(v) - a(v)), (_: Id) => 0.0);
    SumNonNegative(g.ids, v => Abs(b(v) - a(v)));
  }

  /** After the early stop no later iterate is farther than a fixed multiple of the tolerance. */
  lemma StopStays(g: Graph, k: nat, m: nat)
    requires g.Valid() && g.ids != [] && k >= 1 && Gap(g, Iterate(g, k), Iterate(g, k - 1)) < TOLERANCE
    ensures Gap(g, Iterate(g, k + m), Iterate(g, k)) <= DAMPING / (1.0 - DAMPING) * TOLERANCE
  {
    hide Gap, Update;
    CauchyBound(g, k, m);
    Contraction(g, Iterate(g, k), Iterate(g, k - 1));
  }

  ghost predicate Stationary(g: Graph, r: Ranking)
    requires g.ids != []
  {
    forall v :: v in g.ids ==> r(v) == Update(g, r)(v)
  }

  lemma StationaryStep(g: Graph, r: Ranking, fixed: Ranking)
    requires g.Valid() && g.ids != [] && Stationary(g, fixed)
    ensures Gap(g, Update(g, r), fixed) <= DAMPING * Gap(g, r, fixed)
  {
    Contraction(g, r, fixed);
    GapCongr(g, Update(g, r), Update(g, fixed), Update(g, r), fixed);
  }

  /** The distance to a stationary ranking shrinks geometrically from the uniform start. */
  lemma Converges(g: Graph, k: nat, fixed: Ranking)
    requires g.Valid() && g.ids != [] && Stationary(g, fixed)
    ensures Gap(g, Iterate(g, k), fixed) <= Power(DAMPING, k) * Gap(g, Iterate(g, 0), fixed)
  {
    hide Gap, Update, Stationary, Power;
    var gap := (j: nat) => Gap(g, Iterate(g, j), fixed);
    forall j: nat ensures gap(j + 1) <= DAMPING * gap(j) {
      StationaryStep(g, Iterate(g, j), fixed);
    }
    Geometric(gap, k);
  }

  lemma StationaryUnique(g: Graph, a: Ranking, b: Ranking)
    requires g.Valid() && g.ids != [] && Stationary(g, a) && Stationary(g, b)
    ensures forall v :: v in g.ids ==> a(v) == b(v)
  {
    StationaryStep(g, a, b);
    GapCongr(g, Update(g, a), b, a, b);
    SumNonNegative(g.ids, v => Abs(a(v) - b(v)));
  }

  /** The early stop: once a step moved less than TOLERANCE the result is this close to stationary. */
  lemma StopError(g: Graph, k: nat, fixed: Ranking)
    requires g.Valid() && g.ids != [] && Stationary(g, fixed) && k >= 1
    requires Gap(g, Iterate(g, k), Iterate(g, k - 1)) < TOLERANCE
    ensures Gap(g, Iterate(g, k), fixed) <= DAMPING / (1.0 - DAMPING) * TOLERANCE
  {
    hide Update, Stationary;
    StationaryStep(g, Iterate(g, k - 1), fixed);
    GapTriangle(g, Iterate(g, k - 1), Iterate(g, k), fixed);
    SumCongr(g.ids, v => Abs(Iterate(g, k - 1)(v) - Iterate(g, k)(v)),
      v => Abs(Iterate(g, k)(v) - Iterate(g, k - 1)(v)));
  }

  /** `incoming` is the transpose of the successor map. */
  ghost predicate Transposed(g: Graph, incoming: map<Id, set<Id>>) {
    && (forall v :: v in incoming <==> v in g.ids)
    && forall p, v :: v in incoming ==> (p in incoming[v] <==> g.Edge(p, v))
  }

  ghost function At(ranks: map<Id, real>): Ranking {
    v => if v in ranks then ranks[v] else 0.0
  }

  method SinkTotal(g: Graph, ranks: map<Id, real>) returns (total: real)
    requires g.Valid() && forall v :: v in g.ids ==> v in ranks
    ensures total == SinkMass(g, At(ranks))
  {
    total := 0.0;
    ghost var f := p => if Sink(g, p) then At(ranks)(p) else 0.0;
    for i := 0 to |g.ids|
      invariant total == Sum(g.ids[..i], f)
    {
      SumPrefix(g.ids, i, f);
      var node := g.ids[i];
      assert node in g.ids && At(ranks)(node) == ranks[node];
      if g.out[node] == {} { total := total + ranks[node]; }
    }
    assert g.ids[..|g.ids|] == g.ids;
  }

  method Inbound(g: Graph, parents: set<Id>, ranks: map<Id, real>, ghost v: Id) returns (total: real)
    requires g.Valid() && forall v :: v in g.ids ==> v in ranks
    requires forall p :: p in parents <==> g.Edge(p, v)
    ensures total == Inflow(g, At(ranks), v)
  {
    total := 0.0;
    var rest := parents;
    ghost var r := At(ranks);
    ghost var done: Ranking := p => if p !in rest then Passed(g, r, p, v) else 0.0;
    SumZero(g.ids, done);
    while rest != {}
      invariant rest <= parents
      invariant done == (p => if p !in rest then Passed(g, r, p, v) else 0.0)
      invariant total == Sum(g.ids, done)
    {
      var parent :| parent in rest;
      assert g.Edge(parent, v) && parent in g.ids;
      total := total + ranks[parent] / |g.out[parent]| as real;
      rest := rest - {parent};
      ghost var next: Ranking := p => if p !in rest then Passed(g, r, p, v) else 0.0;
      SumPoint(g.ids, done, next, parent);
      done := next;
    }
    SumCongr(g.ids, done, p => Passed(g, r, p, v));
  }

  method Step(g: Graph, incoming: map<Id, set<Id>>, ranks: map<Id, real>) returns (updated: map<Id, real>)
    requires g.Valid() && g.ids != [] && Transposed(g, incoming)
    requires forall v :: v in ranks <==> v in g.ids
    ensures forall v :: v in updated <==> v in g.ids
    ensures forall v :: v in g.ids ==> updated[v] == Update(g, At(ranks))(v)
    ensures Mass(g, At(ranks)) == 1.0 ==>
      forall v :: v in g.ids ==> updated[v] == Sum(g.ids, u => At(ranks)(u) * Chance(g, u, v))
  {
    hide Inflow, SinkMass, Chance, Sum;
    var size := |g.ids| as real;
    var sinkTotal := SinkTotal(g, ranks);
    var sinkShare := sinkTotal / size;
    updated := map[];
    for i := 0 to |g.ids|
      invariant forall v :: v in updated <==> v in g.ids[..i]
      invariant forall v :: v in updated ==> updated[v] == Update(g, At(ranks))(v)
    {
      var node := g.ids[i];
      var inbound := Inbound(g, incoming[node], ranks, node);
      updated := updated[node := (1.0 - DAMPING) / size + DAMPING * (sinkShare + inbound)];
    }
    hide Update, Mass;
    forall v | v in g.ids && Mass(g, At(ranks)) == 1.0
      ensures updated[v] == Sum(g.ids, u => At(ranks)(u) * Chance(g, u, v))
    {
      UpdateMoves(g, At(ranks), v);
    }
  }

  method Change(g: Graph, updated: map<Id, real>, ranks: map<Id, real>) returns (total: real)
    requires forall v :: v in g.ids ==> v in updated && v in ranks
    ensures total == Gap(g, At(updated), At(ranks))
  {
    total := 0.0;
    ghost var f := v => Abs(At(updated)(v) - At(ranks)(v));
    for i := 0 to |g.ids|
      invariant total == Sum(g.ids[..i], f)
    {
      SumPrefix(g.ids, i, f);
      var node := g.ids[i];
      assert node in g.ids && At(ranks)(node) == ranks[node] && At(updated)(node) == updated[node];
      total := total + Abs(updated[node] - ranks[node]);
    }
    assert g.ids[..|g.ids|] == g.ids;
    SumCongr(g.ids, f, v => Abs(At(updated)(v) - At(ranks)(v)));
  }

  ghost predicate IsIterate(g: Graph, ranks: map<Id, real>, k: nat)
    requires g.ids != []
  {
    && (forall v :: v in ranks <==> v in g.ids)
    && forall v :: v in g.ids ==> ranks[v] == Iterate(g, k)(v)
  }

  ghost predicate Moves(g: Graph, k: nat)
    requires g.ids != [] && k >= 1
  {
    Gap(g, Iterate(g, k), Iterate(g, k - 1)) >= TOLERANCE
  }

  /** Every one of the first k steps moved at least TOLERANCE. */
  ghost predicate KeptMoving(g: Graph, k: nat)
    requires g.ids != []
  {
    forall j: nat :: 1 <= j <= k ==> Moves(g, j)
  }

  lemma StepIterate(g: Graph, ranks: map<Id, real>, k: nat, updated: map<Id, real>)
    requires g.Valid() && g.ids != [] && IsIterate(g, ranks, k)
    requires forall v :: v in updated <==> v in g.ids
    requires forall v :: v in g.ids ==> updated[v] == Update(g, At(ranks))(v)
    ensures IsIterate(g, updated, k + 1)
    ensures Gap(g, At(updated), At(ranks)) >= TOLERANCE <==> Moves(g, k + 1)
    ensures KeptMoving(g, k) && Moves(g, k + 1) ==> KeptMoving(g, k + 1)
  {
    hide Update, Gap, Moves;
    forall v | v in g.ids ensures updated[v] == Iterate(g, k + 1)(v) {
      UpdateCongr(g, At(ranks), Iterate(g, k), v);
    }
    hide Iterate;
    StepMoves(g, ranks, k, updated);
  }

  lemma StepMoves(g: Graph, ranks: map<Id, real>, k: nat, updated: map<Id, real>)
    requires g.ids != [] && IsIterate(g, ranks, k) && IsIterate(g, updated, k + 1)
    ensures Gap(g, At(updated), At(ranks)) >= TOLERANCE <==> Moves(g, k + 1)
  {
    hide Iterate, Gap;
    GapCongr(g, At(updated), At(ranks), Iterate(g, k + 1), Iterate(g, k));
  }

  lemma UpdateCongr(g: Graph, a: Ranking, b: Ranking, v: Id)
    requires g.Valid() && g.ids != [] && forall p :: p in g.ids ==> a(p) == b(p)
    ensures Update(g, a)(v) == Update(g, b)(v)
  {
    SumCongr(g.ids, p => if Sink(g, p) then a(p) else 0.0, p => if Sink(g, p) then b(p) else 0.0);
    SumCongr(g.ids, p => Passed(g, a, p, v), p => Passed(g, b, p, v));
  }

  /** The engine's power iteration: the first iterate that moved less than TOLERANCE, or the last. */
  method Run(g: Graph, incoming: map<Id, set<Id>>) returns (ranks: map<Id, real>, ghost k: nat)
    requires g.Valid() && Transposed(g, incoming)
    ensures g.ids == [] ==> ranks == map[]
    ensures g.ids != [] ==>
      && 1 <= k <= MAX_ITERATIONS && IsIterate(g, ranks, k)
      && KeptMoving(g, k - 1) && (k == MAX_ITERATIONS || !Moves(g, k))
    ensures g.ids != [] ==> forall v :: v in g.ids ==> ranks[v] == Surfer(g, k, v)
  {
    k := 0;
    if |g.ids| == 0 { return map[], 0; }
    ranks := map v | v in g.ids :: 1.0 / |g.ids| as real;
    UniformIterate(g, ranks);
    hide Iterate, Update, Moves, Gap, KeptMoving, Surfer;
    for iteration := 0 to MAX_ITERATIONS
      invariant IsIterate(g, ranks, iteration) && KeptMoving(g, iteration)
      invariant k == iteration
    {
      var updated := Step(g, incoming, ranks);
      var change := Change(g, updated, ranks);
      StepIterate(g, ranks, iteration, updated);
      ranks := updated;
      k := iteration + 1;
      if change < TOLERANCE { break; }
    }
    forall v | v in g.ids ensures ranks[v] == Surfer(g, k, v) { IterateSurfer(g, k, v); }
  }

  /** A step moves on when the surfer's chances change by the tolerance in all. */
  lemma SurferMoves(g: Graph, k: nat)
    requires g.Valid() && g.ids != [] && k >= 1
    ensures Moves(g, k) <==> Sum(g.ids, v => Abs(Surfer(g, k, v) - Surfer(g, k - 1, v))) >= TOLERANCE
  {
    hide Surfer, Iterate;
    forall v | v in g.ids ensures Iterate(g, k)(v) == Surfer(g, k, v) && Iterate(g, k - 1)(v) == Surfer(g, k - 1, v) {
      IterateSurfer(g, k, v);
      IterateSurfer(g, k - 1, v);
    }
    SumCongr(g.ids, v => Abs(Iterate(g, k)(v) - Iterate(g, k - 1)(v)),
      v => Abs(Surfer(g, k, v) - Surfer(g, k - 1, v)));
  }

  lemma UniformIterate(g: Graph, ranks: map<Id, real>)
    requires g.ids != [] && ranks == map v | v in g.ids :: 1.0 / |g.ids| as real
    ensures IsIterate(g, ranks, 0) && KeptMoving(g, 0)
  {
  }
}
