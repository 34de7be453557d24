/** Directed simple graphs, the sets of their walks, and how many walks there are. */
module Graphs {
  import opened Sums

  /** An opaque entity identifier. */
  type Id(==, !new)

  /** `out` holds the successor set of every node, as the metric functions receive it. */
  datatype Graph = Graph(ids: seq<Id>, out: map<Id, set<Id>>) {
    ghost predicate Valid() {
      && Distinct(ids)
      && (forall x :: x in out <==> x in ids)
      && (forall x, y :: x in out && y in out[x] ==> y in ids)
    }

    ghost predicate Edge(x: Id, y: Id) {
      x in out && y in out[x]
    }
  }

  ghost predicate IsWalk(g: Graph, p: seq<Id>) {
    && p != []
    && forall i :: 0 <= i < |p| - 1 ==> g.Edge(p[i], p[i + 1])
  }

  ghost predicate WalkFromTo(g: Graph, s: Id, t: Id, k: nat, p: seq<Id>) {
    IsWalk(g, p) && |p| == k + 1 && p[0] == s && p[k] == t
  }

  /** Every sequence obtained by extending a member of some family[u] along an edge u -> t. */
  ghost function Extend(g: Graph, xs: seq<Id>, family: Id -> set<seq<Id>>, t: Id): set<seq<Id>> {
    set u, p | u in xs && g.Edge(u, t) && p in family(u) :: p + [t]
  }

  /** The set of all walks with k edges from s to t. */
  ghost function Walks(g: Graph, s: Id, t: Id, k: nat): set<seq<Id>>
    decreases k
  {
    if k == 0 then (if s == t then {[s]} else {})
    else Extend(g, g.ids, u => Walks(g, s, u, k - 1), t)
  }

  /** The walks from s to t with j + m edges that are at v after j edges. */
  ghost function WalksVia(g: Graph, s: Id, j: nat, v: Id, t: Id, m: nat): set<seq<Id>>
    decreases m
  {
    if m == 0 then (if v == t then Walks(g, s, t, j) else {})
    else Extend(g, g.ids, u => WalksVia(g, s, j, v, u, m - 1), t)
  }

  ghost function Count(g: Graph, s: Id, t: Id, k: nat): real {
    |Walks(g, s, t, k)| as real
  }

  lemma {:induction false} WalksMember(g: Graph, s: Id, t: Id, k: nat, p: seq<Id>)
    requires g.Valid()
    ensures p in Walks(g, s, t, k) <==> WalkFromTo(g, s, t, k, p)
    decreases k
  {
    if k > 0 {
      if p in Walks(g, s, t, k) {
        var u, q :| u in g.ids && g.Edge(u, t) && q in Walks(g, s, u, k - 1) && p == q + [t];
        WalksMember(g, s, u, k - 1, q);
      }
      if WalkFromTo(g, s, t, k, p) {
        var q := p[..k];
        WalksMember(g, s, q[k - 1], k - 1, q);
        assert g.Edge(p[k - 1], p[k - 1 + 1]);
        assert p == q + [t];
      }
    } else if WalkFromTo(g, s, t, k, p) {
      assert p == [s];
    }
  }

  lemma {:induction false} WalksViaMember(g: Graph, s: Id, j: nat, v: Id, t: Id, m: nat, p: seq<Id>)
    requires g.Valid()
    ensures p in WalksVia(g, s, j, v, t, m) <==> WalkFromTo(g, s, t, j + m, p) && p[j] == v
    decreases m
  {
    if m == 0 {
      WalksMember(g, s, t, j, p);
    } else {
      var k := j + m;
      if p in WalksVia(g, s, j, v, t, m) {
        var u, q :| u in g.ids && g.Edge(u, t) && q in WalksVia(g, s, j, v, u, m - 1) && p == q + [t];
        WalksViaMember(g, s, j, v, u, m - 1, q);
      }
      if WalkFromTo(g, s, t, k, p) && p[j] == v {
        var q := p[..k];
        WalksViaMember(g, s, j, v, q[k - 1], m - 1, q);
        assert g.Edge(p[k - 1], p[k - 1 + 1]);
        assert p == q + [t];
      }
    }
  }

  lemma {:induction false} ImageCard(a: set<seq<Id>>, t: Id)
    ensures |set p | p in a :: p + [t]| == |a|
  {
    var image := set p | p in a :: p + [t];
    if a != {} {
      var q :| q in a;
      var rest := set p | p in a - {q} :: p + [t];
      ImageCard(a - {q}, t);
      forall p | p in a - {q} ensures p + [t] != q + [t] {
        assert (p + [t])[..|p|] == p && (q + [t])[..|q|] == q;
      }
      assert image == rest + {q + [t]};
    } else {
      assert image == {};
    }
  }

  lemma ExtendLast(g: Graph, xs: seq<Id>, family: Id -> set<seq<Id>>, t: Id)
    requires Distinct(xs) && xs != []
    requires forall u, p :: p in family(u) ==> p != [] && p[|p| - 1] == u
    ensures
      var init, last := xs[..|xs| - 1], xs[|xs| - 1];
      var image := if g.Edge(last, t) then set p | p in family(last) :: p + [t] else {};
      && Extend(g, xs, family, t) == Extend(g, init, family, t) + image
      && Extend(g, init, family, t) !! image
  {
    var init, last := xs[..|xs| - 1], xs[|xs| - 1];
    assert forall u :: u in xs <==> u in init || u == last;
    forall p | p in Extend(g, init, family, t) ensures |p| >= 2 && p[|p| - 2] != last {
      var u, q :| u in init && g.Edge(u, t) && q in family(u) && p == q + [t];
      assert p[|p| - 2] == u;
    }
    forall q | q in family(last) ensures (q + [t])[|q + [t]| - 2] == last {
    }
  }

  /** Families that end in their own index are disjoint, so extending them adds up their sizes. */
  lemma {:induction false} ExtendCard(g: Graph, xs: seq<Id>, family: Id -> set<seq<Id>>, t: Id, f: Id -> real)
    requires Distinct(xs)
    requires forall u, p :: p in family(u) ==> p != [] && p[|p| - 1] == u
    requires forall u :: u in xs ==> f(u) == if g.Edge(u, t) then |family(u)| as real else 0.0
    ensures |Extend(g, xs, family, t)| as real == Sum(xs, f)
  {
    if xs == [] {
      assert Extend(g, xs, family, t) == {};
    } else {
      var init, last := xs[..|xs| - 1], xs[|xs| - 1];
      ExtendCard(g, init, family, t, f);
      ExtendLast(g, xs, family, t);
      if g.Edge(last, t) { ImageCard(family(last), t); }
    }
  }

  /** Walks counted by their last edge. */
  lemma CountLastEdge(g: Graph, s: Id, t: Id, k: nat, f: Id -> real)
    requires g.Valid()
    requires forall u :: u in g.ids ==> f(u) == if g.Edge(u, t) then Count(g, s, u, k) else 0.0
    ensures Count(g, s, t, k + 1) == Sum(g.ids, f)
  {
    var family := u => Walks(g, s, u, k);
    forall u, p | p in family(u) ensures p != [] && p[|p| - 1] == u {
      WalksMember(g, s, u, k, p);
    }
    ExtendCard(g, g.ids, family, t, f);
    assert Walks(g, s, t, k + 1) == Extend(g, g.ids, family, t);
  }

  /** A walk through v at step j is a walk to v followed by a walk from v: the counts multiply. */
  ghost predicate ViaMultiplies(g: Graph, s: Id, j: nat, v: Id, t: Id, m: nat) {
    |WalksVia(g, s, j, v, t, m)| as real == Count(g, s, v, j) * Count(g, v, t, m)
  }

  lemma {:induction false} CountVia(g: Graph, s: Id, j: nat, v: Id, t: Id, m: nat)
    requires g.Valid()
    ensures ViaMultiplies(g, s, j, v, t, m)
    decreases m
  {
    if m == 0 {
      CountZero(g, v, t);
    } else {
      hide *;
      var m': nat := m - 1;
      forall u ensures ViaMultiplies(g, s, j, v, u, m') {
        CountVia(g, s, j, v, u, m');
      }
      CountViaStep(g, s, j, v, t, m');
    }
  }

  lemma CountViaStep(g: Graph, s: Id, j: nat, v: Id, t: Id, m: nat)
    requires g.Valid()
    requires forall u :: ViaMultiplies(g, s, j, v, u, m)
    ensures ViaMultiplies(g, s, j, v, t, m + 1)
  {
    hide WalksVia, Count, Sum;
    var f := u => if g.Edge(u, t) then |WalksVia(g, s, j, v, u, m)| as real else 0.0;
    var h := u => if g.Edge(u, t) then Count(g, v, u, m) else 0.0;
    ViaLastEdge(g, s, j, v, t, m, f);
    CountLastEdge(g, v, t, m, h);
    forall u | u in g.ids ensures f(u) == Count(g, s, v, j) * h(u) {
      ViaTerm(g, s, j, v, u, m, g.Edge(u, t));
    }
    SumScale(g.ids, Count(g, s, v, j), h, f);
  }

  lemma ViaTerm(g: Graph, s: Id, j: nat, v: Id, u: Id, m: nat, into: bool)
    requires ViaMultiplies(g, s, j, v, u, m)
    ensures (if into then |WalksVia(g, s, j, v, u, m)| as real else 0.0) ==
      Count(g, s, v, j) * (if into then Count(g, v, u, m) else 0.0)
  {
    hide WalksVia, Count;
  }

  lemma ViaLastEdge(g: Graph, s: Id, j: nat, v: Id, t: Id, m: nat, f: Id -> real)
    requires g.Valid()
    requires forall u :: u in g.ids ==> f(u) == if g.Edge(u, t) then |WalksVia(g, s, j, v, u, m)| as real else 0.0
    ensures |WalksVia(g, s, j, v, t, m + 1)| as real == Sum(g.ids, f)
  {
    var family := u => WalksVia(g, s, j, v, u, m);
    forall u, p | p in family(u) ensures p != [] && p[|p| - 1] == u {
      WalksViaMember(g, s, j, v, u, m, p);
    }
    ExtendCard(g, g.ids, family, t, f);
    assert WalksVia(g, s, j, v, t, m + 1) == Extend(g, g.ids, family, t);
  }

  lemma CountZero(g: Graph, s: Id, t: Id)
    ensures Count(g, s, t, 0) == if s == t then 1.0 else 0.0
  {
  }

  /** Walks counted by the vertex they visit at step j (the Chapman-Kolmogorov equation). */
  lemma {:induction false} CountThroughLayer(g: Graph, s: Id, j: nat, t: Id, m: nat, f: Id -> real)
    requires g.Valid() && t in g.ids
    requires forall v :: v in g.ids ==> f(v) == Count(g, s, v, j) * Count(g, v, t, m)
    ensures Count(g, s, t, j + m) == Sum(g.ids, f)
    decreases m
  {
    hide Count;
    if m == 0 {
      CountLayerZero(g, s, j, t, f);
    } else {
      forall u | u in g.ids
        ensures Count(g, s, u, j + m - 1) == Sum(g.ids, v => Count(g, s, v, j) * Count(g, v, u, m - 1))
      {
        CountThroughLayer(g, s, j, u, m - 1, v => Count(g, s, v, j) * Count(g, v, u, m - 1));
      }
      CountLayerStep(g, s, j, t, m - 1, f);
    }
  }

  lemma CountLayerStep(g: Graph, s: Id, j: nat, t: Id, m: nat, f: Id -> real)
    requires g.Valid() && t in g.ids
    requires forall v :: v in g.ids ==> f(v) == Count(g, s, v, j) * Count(g, v, t, m + 1)
    requires forall u :: u in g.ids ==>
      Count(g, s, u, j + m) == Sum(g.ids, v => Count(g, s, v, j) * Count(g, v, u, m))
    ensures Count(g, s, t, j + m + 1) == Sum(g.ids, f)
  {
    hide Count, Sum, Graph.Edge;
    var into := u => g.Edge(u, t);
    var left := v => Count(g, s, v, j);
    var right := (v, u) => Count(g, v, u, m);
    var last := u => if into(u) then Count(g, s, u, j + m) else 0.0;
    CountLastEdge(g, s, t, j + m, last);
    forall v | v in g.ids ensures f(v) == left(v) * Sum(g.ids, u => if into(u) then right(v, u) else 0.0) {
      CountLastEdge(g, v, t, m, u => if into(u) then right(v, u) else 0.0);
    }
    forall u | u in g.ids && into(u) ensures last(u) == Sum(g.ids, v => left(v) * right(v, u)) {
      SumCongr(g.ids, v => Count(g, s, v, j) * Count(g, v, u, m), v => left(v) * right(v, u));
    }
    SumCompose(g.ids, into, left, right, f, last);
  }

  lemma CountLayerZero(g: Graph, s: Id, j: nat, t: Id, f: Id -> real)
    requires g.Valid() && t in g.ids
    requires forall v :: v in g.ids ==> f(v) == Count(g, s, v, j) * Count(g, v, t, 0)
    ensures Count(g, s, t, j) == Sum(g.ids, f)
  {
    forall v | v in g.ids ensures f(v) == if v == t then Count(g, s, v, j) else 0.0 {
      CountZero(g, v, t);
    }
    SumSingle(g.ids, f, t);
  }

  lemma CountOne(g: Graph, s: Id, t: Id)
    requires g.Valid() && s in g.ids
    ensures Count(g, s, t, 1) == if g.Edge(s, t) then 1.0 else 0.0
  {
    var first := u => if g.Edge(u, t) then Count(g, s, u, 0) else 0.0;
    CountLastEdge(g, s, t, 0, first);
    forall u ensures first(u) == if u == s && g.Edge(s, t) then 1.0 else 0.0 {
      CountZero(g, s, u);
    }
    SumSingle(g.ids, first, s);
  }

  /** Walks counted by their first edge. */
  lemma CountFirstEdge(g: Graph, s: Id, t: Id, k: nat, f: Id -> real)
    requires g.Valid() && s in g.ids && t in g.ids
    requires forall v :: v in g.ids ==> f(v) == if g.Edge(s, v) then Count(g, v, t, k) else 0.0
    ensures Count(g, s, t, k + 1) == Sum(g.ids, f)
  {
    hide Count;
    forall v | v in g.ids ensures f(v) == Count(g, s, v, 1) * Count(g, v, t, k) {
      CountOne(g, s, v);
    }
    CountThroughLayer(g, s, 1, t, k, f);
  }
}
