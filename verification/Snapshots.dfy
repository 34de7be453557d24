/** Immutable graph snapshots: building one from providers and deriving one from another. */
module Snapshots {
  import opened Options
  import opened Sums

  /** Opaque external identifiers and edge types; a payload is the rest of a row. */
  type ExternalId(==, !new)
  type Kind(==, !new)
  type Payload(==, !new)

  datatype Entity = Entity(externalId: ExternalId, payload: Payload, confidence: real)

  /** What an edge carries besides its ends and type. */
  datatype Detail = Detail(confidence: real, metadata: Payload)

  datatype Relationship = Relationship(source: ExternalId, target: ExternalId, kind: Kind, detail: Detail)

  datatype NodeRow = NodeRow(id: int, externalId: ExternalId, payload: Payload, confidence: real)

  datatype EdgeRow = EdgeRow(source: int, target: int, kind: Kind, detail: Detail)

  datatype Snapshot = Snapshot(nodeCount: nat, edgeCount: nat, nodes: seq<NodeRow>, edges: seq<EdgeRow>)

  type EdgeKey = (int, int, Kind)

  // ---------------------------------------------------------------- well-formedness and the external view

  ghost predicate Named(nodes: seq<NodeRow>, id: int, name: ExternalId) {
    exists n :: n in nodes && n.id == id && n.externalId == name
  }

  ghost predicate HasNode(nodes: seq<NodeRow>, name: ExternalId) {
    exists n :: n in nodes && n.externalId == name
  }

  ghost predicate NodesOk(nodes: seq<NodeRow>) {
    forall i, j :: 0 <= i < j < |nodes| ==> nodes[i].id != nodes[j].id && nodes[i].externalId != nodes[j].externalId
  }

  ghost predicate EdgesOk(nodes: seq<NodeRow>, edges: seq<EdgeRow>) {
    && (forall e :: e in edges ==> (exists a :: Named(nodes, e.source, a)) && exists b :: Named(nodes, e.target, b))
    && (forall i, j :: 0 <= i < j < |edges| ==> Key(edges[i]) != Key(edges[j]))
  }

  function Key(e: EdgeRow): EdgeKey {
    (e.source, e.target, e.kind)
  }

  /** Distinct external ids, no dangling edge, unique typed edges, counts equal to contents. */
  ghost predicate WellFormed(s: Snapshot) {
    NodesOk(s.nodes) && EdgesOk(s.nodes, s.edges) && s.nodeCount == |s.nodes| && s.edgeCount == |s.edges|
  }

  /** The snapshot holds a typed edge between two externally named nodes, with this detail. */
  ghost predicate Has(nodes: seq<NodeRow>, edges: seq<EdgeRow>, a: ExternalId, b: ExternalId, kind: Kind,
                      detail: Detail) {
    exists e :: e in edges && Named(nodes, e.source, a) && Named(nodes, e.target, b) && e.kind == kind
      && e.detail == detail
  }

  ghost predicate Joined(nodes: seq<NodeRow>, edges: seq<EdgeRow>, a: ExternalId, b: ExternalId, kind: Kind) {
    exists detail :: Has(nodes, edges, a, b, kind, detail)
  }

  // ---------------------------------------------------------------- keeping the best item of each key

  /** items[i] is the first item of its key with the greatest weight. */
  ghost predicate IsBest<T, K>(items: seq<T>, key: T -> Option<K>, weight: T -> real, i: nat) {
    && i < |items|
    && (forall j :: 0 <= j < |items| && key(items[j]) == key(items[i]) ==> weight(items[j]) <= weight(items[i]))
    && (forall j :: 0 <= j < i && key(items[j]) == key(items[i]) ==> weight(items[j]) < weight(items[i]))
  }

  /** e is that item for the key k. */
  ghost predicate BestOf<T, K>(items: seq<T>, key: T -> Option<K>, weight: T -> real, k: K, e: T) {
    key(e) == Some(k) && exists i: nat :: IsBest(items, key, weight, i) && items[i] == e
  }

  /** The keys in the order a dict would list them: by first appearance. */
  function KeysSeen<T, K(==)>(items: seq<T>, key: T -> Option<K>): seq<K> {
    if items == [] then []
    else
      var earlier := KeysSeen(items[..|items| - 1], key);
      var k := key(items[|items| - 1]);
      if k.Some? && k.value !in earlier then earlier + [k.value] else earlier
  }

  /** An insertion-ordered table of the best items: keys in order of first appearance. */
  ghost predicate IsBestTable<T, K(!new)>(items: seq<T>, key: T -> Option<K>, weight: T -> real, order: seq<K>,
                                   table: map<K, T>) {
    && order == KeysSeen(items, key) && Distinct(order) && (forall k :: k in order <==> k in table)
    && (forall e :: e in items && key(e).Some? ==> key(e).value in table)
    && forall k :: k in table ==> BestOf(items, key, weight, k, table[k])
  }

  lemma BestKept<T, K(!new)>(items: seq<T>, key: T -> Option<K>, weight: T -> real, k: K, best: T, e: T)
    requires BestOf(items, key, weight, k, best) && !(key(e) == Some(k) && weight(e) > weight(best))
    ensures BestOf(items + [e], key, weight, k, best)
  {
    var i: nat :| IsBest(items, key, weight, i) && items[i] == best;
    assert IsBest(items + [e], key, weight, i) && (items + [e])[i] == best;
  }

  lemma BestReplaced<T, K(!new)>(items: seq<T>, key: T -> Option<K>, weight: T -> real, e: T)
    requires key(e).Some? && forall f :: f in items && key(f) == key(e) ==> weight(f) < weight(e)
    ensures BestOf(items + [e], key, weight, key(e).value, e)
  {
    assert forall j :: 0 <= j < |items| ==> items[j] in items;
    assert IsBest(items + [e], key, weight, |items|);
  }

  lemma BestIsGreatest<T, K(!new)>(items: seq<T>, key: T -> Option<K>, weight: T -> real, k: K, best: T, f: T)
    requires BestOf(items, key, weight, k, best)
    ensures best in items && (f in items && key(f) == Some(k) ==> weight(f) <= weight(best))
  {
  }

  lemma BestUnique<T, K(!new)>(items: seq<T>, key: T -> Option<K>, weight: T -> real, k: K, e: T, f: T)
    requires BestOf(items, key, weight, k, e) && BestOf(items, key, weight, k, f)
    ensures e == f
  {
    var i: nat :| IsBest(items, key, weight, i) && items[i] == e;
    var j: nat :| IsBest(items, key, weight, j) && items[j] == f;
  }

  lemma KeepBestStep<T, K(!new)>(items: seq<T>, key: T -> Option<K>, weight: T -> real, order: seq<K>, table: map<K, T>,
                          e: T)
    requires IsBestTable(items, key, weight, order, table)
    ensures key(e).None? ==> IsBestTable(items + [e], key, weight, order, table)
    ensures key(e).Some? && key(e).value !in table ==>
      IsBestTable(items + [e], key, weight, order + [key(e).value], table[key(e).value := e])
    ensures key(e).Some? && key(e).value in table && weight(e) > weight(table[key(e).value]) ==>
      IsBestTable(items + [e], key, weight, order, table[key(e).value := e])
    ensures key(e).Some? && key(e).value in table && weight(e) <= weight(table[key(e).value]) ==>
      IsBestTable(items + [e], key, weight, order, table)
  {
    hide BestOf, IsBest;
    assert (items + [e])[..|items|] == items;
    forall k | k in table && !(key(e) == Some(k) && weight(e) > weight(table[k]))
      ensures BestOf(items + [e], key, weight, k, table[k])
    {
      BestKept(items, key, weight, k, table[k], e);
    }
    if key(e).Some? && (key(e).value !in table || weight(e) > weight(table[key(e).value])) {
      forall f | f in items && key(f) == key(e) ensures weight(f) < weight(e) {
        BestIsGreatest(items, key, weight, key(e).value, table[key(e).value], f);
      }
      BestReplaced(items, key, weight, e);
    }
  }

  /** One pass that keeps, for each key, the first item of greatest weight; items without a key are skipped. */
  method KeepBest<T, K(==, !new)>(items: seq<T>, key: T -> Option<K>, weight: T -> real)
    returns (order: seq<K>, table: map<K, T>)
    ensures IsBestTable(items, key, weight, order, table)
  {
    order, table := [], map[];
    for i := 0 to |items|
      invariant IsBestTable(items[..i], key, weight, order, table)
    {
      var e := items[i];
      assert items[..i + 1] == items[..i] + [e];
      KeepBestStep(items[..i], key, weight, order, table, e);
      hide IsBestTable;
      var k := key(e);
      if k.Some? {
        if k.value !in table {
          order := order + [k.value];
          table := table[k.value := e];
        } else if weight(e) > weight(table[k.value]) {
          table := table[k.value := e];
        }
      }
    }
    assert items[..|items|] == items;
  }

  // ---------------------------------------------------------------- rows

  /** The rows inserted for a list of nodes, with consecutive fresh ids. */
  ghost predicate Inserted(from: seq<Entity>, first: int, nodes: seq<NodeRow>, ids: map<ExternalId, int>) {
    && |nodes| == |from|
    && (forall i :: 0 <= i < |from| ==>
      nodes[i] == NodeRow(first + i, from[i].externalId, from[i].payload, from[i].confidence))
    && (forall k :: k in ids <==> exists i :: 0 <= i < |from| && from[i].externalId == k)
    && (forall i :: 0 <= i < |from| ==> ids[from[i].externalId] == first + i)
  }

  ghost predicate DistinctNames(from: seq<Entity>) {
    forall i, j :: 0 <= i < j < |from| ==> from[i].externalId != from[j].externalId
  }

  lemma InsertedNames(from: seq<Entity>, first: int, nodes: seq<NodeRow>, ids: map<ExternalId, int>)
    requires DistinctNames(from) && Inserted(from, first, nodes, ids)
    ensures Names(nodes, ids)
  {
    forall id, name ensures Named(nodes, id, name) <==> name in ids && ids[name] == id {
      if Named(nodes, id, name) {
        var n :| n in nodes && n.id == id && n.externalId == name;
        var i :| 0 <= i < |nodes| && nodes[i] == n;
        assert from[i].externalId == name;
      }
      if name in ids && ids[name] == id {
        var i :| 0 <= i < |from| && from[i].externalId == name;
        assert nodes[i] in nodes;
      }
    }
    forall a, b | a in ids && b in ids && ids[a] == ids[b] ensures a == b {
      var i :| 0 <= i < |from| && from[i].externalId == a;
      var j :| 0 <= j < |from| && from[j].externalId == b;
    }
  }

  method InsertNodes(from: seq<Entity>, first: int) returns (nodes: seq<NodeRow>, ids: map<ExternalId, int>)
    requires DistinctNames(from)
    ensures Inserted(from, first, nodes, ids)
  {
    nodes, ids := [], map[];
    for i := 0 to |from|
      invariant Inserted(from[..i], first, nodes, ids)
    {
      var item := from[i];
      nodes := nodes + [NodeRow(first + i, item.externalId, item.payload, item.confidence)];
      ids := ids[item.externalId := first + i];
    }
    assert from[..|from|] == from;
  }

  function RelationshipKey(ids: map<ExternalId, int>, r: Relationship): Option<EdgeKey> {
    if r.source in ids && r.target in ids then Some((ids[r.source], ids[r.target], r.kind)) else None
  }

  /** The edge rows of a table of best relationships. */
  ghost predicate EdgeRows(order: seq<EdgeKey>, table: map<EdgeKey, Relationship>, edges: seq<EdgeRow>) {
    && |edges| == |order| && (forall k :: k in order ==> k in table)
    && forall i :: 0 <= i < |order| ==>
      edges[i] == EdgeRow(order[i].0, order[i].1, order[i].2, table[order[i]].detail)
  }

  method InsertEdges(order: seq<EdgeKey>, table: map<EdgeKey, Relationship>) returns (edges: seq<EdgeRow>)
    requires forall k :: k in order ==> k in table
    ensures EdgeRows(order, table, edges)
  {
    edges := [];
    for i := 0 to |order|
      invariant |edges| == i
      invariant forall j :: 0 <= j < i ==>
        edges[j] == EdgeRow(order[j].0, order[j].1, order[j].2, table[order[j]].detail)
    {
      var key := order[i];
      edges := edges + [EdgeRow(key.0, key.1, key.2, table[key].detail)];
    }
  }

  /** Relationship i is the first of greatest confidence for this typed pair, and c is its detail. */
  ghost predicate ChosenAt(rels: seq<Relationship>, a: ExternalId, b: ExternalId, kind: Kind, c: Detail, i: nat) {
    && i < |rels| && rels[i] == Relationship(a, b, kind, c)
    && (forall j :: 0 <= j < |rels| && SamePair(rels[j], a, b, kind) ==> rels[j].detail.confidence <= c.confidence)
    && (forall j :: 0 <= j < i && SamePair(rels[j], a, b, kind) ==> rels[j].detail.confidence < c.confidence)
  }

  predicate SamePair(r: Relationship, a: ExternalId, b: ExternalId, kind: Kind) {
    r.source == a && r.target == b && r.kind == kind
  }

  ghost predicate Chosen(rels: seq<Relationship>, a: ExternalId, b: ExternalId, kind: Kind, c: Detail) {
    exists i: nat :: ChosenAt(rels, a, b, kind, c, i)
  }

  function Weight(r: Relationship): real {
    r.detail.confidence
  }

  /** The ids table names the rows: exactly what InsertNodes leaves behind. */
  ghost predicate Names(nodes: seq<NodeRow>, ids: map<ExternalId, int>) {
    && NodesOk(nodes) && Injective(ids)
    && forall id, name :: Named(nodes, id, name) <==> name in ids && ids[name] == id
  }

  lemma HasStores(nodes: seq<NodeRow>, ids: map<ExternalId, int>, edges: seq<EdgeRow>, a: ExternalId, b: ExternalId,
                  kind: Kind, c: Detail)
    requires Names(nodes, ids)
    ensures Has(nodes, edges, a, b, kind, c) <==> a in ids && b in ids && Stores(edges, (ids[a], ids[b], kind), c)
  {
    if Has(nodes, edges, a, b, kind, c) {
      var e :| e in edges && Named(nodes, e.source, a) && Named(nodes, e.target, b) && e.kind == kind
        && e.detail == c;
      assert e == EdgeRow(ids[a], ids[b], kind, c);
    }
    if a in ids && b in ids && Stores(edges, (ids[a], ids[b], kind), c) {
      var e := EdgeRow(ids[a], ids[b], kind, c);
      assert Named(nodes, e.source, a) && Named(nodes, e.target, b);
    }
  }

  lemma NamesHave(nodes: seq<NodeRow>, ids: map<ExternalId, int>, name: ExternalId)
    requires Names(nodes, ids)
    ensures HasNode(nodes, name) <==> name in ids
  {
    if n :| n in nodes && n.externalId == name { assert Named(nodes, n.id, name); }
    if name in ids { assert Named(nodes, ids[name], name); }
  }

  /** The stored edges, read by external id, are the known-ended relationships that were first to
      reach the greatest confidence of their pair. */
  lemma EdgesByName(rels: seq<Relationship>, ids: map<ExternalId, int>, key: Relationship -> Option<EdgeKey>,
                    order: seq<EdgeKey>, table: map<EdgeKey, Relationship>, edges: seq<EdgeRow>, a: ExternalId,
                    b: ExternalId, kind: Kind, c: Detail)
    requires Injective(ids) && a in ids && b in ids && forall r :: key(r) == RelationshipKey(ids, r)
    requires IsBestTable(rels, key, Weight, order, table) && EdgeRows(order, table, edges)
    ensures Stores(edges, (ids[a], ids[b], kind), c) <==> Chosen(rels, a, b, kind, c)
  {
    var k := (ids[a], ids[b], kind);
    RowOf(order, table, edges, k, c);
    var r := Relationship(a, b, kind, c);
    BestIsChosen(rels, ids, key, r);
    if Chosen(rels, a, b, kind, c) {
      assert r in rels && key(r) == Some(k);
      hide BestOf, Chosen;
      BestUnique(rels, key, Weight, k, table[k], r);
    }
    if k in table && table[k].detail == c { assert key(table[k]) == Some(k); }
  }

  /** Keeping the best under the row key chooses under the external names. */
  lemma BestIsChosen(rels: seq<Relationship>, ids: map<ExternalId, int>, key: Relationship -> Option<EdgeKey>,
                     r: Relationship)
    requires Injective(ids) && r.source in ids && r.target in ids && forall q :: key(q) == RelationshipKey(ids, q)
    ensures BestOf(rels, key, Weight, (ids[r.source], ids[r.target], r.kind), r) <==>
      Chosen(rels, r.source, r.target, r.kind, r.detail)
  {
    forall q ensures key(q) == key(r) <==> SamePair(q, r.source, r.target, r.kind) {
    }
    forall i: nat ensures ChosenAt(rels, r.source, r.target, r.kind, r.detail, i) <==>
      IsBest(rels, key, Weight, i) && rels[i] == r {
    }
    hide ChosenAt, IsBest;
    if Chosen(rels, r.source, r.target, r.kind, r.detail) {
      var i: nat :| ChosenAt(rels, r.source, r.target, r.kind, r.detail, i);
      assert IsBest(rels, key, Weight, i);
    }
    if i: nat :| IsBest(rels, key, Weight, i) && rels[i] == r {
      assert ChosenAt(rels, r.source, r.target, r.kind, r.detail, i);
    }
  }

  lemma RowOf(order: seq<EdgeKey>, table: map<EdgeKey, Relationship>, edges: seq<EdgeRow>, k: EdgeKey, c: Detail)
    requires EdgeRows(order, table, edges) && forall x :: x in order <==> x in table
    ensures Stores(edges, k, c) <==> k in table && table[k].detail == c
  {
    if Stores(edges, k, c) {
      var i :| 0 <= i < |edges| && edges[i] == EdgeRow(k.0, k.1, k.2, c);
      assert order[i] in order;
    }
    if k in table {
      var i :| 0 <= i < |order| && order[i] == k;
      assert edges[i] in edges;
    }
  }

  // ---------------------------------------------------------------- deriving

  function AsEntity(n: NodeRow): Entity {
    Entity(n.externalId, n.payload, n.confidence)
  }

  function AsEntities(nodes: seq<NodeRow>): seq<Entity> {
    seq(|nodes|, i requires 0 <= i < |nodes| => AsEntity(nodes[i]))
  }

  /** The base edges with their ends renumbered. */
  ghost predicate Copied(base: seq<EdgeRow>, renumber: map<int, int>, edges: seq<EdgeRow>) {
    && |edges| == |base|
    && forall i :: 0 <= i < |base| ==>
      && base[i].source in renumber && base[i].target in renumber
      && edges[i] == EdgeRow(renumber[base[i].source], renumber[base[i].target], base[i].kind, base[i].detail)
  }

  ghost predicate Renumbering(nodes: seq<NodeRow>, ids: map<ExternalId, int>, renumber: map<int, int>) {
    && (forall i :: 0 <= i < |nodes| ==>
      nodes[i].id in renumber && nodes[i].externalId in ids && renumber[nodes[i].id] == ids[nodes[i].externalId])
    && forall k :: k in renumber ==> exists i :: 0 <= i < |nodes| && nodes[i].id == k
  }

  function Keys(edges: seq<EdgeRow>): set<EdgeKey> {
    set e | e in edges :: Key(e)
  }

  /** The rows that new relationships add to the edges already present; the first of a key wins. */
  function Additions(present: set<EdgeKey>, ids: map<ExternalId, int>, rels: seq<Relationship>): seq<EdgeRow> {
    if rels == [] then []
    else
      var earlier := Additions(present, ids, rels[..|rels| - 1]);
      var last := rels[|rels| - 1];
      var key := RelationshipKey(ids, last);
      if key.Some? && key.value !in present && key.value !in Keys(earlier)
      then earlier + [EdgeRow(key.value.0, key.value.1, key.value.2, last.detail)] else earlier
  }

  /** The detail of the first relationship that joins this typed pair. */
  function FirstDetail(rels: seq<Relationship>, a: ExternalId, b: ExternalId, kind: Kind): Option<Detail> {
    if rels == [] then None
    else
      var earlier := FirstDetail(rels[..|rels| - 1], a, b, kind);
      var last := rels[|rels| - 1];
      if earlier.None? && last.source == a && last.target == b && last.kind == kind then Some(last.detail)
        else earlier
  }

  ghost predicate Injective(ids: map<ExternalId, int>) {
    forall x, y :: x in ids && y in ids && ids[x] == ids[y] ==> x == y
  }

  ghost predicate UniqueKeys(edges: seq<EdgeRow>) {
    forall i, j :: 0 <= i < j < |edges| ==> Key(edges[i]) != Key(edges[j])
  }

  lemma UniqueAppend(edges: seq<EdgeRow>, e: EdgeRow)
    requires UniqueKeys(edges) && Key(e) !in Keys(edges)
    ensures UniqueKeys(edges + [e])
  {
    assert forall i :: 0 <= i < |edges| ==> edges[i] in edges;
  }

  lemma KeysAppend(edges: seq<EdgeRow>, e: EdgeRow)
    ensures Keys(edges + [e]) == Keys(edges) + {Key(e)}
  {
    assert forall f :: f in edges + [e] <==> f in edges || f == e;
  }

  /** Additions never repeat a key, never touch a present one, and only join known nodes. */
  lemma {:induction false} AdditionsUnique(present: set<EdgeKey>, ids: map<ExternalId, int>, rels: seq<Relationship>)
    ensures UniqueKeys(Additions(present, ids, rels)) && Keys(Additions(present, ids, rels)) !! present
    ensures forall e :: e in Additions(present, ids, rels) ==>
      (exists a :: a in ids && ids[a] == e.source) && exists b :: b in ids && ids[b] == e.target
  {
    if rels != [] {
      var init, last := rels[..|rels| - 1], rels[|rels| - 1];
      var earlier := Additions(present, ids, init);
      AdditionsUnique(present, ids, init);
      var key := RelationshipKey(ids, last);
      if key.Some? && key.value !in present && key.value !in Keys(earlier) {
        var e := EdgeRow(key.value.0, key.value.1, key.value.2, last.detail);
        UniqueAppend(earlier, e);
        KeysAppend(earlier, e);
      }
    }
  }

  ghost predicate Stores(edges: seq<EdgeRow>, key: EdgeKey, c: Detail) {
    EdgeRow(key.0, key.1, key.2, c) in edges
  }

  lemma StoresKey(edges: seq<EdgeRow>, key: EdgeKey)
    ensures key in Keys(edges) <==> exists c :: Stores(edges, key, c)
  {
    if key in Keys(edges) {
      var e :| e in edges && Key(e) == key;
      assert Stores(edges, key, e.detail);
    }
    if c :| Stores(edges, key, c) {
      assert Key(EdgeRow(key.0, key.1, key.2, c)) == key;
    }
  }

  /** A new typed pair enters with the detail of its first relationship, unless it was present. */
  lemma {:induction false} AdditionsFirst(present: set<EdgeKey>, ids: map<ExternalId, int>, rels: seq<Relationship>,
                                          a: ExternalId, b: ExternalId, kind: Kind, c: Detail)
    requires Injective(ids) && a in ids && b in ids
    ensures Stores(Additions(present, ids, rels), (ids[a], ids[b], kind), c) <==>
      (ids[a], ids[b], kind) !in present && FirstDetail(rels, a, b, kind) == Some(c)
  {
    if rels != [] {
      var k := (ids[a], ids[b], kind);
      var init, last := rels[..|rels| - 1], rels[|rels| - 1];
      var earlier := Additions(present, ids, init);
      AdditionsFirst(present, ids, init, a, b, kind, c);
      StoresKey(earlier, k);
      var first := FirstDetail(init, a, b, kind);
      if first.Some? { AdditionsFirst(present, ids, init, a, b, kind, first.value); }
      forall d ensures Stores(earlier, k, d) <==> k !in present && first == Some(d) {
        AdditionsFirst(present, ids, init, a, b, kind, d);
      }
    }
  }

  lemma CopiedRow(base: Snapshot, ids: map<ExternalId, int>, renumber: map<int, int>, copied: seq<EdgeRow>, i: nat,
                  a: ExternalId, b: ExternalId, kind: Kind, c: Detail)
    requires Injective(ids) && Renumbering(base.nodes, ids, renumber) && Copied(base.edges, renumber, copied)
    requires a in ids && b in ids && i < |base.edges|
    ensures
      var e := base.edges[i];
      copied[i] == EdgeRow(ids[a], ids[b], kind, c) <==>
      Named(base.nodes, e.source, a) && Named(base.nodes, e.target, b) && e.kind == kind && e.detail == c
  {
    RenumberNamed(base.nodes, ids, renumber, base.edges[i].source, a);
    RenumberNamed(base.nodes, ids, renumber, base.edges[i].target, b);
    hide Named, Renumbering, Injective;
  }

  /** Copying keeps every edge, read by external id. */
  lemma CopiedStores(base: Snapshot, ids: map<ExternalId, int>, renumber: map<int, int>, copied: seq<EdgeRow>,
                     a: ExternalId, b: ExternalId, kind: Kind, c: Detail)
    requires Injective(ids) && Renumbering(base.nodes, ids, renumber) && Copied(base.edges, renumber, copied)
    requires a in ids && b in ids
    ensures Stores(copied, (ids[a], ids[b], kind), c) <==> Has(base.nodes, base.edges, a, b, kind, c)
  {
    hide Named, Renumbering, Injective;
    if Stores(copied, (ids[a], ids[b], kind), c) {
      var i :| 0 <= i < |copied| && copied[i] == EdgeRow(ids[a], ids[b], kind, c);
      CopiedRow(base, ids, renumber, copied, i, a, b, kind, c);
      assert base.edges[i] in base.edges;
    }
    if Has(base.nodes, base.edges, a, b, kind, c) {
      var e :| e in base.edges && Named(base.nodes, e.source, a) && Named(base.nodes, e.target, b) && e.kind == kind
        && e.detail == c;
      var i :| 0 <= i < |base.edges| && base.edges[i] == e;
      CopiedRow(base, ids, renumber, copied, i, a, b, kind, c);
      assert copied[i] in copied;
    }
  }

  lemma RenumberNamed(nodes: seq<NodeRow>, ids: map<ExternalId, int>, renumber: map<int, int>, id: int,
                      name: ExternalId)
    requires Injective(ids) && Renumbering(nodes, ids, renumber) && id in renumber && name in ids
    ensures Named(nodes, id, name) <==> renumber[id] == ids[name]
  {
    var i :| 0 <= i < |nodes| && nodes[i].id == id;
    assert nodes[i] in nodes;
    if Named(nodes, id, name) {
      var n :| n in nodes && n.id == id && n.externalId == name;
      var j :| 0 <= j < |nodes| && nodes[j] == n;
    }
  }

  /** A derived snapshot, read by external id: the base edges, plus the first new relationship of each
      typed pair whose ends exist and which the base did not join. */
  lemma DerivedEdges(base: Snapshot, ids: map<ExternalId, int>, renumber: map<int, int>, copied: seq<EdgeRow>,
                     rels: seq<Relationship>, nodes: seq<NodeRow>, a: ExternalId, b: ExternalId, kind: Kind, c: Detail)
    requires Names(nodes, ids) && Renumbering(base.nodes, ids, renumber) && Copied(base.edges, renumber, copied)
    requires forall name :: name in ids <==> HasNode(base.nodes, name)
    ensures Has(nodes, copied + Additions(Keys(copied), ids, rels), a, b, kind, c) <==>
      DerivedHas(base, rels, a, b, kind, c)
  {
    var added := Additions(Keys(copied), ids, rels);
    HasStores(nodes, ids, copied + added, a, b, kind, c);
    if a in ids && b in ids {
      var k := (ids[a], ids[b], kind);
      AdditionsFirst(Keys(copied), ids, rels, a, b, kind, c);
      StoresKey(copied, k);
      forall d ensures Stores(copied, k, d) <==> Has(base.nodes, base.edges, a, b, kind, d) {
        CopiedStores(base, ids, renumber, copied, a, b, kind, d);
      }
    } else {
      NotJoined(base, a, b, kind, c);
    }
  }

  lemma NotJoined(base: Snapshot, a: ExternalId, b: ExternalId, kind: Kind, c: Detail)
    requires !HasNode(base.nodes, a) || !HasNode(base.nodes, b)
    ensures !Has(base.nodes, base.edges, a, b, kind, c)
  {
  }

  ghost predicate DerivedHas(base: Snapshot, rels: seq<Relationship>, a: ExternalId, b: ExternalId, kind: Kind,
                             c: Detail) {
    || Has(base.nodes, base.edges, a, b, kind, c)
    || (!Joined(base.nodes, base.edges, a, b, kind) && HasNode(base.nodes, a) && HasNode(base.nodes, b)
        && FirstDetail(rels, a, b, kind) == Some(c))
  }

  // ---------------------------------------------------------------- the engine object

  datatype Error = SnapshotNotFound

  datatype Result<T> = Ok(value: T) | Err(error: Error)

  /** The snapshot build promises for these providers. */
  ghost predicate BuiltFrom(entities: seq<Entity>, rels: seq<Relationship>, s: Snapshot) {
    && WellFormed(s)
    && (forall e :: e in entities ==> HasNode(s.nodes, e.externalId))
    && (forall n :: n in s.nodes ==> BestOf(entities, EntityKey, EntityWeight, n.externalId, AsEntity(n)))
    && (forall a, b, kind, c :: Has(s.nodes, s.edges, a, b, kind, c) <==>
      HasNode(s.nodes, a) && HasNode(s.nodes, b) && Chosen(rels, a, b, kind, c))
  }

  /** The snapshot derive promises for this base. */
  ghost predicate DerivedFrom(base: Snapshot, rels: seq<Relationship>, s: Snapshot) {
    && WellFormed(s)
    && |s.nodes| == |base.nodes|
    && (forall i :: 0 <= i < |base.nodes| ==> s.nodes[i] == base.nodes[i].(id := s.nodes[i].id))
    && (forall a, b, kind, c :: Has(s.nodes, s.edges, a, b, kind, c) <==> DerivedHas(base, rels, a, b, kind, c))
  }

  /** The node row holds the first entity of greatest confidence among those with its external id. */
  ghost predicate FirstBest(entities: seq<Entity>, n: NodeRow) {
    exists i :: 0 <= i < |entities| && entities[i] == Entity(n.externalId, n.payload, n.confidence)
      && forall j :: 0 <= j < |entities| && entities[j].externalId == n.externalId ==>
        entities[j].confidence <= n.confidence && (j < i ==> entities[j].confidence < n.confidence)
  }

  lemma BestIsFirst(entities: seq<Entity>, n: NodeRow)
    requires BestOf(entities, EntityKey, EntityWeight, n.externalId, AsEntity(n))
    ensures FirstBest(entities, n)
  {
    var i: nat :| IsBest(entities, EntityKey, EntityWeight, i) && entities[i] == AsEntity(n);
    assert EntityKey(entities[i]) == Some(n.externalId) && EntityWeight(entities[i]) == n.confidence;
    forall j | 0 <= j < |entities| && entities[j].externalId == n.externalId
      ensures entities[j].confidence <= n.confidence && (j < i ==> entities[j].confidence < n.confidence)
    {
      assert EntityKey(entities[j]) == Some(n.externalId) && EntityWeight(entities[j]) == entities[j].confidence;
    }
  }

  /** What a new typed pair is stored with: the detail of the first relationship that joins it. */
  lemma {:induction false} FirstDetailExact(rels: seq<Relationship>, a: ExternalId, b: ExternalId, kind: Kind,
                                            c: Detail)
    ensures FirstDetail(rels, a, b, kind) == Some(c) <==>
      exists i :: 0 <= i < |rels| && rels[i] == Relationship(a, b, kind, c)
        && forall j :: 0 <= j < i ==> !(rels[j].source == a && rels[j].target == b && rels[j].kind == kind)
    ensures FirstDetail(rels, a, b, kind) == None <==>
      forall j :: 0 <= j < |rels| ==> !(rels[j].source == a && rels[j].target == b && rels[j].kind == kind)
  {
    if rels != [] {
      var n := |rels| - 1;
      FirstDetailExact(rels[..n], a, b, kind, c);
      assert forall j :: 0 <= j < n ==> rels[..n][j] == rels[j];
      hide FirstDetail;
      FirstDetailStep(rels, a, b, kind);
      if FirstDetail(rels[..n], a, b, kind) == Some(c) {
        var i :| 0 <= i < n && rels[..n][i] == Relationship(a, b, kind, c)
          && forall j :: 0 <= j < i ==>
            !(rels[..n][j].source == a && rels[..n][j].target == b && rels[..n][j].kind == kind);
        assert rels[i] == Relationship(a, b, kind, c);
      }
    }
  }

  lemma FirstDetailStep(rels: seq<Relationship>, a: ExternalId, b: ExternalId, kind: Kind)
    requires rels != []
    ensures
      var earlier, last := FirstDetail(rels[..|rels| - 1], a, b, kind), rels[|rels| - 1];
      FirstDetail(rels, a, b, kind) ==
        if earlier.None? && last.source == a && last.target == b && last.kind == kind then Some(last.detail)
          else earlier
  {
  }

  function EntityKey(e: Entity): Option<ExternalId> {
    Some(e.externalId)
  }

  function EntityWeight(e: Entity): real {
    e.confidence
  }

  lemma DerivedWellFormed(base: Snapshot, rels: seq<Relationship>, s: Snapshot)
    requires DerivedFrom(base, rels, s)
    ensures WellFormed(s)
  {
  }

  /** The rows of a derived snapshot: nodes copied under fresh ids, edges renumbered, new edges appended. */
  method DeriveRows(base: Snapshot, rels: seq<Relationship>, first: int) returns (s: Snapshot)
    requires WellFormed(base)
    ensures DerivedFrom(base, rels, s)
  {
    var from := AsEntities(base.nodes);
    AsEntitiesDistinct(base.nodes);
    var nodes, ids := InsertNodes(from, first);
    forall i | 0 <= i < |base.nodes| ensures base.nodes[i].externalId in ids {
      assert from[i].externalId == base.nodes[i].externalId;
    }
    var renumber := Renumber(base.nodes, ids);
    hide Inserted, Renumbering, Copied, NodesOk, EdgesOk, Additions, DerivedFrom;
    var copied := CopyEdges(base.nodes, base.edges, ids, renumber);
    var edges := AddRelationships(copied, ids, rels);
    DerivedCorrectly(base, rels, first, nodes, ids, renumber, copied);
    s := Snapshot(base.nodeCount, |edges|, nodes, edges);
  }

  lemma AsEntitiesDistinct(nodes: seq<NodeRow>)
    requires NodesOk(nodes)
    ensures DistinctNames(AsEntities(nodes))
  {
  }

  method Renumber(nodes: seq<NodeRow>, ids: map<ExternalId, int>) returns (renumber: map<int, int>)
    requires NodesOk(nodes) && forall i :: 0 <= i < |nodes| ==> nodes[i].externalId in ids
    ensures Renumbering(nodes, ids, renumber)
  {
    renumber := map[];
    for i := 0 to |nodes|
      invariant Renumbering(nodes[..i], ids, renumber)
    {
      renumber := renumber[nodes[i].id := ids[nodes[i].externalId]];
    }
    assert nodes[..|nodes|] == nodes;
  }

  method CopyEdges(nodes: seq<NodeRow>, base: seq<EdgeRow>, ghost ids: map<ExternalId, int>, renumber: map<int, int>)
    returns (copied: seq<EdgeRow>)
    requires EdgesOk(nodes, base) && Renumbering(nodes, ids, renumber)
    ensures Copied(base, renumber, copied)
  {
    copied := [];
    for i := 0 to |base|
      invariant Copied(base[..i], renumber, copied)
    {
      var e := base[i];
      assert e in base;
      EndsRenumbered(nodes, base, ids, renumber, e);
      copied := copied + [EdgeRow(renumber[e.source], renumber[e.target], e.kind, e.detail)];
    }
    assert base[..|base|] == base;
  }

  lemma EndsRenumbered(nodes: seq<NodeRow>, base: seq<EdgeRow>, ids: map<ExternalId, int>, renumber: map<int, int>,
                       e: EdgeRow)
    requires EdgesOk(nodes, base) && Renumbering(nodes, ids, renumber) && e in base
    ensures e.source in renumber && e.target in renumber
  {
    var a :| Named(nodes, e.source, a);
    var b :| Named(nodes, e.target, b);
    var n :| n in nodes && n.id == e.source && n.externalId == a;
    var m :| m in nodes && m.id == e.target && m.externalId == b;
    var i :| 0 <= i < |nodes| && nodes[i] == n;
    var j :| 0 <= j < |nodes| && nodes[j] == m;
  }

  /** The loop over the new relationships: edge_keys starts with the copied keys. */
  method AddRelationships(copied: seq<EdgeRow>, ids: map<ExternalId, int>, rels: seq<Relationship>)
    returns (edges: seq<EdgeRow>)
    ensures edges == copied + Additions(Keys(copied), ids, rels)
  {
    edges := copied;
    var keys := Keys(copied);
    for i := 0 to |rels|
      invariant edges == copied + Additions(Keys(copied), ids, rels[..i])
      invariant keys == Keys(copied) + Keys(Additions(Keys(copied), ids, rels[..i]))
    {
      assert rels[..i + 1][..i] == rels[..i];
      var item := rels[i];
      ghost var earlier := Additions(Keys(copied), ids, rels[..i]);
      if item.source !in ids || item.target !in ids { continue; }
      var key := (ids[item.source], ids[item.target], item.kind);
      if key in keys { continue; }
      keys := keys + {key};
      KeysAppend(earlier, EdgeRow(key.0, key.1, key.2, item.detail));
      edges := edges + [EdgeRow(key.0, key.1, key.2, item.detail)];
    }
    assert rels[..|rels|] == rels;
  }

  lemma BuiltNodes(entities: seq<Entity>, from: seq<Entity>, nodes: seq<NodeRow>, ids: map<ExternalId, int>, first: int)
    requires Inserted(from, first, nodes, ids)
    requires forall i :: 0 <= i < |from| ==> BestOf(entities, EntityKey, EntityWeight, from[i].externalId, from[i])
    requires forall e :: e in entities ==> exists i :: 0 <= i < |from| && from[i].externalId == e.externalId
    ensures forall e :: e in entities ==> HasNode(nodes, e.externalId)
    ensures forall n :: n in nodes ==> BestOf(entities, EntityKey, EntityWeight, n.externalId, AsEntity(n))
  {
    hide BestOf;
    forall e | e in entities ensures HasNode(nodes, e.externalId) {
      var i :| 0 <= i < |from| && from[i].externalId == e.externalId;
      assert nodes[i] in nodes;
    }
    forall n | n in nodes ensures BestOf(entities, EntityKey, EntityWeight, n.externalId, AsEntity(n)) {
      var i :| 0 <= i < |nodes| && nodes[i] == n;
      assert AsEntity(n) == from[i];
    }
  }

  lemma BuiltEdges(rels: seq<Relationship>, nodes: seq<NodeRow>, ids: map<ExternalId, int>,
                   key: Relationship -> Option<EdgeKey>, order: seq<EdgeKey>, table: map<EdgeKey, Relationship>,
                   edges: seq<EdgeRow>)
    requires Names(nodes, ids) && forall r :: key(r) == RelationshipKey(ids, r)
    requires IsBestTable(rels, key, Weight, order, table) && EdgeRows(order, table, edges)
    ensures EdgesOk(nodes, edges)
    ensures forall a, b, kind, c :: Has(nodes, edges, a, b, kind, c) <==>
      HasNode(nodes, a) && HasNode(nodes, b) && Chosen(rels, a, b, kind, c)
  {
    forall e | e in edges ensures (exists a :: Named(nodes, e.source, a)) && exists b :: Named(nodes, e.target, b) {
      var i :| 0 <= i < |edges| && edges[i] == e;
      assert order[i] in order;
      var r := table[order[i]];
      assert key(r) == Some(order[i]);
      assert Named(nodes, e.source, r.source) && Named(nodes, e.target, r.target);
    }
    forall i, j | 0 <= i < j < |edges| ensures Key(edges[i]) != Key(edges[j]) {
      assert Key(edges[i]) == order[i] && Key(edges[j]) == order[j];
    }
    hide IsBestTable, EdgeRows, Has, Chosen, Stores, HasNode;
    forall a, b, kind, c ensures Has(nodes, edges, a, b, kind, c) <==>
      HasNode(nodes, a) && HasNode(nodes, b) && Chosen(rels, a, b, kind, c)
    {
      HasStores(nodes, ids, edges, a, b, kind, c);
      NamesHave(nodes, ids, a);
      NamesHave(nodes, ids, b);
      if a in ids && b in ids { EdgesByName(rels, ids, key, order, table, edges, a, b, kind, c); }
    }
  }

  lemma DerivedCorrectly(base: Snapshot, rels: seq<Relationship>, first: int, nodes: seq<NodeRow>,
                         ids: map<ExternalId, int>, renumber: map<int, int>, copied: seq<EdgeRow>)
    requires WellFormed(base) && Inserted(AsEntities(base.nodes), first, nodes, ids)
    requires Renumbering(base.nodes, ids, renumber) && Copied(base.edges, renumber, copied)
    ensures
      var edges := copied + Additions(Keys(copied), ids, rels);
      DerivedFrom(base, rels, Snapshot(base.nodeCount, |edges|, nodes, edges))
  {
    var edges := copied + Additions(Keys(copied), ids, rels);
    InsertedNames(AsEntities(base.nodes), first, nodes, ids);
    forall name ensures name in ids <==> HasNode(base.nodes, name) {
      CopiedNames(base, first, nodes, ids, name);
    }
    CopiedUnique(base, ids, renumber, copied);
    AdditionsUnique(Keys(copied), ids, rels);
    EdgesOkAfter(nodes, ids, copied, Additions(Keys(copied), ids, rels));
    hide Has, HasNode, Named, NodesOk, EdgesOk, Additions, Copied, Renumbering;
    forall a, b, kind, c ensures Has(nodes, edges, a, b, kind, c) <==> DerivedHas(base, rels, a, b, kind, c) {
      DerivedEdges(base, ids, renumber, copied, rels, nodes, a, b, kind, c);
    }
  }

  lemma CopiedNames(base: Snapshot, first: int, nodes: seq<NodeRow>, ids: map<ExternalId, int>, name: ExternalId)
    requires Inserted(AsEntities(base.nodes), first, nodes, ids)
    ensures name in ids <==> HasNode(base.nodes, name)
  {
    if HasNode(base.nodes, name) {
      var n :| n in base.nodes && n.externalId == name;
      var i :| 0 <= i < |base.nodes| && base.nodes[i] == n;
      assert AsEntities(base.nodes)[i].externalId == name;
    }
    if name in ids {
      var i :| 0 <= i < |AsEntities(base.nodes)| && AsEntities(base.nodes)[i].externalId == name;
      assert base.nodes[i] in base.nodes;
    }
  }

  lemma CopiedUnique(base: Snapshot, ids: map<ExternalId, int>, renumber: map<int, int>, copied: seq<EdgeRow>)
    requires WellFormed(base) && Injective(ids) && Renumbering(base.nodes, ids, renumber)
    requires Copied(base.edges, renumber, copied)
    ensures UniqueKeys(copied)
    ensures forall e :: e in copied ==>
      (exists a :: a in ids && ids[a] == e.source) && exists b :: b in ids && ids[b] == e.target
  {
    forall x, y | x in renumber && y in renumber && renumber[x] == renumber[y] ensures x == y {
      var i :| 0 <= i < |base.nodes| && base.nodes[i].id == x;
      var j :| 0 <= j < |base.nodes| && base.nodes[j].id == y;
    }
    forall x | x in renumber ensures exists a :: a in ids && ids[a] == renumber[x] {
      var i :| 0 <= i < |base.nodes| && base.nodes[i].id == x;
    }
    forall i, j | 0 <= i < j < |copied| ensures Key(copied[i]) != Key(copied[j]) {
      assert Key(base.edges[i]) != Key(base.edges[j]);
    }
  }

  lemma EdgesOkAfter(nodes: seq<NodeRow>, ids: map<ExternalId, int>, copied: seq<EdgeRow>, added: seq<EdgeRow>)
    requires Names(nodes, ids) && UniqueKeys(copied) && UniqueKeys(added) && Keys(added) !! Keys(copied)
    requires forall e :: e in copied || e in added ==>
      (exists a :: a in ids && ids[a] == e.source) && exists b :: b in ids && ids[b] == e.target
    ensures EdgesOk(nodes, copied + added)
  {
    forall e | e in copied + added
      ensures (exists a :: Named(nodes, e.source, a)) && exists b :: Named(nodes, e.target, b)
    {
      assert e in copied || e in added;
      var a :| a in ids && ids[a] == e.source;
      var b :| b in ids && ids[b] == e.target;
      assert Named(nodes, e.source, a) && Named(nodes, e.target, b);
    }
    forall i, j | 0 <= i < j < |copied + added| ensures Key((copied + added)[i]) != Key((copied + added)[j]) {
      if i < |copied| <= j {
        assert copied[i] in copied && added[j - |copied|] in added;
        assert Key(copied[i]) in Keys(copied) && Key(added[j - |copied|]) in Keys(added);
      }
    }
  }

  lemma FromTable(entities: seq<Entity>, order: seq<ExternalId>, table: map<ExternalId, Entity>, from: seq<Entity>)
    requires IsBestTable(entities, EntityKey, EntityWeight, order, table)
    requires |from| == |order| && forall i :: 0 <= i < |order| && order[i] in table ==> from[i] == table[order[i]]
    ensures DistinctNames(from)
    ensures forall i :: 0 <= i < |order| ==> BestOf(entities, EntityKey, EntityWeight, order[i], from[i])
    ensures forall e :: e in entities ==> exists i :: 0 <= i < |from| && from[i].externalId == e.externalId
  {
    forall i | 0 <= i < |order|
      ensures order[i] in table && BestOf(entities, EntityKey, EntityWeight, order[i], from[i])
    {
      assert order[i] in order;
    }
    forall e | e in entities ensures exists i :: 0 <= i < |from| && from[i].externalId == e.externalId {
      assert e.externalId in order;
      var i :| 0 <= i < |order| && order[i] == e.externalId;
      assert from[i].externalId == e.externalId;
    }
  }

  /** The rows of a built snapshot: one node an external id, one edge a typed pair of known ends. */
  method BuildRows(entities: seq<Entity>, rels: seq<Relationship>, first: int) returns (s: Snapshot)
    ensures BuiltFrom(entities, rels, s)
  {
    var nodes, ids := BuildNodes(entities, first);
    hide NodesOk, EdgesOk, Names, HasNode, Has, BestOf, Chosen;
    var edges := BuildEdges(rels, nodes, ids);
    NamesOk(nodes, ids);
    s := Snapshot(|nodes|, |edges|, nodes, edges);
  }

  lemma NamesOk(nodes: seq<NodeRow>, ids: map<ExternalId, int>)
    requires Names(nodes, ids)
    ensures NodesOk(nodes)
  {
  }

  lemma BuiltWellFormed(entities: seq<Entity>, rels: seq<Relationship>, s: Snapshot)
    requires BuiltFrom(entities, rels, s)
    ensures WellFormed(s)
  {
  }

  method BuildNodes(entities: seq<Entity>, first: int) returns (nodes: seq<NodeRow>, ids: map<ExternalId, int>)
    ensures Names(nodes, ids)
    ensures forall e :: e in entities ==> HasNode(nodes, e.externalId)
    ensures forall n :: n in nodes ==> BestOf(entities, EntityKey, EntityWeight, n.externalId, AsEntity(n))
  {
    var order, table := KeepBest(entities, EntityKey, EntityWeight);
    var from := seq(|order|, i requires 0 <= i < |order| && order[i] in table => table[order[i]]);
    FromTable(entities, order, table, from);
    hide IsBestTable, BestOf, Inserted, HasNode, Names;
    nodes, ids := InsertNodes(from, first);
    InsertedNames(from, first, nodes, ids);
    BuiltNodes(entities, from, nodes, ids, first);
  }

  method BuildEdges(rels: seq<Relationship>, ghost nodes: seq<NodeRow>, ids: map<ExternalId, int>)
    returns (edges: seq<EdgeRow>)
    requires Names(nodes, ids)
    ensures EdgesOk(nodes, edges)
    ensures forall a, b, kind, c :: Has(nodes, edges, a, b, kind, c) <==>
      HasNode(nodes, a) && HasNode(nodes, b) && Chosen(rels, a, b, kind, c)
  {
    var key := r => RelationshipKey(ids, r);
    var edgeOrder, edgeTable := KeepBest(rels, key, Weight);
    edges := InsertEdges(edgeOrder, edgeTable);
    BuiltEdges(rels, nodes, ids, key, edgeOrder, edgeTable, edges);
  }

  class GraphEngine {
    var snapshots: map<int, Snapshot>
    var nextSnapshot: int
    var nextNode: int

    /** Every stored snapshot is well formed; ids already handed out are below the counter. */
    ghost predicate Valid()
      reads this
    {
      forall id :: id in snapshots ==> id < nextSnapshot && WellFormed(snapshots[id])
    }

    constructor ()
      ensures Valid() && snapshots == map[]
    {
      snapshots, nextSnapshot, nextNode := map[], 1, 1;
    }

    method Get(id: int) returns (r: Result<Snapshot>)
      ensures r == if id in snapshots then Ok(snapshots[id]) else Err(SnapshotNotFound)
    {
      if id !in snapshots { return Err(SnapshotNotFound); }
      return Ok(snapshots[id]);
    }

    method Build(entities: seq<Entity>, rels: seq<Relationship>) returns (id: int)
      requires Valid()
      modifies this
      ensures Valid() && id !in old(snapshots) && id in snapshots
      ensures snapshots == old(snapshots)[id := snapshots[id]]
      ensures BuiltFrom(entities, rels, snapshots[id])
      ensures forall n :: n in snapshots[id].nodes ==> FirstBest(entities, n)
    {
      var s := BuildRows(entities, rels, nextNode);
      forall n | n in s.nodes ensures FirstBest(entities, n) { BestIsFirst(entities, n); }
      hide BuiltFrom, FirstBest;
      BuiltWellFormed(entities, rels, s);
      nextNode := nextNode + |s.nodes|;
      id := nextSnapshot;
      snapshots := snapshots[id := s];
      nextSnapshot := nextSnapshot + 1;
    }

    /** The base stays as it is; an unknown base is an error and stores nothing. */
    method Derive(baseId: int, rels: seq<Relationship>) returns (r: Result<int>)
      requires Valid()
      modifies this
      ensures Valid()
      ensures r.Err? <==> baseId !in old(snapshots)
      ensures r.Err? ==> snapshots == old(snapshots)
      ensures r.Ok? ==>
        && r.value !in old(snapshots) && r.value in snapshots
        && snapshots == old(snapshots)[r.value := snapshots[r.value]]
        && DerivedFrom(old(snapshots)[baseId], rels, snapshots[r.value])
    {
      var found := Get(baseId);
      if found.Err? { return Err(SnapshotNotFound); }
      var s := DeriveRows(found.value, rels, nextNode);
      hide DerivedFrom;
      DerivedWellFormed(found.value, rels, s);
      nextNode := nextNode + |s.nodes|;
      var id := nextSnapshot;
      snapshots := snapshots[id := s];
      nextSnapshot := nextSnapshot + 1;
      return Ok(id);
    }
  }
}
