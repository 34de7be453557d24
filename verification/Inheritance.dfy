/** Role inheritance as a finite relation: closure, acyclicity, and replacing one role's parents. */
module Inheritance {

  type RoleId = int

  /** Rows (role, parent). */
  type Relation = set<(RoleId, RoleId)>

  ghost predicate IsChain(rel: Relation, p: seq<RoleId>) {
    p != [] && forall i :: 0 <= i < |p| - 1 ==> (p[i], p[i + 1]) in rel
  }

  ghost predicate Chain(rel: Relation, a: RoleId, b: RoleId, p: seq<RoleId>) {
    IsChain(rel, p) && p[0] == a && p[|p| - 1] == b
  }

  /** b is a, or is inherited by a through one or more steps. */
  ghost predicate Inherits(rel: Relation, a: RoleId, b: RoleId) {
    exists p :: Chain(rel, a, b, p)
  }

  /** b lies in the reflexive-transitive closure of the roots. */
  ghost predicate Reached(rel: Relation, roots: seq<RoleId>, b: RoleId) {
    exists a :: a in roots && Inherits(rel, a, b)
  }

  ghost predicate OnCycle(rel: Relation, r: RoleId) {
    exists q :: (r, q) in rel && Inherits(rel, q, r)
  }

  ghost predicate Acyclic(rel: Relation) {
    forall r :: !OnCycle(rel, r)
  }

  lemma InheritsSelf(rel: Relation, a: RoleId)
    ensures Inherits(rel, a, a)
  {
    assert Chain(rel, a, a, [a]);
  }

  lemma InheritsStep(rel: Relation, a: RoleId, b: RoleId, c: RoleId)
    requires Inherits(rel, a, b) && (b, c) in rel
    ensures Inherits(rel, a, c)
  {
    var p :| Chain(rel, a, b, p);
    assert Chain(rel, a, c, p + [c]);
  }

  lemma InheritsFirst(rel: Relation, a: RoleId, b: RoleId, c: RoleId)
    requires (a, b) in rel && Inherits(rel, b, c)
    ensures Inherits(rel, a, c)
  {
    var p :| Chain(rel, b, c, p);
    assert Chain(rel, a, c, [a] + p);
  }

  lemma InheritsTransitive(rel: Relation, a: RoleId, b: RoleId, c: RoleId)
    requires Inherits(rel, a, b) && Inherits(rel, b, c)
    ensures Inherits(rel, a, c)
  {
    var p :| Chain(rel, a, b, p);
    var q :| Chain(rel, b, c, q);
    var r := p + q[1..];
    forall i | 0 <= i < |r| - 1 ensures (r[i], r[i + 1]) in rel {
      if i >= |p| - 1 { assert (q[i - |p| + 1], q[i - |p| + 2]) in rel; }
    }
    assert Chain(rel, a, c, r);
  }

  lemma InheritsLast(rel: Relation, a: RoleId, b: RoleId) returns (x: RoleId)
    requires Inherits(rel, a, b) && a != b
    ensures (x, b) in rel
  {
    var p :| Chain(rel, a, b, p);
    x := p[|p| - 2];
    assert (p[|p| - 2], p[|p| - 2 + 1]) in rel;
  }

  lemma InheritsMonotone(small: Relation, large: Relation, a: RoleId, b: RoleId)
    requires small <= large && Inherits(small, a, b)
    ensures Inherits(large, a, b)
  {
    var p :| Chain(small, a, b, p);
    assert Chain(large, a, b, p);
  }

  /** A set that is closed under parents keeps everything its members inherit. */
  lemma {:induction false} ClosedKeeps(rel: Relation, s: set<RoleId>, a: RoleId, b: RoleId, p: seq<RoleId>)
    requires forall x, y :: x in s && (x, y) in rel ==> y in s
    requires a in s && Chain(rel, a, b, p)
    ensures b in s
    decreases |p|
  {
    if |p| > 1 {
      assert (p[0], p[0 + 1]) in rel;
      forall i | 0 <= i < |p[1..]| - 1 ensures (p[1..][i], p[1..][i + 1]) in rel {
        assert (p[i + 1], p[i + 1 + 1]) in rel;
      }
      ClosedKeeps(rel, s, p[1], b, p[1..]);
    }
  }

  /** The worklist invariant: everything seen is reached, and whatever is reached is seen or pending. */
  ghost predicate WorklistInv(rel: Relation, roots: seq<RoleId>, result: set<RoleId>, pending: seq<RoleId>) {
    && (forall x :: x in roots ==> x in result || x in pending)
    && (forall x, y :: x in result && (x, y) in rel ==> y in result || y in pending)
    && (forall b :: b in result || b in pending ==> Reached(rel, roots, b))
  }

  lemma WorklistStart(rel: Relation, roots: seq<RoleId>)
    ensures WorklistInv(rel, roots, {}, roots)
  {
    forall a | a in roots ensures Reached(rel, roots, a) {
      InheritsSelf(rel, a);
    }
  }

  lemma WorklistNext(rel: Relation, roots: seq<RoleId>, result: set<RoleId>, pending: seq<RoleId>, current: RoleId,
                     parents: seq<RoleId>)
    requires WorklistInv(rel, roots, result, pending + [current])
    requires forall q :: q in parents <==> (current, q) in rel
    ensures current in result ==> WorklistInv(rel, roots, result, pending)
    ensures WorklistInv(rel, roots, result + {current}, pending + parents)
  {
    forall q | q in parents ensures Reached(rel, roots, q) {
      assert current in pending + [current];
      var a :| a in roots && Inherits(rel, a, current);
      InheritsStep(rel, a, current, q);
    }
  }

  lemma WorklistDone(rel: Relation, roots: seq<RoleId>, result: set<RoleId>, b: RoleId)
    requires WorklistInv(rel, roots, result, [])
    ensures b in result <==> Reached(rel, roots, b)
  {
    if Reached(rel, roots, b) {
      var a :| a in roots && Inherits(rel, a, b);
      var p :| Chain(rel, a, b, p);
      ClosedKeeps(rel, result, a, b, p);
    }
  }

  /** The relation after the rows of r are deleted and one row a parent is inserted. */
  function Replace(rel: Relation, r: RoleId, parents: set<RoleId>): Relation {
    (set e | e in rel && e.0 != r) + (set q | q in parents :: (r, q))
  }

  /** A chain to r never needs to leave r, so it can be cut at the first r: it uses old rows only. */
  lemma {:induction false} CutAtRole(rel: Relation, other: Relation, r: RoleId, a: RoleId, p: seq<RoleId>)
    requires Chain(rel, a, r, p)
    requires forall x, y :: x != r && (x, y) in rel ==> (x, y) in other
    ensures Inherits(other, a, r)
    decreases |p|
  {
    if a == r {
      InheritsSelf(other, r);
    } else {
      assert (p[0], p[0 + 1]) in rel;
      var rest := p[1..];
      forall i | 0 <= i < |rest| - 1 ensures (rest[i], rest[i + 1]) in rel {
        assert (p[i + 1], p[i + 1 + 1]) in rel;
      }
      CutAtRole(rel, other, r, p[1], rest);
      InheritsFirst(other, a, p[1], r);
    }
  }

  /** Replacing r's parents does not change who inherits r. */
  lemma ReplaceKeepsHeirs(rel: Relation, r: RoleId, parents: set<RoleId>, a: RoleId)
    ensures Inherits(Replace(rel, r, parents), a, r) <==> Inherits(rel, a, r)
  {
    var after := Replace(rel, r, parents);
    if p :| Chain(after, a, r, p) { CutAtRole(after, rel, r, a, p); }
    if p :| Chain(rel, a, r, p) { CutAtRole(rel, after, r, a, p); }
  }

  /** A cycle through x that avoids r uses old rows only; a cycle that meets r puts r on a cycle. */
  lemma {:induction false} CycleAvoids(rel: Relation, other: Relation, r: RoleId, a: RoleId, b: RoleId, p: seq<RoleId>)
    requires Chain(rel, a, b, p)
    requires forall x, y :: x != r && (x, y) in rel ==> (x, y) in other
    ensures Inherits(other, a, b) || (Inherits(rel, a, r) && Inherits(rel, r, b))
    decreases |p|
  {
    if a == r {
      InheritsSelf(rel, r);
    } else if |p| == 1 {
      InheritsSelf(other, a);
    } else {
      assert (p[0], p[0 + 1]) in rel;
      var rest := p[1..];
      forall i | 0 <= i < |rest| - 1 ensures (rest[i], rest[i + 1]) in rel {
        assert (p[i + 1], p[i + 1 + 1]) in rel;
      }
      CycleAvoids(rel, other, r, p[1], b, rest);
      if Inherits(other, p[1], b) {
        InheritsFirst(other, a, p[1], b);
      } else {
        InheritsFirst(rel, a, p[1], r);
      }
    }
  }

  lemma CycleThrough(rel: Relation, x: RoleId, q: RoleId, r: RoleId)
    requires (x, q) in rel && Inherits(rel, q, r) && Inherits(rel, r, x)
    ensures OnCycle(rel, r)
  {
    var p :| Chain(rel, r, x, p);
    if |p| > 1 {
      assert (p[0], p[0 + 1]) in rel;
      var rest := p[1..];
      forall i | 0 <= i < |rest| - 1 ensures (rest[i], rest[i + 1]) in rel {
        assert (p[i + 1], p[i + 1 + 1]) in rel;
      }
      assert Chain(rel, p[1], x, rest);
      InheritsStep(rel, p[1], x, q);
      InheritsTransitive(rel, p[1], q, r);
    }
  }

  /** r lies on no cycle afterwards iff none of its new parents inherited r beforehand. */
  lemma ReplaceOwnCycle(rel: Relation, r: RoleId, parents: set<RoleId>)
    ensures !OnCycle(Replace(rel, r, parents), r) <==> forall q :: q in parents ==> !Inherits(rel, q, r)
  {
    var after := Replace(rel, r, parents);
    forall q ensures Inherits(after, q, r) <==> Inherits(rel, q, r) {
      ReplaceKeepsHeirs(rel, r, parents, q);
    }
    forall q ensures (r, q) in after <==> q in parents {
    }
  }

  lemma CycleFrom(rel: Relation, r: RoleId, q: RoleId)
    requires (r, q) in rel && Inherits(rel, q, r)
    ensures OnCycle(rel, r)
  {
  }

  /** The test that runs on the old graph decides acyclicity of the new graph, exactly. */
  lemma ReplaceAcyclic(rel: Relation, r: RoleId, parents: set<RoleId>)
    requires Acyclic(rel)
    ensures Acyclic(Replace(rel, r, parents)) <==> forall q :: q in parents ==> !Inherits(rel, q, r)
  {
    var after := Replace(rel, r, parents);
    ReplaceOwnCycle(rel, r, parents);
    if !OnCycle(after, r) {
      forall x ensures !OnCycle(after, x) {
        if q :| (x, q) in after && Inherits(after, q, x) {
          var p :| Chain(after, q, x, p);
          CycleAvoids(after, rel, r, q, x, p);
          if Inherits(after, q, r) && Inherits(after, r, x) {
            CycleThrough(after, x, q, r);
          } else if x != r {
            CycleFrom(rel, x, q);
          }
        }
      }
    }
  }
}
