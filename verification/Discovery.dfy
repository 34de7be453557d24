/** Relationship discovery: evidence gathers on candidates, decisions integrate them into the graph. */
module Discovery {
  import opened Options
  import opened Reals
  import opened Sums
  import opened Snapshots

  /** The pair (source type, source reference) of an evidence record. */
  type Identity(==, !new)

  datatype EvidenceItem = EvidenceItem(source: ExternalId, target: ExternalId, kind: Kind, confidence: real,
    identity: Identity)

  datatype Evidence = Evidence(identity: Identity, confidence: real)

  datatype Status = Pending | Approved | Rejected

  /** Candidates are unique per snapshot and typed pair, so that identity serves as their key. */
  datatype CandidateKey = CandidateKey(snapshot: int, source: ExternalId, target: ExternalId, kind: Kind)

  datatype Candidate = Candidate(evidence: seq<Evidence>, confidence: real, status: Status, integrated: Option<int>)

  type Candidates = map<CandidateKey, Candidate>

  type Stored = map<int, Snapshot>

  datatype Outcome = Done | NotFound | AlreadyDecided | NoSnapshot

  // ---------------------------------------------------------------- noisy-or

  function Miss(evidence: seq<Evidence>): real {
    if evidence == [] then 1.0 else Miss(evidence[..|evidence| - 1]) * (1.0 - evidence[|evidence| - 1].confidence)
  }

  function Confidence(evidence: seq<Evidence>): real {
    1.0 - Miss(evidence)
  }

  predicate Sound(evidence: seq<Evidence>) {
    && (forall e :: e in evidence ==> 0.0 <= e.confidence <= 1.0)
    && forall i, j :: 0 <= i < j < |evidence| ==> evidence[i].identity != evidence[j].identity
  }

  lemma {:induction false} MissInUnit(evidence: seq<Evidence>)
    requires forall e :: e in evidence ==> 0.0 <= e.confidence <= 1.0
    ensures 0.0 <= Miss(evidence) <= 1.0
  {
    if evidence != [] {
      var last := evidence[|evidence| - 1];
      assert last in evidence;
      MissInUnit(evidence[..|evidence| - 1]);
      UnitProduct(Miss(evidence[..|evidence| - 1]), 1.0 - last.confidence);
    }
  }

  // ---------------------------------------------------------------- absorbing evidence

  predicate Known(evidence: seq<Evidence>, identity: Identity) {
    exists e :: e in evidence && e.identity == identity
  }

  /** Appends the items whose identity is new, in order. */
  function Absorb(evidence: seq<Evidence>, items: seq<EvidenceItem>): seq<Evidence> {
    if items == [] then evidence
    else
      var earlier := Absorb(evidence, items[..|items| - 1]);
      var last := items[|items| - 1];
      if Known(earlier, last.identity) then earlier else earlier + [Evidence(last.identity, last.confidence)]
  }

  predicate InRange(items: seq<EvidenceItem>) {
    forall i :: i in items ==> 0.0 <= i.confidence <= 1.0
  }

  lemma AppendSound(evidence: seq<Evidence>, e: Evidence)
    requires Sound(evidence) && 0.0 <= e.confidence <= 1.0 && !Known(evidence, e.identity)
    ensures Sound(evidence + [e])
  {
    assert forall i :: 0 <= i < |evidence| ==> evidence[i] in evidence;
  }

  /** One more piece of evidence can only lower the chance that every piece is wrong. */
  lemma AppendRaises(evidence: seq<Evidence>, e: Evidence)
    requires Sound(evidence) && 0.0 <= e.confidence <= 1.0
    ensures Miss(evidence + [e]) <= Miss(evidence)
  {
    assert (evidence + [e])[..|evidence|] == evidence;
    MissInUnit(evidence);
    MulLe(1.0 - e.confidence, 1.0, Miss(evidence));
  }

  /** Absorbing keeps evidence sound, only appends to it and never lowers the confidence. */
  lemma {:induction false} AbsorbSound(evidence: seq<Evidence>, items: seq<EvidenceItem>)
    requires Sound(evidence) && InRange(items)
    ensures Sound(Absorb(evidence, items)) && evidence <= Absorb(evidence, items)
    ensures Confidence(evidence) <= Confidence(Absorb(evidence, items))
  {
    if items != [] {
      var init, last := items[..|items| - 1], items[|items| - 1];
      AbsorbSound(evidence, init);
      var earlier := Absorb(evidence, init);
      assert last in items;
      hide Sound, Known, Miss;
      if !Known(earlier, last.identity) {
        AppendSound(earlier, Evidence(last.identity, last.confidence));
        AppendRaises(earlier, Evidence(last.identity, last.confidence));
      }
    }
  }

  lemma KnownAppend(evidence: seq<Evidence>, e: Evidence, identity: Identity)
    ensures Known(evidence + [e], identity) <==> Known(evidence, identity) || identity == e.identity
  {
    if Known(evidence, identity) {
      var f :| f in evidence && f.identity == identity;
      assert f in evidence + [e];
    }
    assert e in evidence + [e];
  }

  /** Exactly the identities present before or provided now are known afterwards. */
  lemma {:induction false} AbsorbKnows(evidence: seq<Evidence>, items: seq<EvidenceItem>, identity: Identity)
    ensures Known(Absorb(evidence, items), identity) <==>
      Known(evidence, identity) || exists i :: i in items && i.identity == identity
  {
    if items != [] {
      var init, last := items[..|items| - 1], items[|items| - 1];
      AbsorbKnows(evidence, init, identity);
      assert forall i :: i in items <==> i in init || i == last;
      var earlier := Absorb(evidence, init);
      KnownAppend(earlier, Evidence(last.identity, last.confidence), identity);
      hide Known;
    }
  }

  /** The same evidence a second time adds nothing. */
  lemma {:induction false} AbsorbIdempotent(evidence: seq<Evidence>, items: seq<EvidenceItem>)
    requires forall i :: i in items ==> Known(evidence, i.identity)
    ensures Absorb(evidence, items) == evidence
  {
    if items != [] {
      assert items[|items| - 1] in items;
      AbsorbIdempotent(evidence, items[..|items| - 1]);
    }
  }

  ghost predicate Increasing(picks: seq<nat>) {
    forall i, j :: 0 <= i < j < |picks| ==> picks[i] < picks[j]
  }

  /** Item i is the first of its identity, and the evidence does not hold that identity. */
  ghost predicate NewAt(evidence: seq<Evidence>, items: seq<EvidenceItem>, i: nat) {
    && i < |items| && (forall e :: e in evidence ==> e.identity != items[i].identity)
    && forall j :: 0 <= j < i ==> items[j].identity != items[i].identity
  }

  /** all is the old evidence followed by the picked items, each with its own identity and confidence. */
  ghost predicate Appends(evidence: seq<Evidence>, items: seq<EvidenceItem>, picks: seq<nat>, all: seq<Evidence>) {
    && Increasing(picks) && |all| == |evidence| + |picks| && evidence <= all
    && forall n :: 0 <= n < |picks| ==>
      picks[n] < |items| && all[|evidence| + n] == Evidence(items[picks[n]].identity, items[picks[n]].confidence)
  }

  lemma AppendsMore(evidence: seq<Evidence>, items: seq<EvidenceItem>, picks: seq<nat>, all: seq<Evidence>)
    requires items != [] && Appends(evidence, items[..|items| - 1], picks, all)
    ensures Appends(evidence, items, picks, all)
    ensures
      var last := items[|items| - 1];
      Appends(evidence, items, picks + [|items| - 1], all + [Evidence(last.identity, last.confidence)])
  {
  }

  /** What absorbing stores: after the old evidence, exactly the items of a new identity, the first of each, in the
      order provided and at their own confidence. */
  lemma {:induction false} AbsorbExact(evidence: seq<Evidence>, items: seq<EvidenceItem>) returns (picks: seq<nat>)
    ensures Appends(evidence, items, picks, Absorb(evidence, items))
    ensures forall i: nat :: i in picks <==> NewAt(evidence, items, i)
  {
    picks := [];
    if items != [] {
      var n := |items| - 1;
      picks := AbsorbExact(evidence, items[..n]);
      AppendsMore(evidence, items, picks, Absorb(evidence, items[..n]));
      AbsorbKnows(evidence, items[..n], items[n].identity);
      forall i: nat ensures NewAt(evidence, items, i) <==>
        NewAt(evidence, items[..n], i) || (i == n && !Known(Absorb(evidence, items[..n]), items[n].identity))
      {
        NewAtInit(evidence, items, i);
      }
      hide NewAt, Known, Appends;
      if !Known(Absorb(evidence, items[..n]), items[n].identity) { picks := picks + [n]; }
    }
  }

  lemma NewAtInit(evidence: seq<Evidence>, items: seq<EvidenceItem>, i: nat)
    requires items != []
    ensures
      var n := |items| - 1;
      NewAt(evidence, items, i) <==>
        NewAt(evidence, items[..n], i)
        || (i == n && !Known(evidence, items[n].identity)
          && !exists j :: j in items[..n] && j.identity == items[n].identity)
  {
    var n := |items| - 1;
    if i == n {
      assert forall j :: 0 <= j < n ==> items[..n][j] == items[j];
      if NewAt(evidence, items, n) {
        forall j | j in items[..n] ensures j.identity != items[n].identity {
          var l :| 0 <= l < n && items[..n][l] == j;
        }
      }
    }
  }

  // ---------------------------------------------------------------- one discovery run

  /** The item passes every filter of run against this snapshot. */
  ghost predicate Accepted(s: Snapshot, kinds: set<Kind>, i: EvidenceItem) {
    && 0.0 <= i.confidence <= 1.0 && i.kind in kinds
    && HasNode(s.nodes, i.source) && HasNode(s.nodes, i.target) && i.source != i.target
    && !Joined(s.nodes, s.edges, i.source, i.target, i.kind)
  }

  ghost predicate Concerns(s: Snapshot, kinds: set<Kind>, sid: int, k: CandidateKey, i: EvidenceItem) {
    k.snapshot == sid && i.source == k.source && i.target == k.target && i.kind == k.kind && Accepted(s, kinds, i)
  }

  /** The accepted items about one candidate, in the order they were provided. */
  ghost function Relevant(s: Snapshot, kinds: set<Kind>, sid: int, items: seq<EvidenceItem>,
                          k: CandidateKey): (kept: seq<EvidenceItem>)
    ensures forall i :: i in kept <==> i in items && Concerns(s, kinds, sid, k, i)
  {
    if items == [] then []
    else
      var earlier := Relevant(s, kinds, sid, items[..|items| - 1], k);
      var last := items[|items| - 1];
      assert forall i :: i in items <==> i in items[..|items| - 1] || i == last;
      if Concerns(s, kinds, sid, k, last) then earlier + [last] else earlier
  }

  const NEW: Candidate := Candidate([], 0.0, Pending, None)

  function Updated(c: Candidate, items: seq<EvidenceItem>): Candidate {
    c.(evidence := Absorb(c.evidence, items), confidence := Confidence(Absorb(c.evidence, items)))
  }

  ghost predicate RunResult(s: Snapshot, kinds: set<Kind>, sid: int, items: seq<EvidenceItem>, before: Candidates,
                            after: Candidates) {
    forall k ::
      var relevant := Relevant(s, kinds, sid, items, k);
      if relevant == [] then (k in after <==> k in before) && (k in before ==> after[k] == before[k])
      else k in after && after[k] == Updated(if k in before then before[k] else NEW, relevant)
  }

  // ---------------------------------------------------------------- what every state keeps

  ghost predicate CandidateOk(stored: Stored, candidates: Candidates, k: CandidateKey, c: Candidate) {
    && k.snapshot in stored
    && Proposable(stored[k.snapshot], k)
    && Sound(c.evidence) && c.confidence == Confidence(c.evidence)
    && (c.status == Approved <==> c.integrated.Some?)
    && (c.status == Approved ==> Settled(stored, candidates, k, c.integrated.value))
  }

  /** Both ends exist and differ, and no edge of this type joins them. */
  ghost predicate Proposable(s: Snapshot, k: CandidateKey) {
    && HasNode(s.nodes, k.source) && HasNode(s.nodes, k.target) && k.source != k.target
    && !Joined(s.nodes, s.edges, k.source, k.target, k.kind)
  }

  predicate SameEnds(k: CandidateKey, a: ExternalId, b: ExternalId, kind: Kind) {
    (a, b, kind) == (k.source, k.target, k.kind)
  }

  /** s is base plus one edge: the candidate's pair, with this detail. */
  ghost predicate Integrates(base: Snapshot, s: Snapshot, k: CandidateKey, d: Detail) {
    && (forall name :: HasNode(s.nodes, name) <==> HasNode(base.nodes, name))
    && (forall a, b, kind, c :: Has(s.nodes, s.edges, a, b, kind, c) <==>
      Has(base.nodes, base.edges, a, b, kind, c) || (SameEnds(k, a, b, kind) && c == d))
  }

  ghost predicate IntegratedInto(stored: Stored, k: CandidateKey, sid: int) {
    sid in stored && k.snapshot in stored && exists d :: Integrates(stored[k.snapshot], stored[sid], k, d)
  }

  /** The snapshot an approval produced is the candidate's own plus the edge, and no candidate proposes it there. */
  ghost predicate Settled(stored: Stored, candidates: Candidates, k: CandidateKey, sid: int) {
    IntegratedInto(stored, k, sid) && k.(snapshot := sid) !in candidates
  }

  ghost predicate TableOk(stored: Stored, candidates: Candidates) {
    forall k :: k in candidates ==> CandidateOk(stored, candidates, k, candidates[k])
  }

  /** Candidates never disappear, evidence only grows, confidence never drops, decisions stand. */
  ghost predicate Grows(before: Candidates, after: Candidates) {
    forall k :: k in before ==> k in after && Grown(before[k], after[k])
  }

  ghost predicate Grown(before: Candidate, after: Candidate) {
    && before.evidence <= after.evidence && before.confidence <= after.confidence
    && (before.status != Pending ==> after.status == before.status && after.integrated == before.integrated)
  }

  lemma RunKeeps(stored: Stored, kinds: set<Kind>, sid: int, items: seq<EvidenceItem>, before: Candidates,
                 after: Candidates)
    requires TableOk(stored, before) && sid in stored && RunResult(stored[sid], kinds, sid, items, before, after)
    ensures TableOk(stored, after) && Grows(before, after)
  {
    forall k | k in after
      ensures CandidateOk(stored, after, k, after[k])
      ensures k in before ==> Grown(before[k], after[k])
    {
      RunKeepsOne(stored, kinds, sid, items, before, after, k);
    }
    forall k | k in before ensures k in after {
      var relevant := Relevant(stored[sid], kinds, sid, items, k);
    }
  }

  lemma RunKeepsOne(stored: Stored, kinds: set<Kind>, sid: int, items: seq<EvidenceItem>, before: Candidates,
                    after: Candidates, k: CandidateKey)
    requires TableOk(stored, before) && sid in stored && RunResult(stored[sid], kinds, sid, items, before, after)
    requires k in after
    ensures CandidateOk(stored, after, k, after[k])
    ensures k in before ==> Grown(before[k], after[k])
  {
    var relevant := Relevant(stored[sid], kinds, sid, items, k);
    var c := if k in before then before[k] else NEW;
    if relevant != [] {
      assert relevant[0] in relevant;
      AbsorbSound(c.evidence, relevant);
    }
    hide IntegratedInto, Joined, HasNode, Sound;
    if c.status == Approved { SettledStays(stored, kinds, sid, items, before, after, k, c.integrated.value); }
  }

  /** The snapshot that integrated k joins what the one below it joins, and k's pair. */
  lemma IntegratedJoins(stored: Stored, k: CandidateKey, other: CandidateKey, sid: int)
    requires IntegratedInto(stored, k, sid)
    ensures Joined(stored[sid].nodes, stored[sid].edges, other.source, other.target, other.kind) <==>
      Joined(stored[k.snapshot].nodes, stored[k.snapshot].edges, other.source, other.target, other.kind)
      || SameEnds(k, other.source, other.target, other.kind)
    ensures forall name :: HasNode(stored[sid].nodes, name) <==> HasNode(stored[k.snapshot].nodes, name)
  {
    var d :| Integrates(stored[k.snapshot], stored[sid], k, d);
    hide HasNode;
    var base, s := stored[k.snapshot], stored[sid];
    forall c ensures Has(s.nodes, s.edges, other.source, other.target, other.kind, c) <==>
      Has(base.nodes, base.edges, other.source, other.target, other.kind, c)
      || (SameEnds(k, other.source, other.target, other.kind) && c == d)
    {
    }
    hide Has;
    if SameEnds(k, other.source, other.target, other.kind) {
      assert Has(s.nodes, s.edges, other.source, other.target, other.kind, d);
    }
  }

  /** A run on the snapshot an approval produced never proposes the approved pair again. */
  lemma SettledStays(stored: Stored, kinds: set<Kind>, sid: int, items: seq<EvidenceItem>, before: Candidates,
                     after: Candidates, k: CandidateKey, settled: int)
    requires sid in stored && RunResult(stored[sid], kinds, sid, items, before, after)
    requires Settled(stored, before, k, settled)
    ensures Settled(stored, after, k, settled)
  {
    var again := k.(snapshot := settled);
    if settled == sid {
      IntegratedJoins(stored, k, k, settled);
      JoinedNeverRelevant(stored[sid], kinds, sid, items, again);
    } else {
      OtherSnapshotIrrelevant(stored[sid], kinds, sid, items, again);
    }
  }

  /** Evidence about a pair the snapshot already joins is filtered out. */
  lemma {:induction false} JoinedNeverRelevant(s: Snapshot, kinds: set<Kind>, sid: int, items: seq<EvidenceItem>,
        k: CandidateKey)
    requires Joined(s.nodes, s.edges, k.source, k.target, k.kind)
    ensures Relevant(s, kinds, sid, items, k) == []
  {
    if items != [] { JoinedNeverRelevant(s, kinds, sid, items[..|items| - 1], k); }
  }

  lemma {:induction false} OtherSnapshotIrrelevant(s: Snapshot, kinds: set<Kind>, sid: int, items: seq<EvidenceItem>,
        k: CandidateKey)
    requires k.snapshot != sid
    ensures Relevant(s, kinds, sid, items, k) == []
  {
    if items != [] { OtherSnapshotIrrelevant(s, kinds, sid, items[..|items| - 1], k); }
  }

  /** A candidate exists after a run exactly when it did before or some accepted item concerns it. */
  lemma ProposedExactly(s: Snapshot, kinds: set<Kind>, sid: int, items: seq<EvidenceItem>, before: Candidates,
                        after: Candidates, k: CandidateKey)
    requires RunResult(s, kinds, sid, items, before, after)
    ensures k in after <==>
      k in before
      || (k.snapshot == sid && HasNode(s.nodes, k.source) && HasNode(s.nodes, k.target) && k.source != k.target
          && !Joined(s.nodes, s.edges, k.source, k.target, k.kind) && k.kind in kinds
          && exists i ::
            i in items && (i.source, i.target, i.kind) == (k.source, k.target, k.kind) && 0.0 <= i.confidence <= 1.0)
  {
    var relevant := Relevant(s, kinds, sid, items, k);
    hide Relevant, HasNode, Joined;
    if relevant != [] {
      assert relevant[0] in relevant && Concerns(s, kinds, sid, k, relevant[0]);
    } else {
      forall i | i in items ensures !Concerns(s, kinds, sid, k, i) {
        assert i !in relevant;
      }
    }
  }

  /** Item i is the first accepted one of its identity about this candidate,
    and that identity is not in its evidence. */
  ghost predicate CountsAt(s: Snapshot, kinds: set<Kind>, sid: int, items: seq<EvidenceItem>, k: CandidateKey,
                           evidence: seq<Evidence>, i: nat) {
    && i < |items| && Concerns(s, kinds, sid, k, items[i])
    && (forall e :: e in evidence ==> e.identity != items[i].identity)
    && forall j :: 0 <= j < i && Concerns(s, kinds, sid, k, items[j]) ==> items[j].identity != items[i].identity
  }

  /** The chance that the item is wrong. */
  ghost function Doubt(items: seq<EvidenceItem>): nat -> real {
    (i: nat) => if i < |items| then 1.0 - items[i].confidence else 1.0
  }

  lemma CountsAtInit(s: Snapshot, kinds: set<Kind>, sid: int, items: seq<EvidenceItem>, k: CandidateKey,
                     evidence: seq<Evidence>, i: nat)
    requires items != []
    ensures
      var n := |items| - 1;
      CountsAt(s, kinds, sid, items, k, evidence, i) <==>
        CountsAt(s, kinds, sid, items[..n], k, evidence, i)
        || (i == n && Concerns(s, kinds, sid, k, items[n]) && !Known(evidence, items[n].identity)
          && !exists j :: j in items[..n] && Concerns(s, kinds, sid, k, j) && j.identity == items[n].identity)
  {
    hide Concerns;
    var n := |items| - 1;
    assert forall j :: 0 <= j < n ==> items[..n][j] == items[j];
    if i == n && CountsAt(s, kinds, sid, items, k, evidence, n) {
      forall j | j in items[..n] && Concerns(s, kinds, sid, k, j) ensures j.identity != items[n].identity {
        var l :| 0 <= l < n && items[..n][l] == j;
      }
    }
  }

  lemma MissSnoc(items: seq<EvidenceItem>, all: seq<Evidence>, i: nat)
    requires i < |items|
    ensures Miss(all + [Evidence(items[i].identity, items[i].confidence)]) == Miss(all) * Doubt(items)(i)
  {
    var e := Evidence(items[i].identity, items[i].confidence);
    assert (all + [e])[..|all|] == all;
    assert Doubt(items)(i) == 1.0 - e.confidence;
    hide Doubt;
  }

  lemma DoubtInit(items: seq<EvidenceItem>, picks: seq<nat>)
    requires items != [] && forall i :: i in picks ==> i < |items| - 1
    ensures Product(picks, Doubt(items)) == Product(picks, Doubt(items[..|items| - 1]))
  {
    ProductCongr(picks, Doubt(items), Doubt(items[..|items| - 1]));
  }

  /** What the first items of a run add to one candidate: all is the evidence with the picked items. */
  ghost predicate Picked(s: Snapshot, kinds: set<Kind>, sid: int, items: seq<EvidenceItem>, k: CandidateKey,
                         evidence: seq<Evidence>, picks: seq<nat>, all: seq<Evidence>) {
    && (forall i: nat :: i in picks <==> CountsAt(s, kinds, sid, items, k, evidence, i))
    && Appends(evidence, items, picks, all)
    && Scales(Miss(evidence), Miss(all), Product(picks, Doubt(items)))
  }

  predicate Scales(before: real, after: real, factor: real) {
    after == before * factor
  }

  lemma PickedSkip(s: Snapshot, kinds: set<Kind>, sid: int, items: seq<EvidenceItem>, k: CandidateKey,
                   evidence: seq<Evidence>, picks: seq<nat>, all: seq<Evidence>)
    requires items != [] && Picked(s, kinds, sid, items[..|items| - 1], k, evidence, picks, all)
    requires !CountsAt(s, kinds, sid, items, k, evidence, |items| - 1)
    ensures Picked(s, kinds, sid, items, k, evidence, picks, all)
  {
    forall i: nat { CountsAtInit(s, kinds, sid, items, k, evidence, i); }
    hide Miss, Product, Doubt, Concerns, Known, Scales;
    DoubtInit(items, picks);
    AppendsMore(evidence, items, picks, all);
    hide CountsAt;
  }

  lemma PickedTake(s: Snapshot, kinds: set<Kind>, sid: int, items: seq<EvidenceItem>, k: CandidateKey,
                   evidence: seq<Evidence>, picks: seq<nat>, all: seq<Evidence>)
    requires items != [] && Picked(s, kinds, sid, items[..|items| - 1], k, evidence, picks, all)
    requires CountsAt(s, kinds, sid, items, k, evidence, |items| - 1)
    ensures
      var n: nat := |items| - 1;
      Picked(s, kinds, sid, items, k, evidence, picks + [n], all + [Evidence(items[n].identity, items[n].confidence)])
  {
    var n: nat := |items| - 1;
    var e := Evidence(items[n].identity, items[n].confidence);
    forall i: nat { CountsAtInit(s, kinds, sid, items, k, evidence, i); }
    AppendsMore(evidence, items, picks, all);
    PickedProduct(items, evidence, picks, all);
    hide Miss, Product, Doubt, Concerns, Known, CountsAt, Scales;
  }

  lemma PickedProduct(items: seq<EvidenceItem>, evidence: seq<Evidence>, picks: seq<nat>, all: seq<Evidence>)
    requires items != [] && forall i :: i in picks ==> i < |items| - 1
    requires Scales(Miss(evidence), Miss(all), Product(picks, Doubt(items[..|items| - 1])))
    ensures
      var n: nat := |items| - 1;
      Scales(Miss(evidence), Miss(all + [Evidence(items[n].identity, items[n].confidence)]),
        Product(picks + [n], Doubt(items)))
  {
    hide Miss, Product, Doubt, Scales;
    var n: nat := |items| - 1;
    var e, f := Evidence(items[n].identity, items[n].confidence), Doubt(items);
    DoubtInit(items, picks);
    MissSnoc(items, all, n);
    ProductSnoc(picks, n, f);
    ScalesMore(Miss(evidence), Miss(all), Product(picks, f), f(n), Miss(all + [e]), Product(picks + [n], f));
  }

  lemma ScalesMore(before: real, after: real, factor: real, c: real, after': real, factor': real)
    requires Scales(before, after, factor) && after' == after * c && factor' == factor * c
    ensures Scales(before, after', factor')
  {
    assert (before * factor) * c == before * (factor * c);
  }

  /** What a run adds to one candidate, item by item. */
  lemma {:induction false} RelevantPicks(s: Snapshot, kinds: set<Kind>, sid: int, items: seq<EvidenceItem>,
                                         k: CandidateKey, evidence: seq<Evidence>) returns (picks: seq<nat>)
    ensures Picked(s, kinds, sid, items, k, evidence, picks, Absorb(evidence, Relevant(s, kinds, sid, items, k)))
  {
    picks := [];
    if items != [] {
      var n := |items| - 1;
      picks := RelevantPicks(s, kinds, sid, items[..n], k, evidence);
      hide Picked, CountsAt;
      var earlier := Relevant(s, kinds, sid, items[..n], k);
      CountsAtInit(s, kinds, sid, items, k, evidence, n);
      NotYet(s, kinds, sid, items[..n], k, evidence, n);
      AbsorbKnows(evidence, earlier, items[n].identity);
      hide Concerns, Known;
      if CountsAt(s, kinds, sid, items, k, evidence, n) {
        PickedTake(s, kinds, sid, items, k, evidence, picks, Absorb(evidence, earlier));
        picks := picks + [n];
      } else {
        PickedSkip(s, kinds, sid, items, k, evidence, picks, Absorb(evidence, earlier));
      }
      if Concerns(s, kinds, sid, k, items[n]) { assert (earlier + [items[n]])[..|earlier|] == earlier; }
    }
  }

  lemma NotYet(s: Snapshot, kinds: set<Kind>, sid: int, items: seq<EvidenceItem>, k: CandidateKey,
               evidence: seq<Evidence>, i: nat)
    requires i >= |items|
    ensures !CountsAt(s, kinds, sid, items, k, evidence, i)
  {
  }

  /** What a run leaves of a candidate: its status and decision as they were, PENDING and none for a new one; its
      evidence followed by the items that count, in order and at their own confidence; and the chance that every
      piece is wrong multiplied by that of each item that counts. */
  ghost predicate Leaves(s: Snapshot, kinds: set<Kind>, sid: int, items: seq<EvidenceItem>, before: Candidates,
                         k: CandidateKey, left: Candidate, picks: seq<nat>) {
    var c := if k in before then before[k] else Candidate([], 0.0, Pending, None);
    && (forall i: nat :: i in picks <==> CountsAt(s, kinds, sid, items, k, c.evidence, i))
    && Appends(c.evidence, items, picks, left.evidence)
    && Scales(1.0 - c.confidence, 1.0 - left.confidence, Product(picks, Doubt(items)))
    && left.status == c.status && left.integrated == c.integrated
  }

  lemma RunMeaning(stored: Stored, kinds: set<Kind>, sid: int, items: seq<EvidenceItem>, before: Candidates,
                   after: Candidates, k: CandidateKey) returns (picks: seq<nat>)
    requires TableOk(stored, before) && sid in stored && RunResult(stored[sid], kinds, sid, items, before, after)
    requires k in after
    ensures Leaves(stored[sid], kinds, sid, items, before, k, after[k], picks)
  {
    hide RunResult, TableOk, CountsAt, Appends, Doubt, Relevant, Absorb, Product, Miss, Scales;
    RunOne(stored, kinds, sid, items, before, after, k);
    var c := if k in before then before[k] else Candidate([], 0.0, Pending, None);
    picks := RelevantPicks(stored[sid], kinds, sid, items, k, c.evidence);
  }

  lemma RunLeaves(stored: Stored, kinds: set<Kind>, sid: int, items: seq<EvidenceItem>, before: Candidates,
                  after: Candidates)
    requires TableOk(stored, before) && sid in stored && RunResult(stored[sid], kinds, sid, items, before, after)
    ensures forall k :: k in after ==>
      exists picks :: Leaves(stored[sid], kinds, sid, items, before, k, after[k], picks)
  {
    hide Leaves, RunResult, TableOk;
    forall k | k in after
      ensures exists picks :: Leaves(stored[sid], kinds, sid, items, before, k, after[k], picks)
    {
      var picks := RunMeaning(stored, kinds, sid, items, before, after, k);
    }
  }

  lemma RunOne(stored: Stored, kinds: set<Kind>, sid: int, items: seq<EvidenceItem>, before: Candidates,
               after: Candidates, k: CandidateKey)
    requires TableOk(stored, before) && sid in stored && RunResult(stored[sid], kinds, sid, items, before, after)
    requires k in after
    ensures
      var c := if k in before then before[k] else Candidate([], 0.0, Pending, None);
      var all := Absorb(c.evidence, Relevant(stored[sid], kinds, sid, items, k));
      && after[k] == Candidate(all, 1.0 - Miss(all), c.status, c.integrated) && 1.0 - c.confidence == Miss(c.evidence)
  {
    if k in before { assert CandidateOk(stored, before, k, before[k]); }
    hide Relevant, Sound, Settled, Proposable;
    var relevant := Relevant(stored[sid], kinds, sid, items, k);
    hide TableOk;
  }

  /** A single item about a pair nothing was known of makes a pending candidate of exactly its confidence. */
  lemma RunOneItem(stored: Stored, kinds: set<Kind>, sid: int, items: seq<EvidenceItem>, before: Candidates,
                   after: Candidates, k: CandidateKey, n: nat)
    requires TableOk(stored, before) && sid in stored && RunResult(stored[sid], kinds, sid, items, before, after)
    requires k !in before && k in after && n < |items| && Concerns(stored[sid], kinds, sid, k, items[n])
    requires forall i :: 0 <= i < |items| && i != n ==> !Concerns(stored[sid], kinds, sid, k, items[i])
    ensures after[k] ==
      Candidate([Evidence(items[n].identity, items[n].confidence)], items[n].confidence, Pending, None)
  {
    hide Concerns, RunResult, TableOk;
    var picks := RunMeaning(stored, kinds, sid, items, before, after, k);
    assert CountsAt(stored[sid], kinds, sid, items, k, [], n);
    assert n in picks && forall i :: i in picks ==> i == n;
    OnlyPick(picks, n);
    hide CountsAt;
    assert Product([n], Doubt(items)) == 1.0 - items[n].confidence by { ProductSnoc([], n, Doubt(items)); }
    assert after[k].evidence == [Evidence(items[n].identity, items[n].confidence)];
  }

  lemma OnlyPick(picks: seq<nat>, n: nat)
    requires Increasing(picks) && n in picks && forall i :: i in picks ==> i == n
    ensures picks == [n]
  {
    assert forall i :: 0 <= i < |picks| ==> picks[i] in picks;
    assert picks[0] == picks[|picks| - 1];
  }

  /** The item offers evidence of a known type, in range, for this pair. */
  predicate Offers(kinds: set<Kind>, k: CandidateKey, i: EvidenceItem) {
    SameEnds(k, i.source, i.target, i.kind) && 0.0 <= i.confidence <= 1.0 && i.kind in kinds
  }

  /** Approval settles a pair in the snapshot it produces, and nowhere else: a run on any snapshot with both ends
      proposes the approved pair again exactly when that snapshot does not join it and evidence is offered. */
  lemma ReproposedExactly(stored: Stored, kinds: set<Kind>, sid: int, items: seq<EvidenceItem>, before: Candidates,
                          after: Candidates, k: CandidateKey)
    requires TableOk(stored, before) && k in before && before[k].status == Approved
    requires sid in stored && HasNode(stored[sid].nodes, k.source) && HasNode(stored[sid].nodes, k.target)
    requires RunResult(stored[sid], kinds, sid, items, before, after)
    ensures k.(snapshot := sid) in after <==>
      k.(snapshot := sid) in before
      || (!Joined(stored[sid].nodes, stored[sid].edges, k.source, k.target, k.kind)
          && exists i :: i in items && Offers(kinds, k, i))
  {
    assert CandidateOk(stored, before, k, before[k]);
    ProposedExactly(stored[sid], kinds, sid, items, before, after, k.(snapshot := sid));
    hide Joined, HasNode, RunResult, TableOk;
  }

  /** Approvals of one snapshot end in sibling snapshots. The sibling of another candidate never joins the pair of
      this one, so a run on it proposes the approved pair again exactly when evidence is offered. */
  lemma SiblingsPropose(stored: Stored, kinds: set<Kind>, items: seq<EvidenceItem>, before: Candidates,
                        after: Candidates, k: CandidateKey, other: CandidateKey)
    requires TableOk(stored, before) && k in before && before[k].status == Approved
    requires other in before && before[other].status == Approved && other != k && other.snapshot == k.snapshot
    requires CandidateOk(stored, before, other, before[other])
    requires RunResult(stored[before[other].integrated.value], kinds, before[other].integrated.value, items, before,
      after)
    ensures
      var sid := before[other].integrated.value;
      && !Joined(stored[sid].nodes, stored[sid].edges, k.source, k.target, k.kind)
      && (k.(snapshot := sid) in after <==>
        k.(snapshot := sid) in before || exists i :: i in items && Offers(kinds, k, i))
  {
    assert CandidateOk(stored, before, k, before[k]);
    var sid := before[other].integrated.value;
    IntegratedJoins(stored, other, k, sid);
    hide Joined, HasNode, RunResult, TableOk, Offers;
    ReproposedExactly(stored, kinds, sid, items, before, after, k);
  }

  /** Running twice on the same snapshot and evidence leaves the table as it was after the first run. */
  lemma RunIdempotent(stored: Stored, kinds: set<Kind>, sid: int, items: seq<EvidenceItem>, before: Candidates,
                      once: Candidates, twice: Candidates)
    requires TableOk(stored, before) && sid in stored
    requires RunResult(stored[sid], kinds, sid, items, before, once)
    requires RunResult(stored[sid], kinds, sid, items, once, twice)
    ensures twice == once
  {
    forall k ensures (k in twice <==> k in once) && (k in once ==> twice[k] == once[k]) {
      var relevant := Relevant(stored[sid], kinds, sid, items, k);
      var c := if k in before then before[k] else NEW;
      if relevant != [] {
        forall i | i in relevant ensures Known(Absorb(c.evidence, relevant), i.identity) {
          AbsorbKnows(c.evidence, relevant, i.identity);
        }
        AbsorbIdempotent(once[k].evidence, relevant);
      }
    }
  }

  lemma ExtendKeeps(stored: Stored, candidates: Candidates, id: int, s: Snapshot)
    requires TableOk(stored, candidates) && id !in stored
    ensures TableOk(stored[id := s], candidates)
  {
    hide Proposable, Integrates, Sound;
  }

  lemma DerivedJoins(base: Snapshot, rel: Relationship, s: Snapshot)
    requires DerivedFrom(base, [rel], s) && HasNode(base.nodes, rel.source) && HasNode(base.nodes, rel.target)
    ensures Joined(s.nodes, s.edges, rel.source, rel.target, rel.kind)
  {
    OneDetail(rel, rel.source, rel.target, rel.kind);
    if Joined(base.nodes, base.edges, rel.source, rel.target, rel.kind) {
      var c :| Has(base.nodes, base.edges, rel.source, rel.target, rel.kind, c);
      assert DerivedHas(base, [rel], rel.source, rel.target, rel.kind, c);
      assert Has(s.nodes, s.edges, rel.source, rel.target, rel.kind, c);
    } else {
      assert DerivedHas(base, [rel], rel.source, rel.target, rel.kind, rel.detail);
      assert Has(s.nodes, s.edges, rel.source, rel.target, rel.kind, rel.detail);
    }
  }

  lemma OneDetail(rel: Relationship, a: ExternalId, b: ExternalId, kind: Kind)
    ensures FirstDetail([rel], a, b, kind) == if SamePair(rel, a, b, kind) then Some(rel.detail) else None
  {
    assert [rel][..0] == [];
  }

  /** Deriving with a candidate's relationship adds exactly that edge. */
  lemma DerivedIntegrates(base: Snapshot, k: CandidateKey, d: Detail, s: Snapshot)
    requires DerivedFrom(base, [Relationship(k.source, k.target, k.kind, d)], s) && Proposable(base, k)
    ensures Integrates(base, s, k, d)
  {
    var rel := Relationship(k.source, k.target, k.kind, d);
    forall name ensures HasNode(s.nodes, name) <==> HasNode(base.nodes, name) {
      SameNames(base.nodes, s.nodes, name);
    }
    hide HasNode, Has, NodesOk, EdgesOk, FirstDetail;
    forall a, b, kind, c ensures Has(s.nodes, s.edges, a, b, kind, c) <==>
      Has(base.nodes, base.edges, a, b, kind, c) || (SameEnds(k, a, b, kind) && c == d)
    {
      OneDetail(rel, a, b, kind);
    }
  }

  lemma SameNames(base: seq<NodeRow>, nodes: seq<NodeRow>, name: ExternalId)
    requires |nodes| == |base| && forall i :: 0 <= i < |base| ==> nodes[i] == base[i].(id := nodes[i].id)
    ensures HasNode(nodes, name) <==> HasNode(base, name)
  {
    if n :| n in nodes && n.externalId == name {
      var i :| 0 <= i < |nodes| && nodes[i] == n;
      assert base[i].externalId == name;
    }
    if n :| n in base && n.externalId == name {
      var i :| 0 <= i < |base| && base[i] == n;
      assert nodes[i].externalId == name;
    }
  }

  // ---------------------------------------------------------------- the operations

  /** The external view a run works on: the node names and the typed pairs already joined. */
  method Graph(s: Snapshot) returns (entityIds: set<ExternalId>, existing: set<(ExternalId, ExternalId, Kind)>)
    requires WellFormed(s)
    ensures forall name :: name in entityIds <==> HasNode(s.nodes, name)
    ensures forall a, b, kind :: (a, b, kind) in existing <==> Joined(s.nodes, s.edges, a, b, kind)
  {
    var externalByNode := map[];
    entityIds := {};
    for i := 0 to |s.nodes|
      invariant forall name :: name in entityIds <==> HasNode(s.nodes[..i], name)
      invariant NamesNodes(s.nodes[..i], externalByNode)
    {
      NodeAppend(s.nodes, i, externalByNode);
      forall name { HasNodeAppend(s.nodes, i, name); }
      externalByNode := externalByNode[s.nodes[i].id := s.nodes[i].externalId];
      entityIds := entityIds + {s.nodes[i].externalId};
    }
    assert s.nodes[..|s.nodes|] == s.nodes;
    existing := {};
    for i := 0 to |s.edges|
      invariant forall a, b, kind :: (a, b, kind) in existing <==> Joined(s.nodes, s.edges[..i], a, b, kind)
    {
      var e := s.edges[i];
      assert e in s.edges;
      EdgeNames(s, externalByNode, e);
      var a, b := externalByNode[e.source], externalByNode[e.target];
      EdgeAppend(s, externalByNode, i);
      existing := existing + {(a, b, e.kind)};
    }
    assert s.edges[..|s.edges|] == s.edges;
  }

  ghost predicate NamesNodes(nodes: seq<NodeRow>, externalByNode: map<int, ExternalId>) {
    forall id, name :: id in externalByNode && externalByNode[id] == name <==> Named(nodes, id, name)
  }

  lemma HasNodeAppend(nodes: seq<NodeRow>, i: nat, name: ExternalId)
    requires i < |nodes|
    ensures HasNode(nodes[..i + 1], name) <==> HasNode(nodes[..i], name) || name == nodes[i].externalId
  {
    assert forall n :: n in nodes[..i + 1] <==> n in nodes[..i] || n == nodes[i];
    assert nodes[i] in nodes[..i + 1];
    if HasNode(nodes[..i], name) {
      var n :| n in nodes[..i] && n.externalId == name;
      assert n in nodes[..i + 1];
    }
  }

  lemma NodeAppend(nodes: seq<NodeRow>, i: nat, externalByNode: map<int, ExternalId>)
    requires i < |nodes| && NodesOk(nodes) && NamesNodes(nodes[..i], externalByNode)
    ensures NamesNodes(nodes[..i + 1], externalByNode[nodes[i].id := nodes[i].externalId])
  {
    assert forall n :: n in nodes[..i + 1] <==> n in nodes[..i] || n == nodes[i];
    forall n | n in nodes[..i] ensures n.id != nodes[i].id {
      var j :| 0 <= j < i && nodes[j] == n;
    }
    forall id, name ensures Named(nodes[..i + 1], id, name) <==>
      Named(nodes[..i], id, name) || (id == nodes[i].id && name == nodes[i].externalId)
    {
      if Named(nodes[..i], id, name) {
        var n :| n in nodes[..i] && n.id == id && n.externalId == name;
        assert n in nodes[..i + 1];
      }
    }
    forall name ensures !Named(nodes[..i], nodes[i].id, name) {
    }
    hide Named;
    var next := externalByNode[nodes[i].id := nodes[i].externalId];
    var upTo := nodes[..i + 1];
    forall id, name ensures id in next && next[id] == name <==> Named(upTo, id, name) {
      if id != nodes[i].id { assert Named(upTo, id, name) <==> Named(nodes[..i], id, name); }
    }
  }

  lemma EdgeNames(s: Snapshot, externalByNode: map<int, ExternalId>, e: EdgeRow)
    requires WellFormed(s) && e in s.edges
    requires NamesNodes(s.nodes, externalByNode)
    ensures e.source in externalByNode && e.target in externalByNode
  {
    var a :| Named(s.nodes, e.source, a);
    var b :| Named(s.nodes, e.target, b);
  }

  lemma EdgeAppend(s: Snapshot, externalByNode: map<int, ExternalId>, i: nat)
    requires i < |s.edges| && s.edges[i].source in externalByNode && s.edges[i].target in externalByNode
    requires NamesNodes(s.nodes, externalByNode)
    ensures
      var e := s.edges[i];
      forall a, b, kind :: Joined(s.nodes, s.edges[..i + 1], a, b, kind) <==>
        Joined(s.nodes, s.edges[..i], a, b, kind)
          || (a, b, kind) == (externalByNode[e.source], externalByNode[e.target], e.kind)
  {
    var e := s.edges[i];
    assert forall f :: f in s.edges[..i + 1] <==> f in s.edges[..i] || f == e;
    hide Named;
    forall a, b, kind, c ensures Has(s.nodes, s.edges[..i + 1], a, b, kind, c) <==>
      Has(s.nodes, s.edges[..i], a, b, kind, c)
      || ((a, b, kind) == (externalByNode[e.source], externalByNode[e.target], e.kind) && c == e.detail)
    {
    }
    forall a, b, kind ensures Joined(s.nodes, s.edges[..i + 1], a, b, kind) <==>
      Joined(s.nodes, s.edges[..i], a, b, kind)
        || (a, b, kind) == (externalByNode[e.source], externalByNode[e.target], e.kind)
    {
      if (a, b, kind) == (externalByNode[e.source], externalByNode[e.target], e.kind) {
        assert Has(s.nodes, s.edges[..i + 1], a, b, kind, e.detail);
      }
      if Joined(s.nodes, s.edges[..i + 1], a, b, kind)
        && (a, b, kind) != (externalByNode[e.source], externalByNode[e.target], e.kind) {
        var c :| Has(s.nodes, s.edges[..i + 1], a, b, kind, c);
        assert Has(s.nodes, s.edges[..i], a, b, kind, c);
      }
      if c :| Has(s.nodes, s.edges[..i], a, b, kind, c) { assert Has(s.nodes, s.edges[..i + 1], a, b, kind, c); }
    }
  }

  /** The grouped table holds the accepted items of each pair, pairs in order of first appearance. */
  ghost predicate Grouped(s: Snapshot, kinds: set<Kind>, sid: int, items: seq<EvidenceItem>, order: seq<CandidateKey>,
                          grouped: map<CandidateKey, seq<EvidenceItem>>) {
    Listed(order, grouped.Keys) && forall k :: GroupOf(grouped, k) == Relevant(s, kinds, sid, items, k)
  }

  function GroupOf(grouped: map<CandidateKey, seq<EvidenceItem>>, k: CandidateKey): seq<EvidenceItem> {
    if k in grouped then grouped[k] else []
  }

  ghost predicate Listed(order: seq<CandidateKey>, keys: set<CandidateKey>) {
    && (forall k :: k in order <==> k in keys)
    && forall i, j :: 0 <= i < j < |order| ==> order[i] != order[j]
  }

  ghost predicate NoneEmpty(grouped: map<CandidateKey, seq<EvidenceItem>>) {
    forall k :: k in grouped ==> grouped[k] != []
  }

  function KeyOf(sid: int, i: EvidenceItem): CandidateKey {
    CandidateKey(sid, i.source, i.target, i.kind)
  }

  lemma RelevantStep(s: Snapshot, kinds: set<Kind>, sid: int, items: seq<EvidenceItem>, i: nat, k: CandidateKey)
    requires i < |items|
    ensures Relevant(s, kinds, sid, items[..i + 1], k) ==
      if k == KeyOf(sid, items[i]) && Accepted(s, kinds, items[i])
        then Relevant(s, kinds, sid, items[..i], k) + [items[i]]
      else Relevant(s, kinds, sid, items[..i], k)
  {
    assert items[..i + 1][..i] == items[..i];
  }

  lemma ListedStep(order: seq<CandidateKey>, keys: set<CandidateKey>, k: CandidateKey)
    requires Listed(order, keys) && k !in keys
    ensures Listed(order + [k], keys + {k})
  {
  }

  lemma GroupedStep(s: Snapshot, kinds: set<Kind>, sid: int, items: seq<EvidenceItem>, i: nat, order: seq<CandidateKey>,
                    grouped: map<CandidateKey, seq<EvidenceItem>>)
    requires i < |items| && Grouped(s, kinds, sid, items[..i], order, grouped)
    ensures
      var k := KeyOf(sid, items[i]);
      if !Accepted(s, kinds, items[i]) then Grouped(s, kinds, sid, items[..i + 1], order, grouped)
      else if k in grouped then Grouped(s, kinds, sid, items[..i + 1], order, grouped[k := grouped[k] + [items[i]]])
      else Grouped(s, kinds, sid, items[..i + 1], order + [k], grouped[k := [items[i]]])
  {
    hide Accepted, Relevant, Listed;
    var k := KeyOf(sid, items[i]);
    if k in grouped {
      assert grouped[k := grouped[k] + [items[i]]].Keys == grouped.Keys;
    } else {
      assert grouped[k := [items[i]]].Keys == grouped.Keys + {k};
      ListedStep(order, grouped.Keys, k);
    }
    var upTo := items[..i + 1];
    var after := if Accepted(s, kinds, items[i]) then grouped[k := GroupOf(grouped, k) + [items[i]]] else grouped;
    forall l ensures GroupOf(after, l) == Relevant(s, kinds, sid, upTo, l) {
      RelevantStep(s, kinds, sid, items, i, l);
      assert GroupOf(grouped, l) == Relevant(s, kinds, sid, items[..i], l);
    }
  }

  method Group(s: Snapshot, kinds: set<Kind>, sid: int, items: seq<EvidenceItem>)
    returns (order: seq<CandidateKey>, grouped: map<CandidateKey, seq<EvidenceItem>>)
    requires WellFormed(s)
    ensures Grouped(s, kinds, sid, items, order, grouped) && NoneEmpty(grouped)
  {
    var entityIds, existing := Graph(s);
    order, grouped := [], map[];
    for i := 0 to |items|
      invariant Grouped(s, kinds, sid, items[..i], order, grouped) && NoneEmpty(grouped)
    {
      var item := items[i];
      GroupedStep(s, kinds, sid, items, i, order, grouped);
      hide Grouped, HasNode, Joined;
      if !(0.0 <= item.confidence <= 1.0) { continue; }
      if item.kind !in kinds { continue; }
      if item.source !in entityIds || item.target !in entityIds || item.source == item.target { continue; }
      if (item.source, item.target, item.kind) in existing { continue; }
      var k := KeyOf(sid, item);
      if k in grouped {
        grouped := grouped[k := grouped[k] + [item]];
      } else {
        order, grouped := order + [k], grouped[k := [item]];
      }
    }
    assert items[..|items|] == items;
  }

  /** The inner loop of a run: items with a known identity are skipped. */
  method AddEvidence(evidence: seq<Evidence>, items: seq<EvidenceItem>) returns (all: seq<Evidence>)
    ensures all == Absorb(evidence, items)
    ensures exists picks ::
      Appends(evidence, items, picks, all) && forall i: nat :: i in picks <==> NewAt(evidence, items, i)
  {
    var known := set e | e in evidence :: e.identity;
    all := evidence;
    for i := 0 to |items|
      invariant all == Absorb(evidence, items[..i])
      invariant forall identity :: identity in known <==> Known(all, identity)
    {
      assert items[..i + 1][..i] == items[..i];
      var item := items[i];
      if item.identity in known { continue; }
      known := known + {item.identity};
      forall identity { KnownAppend(all, Evidence(item.identity, item.confidence), identity); }
      all := all + [Evidence(item.identity, item.confidence)];
    }
    assert items[..|items|] == items;
    var picks := AbsorbExact(evidence, items);
  }

  method NoisyOr(evidence: seq<Evidence>) returns (confidence: real)
    ensures confidence == Confidence(evidence)
  {
    var miss := 1.0;
    for i := 0 to |evidence|
      invariant miss == Miss(evidence[..i])
    {
      assert evidence[..i + 1][..i] == evidence[..i];
      miss := miss * (1.0 - evidence[i].confidence);
    }
    assert evidence[..|evidence|] == evidence;
    confidence := 1.0 - miss;
  }

  lemma ApproveKeeps(stored: Stored, candidates: Candidates, k: CandidateKey, id: int, d: Detail, s: Snapshot)
    requires TableOk(stored, candidates) && k in candidates && candidates[k].status == Pending && id !in stored
    requires DerivedFrom(stored[k.snapshot], [Relationship(k.source, k.target, k.kind, d)], s)
    ensures Integrates(stored[k.snapshot], s, k, d)
    ensures TableOk(stored[id := s], candidates[k := candidates[k].(status := Approved, integrated := Some(id))])
  {
    DerivedIntegrates(stored[k.snapshot], k, d, s);
    ExtendKeeps(stored, candidates, id, s);
    hide Proposable, Sound, DerivedFrom, Integrates;
    var after := candidates[k := candidates[k].(status := Approved, integrated := Some(id))];
    assert forall l :: l in candidates ==> l.snapshot != id;
    assert Integrates(stored[id := s][k.snapshot], stored[id := s][id], k, d);
    forall l | l in after ensures CandidateOk(stored[id := s], after, l, after[l]) {
      assert CandidateOk(stored[id := s], candidates, l, candidates[l]);
    }
  }

  /** The pairs handled so far carry their new evidence; the others are as before. */
  ghost predicate Progressed(before: Candidates, after: Candidates, handled: seq<CandidateKey>,
                             grouped: map<CandidateKey, seq<EvidenceItem>>) {
    && (forall k :: k in handled ==> k in grouped)
    && forall k ::
      if k in handled then k in after && after[k] == Updated(if k in before then before[k] else NEW, grouped[k])
      else (k in after <==> k in before) && (k in before ==> after[k] == before[k])
  }

  lemma ProgressStep(before: Candidates, after: Candidates, order: seq<CandidateKey>,
                     grouped: map<CandidateKey, seq<EvidenceItem>>, j: nat)
    requires j < |order| && Progressed(before, after, order[..j], grouped) && order[j] in grouped
    requires forall i, l :: 0 <= i < l < |order| ==> order[i] != order[l]
    ensures
      var c := if order[j] in after then after[order[j]] else NEW;
      Progressed(before, after[order[j] := Updated(c, grouped[order[j]])], order[..j + 1], grouped)
  {
    assert order[j] !in order[..j];
    assert forall k :: k in order[..j + 1] <==> k in order[..j] || k == order[j];
  }

  lemma GroupedRun(s: Snapshot, kinds: set<Kind>, sid: int, items: seq<EvidenceItem>, before: Candidates,
                   after: Candidates, order: seq<CandidateKey>, grouped: map<CandidateKey, seq<EvidenceItem>>)
    requires Grouped(s, kinds, sid, items, order, grouped) && NoneEmpty(grouped)
    requires Progressed(before, after, order, grouped)
    ensures RunResult(s, kinds, sid, items, before, after)
    ensures forall k :: k in order <==> Relevant(s, kinds, sid, items, k) != []
  {
    hide Relevant;
  }

  class DiscoveryEngine {
    const graph: GraphEngine
    var candidates: Candidates

    ghost predicate Valid()
      reads this, graph
    {
      graph.Valid() && TableOk(graph.snapshots, candidates)
    }

    constructor (graph: GraphEngine)
      requires graph.Valid()
      ensures Valid() && this.graph == graph && candidates == map[]
    {
      this.graph, candidates := graph, map[];
    }

    /** One discovery run over the evidence a provider offers for a stored snapshot. */
    method Run(sid: int, kinds: set<Kind>, items: seq<EvidenceItem>)
      returns (outcome: Outcome, touched: seq<CandidateKey>)
      requires Valid()
      modifies this
      ensures Valid()
      ensures outcome == if sid in graph.snapshots then Done else NoSnapshot
      ensures outcome == NoSnapshot ==> candidates == old(candidates) && touched == []
      ensures outcome == Done ==>
        && RunResult(graph.snapshots[sid], kinds, sid, items, old(candidates), candidates)
        && Grows(old(candidates), candidates)
        && (forall k :: k in touched <==> Relevant(graph.snapshots[sid], kinds, sid, items, k) != [])
        && forall k :: k in candidates ==>
          exists picks :: Leaves(graph.snapshots[sid], kinds, sid, items, old(candidates), k, candidates[k], picks)
    {
      var found := graph.Get(sid);
      if found.Err? { return NoSnapshot, []; }
      var order, grouped := Group(found.value, kinds, sid, items);
      var before := candidates;
      for j := 0 to |order|
        invariant Progressed(before, candidates, order[..j], grouped)
      {
        var k := order[j];
        assert k in order;
        ProgressStep(before, candidates, order, grouped, j);
        var c := if k in candidates then candidates[k] else NEW;
        var evidence := AddEvidence(c.evidence, grouped[k]);
        var confidence := NoisyOr(evidence);
        candidates := candidates[k := c.(evidence := evidence, confidence := confidence)];
      }
      assert order[..|order|] == order;
      GroupedRun(found.value, kinds, sid, items, before, candidates, order, grouped);
      RunKeeps(graph.snapshots, kinds, sid, items, before, candidates);
      RunLeaves(graph.snapshots, kinds, sid, items, before, candidates);
      return Done, order;
    }

    /** Approval derives a snapshot holding the relationship and records the decision. */
    method Approve(k: CandidateKey, metadata: Payload) returns (outcome: Outcome)
      requires Valid()
      modifies this, graph
      ensures Valid()
      ensures outcome ==
        if k !in old(candidates) then NotFound
        else if old(candidates)[k].status != Pending then AlreadyDecided else Done
      ensures outcome != Done ==> candidates == old(candidates) && graph.snapshots == old(graph.snapshots)
      ensures outcome == Done ==>
        && k in candidates && candidates[k].integrated.Some?
        && candidates ==
          old(candidates)[k := old(candidates)[k].(status := Approved, integrated := candidates[k].integrated)]
        && Settled(graph.snapshots, candidates, k, candidates[k].integrated.value)
        && Integrates(old(graph.snapshots)[k.snapshot], graph.snapshots[candidates[k].integrated.value], k,
          Detail(old(candidates)[k].confidence, metadata))
        && DerivedFrom(old(graph.snapshots)[k.snapshot],
          [Relationship(k.source, k.target, k.kind, Detail(old(candidates)[k].confidence, metadata))],
          graph.snapshots[candidates[k].integrated.value])
        && candidates[k].integrated.value !in old(graph.snapshots)
        && graph.snapshots ==
          old(graph.snapshots)[candidates[k].integrated.value := graph.snapshots[candidates[k].integrated.value]]
    {
      if k !in candidates { return NotFound; }
      var c := candidates[k];
      if c.status != Pending { return AlreadyDecided; }
      var detail := Detail(c.confidence, metadata);
      var derived := graph.Derive(k.snapshot, [Relationship(k.source, k.target, k.kind, detail)]);
      ApproveKeeps(old(graph.snapshots), candidates, k, derived.value, detail, graph.snapshots[derived.value]);
      hide Proposable, Sound, DerivedFrom, Integrates;
      candidates := candidates[k := c.(status := Approved, integrated := Some(derived.value))];
      return Done;
    }

    method Reject(k: CandidateKey) returns (outcome: Outcome)
      requires Valid()
      modifies this
      ensures Valid()
      ensures outcome ==
        if k !in old(candidates) then NotFound
        else if old(candidates)[k].status != Pending then AlreadyDecided else Done
      ensures candidates ==
        if outcome == Done then old(candidates)[k := old(candidates)[k].(status := Rejected)] else old(candidates)
    {
      if k !in candidates { return NotFound; }
      if candidates[k].status != Pending { return AlreadyDecided; }
      candidates := candidates[k := candidates[k].(status := Rejected)];
      return Done;
    }
  }
}
