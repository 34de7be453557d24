/** The two merges composed, and the relations rewritten onto the survivors. */
module EntityPipeline {
  import opened EntityMerge
  import opened Options

  // ---------------------------------------------------------------- what one stage hands on

  function Whole(stage: Stage, t: Text, rs: seq<Record>): (m: Merge)
    ensures Inv(t, rs, m) && |m.owners| == |rs|
  {
    Run(stage, t, rs, |rs|)
  }

  function PickAll(all: seq<Record>, indices: seq<nat>): (picked: seq<Record>)
    requires forall p :: 0 <= p < |indices| ==> indices[p] < |all|
    ensures IsPick(all, indices, picked)
  {
    seq(|indices|, p requires 0 <= p < |indices| => all[indices[p]])
  }

  lemma SurvivorsInRange(t: Text, rs: seq<Record>, m: Merge)
    requires Inv(t, rs, m)
    ensures forall p :: 0 <= p < |m.survivors| ==> m.survivors[p] < |m.records|
  {
    hide Classes, Linked;
    forall p | 0 <= p < |m.survivors| ensures m.survivors[p] < |m.records| {
      assert m.survivors[p] in m.survivors;
    }
  }

  /** The survivors of a stage in the order their keys first appeared. */
  function After(stage: Stage, t: Text, rs: seq<Record>): (out: seq<Record>)
    ensures IsPick(Whole(stage, t, rs).records, Whole(stage, t, rs).survivors, out)
  {
    hide Inv;
    var m := Whole(stage, t, rs);
    SurvivorsInRange(t, rs, m);
    PickAll(m.records, m.survivors)
  }

  /** f has all e had: its type, at least its confidence, its name among the names, its aliases. */
  predicate Carries(e: Record, f: Record) {
    f.kind == e.kind && e.confidence <= f.confidence && (e.name == f.name || e.name in f.aliases)
      && e.aliases <= f.aliases
  }

  /** The id map of this stage sends the entity to this survivor. */
  ghost predicate Sends(ids: map<TempId, TempId>, e: Record, f: Record) {
    e.tempId in ids && ids[e.tempId] == f.tempId
  }

  lemma ClassCarries(t: Text, rs: seq<Record>, m: Merge, j: nat)
    requires Inv(t, rs, m) && j < |m.owners|
    ensures m.owners[j] < |m.owners| && m.owners[m.owners[j]] == m.owners[j] && Carries(rs[j], m.records[m.owners[j]])
  {
    var s := m.owners[j];
    assert m.keys[s] == m.keys[j];
    assert ClassOk(t, rs, m.owners, s, m.records[s], m.keys[s]);
    ClassNames(t, rs, m.owners, s, m.records[s], m.keys[s], j);
    hide ClassOk;
  }

  lemma ClassNames(t: Text, rs: seq<Record>, owners: seq<nat>, s: nat, r: Record, k: Key, j: nat)
    requires |owners| <= |rs| && s < |owners| && ClassOk(t, rs, owners, s, r, k) && j < |owners| && owners[j] == s
    ensures (rs[j].name == r.name || rs[j].name in r.aliases) && rs[j].aliases <= r.aliases
    ensures rs[j].confidence <= r.confidence
  {
    if rs[j].name != r.name { assert Contributes(rs, owners, s, r.name, j, rs[j].name); }
    forall a | a in rs[j].aliases ensures a in r.aliases { assert Contributes(rs, owners, s, r.name, j, a); }
  }

  lemma SurvivorPosition(t: Text, rs: seq<Record>, m: Merge, out: seq<Record>, s: nat) returns (p: nat)
    requires Inv(t, rs, m) && IsPick(m.records, m.survivors, out) && s < |m.owners| && m.owners[s] == s
    ensures p < |out| && p < |m.survivors| && m.survivors[p] == s && out[p] == m.records[s]
    ensures out[p].tempId == rs[s].tempId
  {
    assert s in m.survivors;
    p :| 0 <= p < |m.survivors| && m.survivors[p] == s;
  }

  /** No entity is lost: some survivor carries it, and the id map says which. */
  lemma StageCarries(stage: Stage, t: Text, rs: seq<Record>, j: nat) returns (p: nat)
    requires j < |rs| && DistinctIds(rs)
    ensures p < |After(stage, t, rs)| && Carries(rs[j], After(stage, t, rs)[p])
    ensures Sends(Whole(stage, t, rs).ids, rs[j], After(stage, t, rs)[p])
  {
    var m := Whole(stage, t, rs);
    ClassCarries(t, rs, m, j);
    p := SurvivorPosition(t, rs, m, After(stage, t, rs), m.owners[j]);
    RunIds(stage, t, rs, |rs|);
    assert EntryOk(stage, rs, m.owners, m.ids, j);
    hide Inv, After, Run;
  }

  /** Some entity of a survivor's class has exactly the survivor's confidence. */
  lemma StageConfidence(stage: Stage, t: Text, rs: seq<Record>, p: nat) returns (j: nat)
    requires p < |After(stage, t, rs)| && DistinctIds(rs)
    ensures j < |rs| && rs[j].confidence == After(stage, t, rs)[p].confidence
    ensures Sends(Whole(stage, t, rs).ids, rs[j], After(stage, t, rs)[p])
  {
    var m := Whole(stage, t, rs);
    var s := SurvivorAt(t, rs, m, p);
    j :| 0 <= j < |m.owners| && m.owners[j] == s && rs[j].confidence == m.records[s].confidence;
    RunIds(stage, t, rs, |rs|);
    assert EntryOk(stage, rs, m.owners, m.ids, j);
    hide Inv, After, Run;
  }

  lemma SurvivorAt(t: Text, rs: seq<Record>, m: Merge, p: nat) returns (s: nat)
    requires Inv(t, rs, m) && p < |m.survivors|
    ensures s == m.survivors[p] && s < |m.owners| && m.owners[s] == s
    ensures ClassOk(t, rs, m.owners, s, m.records[s], m.keys[s])
    ensures m.records[s].tempId == rs[s].tempId && s < |m.records| && m.records[s].kind == rs[s].kind == m.keys[s].kind
  {
    s := m.survivors[p];
    assert s in m.survivors;
    hide ClassOk;
  }

  /** Every alias of a survivor was an alias or a name in its class. */
  lemma StageAliases(stage: Stage, t: Text, rs: seq<Record>, p: nat, a: Name) returns (j: nat)
    requires p < |After(stage, t, rs)| && DistinctIds(rs) && a in After(stage, t, rs)[p].aliases
    ensures j < |rs| && (a in rs[j].aliases || a == rs[j].name)
    ensures Sends(Whole(stage, t, rs).ids, rs[j], After(stage, t, rs)[p])
  {
    var m := Whole(stage, t, rs);
    var s := SurvivorAt(t, rs, m, p);
    j :| Contributes(rs, m.owners, s, m.records[s].name, j, a);
    RunIds(stage, t, rs, |rs|);
    assert EntryOk(stage, rs, m.owners, m.ids, j);
    hide Inv, After, Run;
  }

  ghost predicate DistinctKeys(t: Text, rs: seq<Record>) {
    forall i, j :: 0 <= i < j < |rs| ==> KeyOf(t, rs[i]) != KeyOf(t, rs[j])
  }

  /** Survivors differ in normalised name or type, and in temporary id. */
  lemma StageDistinct(stage: Stage, t: Text, rs: seq<Record>)
    requires DistinctIds(rs)
    ensures DistinctKeys(t, After(stage, t, rs)) && DistinctIds(After(stage, t, rs))
  {
    var m, out := Whole(stage, t, rs), After(stage, t, rs);
    forall i, j | 0 <= i < j < |out| ensures KeyOf(t, out[i]) != KeyOf(t, out[j]) && out[i].tempId != out[j].tempId {
      var a := SurvivorAt(t, rs, m, i);
      var b := SurvivorAt(t, rs, m, j);
      KeysApart(t, rs, m, a, b);
      hide Inv, After, Run;
    }
  }

  lemma KeysApart(t: Text, rs: seq<Record>, m: Merge, a: nat, b: nat)
    requires Linked(m) && a < |m.owners| && b < |m.owners| && m.owners[a] == a && m.owners[b] == b && a != b
    ensures m.keys[a] != m.keys[b]
  {
  }

  // ---------------------------------------------------------------- deduplication is exact

  /** Deduplication files an entity under its own normalised name and type, and renames nothing. */
  ghost predicate OwnKeys(t: Text, rs: seq<Record>, m: Merge) {
    && |m.keys| <= |rs| == |m.records|
    && (forall j :: 0 <= j < |m.keys| ==> m.keys[j] == KeyOf(t, rs[j]))
    && forall j :: 0 <= j < |rs| ==> m.records[j].name == rs[j].name && m.records[j].kind == rs[j].kind
  }

  lemma OwnKeysStep(t: Text, rs: seq<Record>, m: Merge)
    requires Fits(m) && |m.keys| == |m.owners| && OwnKeys(t, rs, m)
    ensures OwnKeys(t, rs, Step(Deduplication, t, m, m.records[|m.owners|].name))
  {
  }

  lemma RunUnfolds(stage: Stage, t: Text, rs: seq<Record>, n: nat)
    requires n < |rs|
    ensures
      var m := Run(stage, t, rs, n);
      Fits(m) && |m.keys| == |m.owners| == n && |m.records| == |rs|
        && Run(stage, t, rs, n + 1) == Step(stage, t, m, NameFor(stage, t, m.records, n))
  {
    hide Classes, Listed, Step;
  }

  lemma {:induction false} DedupOwnKeys(t: Text, rs: seq<Record>, n: nat)
    requires n <= |rs|
    ensures OwnKeys(t, rs, Run(Deduplication, t, rs, n))
  {
    hide Inv;
    if n != 0 {
      hide OwnKeys, Step, Run;
      DedupOwnKeys(t, rs, n - 1);
      RunUnfolds(Deduplication, t, rs, n - 1);
      OwnKeysStep(t, rs, Run(Deduplication, t, rs, n - 1));
    }
  }

  lemma SameOwner(m: Merge, i: nat, j: nat)
    requires Linked(m) && i < |m.owners| && j < |m.owners|
    ensures m.owners[i] == m.owners[j] <==> m.keys[i] == m.keys[j]
  {
  }

  /** A survivor of the deduplication keeps the name of the entity it is. */
  lemma DedupName(t: Text, rs: seq<Record>, p: nat) returns (j: nat)
    requires p < |After(Deduplication, t, rs)| && DistinctIds(rs)
    ensures j < |rs| && rs[j].name == After(Deduplication, t, rs)[p].name
    ensures Sends(Whole(Deduplication, t, rs).ids, rs[j], After(Deduplication, t, rs)[p])
  {
    var m := Whole(Deduplication, t, rs);
    j := SurvivorAt(t, rs, m, p);
    DedupOwnKeys(t, rs, |rs|);
    RunIds(Deduplication, t, rs, |rs|);
    assert EntryOk(Deduplication, rs, m.owners, m.ids, j);
    hide Inv, After, Run;
  }

  /** The key an entity was filed under at its turn: for aliases it depends on the names at that moment. */
  function KeyWhenFiled(stage: Stage, t: Text, rs: seq<Record>, i: nat): Key
    requires i < |rs|
  {
    hide Inv;
    RunUnfolds(stage, t, rs, i);
    Key(t.normalize(NameFor(stage, t, Run(stage, t, rs, i).records, i)), rs[i].kind)
  }

  lemma {:induction false} KeysFiled(stage: Stage, t: Text, rs: seq<Record>, i: nat, n: nat)
    requires i < n <= |rs|
    ensures i < |Run(stage, t, rs, n).keys| && Run(stage, t, rs, n).keys[i] == KeyWhenFiled(stage, t, rs, i)
    decreases n
  {
    hide Inv, Step, Run, Canonical;
    RunUnfolds(stage, t, rs, n - 1);
    KindStays(stage, t, rs, n - 1);
    StepKeys(stage, t, Run(stage, t, rs, n - 1), NameFor(stage, t, Run(stage, t, rs, n - 1).records, n - 1));
    if i < n - 1 { KeysFiled(stage, t, rs, i, n - 1); }
  }

  lemma StepKeys(stage: Stage, t: Text, m: Merge, canonical: Name)
    requires Fits(m)
    ensures Step(stage, t, m, canonical).keys == m.keys + [Key(t.normalize(canonical), m.records[|m.owners|].kind)]
  {
  }

  lemma KindStays(stage: Stage, t: Text, rs: seq<Record>, n: nat)
    requires n < |rs|
    ensures |Run(stage, t, rs, n).records| == |rs| && Run(stage, t, rs, n).records[n].kind == rs[n].kind
  {
  }

  /** Either stage merges two entities exactly when it files them under the same key. */
  lemma StageExact(stage: Stage, t: Text, rs: seq<Record>, i: nat, j: nat)
    requires i < |rs| && j < |rs| && DistinctIds(rs)
    ensures
      var ids := Whole(stage, t, rs).ids;
      && rs[i].tempId in ids && rs[j].tempId in ids
      && (ids[rs[i].tempId] == ids[rs[j].tempId] <==> KeyWhenFiled(stage, t, rs, i) == KeyWhenFiled(stage, t, rs, j))
  {
    var m := Whole(stage, t, rs);
    KeysFiled(stage, t, rs, i, |rs|);
    KeysFiled(stage, t, rs, j, |rs|);
    RunIds(stage, t, rs, |rs|);
    SameOwner(m, i, j);
    hide Inv, Run, Whole, KeyWhenFiled;
    assert EntryOk(stage, rs, m.owners, m.ids, i) && EntryOk(stage, rs, m.owners, m.ids, j);
    assert m.owners[i] != m.owners[j] ==> rs[m.owners[i]].tempId != rs[m.owners[j]].tempId;
  }

  /** Two extracted entities are merged exactly when their normalised names and their types agree. */
  lemma DedupExact(t: Text, rs: seq<Record>, i: nat, j: nat)
    requires i < |rs| && j < |rs| && DistinctIds(rs)
    ensures
      var ids := Whole(Deduplication, t, rs).ids;
      && rs[i].tempId in ids && rs[j].tempId in ids
      && (ids[rs[i].tempId] == ids[rs[j].tempId] <==>
        t.normalize(rs[i].name) == t.normalize(rs[j].name) && rs[i].kind == rs[j].kind)
  {
    hide Inv;
    StageExact(Deduplication, t, rs, i, j);
    DedupOwnKeys(t, rs, i);
    DedupOwnKeys(t, rs, j);
    hide Run, Whole;
  }

  // ---------------------------------------------------------------- what the alias stage files an entity under

  /** Entity i's name as it is at its turn is its own; names before it may have been replaced by then. */
  lemma NameAtTurn(stage: Stage, t: Text, rs: seq<Record>, i: nat)
    requires i < |rs|
    ensures
      var now := Run(stage, t, rs, i).records;
      |now| == |rs| && now[i] == rs[i] && forall j :: 0 <= j < |rs| ==> now[j].tempId == rs[j].tempId
  {
    hide Linked, Listed, Classes, Run;
  }

  /** The three ways the alias stage files an entity: a short name under the first name it abbreviates, as names are at
      that moment; else a name in the table under its table name; else under its own. The type is always its own. */
  lemma FiledExactly(t: Text, rs: seq<Record>, i: nat)
    requires i < |rs| && |Run(AliasResolution, t, rs, i).records| == |rs|
    ensures
      var now := Run(AliasResolution, t, rs, i).records;
      var key, own := KeyWhenFiled(AliasResolution, t, rs, i), t.normalize(rs[i].name);
      && (forall j :: 0 <= j < |rs| && t.short(rs[i].name) && FirstWithAcronym(t, rs, now, i, j) ==>
        key == Key(t.normalize(now[j].name), rs[i].kind))
      && (!t.short(rs[i].name) || (forall j :: 0 <= j < |rs| ==> !FirstWithAcronym(t, rs, now, i, j)) ==>
        key == Key(if own in t.known then t.normalize(t.known[own]) else own, rs[i].kind))
  {
    NameAtTurn(AliasResolution, t, rs, i);
    KeyNow(t, rs, i);
    hide Run, KeyWhenFiled, FirstWithAcronym, Canonical;
    CanonicalCases(t, rs, Run(AliasResolution, t, rs, i).records, i);
  }

  lemma KeyNow(t: Text, rs: seq<Record>, i: nat)
    requires i < |rs| && |Run(AliasResolution, t, rs, i).records| == |rs|
    ensures KeyWhenFiled(AliasResolution, t, rs, i) ==
      Key(t.normalize(Canonical(t, Run(AliasResolution, t, rs, i).records, i)), rs[i].kind)
  {
    hide Inv, Run, Canonical;
  }

  lemma StepSurvivor(t: Text, m: Merge, canonical: Name, s: nat)
    requires Fits(m) && Linked(m) && s <= |m.owners| && Step(AliasResolution, t, m, canonical).owners[s] == s
    ensures
      var next := Step(AliasResolution, t, m, canonical).records;
      s < |next| && if s == |m.owners| then next[s].name == canonical
        else m.owners[s] == s && next[s].name == m.records[s].name
  {
  }

  lemma {:induction false} NamedCanonically(t: Text, rs: seq<Record>, s: nat, n: nat)
    requires s < n <= |rs| && s < |Run(AliasResolution, t, rs, n).owners|
    requires Run(AliasResolution, t, rs, n).owners[s] == s
    ensures |Run(AliasResolution, t, rs, n).records| == |rs| == |Run(AliasResolution, t, rs, s).records|
    ensures Run(AliasResolution, t, rs, n).records[s].name ==
      Canonical(t, Run(AliasResolution, t, rs, s).records, s)
    decreases n
  {
    hide Inv, Step, Run, Canonical, Fits, Linked, Shape;
    NameAtTurn(AliasResolution, t, rs, s);
    RunSurvivor(t, rs, s, n - 1);
    if s < n - 1 { NamedCanonically(t, rs, s, n - 1); }
  }

  lemma RunSurvivor(t: Text, rs: seq<Record>, s: nat, n: nat)
    requires s <= n < |rs| && s < |Run(AliasResolution, t, rs, n + 1).owners|
    requires Run(AliasResolution, t, rs, n + 1).owners[s] == s
    ensures
      var m, next := Run(AliasResolution, t, rs, n), Run(AliasResolution, t, rs, n + 1);
      && |m.owners| == n && |m.records| == |rs| == |next.records|
      && if s == n then next.records[s].name == Canonical(t, m.records, s)
        else m.owners[s] == s && next.records[s].name == m.records[s].name
  {
    hide Step, Run, Canonical;
    RunUnfolds(AliasResolution, t, rs, n);
    RunLinked(t, rs, n);
    hide Inv, Linked, Shape;
    var m := Run(AliasResolution, t, rs, n);
    StepName(t, rs, m, Canonical(t, m.records, n), s);
    StepSurvivor(t, m, Canonical(t, m.records, n), s);
  }

  lemma RunLinked(t: Text, rs: seq<Record>, n: nat)
    requires n <= |rs|
    ensures Linked(Run(AliasResolution, t, rs, n)) && Shape(rs, Run(AliasResolution, t, rs, n))
  {
    hide Linked, Shape, Listed, Classes;
  }

  /** A survivor of the alias stage bears the name it was filed under: that of the first entity it abbreviates, as
      names were at its turn, or its name in the table, or its own. */
  lemma SurvivorNamed(t: Text, rs: seq<Record>, s: nat)
    requires s < |rs| && s < |Whole(AliasResolution, t, rs).owners| && Whole(AliasResolution, t, rs).owners[s] == s
    ensures s < |Whole(AliasResolution, t, rs).records| && |Run(AliasResolution, t, rs, s).records| == |rs|
    ensures
      var now, own := Run(AliasResolution, t, rs, s).records, t.normalize(rs[s].name);
      var name := Whole(AliasResolution, t, rs).records[s].name;
      && (forall j :: 0 <= j < |rs| && t.short(rs[s].name) && FirstWithAcronym(t, rs, now, s, j) ==>
        name == now[j].name)
      && (!t.short(rs[s].name) || (forall j :: 0 <= j < |rs| ==> !FirstWithAcronym(t, rs, now, s, j)) ==>
        name == if own in t.known then t.known[own] else rs[s].name)
  {
    hide Inv;
    NamedCanonically(t, rs, s, |rs|);
    NameAtTurn(AliasResolution, t, rs, s);
    hide Run, FirstWithAcronym, Canonical;
    CanonicalCases(t, rs, Run(AliasResolution, t, rs, s).records, s);
  }

  /** Every name an alias resolution can come across: those of the entities and those of the table. */
  function Names(t: Text, rs: seq<Record>): set<Name> {
    (set r | r in rs :: r.name) + t.known.Values
  }

  lemma StepName(t: Text, rs: seq<Record>, m: Merge, canonical: Name, j: nat)
    requires Fits(m) && |m.records| == |rs| && j < |rs|
    ensures
      var next := Step(AliasResolution, t, m, canonical).records;
      |next| == |rs| && (next[j].name == m.records[j].name || (j == |m.owners| && next[j].name == canonical))
  {
  }

  /** One turn renames at most the entity whose turn it is, to its canonical name. */
  lemma TurnName(t: Text, rs: seq<Record>, n: nat, j: nat)
    requires n < |rs| && j < |rs|
    ensures
      var now, next := Run(AliasResolution, t, rs, n).records, Run(AliasResolution, t, rs, n + 1).records;
      && |now| == |rs| == |next|
      && (next[j].name == now[j].name || (j == n && next[j].name == Canonical(t, now, n)))
  {
    hide Run, Step, Canonical;
    RunUnfolds(AliasResolution, t, rs, n);
    hide Inv;
    var m := Run(AliasResolution, t, rs, n);
    StepName(t, rs, m, Canonical(t, m.records, n), j);
  }

  lemma NamesAtStart(t: Text, rs: seq<Record>)
    ensures Run(AliasResolution, t, rs, 0).records == rs
  {
    hide Inv;
  }

  lemma CanonicalInNames(t: Text, rs: seq<Record>, now: seq<Record>, i: nat)
    requires i < |now| && forall j :: 0 <= j < |now| ==> now[j].name in Names(t, rs)
    ensures Canonical(t, now, i) in Names(t, rs)
  {
    hide Names, Expansion;
    if t.normalize(now[i].name) in t.known {
      assert t.known[t.normalize(now[i].name)] in t.known.Values;
      TableName(t, rs, t.known[t.normalize(now[i].name)]);
    }
  }

  lemma TableName(t: Text, rs: seq<Record>, name: Name)
    requires name in t.known.Values
    ensures name in Names(t, rs)
  {
  }

  /** No other name ever appears. */
  lemma {:induction false} NamesStay(t: Text, rs: seq<Record>, n: nat)
    requires n <= |rs|
    ensures
      var now := Run(AliasResolution, t, rs, n).records;
      |now| == |rs| && forall j :: 0 <= j < |rs| ==> now[j].name in Names(t, rs)
  {
    hide Inv;
    if n == 0 {
      NamesAtStart(t, rs);
      hide Run;
      forall j | 0 <= j < |rs| ensures rs[j].name in Names(t, rs) { assert rs[j] in rs; }
    } else {
      hide Run, Names, Canonical;
      NamesStay(t, rs, n - 1);
      CanonicalInNames(t, rs, Run(AliasResolution, t, rs, n - 1).records, n - 1);
      TurnName(t, rs, n - 1, n - 1);
      forall j | 0 <= j < |rs| ensures Run(AliasResolution, t, rs, n).records[j].name in Names(t, rs) {
        TurnName(t, rs, n - 1, j);
      }
    }
  }

  /** No name that can come up abbreviates to this surface. */
  ghost predicate Unabbreviated(t: Text, rs: seq<Record>, surface: Surface) {
    forall name :: name in Names(t, rs) ==> t.acronym(name) != surface
  }

  /** The table alone decides about this entity: it is long, or nothing abbreviates to it. */
  ghost predicate Plain(t: Text, rs: seq<Record>, i: nat)
    requires i < |rs|
  {
    !t.short(rs[i].name) || Unabbreviated(t, rs, t.normalize(rs[i].name))
  }

  function TableSurface(t: Text, surface: Surface): Surface {
    if surface in t.known then t.normalize(t.known[surface]) else surface
  }

  lemma PlainKey(t: Text, rs: seq<Record>, i: nat)
    requires i < |rs| && Plain(t, rs, i)
    ensures KeyWhenFiled(AliasResolution, t, rs, i) == Key(TableSurface(t, t.normalize(rs[i].name)), rs[i].kind)
  {
    NamesStay(t, rs, i);
    FiledExactly(t, rs, i);
    hide KeyWhenFiled, Run, Names;
  }

  /** An entity that is not in the table and is not abbreviated keeps its name through the whole stage. */
  lemma {:induction false} PlainStays(t: Text, rs: seq<Record>, j: nat, n: nat)
    requires j < |rs| && n <= |rs| && Plain(t, rs, j) && t.normalize(rs[j].name) !in t.known
    ensures |Run(AliasResolution, t, rs, n).records| == |rs|
    ensures Run(AliasResolution, t, rs, n).records[j].name == rs[j].name
  {
    hide Inv, Run, Names, Canonical, Plain;
    if n == 0 {
      NamesAtStart(t, rs);
    } else {
      PlainStays(t, rs, j, n - 1);
      TurnName(t, rs, n - 1, j);
      if j == n - 1 { PlainTurn(t, rs, j); }
    }
  }

  lemma PlainTurn(t: Text, rs: seq<Record>, j: nat)
    requires j < |rs| && Plain(t, rs, j) && t.normalize(rs[j].name) !in t.known
    ensures |Run(AliasResolution, t, rs, j).records| == |rs|
    ensures Canonical(t, Run(AliasResolution, t, rs, j).records, j) == rs[j].name
  {
    hide Inv, Plain, Run, Names, Canonical;
    NamesStay(t, rs, j);
    NameAtTurn(AliasResolution, t, rs, j);
    PlainCanonical(t, rs, Run(AliasResolution, t, rs, j).records, j);
  }

  lemma PlainCanonical(t: Text, rs: seq<Record>, now: seq<Record>, j: nat)
    requires |now| == |rs| && j < |rs| && now[j] == rs[j] && Plain(t, rs, j) && t.normalize(rs[j].name) !in t.known
    requires forall l :: 0 <= l < |rs| ==> now[l].name in Names(t, rs)
    ensures Canonical(t, now, j) == rs[j].name
  {
    hide Names;
    if t.short(rs[j].name) {
      forall l | 0 <= l < |now| ensures !Expands(t, now, j, l) {
      }
      hide Expands;
    }
  }

  /** A short name is filed under the one name it can abbreviate. */
  lemma AcronymKey(t: Text, rs: seq<Record>, i: nat, j: nat)
    requires i < |rs| && j < |rs| && rs[i].tempId != rs[j].tempId && t.short(rs[i].name)
    requires t.acronym(rs[j].name) == t.normalize(rs[i].name)
    requires Plain(t, rs, j) && t.normalize(rs[j].name) !in t.known
    requires forall name :: name in Names(t, rs) && t.acronym(name) == t.normalize(rs[i].name) ==>
      t.normalize(name) == t.normalize(rs[j].name)
    ensures KeyWhenFiled(AliasResolution, t, rs, i) == Key(t.normalize(rs[j].name), rs[i].kind)
  {
    NamesStay(t, rs, i);
    PlainStays(t, rs, j, i);
    FiledExactly(t, rs, i);
    hide KeyWhenFiled, Run, Names, Plain;
    var now := Run(AliasResolution, t, rs, i).records;
    var l := FirstAt(t, rs, now, i, j);
  }

  lemma {:induction false} FirstAt(t: Text, rs: seq<Record>, now: seq<Record>, i: nat, j: nat) returns (l: nat)
    requires |now| == |rs| && i < |rs| && j < |rs|
    requires rs[j].tempId != rs[i].tempId && t.acronym(now[j].name) == t.normalize(rs[i].name)
    ensures l < |rs| && FirstWithAcronym(t, rs, now, i, l)
    decreases j
  {
    if k: nat :| k < j && rs[k].tempId != rs[i].tempId && t.acronym(now[k].name) == t.normalize(rs[i].name) {
      l := FirstAt(t, rs, now, i, k);
    } else {
      l := j;
    }
  }

  // ---------------------------------------------------------------- both merges together

  function Compose(first: map<TempId, TempId>, second: map<TempId, TempId>): map<TempId, TempId> {
    map id | id in first :: if first[id] in second then second[first[id]] else first[id]
  }

  function Deduplicated(t: Text, rs: seq<Record>): seq<Record> {
    After(Deduplication, t, rs)
  }

  function Resolved(t: Text, rs: seq<Record>): seq<Record> {
    After(AliasResolution, t, Deduplicated(t, rs))
  }

  function Composed(t: Text, rs: seq<Record>): map<TempId, TempId> {
    Compose(Whole(Deduplication, t, rs).ids, Whole(AliasResolution, t, Deduplicated(t, rs)).ids)
  }

  lemma ComposeAt(first: map<TempId, TempId>, second: map<TempId, TempId>, e: Record, mid: Record)
    requires Sends(first, e, mid) && mid.tempId in second
    ensures e.tempId in Compose(first, second) && Compose(first, second)[e.tempId] == second[mid.tempId]
  {
  }

  /** The survivor of the deduplication that an extracted entity is sent to: it has the entity's normalised name and
      type, and its own name is that of an extracted entity. */
  lemma DedupSurvivor(t: Text, rs: seq<Record>, i: nat) returns (p: nat, l: nat)
    requires i < |rs| && DistinctIds(rs)
    ensures p < |Deduplicated(t, rs)| && Sends(Whole(Deduplication, t, rs).ids, rs[i], Deduplicated(t, rs)[p])
    ensures l < |rs| && KeyOf(t, rs[l]) == KeyOf(t, rs[i])
    ensures Deduplicated(t, rs)[p].name == rs[l].name && Deduplicated(t, rs)[p].kind == rs[l].kind
  {
    var m := Whole(Deduplication, t, rs);
    ClassCarries(t, rs, m, i);
    l := m.owners[i];
    p := SurvivorPosition(t, rs, m, After(Deduplication, t, rs), l);
    DedupOwnKeys(t, rs, |rs|);
    RunIds(Deduplication, t, rs, |rs|);
    assert EntryOk(Deduplication, rs, m.owners, m.ids, i);
    SameOwner(m, i, l);
    hide Inv, After, Run, Carries;
  }

  /** The composed map merges two extracted entities exactly when the alias stage files the survivors of their
      deduplication under one key. */
  lemma ComposedExact(t: Text, rs: seq<Record>, i: nat, j: nat, p: nat, q: nat)
    requires i < |rs| && j < |rs| && DistinctIds(rs) && p < |Deduplicated(t, rs)| && q < |Deduplicated(t, rs)|
    requires Sends(Whole(Deduplication, t, rs).ids, rs[i], Deduplicated(t, rs)[p])
    requires Sends(Whole(Deduplication, t, rs).ids, rs[j], Deduplicated(t, rs)[q])
    ensures
      var ids, mid := Composed(t, rs), Deduplicated(t, rs);
      && rs[i].tempId in ids && rs[j].tempId in ids
      && (ids[rs[i].tempId] == ids[rs[j].tempId] <==>
        KeyWhenFiled(AliasResolution, t, mid, p) == KeyWhenFiled(AliasResolution, t, mid, q))
  {
    hide KeyWhenFiled, Inv, IsPick;
    StageDistinct(Deduplication, t, rs);
    StageExact(AliasResolution, t, Deduplicated(t, rs), p, q);
    hide Whole, After, Compose, Sends;
    var first, second := Whole(Deduplication, t, rs).ids, Whole(AliasResolution, t, Deduplicated(t, rs)).ids;
    ComposeAt(first, second, rs[i], Deduplicated(t, rs)[p]);
    ComposeAt(first, second, rs[j], Deduplicated(t, rs)[q]);
  }

  lemma DedupNames(t: Text, rs: seq<Record>)
    requires DistinctIds(rs)
    ensures Names(t, Deduplicated(t, rs)) <= Names(t, rs) && DistinctIds(Deduplicated(t, rs))
  {
    StageDistinct(Deduplication, t, rs);
    var mid := Deduplicated(t, rs);
    forall r | r in mid ensures r.name in Names(t, rs) {
      var p :| 0 <= p < |mid| && mid[p] == r;
      var l := DedupName(t, rs, p);
      assert rs[l] in rs;
    }
    hide After;
  }

  /** The table alone decides about an extracted entity: every spelling of its normalised name and type is long, or
      nothing abbreviates to it. */
  ghost predicate PlainEntity(t: Text, rs: seq<Record>, i: nat)
    requires i < |rs|
  {
    || (forall l :: 0 <= l < |rs| && KeyOf(t, rs[l]) == KeyOf(t, rs[i]) ==> !t.short(rs[l].name))
    || Unabbreviated(t, rs, t.normalize(rs[i].name))
  }

  lemma PlainSurvivor(t: Text, rs: seq<Record>, i: nat, p: nat, l: nat)
    requires i < |rs| && DistinctIds(rs) && PlainEntity(t, rs, i) && p < |Deduplicated(t, rs)| && l < |rs|
    requires KeyOf(t, rs[l]) == KeyOf(t, rs[i])
    requires Deduplicated(t, rs)[p].name == rs[l].name && Deduplicated(t, rs)[p].kind == rs[l].kind
    ensures Plain(t, Deduplicated(t, rs), p)
  {
    DedupNames(t, rs);
    hide After, Names;
  }

  /** Two extracted entities about which the table alone decides are merged exactly when their types agree and the
      table takes their normalised names to the same one. */
  lemma TableMerges(t: Text, rs: seq<Record>, i: nat, j: nat)
    requires i < |rs| && j < |rs| && DistinctIds(rs) && PlainEntity(t, rs, i) && PlainEntity(t, rs, j)
    ensures
      var ids := Composed(t, rs);
      && rs[i].tempId in ids && rs[j].tempId in ids
      && (ids[rs[i].tempId] == ids[rs[j].tempId] <==>
        rs[i].kind == rs[j].kind
        && TableSurface(t, t.normalize(rs[i].name)) == TableSurface(t, t.normalize(rs[j].name)))
  {
    hide KeyWhenFiled, Composed, Deduplicated, Whole, Plain, PlainEntity, Names, Sends, TableSurface;
    var p, l := DedupSurvivor(t, rs, i);
    var q, k := DedupSurvivor(t, rs, j);
    PlainSurvivor(t, rs, i, p, l);
    PlainSurvivor(t, rs, j, q, k);
    PlainKey(t, Deduplicated(t, rs), p);
    PlainKey(t, Deduplicated(t, rs), q);
    ComposedExact(t, rs, i, j, p, q);
  }

  /** Entity i abbreviates entity j: i is short and j has its acronym, in every spelling, and any other name with that
      acronym is j's. */
  ghost predicate Abbreviates(t: Text, rs: seq<Record>, i: nat, j: nat)
    requires i < |rs| && j < |rs|
  {
    var surface := t.normalize(rs[i].name);
    && (forall l :: 0 <= l < |rs| && KeyOf(t, rs[l]) == KeyOf(t, rs[i]) ==> t.short(rs[l].name))
    && (forall l :: 0 <= l < |rs| && KeyOf(t, rs[l]) == KeyOf(t, rs[j]) ==> t.acronym(rs[l].name) == surface)
    && forall name :: name in Names(t, rs) && t.acronym(name) == surface ==>
      t.normalize(name) == t.normalize(rs[j].name)
  }

  /** An extracted entity is merged with the one it abbreviates, when that one is left alone by the table and by other
      abbreviations and their types agree. */
  lemma AcronymMerges(t: Text, rs: seq<Record>, i: nat, j: nat)
    requires i < |rs| && j < |rs| && DistinctIds(rs) && rs[i].kind == rs[j].kind && Abbreviates(t, rs, i, j)
    requires PlainEntity(t, rs, j) && t.normalize(rs[j].name) !in t.known && KeyOf(t, rs[i]) != KeyOf(t, rs[j])
    ensures
      var ids := Composed(t, rs);
      rs[i].tempId in ids && rs[j].tempId in ids && ids[rs[i].tempId] == ids[rs[j].tempId]
  {
    hide KeyWhenFiled, Composed, Deduplicated, Whole, Plain, PlainEntity, Names, Sends, Abbreviates, DistinctIds;
    var p, l := DedupSurvivor(t, rs, i);
    var q, k := DedupSurvivor(t, rs, j);
    PlainSurvivor(t, rs, j, q, k);
    PlainKey(t, Deduplicated(t, rs), q);
    DedupNames(t, rs);
    SurvivorAcronym(t, rs, i, j, Deduplicated(t, rs), p, l, q, k);
    ComposedExact(t, rs, i, j, p, q);
  }

  lemma SurvivorAcronym(t: Text, rs: seq<Record>, i: nat, j: nat, mid: seq<Record>, p: nat, l: nat, q: nat, k: nat)
    requires i < |rs| && j < |rs| && l < |rs| && k < |rs| && p < |mid| && q < |mid| && DistinctIds(mid)
    requires KeyOf(t, rs[i]) != KeyOf(t, rs[j]) && Abbreviates(t, rs, i, j)
    requires KeyOf(t, rs[l]) == KeyOf(t, rs[i]) && mid[p].name == rs[l].name && mid[p].kind == rs[l].kind
    requires KeyOf(t, rs[k]) == KeyOf(t, rs[j]) && mid[q].name == rs[k].name && mid[q].kind == rs[k].kind
    requires Plain(t, mid, q) && t.normalize(rs[j].name) !in t.known && Names(t, mid) <= Names(t, rs)
    ensures KeyWhenFiled(AliasResolution, t, mid, p) == Key(t.normalize(rs[j].name), rs[i].kind)
  {
    hide KeyWhenFiled, Plain, Names;
    assert p != q;
    AcronymKey(t, mid, p, q);
  }

  lemma ComposeSends(first: map<TempId, TempId>, second: map<TempId, TempId>, e: Record, mid: Record, f: Record)
    requires Sends(first, e, mid) && Sends(second, mid, f)
    ensures Sends(Compose(first, second), e, f)
  {
  }

  lemma CarriesThrough(e: Record, mid: Record, f: Record)
    requires Carries(e, mid) && Carries(mid, f)
    ensures Carries(e, f)
  {
  }

  /** The composed map sends every extracted entity to a survivor that carries all it had. */
  lemma EveryEntitySurvives(t: Text, rs: seq<Record>, j: nat) returns (p: nat)
    requires j < |rs| && DistinctIds(rs)
    ensures p < |Resolved(t, rs)| && Sends(Composed(t, rs), rs[j], Resolved(t, rs)[p])
    ensures Carries(rs[j], Resolved(t, rs)[p])
  {
    hide Inv, IsPick, Carries, Sends;
    StageDistinct(Deduplication, t, rs);
    var q := StageCarries(Deduplication, t, rs, j);
    p := StageCarries(AliasResolution, t, Deduplicated(t, rs), q);
    hide After, Whole, Compose;
    CarriesThrough(rs[j], Deduplicated(t, rs)[q], Resolved(t, rs)[p]);
    ComposeSends(Whole(Deduplication, t, rs).ids, Whole(AliasResolution, t, Deduplicated(t, rs)).ids, rs[j],
      Deduplicated(t, rs)[q], Resolved(t, rs)[p]);
  }

  /** A survivor's confidence is that of some entity of its class: with Carries, the maximum. */
  lemma ConfidenceAttained(t: Text, rs: seq<Record>, p: nat) returns (j: nat)
    requires p < |Resolved(t, rs)| && DistinctIds(rs)
    ensures j < |rs| && Sends(Composed(t, rs), rs[j], Resolved(t, rs)[p])
    ensures rs[j].confidence == Resolved(t, rs)[p].confidence
  {
    StageDistinct(Deduplication, t, rs);
    var q := StageConfidence(AliasResolution, t, Deduplicated(t, rs), p);
    j := StageConfidence(Deduplication, t, rs, q);
    hide After, Whole, Compose, Sends;
    ComposeSends(Whole(Deduplication, t, rs).ids, Whole(AliasResolution, t, Deduplicated(t, rs)).ids, rs[j],
      Deduplicated(t, rs)[q], Resolved(t, rs)[p]);
  }

  /** No alias is invented: each was an alias or a name of an entity of the class. */
  lemma AliasesComeFromClass(t: Text, rs: seq<Record>, p: nat, a: Name) returns (j: nat)
    requires p < |Resolved(t, rs)| && DistinctIds(rs) && a in Resolved(t, rs)[p].aliases
    ensures j < |rs| && Sends(Composed(t, rs), rs[j], Resolved(t, rs)[p]) && (a in rs[j].aliases || a == rs[j].name)
  {
    StageDistinct(Deduplication, t, rs);
    var q := StageAliases(AliasResolution, t, Deduplicated(t, rs), p, a);
    if a in Deduplicated(t, rs)[q].aliases {
      j := StageAliases(Deduplication, t, rs, q, a);
    } else {
      j := DedupName(t, rs, q);
    }
    hide After, Whole, Compose, Sends;
    ComposeSends(Whole(Deduplication, t, rs).ids, Whole(AliasResolution, t, Deduplicated(t, rs)).ids, rs[j],
      Deduplicated(t, rs)[q], Resolved(t, rs)[p]);
  }

  /** The final survivors differ pairwise in normalised name or type, and in temporary id. */
  lemma SurvivorsDistinct(t: Text, rs: seq<Record>)
    requires DistinctIds(rs)
    ensures DistinctKeys(t, Resolved(t, rs)) && DistinctIds(Resolved(t, rs))
  {
    StageDistinct(Deduplication, t, rs);
    StageDistinct(AliasResolution, t, Deduplicated(t, rs));
  }

  // ---------------------------------------------------------------- rewriting the relations

  type RelationId(==, !new)
  type RelationType(==, !new)

  datatype Relation = Relation(id: RelationId, source: TempId, target: TempId, kind: RelationType, confidence: real)

  /** Final entities are numbered from one, and so are final relations. */
  datatype RelationResult = RelationResult(number: nat, source: nat, target: nat, kind: RelationType, confidence: real)

  datatype Triple = Triple(source: nat, target: nat, kind: RelationType)

  function Through(sourceToResolved: map<TempId, TempId>, id: TempId): TempId {
    if id in sourceToResolved then sourceToResolved[id] else id
  }

  /** The two maps the relation loop works with. */
  datatype Rewriting = Rewriting(sourceToResolved: map<TempId, TempId>, tempToFinal: map<TempId, nat>)
  {
    /** The final triple of a relation, unless an end is unknown or both ends are the same entity. */
    function Resolve(r: Relation): Option<Triple> {
      var a, b := Through(sourceToResolved, r.source), Through(sourceToResolved, r.target);
      if a in tempToFinal && b in tempToFinal && tempToFinal[a] != tempToFinal[b]
      then Some(Triple(tempToFinal[a], tempToFinal[b], r.kind)) else None
    }
  }

  function TripleOf(r: RelationResult): Triple {
    Triple(r.source, r.target, r.kind)
  }

  /** Relation i is the first to resolve to its triple. */
  predicate First(w: Rewriting, relations: seq<Relation>, i: nat)
    requires i < |relations|
  {
    w.Resolve(relations[i]).Some? && forall j :: 0 <= j < i ==> w.Resolve(relations[j]) != w.Resolve(relations[i])
  }

  /** The outputs, relation by relation: the first of each triple is kept, the unresolved are logged. */
  function Kept(w: Rewriting, relations: seq<Relation>): seq<RelationResult> {
    if relations == [] then []
    else
      var i := |relations| - 1;
      var earlier := Kept(w, relations[..i]);
      if First(w, relations, i)
      then
        var triple := w.Resolve(relations[i]).value;
        earlier + [RelationResult(|earlier| + 1, triple.source, triple.target, triple.kind, relations[i].confidence)]
      else earlier
  }

  function Unresolved(w: Rewriting, relations: seq<Relation>): seq<RelationId> {
    if relations == [] then []
    else
      var i := |relations| - 1;
      var earlier := Unresolved(w, relations[..i]);
      if w.Resolve(relations[i]).None? then earlier + [relations[i].id] else earlier
  }

  ghost predicate Stored(results: seq<RelationResult>, triple: Triple, confidence: real) {
    exists n :: 0 <= n < |results| && TripleOf(results[n]) == triple && results[n].confidence == confidence
  }

  /** A triple is stored exactly when a relation resolves to it, with the confidence of the first that does. */
  lemma {:induction false} KeptExact(w: Rewriting, relations: seq<Relation>, triple: Triple, confidence: real)
    ensures Stored(Kept(w, relations), triple, confidence) <==>
      exists i: nat ::
        && i < |relations| && w.Resolve(relations[i]) == Some(triple) && relations[i].confidence == confidence
        && forall j :: 0 <= j < i ==> w.Resolve(relations[j]) != Some(triple)
  {
    if relations != [] {
      var i := |relations| - 1;
      var init := relations[..i];
      KeptExact(w, init, triple, confidence);
      var earlier, all := Kept(w, init), Kept(w, relations);
      assert forall j: nat :: j < i ==> (First(w, relations, j) <==> First(w, init, j));
      if First(w, relations, i) {
        assert all[|earlier|] == all[|all| - 1];
        assert Stored(all, triple, confidence) <==>
          Stored(earlier, triple, confidence)
            || (TripleOf(all[|earlier|]) == triple && all[|earlier|].confidence == confidence) by {
          if Stored(earlier, triple, confidence) {
            var n :| 0 <= n < |earlier| && TripleOf(earlier[n]) == triple && earlier[n].confidence == confidence;
            assert all[n] == earlier[n];
          }
        }
      }
    }
  }

  /** The log holds the unresolved relations, each once, in order. */
  lemma {:induction false} UnresolvedInOrder(w: Rewriting, a: seq<Relation>, b: seq<Relation>)
    ensures Unresolved(w, a + b) == Unresolved(w, a) + Unresolved(w, b)
    ensures forall r :: Unresolved(w, [r]) == if w.Resolve(r).None? then [r.id] else []
  {
    hide *;
    forall r ensures Unresolved(w, [r]) == if w.Resolve(r).None? then [r.id] else [] {
      UnresolvedOne(w, r);
    }
    if b == [] {
      assert a + b == a;
      UnresolvedNone(w, b);
    } else {
      var init, last := b[..|b| - 1], b[|b| - 1];
      assert (a + b)[..|a + b| - 1] == a + init && (a + b)[|a + b| - 1] == last;
      UnresolvedInOrder(w, a, init);
      UnresolvedStep(w, b);
      UnresolvedStep(w, a + b);
    }
  }

  lemma UnresolvedNone(w: Rewriting, relations: seq<Relation>)
    requires relations == []
    ensures Unresolved(w, relations) == []
  {
  }

  lemma UnresolvedOne(w: Rewriting, r: Relation)
    ensures Unresolved(w, [r]) == if w.Resolve(r).None? then [r.id] else []
  {
    hide Rewriting.Resolve;
    assert [r][..0] == [];
  }

  lemma UnresolvedStep(w: Rewriting, relations: seq<Relation>)
    requires relations != []
    ensures
      var last := relations[|relations| - 1];
      Unresolved(w, relations) ==
      Unresolved(w, relations[..|relations| - 1]) + if w.Resolve(last).None? then [last.id] else []
  {
  }

  /** Final relations are numbered in order and no triple occurs twice. */
  lemma {:induction false} KeptUnique(w: Rewriting, relations: seq<Relation>)
    ensures forall n :: 0 <= n < |Kept(w, relations)| ==> Kept(w, relations)[n].number == n + 1
    ensures forall n, l :: 0 <= n < l < |Kept(w, relations)| ==>
      TripleOf(Kept(w, relations)[n]) != TripleOf(Kept(w, relations)[l])
  {
    if relations != [] {
      var i := |relations| - 1;
      var init := relations[..i];
      KeptUnique(w, init);
      var earlier := Kept(w, init);
      if First(w, relations, i) {
        forall n | 0 <= n < |earlier| ensures Some(TripleOf(earlier[n])) != w.Resolve(relations[i]) {
          KeptExact(w, init, TripleOf(earlier[n]), earlier[n].confidence);
          assert Stored(earlier, TripleOf(earlier[n]), earlier[n].confidence);
          var j: nat :| j < i && First(w, init, j) && w.Resolve(init[j]) == Some(TripleOf(earlier[n]));
          assert relations[j] == init[j];
        }
      }
    }
  }

  ghost predicate NoRepeat(w: Rewriting, relations: seq<Relation>) {
    forall i, j :: 0 <= i < j < |relations| && w.Resolve(relations[i]).Some? ==>
      w.Resolve(relations[i]) != w.Resolve(relations[j])
  }

  /** Each relation is kept or logged, exactly when no two of them resolve to the same triple: a repeated
      relation is dropped without a log. */
  lemma {:induction false} AccountedFor(w: Rewriting, relations: seq<Relation>)
    ensures |Kept(w, relations)| + |Unresolved(w, relations)| <= |relations|
    ensures |Kept(w, relations)| + |Unresolved(w, relations)| == |relations| <==> NoRepeat(w, relations)
  {
    if relations != [] {
      var i := |relations| - 1;
      AccountedFor(w, relations[..i]);
      assert NoRepeat(w, relations) <==>
        NoRepeat(w, relations[..i]) && (w.Resolve(relations[i]).None? || First(w, relations, i));
    }
  }

  /** The relation loop of the pipeline. */
  method RewriteRelations(w: Rewriting, relations: seq<Relation>)
    returns (finalRelations: seq<RelationResult>, logs: seq<RelationId>)
    ensures finalRelations == Kept(w, relations) && logs == Unresolved(w, relations)
  {
    finalRelations, logs := [], [];
    var seen: set<Triple> := {};
    for i := 0 to |relations|
      invariant finalRelations == Kept(w, relations[..i]) && logs == Unresolved(w, relations[..i])
      invariant forall triple :: triple in seen <==> exists j :: 0 <= j < i && w.Resolve(relations[j]) == Some(triple)
    {
      assert relations[..i + 1][..i] == relations[..i];
      var relation := relations[i];
      assert First(w, relations[..i + 1], i) <==> w.Resolve(relation).Some? && w.Resolve(relation).value !in seen;
      var sourceTemp, targetTemp :=
        Through(w.sourceToResolved, relation.source), Through(w.sourceToResolved, relation.target);
      if sourceTemp !in w.tempToFinal || targetTemp !in w.tempToFinal
        || w.tempToFinal[sourceTemp] == w.tempToFinal[targetTemp] {
        logs := logs + [relation.id];
        continue;
      }
      var key := Triple(w.tempToFinal[sourceTemp], w.tempToFinal[targetTemp], relation.kind);
      if key in seen { continue; }
      seen := seen + {key};
      finalRelations :=
        finalRelations + [RelationResult(|finalRelations| + 1, key.source, key.target, key.kind, relation.confidence)];
    }
    assert relations[..|relations|] == relations;
  }

  // ---------------------------------------------------------------- the whole pipeline

  /** Survivors numbered from one by their temporary ids. */
  function Numbered(rs: seq<Record>): map<TempId, nat> {
    if rs == [] then map[] else Numbered(rs[..|rs| - 1])[rs[|rs| - 1].tempId := |rs|]
  }

  lemma {:induction false} NumberedExact(rs: seq<Record>, id: TempId)
    requires DistinctIds(rs)
    ensures NumberOk(rs, Numbered(rs), id)
  {
    if rs != [] { NumberedExact(rs[..|rs| - 1], id); }
  }

  function RewritingOf(t: Text, rs: seq<Record>): Rewriting {
    Rewriting(Composed(t, rs), Numbered(Resolved(t, rs)))
  }

  ghost predicate Extracted(rs: seq<Record>, id: TempId) {
    exists j :: 0 <= j < |rs| && rs[j].tempId == id
  }

  /** The final number of an end: an extracted entity has its survivor's, any other id has none. */
  ghost predicate EndOk(rs: seq<Record>, w: Rewriting, finals: seq<Record>, id: TempId) {
    var final := Through(w.sourceToResolved, id);
    && (Extracted(rs, id) <==> final in w.tempToFinal)
    && (final in w.tempToFinal ==>
      && id in w.sourceToResolved && 1 <= w.tempToFinal[final] <= |finals|
      && finals[w.tempToFinal[final] - 1].tempId == w.sourceToResolved[id])
  }

  /** What the numbering says about one temporary id. */
  ghost predicate NumberOk(finals: seq<Record>, tempToFinal: map<TempId, nat>, id: TempId) {
    && (forall p :: 0 <= p < |finals| && finals[p].tempId == id ==> id in tempToFinal && tempToFinal[id] == p + 1)
    && (id in tempToFinal ==> exists p :: 0 <= p < |finals| && finals[p].tempId == id)
  }

  lemma EndFacts(rs: seq<Record>, w: Rewriting, finals: seq<Record>, id: TempId)
    requires NumberOk(finals, w.tempToFinal, Through(w.sourceToResolved, id))
    requires id in w.sourceToResolved ==> Extracted(rs, id)
    requires forall p :: 0 <= p < |finals| && finals[p].tempId == id ==> Extracted(rs, id)
    requires Extracted(rs, id) ==> Survives(w, finals, id)
    ensures EndOk(rs, w, finals, id)
  {
    hide Extracted;
  }

  ghost predicate Survives(w: Rewriting, finals: seq<Record>, id: TempId) {
    id in w.sourceToResolved && exists p :: 0 <= p < |finals| && finals[p].tempId == w.sourceToResolved[id]
  }

  lemma EndNumber(t: Text, rs: seq<Record>, id: TempId)
    requires DistinctIds(rs)
    ensures EndOk(rs, RewritingOf(t, rs), Resolved(t, rs), id)
  {
    var w, finals := RewritingOf(t, rs), Resolved(t, rs);
    hide EndOk, Resolved, Composed, Numbered;
    SurvivorsDistinct(t, rs);
    NumberedExact(finals, Through(w.sourceToResolved, id));
    ComposedKnows(t, rs, id);
    ResolvedExtracted(t, rs, id);
    if Extracted(rs, id) {
      var j :| 0 <= j < |rs| && rs[j].tempId == id;
      var p := EveryEntitySurvives(t, rs, j);
      assert Survives(w, finals, id);
    }
    hide Survives, Extracted;
    EndFacts(rs, w, finals, id);
  }

  lemma ComposedKnows(t: Text, rs: seq<Record>, id: TempId)
    requires DistinctIds(rs)
    ensures id in Composed(t, rs) ==> Extracted(rs, id)
  {
    RunIds(Deduplication, t, rs, |rs|);
    hide Inv, Run, Deduplicated;
  }

  lemma ResolvedExtracted(t: Text, rs: seq<Record>, id: TempId)
    requires DistinctIds(rs)
    ensures forall p :: 0 <= p < |Resolved(t, rs)| && Resolved(t, rs)[p].tempId == id ==> Extracted(rs, id)
  {
    forall p | 0 <= p < |Resolved(t, rs)| && Resolved(t, rs)[p].tempId == id ensures Extracted(rs, id) {
      var q := SurvivorIsInput(AliasResolution, t, Deduplicated(t, rs), p);
      var j := SurvivorIsInput(Deduplication, t, rs, q);
    }
  }

  lemma SurvivorIsInput(stage: Stage, t: Text, rs: seq<Record>, p: nat) returns (j: nat)
    requires p < |After(stage, t, rs)|
    ensures j < |rs| && rs[j].tempId == After(stage, t, rs)[p].tempId
  {
    j := SurvivorAt(t, rs, Whole(stage, t, rs), p);
    hide Inv, After, Whole;
  }

  /** The triple joins two different final entities, those the ends of the relation were merged into. */
  ghost predicate EndsIn(w: Rewriting, finals: seq<Record>, r: Relation, triple: Triple) {
    && triple.source != triple.target && triple.kind == r.kind
    && 1 <= triple.source <= |finals| && 1 <= triple.target <= |finals|
    && r.source in w.sourceToResolved && finals[triple.source - 1].tempId == w.sourceToResolved[r.source]
    && r.target in w.sourceToResolved && finals[triple.target - 1].tempId == w.sourceToResolved[r.target]
  }

  lemma ResolveFacts(rs: seq<Record>, w: Rewriting, finals: seq<Record>, r: Relation)
    requires EndOk(rs, w, finals, r.source) && EndOk(rs, w, finals, r.target)
    ensures w.Resolve(r).None? <==>
      || !Extracted(rs, r.source) || !Extracted(rs, r.target)
      || Through(w.sourceToResolved, r.source) == Through(w.sourceToResolved, r.target)
    ensures w.Resolve(r).Some? ==> EndsIn(w, finals, r, w.Resolve(r).value)
  {
    hide Extracted;
  }

  /** A relation is dropped as unresolved exactly when an end was never extracted or both ends were merged. */
  lemma UnresolvedExact(t: Text, rs: seq<Record>, r: Relation)
    requires DistinctIds(rs)
    ensures RewritingOf(t, rs).Resolve(r).None? <==>
      || !Extracted(rs, r.source) || !Extracted(rs, r.target)
      || Through(Composed(t, rs), r.source) == Through(Composed(t, rs), r.target)
  {
    EndNumber(t, rs, r.source);
    EndNumber(t, rs, r.target);
    hide EndOk, Resolved, Composed, Numbered, Extracted;
    ResolveFacts(rs, RewritingOf(t, rs), Resolved(t, rs), r);
  }

  /** The ends of a final relation are existing, distinct final entities: the survivors of the relation's ends. */
  lemma EndsExist(t: Text, rs: seq<Record>, r: Relation)
    requires DistinctIds(rs) && RewritingOf(t, rs).Resolve(r).Some?
    ensures EndsIn(RewritingOf(t, rs), Resolved(t, rs), r, RewritingOf(t, rs).Resolve(r).value)
  {
    EndNumber(t, rs, r.source);
    EndNumber(t, rs, r.target);
    hide EndOk, Resolved, Composed, Numbered, Extracted;
    ResolveFacts(rs, RewritingOf(t, rs), Resolved(t, rs), r);
  }

  /** Entities of different types are never merged into one. */
  lemma TypesStayApart(t: Text, rs: seq<Record>, i: nat, j: nat)
    requires DistinctIds(rs) && i < |rs| && j < |rs| && rs[i].kind != rs[j].kind
    ensures
      var ids := Composed(t, rs);
      rs[i].tempId in ids && rs[j].tempId in ids && ids[rs[i].tempId] != ids[rs[j].tempId]
  {
    hide Resolved, Composed;
    var p := EveryEntitySurvives(t, rs, i);
    var q := EveryEntitySurvives(t, rs, j);
    SurvivorsDistinct(t, rs);
  }

  /** Two entities of different types, and the same relation between them twice, under any identifiers and
      confidences: the first is stored and the second leaves no trace. */
  lemma RepeatIsSilent(t: Text, a: Record, b: Record, r: Relation, again: Relation)
    requires a.tempId != b.tempId && a.kind != b.kind && r.source == a.tempId && r.target == b.tempId
    requires again.source == r.source && again.target == r.target && again.kind == r.kind
    ensures
      var w := RewritingOf(t, [a, b]);
      && w.Resolve(r).Some? && Unresolved(w, [r, again]) == []
      && var triple := w.Resolve(r).value;
      Kept(w, [r, again]) == [RelationResult(1, triple.source, triple.target, triple.kind, r.confidence)]
  {
    ApartResolves(t, [a, b], 0, 1, r);
    hide RewritingOf;
    SecondIsDropped(RewritingOf(t, [a, b]), r, again);
  }

  lemma ApartResolves(t: Text, rs: seq<Record>, i: nat, j: nat, r: Relation)
    requires DistinctIds(rs) && i < |rs| && j < |rs| && rs[i].kind != rs[j].kind
    requires r.source == rs[i].tempId && r.target == rs[j].tempId
    ensures RewritingOf(t, rs).Resolve(r).Some?
  {
    hide RewritingOf, Composed;
    TypesStayApart(t, rs, i, j);
    UnresolvedExact(t, rs, r);
  }

  lemma SecondIsDropped(w: Rewriting, r: Relation, again: Relation)
    requires w.Resolve(r).Some? && again.source == r.source && again.target == r.target && again.kind == r.kind
    ensures
      var triple := w.Resolve(r).value;
      && Kept(w, [r, again]) == [RelationResult(1, triple.source, triple.target, triple.kind, r.confidence)]
      && Unresolved(w, [r, again]) == []
  {
    var triple := w.Resolve(r).value;
    assert [r, again][..1] == [r] && [r][..0] == [];
    assert First(w, [r], 0) && [r, again][0] == r && [r, again][1] == again && !First(w, [r, again], 1);
    assert Kept(w, [r]) == [RelationResult(1, triple.source, triple.target, triple.kind, r.confidence)];
    assert Unresolved(w, [r]) == [];
  }

  lemma KeptDistinctObjects(t: Text, rs: seq<Record>, entities: seq<Entity>, m: Merge, kept: seq<Entity>)
    requires Inv(t, rs, m) && DistinctObjects(entities) && IsPick(entities, m.survivors, kept)
    ensures DistinctObjects(kept) && forall e :: e in kept ==> e in entities
  {
  }

  lemma KeptValues(stage: Stage, t: Text, rs: seq<Record>, entities: seq<Entity>, kept: seq<Entity>)
    requires Values(entities) == Whole(stage, t, rs).records && IsPick(entities, Whole(stage, t, rs).survivors, kept)
    ensures Values(kept) == After(stage, t, rs)
  {
    hide Inv, Whole;
  }

  /** Extraction results in, resolved entities and rewritten relations out. */
  method RunPipeline(t: Text, entities: seq<Entity>, relations: seq<Relation>)
    returns (resolved: seq<Entity>, finalRelations: seq<RelationResult>, logs: seq<RelationId>)
    requires DistinctObjects(entities)
    modifies entities
    ensures Values(resolved) == Resolved(t, old(Values(entities)))
    ensures finalRelations == Kept(RewritingOf(t, old(Values(entities))), relations)
    ensures logs == Unresolved(RewritingOf(t, old(Values(entities))), relations)
  {
    hide Inv, Run, After, Compose, Kept, Unresolved;
    ghost var rs := Values(entities);
    var deduplicated, dedupMap := Deduplicate(t, entities);
    KeptDistinctObjects(t, rs, entities, Whole(Deduplication, t, rs), deduplicated);
    KeptValues(Deduplication, t, rs, entities, deduplicated);
    var aliasMap;
    resolved, aliasMap := ResolveAliases(t, deduplicated);
    KeptValues(AliasResolution, t, Deduplicated(t, rs), deduplicated, resolved);
    var tempToFinal := Number(resolved);
    finalRelations, logs := RewriteRelations(Rewriting(Compose(dedupMap, aliasMap), tempToFinal), relations);
  }

  method Number(entities: seq<Entity>) returns (tempToFinal: map<TempId, nat>)
    ensures tempToFinal == Numbered(Values(entities))
  {
    tempToFinal := map[];
    for i := 0 to |entities|
      invariant tempToFinal == Numbered(Values(entities)[..i])
    {
      assert Values(entities)[..i + 1][..i] == Values(entities)[..i];
      tempToFinal := tempToFinal[entities[i].tempId := i + 1];
    }
    assert Values(entities)[..|entities|] == Values(entities);
  }
}
