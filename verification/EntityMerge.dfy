/** Merging extracted entities: deduplication, then alias resolution, as one fold over the entity list. */
module EntityMerge {
  import opened Options

  type Name(==, !new)
  type Surface(==, !new)
  type TempId(==, !new)
  type EntityType(==, !new)

  /** The text rules: normalisation, acronyms, the length test and the table of known aliases. */
  datatype Text = Text(normalize: Name -> Surface, acronym: Name -> Surface, short: Name -> bool,
    known: map<Surface, Name>)

  datatype Record = Record(tempId: TempId, name: Name, kind: EntityType, confidence: real, aliases: set<Name>)

  datatype Key = Key(surface: Surface, kind: EntityType)

  function KeyOf(t: Text, r: Record): Key {
    Key(t.normalize(r.name), r.kind)
  }

  // ---------------------------------------------------------------- the fold both stages share

  /** After |owners| steps: current records, the survivor of each key, the survivors in order, and for
      each entity seen the key it was filed under and the index of its survivor; ids is the id map. */
  datatype Merge = Merge(records: seq<Record>, table: map<Key, nat>, survivors: seq<nat>, keys: seq<Key>,
    owners: seq<nat>, ids: map<TempId, TempId>)

  datatype Stage = Deduplication | AliasResolution

  /** A deduplication fills its id map as it goes; an alias resolution starts from the identity. */
  function Start(stage: Stage, rs: seq<Record>): Merge {
    Merge(rs, map[], [], [], [], if stage.Deduplication? then map[] else Identity(TempIds(rs)))
  }

  function TempIds(rs: seq<Record>): set<TempId> {
    set r | r in rs :: r.tempId
  }

  function Identity(ids: set<TempId>): map<TempId, TempId> {
    map id | id in ids :: id
  }

  function Renamed(r: Record, canonical: Name): Record {
    if canonical == r.name then r else r.(name := canonical, aliases := r.aliases + {r.name})
  }

  function Max(x: real, y: real): real {
    if y > x then y else x
  }

  function Joined(r: Record, e: Record): Record {
    r.(aliases := r.aliases + e.aliases + {e.name}, confidence := Max(r.confidence, e.confidence))
  }

  predicate Fits(m: Merge) {
    |m.owners| < |m.records| && forall k :: k in m.table ==> m.table[k] < |m.records|
  }

  /** The next entity joins the survivor of its key, or becomes one under its canonical name. */
  function Step(stage: Stage, t: Text, m: Merge, canonical: Name): Merge
    requires Fits(m)
  {
    var i := |m.owners|;
    var e := m.records[i];
    var k := Key(t.normalize(canonical), e.kind);
    if k in m.table then
      var s := m.table[k];
      Merge(m.records[s := Joined(m.records[s], e)], m.table, m.survivors, m.keys + [k], m.owners + [s],
        m.ids[e.tempId := m.records[s].tempId])
    else
      Merge(m.records[i := Renamed(e, canonical)], m.table[k := i], m.survivors + [i], m.keys + [k], m.owners + [i],
            if stage.Deduplication? then m.ids[e.tempId := e.tempId] else m.ids)
  }

  // ---------------------------------------------------------------- what every step keeps

  ghost predicate Shape(rs: seq<Record>, m: Merge) {
    && |m.records| == |rs| && |m.keys| == |m.owners| <= |rs|
    && (forall j :: 0 <= j < |rs| ==> m.records[j].tempId == rs[j].tempId && m.records[j].kind == rs[j].kind)
    && (forall j :: |m.owners| <= j < |rs| ==> m.records[j] == rs[j])
    && forall j :: 0 <= j < |m.keys| ==> m.keys[j].kind == rs[j].kind
  }

  /** Entities filed under the same key share the first of them as their survivor. */
  ghost predicate Linked(m: Merge) {
    && |m.keys| == |m.owners|
    && (forall j :: 0 <= j < |m.keys| ==> m.keys[j] in m.table && m.owners[j] == m.table[m.keys[j]] <= j)
    && forall k :: k in m.table ==> m.table[k] < |m.keys| && m.keys[m.table[k]] == k
  }

  ghost predicate Listed(m: Merge) {
    && (forall s :: s in m.survivors <==> 0 <= s < |m.owners| && m.owners[s] == s)
    && forall i, j :: 0 <= i < j < |m.survivors| ==> m.survivors[i] < m.survivors[j]
  }

  /** Entity j of the class of survivor s, now called name, contributes the alias a. */
  ghost predicate Contributes(rs: seq<Record>, owners: seq<nat>, s: nat, name: Name, j: nat, a: Name)
    requires |owners| <= |rs| && s < |rs|
  {
    j < |owners| && owners[j] == s && (a in rs[j].aliases || (a == rs[j].name && (j != s || name != rs[s].name)))
  }

  /** r is the record of survivor s: named under its key, at the greatest confidence of its class, with
      exactly the aliases and names its class contributes. */
  ghost predicate ClassOk(t: Text, rs: seq<Record>, owners: seq<nat>, s: nat, r: Record, k: Key)
    requires |owners| <= |rs| && s < |rs|
  {
    && t.normalize(r.name) == k.surface
    && (forall j :: 0 <= j < |owners| && owners[j] == s ==> rs[j].confidence <= r.confidence)
    && (exists j :: 0 <= j < |owners| && owners[j] == s && rs[j].confidence == r.confidence)
    && forall a :: a in r.aliases <==> exists j: nat :: Contributes(rs, owners, s, r.name, j, a)
  }

  ghost predicate Classes(t: Text, rs: seq<Record>, m: Merge)
    requires Shape(rs, m)
  {
    forall s: nat :: s < |m.owners| && m.owners[s] == s ==> ClassOk(t, rs, m.owners, s, m.records[s], m.keys[s])
  }

  ghost predicate Inv(t: Text, rs: seq<Record>, m: Merge) {
    Shape(rs, m) && Linked(m) && Listed(m) && Classes(t, rs, m)
  }

  lemma ClassUnaffected(t: Text, rs: seq<Record>, owners: seq<nat>, s: nat, r: Record, k: Key, o: nat)
    requires |owners| < |rs| && s < |rs| && o != s && ClassOk(t, rs, owners, s, r, k)
    ensures ClassOk(t, rs, owners + [o], s, r, k)
  {
    forall j: nat, a ensures Contributes(rs, owners + [o], s, r.name, j, a) <==>
      Contributes(rs, owners, s, r.name, j, a) {
    }
    var j :| 0 <= j < |owners| && owners[j] == s && rs[j].confidence == r.confidence;
    assert (owners + [o])[j] == s;
    hide Contributes;
  }

  lemma ClassAlone(t: Text, rs: seq<Record>, owners: seq<nat>, canonical: Name, k: Key)
    requires |owners| < |rs| && t.normalize(canonical) == k.surface && forall j :: 0 <= j < |owners| ==>
      owners[j] < |owners|
    ensures ClassOk(t, rs, owners + [|owners|], |owners|, Renamed(rs[|owners|], canonical), k)
  {
    var i := |owners|;
    var all, r := owners + [i], Renamed(rs[i], canonical);
    forall j: nat, a ensures Contributes(rs, all, i, r.name, j, a) <==> j == i && a in r.aliases {
    }
    assert all[i] == i && rs[i].confidence == r.confidence;
    hide Contributes;
    forall a ensures a in r.aliases <==> exists j: nat :: Contributes(rs, all, i, r.name, j, a) {
      if a in r.aliases { assert Contributes(rs, all, i, r.name, i, a); }
    }
  }

  lemma ClassJoined(t: Text, rs: seq<Record>, owners: seq<nat>, s: nat, r: Record, k: Key)
    requires |owners| < |rs| && s < |owners| && ClassOk(t, rs, owners, s, r, k)
    ensures ClassOk(t, rs, owners + [s], s, Joined(r, rs[|owners|]), k)
  {
    var i := |owners|;
    var all := owners + [s];
    forall j: nat, a ensures Contributes(rs, all, s, r.name, j, a) <==>
      Contributes(rs, owners, s, r.name, j, a) || (j == i && (a in rs[i].aliases || a == rs[i].name))
    {
    }
    var j :| 0 <= j < |owners| && owners[j] == s && rs[j].confidence == r.confidence;
    assert all[j] == s && all[i] == s;
    hide Contributes;
    forall a ensures a in Joined(r, rs[i]).aliases <==> exists j: nat :: Contributes(rs, all, s, r.name, j, a) {
      if a in rs[i].aliases || a == rs[i].name { assert Contributes(rs, all, s, r.name, i, a); }
      if l: nat :| Contributes(rs, owners, s, r.name, l, a) { assert Contributes(rs, all, s, r.name, l, a); }
    }
  }

  /** The canonical name of each step is arbitrary here: the invariant holds for any naming rule. */
  lemma StepKeeps(stage: Stage, t: Text, rs: seq<Record>, m: Merge, canonical: Name)
    requires Inv(t, rs, m) && Fits(m)
    ensures Inv(t, rs, Step(stage, t, m, canonical))
  {
    StepShape(stage, t, rs, m, canonical);
    StepLinked(stage, t, m, canonical);
    StepListed(stage, t, m, canonical);
    StepClasses(stage, t, rs, m, canonical);
  }

  lemma StepShape(stage: Stage, t: Text, rs: seq<Record>, m: Merge, canonical: Name)
    requires Shape(rs, m) && Linked(m) && Fits(m)
    ensures Shape(rs, Step(stage, t, m, canonical))
  {
  }

  lemma StepLinked(stage: Stage, t: Text, m: Merge, canonical: Name)
    requires Linked(m) && Fits(m)
    ensures Linked(Step(stage, t, m, canonical))
  {
    var i, next := |m.owners|, Step(stage, t, m, canonical);
    var k := next.keys[i];
    assert next.keys == m.keys + [k] && next.owners == m.owners + [next.table[k]];
    assert next.table == if k in m.table then m.table else m.table[k := i];
    hide Step;
  }

  lemma StepListed(stage: Stage, t: Text, m: Merge, canonical: Name)
    requires Linked(m) && Listed(m) && Fits(m)
    ensures Listed(Step(stage, t, m, canonical))
  {
    forall j | 0 <= j < |m.survivors| ensures m.survivors[j] < |m.owners| {
      assert m.survivors[j] in m.survivors;
    }
  }

  lemma StepClasses(stage: Stage, t: Text, rs: seq<Record>, m: Merge, canonical: Name)
    requires Inv(t, rs, m) && Fits(m) && Shape(rs, Step(stage, t, m, canonical))
    ensures Classes(t, rs, Step(stage, t, m, canonical))
  {
    var i, next := |m.owners|, Step(stage, t, m, canonical);
    forall s: nat | s < |next.owners| && next.owners[s] == s
      ensures ClassOk(t, rs, next.owners, s, next.records[s], next.keys[s])
    {
      hide ClassOk;
      if s == i {
        ClassAlone(t, rs, m.owners, canonical, next.keys[i]);
      } else if next.owners[i] == s {
        ClassJoined(t, rs, m.owners, s, m.records[s], m.keys[s]);
      } else {
        ClassUnaffected(t, rs, m.owners, s, m.records[s], m.keys[s], next.owners[i]);
      }
    }
  }

  // ---------------------------------------------------------------- the two stages

  /** The first other entity, from position k on, whose acronym is the surface looked for. */
  function Expansion(t: Text, records: seq<Record>, i: nat, k: nat): (r: Option<Name>)
    requires i < |records| && k <= |records|
    ensures r.None? <==> forall j :: k <= j < |records| ==> !Expands(t, records, i, j)
    ensures r.Some? ==>
      exists j :: k <= j < |records| && FirstExpands(t, records, i, k, j) && records[j].name == r.value
    decreases |records| - k
  {
    if k == |records| then None
    else if Expands(t, records, i, k) then
      assert FirstExpands(t, records, i, k, k);
      Some(records[k].name)
    else
      var r := Expansion(t, records, i, k + 1);
      assert forall j :: k < j < |records| && FirstExpands(t, records, i, k + 1, j) ==>
        FirstExpands(t, records, i, k, j);
      r
  }

  /** j expands i, and nothing from k up to j does. */
  ghost predicate FirstExpands(t: Text, records: seq<Record>, i: nat, k: nat, j: nat)
    requires i < |records| && j < |records|
  {
    Expands(t, records, i, j) && forall l :: k <= l < j ==> !Expands(t, records, i, l)
  }

  predicate Expands(t: Text, records: seq<Record>, i: nat, k: nat)
    requires i < |records| && k < |records|
  {
    records[k].tempId != records[i].tempId && t.acronym(records[k].name) == t.normalize(records[i].name)
  }

  function KnownName(t: Text, name: Name): Name {
    if t.normalize(name) in t.known then t.known[t.normalize(name)] else name
  }

  /** A short name takes the name it abbreviates; otherwise the known-alias table decides. */
  function Canonical(t: Text, records: seq<Record>, i: nat): Name
    requires i < |records|
  {
    var expansion := Expansion(t, records, i, 0);
    if t.short(records[i].name) && expansion.Some? then expansion.value else KnownName(t, records[i].name)
  }

  /** Position j holds the first other entity whose current name has entity i's normalised name as its acronym. */
  ghost predicate FirstWithAcronym(t: Text, rs: seq<Record>, now: seq<Record>, i: nat, j: nat)
    requires |now| == |rs| && i < |rs| && j < |rs|
  {
    && rs[j].tempId != rs[i].tempId && t.acronym(now[j].name) == t.normalize(rs[i].name)
    && forall l :: 0 <= l < j && rs[l].tempId != rs[i].tempId ==> t.acronym(now[l].name) != t.normalize(rs[i].name)
  }

  lemma CanonicalCases(t: Text, rs: seq<Record>, now: seq<Record>, i: nat)
    requires |now| == |rs| && i < |rs| && now[i] == rs[i]
    requires forall j :: 0 <= j < |rs| ==> now[j].tempId == rs[j].tempId
    ensures
      var name, own := Canonical(t, now, i), t.normalize(rs[i].name);
      && (forall j :: 0 <= j < |rs| && t.short(rs[i].name) && FirstWithAcronym(t, rs, now, i, j) ==>
        name == now[j].name)
      && (!t.short(rs[i].name) || (forall j :: 0 <= j < |rs| ==> !FirstWithAcronym(t, rs, now, i, j)) ==>
        name == if own in t.known then t.known[own] else rs[i].name)
  {
    ExpansionFirst(t, rs, now, i);
    hide Expansion, FirstWithAcronym;
  }

  lemma ExpansionFirst(t: Text, rs: seq<Record>, now: seq<Record>, i: nat)
    requires |now| == |rs| && i < |rs| && now[i] == rs[i]
    requires forall j :: 0 <= j < |rs| ==> now[j].tempId == rs[j].tempId
    ensures forall j :: 0 <= j < |rs| && FirstWithAcronym(t, rs, now, i, j) ==>
      Expansion(t, now, i, 0) == Some(now[j].name)
    ensures (forall j :: 0 <= j < |rs| ==> !FirstWithAcronym(t, rs, now, i, j)) ==> Expansion(t, now, i, 0) == None
  {
    forall j | 0 <= j < |rs| ensures FirstWithAcronym(t, rs, now, i, j) <==> FirstExpands(t, now, i, 0, j) {
      assert forall l :: 0 <= l < j ==> now[l].tempId == rs[l].tempId;
      assert forall l :: 0 <= l < j ==> (Expands(t, now, i, l) <==>
        rs[l].tempId != rs[i].tempId && t.acronym(now[l].name) == t.normalize(rs[i].name));
    }
    var r := Expansion(t, now, i, 0);
    hide Expansion, FirstWithAcronym;
    if r.Some? {
      var k :| 0 <= k < |now| && FirstExpands(t, now, i, 0, k) && now[k].name == r.value;
      forall j | 0 <= j < |rs| && FirstWithAcronym(t, rs, now, i, j) ensures j == k {
        assert FirstExpands(t, now, i, 0, j);
      }
    } else {
      forall j | 0 <= j < |rs| ensures !FirstExpands(t, now, i, 0, j) {
      }
    }
  }

  function NameFor(stage: Stage, t: Text, records: seq<Record>, i: nat): Name
    requires i < |records|
  {
    if stage.Deduplication? then records[i].name else Canonical(t, records, i)
  }

  /** A stage over the first n entities. */
  function Run(stage: Stage, t: Text, rs: seq<Record>, n: nat): (m: Merge)
    requires n <= |rs|
    ensures Inv(t, rs, m) && |m.owners| == n
  {
    if n == 0 then Start(stage, rs)
    else
      var m := Run(stage, t, rs, n - 1);
      var canonical := NameFor(stage, t, m.records, n - 1);
      StepKeeps(stage, t, rs, m, canonical);
      Step(stage, t, m, canonical)
  }

  // ---------------------------------------------------------------- entities updated in place

  class Entity {
    const tempId: TempId
    const kind: EntityType
    var name: Name
    var confidence: real
    var aliases: set<Name>

    constructor (tempId: TempId, name: Name, kind: EntityType, confidence: real, aliases: set<Name>)
      ensures Value() == Record(tempId, name, kind, confidence, aliases)
    {
      this.tempId, this.name, this.kind, this.confidence, this.aliases := tempId, name, kind, confidence, aliases;
    }

    function Value(): Record
      reads this
    {
      Record(tempId, name, kind, confidence, aliases)
    }

    method Rename(canonical: Name)
      modifies this
      ensures Value() == Renamed(old(Value()), canonical)
    {
      if canonical != name {
        aliases := aliases + {name};
        name := canonical;
      }
    }

    method Absorb(entity: Entity)
      modifies this
      ensures Value() == Joined(old(Value()), old(entity.Value()))
    {
      aliases := aliases + entity.aliases + {entity.name};
      confidence := Max(confidence, entity.confidence);
    }
  }

  function Values(entities: seq<Entity>): (rs: seq<Record>)
    reads entities
    ensures |rs| == |entities| && forall i :: 0 <= i < |entities| ==> rs[i] == entities[i].Value()
  {
    seq(|entities|, i requires 0 <= i < |entities| reads entities => entities[i].Value())
  }

  ghost predicate DistinctObjects(entities: seq<Entity>) {
    forall i, j :: 0 <= i < j < |entities| ==> entities[i] != entities[j]
  }

  /** The dictionary of a stage and its values in insertion order, over the entity objects. */
  ghost predicate Mirrors(entities: seq<Entity>, m: Merge, unique: map<Key, Entity>, kept: seq<Entity>) {
    && unique.Keys == m.table.Keys
    && (forall k :: k in m.table ==> m.table[k] < |entities| && unique[k] == entities[m.table[k]])
    && IsPick(entities, m.survivors, kept)
  }

  ghost predicate IsPick<T>(all: seq<T>, indices: seq<nat>, picked: seq<T>) {
    && |picked| == |indices|
    && forall p :: 0 <= p < |indices| ==> indices[p] < |all| && picked[p] == all[indices[p]]
  }

  /** The iteration that turns m into next, when its entity is filed under the canonical name. */
  ghost predicate Iterates(stage: Stage, t: Text, m: Merge, next: Merge, i: nat, canonical: Name) {
    && i < |m.records|
    && var e, k := m.records[i], Key(t.normalize(canonical), m.records[i].kind);
    if k in m.table then
      && var s := m.table[k];
      && s < i && next.records == m.records[s := Joined(m.records[s], e)] && next.table == m.table
      && next.survivors == m.survivors
      && next.ids == m.ids[e.tempId := m.records[s].tempId]
    else
      && next.records == m.records[i := Renamed(e, canonical)] && next.table == m.table[k := i]
      && next.survivors == m.survivors + [i]
      && next.ids == if stage.Deduplication? then m.ids[e.tempId := e.tempId] else m.ids
  }

  lemma StepIterates(stage: Stage, t: Text, m: Merge, canonical: Name)
    requires Fits(m) && forall k :: k in m.table ==> m.table[k] < |m.owners|
    ensures Iterates(stage, t, m, Step(stage, t, m, canonical), |m.owners|, canonical)
  {
  }

  lemma InvBounds(t: Text, rs: seq<Record>, m: Merge)
    requires Inv(t, rs, m)
    ensures |m.records| == |rs| && forall k :: k in m.table ==> m.table[k] < |m.owners|
  {
  }

  lemma RunStep(stage: Stage, t: Text, rs: seq<Record>, i: nat)
    requires i < |rs|
    ensures
      var m, next := Run(stage, t, rs, i), Run(stage, t, rs, i + 1);
      |m.records| == |rs| && Iterates(stage, t, m, next, i, NameFor(stage, t, m.records, i))
  {
    var m := Run(stage, t, rs, i);
    InvBounds(t, rs, m);
    hide Inv, Step, Iterates;
    StepIterates(stage, t, m, NameFor(stage, t, m.records, i));
  }

  /** The objects show the records, and the dictionary, the kept list and the id map mirror the fold. */
  ghost predicate Shows(entities: seq<Entity>, m: Merge, unique: map<Key, Entity>, kept: seq<Entity>,
                        idMap: map<TempId, TempId>)
    reads entities
  {
    Values(entities) == m.records && Mirrors(entities, m, unique, kept) && idMap == m.ids
  }

  method Deduplicate(t: Text, entities: seq<Entity>) returns (kept: seq<Entity>, idMap: map<TempId, TempId>)
    requires DistinctObjects(entities)
    modifies entities
    ensures
      var m := Run(Deduplication, t, old(Values(entities)), |entities|);
      Values(entities) == m.records && IsPick(entities, m.survivors, kept) && idMap == m.ids
  {
    ghost var rs := Values(entities);
    var unique: map<Key, Entity> := map[];
    kept, idMap := [], map[];
    hide Inv, Iterates;
    assert Shows(entities, Run(Deduplication, t, rs, 0), unique, kept, idMap);
    hide Run;
    for i := 0 to |entities|
      invariant Shows(entities, Run(Deduplication, t, rs, i), unique, kept, idMap)
    {
      hide Shows;
      RunStep(Deduplication, t, rs, i);
      unique, kept, idMap :=
        File(t, entities, Run(Deduplication, t, rs, i), Run(Deduplication, t, rs, i + 1), i, unique, kept, idMap);
    }
  }

  /** The body of the deduplication loop. */
  method File(t: Text, entities: seq<Entity>, ghost m: Merge, ghost next: Merge, i: nat, unique: map<Key, Entity>,
              kept: seq<Entity>, idMap: map<TempId, TempId>)
    returns (unique': map<Key, Entity>, kept': seq<Entity>, idMap': map<TempId, TempId>)
    requires DistinctObjects(entities) && i < |entities| && Shows(entities, m, unique, kept, idMap)
    requires Iterates(Deduplication, t, m, next, i, entities[i].name)
    modifies entities
    ensures Shows(entities, next, unique', kept', idMap')
  {
    unique', kept', idMap' := unique, kept, idMap;
    var entity := entities[i];
    var key := Key(t.normalize(entity.name), entity.kind);
    if key !in unique {
      unique' := unique[key := entity];
      idMap' := idMap[entity.tempId := entity.tempId];
      kept' := kept + [entity];
      return;
    }
    var existing := unique[key];
    idMap' := idMap[entity.tempId := existing.tempId];
    existing.Absorb(entity);
  }

  method FindExpansion(t: Text, entities: seq<Entity>, i: nat) returns (r: Option<Name>)
    requires i < |entities|
    ensures r == Expansion(t, Values(entities), i, 0)
  {
    for k := 0 to |entities|
      invariant Expansion(t, Values(entities), i, 0) == Expansion(t, Values(entities), i, k)
    {
      if entities[k].tempId != entities[i].tempId && t.acronym(entities[k].name) == t.normalize(entities[i].name) {
        return Some(entities[k].name);
      }
    }
    return None;
  }

  /** The first part of the alias loop: the canonical name of an entity, from the names as they are now. */
  method CanonicalName(t: Text, entities: seq<Entity>, i: nat) returns (canonicalName: Name)
    requires i < |entities|
    ensures canonicalName == Canonical(t, Values(entities), i)
    ensures
      var now := Values(entities);
      var own := t.normalize(entities[i].name);
      && (forall j :: 0 <= j < |now| && t.short(entities[i].name) && FirstWithAcronym(t, now, now, i, j) ==>
        canonicalName == now[j].name)
      && (!t.short(entities[i].name) || (forall j :: 0 <= j < |now| ==> !FirstWithAcronym(t, now, now, i, j)) ==>
        canonicalName == if own in t.known then t.known[own] else entities[i].name)
  {
    CanonicalCases(t, Values(entities), Values(entities), i);
    hide FirstWithAcronym;
    var name := entities[i].name;
    var normalized := t.normalize(name);
    canonicalName := if normalized in t.known then t.known[normalized] else name;
    if t.short(name) {
      var expansion := FindExpansion(t, entities, i);
      if expansion.Some? { canonicalName := expansion.value; }
    }
  }

  /** Before the alias loop, every temporary id stands for itself. */
  method IdentityIds(entities: seq<Entity>) returns (idMap: map<TempId, TempId>)
    ensures idMap == Start(AliasResolution, Values(entities)).ids
  {
    var ids := set e | e in entities :: e.tempId;
    SameIds(entities, ids);
    idMap := Identity(ids);
  }

  lemma SameIds(entities: seq<Entity>, ids: set<TempId>)
    requires forall id :: id in ids <==> exists i :: 0 <= i < |entities| && entities[i].tempId == id
    ensures ids == TempIds(Values(entities))
  {
    var rs := Values(entities);
    forall id ensures id in ids <==> id in TempIds(rs) {
      if i :| 0 <= i < |entities| && entities[i].tempId == id { assert rs[i] in rs; }
      if r :| r in rs && r.tempId == id {
        var i :| 0 <= i < |rs| && rs[i] == r;
      }
    }
  }

  lemma ShowsRecords(entities: seq<Entity>, m: Merge, unique: map<Key, Entity>, kept: seq<Entity>,
                     idMap: map<TempId, TempId>)
    requires Shows(entities, m, unique, kept, idMap)
    ensures Values(entities) == m.records && IsPick(entities, m.survivors, kept) && idMap == m.ids
  {
  }

  lemma ShowsStart(stage: Stage, t: Text, entities: seq<Entity>)
    ensures Shows(entities, Run(stage, t, Values(entities), 0), map[], [], Start(stage, Values(entities)).ids)
  {
    hide Inv;
  }

  method ResolveAliases(t: Text, entities: seq<Entity>) returns (kept: seq<Entity>, idMap: map<TempId, TempId>)
    requires DistinctObjects(entities)
    modifies entities
    ensures
      var m := Run(AliasResolution, t, old(Values(entities)), |entities|);
      Values(entities) == m.records && IsPick(entities, m.survivors, kept) && idMap == m.ids
  {
    ghost var rs := Values(entities);
    var canonicalByKey: map<Key, Entity> := map[];
    kept := [];
    idMap := IdentityIds(entities);
    ShowsStart(AliasResolution, t, entities);
    hide Inv, Iterates, Run, Shows;
    for i := 0 to |entities|
      invariant Shows(entities, Run(AliasResolution, t, rs, i), canonicalByKey, kept, idMap)
    {
      var canonicalName := CanonicalName(t, entities, i);
      RunStep(AliasResolution, t, rs, i);
      ShowsRecords(entities, Run(AliasResolution, t, rs, i), canonicalByKey, kept, idMap);
      hide Canonical;
      canonicalByKey, kept, idMap :=
        Settle(t, entities, Run(AliasResolution, t, rs, i), Run(AliasResolution, t, rs, i + 1), i, canonicalName,
          canonicalByKey, kept, idMap);
    }
    ShowsRecords(entities, Run(AliasResolution, t, rs, |entities|), canonicalByKey, kept, idMap);
  }

  /** The second part of the alias loop: a new survivor takes the name, a known key absorbs the entity. */
  method Settle(t: Text, entities: seq<Entity>, ghost m: Merge, ghost next: Merge, i: nat, canonicalName: Name,
                canonicalByKey: map<Key, Entity>, kept: seq<Entity>, idMap: map<TempId, TempId>)
    returns (canonicalByKey': map<Key, Entity>, kept': seq<Entity>, idMap': map<TempId, TempId>)
    requires DistinctObjects(entities) && i < |entities| && Shows(entities, m, canonicalByKey, kept, idMap)
    requires Iterates(AliasResolution, t, m, next, i, canonicalName)
    modifies entities
    ensures Shows(entities, next, canonicalByKey', kept', idMap')
  {
    canonicalByKey', kept', idMap' := canonicalByKey, kept, idMap;
    var entity := entities[i];
    var key := Key(t.normalize(canonicalName), entity.kind);
    if key !in canonicalByKey {
      entity.Rename(canonicalName);
      canonicalByKey' := canonicalByKey[key := entity];
      kept' := kept + [entity];
      assert Values(entities) == next.records;
      return;
    }
    var existing := canonicalByKey[key];
    idMap' := idMap[entity.tempId := existing.tempId];
    existing.Absorb(entity);
    assert Values(entities) == next.records;
  }

  // ---------------------------------------------------------------- id maps

  ghost predicate DistinctIds(rs: seq<Record>) {
    forall i, j :: 0 <= i < j < |rs| ==> rs[i].tempId != rs[j].tempId
  }

  ghost predicate EntryOk(stage: Stage, rs: seq<Record>, owners: seq<nat>, ids: map<TempId, TempId>, j: nat)
    requires j < |rs|
  {
    if j < |owners| then owners[j] < |rs| && rs[j].tempId in ids && ids[rs[j].tempId] == rs[owners[j]].tempId
    else stage.AliasResolution? ==> rs[j].tempId in ids && ids[rs[j].tempId] == rs[j].tempId
  }

  /** Every entity seen maps to its survivor; the map knows no other ids than the entities'. */
  ghost predicate IdsOk(stage: Stage, rs: seq<Record>, owners: seq<nat>, ids: map<TempId, TempId>) {
    && (forall j: nat :: j < |rs| ==> EntryOk(stage, rs, owners, ids, j))
    && forall id :: id in ids ==> exists j :: 0 <= j < |rs| && rs[j].tempId == id
  }

  lemma IdsStep(stage: Stage, rs: seq<Record>, owners: seq<nat>, ids: map<TempId, TempId>, o: nat)
    requires |owners| < |rs| && o <= |owners| && DistinctIds(rs) && IdsOk(stage, rs, owners, ids)
    ensures
      var i := |owners|;
      IdsOk(stage, rs, owners + [o],
        if stage.AliasResolution? && o == i then ids else ids[rs[i].tempId := rs[o].tempId])
  {
    var i := |owners|;
    var next := if stage.AliasResolution? && o == i then ids else ids[rs[i].tempId := rs[o].tempId];
    forall j: nat | j < |rs| ensures EntryOk(stage, rs, owners + [o], next, j) {
      assert EntryOk(stage, rs, owners, ids, j);
      assert j != i ==> rs[j].tempId != rs[i].tempId;
    }
  }

  /** How one step changes the owners and the id map. */
  ghost predicate Extends(stage: Stage, rs: seq<Record>, m: Merge, next: Merge, o: nat)
    requires |m.owners| < |rs|
  {
    && o <= |m.owners| && next.owners == m.owners + [o]
    && next.ids == if stage.AliasResolution? && o == |m.owners| then m.ids
      else m.ids[rs[|m.owners|].tempId := rs[o].tempId]
  }

  lemma StepIds(stage: Stage, t: Text, rs: seq<Record>, m: Merge, canonical: Name) returns (o: nat)
    requires Shape(rs, m) && Linked(m) && Fits(m)
    ensures Extends(stage, rs, m, Step(stage, t, m, canonical), o)
  {
    var i, next := |m.owners|, Step(stage, t, m, canonical);
    o := next.owners[i];
    assert next.owners == m.owners + [o];
  }

  lemma RunStepIds(stage: Stage, t: Text, rs: seq<Record>, n: nat) returns (o: nat)
    requires n < |rs|
    ensures |Run(stage, t, rs, n).owners| == n && Extends(stage, rs, Run(stage, t, rs, n), Run(stage, t, rs, n + 1), o)
  {
    var m := Run(stage, t, rs, n);
    hide Classes, Listed, Step;
    o := StepIds(stage, t, rs, m, NameFor(stage, t, m.records, n));
  }

  lemma {:induction false} RunIds(stage: Stage, t: Text, rs: seq<Record>, n: nat)
    requires n <= |rs| && DistinctIds(rs)
    ensures IdsOk(stage, rs, Run(stage, t, rs, n).owners, Run(stage, t, rs, n).ids)
  {
    hide Inv;
    if n == 0 {
      assert forall j :: 0 <= j < |rs| ==> rs[j] in rs;
    } else {
      hide IdsOk, Run;
      RunIds(stage, t, rs, n - 1);
      var o := RunStepIds(stage, t, rs, n - 1);
      var m := Run(stage, t, rs, n - 1);
      IdsStep(stage, rs, m.owners, m.ids, o);
    }
  }
}
