/** Tenants do not interfere: what a tenant is told over a whole run is what it would be told had it been alone. */
module Tenancy {
  import opened Prelude
  import opened Scopes
  import opened MemoryIndex
  import opened Vectors
  import opened Pgvector
  import opened Gateway
  import opened GatewayInvariant
  import opened Runs
  import opened Refinement

  function RowOf(t: string): PgRow -> bool { (r: PgRow) => r.scope.tenant == Some(t) }

  function EpisodeOf(t: string): JournalRow -> bool { (j: JournalRow) => j.tenant == t }

  function IndexOf(index: Index, t: string): Index { map k | k in index && k.tenant == t :: index[k] }

  function BindingsOf(b: Bindings, t: string): Bindings { map p | p in b && p.0 == t :: b[p] }

  function StoresOf(stores: map<string, seq<PgRow>>, t: string): map<string, seq<PgRow>> {
    map p | p in stores :: Filter(stores[p], RowOf(t))
  }

  /** One tenant's part of the state. */
  function Part(g: State, t: string): State {
    State(IndexOf(g.index, t), BindingsOf(g.bindings, t), Filter(g.journal, EpisodeOf(t)), StoresOf(g.stores, t))
  }

  // -- what survives the restriction -----------------------------------------------------

  lemma PartPrepare(cfg: Config, g: State, t: string, scope: Scope, asserted: Option<string>)
    ensures Prepare(cfg, BindingsOf(g.bindings, t), t, scope, asserted) == Prepare(cfg, g.bindings, t, scope, asserted)
  {}

  lemma PartResolve(cfg: Config, g: State, next: nat, t: string, id: nat)
    requires Inv(cfg, g, next)
    ensures Resolve(IndexOf(g.index, t), t, id) == Resolve(g.index, t, id)
  {
    var part := IndexOf(g.index, t);
    assert forall k :: Owns(part, k, t, id) <==> Owns(g.index, k, t, id);
    if k :| Owns(g.index, k, t, id) {
      ResolveUnder(cfg, g, next, t, id, k);
    }
  }

  /** A live key of the tenant finds the same store row in the tenant's part. */
  lemma PartRowAt(cfg: Config, g: State, next: nat, t: string, k: Key)
    requires Inv(cfg, g, next) && LiveAt(g.index, k) && k.tenant == t
    ensures RowAt(Part(g, t), k) == RowAt(g, k)
  {
    FindRowFilter(g.stores[k.provider], RowOf(t), k.native.tick);
  }

  lemma PartStore(g: State, t: string, p: string)
    ensures StoreOf(Part(g, t), p) == Filter(StoreOf(g, p), RowOf(t))
  {}

  lemma PartOwns(g: State, t: string, id: nat)
    ensures forall k :: Owns(Part(g, t).index, k, t, id) <==> Owns(g.index, k, t, id)
  {}

  lemma PartIndexOk(index: Index, next: nat, t: string)
    requires IndexOk(index, next)
    ensures IndexOk(IndexOf(index, t), next)
  {}

  lemma PartIndexed(g: State, t: string)
    requires Indexed(g)
    ensures Indexed(Part(g, t))
  {
    var h := Part(g, t);
    forall p, r | p in h.stores && r in h.stores[p]
      ensures var k := KeyOfRow(p, r); k in h.index && SameDims(k, h.index[k], r.scope)
    {
      FilterMember(g.stores[p], RowOf(t), r);
      assert r in g.stores[p] && KeyOfRow(p, r) in g.index;
    }
  }

  lemma PartInv(cfg: Config, g: State, next: nat, t: string)
    requires Inv(cfg, g, next)
    ensures Inv(cfg, Part(g, t), next)
  {
    var h := Part(g, t);
    PartIndexOk(g.index, next, t);
    PartStoresOk(cfg, g, next, t);
    PartIndexed(g, t);
    PartJournalOk(g, next, t);
    forall k | LiveAt(h.index, k)
      ensures k.provider in h.stores && RowAt(h, k).Some? && SameDims(k, h.index[k], RowAt(h, k).value.scope)
    {
      assert LiveAt(g.index, k);
      PartRowAt(cfg, g, next, t, k);
    }
    hide IndexOk, StoresOk, Indexed, JournalOk;
  }

  lemma PartStoresOk(cfg: Config, g: State, next: nat, t: string)
    requires StoresOk(cfg, g.stores, next)
    ensures StoresOk(cfg, StoresOf(g.stores, t), next)
  {
    forall p | p in g.stores
      ensures DistinctTicks(Filter(g.stores[p], RowOf(t))) && forall r | r in Filter(g.stores[p], RowOf(t)) ::
              r.tick < next
    {
      FilterDistinct(g.stores[p], RowOf(t));
      forall r | r in Filter(g.stores[p], RowOf(t)) ensures r.tick < next { FilterMember(g.stores[p], RowOf(t), r); }
    }
  }

  lemma PartJournalOk(g: State, next: nat, t: string)
    requires JournalOk(g, next)
    ensures JournalOk(Part(g, t), next)
  {
    FilterKeepsOrder(g.journal, EpisodeOf(t));
    forall j | j in Filter(g.journal, EpisodeOf(t))
      ensures j in g.journal && j.tenant == t
    {
      FilterMember(g.journal, EpisodeOf(t), j);
    }
  }

  // -- reads -------------------------------------------------------------------------------

  lemma DimsImplyTenant(scope: Scope, t: string, r: PgRow)
    requires t != "" && InDims(scope.Under(t))(r)
    ensures RowOf(t)(r)
  {
    ConditionsAreCovers(scope.Under(t), r.scope);
    assert Tenant in scope.Under(t).Dims() && scope.Under(t).Dims()[Tenant] == t;
  }

  /** A stamped filter selects the same rows from the whole store as from the tenant's part of it. */
  lemma PartRowsInScope(rows: seq<PgRow>, scope: Scope, t: string, recent: bool, limit: Option<nat>)
    requires t != ""
    ensures RowsInScope(Filter(rows, RowOf(t)), scope.Under(t), recent, limit)
            == RowsInScope(rows, scope.Under(t), recent, limit)
  {
    forall r | r in rows
      ensures InDims(scope.Under(t))(r) == (RowOf(t)(r) && InDims(scope.Under(t))(r))
    {
      if InDims(scope.Under(t))(r) { DimsImplyTenant(scope, t, r); }
    }
    FilterTwice(rows, RowOf(t), InDims(scope.Under(t)), InDims(scope.Under(t)));
  }

  lemma PartHits(cfg: Config, g: State, t: string, name: string, verb: Verb)
    requires t != "" && name in cfg.caps && (verb.Search? || verb.ListScope?)
    ensures Hits(cfg, Part(g, t), t, name, verb) == Hits(cfg, g, t, name, verb)
  {
    PartStore(g, t, name);
    PartRowsInScope(StoreOf(g, name), verb.scope, t, false, None);
    if verb.ListScope? {
      PartRowsInScope(StoreOf(g, name), verb.scope, t, true, Some(Min(verb.limit, cfg.caps[name].maxLimit)));
    }
  }

  lemma {:induction false} PartRecords(index: Index, t: string, name: string, memories: seq<ProviderMemory>)
    ensures RecordsAt(IndexOf(index, t), t, name, memories) == RecordsAt(index, t, name, memories)
  {
    if memories != [] { PartRecords(index, t, name, memories[1..]); }
  }

  lemma PartReads(cfg: Config, g: State, next: nat, e: Event)
    requires Inv(cfg, g, next) && Inv(cfg, Part(g, e.tenant), next) && e.tenant != ""
             && (e.verb.Search? || e.verb.ListScope?)
    ensures Supplied(cfg, g, e) && Supplied(cfg, Part(g, e.tenant), e)
    ensures Step(cfg, g, e).0 == g && Step(cfg, Part(g, e.tenant), e) == (Part(g, e.tenant), Step(cfg, g, e).1)
  {
    hide Inv, Hits, RecordsAt, StepSearch, StepList, Prepare, Supplied, SearchRefusal, IndexOf, StoresOf, BindingsOf;
    var t, h := e.tenant, Part(g, e.tenant);
    var name := Prepare(cfg, g.bindings, t, e.verb.scope, e.verb.asserted);
    PartPrepare(cfg, g, t, e.verb.scope, e.verb.asserted);
    if name.Ok? {
      PartHits(cfg, g, t, name.value, e.verb);
      PartRecords(g.index, t, name.value, Hits(cfg, g, t, name.value, e.verb));
    }
    if e.verb.Search? {
      SearchIs(cfg, g, next, e);
      SearchIs(cfg, h, next, e);
      assert Step(cfg, g, e) == StepSearch(cfg, g, e) && Step(cfg, h, e) == StepSearch(cfg, h, e);
    } else {
      ListIs(cfg, g, next, e);
      ListIs(cfg, h, next, e);
      assert Step(cfg, g, e) == StepList(cfg, g, e) && Step(cfg, h, e) == StepList(cfg, h, e);
    }
  }

  // -- edits and deletes -----------------------------------------------------------------------

  lemma {:induction false} FilterEdited(rows: seq<PgRow>, t: string, tick: nat, content: string, embedding: Vector,
                                        now: nat)
    ensures Filter(Edited(rows, tick, content, embedding, now), RowOf(t))
         == Edited(Filter(rows, RowOf(t)), tick, content, embedding, now)
  {
    if rows != [] {
      FilterEdited(rows[1..], t, tick, content, embedding, now);
      assert Edited(rows, tick, content, embedding, now)[1..] == Edited(rows[1..], tick, content, embedding, now);
      var rest := Filter(rows[1..], RowOf(t));
      assert ([rows[0]] + rest)[1..] == rest;
    }
  }

  lemma StoresOfUpdate(stores: map<string, seq<PgRow>>, p: string, rows: seq<PgRow>, t: string)
    ensures StoresOf(stores[p := rows], t) == StoresOf(stores, t)[p := Filter(rows, RowOf(t))]
  {}

  lemma PartUpdate(cfg: Config, g: State, next: nat, e: Event)
    requires Inv(cfg, g, next) && Inv(cfg, Part(g, e.tenant), next) && e.verb.Update?
    ensures Supplied(cfg, g, e) && Supplied(cfg, Part(g, e.tenant), e)
    ensures StepUpdate(cfg, Part(g, e.tenant), e) == (Part(StepUpdate(cfg, g, e).0, e.tenant), StepUpdate(cfg, g, e).1)
  {
    hide Inv, StepUpdate, Supplied, FindRow, Edited;
    var t, h := e.tenant, Part(g, e.tenant);
    if k :| Owns(g.index, k, t, e.verb.id) {
      assert Owns(h.index, k, t, e.verb.id);
      UpdateIs(cfg, g, next, e, k);
      UpdateIs(cfg, h, next, e, k);
      PartRowAt(cfg, g, next, t, k);
      var edited := Edited(g.stores[k.provider], k.native.tick, e.verb.content, cfg.embed(e.verb.content), e.now);
      FilterEdited(g.stores[k.provider], t, k.native.tick, e.verb.content, cfg.embed(e.verb.content), e.now);
      StoresOfUpdate(g.stores, k.provider, edited, t);
    } else {
      PartOwns(g, t, e.verb.id);
      Unfound(cfg, g, e);
      Unfound(cfg, h, e);
    }
  }

  lemma Unfound(cfg: Config, g: State, e: Event)
    requires (e.verb.Update? || e.verb.Get? || e.verb.Delete?) && forall k :: !Owns(g.index, k, e.tenant, e.verb.id)
    ensures Supplied(cfg, g, e)
    ensures e.verb.Update? ==> StepUpdate(cfg, g, e) == (g, Failed(MemoryNotFound))
    ensures e.verb.Get? ==> StepGet(cfg, g, e) == (g, Failed(MemoryNotFound))
    ensures e.verb.Delete? ==> StepDelete(cfg, g, e) == (g, Failed(MemoryNotFound))
  {
    UnresolvedFails(cfg, g, e);
  }

  lemma PartGet(cfg: Config, g: State, next: nat, e: Event)
    requires Inv(cfg, g, next) && e.verb.Get?
    ensures StepGet(cfg, Part(g, e.tenant), e) == (Part(g, e.tenant), StepGet(cfg, g, e).1)
  {
    PartResolve(cfg, g, next, e.tenant, e.verb.id);
    if k :| Owns(g.index, k, e.tenant, e.verb.id) {
      ResolveUnder(cfg, g, next, e.tenant, e.verb.id, k);
      PartRowAt(cfg, g, next, e.tenant, k);
    }
    hide Inv, FindRow, Filter, Resolve;
  }

  lemma PartDelete(cfg: Config, g: State, next: nat, e: Event)
    requires Inv(cfg, g, next) && Inv(cfg, Part(g, e.tenant), next) && e.verb.Delete?
    ensures StepDelete(cfg, Part(g, e.tenant), e) == (Part(StepDelete(cfg, g, e).0, e.tenant), StepDelete(cfg, g, e).1)
  {
    hide Inv, StepDelete, FindRow, Filter;
    var t, h := e.tenant, Part(g, e.tenant);
    if k :| Owns(g.index, k, t, e.verb.id) {
      assert Owns(h.index, k, t, e.verb.id);
      DeleteIs(cfg, g, next, e, k);
      DeleteIs(cfg, h, next, e, k);
      var kept := Filter(g.stores[k.provider], OtherThan(k.native.tick));
      FilterCommutes(g.stores[k.provider], OtherThan(k.native.tick), RowOf(t));
      StoresOfUpdate(g.stores, k.provider, kept, t);
      var gone := g.index[k].(deleted := true);
      assert IndexOf(g.index[k := gone], t) == IndexOf(g.index, t)[k := gone];
    } else {
      PartOwns(g, t, e.verb.id);
      Unfound(cfg, g, e);
      Unfound(cfg, h, e);
    }
  }

  lemma PartCovered(rows: seq<PgRow>, scope: Scope, t: string)
    requires t != ""
    ensures Filter(Filter(rows, RowOf(t)), Covered(scope.Under(t))) == Filter(rows, Covered(scope.Under(t)))
  {
    forall r | r in rows
      ensures Covered(scope.Under(t))(r) == (RowOf(t)(r) && Covered(scope.Under(t))(r))
    {
      if Covered(scope.Under(t))(r) { CoveredTenant(scope, t, r); }
    }
    FilterTwice(rows, RowOf(t), Covered(scope.Under(t)), Covered(scope.Under(t)));
  }

  lemma PartMarked(index: Index, t: string, scope: Scope, name: string)
    ensures MarkScopeDeleted(IndexOf(index, t), t, scope, name) == IndexOf(MarkScopeDeleted(index, t, scope, name), t)
  {}

  lemma PartDeleteScope(cfg: Config, g: State, e: Event)
    requires e.tenant != "" && e.verb.DeleteScope? && g.stores.Keys == cfg.caps.Keys
    ensures StepDeleteScope(cfg, Part(g, e.tenant), e)
         == (Part(StepDeleteScope(cfg, g, e).0, e.tenant), StepDeleteScope(cfg, g, e).1)
  {
    var t, h := e.tenant, Part(g, e.tenant);
    var name := Prepare(cfg, g.bindings, t, e.verb.scope, e.verb.asserted);
    PartPrepare(cfg, g, t, e.verb.scope, e.verb.asserted);
    if name.Ok? {
      var rows, bound := g.stores[name.value], e.verb.scope.Under(t);
      PartStore(g, t, name.value);
      PartCovered(rows, e.verb.scope, t);
      FilterCommutes(rows, Uncovered(bound), RowOf(t));
      StoresOfUpdate(g.stores, name.value, Filter(rows, Uncovered(bound)), t);
      PartMarked(g.index, t, e.verb.scope, name.value);
      FilterCommutes(g.journal, OutsideScope(t, e.verb.scope), EpisodeOf(t));
    }
    hide Filter, MarkScopeDeleted, IndexOf, StoresOf, Prepare;
  }

  lemma PartRebind(cfg: Config, g: State, e: Event)
    requires e.verb.RebindSubject?
    ensures StepRebind(cfg, Part(g, e.tenant), e) == (Part(StepRebind(cfg, g, e).0, e.tenant), StepRebind(cfg, g, e).1)
  {
    var t, b := e.tenant, g.bindings;
    assert BindingsOf(Rebind(b, t, e.verb.subject, e.verb.provider), t)
           == Rebind(BindingsOf(b, t), t, e.verb.subject, e.verb.provider);
    assert forall p :: LiveKeys(IndexOf(g.index, t), t, e.verb.subject, p) == LiveKeys(g.index, t, e.verb.subject, p);
  }

  // -- writes ----------------------------------------------------------------------------------------

  /** A state with a write's rows added. */
  function Adding(g: State, name: string, rows: Index, added: seq<PgRow>, b: Bindings): State {
    g.(index := g.index + rows, stores := g.stores[name := StoreOf(g, name) + added], bindings := b)
  }

  lemma AddingOwn(g: State, t: string, name: string, rows: Index, added: seq<PgRow>, b: Bindings)
    requires Filter(added, RowOf(t)) == added && forall k | k in rows :: k.tenant == t
    ensures Part(Adding(g, name, rows, added, b), t) == Adding(Part(g, t), name, rows, added, BindingsOf(b, t))
  {
    PartStore(g, t, name);
    FilterAppend(StoreOf(g, name), added, RowOf(t));
    StoresOfUpdate(g.stores, name, StoreOf(g, name) + added, t);
    assert IndexOf(g.index + rows, t) == IndexOf(g.index, t) + rows;
  }

  lemma AddingForeign(g: State, t: string, name: string, rows: Index, added: seq<PgRow>, b: Bindings)
    requires Filter(added, RowOf(t)) == [] && name in g.stores && forall k | k in rows :: k.tenant != t
    requires BindingsOf(b, t) == BindingsOf(g.bindings, t)
    ensures Part(Adding(g, name, rows, added, b), t) == Part(g, t)
  {
    FilterAppend(StoreOf(g, name), added, RowOf(t));
    StoresOfUpdate(g.stores, name, StoreOf(g, name) + added, t);
    assert Filter(StoreOf(g, name), RowOf(t)) + [] == Filter(StoreOf(g, name), RowOf(t));
    SameStore(StoresOf(g.stores, t), name);
    assert IndexOf(g.index + rows, t) == IndexOf(g.index, t);
  }

  lemma WriteIsAdding(cfg: Config, g: State, u: string, name: string, facts: seq<string>, scope: Scope,
                      ids: seq<nat>, now: nat, next: nat, upto: nat)
    requires Inv(cfg, g, next) && name in cfg.caps && FreshIds(ids, next, upto) && 2 * |facts| <= |ids|
    ensures name in g.stores
    ensures var n := |facts|;
            var rows := InsertRows(u, name, FactItems(facts, ids), scope, ids[n..2 * n]);
            && WriteFacts(cfg, g, u, name, facts, scope, ids, now).0
                 == Adding(g, name, rows, NewRows(facts, cfg.embed, scope.Under(u), ids[..n], now),
                           Bind(g.bindings, u, scope.subject, name))
            && forall k | k in rows :: k.tenant == u
  {
    hide WriteFacts, NewRows, InsertRows, FreshIds;
    WriteState(cfg, g, u, name, facts, scope, ids, now, next, upto);
    InsertRowsKeys(u, name, FactItems(facts, ids), scope, ids[|facts|..2 * |facts|]);
    StoresConfigured(cfg, g, next);
  }

  lemma PartBind(b: Bindings, u: string, subject: string, name: string, t: string)
    ensures BindingsOf(Bind(b, u, subject, name), t) == if t == u then Bind(BindingsOf(b, t), t, subject, name)
            else BindingsOf(b, t)
  {}

  lemma PartWrite(cfg: Config, g: State, t: string, name: string, facts: seq<string>, scope: Scope,
                  ids: seq<nat>, now: nat, next: nat, upto: nat)
    requires Inv(cfg, g, next) && Inv(cfg, Part(g, t), next) && name in cfg.caps && FreshIds(ids, next, upto)
             && 2 * |facts| <= |ids|
    ensures WriteFacts(cfg, Part(g, t), t, name, facts, scope, ids, now).0
            == Part(WriteFacts(cfg, g, t, name, facts, scope, ids, now).0, t)
    ensures WriteFacts(cfg, Part(g, t), t, name, facts, scope, ids, now).1
            == WriteFacts(cfg, g, t, name, facts, scope, ids, now).1
  {
    hide WriteFacts, NewRows, InsertRows, Inv, FreshIds, Filter, Adding;
    var n := |facts|;
    WriteAnswer(cfg, g, t, name, facts, scope, ids, now, next, upto);
    WriteAnswer(cfg, Part(g, t), t, name, facts, scope, ids, now, next, upto);
    WriteIsAdding(cfg, g, t, name, facts, scope, ids, now, next, upto);
    WriteIsAdding(cfg, Part(g, t), t, name, facts, scope, ids, now, next, upto);
    AddedOf(facts, cfg.embed, scope, t, ids[..n], now, t);
    AddingOwn(g, t, name, InsertRows(t, name, FactItems(facts, ids), scope, ids[n..2 * n]),
              NewRows(facts, cfg.embed, scope.Under(t), ids[..n], now), Bind(g.bindings, t, scope.subject, name));
    PartBind(g.bindings, t, scope.subject, name, t);
  }

  /** The rows a tenant adds are all its own. */
  lemma AddedOf(facts: seq<string>, embed: string -> Vector, scope: Scope, u: string, ids: seq<nat>, now: nat,
                t: string)
    requires |facts| <= |ids|
    ensures Filter(NewRows(facts, embed, scope.Under(u), ids, now), RowOf(t))
         == if t == u then NewRows(facts, embed, scope.Under(u), ids, now) else []
  {
    var added := NewRows(facts, embed, scope.Under(u), ids, now);
    NewRowsAt(facts, embed, scope.Under(u), ids, now);
    forall r | r in added
      ensures r.scope.tenant == Some(u)
    {
      var i :| 0 <= i < |added| && added[i] == r;
    }
    if t == u { FilterAll(added, RowOf(t)); } else { FilterNone(added, RowOf(t)); }
  }

  /** A write asks for the same ids whether the whole state or the tenant's part decides. */
  lemma PartNeeds(cfg: Config, g: State, e: Event)
    ensures Needs(cfg, BindingsOf(g.bindings, e.tenant), e) == Needs(cfg, g.bindings, e)
  {
    if e.verb.Upsert? || e.verb.Ingest? { PartPrepare(cfg, g, e.tenant, e.verb.scope, e.verb.asserted); }
  }

  lemma PartUpsert(cfg: Config, g: State, next: nat, e: Event, upto: nat)
    requires Inv(cfg, g, next) && Inv(cfg, Part(g, e.tenant), next) && Proper(cfg, g.bindings, e, next, upto)
             && e.verb.Upsert?
    ensures StepUpsert(cfg, Part(g, e.tenant), e) == (Part(StepUpsert(cfg, g, e).0, e.tenant), StepUpsert(cfg, g, e).1)
  {
    hide Inv, WriteFacts, Prepare, FreshIds, IndexOf, BindingsOf, StoresOf;
    var name := Prepare(cfg, g.bindings, e.tenant, e.verb.scope, e.verb.asserted);
    PartPrepare(cfg, g, e.tenant, e.verb.scope, e.verb.asserted);
    if name.Ok? && e.verb.facts != [] && cfg.caps[name.value].supportsUpsert {
      PartWrite(cfg, g, e.tenant, name.value, e.verb.facts, e.verb.scope, e.ids, e.now, next, upto);
    }
  }

  lemma PartIngest(cfg: Config, g: State, next: nat, e: Event, upto: nat)
    requires Inv(cfg, g, next) && Inv(cfg, Part(g, e.tenant), next) && Proper(cfg, g.bindings, e, next, upto)
             && e.verb.Ingest?
    ensures StepIngest(cfg, Part(g, e.tenant), e) == (Part(StepIngest(cfg, g, e).0, e.tenant), StepIngest(cfg, g, e).1)
  {
    hide Inv, WriteFacts, Prepare, FreshIds, IndexOf, BindingsOf, StoresOf, StepIngest;
    var t, h := e.tenant, Part(g, e.tenant);
    var name := Prepare(cfg, g.bindings, t, e.verb.scope, e.verb.asserted);
    PartPrepare(cfg, g, t, e.verb.scope, e.verb.asserted);
    PartNeeds(cfg, g, e);
    IngestIs(cfg, g, next, e, upto);
    IngestIs(cfg, h, next, e, upto);
    if name.Ok? && cfg.caps[name.value].supportsIngest {
      PartWrite(cfg, g, t, name.value, e.verb.facts, e.verb.scope, e.ids, e.now, next, upto);
      if cfg.journalEnabled {
        var after := WriteFacts(cfg, g, t, name.value, e.verb.facts, e.verb.scope, e.ids, e.now).0;
        JournaledPart(after.journal, Episode(e, name.value), t);
      }
    }
  }

  lemma JournaledPart(journal: seq<JournalRow>, j: JournalRow, t: string)
    requires j.tenant == t
    ensures Filter(journal + [j], EpisodeOf(t)) == Filter(journal, EpisodeOf(t)) + [j]
  {
    FilterAppend(journal, [j], EpisodeOf(t));
    assert [j][1..] == [];
  }

  // -- the tenant's own calls ----------------------------------------------------------------------------

  /** A tenant's call gives the same answer, and leaves the same part, in the whole state as in the tenant's part
      alone. */
  lemma OwnStep(cfg: Config, g: State, next: nat, e: Event, upto: nat)
    requires Inv(cfg, g, next) && Inv(cfg, Part(g, e.tenant), next) && Proper(cfg, g.bindings, e, next, upto)
    ensures Supplied(cfg, g, e) && Supplied(cfg, Part(g, e.tenant), e)
    ensures Step(cfg, Part(g, e.tenant), e) == (Part(Step(cfg, g, e).0, e.tenant), Step(cfg, g, e).1)
  {
    hide Inv, Part, Prepare, StepIngest, StepUpsert, StepUpdate, StepSearch, StepList, StepGet, StepDelete,
         StepDeleteScope, StepRebind, Supplied;
    var h := Part(g, e.tenant);
    PartNeeds(cfg, g, e);
    PartBindings(g, e.tenant);
    Supply(cfg, g, next, e);
    Supply(cfg, h, next, e);
    match e.verb
    case Ingest(_, _, _, _) => PartIngest(cfg, g, next, e, upto);
    case Upsert(_, _, _) => PartUpsert(cfg, g, next, e, upto);
    case Update(_, _) => PartUpdate(cfg, g, next, e);
    case Search(_, _, _) => PartReads(cfg, g, next, e);
    case ListScope(_, _, _) => PartReads(cfg, g, next, e);
    case Get(_) => PartGet(cfg, g, next, e); ReadsChangeNothing(cfg, g, next, e);
    case Delete(_) => PartDelete(cfg, g, next, e);
    case DeleteScope(_, _) => StoresConfigured(cfg, g, next); PartDeleteScope(cfg, g, e);
    case RebindSubject(_, _, _) => PartRebind(cfg, g, e);
  }

  lemma PartBindings(g: State, t: string)
    ensures Part(g, t).bindings == BindingsOf(g.bindings, t)
  {}

  lemma StoresConfigured(cfg: Config, g: State, next: nat)
    requires Inv(cfg, g, next)
    ensures g.stores.Keys == cfg.caps.Keys
  {}

  // -- another tenant's calls ---------------------------------------------------------------------------------

  lemma ForeignWrite(cfg: Config, g: State, u: string, name: string, facts: seq<string>, scope: Scope,
                     ids: seq<nat>, now: nat, next: nat, upto: nat, t: string)
    requires Inv(cfg, g, next) && name in cfg.caps && FreshIds(ids, next, upto) && 2 * |facts| <= |ids| && t != u
    ensures Part(WriteFacts(cfg, g, u, name, facts, scope, ids, now).0, t) == Part(g, t)
  {
    hide WriteFacts, NewRows, InsertRows, Inv, FreshIds, Filter, Adding;
    var n := |facts|;
    WriteIsAdding(cfg, g, u, name, facts, scope, ids, now, next, upto);
    AddedOf(facts, cfg.embed, scope, u, ids[..n], now, t);
    PartBind(g.bindings, u, scope.subject, name, t);
    AddingForeign(g, t, name, InsertRows(u, name, FactItems(facts, ids), scope, ids[n..2 * n]),
                  NewRows(facts, cfg.embed, scope.Under(u), ids[..n], now), Bind(g.bindings, u, scope.subject, name));
  }

  lemma SameStore(stores: map<string, seq<PgRow>>, p: string)
    requires p in stores
    ensures stores[p := stores[p]] == stores
  {}

  /** The row behind another tenant's key is not among this tenant's rows. */
  lemma ForeignTick(cfg: Config, g: State, next: nat, k: Key, t: string)
    requires Inv(cfg, g, next) && LiveAt(g.index, k) && k.tenant != t
    ensures k.provider in g.stores && k.native.Minted?
    ensures forall r | r in Filter(g.stores[k.provider], RowOf(t)) :: r.tick != k.native.tick
  {
    forall r | r in Filter(g.stores[k.provider], RowOf(t))
      ensures r.tick != k.native.tick
    {
      FilterMember(g.stores[k.provider], RowOf(t), r);
      assert KeyOfRow(k.provider, r) in g.index;
    }
  }

  lemma ForeignUpdate(cfg: Config, g: State, next: nat, e: Event, t: string)
    requires Inv(cfg, g, next) && e.verb.Update? && e.tenant != t
    ensures Supplied(cfg, g, e) && Part(StepUpdate(cfg, g, e).0, t) == Part(g, t)
  {
    hide Inv, StepUpdate, Supplied, Edited, Filter;
    if k :| Owns(g.index, k, e.tenant, e.verb.id) {
      UpdateIs(cfg, g, next, e, k);
      ForeignTick(cfg, g, next, k, t);
      var rows, v := g.stores[k.provider], cfg.embed(e.verb.content);
      FilterEdited(rows, t, k.native.tick, e.verb.content, v, e.now);
      EditedAbsent(Filter(rows, RowOf(t)), k.native.tick, e.verb.content, v, e.now);
      StoresOfUpdate(g.stores, k.provider, Edited(rows, k.native.tick, e.verb.content, v, e.now), t);
      SameStore(StoresOf(g.stores, t), k.provider);
    } else {
      Unfound(cfg, g, e);
    }
  }

  lemma ForeignDelete(cfg: Config, g: State, next: nat, e: Event, t: string)
    requires Inv(cfg, g, next) && e.verb.Delete? && e.tenant != t
    ensures Part(StepDelete(cfg, g, e).0, t) == Part(g, t)
  {
    hide Inv, StepDelete, Filter;
    if k :| Owns(g.index, k, e.tenant, e.verb.id) {
      DeleteIs(cfg, g, next, e, k);
      ForeignTick(cfg, g, next, k, t);
      var rows := g.stores[k.provider];
      FilterCommutes(rows, OtherThan(k.native.tick), RowOf(t));
      FilterAll(Filter(rows, RowOf(t)), OtherThan(k.native.tick));
      StoresOfUpdate(g.stores, k.provider, Filter(rows, OtherThan(k.native.tick)), t);
      SameStore(StoresOf(g.stores, t), k.provider);
      assert IndexOf(g.index[k := g.index[k].(deleted := true)], t) == IndexOf(g.index, t);
    } else {
      Unfound(cfg, g, e);
    }
  }

  lemma ForeignUncovered(rows: seq<PgRow>, scope: Scope, u: string, t: string)
    requires u != "" && u != t
    ensures Filter(Filter(rows, Uncovered(scope.Under(u))), RowOf(t)) == Filter(rows, RowOf(t))
  {
    FilterCommutes(rows, Uncovered(scope.Under(u)), RowOf(t));
    forall r | r in Filter(rows, RowOf(t))
      ensures Uncovered(scope.Under(u))(r)
    {
      FilterMember(rows, RowOf(t), r);
      if Covered(scope.Under(u))(r) { CoveredTenant(scope, u, r); }
    }
    FilterAll(Filter(rows, RowOf(t)), Uncovered(scope.Under(u)));
  }

  lemma ForeignEpisodes(journal: seq<JournalRow>, scope: Scope, u: string, t: string)
    requires u != t
    ensures Filter(Filter(journal, OutsideScope(u, scope)), EpisodeOf(t)) == Filter(journal, EpisodeOf(t))
  {
    FilterCommutes(journal, OutsideScope(u, scope), EpisodeOf(t));
    forall j | j in Filter(journal, EpisodeOf(t))
      ensures OutsideScope(u, scope)(j)
    {
      FilterMember(journal, EpisodeOf(t), j);
    }
    FilterAll(Filter(journal, EpisodeOf(t)), OutsideScope(u, scope));
  }

  lemma ForeignMarked(index: Index, u: string, scope: Scope, name: string, t: string)
    requires u != t
    ensures IndexOf(MarkScopeDeleted(index, u, scope, name), t) == IndexOf(index, t)
  {}

  lemma ForeignDeleteScope(cfg: Config, g: State, e: Event, t: string)
    requires e.tenant != "" && e.tenant != t && e.verb.DeleteScope? && g.stores.Keys == cfg.caps.Keys
    ensures Part(StepDeleteScope(cfg, g, e).0, t) == Part(g, t)
  {
    var name := Prepare(cfg, g.bindings, e.tenant, e.verb.scope, e.verb.asserted);
    if name.Ok? {
      var rows := g.stores[name.value];
      ForeignUncovered(rows, e.verb.scope, e.tenant, t);
      StoresOfUpdate(g.stores, name.value, Filter(rows, Uncovered(e.verb.scope.Under(e.tenant))), t);
      SameStore(StoresOf(g.stores, t), name.value);
      ForeignMarked(g.index, e.tenant, e.verb.scope, name.value, t);
      ForeignEpisodes(g.journal, e.verb.scope, e.tenant, t);
    }
    hide Filter, MarkScopeDeleted, IndexOf, StoresOf, Prepare;
  }

  lemma ForeignRebind(cfg: Config, g: State, e: Event, t: string)
    requires e.verb.RebindSubject? && e.tenant != t
    ensures Part(StepRebind(cfg, g, e).0, t) == Part(g, t)
  {
    assert BindingsOf(Rebind(g.bindings, e.tenant, e.verb.subject, e.verb.provider), t) == BindingsOf(g.bindings, t);
  }

  lemma ForeignUpsert(cfg: Config, g: State, next: nat, e: Event, upto: nat, t: string)
    requires Inv(cfg, g, next) && Proper(cfg, g.bindings, e, next, upto) && e.verb.Upsert? && e.tenant != t
    ensures Part(StepUpsert(cfg, g, e).0, t) == Part(g, t)
  {
    hide Inv, WriteFacts, Prepare, FreshIds, Part;
    var name := Prepare(cfg, g.bindings, e.tenant, e.verb.scope, e.verb.asserted);
    if name.Ok? && e.verb.facts != [] && cfg.caps[name.value].supportsUpsert {
      ForeignWrite(cfg, g, e.tenant, name.value, e.verb.facts, e.verb.scope, e.ids, e.now, next, upto, t);
    }
  }

  lemma ForeignIngest(cfg: Config, g: State, next: nat, e: Event, upto: nat, t: string)
    requires Inv(cfg, g, next) && Proper(cfg, g.bindings, e, next, upto) && e.verb.Ingest? && e.tenant != t
    ensures Part(StepIngest(cfg, g, e).0, t) == Part(g, t)
  {
    hide Inv, WriteFacts, Prepare, FreshIds, StepIngest, IndexOf, BindingsOf, StoresOf, Filter;
    var name := Prepare(cfg, g.bindings, e.tenant, e.verb.scope, e.verb.asserted);
    IngestIs(cfg, g, next, e, upto);
    if name.Ok? && cfg.caps[name.value].supportsIngest {
      ForeignWrite(cfg, g, e.tenant, name.value, e.verb.facts, e.verb.scope, e.ids, e.now, next, upto, t);
      if cfg.journalEnabled {
        var after := WriteFacts(cfg, g, e.tenant, name.value, e.verb.facts, e.verb.scope, e.ids, e.now).0;
        ForeignEpisode(after.journal, Episode(e, name.value), t);
      }
    }
  }

  lemma ForeignEpisode(journal: seq<JournalRow>, j: JournalRow, t: string)
    requires j.tenant != t
    ensures Filter(journal + [j], EpisodeOf(t)) == Filter(journal, EpisodeOf(t))
  {
    FilterAppend(journal, [j], EpisodeOf(t));
    assert [j][1..] == [];
  }

  /** Another tenant's call, whatever it is, leaves a tenant's part untouched: index, bindings, episodes and stored
      rows. */
  lemma ForeignStep(cfg: Config, g: State, next: nat, e: Event, upto: nat, t: string)
    requires Inv(cfg, g, next) && Proper(cfg, g.bindings, e, next, upto) && e.tenant != t
    ensures Supplied(cfg, g, e) && Part(Step(cfg, g, e).0, t) == Part(g, t)
  {
    hide Inv, Part, Prepare, StepIngest, StepUpsert, StepUpdate, StepSearch, StepList, StepGet, StepDelete,
         StepDeleteScope, StepRebind, Supplied;
    Supply(cfg, g, next, e);
    match e.verb
    case Ingest(_, _, _, _) => ForeignIngest(cfg, g, next, e, upto, t);
    case Upsert(_, _, _) => ForeignUpsert(cfg, g, next, e, upto, t);
    case Update(_, _) => ForeignUpdate(cfg, g, next, e, t);
    case Delete(_) => ForeignDelete(cfg, g, next, e, t);
    case DeleteScope(_, _) => StoresConfigured(cfg, g, next); ForeignDeleteScope(cfg, g, e, t);
    case RebindSubject(_, _, _) => ForeignRebind(cfg, g, e, t);
    case _ => ReadsChangeNothing(cfg, g, next, e);
  }

  // -- whole runs -----------------------------------------------------------------------------------------------

  /** The calls of one tenant, in order. */
  function CallsOf(events: seq<Event>, t: string): seq<Event> {
    if events == [] then []
    else if events[0].tenant == t then [events[0]] + CallsOf(events[1..], t)
    else CallsOf(events[1..], t)
  }

  /** The answers one tenant saw. */
  function AnswersTo(events: seq<Event>, answers: seq<Answer>, t: string): seq<Answer>
    requires |events| == |answers|
  {
    if events == [] then []
    else if events[0].tenant == t then [answers[0]] + AnswersTo(events[1..], answers[1..], t)
    else AnswersTo(events[1..], answers[1..], t)
  }

  lemma {:induction false} RunAnswers(cfg: Config, g: State, next: nat, events: seq<Event>)
    requires Inv(cfg, g, next) && ProperRun(cfg, g.bindings, events, next)
    ensures |Run(cfg, g, next, events).1| == |events|
    decreases |events|
  {
    hide Inv, Step, Supplied, Proper;
    if events != [] {
      StepKeepsInv(cfg, g, next, events[0], After(events[0], next));
      StepBindingsAre(cfg, g, next, events[0], After(events[0], next));
      RunAnswers(cfg, Step(cfg, g, events[0]).0, After(events[0], next), events[1..]);
    }
  }

  lemma OwnProper(cfg: Config, g: State, e: Event, next: nat, upto: nat)
    requires Proper(cfg, g.bindings, e, next, upto)
    ensures Proper(cfg, Part(g, e.tenant).bindings, e, next, upto)
  {
    PartNeeds(cfg, g, e);
    PartBindings(g, e.tenant);
  }

  /** Unwinding: the whole run, seen by one tenant, is the run of that tenant's calls on that tenant's part. */
  lemma {:induction false} Unwind(cfg: Config, g: State, next: nat, h: State, early: nat, events: seq<Event>, t: string)
    requires Inv(cfg, g, next) && ProperRun(cfg, g.bindings, events, next)
    requires h == Part(g, t) && early <= next && Inv(cfg, h, early)
    ensures ProperRun(cfg, h.bindings, CallsOf(events, t), early) && |Run(cfg, g, next, events).1| == |events|
    ensures Run(cfg, h, early, CallsOf(events, t)).0 == Part(Run(cfg, g, next, events).0, t)
    ensures Run(cfg, h, early, CallsOf(events, t)).1 == AnswersTo(events, Run(cfg, g, next, events).1, t)
    decreases |events|
  {
    hide Inv, Step, Supplied, Proper, Part, After, NextBindings;
    RunAnswers(cfg, g, next, events);
    if events != [] {
      var e, rest := events[0], events[1..];
      var upto := After(e, next);
      StepKeepsInv(cfg, g, next, e, upto);
      StepBindingsAre(cfg, g, next, e, upto);
      var g1 := Step(cfg, g, e).0;
      if e.tenant == t {
        OwnProper(cfg, g, e, next, upto);
        StartEarlier(cfg, h.bindings, e, early, next);
        InvGrows(cfg, h, early, next);
        OwnStep(cfg, g, next, e, upto);
        StepKeepsInv(cfg, h, early, e, After(e, early));
        StepBindingsAre(cfg, h, early, e, After(e, early));
        Unwind(cfg, g1, upto, Step(cfg, h, e).0, After(e, early), rest, t);
        assert CallsOf(events, t) == [e] + CallsOf(rest, t);
        assert CallsOf(events, t)[1..] == CallsOf(rest, t);
      } else {
        ForeignStep(cfg, g, next, e, upto, t);
        AfterGrows(cfg, g.bindings, e, next);
        Unwind(cfg, g1, upto, h, early, rest, t);
      }
    }
  }

  lemma AfterGrows(cfg: Config, bindings: Bindings, e: Event, next: nat)
    requires Proper(cfg, bindings, e, next, After(e, next))
    ensures next <= After(e, next)
  {}

  /** From two states that agree on a tenant's part, two runs in which the tenant makes the same calls, with the same
      ids and times handed out to them, tell that tenant the same things and leave it the same part, whatever all the
      other tenants hold and do. */
  lemma {:induction false} TenantsDoNotInterfere(cfg: Config, g: State, next: nat, a: seq<Event>, h: State, later: nat,
                                                 b: seq<Event>, t: string)
    requires Inv(cfg, g, next) && ProperRun(cfg, g.bindings, a, next) && Inv(cfg, h, later)
             && ProperRun(cfg, h.bindings, b, later) && next <= later
    requires Part(g, t) == Part(h, t) && CallsOf(a, t) == CallsOf(b, t)
    ensures |Run(cfg, g, next, a).1| == |a| && |Run(cfg, h, later, b).1| == |b|
    ensures AnswersTo(a, Run(cfg, g, next, a).1, t) == AnswersTo(b, Run(cfg, h, later, b).1, t)
    ensures Part(Run(cfg, g, next, a).0, t) == Part(Run(cfg, h, later, b).0, t)
  {
    hide Inv, Part, Run, AnswersTo;
    PartInv(cfg, g, next, t);
    Unwind(cfg, g, next, Part(g, t), next, a, t);
    Unwind(cfg, h, later, Part(g, t), next, b, t);
  }
}
