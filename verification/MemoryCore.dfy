/** The core object: the catalog, one adapter per provider, and the verbs, each proved to be the gateway's step. */
module CoreVerbs {
  import opened Prelude
  import opened Scopes
  import opened Ids
  import opened MemoryIndex
  import opened Vectors
  import opened Pgvector
  import opened Gateway
  import opened GatewayInvariant
  import opened Runs
  import opened PgvectorStore
  import opened CatalogStore

  /** What a client asks for, and when. The extractor's verdict on an episode is part of the verb. */
  datatype Call = Call(tenant: string, verb: Verb, now: nat)

  class MemoryCore {
    const catalog: Catalog
    const providers: map<string, PgvectorAdapter>
    const fallback: Option<string>
    const journalEnabled: bool
    const embed: string -> Vector
    const sqrt: real -> real

    /** Distinct names have distinct stores, which share one embedder. */
    ghost predicate Wired() {
      && (forall p, q | p in providers && q in providers && providers[p] == providers[q] :: p == q)
      && (forall p | p in providers :: providers[p].embed == embed && providers[p].sqrt == sqrt)
    }

    ghost function Cfg(): Config {
      Config(map p | p in providers :: providers[p].caps, fallback, journalEnabled, embed, sqrt)
    }

    ghost function Snapshot(): State
      reads catalog, providers.Values
    {
      State(catalog.index, catalog.bindings, catalog.journal, map p | p in providers :: providers[p].rows)
    }

    /** Above every id handed out so far. */
    ghost function Next(): nat
      reads catalog.ids
    {
      catalog.ids.last.Tick() + 1
    }

    ghost predicate Valid()
      reads catalog, catalog.ids, providers.Values
    {
      Wired() && catalog.ids.last.rand < TWO_80 && Inv(Cfg(), Snapshot(), Next())
    }

    constructor (catalog: Catalog, providers: map<string, PgvectorAdapter>, fallback: Option<string>,
                 journalEnabled: bool,
                 embed: string -> Vector, sqrt: real -> real)
      requires catalog.index == map[] && catalog.journal == [] && catalog.ids.last.rand < TWO_80
      requires forall p, q | p in providers && q in providers && providers[p] == providers[q] :: p == q
      requires forall p | p in providers ::
               providers[p].rows == [] && providers[p].embed == embed && providers[p].sqrt == sqrt
      ensures Valid() && Exact(Snapshot())
      ensures this.catalog == catalog && this.providers == providers
    {
      this.catalog, this.providers, this.fallback := catalog, providers, fallback;
      this.journalEnabled, this.embed, this.sqrt := journalEnabled, embed, sqrt;
      new;
      EmptyStoresAreCoupled(Cfg(), catalog.bindings);
      assert Snapshot() == State(map[], catalog.bindings, [], map p | p in Cfg().caps :: []);
      InvGrows(Cfg(), Snapshot(), 0, Next());
    }

    // -- a client's calls -----------------------------------------------------------------------

    /** One call, whichever verb it names. What it did is one step, with the ids it drew and no others. */
    method Perform(call: Call) returns (answer: Answer, ghost e: Event)
      requires Valid() && call.tenant != ""
      modifies catalog, catalog.ids, providers.Values
      ensures Valid() && e.tenant == call.tenant && e.verb == call.verb && e.now == call.now
      ensures Proper(Cfg(), old(Snapshot()).bindings, e, old(Next()), Next()) && Supplied(Cfg(), old(Snapshot()), e)
      ensures Step(Cfg(), old(Snapshot()), e) == (Snapshot(), answer)
    {
      hide Inv, Exact, Snapshot, Cfg, Prepare, Increasing, Needs,
           StepIngest, StepUpsert, StepUpdate, StepSearch, StepList, StepGet, StepDelete, StepDeleteScope, StepRebind;
      var tenant, now := call.tenant, call.now;
      ghost var drawn: seq<nat> := [];
      NothingDrawn(Next());
      match call.verb {
        case Ingest(facts, payload, scope, asserted) => answer, drawn :=
            Ingest(tenant, facts, payload, scope, asserted, now);
        case Upsert(facts, scope, asserted) => answer, drawn := Upsert(tenant, facts, scope, asserted, now);
        case Update(id, content) => answer, drawn := Update(tenant, id, content, now);
        case Search(query, scope, asserted) => answer, drawn := Search(tenant, query, scope, asserted, now);
        case ListScope(scope, limit, asserted) => answer, drawn := ListScope(tenant, scope, limit, asserted, now);
        case Get(id) => answer := Get(tenant, id, now);
        case Delete(id) => answer := Delete(tenant, id, now);
        case DeleteScope(scope, asserted) => answer := DeleteScope(tenant, scope, asserted, now);
        case RebindSubject(subject, provider, migrate) => answer := Rebind(tenant, subject, provider, migrate, now);
      }
      e := Event(tenant, call.verb, drawn, now);
      NeedsOfOthers(Cfg(), old(Snapshot()).bindings, e);
    }

    /** A client's calls, one after another, are a run: every theorem about runs is about them. */
    method PerformAll(calls: seq<Call>) returns (answers: seq<Answer>, ghost events: seq<Event>)
      requires Valid() && forall c | c in calls :: c.tenant != ""
      modifies catalog, catalog.ids, providers.Values
      ensures Valid() && |events| == |calls|
      ensures forall i | 0 <= i < |calls| ::
              events[i] == Event(calls[i].tenant, calls[i].verb, events[i].ids, calls[i].now)
      ensures Inv(Cfg(), old(Snapshot()), old(Next()))
      ensures ProperRun(Cfg(), old(Snapshot()).bindings, events, old(Next()))
      ensures Run(Cfg(), old(Snapshot()), old(Next()), events) == (Snapshot(), answers)
      decreases |calls|
    {
      hide Inv, Exact, Snapshot, Cfg, Step, Supplied, Proper, NextBindings;
      ghost var g, cfg, next := Snapshot(), Cfg(), Next();
      if calls == [] { return [], []; }
      ghost var e: Event, rest: seq<Event>;
      var answer: Answer, later: seq<Answer>;
      assert calls[0] in calls && forall c | c in calls[1..] :: c in calls;
      answer, e := Perform(calls[0]);
      ghost var mid, upto := Snapshot(), Next();
      ProperTight(cfg, g.bindings, e, next, upto);
      StepKeepsInv(cfg, g, next, e, Runs.After(e, next));
      StepBindingsAre(cfg, g, next, e, Runs.After(e, next));
      later, rest := PerformAll(calls[1..]);
      EarlierStart(cfg, mid, Runs.After(e, next), upto, rest);
      answers, events := [answer] + later, [e] + rest;
      assert events[1..] == rest;
    }

    // -- internals --------------------------------------------------------------------------

    method PrepareScope(tenant: string, scope: Scope, asserted: Option<string>) returns (name: Result<string, Error>)
      ensures name == Prepare(Cfg(), catalog.bindings, tenant, scope, asserted)
      ensures name.Ok? ==> name.value in providers
    {
      var bound := catalog.Bound(tenant, scope.subject);
      name := ResolveProvider(bound, fallback, asserted);
      if name.Err? { return; }
      if name.value !in providers { return Err(UnknownProvider(name.value)); }
      if !ScopeSupported(scope.Under(tenant), providers[name.value].caps) { return Err(UnsupportedCapability); }
    }

    /** Changing one adapter's table changes one store of the snapshot, and nothing of the configuration. */
    twostate lemma OnlyStore(name: string)
      requires Wired() && name in providers
      requires forall a | a in providers.Values && a != providers[name] :: a.rows == old(a.rows)
      requires catalog.index == old(catalog.index) && catalog.bindings == old(catalog.bindings)
               && catalog.journal == old(catalog.journal)
      ensures Snapshot() == old(Snapshot()).(stores := old(Snapshot()).stores[name := providers[name].rows])
    {}

    twostate lemma OnlyCatalog()
      requires forall a | a in providers.Values :: a.rows == old(a.rows)
      ensures Snapshot() == old(Snapshot()).(index := catalog.index, bindings := catalog.bindings, journal :=
                                             catalog.journal)
    {}

    lemma StoreOfSnapshot(name: string)
      requires name in providers
      ensures name in Snapshot().stores && Snapshot().stores[name] == StoreOf(Snapshot(), name) == providers[name].rows
    {}

    lemma Tables()
      ensures Cfg().embed == embed && Cfg().sqrt == sqrt && Cfg().journalEnabled == journalEnabled
      ensures Snapshot().index == catalog.index && Snapshot().bindings == catalog.bindings
              && Snapshot().journal == catalog.journal
    {}

    lemma Configured(name: string)
      requires Wired() && name in providers
      ensures name in Cfg().caps && Cfg().caps[name] == providers[name].caps
      ensures embed == providers[name].embed && sqrt == providers[name].sqrt
    {}

    /** Store the facts, mint their gateway ids on the reviving path, bind the subject. */
    method Write(tenant: string, name: string, facts: seq<string>, scope: Scope, now: nat)
      returns (answer: Answer, memories: seq<ProviderMemory>, ghost drawn: seq<nat>)
      requires Valid() && tenant != "" && name in providers
      modifies catalog, catalog.ids, providers[name]
      ensures Valid() && old(Next()) <= Next() && |drawn| == 2 * |facts| && FreshIds(drawn, old(Next()), Next())
      ensures WriteFacts(Cfg(), old(Snapshot()), tenant, name, facts, scope, drawn, now) == (Snapshot(), answer)
      ensures memories == Map(NewRows(facts, embed, scope.Under(tenant), drawn[..|facts|], now), Listed())
      ensures Exact(old(Snapshot())) ==> Exact(Snapshot())
    {
      hide WriteFacts, NewRows, MapPage, MissingAt, FreshIds, Inv, Exact, IndexOk, Map, Items, WriteRecords, ByNative,
           Snapshot, Cfg;
      ghost var g, cfg, next := Snapshot(), Cfg(), Next();
      Tables();
      Configured(name);
      StoreOfSnapshot(name);
      ghost var early: seq<nat>, late: seq<nat>;
      label Before:
      memories, early := providers[name].Upsert(catalog.ids, facts, scope.Under(tenant), now);
      OnlyStore@Before(name);
      ghost var mid := Next();
      InvIndex(cfg, g, next);
      FreshWritePage(cfg, g, tenant, name, facts, scope, early, now, next, mid);
      var rows: Result<seq<CatalogRow>, Error>;
      label Stored:
      rows, late := catalog.MapItems(tenant, name, Items(memories), scope, true);
      drawn := early + late;
      FreshConcat(early, late, next, mid, Next());
      assert drawn[..|facts|] == early && drawn[|facts|..2 * |facts|] == late;
      WriteUnfolds(cfg, g, tenant, name, facts, scope, drawn, now);
      WriteFactsKeepsInv(cfg, g, tenant, name, facts, scope, drawn, now, next, Next());
      if rows.Err? {
        OnlyCatalog@Stored();
        answer := Failed(rows.error);
        return;
      }
      var records := WriteRecords(memories, ByNative(rows.value), name, scope);
      var bound := catalog.BindFirst(tenant, scope.subject, name);
      OnlyCatalog@Stored();
      answer := Written(records, name);
    }

    // -- write ----------------------------------------------------------------------------------

    method Upsert(tenant: string, facts: seq<string>, scope: Scope, asserted: Option<string>, now: nat)
      returns (answer: Answer, ghost drawn: seq<nat>)
      requires Valid() && tenant != ""
      modifies catalog, catalog.ids, providers.Values
      ensures Valid() && old(Next()) <= Next() && FreshIds(drawn, old(Next()), Next())
      ensures Supplied(Cfg(), old(Snapshot()), Event(tenant, Verb.Upsert(facts, scope, asserted), drawn, now))
      ensures StepUpsert(Cfg(), old(Snapshot()), Event(tenant, Verb.Upsert(facts, scope, asserted), drawn, now))
              == (Snapshot(), answer)
    {
      hide WriteFacts, Inv, Prepare, Increasing;
      drawn := [];
      NothingDrawn(Next());
      if facts == [] { return Failed(EmptyUpsert), drawn; }
      var name := PrepareScope(tenant, scope, asserted);
      if name.Err? { return Failed(name.error), drawn; }
      if !providers[name.value].caps.supportsUpsert { return Failed(UnsupportedCapability), drawn; }
      var memories: seq<ProviderMemory>;
      answer, memories, drawn := Write(tenant, name.value, facts, scope, now);
    }

    /** The extractor's verdict on the episode is passed in. */
    method Ingest(tenant: string, facts: seq<string>, payload: string, scope: Scope, asserted: Option<string>, now: nat)
      returns (answer: Answer, ghost drawn: seq<nat>)
      requires Valid() && tenant != ""
      modifies catalog, catalog.ids, providers.Values
      ensures Valid() && old(Next()) <= Next() && FreshIds(drawn, old(Next()), Next())
      ensures Supplied(Cfg(), old(Snapshot()), Event(tenant, Verb.Ingest(facts, payload, scope, asserted), drawn, now))
      ensures StepIngest(Cfg(), old(Snapshot()),
                         Event(tenant, Verb.Ingest(facts, payload, scope, asserted), drawn, now))
                             == (Snapshot(), answer)
    {
      hide WriteFacts, Inv, Exact, Prepare, Increasing, Map, NewRows, Episode, StepIngest, Snapshot, Cfg;
      ghost var g, cfg, next := Snapshot(), Cfg(), Next();
      Tables();
      ghost var verb := Verb.Ingest(facts, payload, scope, asserted);
      drawn := [];
      NothingDrawn(Next());
      IngestRefused(cfg, g, Event(tenant, verb, drawn, now));
      var name := PrepareScope(tenant, scope, asserted);
      if name.Err? { return Failed(name.error), drawn; }
      Configured(name.value);
      if !providers[name.value].caps.supportsIngest { return Failed(UnsupportedCapability), drawn; }
      answer, drawn := WriteEpisode(tenant, name.value, facts, payload, scope, asserted, now);
    }

    /** The write, and then its episode. */
    method WriteEpisode(tenant: string, name: string, facts: seq<string>, payload: string, scope: Scope,
                        asserted: Option<string>, now: nat)
      returns (answer: Answer, ghost drawn: seq<nat>)
      requires Valid() && tenant != "" && name in providers && providers[name].caps.supportsIngest
      requires Prepare(Cfg(), catalog.bindings, tenant, scope, asserted) == Ok(name)
      modifies catalog, catalog.ids, providers[name]
      ensures Valid() && old(Next()) <= Next() && FreshIds(drawn, old(Next()), Next())
      ensures Supplied(Cfg(), old(Snapshot()), Event(tenant, Verb.Ingest(facts, payload, scope, asserted), drawn, now))
      ensures StepIngest(Cfg(), old(Snapshot()),
                         Event(tenant, Verb.Ingest(facts, payload, scope, asserted), drawn, now))
                             == (Snapshot(), answer)
    {
      hide WriteFacts, Inv, Exact, Prepare, FreshIds, Map, NewRows, Episode, StepIngest, Snapshot, Cfg;
      ghost var g, cfg, next := Snapshot(), Cfg(), Next();
      Tables();
      ghost var verb := Verb.Ingest(facts, payload, scope, asserted);
      Configured(name);
      StoreOfSnapshot(name);
      var memories: seq<ProviderMemory>;
      ghost var early: seq<nat>;
      answer, memories, early := Write(tenant, name, facts, scope, now);
      ghost var mid := Next();
      drawn := early;
      WriteSucceeds(cfg, g, tenant, name, facts, scope, early, now, next, mid);
      IngestUnfolds(cfg, g, Event(tenant, verb, drawn, now), name, early);
      if answer.Failed? || !journalEnabled { return; }
      var natives := Map(memories, NativeIn());
      Tables();
      label Wrote:
      var episode := catalog.AppendEpisode(tenant, scope, payload, name, natives);
      OnlyCatalog@Wrote();
      drawn := early + [episode];
      FreshSnoc(early, episode, next, mid, Next());
      ghost var e := Event(tenant, verb, drawn, now);
      IngestUnfolds(cfg, g, e, name, early);
      EpisodeNatives(cfg, e, name, early, memories);
      IngestKeepsInv(cfg, g, next, e, Next());
    }

    method Update(tenant: string, id: nat, content: string, now: nat) returns (answer: Answer, ghost drawn: seq<nat>)
      requires Valid() && tenant != ""
      modifies catalog, catalog.ids, providers.Values
      ensures Valid() && old(Next()) <= Next() && FreshIds(drawn, old(Next()), Next())
      ensures Supplied(Cfg(), old(Snapshot()), Event(tenant, Verb.Update(id, content), drawn, now))
      ensures StepUpdate(Cfg(), old(Snapshot()), Event(tenant, Verb.Update(id, content), drawn, now))
              == (Snapshot(), answer)
    {
      hide Inv, Exact, Increasing, Edited, MapPage, MissingAt, FindRow, Resolve, StepUpdate, IdsUnique, Snapshot, Cfg,
           Supplied;
      ghost var g, cfg, next := Snapshot(), Cfg(), Next();
      Tables();
      drawn := [];
      NothingDrawn(Next());
      ghost var e := Event(tenant, Verb.Update(id, content), drawn, now);
      UpdateKeepsInv(cfg, g, next, e);
      var row := FindOwned(tenant, id);
      UpdateUnresolved(cfg, g, e);
      if row.None? { return Failed(MemoryNotFound), drawn; }
      UpdateUnfolds(cfg, g, e, RowKey(row.value));
      var provider := row.value.provider;
      UnknownName(provider);
      if provider !in providers { return Failed(UnknownProvider(provider)), drawn; }
      Configured(provider);
      if !providers[provider].caps.supportsUpdate { return Failed(UnsupportedCapability), drawn; }
      answer, drawn := EditAndMap(tenant, id, row.value, content, now);
    }

    method EditAndMap(tenant: string, id: nat, row: CatalogRow, content: string, now: nat)
        returns (answer: Answer, ghost drawn: seq<nat>)
      requires Valid() && row.provider in providers && providers[row.provider].caps.supportsUpdate
      requires OwnedRow(Snapshot(), tenant, id, row)
      modifies catalog, catalog.ids, providers[row.provider]
      ensures Valid() && old(Next()) <= Next() && FreshIds(drawn, old(Next()), Next())
      ensures Supplied(Cfg(), old(Snapshot()), Event(tenant, Verb.Update(id, content), drawn, now))
      ensures StepUpdate(Cfg(), old(Snapshot()), Event(tenant, Verb.Update(id, content), drawn, now))
              == (Snapshot(), answer)
    {
      hide Inv, Exact, Increasing, Edited, MapPage, MissingAt, FindRow, Resolve, StepUpdate, IdsUnique, Snapshot, Cfg,
           Supplied;
      ghost var g, cfg, next, k := Snapshot(), Cfg(), Next(), RowKey(row);
      Tables();
      var provider, native := row.provider, row.native;
      Configured(provider);
      StoreOfSnapshot(provider);
      drawn := [];
      NothingDrawn(Next());
      ghost var e := Event(tenant, Verb.Update(id, content), drawn, now);
      UpdateKeepsInv(cfg, g, next, e);
      UpdateUnfolds(cfg, g, e, k);
      if native.Foreign? { return Failed(MemoryNotFound), drawn; }
      label Before:
      var memory := providers[provider].Update(native.tick, content, now);
      OnlyStore@Before(provider);
      if memory.Err? {
        OnlyCatalog@Before();
        return Failed(memory.error), drawn;
      }
      label Edited:
      var rows: Result<seq<CatalogRow>, Error>;
      rows, drawn := catalog.MapItems(tenant, provider, [Item(native, content)], row.RowScope(), true);
      OnlyCatalog@Edited();
      answer := if rows.Err? then Failed(rows.error)
                else One(ToRecord(row.gatewayId, provider, memory.value, row.RowScope()));
      e := e.(ids := drawn);
      UpdateKeepsInv(cfg, g, next, e);
      UpdateUnfolds(cfg, g, e, k);
      InvGrows(cfg, Snapshot(), next, Next());
    }

    // -- read -----------------------------------------------------------------------------------

    /** Mapped on the path that never revives and never overwrites a stored scope. */
    method MapFound(tenant: string, name: string, memories: seq<ProviderMemory>, scope: Scope)
      returns (records: Result<seq<Record>, Error>, ghost drawn: seq<nat>)
      requires Valid() && name in providers
      modifies catalog`index, catalog.ids
      ensures catalog.ids.last.rand < TWO_80 && old(Next()) <= Next() && FreshIds(drawn, old(Next()), Next())
      ensures |MissingAt(old(Snapshot()).index, tenant, name, Items(memories))| <= |drawn|
      ensures MapHits(old(Snapshot()), tenant, name, memories, scope, drawn) == (Snapshot(), records)
    {
      hide MapPage, MissingAt, FreshIds, Inv, Items, ReadRecords, ByNative, Snapshot;
      ghost var g := Snapshot();
      Tables();
      label Before:
      var rows: Result<seq<CatalogRow>, Error>;
      rows, drawn := catalog.MapItems(tenant, name, Items(memories), scope, false);
      OnlyCatalog@Before();
      records := if rows.Err? then Err(rows.error) else Ok(ReadRecords(memories, ByNative(rows.value), name));
    }

    method Search(tenant: string, query: Query, scope: Scope, asserted: Option<string>, now: nat)
      returns (answer: Answer, ghost drawn: seq<nat>)
      requires Valid() && tenant != ""
      modifies catalog`index, catalog.ids
      ensures Valid() && old(Next()) <= Next() && FreshIds(drawn, old(Next()), Next()) && Snapshot() == old(Snapshot())
      ensures Supplied(Cfg(), old(Snapshot()), Event(tenant, Verb.Search(query, scope, asserted), drawn, now))
      ensures StepSearch(Cfg(), old(Snapshot()), Event(tenant, Verb.Search(query, scope, asserted), drawn, now))
              == (Snapshot(), answer)
    {
      hide Inv, Prepare, Supplied, StepSearch, MapHits, MissingAt, Items, Snapshot, Cfg, Map, SearchInPython;
      ghost var g, cfg, next := Snapshot(), Cfg(), Next();
      Tables();
      ghost var verb := Verb.Search(query, scope, asserted);
      drawn := [];
      NothingDrawn(Next());
      SearchIs(cfg, g, next, Event(tenant, verb, drawn, now));
      var name := PrepareScope(tenant, scope, asserted);
      if name.Err? { return Failed(name.error), drawn; }
      var adapter := providers[name.value];
      Configured(name.value);
      StoreOfSnapshot(name.value);
      if query.asOf && Temporal !in adapter.caps.searchModes { return Failed(UnsupportedCapability), drawn; }
      var served := ResolveMode(query.mode, adapter.caps, query.degrade);
      if served.Err? { return Failed(served.error), drawn; }
      var effective := query.(mode := served.value.served, limit := Min(query.limit, adapter.caps.maxLimit));
      var memories := adapter.Search(effective, scope.Under(tenant));
      if memories.Err? { return Failed(memories.error), drawn; }
      SearchModeIsSpent(StoreOf(g, name.value), scope.Under(tenant), embed(query.text), effective, query.mode, sqrt);
      SearchHits(cfg, g, tenant, name.value, verb);
      var records: Result<seq<Record>, Error>;
      records, drawn := MapFound(tenant, name.value, memories.value, scope);
      ghost var e := Event(tenant, verb, drawn, now);
      SearchIs(cfg, g, next, e);
      SearchUnfolds(cfg, g, e, name.value);
      answer := if records.Err? then Failed(records.error)
          else Found(records.value, name.value, query.mode, served.value);
      InvGrows(cfg, g, next, Next());
    }

    method ListScope(tenant: string, scope: Scope, limit: nat, asserted: Option<string>, now: nat)
      returns (answer: Answer, ghost drawn: seq<nat>)
      requires Valid() && tenant != ""
      modifies catalog`index, catalog.ids
      ensures Valid() && old(Next()) <= Next() && FreshIds(drawn, old(Next()), Next()) && Snapshot() == old(Snapshot())
      ensures Supplied(Cfg(), old(Snapshot()), Event(tenant, Verb.ListScope(scope, limit, asserted), drawn, now))
      ensures StepList(Cfg(), old(Snapshot()), Event(tenant, Verb.ListScope(scope, limit, asserted), drawn, now))
              == (Snapshot(), answer)
    {
      hide Inv, Prepare, Supplied, StepList, MapHits, MissingAt, Items, Snapshot, Cfg, Map, RowsInScope;
      ghost var g, cfg, next := Snapshot(), Cfg(), Next();
      Tables();
      ghost var verb := Verb.ListScope(scope, limit, asserted);
      drawn := [];
      NothingDrawn(Next());
      ListIs(cfg, g, next, Event(tenant, verb, drawn, now));
      var name := PrepareScope(tenant, scope, asserted);
      if name.Err? { return Failed(name.error), drawn; }
      var adapter := providers[name.value];
      Configured(name.value);
      StoreOfSnapshot(name.value);
      if !adapter.caps.supportsList { return Failed(UnsupportedCapability), drawn; }
      var memories := adapter.ListScope(scope.Under(tenant), Min(limit, adapter.caps.maxLimit));
      var records: Result<seq<Record>, Error>;
      records, drawn := MapFound(tenant, name.value, memories, scope);
      ghost var e := Event(tenant, verb, drawn, now);
      ListIs(cfg, g, next, e);
      ListUnfolds(cfg, g, e, name.value);
      answer := if records.Err? then Failed(records.error) else Listing(records.value);
      InvGrows(cfg, g, next, Next());
    }

    method Get(tenant: string, id: nat, now: nat) returns (answer: Answer)
      requires Valid()
      ensures StepGet(Cfg(), Snapshot(), Event(tenant, Verb.Get(id), [], now)) == (Snapshot(), answer)
    {
      hide Inv, Resolve, FindRow, Snapshot, Cfg;
      Tables();
      var row := FindOwned(tenant, id);
      if row.None? { return Failed(MemoryNotFound); }
      var provider, native := row.value.provider, row.value.native;
      UnknownName(provider);
      if provider !in providers { return Failed(UnknownProvider(provider)); }
      StoreOfSnapshot(provider);
      if native.Foreign? { return Failed(MemoryNotFound); }
      var memory := providers[provider].Get(native.tick);
      if memory.None? { return Failed(MemoryNotFound); }
      answer := One(ToRecord(row.value.gatewayId, provider, memory.value, row.value.RowScope()));
    }

    // -- delete ---------------------------------------------------------------------------------

    method Delete(tenant: string, id: nat, now: nat) returns (answer: Answer)
      requires Valid()
      modifies catalog`index, providers.Values
      ensures Valid()
      ensures StepDelete(Cfg(), old(Snapshot()), Event(tenant, Verb.Delete(id), [], now)) == (Snapshot(), answer)
    {
      hide Inv, Exact, Resolve, Filter, MarkDeleted, Snapshot, Cfg;
      ghost var g, cfg, next := Snapshot(), Cfg(), Next();
      Tables();
      DeleteKeepsInv(cfg, g, next, Event(tenant, Verb.Delete(id), [], now));
      var row := FindOwned(tenant, id);
      if row.None? { return Failed(MemoryNotFound); }
      var provider, native := row.value.provider, row.value.native;
      UnknownName(provider);
      if provider !in providers { return Failed(UnknownProvider(provider)); }
      Configured(provider);
      StoreOfSnapshot(provider);
      if !providers[provider].caps.supportsDelete { return Failed(UnsupportedCapability); }
      label Before:
      if native.Minted? {
        var existed := providers[provider].Delete(native.tick);
      }
      OnlyStore@Before(provider);
      label Deleted:
      var any := catalog.MarkOneDeleted(tenant, id);
      OnlyCatalog@Deleted();
      answer := Done;
    }

    /** At the provider, then in the index, then in the journal. */
    method DeleteScope(tenant: string, scope: Scope, asserted: Option<string>, now: nat) returns (answer: Answer)
      requires Valid() && tenant != ""
      modifies catalog`index, catalog`journal, providers.Values
      ensures Valid()
      ensures StepDeleteScope(Cfg(), old(Snapshot()), Event(tenant, Verb.DeleteScope(scope, asserted), [], now))
              == (Snapshot(), answer)
    {
      hide Inv, Exact, Prepare, Filter, MarkScopeDeleted, DistinctTicks, Snapshot, Cfg;
      ghost var g, cfg, next := Snapshot(), Cfg(), Next();
      Tables();
      DeleteScopeKeepsInv(cfg, g, next, Event(tenant, Verb.DeleteScope(scope, asserted), [], now));
      var name := PrepareScope(tenant, scope, asserted);
      if name.Err? { return Failed(name.error); }
      Configured(name.value);
      StoreOfSnapshot(name.value);
      if !providers[name.value].caps.supportsDeleteByScope { return Failed(UnsupportedCapability); }
      InvDistinct(cfg, g, next, name.value);
      label Before:
      var removed := providers[name.value].DeleteScope(scope.Under(tenant));
      OnlyStore@Before(name.value);
      label Erased:
      var marked := catalog.MarkManyDeleted(tenant, scope, name.value);
      var episodes := catalog.EraseEpisodes(tenant, scope);
      OnlyCatalog@Erased();
      answer := Removed(removed);
    }

    // -- binding --------------------------------------------------------------------------------

    method Rebind(tenant: string, subject: string, provider: string, migrate: bool, now: nat) returns (answer: Answer)
      requires Valid()
      modifies catalog`bindings
      ensures Valid()
      ensures StepRebind(Cfg(), old(Snapshot()), Event(tenant, RebindSubject(subject, provider, migrate), [], now))
              == (Snapshot(), answer)
    {
      hide Inv, Exact, Snapshot, Cfg, RebindReport;
      Tables();
      ghost var g, cfg := Snapshot(), Cfg();
      if migrate { return Failed(NotImplementedYet); }
      UnknownName(provider);
      if provider !in providers { return Failed(UnknownProvider(provider)); }
      BindingsKeepInv(cfg, g, Next(), MemoryIndex.Rebind(g.bindings, tenant, subject, provider));
      label Before:
      var report := catalog.RebindTo(tenant, subject, provider);
      OnlyCatalog@Before();
      answer := Rebound(report);
    }

    /** The row a gateway id names for this tenant, with the key it stands under. */
    method FindOwned(tenant: string, id: nat) returns (row: Option<CatalogRow>)
      requires Valid()
      ensures row.None? ==> Resolve(Snapshot().index, tenant, id) == None
      ensures row.Some? ==> OwnedRow(Snapshot(), tenant, id, row.value)
    {
      InvIdsUnique(Cfg(), Snapshot(), Next());
      row := catalog.ResolveGatewayId(tenant, id);
    }

    lemma UnknownName(name: string)
      ensures name in Cfg().caps <==> name in providers
    {}
  }

  function RowKey(row: CatalogRow): Key { Key(row.tenant, row.provider, row.native) }

  ghost predicate OwnedRow(g: State, tenant: string, id: nat, row: CatalogRow) {
    var k := RowKey(row);
    Resolve(g.index, tenant, id) == Some(k) && Owns(g.index, k, tenant, id) && row == ToRow(k, g.index[k])
  }

  lemma FreshConcat(early: seq<nat>, late: seq<nat>, next: nat, mid: nat, upto: nat)
    requires FreshIds(early, next, mid) && FreshIds(late, mid, upto)
    ensures FreshIds(early + late, next, upto)
  {
    var all := early + late;
    forall i, j | 0 <= i < j < |all|
      ensures all[i] < all[j]
    {
      if i < |early| <= j { assert all[i] in early && all[j] in late; }
    }
  }

  function NativeIn(): ProviderMemory -> Native { (m: ProviderMemory) => m.native }

  lemma NothingDrawn(next: nat)
    ensures FreshIds([], next, next)
  {}

  lemma IngestRefused(cfg: Config, g: State, e: Event)
    requires e.verb.Ingest?
    ensures var name := Prepare(cfg, g.bindings, e.tenant, e.verb.scope, e.verb.asserted);
            && (name.Err? ==> Supplied(cfg, g, e) && StepIngest(cfg, g, e) == (g, Failed(name.error)))
            && (name.Ok? && !cfg.caps[name.value].supportsIngest ==>
                  Supplied(cfg, g, e) && StepIngest(cfg, g, e) == (g, Failed(UnsupportedCapability)))
  {}

  /** An ingest is a write, which looks at no more ids than it needs, and then perhaps an episode. */
  lemma IngestUnfolds(cfg: Config, g: State, e: Event, name: string, early: seq<nat>)
    requires e.verb.Ingest? && |early| == 2 * |e.verb.facts| && early <= e.ids
    requires Prepare(cfg, g.bindings, e.tenant, e.verb.scope, e.verb.asserted) == Ok(name)
             && cfg.caps[name].supportsIngest
    ensures Supplied(cfg, g, e) <==> (cfg.journalEnabled ==> |e.ids| > |early|)
    ensures Supplied(cfg, g, e) ==>
              var (after, answer) := WriteFacts(cfg, g, e.tenant, name, e.verb.facts, e.verb.scope, early, e.now);
              StepIngest(cfg, g, e) ==
                if answer.Failed? || !cfg.journalEnabled then (after, answer)
                else (after.(journal := after.journal + [Episode(e, name)]), answer)
  {
    var n := |e.verb.facts|;
    assert e.ids[..n] == early[..n] && e.ids[n..2 * n] == early[n..2 * n];
    assert WriteFacts(cfg, g, e.tenant, name, e.verb.facts, e.verb.scope, e.ids, e.now)
        == WriteFacts(cfg, g, e.tenant, name, e.verb.facts, e.verb.scope, early, e.now);
    hide WriteFacts, Prepare, Episode;
  }

  lemma UpdateUnresolved(cfg: Config, g: State, e: Event)
    requires e.verb.Update? && Supplied(cfg, g, e)
    ensures var found := Resolve(g.index, e.tenant, e.verb.id);
            (found.None? ==> StepUpdate(cfg, g, e) == (g, Failed(MemoryNotFound)))
            && (found.Some? ==> Owns(g.index, found.value, e.tenant, e.verb.id))
  {}

  /** An update that resolves: refused, or absent from the store, or one row edited and its page mapped. */
  lemma UpdateUnfolds(cfg: Config, g: State, e: Event, k: Key)
    requires e.verb.Update? && Supplied(cfg, g, e) && Resolve(g.index, e.tenant, e.verb.id) == Some(k) && k in g.index
    ensures k.provider !in cfg.caps ==> StepUpdate(cfg, g, e) == (g, Failed(UnknownProvider(k.provider)))
    ensures k.provider in cfg.caps && !cfg.caps[k.provider].supportsUpdate ==>
            StepUpdate(cfg, g, e) == (g, Failed(UnsupportedCapability))
    ensures k.provider in cfg.caps && cfg.caps[k.provider].supportsUpdate && RowAt(g, k).None? ==>
            StepUpdate(cfg, g, e) == (g, Failed(MemoryNotFound))
    ensures k.provider in cfg.caps && cfg.caps[k.provider].supportsUpdate && RowAt(g, k).Some? ==>
              var row := ToRow(k, g.index[k]);
              var items := [Item(k.native, e.verb.content)];
              && |MissingAt(g.index, e.tenant, k.provider, items)| <= |e.ids|
              && var page := MapPage(g.index, e.tenant, k.provider, items, row.RowScope(), true, e.ids);
                 var rows := Edited(StoreOf(g, k.provider), k.native.tick, e.verb.content, cfg.embed(e.verb.content),
                                    e.now);
                 var stored := g.(stores := g.stores[k.provider := rows]);
                 StepUpdate(cfg, g, e) ==
                   if page.Err? then (stored, Failed(page.error))
                   else (stored.(index := page.value.0),
                         One(ToRecord(row.gatewayId, k.provider, ToMemory(EditedRow(cfg, e, RowAt(g, k).value), None),
                                      row.RowScope())))
  {
    hide MapPage, MissingAt, Edited, FindRow, Resolve;
  }

  /** The natives journalled are those the store minted. */
  lemma EpisodeNatives(cfg: Config, e: Event, name: string, early: seq<nat>, memories: seq<ProviderMemory>)
    requires e.verb.Ingest? && 2 * |e.verb.facts| == |early| && |e.ids| == |early| + 1 && early <= e.ids
    requires memories == Map(NewRows(e.verb.facts, cfg.embed, e.verb.scope.Under(e.tenant), early[..|e.verb.facts|],
                                     e.now), Listed())
    ensures Episode(e, name) == JournalRow(e.ids[|early|], e.tenant, e.verb.scope.subject, e.verb.scope.agent,
                                           e.verb.scope.session,
                                           e.verb.payload, name, Map(memories, NativeIn()))
  {
    hide NewRows, Map;
    var n := |e.verb.facts|;
    WriteItems(cfg, e.verb.facts, e.verb.scope.Under(e.tenant), early[..n], e.now);
    assert e.ids[..n] == early[..n];
    assert Map(e.ids[..n], MintedNative()) == Map(memories, NativeIn());
  }

  lemma InvIndex(cfg: Config, g: State, next: nat)
    requires Inv(cfg, g, next)
    ensures IndexOk(g.index, next)
  {}

  lemma InvIdsUnique(cfg: Config, g: State, next: nat)
    requires Inv(cfg, g, next)
    ensures IdsUnique(g.index)
  {}

  lemma InvDistinct(cfg: Config, g: State, next: nat, name: string)
    requires Inv(cfg, g, next) && name in g.stores
    ensures DistinctTicks(g.stores[name])
  {}

  /** Ranking does not look at the mode. */
  lemma SearchModeIsSpent(rows: seq<PgRow>, f: Scope, needle: Vector, query: Query, mode: Mode, sqrt: real -> real)
    ensures SearchInPython(rows, f, needle, query, sqrt) == SearchInPython(rows, f, needle, query.(mode := mode), sqrt)
  {}

  lemma SearchHits(cfg: Config, g: State, tenant: string, name: string, verb: Verb)
    requires verb.Search? && name in cfg.caps
    ensures var q := verb.query.(limit := Min(verb.query.limit, cfg.caps[name].maxLimit));
            Hits(cfg, g, tenant, name, verb)
              == Map(SearchInPython(StoreOf(g, name), verb.scope.Under(tenant), cfg.embed(q.text), q, cfg.sqrt), Hit())
  {}

  lemma SearchUnfolds(cfg: Config, g: State, e: Event, name: string)
    requires e.verb.Search? && Supplied(cfg, g, e)
             && Prepare(cfg, g.bindings, e.tenant, e.verb.scope, e.verb.asserted) == Ok(name)
    requires SearchRefusal(cfg.caps[name], e.verb.query).None?
    ensures |MissingAt(g.index, e.tenant, name, Items(Hits(cfg, g, e.tenant, name, e.verb)))| <= |e.ids|
    ensures var (after, records) := MapHits(g, e.tenant, name, Hits(cfg, g, e.tenant, name, e.verb), e.verb.scope,
                                            e.ids);
            StepSearch(cfg, g, e) ==
              (after, if records.Err? then Failed(records.error)
               else Found(records.value, name, e.verb.query.mode, Decided(cfg.caps[name], e.verb.query)))
  {
    hide Prepare, Hits, MapHits, MissingAt, Items;
  }

  lemma ListUnfolds(cfg: Config, g: State, e: Event, name: string)
    requires e.verb.ListScope? && Supplied(cfg, g, e)
             && Prepare(cfg, g.bindings, e.tenant, e.verb.scope, e.verb.asserted) == Ok(name)
    requires cfg.caps[name].supportsList
    ensures |MissingAt(g.index, e.tenant, name, Items(Hits(cfg, g, e.tenant, name, e.verb)))| <= |e.ids|
    ensures var (after, records) := MapHits(g, e.tenant, name, Hits(cfg, g, e.tenant, name, e.verb), e.verb.scope,
                                            e.ids);
            StepList(cfg, g, e) == (after, if records.Err? then Failed(records.error) else Listing(records.value))
  {
    hide Prepare, Hits, MapHits, MissingAt, Items;
  }

  lemma NeedsOfOthers(cfg: Config, bindings: Bindings, e: Event)
    ensures !(e.verb.Upsert? || e.verb.Ingest?) ==> Needs(cfg, bindings, e) == 0
  {}
}
