/** The gateway as a state machine: the catalog and one store per provider, with every verb of the core as one step. */
module Gateway {
  import opened Prelude
  import opened Scopes
  import opened MemoryIndex
  import opened Vectors
  import opened Pgvector

  datatype Config = Config(
    caps: map<string, Capabilities>, fallback: Option<string>, journalEnabled: bool,
    embed: string -> Vector, sqrt: real -> real)

  datatype State = State(index: Index, bindings: Bindings, journal: seq<JournalRow>, stores: map<string, seq<PgRow>>)

  /** The extractor's verdict on an episode is part of the verb. */
  datatype Verb =
    | Ingest(facts: seq<string>, payload: string, scope: Scope, asserted: Option<string>)
    | Upsert(facts: seq<string>, scope: Scope, asserted: Option<string>)
    | Update(id: nat, content: string)
    | Search(query: Query, scope: Scope, asserted: Option<string>)
    | ListScope(scope: Scope, limit: nat, asserted: Option<string>)
    | Get(id: nat)
    | Delete(id: nat)
    | DeleteScope(scope: Scope, asserted: Option<string>)
    | RebindSubject(subject: string, provider: string, migrate: bool)

  /** A verb called under a credential, with the ids handed out and the time read while it runs. */
  datatype Event = Event(tenant: string, verb: Verb, ids: seq<nat>, now: nat)

  datatype Record = Record(
    id: nat, provider: string, native: Native, content: string, scope: Scope,
    score: Option<real>, createdAt: nat, updatedAt: nat)

  datatype Answer =
    | Written(records: seq<Record>, provider: string)
    | Listing(records: seq<Record>)
    | Found(records: seq<Record>, provider: string, requested: Mode, decision: Decision)
    | One(record: Record)
    | Removed(count: nat)
    | Done
    | Rebound(report: RebindResult)
    | Failed(error: Error)

  function StoreOf(g: State, name: string): seq<PgRow> {
    if name in g.stores then g.stores[name] else []
  }

  /** Resolve the provider, stamp the tenant, refuse a scope the provider cannot honour. */
  function Prepare(cfg: Config, bindings: Bindings, tenant: string, scope: Scope, asserted: Option<string>)
    : (r: Result<string, Error>)
    ensures r.Ok? ==> r.value in cfg.caps && ScopeSupported(scope.Under(tenant), cfg.caps[r.value])
    ensures r.Ok? && asserted.Some? ==> r == Ok(asserted.value)
  {
    var resolved := ResolveProvider(GetBinding(bindings, tenant, scope.subject), cfg.fallback, asserted);
    if resolved.Err? then resolved
    else if resolved.value !in cfg.caps then Err(UnknownProvider(resolved.value))
    else if !ScopeSupported(scope.Under(tenant), cfg.caps[resolved.value]) then Err(UnsupportedCapability)
    else resolved
  }

  /** A binding decides: whatever the default, a bound subject is served by the provider it is bound to or not at all.
      An assertion can only agree with it or be refused. */
  lemma BindingDecides(cfg: Config, bindings: Bindings, tenant: string, scope: Scope, asserted: Option<string>,
                       p: string)
    requires (tenant, scope.subject) in bindings && bindings[(tenant, scope.subject)].provider == p && p != ""
    ensures var r := Prepare(cfg, bindings, tenant, scope, asserted);
            var agreed := asserted == None || asserted == Some(p);
            && (agreed && p in cfg.caps && ScopeSupported(scope.Under(tenant), cfg.caps[p]) <==> r == Ok(p))
            && (!agreed ==> r == Err(ProviderMismatch(asserted.value, p)))
            && (agreed && p !in cfg.caps ==> r == Err(UnknownProvider(p)))
            && (agreed && p in cfg.caps && !ScopeSupported(scope.Under(tenant), cfg.caps[p]) ==>
                  r == Err(UnsupportedCapability))
  {}

  /** Without a binding, or with an empty one, the default decides in the same way; with neither there is a refusal. */
  lemma DefaultDecides(cfg: Config, bindings: Bindings, tenant: string, scope: Scope, asserted: Option<string>)
    requires (tenant, scope.subject) !in bindings || bindings[(tenant, scope.subject)].provider == ""
    ensures var r, d := Prepare(cfg, bindings, tenant, scope, asserted), cfg.fallback;
            && (d == None ==> r == Err(NoProviderResolved))
            && (d.Some? ==>
                  var agreed := asserted == None || asserted == d;
                  && (agreed && d.value in cfg.caps && ScopeSupported(scope.Under(tenant), cfg.caps[d.value]) <==>
                        r == Ok(d.value))
                  && (!agreed ==> r == Err(ProviderMismatch(asserted.value, d.value)))
                  && (agreed && d.value !in cfg.caps ==> r == Err(UnknownProvider(d.value)))
                  && (agreed && d.value in cfg.caps && !ScopeSupported(scope.Under(tenant), cfg.caps[d.value]) ==>
                        r == Err(UnsupportedCapability)))
  {}

  function ToRecord(id: nat, provider: string, m: ProviderMemory, scope: Scope): Record {
    Record(id, provider, m.native, m.content, scope.WithoutTenant(), m.score, m.createdAt, m.updatedAt)
  }

  function ItemOf(): ProviderMemory -> Item { (m: ProviderMemory) => Item(m.native, m.content) }

  function Items(memories: seq<ProviderMemory>): seq<Item> { Map(memories, ItemOf()) }

  function ByNative(rows: seq<CatalogRow>): map<Native, CatalogRow> {
    if rows == [] then map[] else ByNative(rows[..|rows| - 1])[rows[|rows| - 1].native := rows[|rows| - 1]]
  }

  /** Records for a write echo the write's scope. */
  function WriteRecords(memories: seq<ProviderMemory>, rows: map<Native, CatalogRow>, provider: string,
                        scope: Scope): seq<Record> {
    if memories == [] then []
    else
      var m, rest := memories[0], WriteRecords(memories[1..], rows, provider, scope);
      if m.native in rows then [ToRecord(rows[m.native].gatewayId, provider, m, scope)] + rest else rest
  }

  /** Records for a read carry each row's stored scope. */
  function ReadRecords(memories: seq<ProviderMemory>, rows: map<Native, CatalogRow>, provider: string): seq<Record> {
    if memories == [] then []
    else
      var m, rest := memories[0], ReadRecords(memories[1..], rows, provider);
      if m.native in rows then [ToRecord(rows[m.native].gatewayId, provider, m, rows[m.native].RowScope())] + rest
          else rest
  }

  // -- what each verb asks of the ids -----------------------------------------------------------

  function Hits(cfg: Config, g: State, tenant: string, name: string, verb: Verb): seq<ProviderMemory>
    requires name in cfg.caps && (verb.Search? || verb.ListScope?)
  {
    var rows, bound := StoreOf(g, name), verb.scope.Under(tenant);
    if verb.Search? then
      var q := verb.query.(limit := Min(verb.query.limit, cfg.caps[name].maxLimit));
      Map(SearchInPython(rows, bound, cfg.embed(q.text), q, cfg.sqrt), Hit())
    else
      Map(RowsInScope(rows, bound, true, Some(Min(verb.limit, cfg.caps[name].maxLimit))), Listed())
  }

  /** The write passes every check made before the provider is called. */
  predicate Accepted(cfg: Config, bindings: Bindings, e: Event)
    requires e.verb.Upsert? || e.verb.Ingest?
  {
    var name := Prepare(cfg, bindings, e.tenant, e.verb.scope, e.verb.asserted);
    name.Ok? && if e.verb.Upsert? then e.verb.facts != [] && cfg.caps[name.value].supportsUpsert
                else cfg.caps[name.value].supportsIngest
  }

  /** The ids an accepted write draws: one for each store row, then one for each index row, then one for an episode. A
      refused call draws none. */
  function Needs(cfg: Config, bindings: Bindings, e: Event): nat {
    if !(e.verb.Upsert? || e.verb.Ingest?) || !Accepted(cfg, bindings, e) then 0
    else 2 * |e.verb.facts| + if e.verb.Ingest? && cfg.journalEnabled then 1 else 0
  }

  /** Enough ids were handed out for the rows the verb inserts. */
  ghost predicate Supplied(cfg: Config, g: State, e: Event) {
    match e.verb
    case Upsert(_, _, _) => Needs(cfg, g.bindings, e) <= |e.ids|
    case Ingest(_, _, _, _) => Needs(cfg, g.bindings, e) <= |e.ids|
    case Update(_, _) =>
      var k := Resolve(g.index, e.tenant, e.verb.id);
      k.Some? ==> |MissingAt(g.index, e.tenant, k.value.provider, [Item(k.value.native, e.verb.content)])| <= |e.ids|
    case Search(_, _, _) => ReadSupplied(cfg, g, e)
    case ListScope(_, _, _) => ReadSupplied(cfg, g, e)
    case _ => true
  }

  ghost predicate ReadSupplied(cfg: Config, g: State, e: Event)
    requires e.verb.Search? || e.verb.ListScope?
  {
    var name := Prepare(cfg, g.bindings, e.tenant, e.verb.scope, e.verb.asserted);
    name.Ok? ==> |MissingAt(g.index, e.tenant, name.value,
                            Items(Hits(cfg, g, e.tenant, name.value, e.verb)))| <= |e.ids|
  }

  // -- the verbs -------------------------------------------------------------------------------------

  /** Store the facts, then map their natives on the reviving path, then bind. */
  ghost function WriteFacts(cfg: Config, g: State, tenant: string, name: string, facts: seq<string>, scope: Scope,
                            ids: seq<nat>, now: nat): (State, Answer)
    requires name in cfg.caps && 2 * |facts| <= |ids|
  {
    var n := |facts|;
    var added := NewRows(facts, cfg.embed, scope.Under(tenant), ids[..n], now);
    var stored := g.(stores := g.stores[name := StoreOf(g, name) + added]);
    var memories := Map(added, Listed());
    MissingIsShort(Items(memories), Find(g.index, tenant, name, Natives(Items(memories))));
    NewRowsAt(facts, cfg.embed, scope.Under(tenant), ids[..n], now);
    var page := MapPage(g.index, tenant, name, Items(memories), scope, true, ids[n..2 * n]);
    if page.Err? then (stored, Failed(page.error))
    else
      (stored.(index := page.value.0, bindings := Bind(g.bindings, tenant, scope.subject, name)),
       Written(WriteRecords(memories, ByNative(page.value.1), name, scope), name))
  }

  ghost function StepIngest(cfg: Config, g: State, e: Event): (State, Answer)
    requires e.verb.Ingest? && Supplied(cfg, g, e)
  {
    var v := e.verb;
    var name := Prepare(cfg, g.bindings, e.tenant, v.scope, v.asserted);
    if name.Err? then (g, Failed(name.error))
    else if !cfg.caps[name.value].supportsIngest then (g, Failed(UnsupportedCapability))
    else
      var (after, answer) := WriteFacts(cfg, g, e.tenant, name.value, v.facts, v.scope, e.ids, e.now);
      if answer.Failed? || !cfg.journalEnabled then (after, answer)
      else
        (after.(journal := after.journal + [Episode(e, name.value)]), answer)
  }

  function MintedNative(): nat -> Native { (id: nat) => Minted(id) }

  /** The journal row of an ingest: the caller's scope, and every native id the provider returned. */
  function Episode(e: Event, name: string): JournalRow
    requires e.verb.Ingest? && 2 * |e.verb.facts| < |e.ids|
  {
    JournalRow(e.ids[2 * |e.verb.facts|], e.tenant, e.verb.scope.subject, e.verb.scope.agent, e.verb.scope.session,
               e.verb.payload, name, Map(e.ids[..|e.verb.facts|], MintedNative()))
  }

  ghost function StepUpsert(cfg: Config, g: State, e: Event): (State, Answer)
    requires e.verb.Upsert? && Supplied(cfg, g, e)
  {
    var v := e.verb;
    if v.facts == [] then (g, Failed(EmptyUpsert))
    else
      var name := Prepare(cfg, g.bindings, e.tenant, v.scope, v.asserted);
      if name.Err? then (g, Failed(name.error))
      else if !cfg.caps[name.value].supportsUpsert then (g, Failed(UnsupportedCapability))
      else WriteFacts(cfg, g, e.tenant, name.value, v.facts, v.scope, e.ids, e.now)
  }

  /** The store reached by bare native id, as get, update and delete do. */
  function RowAt(g: State, k: Key): Option<PgRow> {
    if k.native.Minted? then FindRow(StoreOf(g, k.provider), k.native.tick) else None
  }

  ghost function StepUpdate(cfg: Config, g: State, e: Event): (State, Answer)
    requires e.verb.Update? && Supplied(cfg, g, e)
  {
    var v := e.verb;
    var found := Resolve(g.index, e.tenant, v.id);
    if found.None? then (g, Failed(MemoryNotFound))
    else
      var k := found.value;
      var row := ToRow(k, g.index[k]);
      if k.provider !in cfg.caps then (g, Failed(UnknownProvider(k.provider)))
      else if !cfg.caps[k.provider].supportsUpdate then (g, Failed(UnsupportedCapability))
      else if RowAt(g, k).None? then (g, Failed(MemoryNotFound))
      else
        var rows := Edited(StoreOf(g, k.provider), k.native.tick, v.content, cfg.embed(v.content), e.now);
        var stored := g.(stores := g.stores[k.provider := rows]);
        var page := MapPage(g.index, e.tenant, k.provider, [Item(k.native, v.content)], row.RowScope(), true, e.ids);
        if page.Err? then (stored, Failed(page.error))
        else
          (stored.(index := page.value.0),
           One(ToRecord(row.gatewayId, row.provider,
                        ToMemory(RowAt(g, k).value.(content := v.content, embedding := cfg.embed(v.content),
                                                    updatedAt := e.now), None),
                        row.RowScope())))
  }

  /** Hits are mapped on the path that never revives and never overwrites a stored scope. */
  ghost function MapHits(g: State, tenant: string, name: string, memories: seq<ProviderMemory>, scope: Scope,
                         ids: seq<nat>)
    : (State, Result<seq<Record>, Error>)
    requires |MissingAt(g.index, tenant, name, Items(memories))| <= |ids|
  {
    var page := MapPage(g.index, tenant, name, Items(memories), scope, false, ids);
    if page.Err? then (g, Err(page.error))
    else (g.(index := page.value.0), Ok(ReadRecords(memories, ByNative(page.value.1), name)))
  }

  /** A point in time needs a temporal mode; the mode may degrade only as permitted; and this store serves one mode. */
  function SearchRefusal(caps: Capabilities, query: Query): Option<Error> {
    if query.asOf && Temporal !in caps.searchModes then Some(UnsupportedCapability)
    else
      var served := ResolveMode(query.mode, caps, query.degrade);
      if served.Err? then Some(served.error)
      else if served.value.served != Semantic then Some(UnsupportedCapability)
      else None
  }

  /** How a search that is not refused is served. */
  function Decided(caps: Capabilities, query: Query): Decision {
    var served := ResolveMode(query.mode, caps, query.degrade);
    if served.Ok? then served.value else Decision(query.mode, false, [])
  }

  /** A search is served semantically; it is degraded exactly when it asked for something else, which needs permission
      and a permitted substitution, and then the answer names the one thing given up. */
  lemma DegradeOnlyByPermission(caps: Capabilities, query: Query)
    requires SearchRefusal(caps, query).None?
    ensures var d := Decided(caps, query);
            && Semantic in caps.searchModes && d.served == Semantic && (d.degraded <==> query.mode != Semantic)
            && (d.degraded ==>
                  query.degrade && query.mode !in caps.searchModes && query.mode in {Graph, Temporal, Hybrid})
            && d.lost == match query.mode
                         case Semantic => []
                         case Graph => ["graph_traversal"]
                         case Temporal => ["fact_invalidation"]
                         case Hybrid => ["keyword_match"]
                         case Keyword => d.lost
    ensures query.asOf ==> Temporal in caps.searchModes
    ensures query.mode != Keyword
  {}

  /** Exactly when a search is served: a point in time asks for a temporal store; a semantic store is needed; and any
      other mode must be one that may be substituted, with permission, where the store lacks it. */
  lemma ServedIff(caps: Capabilities, query: Query)
    ensures SearchRefusal(caps, query).None?
       <==> && (query.asOf ==> Temporal in caps.searchModes)
            && Semantic in caps.searchModes
            && (query.mode == Semantic
                || (query.degrade && query.mode !in caps.searchModes && query.mode in {Graph, Temporal, Hybrid}))
    ensures SearchRefusal(caps, query).Some? ==> SearchRefusal(caps, query) == Some(UnsupportedCapability)
  {}

  ghost function StepSearch(cfg: Config, g: State, e: Event): (State, Answer)
    requires e.verb.Search? && Supplied(cfg, g, e)
  {
    var v := e.verb;
    var name := Prepare(cfg, g.bindings, e.tenant, v.scope, v.asserted);
    if name.Err? then (g, Failed(name.error))
    else
      var refusal := SearchRefusal(cfg.caps[name.value], v.query);
      if refusal.Some? then (g, Failed(refusal.value))
      else
        var (after, records) := MapHits(g, e.tenant, name.value, Hits(cfg, g, e.tenant, name.value, v), v.scope, e.ids);
        (after, if records.Err? then Failed(records.error)
                else Found(records.value, name.value, v.query.mode, Decided(cfg.caps[name.value], v.query)))
  }

  ghost function StepList(cfg: Config, g: State, e: Event): (State, Answer)
    requires e.verb.ListScope? && Supplied(cfg, g, e)
  {
    var v := e.verb;
    var name := Prepare(cfg, g.bindings, e.tenant, v.scope, v.asserted);
    if name.Err? then (g, Failed(name.error))
    else if !cfg.caps[name.value].supportsList then (g, Failed(UnsupportedCapability))
    else
      var (after, records) := MapHits(g, e.tenant, name.value, Hits(cfg, g, e.tenant, name.value, v), v.scope, e.ids);
      (after, if records.Err? then Failed(records.error) else Listing(records.value))
  }

  ghost function StepGet(cfg: Config, g: State, e: Event): (State, Answer)
    requires e.verb.Get?
  {
    var found := Resolve(g.index, e.tenant, e.verb.id);
    if found.None? then (g, Failed(MemoryNotFound))
    else
      var k := found.value;
      var row := ToRow(k, g.index[k]);
      if k.provider !in cfg.caps then (g, Failed(UnknownProvider(k.provider)))
      else if RowAt(g, k).None? then (g, Failed(MemoryNotFound))
      else (g, One(ToRecord(row.gatewayId, row.provider, ToMemory(RowAt(g, k).value, None), row.RowScope())))
  }

  ghost function StepDelete(cfg: Config, g: State, e: Event): (State, Answer)
    requires e.verb.Delete?
  {
    var found := Resolve(g.index, e.tenant, e.verb.id);
    if found.None? then (g, Failed(MemoryNotFound))
    else
      var k := found.value;
      if k.provider !in cfg.caps then (g, Failed(UnknownProvider(k.provider)))
      else if !cfg.caps[k.provider].supportsDelete then (g, Failed(UnsupportedCapability))
      else
        var rows := StoreOf(g, k.provider);
        var kept := if k.native.Minted? then Filter(rows, OtherThan(k.native.tick)) else rows;
        (g.(stores := g.stores[k.provider := kept], index := MarkDeleted(g.index, e.tenant, e.verb.id)), Done)
  }

  /** Erase at the provider, then tombstone the index, then erase the journal. */
  function StepDeleteScope(cfg: Config, g: State, e: Event): (State, Answer)
    requires e.verb.DeleteScope?
  {
    var v := e.verb;
    var name := Prepare(cfg, g.bindings, e.tenant, v.scope, v.asserted);
    if name.Err? then (g, Failed(name.error))
    else if !cfg.caps[name.value].supportsDeleteByScope then (g, Failed(UnsupportedCapability))
    else
      var rows, bound := StoreOf(g, name.value), v.scope.Under(e.tenant);
      (g.(stores := g.stores[name.value := Filter(rows, Uncovered(bound))],
          index := MarkScopeDeleted(g.index, e.tenant, v.scope, name.value),
          journal := Filter(g.journal, OutsideScope(e.tenant, v.scope))),
       Removed(|Filter(rows, Covered(bound))|))
  }

  function StepRebind(cfg: Config, g: State, e: Event): (State, Answer)
    requires e.verb.RebindSubject?
  {
    var v := e.verb;
    if v.migrate then (g, Failed(NotImplementedYet))
    else if v.provider !in cfg.caps then (g, Failed(UnknownProvider(v.provider)))
    else
      (g.(bindings := Rebind(g.bindings, e.tenant, v.subject, v.provider)),
       Rebound(RebindReport(g.index, g.bindings, e.tenant, v.subject, v.provider)))
  }

  ghost function Step(cfg: Config, g: State, e: Event): (State, Answer)
    requires Supplied(cfg, g, e)
  {
    match e.verb
    case Ingest(_, _, _, _) => StepIngest(cfg, g, e)
    case Upsert(_, _, _) => StepUpsert(cfg, g, e)
    case Update(_, _) => StepUpdate(cfg, g, e)
    case Search(_, _, _) => StepSearch(cfg, g, e)
    case ListScope(_, _, _) => StepList(cfg, g, e)
    case Get(_) => StepGet(cfg, g, e)
    case Delete(_) => StepDelete(cfg, g, e)
    case DeleteScope(_, _) => StepDeleteScope(cfg, g, e)
    case RebindSubject(_, _, _) => StepRebind(cfg, g, e)
  }
}
