/** The coupling between index and stores, and what each verb does to a coupled state. */
module GatewayInvariant {
  import opened Prelude
  import opened Scopes
  import opened MemoryIndex
  import opened Vectors
  import opened Pgvector
  import opened Gateway

  // -- the coupling -----------------------------------------------------------------

  /** An index row and a store row agree on every scope dimension. */
  predicate SameDims(k: Key, r: IndexRow, s: Scope) {
    s.tenant == Some(k.tenant) && s.subject == r.subject && s.agent == r.agent && s.session == r.session
  }

  ghost predicate IndexOk(index: Index, next: nat) {
    && IdsUnique(index) && IdsBelow(index, next)
    && (forall k | k in index :: k.tenant != "" && k.native.Minted? && k.native.tick < next)
    && (forall k, l | k in index && l in index && k.provider == l.provider && k.native == l.native :: k == l)
  }

  ghost predicate StoresOk(cfg: Config, stores: map<string, seq<PgRow>>, next: nat) {
    && stores.Keys == cfg.caps.Keys
    && (forall p | p in stores :: DistinctTicks(stores[p]) && forall r | r in stores[p] :: r.tick < next)
  }

  /** The index key a store row belongs to. */
  function KeyOfRow(p: string, r: PgRow): Key {
    Key(if r.scope.tenant.Some? then r.scope.tenant.value else "", p, Minted(r.tick))
  }

  /** Every stored row is indexed, live or not, under its own tenant and dimensions. */
  ghost predicate Indexed(g: State) {
    forall p, r | p in g.stores && r in g.stores[p] ::
      var k := KeyOfRow(p, r); k in g.index && SameDims(k, g.index[k], r.scope)
  }

  /** Every live index row has its memory in the store. */
  ghost predicate Backed(g: State) {
    forall k | LiveAt(g.index, k) ::
      k.provider in g.stores && RowAt(g, k).Some? && SameDims(k, g.index[k], RowAt(g, k).value.scope)
  }

  ghost predicate Ascending(journal: seq<JournalRow>) {
    forall i, j :: 0 <= i < j < |journal| ==> journal[i].episode < journal[j].episode
  }

  /** Every native id an episode produced has an index row, and episodes are in the order of their ids. */
  ghost predicate JournalOk(g: State, next: nat) {
    && (forall j, n | j in g.journal && n in j.natives :: Key(j.tenant, j.provider, n) in g.index)
    && Ascending(g.journal)
    && (forall j | j in g.journal :: j.episode < next)
  }

  ghost predicate Inv(cfg: Config, g: State, next: nat) {
    && IndexOk(g.index, next) && StoresOk(cfg, g.stores, next)
    && Indexed(g) && Backed(g) && JournalOk(g, next)
  }

  /** The index tombstones nothing the store still holds. */
  ghost predicate Exact(g: State) {
    forall p, r | p in g.stores && r in g.stores[p] :: LiveAt(g.index, KeyOfRow(p, r))
  }

  lemma EmptyStoresAreCoupled(cfg: Config, bindings: Bindings)
    ensures Inv(cfg, State(map[], bindings, [], map p | p in cfg.caps :: []), 0)
    ensures Exact(State(map[], bindings, [], map p | p in cfg.caps :: []))
  {}

  /** What a caller's event brings: a real tenant, ids above every id handed out before, and as many of them as a write
      that is accepted draws. */
  ghost predicate Proper(cfg: Config, bindings: Bindings, e: Event, next: nat, upto: nat) {
    e.tenant != "" && FreshIds(e.ids, next, upto) && Needs(cfg, bindings, e) <= |e.ids|
  }

  // -- writes ------------------------------------------------------------------------

  /** The items of a fresh write. */
  lemma WriteItems(cfg: Config, facts: seq<string>, scope: Scope, ids: seq<nat>, now: nat)
    requires |facts| <= |ids|
    ensures var memories := Map(NewRows(facts, cfg.embed, scope, ids, now), Listed());
            && |memories| == |facts| && |Items(memories)| == |facts|
            && (forall i :: 0 <= i < |facts| ==>
                memories[i] == ProviderMemory(Minted(ids[i]), facts[i], now, now, None))
            && (forall i :: 0 <= i < |facts| ==> Items(memories)[i] == Item(Minted(ids[i]), facts[i]))
  {
    NewRowsAt(facts, cfg.embed, scope, ids, now);
  }

  /** A page of natives minted just now, none of which the index can know, is inserted whole. */
  lemma MapFreshPage(index: Index, tenant: string, provider: string, items: seq<Item>, scope: Scope, ids: seq<nat>)
    requires |items| <= |ids| && Distinct(Natives(items))
    requires forall it | it in items :: Key(tenant, provider, it.native) !in index
    ensures MissingAt(index, tenant, provider, items) == items
    ensures var after := index + InsertRows(tenant, provider, items, scope, ids);
            MapPage(index, tenant, provider, items, scope, true, ids)
                == Ok((after, LiveRows(after, tenant, provider, items)))
            && LivePage(after, tenant, provider, items)
  {
    var known := Find(index, tenant, provider, Natives(items));
    assert forall n | n in Natives(items) :: n !in known by {
      forall n | n in Natives(items)
        ensures n !in known
      {
        var i :| 0 <= i < |items| && Natives(items)[i] == n;
        assert items[i] in items;
      }
    }
    forall it | it in items
      ensures NotKnown(known)(it)
    {
      ItemInPage(tenant, provider, items, it);
    }
    FilterAll(items, NotKnown(known));
    assert Doomed(Natives(items), known) == {};
    var after := index + InsertRows(tenant, provider, items, scope, ids);
    ReviveNothing(after, tenant, provider, scope, items);
    forall i | 0 <= i < |items|
      ensures LiveAt(after, Key(tenant, provider, items[i].native))
    {
      InsertRowAt(tenant, provider, items, scope, ids, i);
    }
  }

  lemma {:induction false} ByNativeOf(rows: seq<CatalogRow>, n: Native)
    ensures n in ByNative(rows) ==> ByNative(rows)[n] in rows && ByNative(rows)[n].native == n
    ensures n !in ByNative(rows) ==> forall r | r in rows :: r.native != n
  {
    if rows != [] {
      ByNativeOf(rows[..|rows| - 1], n);
      assert rows == rows[..|rows| - 1] + [rows[|rows| - 1]];
    }
  }

  lemma {:induction false} LiveRowsMember(index: Index, tenant: string, provider: string, items: seq<Item>,
                                          r: CatalogRow)
    ensures r in LiveRows(index, tenant, provider, items)
       <==> exists it :: it in items && LiveAt(index, Key(tenant, provider, it.native))
                      && r == ToRow(Key(tenant, provider, it.native), index[Key(tenant, provider, it.native)])
  {
    if items != [] {
      LiveRowsMember(index, tenant, provider, items[1..], r);
      assert items == [items[0]] + items[1..];
    }
  }

  /** Looking a native up in the returned rows is looking its key up among the live rows. */
  lemma ByNativeLive(index: Index, tenant: string, provider: string, items: seq<Item>, it: Item)
    requires it in items
    ensures var rows := ByNative(LiveRows(index, tenant, provider, items)); var k := Key(tenant, provider, it.native);
            (it.native in rows <==> LiveAt(index, k)) && (LiveAt(index, k) ==> rows[it.native] == ToRow(k, index[k]))
  {
    var rows, k := LiveRows(index, tenant, provider, items), Key(tenant, provider, it.native);
    ByNativeOf(rows, it.native);
    if LiveAt(index, k) {
      LiveRowsMember(index, tenant, provider, items, ToRow(k, index[k]));
      assert ToRow(k, index[k]) in rows;
    }
    if it.native in ByNative(rows) {
      LiveRowsMember(index, tenant, provider, items, ByNative(rows)[it.native]);
    }
  }

  /** The record a read gives for a live memory. */
  function RecordAt(index: Index, k: Key, m: ProviderMemory): Record
    requires k in index
  {
    ToRecord(index[k].gatewayId, k.provider, m, ToRow(k, index[k]).RowScope())
  }

  /** Records for the live ones among the memories, in order. */
  function RecordsAt(index: Index, tenant: string, provider: string, memories: seq<ProviderMemory>): seq<Record> {
    if memories == [] then []
    else
      var k, rest := Key(tenant, provider, memories[0].native), RecordsAt(index, tenant, provider, memories[1..]);
      if LiveAt(index, k) then [RecordAt(index, k, memories[0])] + rest else rest
  }

  lemma {:induction false} ReadRecordsAre(index: Index, tenant: string, provider: string, items: seq<Item>,
                                          memories: seq<ProviderMemory>)
    requires forall m | m in memories :: Item(m.native, m.content) in items
    ensures ReadRecords(memories, ByNative(LiveRows(index, tenant, provider, items)), provider)
         == RecordsAt(index, tenant, provider, memories)
  {
    if memories != [] {
      assert memories[0] in memories && forall m | m in memories[1..] :: m in memories;
      ByNativeLive(index, tenant, provider, items, Item(memories[0].native, memories[0].content));
      ReadRecordsAre(index, tenant, provider, items, memories[1..]);
    }
  }

  lemma {:induction false} WriteRecordsAre(index: Index, tenant: string, provider: string, items: seq<Item>,
                                           memories: seq<ProviderMemory>, scope: Scope)
    requires forall m | m in memories ::
             Item(m.native, m.content) in items && LiveAt(index, Key(tenant, provider, m.native))
    ensures var records := WriteRecords(memories, ByNative(LiveRows(index, tenant, provider, items)), provider, scope);
            && |records| == |memories|
            && forall i :: 0 <= i < |memories| ==> var k := Key(tenant, provider, memories[i].native);
                 k in index && records[i] == ToRecord(index[k].gatewayId, provider, memories[i], scope)
  {
    if memories != [] {
      assert memories[0] in memories && forall m | m in memories[1..] :: m in memories;
      ByNativeLive(index, tenant, provider, items, Item(memories[0].native, memories[0].content));
      WriteRecordsAre(index, tenant, provider, items, memories[1..], scope);
    }
  }

  /** Nothing stored under ids minted just now is in the index yet, so every item of the page is missing. */
  lemma FreshWritePage(cfg: Config, g: State, tenant: string, name: string, facts: seq<string>, scope: Scope,
                       early: seq<nat>, now: nat, next: nat, mid: nat)
    requires IndexOk(g.index, next) && FreshIds(early, next, mid) && |early| == |facts|
    ensures var items := Items(Map(NewRows(facts, cfg.embed, scope.Under(tenant), early, now), Listed()));
            |MissingAt(g.index, tenant, name, items)| == |facts|
  {
    var items := Items(Map(NewRows(facts, cfg.embed, scope.Under(tenant), early, now), Listed()));
    WriteItems(cfg, facts, scope.Under(tenant), early, now);
    assert items == FactItems(facts, early);
    FactItemsFresh(g.index, tenant, name, facts, early, next, mid);
    MapFreshPage(g.index, tenant, name, items, scope, early);
  }

  /** A write, by the ids its rows and then its index entries were given. */
  lemma WriteUnfolds(cfg: Config, g: State, tenant: string, name: string, facts: seq<string>, scope: Scope,
                     ids: seq<nat>, now: nat)
    requires name in cfg.caps && 2 * |facts| <= |ids|
    requires |MissingAt(g.index, tenant, name,
                        Items(Map(NewRows(facts, cfg.embed, scope.Under(tenant), ids[..|facts|], now),
                                  Listed())))| <= |facts|
    ensures var added := NewRows(facts, cfg.embed, scope.Under(tenant), ids[..|facts|], now);
            var memories := Map(added, Listed());
            var stored := g.(stores := g.stores[name := StoreOf(g, name) + added]);
            var page := MapPage(g.index, tenant, name, Items(memories), scope, true, ids[|facts|..2 * |facts|]);
            WriteFacts(cfg, g, tenant, name, facts, scope, ids, now) ==
              if page.Err? then (stored, Failed(page.error))
              else (stored.(index := page.value.0, bindings := Bind(g.bindings, tenant, scope.subject, name)),
                    Written(WriteRecords(memories, ByNative(page.value.1), name, scope), name))
  {
    hide NewRows, MapPage, MissingAt, Items, WriteRecords, ByNative, Map;
  }

  /** The state a write under fresh ids leaves: one store row and one index row per fact, and the subject bound. */
  function WrittenState(cfg: Config, g: State, tenant: string, name: string, facts: seq<string>, scope: Scope,
                        ids: seq<nat>, now: nat): State
    requires 2 * |facts| <= |ids|
  {
    g.(index := g.index + InsertRows(tenant, name, FactItems(facts, ids), scope, ids[|facts|..2 * |facts|]),
       stores := g.stores[name := StoreOf(g, name)
                          + NewRows(facts, cfg.embed, scope.Under(tenant), ids[..|facts|], now)],
       bindings := Bind(g.bindings, tenant, scope.subject, name))
  }

  /** A write of facts under fresh ids: one store row, one index row and one record per fact, nothing else touched. */
  lemma WriteFactsIs(cfg: Config, g: State, tenant: string, name: string, facts: seq<string>, scope: Scope,
                     ids: seq<nat>, now: nat, next: nat, upto: nat)
    requires IndexOk(g.index, next) && name in cfg.caps && FreshIds(ids, next, upto) && 2 * |facts| <= |ids|
    ensures var (after, answer) := WriteFacts(cfg, g, tenant, name, facts, scope, ids, now);
            && after == WrittenState(cfg, g, tenant, name, facts, scope, ids, now)
            && answer.Written? && answer.provider == name && |answer.records| == |facts|
            && (forall i :: 0 <= i < |facts| ==>
                  answer.records[i] == Record(ids[|facts| + i], name, Minted(ids[i]), facts[i], scope.WithoutTenant(),
                                              None, now, now))
  {
    hide MapPage, NewRows, InsertRows, LiveRows, WriteRecords, ByNative, IndexOk, FreshIds, Distinct, MissingAt,
         LivePage, Map, WriteFacts;
    var n := |facts|;
    var memories := Map(NewRows(facts, cfg.embed, scope.Under(tenant), ids[..n], now), Listed());
    var items, late := FactItems(facts, ids), ids[n..2 * n];
    WriteItems(cfg, facts, scope.Under(tenant), ids[..n], now);
    assert Items(memories) == items;
    FactItemsFresh(g.index, tenant, name, facts, ids, next, upto);
    MapFreshPage(g.index, tenant, name, items, scope, late);
    WriteUnfolds(cfg, g, tenant, name, facts, scope, ids, now);
    FactRecords(g.index, tenant, name, facts, memories, scope, ids, now);
  }

  /** The state alone. */
  lemma WriteState(cfg: Config, g: State, tenant: string, name: string, facts: seq<string>, scope: Scope,
                   ids: seq<nat>, now: nat, next: nat, upto: nat)
    requires Inv(cfg, g, next) && name in cfg.caps && FreshIds(ids, next, upto) && 2 * |facts| <= |ids|
    ensures WriteFacts(cfg, g, tenant, name, facts, scope, ids, now).0
            == WrittenState(cfg, g, tenant, name, facts, scope, ids, now)
  {
    hide WriteFacts, NewRows, InsertRows, FreshIds, FactItems, IndexOk, WrittenState;
    WriteFactsIs(cfg, g, tenant, name, facts, scope, ids, now, next, upto);
  }

  /** The answer a write gives: one record per fact, in order, echoing the write's scope. */
  lemma WriteAnswer(cfg: Config, g: State, tenant: string, name: string, facts: seq<string>, scope: Scope,
                    ids: seq<nat>, now: nat, next: nat, upto: nat)
    requires Inv(cfg, g, next) && name in cfg.caps && FreshIds(ids, next, upto) && 2 * |facts| <= |ids|
    ensures WriteFacts(cfg, g, tenant, name, facts, scope, ids, now).1
         == Written(seq(|facts|, i requires 0 <= i < |facts| =>
                          Record(ids[|facts| + i], name, Minted(ids[i]), facts[i], scope.WithoutTenant(), None, now,
                                 now)), name)
  {
    hide WriteFacts, NewRows, InsertRows, FreshIds, FactItems, IndexOk;
    WriteFactsIs(cfg, g, tenant, name, facts, scope, ids, now, next, upto);
    var answer := WriteFacts(cfg, g, tenant, name, facts, scope, ids, now).1;
    assert answer.records == seq(|facts|, i requires 0 <= i < |facts| =>
                          Record(ids[|facts| + i], name, Minted(ids[i]), facts[i], scope.WithoutTenant(), None, now,
                                 now));
  }

  lemma FactRecords(index: Index, tenant: string, name: string, facts: seq<string>, memories: seq<ProviderMemory>,
                    scope: Scope, ids: seq<nat>, now: nat)
    requires 2 * |facts| <= |ids| && |memories| == |facts| && Distinct(Natives(FactItems(facts, ids)))
    requires forall i :: 0 <= i < |facts| ==> memories[i] == ProviderMemory(Minted(ids[i]), facts[i], now, now, None)
    ensures var items, n := FactItems(facts, ids), |facts|;
            var after := index + InsertRows(tenant, name, items, scope, ids[n..2 * n]);
            var records := WriteRecords(memories, ByNative(LiveRows(after, tenant, name, items)), name, scope);
            && |records| == n
            && (forall i :: 0 <= i < n ==>
                  records[i] == Record(ids[n + i], name, Minted(ids[i]), facts[i], scope.WithoutTenant(), None, now,
                                       now))
  {
    hide InsertRows, Distinct, Map, WriteRecords, ByNative, LiveRows;
    var items, n := FactItems(facts, ids), |facts|;
    var after := index + InsertRows(tenant, name, items, scope, ids[n..2 * n]);
    forall m | m in memories
      ensures Item(m.native, m.content) in items && LiveAt(after, Key(tenant, name, m.native))
    {
      var i :| 0 <= i < |memories| && memories[i] == m;
      assert items[i] in items;
      FactRow(index, tenant, name, facts, scope, ids, i);
    }
    WriteRecordsAre(after, tenant, name, items, memories, scope);
    forall i | 0 <= i < n
      ensures after[Key(tenant, name, memories[i].native)].gatewayId == ids[n + i]
    {
      FactRow(index, tenant, name, facts, scope, ids, i);
    }
  }

  lemma FactRow(index: Index, tenant: string, name: string, facts: seq<string>, scope: Scope, ids: seq<nat>, i: nat)
    requires 2 * |facts| <= |ids| && Distinct(Natives(FactItems(facts, ids))) && i < |facts|
    ensures var n, k := |facts|, Key(tenant, name, Minted(ids[i]));
            var after := index + InsertRows(tenant, name, FactItems(facts, ids), scope, ids[n..2 * n]);
            k in after && after[k] == NewRow(scope, facts[i], ids[n + i])
  {
    InsertRowAt(tenant, name, FactItems(facts, ids), scope, ids[|facts|..2 * |facts|], i);
  }

  function FactItems(facts: seq<string>, ids: seq<nat>): (items: seq<Item>)
    requires |facts| <= |ids|
    ensures |items| == |facts|
    ensures forall i :: 0 <= i < |facts| ==> items[i] == Item(Minted(ids[i]), facts[i])
  {
    seq(|facts|, i requires 0 <= i < |facts| => Item(Minted(ids[i]), facts[i]))
  }

  lemma FactItemsFresh(index: Index, tenant: string, name: string, facts: seq<string>, ids: seq<nat>, next: nat,
                       upto: nat)
    requires IndexOk(index, next) && FreshIds(ids, next, upto) && |facts| <= |ids|
    ensures Distinct(Natives(FactItems(facts, ids)))
    ensures forall it | it in FactItems(facts, ids) :: Key(tenant, name, it.native) !in index
    ensures forall n | n in Natives(FactItems(facts, ids)) :: n.Minted? && next <= n.tick < upto
  {
    var items := FactItems(facts, ids);
    forall i | 0 <= i < |items|
      ensures items[i].native == Minted(ids[i]) && next <= ids[i] < upto
    {
      assert ids[i] in ids;
    }
    forall i, j | 0 <= i < j < |items|
      ensures Natives(items)[i] != Natives(items)[j]
    {
      assert ids[i] < ids[j];
    }
  }

  // -- a write keeps the coupling ----------------------------------------------------------

  /** Store rows and index rows that describe the same new memories of one tenant at one provider. */
  ghost predicate Paired(added: seq<PgRow>, rows: Index, tenant: string, name: string, next: nat, upto: nat) {
    && DistinctTicks(added)
    && (forall k | k in rows ::
          && k.tenant == tenant && k.provider == name && k.native.Minted? && next <= k.native.tick < upto
             && !rows[k].deleted
          && FindRow(added, k.native.tick).Some? && SameDims(k, rows[k], FindRow(added, k.native.tick).value.scope))
    && (forall r | r in added ::
          && next <= r.tick < upto && KeyOfRow(name, r) in rows
          && SameDims(KeyOfRow(name, r), rows[KeyOfRow(name, r)], r.scope))
  }

  /** Fact i: its store row, its index key and its index row. */
  lemma FactPair(cfg: Config, facts: seq<string>, scope: Scope, tenant: string, name: string, ids: seq<nat>, now: nat,
                 next: nat, upto: nat, i: nat)
    requires 2 * |facts| <= |ids| && FreshIds(ids, next, upto) && Distinct(Natives(FactItems(facts, ids)))
             && i < |facts|
    ensures var n := |facts|;
            var added := NewRows(facts, cfg.embed, scope.Under(tenant), ids[..n], now);
            var rows := InsertRows(tenant, name, FactItems(facts, ids), scope, ids[n..2 * n]);
            && |added| == n && added[i].tick == ids[i] && next <= ids[i] < upto && added[i].scope == scope.Under(tenant)
            && KeyOfRow(name, added[i]) == Key(tenant, name, Minted(ids[i]))
            && KeyOfRow(name, added[i]) in rows
            && rows[KeyOfRow(name, added[i])] == NewRow(scope, facts[i], ids[n + i])
  {
    hide NewRows, InsertRows, Distinct, Natives, Increasing;
    NewRowsAt(facts, cfg.embed, scope.Under(tenant), ids[..|facts|], now);
    assert ids[i] in ids;
    InsertRowAt(tenant, name, FactItems(facts, ids), scope, ids[|facts|..2 * |facts|], i);
  }

  lemma NewRowsDistinct(facts: seq<string>, embed: string -> Vector, scope: Scope, ids: seq<nat>, now: nat, next: nat,
                        upto: nat)
    requires |facts| <= |ids| && FreshIds(ids, next, upto)
    ensures DistinctTicks(NewRows(facts, embed, scope, ids[..|facts|], now))
  {
    NewRowsAt(facts, embed, scope, ids[..|facts|], now);
    forall i, j | 0 <= i < j < |facts| ensures ids[i] < ids[j] {}
  }

  lemma FactsPaired(cfg: Config, facts: seq<string>, scope: Scope, tenant: string, name: string, ids: seq<nat>,
                    now: nat, next: nat, upto: nat)
    requires 2 * |facts| <= |ids| && FreshIds(ids, next, upto) && Distinct(Natives(FactItems(facts, ids)))
    ensures var n := |facts|;
            Paired(NewRows(facts, cfg.embed, scope.Under(tenant), ids[..n], now),
                   InsertRows(tenant, name, FactItems(facts, ids), scope, ids[n..2 * n]), tenant, name, next, upto)
  {
    hide NewRows, InsertRows, FindRow, Distinct, FreshIds, Map;
    var n := |facts|;
    var added := NewRows(facts, cfg.embed, scope.Under(tenant), ids[..n], now);
    var items := FactItems(facts, ids);
    var rows := InsertRows(tenant, name, items, scope, ids[n..2 * n]);
    NewRowsAt(facts, cfg.embed, scope.Under(tenant), ids[..n], now);
    InsertRowsKeys(tenant, name, items, scope, ids[n..2 * n]);
    NewRowsDistinct(facts, cfg.embed, scope.Under(tenant), ids, now, next, upto);
    forall r | r in added
      ensures next <= r.tick < upto && KeyOfRow(name, r) in rows
              && SameDims(KeyOfRow(name, r), rows[KeyOfRow(name, r)], r.scope)
    {
      var i :| 0 <= i < |added| && added[i] == r;
      FactPair(cfg, facts, scope, tenant, name, ids, now, next, upto, i);
    }
    forall k | k in rows
      ensures k.native.Minted? && next <= k.native.tick < upto && !rows[k].deleted
      ensures FindRow(added, k.native.tick).Some? && SameDims(k, rows[k], FindRow(added, k.native.tick).value.scope)
    {
      var i :| 0 <= i < |items| && Natives(items)[i] == k.native;
      FactPair(cfg, facts, scope, tenant, name, ids, now, next, upto, i);
      assert k == KeyOfRow(name, added[i]);
      FindRowOf(added, added[i]);
    }
  }

  lemma DistinctAppend(rows: seq<PgRow>, added: seq<PgRow>, next: nat)
    requires DistinctTicks(rows) && DistinctTicks(added)
    requires (forall r | r in rows :: r.tick < next) && forall r | r in added :: next <= r.tick
    ensures DistinctTicks(rows + added)
  {
    var all := rows + added;
    forall i, j | 0 <= i < j < |all|
      ensures all[i].tick != all[j].tick
    {
      if i < |rows| <= j { assert all[i] in rows && all[j] in added; }
    }
  }

  ghost predicate AddsTo(g: State, after: State, rows: Index, added: seq<PgRow>, name: string) {
    && name in g.stores
    && after == g.(index := g.index + rows, stores := g.stores[name := g.stores[name] + added], bindings :=
                   after.bindings)
  }

  lemma PairedIndexOk(index: Index, rows: Index, added: seq<PgRow>, tenant: string, name: string, next: nat, upto: nat)
    requires IndexOk(index, next) && Paired(added, rows, tenant, name, next, upto) && tenant != "" && next <= upto
    requires IdsUnique(index + rows) && IdsBelow(index + rows, upto)
    ensures IndexOk(index + rows, upto) && index.Keys !! rows.Keys
  {}

  lemma PairedStoresOk(cfg: Config, g: State, after: State, rows: Index, added: seq<PgRow>, tenant: string,
                       name: string, next: nat, upto: nat)
    requires StoresOk(cfg, g.stores, next) && Paired(added, rows, tenant, name, next, upto) && next <= upto
    requires AddsTo(g, after, rows, added, name)
    ensures StoresOk(cfg, after.stores, upto)
  {
    DistinctAppend(g.stores[name], added, next);
  }

  lemma PairedBacked(cfg: Config, g: State, after: State, rows: Index, added: seq<PgRow>, tenant: string, name: string,
                     next: nat, upto: nat)
    requires StoresOk(cfg, g.stores, next) && Backed(g) && Paired(added, rows, tenant, name, next, upto)
    requires AddsTo(g, after, rows, added, name)
    ensures Backed(after)
  {
    forall k | LiveAt(after.index, k)
      ensures k.provider in after.stores && RowAt(after, k).Some?
              && SameDims(k, after.index[k], RowAt(after, k).value.scope)
    {
      if k in rows {
        FindRowAppend(g.stores[name], added, k.native.tick);
        FindRowIn(g.stores[name], k.native.tick);
      } else {
        assert LiveAt(g.index, k);
        if k.provider == name && k.native.Minted? { FindRowAppend(g.stores[name], added, k.native.tick); }
      }
    }
  }

  lemma PairedIndexed(g: State, after: State, rows: Index, added: seq<PgRow>, tenant: string, name: string, next: nat,
                      upto: nat)
    requires Indexed(g) && Paired(added, rows, tenant, name, next, upto) && AddsTo(g, after, rows, added, name)
    requires g.index.Keys !! rows.Keys
    ensures Indexed(after) && (Exact(g) ==> Exact(after))
  {
    forall p, r | p in after.stores && r in after.stores[p]
      ensures var k := KeyOfRow(p, r); k in after.index && SameDims(k, after.index[k], r.scope)
      ensures Exact(g) ==> LiveAt(after.index, KeyOfRow(p, r))
    {
      if p == name && r in added {
        assert KeyOfRow(name, r) in rows;
      } else {
        assert r in g.stores[p];
        assert KeyOfRow(p, r) in g.index;
      }
    }
  }

  lemma WriteFactsKeepsInv(cfg: Config, g: State, tenant: string, name: string, facts: seq<string>, scope: Scope,
                           ids: seq<nat>, now: nat, next: nat, upto: nat)
    requires Inv(cfg, g, next) && tenant != "" && name in cfg.caps && FreshIds(ids, next, upto) && 2 * |facts| <= |ids|
    ensures var after := WriteFacts(cfg, g, tenant, name, facts, scope, ids, now).0;
            && Inv(cfg, after, upto) && (Exact(g) ==> Exact(after)) && after.journal == g.journal
            && (forall i | 0 <= i < |facts| :: Key(tenant, name, Minted(ids[i])) in after.index)
  {
    hide NewRows, InsertRows, WriteFacts;
    var n := |facts|;
    var after := WriteFacts(cfg, g, tenant, name, facts, scope, ids, now).0;
    var added := NewRows(facts, cfg.embed, scope.Under(tenant), ids[..n], now);
    var rows := InsertRows(tenant, name, FactItems(facts, ids), scope, ids[n..2 * n]);
    WriteFactsIs(cfg, g, tenant, name, facts, scope, ids, now, next, upto);
    FactsIdentity(g.index, tenant, name, facts, scope, ids, next, upto);
    FactsPaired(cfg, facts, scope, tenant, name, ids, now, next, upto);
    forall i | 0 <= i < n
      ensures Key(tenant, name, Minted(ids[i])) in after.index
    {
      FactRow(g.index, tenant, name, facts, scope, ids, i);
    }
    hide Inv, Exact, Paired, IdsUnique, IdsBelow;
    PairedKeepsInv(cfg, g, after, rows, added, tenant, name, next, upto);
  }

  lemma FactsIdentity(index: Index, tenant: string, name: string, facts: seq<string>, scope: Scope, ids: seq<nat>,
                      next: nat, upto: nat)
    requires IndexOk(index, next) && FreshIds(ids, next, upto) && 2 * |facts| <= |ids|
    ensures Distinct(Natives(FactItems(facts, ids)))
    ensures var after := index + InsertRows(tenant, name, FactItems(facts, ids), scope, ids[|facts|..2 * |facts|]);
            IdsUnique(after) && IdsBelow(after, upto)
  {
    var items, late := FactItems(facts, ids), ids[|facts|..2 * |facts|];
    FactItemsFresh(index, tenant, name, facts, ids, next, upto);
    LateIdsFresh(ids, |facts|, next, upto);
    forall m | m in Natives(items)
      ensures Key(tenant, name, m) !in index
    {
      var i :| 0 <= i < |items| && Natives(items)[i] == m;
      assert items[i] in items;
    }
    InsertKeepsIdentity(index, tenant, name, items, scope, late, next, upto);
  }

  lemma PairedKeepsInv(cfg: Config, g: State, after: State, rows: Index, added: seq<PgRow>, tenant: string,
                       name: string, next: nat, upto: nat)
    requires Inv(cfg, g, next) && Paired(added, rows, tenant, name, next, upto) && AddsTo(g, after, rows, added, name)
    requires IdsUnique(after.index) && IdsBelow(after.index, upto) && tenant != "" && next <= upto
    ensures Inv(cfg, after, upto) && (Exact(g) ==> Exact(after))
  {
    PairedIndexOk(g.index, rows, added, tenant, name, next, upto);
    PairedStoresOk(cfg, g, after, rows, added, tenant, name, next, upto);
    PairedBacked(cfg, g, after, rows, added, tenant, name, next, upto);
    PairedIndexed(g, after, rows, added, tenant, name, next, upto);
    hide IndexOk, StoresOk, Paired, Indexed, Backed, Exact;
    assert JournalOk(after, upto);
  }

  lemma LateIdsFresh(ids: seq<nat>, n: nat, next: nat, upto: nat)
    requires FreshIds(ids, next, upto) && 2 * n <= |ids|
    ensures FreshIds(ids[n..2 * n], next, upto)
  {
    forall id | id in ids[n..2 * n] ensures next <= id < upto {
      assert id in ids;
    }
  }

  // -- reads ----------------------------------------------------------------------------------

  lemma CoveredTenant(scope: Scope, tenant: string, r: PgRow)
    requires tenant != "" && Covered(scope.Under(tenant))(r)
    ensures r.scope.tenant == Some(tenant)
  {
    var bound := scope.Under(tenant);
    ConditionsAreCovers(bound, r.scope);
    assert Tenant in bound.Dims() && bound.Dims()[Tenant] == tenant;
  }

  lemma TakeMember<T>(s: seq<T>, n: nat, x: T)
    requires x in Take(s, n)
    ensures x in s
  {}

  lemma SortMember<T>(s: seq<T>, le: (T, T) -> bool, x: T)
    ensures x in Sort(s, le) <==> x in s
  {
    SortPermutes(s, le);
    assert x in Sort(s, le) <==> x in multiset(Sort(s, le));
    assert x in s <==> x in multiset(s);
  }

  lemma ListedMember(rows: seq<PgRow>, f: Scope, limit: nat, r: PgRow)
    requires r in RowsInScope(rows, f, true, Some(limit))
    ensures r in rows && Covered(f)(r)
  {
    RowsInScopeCutsLast(rows, f, true, Some(limit));
    var covered := Filter(rows, Covered(f));
    TakeMember(Sort(covered, NewestFirst()), limit, r);
    SortMember(covered, NewestFirst(), r);
    FilterMember(rows, Covered(f), r);
  }

  lemma SearchedMember(rows: seq<PgRow>, f: Scope, needle: Vector, query: Query, sqrt: real -> real, s: Scored)
    requires s in SearchInPython(rows, f, needle, query, sqrt)
    ensures s.1 in rows && Covered(f)(s.1)
  {
    var eligible := Eligible(rows, f, needle, query.minScore, sqrt);
    TakeMember(Sort(eligible, BestFirst()), query.limit, s);
    SortMember(eligible, BestFirst(), s);
    EligibleMember(rows, f, needle, query.minScore, sqrt, s);
  }

  /** Every hit is a covered row of the provider's store. */
  lemma HitIsCovered(cfg: Config, g: State, tenant: string, name: string, verb: Verb, m: ProviderMemory)
      returns (r: PgRow)
    requires name in cfg.caps && (verb.Search? || verb.ListScope?) && m in Hits(cfg, g, tenant, name, verb)
    ensures r in StoreOf(g, name) && Covered(verb.scope.Under(tenant))(r) && m == ToMemory(r, m.score)
  {
    var hits, rows, bound := Hits(cfg, g, tenant, name, verb), StoreOf(g, name), verb.scope.Under(tenant);
    var i :| 0 <= i < |hits| && hits[i] == m;
    if verb.Search? {
      var q := verb.query.(limit := Min(verb.query.limit, cfg.caps[name].maxLimit));
      var found := SearchInPython(rows, bound, cfg.embed(q.text), q, cfg.sqrt);
      r := found[i].1;
      SearchedMember(rows, bound, cfg.embed(q.text), q, cfg.sqrt, found[i]);
    } else {
      var limit := Min(verb.limit, cfg.caps[name].maxLimit);
      var found := RowsInScope(rows, bound, true, Some(limit));
      r := found[i];
      ListedMember(rows, bound, limit, r);
    }
  }

  lemma HitIsIndexed(cfg: Config, g: State, next: nat, tenant: string, name: string, verb: Verb, m: ProviderMemory)
    requires Inv(cfg, g, next) && tenant != "" && name in cfg.caps && (verb.Search? || verb.ListScope?)
    requires m in Hits(cfg, g, tenant, name, verb)
    ensures Key(tenant, name, m.native) in g.index && (Exact(g) ==> LiveAt(g.index, Key(tenant, name, m.native)))
  {
    var r := HitIsCovered(cfg, g, tenant, name, verb, m);
    CoveredTenant(verb.scope, tenant, r);
    assert r in g.stores[name] && KeyOfRow(name, r) == Key(tenant, name, m.native);
  }

  /** A page the index knows, live or not, is answered without touching the index. */
  lemma MapKnownPage(index: Index, tenant: string, provider: string, items: seq<Item>, scope: Scope, ids: seq<nat>)
    requires forall it | it in items :: Key(tenant, provider, it.native) in index
    ensures MissingAt(index, tenant, provider, items) == []
    ensures MapPage(index, tenant, provider, items, scope, false, ids)
            == Ok((index, LiveRows(index, tenant, provider, items)))
  {
    var known := Find(index, tenant, provider, Natives(items));
    forall it | it in items
      ensures !NotKnown(known)(it)
    {
      ItemInPage(tenant, provider, items, it);
    }
    FilterNone(items, NotKnown(known));
    assert index + map[] == index;
  }

  /** Every item of the hits' page is indexed, and every hit is in the page. */
  lemma HitsPage(cfg: Config, g: State, next: nat, tenant: string, name: string, verb: Verb)
    requires Inv(cfg, g, next) && tenant != "" && name in cfg.caps && (verb.Search? || verb.ListScope?)
    ensures var hits := Hits(cfg, g, tenant, name, verb);
            && (forall it | it in Items(hits) :: Key(tenant, name, it.native) in g.index)
            && (forall m | m in hits :: Item(m.native, m.content) in Items(hits))
  {
    hide Inv, Hits;
    var hits := Hits(cfg, g, tenant, name, verb);
    var items := Items(hits);
    forall it | it in items
      ensures Key(tenant, name, it.native) in g.index
    {
      var i :| 0 <= i < |items| && items[i] == it;
      HitIsIndexed(cfg, g, next, tenant, name, verb, hits[i]);
    }
    forall m | m in hits
      ensures Item(m.native, m.content) in items
    {
      var i :| 0 <= i < |hits| && hits[i] == m;
      assert items[i] == Item(m.native, m.content);
    }
  }

  lemma MapHitsIs(g: State, tenant: string, name: string, memories: seq<ProviderMemory>, scope: Scope, ids: seq<nat>)
    requires forall it | it in Items(memories) :: Key(tenant, name, it.native) in g.index
    requires forall m | m in memories :: Item(m.native, m.content) in Items(memories)
    ensures |MissingAt(g.index, tenant, name, Items(memories))| <= |ids|
    ensures MapHits(g, tenant, name, memories, scope, ids) == (g, Ok(RecordsAt(g.index, tenant, name, memories)))
  {
    MapKnownPage(g.index, tenant, name, Items(memories), scope, ids);
    ReadRecordsAre(g.index, tenant, name, Items(memories), memories);
    hide MapPage, MissingAt, LiveRows, ByNative, ReadRecords, RecordsAt, Items;
  }

  /** In a coupled state a read inserts nothing, needs no id, and answers with the live ones among its hits. */
  lemma ReadIs(cfg: Config, g: State, next: nat, e: Event, name: string)
    requires Inv(cfg, g, next) && e.tenant != "" && (e.verb.Search? || e.verb.ListScope?)
    requires Prepare(cfg, g.bindings, e.tenant, e.verb.scope, e.verb.asserted) == Ok(name)
    ensures Supplied(cfg, g, e)
    ensures |MissingAt(g.index, e.tenant, name, Items(Hits(cfg, g, e.tenant, name, e.verb)))| <= |e.ids|
    ensures var hits := Hits(cfg, g, e.tenant, name, e.verb);
            MapHits(g, e.tenant, name, hits, e.verb.scope, e.ids) == (g, Ok(RecordsAt(g.index, e.tenant, name, hits)))
  {
    hide Inv, Hits, MapHits, MissingAt, RecordsAt, Items, Prepare, Resolve;
    HitsPage(cfg, g, next, e.tenant, name, e.verb);
    MapHitsIs(g, e.tenant, name, Hits(cfg, g, e.tenant, name, e.verb), e.verb.scope, e.ids);
  }

  /** In a coupled state a listing is the live records of its hits. */
  lemma ListIs(cfg: Config, g: State, next: nat, e: Event)
    requires Inv(cfg, g, next) && e.tenant != "" && e.verb.ListScope?
    ensures Supplied(cfg, g, e)
    ensures var name := Prepare(cfg, g.bindings, e.tenant, e.verb.scope, e.verb.asserted);
            StepList(cfg, g, e) == (g,
              if name.Err? then Failed(name.error)
              else if !cfg.caps[name.value].supportsList then Failed(UnsupportedCapability)
              else Listing(RecordsAt(g.index, e.tenant, name.value, Hits(cfg, g, e.tenant, name.value, e.verb))))
  {
    var name := Prepare(cfg, g.bindings, e.tenant, e.verb.scope, e.verb.asserted);
    if name.Ok? { ReadIs(cfg, g, next, e, name.value); }
    hide Inv, Hits, MapHits, RecordsAt, MissingAt, MapPage, Prepare;
  }

  /** In a coupled state a search is the live records of its hits, served in the one mode the store has. */
  lemma SearchIs(cfg: Config, g: State, next: nat, e: Event)
    requires Inv(cfg, g, next) && e.tenant != "" && e.verb.Search?
    ensures Supplied(cfg, g, e)
    ensures var name := Prepare(cfg, g.bindings, e.tenant, e.verb.scope, e.verb.asserted);
            StepSearch(cfg, g, e) == (g,
              if name.Err? then Failed(name.error)
              else if SearchRefusal(cfg.caps[name.value], e.verb.query).Some?
              then Failed(SearchRefusal(cfg.caps[name.value], e.verb.query).value)
              else Found(RecordsAt(g.index, e.tenant, name.value, Hits(cfg, g, e.tenant, name.value, e.verb)),
                         name.value, e.verb.query.mode, Decided(cfg.caps[name.value], e.verb.query)))
  {
    var name := Prepare(cfg, g.bindings, e.tenant, e.verb.scope, e.verb.asserted);
    if name.Ok? { ReadIs(cfg, g, next, e, name.value); }
    hide Inv, Hits, MapHits, RecordsAt, MissingAt, MapPage, Prepare, SearchRefusal;
  }

  /** Under the coupling every event is supplied, and no read changes anything. */
  lemma ReadsChangeNothing(cfg: Config, g: State, next: nat, e: Event)
    requires Inv(cfg, g, next) && e.tenant != "" && (e.verb.Search? || e.verb.ListScope? || e.verb.Get?)
    ensures Supplied(cfg, g, e) && Step(cfg, g, e).0 == g
  {
    if e.verb.Search? {
      SearchIs(cfg, g, next, e);
    } else if e.verb.ListScope? {
      ListIs(cfg, g, next, e);
    }
    hide Inv, StepSearch, StepList, Supplied;
  }

  // -- by id ------------------------------------------------------------------------------------

  lemma ResolveIs(index: Index, tenant: string, id: nat, k: Key)
    requires IdsUnique(index)
    ensures Resolve(index, tenant, id) == Some(k) <==> Owns(index, k, tenant, id)
  {}

  lemma UpdateSupplied(cfg: Config, g: State, next: nat, e: Event)
    requires Inv(cfg, g, next) && e.verb.Update?
    ensures Supplied(cfg, g, e)
    ensures var found := Resolve(g.index, e.tenant, e.verb.id);
            found.Some? ==>
              var k := found.value;
              var items := [Item(k.native, e.verb.content)];
              MissingAt(g.index, e.tenant, k.provider, items) == []
              && MapPage(g.index, e.tenant, k.provider, items, ToRow(k, g.index[k]).RowScope(), true, e.ids)
                 == Ok((g.index, LiveRows(g.index, e.tenant, k.provider, items)))
  {
    var found := Resolve(g.index, e.tenant, e.verb.id);
    if found.Some? {
      var k := found.value;
      assert LiveAt(g.index, k) && k == Key(e.tenant, k.provider, k.native);
      MapLivePageIsIdentity(g.index, e.tenant, k.provider, [Item(k.native, e.verb.content)],
                            ToRow(k, g.index[k]).RowScope(), true, e.ids);
    }
  }

  lemma Supply(cfg: Config, g: State, next: nat, e: Event)
    requires Inv(cfg, g, next) && e.tenant != "" && Needs(cfg, g.bindings, e) <= |e.ids|
    ensures Supplied(cfg, g, e)
  {
    if e.verb.Update? {
      UpdateSupplied(cfg, g, next, e);
    } else if e.verb.Search? || e.verb.ListScope? {
      ReadsChangeNothing(cfg, g, next, e);
    }
  }

  function EditedRow(cfg: Config, e: Event, r: PgRow): PgRow
    requires e.verb.Update?
  {
    r.(content := e.verb.content, embedding := cfg.embed(e.verb.content), updatedAt := e.now)
  }

  /** An update rewrites one stored row's content and nothing else. */
  lemma UpdateIs(cfg: Config, g: State, next: nat, e: Event, k: Key)
    requires Inv(cfg, g, next) && e.verb.Update? && Owns(g.index, k, e.tenant, e.verb.id)
    ensures Supplied(cfg, g, e) && RowAt(g, k).Some? && k.provider in g.stores && k.provider in cfg.caps
    ensures StepUpdate(cfg, g, e) ==
              if !cfg.caps[k.provider].supportsUpdate then (g, Failed(UnsupportedCapability))
              else (g.(stores := g.stores[k.provider :=
                         Edited(g.stores[k.provider], k.native.tick, e.verb.content, cfg.embed(e.verb.content),
                                e.now)]),
                    One(RecordAt(g.index, k, ToMemory(EditedRow(cfg, e, RowAt(g, k).value), None))))
  {
    UpdateSupplied(cfg, g, next, e);
    ResolveIs(g.index, e.tenant, e.verb.id, k);
    hide MapPage, MissingAt, Edited, Indexed, JournalOk;
  }

  lemma UnresolvedFails(cfg: Config, g: State, e: Event)
    requires e.verb.Update? || e.verb.Get? || e.verb.Delete?
    requires forall k :: !Owns(g.index, k, e.tenant, e.verb.id)
    ensures Supplied(cfg, g, e) && Step(cfg, g, e) == (g, Failed(MemoryNotFound))
  {}

  lemma EditKeepsInv(cfg: Config, g: State, next: nat, p: string, tick: nat, content: string, embedding: Vector,
                     now: nat)
    requires Inv(cfg, g, next) && p in g.stores
    ensures var after := g.(stores := g.stores[p := Edited(g.stores[p], tick, content, embedding, now)]);
            Inv(cfg, after, next) && (Exact(g) ==> Exact(after))
  {
    var edited := Edited(g.stores[p], tick, content, embedding, now);
    var after := g.(stores := g.stores[p := edited]);
    EditedAt(g.stores[p], tick, content, embedding, now);
    forall r | r in edited
      ensures exists o :: o in g.stores[p] && o.tick == r.tick && o.scope == r.scope
    {
      var i :| 0 <= i < |edited| && edited[i] == r;
      assert g.stores[p][i] in g.stores[p];
    }
    assert DistinctTicks(edited);
    forall q, r | q in after.stores && r in after.stores[q]
      ensures var k := KeyOfRow(q, r); k in after.index && SameDims(k, after.index[k], r.scope)
      ensures Exact(g) ==> LiveAt(after.index, KeyOfRow(q, r))
    {
      if q == p {
        var o :| o in g.stores[p] && o.tick == r.tick && o.scope == r.scope;
        assert KeyOfRow(p, o) == KeyOfRow(p, r);
      }
    }
    forall k | LiveAt(after.index, k)
      ensures k.provider in after.stores && RowAt(after, k).Some?
              && SameDims(k, after.index[k], RowAt(after, k).value.scope)
    {
      if k.provider == p && k.native.Minted? {
        FindRowEdited(g.stores[p], tick, content, embedding, now, k.native.tick);
      }
    }
  }

  // -- deletes --------------------------------------------------------------------------------------

  lemma FilterStoresOk(cfg: Config, g: State, p: string, keep: PgRow -> bool, next: nat)
    requires StoresOk(cfg, g.stores, next) && p in g.stores
    ensures StoresOk(cfg, g.stores[p := Filter(g.stores[p], keep)], next)
    ensures forall r | r in Filter(g.stores[p], keep) :: r in g.stores[p] && keep(r)
  {
    FilterDistinct(g.stores[p], keep);
    forall r | r in Filter(g.stores[p], keep)
      ensures r in g.stores[p] && keep(r)
    {
      FilterMember(g.stores[p], keep, r);
    }
  }

  /** Rows may leave a store as long as none of them backs a row left live. */
  lemma EraseKeepsInv(cfg: Config, g: State, after: State, p: string, keep: PgRow -> bool, next: nat)
    requires Inv(cfg, g, next) && p in g.stores
    requires after.stores == g.stores[p := Filter(g.stores[p], keep)]
    requires after.index.Keys == g.index.Keys
    requires forall k | k in g.index :: after.index[k].(deleted := false) == g.index[k].(deleted := false)
    requires forall k | LiveAt(after.index, k) ::
               LiveAt(g.index, k) && (k.provider == p && RowAt(g, k).Some? ==> keep(RowAt(g, k).value))
    requires JournalOk(after, next)
    ensures Inv(cfg, after, next)
  {
    FilterStoresOk(cfg, g, p, keep, next);
    assert IndexOk(after.index, next) by {
      assert forall k | k in g.index :: after.index[k].gatewayId == g.index[k].gatewayId;
    }
    forall k | LiveAt(after.index, k)
      ensures k.provider in after.stores && RowAt(after, k).Some?
              && SameDims(k, after.index[k], RowAt(after, k).value.scope)
    {
      assert LiveAt(g.index, k);
      if k.provider == p { FindRowFilter(g.stores[p], keep, k.native.tick); }
    }
    forall q, r | q in after.stores && r in after.stores[q]
      ensures var k := KeyOfRow(q, r); k in after.index && SameDims(k, after.index[k], r.scope)
    {
      assert r in g.stores[q];
      assert KeyOfRow(q, r) in g.index;
    }
  }

  /** A delete by id removes one store row and one live index row, of the same memory. */
  lemma DeleteIs(cfg: Config, g: State, next: nat, e: Event, k: Key)
    requires Inv(cfg, g, next) && e.verb.Delete? && Owns(g.index, k, e.tenant, e.verb.id)
    ensures k.provider in g.stores && k.provider in cfg.caps && k.native.Minted?
    ensures StepDelete(cfg, g, e) ==
              if !cfg.caps[k.provider].supportsDelete then (g, Failed(UnsupportedCapability))
              else (g.(stores := g.stores[k.provider := Filter(g.stores[k.provider], OtherThan(k.native.tick))],
                       index := g.index[k := g.index[k].(deleted := true)]), Done)
  {
    ResolveIs(g.index, e.tenant, e.verb.id, k);
    assert MarkDeleted(g.index, e.tenant, e.verb.id) == g.index[k := g.index[k].(deleted := true)];
  }

  lemma DeleteKeepsInv(cfg: Config, g: State, next: nat, e: Event)
    requires Inv(cfg, g, next) && e.verb.Delete?
    ensures var after := StepDelete(cfg, g, e).0; Inv(cfg, after, next) && (Exact(g) ==> Exact(after))
  {
    hide Inv, Exact, StepDelete, Filter;
    if k :| Owns(g.index, k, e.tenant, e.verb.id) {
      DeleteIs(cfg, g, next, e, k);
      if cfg.caps[k.provider].supportsDelete {
        DropKeepsInv(cfg, g, next, StepDelete(cfg, g, e).0, k);
      }
    } else {
      UnresolvedFails(cfg, g, e);
      assert Step(cfg, g, e) == StepDelete(cfg, g, e);
    }
  }

  /** One store row and the live index row of the same key go together. */
  lemma DropKeepsInv(cfg: Config, g: State, next: nat, after: State, k: Key)
    requires Inv(cfg, g, next) && LiveAt(g.index, k) && k.provider in g.stores && k.native.Minted?
    requires after == g.(stores := g.stores[k.provider := Filter(g.stores[k.provider], OtherThan(k.native.tick))],
                         index := g.index[k := g.index[k].(deleted := true)])
    ensures Inv(cfg, after, next) && (Exact(g) ==> Exact(after))
  {
    hide Filter, FindRow;
    forall l | LiveAt(after.index, l)
      ensures LiveAt(g.index, l)
      ensures l.provider == k.provider && RowAt(g, l).Some? ==> OtherThan(k.native.tick)(RowAt(g, l).value)
    {
      if l.native.Minted? { FindRowIn(StoreOf(g, l.provider), l.native.tick); }
    }
    FilterStoresOk(cfg, g, k.provider, OtherThan(k.native.tick), next);
    JournalKept(g, after, next);
    hide StoresOk, IndexOk, JournalOk, Indexed, Backed;
    EraseKeepsInv(cfg, g, after, k.provider, OtherThan(k.native.tick), next);
  }

  lemma JournalKept(g: State, after: State, next: nat)
    requires JournalOk(g, next) && after.journal == g.journal && after.index.Keys == g.index.Keys
    ensures JournalOk(after, next)
  {}

  /** On their shared dimensions a filter covers an index row exactly when it covers the store row. */
  lemma SameDimsSameCover(f: Scope, k: Key, r: IndexRow, s: Scope)
    requires SameDims(k, r, s)
    ensures CoversDims(f, RowDims(k, r)) <==> CoversDims(f, s)
  {
    assert forall d: Dim :: RowDims(k, r).Column(d) == s.Column(d);
  }

  lemma TombstonedIff(cfg: Config, g: State, next: nat, tenant: string, scope: Scope, name: string, k: Key)
    requires Inv(cfg, g, next) && tenant != "" && LiveAt(g.index, k)
    ensures RowAt(g, k).Some?
    ensures InIndexScope(k, g.index[k], tenant, scope, name)
       <==> k.provider == name && CoversDims(scope.Under(tenant), RowAt(g, k).value.scope)
  {
    IndexScopeCovers(k, g.index[k], tenant, scope, name);
    SameDimsSameCover(scope.Under(tenant), k, g.index[k], RowAt(g, k).value.scope);
  }

  lemma {:induction false} FilterKeepsOrder(journal: seq<JournalRow>, p: JournalRow -> bool)
    requires Ascending(journal)
    ensures Ascending(Filter(journal, p))
  {
    if journal != [] {
      FilterKeepsOrder(journal[1..], p);
      var rest := Filter(journal[1..], p);
      forall j | 0 <= j < |rest|
        ensures journal[0].episode < rest[j].episode
      {
        FilterMember(journal[1..], p, rest[j]);
        var i :| 0 <= i < |journal[1..]| && journal[1..][i] == rest[j];
        assert journal[i + 1] == rest[j];
      }
    }
  }

  lemma JournalFilterOk(g: State, after: State, p: JournalRow -> bool, next: nat)
    requires JournalOk(g, next) && after.journal == Filter(g.journal, p) && after.index.Keys == g.index.Keys
    ensures JournalOk(after, next)
  {
    FilterKeepsOrder(g.journal, p);
    forall j | j in after.journal
      ensures j in g.journal
    {
      FilterMember(g.journal, p, j);
    }
  }

  lemma DeleteScopeKeepsInv(cfg: Config, g: State, next: nat, e: Event)
    requires Inv(cfg, g, next) && e.tenant != "" && e.verb.DeleteScope?
    ensures Inv(cfg, StepDeleteScope(cfg, g, e).0, next)
  {
    var after := StepDeleteScope(cfg, g, e).0;
    var name := Prepare(cfg, g.bindings, e.tenant, e.verb.scope, e.verb.asserted);
    if name.Ok? && cfg.caps[name.value].supportsDeleteByScope {
      var p, bound := name.value, e.verb.scope.Under(e.tenant);
      JournalFilterOk(g, after, OutsideScope(e.tenant, e.verb.scope), next);
      forall k | LiveAt(after.index, k)
        ensures LiveAt(g.index, k) && (k.provider == p && RowAt(g, k).Some? ==> Uncovered(bound)(RowAt(g, k).value))
      {
        assert k in g.index && !InIndexScope(k, g.index[k], e.tenant, e.verb.scope, p);
        TombstonedIff(cfg, g, next, e.tenant, e.verb.scope, p, k);
        CoveredIsCovers(bound, RowAt(g, k).value);
      }
      EraseKeepsInv(cfg, g, after, p, Uncovered(bound), next);
    }
  }

  // -- every verb ---------------------------------------------------------------------------------------

  lemma JournalAppendOk(g: State, j: JournalRow, next: nat, upto: nat)
    requires JournalOk(g, upto) && next <= j.episode < upto && forall x | x in g.journal :: x.episode < next
    requires forall n | n in j.natives :: Key(j.tenant, j.provider, n) in g.index
    ensures JournalOk(g.(journal := g.journal + [j]), upto)
  {
    var after := g.journal + [j];
    forall i, k | 0 <= i < k < |after|
      ensures after[i].episode < after[k].episode
    {
      assert after[i] in g.journal;
    }
  }

  /** An ingest is a write of the extracted facts, plus, when enabled, one journal row naming every native it
      produced. */
  lemma IngestIs(cfg: Config, g: State, next: nat, e: Event, upto: nat)
    requires Inv(cfg, g, next) && Proper(cfg, g.bindings, e, next, upto) && e.verb.Ingest?
    ensures var name := Prepare(cfg, g.bindings, e.tenant, e.verb.scope, e.verb.asserted);
            StepIngest(cfg, g, e) ==
              if name.Err? then (g, Failed(name.error))
              else if !cfg.caps[name.value].supportsIngest then (g, Failed(UnsupportedCapability))
              else
                var (after, answer) :=
                    WriteFacts(cfg, g, e.tenant, name.value, e.verb.facts, e.verb.scope, e.ids, e.now);
                (if cfg.journalEnabled then after.(journal := after.journal + [Episode(e, name.value)])
                 else after, answer)
  {
    hide WriteFacts, Inv, Episode, FreshIds;
    var name := Prepare(cfg, g.bindings, e.tenant, e.verb.scope, e.verb.asserted);
    if name.Ok? && cfg.caps[name.value].supportsIngest {
      WriteSucceeds(cfg, g, e.tenant, name.value, e.verb.facts, e.verb.scope, e.ids, e.now, next, upto);
    }
  }

  lemma WriteSucceeds(cfg: Config, g: State, tenant: string, name: string, facts: seq<string>, scope: Scope,
                      ids: seq<nat>, now: nat, next: nat, upto: nat)
    requires Inv(cfg, g, next) && name in cfg.caps && FreshIds(ids, next, upto) && 2 * |facts| <= |ids|
    ensures WriteFacts(cfg, g, tenant, name, facts, scope, ids, now).1.Written?
  {
    WriteFactsIs(cfg, g, tenant, name, facts, scope, ids, now, next, upto);
  }

  lemma IngestKeepsInv(cfg: Config, g: State, next: nat, e: Event, upto: nat)
    requires Inv(cfg, g, next) && Proper(cfg, g.bindings, e, next, upto) && e.verb.Ingest?
    ensures var after := StepIngest(cfg, g, e).0; Inv(cfg, after, upto) && (Exact(g) ==> Exact(after))
  {
    hide StepIngest, WriteFacts, Inv, Exact, Prepare;
    var v := e.verb;
    var name := Prepare(cfg, g.bindings, e.tenant, v.scope, v.asserted);
    IngestIs(cfg, g, next, e, upto);
    InvGrows(cfg, g, next, upto);
    if name.Ok? && cfg.caps[name.value].supportsIngest {
      AcceptedNeeds(cfg, g.bindings, e, name.value);
      WriteFactsKeepsInv(cfg, g, e.tenant, name.value, v.facts, v.scope, e.ids, e.now, next, upto);
      if cfg.journalEnabled {
        var after := WriteFacts(cfg, g, e.tenant, name.value, v.facts, v.scope, e.ids, e.now).0;
        EpisodeIndexed(after.index, e, name.value, next, upto);
        JournaledInv(cfg, g, after, Episode(e, name.value), next, upto);
      }
    }
  }

  /** What an accepted write draws. */
  lemma AcceptedNeeds(cfg: Config, bindings: Bindings, e: Event, name: string)
    requires e.verb.Upsert? || e.verb.Ingest?
    requires Prepare(cfg, bindings, e.tenant, e.verb.scope, e.verb.asserted) == Ok(name)
    ensures e.verb.Upsert? && e.verb.facts != [] && cfg.caps[name].supportsUpsert ==>
              Needs(cfg, bindings, e) == 2 * |e.verb.facts|
    ensures e.verb.Ingest? && cfg.caps[name].supportsIngest ==>
              Needs(cfg, bindings, e) == 2 * |e.verb.facts| + if cfg.journalEnabled then 1 else 0
  {}

  lemma EpisodeIndexed(index: Index, e: Event, name: string, next: nat, upto: nat)
    requires e.verb.Ingest? && 2 * |e.verb.facts| < |e.ids| && FreshIds(e.ids, next, upto)
    requires forall i | 0 <= i < |e.verb.facts| :: Key(e.tenant, name, Minted(e.ids[i])) in index
    ensures var j := Episode(e, name);
            next <= j.episode < upto && forall n | n in j.natives :: Key(j.tenant, j.provider, n) in index
  {
    var j := Episode(e, name);
    assert e.ids[2 * |e.verb.facts|] in e.ids;
    forall n | n in j.natives
      ensures Key(j.tenant, j.provider, n) in index
    {
      var i :| 0 <= i < |j.natives| && j.natives[i] == n;
    }
  }

  lemma JournaledInv(cfg: Config, g: State, after: State, j: JournalRow, next: nat, upto: nat)
    requires Inv(cfg, g, next) && Inv(cfg, after, upto) && after.journal == g.journal
    requires next <= j.episode < upto && forall n | n in j.natives :: Key(j.tenant, j.provider, n) in after.index
    ensures var journaled := after.(journal := after.journal + [j]);
            Inv(cfg, journaled, upto) && (Exact(after) ==> Exact(journaled))
  {
    hide IndexOk, StoresOk;
    assert forall x | x in g.journal :: x.episode < next;
    JournalAppendOk(after, j, next, upto);
  }

  lemma InvGrows(cfg: Config, g: State, next: nat, upto: nat)
    requires Inv(cfg, g, next) && next <= upto
    ensures Inv(cfg, g, upto)
  {}

  lemma UpdateKeepsInv(cfg: Config, g: State, next: nat, e: Event)
    requires Inv(cfg, g, next) && e.verb.Update?
    ensures Supplied(cfg, g, e)
    ensures var after := StepUpdate(cfg, g, e).0; Inv(cfg, after, next) && (Exact(g) ==> Exact(after))
  {
    if k :| Owns(g.index, k, e.tenant, e.verb.id) {
      UpdateIs(cfg, g, next, e, k);
      EditKeepsInv(cfg, g, next, k.provider, k.native.tick, e.verb.content, cfg.embed(e.verb.content), e.now);
    } else {
      UnresolvedFails(cfg, g, e);
    }
  }

  lemma BindingsKeepInv(cfg: Config, g: State, next: nat, b: Bindings)
    requires Inv(cfg, g, next)
    ensures Inv(cfg, g.(bindings := b), next) && (Exact(g) ==> Exact(g.(bindings := b)))
  {}

  /** Every verb, by any tenant, keeps the coupling; and only an erasure by scope can break its exactness. */
  lemma StepKeepsInv(cfg: Config, g: State, next: nat, e: Event, upto: nat)
    requires Inv(cfg, g, next) && Proper(cfg, g.bindings, e, next, upto)
    ensures Supplied(cfg, g, e)
    ensures Inv(cfg, Step(cfg, g, e).0, upto)
    ensures Exact(g) && !e.verb.DeleteScope? ==> Exact(Step(cfg, g, e).0)
  {
    hide Inv, Exact, WriteFacts, StepIngest, StepUpdate, StepSearch, StepList, StepGet, StepDelete, StepDeleteScope,
         Prepare;
    Supply(cfg, g, next, e);
    InvGrows(cfg, g, next, upto);
    match e.verb
    case Ingest(_, _, _, _) => IngestKeepsInv(cfg, g, next, e, upto);
    case Upsert(facts, scope, asserted) => UpsertKeepsInv(cfg, g, next, e, upto);
    case Update(_, _) => UpdateKeepsInv(cfg, g, next, e); InvGrows(cfg, Step(cfg, g, e).0, next, upto);
    case Search(_, _, _) => ReadsChangeNothing(cfg, g, next, e);
    case ListScope(_, _, _) => ReadsChangeNothing(cfg, g, next, e);
    case Get(_) => ReadsChangeNothing(cfg, g, next, e);
    case Delete(_) => DeleteKeepsInv(cfg, g, next, e); InvGrows(cfg, Step(cfg, g, e).0, next, upto);
    case DeleteScope(_, _) => DeleteScopeKeepsInv(cfg, g, next, e); InvGrows(cfg, Step(cfg, g, e).0, next, upto);
    case RebindSubject(subject, provider, _) =>
      BindingsKeepInv(cfg, g, upto, Rebind(g.bindings, e.tenant, subject, provider));
  }

  lemma UpsertKeepsInv(cfg: Config, g: State, next: nat, e: Event, upto: nat)
    requires Inv(cfg, g, next) && Proper(cfg, g.bindings, e, next, upto) && e.verb.Upsert?
    ensures var after := StepUpsert(cfg, g, e).0; Inv(cfg, after, upto) && (Exact(g) ==> Exact(after))
  {
    hide WriteFacts, Inv, Exact;
    var name := Prepare(cfg, g.bindings, e.tenant, e.verb.scope, e.verb.asserted);
    InvGrows(cfg, g, next, upto);
    if name.Ok? && e.verb.facts != [] && cfg.caps[name.value].supportsUpsert {
      WriteFactsKeepsInv(cfg, g, e.tenant, name.value, e.verb.facts, e.verb.scope, e.ids, e.now, next, upto);
    }
  }
}
