/** The gateway from outside: a plain map of memories, which every step and every run refines. */
module Refinement {
  import opened Prelude
  import opened Scopes
  import opened MemoryIndex
  import opened Vectors
  import opened Pgvector
  import opened Gateway
  import opened GatewayInvariant
  import opened Runs

  // -- the abstract memory ---------------------------------------------------------------

  /** A memory as callers think of it. The scope is the one it was written under, tenant included. */
  datatype Memory = Memory(id: nat, scope: Scope, content: string, createdAt: nat, updatedAt: nat)

  function MemoryOf(id: nat, r: PgRow): Memory { Memory(id, r.scope, r.content, r.createdAt, r.updatedAt) }

  type Memories = map<Key, Memory>

  /** Forget the tombstones, the store layout and the journal. */
  function Abs(g: State): Memories {
    map k | k in g.index && LiveAt(g.index, k) && RowAt(g, k).Some? :: MemoryOf(g.index[k].gatewayId, RowAt(g, k).value)
  }

  ghost function SpecFind(mem: Memories, tenant: string, id: nat): Option<Key> {
    if exists k :: k in mem && k.tenant == tenant && mem[k].id == id
    then var k :| k in mem && k.tenant == tenant && mem[k].id == id; Some(k) else None
  }

  /** One memory per fact. */
  function NewMemories(tenant: string, name: string, facts: seq<string>, scope: Scope, ids: seq<nat>, n: nat,
                       now: nat): Memories
    requires n + |facts| <= |ids| && |facts| <= n
  {
    if facts == [] then map[]
    else
      var i := |facts| - 1;
      NewMemories(tenant, name, facts[..i], scope, ids, n, now)[
        Key(tenant, name, Minted(ids[i])) := Memory(ids[n + i], scope.Under(tenant), facts[i], now, now)]
  }

  /** What each verb does to the memories, erasures included: they forget by dimensions and never look at labels. */
  ghost function ActualStep(cfg: Config, mem: Memories, bindings: Bindings, e: Event): Memories
    requires Needs(cfg, bindings, e) <= |e.ids|
  {
    match e.verb
    case Ingest(_, _, _, _) => ActualWrite(cfg, mem, bindings, e)
    case Upsert(_, _, _) => ActualWrite(cfg, mem, bindings, e)
    case Update(id, content) =>
      var k := SpecFind(mem, e.tenant, id);
      if k.Some? && k.value.provider in cfg.caps && cfg.caps[k.value.provider].supportsUpdate
      then mem[k.value := mem[k.value].(content := content, updatedAt := e.now)] else mem
    case Delete(id) =>
      var k := SpecFind(mem, e.tenant, id);
      if k.Some? && k.value.provider in cfg.caps && cfg.caps[k.value.provider].supportsDelete then mem - {k.value}
          else mem
    case DeleteScope(scope, asserted) =>
      var name := Prepare(cfg, bindings, e.tenant, scope, asserted);
      if name.Ok? && cfg.caps[name.value].supportsDeleteByScope
      then ForgetDims(mem, name.value, scope.Under(e.tenant)) else mem
    case _ => mem
  }

  ghost function ActualWrite(cfg: Config, mem: Memories, bindings: Bindings, e: Event): Memories
    requires (e.verb.Upsert? || e.verb.Ingest?) && Needs(cfg, bindings, e) <= |e.ids|
  {
    if !Accepted(cfg, bindings, e) then mem
    else mem + NewMemories(e.tenant, Prepare(cfg, bindings, e.tenant, e.verb.scope, e.verb.asserted).value,
                           e.verb.facts, e.verb.scope, e.ids, |e.verb.facts|, e.now)
  }

  /** The simple per-tenant memory the gateway claims to be: the same, except that an erasure forgets what it covers. */
  ghost function SpecStep(cfg: Config, mem: Memories, bindings: Bindings, e: Event): Memories
    requires Needs(cfg, bindings, e) <= |e.ids|
  {
    match e.verb
    case DeleteScope(scope, asserted) =>
      var name := Prepare(cfg, bindings, e.tenant, scope, asserted);
      if name.Ok? && cfg.caps[name.value].supportsDeleteByScope
      then SpecErase(mem, name.value, scope.Under(e.tenant)) else mem
    case _ => ActualStep(cfg, mem, bindings, e)
  }

  ghost function ForgetDims(mem: Memories, name: string, bound: Scope): Memories {
    map k | k in mem && !(k.provider == name && CoversDims(bound, mem[k].scope)) :: mem[k]
  }

  ghost function SpecErase(mem: Memories, name: string, bound: Scope): Memories {
    map k | k in mem && !(k.provider == name && Covers(bound, mem[k].scope)) :: mem[k]
  }

  lemma AbsAt(cfg: Config, g: State, next: nat, k: Key)
    requires Inv(cfg, g, next)
    ensures k in Abs(g) <==> LiveAt(g.index, k)
    ensures LiveAt(g.index, k) ==> RowAt(g, k).Some? && Abs(g)[k] == MemoryOf(g.index[k].gatewayId, RowAt(g, k).value)
  {}

  lemma {:induction false} NewMemoryKey(tenant: string, name: string, facts: seq<string>, scope: Scope, ids: seq<nat>,
                                        n: nat, now: nat, k: Key)
    requires n + |facts| <= |ids| && |facts| <= n
    ensures k in NewMemories(tenant, name, facts, scope, ids, n, now)
       <==> exists i :: 0 <= i < |facts| && k == Key(tenant, name, Minted(ids[i]))
  {
    if facts != [] {
      NewMemoryKey(tenant, name, facts[..|facts| - 1], scope, ids, n, now, k);
    }
  }

  lemma {:induction false} NewMemoryAt(tenant: string, name: string, facts: seq<string>, scope: Scope, ids: seq<nat>,
                                       n: nat, now: nat, i: nat)
    requires n + |facts| <= |ids| && i < |facts| <= n && Increasing(ids)
    ensures var newcomers, k := NewMemories(tenant, name, facts, scope, ids, n, now), Key(tenant, name, Minted(ids[i]));
            k in newcomers && newcomers[k] == Memory(ids[n + i], scope.Under(tenant), facts[i], now, now)
  {
    var j := |facts| - 1;
    if i < j {
      NewMemoryAt(tenant, name, facts[..j], scope, ids, n, now, i);
      assert ids[i] < ids[j];
    }
  }

  lemma NewMemoriesAt(tenant: string, name: string, facts: seq<string>, scope: Scope, ids: seq<nat>, n: nat, now: nat)
    requires n + |facts| <= |ids| && |facts| <= n && Increasing(ids)
    ensures var newcomers := NewMemories(tenant, name, facts, scope, ids, n, now);
            && (forall k :: k in newcomers <==> exists i :: 0 <= i < |facts| && k == Key(tenant, name, Minted(ids[i])))
            && (forall i :: 0 <= i < |facts| ==> var k := Key(tenant, name, Minted(ids[i]));
                  k in newcomers && newcomers[k] == Memory(ids[n + i], scope.Under(tenant), facts[i], now, now))
  {
    hide NewMemories;
    forall k
      ensures k in NewMemories(tenant, name, facts, scope, ids, n, now)
         <==> exists i :: 0 <= i < |facts| && k == Key(tenant, name, Minted(ids[i]))
    {
      NewMemoryKey(tenant, name, facts, scope, ids, n, now, k);
    }
    forall i | 0 <= i < |facts|
      ensures var newcomers, k := NewMemories(tenant, name, facts, scope, ids, n, now),
              Key(tenant, name, Minted(ids[i]));
              k in newcomers && newcomers[k] == Memory(ids[n + i], scope.Under(tenant), facts[i], now, now)
    {
      NewMemoryAt(tenant, name, facts, scope, ids, n, now, i);
    }
  }

  /** The index row, the store row and the memory of one new key agree. */
  ghost predicate Arrives(rows: Index, added: seq<PgRow>, newcomers: Memories, name: string, next: nat, k: Key) {
    && (k in rows <==> k in newcomers)
    && (k in rows ==>
          && k.provider == name && k.native.Minted? && next <= k.native.tick && !rows[k].deleted
          && FindRow(added, k.native.tick).Some?
          && newcomers[k] == MemoryOf(rows[k].gatewayId, FindRow(added, k.native.tick).value))
  }

  lemma ArrivalRefines(cfg: Config, g: State, after: State, rows: Index, added: seq<PgRow>, newcomers: Memories,
                       name: string,
                       next: nat, upto: nat, k: Key)
    requires Inv(cfg, g, next) && Inv(cfg, after, upto) && AddsTo(g, after, rows, added, name)
    requires Arrives(rows, added, newcomers, name, next, k)
    ensures k in Abs(after) <==> k in Abs(g) || k in newcomers
    ensures k in Abs(after) ==> Abs(after)[k] == if k in newcomers then newcomers[k] else Abs(g)[k]
  {
    AbsAt(cfg, g, next, k);
    AbsAt(cfg, after, upto, k);
    assert StoresOk(cfg, g.stores, next);
    hide FindRow, IndexOk, StoresOk, Indexed, Backed, JournalOk, Abs;
    if k.native.Minted? && k.provider == name {
      FindRowAppend(g.stores[name], added, k.native.tick);
      FindRowIn(g.stores[name], k.native.tick);
      if k in rows {
        assert FindRow(g.stores[name],
                       k.native.tick).None? by { TickBeyondStore(cfg, g.stores, next, name, k.native.tick); }
      }
    }
  }

  lemma TickBeyondStore(cfg: Config, stores: map<string, seq<PgRow>>, next: nat, name: string, tick: nat)
    requires StoresOk(cfg, stores, next) && name in stores && next <= tick
    ensures FindRow(stores[name], tick) == None
  {
    FindRowIn(stores[name], tick);
  }

  /** A write adds exactly its facts. */
  lemma WriteRefines(cfg: Config, g: State, tenant: string, name: string, facts: seq<string>, scope: Scope,
                     ids: seq<nat>, now: nat, next: nat, upto: nat)
    requires Inv(cfg, g, next) && tenant != "" && name in cfg.caps && FreshIds(ids, next, upto) && 2 * |facts| <= |ids|
    ensures Abs(WriteFacts(cfg, g, tenant, name, facts, scope, ids, now).0)
         == Abs(g) + NewMemories(tenant, name, facts, scope, ids, |facts|, now)
  {
    hide *;
    var after := WriteFacts(cfg, g, tenant, name, facts, scope, ids, now).0;
    WriteAddsTo(cfg, g, tenant, name, facts, scope, ids, now, next, upto);
    ArrivalsRefine(cfg, g, after, InsertRows(tenant, name, FactItems(facts, ids), scope, ids[|facts|..2 * |facts|]),
                   NewRows(facts, cfg.embed, scope.Under(tenant), ids[..|facts|], now),
                   NewMemories(tenant, name, facts, scope, ids, |facts|, now), name, next, upto);
  }

  lemma WriteAddsTo(cfg: Config, g: State, tenant: string, name: string, facts: seq<string>, scope: Scope,
                    ids: seq<nat>, now: nat, next: nat, upto: nat)
    requires Inv(cfg, g, next) && tenant != "" && name in cfg.caps && FreshIds(ids, next, upto) && 2 * |facts| <= |ids|
    ensures var after := WriteFacts(cfg, g, tenant, name, facts, scope, ids, now).0;
            var rows := InsertRows(tenant, name, FactItems(facts, ids), scope, ids[|facts|..2 * |facts|]);
            var added := NewRows(facts, cfg.embed, scope.Under(tenant), ids[..|facts|], now);
            && Inv(cfg, after, upto) && AddsTo(g, after, rows, added, name)
            && forall k :: Arrives(rows, added, NewMemories(tenant, name, facts, scope, ids, |facts|, now), name, next,
                                   k)
  {
    hide WriteFacts, NewRows, InsertRows, NewMemories, FreshIds, Arrives, FactItems, Inv;
    WriteState(cfg, g, tenant, name, facts, scope, ids, now, next, upto);
    ProviderHasStore(cfg, g, next, name);
    WriteFactsKeepsInv(cfg, g, tenant, name, facts, scope, ids, now, next, upto);
    var rows := InsertRows(tenant, name, FactItems(facts, ids), scope, ids[|facts|..2 * |facts|]);
    var added := NewRows(facts, cfg.embed, scope.Under(tenant), ids[..|facts|], now);
    forall k
      ensures Arrives(rows, added, NewMemories(tenant, name, facts, scope, ids, |facts|, now), name, next, k)
    {
      WrittenKeys(cfg, facts, scope, tenant, name, ids, now, next, upto, k);
    }
  }

  lemma ArrivalsRefine(cfg: Config, g: State, after: State, rows: Index, added: seq<PgRow>, newcomers: Memories,
                       name: string,
                       next: nat, upto: nat)
    requires Inv(cfg, g, next) && Inv(cfg, after, upto) && AddsTo(g, after, rows, added, name)
    requires forall k :: Arrives(rows, added, newcomers, name, next, k)
    ensures Abs(after) == Abs(g) + newcomers
  {
    hide *;
    forall k
      ensures k in Abs(after) <==> k in Abs(g) || k in newcomers
      ensures k in Abs(after) ==> Abs(after)[k] == if k in newcomers then newcomers[k] else Abs(g)[k]
    {
      ArrivalRefines(cfg, g, after, rows, added, newcomers, name, next, upto, k);
    }
  }

  /** The index keys a write inserts, with the store row behind each. */
  lemma WrittenKeys(cfg: Config, facts: seq<string>, scope: Scope, tenant: string, name: string, ids: seq<nat>,
                    now: nat,
                    next: nat, upto: nat, k: Key)
    requires 2 * |facts| <= |ids| && FreshIds(ids, next, upto)
    ensures var n := |facts|;
            var added := NewRows(facts, cfg.embed, scope.Under(tenant), ids[..n], now);
            var rows := InsertRows(tenant, name, FactItems(facts, ids), scope, ids[n..2 * n]);
            var newcomers := NewMemories(tenant, name, facts, scope, ids, n, now);
            Arrives(rows, added, newcomers, name, next, k)
  {
    hide NewRows, InsertRows, FindRow, NewMemories, FreshIds, Increasing, Arrives;
    var n, items := |facts|, FactItems(facts, ids);
    WrittenKeysAgree(facts, scope, tenant, name, ids, now, next, upto, k);
    if i :| 0 <= i < n && k == Key(tenant, name, Minted(ids[i])) {
      WrittenKey(cfg, facts, scope, tenant, name, ids, now, next, upto, i);
    } else {
      NobodyArrives(InsertRows(tenant, name, items, scope, ids[n..2 * n]),
                    NewRows(facts, cfg.embed, scope.Under(tenant), ids[..n], now),
                    NewMemories(tenant, name, facts, scope, ids, n, now), name, next, k);
    }
  }

  lemma NobodyArrives(rows: Index, added: seq<PgRow>, newcomers: Memories, name: string, next: nat, k: Key)
    requires k !in rows && k !in newcomers
    ensures Arrives(rows, added, newcomers, name, next, k)
  {}

  lemma WrittenKeysAgree(facts: seq<string>, scope: Scope, tenant: string, name: string, ids: seq<nat>, now: nat,
                         next: nat, upto: nat, k: Key)
    requires 2 * |facts| <= |ids| && FreshIds(ids, next, upto)
    ensures var written := exists i :: 0 <= i < |facts| && k == Key(tenant, name, Minted(ids[i]));
            && (k in NewMemories(tenant, name, facts, scope, ids, |facts|, now) <==> written)
            && (k in InsertRows(tenant, name, FactItems(facts, ids), scope, ids[|facts|..2 * |facts|]) <==> written)
  {
    var n, items := |facts|, FactItems(facts, ids);
    FactNatives(facts, ids, k.native);
    NewMemoryKey(tenant, name, facts, scope, ids, n, now, k);
    InsertRowsKeys(tenant, name, items, scope, ids[n..2 * n]);
    hide InsertRows, NewMemories, FreshIds, Natives;
  }

  lemma FactNatives(facts: seq<string>, ids: seq<nat>, n: Native)
    requires |facts| <= |ids|
    ensures n in Natives(FactItems(facts, ids)) <==> exists i :: 0 <= i < |facts| && n == Minted(ids[i])
  {
    var natives := Natives(FactItems(facts, ids));
    assert forall i | 0 <= i < |facts| :: natives[i] == Minted(ids[i]);
  }

  /** Fact i. */
  lemma WrittenKey(cfg: Config, facts: seq<string>, scope: Scope, tenant: string, name: string, ids: seq<nat>, now: nat,
                   next: nat, upto: nat, i: nat)
    requires 2 * |facts| <= |ids| && FreshIds(ids, next, upto) && i < |facts|
    ensures var n := |facts|;
            var added := NewRows(facts, cfg.embed, scope.Under(tenant), ids[..n], now);
            var rows := InsertRows(tenant, name, FactItems(facts, ids), scope, ids[n..2 * n]);
            var newcomers := NewMemories(tenant, name, facts, scope, ids, n, now);
            Arrives(rows, added, newcomers, name, next, Key(tenant, name, Minted(ids[i])))
  {
    hide NewRows, InsertRows, FindRow, NewMemories, Natives, Distinct;
    var n := |facts|;
    var added := NewRows(facts, cfg.embed, scope.Under(tenant), ids[..n], now);
    NewMemoriesAt(tenant, name, facts, scope, ids, n, now);
    NewRowsAt(facts, cfg.embed, scope.Under(tenant), ids[..n], now);
    FactItemsFresh(map[], tenant, name, facts, ids, next, upto);
    NewRowsDistinct(facts, cfg.embed, scope.Under(tenant), ids, now, next, upto);
    FactPair(cfg, facts, scope, tenant, name, ids, now, next, upto, i);
    hide Increasing;
    FindRowOf(added, added[i]);
  }

  /** Looking an id up among the memories is resolving it in the index. */
  lemma SpecFindIs(cfg: Config, g: State, next: nat, tenant: string, id: nat)
    requires Inv(cfg, g, next)
    ensures SpecFind(Abs(g), tenant, id) == Resolve(g.index, tenant, id)
  {
    forall k
      ensures k in Abs(g) && k.tenant == tenant && Abs(g)[k].id == id <==> Owns(g.index, k, tenant, id)
    {
      AbsAt(cfg, g, next, k);
    }
  }

  lemma EditAbs(cfg: Config, g: State, next: nat, k: Key, content: string, embedding: Vector, now: nat)
    requires Inv(cfg, g, next) && LiveAt(g.index, k) && k.provider in g.stores && k.native.Minted?
    ensures k in Abs(g)
    ensures Abs(g.(stores := g.stores[k.provider :=
                                      Edited(g.stores[k.provider], k.native.tick, content, embedding, now)]))
         == Abs(g)[k := Abs(g)[k].(content := content, updatedAt := now)]
  {
    hide Inv, Abs, Edited, LiveAt;
    var after := g.(stores := g.stores[k.provider :=
                                       Edited(g.stores[k.provider], k.native.tick, content, embedding, now)]);
    AbsAt(cfg, g, next, k);
    var mem := Abs(g)[k := Abs(g)[k].(content := content, updatedAt := now)];
    forall l
      ensures l in Abs(after) <==> l in mem
      ensures l in mem ==> Abs(after)[l] == mem[l]
    {
      EditAbsAt(cfg, g, next, k, content, embedding, now, l);
    }
  }

  lemma EditAbsAt(cfg: Config, g: State, next: nat, k: Key, content: string, embedding: Vector, now: nat, l: Key)
    requires Inv(cfg, g, next) && LiveAt(g.index, k) && k.provider in g.stores && k.native.Minted?
    ensures var after := g.(stores :=
                            g.stores[k.provider :=
                                     Edited(g.stores[k.provider], k.native.tick, content, embedding, now)]);
            && k in Abs(g)
            && (l in Abs(after) <==> l in Abs(g))
            && (l in Abs(g) ==> Abs(after)[l] == if l == k then Abs(g)[k].(content := content, updatedAt := now)
                else Abs(g)[l])
  {
    hide Abs, Edited, FindRow, Inv;
    var after := g.(stores := g.stores[k.provider :=
                                       Edited(g.stores[k.provider], k.native.tick, content, embedding, now)]);
    EditKeepsInv(cfg, g, next, k.provider, k.native.tick, content, embedding, now);
    AbsAt(cfg, g, next, k);
    AbsAt(cfg, g, next, l);
    AbsAt(cfg, after, next, l);
    if LiveAt(g.index, l) {
      LiveIsOne(cfg, g, next, k, l);
      FindRowEdited(StoreOf(g, l.provider), k.native.tick, content, embedding, now, l.native.tick);
    }
  }

  /** A live key is minted, stored, and shares its native with no other key of its provider. */
  lemma LiveIsOne(cfg: Config, g: State, next: nat, k: Key, l: Key)
    requires Inv(cfg, g, next) && k in g.index && LiveAt(g.index, l)
    ensures l.native.Minted? && l.provider in g.stores && (k.provider == l.provider && k.native == l.native ==> k == l)
  {}

  lemma UpdateRefines(cfg: Config, g: State, next: nat, e: Event)
    requires Inv(cfg, g, next) && e.verb.Update?
    ensures Supplied(cfg, g, e)
    ensures Abs(StepUpdate(cfg, g, e).0) == ActualStep(cfg, Abs(g), g.bindings, e)
  {
    hide StepUpdate, Edited, FindRow, Abs, Inv, SpecFind, Resolve, Supplied;
    UpdateKeepsInv(cfg, g, next, e);
    SpecFindIs(cfg, g, next, e.tenant, e.verb.id);
    if k :| Owns(g.index, k, e.tenant, e.verb.id) {
      ResolveUnder(cfg, g, next, e.tenant, e.verb.id, k);
      UpdateIs(cfg, g, next, e, k);
      EditAbs(cfg, g, next, k, e.verb.content, cfg.embed(e.verb.content), e.now);
    } else {
      UnresolvedUnder(cfg, g, next, e.tenant, e.verb.id);
      UnresolvedFails(cfg, g, e);
      assert Step(cfg, g, e) == StepUpdate(cfg, g, e);
    }
  }

  lemma DropAbs(cfg: Config, g: State, next: nat, after: State, k: Key)
    requires Inv(cfg, g, next) && Inv(cfg, after, next) && LiveAt(g.index, k) && k.provider in g.stores
             && k.native.Minted?
    requires after == g.(stores := g.stores[k.provider := Filter(g.stores[k.provider], OtherThan(k.native.tick))],
                         index := g.index[k := g.index[k].(deleted := true)])
    ensures Abs(after) == Abs(g) - {k}
  {
    hide Inv, Abs, Filter, LiveAt;
    forall l
      ensures l in Abs(after) <==> l in Abs(g) - {k}
      ensures l in Abs(after) ==> Abs(after)[l] == Abs(g)[l]
    {
      DropAbsAt(cfg, g, next, after, k, l);
    }
  }

  lemma DropAbsAt(cfg: Config, g: State, next: nat, after: State, k: Key, l: Key)
    requires Inv(cfg, g, next) && Inv(cfg, after, next) && LiveAt(g.index, k) && k.provider in g.stores
             && k.native.Minted?
    requires after == g.(stores := g.stores[k.provider := Filter(g.stores[k.provider], OtherThan(k.native.tick))],
                         index := g.index[k := g.index[k].(deleted := true)])
    ensures l in Abs(after) <==> l in Abs(g) && l != k
    ensures l in Abs(after) ==> Abs(after)[l] == Abs(g)[l]
  {
    hide Abs, Filter, FindRow, Inv;
    AbsAt(cfg, g, next, l);
    AbsAt(cfg, after, next, l);
    if l != k && LiveAt(g.index, l) {
      LiveIsOne(cfg, g, next, k, l);
      if l.provider == k.provider {
        StoreIsDistinct(cfg, g, next, k.provider);
        FindRowFilter(g.stores[k.provider], OtherThan(k.native.tick), l.native.tick);
        FindRowIn(g.stores[k.provider], l.native.tick);
      }
    }
  }

  lemma StoreIsDistinct(cfg: Config, g: State, next: nat, p: string)
    requires Inv(cfg, g, next) && p in g.stores
    ensures DistinctTicks(g.stores[p])
  {}

  lemma DeleteRefines(cfg: Config, g: State, next: nat, e: Event)
    requires Inv(cfg, g, next) && e.verb.Delete?
    ensures Abs(StepDelete(cfg, g, e).0) == ActualStep(cfg, Abs(g), g.bindings, e)
  {
    hide Inv, Abs, Filter, FindRow, StepDelete, SpecFind, Resolve;
    DeleteKeepsInv(cfg, g, next, e);
    SpecFindIs(cfg, g, next, e.tenant, e.verb.id);
    if k :| Owns(g.index, k, e.tenant, e.verb.id) {
      ResolveUnder(cfg, g, next, e.tenant, e.verb.id, k);
      DeleteIs(cfg, g, next, e, k);
      if cfg.caps[k.provider].supportsDelete {
        DropAbs(cfg, g, next, StepDelete(cfg, g, e).0, k);
      }
    } else {
      UnresolvedUnder(cfg, g, next, e.tenant, e.verb.id);
      UnresolvedFails(cfg, g, e);
      assert Step(cfg, g, e) == StepDelete(cfg, g, e);
    }
  }

  lemma ResolveUnder(cfg: Config, g: State, next: nat, tenant: string, id: nat, k: Key)
    requires Inv(cfg, g, next) && Owns(g.index, k, tenant, id)
    ensures Resolve(g.index, tenant, id) == Some(k)
  {}

  lemma UnresolvedUnder(cfg: Config, g: State, next: nat, tenant: string, id: nat)
    requires forall k :: !Owns(g.index, k, tenant, id)
    ensures Resolve(g.index, tenant, id) == None
  {}

  /** What survives an erasure: exactly what its dimensions, labels aside, do not cover. */
  lemma ErasureAbs(cfg: Config, g: State, next: nat, e: Event, name: string, k: Key)
    requires Inv(cfg, g, next) && e.tenant != "" && Erases(cfg, g, e, name)
    ensures var after := StepDeleteScope(cfg, g, e).0; var bound := e.verb.scope.Under(e.tenant);
            && (k in Abs(after) <==> k in Abs(g) && !(k.provider == name && CoversDims(bound, Abs(g)[k].scope)))
            && (k in Abs(after) ==> Abs(after)[k] == Abs(g)[k])
  {
    var after, bound := StepDeleteScope(cfg, g, e).0, e.verb.scope.Under(e.tenant);
    DeleteScopeKeepsInv(cfg, g, next, e);
    AbsAt(cfg, g, next, k);
    AbsAt(cfg, after, next, k);
    if LiveAt(g.index, k) {
      TombstonedIff(cfg, g, next, e.tenant, e.verb.scope, name, k);
      if k.provider == name {
        FindRowFilter(g.stores[name], Uncovered(bound), k.native.tick);
        CoveredIsCovers(bound, RowAt(g, k).value);
      }
    }
  }

  lemma ErasureAbsIs(cfg: Config, g: State, next: nat, e: Event, name: string)
    requires Inv(cfg, g, next) && e.tenant != "" && Erases(cfg, g, e, name)
    ensures Abs(StepDeleteScope(cfg, g, e).0) == ForgetDims(Abs(g), name, e.verb.scope.Under(e.tenant))
  {
    hide StepDeleteScope, Abs, Inv, CoversDims;
    var after := StepDeleteScope(cfg, g, e).0;
    forall k
      ensures var bound := e.verb.scope.Under(e.tenant);
              && (k in Abs(after) <==> k in Abs(g) && !(k.provider == name && CoversDims(bound, Abs(g)[k].scope)))
              && (k in Abs(after) ==> Abs(after)[k] == Abs(g)[k])
    {
      ErasureAbs(cfg, g, next, e, name, k);
    }
  }

  ghost predicate LabelsHeld(mem: Memories, name: string, bound: Scope) {
    forall k | k in mem && k.provider == name && CoversDims(bound, mem[k].scope) :: CoversLabels(bound, mem[k].scope)
  }

  /** Forgetting by dimensions is forgetting what is covered, if and only if nothing in the dimensions lacks the
      labels. */
  lemma LabelsUniformIff(cfg: Config, g: State, next: nat, name: string, bound: Scope)
    requires Inv(cfg, g, next) && Exact(g) && name in g.stores
    ensures LabelsUniform(g.stores[name], bound)
       <==> LabelsHeld(Abs(g), name, bound)
  {
    if LabelsUniform(g.stores[name], bound) {
      forall k | k in Abs(g) && k.provider == name && CoversDims(bound, Abs(g)[k].scope)
        ensures CoversLabels(bound, Abs(g)[k].scope)
      {
        StoredMemory(cfg, g, next, k);
      }
    } else {
      var r :| r in g.stores[name] && CoversDims(bound, r.scope) && !CoversLabels(bound, r.scope);
      MemoryOfRow(cfg, g, next, name, r);
    }
  }

  /** An erasure forgets exactly the covered memories if and only if no memory in its dimensions lacks its labels. */
  lemma ErasureRefinesIff(cfg: Config, g: State, next: nat, e: Event, name: string)
    requires Inv(cfg, g, next) && Exact(g) && e.tenant != "" && Erases(cfg, g, e, name)
    ensures name in g.stores
    ensures Abs(StepDeleteScope(cfg, g, e).0) == SpecStep(cfg, Abs(g), g.bindings, e)
       <==> LabelsUniform(g.stores[name], e.verb.scope.Under(e.tenant))
  {
    hide StepDeleteScope, Abs, CoversDims, CoversLabels, Inv, Exact, LabelsUniform, ForgetDims, SpecErase;
    var bound := e.verb.scope.Under(e.tenant);
    ErasureAbsIs(cfg, g, next, e, name);
    ProviderHasStore(cfg, g, next, name);
    LabelsUniformIff(cfg, g, next, name, bound);
    ForgetIsEraseIff(Abs(g), name, bound);
  }

  lemma ForgetIsEraseIff(mem: Memories, name: string, bound: Scope)
    ensures ForgetDims(mem, name, bound) == SpecErase(mem, name, bound)
       <==> LabelsHeld(mem, name, bound)
  {
    hide CoversDims, CoversLabels;
    if k :| k in mem && k.provider == name && CoversDims(bound, mem[k].scope) && !CoversLabels(bound, mem[k].scope) {
      assert k !in ForgetDims(mem, name, bound) && k in SpecErase(mem, name, bound);
    }
  }

  lemma ProviderHasStore(cfg: Config, g: State, next: nat, name: string)
    requires Inv(cfg, g, next) && name in cfg.caps
    ensures name in g.stores
  {}

  lemma StoredMemory(cfg: Config, g: State, next: nat, k: Key)
    requires Inv(cfg, g, next) && k in Abs(g)
    ensures k.provider in g.stores && exists r ::
            r in g.stores[k.provider] && r.scope == Abs(g)[k].scope && KeyOfRow(k.provider, r) == k
  {
    AbsAt(cfg, g, next, k);
    FindRowIn(g.stores[k.provider], k.native.tick);
  }

  lemma MemoryOfRow(cfg: Config, g: State, next: nat, p: string, r: PgRow)
    requires Inv(cfg, g, next) && Exact(g) && p in g.stores && r in g.stores[p]
    ensures var k := KeyOfRow(p, r);
            k in Abs(g) && k in g.index && k.provider == p && Abs(g)[k] == MemoryOf(g.index[k].gatewayId, r)
  {
    AbsAt(cfg, g, next, KeyOfRow(p, r));
    FindRowOf(g.stores[p], r);
    assert LiveAt(g.index, KeyOfRow(p, r));
  }

  lemma UpsertRefines(cfg: Config, g: State, next: nat, e: Event, upto: nat)
    requires Inv(cfg, g, next) && Proper(cfg, g.bindings, e, next, upto) && e.verb.Upsert?
    ensures Supplied(cfg, g, e)
    ensures Abs(StepUpsert(cfg, g, e).0) == ActualStep(cfg, Abs(g), g.bindings, e)
  {
    hide WriteFacts, Inv, NewMemories, NewRows, InsertRows, Abs, FreshIds, Prepare;
    var v := e.verb;
    if Accepted(cfg, g.bindings, e) {
      var name := Prepare(cfg, g.bindings, e.tenant, v.scope, v.asserted).value;
      WriteRefines(cfg, g, e.tenant, name, v.facts, v.scope, e.ids, e.now, next, upto);
    }
  }

  lemma IngestRefines(cfg: Config, g: State, next: nat, e: Event, upto: nat)
    requires Inv(cfg, g, next) && Proper(cfg, g.bindings, e, next, upto) && e.verb.Ingest?
    ensures Supplied(cfg, g, e)
    ensures Abs(StepIngest(cfg, g, e).0) == ActualStep(cfg, Abs(g), g.bindings, e)
  {
    hide WriteFacts, StepIngest, Inv, NewMemories, NewRows, InsertRows, Abs, Prepare, Episode, FreshIds;
    var v := e.verb;
    IngestIs(cfg, g, next, e, upto);
    if Accepted(cfg, g.bindings, e) {
      var name := Prepare(cfg, g.bindings, e.tenant, v.scope, v.asserted).value;
      WriteRefines(cfg, g, e.tenant, name, v.facts, v.scope, e.ids, e.now, next, upto);
      if cfg.journalEnabled {
        var after := WriteFacts(cfg, g, e.tenant, name, v.facts, v.scope, e.ids, e.now).0;
        JournalIsForgotten(after, after.journal + [Episode(e, name)]);
      }
    }
  }

  lemma JournalIsForgotten(g: State, journal: seq<JournalRow>)
    ensures Abs(g.(journal := journal)) == Abs(g)
  {}

  lemma BindingsAreForgotten(g: State, b: Bindings)
    ensures Abs(g.(bindings := b)) == Abs(g)
  {}

  lemma EraseRefines(cfg: Config, g: State, next: nat, e: Event)
    requires Inv(cfg, g, next) && e.tenant != "" && e.verb.DeleteScope?
    ensures Abs(StepDeleteScope(cfg, g, e).0) == ActualStep(cfg, Abs(g), g.bindings, e)
  {
    hide Abs, ForgetDims, Inv;
    var name := Prepare(cfg, g.bindings, e.tenant, e.verb.scope, e.verb.asserted);
    if name.Ok? && cfg.caps[name.value].supportsDeleteByScope { ErasureAbsIs(cfg, g, next, e, name.value); }
  }

  /** Every verb, in every coupled state and with or without labels, does to the index and the stores exactly what the
      abstract step does to the memories. */
  lemma StepRefines(cfg: Config, g: State, next: nat, e: Event, upto: nat)
    requires Inv(cfg, g, next) && Proper(cfg, g.bindings, e, next, upto)
    ensures Supplied(cfg, g, e)
    ensures Abs(Step(cfg, g, e).0) == ActualStep(cfg, Abs(g), g.bindings, e)
    ensures Step(cfg, g, e).0.bindings == NextBindings(cfg, g.bindings, e)
  {
    hide Inv, Abs, StepIngest, StepUpsert, StepUpdate, StepSearch, StepList, StepGet, StepDelete, StepDeleteScope,
         ActualWrite;
    Supply(cfg, g, next, e);
    StepBindingsAre(cfg, g, next, e, upto);
    match e.verb
    case Ingest(_, _, _, _) => IngestRefines(cfg, g, next, e, upto);
    case Upsert(_, _, _) => UpsertRefines(cfg, g, next, e, upto);
    case Update(_, _) => UpdateRefines(cfg, g, next, e);
    case Delete(_) => DeleteRefines(cfg, g, next, e);
    case DeleteScope(_, _) => EraseRefines(cfg, g, next, e);
    case RebindSubject(subject, provider, _) =>
        BindingsAreForgotten(g, Rebind(g.bindings, e.tenant, subject, provider));
    case _ => ReadsChangeNothing(cfg, g, next, e);
  }

  /** An erasure that goes through finds the labels it asks for on every memory in its dimensions. */
  ghost predicate Spared(cfg: Config, mem: Memories, bindings: Bindings, e: Event) {
    e.verb.DeleteScope? ==>
      var name := Prepare(cfg, bindings, e.tenant, e.verb.scope, e.verb.asserted);
      name.Ok? && cfg.caps[name.value].supportsDeleteByScope ==>
        LabelsHeld(mem, name.value, e.verb.scope.Under(e.tenant))
  }

  /** In every coupled state a verb meets the specification if and only if it is no erasure that asks for a label some
      memory in its dimensions lacks. */
  lemma StepMeetsSpecIff(cfg: Config, g: State, next: nat, e: Event, upto: nat)
    requires Inv(cfg, g, next) && Proper(cfg, g.bindings, e, next, upto)
    ensures Supplied(cfg, g, e)
    ensures Abs(Step(cfg, g, e).0) == SpecStep(cfg, Abs(g), g.bindings, e) <==> Spared(cfg, Abs(g), g.bindings, e)
  {
    hide Inv, Abs, Step, Supplied, NextBindings, CoversDims, CoversLabels, Prepare, ForgetDims, SpecErase;
    StepRefines(cfg, g, next, e, upto);
    if e.verb.DeleteScope? {
      var name := Prepare(cfg, g.bindings, e.tenant, e.verb.scope, e.verb.asserted);
      if name.Ok? { ForgetIsEraseIff(Abs(g), name.value, e.verb.scope.Under(e.tenant)); }
    }
  }

  ghost function ActualRun(cfg: Config, mem: Memories, bindings: Bindings, next: nat, events: seq<Event>): Memories
    requires ProperRun(cfg, bindings, events, next)
    decreases |events|
  {
    if events == [] then mem
    else ActualRun(cfg, ActualStep(cfg, mem, bindings, events[0]), NextBindings(cfg, bindings, events[0]),
                   After(events[0], next), events[1..])
  }

  ghost function SpecRun(cfg: Config, mem: Memories, bindings: Bindings, next: nat, events: seq<Event>): Memories
    requires ProperRun(cfg, bindings, events, next)
    decreases |events|
  {
    if events == [] then mem
    else SpecRun(cfg, SpecStep(cfg, mem, bindings, events[0]), NextBindings(cfg, bindings, events[0]),
                 After(events[0], next), events[1..])
  }

  function BindingsAfter(cfg: Config, bindings: Bindings, events: seq<Event>): Bindings
    decreases |events|
  {
    if events == [] then bindings else BindingsAfter(cfg, NextBindings(cfg, bindings, events[0]), events[1..])
  }

  /** Refinement over every run, labelled erasures and all. */
  lemma {:induction false} RunRefines(cfg: Config, g: State, next: nat, events: seq<Event>)
    requires Inv(cfg, g, next) && ProperRun(cfg, g.bindings, events, next)
    ensures Abs(Run(cfg, g, next, events).0) == ActualRun(cfg, Abs(g), g.bindings, next, events)
    ensures Run(cfg, g, next, events).0.bindings == BindingsAfter(cfg, g.bindings, events)
    decreases |events|
  {
    hide Inv, Step, Supplied, ActualStep, NextBindings, Abs, Proper;
    if events != [] {
      var e, upto := events[0], After(events[0], next);
      StepKeepsInv(cfg, g, next, e, upto);
      StepRefines(cfg, g, next, e, upto);
      RunRefines(cfg, Step(cfg, g, e).0, upto, events[1..]);
    }
  }

  /** Along a specified run, no erasure asks for a label that a memory in its dimensions lacks. */
  ghost predicate SparedRun(cfg: Config, mem: Memories, bindings: Bindings, next: nat, events: seq<Event>)
    requires ProperRun(cfg, bindings, events, next)
    decreases |events|
  {
    events == [] ||
    (Spared(cfg, mem, bindings, events[0])
     && SparedRun(cfg, SpecStep(cfg, mem, bindings, events[0]), NextBindings(cfg, bindings, events[0]),
                  After(events[0], next), events[1..]))
  }

  /** Such a run is a run of the simple memory, and it leaves index and stores in the step it found them in. */
  lemma {:induction false} RunMeetsSpec(cfg: Config, g: State, next: nat, events: seq<Event>)
    requires Inv(cfg, g, next) && ProperRun(cfg, g.bindings, events, next)
    requires SparedRun(cfg, Abs(g), g.bindings, next, events)
    ensures Abs(Run(cfg, g, next, events).0) == SpecRun(cfg, Abs(g), g.bindings, next, events)
    ensures Exact(g) ==> Exact(Run(cfg, g, next, events).0)
    decreases |events|
  {
    hide Inv, Exact, Step, Supplied, SpecStep, NextBindings, Abs, Proper, Spared;
    if events != [] {
      var e, upto := events[0], After(events[0], next);
      StepKeepsInv(cfg, g, next, e, upto);
      StepRefines(cfg, g, next, e, upto);
      StepMeetsSpecIff(cfg, g, next, e, upto);
      if Exact(g) { SparedKeepsExact(cfg, g, next, e, upto); }
      RunMeetsSpec(cfg, Step(cfg, g, e).0, upto, events[1..]);
    }
  }

  lemma SparedKeepsExact(cfg: Config, g: State, next: nat, e: Event, upto: nat)
    requires Inv(cfg, g, next) && Exact(g) && Proper(cfg, g.bindings, e, next, upto)
             && Spared(cfg, Abs(g), g.bindings, e)
    ensures Supplied(cfg, g, e) && Exact(Step(cfg, g, e).0)
  {
    hide Inv, Exact, Abs, StepDeleteScope, LabelsUniform, Prepare, CoversDims, CoversLabels;
    StepKeepsInv(cfg, g, next, e, upto);
    if e.verb.DeleteScope? {
      var name := Prepare(cfg, g.bindings, e.tenant, e.verb.scope, e.verb.asserted);
      if name.Ok? && cfg.caps[name.value].supportsDeleteByScope {
        ProviderHasStore(cfg, g, next, name.value);
        LabelsUniformIff(cfg, g, next, name.value, e.verb.scope.Under(e.tenant));
        ErasureExactIff(cfg, g, next, e, name.value);
      } else {
        RefusedErasure(cfg, g, e);
      }
    }
  }

  lemma RefusedErasure(cfg: Config, g: State, e: Event)
    requires e.verb.DeleteScope?
    requires var name := Prepare(cfg, g.bindings, e.tenant, e.verb.scope, e.verb.asserted);
             name.Err? || !cfg.caps[name.value].supportsDeleteByScope
    ensures StepDeleteScope(cfg, g, e).0 == g
  {}

  /** Erasures without labels are always spared. */
  lemma {:induction false} PlainRunIsSpared(cfg: Config, mem: Memories, bindings: Bindings, next: nat,
                                            events: seq<Event>)
    requires ProperRun(cfg, bindings, events, next) && forall e | e in events :: PlainErasure(e)
    ensures SparedRun(cfg, mem, bindings, next, events)
    decreases |events|
  {
    hide SpecStep, NextBindings, Needs;
    if events != [] {
      assert events[0] in events && forall x | x in events[1..] :: x in events;
      PlainRunIsSpared(cfg, SpecStep(cfg, mem, bindings, events[0]), NextBindings(cfg, bindings, events[0]),
                       After(events[0], next), events[1..]);
    }
  }
}
