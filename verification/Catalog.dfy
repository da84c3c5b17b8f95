/** The catalog object: its three tables, changed one statement at a time, and proved against what each operation
    means. */
module CatalogStore {
  import opened Prelude
  import opened Scopes
  import opened Ids
  import opened MemoryIndex
  import opened Transactions

  const CHUNK := 500

  class Catalog {
    var index: Index
    var bindings: Bindings
    var journal: seq<JournalRow>
    const ids: IdGenerator

    constructor (ids: IdGenerator)
      ensures this.ids == ids && index == map[] && bindings == map[] && journal == []
    {
      this.ids := ids;
      index, bindings, journal := map[], map[], [];
    }

    // -- memory_index ---------------------------------------------------------------------

    /** One SELECT per chunk of natives. */
    method FindByNative(tenant: string, provider: string, natives: seq<Native>) returns (found: Known)
      ensures found == Find(index, tenant, provider, natives)
    {
      found := map[];
      var start := 0;
      while start < |natives|
        invariant 0 <= start <= |natives| && found == Find(index, tenant, provider, natives[..start])
      {
        var end := Min(start + CHUNK, |natives|);
        assert natives[..end] == natives[..start] + natives[start..end];
        FindAppend(index, tenant, provider, natives[..start], natives[start..end]);
        found := found + Find(index, tenant, provider, natives[start..end]);
        start := end;
      }
      assert natives[..start] == natives;
    }

    method DrawIds(n: nat) returns (drawn: seq<nat>)
      requires ids.last.rand < TWO_80
      modifies ids
      ensures ids.last.rand < TWO_80 && old(ids.last.Tick()) <= ids.last.Tick() && |drawn| == n
      ensures FreshIds(drawn, old(ids.last.Tick()) + 1, ids.last.Tick() + 1)
    {
      drawn := [];
      for i := 0 to n
        invariant ids.last.rand < TWO_80 && |drawn| == i
        invariant FreshIds(drawn, old(ids.last.Tick()) + 1, ids.last.Tick() + 1)
      {
        ghost var before := ids.last.Tick() + 1;
        var tick := ids.Draw();
        FreshSnoc(drawn, tick, old(ids.last.Tick()) + 1, before, ids.last.Tick() + 1);
        drawn := drawn + [tick];
      }
    }

    /** INSERT under the unique constraint, row by row. On success the rows reported are those a SELECT would now
        find. */
    method InsertMissing(tenant: string, provider: string, missing: seq<Item>, scope: Scope)
      returns (ok: bool, inserted: Known, drawn: seq<nat>)
      requires ids.last.rand < TWO_80
      modifies this`index, ids
      ensures ids.last.rand < TWO_80 && old(ids.last.Tick()) <= ids.last.Tick() && |drawn| == |missing|
      ensures FreshIds(drawn, old(ids.last.Tick()) + 1, ids.last.Tick() + 1)
      ensures ok <==> Distinct(Natives(missing)) && forall n | n in Natives(missing) ::
              Key(tenant, provider, n) !in old(index)
      ensures ok ==> index == old(index) + InsertRows(tenant, provider, missing, scope, drawn)
      ensures ok ==> inserted == Find(index, tenant, provider, Natives(missing))
    {
      hide FreshIds, InsertRows, Natives, Find, AllNew, Distinct;
      drawn := DrawIds(|missing|);
      NothingInserted(index, tenant, provider, missing, scope, drawn);
      ok, inserted := true, map[];
      for i := 0 to |missing|
        invariant ids.last.rand < TWO_80 && old(ids.last.Tick()) <= ids.last.Tick()
        invariant FreshIds(drawn, old(ids.last.Tick()) + 1, ids.last.Tick() + 1)
        invariant AllNew(old(index), tenant, provider, missing[..i])
        invariant index == old(index) + InsertRows(tenant, provider, missing[..i], scope, drawn)
        invariant inserted == Find(index, tenant, provider, Natives(missing[..i]))
      {
        var k := Key(tenant, provider, missing[i].native);
        InsertOneTaken(old(index), tenant, provider, missing, scope, drawn, i);
        if k in index {
          AllNewPrefix(old(index), tenant, provider, missing, i + 1);
          AllNewMeans(old(index), tenant, provider, missing);
          ok := false;
          return;
        }
        var row := NewRow(scope, missing[i].content, drawn[i]);
        InsertOneRow(old(index), tenant, provider, missing, scope, drawn, i);
        InsertOneFound(index, tenant, provider, missing, i, row);
        index := index[k := row];
        inserted := inserted[missing[i].native := Some(ToRow(k, row))];
      }
      assert missing[..|missing|] == missing;
      AllNewMeans(old(index), tenant, provider, missing);
    }

    /** One UPDATE per native: a write un-deletes. */
    method ReviveRows(tenant: string, provider: string, doomed: seq<Native>, scope: Scope, items: seq<Item>)
      modifies this`index
      ensures index == Revive(old(index), tenant, provider, Among(doomed), scope, items)
    {
      ReviveNothing(index, tenant, provider, scope, items);
      for i := 0 to |doomed|
        invariant index == Revive(old(index), tenant, provider, Among(doomed[..i]), scope, items)
      {
        var k := Key(tenant, provider, doomed[i]);
        ReviveOne(old(index), tenant, provider, doomed, i, scope, items);
        if k in index {
          index := index[k := NewRow(scope, ContentOf(items, doomed[i]), index[k].gatewayId)];
        }
      }
      assert doomed[..|doomed|] == doomed;
    }

    /** One attempt at the map-or-insert transaction; a conflict leaves its debris to the rollback. */
    method Attempt(tenant: string, provider: string, items: seq<Item>, scope: Scope, revive: bool)
      returns (committed: bool, rows: seq<CatalogRow>, drawn: seq<nat>)
      requires ids.last.rand < TWO_80
      modifies this`index, ids
      ensures ids.last.rand < TWO_80 && old(ids.last.Tick()) <= ids.last.Tick()
      ensures |drawn| == |MissingAt(old(index), tenant, provider, items)|
      ensures FreshIds(drawn, old(ids.last.Tick()) + 1, ids.last.Tick() + 1)
      ensures var page := MapPage(old(index), tenant, provider, items, scope, revive, drawn);
              committed == page.Ok? && (committed ==> index == page.value.0 && rows == page.value.1)
    {
      hide *;
      var natives := Natives(items);
      var known := FindByNative(tenant, provider, natives);
      var missing := Missing(items, known);
      MissingIs(index, tenant, provider, items);
      var inserted: Known;
      rows := [];
      committed, inserted, drawn := InsertMissing(tenant, provider, missing, scope);
      PageAcceptedIff(old(index), tenant, provider, items, scope, revive, drawn);
      if committed {
        ghost var added := index;
        FindInserted(old(index), tenant, provider, items, scope, drawn);
        known := known + inserted;
        if revive {
          var doomed := Filter(natives, IsGone(known));
          DoomedAre(natives, known);
          ReviveRows(tenant, provider, doomed, scope, items);
          var again := FindByNative(tenant, provider, doomed);
          FindRevived(added, tenant, provider, natives, scope, items);
          known := known + again;
        }
        rows := RowsOf(items, known);
        RowsOfFound(index, tenant, provider, items);
      }
    }

    /** Look up, insert what is missing, revive on a write, and return the mapping, retrying the whole transaction. */
    method MapItems(tenant: string, provider: string, items: seq<Item>, scope: Scope, revive: bool)
      returns (r: Result<seq<CatalogRow>, Error>, ghost drawn: seq<nat>)
      requires ids.last.rand < TWO_80
      modifies this`index, ids
      ensures ids.last.rand < TWO_80 && old(ids.last.Tick()) <= ids.last.Tick()
      ensures |drawn| == |MissingAt(old(index), tenant, provider, items)|
      ensures FreshIds(drawn, old(ids.last.Tick()) + 1, ids.last.Tick() + 1)
      ensures var page := MapPage(old(index), tenant, provider, items, scope, revive, drawn);
              if page.Ok? then index == page.value.0 && r == Ok(page.value.1)
                  else index == old(index) && r == Err(page.error)
    {
      hide MapPage, MissingAt, FreshIds, LiveRows;
      if items == [] {
        drawn, r := [], Ok([]);
        EmptyPage(index, tenant, provider, scope, revive, ids.last.Tick() + 1);
        return;
      }
      var rows: seq<CatalogRow>, committed := [], false;
      drawn := [];
      for attempt := 0 to RETRIES
        invariant ids.last.rand < TWO_80 && index == old(index)
        invariant old(ids.last.Tick()) <= ids.last.Tick()
        invariant attempt > 0 ==> && |drawn| == |MissingAt(index, tenant, provider, items)|
                                  && FreshIds(drawn, old(ids.last.Tick()) + 1, ids.last.Tick() + 1)
                                  && MapPage(index, tenant, provider, items, scope, revive, drawn).Err?
      {
        var saved := index;
        ghost var before := ids.last.Tick() + 1;
        committed, rows, drawn := Attempt(tenant, provider, items, scope, revive);
        FreshEarlier(drawn, old(ids.last.Tick()) + 1, before, ids.last.Tick() + 1);
        if committed {
          r := Ok(rows);
          return;
        }
        index := saved;
      }
      MapPageFailsIff(index, tenant, provider, items, scope, revive, drawn);
      r := Err(UniqueConflict);
    }

    method ResolveGatewayId(tenant: string, id: nat) returns (row: Option<CatalogRow>)
      ensures row.Some? <==> exists k :: Owns(index, k, tenant, id)
      ensures row.Some? ==> exists k :: Owns(index, k, tenant, id) && row == Some(ToRow(k, index[k]))
      ensures IdsUnique(index) ==> row == var k := Resolve(index, tenant, id); if k.None? then None
              else Some(ToRow(k.value, index[k.value]))
    {
      var hits := set k | k in index && Owns(index, k, tenant, id);
      if hits == {} {
        assert forall k :: k in index && Owns(index, k, tenant, id) ==> k in hits;
        return None;
      }
      var k :| k in hits;
      row := Some(ToRow(k, index[k]));
    }

    /** Only a live row of the tenant's own can be tombstoned, and the answer says whether there was one. */
    method MarkOneDeleted(tenant: string, id: nat) returns (any: bool)
      modifies this`index
      ensures index == MarkDeleted(old(index), tenant, id)
      ensures any <==> exists k :: Owns(old(index), k, tenant, id)
      ensures forall k :: !Owns(index, k, tenant, id)
    {
      var hits := set k | k in index && Owns(index, k, tenant, id);
      assert forall k :: Owns(index, k, tenant, id) ==> k in hits;
      any := hits != {};
      if any { assert exists k :: k in hits; }
      index := MarkDeleted(index, tenant, id);
    }

    /** The rowcount is the number of rows that were live and are so no longer. */
    method MarkManyDeleted(tenant: string, scope: Scope, provider: string) returns (count: nat)
      modifies this`index
      ensures index == MarkScopeDeleted(old(index), tenant, scope, provider)
      ensures count == |set k | k in index && LiveAt(old(index), k) && !LiveAt(index, k)|
    {
      var hits := set k | k in index && InIndexScope(k, index[k], tenant, scope, provider);
      count := |hits|;
      index := MarkScopeDeleted(index, tenant, scope, provider);
      assert hits == set k | k in index && LiveAt(old(index), k) && !LiveAt(index, k);
    }

    method LiveCount(tenant: string, subject: string, provider: string) returns (n: nat)
      ensures n == |LiveKeys(index, tenant, subject, provider)|
    {
      n := |LiveKeys(index, tenant, subject, provider)|;
    }

    // -- scope_binding -------------------------------------------------------------------------

    method Bound(tenant: string, subject: string) returns (provider: Option<string>)
      ensures provider == GetBinding(bindings, tenant, subject)
    {
      provider := if (tenant, subject) in bindings then Some(bindings[(tenant, subject)].provider) else None;
    }

    /** Insert, and on a conflict answer with whatever is bound already. */
    method BindFirst(tenant: string, subject: string, provider: string) returns (bound: string)
      modifies this`bindings
      ensures bindings == MemoryIndex.Bind(old(bindings), tenant, subject, provider)
      ensures bound == var now := GetBinding(bindings, tenant, subject); if Truthy(now) then now.value else provider
    {
      if (tenant, subject) in bindings {
        var existing := Bound(tenant, subject);
        bound := if Truthy(existing) then existing.value else provider;
      } else {
        bindings := bindings[(tenant, subject) := Binding(provider, None)];
        bound := provider;
      }
    }

    /** Read the old binding, count what it strands, replace the row. */
    method RebindTo(tenant: string, subject: string, provider: string) returns (report: RebindResult)
      modifies this`bindings
      ensures bindings == MemoryIndex.Rebind(old(bindings), tenant, subject, provider)
      ensures report == RebindReport(index, old(bindings), tenant, subject, provider)
    {
      var previous := Bound(tenant, subject);
      var orphaned := 0;
      if previous.Some? && previous.value != provider {
        orphaned := LiveCount(tenant, subject, previous.value);
      }
      var p := (tenant, subject);
      bindings := bindings - {p};
      bindings := bindings[p := Binding(provider, previous)];
      report := RebindResult(provider, if previous != Some(provider) then previous else None, orphaned);
    }

    // -- episode_journal ------------------------------------------------------------------------

    method AppendEpisode(tenant: string, scope: Scope, payload: string, provider: string, natives: seq<Native>)
      returns (episode: nat)
      requires ids.last.rand < TWO_80
      modifies this`journal, ids
      ensures ids.last.rand < TWO_80 && episode == ids.last.Tick() > old(ids.last.Tick())
      ensures journal == old(journal)
           + [JournalRow(episode, tenant, scope.subject, scope.agent, scope.session, payload, provider, natives)]
    {
      episode := ids.Draw();
      journal := journal + [JournalRow(episode, tenant, scope.subject, scope.agent, scope.session, payload, provider,
                                       natives)];
    }

    /** Every episode of the subject, oldest first. */
    method ReadEpisodes(tenant: string, subject: string) returns (rows: seq<MemoryIndex.JournalRow>)
      ensures rows == JournalRows(journal, tenant, subject)
      ensures forall j :: j in rows <==> j in journal && j.tenant == tenant && j.subject == subject
      ensures multiset(rows) == multiset(Filter(journal, OfSubject(tenant, subject)))
      ensures forall i, j | 0 <= i < j < |rows| :: rows[i].episode <= rows[j].episode
    {
      var found := Filter(journal, OfSubject(tenant, subject));
      SortPermutes(found, EpisodeOrder());
      JournalRowsAre(journal, tenant, subject);
      EpisodesSort(found);
      rows := Sort(found, EpisodeOrder());
    }

    method EraseEpisodes(tenant: string, scope: Scope) returns (count: nat)
      modifies this`journal
      ensures journal == Filter(old(journal), OutsideScope(tenant, scope))
      ensures count + |journal| == |old(journal)|
    {
      var inside := (j: MemoryIndex.JournalRow) => InJournalScope(j, tenant, scope);
      FilterSplits(journal, inside, OutsideScope(tenant, scope));
      count := |Filter(journal, inside)|;
      journal := Filter(journal, OutsideScope(tenant, scope));
    }
  }

  lemma EpisodesSort(rows: seq<JournalRow>)
    ensures var sorted := Sort(rows, EpisodeOrder());
            |sorted| == |rows| && forall i, j | 0 <= i < j < |sorted| :: sorted[i].episode <= sorted[j].episode
  {
    var sorted := Sort(rows, EpisodeOrder());
    SortPermutes(rows, EpisodeOrder());
    SortSorts(rows, EpisodeOrder());
    forall i, j | 0 <= i < j < |rows|
      ensures sorted[i].episode <= sorted[j].episode
    {
      assert EpisodeOrder()(sorted[i], sorted[j]);
    }
  }

  // -- the statements on values -----------------------------------------------------------------------

  /** A chunked lookup is one lookup. */
  lemma FindAppend(index: Index, tenant: string, provider: string, a: seq<Native>, b: seq<Native>)
    ensures Find(index, tenant, provider, a + b) == Find(index, tenant, provider, a) + Find(index, tenant, provider, b)
  {}

  lemma FreshEarlier(ids: seq<nat>, bound: nat, later: nat, next: nat)
    requires FreshIds(ids, later, next) && bound <= later
    ensures FreshIds(ids, bound, next)
  {}

  ghost predicate AllNew(index: Index, tenant: string, provider: string, missing: seq<Item>) {
    Distinct(Natives(missing)) && forall n | n in Natives(missing) :: Key(tenant, provider, n) !in index
  }

  lemma AllNewMeans(index: Index, tenant: string, provider: string, missing: seq<Item>)
    ensures AllNew(index, tenant, provider, missing)
       <==> Distinct(Natives(missing)) && forall n | n in Natives(missing) :: Key(tenant, provider, n) !in index
  {}

  lemma NothingInserted(index: Index, tenant: string, provider: string, missing: seq<Item>, scope: Scope, ids: seq<nat>)
    requires |missing| <= |ids|
    ensures AllNew(index, tenant, provider, missing[..0])
    ensures index + InsertRows(tenant, provider, missing[..0], scope, ids) == index
    ensures Find(index, tenant, provider, Natives(missing[..0])) == map[]
  {}

  lemma NativesSnoc(missing: seq<Item>, i: nat)
    requires i < |missing|
    ensures Natives(missing[..i + 1]) == Natives(missing[..i]) + [missing[i].native]
    ensures missing[..i + 1][..i] == missing[..i]
  {}

  lemma AllNewPrefix(index: Index, tenant: string, provider: string, missing: seq<Item>, i: nat)
    requires i <= |missing| && !AllNew(index, tenant, provider, missing[..i])
    ensures !AllNew(index, tenant, provider, missing)
  {
    assert Natives(missing)[..i] == Natives(missing[..i]);
    assert forall j | 0 <= j < i :: Natives(missing[..i])[j] == Natives(missing)[j];
  }

  /** The next row's key is taken, by an old row or by one inserted just before, exactly when the prefix stops being
      all new. */
  lemma InsertOneTaken(index: Index, tenant: string, provider: string, missing: seq<Item>, scope: Scope, ids: seq<nat>,
                       i: nat)
    requires i < |missing| <= |ids| && AllNew(index, tenant, provider, missing[..i])
    ensures Key(tenant, provider, missing[i].native) in index + InsertRows(tenant, provider, missing[..i], scope, ids)
       <==> !AllNew(index, tenant, provider, missing[..i + 1])
  {
    InsertRowsKeys(tenant, provider, missing[..i], scope, ids);
    hide InsertRows, Natives, AllNew;
    AllNewSnoc(index, index + InsertRows(tenant, provider, missing[..i], scope, ids), tenant, provider, missing, i);
  }

  lemma InsertOneRow(index: Index, tenant: string, provider: string, missing: seq<Item>, scope: Scope, ids: seq<nat>,
                     i: nat)
    requires i < |missing| <= |ids|
    ensures (index + InsertRows(tenant, provider, missing[..i], scope, ids))[
              Key(tenant, provider, missing[i].native) := NewRow(scope, missing[i].content, ids[i])]
         == index + InsertRows(tenant, provider, missing[..i + 1], scope, ids)
  {
    InsertRowsSnoc(tenant, provider, missing, scope, ids, i);
    hide *;
  }

  lemma InsertOneFound(before: Index, tenant: string, provider: string, missing: seq<Item>, i: nat, row: IndexRow)
    requires i < |missing| && !row.deleted
    ensures var k := Key(tenant, provider, missing[i].native);
            Find(before[k := row], tenant, provider, Natives(missing[..i + 1]))
              == Find(before, tenant, provider, Natives(missing[..i]))[missing[i].native := Some(ToRow(k, row))]
  {
    NativesSnoc(missing, i);
    FindSnoc(before, tenant, provider, Natives(missing[..i]), missing[i].native, row);
  }

  lemma InsertRowsSnoc(tenant: string, provider: string, missing: seq<Item>, scope: Scope, ids: seq<nat>, i: nat)
    requires i < |missing| <= |ids|
    ensures InsertRows(tenant, provider, missing[..i + 1], scope, ids)
         == InsertRows(tenant, provider, missing[..i], scope, ids)[
              Key(tenant, provider, missing[i].native) := NewRow(scope, missing[i].content, ids[i])]
  {
    assert missing[..i + 1][..i] == missing[..i];
  }

  lemma AllNewSnoc(index: Index, before: Index, tenant: string, provider: string, missing: seq<Item>, i: nat)
    requires i < |missing| && AllNew(index, tenant, provider, missing[..i])
    requires forall k :: k in before <==>
             k in index || (k.tenant == tenant && k.provider == provider && k.native in Natives(missing[..i]))
    ensures Key(tenant, provider, missing[i].native) in before <==> !AllNew(index, tenant, provider, missing[..i + 1])
  {
    NativesSnoc(missing, i);
    SnocDistinct(Natives(missing[..i]), missing[i].native);
    hide Natives, Distinct;
  }

  lemma FindSnoc(before: Index, tenant: string, provider: string, natives: seq<Native>, n: Native, row: IndexRow)
    requires !row.deleted
    ensures var k := Key(tenant, provider, n);
            Find(before[k := row], tenant, provider, natives + [n])
              == Find(before, tenant, provider, natives)[n := Some(ToRow(k, row))]
  {}

  lemma SnocDistinct<T>(s: seq<T>, x: T)
    requires Distinct(s)
    ensures Distinct(s + [x]) <==> x !in s
  {
    var t := s + [x];
    if x in s {
      var i :| 0 <= i < |s| && s[i] == x;
      assert t[i] == t[|s|];
    }
  }

  lemma ReviveOne(index: Index, tenant: string, provider: string, doomed: seq<Native>, i: nat, scope: Scope,
                  items: seq<Item>)
    requires i < |doomed|
    ensures var before := Revive(index, tenant, provider, Among(doomed[..i]), scope, items);
            var k := Key(tenant, provider, doomed[i]);
            Revive(index, tenant, provider, Among(doomed[..i + 1]), scope, items)
              == if k in before then before[k := NewRow(scope, ContentOf(items, doomed[i]), before[k].gatewayId)]
                  else before
  {
    assert doomed[..i + 1] == doomed[..i] + [doomed[i]];
    hide ContentOf;
  }

  function Among(natives: seq<Native>): set<Native> { set n | n in natives }

  function IsGone(known: Known): Native -> bool { (n: Native) => n !in known || known[n].None? }

  /** The attempt goes through exactly when nothing missing repeats and nothing missing is there; then the page is what
      the statements leave. */
  lemma PageAcceptedIff(index: Index, tenant: string, provider: string, items: seq<Item>, scope: Scope, revive: bool,
                        ids: seq<nat>)
    requires |ids| == |MissingAt(index, tenant, provider, items)|
    ensures var missing := MissingAt(index, tenant, provider, items);
            var page := MapPage(index, tenant, provider, items, scope, revive, ids);
            var added := index + InsertRows(tenant, provider, missing, scope, ids);
            && (page.Ok? <==> Distinct(Natives(missing)) && forall n | n in Natives(missing) ::
                Key(tenant, provider, n) !in index)
            && (page.Ok? ==>
                  var after := if revive
                      then Revive(added, tenant, provider,
                                  Doomed(Natives(items), Find(index, tenant, provider, Natives(items))), scope, items)
                                      else added;
                  page.value == (after, LiveRows(after, tenant, provider, items)))
  {
    forall n | n in Natives(MissingAt(index, tenant, provider, items))
      ensures Key(tenant, provider, n) !in index
    {
      MissingNatives(index, tenant, provider, items, n);
    }
  }

  lemma MissingIs(index: Index, tenant: string, provider: string, items: seq<Item>)
    ensures MissingAt(index, tenant, provider, items) == Missing(items, Find(index, tenant, provider, Natives(items)))
  {}

  /** The first lookup and the rows inserted together are what a lookup after the insert would find, and the natives
      marked gone are the same. */
  lemma FindInserted(index: Index, tenant: string, provider: string, items: seq<Item>, scope: Scope, ids: seq<nat>)
    requires |MissingAt(index, tenant, provider, items)| <= |ids|
    ensures var missing, natives := MissingAt(index, tenant, provider, items), Natives(items);
            var added := index + InsertRows(tenant, provider, missing, scope, ids);
            && Find(index, tenant, provider, natives) + Find(added, tenant, provider, Natives(missing))
               == Find(added, tenant, provider, natives)
            && Doomed(natives, Find(added, tenant, provider, natives))
               == Doomed(natives, Find(index, tenant, provider, natives))
            && forall n | n in natives :: n in Find(added, tenant, provider, natives)
  {
    var missing, natives := MissingAt(index, tenant, provider, items), Natives(items);
    InsertRowsLive(tenant, provider, missing, scope, ids);
    forall n
      ensures n in Natives(missing) <==> n in natives && Key(tenant, provider, n) !in index
    {
      MissingNatives(index, tenant, provider, items, n);
    }
    hide InsertRows, MissingAt, Natives, Find, Doomed;
    FindGrown(index, InsertRows(tenant, provider, missing, scope, ids), tenant, provider, natives, Natives(missing));
  }

  lemma FindGrown(index: Index, rows: Index, tenant: string, provider: string, natives: seq<Native>,
                  unseen: seq<Native>)
    requires forall k :: k in rows <==> k.tenant == tenant && k.provider == provider && k.native in unseen
    requires forall k | k in rows :: !rows[k].deleted
    requires forall n :: n in unseen <==> n in natives && Key(tenant, provider, n) !in index
    ensures var before, after := Find(index, tenant, provider, natives), Find(index + rows, tenant, provider, natives);
            && before + Find(index + rows, tenant, provider, unseen) == after
            && Doomed(natives, after) == Doomed(natives, before)
            && forall n | n in natives :: n in after
  {
    forall n | n in natives
      ensures Key(tenant, provider, n) in index <==> Key(tenant, provider, n) !in rows
    {}
  }

  lemma InsertRowsLive(tenant: string, provider: string, missing: seq<Item>, scope: Scope, ids: seq<nat>)
    requires |missing| <= |ids|
    ensures var rows := InsertRows(tenant, provider, missing, scope, ids);
            && (forall k :: k in rows <==> k.tenant == tenant && k.provider == provider && k.native in Natives(missing))
            && (forall k | k in rows :: !rows[k].deleted)
  {
    InsertRowsAt(tenant, provider, missing, scope, ids);
  }

  lemma DoomedAre(natives: seq<Native>, known: Known)
    requires forall n | n in natives :: n in known
    ensures Among(Filter(natives, IsGone(known))) == Doomed(natives, known)
  {
    forall n
      ensures n in Filter(natives, IsGone(known)) <==> n in Doomed(natives, known)
    {
      FilterMember(natives, IsGone(known), n);
    }
  }

  /** Re-reading only the revived natives brings the lookup up to date. */
  lemma FindRevived(index: Index, tenant: string, provider: string, natives: seq<Native>, scope: Scope,
                    items: seq<Item>)
    ensures var known := Find(index, tenant, provider, natives);
            var doomed := Filter(natives, IsGone(known));
            var after := Revive(index, tenant, provider, Among(doomed), scope, items);
            (forall n | n in natives :: n in known) ==>
              known + Find(after, tenant, provider, doomed) == Find(after, tenant, provider, natives)
  {
    var known := Find(index, tenant, provider, natives);
    forall n
      ensures n in Filter(natives, IsGone(known)) <==> n in natives && IsGone(known)(n)
    {
      FilterMember(natives, IsGone(known), n);
    }
  }

  lemma RowsOfFound(index: Index, tenant: string, provider: string, items: seq<Item>)
    ensures RowsOf(items, Find(index, tenant, provider, Natives(items))) == LiveRows(index, tenant, provider, items)
  {
    var known := Find(index, tenant, provider, Natives(items));
    forall it | it in items
      ensures it.native in Natives(items)
    {
      ItemInPage(tenant, provider, items, it);
    }
    RowsAgree(index, tenant, provider, known, items);
  }

  lemma EmptyPage(index: Index, tenant: string, provider: string, scope: Scope, revive: bool, next: nat)
    ensures MissingAt(index, tenant, provider, []) == [] && FreshIds([], next, next)
    ensures MapPage(index, tenant, provider, [], scope, revive, []) == Ok((index, []))
  {
    MapLivePageIsIdentity(index, tenant, provider, [], scope, revive, []);
  }
}
