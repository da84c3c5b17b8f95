/** Reads once index and store are out of step: rows the index has tombstoned still take up places in a page. */
module Crowding {
  import opened Prelude
  import opened Scopes
  import opened MemoryIndex
  import opened Vectors
  import opened Pgvector
  import opened Gateway
  import opened GatewayInvariant
  import opened Runs
  import opened Refinement
  import opened Listing
  import opened Searching

  // -- the state without its dead rows -------------------------------------------------

  function IsLive(index: Index, name: string): PgRow -> bool { (r: PgRow) => LiveAt(index, KeyOfRow(name, r)) }

  /** The same state with every store row dropped whose memory the index has tombstoned. */
  function Pruned(g: State): State {
    g.(stores := map p | p in g.stores :: Filter(g.stores[p], IsLive(g.index, p)))
  }

  lemma PrunedRowAt(cfg: Config, g: State, next: nat, k: Key)
    requires Inv(cfg, g, next) && LiveAt(g.index, k)
    ensures RowAt(Pruned(g), k) == RowAt(g, k)
  {
    var row := RowAt(g, k).value;
    assert SameDims(k, g.index[k], row.scope);
    FindRowIn(g.stores[k.provider], k.native.tick);
    FindRowFilter(g.stores[k.provider], IsLive(g.index, k.provider), k.native.tick);
  }

  lemma PrunedStoresOk(cfg: Config, g: State, next: nat)
    requires StoresOk(cfg, g.stores, next)
    ensures StoresOk(cfg, Pruned(g).stores, next)
    ensures forall p, r | p in g.stores ::
            r in Pruned(g).stores[p] <==> r in g.stores[p] && LiveAt(g.index, KeyOfRow(p, r))
  {
    forall p, r | p in g.stores
      ensures r in Pruned(g).stores[p] <==> r in g.stores[p] && LiveAt(g.index, KeyOfRow(p, r))
    {
      FilterMember(g.stores[p], IsLive(g.index, p), r);
    }
    forall p | p in g.stores
      ensures DistinctTicks(Pruned(g).stores[p])
    {
      FilterDistinct(g.stores[p], IsLive(g.index, p));
    }
  }

  lemma PrunedRows(cfg: Config, g: State, next: nat)
    requires Inv(cfg, g, next)
    ensures Pruned(g).stores.Keys == g.stores.Keys && StoresOk(cfg, Pruned(g).stores, next)
    ensures forall p, r | p in g.stores && r in Pruned(g).stores[p] ::
            r in g.stores[p] && LiveAt(g.index, KeyOfRow(p, r))
    ensures forall k | LiveAt(g.index, k) :: k.provider in g.stores && RowAt(Pruned(g), k) == RowAt(g, k)
  {
    hide FindRow, Filter, RowAt;
    PrunedStoresOk(cfg, g, next);
    forall k | LiveAt(g.index, k)
      ensures RowAt(Pruned(g), k) == RowAt(g, k)
    {
      PrunedRowAt(cfg, g, next, k);
    }
  }

  lemma PrunedCoupled(cfg: Config, g: State, next: nat, pruned: State)
    requires Inv(cfg, g, next) && pruned == g.(stores := pruned.stores) && pruned.stores.Keys == g.stores.Keys
    requires StoresOk(cfg, pruned.stores, next)
    requires forall p, r | p in g.stores && r in pruned.stores[p] :: r in g.stores[p] && LiveAt(g.index, KeyOfRow(p, r))
    requires forall k | LiveAt(g.index, k) :: k.provider in g.stores && RowAt(pruned, k) == RowAt(g, k)
    ensures Inv(cfg, pruned, next) && Exact(pruned) && (Embedded(cfg, g) ==> Embedded(cfg, pruned))
  {
    hide RowAt, StoresOk, IndexOk;
    assert JournalOk(pruned, next);
    assert Backed(pruned);
    assert Indexed(pruned);
  }

  lemma PrunedAbs(g: State, pruned: State)
    requires pruned.index == g.index && forall k | LiveAt(g.index, k) :: RowAt(pruned, k) == RowAt(g, k)
    ensures Abs(pruned) == Abs(g)
  {
    hide RowAt;
  }

  /** Pruning puts index and store in exact step and takes no memory away. */
  lemma PrunedIsExact(cfg: Config, g: State, next: nat)
    requires Inv(cfg, g, next)
    ensures Inv(cfg, Pruned(g), next) && Exact(Pruned(g)) && Abs(Pruned(g)) == Abs(g)
    ensures Embedded(cfg, g) ==> Embedded(cfg, Pruned(g))
  {
    hide Inv, Exact, Embedded, RowAt, KeyOfRow, Abs, Filter, StoresOk;
    PrunedRows(cfg, g, next);
    PrunedCoupled(cfg, g, next, Pruned(g));
    PrunedAbs(g, Pruned(g));
  }

  // -- cutting before dropping, and dropping before cutting --------------------------------

  /** Nothing dropped from the head of the list, or nothing worth keeping beyond it. */
  ghost predicate NothingCrowdedOut<T>(all: seq<T>, limit: nat, p: T -> bool) {
    (forall x | x in Take(all, limit) :: p(x)) || (forall x | x in all[Min(limit, |all|)..] :: !p(x))
  }

  lemma {:induction false} FilterShort<T>(s: seq<T>, p: T -> bool)
    ensures |Filter(s, p)| <= |s|
    ensures |Filter(s, p)| == |s| <==> forall x | x in s :: p(x)
    ensures |Filter(s, p)| == 0 <==> forall x | x in s :: !p(x)
  {
    if s != [] {
      FilterShort(s[1..], p);
      assert s == [s[0]] + s[1..];
    }
  }

  /** Cutting first keeps a prefix, the whole page if and only if nothing was crowded out. */
  lemma CutThenDrop<T>(all: seq<T>, limit: nat, p: T -> bool)
    ensures Filter(Take(all, limit), p) <= Take(Filter(all, p), limit)
    ensures Filter(Take(all, limit), p) == Take(Filter(all, p), limit) <==> NothingCrowdedOut(all, limit, p)
  {
    var cut := Min(limit, |all|);
    assert all == all[..cut] + all[cut..];
    FilterAppend(all[..cut], all[cut..], p);
    FilterShort(all[..cut], p);
    FilterShort(all[cut..], p);
  }

  lemma {:induction false} MapPrefix<T, U>(s: seq<T>, t: seq<T>, f: T -> U)
    requires s <= t
    ensures Map(s, f) <= Map(t, f)
  {
    assert t == s + t[|s|..];
    MapAppend(s, t[|s|..], f);
  }

  lemma {:induction false} MapFiltered<T, U>(s: seq<T>, f: T -> U, p: T -> bool, q: U -> bool)
    requires forall x | x in s :: q(f(x)) == p(x)
    ensures Map(Filter(s, p), f) == Filter(Map(s, f), q)
  {
    if s != [] {
      assert s[0] in s && forall x | x in s[1..] :: x in s;
      MapFiltered(s[1..], f, p, q);
      assert Map(s, f)[1..] == Map(s[1..], f);
      if p(s[0]) { assert ([s[0]] + Filter(s[1..], p))[1..] == Filter(s[1..], p); }
    }
  }

  // -- listings --------------------------------------------------------------------------------

  /** The covered rows of a store, newest first, before any cut. */
  function CoveredNewest(rows: seq<PgRow>,
                         bound: Scope): seq<PgRow> { Sort(Filter(rows, Covered(bound)), NewestFirst()) }

  lemma PrunedListing(rows: seq<PgRow>, bound: Scope, limit: nat, p: PgRow -> bool)
    ensures RowsInScope(rows, bound, true, Some(limit)) == Take(CoveredNewest(rows, bound), limit)
    ensures RowsInScope(Filter(rows, p), bound, true, Some(limit)) == Take(Filter(CoveredNewest(rows, bound), p), limit)
  {
    RowsInScopeCutsLast(rows, bound, true, Some(limit));
    RowsInScopeCutsLast(Filter(rows, p), bound, true, Some(limit));
    FilterCommutes(rows, p, Covered(bound));
    NewestFirstIsOrder();
    FilterSort(Filter(rows, Covered(bound)), NewestFirst(), p);
  }

  /** Tombstoned rows leave no record. */
  lemma {:induction false} DeadLeaveNoRecord(index: Index, tenant: string, name: string, rows: seq<PgRow>)
    requires forall r | r in rows :: r.scope.tenant == Some(tenant)
    ensures RecordsAt(index, tenant, name, Map(rows, Listed()))
         == RecordsAt(index, tenant, name, Map(Filter(rows, IsLive(index, name)), Listed()))
  {
    if rows != [] {
      assert rows[0] in rows && forall r | r in rows[1..] :: r in rows;
      DeadLeaveNoRecord(index, tenant, name, rows[1..]);
      assert Map(rows, Listed())[1..] == Map(rows[1..], Listed());
      var kept := Filter(rows[1..], IsLive(index, name));
      assert ([rows[0]] + kept)[1..] == kept;
    }
  }

  /** In any coupled state a listing answers with a head of the newest page of the abstract map. It is the whole page
      if and only if no tombstoned row took the place of a live one beyond the cut. */
  lemma ListingIsNewestIff(cfg: Config, g: State, next: nat, e: Event, name: string)
      returns (keys: seq<Key>, page: seq<Key>)
    requires Inv(cfg, g, next) && e.tenant != "" && e.verb.ListScope?
    requires Prepare(cfg, g.bindings, e.tenant, e.verb.scope, e.verb.asserted) == Ok(name)
             && cfg.caps[name].supportsList
    ensures Supplied(cfg, g, e) && StepList(cfg, g, e).0 == g && name in g.stores
    ensures keys <= page
    ensures IsNewestPage(Abs(g), name, e.verb.scope.Under(e.tenant), Min(e.verb.limit, cfg.caps[name].maxLimit), page)
    ensures forall i | 0 <= i < |keys| :: keys[i] in Abs(g)
    ensures var answer := StepList(cfg, g, e).1;
            answer.Listing? && |answer.records| == |keys|
            && forall i | 0 <= i < |keys| :: answer.records[i] == SpecRecord(keys[i], Abs(g)[keys[i]])
    ensures var bound, limit := e.verb.scope.Under(e.tenant), Min(e.verb.limit, cfg.caps[name].maxLimit);
            IsNewestPage(Abs(g), name, bound, limit, keys) <==>
              NothingCrowdedOut(CoveredNewest(g.stores[name], bound), limit, IsLive(g.index, name))
  {
    hide Inv, Abs, Prepare, RowsInScope, StepList, RecordsAt, Supplied, IsNewestPage, KeyOfRow, NothingCrowdedOut,
         IsLive, Filter;
    var bound, limit := e.verb.scope.Under(e.tenant), Min(e.verb.limit, cfg.caps[name].maxLimit);
    ProviderHasStore(cfg, g, next, name);
    var rows := RowsInScope(g.stores[name], bound, true, Some(limit));
    var live := Filter(rows, IsLive(g.index, name));
    page := Map(Take(Filter(CoveredNewest(g.stores[name], bound), IsLive(g.index, name)), limit), RowKey(name));
    keys := Map(live, RowKey(name));
    ListIs(cfg, g, next, e);
    ListedAreOwn(e, g.stores[name], bound, limit);
    DeadLeaveNoRecord(g.index, e.tenant, name, rows);
    LiveRowsTell(cfg, g, next, e.tenant, name, rows);
    LiveRecords(g, e.tenant, name, live);
    ListPageIff(cfg, g, next, name, bound, limit);
    forall i | 0 <= i < |live|
      ensures live[i] in live && keys[i] == KeyOfRow(name, live[i])
    {}
  }

  lemma ListedAreOwn(e: Event, store: seq<PgRow>, bound: Scope, limit: nat)
    requires e.tenant != "" && e.verb.ListScope? && bound == e.verb.scope.Under(e.tenant)
    ensures forall r | r in RowsInScope(store, bound, true, Some(limit)) ::
            r in store && r.scope.tenant == Some(e.tenant)
  {
    forall r | r in RowsInScope(store, bound, true, Some(limit))
      ensures r in store && r.scope.tenant == Some(e.tenant)
    {
      ListedMember(store, bound, limit, r);
      CoveredTenant(e.verb.scope, e.tenant, r);
    }
  }

  /** The live ones among a store's rows, and the records they give. */
  lemma LiveRowsTell(cfg: Config, g: State, next: nat, tenant: string, name: string, rows: seq<PgRow>)
    requires Inv(cfg, g, next) && name in g.stores
    requires forall r | r in rows :: r in g.stores[name] && r.scope.tenant == Some(tenant)
    ensures forall r | r in Filter(rows, IsLive(g.index, name)) :: var k := KeyOfRow(name, r);
              && r.scope.tenant == Some(tenant) && LiveAt(g.index, k) && k in Abs(g)
              && RecordAt(g.index, k, ToMemory(r, None)) == SpecRecord(k, Abs(g)[k])
  {
    hide Abs, Inv;
    forall r | r in Filter(rows, IsLive(g.index, name))
      ensures var k := KeyOfRow(name, r);
              && r.scope.tenant == Some(tenant) && LiveAt(g.index, k) && k in Abs(g)
              && RecordAt(g.index, k, ToMemory(r, None)) == SpecRecord(k, Abs(g)[k])
    {
      FilterMember(rows, IsLive(g.index, name), r);
      BackedRow(cfg, g, next, KeyOfRow(name, r), r);
    }
  }

  lemma ListPageIff(cfg: Config, g: State, next: nat, name: string, bound: Scope, limit: nat)
    requires Inv(cfg, g, next) && name in g.stores
    ensures var live := Filter(RowsInScope(g.stores[name], bound, true, Some(limit)), IsLive(g.index, name));
            IsNewestPage(Abs(g), name, bound, limit, Map(live, RowKey(name))) <==>
              NothingCrowdedOut(CoveredNewest(g.stores[name], bound), limit, IsLive(g.index, name))
    ensures var live := Filter(RowsInScope(g.stores[name], bound, true, Some(limit)), IsLive(g.index, name));
            var page := Map(Take(Filter(CoveredNewest(g.stores[name], bound), IsLive(g.index, name)), limit),
                            RowKey(name));
            Map(live, RowKey(name)) <= page && IsNewestPage(Abs(g), name, bound, limit, page)
  {
    hide Inv, Exact, Abs, RowsInScope, IsNewestPage, NothingCrowdedOut, IsLive, Filter, Map, RowKey, Sort;
    var p, all := IsLive(g.index, name), CoveredNewest(g.stores[name], bound);
    PrunedIsExact(cfg, g, next);
    PrunedListing(g.stores[name], bound, limit, p);
    ListedIsNewestPage(cfg, Pruned(g), next, name, bound, limit);
    CutThenDrop(all, limit, p);
    var short, page := Filter(Take(all, limit), p), Take(Filter(all, p), limit);
    MapPrefix(short, page, RowKey(name));
    ShortPageIsNoPage(Abs(g), name, bound, limit, Map(short, RowKey(name)), Map(page, RowKey(name)));
    MapLengths(short, page, RowKey(name));
  }

  lemma MapLengths<T, U>(s: seq<T>, t: seq<T>, f: T -> U)
    requires s <= t
    ensures Map(s, f) == Map(t, f) <==> s == t
  {
    if s != t { assert |s| < |t|; }
  }

  /** Of two pages, one a prefix of the other and the longer one right, the shorter is right only if they are the
      same. */
  lemma ShortPageIsNoPage(mem: Memories, name: string, bound: Scope, limit: nat, short: seq<Key>, page: seq<Key>)
    requires IsNewestPage(mem, name, bound, limit, page) && short <= page
    ensures IsNewestPage(mem, name, bound, limit, short) <==> short == page
  {
    if |short| < |page| {
      var k := ExtraKey(short, page);
      assert InPageScope(mem, name, bound, k);
    }
  }

  // -- searches ----------------------------------------------------------------------------------

  function IsLiveHit(index: Index, name: string): Scored -> bool { (s: Scored) => LiveAt(index, KeyOfRow(name, s.1)) }

  /** Everything a search may rank, best first, before any cut. */
  function Ranked(rows: seq<PgRow>, f: Scope, needle: Vector, minScore: Option<real>, sqrt: real -> real): seq<Scored> {
    Sort(Eligible(rows, f, needle, minScore, sqrt), BestFirst())
  }

  lemma PrunedEligible(rows: seq<PgRow>, f: Scope, needle: Vector, minScore: Option<real>, sqrt: real -> real,
                       index: Index, name: string)
    ensures Eligible(Filter(rows, IsLive(index, name)), f, needle, minScore, sqrt)
         == Filter(Eligible(rows, f, needle, minScore, sqrt), IsLiveHit(index, name))
  {
    hide Cosine, RowsInScope, Covered;
    var p, q := IsLive(index, name), IsLiveHit(index, name);
    var scoped := Filter(rows, Covered(f));
    RowsInScopeCutsLast(rows, f, false, None);
    RowsInScopeCutsLast(Filter(rows, p), f, false, None);
    FilterCommutes(rows, p, Covered(f));
    MapFiltered(scoped, WithScore(needle, sqrt), p, q);
    FilterCommutes(Map(scoped, WithScore(needle, sqrt)), q, HighEnough(minScore));
  }

  lemma PrunedSearch(rows: seq<PgRow>, f: Scope, needle: Vector, query: Query, sqrt: real -> real, index: Index,
                     name: string)
    ensures SearchInPython(rows, f, needle, query, sqrt)
            == Take(Ranked(rows, f, needle, query.minScore, sqrt), query.limit)
    ensures SearchInPython(Filter(rows, IsLive(index, name)), f, needle, query, sqrt)
         == Take(Filter(Ranked(rows, f, needle, query.minScore, sqrt), IsLiveHit(index, name)), query.limit)
  {
    hide Eligible, Filter, Sort;
    PrunedEligible(rows, f, needle, query.minScore, sqrt, index, name);
    BestFirstIsOrder();
    FilterSort(Eligible(rows, f, needle, query.minScore, sqrt), BestFirst(), IsLiveHit(index, name));
  }

  lemma {:induction false} DeadHitsLeaveNoRecord(index: Index, tenant: string, name: string, found: seq<Scored>)
    requires forall s | s in found :: s.1.scope.tenant == Some(tenant)
    ensures RecordsAt(index, tenant, name, Map(found, Hit()))
         == RecordsAt(index, tenant, name, Map(Filter(found, IsLiveHit(index, name)), Hit()))
  {
    if found != [] {
      assert found[0] in found && forall s | s in found[1..] :: s in found;
      DeadHitsLeaveNoRecord(index, tenant, name, found[1..]);
      assert Map(found, Hit())[1..] == Map(found[1..], Hit());
      var kept := Filter(found[1..], IsLiveHit(index, name));
      assert ([found[0]] + kept)[1..] == kept;
    }
  }

  /** In any coupled state a search answers with a head of a best page, scored by current content. It is the whole page
      if and only if no tombstoned row took the place of a live one beyond the cut. */
  lemma SearchIsBestIff(cfg: Config, g: State, next: nat, e: Event, name: string)
      returns (keys: seq<Key>, page: seq<Key>)
    requires Inv(cfg, g, next) && Embedded(cfg, g) && e.tenant != "" && e.verb.Search?
    requires Prepare(cfg, g.bindings, e.tenant, e.verb.scope, e.verb.asserted) == Ok(name)
    requires SearchRefusal(cfg.caps[name], e.verb.query).None?
    ensures Supplied(cfg, g, e) && StepSearch(cfg, g, e).0 == g && name in g.stores
    ensures keys <= page
    ensures IsBestPage(Abs(g), RankingOf(cfg, e, name), Min(e.verb.query.limit, cfg.caps[name].maxLimit), page)
    ensures forall i | 0 <= i < |keys| :: keys[i] in Abs(g)
    ensures var rank, limit := RankingOf(cfg, e, name), Min(e.verb.query.limit, cfg.caps[name].maxLimit);
            var answer := StepSearch(cfg, g, e).1;
            && answer.Found? && |answer.records| == |keys|
            && (forall i | 0 <= i < |keys| :: var m := Abs(g)[keys[i]];
                  answer.records[i] == SpecRecord(keys[i], m).(score := Some(rank.Score(m))))
            && (IsBestPage(Abs(g), rank, limit, keys) <==>
                  NothingCrowdedOut(Ranked(g.stores[name], rank.bound, rank.needle, rank.minScore, rank.sqrt), limit,
                                         IsLiveHit(g.index, name)))
  {
    hide Inv, Embedded, Abs, Prepare, SearchInPython, Cosine, StepSearch, SearchRefusal, RecordsAt, Supplied, KeyOfRow,
         IsBestPage, NothingCrowdedOut, IsLiveHit, Filter, Ranked;
    ProviderHasStore(cfg, g, next, name);
    var rank := RankingOf(cfg, e, name);
    var q := e.verb.query.(limit := Min(e.verb.query.limit, cfg.caps[name].maxLimit));
    var found := SearchInPython(g.stores[name], rank.bound, rank.needle, q, rank.sqrt);
    var live := Filter(found, IsLiveHit(g.index, name));
    var all := Ranked(g.stores[name], rank.bound, rank.needle, q.minScore, rank.sqrt);
    page := Map(Take(Filter(all, IsLiveHit(g.index, name)), q.limit), KeyOfHit(name));
    keys := Map(live, KeyOfHit(name));
    SearchIs(cfg, g, next, e);
    FoundAreOwn(e, g.stores[name], rank, q);
    DeadHitsLeaveNoRecord(g.index, e.tenant, name, found);
    LiveHitsTell(cfg, g, next, e.tenant, rank, found);
    LiveHits(g, e.tenant, name, live);
    SearchPageIff(cfg, g, next, rank, q);
    forall i | 0 <= i < |live|
      ensures live[i] in live && keys[i] == KeyOfRow(name, live[i].1)
    {}
  }

  lemma FoundAreOwn(e: Event, store: seq<PgRow>, rank: Ranking, q: Query)
    requires e.tenant != "" && e.verb.Search? && rank.bound == e.verb.scope.Under(e.tenant)
    ensures forall s | s in SearchInPython(store, rank.bound, rank.needle, q, rank.sqrt) ::
              s.1 in store && s.1.scope.tenant == Some(e.tenant) && s.0 == Cosine(rank.needle, s.1.embedding, rank.sqrt)
  {
    hide Cosine, SearchInPython;
    forall s | s in SearchInPython(store, rank.bound, rank.needle, q, rank.sqrt)
      ensures s.1 in store && s.1.scope.tenant == Some(e.tenant) && s.0 == Cosine(rank.needle, s.1.embedding, rank.sqrt)
    {
      FoundHit(store, rank, q, s);
      CoveredTenant(e.verb.scope, e.tenant, s.1);
    }
  }

  lemma FoundHit(store: seq<PgRow>, rank: Ranking, q: Query, s: Scored)
    requires s in SearchInPython(store, rank.bound, rank.needle, q, rank.sqrt)
    ensures s.1 in store && Covered(rank.bound)(s.1) && s.0 == Cosine(rank.needle, s.1.embedding, rank.sqrt)
  {
    hide Cosine, Eligible;
    var eligible := Eligible(store, rank.bound, rank.needle, q.minScore, rank.sqrt);
    TakeMember(Sort(eligible, BestFirst()), q.limit, s);
    SortMember(eligible, BestFirst(), s);
    EligibleMember(store, rank.bound, rank.needle, q.minScore, rank.sqrt, s);
  }

  lemma LiveHitsTell(cfg: Config, g: State, next: nat, tenant: string, rank: Ranking, found: seq<Scored>)
    requires Inv(cfg, g, next) && Embedded(cfg, g) && rank.name in g.stores && rank.embed == cfg.embed
    requires forall s | s in found ::
               s.1 in g.stores[rank.name] && s.1.scope.tenant == Some(tenant)
                   && s.0 == Cosine(rank.needle, s.1.embedding, rank.sqrt)
    ensures forall s | s in Filter(found, IsLiveHit(g.index, rank.name)) :: var k := KeyOfRow(rank.name, s.1);
              && s.1.scope.tenant == Some(tenant) && LiveAt(g.index, k) && k in Abs(g)
              && RecordAt(g.index, k, ToMemory(s.1, Some(s.0)))
                 == SpecRecord(k, Abs(g)[k]).(score := Some(rank.Score(Abs(g)[k])))
  {
    hide Abs, Inv, Cosine;
    forall s | s in Filter(found, IsLiveHit(g.index, rank.name))
      ensures var k := KeyOfRow(rank.name, s.1);
              && s.1.scope.tenant == Some(tenant) && LiveAt(g.index, k) && k in Abs(g)
              && RecordAt(g.index, k, ToMemory(s.1, Some(s.0)))
                 == SpecRecord(k, Abs(g)[k]).(score := Some(rank.Score(Abs(g)[k])))
    {
      FilterMember(found, IsLiveHit(g.index, rank.name), s);
      BackedRow(cfg, g, next, KeyOfRow(rank.name, s.1), s.1);
    }
  }

  lemma SearchPageIff(cfg: Config, g: State, next: nat, rank: Ranking, q: Query)
    requires Inv(cfg, g, next) && Embedded(cfg, g) && rank.name in g.stores
    requires rank.embed == cfg.embed && rank.sqrt == cfg.sqrt && rank.minScore == q.minScore
    ensures var found := SearchInPython(g.stores[rank.name], rank.bound, rank.needle, q, rank.sqrt);
            var live := Filter(found, IsLiveHit(g.index, rank.name));
            IsBestPage(Abs(g), rank, q.limit, Map(live, KeyOfHit(rank.name))) <==>
              NothingCrowdedOut(Ranked(g.stores[rank.name], rank.bound, rank.needle, q.minScore, rank.sqrt), q.limit,
                                     IsLiveHit(g.index, rank.name))
    ensures var found := SearchInPython(g.stores[rank.name], rank.bound, rank.needle, q, rank.sqrt);
            var live := Filter(found, IsLiveHit(g.index, rank.name));
            var all := Ranked(g.stores[rank.name], rank.bound, rank.needle, q.minScore, rank.sqrt);
            var page := Map(Take(Filter(all, IsLiveHit(g.index, rank.name)), q.limit), KeyOfHit(rank.name));
            Map(live, KeyOfHit(rank.name)) <= page && IsBestPage(Abs(g), rank, q.limit, page)
  {
    hide Inv, Exact, Embedded, Abs, SearchInPython, Cosine, IsBestPage, NothingCrowdedOut, IsLiveHit, Filter, Map,
         KeyOfHit, Ranked;
    var p, all := IsLiveHit(g.index, rank.name),
        Ranked(g.stores[rank.name], rank.bound, rank.needle, q.minScore, rank.sqrt);
    PrunedIsExact(cfg, g, next);
    PrunedSearch(g.stores[rank.name], rank.bound, rank.needle, q, rank.sqrt, g.index, rank.name);
    FoundIsBestPage(cfg, Pruned(g), next, rank, q);
    CutThenDrop(all, q.limit, p);
    var short, page := Filter(Take(all, q.limit), p), Take(Filter(all, p), q.limit);
    MapPrefix(short, page, KeyOfHit(rank.name));
    ShortPageIsNotBest(Abs(g), rank, q.limit, Map(short, KeyOfHit(rank.name)), Map(page, KeyOfHit(rank.name)));
    MapLengths(short, page, KeyOfHit(rank.name));
  }

  lemma ShortPageIsNotBest(mem: Memories, rank: Ranking, limit: nat, short: seq<Key>, page: seq<Key>)
    requires IsBestPage(mem, rank, limit, page) && short <= page
    ensures IsBestPage(mem, rank, limit, short) <==> short == page
  {
    hide Covers, Cosine;
    if |short| < |page| {
      var k := ExtraKey(short, page);
      assert rank.Admits(mem, k);
    }
  }

  // -- the count of an erasure -----------------------------------------------------------------

  /** Rows an erasure removes though their memory is gone already. */
  function DeadCovered(index: Index, name: string, bound: Scope): PgRow -> bool {
    (r: PgRow) => !LiveAt(index, KeyOfRow(name, r)) && AllHold(Conditions(bound), r.scope)
        && CoversLabels(bound, r.scope)
  }

  /** Rows an erasure leaves though their memory goes. */
  function LiveMissed(index: Index, name: string, bound: Scope): PgRow -> bool {
    (r: PgRow) => LiveAt(index, KeyOfRow(name, r)) && AllHold(Conditions(bound), r.scope)
        && !CoversLabels(bound, r.scope)
  }

  function LiveCovered(index: Index, name: string, bound: Scope): PgRow -> bool {
    (r: PgRow) => LiveAt(index, KeyOfRow(name, r)) && AllHold(Conditions(bound), r.scope)
        && CoversLabels(bound, r.scope)
  }

  function LiveInDims(index: Index, name: string, bound: Scope): PgRow -> bool {
    (r: PgRow) => LiveAt(index, KeyOfRow(name, r)) && AllHold(Conditions(bound), r.scope)
  }

  lemma {:induction false} FilterParts<T>(s: seq<T>, whole: T -> bool, p: T -> bool, q: T -> bool)
    requires forall x | x in s :: whole(x) == (p(x) || q(x)) && !(p(x) && q(x))
    ensures |Filter(s, whole)| == |Filter(s, p)| + |Filter(s, q)|
  {
    if s != [] {
      assert s[0] in s && forall x | x in s[1..] :: x in s;
      FilterParts(s[1..], whole, p, q);
    }
  }

  /** The memories an erasure makes die are those of the live rows in its dimensions. */
  lemma Forgotten(cfg: Config, g: State, next: nat, e: Event, name: string, k: Key)
    requires Inv(cfg, g, next) && e.tenant != "" && Erases(cfg, g, e, name) && name in g.stores
    ensures k in KeysOf(name, Filter(g.stores[name], LiveInDims(g.index, name, e.verb.scope.Under(e.tenant)))) <==>
              k in Abs(g) && k !in Abs(StepDeleteScope(cfg, g, e).0)
  {
    hide Inv, Abs, StepDeleteScope, FindRow;
    var bound, rows := e.verb.scope.Under(e.tenant), g.stores[name];
    var p := LiveInDims(g.index, name, bound);
    ErasureAbs(cfg, g, next, e, name, k);
    if r :| r in Filter(rows, p) && KeyOfRow(name, r) == k {
      FilterMember(rows, p, r);
      BackedRow(cfg, g, next, k, r);
      ConditionsAreCovers(bound, r.scope);
    }
    if k in Abs(g) && k !in Abs(StepDeleteScope(cfg, g, e).0) {
      StoredMemory(cfg, g, next, k);
      var r :| r in rows && r.scope == Abs(g)[k].scope && KeyOfRow(name, r) == k;
      AbsAt(cfg, g, next, k);
      ConditionsAreCovers(bound, r.scope);
      FilterMember(rows, p, r);
    }
  }

  /** In any coupled state: the count an erasure reports is the number of memories it forgets if and only if it removes
      as many rows of memories gone already as it leaves rows of memories it makes die. */
  lemma ErasureCountsIff(cfg: Config, g: State, next: nat, e: Event, name: string)
    requires Inv(cfg, g, next) && e.tenant != "" && Erases(cfg, g, e, name)
    ensures name in g.stores
    ensures var (after, answer) := StepDeleteScope(cfg, g, e);
            var bound, rows := e.verb.scope.Under(e.tenant), g.stores[name];
            answer.Removed? &&
            (answer.count + |Abs(after)| == |Abs(g)| <==>
              |Filter(rows, DeadCovered(g.index, name, bound))| == |Filter(rows, LiveMissed(g.index, name, bound))|)
  {
    hide Inv, Abs, Filter, LiveAt, KeysOf, CoversLabels;
    ProviderHasStore(cfg, g, next, name);
    var bound, rows := e.verb.scope.Under(e.tenant), g.stores[name];
    var dead, missed := DeadCovered(g.index, name, bound), LiveMissed(g.index, name, bound);
    var covered, dims := LiveCovered(g.index, name, bound), LiveInDims(g.index, name, bound);
    FilterParts(rows, Covered(bound), covered, dead);
    FilterParts(rows, dims, covered, missed);
    StoreIsDistinct(cfg, g, next, name);
    FilterDistinct(rows, dims);
    RowKeysCount(name, Filter(rows, dims));
    ForgetCount(cfg, g, next, e, name);
  }

  lemma ForgetCount(cfg: Config, g: State, next: nat, e: Event, name: string)
    requires Inv(cfg, g, next) && e.tenant != "" && Erases(cfg, g, e, name) && name in g.stores
    ensures |KeysOf(name, Filter(g.stores[name], LiveInDims(g.index, name, e.verb.scope.Under(e.tenant))))|
            + |Abs(StepDeleteScope(cfg, g, e).0)| == |Abs(g)|
  {
    hide Inv, Abs, StepDeleteScope, KeysOf, LiveInDims, Filter;
    var keys := KeysOf(name, Filter(g.stores[name], LiveInDims(g.index, name, e.verb.scope.Under(e.tenant))));
    var after := StepDeleteScope(cfg, g, e).0;
    forall k
      ensures k in keys <==> k in Abs(g) && k !in Abs(after)
    {
      Forgotten(cfg, g, next, e, name, k);
    }
    forall k | k in Abs(after)
      ensures k in Abs(g)
    {
      ErasureAbs(cfg, g, next, e, name, k);
    }
    ForgottenCount(Abs(g), Abs(after), keys);
  }
}
