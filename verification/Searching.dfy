/** Search seen from outside: the best-scoring covered memories, scored by their current content. */
module Searching {
  import opened Prelude
  import opened Scopes
  import opened MemoryIndex
  import opened Vectors
  import opened Pgvector
  import opened Gateway
  import opened GatewayInvariant
  import opened Runs
  import opened Refinement
  import opened Listing

  // -- every stored vector is the vector of the stored content --------------------------------

  ghost predicate Embedded(cfg: Config, g: State) {
    forall p, r | p in g.stores && r in g.stores[p] :: r.embedding == cfg.embed(r.content)
  }

  lemma WriteKeepsEmbedded(cfg: Config, g: State, tenant: string, name: string, facts: seq<string>, scope: Scope,
                           ids: seq<nat>, now: nat, next: nat, upto: nat)
    requires Inv(cfg, g, next) && Embedded(cfg, g) && name in cfg.caps && FreshIds(ids, next, upto)
             && 2 * |facts| <= |ids|
    ensures Embedded(cfg, WriteFacts(cfg, g, tenant, name, facts, scope, ids, now).0)
  {
    hide WriteFacts, Inv, Embedded, FreshIds, WrittenState;
    WriteState(cfg, g, tenant, name, facts, scope, ids, now, next, upto);
    WrittenIsEmbedded(cfg, g, tenant, name, facts, scope, ids, now);
  }

  lemma WrittenIsEmbedded(cfg: Config, g: State, tenant: string, name: string, facts: seq<string>, scope: Scope,
                          ids: seq<nat>, now: nat)
    requires Embedded(cfg, g) && 2 * |facts| <= |ids|
    ensures Embedded(cfg, WrittenState(cfg, g, tenant, name, facts, scope, ids, now))
  {
    hide NewRows, InsertRows;
    var added := NewRows(facts, cfg.embed, scope.Under(tenant), ids[..|facts|], now);
    NewRowsAt(facts, cfg.embed, scope.Under(tenant), ids[..|facts|], now);
    forall r | r in StoreOf(g, name) + added
      ensures r.embedding == cfg.embed(r.content)
    {
      if r !in added { assert r in g.stores[name]; }
    }
  }

  lemma EditKeepsEmbedded(cfg: Config, g: State, p: string, tick: nat, content: string, now: nat)
    requires Embedded(cfg, g) && p in g.stores
    ensures Embedded(cfg, g.(stores := g.stores[p := Edited(g.stores[p], tick, content, cfg.embed(content), now)]))
  {
    var edited := Edited(g.stores[p], tick, content, cfg.embed(content), now);
    EditedAt(g.stores[p], tick, content, cfg.embed(content), now);
    forall r | r in edited
      ensures r.embedding == cfg.embed(r.content)
    {
      var i :| 0 <= i < |edited| && edited[i] == r;
      assert g.stores[p][i] in g.stores[p];
    }
  }

  lemma EraseKeepsEmbedded(cfg: Config, g: State, after: State, p: string, keep: PgRow -> bool)
    requires Embedded(cfg, g) && after.stores == g.stores[p := Filter(StoreOf(g, p), keep)]
    ensures Embedded(cfg, after)
  {
    forall r | r in Filter(StoreOf(g, p), keep)
      ensures r.embedding == cfg.embed(r.content)
    {
      FilterMember(StoreOf(g, p), keep, r);
    }
  }

  lemma UpdateKeepsEmbedded(cfg: Config, g: State, next: nat, e: Event)
    requires Inv(cfg, g, next) && Embedded(cfg, g) && e.verb.Update?
    ensures Supplied(cfg, g, e) && Embedded(cfg, StepUpdate(cfg, g, e).0)
  {
    hide Inv, Edited, StepUpdate, Embedded;
    UpdateKeepsInv(cfg, g, next, e);
    if k :| Owns(g.index, k, e.tenant, e.verb.id) {
      UpdateIs(cfg, g, next, e, k);
      EditKeepsEmbedded(cfg, g, k.provider, k.native.tick, e.verb.content, e.now);
    } else {
      UnresolvedFails(cfg, g, e);
      assert Step(cfg, g, e) == StepUpdate(cfg, g, e);
    }
  }

  lemma DeleteKeepsEmbedded(cfg: Config, g: State, next: nat, e: Event)
    requires Inv(cfg, g, next) && Embedded(cfg, g) && e.verb.Delete?
    ensures Embedded(cfg, StepDelete(cfg, g, e).0)
  {
    hide Inv, StepDelete, Embedded, Filter;
    if k :| Owns(g.index, k, e.tenant, e.verb.id) {
      DeleteIs(cfg, g, next, e, k);
      if cfg.caps[k.provider].supportsDelete {
        EraseKeepsEmbedded(cfg, g, StepDelete(cfg, g, e).0, k.provider, OtherThan(k.native.tick));
      }
    } else {
      UnresolvedFails(cfg, g, e);
      assert Step(cfg, g, e) == StepDelete(cfg, g, e);
    }
  }

  lemma DeleteScopeKeepsEmbedded(cfg: Config, g: State, e: Event)
    requires Embedded(cfg, g) && e.verb.DeleteScope?
    ensures Embedded(cfg, StepDeleteScope(cfg, g, e).0)
  {
    hide Filter, Embedded;
    var name := Prepare(cfg, g.bindings, e.tenant, e.verb.scope, e.verb.asserted);
    if name.Ok? && cfg.caps[name.value].supportsDeleteByScope {
      EraseKeepsEmbedded(cfg, g, StepDeleteScope(cfg, g, e).0, name.value, Uncovered(e.verb.scope.Under(e.tenant)));
    }
  }

  lemma FactsKeepEmbedded(cfg: Config, g: State, next: nat, e: Event, upto: nat)
    requires Inv(cfg, g, next) && Proper(cfg, g.bindings, e, next, upto) && Embedded(cfg, g)
    ensures Supplied(cfg, g, e)
    ensures e.verb.Upsert? ==> Embedded(cfg, StepUpsert(cfg, g, e).0)
    ensures e.verb.Ingest? ==> Embedded(cfg, StepIngest(cfg, g, e).0)
  {
    hide WriteFacts, Inv, Embedded, Prepare, FreshIds, StepIngest;
    Supply(cfg, g, next, e);
    if e.verb.Upsert? || e.verb.Ingest? {
      var v := e.verb;
      var name := Prepare(cfg, g.bindings, e.tenant, v.scope, v.asserted);
      if e.verb.Ingest? { IngestIs(cfg, g, next, e, upto); }
      if Accepted(cfg, g.bindings, e) {
        WriteKeepsEmbedded(cfg, g, e.tenant, name.value, v.facts, v.scope, e.ids, e.now, next, upto);
        if e.verb.Ingest? && cfg.journalEnabled {
          JournalKeepsEmbedded(cfg, WriteFacts(cfg, g, e.tenant, name.value, v.facts, v.scope, e.ids, e.now).0,
                               Episode(e, name.value));
        }
      }
    }
  }

  lemma JournalKeepsEmbedded(cfg: Config, g: State, j: JournalRow)
    requires Embedded(cfg, g)
    ensures Embedded(cfg, g.(journal := g.journal + [j]))
  {}

  /** No verb leaves a memory with the vector of an earlier content. */
  lemma StepKeepsEmbedded(cfg: Config, g: State, next: nat, e: Event, upto: nat)
    requires Inv(cfg, g, next) && Proper(cfg, g.bindings, e, next, upto) && Embedded(cfg, g)
    ensures Supplied(cfg, g, e) && Embedded(cfg, Step(cfg, g, e).0)
  {
    hide Inv, WriteFacts, StepIngest, StepUpsert, StepUpdate, StepSearch, StepList, StepGet, StepDelete,
         StepDeleteScope, FreshIds;
    FactsKeepEmbedded(cfg, g, next, e, upto);
    match e.verb
    case Ingest(_, _, _, _) =>
    case Upsert(_, _, _) =>
    case Update(_, _) => UpdateKeepsEmbedded(cfg, g, next, e);
    case Delete(_) => DeleteKeepsEmbedded(cfg, g, next, e);
    case DeleteScope(_, _) => DeleteScopeKeepsEmbedded(cfg, g, e);
    case RebindSubject(_, _, _) =>
    case _ => ReadsChangeNothing(cfg, g, next, e);
  }

  lemma {:induction false} EmbeddedForEver(cfg: Config, g: State, next: nat, events: seq<Event>)
    requires Inv(cfg, g, next) && ProperRun(cfg, g.bindings, events, next) && Embedded(cfg, g)
    ensures Embedded(cfg, Run(cfg, g, next, events).0)
    decreases |events|
  {
    hide Inv, Step, Supplied, Proper, Embedded;
    if events != [] {
      var e, upto := events[0], Runs.After(events[0], next);
      StepKeepsInv(cfg, g, next, e, upto);
      StepBindingsAre(cfg, g, next, e, upto);
      StepKeepsEmbedded(cfg, g, next, e, upto);
      EmbeddedForEver(cfg, Step(cfg, g, e).0, upto, events[1..]);
    }
  }

  // -- what a search may answer -----------------------------------------------------------------

  datatype Ranking = Ranking(name: string, bound: Scope, needle: Vector, minScore: Option<real>,
                             embed: string -> Vector, sqrt: real -> real) {
    function Score(m: Memory): real { Cosine(needle, embed(m.content), sqrt) }

    ghost predicate Admits(mem: Memories, k: Key) {
      && k in mem && k.provider == name && Covers(bound, mem[k].scope)
      && (minScore.Some? ==> Score(mem[k]) >= minScore.value)
    }
  }

  /** As many covered memories as the limit allows, best first, and nothing worse in place of something better. */
  ghost predicate IsBestPage(mem: Memories, rank: Ranking, limit: nat, keys: seq<Key>) {
    && |keys| <= limit && Distinct(keys)
    && (forall i | 0 <= i < |keys| :: rank.Admits(mem, keys[i]))
    && (forall i, j | 0 <= i < j < |keys| :: rank.Score(mem[keys[i]]) >= rank.Score(mem[keys[j]]))
    && (forall k | rank.Admits(mem, k) && k !in keys ::
          |keys| == limit && forall i | 0 <= i < |keys| :: rank.Score(mem[keys[i]]) >= rank.Score(mem[k]))
  }

  // -- lists without repetition --------------------------------------------------------------------

  lemma {:induction false} DistinctCount<T>(s: seq<T>, x: T)
    requires Distinct(s)
    ensures multiset(s)[x] <= 1
  {
    if s != [] {
      DistinctCount(s[1..], x);
      assert s == [s[0]] + s[1..];
      if x == s[0] { FirstIsNew(s); }
    }
  }

  lemma PermutedDistinct<T>(s: seq<T>, t: seq<T>)
    requires Distinct(s) && multiset(s) == multiset(t)
    ensures Distinct(t)
  {
    forall i, j | 0 <= i < j < |t|
      ensures t[i] != t[j]
    {
      if t[i] == t[j] {
        assert t == t[..j] + [t[j]] + t[j + 1..] && t[i] in t[..j];
        DistinctCount(s, t[i]);
      }
    }
  }

  lemma {:induction false} FilterDistinctAny<T>(s: seq<T>, p: T -> bool)
    requires Distinct(s)
    ensures Distinct(Filter(s, p))
  {
    if s != [] {
      FilterDistinctAny(s[1..], p);
      if p(s[0]) {
        FilterMember(s[1..], p, s[0]);
        FirstIsNew(s);
      }
    }
  }

  lemma FirstIsNew<T>(s: seq<T>)
    requires Distinct(s) && s != []
    ensures s[0] !in s[1..]
  {
    forall i | 0 <= i < |s[1..]|
      ensures s[1..][i] != s[0]
    {
      assert s[0] != s[i + 1];
    }
  }

  // -- how far the specification of a search fixes its answer --------------------------------------

  function Members(s: seq<Key>): set<Key> { set k | k in s }

  lemma {:induction false} MembersCount(s: seq<Key>)
    requires Distinct(s)
    ensures |Members(s)| == |s|
  {
    if s != [] {
      FirstIsNew(s);
      MembersCount(s[1..]);
      assert s == [s[0]] + s[1..];
      assert Members(s) == {s[0]} + Members(s[1..]);
    }
  }

  lemma MoreThan(a: seq<Key>, b: seq<Key>) returns (k: Key)
    requires Distinct(a) && Distinct(b) && |a| < |b|
    ensures k in b && k !in a
  {
    MembersCount(a);
    MembersCount(b);
    if forall x | x in b :: x in a {
      Fewer(Members(b), Members(a));
      assert false;
    }
    k :| k in b && k !in a;
  }

  lemma Fewer(x: set<Key>, y: set<Key>)
    requires x <= y
    ensures |x| <= |y|
  {
    assert |y| == |x| + |y - x| by { assert y == x + (y - x); }
  }

  /** At every place a best page scores at least as well as any other page of admitted memories, best first. */
  lemma NoWorse(mem: Memories, rank: Ranking, limit: nat, a: seq<Key>, b: seq<Key>, i: nat)
    requires IsBestPage(mem, rank, limit, a) && IsBestPage(mem, rank, limit, b) && i < |a| && i < |b|
    ensures rank.Admits(mem, a[i]) && rank.Admits(mem, b[i]) && rank.Score(mem[a[i]]) >= rank.Score(mem[b[i]])
  {
    hide Cosine, Covers;
    var early, ahead := a[..i], b[..i + 1];
    assert Distinct(early) && Distinct(ahead);
    var k := MoreThan(early, ahead);
    var j :| 0 <= j <= i && b[j] == k;
    assert rank.Score(mem[k]) >= rank.Score(mem[b[i]]);
    forall n | 0 <= n < i
      ensures a[n] != k
    {
      assert early[n] == a[n];
    }
  }

  lemma NoShorter(mem: Memories, rank: Ranking, limit: nat, a: seq<Key>, b: seq<Key>)
    requires IsBestPage(mem, rank, limit, a) && IsBestPage(mem, rank, limit, b)
    ensures |a| >= |b|
  {
    hide Cosine, Covers;
    if |a| < |b| {
      var k := MoreThan(a, b);
    }
  }

  /** Any two best pages are of one length and score alike at every place; only memories of equal score can differ. */
  lemma BestPagesScoreAlike(mem: Memories, rank: Ranking, limit: nat, a: seq<Key>, b: seq<Key>)
    requires IsBestPage(mem, rank, limit, a) && IsBestPage(mem, rank, limit, b)
    ensures |a| == |b|
    ensures forall i | 0 <= i < |a| :: a[i] in mem && b[i] in mem && rank.Score(mem[a[i]]) == rank.Score(mem[b[i]])
  {
    NoShorter(mem, rank, limit, a, b);
    NoShorter(mem, rank, limit, b, a);
    hide IsBestPage;
    forall i | 0 <= i < |a|
      ensures a[i] in mem && b[i] in mem && rank.Score(mem[a[i]]) == rank.Score(mem[b[i]])
    {
      NoWorse(mem, rank, limit, a, b, i);
      NoWorse(mem, rank, limit, b, a, i);
    }
  }

  // -- the rows behind an answer -----------------------------------------------------------------------

  lemma EligibleDistinct(rows: seq<PgRow>, f: Scope, needle: Vector, minScore: Option<real>, sqrt: real -> real)
    requires DistinctTicks(rows)
    ensures Distinct(Eligible(rows, f, needle, minScore, sqrt))
  {
    var scoped := RowsInScope(rows, f, false, None);
    RowsInScopeCutsLast(rows, f, false, None);
    FilterDistinct(rows, Covered(f));
    var scored := Map(scoped, WithScore(needle, sqrt));
    forall i, j | 0 <= i < j < |scored|
      ensures scored[i] != scored[j]
    {
      assert scored[i].1 == scoped[i] && scored[j].1 == scoped[j];
    }
    FilterDistinctAny(scored, HighEnough(minScore));
  }

  lemma EligibleHas(rows: seq<PgRow>, f: Scope, needle: Vector, minScore: Option<real>, sqrt: real -> real, r: PgRow)
    requires r in rows && Covers(f, r.scope) && (minScore.Some? ==> Cosine(needle, r.embedding, sqrt) >= minScore.value)
    ensures (Cosine(needle, r.embedding, sqrt), r) in Eligible(rows, f, needle, minScore, sqrt)
  {
    hide Cosine;
    var scoped := RowsInScope(rows, f, false, None);
    RowsInScopeCutsLast(rows, f, false, None);
    CoveredIsCovers(f, r);
    FilterMember(rows, Covered(f), r);
    var i :| 0 <= i < |scoped| && scoped[i] == r;
    var scored := Map(scoped, WithScore(needle, sqrt));
    assert scored[i] == (Cosine(needle, r.embedding, sqrt), r);
    FilterMember(scored, HighEnough(minScore), scored[i]);
  }

  /** A search's answer, row by row. */
  lemma SearchedRows(rows: seq<PgRow>, f: Scope, needle: Vector, query: Query, sqrt: real -> real)
    requires DistinctTicks(rows)
    ensures var found := SearchInPython(rows, f, needle, query, sqrt);
            && |found| <= query.limit && Distinct(found)
            && (forall s | s in found ::
                s.1 in rows && Covers(f, s.1.scope) && s.0 == Cosine(needle, s.1.embedding, sqrt)
                                         && (query.minScore.Some? ==> s.0 >= query.minScore.value))
            && (forall i, j | 0 <= i < j < |found| :: found[i].0 >= found[j].0)
  {
    hide Cosine, Covers, Eligible;
    var eligible := Eligible(rows, f, needle, query.minScore, sqrt);
    var sorted, found := Sort(eligible, BestFirst()), SearchInPython(rows, f, needle, query, sqrt);
    BestFirstIsOrder();
    SortSorts(eligible, BestFirst());
    SortPermutes(eligible, BestFirst());
    EligibleDistinct(rows, f, needle, query.minScore, sqrt);
    PermutedDistinct(eligible, sorted);
    forall s | s in found
      ensures s.1 in rows && Covers(f, s.1.scope) && s.0 == Cosine(needle, s.1.embedding, sqrt)
      ensures query.minScore.Some? ==> s.0 >= query.minScore.value
    {
      SortMember(eligible, BestFirst(), s);
      EligibleMember(rows, f, needle, query.minScore, sqrt, s);
      CoveredIsCovers(f, s.1);
    }
    forall i, j | 0 <= i < j < |found|
      ensures found[i].0 >= found[j].0
    {
      assert BestFirst()(sorted[i], sorted[j]);
    }
  }

  /** What the limit cut off. */
  lemma SearchOmits(rows: seq<PgRow>, f: Scope, needle: Vector, query: Query, sqrt: real -> real, s: Scored)
    requires s in Eligible(rows, f, needle, query.minScore, sqrt)
    requires s !in SearchInPython(rows, f, needle, query, sqrt)
    ensures var found := SearchInPython(rows, f, needle, query, sqrt);
            |found| == query.limit && forall i | 0 <= i < |found| :: found[i].0 >= s.0
  {
    hide Eligible;
    var eligible := Eligible(rows, f, needle, query.minScore, sqrt);
    var sorted, found := Sort(eligible, BestFirst()), SearchInPython(rows, f, needle, query, sqrt);
    SortMember(eligible, BestFirst(), s);
    assert s in multiset(eligible) && s !in multiset(found);
    assert |sorted| <= query.limit ==> found == sorted;
    forall i | 0 <= i < |found|
      ensures found[i].0 >= s.0
    {
      SearchOmitsNoBetter(rows, f, needle, query, sqrt, s, i);
    }
  }

  /** What a search is asked to rank by. */
  function RankingOf(cfg: Config, e: Event, name: string): Ranking
    requires e.verb.Search?
  {
    Ranking(name, e.verb.scope.Under(e.tenant), cfg.embed(e.verb.query.text), e.verb.query.minScore, cfg.embed,
            cfg.sqrt)
  }

  // -- the answer ----------------------------------------------------------------------------------------

  function KeyOfHit(name: string): Scored -> Key { (s: Scored) => KeyOfRow(name, s.1) }

  lemma {:induction false} LiveHits(g: State, tenant: string, name: string, found: seq<Scored>)
    requires forall s | s in found :: s.1.scope.tenant == Some(tenant) && LiveAt(g.index, KeyOfRow(name, s.1))
    ensures |RecordsAt(g.index, tenant, name, Map(found, Hit()))| == |found|
    ensures forall i :: 0 <= i < |found| ==> var k := KeyOfRow(name, found[i].1);
              k in g.index && RecordsAt(g.index, tenant, name, Map(found, Hit()))[i]
                  == RecordAt(g.index, k, ToMemory(found[i].1, Some(found[i].0)))
  {
    if found != [] {
      assert found[0] in found && forall s | s in found[1..] :: s in found;
      LiveHits(g, tenant, name, found[1..]);
      assert Map(found, Hit())[1..] == Map(found[1..], Hit());
    }
  }

  /** A stored row, the memory it holds, and the memory's score. */
  lemma RowStands(cfg: Config, g: State, next: nat, tenant: string, rank: Ranking, r: PgRow)
    requires Inv(cfg, g, next) && Exact(g) && Embedded(cfg, g) && rank.name in g.stores && r in g.stores[rank.name]
    requires rank.embed == cfg.embed
    ensures var k := KeyOfRow(rank.name, r);
            && k in Abs(g) && k in g.index && k.provider == rank.name && LiveAt(g.index, k)
               && Abs(g)[k] == MemoryOf(g.index[k].gatewayId, r)
            && rank.Score(Abs(g)[k]) == Cosine(rank.needle, r.embedding, rank.sqrt) && SameDims(k, g.index[k], r.scope)
            && k.native == Minted(r.tick)
  {
    hide Cosine;
    MemoryOfRow(cfg, g, next, rank.name, r);
    AbsAt(cfg, g, next, KeyOfRow(rank.name, r));
  }

  /** A search answers with the best covered memories, each scored by the content it has now, and refuses only as the
      checks before it demand. */
  lemma SearchAnswers(cfg: Config, g: State, next: nat, e: Event, name: string) returns (keys: seq<Key>)
    requires Inv(cfg, g, next) && Exact(g) && Embedded(cfg, g) && e.tenant != "" && e.verb.Search?
    requires Prepare(cfg, g.bindings, e.tenant, e.verb.scope, e.verb.asserted) == Ok(name)
    requires SearchRefusal(cfg.caps[name], e.verb.query).None?
    ensures Supplied(cfg, g, e) && StepSearch(cfg, g, e).0 == g
    ensures var rank := RankingOf(cfg, e, name);
            && IsBestPage(Abs(g), rank, Min(e.verb.query.limit, cfg.caps[name].maxLimit), keys)
            && (forall i | 0 <= i < |keys| :: keys[i] in Abs(g))
            && var answer := StepSearch(cfg, g, e).1;
               && answer.Found? && answer.provider == name && answer.requested == e.verb.query.mode
               && answer.decision == Decided(cfg.caps[name], e.verb.query) && |answer.records| == |keys|
               && forall i | 0 <= i < |keys| :: var m := Abs(g)[keys[i]];
                    answer.records[i] == SpecRecord(keys[i], m).(score := Some(rank.Score(m)))
  {
    hide Inv, Exact, Embedded, Abs, Prepare, SearchInPython, Cosine, StepSearch, SearchRefusal, RecordsAt, Supplied,
         KeyOfRow;
    ProviderHasStore(cfg, g, next, name);
    var rows, bound := g.stores[name], e.verb.scope.Under(e.tenant);
    var q := e.verb.query.(limit := Min(e.verb.query.limit, cfg.caps[name].maxLimit));
    var rank := Ranking(name, bound, cfg.embed(q.text), q.minScore, cfg.embed, cfg.sqrt);
    var found := SearchInPython(rows, bound, rank.needle, q, cfg.sqrt);
    keys := Map(found, KeyOfHit(name));
    SearchIs(cfg, g, next, e);
    FoundAreLive(cfg, g, next, e, rank, q);
    LiveHits(g, e.tenant, name, found);
    FoundIsBestPage(cfg, g, next, rank, q);
    forall i | 0 <= i < |keys|
      ensures keys[i] in Abs(g)
      ensures RecordAt(g.index, keys[i], ToMemory(found[i].1, Some(found[i].0)))
           == SpecRecord(keys[i], Abs(g)[keys[i]]).(score := Some(rank.Score(Abs(g)[keys[i]])))
    {
      assert found[i] in found;
      RowStands(cfg, g, next, e.tenant, rank, found[i].1);
    }
  }

  lemma FoundAreLive(cfg: Config, g: State, next: nat, e: Event, rank: Ranking, q: Query)
    requires Inv(cfg, g, next) && Exact(g) && Embedded(cfg, g) && e.tenant != "" && e.verb.Search?
    requires rank.name in g.stores && rank.bound == e.verb.scope.Under(e.tenant) && rank.embed == cfg.embed
             && rank.sqrt == cfg.sqrt && rank.minScore == q.minScore
    ensures forall s | s in SearchInPython(g.stores[rank.name], rank.bound, rank.needle, q, rank.sqrt) ::
              && s.1 in g.stores[rank.name] && s.0 == Cosine(rank.needle, s.1.embedding, rank.sqrt)
              && s.1.scope.tenant == Some(e.tenant) && LiveAt(g.index, KeyOfRow(rank.name, s.1))
  {
    hide Abs, SearchInPython, Cosine, Inv, Exact, Embedded;
    InvDistinctTicks(cfg, g, next, rank.name);
    SearchedRows(g.stores[rank.name], rank.bound, rank.needle, q, rank.sqrt);
    forall s | s in SearchInPython(g.stores[rank.name], rank.bound, rank.needle, q, rank.sqrt)
      ensures s.1.scope.tenant == Some(e.tenant) && LiveAt(g.index, KeyOfRow(rank.name, s.1))
    {
      CoveredIsCovers(rank.bound, s.1);
      CoveredTenant(e.verb.scope, e.tenant, s.1);
      RowStands(cfg, g, next, e.tenant, rank, s.1);
    }
  }

  lemma FoundIsBestPage(cfg: Config, g: State, next: nat, rank: Ranking, q: Query)
    requires Inv(cfg, g, next) && Exact(g) && Embedded(cfg, g)
    requires rank.name in g.stores && rank.embed == cfg.embed && rank.sqrt == cfg.sqrt && rank.minScore == q.minScore
    ensures IsBestPage(Abs(g), rank, q.limit,
                       Map(SearchInPython(g.stores[rank.name], rank.bound, rank.needle, q, rank.sqrt),
                           KeyOfHit(rank.name)))
  {
    hide Abs, SearchInPython, Cosine, Covers, Inv, Exact, Embedded, Map, KeyOfHit, IsBestPage;
    var found := SearchInPython(g.stores[rank.name], rank.bound, rank.needle, q, rank.sqrt);
    var keys := Map(found, KeyOfHit(rank.name));
    FoundSorted(cfg, g, next, rank, q);
    forall k | rank.Admits(Abs(g), k) && k !in keys
      ensures |keys| == q.limit && forall i | 0 <= i < |keys| :: rank.Score(Abs(g)[keys[i]]) >= rank.Score(Abs(g)[k])
    {
      OmittedHit(cfg, g, next, rank, q, k);
    }
    BestPageFromParts(Abs(g), rank, q.limit, keys);
  }

  lemma BestPageFromParts(mem: Memories, rank: Ranking, limit: nat, keys: seq<Key>)
    requires |keys| <= limit
    requires forall i | 0 <= i < |keys| :: keys[i] in mem && rank.Admits(mem, keys[i])
    requires forall i, j | 0 <= i < j < |keys| ::
             keys[i] != keys[j] && rank.Score(mem[keys[i]]) >= rank.Score(mem[keys[j]])
    requires forall k | k in mem && rank.Admits(mem, k) && k !in keys ::
               |keys| == limit && forall i | 0 <= i < |keys| :: rank.Score(mem[keys[i]]) >= rank.Score(mem[k])
    ensures IsBestPage(mem, rank, limit, keys)
  {
    hide Covers, Cosine;
  }

  lemma FoundSorted(cfg: Config, g: State, next: nat, rank: Ranking, q: Query)
    requires Inv(cfg, g, next) && Exact(g) && Embedded(cfg, g)
    requires rank.name in g.stores && rank.embed == cfg.embed && rank.sqrt == cfg.sqrt && rank.minScore == q.minScore
    ensures var found := SearchInPython(g.stores[rank.name], rank.bound, rank.needle, q, rank.sqrt);
            var keys := Map(found, KeyOfHit(rank.name));
            && |keys| == |found| <= q.limit
            && (forall i | 0 <= i < |keys| ::
                keys[i] in Abs(g) && rank.Admits(Abs(g), keys[i]) && rank.Score(Abs(g)[keys[i]]) == found[i].0)
            && (forall i, j | 0 <= i < j < |keys| ::
                keys[i] != keys[j] && rank.Score(Abs(g)[keys[i]]) >= rank.Score(Abs(g)[keys[j]]))
  {
    hide Abs, SearchInPython, Cosine, Covers, SameDims, Inv, Exact, Embedded;
    var rows := g.stores[rank.name];
    var found := SearchInPython(rows, rank.bound, rank.needle, q, rank.sqrt);
    var keys := Map(found, KeyOfHit(rank.name));
    InvDistinctTicks(cfg, g, next, rank.name);
    SearchedRows(rows, rank.bound, rank.needle, q, rank.sqrt);
    forall i | 0 <= i < |found|
      ensures found[i].1 in rows && keys[i] in Abs(g) && rank.Admits(Abs(g), keys[i])
      ensures rank.Score(Abs(g)[keys[i]]) == found[i].0 && keys[i].native == Minted(found[i].1.tick)
    {
      assert found[i] in found;
      RowStands(cfg, g, next, "", rank, found[i].1);
    }
    forall i, j | 0 <= i < j < |keys|
      ensures keys[i] != keys[j]
    {
      FindRowOf(rows, found[i].1);
      FindRowOf(rows, found[j].1);
    }
  }

  lemma InvDistinctTicks(cfg: Config, g: State, next: nat, name: string)
    requires Inv(cfg, g, next) && name in g.stores
    ensures DistinctTicks(g.stores[name])
  {}

  lemma OmittedHit(cfg: Config, g: State, next: nat, rank: Ranking, q: Query, k: Key)
    requires Inv(cfg, g, next) && Exact(g) && Embedded(cfg, g) && rank.Admits(Abs(g), k)
    requires rank.name in g.stores && rank.embed == cfg.embed && rank.sqrt == cfg.sqrt && rank.minScore == q.minScore
    requires k !in Map(SearchInPython(g.stores[rank.name], rank.bound, rank.needle, q, rank.sqrt), KeyOfHit(rank.name))
    ensures var found := SearchInPython(g.stores[rank.name], rank.bound, rank.needle, q, rank.sqrt);
            |found| == q.limit && forall i | 0 <= i < |found| :: found[i].0 >= rank.Score(Abs(g)[k])
  {
    hide Abs, SearchInPython, Cosine, Covers, KeyOfRow, SameDims, Inv, Exact, Embedded, Eligible;
    var rows := g.stores[rank.name];
    var found := SearchInPython(rows, rank.bound, rank.needle, q, rank.sqrt);
    StoredMemory(cfg, g, next, k);
    var r :| r in rows && r.scope == Abs(g)[k].scope && KeyOfRow(rank.name, r) == k;
    RowStands(cfg, g, next, "", rank, r);
    var s := (Cosine(rank.needle, r.embedding, rank.sqrt), r);
    EligibleHas(rows, rank.bound, rank.needle, q.minScore, rank.sqrt, r);
    forall i | 0 <= i < |found|
      ensures found[i] != s
    {
      assert Map(found, KeyOfHit(rank.name))[i] != k;
    }
    SearchOmits(rows, rank.bound, rank.needle, q, rank.sqrt, s);
  }

  // -- reads in any coupled state ---------------------------------------------------------------------------

  lemma {:induction false} RecordsAtMember(index: Index, tenant: string, provider: string,
                                           memories: seq<ProviderMemory>, rec: Record)
    requires rec in RecordsAt(index, tenant, provider, memories)
    ensures exists m :: m in memories && LiveAt(index, Key(tenant, provider, m.native))
                     && rec == RecordAt(index, Key(tenant, provider, m.native), m)
  {
    var k := Key(tenant, provider, memories[0].native);
    if !(LiveAt(index, k) && rec == RecordAt(index, k, memories[0])) {
      RecordsAtMember(index, tenant, provider, memories[1..], rec);
    }
  }

  /** The record tells the truth about a memory of the caller's own that the scope covers, and its id can be used. */
  ghost predicate Truthful(g: State, e: Event, name: string, rec: Record)
    requires e.verb.Search? || e.verb.ListScope?
  {
    exists k :: k in Abs(g) && k.tenant == e.tenant && k.provider == name
           && Covers(e.verb.scope.Under(e.tenant), Abs(g)[k].scope)
             && rec == SpecRecord(k, Abs(g)[k]).(score := rec.score) && Resolve(g.index, e.tenant, rec.id) == Some(k)
  }

  lemma HitRecordIsTruthful(cfg: Config, g: State, next: nat, e: Event, name: string, rec: Record)
    requires Inv(cfg, g, next) && e.tenant != "" && (e.verb.Search? || e.verb.ListScope?) && name in cfg.caps
    requires rec in RecordsAt(g.index, e.tenant, name, Hits(cfg, g, e.tenant, name, e.verb))
    ensures Truthful(g, e, name, rec)
  {
    hide Inv, Hits, Abs, FindRow, Covers, Covered, Resolve;
    RecordsAtMember(g.index, e.tenant, name, Hits(cfg, g, e.tenant, name, e.verb), rec);
    var m :| m in Hits(cfg, g, e.tenant, name, e.verb) && LiveAt(g.index, Key(e.tenant, name, m.native))
          && rec == RecordAt(g.index, Key(e.tenant, name, m.native), m);
    var r := HitIsCovered(cfg, g, e.tenant, name, e.verb, m);
    var k := Key(e.tenant, name, m.native);
    CoveredIsCovers(e.verb.scope.Under(e.tenant), r);
    BackedRow(cfg, g, next, k, r);
    ResolveUnder(cfg, g, next, e.tenant, rec.id, k);
  }

  lemma BackedRow(cfg: Config, g: State, next: nat, k: Key, r: PgRow)
    requires Inv(cfg, g, next) && LiveAt(g.index, k) && r in StoreOf(g, k.provider) && k.native == Minted(r.tick)
    ensures k in Abs(g) && Abs(g)[k] == MemoryOf(g.index[k].gatewayId, r) && SameDims(k, g.index[k], r.scope)
  {
    AbsAt(cfg, g, next, k);
    FindRowOf(g.stores[k.provider], r);
  }

  /** Even after labelled erasures, whatever a read returns is true and usable: it names a live memory of the caller's
      own tenant at the resolved provider, covered by the scope, with its stored dimensions and current content. */
  lemma ReadsAreTruthful(cfg: Config, g: State, next: nat, e: Event, rec: Record)
    requires Inv(cfg, g, next) && e.tenant != "" && (e.verb.Search? || e.verb.ListScope?)
    ensures Supplied(cfg, g, e)
    ensures var name := Prepare(cfg, g.bindings, e.tenant, e.verb.scope, e.verb.asserted);
            && (e.verb.Search? ==> var answer := StepSearch(cfg, g, e).1;
                  answer.Found? && rec in answer.records ==>
                      name.Ok? && answer.provider == name.value && Truthful(g, e, name.value, rec))
            && (e.verb.ListScope? ==> var answer := StepList(cfg, g, e).1;
                  answer.Listing? && rec in answer.records ==> name.Ok? && Truthful(g, e, name.value, rec))
  {
    hide Inv, Hits, RecordsAt, Prepare, Supplied, StepSearch, StepList, Truthful, SearchRefusal;
    var name := Prepare(cfg, g.bindings, e.tenant, e.verb.scope, e.verb.asserted);
    if e.verb.Search? { SearchIs(cfg, g, next, e); } else { ListIs(cfg, g, next, e); }
    if name.Ok? && rec in RecordsAt(g.index, e.tenant, name.value, Hits(cfg, g, e.tenant, name.value, e.verb)) {
      HitRecordIsTruthful(cfg, g, next, e, name.value, rec);
    }
  }
}
