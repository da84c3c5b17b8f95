/** Everything callers see, over whole runs, explained by the plain map of memories alone. */
module Observed {
  import opened Prelude
  import opened Scopes
  import opened MemoryIndex
  import opened Vectors
  import opened Pgvector
  import opened Gateway
  import opened GatewayInvariant
  import opened Runs
  import opened Refinement
  import opened Listing
  import opened Searching
  import opened Crowding

  // -- what each verb may answer -----------------------------------------------------------
  //
  // With index and stores in exact step a read answers with a whole page and an erasure with an exact count. In general
  // a read answers with the head of such a page, and an erasure counts at least the memories it covers.

  function WrittenRecords(e: Event, name: string): (records: seq<Record>)
    requires (e.verb.Upsert? || e.verb.Ingest?) && 2 * |e.verb.facts| <= |e.ids|
    ensures |records| == |e.verb.facts|
  {
    var n := |e.verb.facts|;
    seq(n, i requires 0 <= i < n =>
      Record(e.ids[n + i], name, Minted(e.ids[i]), e.verb.facts[i], e.verb.scope.WithoutTenant(), None, e.now, e.now))
  }

  /** One record per fact, or the first refusal. */
  function WriteTold(cfg: Config, bindings: Bindings, e: Event): Answer
    requires (e.verb.Upsert? || e.verb.Ingest?) && Needs(cfg, bindings, e) <= |e.ids|
  {
    var name := Prepare(cfg, bindings, e.tenant, e.verb.scope, e.verb.asserted);
    if e.verb.Upsert? && e.verb.facts == [] then Failed(EmptyUpsert)
    else if name.Err? then Failed(name.error)
    else if !Accepted(cfg, bindings, e) then Failed(UnsupportedCapability)
    else Written(WrittenRecords(e, name.value), name.value)
  }

  ghost predicate SearchTold(cfg: Config, mem: Memories, bindings: Bindings, e: Event, answer: Answer, exact: bool)
    requires e.verb.Search?
  {
    var name := Prepare(cfg, bindings, e.tenant, e.verb.scope, e.verb.asserted);
    if name.Err? then answer == Failed(name.error)
    else
      var caps := cfg.caps[name.value];
      if SearchRefusal(caps, e.verb.query).Some? then answer == Failed(SearchRefusal(caps, e.verb.query).value)
      else
        && answer.Found? && answer.provider == name.value && answer.requested == e.verb.query.mode
        && answer.decision == Decided(caps, e.verb.query)
        && exists keys, page ::
             && HeadOf(keys, page, exact)
             && IsBestPage(mem, RankingOf(cfg, e, name.value), Min(e.verb.query.limit, caps.maxLimit), page)
             && TellsScored(mem, RankingOf(cfg, e, name.value), keys, answer.records)
  }

  predicate HeadOf(keys: seq<Key>, page: seq<Key>, exact: bool) { keys <= page && (exact ==> keys == page) }

  ghost predicate TellsScored(mem: Memories, rank: Ranking, keys: seq<Key>, records: seq<Record>) {
    && |records| == |keys|
    && forall i | 0 <= i < |keys| ::
         keys[i] in mem && records[i] == SpecRecord(keys[i], mem[keys[i]]).(score := Some(rank.Score(mem[keys[i]])))
  }

  ghost predicate ListTold(cfg: Config, mem: Memories, bindings: Bindings, e: Event, answer: Answer, exact: bool)
    requires e.verb.ListScope?
  {
    var name := Prepare(cfg, bindings, e.tenant, e.verb.scope, e.verb.asserted);
    if name.Err? then answer == Failed(name.error)
    else if !cfg.caps[name.value].supportsList then answer == Failed(UnsupportedCapability)
    else
      var bound, limit := e.verb.scope.Under(e.tenant), Min(e.verb.limit, cfg.caps[name.value].maxLimit);
      && answer.Listing?
      && exists keys, page ::
           && HeadOf(keys, page, exact)
           && IsNewestPage(mem, name.value, bound, limit, page)
           && TellsMemories(mem, keys, answer.records)
  }

  ghost predicate TellsMemories(mem: Memories, keys: seq<Key>, records: seq<Record>) {
    && |records| == |keys|
    && forall i | 0 <= i < |keys| :: keys[i] in mem && records[i] == SpecRecord(keys[i], mem[keys[i]])
  }

  ghost function UpdateTold(cfg: Config, mem: Memories, e: Event): Answer
    requires e.verb.Update?
  {
    var k := SpecFind(mem, e.tenant, e.verb.id);
    if k.None? || k.value !in mem then Failed(MemoryNotFound)
    else if k.value.provider !in cfg.caps || !cfg.caps[k.value.provider].supportsUpdate
        then Failed(UnsupportedCapability)
    else One(SpecRecord(k.value, mem[k.value].(content := e.verb.content, updatedAt := e.now)))
  }

  ghost function GetTold(mem: Memories, e: Event): Answer
    requires e.verb.Get?
  {
    var k := SpecFind(mem, e.tenant, e.verb.id);
    if k.None? || k.value !in mem then Failed(MemoryNotFound) else One(SpecRecord(k.value, mem[k.value]))
  }

  ghost function DeleteTold(cfg: Config, mem: Memories, e: Event): Answer
    requires e.verb.Delete?
  {
    var k := SpecFind(mem, e.tenant, e.verb.id);
    if k.None? then Failed(MemoryNotFound)
    else if k.value.provider !in cfg.caps || !cfg.caps[k.value.provider].supportsDelete
        then Failed(UnsupportedCapability)
    else Done
  }

  ghost predicate EraseTold(cfg: Config, mem: Memories, bindings: Bindings, e: Event, answer: Answer, exact: bool)
    requires e.verb.DeleteScope?
  {
    var name := Prepare(cfg, bindings, e.tenant, e.verb.scope, e.verb.asserted);
    if name.Err? then answer == Failed(name.error)
    else if !cfg.caps[name.value].supportsDeleteByScope then answer == Failed(UnsupportedCapability)
    else
      var left := |SpecErase(mem, name.value, e.verb.scope.Under(e.tenant))|;
      answer.Removed? && answer.count + left >= |mem| && (exact ==> answer.count + left == |mem|)
  }

  function MemoriesOf(mem: Memories, tenant: string, subject: string, provider: string): set<Key> {
    set k | k in mem && k.tenant == tenant && mem[k].scope.subject == subject && k.provider == provider
  }

  /** The count is the number of memories stranded. */
  function RebindTold(cfg: Config, mem: Memories, bindings: Bindings, e: Event): Answer
    requires e.verb.RebindSubject?
  {
    var v, previous := e.verb, GetBinding(bindings, e.tenant, e.verb.subject);
    if v.migrate then Failed(NotImplementedYet)
    else if v.provider !in cfg.caps then Failed(UnknownProvider(v.provider))
    else if previous.None? || previous.value == v.provider then Rebound(RebindResult(v.provider, None, 0))
    else Rebound(RebindResult(v.provider, previous, |MemoriesOf(mem, e.tenant, v.subject, previous.value)|))
  }

  /** What the caller of an event may be told, given only the memories and the bindings. */
  ghost predicate Tells(cfg: Config, mem: Memories, bindings: Bindings, e: Event, answer: Answer, exact: bool)
    requires Needs(cfg, bindings, e) <= |e.ids|
  {
    match e.verb
    case Ingest(_, _, _, _) => answer == WriteTold(cfg, bindings, e)
    case Upsert(_, _, _) => answer == WriteTold(cfg, bindings, e)
    case Update(_, _) => answer == UpdateTold(cfg, mem, e)
    case Search(_, _, _) => SearchTold(cfg, mem, bindings, e, answer, exact)
    case ListScope(_, _, _) => ListTold(cfg, mem, bindings, e, answer, exact)
    case Get(_) => answer == GetTold(mem, e)
    case Delete(_) => answer == DeleteTold(cfg, mem, e)
    case DeleteScope(_, _) => EraseTold(cfg, mem, bindings, e, answer, exact)
    case RebindSubject(_, _, _) => answer == RebindTold(cfg, mem, bindings, e)
  }

  // -- each verb answers so -------------------------------------------------------------------

  lemma WriteTells(cfg: Config, g: State, next: nat, e: Event, upto: nat)
    requires Inv(cfg, g, next) && Proper(cfg, g.bindings, e, next, upto)
    ensures Supplied(cfg, g, e)
    ensures e.verb.Upsert? ==> StepUpsert(cfg, g, e).1 == WriteTold(cfg, g.bindings, e)
    ensures e.verb.Ingest? ==> StepIngest(cfg, g, e).1 == WriteTold(cfg, g.bindings, e)
  {
    hide WriteFacts, Inv, Prepare, FreshIds, StepIngest;
    Supply(cfg, g, next, e);
    if e.verb.Upsert? || e.verb.Ingest? {
      var v := e.verb;
      if e.verb.Ingest? { IngestIs(cfg, g, next, e, upto); }
      if Accepted(cfg, g.bindings, e) {
        var name := Prepare(cfg, g.bindings, e.tenant, v.scope, v.asserted).value;
        WriteAnswer(cfg, g, e.tenant, name, v.facts, v.scope, e.ids, e.now, next, upto);
      }
    }
  }

  lemma UpdateTells(cfg: Config, g: State, next: nat, e: Event)
    requires Inv(cfg, g, next) && e.verb.Update?
    ensures Supplied(cfg, g, e) && StepUpdate(cfg, g, e).1 == UpdateTold(cfg, Abs(g), e)
  {
    hide Inv, StepUpdate, Supplied, Abs, FindRow, Edited, SpecFind;
    UpdateKeepsInv(cfg, g, next, e);
    SpecFindIs(cfg, g, next, e.tenant, e.verb.id);
    if k :| Owns(g.index, k, e.tenant, e.verb.id) {
      ResolveUnder(cfg, g, next, e.tenant, e.verb.id, k);
      UpdateIs(cfg, g, next, e, k);
      OwnedMemory(cfg, g, next, k);
    } else {
      UnresolvedUnder(cfg, g, next, e.tenant, e.verb.id);
      UnresolvedFails(cfg, g, e);
      assert Step(cfg, g, e) == StepUpdate(cfg, g, e);
    }
  }

  /** The memory of a live key, its row, and their shared dimensions. */
  lemma OwnedMemory(cfg: Config, g: State, next: nat, k: Key)
    requires Inv(cfg, g, next) && LiveAt(g.index, k)
    ensures RowAt(g, k).Some? && k in Abs(g) && Abs(g)[k] == MemoryOf(g.index[k].gatewayId, RowAt(g, k).value)
    ensures SameDims(k, g.index[k], RowAt(g, k).value.scope) && k.native == Minted(RowAt(g, k).value.tick)
  {
    AbsAt(cfg, g, next, k);
    FindRowIn(g.stores[k.provider], k.native.tick);
  }

  lemma DeleteTells(cfg: Config, g: State, next: nat, e: Event)
    requires Inv(cfg, g, next) && e.verb.Delete?
    ensures StepDelete(cfg, g, e).1 == DeleteTold(cfg, Abs(g), e)
  {
    hide Inv, StepDelete, Abs, SpecFind, Filter;
    SpecFindIs(cfg, g, next, e.tenant, e.verb.id);
    if k :| Owns(g.index, k, e.tenant, e.verb.id) {
      ResolveUnder(cfg, g, next, e.tenant, e.verb.id, k);
      DeleteIs(cfg, g, next, e, k);
    } else {
      UnresolvedUnder(cfg, g, next, e.tenant, e.verb.id);
      UnresolvedFails(cfg, g, e);
      assert Step(cfg, g, e) == StepDelete(cfg, g, e);
    }
  }

  lemma SearchTells(cfg: Config, g: State, next: nat, e: Event, exact: bool)
    requires Inv(cfg, g, next) && (exact ==> Exact(g)) && Embedded(cfg, g) && e.tenant != "" && e.verb.Search?
    ensures Supplied(cfg, g, e) && SearchTold(cfg, Abs(g), g.bindings, e, StepSearch(cfg, g, e).1, exact)
  {
    hide Inv, Exact, Embedded, Abs, Prepare, StepSearch, Supplied, SearchRefusal, Decided, IsBestPage, RecordsAt,
         NothingCrowdedOut, IsLiveHit, Ranked;
    SearchIs(cfg, g, next, e);
    var name := Prepare(cfg, g.bindings, e.tenant, e.verb.scope, e.verb.asserted);
    if name.Ok? && SearchRefusal(cfg.caps[name.value], e.verb.query).None? {
      var keys: seq<Key>, page: seq<Key>;
      if exact {
        keys := SearchAnswers(cfg, g, next, e, name.value);
        page := keys;
      } else {
        keys, page := SearchIsBestIff(cfg, g, next, e, name.value);
      }
      assert HeadOf(keys, page, exact);
      assert TellsScored(Abs(g), RankingOf(cfg, e, name.value), keys, StepSearch(cfg, g, e).1.records);
    }
  }

  lemma ListTells(cfg: Config, g: State, next: nat, e: Event, exact: bool)
    requires Inv(cfg, g, next) && (exact ==> Exact(g)) && e.tenant != "" && e.verb.ListScope?
    ensures Supplied(cfg, g, e) && ListTold(cfg, Abs(g), g.bindings, e, StepList(cfg, g, e).1, exact)
  {
    hide Inv, Exact, Abs, Prepare, StepList, Supplied, IsNewestPage, RecordsAt, NothingCrowdedOut, IsLive,
         CoveredNewest;
    ListIs(cfg, g, next, e);
    var name := Prepare(cfg, g.bindings, e.tenant, e.verb.scope, e.verb.asserted);
    if name.Ok? && cfg.caps[name.value].supportsList {
      var keys: seq<Key>, page: seq<Key>;
      if exact {
        keys := ListAnswers(cfg, g, next, e, name.value);
        page := keys;
      } else {
        keys, page := ListingIsNewestIff(cfg, g, next, e, name.value);
      }
      assert HeadOf(keys, page, exact);
      assert TellsMemories(Abs(g), keys, StepList(cfg, g, e).1.records);
    }
  }

  lemma GetTells(cfg: Config, g: State, next: nat, e: Event)
    requires Inv(cfg, g, next) && e.verb.Get?
    ensures StepGet(cfg, g, e).1 == GetTold(Abs(g), e)
  {
    hide Inv, StepGet, Abs, SpecFind;
    GetAnswers(cfg, g, next, e);
    SpecFound(Abs(g), e.tenant, e.verb.id);
  }

  lemma SpecFound(mem: Memories, tenant: string, id: nat)
    ensures SpecFind(mem, tenant, id).Some? ==> SpecFind(mem, tenant, id).value in mem
  {}

  lemma EraseTells(cfg: Config, g: State, next: nat, e: Event, exact: bool)
    requires Inv(cfg, g, next) && e.tenant != "" && e.verb.DeleteScope?
    requires exact ==> Exact(g) && Spared(cfg, Abs(g), g.bindings, e)
    ensures EraseTold(cfg, Abs(g), g.bindings, e, StepDeleteScope(cfg, g, e).1, exact)
  {
    hide Inv, Exact, Abs, Prepare, LabelsUniform, LabelsHeld, SpecErase, ForgetDims, Filter;
    var name := Prepare(cfg, g.bindings, e.tenant, e.verb.scope, e.verb.asserted);
    if name.Ok? && cfg.caps[name.value].supportsDeleteByScope {
      var bound := e.verb.scope.Under(e.tenant);
      ProviderHasStore(cfg, g, next, name.value);
      CountsCovered(cfg, g, next, name.value, bound);
      if exact {
        LabelsUniformIff(cfg, g, next, name.value, bound);
        ErasureCounts(cfg, g, next, e, name.value);
        ErasureAbsIs(cfg, g, next, e, name.value);
        ForgetIsEraseIff(Abs(g), name.value, bound);
      }
    }
  }

  /** Every covered memory has a covered row. */
  lemma CountsCovered(cfg: Config, g: State, next: nat, name: string, bound: Scope)
    requires Inv(cfg, g, next) && name in g.stores
    ensures |Filter(g.stores[name], Covered(bound))| + |SpecErase(Abs(g), name, bound)| >= |Abs(g)|
  {
    hide Inv, Abs, Filter, LiveAt, KeysOf, Covers, CoversLabels;
    var rows, covered := g.stores[name], LiveCovered(g.index, name, bound);
    FilterParts(rows, Covered(bound), covered, DeadCovered(g.index, name, bound));
    StoreIsDistinct(cfg, g, next, name);
    FilterDistinct(rows, covered);
    RowKeysCount(name, Filter(rows, covered));
    forall k
      ensures k in KeysOf(name, Filter(rows, covered)) <==> k in Abs(g) && k !in SpecErase(Abs(g), name, bound)
    {
      CoveredKey(cfg, g, next, name, bound, k);
    }
    ForgottenCount(Abs(g), SpecErase(Abs(g), name, bound), KeysOf(name, Filter(rows, covered)));
  }

  lemma CoveredKey(cfg: Config, g: State, next: nat, name: string, bound: Scope, k: Key)
    requires Inv(cfg, g, next) && name in g.stores
    ensures k in KeysOf(name, Filter(g.stores[name], LiveCovered(g.index, name, bound))) <==>
              k in Abs(g) && k !in SpecErase(Abs(g), name, bound)
  {
    hide Inv, Abs, FindRow;
    var rows, p := g.stores[name], LiveCovered(g.index, name, bound);
    if r :| r in Filter(rows, p) && KeyOfRow(name, r) == k {
      FilterMember(rows, p, r);
      BackedRow(cfg, g, next, k, r);
      CoveredIsCovers(bound, r);
    }
    if k in Abs(g) && k !in SpecErase(Abs(g), name, bound) {
      StoredMemory(cfg, g, next, k);
      var r :| r in rows && r.scope == Abs(g)[k].scope && KeyOfRow(name, r) == k;
      AbsAt(cfg, g, next, k);
      CoveredIsCovers(bound, r);
      FilterMember(rows, p, r);
    }
  }

  lemma RebindTells(cfg: Config, g: State, next: nat, e: Event)
    requires Inv(cfg, g, next) && e.verb.RebindSubject?
    ensures StepRebind(cfg, g, e).1 == RebindTold(cfg, Abs(g), g.bindings, e)
  {
    hide Inv, Abs, MemoriesOf, LiveKeys;
    var previous := GetBinding(g.bindings, e.tenant, e.verb.subject);
    if previous.Some? { LiveKeysAre(cfg, g, next, e.tenant, e.verb.subject, previous.value); }
  }

  lemma LiveKeysAre(cfg: Config, g: State, next: nat, tenant: string, subject: string, provider: string)
    requires Inv(cfg, g, next)
    ensures LiveKeys(g.index, tenant, subject, provider) == MemoriesOf(Abs(g), tenant, subject, provider)
  {
    hide Inv, Abs;
    forall k
      ensures k in LiveKeys(g.index, tenant, subject, provider) <==> k in MemoriesOf(Abs(g), tenant, subject, provider)
    {
      AbsAt(cfg, g, next, k);
      if LiveAt(g.index, k) { OwnedMemory(cfg, g, next, k); }
    }
  }

  /** Whatever a verb answers is what the memories and bindings alone say it should: exactly in a state of exact step,
      and up to the head of a page and a lower bound on a count in any coupled state. */
  lemma StepTells(cfg: Config, g: State, next: nat, e: Event, upto: nat, exact: bool)
    requires Inv(cfg, g, next) && Embedded(cfg, g) && Proper(cfg, g.bindings, e, next, upto)
    requires exact ==> Exact(g) && Spared(cfg, Abs(g), g.bindings, e)
    ensures Supplied(cfg, g, e) && Tells(cfg, Abs(g), g.bindings, e, Step(cfg, g, e).1, exact)
  {
    hide Inv, Exact, Embedded, Abs, Spared, Prepare, Supplied, Needs, WriteTold, UpdateTold, SearchTold, ListTold,
         GetTold, DeleteTold, EraseTold, RebindTold, StepIngest, StepUpsert, StepUpdate, StepSearch, StepList, StepGet,
         StepDelete, StepDeleteScope, StepRebind;
    Supply(cfg, g, next, e);
    match e.verb
    case Ingest(_, _, _, _) => WriteTells(cfg, g, next, e, upto);
    case Upsert(_, _, _) => WriteTells(cfg, g, next, e, upto);
    case Update(_, _) => UpdateTells(cfg, g, next, e);
    case Search(_, _, _) => SearchTells(cfg, g, next, e, exact);
    case ListScope(_, _, _) => ListTells(cfg, g, next, e, exact);
    case Get(_) => GetTells(cfg, g, next, e);
    case Delete(_) => DeleteTells(cfg, g, next, e);
    case DeleteScope(_, _) => EraseTells(cfg, g, next, e, exact);
    case RebindSubject(_, _, _) => RebindTells(cfg, g, next, e);
  }

  // -- and no other answer will do ------------------------------------------------------------------

  /** The same answer; two searches may differ in which of several equally good memories they name. */
  ghost predicate SameAnswer(a: Answer, b: Answer) {
    if !a.Found? then a == b
    else
      && b.Found? && a.provider == b.provider && a.requested == b.requested && a.decision == b.decision
      && |a.records| == |b.records|
      && forall i | 0 <= i < |a.records| :: a.records[i].score == b.records[i].score
  }

  lemma LiveKeysDiffer(cfg: Config, g: State, next: nat, k: Key, l: Key)
    requires Inv(cfg, g, next) && k in Abs(g) && l in Abs(g) && k.provider == l.provider && k.native == l.native
    ensures k == l
  {}

  lemma SameMemories(mem: Memories, keys: seq<Key>, a: seq<Record>, b: seq<Record>)
    requires TellsMemories(mem, keys, a) && TellsMemories(mem, keys, b)
    ensures a == b
  {}

  lemma ListToldOnce(cfg: Config, g: State, next: nat, e: Event, a: Answer, b: Answer)
    requires Inv(cfg, g, next) && e.verb.ListScope?
    requires ListTold(cfg, Abs(g), g.bindings, e, a, true) && ListTold(cfg, Abs(g), g.bindings, e, b, true)
    ensures a == b
  {
    hide Inv, Abs, Prepare, IsNewestPage, TellsMemories;
    var name := Prepare(cfg, g.bindings, e.tenant, e.verb.scope, e.verb.asserted);
    if name.Ok? && cfg.caps[name.value].supportsList {
      var mem, bound, limit := Abs(g), e.verb.scope.Under(e.tenant), Min(e.verb.limit, cfg.caps[name.value].maxLimit);
      var x, p :| HeadOf(x, p, true) && IsNewestPage(mem, name.value, bound, limit, p)
                  && TellsMemories(mem, x, a.records);
      var y, q :| HeadOf(y, q, true) && IsNewestPage(mem, name.value, bound, limit, q)
                  && TellsMemories(mem, y, b.records);
      forall k, l | k in mem && l in mem && k.provider == l.provider && k.native == l.native
        ensures k == l
      {
        LiveKeysDiffer(cfg, g, next, k, l);
      }
      NewestPageUnique(mem, name.value, bound, limit, p, q);
      SameMemories(mem, x, a.records, b.records);
    }
  }

  lemma SearchToldOnce(cfg: Config, mem: Memories, bindings: Bindings, e: Event, a: Answer, b: Answer)
    requires e.verb.Search? && SearchTold(cfg, mem, bindings, e, a, true) && SearchTold(cfg, mem, bindings, e, b, true)
    ensures SameAnswer(a, b)
  {
    hide Prepare, IsBestPage, SearchRefusal, Decided;
    var name := Prepare(cfg, bindings, e.tenant, e.verb.scope, e.verb.asserted);
    if name.Ok? && SearchRefusal(cfg.caps[name.value], e.verb.query).None? {
      var rank, limit := RankingOf(cfg, e, name.value), Min(e.verb.query.limit, cfg.caps[name.value].maxLimit);
      var x, p :| HeadOf(x, p, true) && IsBestPage(mem, rank, limit, p) && TellsScored(mem, rank, x, a.records);
      var y, q :| HeadOf(y, q, true) && IsBestPage(mem, rank, limit, q) && TellsScored(mem, rank, y, b.records);
      BestPagesScoreAlike(mem, rank, limit, p, q);
      hide Ranking.Score;
    }
  }

  /** In exact step memories and bindings leave a verb one answer, but for the choice among equally good search hits. */
  lemma ToldOnce(cfg: Config, g: State, next: nat, e: Event, a: Answer, b: Answer)
    requires Inv(cfg, g, next) && Needs(cfg, g.bindings, e) <= |e.ids|
    requires Tells(cfg, Abs(g), g.bindings, e, a, true) && Tells(cfg, Abs(g), g.bindings, e, b, true)
    ensures SameAnswer(a, b)
  {
    hide Inv, Abs, Needs, Prepare, ListTold, SearchTold, WriteTold, UpdateTold, GetTold, DeleteTold, RebindTold,
         SpecErase;
    match e.verb
    case ListScope(_, _, _) => ListToldOnce(cfg, g, next, e, a, b);
    case Search(_, _, _) => SearchToldOnce(cfg, Abs(g), g.bindings, e, a, b);
    case _ =>
  }

  // -- whole runs -----------------------------------------------------------------------------------

  /** The answers of a run of the specified memory, when exact; otherwise of the memory whose erasures ignore labels. */
  ghost predicate Behaves(cfg: Config, mem: Memories, bindings: Bindings, next: nat, events: seq<Event>,
                          answers: seq<Answer>, exact: bool)
    requires ProperRun(cfg, bindings, events, next)
    decreases |events|
  {
    && |answers| == |events|
    && (events == [] ||
        (var after := if exact then SpecStep(cfg, mem, bindings, events[0])
         else ActualStep(cfg, mem, bindings, events[0]);
         && Tells(cfg, mem, bindings, events[0], answers[0], exact)
         && Behaves(cfg, after, NextBindings(cfg, bindings, events[0]), After(events[0], next), events[1..],
                    answers[1..], exact)))
  }

  /** Observational refinement: every answer of every spared run, by any tenants, is an answer of the specified
      memory. */
  lemma {:induction false} RunIsObserved(cfg: Config, g: State, next: nat, events: seq<Event>)
    requires Inv(cfg, g, next) && Exact(g) && Embedded(cfg, g) && ProperRun(cfg, g.bindings, events, next)
    requires SparedRun(cfg, Abs(g), g.bindings, next, events)
    ensures Behaves(cfg, Abs(g), g.bindings, next, events, Run(cfg, g, next, events).1, true)
    decreases |events|
  {
    hide Inv, Exact, Embedded, Step, Supplied, SpecStep, NextBindings, Abs, Proper, Spared, Tells;
    if events != [] {
      var e, upto := events[0], After(events[0], next);
      StepKeepsInv(cfg, g, next, e, upto);
      StepRefines(cfg, g, next, e, upto);
      StepMeetsSpecIff(cfg, g, next, e, upto);
      SparedKeepsExact(cfg, g, next, e, upto);
      StepKeepsEmbedded(cfg, g, next, e, upto);
      StepTells(cfg, g, next, e, upto, true);
      var h := Step(cfg, g, e).0;
      RunIsObserved(cfg, h, upto, events[1..]);
      var answers := Run(cfg, g, next, events).1;
      assert answers[1..] == Run(cfg, h, upto, events[1..]).1;
    }
  }

  /** And every run whatever, labelled erasures and all, answers as the memory whose erasures ignore labels. */
  lemma {:induction false} EveryRunIsObserved(cfg: Config, g: State, next: nat, events: seq<Event>)
    requires Inv(cfg, g, next) && Embedded(cfg, g) && ProperRun(cfg, g.bindings, events, next)
    ensures Behaves(cfg, Abs(g), g.bindings, next, events, Run(cfg, g, next, events).1, false)
    decreases |events|
  {
    hide Inv, Exact, Embedded, Step, Supplied, ActualStep, NextBindings, Abs, Proper, Spared, Tells;
    if events != [] {
      var e, upto := events[0], After(events[0], next);
      StepKeepsInv(cfg, g, next, e, upto);
      StepRefines(cfg, g, next, e, upto);
      StepKeepsEmbedded(cfg, g, next, e, upto);
      StepTells(cfg, g, next, e, upto, false);
      var h := Step(cfg, g, e).0;
      EveryRunIsObserved(cfg, h, upto, events[1..]);
      var answers := Run(cfg, g, next, events).1;
      assert answers[1..] == Run(cfg, h, upto, events[1..]).1;
    }
  }
}
