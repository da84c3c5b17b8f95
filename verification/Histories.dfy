/** Bindings, episodes and single memories followed across calls and across whole runs. */
module Histories {
  import opened Prelude
  import opened Scopes
  import opened MemoryIndex
  import opened Vectors
  import opened Pgvector
  import opened Gateway
  import opened GatewayInvariant
  import opened Runs
  import opened Refinement
  import opened Listing

  // -- bindings ------------------------------------------------------------------

  predicate Moves(e: Event, tenant: string, subject: string) {
    e.verb.RebindSubject? && e.tenant == tenant && e.verb.subject == subject
  }

  predicate Writes(e: Event, tenant: string, subject: string) {
    (e.verb.Upsert? || e.verb.Ingest?) && e.tenant == tenant && e.verb.scope.subject == subject
  }

  /** A subject with a binding. */
  predicate Bound(g: State, tenant: string, subject: string) { (tenant, subject) in g.bindings }

  lemma StepBindings(cfg: Config, g: State, next: nat, e: Event, upto: nat, tenant: string, subject: string)
    requires Inv(cfg, g, next) && Proper(cfg, g.bindings, e, next, upto)
    ensures Supplied(cfg, g, e)
    ensures var after := Step(cfg, g, e).0;
            && (Bound(g, tenant, subject) ==> Bound(after, tenant, subject))
            && (Bound(g, tenant, subject) && !Moves(e, tenant, subject) ==>
                  after.bindings[(tenant, subject)] == g.bindings[(tenant, subject)])
            && (!Bound(g, tenant, subject) && Bound(after, tenant, subject) ==>
                  Writes(e, tenant, subject) || Moves(e, tenant, subject))
  {
    hide Inv, Step, Supplied, Prepare;
    StepBindingsAre(cfg, g, next, e, upto);
  }

  /** Over a run with no rebind of a subject, its binding never moves; and if it had none, only a write of its own made
      one. */
  lemma {:induction false} OnlyRebindMovesBinding(cfg: Config, g: State, next: nat, events: seq<Event>, tenant: string,
                                                  subject: string)
    requires Inv(cfg, g, next) && ProperRun(cfg, g.bindings, events, next) && forall e | e in events ::
             !Moves(e, tenant, subject)
    ensures var after := Run(cfg, g, next, events).0;
            && (Bound(g, tenant, subject) ==>
                  Bound(after, tenant, subject) && after.bindings[(tenant, subject)] == g.bindings[(tenant, subject)])
            && (!Bound(g, tenant, subject) && Bound(after, tenant, subject) ==> exists e ::
                e in events && Writes(e, tenant, subject))
    decreases |events|
  {
    hide Inv, Step, Supplied, Proper, Moves, Writes;
    if events != [] {
      var e, upto := events[0], Runs.After(events[0], next);
      assert e in events && forall x | x in events[1..] :: x in events;
      StepKeepsInv(cfg, g, next, e, upto);
      StepBindingsAre(cfg, g, next, e, upto);
      StepBindings(cfg, g, next, e, upto, tenant, subject);
      OnlyRebindMovesBinding(cfg, Step(cfg, g, e).0, upto, events[1..], tenant, subject);
    }
  }

  /** A rebind strands memories without touching them: the index is unchanged, the report counts exactly the live rows
      at the old provider, and every id among them still resolves. */
  lemma RebindStrands(cfg: Config, g: State, next: nat, e: Event)
    requires Inv(cfg, g, next) && e.verb.RebindSubject? && !e.verb.migrate && e.verb.provider in cfg.caps
    ensures var (after, answer) := StepRebind(cfg, g, e);
            var previous := GetBinding(g.bindings, e.tenant, e.verb.subject);
            && after.index == g.index && after.stores == g.stores && after.journal == g.journal
            && GetBinding(after.bindings, e.tenant, e.verb.subject) == Some(e.verb.provider)
            && answer.Rebound?
            && (previous == None || previous == Some(e.verb.provider) ==>
                answer.report == RebindResult(e.verb.provider, None, 0))
            && (previous.Some? && previous.value != e.verb.provider ==>
                  var stranded := LiveKeys(g.index, e.tenant, e.verb.subject, previous.value);
                  && answer.report == RebindResult(e.verb.provider, previous, |stranded|)
                  && forall k | k in stranded :: Resolve(after.index, e.tenant, g.index[k].gatewayId) == Some(k))
  {
    var previous := GetBinding(g.bindings, e.tenant, e.verb.subject);
    if previous.Some? {
      forall k | k in LiveKeys(g.index, e.tenant, e.verb.subject, previous.value)
        ensures Resolve(g.index, e.tenant, g.index[k].gatewayId) == Some(k)
      {
        ResolveUnder(cfg, g, next, e.tenant, g.index[k].gatewayId, k);
      }
    }
  }

  // -- a binding is obeyed -------------------------------------------------------------

  /** A write, a search, a listing or an erasure for one subject. */
  predicate Asks(e: Event, tenant: string, subject: string) {
    e.tenant == tenant &&
    match e.verb
    case Ingest(_, _, scope, _) => scope.subject == subject
    case Upsert(_, scope, _) => scope.subject == subject
    case Search(_, scope, _) => scope.subject == subject
    case ListScope(scope, _, _) => scope.subject == subject
    case DeleteScope(scope, _) => scope.subject == subject
    case _ => false
  }

  function AssertedBy(e: Event): Option<string> {
    match e.verb
    case Ingest(_, _, _, asserted) => asserted
    case Upsert(_, _, asserted) => asserted
    case Search(_, _, asserted) => asserted
    case ListScope(_, _, asserted) => asserted
    case DeleteScope(_, asserted) => asserted
    case _ => None
  }

  /** An answer from one provider: named as the one that served, and on every record. Whoever asserts another is told
      which it is. */
  ghost predicate ServedBy(e: Event, answer: Answer, p: string) {
    && (answer.Written? || answer.Found? ==> answer.provider == p)
    && (answer.Written? || answer.Found? || answer.Listing? ==> forall r | r in answer.records :: r.provider == p)
    && (AssertedBy(e) != None && AssertedBy(e) != Some(p) ==>
          answer == Failed(ProviderMismatch(AssertedBy(e).value, p)) || answer == Failed(EmptyUpsert))
    && (answer.Failed? && answer.error.ProviderMismatch? ==> AssertedBy(e) != None && AssertedBy(e) != Some(p))
    && answer != Failed(NoProviderResolved)
  }

  lemma {:induction false} RecordsNameProvider(memories: seq<ProviderMemory>, rows: map<Native, CatalogRow>,
                                               provider: string, scope: Scope)
    ensures forall r | r in WriteRecords(memories, rows, provider, scope) :: r.provider == provider
    ensures forall r | r in ReadRecords(memories, rows, provider) :: r.provider == provider
  {
    if memories != [] { RecordsNameProvider(memories[1..], rows, provider, scope); }
  }

  lemma WriteServed(cfg: Config, g: State, tenant: string, name: string, facts: seq<string>, scope: Scope,
                    ids: seq<nat>, now: nat)
    requires name in cfg.caps && 2 * |facts| <= |ids|
    ensures var answer := WriteFacts(cfg, g, tenant, name, facts, scope, ids, now).1;
            answer == Failed(UniqueConflict) || (answer.Written? && answer.provider == name
                                                 && forall r | r in answer.records :: r.provider == name)
  {
    var n, bound := |facts|, scope.Under(tenant);
    var memories := Map(NewRows(facts, cfg.embed, bound, ids[..n], now), Listed());
    MissingIsShort(Items(memories), Find(g.index, tenant, name, Natives(Items(memories))));
    NewRowsAt(facts, cfg.embed, bound, ids[..n], now);
    MapPageFailsIff(g.index, tenant, name, Items(memories), scope, true, ids[n..2 * n]);
    hide WriteRecords, NewRows, MapPage, MissingAt, Mappable;
    var page := MapPage(g.index, tenant, name, Items(memories), scope, true, ids[n..2 * n]);
    if page.Ok? { RecordsNameProvider(memories, ByNative(page.value.1), name, scope); }
  }

  lemma MapServed(g: State, tenant: string, name: string, memories: seq<ProviderMemory>, scope: Scope, ids: seq<nat>)
    requires |MissingAt(g.index, tenant, name, Items(memories))| <= |ids|
    ensures var r := MapHits(g, tenant, name, memories, scope, ids).1;
            if r.Err? then r.error == UniqueConflict else forall rec | rec in r.value :: rec.provider == name
  {
    MapPageFailsIff(g.index, tenant, name, Items(memories), scope, false, ids);
    hide ReadRecords, MapPage, MissingAt, Mappable;
    var page := MapPage(g.index, tenant, name, Items(memories), scope, false, ids);
    if page.Ok? { RecordsNameProvider(memories, ByNative(page.value.1), name, scope); }
  }

  /** One call for a bound subject. */
  lemma BoundIsServed(cfg: Config, g: State, e: Event, tenant: string, subject: string, p: string)
    requires Supplied(cfg, g, e) && Asks(e, tenant, subject)
    requires Bound(g, tenant, subject) && g.bindings[(tenant, subject)].provider == p && p != ""
    ensures ServedBy(e, Step(cfg, g, e).1, p)
  {
    hide WriteFacts, MapHits, Prepare, Hits, MissingAt;
    BindingDecides(cfg, g.bindings, tenant, e.verb.scope, AssertedBy(e), p);
    var name := Prepare(cfg, g.bindings, tenant, e.verb.scope, AssertedBy(e));
    if name.Ok? {
      match e.verb
      case Ingest(facts, _, scope, _) =>
        if cfg.caps[p].supportsIngest { WriteServed(cfg, g, tenant, p, facts, scope, e.ids, e.now); }
      case Upsert(facts, scope, _) =>
        if facts != [] && cfg.caps[p].supportsUpsert { WriteServed(cfg, g, tenant, p, facts, scope, e.ids, e.now); }
      case Search(_, scope, _) => MapServed(g, tenant, p, Hits(cfg, g, tenant, p, e.verb), scope, e.ids);
      case ListScope(scope, _, _) => MapServed(g, tenant, p, Hits(cfg, g, tenant, p, e.verb), scope, e.ids);
      case _ =>
    }
  }

  /** Over a run with no rebind of a bound subject, every answer for it comes from the provider it is bound to,
      whatever the default is. */
  lemma {:induction false} BindingIsObeyed(cfg: Config, g: State, next: nat, events: seq<Event>, tenant: string,
                                           subject: string, p: string, i: nat)
    requires Inv(cfg, g, next) && ProperRun(cfg, g.bindings, events, next) && i < |events|
    requires forall e | e in events :: !Moves(e, tenant, subject)
    requires Bound(g, tenant, subject) && g.bindings[(tenant, subject)].provider == p && p != ""
    requires Asks(events[i], tenant, subject)
    ensures |Run(cfg, g, next, events).1| == |events| && ServedBy(events[i], Run(cfg, g, next, events).1[i], p)
    decreases |events|
  {
    hide Inv, Step, Supplied, Proper, Moves, Writes, Asks, ServedBy, NextBindings, Runs.After;
    var e, upto := events[0], Runs.After(events[0], next);
    assert e in events && forall x | x in events[1..] :: x in events;
    StepKeepsInv(cfg, g, next, e, upto);
    StepBindingsAre(cfg, g, next, e, upto);
    StepBindings(cfg, g, next, e, upto, tenant, subject);
    var h := Step(cfg, g, e).0;
    AsManyAnswers(cfg, h, upto, events[1..]);
    if i == 0 {
      BoundIsServed(cfg, g, e, tenant, subject, p);
    } else {
      BindingIsObeyed(cfg, h, upto, events[1..], tenant, subject, p, i - 1);
    }
  }

  lemma {:induction false} AsManyAnswers(cfg: Config, g: State, next: nat, events: seq<Event>)
    requires Inv(cfg, g, next) && ProperRun(cfg, g.bindings, events, next)
    ensures |Run(cfg, g, next, events).1| == |events|
    decreases |events|
  {
    hide Inv, Step, Supplied, Proper, NextBindings, Runs.After;
    if events != [] {
      StepKeepsInv(cfg, g, next, events[0], Runs.After(events[0], next));
      StepBindingsAre(cfg, g, next, events[0], Runs.After(events[0], next));
      AsManyAnswers(cfg, Step(cfg, g, events[0]).0, Runs.After(events[0], next), events[1..]);
    }
  }

  /** What makes a binding: a permitted rebind, or the first accepted write of a subject that has none. */
  predicate BindsTo(cfg: Config, g: State, e: Event, tenant: string, subject: string, p: string) {
    if e.verb.RebindSubject? then Moves(e, tenant, subject) && !e.verb.migrate && p == e.verb.provider && p in cfg.caps
    else
      && Writes(e, tenant, subject) && !Bound(g, tenant, subject) && Accepted(cfg, g.bindings, e)
      && Prepare(cfg, g.bindings, tenant, e.verb.scope, e.verb.asserted) == Ok(p)
  }

  lemma StepBindsTo(cfg: Config, g: State, next: nat, e: Event, upto: nat, tenant: string, subject: string, p: string)
    requires Inv(cfg, g, next) && Proper(cfg, g.bindings, e, next, upto) && BindsTo(cfg, g, e, tenant, subject, p)
    ensures Supplied(cfg, g, e)
    ensures var after := Step(cfg, g, e).0;
            Bound(after, tenant, subject) && after.bindings[(tenant, subject)].provider == p
  {
    hide Inv, Step, Supplied, Prepare, Accepted;
    StepBindingsAre(cfg, g, next, e, upto);
  }

  /** After a permitted rebind to a provider, or a first write to one, every call for the subject is answered from that
      provider, until the next rebind. */
  lemma BindingHolds(cfg: Config, g: State, next: nat, events: seq<Event>, tenant: string, subject: string, p: string,
                     i: nat)
    requires Inv(cfg, g, next) && ProperRun(cfg, g.bindings, events, next) && 0 < i < |events|
    requires BindsTo(cfg, g, events[0], tenant, subject, p) && p != ""
    requires forall j | 0 < j < |events| :: !Moves(events[j], tenant, subject)
    requires Asks(events[i], tenant, subject)
    ensures |Run(cfg, g, next, events).1| == |events| && ServedBy(events[i], Run(cfg, g, next, events).1[i], p)
  {
    hide Inv, Step, Supplied, Proper, Moves, Writes, Asks, ServedBy, BindsTo, NextBindings, Runs.After;
    var e, upto := events[0], Runs.After(events[0], next);
    StepKeepsInv(cfg, g, next, e, upto);
    StepBindingsAre(cfg, g, next, e, upto);
    StepBindsTo(cfg, g, next, e, upto, tenant, subject, p);
    var rest := events[1..];
    forall x | x in rest
      ensures !Moves(x, tenant, subject)
    {
      var j :| 0 <= j < |rest| && rest[j] == x;
      assert x == events[j + 1];
    }
    assert rest[i - 1] == events[i];
    BindingIsObeyed(cfg, Step(cfg, g, e).0, upto, rest, tenant, subject, p, i - 1);
  }

  // -- episodes ---------------------------------------------------------------------

  /** Reading a subject's episodes back gives them in the order they were ingested. */
  lemma EpisodesInOrder(cfg: Config, g: State, next: nat, tenant: string, subject: string)
    requires Inv(cfg, g, next)
    ensures var rows := JournalRows(g.journal, tenant, subject);
            && rows == Filter(g.journal, OfSubject(tenant, subject))
            && (forall j :: j in rows <==> j in g.journal && j.tenant == tenant && j.subject == subject)
            && (forall i, j | 0 <= i < j < |rows| :: rows[i].episode < rows[j].episode)
  {
    JournalRowsAre(g.journal, tenant, subject);
    var rows := Filter(g.journal, OfSubject(tenant, subject));
    FilterKeepsOrder(g.journal, OfSubject(tenant, subject));
    AscendingIsSorted(rows);
    SortIdentity(rows, EpisodeOrder());
  }

  lemma AscendingIsSorted(rows: seq<JournalRow>)
    requires Ascending(rows)
    ensures SortedBy(rows, EpisodeOrder())
  {}

  function NativeOfRecord(): Record -> Native { (r: Record) => r.native }

  /** An ingest is remembered last in its subject's journal: under the caller's own scope, with the raw payload and the
      native id of every memory it answered with, in order. */
  lemma IngestIsRemembered(cfg: Config, g: State, next: nat, e: Event, upto: nat, name: string)
    requires Inv(cfg, g, next) && Proper(cfg, g.bindings, e, next, upto) && e.verb.Ingest? && cfg.journalEnabled
    requires Prepare(cfg, g.bindings, e.tenant, e.verb.scope, e.verb.asserted) == Ok(name)
             && cfg.caps[name].supportsIngest
    ensures var (after, answer) := StepIngest(cfg, g, e);
            var scope := e.verb.scope;
            && answer.Written? && |answer.records| == |e.verb.facts|
            && JournalRows(after.journal, e.tenant, scope.subject) == JournalRows(g.journal, e.tenant, scope.subject)
                 + [JournalRow(e.ids[2 * |e.verb.facts|], e.tenant, scope.subject, scope.agent, scope.session,
                               e.verb.payload, name, Map(answer.records, NativeOfRecord()))]
  {
    hide WriteFacts, Inv, Exact, Prepare, FreshIds, StepIngest, JournalRows, Filter;
    var v := e.verb;
    IngestIs(cfg, g, next, e, upto);
    IngestKeepsInv(cfg, g, next, e, upto);
    WrittenAnswer(cfg, g, next, e, upto, name);
    WriteFactsKeepsInv(cfg, g, e.tenant, name, v.facts, v.scope, e.ids, e.now, next, upto);
    var (after, answer) := StepIngest(cfg, g, e);
    EpisodesInOrder(cfg, g, next, e.tenant, v.scope.subject);
    EpisodesInOrder(cfg, after, upto, e.tenant, v.scope.subject);
    EpisodeLast(g.journal, Episode(e, name));
    var written := WriteFacts(cfg, g, e.tenant, name, v.facts, v.scope, e.ids, e.now).1;
    forall i | 0 <= i < |v.facts|
      ensures written.records[i].native == Minted(e.ids[..|v.facts|][i])
    {
      assert written.records[i] == Record(e.ids[|v.facts| + i], name, Minted(e.ids[i]), v.facts[i],
                                          v.scope.WithoutTenant(), None, e.now, e.now);
    }
    SameNatives(e.ids[..|v.facts|], written.records);
  }

  lemma SameNatives(ids: seq<nat>, records: seq<Record>)
    requires |ids| == |records| && forall i | 0 <= i < |ids| :: records[i].native == Minted(ids[i])
    ensures Map(ids, MintedNative()) == Map(records, NativeOfRecord())
  {}

  lemma EpisodeLast(journal: seq<JournalRow>, j: JournalRow)
    ensures Filter(journal + [j], OfSubject(j.tenant, j.subject)) == Filter(journal, OfSubject(j.tenant, j.subject))
            + [j]
  {
    FilterAppend(journal, [j], OfSubject(j.tenant, j.subject));
    assert [j][1..] == [];
  }

  /** An erasure leaves no episode the scope's dimensions cover, at whichever provider it was ingested, and keeps every
      other. */
  lemma ErasureReachesEpisodes(cfg: Config, g: State, e: Event, name: string, j: JournalRow)
    requires e.tenant != "" && Erases(cfg, g, e, name)
    ensures j in StepDeleteScope(cfg, g, e).0.journal
       <==> j in g.journal && !CoversDims(e.verb.scope.Under(e.tenant), EpisodeDims(j))
  {
    FilterMember(g.journal, OutsideScope(e.tenant, e.verb.scope), j);
    JournalScopeCovers(j, e.tenant, e.verb.scope);
  }

  /** After any run, every native id an episode names is indexed for that tenant at that provider. */
  lemma EpisodesNameIndexedMemories(cfg: Config, g: State, next: nat, events: seq<Event>, j: JournalRow, n: Native)
    requires Inv(cfg, g, next) && ProperRun(cfg, g.bindings, events, next)
    requires var after := Run(cfg, g, next, events).0; j in after.journal && n in j.natives
    ensures Key(j.tenant, j.provider, n) in Run(cfg, g, next, events).0.index
  {
    CoupledForEver(cfg, g, next, events);
  }

  // -- one memory -----------------------------------------------------------------------

  /** What was written can be read back by the id the write returned: a round trip through provider, catalog and
      gateway. */
  lemma WriteThenGet(cfg: Config, g: State, next: nat, e: Event, upto: nat, name: string, i: nat, ids: seq<nat>,
                     now: nat)
    requires Inv(cfg, g, next) && Proper(cfg, g.bindings, e, next, upto) && e.verb.Upsert? && i < |e.verb.facts|
    requires Prepare(cfg, g.bindings, e.tenant, e.verb.scope, e.verb.asserted) == Ok(name)
             && cfg.caps[name].supportsUpsert
    ensures var (after, answer) := StepUpsert(cfg, g, e);
            && answer.Written? && answer.provider == name && |answer.records| == |e.verb.facts|
            && answer.records[i].content == e.verb.facts[i] && answer.records[i].provider == name
            && answer.records[i].scope == Scope(e.verb.scope.subject, e.verb.scope.agent, e.verb.scope.session,
                                                e.verb.scope.labels, None)
            && StepGet(cfg, after, Event(e.tenant, Get(answer.records[i].id), ids, now))
                 == (after, One(answer.records[i].(
                      scope := Scope(e.verb.scope.subject, e.verb.scope.agent, e.verb.scope.session, map[], None))))
  {
    hide WriteFacts, Abs, Inv, StepGet, SpecFind, Resolve, FreshIds, Prepare;
    WrittenAnswer(cfg, g, next, e, upto, name);
    WrittenMemory(cfg, g, e, next, upto, name, i);
    var (after, answer) := StepUpsert(cfg, g, e);
    var k := Key(e.tenant, name, Minted(e.ids[i]));
    GetAnswers(cfg, after, upto, Event(e.tenant, Get(answer.records[i].id), ids, now));
    SpecFindIs(cfg, after, upto, e.tenant, answer.records[i].id);
    ResolveUnder(cfg, after, upto, e.tenant, answer.records[i].id, k);
  }

  lemma WrittenAnswer(cfg: Config, g: State, next: nat, e: Event, upto: nat, name: string)
    requires Inv(cfg, g, next) && Proper(cfg, g.bindings, e, next, upto) && (e.verb.Upsert? || e.verb.Ingest?)
    requires name in cfg.caps && 2 * |e.verb.facts| <= |e.ids|
    ensures var answer := WriteFacts(cfg, g, e.tenant, name, e.verb.facts, e.verb.scope, e.ids, e.now).1;
            var n := |e.verb.facts|;
            && answer.Written? && answer.provider == name && |answer.records| == n
            && (forall i :: 0 <= i < n ==>
                  answer.records[i] == Record(e.ids[n + i], name, Minted(e.ids[i]), e.verb.facts[i],
                                              e.verb.scope.WithoutTenant(), None, e.now, e.now))
  {
    WriteFactsIs(cfg, g, e.tenant, name, e.verb.facts, e.verb.scope, e.ids, e.now, next, upto);
  }

  lemma WrittenMemory(cfg: Config, g: State, e: Event, next: nat, upto: nat, name: string, i: nat)
    requires Inv(cfg, g, next) && Proper(cfg, g.bindings, e, next, upto) && e.verb.Upsert? && i < |e.verb.facts|
    requires name in cfg.caps && 2 * |e.verb.facts| <= |e.ids|
    ensures var n := |e.verb.facts|; var k := Key(e.tenant, name, Minted(e.ids[i]));
            var after := WriteFacts(cfg, g, e.tenant, name, e.verb.facts, e.verb.scope, e.ids, e.now).0;
            && Inv(cfg, after, upto) && Owns(after.index, k, e.tenant, e.ids[n + i])
            && k in Abs(after) && Abs(after)[k]
               == Memory(e.ids[n + i], e.verb.scope.Under(e.tenant), e.verb.facts[i], e.now, e.now)
  {
    var n, k := |e.verb.facts|, Key(e.tenant, name, Minted(e.ids[i]));
    WriteAddsTo(cfg, g, e.tenant, name, e.verb.facts, e.verb.scope, e.ids, e.now, next, upto);
    WriteRefines(cfg, g, e.tenant, name, e.verb.facts, e.verb.scope, e.ids, e.now, next, upto);
    NewMemoriesAt(e.tenant, name, e.verb.facts, e.verb.scope, e.ids, n, e.now);
    var after := WriteFacts(cfg, g, e.tenant, name, e.verb.facts, e.verb.scope, e.ids, e.now).0;
    AbsAt(cfg, after, upto, k);
    hide WriteFacts, NewRows, InsertRows, Inv, NewMemories, Arrives;
  }
}
