/** Two concrete runs from the empty store in which an erasure by a label goes wrong. */
module LabelledErasure {
  import opened Prelude
  import opened Scopes
  import opened MemoryIndex
  import opened Vectors
  import opened Pgvector
  import opened Gateway
  import opened GatewayInvariant
  import opened Runs
  import opened Refinement
  import opened Listing
  import opened Crowding
  import opened Histories

  // -- one provider, one subject ---------------------------------------------------------

  function OneStore(embed: string -> Vector, sqrt: real -> real): Config {
    Config(map["pg" := PgvectorCapabilities(true)], Some("pg"), true, embed, sqrt)
  }

  function NothingYet(): State { State(map[], map[], [], map["pg" := []]) }

  function OfAgent(agent: Option<string>): Scope { Scope("u", agent, None, map[], None) }

  /** Write one memory, under the ids `a` and `a + 1`. */
  function Note(fact: string, agent: Option<string>, a: nat, now: nat): Event {
    Event("t", Upsert([fact], OfAgent(agent), None), [a, a + 1], now)
  }

  function NoteKey(a: nat): Key { Key("t", "pg", Minted(a)) }

  function NoteEntry(fact: string, agent: Option<string>, a: nat): IndexRow {
    IndexRow(a + 1, "u", agent, None, fact, false)
  }

  function NoteRow(embed: string -> Vector, fact: string, agent: Option<string>, a: nat, now: nat): PgRow {
    PgRow(a, OfAgent(agent).Under("t"), fact, embed(fact), now, now)
  }

  function Erase(agent: Option<string>, now: nat): Event {
    Event("t", DeleteScope(OfAgent(agent).(labels := map["k" := "v"]), None), [], now)
  }

  /** Unbound, or bound to the one provider. */
  predicate Served(g: State) { GetBinding(g.bindings, "t", "u") in {None, Some("pg")} }

  function Noted(g: State, embed: string -> Vector, fact: string, agent: Option<string>, a: nat, now: nat): State
    requires "pg" in g.stores
  {
    g.(index := g.index[NoteKey(a) := NoteEntry(fact, agent, a)],
       stores := g.stores["pg" := g.stores["pg"] + [NoteRow(embed, fact, agent, a, now)]],
       bindings := Bind(g.bindings, "t", "u", "pg"))
  }

  lemma NothingIsCoupled(embed: string -> Vector, sqrt: real -> real)
    ensures Inv(OneStore(embed, sqrt), NothingYet(), 0) && Exact(NothingYet())
  {
    EmptyStoresAreCoupled(OneStore(embed, sqrt), map[]);
    assert NothingYet().stores == map p | p in OneStore(embed, sqrt).caps :: [];
  }

  lemma NoteIsProper(embed: string -> Vector, sqrt: real -> real, g: State, e: Event)
    requires e.tenant == "t" && (e.verb.Upsert? || e.verb.DeleteScope? || e.verb.ListScope?) && Served(g)
    requires e.verb.scope.subject == "u" && e.verb.asserted == None
    ensures Prepare(OneStore(embed, sqrt), g.bindings, "t", e.verb.scope, None) == Ok("pg")
  {}

  lemma NoteItems(embed: string -> Vector, fact: string, agent: Option<string>, a: nat, now: nat)
    ensures NewRows([fact], embed, OfAgent(agent).Under("t"), [a], now) == [NoteRow(embed, fact, agent, a, now)]
    ensures InsertRows("t", "pg", FactItems([fact], [a, a + 1]), OfAgent(agent), [a + 1])
         == map[NoteKey(a) := NoteEntry(fact, agent, a)]
  {
    assert FactItems([fact], [a, a + 1]) == [Item(Minted(a), fact)];
    assert [Item(Minted(a), fact)][..0] == [];
    assert [fact][..0] == [];
  }

  /** A note adds one index row and one store row and answers with its id. */
  lemma NoteIsWritten(embed: string -> Vector, sqrt: real -> real, g: State, fact: string, agent: Option<string>,
                      a: nat,
                      now: nat)
    requires Inv(OneStore(embed, sqrt), g, a) && Served(g)
    ensures "pg" in g.stores && Supplied(OneStore(embed, sqrt), g, Note(fact, agent, a, now))
    ensures var cfg := OneStore(embed, sqrt);
            var (after, answer) := StepUpsert(cfg, g, Note(fact, agent, a, now));
            && after == Noted(g, embed, fact, agent, a, now) && Inv(cfg, after, a + 2) && (Exact(g) ==> Exact(after))
            && answer.Written? && |answer.records| == 1 && answer.records[0].id == a + 1
  {
    hide Inv, Exact, Prepare, WriteFacts, NewRows, InsertRows, FactItems;
    var cfg, e := OneStore(embed, sqrt), Note(fact, agent, a, now);
    NoteIsProper(embed, sqrt, g, e);
    ProviderHasStore(cfg, g, a, "pg");
    assert Proper(cfg, g.bindings, e, a, a + 2);
    UpsertKeepsInv(cfg, g, a, e, a + 2);
    WrittenAnswer(cfg, g, a, e, a + 2, "pg");
    WriteState(cfg, g, "t", "pg", [fact], OfAgent(agent), [a, a + 1], now, a, a + 2);
    NoteItems(embed, fact, agent, a, now);
    assert [a, a + 1][..1] == [a] && [a, a + 1][1..2] == [a + 1];
    var (after, answer) := WriteFacts(cfg, g, "t", "pg", [fact], OfAgent(agent), [a, a + 1], now);
    assert StepUpsert(cfg, g, e) == (after, answer);
    assert answer.records[0].id == [a, a + 1][1 + 0];
    assert g.index + map[NoteKey(a) := NoteEntry(fact, agent, a)] == g.index[NoteKey(a) := NoteEntry(fact, agent, a)];
  }

  // -- an id is lost ---------------------------------------------------------------------------

  /** The caller writes one memory without labels, then erases by a label nothing carries. The answer is that nothing
      was removed, and indeed the memory is still stored; but its id no longer resolves. */
  lemma LabelledErasureLosesAnId(embed: string -> Vector, sqrt: real -> real)
    ensures var cfg, e := OneStore(embed, sqrt), Note("tea", None, 0, 0);
            && Supplied(cfg, NothingYet(), e) && StepUpsert(cfg, NothingYet(), e).0 == TeaStored(embed)
            && var answer := StepUpsert(cfg, NothingYet(), e).1;
               answer.Written? && |answer.records| == 1 && answer.records[0].id == 1
    ensures var (g2, erased) := StepDeleteScope(OneStore(embed, sqrt), TeaStored(embed), Erase(None, 1));
            && erased == Removed(0) && g2.stores == TeaStored(embed).stores && !Exact(g2)
            && StepGet(OneStore(embed, sqrt), g2, Event("t", Get(1), [], 2)) == (g2, Failed(MemoryNotFound))
  {
    hide Inv, Exact, StepUpsert, StepDeleteScope, Supplied;
    NothingIsCoupled(embed, sqrt);
    NoteIsWritten(embed, sqrt, NothingYet(), "tea", None, 0, 0);
    TeaIsNoted(embed);
    TeaIsLost(embed, sqrt);
  }

  lemma TeaIsLost(embed: string -> Vector, sqrt: real -> real)
    requires Inv(OneStore(embed, sqrt), TeaStored(embed), 2) && Exact(TeaStored(embed))
    ensures var (g2, erased) := StepDeleteScope(OneStore(embed, sqrt), TeaStored(embed), Erase(None, 1));
            && erased == Removed(0) && g2.stores == TeaStored(embed).stores && !Exact(g2)
            && StepGet(OneStore(embed, sqrt), g2, Event("t", Get(1), [], 2)) == (g2, Failed(MemoryNotFound))
  {
    hide Inv, Exact, StepDeleteScope, Resolve, FindRow, Prepare, CoversDims, CoversLabels, LabelsUniform;
    var cfg, g1 := OneStore(embed, sqrt), TeaStored(embed);
    TeaIsInTheWay(embed, sqrt);
    LabelledErasureHides(cfg, g1, 2, Erase(None, 1), "pg", NoteKey(0));
    ErasureExactIff(cfg, g1, 2, Erase(None, 1), "pg");
  }

  function TeaStored(embed: string -> Vector): State {
    State(map[NoteKey(0) := NoteEntry("tea", None, 0)], map[("t", "u") := Binding("pg", None)], [],
          map["pg" := [NoteRow(embed, "tea", None, 0, 0)]])
  }

  lemma TeaIsNoted(embed: string -> Vector)
    ensures Noted(NothingYet(), embed, "tea", None, 0, 0) == TeaStored(embed)
  {
    var g := Noted(NothingYet(), embed, "tea", None, 0, 0);
    assert g.index == TeaStored(embed).index && g.bindings == TeaStored(embed).bindings;
    assert g.stores["pg"] == TeaStored(embed).stores["pg"];
    assert g.stores == TeaStored(embed).stores;
  }

  /** The erasure reaches the store, covers the memory's dimensions, and asks for a label the memory lacks. */
  lemma TeaIsInTheWay(embed: string -> Vector, sqrt: real -> real)
    ensures var cfg, e, g1, row := OneStore(embed, sqrt), Erase(None, 1), TeaStored(embed),
            NoteRow(embed, "tea", None, 0, 0);
            var bound := e.verb.scope.Under("t");
            && Erases(cfg, g1, e, "pg") && RowAt(g1, NoteKey(0)) == Some(row)
            && CoversDims(bound, row.scope) && !CoversLabels(bound, row.scope) && !LabelsUniform(g1.stores["pg"], bound)
            && StepDeleteScope(cfg, g1, e).1 == Removed(0) && StepDeleteScope(cfg, g1, e).0.stores == g1.stores
  {
    var cfg, e, g1, row := OneStore(embed, sqrt), Erase(None, 1), TeaStored(embed), NoteRow(embed, "tea", None, 0, 0);
    var bound := e.verb.scope.Under("t");
    assert bound.Dims() == map[Tenant := "t", Subject := "u"];
    assert "k" in bound.labels;
    assert row in g1.stores["pg"];
    CoveredIsCovers(bound, row);
    assert Erases(cfg, g1, e, "pg");
    assert Filter(g1.stores["pg"], Covered(bound)) == [];
    assert Filter(g1.stores["pg"], Uncovered(bound)) == g1.stores["pg"];
    assert StepDeleteScope(cfg, g1, e).0.stores == g1.stores;
  }

  // -- a page comes back short ---------------------------------------------------------------------

  /** Two memories of one subject, the newer an agent's. The agent's is erased by a label it does not carry: it stays
      stored and is dead. */
  function TwoStored(embed: string -> Vector, dead: bool): State {
    State(map[NoteKey(0) := NoteEntry("old", None, 0), NoteKey(2) := NoteEntry("new", Some("a"), 2).(deleted := dead)],
          map[("t", "u") := Binding("pg", None)], [],
          map["pg" := [NoteRow(embed, "old", None, 0, 0), NoteRow(embed, "new", Some("a"), 2, 1)]])
  }

  function ListOne(): Event { Event("t", ListScope(OfAgent(None), 1, None), [], 3) }

  function OneStored(embed: string -> Vector): State { Noted(NothingYet(), embed, "old", None, 0, 0) }

  /** From the empty store: two writes, the erasure, and a listing of one memory. It answers with none, though a
      covered memory is there to be listed: the dead row took the one place in the page. */
  lemma LabelledErasureEmptiesAPage(embed: string -> Vector, sqrt: real -> real)
    ensures var cfg, e := OneStore(embed, sqrt), Note("old", None, 0, 0);
            Supplied(cfg, NothingYet(), e) && StepUpsert(cfg, NothingYet(), e).0 == OneStored(embed)
    ensures var cfg, e := OneStore(embed, sqrt), Note("new", Some("a"), 2, 1);
            Supplied(cfg, OneStored(embed), e) && StepUpsert(cfg, OneStored(embed), e).0 == TwoStored(embed, false)
    ensures var cfg, e := OneStore(embed, sqrt), Erase(Some("a"), 2);
            StepDeleteScope(cfg, TwoStored(embed, false), e) == (TwoStored(embed, true), Removed(0))
    ensures var cfg, g := OneStore(embed, sqrt), TwoStored(embed, true);
            Inv(cfg, g, 4) && Supplied(cfg, g, ListOne()) && StepList(cfg, g, ListOne()) == (g, Listing([]))
    ensures var mem, bound := Abs(TwoStored(embed, true)), OfAgent(None).Under("t");
            InPageScope(mem, "pg", bound, NoteKey(0)) && !IsNewestPage(mem, "pg", bound, 1, [])
  {
    hide Inv, Exact, StepUpsert, StepDeleteScope, StepList, Supplied, Abs, IsNewestPage, InPageScope, Noted;
    var cfg := OneStore(embed, sqrt);
    NothingIsCoupled(embed, sqrt);
    NoteIsWritten(embed, sqrt, NothingYet(), "old", None, 0, 0);
    OneIsServed(embed);
    NoteIsWritten(embed, sqrt, OneStored(embed), "new", Some("a"), 2, 1);
    TwoAreNoted(embed);
    DeleteScopeKeepsInv(cfg, TwoStored(embed, false), 4, Erase(Some("a"), 2));
    NewIsErased(embed, sqrt);
    OneIsListed(embed, sqrt);
    OldIsThere(embed, sqrt);
  }

  lemma OneIsServed(embed: string -> Vector)
    ensures Served(OneStored(embed)) && "pg" in OneStored(embed).stores
  {}

  lemma TwoAreNoted(embed: string -> Vector)
    ensures Noted(OneStored(embed), embed, "new", Some("a"), 2, 1) == TwoStored(embed, false)
  {
    var g, h := Noted(OneStored(embed), embed, "new", Some("a"), 2, 1), TwoStored(embed, false);
    assert g.index == h.index && g.bindings == h.bindings;
    assert g.stores["pg"] == h.stores["pg"];
    assert g.stores == h.stores;
  }

  /** Both rows stay, and only the agent's dies. */
  lemma NewIsErased(embed: string -> Vector, sqrt: real -> real)
    ensures StepDeleteScope(OneStore(embed, sqrt), TwoStored(embed, false), Erase(Some("a"), 2))
         == (TwoStored(embed, true), Removed(0))
  {
    var cfg, e, g := OneStore(embed, sqrt), Erase(Some("a"), 2), TwoStored(embed, false);
    var bound, rows := e.verb.scope.Under("t"), g.stores["pg"];
    NoteIsProper(embed, sqrt, g, e);
    assert "k" in bound.labels;
    FilterNone(rows, Covered(bound));
    FilterAll(rows, Uncovered(bound));
    assert MarkScopeDeleted(g.index, "t", e.verb.scope, "pg") == TwoStored(embed, true).index;
    assert g.stores["pg" := rows] == g.stores;
    assert Filter(g.journal, OutsideScope("t", e.verb.scope)) == [];
  }

  lemma OneIsListed(embed: string -> Vector, sqrt: real -> real)
    requires Inv(OneStore(embed, sqrt), TwoStored(embed, true), 4)
    ensures var cfg, g := OneStore(embed, sqrt), TwoStored(embed, true);
            Supplied(cfg, g, ListOne()) && StepList(cfg, g, ListOne()) == (g, Listing([]))
  {
    hide Inv, StepList, Supplied, Prepare, RowsInScope, Map;
    var cfg, g := OneStore(embed, sqrt), TwoStored(embed, true);
    NoteIsProper(embed, sqrt, g, ListOne());
    ListIs(cfg, g, 4, ListOne());
    NewestOfTwo(embed);
    var row := NoteRow(embed, "new", Some("a"), 2, 1);
    assert Map([row], Listed()) == [ToMemory(row, None)];
    assert [ToMemory(row, None)][1..] == [];
    assert RecordsAt(g.index, "t", "pg", [ToMemory(row, None)]) == [];
  }

  lemma NewestOfTwo(embed: string -> Vector)
    ensures RowsInScope(TwoStored(embed, true).stores["pg"], OfAgent(None).Under("t"), true, Some(1))
         == [NoteRow(embed, "new", Some("a"), 2, 1)]
  {
    var bound, rows := OfAgent(None).Under("t"), TwoStored(embed, true).stores["pg"];
    RowsInScopeCutsLast(rows, bound, true, Some(1));
    FilterAll(rows, Covered(bound));
    var first, second := rows[0], rows[1];
    assert rows[1..] == [second] && [second][1..] == [];
    assert Sort([second], NewestFirst()) == [second];
    assert Sort(rows, NewestFirst()) == Insert(first, [second], NewestFirst());
    assert Insert(first, [second], NewestFirst()) == [second] + Insert(first, [], NewestFirst());
    assert Take([second, first], 1) == [second];
  }

  lemma OldIsThere(embed: string -> Vector, sqrt: real -> real)
    requires Inv(OneStore(embed, sqrt), TwoStored(embed, true), 4)
    ensures var g := TwoStored(embed, true);
            && InPageScope(Abs(g), "pg", OfAgent(None).Under("t"), NoteKey(0))
            && !IsNewestPage(Abs(g), "pg", OfAgent(None).Under("t"), 1, [])
  {
    hide Inv, Abs;
    var g, bound, row := TwoStored(embed, true), OfAgent(None).Under("t"), NoteRow(embed, "old", None, 0, 0);
    AbsAt(OneStore(embed, sqrt), g, 4, NoteKey(0));
    assert RowAt(g, NoteKey(0)) == Some(row);
    CoveredIsCovers(bound, row);
    assert Covered(bound)(row);
  }
}
