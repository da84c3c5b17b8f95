/** The adapter object: its row table, changed in place by the writes and deletes. */
module PgvectorStore {
  import opened Prelude
  import opened Scopes
  import opened MemoryIndex
  import opened Vectors
  import opened Ids
  import opened Pgvector

  const CHUNK := 500

  class PgvectorAdapter {
    var rows: seq<PgRow>
    const caps: Capabilities
    const embed: string -> Vector
    const sqrt: real -> real

    constructor (hasExtractor: bool, embed: string -> Vector, sqrt: real -> real)
      ensures rows == [] && caps == PgvectorCapabilities(hasExtractor) && this.embed == embed && this.sqrt == sqrt
    {
      rows := [];
      caps := PgvectorCapabilities(hasExtractor);
      this.embed := embed;
      this.sqrt := sqrt;
    }

    /** The filter is built one condition at a time from the dimensions the caller set. */
    static method BuildConditions(f: Scope) returns (conditions: seq<Condition>)
      ensures conditions == Conditions(f)
      ensures forall row :: AllHold(conditions, row) <==> CoversDims(f, row)
    {
      conditions := [Condition(Subject, f.subject)];
      if Truthy(f.tenant) { conditions := conditions + [Condition(Tenant, f.tenant.value)]; }
      if Truthy(f.agent) { conditions := conditions + [Condition(Agent, f.agent.value)]; }
      if Truthy(f.session) { conditions := conditions + [Condition(Session, f.session.value)]; }
      forall row ensures AllHold(Conditions(f), row) <==> CoversDims(f, row) { ConditionsAreCovers(f, row); }
    }

    /** Conditions and limit go to the database; labels live in JSON and are matched afterwards, and only then is the
        list cut. */
    method FetchInScope(f: Scope, recent: bool, limit: Option<nat>) returns (fetched: seq<PgRow>)
      ensures fetched == RowsInScope(rows, f, recent, limit)
      ensures fetched == Cut(Arranged(Filter(rows, Covered(f)), recent), limit)
    {
      hide Sort, Filter, Take, Covered, InDims;
      RowsInScopeCutsLast(rows, f, recent, limit);
      var conditions := BuildConditions(f);
      FilterSame(rows, Where(conditions), InDims(f)) by { WhereIsInDims(f); }
      fetched := Arranged(Filter(rows, Where(conditions)), recent);
      if f.labels == map[] {
        fetched := Cut(fetched, limit);
      } else {
        var matched := MatchLabels(fetched, f);
        fetched := Cut(matched, limit);
      }
    }

    static method MatchLabels(fetched: seq<PgRow>, f: Scope) returns (matched: seq<PgRow>)
      ensures matched == Filter(fetched, HasLabels(f))
    {
      hide Filter;
      matched := [];
      FilterNone(fetched[..0], HasLabels(f));
      for i := 0 to |fetched|
        invariant matched == Filter(fetched[..i], HasLabels(f))
      {
        FilterSnoc(fetched, i, HasLabels(f));
        if CoversLabels(f, fetched[i].scope) { matched := matched + [fetched[i]]; }
      }
      assert fetched[..|fetched|] == fetched;
    }

    method Upsert(ids: IdGenerator, facts: seq<string>, scope: Scope, now: nat)
      returns (memories: seq<ProviderMemory>, ghost drawn: seq<nat>)
      requires ids.last.rand < TWO_80
      modifies this, ids
      ensures ids.last.rand < TWO_80 && old(ids.last.Tick()) <= ids.last.Tick() && |drawn| == |facts|
      ensures FreshIds(drawn, old(ids.last.Tick()) + 1, ids.last.Tick() + 1)
      ensures rows == old(rows) + NewRows(facts, embed, scope, drawn, now)
      ensures memories == Map(NewRows(facts, embed, scope, drawn, now), Listed())
    {
      var added: seq<PgRow> := [];
      drawn := [];
      for i := 0 to |facts|
        invariant ids.last.rand < TWO_80 && |drawn| == i && rows == old(rows)
        invariant FreshIds(drawn, old(ids.last.Tick()) + 1, ids.last.Tick() + 1)
        invariant added == NewRows(facts[..i], embed, scope, drawn, now)
      {
        ghost var before := ids.last.Tick() + 1;
        var tick := ids.Draw();
        FreshSnoc(drawn, tick, old(ids.last.Tick()) + 1, before, ids.last.Tick() + 1);
        NewRowsSnoc(facts, embed, scope, drawn, tick, now, i);
        added := added + [PgRow(tick, scope, facts[i], embed(facts[i]), now, now)];
        drawn := drawn + [tick];
      }
      assert facts[..|facts|] == facts;
      rows := rows + added;
      memories := Map(added, Listed());
    }

    method Update(tick: nat, content: string, now: nat) returns (r: Result<ProviderMemory, Error>)
      modifies this
      ensures rows == Edited(old(rows), tick, content, embed(content), now)
      ensures var found := FindRow(old(rows), tick);
              r == if found.None? then Err(MemoryNotFound)
                   else Ok(ToMemory(found.value.(content := content, embedding := embed(content), updatedAt := now),
                                    None))
      ensures r.Err? ==> rows == old(rows)
    {
      FindRowEdited(rows, tick, content, embed(content), now, tick);
      FindRowIn(rows, tick);
      if FindRow(rows, tick).None? { EditedAbsent(rows, tick, content, embed(content), now); }
      rows := Edited(rows, tick, content, embed(content), now);
      var got := FindRow(rows, tick);
      r := if got.None? then Err(MemoryNotFound) else Ok(ToMemory(got.value, None));
    }

    /** Semantic search only. This build keeps vectors as JSON, so it always ranks in Python. */
    method Search(query: Query, f: Scope) returns (r: Result<seq<ProviderMemory>, Error>)
      ensures r == if query.mode != Semantic then Err(UnsupportedCapability)
                   else Ok(Map(SearchInPython(rows, f, embed(query.text), query, sqrt), Hit()))
    {
      if query.mode != Semantic { return Err(UnsupportedCapability); }
      var memories := SearchByScan(f, embed(query.text), query);
      r := Ok(memories);
    }

    /** Score everything in scope, drop what scores too low, sort, cut: the path that ranks in Python. */
    method SearchByScan(f: Scope, needle: Vector, query: Query) returns (memories: seq<ProviderMemory>)
      ensures memories == Map(SearchInPython(rows, f, needle, query, sqrt), Hit())
    {
      hide Sort, Take, Map, Filter, RowsInScope;
      var fetched := FetchInScope(f, false, None);
      var scored := ScoreRows(fetched, needle, query.minScore);
      memories := Map(Take(Sort(scored, BestFirst()), query.limit), Hit());
    }

    method ScoreRows(fetched: seq<PgRow>, needle: Vector, minScore: Option<real>) returns (scored: seq<Scored>)
      ensures scored == Filter(Map(fetched, WithScore(needle, sqrt)), HighEnough(minScore))
    {
      hide Cosine, Filter;
      ghost var all := Map(fetched, WithScore(needle, sqrt));
      scored := [];
      FilterNone(all[..0], HighEnough(minScore));
      for i := 0 to |fetched|
        invariant scored == Filter(all[..i], HighEnough(minScore))
      {
        var score := Cosine(needle, fetched[i].embedding, sqrt);
        FilterSnoc(all, i, HighEnough(minScore));
        if !(minScore.Some? && score < minScore.value) { scored := scored + [(score, fetched[i])]; }
      }
      assert all[..|fetched|] == all;
    }

    method ListScope(f: Scope, limit: nat) returns (memories: seq<ProviderMemory>)
      ensures memories == Map(RowsInScope(rows, f, true, Some(limit)), Listed())
    {
      var fetched := FetchInScope(f, true, Some(limit));
      memories := Map(fetched, Listed());
    }

    method Get(tick: nat) returns (r: Option<ProviderMemory>)
      ensures r == var found := FindRow(rows, tick); if found.None? then None else Some(ToMemory(found.value, None))
    {
      var found := FindRow(rows, tick);
      r := if found.None? then None else Some(ToMemory(found.value, None));
    }

    method Delete(tick: nat) returns (existed: bool)
      modifies this
      ensures rows == Filter(old(rows), OtherThan(tick))
      ensures existed <==> FindRow(old(rows), tick).Some?
    {
      existed := FindRow(rows, tick).Some?;
      rows := Filter(rows, OtherThan(tick));
    }

    /** One statement when there are no labels; otherwise the ids of the covered rows, deleted a chunk at a time. Both
        remove exactly the covered rows and return how many there were. */
    method DeleteScope(f: Scope) returns (removed: nat)
      requires DistinctTicks(rows)
      modifies this
      ensures rows == Filter(old(rows), Uncovered(f))
      ensures removed == |Filter(old(rows), Covered(f))| && removed + |rows| == |old(rows)|
    {
      hide Filter, Map, RowsInScope, Sort, DistinctTicks;
      CoveredSplit(rows, f);
      if f.labels == map[] {
        var conditions := BuildConditions(f);
        FilterSame(rows, Where(conditions), Covered(f));
        FilterSame(rows, Unless(conditions), Uncovered(f));
        removed := |Filter(rows, Where(conditions))|;
        rows := Filter(rows, Unless(conditions));
        return;
      }
      removed := DeleteLabelled(f);
    }

    /** Labels are matched after the fetch, so this path needs ids, in chunks. */
    method DeleteLabelled(f: Scope) returns (removed: nat)
      requires DistinctTicks(rows)
      modifies this
      ensures rows == Filter(old(rows), Uncovered(f))
      ensures removed == |Filter(old(rows), Covered(f))|
    {
      hide Filter, Map, RowsInScope, Sort, DistinctTicks, NotAmong, Covered, Uncovered;
      DeleteByIdsIsDeleteByScope(rows, f);
      var fetched := FetchInScope(f, false, None);
      var doomed := Map(fetched, TickOf());
      DeleteTicks(doomed);
      removed := |doomed|;
      MapLength(fetched, TickOf());
    }

    /** Chunk by chunk is all at once. */
    method DeleteTicks(doomed: seq<nat>)
      modifies this
      ensures rows == Filter(old(rows), NotAmong(doomed))
    {
      hide Filter;
      var start := 0;
      FilterAll(rows, NotAmong(doomed[..0]));
      while start < |doomed|
        invariant 0 <= start <= |doomed| && rows == Filter(old(rows), NotAmong(doomed[..start]))
      {
        var end := Min(start + CHUNK, |doomed|);
        assert doomed[..end] == doomed[..start] + doomed[start..end];
        FilterTwice(old(rows), NotAmong(doomed[..start]), NotAmong(doomed[start..end]), NotAmong(doomed[..end]));
        rows := Filter(rows, NotAmong(doomed[start..end]));
        start := end;
      }
      assert doomed[..start] == doomed;
    }
  }

  lemma MapLength<T, U>(s: seq<T>, f: T -> U)
    ensures |Map(s, f)| == |s|
  {}

  function Where(conditions: seq<Condition>): PgRow -> bool { (r: PgRow) => AllHold(conditions, r.scope) }

  function Unless(conditions: seq<Condition>): PgRow -> bool { (r: PgRow) => !AllHold(conditions, r.scope) }

  lemma WhereIsInDims(f: Scope)
    ensures forall r :: Where(Conditions(f))(r) == InDims(f)(r)
  {}

  /** Ids drawn later do not change the rows built so far. */
  lemma {:induction false} NewRowsPrefix(facts: seq<string>, embed: string -> Vector, scope: Scope, ids: seq<nat>,
                                         more: seq<nat>, now: nat)
    requires |facts| <= |ids|
    ensures NewRows(facts, embed, scope, ids + more, now) == NewRows(facts, embed, scope, ids, now)
  {
    if facts != [] { NewRowsPrefix(facts[..|facts| - 1], embed, scope, ids, more, now); }
  }

  lemma NewRowsSnoc(facts: seq<string>, embed: string -> Vector, scope: Scope, ids: seq<nat>, tick: nat, now: nat,
                    i: nat)
    requires i < |facts| && |ids| == i
    ensures NewRows(facts[..i + 1], embed, scope, ids + [tick], now)
         == NewRows(facts[..i], embed, scope, ids, now) + [PgRow(tick, scope, facts[i], embed(facts[i]), now, now)]
  {
    assert facts[..i + 1][..i] == facts[..i];
    NewRowsPrefix(facts[..i], embed, scope, ids, [tick], now);
  }
}
