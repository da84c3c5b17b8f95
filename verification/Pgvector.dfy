/** The self-hosted store: its row table as a list of rows, what each statement does to it, and its two search and two
    delete paths. */
module Pgvector {
  import opened Prelude
  import opened Scopes
  import opened MemoryIndex
  import opened Vectors

  /** The scope columns (tenant, subject, agent, session, labels) are kept together as the scope the row was written
      under. A native id is known by the number it spells. */
  datatype PgRow = PgRow(tick: nat, scope: Scope, content: string, embedding: Vector, createdAt: nat, updatedAt: nat)

  datatype ProviderMemory = ProviderMemory(
    native: Native, content: string, createdAt: nat, updatedAt: nat, score: Option<real>)

  datatype Query = Query(text: string, mode: Mode, limit: nat, minScore: Option<real>, asOf: bool, degrade: bool)

  function ToMemory(r: PgRow, score: Option<real>): ProviderMemory {
    ProviderMemory(Minted(r.tick), r.content, r.createdAt, r.updatedAt, score)
  }

  function Listed(): PgRow -> ProviderMemory { (r: PgRow) => ToMemory(r, None) }

  /** The primary key. */
  ghost predicate DistinctTicks(rows: seq<PgRow>) {
    forall i, j :: 0 <= i < j < |rows| ==> rows[i].tick != rows[j].tick
  }

  /** SELECT by primary key. */
  function FindRow(rows: seq<PgRow>, tick: nat): Option<PgRow> {
    if rows == [] then None else if rows[0].tick == tick then Some(rows[0]) else FindRow(rows[1..], tick)
  }

  // -- WHERE clauses ------------------------------------------------------------------

  function InDims(f: Scope): PgRow -> bool { (r: PgRow) => AllHold(Conditions(f), r.scope) }

  function HasLabels(f: Scope): PgRow -> bool { (r: PgRow) => CoversLabels(f, r.scope) }

  function Covered(f: Scope): PgRow -> bool {
    (r: PgRow) => AllHold(Conditions(f), r.scope) && CoversLabels(f, r.scope)
  }

  function Uncovered(f: Scope): PgRow -> bool {
    (r: PgRow) => !(AllHold(Conditions(f), r.scope) && CoversLabels(f, r.scope))
  }

  function OtherThan(tick: nat): PgRow -> bool { (r: PgRow) => r.tick != tick }

  function NotAmong(ticks: seq<nat>): PgRow -> bool { (r: PgRow) => r.tick !in ticks }

  /** The store's filter is the covering relation. */
  lemma CoveredIsCovers(f: Scope, r: PgRow)
    ensures Covered(f)(r) <==> Covers(f, r.scope)
    ensures Uncovered(f)(r) <==> !Covers(f, r.scope)
  {
    ConditionsAreCovers(f, r.scope);
  }

  /** ORDER BY created_at DESC, native_id. */
  function NewestFirst(): (PgRow, PgRow) -> bool {
    (a: PgRow, b: PgRow) => a.createdAt > b.createdAt || (a.createdAt == b.createdAt && a.tick <= b.tick)
  }

  lemma NewestFirstIsOrder()
    ensures TotalPreorder(NewestFirst())
  {}

  function Arranged(rows: seq<PgRow>, recent: bool): seq<PgRow> {
    if recent then Sort(rows, NewestFirst()) else rows
  }

  function Cut<T>(s: seq<T>, limit: Option<nat>): seq<T> {
    if limit.Some? then Take(s, limit.value) else s
  }

  /** The fetch as the adapter does it: the limit goes to the database only when there are no labels to match
      afterwards. */
  function RowsInScope(rows: seq<PgRow>, f: Scope, recent: bool, limit: Option<nat>): seq<PgRow> {
    var fetched := Arranged(Filter(rows, InDims(f)), recent);
    if f.labels == map[] then Cut(fetched, limit)
    else Cut(Filter(fetched, HasLabels(f)), limit)
  }

  // -- filter facts ---------------------------------------------------------------------

  lemma {:induction false} FilterTwice<T>(s: seq<T>, p: T -> bool, q: T -> bool, both: T -> bool)
    requires forall x | x in s :: both(x) == (p(x) && q(x))
    ensures Filter(Filter(s, p), q) == Filter(s, both)
  {
    if s != [] {
      assert s[0] in s && forall x | x in s[1..] :: x in s;
      FilterTwice(s[1..], p, q, both);
    }
  }

  /** Filtering before or after an insertion into a sorted list gives the same list. */
  lemma {:induction false} FilterInsert<T(!new)>(x: T, s: seq<T>, le: (T, T) -> bool, p: T -> bool)
    requires TotalPreorder(le) && SortedBy(s, le)
    ensures Filter(Insert(x, s, le), p) == if p(x) then Insert(x, Filter(s, p), le) else Filter(s, p)
  {
    if s == [] || le(x, s[0]) {
      assert Insert(x, s, le)[1..] == s;
      InsertBeforeAll(x, Filter(s, p), le) by {
        forall y | y in Filter(s, p) ensures le(x, y) { FilterMember(s, p, y); }
      }
    } else {
      FilterInsert(x, s[1..], le, p);
      assert Insert(x, s, le)[1..] == Insert(x, s[1..], le);
      var kept := Filter(s[1..], p);
      assert p(s[0]) ==> ([s[0]] + kept)[1..] == kept;
      if !p(s[0]) {
      }
    }
  }

  lemma InsertBeforeAll<T>(x: T, s: seq<T>, le: (T, T) -> bool)
    requires forall y | y in s :: le(x, y)
    ensures Insert(x, s, le) == [x] + s
  {}

  /** A label filter may be applied after the database has sorted, or before. */
  lemma {:induction false} FilterSort<T(!new)>(s: seq<T>, le: (T, T) -> bool, p: T -> bool)
    requires TotalPreorder(le)
    ensures Filter(Sort(s, le), p) == Sort(Filter(s, p), le)
  {
    if s != [] {
      FilterSort(s[1..], le, p);
      SortSorts(s[1..], le);
      FilterInsert(s[0], Sort(s[1..], le), le, p);
    }
  }

  /** Whatever the labels, the fetch is: the covered rows, arranged, and only then cut. */
  lemma RowsInScopeCutsLast(rows: seq<PgRow>, f: Scope, recent: bool, limit: Option<nat>)
    ensures RowsInScope(rows, f, recent, limit) == Cut(Arranged(Filter(rows, Covered(f)), recent), limit)
  {
    NewestFirstIsOrder();
    if f.labels == map[] {
      FilterSame(rows, InDims(f), Covered(f));
    } else {
      FilterSort(Filter(rows, InDims(f)), NewestFirst(), HasLabels(f));
      FilterTwice(rows, InDims(f), HasLabels(f), Covered(f));
    }
  }

  // -- lookups by primary key --------------------------------------------------------------

  lemma {:induction false} FindRowIn(rows: seq<PgRow>, tick: nat)
    ensures FindRow(rows, tick).Some? ==> FindRow(rows, tick).value in rows && FindRow(rows, tick).value.tick == tick
    ensures FindRow(rows, tick).None? ==> forall r | r in rows :: r.tick != tick
  {
    if rows != [] {
      FindRowIn(rows[1..], tick);
      assert rows == [rows[0]] + rows[1..];
    }
  }

  lemma {:induction false} FindRowOf(rows: seq<PgRow>, r: PgRow)
    requires DistinctTicks(rows) && r in rows
    ensures FindRow(rows, r.tick) == Some(r)
  {
    if rows[0] != r {
      assert r in rows[1..] by { assert rows == [rows[0]] + rows[1..]; }
      var i :| 0 < i < |rows| && rows[i] == r;
      assert rows[0].tick != rows[i].tick;
      FindRowOf(rows[1..], r);
    }
  }

  lemma {:induction false} FilterDistinct(rows: seq<PgRow>, p: PgRow -> bool)
    requires DistinctTicks(rows)
    ensures DistinctTicks(Filter(rows, p))
  {
    if rows != [] {
      FilterDistinct(rows[1..], p);
      var kept := Filter(rows[1..], p);
      if p(rows[0]) {
        forall j | 0 <= j < |kept|
          ensures kept[j].tick != rows[0].tick
        {
          FilterMember(rows[1..], p, kept[j]);
          var i :| 0 <= i < |rows[1..]| && rows[1..][i] == kept[j];
          assert rows[0].tick != rows[i + 1].tick;
        }
      }
    }
  }

  lemma FindRowFilter(rows: seq<PgRow>, p: PgRow -> bool, tick: nat)
    requires DistinctTicks(rows)
    ensures FindRow(Filter(rows, p), tick)
         == var found := FindRow(rows, tick); if found.Some? && p(found.value) then found else None
  {
    var kept, found := Filter(rows, p), FindRow(Filter(rows, p), tick);
    FilterDistinct(rows, p);
    FindRowIn(rows, tick);
    FindRowIn(kept, tick);
    if found.Some? {
      FilterMember(rows, p, found.value);
      FindRowOf(rows, found.value);
    } else if FindRow(rows, tick).Some? {
      FilterMember(rows, p, FindRow(rows, tick).value);
    }
  }

  lemma {:induction false} FindRowAppend(rows: seq<PgRow>, more: seq<PgRow>, tick: nat)
    ensures FindRow(rows + more, tick) == if FindRow(rows, tick).Some? then FindRow(rows, tick) else FindRow(more, tick)
  {
    if rows == [] {
      assert rows + more == more;
    } else {
      assert (rows + more)[1..] == rows[1..] + more;
      FindRowAppend(rows[1..], more, tick);
    }
  }

  // -- writes ---------------------------------------------------------------------------------

  /** INSERT: one row per fact, under the scope as stamped, one fresh id each. */
  function NewRows(facts: seq<string>, embed: string -> Vector, scope: Scope, ids: seq<nat>, now: nat): seq<PgRow>
    requires |facts| <= |ids|
  {
    if facts == [] then []
    else
      var n := |facts| - 1;
      NewRows(facts[..n], embed, scope, ids, now) + [PgRow(ids[n], scope, facts[n], embed(facts[n]), now, now)]
  }

  lemma {:induction false} NewRowsAt(facts: seq<string>, embed: string -> Vector, scope: Scope, ids: seq<nat>, now: nat)
    requires |facts| <= |ids|
    ensures var rows := NewRows(facts, embed, scope, ids, now);
            && |rows| == |facts|
            && forall i :: 0 <= i < |facts| ==> rows[i] == PgRow(ids[i], scope, facts[i], embed(facts[i]), now, now)
  {
    if facts != [] { NewRowsAt(facts[..|facts| - 1], embed, scope, ids, now); }
  }

  /** UPDATE by primary key. */
  function Edited(rows: seq<PgRow>, tick: nat, content: string, embedding: Vector, now: nat): seq<PgRow> {
    if rows == [] then []
    else
      [if rows[0].tick == tick then rows[0].(content := content, embedding := embedding, updatedAt := now) else rows[0]]
      + Edited(rows[1..], tick, content, embedding, now)
  }

  lemma {:induction false} EditedAt(rows: seq<PgRow>, tick: nat, content: string, embedding: Vector, now: nat)
    ensures var after := Edited(rows, tick, content, embedding, now);
            && |after| == |rows|
            && forall i :: 0 <= i < |rows| ==>
                 after[i] == (if rows[i].tick == tick
                              then rows[i].(content := content, embedding := embedding, updatedAt := now) else rows[i])
  {
    if rows != [] { EditedAt(rows[1..], tick, content, embedding, now); }
  }

  lemma {:induction false} FindRowEdited(rows: seq<PgRow>, tick: nat, content: string, embedding: Vector, now: nat,
                                         other: nat)
    ensures FindRow(Edited(rows, tick, content, embedding, now), other)
         == var found := FindRow(rows, other);
            if found.Some? && other == tick
            then Some(found.value.(content := content, embedding := embedding, updatedAt := now)) else found
  {
    if rows != [] {
      FindRowEdited(rows[1..], tick, content, embedding, now, other);
      assert Edited(rows, tick, content, embedding, now)[1..] == Edited(rows[1..], tick, content, embedding, now);
    }
  }

  lemma {:induction false} EditedAbsent(rows: seq<PgRow>, tick: nat, content: string, embedding: Vector, now: nat)
    requires forall r | r in rows :: r.tick != tick
    ensures Edited(rows, tick, content, embedding, now) == rows
  {
    if rows != [] {
      assert rows[0] in rows && forall r | r in rows[1..] :: r in rows;
      EditedAbsent(rows[1..], tick, content, embedding, now);
      assert rows == [rows[0]] + rows[1..];
    }
  }

  // -- search ------------------------------------------------------------------------------------

  type Scored = (real, PgRow)

  function WithScore(needle: Vector, sqrt: real -> real): PgRow -> Scored {
    (r: PgRow) => (Cosine(needle, r.embedding, sqrt), r)
  }

  function HighEnough(minScore: Option<real>): Scored -> bool {
    (s: Scored) => !(minScore.Some? && s.0 < minScore.value)
  }

  function BestFirst(): (Scored, Scored) -> bool { (a: Scored, b: Scored) => a.0 >= b.0 }

  /** The in-scope rows that reach the minimum score, scored, in fetch order. */
  function Eligible(rows: seq<PgRow>, f: Scope, needle: Vector, minScore: Option<real>,
                    sqrt: real -> real): seq<Scored> {
    Filter(Map(RowsInScope(rows, f, false, None), WithScore(needle, sqrt)), HighEnough(minScore))
  }

  /** Ranking in Python: score everything in scope, sort, cut. */
  function SearchInPython(rows: seq<PgRow>, f: Scope, needle: Vector, query: Query, sqrt: real -> real): seq<Scored> {
    Take(Sort(Eligible(rows, f, needle, query.minScore, sqrt), BestFirst()), query.limit)
  }

  function Hit(): Scored -> ProviderMemory { (s: Scored) => ToMemory(s.1, Some(s.0)) }

  /** Ranking in the database is by a distance. Where the distance is NaN the model says nothing useful. */
  function Distance(needle: Vector, row: Vector, sqrt: real -> real): real {
    if |needle| == |row| && sqrt(Dot(needle, needle)) * sqrt(Dot(row, row)) != 0.0
    then 1.0 - SqlSimilarity(needle, row, sqrt) else 0.0
  }

  function WithSimilarity(needle: Vector, sqrt: real -> real): PgRow -> Scored {
    (r: PgRow) => (1.0 - Distance(needle, r.embedding, sqrt), r)
  }

  function NearestFirst(needle: Vector, sqrt: real -> real): (Scored, Scored) -> bool {
    (a: Scored, b: Scored) => Distance(needle, a.1.embedding, sqrt) <= Distance(needle, b.1.embedding, sqrt)
  }

  function SqlEligible(rows: seq<PgRow>, f: Scope, needle: Vector, minScore: Option<real>,
                       sqrt: real -> real): seq<Scored> {
    Filter(Map(Filter(rows, InDims(f)), WithSimilarity(needle, sqrt)), HighEnough(minScore))
  }

  /** What ORDER BY distance LIMIT n may answer: the head of any arrangement of the eligible rows by distance. */
  ghost predicate IsSqlAnswer(rows: seq<PgRow>, f: Scope, needle: Vector, query: Query, sqrt: real -> real,
                              out: seq<Scored>) {
    exists arranged: seq<Scored> ::
      && multiset(arranged) == multiset(SqlEligible(rows, f, needle, query.minScore, sqrt))
      && SortedBy(arranged, NearestFirst(needle, sqrt))
      && out == Take(arranged, query.limit)
  }

  /** Vectors the cosine distance is defined on. */
  ghost predicate Comparable(needle: Vector, rows: seq<PgRow>) {
    NonZero(needle) && forall r | r in rows :: |r.embedding| == |needle| && NonZero(r.embedding)
  }

  lemma BestFirstIsOrder()
    ensures TotalPreorder(BestFirst())
  {}

  function WithExactly(score: real): Scored -> bool { (s: Scored) => s.0 == score }

  /** Rows of equal score stay in the order they were fetched in. */
  lemma TiesKeepOrder(found: seq<Scored>, score: real)
    ensures Filter(Sort(found, BestFirst()), WithExactly(score)) == Filter(found, WithExactly(score))
  {
    var tied := Filter(found, WithExactly(score));
    FilterSort(found, BestFirst(), WithExactly(score));
    forall i, j | 0 <= i < j < |tied|
      ensures BestFirst()(tied[i], tied[j])
    {
      FilterMember(found, WithExactly(score), tied[i]);
      FilterMember(found, WithExactly(score), tied[j]);
    }
    SortIdentity(tied, BestFirst());
  }

  lemma {:induction false} MapSame<T, U>(s: seq<T>, f: T -> U, g: T -> U)
    requires forall x | x in s :: f(x) == g(x)
    ensures Map(s, f) == Map(s, g)
  {
    if s != [] {
      assert s[0] in s && forall x | x in s[1..] :: x in s;
      MapSame(s[1..], f, g);
    }
  }

  lemma SimilarityIsScore(needle: Vector, rows: seq<PgRow>, r: PgRow, sqrt: real -> real)
    requires IsSqrt(sqrt) && Comparable(needle, rows) && r in rows
    ensures WithSimilarity(needle, sqrt)(r) == WithScore(needle, sqrt)(r)
    ensures Distance(needle, r.embedding, sqrt) == 1.0 - Cosine(needle, r.embedding, sqrt)
  {
    SqlSimilarityIsCosine(needle, r.embedding, sqrt);
  }

  lemma SqlEligibleIsEligible(rows: seq<PgRow>, f: Scope, needle: Vector, minScore: Option<real>, sqrt: real -> real)
    requires IsSqrt(sqrt) && Comparable(needle, Filter(rows, InDims(f))) && f.labels == map[]
    ensures SqlEligible(rows, f, needle, minScore, sqrt) == Eligible(rows, f, needle, minScore, sqrt)
  {
    var scoped := Filter(rows, InDims(f));
    forall r | r in scoped
      ensures WithSimilarity(needle, sqrt)(r) == WithScore(needle, sqrt)(r)
    {
      SimilarityIsScore(needle, scoped, r, sqrt);
    }
    MapSame(scoped, WithSimilarity(needle, sqrt), WithScore(needle, sqrt));
  }

  /** Every eligible entry is a row of the store with its own score. */
  lemma EligibleMember(rows: seq<PgRow>, f: Scope, needle: Vector, minScore: Option<real>, sqrt: real -> real,
                       s: Scored)
    requires s in Eligible(rows, f, needle, minScore, sqrt)
    ensures s.1 in rows && Covered(f)(s.1) && s.0 == Cosine(needle, s.1.embedding, sqrt)
    ensures minScore.Some? ==> s.0 >= minScore.value
  {
    var scoped := RowsInScope(rows, f, false, None);
    FilterMember(Map(scoped, WithScore(needle, sqrt)), HighEnough(minScore), s);
    var i :| 0 <= i < |scoped| && Map(scoped, WithScore(needle, sqrt))[i] == s;
    RowsInScopeCutsLast(rows, f, false, None);
    FilterMember(rows, Covered(f), scoped[i]);
  }

  lemma TakeOut<T>(a: seq<T>, x: T, b: seq<T>)
    ensures multiset(a + ([x] + b)) == multiset{x} + multiset(a + b)
  {}

  lemma MapRemove<T(!new), U(!new)>(a: seq<T>, x: T, b: seq<T>, f: T -> U)
    ensures multiset(Map(a + ([x] + b), f)) == multiset{f(x)} + multiset(Map(a + b, f))
  {
    MapAppend(a, [x] + b, f);
    MapAppend(a, b, f);
    assert ([x] + b)[1..] == b;
    TakeOut(Map(a, f), f(x), Map(b, f));
  }

  lemma PermutedTail<T>(x: T, rest: seq<T>, t: seq<T>) returns (a: seq<T>, b: seq<T>)
    requires multiset([x] + rest) == multiset(t)
    ensures t == a + ([x] + b) && multiset(rest) == multiset(a + b)
  {
    assert x in multiset([x] + rest);
    var i :| 0 <= i < |t| && t[i] == x;
    a, b := t[..i], t[i + 1..];
    assert t == a + ([x] + b);
    TakeOut(a, x, b);
    Cancel(x, multiset(rest), multiset(a + b)) by { assert multiset([x] + rest) == multiset{x} + multiset(rest); }
  }

  lemma Cancel<T>(x: T, m: multiset<T>, n: multiset<T>)
    requires multiset{x} + m == multiset{x} + n
    ensures m == n
  {
    assert m == multiset{x} + m - multiset{x} && n == multiset{x} + n - multiset{x};
  }

  lemma {:induction false} MapMultiset<T(!new), U(!new)>(s: seq<T>, t: seq<T>, f: T -> U)
    requires multiset(s) == multiset(t)
    ensures multiset(Map(s, f)) == multiset(Map(t, f))
    decreases |s|
  {
    if s == [] {
      assert |multiset(t)| == 0;
      assert t == [];
    } else {
      assert s == [s[0]] + s[1..];
      var a, b := PermutedTail(s[0], s[1..], t);
      MapMultiset(s[1..], a + b, f);
      MapRemove(a, s[0], b, f);
    }
  }

  lemma {:induction false} MapAppend<T, U>(s: seq<T>, t: seq<T>, f: T -> U)
    ensures Map(s + t, f) == Map(s, f) + Map(t, f)
  {
    if s == [] {
      assert s + t == t;
    } else {
      assert (s + t)[1..] == s[1..] + t;
      MapAppend(s[1..], t, f);
    }
  }

  /** The same rows fetched in another order are eligible in another order. */
  lemma EligibleMultiset(a: seq<PgRow>, b: seq<PgRow>, f: Scope, needle: Vector, minScore: Option<real>,
                         sqrt: real -> real)
    requires multiset(a) == multiset(b)
    ensures multiset(Eligible(a, f, needle, minScore, sqrt)) == multiset(Eligible(b, f, needle, minScore, sqrt))
  {
    RowsInScopeCutsLast(a, f, false, None);
    RowsInScopeCutsLast(b, f, false, None);
    FilterMultiset(a, b, Covered(f));
    MapMultiset(RowsInScope(a, f, false, None), RowsInScope(b, f, false, None), WithScore(needle, sqrt));
    FilterMultiset(Map(RowsInScope(a, f, false, None), WithScore(needle, sqrt)),
                   Map(RowsInScope(b, f, false, None), WithScore(needle, sqrt)), HighEnough(minScore));
  }

  /** An arrangement by distance is an arrangement by score. */
  lemma NearestIsBest(rows: seq<PgRow>, f: Scope, needle: Vector, minScore: Option<real>, sqrt: real -> real,
                      arranged: seq<Scored>)
    requires IsSqrt(sqrt) && Comparable(needle, Filter(rows, InDims(f)))
    requires multiset(arranged) == multiset(Eligible(rows, f, needle, minScore, sqrt))
    requires SortedBy(arranged, NearestFirst(needle, sqrt))
    ensures SortedBy(arranged, BestFirst())
  {
    forall s | s in arranged
      ensures Distance(needle, s.1.embedding, sqrt) == 1.0 - s.0
    {
      assert s in multiset(arranged);
      EligibleMember(rows, f, needle, minScore, sqrt, s);
      FilterMember(rows, InDims(f), s.1);
      SimilarityIsScore(needle, Filter(rows, InDims(f)), s.1, sqrt);
    }
    forall i, j | 0 <= i < j < |arranged|
      ensures BestFirst()(arranged[i], arranged[j])
    {
      assert NearestFirst(needle, sqrt)(arranged[i], arranged[j]);
    }
  }

  /** The two ranking paths agree, whatever order each fetched the rows in and whatever the table holds outside the
      searched dimensions: equal length, the same score at every position, and the same rows when no two scores are
      equal. */
  lemma SearchPathsAgree(sqlRows: seq<PgRow>, pyRows: seq<PgRow>, f: Scope, needle: Vector, query: Query,
                         sqrt: real -> real, sql: seq<Scored>)
    requires IsSqrt(sqrt) && Comparable(needle, Filter(sqlRows, InDims(f))) && f.labels == map[]
    requires multiset(sqlRows) == multiset(pyRows)
    requires IsSqlAnswer(sqlRows, f, needle, query, sqrt, sql)
    ensures var py := SearchInPython(pyRows, f, needle, query, sqrt);
            var eligible := Eligible(pyRows, f, needle, query.minScore, sqrt);
            && |sql| == |py| == Min(query.limit, |eligible|)
            && (forall i :: 0 <= i < |py| ==> py[i].0 == sql[i].0)
            && ((forall i, j :: 0 <= i < j < |eligible| ==> eligible[i].0 != eligible[j].0) ==> py == sql)
  {
    hide Comparable, IsSqrt, IsSqlAnswer, Eligible, Sort, BestFirst, SortedBy;
    var arranged := SqlArrangement(sqlRows, pyRows, f, needle, query, sqrt, sql);
    HeadsAgree(Eligible(pyRows, f, needle, query.minScore, sqrt), arranged, query.limit);
  }

  /** The arrangement behind a database answer, read as an arrangement by score of what Python would rank. */
  lemma SqlArrangement(sqlRows: seq<PgRow>, pyRows: seq<PgRow>, f: Scope, needle: Vector, query: Query,
                       sqrt: real -> real, sql: seq<Scored>) returns (arranged: seq<Scored>)
    requires IsSqrt(sqrt) && Comparable(needle, Filter(sqlRows, InDims(f))) && f.labels == map[]
    requires multiset(sqlRows) == multiset(pyRows)
    requires IsSqlAnswer(sqlRows, f, needle, query, sqrt, sql)
    ensures multiset(arranged) == multiset(Eligible(pyRows, f, needle, query.minScore, sqrt))
    ensures SortedBy(arranged, BestFirst()) && sql == Take(arranged, query.limit)
  {
    hide Comparable, IsSqrt, SqlEligible, Eligible, SortedBy, TotalPreorder, NearestFirst, BestFirst;
    arranged :| multiset(arranged) == multiset(SqlEligible(sqlRows, f, needle, query.minScore, sqrt))
      && SortedBy(arranged, NearestFirst(needle, sqrt)) && sql == Take(arranged, query.limit);
    SqlEligibleIsEligible(sqlRows, f, needle, query.minScore, sqrt);
    EligibleMultiset(sqlRows, pyRows, f, needle, query.minScore, sqrt);
    NearestIsBest(sqlRows, f, needle, query.minScore, sqrt, arranged);
  }

  lemma HeadsAgree(eligible: seq<Scored>, arranged: seq<Scored>, limit: nat)
    requires multiset(arranged) == multiset(eligible) && SortedBy(arranged, BestFirst())
    ensures var py, sql := Take(Sort(eligible, BestFirst()), limit), Take(arranged, limit);
            && |sql| == |py| == Min(limit, |eligible|)
            && (forall i :: 0 <= i < |py| ==> py[i].0 == sql[i].0)
            && ((forall i, j :: 0 <= i < j < |eligible| ==> eligible[i].0 != eligible[j].0) ==> py == sql)
  {
    hide SortedBy, Sort, BestFirst;
    SortPermutes(eligible, BestFirst());
    ArrangementsAgree(eligible, arranged);
  }

  lemma ArrangementsAgree(eligible: seq<Scored>, arranged: seq<Scored>)
    requires multiset(arranged) == multiset(eligible) && SortedBy(arranged, BestFirst())
    ensures var sorted := Sort(eligible, BestFirst());
            && |sorted| == |arranged|
            && (forall i :: 0 <= i < |sorted| ==> sorted[i].0 == arranged[i].0)
            && ((forall i, j :: 0 <= i < j < |eligible| ==> eligible[i].0 != eligible[j].0) ==> sorted == arranged)
  {
    var sorted := Sort(eligible, BestFirst());
    BestFirstIsOrder();
    SortSorts(eligible, BestFirst());
    SortPermutes(eligible, BestFirst());
    SortedAgree(sorted, arranged, BestFirst());
    forall i | 0 <= i < |sorted|
      ensures sorted[i].0 == arranged[i].0
      ensures sorted[i] in eligible && arranged[i] in eligible
    {
      assert BestFirst()(sorted[i], arranged[i]) && BestFirst()(arranged[i], sorted[i]);
      assert sorted[i] in multiset(eligible) && arranged[i] in multiset(arranged);
    }
    if forall i, j :: 0 <= i < j < |eligible| ==> eligible[i].0 != eligible[j].0 {
      forall i | 0 <= i < |sorted|
        ensures sorted[i] == arranged[i]
      {
        SameScoreSameRow(eligible, sorted[i], arranged[i]);
      }
    }
  }

  lemma SameScoreSameRow(eligible: seq<Scored>, s: Scored, t: Scored)
    requires forall i, j :: 0 <= i < j < |eligible| ==> eligible[i].0 != eligible[j].0
    requires s in eligible && t in eligible && s.0 == t.0
    ensures s == t
  {
    var a :| 0 <= a < |eligible| && eligible[a] == s;
    var b :| 0 <= b < |eligible| && eligible[b] == t;
  }

  /** No row left out of an answer beats one that is in it. */
  lemma SearchOmitsNoBetter(rows: seq<PgRow>, f: Scope, needle: Vector, query: Query, sqrt: real -> real,
                            omitted: Scored, i: nat)
    requires i < |SearchInPython(rows, f, needle, query, sqrt)|
    requires multiset(Eligible(rows, f, needle, query.minScore, sqrt))[omitted]
           > multiset(SearchInPython(rows, f, needle, query, sqrt))[omitted]
    ensures SearchInPython(rows, f, needle, query, sqrt)[i].0 >= omitted.0
  {
    var eligible := Eligible(rows, f, needle, query.minScore, sqrt);
    var sorted, py := Sort(eligible, BestFirst()), SearchInPython(rows, f, needle, query, sqrt);
    BestFirstIsOrder();
    SortSorts(eligible, BestFirst());
    SortPermutes(eligible, BestFirst());
    assert sorted == py + sorted[|py|..];
    assert omitted in sorted[|py|..];
    var j :| |py| <= j < |sorted| && sorted[j] == omitted;
    assert BestFirst()(sorted[i], sorted[j]);
  }

  // -- delete by scope -------------------------------------------------------------------------------

  function TickOf(): PgRow -> nat { (r: PgRow) => r.tick }

  /** Deleting the ids of the covered rows deletes the covered rows: the primary key makes ids speak for rows. */
  lemma DeleteByIdsIsDeleteByScope(rows: seq<PgRow>, f: Scope)
    requires DistinctTicks(rows)
    ensures Filter(rows, NotAmong(Map(RowsInScope(rows, f, false, None), TickOf()))) == Filter(rows, Uncovered(f))
  {
    var scoped := RowsInScope(rows, f, false, None);
    var doomed := Map(scoped, TickOf());
    RowsInScopeCutsLast(rows, f, false, None);
    forall r | r in rows
      ensures NotAmong(doomed)(r) == Uncovered(f)(r)
    {
      FilterMember(rows, Covered(f), r);
      if Covered(f)(r) {
        var i :| 0 <= i < |scoped| && scoped[i] == r;
        assert doomed[i] == r.tick;
      } else if r.tick in doomed {
        var i :| 0 <= i < |doomed| && doomed[i] == r.tick;
        FilterMember(rows, Covered(f), scoped[i]);
        FindRowOf(rows, r);
        FindRowOf(rows, scoped[i]);
        assert false;
      }
    }
    FilterSame(rows, NotAmong(doomed), Uncovered(f));
  }

  lemma CoveredSplit(rows: seq<PgRow>, f: Scope)
    ensures |Filter(rows, Covered(f))| + |Filter(rows, Uncovered(f))| == |rows|
  {
    FilterSplits(rows, Covered(f), Uncovered(f));
  }
}
