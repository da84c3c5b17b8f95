/** Mem0: a remote list of memories reached through capped listings, and the erasure that drains it page after page. */
module Mem0Store {
  import opened Prelude
  import opened Scopes

  /** What one listing returns at most. */
  const PAGE := 1000

  /** The scope is the one the memory was written under. An empty content stands for an item with no text at all. */
  datatype Mem0Row = Mem0Row(id: string, scope: Scope, content: string)

  ghost predicate UniqueIds(rows: seq<Mem0Row>) {
    forall i, j :: 0 <= i < j < |rows| ==> rows[i].id != rows[j].id
  }

  function Matching(filters: map<string, string>): Mem0Row -> bool {
    (r: Mem0Row) => FilterMatches(filters, WriteIds(r.scope))
  }

  function Unmatched(filters: map<string, string>): Mem0Row -> bool {
    (r: Mem0Row) => !FilterMatches(filters, WriteIds(r.scope))
  }

  function HasContent(): Mem0Row -> bool { (r: Mem0Row) => r.content != "" }

  function IdNotIn(ids: set<string>): Mem0Row -> bool { (r: Mem0Row) => r.id !in ids }

  /** Mem0's side: a listing gives as many matching items as the cap allows, each once; which ones is its own affair. */
  class Mem0Client {
    var rows: seq<Mem0Row>

    constructor (rows: seq<Mem0Row>)
      ensures this.rows == rows
    {
      this.rows := rows;
    }

    method GetAll(filters: map<string, string>, topK: nat) returns (page: seq<Mem0Row>)
      requires UniqueIds(rows)
      ensures |page| == Min(topK, |Filter(rows, Matching(filters))|) && UniqueIds(page)
      ensures forall r | r in page :: r in rows && Matching(filters)(r)
    {
      var all := Filter(rows, Matching(filters));
      FilterUnique(rows, Matching(filters));
      page := Take(all, topK);
      forall r | r in page
        ensures r in rows && Matching(filters)(r)
      {
        FilterMember(rows, Matching(filters), r);
      }
    }

    method Delete(id: string)
      modifies this
      ensures rows == Filter(old(rows), IdNotIn({id}))
    {
      rows := Filter(rows, IdNotIn({id}));
    }
  }

  class Mem0Adapter {
    const client: Mem0Client

    constructor (client: Mem0Client)
      ensures this.client == client
    {
      this.client := client;
    }

    /** Delete every item of a page; the rest of the list keeps its order. */
    method DeletePage(page: seq<Mem0Row>)
      requires UniqueIds(client.rows) && UniqueIds(page) && forall r | r in page :: r in client.rows
      modifies client
      ensures client.rows == Filter(old(client.rows), IdNotIn(IdsOf(page)))
      ensures |client.rows| + |page| == |old(client.rows)| && UniqueIds(client.rows)
    {
      FilterAll(client.rows, IdNotIn(IdsOf(page[..0])));
      for i := 0 to |page|
        invariant UniqueIds(client.rows) && |client.rows| + i == |old(client.rows)|
        invariant client.rows == Filter(old(client.rows), IdNotIn(IdsOf(page[..i])))
      {
        StillThere(old(client.rows), page, i);
        FilterOut(client.rows, page[i]);
        FilterUnique(client.rows, IdNotIn({page[i].id}));
        FilterFurther(old(client.rows), page, i);
        client.Delete(page[i].id);
      }
      assert page[..|page|] == page;
    }

    /** Enumerate then delete, until a listing comes back short. */
    method DeleteScope(scope: Scope) returns (removed: nat, ghost gone: set<string>)
      requires UniqueIds(client.rows)
      modifies client
      ensures removed + |client.rows| == |old(client.rows)|
      ensures client.rows == Filter(old(client.rows), IdNotIn(gone))
      ensures var filters := BuildFilters(scope);
              && (forall r | r in old(client.rows) && r.id in gone :: Matching(filters)(r) && HasContent()(r))
              && (Drained(client.rows, filters) <==> Readable(old(client.rows), filters))
              && (Drained(client.rows, filters) ==>
                    client.rows == Filter(old(client.rows), Unmatched(filters))
                    && removed == |Filter(old(client.rows), Matching(filters))|)
              && (|Filter(old(client.rows), Matching(filters))| <= PAGE ==>
                    client.rows == Filter(old(client.rows), Skipped(filters)))
      ensures AllStamped(scope, old(client.rows)) && Readable(old(client.rows), BuildFilters(scope)) ==>
                (client.rows == Filter(old(client.rows), NotCovered(scope)) <==>
                   MatchesCovered(old(client.rows), scope))
    {
      hide Filter, BuildFilters, Drained, Readable, MatchesCovered, AllStamped;
      var filters := BuildFilters(scope);
      removed, gone := 0, {};
      FilterAll(client.rows, IdNotIn({}));
      while true
        invariant UniqueIds(client.rows) && removed + |client.rows| == |old(client.rows)|
        invariant client.rows == Filter(old(client.rows), IdNotIn(gone))
        invariant forall r | r in old(client.rows) && r.id in gone :: Matching(filters)(r) && HasContent()(r)
        decreases |client.rows|
      {
        var raw := client.GetAll(filters, PAGE);
        var page := Filter(raw, HasContent());
        PageFacts(old(client.rows), gone, client.rows, raw, filters);
        if page == [] {
          assert gone + {} == gone;
          DrainEnds(old(client.rows), gone, client.rows, raw, {}, client.rows, filters);
          DrainErases(scope, old(client.rows), client.rows);
          return;
        }
        ghost var before, earlier := client.rows, gone;
        DeletePage(page);
        removed := removed + |page|;
        FilterGone(old(client.rows), gone, IdsOf(page));
        gone := gone + IdsOf(page);
        if |page| < PAGE {
          DrainEnds(old(client.rows), earlier, before, raw, IdsOf(page), client.rows, filters);
          DrainErases(scope, old(client.rows), client.rows);
          return;
        }
      }
    }
  }

  /** The drain over rows given outright. */
  method Drain(rows: seq<Mem0Row>, scope: Scope) returns (removed: nat, left: seq<Mem0Row>)
    requires UniqueIds(rows)
    ensures removed + |left| == |rows|
    ensures Drained(left, BuildFilters(scope)) <==> Readable(rows, BuildFilters(scope))
    ensures Drained(left, BuildFilters(scope)) ==> left == Filter(rows, Unmatched(BuildFilters(scope)))
    ensures |Filter(rows, Matching(BuildFilters(scope)))| <= PAGE ==> left == Filter(rows, Skipped(BuildFilters(scope)))
    ensures AllStamped(scope, rows) && Readable(rows, BuildFilters(scope)) ==>
              (left == Filter(rows, NotCovered(scope)) <==> MatchesCovered(rows, scope))
  {
    var client := new Mem0Client(rows);
    var adapter := new Mem0Adapter(client);
    ghost var gone: set<string>;
    removed, gone := adapter.DeleteScope(scope);
    left := client.rows;
  }

  /** An erasure by a label takes a memory that does not carry it. */
  method LabelledDrainTakesTooMuch() returns (removed: nat, left: seq<Mem0Row>)
    ensures var row, scope := Mem0Row("m", TenantScope("t", "u"), "tea"),
            TenantScope("t", "u").(labels := map["k" := "v"]);
            !Covers(scope, row.scope) && removed == 1 && row !in left
  {
    var row, scope := Mem0Row("m", TenantScope("t", "u"), "tea"), TenantScope("t", "u").(labels := map["k" := "v"]);
    SoleRow(row, scope);
    removed, left := Drain([row], scope);
    assert "k" in scope.labels;
  }

  /** An erasure for an agent called "*" takes the memory of another agent. */
  method WildcardNameTakesTooMuch() returns (removed: nat, left: seq<Mem0Row>)
    ensures var row, scope := Mem0Row("m", TenantScope("t", "u").(agent := Some("x")), "tea"),
            TenantScope("t", "u").(agent := Some(ANY));
            scope.labels == map[] && !Covers(scope, row.scope) && removed == 1 && row !in left
  {
    var scope := TenantScope("t", "u").(agent := Some(ANY));
    var row := Mem0Row("m", Elsewhere(scope), "tea");
    Impostor(scope);
    SoleMatch(row, scope);
    removed, left := Drain([row], scope);
  }

  /** One memory without text: the drain sees nothing to delete, reports nothing removed, and leaves it. */
  method EmptyContentStopsTheDrain() returns (removed: nat, left: seq<Mem0Row>)
    ensures var row, scope := Mem0Row("m", TenantScope("t", "u"), ""), TenantScope("t", "u");
            Covers(scope, row.scope) && removed == 0 && left == [row]
  {
    var row, scope := Mem0Row("m", TenantScope("t", "u"), ""), TenantScope("t", "u");
    SoleRow(row, scope);
    removed, left := Drain([row], scope);
  }

  lemma SoleRow(row: Mem0Row, scope: Scope)
    requires row.scope == TenantScope("t", "u") && scope == TenantScope("t", "u").(labels := scope.labels)
    ensures CoversDims(scope, row.scope) && UniqueIds([row])
    ensures Filter([row], Matching(BuildFilters(scope))) == [row]
    ensures Filter([row], Skipped(BuildFilters(scope))) == if row.content == "" then [row] else []
  {
    SoleMatch(row, scope);
  }

  lemma SoleMatch(row: Mem0Row, scope: Scope)
    requires Matching(BuildFilters(scope))(row)
    ensures UniqueIds([row]) && Filter([row], Matching(BuildFilters(scope))) == [row]
    ensures Filter([row], Skipped(BuildFilters(scope))) == if row.content == "" then [row] else []
  {
    assert [row][1..] == [];
  }

  function IdsOf(rows: seq<Mem0Row>): set<string> { set r | r in rows :: r.id }

  /** Nothing the filter matches is left. */
  ghost predicate Drained(rows: seq<Mem0Row>, filters: map<string, string>) {
    forall r | r in rows :: !Matching(filters)(r)
  }

  /** Everything the filter matches has content. */
  ghost predicate Readable(rows: seq<Mem0Row>, filters: map<string, string>) {
    forall r | r in rows && Matching(filters)(r) :: HasContent()(r)
  }

  /** All but what the filter matches and the adapter can see. */
  function Skipped(filters: map<string, string>): Mem0Row -> bool {
    (r: Mem0Row) => !(FilterMatches(filters, WriteIds(r.scope)) && r.content != "")
  }

  /** What an erasure should leave. */
  ghost function NotCovered(scope: Scope): Mem0Row -> bool { (r: Mem0Row) => !Covers(scope, r.scope) }

  ghost predicate AllStamped(scope: Scope, rows: seq<Mem0Row>) {
    Stamped(scope) && forall r | r in rows :: Stamped(r.scope)
  }

  /** Everything the filter matches is covered. */
  ghost predicate MatchesCovered(rows: seq<Mem0Row>, scope: Scope) {
    forall r | r in rows && Matching(BuildFilters(scope))(r) :: Covers(scope, r.scope)
  }

  /** Every memory in the dimensions of the erasure carries its labels. */
  ghost predicate LabelsHeld(rows: seq<Mem0Row>, scope: Scope) {
    forall r | r in rows && CoversDims(scope, r.scope) :: CoversLabels(scope, r.scope)
  }

  /** Neither agent nor session is the wildcard's own name. */
  predicate NoWildcardNames(scope: Scope) { scope.agent != Some(ANY) && scope.session != Some(ANY) }

  // -- lists with unique ids --------------------------------------------------------------

  lemma {:induction false} FilterUnique(rows: seq<Mem0Row>, p: Mem0Row -> bool)
    requires UniqueIds(rows)
    ensures UniqueIds(Filter(rows, p))
  {
    if rows != [] {
      FilterUnique(rows[1..], p);
      var kept := Filter(rows[1..], p);
      forall j | 0 <= j < |kept|
        ensures kept[j].id != rows[0].id
      {
        FilterMember(rows[1..], p, kept[j]);
        var i :| 0 <= i < |rows[1..]| && rows[1..][i] == kept[j];
        assert rows[0].id != rows[i + 1].id;
      }
    }
  }

  lemma SameIdSameRow(rows: seq<Mem0Row>, r: Mem0Row, s: Mem0Row)
    requires UniqueIds(rows) && r in rows && s in rows && r.id == s.id
    ensures r == s
  {
    var i :| 0 <= i < |rows| && rows[i] == r;
    var j :| 0 <= j < |rows| && rows[j] == s;
  }

  /** Deleting one id removes just its item. */
  lemma FilterOut(rows: seq<Mem0Row>, r: Mem0Row)
    requires UniqueIds(rows) && r in rows
    ensures |Filter(rows, IdNotIn({r.id}))| == |rows| - 1
  {
    var only := (s: Mem0Row) => s.id == r.id;
    FilterSplits(rows, only, IdNotIn({r.id}));
    FilterUnique(rows, only);
    var hits := Filter(rows, only);
    FilterMember(rows, only, r);
    forall i | 0 <= i < |hits| ensures hits[i].id == r.id { FilterMember(rows, only, hits[i]); }
    UniqueCount(hits);
    assert r in hits;
    assert IdsOf(hits) == {r.id};
  }

  lemma StillThere(rows: seq<Mem0Row>, page: seq<Mem0Row>, i: nat)
    requires UniqueIds(page) && i < |page| && page[i] in rows
    ensures page[i] in Filter(rows, IdNotIn(IdsOf(page[..i])))
  {
    FilterMember(rows, IdNotIn(IdsOf(page[..i])), page[i]);
  }

  lemma FilterFurther(rows: seq<Mem0Row>, page: seq<Mem0Row>, i: nat)
    requires i < |page|
    ensures Filter(Filter(rows, IdNotIn(IdsOf(page[..i]))), IdNotIn({page[i].id}))
            == Filter(rows, IdNotIn(IdsOf(page[..i + 1])))
  {
    assert page[..i + 1] == page[..i] + [page[i]];
    assert IdsOf(page[..i + 1]) == IdsOf(page[..i]) + {page[i].id};
    FilterGone(rows, IdsOf(page[..i]), {page[i].id});
  }

  lemma {:induction false} FilterGone(rows: seq<Mem0Row>, a: set<string>, b: set<string>)
    ensures Filter(Filter(rows, IdNotIn(a)), IdNotIn(b)) == Filter(rows, IdNotIn(a + b))
  {
    if rows != [] { FilterGone(rows[1..], a, b); }
  }

  // -- the drain --------------------------------------------------------------------------------

  /** The readable part of a listing: unique, present, matching, and not deleted before. */
  lemma PageFacts(origin: seq<Mem0Row>, gone: set<string>, rows: seq<Mem0Row>, raw: seq<Mem0Row>,
                  filters: map<string, string>)
    requires UniqueIds(origin) && rows == Filter(origin, IdNotIn(gone)) && UniqueIds(raw)
    requires forall r | r in raw :: r in rows && Matching(filters)(r)
    ensures var page := Filter(raw, HasContent());
            && UniqueIds(page) && (forall r | r in page :: r in rows)
            && forall r | r in origin && r.id in IdsOf(page) :: Matching(filters)(r) && HasContent()(r)
  {
    var page := Filter(raw, HasContent());
    FilterUnique(raw, HasContent());
    forall r | r in page
      ensures r in rows && r in origin && Matching(filters)(r) && HasContent()(r)
    {
      FilterMember(raw, HasContent(), r);
      FilterMember(origin, IdNotIn(gone), r);
    }
    forall r | r in origin && r.id in IdsOf(page)
      ensures Matching(filters)(r) && HasContent()(r)
    {
      var s :| s in page && s.id == r.id;
      SameIdSameRow(origin, r, s);
    }
  }

  lemma {:induction false} UniqueCount(rows: seq<Mem0Row>)
    requires UniqueIds(rows)
    ensures |IdsOf(rows)| == |rows|
  {
    if rows != [] {
      UniqueCount(rows[1..]);
      assert rows == [rows[0]] + rows[1..];
      assert IdsOf(rows) == {rows[0].id} + IdsOf(rows[1..]);
      assert rows[0].id !in IdsOf(rows[1..]);
    }
  }

  /** A listing shorter than its cap showed everything there was. */
  lemma ShortListingIsWhole(rows: seq<Mem0Row>, raw: seq<Mem0Row>, filters: map<string, string>, r: Mem0Row)
    requires UniqueIds(rows) && UniqueIds(raw) && |raw| == |Filter(rows, Matching(filters))|
    requires forall s | s in raw :: s in rows && Matching(filters)(s)
    requires r in rows && Matching(filters)(r)
    ensures r.id in IdsOf(raw)
  {
    var all := Filter(rows, Matching(filters));
    FilterUnique(rows, Matching(filters));
    UniqueCount(raw);
    UniqueCount(all);
    forall s | s in raw ensures s in all { FilterMember(rows, Matching(filters), s); }
    FilterMember(rows, Matching(filters), r);
    SubsetOfSameSize(IdsOf(raw), IdsOf(all));
  }

  lemma SubsetOfSameSize(a: set<string>, b: set<string>)
    requires a <= b && |a| == |b|
    ensures a == b
  {
    assert b == a + (b - a);
  }

  /** At a short page: everything matched is gone if and only if everything matched had content. */
  lemma DrainEnds(origin: seq<Mem0Row>, gone: set<string>, rows: seq<Mem0Row>, raw: seq<Mem0Row>, page: set<string>,
                  left: seq<Mem0Row>, filters: map<string, string>)
    requires UniqueIds(origin) && UniqueIds(rows) && rows == Filter(origin, IdNotIn(gone)) && UniqueIds(raw)
    requires |raw| == Min(PAGE, |Filter(rows, Matching(filters))|)
    requires forall r | r in raw :: r in rows && Matching(filters)(r)
    requires page == IdsOf(Filter(raw, HasContent())) && |Filter(raw, HasContent())| < PAGE
    requires left == Filter(origin, IdNotIn(gone + page))
    requires forall r | r in origin && r.id in gone + page :: Matching(filters)(r) && HasContent()(r)
    ensures Drained(left, filters) <==> Readable(origin, filters)
    ensures Drained(left, filters) ==>
              left == Filter(origin, Unmatched(filters)) && |Filter(origin, Matching(filters))| + |left| == |origin|
    ensures |Filter(origin, Matching(filters))| <= PAGE ==> left == Filter(origin, Skipped(filters))
  {
    if |Filter(origin, Matching(filters))| <= PAGE {
      OnePageSkipsOnly(origin, gone, rows, raw, page, left, filters);
    }
    if Readable(origin, filters) {
      ReadableDrains(origin, gone, rows, raw, page, left, filters);
    }
    if r :| r in origin && Matching(filters)(r) && !HasContent()(r) {
      FilterMember(origin, IdNotIn(gone + page), r);
    }
    if Drained(left, filters) {
      forall r | r in origin
        ensures IdNotIn(gone + page)(r) == Unmatched(filters)(r)
      {
        FilterMember(origin, IdNotIn(gone + page), r);
      }
      FilterSame(origin, IdNotIn(gone + page), Unmatched(filters));
      FilterSplits(origin, Matching(filters), Unmatched(filters));
    }
  }

  /** When the scope fits one listing, nothing with content is missed: only items without text are left. */
  lemma OnePageSkipsOnly(origin: seq<Mem0Row>, gone: set<string>, rows: seq<Mem0Row>, raw: seq<Mem0Row>,
                         page: set<string>,
                         left: seq<Mem0Row>, filters: map<string, string>)
    requires UniqueIds(rows) && rows == Filter(origin, IdNotIn(gone)) && UniqueIds(raw)
    requires |raw| == Min(PAGE, |Filter(rows, Matching(filters))|)
    requires forall r | r in raw :: r in rows && Matching(filters)(r)
    requires page == IdsOf(Filter(raw, HasContent()))
    requires left == Filter(origin, IdNotIn(gone + page))
    requires forall r | r in origin && r.id in gone + page :: Matching(filters)(r) && HasContent()(r)
    requires |Filter(origin, Matching(filters))| <= PAGE
    ensures left == Filter(origin, Skipped(filters))
  {
    FilterCommutes(origin, IdNotIn(gone), Matching(filters));
    FilterLength(Filter(origin, Matching(filters)), IdNotIn(gone));
    forall r | r in origin
      ensures IdNotIn(gone + page)(r) == Skipped(filters)(r)
    {
      if r.id !in gone && Matching(filters)(r) && HasContent()(r) {
        FilterMember(origin, IdNotIn(gone), r);
        ShortListingIsWhole(rows, raw, filters, r);
        var s :| s in raw && s.id == r.id;
        FilterMember(raw, HasContent(), s);
        SameIdSameRow(rows, r, s);
      }
    }
    FilterSame(origin, IdNotIn(gone + page), Skipped(filters));
  }

  lemma {:induction false} FilterLength(rows: seq<Mem0Row>, p: Mem0Row -> bool)
    ensures |Filter(rows, p)| <= |rows|
  {
    if rows != [] { FilterLength(rows[1..], p); }
  }

  lemma ReadableDrains(origin: seq<Mem0Row>, gone: set<string>, rows: seq<Mem0Row>, raw: seq<Mem0Row>,
                       page: set<string>,
                       left: seq<Mem0Row>, filters: map<string, string>)
    requires UniqueIds(rows) && rows == Filter(origin, IdNotIn(gone)) && UniqueIds(raw)
    requires |raw| == Min(PAGE, |Filter(rows, Matching(filters))|)
    requires forall r | r in raw :: r in rows && Matching(filters)(r)
    requires page == IdsOf(Filter(raw, HasContent())) && |Filter(raw, HasContent())| < PAGE
    requires left == Filter(origin, IdNotIn(gone + page)) && Readable(origin, filters)
    ensures Drained(left, filters)
  {
    forall r | r in raw
      ensures HasContent()(r)
    {
      FilterMember(origin, IdNotIn(gone), r);
    }
    FilterAll(raw, HasContent());
    forall r | r in left
      ensures !Matching(filters)(r)
    {
      FilterMember(origin, IdNotIn(gone + page), r);
      FilterMember(origin, IdNotIn(gone), r);
      if Matching(filters)(r) {
        ShortListingIsWhole(rows, raw, filters, r);
      }
    }
  }

  // -- against the covering relation ----------------------------------------------------------------

  /** Mem0's filter never names labels, and takes an agent or session called "*" for any. A full drain takes whatever
      the filter matches: exactly what the erasure covers if and only if everything it matches is covered. */
  lemma DrainErases(scope: Scope, origin: seq<Mem0Row>, left: seq<Mem0Row>)
    requires Drained(left, BuildFilters(scope)) ==> left == Filter(origin, Unmatched(BuildFilters(scope)))
    requires Drained(left, BuildFilters(scope)) <==> Readable(origin, BuildFilters(scope))
    ensures AllStamped(scope, origin) && Readable(origin, BuildFilters(scope)) ==>
              (left == Filter(origin, NotCovered(scope)) <==> MatchesCovered(origin, scope))
  {
    if AllStamped(scope, origin) && Readable(origin, BuildFilters(scope)) {
      var filters := BuildFilters(scope);
      forall r | r in origin && Covers(scope, r.scope)
        ensures Matching(filters)(r)
      {
        CoveredMatches(scope, r.scope);
      }
      if MatchesCovered(origin, scope) {
        FilterSame(origin, Unmatched(filters), NotCovered(scope));
      } else {
        var r :| r in origin && Matching(filters)(r) && !Covers(scope, r.scope);
        FilterMember(origin, NotCovered(scope), r);
        FilterMember(origin, Unmatched(filters), r);
      }
    }
  }

  /** What is covered is always matched. */
  lemma CoveredMatches(filter: Scope, row: Scope)
    requires Stamped(filter) && Stamped(row) && CoversDims(filter, row)
    ensures FilterMatches(BuildFilters(filter), WriteIds(row))
  {
    Mem0FilterCovers(filter, row);
    var open := OpenWildcards(filter);
    forall d | d in open.Dims()
      ensures row.Column(d) == Some(open.Dims()[d])
    {
      assert d in filter.Dims() && filter.Dims()[d] == open.Dims()[d];
    }
  }

  /** Before the call: the filter matches just what the dimensions cover, for every stamped memory there could be, if
      and only if neither agent nor session is called "*". */
  lemma FilterIsCoverIff(filter: Scope)
    requires Stamped(filter)
    ensures (forall row | Stamped(row) ::
             FilterMatches(BuildFilters(filter), WriteIds(row)) <==> CoversDims(filter, row)) <==>
              NoWildcardNames(filter)
  {
    if NoWildcardNames(filter) {
      assert OpenWildcards(filter) == filter;
      forall row | Stamped(row)
        ensures FilterMatches(BuildFilters(filter), WriteIds(row)) <==> CoversDims(filter, row)
      {
        Mem0FilterCovers(filter, row);
      }
    } else {
      Impostor(filter);
    }
  }

  /** Somebody else's memory, matched by a name that reads as a wildcard. */
  lemma Impostor(filter: Scope)
    requires Stamped(filter) && !NoWildcardNames(filter)
    ensures var row := Elsewhere(filter);
            Stamped(row) && FilterMatches(BuildFilters(filter), WriteIds(row)) && !CoversDims(filter, row)
  {
    var row := Elsewhere(filter);
    if filter.agent == Some(ANY) {
      assert Agent in filter.Dims() && filter.Dims()[Agent] == ANY && row.Column(Agent) == Some("x");
    } else {
      assert Session in filter.Dims() && filter.Dims()[Session] == ANY && row.Column(Session) == Some("x");
    }
  }

  function Elsewhere(filter: Scope): Scope {
    filter.(agent := if filter.agent == Some(ANY) then Some("x") else filter.agent,
            session := if filter.session == Some(ANY) then Some("x") else filter.session)
  }

  /** With neither name a wildcard's, labels alone decide whether everything matched is covered. */
  lemma MatchesCoveredIff(scope: Scope, rows: seq<Mem0Row>)
    requires AllStamped(scope, rows) && NoWildcardNames(scope)
    ensures MatchesCovered(rows, scope) <==> LabelsHeld(rows, scope)
  {
    FilterIsCoverIff(scope);
  }
}
