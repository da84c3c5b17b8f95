/** What listing, getting and erasing tell the caller, in terms of the plain map of memories. */
module Listing {
  import opened Prelude
  import opened Scopes
  import opened MemoryIndex
  import opened Vectors
  import opened Pgvector
  import opened Gateway
  import opened GatewayInvariant
  import opened Runs
  import opened Refinement

  // -- what callers are told ------------------------------------------------------------------

  /** A read echoes the stored dimensions; labels and tenant stay inside. */
  function SpecRecord(k: Key, m: Memory): Record {
    Record(m.id, k.provider, k.native, m.content, Scope(m.scope.subject, m.scope.agent, m.scope.session, map[], None),
           None, m.createdAt, m.updatedAt)
  }

  ghost predicate InPageScope(mem: Memories, name: string, bound: Scope, k: Key) {
    k in mem && k.provider == name && k.native.Minted? && Covers(bound, mem[k].scope)
  }

  ghost predicate Newer(mem: Memories, k: Key, l: Key) {
    && k in mem && l in mem && k.native.Minted? && l.native.Minted?
    && (mem[k].createdAt > mem[l].createdAt || (mem[k].createdAt == mem[l].createdAt && k.native.tick <= l.native.tick))
  }

  /** The covered memories, newest first, as many as the limit allows, and nothing older in place of something newer. */
  ghost predicate IsNewestPage(mem: Memories, name: string, bound: Scope, limit: nat, keys: seq<Key>) {
    && |keys| <= limit && Distinct(keys)
    && (forall i | 0 <= i < |keys| :: InPageScope(mem, name, bound, keys[i]))
    && (forall i, j | 0 <= i < j < |keys| :: Newer(mem, keys[i], keys[j]))
    && (forall k | InPageScope(mem, name, bound, k) && k !in keys ::
          |keys| == limit && forall i | 0 <= i < |keys| :: Newer(mem, keys[i], k))
  }

  /** The specification of a listing has one solution. */
  lemma NewestPageUnique(mem: Memories, name: string, bound: Scope, limit: nat, a: seq<Key>, b: seq<Key>)
    requires IsNewestPage(mem, name, bound, limit, a) && IsNewestPage(mem, name, bound, limit, b)
    requires forall k, l | k in mem && l in mem && k.provider == l.provider && k.native == l.native :: k == l
    ensures a == b
  {
    NewestPagePrefix(mem, name, bound, limit, a, b, |a|);
    NewestPageLength(mem, name, bound, limit, a, b);
    NewestPageLength(mem, name, bound, limit, b, a);
  }

  lemma NewestPageLength(mem: Memories, name: string, bound: Scope, limit: nat, a: seq<Key>, b: seq<Key>)
    requires IsNewestPage(mem, name, bound, limit, a) && IsNewestPage(mem, name, bound, limit, b)
    requires forall i | 0 <= i < |a| && i < |b| :: a[i] == b[i]
    ensures |b| <= |a|
  {
    if |a| < |b| {
      var k := ExtraKey(a, b);
    }
  }

  lemma ExtraKey(a: seq<Key>, b: seq<Key>) returns (k: Key)
    requires |a| < |b| && Distinct(b) && forall i | 0 <= i < |a| :: a[i] == b[i]
    ensures k in b && k !in a
  {
    k := b[|a|];
  }

  lemma {:induction false} NewestPagePrefix(mem: Memories, name: string, bound: Scope, limit: nat, a: seq<Key>,
                                            b: seq<Key>, n: nat)
    requires IsNewestPage(mem, name, bound, limit, a) && IsNewestPage(mem, name, bound, limit, b)
    requires forall k, l | k in mem && l in mem && k.provider == l.provider && k.native == l.native :: k == l
    requires n <= |a|
    ensures forall i | 0 <= i < n && i < |b| :: a[i] == b[i]
  {
    hide IsNewestPage, Covers;
    if n > 0 {
      NewestPagePrefix(mem, name, bound, limit, a, b, n - 1);
      var i := n - 1;
      if i < |b| {
        NotEarlier(mem, name, bound, limit, a, b, i);
        NotEarlier(mem, name, bound, limit, b, a, i);
      }
    }
  }

  /** With equal heads, whatever comes next in one page is at least as new as what comes next in the other. */
  lemma NotEarlier(mem: Memories, name: string, bound: Scope, limit: nat, a: seq<Key>, b: seq<Key>, i: nat)
    requires IsNewestPage(mem, name, bound, limit, a) && IsNewestPage(mem, name, bound, limit, b)
    requires i < |a| && i < |b| && forall j | 0 <= j < i :: a[j] == b[j]
    ensures InPageScope(mem, name, bound, a[i]) && InPageScope(mem, name, bound, b[i]) && Newer(mem, b[i], a[i])
  {
    forall j | 0 <= j < i ensures b[j] != a[i] { assert a[j] == b[j]; }
    if a[i] in b {
      var j :| 0 <= j < |b| && b[j] == a[i];
      assert j >= i;
    }
  }

  function RowKey(name: string): PgRow -> Key { (r: PgRow) => KeyOfRow(name, r) }

  lemma {:induction false} LiveRecords(g: State, tenant: string, name: string, rows: seq<PgRow>)
    requires forall r | r in rows :: r.scope.tenant == Some(tenant) && LiveAt(g.index, KeyOfRow(name, r))
    ensures |RecordsAt(g.index, tenant, name, Map(rows, Listed()))| == |rows|
    ensures forall i :: 0 <= i < |rows| ==> var k := KeyOfRow(name, rows[i]);
              k in g.index && RecordsAt(g.index, tenant, name, Map(rows, Listed()))[i]
                  == RecordAt(g.index, k, ToMemory(rows[i], None))
  {
    if rows != [] {
      assert rows[0] in rows && forall r | r in rows[1..] :: r in rows;
      LiveRecords(g, tenant, name, rows[1..]);
      assert Map(rows, Listed())[1..] == Map(rows[1..], Listed());
    }
  }

  /** A listing answers with exactly the newest covered memories, and refuses only as the checks before it demand. */
  lemma ListAnswers(cfg: Config, g: State, next: nat, e: Event, name: string) returns (keys: seq<Key>)
    requires Inv(cfg, g, next) && Exact(g) && e.tenant != "" && e.verb.ListScope?
    requires Prepare(cfg, g.bindings, e.tenant, e.verb.scope, e.verb.asserted) == Ok(name)
             && cfg.caps[name].supportsList
    ensures Supplied(cfg, g, e) && StepList(cfg, g, e).0 == g
    ensures IsNewestPage(Abs(g), name, e.verb.scope.Under(e.tenant), Min(e.verb.limit, cfg.caps[name].maxLimit), keys)
    ensures forall i | 0 <= i < |keys| :: keys[i] in Abs(g)
    ensures var answer := StepList(cfg, g, e).1;
            answer.Listing? && |answer.records| == |keys|
            && forall i | 0 <= i < |keys| :: answer.records[i] == SpecRecord(keys[i], Abs(g)[keys[i]])
  {
    hide Inv, Exact, Abs, Prepare, RowsInScope, StepList, RecordsAt, Supplied, IsNewestPage, KeyOfRow;
    var bound, limit := e.verb.scope.Under(e.tenant), Min(e.verb.limit, cfg.caps[name].maxLimit);
    ProviderHasStore(cfg, g, next, name);
    var rows := RowsInScope(g.stores[name], bound, true, Some(limit));
    ListIs(cfg, g, next, e);
    keys := Map(rows, RowKey(name));
    forall r | r in rows
      ensures r.scope.tenant == Some(e.tenant) && LiveAt(g.index, KeyOfRow(name, r)) && KeyOfRow(name, r) in Abs(g)
      ensures RecordAt(g.index, KeyOfRow(name, r), ToMemory(r, None))
              == SpecRecord(KeyOfRow(name, r), Abs(g)[KeyOfRow(name, r)])
    {
      ListedRow(cfg, g, next, e, name, bound, limit, r);
    }
    LiveRecords(g, e.tenant, name, rows);
    ListedIsNewestPage(cfg, g, next, name, bound, limit);
    forall i | 0 <= i < |rows|
      ensures rows[i] in rows && keys[i] == KeyOfRow(name, rows[i])
    {}
  }

  /** A listed row is live, its tenant's own, and its record is the memory's. */
  lemma ListedRow(cfg: Config, g: State, next: nat, e: Event, name: string, bound: Scope, limit: nat, r: PgRow)
    requires Inv(cfg, g, next) && Exact(g) && e.tenant != "" && e.verb.ListScope? && name in g.stores
    requires bound == e.verb.scope.Under(e.tenant) && r in RowsInScope(g.stores[name], bound, true, Some(limit))
    ensures var k := KeyOfRow(name, r);
            && r.scope.tenant == Some(e.tenant) && LiveAt(g.index, k) && k in Abs(g)
            && RecordAt(g.index, k, ToMemory(r, None)) == SpecRecord(k, Abs(g)[k])
  {
    hide Abs, RowsInScope;
    ListedMember(g.stores[name], bound, limit, r);
    CoveredTenant(e.verb.scope, e.tenant, r);
    MemoryOfRow(cfg, g, next, name, r);
    var k := KeyOfRow(name, r);
    AbsAt(cfg, g, next, k);
    assert SameDims(k, g.index[k], r.scope);
  }

  lemma ListedRows(rows: seq<PgRow>, bound: Scope, limit: nat)
    requires DistinctTicks(rows)
    ensures var listed := RowsInScope(rows, bound, true, Some(limit));
            && |listed| <= limit && DistinctTicks(listed)
            && (forall i, j | 0 <= i < j < |listed| :: NewestFirst()(listed[i], listed[j]))
            && (forall r | r in rows && Covers(bound, r.scope) && r !in listed ::
                  |listed| == limit && forall i | 0 <= i < |listed| :: NewestFirst()(listed[i], r))
  {
    var covered := Filter(rows, Covered(bound));
    var sorted, listed := Sort(covered, NewestFirst()), RowsInScope(rows, bound, true, Some(limit));
    RowsInScopeCutsLast(rows, bound, true, Some(limit));
    NewestFirstIsOrder();
    SortSorts(covered, NewestFirst());
    SortPermutes(covered, NewestFirst());
    FilterDistinct(rows, Covered(bound));
    SortDistinct(covered, NewestFirst());
    forall r | r in rows && Covers(bound, r.scope) && r !in listed
      ensures |listed| == limit && forall i | 0 <= i < |listed| :: NewestFirst()(listed[i], r)
    {
      CoveredIsCovers(bound, r);
      FilterMember(rows, Covered(bound), r);
      SortMember(covered, NewestFirst(), r);
      var j :| 0 <= j < |sorted| && sorted[j] == r;
      assert j >= |listed|;
    }
  }

  lemma DistinctTicksCons(x: PgRow, s: seq<PgRow>)
    requires DistinctTicks(s) && forall r | r in s :: r.tick != x.tick
    ensures DistinctTicks([x] + s)
  {}

  lemma DistinctTail(s: seq<PgRow>)
    requires s != [] && DistinctTicks(s)
    ensures DistinctTicks(s[1..]) && forall r | r in s[1..] :: r in s && r.tick != s[0].tick
  {
    forall r | r in s[1..]
      ensures r.tick != s[0].tick
    {
      var i :| 0 < i < |s| && s[i] == r;
    }
  }

  lemma {:induction false} InsertDistinct(x: PgRow, s: seq<PgRow>, le: (PgRow, PgRow) -> bool)
    requires DistinctTicks(s) && forall r | r in s :: r.tick != x.tick
    ensures DistinctTicks(Insert(x, s, le))
  {
    hide DistinctTicks;
    if s == [] || le(x, s[0]) {
      DistinctTicksCons(x, s);
    } else {
      DistinctTail(s);
      InsertDistinct(x, s[1..], le);
      InsertPermutes(x, s[1..], le);
      forall r | r in Insert(x, s[1..], le)
        ensures r.tick != s[0].tick
      {
        assert r in multiset(Insert(x, s[1..], le));
      }
      DistinctTicksCons(s[0], Insert(x, s[1..], le));
    }
  }

  lemma {:induction false} SortDistinct(s: seq<PgRow>, le: (PgRow, PgRow) -> bool)
    requires DistinctTicks(s)
    ensures DistinctTicks(Sort(s, le))
  {
    if s != [] {
      DistinctTail(s);
      SortDistinct(s[1..], le);
      forall r | r in Sort(s[1..], le)
        ensures r.tick != s[0].tick
      {
        SortMember(s[1..], le, r);
      }
      InsertDistinct(s[0], Sort(s[1..], le), le);
    }
  }

  lemma ListedIsNewestPage(cfg: Config, g: State, next: nat, name: string, bound: Scope, limit: nat)
    requires Inv(cfg, g, next) && Exact(g) && name in g.stores
    ensures IsNewestPage(Abs(g), name, bound, limit,
                         Map(RowsInScope(g.stores[name], bound, true, Some(limit)), RowKey(name)))
  {
    var rows := RowsInScope(g.stores[name], bound, true, Some(limit));
    assert StoresOk(cfg, g.stores, next);
    ListedRows(g.stores[name], bound, limit);
    forall r | r in g.stores[name]
      ensures StandsFor(Abs(g), name, r)
    {
      MemoryOfRow(cfg, g, next, name, r);
    }
    forall r | r in rows
      ensures r in g.stores[name] && Covers(bound, r.scope)
    {
      ListedMember(g.stores[name], bound, limit, r);
      CoveredIsCovers(bound, r);
    }
    forall k | k in Abs(g) && k.provider == name
      ensures exists r :: r in g.stores[name] && KeyOfRow(name, r) == k
    {
      StoredMemory(cfg, g, next, k);
    }
    hide Inv, Exact, Abs, RowsInScope, StandsFor;
    PageOfRows(Abs(g), g.stores[name], name, bound, limit, rows);
  }

  /** A store row and the memory under its key. */
  ghost predicate StandsFor(mem: Memories, name: string, r: PgRow) {
    var k := KeyOfRow(name, r);
    k in mem && mem[k].scope == r.scope && mem[k].createdAt == r.createdAt
  }

  lemma NewerRows(mem: Memories, name: string, r: PgRow, s: PgRow)
    requires StandsFor(mem, name, r) && StandsFor(mem, name, s) && NewestFirst()(r, s)
    ensures Newer(mem, KeyOfRow(name, r), KeyOfRow(name, s))
    ensures r.tick != s.tick ==> KeyOfRow(name, r) != KeyOfRow(name, s)
  {}

  lemma PageOfRows(mem: Memories, store: seq<PgRow>, name: string, bound: Scope, limit: nat, rows: seq<PgRow>)
    requires forall r | r in store :: StandsFor(mem, name, r)
    requires forall r | r in rows :: r in store && Covers(bound, r.scope)
    requires forall k | k in mem && k.provider == name :: exists r :: r in store && KeyOfRow(name, r) == k
    requires |rows| <= limit && DistinctTicks(rows)
    requires forall i, j | 0 <= i < j < |rows| :: NewestFirst()(rows[i], rows[j])
    requires forall r | r in store && Covers(bound, r.scope) && r !in rows ::
               |rows| == limit && forall i | 0 <= i < |rows| :: NewestFirst()(rows[i], r)
    ensures IsNewestPage(mem, name, bound, limit, Map(rows, RowKey(name)))
  {
    var keys := Map(rows, RowKey(name));
    PageSorted(mem, store, name, bound, rows, keys);
    hide *;
    forall k | InPageScope(mem, name, bound, k) && k !in keys
      ensures |keys| == limit && forall i | 0 <= i < |keys| :: Newer(mem, keys[i], k)
    {
      PageOmits(mem, store, name, bound, limit, rows, keys, k);
    }
    PageFromParts(mem, name, bound, limit, keys);
  }

  lemma PageFromParts(mem: Memories, name: string, bound: Scope, limit: nat, keys: seq<Key>)
    requires |keys| <= limit
    requires forall i | 0 <= i < |keys| :: InPageScope(mem, name, bound, keys[i])
    requires forall i, j | 0 <= i < j < |keys| :: keys[i] != keys[j] && Newer(mem, keys[i], keys[j])
    requires forall k | InPageScope(mem, name, bound, k) && k !in keys ::
               |keys| == limit && forall i | 0 <= i < |keys| :: Newer(mem, keys[i], k)
    ensures IsNewestPage(mem, name, bound, limit, keys)
  {
    hide Newer, InPageScope;
  }

  lemma PageSorted(mem: Memories, store: seq<PgRow>, name: string, bound: Scope, rows: seq<PgRow>, keys: seq<Key>)
    requires forall r | r in store :: StandsFor(mem, name, r)
    requires forall r | r in rows :: r in store && Covers(bound, r.scope)
    requires DistinctTicks(rows) && keys == Map(rows, RowKey(name))
    requires forall i, j | 0 <= i < j < |rows| :: NewestFirst()(rows[i], rows[j])
    ensures |keys| == |rows|
    ensures forall i | 0 <= i < |rows| ::
              rows[i] in store && keys[i] == KeyOfRow(name, rows[i]) && InPageScope(mem, name, bound, keys[i])
    ensures forall i, j | 0 <= i < j < |keys| :: keys[i] != keys[j] && Newer(mem, keys[i], keys[j])
  {
    hide Covers, Newer, NewestFirst, InPageScope, StandsFor, KeyOfRow;
    forall i | 0 <= i < |rows|
      ensures rows[i] in store && StandsFor(mem, name, rows[i]) && keys[i] == KeyOfRow(name, rows[i])
      ensures InPageScope(mem, name, bound, keys[i])
    {
      assert rows[i] in rows;
      RowInPage(mem, name, bound, rows[i]);
    }
    forall i, j | 0 <= i < j < |keys|
      ensures keys[i] != keys[j] && Newer(mem, keys[i], keys[j])
    {
      assert rows[i].tick != rows[j].tick;
      NewerRows(mem, name, rows[i], rows[j]);
    }
  }

  lemma RowInPage(mem: Memories, name: string, bound: Scope, r: PgRow)
    requires StandsFor(mem, name, r) && Covers(bound, r.scope)
    ensures InPageScope(mem, name, bound, KeyOfRow(name, r))
  {}

  lemma PageOmits(mem: Memories, store: seq<PgRow>, name: string, bound: Scope, limit: nat, rows: seq<PgRow>,
                  keys: seq<Key>, k: Key)
    requires forall r | r in store :: StandsFor(mem, name, r)
    requires |keys| == |rows| && forall i | 0 <= i < |rows| :: rows[i] in store && keys[i] == KeyOfRow(name, rows[i])
    requires forall i | 0 <= i < |rows| :: InPageScope(mem, name, bound, keys[i])
    requires forall l | l in mem && l.provider == name :: exists r :: r in store && KeyOfRow(name, r) == l
    requires forall r | r in store && Covers(bound, r.scope) && r !in rows ::
               |rows| == limit && forall i | 0 <= i < |rows| :: NewestFirst()(rows[i], r)
    requires InPageScope(mem, name, bound, k) && k !in keys
    ensures |keys| == limit && forall i | 0 <= i < |keys| :: Newer(mem, keys[i], k)
  {
    hide Covers, NewestFirst, Newer;
    var r :| r in store && KeyOfRow(name, r) == k;
    assert StandsFor(mem, name, r);
    forall i | 0 <= i < |rows| ensures rows[i] != r { assert keys[i] != k; }
    forall i | 0 <= i < |keys|
      ensures Newer(mem, keys[i], k)
    {
      NewerRows(mem, name, rows[i], r);
    }
  }

  /** A get answers with the memory its id names, for its own tenant, and with nothing else. */
  lemma GetAnswers(cfg: Config, g: State, next: nat, e: Event)
    requires Inv(cfg, g, next) && e.verb.Get?
    ensures var k := SpecFind(Abs(g), e.tenant, e.verb.id);
            StepGet(cfg, g, e) == (g, if k.None? then Failed(MemoryNotFound)
                                   else One(SpecRecord(k.value, Abs(g)[k.value])))
  {
    SpecFindIs(cfg, g, next, e.tenant, e.verb.id);
    if k :| Owns(g.index, k, e.tenant, e.verb.id) {
      ResolveIs(g.index, e.tenant, e.verb.id, k);
      AbsAt(cfg, g, next, k);
      FindRowIn(StoreOf(g, k.provider), k.native.tick);
      assert SameDims(k, g.index[k], RowAt(g, k).value.scope) && k.provider in cfg.caps;
    } else {
      UnresolvedFails(cfg, g, e);
    }
  }

  function KeysOf(name: string, rows: seq<PgRow>): set<Key> { set r | r in rows :: KeyOfRow(name, r) }

  lemma KeysOfCons(name: string, r: PgRow, rest: seq<PgRow>)
    ensures KeysOf(name, [r] + rest) == {KeyOfRow(name, r)} + KeysOf(name, rest)
  {
    hide KeyOfRow;
  }

  lemma KeyIsNew(name: string, x: PgRow, rest: seq<PgRow>)
    requires forall r | r in rest :: r.tick != x.tick
    ensures KeyOfRow(name, x) !in KeysOf(name, rest)
  {}

  lemma {:induction false} RowKeysCount(name: string, rows: seq<PgRow>)
    requires DistinctTicks(rows)
    ensures |KeysOf(name, rows)| == |rows|
  {
    hide DistinctTicks, KeysOf, KeyOfRow;
    if rows == [] {
      NoKeys(name);
    } else {
      DistinctTail(rows);
      RowKeysCount(name, rows[1..]);
      KeyIsNew(name, rows[0], rows[1..]);
      KeysOfCons(name, rows[0], rows[1..]);
      assert rows == [rows[0]] + rows[1..];
    }
  }

  lemma NoKeys(name: string)
    ensures KeysOf(name, []) == {}
  {}

  /** The count an exact erasure reports is the number of memories it forgets. */
  lemma ErasureCounts(cfg: Config, g: State, next: nat, e: Event, name: string)
    requires Inv(cfg, g, next) && Exact(g) && e.tenant != "" && Erases(cfg, g, e, name)
    requires name in g.stores && LabelsUniform(g.stores[name], e.verb.scope.Under(e.tenant))
    ensures var (after, answer) := StepDeleteScope(cfg, g, e);
            answer.Removed? && answer.count + |Abs(after)| == |Abs(g)|
            && answer.count + |after.stores[name]| == |g.stores[name]|
  {
    var bound := e.verb.scope.Under(e.tenant);
    var (after, answer) := StepDeleteScope(cfg, g, e);
    var gone := Filter(g.stores[name], Covered(bound));
    CoveredSplit(g.stores[name], bound);
    FilterDistinct(g.stores[name], Covered(bound));
    RowKeysCount(name, gone);
    var keys := KeysOf(name, gone);
    ErasureAbsIs(cfg, g, next, e, name);
    forall k
      ensures k in keys <==> k in Abs(g) && k !in Abs(after)
    {
      ErasedKey(cfg, g, next, e, name, k);
    }
    hide Abs, Inv, Exact, StepDeleteScope;
    assert Abs(after).Keys <= Abs(g).Keys;
    ForgottenCount(Abs(g), Abs(after), keys);
  }

  lemma ForgottenCount(before: Memories, after: Memories, keys: set<Key>)
    requires after.Keys <= before.Keys && forall k :: k in keys <==> k in before && k !in after
    ensures |keys| + |after| == |before|
  {
    assert before.Keys == after.Keys + keys;
  }

  lemma ErasedKey(cfg: Config, g: State, next: nat, e: Event, name: string, k: Key)
    requires Inv(cfg, g, next) && Exact(g) && e.tenant != "" && Erases(cfg, g, e, name)
    requires name in g.stores && LabelsUniform(g.stores[name], e.verb.scope.Under(e.tenant))
    ensures k in KeysOf(name, Filter(g.stores[name], Covered(e.verb.scope.Under(e.tenant))))
       <==> k in Abs(g) && k !in Abs(StepDeleteScope(cfg, g, e).0)
  {
    var bound, rows := e.verb.scope.Under(e.tenant), g.stores[name];
    ErasureAbs(cfg, g, next, e, name, k);
    if r :| r in Filter(rows, Covered(bound)) && KeyOfRow(name, r) == k {
      FilterMember(rows, Covered(bound), r);
      CoveredIsCovers(bound, r);
      MemoryOfRow(cfg, g, next, name, r);
    }
    if k in Abs(g) && k !in Abs(StepDeleteScope(cfg, g, e).0) {
      StoredMemory(cfg, g, next, k);
      var r :| r in rows && r.scope == Abs(g)[k].scope && KeyOfRow(name, r) == k;
      CoveredIsCovers(bound, r);
      FilterMember(rows, Covered(bound), r);
    }
  }
}
