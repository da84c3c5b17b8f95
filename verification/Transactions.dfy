/** Concurrent callers of the catalog, one statement at a time: what every interleaving keeps, and how far a retry can
    be pushed. */
module Transactions {
  import opened Prelude
  import opened Scopes
  import opened MemoryIndex

  const RETRIES := 3

  datatype Phase =
    | Ready                                  // about to start an attempt
    | Looked(known: Known)                   // the lookup has run
    | Staged(known: Known, pending: Index)   // the insert succeeded and is not yet committed
    | Returned(rows: seq<CatalogRow>)
    | Raised

  /** One call of the mapping. `first`, `lost` and `since` are its history: the natives its first lookup missed, the
      keys it lost to a rival, one per conflict, and the number of commits its latest lookup could see. */
  datatype Caller = Caller(
    tenant: string, provider: string, items: seq<Item>, scope: Scope, revive: bool,
    attempt: nat, phase: Phase, first: set<Native>, lost: seq<Key>, since: nat)
  {
    predicate Wants(n: Native) { n in Natives(items) }

    function KeyOf(n: Native): Key { Key(tenant, provider, n) }

    function Wanted(known: Known): seq<Item> { Missing(items, known) }
  }

  /** Who inserted a row, and in which commit. */
  datatype Birth = Birth(commit: nat, who: nat)

  datatype BinderPhase =
    | Idle
    | Clashed                                                      // bind: the row was there; about to read it
    | Settled(provider: string)                                    // bind: returned
    | Seen(previous: Option<string>)                               // rebind: the old binding has been read
    | Tallied(previous: Option<string>, orphaned: nat)             // rebind: the stranded memories have been counted
    | Moved(report: RebindResult)                                  // rebind: written and returned

  /** One call of bind, or of rebind when it `moves`. */
  datatype Binder = Binder(tenant: string, subject: string, provider: string, moves: bool, phase: BinderPhase)

  datatype Db = Db(index: Index, bindings: Bindings, callers: map<nat, Caller>,
                   commits: nat, born: map<Key, Birth>, next: nat, binders: map<nat, Binder>)

  datatype Step =
    | Select(c: nat)
    | Insert(c: nat, ids: seq<nat>, upto: nat)
    | Commit(c: nat)
    | Tombstone(tenant: string, id: nat)
    | TombstoneScope(tenant: string, scope: Scope, provider: string)
    | Turn(b: nat)

  function PendingOf(caller: Caller): Index {
    if caller.phase.Staged? then caller.phase.pending else map[]
  }

  /** A row another transaction has inserted and not yet committed makes the insert wait. */
  ghost predicate MustWait(db: Db, c: nat, missing: seq<Item>)
    requires c in db.callers
  {
    exists d, n :: d in db.callers && d != c && n in Natives(missing)
           && db.callers[c].KeyOf(n) in PendingOf(db.callers[d])
  }

  /** The first wanted key that a rival has committed since the lookup. */
  function Taken(index: Index, tenant: string, provider: string, missing: seq<Item>): Option<Key> {
    if missing == [] then None
    else
      var k := Key(tenant, provider, missing[0].native);
      if k in index then Some(k) else Taken(index, tenant, provider, missing[1..])
  }

  function NativeSet(items: seq<Item>): set<Native> { set n | n in Natives(items) }

  function LookUp(index: Index, caller: Caller): Known {
    Find(index, caller.tenant, caller.provider, Natives(caller.items))
  }

  function Selected(caller: Caller, known: Known, commits: nat): Caller {
    caller.(phase := Looked(known), since := commits,
            first := if caller.attempt == 0 then NativeSet(caller.Wanted(known)) else caller.first)
  }

  function SelectStep(db: Db, c: nat): Db
    requires c in db.callers
  {
    var caller := db.callers[c];
    if caller.phase != Ready then db
    else db.(callers := db.callers[c := Selected(caller, LookUp(db.index, caller), db.commits)])
  }

  /** The attempt is rolled back; after the last one the conflict reaches the caller. */
  function Conflicted(caller: Caller, taken: Option<Key>): Caller {
    caller.(attempt := caller.attempt + 1,
            phase := if caller.attempt + 1 == RETRIES then Raised else Ready,
            lost := if taken.Some? then caller.lost + [taken.value] else caller.lost)
  }

  /** The insert statement: it waits, or raises a conflict and rolls the attempt back, or stages its rows. */
  ghost function InsertStep(db: Db, c: nat, ids: seq<nat>, upto: nat): Db
    requires c in db.callers
  {
    var caller := db.callers[c];
    if !caller.phase.Looked? then db
    else
      var missing := caller.Wanted(caller.phase.known);
      if |ids| < |missing| || !FreshIds(ids, db.next, upto) || MustWait(db, c, missing) then db
      else
        var taken := Taken(db.index, caller.tenant, caller.provider, missing);
        if taken.Some? || !Distinct(Natives(missing)) then
          db.(callers := db.callers[c := Conflicted(caller, taken)], next := upto)
        else
          var rows := InsertRows(caller.tenant, caller.provider, missing, caller.scope, ids);
          db.(callers := db.callers[c := caller.(phase := Staged(caller.phase.known, rows))], next := upto)
  }

  /** The index once the staged rows and the reviving updates are committed. */
  function CommittedIndex(index: Index, caller: Caller, known: Known, pending: Index): Index {
    Revive(index + pending, caller.tenant, caller.provider,
           if caller.revive then Doomed(Natives(caller.items), known) else {}, caller.scope, caller.items)
  }

  /** What the caller knows at the end: its lookup, the rows it inserted, and the rows it revived, read again. */
  function FinalKnown(after: Index, caller: Caller, known: Known, pending: Index): Known {
    var revived := if caller.revive then Doomed(Natives(caller.items), known) else {};
    var again := LookUp(after, caller);
    known + LookUp(pending, caller) + (map n | n in again && n in revived :: again[n])
  }

  /** The reviving updates and the commit. */
  function CommitStep(db: Db, c: nat): Db
    requires c in db.callers
  {
    var caller := db.callers[c];
    if !caller.phase.Staged? then db
    else
      var (known, pending) := (caller.phase.known, caller.phase.pending);
      var after := CommittedIndex(db.index, caller, known, pending);
      db.(index := after, commits := db.commits + 1,
          born := db.born + map k | k in pending :: Birth(db.commits + 1, c),
          callers := db.callers[c := caller.(
            phase := Returned(RowsOf(caller.items, FinalKnown(after, caller, known, pending))))])
  }

  /** The next transaction of a bind or a rebind: each of them reads, counts or writes, and the world may change in
      between. */
  function TurnStep(db: Db, b: nat): Db
    requires b in db.binders
  {
    var r := db.binders[b];
    var bound := GetBinding(db.bindings, r.tenant, r.subject);
    match r.phase
    case Idle =>
      if r.moves then Rephased(db, b, Seen(bound))
      else if bound.Some? then Rephased(db, b, Clashed)
      else Rebound(Rephased(db, b, Settled(r.provider)), r, None)
    case Clashed => Rephased(db, b, Settled(if Truthy(bound) then bound.value else r.provider))
    case Seen(previous) => Rephased(db, b, Tallied(previous, Stranded(db.index, r, previous)))
    case Tallied(previous, orphaned) => Rebound(Rephased(db, b, Moved(ReportOf(r, previous, orphaned))), r, previous)
    case _ => db
  }

  function Rephased(db: Db, b: nat, phase: BinderPhase): Db
    requires b in db.binders
  {
    db.(binders := db.binders[b := db.binders[b].(phase := phase)])
  }

  function Rebound(db: Db, r: Binder, previous: Option<string>): Db {
    db.(bindings := db.bindings[(r.tenant, r.subject) := Binding(r.provider, previous)])
  }

  /** The live rows a rebind leaves behind, if the binding it read was somewhere else. */
  function Stranded(index: Index, r: Binder, previous: Option<string>): nat {
    if previous.Some? && previous.value != r.provider then |LiveKeys(index, r.tenant, r.subject, previous.value)| else 0
  }

  function ReportOf(r: Binder, previous: Option<string>, orphaned: nat): RebindResult {
    RebindResult(r.provider, if previous == Some(r.provider) then None else previous, orphaned)
  }

  /** One step; a step that is not enabled changes nothing. */
  ghost function Apply(db: Db, step: Step): Db {
    match step
    case Select(c) => if c in db.callers then SelectStep(db, c) else db
    case Insert(c, ids, upto) => if c in db.callers then InsertStep(db, c, ids, upto) else db
    case Commit(c) => if c in db.callers then CommitStep(db, c) else db
    case Tombstone(tenant, id) => db.(index := MarkDeleted(db.index, tenant, id))
    case TombstoneScope(tenant, scope, provider) => db.(index := MarkScopeDeleted(db.index, tenant, scope, provider))
    case Turn(b) => if b in db.binders then TurnStep(db, b) else db
  }

  ghost function Run(db: Db, steps: seq<Step>): Db
    decreases |steps|
  {
    if steps == [] then db else Run(Apply(db, steps[0]), steps[1..])
  }

  // -- the invariant ------------------------------------------------------------------

  type Births = map<Key, Birth>

  /** The row carries the id the index holds for its native id. */
  ghost predicate RowNames(index: Index, caller: Caller, r: CatalogRow) {
    && r.tenant == caller.tenant && r.provider == caller.provider
    && caller.KeyOf(r.native) in index && index[caller.KeyOf(r.native)].gatewayId == r.gatewayId
  }

  ghost predicate RowsOk(index: Index, caller: Caller, rows: seq<CatalogRow>) {
    forall r | r in rows :: RowNames(index, caller, r)
  }

  /** What a lookup returned stays true of the ids, whatever others do afterwards. */
  ghost predicate KnownOk(index: Index, caller: Caller, known: Known) {
    forall n | n in known ::
      && caller.KeyOf(n) in index
      && (known[n].Some? ==> known[n].value.native == n && RowNames(index, caller, known[n].value))
  }

  ghost predicate PendingOk(index: Index, next: nat, caller: Caller, pending: Index) {
    && IdsUnique(pending) && IdsBelow(pending, next)
    && Apart(pending, index)
    && (forall k | k in pending :: k == caller.KeyOf(k.native) && !pending[k].deleted)
  }

  ghost predicate Apart(a: Index, b: Index) {
    && a.Keys !! b.Keys
    && forall k, l | k in a && l in b :: a[k].gatewayId != b[l].gatewayId
  }

  /** No native that the first lookup missed occurs twice in the page. */
  ghost predicate Unrepeated(caller: Caller) {
    forall i, j | 0 <= i < j < |caller.items| && caller.items[i].native == caller.items[j].native ::
      caller.items[i].native !in caller.first
  }

  /** Each lost key was committed by a rival, was wanted from the start, and was committed later than the one lost
      before it. */
  ghost predicate LostOk(born: Births, c: nat, caller: Caller) {
    && (Unrepeated(caller) ==> caller.attempt == |caller.lost|)
    && (forall i | 0 <= i < |caller.lost| ::
          var k := caller.lost[i];
          k in born && born[k].who != c && k == caller.KeyOf(k.native) && k.native in caller.first
              && caller.Wants(k.native))
    && (forall i, j | 0 <= i < j < |caller.lost| :: born[caller.lost[i]].commit < born[caller.lost[j]].commit)
  }

  /** Whatever the first lookup did not miss is there for good. */
  ghost predicate FirstOk(born: Births, caller: Caller) {
    forall n | caller.Wants(n) && n !in caller.first :: caller.KeyOf(n) in born
  }

  /** What a lookup missed and is there now was committed after the lookup; what was lost before, the lookup found. */
  ghost predicate LookupOk(born: Births, caller: Caller, known: Known) {
    && (forall n | caller.Wants(n) && n !in known && caller.KeyOf(n) in born ::
        born[caller.KeyOf(n)].commit > caller.since)
    && (forall k | k in caller.lost :: k in born && born[k].commit <= caller.since && k.native in known)
    && (forall n | caller.Wants(n) && n !in known :: n in caller.first)
  }

  ghost predicate HistoryOk(born: Births, commits: nat, c: nat, caller: Caller) {
    && LostOk(born, c, caller)
    && caller.since <= commits
    && (caller.attempt == 0 ==> caller.lost == [])
    && (caller.attempt > 0 || caller.phase.Looked? || caller.phase.Staged? ==> FirstOk(born, caller))
    && (forall k | k in born && born[k].who == c :: caller.phase.Returned?)
  }

  ghost predicate PhaseOk(index: Index, born: Births, caller: Caller) {
    match caller.phase
    case Ready => true
    case Looked(known) => KnownOk(index, caller, known) && LookupOk(born, caller, known)
    case Staged(known, pending) => KnownOk(index, caller, known) && LookupOk(born, caller, known)
    case Returned(rows) => RowsOk(index, caller, rows)
    case Raised => caller.attempt == RETRIES
  }

  ghost predicate CallerOk(db: Db, c: nat, caller: Caller) {
    && PhaseOk(db.index, db.born, caller)
    && PendingOk(db.index, db.next, caller, PendingOf(caller))
    && HistoryOk(db.born, db.commits, c, caller)
  }

  ghost predicate TablesOk(db: Db) {
    && IdsUnique(db.index) && IdsBelow(db.index, db.next)
    && db.born.Keys == db.index.Keys && (forall k | k in db.born :: db.born[k].commit <= db.commits)
  }

  ghost predicate Inv(db: Db) {
    && TablesOk(db)
    && (forall c | c in db.callers :: CallerOk(db, c, db.callers[c]))
    && (forall c, d | c in db.callers && d in db.callers && c != d ::
          Apart(PendingOf(db.callers[c]), PendingOf(db.callers[d])))
  }

  // -- steps of others ------------------------------------------------------------------

  /** The growth every step allows: rows stay, ids stay, newcomers are born in a later commit. */
  ghost predicate Grows(db: Db, after: Db) {
    && IdentityKept(db.index, after.index) && db.next <= after.next && db.commits <= after.commits
    && (forall k | k in db.born :: k in after.born && after.born[k] == db.born[k])
    && (forall k | k in after.born && k !in db.born :: after.born[k].commit > db.commits)
  }

  /** Nobody is disturbed by growth that is not its own and clashes with none of its pending rows. */
  lemma CallerStable(db: Db, after: Db, d: nat, caller: Caller)
    requires CallerOk(db, d, caller) && Grows(db, after) && Apart(PendingOf(caller), after.index)
    requires forall k | k in after.born && k !in db.born :: after.born[k].who != d
    ensures CallerOk(after, d, caller)
  {
    assert LostOk(after.born, d, caller);
    if caller.phase.Looked? || caller.phase.Staged? {
      LookupStable(db, after, caller, caller.phase.known);
    }
  }

  /** The invariant from its parts: the tables, the acting caller, and distance from everybody else's pending rows. */
  lemma InvFromParts(db: Db, after: Db, c: nat, next: Caller)
    requires Inv(db) && c in db.callers && Grows(db, after) && TablesOk(after)
    requires after.callers == db.callers[c := next] && CallerOk(after, c, next)
    requires forall d | d in db.callers && d != c ::
               Apart(PendingOf(db.callers[d]), after.index) && Apart(PendingOf(db.callers[d]), PendingOf(next))
    requires forall k | k in after.born && k !in db.born :: after.born[k].who == c
    ensures Inv(after)
  {
    forall d | d in after.callers
      ensures CallerOk(after, d, after.callers[d])
    {
      if d != c { CallerStable(db, after, d, db.callers[d]); }
    }
    forall d, e | d in after.callers && e in after.callers && d != e
      ensures Apart(PendingOf(after.callers[d]), PendingOf(after.callers[e]))
    {
      if d == c {
        ApartSymmetric(PendingOf(db.callers[e]), PendingOf(next));
      } else if e != c {
        assert Apart(PendingOf(db.callers[d]), PendingOf(db.callers[e]));
      }
    }
  }

  /** A step that only moves its caller on, to a phase with nothing pending. */
  lemma InvFromCaller(db: Db, c: nat, next: Caller, upto: nat)
    requires Inv(db) && c in db.callers && db.next <= upto && PendingOf(next) == map[]
    requires CallerOk(db, c, next)
    ensures var after := db.(callers := db.callers[c := next], next := upto); Inv(after) && Grows(db, after)
  {
    var after := db.(callers := db.callers[c := next], next := upto);
    PendingApart(db);
    forall d | d in db.callers && d != c
      ensures Apart(PendingOf(db.callers[d]), PendingOf(next))
    {
      ApartEmpty(PendingOf(db.callers[d]));
    }
    CallerStable(db, after, c, next);
    InvFromParts(db, after, c, next);
  }

  lemma ApartEmpty(a: Index)
    ensures Apart(a, map[]) && Apart(map[], a)
  {}

  lemma PendingApart(db: Db)
    requires Inv(db)
    ensures forall d | d in db.callers :: Apart(PendingOf(db.callers[d]), db.index)
  {
    forall d | d in db.callers
      ensures Apart(PendingOf(db.callers[d]), db.index)
    {
      assert CallerOk(db, d, db.callers[d]);
    }
  }

  lemma ApartSymmetric(a: Index, b: Index)
    requires Apart(a, b)
    ensures Apart(b, a)
  {}

  lemma LookupStable(db: Db, after: Db, caller: Caller, known: Known)
    requires Grows(db, after) && caller.since <= db.commits
    requires KnownOk(db.index, caller, known) && LookupOk(db.born, caller, known)
    ensures KnownOk(after.index, caller, known) && LookupOk(after.born, caller, known)
  {}

  // -- select -----------------------------------------------------------------------------

  lemma LookedUp(index: Index, caller: Caller, n: Native)
    ensures var known := LookUp(index, caller);
            && (n in NativeSet(caller.Wanted(known)) <==> caller.Wants(n) && n !in known)
            && (n in known <==> caller.Wants(n) && caller.KeyOf(n) in index)
  {
    UnknownNatives(caller.items, LookUp(index, caller), n);
  }

  lemma SelectedKnownOk(index: Index, caller: Caller, next: Caller, commits: nat)
    requires next == Selected(caller, LookUp(index, caller), commits)
    ensures KnownOk(index, next, LookUp(index, caller))
  {}

  lemma SelectedLookupOk(index: Index, born: Births, commits: nat, c: nat, caller: Caller, next: Caller)
    requires next == Selected(caller, LookUp(index, caller), commits)
    requires HistoryOk(born, commits, c, caller) && born.Keys == index.Keys
    requires forall k | k in born :: born[k].commit <= commits
    ensures LookupOk(born, next, LookUp(index, caller)) && FirstOk(born, next)
  {
    var known := LookUp(index, caller);
    forall n
      ensures n in NativeSet(caller.Wanted(known)) <==> caller.Wants(n) && n !in known
      ensures n in known <==> caller.Wants(n) && caller.KeyOf(n) in index
    {
      LookedUp(index, caller, n);
    }
    assert forall n :: caller.Wants(n) == next.Wants(n) && caller.KeyOf(n) == next.KeyOf(n);
    forall k | k in caller.lost
      ensures k in born && k.native in known
    {
      var i :| 0 <= i < |caller.lost| && caller.lost[i] == k;
    }
  }

  lemma SelectedLostOk(index: Index, born: Births, commits: nat, c: nat, caller: Caller, next: Caller)
    requires next == Selected(caller, LookUp(index, caller), commits)
    requires LostOk(born, c, caller) && (caller.attempt == 0 ==> caller.lost == [])
    ensures LostOk(born, c, next)
  {}

  lemma SelectedHistoryOk(index: Index, born: Births, commits: nat, c: nat, caller: Caller, next: Caller)
    requires next == Selected(caller, LookUp(index, caller), commits)
    requires HistoryOk(born, commits, c, caller) && FirstOk(born, next) && !caller.phase.Returned?
    ensures HistoryOk(born, commits, c, next)
  {
    SelectedLostOk(index, born, commits, c, caller, next);
  }

  lemma NothingPendingOk(index: Index, next: nat, caller: Caller)
    ensures PendingOk(index, next, caller, map[])
  {}

  lemma SelectedOk(db: Db, c: nat, caller: Caller, next: Caller)
    requires TablesOk(db) && CallerOk(db, c, caller) && caller.phase.Ready?
    requires next == Selected(caller, LookUp(db.index, caller), db.commits)
    ensures CallerOk(db, c, next)
  {
    hide KnownOk, LookupOk, FirstOk, HistoryOk, PendingOk;
    assert PhaseOk(db.index, db.born, next) && FirstOk(db.born, next) by {
      SelectedKnownOk(db.index, caller, next, db.commits);
      SelectedLookupOk(db.index, db.born, db.commits, c, caller, next);
    }
    assert HistoryOk(db.born, db.commits, c, next) by {
      SelectedHistoryOk(db.index, db.born, db.commits, c, caller, next);
    }
    NothingPendingOk(db.index, db.next, next);
  }

  lemma SelectKeepsInv(db: Db, c: nat)
    requires Inv(db) && c in db.callers
    ensures Inv(SelectStep(db, c)) && Grows(db, SelectStep(db, c))
  {
    var caller := db.callers[c];
    if caller.phase.Ready? {
      var next := Selected(caller, LookUp(db.index, caller), db.commits);
      SelectedOk(db, c, caller, next);
      InvFromCaller(db, c, next, db.next);
    }
  }

  // -- insert -------------------------------------------------------------------------------

  lemma {:induction false} TakenIs(index: Index, tenant: string, provider: string, missing: seq<Item>)
    ensures var t := Taken(index, tenant, provider, missing);
            && (t.Some? ==>
                  && t.value in index && t.value == Key(tenant, provider, t.value.native)
                  && t.value.native in Natives(missing))
            && (t.None? ==> forall n | n in Natives(missing) :: Key(tenant, provider, n) !in index)
  {
    if missing != [] {
      TakenIs(index, tenant, provider, missing[1..]);
      assert Natives(missing) == [missing[0].native] + Natives(missing[1..]);
    }
  }

  /** A lost race adds one key to the history: a rival's, newer than all the others, wanted from the first attempt
      on. */
  lemma ConflictedOk(born: Births, commits: nat, c: nat, caller: Caller, known: Known, taken: Option<Key>)
    requires HistoryOk(born, commits, c, caller) && LookupOk(born, caller, known) && caller.phase == Looked(known)
    requires taken.Some? ==> taken.value in born && taken.value == caller.KeyOf(taken.value.native)
    requires taken.Some? ==> caller.Wants(taken.value.native) && taken.value.native !in known
    requires taken.None? ==> !Unrepeated(caller)
    ensures HistoryOk(born, commits, c, Conflicted(caller, taken))
  {
    hide LostOk, LookupOk, Unrepeated;
    ConflictedLost(born, commits, c, caller, known, taken);
    var next := Conflicted(caller, taken);
    assert forall n :: caller.Wants(n) == next.Wants(n) && caller.KeyOf(n) == next.KeyOf(n);
  }

  lemma ConflictedLost(born: Births, commits: nat, c: nat, caller: Caller, known: Known, taken: Option<Key>)
    requires HistoryOk(born, commits, c, caller) && LookupOk(born, caller, known) && caller.phase == Looked(known)
    requires taken.Some? ==> taken.value in born && taken.value == caller.KeyOf(taken.value.native)
    requires taken.Some? ==> caller.Wants(taken.value.native) && taken.value.native !in known
    requires taken.None? ==> !Unrepeated(caller)
    ensures LostOk(born, c, Conflicted(caller, taken))
  {
    hide FirstOk;
    var next := Conflicted(caller, taken);
    var n := |caller.lost|;
    assert forall x :: caller.Wants(x) == next.Wants(x) && caller.KeyOf(x) == next.KeyOf(x);
    assert Unrepeated(next) == Unrepeated(caller);
    if taken.Some? {
      forall i | 0 <= i < n
        ensures born[next.lost[i]].commit < born[taken.value].commit
      {
        assert next.lost[i] == caller.lost[i] && caller.lost[i] in caller.lost;
      }
    }
  }

  lemma UnrepeatedMissing(born: Births, caller: Caller, known: Known)
    requires Unrepeated(caller) && LookupOk(born, caller, known)
    ensures Distinct(Natives(caller.Wanted(known)))
  {
    MissingDistinctIff(caller.items, known);
    forall i | 0 <= i < |caller.items|
      ensures caller.Wants(caller.items[i].native)
    {
      assert Natives(caller.items)[i] == caller.items[i].native;
    }
  }

  lemma ConflictKeepsInv(db: Db, c: nat, upto: nat, taken: Option<Key>)
    requires Inv(db) && c in db.callers && db.callers[c].phase.Looked? && db.next <= upto
    requires var missing := db.callers[c].Wanted(db.callers[c].phase.known);
             taken == Taken(db.index, db.callers[c].tenant, db.callers[c].provider, missing)
             && (taken.Some? || !Distinct(Natives(missing)))
    ensures var after := db.(callers := db.callers[c := Conflicted(db.callers[c], taken)], next := upto);
            Inv(after) && Grows(db, after)
  {
    hide KnownOk, LookupOk, Distinct, Natives;
    var caller := db.callers[c];
    var known := caller.phase.known;
    var next := Conflicted(caller, taken);
    assert CallerOk(db, c, next) by {
      assert CallerOk(db, c, caller);
      TakenIs(db.index, caller.tenant, caller.provider, caller.Wanted(known));
      if taken.Some? { UnknownNatives(caller.items, known, taken.value.native); }
      if Unrepeated(caller) { UnrepeatedMissing(db.born, caller, known); }
      ConflictedOk(db.born, db.commits, c, caller, known, taken);
      hide HistoryOk, PendingOk, KnownOk, LookupOk;
      NothingPendingOk(db.index, db.next, next);
    }
    InvFromCaller(db, c, next, upto);
  }

  /** Rows staged under fresh ids for keys nobody holds, committed or pending. */
  lemma StagedOk(db: Db, c: nat, ids: seq<nat>, upto: nat, missing: seq<Item>, rows: Index)
    requires Inv(db) && c in db.callers && db.callers[c].phase.Looked?
             && missing == db.callers[c].Wanted(db.callers[c].phase.known)
    requires |missing| <= |ids| && FreshIds(ids, db.next, upto) && !MustWait(db, c, missing)
    requires Taken(db.index, db.callers[c].tenant, db.callers[c].provider, missing).None?
    requires rows == InsertRows(db.callers[c].tenant, db.callers[c].provider, missing, db.callers[c].scope, ids)
    ensures PendingOk(db.index, upto, db.callers[c], rows)
    ensures forall d | d in db.callers && d != c :: Apart(PendingOf(db.callers[d]), rows)
  {
    var caller := db.callers[c];
    TakenIs(db.index, caller.tenant, caller.provider, missing);
    InsertRowsAt(caller.tenant, caller.provider, missing, caller.scope, ids);
    InsertRowsFresh(caller.tenant, caller.provider, missing, caller.scope, ids, db.next, upto);
    assert forall k | k in rows :: k == caller.KeyOf(k.native) && k.native in Natives(missing);
    forall d | d in db.callers && d != c
      ensures Apart(PendingOf(db.callers[d]), rows)
    {
      assert CallerOk(db, d, db.callers[d]);
      forall k | k in rows ensures k !in PendingOf(db.callers[d]) {
        assert k == caller.KeyOf(k.native);
      }
    }
  }

  lemma StagingKeepsInv(db: Db, c: nat, upto: nat, rows: Index)
    requires Inv(db) && c in db.callers && db.callers[c].phase.Looked? && db.next <= upto
    requires PendingOk(db.index, upto, db.callers[c], rows)
    requires forall d | d in db.callers && d != c :: Apart(PendingOf(db.callers[d]), rows)
    ensures var next := db.callers[c].(phase := Staged(db.callers[c].phase.known, rows));
            var after := db.(callers := db.callers[c := next], next := upto);
            Inv(after) && Grows(db, after)
  {
    var caller := db.callers[c];
    var next := caller.(phase := Staged(caller.phase.known, rows));
    var after := db.(callers := db.callers[c := next], next := upto);
    assert CallerOk(after, c, next) by {
      assert CallerOk(db, c, caller);
      StagedCallerOk(db, c, caller, next, upto);
    }
    PendingApart(db);
    InvFromParts(db, after, c, next);
  }

  lemma StagedCallerOk(db: Db, c: nat, caller: Caller, next: Caller, upto: nat)
    requires CallerOk(db, c, caller) && caller.phase.Looked? && next.phase.Staged?
    requires next == caller.(phase := next.phase) && next.phase.known == caller.phase.known
    requires PendingOk(db.index, upto, caller, next.phase.pending)
    ensures CallerOk(db.(callers := db.callers[c := next], next := upto), c, next)
  {
    assert forall n :: caller.Wants(n) == next.Wants(n) && caller.KeyOf(n) == next.KeyOf(n);
    assert KnownOk(db.index, next, next.phase.known);
    assert LookupOk(db.born, next, next.phase.known);
    assert HistoryOk(db.born, db.commits, c, next);
  }

  lemma InsertKeepsInv(db: Db, c: nat, ids: seq<nat>, upto: nat)
    requires Inv(db) && c in db.callers
    ensures Inv(InsertStep(db, c, ids, upto)) && Grows(db, InsertStep(db, c, ids, upto))
  {
    var caller := db.callers[c];
    if caller.phase.Looked? {
      var missing := caller.Wanted(caller.phase.known);
      if |missing| <= |ids| && FreshIds(ids, db.next, upto) && !MustWait(db, c, missing) {
        var taken := Taken(db.index, caller.tenant, caller.provider, missing);
        if taken.Some? || !Distinct(Natives(missing)) {
          ConflictKeepsInv(db, c, upto, taken);
        } else {
          var rows := InsertRows(caller.tenant, caller.provider, missing, caller.scope, ids);
          StagedOk(db, c, ids, upto, missing, rows);
          StagingKeepsInv(db, c, upto, rows);
        }
      }
    }
  }

  // -- commit ---------------------------------------------------------------------------------

  lemma {:induction false} RowsOfMember(items: seq<Item>, known: Known, r: CatalogRow)
    requires r in RowsOf(items, known)
    ensures exists n :: n in known && known[n] == Some(r)
  {
    var n := items[0].native;
    if !(n in known && known[n] == Some(r)) {
      RowsOfMember(items[1..], known, r);
    }
  }

  lemma LookUpOk(index: Index, after: Index, caller: Caller)
    requires IdentityKept(index, after)
    ensures KnownOk(after, caller, LookUp(index, caller))
  {}

  lemma CommitTablesOk(db: Db, caller: Caller, known: Known, pending: Index)
    requires TablesOk(db) && PendingOk(db.index, db.next, caller, pending)
    ensures var after := CommittedIndex(db.index, caller, known, pending);
            && IdentityKept(db.index, after) && IdentityKept(pending, after)
            && after.Keys == db.index.Keys + pending.Keys && IdsUnique(after) && IdsBelow(after, db.next)
  {
    var added := db.index + pending;
    assert IdsUnique(added) && IdsBelow(added, db.next);
    ReviveKeepsIdentity(added, caller.tenant, caller.provider,
                        if caller.revive then Doomed(Natives(caller.items), known)
                            else {}, caller.scope, caller.items, db.next);
  }

  lemma FinalKnownOk(after: Index, caller: Caller, known: Known, pending: Index)
    requires KnownOk(after, caller, known) && KnownOk(after, caller, LookUp(pending, caller))
             && KnownOk(after, caller, LookUp(after, caller))
    ensures KnownOk(after, caller, FinalKnown(after, caller, known, pending))
  {
    hide LookUp, Doomed, RowNames;
  }

  lemma FinalRowsOk(index: Index, caller: Caller, known: Known, pending: Index, after: Index)
    requires KnownOk(index, caller, known) && IdentityKept(index, after) && IdentityKept(pending, after)
    ensures RowsOk(after, caller, RowsOf(caller.items, FinalKnown(after, caller, known, pending)))
  {
    var final := FinalKnown(after, caller, known, pending);
    hide RowsOf, Find, LookUp, Doomed;
    LookUpOk(pending, after, caller);
    LookUpOk(after, after, caller);
    assert KnownOk(after, caller, known);
    FinalKnownOk(after, caller, known, pending);
    hide FinalKnown;
    forall r | r in RowsOf(caller.items, final)
      ensures RowNames(after, caller, r)
    {
      RowsOfMember(caller.items, final, r);
      var n :| n in final && final[n] == Some(r);
    }
  }

  lemma CommitGrows(db: Db, c: nat)
    requires Inv(db) && c in db.callers && db.callers[c].phase.Staged?
    ensures Grows(db, CommitStep(db, c)) && TablesOk(CommitStep(db, c))
  {
    hide Inv, FinalKnown, RowsOf, CommittedIndex, PendingOk, IdsUnique, IdsBelow;
    var caller := db.callers[c];
    StagedPendingOk(db, c);
    CommitTablesOk(db, caller, caller.phase.known, caller.phase.pending);
  }

  lemma StagedPendingOk(db: Db, c: nat)
    requires Inv(db) && c in db.callers && db.callers[c].phase.Staged?
    ensures TablesOk(db) && PendingOk(db.index, db.next, db.callers[c], db.callers[c].phase.pending)
    ensures db.callers[c].phase.pending.Keys !! db.index.Keys
  {
    assert CallerOk(db, c, db.callers[c]);
  }

  lemma CommitCallerOk(db: Db, c: nat)
    requires Inv(db) && c in db.callers && db.callers[c].phase.Staged?
    ensures CallerOk(CommitStep(db, c), c, CommitStep(db, c).callers[c])
  {
    hide KnownOk, LookupOk, HistoryOk, RowsOk, FinalKnown, RowsOf, CommittedIndex, PendingOk, Grows;
    var after, caller := CommitStep(db, c), db.callers[c];
    assert CallerOk(db, c, caller);
    CommitGrows(db, c);
    CommitTablesOk(db, caller, caller.phase.known, caller.phase.pending);
    FinalRowsOk(db.index, caller, caller.phase.known, caller.phase.pending, after.index);
    CommittedCallerOk(db, after, c, caller, after.callers[c]);
  }

  lemma CommitKeepsInv(db: Db, c: nat)
    requires Inv(db) && c in db.callers
    ensures Inv(CommitStep(db, c)) && Grows(db, CommitStep(db, c))
  {
    hide KnownOk, LookupOk, HistoryOk, RowsOk, FinalKnown, RowsOf, Revive;
    var after, caller := CommitStep(db, c), db.callers[c];
    if caller.phase.Staged? {
      var (known, pending) := (caller.phase.known, caller.phase.pending);
      CommitGrows(db, c);
      CommitCallerOk(db, c);
      assert CallerOk(db, c, caller);
      CommitTablesOk(db, caller, known, pending);
      PendingApart(db);
      forall d | d in db.callers && d != c
        ensures Apart(PendingOf(db.callers[d]), after.index) && Apart(PendingOf(db.callers[d]), map[])
      {
        ApartUnion(PendingOf(db.callers[d]), db.index, pending, after.index);
        ApartEmpty(PendingOf(db.callers[d]));
      }
      hide CallerOk, Apart;
      InvFromParts(db, after, c, after.callers[c]);
    }
  }

  lemma ApartUnion(a: Index, b: Index, p: Index, after: Index)
    requires Apart(a, b) && Apart(a, p) && after.Keys == b.Keys + p.Keys && IdentityKept(b, after)
             && IdentityKept(p, after)
    ensures Apart(a, after)
  {}

  lemma CommittedCallerOk(db: Db, after: Db, c: nat, caller: Caller, next: Caller)
    requires HistoryOk(db.born, db.commits, c, caller) && caller.phase.Staged? && Grows(db, after)
    requires next == caller.(phase := next.phase) && next.phase.Returned?
             && RowsOk(after.index, caller, next.phase.rows)
    ensures CallerOk(after, c, next)
  {
    assert forall n :: caller.Wants(n) == next.Wants(n) && caller.KeyOf(n) == next.KeyOf(n);
    assert LostOk(after.born, c, next);
    NothingPendingOk(after.index, after.next, next);
  }

  // -- everything else ----------------------------------------------------------------------------

  /** A change to rows that adds none and touches no id disturbs nobody. */
  lemma RowUpdateKeepsInv(db: Db, index: Index)
    requires Inv(db) && index.Keys == db.index.Keys && IdentityKept(db.index, index)
    ensures Inv(db.(index := index)) && Grows(db, db.(index := index))
  {
    hide PhaseOk, PendingOk, HistoryOk;
    var after := db.(index := index);
    PendingApart(db);
    forall d | d in db.callers
      ensures CallerOk(after, d, db.callers[d])
    {
      ApartUnion(PendingOf(db.callers[d]), db.index, map[], index);
      CallerStable(db, after, d, db.callers[d]);
    }
  }

  /** Turns touch the bindings and nothing else of the database. */
  lemma TurnsApart(db: Db, b: nat)
    requires b in db.binders
    ensures TurnStep(db, b) == db.(bindings := TurnStep(db, b).bindings, binders := TurnStep(db, b).binders)
  {
    hide Stranded, ReportOf;
  }

  lemma StepKeepsInv(db: Db, step: Step)
    requires Inv(db)
    ensures Inv(Apply(db, step)) && Grows(db, Apply(db, step))
  {
    hide CallerOk, Grows, TurnStep, SelectStep, InsertStep, CommitStep, MarkDeleted, MarkScopeDeleted;
    match step
    case Select(c) => if c in db.callers { SelectKeepsInv(db, c); } else { GrowsReflexive(db); }
    case Insert(c, ids, upto) => if c in db.callers { InsertKeepsInv(db, c, ids, upto); } else { GrowsReflexive(db); }
    case Commit(c) => if c in db.callers { CommitKeepsInv(db, c); } else { GrowsReflexive(db); }
    case Tombstone(tenant, id) =>
      TombstonesKeepIdentity(db.index, tenant, id, Scope("", None, None, map[], None), "", db.next);
      RowUpdateKeepsInv(db, MarkDeleted(db.index, tenant, id));
    case TombstoneScope(tenant, scope, provider) =>
      TombstonesKeepIdentity(db.index, tenant, 0, scope, provider, db.next);
      RowUpdateKeepsInv(db, MarkScopeDeleted(db.index, tenant, scope, provider));
    case Turn(b) =>
      if b in db.binders {
        TurnsApart(db, b);
        BindingsDoNotMatter(db, TurnStep(db, b));
      } else {
        GrowsReflexive(db);
      }
  }

  lemma GrowsReflexive(db: Db)
    ensures Grows(db, db)
  {}

  lemma BindingsDoNotMatter(db: Db, after: Db)
    requires Inv(db) && after == db.(bindings := after.bindings, binders := after.binders)
    ensures Inv(after) && Grows(db, after)
  {
    RowUpdateKeepsInv(db, db.index);
    forall d | d in db.callers ensures CallerOk(after, d, db.callers[d]) {
      assert CallerOk(db, d, db.callers[d]);
    }
  }

  // -- theorems over whole runs ------------------------------------------------------------------------

  lemma GrowsTransitive(a: Db, b: Db, c: Db)
    requires Grows(a, b) && Grows(b, c)
    ensures Grows(a, c)
  {}

  lemma {:induction false} RunKeepsInv(db: Db, steps: seq<Step>)
    requires Inv(db)
    ensures Inv(Run(db, steps)) && Grows(db, Run(db, steps))
    decreases |steps|
  {
    hide Inv, Grows;
    if steps == [] {
      GrowsReflexive(db);
    } else {
      StepKeepsInv(db, steps[0]);
      RunKeepsInv(Apply(db, steps[0]), steps[1..]);
      GrowsTransitive(db, Apply(db, steps[0]), Run(db, steps));
    }
  }

  /** Callers that have not started, over a catalog with unique ids. */
  ghost predicate Start(db: Db) {
    && TablesOk(db)
    && (forall k | k in db.born :: db.born[k].who !in db.callers)
    && (forall c | c in db.callers ::
          var r := db.callers[c]; r.phase.Ready? && r.attempt == 0 && r.first == {} && r.lost == [] && r.since == 0)
  }

  lemma StartIsInv(db: Db)
    requires Start(db)
    ensures Inv(db)
  {
    forall c | c in db.callers
      ensures CallerOk(db, c, db.callers[c]) && PendingOf(db.callers[c]) == map[]
    {
      NothingPendingOk(db.index, db.next, db.callers[c]);
    }
  }

  /** In every interleaving, a native id keeps its gateway id, a gateway id names one native id, and both only
      accumulate. */
  lemma IdentityForEver(db: Db, before: seq<Step>, steps: seq<Step>)
    requires Start(db)
    ensures var mid := Run(db, before); var after := Run(mid, steps);
            && IdsUnique(after.index)
            && (forall k | k in mid.index :: k in after.index && after.index[k].gatewayId == mid.index[k].gatewayId)
  {
    StartIsInv(db);
    RunKeepsInv(db, before);
    RunKeepsInv(Run(db, before), steps);
  }

  lemma {:induction false} ReturnedStays(db: Db, steps: seq<Step>, c: nat)
    requires c in db.callers && db.callers[c].phase.Returned?
    ensures c in Run(db, steps).callers && Run(db, steps).callers[c] == db.callers[c]
    decreases |steps|
  {
    hide Apply;
    if steps != [] {
      ReturnedStaysStep(db, steps[0], c);
      ReturnedStays(Apply(db, steps[0]), steps[1..], c);
    }
  }

  lemma ReturnedStaysStep(db: Db, step: Step, c: nat)
    requires c in db.callers && db.callers[c].phase.Returned?
    ensures c in Apply(db, step).callers && Apply(db, step).callers[c] == db.callers[c]
  {
    hide TurnStep, Taken, MustWait, LookUp, CommittedIndex, FinalKnown, RowsOf, InsertRows;
    if step.Turn? && step.b in db.binders { TurnsApart(db, step.b); }
  }

  /** An id that a call returned names the same native id for ever after. */
  lemma ReturnedIdsLast(db: Db, before: seq<Step>, steps: seq<Step>, c: nat, row: CatalogRow)
    requires Start(db) && c in Run(db, before).callers && Run(db, before).callers[c].phase.Returned?
    requires row in Run(db, before).callers[c].phase.rows
    ensures var index := Run(Run(db, before), steps).index;
            var k := Key(row.tenant, row.provider, row.native);
            k in index && index[k].gatewayId == row.gatewayId
            && forall l | l in index && index[l].gatewayId == row.gatewayId :: l == k
  {
    var mid := Run(db, before);
    StartIsInv(db);
    RunKeepsInv(db, before);
    RunKeepsInv(mid, steps);
    ReturnedStays(mid, steps, c);
    var after := Run(mid, steps);
    assert CallerOk(after, c, after.callers[c]);
    assert RowNames(after.index, after.callers[c], row);
  }

  /** After losing a race, every later lookup misses strictly fewer natives. */
  lemma ConflictShrinksMissing(db: Db, c: nat, later: Index)
    requires Inv(db) && c in db.callers && db.callers[c].phase.Looked? && IdentityKept(db.index, later)
    requires var caller := db.callers[c];
             Taken(db.index, caller.tenant, caller.provider, caller.Wanted(caller.phase.known)).Some?
    ensures var caller := db.callers[c];
            NativeSet(caller.Wanted(LookUp(later, caller))) < NativeSet(caller.Wanted(caller.phase.known))
  {
    var caller := db.callers[c];
    var known := caller.phase.known;
    TakenIs(db.index, caller.tenant, caller.provider, caller.Wanted(known));
    var lost := Taken(db.index, caller.tenant, caller.provider, caller.Wanted(known)).value;
    forall n
      ensures n in NativeSet(caller.Wanted(LookUp(later, caller))) ==>
              n in NativeSet(caller.Wanted(known)) && n != lost.native
    {
      LookedUp(later, caller, n);
      UnknownNatives(caller.items, known, n);
      assert CallerOk(db, c, caller) && KnownOk(db.index, caller, known);
    }
    assert lost.native in NativeSet(caller.Wanted(known));
  }

  function LostNatives(lost: seq<Key>): set<Native> { set k | k in lost :: k.native }

  lemma {:induction false} DistinctKeysCount(lost: seq<Key>, tenant: string, provider: string)
    requires Distinct(lost) && forall k | k in lost :: k == Key(tenant, provider, k.native)
    ensures |LostNatives(lost)| == |lost|
  {
    if lost != [] {
      var n := |lost| - 1;
      assert lost == lost[..n] + [lost[n]];
      forall i, j | 0 <= i < j < n ensures lost[..n][i] != lost[..n][j] {}
      DistinctKeysCount(lost[..n], tenant, provider);
      assert lost[n].native !in LostNatives(lost[..n]) by {
        forall k | k in lost[..n] ensures k.native != lost[n].native {
          var i :| 0 <= i < n && lost[i] == k;
          assert lost[i] != lost[n];
        }
      }
      assert LostNatives(lost) == LostNatives(lost[..n]) + {lost[n].native};
    }
  }

  /** The conflicts of a page that repeats nothing its first lookup missed. */
  lemma ConflictsAreRivals(db: Db, c: nat)
    requires Inv(db) && c in db.callers && Unrepeated(db.callers[c])
    ensures RivalPerConflict(db, c)
  {
    var caller := db.callers[c];
    assert CallerOk(db, c, caller);
    assert forall i, j | 0 <= i < j < |caller.lost| :: db.born[caller.lost[i]].commit < db.born[caller.lost[j]].commit;
    DistinctKeysCount(caller.lost, caller.tenant, caller.provider);
    SubsetSize(LostNatives(caller.lost), caller.first);
  }

  /** One rival commit for each conflict, every one newer than the last, every one for a different native that the
      first lookup missed. So k unseen natives cost at most k conflicts. */
  ghost predicate RivalPerConflict(db: Db, c: nat)
    requires c in db.callers
  {
    var caller := db.callers[c];
    && caller.attempt == |caller.lost| <= |caller.first|
    && Distinct(caller.lost)
    && (forall i | 0 <= i < |caller.lost| :: caller.lost[i] in db.born && db.born[caller.lost[i]].who != c
                                           && caller.lost[i].native in caller.first)
    && (forall i, j | 0 <= i < j < |caller.lost| ::
          db.born[caller.lost[i]].commit < db.born[caller.lost[j]].commit)
  }

  lemma SubsetSize<T>(a: set<T>, b: set<T>)
    requires a <= b
    ensures |a| <= |b|
  {
    assert b == a + (b - a);
  }

  /** The natives of a page that the catalog has not seen. */
  function Unseen(index: Index, tenant: string, provider: string, items: seq<Item>): set<Native> {
    set n | n in Natives(items) && Key(tenant, provider, n) !in index
  }

  function UnseenBy(index: Index, caller: Caller): set<Native> {
    Unseen(index, caller.tenant, caller.provider, caller.items)
  }

  lemma {:induction false} FirstWithinUnseen(origin: Index, db: Db, steps: seq<Step>, c: nat)
    requires Inv(db) && IdentityKept(origin, db.index) && c in db.callers
    requires db.callers[c].first <= UnseenBy(origin, db.callers[c])
    ensures c in Run(db, steps).callers
    ensures Run(db, steps).callers[c].first <= UnseenBy(origin, db.callers[c])
    ensures Run(db, steps).callers[c].items == db.callers[c].items
    decreases |steps|
  {
    hide Inv, Grows;
    if steps != [] {
      var after := Apply(db, steps[0]);
      FirstWithinUnseenStep(origin, db, steps[0], c);
      StepKeepsInv(db, steps[0]);
      assert IdentityKept(origin, after.index) by { GrowsKeepsIdentity(origin, db, after); }
      FirstWithinUnseen(origin, after, steps[1..], c);
    }
  }

  lemma GrowsKeepsIdentity(origin: Index, db: Db, after: Db)
    requires IdentityKept(origin, db.index) && Grows(db, after)
    ensures IdentityKept(origin, after.index)
  {}

  ghost predicate SameCall(a: Caller, b: Caller) {
    a.items == b.items && a.tenant == b.tenant && a.provider == b.provider
  }

  lemma FirstWithinUnseenStep(origin: Index, db: Db, step: Step, c: nat)
    requires IdentityKept(origin, db.index) && c in db.callers
    requires db.callers[c].first <= UnseenBy(origin, db.callers[c])
    ensures c in Apply(db, step).callers && SameCall(Apply(db, step).callers[c], db.callers[c])
    ensures Apply(db, step).callers[c].first <= UnseenBy(origin, db.callers[c])
  {
    hide LookUp, UnseenBy, IdentityKept, InsertRows, CommittedIndex, FinalKnown, RowsOf, Taken, MustWait,
         TurnStep, Missing;
    var caller := db.callers[c];
    if step.Turn? && step.b in db.binders { TurnsApart(db, step.b); }
    if step == Select(c) && caller.phase.Ready? && caller.attempt == 0 {
      FirstLookupWithinUnseen(origin, db.index, caller);
    }
  }

  lemma FirstLookupWithinUnseen(origin: Index, index: Index, caller: Caller)
    requires IdentityKept(origin, index)
    ensures NativeSet(caller.Wanted(LookUp(index, caller))) <= UnseenBy(origin, caller)
  {
    forall n
      ensures n in NativeSet(caller.Wanted(LookUp(index, caller))) ==> n in UnseenBy(origin, caller)
    {
      LookedUp(index, caller, n);
    }
  }

  /** A page that repeats only natives the catalog had seen repeats nothing its first lookup missed. */
  lemma SeenRepeats(origin: Index, before: Caller, after: Caller)
    requires Mappable(origin, before.tenant, before.provider, before.items) && after.items == before.items
    requires after.first <= UnseenBy(origin, before)
    ensures Unrepeated(after)
  {}

  /** In every interleaving, each conflict of a page is another rival's doing. The page may repeat natives, as long as
      the catalog had seen those when the call began. */
  lemma EachConflictIsAnotherRival(db: Db, steps: seq<Step>, c: nat)
    requires Start(db) && c in db.callers
    requires Mappable(db.index, db.callers[c].tenant, db.callers[c].provider, db.callers[c].items)
    ensures c in Run(db, steps).callers && RivalPerConflict(Run(db, steps), c)
    ensures Run(db, steps).callers[c].first <= UnseenBy(db.index, db.callers[c])
  {
    hide UnseenBy, Mappable, Inv, RivalPerConflict;
    StartIsInv(db);
    RunKeepsInv(db, steps);
    assert db.callers[c].first == {};
    FirstWithinUnseen(db.index, db, steps, c);
    SeenRepeats(db.index, db.callers[c], Run(db, steps).callers[c]);
    ConflictsAreRivals(Run(db, steps), c);
  }

  /** Three attempts always suffice for a page with at most two unseen natives, whatever the rivals do; in general the
      call can raise only if at least three natives were unseen when it began. */
  lemma ThreeAttemptsSuffice(db: Db, steps: seq<Step>, c: nat)
    requires Start(db) && c in db.callers
    requires Mappable(db.index, db.callers[c].tenant, db.callers[c].provider, db.callers[c].items)
    ensures c in Run(db, steps).callers
    ensures Run(db, steps).callers[c].phase.Raised? ==> |UnseenBy(db.index, db.callers[c])| >= RETRIES
    ensures Run(db, steps).callers[c].attempt <= |UnseenBy(db.index, db.callers[c])|
  {
    hide UnseenBy, Mappable, Start;
    EachConflictIsAnotherRival(db, steps, c);
    StartIsInv(db);
    RunKeepsInv(db, steps);
    var after := Run(db, steps);
    SubsetSize(after.callers[c].first, UnseenBy(db.index, db.callers[c]));
    assert CallerOk(after, c, after.callers[c]);
  }

  /** A read's commit leaves every existing row exactly as it was. */
  lemma ReadsNeverOverwrite(db: Db, c: nat)
    requires Inv(db) && c in db.callers && !db.callers[c].revive
    ensures forall k | k in db.index :: k in CommitStep(db, c).index && CommitStep(db, c).index[k] == db.index[k]
  {
    var caller := db.callers[c];
    if caller.phase.Staged? {
      assert CallerOk(db, c, caller) && Apart(caller.phase.pending, db.index);
      ReviveNothing(db.index + caller.phase.pending, caller.tenant, caller.provider, caller.scope, caller.items);
    }
  }

  /** A committed call may hand back a row that is dead by then. It does so exactly when the lookup found the row live
      and somebody tombstoned it before the commit; inserted and revived rows are live. */
  lemma ReturnedLiveIff(db: Db, c: nat, row: CatalogRow)
    requires Inv(db) && c in db.callers && db.callers[c].phase.Staged?
    requires row in CommitStep(db, c).callers[c].phase.rows
    ensures var r, known := db.callers[c], db.callers[c].phase.known;
            var k := r.KeyOf(row.native);
            LiveAt(CommitStep(db, c).index, k) <==>
              !(row.native in known && known[row.native].Some? && GoneAt(db.index, k))
  {
    var r := db.callers[c];
    var known, pending := r.phase.known, r.phase.pending;
    var after := CommittedIndex(db.index, r, known, pending);
    StagedKnownOk(db, c);
    CommitTablesOk(db, r, known, pending);
    RowsOfMember(r.items, FinalKnown(after, r, known, pending), row);
    hide Inv, RowsOf, CommittedIndex, FinalKnown, PendingOk, KnownOk, TablesOk, LookUp;
    var n :| n in FinalKnown(after, r, known, pending) && FinalKnown(after, r, known, pending)[n] == Some(row);
    FinalNative(after, r, known, pending, n);
    CommitLiveness(db.index, r, known, pending, n);
  }

  function Tea(): Key { Key("t", "p", Foreign("x")) }

  /** One memory, live, and one call about to write it again. */
  function OneWriter(): Db {
    var page := [Item(Foreign("x"), "tea")];
    Db(map[Tea() := IndexRow(7, "u", None, None, "tea", false)], map[],
       map[0 := Caller("t", "p", page, Scope("u", None, None, map[], None), true, 0, Ready, {}, [], 0)],
       0, map[Tea() := Birth(0, 9)], 8, map[])
  }

  /** The call finds the memory live and has nothing to insert; somebody deletes the memory; the call commits. It
      returns the row, and the row is dead. */
  lemma DeadRowReturned()
    ensures Start(OneWriter())
    ensures var after := Run(OneWriter(), [Select(0), Insert(0, [], 8), Tombstone("t", 7), Commit(0)]);
            && 0 in after.callers && after.callers[0].phase.Returned? && GoneAt(after.index, Tea())
            && after.callers[0].phase.rows == [CatalogRow(7, "t", "p", Foreign("x"), "u", None, None)]
  {
    hide Start, SelectStep, InsertStep, CommitStep, MarkDeleted;
    WriterStarts();
    WriterLooks();
    var db := OneWriter();
    var looked := Apply(db, Select(0));
    var staged := Apply(looked, Insert(0, [], 8));
    WriterStages(looked);
    TeaDies();
    WriterCommits(Apply(staged, Tombstone("t", 7)));
    RunFour(db, Select(0), Insert(0, [], 8), Tombstone("t", 7), Commit(0));
  }

  lemma WriterStarts()
    ensures Start(OneWriter())
  {}

  lemma TeaDies()
    ensures MarkDeleted(OneWriter().index, "t", 7) == map[Tea() := IndexRow(7, "u", None, None, "tea", true)]
  {}

  function TeaKnown(): Known { map[Foreign("x") := Some(CatalogRow(7, "t", "p", Foreign("x"), "u", None, None))] }

  function WriterAt(phase: Phase): Caller { OneWriter().callers[0].(phase := phase) }

  lemma WriterLooks()
    ensures Apply(OneWriter(), Select(0)) == OneWriter().(callers := map[0 := WriterAt(Looked(TeaKnown()))])
    ensures WriterAt(Ready).Wanted(TeaKnown()) == []
  {
    var r := OneWriter().callers[0];
    assert r.items[1..] == [];
    assert Natives(r.items) == [Foreign("x")];
    assert LookUp(OneWriter().index, r) == TeaKnown();
    FilterNone(r.items, NotKnown(TeaKnown()));
    assert NativeSet([]) == {};
  }

  lemma WriterStages(looked: Db)
    requires looked == OneWriter().(callers := map[0 := WriterAt(Looked(TeaKnown()))])
    requires WriterAt(Ready).Wanted(TeaKnown()) == []
    ensures Apply(looked, Insert(0, [], 8)) == looked.(callers := map[0 := WriterAt(Staged(TeaKnown(), map[]))])
  {
    assert looked.callers[0].Wanted(TeaKnown()) == [];
    assert Natives([]) == [];
  }

  lemma WriterCommits(db: Db)
    requires 0 in db.callers && db.callers[0] == WriterAt(Staged(TeaKnown(), map[]))
    requires db.index == map[Tea() := IndexRow(7, "u", None, None, "tea", true)]
    ensures var after := Apply(db, Commit(0));
            && 0 in after.callers && after.index == db.index
            && after.callers[0].phase == Returned([CatalogRow(7, "t", "p", Foreign("x"), "u", None, None)])
  {
    hide Natives, LookUp, Doomed, Revive;
    NothingToRevive(db.index, db.callers[0]);
    TeaIsRead();
  }

  lemma NothingToRevive(index: Index, r: Caller)
    requires r == WriterAt(r.phase)
    ensures CommittedIndex(index, r, TeaKnown(), map[]) == index
    ensures FinalKnown(index, r, TeaKnown(), map[]) == TeaKnown()
  {
    hide Revive, LookUp, Natives;
    assert Doomed(Natives(r.items), TeaKnown()) == {};
    assert index + map[] == index;
    ReviveNothing(index, r.tenant, r.provider, r.scope, r.items);
    EmptyLookUp(r);
    assert TeaKnown() + map[] == TeaKnown();
  }

  lemma EmptyLookUp(r: Caller)
    ensures LookUp(map[], r) == map[]
  {
    hide Natives;
  }

  lemma TeaIsRead()
    ensures RowsOf([Item(Foreign("x"), "tea")], TeaKnown()) == [CatalogRow(7, "t", "p", Foreign("x"), "u", None, None)]
  {
    assert [Item(Foreign("x"), "tea")][1..] == [];
  }

  lemma RunFour(db: Db, a: Step, b: Step, c: Step, d: Step)
    ensures Run(db, [a, b, c, d]) == Apply(Apply(Apply(Apply(db, a), b), c), d)
  {
    hide Apply;
    RunThree(Apply(db, a), b, c, d);
    assert [a, b, c, d][1..] == [b, c, d];
  }

  lemma StagedKnownOk(db: Db, c: nat)
    requires Inv(db) && c in db.callers && db.callers[c].phase.Staged?
    ensures TablesOk(db) && PendingOk(db.index, db.next, db.callers[c], db.callers[c].phase.pending)
    ensures KnownOk(db.index, db.callers[c], db.callers[c].phase.known)
  {
    assert CallerOk(db, c, db.callers[c]);
  }

  /** Rows are filed under their own native id. */
  lemma FinalNative(after: Index, caller: Caller, known: Known, pending: Index, n: Native)
    requires forall m | m in known && known[m].Some? :: known[m].value.native == m
    requires n in FinalKnown(after, caller, known, pending) && FinalKnown(after, caller, known, pending)[n].Some?
    ensures FinalKnown(after, caller, known, pending)[n].value.native == n
  {
    hide Doomed, Natives;
  }

  lemma CommitLiveness(index: Index, caller: Caller, known: Known, pending: Index, n: Native)
    requires KnownOk(index, caller, known) && pending.Keys !! index.Keys
    requires forall k | k in pending :: k == caller.KeyOf(k.native) && !pending[k].deleted
    requires var final := FinalKnown(CommittedIndex(index, caller, known, pending), caller, known, pending);
             n in final && final[n].Some?
    ensures LiveAt(CommittedIndex(index, caller, known, pending), caller.KeyOf(n))
       <==> !(n in known && known[n].Some? && GoneAt(index, caller.KeyOf(n)))
  {
    hide Natives, RowNames;
  }

  // -- one caller alone --------------------------------------------------------------------------------

  lemma CommittedAt(index: Index, caller: Caller, pending: Index, n: Native)
    requires forall k | k in pending :: k !in index
    requires caller.Wants(n) && (caller.KeyOf(n) !in index ==> caller.KeyOf(n) in pending)
    ensures var after := CommittedIndex(index, caller, LookUp(index, caller), pending);
            var k := caller.KeyOf(n);
            && k in after
            && (k !in index ==> after[k] == pending[k])
            && (LiveAt(index, k) || !caller.revive ==> k in index ==> after[k] == index[k])
            && (GoneAt(index, k) && caller.revive ==> !after[k].deleted)
  {
    LookedUp(index, caller, n);
  }

  lemma FinalAt(after: Index, caller: Caller, known: Known, pending: Index, n: Native)
    requires caller.Wants(n) && caller.KeyOf(n) in after
    requires n in known ==> caller.KeyOf(n) !in pending
    requires n !in known ==> caller.KeyOf(n) in pending
    ensures var final := FinalKnown(after, caller, known, pending);
            && n in final
            && (n !in known ==> final[n] == LookUp(pending, caller)[n])
            && (n in known && known[n].Some? ==> final[n] == known[n])
            && (n in known && known[n].None? ==> final[n] == if caller.revive then LookUp(after, caller)[n] else None)
  {
    LookedUp(pending, caller, n);
    LookedUp(after, caller, n);
    hide Find, Missing, InsertRows, NativeSet;
    assert caller.Wants(n);
    assert n in Doomed(Natives(caller.items), known) <==> n in known && known[n].None?;
  }

  lemma FinalKnownAlone(index: Index, caller: Caller, pending: Index, n: Native)
    requires forall k | k in pending :: !pending[k].deleted && k !in index
    requires caller.Wants(n) && (caller.KeyOf(n) !in index ==> caller.KeyOf(n) in pending)
    ensures var after := CommittedIndex(index, caller, LookUp(index, caller), pending);
            var final := FinalKnown(after, caller, LookUp(index, caller), pending);
            var k := caller.KeyOf(n);
            LiveAt(after, k) == (n in final && final[n].Some?)
            && (LiveAt(after, k) ==> final[n] == Some(ToRow(k, after[k])))
  {
    var known, k := LookUp(index, caller), caller.KeyOf(n);
    var after := CommittedIndex(index, caller, known, pending);
    LookedUp(index, caller, n);
    LookedUp(pending, caller, n);
    LookedUp(after, caller, n);
    CommittedAt(index, caller, pending, n);
    FinalAt(after, caller, known, pending, n);
    hide CommittedIndex, FinalKnown;
  }

  /** The attempt's statements, run on the values alone, give exactly the mapping the sequential contracts are about. */
  lemma AlonePage(index: Index, r: Caller, ids: seq<nat>, bound: nat, upto: nat)
    requires |r.Wanted(LookUp(index, r))| <= |ids| && FreshIds(ids, bound, upto)
             && Mappable(index, r.tenant, r.provider, r.items)
    ensures var known := LookUp(index, r);
            var pending := InsertRows(r.tenant, r.provider, r.Wanted(known), r.scope, ids);
            var after := CommittedIndex(index, r, known, pending);
            MapPage(index, r.tenant, r.provider, r.items, r.scope, r.revive, ids)
              == Ok((after, RowsOf(r.items, FinalKnown(after, r, known, pending))))
  {
    var known := LookUp(index, r);
    MapPageFailsIff(index, r.tenant, r.provider, r.items, r.scope, r.revive, ids);
    AlonePending(index, r, ids, bound, upto);
    hide InsertRows, Missing, Revive, RowsOf, FinalKnown, Mappable, Natives, Increasing;
    var pending := InsertRows(r.tenant, r.provider, r.Wanted(known), r.scope, ids);
    AloneIndex(index, r, known, pending);
    AloneRows(index, r, pending);
  }

  lemma AlonePending(index: Index, r: Caller, ids: seq<nat>, bound: nat, upto: nat)
    requires FreshIds(ids, bound, upto) && |r.Wanted(LookUp(index, r))| <= |ids|
    ensures var pending := InsertRows(r.tenant, r.provider, r.Wanted(LookUp(index, r)), r.scope, ids);
            && (forall k | k in pending :: !pending[k].deleted && k !in index)
            && (forall n | r.Wants(n) && r.KeyOf(n) !in index :: r.KeyOf(n) in pending)
  {
    var missing := r.Wanted(LookUp(index, r));
    InsertRowsKeys(r.tenant, r.provider, missing, r.scope, ids);
    InsertRowsFresh(r.tenant, r.provider, missing, r.scope, ids, bound, upto);
    AloneWanted(index, r, missing, InsertRows(r.tenant, r.provider, missing, r.scope, ids));
  }

  lemma AloneWanted(index: Index, r: Caller, missing: seq<Item>, pending: Index)
    requires missing == r.Wanted(LookUp(index, r))
    requires forall k :: k in pending <==> k == r.KeyOf(k.native) && k.native in Natives(missing)
    ensures forall k | k in pending :: k !in index
    ensures forall n | r.Wants(n) && r.KeyOf(n) !in index :: r.KeyOf(n) in pending
  {
    forall k | k in pending
      ensures k !in index
    {
      assert k == r.KeyOf(k.native) && k.native in NativeSet(missing);
      LookedUp(index, r, k.native);
    }
    forall n | r.Wants(n) && r.KeyOf(n) !in index
      ensures r.KeyOf(n) in pending
    {
      LookedUp(index, r, n);
    }
  }

  lemma AloneRows(index: Index, r: Caller, pending: Index)
    requires forall k | k in pending :: !pending[k].deleted && k !in index
    requires forall n | r.Wants(n) && r.KeyOf(n) !in index :: r.KeyOf(n) in pending
    ensures var known := LookUp(index, r);
            var after := CommittedIndex(index, r, known, pending);
            RowsOf(r.items, FinalKnown(after, r, known, pending)) == LiveRows(after, r.tenant, r.provider, r.items)
  {
    hide CommittedIndex, FinalKnown, LookUp, RowsOf, LiveRows;
    var known := LookUp(index, r);
    var after := CommittedIndex(index, r, known, pending);
    var final := FinalKnown(after, r, known, pending);
    forall it | it in r.items
      ensures var k := r.KeyOf(it.native);
              LiveAt(after, k) == (it.native in final && final[it.native].Some?)
              && (LiveAt(after, k) ==> final[it.native] == Some(ToRow(k, after[k])))
    {
      ItemInPage(r.tenant, r.provider, r.items, it);
      FinalKnownAlone(index, r, pending, it.native);
    }
    RowsAgree(after, r.tenant, r.provider, final, r.items);
  }

  lemma AloneIndex(index: Index, r: Caller, known: Known, pending: Index)
    ensures !r.revive ==> CommittedIndex(index, r, known, pending) == index + pending
  {
    ReviveNothing(index + pending, r.tenant, r.provider, r.scope, r.items);
  }

  /** A caller with no rival: lookup, insert and commit return what the sequential mapping returns, and a page it
      refuses comes back as a lost attempt with no rival to blame. */
  lemma AloneIsMapPage(db: Db, c: nat, ids: seq<nat>, upto: nat)
    requires Start(db) && c in db.callers && FreshIds(ids, db.next, upto)
    requires |db.callers[c].Wanted(LookUp(db.index, db.callers[c]))| <= |ids|
    ensures var r := db.callers[c];
            var after := Run(db, [Select(c), Insert(c, ids, upto), Commit(c)]);
            var page := MapPage(db.index, r.tenant, r.provider, r.items, r.scope, r.revive, ids);
            && c in after.callers
            && (page.Ok? ==> after.index == page.value.0 && after.callers[c].phase == Returned(page.value.1))
            && (page.Err? ==> after.index == db.index && after.callers[c].phase == Ready && after.callers[c].lost == [])
  {
    hide Mappable, MapPage, InsertRows, CommittedIndex, RowsOf, FinalKnown, Taken, MustWait, LookUp, FreshIds,
         Distinct, TablesOk;
    var r, looked := db.callers[c], SelectStep(db, c);
    var known := LookUp(db.index, r);
    AloneDistinct(db.index, r, ids);
    AloneTakes(db.index, r);
    AloneWaitsForNobody(db, c);
    RunThree(db, Select(c), Insert(c, ids, upto), Commit(c));
    var inserted := InsertStep(looked, c, ids, upto);
    if Mappable(db.index, r.tenant, r.provider, r.items) {
      AlonePage(db.index, r, ids, db.next, upto);
      assert inserted.callers[c].phase.Staged?;
      SameCallSameRows(r, inserted.callers[c], db.index, known,
                       InsertRows(r.tenant, r.provider, r.Wanted(known), r.scope, ids));
    }
  }

  lemma AloneDistinct(index: Index, r: Caller, ids: seq<nat>)
    requires |r.Wanted(LookUp(index, r))| <= |ids|
    ensures Distinct(Natives(r.Wanted(LookUp(index, r)))) <==> Mappable(index, r.tenant, r.provider, r.items)
    ensures MapPage(index, r.tenant, r.provider, r.items, r.scope, r.revive, ids).Ok?
       <==> Mappable(index, r.tenant, r.provider, r.items)
  {
    MapPageFailsIff(index, r.tenant, r.provider, r.items, r.scope, r.revive, ids);
  }

  lemma AloneWaitsForNobody(db: Db, c: nat)
    requires Start(db) && c in db.callers
    ensures var looked := SelectStep(db, c); var r := db.callers[c];
            && c in looked.callers && looked.callers[c] == Selected(r, LookUp(db.index, r), db.commits)
            && looked.callers[c].Wanted(LookUp(db.index, r)) == r.Wanted(LookUp(db.index, r))
            && !MustWait(looked, c, r.Wanted(LookUp(db.index, r)))
  {
    var looked := SelectStep(db, c);
    assert forall d | d in looked.callers :: PendingOf(looked.callers[d]) == map[];
  }

  lemma AloneTakes(index: Index, r: Caller)
    ensures Taken(index, r.tenant, r.provider, r.Wanted(LookUp(index, r))).None?
  {
    var missing := r.Wanted(LookUp(index, r));
    TakenIs(index, r.tenant, r.provider, missing);
    var t := Taken(index, r.tenant, r.provider, missing);
    if t.Some? {
      UnknownNatives(r.items, LookUp(index, r), t.value.native);
    }
  }

  lemma RunThree(db: Db, a: Step, b: Step, c: Step)
    ensures Run(db, [a, b, c]) == Apply(Apply(Apply(db, a), b), c)
  {
    assert [a, b, c][1..] == [b, c] && [b, c][1..] == [c] && [c][1..] == [];
    assert Run(Apply(db, a), [b, c]) == Run(Apply(Apply(db, a), b), [c]);
    assert Run(Apply(Apply(db, a), b), [c]) == Run(Apply(Apply(Apply(db, a), b), c), []);
  }

  lemma {:induction false} RunAppend(db: Db, a: seq<Step>, b: seq<Step>)
    ensures Run(db, a + b) == Run(Run(db, a), b)
    decreases |a|
  {
    hide Apply;
    if a == [] {
      assert a + b == b;
    } else {
      assert (a + b)[1..] == a[1..] + b;
      RunAppend(Apply(db, a[0]), a[1..], b);
    }
  }

  /** The caller's history plays no part in what its commit does. */
  lemma SameCallSameRows(a: Caller, b: Caller, index: Index, known: Known, pending: Index)
    requires SameCall(a, b) && a.scope == b.scope && a.revive == b.revive
    ensures CommittedIndex(index, a, known, pending) == CommittedIndex(index, b, known, pending)
    ensures var after := CommittedIndex(index, a, known, pending);
            FinalKnown(after, a, known, pending) == FinalKnown(after, b, known, pending)
  {}
}
