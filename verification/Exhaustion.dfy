/** When the retries run out: rivals that each take one native of a page, and the call that raises because of them. */
module Exhaustion {
  import opened Prelude
  import opened Scopes
  import opened MemoryIndex
  import opened Transactions

  // -- rivals ------------------------------------------------------------------------

  /** A call that has not started and is about to map this one native of the other call's page. */
  ghost predicate Holds(db: Db, d: nat, c: nat, n: Native)
    requires c in db.callers
  {
    && d in db.callers && d != c && db.callers[d].phase.Ready?
    && db.callers[d].tenant == db.callers[c].tenant && db.callers[d].provider == db.callers[c].provider
    && |db.callers[d].items| == 1 && db.callers[d].items[0].native == n
  }

  /** For every native the catalog has not seen, such a rival stands ready. */
  ghost predicate RivalsReady(db: Db, c: nat)
    requires c in db.callers
  {
    forall n | n in UnseenBy(db.index, db.callers[c]) :: exists d :: Holds(db, d, c, n)
  }

  ghost predicate NobodyPending(db: Db) {
    forall d | d in db.callers :: !db.callers[d].phase.Staged?
  }

  // -- one round -----------------------------------------------------------------------

  lemma NobodyWaits(db: Db, c: nat, missing: seq<Item>)
    requires NobodyPending(db) && c in db.callers
    ensures !MustWait(db, c, missing)
  {}

  /** The rival looks its native up and does not find it, inserts it, and commits. */
  lemma RivalCommits(db: Db, d: nat, n: Native) returns (ids: seq<nat>, upto: nat)
    requires NobodyPending(db) && d in db.callers && db.callers[d].phase.Ready?
    requires |db.callers[d].items| == 1 && db.callers[d].items[0].native == n && db.callers[d].KeyOf(n) !in db.index
    ensures var after := Apply(Apply(Apply(db, Select(d)), Insert(d, ids, upto)), Commit(d));
            && after.index.Keys == db.index.Keys + {db.callers[d].KeyOf(n)}
            && after.callers.Keys == db.callers.Keys && after.callers[d].phase.Returned?
            && forall e | e in db.callers && e != d :: after.callers[e] == db.callers[e]
  {
    hide InsertStep, CommitStep, LookUp, MustWait, Taken, InsertRows, Missing, Natives;
    var r := db.callers[d];
    ids, upto := [db.next], db.next + 1;
    SoleMissing(db.index, r, n);
    var looked := Apply(db, Select(d));
    var known := LookUp(db.index, r);
    RivalInserts(looked, d, r, known, ids, upto);
    var inserted := Apply(looked, Insert(d, ids, upto));
    RivalPublishes(inserted, d, r, known, ids);
  }

  /** A page of one unseen native: the lookup finds nothing, and nobody has taken it. */
  lemma SoleMissing(index: Index, r: Caller, n: Native)
    requires |r.items| == 1 && r.items[0].native == n && r.KeyOf(n) !in index
    ensures LookUp(index, r) == map[] && r.Wanted(LookUp(index, r)) == r.items && Natives(r.items) == [n]
    ensures Taken(index, r.tenant, r.provider, r.items).None?
  {
    assert Natives(r.items) == [n];
    var known := LookUp(index, r);
    assert known == map[];
    FilterAll(r.items, NotKnown(known));
    TakenIs(index, r.tenant, r.provider, r.items);
  }

  lemma RivalInserts(db: Db, d: nat, r: Caller, known: Known, ids: seq<nat>, upto: nat)
    requires NobodyPending(db) && d in db.callers && SameCall(db.callers[d], r) && db.callers[d].scope == r.scope
    requires db.callers[d].phase == Looked(known) && r.Wanted(known) == r.items && |r.items| == 1
    requires ids == [db.next] && upto == db.next + 1 && Taken(db.index, r.tenant, r.provider, r.items).None?
    ensures Apply(db, Insert(d, ids, upto)) ==
              db.(callers := db.callers[d := db.callers[d].(
                    phase := Staged(known, InsertRows(r.tenant, r.provider, r.items, r.scope, ids)))], next := upto)
  {
    hide Taken, MustWait, InsertRows, Missing;
    NobodyWaits(db, d, r.items);
    assert db.callers[d].Wanted(known) == r.Wanted(known) by { SameWants(db.callers[d], r, known); }
    assert FreshIds(ids, db.next, upto) && Distinct(Natives(r.items));
  }

  lemma SameWants(a: Caller, b: Caller, known: Known)
    requires SameCall(a, b)
    ensures a.Wanted(known) == b.Wanted(known)
  {}

  lemma RivalPublishes(db: Db, d: nat, r: Caller, known: Known, ids: seq<nat>)
    requires d in db.callers && SameCall(db.callers[d], r) && |r.items| == 1 == |ids|
    requires db.callers[d].phase == Staged(known, InsertRows(r.tenant, r.provider, r.items, r.scope, ids))
    requires Natives(r.items) == [r.items[0].native]
    ensures var after := Apply(db, Commit(d));
            && after.index.Keys == db.index.Keys + {r.KeyOf(r.items[0].native)}
            && after.callers.Keys == db.callers.Keys && after.callers[d].phase.Returned?
            && forall e | e in db.callers && e != d :: after.callers[e] == db.callers[e]
  {
    hide InsertRows, RowsOf, FinalKnown, CommittedIndex, Natives;
    var pending := InsertRows(r.tenant, r.provider, r.items, r.scope, ids);
    InsertRowsKeys(r.tenant, r.provider, r.items, r.scope, ids);
    CommittedKeys(db.index, db.callers[d], known, pending);
    assert pending.Keys == {r.KeyOf(r.items[0].native)};
  }

  lemma CommittedKeys(index: Index, r: Caller, known: Known, pending: Index)
    ensures CommittedIndex(index, r, known, pending).Keys == index.Keys + pending.Keys
  {
    hide Doomed, Natives, ContentOf;
  }

  /** The ids an insert would draw now. */
  function Drawn(next: nat, n: nat): (ids: seq<nat>)
    ensures |ids| == n && FreshIds(ids, next, next + n)
  {
    seq(n, i requires 0 <= i < n => next + i)
  }

  /** The loser inserts what its lookup missed, runs into the rival's row, and is rolled back. */
  lemma LoserConflicts(db: Db, c: nat, n: Native, missing: seq<Item>)
    requires NobodyPending(db) && c in db.callers && db.callers[c].phase.Looked?
    requires missing == db.callers[c].Wanted(db.callers[c].phase.known) && n in Natives(missing)
    requires db.callers[c].KeyOf(n) in db.index
    ensures Apply(db, Insert(c, Drawn(db.next, |missing|), db.next + |missing|)) ==
              db.(callers := db.callers[c := Conflicted(db.callers[c],
                                                        Taken(db.index, db.callers[c].tenant, db.callers[c].provider,
                                                              missing))],
                  next := db.next + |missing|)
  {
    hide Taken, MustWait, FreshIds, Distinct, Missing, Drawn, Conflicted;
    var r := db.callers[c];
    NobodyWaits(db, c, missing);
    TakenIs(db.index, r.tenant, r.provider, missing);
  }

  /** One round of a lost race. */
  lemma LostRound(db: Db, c: nat, d: nat, n: Native) returns (round: seq<Step>)
    requires NobodyPending(db) && c in db.callers && db.callers[c].phase.Ready? && Holds(db, d, c, n)
    requires n in UnseenBy(db.index, db.callers[c])
    ensures RoundLost(db, Run(db, round), c, d, n)
  {
    hide InsertStep, CommitStep, Taken, MustWait, LookUp, Find, Missing, Natives, Run, UnseenBy, Drawn;
    var r := db.callers[c];
    var looked := Apply(db, Select(c));
    var known := LookUp(db.index, r);
    WantedUnseen(db.index, r, n);
    var ids, upto := RivalCommits(looked, d, n);
    var raced := Apply(Apply(Apply(looked, Select(d)), Insert(d, ids, upto)), Commit(d));
    var missing := r.Wanted(known);
    LoserConflicts(raced, c, n, missing);
    round := [Select(c), Select(d), Insert(d, ids, upto), Commit(d),
              Insert(c, Drawn(raced.next, |missing|), raced.next + |missing|)];
    RunRound(db, round[0], round[1], round[2], round[3], round[4]);
    assert Run(db, round) == Apply(raced, round[4]);
  }

  /** The call has used up one attempt, its rival has committed that one native, and nobody else has moved. */
  ghost predicate RoundLost(db: Db, after: Db, c: nat, d: nat, n: Native)
    requires c in db.callers
  {
    var r := db.callers[c];
    && NobodyPending(after) && c in after.callers && SameCall(after.callers[c], r)
    && after.callers[c].attempt == r.attempt + 1
    && after.callers[c].phase == (if r.attempt + 1 == RETRIES then Raised else Ready)
    && after.index.Keys == db.index.Keys + {r.KeyOf(n)} && after.callers.Keys == db.callers.Keys
    && forall e | e in db.callers && e != c && e != d :: after.callers[e] == db.callers[e]
  }

  lemma WantedUnseen(index: Index, r: Caller, n: Native)
    requires n in UnseenBy(index, r)
    ensures r.KeyOf(n) !in index && n in Natives(r.Wanted(LookUp(index, r)))
  {
    LookedUp(index, r, n);
  }

  lemma RunRound(db: Db, a: Step, b: Step, c: Step, d: Step, e: Step)
    ensures Run(db, [a, b, c, d, e]) == Apply(Apply(Apply(Apply(Apply(db, a), b), c), d), e)
  {
    hide Apply;
    RunThree(Apply(Apply(db, a), b), c, d, e);
    assert [a, b, c, d, e][1..] == [b, c, d, e] && [b, c, d, e][1..] == [c, d, e];
    assert Run(db, [a, b, c, d, e]) == Run(Apply(db, a), [b, c, d, e]) == Run(Apply(Apply(db, a), b), [c, d, e]);
  }

  // -- all the rounds --------------------------------------------------------------------

  /** The remaining natives, each with its own rival. */
  ghost predicate Lined(db: Db, c: nat, ns: seq<Native>)
    requires c in db.callers
  {
    Distinct(ns) && forall n | n in ns :: n in UnseenBy(db.index, db.callers[c]) && exists d :: Holds(db, d, c, n)
  }

  lemma StillLined(db: Db, after: Db, c: nat, d: nat, ns: seq<Native>)
    requires c in db.callers && Lined(db, c, ns) && ns != [] && Holds(db, d, c, ns[0])
    requires c in after.callers && SameCall(after.callers[c], db.callers[c])
    requires after.index.Keys == db.index.Keys + {db.callers[c].KeyOf(ns[0])}
    requires forall e | e in db.callers && e != c && e != d :: e in after.callers && after.callers[e] == db.callers[e]
    ensures Lined(after, c, ns[1..])
  {
    forall n | n in ns[1..]
      ensures n in UnseenBy(after.index, after.callers[c]) && exists f :: Holds(after, f, c, n)
    {
      assert n in ns && n != ns[0];
      var f :| Holds(db, f, c, n);
      assert Holds(after, f, c, n);
    }
  }

  /** As many lost rounds as there are attempts left. */
  lemma {:induction false} Exhausts(db: Db, c: nat, ns: seq<Native>) returns (steps: seq<Step>)
    requires NobodyPending(db) && c in db.callers && db.callers[c].phase.Ready? && Lined(db, c, ns)
    requires ns != [] && db.callers[c].attempt + |ns| == RETRIES
    ensures c in Run(db, steps).callers && Run(db, steps).callers[c].phase.Raised?
    decreases |ns|
  {
    hide Run, Apply, Holds, UnseenBy, NobodyPending;
    var n := ns[0];
    assert n in ns;
    var d :| Holds(db, d, c, n);
    var round := LostRound(db, c, d, n);
    steps := round;
    if |ns| > 1 {
      var after := Run(db, round);
      StillLined(db, after, c, d, ns);
      var rest := Exhausts(after, c, ns[1..]);
      RunAppend(db, round, rest);
      steps := round + rest;
    }
  }

  lemma SomeOf<T>(s: set<T>, k: nat) returns (picked: seq<T>)
    requires k <= |s|
    ensures |picked| == k && Distinct(picked) && forall x | x in picked :: x in s
  {
    if k == 0 {
      picked := [];
    } else {
      var x :| x in s;
      var rest := SomeOf(s - {x}, k - 1);
      picked := [x] + rest;
    }
  }

  /** The bound is exact. With a rival standing ready for each native the catalog has not seen, some interleaving makes
      the call raise if and only if it has at least three such natives. */
  lemma RaisesIff(db: Db, c: nat)
    requires Start(db) && c in db.callers && RivalsReady(db, c)
    requires Mappable(db.index, db.callers[c].tenant, db.callers[c].provider, db.callers[c].items)
    ensures (exists steps :: c in Run(db, steps).callers && Run(db, steps).callers[c].phase.Raised?)
       <==> |UnseenBy(db.index, db.callers[c])| >= RETRIES
  {
    hide UnseenBy, Holds;
    if |UnseenBy(db.index, db.callers[c])| >= RETRIES {
      var ns := SomeOf(UnseenBy(db.index, db.callers[c]), RETRIES);
      var steps := Exhausts(db, c, ns);
      assert c in Run(db, steps).callers && Run(db, steps).callers[c].phase.Raised?;
    }
    if steps :| c in Run(db, steps).callers && Run(db, steps).callers[c].phase.Raised? {
      ThreeAttemptsSuffice(db, steps, c);
    }
  }

  // -- concretely --------------------------------------------------------------------------

  function Asking(names: seq<string>): Caller {
    Caller("t", "p", Map(names, (s: string) => Item(Foreign(s), s)), Scope("u", None, None, map[], None), true, 0,
           Ready, {}, [], 0)
  }

  function FourCallers(): Db {
    Db(map[], map[], map[0 := Asking(["a", "b", "c"]), 1 := Asking(["a"]), 2 := Asking(["b"]), 3 := Asking(["c"])],
       0, map[], 0, map[])
  }

  /** A page of three natives and three calls for one of them each, over an empty catalog: the page's call can raise,
      though its page repeats nothing and every rival only did what it did itself. */
  lemma ThreeRivalsExhaust()
    ensures exists steps :: 0 in Run(FourCallers(), steps).callers && Run(FourCallers(), steps).callers[0].phase.Raised?
  {
    hide Holds, UnseenBy, Asking;
    FourStart();
    RaisesIff(FourCallers(), 0);
  }

  lemma AskingIs(names: seq<string>)
    ensures var r := Asking(names);
            && |r.items| == |names| == |Natives(r.items)| && r.tenant == "t" && r.provider == "p"
            && r.phase == Ready && r.attempt == 0 && r.first == {} && r.lost == [] && r.since == 0
            && (forall i | 0 <= i < |names| ::
                r.items[i].native == Foreign(names[i]) && Natives(r.items)[i] == Foreign(names[i]))
  {}

  lemma FourPage()
    ensures Natives(Asking(["a", "b", "c"]).items) == [Foreign("a"), Foreign("b"), Foreign("c")]
    ensures Foreign("a") != Foreign("b") && Foreign("b") != Foreign("c") && Foreign("a") != Foreign("c")
  {
    AskingIs(["a", "b", "c"]);
    hide Asking, Natives;
    assert "a"[0] != "b"[0] && "b"[0] != "c"[0] && "a"[0] != "c"[0];
  }

  lemma FourIdle()
    ensures Start(FourCallers())
  {
    hide Asking;
    AskingIs(["a", "b", "c"]);
    AskingIs(["a"]);
    AskingIs(["b"]);
    AskingIs(["c"]);
  }

  lemma FourStart()
    ensures var db := FourCallers();
            && Start(db) && Mappable(db.index, "t", "p", db.callers[0].items) && RivalsReady(db, 0)
            && db.callers[0].tenant == "t" && db.callers[0].provider == "p"
            && |UnseenBy(db.index, db.callers[0])| == 3
  {
    hide Start, Asking, Natives;
    FourIdle();
    FourPage();
    AskingIs(["a", "b", "c"]);
    AskingIs(["a"]);
    AskingIs(["b"]);
    AskingIs(["c"]);
    var db := FourCallers();
    assert UnseenBy(db.index, db.callers[0]) == {Foreign("a"), Foreign("b"), Foreign("c")};
    assert Holds(db, 1, 0, Foreign("a")) && Holds(db, 2, 0, Foreign("b")) && Holds(db, 3, 0, Foreign("c"));
  }
}
