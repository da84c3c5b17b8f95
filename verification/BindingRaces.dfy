/** Binds and rebinds as the separate transactions they are, interleaved with everything else the catalog does. */
module BindingRaces {
  import opened Prelude
  import opened Scopes
  import opened MemoryIndex
  import opened Transactions

  // -- one transaction -----------------------------------------------------------------

  predicate About(r: Binder, tenant: string, subject: string) { (r.tenant, r.subject) == (tenant, subject) }

  /** The next turn of this binder writes the subject's binding. */
  predicate AboutToWrite(db: Db, r: Binder) {
    r.phase.Tallied? || (!r.moves && r.phase.Idle? && GetBinding(db.bindings, r.tenant, r.subject).None?)
  }

  predicate WritesFor(db: Db, step: Step, tenant: string, subject: string) {
    && step.Turn? && step.b in db.binders && About(db.binders[step.b], tenant, subject)
    && AboutToWrite(db, db.binders[step.b])
  }

  /** A step leaves a binding as it is, unless it is the writing transaction of a bind or rebind of that very
      subject. */
  lemma StepMovesBinding(db: Db, step: Step, tenant: string, subject: string)
    ensures var after, p := Apply(db, step), (tenant, subject);
            if WritesFor(db, step, tenant, subject)
            then p in after.bindings && after.bindings[p].provider == db.binders[step.b].provider
            else
              && (p in after.bindings <==> p in db.bindings)
              && (p in db.bindings ==> after.bindings[p] == db.bindings[p])
  {
    hide SelectStep, InsertStep, CommitStep;
    if step.Turn? && step.b in db.binders {
      var r := db.binders[step.b];
      assert About(r, tenant, subject) <==> (r.tenant, r.subject) == (tenant, subject);
    } else {
      OthersKeepBindings(db, step);
    }
  }

  lemma OthersKeepBindings(db: Db, step: Step)
    ensures !step.Turn? || step.b !in db.binders ==>
            Apply(db, step).bindings == db.bindings && Apply(db, step).binders == db.binders
  {}

  ghost predicate SameBind(a: Binder, b: Binder) { a == b.(phase := a.phase) }

  lemma TurnKeepsOthers(db: Db, b: nat, d: nat)
    requires b in db.binders && d in db.binders
    ensures KeepsOthers(db, TurnStep(db, b), b, d)
  {
    hide Stranded, ReportOf, Rephased, SameBind;
    var r := db.binders[b];
    forall phase
      ensures KeepsOthers(db, Rephased(db, b, phase), b, d)
    {
      RephasedKeepsOthers(db, b, phase, d);
    }
    NothingKeepsOthers(db, b, d);
  }

  ghost predicate KeepsOthers(db: Db, after: Db, b: nat, d: nat)
    requires d in db.binders
  {
    && after.binders.Keys == db.binders.Keys && SameBind(after.binders[d], db.binders[d])
    && (b != d ==> after.binders[d] == db.binders[d])
  }

  lemma RephasedKeepsOthers(db: Db, b: nat, phase: BinderPhase, d: nat)
    requires b in db.binders && d in db.binders
    ensures KeepsOthers(db, Rephased(db, b, phase), b, d)
  {}

  lemma NothingKeepsOthers(db: Db, b: nat, d: nat)
    requires d in db.binders
    ensures KeepsOthers(db, db, b, d)
  {}

  /** A binder advances by its own turns only. */
  lemma StepKeepsBinder(db: Db, step: Step, d: nat)
    requires d in db.binders
    ensures d in Apply(db, step).binders && SameBind(Apply(db, step).binders[d], db.binders[d])
    ensures step != Turn(d) ==> Apply(db, step).binders[d] == db.binders[d]
    ensures Apply(db, step).binders.Keys == db.binders.Keys
  {
    hide SelectStep, InsertStep, CommitStep, TurnStep;
    if step.Turn? && step.b in db.binders { TurnKeepsOthers(db, step.b, d); } else { OthersKeepBindings(db, step); }
  }

  lemma {:induction false} RunKeepsBinder(db: Db, steps: seq<Step>, d: nat)
    requires d in db.binders
    ensures d in Run(db, steps).binders && SameBind(Run(db, steps).binders[d], db.binders[d])
    ensures Turn(d) !in steps ==> Run(db, steps).binders[d] == db.binders[d]
    decreases |steps|
  {
    hide Apply;
    if steps != [] {
      assert steps[0] in steps && forall s | s in steps[1..] :: s in steps;
      StepKeepsBinder(db, steps[0], d);
      RunKeepsBinder(Apply(db, steps[0]), steps[1..], d);
    }
  }

  /** The same calls, each perhaps further along. */
  ghost predicate SamePeople(db: Db, after: Db) {
    && after.binders.Keys == db.binders.Keys
    && forall d | d in db.binders :: SameBind(after.binders[d], db.binders[d])
  }

  lemma StepKeepsPeople(db: Db, step: Step)
    ensures SamePeople(db, Apply(db, step))
  {
    hide Apply;
    OthersKeepBindings(db, step);
    forall d | d in db.binders
      ensures Apply(db, step).binders.Keys == db.binders.Keys && SameBind(Apply(db, step).binders[d], db.binders[d])
    {
      StepKeepsBinder(db, step, d);
    }
  }

  lemma {:induction false} RunKeepsPeople(db: Db, steps: seq<Step>)
    ensures SamePeople(db, Run(db, steps))
    decreases |steps|
  {
    hide Apply;
    if steps != [] {
      StepKeepsPeople(db, steps[0]);
      RunKeepsPeople(Apply(db, steps[0]), steps[1..]);
    }
  }

  // -- safety over every interleaving ------------------------------------------------------

  /** A subject once bound is never without a binding again. */
  lemma {:induction false} BindingsNeverVanish(db: Db, steps: seq<Step>, tenant: string, subject: string)
    requires (tenant, subject) in db.bindings
    ensures (tenant, subject) in Run(db, steps).bindings
    decreases |steps|
  {
    hide Apply;
    if steps != [] {
      StepMovesBinding(db, steps[0], tenant, subject);
      BindingsNeverVanish(Apply(db, steps[0]), steps[1..], tenant, subject);
    }
  }

  /** No transaction of the run belongs to a rebind of the subject. */
  ghost predicate Unmoved(db: Db, steps: seq<Step>, tenant: string, subject: string) {
    forall b | b in db.binders && Turn(b) in steps :: !(About(db.binders[b], tenant, subject) && db.binders[b].moves)
  }

  /** However binds, rebinds of other subjects, lookups, inserts, commits and tombstones interleave, a subject's
      binding never moves without a rebind of its own; and if it had none, a bind of its own made the one it has. */
  lemma {:induction false} OnlyRebindMoves(db: Db, steps: seq<Step>, tenant: string, subject: string)
    requires BindersOk(db) && Unmoved(db, steps, tenant, subject)
    ensures var after, p := Run(db, steps), (tenant, subject);
            && (p in db.bindings ==> p in after.bindings && after.bindings[p] == db.bindings[p])
            && (p !in db.bindings && p in after.bindings ==>
                  exists b :: b in db.binders && Turn(b) in steps && About(db.binders[b], tenant, subject)
                           && after.bindings[p].provider == db.binders[b].provider)
    decreases |steps|
  {
    hide Apply, AboutToWrite;
    if steps != [] {
      var after, p := Apply(db, steps[0]), (tenant, subject);
      assert steps[0] in steps && forall s | s in steps[1..] :: s in steps;
      StepKeepsPeople(db, steps[0]);
      StepKeepsBinders(db, steps[0]);
      StepMovesBinding(db, steps[0], tenant, subject);
      if WritesFor(db, steps[0], tenant, subject) { WriterIsABind(db, steps[0], tenant, subject); }
      OnlyRebindMoves(after, steps[1..], tenant, subject);
      if p !in db.bindings && p in after.bindings {
        assert steps[0] == Turn(steps[0].b);
      }
    }
  }

  lemma WriterIsABind(db: Db, step: Step, tenant: string, subject: string)
    requires WritesFor(db, step, tenant, subject) && !db.binders[step.b].moves
             && BinderOk(db.bindings, db.binders[step.b])
    ensures (tenant, subject) !in db.bindings
  {}

  /** Binds and rebinds are in phases of their own, and a bind that met a conflict has a binding to read. */
  predicate BinderOk(bindings: Bindings, r: Binder) {
    match r.phase
    case Idle => true
    case Clashed => !r.moves && (r.tenant, r.subject) in bindings
    case Settled(_) => !r.moves
    case _ => r.moves
  }

  ghost predicate BindersOk(db: Db) {
    forall b | b in db.binders :: BinderOk(db.bindings, db.binders[b])
  }

  lemma TurnFits(db: Db, b: nat)
    requires b in db.binders && BinderOk(db.bindings, db.binders[b])
    ensures b in Apply(db, Turn(b)).binders && BinderOk(Apply(db, Turn(b)).bindings, Apply(db, Turn(b)).binders[b])
  {
    hide Apply, TurnStep, Stranded, ReportOf;
    TurnIs(db, b);
    if db.binders[b].moves { MoverFits(db, b); } else { BinderFits(db, b); }
  }

  lemma TurnIs(db: Db, b: nat)
    requires b in db.binders
    ensures Apply(db, Turn(b)) == TurnStep(db, b)
  {}

  lemma MoverFits(db: Db, b: nat)
    requires b in db.binders && db.binders[b].moves && BinderOk(db.bindings, db.binders[b])
    ensures b in TurnStep(db, b).binders && BinderOk(TurnStep(db, b).bindings, TurnStep(db, b).binders[b])
  {
    hide Stranded, ReportOf, GetBinding;
  }

  lemma BinderFits(db: Db, b: nat)
    requires b in db.binders && !db.binders[b].moves && BinderOk(db.bindings, db.binders[b])
    ensures b in TurnStep(db, b).binders && BinderOk(TurnStep(db, b).bindings, TurnStep(db, b).binders[b])
  {
    hide Stranded, ReportOf;
  }

  /** The reading and counting turns of a rebind change nothing others can see. */
  lemma TurnsQuietly(db: Db, b: nat)
    requires b in db.binders && db.binders[b].moves && (db.binders[b].phase.Idle? || db.binders[b].phase.Seen?)
    ensures Apply(db, Turn(b)).index == db.index && Apply(db, Turn(b)).bindings == db.bindings
  {
    hide SelectStep, InsertStep, CommitStep, Stranded, ReportOf;
  }

  lemma StepKeepsBinders(db: Db, step: Step)
    requires BindersOk(db)
    ensures BindersOk(Apply(db, step))
  {
    hide Apply, AboutToWrite;
    StepKeepsPeople(db, step);
    var after := Apply(db, step);
    forall b | b in after.binders
      ensures BinderOk(after.bindings, after.binders[b])
    {
      StepKeepsBinder(db, step, b);
      StepMovesBinding(db, step, db.binders[b].tenant, db.binders[b].subject);
      if step == Turn(b) { TurnFits(db, b); }
    }
  }

  lemma {:induction false} RunKeepsBinders(db: Db, steps: seq<Step>)
    requires BindersOk(db)
    ensures BindersOk(Run(db, steps))
    decreases |steps|
  {
    hide Apply, BindersOk;
    if steps != [] {
      StepKeepsBinders(db, steps[0]);
      RunKeepsBinders(Apply(db, steps[0]), steps[1..]);
    }
  }

  /** After any interleaving, the turn of a bind either makes the binding of an unbound subject or touches none; and as
      it returns it answers with the binding then in force. */
  lemma BindAnswersInForce(db: Db, steps: seq<Step>, b: nat)
    requires BindersOk(db) && b in db.binders && !db.binders[b].moves
    ensures b in Run(db, steps).binders && b in Run(db, steps + [Turn(b)]).binders
    ensures var before, after := Run(db, steps), Run(db, steps + [Turn(b)]); var r := before.binders[b];
            && after.bindings == (if r.phase.Idle? then Bind(before.bindings, r.tenant, r.subject, r.provider)
                                  else before.bindings)
            && (after.binders[b].phase.Settled? && !r.phase.Settled? ==>
                  var now := GetBinding(after.bindings, r.tenant, r.subject);
                  now.Some? && after.binders[b].phase.provider == if Truthy(now) then now.value else r.provider)
  {
    RunKeepsBinders(db, steps);
    RunKeepsBinder(db, steps, b);
    RunKeepsBinder(db, steps + [Turn(b)], b);
    RunSnoc(db, steps, Turn(b));
    hide Run, Apply, TurnStep;
    var before := Run(db, steps);
    assert BinderOk(before.bindings, before.binders[b]);
    TurnIs(before, b);
    BindTurn(before, b);
  }

  lemma BindTurn(db: Db, b: nat)
    requires b in db.binders && !db.binders[b].moves && BinderOk(db.bindings, db.binders[b])
    ensures b in TurnStep(db, b).binders
    ensures var r, after := db.binders[b], TurnStep(db, b);
            && after.bindings == (if r.phase.Idle? then Bind(db.bindings, r.tenant, r.subject, r.provider)
                                  else db.bindings)
            && (after.binders[b].phase.Settled? && !r.phase.Settled? ==>
                  var now := GetBinding(after.bindings, r.tenant, r.subject);
                  now.Some? && after.binders[b].phase.provider == if Truthy(now) then now.value else r.provider)
  {
    hide Stranded, ReportOf;
  }

  lemma {:induction false} RunSnoc(db: Db, steps: seq<Step>, step: Step)
    ensures Run(db, steps + [step]) == Apply(Run(db, steps), step)
    decreases |steps|
  {
    hide Apply;
    if steps == [] {
      assert [] + [step] == [step] && [step][1..] == [];
      assert Run(db, [step]) == Run(Apply(db, step), []);
    } else {
      assert (steps + [step])[1..] == steps[1..] + [step];
      RunSnoc(Apply(db, steps[0]), steps[1..], step);
    }
  }

  // -- what a rebind reports ---------------------------------------------------------------

  /** Where the old binding leaves memories behind. */
  function Elsewhere(provider: string, previous: Option<string>): Option<string> {
    if previous == Some(provider) then None else previous
  }

  /** The database as each of a rebind's three transactions finds it, others stepping in between. */
  ghost function AtCount(db: Db, b: nat, mid: seq<Step>): Db { Run(Apply(db, Turn(b)), mid) }

  ghost function AtWrite(db: Db, b: nat, mid: seq<Step>, late: seq<Step>): Db {
    Run(Apply(AtCount(db, b, mid), Turn(b)), late)
  }

  /** The steps from just before the rebind's first turn to just before its last. */
  function Whole(b: nat, mid: seq<Step>, late: seq<Step>): seq<Step> { ([Turn(b)] + mid) + ([Turn(b)] + late) }

  ghost predicate StartsRebind(db: Db, b: nat, mid: seq<Step>, late: seq<Step>) {
    && b in db.binders && db.binders[b].phase.Idle? && db.binders[b].moves
    && Turn(b) !in mid && Turn(b) !in late
  }

  lemma RebindProgress(db: Db, b: nat, mid: seq<Step>, late: seq<Step>)
    requires StartsRebind(db, b, mid, late)
    ensures var r := db.binders[b];
            var previous := GetBinding(db.bindings, r.tenant, r.subject);
            var orphaned := Stranded(AtCount(db, b, mid).index, r, previous);
            && b in AtWrite(db, b, mid, late).binders
            && AtWrite(db, b, mid, late).binders[b] == r.(phase := Tallied(previous, orphaned))
  {
    hide Run;
    var r := db.binders[b];
    RunKeepsBinder(Apply(db, Turn(b)), mid, b);
    var counting := AtCount(db, b, mid);
    assert counting.binders[b].phase == Seen(GetBinding(db.bindings, r.tenant, r.subject));
    RunKeepsBinder(Apply(counting, Turn(b)), late, b);
  }

  /** The provider written by the last bind or rebind of the subject along a run, if any wrote. */
  ghost function LastWrite(db: Db, steps: seq<Step>, tenant: string, subject: string): Option<string>
    decreases |steps|
  {
    if steps == [] then None
    else
      var later := LastWrite(Apply(db, steps[0]), steps[1..], tenant, subject);
      if later.Some? then later
      else if WritesFor(db, steps[0], tenant, subject) then Some(db.binders[steps[0].b].provider) else None
  }

  /** A binding is what was last written to it. */
  lemma {:induction false} BindingIsLastWrite(db: Db, steps: seq<Step>, tenant: string, subject: string)
    ensures var last := LastWrite(db, steps, tenant, subject);
            GetBinding(Run(db, steps).bindings, tenant, subject)
              == if last.Some? then last else GetBinding(db.bindings, tenant, subject)
    decreases |steps|
  {
    hide Apply, AboutToWrite;
    if steps != [] {
      StepMovesBinding(db, steps[0], tenant, subject);
      BindingIsLastWrite(Apply(db, steps[0]), steps[1..], tenant, subject);
    }
  }

  function LiveIn(db: Db, tenant: string, subject: string, provider: string): set<Key> {
    LiveKeys(db.index, tenant, subject, provider)
  }

  /** How often, along a run, a memory of the subject at a provider became live. */
  ghost function Gained(db: Db, steps: seq<Step>, tenant: string, subject: string, provider: string): nat
    decreases |steps|
  {
    if steps == [] then 0
    else
      var after := Apply(db, steps[0]);
      |LiveIn(after, tenant, subject, provider) - LiveIn(db, tenant, subject, provider)|
      + Gained(after, steps[1..], tenant, subject, provider)
  }

  /** How often one died. */
  ghost function Died(db: Db, steps: seq<Step>, tenant: string, subject: string, provider: string): nat
    decreases |steps|
  {
    if steps == [] then 0
    else
      var after := Apply(db, steps[0]);
      |LiveIn(db, tenant, subject, provider) - LiveIn(after, tenant, subject, provider)|
      + Died(after, steps[1..], tenant, subject, provider)
  }

  lemma SetBalance<T>(a: set<T>, b: set<T>)
    ensures |a| + |b - a| == |b| + |a - b|
  {
    assert a + (b - a) == b + (a - b);
    assert |a + (b - a)| == |a| + |b - a| && |b + (a - b)| == |b| + |a - b|;
  }

  lemma {:induction false} LiveBalance(db: Db, steps: seq<Step>, tenant: string, subject: string, provider: string)
    ensures |LiveIn(db, tenant, subject, provider)| + Gained(db, steps, tenant, subject, provider)
         == |LiveIn(Run(db, steps), tenant, subject, provider)| + Died(db, steps, tenant, subject, provider)
    decreases |steps|
  {
    hide Apply, LiveIn;
    if steps != [] {
      SetBalance(LiveIn(db, tenant, subject, provider), LiveIn(Apply(db, steps[0]), tenant, subject, provider));
      LiveBalance(Apply(db, steps[0]), steps[1..], tenant, subject, provider);
    }
  }

  /** A reviving commit whose lookup found the row dead, though it is live again by now: the update has no condition on
      that, and writes its own scope over the row. */
  ghost predicate Overwrites(db: Db, step: Step, k: Key) {
    && step.Commit? && step.c in db.callers && db.callers[step.c].phase.Staged? && db.callers[step.c].revive
    && k == db.callers[step.c].KeyOf(k.native)
    && k.native in db.callers[step.c].phase.known && db.callers[step.c].phase.known[k.native].None?
  }

  /** A subject's memories become live by commits and by nothing else. It loses them by tombstones, and otherwise only
      to a commit that revives what somebody else has revived in the meantime. */
  lemma WhatMovesTheCount(db: Db, step: Step, tenant: string, subject: string, provider: string)
    requires Transactions.Inv(db)
    ensures !step.Commit? ==> LiveIn(Apply(db, step), tenant, subject, provider) <= LiveIn(db, tenant, subject,
            provider)
    ensures !step.Tombstone? && !step.TombstoneScope? ==>
              forall k | k in LiveIn(db, tenant, subject, provider) - LiveIn(Apply(db, step), tenant, subject,
                                                                             provider) ::
                Overwrites(db, step, k)
  {
    hide SelectStep, InsertStep, CommitStep, TurnStep, Transactions.Inv;
    match step
    case Select(c) => QuietStep(db, step);
    case Insert(c, _, _) => QuietStep(db, step);
    case Turn(b) => QuietStep(db, step);
    case Commit(c) =>
      if c in db.callers && db.callers[c].phase.Staged? { CommitKeepsLive(db, c); } else { IdleCommit(db, c); }
    case _ =>
  }

  lemma IdleCommit(db: Db, c: nat)
    requires c !in db.callers || !db.callers[c].phase.Staged?
    ensures Apply(db, Commit(c)) == db
  {}

  lemma QuietStep(db: Db, step: Step)
    requires step.Select? || step.Insert? || step.Turn?
    ensures Apply(db, step).index == db.index
  {
    hide Taken, MustWait, InsertRows, LookUp, TurnStep;
    if step.Turn? && step.b in db.binders { TurnsApart(db, step.b); }
  }

  lemma CommitKeepsLive(db: Db, c: nat)
    requires Transactions.Inv(db) && c in db.callers && db.callers[c].phase.Staged?
    ensures var after := CommitStep(db, c).index;
            forall k | LiveAt(db.index, k) && !Overwrites(db, Commit(c), k) :: k in after && after[k] == db.index[k]
  {
    StagedPendingOk(db, c);
    hide Transactions.Inv, RowsOf, FinalKnown, PendingOk, TablesOk;
    var r := db.callers[c];
    var known, pending := r.phase.known, r.phase.pending;
    forall k | LiveAt(db.index, k) && !Overwrites(db, Commit(c), k)
      ensures k in CommittedIndex(db.index, r, known, pending)
              && CommittedIndex(db.index, r, known, pending)[k] == db.index[k]
    {
      assert k.native in Doomed(Natives(r.items), known) ==> k.native in known && known[k.native].None?;
    }
  }

  /** What was last written to the rebind's subject between its read and its write. */
  ghost function WriteSince(db: Db, b: nat, mid: seq<Step>, late: seq<Step>): Option<string>
    requires b in db.binders
  {
    LastWrite(db, Whole(b, mid, late), db.binders[b].tenant, db.binders[b].subject)
  }

  /** As many memories at that provider became live as died between the rebind's count and its write. */
  ghost predicate CountHolds(db: Db, b: nat, mid: seq<Step>, late: seq<Step>, provider: string)
    requires b in db.binders
  {
    var r, counted := db.binders[b], Apply(AtCount(db, b, mid), Turn(b));
    Gained(counted, late, r.tenant, r.subject, provider) == Died(counted, late, r.tenant, r.subject, provider)
  }

  lemma WholeRun(db: Db, b: nat, mid: seq<Step>, late: seq<Step>)
    ensures Run(db, Whole(b, mid, late)) == AtWrite(db, b, mid, late)
  {
    hide Apply;
    RunAppend(db, [Turn(b)] + mid, [Turn(b)] + late);
    assert ([Turn(b)] + mid)[1..] == mid && ([Turn(b)] + late)[1..] == late;
  }

  lemma CountHoldsIff(db: Db, b: nat, mid: seq<Step>, late: seq<Step>)
    requires b in db.binders
    ensures var r, counting, writing := db.binders[b], AtCount(db, b, mid), AtWrite(db, b, mid, late);
            forall p :: CountHolds(db, b, mid, late, p) <==>
              |LiveKeys(counting.index, r.tenant, r.subject, p)| == |LiveKeys(writing.index, r.tenant, r.subject, p)|
  {
    hide Run, Apply, Gained, Died, LiveKeys;
    var r, counting := db.binders[b], AtCount(db, b, mid);
    TurnsKeepIndex(counting, b);
    forall p
      ensures CountHolds(db, b, mid, late, p) <==>
        |LiveKeys(counting.index, r.tenant, r.subject, p)|
        == |LiveKeys(AtWrite(db, b, mid, late).index, r.tenant, r.subject, p)|
    {
      LiveBalance(Apply(counting, Turn(b)), late, r.tenant, r.subject, p);
    }
  }

  /** The writing turn. */
  lemma FinalTurn(db: Db, b: nat, read: Option<string>, orphaned: nat)
    requires b in db.binders && db.binders[b].phase == Tallied(read, orphaned)
    ensures b in Apply(db, Turn(b)).binders
    ensures var r, after := db.binders[b], Apply(db, Turn(b));
            && after.bindings == db.bindings[(r.tenant, r.subject) := Binding(r.provider, read)]
            && after.binders[b].phase == Moved(ReportOf(r, read, orphaned))
            && (after.bindings == Rebind(db.bindings, r.tenant, r.subject, r.provider) <==>
                  read == GetBinding(db.bindings, r.tenant, r.subject))
  {
    hide SelectStep, InsertStep, CommitStep, Stranded;
    var p := (db.binders[b].tenant, db.binders[b].subject);
    assert db.bindings[p := Binding(db.binders[b].provider, read)][p].migratedFrom == read;
  }

  lemma ReportsAgree(r: Binder, counted: Index, index: Index, read: Option<string>, now: Option<string>,
                     bindings: Bindings)
    requires GetBinding(bindings, r.tenant, r.subject) == now
    ensures ReportOf(r, read, Stranded(counted, r, read))
            == RebindReport(index, bindings, r.tenant, r.subject, r.provider) <==>
              && Elsewhere(r.provider, read) == Elsewhere(r.provider, now)
              && (Elsewhere(r.provider, read).Some? ==>
                    |LiveKeys(counted, r.tenant, r.subject, read.value)|
                        == |LiveKeys(index, r.tenant, r.subject, read.value)|)
  {
    hide LiveKeys;
  }

  /** The binding is replaced whatever happened in between. What is remembered as its origin is true of the moment of
      the write exactly when, since it was read, nobody has written the subject's binding or the last to do so wrote
      what had been read. The report is true exactly when nobody has written since, or the last wrote what had been
      read, or an unbound subject was bound to the rebind's own target; and, where memories are left behind, as many of
      them became live as died since they were counted. */
  lemma RebindReportIff(db: Db, b: nat, mid: seq<Step>, late: seq<Step>)
    requires StartsRebind(db, b, mid, late)
    ensures b in AtWrite(db, b, mid, late).binders && b in Apply(AtWrite(db, b, mid, late), Turn(b)).binders
    ensures var r, writing := db.binders[b], AtWrite(db, b, mid, late);
            var after, p := Apply(writing, Turn(b)), (r.tenant, r.subject);
            var read, last := GetBinding(db.bindings, r.tenant, r.subject), WriteSince(db, b, mid, late);
            && p in after.bindings && after.bindings == writing.bindings[p := Binding(r.provider, read)]
            && (after.bindings == Rebind(writing.bindings, r.tenant, r.subject, r.provider) <==>
                  last.None? || last == read)
            && after.binders[b].phase.Moved?
            && (after.binders[b].phase.report
                == RebindReport(writing.index, writing.bindings, r.tenant, r.subject, r.provider) <==>
                  && (last.None? || last == read || (read.None? && last == Some(r.provider)))
                  && (Elsewhere(r.provider, read).Some? ==> CountHolds(db, b, mid, late, read.value)))
  {
    hide Run, Apply, LastWrite, Gained, Died, LiveKeys;
    var r := db.binders[b];
    var read, last := GetBinding(db.bindings, r.tenant, r.subject), WriteSince(db, b, mid, late);
    var counting, writing := AtCount(db, b, mid), AtWrite(db, b, mid, late);
    RebindProgress(db, b, mid, late);
    WholeRun(db, b, mid, late);
    BindingIsLastWrite(db, Whole(b, mid, late), r.tenant, r.subject);
    CountHoldsIff(db, b, mid, late);
    FinalTurn(writing, b, read, Stranded(counting.index, r, read));
    ReportsAgree(r, counting.index, writing.index, read, GetBinding(writing.bindings, r.tenant, r.subject),
                 writing.bindings);
  }

  /** A step that neither turns a bind or rebind of the subject nor touches the index. */
  predicate Bystander(db: Db, step: Step, tenant: string, subject: string) {
    match step
    case Turn(d) => d !in db.binders || !About(db.binders[d], tenant, subject)
    case Select(_) => true
    case Insert(_, _, _) => true
    case _ => false
  }

  lemma {:induction false} BystandersChangeNothing(db: Db, steps: seq<Step>, tenant: string, subject: string)
    requires forall s | s in steps :: Bystander(db, s, tenant, subject)
    ensures Run(db, steps).index == db.index
    ensures GetBinding(Run(db, steps).bindings, tenant, subject) == GetBinding(db.bindings, tenant, subject)
    decreases |steps|
  {
    hide Apply, AboutToWrite;
    if steps != [] {
      assert steps[0] in steps && forall s | s in steps[1..] :: s in steps;
      StepMovesBinding(db, steps[0], tenant, subject);
      BystanderKeepsIndex(db, steps[0], tenant, subject);
      StepKeepsPeople(db, steps[0]);
      StillBystanders(db, Apply(db, steps[0]), steps[1..], tenant, subject);
      BystandersChangeNothing(Apply(db, steps[0]), steps[1..], tenant, subject);
    }
  }

  lemma BystanderKeepsIndex(db: Db, step: Step, tenant: string, subject: string)
    requires Bystander(db, step, tenant, subject)
    ensures Apply(db, step).index == db.index
  {}

  /** With only bystanders in between, a rebind reports and remembers exactly what it replaces and strands. */
  lemma UndisturbedRebindIsExact(db: Db, b: nat, mid: seq<Step>, late: seq<Step>)
    requires StartsRebind(db, b, mid, late)
    requires var r := db.binders[b]; forall s | s in mid || s in late :: Bystander(db, s, r.tenant, r.subject)
    ensures b in Apply(AtWrite(db, b, mid, late), Turn(b)).binders
    ensures var r, after := db.binders[b], Apply(AtWrite(db, b, mid, late), Turn(b));
            && GetBinding(after.bindings, r.tenant, r.subject) == Some(r.provider)
            && after.bindings[(r.tenant, r.subject)].migratedFrom == GetBinding(db.bindings, r.tenant, r.subject)
            && after.binders[b].phase == Moved(RebindReport(db.index, db.bindings, r.tenant, r.subject, r.provider))
            && after.index == db.index
  {
    hide Run, Apply, AboutToWrite, LiveKeys, SamePeople, Stranded;
    var r := db.binders[b];
    RebindProgress(db, b, mid, late);
    var reading := Apply(db, Turn(b));
    TurnsQuietly(db, b);
    StepKeepsPeople(db, Turn(b));
    StillBystanders(db, reading, mid, r.tenant, r.subject);
    BystandersChangeNothing(reading, mid, r.tenant, r.subject);
    var counting := AtCount(db, b, mid);
    RunKeepsPeople(reading, mid);
    ReadingTurn(db, b);
    RunKeepsBinder(reading, mid, b);
    TurnsQuietly(counting, b);
    StepKeepsPeople(counting, Turn(b));
    SamePeopleStill(db, reading, counting, Apply(counting, Turn(b)));
    StillBystanders(db, Apply(counting, Turn(b)), late, r.tenant, r.subject);
    BystandersChangeNothing(Apply(counting, Turn(b)), late, r.tenant, r.subject);
    var writing := AtWrite(db, b, mid, late);
    assert writing.index == counting.index == db.index;
    var read := GetBinding(db.bindings, r.tenant, r.subject);
    FinalTurn(writing, b, read, Stranded(counting.index, r, read));
    ReportsAgree(r, db.index, db.index, read, read, db.bindings);
    TurnsKeepIndex(writing, b);
  }

  lemma TurnsKeepIndex(db: Db, b: nat)
    ensures Apply(db, Turn(b)).index == db.index
  {
    if b in db.binders { TurnsApart(db, b); }
  }

  lemma ReadingTurn(db: Db, b: nat)
    requires b in db.binders && db.binders[b].moves && db.binders[b].phase.Idle?
    ensures b in Apply(db, Turn(b)).binders && Apply(db, Turn(b)).binders[b].phase.Seen?
            && Apply(db, Turn(b)).binders[b].moves
  {}

  lemma SamePeopleStill(a: Db, b: Db, c: Db, d: Db)
    requires SamePeople(a, b) && SamePeople(b, c) && SamePeople(c, d)
    ensures SamePeople(a, d)
  {}

  lemma StillBystanders(db: Db, after: Db, steps: seq<Step>, tenant: string, subject: string)
    requires SamePeople(db, after) && forall s | s in steps :: Bystander(db, s, tenant, subject)
    ensures forall s | s in steps :: Bystander(after, s, tenant, subject)
  {}

  // -- stale reports ------------------------------------------------------------------------

  function Mover(provider: string): Binder { Binder("t", "u", provider, true, Idle) }

  function TwoMovers(): Db {
    Db(map[], map[("t", "u") := Binding("a", None)], map[], 0, map[], 0, map[1 := Mover("c"), 2 := Mover("b")])
  }

  function PhaseOf(db: Db, b: nat): BinderPhase { if b in db.binders then db.binders[b].phase else Idle }

  /** Two rebinds at once: the first reads the binding at "a", the second moves the subject to "b", and the first then
      moves it on to "c". It remembers and reports "a", and nothing remembers "b". */
  lemma StaleRebind()
    ensures var turns := [Turn(1), Turn(2), Turn(2), Turn(2), Turn(1), Turn(1)];
            var before, after := Run(TwoMovers(), turns[..5]), Run(TwoMovers(), turns);
            && GetBinding(before.bindings, "t", "u") == Some("b")
            && after.bindings == map[("t", "u") := Binding("c", Some("a"))]
            && PhaseOf(after, 1) == Moved(RebindResult("c", Some("a"), 0))
            && RebindReport(before.index, before.bindings, "t", "u", "c").orphanedAt == Some("b")
  {
    var turns := [Turn(1), Turn(2), Turn(2), Turn(2), Turn(1), Turn(1)];
    var db := TwoMovers();
    var d1 := Apply(db, Turn(1));
    var d2 := Apply(d1, Turn(2));
    var d3 := Apply(d2, Turn(2));
    var d4 := Apply(d3, Turn(2));
    var d5 := Apply(d4, Turn(1));
    RunFive(db, Turn(1), Turn(2), Turn(2), Turn(2), Turn(1));
    assert turns[..5] == [Turn(1), Turn(2), Turn(2), Turn(2), Turn(1)];
    RunSnoc(db, turns[..5], Turn(1));
    assert turns == turns[..5] + [Turn(1)];
    assert LiveKeys(map[], "t", "u", "a") == {};
  }

  lemma RunFive(db: Db, a: Step, b: Step, c: Step, d: Step, e: Step)
    ensures Run(db, [a, b, c, d, e]) == Apply(Apply(Apply(Apply(Apply(db, a), b), c), d), e)
  {
    hide Apply;
    RunThree(Apply(Apply(db, a), b), c, d, e);
    assert [a, b, c, d, e][1..] == [b, c, d, e] && [b, c, d, e][1..] == [c, d, e];
    assert Run(db, [a, b, c, d, e]) == Run(Apply(db, a), [b, c, d, e]) == Run(Apply(Apply(db, a), b), [c, d, e]);
  }
}
