/** Sequences of calls by any tenants: what bindings they leave, and how far index and stores stay in step. */
module Runs {
  import opened Prelude
  import opened Scopes
  import opened MemoryIndex
  import opened Vectors
  import opened Pgvector
  import opened Gateway
  import opened GatewayInvariant

  // -- bindings ------------------------------------------------------------------------

  /** An accepted write binds an unbound subject, a permitted rebind moves a binding, and nothing else touches one. */
  function NextBindings(cfg: Config, bindings: Bindings, e: Event): Bindings {
    match e.verb
    case RebindSubject(subject, provider, migrate) =>
      if migrate || provider !in cfg.caps then bindings else Rebind(bindings, e.tenant, subject, provider)
    case Upsert(_, scope, asserted) =>
      if Accepted(cfg, bindings, e)
      then Bind(bindings, e.tenant, scope.subject, Prepare(cfg, bindings, e.tenant, scope, asserted).value)
          else bindings
    case Ingest(_, _, scope, asserted) =>
      if Accepted(cfg, bindings, e)
      then Bind(bindings, e.tenant, scope.subject, Prepare(cfg, bindings, e.tenant, scope, asserted).value)
          else bindings
    case _ => bindings
  }

  lemma WriteBinds(cfg: Config, g: State, tenant: string, name: string, facts: seq<string>, scope: Scope,
                   ids: seq<nat>, now: nat, next: nat, upto: nat)
    requires Inv(cfg, g, next) && name in cfg.caps && FreshIds(ids, next, upto) && 2 * |facts| <= |ids|
    ensures WriteFacts(cfg, g, tenant, name, facts, scope, ids, now).0.bindings
            == Bind(g.bindings, tenant, scope.subject, name)
  {
    WriteFactsIs(cfg, g, tenant, name, facts, scope, ids, now, next, upto);
  }

  lemma KeepsBindings(cfg: Config, g: State, e: Event)
    requires (e.verb.Update? || e.verb.Delete?) && Supplied(cfg, g, e)
    ensures Step(cfg, g, e).0.bindings == g.bindings
  {}

  lemma WriteBindings(cfg: Config, g: State, next: nat, e: Event, upto: nat)
    requires Inv(cfg, g, next) && Proper(cfg, g.bindings, e, next, upto)
    ensures Supplied(cfg, g, e)
    ensures e.verb.Upsert? ==> StepUpsert(cfg, g, e).0.bindings == NextBindings(cfg, g.bindings, e)
    ensures e.verb.Ingest? ==> StepIngest(cfg, g, e).0.bindings == NextBindings(cfg, g.bindings, e)
  {
    hide WriteFacts, Inv, Prepare, FreshIds, StepIngest, Bind;
    Supply(cfg, g, next, e);
    if e.verb.Upsert? || e.verb.Ingest? {
      var v := e.verb;
      var name := Prepare(cfg, g.bindings, e.tenant, v.scope, v.asserted);
      if e.verb.Ingest? { IngestIs(cfg, g, next, e, upto); }
      if Accepted(cfg, g.bindings, e) {
        WriteBinds(cfg, g, e.tenant, name.value, v.facts, v.scope, e.ids, e.now, next, upto);
      }
    }
  }

  lemma StepBindingsAre(cfg: Config, g: State, next: nat, e: Event, upto: nat)
    requires Inv(cfg, g, next) && Proper(cfg, g.bindings, e, next, upto)
    ensures Supplied(cfg, g, e)
    ensures Step(cfg, g, e).0.bindings == NextBindings(cfg, g.bindings, e)
  {
    hide WriteFacts, StepIngest, StepUpsert, StepUpdate, StepSearch, StepList, StepGet, StepDelete, Inv, Prepare,
         FreshIds;
    Supply(cfg, g, next, e);
    match e.verb
    case Upsert(_, _, _) => WriteBindings(cfg, g, next, e, upto);
    case Ingest(_, _, _, _) => WriteBindings(cfg, g, next, e, upto);
    case Update(_, _) => KeepsBindings(cfg, g, e);
    case Delete(_) => KeepsBindings(cfg, g, e);
    case DeleteScope(_, _) =>
    case RebindSubject(_, _, _) =>
    case _ => ReadsChangeNothing(cfg, g, next, e);
  }

  // -- runs -----------------------------------------------------------------------

  /** The first id an event leaves unused. */
  function After(e: Event, next: nat): nat {
    if e.ids == [] then next else e.ids[|e.ids| - 1] + 1
  }

  /** A sequence of calls by any tenants, drawing ids from one ascending stream. */
  ghost predicate ProperRun(cfg: Config, bindings: Bindings, events: seq<Event>, next: nat)
    decreases |events|
  {
    events == [] ||
    (Proper(cfg, bindings, events[0], next, After(events[0], next))
     && ProperRun(cfg, NextBindings(cfg, bindings, events[0]), events[1..], After(events[0], next)))
  }

  ghost function Run(cfg: Config, g: State, next: nat, events: seq<Event>): (State, seq<Answer>)
    requires Inv(cfg, g, next) && ProperRun(cfg, g.bindings, events, next)
    decreases |events|
  {
    if events == [] then (g, [])
    else
      StepKeepsInv(cfg, g, next, events[0], After(events[0], next));
      StepBindingsAre(cfg, g, next, events[0], After(events[0], next));
      var (h, answer) := Step(cfg, g, events[0]);
      var (final, answers) := Run(cfg, h, After(events[0], next), events[1..]);
      (final, [answer] + answers)
  }

  /** Between the last id a call drew and the next id the generator would give there may be a gap. */
  lemma ProperTight(cfg: Config, bindings: Bindings, e: Event, next: nat, upto: nat)
    requires Proper(cfg, bindings, e, next, upto)
    ensures next <= After(e, next) <= upto && Proper(cfg, bindings, e, next, After(e, next))
  {
    if e.ids != [] {
      assert e.ids[|e.ids| - 1] in e.ids;
      forall id | id in e.ids
        ensures id <= e.ids[|e.ids| - 1]
      {
        var i :| 0 <= i < |e.ids| && e.ids[i] == id;
      }
    }
  }

  /** A run does not depend on how far below its first id the counting starts. */
  lemma {:induction false} EarlierStart(cfg: Config, g: State, early: nat, next: nat, events: seq<Event>)
    requires Inv(cfg, g, early) && Inv(cfg, g, next) && early <= next && ProperRun(cfg, g.bindings, events, next)
    ensures ProperRun(cfg, g.bindings, events, early)
    ensures Run(cfg, g, early, events) == Run(cfg, g, next, events)
    decreases |events|
  {
    hide Inv, Step, Supplied, Proper, NextBindings, After;
    if events != [] {
      var e := events[0];
      StartEarlier(cfg, g.bindings, e, early, next);
      StepKeepsInv(cfg, g, next, e, After(e, next));
      StepKeepsInv(cfg, g, early, e, After(e, early));
      StepBindingsAre(cfg, g, next, e, After(e, next));
      EarlierStart(cfg, Step(cfg, g, e).0, After(e, early), After(e, next), events[1..]);
    }
  }

  lemma StartEarlier(cfg: Config, bindings: Bindings, e: Event, early: nat, next: nat)
    requires Proper(cfg, bindings, e, next, After(e, next)) && early <= next
    ensures Proper(cfg, bindings, e, early, After(e, early)) && After(e, early) <= After(e, next)
  {}

  function EndOf(events: seq<Event>, next: nat): nat
    decreases |events|
  {
    if events == [] then next else EndOf(events[1..], After(events[0], next))
  }

  /** An erasure that names no labels. */
  predicate PlainErasure(e: Event) {
    e.verb.DeleteScope? ==> e.verb.scope.labels == map[]
  }

  // -- when an erasure is exact -----------------------------------------------------

  /** Every stored memory in the dimensions of the erasure carries its labels. */
  ghost predicate LabelsUniform(rows: seq<PgRow>, bound: Scope) {
    forall r | r in rows && CoversDims(bound, r.scope) :: CoversLabels(bound, r.scope)
  }

  ghost predicate Erases(cfg: Config, g: State, e: Event, name: string) {
    && e.verb.DeleteScope? && Prepare(cfg, g.bindings, e.tenant, e.verb.scope, e.verb.asserted) == Ok(name)
    && cfg.caps[name].supportsDeleteByScope
  }

  /** A stored row's index entry after an erasure: live unless the dimensions, labels aside, cover it. */
  lemma ErasureIndex(cfg: Config, g: State, next: nat, e: Event, name: string, p: string, r: PgRow)
    requires Inv(cfg, g, next) && Exact(g) && e.tenant != "" && Erases(cfg, g, e, name) && p in g.stores
             && r in g.stores[p]
    ensures LiveAt(StepDeleteScope(cfg, g, e).0.index, KeyOfRow(p, r))
       <==> !(p == name && CoversDims(e.verb.scope.Under(e.tenant), r.scope))
  {
    var k := KeyOfRow(p, r);
    assert LiveAt(g.index, k);
    FindRowOf(g.stores[p], r);
    TombstonedIff(cfg, g, next, e.tenant, e.verb.scope, name, k);
  }

  /** The tombstones ignore labels. An erasure leaves index and store in step exactly when no stored memory in its
      dimensions lacks its labels; an erasure without labels always does. */
  lemma ErasureExactIff(cfg: Config, g: State, next: nat, e: Event, name: string)
    requires Inv(cfg, g, next) && Exact(g) && e.tenant != "" && Erases(cfg, g, e, name)
    ensures Exact(StepDeleteScope(cfg, g, e).0) <==> LabelsUniform(g.stores[name], e.verb.scope.Under(e.tenant))
  {
    var after, bound := StepDeleteScope(cfg, g, e).0, e.verb.scope.Under(e.tenant);
    forall p, r | p in g.stores && r in g.stores[p]
      ensures LiveAt(after.index, KeyOfRow(p, r)) <==> !(p == name && CoversDims(bound, r.scope))
    {
      ErasureIndex(cfg, g, next, e, name, p, r);
    }
    forall p, r
      ensures p in after.stores && r in after.stores[p]
         <==> p in g.stores && r in g.stores[p] && (p == name ==> !Covers(bound, r.scope))
    {
      FilterMember(g.stores[name], Uncovered(bound), r);
      CoveredIsCovers(bound, r);
    }
  }

  lemma PlainErasureIsUniform(rows: seq<PgRow>, bound: Scope)
    requires bound.labels == map[]
    ensures LabelsUniform(rows, bound)
  {}

  /** What goes wrong otherwise: the memory is still stored, and its id is gone. */
  lemma LabelledErasureHides(cfg: Config, g: State, next: nat, e: Event, name: string, k: Key)
    requires Inv(cfg, g, next) && Exact(g) && e.tenant != "" && Erases(cfg, g, e, name)
    requires LiveAt(g.index, k) && k.provider == name && RowAt(g, k).Some?
    requires var bound := e.verb.scope.Under(e.tenant);
             CoversDims(bound, RowAt(g, k).value.scope) && !CoversLabels(bound, RowAt(g, k).value.scope)
    ensures var after := StepDeleteScope(cfg, g, e).0;
            && RowAt(after, k) == RowAt(g, k)
            && Resolve(after.index, k.tenant, g.index[k].gatewayId) == None
  {
    var after, bound := StepDeleteScope(cfg, g, e).0, e.verb.scope.Under(e.tenant);
    var r := RowAt(g, k).value;
    FindRowIn(g.stores[name], k.native.tick);
    FindRowFilter(g.stores[name], Uncovered(bound), k.native.tick);
    CoveredIsCovers(bound, r);
    TombstonedIff(cfg, g, next, e.tenant, e.verb.scope, name, k);
    forall l
      ensures !Owns(after.index, l, k.tenant, g.index[k].gatewayId)
    {
      if l in g.index && g.index[l].gatewayId == g.index[k].gatewayId { assert l == k; }
    }
  }

  /** In every run, index and stores stay coupled; without labelled erasures they stay in exact step. */
  lemma {:induction false} CoupledForEver(cfg: Config, g: State, next: nat, events: seq<Event>)
    requires Inv(cfg, g, next) && ProperRun(cfg, g.bindings, events, next)
    ensures Inv(cfg, Run(cfg, g, next, events).0, EndOf(events, next))
    ensures Exact(g) && (forall e | e in events :: PlainErasure(e)) ==> Exact(Run(cfg, g, next, events).0)
    decreases |events|
  {
    hide Inv, Exact, Step, Supplied;
    if events != [] {
      var e, upto := events[0], After(events[0], next);
      StepKeepsInv(cfg, g, next, e, upto);
      StepBindingsAre(cfg, g, next, e, upto);
      var h := Step(cfg, g, e).0;
      CoupledForEver(cfg, h, upto, events[1..]);
      assert e in events && forall x | x in events[1..] :: x in events;
      if Exact(g) && PlainErasure(e) {
        PlainStepKeepsExact(cfg, g, next, e, upto);
      }
    }
  }

  lemma PlainStepKeepsExact(cfg: Config, g: State, next: nat, e: Event, upto: nat)
    requires Inv(cfg, g, next) && Exact(g) && Proper(cfg, g.bindings, e, next, upto) && PlainErasure(e)
    ensures Supplied(cfg, g, e) && Exact(Step(cfg, g, e).0)
  {
    StepKeepsInv(cfg, g, next, e, upto);
    if e.verb.DeleteScope? {
      var name := Prepare(cfg, g.bindings, e.tenant, e.verb.scope, e.verb.asserted);
      if name.Ok? && cfg.caps[name.value].supportsDeleteByScope {
        PlainErasureIsUniform(g.stores[name.value], e.verb.scope.Under(e.tenant));
        ErasureExactIff(cfg, g, next, e, name.value);
      }
    }
  }
}
