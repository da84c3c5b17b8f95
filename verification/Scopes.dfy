/** Scopes, the covering relation every provider filter must implement, and the refusals made before a provider is
    called. */
module Scopes {
  import opened Prelude

  datatype Dim = Tenant | Subject | Agent | Session

  datatype Scope = Scope(
    subject: string,
    agent: Option<string>,
    session: Option<string>,
    labels: map<string, string>,
    tenant: Option<string>
  ) {
    /** The same scope, stamped with the credential's tenant; a claimed tenant is overwritten. */
    function Under(t: string): Scope { this.(tenant := Some(t)) }

    function WithoutTenant(): Scope { this.(tenant := None) }

    function Column(d: Dim): Option<string> {
      match d
      case Tenant => tenant
      case Subject => Some(subject)
      case Agent => agent
      case Session => session
    }

    /** The dimensions actually set. An empty string counts as unset, except for the subject. */
    function Dims(): map<Dim, string> {
      map d | d in {Tenant, Subject, Agent, Session} && (d == Subject || Truthy(Column(d))) :: Column(d).value
    }
  }

  /** Python truthiness of an optional string. */
  predicate Truthy(o: Option<string>) { o.Some? && o.value != "" }

  // -- the reference relation ----------------------------------------------------

  /** Every dimension set in the filter equals the row's. */
  ghost predicate CoversDims(filter: Scope, row: Scope) {
    forall d | d in filter.Dims() :: row.Column(d) == Some(filter.Dims()[d])
  }

  predicate CoversLabels(filter: Scope, row: Scope) {
    forall k | k in filter.labels :: k in row.labels && row.labels[k] == filter.labels[k]
  }

  ghost predicate Covers(filter: Scope, row: Scope) {
    CoversDims(filter, row) && CoversLabels(filter, row)
  }

  /** Covering, dimension by dimension: an agent, session or tenant that is absent or empty asks for nothing, the
      subject always counts, and every label asked for must be on the row. */
  lemma CoversIff(filter: Scope, row: Scope)
    ensures Covers(filter, row)
       <==> && row.subject == filter.subject
            && (filter.tenant == None || filter.tenant == Some("") || row.tenant == filter.tenant)
            && (filter.agent == None || filter.agent == Some("") || row.agent == filter.agent)
            && (filter.session == None || filter.session == Some("") || row.session == filter.session)
            && (forall k | k in filter.labels :: k in row.labels && row.labels[k] == filter.labels[k])
  {
    var dims := filter.Dims();
    assert dims.Keys <= {Tenant, Subject, Agent, Session} && Subject in dims && dims[Subject] == filter.subject;
    assert Tenant in dims <==> filter.tenant != None && filter.tenant != Some("");
    assert Agent in dims <==> filter.agent != None && filter.agent != Some("");
    assert Session in dims <==> filter.session != None && filter.session != Some("");
  }

  /** Setting one more dimension or label can only narrow what a filter covers. */
  lemma MoreDimensionsNarrow(wide: Scope, narrow: Scope, row: Scope)
    requires forall d | d in wide.Dims() :: d in narrow.Dims() && narrow.Dims()[d] == wide.Dims()[d]
    requires forall k | k in wide.labels :: k in narrow.labels && narrow.labels[k] == wide.labels[k]
    requires Covers(narrow, row)
    ensures Covers(wide, row)
  {
    forall d | d in wide.Dims()
      ensures row.Column(d) == Some(wide.Dims()[d])
    {
      assert row.Column(d) == Some(narrow.Dims()[d]);
    }
  }

  // -- the SQL conditions of the self-hosted store ----------------------------------

  datatype Condition = Condition(column: Dim, value: string)

  /** SQL equality: a NULL column equals nothing. */
  predicate Holds(c: Condition, row: Scope) { row.Column(c.column) == Some(c.value) }

  predicate AllHold(cs: seq<Condition>, row: Scope) { forall c | c in cs :: Holds(c, row) }

  function OptionalCondition(s: Scope, d: Dim): seq<Condition> {
    if Truthy(s.Column(d)) then [Condition(d, s.Column(d).value)] else []
  }

  /** One condition per dimension the caller set. */
  function Conditions(s: Scope): seq<Condition> {
    [Condition(Subject, s.subject)]
    + OptionalCondition(s, Tenant) + OptionalCondition(s, Agent) + OptionalCondition(s, Session)
  }

  lemma ConditionsAreCovers(filter: Scope, row: Scope)
    ensures AllHold(Conditions(filter), row) <==> CoversDims(filter, row)
  {
    var cs := Conditions(filter);
    if AllHold(cs, row) {
      forall d | d in filter.Dims()
        ensures row.Column(d) == Some(filter.Dims()[d])
      {
        assert Condition(d, filter.Dims()[d]) in cs;
      }
    }
    if CoversDims(filter, row) {
      forall c | c in cs
        ensures Holds(c, row)
      {
        assert c.column in filter.Dims() && filter.Dims()[c.column] == c.value;
      }
    }
  }

  // -- Mem0: the tenant rides inside user_id ------------------------------------------

  const ANY := "*"
  const TENANT_SEP := ":"

  /** Mem0 and Zep namespace the subject the same way. */
  function UserId(s: Scope): string {
    if Truthy(s.tenant) then s.tenant.value + TENANT_SEP + s.subject else s.subject
  }

  function OrAny(o: Option<string>): string { if Truthy(o) then o.value else ANY }

  /** Reads name every dimension; unset ones become the wildcard. */
  function BuildFilters(s: Scope): map<string, string> {
    map["user_id" := UserId(s), "agent_id" := OrAny(s.agent), "run_id" := OrAny(s.session)]
  }

  /** Writes name only what is set. */
  function WriteIds(s: Scope): map<string, string> {
    map["user_id" := UserId(s)]
    + (if Truthy(s.agent) then map["agent_id" := s.agent.value] else map[])
    + (if Truthy(s.session) then map["run_id" := s.session.value] else map[])
  }

  /** Mem0's side of the contract: the wildcard matches anything, including an absent id. */
  predicate FilterMatches(filters: map<string, string>, ids: map<string, string>) {
    forall k | k in filters :: filters[k] == ANY || (k in ids && ids[k] == filters[k])
  }

  ghost predicate Stamped(s: Scope) { Truthy(s.tenant) && ':' !in s.tenant.value }

  /** An agent or session literally named "*" reads as unset, so those dimensions are opened. */
  function OpenWildcards(s: Scope): Scope {
    s.(agent := if s.agent == Some(ANY) then None else s.agent,
       session := if s.session == Some(ANY) then None else s.session)
  }

  /** The position of the first colon splits a user id back into tenant and subject. */
  lemma UserIdInjective(a: Scope, b: Scope)
    requires Stamped(a) && Stamped(b)
    ensures UserId(a) == UserId(b) <==> a.tenant == b.tenant && a.subject == b.subject
  {
    if UserId(a) == UserId(b) {
      var s, t := a.tenant.value, b.tenant.value;
      assert UserId(a)[|s|] == ':' && forall i | 0 <= i < |s| :: UserId(a)[i] == s[i] && s[i] in s;
      assert UserId(b)[|t|] == ':' && forall i | 0 <= i < |t| :: UserId(b)[i] == t[i] && t[i] in t;
      assert |s| == |t|;
      assert UserId(a)[..|s|] == s && UserId(b)[..|s|] == t;
      assert UserId(a)[|s| + 1..] == a.subject && UserId(b)[|s| + 1..] == b.subject;
    }
  }

  /** Without a tenant the user id is the bare subject, so exactly one subject there passes for a tenant's. */
  lemma UnstampedCollidesIff(a: Scope, b: Scope)
    requires (a.tenant == None || a.tenant == Some("")) && Stamped(b)
    ensures UserId(a) == UserId(b) <==> a.subject == b.tenant.value + ":" + b.subject
  {}

  lemma Mem0FilterCovers(filter: Scope, row: Scope)
    requires Stamped(filter) && Stamped(row)
    ensures FilterMatches(BuildFilters(filter), WriteIds(row)) <==> CoversDims(OpenWildcards(filter), row)
  {
    UserIdInjective(filter, row);
    var open, filters, ids := OpenWildcards(filter), BuildFilters(filter), WriteIds(row);
    assert UserId(filter) != ANY by {
      assert |UserId(filter)| >= 2;
    }
    if FilterMatches(filters, ids) {
      assert filters["user_id"] == ids["user_id"];
      assert filters["agent_id"] == ANY || ("agent_id" in ids && ids["agent_id"] == filters["agent_id"]);
      assert filters["run_id"] == ANY || ("run_id" in ids && ids["run_id"] == filters["run_id"]);
      forall d | d in open.Dims()
        ensures row.Column(d) == Some(open.Dims()[d])
      {}
    }
    if CoversDims(open, row) {
      assert Subject in open.Dims() && Tenant in open.Dims();
      assert open.agent.Some? && open.agent.value != "" ==> Agent in open.Dims();
      assert open.session.Some? && open.session.value != "" ==> Session in open.Dims();
      forall k | k in filters
        ensures filters[k] == ANY || (k in ids && ids[k] == filters[k])
      {}
    }
  }

  function TenantScope(tenant: string, subject: string): Scope {
    Scope(subject, None, None, map[], Some(tenant))
  }

  /** Without the colon rule: exactly when two tenants can be given one user id by some choice of subjects. */
  lemma TenantsCollideIff(s: string, t: string)
    requires s != "" && t != "" && s != t
    ensures (exists x, y :: UserId(TenantScope(s, x)) == UserId(TenantScope(t, y)))
       <==> (s + TENANT_SEP <= t || t + TENANT_SEP <= s)
  {
    if x, y :| UserId(TenantScope(s, x)) == UserId(TenantScope(t, y)) {
      var u := UserId(TenantScope(s, x));
      assert u[..|s|] == s && u[..|t|] == t && u[|s|] == ':' && u[|t|] == ':';
      if |s| < |t| {
        assert t == u[..|t|] && s + TENANT_SEP == u[..|s| + 1];
      } else if |t| < |s| {
        assert s == u[..|s|] && t + TENANT_SEP == u[..|t| + 1];
      }
    }
    if s + TENANT_SEP <= t {
      CollisionWitness(s, t);
    } else if t + TENANT_SEP <= s {
      CollisionWitness(t, s);
    }
  }

  lemma CollisionWitness(s: string, t: string)
    requires s != "" && s + TENANT_SEP <= t
    ensures UserId(TenantScope(s, t[|s| + 1..] + ":u")) == UserId(TenantScope(t, "u"))
  {
    assert t == s + TENANT_SEP + t[|s| + 1..];
  }

  // -- refusals: capability checks and provider resolution ------------------------------

  datatype Mode = Semantic | Keyword | Hybrid | Graph | Temporal

  datatype Error =
    | EmptyUpsert
    | UnknownProvider(name: string)
    | NoProviderResolved
    | ProviderMismatch(asserted: string, resolved: string)
    | UnsupportedCapability
    | MemoryNotFound
    | NotImplementedYet
    | UniqueConflict

  datatype Capabilities = Capabilities(
    supportsIngest: bool, supportsUpsert: bool, supportsUpdate: bool,
    supportsDelete: bool, supportsDeleteByScope: bool, supportsList: bool,
    searchModes: set<Mode>, maxLimit: nat, scopeDims: set<Dim>, supportsLabels: bool
  )

  function PgvectorCapabilities(hasExtractor: bool): Capabilities {
    Capabilities(hasExtractor, true, true, true, true, true, {Semantic}, 200,
                 {Tenant, Subject, Agent, Session}, true)
  }

  const ZepCapabilities :=
    Capabilities(true, true, false, true, true, true, {Semantic, Graph, Temporal}, 50, {Tenant, Subject}, false)

  /** A dimension or label the provider cannot honour is refused, never dropped. */
  predicate ScopeSupported(s: Scope, caps: Capabilities) {
    && (forall d | d in s.Dims() :: d in caps.scopeDims)
    && (s.labels == map[] || caps.supportsLabels)
  }

  /** What that asks, dimension by dimension. */
  lemma ScopeSupportedIff(s: Scope, caps: Capabilities)
    ensures ScopeSupported(s, caps)
       <==> && Subject in caps.scopeDims
            && (s.tenant == None || s.tenant == Some("") || Tenant in caps.scopeDims)
            && (s.agent == None || s.agent == Some("") || Agent in caps.scopeDims)
            && (s.session == None || s.session == Some("") || Session in caps.scopeDims)
            && (s.labels == map[] || caps.supportsLabels)
  {
    var dims := s.Dims();
    assert dims.Keys <= {Tenant, Subject, Agent, Session} && Subject in dims;
    assert Tenant in dims <==> s.tenant != None && s.tenant != Some("");
    assert Agent in dims <==> s.agent != None && s.agent != Some("");
    assert Session in dims <==> s.session != None && s.session != Some("");
  }

  /** How a search is served: in which mode, whether that is a substitute, and what the substitute gives up. */
  datatype Decision = Decision(served: Mode, degraded: bool, lost: seq<string>)

  /** The only permitted substitutions, all of them to semantic search, and what each loses. */
  const SUBSTITUTIONS: map<Mode, (Mode, seq<string>)> :=
    map[Graph := (Semantic, ["graph_traversal"]),
        Temporal := (Semantic, ["fact_invalidation"]),
        Hybrid := (Semantic, ["keyword_match"])]

  function ResolveMode(requested: Mode, caps: Capabilities, degrade: bool): Result<Decision, Error> {
    if requested in caps.searchModes then Ok(Decision(requested, false, []))
    else if !degrade then Err(UnsupportedCapability)
    else if requested !in SUBSTITUTIONS || SUBSTITUTIONS[requested].0 !in caps.searchModes
        then Err(UnsupportedCapability)
    else Ok(Decision(SUBSTITUTIONS[requested].0, true, SUBSTITUTIONS[requested].1))
  }

  /** The binding if there is one, else the default; an assertion is only checked, never obeyed. */
  function ResolveProvider(bound: Option<string>, fallback: Option<string>, asserted: Option<string>)
    : Result<string, Error>
  {
    var resolved := if Truthy(bound) then bound else fallback;
    if resolved.None? then Err(NoProviderResolved)
    else if asserted.Some? && asserted.value != resolved.value then
      Err(ProviderMismatch(asserted.value, resolved.value))
    else Ok(resolved.value)
  }

  /** Zep filters by user alone. After the refusal of finer scopes that is exactly the covering relation. */
  lemma ZepUserFilterCovers(filter: Scope, row: Scope)
    requires Stamped(filter) && Stamped(row) && ScopeSupported(filter, ZepCapabilities)
    ensures UserId(filter) == UserId(row) <==> Covers(filter, row)
  {
    UserIdInjective(filter, row);
    assert Agent !in filter.Dims() && Session !in filter.Dims();
    assert filter.Dims().Keys == {Tenant, Subject};
  }

  /** Deleting the Zep user removes exactly the covered rows; the count is read from one listing of at most 1000. */
  lemma {:induction false} ZepDeleteScopeErasesCovered(filter: Scope, rows: seq<Scope>)
    requires Stamped(filter) && ScopeSupported(filter, ZepCapabilities) && forall r | r in rows :: Stamped(r)
    ensures var kept := Filter(rows, (r: Scope) => UserId(r) != UserId(filter));
            var listed := Take(Filter(rows, (r: Scope) => UserId(r) == UserId(filter)), 1000);
            && (forall r :: r in kept <==> r in rows && !Covers(filter, r))
            && (|listed| + |kept| == |rows| <==> |rows| <= |kept| + 1000)
  {
    var keep := (r: Scope) => UserId(r) != UserId(filter);
    var doom := (r: Scope) => UserId(r) == UserId(filter);
    FilterSplits(rows, doom, keep);
    forall r
      ensures r in Filter(rows, keep) <==> r in rows && !Covers(filter, r)
    {
      FilterMember(rows, keep, r);
      if r in rows { ZepUserFilterCovers(filter, r); }
    }
  }
}
