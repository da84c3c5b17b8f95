/** Composite scope keys: a format with placeholders, read as a greedy pattern, and when reading a key undoes writing
    it. */
module ScopeKeys {
  import opened Prelude
  import opened Scopes

  datatype Token = Lit(c: char) | Slot(dim: Dim)

  datatype KeyError = BadFormat | NoMatch | NoSubject | BlankSubject

  function Spelling(d: Dim): (s: string)
    ensures |s| >= 2 && s[0] == '{' && forall i | 0 < i < |s| :: s[i] != '{'
  {
    match d
    case Tenant => "{tenant}"
    case Subject => "{subject}"
    case Agent => "{agent}"
    case Session => "{session}"
  }

  // -- the pattern ----------------------------------------------------------------------------

  predicate StartsWith(s: string, p: string) { p <= s }

  /** The placeholder of `dims` that a string starts with, if any. */
  function Leading(s: string, dims: seq<Dim>): Option<Dim> {
    if dims == [] then None
    else if StartsWith(s, Spelling(dims[0])) then Some(dims[0]) else Leading(s, dims[1..])
  }

  /** A format read once, left to right: placeholders of `dims` become slots, everything else is literal. */
  function Tokens(s: string, dims: seq<Dim>): seq<Token>
    decreases |s|
  {
    if s == "" then []
    else
      var d := Leading(s, dims);
      if d.Some? then
        LeadingIs(s, dims);
        [Slot(d.value)] + Tokens(s[|Spelling(d.value)|..], dims)
      else [Lit(s[0])] + Tokens(s[1..], dims)
  }

  lemma {:induction false} LeadingIs(s: string, dims: seq<Dim>)
    ensures Leading(s, dims).Some? ==> Leading(s, dims).value in dims && StartsWith(s, Spelling(Leading(s, dims).value))
    ensures Leading(s, dims).None? ==> forall d | d in dims :: !StartsWith(s, Spelling(d))
  {
    if dims != [] {
      LeadingIs(s, dims[1..]);
      assert dims == [dims[0]] + dims[1..];
    }
  }

  lemma OneLeads(s: string, d: Dim, e: Dim)
    requires StartsWith(s, Spelling(d)) && StartsWith(s, Spelling(e))
    ensures d == e
  {
    assert s[1] == Spelling(d)[1] && s[1] == Spelling(e)[1] && s[2] == Spelling(d)[2] && s[2] == Spelling(e)[2];
  }

  function Literal(s: string): (r: seq<Token>)
    ensures |r| == |s| && forall i :: 0 <= i < |s| ==> r[i] == Lit(s[i])
  {
    seq(|s|, i requires 0 <= i < |s| => Lit(s[i]))
  }

  /** One pass of str.replace over a pattern, for one placeholder. */
  function Replace(ts: seq<Token>, d: Dim): seq<Token>
    decreases |ts|
  {
    if ts == [] then []
    else if Literal(Spelling(d)) <= ts then [Slot(d)] + Replace(ts[|Spelling(d)|..], d)
    else [ts[0]] + Replace(ts[1..], d)
  }

  /** The characters of a placeholder's spelling are read one by one when the placeholder is not among those sought. */
  lemma {:induction false} TokensThrough(p: string, t: string, dims: seq<Dim>)
    requires forall i | 0 <= i < |p| :: p[i] != '{'
    ensures Tokens(p + t, dims) == Literal(p) + Tokens(t, dims)
    decreases |p|
  {
    hide Leading, Spelling, Literal;
    if p != "" {
      NothingLeads(p + t, dims);
      assert (p + t)[1..] == p[1..] + t;
      TokensThrough(p[1..], t, dims);
      LiteralCons(p, Tokens(t, dims));
    } else {
      assert p + t == t && Literal(p) == [];
    }
  }

  lemma LiteralCons(p: string, rest: seq<Token>)
    requires p != ""
    ensures Literal(p) + rest == [Lit(p[0])] + (Literal(p[1..]) + rest)
  {}

  lemma NothingLeads(s: string, dims: seq<Dim>)
    requires s != "" && s[0] != '{'
    ensures Leading(s, dims).None?
  {
    LeadingIs(s, dims);
  }

  /** A literal run at the head of the tokens spells the head of the format. */
  lemma {:induction false} LiteralHead(s: string, p: string, dims: seq<Dim>)
    requires Literal(p) <= Tokens(s, dims)
    ensures p <= s
    decreases |p|
  {
    if p != "" {
      var ts := Tokens(s, dims);
      assert ts[0] == Lit(p[0]);
      assert ts[1..] == Tokens(s[1..], dims);
      forall i | 0 <= i < |p[1..]|
        ensures Literal(p[1..])[i] == ts[1..][i]
      {
        assert Literal(p)[i + 1] == ts[i + 1];
      }
      assert Literal(p[1..]) <= ts[1..] by { assert ts[1..][..|p| - 1] == Literal(p[1..]); }
      LiteralHead(s[1..], p[1..], dims);
      assert s == [s[0]] + s[1..] && p == [p[0]] + p[1..];
    }
  }

  /** Where a placeholder already sought starts, the newcomer cannot. */
  lemma LeadingOld(s: string, dims: seq<Dim>, d: Dim)
    requires Leading(s, dims).Some?
    ensures Leading(s, dims + [d]) == Leading(s, dims)
  {
    LeadingIs(s, dims);
    LeadingIs(s, dims + [d]);
    OneLeads(s, Leading(s, dims).value, Leading(s, dims + [d]).value);
  }

  lemma LeadingNew(s: string, dims: seq<Dim>, d: Dim)
    requires Leading(s, dims).None?
    ensures Leading(s, dims + [d]) == if StartsWith(s, Spelling(d)) then Some(d) else None
  {
    LeadingIs(s, dims);
    LeadingIs(s, dims + [d]);
    if StartsWith(s, Spelling(d)) { OneLeads(s, d, Leading(s, dims + [d]).value); }
  }

  /** The newcomer's placeholder, still read character by character. */
  lemma SpelledOut(s: string, dims: seq<Dim>, d: Dim)
    requires Leading(s, dims).None? && StartsWith(s, Spelling(d))
    ensures Tokens(s, dims) == Literal(Spelling(d)) + Tokens(s[|Spelling(d)|..], dims)
  {
    SpelledText(s, Spelling(d), dims);
  }

  lemma SpelledText(s: string, p: string, dims: seq<Dim>)
    requires Leading(s, dims).None? && StartsWith(s, p) && |p| >= 2 && forall i | 0 < i < |p| :: p[i] != '{'
    ensures Tokens(s, dims) == Literal(p) + Tokens(s[|p|..], dims)
  {
    hide Spelling, Leading, Literal;
    var t := s[|p|..];
    assert s[1..] == p[1..] + t && s[0] == p[0];
    TokensThrough(p[1..], t, dims);
    LiteralCons(p, Tokens(t, dims));
  }

  lemma ReplaceAtSlot(e: Dim, rest: seq<Token>, d: Dim)
    ensures Replace([Slot(e)] + rest, d) == [Slot(e)] + Replace(rest, d)
  {
    var ts := [Slot(e)] + rest;
    assert Literal(Spelling(d))[0] == Lit('{') && ts[0] == Slot(e);
    assert ts[1..] == rest;
  }

  lemma ReplaceAtSpelling(rest: seq<Token>, d: Dim)
    ensures Replace(Literal(Spelling(d)) + rest, d) == [Slot(d)] + Replace(rest, d)
  {
    var p := Literal(Spelling(d));
    assert (p + rest)[|p|..] == rest && p <= p + rest;
  }

  lemma ReplaceAtLiteral(t: Token, rest: seq<Token>, d: Dim)
    requires !(Literal(Spelling(d)) <= [t] + rest)
    ensures Replace([t] + rest, d) == [t] + Replace(rest, d)
  {
    assert ([t] + rest)[1..] == rest;
  }

  /** Replacing one more placeholder is reading the format with one more placeholder in mind. */
  lemma {:induction false} ReplaceTokens(s: string, dims: seq<Dim>, d: Dim)
    ensures Replace(Tokens(s, dims), d) == Tokens(s, dims + [d])
    decreases |s|
  {
    hide Spelling, Literal, Replace, Leading;
    if s != "" {
      var e := Leading(s, dims);
      LeadingIs(s, dims);
      if e.Some? {
        LeadingOld(s, dims, d);
        ReplaceTokens(s[|Spelling(e.value)|..], dims, d);
        ReplaceAtSlot(e.value, Tokens(s[|Spelling(e.value)|..], dims), d);
      } else if StartsWith(s, Spelling(d)) {
        LeadingNew(s, dims, d);
        SpelledOut(s, dims, d);
        ReplaceTokens(s[|Spelling(d)|..], dims, d);
        ReplaceAtSpelling(Tokens(s[|Spelling(d)|..], dims), d);
      } else {
        LeadingNew(s, dims, d);
        ReplaceTokens(s[1..], dims, d);
        if Literal(Spelling(d)) <= Tokens(s, dims) { LiteralHead(s, Spelling(d), dims); }
        ReplaceAtLiteral(Lit(s[0]), Tokens(s[1..], dims), d);
      }
    } else {
      NothingToReplace(d);
    }
  }

  lemma NothingToReplace(d: Dim)
    ensures Replace([], d) == []
  {}

  lemma {:induction false} NoDims(s: string)
    ensures Tokens(s, []) == Literal(s)
  {
    if s != "" { NoDims(s[1..]); }
  }

  const FIELDS := [Tenant, Subject, Agent, Session]

  /** Start from the escaped format and substitute each placeholder in turn. */
  method BuildPattern(fmt: string) returns (pattern: seq<Token>)
    ensures pattern == Tokens(fmt, FIELDS)
  {
    NoDims(fmt);
    pattern := Literal(fmt);
    for i := 0 to |FIELDS|
      invariant pattern == Tokens(fmt, FIELDS[..i])
    {
      assert FIELDS[..i + 1] == FIELDS[..i] + [FIELDS[i]];
      ReplaceTokens(fmt, FIELDS[..i], FIELDS[i]);
      pattern := Replace(pattern, FIELDS[i]);
    }
    assert FIELDS[..|FIELDS|] == FIELDS;
  }

  // -- what the placeholders are -----------------------------------------------------------------

  /** A format in its own characters. */
  function WrittenOut(ts: seq<Token>): string {
    if ts == [] then ""
    else
      var rest := WrittenOut(ts[1..]);
      match ts[0]
      case Lit(c) => [c] + rest
      case Slot(Tenant) => "{tenant}" + rest
      case Slot(Subject) => "{subject}" + rest
      case Slot(Agent) => "{agent}" + rest
      case Slot(Session) => "{session}" + rest
  }

  lemma SlotLeads(d: Dim, rest: string)
    ensures Leading(Spelling(d) + rest, FIELDS) == Some(d)
  {
    var s := Spelling(d) + rest;
    assert StartsWith(s, Spelling(d)) && d in FIELDS;
    LeadingIs(s, FIELDS);
    OneLeads(s, d, Leading(s, FIELDS).value);
  }

  lemma WrittenSlot(d: Dim, rest: seq<Token>)
    ensures WrittenOut([Slot(d)] + rest) == Spelling(d) + WrittenOut(rest)
  {
    assert ([Slot(d)] + rest)[1..] == rest;
  }

  /** Any format whose literals hold no brace reads as it was meant, each placeholder as its own dimension. */
  lemma {:induction false} ReadsAsWritten(ts: seq<Token>)
    requires Lit('{') !in ts
    ensures Tokens(WrittenOut(ts), FIELDS) == ts
  {
    if ts != [] {
      var rest := WrittenOut(ts[1..]);
      assert ts == [ts[0]] + ts[1..];
      ReadsAsWritten(ts[1..]);
      if ts[0].Slot? {
        WrittenSlot(ts[0].dim, ts[1..]);
        SlotLeads(ts[0].dim, rest);
        assert (Spelling(ts[0].dim) + rest)[|Spelling(ts[0].dim)|..] == rest;
      } else {
        NothingLeads(WrittenOut(ts), FIELDS);
        assert WrittenOut(ts)[1..] == rest;
      }
    }
  }

  /** And nothing of a format is lost or changed in reading it, braces or not. */
  lemma {:induction false} ReadingLosesNothing(fmt: string)
    ensures WrittenOut(Tokens(fmt, FIELDS)) == fmt
    decreases |fmt|
  {
    if fmt != "" {
      var d := Leading(fmt, FIELDS);
      LeadingIs(fmt, FIELDS);
      if d.Some? {
        var rest := fmt[|Spelling(d.value)|..];
        ReadingLosesNothing(rest);
        WrittenSlot(d.value, Tokens(rest, FIELDS));
        assert fmt == Spelling(d.value) + rest;
      } else {
        ReadingLosesNothing(fmt[1..]);
        assert Tokens(fmt, FIELDS)[1..] == Tokens(fmt[1..], FIELDS);
      }
    }
  }

  /** The four placeholders by name. */
  lemma Placeholders()
    ensures Tokens("{tenant}", FIELDS) == [Slot(Tenant)] && Tokens("{subject}", FIELDS) == [Slot(Subject)]
    ensures Tokens("{agent}", FIELDS) == [Slot(Agent)] && Tokens("{session}", FIELDS) == [Slot(Session)]
  {
    forall d: Dim
      ensures Tokens(WrittenOut([Slot(d)]), FIELDS) == [Slot(d)]
    {
      ReadsAsWritten([Slot(d)]);
    }
    WrittenAlone();
  }

  lemma WrittenAlone()
    ensures WrittenOut([Slot(Tenant)]) == "{tenant}" && WrittenOut([Slot(Subject)]) == "{subject}"
    ensures WrittenOut([Slot(Agent)]) == "{agent}" && WrittenOut([Slot(Session)]) == "{session}"
  {}

  // -- matching ---------------------------------------------------------------------------------

  /** How far a slot can reach: up to the next slash. */
  function Reach(s: string): (n: nat)
    ensures n <= |s|
  {
    if s == "" || s[0] == '/' then 0 else 1 + Reach(s[1..])
  }

  /** The whole key against the pattern, each slot taking as much as it can and giving back only when it must. */
  function Match(ts: seq<Token>, s: string): Option<seq<string>>
    decreases |ts|, 0
  {
    if ts == [] then if s == "" then Some([]) else None
    else if ts[0].Lit? then
      if s != "" && s[0] == ts[0].c then Match(ts[1..], s[1..]) else None
    else TrySlot(ts[1..], s, Reach(s))
  }

  function TrySlot(rest: seq<Token>, s: string, n: nat): Option<seq<string>>
    requires n <= |s|
    decreases |rest|, n + 1
  {
    if n == 0 then None
    else
      var r := Match(rest, s[n..]);
      if r.Some? then Some([s[..n]] + r.value) else TrySlot(rest, s, n - 1)
  }

  function Slots(ts: seq<Token>): nat {
    if ts == [] then 0 else (if ts[0].Slot? then 1 else 0) + Slots(ts[1..])
  }

  /** What a slot can hold. */
  predicate Plain(v: string) { v != "" && '/' !in v }

  predicate Fits(ts: seq<Token>, vals: seq<string>) { |vals| == Slots(ts) && forall v | v in vals :: Plain(v) }

  function Render(ts: seq<Token>, vals: seq<string>): string
    requires |vals| == Slots(ts)
  {
    if ts == [] then ""
    else if ts[0].Lit? then [ts[0].c] + Render(ts[1..], vals)
    else vals[0] + Render(ts[1..], vals[1..])
  }

  lemma FitsCons(ts: seq<Token>, vals: seq<string>)
    requires ts != [] && ts[0].Slot?
    ensures Fits(ts, vals) <==> vals != [] && Plain(vals[0]) && Fits(ts[1..], vals[1..])
  {
    if vals != [] {
      assert vals == [vals[0]] + vals[1..];
    }
  }

  lemma {:induction false} ReachPlain(v: string, t: string)
    requires '/' !in v
    ensures Reach(v + t) == |v| + Reach(t)
  {
    if v == "" {
      assert v + t == t;
    } else {
      assert v[0] in v && forall c | c in v[1..] :: c in v;
      assert (v + t)[1..] == v[1..] + t;
      ReachPlain(v[1..], t);
    }
  }

  lemma {:induction false} ReachedIsPlain(s: string, n: nat)
    requires 0 < n <= Reach(s)
    ensures Plain(s[..n])
  {
    if n > 1 {
      ReachedIsPlain(s[1..], n - 1);
      assert s[..n] == [s[0]] + s[1..][..n - 1];
    } else {
      assert s[..1] == [s[0]];
    }
  }

  /** Whatever is matched renders back to the key. */
  lemma {:induction false} MatchSound(ts: seq<Token>, s: string)
    ensures Match(ts, s).Some? ==> Fits(ts, Match(ts, s).value) && Render(ts, Match(ts, s).value) == s
    decreases |ts|, 0
  {
    if ts != [] {
      if ts[0].Slot? {
        TrySound(ts, s, Reach(s));
      } else if s != "" {
        MatchSound(ts[1..], s[1..]);
        assert s == [s[0]] + s[1..];
      }
    }
  }

  lemma {:induction false} TrySound(ts: seq<Token>, s: string, n: nat)
    requires ts != [] && ts[0].Slot? && n <= Reach(s)
    ensures var r := TrySlot(ts[1..], s, n); r.Some? ==> Fits(ts, r.value) && Render(ts, r.value) == s
    decreases |ts| - 1, n + 1
  {
    if n != 0 {
      MatchSound(ts[1..], s[n..]);
      TrySound(ts, s, n - 1);
      var r := Match(ts[1..], s[n..]);
      if r.Some? {
        ReachedIsPlain(s, n);
        var vals := [s[..n]] + r.value;
        assert vals[1..] == r.value;
        FitsCons(ts, vals);
        assert s == s[..n] + s[n..];
      }
    }
  }

  /** At the first slot where two readings differ, the first takes more. */
  predicate Greedier(a: seq<string>, b: seq<string>) {
    a == b || (a != [] && b != [] && (|a[0]| > |b[0]| || (a[0] == b[0] && Greedier(a[1..], b[1..]))))
  }

  /** Any way to fill the slots means a match, and the match is the greediest of them all. */
  lemma {:induction false} MatchComplete(ts: seq<Token>, vals: seq<string>)
    requires Fits(ts, vals)
    ensures Match(ts, Render(ts, vals)).Some? && Greedier(Match(ts, Render(ts, vals)).value, vals)
    decreases |ts|, 0
  {
    if ts != [] {
      var s := Render(ts, vals);
      if ts[0].Lit? {
        MatchComplete(ts[1..], vals);
        assert s[1..] == Render(ts[1..], vals);
      } else {
        FitsCons(ts, vals);
        var t := Render(ts[1..], vals[1..]);
        ReachPlain(vals[0], t);
        TryComplete(ts, vals, s, Reach(s));
      }
    }
  }

  lemma {:induction false} TryComplete(ts: seq<Token>, vals: seq<string>, s: string, n: nat)
    requires ts != [] && ts[0].Slot? && Fits(ts, vals) && s == Render(ts, vals) && |vals[0]| <= n <= |s|
    ensures var r := TrySlot(ts[1..], s, n); r.Some? && Greedier(r.value, vals)
    decreases |ts| - 1, n + 1
  {
    FitsCons(ts, vals);
    var r := Match(ts[1..], s[n..]);
    if n == |vals[0]| {
      assert s[n..] == Render(ts[1..], vals[1..]) && s[..n] == vals[0];
      MatchComplete(ts[1..], vals[1..]);
      assert ([s[..n]] + r.value)[1..] == r.value;
    } else if r.None? {
      TryComplete(ts, vals, s, n - 1);
    }
  }

  /** A key matches exactly when it is some rendering of the format. */
  lemma MatchIff(ts: seq<Token>, s: string)
    ensures Match(ts, s).Some? <==> exists vals :: Fits(ts, vals) && Render(ts, vals) == s
  {
    MatchSound(ts, s);
    if vals :| Fits(ts, vals) && Render(ts, vals) == s { MatchComplete(ts, vals); }
  }

  // -- when reading undoes writing ---------------------------------------------------------------

  /** No two slots without a slash in a literal between them; `open` when a slot has been seen since the last slash. */
  predicate Separated(ts: seq<Token>, open: bool) {
    if ts == [] then true
    else if ts[0].Lit? then Separated(ts[1..], open && ts[0].c != '/')
    else !open && Separated(ts[1..], true)
  }

  /** How many literals follow before the next slash or the end. */
  function Gap(ts: seq<Token>): nat {
    if ts == [] || ts[0] == Lit('/') || ts[0].Slot? then 0 else 1 + Gap(ts[1..])
  }

  /** After a slot, the distance to the next slash does not depend on what the later slots hold. */
  lemma {:induction false} ReachIsGap(ts: seq<Token>, vals: seq<string>)
    requires Separated(ts, true) && |vals| == Slots(ts)
    ensures Reach(Render(ts, vals)) == Gap(ts)
  {
    if ts != [] && ts[0] != Lit('/') {
      ReachIsGap(ts[1..], vals);
      assert Render(ts, vals)[1..] == Render(ts[1..], vals);
    }
  }

  lemma {:induction false} RenderInjective(ts: seq<Token>, a: seq<string>, b: seq<string>, open: bool)
    requires Separated(ts, open) && Fits(ts, a) && Fits(ts, b) && Render(ts, a) == Render(ts, b)
    ensures a == b
  {
    if ts != [] {
      var s := Render(ts, a);
      if ts[0].Lit? {
        assert s[1..] == Render(ts[1..], a) && s[1..] == Render(ts[1..], b);
        RenderInjective(ts[1..], a, b, open && ts[0].c != '/');
      } else {
        FitsCons(ts, a);
        FitsCons(ts, b);
        var x, y := Render(ts[1..], a[1..]), Render(ts[1..], b[1..]);
        ReachIsGap(ts[1..], a[1..]);
        ReachIsGap(ts[1..], b[1..]);
        ReachPlain(a[0], x);
        ReachPlain(b[0], y);
        assert s[..|a[0]|] == a[0] && s[..|b[0]|] == b[0] && s[|a[0]|..] == x && s[|b[0]|..] == y;
        RenderInjective(ts[1..], a[1..], b[1..], true);
        assert a == [a[0]] + a[1..] && b == [b[0]] + b[1..];
      }
    }
  }

  lemma {:induction false} Filler(ts: seq<Token>) returns (vals: seq<string>)
    ensures Fits(ts, vals)
  {
    if ts == [] {
      vals := [];
    } else {
      vals := Filler(ts[1..]);
      if ts[0].Slot? {
        FitsCons(ts, ["x"] + vals);
        vals := ["x"] + vals;
      }
    }
  }

  /** Two slots with no slash between them can be filled in two ways that read the same. */
  lemma {:induction false} Ambiguous(ts: seq<Token>) returns (a: seq<string>, b: seq<string>)
    requires !Separated(ts, false)
    ensures Fits(ts, a) && Fits(ts, b) && a != b && Render(ts, a) == Render(ts, b)
    decreases |ts|
  {
    if ts[0].Lit? {
      a, b := Ambiguous(ts[1..]);
    } else {
      var x, y;
      x, y, a, b := AmbiguousAfter(ts[1..], "");
      assert x + "" == x && y + "" == y;
      FitsCons(ts, [x] + a);
      FitsCons(ts, [y] + b);
      a, b := [x] + a, [y] + b;
    }
  }

  /** After a slot and the slash-free literals `gap`. */
  lemma {:induction false} AmbiguousAfter(ts: seq<Token>, gap: string)
      returns (x: string, y: string, a: seq<string>, b: seq<string>)
    requires !Separated(ts, true) && '/' !in gap
    ensures Plain(x) && Plain(y) && Fits(ts, a) && Fits(ts, b) && [x] + a != [y] + b
    ensures x + gap + Render(ts, a) == y + gap + Render(ts, b)
    decreases |ts|
  {
    if ts[0] == Lit('/') {
      a, b := Ambiguous(ts[1..]);
      x, y := "x", "x";
      assert ([x] + a)[1..] == a && ([y] + b)[1..] == b;
    } else if ts[0].Lit? {
      x, y, a, b := AmbiguousAfter(ts[1..], gap + [ts[0].c]);
      Regroup(x, gap, ts[0].c, Render(ts[1..], a));
      Regroup(y, gap, ts[0].c, Render(ts[1..], b));
    } else {
      x, y, a, b := ShiftGap(ts, gap);
    }
  }

  lemma Regroup(x: string, gap: string, c: char, t: string)
    ensures x + gap + ([c] + t) == x + (gap + [c]) + t
  {}

  /** A slot right after the gap: the gap's text can be read as part of either slot. */
  lemma ShiftGap(ts: seq<Token>, gap: string) returns (x: string, y: string, a: seq<string>, b: seq<string>)
    requires ts != [] && ts[0].Slot? && '/' !in gap
    ensures Plain(x) && Plain(y) && Fits(ts, a) && Fits(ts, b) && [x] + a != [y] + b
    ensures x + gap + Render(ts, a) == y + gap + Render(ts, b)
  {
    var fill := Filler(ts[1..]);
    x, y, a, b := "x", "x" + gap + "y", ["y" + gap + "z"] + fill, ["z"] + fill;
    assert a[1..] == fill && b[1..] == fill;
    FitsCons(ts, a);
    FitsCons(ts, b);
    hide Fits;
    var t := Render(ts[1..], fill);
    assert x + gap + (("y" + gap + "z") + t) == y + gap + ("z" + t);
    assert |x| != |y|;
    assert ([x] + a)[0] != ([y] + b)[0];
  }

  /** Reading a key undoes writing it, for every choice of values, exactly when slashes separate the slots. */
  lemma MatchUndoesRenderIff(ts: seq<Token>)
    ensures (forall vals | Fits(ts, vals) :: Match(ts, Render(ts, vals)) == Some(vals)) <==> Separated(ts, false)
  {
    if Separated(ts, false) {
      forall vals | Fits(ts, vals)
        ensures Match(ts, Render(ts, vals)) == Some(vals)
      {
        MatchComplete(ts, vals);
        MatchSound(ts, Render(ts, vals));
        RenderInjective(ts, Match(ts, Render(ts, vals)).value, vals, false);
      }
    } else {
      var a, b := Ambiguous(ts);
      assert Match(ts, Render(ts, a)) == Match(ts, Render(ts, b));
    }
  }

  // -- the scope a key stands for ------------------------------------------------------------------

  function StripLeft(s: string, space: char -> bool): string {
    if s != "" && space(s[0]) then StripLeft(s[1..], space) else s
  }

  function StripRight(s: string, space: char -> bool): string {
    if s != "" && space(s[|s| - 1]) then StripRight(s[..|s| - 1], space) else s
  }

  function Strip(s: string, space: char -> bool): string { StripRight(StripLeft(s, space), space) }

  predicate Trimmed(s: string, space: char -> bool) { s != "" && !space(s[0]) && !space(s[|s| - 1]) }

  /** A blank agent or session is none at all. */
  function BlankIsNone(v: Option<string>, space: char -> bool): Option<string> {
    if v.None? || Strip(v.value, space) == "" then None else Some(Strip(v.value, space))
  }

  /** The model's validators: the subject is kept as given but must not be blank. */
  function NewScope(subject: string, agent: Option<string>, session: Option<string>,
                    space: char -> bool): Result<Scope, KeyError> {
    if Strip(subject, space) == "" then Err(BlankSubject)
    else Ok(Scope(subject, BlankIsNone(agent, space), BlankIsNone(session, space), map[], None))
  }

  /** A named group's text. */
  function Group(ts: seq<Token>, vals: seq<string>, d: Dim): Option<string>
    requires |vals| == Slots(ts)
  {
    if ts == [] then None
    else if ts[0].Lit? then Group(ts[1..], vals, d)
    else if ts[0].dim == d then Some(vals[0]) else Group(ts[1..], vals[1..], d)
  }

  /** A pattern may not name a group twice. */
  predicate NamesOnce(ts: seq<Token>) {
    forall i, j | 0 <= i < j < |ts| && ts[i].Slot? && ts[j].Slot? :: ts[i].dim != ts[j].dim
  }

  function ScopeOf(ts: seq<Token>, vals: seq<string>, space: char -> bool): Result<Scope, KeyError>
    requires |vals| == Slots(ts)
  {
    var subject := Group(ts, vals, Subject);
    if subject.None? then Err(NoSubject)
    else NewScope(subject.value, Group(ts, vals, Agent), Group(ts, vals, Session), space)
  }

  /** Values the validators leave alone: a subject that is not blank, and agent and session, where the format has them,
      trimmed. */
  predicate Clean(ts: seq<Token>, vals: seq<string>, space: char -> bool) {
    && |vals| == Slots(ts)
    && Group(ts, vals, Subject).Some? && Strip(Group(ts, vals, Subject).value, space) != ""
    && (Group(ts, vals, Agent).Some? ==> Trimmed(Group(ts, vals, Agent).value, space))
    && (Group(ts, vals, Session).Some? ==> Trimmed(Group(ts, vals, Session).value, space))
  }

  /** The reading a greedy matcher prefers among all readings of a key. */
  ghost predicate IsGreediest(ts: seq<Token>, key: string, vals: seq<string>) {
    && Fits(ts, vals) && Render(ts, vals) == key
    && forall other | Fits(ts, other) && Render(ts, other) == key :: Greedier(vals, other)
  }

  lemma MatchIsGreediest(ts: seq<Token>, key: string)
    requires Match(ts, key).Some?
    ensures IsGreediest(ts, key, Match(ts, key).value)
  {
    MatchSound(ts, key);
    forall other | Fits(ts, other) && Render(ts, other) == key
      ensures Greedier(Match(ts, key).value, other)
    {
      MatchComplete(ts, other);
    }
  }

  /** Compile, match the whole key, and build the scope from the groups; the tenant group is read and dropped. */
  method ParseScope(key: string, fmt: string, space: char -> bool) returns (r: Result<Scope, KeyError>)
    ensures var ts := Tokens(fmt, FIELDS);
            && (r == Err(BadFormat) <==> !NamesOnce(ts))
            && (r == Err(NoMatch) <==> NamesOnce(ts) && forall vals | Fits(ts, vals) :: Render(ts, vals) != key)
            && (r != Err(BadFormat) && r != Err(NoMatch) ==>
                  exists vals :: IsGreediest(ts, key, vals) && r == ScopeOf(ts, vals, space))
            && (NamesOnce(ts) && Separated(ts, false) ==>
                  forall vals | Fits(ts, vals) && Render(ts, vals) == key :: r == ScopeOf(ts, vals, space))
            && (NamesOnce(ts) && Separated(ts, false) ==>
                  forall vals | Fits(ts, vals) && Render(ts, vals) == key && Clean(ts, vals, space) ::
                    r == Ok(Scope(Group(ts, vals, Subject).value, Group(ts, vals, Agent), Group(ts, vals, Session),
                                  map[], None)))
  {
    var ts := BuildPattern(fmt);
    if !NamesOnce(ts) { return Err(BadFormat); }
    var found := Match(ts, key);
    MatchIff(ts, key);
    MatchSound(ts, key);
    MatchUndoesRenderIff(ts);
    if found.None? { return Err(NoMatch); }
    MatchIsGreediest(ts, key);
    var subject := Group(ts, found.value, Subject);
    if subject.None? { return Err(NoSubject); }
    r := NewScope(subject.value, Group(ts, found.value, Agent), Group(ts, found.value, Session), space);
    if Clean(ts, found.value, space) { GroupsSurvive(ts, found.value, space); }
  }

  // -- what the scope's fields are -----------------------------------------------------------------

  predicate Blank(v: string, space: char -> bool) { forall c | c in v :: space(c) }

  /** `t` is the text without the white space around it. */
  ghost predicate Trims(v: string, t: string, space: char -> bool) {
    Trimmed(t, space) && exists a, b :: v == a + t + b && Blank(a, space) && Blank(b, space)
  }

  lemma {:induction false} StripLeftIs(s: string, space: char -> bool) returns (a: string)
    ensures s == a + StripLeft(s, space) && Blank(a, space)
    ensures StripLeft(s, space) != "" ==> !space(StripLeft(s, space)[0])
  {
    a := "";
    if s != "" && space(s[0]) {
      a := StripLeftIs(s[1..], space);
      assert s == [s[0]] + s[1..];
      a := [s[0]] + a;
    }
  }

  lemma {:induction false} StripRightIs(s: string, space: char -> bool) returns (b: string)
    ensures s == StripRight(s, space) + b && Blank(b, space)
    ensures var t := StripRight(s, space); t != "" ==> !space(t[|t| - 1]) && t[0] == s[0]
  {
    b := "";
    if s != "" && space(s[|s| - 1]) {
      b := StripRightIs(s[..|s| - 1], space);
      assert s == s[..|s| - 1] + [s[|s| - 1]];
      b := b + [s[|s| - 1]];
    }
  }

  /** Stripping takes the white space at both ends and nothing else. */
  lemma StripIs(s: string, space: char -> bool)
    ensures Strip(s, space) == "" <==> Blank(s, space)
    ensures !Blank(s, space) ==> Trims(s, Strip(s, space), space)
  {
    var a := StripLeftIs(s, space);
    var b := StripRightIs(StripLeft(s, space), space);
    var t := Strip(s, space);
    assert s == a + t + b;
    if t == "" {
      assert forall c | c in s :: c in a || c in b;
    } else {
      assert t[0] in s;
    }
  }

  lemma Middle(v: string, a: string, t: string, b: string)
    requires v == a + t + b
    ensures t == v[|a|..|v| - |b|]
  {}

  /** There is one such text. */
  lemma TrimsOnce(v: string, t: string, u: string, space: char -> bool)
    requires Trims(v, t, space) && Trims(v, u, space)
    ensures t == u
  {
    var a, b :| v == a + t + b && Blank(a, space) && Blank(b, space);
    var c, d :| v == c + u + d && Blank(c, space) && Blank(d, space);
    hide Blank;
    Around(v, a, t, b, c, u, d, space);
    Around(v, c, u, d, a, t, b, space);
    Middle(v, a, t, b);
    Middle(v, c, u, d);
  }

  lemma Around(v: string, a: string, t: string, b: string, c: string, u: string, d: string, space: char -> bool)
    requires v == a + t + b == c + u + d && Trimmed(t, space) && Blank(c, space) && Blank(d, space)
    ensures |c| <= |a| && |d| <= |b|
  {
    hide Blank;
    assert v == a + (t + b) && v[..|c|] == c && v[|v| - |d|..] == d;
    StartsNoEarlier(v, a, t + b, c, space);
    EndsNoLater(v, a + t, b, d, space);
  }

  /** The text starts where the white space before it ends. */
  lemma StartsNoEarlier(v: string, a: string, t: string, c: string, space: char -> bool)
    requires v == a + t && c <= v && Blank(c, space) && t != "" && !space(t[0])
    ensures |c| <= |a|
  {
    assert v[|a|] == t[0] && forall i | 0 <= i < |c| :: c[i] in c && c[i] == v[i];
  }

  lemma EndsNoLater(v: string, t: string, b: string, d: string, space: char -> bool)
    requires v == t + b && |d| <= |v| && v[|v| - |d|..] == d && Blank(d, space) && t != "" && !space(t[|t| - 1])
    ensures |d| <= |b|
  {
    var n := |v| - |d|;
    assert v[|t| - 1] == t[|t| - 1];
    forall j | n <= j < |v|
      ensures space(v[j])
    {
      assert v[j] == d[j - n] && d[j - n] in d;
    }
  }

  /** A field that was given and is not blank, without the white space around it. */
  ghost predicate Tidied(given: Option<string>, kept: Option<string>, space: char -> bool) {
    if given.None? || Blank(given.value, space) then kept == None
    else kept.Some? && Trims(given.value, kept.value, space)
  }

  /** The validators: a blank subject is refused, any other is kept to the letter; agent and session are tidied. */
  lemma NewScopeIs(subject: string, agent: Option<string>, session: Option<string>, space: char -> bool)
    ensures var r := NewScope(subject, agent, session, space);
            && (Blank(subject, space) <==> r == Err(BlankSubject))
            && (r.Err? ==> r == Err(BlankSubject))
            && (r.Ok? ==>
                  && r.value.subject == subject && r.value.labels == map[] && r.value.tenant == None
                  && Tidied(agent, r.value.agent, space) && Tidied(session, r.value.session, space))
  {
    hide Strip, Trims;
    StripIs(subject, space);
    if agent.Some? { StripIs(agent.value, space); }
    if session.Some? { StripIs(session.value, space); }
  }

  /** A group holds the value of its own placeholder, and a format without the placeholder has no such group. */
  lemma {:induction false} GroupIs(ts: seq<Token>, vals: seq<string>, d: Dim)
    requires |vals| == Slots(ts) && NamesOnce(ts)
    ensures Group(ts, vals, d) == None <==> Slot(d) !in ts
    ensures forall i | 0 <= i < |ts| && ts[i] == Slot(d) ::
              Slots(ts[..i]) < |vals| && Group(ts, vals, d) == Some(vals[Slots(ts[..i])])
  {
    if ts != [] {
      var rest := ts[1..];
      assert ts == [ts[0]] + rest && NamesOnce(rest);
      var given := if ts[0].Slot? then vals[1..] else vals;
      GroupIs(rest, given, d);
      forall i | 0 <= i < |ts| && ts[i] == Slot(d)
        ensures Slots(ts[..i]) < |vals| && Group(ts, vals, d) == Some(vals[Slots(ts[..i])])
      {
        if i > 0 {
          assert ts[..i][0] == ts[0] && ts[..i][1..] == rest[..i - 1] && rest[i - 1] == Slot(d);
          assert ts[0] != Slot(d);
        }
      }
    }
  }

  /** The scope a reading stands for: no subject in the format is an error, a blank one is another, and otherwise each
      field is its own group's. */
  lemma ScopeOfIs(ts: seq<Token>, vals: seq<string>, space: char -> bool)
    requires |vals| == Slots(ts) && NamesOnce(ts)
    ensures var r, subject := ScopeOf(ts, vals, space), Group(ts, vals, Subject);
            && (r == Err(NoSubject) <==> Slot(Subject) !in ts)
            && (r == Err(BlankSubject) <==> subject.Some? && Blank(subject.value, space))
            && (r.Err? ==> r == Err(NoSubject) || r == Err(BlankSubject))
            && (r.Ok? ==>
                  && Some(r.value.subject) == subject && r.value.labels == map[] && r.value.tenant == None
                  && Tidied(Group(ts, vals, Agent), r.value.agent, space)
                  && Tidied(Group(ts, vals, Session), r.value.session, space))
  {
    hide Tidied, Blank, NewScope;
    GroupIs(ts, vals, Subject);
    var subject := Group(ts, vals, Subject);
    if subject.Some? { NewScopeIs(subject.value, Group(ts, vals, Agent), Group(ts, vals, Session), space); }
  }

  lemma {:induction false} GreedierBothWays(a: seq<string>, b: seq<string>)
    requires Greedier(a, b) && Greedier(b, a)
    ensures a == b
  {
    if a != [] && b != [] && a[0] == b[0] && Greedier(a[1..], b[1..]) && Greedier(b[1..], a[1..]) {
      GreedierBothWays(a[1..], b[1..]);
      assert a == [a[0]] + a[1..] && b == [b[0]] + b[1..];
    }
  }

  /** Among all readings of a key there is one greediest. */
  lemma GreediestIsUnique(ts: seq<Token>, key: string, a: seq<string>, b: seq<string>)
    requires IsGreediest(ts, key, a) && IsGreediest(ts, key, b)
    ensures a == b
  {
    GreedierBothWays(a, b);
  }

  /** The usual key, end to end: written with slashes, it gives its own three parts back. */
  lemma SubjectAgentSession(u: string, a: string, s: string, space: char -> bool)
    requires Plain(u) && Plain(a) && Plain(s) && !Blank(u, space) && Trimmed(a, space) && Trimmed(s, space)
    ensures var ts := Tokens("{subject}" + "/" + "{agent}" + "/" + "{session}", FIELDS);
            && NamesOnce(ts) && Match(ts, u + "/" + a + "/" + s) == Some([u, a, s]) && Slots(ts) == 3
            && ScopeOf(ts, [u, a, s], space) == Ok(Scope(u, Some(a), Some(s), map[], None))
  {
    var ts, vals := [Slot(Subject), Lit('/'), Slot(Agent), Lit('/'), Slot(Session)], [u, a, s];
    KeyFormat();
    KeyPattern(vals);
    MatchUndoesRenderIff(ts);
    StripIs(u, space);
    KeyGroups(ts, vals);
    GroupsSurvive(ts, vals, space);
  }

  lemma KeyFormat()
    ensures Tokens("{subject}" + "/" + "{agent}" + "/" + "{session}", FIELDS)
         == [Slot(Subject), Lit('/'), Slot(Agent), Lit('/'), Slot(Session)]
  {
    var last := [Slot(Session)];
    var slashed := [Lit('/')] + last;
    var agent := [Slot(Agent)] + slashed;
    var ts := [Slot(Subject)] + ([Lit('/')] + agent);
    ReadsAsWritten(ts);
    WrittenAlone();
    WrittenLit('/', last);
    WrittenSlot(Agent, slashed);
    WrittenLit('/', agent);
    WrittenSlot(Subject, [Lit('/')] + agent);
    hide Tokens, WrittenOut;
    FiveParts(Spelling(Subject), "/", Spelling(Agent), "/", "{session}");
    assert ts == [Slot(Subject), Lit('/'), Slot(Agent), Lit('/'), Slot(Session)];
  }

  lemma WrittenLit(c: char, rest: seq<Token>)
    ensures WrittenOut([Lit(c)] + rest) == [c] + WrittenOut(rest)
  {
    assert ([Lit(c)] + rest)[1..] == rest;
  }

  lemma FiveParts(a: string, b: string, c: string, d: string, e: string)
    ensures a + (b + (c + (d + e))) == a + b + c + d + e
  {}

  lemma KeyPattern(vals: seq<string>)
    requires |vals| == 3 && forall v | v in vals :: Plain(v)
    ensures var ts := [Slot(Subject), Lit('/'), Slot(Agent), Lit('/'), Slot(Session)];
            && Slots(ts) == 3 && Separated(ts, false) && NamesOnce(ts) && Fits(ts, vals)
            && Render(ts, vals) == vals[0] + "/" + vals[1] + "/" + vals[2]
  {
    var ts := [Slot(Subject), Lit('/'), Slot(Agent), Lit('/'), Slot(Session)];
    hide Plain;
    KeyTails(ts);
    RenderLast(Session, vals[2]);
    var end, middle := [vals[2]], vals[1..];
    assert middle[1..] == end && middle[0] == vals[1];
    assert Render(ts[3..], end) == ['/'] + vals[2];
    assert Render(ts[2..], middle) == vals[1] + (['/'] + vals[2]);
    assert Render(ts[1..], middle) == ['/'] + (vals[1] + (['/'] + vals[2]));
    FiveParts(vals[0], "/", vals[1], "/", vals[2]);
  }

  lemma KeyTails(ts: seq<Token>)
    requires ts == [Slot(Subject), Lit('/'), Slot(Agent), Lit('/'), Slot(Session)]
    ensures ts[1..][1..] == ts[2..] && ts[2..][1..] == ts[3..] && ts[3..][1..] == ts[4..] == [Slot(Session)]
    ensures Slots(ts[4..]) == Slots(ts[3..]) == 1 && Slots(ts[2..]) == Slots(ts[1..]) == 2 && Slots(ts) == 3
    ensures Separated(ts, false)
  {
    assert ts[4..][1..] == [];
    assert Separated(ts[4..], false);
    assert Separated(ts[3..], true);
    assert Separated(ts[2..], false);
    assert Separated(ts[1..], true);
  }

  lemma RenderLast(d: Dim, v: string)
    ensures Slots([Slot(d)]) == 1 && Render([Slot(d)], [v]) == v
  {
    assert [Slot(d)][1..] == [] && [v][1..] == [];
  }

  lemma KeyGroups(ts: seq<Token>, vals: seq<string>)
    requires ts == [Slot(Subject), Lit('/'), Slot(Agent), Lit('/'), Slot(Session)] && |vals| == 3
    ensures Slots(ts) == 3 && Group(ts, vals, Subject) == Some(vals[0])
    ensures Group(ts, vals, Agent) == Some(vals[1]) && Group(ts, vals, Session) == Some(vals[2])
  {
    KeyTails(ts);
    var middle := vals[1..];
    assert middle[1..] == vals[2..] && middle[0] == vals[1];
    assert forall d | d != Subject :: Group(ts, vals, d) == Group(ts[2..], middle, d);
    assert Group(ts[2..], middle, Session) == Group(ts[4..], vals[2..], Session);
  }

  lemma TrimmedIsKept(v: string, space: char -> bool)
    requires Trimmed(v, space)
    ensures Strip(v, space) == v && BlankIsNone(Some(v), space) == Some(v)
  {}

  /** Values whose agent and session are trimmed come back as they were written. */
  lemma GroupsSurvive(ts: seq<Token>, vals: seq<string>, space: char -> bool)
    requires Clean(ts, vals, space)
    ensures ScopeOf(ts, vals, space)
         == Ok(Scope(Group(ts, vals, Subject).value, Group(ts, vals, Agent), Group(ts, vals, Session), map[], None))
  {
    var agent, session := Group(ts, vals, Agent), Group(ts, vals, Session);
    if agent.Some? { TrimmedIsKept(agent.value, space); }
    if session.Some? { TrimmedIsKept(session.value, space); }
  }
}
