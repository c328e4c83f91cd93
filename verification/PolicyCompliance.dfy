/** Checking an agent against a policy, and what passing the merge of policies says about each of them. */
module PolicyCompliance {
  import opened Options
  import opened Strings
  import opened PolicySpec

  type Glob = (string, string) -> bool

  /** The guardrail limits of an agent; Go ints, compared after conversion to 32 bits where marked. */
  datatype AgentLimits = AgentLimits(dailyTokens: int, tokensPerCall: int, timeoutSeconds: int)
  datatype Guardrails = Guardrails(hasBudgetRef: bool, toolsAllow: seq<string>, limits: Option<AgentLimits>)
  datatype Agent = Agent(model: string, guardrails: Option<Guardrails>, auditMode: Option<string>)

  datatype Violation =
    | BudgetRefMissing | AuditMissing | AllowListMissing
    | DailyTokensTooHigh | TokensPerCallTooHigh | TimeoutTooHigh | TimeoutTooLow
    | ModelDenied | ModelNotAllowed

  /** Go's conversion of an int to int32: the low 32 bits, signed. */
  function ToInt32(x: int): (r: int)
    ensures -0x8000_0000 <= r < 0x8000_0000
    ensures -0x8000_0000 <= x < 0x8000_0000 ==> r == x
  {
    (x + 0x8000_0000) % 0x1_0000_0000 - 0x8000_0000
  }

  function If(b: bool, v: Violation): seq<Violation> {
    if b then [v] else []
  }

  function CheckRequirements(a: Agent, r: Requirements): seq<Violation> {
    If(r.budgetRef && !(a.guardrails.Some? && a.guardrails.value.hasBudgetRef), BudgetRefMissing)
    + If(r.audit && !(a.auditMode.Some? && a.auditMode.value != "" && a.auditMode.value != "off"), AuditMissing)
    + If(r.allowList && !(a.guardrails.Some? && a.guardrails.value.toolsAllow != []), AllowListMissing)
  }

  predicate Above(v: int, ceiling: Option<int>) {
    ceiling.Some? && v > ceiling.value
  }

  function CheckLimits(a: Agent, limits: Option<Limits>): seq<Violation> {
    if limits.None? || a.guardrails.None? || a.guardrails.value.limits.None? then []
    else CheckBounds(a.guardrails.value.limits.value, limits.value)
  }

  function CheckBounds(own: AgentLimits, l: Limits): seq<Violation> {
    If(Above(own.dailyTokens, l.maxDailyTokens), DailyTokensTooHigh)
    + If(Above(ToInt32(own.tokensPerCall), l.maxTokensPerCall), TokensPerCallTooHigh)
    + If(Above(ToInt32(own.timeoutSeconds), l.maxTimeoutSeconds), TimeoutTooHigh)
    + If(l.minTimeoutSeconds.Some? && ToInt32(own.timeoutSeconds) < l.minTimeoutSeconds.value, TimeoutTooLow)
  }

  predicate Matches(glob: Glob, patterns: seq<string>, model: string) {
    exists i | 0 <= i < |patterns| :: glob(patterns[i], model)
  }

  /** Scans the denied patterns, then the allowed ones; each list yields at most one violation. */
  method CheckModels(glob: Glob, model: string, models: Option<Models>) returns (v: seq<Violation>)
    ensures v == ModelViolations(glob, model, models)
  {
    v := [];
    if models.None? {
      return;
    }
    var denied, allowed := models.value.denied, models.value.allowed;
    for i := 0 to |denied|
      invariant v == [] && forall k | 0 <= k < i :: !glob(denied[k], model)
    {
      if glob(denied[i], model) {
        v := [ModelDenied];
        break;
      }
    }
    if |allowed| > 0 {
      var matched := false;
      for i := 0 to |allowed|
        invariant !matched && forall k | 0 <= k < i :: !glob(allowed[k], model)
      {
        if glob(allowed[i], model) {
          matched := true;
          break;
        }
      }
      if !matched {
        v := v + [ModelNotAllowed];
      }
    }
  }

  function ModelViolations(glob: Glob, model: string, models: Option<Models>): seq<Violation> {
    if models.None? then []
    else
      If(Matches(glob, models.value.denied, model), ModelDenied)
      + If(models.value.allowed != [] && !Matches(glob, models.value.allowed, model), ModelNotAllowed)
  }

  function Violations(glob: Glob, a: Agent, e: Effective): seq<Violation> {
    CheckRequirements(a, e.requirements) + CheckLimits(a, e.limits) + ModelViolations(glob, a.model, e.models)
  }

  /** What each violation means: the constraint the policy sets and the agent breaks. */
  predicate Breaks(glob: Glob, a: Agent, e: Effective, x: Violation) {
    match x
    case BudgetRefMissing => e.requirements.budgetRef && (a.guardrails.Some? ==> !a.guardrails.value.hasBudgetRef)
    case AuditMissing => e.requirements.audit && (a.auditMode.Some? ==> a.auditMode.value == "" || a.auditMode.value == "off")
    case AllowListMissing => e.requirements.allowList && (a.guardrails.Some? ==> a.guardrails.value.toolsAllow == [])
    case ModelDenied => Denied(glob, a.model, e)
    case ModelNotAllowed => !AllowListOK(glob, a.model, e)
    case _ => Limited(a, e) && OutOfBounds(a.guardrails.value.limits.value, e.limits.value, x)
  }

  predicate Limited(a: Agent, e: Effective) {
    e.limits.Some? && a.guardrails.Some? && a.guardrails.value.limits.Some?
  }

  predicate OutOfBounds(own: AgentLimits, l: Limits, x: Violation) {
    match x
    case DailyTokensTooHigh => Above(own.dailyTokens, l.maxDailyTokens)
    case TokensPerCallTooHigh => Above(ToInt32(own.tokensPerCall), l.maxTokensPerCall)
    case TimeoutTooHigh => Above(ToInt32(own.timeoutSeconds), l.maxTimeoutSeconds)
    case TimeoutTooLow => l.minTimeoutSeconds.Some? && ToInt32(own.timeoutSeconds) < l.minTimeoutSeconds.value
    case _ => false
  }

  predicate Once(v: seq<Violation>) {
    forall i, j | 0 <= i < j < |v| :: v[i] != v[j]
  }

  /** Joining reports that have nothing in common. */
  lemma Joins(v: seq<Violation>, w: seq<Violation>, x: Violation)
    ensures x in v + w <==> x in v || x in w
    ensures Once(v) && Once(w) && (forall y :: y in v ==> y !in w) ==> Once(v + w)
  {
    if Once(v) && Once(w) && forall y :: y in v ==> y !in w {
      forall i, j | 0 <= i < j < |v + w|
        ensures (v + w)[i] != (v + w)[j]
      {
        if i < |v| <= j {
          assert v[i] in v && w[j - |v|] in w;
        }
      }
    }
  }

  predicate AboutRequirements(x: Violation) {
    x.BudgetRefMissing? || x.AuditMissing? || x.AllowListMissing?
  }

  predicate AboutModels(x: Violation) {
    x.ModelDenied? || x.ModelNotAllowed?
  }

  lemma RequirementsExact(glob: Glob, a: Agent, e: Effective, x: Violation)
    ensures var v := CheckRequirements(a, e.requirements);
            Once(v) && (x in v <==> AboutRequirements(x) && Breaks(glob, a, e, x))
  {
  }

  lemma LimitsExact(glob: Glob, a: Agent, e: Effective, x: Violation)
    ensures var v := CheckLimits(a, e.limits);
            Once(v) && (x in v <==> !AboutRequirements(x) && !AboutModels(x) && Breaks(glob, a, e, x))
  {
    if Limited(a, e) {
      BoundsExact(a.guardrails.value.limits.value, e.limits.value, x);
      assert CheckLimits(a, e.limits) == CheckBounds(a.guardrails.value.limits.value, e.limits.value);
    }
  }

  lemma BoundsExact(own: AgentLimits, l: Limits, x: Violation)
    ensures Once(CheckBounds(own, l)) && (x in CheckBounds(own, l) <==> OutOfBounds(own, l, x))
  {
  }

  lemma ModelsExact(glob: Glob, a: Agent, e: Effective, x: Violation)
    ensures var v := ModelViolations(glob, a.model, e.models);
            Once(v) && (x in v <==> AboutModels(x) && Breaks(glob, a, e, x))
  {
  }

  /** Every constraint the agent breaks is reported, once, and nothing else is. */
  lemma ReportIsExact(glob: Glob, a: Agent, e: Effective, x: Violation)
    ensures x in Violations(glob, a, e) <==> Breaks(glob, a, e, x)
    ensures Once(Violations(glob, a, e))
  {
    var r, l, m := CheckRequirements(a, e.requirements), CheckLimits(a, e.limits), ModelViolations(glob, a.model, e.models);
    forall y
      ensures y in r <==> AboutRequirements(y) && Breaks(glob, a, e, y)
      ensures y in l <==> !AboutRequirements(y) && !AboutModels(y) && Breaks(glob, a, e, y)
      ensures y in m <==> AboutModels(y) && Breaks(glob, a, e, y)
    {
      RequirementsExact(glob, a, e, y);
      LimitsExact(glob, a, e, y);
      ModelsExact(glob, a, e, y);
    }
    RequirementsExact(glob, a, e, x);
    LimitsExact(glob, a, e, x);
    ModelsExact(glob, a, e, x);
    Joins(r, l, x);
    forall y
      ensures y in r + l ==> y !in m
    {
      Joins(r, l, y);
    }
    Joins(r + l, m, x);
  }

  /** An absent policy allows everything; otherwise every constraint the agent breaks is reported, once, and
      nothing else is. */
  method EvaluateAgentCompliance(glob: Glob, a: Agent, e: Option<Effective>) returns (v: seq<Violation>)
    ensures forall x :: x in v <==> e.Some? && Breaks(glob, a, e.value, x)
    ensures Once(v) && (e.Some? ==> (v == [] <==> Compliant(glob, a, e.value)))
  {
    if e.None? {
      return [];
    }
    forall x
      ensures x in Violations(glob, a, e.value) <==> Breaks(glob, a, e.value, x)
      ensures Once(Violations(glob, a, e.value))
    {
      ReportIsExact(glob, a, e.value, x);
    }
    var models := CheckModels(glob, a.model, e.value.models);
    v := CheckRequirements(a, e.value.requirements) + CheckLimits(a, e.value.limits) + models;
    assert v == Violations(glob, a, e.value);
    ReportIsExact(glob, a, e.value, BudgetRefMissing);
  }

  predicate Compliant(glob: Glob, a: Agent, e: Effective) {
    Violations(glob, a, e) == []
  }

  predicate Denied(glob: Glob, model: string, e: Effective) {
    e.models.Some? && Matches(glob, e.models.value.denied, model)
  }

  predicate AllowListOK(glob: Glob, model: string, e: Effective) {
    e.models.Some? && e.models.value.allowed != [] ==> Matches(glob, e.models.value.allowed, model)
  }

  lemma CompliantParts(glob: Glob, a: Agent, e: Effective)
    ensures Compliant(glob, a, e)
        <==> && CheckRequirements(a, e.requirements) == [] && CheckLimits(a, e.limits) == []
             && !Denied(glob, a.model, e) && AllowListOK(glob, a.model, e)
  {
  }

  /* ---------- the merge against its parts ---------- */

  /** m is the merge of specs, and each of them alone has the effective policy alone gives. */
  ghost predicate MergeOf(specs: set<Spec>, m: Effective, alone: map<Spec, Effective>) {
    && IsMerge(specs, m) && alone.Keys == specs
    && forall s | s in specs :: IsMerge({s}, alone[s])
  }

  /** The requirements of the merge are met exactly when those of every policy are. */
  lemma RequirementsEquivalent(a: Agent, specs: set<Spec>, m: Effective, alone: map<Spec, Effective>)
    requires MergeOf(specs, m, alone)
    ensures CheckRequirements(a, m.requirements) == [] <==> forall s | s in specs :: CheckRequirements(a, alone[s].requirements) == []
  {
    forall s | s in specs
      ensures alone[s].requirements == s.requirements
    {
      assert s in {s} && IsMerge({s}, alone[s]);
    }
    assert AnyRequirement(specs, m.requirements);
    OneOfThem(a, specs, m.requirements);
  }

  lemma OneOfThem(a: Agent, specs: set<Spec>, r: Requirements)
    requires AnyRequirement(specs, r)
    ensures CheckRequirements(a, r) == [] <==> forall s | s in specs :: CheckRequirements(a, s.requirements) == []
  {
  }

  lemma AloneLimits(s: Spec, e: Effective)
    requires IsMerge({s}, e)
    ensures e.limits == s.limits
  {
    assert s in {s};
    if s.limits.Some? {
      assert MergedLimits({s}, Some(s.limits.value));
      LimitsDetermined({s}, e.limits.value, s.limits.value);
    }
  }

  /** A value is within the merged ceiling exactly when it is within every ceiling. */
  lemma CeilingEquivalent(specs: set<Spec>, l: Limits, c: Ceiling, v: int)
    requires MergedLimits(specs, Some(l))
    ensures !Above(v, CeilingIn(l, c)) <==> forall s | s in specs :: !Above(v, CeilingOf(s, c))
  {
    assert LeastCeiling(specs, c, CeilingIn(l, c));
  }

  /** The limits of the merge hold exactly when those of every policy do. */
  lemma LimitsEquivalent(a: Agent, specs: set<Spec>, m: Effective, alone: map<Spec, Effective>)
    requires MergeOf(specs, m, alone)
    ensures CheckLimits(a, m.limits) == [] <==> forall s | s in specs :: CheckLimits(a, alone[s].limits) == []
  {
    forall s | s in specs
      ensures alone[s].limits == s.limits
    {
      AloneLimits(s, alone[s]);
    }
    assert MergedLimits(specs, m.limits);
    LimitsOfAll(a, specs, m.limits);
  }

  lemma LimitsOfAll(a: Agent, specs: set<Spec>, limits: Option<Limits>)
    requires MergedLimits(specs, limits)
    ensures CheckLimits(a, limits) == [] <==> forall s | s in specs :: CheckLimits(a, s.limits) == []
  {
    if limits.Some? && a.guardrails.Some? && a.guardrails.value.limits.Some? {
      var own := a.guardrails.value.limits.value;
      CeilingEquivalent(specs, limits.value, DailyTokens, own.dailyTokens);
      CeilingEquivalent(specs, limits.value, TokensPerCall, ToInt32(own.tokensPerCall));
      CeilingEquivalent(specs, limits.value, TimeoutSeconds, ToInt32(own.timeoutSeconds));
    }
  }

  lemma AloneModels(s: Spec, e: Effective)
    requires IsMerge({s}, e)
    ensures e.models.Some? ==> Elements(e.models.value.denied) == DeniedOf(s)
    ensures e.models.Some? ==> Elements(e.models.value.allowed) == AllowedOf(s)
    ensures e.models.None? ==> DeniedOf(s) == {} && AllowedOf(s) == {}
  {
    assert s in {s};
    assert MergedModels({s}, e.models);
  }

  lemma MatchesSet(glob: Glob, patterns: seq<string>, model: string)
    ensures Matches(glob, patterns, model) <==> exists p | p in Elements(patterns) :: glob(p, model)
  {
    if Matches(glob, patterns, model) {
      var i :| 0 <= i < |patterns| && glob(patterns[i], model);
      assert patterns[i] in Elements(patterns);
    }
  }

  /** The merge denies a model exactly when some policy does. */
  lemma DeniedEquivalent(glob: Glob, model: string, specs: set<Spec>, m: Effective, alone: map<Spec, Effective>)
    requires MergeOf(specs, m, alone)
    ensures Denied(glob, model, m) <==> exists s | s in specs :: Denied(glob, model, alone[s])
  {
    assert MergedModels(specs, m.models);
    if m.models.Some? {
      MatchesSet(glob, m.models.value.denied, model);
    }
    forall s | s in specs
      ensures Denied(glob, model, alone[s]) <==> exists p | p in DeniedOf(s) :: glob(p, model)
    {
      AloneModels(s, alone[s]);
      if alone[s].models.Some? {
        MatchesSet(glob, alone[s].models.value.denied, model);
      }
    }
  }

  /** Some pattern of the spec's allowlist matches, or it has none. */
  ghost predicate OnList(glob: Glob, model: string, s: Spec) {
    AllowedOf(s) != {} ==> exists p | p in AllowedOf(s) :: glob(p, model)
  }

  lemma AllowListAlone(glob: Glob, model: string, s: Spec, e: Effective)
    requires IsMerge({s}, e)
    ensures AllowListOK(glob, model, e) <==> OnList(glob, model, s)
  {
    AloneModels(s, e);
    if e.models.Some? {
      MatchesSet(glob, e.models.value.allowed, model);
      HasElements(e.models.value.allowed);
    }
  }

  /** The allowlists have a pattern in common, if there are any. */
  predicate Intersecting(m: Effective) {
    m.models.Some? && m.models.value.allowed != []
  }

  /** A model on the merged allowlist is on every allowlist. */
  lemma AllowedByAll(glob: Glob, model: string, specs: set<Spec>, m: Effective, s: Spec)
    requires IsMerge(specs, m) && s in specs && Intersecting(m) && AllowListOK(glob, model, m)
    ensures OnList(glob, model, s)
  {
    assert MergedModels(specs, m.models);
    MatchesSet(glob, m.models.value.allowed, model);
    var p :| p in Elements(m.models.value.allowed) && glob(p, model);
    assert CommonPatterns(specs, Elements(m.models.value.allowed));
  }

  /** The merged allowlist protects every single one for every model exactly when the lists
      share a pattern, or each of them matches everything anyway: an empty intersection reads
      as no constraint at all. */
  lemma AllowListSoundIff(glob: Glob, specs: set<Spec>, m: Effective, alone: map<Spec, Effective>)
    requires MergeOf(specs, m, alone)
    ensures (forall model, s | s in specs :: Protected(glob, model, m, alone[s]))
        <==> Intersecting(m) || forall model, s | s in specs :: OnList(glob, model, s)
  {
    forall model, s | s in specs
      ensures Protected(glob, model, m, alone[s]) <==> Intersecting(m) || OnList(glob, model, s)
    {
      AllowListAlone(glob, model, s, alone[s]);
      if Intersecting(m) && AllowListOK(glob, model, m) {
        AllowedByAll(glob, model, specs, m, s);
      }
    }
  }

  function AllowOnly(pattern: string): Spec {
    Spec(Audit, Requirements(false, false, false), None, None, None, Some(Models([pattern], [])))
  }

  function Effect(models: Models): Effective {
    Effective(Audit, Requirements(false, false, false), None, [], None, NoValidation, [], Some(models))
  }

  lemma AllowOnlyAlone(pattern: string)
    ensures IsMerge({AllowOnly(pattern)}, Effect(Models([pattern], [])))
  {
    var s := AllowOnly(pattern);
    assert s in {s} && pattern in AllowedOf(s) && Elements([pattern]) == {pattern};
  }

  lemma AllowBothMerge(p: string, q: string)
    requires p != q
    ensures IsMerge({AllowOnly(p), AllowOnly(q)}, Effect(Models([], [])))
  {
    AllowBothModels(p, q);
    assert AllowOnly(p) in {AllowOnly(p), AllowOnly(q)};
  }

  lemma AllowBothModels(p: string, q: string)
    requires p != q
    ensures MergedModels({AllowOnly(p), AllowOnly(q)}, Some(Models([], [])))
  {
    AllowBothCommon(p, q);
    var specs := {AllowOnly(p), AllowOnly(q)};
    assert Elements([]) == {};
    assert AllDenied(specs, {});
  }

  lemma AllowBothCommon(p: string, q: string)
    requires p != q
    ensures HasAllowList({AllowOnly(p), AllowOnly(q)}) && CommonPatterns({AllowOnly(p), AllowOnly(q)}, {})
  {
    var specs := {AllowOnly(p), AllowOnly(q)};
    assert AllowOnly(p) in specs && AllowOnly(q) in specs;
    assert AllowedOf(AllowOnly(p)) == {p} && AllowedOf(AllowOnly(q)) == {q};
    forall x
      ensures !OnEveryList(specs, x)
    {
      assert x in AllowedOf(AllowOnly(p)) ==> x !in AllowedOf(AllowOnly(q));
    }
  }

  const Exactly: Glob := (pattern, name) => pattern == name

  lemma AllowOnlyRefuses(pattern: string, model: string)
    requires model != pattern
    ensures !Compliant(Exactly, Agent(model, None, None), Effect(Models([pattern], [])))
  {
    CompliantParts(Exactly, Agent(model, None, None), Effect(Models([pattern], [])));
  }

  lemma NoneRefused(model: string)
    ensures Compliant(Exactly, Agent(model, None, None), Effect(Models([], [])))
  {
  }

  /** Two policies that allow one model each: their merge lets through a third one, which both refuse. */
  lemma DisjointAllowListsProtectNobody(p: string, q: string, model: string)
    requires p != q && model != p && model != q
    ensures IsMerge({AllowOnly(p), AllowOnly(q)}, Effect(Models([], [])))
            && Compliant(Exactly, Agent(model, None, None), Effect(Models([], [])))
    ensures IsMerge({AllowOnly(p)}, Effect(Models([p], [])))
            && !Compliant(Exactly, Agent(model, None, None), Effect(Models([p], [])))
    ensures IsMerge({AllowOnly(q)}, Effect(Models([q], [])))
            && !Compliant(Exactly, Agent(model, None, None), Effect(Models([q], [])))
  {
    AllowBothMerge(p, q);
    NoneRefused(model);
    AllowOnlyAlone(p);
    AllowOnlyAlone(q);
    AllowOnlyRefuses(p, model);
    AllowOnlyRefuses(q, model);
  }

  /** What the merged allowlist lets pass, the policy e lets pass. */
  predicate Protected(glob: Glob, model: string, m: Effective, e: Effective) {
    AllowListOK(glob, model, m) ==> AllowListOK(glob, model, e)
  }

  /** Passing the merged policy means passing each policy, when the allowlists share a pattern
      or there is none. */
  lemma MergeIsSound(glob: Glob, a: Agent, specs: set<Spec>, m: Effective, alone: map<Spec, Effective>)
    requires MergeOf(specs, m, alone) && (Intersecting(m) || !HasAllowList(specs))
    ensures Compliant(glob, a, m) ==> forall s | s in specs :: Compliant(glob, a, alone[s])
    ensures Compliant(glob, a, m)
        <==> (forall s | s in specs :: Compliant(glob, a, alone[s])) && AllowListOK(glob, a.model, m)
  {
    RequirementsEquivalent(a, specs, m, alone);
    LimitsEquivalent(a, specs, m, alone);
    DeniedEquivalent(glob, a.model, specs, m, alone);
    CompliantParts(glob, a, m);
    forall s | s in specs
      ensures AllowListOK(glob, a.model, m) ==> AllowListOK(glob, a.model, alone[s])
      ensures Compliant(glob, a, alone[s])
          <==> && CheckRequirements(a, alone[s].requirements) == [] && CheckLimits(a, alone[s].limits) == []
               && !Denied(glob, a.model, alone[s]) && AllowListOK(glob, a.model, alone[s])
    {
      CompliantParts(glob, a, alone[s]);
      AllowListAlone(glob, a.model, s, alone[s]);
      if AllowListOK(glob, a.model, m) && Intersecting(m) {
        AllowedByAll(glob, a.model, specs, m, s);
      }
    }
  }

  /* ---------- 32-bit comparison ---------- */

  /** The per-call ceilings are compared after conversion to 32 bits. Every ceiling binds an agent's
      value as it stands exactly when the value does not exceed 32 bits (a value below them is
      no problem only if it converts to the least one). */
  lemma CeilingBindsIff(v: int)
    ensures (forall c | -0x8000_0000 <= c < 0x8000_0000 :: !Above(ToInt32(v), Some(c)) <==> v <= c)
        <==> v < 0x8000_0000 && (v < -0x8000_0000 ==> ToInt32(v) == -0x8000_0000)
  {
    if v < -0x8000_0000 && ToInt32(v) > -0x8000_0000 {
      var c := ToInt32(v) - 1;
      assert Above(ToInt32(v), Some(c)) && v <= c;
    }
    if v >= 0x8000_0000 {
      var c := 0x7fff_ffff;
      assert !Above(ToInt32(v), Some(c)) && !(v <= c);
    }
  }

  /** An agent that may use two to the 31 tokens a call complies with every ceiling on them there can be. */
  lemma HugeValueComplies(ceiling: int)
    requires -0x8000_0000 <= ceiling < 0x8000_0000
    ensures var limits := Limits(None, Some(ceiling), None, None, None, None, None);
            var huge := Guardrails(false, [], Some(AgentLimits(0, 0x8000_0000, 0)));
            CheckLimits(Agent("", Some(huge), None), Some(limits)) == []
  {
    assert ToInt32(0x8000_0000) == -0x8000_0000;
  }
}
