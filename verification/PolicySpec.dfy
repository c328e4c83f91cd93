/** Governance policies and their merge: every field of it is determined by the set of specs merged. */
module PolicySpec {
  import opened Options
  import opened Strings

  datatype Mode = Audit | Warn | Enforce
  datatype Trust = Internal | External | Sandbox
  datatype Level = NoValidation | Pattern | Schema | Semantic

  /** The optional ceilings and the one optional floor. */
  datatype Limits = Limits(
    maxDailyTokens: Option<int>,
    maxTokensPerCall: Option<int>,
    maxTimeoutSeconds: Option<int>,
    minTimeoutSeconds: Option<int>,
    maxConcurrentTasks: Option<int>,
    maxThinkingTokensPerCall: Option<int>,
    maxAnswerTokensPerCall: Option<int>)

  datatype Requirements = Requirements(budgetRef: bool, audit: bool, allowList: bool)
  datatype Tools = Tools(deny: seq<string>, forceTrustLevel: Option<Trust>)
  datatype OutputRules = OutputRules(minValidation: Level, denyPatterns: seq<string>)
  datatype Models = Models(allowed: seq<string>, denied: seq<string>)

  datatype Spec = Spec(
    mode: Mode,
    requirements: Requirements,
    limits: Option<Limits>,
    tools: Option<Tools>,
    output: Option<OutputRules>,
    models: Option<Models>)

  datatype Policy = Policy(name: string, spec: Spec)

  datatype Effective = Effective(
    mode: Mode,
    requirements: Requirements,
    limits: Option<Limits>,
    toolDeny: seq<string>,
    forceTrustLevel: Option<Trust>,
    minValidation: Level,
    denyPatterns: seq<string>,
    models: Option<Models>)

  const NoLimits := Limits(None, None, None, None, None, None, None)

  function ModeRank(m: Mode): nat {
    match m case Audit => 0 case Warn => 1 case Enforce => 2
  }

  function TrustRank(t: Trust): nat {
    match t case Internal => 0 case External => 1 case Sandbox => 2
  }

  function LevelRank(l: Level): nat {
    match l case NoValidation => 0 case Pattern => 1 case Schema => 2 case Semantic => 3
  }

  /* ---------- what one spec says on each point ---------- */

  datatype Ceiling = DailyTokens | TokensPerCall | TimeoutSeconds | ConcurrentTasks | ThinkingTokens | AnswerTokens

  function CeilingIn(l: Limits, c: Ceiling): Option<int> {
    match c
    case DailyTokens => l.maxDailyTokens
    case TokensPerCall => l.maxTokensPerCall
    case TimeoutSeconds => l.maxTimeoutSeconds
    case ConcurrentTasks => l.maxConcurrentTasks
    case ThinkingTokens => l.maxThinkingTokensPerCall
    case AnswerTokens => l.maxAnswerTokensPerCall
  }

  function CeilingOf(s: Spec, c: Ceiling): Option<int> {
    if s.limits.None? then None else CeilingIn(s.limits.value, c)
  }

  function FloorOf(s: Spec): Option<int> {
    if s.limits.None? then None else s.limits.value.minTimeoutSeconds
  }

  function TrustOf(s: Spec): Option<Trust> {
    if s.tools.None? then None else s.tools.value.forceTrustLevel
  }

  function LevelOf(s: Spec): Level {
    if s.output.None? then NoValidation else s.output.value.minValidation
  }

  function DenyOf(s: Spec): set<string> {
    if s.tools.None? then {} else Elements(s.tools.value.deny)
  }

  function PatternsOf(s: Spec): set<string> {
    if s.output.None? then {} else Elements(s.output.value.denyPatterns)
  }

  function DeniedOf(s: Spec): set<string> {
    if s.models.None? then {} else Elements(s.models.value.denied)
  }

  function AllowedOf(s: Spec): set<string> {
    if s.models.None? then {} else Elements(s.models.value.allowed)
  }

  /* ---------- what the merge of a set of specs is ---------- */

  ghost predicate LeastCeiling(specs: set<Spec>, c: Ceiling, r: Option<int>) {
    match r
    case None => forall s | s in specs :: CeilingOf(s, c).None?
    case Some(v) =>
      && (exists s | s in specs :: CeilingOf(s, c) == r)
      && (forall s | s in specs && CeilingOf(s, c).Some? :: v <= CeilingOf(s, c).value)
  }

  ghost predicate GreatestFloor(specs: set<Spec>, r: Option<int>) {
    match r
    case None => forall s | s in specs :: FloorOf(s).None?
    case Some(v) =>
      && (exists s | s in specs :: FloorOf(s) == r)
      && (forall s | s in specs && FloorOf(s).Some? :: FloorOf(s).value <= v)
  }

  ghost predicate StrictestMode(specs: set<Spec>, r: Mode) {
    && (r == Audit || exists s | s in specs :: s.mode == r)
    && (forall s | s in specs :: ModeRank(s.mode) <= ModeRank(r))
  }

  ghost predicate StrictestLevel(specs: set<Spec>, r: Level) {
    && (r == NoValidation || exists s | s in specs :: LevelOf(s) == r)
    && (forall s | s in specs :: LevelRank(LevelOf(s)) <= LevelRank(r))
  }

  ghost predicate StrictestTrust(specs: set<Spec>, r: Option<Trust>) {
    match r
    case None => forall s | s in specs :: TrustOf(s).None?
    case Some(t) =>
      && (exists s | s in specs :: TrustOf(s) == r)
      && (forall s | s in specs && TrustOf(s).Some? :: TrustRank(TrustOf(s).value) <= TrustRank(t))
  }

  ghost predicate AnyRequirement(specs: set<Spec>, r: Requirements) {
    && (r.budgetRef <==> exists s | s in specs :: s.requirements.budgetRef)
    && (r.audit <==> exists s | s in specs :: s.requirements.audit)
    && (r.allowList <==> exists s | s in specs :: s.requirements.allowList)
  }

  ghost predicate MergedLimits(specs: set<Spec>, r: Option<Limits>) {
    && (r.Some? <==> exists s | s in specs :: s.limits.Some?)
    && (r.Some? ==> (forall c: Ceiling :: LeastCeiling(specs, c, CeilingIn(r.value, c)))
                    && GreatestFloor(specs, r.value.minTimeoutSeconds))
  }

  ghost predicate HasAllowList(specs: set<Spec>) {
    exists s | s in specs :: AllowedOf(s) != {}
  }

  /** Patterns on every allowlist there is; none when there is no allowlist. */
  ghost predicate CommonPatterns(specs: set<Spec>, r: set<string>) {
    forall x :: x in r <==> HasAllowList(specs) && OnEveryList(specs, x)
  }

  ghost predicate OnEveryList(specs: set<Spec>, x: string) {
    forall s | s in specs && AllowedOf(s) != {} :: x in AllowedOf(s)
  }

  ghost predicate AllDenied(specs: set<Spec>, r: set<string>) {
    forall x :: x in r <==> exists s | s in specs :: x in DeniedOf(s)
  }

  ghost predicate AllTools(specs: set<Spec>, r: set<string>) {
    forall x :: x in r <==> exists s | s in specs :: x in DenyOf(s)
  }

  ghost predicate AllPatterns(specs: set<Spec>, r: set<string>) {
    forall x :: x in r <==> exists s | s in specs :: x in PatternsOf(s)
  }

  ghost predicate MergedModels(specs: set<Spec>, r: Option<Models>) {
    && (r.Some? <==> HasAllowList(specs) || exists s | s in specs :: DeniedOf(s) != {})
    && (r.Some? ==>
          && Sorted(r.value.allowed) && CommonPatterns(specs, Elements(r.value.allowed))
          && Sorted(r.value.denied) && AllDenied(specs, Elements(r.value.denied)))
  }

  /** e is the merge of the specs. */
  ghost predicate IsMerge(specs: set<Spec>, e: Effective) {
    && StrictestMode(specs, e.mode)
    && AnyRequirement(specs, e.requirements)
    && MergedLimits(specs, e.limits)
    && Sorted(e.toolDeny) && AllTools(specs, Elements(e.toolDeny))
    && StrictestTrust(specs, e.forceTrustLevel)
    && StrictestLevel(specs, e.minValidation)
    && Sorted(e.denyPatterns) && AllPatterns(specs, Elements(e.denyPatterns))
    && MergedModels(specs, e.models)
  }

  lemma LimitsDetermined(specs: set<Spec>, a: Limits, b: Limits)
    requires MergedLimits(specs, Some(a)) && MergedLimits(specs, Some(b))
    ensures a == b
  {
    forall c: Ceiling
      ensures CeilingIn(a, c) == CeilingIn(b, c)
    {
      assert LeastCeiling(specs, c, CeilingIn(a, c)) && LeastCeiling(specs, c, CeilingIn(b, c));
    }
    assert CeilingIn(a, DailyTokens) == CeilingIn(b, DailyTokens) && CeilingIn(a, TokensPerCall) == CeilingIn(b, TokensPerCall);
    assert CeilingIn(a, TimeoutSeconds) == CeilingIn(b, TimeoutSeconds);
    assert CeilingIn(a, ConcurrentTasks) == CeilingIn(b, ConcurrentTasks);
    assert CeilingIn(a, ThinkingTokens) == CeilingIn(b, ThinkingTokens) && CeilingIn(a, AnswerTokens) == CeilingIn(b, AnswerTokens);
  }

  lemma SameElements(s: seq<string>, t: seq<string>)
    requires Sorted(s) && Sorted(t) && forall x :: x in Elements(s) <==> x in Elements(t)
    ensures s == t
  {
    assert Elements(s) == Elements(t);
    SortedUnique(s, t);
  }

  /** The merge depends on the set of specs alone: not on the order of the policies,
      their names, or how often a spec occurs. */
  lemma MergeIsDetermined(specs: set<Spec>, a: Effective, b: Effective)
    requires IsMerge(specs, a) && IsMerge(specs, b)
    ensures a == b
  {
    if a.limits.Some? {
      LimitsDetermined(specs, a.limits.value, b.limits.value);
    }
    SameElements(a.toolDeny, b.toolDeny);
    SameElements(a.denyPatterns, b.denyPatterns);
    ModelsDetermined(specs, a.models, b.models);
  }

  lemma ModelsDetermined(specs: set<Spec>, a: Option<Models>, b: Option<Models>)
    requires MergedModels(specs, a) && MergedModels(specs, b)
    ensures a == b
  {
    if a.Some? {
      SameElements(a.value.allowed, b.value.allowed);
      SameElements(a.value.denied, b.value.denied);
    }
  }

  /* ---------- the merge in the policies' own terms ---------- */

  predicate Forces(s: Spec, t: Trust) {
    s.tools.Some? && s.tools.value.forceTrustLevel == Some(t)
  }

  predicate Asks(s: Spec, l: Level) {
    s.output.Some? && s.output.value.minValidation == l
  }

  /** Enforce if one policy enforces, audit if all only do that, and so warn otherwise. */
  ghost predicate ModeMeans(specs: set<Spec>, m: Mode) {
    && (m == Enforce <==> exists s | s in specs :: s.mode == Enforce)
    && (m == Audit <==> forall s | s in specs :: s.mode == Audit)
  }

  /** The trust forced is the least one that some policy forces. */
  ghost predicate TrustMeans(specs: set<Spec>, r: Option<Trust>) {
    && (r == Some(Sandbox) <==> exists s | s in specs :: Forces(s, Sandbox))
    && (r == Some(External) <==> (exists s | s in specs :: Forces(s, External)) && forall s | s in specs :: !Forces(s, Sandbox))
    && (r == Some(Internal) <==> (exists s | s in specs :: Forces(s, Internal))
                                 && forall s | s in specs :: !Forces(s, External) && !Forces(s, Sandbox))
  }

  /** The strongest validation some policy asks for. */
  ghost predicate LevelMeans(specs: set<Spec>, r: Level) {
    && (r == Semantic <==> exists s | s in specs :: Asks(s, Semantic))
    && (r == Schema <==> (exists s | s in specs :: Asks(s, Schema)) && forall s | s in specs :: !Asks(s, Semantic))
    && (r == Pattern <==> (exists s | s in specs :: Asks(s, Pattern))
                          && forall s | s in specs :: !Asks(s, Schema) && !Asks(s, Semantic))
  }

  predicate DeniesTool(s: Spec, x: string) {
    s.tools.Some? && x in s.tools.value.deny
  }

  predicate DeniesPattern(s: Spec, x: string) {
    s.output.Some? && x in s.output.value.denyPatterns
  }

  predicate DeniesModel(s: Spec, x: string) {
    s.models.Some? && x in s.models.value.denied
  }

  predicate HasAllowed(s: Spec) {
    s.models.Some? && s.models.value.allowed != []
  }

  /** A tool, an output pattern or a model is on a deny list of the merge exactly when it is on some policy's. */
  ghost predicate DeniesMean(specs: set<Spec>, e: Effective, x: string) {
    && (x in e.toolDeny <==> exists s | s in specs :: DeniesTool(s, x))
    && (x in e.denyPatterns <==> exists s | s in specs :: DeniesPattern(s, x))
    && (e.models.Some? && x in e.models.value.denied <==> exists s | s in specs :: DeniesModel(s, x))
  }

  /** A pattern is on its allowlist exactly when there are such lists and all of them hold it. */
  ghost predicate AllowsMean(specs: set<Spec>, e: Effective, x: string) {
    e.models.Some? && x in e.models.value.allowed <==>
      (exists s | s in specs :: HasAllowed(s)) && forall s | s in specs && HasAllowed(s) :: x in s.models.value.allowed
  }

  /** r is the least of a field of the limits, over all policies that set it. */
  ghost predicate LeastOf(specs: set<Spec>, field: Limits -> Option<int>, r: Option<int>) {
    && (r.Some? ==> exists s | s in specs :: s.limits.Some? && field(s.limits.value) == r)
    && (forall s | s in specs && s.limits.Some? && field(s.limits.value).Some? :: r.Some? && r.value <= field(s.limits.value).value)
  }

  ghost predicate GreatestOf(specs: set<Spec>, field: Limits -> Option<int>, r: Option<int>) {
    && (r.Some? ==> exists s | s in specs :: s.limits.Some? && field(s.limits.value) == r)
    && (forall s | s in specs && s.limits.Some? && field(s.limits.value).Some? :: r.Some? && field(s.limits.value).value <= r.value)
  }

  /** There are limits if some policy has any; each ceiling is the lowest, and the one floor the highest. */
  ghost predicate LimitsMean(specs: set<Spec>, r: Option<Limits>) {
    && (r.Some? <==> exists s | s in specs :: s.limits.Some?)
    && (r.Some? ==>
          && LeastOf(specs, (l: Limits) => l.maxDailyTokens, r.value.maxDailyTokens)
          && LeastOf(specs, (l: Limits) => l.maxTokensPerCall, r.value.maxTokensPerCall)
          && LeastOf(specs, (l: Limits) => l.maxTimeoutSeconds, r.value.maxTimeoutSeconds)
          && GreatestOf(specs, (l: Limits) => l.minTimeoutSeconds, r.value.minTimeoutSeconds)
          && LeastOf(specs, (l: Limits) => l.maxConcurrentTasks, r.value.maxConcurrentTasks)
          && LeastOf(specs, (l: Limits) => l.maxThinkingTokensPerCall, r.value.maxThinkingTokensPerCall)
          && LeastOf(specs, (l: Limits) => l.maxAnswerTokensPerCall, r.value.maxAnswerTokensPerCall))
  }

  ghost predicate MergeMeans(specs: set<Spec>, e: Effective) {
    ModeMeans(specs, e.mode) && TrustMeans(specs, e.forceTrustLevel) && LevelMeans(specs, e.minValidation)
    && AnyRequirement(specs, e.requirements) && LimitsMean(specs, e.limits)
    && forall x :: DeniesMean(specs, e, x) && AllowsMean(specs, e, x)
  }

  lemma MergedMode(specs: set<Spec>, m: Mode)
    requires StrictestMode(specs, m)
    ensures ModeMeans(specs, m)
  {
  }

  lemma MergedTrust(specs: set<Spec>, r: Option<Trust>)
    requires StrictestTrust(specs, r)
    ensures TrustMeans(specs, r)
  {
    assert forall s, t :: Forces(s, t) <==> TrustOf(s) == Some(t);
    if s :| s in specs && Forces(s, Sandbox) {
      assert TrustRank(Sandbox) <= TrustRank(r.value);
    } else if s :| s in specs && Forces(s, External) {
      assert TrustRank(External) <= TrustRank(r.value);
    }
  }

  lemma MergedLevel(specs: set<Spec>, r: Level)
    requires StrictestLevel(specs, r)
    ensures LevelMeans(specs, r)
  {
    assert forall s, l | l != NoValidation :: Asks(s, l) <==> LevelOf(s) == l;
    if s :| s in specs && Asks(s, Semantic) {
      assert LevelRank(LevelOf(s)) <= LevelRank(r);
    } else if s :| s in specs && Asks(s, Schema) {
      assert LevelRank(LevelOf(s)) <= LevelRank(r);
    } else if s :| s in specs && Asks(s, Pattern) {
      assert LevelRank(LevelOf(s)) <= LevelRank(r);
    }
  }

  lemma LeastIsLeastOf(specs: set<Spec>, c: Ceiling, field: Limits -> Option<int>, r: Option<int>)
    requires LeastCeiling(specs, c, r) && forall l :: field(l) == CeilingIn(l, c)
    ensures LeastOf(specs, field, r)
  {
    if r.Some? {
      var s :| s in specs && CeilingOf(s, c) == r;
      assert s.limits.Some? && field(s.limits.value) == r;
    }
    forall s | s in specs && s.limits.Some? && field(s.limits.value).Some?
      ensures r.Some? && r.value <= field(s.limits.value).value
    {
      assert CeilingOf(s, c).Some?;
    }
  }

  lemma GreatestIsGreatestOf(specs: set<Spec>, field: Limits -> Option<int>, r: Option<int>)
    requires GreatestFloor(specs, r) && forall l :: field(l) == l.minTimeoutSeconds
    ensures GreatestOf(specs, field, r)
  {
    if r.Some? {
      var s :| s in specs && FloorOf(s) == r;
      assert s.limits.Some? && field(s.limits.value) == r;
    }
    forall s | s in specs && s.limits.Some? && field(s.limits.value).Some?
      ensures r.Some? && field(s.limits.value).value <= r.value
    {
      assert FloorOf(s).Some?;
    }
  }

  lemma MergedLimitsMean(specs: set<Spec>, r: Option<Limits>)
    requires MergedLimits(specs, r)
    ensures LimitsMean(specs, r)
  {
    if r.Some? {
      var l := r.value;
      LeastIsLeastOf(specs, DailyTokens, (l: Limits) => l.maxDailyTokens, CeilingIn(l, DailyTokens));
      LeastIsLeastOf(specs, TokensPerCall, (l: Limits) => l.maxTokensPerCall, CeilingIn(l, TokensPerCall));
      LeastIsLeastOf(specs, TimeoutSeconds, (l: Limits) => l.maxTimeoutSeconds, CeilingIn(l, TimeoutSeconds));
      LeastIsLeastOf(specs, ConcurrentTasks, (l: Limits) => l.maxConcurrentTasks, CeilingIn(l, ConcurrentTasks));
      LeastIsLeastOf(specs, ThinkingTokens, (l: Limits) => l.maxThinkingTokensPerCall, CeilingIn(l, ThinkingTokens));
      LeastIsLeastOf(specs, AnswerTokens, (l: Limits) => l.maxAnswerTokensPerCall, CeilingIn(l, AnswerTokens));
      GreatestIsGreatestOf(specs, (l: Limits) => l.minTimeoutSeconds, l.minTimeoutSeconds);
    }
  }

  lemma MergedDenies(specs: set<Spec>, e: Effective, x: string)
    requires IsMerge(specs, e)
    ensures DeniesMean(specs, e, x)
  {
    assert forall s :: DeniesTool(s, x) <==> x in DenyOf(s);
    assert forall s :: DeniesPattern(s, x) <==> x in PatternsOf(s);
    assert forall s :: DeniesModel(s, x) <==> x in DeniedOf(s);
    assert x in e.toolDeny <==> x in Elements(e.toolDeny);
    assert x in e.denyPatterns <==> x in Elements(e.denyPatterns);
    assert e.models.Some? ==> (x in e.models.value.denied <==> x in Elements(e.models.value.denied));
    if s :| s in specs && DeniesModel(s, x) {
      assert DeniedOf(s) != {};
    }
  }

  lemma MergedAllows(specs: set<Spec>, e: Effective, x: string)
    requires MergedModels(specs, e.models)
    ensures AllowsMean(specs, e, x)
  {
    forall s
      ensures HasAllowed(s) <==> AllowedOf(s) != {}
      ensures HasAllowed(s) ==> (x in s.models.value.allowed <==> x in AllowedOf(s))
    {
      if s.models.Some? {
        HasElements(s.models.value.allowed);
      }
    }
    assert HasAllowList(specs) <==> exists s | s in specs :: HasAllowed(s);
    assert OnEveryList(specs, x) <==> forall s | s in specs && HasAllowed(s) :: x in s.models.value.allowed;
    assert e.models.Some? ==> (x in e.models.value.allowed <==> x in Elements(e.models.value.allowed));
  }

  /** What a merge is, without a rank: field by field, from what the policies say. */
  lemma MergeHasMeaning(specs: set<Spec>, e: Effective)
    requires IsMerge(specs, e)
    ensures MergeMeans(specs, e)
  {
    MergedMode(specs, e.mode);
    MergedTrust(specs, e.forceTrustLevel);
    MergedLevel(specs, e.minValidation);
    MergedLimitsMean(specs, e.limits);
    forall x
      ensures DeniesMean(specs, e, x) && AllowsMean(specs, e, x)
    {
      MergedDenies(specs, e, x);
      MergedAllows(specs, e, x);
    }
  }
}
