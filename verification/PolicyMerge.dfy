/** Merging a namespace's policies into the one that is enforced. */
module PolicyMerge {
  import opened Options
  import opened Strings
  import opened PolicySpec

  datatype Conflict = Conflict(field: string, policyA: string, policyB: string)

  ghost function Specs(policies: seq<Policy>): set<Spec> {
    set i | 0 <= i < |policies| :: policies[i].spec
  }

  lemma SpecsGrow(policies: seq<Policy>, i: nat)
    requires i < |policies|
    ensures Specs(policies[..i + 1]) == Specs(policies[..i]) + {policies[i].spec}
  {
    forall s
      ensures s in Specs(policies[..i + 1]) <==> s in Specs(policies[..i]) || s == policies[i].spec
    {
      if s in Specs(policies[..i]) {
        var k :| 0 <= k < i && policies[..i][k].spec == s;
        assert policies[..i + 1][k].spec == s;
      }
      if s in Specs(policies[..i + 1]) {
        var k :| 0 <= k < i + 1 && policies[..i + 1][k].spec == s;
        assert k < i ==> policies[..i][k].spec == s;
      }
      assert policies[..i + 1][i] == policies[i];
    }
  }

  /* ---------- optional values ---------- */

  /** The lower of two optional ceilings; an absent one does not count. */
  function MinOf(a: Option<int>, b: Option<int>): (r: Option<int>)
    ensures r == a || r == b
    ensures r.None? <==> a.None? && b.None?
    ensures r.Some? ==> (a.Some? ==> r.value <= a.value) && (b.Some? ==> r.value <= b.value)
  {
    if b.None? then a else if a.None? || b.value < a.value then b else a
  }

  function MaxOf(a: Option<int>, b: Option<int>): (r: Option<int>)
    ensures r == a || r == b
    ensures r.None? <==> a.None? && b.None?
    ensures r.Some? ==> (a.Some? ==> a.value <= r.value) && (b.Some? ==> b.value <= r.value)
  {
    if b.None? then a else if a.None? || b.value > a.value then b else a
  }

  /** The stricter of two limits, field by field. */
  function MergeLimits(dst: Limits, src: Limits): (r: Limits)
    ensures forall c: Ceiling :: CeilingIn(r, c) == MinOf(CeilingIn(dst, c), CeilingIn(src, c))
    ensures r.minTimeoutSeconds == MaxOf(dst.minTimeoutSeconds, src.minTimeoutSeconds)
  {
    Limits(
      MinOf(dst.maxDailyTokens, src.maxDailyTokens),
      MinOf(dst.maxTokensPerCall, src.maxTokensPerCall),
      MinOf(dst.maxTimeoutSeconds, src.maxTimeoutSeconds),
      MaxOf(dst.minTimeoutSeconds, src.minTimeoutSeconds),
      MinOf(dst.maxConcurrentTasks, src.maxConcurrentTasks),
      MinOf(dst.maxThinkingTokensPerCall, src.maxThinkingTokensPerCall),
      MinOf(dst.maxAnswerTokensPerCall, src.maxAnswerTokensPerCall))
  }

  /* ---------- one more policy, field by field ---------- */

  function AddLimits(r: Option<Limits>, l: Option<Limits>): Option<Limits> {
    if l.None? then r else Some(MergeLimits(if r.None? then NoLimits else r.value, l.value))
  }

  lemma OneMoreLimits(specs: set<Spec>, s: Spec, r: Option<Limits>)
    requires MergedLimits(specs, r)
    ensures MergedLimits(specs + {s}, AddLimits(r, s.limits))
  {
    var before := if r.None? then NoLimits else r.value;
    var after := AddLimits(r, s.limits);
    if r.Some? {
      var w :| w in specs && w.limits.Some?;
      assert w in specs + {s};
    }
    assert s in specs + {s};
    if after.Some? {
      forall c: Ceiling
        ensures LeastCeiling(specs + {s}, c, CeilingIn(after.value, c))
      {
        assert LeastCeiling(specs, c, CeilingIn(before, c));
      }
      assert GreatestFloor(specs, before.minTimeoutSeconds);
    }
  }

  lemma OneMoreMode(specs: set<Spec>, s: Spec, r: Mode)
    requires StrictestMode(specs, r)
    ensures StrictestMode(specs + {s}, if ModeRank(s.mode) > ModeRank(r) then s.mode else r)
  {
    assert s in specs + {s} && forall w | w in specs :: w in specs + {s};
  }

  lemma OneMoreLevel(specs: set<Spec>, s: Spec, r: Level)
    requires StrictestLevel(specs, r)
    ensures StrictestLevel(specs + {s}, if LevelRank(LevelOf(s)) > LevelRank(r) then LevelOf(s) else r)
  {
    assert s in specs + {s} && forall w | w in specs :: w in specs + {s};
  }

  function AddTrust(r: Option<Trust>, t: Option<Trust>): Option<Trust> {
    if t.None? then r else if r.None? || TrustRank(t.value) > TrustRank(r.value) then t else r
  }

  lemma OneMoreTrust(specs: set<Spec>, s: Spec, r: Option<Trust>)
    requires StrictestTrust(specs, r)
    ensures StrictestTrust(specs + {s}, AddTrust(r, TrustOf(s)))
  {
    if r.Some? {
      var w :| w in specs && TrustOf(w) == r;
      assert w in specs + {s};
    }
    assert s in specs + {s};
  }

  function AddRequirements(r: Requirements, q: Requirements): Requirements {
    Requirements(r.budgetRef || q.budgetRef, r.audit || q.audit, r.allowList || q.allowList)
  }

  lemma OneMoreRequirement(specs: set<Spec>, s: Spec, r: Requirements)
    requires AnyRequirement(specs, r)
    ensures AnyRequirement(specs + {s}, AddRequirements(r, s.requirements))
  {
    assert s in specs + {s} && forall w | w in specs :: w in specs + {s};
  }

  lemma OneMoreList(specs: set<Spec>, s: Spec, tools: set<string>, patterns: set<string>, denied: set<string>)
    requires AllTools(specs, tools) && AllPatterns(specs, patterns) && AllDenied(specs, denied)
    ensures AllTools(specs + {s}, tools + DenyOf(s))
    ensures AllPatterns(specs + {s}, patterns + PatternsOf(s))
    ensures AllDenied(specs + {s}, denied + DeniedOf(s))
  {
    assert s in specs + {s} && forall w | w in specs :: w in specs + {s};
  }

  ghost function AllowSets(specs: set<Spec>): set<set<string>> {
    set s | s in specs && AllowedOf(s) != {} :: AllowedOf(s)
  }

  ghost function ListSets(lists: seq<seq<string>>): set<set<string>> {
    set l | l in lists :: Elements(l)
  }

  /** lists holds exactly the non-empty allowlists of the specs. */
  ghost predicate AllowListsOf(specs: set<Spec>, lists: seq<seq<string>>) {
    ListSets(lists) == AllowSets(specs)
  }

  function AddAllowList(lists: seq<seq<string>>, m: Option<Models>): seq<seq<string>> {
    if m.Some? && m.value.allowed != [] then lists + [m.value.allowed] else lists
  }

  lemma OneMoreAllowList(specs: set<Spec>, s: Spec, lists: seq<seq<string>>)
    requires AllowListsOf(specs, lists)
    ensures AllowListsOf(specs + {s}, AddAllowList(lists, s.models))
  {
    var allowed := AllowedOf(s);
    assert AllowSets(specs + {s}) == AllowSets(specs) + (if allowed != {} then {allowed} else {});
    if s.models.Some? {
      HasElements(s.models.value.allowed);
      var l := s.models.value.allowed;
      assert forall k :: k in lists + [l] <==> k in lists || k == l;
      assert ListSets(lists + [l]) == ListSets(lists) + {Elements(l)};
    }
  }

  /* ---------- loops over lists ---------- */

  method AddAll(s: set<string>, list: seq<string>) returns (r: set<string>)
    ensures r == s + Elements(list)
  {
    r := s;
    for i := 0 to |list|
      invariant r == s + Elements(list[..i])
    {
      assert Elements(list[..i + 1]) == Elements(list[..i]) + {list[i]} by {
        assert list[..i + 1] == list[..i] + [list[i]];
      }
      r := r + {list[i]};
    }
    assert list[..|list|] == list;
  }

  /** How many of the lists hold the pattern. */
  function Holding(lists: seq<seq<string>>, pattern: string): nat {
    if lists == [] then 0
    else Holding(lists[..|lists| - 1], pattern) + (if pattern in lists[|lists| - 1] then 1 else 0)
  }

  lemma {:induction false} HeldByAll(lists: seq<seq<string>>, pattern: string)
    ensures Holding(lists, pattern) <= |lists|
    ensures Holding(lists, pattern) == |lists| <==> forall l | l in lists :: pattern in l
  {
    if lists != [] {
      var k := |lists| - 1;
      HeldByAll(lists[..k], pattern);
      assert lists == lists[..k] + [lists[k]];
    }
  }

  /** Counts, per pattern, the lists that hold it; those that all lists hold survive. */
  method IntersectAllowLists(lists: seq<seq<string>>) returns (r: seq<string>)
    ensures Sorted(r)
    ensures forall x :: x in r <==> lists != [] && forall l | l in lists :: x in l
  {
    if lists == [] {
      return [];
    }
    var count: map<string, nat> := map[];
    for i := 0 to |lists|
      invariant forall x :: (if x in count then count[x] else 0) == Holding(lists[..i], x)
    {
      assert lists[..i + 1][..i] == lists[..i];
      count := CountList(lists, i, count);
    }
    assert lists[..|lists|] == lists;
    var all := set x | x in count && count[x] == |lists|;
    forall x
      ensures x in all <==> forall l | l in lists :: x in l
    {
      HeldByAll(lists, x);
    }
    r := SortedList(all);
    assert forall x :: x in r <==> x in Elements(r);
  }

  /** Adds list i to the counts, each of its patterns once. */
  method CountList(lists: seq<seq<string>>, i: nat, count: map<string, nat>) returns (r: map<string, nat>)
    requires i < |lists|
    ensures forall x :: (if x in r then r[x] else 0) == (if x in count then count[x] else 0) + (if x in lists[i] then 1 else 0)
  {
    r := count;
    var list, seen := lists[i], {};
    for j := 0 to |list|
      invariant seen == Elements(list[..j])
      invariant forall x :: (if x in r then r[x] else 0) == (if x in count then count[x] else 0) + (if x in seen then 1 else 0)
    {
      var p := list[j];
      assert Elements(list[..j + 1]) == Elements(list[..j]) + {p} by {
        assert list[..j + 1] == list[..j] + [p];
      }
      if p !in seen {
        seen := seen + {p};
        r := r[p := (if p in r then r[p] else 0) + 1];
      }
    }
    assert list[..|list|] == list;
  }

  /* ---------- the merge ---------- */

  /** What the merge loop keeps of the policies so far. */
  datatype Sums = Sums(
    mode: Mode,
    requirements: Requirements,
    limits: Option<Limits>,
    trust: Option<Trust>,
    level: Level,
    tools: set<string>,
    patterns: set<string>,
    denied: set<string>,
    allowLists: seq<seq<string>>)
  {
    ghost predicate Of(specs: set<Spec>) {
      && StrictestMode(specs, mode) && AnyRequirement(specs, requirements) && MergedLimits(specs, limits)
      && StrictestTrust(specs, trust) && StrictestLevel(specs, level)
      && AllTools(specs, tools) && AllPatterns(specs, patterns) && AllDenied(specs, denied)
      && AllowListsOf(specs, allowLists)
    }
  }

  const NoSums := Sums(Audit, Requirements(false, false, false), None, None, NoValidation, {}, {}, {}, [])

  /** The sums with one more spec. */
  function OneMore(sums: Sums, spec: Spec): Sums {
    Sums(if ModeRank(spec.mode) > ModeRank(sums.mode) then spec.mode else sums.mode,
         AddRequirements(sums.requirements, spec.requirements), AddLimits(sums.limits, spec.limits),
         AddTrust(sums.trust, TrustOf(spec)), if LevelRank(LevelOf(spec)) > LevelRank(sums.level) then LevelOf(spec) else sums.level,
         sums.tools + DenyOf(spec), sums.patterns + PatternsOf(spec), sums.denied + DeniedOf(spec),
         AddAllowList(sums.allowLists, spec.models))
  }

  lemma OneMoreIsOf(sums: Sums, spec: Spec, specs: set<Spec>)
    requires sums.Of(specs)
    ensures OneMore(sums, spec).Of(specs + {spec})
  {
    OneMoreMode(specs, spec, sums.mode);
    OneMoreRequirement(specs, spec, sums.requirements);
    OneMoreLimits(specs, spec, sums.limits);
    OneMoreTrust(specs, spec, sums.trust);
    OneMoreLevel(specs, spec, sums.level);
    OneMoreList(specs, spec, sums.tools, sums.patterns, sums.denied);
    OneMoreAllowList(specs, spec, sums.allowLists);
  }

  /** Takes one more policy in. */
  method Absorb(sums: Sums, spec: Spec, ghost specs: set<Spec>) returns (r: Sums)
    requires sums.Of(specs)
    ensures r.Of(specs + {spec})
  {
    OneMoreIsOf(sums, spec, specs);
    r := AddSpec(sums, spec);
  }

  method AddSpec(sums: Sums, spec: Spec) returns (r: Sums)
    ensures r == OneMore(sums, spec)
  {
    var mode := if ModeRank(spec.mode) > ModeRank(sums.mode) then spec.mode else sums.mode;
    var trust, level := sums.trust, sums.level;
    var tools, patterns, denied := sums.tools, sums.patterns, sums.denied;
    if spec.tools.Some? {
      tools := AddAll(tools, spec.tools.value.deny);
      trust := AddTrust(trust, spec.tools.value.forceTrustLevel);
    }
    if spec.output.Some? {
      if LevelRank(spec.output.value.minValidation) > LevelRank(level) {
        level := spec.output.value.minValidation;
      }
      patterns := AddAll(patterns, spec.output.value.denyPatterns);
    }
    if spec.models.Some? {
      denied := AddAll(denied, spec.models.value.denied);
    }
    r := Sums(mode, AddRequirements(sums.requirements, spec.requirements), AddLimits(sums.limits, spec.limits), trust, level,
              tools, patterns, denied, AddAllowList(sums.allowLists, spec.models));
  }

  method MergePolicies(policies: seq<Policy>) returns (r: Option<Effective>, conflicts: seq<Conflict>)
    ensures policies == [] ==> r == None && conflicts == []
    ensures policies != [] ==> r.Some? && IsMerge(Specs(policies), r.value) && MergeMeans(Specs(policies), r.value)
    ensures policies != [] && !Conflicting(r.value.limits) ==> conflicts == []
    ensures policies != [] && Conflicting(r.value.limits) ==>
              |conflicts| == 1 && conflicts[0].field == "limits.timeoutSeconds"
              && NamesTimeouts(policies, conflicts[0].policyA, conflicts[0].policyB)
  {
    if policies == [] {
      return None, [];
    }
    var sums := NoSums;
    for i := 0 to |policies|
      invariant sums.Of(Specs(policies[..i]))
    {
      SpecsGrow(policies, i);
      sums := Absorb(sums, policies[i].spec, Specs(policies[..i]));
    }
    assert policies[..|policies|] == policies;
    var effective := Finish(sums, Specs(policies));
    MergeHasMeaning(Specs(policies), effective);
    r, conflicts := Some(effective), [];
    if Conflicting(effective.limits) {
      var a, b := FindTimeoutPolicies(policies);
      conflicts := [Conflict("limits.timeoutSeconds", a, b)];
    }
  }

  /** Turns the collected sets into sorted lists. */
  method Finish(sums: Sums, ghost specs: set<Spec>) returns (r: Effective)
    requires sums.Of(specs)
    ensures IsMerge(specs, r)
  {
    var toolDeny := SortedList(sums.tools);
    var denyPatterns := SortedList(sums.patterns);
    var models := MergeModels(specs, sums.allowLists, sums.denied);
    r := Effective(sums.mode, sums.requirements, sums.limits, toolDeny, sums.trust, sums.level, denyPatterns, models);
  }

  lemma AllowListsShared(specs: set<Spec>, lists: seq<seq<string>>, x: string)
    requires AllowListsOf(specs, lists)
    ensures (forall l | l in lists :: x in l) <==> forall s | s in specs && AllowedOf(s) != {} :: x in AllowedOf(s)
  {
    if forall l | l in lists :: x in l {
      forall s | s in specs && AllowedOf(s) != {}
        ensures x in AllowedOf(s)
      {
        assert AllowedOf(s) in ListSets(lists);
      }
    }
    if forall s | s in specs && AllowedOf(s) != {} :: x in AllowedOf(s) {
      forall l | l in lists
        ensures x in l
      {
        assert Elements(l) in AllowSets(specs);
      }
    }
  }

  lemma AllowListsThere(specs: set<Spec>, lists: seq<seq<string>>)
    requires AllowListsOf(specs, lists)
    ensures HasAllowList(specs) <==> lists != []
  {
    if lists != [] {
      assert Elements(lists[0]) in AllowSets(specs);
    }
    if HasAllowList(specs) {
      var s :| s in specs && AllowedOf(s) != {};
      assert AllowedOf(s) in ListSets(lists);
    }
  }

  method MergeModels(ghost specs: set<Spec>, allowLists: seq<seq<string>>, denied: set<string>) returns (r: Option<Models>)
    requires AllDenied(specs, denied) && AllowListsOf(specs, allowLists)
    ensures MergedModels(specs, r)
  {
    AllowListsThere(specs, allowLists);
    assert denied != {} <==> exists s | s in specs :: DeniedOf(s) != {} by {
      if s :| s in specs && DeniedOf(s) != {} {
        var x :| x in DeniedOf(s);
        assert x in denied;
      }
    }
    if allowLists == [] && denied == {} {
      return None;
    }
    var deniedList := SortedList(denied);
    var allowed := IntersectAllowLists(allowLists);
    forall x
      ensures x in Elements(allowed)
          <==> HasAllowList(specs) && OnEveryList(specs, x)
    {
      AllowListsShared(specs, allowLists, x);
    }
    return Some(Models(allowed, deniedList));
  }

  /* ---------- conflicts ---------- */

  /** The merged floor lies above the merged ceiling. */
  predicate Conflicting(l: Option<Limits>) {
    l.Some? && l.value.minTimeoutSeconds.Some? && l.value.maxTimeoutSeconds.Some?
    && l.value.minTimeoutSeconds.value > l.value.maxTimeoutSeconds.value
  }

  predicate NamesGiven(policies: seq<Policy>) {
    forall i | 0 <= i < |policies| :: policies[i].name != ""
  }

  /** Policy k has the highest floor of all. */
  ghost predicate HighestFloor(policies: seq<Policy>, k: int) {
    && 0 <= k < |policies| && FloorOf(policies[k].spec).Some?
    && forall i | 0 <= i < |policies| && FloorOf(policies[i].spec).Some? ::
         FloorOf(policies[i].spec).value <= FloorOf(policies[k].spec).value
  }

  ghost predicate LowestCeiling(policies: seq<Policy>, k: int) {
    && 0 <= k < |policies| && CeilingOf(policies[k].spec, TimeoutSeconds).Some?
    && forall i | 0 <= i < |policies| && CeilingOf(policies[i].spec, TimeoutSeconds).Some? ::
         CeilingOf(policies[k].spec, TimeoutSeconds).value <= CeilingOf(policies[i].spec, TimeoutSeconds).value
  }

  /** a names a policy with the highest floor, b one with the lowest ceiling, as far as there are any. */
  ghost predicate NamesTimeouts(policies: seq<Policy>, a: string, b: string) {
    NamesGiven(policies) ==>
      && ((exists i | 0 <= i < |policies| :: FloorOf(policies[i].spec).Some?) ==>
            exists k :: HighestFloor(policies, k) && policies[k].name == a)
      && ((exists i | 0 <= i < |policies| :: CeilingOf(policies[i].spec, TimeoutSeconds).Some?) ==>
            exists k :: LowestCeiling(policies, k) && policies[k].name == b)
  }

  /** name is unset, or names the policy k with value best, which no policy before i beats. */
  ghost predicate BestFloor(policies: seq<Policy>, i: nat, name: string, best: int) {
    i <= |policies| &&
    (name == "" ==> forall k | 0 <= k < i :: FloorOf(policies[k].spec).None?)
    && (name != "" ==>
          && (exists k | 0 <= k < i :: policies[k].name == name && FloorOf(policies[k].spec) == Some(best))
          && (forall k | 0 <= k < i && FloorOf(policies[k].spec).Some? :: FloorOf(policies[k].spec).value <= best))
  }

  ghost predicate BestCeiling(policies: seq<Policy>, i: nat, name: string, best: int) {
    i <= |policies| &&
    (name == "" ==> forall k | 0 <= k < i :: CeilingOf(policies[k].spec, TimeoutSeconds).None?)
    && (name != "" ==>
          && (exists k | 0 <= k < i :: policies[k].name == name && CeilingOf(policies[k].spec, TimeoutSeconds) == Some(best))
          && (forall k | 0 <= k < i && CeilingOf(policies[k].spec, TimeoutSeconds).Some? ::
                best <= CeilingOf(policies[k].spec, TimeoutSeconds).value))
  }

  /** The policies that contribute the highest floor and the lowest ceiling. */
  method FindTimeoutPolicies(policies: seq<Policy>) returns (minPol: string, maxPol: string)
    ensures NamesTimeouts(policies, minPol, maxPol)
  {
    var bestMin, bestMax := 0, 0;
    minPol, maxPol := "", "";
    for i := 0 to |policies|
      invariant NamesGiven(policies) ==> BestFloor(policies, i, minPol, bestMin)
      invariant NamesGiven(policies) ==> BestCeiling(policies, i, maxPol, bestMax)
    {
      var pol := policies[i];
      if pol.spec.limits.Some? {
        var l := pol.spec.limits.value;
        if l.minTimeoutSeconds.Some? && (minPol == "" || l.minTimeoutSeconds.value > bestMin) {
          bestMin, minPol := l.minTimeoutSeconds.value, pol.name;
        }
        if l.maxTimeoutSeconds.Some? && (maxPol == "" || l.maxTimeoutSeconds.value < bestMax) {
          bestMax, maxPol := l.maxTimeoutSeconds.value, pol.name;
        }
      }
    }
    if NamesGiven(policies) {
      BestAreExtreme(policies, minPol, bestMin, maxPol, bestMax);
    }
  }

  lemma BestAreExtreme(policies: seq<Policy>, minPol: string, bestMin: int, maxPol: string, bestMax: int)
    requires BestFloor(policies, |policies|, minPol, bestMin) && BestCeiling(policies, |policies|, maxPol, bestMax)
    ensures NamesTimeouts(policies, minPol, maxPol)
  {
    if minPol != "" {
      var k :| 0 <= k < |policies| && policies[k].name == minPol && FloorOf(policies[k].spec) == Some(bestMin);
      assert HighestFloor(policies, k);
    }
    if maxPol != "" {
      var k :| 0 <= k < |policies| && policies[k].name == maxPol && CeilingOf(policies[k].spec, TimeoutSeconds) == Some(bestMax);
      assert LowestCeiling(policies, k);
    }
  }

  /** A conflict is reported exactly when some policy's minimum timeout exceeds some policy's
      maximum; the two policies named are then such a pair. */
  lemma ConflictMeans(policies: seq<Policy>, e: Effective)
    requires IsMerge(Specs(policies), e)
    ensures Conflicting(e.limits)
        <==> exists i, j | 0 <= i < |policies| && 0 <= j < |policies| :: Clash(policies[i].spec, policies[j].spec)
  {
    var specs := Specs(policies);
    assert e.limits.Some? ==> LeastCeiling(specs, TimeoutSeconds, CeilingIn(e.limits.value, TimeoutSeconds));
    if Conflicting(e.limits) {
      var s :| s in specs && FloorOf(s) == e.limits.value.minTimeoutSeconds;
      var t :| t in specs && CeilingOf(t, TimeoutSeconds) == e.limits.value.maxTimeoutSeconds;
      var i :| 0 <= i < |policies| && policies[i].spec == s;
      var j :| 0 <= j < |policies| && policies[j].spec == t;
      assert Clash(policies[i].spec, policies[j].spec);
    }
    if i, j :| 0 <= i < |policies| && 0 <= j < |policies| && Clash(policies[i].spec, policies[j].spec) {
      assert policies[i].spec in specs && policies[j].spec in specs;
    }
  }

  predicate Clash(s: Spec, t: Spec) {
    FloorOf(s).Some? && CeilingOf(t, TimeoutSeconds).Some? && FloorOf(s).value > CeilingOf(t, TimeoutSeconds).value
  }

  lemma NamedPoliciesClash(policies: seq<Policy>, e: Effective, a: string, b: string)
    requires IsMerge(Specs(policies), e) && Conflicting(e.limits) && NamesGiven(policies) && NamesTimeouts(policies, a, b)
    ensures exists i, j | 0 <= i < |policies| && 0 <= j < |policies| ::
              policies[i].name == a && policies[j].name == b && Clash(policies[i].spec, policies[j].spec)
  {
    ConflictMeans(policies, e);
    var p, q :| 0 <= p < |policies| && 0 <= q < |policies| && Clash(policies[p].spec, policies[q].spec);
    ExtremesClash(policies, a, b, p, q);
  }

  lemma ExtremesClash(policies: seq<Policy>, a: string, b: string, p: nat, q: nat)
    requires NamesGiven(policies) && NamesTimeouts(policies, a, b)
    requires p < |policies| && q < |policies| && Clash(policies[p].spec, policies[q].spec)
    ensures exists i, j | 0 <= i < |policies| && 0 <= j < |policies| ::
              policies[i].name == a && policies[j].name == b && Clash(policies[i].spec, policies[j].spec)
  {
    var i :| HighestFloor(policies, i) && policies[i].name == a;
    var j :| LowestCeiling(policies, j) && policies[j].name == b;
    assert Clash(policies[i].spec, policies[j].spec);
  }
}
