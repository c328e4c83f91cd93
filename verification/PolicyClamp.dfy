/** Clamping an agent's own limits against policies: one after the other, or against their merge. */
module PolicyClamp {
  import opened Options
  import opened PolicySpec
  import opened PolicyMerge

  /** The values of an agent a policy can clamp; 0 daily tokens and absent caps mean no limit. */
  datatype Values = Values(maxTokens: int, timeout: int, dailyTokens: int, thinking: Option<int>, answer: Option<int>)

  method ApplyPolicyLimits(maxTokens: int, timeoutSecs: int, maxRetries: int, dailyTokenLimit: int, limits: Option<Limits>)
    returns (tokens: int, timeout: int, retries: int, daily: int)
    ensures var v := Values(maxTokens, timeoutSecs, dailyTokenLimit, None, None);
            var r := ClampBy(limits, v);
            tokens == r.maxTokens && timeout == r.timeout && retries == maxRetries && daily == r.dailyTokens
  {
    tokens, timeout, retries, daily := maxTokens, timeoutSecs, maxRetries, dailyTokenLimit;
    if limits.None? {
      return;
    }
    var l := limits.value;
    if l.maxTokensPerCall.Some? && tokens > l.maxTokensPerCall.value {
      tokens := l.maxTokensPerCall.value;
    }
    if l.maxTimeoutSeconds.Some? && timeout > l.maxTimeoutSeconds.value {
      timeout := l.maxTimeoutSeconds.value;
    }
    if l.minTimeoutSeconds.Some? && timeout < l.minTimeoutSeconds.value {
      timeout := l.minTimeoutSeconds.value;
    }
    if l.maxDailyTokens.Some? {
      if daily == 0 || daily > l.maxDailyTokens.value {
        daily := l.maxDailyTokens.value;
      }
    }
  }

  /** The cap of the policy where the agent has none, else the lower one. */
  function ClampOptional(agent: Option<int>, policy: Option<int>): (r: Option<int>)
    ensures r == MinOf(agent, policy)
  {
    if policy.None? then agent
    else if agent.None? then policy
    else if agent.value > policy.value then policy
    else agent
  }

  function Under(v: int, ceiling: Option<int>): int {
    if ceiling.Some? then Min(v, ceiling.value) else v
  }

  function Over(v: int, floor: Option<int>): int {
    if floor.Some? then Max(v, floor.value) else v
  }

  /** A limit of 0 stands for none. */
  function DailyUnder(v: int, ceiling: Option<int>): int {
    if ceiling.Some? && (v == 0 || v > ceiling.value) then ceiling.value else v
  }

  function ClampBy(limits: Option<Limits>, v: Values): Values {
    if limits.None? then v
    else
      var l := limits.value;
      Values(Under(v.maxTokens, l.maxTokensPerCall),
             Over(Under(v.timeout, l.maxTimeoutSeconds), l.minTimeoutSeconds),
             DailyUnder(v.dailyTokens, l.maxDailyTokens),
             ClampOptional(v.thinking, l.maxThinkingTokensPerCall),
             ClampOptional(v.answer, l.maxAnswerTokensPerCall))
  }

  /** As the policy schema demands: daily ceilings of at least 1, and no policy at odds with itself. */
  predicate Admitted(limits: Option<Limits>) {
    limits.Some? ==>
      && (limits.value.maxDailyTokens.Some? ==> limits.value.maxDailyTokens.value >= 1)
      && !Conflicting(limits)
  }

  predicate AllAdmitted(list: seq<Option<Limits>>) {
    forall i | 0 <= i < |list| :: Admitted(list[i])
  }

  function ClampAll(list: seq<Option<Limits>>, v: Values): Values {
    if list == [] then v else ClampBy(list[|list| - 1], ClampAll(list[..|list| - 1], v))
  }

  function MergeAll(list: seq<Option<Limits>>): Option<Limits> {
    if list == [] then None else AddLimits(MergeAll(list[..|list| - 1]), list[|list| - 1])
  }

  /* ---------- one policy ---------- */

  /** Clamping twice is clamping once, conflict or not. */
  lemma ClampIdempotent(limits: Option<Limits>, v: Values)
    ensures ClampBy(limits, ClampBy(limits, v)) == ClampBy(limits, v)
  {
  }

  /** Every limit holds afterwards. For the timeout ceiling that is so for every agent exactly when
      the limits do not contradict each other. */
  lemma CeilingsHold(l: Limits, v: Values)
    requires l.maxDailyTokens.Some? ==> l.maxDailyTokens.value >= 1
    ensures var r := ClampBy(Some(l), v);
            && (l.maxTokensPerCall.Some? ==> r.maxTokens <= l.maxTokensPerCall.value)
            && (l.maxDailyTokens.Some? ==> r.dailyTokens != 0 && r.dailyTokens <= l.maxDailyTokens.value)
            && (l.maxThinkingTokensPerCall.Some? ==> r.thinking.Some? && r.thinking.value <= l.maxThinkingTokensPerCall.value)
            && (l.maxAnswerTokensPerCall.Some? ==> r.answer.Some? && r.answer.value <= l.maxAnswerTokensPerCall.value)
            && (l.minTimeoutSeconds.Some? ==> r.timeout >= l.minTimeoutSeconds.value)
    ensures (l.maxTimeoutSeconds.Some? ==> ClampBy(Some(l), v).timeout <= l.maxTimeoutSeconds.value) <==> !Conflicting(Some(l))
  {
  }

  /** A value is left alone exactly when it keeps the policy's limits on it, where a daily limit of 0 keeps no
      ceiling; for limits that contradict each other, that is the timeout floor alone. */
  lemma ClampLeavesIff(l: Limits, v: Values)
    requires l.maxDailyTokens.Some? ==> l.maxDailyTokens.value >= 1
    ensures var r := ClampBy(Some(l), v);
            && (r.maxTokens == v.maxTokens <==> (l.maxTokensPerCall.Some? ==> v.maxTokens <= l.maxTokensPerCall.value))
            && (r.dailyTokens == v.dailyTokens
                <==> (l.maxDailyTokens.Some? ==> v.dailyTokens != 0 && v.dailyTokens <= l.maxDailyTokens.value))
            && (r.thinking == v.thinking
                <==> (l.maxThinkingTokensPerCall.Some? ==> v.thinking.Some? && v.thinking.value <= l.maxThinkingTokensPerCall.value))
            && (r.answer == v.answer
                <==> (l.maxAnswerTokensPerCall.Some? ==> v.answer.Some? && v.answer.value <= l.maxAnswerTokensPerCall.value))
            && (r.timeout == v.timeout
                <==> if Conflicting(Some(l)) then v.timeout == l.minTimeoutSeconds.value
                     else && (l.maxTimeoutSeconds.Some? ==> v.timeout <= l.maxTimeoutSeconds.value)
                          && (l.minTimeoutSeconds.Some? ==> v.timeout >= l.minTimeoutSeconds.value))
  {
  }

  /** What is changed becomes one of the policy's limits, and the timeout the one it went beyond. */
  lemma ChangedToALimit(l: Limits, v: Values)
    ensures var r := ClampBy(Some(l), v);
            && (r.maxTokens != v.maxTokens ==> Some(r.maxTokens) == l.maxTokensPerCall)
            && (r.dailyTokens != v.dailyTokens ==> Some(r.dailyTokens) == l.maxDailyTokens)
            && (r.thinking != v.thinking ==> r.thinking == l.maxThinkingTokensPerCall)
            && (r.answer != v.answer ==> r.answer == l.maxAnswerTokensPerCall)
            && (r.timeout < v.timeout ==> l.minTimeoutSeconds == Some(r.timeout) || l.maxTimeoutSeconds == Some(r.timeout))
            && (r.timeout > v.timeout ==> l.minTimeoutSeconds == Some(r.timeout))
    ensures ClampBy(None, v) == v
  {
  }

  /* ---------- many policies ---------- */

  lemma {:induction false} MergedAdmitted(list: seq<Option<Limits>>)
    requires AllAdmitted(list) && !Conflicting(MergeAll(list))
    ensures Admitted(MergeAll(list))
    ensures list != [] ==> !Conflicting(MergeAll(list[..|list| - 1]))
  {
    if list != [] {
      var shorter := list[..|list| - 1];
      assert Admitted(list[|list| - 1]);
      MergedAdmitted(shorter);
    }
  }

  /** Without a conflict, clamping by the merge is clamping by each policy in turn. */
  lemma {:induction false} ClampByMerge(list: seq<Option<Limits>>, v: Values)
    requires AllAdmitted(list) && !Conflicting(MergeAll(list))
    ensures ClampAll(list, v) == ClampBy(MergeAll(list), v)
  {
    if list != [] {
      var shorter := list[..|list| - 1];
      MergedAdmitted(list);
      MergedAdmitted(shorter);
      ClampByMerge(shorter, v);
    }
  }

  /* ---------- any order ---------- */

  function LimitsOf(specs: seq<Spec>): seq<Option<Limits>> {
    seq(|specs|, i requires 0 <= i < |specs| => specs[i].limits)
  }

  ghost function SpecSet(specs: seq<Spec>): set<Spec> {
    set s | s in specs
  }

  /** The merge of the limits in sequence is the merge of the set of specs. */
  lemma {:induction false} MergeAllIsMerged(specs: seq<Spec>)
    ensures MergedLimits(SpecSet(specs), MergeAll(LimitsOf(specs)))
  {
    if specs != [] {
      var k := |specs| - 1;
      MergeAllIsMerged(specs[..k]);
      OneMoreLimits(SpecSet(specs[..k]), specs[k], MergeAll(LimitsOf(specs[..k])));
      assert LimitsOf(specs)[..k] == LimitsOf(specs[..k]);
      assert specs == specs[..k] + [specs[k]];
      assert SpecSet(specs) == SpecSet(specs[..k]) + {specs[k]};
    }
  }

  lemma SameSetSameMerge(p: seq<Spec>, q: seq<Spec>)
    requires SpecSet(p) == SpecSet(q)
    ensures MergeAll(LimitsOf(p)) == MergeAll(LimitsOf(q))
  {
    MergeAllIsMerged(p);
    MergeAllIsMerged(q);
    if MergeAll(LimitsOf(p)).Some? {
      LimitsDetermined(SpecSet(p), MergeAll(LimitsOf(p)).value, MergeAll(LimitsOf(q)).value);
    }
  }

  lemma ReorderedSet(p: seq<Spec>, q: seq<Spec>)
    requires multiset(p) == multiset(q)
    ensures SpecSet(p) == SpecSet(q)
  {
    assert forall s :: s in p <==> s in multiset(p);
    assert forall s :: s in q <==> s in multiset(q);
  }

  /** q clamps every agent as the merge of p does. */
  ghost predicate ClampsAlike(p: seq<Spec>, q: seq<Spec>) {
    forall v: Values :: ClampAll(LimitsOf(q), v) == ClampBy(MergeAll(LimitsOf(p)), v)
  }

  ghost predicate EveryOrderAlike(p: seq<Spec>) {
    forall q: seq<Spec> | multiset(q) == multiset(p) :: ClampsAlike(p, q)
  }

  /** Policies clamp alike in every order, and as their merge does, exactly when the merge reports
      no timeout conflict. */
  lemma AnyOrderIff(p: seq<Spec>)
    requires AllAdmitted(LimitsOf(p))
    ensures EveryOrderAlike(p) <==> !Conflicting(MergeAll(LimitsOf(p)))
  {
    if !Conflicting(MergeAll(LimitsOf(p))) {
      forall q: seq<Spec> | multiset(q) == multiset(p)
        ensures ClampsAlike(p, q)
      {
        ReorderedSet(p, q);
        SameSetSameMerge(p, q);
        ReorderedAdmitted(p, q);
        forall v: Values
          ensures ClampAll(LimitsOf(q), v) == ClampBy(MergeAll(LimitsOf(p)), v)
        {
          ClampByMerge(LimitsOf(q), v);
        }
      }
    } else {
      ConflictShows(p);
    }
  }

  lemma ReorderedAdmitted(p: seq<Spec>, q: seq<Spec>)
    requires AllAdmitted(LimitsOf(p)) && multiset(q) == multiset(p)
    ensures AllAdmitted(LimitsOf(q))
  {
    forall i | 0 <= i < |q|
      ensures Admitted(LimitsOf(q)[i])
    {
      assert q[i] in multiset(q) && q[i] in multiset(p);
      var k :| 0 <= k < |p| && p[k] == q[i];
      assert Admitted(LimitsOf(p)[k]);
    }
  }

  /** The policy that clamps last has the last word on the timeout. */
  lemma LastCeilingHolds(rest: seq<Spec>, s: Spec, v: Values)
    requires Admitted(s.limits) && CeilingOf(s, TimeoutSeconds).Some?
    ensures ClampAll(LimitsOf(rest + [s]), v).timeout <= CeilingOf(s, TimeoutSeconds).value
  {
    assert LimitsOf(rest + [s])[..|rest|] == LimitsOf(rest);
  }

  lemma MovedLast(p: seq<Spec>, k: nat) returns (rest: seq<Spec>)
    requires k < |p|
    ensures multiset(rest + [p[k]]) == multiset(p)
  {
    rest := p[..k] + p[k + 1..];
    assert p == p[..k] + [p[k]] + p[k + 1..];
  }

  /** With a conflict, letting the policy with the lowest ceiling come last gives another timeout. */
  lemma ConflictShows(p: seq<Spec>)
    requires AllAdmitted(LimitsOf(p)) && Conflicting(MergeAll(LimitsOf(p)))
    ensures !EveryOrderAlike(p)
  {
    var m := MergeAll(LimitsOf(p)).value;
    MergeAllIsMerged(p);
    assert LeastCeiling(SpecSet(p), TimeoutSeconds, CeilingIn(m, TimeoutSeconds));
    var s :| s in SpecSet(p) && CeilingOf(s, TimeoutSeconds) == m.maxTimeoutSeconds;
    var k :| 0 <= k < |p| && p[k] == s;
    ConflictShowsIn(p, m, k);
  }

  lemma ConflictShowsIn(p: seq<Spec>, m: Limits, k: nat)
    requires AllAdmitted(LimitsOf(p)) && MergeAll(LimitsOf(p)) == Some(m) && Conflicting(Some(m))
    requires k < |p| && CeilingOf(p[k], TimeoutSeconds) == m.maxTimeoutSeconds
    ensures !EveryOrderAlike(p)
  {
    assert Admitted(LimitsOf(p)[k]);
    var v := Values(0, 0, 0, None, None);
    var rest := MovedLast(p, k);
    LastCeilingHolds(rest, p[k], v);
    assert !ClampsAlike(p, rest + [p[k]]);
  }
}
