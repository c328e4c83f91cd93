/** Which searches must end: those with an iteration limit, or with room for the root only. */
module SearchLimits {
  import opened Options
  import opened SearchSpec
  import opened SearchStages
  import opened SearchInvariants
  import opened SearchRuns

  /* ---------- room for the root only ---------- */

  /** A reconcile that goes through ends a search whose first node already fills it. */
  lemma FullStepEnds(cfg: Config, s: Run, e: Env, s': Run, fx: Effects)
    requires Inv(cfg, s) && Step(cfg, s, e, s', fx) && NodeLimit(cfg) <= 1 && !e.updateFails
    ensures Terminal(s')
  {
    if !e.timedOut {
      var t := Current(cfg, s);
      var beamed :| StepVia(cfg, s, e, s', fx, beamed);
      CollectAndPruneKeep(cfg, t, e, beamed);
      FullIsConverged(cfg, t.(nodes := beamed));
    }
  }

  lemma FullIsConverged(cfg: Config, t: Tree)
    requires |t.nodes| >= 1 && NodeLimit(cfg) <= 1
    ensures Convergence(cfg, t).Some?
  {
  }

  lemma FullSearchEnds(cfg: Config, h: History, k: nat)
    requires IsHistory(cfg, h) && k < |h.envs| && NodeLimit(cfg) <= 1 && !Terminal(h.states[k + 1])
    ensures !GoodAt(cfg, h, k)
  {
    ReachableInv(cfg, h, k);
    assert StepsAt(cfg, h, k);
    if GoodAt(cfg, h, k) {
      FullStepEnds(cfg, h.states[k], h.envs[k], h.states[k + 1], h.fxs[k]);
    }
  }

  lemma NotYetTerminal(cfg: Config, h: History, k: nat)
    requires IsHistory(cfg, h) && k < |h.envs|
    ensures !Terminal(h.states[k])
  {
    assert StepsAt(cfg, h, k);
  }

  lemma {:induction false} FullSearchHasNone(cfg: Config, h: History, n: nat)
    requires IsHistory(cfg, h) && n <= |h.envs| && NodeLimit(cfg) <= 1 && !Terminal(h.states[n])
    ensures GoodSteps(cfg, h, n) == 0
  {
    if n > 0 {
      NotYetTerminal(cfg, h, n - 1);
      FullSearchHasNone(cfg, h, n - 1);
      FullSearchEnds(cfg, h, n - 1);
    }
  }

  /* ---------- a search that is never done ---------- */

  function ManyIDs(): seq<string> {
    seq(MaxNodesCap, _ => "t")
  }

  /** The planner answers with an empty batch. */
  function Patient(answers: seq<Answer>): Env {
    Env(false, false, answers, [], ManyIDs(), Actions([]), 0, [], false, false)
  }

  predicate Endless(cfg: Config) {
    cfg.maxIterations <= 0 && NodeLimit(cfg) > 1
  }

  /** Only the root, done and without a score. */
  predicate JustDone(t: Tree) {
    && |t.nodes| == 1 && t.solution.None? && t.reason.None?
    && var n := t.nodes[0];
       n.id == 0 && n.depth == 0 && n.phase == Scored && n.scoreMillis.None? && n.taskID == ""
  }

  lemma NotConverged(cfg: Config, t: Tree)
    requires Endless(cfg) && |t.nodes| == 1 && t.solution.None? && t.nodes[0].depth == 0 && t.nodes[0].scoreMillis.None?
    ensures Convergence(cfg, t).None?
  {
  }

  lemma NothingToSubmit(cfg: Config, nodes: seq<Node>, ids: seq<string>)
    requires |nodes| == 1 && nodes[0].phase == Scored
    ensures Submit(nodes, MaxParallel(cfg), ids) == Submitted(nodes, []) && !HasRunning(nodes)
  {
    assert nodes[..0] == [];
    assert CountRunning(nodes) == 0;
    assert SubmitFrom(nodes, 1, 0, MaxParallel(cfg), ids, []) == Submitted(nodes, []);
  }

  function NextRound(cfg: Config, t: Tree): Tree {
    t.(nodes := Truncate(t.nodes, MaxOutputBytes(cfg)), iterations := t.iterations + 1)
  }

  lemma PlanNothing(cfg: Config, s: Run, t: Tree, answers: seq<Answer>)
    requires Endless(cfg) && JustDone(t)
    ensures Proceed(cfg, s, t, Patient(answers))
         == Persisted(Run(RunRunning, Some(NextRound(cfg, t)), s.output), Effects([], [], true, true))
    ensures JustDone(NextRound(cfg, t))
  {
    var e := Patient(answers);
    NotConverged(cfg, t);
    NothingToSubmit(cfg, t.nodes, e.taskIDs);
    assert t.(nodes := t.nodes) == t;
    assert ApplyActions(t, [], NodeLimit(cfg), e.spare, e.growth) == t;
    NothingToSubmit(cfg, NextRound(cfg, t).nodes, e.taskIDs);
    var none: seq<int> := [];
    assert none + none == none;
  }

  lemma NothingBeamed(cfg: Config, nodes: seq<Node>)
    requires |nodes| == 1 && nodes[0].scoreMillis.None?
    ensures Beamed(cfg, nodes, nodes)
  {
    assert forall d :: BeamAt(nodes, d) == {};
  }

  lemma PatientStep(cfg: Config, s: Run)
    requires Endless(cfg) && s.phase == RunRunning && s.tree.Some? && JustDone(s.tree.value)
    ensures Step(cfg, s, Patient([]), Run(RunRunning, Some(NextRound(cfg, s.tree.value)), s.output), Effects([], [], true, true))
    ensures JustDone(NextRound(cfg, s.tree.value))
  {
    var t := s.tree.value;
    PlanNothing(cfg, s, t, []);
    NothingBeamed(cfg, t.nodes);
    assert t.(nodes := t.nodes) == t;
    assert StepVia(cfg, s, Patient([]), Run(RunRunning, Some(NextRound(cfg, t)), s.output), Effects([], [], true, true), t.nodes);
  }

  function StartedRun(cfg: Config): Run {
    var t := InitTree(cfg.rootPrompt);
    Run(RunRunning, Some(t.(nodes := [t.nodes[0].(phase := Running, taskID := "t")])), "")
  }

  lemma FirstStep(cfg: Config)
    requires Endless(cfg)
    ensures Step(cfg, NewRun(), Patient([]), StartedRun(cfg), Effects([0], [], false, true))
  {
    var t := InitTree(cfg.rootPrompt);
    var next := StartedRun(cfg).tree.value.nodes;
    NotConverged(cfg, t);
    NothingBeamed(cfg, t.nodes);
    assert t.nodes[..0] == [];
    assert CountRunning(t.nodes) == 0;
    assert t.nodes[0 := next[0]] == next;
    assert SubmitFrom(next, 1, 1, MaxParallel(cfg), ManyIDs(), [0]) == Submitted(next, [0]);
    assert TaskIDFor(ManyIDs(), 0) == "t" && t.nodes[0 := t.nodes[0].(phase := Running, taskID := "t")] == next;
    var none: seq<int> := [];
    assert none + [0] == [0];
    assert SubmitFrom(t.nodes, 0, 0, MaxParallel(cfg), ManyIDs(), none) == Submitted(next, [0]);
    assert Submit(t.nodes, MaxParallel(cfg), ManyIDs()) == Submitted(next, [0]);
    assert next[0].phase == Running && HasRunning(next);
    assert t.(nodes := t.nodes) == t;
    assert StepVia(cfg, NewRun(), Patient([]), StartedRun(cfg), Effects([0], [], false, true), t.nodes);
  }

  const Done := Answer("t", "", "", None)

  function Settled(cfg: Config): Tree {
    var t := StartedRun(cfg).tree.value;
    t.(nodes := [t.nodes[0].(phase := Scored, output := "", taskID := "")])
  }

  lemma SecondStep(cfg: Config)
    requires Endless(cfg)
    ensures Step(cfg, StartedRun(cfg), Patient([Done]), Run(RunRunning, Some(NextRound(cfg, Settled(cfg))), ""),
                 Effects([], [], true, true))
    ensures JustDone(NextRound(cfg, Settled(cfg))) && Reaches(StartedRun(cfg).tree.value.nodes, [Done], 0)
  {
    var s := StartedRun(cfg);
    var nodes, after := s.tree.value.nodes, Settled(cfg).nodes;
    assert [Done][..0] == [] && nodes[..0] == [];
    assert Owner(Executor, nodes, "t") == Some(0);
    assert CollectFrom(Executor, nodes, nodes, []) == nodes;
    assert CollectFrom(Executor, nodes, nodes, [Done]) == nodes[0 := after[0]] == after;
    assert Gathered(cfg, nodes, Patient([Done])) == after;
    PlanNothing(cfg, s, Settled(cfg), [Done]);
    NothingBeamed(cfg, after);
    assert s.tree.value.(nodes := after) == Settled(cfg);
    assert StepVia(cfg, s, Patient([Done]), Run(RunRunning, Some(NextRound(cfg, Settled(cfg))), ""), Effects([], [], true, true), after);
    assert Owner(Executor, nodes, [Done][0].taskID) == Some(0);
  }

  /* ---------- the exact condition ---------- */

  function Longer(h: History, e: Env, s: Run, fx: Effects): History {
    History(h.states + [s], h.envs + [e], h.fxs + [fx])
  }

  lemma LongerIsHistory(cfg: Config, h: History, e: Env, s: Run, fx: Effects)
    requires IsHistory(cfg, h) && Step(cfg, h.states[|h.envs|], e, s, fx)
    ensures IsHistory(cfg, Longer(h, e, s, fx))
  {
    var longer := Longer(h, e, s, fx);
    forall k | 0 <= k < |longer.envs|
      ensures StepsAt(cfg, longer, k)
    {
      assert k < |h.envs| ==> StepsAt(cfg, h, k);
    }
  }

  lemma {:induction false} SamePrefix(cfg: Config, a: History, b: History, n: nat)
    requires n <= |a.envs| < |a.states| && n <= |b.envs| < |b.states|
    requires forall k | 0 <= k < n :: a.envs[k] == b.envs[k] && a.states[k] == b.states[k]
    ensures GoodSteps(cfg, a, n) == GoodSteps(cfg, b, n)
  {
    if n > 0 {
      SamePrefix(cfg, a, b, n - 1);
      assert GoodAt(cfg, a, n - 1) <==> GoodAt(cfg, b, n - 1);
    }
  }

  lemma PatientIsGood(cfg: Config, h: History, answers: seq<Answer>, s: Run, fx: Effects)
    requires IsHistory(cfg, h) && Responds(cfg, h.states[|h.envs|], Patient(answers))
    requires Step(cfg, h.states[|h.envs|], Patient(answers), s, fx)
    ensures var longer := Longer(h, Patient(answers), s, fx);
            IsHistory(cfg, longer) && GoodSteps(cfg, longer, |longer.envs|) == GoodSteps(cfg, h, |h.envs|) + 1
  {
    LongerIsHistory(cfg, h, Patient(answers), s, fx);
    SamePrefix(cfg, h, Longer(h, Patient(answers), s, fx), |h.envs|);
    assert GoodAt(cfg, Longer(h, Patient(answers), s, fx), |h.envs|);
  }

  /** A search with no iteration limit and room for a second node can go on for ever: the planner keeps
      answering with an empty batch. */
  lemma {:induction false} GoesOnForever(cfg: Config, n: nat) returns (h: History)
    requires Endless(cfg)
    ensures IsHistory(cfg, h) && |h.envs| == n + 2 && GoodSteps(cfg, h, |h.envs|) == n + 2
    ensures BetweenRounds(h.states[|h.envs|])
  {
    if n == 0 {
      h := BothFirst(cfg);
    } else {
      h := GoesOnForever(cfg, n - 1);
      h := OneMoreRound(cfg, h);
    }
  }

  predicate BetweenRounds(s: Run) {
    s.phase == RunRunning && s.tree.Some? && JustDone(s.tree.value)
  }

  lemma OneMoreRound(cfg: Config, h: History) returns (longer: History)
    requires Endless(cfg) && IsHistory(cfg, h) && BetweenRounds(h.states[|h.envs|])
    ensures IsHistory(cfg, longer) && |longer.envs| == |h.envs| + 1 && BetweenRounds(longer.states[|longer.envs|])
    ensures GoodSteps(cfg, longer, |longer.envs|) == GoodSteps(cfg, h, |h.envs|) + 1
  {
    var s := h.states[|h.envs|];
    var next := Run(RunRunning, Some(NextRound(cfg, s.tree.value)), s.output);
    PatientStep(cfg, s);
    NothingAwaited(cfg, s);
    PatientIsGood(cfg, h, [], next, Effects([], [], true, true));
    longer := Longer(h, Patient([]), next, Effects([], [], true, true));
  }

  lemma NothingAwaited(cfg: Config, s: Run)
    requires BetweenRounds(s)
    ensures Responds(cfg, s, Patient([]))
  {
  }

  lemma BothFirst(cfg: Config) returns (h: History)
    requires Endless(cfg)
    ensures IsHistory(cfg, h) && |h.envs| == 2 && GoodSteps(cfg, h, 2) == 2
    ensures h.states[2] == Run(RunRunning, Some(NextRound(cfg, Settled(cfg))), "") && JustDone(NextRound(cfg, Settled(cfg)))
  {
    h := History([NewRun()], [], []);
    FirstStep(cfg);
    PatientIsGood(cfg, h, [], StartedRun(cfg), Effects([0], [], false, true));
    h := Longer(h, Patient([]), StartedRun(cfg), Effects([0], [], false, true));
    SecondStep(cfg);
    PatientIsGood(cfg, h, [Done], Run(RunRunning, Some(NextRound(cfg, Settled(cfg))), ""), Effects([], [], true, true));
    h := Longer(h, Patient([Done]), Run(RunRunning, Some(NextRound(cfg, Settled(cfg))), ""), Effects([], [], true, true));
  }

  /** No unfinished search has been through more good reconciles than the bound. */
  ghost predicate BoundedBy(cfg: Config, bound: nat) {
    forall h | IsHistory(cfg, h) && !Terminal(h.states[|h.envs|]) :: GoodSteps(cfg, h, |h.envs|) <= bound
  }

  ghost predicate MustEnd(cfg: Config) {
    exists bound: nat :: BoundedBy(cfg, bound)
  }

  /** The reconciles of an unfinished search that go through with an answer are bounded if and only if the
      search has an iteration limit, or its node limit leaves room for the root only. */
  lemma MustEndIff(cfg: Config)
    ensures MustEnd(cfg) <==> cfg.maxIterations > 0 || NodeLimit(cfg) <= 1
  {
    if cfg.maxIterations > 0 {
      LimitBounds(cfg);
    } else if NodeLimit(cfg) <= 1 {
      forall h | IsHistory(cfg, h) && !Terminal(h.states[|h.envs|])
        ensures GoodSteps(cfg, h, |h.envs|) <= 0
      {
        FullSearchHasNone(cfg, h, |h.envs|);
      }
      assert BoundedBy(cfg, 0);
    } else if MustEnd(cfg) {
      var bound: nat :| BoundedBy(cfg, bound);
      var h := GoesOnForever(cfg, bound);
      assert false;
    }
  }

  lemma LimitBounds(cfg: Config)
    requires cfg.maxIterations > 0
    ensures MustEnd(cfg)
  {
    var bound: nat := cfg.maxIterations * (2 * MaxNodesCap + 1) + 2;
    forall h | IsHistory(cfg, h) && !Terminal(h.states[|h.envs|])
      ensures GoodSteps(cfg, h, |h.envs|) <= bound
    {
      GoodStepsBounded(cfg, h);
    }
    assert BoundedBy(cfg, bound);
  }

  lemma {:induction false} NoneWasBad(cfg: Config, h: History, n: nat)
    requires n <= |h.envs| < |h.states|
    ensures GoodSteps(cfg, h, n) <= n
    ensures GoodSteps(cfg, h, n) == n ==> forall k | 0 <= k < n :: GoodAt(cfg, h, k)
  {
    if n > 0 {
      NoneWasBad(cfg, h, n - 1);
    }
  }

  ghost predicate AllGood(cfg: Config, h: History)
    requires |h.envs| < |h.states|
  {
    forall k | 0 <= k < |h.envs| :: GoodAt(cfg, h, k)
  }

  /** After that many good reconciles and nothing else, the search is over. */
  ghost predicate EndsAfter(cfg: Config, bound: nat) {
    forall h | IsHistory(cfg, h) && AllGood(cfg, h) && |h.envs| > bound :: Terminal(h.states[|h.envs|])
  }

  /** A search of which every reconcile goes through with an answer ends in a bounded time under exactly the
      same condition. */
  lemma SearchEndsIff(cfg: Config)
    ensures (exists bound: nat :: EndsAfter(cfg, bound)) <==> cfg.maxIterations > 0 || NodeLimit(cfg) <= 1
  {
    MustEndIff(cfg);
    if MustEnd(cfg) {
      var bound: nat :| BoundedBy(cfg, bound);
      forall h | IsHistory(cfg, h) && AllGood(cfg, h) && |h.envs| > bound
        ensures Terminal(h.states[|h.envs|])
      {
        AllGoodCount(cfg, h, |h.envs|);
      }
      assert EndsAfter(cfg, bound);
    } else if bound: nat :| EndsAfter(cfg, bound) {
      var h := GoesOnForever(cfg, bound);
      NoneWasBad(cfg, h, |h.envs|);
      assert AllGood(cfg, h);
      assert false;
    }
  }
}
