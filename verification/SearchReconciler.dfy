/** One reconcile of a search run, on a fetched copy of its status. */
module SearchReconciler {
  import opened Options
  import opened SearchSpec
  import opened SearchTrees

  method Finalize(s: Run, tree: SearchTree) returns (r: Run)
    ensures r == Finalized(s, tree.View())
  {
    var output := tree.ChooseOutput(s.output);
    r := Run(if tree.reason == Some(PlannerFailure) then RunFailed else RunSucceeded, Some(tree.View()), output);
  }

  /** Asks the planner and carries out what it says; ok is false when the reconcile must be retried. */
  method PlanAndApply(cfg: Config, s: Run, tree: SearchTree, e: Env, ids: seq<int>)
    returns (ok: bool, s': Run, fx: Effects)
    modifies tree
    ensures (if ok then Persisted(s', fx) else Aborted(fx)) == Plan(cfg, s, old(tree.View()), e, ids)
  {
    fx := Effects(ids, [], true, true);
    var failed := e.planner.PlannerError?;
    if !failed {
      var errs := tree.ValidateActions(e.planner.actions, cfg.hasEvaluator);
      failed := errs != [];
    }
    if failed {
      tree.reason := Some(PlannerFailure);
      s' := Finalize(s, tree);
      return true, s', fx;
    }
    NoProblemsMeansComplete(e.planner.actions, tree.nodes, cfg.hasEvaluator);
    var stopped := tree.ApplyBatch(e.planner.actions, NodeLimit(cfg), e.spare, e.growth);
    ok, s', fx := FinishRound(cfg, s, tree, e, ids);
  }

  /** After the planner's batch: ends the search, or submits the new nodes and counts the iteration. */
  method FinishRound(cfg: Config, s: Run, tree: SearchTree, e: Env, ids: seq<int>)
    returns (ok: bool, s': Run, fx: Effects)
    modifies tree
    ensures (if ok then Persisted(s', fx) else Aborted(fx)) == AfterBatch(cfg, s, old(tree.View()), e, ids)
  {
    fx := Effects(ids, [], true, true);
    var reason := tree.CheckConvergence(cfg);
    if reason.Some? {
      tree.reason := reason;
      s' := Finalize(s, tree);
      return true, s', fx;
    }
    tree.TruncateOutputs(MaxOutputBytes(cfg));
    if e.queueLost {
      return false, s, Effects(ids, [], true, false);
    }
    var submitted, more := tree.SubmitPending(MaxParallel(cfg), e.taskIDs);
    if !submitted {
      return false, s, Effects(ids + more, [], true, false);
    }
    tree.iterations := tree.iterations + 1;
    return true, Run(RunRunning, Some(tree.View()), s.output), Effects(ids + more, [], true, true);
  }

  /** From the first convergence check on. */
  method ProceedWith(cfg: Config, s: Run, tree: SearchTree, e: Env) returns (ok: bool, s': Run, fx: Effects)
    modifies tree
    ensures (if ok then Persisted(s', fx) else Aborted(fx)) == Proceed(cfg, s, old(tree.View()), e)
  {
    var reason := tree.CheckConvergence(cfg);
    if reason.Some? {
      tree.reason := reason;
      s' := Finalize(s, tree);
      return true, s', NoEffects;
    }
    if e.queueDown {
      return false, s, Effects([], [], false, false);
    }
    var submitted, ids := tree.SubmitPending(MaxParallel(cfg), e.taskIDs);
    if !submitted {
      return false, s, Effects(ids, [], false, false);
    }
    var running := tree.ContainsRunning();
    if running {
      return true, Run(RunRunning, Some(tree.View()), s.output), Effects(ids, [], false, true);
    }
    ok, s', fx := PlanAndApply(cfg, s, tree, e, ids);
  }

  /** Returns the persisted run after the reconcile, and what it did outside, persisted or not. */
  method Reconcile(cfg: Config, s: Run, e: Env) returns (s': Run, fx: Effects)
    requires !Terminal(s)
    ensures Step(cfg, s, e, s', fx)
  {
    var tree;
    if s.tree.Some? {
      tree := new SearchTree.Load(s.tree.value);
    } else {
      tree := new SearchTree.Init(cfg.rootPrompt);
    }
    var ok := true;
    ghost var beamed := tree.nodes;
    if e.timedOut {
      var cancelled := tree.CancelTasks();
      s', fx := Run(RunFailed, Some(tree.View()), s.output), Effects([], cancelled, false, true);
    } else {
      ghost var t := tree.View();
      tree.CollectResults(Executor, e.answers);
      if cfg.hasEvaluator {
        tree.CollectResults(Evaluator, e.evaluations);
      }
      ghost var gathered := tree.nodes;
      if cfg.strategy == BeamSearch {
        tree.BeamPrune(BeamWidth(cfg));
      }
      beamed := tree.nodes;
      assert Beamed(cfg, Gathered(cfg, t.nodes, e), beamed);
      assert tree.View() == t.(nodes := beamed);
      ok, s', fx := ProceedWith(cfg, s, tree, e);
    }
    var stored := ok && !e.updateFails;
    fx := fx.(stored := stored);
    if !stored {
      s' := s;
    }
    assert e.timedOut || StepVia(cfg, s, e, s', fx, beamed);
  }
}
