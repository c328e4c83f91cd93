/** Properties of whole search runs: any number of reconciles, whatever the outside answers. */
module SearchRuns {
  import opened Options
  import opened SearchSpec
  import opened SearchStages
  import opened SearchInvariants

  /** A run so far: step k leads from states[k] to states[k + 1]. */
  datatype History = History(states: seq<Run>, envs: seq<Env>, fxs: seq<Effects>)

  ghost predicate StepsAt(cfg: Config, h: History, k: nat)
    requires k < |h.envs| == |h.fxs| == |h.states| - 1
  {
    Step(cfg, h.states[k], h.envs[k], h.states[k + 1], h.fxs[k])
  }

  ghost predicate IsHistory(cfg: Config, h: History) {
    && |h.states| == |h.envs| + 1 == |h.fxs| + 1
    && h.states[0] == NewRun()
    && (forall k | 0 <= k < |h.envs| :: StepsAt(cfg, h, k))
  }

  function Prefix(h: History, k: nat): History
    requires k < |h.states| && |h.envs| == |h.fxs| == |h.states| - 1
  {
    History(h.states[..k + 1], h.envs[..k], h.fxs[..k])
  }

  lemma PrefixIsHistory(cfg: Config, h: History, k: nat)
    requires IsHistory(cfg, h) && k < |h.states|
    ensures IsHistory(cfg, Prefix(h, k))
  {
    var p := Prefix(h, k);
    forall j | 0 <= j < k
      ensures StepsAt(cfg, p, j)
    {
      assert StepsAt(cfg, h, j);
    }
  }

  function NodesAt(cfg: Config, h: History, k: nat): seq<Node>
    requires k < |h.states|
  {
    Current(cfg, h.states[k]).nodes
  }

  /** Every persisted state satisfies the invariant: tree shape, node, depth and beam bounds,
      task ids exactly on Running nodes, no more of those than maxParallel. */
  lemma {:induction false} ReachableInv(cfg: Config, h: History, k: nat)
    requires IsHistory(cfg, h) && k < |h.states|
    ensures Inv(cfg, h.states[k])
  {
    if k == 0 {
    } else {
      ReachableInv(cfg, h, k - 1);
      assert StepsAt(cfg, h, k - 1);
      StepKeepsInv(cfg, h.states[k - 1], h.envs[k - 1], h.states[k], h.fxs[k - 1]);
    }
  }

  lemma StepAt(cfg: Config, h: History, k: nat)
    requires IsHistory(cfg, h) && k < |h.envs|
    ensures Inv(cfg, h.states[k]) && Inv(cfg, h.states[k + 1]) && Moves(cfg, h.states[k], h.states[k + 1], h.fxs[k])
  {
    ReachableInv(cfg, h, k);
    assert StepsAt(cfg, h, k);
    StepKeepsInv(cfg, h.states[k], h.envs[k], h.states[k + 1], h.fxs[k]);
  }

  lemma GrowsAt(cfg: Config, h: History, k: nat)
    requires IsHistory(cfg, h) && k < |h.envs|
    ensures Grows(NodesAt(cfg, h, k), NodesAt(cfg, h, k + 1))
  {
    StepAt(cfg, h, k);
  }

  /** Nodes are never removed, re-parented or moved, and no phase ever falls in rank. */
  lemma {:induction false} PhasesNeverFall(cfg: Config, h: History, j: nat, k: nat)
    requires IsHistory(cfg, h) && j <= k < |h.states|
    ensures Grows(NodesAt(cfg, h, j), NodesAt(cfg, h, k))
    decreases k - j
  {
    if j < k {
      GrowsAt(cfg, h, k - 1);
      PhasesNeverFall(cfg, h, j, k - 1);
      GrowsChain(NodesAt(cfg, h, j), NodesAt(cfg, h, k - 1), NodesAt(cfg, h, k));
    }
  }

  /* ---------- a timeout ---------- */

  function RunningTasks(nodes: seq<Node>): seq<string> {
    if nodes == [] then []
    else
      RunningTasks(nodes[..|nodes| - 1])
      + (if nodes[|nodes| - 1].phase == Running then [nodes[|nodes| - 1].taskID] else [])
  }

  lemma {:induction false} CancelsTheRunning(nodes: seq<Node>)
    requires AllHeld(nodes)
    ensures CancelList(nodes) == RunningTasks(nodes) && |RunningTasks(nodes)| == CountRunning(nodes)
  {
    if nodes != [] {
      CancelsTheRunning(nodes[..|nodes| - 1]);
    }
  }

  /** A timeout ends the run as failed, keeps the tree, and cancels exactly the tasks in flight; when its
      status write fails it has cancelled them all the same. */
  lemma TimeoutCancelsInFlight(cfg: Config, h: History, k: nat)
    requires IsHistory(cfg, h) && k < |h.envs| && h.envs[k].timedOut
    ensures h.states[k + 1].phase == RunFailed <==> !h.envs[k].updateFails
    ensures h.fxs[k].stored <==> !h.envs[k].updateFails
    ensures NodesAt(cfg, h, k + 1) == NodesAt(cfg, h, k)
    ensures h.fxs[k].cancelled == RunningTasks(NodesAt(cfg, h, k)) && h.fxs[k].submitted == []
    ensures |h.fxs[k].cancelled| == CountRunning(NodesAt(cfg, h, k)) <= MaxParallel(cfg)
  {
    ReachableInv(cfg, h, k);
    assert StepsAt(cfg, h, k);
    CancelsTheRunning(NodesAt(cfg, h, k));
  }

  /* ---------- termination ---------- */

  /** Bounds the reconciles that can still change a search that goes on. */
  function Potential(cfg: Config, s: Run): int {
    var t := Current(cfg, s);
    (cfg.maxIterations - t.iterations) * (2 * MaxNodesCap + 1) + TotalWeight(t.nodes)
  }

  lemma ChangeLowersPotential(cfg: Config, s: Run, e: Env, s': Run, fx: Effects)
    requires cfg.maxIterations > 0 && Inv(cfg, s) && Step(cfg, s, e, s', fx) && !Terminal(s') && s' != s
    ensures 0 <= Potential(cfg, s') < Potential(cfg, s)
  {
    StepKeepsInv(cfg, s, e, s', fx);
    StepProgress(cfg, s, e, s', fx);
    var t, t' := Current(cfg, s), Current(cfg, s');
    TotalWeightFalls(t'.nodes, t'.nodes);
    var left := cfg.maxIterations - t'.iterations;
    assert t'.iterations == t.iterations + 1 ==> Potential(cfg, s) == (left + 1) * (2 * MaxNodesCap + 1) + TotalWeight(t.nodes);
  }

  function Changes(states: seq<Run>): nat {
    if |states| <= 1 then 0
    else Changes(states[..|states| - 1]) + (if states[|states| - 1] != states[|states| - 2] then 1 else 0)
  }

  /** With an iteration limit, only a bounded number of reconciles of a run change it. */
  lemma {:induction false} ChangesBounded(cfg: Config, h: History)
    requires IsHistory(cfg, h) && cfg.maxIterations > 0
    ensures var last := h.states[|h.states| - 1];
            if Terminal(last) then Changes(h.states) <= Potential(cfg, NewRun()) + 1
            else 0 <= Potential(cfg, last) && Changes(h.states) + Potential(cfg, last) <= Potential(cfg, NewRun())
    decreases |h.states|
  {
    var n := |h.envs|;
    if n == 0 {
      assert Potential(cfg, NewRun()) >= 0;
    } else {
      PrefixIsHistory(cfg, h, n - 1);
      ChangesBounded(cfg, Prefix(h, n - 1));
      ReachableInv(cfg, h, n - 1);
      assert StepsAt(cfg, h, n - 1);
      assert h.states[..n + 1] == h.states && h.states[..n][n - 1] == h.states[n - 1];
      if !Terminal(h.states[n]) && h.states[n] != h.states[n - 1] {
        ChangeLowersPotential(cfg, h.states[n - 1], h.envs[n - 1], h.states[n], h.fxs[n - 1]);
      }
    }
  }

  /** The queue can be opened and takes every submission, and the status write succeeds. */
  predicate Healthy(e: Env) {
    && !e.updateFails && !e.queueDown && !e.queueLost
    && |e.taskIDs| >= MaxNodesCap && forall i | 0 <= i < |e.taskIDs| :: e.taskIDs[i] != ""
  }

  /** If tasks are in flight, at least one of them is answered. */
  ghost predicate Responds(cfg: Config, s: Run, e: Env) {
    var nodes := Current(cfg, s).nodes;
    HasRunning(nodes) ==> exists i | 0 <= i < |nodes| :: Reaches(nodes, e.answers, i)
  }

  lemma {:induction false} QueueTakesAll(nodes: seq<Node>, i: nat, running: int, limit: int, taskIDs: seq<string>, done: seq<int>)
    requires i <= |nodes| <= |taskIDs| && forall j | 0 <= j < |taskIDs| :: taskIDs[j] != ""
    ensures SubmitFrom(nodes, i, running, limit, taskIDs, done).Submitted?
    decreases |nodes| - i
  {
    if i < |nodes| && running < limit {
      if nodes[i].phase != Pending {
        QueueTakesAll(nodes, i + 1, running, limit, taskIDs, done);
      } else {
        QueueTakesAll(nodes[i := nodes[i].(phase := Running, taskID := taskIDs[i])], i + 1, running + 1, limit,
                      taskIDs, done + [nodes[i].id]);
      }
    }
  }

  lemma HealthyOutcome(cfg: Config, s: Run, t: Tree, e: Env)
    requires Healthy(e) && Open(cfg, t)
    ensures Proceed(cfg, s, t, e).Persisted?
  {
    QueueTakesAll(t.nodes, 0, CountRunning(t.nodes), MaxParallel(cfg), e.taskIDs, []);
    SubmitAdvances(t.nodes, MaxParallel(cfg), e.taskIDs);
    var sub := Submit(t.nodes, MaxParallel(cfg), e.taskIDs);
    if Convergence(cfg, t).None? && !HasRunning(sub.nodes) {
      assert t.(nodes := sub.nodes) == t;
      HealthyPlan(cfg, s, t, e, sub.ids);
    }
  }

  lemma HealthyPlan(cfg: Config, s: Run, t: Tree, e: Env, ids: seq<int>)
    requires Healthy(e) && Open(cfg, t) && !HasRunning(t.nodes) && !HasPending(t.nodes)
    ensures Plan(cfg, s, t, e, ids).Persisted?
  {
    if e.planner.Actions? && AllProblems(e.planner.actions, t.nodes, cfg.hasEvaluator) == [] {
      ApplyKeeps(cfg, t, e.planner.actions, e.spare, e.growth);
      HealthyRound(cfg, s, ApplyActions(t, e.planner.actions, NodeLimit(cfg), e.spare, e.growth), e, ids);
    }
  }

  lemma HealthyRound(cfg: Config, s: Run, t: Tree, e: Env, ids: seq<int>)
    requires Healthy(e) && Sound(cfg, t)
    ensures AfterBatch(cfg, s, t, e, ids).Persisted?
  {
    var nodes := Truncate(t.nodes, MaxOutputBytes(cfg));
    QueueTakesAll(nodes, 0, CountRunning(nodes), MaxParallel(cfg), e.taskIDs, []);
  }

  /** A healthy reconcile that is not left waiting changes the run. */
  lemma ResponsiveStepChanges(cfg: Config, s: Run, e: Env, s': Run, fx: Effects)
    requires Inv(cfg, s) && Step(cfg, s, e, s', fx) && Healthy(e) && Responds(cfg, s, e)
    ensures s' != s
  {
    if !e.timedOut && !Terminal(s') {
      var t := Current(cfg, s);
      var beamed :| StepVia(cfg, s, e, s', fx, beamed);
      CollectAndPruneKeep(cfg, t, e, beamed);
      var t1 := t.(nodes := beamed);
      HealthyOutcome(cfg, s, t1, e);
      ProceedIsFine(cfg, s, t1, e);
    }
  }

  lemma NewRunPotential(cfg: Config)
    ensures Potential(cfg, NewRun()) == cfg.maxIterations * (2 * MaxNodesCap + 1) + 2
  {
    var root := InitTree(cfg.rootPrompt).nodes;
    assert TotalWeight(root[..0]) == 0;
  }

  /** A reconcile that goes through and, with tasks in flight, brings an answer. */
  ghost predicate GoodAt(cfg: Config, h: History, k: nat)
    requires k < |h.envs| < |h.states|
  {
    Healthy(h.envs[k]) && Responds(cfg, h.states[k], h.envs[k])
  }

  ghost function GoodSteps(cfg: Config, h: History, n: nat): nat
    requires n <= |h.envs| < |h.states|
  {
    if n == 0 then 0 else GoodSteps(cfg, h, n - 1) + (if GoodAt(cfg, h, n - 1) then 1 else 0)
  }

  lemma {:induction false} GoodStepsChange(cfg: Config, h: History, n: nat)
    requires IsHistory(cfg, h) && n <= |h.envs|
    ensures GoodSteps(cfg, h, n) <= Changes(h.states[..n + 1])
  {
    if n > 0 {
      GoodStepsChange(cfg, h, n - 1);
      assert h.states[..n + 1][..n] == h.states[..n];
      ReachableInv(cfg, h, n - 1);
      assert StepsAt(cfg, h, n - 1);
      if GoodAt(cfg, h, n - 1) {
        ResponsiveStepChanges(cfg, h.states[n - 1], h.envs[n - 1], h.states[n], h.fxs[n - 1]);
      }
    }
  }

  /** However slow the outside, and whatever fails in between: a search that still goes on has been through
      only so many reconciles that went through with an answer, and no search goes through one more than that. */
  lemma GoodStepsBounded(cfg: Config, h: History)
    requires IsHistory(cfg, h) && cfg.maxIterations > 0
    ensures !Terminal(h.states[|h.envs|]) ==>
              GoodSteps(cfg, h, |h.envs|) <= cfg.maxIterations * (2 * MaxNodesCap + 1) + 2
    ensures GoodSteps(cfg, h, |h.envs|) <= cfg.maxIterations * (2 * MaxNodesCap + 1) + 3
  {
    GoodStepsChange(cfg, h, |h.envs|);
    assert h.states[..|h.envs| + 1] == h.states;
    ChangesBounded(cfg, h);
    NewRunPotential(cfg);
  }

  lemma {:induction false} AllGoodCount(cfg: Config, h: History, n: nat)
    requires n <= |h.envs| < |h.states| && forall k | 0 <= k < n :: GoodAt(cfg, h, k)
    ensures GoodSteps(cfg, h, n) == n
  {
    if n > 0 {
      AllGoodCount(cfg, h, n - 1);
    }
  }

  /** So a search whose every reconcile goes through with an answer ends within that many. */
  lemma SearchTerminates(cfg: Config, h: History)
    requires IsHistory(cfg, h) && cfg.maxIterations > 0
    requires forall k | 0 <= k < |h.envs| :: GoodAt(cfg, h, k)
    ensures !Terminal(h.states[|h.envs|]) ==> |h.envs| <= cfg.maxIterations * (2 * MaxNodesCap + 1) + 2
  {
    AllGoodCount(cfg, h, |h.envs|);
    GoodStepsBounded(cfg, h);
  }

  /* ---------- answers find their node ---------- */

  ghost predicate DistinctTasks(nodes: seq<Node>) {
    forall i, j | 0 <= i < j < |nodes| && nodes[i].phase == Running && nodes[j].phase == Running ::
      nodes[i].taskID != nodes[j].taskID
  }

  /** The queue never issues an id twice, nor one that is in use. */
  ghost predicate FreshIDs(e: Env, nodes: seq<Node>) {
    && (forall i, j | 0 <= i < j < |e.taskIDs| && e.taskIDs[i] != "" :: e.taskIDs[i] != e.taskIDs[j])
    && (forall i, j | 0 <= i < |e.taskIDs| && 0 <= j < |nodes| && e.taskIDs[i] != "" :: nodes[j].taskID != e.taskIDs[i])
  }

  /** Every Running node of b ran in a with the same task, or has the id issued for it. */
  ghost predicate Issued(a: seq<Node>, b: seq<Node>, taskIDs: seq<string>) {
    forall i | 0 <= i < |b| && b[i].phase == Running ::
      (i < |a| && a[i].phase == Running && a[i].taskID == b[i].taskID)
      || (i < |taskIDs| && b[i].taskID == taskIDs[i] && taskIDs[i] != "")
  }

  lemma {:induction false} SubmitIssues(start: seq<Node>, nodes: seq<Node>, i: nat, running: int, limit: int,
                                        taskIDs: seq<string>, done: seq<int>)
    requires i <= |nodes| && Issued(start, nodes, taskIDs)
    ensures var s := SubmitFrom(nodes, i, running, limit, taskIDs, done);
            s.Submitted? ==> Issued(start, s.nodes, taskIDs)
    decreases |nodes| - i
  {
    if i < |nodes| && running < limit {
      if nodes[i].phase != Pending {
        SubmitIssues(start, nodes, i + 1, running, limit, taskIDs, done);
      } else if TaskIDFor(taskIDs, i) != "" {
        SubmitIssues(start, nodes[i := nodes[i].(phase := Running, taskID := TaskIDFor(taskIDs, i))], i + 1, running + 1,
                     limit, taskIDs, done + [nodes[i].id]);
      }
    }
  }

  lemma IssuedIsDistinct(a: seq<Node>, b: seq<Node>, e: Env)
    requires DistinctTasks(a) && FreshIDs(e, a) && Issued(a, b, e.taskIDs)
    ensures DistinctTasks(b)
  {
  }

  ghost predicate OutcomeIssues(a: seq<Node>, o: Outcome, taskIDs: seq<string>) {
    o.Persisted? ==> o.run.tree.Some? && Issued(a, o.run.tree.value.nodes, taskIDs)
  }

  lemma ProceedIssues(cfg: Config, s: Run, a: seq<Node>, t: Tree, e: Env)
    requires Open(cfg, t) && Issued(a, t.nodes, e.taskIDs)
    ensures OutcomeIssues(a, Proceed(cfg, s, t, e), e.taskIDs)
  {
    SubmitIssues(a, t.nodes, 0, CountRunning(t.nodes), MaxParallel(cfg), e.taskIDs, []);
    SubmitAdvances(t.nodes, MaxParallel(cfg), e.taskIDs);
    var sub := Submit(t.nodes, MaxParallel(cfg), e.taskIDs);
    if Convergence(cfg, t).None? && sub.Submitted? && !HasRunning(sub.nodes) {
      assert t.(nodes := sub.nodes) == t;
      PlanIssues(cfg, s, a, t, e, sub.ids);
    }
  }

  lemma PlanIssues(cfg: Config, s: Run, a: seq<Node>, t: Tree, e: Env, ids: seq<int>)
    requires Open(cfg, t) && !HasRunning(t.nodes) && !HasPending(t.nodes)
    ensures OutcomeIssues(a, Plan(cfg, s, t, e, ids), e.taskIDs)
  {
    if e.planner.Actions? && AllProblems(e.planner.actions, t.nodes, cfg.hasEvaluator) == [] {
      ApplyKeeps(cfg, t, e.planner.actions, e.spare, e.growth);
      RoundIssues(cfg, s, a, ApplyActions(t, e.planner.actions, NodeLimit(cfg), e.spare, e.growth), e, ids);
    }
  }

  lemma RoundIssues(cfg: Config, s: Run, a: seq<Node>, t: Tree, e: Env, ids: seq<int>)
    requires !HasRunning(t.nodes)
    ensures OutcomeIssues(a, AfterBatch(cfg, s, t, e, ids), e.taskIDs)
  {
    var nodes := Truncate(t.nodes, MaxOutputBytes(cfg));
    assert Issued(a, nodes, e.taskIDs);
    SubmitIssues(a, nodes, 0, CountRunning(nodes), MaxParallel(cfg), e.taskIDs, []);
  }

  /** With a queue that never reuses ids, tasks in flight stay told apart along the whole run. */
  lemma {:induction false} TasksStayDistinct(cfg: Config, h: History, k: nat)
    requires IsHistory(cfg, h) && k < |h.states|
    requires forall j | 0 <= j < |h.envs| :: FreshIDs(h.envs[j], NodesAt(cfg, h, j))
    ensures DistinctTasks(NodesAt(cfg, h, k))
  {
    if k > 0 {
      TasksStayDistinct(cfg, h, k - 1);
      ReachableInv(cfg, h, k - 1);
      assert StepsAt(cfg, h, k - 1);
      StepKeepsDistinct(cfg, h.states[k - 1], h.envs[k - 1], h.states[k], h.fxs[k - 1]);
    }
  }

  lemma StepKeepsDistinct(cfg: Config, s: Run, e: Env, s': Run, fx: Effects)
    requires Inv(cfg, s) && Step(cfg, s, e, s', fx)
    requires FreshIDs(e, Current(cfg, s).nodes) && DistinctTasks(Current(cfg, s).nodes)
    ensures DistinctTasks(Current(cfg, s').nodes)
  {
    var t := Current(cfg, s);
    if !e.timedOut {
      var beamed :| StepVia(cfg, s, e, s', fx, beamed);
      CollectAndPruneKeep(cfg, t, e, beamed);
      CollectAndPruneRest(cfg, t.nodes, e, beamed);
      assert forall i | 0 <= i < |beamed| :: Rests(t.nodes[i], beamed[i]);
      ProceedIssues(cfg, s, t.nodes, t.(nodes := beamed), e);
    }
    IssuedIsDistinct(t.nodes, Current(cfg, s').nodes, e);
  }

  /** Then an answer goes to the node whose task it answers, and to no other. */
  lemma AnswerFindsItsNode(nodes: seq<Node>, i: nat, answers: seq<Answer>)
    requires AllHeld(nodes) && DistinctTasks(nodes) && i < |nodes| && nodes[i].phase == Running
    ensures Collect(Executor, nodes, answers)[i] != nodes[i]
        <==> exists k | 0 <= k < |answers| :: answers[k].taskID == nodes[i].taskID
  {
    CollectFinishes(nodes, answers);
    assert forall k | 0 <= k < |answers| && answers[k].taskID == nodes[i].taskID ::
        Owner(Executor, nodes, answers[k].taskID) == Some(i);
  }
}
