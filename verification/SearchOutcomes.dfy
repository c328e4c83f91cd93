/** What a search run's nodes and its end go back to: answers, the planner, and the first reason that applies. */
module SearchOutcomes {
  import opened Options
  import opened SearchSpec
  import opened SearchStages
  import opened SearchInvariants
  import opened SearchRuns

  /* ---------- texts and verdicts after the poll ---------- */

  /** y is x, or what truncation leaves of it. */
  predicate TextKept(max: int, x: string, y: string) {
    y == x || (0 < max < |x| && |y| == max + 12 && y[..max] == x[..max] && y[max..] == " [truncated]")
  }

  lemma TextKeptTwice(max: int, x: string, y: string, z: string)
    requires TextKept(max, x, y) && TextKept(max, y, z)
    ensures TextKept(max, x, z)
  {
  }

  lemma ClipKeeps(max: nat, x: string)
    requires max > 0
    ensures TextKept(max, x, Clip(x, max)) && |Clip(x, max)| <= max + 12
  {
  }

  predicate IsVerdict(p: Phase) {
    p == Scored || p == EvalFailed
  }

  /** m has n's texts, perhaps truncated, and a verdict only if it is n's. */
  predicate Carried(max: int, n: Node, m: Node) {
    TextKept(max, n.task, m.task) && TextKept(max, n.output, m.output) && (IsVerdict(m.phase) ==> n.phase == m.phase)
  }

  ghost predicate AllCarried(max: int, a: seq<Node>, b: seq<Node>) {
    && |a| <= |b|
    && (forall i | 0 <= i < |a| :: Carried(max, a[i], b[i]))
    && (forall i | |a| <= i < |b| :: !IsVerdict(b[i].phase))
  }

  lemma CarriedTwice(max: int, a: seq<Node>, b: seq<Node>, c: seq<Node>)
    requires AllCarried(max, a, b) && AllCarried(max, b, c)
    ensures AllCarried(max, a, c)
  {
    forall i | 0 <= i < |a|
      ensures Carried(max, a[i], c[i])
    {
      assert Carried(max, a[i], b[i]) && Carried(max, b[i], c[i]);
      TextKeptTwice(max, a[i].task, b[i].task, c[i].task);
      TextKeptTwice(max, a[i].output, b[i].output, c[i].output);
    }
    forall i | |a| <= i < |c|
      ensures !IsVerdict(c[i].phase)
    {
      assert i < |b| ==> Carried(max, b[i], c[i]);
    }
  }

  lemma TruncateCarries(nodes: seq<Node>, max: int)
    ensures AllCarried(max, nodes, Truncate(nodes, max))
  {
    forall i | 0 <= i < |nodes|
      ensures Carried(max, nodes[i], Truncate(nodes, max)[i])
    {
      if max > 0 {
        ClipKeeps(max, nodes[i].task);
        ClipKeeps(max, nodes[i].output);
      }
    }
  }

  lemma LaunchesCarry(max: int, a: seq<Node>, b: seq<Node>, ids: seq<int>)
    requires Launches(a, b, ids)
    ensures AllCarried(max, a, b)
  {
  }

  lemma BeamCarries(cfg: Config, max: int, a: seq<Node>, b: seq<Node>)
    requires Beamed(cfg, a, b) && AllHeld(a)
    ensures AllCarried(max, a, b)
  {
    BeamAdvances(cfg, a, b);
  }

  ghost predicate OutcomeCarries(max: int, a: seq<Node>, o: Outcome) {
    o.Persisted? ==> o.run.tree.Some? && AllCarried(max, a, o.run.tree.value.nodes)
  }

  lemma RoundCarries(cfg: Config, s: Run, t: Tree, e: Env, ids: seq<int>)
    requires Sound(cfg, t)
    ensures OutcomeCarries(MaxOutputBytes(cfg), t.nodes, AfterBatch(cfg, s, t, e, ids))
  {
    var max := MaxOutputBytes(cfg);
    var nodes := Truncate(t.nodes, max);
    TruncateCarries(t.nodes, max);
    TruncateAdvances(t.nodes, max);
    SubmitAdvances(nodes, MaxParallel(cfg), e.taskIDs);
    var sub := Submit(nodes, MaxParallel(cfg), e.taskIDs);
    if sub.Submitted? {
      LaunchesCarry(max, nodes, sub.nodes, sub.ids);
      CarriedTwice(max, t.nodes, nodes, sub.nodes);
    }
  }

  lemma PlanCarries(cfg: Config, s: Run, t: Tree, e: Env, ids: seq<int>)
    requires Open(cfg, t) && !HasRunning(t.nodes) && !HasPending(t.nodes)
    ensures OutcomeCarries(MaxOutputBytes(cfg), t.nodes, Plan(cfg, s, t, e, ids))
  {
    if e.planner.Actions? && AllProblems(e.planner.actions, t.nodes, cfg.hasEvaluator) == [] {
      BatchCarries(cfg, t, e, e.planner.actions);
      var t1 := ApplyActions(t, e.planner.actions, NodeLimit(cfg), e.spare, e.growth);
      RoundCarries(cfg, s, t1, e, ids);
      OutcomeCarriesBack(MaxOutputBytes(cfg), t.nodes, t1.nodes, AfterBatch(cfg, s, t1, e, ids));
      assert Plan(cfg, s, t, e, ids) == AfterBatch(cfg, s, t1, e, ids);
    }
  }

  lemma BatchCarries(cfg: Config, t: Tree, e: Env, actions: seq<Action>)
    requires Open(cfg, t) && !HasRunning(t.nodes) && !HasPending(t.nodes)
    requires AllProblems(actions, t.nodes, cfg.hasEvaluator) == []
    ensures forall a | a in actions :: Complete(a)
    ensures var t1 := ApplyActions(t, actions, NodeLimit(cfg), e.spare, e.growth);
            Sound(cfg, t1) && AllCarried(MaxOutputBytes(cfg), t.nodes, t1.nodes)
  {
    ApplyKeeps(cfg, t, actions, e.spare, e.growth);
    ApplyAdvances(t, actions, cfg.hasEvaluator, NodeLimit(cfg), e.spare, e.growth);
    ExtendsCarries(MaxOutputBytes(cfg), t.nodes, ApplyActions(t, actions, NodeLimit(cfg), e.spare, e.growth).nodes);
  }

  lemma ExtendsCarries(max: int, a: seq<Node>, b: seq<Node>)
    requires Extends(a, b)
    ensures AllCarried(max, a, b)
  {
  }

  lemma OutcomeCarriesBack(max: int, a: seq<Node>, b: seq<Node>, o: Outcome)
    requires AllCarried(max, a, b) && OutcomeCarries(max, b, o)
    ensures OutcomeCarries(max, a, o)
  {
    if o.Persisted? {
      CarriedTwice(max, a, b, o.run.tree.value.nodes);
    }
  }

  lemma ProceedCarries(cfg: Config, s: Run, t: Tree, e: Env)
    requires Open(cfg, t)
    ensures OutcomeCarries(MaxOutputBytes(cfg), t.nodes, Proceed(cfg, s, t, e))
  {
    SubmitAdvances(t.nodes, MaxParallel(cfg), e.taskIDs);
    var sub := Submit(t.nodes, MaxParallel(cfg), e.taskIDs);
    if Convergence(cfg, t).None? && sub.Submitted? {
      LaunchesCarry(MaxOutputBytes(cfg), t.nodes, sub.nodes, sub.ids);
      if !HasRunning(sub.nodes) {
        assert t.(nodes := sub.nodes) == t;
        PlanCarries(cfg, s, t, e, sub.ids);
      }
    }
  }

  /** After the poll, a persisted reconcile keeps texts but for truncation and gives no verdict. */
  lemma StepCarries(cfg: Config, s: Run, e: Env, s': Run, fx: Effects)
    requires Inv(cfg, s) && Step(cfg, s, e, s', fx) && fx.stored && !e.timedOut
    ensures AllCarried(MaxOutputBytes(cfg), Collect(Executor, Current(cfg, s).nodes, e.answers), Current(cfg, s').nodes)
  {
    var t, max := Current(cfg, s), MaxOutputBytes(cfg);
    var beamed :| StepVia(cfg, s, e, s', fx, beamed);
    GatheringAdvances(cfg, t.nodes, e);
    BeamCarries(cfg, max, Gathered(cfg, t.nodes, e), beamed);
    CollectAndPruneKeep(cfg, t, e, beamed);
    ProceedCarries(cfg, s, t.(nodes := beamed), e);
    CarriedTwice(max, Collect(Executor, t.nodes, e.answers), beamed, Current(cfg, s').nodes);
  }

  /* ---------- verdicts come from answers ---------- */

  /** The last answer for node i gives m its verdict, failed for an error and scored otherwise, and its output,
      the error or the task's output, perhaps truncated. */
  ghost predicate AnswerGives(max: int, nodes: seq<Node>, answers: seq<Answer>, i: nat, m: Node) {
    exists n: nat ::
      && LastFor(Executor, nodes, answers, n, i)
      && (m.phase == EvalFailed <==> answers[n].error != "")
      && TextKept(max, if m.phase == EvalFailed then answers[n].error else answers[n].output, m.output)
  }

  /** A persisted reconcile brought that answer. */
  ghost predicate VerdictAt(cfg: Config, h: History, j: nat, i: nat, m: Node)
    requires IsHistory(cfg, h)
  {
    && j < |h.fxs| && h.fxs[j].stored && !h.envs[j].timedOut
    && AnswerGives(MaxOutputBytes(cfg), NodesAt(cfg, h, j), h.envs[j].answers, i, m)
  }

  lemma {:induction false} SomeLast(q: Queue, nodes: seq<Node>, answers: seq<Answer>, i: nat) returns (k: nat)
    requires !NoneFor(q, nodes, answers, i)
    ensures LastFor(q, nodes, answers, k, i)
  {
    var n := |answers| - 1;
    if IsFor(q, nodes, answers[n], i) {
      k := n;
    } else {
      var shorter := answers[..n];
      assert forall l | 0 <= l < n :: shorter[l] == answers[l];
      k := SomeLast(q, nodes, shorter, i);
      assert forall l | k < l < n :: !IsFor(q, nodes, shorter[l], i);
    }
  }


  lemma StepVerdict(cfg: Config, s: Run, e: Env, s': Run, fx: Effects, i: nat)
    requires Inv(cfg, s) && Step(cfg, s, e, s', fx) && fx.stored && !e.timedOut
    requires i < |Current(cfg, s').nodes| && IsVerdict(Current(cfg, s').nodes[i].phase)
    ensures var nodes, m := Current(cfg, s).nodes, Current(cfg, s').nodes[i];
            || AnswerGives(MaxOutputBytes(cfg), nodes, e.answers, i, m)
            || (i < |nodes| && Carried(MaxOutputBytes(cfg), nodes[i], m))
  {
    var nodes, m := Current(cfg, s).nodes, Current(cfg, s').nodes[i];
    var r := Collect(Executor, nodes, e.answers);
    StepCarries(cfg, s, e, s', fx);
    assert i < |r| && Carried(MaxOutputBytes(cfg), r[i], m);
    CollectSettles(Executor, nodes, e.answers, i);
    if !NoneFor(Executor, nodes, e.answers, i) {
      var n := SomeLast(Executor, nodes, e.answers, i);
      assert SettledBy(Executor, e.answers[n], nodes[i], r[i]);
    }
  }

  lemma CarriedVerdict(max: int, nodes: seq<Node>, answers: seq<Answer>, i: nat, n: Node, m: Node)
    requires AnswerGives(max, nodes, answers, i, n) && Carried(max, n, m) && IsVerdict(m.phase)
    ensures AnswerGives(max, nodes, answers, i, m)
  {
    var k: nat :| LastFor(Executor, nodes, answers, k, i) && (n.phase == EvalFailed <==> answers[k].error != "")
                  && TextKept(max, if n.phase == EvalFailed then answers[k].error else answers[k].output, n.output);
    TextKeptTwice(max, if n.phase == EvalFailed then answers[k].error else answers[k].output, n.output, m.output);
  }

  /** A stored node is Scored only if some persisted reconcile brought an answer without an error to the task it
      held, and EvalFailed only if one brought an error; its output is that answer's text, perhaps truncated. */
  lemma {:induction false} VerdictsByAnswer(cfg: Config, h: History, k: nat, i: nat)
    requires IsHistory(cfg, h) && k < |h.states| && i < |NodesAt(cfg, h, k)| && IsVerdict(NodesAt(cfg, h, k)[i].phase)
    ensures var m := NodesAt(cfg, h, k)[i];
            exists j | 0 <= j < k :: VerdictAt(cfg, h, j, i, m)
  {
    if k > 0 {
      var n := k - 1;
      var nodes, m, max := NodesAt(cfg, h, n), NodesAt(cfg, h, k)[i], MaxOutputBytes(cfg);
      ReachableInv(cfg, h, n);
      assert StepsAt(cfg, h, n);
      if !h.fxs[n].stored || h.envs[n].timedOut {
        VerdictsByAnswer(cfg, h, n, i);
      } else {
        StepVerdict(cfg, h.states[n], h.envs[n], h.states[k], h.fxs[n], i);
        if AnswerGives(max, nodes, h.envs[n].answers, i, m) {
          assert VerdictAt(cfg, h, n, i, m);
        } else {
          VerdictsByAnswer(cfg, h, n, i);
          var j :| 0 <= j < n && VerdictAt(cfg, h, j, i, nodes[i]);
          CarriedVerdict(max, NodesAt(cfg, h, j), h.envs[j].answers, i, nodes[i], m);
          assert VerdictAt(cfg, h, j, i, m);
        }
      }
    }
  }

  /** A node's task never changes, but for being truncated to the limit, 4096 when not set; the root's is the prompt the search was given. */
  lemma {:induction false} TasksAreKept(cfg: Config, h: History, j: nat, k: nat, i: nat)
    requires IsHistory(cfg, h) && j <= k < |h.states| && i < |NodesAt(cfg, h, j)|
    ensures var max := if cfg.maxOutputBytes.Some? then cfg.maxOutputBytes.value else 4096;
            && i < |NodesAt(cfg, h, k)| && TextKept(max, NodesAt(cfg, h, j)[i].task, NodesAt(cfg, h, k)[i].task)
            && TextKept(max, cfg.rootPrompt, NodesAt(cfg, h, k)[0].task)
    decreases k
  {
    if k > 0 {
      var n := k - 1;
      ReachableInv(cfg, h, n);
      assert StepsAt(cfg, h, n);
      if j < k {
        TasksAreKept(cfg, h, j, n, i);
      }
      TasksAreKept(cfg, h, 0, n, 0);
      StepKeepsTask(cfg, h.states[n], h.envs[n], h.states[k], h.fxs[n], 0);
      TextKeptTwice(MaxOutputBytes(cfg), cfg.rootPrompt, NodesAt(cfg, h, n)[0].task, NodesAt(cfg, h, k)[0].task);
      if j < k {
        StepKeepsTask(cfg, h.states[n], h.envs[n], h.states[k], h.fxs[n], i);
        TextKeptTwice(MaxOutputBytes(cfg), NodesAt(cfg, h, j)[i].task, NodesAt(cfg, h, n)[i].task, NodesAt(cfg, h, k)[i].task);
      }
    }
  }

  lemma StepKeepsTask(cfg: Config, s: Run, e: Env, s': Run, fx: Effects, i: nat)
    requires Inv(cfg, s) && Step(cfg, s, e, s', fx) && i < |Current(cfg, s).nodes|
    ensures i < |Current(cfg, s').nodes|
    ensures TextKept(MaxOutputBytes(cfg), Current(cfg, s).nodes[i].task, Current(cfg, s').nodes[i].task)
  {
    if fx.stored && !e.timedOut {
      StepCarries(cfg, s, e, s', fx);
      CollectSettles(Executor, Current(cfg, s).nodes, e.answers, i);
    }
  }

  /* ---------- how a search ends ---------- */

  /** The reasons a search that goes on has been checked for, the last one but the iterations. */
  const Checked := 4

  /** What the end of a search leaves: its reason, the first that applies to the tree unless the planner failed,
      its phase, a solution that is a node, and the output that goes with it. */
  ghost predicate Concluded(cfg: Config, t: Tree, s: Run) {
    && s.tree == Some(t) && t.reason.Some?
    && (t.solution.Some? ==> 0 <= t.solution.value < |t.nodes|)
    && IsOutput(t, "", s.output)
    && (if t.reason == Some(PlannerFailure) then s.phase == RunFailed && t.solution.None?
        else s.phase == RunSucceeded && FirstToApply(cfg, t, t.reason))
  }

  ghost predicate GoesOn(cfg: Config, t: Tree, s: Run) {
    s.output == "" && s.tree == Some(t) && s.phase == RunRunning
    && forall j | 0 <= j < Checked :: !Applies(cfg, t, Reasons[j])
  }

  ghost predicate Decided(cfg: Config, s: Run) {
    s.tree.Some? && if Terminal(s) then Concluded(cfg, s.tree.value, s) else GoesOn(cfg, s.tree.value, s)
  }

  /** Neither the recorded reason nor the iterations bear on the other reasons. */
  lemma SameApplies(cfg: Config, t: Tree, u: Tree, j: nat)
    requires j < Checked && |u.nodes| == |t.nodes| && u.solution == t.solution
    requires forall i | 0 <= i < |t.nodes| ::
               u.nodes[i].scoreMillis == t.nodes[i].scoreMillis && u.nodes[i].depth == t.nodes[i].depth
               && (u.nodes[i].phase == Pruned <==> t.nodes[i].phase == Pruned)
    ensures Applies(cfg, t, Reasons[j]) <==> Applies(cfg, u, Reasons[j])
  {
  }

  lemma FinishConcludes(cfg: Config, s: Run, t: Tree, r: Reason)
    requires s.output == "" && (t.solution.Some? ==> 0 <= t.solution.value < |t.nodes|)
    requires if r == PlannerFailure then t.solution.None? else Convergence(cfg, t) == Some(r)
    ensures Decided(cfg, Finish(s, t, r))
  {
    var t' := t.(reason := Some(r));
    OutputIsChosen(t', s.output);
    ConvergenceIsFirst(cfg, t');
    assert r != PlannerFailure ==> Convergence(cfg, t') == Convergence(cfg, t);
  }

  lemma GoingOnIsDecided(cfg: Config, s: Run, t: Tree, u: Tree)
    requires s.output == "" && Convergence(cfg, t).None? && |u.nodes| == |t.nodes| && u.solution == t.solution
    requires forall i | 0 <= i < |t.nodes| ::
               u.nodes[i].scoreMillis == t.nodes[i].scoreMillis && u.nodes[i].depth == t.nodes[i].depth
               && (u.nodes[i].phase == Pruned <==> t.nodes[i].phase == Pruned)
    ensures Decided(cfg, Run(RunRunning, Some(u), s.output))
  {
    ConvergenceIsFirst(cfg, t);
    forall j | 0 <= j < Checked
      ensures !Applies(cfg, u, Reasons[j])
    {
      SameApplies(cfg, t, u, j);
    }
  }

  ghost predicate OutcomeDecided(cfg: Config, o: Outcome) {
    o.Persisted? ==> Decided(cfg, o.run)
  }

  /** The solution a batch leaves is one of the nodes it was validated against. */
  lemma {:induction false} BatchSolution(b: Batch, actions: seq<Action>, limit: int, growth: seq<nat>, size: nat)
    requires b.Valid() && forall a | a in actions :: Targets(a, size)
    ensures forall a | a in actions :: Complete(a)
    ensures var v := ApplyAll(b, actions, limit, growth).batch.solution;
            v == b.solution || (v.Some? && 0 <= v.value < size)
    decreases |actions|
  {
    if actions != [] {
      var n := |actions| - 1;
      assert actions[n] in actions;
      BatchSolution(b, actions[..n], limit, growth, size);
    }
  }

  lemma RoundDecides(cfg: Config, s: Run, t: Tree, e: Env, ids: seq<int>)
    requires Sound(cfg, t) && s.output == "" && (t.solution.Some? ==> 0 <= t.solution.value < |t.nodes|)
    ensures OutcomeDecided(cfg, AfterBatch(cfg, s, t, e, ids))
  {
    match Convergence(cfg, t)
    case Some(r) =>
      assert r != PlannerFailure;
      FinishConcludes(cfg, s, t, r);
    case None =>
      NextRoundDecides(cfg, s, t, e.taskIDs);
  }

  lemma NextRoundDecides(cfg: Config, s: Run, t: Tree, taskIDs: seq<string>)
    requires Sound(cfg, t) && s.output == "" && Convergence(cfg, t).None?
    ensures var sub := Submit(Truncate(t.nodes, MaxOutputBytes(cfg)), MaxParallel(cfg), taskIDs);
            sub.Submitted? ==>
              Decided(cfg, Run(RunRunning, Some(t.(nodes := sub.nodes, iterations := t.iterations + 1)), s.output))
  {
    var nodes := Truncate(t.nodes, MaxOutputBytes(cfg));
    TruncateAdvances(t.nodes, MaxOutputBytes(cfg));
    SubmitAdvances(nodes, MaxParallel(cfg), taskIDs);
    var sub := Submit(nodes, MaxParallel(cfg), taskIDs);
    if sub.Submitted? {
      GoingOnIsDecided(cfg, s, t, t.(nodes := sub.nodes, iterations := t.iterations + 1));
    }
  }

  lemma PlanDecides(cfg: Config, s: Run, t: Tree, e: Env, ids: seq<int>)
    requires Open(cfg, t) && !HasRunning(t.nodes) && !HasPending(t.nodes) && s.output == ""
    ensures OutcomeDecided(cfg, Plan(cfg, s, t, e, ids))
  {
    FinishConcludes(cfg, s, t, PlannerFailure);
    if e.planner.Actions? && AllProblems(e.planner.actions, t.nodes, cfg.hasEvaluator) == [] {
      var actions := e.planner.actions;
      ApplyKeeps(cfg, t, actions, e.spare, e.growth);
      ValidatedTargets(actions, t.nodes, cfg.hasEvaluator);
      BatchSolution(OpenBatch(t, e.spare), actions, BatchLimit(NodeLimit(cfg)), e.growth, |t.nodes|);
      RoundDecides(cfg, s, ApplyActions(t, actions, NodeLimit(cfg), e.spare, e.growth), e, ids);
    }
  }

  lemma ProceedDecides(cfg: Config, s: Run, t: Tree, e: Env)
    requires Open(cfg, t) && s.output == ""
    ensures OutcomeDecided(cfg, Proceed(cfg, s, t, e))
  {
    match Convergence(cfg, t)
    case Some(r) =>
      assert r != PlannerFailure;
      FinishConcludes(cfg, s, t, r);
    case None =>
      SubmitAdvances(t.nodes, MaxParallel(cfg), e.taskIDs);
      var sub := Submit(t.nodes, MaxParallel(cfg), e.taskIDs);
      if sub.Submitted? {
        GoingOnIsDecided(cfg, s, t, t.(nodes := sub.nodes));
        if !HasRunning(sub.nodes) {
          assert t.(nodes := sub.nodes) == t;
          PlanDecides(cfg, s, t, e, sub.ids);
        }
      }
  }

  lemma StepDecides(cfg: Config, s: Run, e: Env, s': Run, fx: Effects)
    requires Inv(cfg, s) && s.output == "" && Step(cfg, s, e, s', fx) && fx.stored && !e.timedOut
    ensures Decided(cfg, s')
  {
    var beamed :| StepVia(cfg, s, e, s', fx, beamed);
    CollectAndPruneKeep(cfg, Current(cfg, s), e, beamed);
    ProceedDecides(cfg, s, Current(cfg, s).(nodes := beamed), e);
  }

  /** Every stored state but the first: a search that goes on has no solution, no node that reaches the score or
      the depth limit, fewer nodes than the limit, and no output. One that has ended was timed out, and then has
      no reason, or records the first reason that applies to its tree, or that the planner failed; it has failed
      in the first case and the last. Its output is that of its solution, which is a node; without one, that of
      the first node with the highest score; and with no node scored, empty. */
  lemma {:induction false} StatesAreDecided(cfg: Config, h: History, k: nat)
    requires IsHistory(cfg, h) && k < |h.states|
    ensures var s := h.states[k];
            || s == NewRun()
            || Decided(cfg, s)
            || (s.phase == RunFailed && s.output == "" && s.tree.Some? && s.tree.value.reason.None?)
  {
    if k > 0 {
      var n := k - 1;
      StatesAreDecided(cfg, h, n);
      ReachableInv(cfg, h, n);
      assert StepsAt(cfg, h, n);
      assert h.states[n].output == "";
      if h.fxs[n].stored && !h.envs[n].timedOut {
        StepDecides(cfg, h.states[n], h.envs[n], h.states[k], h.fxs[n]);
      }
    }
  }

  /* ---------- when the planner has failed ---------- */

  ghost predicate BadPlan(cfg: Config, e: Env, nodes: seq<Node>) {
    e.planner.PlannerError? || exists a :: a in e.planner.actions && !Acceptable(a, nodes, cfg.hasEvaluator)
  }

  lemma GrownStaysBad(cfg: Config, e: Env, a: seq<Node>, b: seq<Node>)
    requires Grows(a, b) && BadPlan(cfg, e, b)
    ensures BadPlan(cfg, e, a)
  {
    if e.planner.Actions? {
      var x :| x in e.planner.actions && !Acceptable(x, b, cfg.hasEvaluator);
      forall id | HasNode(a, id)
        ensures HasNode(b, id)
      {
        var i :| 0 <= i < |a| && a[i].id == id;
        assert Advances(a[i], b[i]);
      }
    }
  }

  lemma PlanFailsIff(cfg: Config, s: Run, t: Tree, e: Env, ids: seq<int>)
    requires Open(cfg, t) && !HasRunning(t.nodes) && !HasPending(t.nodes)
    ensures var o := Plan(cfg, s, t, e, ids);
            o.Persisted? ==>
              && o.run.tree.Some?
              && (o.run.tree.value.reason == Some(PlannerFailure) <==> BadPlan(cfg, e, o.run.tree.value.nodes))
  {
    if e.planner.Actions? {
      AcceptedIff(e.planner.actions, t.nodes, cfg.hasEvaluator);
      if AllProblems(e.planner.actions, t.nodes, cfg.hasEvaluator) == [] {
        ApplyKeeps(cfg, t, e.planner.actions, e.spare, e.growth);
        RoundIsNoFailure(cfg, s, t, ApplyActions(t, e.planner.actions, NodeLimit(cfg), e.spare, e.growth), e, ids);
      }
    }
  }

  lemma RoundIsNoFailure(cfg: Config, s: Run, t: Tree, t1: Tree, e: Env, ids: seq<int>)
    requires Sound(cfg, t1) && Grows(t.nodes, t1.nodes) && t1.reason.None? && !BadPlan(cfg, e, t.nodes)
    ensures var o := AfterBatch(cfg, s, t1, e, ids);
            o.Persisted? ==> o.run.tree.Some? && o.run.tree.value.reason != Some(PlannerFailure)
                             && !BadPlan(cfg, e, o.run.tree.value.nodes)
  {
    var o := AfterBatch(cfg, s, t1, e, ids);
    var nodes := Truncate(t1.nodes, MaxOutputBytes(cfg));
    TruncateAdvances(t1.nodes, MaxOutputBytes(cfg));
    SubmitAdvances(nodes, MaxParallel(cfg), e.taskIDs);
    if o.Persisted? {
      GrowsChain(t.nodes, t1.nodes, nodes);
      if Convergence(cfg, t1).None? {
        GrowsChain(t.nodes, nodes, o.run.tree.value.nodes);
      }
      if BadPlan(cfg, e, o.run.tree.value.nodes) {
        GrownStaysBad(cfg, e, t.nodes, o.run.tree.value.nodes);
      }
    }
  }

  /** A persisted reconcile that asks the planner ends the search as a planner failure if and only if the planner
      fails or asks for something it may not ask for. */
  lemma PlannerFailsIff(cfg: Config, s: Run, e: Env, s': Run, fx: Effects)
    requires Inv(cfg, s) && Step(cfg, s, e, s', fx) && fx.stored && fx.planned
    ensures s'.tree.Some? && (s'.tree.value.reason == Some(PlannerFailure) <==> BadPlan(cfg, e, s'.tree.value.nodes))
  {
    var t := Current(cfg, s);
    var beamed :| StepVia(cfg, s, e, s', fx, beamed);
    CollectAndPruneKeep(cfg, t, e, beamed);
    var t1 := t.(nodes := beamed);
    SubmitAdvances(beamed, MaxParallel(cfg), e.taskIDs);
    var sub := Submit(beamed, MaxParallel(cfg), e.taskIDs);
    assert t1.(nodes := sub.nodes) == t1;
    PlanFailsIff(cfg, s, t1, e, sub.ids);
  }

  /** A search goes on only if the executor queue could be opened, and again after the planner was asked. */
  lemma GoesOnWithItsQueue(cfg: Config, s: Run, e: Env, s': Run, fx: Effects)
    requires Inv(cfg, s) && Step(cfg, s, e, s', fx) && fx.stored && !Terminal(s')
    ensures !e.timedOut && !e.queueDown && (fx.planned ==> !e.queueLost)
  {
    if !e.timedOut {
      var beamed :| StepVia(cfg, s, e, s', fx, beamed);
    }
  }

  /* ---------- which nodes are submitted ---------- */

  /** From i on the first Pending nodes are launched, each under the id the queue answered for it. */
  ghost predicate FirstGo(a: seq<Node>, b: seq<Node>, taskIDs: seq<string>, i: nat) {
    && |a| == |b|
    && (forall j | i <= j < |a| :: b[j] == a[j] || (j < |taskIDs| && b[j].taskID == taskIDs[j]))
    && (forall j, l | i <= j < l < |a| && a[j].phase == Pending && b[j] == a[j] :: b[l] == a[l])
  }

  lemma {:induction false} SubmitInOrder(nodes: seq<Node>, i: nat, running: int, limit: int, taskIDs: seq<string>, done: seq<int>)
    requires i <= |nodes|
    ensures match SubmitFrom(nodes, i, running, limit, taskIDs, done)
            case Submitted(r, _) => FirstGo(nodes, r, taskIDs, i) && forall j | 0 <= j < i :: |r| == |nodes| && r[j] == nodes[j]
            case QueueError(_) => exists j | 0 <= j < |nodes| :: nodes[j].phase == Pending && TaskIDFor(taskIDs, j) == ""
    decreases |nodes| - i
  {
    if i < |nodes| && running < limit {
      if nodes[i].phase != Pending {
        SubmitInOrder(nodes, i + 1, running, limit, taskIDs, done);
      } else if TaskIDFor(taskIDs, i) != "" {
        var next := nodes[i := nodes[i].(phase := Running, taskID := TaskIDFor(taskIDs, i))];
        SubmitInOrder(next, i + 1, running + 1, limit, taskIDs, done + [nodes[i].id]);
      }
    }
  }

  /** Pending nodes are launched in the order of the list, each under the id the queue answers for it; only a
      Pending node the queue refuses makes it an error. */
  lemma SubmitTakesTheFirst(nodes: seq<Node>, limit: int, taskIDs: seq<string>)
    ensures match Submit(nodes, limit, taskIDs)
            case Submitted(r, _) => FirstGo(nodes, r, taskIDs, 0)
            case QueueError(_) => exists j | 0 <= j < |nodes| :: nodes[j].phase == Pending && TaskIDFor(taskIDs, j) == ""
  {
    SubmitInOrder(nodes, 0, CountRunning(nodes), limit, taskIDs, []);
  }

  /* ---------- the limits in numbers ---------- */

  /** A beam search keeps 3 nodes a depth where nothing else is set, if there are so many. */
  lemma BeamKeepsItsWidth(cfg: Config, a: seq<Node>, b: seq<Node>, d: int)
    requires cfg.strategy == BeamSearch && Beamed(cfg, a, b)
    ensures |BeamAt(b, d)| == Min(if cfg.beamWidth <= 0 then 3 else cfg.beamWidth, |BeamAt(a, d)|)
  {
    assert BestKept(BeamWidth(cfg), a, b, d);
  }

  /** A search that goes on leaves a node Pending only if as many run as may, 3 where nothing else is set. */
  lemma LimitIsUsed(cfg: Config, s: Run, e: Env, s': Run, fx: Effects)
    requires Inv(cfg, s) && Step(cfg, s, e, s', fx) && fx.stored && !Terminal(s')
    ensures var nodes := Current(cfg, s').nodes;
            HasPending(nodes) ==> CountRunning(nodes) >= if cfg.maxParallel <= 0 then 3 else cfg.maxParallel
  {
    if !e.timedOut {
      var beamed :| StepVia(cfg, s, e, s', fx, beamed);
      CollectAndPruneKeep(cfg, Current(cfg, s), e, beamed);
      ProceedUsesLimit(cfg, s, Current(cfg, s).(nodes := beamed), e);
    }
  }

  ghost predicate UsesLimit(cfg: Config, o: Outcome) {
    o.Persisted? && !Terminal(o.run) ==>
      o.run.tree.Some?
      && (HasPending(o.run.tree.value.nodes) ==> CountRunning(o.run.tree.value.nodes) >= MaxParallel(cfg))
  }

  lemma SubmitUsesLimit(nodes: seq<Node>, limit: int, taskIDs: seq<string>)
    requires forall j | 0 <= j < |nodes| :: nodes[j].id == j
    ensures var sub := Submit(nodes, limit, taskIDs);
            sub.Submitted? && HasPending(sub.nodes) ==> CountRunning(sub.nodes) >= limit
  {
    SubmitLaunches(nodes, 0, CountRunning(nodes), limit, taskIDs, nodes, []);
  }

  lemma ProceedUsesLimit(cfg: Config, s: Run, t: Tree, e: Env)
    requires Open(cfg, t)
    ensures UsesLimit(cfg, Proceed(cfg, s, t, e))
  {
    SubmitUsesLimit(t.nodes, MaxParallel(cfg), e.taskIDs);
    SubmitAdvances(t.nodes, MaxParallel(cfg), e.taskIDs);
    var sub := Submit(t.nodes, MaxParallel(cfg), e.taskIDs);
    if Convergence(cfg, t).None? && sub.Submitted? && !HasRunning(sub.nodes) {
      assert t.(nodes := sub.nodes) == t;
      PlanUsesLimit(cfg, s, t, e, sub.ids);
    }
  }

  lemma PlanUsesLimit(cfg: Config, s: Run, t: Tree, e: Env, ids: seq<int>)
    requires Open(cfg, t) && !HasRunning(t.nodes) && !HasPending(t.nodes)
    ensures UsesLimit(cfg, Plan(cfg, s, t, e, ids))
  {
    if e.planner.Actions? && AllProblems(e.planner.actions, t.nodes, cfg.hasEvaluator) == [] {
      ApplyKeeps(cfg, t, e.planner.actions, e.spare, e.growth);
      var t1 := ApplyActions(t, e.planner.actions, NodeLimit(cfg), e.spare, e.growth);
      SubmitUsesLimit(Truncate(t1.nodes, MaxOutputBytes(cfg)), MaxParallel(cfg), e.taskIDs);
    }
  }

  /** The bounds in numbers: what is not set is 50 nodes, 3 tasks at a time and 3 scored nodes a depth, and
      never are there more than 200 nodes. */
  lemma DefaultBounds(cfg: Config, h: History, k: nat, d: int)
    requires IsHistory(cfg, h) && k < |h.states|
    ensures var nodes := NodesAt(cfg, h, k);
            && |nodes| <= 200 && |nodes| <= (if cfg.maxNodes <= 0 then 50 else cfg.maxNodes)
            && CountRunning(nodes) <= (if cfg.maxParallel <= 0 then 3 else cfg.maxParallel)
            && (cfg.strategy == BeamSearch ==> |BeamAt(nodes, d)| <= if cfg.beamWidth <= 0 then 3 else cfg.beamWidth)
  {
    ReachableInv(cfg, h, k);
  }

  /** After a planning round that goes on no text is longer than the limit, 4096 when not set, and the mark. */
  lemma RoundsTruncate(cfg: Config, s: Run, e: Env, s': Run, fx: Effects)
    requires Inv(cfg, s) && Step(cfg, s, e, s', fx) && fx.stored && fx.planned && !Terminal(s')
    ensures var max := if cfg.maxOutputBytes.Some? then cfg.maxOutputBytes.value else 4096;
            max > 0 ==> forall m | m in Current(cfg, s').nodes :: |m.task| <= max + 12 && |m.output| <= max + 12
  {
    var t := Current(cfg, s);
    var beamed :| StepVia(cfg, s, e, s', fx, beamed);
    CollectAndPruneKeep(cfg, t, e, beamed);
    var t1 := t.(nodes := beamed);
    SubmitAdvances(beamed, MaxParallel(cfg), e.taskIDs);
    var sub := Submit(beamed, MaxParallel(cfg), e.taskIDs);
    assert t1.(nodes := sub.nodes) == t1;
    PlanTruncates(cfg, s, t1, e, sub.ids);
  }

  ghost predicate ShortTexts(max: int, nodes: seq<Node>) {
    max > 0 ==> forall m | m in nodes :: |m.task| <= max + 12 && |m.output| <= max + 12
  }

  lemma PlanTruncates(cfg: Config, s: Run, t: Tree, e: Env, ids: seq<int>)
    requires Open(cfg, t) && !HasRunning(t.nodes) && !HasPending(t.nodes)
    ensures var o := Plan(cfg, s, t, e, ids);
            o.Persisted? && !Terminal(o.run) ==> o.run.tree.Some? && ShortTexts(MaxOutputBytes(cfg), o.run.tree.value.nodes)
  {
    if e.planner.Actions? && AllProblems(e.planner.actions, t.nodes, cfg.hasEvaluator) == [] {
      ApplyKeeps(cfg, t, e.planner.actions, e.spare, e.growth);
      RoundTruncates(cfg, s, ApplyActions(t, e.planner.actions, NodeLimit(cfg), e.spare, e.growth), e, ids);
    }
  }

  lemma RoundTruncates(cfg: Config, s: Run, t: Tree, e: Env, ids: seq<int>)
    requires Sound(cfg, t)
    ensures var o := AfterBatch(cfg, s, t, e, ids);
            o.Persisted? && !Terminal(o.run) ==> o.run.tree.Some? && ShortTexts(MaxOutputBytes(cfg), o.run.tree.value.nodes)
  {
    var max := MaxOutputBytes(cfg);
    var nodes := Truncate(t.nodes, max);
    TruncateAdvances(t.nodes, max);
    SubmitAdvances(nodes, MaxParallel(cfg), e.taskIDs);
    var sub := Submit(nodes, MaxParallel(cfg), e.taskIDs);
    TruncateShortens(t.nodes, max);
    if sub.Submitted? {
      LaunchesKeepTexts(max, nodes, sub.nodes, sub.ids);
    }
  }

  lemma TruncateShortens(nodes: seq<Node>, max: int)
    ensures ShortTexts(max, Truncate(nodes, max))
  {
    if max > 0 {
      forall m | m in Truncate(nodes, max)
        ensures |m.task| <= max + 12 && |m.output| <= max + 12
      {
        var i :| 0 <= i < |nodes| && Truncate(nodes, max)[i] == m;
        ClipKeeps(max, nodes[i].task);
        ClipKeeps(max, nodes[i].output);
      }
    }
  }

  lemma LaunchesKeepTexts(max: int, a: seq<Node>, b: seq<Node>, ids: seq<int>)
    requires Launches(a, b, ids) && ShortTexts(max, a)
    ensures ShortTexts(max, b)
  {
    if max > 0 {
      forall m | m in b
        ensures |m.task| <= max + 12 && |m.output| <= max + 12
      {
        var i :| 0 <= i < |b| && b[i] == m;
        assert a[i] in a;
      }
    }
  }
}
