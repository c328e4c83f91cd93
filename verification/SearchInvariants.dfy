/**
  What every reconcile of a search run keeps, and how far it gets: the shape and
  the bounds of the tree, task ids on Running nodes only, phases that never
  fall, ids submitted exactly when their nodes start running; and a measure that
  falls whenever the search goes on and something changed.
 */
module SearchInvariants {
  import opened Options
  import opened SearchSpec
  import opened SearchTrees
  import opened SearchStages

  ghost predicate TreeInv(cfg: Config, nodes: seq<Node>) {
    && Shape(nodes)
    && |nodes| <= BatchLimit(NodeLimit(cfg))
    && AllHeld(nodes)
    && CountRunning(nodes) <= MaxParallel(cfg)
    && (cfg.maxDepth > 0 ==> forall i | 0 <= i < |nodes| :: nodes[i].depth <= cfg.maxDepth)
    && BeamBounded(cfg, nodes)
  }

  /** Holds of the tree of every persisted run. */
  ghost predicate Sound(cfg: Config, t: Tree) {
    && TreeInv(cfg, t.nodes)
    && 0 <= t.iterations && (cfg.maxIterations > 0 ==> t.iterations <= cfg.maxIterations)
  }

  /** Holds in addition while the search goes on. */
  ghost predicate Open(cfg: Config, t: Tree) {
    && Sound(cfg, t)
    && t.solution.None? && t.reason.None?
    && (cfg.maxDepth > 0 ==> forall i | 0 <= i < |t.nodes| :: t.nodes[i].depth < cfg.maxDepth)
  }

  ghost predicate Inv(cfg: Config, s: Run) {
    && Sound(cfg, Current(cfg, s))
    && (!Terminal(s) ==> Open(cfg, Current(cfg, s)))
    && (if s.tree.None? then s == NewRun() else s.phase != RunPending)
  }

  /** ids names, in increasing order, exactly the nodes that were Pending, or not there, and are no longer
      Pending; they are Running. */
  ghost predicate SubmittedNow(a: seq<Node>, b: seq<Node>, ids: seq<int>) {
    && |a| <= |b|
    && (forall j, k | 0 <= j < k < |ids| :: ids[j] < ids[k])
    && (forall k | 0 <= k < |ids| ::
          0 <= ids[k] < |b| && b[ids[k]].phase == Running && (ids[k] < |a| ==> a[ids[k]].phase == Pending))
    && (forall i | 0 <= i < |b| && b[i].phase != Pending && (i < |a| ==> a[i].phase == Pending) :: i in ids)
  }

  /* ---------- stage by stage ---------- */

  /** m is n, or n came to rest: it is no longer in flight. */
  predicate Rests(n: Node, m: Node) {
    m == n || (Advances(n, m) && n.phase != Pending && Rank(m.phase) >= 2 && m.taskID == "")
  }

  lemma CollectAndPruneRest(cfg: Config, nodes: seq<Node>, e: Env, beamed: seq<Node>)
    requires AllHeld(nodes) && Beamed(cfg, Gathered(cfg, nodes, e), beamed)
    ensures |beamed| == |nodes| && forall i | 0 <= i < |nodes| :: Rests(nodes[i], beamed[i])
  {
    GatheringAdvances(cfg, nodes, e);
    BeamAdvances(cfg, Gathered(cfg, nodes, e), beamed);
  }

  lemma RestingKeeps(nodes: seq<Node>, r: seq<Node>)
    requires AllHeld(nodes) && Shape(nodes)
    requires |r| == |nodes| && forall i | 0 <= i < |nodes| :: Rests(nodes[i], r[i])
    ensures AllHeld(r) && Grows(nodes, r) && Shape(r)
    ensures TotalWeight(r) <= TotalWeight(nodes) && CountRunning(r) <= CountRunning(nodes)
  {
    TotalWeightFalls(nodes, r);
    RunningFalls(nodes, r);
    ShapeKept(nodes, r);
  }

  lemma PrunedBeamIsBounded(cfg: Config, a: seq<Node>, b: seq<Node>)
    requires Beamed(cfg, a, b)
    ensures BeamBounded(cfg, b)
    ensures BeamBounded(cfg, a) ==> b == a
  {
    if cfg.strategy == BeamSearch {
      BeamKeepsTheBest(cfg, a, b);
      BeamPruneIdempotent(BeamWidth(cfg), a, b);
    }
  }

  /** A tree that is not left alone has fewer nodes in flight; an answer for one of them sees to that. */
  lemma CollectingIsProgress(cfg: Config, nodes: seq<Node>, e: Env, beamed: seq<Node>)
    requires AllHeld(nodes) && BeamBounded(cfg, nodes) && Beamed(cfg, Gathered(cfg, nodes, e), beamed)
    ensures beamed != nodes ==> TotalWeight(beamed) < TotalWeight(nodes)
    ensures (exists i | 0 <= i < |nodes| :: Reaches(nodes, e.answers, i)) ==> beamed != nodes
  {
    var gathered := Gathered(cfg, nodes, e);
    GatheringAdvances(cfg, nodes, e);
    GatheringFinishes(nodes, gathered);
    PrunedBeamIsBounded(cfg, gathered, beamed);
    BeamAdvances(cfg, gathered, beamed);
    CollectFinishes(nodes, e.answers);
    if i :| 0 <= i < |nodes| && Reaches(nodes, e.answers, i) {
      assert Finished(nodes[i], gathered[i]);
    }
  }

  lemma CollectAndPruneKeep(cfg: Config, t: Tree, e: Env, beamed: seq<Node>)
    requires Open(cfg, t) && Beamed(cfg, Gathered(cfg, t.nodes, e), beamed)
    ensures Open(cfg, t.(nodes := beamed)) && |beamed| == |t.nodes| && Grows(t.nodes, beamed)
    ensures TotalWeight(beamed) <= TotalWeight(t.nodes)
    ensures beamed != t.nodes ==> TotalWeight(beamed) < TotalWeight(t.nodes)
    ensures (exists i | 0 <= i < |t.nodes| :: Reaches(t.nodes, e.answers, i)) ==> beamed != t.nodes
    ensures forall i | 0 <= i < |beamed| :: beamed[i].phase == Pending <==> t.nodes[i].phase == Pending
  {
    CollectAndPruneRest(cfg, t.nodes, e, beamed);
    RestingKeeps(t.nodes, beamed);
    PrunedBeamIsBounded(cfg, Gathered(cfg, t.nodes, e), beamed);
    CollectingIsProgress(cfg, t.nodes, e, beamed);
    assert forall i | 0 <= i < |beamed| :: Rests(t.nodes[i], beamed[i]);
  }

  lemma SubmitKeeps(cfg: Config, t: Tree, taskIDs: seq<string>)
    requires Sound(cfg, t)
    ensures var s := Submit(t.nodes, MaxParallel(cfg), taskIDs);
            s.Submitted? ==>
              && Sound(cfg, t.(nodes := s.nodes)) && (Open(cfg, t) ==> Open(cfg, t.(nodes := s.nodes)))
              && |s.nodes| == |t.nodes| && Grows(t.nodes, s.nodes)
  {
    SubmitAdvances(t.nodes, MaxParallel(cfg), taskIDs);
    var s := Submit(t.nodes, MaxParallel(cfg), taskIDs);
    if s.Submitted? {
      ShapeKept(t.nodes, s.nodes);
      assert forall i | 0 <= i < |t.nodes| :: Advances(t.nodes[i], s.nodes[i]);
      forall d
        ensures BeamAt(s.nodes, d) == BeamAt(t.nodes, d)
      {
      }
    }
  }

  /** Of b's nodes just those are Pending that a does not have. */
  ghost predicate OnlyNewPending(a: seq<Node>, b: seq<Node>) {
    && |a| <= |b| && (forall i | 0 <= i < |a| :: b[i].phase != Pending && a[i].phase != Pending)
    && (forall i | |a| <= i < |b| :: b[i].phase == Pending)
  }

  lemma ApplyKeeps(cfg: Config, t: Tree, actions: seq<Action>, spare: nat, growth: seq<nat>)
    requires Open(cfg, t) && !HasRunning(t.nodes) && !HasPending(t.nodes)
    requires AllProblems(actions, t.nodes, cfg.hasEvaluator) == []
    ensures forall a | a in actions :: Complete(a)
    ensures var r := ApplyActions(t, actions, NodeLimit(cfg), spare, growth);
            && Sound(cfg, r) && r == t.(nodes := r.nodes, solution := r.solution)
            && Grows(t.nodes, r.nodes) && !HasRunning(r.nodes)
            && (Convergence(cfg, r).None? ==> Open(cfg, r))
            && OnlyNewPending(t.nodes, r.nodes)
  {
    ApplyAdvances(t, actions, cfg.hasEvaluator, NodeLimit(cfg), spare, growth);
    ExtensionKeeps(cfg, t, ApplyActions(t, actions, NodeLimit(cfg), spare, growth));
  }

  lemma ExtensionKeeps(cfg: Config, t: Tree, r: Tree)
    requires Open(cfg, t) && !HasRunning(t.nodes) && !HasPending(t.nodes)
    requires r == t.(nodes := r.nodes, solution := r.solution)
    requires Extends(t.nodes, r.nodes) && |r.nodes| <= Max(|t.nodes|, BatchLimit(NodeLimit(cfg)))
    ensures Sound(cfg, r) && Grows(t.nodes, r.nodes) && !HasRunning(r.nodes)
    ensures Convergence(cfg, r).None? ==> Open(cfg, r)
    ensures OnlyNewPending(t.nodes, r.nodes)
  {
    ExtendsKeepsShape(t.nodes, r.nodes);
    ExtendsKeepsBeam(t.nodes, r.nodes);
    NoneRunning(r.nodes);
    ExtendedDepth(cfg, t.nodes, r);
  }

  /** A batch adds at most one level, and when that reaches the depth limit the search converges. */
  lemma ExtendedDepth(cfg: Config, start: seq<Node>, t: Tree)
    requires Extends(start, t.nodes)
    requires cfg.maxDepth > 0 ==> forall i | 0 <= i < |start| :: start[i].depth < cfg.maxDepth
    ensures cfg.maxDepth > 0 ==> forall i | 0 <= i < |t.nodes| :: t.nodes[i].depth <= cfg.maxDepth
    ensures cfg.maxDepth > 0 && Convergence(cfg, t).None? ==> forall i | 0 <= i < |t.nodes| :: t.nodes[i].depth < cfg.maxDepth
  {
    if Convergence(cfg, t).None? {
      assert forall i | 0 <= i < |t.nodes| :: !TooDeep(cfg, t.nodes[i]);
    }
  }

  lemma TruncateKeeps(cfg: Config, t: Tree, maxBytes: int)
    requires Open(cfg, t)
    ensures Open(cfg, t.(nodes := Truncate(t.nodes, maxBytes))) && Grows(t.nodes, Truncate(t.nodes, maxBytes))
    ensures forall i | 0 <= i < |t.nodes| :: Truncate(t.nodes, maxBytes)[i].phase == t.nodes[i].phase
  {
    var r := Truncate(t.nodes, maxBytes);
    TruncateAdvances(t.nodes, maxBytes);
    forall d
      ensures BeamAt(r, d) == BeamAt(t.nodes, d)
    {
      TruncateKeepsBeam(t.nodes, maxBytes, d);
    }
    ShapeKept(t.nodes, r);
    assert forall i | 0 <= i < |r| :: Advances(t.nodes[i], r[i]);
  }

  lemma GrowsChain(a: seq<Node>, b: seq<Node>, c: seq<Node>)
    requires Grows(a, b) && Grows(b, c)
    ensures Grows(a, c)
  {
    forall i | 0 <= i < |a|
      ensures Advances(a[i], c[i])
    {
      assert Advances(a[i], b[i]) && Advances(b[i], c[i]);
    }
  }

  /* ---------- from the convergence check on ---------- */

  /** What a persisted outcome from tree t on leaves. */
  ghost predicate Fine(cfg: Config, t: Tree, o: Outcome) {
    o.Persisted? ==> Leaves(cfg, t, o.run, o.fx)
  }

  ghost predicate Leaves(cfg: Config, t: Tree, run: Run, fx: Effects) {
    && run.phase != RunPending && run.tree.Some?
    && var t' := run.tree.value;
       && Sound(cfg, t') && (!Terminal(run) ==> Open(cfg, t'))
       && Grows(t.nodes, t'.nodes)
       && SubmittedNow(t.nodes, t'.nodes, fx.submitted)
       && t'.iterations == t.iterations + (if fx.planned && !Terminal(run) then 1 else 0)
       && (!fx.planned && !Terminal(run) ==>
             TotalWeight(t'.nodes) <= TotalWeight(t.nodes)
             && (t'.nodes != t.nodes ==> TotalWeight(t'.nodes) < TotalWeight(t.nodes))
             && HasRunning(t'.nodes) && run.phase == RunRunning
             && t' == t.(nodes := t'.nodes))
  }

  /** The planner's batch t1 did not end the search: what is submitted next. */
  lemma NextRoundIsFine(cfg: Config, t: Tree, t1: Tree, taskIDs: seq<string>)
    requires Open(cfg, t1) && Grows(t.nodes, t1.nodes) && !HasRunning(t1.nodes)
    requires OnlyNewPending(t.nodes, t1.nodes)
    requires Convergence(cfg, t1).None?
    ensures var s := Submit(Truncate(t1.nodes, MaxOutputBytes(cfg)), MaxParallel(cfg), taskIDs);
            s.Submitted? ==>
              && Open(cfg, t1.(nodes := s.nodes, iterations := t1.iterations + 1))
              && Grows(t.nodes, s.nodes) && SubmittedNow(t.nodes, s.nodes, s.ids)
  {
    TruncateKeeps(cfg, t1, MaxOutputBytes(cfg));
    var nodes := Truncate(t1.nodes, MaxOutputBytes(cfg));
    GrowsChain(t.nodes, t1.nodes, nodes);
    TruncatedRoundIsFine(cfg, t, t1.(nodes := nodes), taskIDs);
  }

  lemma TruncatedRoundIsFine(cfg: Config, t: Tree, t2: Tree, taskIDs: seq<string>)
    requires Open(cfg, t2) && Grows(t.nodes, t2.nodes) && !HasRunning(t2.nodes)
    requires OnlyNewPending(t.nodes, t2.nodes)
    requires Convergence(cfg, t2).None?
    ensures var s := Submit(t2.nodes, MaxParallel(cfg), taskIDs);
            s.Submitted? ==>
              && Open(cfg, t2.(nodes := s.nodes, iterations := t2.iterations + 1))
              && Grows(t.nodes, s.nodes) && SubmittedNow(t.nodes, s.nodes, s.ids)
  {
    SubmitKeeps(cfg, t2, taskIDs);
    SubmitAdvances(t2.nodes, MaxParallel(cfg), taskIDs);
    var s := Submit(t2.nodes, MaxParallel(cfg), taskIDs);
    if s.Submitted? {
      GrowsChain(t.nodes, t2.nodes, s.nodes);
    }
  }

  /** Ending the search at tree t1. */
  lemma FinishIsFine(cfg: Config, s: Run, t: Tree, t1: Tree, r: Reason, planned: bool)
    requires Sound(cfg, t1) && Grows(t.nodes, t1.nodes) && SubmittedNow(t.nodes, t1.nodes, [])
    requires t1.iterations == t.iterations
    requires planned ==> cfg.maxIterations > 0 ==> t.iterations < cfg.maxIterations
    ensures Fine(cfg, t, Persisted(Finish(s, t1, r), Effects([], [], planned, true)))
  {
    assert Sound(cfg, t1.(reason := Some(r)));
  }

  /** Going on after a batch that led to tree t1. */
  lemma AppliedIsFine(cfg: Config, s: Run, t: Tree, t1: Tree, e: Env)
    requires Open(cfg, t1) && t1.iterations == t.iterations && Grows(t.nodes, t1.nodes) && !HasRunning(t1.nodes)
    requires OnlyNewPending(t.nodes, t1.nodes)
    requires Convergence(cfg, t1).None?
    ensures var sub := Submit(Truncate(t1.nodes, MaxOutputBytes(cfg)), MaxParallel(cfg), e.taskIDs);
            sub.Submitted? ==>
              Fine(cfg, t, Persisted(Run(RunRunning, Some(t1.(nodes := sub.nodes, iterations := t1.iterations + 1)), s.output),
                                     Effects([] + sub.ids, [], true, true)))
  {
    NextRoundIsFine(cfg, t, t1, e.taskIDs);
    var sub := Submit(Truncate(t1.nodes, MaxOutputBytes(cfg)), MaxParallel(cfg), e.taskIDs);
    assert sub.Submitted? ==> [] + sub.ids == sub.ids;
  }

  lemma PlanIsFine(cfg: Config, s: Run, t: Tree, e: Env)
    requires Open(cfg, t) && Convergence(cfg, t).None? && !HasRunning(t.nodes) && !HasPending(t.nodes)
    ensures Fine(cfg, t, Plan(cfg, s, t, e, []))
  {
    FinishIsFine(cfg, s, t, t, PlannerFailure, true);
    if e.planner.Actions? && AllProblems(e.planner.actions, t.nodes, cfg.hasEvaluator) == [] {
      ValidBatchIsFine(cfg, s, t, e, e.planner.actions);
    }
  }

  lemma ValidBatchIsFine(cfg: Config, s: Run, t: Tree, e: Env, actions: seq<Action>)
    requires Open(cfg, t) && Convergence(cfg, t).None? && !HasRunning(t.nodes) && !HasPending(t.nodes)
    requires e.planner == Actions(actions) && AllProblems(actions, t.nodes, cfg.hasEvaluator) == []
    ensures Fine(cfg, t, Plan(cfg, s, t, e, []))
  {
    ApplyKeeps(cfg, t, actions, e.spare, e.growth);
    var t1 := ApplyActions(t, actions, NodeLimit(cfg), e.spare, e.growth);
    AfterBatchIsFine(cfg, s, t, t1, e);
    assert Plan(cfg, s, t, e, []) == AfterBatch(cfg, s, t1, e, []);
  }

  lemma AfterBatchIsFine(cfg: Config, s: Run, t: Tree, t1: Tree, e: Env)
    requires Sound(cfg, t1) && t1.iterations == t.iterations && Grows(t.nodes, t1.nodes) && !HasRunning(t1.nodes)
    requires OnlyNewPending(t.nodes, t1.nodes)
    requires Convergence(cfg, t1).None? ==> Open(cfg, t1)
    requires cfg.maxIterations > 0 ==> t.iterations < cfg.maxIterations
    ensures Fine(cfg, t, AfterBatch(cfg, s, t1, e, []))
  {
    match Convergence(cfg, t1)
    case Some(r) =>
      FinishIsFine(cfg, s, t, t1, r, true);
    case None =>
      AppliedIsFine(cfg, s, t, t1, e);
  }

  lemma ProceedIsFine(cfg: Config, s: Run, t: Tree, e: Env)
    requires Open(cfg, t)
    ensures Fine(cfg, t, Proceed(cfg, s, t, e))
  {
    if Convergence(cfg, t).Some? {
      FinishIsFine(cfg, s, t, t, Convergence(cfg, t).value, false);
    } else {
      SubmitKeeps(cfg, t, e.taskIDs);
      SubmitAdvances(t.nodes, MaxParallel(cfg), e.taskIDs);
      var sub := Submit(t.nodes, MaxParallel(cfg), e.taskIDs);
      if sub.Submitted? {
        if HasRunning(sub.nodes) {
          WaitingIsFine(cfg, s, t, sub.nodes, sub.ids);
        } else {
          assert t.(nodes := sub.nodes) == t;
          PlanIsFine(cfg, s, t, e);
        }
      }
    }
  }

  /** Waiting for the nodes just submitted. */
  lemma WaitingIsFine(cfg: Config, s: Run, t: Tree, nodes: seq<Node>, ids: seq<int>)
    requires Open(cfg, t.(nodes := nodes)) && Launches(t.nodes, nodes, ids) && Grows(t.nodes, nodes) && HasRunning(nodes)
    requires TotalWeight(nodes) <= TotalWeight(t.nodes) && (nodes != t.nodes ==> TotalWeight(nodes) < TotalWeight(t.nodes))
    ensures Fine(cfg, t, Persisted(Run(RunRunning, Some(t.(nodes := nodes)), s.output), Effects(ids, [], false, true)))
  {
    assert SubmittedNow(t.nodes, nodes, ids);
  }

  /* ---------- what is done outside ---------- */

  /** What a reconcile from tree t on does outside, persisted or not: it asks the planner only within the
      iteration limit, and enqueues only nodes that are Pending or new, each once. */
  ghost predicate Attempts(cfg: Config, t: Tree, fx: Effects) {
    && (forall j, k | 0 <= j < k < |fx.submitted| :: fx.submitted[j] < fx.submitted[k])
    && (forall k | 0 <= k < |fx.submitted| ::
          0 <= fx.submitted[k] < BatchLimit(NodeLimit(cfg))
          && (fx.submitted[k] < |t.nodes| ==> t.nodes[fx.submitted[k]].phase == Pending))
    && (fx.planned ==> cfg.maxIterations > 0 ==> t.iterations < cfg.maxIterations)
  }

  lemma ProceedAttempts(cfg: Config, s: Run, t: Tree, e: Env)
    requires Open(cfg, t)
    ensures Attempts(cfg, t, Proceed(cfg, s, t, e).fx)
  {
    if Convergence(cfg, t).None? {
      var sub := Submit(t.nodes, MaxParallel(cfg), e.taskIDs);
      SubmitQueues(t.nodes, 0, CountRunning(t.nodes), MaxParallel(cfg), e.taskIDs, t.nodes, []);
      SubmitAdvances(t.nodes, MaxParallel(cfg), e.taskIDs);
      if sub.Submitted? && !HasRunning(sub.nodes) {
        assert t.(nodes := sub.nodes) == t;
        PlanAttempts(cfg, s, t, e);
      }
    }
  }

  lemma PlanAttempts(cfg: Config, s: Run, t: Tree, e: Env)
    requires Open(cfg, t) && Convergence(cfg, t).None? && !HasRunning(t.nodes) && !HasPending(t.nodes)
    ensures Attempts(cfg, t, Plan(cfg, s, t, e, []).fx)
  {
    if e.planner.Actions? && AllProblems(e.planner.actions, t.nodes, cfg.hasEvaluator) == [] {
      ApplyKeeps(cfg, t, e.planner.actions, e.spare, e.growth);
      RoundAttempts(cfg, s, t, ApplyActions(t, e.planner.actions, NodeLimit(cfg), e.spare, e.growth), e);
    }
  }

  lemma RoundAttempts(cfg: Config, s: Run, t: Tree, t1: Tree, e: Env)
    requires Sound(cfg, t1) && OnlyNewPending(t.nodes, t1.nodes)
    requires cfg.maxIterations > 0 ==> t.iterations < cfg.maxIterations
    ensures Attempts(cfg, t, AfterBatch(cfg, s, t1, e, []).fx)
  {
    if Convergence(cfg, t1).None? {
      var nodes := Truncate(t1.nodes, MaxOutputBytes(cfg));
      var sub := Submit(nodes, MaxParallel(cfg), e.taskIDs);
      SubmitQueues(nodes, 0, CountRunning(nodes), MaxParallel(cfg), e.taskIDs, nodes, []);
      QueuedAreNew(cfg, t, t1, nodes, sub.ids);
      NewAreAttempted(cfg, t, sub.ids, AfterBatch(cfg, s, t1, e, []).fx);
    }
  }

  lemma NewAreAttempted(cfg: Config, t: Tree, ids: seq<int>, fx: Effects)
    requires (fx.submitted == [] || fx.submitted == [] + ids) && forall j, k | 0 <= j < k < |ids| :: ids[j] < ids[k]
    requires forall k | 0 <= k < |ids| :: |t.nodes| <= ids[k] < BatchLimit(NodeLimit(cfg))
    requires cfg.maxIterations > 0 ==> t.iterations < cfg.maxIterations
    ensures Attempts(cfg, t, fx)
  {
    assert [] + ids == ids;
  }

  lemma QueuedAreNew(cfg: Config, t: Tree, t1: Tree, nodes: seq<Node>, ids: seq<int>)
    requires Sound(cfg, t1) && OnlyNewPending(t.nodes, t1.nodes) && Queued(nodes, ids)
    requires |nodes| == |t1.nodes| && forall i | 0 <= i < |nodes| :: nodes[i].phase == t1.nodes[i].phase
    ensures forall k | 0 <= k < |ids| :: |t.nodes| <= ids[k] < BatchLimit(NodeLimit(cfg))
  {
  }

  /* ---------- one reconcile ---------- */

  /** What a persisted reconcile does to the tree, seen from the persisted run before it. */
  ghost predicate Moves(cfg: Config, s: Run, s': Run, fx: Effects) {
    var t, t' := Current(cfg, s), Current(cfg, s');
    && Grows(t.nodes, t'.nodes)
    && (if fx.stored then
          SubmittedNow(t.nodes, t'.nodes, fx.submitted)
          && t'.iterations == t.iterations + (if fx.planned && !Terminal(s') then 1 else 0)
        else s' == s)
  }

  /** Every reconcile keeps the invariant, and phases, submissions and planner calls move one way. */
  lemma StepKeepsInv(cfg: Config, s: Run, e: Env, s': Run, fx: Effects)
    requires Inv(cfg, s) && Step(cfg, s, e, s', fx)
    ensures Inv(cfg, s') && Moves(cfg, s, s', fx)
  {
    if !e.timedOut {
      var beamed :| StepVia(cfg, s, e, s', fx, beamed);
      StoredStepKeepsInv(cfg, s, e, s', fx, beamed);
    }
  }

  lemma StoredStepKeepsInv(cfg: Config, s: Run, e: Env, s': Run, fx: Effects, beamed: seq<Node>)
    requires Inv(cfg, s) && !Terminal(s) && StepVia(cfg, s, e, s', fx, beamed)
    ensures Inv(cfg, s') && Moves(cfg, s, s', fx)
  {
    var t := Current(cfg, s);
    var t1 := t.(nodes := beamed);
    CollectAndPruneKeep(cfg, t, e, beamed);
    ProceedIsFine(cfg, s, t1, e);
    if fx.stored {
      GrowsChain(t.nodes, beamed, s'.tree.value.nodes);
    } else {
      assert Grows(t.nodes, t.nodes);
    }
  }

  /** Persisted or not, a reconcile attempts only what the persisted tree allows. */
  lemma StepAttempts(cfg: Config, s: Run, e: Env, s': Run, fx: Effects)
    requires Inv(cfg, s) && Step(cfg, s, e, s', fx)
    ensures Attempts(cfg, Current(cfg, s), fx)
  {
    if !e.timedOut {
      var t := Current(cfg, s);
      var beamed :| StepVia(cfg, s, e, s', fx, beamed);
      CollectAndPruneKeep(cfg, t, e, beamed);
      ProceedAttempts(cfg, s, t.(nodes := beamed), e);
    }
  }

  /** Lexicographic progress: a reconcile after which the search goes on either
      changed nothing, or counts one more iteration, or leaves less to wait for. */
  lemma StepProgress(cfg: Config, s: Run, e: Env, s': Run, fx: Effects)
    requires Inv(cfg, s) && Step(cfg, s, e, s', fx) && !Terminal(s')
    ensures var t, t' := Current(cfg, s), Current(cfg, s');
            || s' == s
            || t'.iterations == t.iterations + 1
            || (t'.iterations == t.iterations && TotalWeight(t'.nodes) < TotalWeight(t.nodes))
  {
    if s' != s {
      var t := Current(cfg, s);
      var beamed :| StepVia(cfg, s, e, s', fx, beamed);
      CollectAndPruneKeep(cfg, t, e, beamed);
      WaitingIsProgress(cfg, s, e, t.(nodes := beamed), Proceed(cfg, s, t.(nodes := beamed), e));
    }
  }

  /** The same, from the convergence check on. */
  lemma WaitingIsProgress(cfg: Config, s: Run, e: Env, t1: Tree, o: Outcome)
    requires Inv(cfg, s) && !Terminal(s) && Open(cfg, t1) && t1 == Current(cfg, s).(nodes := t1.nodes)
    requires o == Proceed(cfg, s, t1, e) && o.Persisted? && !Terminal(o.run) && o.run != s
    requires var nodes := Current(cfg, s).nodes;
             TotalWeight(t1.nodes) <= TotalWeight(nodes) && (t1.nodes != nodes ==> TotalWeight(t1.nodes) < TotalWeight(nodes))
    ensures var t, t' := Current(cfg, s), Current(cfg, o.run);
            || t'.iterations == t.iterations + 1
            || (t'.iterations == t.iterations && TotalWeight(t'.nodes) < TotalWeight(t.nodes))
  {
    ProceedIsFine(cfg, s, t1, e);
    if !o.fx.planned {
      assert o.run == Run(RunRunning, Some(t1.(nodes := o.run.tree.value.nodes)), s.output);
    }
  }
}
