/** That pipeline runs end, however slow the outside is; and which pipelines can complete at all. */
module PipelineTermination {
  import opened Options
  import opened PipelineSpec
  import opened PipelineInvariants
  import opened PipelineRuns
  import opened PipelineProgress
  import opened PipelineEasing
  import opened Dag

  /* ---------- whole runs ---------- */

  predicate RealIDs(h: History) {
    forall k, g | 0 <= k < |h.envs| && g in h.envs[k].glances :: RealID(g)
  }

  function Load(p: seq<PipelineStep>, s: Run): int
    requires |Begun(p, s).steps| == |p|
  {
    TotalWeight(p, Begun(p, s).steps, |p|)
  }

  /** Reconcile k of a run that goes on is persisted, and the outside responds to it. */
  ghost predicate GoodAt(p: seq<PipelineStep>, h: History, k: nat)
    requires k < |h.envs| == |h.fxs| < |h.states|
  {
    var b := Begun(p, h.states[k]);
    && h.fxs[k].stored && !Terminal(h.states[k].phase)
    && |b.steps| == |p| == |h.envs[k].glances| && Responds(p, b, h.envs[k])
  }

  ghost function GoodSteps(p: seq<PipelineStep>, h: History, n: nat): nat
    requires n <= |h.envs| == |h.fxs| < |h.states|
  {
    if n == 0 then 0 else GoodSteps(p, h, n - 1) + (if GoodAt(p, h, n - 1) then 1 else 0)
  }

  lemma StepEases(p: seq<PipelineStep>, s: Run, e: Env, s': Run, fx: Effects)
    requires !Terminal(s.phase) && Step(p, s, e, s', fx) && Healthy(p, Begun(p, s).steps)
    requires forall g | g in e.glances :: RealID(g)
    ensures !Terminal(s'.phase) ==>
              && Healthy(p, Begun(p, s').steps) && Load(p, s') <= Load(p, s)
              && (fx.stored && Responds(p, Begun(p, s), e) ==> Load(p, s') < Load(p, s))
  {
    if !Terminal(s'.phase) && fx.stored {
      PassEases(p, Begun(p, s), e);
    }
  }

  lemma {:induction false} RunEases(p: seq<PipelineStep>, h: History, n: nat)
    requires IsHistory(p, h) && RealIDs(h) && n <= |h.envs|
    ensures !Terminal(h.states[n].phase) ==>
              && Healthy(p, Begun(p, h.states[n]).steps)
              && GoodSteps(p, h, n) <= MostReconciles(p) - Load(p, h.states[n])
    ensures GoodSteps(p, h, n) <= MostReconciles(p) + 1
  {
    if n == 0 {
      FreshIsHealthy(p);
      FreshWeight(p, |p|);
    } else {
      RunEases(p, h, n - 1);
      assert StepsAt(p, h, n - 1);
      if !Terminal(h.states[n - 1].phase) {
        StepEases(p, h.states[n - 1], h.envs[n - 1], h.states[n], h.fxs[n - 1]);
        LoadIsNat(p, h.states[n - 1]);
      }
    }
  }

  lemma LoadIsNat(p: seq<PipelineStep>, s: Run)
    requires Healthy(p, Begun(p, s).steps)
    ensures Load(p, s) >= 0
  {
    var steps := Begun(p, s).steps;
    forall i | 0 <= i < |p|
      ensures WeightAt(p, steps, i) >= 0
    {
      assert HealthyAt(p, steps, i);
    }
    TotalIsNat(p, steps, |p|);
  }

  /** However slow the outside, and whatever fails in between: while a run goes on, no more of its reconciles
      have been persisted and responded to than two for each attempt its steps are allowed. */
  lemma GoodStepsBounded(p: seq<PipelineStep>, h: History)
    requires IsHistory(p, h) && RealIDs(h)
    ensures !Terminal(h.states[|h.envs|].phase) ==> GoodSteps(p, h, |h.envs|) <= MostReconciles(p)
    ensures GoodSteps(p, h, |h.envs|) <= MostReconciles(p) + 1
  {
    RunEases(p, h, |h.envs|);
    if !Terminal(h.states[|h.envs|].phase) {
      LoadIsNat(p, h.states[|h.envs|]);
    }
  }

  /* ---------- never stuck ---------- */

  /** In a valid pipeline with an open step and none in flight, some step can be visited: otherwise each
      open step would wait for another, round in a circle. */
  lemma SomeStepIsVisitable(p: seq<PipelineStep>, steps: seq<Status>, i: nat)
    requires DistinctRoles(p) && ValidPipeline(p) && |steps| == |p|
    requires forall j | 0 <= j < |p| :: steps[j].phase != Running && steps[j].phase != Failed
    requires i < |p| && !Final(steps[i].phase)
    ensures exists k | 0 <= k < |p| :: Visitable(p, steps, k, k)
  {
    if forall k | 0 <= k < |p| :: !Visitable(p, steps, k, k) {
      var open := OpenRoles(p, steps);
      assert p[i].role in open;
      forall n | n in open
        ensures WaitsWithin(GraphOf(p), open, n)
      {
        var k :| 0 <= k < |p| && !Final(steps[k].phase) && p[k].role == n;
        WaitsForOpen(p, steps, k);
      }
      WaitingInACircle(GraphOf(p), open);
      assert false;
    }
  }

  function OpenRoles(p: seq<PipelineStep>, steps: seq<Status>): set<string>
    requires |steps| == |p|
  {
    set k | 0 <= k < |p| && !Final(steps[k].phase) :: p[k].role
  }

  lemma WaitsForOpen(p: seq<PipelineStep>, steps: seq<Status>, k: nat)
    requires DistinctRoles(p) && ValidPipeline(p) && |steps| == |p|
    requires forall j | 0 <= j < |p| :: steps[j].phase != Running && steps[j].phase != Failed
    requires k < |p| && !Final(steps[k].phase) && !Visitable(p, steps, k, k)
    ensures WaitsWithin(GraphOf(p), OpenRoles(p, steps), p[k].role)
  {
    var d :| d in p[k].dependsOn && !DepDone(p, steps, d);
    assert KnownDeps(p, k);
    var o := Owner(p, d).value;
    assert p[o].role in OpenRoles(p, steps);
    assert Edge(GraphOf(p), p[k].role, d);
  }

  /** The steps of a run that goes on: none failed, and not all done. */
  predicate Open(p: seq<PipelineStep>, steps: seq<Status>) {
    Healthy(p, steps) && !AnyFailed(steps) && (steps != [] ==> !AllDone(steps))
  }

  lemma FreshIsOpen(p: seq<PipelineStep>)
    ensures Open(p, Fresh(p))
  {
    var none := Fresh(p);
    assert none != [] ==> none[0] in none;
  }

  lemma {:induction false} RunIsOpen(p: seq<PipelineStep>, h: History, n: nat)
    requires IsHistory(p, h) && RealIDs(h) && n <= |h.envs| && p != [] && !Terminal(h.states[n].phase)
    ensures Open(p, Begun(p, h.states[n]).steps)
  {
    FreshIsOpen(p);
    RunEases(p, h, n);
    if n > 0 {
      assert StepsAt(p, h, n - 1);
      if !h.fxs[n - 1].stored {
        RunIsOpen(p, h, n - 1);
      }
    }
  }

  lemma NothingRunning(p: seq<PipelineStep>, steps: seq<Status>, w: map<string, nat>)
    requires DistinctRoles(p) && Healthy(p, steps) && IsWaiting(p, steps, w) && w == map[]
    ensures forall i | 0 <= i < |p| :: steps[i].phase != Running
  {
    forall i | 0 <= i < |p|
      ensures steps[i].phase != Running
    {
      assert HealthyAt(p, steps, i) && Owns(p, i);
      assert !Polled(p, steps, i);
    }
  }

  /** A task is in flight, or some step can be visited. */
  ghost predicate HasWork(p: seq<PipelineStep>, steps: seq<Status>, w: map<string, nat>)
    requires |steps| == |p|
  {
    w != map[] || exists k | 0 <= k < |p| :: Ready(p, steps, k)
  }

  /** A valid pipeline is never stuck: while nothing is in flight, some step can be visited. */
  lemma NeverStuck(p: seq<PipelineStep>, steps: seq<Status>, w: map<string, nat>)
    requires p != [] && DistinctRoles(p) && ValidPipeline(p) && Open(p, steps) && IsWaiting(p, steps, w)
    ensures HasWork(p, steps, w)
  {
    if w == map[] {
      NothingRunning(p, steps, w);
      OpenIsUnfailed(p, steps);
      SomeReady(p, steps);
    }
  }

  lemma SomeReady(p: seq<PipelineStep>, steps: seq<Status>)
    requires p != [] && DistinctRoles(p) && ValidPipeline(p) && |steps| == |p| && Unfailed(steps) && !AllDone(steps)
    requires forall i | 0 <= i < |p| :: steps[i].phase != Running
    ensures exists k | 0 <= k < |p| :: Ready(p, steps, k)
  {
    var st :| st in steps && !Done(st.phase);
    var i :| 0 <= i < |p| && steps[i] == st;
    SomeStepIsVisitable(p, steps, i);
    var k :| 0 <= k < |p| && Visitable(p, steps, k, k);
    OwnsItself(p, k);
    assert Ready(p, steps, k);
  }

  lemma OwnsItself(p: seq<PipelineStep>, k: nat)
    requires DistinctRoles(p) && k < |p|
    ensures Owner(p, p[k].role) == Some(k)
  {
  }

  predicate Unfailed(steps: seq<Status>) {
    forall i | 0 <= i < |steps| :: steps[i].phase != Failed
  }

  lemma OpenIsUnfailed(p: seq<PipelineStep>, steps: seq<Status>)
    requires Open(p, steps)
    ensures Unfailed(steps)
  {
    forall i | 0 <= i < |p|
      ensures steps[i].phase != Failed
    {
      assert steps[i] in steps;
    }
  }

  /** The reconcile gets through; with tasks in flight one is answered, and with none every step that can be
      visited is helped. */
  ghost predicate Serves(p: seq<PipelineStep>, h: History, k: nat)
    requires k < |h.envs| == |h.fxs| < |h.states|
  {
    var b, e := Begun(p, h.states[k]), h.envs[k];
    && h.fxs[k].stored && |b.steps| == |p| == |e.glances|
    && (if e.waiting != map[] then exists a :: a in e.answers && a.taskID in e.waiting
        else forall j | 0 <= j < |p| && Ready(p, b.steps, j) :: Helpful(e.glances[j]))
  }

  lemma {:induction false} ServedSteps(p: seq<PipelineStep>, h: History, n: nat)
    requires IsHistory(p, h) && RealIDs(h) && n <= |h.envs| && !Terminal(h.states[n].phase)
    requires p != [] && DistinctRoles(p) && ValidPipeline(p)
    requires forall k | 0 <= k < n && !Terminal(h.states[k].phase) :: Serves(p, h, k)
    ensures GoodSteps(p, h, n) == n
  {
    if n > 0 {
      assert StepsAt(p, h, n - 1);
      ServedSteps(p, h, n - 1);
      ServedIsGood(p, h, n - 1);
    }
  }

  lemma ServedIsGood(p: seq<PipelineStep>, h: History, k: nat)
    requires IsHistory(p, h) && RealIDs(h) && k < |h.envs| && !Terminal(h.states[k].phase) && Serves(p, h, k)
    requires p != [] && DistinctRoles(p) && ValidPipeline(p)
    ensures GoodAt(p, h, k)
  {
    assert StepsAt(p, h, k);
    RunIsOpen(p, h, k);
    NeverStuck(p, Begun(p, h.states[k]).steps, h.envs[k].waiting);
  }

  /** At least one step, distinct roles, known dependencies, none circular. */
  ghost predicate Proper(p: seq<PipelineStep>) {
    p != [] && DistinctRoles(p) && ValidPipeline(p)
  }

  ghost predicate Served(p: seq<PipelineStep>, h: History)
    requires |h.envs| == |h.fxs| < |h.states|
  {
    forall k | 0 <= k < |h.envs| && !Terminal(h.states[k].phase) :: Serves(p, h, k)
  }

  /** So while the outside serves it, a run of a proper pipeline ends within that many reconciles. */
  lemma PipelineTerminates(p: seq<PipelineStep>, h: History)
    requires IsHistory(p, h) && RealIDs(h) && Proper(p) && Served(p, h) && |h.envs| > MostReconciles(p)
    ensures Terminal(h.states[|h.envs|].phase)
  {
    if !Terminal(h.states[|h.envs|].phase) {
      ServedSteps(p, h, |h.envs|);
      GoodStepsBounded(p, h);
      assert false;
    }
  }

  /* ---------- which pipelines can complete ---------- */

  /** A run completes only if its roles are distinct, every dependency is a step, and none is circular. */
  lemma CompleteMeansValid(p: seq<PipelineStep>, h: History, k: nat)
    requires IsHistory(p, h) && k < |h.states| && h.states[k].phase == Complete
    ensures DistinctRoles(p) && ValidPipeline(p)
  {
    var steps := h.states[k].steps;
    ReachableInv(p, h, k);
    forall i | 0 <= i < |p|
      ensures Done(steps[i].phase) && Owns(p, i) && Backed(p, steps, i)
    {
      CompleteMeansDone(p, h, k, i);
    }
    forall i, j | 0 <= i < j < |p|
      ensures p[i].role != p[j].role
    {
      assert Owns(p, i) && Owns(p, j);
    }
    forall i | 0 <= i < |p|
      ensures KnownDeps(p, i)
    {
      assert Backed(p, steps, i);
      var m :| 0 <= m < |p| && p[m].role == p[i].role && DepsDone(p, steps, p[m].dependsOn);
      assert m == i;
      assert forall d | d in p[i].dependsOn :: DepDone(p, steps, d);
    }
    if Cyclic(GraphOf(p)) {
      var path :| IsCycle(GraphOf(p), path);
      CompleteHasNoCycle(p, h, k, path);
    }
  }

  lemma CompleteHasNoCycle(p: seq<PipelineStep>, h: History, k: nat, path: seq<string>)
    requires IsHistory(p, h) && k < |h.states| && h.states[k].phase == Complete && DistinctRoles(p)
    ensures !IsCycle(GraphOf(p), path)
  {
    if IsCycle(GraphOf(p), path) {
      CycleIsBlocked(p, path);
      var roles := set n | n in path;
      BlockedNeverSubmitted(p, h, k, roles);
      assert Edge(GraphOf(p), path[0], path[1]);
      var o := Owner(p, path[0]).value;
      assert p[o].role in roles;
      CompleteMeansDone(p, h, k, o);
      assert false;
    }
  }

  lemma {:induction false} WaitingFor(p: seq<PipelineStep>, steps: seq<Status>, n: nat) returns (w: map<string, nat>)
    requires |steps| == |p| && n <= |p|
    ensures forall id | id in w :: Polled(p, steps, w[id]) && steps[w[id]].taskID == id
    ensures forall i: nat | i < n && Polled(p, steps, i) :: steps[i].taskID in w
  {
    w := map[];
    if n > 0 {
      w := WaitingFor(p, steps, n - 1);
      if Polled(p, steps, n - 1) {
        w := w[steps[n - 1].taskID := n - 1];
      }
    }
  }

  const Fine := Glance(true, true, Agent("a", false), true, false, Some("t"))

  /** Answers one task in flight, if any, and helps every step. */
  function Kind(p: seq<PipelineStep>, w: map<string, nat>, answers: seq<Answer>): Env {
    Env(false, false, false, w, answers, seq(|p|, _ => Fine), false, false, false)
  }

  lemma {:induction false} FineSubmits(p: seq<PipelineStep>, steps: seq<Status>, gs: seq<Glance>, k: nat)
    requires |steps| == |p| == |gs| && k <= |p| && Unfailed(steps) && forall g | g in gs :: g == Fine
    ensures Submitted(p, steps, gs, k).ok && Unfailed(Submitted(p, steps, gs, k).steps)
  {
    if k > 0 {
      FineSubmits(p, steps, gs, k - 1);
      assert gs[k - 1] in gs;
    }
  }

  lemma {:induction false} FineCollects(p: seq<PipelineStep>, steps: seq<Status>, w: map<string, nat>, answers: seq<Answer>)
    requires |steps| == |p| && Unfailed(steps) && forall id | id in w :: w[id] < |p|
    requires forall a | a in answers :: a.error == "" && a.valid
    ensures Unfailed(Collected(p, steps, w, answers))
  {
    if answers != [] {
      FineCollects(p, steps, w, answers[..|answers| - 1]);
    }
  }

  predicate Promising(p: seq<PipelineStep>, h: History)
    requires |h.states| > 0
  {
    var s := h.states[|h.states| - 1];
    !Terminal(s.phase) && Open(p, Begun(p, s).steps)
  }

  function Longer(h: History, e: Env, s: Run, fx: Effects): History {
    History(h.states + [s], h.envs + [e], h.fxs + [fx])
  }

  lemma LongerIsHistory(p: seq<PipelineStep>, h: History, e: Env, s: Run, fx: Effects)
    requires IsHistory(p, h) && Step(p, h.states[|h.states| - 1], e, s, fx)
    ensures IsHistory(p, Longer(h, e, s, fx))
  {
    var longer := Longer(h, e, s, fx);
    forall k | 0 <= k < |longer.envs|
      ensures StepsAt(p, longer, k)
    {
      assert k < |h.envs| ==> StepsAt(p, h, k);
    }
  }

  lemma OneAnswer(w: map<string, nat>) returns (answers: seq<Answer>)
    ensures AnswersOnce(answers) && forall a | a in answers :: a.error == "" && a.valid
    ensures w != map[] ==> exists a :: a in answers && a.taskID in w
  {
    answers := [];
    if w != map[] {
      var id :| id in w;
      answers := [Answer(id, "", true)];
      assert answers[0] in answers;
    }
  }

  predicate Undisturbed(e: Env) {
    !e.rejected && !e.lateBefore && !e.pollFails && !e.lateAfter && !e.overTokens && !e.writeFails
  }

  lemma KindEnv(p: seq<PipelineStep>, b: Run, w: map<string, nat>) returns (e: Env)
    requires |b.steps| == |p| && IsWaiting(p, b.steps, w) && HasWork(p, b.steps, w)
    ensures IsKind(p, e) && Undisturbed(e) && IsWaiting(p, b.steps, e.waiting) && AnswersOnce(e.answers)
    ensures Responds(p, b, e)
  {
    var answers := OneAnswer(w);
    e := Kind(p, w, answers);
    KindResponds(p, b, w, answers);
  }

  /** A reconcile with a kind outside completes the run or leaves it lighter. */
  lemma KindStep(p: seq<PipelineStep>, s: Run) returns (e: Env, s': Run, fx: Effects)
    requires p != [] && DistinctRoles(p) && ValidPipeline(p) && !Terminal(s.phase) && Open(p, Begun(p, s).steps)
    ensures Step(p, s, e, s', fx)
    ensures s'.phase == Complete || (s'.phase == Active && Open(p, s'.steps) && 0 <= Load(p, s') < Load(p, s))
  {
    var b := Begun(p, s);
    var w := WaitingFor(p, b.steps, |p|);
    NeverStuck(p, b.steps, w);
    e := KindEnv(p, b, w);
    OpenIsUnfailed(p, b.steps);
    s', fx := UndisturbedStep(p, s, e);
  }

  lemma UndisturbedStep(p: seq<PipelineStep>, s: Run, e: Env) returns (s': Run, fx: Effects)
    requires !Terminal(s.phase) && p != []
    requires var b := Begun(p, s);
             && Healthy(p, b.steps) && Unfailed(b.steps) && IsWaiting(p, b.steps, e.waiting) && AnswersOnce(e.answers)
             && IsKind(p, e) && Undisturbed(e) && Responds(p, b, e)
    ensures Step(p, s, e, s', fx)
    ensures s'.phase == Complete || (s'.phase == Active && Open(p, s'.steps) && 0 <= Load(p, s') < Load(p, s))
  {
    var b := Begun(p, s);
    KindPass(p, b, e);
    var pass := Passed(p, b, e);
    RollUpUnfailed(p, pass.steps);
    s' := RolledUp(pass.steps, false, false);
    fx := Effects(pass.sent, pass.resets, if Terminal(s'.phase) then Cancelled(s'.steps) else [], true);
    if s'.phase == Active {
      LoadIsNat(p, s');
    }
  }

  lemma RollUpUnfailed(p: seq<PipelineStep>, steps: seq<Status>)
    requires p != [] && Healthy(p, steps) && Unfailed(steps)
    ensures var run := RolledUp(steps, false, false);
            run.steps == steps && (run.phase == Complete || (run.phase == Active && Open(p, steps)))
  {
  }

  predicate IsKind(p: seq<PipelineStep>, e: Env) {
    && |e.glances| == |p| && (forall g | g in e.glances :: g == Fine)
    && (forall a | a in e.answers :: a.error == "" && a.valid)
  }

  lemma KindPass(p: seq<PipelineStep>, b: Run, e: Env)
    requires Healthy(p, b.steps) && Unfailed(b.steps) && IsWaiting(p, b.steps, e.waiting) && AnswersOnce(e.answers)
    requires IsKind(p, e) && Responds(p, b, e)
    ensures var pass := Passed(p, b, e);
            && pass.ok && Healthy(p, pass.steps) && Unfailed(pass.steps)
            && TotalWeight(p, pass.steps, |p|) < TotalWeight(p, b.steps, |p|)
  {
    KindFailsNone(p, b, e);
    KindIsReal(p, e);
    PassEases(p, b, e);
  }

  lemma KindIsReal(p: seq<PipelineStep>, e: Env)
    requires IsKind(p, e)
    ensures forall g | g in e.glances :: RealID(g)
  {
  }

  lemma KindFailsNone(p: seq<PipelineStep>, b: Run, e: Env)
    requires |b.steps| == |p| && Unfailed(b.steps) && IsKind(p, e)
    requires forall id | id in e.waiting :: e.waiting[id] < |p|
    ensures Passed(p, b, e).ok && Unfailed(Passed(p, b, e).steps)
  {
    FineCollects(p, b.steps, e.waiting, e.answers);
    FineSubmits(p, Collected(p, b.steps, e.waiting, e.answers), e.glances, |p|);
  }

  lemma KindResponds(p: seq<PipelineStep>, b: Run, w: map<string, nat>, answers: seq<Answer>)
    requires |b.steps| == |p| && HasWork(p, b.steps, w)
    requires w != map[] ==> exists a :: a in answers && a.taskID in w
    ensures Responds(p, b, Kind(p, w, answers))
  {
    if w == map[] {
      var k :| 0 <= k < |p| && Ready(p, b.steps, k);
      assert Helpful(Kind(p, w, answers).glances[k]);
    }
  }

  /** One more reconcile completes the run or brings it nearer to that. */
  lemma KindlyLonger(p: seq<PipelineStep>, h: History) returns (longer: History)
    requires p != [] && DistinctRoles(p) && ValidPipeline(p) && IsHistory(p, h) && Promising(p, h)
    ensures IsHistory(p, longer) && |longer.states| == |h.states| + 1
    ensures var s, s' := h.states[|h.states| - 1], longer.states[|longer.states| - 1];
            s'.phase == Complete || (Promising(p, longer) && 0 <= Load(p, s') < Load(p, s))
  {
    var e, s', fx := KindStep(p, h.states[|h.states| - 1]);
    LongerIsHistory(p, h, e, s', fx);
    longer := Longer(h, e, s', fx);
  }

  lemma CompleteFrom(p: seq<PipelineStep>, h: History) returns (longer: History)
    requires p != [] && DistinctRoles(p) && ValidPipeline(p) && IsHistory(p, h) && Promising(p, h)
    ensures IsHistory(p, longer) && longer.states[|longer.states| - 1].phase == Complete
    decreases Load(p, h.states[|h.states| - 1])
  {
    var s := h.states[|h.states| - 1];
    longer := KindlyLonger(p, h);
    if longer.states[|longer.states| - 1].phase != Complete {
      LoadIsNat(p, s);
      longer := CompleteFrom(p, longer);
    }
  }

  lemma {:induction false} EmptyNeverCompletes(p: seq<PipelineStep>, h: History, k: nat)
    requires IsHistory(p, h) && k < |h.states| && p == []
    ensures h.states[k].phase != Complete
  {
    if k > 0 {
      EmptyNeverCompletes(p, h, k - 1);
      assert StepsAt(p, h, k - 1);
    }
  }

  ghost predicate CanComplete(p: seq<PipelineStep>) {
    exists h :: IsHistory(p, h) && h.states[|h.states| - 1].phase == Complete
  }

  lemma CompleteMeansProper(p: seq<PipelineStep>, h: History, k: nat)
    requires IsHistory(p, h) && k < |h.states| && h.states[k].phase == Complete
    ensures Proper(p)
  {
    CompleteMeansValid(p, h, k);
    if p == [] {
      EmptyNeverCompletes(p, h, k);
    }
  }

  /** A pipeline can complete if and only if validation accepts it, it has a step, and no role is named
      twice; validation looks at neither of the last two. */
  lemma CanCompleteIff(p: seq<PipelineStep>)
    ensures CanComplete(p) <==> Proper(p)
  {
    if CanComplete(p) {
      var h :| IsHistory(p, h) && h.states[|h.states| - 1].phase == Complete;
      CompleteMeansProper(p, h, |h.states| - 1);
    }
    if Proper(p) {
      FreshIsOpen(p);
      var h := History([NewRun], [], []);
      h := CompleteFrom(p, h);
    }
  }

  /** Two pipelines that validation accepts and that cannot complete: the empty one, and one that names a
      role twice. */
  lemma AcceptedButStuck()
    ensures ValidPipeline([]) && !CanComplete([])
    ensures var p := [PipelineStep("a", [], false, None), PipelineStep("a", [], false, None)];
            ValidPipeline(p) && !CanComplete(p)
  {
    CanCompleteIff([]);
    OrderedIsAcyclic(GraphOf([]), []);
    var p := [PipelineStep("a", [], false, None), PipelineStep("a", [], false, None)];
    CanCompleteIff(p);
    assert p[0].role == p[1].role;
    assert Ordered(GraphOf(p), ["a"]) by {
      assert DepsBefore(GraphOf(p), ["a"], 0);
    }
    OrderedIsAcyclic(GraphOf(p), ["a"]);
  }

  /* ---------- served for ever ---------- */

  /** A reconcile with a kind outside fails nothing: it completes the run or leaves it going on. */
  lemma KindGoesOn(p: seq<PipelineStep>, s: Run, e: Env) returns (s': Run, fx: Effects)
    requires !Terminal(s.phase) && |Begun(p, s).steps| == |p| && Unfailed(Begun(p, s).steps)
    requires IsWaiting(p, Begun(p, s).steps, e.waiting) && AnswersOnce(e.answers) && IsKind(p, e) && Undisturbed(e)
    ensures Step(p, s, e, s', fx) && fx.stored
    ensures s'.phase == Complete || (s'.phase == Active && |s'.steps| == |p| && Unfailed(s'.steps))
  {
    KindFailsNone(p, Begun(p, s), e);
    var pass := Passed(p, Begun(p, s), e);
    s' := RolledUp(pass.steps, false, false);
    fx := Effects(pass.sent, pass.resets, if Terminal(s'.phase) then Cancelled(s'.steps) else [], true);
  }

  ghost predicate GoesOn(p: seq<PipelineStep>, h: History)
    requires |h.states| > 0
  {
    var s := h.states[|h.states| - 1];
    !Terminal(s.phase) && |Begun(p, s).steps| == |p| && Unfailed(Begun(p, s).steps)
  }

  lemma ServedOnce(p: seq<PipelineStep>, h: History) returns (longer: History)
    requires !Proper(p) && IsHistory(p, h) && RealIDs(h) && Served(p, h) && GoesOn(p, h)
    ensures IsHistory(p, longer) && RealIDs(longer) && Served(p, longer) && GoesOn(p, longer)
    ensures |longer.envs| == |h.envs| + 1
  {
    var s := h.states[|h.states| - 1];
    var b := Begun(p, s);
    var w := WaitingFor(p, b.steps, |p|);
    var answers := OneAnswer(w);
    var e := Kind(p, w, answers);
    var s', fx := KindGoesOn(p, s, e);
    longer := Longer(h, e, s', fx);
    LongerIsHistory(p, h, e, s', fx);
    if s'.phase == Complete {
      CompleteMeansProper(p, longer, |longer.states| - 1);
      assert false;
    }
    KindIsReal(p, e);
    LongerIsServed(p, h, e, s', fx);
  }

  lemma LongerIsServed(p: seq<PipelineStep>, h: History, e: Env, s': Run, fx: Effects)
    requires |h.states| == |h.envs| + 1 == |h.fxs| + 1 && RealIDs(h) && Served(p, h) && fx.stored
    requires IsKind(p, e) && |Begun(p, h.states[|h.states| - 1]).steps| == |p|
    requires e.waiting != map[] ==> exists a :: a in e.answers && a.taskID in e.waiting
    ensures RealIDs(Longer(h, e, s', fx)) && Served(p, Longer(h, e, s', fx))
  {
    var longer := Longer(h, e, s', fx);
    KindIsReal(p, e);
    assert forall j | 0 <= j < |p| :: e.glances[j] in e.glances;
    forall k | 0 <= k < |longer.envs| && !Terminal(longer.states[k].phase)
      ensures Serves(p, longer, k)
    {
      if k < |h.envs| {
        assert Serves(p, h, k);
      }
    }
  }

  /** If the pipeline is not proper, serving it for n reconciles, whatever n, need not end its run. */
  lemma {:induction false} ServedForever(p: seq<PipelineStep>, n: nat) returns (h: History)
    requires !Proper(p)
    ensures IsHistory(p, h) && RealIDs(h) && Served(p, h) && GoesOn(p, h) && |h.envs| == n
  {
    if n == 0 {
      h := History([NewRun], [], []);
    } else {
      h := ServedForever(p, n - 1);
      h := ServedOnce(p, h);
    }
  }

  /** Every served run ends in time. */
  ghost predicate ServedRunsEnd(p: seq<PipelineStep>) {
    forall h | IsHistory(p, h) && RealIDs(h) && Served(p, h) && |h.envs| > MostReconciles(p) ::
      Terminal(h.states[|h.envs|].phase)
  }

  /** Serving a pipeline ends its runs if and only if it has a step, its roles are distinct, and validation
      accepts it; otherwise it can go on being served for ever. */
  lemma ServedRunsEndIff(p: seq<PipelineStep>)
    ensures ServedRunsEnd(p) <==> Proper(p)
  {
    if Proper(p) {
      forall h | IsHistory(p, h) && RealIDs(h) && Served(p, h) && |h.envs| > MostReconciles(p)
        ensures Terminal(h.states[|h.envs|].phase)
      {
        PipelineTerminates(p, h);
      }
    } else {
      var h := ServedForever(p, MostReconciles(p) + 1);
      assert !Terminal(h.states[|h.envs|].phase);
    }
  }

  /** Some run comes to a state in which nothing is in flight and no step can be visited. */
  ghost predicate GetsStuck(p: seq<PipelineStep>) {
    exists h, k: nat :: StuckAt(p, h, k)
  }

  ghost predicate StuckAt(p: seq<PipelineStep>, h: History, k: nat) {
    && IsHistory(p, h) && RealIDs(h) && k < |h.states| && !Terminal(h.states[k].phase)
    && var steps := Begun(p, h.states[k]).steps;
       |steps| == |p| && exists w :: IsWaiting(p, steps, w) && !HasWork(p, steps, w)
  }

  /** A pipeline can get stuck if and only if it is empty, names a role twice, or is one validation rejects. */
  lemma GetsStuckIff(p: seq<PipelineStep>)
    ensures GetsStuck(p) <==> !Proper(p)
  {
    if Proper(p) && GetsStuck(p) {
      var h, k: nat :| StuckAt(p, h, k);
      var steps := Begun(p, h.states[k]).steps;
      var w :| IsWaiting(p, steps, w) && !HasWork(p, steps, w);
      RunIsOpen(p, h, k);
      NeverStuck(p, steps, w);
      assert false;
    }
    if !Proper(p) && !GetsStuck(p) {
      var n := MostReconciles(p) + 1;
      var h := ServedForever(p, n);
      UnstuckIsGood(p, h, n);
      GoodStepsBounded(p, h);
      assert false;
    }
  }

  lemma {:induction false} UnstuckIsGood(p: seq<PipelineStep>, h: History, n: nat)
    requires IsHistory(p, h) && RealIDs(h) && Served(p, h) && !GetsStuck(p)
    requires n <= |h.envs| && !Terminal(h.states[n].phase)
    ensures GoodSteps(p, h, n) == n
  {
    if n > 0 {
      assert StepsAt(p, h, n - 1);
      UnstuckIsGood(p, h, n - 1);
      assert Serves(p, h, n - 1) && !StuckAt(p, h, n - 1);
    }
  }
}
