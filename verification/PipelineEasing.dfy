/**
  How far one reconcile takes a pipeline run. Every open step weighs two for
  each attempt it has left, one less while it is running: collecting and
  submitting never add weight, and take some away when a task in flight is
  answered or a step that can be visited is helped.
 */
module PipelineEasing {
  import opened Options
  import opened PipelineSpec
  import opened PipelineInvariants
  import opened PipelineCounts
  import opened PipelineRuns
  import opened Dag

  /* ---------- what is left to do ---------- */

  function Weight(v: Option<Validation>, st: Status): int {
    if Final(st.phase) then 0
    else 2 * (Tries(v) - st.attempts) - (if st.phase == Running then 1 else 0)
  }

  function WeightAt(p: seq<PipelineStep>, steps: seq<Status>, i: nat): int
    requires i < |p| == |steps|
  {
    Weight(RulesOf(p, p[i].role), steps[i])
  }

  function TotalWeight(p: seq<PipelineStep>, steps: seq<Status>, n: nat): int
    requires n <= |p| == |steps|
  {
    if n == 0 then 0 else TotalWeight(p, steps, n - 1) + WeightAt(p, steps, n - 1)
  }

  predicate NotHeavier(p: seq<PipelineStep>, a: seq<Status>, b: seq<Status>) {
    |a| == |b| == |p| && forall i | 0 <= i < |p| :: WeightAt(p, b, i) <= WeightAt(p, a, i)
  }

  lemma {:induction false} TotalFalls(p: seq<PipelineStep>, a: seq<Status>, b: seq<Status>, n: nat)
    requires NotHeavier(p, a, b) && n <= |p|
    ensures TotalWeight(p, b, n) <= TotalWeight(p, a, n)
    ensures (exists i | 0 <= i < n :: WeightAt(p, b, i) < WeightAt(p, a, i)) ==>
              TotalWeight(p, b, n) < TotalWeight(p, a, n)
  {
    if n > 0 {
      TotalFalls(p, a, b, n - 1);
    }
  }

  lemma {:induction false} TotalIsNat(p: seq<PipelineStep>, steps: seq<Status>, n: nat)
    requires n <= |p| == |steps| && forall i | 0 <= i < n :: WeightAt(p, steps, i) >= 0
    ensures TotalWeight(p, steps, n) >= 0
  {
    if n > 0 {
      TotalIsNat(p, steps, n - 1);
    }
  }

  /** Open steps have attempts left, and Running ones hold a task id. */
  predicate HealthyStep(v: Option<Validation>, st: Status) {
    (!Final(st.phase) ==> st.attempts < Tries(v)) && !Lost(st)
  }

  predicate HealthyAt(p: seq<PipelineStep>, steps: seq<Status>, i: nat)
    requires i < |p| == |steps|
  {
    HealthyStep(RulesOf(p, p[i].role), steps[i])
  }

  predicate Healthy(p: seq<PipelineStep>, steps: seq<Status>) {
    |steps| == |p| && forall i | 0 <= i < |p| :: HealthyAt(p, steps, i)
  }

  /** Collecting never adds weight, and lightens every step that is answered. */
  lemma CollectLightens(p: seq<PipelineStep>, steps: seq<Status>, w: map<string, nat>, answers: seq<Answer>)
    requires Healthy(p, steps) && IsWaiting(p, steps, w) && AnswersOnce(answers)
    ensures var r := Collected(p, steps, w, answers);
            Healthy(p, r) && NotHeavier(p, steps, r)
            && forall i | 0 <= i < |p| && r[i] != steps[i] :: WeightAt(p, r, i) < WeightAt(p, steps, i)
  {
    var r := Collected(p, steps, w, answers);
    forall i | 0 <= i < |p|
      ensures HealthyAt(p, r, i) && (r[i] != steps[i] ==> WeightAt(p, r, i) < WeightAt(p, steps, i))
    {
      CollectSettles(p, steps, w, answers, i);
      assert HealthyAt(p, steps, i);
      var v := RulesOf(p, p[i].role);
      if r[i] != steps[i] {
        var a :| a in answers && r[i] == Answered(steps[i], v, a);
      }
    }
  }

  /* ---------- the submit loop ---------- */

  /** An id the queue hands out is never empty. */
  predicate RealID(g: Glance) {
    g.queue.Some? ==> g.queue.value != ""
  }

  /** An agent is found and ready, and its queue can be reached. */
  predicate Helpful(g: Glance) {
    g.lookup.Agent? && g.ready && g.queue.Some?
  }

  predicate Idle(st: Status) {
    st.phase == Pending || st.phase == WarmingUp
  }

  /** The step is lighter, or it is as it was, but for an idle one's having warmed up. */
  predicate Eased(v: Option<Validation>, a: Status, b: Status) {
    Weight(v, b) < Weight(v, a) || b == a || (Idle(a) && Idle(b) && b.attempts == a.attempts)
  }

  predicate EasedAt(p: seq<PipelineStep>, a: seq<Status>, b: seq<Status>, i: nat)
    requires i < |p| == |a| == |b|
  {
    Eased(RulesOf(p, p[i].role), a[i], b[i])
  }

  predicate AllEased(p: seq<PipelineStep>, a: seq<Status>, b: seq<Status>) {
    |a| == |b| == |p| && forall i | 0 <= i < |p| :: EasedAt(p, a, b, i)
  }

  lemma EasedChain(p: seq<PipelineStep>, a: seq<Status>, b: seq<Status>, c: seq<Status>)
    requires AllEased(p, a, b) && AllEased(p, b, c)
    ensures AllEased(p, a, c)
  {
    forall i | 0 <= i < |p|
      ensures EasedAt(p, a, c, i)
    {
      assert EasedAt(p, a, b, i) && EasedAt(p, b, c, i);
    }
  }

  lemma EasedIsNotHeavier(p: seq<PipelineStep>, a: seq<Status>, b: seq<Status>)
    requires AllEased(p, a, b)
    ensures NotHeavier(p, a, b)
  {
    forall i | 0 <= i < |p|
      ensures WeightAt(p, b, i) <= WeightAt(p, a, i)
    {
      assert EasedAt(p, a, b, i);
    }
  }

  lemma VisitEases(v: Option<Validation>, step: PipelineStep, st: Status, g: Glance)
    requires HealthyStep(v, st) && Idle(st) && RealID(g)
    ensures var r := Visit(step, st, g);
            && HealthyStep(v, r.status) && Eased(v, st, r.status)
            && (Helpful(g) ==> Weight(v, r.status) < Weight(v, st))
  {
  }

  /** Could the entry visit its step? */
  predicate Ready(p: seq<PipelineStep>, steps: seq<Status>, k: nat)
    requires k < |p| == |steps|
  {
    Visitable(p, steps, k, Owner(p, p[k].role).value)
  }

  lemma VisitAtEases(p: seq<PipelineStep>, before: Pass, k: nat, g: Glance)
    requires k < |p| && Healthy(p, before.steps) && RealID(g)
    ensures var r := VisitAt(p, before, k, g);
            var o := Owner(p, p[k].role).value;
            && Healthy(p, r.steps) && AllEased(p, before.steps, r.steps)
            && (Ready(p, before.steps, k) && Helpful(g) ==> WeightAt(p, r.steps, o) < WeightAt(p, before.steps, o))
  {
    var r := VisitAt(p, before, k, g);
    var o := Owner(p, p[k].role).value;
    assert HealthyAt(p, before.steps, o);
    assert before.steps[o := Recovered(before.steps[o])] == before.steps;
    if Ready(p, before.steps, k) {
      VisitEases(RulesOf(p, p[o].role), p[k], before.steps[o], g);
    }
    forall i | 0 <= i < |p|
      ensures HealthyAt(p, r.steps, i) && EasedAt(p, before.steps, r.steps, i)
    {
      assert HealthyAt(p, before.steps, i);
    }
  }

  /** Entry j has made its step lighter, if it could visit it from the start and was helped. */
  predicate LightenedBy(p: seq<PipelineStep>, a: seq<Status>, b: seq<Status>, gs: seq<Glance>, j: nat)
    requires j < |p| == |a| == |b| == |gs|
  {
    var o := Owner(p, p[j].role).value;
    Ready(p, a, j) && Helpful(gs[j]) ==> WeightAt(p, b, o) < WeightAt(p, a, o)
  }

  /** What the submit loop has come to after k entries. */
  predicate WentWell(p: seq<PipelineStep>, steps: seq<Status>, gs: seq<Glance>, r: Pass, k: nat)
    requires |steps| == |r.steps| == |p| == |gs| && k <= |p|
  {
    && Healthy(p, r.steps) && Kept(steps, r.steps) && AllEased(p, steps, r.steps)
    && (r.ok ==> forall j | 0 <= j < k :: LightenedBy(p, steps, r.steps, gs, j))
  }

  lemma {:induction false} SubmitEases(p: seq<PipelineStep>, steps: seq<Status>, gs: seq<Glance>, k: nat)
    requires k <= |p| == |gs| && Healthy(p, steps) && forall g | g in gs :: RealID(g)
    ensures WentWell(p, steps, gs, Submitted(p, steps, gs, k), k)
  {
    if k == 0 {
      NothingVisited(p, steps, gs);
    } else {
      SubmitEases(p, steps, gs, k - 1);
      if Submitted(p, steps, gs, k - 1).ok {
        OneMoreVisit(p, steps, gs, Submitted(p, steps, gs, k - 1), k - 1);
      }
    }
  }

  lemma NothingVisited(p: seq<PipelineStep>, steps: seq<Status>, gs: seq<Glance>)
    requires |p| == |gs| && Healthy(p, steps)
    ensures WentWell(p, steps, gs, Pass(steps, [], [], true), 0)
  {
  }

  lemma OneMoreVisit(p: seq<PipelineStep>, steps: seq<Status>, gs: seq<Glance>, before: Pass, k: nat)
    requires |steps| == |before.steps| == |p| == |gs| && k < |p| && RealID(gs[k])
    requires before.ok && WentWell(p, steps, gs, before, k)
    ensures WentWell(p, steps, gs, VisitAt(p, before, k, gs[k]), k + 1)
  {
    var r := VisitAt(p, before, k, gs[k]);
    VisitAtEases(p, before, k, gs[k]);
    VisitKeeps(p, before, k, gs[k]);
    KeptChain(steps, before.steps, r.steps);
    EasedChain(p, steps, before.steps, r.steps);
    EasedIsNotHeavier(p, before.steps, r.steps);
    forall j | 0 <= j < k + 1
      ensures LightenedBy(p, steps, r.steps, gs, j)
    {
      if j < k {
        assert LightenedBy(p, steps, before.steps, gs, j);
      } else {
        EntryLightens(p, steps, gs, before, k);
      }
    }
  }

  lemma EntryLightens(p: seq<PipelineStep>, steps: seq<Status>, gs: seq<Glance>, before: Pass, k: nat)
    requires |steps| == |before.steps| == |p| == |gs| && k < |p| && RealID(gs[k])
    requires Healthy(p, before.steps) && Kept(steps, before.steps) && AllEased(p, steps, before.steps)
    ensures LightenedBy(p, steps, VisitAt(p, before, k, gs[k]).steps, gs, k)
  {
    var o := Owner(p, p[k].role).value;
    VisitAtEases(p, before, k, gs[k]);
    EasedIsNotHeavier(p, before.steps, VisitAt(p, before, k, gs[k]).steps);
    assert EasedAt(p, steps, before.steps, o);
    if Ready(p, steps, k) {
      DepsStayDone(p, steps, before.steps, p[k].dependsOn);
    }
  }

  lemma CollectEases(p: seq<PipelineStep>, steps: seq<Status>, w: map<string, nat>, answers: seq<Answer>)
    requires Healthy(p, steps) && IsWaiting(p, steps, w) && AnswersOnce(answers)
    ensures Healthy(p, Collected(p, steps, w, answers)) && AllEased(p, steps, Collected(p, steps, w, answers))
  {
    var r := Collected(p, steps, w, answers);
    CollectLightens(p, steps, w, answers);
    forall i | 0 <= i < |p|
      ensures EasedAt(p, steps, r, i)
    {
    }
  }

  /** An answered step is no longer Running. */
  lemma {:induction false} AnsweredIsSettled(
    p: seq<PipelineStep>, steps: seq<Status>, w: map<string, nat>, answers: seq<Answer>, a: Answer)
    requires |steps| == |p| && IsWaiting(p, steps, w) && AnswersOnce(answers)
    requires a in answers && a.taskID in w
    ensures Collected(p, steps, w, answers)[w[a.taskID]].phase != Running
  {
    var n := |answers| - 1;
    if answers[n] != a {
      assert a in answers[..n];
      AnsweredIsSettled(p, steps, w, answers[..n], a);
    }
  }

  /* ---------- reconciles that help ---------- */

  /** With tasks in flight, one of them is answered; with none, some step that can be visited is helped. */
  ghost predicate Responds(p: seq<PipelineStep>, b: Run, e: Env)
    requires |b.steps| == |p| == |e.glances|
  {
    if e.waiting != map[] then exists a :: a in e.answers && a.taskID in e.waiting
    else exists k | 0 <= k < |p| :: Ready(p, b.steps, k) && Helpful(e.glances[k])
  }

  lemma SomeLighter(p: seq<PipelineStep>, b: Run, e: Env) returns (k: nat)
    requires Healthy(p, b.steps) && |e.glances| == |p| && (forall g | g in e.glances :: RealID(g))
    requires IsWaiting(p, b.steps, e.waiting) && AnswersOnce(e.answers)
    requires Responds(p, b, e) && Passed(p, b, e).ok
    ensures k < |p| && WeightAt(p, Passed(p, b, e).steps, k) < WeightAt(p, b.steps, k)
  {
    var mid := Collected(p, b.steps, e.waiting, e.answers);
    var r := Passed(p, b, e);
    CollectLightens(p, b.steps, e.waiting, e.answers);
    SubmitEases(p, mid, e.glances, |p|);
    EasedIsNotHeavier(p, mid, r.steps);
    if e.waiting != map[] {
      var a :| a in e.answers && a.taskID in e.waiting;
      k := e.waiting[a.taskID];
      AnsweredIsSettled(p, b.steps, e.waiting, e.answers, a);
      assert Polled(p, b.steps, k);
      assert WeightAt(p, mid, k) < WeightAt(p, b.steps, k);
    } else {
      var j :| 0 <= j < |p| && Ready(p, b.steps, j) && Helpful(e.glances[j]);
      CollectIdle(p, b.steps, e.waiting, e.answers);
      assert LightenedBy(p, mid, r.steps, e.glances, j);
      k := Owner(p, p[j].role).value;
    }
  }

  lemma {:induction false} CollectIdle(p: seq<PipelineStep>, steps: seq<Status>, w: map<string, nat>, answers: seq<Answer>)
    requires |steps| == |p| && w == map[]
    ensures Collected(p, steps, w, answers) == steps
  {
    if answers != [] {
      CollectIdle(p, steps, w, answers[..|answers| - 1]);
    }
  }

  /** Every reconcile that gets through eases the run, and one that responds makes it lighter. */
  lemma PassEases(p: seq<PipelineStep>, b: Run, e: Env)
    requires Healthy(p, b.steps) && |e.glances| == |p| && (forall g | g in e.glances :: RealID(g))
    requires IsWaiting(p, b.steps, e.waiting) && AnswersOnce(e.answers)
    ensures var r := Passed(p, b, e);
            && Healthy(p, r.steps) && TotalWeight(p, r.steps, |p|) <= TotalWeight(p, b.steps, |p|)
            && (Responds(p, b, e) && r.ok ==> TotalWeight(p, r.steps, |p|) < TotalWeight(p, b.steps, |p|))
  {
    var mid := Collected(p, b.steps, e.waiting, e.answers);
    var r := Passed(p, b, e);
    CollectEases(p, b.steps, e.waiting, e.answers);
    SubmitEases(p, mid, e.glances, |p|);
    EasedChain(p, b.steps, mid, r.steps);
    EasedIsNotHeavier(p, b.steps, r.steps);
    if Responds(p, b, e) && r.ok {
      var k := SomeLighter(p, b, e);
      assert WeightAt(p, r.steps, k) < WeightAt(p, b.steps, k);
    }
    TotalFalls(p, b.steps, r.steps, |p|);
  }

  /** How many reconciles a responsive run can need at most. */
  function MostReconciles(p: seq<PipelineStep>): nat {
    TotalTries(p, |p|)
  }

  function TotalTries(p: seq<PipelineStep>, n: nat): nat
    requires n <= |p|
  {
    if n == 0 then 0 else TotalTries(p, n - 1) + 2 * Tries(RulesOf(p, p[n - 1].role))
  }

  lemma {:induction false} FreshWeight(p: seq<PipelineStep>, n: nat)
    requires n <= |p|
    ensures TotalWeight(p, Fresh(p), n) == TotalTries(p, n)
  {
    if n > 0 {
      FreshWeight(p, n - 1);
    }
  }

  lemma FreshIsHealthy(p: seq<PipelineStep>)
    ensures Healthy(p, Fresh(p))
  {
  }
}
