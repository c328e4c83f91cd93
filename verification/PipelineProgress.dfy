/** What pipeline runs never do: enqueue a step of a cycle, or cancel what is in flight at a timeout. */
module PipelineProgress {
  import opened Options
  import opened PipelineSpec
  import opened PipelineInvariants
  import opened PipelineCounts
  import opened PipelineRuns
  import opened Dag

  /* ---------- cycles ---------- */

  /** The steps of a dependency cycle are blocked. */
  lemma CycleIsBlocked(p: seq<PipelineStep>, path: seq<string>)
    requires DistinctRoles(p) && IsCycle(GraphOf(p), path)
    ensures Blocked(p, set n | n in path)
  {
    var roles := set n | n in path;
    forall k | 0 <= k < |p| && p[k].role in roles
      ensures BlockedEntry(p, roles, k)
    {
      var i :| 0 <= i < |path| && path[i] == p[k].role;
      var j := if i == |path| - 1 then 0 else i;
      assert Edge(GraphOf(p), path[j], path[j + 1]);
      assert path[j + 1] in p[k].dependsOn && path[j + 1] in roles;
    }
  }

  /** No step on a dependency cycle is ever enqueued. */
  lemma CycleNeverSubmitted(p: seq<PipelineStep>, h: History, k: nat, path: seq<string>, x: nat)
    requires IsHistory(p, h) && DistinctRoles(p) && IsCycle(GraphOf(p), path)
    requires k < |h.fxs| && x < |h.fxs[k].sent|
    ensures h.fxs[k].sent[x].step < |p| && p[h.fxs[k].sent[x].step].role !in path
  {
    CycleIsBlocked(p, path);
    BlockedNeverSubmitted(p, h, k, set n | n in path);
  }

  /* ---------- cancelling ---------- */

  function InFlightTasks(steps: seq<Status>): seq<string> {
    if steps == [] then []
    else
      InFlightTasks(steps[..|steps| - 1])
      + (if InFlight(steps[|steps| - 1]) then [steps[|steps| - 1].taskID] else [])
  }

  predicate IdsInFlight(steps: seq<Status>) {
    forall st | st in steps :: st.taskID != "" && !Final(st.phase) ==> InFlight(st)
  }

  lemma JustifiedIds(p: seq<PipelineStep>, steps: seq<Status>, over: bool)
    requires AllJustified(p, steps, over)
    ensures IdsInFlight(steps)
  {
    forall st | st in steps
      ensures st.taskID != "" && !Final(st.phase) ==> InFlight(st)
    {
      var i :| 0 <= i < |steps| && steps[i] == st;
      assert Justified(p, steps, over, i);
    }
  }

  lemma {:induction false} CancelsInFlight(steps: seq<Status>)
    requires IdsInFlight(steps)
    ensures Cancelled(steps) == InFlightTasks(steps)
  {
    if steps != [] {
      CancelsInFlight(steps[..|steps| - 1]);
    }
  }

  lemma {:induction false} NothingInFlightAfterTimeout(steps: seq<Status>)
    ensures InFlightTasks(AllTimedOut(steps)) == []
  {
    if steps != [] {
      NothingInFlightAfterTimeout(steps[..|steps| - 1]);
      assert AllTimedOut(steps)[..|steps| - 1] == AllTimedOut(steps[..|steps| - 1]);
    }
  }

  /** A run that ends by its steps or its token limit cancels exactly the tasks still in flight. */
  lemma EndCancelsInFlight(p: seq<PipelineStep>, h: History, k: nat)
    requires IsHistory(p, h) && k < |h.envs| && !h.envs[k].lateBefore && !h.envs[k].lateAfter
    requires h.states[k].phase == Active && Terminal(h.states[k + 1].phase)
    ensures h.fxs[k].cancelled == InFlightTasks(h.states[k + 1].steps)
  {
    var s, s' := h.states[k], h.states[k + 1];
    ReachableInv(p, h, k);
    ReachableInv(p, h, k + 1);
    assert StepsAt(p, h, k);
    if s'.steps == [] {
      assert p == [];
    } else {
      JustifiedIds(p, s'.steps, s'.phase == Broken);
    }
    CancelsInFlight(s'.steps);
  }

  /** A timeout fails the running steps before it looks for tasks to cancel, and so cancels none:
      the tasks in flight are cancelled if and only if there are none. */
  lemma TimeoutCancelsIff(p: seq<PipelineStep>, h: History, k: nat)
    requires IsHistory(p, h) && k < |h.envs| && h.envs[k].lateBefore
    requires h.states[k].phase == Active
    ensures h.fxs[k].cancelled == [] && (h.states[k + 1].phase == Broken <==> h.fxs[k].stored)
    ensures h.fxs[k].cancelled == InFlightTasks(h.states[k].steps) <==>
              forall i | 0 <= i < |h.states[k].steps| :: !InFlight(h.states[k].steps[i])
  {
    var steps := h.states[k].steps;
    ReachableInv(p, h, k);
    assert StepsAt(p, h, k);
    TimedOutCancelsNone(p, steps);
    NoneInFlightIff(steps);
  }

  lemma TimedOutCancelsNone(p: seq<PipelineStep>, steps: seq<Status>)
    requires AllJustified(p, steps, false)
    ensures Cancelled(AllTimedOut(steps)) == []
  {
    TimedOutJustified(p, steps);
    JustifiedIds(p, AllTimedOut(steps), true);
    CancelsInFlight(AllTimedOut(steps));
    NothingInFlightAfterTimeout(steps);
  }

  /** The same holds of a timeout that is noticed only after collecting and submitting: not even the tasks
      just enqueued are cancelled. */
  lemma LateTimeoutCancelsIff(p: seq<PipelineStep>, h: History, k: nat)
    requires IsHistory(p, h) && k < |h.envs| && !Terminal(h.states[k].phase)
    requires h.envs[k].lateAfter && h.states[k + 1].phase == Broken
    requires !h.envs[k].lateBefore && !(h.states[k].phase == Unstarted && h.envs[k].rejected)
    ensures var b, e := Begun(p, h.states[k]), h.envs[k];
            && |b.steps| == |p| == |e.glances| && (forall id | id in e.waiting :: e.waiting[id] < |p|)
            && var steps := Passed(p, b, e).steps;
               && h.fxs[k].cancelled == []
               && (h.fxs[k].cancelled == InFlightTasks(steps) <==> forall i | 0 <= i < |steps| :: !InFlight(steps[i]))
  {
    ReachableInv(p, h, k);
    assert StepsAt(p, h, k);
    var b, e := Begun(p, h.states[k]), h.envs[k];
    CollectJustified(p, b.steps, e.waiting, e.answers);
    SubmitJustified(p, Collected(p, b.steps, e.waiting, e.answers), e.glances, |p|);
    TimedOutCancelsNone(p, Passed(p, b, e).steps);
    NoneInFlightIff(Passed(p, b, e).steps);
  }

  lemma {:induction false} NoneInFlightIff(steps: seq<Status>)
    ensures InFlightTasks(steps) == [] <==> forall i | 0 <= i < |steps| :: !InFlight(steps[i])
  {
    if steps != [] {
      NoneInFlightIff(steps[..|steps| - 1]);
    }
  }

  const OneStep := [PipelineStep("a", [], false, None)]

  function SentRun(id: string): Run {
    Run(Active, [Status(Running, id, "", 0)])
  }

  function EndedRun(id: string): Run {
    Run(Broken, [Status(Failed, id, "", 0)])
  }

  function QuietEnv(id: string): Env {
    Env(false, false, false, map[], [], [Glance(true, true, Agent("x", false), true, false, Some(id))],
        false, false, false)
  }

  function LateEnv(id: string): Env {
    QuietEnv(id).(lateBefore := true, waiting := map[id := 0])
  }

  lemma SendsItsTask(id: string)
    requires id != ""
    ensures Step(OneStep, NewRun, QuietEnv(id), SentRun(id), Effects([Send(0, id)], [], [], true))
  {
    var p, steps, gs := OneStep, Fresh(OneStep), QuietEnv(id).glances;
    assert Owner(p, "a") == Some(0);
    var before := Pass(steps, [], [], true);
    assert Submitted(p, steps, gs, 0) == before;
    assert steps[0 := Recovered(steps[0])] == steps && Visitable(p, steps, 0, 0);
    var after := VisitAt(p, before, 0, gs[0]);
    assert after.steps == SentRun(id).steps;
    assert after == Pass(SentRun(id).steps, [Send(0, id)], [], true);
    assert Submitted(p, steps, gs, 1) == after;
    assert after.steps[0] in after.steps;
  }

  lemma EndsLate(id: string)
    requires id != ""
    ensures Step(OneStep, SentRun(id), LateEnv(id), EndedRun(id), NoEffects)
  {
    assert Owner(OneStep, "a") == Some(0);
    var ended := EndedRun(id).steps;
    assert AllTimedOut(SentRun(id).steps) == ended;
    assert Cancelled(ended) == Cancelled(ended[..0]) + [];
  }

  lemma TwoSteps(p: seq<PipelineStep>, h: History)
    requires |h.states| == 3 && |h.envs| == |h.fxs| == 2 && h.states[0] == NewRun
    requires Step(p, h.states[0], h.envs[0], h.states[1], h.fxs[0])
    requires Step(p, h.states[1], h.envs[1], h.states[2], h.fxs[1])
    ensures IsHistory(p, h)
  {
    forall k | 0 <= k < |h.envs|
      ensures StepsAt(p, h, k)
    {
      assert k == 0 || k == 1;
    }
  }

  /** So what a one-step pipeline has enqueued outlives the run. */
  lemma TimeoutLeavesTask(id: string)
    requires id != ""
    ensures var h := History([NewRun, SentRun(id), EndedRun(id)], [QuietEnv(id), LateEnv(id)],
                             [Effects([Send(0, id)], [], [], true), NoEffects]);
            IsHistory(OneStep, h) && InFlight(h.states[1].steps[0])
            && h.envs[1].lateBefore && Terminal(h.states[2].phase) && h.fxs[1].cancelled == []
  {
    var h := History([NewRun, SentRun(id), EndedRun(id)], [QuietEnv(id), LateEnv(id)],
                     [Effects([Send(0, id)], [], [], true), NoEffects]);
    SendsItsTask(id);
    EndsLate(id);
    TwoSteps(OneStep, h);
  }

  /** Before its status is first written, a step can be enqueued any number of times. */
  lemma EnqueuedAnyNumberOfTimes(id: string, n: nat)
    requires id != ""
    ensures var fx := Effects([Send(0, id)], [], [], false);
            var h := History(seq(n + 1, _ => NewRun), seq(n, _ => QuietEnv(id).(writeFails := true)), seq(n, _ => fx));
            IsHistory(OneStep, h) && CountSent(AllSent(h.fxs), 0) == n
  {
    var fx := Effects([Send(0, id)], [], [], false);
    var e := QuietEnv(id).(writeFails := true);
    var h := History(seq(n + 1, _ => NewRun), seq(n, _ => e), seq(n, _ => fx));
    SendsItsTask(id);
    assert Step(OneStep, NewRun, e, NewRun, fx);
    forall k | 0 <= k < n
      ensures StepsAt(OneStep, h, k)
    {
    }
    SentRepeatedly(fx, n);
  }

  lemma {:induction false} SentRepeatedly(fx: Effects, n: nat)
    requires CountSent(fx.sent, 0) == 1
    ensures CountSent(AllSent(seq(n, _ => fx)), 0) == n
  {
    if n > 0 {
      SentRepeatedly(fx, n - 1);
      assert seq(n, _ => fx)[..n - 1] == seq(n - 1, _ => fx);
      CountsAdd(AllSent(seq(n - 1, _ => fx)), fx.sent, 0);
    }
  }
}
