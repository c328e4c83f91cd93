/** The run reconciler's pipeline passes, on a fetched copy of a run's step statuses. */
module Pipelines {
  import opened Options
  import opened PipelineSpec
  import opened PipelineInvariants

  class Pipeline {
    const entries: seq<PipelineStep>
    var steps: seq<Status>

    ghost predicate Valid()
      reads this
    {
      |steps| == |entries|
    }

    /** Sets up the statuses of a run seen for the first time, or takes over the stored ones. */
    constructor (p: seq<PipelineStep>, s: Run)
      requires Sized(p, s) && !Terminal(s.phase)
      ensures Valid() && entries == p && steps == Begun(p, s).steps
    {
      entries := p;
      steps := if s.phase == Unstarted then Fresh(p) else s.steps;
    }

    method DepsSucceeded(deps: seq<string>) returns (ok: bool)
      requires Valid()
      ensures ok == DepsDone(entries, steps, deps)
    {
      for d := 0 to |deps|
        invariant forall c | 0 <= c < d :: DepDone(entries, steps, deps[c])
      {
        var o := Owner(entries, deps[d]);
        if o.None? || !Done(steps[o.value].phase) {
          assert !DepDone(entries, steps, deps[d]);
          return false;
        }
      }
      return true;
    }

    /** Which step waits for which task. */
    method Waiting() returns (w: map<string, nat>)
      requires Valid()
      ensures IsWaiting(entries, steps, w)
    {
      w := map[];
      for i := 0 to |entries|
        invariant forall id | id in w :: Polled(entries, steps, w[id]) && steps[w[id]].taskID == id
        invariant forall j | 0 <= j < i && Polled(entries, steps, j) :: steps[j].taskID in w
      {
        if Owner(entries, entries[i].role) == Some(i) && steps[i].phase == Running && steps[i].taskID != "" {
          w := w[steps[i].taskID := i];
        }
      }
    }

    /** Counts the attempt; the step is retried while attempts are left, and fails otherwise. */
    method ApplyValidationFailure(i: nat, v: Validation)
      requires Valid() && i < |steps|
      modifies this`steps
      ensures steps == old(steps)[i := AfterFailedValidation(old(steps[i]), v)]
    {
      steps := steps[i := steps[i].(attempts := steps[i].attempts + 1)];
      if v.retry && steps[i].attempts < v.maxRetries {
        steps := steps[i := steps[i].(phase := Pending, taskID := "")];
      } else {
        steps := steps[i := steps[i].(phase := Failed)];
      }
    }

    /** Settles every waiting step whose task has been answered: its answer decides it, and nothing else changes. */
    method CollectResults(answers: seq<Answer>) returns (ghost w: map<string, nat>)
      requires Valid()
      modifies this`steps
      ensures Valid() && IsWaiting(entries, old(steps), w)
      ensures steps == Collected(entries, old(steps), w, answers)
      ensures AnswersOnce(answers) ==> forall i | 0 <= i < |entries| :: Decided(entries, old(steps), steps, w, answers, i)
    {
      var waiting := Waiting();
      for n := 0 to |answers|
        invariant Valid()
        invariant steps == Collected(entries, old(steps), waiting, answers[..n])
      {
        var a := answers[n];
        assert answers[..n + 1][..n] == answers[..n];
        if a.taskID in waiting {
          var i := waiting[a.taskID];
          var rules := RulesOf(entries, entries[i].role);
          if a.error != "" {
            steps := steps[i := steps[i].(phase := Failed)];
          } else if rules.Some? && !a.valid {
            ApplyValidationFailure(i, rules.value);
          } else {
            steps := steps[i := steps[i].(phase := Succeeded)];
          }
        }
      }
      assert answers[..|answers|] == answers;
      w := waiting;
      if AnswersOnce(answers) {
        forall i | 0 <= i < |entries|
          ensures Decided(entries, old(steps), steps, w, answers, i)
        {
          CollectDecides(entries, old(steps), w, answers, i);
        }
      }
    }

    /** Enqueues every step whose dependencies are done; ok is false when a queue could not be reached. */
    method SubmitPending(gs: seq<Glance>) returns (ok: bool, sent: seq<Send>, resets: seq<nat>)
      requires Valid() && |gs| == |entries|
      modifies this`steps
      ensures Valid()
      ensures Pass(steps, sent, resets, ok) == Submitted(entries, old(steps), gs, |entries|)
    {
      sent, resets, ok := [], [], true;
      var k := 0;
      while k < |entries| && ok
        invariant Valid() && k <= |entries|
        invariant ok ==> Pass(steps, sent, resets, ok) == Submitted(entries, old(steps), gs, k)
        invariant !ok ==> k > 0
        invariant !ok ==> Pass(steps, sent, resets, ok) == Submitted(entries, old(steps), gs, k)
      {
        var step, g := entries[k], gs[k];
        var i := Owner(entries, step.role).value;
        ghost var before := Pass(steps, sent, resets, ok);
        if steps[i].phase == Running && steps[i].taskID == "" {
          steps := steps[i := steps[i].(phase := Pending)];
          resets := resets + [i];
        }
        assert steps == before.steps[i := Recovered(before.steps[i])];
        k := k + 1;
        if steps[i].phase == Pending || steps[i].phase == WarmingUp {
          var go := DepsSucceeded(step.dependsOn);
          if go {
            ok, sent := SubmitStep(i, step, g, sent);
          }
        }
        assert Pass(steps, sent, resets, ok) == VisitAt(entries, before, k - 1, g);
      }
      StoppedStays(entries, old(steps), gs, k);
    }

    /** One visit past the dependency gate. */
    method SubmitStep(i: nat, step: PipelineStep, g: Glance, before: seq<Send>) returns (ok: bool, sent: seq<Send>)
      requires Valid() && i < |steps|
      modifies this`steps
      ensures steps == old(steps)[i := Visit(step, old(steps[i]), g).status]
      ensures ok == Visit(step, old(steps[i]), g).ok
      ensures var id := Visit(step, old(steps[i]), g).sent;
              sent == if id.Some? then before + [Send(i, id.value)] else before
    {
      ok, sent := true, before;
      var st := steps[i];
      if step.conditional && st.phase == Pending && !g.truthy {
        st := st.(phase := Skipped);
      } else if !g.inputsOk {
        st := st.(phase := Failed);
      } else if st.agent == "" && g.lookup.NoAgent? {
        if g.lookup.marked {
          st := st.(phase := Failed);
        }
      } else {
        if st.agent == "" && g.lookup.byRegistry {
          st := st.(agent := g.lookup.name);
        }
        if !g.ready {
          st := st.(phase := WarmingUp);
        } else if g.overBudget {
          st := st.(phase := Failed);
        } else if g.queue.None? {
          ok := false;
        } else {
          st := st.(phase := Running, taskID := g.queue.value);
          sent := sent + [Send(i, g.queue.value)];
        }
      }
      steps := steps[i := st];
    }

    method EnforceTimeout()
      requires Valid()
      modifies this`steps
      ensures Valid() && steps == AllTimedOut(old(steps))
      ensures forall i | 0 <= i < |steps| ::
                var st := old(steps)[i];
                steps[i] == if st.phase == Running || st.phase == Pending then st.(phase := Failed) else st
    {
      for i := 0 to |steps|
        invariant |steps| == |old(steps)|
        invariant forall j | 0 <= j < |steps| :: steps[j] == if j < i then TimedOut(old(steps)[j]) else old(steps)[j]
      {
        if steps[i].phase == Running || steps[i].phase == Pending {
          steps := steps[i := steps[i].(phase := Failed)];
        }
      }
    }

    /** The run's phase, from its steps. */
    method UpdateRunPhase(late: bool, overTokens: bool) returns (phase: RunPhase)
      requires Valid()
      modifies this`steps
      ensures Valid() && Run(phase, steps) == RolledUp(old(steps), late, overTokens)
      ensures phase == Broken <==> late || overTokens || exists st :: st in old(steps) && st.phase == Failed
      ensures phase == Complete <==> phase != Broken && steps != [] && forall st | st in steps :: st.phase == Succeeded || st.phase == Skipped
      ensures phase != Unstarted && (!late ==> steps == old(steps))
    {
      if late {
        EnforceTimeout();
        return Broken;
      }
      if overTokens {
        return Broken;
      }
      if |steps| == 0 {
        return Active;
      }
      var failed, allDone := false, true;
      for i := 0 to |steps|
        invariant failed <==> AnyFailed(steps[..i])
        invariant failed || (allDone <==> AllDone(steps[..i]))
      {
        assert steps[..i + 1] == steps[..i] + [steps[i]];
        assert forall st :: st in steps[..i + 1] <==> st in steps[..i] || st == steps[i];
        if steps[i].phase == Failed {
          failed := true;
        } else if steps[i].phase != Succeeded && steps[i].phase != Skipped {
          allDone := false;
        }
      }
      assert steps[..|steps|] == steps;
      phase := if failed then Broken else if allDone then Complete else Active;
    }

    method CancelTasks() returns (ids: seq<string>)
      ensures ids == Cancelled(steps)
    {
      ids := [];
      for i := 0 to |steps|
        invariant ids == Cancelled(steps[..i])
      {
        assert steps[..i + 1][..i] == steps[..i];
        if steps[i].taskID != ""
           && (steps[i].phase == Running || steps[i].phase == Pending || steps[i].phase == WarmingUp) {
          ids := ids + [steps[i].taskID];
        }
      }
      assert steps[..|steps|] == steps;
    }
  }

  /** Once the submit loop has met a queue error the rest of the pipeline changes nothing. */
  lemma {:induction false} StoppedStays(p: seq<PipelineStep>, steps: seq<Status>, gs: seq<Glance>, k: nat)
    requires |steps| == |p| == |gs| && k <= |p|
    requires k < |p| ==> !Submitted(p, steps, gs, k).ok
    ensures Submitted(p, steps, gs, |p|) == Submitted(p, steps, gs, k)
    decreases |p| - k
  {
    if k < |p| {
      assert Submitted(p, steps, gs, k + 1) == Submitted(p, steps, gs, k);
      StoppedStays(p, steps, gs, k + 1);
    }
  }

  /** w says which step waits for which task: of two with one task id, either may be the one answered. */
  ghost predicate StepWaiting(
    p: seq<PipelineStep>, s: Run, e: Env, w: map<string, nat>, s': Run, fx: Effects) {
    Step(p, s, e.(waiting := w), s', fx)
  }

  /** Carries one reconcile out; without an error or a failed write, what it returns is what is stored. */
  method Reconcile(p: seq<PipelineStep>, s: Run, e: Env) returns (s': Run, fx: Effects)
    requires Sized(p, s) && |e.glances| == |p| && AnswersOnce(e.answers)
    ensures exists w :: StepWaiting(p, s, e, w, s', fx)
  {
    s', fx := s, NoEffects;
    if Terminal(s.phase) {
      assert StepWaiting(p, s, e, map[], s', fx);
      return;
    }
    var run := new Pipeline(p, s);
    ghost var w;
    if s.phase == Unstarted && e.rejected {
      w := run.Waiting();
      fx := NoEffects.(stored := !e.writeFails);
      if !e.writeFails {
        s' := Run(Broken, s.steps);
      }
    } else {
      var ok, after, done;
      ok, after, done, w := AdvanceRun(run, e);
      var stored := ok && !e.writeFails;
      fx := done.(stored := stored);
      if stored {
        s' := after;
      }
    }
    assert StepWaiting(p, s, e, w, s', fx);
  }

  /** From the started run on; ok is false when the reconcile must be retried. */
  method AdvanceRun(run: Pipeline, e: Env) returns (ok: bool, s': Run, fx: Effects, ghost w: map<string, nat>)
    requires run.Valid() && |e.glances| == |run.entries| && AnswersOnce(e.answers)
    modifies run
    ensures IsWaiting(run.entries, old(run.steps), w)
    ensures (if ok then Persisted(s', fx) else Aborted(fx))
         == Advanced(run.entries, Run(Active, old(run.steps)), e.(waiting := w))
  {
    ok, s', fx := true, NewRun, NoEffects;
    if e.lateBefore {
      w := run.Waiting();
      run.EnforceTimeout();
      var ids := run.CancelTasks();
      s', fx := Run(Broken, run.steps), Effects([], [], ids, true);
    } else if e.pollFails {
      w := run.Waiting();
      ok, fx := false, Effects([], [], [], false);
    } else {
      w := run.CollectResults(e.answers);
      var sent, resets;
      ok, sent, resets := run.SubmitPending(e.glances);
      fx := Effects(sent, resets, [], false);
      if ok {
        var phase := run.UpdateRunPhase(e.lateAfter, e.overTokens);
        var ids := [];
        if Terminal(phase) {
          ids := run.CancelTasks();
        }
        s', fx := Run(phase, run.steps), Effects(sent, resets, ids, true);
      }
    }
  }
}
