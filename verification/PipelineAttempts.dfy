/** Steps that use up their attempts: how that comes about, and how often they have been tried by then. */
module PipelineAttempts {
  import opened Options
  import opened PipelineSpec
  import opened PipelineInvariants
  import opened PipelineCounts
  import opened PipelineRuns

  predicate FailsOn(rules: Option<Validation>, st: Status, after: Status, a: Answer) {
    a.taskID == st.taskID && a.error == "" && !a.valid && rules.Some? && after == AfterFailedValidation(st, rules.value)
  }

  /** The poll of a reconcile fails step i for an answer that does not pass its validation. */
  ghost predicate FailsValidation(p: seq<PipelineStep>, s: Run, e: Env, i: nat) {
    && s.phase == Active && Sized(p, s) && EnvFits(p, s, e) && !e.lateBefore && i < |p| && InFlight(s.steps[i])
    && var after := Collected(p, s.steps, e.waiting, e.answers)[i];
       after.phase == Failed && exists a :: a in e.answers && FailsOn(RulesOf(p, p[i].role), s.steps[i], after, a)
  }

  ghost predicate FailedAt(p: seq<PipelineStep>, h: History, j: nat, i: nat)
    requires IsHistory(p, h)
  {
    j < |h.fxs| && h.fxs[j].stored && FailsValidation(p, h.states[j], h.envs[j], i)
  }

  predicate UsedUp(p: seq<PipelineStep>, s: Run, i: nat) {
    i < |p| == |s.steps| && s.steps[i].attempts == Tries(RulesOf(p, p[i].role))
  }

  lemma {:induction false} SubmitKeepsAttempts(p: seq<PipelineStep>, steps: seq<Status>, gs: seq<Glance>, k: nat, i: nat)
    requires |steps| == |p| == |gs| && k <= |p| && i < |p|
    ensures Submitted(p, steps, gs, k).steps[i].attempts == steps[i].attempts
  {
    if k > 0 {
      SubmitKeepsAttempts(p, steps, gs, k - 1, i);
      VisitKeepsAttempts(p, Submitted(p, steps, gs, k - 1), k - 1, gs[k - 1], i);
    }
  }

  lemma VisitKeepsAttempts(p: seq<PipelineStep>, before: Pass, k: nat, g: Glance, i: nat)
    requires |before.steps| == |p| && k < |p| && i < |p|
    ensures VisitAt(p, before, k, g).steps[i].attempts == before.steps[i].attempts
  {
  }

  /** A poll uses up a step's attempts exactly by a validation that fails it. */
  lemma CollectUsesUp(p: seq<PipelineStep>, s: Run, e: Env, sent: seq<Send>, resets: seq<nat>, i: nat)
    requires s.phase == Active && BooksInv(p, s, sent, resets) && EnvFits(p, s, e) && !e.lateBefore && i < |p|
    ensures var after := Collected(p, s.steps, e.waiting, e.answers)[i];
            after.attempts == Tries(RulesOf(p, p[i].role)) <==> UsedUp(p, s, i) || FailsValidation(p, s, e, i)
  {
    var st, rules := s.steps[i], RulesOf(p, p[i].role);
    var after := Collected(p, s.steps, e.waiting, e.answers)[i];
    CollectSettles(p, s.steps, e.waiting, e.answers, i);
    assert AccountedAt(p, s.steps, sent, resets, i);
    if after != st {
      var a :| a in e.answers && a.taskID == st.taskID && after == Answered(st, rules, a);
      AnswerUsesUp(rules, st, after, a);
    }
    if FailsValidation(p, s, e, i) {
      var a :| a in e.answers && FailsOn(rules, st, after, a);
      AnswerUsesUp(rules, st, after, a);
    }
  }

  lemma AnswerUsesUp(rules: Option<Validation>, st: Status, after: Status, a: Answer)
    requires InFlight(st) && st.attempts < Tries(rules) && a.taskID == st.taskID && after == Answered(st, rules, a)
    ensures after.attempts == Tries(rules) <==> after.phase == Failed && FailsOn(rules, st, after, a)
  {
  }

  /** One reconcile leaves a step without attempts exactly when it had none before or is failed by validation. */
  lemma StepUsesUp(p: seq<PipelineStep>, s: Run, e: Env, s': Run, fx: Effects, sent: seq<Send>, resets: seq<nat>, i: nat)
    requires BooksInv(p, s, sent, resets) && Step(p, s, e, s', fx) && i < |p|
    ensures UsedUp(p, s', i) <==> UsedUp(p, s, i) || (fx.stored && FailsValidation(p, s, e, i))
  {
    if !Terminal(s.phase) && fx.stored && !(s.phase == Unstarted && e.rejected) {
      AdvancedKeepsAttempts(p, Begun(p, s), e, i);
      if !e.lateBefore && s.phase == Active {
        CollectUsesUp(p, s, e, sent, resets, i);
      }
      if !e.lateBefore && s.phase == Unstarted {
        CollectSettles(p, Fresh(p), e.waiting, e.answers, i);
      }
    }
  }

  /** What follows the poll counts no attempt. */
  lemma AdvancedKeepsAttempts(p: seq<PipelineStep>, b: Run, e: Env, i: nat)
    requires |b.steps| == |p| == |e.glances| && IsWaiting(p, b.steps, e.waiting) && i < |p|
    requires Advanced(p, b, e).Persisted?
    ensures var mid := if e.lateBefore then b.steps else Collected(p, b.steps, e.waiting, e.answers);
            var r := Advanced(p, b, e).run.steps;
            |r| == |p| && r[i].attempts == mid[i].attempts
  {
    if !e.lateBefore {
      SubmitKeepsAttempts(p, Collected(p, b.steps, e.waiting, e.answers), e.glances, |p|, i);
    }
  }

  /** In every reachable state, a step has used up its attempts if and only if some persisted reconcile has
      failed it by validation. */
  lemma {:induction false} UsedUpIff(p: seq<PipelineStep>, h: History, k: nat, i: nat)
    requires IsHistory(p, h) && k < |h.states| && i < |p|
    ensures UsedUp(p, h.states[k], i) <==> exists j | 0 <= j < k :: FailedAt(p, h, j, i)
  {
    if k > 0 {
      var n := k - 1;
      UsedUpIff(p, h, n, i);
      ReachableBooks(p, h, n);
      assert StepsAt(p, h, n);
      StepUsesUp(p, h.states[n], h.envs[n], h.states[k], h.fxs[n], StoredSent(h.fxs[..n]), StoredResets(h.fxs[..n]), i);
      assert FailedAt(p, h, n, i) <==> h.fxs[n].stored && FailsValidation(p, h.states[n], h.envs[n], i);
    }
  }

  lemma FailedStays(p: seq<PipelineStep>, h: History, j: nat, k: nat, i: nat)
    requires IsHistory(p, h) && j < k < |h.states| && FailedAt(p, h, j, i)
    ensures |h.states[k].steps| == |p| && h.states[k].steps[i].phase == Failed
  {
    ReachableInv(p, h, j);
    assert StepsAt(p, h, j);
    var s, e := h.states[j], h.envs[j];
    AfterPoll(p, s, e, i);
    FinalStepsStay(p, h, j + 1, k, i);
    ReachableInv(p, h, k);
  }

  /** A step that the poll has settled keeps its status to the end of the reconcile. */
  lemma AfterPoll(p: seq<PipelineStep>, b: Run, e: Env, i: nat)
    requires |b.steps| == |p| == |e.glances| && IsWaiting(p, b.steps, e.waiting) && i < |p|
    requires !e.lateBefore && Advanced(p, b, e).Persisted?
    requires Final(Collected(p, b.steps, e.waiting, e.answers)[i].phase)
    ensures var r := Advanced(p, b, e).run.steps;
            |r| == |p| && r[i] == Collected(p, b.steps, e.waiting, e.answers)[i]
  {
    var mid := Collected(p, b.steps, e.waiting, e.answers);
    var pass := Passed(p, b, e);
    SubmitKeeps(p, mid, e.glances, |p|);
    RollUpKeeps(pass.steps, e.lateAfter, e.overTokens);
    assert KeptAt(mid, pass.steps, i) && KeptAt(pass.steps, RolledUp(pass.steps, e.lateAfter, e.overTokens).steps, i);
  }

  /** A step that has been failed by validation stays Failed, and over the run, timed out or not, persisted
      reconciles have enqueued it exactly max(1, maxRetries) times, once when it is not retried, and once
      more for each time its task id was lost. */
  lemma TriedExactly(p: seq<PipelineStep>, h: History, j: nat, k: nat, i: nat)
    requires IsHistory(p, h) && j < k < |h.states| && FailedAt(p, h, j, i)
    ensures UsedUp(p, h.states[k], i) && h.states[k].steps[i].phase == Failed
    ensures CountSent(StoredSent(h.fxs[..k]), i)
         == Tries(RulesOf(p, p[i].role)) + CountResets(StoredResets(h.fxs[..k]), i)
  {
    FailedStays(p, h, j, k, i);
    UsedUpIff(p, h, k, i);
    ReachableInv(p, h, k);
    ReachableBooks(p, h, k);
    assert AccountedAt(p, h.states[k].steps, StoredSent(h.fxs[..k]), StoredResets(h.fxs[..k]), i);
  }
}
