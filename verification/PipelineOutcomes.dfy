/** Why steps succeed and runs end: what the outside answered, and when. */
module PipelineOutcomes {
  import opened PipelineSpec
  import opened PipelineInvariants
  import opened PipelineRuns

  /* ---------- what makes a step succeed ---------- */

  predicate SucceededIn(p: seq<PipelineStep>, s: Run, i: nat) {
    i < |p| == |s.steps| && s.steps[i].phase == Succeeded
  }

  /** The reconcile polls an answer without an error for step i, and one that passes its validation rules, if any. */
  ghost predicate Passes(p: seq<PipelineStep>, s: Run, e: Env, i: nat) {
    && s.phase == Active && Sized(p, s) && EnvFits(p, s, e) && !e.lateBefore && i < |p|
    && exists a :: a in e.answers && IsFor(e.waiting, a, i) && a.error == "" && (RulesOf(p, p[i].role).None? || a.valid)
  }

  ghost predicate PassedAt(p: seq<PipelineStep>, h: History, j: nat, i: nat)
    requires IsHistory(p, h)
  {
    j < |h.fxs| && h.fxs[j].stored && Passes(p, h.states[j], h.envs[j], i)
  }

  lemma {:induction false} SubmitCompletesNone(p: seq<PipelineStep>, steps: seq<Status>, gs: seq<Glance>, k: nat, i: nat)
    requires |steps| == |p| == |gs| && k <= |p| && i < |p|
    ensures Submitted(p, steps, gs, k).steps[i].phase == Succeeded <==> steps[i].phase == Succeeded
  {
    if k > 0 {
      SubmitCompletesNone(p, steps, gs, k - 1, i);
      var before := Submitted(p, steps, gs, k - 1);
      if before.ok {
        VisitCompletesNone(p, before, k - 1, gs[k - 1], i);
        assert Submitted(p, steps, gs, k) == VisitAt(p, before, k - 1, gs[k - 1]);
      } else {
        assert Submitted(p, steps, gs, k) == before;
      }
    }
  }

  lemma VisitCompletesNone(p: seq<PipelineStep>, before: Pass, k: nat, g: Glance, i: nat)
    requires |before.steps| == |p| && k < |p| && i < |p|
    ensures VisitAt(p, before, k, g).steps[i].phase == Succeeded <==> before.steps[i].phase == Succeeded
  {
  }

  /** From the poll on nothing succeeds any more. */
  lemma OnlyThePollCompletes(p: seq<PipelineStep>, b: Run, e: Env, i: nat)
    requires |b.steps| == |p| == |e.glances| && IsWaiting(p, b.steps, e.waiting) && i < |p|
    requires Advanced(p, b, e).Persisted?
    ensures var mid := if e.lateBefore then b.steps else Collected(p, b.steps, e.waiting, e.answers);
            SucceededIn(p, Advanced(p, b, e).run, i) <==> mid[i].phase == Succeeded
  {
    if !e.lateBefore {
      SubmitCompletesNone(p, Collected(p, b.steps, e.waiting, e.answers), e.glances, |p|, i);
      RollUpCompletesNone(Passed(p, b, e).steps, e.lateAfter, e.overTokens, i);
    }
  }

  lemma RollUpCompletesNone(steps: seq<Status>, late: bool, overTokens: bool, i: nat)
    requires i < |steps|
    ensures var r := RolledUp(steps, late, overTokens).steps;
            |r| == |steps| && (r[i].phase == Succeeded <==> steps[i].phase == Succeeded)
  {
  }

  lemma PollCompletesIff(p: seq<PipelineStep>, s: Run, e: Env, i: nat)
    requires s.phase == Active && Sized(p, s) && EnvFits(p, s, e) && !e.lateBefore && i < |p|
    ensures Collected(p, s.steps, e.waiting, e.answers)[i].phase == Succeeded
        <==> s.steps[i].phase == Succeeded || Passes(p, s, e, i)
  {
    CollectDecides(p, s.steps, e.waiting, e.answers, i);
    if a :| a in e.answers && IsFor(e.waiting, a, i) {
      assert Polled(p, s.steps, i);
    }
  }

  lemma StepCompletesIff(p: seq<PipelineStep>, s: Run, e: Env, s': Run, fx: Effects, i: nat)
    requires Inv(p, s) && Step(p, s, e, s', fx) && i < |p|
    ensures SucceededIn(p, s', i) <==> SucceededIn(p, s, i) || (fx.stored && Passes(p, s, e, i))
  {
    if !Terminal(s.phase) && fx.stored && !(s.phase == Unstarted && e.rejected) {
      OnlyThePollCompletes(p, Begun(p, s), e, i);
      if !e.lateBefore && s.phase == Active {
        PollCompletesIff(p, s, e, i);
      }
      if !e.lateBefore && s.phase == Unstarted {
        CollectSettles(p, Fresh(p), e.waiting, e.answers, i);
      }
    }
  }

  /** In every state of any run, a step has succeeded if and only if some persisted reconcile brought an
      answer to the task it held that has no error and, where rules apply, passes them. */
  lemma {:induction false} SucceededIff(p: seq<PipelineStep>, h: History, k: nat, i: nat)
    requires IsHistory(p, h) && k < |h.states| && i < |p|
    ensures SucceededIn(p, h.states[k], i) <==> exists j | 0 <= j < k :: PassedAt(p, h, j, i)
  {
    if k > 0 {
      var n := k - 1;
      SucceededIff(p, h, n, i);
      ReachableInv(p, h, n);
      assert StepsAt(p, h, n);
      StepCompletesIff(p, h.states[n], h.envs[n], h.states[k], h.fxs[n], i);
      assert PassedAt(p, h, n, i) <==> h.fxs[n].stored && Passes(p, h.states[n], h.envs[n], i);
    }
  }

  /* ---------- what ends a run ---------- */

  predicate Failing(s: Run, e: Env) {
    (s.phase == Unstarted && e.rejected) || e.lateBefore || e.lateAfter || e.overTokens
  }

  /** A persisted reconcile ends the run as failed if and only if its inputs are refused, it is late or over its
      token limit, or a step has failed; as complete if and only if none of that holds and there are steps, all
      of them succeeded or skipped. */
  lemma RunEndsIff(p: seq<PipelineStep>, s: Run, e: Env, s': Run, fx: Effects)
    requires Step(p, s, e, s', fx) && fx.stored && !Terminal(s.phase)
    ensures s'.phase != Unstarted
    ensures s'.phase == Broken <==> Failing(s, e) || exists st :: st in s'.steps && st.phase == Failed
    ensures s'.phase == Complete
        <==> !Failing(s, e) && s'.steps != [] && forall st | st in s'.steps :: st.phase == Succeeded || st.phase == Skipped
  {
  }

  /** A reconcile that gets past its inputs and its deadline and then cannot poll does nothing at all; and what is
      not written, or ends in a queue error, leaves the run as it was. */
  lemma FailedPollDoesNothing(p: seq<PipelineStep>, s: Run, e: Env, s': Run, fx: Effects)
    requires Step(p, s, e, s', fx) && !Terminal(s.phase)
    ensures e.pollFails && !e.lateBefore && !(s.phase == Unstarted && e.rejected) ==>
              !fx.stored && fx.sent == [] && fx.resets == [] && fx.cancelled == []
    ensures e.writeFails ==> !fx.stored
    ensures !fx.stored ==> s' == s
  {
  }
}
