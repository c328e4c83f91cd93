/**
  What every reconcile of a pipeline run keeps: a step that succeeded, failed or
  was skipped is never touched again, and a step that is no longer Pending had
  all its dependencies done. Each stage of a reconcile keeps both; the last
  lemma puts the stages together.
 */
module PipelineInvariants {
  import opened Options
  import opened PipelineSpec

  /* ---------- final phases are kept ---------- */

  predicate KeptAt(steps: seq<Status>, steps': seq<Status>, i: nat)
    requires i < |steps| == |steps'|
  {
    Final(steps[i].phase) ==> steps'[i] == steps[i]
  }

  predicate Kept(steps: seq<Status>, steps': seq<Status>) {
    |steps'| == |steps| && forall i | 0 <= i < |steps| :: KeptAt(steps, steps', i)
  }

  lemma KeptChain(a: seq<Status>, b: seq<Status>, c: seq<Status>)
    requires Kept(a, b) && Kept(b, c)
    ensures Kept(a, c)
  {
    forall i | 0 <= i < |a|
      ensures KeptAt(a, c, i)
    {
      assert KeptAt(a, b, i) && KeptAt(b, c, i);
    }
  }

  lemma DepsStayDone(p: seq<PipelineStep>, a: seq<Status>, b: seq<Status>, deps: seq<string>)
    requires |a| == |p| && Kept(a, b) && DepsDone(p, a, deps)
    ensures DepsDone(p, b, deps)
  {
    forall d | d in deps
      ensures DepDone(p, b, d)
    {
      assert DepDone(p, a, d);
      assert KeptAt(a, b, Owner(p, d).value);
    }
  }

  /** Until it is answered, a step keeps the status it had when the poll was sent. */
  lemma {:induction false} Unanswered(
    p: seq<PipelineStep>, steps: seq<Status>, w: map<string, nat>, answers: seq<Answer>, i: nat)
    requires |steps| == |p| && IsWaiting(p, steps, w) && i < |p|
    requires forall n | 0 <= n < |answers| :: answers[n].taskID != steps[i].taskID
    ensures Collected(p, steps, w, answers)[i] == steps[i]
  {
    if answers != [] {
      Unanswered(p, steps, w, answers[..|answers| - 1], i);
    }
  }

  /** A step the poll changes was in flight; it has got its answer. */
  predicate SettledAt(p: seq<PipelineStep>, steps: seq<Status>, steps': seq<Status>, answers: seq<Answer>, i: nat)
    requires i < |p| == |steps| == |steps'|
  {
    steps'[i] == steps[i]
    || (Owns(p, i) && InFlight(steps[i])
        && exists a :: a in answers && a.taskID == steps[i].taskID
                       && steps'[i] == Answered(steps[i], RulesOf(p, p[i].role), a))
  }

  lemma {:induction false} CollectSettles(
    p: seq<PipelineStep>, steps: seq<Status>, w: map<string, nat>, answers: seq<Answer>, i: nat)
    requires |steps| == |p| && IsWaiting(p, steps, w) && AnswersOnce(answers) && i < |p|
    ensures SettledAt(p, steps, Collected(p, steps, w, answers), answers, i)
  {
    if answers != [] {
      var n := |answers| - 1;
      var a := answers[n];
      if a.taskID in w && w[a.taskID] == i {
        assert Polled(p, steps, w[a.taskID]);
        Unanswered(p, steps, w, answers[..n], i);
        assert a in answers;
      } else {
        CollectSettles(p, steps, w, answers[..n], i);
      }
    }
  }

  /** What an answer makes of the step it is for: an error fails it, an output that passes completes it, and
      one that does not counts an attempt and, while attempts are left, opens the step again. */
  predicate Decides(rules: Option<Validation>, a: Answer, st: Status, r: Status) {
    && r.agent == st.agent
    && (a.error != "" ==> r.phase == Failed && r.attempts == st.attempts && r.taskID == st.taskID)
    && (a.error == "" && (rules.None? || a.valid) ==>
          r.phase == Succeeded && r.attempts == st.attempts && r.taskID == st.taskID)
    && (a.error == "" && rules.Some? && !a.valid ==>
          && r.attempts == st.attempts + 1
          && if rules.value.retry && r.attempts < rules.value.maxRetries then r.phase == Pending && r.taskID == ""
             else r.phase == Failed && r.taskID == st.taskID)
  }

  /** The answer is for step i. */
  predicate IsFor(w: map<string, nat>, a: Answer, i: nat) {
    a.taskID in w && w[a.taskID] == i
  }

  /** What a poll leaves of step i. */
  ghost predicate Decided(
    p: seq<PipelineStep>, steps: seq<Status>, steps': seq<Status>, w: map<string, nat>, answers: seq<Answer>, i: nat)
    requires i < |p| == |steps| == |steps'|
  {
    && (forall a | a in answers && IsFor(w, a, i) ::
          steps[i].taskID == a.taskID && Decides(RulesOf(p, p[i].role), a, steps[i], steps'[i]))
    && ((forall a | a in answers :: !IsFor(w, a, i)) ==> steps'[i] == steps[i])
  }

  /** Every answer to a task that is waited for decides its step, and nothing else changes one. */
  lemma {:induction false} CollectDecides(
    p: seq<PipelineStep>, steps: seq<Status>, w: map<string, nat>, answers: seq<Answer>, i: nat)
    requires |steps| == |p| && IsWaiting(p, steps, w) && AnswersOnce(answers) && i < |p|
    ensures Decided(p, steps, Collected(p, steps, w, answers), w, answers, i)
  {
    if answers != [] {
      var n := |answers| - 1;
      assert answers == answers[..n] + [answers[n]];
      CollectDecides(p, steps, w, answers[..n], i);
      if IsFor(w, answers[n], i) {
        assert Polled(p, steps, i);
        Unanswered(p, steps, w, answers[..n], i);
        forall a | a in answers && IsFor(w, a, i)
          ensures a == answers[n]
        {
          assert steps[i].taskID == a.taskID;
        }
      }
    }
  }

  /** The rules that apply to a role are those of the last step of that role that has any. */
  lemma {:induction false} RulesAreTheLast(p: seq<PipelineStep>, role: string)
    ensures var r := RulesOf(p, role);
            && (r.None? ==> forall k | 0 <= k < |p| && p[k].role == role :: p[k].validation.None?)
            && (r.Some? ==> exists k | 0 <= k < |p| :: p[k].role == role && p[k].validation == r
                              && forall j | k < j < |p| && p[j].role == role :: p[j].validation.None?)
  {
    if p != [] {
      var n := |p| - 1;
      RulesAreTheLast(p[..n], role);
      if p[n].role == role && p[n].validation.Some? {
        assert RulesOf(p, role) == p[n].validation;
      } else if RulesOf(p, role).Some? {
        var k :| 0 <= k < n && p[..n][k].role == role && p[..n][k].validation == RulesOf(p, role)
                 && forall j | k < j < n && p[..n][j].role == role :: p[..n][j].validation.None?;
        assert p[k].role == role && forall j | k < j < n && p[j].role == role :: p[..n][j].validation.None?;
      }
    }
  }

  lemma CollectKeeps(p: seq<PipelineStep>, steps: seq<Status>, w: map<string, nat>, answers: seq<Answer>)
    requires |steps| == |p| && IsWaiting(p, steps, w) && AnswersOnce(answers)
    ensures Kept(steps, Collected(p, steps, w, answers))
  {
    forall i | 0 <= i < |steps|
      ensures KeptAt(steps, Collected(p, steps, w, answers), i)
    {
      CollectSettles(p, steps, w, answers, i);
    }
  }

  lemma {:induction false} SubmitKeeps(p: seq<PipelineStep>, steps: seq<Status>, gs: seq<Glance>, k: nat)
    requires |steps| == |p| == |gs| && k <= |p|
    ensures Kept(steps, Submitted(p, steps, gs, k).steps)
  {
    if k > 0 {
      SubmitKeeps(p, steps, gs, k - 1);
      var before := Submitted(p, steps, gs, k - 1);
      if before.ok {
        var after := VisitAt(p, before, k - 1, gs[k - 1]);
        KeptChain(steps, before.steps, after.steps);
      }
    }
  }

  lemma TimeoutKeeps(steps: seq<Status>)
    ensures Kept(steps, AllTimedOut(steps))
  {
  }

  lemma RollUpKeeps(steps: seq<Status>, late: bool, overTokens: bool)
    ensures Kept(steps, RolledUp(steps, late, overTokens).steps)
  {
  }

  /* ---------- what has started had its dependencies done ---------- */

  /** Some entry of the step's role has all its dependencies done. */
  ghost predicate Backed(p: seq<PipelineStep>, steps: seq<Status>, i: nat)
    requires i < |p| == |steps|
  {
    exists k | 0 <= k < |p| :: p[k].role == p[i].role && DepsDone(p, steps, p[k].dependsOn)
  }

  /** A step is Pending, or failed with its whole run, or the one its role stands for and backed. */
  ghost predicate Justified(p: seq<PipelineStep>, steps: seq<Status>, over: bool, i: nat)
    requires i < |p| == |steps|
  {
    && (steps[i].phase == Pending || steps[i].phase == WarmingUp ==> steps[i].taskID == "")
    && (steps[i].phase != Pending ==>
          (over && steps[i].phase == Failed) || (Owns(p, i) && Backed(p, steps, i)))
  }

  ghost predicate AllJustified(p: seq<PipelineStep>, steps: seq<Status>, over: bool) {
    |steps| == |p| && forall i | 0 <= i < |p| :: Justified(p, steps, over, i)
  }

  lemma BackedStays(p: seq<PipelineStep>, a: seq<Status>, b: seq<Status>, i: nat)
    requires |a| == |p| && Kept(a, b) && i < |p| && Backed(p, a, i)
    ensures Backed(p, b, i)
  {
    var k :| 0 <= k < |p| && p[k].role == p[i].role && DepsDone(p, a, p[k].dependsOn);
    DepsStayDone(p, a, b, p[k].dependsOn);
  }

  lemma CollectJustified(p: seq<PipelineStep>, steps: seq<Status>, w: map<string, nat>, answers: seq<Answer>)
    requires AllJustified(p, steps, false) && IsWaiting(p, steps, w) && AnswersOnce(answers)
    ensures AllJustified(p, Collected(p, steps, w, answers), false)
  {
    var after := Collected(p, steps, w, answers);
    CollectKeeps(p, steps, w, answers);
    forall i | 0 <= i < |p|
      ensures Justified(p, after, false, i)
    {
      assert Justified(p, steps, false, i);
      CollectSettles(p, steps, w, answers, i);
      if steps[i].phase != Pending {
        BackedStays(p, steps, after, i);
      }
    }
  }

  lemma VisitJustified(p: seq<PipelineStep>, before: Pass, k: nat, g: Glance)
    requires |before.steps| == |p| && k < |p| && AllJustified(p, before.steps, false)
    ensures AllJustified(p, VisitAt(p, before, k, g).steps, false)
    ensures Kept(before.steps, VisitAt(p, before, k, g).steps)
  {
    var after := VisitAt(p, before, k, g);
    var o := Owner(p, p[k].role).value;
    var steps := before.steps[o := Recovered(before.steps[o])];
    forall i | 0 <= i < |p|
      ensures Justified(p, after.steps, false, i)
    {
      assert Justified(p, before.steps, false, i);
      if before.steps[i].phase != Pending {
        BackedStays(p, before.steps, after.steps, i);
      } else if i == o && Visitable(p, steps, k, o) {
        assert Kept(before.steps, after.steps);
        assert steps == before.steps;
        DepsStayDone(p, before.steps, after.steps, p[k].dependsOn);
        assert Backed(p, after.steps, i);
      }
    }
  }

  lemma {:induction false} SubmitJustified(p: seq<PipelineStep>, steps: seq<Status>, gs: seq<Glance>, k: nat)
    requires |steps| == |p| == |gs| && k <= |p| && AllJustified(p, steps, false)
    ensures AllJustified(p, Submitted(p, steps, gs, k).steps, false)
  {
    if k > 0 {
      SubmitJustified(p, steps, gs, k - 1);
      if Submitted(p, steps, gs, k - 1).ok {
        VisitJustified(p, Submitted(p, steps, gs, k - 1), k - 1, gs[k - 1]);
      }
    }
  }

  /** Whatever the loop enqueues has its dependencies done when the loop ends. */
  lemma {:induction false} SentAreBacked(p: seq<PipelineStep>, steps: seq<Status>, gs: seq<Glance>, k: nat, x: nat)
    requires |steps| == |p| == |gs| && k <= |p| && x < |Submitted(p, steps, gs, k).sent|
    ensures var pass := Submitted(p, steps, gs, k);
            var i := pass.sent[x].step;
            i < |p| && Owns(p, i) && Backed(p, pass.steps, i)
  {
    var before := Submitted(p, steps, gs, k - 1);
    if x < |before.sent| {
      SentAreBacked(p, steps, gs, k - 1, x);
      if before.ok {
        VisitKeeps(p, before, k - 1, gs[k - 1]);
        BackedStays(p, before.steps, VisitAt(p, before, k - 1, gs[k - 1]).steps, before.sent[x].step);
      }
    } else {
      assert before.ok && Submitted(p, steps, gs, k) == VisitAt(p, before, k - 1, gs[k - 1]);
      VisitedIsBacked(p, before, k - 1, gs[k - 1], x);
    }
  }

  lemma VisitedIsBacked(p: seq<PipelineStep>, before: Pass, k: nat, g: Glance, x: nat)
    requires |before.steps| == |p| && k < |p| && |before.sent| <= x < |VisitAt(p, before, k, g).sent|
    ensures var pass := VisitAt(p, before, k, g);
            var i := pass.sent[x].step;
            i < |p| && Owns(p, i) && Backed(p, pass.steps, i)
  {
    VisitKeeps(p, before, k, g);
    DepsStayDone(p, before.steps, VisitAt(p, before, k, g).steps, p[k].dependsOn);
  }

  lemma VisitKeeps(p: seq<PipelineStep>, before: Pass, k: nat, g: Glance)
    requires |before.steps| == |p| && k < |p|
    ensures Kept(before.steps, VisitAt(p, before, k, g).steps)
  {
  }

  lemma RollUpJustified(p: seq<PipelineStep>, steps: seq<Status>, late: bool, overTokens: bool)
    requires AllJustified(p, steps, false)
    ensures var r := RolledUp(steps, late, overTokens);
            AllJustified(p, r.steps, r.phase == Broken)
  {
    var r := RolledUp(steps, late, overTokens);
    var after, over := r.steps, r.phase == Broken;
    RollUpKeeps(steps, late, overTokens);
    forall i | 0 <= i < |p|
      ensures Justified(p, after, over, i)
    {
      assert Justified(p, steps, false, i);
      if steps[i].phase != Pending {
        BackedStays(p, steps, after, i);
      }
    }
  }

  /* ---------- the invariant ---------- */

  /** A run refused before it started has no statuses; every other one is justified step by step. */
  ghost predicate Inv(p: seq<PipelineStep>, s: Run) {
    && (s.phase == Unstarted ==> s.steps == [])
    && (s.phase == Active || s.phase == Complete ==> AllJustified(p, s.steps, false))
    && (s.phase == Broken ==> s.steps == [] || AllJustified(p, s.steps, true))
    && (s.phase == Complete ==> AllDone(s.steps))
  }

  lemma TimedOutJustified(p: seq<PipelineStep>, steps: seq<Status>)
    requires AllJustified(p, steps, false)
    ensures AllJustified(p, AllTimedOut(steps), true)
  {
    RollUpJustified(p, steps, true, false);
  }

  lemma AdvancedKeepsInv(p: seq<PipelineStep>, b: Run, e: Env)
    requires b.phase == Active && AllJustified(p, b.steps, false) && |e.glances| == |p|
    requires IsWaiting(p, b.steps, e.waiting) && AnswersOnce(e.answers)
    requires Advanced(p, b, e).Persisted?
    ensures Inv(p, Advanced(p, b, e).run) && Kept(b.steps, Advanced(p, b, e).run.steps)
  {
    if e.lateBefore {
      TimedOutJustified(p, b.steps);
      TimeoutKeeps(b.steps);
    } else {
      var mid := Collected(p, b.steps, e.waiting, e.answers);
      var pass := Passed(p, b, e);
      CollectJustified(p, b.steps, e.waiting, e.answers);
      CollectKeeps(p, b.steps, e.waiting, e.answers);
      SubmitJustified(p, mid, e.glances, |p|);
      SubmitKeeps(p, mid, e.glances, |p|);
      RollUpJustified(p, pass.steps, e.lateAfter, e.overTokens);
      RollUpKeeps(pass.steps, e.lateAfter, e.overTokens);
      KeptChain(b.steps, mid, pass.steps);
      KeptChain(b.steps, pass.steps, Advanced(p, b, e).run.steps);
    }
  }

  lemma StepKeepsInv(p: seq<PipelineStep>, s: Run, e: Env, s': Run, fx: Effects)
    requires Inv(p, s) && Step(p, s, e, s', fx)
    ensures Inv(p, s')
    ensures s' != s && s.phase == Active ==> Kept(s.steps, s'.steps)
  {
    if s' != s {
      if !(s.phase == Unstarted && e.rejected) {
        AdvancedKeepsInv(p, Begun(p, s), e);
      }
    }
  }
}
