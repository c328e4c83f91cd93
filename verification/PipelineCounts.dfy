/**
  How often a step's task is enqueued: every task sent for a step that is still
  open is in flight, was counted as a failed attempt, or had its id lost. Each
  stage of a reconcile keeps these books, and they bound the number of tasks
  sent by the attempts the step's validation rules allow.
 */
module PipelineCounts {
  import opened Options
  import opened PipelineSpec
  import opened PipelineInvariants

  function CountSent(sent: seq<Send>, i: nat): nat {
    if sent == [] then 0
    else CountSent(sent[..|sent| - 1], i) + (if sent[|sent| - 1].step == i then 1 else 0)
  }

  function CountResets(resets: seq<nat>, i: nat): nat {
    if resets == [] then 0
    else CountResets(resets[..|resets| - 1], i) + (if resets[|resets| - 1] == i then 1 else 0)
  }

  /** How many attempts a role's validation rules allow. */
  function Tries(v: Option<Validation>): nat {
    if v.Some? && v.value.retry then Max(1, v.value.maxRetries) else 1
  }

  /** Every task sent for a step was counted as a failed attempt, had its id lost, or is the last one; while
      the step is unfinished that one is in flight, and the step has an attempt left. */
  predicate Accounted(v: Option<Validation>, st: Status, sent: nat, resets: nat) {
    && sent <= Tries(v) + resets
    && st.attempts + resets <= sent <= st.attempts + resets + 1
    && (!Final(st.phase) ==>
          && st.attempts < Tries(v)
          && sent == st.attempts + resets + (if st.phase == Running then 1 else 0))
  }

  lemma VisitAccounted(v: Option<Validation>, step: PipelineStep, st: Status, g: Glance, sent: nat, resets: nat)
    requires Accounted(v, st, sent, resets) && (st.phase == Pending || st.phase == WarmingUp)
    ensures var r := Visit(step, st, g);
            Accounted(v, r.status, sent + (if r.sent.Some? then 1 else 0), resets)
  {
  }

  lemma RecoveryAccounted(v: Option<Validation>, st: Status, sent: nat, resets: nat)
    requires Accounted(v, st, sent, resets)
    ensures Accounted(v, Recovered(st), sent, resets + (if Lost(st) then 1 else 0))
  {
  }

  predicate AccountedAt(p: seq<PipelineStep>, steps: seq<Status>, sent: seq<Send>, resets: seq<nat>, i: nat)
    requires i < |p| == |steps|
  {
    Accounted(RulesOf(p, p[i].role), steps[i], CountSent(sent, i), CountResets(resets, i))
  }

  predicate Books(p: seq<PipelineStep>, steps: seq<Status>, sent: seq<Send>, resets: seq<nat>) {
    |steps| == |p| && forall i | 0 <= i < |p| :: AccountedAt(p, steps, sent, resets, i)
  }

  lemma CollectBooks(
    p: seq<PipelineStep>, steps: seq<Status>, w: map<string, nat>, answers: seq<Answer>,
    sent: seq<Send>, resets: seq<nat>)
    requires Books(p, steps, sent, resets) && IsWaiting(p, steps, w) && AnswersOnce(answers)
    ensures Books(p, Collected(p, steps, w, answers), sent, resets)
  {
    var after := Collected(p, steps, w, answers);
    forall i | 0 <= i < |p|
      ensures AccountedAt(p, after, sent, resets, i)
    {
      CollectSettles(p, steps, w, answers, i);
      assert AccountedAt(p, steps, sent, resets, i);
      var v := RulesOf(p, p[i].role);
      if after[i] != steps[i] {
        var a :| a in answers && a.taskID == steps[i].taskID && after[i] == Answered(steps[i], v, a);
      }
    }
  }

  /** One visit, with the tasks sent and the steps reset before it. */
  lemma VisitBooks(p: seq<PipelineStep>, before: Pass, k: nat, g: Glance)
    requires k < |p| && Books(p, before.steps, before.sent, before.resets)
    ensures var r := VisitAt(p, before, k, g);
            Books(p, r.steps, r.sent, r.resets)
  {
    var r := VisitAt(p, before, k, g);
    forall i | 0 <= i < |p|
      ensures AccountedAt(p, r.steps, r.sent, r.resets, i)
    {
      if Owner(p, p[k].role) == Some(i) {
        VisitOwnBooks(p, before, k, g);
      } else {
        VisitOtherBooks(p, before, k, g, i);
      }
    }
  }

  /** A visit sends and resets at most its own step, and touches no other status. */
  lemma VisitTouches(p: seq<PipelineStep>, before: Pass, k: nat, g: Glance)
    requires |before.steps| == |p| && k < |p|
    ensures var r := VisitAt(p, before, k, g);
            var o := Owner(p, p[k].role).value;
            && (forall i | 0 <= i < |p| && i != o :: r.steps[i] == before.steps[i])
            && (r.sent == before.sent || exists x: Send :: x.step == o && r.sent == before.sent + [x])
            && (r.resets == before.resets || r.resets == before.resets + [o])
  {
  }

  lemma VisitOtherBooks(p: seq<PipelineStep>, before: Pass, k: nat, g: Glance, i: nat)
    requires k < |p| && Books(p, before.steps, before.sent, before.resets)
    requires i < |p| && Owner(p, p[k].role) != Some(i)
    ensures var r := VisitAt(p, before, k, g);
            AccountedAt(p, r.steps, r.sent, r.resets, i)
  {
    VisitTouches(p, before, k, g);
    OthersStay(p, before, VisitAt(p, before, k, g), Owner(p, p[k].role).value, i);
  }

  lemma OthersStay(p: seq<PipelineStep>, before: Pass, r: Pass, o: nat, i: nat)
    requires i < |p| == |before.steps| == |r.steps| && i != o && r.steps[i] == before.steps[i]
    requires AccountedAt(p, before.steps, before.sent, before.resets, i)
    requires r.sent == before.sent || exists x: Send :: x.step == o && r.sent == before.sent + [x]
    requires r.resets == before.resets || r.resets == before.resets + [o]
    ensures AccountedAt(p, r.steps, r.sent, r.resets, i)
  {
    OneMoreReset(before.resets, o, i);
    if r.sent != before.sent {
      var x: Send :| x.step == o && r.sent == before.sent + [x];
      OneMoreSent(before.sent, x, i);
    }
  }

  lemma OneMoreSent(sent: seq<Send>, x: Send, i: nat)
    ensures CountSent(sent + [x], i) == CountSent(sent, i) + (if x.step == i then 1 else 0)
  {
    assert (sent + [x])[..|sent|] == sent;
  }

  lemma OneMoreReset(resets: seq<nat>, x: nat, i: nat)
    ensures CountResets(resets + [x], i) == CountResets(resets, i) + (if x == i then 1 else 0)
  {
    assert (resets + [x])[..|resets|] == resets;
  }

  lemma VisitOwnBooks(p: seq<PipelineStep>, before: Pass, k: nat, g: Glance)
    requires k < |p| && Books(p, before.steps, before.sent, before.resets)
    ensures var r := VisitAt(p, before, k, g);
            AccountedAt(p, r.steps, r.sent, r.resets, Owner(p, p[k].role).value)
  {
    var o := Owner(p, p[k].role).value;
    assert AccountedAt(p, before.steps, before.sent, before.resets, o);
    var rules := RulesOf(p, p[o].role);
    var st := Recovered(before.steps[o]);
    var steps := before.steps[o := st];
    var sent, resets := CountSent(before.sent, o), CountResets(before.resets, o);
    var more := resets + (if Lost(before.steps[o]) then 1 else 0);
    RecoveryAccounted(rules, before.steps[o], sent, resets);
    if Visitable(p, steps, k, o) {
      VisitAccounted(rules, p[k], st, g, sent, more);
    }
  }

  /** The whole loop, with what earlier reconciles sent and reset. */
  lemma {:induction false} SubmitBooks(
    p: seq<PipelineStep>, steps: seq<Status>, gs: seq<Glance>, k: nat, sent: seq<Send>, resets: seq<nat>)
    requires |p| == |gs| && k <= |p| && Books(p, steps, sent, resets)
    ensures var r := Submitted(p, steps, gs, k);
            Books(p, r.steps, sent + r.sent, resets + r.resets)
  {
    if k == 0 {
      assert sent + [] == sent && resets + [] == resets;
    } else {
      SubmitBooks(p, steps, gs, k - 1, sent, resets);
      var before := Submitted(p, steps, gs, k - 1);
      if before.ok {
        var all := before.(sent := sent + before.sent, resets := resets + before.resets);
        VisitBooks(p, all, k - 1, gs[k - 1]);
        VisitAppends(p, before, k - 1, gs[k - 1], sent, resets);
      }
    }
  }

  lemma VisitAppends(p: seq<PipelineStep>, before: Pass, k: nat, g: Glance, sent: seq<Send>, resets: seq<nat>)
    requires |before.steps| == |p| && k < |p|
    ensures var all := before.(sent := sent + before.sent, resets := resets + before.resets);
            var r := VisitAt(p, before, k, g);
            VisitAt(p, all, k, g) == r.(sent := sent + r.sent, resets := resets + r.resets)
  {
    var o := Owner(p, p[k].role).value;
    var v := Visit(p[k], Recovered(before.steps[o]), g);
    if v.sent.Some? {
      var x := Send(o, v.sent.value);
      assert sent + (before.sent + [x]) == sent + before.sent + [x];
    }
    assert resets + (before.resets + [o]) == resets + before.resets + [o];
  }

  lemma TimeoutBooks(p: seq<PipelineStep>, steps: seq<Status>, sent: seq<Send>, resets: seq<nat>)
    requires Books(p, steps, sent, resets)
    ensures Books(p, AllTimedOut(steps), sent, resets)
  {
    var after := AllTimedOut(steps);
    forall i | 0 <= i < |p|
      ensures AccountedAt(p, after, sent, resets, i)
    {
      assert AccountedAt(p, steps, sent, resets, i);
    }
  }

  /* ---------- one reconcile ---------- */

  predicate WithinTries(p: seq<PipelineStep>, sent: seq<Send>, resets: seq<nat>, i: nat)
    requires i < |p|
  {
    CountSent(sent, i) <= Tries(RulesOf(p, p[i].role)) + CountResets(resets, i)
  }

  ghost predicate BooksInv(p: seq<PipelineStep>, s: Run, sent: seq<Send>, resets: seq<nat>) {
    && (s.phase == Unstarted ==> s.steps == [] && sent == [] && resets == [])
    && (s.phase != Unstarted && |s.steps| == |p| ==> Books(p, s.steps, sent, resets))
    && (s.phase == Active ==> |s.steps| == |p|)
    && (forall i | 0 <= i < |p| :: WithinTries(p, sent, resets, i))
  }

  lemma BooksBound(p: seq<PipelineStep>, steps: seq<Status>, sent: seq<Send>, resets: seq<nat>)
    requires Books(p, steps, sent, resets)
    ensures forall i | 0 <= i < |p| :: WithinTries(p, sent, resets, i)
  {
    forall i | 0 <= i < |p|
      ensures WithinTries(p, sent, resets, i)
    {
      assert AccountedAt(p, steps, sent, resets, i);
    }
  }

  lemma AdvancedBooks(p: seq<PipelineStep>, b: Run, e: Env, sent: seq<Send>, resets: seq<nat>)
    requires |e.glances| == |p| && Books(p, b.steps, sent, resets)
    requires IsWaiting(p, b.steps, e.waiting) && AnswersOnce(e.answers)
    requires Advanced(p, b, e).Persisted?
    ensures var o := Advanced(p, b, e);
            Books(p, o.run.steps, sent + o.fx.sent, resets + o.fx.resets) && o.run.phase != Unstarted
  {
    if e.lateBefore {
      assert sent + [] == sent && resets + [] == resets;
      TimeoutBooks(p, b.steps, sent, resets);
    } else {
      var mid := Collected(p, b.steps, e.waiting, e.answers);
      var pass := Passed(p, b, e);
      CollectBooks(p, b.steps, e.waiting, e.answers, sent, resets);
      SubmitBooks(p, mid, e.glances, |p|, sent, resets);
      RollUpBooks(p, pass.steps, e, sent + pass.sent, resets + pass.resets);
    }
  }

  lemma RollUpBooks(p: seq<PipelineStep>, steps: seq<Status>, e: Env, sent: seq<Send>, resets: seq<nat>)
    requires Books(p, steps, sent, resets)
    ensures Books(p, RolledUp(steps, e.lateAfter, e.overTokens).steps, sent, resets)
  {
    if e.lateAfter {
      TimeoutBooks(p, steps, sent, resets);
    }
  }

  lemma StepKeepsBooks(
    p: seq<PipelineStep>, s: Run, e: Env, s': Run, fx: Effects, sent: seq<Send>, resets: seq<nat>)
    requires BooksInv(p, s, sent, resets) && Step(p, s, e, s', fx)
    ensures if fx.stored then BooksInv(p, s', sent + fx.sent, resets + fx.resets) else s' == s
  {
    assert sent + [] == sent && resets + [] == resets;
    if !Terminal(s.phase) {
      if !(s.phase == Unstarted && e.rejected) && Advanced(p, Begun(p, s), e).Persisted? {
        AdvancedBooks(p, Begun(p, s), e, sent, resets);
        BooksBound(p, Advanced(p, Begun(p, s), e).run.steps, sent + fx.sent, resets + fx.resets);
      }
    }
  }
}
