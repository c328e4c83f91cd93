/** Properties of whole pipeline runs: any number of reconciles, whatever the outside answers. */
module PipelineRuns {
  import opened Options
  import opened PipelineSpec
  import opened PipelineInvariants
  import opened PipelineCounts

  /** A run so far: reconcile k leads from states[k] to states[k + 1]. */
  datatype History = History(states: seq<Run>, envs: seq<Env>, fxs: seq<Effects>)

  ghost predicate StepsAt(p: seq<PipelineStep>, h: History, k: nat)
    requires k < |h.envs| == |h.fxs| == |h.states| - 1
  {
    Step(p, h.states[k], h.envs[k], h.states[k + 1], h.fxs[k])
  }

  ghost predicate IsHistory(p: seq<PipelineStep>, h: History) {
    && |h.states| == |h.envs| + 1 == |h.fxs| + 1
    && h.states[0] == NewRun
    && (forall k | 0 <= k < |h.envs| :: StepsAt(p, h, k))
  }

  lemma {:induction false} ReachableInv(p: seq<PipelineStep>, h: History, k: nat)
    requires IsHistory(p, h) && k < |h.states|
    ensures Inv(p, h.states[k])
  {
    if k > 0 {
      ReachableInv(p, h, k - 1);
      assert StepsAt(p, h, k - 1);
      StepKeepsInv(p, h.states[k - 1], h.envs[k - 1], h.states[k], h.fxs[k - 1]);
    }
  }

  /** A step that has succeeded, failed or been skipped is never touched again. */
  lemma {:induction false} FinalStepsStay(p: seq<PipelineStep>, h: History, j: nat, k: nat, i: nat)
    requires IsHistory(p, h) && j <= k < |h.states|
    requires i < |h.states[j].steps| && Final(h.states[j].steps[i].phase)
    ensures i < |h.states[k].steps| && h.states[k].steps[i] == h.states[j].steps[i]
    decreases k - j
  {
    if j < k {
      ReachableInv(p, h, j);
      assert StepsAt(p, h, j);
      StepKeepsInv(p, h.states[j], h.envs[j], h.states[j + 1], h.fxs[j]);
      if h.states[j + 1] != h.states[j] {
        assert KeptAt(h.states[j].steps, h.states[j + 1].steps, i);
      }
      FinalStepsStay(p, h, j + 1, k, i);
    }
  }

  predicate DistinctRoles(p: seq<PipelineStep>) {
    forall i, j | 0 <= i < j < |p| :: p[i].role != p[j].role
  }

  predicate Started(s: Run, i: nat)
    requires i < |s.steps|
  {
    s.steps[i].phase != Pending && !(s.phase == Broken && s.steps[i].phase == Failed)
  }

  /** A started step's dependencies have all succeeded or been skipped, so they have started too. */
  lemma StartedIsDependencyClosed(p: seq<PipelineStep>, h: History, k: nat, i: nat)
    requires IsHistory(p, h) && k < |h.states| && DistinctRoles(p)
    requires i < |h.states[k].steps| && Started(h.states[k], i)
    ensures |h.states[k].steps| == |p|
    ensures forall d | d in p[i].dependsOn ::
              exists j | 0 <= j < |p| :: p[j].role == d && Done(h.states[k].steps[j].phase) && Started(h.states[k], j)
  {
    var s := h.states[k];
    ReachableInv(p, h, k);
    assert Justified(p, s.steps, s.phase == Broken, i);
    assert DepsDone(p, s.steps, p[i].dependsOn) by {
      var m :| 0 <= m < |p| && p[m].role == p[i].role && DepsDone(p, s.steps, p[m].dependsOn);
    }
    forall d | d in p[i].dependsOn
      ensures exists j | 0 <= j < |p| :: p[j].role == d && Done(s.steps[j].phase) && Started(s, j)
    {
      assert DepDone(p, s.steps, d);
      var j := Owner(p, d).value;
      assert p[j].role == d;
    }
  }

  /** Whenever a task is enqueued, persisted or not, the step's dependencies are done in the state the
      reconcile has worked out; once that is persisted, they are done there and ever after. */
  lemma SubmittedAfterDependencies(p: seq<PipelineStep>, h: History, k: nat, x: nat)
    requires IsHistory(p, h) && k < |h.fxs| && x < |h.fxs[k].sent|
    ensures var b, e, i := Begun(p, h.states[k]), h.envs[k], h.fxs[k].sent[x].step;
            && |b.steps| == |p| == |e.glances| && (forall id | id in e.waiting :: e.waiting[id] < |p|)
            && i < |p| && Backed(p, Passed(p, b, e).steps, i)
    ensures h.fxs[k].stored ==>
              var steps := h.states[k + 1].steps;
              |steps| == |p| && Backed(p, steps, h.fxs[k].sent[x].step)
  {
    ReachableInv(p, h, k);
    assert StepsAt(p, h, k);
    var s, e := h.states[k], h.envs[k];
    var b := Begun(p, s);
    var pass := Passed(p, b, e);
    SentAreBacked(p, Collected(p, b.steps, e.waiting, e.answers), e.glances, |p|, x);
    if h.fxs[k].stored {
      RollUpKeeps(pass.steps, e.lateAfter, e.overTokens);
      BackedStays(p, pass.steps, h.states[k + 1].steps, pass.sent[x].step);
    }
  }

  /* ---------- what can never start ---------- */

  /** Whichever entry speaks for one of the roles, it waits for one of them or for a step there is none of. */
  predicate BlockedEntry(p: seq<PipelineStep>, roles: set<string>, k: nat)
    requires k < |p|
  {
    exists d :: d in p[k].dependsOn && (d in roles || Owner(p, d).None?)
  }

  predicate Blocked(p: seq<PipelineStep>, roles: set<string>) {
    forall k | 0 <= k < |p| && p[k].role in roles :: BlockedEntry(p, roles, k)
  }

  predicate Idle(p: seq<PipelineStep>, steps: seq<Status>, roles: set<string>)
    requires |steps| == |p|
  {
    forall i | 0 <= i < |p| && p[i].role in roles :: steps[i].phase == Pending
  }

  lemma CollectStaysIdle(p: seq<PipelineStep>, steps: seq<Status>, w: map<string, nat>, answers: seq<Answer>, roles: set<string>)
    requires |steps| == |p| && Idle(p, steps, roles) && IsWaiting(p, steps, w) && AnswersOnce(answers)
    ensures Idle(p, Collected(p, steps, w, answers), roles)
  {
    forall i | 0 <= i < |p| && p[i].role in roles
      ensures Collected(p, steps, w, answers)[i].phase == Pending
    {
      CollectSettles(p, steps, w, answers, i);
    }
  }

  lemma {:induction false} SubmitStaysIdle(p: seq<PipelineStep>, steps: seq<Status>, gs: seq<Glance>, k: nat, roles: set<string>)
    requires |steps| == |p| == |gs| && k <= |p| && Blocked(p, roles) && Idle(p, steps, roles)
    ensures Idle(p, Submitted(p, steps, gs, k).steps, roles) && NoneOf(p, Submitted(p, steps, gs, k).sent, roles)
  {
    if k > 0 {
      SubmitStaysIdle(p, steps, gs, k - 1, roles);
      if Submitted(p, steps, gs, k - 1).ok {
        VisitStaysIdle(p, Submitted(p, steps, gs, k - 1), k - 1, gs[k - 1], roles);
      }
    }
  }

  lemma VisitStaysIdle(p: seq<PipelineStep>, before: Pass, k: nat, g: Glance, roles: set<string>)
    requires |before.steps| == |p| && k < |p| && Blocked(p, roles)
    requires Idle(p, before.steps, roles) && NoneOf(p, before.sent, roles)
    ensures var r := VisitAt(p, before, k, g);
            Idle(p, r.steps, roles) && NoneOf(p, r.sent, roles)
  {
    if p[k].role in roles {
      var o := Owner(p, p[k].role).value;
      assert before.steps[o].phase == Pending;
      assert before.steps[o := Recovered(before.steps[o])] == before.steps;
    }
  }

  predicate NoneOf(p: seq<PipelineStep>, sent: seq<Send>, roles: set<string>) {
    forall x | 0 <= x < |sent| :: sent[x].step < |p| && p[sent[x].step].role !in roles
  }

  /** Idle at every state but for the failures of a timed-out run. */
  ghost predicate IdleRun(p: seq<PipelineStep>, s: Run, roles: set<string>) {
    && (s.phase == Active || s.phase == Complete ==> |s.steps| == |p| && Idle(p, s.steps, roles))
    && (s.phase == Broken && |s.steps| == |p| ==>
          forall i | 0 <= i < |p| && p[i].role in roles :: s.steps[i].phase == Pending || s.steps[i].phase == Failed)
  }

  lemma StepStaysIdle(p: seq<PipelineStep>, s: Run, e: Env, s': Run, fx: Effects, roles: set<string>)
    requires Step(p, s, e, s', fx) && Blocked(p, roles) && IdleRun(p, s, roles)
    requires s.phase == Unstarted ==> s.steps == []
    ensures IdleRun(p, s', roles) && NoneOf(p, fx.sent, roles)
  {
    if !Terminal(s.phase) && !(s.phase == Unstarted && e.rejected) {
      AdvancedStaysIdle(p, Begun(p, s), e, roles);
    }
  }

  lemma AdvancedStaysIdle(p: seq<PipelineStep>, b: Run, e: Env, roles: set<string>)
    requires |b.steps| == |p| == |e.glances| && Blocked(p, roles) && Idle(p, b.steps, roles)
    requires IsWaiting(p, b.steps, e.waiting) && AnswersOnce(e.answers)
    ensures var o := Advanced(p, b, e);
            NoneOf(p, o.fx.sent, roles) && (o.Persisted? ==> IdleRun(p, o.run, roles))
  {
    if !e.lateBefore && !e.pollFails {
      CollectStaysIdle(p, b.steps, e.waiting, e.answers, roles);
      SubmitStaysIdle(p, Collected(p, b.steps, e.waiting, e.answers), e.glances, |p|, roles);
    }
  }

  /** No step on a dependency cycle, behind one, or behind an unknown step is ever enqueued. */
  lemma {:induction false} BlockedNeverSubmitted(p: seq<PipelineStep>, h: History, k: nat, roles: set<string>)
    requires IsHistory(p, h) && k < |h.states| && Blocked(p, roles)
    ensures IdleRun(p, h.states[k], roles)
    ensures k < |h.fxs| ==> NoneOf(p, h.fxs[k].sent, roles)
  {
    if k > 0 {
      BlockedNeverSubmitted(p, h, k - 1, roles);
      ReachableInv(p, h, k - 1);
      assert StepsAt(p, h, k - 1);
      StepStaysIdle(p, h.states[k - 1], h.envs[k - 1], h.states[k], h.fxs[k - 1], roles);
    }
    if k < |h.fxs| {
      ReachableInv(p, h, k);
      assert StepsAt(p, h, k);
      StepStaysIdle(p, h.states[k], h.envs[k], h.states[k + 1], h.fxs[k], roles);
    }
  }

  /* ---------- how often, and how it ends ---------- */

  /** Everything enqueued in a run, and how much of it by reconciles that were persisted. */
  function AllSent(fxs: seq<Effects>): seq<Send> {
    if fxs == [] then [] else AllSent(fxs[..|fxs| - 1]) + fxs[|fxs| - 1].sent
  }

  function StoredSent(fxs: seq<Effects>): seq<Send> {
    if fxs == [] then []
    else StoredSent(fxs[..|fxs| - 1]) + (if fxs[|fxs| - 1].stored then fxs[|fxs| - 1].sent else [])
  }

  function StoredResets(fxs: seq<Effects>): seq<nat> {
    if fxs == [] then []
    else StoredResets(fxs[..|fxs| - 1]) + (if fxs[|fxs| - 1].stored then fxs[|fxs| - 1].resets else [])
  }

  /** How often a step was enqueued by reconciles that were not persisted. */
  function LostSends(fxs: seq<Effects>, i: nat): nat {
    if fxs == [] then 0
    else LostSends(fxs[..|fxs| - 1], i) + (if fxs[|fxs| - 1].stored then 0 else CountSent(fxs[|fxs| - 1].sent, i))
  }

  lemma {:induction false} ReachableBooks(p: seq<PipelineStep>, h: History, k: nat)
    requires IsHistory(p, h) && k < |h.states|
    ensures BooksInv(p, h.states[k], StoredSent(h.fxs[..k]), StoredResets(h.fxs[..k]))
  {
    if k > 0 {
      ReachableBooks(p, h, k - 1);
      assert StepsAt(p, h, k - 1);
      assert h.fxs[..k][..k - 1] == h.fxs[..k - 1];
      StepKeepsBooks(p, h.states[k - 1], h.envs[k - 1], h.states[k], h.fxs[k - 1],
                     StoredSent(h.fxs[..k - 1]), StoredResets(h.fxs[..k - 1]));
      assert forall sent: seq<Send>, resets: seq<nat> :: sent + [] == sent && resets + [] == resets;
    }
  }

  lemma {:induction false} CountsAdd(a: seq<Send>, b: seq<Send>, i: nat)
    ensures CountSent(a + b, i) == CountSent(a, i) + CountSent(b, i)
  {
    if b == [] {
      assert a + b == a;
    } else {
      CountsAdd(a, b[..|b| - 1], i);
      assert (a + b)[..|a + b| - 1] == a + b[..|b| - 1];
    }
  }

  lemma {:induction false} SentExactly(fxs: seq<Effects>, i: nat)
    ensures CountSent(AllSent(fxs), i) == CountSent(StoredSent(fxs), i) + LostSends(fxs, i)
  {
    if fxs != [] {
      var n := |fxs| - 1;
      SentExactly(fxs[..n], i);
      CountsAdd(AllSent(fxs[..n]), fxs[n].sent, i);
      CountsAdd(StoredSent(fxs[..n]), fxs[n].sent, i);
      assert StoredSent(fxs[..n]) + [] == StoredSent(fxs[..n]);
    }
  }

  predicate LostAt(fx: Effects, i: nat) {
    !fx.stored && exists x | 0 <= x < |fx.sent| :: fx.sent[x].step == i
  }

  lemma {:induction false} CountIff(sent: seq<Send>, i: nat)
    ensures CountSent(sent, i) > 0 <==> exists x | 0 <= x < |sent| :: sent[x].step == i
  {
    if sent != [] {
      var n := |sent| - 1;
      CountIff(sent[..n], i);
      if x :| 0 <= x < |sent| && sent[x].step == i {
        assert x < n ==> sent[..n][x].step == i;
      }
    }
  }

  lemma {:induction false} LostIff(fxs: seq<Effects>, i: nat)
    ensures LostSends(fxs, i) > 0 <==> exists k | 0 <= k < |fxs| :: LostAt(fxs[k], i)
  {
    if fxs != [] {
      var n := |fxs| - 1;
      LostIff(fxs[..n], i);
      CountIff(fxs[n].sent, i);
      if k :| 0 <= k < |fxs| && LostAt(fxs[k], i) {
        assert k < n ==> LostAt(fxs[..n][k], i);
      }
    }
  }

  /** Over a whole run, a step's task is enqueued at most max(1, maxRetries) times, once when it is not
      retried, once more for each time its task id was lost, and once more each time by a reconcile that
      was not persisted. */
  lemma SubmissionsBounded(p: seq<PipelineStep>, h: History, i: nat)
    requires IsHistory(p, h) && i < |p|
    ensures CountSent(AllSent(h.fxs), i)
         <= Tries(RulesOf(p, p[i].role)) + CountResets(StoredResets(h.fxs), i) + LostSends(h.fxs, i)
  {
    ReachableBooks(p, h, |h.fxs|);
    assert h.fxs[..|h.fxs|] == h.fxs;
    assert WithinTries(p, StoredSent(h.fxs), StoredResets(h.fxs), i);
    SentExactly(h.fxs, i);
  }

  /** A step that is still open has been enqueued for each failed attempt, each lost task id and the task in
      flight, and again if and only if some reconcile that enqueued it was not persisted. */
  lemma EnqueuedAgainIff(p: seq<PipelineStep>, h: History, i: nat)
    requires IsHistory(p, h) && i < |p|
    requires var s := h.states[|h.fxs|]; i < |s.steps| && s.phase == Active && !Final(s.steps[i].phase)
    ensures var st := h.states[|h.fxs|].steps[i];
            var accounted := st.attempts + CountResets(StoredResets(h.fxs), i) + (if st.phase == Running then 1 else 0);
            && CountSent(AllSent(h.fxs), i) == accounted + LostSends(h.fxs, i)
            && (CountSent(AllSent(h.fxs), i) > accounted <==> exists k | 0 <= k < |h.fxs| :: LostAt(h.fxs[k], i))
  {
    var s := h.states[|h.fxs|];
    ReachableBooks(p, h, |h.fxs|);
    assert h.fxs[..|h.fxs|] == h.fxs;
    assert AccountedAt(p, s.steps, StoredSent(h.fxs), StoredResets(h.fxs), i);
    SentExactly(h.fxs, i);
    LostIff(h.fxs, i);
  }

  /** A run is recorded as complete only when every step has succeeded or been skipped. */
  lemma CompleteMeansDone(p: seq<PipelineStep>, h: History, k: nat, i: nat)
    requires IsHistory(p, h) && k < |h.states| && h.states[k].phase == Complete && i < |p|
    ensures |h.states[k].steps| == |p| && Done(h.states[k].steps[i].phase)
    ensures Owns(p, i) && Backed(p, h.states[k].steps, i)
  {
    ReachableInv(p, h, k);
    assert h.states[k].steps[i] in h.states[k].steps;
    assert Justified(p, h.states[k].steps, false, i);
  }

  /** A pipeline that names one role twice can never complete: one of the two is never visited. */
  lemma RepeatedRoleNeverCompletes(p: seq<PipelineStep>, h: History, k: nat, i: nat, j: nat)
    requires IsHistory(p, h) && k < |h.states| && i < j < |p| && p[i].role == p[j].role
    ensures h.states[k].phase != Complete
  {
    if h.states[k].phase == Complete {
      CompleteMeansDone(p, h, k, i);
      assert false;
    }
  }
}
