/** A pipeline run as persisted state, and one reconcile of it as a function of what the outside answers. */
module PipelineSpec {
  import opened Options

  datatype Phase = Pending | WarmingUp | Running | Succeeded | Failed | Skipped

  /** agent is the one the registry resolved, "" before. */
  datatype Status = Status(phase: Phase, taskID: string, agent: string, attempts: nat)

  datatype Validation = Validation(retry: bool, maxRetries: int)

  datatype PipelineStep = PipelineStep(
    role: string, dependsOn: seq<string>, conditional: bool, validation: Option<Validation>)

  datatype RunPhase = Unstarted | Active | Complete | Broken

  datatype Run = Run(phase: RunPhase, steps: seq<Status>)

  /** One task's result; valid is what output validation, where configured, makes of the output. */
  datatype Answer = Answer(taskID: string, error: string, valid: bool)

  /** The registry's answer: an agent, or none, and then whether the step was marked Failed. */
  datatype Lookup = Agent(name: string, byRegistry: bool) | NoAgent(marked: bool)

  /** What one visit of the submit loop is told; queue is None when the queue cannot be reached. */
  datatype Glance = Glance(
    truthy: bool, inputsOk: bool, lookup: Lookup, ready: bool, overBudget: bool, queue: Option<string>)

  datatype Env = Env(
    rejected: bool, lateBefore: bool,
    pollFails: bool, waiting: map<string, nat>, answers: seq<Answer>,
    glances: seq<Glance>,
    lateAfter: bool, overTokens: bool, writeFails: bool)

  datatype Send = Send(step: nat, taskID: string)

  /** What a reconcile did: tasks enqueued, steps taken back to Pending as lost, tasks cancelled; stored tells
      whether the state that goes with it was persisted. */
  datatype Effects = Effects(sent: seq<Send>, resets: seq<nat>, cancelled: seq<string>, stored: bool)

  const NoEffects := Effects([], [], [], true)

  predicate Done(phase: Phase) {
    phase == Succeeded || phase == Skipped
  }

  predicate Final(phase: Phase) {
    Done(phase) || phase == Failed
  }

  predicate Terminal(phase: RunPhase) {
    phase == Complete || phase == Broken
  }

  /* ---------- which status a role name stands for ---------- */

  /** Building the map by name, a later step takes the name over from an earlier one. */
  function Owner(p: seq<PipelineStep>, role: string): (r: Option<nat>)
    ensures r.Some? ==> r.value < |p| && p[r.value].role == role
    ensures r.Some? ==> forall k | r.value < k < |p| :: p[k].role != role
    ensures r.None? ==> forall k | 0 <= k < |p| :: p[k].role != role
  {
    if p == [] then None
    else if p[|p| - 1].role == role then Some(|p| - 1)
    else Owner(p[..|p| - 1], role)
  }

  predicate Owns(p: seq<PipelineStep>, i: nat)
    requires i < |p|
  {
    Owner(p, p[i].role) == Some(i)
  }

  predicate DepDone(p: seq<PipelineStep>, steps: seq<Status>, dep: string)
    requires |steps| == |p|
  {
    var o := Owner(p, dep);
    o.Some? && Done(steps[o.value].phase)
  }

  predicate DepsDone(p: seq<PipelineStep>, steps: seq<Status>, deps: seq<string>)
    requires |steps| == |p|
  {
    forall d | d in deps :: DepDone(p, steps, d)
  }

  /** The validation rules of a role: those of the last step of that role that has any. */
  function RulesOf(p: seq<PipelineStep>, role: string): Option<Validation> {
    if p == [] then None
    else if p[|p| - 1].role == role && p[|p| - 1].validation.Some? then p[|p| - 1].validation
    else RulesOf(p[..|p| - 1], role)
  }

  /* ---------- collecting results ---------- */

  predicate InFlight(st: Status) {
    st.phase == Running && st.taskID != ""
  }

  predicate Polled(p: seq<PipelineStep>, steps: seq<Status>, i: nat)
    requires |steps| == |p|
  {
    i < |p| && Owns(p, i) && InFlight(steps[i])
  }

  /** Each polled task id is mapped to one of the steps that wait for it. */
  ghost predicate IsWaiting(p: seq<PipelineStep>, steps: seq<Status>, w: map<string, nat>)
    requires |steps| == |p|
  {
    && (forall id | id in w :: Polled(p, steps, w[id]) && steps[w[id]].taskID == id)
    && (forall i: nat | Polled(p, steps, i) :: steps[i].taskID in w)
  }

  /** One attempt more; the step is open again, its task id cleared, exactly while attempts are left, and has
      failed otherwise. */
  function AfterFailedValidation(st: Status, v: Validation): (r: Status)
    ensures r.attempts == st.attempts + 1 && r.agent == st.agent
    ensures r.phase == Pending || r.phase == Failed
    ensures r.phase == Pending <==> v.retry && r.attempts < v.maxRetries
    ensures r.taskID == if r.phase == Pending then "" else st.taskID
  {
    var tried := st.(attempts := st.attempts + 1);
    if v.retry && tried.attempts < v.maxRetries then tried.(phase := Pending, taskID := "")
    else tried.(phase := Failed)
  }

  function Answered(st: Status, rules: Option<Validation>, a: Answer): Status {
    if a.error != "" then st.(phase := Failed)
    else if rules.Some? && !a.valid then AfterFailedValidation(st, rules.value)
    else st.(phase := Succeeded)
  }

  function Settle(p: seq<PipelineStep>, steps: seq<Status>, w: map<string, nat>, a: Answer): (r: seq<Status>)
    requires |steps| == |p| && forall id | id in w :: w[id] < |p|
    ensures |r| == |p|
  {
    if a.taskID !in w then steps
    else
      var i := w[a.taskID];
      steps[i := Answered(steps[i], RulesOf(p, p[i].role), a)]
  }

  function Collected(p: seq<PipelineStep>, steps: seq<Status>, w: map<string, nat>, answers: seq<Answer>)
    : (r: seq<Status>)
    requires |steps| == |p| && forall id | id in w :: w[id] < |p|
    ensures |r| == |p|
  {
    if answers == [] then steps
    else
      var n := |answers| - 1;
      Settle(p, Collected(p, steps, w, answers[..n]), w, answers[n])
  }

  /** A poll answers each task at most once. */
  predicate AnswersOnce(answers: seq<Answer>) {
    forall a, b | 0 <= a < b < |answers| :: answers[a].taskID != answers[b].taskID
  }

  /* ---------- submitting ---------- */

  datatype Visited = Visited(status: Status, sent: Option<string>, ok: bool)

  predicate Lost(st: Status) {
    st.phase == Running && st.taskID == ""
  }

  /** A step marked Running whose task id was never stored goes back to Pending. */
  function Recovered(st: Status): Status {
    if Lost(st) then st.(phase := Pending) else st
  }

  /** The condition, asked of a step that has not warmed up yet, holds, and the inputs can be resolved. */
  predicate Agreed(step: PipelineStep, st: Status, g: Glance) {
    (step.conditional && st.phase == Pending ==> g.truthy) && g.inputsOk
  }

  /** An agent is known or found, is ready, and the budget is not used up. */
  predicate Placed(st: Status, g: Glance) {
    (st.agent != "" || g.lookup.Agent?) && g.ready && !g.overBudget
  }

  /** The rest of a visit, for a recovered Pending or WarmingUp step whose dependencies are done: it is
      enqueued exactly when it is agreed and placed and its queue takes it, and then it is Running under the
      queue's id; nothing else touches the id, and nothing the number of attempts or a known agent. Inputs that
      cannot be resolved and a used-up budget fail it, and an agent that is not ready has it warm up. */
  function Visit(step: PipelineStep, st: Status, g: Glance): (r: Visited)
    ensures r.sent.Some? <==> Agreed(step, st, g) && Placed(st, g) && g.queue.Some?
    ensures !r.ok <==> Agreed(step, st, g) && Placed(st, g) && g.queue.None?
    ensures r.sent.Some? ==> r.status.phase == Running && r.sent == g.queue == Some(r.status.taskID)
    ensures r.sent.None? ==> r.status.taskID == st.taskID && (st.phase != Running ==> r.status.phase != Running)
    ensures r.status.attempts == st.attempts && (st.agent != "" ==> r.status.agent == st.agent)
    ensures st.phase != Skipped ==> (r.status.phase == Skipped <==> step.conditional && st.phase == Pending && !g.truthy)
    ensures r.status.phase != Skipped && !g.inputsOk ==> r.status.phase == Failed
    ensures Agreed(step, st, g) && st.agent == "" ==>
              match g.lookup
              case NoAgent(marked) => r.status == if marked then st.(phase := Failed) else st
              case Agent(name, byRegistry) => r.status.agent == if byRegistry then name else ""
    ensures Agreed(step, st, g) && (st.agent != "" || g.lookup.Agent?) ==>
              && (!g.ready ==> r.status.phase == WarmingUp)
              && (g.ready && g.overBudget ==> r.status.phase == Failed)
              && (!r.ok ==> r.status.phase == st.phase)
  {
    if step.conditional && st.phase == Pending && !g.truthy then Visited(st.(phase := Skipped), None, true)
    else if !g.inputsOk then Visited(st.(phase := Failed), None, true)
    else if st.agent == "" && g.lookup.NoAgent? then
      Visited(if g.lookup.marked then st.(phase := Failed) else st, None, true)
    else
      var found := if st.agent == "" && g.lookup.byRegistry then st.(agent := g.lookup.name) else st;
      if !g.ready then Visited(found.(phase := WarmingUp), None, true)
      else if g.overBudget then Visited(found.(phase := Failed), None, true)
      else if g.queue.None? then Visited(found, None, false)
      else Visited(found.(phase := Running, taskID := g.queue.value), g.queue, true)
  }

  datatype Pass = Pass(steps: seq<Status>, sent: seq<Send>, resets: seq<nat>, ok: bool)

  predicate Visitable(p: seq<PipelineStep>, steps: seq<Status>, k: nat, i: nat)
    requires |steps| == |p| && k < |p| && i < |p|
  {
    (steps[i].phase == Pending || steps[i].phase == WarmingUp) && DepsDone(p, steps, p[k].dependsOn)
  }

  /** Entry k of the pipeline visits the status its role name stands for. */
  function VisitAt(p: seq<PipelineStep>, before: Pass, k: nat, g: Glance): (r: Pass)
    requires |before.steps| == |p| && k < |p|
    ensures |r.steps| == |p|
  {
    var i := Owner(p, p[k].role).value;
    var st := Recovered(before.steps[i]);
    var steps := before.steps[i := st];
    var resets := if Lost(before.steps[i]) then before.resets + [i] else before.resets;
    if !Visitable(p, steps, k, i) then Pass(steps, before.sent, resets, true)
    else
      var v := Visit(p[k], st, g);
      Pass(steps[i := v.status],
           if v.sent.Some? then before.sent + [Send(i, v.sent.value)] else before.sent, resets, v.ok)
  }

  /** The submit loop after its first k entries; it ends at the first queue error. */
  function Submitted(p: seq<PipelineStep>, steps: seq<Status>, gs: seq<Glance>, k: nat): (r: Pass)
    requires |steps| == |p| == |gs| && k <= |p|
    ensures |r.steps| == |p|
  {
    if k == 0 then Pass(steps, [], [], true)
    else
      var before := Submitted(p, steps, gs, k - 1);
      if before.ok then VisitAt(p, before, k - 1, gs[k - 1]) else before
  }

  /* ---------- timeout, roll-up, cancelling ---------- */

  /** A timeout fails what is Running or Pending. */
  function TimedOut(st: Status): Status {
    if st.phase == Running || st.phase == Pending then st.(phase := Failed) else st
  }

  function AllTimedOut(steps: seq<Status>): seq<Status> {
    seq(|steps|, i requires 0 <= i < |steps| => TimedOut(steps[i]))
  }

  predicate AnyFailed(steps: seq<Status>) {
    exists st :: st in steps && st.phase == Failed
  }

  predicate AllDone(steps: seq<Status>) {
    forall st | st in steps :: Done(st.phase)
  }

  function RolledUp(steps: seq<Status>, late: bool, overTokens: bool): Run {
    if late then Run(Broken, AllTimedOut(steps))
    else if overTokens then Run(Broken, steps)
    else if steps == [] then Run(Active, steps)
    else if AnyFailed(steps) then Run(Broken, steps)
    else if AllDone(steps) then Run(Complete, steps)
    else Run(Active, steps)
  }

  function Cancelled(steps: seq<Status>): seq<string> {
    if steps == [] then []
    else
      var st := steps[|steps| - 1];
      Cancelled(steps[..|steps| - 1])
      + (if st.taskID != "" && !Final(st.phase) then [st.taskID] else [])
  }

  /* ---------- one reconcile ---------- */

  function Fresh(p: seq<PipelineStep>): seq<Status> {
    seq(|p|, i => Status(Pending, "", "", 0))
  }

  function Begun(p: seq<PipelineStep>, s: Run): (r: Run)
    ensures s.phase == Unstarted ==> |r.steps| == |p| && forall st | st in r.steps :: st == Status(Pending, "", "", 0)
    ensures s.phase != Unstarted ==> r == s
    ensures !Terminal(r.phase) ==> r.phase == Active
  {
    if s.phase == Unstarted then Run(Active, Fresh(p)) else s
  }

  const NewRun := Run(Unstarted, [])

  predicate Sized(p: seq<PipelineStep>, s: Run) {
    s.phase == Active ==> |s.steps| == |p|
  }

  ghost predicate EnvFits(p: seq<PipelineStep>, s: Run, e: Env)
    requires Sized(p, s)
  {
    && |e.glances| == |p|
    && (!Terminal(s.phase) ==> IsWaiting(p, Begun(p, s).steps, e.waiting))
    && AnswersOnce(e.answers)
  }

  datatype Outcome = Persisted(run: Run, fx: Effects) | Aborted(fx: Effects)

  function Passed(p: seq<PipelineStep>, b: Run, e: Env): Pass
    requires |b.steps| == |p| == |e.glances|
    requires forall id | id in e.waiting :: e.waiting[id] < |p|
  {
    Submitted(p, Collected(p, b.steps, e.waiting, e.answers), e.glances, |p|)
  }

  /** From the started run on: collect, submit, roll up. An error anywhere leaves nothing to persist. */
  function Advanced(p: seq<PipelineStep>, b: Run, e: Env): Outcome
    requires |b.steps| == |p| == |e.glances|
    requires forall id | id in e.waiting :: e.waiting[id] < |p|
  {
    if e.lateBefore then
      Persisted(Run(Broken, AllTimedOut(b.steps)), Effects([], [], Cancelled(AllTimedOut(b.steps)), true))
    else if e.pollFails then Aborted(Effects([], [], [], false))
    else
      var pass := Passed(p, b, e);
      if !pass.ok then Aborted(Effects(pass.sent, pass.resets, [], false))
      else
        var run := RolledUp(pass.steps, e.lateAfter, e.overTokens);
        Persisted(run, Effects(pass.sent, pass.resets, if Terminal(run.phase) then Cancelled(run.steps) else [], true))
  }

  function Reconciled(p: seq<PipelineStep>, s: Run, e: Env): Outcome
    requires Sized(p, s) && |e.glances| == |p|
    requires forall id | id in e.waiting :: e.waiting[id] < |p|
  {
    if Terminal(s.phase) then Persisted(s, NoEffects)
    else if s.phase == Unstarted && e.rejected then Persisted(Run(Broken, s.steps), NoEffects)
    else Advanced(p, Begun(p, s), e)
  }

  /** One reconcile leads from s to s', doing fx outside; an aborted one, or one whose status write fails,
      leaves the persisted run alone but has done all the same what it did outside. */
  ghost predicate Step(p: seq<PipelineStep>, s: Run, e: Env, s': Run, fx: Effects) {
    && Sized(p, s) && EnvFits(p, s, e)
    && (Terminal(s.phase) ==> s' == s && fx == NoEffects)
    && (!Terminal(s.phase) ==>
          var o := Reconciled(p, s, e);
          if e.writeFails || o.Aborted? then s' == s && fx == o.fx.(stored := false)
          else s' == o.run && fx == o.fx.(stored := true))
  }
}
