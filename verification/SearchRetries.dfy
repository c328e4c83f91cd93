/** What is done more than once: planner calls and submissions of reconciles that abort or whose status write fails. */
module SearchRetries {
  import opened Options
  import opened SearchSpec
  import opened SearchStages
  import opened SearchInvariants
  import opened SearchRuns

  /* ---------- planner calls ---------- */

  function PlannerCalls(fxs: seq<Effects>): nat {
    if fxs == [] then 0 else PlannerCalls(fxs[..|fxs| - 1]) + (if fxs[|fxs| - 1].planned then 1 else 0)
  }

  /** The calls of reconciles whose outcome was not persisted. */
  function LostCalls(fxs: seq<Effects>): nat {
    if fxs == [] then 0
    else LostCalls(fxs[..|fxs| - 1]) + (if fxs[|fxs| - 1].planned && !fxs[|fxs| - 1].stored then 1 else 0)
  }

  /** Did a persisted planner call end the search? */
  predicate EndedByPlanner(h: History)
    requires |h.states| > 0
  {
    Terminal(h.states[|h.states| - 1]) && h.fxs != [] && h.fxs[|h.fxs| - 1].planned
  }

  /** Every planner call counted an iteration, ended the search, or was lost with its reconcile. */
  lemma {:induction false} PlannerCallsExactly(cfg: Config, h: History)
    requires IsHistory(cfg, h)
    ensures PlannerCalls(h.fxs) == Current(cfg, h.states[|h.states| - 1]).iterations
                                   + (if EndedByPlanner(h) then 1 else 0) + LostCalls(h.fxs)
    decreases |h.states|
  {
    var n := |h.envs|;
    if n > 0 {
      PrefixIsHistory(cfg, h, n - 1);
      PlannerCallsExactly(cfg, Prefix(h, n - 1));
      StepAt(cfg, h, n - 1);
      assert StepsAt(cfg, h, n - 1);
    }
  }

  /** With a limit, the calls beyond it are lost ones: there are more than the limit only if more were lost
      than iterations are left. */
  lemma {:induction false} PlannerCallsBounded(cfg: Config, h: History)
    requires IsHistory(cfg, h) && cfg.maxIterations > 0
    ensures PlannerCalls(h.fxs) <= cfg.maxIterations + LostCalls(h.fxs)
    decreases |h.states|
  {
    var n := |h.envs|;
    if n > 0 {
      PrefixIsHistory(cfg, h, n - 1);
      PlannerCallsBounded(cfg, Prefix(h, n - 1));
      PlannerCallsExactly(cfg, Prefix(h, n - 1));
      StepAt(cfg, h, n - 1);
      assert StepsAt(cfg, h, n - 1);
      StepAttempts(cfg, h.states[n - 1], h.envs[n - 1], h.states[n], h.fxs[n - 1]);
    }
  }

  /* ---------- submissions ---------- */

  /** How often node id was enqueued. */
  function Enqueues(fxs: seq<Effects>, id: int): nat {
    if fxs == [] then 0 else Enqueues(fxs[..|fxs| - 1], id) + (if id in fxs[|fxs| - 1].submitted then 1 else 0)
  }

  /** How often by reconciles whose outcome was not persisted. */
  function LostEnqueues(fxs: seq<Effects>, id: int): nat {
    if fxs == [] then 0
    else
      LostEnqueues(fxs[..|fxs| - 1], id)
      + (if id in fxs[|fxs| - 1].submitted && !fxs[|fxs| - 1].stored then 1 else 0)
  }

  predicate Left(nodes: seq<Node>, id: int) {
    0 <= id < |nodes| && nodes[id].phase != Pending
  }

  lemma StepLeaves(cfg: Config, s: Run, e: Env, s': Run, fx: Effects, id: int)
    requires Inv(cfg, s) && Step(cfg, s, e, s', fx)
    ensures var a, b := Current(cfg, s).nodes, Current(cfg, s').nodes;
            && (if fx.stored then Left(b, id) <==> Left(a, id) || id in fx.submitted else b == a)
            && (Left(a, id) ==> id !in fx.submitted)
  {
    StepKeepsInv(cfg, s, e, s', fx);
    StepAttempts(cfg, s, e, s', fx);
    var a, b := Current(cfg, s).nodes, Current(cfg, s').nodes;
    if Left(a, id) {
      assert Advances(a[id], b[id]);
    }
  }

  /** A node is enqueued once if the persisted tree shows it submitted, and once more for each reconcile
      that enqueued it and was not persisted. */
  lemma {:induction false} EnqueuedExactly(cfg: Config, h: History, id: int)
    requires IsHistory(cfg, h)
    ensures Enqueues(h.fxs, id)
         == (if Left(NodesAt(cfg, h, |h.states| - 1), id) then 1 else 0) + LostEnqueues(h.fxs, id)
    decreases |h.states|
  {
    var n := |h.envs|;
    if n > 0 {
      PrefixIsHistory(cfg, h, n - 1);
      EnqueuedExactly(cfg, Prefix(h, n - 1), id);
      ReachableInv(cfg, h, n - 1);
      assert StepsAt(cfg, h, n - 1);
      StepLeaves(cfg, h.states[n - 1], h.envs[n - 1], h.states[n], h.fxs[n - 1], id);
    }
  }

  predicate LostAt(h: History, k: nat, id: int)
    requires k < |h.fxs|
  {
    id in h.fxs[k].submitted && !h.fxs[k].stored
  }

  lemma {:induction false} LostIff(fxs: seq<Effects>, id: int)
    ensures LostEnqueues(fxs, id) > 0 <==> exists k | 0 <= k < |fxs| :: id in fxs[k].submitted && !fxs[k].stored
  {
    if fxs != [] {
      var n := |fxs| - 1;
      LostIff(fxs[..n], id);
      if k :| 0 <= k < |fxs| && id in fxs[k].submitted && !fxs[k].stored {
        assert k < n ==> fxs[..n][k] == fxs[k];
      }
    }
  }

  /** A submitted node was enqueued more than once if and only if some reconcile that enqueued it was not
      persisted. */
  lemma EnqueuedAgainIff(cfg: Config, h: History, id: int)
    requires IsHistory(cfg, h) && Left(NodesAt(cfg, h, |h.states| - 1), id)
    ensures Enqueues(h.fxs, id) > 1 <==> exists k | 0 <= k < |h.fxs| :: LostAt(h, k, id)
  {
    EnqueuedExactly(cfg, h, id);
    LostIff(h.fxs, id);
    if k :| 0 <= k < |h.fxs| && id in h.fxs[k].submitted && !h.fxs[k].stored {
      assert LostAt(h, k, id);
    }
  }

  /** Over all persisted reconciles of a run, no node is submitted twice. */
  lemma SubmittedAtMostOnce(cfg: Config, h: History, j: nat, k: nat, id: int)
    requires IsHistory(cfg, h) && j < k < |h.fxs| && h.fxs[j].stored
    requires id in h.fxs[j].submitted
    ensures id !in h.fxs[k].submitted
  {
    LeavesAt(cfg, h, j, id);
    LeavesAt(cfg, h, k, id);
    LeftStays(cfg, h, j + 1, k, id);
  }

  lemma LeavesAt(cfg: Config, h: History, k: nat, id: int)
    requires IsHistory(cfg, h) && k < |h.fxs|
    ensures h.fxs[k].stored && id in h.fxs[k].submitted ==> Left(NodesAt(cfg, h, k + 1), id)
    ensures Left(NodesAt(cfg, h, k), id) ==> id !in h.fxs[k].submitted
  {
    ReachableInv(cfg, h, k);
    assert StepsAt(cfg, h, k);
    StepLeaves(cfg, h.states[k], h.envs[k], h.states[k + 1], h.fxs[k], id);
  }

  lemma LeftStays(cfg: Config, h: History, j: nat, k: nat, id: int)
    requires IsHistory(cfg, h) && j <= k < |h.states| && Left(NodesAt(cfg, h, j), id)
    ensures Left(NodesAt(cfg, h, k), id)
  {
    PhasesNeverFall(cfg, h, j, k);
    assert Advances(NodesAt(cfg, h, j)[id], NodesAt(cfg, h, k)[id]);
  }

  /* ---------- no bound on what is lost ---------- */

  const Plain := Config(BFS, false, "go", None, 0, 0, 1, 0, 0, None)

  /** The queue takes the root; fails says whether the status write then fails. */
  function Start(fails: bool): Env {
    Env(false, fails, [], [], ["t"], PlannerError, 0, [], false, false)
  }

  /** The root is answered and the planner fails, which would end the search. */
  function Fall(fails: bool): Env {
    Env(false, fails, [Answer("t", "", "done", None)], [], [], PlannerError, 0, [], false, false)
  }

  function Started(): Run {
    Run(RunRunning, Some(Tree([InitTree("go").nodes[0].(phase := Running, taskID := "t")], 0, None, None)), "")
  }

  function Repeat<T>(x: T, n: nat): seq<T> {
    seq(n, _ => x)
  }

  lemma StartStep(fails: bool)
    ensures Step(Plain, NewRun(), Start(fails), if fails then NewRun() else Started(), Effects([0], [], false, !fails))
  {
    var nodes := InitTree("go").nodes;
    assert CountRunning(nodes) == CountRunning(nodes[..0]) + 0;
    var next := nodes[0 := nodes[0].(phase := Running, taskID := "t")];
    assert next == Started().tree.value.nodes && next[0].phase == Running;
    assert SubmitFrom(next, 1, 1, 3, ["t"], [0]) == Submitted(next, [0]);
    assert SubmitFrom(nodes, 0, 0, 3, ["t"], []) == Submitted(next, [0]);
    assert Gathered(Plain, nodes, Start(fails)) == nodes;
    assert StepVia(Plain, NewRun(), Start(fails), if fails then NewRun() else Started(), Effects([0], [], false, !fails), nodes);
  }

  /** The root of a search can be enqueued any number of times before its submission is persisted. */
  lemma RootEnqueuedAgain(n: nat)
    ensures var h := History(Repeat(NewRun(), n + 1), Repeat(Start(true), n), Repeat(Effects([0], [], false, false), n));
            IsHistory(Plain, h) && Enqueues(h.fxs, 0) == n
  {
    var h := History(Repeat(NewRun(), n + 1), Repeat(Start(true), n), Repeat(Effects([0], [], false, false), n));
    forall k | 0 <= k < n
      ensures StepsAt(Plain, h, k)
    {
      StartStep(true);
    }
    RepeatedEnqueues(n);
  }

  lemma {:induction false} RepeatedEnqueues(n: nat)
    ensures Enqueues(Repeat(Effects([0], [], false, false), n), 0) == n
  {
    if n > 0 {
      var fx := Effects([0], [], false, false);
      RepeatedEnqueues(n - 1);
      assert Repeat(fx, n)[..n - 1] == Repeat(fx, n - 1);
    }
  }

  lemma FallStep()
    ensures Step(Plain, Started(), Fall(true), Started(), Effects([], [], true, false))
  {
    var nodes := Started().tree.value.nodes;
    var e := Fall(true);
    assert nodes[..0] == [] && e.answers[..0] == [];
    assert Owner(Executor, nodes, "t") == Some(0);
    var after := Gathered(Plain, nodes, e);
    assert CollectFrom(Executor, nodes, nodes, e.answers[..0]) == nodes;
    assert |after| == 1 && after[0].phase == Scored;
    assert CountRunning(after) == CountRunning(after[..0]) + 0;
    assert SubmitFrom(after, 1, 0, 3, [], []) == Submitted(after, []);
    var t := Started().tree.value.(nodes := after);
    assert Convergence(Plain, t).None?;
    assert !HasRunning(after);
    assert t.(nodes := after) == t;
    assert Proceed(Plain, Started(), t, e) == Plan(Plain, Started(), t, e, []);
    assert StepVia(Plain, Started(), e, Started(), Effects([], [], true, false), after);
  }

  /** With a limit of one iteration, the planner can still be asked any number of times. */
  lemma PlannerAskedAgain(n: nat)
    ensures var h := History([NewRun()] + Repeat(Started(), n + 1), [Start(false)] + Repeat(Fall(true), n),
                             [Effects([0], [], false, true)] + Repeat(Effects([], [], true, false), n));
            IsHistory(Plain, h) && Plain.maxIterations == 1 && PlannerCalls(h.fxs) == n
            && Current(Plain, h.states[n + 1]).iterations == 0
  {
    var h := History([NewRun()] + Repeat(Started(), n + 1), [Start(false)] + Repeat(Fall(true), n),
                     [Effects([0], [], false, true)] + Repeat(Effects([], [], true, false), n));
    StartStep(false);
    FallStep();
    forall k | 0 <= k < n + 1
      ensures StepsAt(Plain, h, k)
    {
    }
    RepeatedCalls(n);
  }

  lemma {:induction false} RepeatedCalls(n: nat)
    ensures PlannerCalls([Effects([0], [], false, true)] + Repeat(Effects([], [], true, false), n)) == n
  {
    var first, fx := Effects([0], [], false, true), Effects([], [], true, false);
    var fxs := [first] + Repeat(fx, n);
    if n == 0 {
      assert fxs[..0] == [];
    } else {
      RepeatedCalls(n - 1);
      assert fxs[..n] == [first] + Repeat(fx, n - 1);
    }
  }
}
