/** The search orchestration of a team run on values: its data, and what each operation of one reconcile computes. */
module SearchSpec {
  import opened Options

  /* ---------- data ---------- */

  datatype Phase = Pending | Running | Scored | Pruned | EvalFailed | Solution

  datatype Node = Node(
    id: int,
    parentID: Option<int>,
    depth: int,
    task: string,
    output: string,
    scoreMillis: Option<int>,
    phase: Phase,
    taskID: string)

  datatype Reason =
    | MinScoreReached | MaxDepthReached | MaxNodesReached | MaxIterationsReached
    | PlannerConverged | PlannerFailure

  datatype Tree = Tree(nodes: seq<Node>, iterations: int, solution: Option<int>, reason: Option<Reason>)

  datatype RunPhase = RunPending | RunRunning | RunSucceeded | RunFailed

  /** The part of a run's status the search persists; tree is absent before the first reconcile. */
  datatype Run = Run(phase: RunPhase, tree: Option<Tree>, output: string)

  datatype Strategy = BFS | BeamSearch

  datatype Config = Config(
    strategy: Strategy,
    hasEvaluator: bool,
    rootPrompt: string,
    minScorePercent: Option<int>,
    maxDepth: int,
    maxNodes: int,
    maxIterations: int,
    maxParallel: int,
    beamWidth: int,
    maxOutputBytes: Option<int>)

  /** A planner directive; kind is free text, as in the planner's JSON. */
  datatype Action = Action(
    kind: string,
    parentNode: Option<int>,
    node: Option<int>,
    task: Option<string>,
    scoreMillis: Option<int>)

  /** A finished queue task. score is the parsed evaluator output, absent when it does not parse. */
  datatype Answer = Answer(taskID: string, error: string, output: string, score: Option<int>)

  datatype PlannerReply = PlannerError | Actions(actions: seq<Action>)

  /** Everything one reconcile learns from outside.
      queueDown and queueLost tell that the executor queue cannot be opened, before the
      planner is asked and after. taskIDs[i] is what the queue answers to a submission of node i; "" (or no
      entry) is an error of the queue. spare and growth describe the backing
      array of the node slice when a batch is applied: spare is its unused
      capacity, growth[n] the unused capacity left after it is reallocated to
      take one more element than n (none when absent). */
  datatype Env = Env(
    timedOut: bool,
    updateFails: bool,
    answers: seq<Answer>,
    evaluations: seq<Answer>,
    taskIDs: seq<string>,
    planner: PlannerReply,
    spare: nat,
    growth: seq<nat>,
    queueDown: bool,
    queueLost: bool)

  /** What a reconcile did to the outside world; stored tells whether the state that goes with it was persisted. */
  datatype Effects = Effects(submitted: seq<int>, cancelled: seq<string>, planned: bool, stored: bool)

  const NoEffects := Effects([], [], false, true)

  const MaxNodesCap := 200
  const Expand := "expand"
  const Prune := "prune"
  const Converge := "converge"

  function MaxParallel(cfg: Config): int {
    if cfg.maxParallel <= 0 then 3 else cfg.maxParallel
  }

  function NodeLimit(cfg: Config): int {
    if cfg.maxNodes <= 0 then 50 else cfg.maxNodes
  }

  /** The limit a batch runs under: never more than the hard cap. */
  function BatchLimit(limit: int): int {
    if limit <= 0 || limit > MaxNodesCap then MaxNodesCap else limit
  }

  function BeamWidth(cfg: Config): int {
    if cfg.beamWidth <= 0 then 3 else cfg.beamWidth
  }

  function MaxOutputBytes(cfg: Config): int {
    match cfg.maxOutputBytes case None => 4096 case Some(n) => n
  }

  function Terminal(s: Run): bool {
    s.phase == RunSucceeded || s.phase == RunFailed
  }

  /* ---------- the tree a reconcile starts from ---------- */

  function InitTree(rootPrompt: string): Tree {
    Tree([Node(0, None, 0, rootPrompt, "", None, Pending, "")], 0, None, None)
  }

  function NewRun(): Run {
    Run(RunPending, None, "")
  }

  function Current(cfg: Config, s: Run): Tree {
    match s.tree case None => InitTree(cfg.rootPrompt) case Some(t) => t
  }

  /* ---------- collecting results ---------- */

  datatype Queue = Executor | Evaluator

  /** The nodes whose task is polled on a queue. */
  predicate Awaits(q: Queue, n: Node) {
    n.taskID != "" &&
    match q
    case Executor => n.phase == Running
    case Evaluator => n.phase == Scored && n.output != "" && n.scoreMillis.None?
  }

  /** The node that waits for task t; the last one, should several share the id. */
  function Owner(q: Queue, nodes: seq<Node>, t: string): (o: Option<nat>)
    ensures o.Some? ==> o.value < |nodes| && Awaits(q, nodes[o.value]) && nodes[o.value].taskID == t
    ensures o.Some? ==> forall i | o.value < i < |nodes| :: Awaits(q, nodes[i]) ==> nodes[i].taskID != t
    ensures o.None? ==> forall i | 0 <= i < |nodes| :: Awaits(q, nodes[i]) ==> nodes[i].taskID != t
  {
    if nodes == [] then None
    else
      var k := |nodes| - 1;
      if Awaits(q, nodes[k]) && nodes[k].taskID == t then Some(k) else Owner(q, nodes[..k], t)
  }

  function Answered(q: Queue, n: Node, r: Answer): Node {
    match q
    case Executor =>
      if r.error != "" then n.(phase := EvalFailed, output := r.error, taskID := "")
      else n.(phase := Scored, output := r.output, taskID := "")
    case Evaluator =>
      if r.error != "" || r.score.None? then n.(phase := EvalFailed, taskID := "")
      else n.(phase := Scored, scoreMillis := r.score, taskID := "")
  }

  /** Applies answers in order to cur; who waits for what was settled on orig. */
  function CollectFrom(q: Queue, orig: seq<Node>, cur: seq<Node>, answers: seq<Answer>): (r: seq<Node>)
    requires |orig| == |cur|
    ensures |r| == |cur|
    decreases |answers|
  {
    if answers == [] then cur
    else
      var last := answers[|answers| - 1];
      var before := CollectFrom(q, orig, cur, answers[..|answers| - 1]);
      match Owner(q, orig, last.taskID)
      case None => before
      case Some(i) => before[i := Answered(q, before[i], last)]
  }

  function Collect(q: Queue, nodes: seq<Node>, answers: seq<Answer>): (r: seq<Node>)
    ensures |r| == |nodes|
  {
    CollectFrom(q, nodes, nodes, answers)
  }

  predicate IsFor(q: Queue, nodes: seq<Node>, a: Answer, i: nat) {
    Owner(q, nodes, a.taskID) == Some(i)
  }

  /** A node a task of its own is awaited for: on the executor queue one that runs, on the evaluator's one with
      an output and no score. */
  predicate HoldsTask(q: Queue, n: Node, t: string) {
    n.taskID == t && t != "" && if q == Executor then n.phase == Running else n.phase == Scored && n.output != "" && n.scoreMillis.None?
  }

  /** An answer is for the last node that holds its task, if any does. */
  lemma IsForTheLast(q: Queue, nodes: seq<Node>, a: Answer, i: nat)
    ensures IsFor(q, nodes, a, i)
        <==> i < |nodes| && HoldsTask(q, nodes[i], a.taskID) && forall j | i < j < |nodes| :: !HoldsTask(q, nodes[j], a.taskID)
  {
    assert forall j | 0 <= j < |nodes| :: HoldsTask(q, nodes[j], a.taskID) <==> Awaits(q, nodes[j]) && nodes[j].taskID == a.taskID;
  }

  /** What an answer makes of the node it is for. A task's error fails the node and is its output; otherwise it
      is scored, with the task's output or the evaluator's score, which must parse. */
  predicate SettledBy(q: Queue, a: Answer, n: Node, m: Node) {
    match q
    case Executor =>
      && m == n.(phase := m.phase, output := m.output, taskID := "")
      && (a.error != "" ==> m.phase == EvalFailed && m.output == a.error)
      && (a.error == "" ==> m.phase == Scored && m.output == a.output)
    case Evaluator =>
      && m == n.(phase := m.phase, scoreMillis := m.scoreMillis, taskID := "")
      && (a.error != "" || a.score.None? ==> m.phase == EvalFailed)
      && (a.error == "" && a.score.Some? ==> m.phase == Scored && m.scoreMillis == a.score)
  }

  predicate LastFor(q: Queue, nodes: seq<Node>, answers: seq<Answer>, k: nat, i: nat) {
    k < |answers| && IsFor(q, nodes, answers[k], i) && forall l | k < l < |answers| :: !IsFor(q, nodes, answers[l], i)
  }

  predicate NoneFor(q: Queue, nodes: seq<Node>, answers: seq<Answer>, i: nat) {
    forall k | 0 <= k < |answers| :: !IsFor(q, nodes, answers[k], i)
  }

  /** What a poll leaves of node i. */
  ghost predicate Settled(q: Queue, nodes: seq<Node>, answers: seq<Answer>, r: seq<Node>, i: nat)
    requires i < |nodes| == |r|
  {
    && (forall k: nat | LastFor(q, nodes, answers, k, i) :: SettledBy(q, answers[k], nodes[i], r[i]))
    && (NoneFor(q, nodes, answers, i) ==> r[i] == nodes[i])
  }

  predicate TouchedOnly(q: Queue, n: Node, m: Node) {
    match q
    case Executor => m == n.(phase := m.phase, output := m.output, taskID := m.taskID)
    case Evaluator => m == n.(phase := m.phase, scoreMillis := m.scoreMillis, taskID := m.taskID)
  }

  /** A node a task is awaited for is settled by the last answer to it, and no other node is touched. */
  lemma {:induction false} CollectSettles(q: Queue, nodes: seq<Node>, answers: seq<Answer>, i: nat)
    requires i < |nodes|
    ensures var r := Collect(q, nodes, answers);
            Settled(q, nodes, answers, r, i) && TouchedOnly(q, nodes[i], r[i])
    decreases |answers|
  {
    if answers != [] {
      var n := |answers| - 1;
      CollectSettles(q, nodes, answers[..n], i);
      var before, r := Collect(q, nodes, answers[..n]), Collect(q, nodes, answers);
      if IsFor(q, nodes, answers[n], i) {
        AnsweredIsSettled(q, answers[n], nodes[i], before[i]);
        LastDecides(q, nodes, answers, r, i);
      } else {
        OthersDecide(q, nodes, answers, r, i);
      }
    }
  }

  lemma AnsweredIsSettled(q: Queue, a: Answer, n: Node, m: Node)
    requires TouchedOnly(q, n, m)
    ensures SettledBy(q, a, n, Answered(q, m, a)) && TouchedOnly(q, n, Answered(q, m, a))
  {
  }

  lemma LastDecides(q: Queue, nodes: seq<Node>, answers: seq<Answer>, r: seq<Node>, i: nat)
    requires i < |nodes| == |r| && answers != [] && IsFor(q, nodes, answers[|answers| - 1], i)
    requires SettledBy(q, answers[|answers| - 1], nodes[i], r[i])
    ensures Settled(q, nodes, answers, r, i)
  {
    forall k: nat | LastFor(q, nodes, answers, k, i)
      ensures k == |answers| - 1
    {
    }
  }

  lemma OthersDecide(q: Queue, nodes: seq<Node>, answers: seq<Answer>, r: seq<Node>, i: nat)
    requires i < |nodes| == |r| && answers != [] && !IsFor(q, nodes, answers[|answers| - 1], i)
    requires Settled(q, nodes, answers[..|answers| - 1], r, i)
    ensures Settled(q, nodes, answers, r, i)
  {
    forall k: nat | LastFor(q, nodes, answers, k, i)
      ensures SettledBy(q, answers[k], nodes[i], r[i])
    {
      LastForShorter(q, nodes, answers, k, i);
    }
    if NoneFor(q, nodes, answers, i) {
      NoneForShorter(q, nodes, answers, i);
    }
  }

  lemma LastForShorter(q: Queue, nodes: seq<Node>, answers: seq<Answer>, k: nat, i: nat)
    requires LastFor(q, nodes, answers, k, i) && !IsFor(q, nodes, answers[|answers| - 1], i)
    ensures k < |answers| - 1 && LastFor(q, nodes, answers[..|answers| - 1], k, i)
  {
    var shorter := answers[..|answers| - 1];
    assert forall l | 0 <= l < |shorter| :: shorter[l] == answers[l];
  }

  lemma NoneForShorter(q: Queue, nodes: seq<Node>, answers: seq<Answer>, i: nat)
    requires answers != [] && NoneFor(q, nodes, answers, i)
    ensures NoneFor(q, nodes, answers[..|answers| - 1], i)
  {
    var shorter := answers[..|answers| - 1];
    assert forall l | 0 <= l < |shorter| :: shorter[l] == answers[l];
  }

  function Gathered(cfg: Config, nodes: seq<Node>, e: Env): (r: seq<Node>)
    ensures |r| == |nodes|
  {
    var n := Collect(Executor, nodes, e.answers);
    if cfg.hasEvaluator then Collect(Evaluator, n, e.evaluations) else n
  }

  /* ---------- beam pruning ---------- */

  predicate InBeam(n: Node) {
    n.phase == Scored && n.scoreMillis.Some?
  }

  ghost function BeamAt(nodes: seq<Node>, d: int): set<int> {
    set i | 0 <= i < |nodes| && InBeam(nodes[i]) && nodes[i].depth == d
  }

  /** At depth d, b keeps as many scored nodes of a as the width allows, and none
      that scores below one it prunes. */
  ghost predicate BestKept(width: int, a: seq<Node>, b: seq<Node>, d: int)
    requires |a| == |b|
  {
    && |BeamAt(b, d)| == Min(width, |BeamAt(a, d)|)
    && BeamAt(b, d) <= BeamAt(a, d)
    && (forall i, j | i in BeamAt(b, d) && j in BeamAt(a, d) && j !in BeamAt(b, d) ::
          a[i].scoreMillis.value >= a[j].scoreMillis.value)
  }

  /** b is a with only the best scored nodes left at every depth; ties fall either way. */
  ghost predicate BeamPruned(width: int, a: seq<Node>, b: seq<Node>) {
    && |a| == |b|
    && (forall i | 0 <= i < |a| :: b[i] == a[i] || (InBeam(a[i]) && b[i] == a[i].(phase := Pruned)))
    && (forall d :: BestKept(width, a, b, d))
  }

  ghost predicate Beamed(cfg: Config, a: seq<Node>, b: seq<Node>) {
    if cfg.strategy == BeamSearch then BeamPruned(BeamWidth(cfg), a, b) else a == b
  }

  /* ---------- convergence ---------- */

  predicate ScoreReaches(cfg: Config, n: Node) {
    cfg.minScorePercent.Some? && n.scoreMillis.Some? && n.scoreMillis.value >= cfg.minScorePercent.value * 10
  }

  predicate TooDeep(cfg: Config, n: Node) {
    cfg.maxDepth > 0 && n.depth >= cfg.maxDepth && n.phase != Pruned
  }

  ghost function Convergence(cfg: Config, t: Tree): Option<Reason> {
    if t.solution.Some? then Some(PlannerConverged)
    else if exists i | 0 <= i < |t.nodes| :: ScoreReaches(cfg, t.nodes[i]) then Some(MinScoreReached)
    else if exists i | 0 <= i < |t.nodes| :: TooDeep(cfg, t.nodes[i]) then Some(MaxDepthReached)
    else if |t.nodes| >= NodeLimit(cfg) then Some(MaxNodesReached)
    else if cfg.maxIterations > 0 && t.iterations >= cfg.maxIterations then Some(MaxIterationsReached)
    else None
  }

  /** The condition behind each reason to end a search. */
  ghost predicate Applies(cfg: Config, t: Tree, r: Reason) {
    match r
    case PlannerConverged => t.solution.Some?
    case MinScoreReached =>
      cfg.minScorePercent.Some?
      && exists i | 0 <= i < |t.nodes| ::
           t.nodes[i].scoreMillis.Some? && t.nodes[i].scoreMillis.value >= cfg.minScorePercent.value * 10
    case MaxDepthReached =>
      cfg.maxDepth > 0 && exists i | 0 <= i < |t.nodes| :: t.nodes[i].depth >= cfg.maxDepth && t.nodes[i].phase != Pruned
    case MaxNodesReached => |t.nodes| >= if cfg.maxNodes <= 0 then 50 else cfg.maxNodes
    case MaxIterationsReached => cfg.maxIterations > 0 && t.iterations >= cfg.maxIterations
    case PlannerFailure => false
  }

  const Reasons := [PlannerConverged, MinScoreReached, MaxDepthReached, MaxNodesReached, MaxIterationsReached]

  /** r is the first of the reasons that applies, if any does. */
  ghost predicate FirstToApply(cfg: Config, t: Tree, r: Option<Reason>) {
    match r
    case None => forall j | 0 <= j < |Reasons| :: !Applies(cfg, t, Reasons[j])
    case Some(reason) =>
      exists k | 0 <= k < |Reasons| ::
        Reasons[k] == reason && Applies(cfg, t, reason) && forall j | 0 <= j < k :: !Applies(cfg, t, Reasons[j])
  }

  lemma ConvergenceIsFirst(cfg: Config, t: Tree)
    ensures FirstToApply(cfg, t, Convergence(cfg, t))
  {
    assert Reasons[0] == PlannerConverged && Reasons[1] == MinScoreReached && Reasons[2] == MaxDepthReached;
    assert Reasons[3] == MaxNodesReached && Reasons[4] == MaxIterationsReached;
    ScoreApplies(cfg, t);
    DepthApplies(cfg, t);
  }

  lemma ScoreApplies(cfg: Config, t: Tree)
    ensures Applies(cfg, t, MinScoreReached) <==> exists i | 0 <= i < |t.nodes| :: ScoreReaches(cfg, t.nodes[i])
  {
  }

  lemma DepthApplies(cfg: Config, t: Tree)
    ensures Applies(cfg, t, MaxDepthReached) <==> exists i | 0 <= i < |t.nodes| :: TooDeep(cfg, t.nodes[i])
  {
  }

  /* ---------- submitting ---------- */

  function CountRunning(nodes: seq<Node>): nat {
    if nodes == [] then 0
    else CountRunning(nodes[..|nodes| - 1]) + (if nodes[|nodes| - 1].phase == Running then 1 else 0)
  }

  predicate HasRunning(nodes: seq<Node>) {
    exists i | 0 <= i < |nodes| :: nodes[i].phase == Running
  }

  predicate HasPending(nodes: seq<Node>) {
    exists i | 0 <= i < |nodes| :: nodes[i].phase == Pending
  }

  /** ids are the nodes enqueued, with a queue error those enqueued before it. */
  datatype Submission = QueueError(ids: seq<int>) | Submitted(nodes: seq<Node>, ids: seq<int>)

  function TaskIDFor(taskIDs: seq<string>, i: nat): string {
    if i < |taskIDs| then taskIDs[i] else ""
  }

  /** Submits Pending nodes from index i on while fewer than limit are running. */
  function SubmitFrom(nodes: seq<Node>, i: nat, running: int, limit: int, taskIDs: seq<string>, done: seq<int>): Submission
    requires i <= |nodes|
    decreases |nodes| - i
  {
    if i == |nodes| || running >= limit then Submitted(nodes, done)
    else if nodes[i].phase != Pending then SubmitFrom(nodes, i + 1, running, limit, taskIDs, done)
    else if TaskIDFor(taskIDs, i) == "" then QueueError(done)
    else
      SubmitFrom(nodes[i := nodes[i].(phase := Running, taskID := TaskIDFor(taskIDs, i))],
                 i + 1, running + 1, limit, taskIDs, done + [nodes[i].id])
  }

  function Submit(nodes: seq<Node>, limit: int, taskIDs: seq<string>): Submission {
    SubmitFrom(nodes, 0, CountRunning(nodes), limit, taskIDs, [])
  }

  /* ---------- the planner's actions ---------- */

  datatype Problem = NoParent | UnknownParent | NoTask | NoScore | NoNode | UnknownNode | UnknownAction

  predicate HasNode(nodes: seq<Node>, id: int) {
    exists i | 0 <= i < |nodes| :: nodes[i].id == id
  }

  function TargetProblems(nodes: seq<Node>, target: Option<int>, absent: Problem, unknown: Problem): seq<Problem> {
    if target.None? then [absent] else if !HasNode(nodes, target.value) then [unknown] else []
  }

  function ScoreProblems(a: Action, hasEvaluator: bool): seq<Problem> {
    if !hasEvaluator && a.scoreMillis.None? then [NoScore] else []
  }

  function Problems(a: Action, nodes: seq<Node>, hasEvaluator: bool): seq<Problem> {
    if a.kind == Expand then
      TargetProblems(nodes, a.parentNode, NoParent, UnknownParent)
      + (if a.task.None? || a.task.value == "" then [NoTask] else [])
      + ScoreProblems(a, hasEvaluator)
    else if a.kind == Prune then
      TargetProblems(nodes, a.node, NoNode, UnknownNode)
    else if a.kind == Converge then
      TargetProblems(nodes, a.node, NoNode, UnknownNode) + ScoreProblems(a, hasEvaluator)
    else
      [UnknownAction]
  }

  function AllProblems(actions: seq<Action>, nodes: seq<Node>, hasEvaluator: bool): seq<Problem> {
    if actions == [] then []
    else
      var k := |actions| - 1;
      AllProblems(actions[..k], nodes, hasEvaluator) + Problems(actions[k], nodes, hasEvaluator)
  }

  /** What a planner may ask for: to expand a node of the tree by a task, to prune one, or to converge on one;
      without an evaluator, an expansion and a convergence come with a score. */
  predicate Acceptable(a: Action, nodes: seq<Node>, hasEvaluator: bool) {
    match a.kind
    case "expand" =>
      && a.parentNode.Some? && HasNode(nodes, a.parentNode.value) && a.task.Some? && a.task.value != ""
      && (hasEvaluator || a.scoreMillis.Some?)
    case "prune" => a.node.Some? && HasNode(nodes, a.node.value)
    case "converge" => a.node.Some? && HasNode(nodes, a.node.value) && (hasEvaluator || a.scoreMillis.Some?)
    case _ => false
  }

  /** A batch has no problems if and only if every action of it is one a planner may ask for. */
  lemma {:induction false} AcceptedIff(actions: seq<Action>, nodes: seq<Node>, hasEvaluator: bool)
    ensures AllProblems(actions, nodes, hasEvaluator) == [] <==> forall a | a in actions :: Acceptable(a, nodes, hasEvaluator)
  {
    if actions != [] {
      var n := |actions| - 1;
      AcceptedIff(actions[..n], nodes, hasEvaluator);
      assert actions == actions[..n] + [actions[n]];
      NoProblemIff(actions[n], nodes, hasEvaluator);
    }
  }

  lemma NoProblemIff(a: Action, nodes: seq<Node>, hasEvaluator: bool)
    ensures Problems(a, nodes, hasEvaluator) == [] <==> Acceptable(a, nodes, hasEvaluator)
  {
  }

  /** The pointers an action dereferences are there. */
  predicate Complete(a: Action) {
    && (a.kind == Expand ==> a.parentNode.Some? && a.task.Some?)
    && (a.kind == Prune || a.kind == Converge ==> a.node.Some?)
  }

  /** A batch under way. pointers gives the slot an id's saved pointer was taken
      for. Each reallocation of the node slice abandons the array the pointers
      saved before it refer to: those are the slots below firstFresh, and what is
      written through them does not reach nodes. */
  datatype Batch = Batch(nodes: seq<Node>, spare: nat, pointers: map<int, nat>, firstFresh: nat, solution: Option<int>) {
    ghost predicate Valid() {
      forall id | id in pointers :: 0 <= pointers[id] < |nodes|
    }

    /** The slot behind an id's pointer, if the id is known. */
    function Slot(id: Option<int>): (r: Option<nat>)
      requires Valid() && id.Some?
      ensures r.Some? ==> r.value < |nodes|
    {
      var key: int := id.value;
      if key in pointers then Some(pointers[key]) else None
    }
  }

  function Pointers(nodes: seq<Node>): (m: map<int, nat>)
    ensures forall id | id in m :: 0 <= m[id] < |nodes| && nodes[m[id]].id == id
    ensures forall i | 0 <= i < |nodes| :: nodes[i].id in m
  {
    if nodes == [] then map[]
    else Pointers(nodes[..|nodes| - 1])[nodes[|nodes| - 1].id := |nodes| - 1]
  }

  function OpenBatch(t: Tree, spare: nat): (b: Batch)
    ensures b.Valid()
  {
    Batch(t.nodes, spare, Pointers(t.nodes), 0, t.solution)
  }

  function Child(b: Batch, a: Action, parent: Node): Node
    requires a.task.Some?
  {
    Node(|b.nodes|, a.parentNode, parent.depth + 1, a.task.value, "", a.scoreMillis, Pending, "")
  }

  function Overwrite(n: Node, a: Action): Node {
    if a.kind == Prune then n.(phase := Pruned)
    else if a.scoreMillis.Some? then n.(phase := Solution, scoreMillis := a.scoreMillis)
    else n.(phase := Solution)
  }

  /** One action; None when the batch stops with an error. */
  function ApplyOne(b: Batch, a: Action, limit: int, growth: seq<nat>): (r: Option<Batch>)
    requires b.Valid() && Complete(a)
    ensures r.Some? ==> r.value.Valid()
  {
    if a.kind == Expand then
      var parent := b.Slot(a.parentNode);
      if |b.nodes| >= limit || parent.None? then None
      else
        var n := |b.nodes|;
        var nodes := b.nodes + [Child(b, a, b.nodes[parent.value])];
        var pointers := b.pointers[n := n];
        if b.spare > 0 then Some(Batch(nodes, b.spare - 1, pointers, b.firstFresh, b.solution))
        else Some(Batch(nodes, if n < |growth| then growth[n] else 0, pointers, n, b.solution))
    else if a.kind == Prune || a.kind == Converge then
      var target := b.Slot(a.node);
      if target.None? then None
      else
        var i := target.value;
        Some(b.(nodes := if b.firstFresh <= i then b.nodes[i := Overwrite(b.nodes[i], a)] else b.nodes,
                solution := if a.kind == Converge then a.node else b.solution))
    else Some(b)
  }

  datatype Applied = Applied(batch: Batch, failed: bool)

  /** The batch after the actions, which stop at the first error and keep what was done before it. */
  function ApplyAll(b: Batch, actions: seq<Action>, limit: int, growth: seq<nat>): (r: Applied)
    requires b.Valid() && forall a | a in actions :: Complete(a)
    ensures r.batch.Valid()
    decreases |actions|
  {
    if actions == [] then Applied(b, false)
    else
      var k := |actions| - 1;
      var r := ApplyAll(b, actions[..k], limit, growth);
      if r.failed then r
      else
        match ApplyOne(r.batch, actions[k], limit, growth)
        case None => Applied(r.batch, true)
        case Some(next) => Applied(next, false)
  }

  function ApplyActions(t: Tree, actions: seq<Action>, limit: int, spare: nat, growth: seq<nat>): Tree
    requires forall a | a in actions :: Complete(a)
  {
    var b := ApplyAll(OpenBatch(t, spare), actions, BatchLimit(limit), growth).batch;
    t.(nodes := b.nodes, solution := b.solution)
  }

  lemma {:induction false} NoProblemsMeansComplete(actions: seq<Action>, nodes: seq<Node>, hasEvaluator: bool)
    requires AllProblems(actions, nodes, hasEvaluator) == []
    ensures forall a | a in actions :: Problems(a, nodes, hasEvaluator) == [] && Complete(a)
  {
    if actions != [] {
      NoProblemsMeansComplete(actions[..|actions| - 1], nodes, hasEvaluator);
    }
  }

  /* ---------- truncation ---------- */

  const TruncationMark := " [truncated]"

  function Clip(s: string, limit: nat): string {
    if |s| > limit then s[..limit] + TruncationMark else s
  }

  function Clipped(n: Node, maxBytes: int): Node {
    if maxBytes <= 0 then n else n.(output := Clip(n.output, maxBytes), task := Clip(n.task, maxBytes))
  }

  function Truncate(nodes: seq<Node>, maxBytes: int): (r: seq<Node>)
    ensures |r| == |nodes|
    ensures forall i | 0 <= i < |nodes| :: r[i] == Clipped(nodes[i], maxBytes)
  {
    seq(|nodes|, i requires 0 <= i < |nodes| => Clipped(nodes[i], maxBytes))
  }

  /* ---------- the end of a run ---------- */

  /** The first node with the highest score. */
  function Best(nodes: seq<Node>): (b: Option<nat>)
    ensures b.None? ==> forall i | 0 <= i < |nodes| :: nodes[i].scoreMillis.None?
    ensures b.Some? ==> b.value < |nodes| && nodes[b.value].scoreMillis.Some?
    ensures b.Some? ==> forall i | 0 <= i < |nodes| && nodes[i].scoreMillis.Some? ::
                          nodes[i].scoreMillis.value <= nodes[b.value].scoreMillis.value
    ensures b.Some? ==> forall i | 0 <= i < b.value && nodes[i].scoreMillis.Some? ::
                          nodes[i].scoreMillis.value < nodes[b.value].scoreMillis.value
  {
    if nodes == [] then None
    else
      var k := |nodes| - 1;
      var b := Best(nodes[..k]);
      if nodes[k].scoreMillis.None? then b
      else if b.None? || nodes[k].scoreMillis.value > nodes[b.value].scoreMillis.value then Some(k)
      else b
  }

  function FirstWithID(nodes: seq<Node>, id: int): (r: Option<nat>)
    ensures r.Some? ==> r.value < |nodes| && nodes[r.value].id == id && forall i | 0 <= i < r.value :: nodes[i].id != id
    ensures r.None? ==> !HasNode(nodes, id)
  {
    if nodes == [] then None
    else
      var r := FirstWithID(nodes[..|nodes| - 1], id);
      if r.None? && nodes[|nodes| - 1].id == id then Some(|nodes| - 1) else r
  }

  function FinalOutput(t: Tree, output: string): string {
    var chosen := if t.solution.Some? then FirstWithID(t.nodes, t.solution.value) else Best(t.nodes);
    if chosen.Some? then t.nodes[chosen.value].output else output
  }

  /** The first node with the highest score. */
  predicate IsBest(nodes: seq<Node>, b: nat) {
    && b < |nodes| && nodes[b].scoreMillis.Some?
    && (forall i | 0 <= i < |nodes| && nodes[i].scoreMillis.Some? :: nodes[i].scoreMillis.value <= nodes[b].scoreMillis.value)
    && (forall i | 0 <= i < b && nodes[i].scoreMillis.Some? :: nodes[i].scoreMillis.value < nodes[b].scoreMillis.value)
  }

  /** r is the output of the chosen solution; with none chosen, that of the first node with the highest score;
      and with neither, the output there was. */
  ghost predicate IsOutput(t: Tree, output: string, r: string) {
    match t.solution
    case Some(v) =>
      && (forall i | 0 <= i < |t.nodes| && t.nodes[i].id == v && (forall j | 0 <= j < i :: t.nodes[j].id != v) ::
            r == t.nodes[i].output)
      && ((forall i | 0 <= i < |t.nodes| :: t.nodes[i].id != v) ==> r == output)
    case None =>
      || (exists b: nat :: IsBest(t.nodes, b) && r == t.nodes[b].output)
      || ((forall i | 0 <= i < |t.nodes| :: t.nodes[i].scoreMillis.None?) && r == output)
  }

  lemma OutputIsChosen(t: Tree, output: string)
    ensures IsOutput(t, output, FinalOutput(t, output))
  {
    if t.solution.None? {
      var b := Best(t.nodes);
      assert b.Some? ==> IsBest(t.nodes, b.value);
    }
  }

  function Finalized(s: Run, t: Tree): Run {
    Run(if t.reason == Some(PlannerFailure) then RunFailed else RunSucceeded, Some(t), FinalOutput(t, s.output))
  }

  function Finish(s: Run, t: Tree, r: Reason): Run {
    Finalized(s, t.(reason := Some(r)))
  }

  /** The ids cancelled on a timeout, in node order. */
  function CancelList(nodes: seq<Node>): seq<string> {
    if nodes == [] then []
    else
      var n := nodes[|nodes| - 1];
      CancelList(nodes[..|nodes| - 1])
      + (if n.taskID != "" && (n.phase == Running || n.phase == Pending) then [n.taskID] else [])
  }

  /* ---------- one reconcile ---------- */

  datatype Outcome = Aborted(fx: Effects) | Persisted(run: Run, fx: Effects)

  /** From the planner call to the end; t is the tree the planner sees. */
  ghost function Plan(cfg: Config, s: Run, t: Tree, e: Env, ids: seq<int>): Outcome {
    match e.planner
    case PlannerError => Persisted(Finish(s, t, PlannerFailure), Effects(ids, [], true, true))
    case Actions(actions) =>
      if AllProblems(actions, t.nodes, cfg.hasEvaluator) != [] then
        Persisted(Finish(s, t, PlannerFailure), Effects(ids, [], true, true))
      else
        NoProblemsMeansComplete(actions, t.nodes, cfg.hasEvaluator);
        AfterBatch(cfg, s, ApplyActions(t, actions, NodeLimit(cfg), e.spare, e.growth), e, ids)
  }

  /** What follows a batch that has led to tree t. */
  ghost function AfterBatch(cfg: Config, s: Run, t: Tree, e: Env, ids: seq<int>): Outcome {
    match Convergence(cfg, t)
    case Some(r) => Persisted(Finish(s, t, r), Effects(ids, [], true, true))
    case None =>
      if e.queueLost then Aborted(Effects(ids, [], true, false))
      else
        match Submit(Truncate(t.nodes, MaxOutputBytes(cfg)), MaxParallel(cfg), e.taskIDs)
        case QueueError(more) => Aborted(Effects(ids + more, [], true, false))
        case Submitted(nodes, more) =>
          Persisted(Run(RunRunning, Some(t.(nodes := nodes, iterations := t.iterations + 1)), s.output),
                    Effects(ids + more, [], true, true))
  }

  /** From the first convergence check to the end; t has its results collected and its beam pruned. */
  ghost function Proceed(cfg: Config, s: Run, t: Tree, e: Env): Outcome {
    match Convergence(cfg, t)
    case Some(r) => Persisted(Finish(s, t, r), NoEffects)
    case None =>
      if e.queueDown then Aborted(Effects([], [], false, false))
      else
        match Submit(t.nodes, MaxParallel(cfg), e.taskIDs)
        case QueueError(ids) => Aborted(Effects(ids, [], false, false))
        case Submitted(nodes, ids) =>
          if HasRunning(nodes) then
            Persisted(Run(RunRunning, Some(t.(nodes := nodes)), s.output), Effects(ids, [], false, true))
          else
            Plan(cfg, s, t.(nodes := nodes), e, ids)
  }

  /** An aborted reconcile, or one whose status write fails, leaves the persisted run alone; what it has
      done outside is done all the same. */
  predicate EndsAs(e: Env, s: Run, o: Outcome, s': Run, fx: Effects) {
    if o.Aborted? || e.updateFails then s' == s && fx == o.fx.(stored := false)
    else s' == o.run && fx == o.fx.(stored := true)
  }

  ghost function TimedOut(s: Run, t: Tree): Outcome {
    Persisted(Run(RunFailed, Some(t), s.output), Effects([], CancelList(t.nodes), false, true))
  }

  /** A reconcile within the timeout, whose beam pruning leaves beamed. */
  ghost predicate StepVia(cfg: Config, s: Run, e: Env, s': Run, fx: Effects, beamed: seq<Node>) {
    var t := Current(cfg, s);
    Beamed(cfg, Gathered(cfg, t.nodes, e), beamed) && EndsAs(e, s, Proceed(cfg, s, t.(nodes := beamed), e), s', fx)
  }

  /** One reconcile of a run that has not ended. */
  ghost predicate Step(cfg: Config, s: Run, e: Env, s': Run, fx: Effects) {
    && !Terminal(s)
    && if e.timedOut then EndsAs(e, s, TimedOut(s, Current(cfg, s)), s', fx)
       else exists beamed: seq<Node> :: StepVia(cfg, s, e, s', fx, beamed)
  }
}
