/**
  What each stage of a search reconcile does to the node list: which nodes it may
  touch, in which direction their phases move, and what it leaves to do.
 */
module SearchStages {
  import opened Options
  import opened SearchSpec
  import opened SearchTrees

  /* ---------- the lifecycle of a node ---------- */

  /** How far a node has come; nodes only ever move to a higher rank. */
  function Rank(p: Phase): nat {
    match p
    case Pending => 0
    case Running => 1
    case Scored => 2
    case EvalFailed => 2
    case Pruned => 3
    case Solution => 3
  }

  /** The reconciles a node still needs before it stops keeping the planner waiting. */
  function Weight(p: Phase): nat {
    match p
    case Pending => 2
    case Running => 1
    case _ => 0
  }

  /** A node holds a task id exactly while it is Running. */
  predicate Held(n: Node) {
    n.taskID != "" <==> n.phase == Running
  }

  ghost predicate AllHeld(nodes: seq<Node>) {
    forall i | 0 <= i < |nodes| :: Held(nodes[i])
  }

  predicate Advances(n: Node, m: Node) {
    m.id == n.id && m.parentID == n.parentID && m.depth == n.depth && Rank(n.phase) <= Rank(m.phase)
  }

  /** b continues a: every node of a is still there, no less far, and nodes may have been added. */
  ghost predicate Grows(a: seq<Node>, b: seq<Node>) {
    |a| <= |b| && forall i | 0 <= i < |a| :: Advances(a[i], b[i])
  }

  lemma ShapeKept(a: seq<Node>, b: seq<Node>)
    requires Shape(a) && |a| == |b| && Grows(a, b)
    ensures Shape(b)
  {
    assert Advances(a[0], b[0]);
    forall i | 0 < i < |b|
      ensures HasParent(b, i)
    {
      assert HasParent(a, i);
      assert Advances(a[i], b[i]) && Advances(a[a[i].parentID.value], b[a[i].parentID.value]);
    }
  }

  function TotalWeight(nodes: seq<Node>): nat {
    if nodes == [] then 0 else TotalWeight(nodes[..|nodes| - 1]) + Weight(nodes[|nodes| - 1].phase)
  }

  /** Lowering weights pointwise lowers the total, strictly when one is lowered strictly. */
  lemma {:induction false} TotalWeightFalls(a: seq<Node>, b: seq<Node>)
    requires |a| == |b| && forall i | 0 <= i < |a| :: Weight(b[i].phase) <= Weight(a[i].phase)
    ensures TotalWeight(b) <= TotalWeight(a) <= 2 * |a|
    ensures (exists i | 0 <= i < |a| :: Weight(b[i].phase) < Weight(a[i].phase)) ==> TotalWeight(b) < TotalWeight(a)
  {
    if a != [] {
      TotalWeightFalls(a[..|a| - 1], b[..|b| - 1]);
    }
  }

  lemma {:induction false} RunningFalls(a: seq<Node>, b: seq<Node>)
    requires |a| <= |b|
    requires forall i | 0 <= i < |b| :: b[i].phase == Running ==> i < |a| && a[i].phase == Running
    ensures CountRunning(b) <= CountRunning(a)
  {
    if b != [] {
      if |a| == |b| {
        RunningFalls(a[..|a| - 1], b[..|b| - 1]);
      } else {
        RunningFalls(a, b[..|b| - 1]);
      }
    }
  }

  lemma {:induction false} RunningRises(nodes: seq<Node>, i: nat, taskID: string)
    requires i < |nodes| && nodes[i].phase != Running
    ensures CountRunning(nodes[i := nodes[i].(phase := Running, taskID := taskID)]) == CountRunning(nodes) + 1
  {
    var k := |nodes| - 1;
    var launched := nodes[i := nodes[i].(phase := Running, taskID := taskID)];
    if i < k {
      RunningRises(nodes[..k], i, taskID);
      assert launched[..k] == nodes[..k][i := launched[i]];
    } else {
      assert launched[..k] == nodes[..k];
    }
  }

  lemma {:induction false} NoneRunning(nodes: seq<Node>)
    ensures CountRunning(nodes) > 0 <==> HasRunning(nodes)
  {
    if nodes != [] {
      var k := |nodes| - 1;
      NoneRunning(nodes[..k]);
      if HasRunning(nodes) && nodes[k].phase != Running {
        var i :| 0 <= i < |nodes| && nodes[i].phase == Running;
        assert nodes[..k][i].phase == Running;
      }
    }
  }

  /* ---------- collecting ---------- */

  /** m is n after its executor task was answered. */
  predicate Finished(n: Node, m: Node) {
    && n.phase == Running
    && m == n.(phase := m.phase, output := m.output, taskID := "")
    && (m.phase == Scored || m.phase == EvalFailed)
  }

  /** Some answer is for node i. */
  ghost predicate Reaches(nodes: seq<Node>, answers: seq<Answer>, i: int) {
    exists k | 0 <= k < |answers| :: Owner(Executor, nodes, answers[k].taskID) == Some(i)
  }

  /** Answers finish exactly the in-flight nodes they are for, and change nothing else. */
  lemma {:induction false} CollectFinishes(nodes: seq<Node>, answers: seq<Answer>)
    ensures forall i | 0 <= i < |nodes| ::
              if Reaches(nodes, answers, i) then Finished(nodes[i], Collect(Executor, nodes, answers)[i])
              else Collect(Executor, nodes, answers)[i] == nodes[i]
    decreases |answers|
  {
    if answers != [] {
      CollectFinishes(nodes, answers[..|answers| - 1]);
      forall i | 0 <= i < |nodes|
        ensures if Reaches(nodes, answers, i) then Finished(nodes[i], Collect(Executor, nodes, answers)[i])
                else Collect(Executor, nodes, answers)[i] == nodes[i]
      {
      }
    }
  }

  /** While only Running nodes hold task ids, no node ever waits on the evaluator queue. */
  lemma {:induction false} EvaluatorIsNeverAsked(nodes: seq<Node>, answers: seq<Answer>)
    requires AllHeld(nodes)
    ensures Collect(Evaluator, nodes, answers) == nodes
    ensures forall i | 0 <= i < |nodes| :: !Awaits(Evaluator, nodes[i])
    decreases |answers|
  {
    if answers != [] {
      EvaluatorIsNeverAsked(nodes, answers[..|answers| - 1]);
    }
  }

  /** The collecting stage as a whole. */
  lemma GatheringAdvances(cfg: Config, nodes: seq<Node>, e: Env)
    requires AllHeld(nodes)
    ensures var r := Gathered(cfg, nodes, e);
            && r == Collect(Executor, nodes, e.answers)
            && AllHeld(r) && Grows(nodes, r)
            && (forall i | 0 <= i < |nodes| :: r[i] == nodes[i] || Finished(nodes[i], r[i]))
  {
    CollectFinishes(nodes, e.answers);
    if cfg.hasEvaluator {
      EvaluatorIsNeverAsked(Collect(Executor, nodes, e.answers), e.evaluations);
    }
  }

  lemma GatheringFinishes(nodes: seq<Node>, r: seq<Node>)
    requires |r| == |nodes| && forall i | 0 <= i < |nodes| :: r[i] == nodes[i] || Finished(nodes[i], r[i])
    ensures TotalWeight(r) <= TotalWeight(nodes) && CountRunning(r) <= CountRunning(nodes)
    ensures r != nodes ==> TotalWeight(r) < TotalWeight(nodes)
  {
    TotalWeightFalls(nodes, r);
    RunningFalls(nodes, r);
    if r != nodes {
      var i :| 0 <= i < |nodes| && r[i] != nodes[i];
      assert Weight(r[i].phase) < Weight(nodes[i].phase);
    }
  }

  /* ---------- beam pruning ---------- */

  lemma BeamAdvances(cfg: Config, a: seq<Node>, b: seq<Node>)
    requires Beamed(cfg, a, b) && AllHeld(a)
    ensures |b| == |a| && AllHeld(b) && Grows(a, b)
    ensures forall i | 0 <= i < |a| :: b[i] == a[i] || (InBeam(a[i]) && b[i] == a[i].(phase := Pruned))
    ensures TotalWeight(b) <= TotalWeight(a) && CountRunning(b) <= CountRunning(a)
  {
    TotalWeightFalls(a, b);
    RunningFalls(a, b);
  }

  ghost predicate BeamBounded(cfg: Config, nodes: seq<Node>) {
    cfg.strategy == BeamSearch ==> forall d :: |BeamAt(nodes, d)| <= BeamWidth(cfg)
  }

  /** Pruning twice is pruning once: a tree within the width is left alone. */
  lemma BeamPruneIdempotent(width: int, a: seq<Node>, b: seq<Node>)
    requires BeamPruned(width, a, b)
    ensures (forall d :: |BeamAt(a, d)| <= width) ==> b == a
    ensures forall c :: BeamPruned(width, b, c) ==> c == b
  {
    if forall d :: |BeamAt(a, d)| <= width {
      WithinWidth(width, a, b);
    }
    forall c | BeamPruned(width, b, c)
      ensures c == b
    {
      forall d
        ensures |BeamAt(b, d)| <= width
      {
        assert BestKept(width, a, b, d);
      }
      WithinWidth(width, b, c);
    }
  }

  lemma WithinWidth(width: int, a: seq<Node>, b: seq<Node>)
    requires BeamPruned(width, a, b) && forall d :: |BeamAt(a, d)| <= width
    ensures b == a
  {
    forall i | 0 <= i < |a|
      ensures b[i] == a[i]
    {
      var d := a[i].depth;
      assert BestKept(width, a, b, d);
      SubsetOfSameSize(BeamAt(b, d), BeamAt(a, d));
      if InBeam(a[i]) {
        assert i in BeamAt(b, d);
      }
    }
  }

  lemma {:induction false} SubsetOfSameSize(s: set<int>, t: set<int>)
    requires s <= t && |s| == |t|
    ensures s == t
  {
    var rest := t - s;
    assert t == s + rest;
    assert |t| == |s| + |rest|;
  }

  /** No node kept in the beam scores below one pruned at its depth, and no depth exceeds the width. */
  lemma BeamKeepsTheBest(cfg: Config, a: seq<Node>, b: seq<Node>)
    requires cfg.strategy == BeamSearch && Beamed(cfg, a, b)
    ensures BeamBounded(cfg, b)
    ensures forall i, j | 0 <= i < |a| && 0 <= j < |a| && InBeam(b[i]) && b[j] != a[j] && a[i].depth == a[j].depth ::
              InBeam(a[i]) && InBeam(a[j]) && a[i].scoreMillis.value >= a[j].scoreMillis.value
  {
    forall d
      ensures |BeamAt(b, d)| <= BeamWidth(cfg)
    {
      assert BestKept(BeamWidth(cfg), a, b, d);
    }
    forall i, j | 0 <= i < |a| && 0 <= j < |a| && InBeam(b[i]) && b[j] != a[j] && a[i].depth == a[j].depth
      ensures InBeam(a[i]) && InBeam(a[j]) && a[i].scoreMillis.value >= a[j].scoreMillis.value
    {
      var d := a[i].depth;
      assert BestKept(BeamWidth(cfg), a, b, d);
      assert i in BeamAt(b, d) && j in BeamAt(a, d) && j !in BeamAt(b, d);
    }
  }

  /* ---------- submitting ---------- */

  predicate Launched(n: Node, m: Node) {
    n.phase == Pending && m.phase == Running && m.taskID != "" && m == n.(phase := Running, taskID := m.taskID)
  }

  /** ids lists the launched nodes in order, and only them. */
  ghost predicate Launches(a: seq<Node>, b: seq<Node>, ids: seq<int>) {
    && |a| == |b|
    && (forall i | 0 <= i < |a| :: b[i] == a[i] || Launched(a[i], b[i]))
    && (forall k | 0 <= k < |ids| :: 0 <= ids[k] < |a| && Launched(a[ids[k]], b[ids[k]]))
    && (forall j, k | 0 <= j < k < |ids| :: ids[j] < ids[k])
    && (forall i | 0 <= i < |a| && b[i] != a[i] :: i in ids)
  }

  lemma LaunchesOneMore(start: seq<Node>, nodes: seq<Node>, done: seq<int>, i: nat, taskID: string)
    requires i < |nodes| && Launches(start, nodes, done)
    requires nodes[i] == start[i] && nodes[i].phase == Pending && taskID != ""
    requires forall k | 0 <= k < |done| :: done[k] < i
    ensures Launches(start, nodes[i := nodes[i].(phase := Running, taskID := taskID)], done + [i])
  {
    var next, more := nodes[i := nodes[i].(phase := Running, taskID := taskID)], done + [i];
    forall k | 0 <= k < |more|
      ensures 0 <= more[k] < |start| && Launched(start[more[k]], next[more[k]])
    {
      assert k < |done| ==> more[k] == done[k] && next[done[k]] == nodes[done[k]];
    }
    forall j | 0 <= j < |start| && next[j] != start[j]
      ensures j in more
    {
      assert j != i ==> j in done;
      assert more[|done|] == i;
    }
  }

  /** What SubmitFrom leaves: launched says which nodes, stopped why no more. */
  ghost predicate SubmittedWell(start: seq<Node>, nodes: seq<Node>, i: int, running: int, limit: int, s: Submission) {
    s.Submitted? ==>
      && Launches(start, s.nodes, s.ids)
      && running <= CountRunning(s.nodes) <= Max(running, limit)
      && (CountRunning(s.nodes) >= limit || forall j | 0 <= i <= j < |start| :: s.nodes[j].phase != Pending)
      && |nodes| == |start| && (forall j | 0 <= j < i <= |start| :: s.nodes[j] == nodes[j])
  }

  lemma WellFromNext(start: seq<Node>, nodes: seq<Node>, next: seq<Node>, i: nat, running: int, running': int, limit: int, s: Submission)
    requires i < |nodes| == |start| == |next| && SubmittedWell(start, next, i + 1, running', limit, s)
    requires next[i].phase != Pending && forall j | 0 <= j < i :: next[j] == nodes[j]
    requires running <= running' <= Max(running, limit)
    ensures SubmittedWell(start, nodes, i, running, limit, s)
  {
  }

  lemma {:induction false} SubmitLaunches(nodes: seq<Node>, i: nat, running: int, limit: int, taskIDs: seq<string>,
                                          start: seq<Node>, done: seq<int>)
    requires i <= |nodes| == |start|
    requires forall j | 0 <= j < |start| :: start[j].id == j
    requires Launches(start, nodes, done) && forall k | 0 <= k < |done| :: done[k] < i
    requires forall j | i <= j < |nodes| :: nodes[j] == start[j]
    requires running == CountRunning(nodes)
    ensures SubmittedWell(start, nodes, i, running, limit, SubmitFrom(nodes, i, running, limit, taskIDs, done))
    decreases |nodes| - i
  {
    if i == |nodes| || running >= limit {
    } else if nodes[i].phase != Pending {
      SubmitLaunches(nodes, i + 1, running, limit, taskIDs, start, done);
      WellFromNext(start, nodes, nodes, i, running, running, limit,
                   SubmitFrom(nodes, i + 1, running, limit, taskIDs, done));
    } else if TaskIDFor(taskIDs, i) != "" {
      var taskID := TaskIDFor(taskIDs, i);
      var next := nodes[i := nodes[i].(phase := Running, taskID := taskID)];
      RunningRises(nodes, i, taskID);
      LaunchesOneMore(start, nodes, done, i, taskID);
      SubmitLaunches(next, i + 1, running + 1, limit, taskIDs, start, done + [i]);
      WellFromNext(start, nodes, next, i, running, running + 1, limit,
                   SubmitFrom(next, i + 1, running + 1, limit, taskIDs, done + [i]));
    }
  }

  /** ids names, in increasing order, Pending nodes of the list. */
  ghost predicate Queued(start: seq<Node>, ids: seq<int>) {
    && (forall j, k | 0 <= j < k < |ids| :: ids[j] < ids[k])
    && (forall k | 0 <= k < |ids| :: 0 <= ids[k] < |start| && start[ids[k]].phase == Pending)
  }

  /** Whether or not the queue takes them all, only Pending nodes are enqueued, each once. */
  lemma {:induction false} SubmitQueues(nodes: seq<Node>, i: nat, running: int, limit: int, taskIDs: seq<string>,
                                        start: seq<Node>, done: seq<int>)
    requires i <= |nodes| == |start| && Queued(start, done)
    requires forall j | 0 <= j < |start| :: start[j].id == j
    requires forall k | 0 <= k < |done| :: done[k] < i
    requires forall j | i <= j < |nodes| :: nodes[j] == start[j]
    ensures Queued(start, SubmitFrom(nodes, i, running, limit, taskIDs, done).ids)
    decreases |nodes| - i
  {
    if i < |nodes| && running < limit {
      if nodes[i].phase != Pending {
        SubmitQueues(nodes, i + 1, running, limit, taskIDs, start, done);
      } else if TaskIDFor(taskIDs, i) != "" {
        var next := nodes[i := nodes[i].(phase := Running, taskID := TaskIDFor(taskIDs, i))];
        SubmitQueues(next, i + 1, running + 1, limit, taskIDs, start, done + [i]);
      }
    }
  }

  /** The submitting stage: it launches Pending nodes, never beyond the limit, and
      leaves one Pending only when the limit is reached. */
  lemma SubmitAdvances(nodes: seq<Node>, limit: int, taskIDs: seq<string>)
    requires AllHeld(nodes) && (forall j | 0 <= j < |nodes| :: nodes[j].id == j) && limit > 0
    ensures var s := Submit(nodes, limit, taskIDs);
            s.Submitted? ==>
              && Launches(nodes, s.nodes, s.ids) && AllHeld(s.nodes) && Grows(nodes, s.nodes)
              && CountRunning(s.nodes) <= Max(CountRunning(nodes), limit)
              && TotalWeight(s.nodes) <= TotalWeight(nodes)
              && (s.nodes != nodes ==> TotalWeight(s.nodes) < TotalWeight(nodes))
              && (!HasRunning(s.nodes) ==> !HasPending(s.nodes) && s.nodes == nodes && s.ids == [])
  {
    SubmitLaunches(nodes, 0, CountRunning(nodes), limit, taskIDs, nodes, []);
    match Submit(nodes, limit, taskIDs)
    case QueueError(_) =>
    case Submitted(r, ids) =>
      LaunchingLowersWeight(nodes, r, ids);
      NoneRunning(r);
  }

  lemma LaunchingLowersWeight(nodes: seq<Node>, r: seq<Node>, ids: seq<int>)
    requires Launches(nodes, r, ids)
    ensures TotalWeight(r) <= TotalWeight(nodes)
    ensures r != nodes ==> TotalWeight(r) < TotalWeight(nodes)
    ensures !HasRunning(r) ==> r == nodes && ids == []
  {
    TotalWeightFalls(nodes, r);
    if r != nodes {
      var i :| 0 <= i < |nodes| && r[i] != nodes[i];
      assert Weight(r[i].phase) < Weight(nodes[i].phase);
    }
    assert ids != [] ==> r[ids[0]].phase == Running;
  }

  /* ---------- applying a batch ---------- */

  /** nodes is start after part of a validated batch: old nodes are kept, pruned
      or chosen; new ones are Pending children of old ones. */
  ghost predicate Extends(start: seq<Node>, nodes: seq<Node>) {
    && |start| <= |nodes|
    && (forall i | 0 <= i < |start| ::
          || nodes[i] == start[i]
          || ((nodes[i].phase == Pruned || nodes[i].phase == Solution)
              && nodes[i] == start[i].(phase := nodes[i].phase, scoreMillis := nodes[i].scoreMillis)))
    && (forall i | |start| <= i < |nodes| ::
          && nodes[i].id == i && nodes[i].phase == Pending && nodes[i].taskID == "" && nodes[i].parentID.Some?
          && 0 <= nodes[i].parentID.value < |start|
          && nodes[i].depth == start[nodes[i].parentID.value].depth + 1)
  }

  /** The ids an action names are those of nodes of the tree it was validated against. */
  predicate Targets(a: Action, size: nat) {
    && Complete(a)
    && (a.kind == Expand ==> 0 <= a.parentNode.value < size)
    && (a.kind == Prune || a.kind == Converge ==> 0 <= a.node.value < size)
  }

  ghost predicate Tracks(b: Batch) {
    forall id | id in b.pointers :: b.pointers[id] == id && 0 <= id < |b.nodes|
  }

  lemma ValidatedTargets(actions: seq<Action>, nodes: seq<Node>, hasEvaluator: bool)
    requires AllProblems(actions, nodes, hasEvaluator) == [] && Shape(nodes)
    ensures forall a | a in actions :: Targets(a, |nodes|)
  {
    NoProblemsMeansComplete(actions, nodes, hasEvaluator);
    forall a | a in actions
      ensures Targets(a, |nodes|)
    {
      assert Problems(a, nodes, hasEvaluator) == [];
    }
  }

  lemma {:induction false} BatchExtends(start: seq<Node>, b: Batch, actions: seq<Action>, limit: int, growth: seq<nat>)
    requires b.Valid() && Tracks(b) && b.nodes == start
    requires forall a | a in actions :: Targets(a, |start|)
    requires forall i | 0 <= i < |start| :: start[i].id == i
    ensures forall a | a in actions :: Complete(a)
    ensures var r := ApplyAll(b, actions, limit, growth).batch;
            Tracks(r) && Extends(start, r.nodes) && |r.nodes| <= Max(|start|, limit)
    decreases |actions|
  {
    if actions != [] {
      var k := |actions| - 1;
      BatchExtends(start, b, actions[..k], limit, growth);
      var r := ApplyAll(b, actions[..k], limit, growth);
      if !r.failed {
        assert Targets(actions[k], |start|);
      }
    }
  }

  lemma ExtendsKeepsShape(start: seq<Node>, nodes: seq<Node>)
    requires Shape(start) && Extends(start, nodes)
    ensures Shape(nodes) && Grows(start, nodes)
  {
    assert forall i | 0 <= i < |start| :: Advances(start[i], nodes[i]);
    forall i | 0 < i < |nodes|
      ensures HasParent(nodes, i)
    {
      assert i < |start| ==> HasParent(start, i) && Advances(start[i], nodes[i]);
      var p := nodes[i].parentID.value;
      assert Advances(start[p], nodes[p]);
    }
  }

  lemma ExtendsKeepsBeam(start: seq<Node>, nodes: seq<Node>)
    requires Extends(start, nodes)
    ensures forall d :: |BeamAt(nodes, d)| <= |BeamAt(start, d)|
  {
    forall d
      ensures |BeamAt(nodes, d)| <= |BeamAt(start, d)|
    {
      SubsetIsNoLarger(BeamAt(nodes, d), BeamAt(start, d));
    }
  }

  /** The applying stage: whatever a validated batch does, and wherever it stops. */
  lemma ApplyAdvances(t: Tree, actions: seq<Action>, hasEvaluator: bool, limit: int, spare: nat, growth: seq<nat>)
    requires Shape(t.nodes) && AllProblems(actions, t.nodes, hasEvaluator) == []
    ensures forall a | a in actions :: Complete(a)
    ensures var r := ApplyActions(t, actions, limit, spare, growth);
            && r == t.(nodes := r.nodes, solution := r.solution)
            && Extends(t.nodes, r.nodes) && |r.nodes| <= Max(|t.nodes|, BatchLimit(limit))
  {
    ValidatedTargets(actions, t.nodes, hasEvaluator);
    PointersAreIndices(t.nodes);
    BatchExtends(t.nodes, OpenBatch(t, spare), actions, BatchLimit(limit), growth);
  }

  lemma SubsetIsNoLarger(s: set<int>, t: set<int>)
    requires s <= t
    ensures |s| <= |t|
  {
    assert |t - s| == |t| - |s|;
  }

  /* ---------- truncating ---------- */

  lemma TruncateAdvances(nodes: seq<Node>, maxBytes: int)
    ensures var r := Truncate(nodes, maxBytes);
            && Grows(nodes, r) && (AllHeld(nodes) ==> AllHeld(r)) && CountRunning(r) <= CountRunning(nodes)
            && (forall i | 0 <= i < |nodes| :: r[i].phase == nodes[i].phase)
  {
    RunningFalls(nodes, Truncate(nodes, maxBytes));
  }

  lemma TruncateKeepsBeam(nodes: seq<Node>, maxBytes: int, d: int)
    ensures BeamAt(Truncate(nodes, maxBytes), d) == BeamAt(nodes, d)
  {
  }

  /** A second truncation changes nothing. */
  lemma TruncateTwice(nodes: seq<Node>, maxBytes: int)
    ensures Truncate(Truncate(nodes, maxBytes), maxBytes) == Truncate(nodes, maxBytes)
  {
    forall i | 0 <= i < |nodes|
      ensures Clipped(Clipped(nodes[i], maxBytes), maxBytes) == Clipped(nodes[i], maxBytes)
    {
      if maxBytes > 0 {
        ClipTwice(nodes[i].output, maxBytes);
        ClipTwice(nodes[i].task, maxBytes);
      }
    }
  }

  /** Clipping a clipped text changes nothing, although the mark makes it longer than the limit. */
  lemma ClipTwice(s: string, limit: nat)
    ensures Clip(Clip(s, limit), limit) == Clip(s, limit)
  {
    if |s| > limit {
      assert Clip(s, limit)[..limit] == s[..limit];
    }
  }
}
