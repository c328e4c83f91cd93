/** The search tree of a run as the reconciler changes it, each method proved to compute what SearchSpec says. */
module SearchTrees {
  import opened Options
  import opened SearchSpec

  /* ---------- ordering by score ---------- */

  predicate Listed(nodes: seq<Node>, list: seq<int>) {
    && (forall k | 0 <= k < |list| :: 0 <= list[k] < |nodes| && InBeam(nodes[list[k]]))
    && (forall j, k | 0 <= j < k < |list| :: list[j] != list[k])
  }

  predicate Descending(nodes: seq<Node>, list: seq<int>)
    requires Listed(nodes, list)
  {
    forall j, k | 0 <= j < k < |list| :: nodes[list[j]].scoreMillis.value >= nodes[list[k]].scoreMillis.value
  }

  ghost function Indices(list: seq<int>): set<int> {
    set x | x in list
  }

  lemma {:induction false} DistinctCount(list: seq<int>)
    requires forall j, k | 0 <= j < k < |list| :: list[j] != list[k]
    ensures |Indices(list)| == |list|
  {
    if list != [] {
      var k := |list| - 1;
      DistinctCount(list[..k]);
      assert Indices(list) == Indices(list[..k]) + {list[k]};
    }
  }

  function Inserted(s: seq<int>, at: nat, x: int): (r: seq<int>)
    requires at <= |s|
    ensures |r| == |s| + 1
    ensures forall k | 0 <= k < |r| :: r[k] == if k < at then s[k] else if k == at then x else s[k - 1]
  {
    s[..at] + [x] + s[at..]
  }

  lemma InsertedElements(s: seq<int>, at: nat, x: int)
    requires at <= |s|
    ensures Indices(Inserted(s, at, x)) == Indices(s) + {x}
  {
    assert s == s[..at] + s[at..];
  }

  lemma InsertedListed(nodes: seq<Node>, s: seq<int>, at: nat, x: int)
    requires Listed(nodes, s) && at <= |s| && 0 <= x < |nodes| && InBeam(nodes[x]) && x !in s
    ensures Listed(nodes, Inserted(s, at, x))
  {
    var r := Inserted(s, at, x);
    forall j, k | 0 <= j < k < |r|
      ensures r[j] != r[k]
    {
      if j == at || k == at {
        assert x !in s;
      }
    }
  }

  /** Putting x before the first entry that scores less keeps the order. */
  lemma InsertKeepsOrder(nodes: seq<Node>, s: seq<int>, at: nat, x: int)
    requires Listed(nodes, s) && Descending(nodes, s) && at <= |s|
    requires 0 <= x < |nodes| && InBeam(nodes[x]) && Listed(nodes, Inserted(s, at, x))
    requires forall j | 0 <= j < at :: nodes[s[j]].scoreMillis.value >= nodes[x].scoreMillis.value
    requires at < |s| ==> nodes[s[at]].scoreMillis.value < nodes[x].scoreMillis.value
    ensures Descending(nodes, Inserted(s, at, x))
  {
    assert forall j | at <= j < |s| :: nodes[s[j]].scoreMillis.value <= nodes[x].scoreMillis.value;
  }

  /** The group of depth d lists the scored nodes of that depth among the first n. */
  ghost predicate GroupFits(nodes: seq<Node>, n: nat, byDepth: map<int, seq<int>>, d: int)
    requires n <= |nodes|
  {
    if d in byDepth then Listed(nodes, byDepth[d]) && Indices(byDepth[d]) == BeamAt(nodes[..n], d)
    else BeamAt(nodes[..n], d) == {}
  }

  lemma BeamAtMore(nodes: seq<Node>, i: nat, d: int)
    requires i < |nodes|
    ensures BeamAt(nodes[..i + 1], d)
         == BeamAt(nodes[..i], d) + (if InBeam(nodes[i]) && nodes[i].depth == d then {i} else {})
  {
  }

  lemma GroupsOneMore(nodes: seq<Node>, i: nat, before: map<int, seq<int>>, after: map<int, seq<int>>, d: int)
    requires i < |nodes| && GroupFits(nodes, i, before, d)
    requires after == if !InBeam(nodes[i]) then before
                      else before[nodes[i].depth := (if nodes[i].depth in before then before[nodes[i].depth] else []) + [i]]
    ensures GroupFits(nodes, i + 1, after, d)
  {
    BeamAtMore(nodes, i, d);
    if InBeam(nodes[i]) && nodes[i].depth == d {
      var group := if d in before then before[d] else [];
      assert Indices(group) == BeamAt(nodes[..i], d);
      assert forall x | x in group :: x in Indices(group);
      assert Indices(group + [i]) == Indices(group) + {i};
    }
  }

  method SortByScore(nodes: seq<Node>, list: seq<int>) returns (sorted: seq<int>)
    requires Listed(nodes, list)
    ensures Listed(nodes, sorted) && Descending(nodes, sorted)
    ensures |sorted| == |list| && Indices(sorted) == Indices(list)
  {
    sorted := [];
    for k := 0 to |list|
      invariant Listed(nodes, sorted) && Descending(nodes, sorted)
      invariant |sorted| == k && Indices(sorted) == Indices(list[..k])
    {
      var x, at := list[k], 0;
      while at < k && nodes[sorted[at]].scoreMillis.value >= nodes[x].scoreMillis.value
        invariant at <= k
        invariant forall j | 0 <= j < at :: nodes[sorted[j]].scoreMillis.value >= nodes[x].scoreMillis.value
      {
        at := at + 1;
      }
      assert x !in sorted by {
        assert x !in Indices(list[..k]);
      }
      InsertedListed(nodes, sorted, at, x);
      InsertKeepsOrder(nodes, sorted, at, x);
      InsertedElements(sorted, at, x);
      assert Indices(list[..k + 1]) == Indices(list[..k]) + {x} by {
        assert list[..k + 1] == list[..k] + [x];
      }
      sorted := Inserted(sorted, at, x);
    }
    assert list[..|list|] == list;
  }

  /** Cutting the tail of the sorted scored nodes of one depth keeps the best of them. */
  lemma TailCut(width: nat, a: seq<Node>, b: seq<Node>, d: int, sorted: seq<int>)
    requires |a| == |b| && width <= |sorted|
    requires Listed(a, sorted) && Descending(a, sorted) && Indices(sorted) == BeamAt(a, d)
    requires forall k | 0 <= k < |sorted| ::
               b[sorted[k]] == if k < width then a[sorted[k]] else a[sorted[k]].(phase := Pruned)
    requires forall i | 0 <= i < |a| && i !in BeamAt(a, d) && a[i].depth == d :: b[i] == a[i]
    requires forall i | 0 <= i < |a| :: b[i].depth == a[i].depth
    ensures BestKept(width, a, b, d)
  {
    forall i | i in BeamAt(b, d)
      ensures i in sorted[..width]
    {
      assert i in Indices(sorted);
      var k :| 0 <= k < |sorted| && sorted[k] == i;
      assert sorted[..width][k] == i;
    }
    forall i | i in sorted[..width]
      ensures i in BeamAt(b, d)
    {
      var k :| 0 <= k < width && sorted[k] == i;
      assert i in Indices(sorted);
    }
    assert BeamAt(b, d) == Indices(sorted[..width]);
    DistinctCount(sorted[..width]);
    DistinctCount(sorted);
    forall i, j | i in BeamAt(b, d) && j in BeamAt(a, d) && j !in BeamAt(b, d)
      ensures a[i].scoreMillis.value >= a[j].scoreMillis.value
    {
      assert j in Indices(sorted) && i in sorted[..width];
      var ki :| 0 <= ki < width && sorted[ki] == i;
      var kj :| 0 <= kj < |sorted| && sorted[kj] == j;
      assert forall k | 0 <= k < width :: sorted[..width][k] == sorted[k] && sorted[k] in BeamAt(b, d);
      assert kj >= width;
    }
  }

  /** A depth that is within the width, or has no scored node, is kept whole. */
  lemma WholeKept(width: nat, a: seq<Node>, b: seq<Node>, d: int)
    requires |a| == |b| && |BeamAt(a, d)| <= width
    requires forall i | 0 <= i < |a| :: b[i].depth == a[i].depth
    requires forall i | 0 <= i < |a| && a[i].depth == d :: b[i] == a[i]
    ensures BestKept(width, a, b, d)
  {
    assert BeamAt(b, d) == BeamAt(a, d);
  }

  /* ---------- paths ---------- */

  /** Node i has a parent before it, one level up. */
  predicate HasParent(nodes: seq<Node>, i: int)
    requires 0 <= i < |nodes|
  {
    && nodes[i].parentID.Some?
    && 0 <= nodes[i].parentID.value < i
    && nodes[i].depth == nodes[nodes[i].parentID.value].depth + 1
  }

  /** What the controller keeps true of the node list, and every walk along parents relies on. */
  ghost predicate Shape(nodes: seq<Node>) {
    && |nodes| > 0
    && nodes[0].parentID == None && nodes[0].depth == 0
    && (forall i | 0 <= i < |nodes| :: nodes[i].id == i)
    && (forall i | 0 < i < |nodes| :: HasParent(nodes, i))
  }

  lemma {:induction false} PointersAreIndices(nodes: seq<Node>)
    requires forall i | 0 <= i < |nodes| :: nodes[i].id == i
    ensures forall id :: id in Pointers(nodes) <==> 0 <= id < |nodes|
    ensures forall id | id in Pointers(nodes) :: Pointers(nodes)[id] == id
  {
    if nodes != [] {
      PointersAreIndices(nodes[..|nodes| - 1]);
    }
  }

  class SearchTree {
    var nodes: seq<Node>
    var iterations: int
    var solution: Option<int>
    var reason: Option<Reason>

    function View(): Tree
      reads this
    {
      Tree(nodes, iterations, solution, reason)
    }

    constructor Init(rootPrompt: string)
      ensures View() == InitTree(rootPrompt)
    {
      nodes := [Node(0, None, 0, rootPrompt, "", None, Pending, "")];
      iterations, solution, reason := 0, None, None;
    }

    constructor Load(t: Tree)
      ensures View() == t
    {
      nodes, iterations, solution, reason := t.nodes, t.iterations, t.solution, t.reason;
    }

    /** Applies the answers a queue gives for the nodes that wait on it. */
    method CollectResults(q: Queue, answers: seq<Answer>)
      modifies this`nodes
      ensures nodes == Collect(q, old(nodes), answers)
      ensures forall i | 0 <= i < |nodes| :: Settled(q, old(nodes), answers, nodes, i)
    {
      var taskToNode := TaskMap(q);
      for k := 0 to |answers|
        invariant |nodes| == |old(nodes)|
        invariant nodes == CollectFrom(q, old(nodes), old(nodes), answers[..k])
      {
        assert answers[..k + 1][..k] == answers[..k];
        var res := answers[k];
        if res.taskID in taskToNode {
          var i := taskToNode[res.taskID];
          nodes := nodes[i := Answered(q, nodes[i], res)];
        }
      }
      assert answers[..|answers|] == answers;
      forall i | 0 <= i < |nodes|
        ensures Settled(q, old(nodes), answers, nodes, i)
      {
        CollectSettles(q, old(nodes), answers, i);
      }
    }

    /** Which node waits for which task. */
    method TaskMap(q: Queue) returns (m: map<string, nat>)
      ensures forall t :: t in m <==> Owner(q, nodes, t).Some?
      ensures forall t | t in m :: Owner(q, nodes, t) == Some(m[t])
    {
      m := map[];
      for i := 0 to |nodes|
        invariant forall t :: t in m <==> Owner(q, nodes[..i], t).Some?
        invariant forall t | t in m :: Owner(q, nodes[..i], t) == Some(m[t])
      {
        assert nodes[..i + 1][..i] == nodes[..i];
        if Awaits(q, nodes[i]) {
          m := m[nodes[i].taskID := i];
        }
      }
      assert nodes[..|nodes|] == nodes;
    }

    /** Groups the scored nodes by depth, sorts each group and prunes what exceeds the width. */
    method BeamPrune(width: int)
      modifies this`nodes
      ensures width <= 0 ==> nodes == old(nodes)
      ensures width > 0 ==> BeamPruned(width, old(nodes), nodes)
    {
      if width <= 0 {
        return;
      }
      ghost var was := nodes;
      var byDepth := GroupByDepth();
      assert nodes[..|nodes|] == nodes;
      forall d | d !in byDepth
        ensures BestKept(width, was, nodes, d)
      {
        assert GroupFits(nodes, |nodes|, byDepth, d);
        WholeKept(width, was, nodes, d);
      }
      var depths: set<int> := byDepth.Keys;
      while exists d: int :: d in depths
        invariant |nodes| == |was| && depths <= byDepth.Keys
        invariant forall i | 0 <= i < |was| :: nodes[i] == was[i] || (InBeam(was[i]) && nodes[i] == was[i].(phase := Pruned))
        invariant forall i | 0 <= i < |was| && was[i].depth in depths :: nodes[i] == was[i]
        invariant forall d | d !in depths :: BestKept(width, was, nodes, d)
        decreases depths
      {
        var d: int :| d in depths;
        assert GroupFits(was, |was|, byDepth, d);
        ghost var before := nodes;
        assert BeamAt(before, d) == BeamAt(was, d);
        assert forall k | 0 <= k < |byDepth[d]| :: byDepth[d][k] in Indices(byDepth[d]);
        PruneDepth(width, d, byDepth[d]);
        forall d' | d' !in depths - {d}
          ensures BestKept(width, was, nodes, d')
        {
          NextDepth(width, was, before, nodes, d, d');
        }
        depths := depths - {d};
      }
    }

    method GroupByDepth() returns (byDepth: map<int, seq<int>>)
      ensures forall d :: GroupFits(nodes, |nodes|, byDepth, d)
    {
      byDepth := map[];
      for i := 0 to |nodes|
        invariant forall d :: GroupFits(nodes, i, byDepth, d)
      {
        var n := nodes[i];
        ghost var before := byDepth;
        if InBeam(n) {
          var group := if n.depth in byDepth then byDepth[n.depth] else [];
          byDepth := byDepth[n.depth := group + [i]];
        }
        ghost var m := i + 1;
        forall d
          ensures GroupFits(nodes, m, byDepth, d)
        {
          assert GroupFits(nodes, i, before, d);
          GroupsOneMore(nodes, i, before, byDepth, d);
        }
      }
    }

    /** Sorts the scored nodes of one depth and prunes those past the width. */
    method PruneDepth(width: int, d: int, group: seq<int>)
      requires width > 0 && Listed(nodes, group) && Indices(group) == BeamAt(nodes, d)
      modifies this`nodes
      ensures |nodes| == |old(nodes)| && BestKept(width, old(nodes), nodes, d)
      ensures forall i | 0 <= i < |nodes| ::
                nodes[i] == old(nodes)[i]
                || (InBeam(old(nodes)[i]) && old(nodes)[i].depth == d && nodes[i] == old(nodes)[i].(phase := Pruned))
    {
      DistinctCount(group);
      if |group| <= width {
        WholeKept(width, nodes, nodes, d);
        return;
      }
      ghost var was := nodes;
      var sorted := SortByScore(nodes, group);
      assert forall k | 0 <= k < |sorted| :: sorted[k] in Indices(sorted);
      for k := width to |sorted|
        invariant |nodes| == |was|
        invariant forall j | 0 <= j < |sorted| ::
                    nodes[sorted[j]] == if width <= j < k then was[sorted[j]].(phase := Pruned) else was[sorted[j]]
        invariant forall i | 0 <= i < |was| && i !in BeamAt(was, d) :: nodes[i] == was[i]
      {
        nodes := nodes[sorted[k] := nodes[sorted[k]].(phase := Pruned)];
      }
      forall i | 0 <= i < |nodes|
        ensures nodes[i] == was[i] || (InBeam(was[i]) && was[i].depth == d && nodes[i] == was[i].(phase := Pruned))
      {
        if i in BeamAt(was, d) {
          assert i in Indices(sorted);
          var j :| 0 <= j < |sorted| && sorted[j] == i;
        }
      }
      TailCut(width, was, nodes, d, sorted);
    }

    /** Pruning depth d settles d and leaves the other depths as they were. */
    lemma NextDepth(width: int, was: seq<Node>, before: seq<Node>, now: seq<Node>, d: int, d': int)
      requires |was| == |before| == |now|
      requires BestKept(width, before, now, d)
      requires d' != d ==> BestKept(width, was, before, d')
      requires forall i | 0 <= i < |was| && was[i].depth == d :: before[i] == was[i]
      requires forall i | 0 <= i < |was| :: before[i].depth == was[i].depth == now[i].depth
      requires forall i | 0 <= i < |was| && was[i].depth != d :: now[i] == before[i]
      ensures BestKept(width, was, now, d')
    {
      if d' == d {
        assert BeamAt(before, d) == BeamAt(was, d);
      } else {
        assert BeamAt(now, d') == BeamAt(before, d');
      }
    }

    method CheckConvergence(cfg: Config) returns (r: Option<Reason>)
      ensures r == Convergence(cfg, View())
      ensures FirstToApply(cfg, View(), r)
    {
      ConvergenceIsFirst(cfg, View());
      if solution.Some? {
        return Some(PlannerConverged);
      }
      if cfg.minScorePercent.Some? {
        for i := 0 to |nodes|
          invariant forall j | 0 <= j < i :: !ScoreReaches(cfg, nodes[j])
        {
          if ScoreReaches(cfg, nodes[i]) {
            return Some(MinScoreReached);
          }
        }
      }
      assert forall j | 0 <= j < |nodes| :: !ScoreReaches(cfg, nodes[j]);
      if cfg.maxDepth > 0 {
        for i := 0 to |nodes|
          invariant forall j | 0 <= j < i :: !TooDeep(cfg, nodes[j])
        {
          if TooDeep(cfg, nodes[i]) {
            return Some(MaxDepthReached);
          }
        }
      }
      assert forall j | 0 <= j < |nodes| :: !TooDeep(cfg, nodes[j]);
      if |nodes| >= NodeLimit(cfg) {
        return Some(MaxNodesReached);
      }
      if cfg.maxIterations > 0 && iterations >= cfg.maxIterations {
        return Some(MaxIterationsReached);
      }
      return None;
    }

    /** Submits Pending nodes while fewer than limit run; ok is false when the queue refuses one. */
    method SubmitPending(limit: int, taskIDs: seq<string>) returns (ok: bool, ids: seq<int>)
      modifies this`nodes
      ensures (if ok then Submitted(nodes, ids) else QueueError(ids)) == Submit(old(nodes), limit, taskIDs)
    {
      var running := 0;
      for i := 0 to |nodes|
        invariant running == CountRunning(nodes[..i])
      {
        assert nodes[..i + 1][..i] == nodes[..i];
        if nodes[i].phase == Running {
          running := running + 1;
        }
      }
      assert nodes[..|nodes|] == nodes;
      ids := [];
      var i := 0;
      while i < |nodes| && running < limit
        invariant i <= |nodes|
        invariant SubmitFrom(nodes, i, running, limit, taskIDs, ids) == Submit(old(nodes), limit, taskIDs)
        decreases |nodes| - i
      {
        if nodes[i].phase == Pending {
          var taskID := TaskIDFor(taskIDs, i);
          if taskID == "" {
            return false, ids;
          }
          ids := ids + [nodes[i].id];
          nodes := nodes[i := nodes[i].(phase := Running, taskID := taskID)];
          running := running + 1;
        }
        i := i + 1;
      }
      return true, ids;
    }

    method ContainsRunning() returns (b: bool)
      ensures b == HasRunning(nodes)
    {
      for i := 0 to |nodes|
        invariant forall j | 0 <= j < i :: nodes[j].phase != Running
      {
        if nodes[i].phase == Running {
          return true;
        }
      }
      return false;
    }

    method ValidateActions(actions: seq<Action>, hasEvaluator: bool) returns (errs: seq<Problem>)
      ensures errs == AllProblems(actions, nodes, hasEvaluator)
      ensures errs == [] <==> forall a | a in actions :: Acceptable(a, nodes, hasEvaluator)
    {
      AcceptedIff(actions, nodes, hasEvaluator);
      errs := [];
      for i := 0 to |actions|
        invariant errs == AllProblems(actions[..i], nodes, hasEvaluator)
      {
        assert actions[..i + 1][..i] == actions[..i];
        errs := errs + Problems(actions[i], nodes, hasEvaluator);
      }
      assert actions[..|actions|] == actions;
    }

    /** Applies a batch in place; failed reports an action that could not be applied, at which it stops. */
    method ApplyBatch(actions: seq<Action>, limit: int, spare: nat, growth: seq<nat>) returns (failed: bool)
      requires forall a | a in actions :: Complete(a)
      modifies this`nodes, this`solution
      ensures View() == ApplyActions(old(View()), actions, limit, spare, growth)
      ensures failed == ApplyAll(OpenBatch(old(View()), spare), actions, BatchLimit(limit), growth).failed
    {
      var maxNodes := BatchLimit(limit);
      var b := OpenBatch(View(), spare);
      ghost var start := b;
      for k := 0 to |actions|
        invariant b.Valid() && b.nodes == nodes && b.solution == solution
        invariant ApplyAll(start, actions[..k], maxNodes, growth) == Applied(b, false)
      {
        assert actions[..k + 1][..k] == actions[..k];
        assert Complete(actions[k]);
        var stop;
        stop, b := ApplyAction(b, actions[k], maxNodes, growth);
        if stop {
          StopsHere(start, actions, k, maxNodes, growth);
          return true;
        }
      }
      assert actions[..|actions|] == actions;
      return false;
    }

    method ApplyAction(b: Batch, a: Action, limit: int, growth: seq<nat>) returns (failed: bool, next: Batch)
      requires b.Valid() && Complete(a) && b.nodes == nodes && b.solution == solution
      modifies this`nodes, this`solution
      ensures next.Valid() && next.nodes == nodes && next.solution == solution
      ensures ApplyOne(b, a, limit, growth) == if failed then None else Some(next)
      ensures failed ==> next == b
    {
      next := b;
      if a.kind == Expand {
        var parent := b.Slot(a.parentNode);
        if |nodes| >= limit || parent.None? {
          return true, b;
        }
        var n := |nodes|;
        nodes := nodes + [Node(n, a.parentNode, nodes[parent.value].depth + 1, a.task.value, "", a.scoreMillis, Pending, "")];
        next := if b.spare > 0 then b.(spare := b.spare - 1)
                else b.(spare := if n < |growth| then growth[n] else 0, firstFresh := n);
        next := next.(nodes := nodes, pointers := b.pointers[n := n]);
      } else if a.kind == Prune || a.kind == Converge {
        var target := b.Slot(a.node);
        if target.None? {
          return true, b;
        }
        if b.firstFresh <= target.value {
          nodes := nodes[target.value := Overwrite(nodes[target.value], a)];
        }
        if a.kind == Converge {
          solution := a.node;
        }
        next := next.(nodes := nodes, solution := solution);
      }
      return false, next;
    }

    /** Once an action fails, the rest of the batch is not looked at. */
    lemma {:induction false} StopsHere(b: Batch, actions: seq<Action>, k: nat, limit: int, growth: seq<nat>)
      requires b.Valid() && k < |actions| && forall a | a in actions :: Complete(a)
      requires var r := ApplyAll(b, actions[..k], limit, growth);
               !r.failed && ApplyOne(r.batch, actions[k], limit, growth).None?
      ensures ApplyAll(b, actions, limit, growth) == Applied(ApplyAll(b, actions[..k], limit, growth).batch, true)
    {
      if k + 1 == |actions| {
        assert actions[..k] == actions[..|actions| - 1];
      } else {
        var shorter := actions[..|actions| - 1];
        assert shorter[..k] == actions[..k];
        StopsHere(b, shorter, k, limit, growth);
      }
    }

    method TruncateOutputs(maxBytes: int)
      modifies this`nodes
      ensures nodes == Truncate(old(nodes), maxBytes)
    {
      if maxBytes <= 0 {
        return;
      }
      for i := 0 to |nodes|
        invariant |nodes| == |old(nodes)|
        invariant forall j | 0 <= j < |nodes| :: nodes[j] == if j < i then Clipped(old(nodes)[j], maxBytes) else old(nodes)[j]
      {
        nodes := nodes[i := nodes[i].(output := Clip(nodes[i].output, maxBytes), task := Clip(nodes[i].task, maxBytes))];
      }
    }

    /** The output of a finished run: the solution's, else that of the best scored node. */
    method ChooseOutput(output: string) returns (r: string)
      ensures r == FinalOutput(View(), output)
      ensures IsOutput(View(), output, r)
    {
      OutputIsChosen(View(), output);
      r := output;
      if solution.Some? {
        for i := 0 to |nodes|
          invariant r == output && FirstWithID(nodes[..i], solution.value) == None
        {
          assert nodes[..i + 1][..i] == nodes[..i];
          if nodes[i].id == solution.value {
            FirstStays(nodes, i + 1, solution.value);
            return nodes[i].output;
          }
        }
        assert nodes[..|nodes|] == nodes;
      } else {
        var best := BestScored();
        if best.Some? {
          r := nodes[best.value].output;
        }
      }
    }

    method BestScored() returns (best: Option<nat>)
      ensures best == Best(nodes)
    {
      best := None;
      for i := 0 to |nodes|
        invariant best == Best(nodes[..i])
      {
        assert nodes[..i + 1][..i] == nodes[..i];
        if nodes[i].scoreMillis.Some?
           && (best.None? || nodes[i].scoreMillis.value > nodes[best.value].scoreMillis.value) {
          best := Some(i);
        }
      }
      assert nodes[..|nodes|] == nodes;
    }

    lemma {:induction false} FirstStays(ns: seq<Node>, k: nat, id: int)
      requires k <= |ns| && FirstWithID(ns[..k], id).Some?
      ensures FirstWithID(ns, id) == FirstWithID(ns[..k], id)
    {
      if k == |ns| {
        assert ns[..k] == ns;
      } else {
        var shorter := ns[..|ns| - 1];
        assert shorter[..k] == ns[..k];
        FirstStays(shorter, k, id);
      }
    }

    method CancelTasks() returns (ids: seq<string>)
      ensures ids == CancelList(nodes)
    {
      ids := [];
      for i := 0 to |nodes|
        invariant ids == CancelList(nodes[..i])
      {
        assert nodes[..i + 1][..i] == nodes[..i];
        var n := nodes[i];
        if n.taskID != "" && (n.phase == Running || n.phase == Pending) {
          ids := ids + [n.taskID];
        }
      }
      assert nodes[..|nodes|] == nodes;
    }
  }
}
