/** The planner's view of the tree: frontier nodes, each with its path from the root. */
module SearchPaths {
  import opened Options
  import opened SearchSpec
  import opened SearchTrees
  import opened SearchStages
  import opened SearchInvariants

  /** The ancestors of node i, root first. */
  function Ancestors(nodes: seq<Node>, i: int): seq<Node>
    requires 0 <= i < |nodes| && forall k | 0 < k < |nodes| :: HasParent(nodes, k)
    decreases i
  {
    if i == 0 then []
    else
      assert HasParent(nodes, i);
      var p := nodes[i].parentID.value;
      Ancestors(nodes, p) + [nodes[p]]
  }

  /** They number as many as the node is deep, lie one level apart, start at the root, and each is
      the parent of the next; the last one is the node's own parent. */
  lemma {:induction false} AncestorsAreThePath(nodes: seq<Node>, i: int)
    requires Shape(nodes) && 0 <= i < |nodes|
    ensures var path := Ancestors(nodes, i);
            && |path| == nodes[i].depth
            && (forall k | 0 <= k < |path| :: 0 <= path[k].id < i && path[k] == nodes[path[k].id] && path[k].depth == k)
            && (forall k | 0 < k < |path| :: path[k].parentID == Some(path[k - 1].id))
            && (i > 0 ==> path != [] && path[0] == nodes[0] && nodes[i].parentID == Some(path[|path| - 1].id))
    decreases i
  {
    if i > 0 {
      assert HasParent(nodes, i);
      AncestorsAreThePath(nodes, nodes[i].parentID.value);
    }
  }

  lemma OnlyTheRoot(nodes: seq<Node>, i: int)
    requires Shape(nodes) && 0 <= i < |nodes|
    ensures nodes[i].parentID.None? <==> i == 0
  {
    assert i > 0 ==> HasParent(nodes, i);
  }

  /** Walks the parent ids up to the root, then reverses the path in place. */
  method BuildPathFromRoot(nodes: seq<Node>, i: int) returns (path: seq<Node>)
    requires Shape(nodes) && 0 <= i < |nodes|
    ensures path == Ancestors(nodes, i)
  {
    path := [];
    var current := nodes[i].parentID;
    ghost var at := i;
    while current.Some?
      invariant 0 <= at < |nodes| && current == nodes[at].parentID
      invariant Ancestors(nodes, at) + Reversed(path) == Ancestors(nodes, i)
      decreases at
    {
      assert HasParent(nodes, at);
      var parent := nodes[current.value];
      ReversedSnoc(path, parent);
      path := path + [parent];
      at := current.value;
      current := parent.parentID;
    }
    OnlyTheRoot(nodes, at);
    ghost var up := path;
    var a, b := 0, |path| - 1;
    while a < b
      invariant 0 <= a && b == |up| - 1 - a && |path| == |up| && a <= b + 1
      invariant forall k | a <= k <= b :: path[k] == up[k]
      invariant forall k | 0 <= k < a :: path[k] == up[|up| - 1 - k]
      invariant forall k | b < k < |up| :: path[k] == up[|up| - 1 - k]
    {
      path := path[a := path[b]][b := path[a]];
      a, b := a + 1, b - 1;
    }
    ReversedAt(up);
    assert path == Reversed(up);
  }

  function Reversed<T>(s: seq<T>): (r: seq<T>)
    ensures |r| == |s|
  {
    if s == [] then [] else Reversed(s[1..]) + [s[0]]
  }

  lemma {:induction false} ReversedSnoc<T>(s: seq<T>, x: T)
    ensures Reversed(s + [x]) == [x] + Reversed(s)
  {
    if s == [] {
      assert [x][1..] == [];
    } else {
      ReversedSnoc(s[1..], x);
      assert (s + [x])[1..] == s[1..] + [x];
    }
  }

  lemma {:induction false} ReversedAt<T>(s: seq<T>)
    ensures forall k | 0 <= k < |s| :: Reversed(s)[k] == s[|s| - 1 - k]
  {
    if s != [] {
      ReversedAt(s[1..]);
    }
  }

  datatype FrontierEntry = FrontierEntry(node: Node, pathFromRoot: seq<Node>)

  /** The Pending nodes, each with its path, as the planner's context lists them. */
  function Frontier(nodes: seq<Node>, upTo: nat): seq<FrontierEntry>
    requires Shape(nodes) && upTo <= |nodes|
  {
    if upTo == 0 then []
    else
      Frontier(nodes, upTo - 1)
      + (if nodes[upTo - 1].phase == Pending then [FrontierEntry(nodes[upTo - 1], Ancestors(nodes, upTo - 1))] else [])
  }

  method BuildFrontier(nodes: seq<Node>) returns (frontier: seq<FrontierEntry>)
    requires Shape(nodes)
    ensures frontier == Frontier(nodes, |nodes|)
  {
    frontier := [];
    for i := 0 to |nodes|
      invariant frontier == Frontier(nodes, i)
    {
      if nodes[i].phase == Pending {
        var path := BuildPathFromRoot(nodes, i);
        frontier := frontier + [FrontierEntry(nodes[i], path)];
      }
    }
  }

  lemma {:induction false} NoPendingNoFrontier(nodes: seq<Node>, upTo: nat)
    requires Shape(nodes) && upTo <= |nodes|
    ensures Frontier(nodes, upTo) == [] <==> forall i | 0 <= i < upTo :: nodes[i].phase != Pending
  {
    if upTo > 0 {
      NoPendingNoFrontier(nodes, upTo - 1);
    }
  }

  /** The planner is asked only once nothing is in flight, and then nothing is waiting
      either: the frontier it is sent is always empty. */
  lemma PlannerSeesNoFrontier(cfg: Config, s: Run, e: Env, s': Run, fx: Effects)
    requires Inv(cfg, s) && Step(cfg, s, e, s', fx) && fx.planned
    ensures exists seen: seq<Node> {:trigger Shape(seen)} ::
              && Shape(seen) && Frontier(seen, |seen|) == []
              && !HasRunning(seen) && !HasPending(seen)
              && var t := Current(cfg, s).(nodes := seen);
                 EndsAs(e, s, Plan(cfg, s, t, e, []), s', fx)
  {
    var t := Current(cfg, s);
    var beamed :| StepVia(cfg, s, e, s', fx, beamed);
    CollectAndPruneKeep(cfg, t, e, beamed);
    var t1 := t.(nodes := beamed);
    SubmitAdvances(beamed, MaxParallel(cfg), e.taskIDs);
    var sub := Submit(beamed, MaxParallel(cfg), e.taskIDs);
    assert Convergence(cfg, t1).None? && sub.Submitted? && !HasRunning(sub.nodes);
    assert t1.(nodes := sub.nodes) == t1;
    NoPendingNoFrontier(beamed, |beamed|);
    assert Shape(beamed) && EndsAs(e, s, Plan(cfg, s, t1, e, []), s', fx);
  }
}
