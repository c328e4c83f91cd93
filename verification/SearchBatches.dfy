/** A planned batch as it is documented, by node id, and where the batch as it is carried out departs from it. */
module SearchBatches {
  import opened Options
  import opened SearchSpec
  import opened SearchTrees
  import opened SearchStages

  predicate Writes(a: Action) {
    a.kind == Prune || a.kind == Converge
  }

  function Expands(actions: seq<Action>): nat {
    if actions == [] then 0
    else Expands(actions[..|actions| - 1]) + (if actions[|actions| - 1].kind == Expand then 1 else 0)
  }

  /* ---------- the documented batch ---------- */

  /** What an action means: ids are indices, and every change reaches the tree. */
  datatype Outline = Outline(nodes: seq<Node>, solution: Option<int>, failed: bool)

  function Intended(t: Outline, a: Action, limit: int): Outline
    requires Complete(a)
  {
    var n := |t.nodes|;
    if a.kind == Expand then
      if n >= limit || !(0 <= a.parentNode.value < n) then t.(failed := true)
      else
        t.(nodes := t.nodes + [Node(n, a.parentNode, t.nodes[a.parentNode.value].depth + 1, a.task.value, "",
                                    a.scoreMillis, Pending, "")])
    else if Writes(a) then
      if !(0 <= a.node.value < n) then t.(failed := true)
      else
        var m := t.nodes[a.node.value];
        if a.kind == Prune then t.(nodes := t.nodes[a.node.value := m.(phase := Pruned)])
        else
          t.(nodes := t.nodes[a.node.value := m.(phase := Solution,
                                                 scoreMillis := if a.scoreMillis.Some? then a.scoreMillis else m.scoreMillis)],
             solution := a.node)
    else t
  }

  function IntendedAll(t: Outline, actions: seq<Action>, limit: int): (r: Outline)
    requires forall a | a in actions :: Complete(a)
    ensures |t.nodes| <= |r.nodes|
    decreases |actions|
  {
    if actions == [] then t
    else
      var k := |actions| - 1;
      var r := IntendedAll(t, actions[..k], limit);
      if r.failed then r else Intended(r, actions[k], limit)
  }

  function Start(t: Tree): Outline {
    Outline(t.nodes, t.solution, false)
  }

  function Actual(t: Tree, actions: seq<Action>, limit: int, spare: nat, growth: seq<nat>): Outline
    requires forall a | a in actions :: Complete(a)
  {
    var r := ApplyAll(OpenBatch(t, spare), actions, limit, growth);
    Outline(r.batch.nodes, r.batch.solution, r.failed)
  }

  /* ---------- lost writes ---------- */

  ghost predicate Validated(t: Tree, actions: seq<Action>) {
    Shape(t.nodes) && forall a | a in actions :: Targets(a, |t.nodes|)
  }

  lemma ValidatedPrefix(t: Tree, actions: seq<Action>, k: nat)
    requires Validated(t, actions) && k <= |actions|
    ensures Validated(t, actions[..k])
  {
  }

  /** Where a validated batch stands after its actions: how many nodes it has added,
      and whether the pointers taken before it still lead to the tree. */
  ghost predicate Laid(t: Tree, b: Batch, expands: nat, spare: nat) {
    && b.Valid() && Tracks(b)
    && (forall i: int | 0 <= i < |t.nodes| :: i in b.pointers)
    && |b.nodes| == |t.nodes| + expands
    && (if expands <= spare then b.firstFresh == 0 && b.spare == spare - expands else b.firstFresh >= |t.nodes|)
  }

  lemma {:induction false} BatchLayout(t: Tree, actions: seq<Action>, limit: int, spare: nat, growth: seq<nat>)
    requires Validated(t, actions)
    ensures forall a | a in actions :: Complete(a)
    ensures var r := ApplyAll(OpenBatch(t, spare), actions, limit, growth);
            && r.batch.Valid() && Tracks(r.batch)
            && (forall i: int | 0 <= i < |t.nodes| :: i in r.batch.pointers)
            && |t.nodes| <= |r.batch.nodes|
            && (!r.failed ==> Laid(t, r.batch, Expands(actions), spare))
    decreases |actions|
  {
    PointersAreIndices(t.nodes);
    if actions != [] {
      var k := |actions| - 1;
      BatchLayout(t, actions[..k], limit, spare, growth);
      var r := ApplyAll(OpenBatch(t, spare), actions[..k], limit, growth);
      if !r.failed {
        LayoutStep(t, r.batch, Expands(actions[..k]), actions[k], limit, spare, growth);
      }
    }
  }

  lemma LayoutStep(t: Tree, b: Batch, expands: nat, a: Action, limit: int, spare: nat, growth: seq<nat>)
    requires Laid(t, b, expands, spare) && Targets(a, |t.nodes|)
    ensures var next := ApplyOne(b, a, limit, growth);
            && (next.None? <==> a.kind == Expand && |b.nodes| >= limit)
            && (next.Some? ==> Laid(t, next.value, expands + (if a.kind == Expand then 1 else 0), spare))
  {
    if a.kind == Expand {
      var p: int := a.parentNode.value;
      assert p in b.pointers && b.Slot(a.parentNode).Some?;
    } else if Writes(a) {
      var p: int := a.node.value;
      assert p in b.pointers && b.Slot(a.node).Some?;
    }
  }

  /** One action in step with its meaning: they part only when it writes through a
      pointer whose array was abandoned, and would have changed the node. */
  lemma ActionAgrees(t: Tree, b: Batch, expands: nat, a: Action, limit: int, spare: nat, growth: seq<nat>)
    requires Laid(t, b, expands, spare) && Targets(a, |t.nodes|)
    ensures var next := ApplyOne(b, a, limit, growth);
            var meant := Intended(Outline(b.nodes, b.solution, false), a, limit);
            && (next.None? <==> meant.failed)
            && (next.None? ==> meant == Outline(b.nodes, b.solution, true))
            && (next.Some? ==>
                  (meant == Outline(next.value.nodes, next.value.solution, false)
                   <==> !(Writes(a) && expands > spare && Overwrite(b.nodes[a.node.value], a) != b.nodes[a.node.value])))
  {
    if a.kind == Expand {
      var p: int := a.parentNode.value;
      assert p in b.pointers && b.Slot(a.parentNode) == Some(b.pointers[p]) && b.pointers[p] == p;
    } else if Writes(a) {
      var p: int := a.node.value;
      assert p in b.pointers && b.Slot(a.node) == Some(b.pointers[p]) && b.pointers[p] == p;
    }
  }

  /** Action k comes after more expands than the array had room for, the batch gets to
      it, and it would change the node it names. */
  predicate LosesWrite(t: Tree, actions: seq<Action>, k: nat, limit: int, spare: nat)
    requires k < |actions| && forall a | a in actions :: Complete(a)
  {
    var before := IntendedAll(Start(t), actions[..k], limit);
    var a := actions[k];
    && Complete(a) && Writes(a) && Expands(actions[..k]) > spare && !before.failed
    && 0 <= a.node.value < |before.nodes|
    && Overwrite(before.nodes[a.node.value], a) != before.nodes[a.node.value]
  }

  ghost predicate LosesSome(t: Tree, actions: seq<Action>, limit: int, spare: nat)
    requires forall a | a in actions :: Complete(a)
  {
    exists k: nat | k < |actions| :: LosesWrite(t, actions, k, limit, spare)
  }

  ghost predicate AgreesThroughout(t: Tree, actions: seq<Action>, limit: int, spare: nat, growth: seq<nat>)
    requires forall a | a in actions :: Complete(a)
  {
    forall k: nat | k <= |actions| :: Agrees(t, actions[..k], limit, spare, growth)
  }

  /** The actions, carried out one after the other, come to what they say. */
  predicate Agrees(t: Tree, actions: seq<Action>, limit: int, spare: nat, growth: seq<nat>)
    requires forall a | a in actions :: Complete(a)
  {
    Actual(t, actions, limit, spare, growth) == IntendedAll(Start(t), actions, limit)
  }

  /** A validated batch does what it says, action for action, exactly when none of its
      prune or converge actions loses its write to a reallocation of the node list. */
  lemma {:induction false} BatchAsDocumentedIff(t: Tree, actions: seq<Action>, limit: int, spare: nat, growth: seq<nat>)
    requires Validated(t, actions)
    ensures forall a | a in actions :: Complete(a)
    ensures AgreesThroughout(t, actions, limit, spare, growth) <==> !LosesSome(t, actions, limit, spare)
    decreases |actions|
  {
    if actions == [] {
      assert actions[..0] == [];
      assert Agrees(t, [], limit, spare, growth);
    } else {
      var n := |actions| - 1;
      var shorter := actions[..n];
      ValidatedPrefix(t, actions, n);
      BatchAsDocumentedIff(t, shorter, limit, spare, growth);
      LosesMore(t, actions, limit, spare);
      AgreesMore(t, actions, limit, spare, growth);
      if AgreesThroughout(t, shorter, limit, spare, growth) {
        assert shorter[..n] == shorter && Agrees(t, shorter, limit, spare, growth);
        LastAction(t, actions, limit, spare, growth);
      }
    }
  }

  lemma AgreesMore(t: Tree, actions: seq<Action>, limit: int, spare: nat, growth: seq<nat>)
    requires actions != [] && forall a | a in actions :: Complete(a)
    ensures AgreesThroughout(t, actions, limit, spare, growth)
        <==> AgreesThroughout(t, actions[..|actions| - 1], limit, spare, growth) && Agrees(t, actions, limit, spare, growth)
  {
    if AgreesThroughout(t, actions, limit, spare, growth) {
      AgreesBefore(t, actions, limit, spare, growth);
    }
    if AgreesThroughout(t, actions[..|actions| - 1], limit, spare, growth) && Agrees(t, actions, limit, spare, growth) {
      AgreesAfter(t, actions, limit, spare, growth);
    }
  }

  lemma AgreesBefore(t: Tree, actions: seq<Action>, limit: int, spare: nat, growth: seq<nat>)
    requires actions != [] && forall a | a in actions :: Complete(a)
    requires AgreesThroughout(t, actions, limit, spare, growth)
    ensures AgreesThroughout(t, actions[..|actions| - 1], limit, spare, growth) && Agrees(t, actions, limit, spare, growth)
  {
    var shorter := actions[..|actions| - 1];
    forall k: nat | k <= |shorter|
      ensures Agrees(t, shorter[..k], limit, spare, growth)
    {
      assert shorter[..k] == actions[..k];
    }
    assert actions[..|actions|] == actions;
  }

  lemma AgreesAfter(t: Tree, actions: seq<Action>, limit: int, spare: nat, growth: seq<nat>)
    requires actions != [] && forall a | a in actions :: Complete(a)
    requires AgreesThroughout(t, actions[..|actions| - 1], limit, spare, growth) && Agrees(t, actions, limit, spare, growth)
    ensures AgreesThroughout(t, actions, limit, spare, growth)
  {
    var shorter := actions[..|actions| - 1];
    forall k: nat | k <= |actions|
      ensures Agrees(t, actions[..k], limit, spare, growth)
    {
      if k == |actions| {
        assert actions[..k] == actions;
      } else {
        assert shorter[..k] == actions[..k];
      }
    }
  }

  lemma LosesMore(t: Tree, actions: seq<Action>, limit: int, spare: nat)
    requires actions != [] && forall a | a in actions :: Complete(a)
    ensures LosesSome(t, actions, limit, spare)
        <==> LosesSome(t, actions[..|actions| - 1], limit, spare) || LosesWrite(t, actions, |actions| - 1, limit, spare)
  {
    var n := |actions| - 1;
    var shorter := actions[..n];
    assert forall k: nat | k < n :: shorter[..k] == actions[..k] && shorter[k] == actions[k];
    if LosesSome(t, shorter, limit, spare) {
      var k: nat :| k < n && LosesWrite(t, shorter, k, limit, spare);
      assert LosesWrite(t, actions, k, limit, spare);
    }
    if LosesSome(t, actions, limit, spare) {
      var k: nat :| k < |actions| && LosesWrite(t, actions, k, limit, spare);
      assert k < n ==> LosesWrite(t, shorter, k, limit, spare);
    }
  }

  lemma LastAction(t: Tree, actions: seq<Action>, limit: int, spare: nat, growth: seq<nat>)
    requires Validated(t, actions) && actions != []
    ensures forall a | a in actions :: Complete(a)
    ensures var n := |actions| - 1;
            Actual(t, actions[..n], limit, spare, growth) == IntendedAll(Start(t), actions[..n], limit) ==>
              (Actual(t, actions, limit, spare, growth) == IntendedAll(Start(t), actions, limit)
               <==> !LosesWrite(t, actions, n, limit, spare))
  {
    var n := |actions| - 1;
    ValidatedPrefix(t, actions, n);
    BatchLayout(t, actions[..n], limit, spare, growth);
    var r := ApplyAll(OpenBatch(t, spare), actions[..n], limit, growth);
    if !r.failed {
      ActionAgrees(t, r.batch, Expands(actions[..n]), actions[n], limit, spare, growth);
    }
  }

  /** Room for all its expands is enough. */
  lemma RoomIsEnough(t: Tree, actions: seq<Action>, limit: int, spare: nat, growth: seq<nat>)
    requires Validated(t, actions) && Expands(actions) <= spare
    ensures forall a | a in actions :: Complete(a)
    ensures Actual(t, actions, limit, spare, growth) == IntendedAll(Start(t), actions, limit)
  {
    BatchAsDocumentedIff(t, actions, limit, spare, growth);
    forall k: nat | k < |actions|
      ensures !LosesWrite(t, actions, k, limit, spare)
    {
      ExpandsGrow(actions, k);
    }
    assert actions[..|actions|] == actions && Agrees(t, actions[..|actions|], limit, spare, growth);
  }

  lemma {:induction false} ExpandsGrow(actions: seq<Action>, k: nat)
    requires k <= |actions|
    ensures Expands(actions[..k]) <= Expands(actions)
  {
    if k == |actions| {
      assert actions[..k] == actions;
    } else {
      var shorter := actions[..|actions| - 1];
      assert shorter[..k] == actions[..k];
      ExpandsGrow(shorter, k);
    }
  }

  /** A planner that expands the root and then prunes it: with no room in the array the
      root stays Scored, although the batch reports success. */
  lemma PruneAfterExpandIsLost()
    ensures exists t: Tree, actions: seq<Action> {:trigger Validated(t, actions)} ::
              && Validated(t, actions)
              && var r := Actual(t, actions, MaxNodesCap, 0, []);
                 var meant := IntendedAll(Start(t), actions, MaxNodesCap);
                 && !r.failed && |r.nodes| == |meant.nodes| == 2
                 && r.nodes[0].phase == Scored && meant.nodes[0].phase == Pruned
  {
    var root := Node(0, None, 0, "root", "done", Some(500), Scored, "");
    var t := Tree([root], 1, None, None);
    var expand := Action(Expand, Some(0), None, Some("child"), Some(400));
    var prune := Action(Prune, None, Some(0), None, None);
    var actions := [expand, prune];
    assert Validated(t, actions);
    assert actions[..1] == [expand] && [expand][..0] == [] && actions[..0] == [];
    assert t.nodes[..0] == [];
    assert Pointers(t.nodes) == map[0 := 0];
    var opening := OpenBatch(t, 0);
    assert opening.Slot(Some(0)) == Some(0);
    var b := ApplyOne(opening, expand, MaxNodesCap, []);
    assert b.Some? && b.value.firstFresh == 1 && b.value.nodes[0] == root;
    assert b.value.Slot(Some(0)) == Some(0);
    assert ApplyAll(opening, [expand], MaxNodesCap, []) == Applied(b.value, false);
    var c := ApplyOne(b.value, prune, MaxNodesCap, []);
    assert ApplyAll(opening, actions, MaxNodesCap, []) == Applied(c.value, false);
    var meant := Intended(Start(t), expand, MaxNodesCap);
    assert IntendedAll(Start(t), [expand], MaxNodesCap) == meant;
    assert IntendedAll(Start(t), actions, MaxNodesCap) == Intended(meant, prune, MaxNodesCap);
  }

  /* ---------- batches that do not fit ---------- */

  /** A validated batch is cut short exactly when it has more expands than the limit leaves
      room for; what was applied before the cut stays, filling the tree up to the limit. */
  lemma {:induction false} CutShortExactly(t: Tree, actions: seq<Action>, limit: int, spare: nat, growth: seq<nat>)
    requires Validated(t, actions) && |t.nodes| <= limit
    ensures forall a | a in actions :: Complete(a)
    ensures var r := ApplyAll(OpenBatch(t, spare), actions, limit, growth);
            && (r.failed <==> |t.nodes| + Expands(actions) > limit)
            && |r.batch.nodes| == Min(|t.nodes| + Expands(actions), limit)
    decreases |actions|
  {
    if actions != [] {
      var k := |actions| - 1;
      ValidatedPrefix(t, actions, k);
      CutShortExactly(t, actions[..k], limit, spare, growth);
      BatchLayout(t, actions[..k], limit, spare, growth);
      var r := ApplyAll(OpenBatch(t, spare), actions[..k], limit, growth);
      if !r.failed {
        CutShortHere(t, r.batch, Expands(actions[..k]), actions[k], limit, spare, growth);
      }
    }
  }

  /** A planner that expands the root twice where one node more is allowed: the batch fails, its first child stays. */
  lemma SecondExpandDoesNotFit(spare: nat, growth: seq<nat>)
    ensures exists t: Tree, actions: seq<Action> {:trigger Validated(t, actions)} ::
              && Validated(t, actions) && |t.nodes| == 1 && |actions| == Expands(actions) == 2
              && var r := ApplyAll(OpenBatch(t, spare), actions, 2, growth);
                 r.failed && |r.batch.nodes| == 2
  {
    var t := Tree([Node(0, None, 0, "root", "done", Some(500), Scored, "")], 1, None, None);
    var expand := Action(Expand, Some(0), None, Some("child"), Some(400));
    var actions := [expand, expand];
    assert Validated(t, actions);
    assert actions[..1] == [expand] && [expand][..0] == [];
    assert Expands(actions) == Expands(actions[..1]) + 1;
    CutShortExactly(t, actions, 2, spare, growth);
  }

  lemma CutShortHere(t: Tree, b: Batch, expands: nat, a: Action, limit: int, spare: nat, growth: seq<nat>)
    requires Laid(t, b, expands, spare) && Targets(a, |t.nodes|) && |b.nodes| == |t.nodes| + expands <= limit
    ensures var next := ApplyOne(b, a, limit, growth);
            var n := |b.nodes| + (if a.kind == Expand then 1 else 0);
            && (next.None? <==> n > limit)
            && (next.Some? ==> |next.value.nodes| == n)
  {
    LayoutStep(t, b, expands, a, limit, spare, growth);
  }

  /** The length of the longest prefix whose expands find room. */
  function Fitting(actions: seq<Action>, room: int): (n: nat)
    requires room >= 0
    ensures n <= |actions| && Expands(actions[..n]) <= room
    ensures n < |actions| ==> Expands(actions[..n + 1]) > room
  {
    if actions == [] then 0
    else
      var k := |actions| - 1;
      var n := Fitting(actions[..k], room);
      assert actions[..k][..n] == actions[..n];
      assert n < k ==> actions[..k][..n + 1] == actions[..n + 1];
      assert actions[..k + 1] == actions;
      if n == k && Expands(actions) <= room then k + 1 else n
  }

  /** The first n actions go through, and the whole batch comes to no more. */
  predicate StopsAfter(b: Batch, actions: seq<Action>, limit: int, growth: seq<nat>, n: nat)
    requires b.Valid() && n <= |actions| && forall a | a in actions :: Complete(a)
  {
    var r := ApplyAll(b, actions, limit, growth);
    var whole := ApplyAll(b, actions[..n], limit, growth);
    !whole.failed && r.batch == whole.batch && (r.failed <==> n < |actions|)
  }

  /** Wherever a validated batch stops, what it has done is what its longest fitting prefix does, whole. */
  lemma {:induction false} CutShortKeepsPrefix(t: Tree, actions: seq<Action>, limit: int, spare: nat, growth: seq<nat>)
    requires Validated(t, actions) && |t.nodes| <= limit
    ensures forall a | a in actions :: Complete(a)
    ensures StopsAfter(OpenBatch(t, spare), actions, limit, growth, Fitting(actions, limit - |t.nodes|))
    decreases |actions|
  {
    CutShortExactly(t, actions, limit, spare, growth);
    var n := Fitting(actions, limit - |t.nodes|);
    FittingShorter(actions, limit - |t.nodes|);
    if n == |actions| {
      AllGoThrough(OpenBatch(t, spare), actions, limit, growth);
    } else {
      var k := |actions| - 1;
      ValidatedPrefix(t, actions, k);
      CutShortKeepsPrefix(t, actions[..k], limit, spare, growth);
      FailsAtLast(OpenBatch(t, spare), actions, limit, growth, n);
    }
  }

  lemma FittingShorter(actions: seq<Action>, room: int)
    requires room >= 0
    ensures var n := Fitting(actions, room);
            if n == |actions| then Expands(actions) <= room
            else Expands(actions) > room && n == Fitting(actions[..|actions| - 1], room)
  {
    assert actions[..|actions|] == actions;
    var n := Fitting(actions, room);
    if n < |actions| {
      ExpandsGrow(actions, n + 1);
    }
  }

  lemma AllGoThrough(b: Batch, actions: seq<Action>, limit: int, growth: seq<nat>)
    requires b.Valid() && forall a | a in actions :: Complete(a)
    requires !ApplyAll(b, actions, limit, growth).failed
    ensures StopsAfter(b, actions, limit, growth, |actions|)
  {
    assert actions[..|actions|] == actions;
  }

  lemma FailsAtLast(b: Batch, actions: seq<Action>, limit: int, growth: seq<nat>, n: nat)
    requires b.Valid() && n < |actions| && forall a | a in actions :: Complete(a)
    requires StopsAfter(b, actions[..|actions| - 1], limit, growth, n) && ApplyAll(b, actions, limit, growth).failed
    ensures StopsAfter(b, actions, limit, growth, n)
  {
    assert actions[..|actions| - 1][..n] == actions[..n];
  }
}
