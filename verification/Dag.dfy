/** Validating a dependency graph: the depth-first search for a cycle. */
module Dag {
  import opened Options
  import opened PipelineSpec

  type Graph = map<string, seq<string>>

  function Deps(g: Graph, n: string): seq<string> {
    if n in g then g[n] else []
  }

  predicate Edge(g: Graph, a: string, b: string) {
    b in Deps(g, a)
  }

  predicate IsPath(g: Graph, path: seq<string>) {
    forall i | 0 <= i < |path| - 1 :: Edge(g, path[i], path[i + 1])
  }

  ghost predicate Cyclic(g: Graph) {
    exists path :: IsCycle(g, path)
  }

  predicate IsCycle(g: Graph, path: seq<string>) {
    |path| >= 2 && IsPath(g, path) && path[0] == path[|path| - 1]
  }

  /* ---------- an order in which every name comes after its dependencies ---------- */

  predicate DepsBefore(g: Graph, order: seq<string>, i: nat)
    requires i < |order|
  {
    forall d | d in Deps(g, order[i]) :: d in order[..i]
  }

  predicate Ordered(g: Graph, order: seq<string>) {
    forall i | 0 <= i < |order| :: DepsBefore(g, order, i)
  }

  function Place(order: seq<string>, x: string): (i: nat)
    requires x in order
    ensures i < |order| && order[i] == x && x !in order[..i]
  {
    if order[0] == x then 0
    else
      var i := Place(order[1..], x);
      assert order[..i + 1] == [order[0]] + order[1..][..i];
      i + 1
  }

  lemma DependencyPlacedBefore(g: Graph, order: seq<string>, a: string, b: string)
    requires Ordered(g, order) && a in order && Edge(g, a, b)
    ensures b in order && Place(order, b) < Place(order, a)
  {
    var i := Place(order, a);
    assert DepsBefore(g, order, i);
  }

  lemma {:induction false} PathGoesBack(g: Graph, order: seq<string>, path: seq<string>, k: nat)
    requires Ordered(g, order) && IsPath(g, path) && 1 <= k < |path| && path[0] in order
    ensures path[k] in order && Place(order, path[k]) < Place(order, path[0])
  {
    if k > 1 {
      PathGoesBack(g, order, path, k - 1);
    }
    assert Edge(g, path[k - 1], path[k]);
    DependencyPlacedBefore(g, order, path[k - 1], path[k]);
  }

  /** A graph whose names can all be put in order has no cycle. */
  lemma OrderedIsAcyclic(g: Graph, order: seq<string>)
    requires Ordered(g, order) && forall n | n in g :: n in order
    ensures !Cyclic(g)
  {
    if Cyclic(g) {
      var path :| IsCycle(g, path);
      assert Edge(g, path[0], path[1]);
      PathGoesBack(g, order, path, |path| - 1);
    }
  }

  /* ---------- a set of names each of which waits for one of them ---------- */

  predicate WaitsWithin(g: Graph, names: set<string>, n: string) {
    exists d :: d in names && Edge(g, n, d)
  }

  lemma {:induction false} Walk(g: Graph, names: set<string>, start: string, steps: nat) returns (path: seq<string>)
    requires start in names && forall n {:trigger WaitsWithin(g, names, n)} | n in names :: WaitsWithin(g, names, n)
    ensures |path| == steps + 1 && IsPath(g, path) && forall i | 0 <= i < |path| :: path[i] in names
  {
    if steps == 0 {
      path := [start];
    } else {
      var before := Walk(g, names, start, steps - 1);
      assert WaitsWithin(g, names, before[steps - 1]);
      var d :| d in names && Edge(g, before[steps - 1], d);
      path := before + [d];
    }
  }

  /** A sequence longer than the set it draws from repeats an element. */
  lemma {:induction false} Repeats(s: seq<string>, names: set<string>) returns (i: nat, j: nat)
    requires |s| > |names| && forall k | 0 <= k < |s| :: s[k] in names
    ensures i < j < |s| && s[i] == s[j]
  {
    var n := |s| - 1;
    if k: nat :| k < n && s[k] == s[n] {
      i, j := k, n;
    } else {
      assert s[n] in names;
      i, j := Repeats(s[..n], names - {s[n]});
    }
  }

  lemma WaitingInACircle(g: Graph, names: set<string>)
    requires names != {} && forall n {:trigger WaitsWithin(g, names, n)} | n in names :: WaitsWithin(g, names, n)
    ensures Cyclic(g)
  {
    var start :| start in names;
    var path := Walk(g, names, start, |names|);
    var i, j := Repeats(path, names);
    var loop := path[i..j + 1];
    forall k | 0 <= k < |loop| - 1
      ensures Edge(g, loop[k], loop[k + 1])
    {
      assert Edge(g, path[i + k], path[i + k + 1]);
    }
    assert IsCycle(g, loop);
  }

  /* ---------- the search ---------- */

  datatype Color = White | Gray | Black

  class Search {
    const g: Graph
    var color: map<string, Color>
    /** The finished names, in the order they were finished. */
    ghost var order: seq<string>

    constructor (adj: Graph)
      ensures g == adj && Valid([]) && order == []
    {
      g, color, order := adj, map[], [];
    }

    function ColorOf(n: string): Color
      reads this
    {
      if n in color then color[n] else White
    }

    ghost function Names(): set<string>
      reads this
    {
      g.Keys + (set n, d | n in g && d in g[n] :: d)
    }

    ghost function Whites(): set<string>
      reads this
    {
      set n | n in Names() && ColorOf(n) == White
    }

    /** The gray names are the path the search is on; the black ones are in order. */
    ghost predicate Valid(path: seq<string>)
      reads this
    {
      && IsPath(g, path)
      && Ordered(g, order)
      && (forall n :: ColorOf(n) == Gray <==> n in path)
      && (forall n :: ColorOf(n) == Black <==> n in order)
    }

    /** Finishes the name, or finds a cycle. */
    method Visit(name: string, ghost path: seq<string>) returns (cycle: bool)
      requires Valid(path) && IsPath(g, path + [name])
      requires name in Names() && ColorOf(name) == White
      modifies this
      ensures cycle ==> Cyclic(g)
      ensures !cycle ==> Valid(path) && ColorOf(name) == Black && old(order) <= order
      ensures !cycle ==> Whites() <= old(Whites())
      decreases Whites()
    {
      ghost var here := path + [name];
      Enter(name, path);
      var deps := if name in g then g[name] else [];
      for d := 0 to |deps|
        invariant Valid(here) && old(order) <= order && Whites() < old(Whites())
        invariant forall c | 0 <= c < d :: deps[c] in order
      {
        var dep := deps[d];
        assert Edge(g, name, dep);
        if ColorOf(dep) == Gray {
          ClosesCycle(here, dep);
          return true;
        }
        if ColorOf(dep) == White {
          assert IsPath(g, here + [dep]);
          var found := Visit(dep, here);
          if found {
            return true;
          }
        }
      }
      Leave(name, path);
      return false;
    }

    method Enter(name: string, ghost path: seq<string>)
      requires Valid(path) && IsPath(g, path + [name]) && name in Names() && ColorOf(name) == White
      modifies this`color
      ensures Valid(path + [name]) && Whites() < old(Whites())
    {
      ghost var here := path + [name];
      color := color[name := Gray];
      assert Valid(here) by {
        assert here[|here| - 1] == name;
        assert forall n :: n in here <==> n in path || n == name;
      }
      assert name !in Whites();
    }

    method Leave(name: string, ghost path: seq<string>)
      requires Valid(path + [name]) && name !in path
      requires IsPath(g, path) && forall d | d in Deps(g, name) :: d in order
      modifies this
      ensures Valid(path) && ColorOf(name) == Black && Whites() == old(Whites()) && order == old(order) + [name]
    {
      assert (path + [name])[|path|] == name;
      FinishOrdered(g, order, name);
      color := color[name := Black];
      order := order + [name];
      assert forall n :: n in path + [name] <==> n in path || n == name;
      assert forall n :: n in order <==> n in order[..|order| - 1] || n == name;
    }

    lemma ClosesCycle(here: seq<string>, dep: string)
      requires here != [] && IsPath(g, here) && dep in here && Edge(g, here[|here| - 1], dep)
      ensures Cyclic(g)
    {
      var i :| 0 <= i < |here| && here[i] == dep;
      var loop := here[i..] + [dep];
      forall j | 0 <= j < |loop| - 1
        ensures Edge(g, loop[j], loop[j + 1])
      {
        if j < |loop| - 2 {
          assert Edge(g, here[i + j], here[i + j + 1]);
        }
      }
      assert IsCycle(g, loop);
    }
  }

  lemma FinishOrdered(g: Graph, order: seq<string>, name: string)
    requires Ordered(g, order) && forall d | d in Deps(g, name) :: d in order
    ensures Ordered(g, order + [name])
  {
    var after := order + [name];
    forall i | 0 <= i < |after|
      ensures DepsBefore(g, after, i)
    {
      if i < |order| {
        assert DepsBefore(g, order, i);
        assert after[..i] == order[..i];
      } else {
        assert after[..i] == order;
      }
    }
  }

  /** Finds a cycle exactly when there is one; otherwise the order names were finished in is a schedule. */
  method DetectCycle(g: Graph) returns (cycle: bool, ghost order: seq<string>)
    ensures cycle <==> Cyclic(g)
    ensures !cycle ==> Ordered(g, order) && forall n | n in g :: n in order
  {
    var search := new Search(g);
    var rest := g.Keys;
    while rest != {}
      invariant rest <= g.Keys && search.Valid([]) && search.g == g
      invariant forall n | n in g.Keys - rest :: n in search.order
      decreases rest
    {
      var name :| name in rest;
      if search.ColorOf(name) == White {
        var found := search.Visit(name, []);
        if found {
          return true, [];
        }
      }
      rest := rest - {name};
    }
    order := search.order;
    OrderedIsAcyclic(g, order);
    return false, order;
  }

  /* ---------- a pipeline's graph ---------- */

  /** A role's dependencies are those of the last step of that role. */
  function GraphOf(p: seq<PipelineStep>): (g: Graph)
    ensures forall n :: n in g <==> Owner(p, n).Some?
    ensures forall n | n in g :: g[n] == p[Owner(p, n).value].dependsOn
  {
    map n | n in (set i | 0 <= i < |p| :: p[i].role) :: p[Owner(p, n).value].dependsOn
  }

  predicate KnownDeps(p: seq<PipelineStep>, k: nat)
    requires k < |p|
  {
    forall d | d in p[k].dependsOn :: Owner(p, d).Some?
  }

  ghost predicate ValidPipeline(p: seq<PipelineStep>) {
    (forall k | 0 <= k < |p| :: KnownDeps(p, k)) && !Cyclic(GraphOf(p))
  }

  method KnowsAllDeps(p: seq<PipelineStep>) returns (ok: bool)
    ensures ok <==> forall k | 0 <= k < |p| :: KnownDeps(p, k)
  {
    for k := 0 to |p|
      invariant forall j | 0 <= j < k :: KnownDeps(p, j)
    {
      var deps := p[k].dependsOn;
      for d := 0 to |deps|
        invariant forall c | 0 <= c < d :: Owner(p, deps[c]).Some?
      {
        if Owner(p, deps[d]).None? {
          assert !KnownDeps(p, k);
          return false;
        }
      }
    }
    return true;
  }

  method BuildGraph(p: seq<PipelineStep>) returns (adj: Graph)
    ensures adj == GraphOf(p)
  {
    adj := map[];
    for k := 0 to |p|
      invariant forall n :: n in adj <==> Owner(p[..k], n).Some?
      invariant forall n | n in adj :: adj[n] == p[Owner(p[..k], n).value].dependsOn
    {
      assert p[..k + 1][..k] == p[..k];
      adj := adj[p[k].role := p[k].dependsOn];
    }
    assert p[..|p|] == p;
  }

  /** Accepts a pipeline exactly when every dependency is a step of it and none is circular. */
  method ValidatePipeline(p: seq<PipelineStep>) returns (ok: bool, ghost order: seq<string>)
    ensures ok <==> ValidPipeline(p)
    ensures ok ==> Ordered(GraphOf(p), order) && forall k | 0 <= k < |p| :: p[k].role in order
  {
    order := [];
    ok := KnowsAllDeps(p);
    if ok {
      var adj := BuildGraph(p);
      var cycle;
      cycle, order := DetectCycle(adj);
      ok := !cycle;
    }
  }
}
