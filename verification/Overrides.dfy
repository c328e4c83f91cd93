/** Lists of named entries in which a later entry overrides an earlier one of the same name. */
module Overrides {

  datatype Entry<+V> = Entry(name: string, value: V)

  function Names<V(==)>(s: seq<Entry<V>>): set<string> {
    set e | e in s :: e.name
  }

  /** Where a name first occurs. */
  function First<V(==)>(s: seq<Entry<V>>, name: string): (i: nat)
    requires name in Names(s)
    ensures i < |s| && s[i].name == name && forall j | 0 <= j < i :: s[j].name != name
  {
    if s[0].name == name then 0
    else
      assert s == [s[0]] + s[1..];
      1 + First(s[1..], name)
  }

  /** Where a name last occurs. */
  function LastPlace<V(==)>(s: seq<Entry<V>>, name: string): (i: nat)
    requires name in Names(s)
    ensures i < |s| && s[i].name == name && forall j | i < j < |s| :: s[j].name != name
  {
    var n := |s| - 1;
    if s[n].name == name then n
    else
      assert s == s[..n] + [s[n]];
      LastPlace(s[..n], name)
  }

  /** The last entry of a name. */
  function Last<V(==)>(s: seq<Entry<V>>, name: string): (e: Entry<V>)
    requires name in Names(s)
    ensures e in s && e.name == name
  {
    s[LastPlace(s, name)]
  }

  /** The place of r[i] in s, as the order goes by first occurrences. */
  function PlaceOf<V(==)>(s: seq<Entry<V>>, r: seq<Entry<V>>, i: nat): nat
    requires i < |r| && Names(r) <= Names(s)
  {
    assert r[i] in r;
    First(s, r[i].name)
  }

  predicate LatestAt<V(==)>(s: seq<Entry<V>>, r: seq<Entry<V>>, i: nat)
    requires i < |r| && Names(r) <= Names(s)
  {
    assert r[i] in r;
    r[i] == Last(s, r[i].name)
  }

  /** r holds each name of s once, in the order of first occurrences, with its last value. */
  predicate IsMerged<V(==)>(s: seq<Entry<V>>, r: seq<Entry<V>>) {
    && Names(r) == Names(s)
    && (forall i, j | 0 <= i < j < |r| :: PlaceOf(s, r, i) < PlaceOf(s, r, j))
    && (forall i | 0 <= i < |r| :: LatestAt(s, r, i))
  }

  /* ---------- it is determined ---------- */

  predicate Increasing(a: seq<nat>) {
    forall i, j | 0 <= i < j < |a| :: a[i] < a[j]
  }

  lemma {:induction false} IncreasingUnique(a: seq<nat>, b: seq<nat>)
    requires Increasing(a) && Increasing(b) && forall x :: x in a <==> x in b
    ensures a == b
  {
    assert a != [] ==> a[|a| - 1] in b;
    assert b != [] ==> b[|b| - 1] in a;
    if a != [] {
      var m, n := |a| - 1, |b| - 1;
      forall x
        ensures x in a[..m] <==> x in b[..n]
      {
        assert x in a[..m] <==> x in a && x != a[m];
        assert x in b[..n] <==> x in b && x != b[n];
      }
      IncreasingUnique(a[..m], b[..n]);
      assert a == a[..m] + [a[m]] && b == b[..n] + [b[n]];
    }
  }

  function Places<V(==)>(s: seq<Entry<V>>, r: seq<Entry<V>>): seq<nat>
    requires Names(r) <= Names(s)
  {
    seq(|r|, i requires 0 <= i < |r| => PlaceOf(s, r, i))
  }

  lemma PlacesAreFirsts<V>(s: seq<Entry<V>>, r: seq<Entry<V>>, x: nat)
    requires IsMerged(s, r)
    ensures x in Places(s, r) <==> x < |s| && First(s, s[x].name) == x
  {
    if x in Places(s, r) {
      var i :| 0 <= i < |r| && Places(s, r)[i] == x;
      assert r[i] in r;
    }
    if x < |s| && First(s, s[x].name) == x {
      assert s[x] in s;
      assert s[x].name in Names(r);
      var e :| e in r && e.name == s[x].name;
      var i :| 0 <= i < |r| && r[i] == e;
      assert Places(s, r)[i] == x;
    }
  }

  /** Two merges of one list are the same. */
  lemma MergeIsUnique<V>(s: seq<Entry<V>>, r: seq<Entry<V>>, t: seq<Entry<V>>)
    requires IsMerged(s, r) && IsMerged(s, t)
    ensures r == t
  {
    var a, b := Places(s, r), Places(s, t);
    forall x: nat
      ensures x in a <==> x in b
    {
      PlacesAreFirsts(s, r, x);
      PlacesAreFirsts(s, t, x);
    }
    IncreasingUnique(a, b);
    forall i | 0 <= i < |r|
      ensures r[i] == t[i]
    {
      assert a[i] == b[i];
      assert PlaceOf(s, r, i) == PlaceOf(s, t, i);
      assert LatestAt(s, r, i) && LatestAt(s, t, i);
    }
  }

  /* ---------- the order of last occurrences ---------- */

  function LastPlaceOf<V(==)>(s: seq<Entry<V>>, r: seq<Entry<V>>, i: nat): nat
    requires i < |r| && Names(r) <= Names(s)
  {
    assert r[i] in r;
    LastPlace(s, r[i].name)
  }

  /** r goes by last occurrences. */
  predicate InLastOrder<V(==)>(s: seq<Entry<V>>, r: seq<Entry<V>>)
    requires Names(r) <= Names(s)
  {
    forall i, j | 0 <= i < j < |r| :: LastPlaceOf(s, r, i) < LastPlaceOf(s, r, j)
  }

  predicate InOrder<V(==)>(s: seq<Entry<V>>, x: string, y: string)
    requires x in Names(s) && y in Names(s)
  {
    First(s, x) < First(s, y) ==> LastPlace(s, x) < LastPlace(s, y)
  }

  /** Names first occur in the order in which they last do. */
  ghost predicate OrderedAlike<V>(s: seq<Entry<V>>) {
    forall x, y | x in Names(s) && y in Names(s) :: InOrder(s, x, y)
  }

  /** A merged list goes by last occurrences too if and only if first and last occurrences are ordered alike:
      an overriding entry changes the value of its name, and never its place. */
  lemma LastOrderIff<V>(s: seq<Entry<V>>, r: seq<Entry<V>>)
    requires IsMerged(s, r)
    ensures InLastOrder(s, r) <==> OrderedAlike(s)
  {
    if OrderedAlike(s) {
      forall i, j | 0 <= i < j < |r|
        ensures LastPlaceOf(s, r, i) < LastPlaceOf(s, r, j)
      {
        assert PlaceOf(s, r, i) < PlaceOf(s, r, j);
        assert r[i] in r && r[j] in r;
        assert InOrder(s, r[i].name, r[j].name);
      }
    }
    if InLastOrder(s, r) {
      forall x, y | x in Names(s) && y in Names(s)
        ensures InOrder(s, x, y)
      {
        PlacedInOrder(s, r, x, y);
      }
    }
  }

  lemma PlacedInOrder<V>(s: seq<Entry<V>>, r: seq<Entry<V>>, x: string, y: string)
    requires IsMerged(s, r) && InLastOrder(s, r) && x in Names(s) && y in Names(s)
    ensures InOrder(s, x, y)
  {
    var d :| d in r && d.name == x;
    var e :| e in r && e.name == y;
    var i :| 0 <= i < |r| && r[i] == d;
    var j :| 0 <= j < |r| && r[j] == e;
    if First(s, x) < First(s, y) {
      assert PlaceOf(s, r, i) < PlaceOf(s, r, j);
      assert i < j;
      assert LastPlaceOf(s, r, i) < LastPlaceOf(s, r, j);
    }
  }

  /* ---------- one more entry ---------- */

  lemma OneMoreName<V>(s: seq<Entry<V>>, e: Entry<V>)
    ensures Names(s + [e]) == Names(s) + {e.name}
  {
    forall x
      ensures x in Names(s + [e]) <==> x in Names(s) || x == e.name
    {
      assert (s + [e])[|s|] == e;
      if x in Names(s) {
        var y :| y in s && y.name == x;
        assert y in s + [e];
      }
    }
  }

  lemma FirstOfMore<V>(s: seq<Entry<V>>, e: Entry<V>, name: string)
    requires name in Names(s + [e])
    ensures First(s + [e], name) == if name in Names(s) then First(s, name) else |s|
  {
    var i := First(s + [e], name);
    if i < |s| {
      assert s[i] in s;
    }
    if name in Names(s) {
      var j := First(s, name);
      assert (s + [e])[j].name == name && (s + [e])[i].name == name;
      assert i == j;
    }
  }

  lemma AppendsNew<V>(s: seq<Entry<V>>, r: seq<Entry<V>>, e: Entry<V>)
    requires IsMerged(s, r) && e.name !in Names(r)
    ensures IsMerged(s + [e], r + [e])
  {
    var s', r' := s + [e], r + [e];
    OneMoreName(s, e);
    OneMoreName(r, e);
    forall i | 0 <= i < |r'|
      ensures PlaceOf(s', r', i) == (if i < |r| then PlaceOf(s, r, i) else |s|)
      ensures LatestAt(s', r', i)
    {
      assert r'[i] in r';
      FirstOfMore(s, e, r'[i].name);
      if i < |r| {
        assert LatestAt(s, r, i) && r[i] in r;
      }
    }
  }

  lemma ReplacesOld<V>(s: seq<Entry<V>>, r: seq<Entry<V>>, e: Entry<V>, at: nat)
    requires IsMerged(s, r) && at < |r| && r[at].name == e.name
    ensures IsMerged(s + [e], r[at := e])
  {
    var s', r' := s + [e], r[at := e];
    OneMoreName(s, e);
    assert r[at] in r;
    assert Names(r') == Names(r) by {
      forall x
        ensures x in Names(r') <==> x in Names(r)
      {
        SameNames(r, r', x);
        SameNames(r', r, x);
      }
    }
    forall i | 0 <= i < |r'|
      ensures PlaceOf(s', r', i) == PlaceOf(s, r, i)
      ensures LatestAt(s', r', i)
    {
      assert r'[i] in r' && r[i] in r;
      FirstOfMore(s, e, r'[i].name);
      assert LatestAt(s, r, i);
      if i != at {
        DistinctNames(s, r, i, at);
      }
    }
  }

  lemma SameNames<V>(r: seq<Entry<V>>, t: seq<Entry<V>>, x: string)
    requires |r| == |t| && forall i | 0 <= i < |r| :: r[i].name == t[i].name
    ensures x in Names(r) ==> x in Names(t)
  {
    if x in Names(r) {
      var e :| e in r && e.name == x;
      var i :| 0 <= i < |r| && r[i] == e;
      assert t[i] in t;
    }
  }

  lemma DistinctNames<V>(s: seq<Entry<V>>, r: seq<Entry<V>>, i: nat, j: nat)
    requires IsMerged(s, r) && i < |r| && j < |r| && i != j
    ensures r[i].name != r[j].name
  {
    assert PlaceOf(s, r, i) != PlaceOf(s, r, j);
  }

  /* ---------- in place ---------- */

  predicate IndexesNames<V(==)>(r: seq<Entry<V>>, seen: map<string, nat>) {
    && seen.Keys == Names(r)
    && forall x | x in seen :: seen[x] < |r| && r[seen[x]].name == x
  }

  /** Compacts the array onto its own front: what is still to be read is never overwritten, and nothing
      behind the result is written at all. */
  method DedupInPlace<V(==)>(a: array<Entry<V>>) returns (n: nat)
    modifies a
    ensures n <= a.Length && IsMerged(old(a[..]), a[..n])
    ensures a[n..] == old(a[n..])
  {
    var seen: map<string, nat> := map[];
    n := 0;
    ghost var s := a[..];
    for k := 0 to a.Length
      invariant n <= k && a[n..] == s[n..]
      invariant IsMerged(s[..k], a[..n])
      invariant IndexesNames(a[..n], seen)
    {
      n, seen := TakeIn(a, k, n, seen, s);
    }
    assert s[..a.Length] == s;
  }

  /** Takes entry k in: over the entry of its name, or behind the others. */
  method TakeIn<V(==)>(a: array<Entry<V>>, k: nat, n: nat, seen: map<string, nat>, ghost s: seq<Entry<V>>)
    returns (n': nat, seen': map<string, nat>)
    requires n <= k < a.Length == |s| && a[n..] == s[n..]
    requires IsMerged(s[..k], a[..n]) && IndexesNames(a[..n], seen)
    modifies a
    ensures n' <= k + 1 && a[n'..] == s[n'..]
    ensures IsMerged(s[..k + 1], a[..n']) && IndexesNames(a[..n'], seen')
  {
    var e := a[k];
    ghost var r := a[..n];
    assert e == a[n..][k - n] == s[k];
    assert s[..k + 1] == s[..k] + [e];
    KnownNames(r, seen, e);
    if e.name in seen {
      n', seen' := n, seen;
      ReplacesOld(s[..k], r, e, seen[e.name]);
      KeepsIndex(r, seen, e);
      a[seen[e.name]] := e;
      assert a[..n] == r[seen[e.name] := e];
    } else {
      n', seen' := n + 1, seen[e.name := n];
      AppendsNew(s[..k], r, e);
      AddsIndex(r, seen, e);
      a[n] := e;
      assert a[..n'] == r + [e];
    }
  }

  lemma KnownNames<V>(r: seq<Entry<V>>, seen: map<string, nat>, e: Entry<V>)
    requires IndexesNames(r, seen)
    ensures e.name in seen <==> e.name in Names(r)
    ensures e.name in seen ==> seen[e.name] < |r| && r[seen[e.name]].name == e.name
  {
  }

  lemma AddsIndex<V>(r: seq<Entry<V>>, seen: map<string, nat>, e: Entry<V>)
    requires IndexesNames(r, seen) && e.name !in seen
    ensures IndexesNames(r + [e], seen[e.name := |r|])
  {
    OneMoreName(r, e);
  }

  lemma KeepsIndex<V>(r: seq<Entry<V>>, seen: map<string, nat>, e: Entry<V>)
    requires IndexesNames(r, seen) && e.name in seen
    ensures IndexesNames(r[seen[e.name] := e], seen)
  {
    var t := r[seen[e.name] := e];
    forall x
      ensures x in Names(t) <==> x in Names(r)
    {
      SameNames(r, t, x);
      SameNames(t, r, x);
    }
  }
}
