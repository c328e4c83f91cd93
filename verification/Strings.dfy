/**
  The order of strings, and the sorted lists that stand for sets of them: such a
  list is determined by its elements, so sorting makes the order in which a map
  or a set was walked disappear. Characters stand for bytes, so this is also
  the order in which Go sorts strings.
 */
module Strings {

  /** Lexicographic order. */
  predicate Leq(a: string, b: string) {
    a == "" || (b != "" && (a[0] < b[0] || (a[0] == b[0] && Leq(a[1..], b[1..]))))
  }

  lemma {:induction false} LeqReflexive(a: string)
    ensures Leq(a, a)
  {
    if a != "" {
      LeqReflexive(a[1..]);
    }
  }

  lemma {:induction false} LeqTotal(a: string, b: string)
    ensures Leq(a, b) || Leq(b, a)
  {
    if a != "" && b != "" && a[0] == b[0] {
      LeqTotal(a[1..], b[1..]);
    }
  }

  lemma {:induction false} LeqTransitive(a: string, b: string, c: string)
    requires Leq(a, b) && Leq(b, c)
    ensures Leq(a, c)
  {
    if a != "" && a[0] == b[0] == c[0] {
      LeqTransitive(a[1..], b[1..], c[1..]);
    }
  }

  lemma {:induction false} LeqAntisymmetric(a: string, b: string)
    requires Leq(a, b) && Leq(b, a)
    ensures a == b
  {
    if a != "" {
      LeqAntisymmetric(a[1..], b[1..]);
      assert a == [a[0]] + a[1..] && b == [b[0]] + b[1..];
    }
  }

  /** a and b have their first k characters in common, and no more. */
  predicate Common(a: string, b: string, k: nat) {
    k <= |a| && k <= |b| && a[..k] == b[..k] && (k < |a| && k < |b| ==> a[k] != b[k])
  }

  /** What decides is the first character in which two strings differ, or that one is the beginning of the other. */
  lemma {:induction false} LeqByFirstDifference(a: string, b: string, k: nat)
    requires Common(a, b, k)
    ensures Leq(a, b) <==> k == |a| || (k < |b| && a[k] < b[k])
  {
    if k > 0 {
      assert a[0] == a[..k][0] == b[..k][0] == b[0];
      assert a[1..][..k - 1] == a[..k][1..] && b[1..][..k - 1] == b[..k][1..];
      LeqByFirstDifference(a[1..], b[1..], k - 1);
    }
  }

  function Elements(s: seq<string>): set<string> {
    set x | x in s
  }

  lemma HasElements(s: seq<string>)
    ensures Elements(s) == {} <==> s == []
  {
    assert s != [] ==> s[0] in Elements(s);
  }

  predicate Less(a: string, b: string) {
    a != b && Leq(a, b)
  }

  predicate Sorted(s: seq<string>) {
    forall i, j | 0 <= i < j < |s| :: Less(s[i], s[j])
  }

  /** A sorted list is determined by its elements. */
  lemma {:induction false} SortedUnique(s: seq<string>, t: seq<string>)
    requires Sorted(s) && Sorted(t) && Elements(s) == Elements(t)
    ensures s == t
  {
    HasElements(s);
    HasElements(t);
    if s != [] {
      assert s[0] in Elements(t) && t[0] in Elements(s);
      FirstIsLeast(s, t[0]);
      FirstIsLeast(t, s[0]);
      LeqAntisymmetric(s[0], t[0]);
      TailElements(s);
      TailElements(t);
      SortedUnique(s[1..], t[1..]);
      assert s == [s[0]] + s[1..] && t == [t[0]] + t[1..];
    }
  }

  lemma FirstIsLeast(s: seq<string>, x: string)
    requires Sorted(s) && x in s
    ensures Leq(s[0], x)
  {
    LeqReflexive(x);
    var i :| 0 <= i < |s| && s[i] == x;
    assert i > 0 ==> Less(s[0], s[i]);
  }

  lemma TailElements(s: seq<string>)
    requires Sorted(s) && s != []
    ensures Sorted(s[1..]) && Elements(s[1..]) == Elements(s) - {s[0]}
  {
    forall x | x in Elements(s) && x != s[0]
      ensures x in s[1..]
    {
      var i :| 0 <= i < |s| && s[i] == x;
      assert s[1..][i - 1] == x;
    }
    assert forall i | 0 <= i < |s| - 1 :: Less(s[0], s[1..][i]);
  }

  method InsertSorted(s: seq<string>, x: string) returns (r: seq<string>)
    requires Sorted(s) && x !in s
    ensures Sorted(r) && Elements(r) == Elements(s) + {x}
  {
    var at := 0;
    while at < |s| && Leq(s[at], x)
      invariant at <= |s|
      invariant forall i | 0 <= i < at :: Leq(s[i], x)
    {
      at := at + 1;
    }
    r := s[..at] + [x] + s[at..];
    InsertedIsSorted(s, at, x);
    InsertedElements(s, at, x);
  }

  lemma InsertedIsSorted(s: seq<string>, at: nat, x: string)
    requires Sorted(s) && at <= |s| && x !in s
    requires forall i | 0 <= i < at :: Leq(s[i], x)
    requires at < |s| ==> !Leq(s[at], x)
    ensures Sorted(s[..at] + [x] + s[at..])
  {
    forall i | at <= i < |s|
      ensures Less(x, s[i])
    {
      LeqTotal(s[at], x);
      if i > at {
        assert Less(s[at], s[i]);
        LeqTransitive(x, s[at], s[i]);
      }
    }
  }

  lemma InsertedElements(s: seq<string>, at: nat, x: string)
    requires at <= |s|
    ensures Elements(s[..at] + [x] + s[at..]) == Elements(s) + {x}
  {
    assert s == s[..at] + s[at..];
  }

  /** The sorted list of a set. */
  method SortedList(s: set<string>) returns (r: seq<string>)
    ensures Sorted(r) && Elements(r) == s
  {
    r := [];
    var rest := s;
    while rest != {}
      invariant rest <= s && Sorted(r) && Elements(r) == s - rest
      decreases rest
    {
      var x :| x in rest;
      assert x !in Elements(r);
      r := InsertSorted(r, x);
      rest := rest - {x};
    }
  }
}
