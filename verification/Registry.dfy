/** The in-process capability registry; each of its operations runs under its lock. */
module Registries {
  import opened Strings
  import opened CapabilityIndex
  import opened CapabilitySnapshot

  datatype Strategy = LeastBusy | RoundRobin | Random

  /** The chosen agent, "" for none, or an index out of range. */
  datatype Choice = Chosen(name: string) | OutOfRange

  method InsertByName(entries: seq<Agent>, e: Agent) returns (r: seq<Agent>)
    requires SortedByName(entries)
    ensures SortedByName(r) && multiset(r) == multiset(entries) + multiset{e}
  {
    var at := 0;
    while at < |entries| && Leq(entries[at].name, e.name)
      invariant at <= |entries|
      invariant forall i | 0 <= i < at :: Leq(entries[i].name, e.name)
    {
      at := at + 1;
    }
    r := entries[..at] + [e] + entries[at..];
    InsertionIsSorted(entries, at, e);
    assert entries == entries[..at] + entries[at..];
  }

  lemma InsertionIsSorted(entries: seq<Agent>, at: nat, e: Agent)
    requires SortedByName(entries) && at <= |entries|
    requires forall i | 0 <= i < at :: Leq(entries[i].name, e.name)
    requires at < |entries| ==> !Leq(entries[at].name, e.name)
    ensures SortedByName(entries[..at] + [e] + entries[at..])
  {
    forall i | at <= i < |entries|
      ensures Leq(e.name, entries[i].name)
    {
      LeqTotal(entries[at].name, e.name);
      if i > at {
        LeqTransitive(e.name, entries[at].name, entries[i].name);
      }
    }
  }

  method HasAllTags(agentTags: seq<string>, required: seq<string>) returns (ok: bool)
    ensures ok <==> forall t | t in required :: t in agentTags
  {
    if |required| == 0 {
      return true;
    }
    var tags := set t | t in agentTags;
    for i := 0 to |required|
      invariant forall t | t in required[..i] :: t in agentTags
    {
      assert required[..i + 1] == required[..i] + [required[i]];
      if required[i] !in tags {
        return false;
      }
    }
    assert required[..|required|] == required;
    return true;
  }

  class Registry {
    var buckets: Buckets
    /** What the registry has been told so far. */
    ghost var changes: seq<Change>

    ghost predicate Valid()
      reads this
    {
      Mirrors(buckets, Source(changes))
    }

    constructor ()
      ensures Valid() && changes == []
    {
      buckets, changes := map[], [];
    }

    /** Replaces one owner's agents and no other's. */
    method RebuildKey(key: string, agents: seq<Agent>)
      requires Valid()
      modifies this
      ensures Valid() && changes == old(changes) + [Rebuild(key, agents)]
      ensures forall k | k != key :: (k in buckets <==> k in old(buckets)) && (k in buckets ==> buckets[k] == old(buckets)[k])
    {
      var entries: seq<Agent> := [];
      for i := 0 to |agents|
        invariant BucketOf(entries, agents[..i])
        invariant changes == old(changes) && buckets == old(buckets)
      {
        assert agents[..i + 1][..i] == agents[..i];
        if |agents[i].caps| != 0 {
          entries := InsertByName(entries, agents[i]);
        }
      }
      assert agents[..|agents|] == agents;
      ghost var source := Source(changes);
      ghost var before := changes;
      MirrorUpdate(buckets, source, key, entries, agents);
      buckets := buckets[key := entries];
      changes := changes + [Rebuild(key, agents)];
      assert changes[..|before|] == before;
      assert Source(changes) == source[key := agents];
    }

    method RemoveKey(key: string)
      requires Valid()
      modifies this
      ensures Valid() && changes == old(changes) + [Remove(key)] && buckets == old(buckets) - {key}
    {
      buckets := buckets - {key};
      ghost var before := changes;
      changes := changes + [Remove(key)];
      assert changes[..|before|] == before;
    }

    /** Does any of the agent's capabilities match? */
    method Offering(caps: seq<Capability>, cap: string, tags: seq<string>) returns (ok: bool)
      ensures ok == Offers(caps, cap, tags)
    {
      for i := 0 to |caps|
        invariant !Offers(caps[..i], cap, tags)
      {
        assert caps[..i + 1] == caps[..i] + [caps[i]];
        if caps[i].name == cap {
          var all := HasAllTags(caps[i].tags, tags);
          if all {
            assert Matches(caps[i], cap, tags);
            return true;
          }
        }
      }
      assert caps[..|caps|] == caps;
      return false;
    }

    /** The names of all agents with the capability and the tags, sorted. */
    method Candidates(cap: string, tags: seq<string>) returns (names: seq<string>)
      requires Valid()
      ensures Sorted(names)
      ensures forall a :: a in names <==> Candidate(Source(changes), a, cap, tags)
    {
      var seen: set<string> := {};
      var rest := buckets.Keys;
      while rest != {}
        invariant rest <= buckets.Keys
        invariant forall a :: a in seen <==> Lists(buckets, buckets.Keys - rest, a, cap, tags)
        decreases rest
      {
        var key :| key in rest;
        seen := AddBucket(buckets[key], cap, tags, seen);
        forall a
          ensures Lists(buckets, buckets.Keys - rest, a, cap, tags) || Among(buckets[key], a, cap, tags)
                  <==> Lists(buckets, buckets.Keys - (rest - {key}), a, cap, tags)
        {
          assert buckets.Keys - (rest - {key}) == buckets.Keys - rest + {key};
        }
        rest := rest - {key};
      }
      names := SortedList(seen);
      assert buckets.Keys - {} == buckets.Keys;
      forall a
        ensures a in names <==> Candidate(Source(changes), a, cap, tags)
      {
        MirrorAnswersAlike(buckets, Source(changes), a, cap, tags);
        assert a in Elements(names) <==> a in seen;
      }
    }

    method AddBucket(entries: seq<Agent>, cap: string, tags: seq<string>, before: set<string>) returns (seen: set<string>)
      ensures forall a :: a in seen <==> a in before || Among(entries, a, cap, tags)
    {
      seen := before;
      for i := 0 to |entries|
        invariant forall a :: a in seen <==> a in before || Among(entries[..i], a, cap, tags)
      {
        var e := entries[i];
        assert entries[..i + 1] == entries[..i] + [e];
        forall a
          ensures Among(entries[..i + 1], a, cap, tags) <==> Among(entries[..i], a, cap, tags) || AgentOffers(e, a, cap, tags)
        {
          AmongMore(entries[..i], e, a, cap, tags);
        }
        if e.name !in seen {
          var ok := Offering(e.caps, cap, tags);
          if ok {
            seen := seen + {e.name};
          }
        }
      }
      assert entries[..|entries|] == entries;
    }

    /** Chooses among the agents that qualify; random is the draw of the random strategy. */
    method Resolve(cap: string, tags: seq<string>, strategy: Strategy, random: nat)
      returns (r: Choice)
      requires Valid()
      ensures exists names :: AreCandidates(Source(changes), cap, tags, names) && r == Pick(names, cap, strategy, random)
    {
      var candidates := Candidates(cap, tags);
      assert AreCandidates(Source(changes), cap, tags, candidates);
      if |candidates| == 0 {
        r := Chosen("");
        return;
      }
      match strategy
      case Random =>
        r := Chosen(candidates[random % |candidates|]);
      case RoundRobin =>
        var h := StableHash(cap);
        var i := Rem(h, |candidates|);
        r := if i < 0 then OutOfRange else Chosen(candidates[i]);
      case LeastBusy =>
        r := Chosen(candidates[0]);
    }

    /** Every capability with the agents that have it and the tags they have it with, all sorted. */
    method Snapshot() returns (out: seq<Indexed>)
      requires Valid()
      ensures IsSnapshot(Source(changes), out)
    {
      var m: Aggregate := map[];
      var rest := buckets.Keys;
      while rest != {}
        invariant rest <= buckets.Keys
        invariant Aggregates(m, buckets, buckets.Keys - rest)
        decreases rest
      {
        var key :| key in rest;
        m := AggregateBucket(m, buckets, buckets.Keys - rest, key);
        assert buckets.Keys - (rest - {key}) == buckets.Keys - rest + {key};
        rest := rest - {key};
      }
      assert buckets.Keys - {} == buckets.Keys;
      out := Listing(m, buckets);
      MirrorSnapshot(buckets, Source(changes), out);
    }
  }

  ghost predicate AreCandidates(source: Buckets, cap: string, tags: seq<string>, names: seq<string>) {
    Sorted(names) && forall a :: a in names <==> Candidate(source, a, cap, tags)
  }

  function Pick(names: seq<string>, cap: string, strategy: Strategy, random: nat): Choice {
    if names == [] then Chosen("")
    else
      match strategy
      case Random => Chosen(names[random % |names|])
      case RoundRobin =>
        var i := Rem(HashOf(cap), |names|);
        if i < 0 then OutOfRange else Chosen(names[i])
      case LeastBusy => Chosen(names[0])
  }

  /** The answer is "" exactly when no agent qualifies, and otherwise an agent that does, given that no
      agent's own name is empty. */
  lemma NoneIffNoneQualifies(
    source: Buckets, cap: string, tags: seq<string>, names: seq<string>, strategy: Strategy, random: nat)
    requires AreCandidates(source, cap, tags, names) && !Candidate(source, "", cap, tags)
    ensures var r := Pick(names, cap, strategy, random);
            && (r == Chosen("") <==> forall a :: !Candidate(source, a, cap, tags))
            && (r.Chosen? && r.name != "" ==> Candidate(source, r.name, cap, tags))
  {
    var r := Pick(names, cap, strategy, random);
    if names == [] {
      forall a
        ensures !Candidate(source, a, cap, tags)
      {
        assert a !in names;
      }
    } else {
      assert names[0] in names;
      assert r.Chosen? ==> r.name in names;
    }
  }

  /** By default it is the agent with the smallest name. */
  lemma DefaultIsSmallest(source: Buckets, cap: string, tags: seq<string>, names: seq<string>, random: nat, a: string)
    requires AreCandidates(source, cap, tags, names) && Candidate(source, a, cap, tags)
    ensures var r := Pick(names, cap, LeastBusy, random);
            r.Chosen? && Candidate(source, r.name, cap, tags) && Leq(r.name, a)
  {
    assert a in names;
    FirstIsLeast(names, a);
    assert names[0] in names;
  }

  /** Any candidate can be drawn at random, and only candidates can. */
  lemma RandomDrawsAny(names: seq<string>, cap: string, a: string)
    requires names != []
    ensures a in names <==> exists random: nat :: Pick(names, cap, Random, random) == Chosen(a)
  {
    if a in names {
      var i :| 0 <= i < |names| && names[i] == a;
      assert i % |names| == i;
      assert Pick(names, cap, Random, i) == Chosen(a);
    }
  }

  /** Round robin takes the candidate at the hash's size modulo their number, whatever is drawn: the same one for
      a capability every time. */
  lemma RoundRobinIsFixed(names: seq<string>, cap: string, random: nat)
    requires names != [] && Wrap(Digits(cap)) != MinInt
    ensures var h := Wrap(Digits(cap));
            Pick(names, cap, RoundRobin, random) == Chosen(names[(if h < 0 then -h else h) % |names|])
  {
    HashIsNegativeOnce(cap);
  }

  /** The index leaves the range exactly when the hash is the least integer and the number of candidates
      does not divide it. */
  lemma OutOfRangeIff(names: seq<string>, cap: string, strategy: Strategy, random: nat)
    ensures Pick(names, cap, strategy, random) == OutOfRange <==>
              names != [] && strategy == RoundRobin
              && Wrap(Digits(cap)) == MinInt && (-MinInt) % |names| != 0
  {
    HashIsNegativeOnce(cap);
  }

  /** A name that hashes to the least integer; three candidates do not divide it. */
  lemma OutOfRangeExample()
    ensures Wrap(Digits("atixvkzwitbdzy")) == MinInt
    ensures Pick(["a", "b", "c"], "atixvkzwitbdzy", RoundRobin, 0) == OutOfRange
  {
    DigitsOfExample();
    OutOfRangeIff(["a", "b", "c"], "atixvkzwitbdzy", RoundRobin, 0);
  }

  /** Only who qualifies matters: not the order or number of buckets, nor who owns them. */
  lemma SameCandidatesSameAnswer(
    one: Buckets, two: Buckets, cap: string, tags: seq<string>, names: seq<string>, others: seq<string>)
    requires AreCandidates(one, cap, tags, names) && AreCandidates(two, cap, tags, others)
    requires forall a :: Candidate(one, a, cap, tags) <==> Candidate(two, a, cap, tags)
    ensures names == others
  {
    forall a
      ensures a in Elements(names) <==> a in Elements(others)
    {
      assert Candidate(one, a, cap, tags) <==> Candidate(two, a, cap, tags);
    }
    SortedUnique(names, others);
  }

  /** A snapshot lists an agent under a capability exactly when asking for it without tags would find it. */
  lemma SnapshotAgrees(source: Buckets, out: seq<Indexed>, id: string, a: string, names: seq<string>)
    requires IsSnapshot(source, out) && AreCandidates(source, id, [], names)
    ensures a in names <==> exists i | 0 <= i < |out| :: out[i].id == id && a in out[i].agents
    ensures forall i | 0 <= i < |out| && out[i].id == id :: out[i].agents == names
  {
    if a in names {
      assert Candidate(source, a, id, []);
      var i :| 0 <= i < |out| && out[i].id == id;
      assert LineFits(source, out[i]);
    }
    forall i | 0 <= i < |out| && out[i].id == id
      ensures out[i].agents == names
    {
      assert LineFits(source, out[i]);
      forall x
        ensures x in Elements(names) <==> x in Elements(out[i].agents)
      {
        assert x in names <==> Candidate(source, x, id, []);
      }
      SortedUnique(names, out[i].agents);
    }
  }

  lemma MirrorUpdate(buckets: Buckets, source: Buckets, key: string, entries: seq<Agent>, agents: seq<Agent>)
    requires Mirrors(buckets, source) && BucketOf(entries, agents)
    ensures Mirrors(buckets[key := entries], source[key := agents])
  {
  }
}
