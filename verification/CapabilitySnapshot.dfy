/**
  The registry's snapshot: per capability, who has it and with which tags. The
  aggregate is built entry by entry and bucket by bucket, in whatever order the
  buckets come; the listing sorts it. Both are proved against what the buckets
  hold, and that against the agents they were built from.
 */
module CapabilitySnapshot {
  import opened Strings
  import opened CapabilityIndex

  datatype Indexed = Indexed(id: string, agents: seq<string>, tags: seq<string>)

  predicate Tagged(caps: seq<Capability>, id: string, t: string) {
    exists c :: c in caps && c.name == id && t in c.tags
  }

  predicate AmongTags(entries: seq<Agent>, id: string, t: string) {
    exists e :: e in entries && Tagged(e.caps, id, t)
  }

  predicate ListsTag(buckets: Buckets, keys: set<string>, id: string, t: string) {
    exists k :: k in keys && k in buckets && AmongTags(buckets[k], id, t)
  }

  /** Some agent has the capability with the tag. */
  predicate InUse(buckets: Buckets, id: string, t: string) {
    ListsTag(buckets, buckets.Keys, id, t)
  }

  /** A tag is in use with a capability if some agent has that capability with that tag. */
  lemma InUseMeans(buckets: Buckets, id: string, t: string)
    ensures InUse(buckets, id, t)
        <==> exists k, e, c | k in buckets && e in buckets[k] && c in e.caps :: c.name == id && t in c.tags
  {
    if k, e, c :| k in buckets && e in buckets[k] && c in e.caps && c.name == id && t in c.tags {
      assert Tagged(e.caps, id, t);
      assert AmongTags(buckets[k], id, t);
    }
  }

  ghost predicate LineFits(source: Buckets, x: Indexed) {
    && Sorted(x.agents) && x.agents != [] && Sorted(x.tags)
    && (forall a :: a in x.agents <==> Candidate(source, a, x.id, []))
    && (forall t :: t in x.tags <==> InUse(source, x.id, t))
  }

  /** One line per capability that any agent has, in the order of ids; a line names exactly the agents
      that would be found under the capability without asking for tags. */
  ghost predicate IsSnapshot(source: Buckets, out: seq<Indexed>) {
    && (forall i, j | 0 <= i < j < |out| :: Less(out[i].id, out[j].id))
    && (forall i | 0 <= i < |out| :: LineFits(source, out[i]))
    && (forall id, a | Candidate(source, a, id, []) :: exists i | 0 <= i < |out| :: out[i].id == id)
  }

  /* ---------- aggregating ---------- */

  datatype Totals = Totals(agents: set<string>, tags: set<string>)

  type Aggregate = map<string, Totals>

  function AgentsIn(m: Aggregate, id: string): set<string> {
    if id in m then m[id].agents else {}
  }

  function TagsIn(m: Aggregate, id: string): set<string> {
    if id in m then m[id].tags else {}
  }

  /** No line without an agent. */
  predicate Keyed(m: Aggregate) {
    forall id | id in m :: m[id].agents != {}
  }

  lemma OffersMore(caps: seq<Capability>, c: Capability, id: string, t: string)
    ensures Offers(caps + [c], id, []) <==> Offers(caps, id, []) || c.name == id
    ensures Tagged(caps + [c], id, t) <==> Tagged(caps, id, t) || (c.name == id && t in c.tags)
  {
    assert (caps + [c])[|caps|] == c;
    if Offers(caps, id, []) {
      var x :| x in caps && Matches(x, id, []);
      assert x in caps + [c];
    }
    if c.name == id {
      assert Matches(c, id, []);
    }
    if Tagged(caps, id, t) {
      var x :| x in caps && x.name == id && t in x.tags;
      assert x in caps + [c];
    }
  }

  ghost predicate AddsCaps(m0: Aggregate, m: Aggregate, name: string, caps: seq<Capability>) {
    && (forall id, a :: a in AgentsIn(m, id) <==> a in AgentsIn(m0, id) || (a == name && Offers(caps, id, [])))
    && (forall id, t :: t in TagsIn(m, id) <==> t in TagsIn(m0, id) || Tagged(caps, id, t))
  }

  method AggregateEntry(m0: Aggregate, e: Agent) returns (m: Aggregate)
    requires Keyed(m0)
    ensures Keyed(m) && AddsCaps(m0, m, e.name, e.caps)
  {
    m := m0;
    for i := 0 to |e.caps|
      invariant Keyed(m) && AddsCaps(m0, m, e.name, e.caps[..i])
    {
      var c := e.caps[i];
      ghost var before := m;
      var was := if c.name in m then m[c.name] else Totals({}, {});
      m := m[c.name := Totals(was.agents + {e.name}, was.tags + (set t | t in c.tags))];
      assert e.caps[..i + 1] == e.caps[..i] + [c];
      AddsCap(m0, before, m, e.name, e.caps[..i], c);
    }
    assert e.caps[..|e.caps|] == e.caps;
  }

  lemma AddsCap(m0: Aggregate, before: Aggregate, m: Aggregate, name: string, caps: seq<Capability>, c: Capability)
    requires AddsCaps(m0, before, name, caps)
    requires m == before[c.name := Totals(AgentsIn(before, c.name) + {name}, TagsIn(before, c.name) + (set t | t in c.tags))]
    ensures AddsCaps(m0, m, name, caps + [c])
  {
    forall id, a
      ensures a in AgentsIn(m, id) <==> a in AgentsIn(m0, id) || (a == name && Offers(caps + [c], id, []))
    {
      OffersMore(caps, c, id, "");
      assert a in AgentsIn(before, id) <==> a in AgentsIn(m0, id) || (a == name && Offers(caps, id, []));
    }
    forall id, t
      ensures t in TagsIn(m, id) <==> t in TagsIn(m0, id) || Tagged(caps + [c], id, t)
    {
      OffersMore(caps, c, id, t);
      assert t in TagsIn(before, id) <==> t in TagsIn(m0, id) || Tagged(caps, id, t);
    }
  }

  ghost predicate AddsEntries(m0: Aggregate, m: Aggregate, entries: seq<Agent>) {
    && (forall id, a :: a in AgentsIn(m, id) <==> a in AgentsIn(m0, id) || Among(entries, a, id, []))
    && (forall id, t :: t in TagsIn(m, id) <==> t in TagsIn(m0, id) || AmongTags(entries, id, t))
  }

  lemma AddsEntry(m0: Aggregate, before: Aggregate, m: Aggregate, entries: seq<Agent>, e: Agent)
    requires AddsEntries(m0, before, entries) && AddsCaps(before, m, e.name, e.caps)
    ensures AddsEntries(m0, m, entries + [e])
  {
    forall id, a
      ensures a in AgentsIn(m, id) <==> a in AgentsIn(m0, id) || Among(entries + [e], a, id, [])
    {
      AmongMore(entries, e, a, id, []);
      assert a in AgentsIn(m, id) <==> a in AgentsIn(before, id) || (a == e.name && Offers(e.caps, id, []));
      assert a in AgentsIn(before, id) <==> a in AgentsIn(m0, id) || Among(entries, a, id, []);
    }
    forall id, t
      ensures t in TagsIn(m, id) <==> t in TagsIn(m0, id) || AmongTags(entries + [e], id, t)
    {
      assert t in TagsIn(m, id) <==> t in TagsIn(before, id) || Tagged(e.caps, id, t);
      assert t in TagsIn(before, id) <==> t in TagsIn(m0, id) || AmongTags(entries, id, t);
    }
  }

  /** The aggregate of the buckets under some keys. */
  ghost predicate Aggregates(m: Aggregate, buckets: Buckets, keys: set<string>) {
    && Keyed(m)
    && (forall id, a :: a in AgentsIn(m, id) <==> Lists(buckets, keys, a, id, []))
    && (forall id, t :: t in TagsIn(m, id) <==> ListsTag(buckets, keys, id, t))
  }

  method AggregateBucket(m0: Aggregate, buckets: Buckets, ghost keys: set<string>, k: string) returns (m: Aggregate)
    requires Aggregates(m0, buckets, keys) && k in buckets
    ensures Aggregates(m, buckets, keys + {k})
  {
    m := m0;
    var entries := buckets[k];
    for i := 0 to |entries|
      invariant Keyed(m) && AddsEntries(m0, m, entries[..i])
    {
      ghost var before := m;
      m := AggregateEntry(m, entries[i]);
      assert entries[..i + 1] == entries[..i] + [entries[i]];
      AddsEntry(m0, before, m, entries[..i], entries[i]);
    }
    assert entries[..|entries|] == entries;
  }

  /** Lists an aggregate, everything sorted. */
  method Listing(m: Aggregate, ghost buckets: Buckets) returns (out: seq<Indexed>)
    requires Aggregates(m, buckets, buckets.Keys)
    ensures IsSnapshot(buckets, out)
  {
    var ids := SortedList(m.Keys);
    out := [];
    for i := 0 to |ids|
      invariant |out| == i
      invariant forall j | 0 <= j < i :: out[j].id == ids[j] && LineFits(buckets, out[j])
    {
      assert ids[i] in Elements(ids);
      var agents := SortedList(m[ids[i]].agents);
      var tags := SortedList(m[ids[i]].tags);
      out := out + [Indexed(ids[i], agents, tags)];
    }
    forall id, a | Candidate(buckets, a, id, [])
      ensures exists i | 0 <= i < |out| :: out[i].id == id
    {
      assert a in AgentsIn(m, id);
      assert id in Elements(ids);
      var i :| 0 <= i < |ids| && ids[i] == id;
      assert out[i].id == id;
    }
  }

  /* ---------- buckets and their source ---------- */

  lemma BucketTagsAlike(entries: seq<Agent>, agents: seq<Agent>, id: string, t: string)
    requires BucketOf(entries, agents)
    ensures AmongTags(entries, id, t) <==> AmongTags(agents, id, t)
  {
    assert forall e :: e in entries <==> e in multiset(Indexable(agents));
    assert forall e :: e in entries <==> e in agents && e.caps != [];
    if AmongTags(agents, id, t) {
      var e :| e in agents && Tagged(e.caps, id, t);
      assert e in entries;
    }
  }

  lemma MirrorTagsAlike(buckets: Buckets, source: Buckets, id: string, t: string)
    requires Mirrors(buckets, source)
    ensures InUse(buckets, id, t) <==> InUse(source, id, t)
  {
    if InUse(buckets, id, t) {
      var k :| k in buckets && AmongTags(buckets[k], id, t);
      BucketTagsAlike(buckets[k], source[k], id, t);
    }
    if InUse(source, id, t) {
      var k :| k in source && AmongTags(source[k], id, t);
      BucketTagsAlike(buckets[k], source[k], id, t);
    }
  }

  lemma MirrorLine(buckets: Buckets, source: Buckets, x: Indexed)
    requires Mirrors(buckets, source) && LineFits(buckets, x)
    ensures LineFits(source, x)
  {
    forall a
      ensures a in x.agents <==> Candidate(source, a, x.id, [])
    {
      MirrorAnswersAlike(buckets, source, a, x.id, []);
    }
    forall t
      ensures t in x.tags <==> InUse(source, x.id, t)
    {
      MirrorTagsAlike(buckets, source, x.id, t);
    }
  }

  lemma MirrorSnapshot(buckets: Buckets, source: Buckets, out: seq<Indexed>)
    requires Mirrors(buckets, source) && IsSnapshot(buckets, out)
    ensures IsSnapshot(source, out)
  {
    forall i | 0 <= i < |out|
      ensures LineFits(source, out[i])
    {
      MirrorLine(buckets, source, out[i]);
    }
    forall id, a | Candidate(source, a, id, [])
      ensures exists i | 0 <= i < |out| :: out[i].id == id
    {
      MirrorAnswersAlike(buckets, source, a, id, []);
    }
  }
}
