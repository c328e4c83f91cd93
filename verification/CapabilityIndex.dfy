/** What the capability registry answers, in terms of the agents it was last given, and its hash. */
module CapabilityIndex {
  import opened Strings

  datatype Capability = Capability(name: string, tags: seq<string>)

  datatype Agent = Agent(name: string, caps: seq<Capability>)

  type Buckets = map<string, seq<Agent>>

  predicate Matches(c: Capability, cap: string, tags: seq<string>) {
    c.name == cap && forall t | t in tags :: t in c.tags
  }

  predicate Offers(caps: seq<Capability>, cap: string, tags: seq<string>) {
    exists c :: c in caps && Matches(c, cap, tags)
  }

  predicate AgentOffers(e: Agent, a: string, cap: string, tags: seq<string>) {
    e.name == a && Offers(e.caps, cap, tags)
  }

  predicate Among(entries: seq<Agent>, a: string, cap: string, tags: seq<string>) {
    exists e :: e in entries && AgentOffers(e, a, cap, tags)
  }

  /** Some bucket has an agent of that name with the capability and all the tags. */
  predicate Lists(buckets: Buckets, keys: set<string>, a: string, cap: string, tags: seq<string>) {
    exists k :: k in keys && k in buckets && Among(buckets[k], a, cap, tags)
  }

  predicate Candidate(buckets: Buckets, a: string, cap: string, tags: seq<string>) {
    Lists(buckets, buckets.Keys, a, cap, tags)
  }

  lemma AmongMore(entries: seq<Agent>, e: Agent, a: string, cap: string, tags: seq<string>)
    ensures Among(entries + [e], a, cap, tags) <==> Among(entries, a, cap, tags) || AgentOffers(e, a, cap, tags)
  {
    assert (entries + [e])[|entries|] == e;
    if Among(entries, a, cap, tags) {
      var x :| x in entries && AgentOffers(x, a, cap, tags);
      assert x in entries + [e];
    }
  }

  /** The agent has that capability with at least those tags. */
  predicate HasCapability(e: Agent, cap: string, tags: seq<string>) {
    exists i | 0 <= i < |e.caps| :: e.caps[i].name == cap && forall t | t in tags :: t in e.caps[i].tags
  }

  /** A candidate is the name of an agent, of any owner, that has the capability with all the tags. */
  lemma CandidateMeans(buckets: Buckets, a: string, cap: string, tags: seq<string>)
    ensures Candidate(buckets, a, cap, tags)
        <==> exists k, i | k in buckets && 0 <= i < |buckets[k]| :: buckets[k][i].name == a && HasCapability(buckets[k][i], cap, tags)
  {
    forall e: Agent
      ensures HasCapability(e, cap, tags) <==> Offers(e.caps, cap, tags)
    {
      if i :| 0 <= i < |e.caps| && Matches(e.caps[i], cap, tags) {
        assert e.caps[i] in e.caps;
      }
    }
    if Candidate(buckets, a, cap, tags) {
      var k :| k in buckets && Among(buckets[k], a, cap, tags);
      var e :| e in buckets[k] && AgentOffers(e, a, cap, tags);
      var i :| 0 <= i < |buckets[k]| && buckets[k][i] == e;
      assert HasCapability(buckets[k][i], cap, tags);
    }
    if k, i :| k in buckets && 0 <= i < |buckets[k]| && buckets[k][i].name == a && HasCapability(buckets[k][i], cap, tags) {
      assert AgentOffers(buckets[k][i], a, cap, tags);
      assert Among(buckets[k], a, cap, tags);
    }
  }

  /* ---------- what a bucket keeps of the agents it is built from ---------- */

  predicate SortedByName(entries: seq<Agent>) {
    forall i, j | 0 <= i < j < |entries| :: Leq(entries[i].name, entries[j].name)
  }

  /** The agents that have a capability at all. */
  function Indexable(agents: seq<Agent>): (r: seq<Agent>)
    ensures forall e :: e in r <==> e in agents && e.caps != []
  {
    if agents == [] then []
    else
      var n := |agents| - 1;
      assert agents == agents[..n] + [agents[n]];
      Indexable(agents[..n]) + (if agents[n].caps == [] then [] else [agents[n]])
  }

  predicate BucketOf(entries: seq<Agent>, agents: seq<Agent>) {
    SortedByName(entries) && multiset(entries) == multiset(Indexable(agents))
  }

  lemma BucketAnswersAlike(entries: seq<Agent>, agents: seq<Agent>, a: string, cap: string, tags: seq<string>)
    requires BucketOf(entries, agents)
    ensures Among(entries, a, cap, tags) <==> Among(agents, a, cap, tags)
  {
    assert forall e :: e in entries <==> e in multiset(Indexable(agents));
    assert forall e :: e in entries <==> e in agents && e.caps != [];
    if Among(agents, a, cap, tags) {
      var e :| e in agents && AgentOffers(e, a, cap, tags);
      assert e in entries;
    }
  }

  /** The buckets are those of the given agents, key by key. */
  predicate Mirrors(buckets: Buckets, source: Buckets) {
    buckets.Keys == source.Keys && forall k | k in source :: BucketOf(buckets[k], source[k])
  }

  lemma MirrorAnswersAlike(buckets: Buckets, source: Buckets, a: string, cap: string, tags: seq<string>)
    requires Mirrors(buckets, source)
    ensures Candidate(buckets, a, cap, tags) <==> Candidate(source, a, cap, tags)
  {
    if Candidate(buckets, a, cap, tags) {
      var k :| k in buckets && Among(buckets[k], a, cap, tags);
      BucketAnswersAlike(buckets[k], source[k], a, cap, tags);
    }
    if Candidate(source, a, cap, tags) {
      var k :| k in source && Among(source[k], a, cap, tags);
      BucketAnswersAlike(buckets[k], source[k], a, cap, tags);
    }
  }

  /* ---------- what was given last ---------- */

  datatype Change = Rebuild(key: string, agents: seq<Agent>) | Remove(key: string)

  /** The agents each key was last rebuilt from, unless it was removed since. */
  function Source(changes: seq<Change>): Buckets {
    if changes == [] then map[]
    else
      var before := Source(changes[..|changes| - 1]);
      match changes[|changes| - 1]
      case Rebuild(key, agents) => before[key := agents]
      case Remove(key) => before - {key}
  }

  /** A key's agents depend on nothing but the last change made to that key. */
  lemma {:induction false} OthersDoNotMatter(changes: seq<Change>, key: string, i: nat)
    requires i < |changes| && changes[i].key == key
    requires forall j | i < j < |changes| :: changes[j].key != key
    ensures changes[i].Rebuild? ==> key in Source(changes) && Source(changes)[key] == changes[i].agents
    ensures changes[i].Remove? ==> key !in Source(changes)
  {
    if i < |changes| - 1 {
      OthersDoNotMatter(changes[..|changes| - 1], key, i);
    }
  }

  /* ---------- the hash ---------- */

  const MinInt: int := -0x8000_0000_0000_0000

  /** A machine integer of 64 bits. */
  function Wrap(x: int): (r: int)
    ensures MinInt <= r < -MinInt
    ensures (x - r) % 0x1_0000_0000_0000_0000 == 0
  {
    (x + 0x8000_0000_0000_0000) % 0x1_0000_0000_0000_0000 - 0x8000_0000_0000_0000
  }

  /** The value of a string read as digits to base 31, with no bound. */
  function Digits(s: string): int {
    if s == "" then 0 else Digits(s[..|s| - 1]) * 31 + s[|s| - 1] as int
  }

  lemma OneMoreDigit(s: string, k: nat)
    requires k < |s|
    ensures Digits(s[..k + 1]) == Digits(s[..k]) * 31 + s[k] as int
  {
    assert s[..k + 1][..k] == s[..k];
  }

  lemma DigitsOfExample()
    ensures Digits("atixvkzwitbdzy") == 2462640333840225140736
  {
    var s := "atixvkzwitbdzy";
    forall k | 0 <= k < |s|
      ensures Digits(s[..k + 1]) == Digits(s[..k]) * 31 + s[k] as int
    {
      OneMoreDigit(s, k);
    }
    assert Digits(s[..0]) == 0;
    assert Digits(s[..1]) == 97;
    assert Digits(s[..2]) == 3123;
    assert Digits(s[..3]) == 96918;
    assert Digits(s[..4]) == 3004578;
    assert Digits(s[..5]) == 93142036;
    assert Digits(s[..6]) == 2887403223;
    assert Digits(s[..7]) == 89509500035;
    assert Digits(s[..8]) == 2774794501204;
    assert Digits(s[..9]) == 86018629537429;
    assert Digits(s[..10]) == 2666577515660415;
    assert Digits(s[..11]) == 82663902985472963;
    assert Digits(s[..12]) == 2562580992549661953;
    assert Digits(s[..13]) == 79440010769039520665;
    assert Digits(s[..14]) == 2462640333840225140736;
    assert s[..14] == s;
  }

  /** The hash: the 64-bit value of the digits without its sign; the least integer has no positive twin. */
  function HashOf(s: string): int {
    var h := Wrap(Digits(s));
    if h < 0 then Wrap(-h) else h
  }

  lemma SameRemainder(a: int, q: int)
    ensures (a + q * 0x1_0000_0000_0000_0000) % 0x1_0000_0000_0000_0000 == a % 0x1_0000_0000_0000_0000
  {
    assert (a + q * 0x1_0000_0000_0000_0000) / 0x1_0000_0000_0000_0000 == a / 0x1_0000_0000_0000_0000 + q;
  }

  lemma WrapOfWrapped(x: int, y: int)
    ensures Wrap(Wrap(x) * 31 + y) == Wrap(x * 31 + y)
  {
    var q := (x + 0x8000_0000_0000_0000) / 0x1_0000_0000_0000_0000;
    assert x == Wrap(x) + q * 0x1_0000_0000_0000_0000;
    SameRemainder(Wrap(x) * 31 + y + 0x8000_0000_0000_0000, 31 * q);
  }

  /** The hash is negative for exactly one 64-bit value. */
  lemma HashIsNegativeOnce(s: string)
    ensures MinInt <= HashOf(s) < -MinInt
    ensures HashOf(s) < 0 <==> Wrap(Digits(s)) == MinInt
    ensures HashOf(s) < 0 ==> HashOf(s) == MinInt
  {
  }

  /** The remainder that takes the sign of the dividend. */
  function Rem(a: int, n: int): int
    requires n > 0
  {
    if a >= 0 then a % n else -((-a) % n)
  }

  method StableHash(s: string) returns (h: int)
    ensures h == HashOf(s)
  {
    h := 0;
    for i := 0 to |s|
      invariant h == Wrap(Digits(s[..i]))
    {
      assert s[..i + 1][..i] == s[..i];
      WrapOfWrapped(Digits(s[..i]), s[i] as int);
      h := Wrap(h * 31 + s[i] as int);
    }
    assert s[..|s|] == s;
    if h < 0 {
      h := Wrap(-h);
    }
  }
}
