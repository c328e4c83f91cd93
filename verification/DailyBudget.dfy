/** The rolling 24-hour token budget and its wake-ups. Times are in nanoseconds. */
module DailyBudget {
  import opened Options

  const Minute := 60_000_000_000
  const Hour := 60 * Minute
  const Day := 24 * Hour

  datatype Tokens = Tokens(input: int, output: int, total: int)

  /** A pipeline step's record: resolvedAgent is "" unless the registry chose the agent. */
  datatype StepRecord = StepRecord(name: string, resolvedAgent: string, usage: Option<Tokens>, completed: Option<int>)

  datatype RunRecord = RunRecord(roleAgent: map<string, string>, steps: seq<StepRecord>)

  /* ---------- what counts ---------- */

  datatype Spend = Spend(at: int, tokens: Tokens)

  function AgentOf(run: RunRecord, st: StepRecord): string {
    if st.resolvedAgent != "" then st.resolvedAgent
    else if st.name in run.roleAgent then run.roleAgent[st.name] else ""
  }

  /** What a step has spent on an agent's account, once it has completed. */
  function SpendOf(run: RunRecord, agent: string, st: StepRecord): seq<Spend> {
    if AgentOf(run, st) == agent && st.usage.Some? && st.completed.Some? then
      [Spend(st.completed.value, st.usage.value)]
    else []
  }

  function RunSpends(run: RunRecord, agent: string, n: nat): seq<Spend>
    requires n <= |run.steps|
  {
    if n == 0 then [] else RunSpends(run, agent, n - 1) + SpendOf(run, agent, run.steps[n - 1])
  }

  function Spends(runs: seq<RunRecord>, agent: string): seq<Spend> {
    if runs == [] then []
    else Spends(runs[..|runs| - 1], agent) + RunSpends(runs[|runs| - 1], agent, |runs[|runs| - 1].steps|)
  }

  /** What is still in the window at now. */
  function Window(spends: seq<Spend>, now: int): seq<Spend> {
    if spends == [] then []
    else
      var x := spends[|spends| - 1];
      Window(spends[..|spends| - 1], now) + (if x.at < now - Day then [] else [x])
  }

  function Plus(a: Tokens, b: Tokens): Tokens {
    Tokens(a.input + b.input, a.output + b.output, a.total + b.total)
  }

  function Usage(spends: seq<Spend>): Tokens {
    if spends == [] then Tokens(0, 0, 0)
    else Plus(Usage(spends[..|spends| - 1]), spends[|spends| - 1].tokens)
  }

  function Sum(s: seq<int>): int {
    if s == [] then 0 else s[0] + Sum(s[1..])
  }

  lemma {:induction false} SumSnoc(s: seq<int>, x: int)
    ensures Sum(s + [x]) == Sum(s) + x
  {
    if s == [] {
      assert [x][1..] == [];
    } else {
      SumSnoc(s[1..], x);
      assert (s + [x])[1..] == s[1..] + [x];
    }
  }

  /** Usage adds up input, output and total tokens, each on its own. */
  lemma {:induction false} UsageSums(spends: seq<Spend>)
    ensures Usage(spends).input == Sum(seq(|spends|, i requires 0 <= i < |spends| => spends[i].tokens.input))
    ensures Usage(spends).output == Sum(seq(|spends|, i requires 0 <= i < |spends| => spends[i].tokens.output))
    ensures Usage(spends).total == Sum(seq(|spends|, i requires 0 <= i < |spends| => spends[i].tokens.total))
  {
    if spends != [] {
      var n := |spends| - 1;
      var inputs := seq(n, i requires 0 <= i < n => spends[..n][i].tokens.input);
      var outputs := seq(n, i requires 0 <= i < n => spends[..n][i].tokens.output);
      var totals := seq(n, i requires 0 <= i < n => spends[..n][i].tokens.total);
      UsageSums(spends[..n]);
      SumSnoc(inputs, spends[n].tokens.input);
      SumSnoc(outputs, spends[n].tokens.output);
      SumSnoc(totals, spends[n].tokens.total);
      assert seq(|spends|, i requires 0 <= i < |spends| => spends[i].tokens.input) == inputs + [spends[n].tokens.input];
      assert seq(|spends|, i requires 0 <= i < |spends| => spends[i].tokens.output) == outputs + [spends[n].tokens.output];
      assert seq(|spends|, i requires 0 <= i < |spends| => spends[i].tokens.total) == totals + [spends[n].tokens.total];
    }
  }

  /** The time of the oldest. */
  function Earliest(spends: seq<Spend>): Option<int> {
    if spends == [] then None
    else
      var e, x := Earliest(spends[..|spends| - 1]), spends[|spends| - 1];
      if e.None? || x.at < e.value then Some(x.at) else e
  }

  lemma {:induction false} EarliestIsLeast(spends: seq<Spend>)
    ensures var e := Earliest(spends);
            && (e.None? <==> spends == [])
            && (e.Some? ==> exists i | 0 <= i < |spends| :: spends[i].at == e.value)
            && (e.Some? ==> forall i | 0 <= i < |spends| :: e.value <= spends[i].at)
  {
    if spends != [] {
      var n := |spends| - 1;
      EarliestIsLeast(spends[..n]);
      var e := Earliest(spends[..n]);
      if e.Some? {
        var i :| 0 <= i < n && spends[..n][i].at == e.value;
        assert spends[i].at == e.value;
      }
      forall i | 0 <= i < |spends|
        ensures Earliest(spends).value <= spends[i].at
      {
        assert i < n ==> spends[i] == spends[..n][i];
      }
    }
  }

  /* ---------- whose account a step is on ---------- */

  /** A completed step with a known usage is charged to the agent the registry resolved for it, and only where
      there is none to the one its role names. */
  predicate Charged(run: RunRecord, st: StepRecord, agent: string) {
    && st.usage.Some? && st.completed.Some?
    && (st.resolvedAgent == agent
        || (st.resolvedAgent == "" && st.name in run.roleAgent && run.roleAgent[st.name] == agent))
  }

  /** The step is charged to the agent with just that spend. */
  predicate ChargedWith(run: RunRecord, st: StepRecord, agent: string, x: Spend) {
    Charged(run, st, agent) && st.completed.value == x.at && st.usage.value == x.tokens
  }

  /** How many of the first n steps are. */
  function RunCharges(run: RunRecord, agent: string, x: Spend, n: nat): nat
    requires n <= |run.steps|
  {
    if n == 0 then 0
    else RunCharges(run, agent, x, n - 1) + (if ChargedWith(run, run.steps[n - 1], agent, x) then 1 else 0)
  }

  function Charges(runs: seq<RunRecord>, agent: string, x: Spend): nat {
    if runs == [] then 0
    else Charges(runs[..|runs| - 1], agent, x) + RunCharges(runs[|runs| - 1], agent, x, |runs[|runs| - 1].steps|)
  }

  /** What steps charged to the agent have spent, each as often as there are such steps, and nothing else. */
  ghost predicate AreCharges(runs: seq<RunRecord>, agent: string, spends: seq<Spend>) {
    forall x: Spend :: multiset(spends)[x] == Charges(runs, agent, x)
  }

  lemma StepIsCharged(run: RunRecord, agent: string, st: StepRecord, x: Spend)
    requires agent != ""
    ensures multiset(SpendOf(run, agent, st))[x] == if ChargedWith(run, st, agent, x) then 1 else 0
  {
    assert SpendOf(run, agent, st) == []
           || (st.usage.Some? && st.completed.Some? && SpendOf(run, agent, st) == [Spend(st.completed.value, st.usage.value)]);
  }

  lemma {:induction false} RunSpendsAreCharges(run: RunRecord, agent: string, x: Spend, n: nat)
    requires n <= |run.steps| && agent != ""
    ensures multiset(RunSpends(run, agent, n))[x] == RunCharges(run, agent, x, n)
  {
    if n > 0 {
      RunSpendsAreCharges(run, agent, x, n - 1);
      StepIsCharged(run, agent, run.steps[n - 1], x);
      JoinedCounts(RunSpends(run, agent, n - 1), SpendOf(run, agent, run.steps[n - 1]), x);
    }
  }

  lemma JoinedCounts(a: seq<Spend>, b: seq<Spend>, x: Spend)
    ensures multiset(a + b)[x] == multiset(a)[x] + multiset(b)[x]
  {
  }

  /** What counts for an agent is what the steps charged to it have spent. */
  lemma {:induction false} SpendsAreCharges(runs: seq<RunRecord>, agent: string, x: Spend)
    requires agent != ""
    ensures multiset(Spends(runs, agent))[x] == Charges(runs, agent, x)
  {
    if runs != [] {
      var n := |runs| - 1;
      SpendsAreCharges(runs[..n], agent, x);
      RunSpendsAreCharges(runs[n], agent, x, |runs[n].steps|);
    }
  }

  /* ---------- one reconcile ---------- */

  datatype Verdict = Verdict(recorded: Option<Tokens>, exceeded: bool, delay: int)

  predicate Exceeded(limit: int, window: seq<Spend>) {
    0 < limit <= Usage(window).total
  }

  /** The verdict at now: usage is recorded with or without a limit; the wake-up, 0 for none, comes a
      minute after the oldest entry has left the window. */
  predicate IsVerdict(limit: int, window: seq<Spend>, now: int, v: Verdict) {
    && v.recorded == (if Usage(window).total > 0 then Some(Usage(window)) else None)
    && v.exceeded == Exceeded(limit, window)
    && (!v.exceeded ==> v.delay == 0)
    && (v.exceeded ==> exists x :: x in window && v.delay == x.at + Day - now + Minute)
    && (v.exceeded ==> forall x | x in window :: v.delay <= x.at + Day - now + Minute)
  }

  /** The verdict in numbers: a positive limit is exceeded once it is reached; usage is recorded unless there is
      none; the wake-up is a minute after the oldest entry is a day old. */
  lemma VerdictMeans(limit: int, window: seq<Spend>, now: int, v: Verdict)
    requires IsVerdict(limit, window, now, v)
    ensures v.exceeded <==> limit > 0 && Usage(window).total >= limit
    ensures if Usage(window).total > 0 then v.recorded == Some(Usage(window)) else v.recorded == None
    ensures v.exceeded ==> exists x :: x in window && v.delay == x.at + 86_400_000_000_000 - now + 60_000_000_000
                                       && forall y | y in window :: x.at <= y.at
    ensures !v.exceeded ==> v.delay == 0
  {
  }

  /** What a step adds to the window. */
  function Counted(run: RunRecord, agent: string, st: StepRecord, now: int): seq<Spend> {
    if AgentOf(run, st) == agent && st.usage.Some? && st.completed.Some? && st.completed.value >= now - Day then
      [Spend(st.completed.value, st.usage.value)]
    else []
  }

  /** What is in the window after the first j steps of a run. */
  function WindowTo(before: seq<Spend>, run: RunRecord, agent: string, now: int, j: nat): seq<Spend>
    requires j <= |run.steps|
  {
    Window(before + RunSpends(run, agent, j), now)
  }

  lemma OneMoreStep(before: seq<Spend>, run: RunRecord, agent: string, now: int, j: nat)
    requires j < |run.steps|
    ensures WindowTo(before, run, agent, now, j + 1)
         == WindowTo(before, run, agent, now, j) + Counted(run, agent, run.steps[j], now)
  {
    var listed := before + RunSpends(run, agent, j);
    var more := SpendOf(run, agent, run.steps[j]);
    assert before + RunSpends(run, agent, j + 1) == listed + more;
    assert listed + [] == listed;
    if more != [] {
      assert (listed + more)[..|listed|] == listed;
    }
  }

  /** The running sums and earliest time of what has been counted. */
  predicate Tallied(window: seq<Spend>, sum: Tokens, earliest: Option<int>) {
    sum == Usage(window) && earliest == Earliest(window)
  }

  lemma NoStepYet(before: seq<Spend>, run: RunRecord, agent: string, now: int)
    ensures WindowTo(before, run, agent, now, 0) == Window(before, now)
  {
    assert before + [] == before;
  }

  method AddRun(run: RunRecord, agent: string, now: int, sum0: Tokens, earliest0: Option<int>, ghost before: seq<Spend>)
    returns (sum: Tokens, earliest: Option<int>)
    requires Tallied(Window(before, now), sum0, earliest0)
    ensures Tallied(WindowTo(before, run, agent, now, |run.steps|), sum, earliest)
  {
    sum, earliest := sum0, earliest0;
    NoStepYet(before, run, agent, now);
    ghost var window := WindowTo(before, run, agent, now, 0);
    for j := 0 to |run.steps|
      invariant window == WindowTo(before, run, agent, now, j)
      invariant Tallied(window, sum, earliest)
    {
      OneMoreStep(before, run, agent, now, j);
      sum, earliest, window := AddStep(run, run.steps[j], agent, now, sum, earliest, window);
    }
  }

  /** Adds a step if the agent pays for it, its usage and its time are known, and it is in the window. */
  method AddStep(run: RunRecord, st: StepRecord, agent: string, now: int, sum0: Tokens, earliest0: Option<int>,
                 ghost before: seq<Spend>)
    returns (sum: Tokens, earliest: Option<int>, ghost window: seq<Spend>)
    requires Tallied(before, sum0, earliest0)
    ensures window == before + Counted(run, agent, st, now) && Tallied(window, sum, earliest)
  {
    sum, earliest, window := sum0, earliest0, before + Counted(run, agent, st, now);
    assert before + [] == before;
    var resolved := st.resolvedAgent;
    if resolved == "" && st.name in run.roleAgent {
      resolved := run.roleAgent[st.name];
    }
    if resolved != agent {
      return;
    }
    if st.usage.None? || st.completed.None? {
      return;
    }
    var t := st.completed.value;
    if t < now - Day {
      return;
    }
    OneMoreInWindow(before, Spend(t, st.usage.value));
    sum := Plus(sum, st.usage.value);
    if earliest.None? || t < earliest.value {
      earliest := Some(t);
    }
  }

  lemma VerdictOfCharges(runs: seq<RunRecord>, agent: string)
    ensures agent != "" ==> AreCharges(runs, agent, Spends(runs, agent))
  {
    if agent != "" {
      forall x: Spend
        ensures multiset(Spends(runs, agent))[x] == Charges(runs, agent, x)
      {
        SpendsAreCharges(runs, agent, x);
      }
    }
  }

  method ReconcileDailyBudget(runs: seq<RunRecord>, agent: string, limit: int, now: int) returns (v: Verdict)
    ensures IsVerdict(limit, Window(Spends(runs, agent), now), now, v)
    ensures agent != "" ==> exists spends {:trigger AreCharges(runs, agent, spends)} ::
              AreCharges(runs, agent, spends) && IsVerdict(limit, Window(spends, now), now, v)
  {
    var sum, earliest := Tokens(0, 0, 0), None;
    for i := 0 to |runs|
      invariant Tallied(Window(Spends(runs[..i], agent), now), sum, earliest)
    {
      assert runs[..i + 1][..i] == runs[..i];
      sum, earliest := AddRun(runs[i], agent, now, sum, earliest, Spends(runs[..i], agent));
    }
    assert runs[..|runs|] == runs;
    VerdictOfCharges(runs, agent);
    EarliestIsLeast(Window(Spends(runs, agent), now));
    var recorded := if sum.total > 0 then Some(sum) else None;
    if limit <= 0 {
      return Verdict(recorded, false, 0);
    }
    if sum.total >= limit {
      if earliest.Some? {
        return Verdict(recorded, true, earliest.value + Day - now + Minute);
      }
      assert false;
      return Verdict(recorded, true, Hour);
    }
    return Verdict(recorded, false, 0);
  }

  lemma OneMoreInWindow(window: seq<Spend>, x: Spend)
    ensures var e := Earliest(window);
            Earliest(window + [x]) == if e.None? || x.at < e.value then Some(x.at) else e
    ensures Usage(window + [x]) == Plus(Usage(window), x.tokens)
  {
    assert (window + [x])[..|window|] == window;
  }

  /* ---------- waking up ---------- */

  lemma {:induction false} InWindowIff(spends: seq<Spend>, now: int, x: Spend)
    ensures x in Window(spends, now) <==> x in spends && x.at >= now - Day
    ensures multiset(Window(spends, now))[x] == if x.at >= now - 86_400_000_000_000 then multiset(spends)[x] else 0
  {
    if spends != [] {
      var n := |spends| - 1;
      InWindowIff(spends[..n], now, x);
      assert spends == spends[..n] + [spends[n]];
    }
  }

  lemma {:induction false} WindowShrinks(spends: seq<Spend>, now: int, later: int)
    requires now <= later
    ensures |Window(spends, later)| <= |Window(spends, now)|
    ensures (exists x :: x in Window(spends, now) && x.at < later - Day) ==>
              |Window(spends, later)| < |Window(spends, now)|
  {
    if spends != [] {
      WindowShrinks(spends[..|spends| - 1], now, later);
    }
  }

  /** When the limit is reached the wake-up is at least a minute off, comes once the oldest counted entry
      has left, and then finds strictly fewer entries, as long as none is new. */
  lemma WakeUpMakesProgress(spends: seq<Spend>, limit: int, now: int, v: Verdict, later: int)
    requires IsVerdict(limit, Window(spends, now), now, v) && v.exceeded && later >= now + v.delay
    ensures v.delay >= Minute == 60_000_000_000
    ensures |Window(spends, later)| < |Window(spends, now)|
  {
    var x :| x in Window(spends, now) && v.delay == x.at + Day - now + Minute;
    InWindowIff(spends, now, x);
    WindowShrinks(spends, now, later);
  }

  /** Nor does it come late: just before it, less than a minute has passed since the oldest entry left. */
  lemma WakeUpIsNotLate(spends: seq<Spend>, limit: int, now: int, v: Verdict, x: Spend)
    requires IsVerdict(limit, Window(spends, now), now, v) && v.exceeded && x in Window(spends, now)
    ensures now + v.delay - Minute - Day <= x.at
    ensures x in Window(spends, now + v.delay - Minute)
  {
    InWindowIff(spends, now, x);
    InWindowIff(spends, now + v.delay - Minute, x);
  }

  /** Reconciles each of which wakes up no earlier than the one before it asked for. */
  ghost predicate Wakes(spends: seq<Spend>, limit: int, nows: seq<int>, vs: seq<Verdict>) {
    && |nows| == |vs|
    && (forall k | 0 <= k < |vs| :: IsVerdict(limit, Window(spends, nows[k]), nows[k], vs[k]))
    && (forall k | 0 < k < |vs| :: nows[k] >= nows[k - 1] + vs[k - 1].delay)
  }

  /** While nothing new completes, the condition clears within as many wake-ups as entries were counted. */
  lemma {:induction false} ClearsWithinEntries(spends: seq<Spend>, limit: int, nows: seq<int>, vs: seq<Verdict>)
    requires Wakes(spends, limit, nows, vs) && vs != [] && forall k | 0 <= k < |vs| :: vs[k].exceeded
    ensures |vs| + |Window(spends, nows[|nows| - 1])| <= |Window(spends, nows[0])| + 1
    ensures |vs| <= |Window(spends, nows[0])|
  {
    var n := |vs| - 1;
    if n > 0 {
      ClearsWithinEntries(spends, limit, nows[..n], vs[..n]);
      WakeUpMakesProgress(spends, limit, nows[n - 1], vs[n - 1], nows[n]);
    }
  }
}
