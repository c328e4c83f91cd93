/** Firing a cron trigger: the catch-up search and its runs. Times are in nanoseconds since Go's zero time. */
module Cron {
  import opened Options

  const Second := 1_000_000_000
  const Day := 24 * 60 * 60 * Second

  /** What a schedule answers when it has no instant left: the zero time. */
  const ZeroTime := 0

  /** A parsed schedule, by its function from a time to the next instant after it. */
  type Schedule = int -> int

  predicate Left(next: Schedule, t: int) {
    next(t) != ZeroTime
  }

  /** The next instant is later, on a whole second; once none is left, none ever is; and an instant that
      is still to come is left. */
  ghost predicate IsSchedule(next: Schedule) {
    && (forall t :: Left(next, t) ==> next(t) > t && next(t) % Second == 0)
    && (forall t, u | t <= u && Left(next, u) :: Left(next, t))
    && (forall t, u | Left(next, t) && t <= u < next(t) :: Left(next, u))
  }

  /** Next stops at every due instant, and at no other. */
  ghost predicate Follows(next: Schedule, due: int -> bool) {
    && (forall t | Left(next, t) :: due(next(t)) && forall u | t < u < next(t) :: !due(u))
    && (forall t, u | !Left(next, t) && t < u :: !due(u))
  }

  /** Where the search begins: a day back, or at the last firing if that is later. */
  function Lookback(now: int, lastFired: Option<int>): int {
    if lastFired.Some? && lastFired.value > now - Day then lastFired.value else now - Day
  }

  ghost predicate IsLatestDue(due: int -> bool, after: int, now: int, last: Option<int>) {
    && (last.None? ==> forall u | after < u <= now :: !due(u))
    && (last.Some? ==> after < last.value <= now && due(last.value) && forall u | last.value < u <= now :: !due(u))
  }

  /* ---------- when the search ends ---------- */

  /** Where n steps of the search lead from t. */
  function After(next: Schedule, t: int, n: nat): int {
    if n == 0 then t else next(After(next, t, n - 1))
  }

  /** After n steps the search is past now. */
  predicate EndsAt(next: Schedule, t: int, now: int, n: nat) {
    next(After(next, t, n)) > now
  }

  ghost predicate Ends(next: Schedule, t: int, now: int) {
    exists n: nat :: EndsAt(next, t, now, n)
  }

  lemma {:induction false} AfterSteps(next: Schedule, t: int, n: nat)
    ensures After(next, t, n + 1) == After(next, next(t), n)
  {
    if n > 0 {
      AfterSteps(next, t, n - 1);
    }
  }

  /** From a time that is not after now the search steps towards now; from a later one it is past now, or
      falls back to the zero time. */
  function Ahead(t: int, now: int): int {
    if t > now then now + 1 else now - t
  }

  lemma StepsOn(next: Schedule, t: int, now: int)
    requires IsSchedule(next) && Left(next, now) && ZeroTime <= now && next(t) <= now
    ensures 0 <= Ahead(next(t), now) < Ahead(t, now)
  {
    assert t <= now ==> Left(next, t);
  }

  /** With an instant left after now, the search comes past now. */
  lemma {:induction false} EndsWithOneLeft(next: Schedule, t: int, now: int)
    requires IsSchedule(next) && Left(next, now) && ZeroTime <= now
    ensures Ends(next, t, now)
    decreases Ahead(t, now)
  {
    if next(t) > now {
      assert EndsAt(next, t, now, 0);
    } else {
      StepsOn(next, t, now);
      EndsWithOneLeft(next, next(t), now);
      var n: nat :| EndsAt(next, next(t), now, n);
      AfterSteps(next, t, n);
      assert EndsAt(next, t, now, n + 1);
    }
  }

  lemma NoneLeftStaysBelow(next: Schedule, t: int, now: int)
    requires IsSchedule(next) && !Left(next, now) && ZeroTime <= now
    ensures next(t) <= now
  {
    assert now <= t ==> !Left(next, t);
    assert t <= now < next(t) ==> Left(next, now);
  }

  /** The catch-up search ends if and only if the schedule has an instant left after now; otherwise it falls
      back to the zero time again and again. */
  lemma SearchEndsIff(next: Schedule, now: int, lastFired: Option<int>)
    requires IsSchedule(next) && ZeroTime <= now
    ensures Ends(next, Lookback(now, lastFired), now) <==> Left(next, now)
  {
    var t := Lookback(now, lastFired);
    if Left(next, now) {
      EndsWithOneLeft(next, t, now);
    } else if Ends(next, t, now) {
      var n: nat :| EndsAt(next, t, now, n);
      NoneLeftStaysBelow(next, After(next, t, n), now);
      assert false;
    }
  }

  /** The thirtieth of February: it parses, and there is none. */
  const ThirtiethOfFebruary: Schedule := t => ZeroTime

  lemma ThirtiethOfFebruaryNeverEnds(now: int)
    requires ZeroTime <= now
    ensures IsSchedule(ThirtiethOfFebruary) && Follows(ThirtiethOfFebruary, t => false)
    ensures !Ends(ThirtiethOfFebruary, Lookback(now, None), now)
  {
    SearchEndsIff(ThirtiethOfFebruary, now, None);
  }

  /** A single instant, a day after the zero time. */
  const OnlyOnce: Schedule := t => if t < Day then Day else ZeroTime

  /** A schedule that runs out: its last firing is found before the day it is due, and never after. */
  lemma RunsOut(now: int)
    requires ZeroTime <= now
    ensures IsSchedule(OnlyOnce) && Follows(OnlyOnce, t => t == Day)
    ensures Ends(OnlyOnce, Lookback(now, None), now) <==> now < Day
  {
    SearchEndsIff(OnlyOnce, now, None);
  }

  /* ---------- what it finds ---------- */

  /** The last time stepped to that is not after now. */
  function LastStep(next: Schedule, t: int, now: int, last: Option<int>): Option<int>
    requires IsSchedule(next) && Left(next, now) && ZeroTime <= now
    decreases Ahead(t, now)
  {
    if next(t) > now then last
    else
      StepsOn(next, t, now);
      LastStep(next, next(t), now, Some(next(t)))
  }

  /** The outcome of the search; Endless stands for a call that does not return. */
  datatype CatchUp = Found(last: Option<int>) | Endless

  ghost function LatestScheduled(next: Schedule, now: int, lastFired: Option<int>): CatchUp
    requires IsSchedule(next) && ZeroTime <= now
  {
    if Left(next, now) then Found(LastStep(next, Lookback(now, lastFired), now, None)) else Endless
  }

  lemma {:induction false} LastStepIsInside(next: Schedule, t: int, now: int)
    requires IsSchedule(next) && Left(next, now) && ZeroTime <= now && t <= now && t % Second == 0
    ensures var r := LastStep(next, t, now, Some(t));
            r.Some? && t <= r.value <= now && r.value % Second == 0
    decreases now - t
  {
    assert Left(next, t);
    if next(t) <= now {
      LastStepIsInside(next, next(t), now);
    }
  }

  lemma {:induction false} LastStepIsLatest(next: Schedule, due: int -> bool, t: int, now: int)
    requires IsSchedule(next) && Left(next, now) && Follows(next, due) && ZeroTime <= now && t <= now && due(t)
    ensures IsLatestDue(due, t - 1, now, LastStep(next, t, now, Some(t)))
    decreases now - t
  {
    assert Left(next, t);
    if next(t) <= now {
      LastStepIsLatest(next, due, next(t), now);
    }
  }

  /** What is found is a whole second not after now, and after the lookback time unless the clock has gone
      back behind that. */
  lemma LatestIsInside(next: Schedule, now: int, lastFired: Option<int>)
    requires IsSchedule(next) && ZeroTime <= now
    ensures var r := LatestScheduled(next, now, lastFired);
            r.Found? && r.last.Some? ==>
              && r.last.value <= now && r.last.value % Second == 0
              && (Lookback(now, lastFired) <= now ==> Lookback(now, lastFired) < r.last.value)
  {
    var t := Lookback(now, lastFired);
    if Left(next, now) && next(t) <= now {
      assert t <= now ==> Left(next, t);
      assert next(t) == ZeroTime || next(t) > t;
      LastStepIsInside(next, next(t), now);
    }
  }

  /** It is the greatest instant due in (lookback, now], and nothing is found only if none is due there. */
  lemma LatestIsGreatestDue(next: Schedule, due: int -> bool, now: int, lastFired: Option<int>)
    requires IsSchedule(next) && Follows(next, due) && Left(next, now) && ZeroTime <= now
    requires Lookback(now, lastFired) <= now
    ensures IsLatestDue(due, Lookback(now, lastFired), now, LatestScheduled(next, now, lastFired).last)
  {
    var t := Lookback(now, lastFired);
    assert Left(next, t);
    if next(t) <= now {
      LastStepIsLatest(next, due, next(t), now);
    }
  }

  /** Steps forward through the schedule until it passes now. Where that would go on for ever, the answer
      is Endless; otherwise it is the greatest instant due in (lookback, now], if any. */
  method MostRecentSchedule(next: Schedule, now: int, lastFired: Option<int>) returns (r: CatchUp)
    requires IsSchedule(next) && ZeroTime <= now
    ensures r == LatestScheduled(next, now, lastFired)
    ensures r.Found? <==> Ends(next, Lookback(now, lastFired), now)
    ensures r.Found? && Lookback(now, lastFired) <= now ==>
              forall due | Follows(next, due) :: IsLatestDue(due, Lookback(now, lastFired), now, r.last)
  {
    SearchEndsIff(next, now, lastFired);
    if next(now) == ZeroTime {
      return Endless;
    }
    var lookback := now - Day;
    if lastFired.Some? && lastFired.value > lookback {
      lookback := lastFired.value;
    }
    var t := lookback;
    var last := None;
    while true
      invariant LastStep(next, lookback, now, None) == LastStep(next, t, now, last)
      decreases Ahead(t, now)
    {
      var n := next(t);
      if n > now {
        break;
      }
      StepsOn(next, t, now);
      last := Some(n);
      t := n;
    }
    if lookback <= now {
      forall due | Follows(next, due)
        ensures IsLatestDue(due, lookback, now, last)
      {
        LatestIsGreatestDue(next, due, now, lastFired);
      }
    }
    return Found(last);
  }

  /* ---------- one reconcile ---------- */

  datatype Trigger = Trigger(lastFired: Option<int>, fired: nat, nextFire: Option<int>)

  /** What firing comes to: runs are created, or none because one still runs and may not be doubled. */
  datatype Firing = Dispatched | Skipped | FireError

  /** Stored times keep whole seconds only. */
  function Stored(t: int): int {
    t - t % Second
  }

  /** The instant a reconcile fires for, if any, how that goes, and whether the status is written after it. */
  datatype Attempt = Attempt(instant: Option<int>, firing: Firing, stored: bool)

  function Due(last: Option<int>, lastFired: Option<int>): Option<int> {
    if last.Some? && (lastFired.None? || last.value > lastFired.value) then last else None
  }

  /** What a reconcile at now leaves stored. */
  function AfterAttempt(next: Schedule, s: Trigger, now: int, a: Attempt): Trigger {
    if !a.stored then s
    else if a.instant.None? then s.(nextFire := Some(Stored(next(now))))
    else Trigger(Some(Stored(now)), s.fired + 1, Some(Stored(next(now))))
  }

  /** One reconcile at now. It fires for the latest scheduled instant if that is later than the last firing;
      an error of the firing, a failed status write and a search without end leave the stored state alone. */
  ghost predicate Step(next: Schedule, s: Trigger, now: int, s': Trigger, a: Attempt)
    requires IsSchedule(next) && ZeroTime <= now
  {
    && (match LatestScheduled(next, now, s.lastFired)
        case Endless => a.instant == None && !a.stored
        case Found(last) => a.instant == Due(last, s.lastFired) && (a.instant.Some? && a.firing == FireError ==> !a.stored))
    && s' == AfterAttempt(next, s, now, a)
  }

  method ReconcileCron(next: Schedule, s: Trigger, now: int, firing: Firing, writeFails: bool)
    returns (s': Trigger, a: Attempt)
    requires IsSchedule(next) && ZeroTime <= now
    ensures Step(next, s, now, s', a) && a.firing == firing
    ensures a.stored <==> Left(next, now) && !writeFails && (a.instant.Some? ==> firing != FireError)
  {
    s' := s;
    var search := MostRecentSchedule(next, now, s.lastFired);
    if search.Endless? {
      return s, Attempt(None, firing, false);
    }
    var last := search.last;
    var shouldFire := last.Some? && (s.lastFired.None? || last.value > s.lastFired.value);
    if shouldFire {
      if firing == FireError {
        return s, Attempt(last, firing, false);
      }
      s' := s'.(lastFired := Some(Stored(now)), fired := s'.fired + 1);
    }
    s' := s'.(nextFire := Some(Stored(next(now))));
    a := Attempt(if shouldFire then last else None, firing, !writeFails);
    if writeFails {
      s' := s;
    }
  }

  /** What a persisted reconcile stores: the next instant after now, and, if it has fired, one firing more and the
      current time in whole seconds as the last. */
  lemma StoredTimes(next: Schedule, due: int -> bool, s: Trigger, now: int, s': Trigger, a: Attempt)
    requires IsSchedule(next) && Follows(next, due) && ZeroTime <= now && Step(next, s, now, s', a) && a.stored
    ensures s'.nextFire.Some?
    ensures var t := s'.nextFire.value;
            now < t && due(t) && t % 1_000_000_000 == 0 && forall u | now < u < t :: !due(u)
    ensures if a.instant.Some? then
              s'.lastFired.Some? && s'.lastFired.value <= now < s'.lastFired.value + 1_000_000_000
              && s'.lastFired.value % 1_000_000_000 == 0 && s'.fired == s.fired + 1
            else s'.lastFired == s.lastFired && s'.fired == s.fired
  {
    assert Left(next, now);
  }

  /* ---------- runs ---------- */

  datatype History = History(states: seq<Trigger>, nows: seq<int>, attempts: seq<Attempt>)

  ghost predicate StepsAt(next: Schedule, h: History, k: nat)
    requires k < |h.nows| == |h.attempts| == |h.states| - 1 && IsSchedule(next)
  {
    ZeroTime <= h.nows[k] && Step(next, h.states[k], h.nows[k], h.states[k + 1], h.attempts[k])
  }

  ghost predicate IsHistory(next: Schedule, h: History) {
    && IsSchedule(next)
    && |h.states| == |h.nows| + 1 == |h.attempts| + 1
    && h.states[0] == Trigger(None, 0, None)
    && (forall k | 0 <= k < |h.nows| :: StepsAt(next, h, k))
  }

  predicate Fires(a: Attempt) {
    a.instant.Some? && a.firing != FireError
  }

  predicate FiresStored(a: Attempt) {
    Fires(a) && a.stored
  }

  /** An attempt is for an instant after the last stored firing; stored, it covers that instant. */
  lemma FiringCovers(next: Schedule, s: Trigger, now: int, s': Trigger, a: Attempt)
    requires IsSchedule(next) && ZeroTime <= now && Step(next, s, now, s', a) && a.instant.Some?
    ensures a.instant.value <= now
    ensures s.lastFired.Some? ==> s.lastFired.value < a.instant.value
    ensures a.stored ==> s'.lastFired.Some? && a.instant.value <= s'.lastFired.value && s'.fired == s.fired + 1
    ensures !a.stored ==> s' == s
  {
    LatestIsInside(next, now, s.lastFired);
  }

  lemma {:induction false} LastFiredOnlyGrows(next: Schedule, h: History, j: nat, k: nat)
    requires IsHistory(next, h) && j <= k < |h.states| && h.states[j].lastFired.Some?
    ensures h.states[k].lastFired.Some? && h.states[j].lastFired.value <= h.states[k].lastFired.value
    decreases k - j
  {
    if j < k {
      assert StepsAt(next, h, j);
      if h.attempts[j].instant.Some? {
        FiringCovers(next, h.states[j], h.nows[j], h.states[j + 1], h.attempts[j]);
      }
      LastFiredOnlyGrows(next, h, j + 1, k);
    }
  }

  /** After a stored firing, whatever the clock does, every attempt is for a later instant. */
  lemma NoInstantFiresTwice(next: Schedule, h: History, j: nat, k: nat)
    requires IsHistory(next, h) && j < k < |h.attempts| && FiresStored(h.attempts[j]) && h.attempts[k].instant.Some?
    ensures h.attempts[j].instant.value < h.attempts[k].instant.value
  {
    assert StepsAt(next, h, j) && StepsAt(next, h, k);
    FiringCovers(next, h.states[j], h.nows[j], h.states[j + 1], h.attempts[j]);
    LastFiredOnlyGrows(next, h, j + 1, k);
    FiringCovers(next, h.states[k], h.nows[k], h.states[k + 1], h.attempts[k]);
  }

  /** The firing of a stored attempt that records a time from u on. */
  predicate Settles(a: Attempt, now: int, u: int) {
    FiresStored(a) && Stored(now) >= u
  }

  lemma {:induction false} UnsettledStaysBelow(next: Schedule, h: History, j: nat, k: nat, u: int)
    requires IsHistory(next, h) && j <= k < |h.states|
    requires h.states[j].lastFired.Some? ==> h.states[j].lastFired.value < u
    requires forall i | j <= i < k :: !Settles(h.attempts[i], h.nows[i], u)
    ensures h.states[k].lastFired.Some? ==> h.states[k].lastFired.value < u
    decreases k - j
  {
    if j < k {
      assert StepsAt(next, h, j);
      UnsettledStaysBelow(next, h, j + 1, k, u);
    }
  }

  /** An instant that has been fired for, and is still the latest due within a day, is fired for again if and
      only if no firing since, its own included, has been stored at a time from it on. */
  lemma FiresAgainIff(next: Schedule, due: int -> bool, h: History, j: nat, k: nat)
    requires IsHistory(next, h) && Follows(next, due) && j < k < |h.attempts| && Fires(h.attempts[j])
    requires Left(next, h.nows[k]) && IsLatestDue(due, h.nows[k] - Day, h.nows[k], h.attempts[j].instant)
    ensures h.attempts[k].instant == h.attempts[j].instant
        <==> forall i | j <= i < k :: !Settles(h.attempts[i], h.nows[i], h.attempts[j].instant.value)
  {
    var u := h.attempts[j].instant.value;
    assert StepsAt(next, h, j) && StepsAt(next, h, k);
    FiringCovers(next, h.states[j], h.nows[j], h.states[j + 1], h.attempts[j]);
    if i :| j <= i < k && Settles(h.attempts[i], h.nows[i], u) {
      SettledIsPast(next, h, i, k, u);
    } else {
      UnsettledStaysBelow(next, h, j, k, u);
      LatestIsFired(next, due, h.states[k], h.nows[k], h.states[k + 1], h.attempts[k], u);
    }
  }

  lemma SettledIsPast(next: Schedule, h: History, i: nat, k: nat, u: int)
    requires IsHistory(next, h) && i < k < |h.attempts| && Settles(h.attempts[i], h.nows[i], u)
    ensures h.attempts[k].instant != Some(u)
  {
    assert StepsAt(next, h, i) && StepsAt(next, h, k);
    LastFiredOnlyGrows(next, h, i + 1, k);
    if h.attempts[k].instant.Some? {
      FiringCovers(next, h.states[k], h.nows[k], h.states[k + 1], h.attempts[k]);
    }
  }

  lemma LatestIsFired(next: Schedule, due: int -> bool, s: Trigger, now: int, s': Trigger, a: Attempt, u: int)
    requires IsSchedule(next) && Follows(next, due) && ZeroTime <= now && Step(next, s, now, s', a)
    requires Left(next, now) && IsLatestDue(due, now - Day, now, Some(u))
    requires s.lastFired.Some? ==> s.lastFired.value < u
    ensures a.instant == Some(u)
  {
    LatestIsGreatestDue(next, due, now, s.lastFired);
  }

  /** In particular, at the very next reconcile: if and only if its own status write failed. */
  lemma FiresAgainAtOnceIff(next: Schedule, due: int -> bool, h: History, j: nat)
    requires IsHistory(next, h) && Follows(next, due) && j + 1 < |h.attempts| && Fires(h.attempts[j])
    requires Left(next, h.nows[j + 1])
    requires IsLatestDue(due, h.nows[j + 1] - Day, h.nows[j + 1], h.attempts[j].instant)
    ensures h.attempts[j + 1].instant == h.attempts[j].instant <==> !h.attempts[j].stored
  {
    FiresAgainIff(next, due, h, j, j + 1);
    StoredSettles(next, h, j);
  }

  lemma StoredSettles(next: Schedule, h: History, j: nat)
    requires IsHistory(next, h) && j < |h.attempts| && Fires(h.attempts[j])
    ensures Settles(h.attempts[j], h.nows[j], h.attempts[j].instant.value) <==> h.attempts[j].stored
  {
    assert StepsAt(next, h, j);
    LatestIsInside(next, h.nows[j], h.states[j].lastFired);
  }

  /** While its status writes fail, one instant is fired for any number of times. */
  lemma FiredAnyNumberOfTimes(n: nat)
    ensures var next: Schedule := t => if t < Day then Day else if t < 9 * Day then 9 * Day else ZeroTime;
            exists h :: IsHistory(next, h) && |h.attempts| == n
                        && forall k | 0 <= k < n :: h.attempts[k] == Attempt(Some(Day), Dispatched, false)
  {
    var next: Schedule := t => if t < Day then Day else if t < 9 * Day then 9 * Day else ZeroTime;
    var s, a, now := Trigger(None, 0, None), Attempt(Some(Day), Dispatched, false), Day + Second;
    assert IsSchedule(next);
    assert next(Day) == 9 * Day && next(Lookback(now, None)) == Day;
    assert LatestScheduled(next, now, None) == Found(LastStep(next, Day, now, Some(Day)));
    assert Step(next, s, now, s, a);
    var h := History(seq(n + 1, _ => s), seq(n, _ => now), seq(n, _ => a));
    forall k | 0 <= k < n
      ensures StepsAt(next, h, k)
    {
    }
    assert IsHistory(next, h);
  }

  function StoredFirings(attempts: seq<Attempt>): nat {
    if attempts == [] then 0
    else StoredFirings(attempts[..|attempts| - 1]) + (if FiresStored(attempts[|attempts| - 1]) then 1 else 0)
  }

  /** How often runs were created. */
  function Dispatches(attempts: seq<Attempt>): nat {
    if attempts == [] then 0
    else
      var a := attempts[|attempts| - 1];
      Dispatches(attempts[..|attempts| - 1]) + (if a.instant.Some? && a.firing == Dispatched then 1 else 0)
  }

  /** How often by reconciles whose status was not stored. */
  function LostDispatches(attempts: seq<Attempt>): nat {
    if attempts == [] then 0
    else
      var a := attempts[|attempts| - 1];
      LostDispatches(attempts[..|attempts| - 1])
      + (if a.instant.Some? && a.firing == Dispatched && !a.stored then 1 else 0)
  }

  /** How often a stored firing created none, because one was still running. */
  function Skips(attempts: seq<Attempt>): nat {
    if attempts == [] then 0
    else
      var a := attempts[|attempts| - 1];
      Skips(attempts[..|attempts| - 1]) + (if a.instant.Some? && a.firing == Skipped && a.stored then 1 else 0)
  }

  /** The stored count is that of the stored firings: runs were created that many times, less those it
      counted while one was still running, and more by those whose reconcile was not stored. */
  lemma {:induction false} FiredCounts(next: Schedule, h: History, k: nat)
    requires IsHistory(next, h) && k < |h.states|
    ensures h.states[k].fired == StoredFirings(h.attempts[..k])
    ensures h.states[k].fired + LostDispatches(h.attempts[..k]) == Dispatches(h.attempts[..k]) + Skips(h.attempts[..k])
  {
    if k > 0 {
      FiredCounts(next, h, k - 1);
      assert StepsAt(next, h, k - 1);
      assert h.attempts[..k][..k - 1] == h.attempts[..k - 1];
    }
  }

  /* ---------- what is due does fire ---------- */

  /** An instant is waiting when it has come due in the past day and is later than the last firing. */
  predicate Waiting(due: int -> bool, s: Trigger, now: int, u: int) {
    due(u) && now - 86_400_000_000_000 < u <= now && (s.lastFired.None? || s.lastFired.value < u)
  }

  /** A reconcile attempts to fire if and only if its search ends and an instant is waiting, and then for
      the latest one. */
  lemma FiresIffWaiting(next: Schedule, due: int -> bool, s: Trigger, now: int, s': Trigger, a: Attempt)
    requires IsSchedule(next) && Follows(next, due) && ZeroTime <= now && Step(next, s, now, s', a)
    ensures a.instant.Some? <==> Left(next, now) && exists u :: Waiting(due, s, now, u)
    ensures a.instant.Some? ==> forall u | Waiting(due, s, now, u) :: u <= a.instant.value
  {
    LatestIsInside(next, now, s.lastFired);
    if Left(next, now) && Lookback(now, s.lastFired) <= now {
      LatestIsGreatestDue(next, due, now, s.lastFired);
      if a.instant.Some? {
        assert Waiting(due, s, now, a.instant.value);
      }
    }
  }

  /** A stored reconcile leaves nothing waiting. */
  lemma NothingLeftWaiting(next: Schedule, due: int -> bool, s: Trigger, now: int, s': Trigger, a: Attempt, u: int)
    requires IsSchedule(next) && Follows(next, due) && ZeroTime <= now && Step(next, s, now, s', a) && a.stored
    ensures !Waiting(due, s', now, u)
  {
    FiresIffWaiting(next, due, s, now, s', a);
    if a.instant.Some? && u <= now && due(u) {
      assert Left(next, u - 1);
      assert !(u - 1 < u < next(u - 1));
      assert u == next(u - 1);
    } else if a.instant.None? {
      assert !Waiting(due, s, now, u);
    }
  }
}
