/** What holds of the audit emitter over whole runs. */
module EmitterRuns {
  import opened Options
  import opened EmitterProtocol

  /** An interleaving so far: label k leads from states[k] to states[k + 1]. */
  ghost predicate IsRun(cap: nat, callers: nat, states: seq<State>, labels: seq<Label>) {
    && cap > 0 && |states| == |labels| + 1
    && states[0] == NewEmitter(cap, callers)
    && (forall k | 0 <= k < |labels| :: StepsTo(states[k], labels[k], states[k + 1]))
  }

  ghost predicate StepsTo(s: State, l: Label, s': State) {
    Enabled(s, l) && s' == Next(s, l)
  }

  lemma {:induction false} ReachableInv(cap: nat, callers: nat, states: seq<State>, labels: seq<Label>, k: nat)
    requires IsRun(cap, callers, states, labels) && k < |states|
    ensures Inv(states[k])
  {
    if k == 0 {
      NewEmitterInv(cap, callers);
    } else {
      ReachableInv(cap, callers, states, labels, k - 1);
      assert StepsTo(states[k - 1], labels[k - 1], states[k]);
      StepKeepsInv(states[k - 1], labels[k - 1], states[k]);
    }
  }

  lemma StepKeepsInv(s: State, l: Label, s': State)
    requires StepsTo(s, l, s') && Inv(s)
    ensures Inv(s')
  {
    NextKeepsInv(s, l);
  }

  /** Conservation, in numbers: every call begun with the mode on is accounted for once. */
  lemma EveryCallAccountedFor(cap: nat, callers: nat, states: seq<State>, labels: seq<Label>, k: nat)
    requires IsRun(cap, callers, states, labels) && k < |states|
    ensures var s := states[k];
            && |s.begun| + s.phantoms
               == |Flat(s.handed)| + |Batch(s.loop)| + |s.buffer| + s.dropped + |Carriers(s.callers)| + |Owing(s.callers)|
            && |s.buffer| <= s.cap
            && (forall j | 0 <= j < |s.handed| :: 1 <= |s.handed[j]| <= MaxBatchSize)
            && InOrder(Flat(s.handed) + Batch(s.loop) + s.buffer, s.sent)
            && |s.buffer| <= |s.sent| && s.buffer == s.sent[|s.sent| - |s.buffer|..]
            && (!s.late ==> s.phantoms == 0)
  {
    ReachableInv(cap, callers, states, labels, k);
  }

  /** Once the loop is done after a Close no call raced with, every begun event was handed
      to the sink or dropped, and the counter says how many were dropped. */
  lemma AfterCloseAllSettled(cap: nat, callers: nat, states: seq<State>, labels: seq<Label>, k: nat)
    requires IsRun(cap, callers, states, labels) && k < |states| && !states[k].late && states[k].loop.Finished?
    ensures var s := states[k];
            && multiset(s.begun) == multiset(Flat(s.handed)) + s.lost
            && |s.begun| == |Flat(s.handed)| + s.dropped
            && s.buffer == [] && Quiet(s)
  {
    ReachableInv(cap, callers, states, labels, k);
    var s := states[k];
    assert Carriers(s.callers) == {} && Owing(s.callers) == {};
    assert Kept(s) == Flat(s.handed);
    forall e
      ensures multiset(s.begun)[e] == (multiset(Flat(s.handed)) + s.lost)[e]
    {
      assert ConservedOf(s, e) && CarriersOf(s.callers, e) == {};
    }
  }

  /* ---------- at most two drops a call ---------- */

  /** How many drops a call can still count. */
  function DropsLeft(c: Caller): nat {
    match c
    case Idle => 0
    case Sending(_) => 2
    case Evicting(_) => 2
    case CountingEvicted(_) => 2
    case Retrying(_) => 1
    case CountingRefused => 1
    case Panicked(_) => 0
  }

  function AllDropsLeft(callers: seq<Caller>): nat {
    if callers == [] then 0
    else AllDropsLeft(callers[..|callers| - 1]) + DropsLeft(callers[|callers| - 1])
  }

  lemma {:induction false} DropsLeftMoves(callers: seq<Caller>, i: nat, c: Caller)
    requires i < |callers|
    ensures AllDropsLeft(callers[i := c]) + DropsLeft(callers[i]) == AllDropsLeft(callers) + DropsLeft(c)
  {
    var n := |callers| - 1;
    if i < n {
      DropsLeftMoves(callers[..n], i, c);
      assert callers[i := c][..n] == callers[..n][i := c];
    } else {
      assert callers[i := c][..n] == callers[..n];
    }
  }

  /** A call's every step uses up what it adds to the counter. */
  lemma StepDropsWithin(s: State, i: nat)
    requires Enabled(s, Advance(i))
    ensures var s' := AdvanceCaller(s, i);
            s'.dropped + DropsLeft(s'.callers[i]) <= s.dropped + DropsLeft(s.callers[i])
            && s'.callers == s.callers[i := s'.callers[i]] && s'.begun == s.begun
  {
  }

  lemma {:induction false} NoneLeft(callers: nat)
    ensures AllDropsLeft(seq(callers, _ => Idle)) == 0
  {
    if callers > 0 {
      NoneLeft(callers - 1);
      assert seq(callers, _ => Idle)[..callers - 1] == seq(callers - 1, _ => Idle);
    }
  }

  lemma DropsStepWithin(s: State, l: Label, s': State)
    requires StepsTo(s, l, s') && s.dropped + AllDropsLeft(s.callers) <= 2 * |s.begun|
    ensures s'.dropped + AllDropsLeft(s'.callers) <= 2 * |s'.begun|
  {
    match l
    case Begin(i, e) => DropsLeftMoves(s.callers, i, Sending(e));
    case Advance(i) =>
      StepDropsWithin(s, i);
      DropsLeftMoves(s.callers, i, s'.callers[i]);
    case Consume => ConsumeTouchesLittle(s);
    case _ =>
  }

  /** The drops counted so far by the call caller i is making, or made last. */
  function CallDrops(states: seq<State>, labels: seq<Label>, i: nat, k: nat): nat
    requires k <= |labels| < |states|
  {
    if k == 0 || (labels[k - 1].Begin? && labels[k - 1].caller == i) then 0
    else
      CallDrops(states, labels, i, k - 1)
      + (if labels[k - 1] == Advance(i) && states[k].dropped > states[k - 1].dropped then 1 else 0)
  }

  lemma CallStepWithin(s: State, l: Label, s': State, i: nat, drops: nat)
    requires StepsTo(s, l, s') && i < |s.callers| == |s'.callers| && !(l.Begin? && l.caller == i)
    requires drops + DropsLeft(s.callers[i]) <= 2
    ensures drops + (if l == Advance(i) && s'.dropped > s.dropped then 1 else 0) + DropsLeft(s'.callers[i]) <= 2
  {
    match l
    case Begin(j, e) =>
    case Advance(j) => StepDropsWithin(s, j);
    case Consume => ConsumeTouchesLittle(s);
    case _ =>
  }

  lemma CallersStay(s: State, l: Label, s': State)
    requires StepsTo(s, l, s')
    ensures |s'.callers| == |s.callers|
  {
    match l
    case Advance(i) => StepDropsWithin(s, i);
    case Consume => ConsumeTouchesLittle(s);
    case _ =>
  }

  /** No single call counts more than two drops. */
  lemma {:induction false} AtMostTwoDropsInACall(
    cap: nat, callers: nat, states: seq<State>, labels: seq<Label>, i: nat, k: nat)
    requires IsRun(cap, callers, states, labels) && k < |states| && i < callers
    ensures |states[k].callers| == callers && CallDrops(states, labels, i, k) + DropsLeft(states[k].callers[i]) <= 2
  {
    if k > 0 {
      AtMostTwoDropsInACall(cap, callers, states, labels, i, k - 1);
      assert StepsTo(states[k - 1], labels[k - 1], states[k]);
      CallersStay(states[k - 1], labels[k - 1], states[k]);
      if !(labels[k - 1].Begin? && labels[k - 1].caller == i) {
        CallStepWithin(states[k - 1], labels[k - 1], states[k], i, CallDrops(states, labels, i, k - 1));
      }
    }
  }

  /** So the counter never exceeds twice the calls begun. */
  lemma {:induction false} AtMostTwoDropsPerCall(cap: nat, callers: nat, states: seq<State>, labels: seq<Label>, k: nat)
    requires IsRun(cap, callers, states, labels) && k < |states|
    ensures states[k].dropped + AllDropsLeft(states[k].callers) <= 2 * |states[k].begun|
  {
    if k == 0 {
      NoneLeft(callers);
    } else {
      AtMostTwoDropsPerCall(cap, callers, states, labels, k - 1);
      assert StepsTo(states[k - 1], labels[k - 1], states[k]);
      DropsStepWithin(states[k - 1], labels[k - 1], states[k]);
    }
  }

  /* ---------- Close drains ---------- */

  /** What the loop has still to do once nothing more is sent. */
  function Work(s: State): nat {
    3 * |s.buffer| + match s.loop case Draining(_) => 3 case Handing(_) => 2 case Waiting => 1 case Finished => 0
  }

  /** The loop, left alone on a closed channel. */
  function Drained(s: State): (r: State)
    requires s.closed
    ensures r.closed && r.loop.Finished?
    decreases Work(s)
  {
    if s.loop.Finished? then s else Drained(ConsumeStep(s))
  }

  /** It ends, and has then handed over everything that was on its way, in order. */
  lemma {:induction false} CloseDrains(s: State)
    requires s.closed && (s.loop.Finished? ==> s.buffer == [])
    ensures Flat(Drained(s).handed) == Kept(s) && Drained(s).buffer == []
    ensures Drained(s).dropped == s.dropped && Drained(s).lost == s.lost
    decreases Work(s)
  {
    if !s.loop.Finished? {
      ConsumeMovesNothing(s);
      ConsumeTouchesLittle(s);
      CloseDrains(ConsumeStep(s));
    }
  }

  /* ---------- one caller: a sliding window ---------- */

  function LastOf(events: seq<Event>, n: nat): seq<Event> {
    if |events| <= n then events else events[|events| - n..]
  }

  function Carried(c: Caller): seq<Event> {
    if Carries(c) then [c.event] else []
  }

  /** The loop has taken nothing yet. */
  predicate Untouched(s: State) {
    s.handed == [] && s.loop == Waiting
  }

  /** With a single caller and no call racing with Close, events are sent in the order they are begun, the
      room an eviction makes is still there for the retry. */
  ghost predicate InTurn(s: State) {
    && |s.callers| == 1 && !s.late && (s.closed ==> s.callers[0] == Idle)
    && (s.callers[0].Retrying? ==> |s.buffer| < s.cap)
    && (s.callers[0].CountingEvicted? ==> |s.buffer| < s.cap)
    && s.callers[0] != CountingRefused && !s.callers[0].Panicked?
    && s.begun == s.sent + Carried(s.callers[0])
  }

  /** While the loop takes nothing, the buffer holds the last events up to its capacity, but for the room of an eviction. */
  predicate Filling(s: State)
    requires |s.callers| == 1
  {
    Untouched(s) ==>
      match s.callers[0]
      case Evicting(_) => |s.buffer| == s.cap <= |s.sent|
      case CountingEvicted(_) => |s.buffer| == s.cap - 1 && s.cap <= |s.sent|
      case Retrying(_) => |s.buffer| == s.cap - 1 && s.cap <= |s.sent|
      case _ => |s.buffer| == Min(s.cap, |s.sent|)
  }

  ghost predicate SingleCaller(s: State) {
    InTurn(s) && Filling(s)
  }

  lemma InTurnKept(s: State, l: Label)
    requires InTurn(s) && Bounds(s) && Enabled(s, l) && !Next(s, l).late
    ensures InTurn(Next(s, l))
  {
    match l
    case Close => assert Quiet(s) ==> s.callers[0] == Idle;
    case _ =>
  }

  lemma FillingKept(s: State, l: Label)
    requires InTurn(s) && Filling(s) && Bounds(s) && Enabled(s, l) && InTurn(Next(s, l)) && |s.buffer| <= |s.sent|
    ensures Filling(Next(s, l))
  {
  }

  lemma SingleStep(s: State, l: Label, s': State)
    requires StepsTo(s, l, s') && !s'.late && Inv(s) && SingleCaller(s)
    ensures SingleCaller(s')
  {
    InTurnKept(s, l);
    FillingKept(s, l);
  }

  /** A race with Close is never undone. */
  lemma LateStays(s: State, l: Label, s': State)
    requires StepsTo(s, l, s') && s.late
    ensures s'.late
  {
  }

  lemma {:induction false} SingleCallerThroughout(cap: nat, states: seq<State>, labels: seq<Label>, k: nat)
    requires IsRun(cap, 1, states, labels) && k < |states| && !states[k].late
    ensures SingleCaller(states[k])
  {
    if k > 0 {
      assert StepsTo(states[k - 1], labels[k - 1], states[k]);
      if states[k - 1].late {
        LateStays(states[k - 1], labels[k - 1], states[k]);
      }
      SingleCallerThroughout(cap, states, labels, k - 1);
      SingleStepAt(cap, states, labels, k - 1);
    }
  }

  lemma SingleStepAt(cap: nat, states: seq<State>, labels: seq<Label>, k: nat)
    requires IsRun(cap, 1, states, labels) && k < |labels| && !states[k + 1].late && SingleCaller(states[k])
    ensures SingleCaller(states[k + 1])
  {
    ReachableInv(cap, 1, states, labels, k);
    assert StepsTo(states[k], labels[k], states[k + 1]);
    SingleStep(states[k], labels[k], states[k + 1]);
  }

  /** A single producer, unless it races with Close, never has its new event refused; between calls the
      buffer is always the end of what it emitted, and while the loop takes nothing exactly the last cap of it. */
  lemma SlidingWindow(cap: nat, states: seq<State>, labels: seq<Label>, k: nat)
    requires IsRun(cap, 1, states, labels) && k < |states| && !states[k].late
    ensures var s := states[k];
            && |s.callers| == 1 && s.callers[0] != CountingRefused
            && (s.callers[0] == Idle ==> s.buffer == LastOf(s.begun, |s.buffer|))
            && (s.callers[0] == Idle && Untouched(s) ==> s.buffer == LastOf(s.begun, s.cap))
  {
    ReachableInv(cap, 1, states, labels, k);
    SingleCallerThroughout(cap, states, labels, k);
  }

  /* ---------- Emit uninterrupted ---------- */

  /** Caller i runs Emit(e) with nobody interfering. */
  function EmitAlone(s: State, i: nat, e: Event): State
    requires Enabled(s, Begin(i, e)) && 0 < s.cap && |s.buffer| <= s.cap && !s.closed
  {
    var s1 := Next(s, Begin(i, e));
    if !s.on then s1
    else
      var s2 := Next(s1, Advance(i));
      if s2.callers[i] == Idle then s2
      else Next(Next(Next(s2, Advance(i)), Advance(i)), Advance(i))
  }

  /** It drops the oldest event exactly when the buffer is full. */
  lemma EmitAloneSlides(s: State, i: nat, e: Event)
    requires Enabled(s, Begin(i, e)) && 0 < s.cap && |s.buffer| <= s.cap && !s.closed
    ensures var r := EmitAlone(s, i, e);
            if s.on then
              && r.callers == s.callers && r.buffer == LastOf(s.buffer + [e], s.cap)
              && r.dropped == s.dropped + One(|s.buffer| == s.cap)
              && r.lost == s.lost + if |s.buffer| == s.cap then multiset{s.buffer[0]} else multiset{}
            else r == s
  {
    if s.on {
      var s1 := Next(s, Begin(i, e));
      var s2 := Next(s1, Advance(i));
      if |s.buffer| == s.cap {
        assert s2 == Moved(s1, i, Evicting(e));
        var s3 := Next(s2, Advance(i));
        assert s3 == Evicted(s2, i, e);
        var s4 := Next(s3, Advance(i));
        assert s4 == DropRecorded(s3, i, Retrying(e));
        assert s.buffer[1..] + [e] == (s.buffer + [e])[1..];
      }
      assert EmitAlone(s, i, e).callers == s.callers;
    }
  }

  /* ---------- the mode, and how a batch is filled ---------- */

  /** A call that begins with the mode off does nothing; with it on, its event is under way. */
  lemma ModeDecides(s: State, on: bool, i: nat, e: Event)
    requires i < |s.callers| && s.callers[i] == Idle
    ensures var t := Next(s, SetMode(on));
            && Enabled(t, Begin(i, e))
            && var r := Next(t, Begin(i, e));
               if on then r.begun == s.begun + [e] && Carries(r.callers[i]) && r.callers[i].event == e else r == t
  {
  }

  /** The loop hands a batch over when it holds 64 events or nothing more is buffered, and not before. */
  lemma FullOrAllThereIs(s: State)
    requires s.loop.Draining?
    ensures Next(s, Consume).loop.Handing? <==> |s.loop.batch| >= 64 || s.buffer == []
    ensures !Next(s, Consume).loop.Handing? ==> Next(s, Consume).loop == Draining(s.loop.batch + [s.buffer[0]])
  {
  }
}
