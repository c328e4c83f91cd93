/** The audit emitter, interleaved: callers of Emit, the loop, SetMode and Close, at every channel and counter operation. */
module EmitterProtocol {

  datatype Event = Event(body: string)

  /** Where a goroutine stands inside Emit. An eviction or a refusal is counted in a step
      of its own; sending on the closed channel panics. */
  datatype Caller =
    | Idle
    | Sending(event: Event)
    | Evicting(event: Event)
    | CountingEvicted(event: Event)
    | Retrying(event: Event)
    | CountingRefused
    | Panicked(event: Event)

  datatype Loop = Waiting | Draining(batch: seq<Event>) | Handing(batch: seq<Event>) | Finished

  /** begun, sent and lost are history: events of calls begun with the mode on,
      events put on the channel in that order, events evicted or refused;
      late tells that a call was under way at, or began after, Close. */
  datatype State = State(
    cap: nat,
    buffer: seq<Event>,
    closed: bool,
    on: bool,
    dropped: nat,
    callers: seq<Caller>,
    loop: Loop,
    handed: seq<seq<Event>>,
    begun: seq<Event>,
    sent: seq<Event>,
    lost: multiset<Event>,
    phantoms: nat,
    late: bool)

  datatype Label = Begin(caller: nat, event: Event) | Advance(caller: nat) | Consume | SetMode(on: bool) | Close

  const MaxBatchSize := 64

  function NewEmitter(cap: nat, callers: nat): State
    requires cap > 0
  {
    State(cap, [], false, true, 0, seq(callers, _ => Idle), Waiting, [], [], [], multiset{}, 0, false)
  }

  predicate Enabled(s: State, l: Label) {
    match l
    case Begin(i, _) => i < |s.callers| && s.callers[i] == Idle
    case Advance(i) => i < |s.callers| && !s.callers[i].Idle? && !s.callers[i].Panicked?
    case Consume => s.loop != Finished && !(s.loop == Waiting && s.buffer == [] && !s.closed)
    case SetMode(_) => true
    case Close => !s.closed
  }

  function Moved(s: State, i: nat, c: Caller): State
    requires i < |s.callers|
  {
    s.(callers := s.callers[i := c])
  }

  /** The event goes on the channel. */
  function Sent(s: State, i: nat, e: Event): State
    requires i < |s.callers|
  {
    s.(buffer := s.buffer + [e], sent := s.sent + [e], callers := s.callers[i := Idle])
  }

  /** The oldest event is taken off the channel to make room. */
  function Evicted(s: State, i: nat, e: Event): State
    requires i < |s.callers| && s.buffer != []
  {
    s.(buffer := s.buffer[1..], lost := s.lost + multiset{s.buffer[0]}, callers := s.callers[i := CountingEvicted(e)])
  }

  /** Receiving from the closed, empty channel succeeds with nothing. */
  function EvictedNothing(s: State, i: nat, e: Event): State
    requires i < |s.callers|
  {
    s.(phantoms := s.phantoms + 1, callers := s.callers[i := CountingEvicted(e)])
  }

  /** The new event is given up. */
  function Refused(s: State, i: nat, e: Event): State
    requires i < |s.callers|
  {
    s.(lost := s.lost + multiset{e}, callers := s.callers[i := CountingRefused])
  }

  function DropRecorded(s: State, i: nat, c: Caller): State
    requires i < |s.callers|
  {
    s.(dropped := s.dropped + 1, callers := s.callers[i := c])
  }

  function AdvanceCaller(s: State, i: nat): State
    requires Enabled(s, Advance(i))
  {
    match s.callers[i]
    case Sending(e) =>
      if s.closed then Moved(s, i, Panicked(e))
      else if |s.buffer| < s.cap then Sent(s, i, e)
      else Moved(s, i, Evicting(e))
    case Evicting(e) =>
      if s.buffer != [] then Evicted(s, i, e)
      else if s.closed then EvictedNothing(s, i, e)
      else Moved(s, i, Retrying(e))
    case CountingEvicted(e) => DropRecorded(s, i, Retrying(e))
    case Retrying(e) =>
      if s.closed then Moved(s, i, Panicked(e))
      else if |s.buffer| < s.cap then Sent(s, i, e)
      else Refused(s, i, e)
    case CountingRefused => DropRecorded(s, i, Idle)
  }

  function Received(s: State, batch: seq<Event>): State
    requires s.buffer != []
  {
    s.(buffer := s.buffer[1..], loop := Draining(batch + [s.buffer[0]]))
  }

  function Delivered(s: State, batch: seq<Event>): State {
    s.(handed := s.handed + [batch], loop := Waiting)
  }

  function ConsumeStep(s: State): State
    requires Enabled(s, Consume)
  {
    match s.loop
    case Waiting => if s.buffer != [] then Received(s, []) else s.(loop := Finished)
    case Draining(batch) =>
      if |batch| < MaxBatchSize && s.buffer != [] then Received(s, batch) else s.(loop := Handing(batch))
    case Handing(batch) => Delivered(s, batch)
  }

  predicate Quiet(s: State) {
    forall i | 0 <= i < |s.callers| :: s.callers[i] == Idle
  }

  function Next(s: State, l: Label): State
    requires Enabled(s, l)
  {
    match l
    case Begin(i, e) =>
      if !s.on then s
      else s.(begun := s.begun + [e], callers := s.callers[i := Sending(e)], late := s.late || s.closed)
    case Advance(i) => AdvanceCaller(s, i)
    case Consume => ConsumeStep(s)
    case SetMode(on) => s.(on := on)
    case Close => s.(closed := true, late := s.late || !Quiet(s))
  }

  /* ---------- what the callers hold ---------- */

  /** The caller still carries an event. */
  predicate Carries(c: Caller) {
    c.Sending? || c.Evicting? || c.CountingEvicted? || c.Retrying? || c.Panicked?
  }

  /** The caller has still to count a loss. */
  predicate Owes(c: Caller) {
    c.CountingEvicted? || c.CountingRefused?
  }

  ghost function Carriers(callers: seq<Caller>): set<int> {
    set i | 0 <= i < |callers| && Carries(callers[i])
  }

  ghost function CarriersOf(callers: seq<Caller>, e: Event): set<int> {
    set i | 0 <= i < |callers| && Carries(callers[i]) && callers[i].event == e
  }

  ghost function Owing(callers: seq<Caller>): set<int> {
    set i | 0 <= i < |callers| && Owes(callers[i])
  }

  function One(b: bool): nat {
    if b then 1 else 0
  }

  lemma MemberMoves(s: set<int>, s': set<int>, i: int)
    requires s - {i} == s' - {i}
    ensures |s'| + One(i in s) == |s| + One(i in s')
  {
    assert s == (s - {i}) + (if i in s then {i} else {});
    assert s' == (s - {i}) + (if i in s' then {i} else {});
  }

  lemma OneCallerMoves(callers: seq<Caller>, i: nat, c: Caller)
    requires i < |callers|
    ensures |Carriers(callers[i := c])| + One(Carries(callers[i])) == |Carriers(callers)| + One(Carries(c))
    ensures |Owing(callers[i := c])| + One(Owes(callers[i])) == |Owing(callers)| + One(Owes(c))
    ensures forall e {:trigger CarriersOf(callers[i := c], e)} ::
              |CarriersOf(callers[i := c], e)| + One(Carries(callers[i]) && callers[i].event == e)
              == |CarriersOf(callers, e)| + One(Carries(c) && c.event == e)
  {
    var moved := callers[i := c];
    MemberMoves(Carriers(callers), Carriers(moved), i);
    MemberMoves(Owing(callers), Owing(moved), i);
    forall e
      ensures |CarriersOf(moved, e)| + One(Carries(callers[i]) && callers[i].event == e)
           == |CarriersOf(callers, e)| + One(Carries(c) && c.event == e)
    {
      MemberMoves(CarriersOf(callers, e), CarriersOf(moved, e), i);
    }
  }

  /* ---------- what is delivered, in which order ---------- */

  function Flat(batches: seq<seq<Event>>): seq<Event> {
    if batches == [] then [] else Flat(batches[..|batches| - 1]) + batches[|batches| - 1]
  }

  function Batch(l: Loop): seq<Event> {
    if l.Draining? || l.Handing? then l.batch else []
  }

  /** Everything past the channel or on it, oldest first. */
  function Kept(s: State): seq<Event> {
    Flat(s.handed) + Batch(s.loop) + s.buffer
  }

  /** a is the part of b at the increasing positions at. */
  ghost predicate PartAt(a: seq<Event>, b: seq<Event>, at: seq<nat>) {
    && |at| == |a|
    && (forall k | 0 <= k < |a| :: at[k] < |b| && a[k] == b[at[k]])
    && (forall j, k | 0 <= j < k < |at| :: at[j] < at[k])
  }

  ghost predicate InOrder(a: seq<Event>, b: seq<Event>) {
    exists at: seq<nat> :: PartAt(a, b, at)
  }

  lemma InOrderAppend(a: seq<Event>, b: seq<Event>, e: Event)
    requires InOrder(a, b)
    ensures InOrder(a + [e], b + [e])
  {
    var at: seq<nat> :| PartAt(a, b, at);
    assert PartAt(a + [e], b + [e], at + [|b|]);
  }

  lemma InOrderDrop(x: seq<Event>, y: seq<Event>, b: seq<Event>)
    requires y != [] && InOrder(x + y, b)
    ensures InOrder(x + y[1..], b)
  {
    var at: seq<nat> :| PartAt(x + y, b, at);
    var n := |x|;
    var less := at[..n] + at[n + 1..];
    forall k | 0 <= k < |x + y[1..]|
      ensures less[k] < |b| && (x + y[1..])[k] == b[less[k]]
    {
      assert (x + y[1..])[k] == (x + y)[if k < n then k else k + 1];
    }
    assert PartAt(x + y[1..], b, less);
  }

  /* ---------- the invariant ---------- */

  /** An event, as often as it was begun, is delivered or on its way there, lost, or still
      carried by its call. */
  ghost predicate ConservedOf(s: State, e: Event) {
    multiset(s.begun)[e] == multiset(Kept(s))[e] + s.lost[e] + |CarriersOf(s.callers, e)|
  }

  ghost predicate Conserved(s: State) {
    && |s.begun| == |Kept(s)| + |s.lost| + |Carriers(s.callers)|
    && (forall e :: ConservedOf(s, e))
  }

  /** The drop counter lags behind the losses by the counts still to be made. */
  ghost predicate Counted(s: State) {
    |s.lost| + s.phantoms == s.dropped + |Owing(s.callers)|
  }

  ghost predicate WellBatched(s: State) {
    && (forall k | 0 <= k < |s.handed| :: 1 <= |s.handed[k]| <= MaxBatchSize)
    && (s.loop.Draining? || s.loop.Handing? ==> 1 <= |s.loop.batch| <= MaxBatchSize)
    && (s.loop.Finished? ==> s.closed)
  }

  ghost predicate Ordered(s: State) {
    && InOrder(Kept(s), s.sent)
    && |s.buffer| <= |s.sent| && s.buffer == s.sent[|s.sent| - |s.buffer|..]
  }

  /** Unless a call raced with Close: none panicked, none is under way after it, the counter
      counts real events only, and a finished loop leaves nothing behind. */
  ghost predicate CleanClose(s: State) {
    !s.late ==>
      && s.phantoms == 0
      && (forall i | 0 <= i < |s.callers| :: !s.callers[i].Panicked?)
      && (s.closed ==> Quiet(s))
      && (s.loop.Finished? ==> s.buffer == [])
  }

  /** The parts of the invariant about events. */
  ghost predicate Events(s: State) {
    Conserved(s) && Counted(s) && Ordered(s)
  }

  /** The parts about the channel, the loop and Close. */
  ghost predicate Bounds(s: State) {
    0 < s.cap && |s.buffer| <= s.cap && WellBatched(s) && CleanClose(s)
  }

  ghost predicate Inv(s: State) {
    Events(s) && Bounds(s)
  }

  lemma NewEmitterInv(cap: nat, callers: nat)
    requires cap > 0
    ensures Inv(NewEmitter(cap, callers))
  {
    var s := NewEmitter(cap, callers);
    assert Carriers(s.callers) == {} && Owing(s.callers) == {} && forall e :: CarriersOf(s.callers, e) == {};
    assert PartAt([], [], []);
    assert Kept(s) == [];
  }

  /* ---------- what each kind of step keeps ---------- */

  lemma PassedOn(a: seq<Event>, b: seq<Event>, c: seq<Event>)
    requires c != []
    ensures a + (b + [c[0]]) + c[1..] == a + b + c
    ensures multiset(a + b + c) == multiset(a + b + c[1..]) + multiset{c[0]}
  {
    assert c == [c[0]] + c[1..];
  }

  lemma PutLast(a: seq<Event>, b: seq<Event>, c: seq<Event>, e: Event)
    ensures a + b + (c + [e]) == (a + b + c) + [e]
  {
  }

  /** A step that only passes kept events on leaves their accounts alone. */
  lemma SameKept(s: State, s': State)
    requires Events(s) && Kept(s') == Kept(s)
    requires s'.begun == s.begun && s'.sent == s.sent && s'.lost == s.lost
    requires s'.phantoms == s.phantoms && s'.dropped == s.dropped && s'.callers == s.callers
    requires s'.buffer == s.buffer || (s.buffer != [] && s'.buffer == s.buffer[1..])
    ensures Events(s')
  {
    assert Ordered(s');
    forall e
      ensures ConservedOf(s', e)
    {
      assert ConservedOf(s, e);
    }
  }

  lemma MovedKeeps(s: State, i: nat, c: Caller)
    requires Events(s) && i < |s.callers|
    requires Carries(s.callers[i]) && Carries(c) && c.event == s.callers[i].event && !Owes(s.callers[i]) && !Owes(c)
    ensures Events(Moved(s, i, c))
  {
    var s' := Moved(s, i, c);
    OneCallerMoves(s.callers, i, c);
    assert Kept(s') == Kept(s);
    forall x
      ensures ConservedOf(s', x)
    {
      assert ConservedOf(s, x);
    }
  }

  lemma SentKeeps(s: State, i: nat)
    requires Events(s) && i < |s.callers| && Carries(s.callers[i]) && !Owes(s.callers[i])
    ensures Events(Sent(s, i, s.callers[i].event))
  {
    var e := s.callers[i].event;
    var s' := Sent(s, i, e);
    OneCallerMoves(s.callers, i, Idle);
    InOrderAppend(Kept(s), s.sent, e);
    PutLast(Flat(s.handed), Batch(s.loop), s.buffer, e);
    forall x
      ensures ConservedOf(s', x)
    {
      assert ConservedOf(s, x);
    }
  }

  lemma EvictedKeeps(s: State, i: nat, e: Event)
    requires Events(s) && i < |s.callers| && s.callers[i] == Evicting(e) && s.buffer != []
    ensures Events(Evicted(s, i, e))
  {
    InOrderDrop(Flat(s.handed) + Batch(s.loop), s.buffer, s.sent);
    EvictedConserves(s, i, e);
  }

  lemma EvictedConserves(s: State, i: nat, e: Event)
    requires Events(s) && i < |s.callers| && s.callers[i] == Evicting(e) && s.buffer != []
    ensures Conserved(Evicted(s, i, e)) && Counted(Evicted(s, i, e))
  {
    var s' := Evicted(s, i, e);
    OneCallerMoves(s.callers, i, CountingEvicted(e));
    PassedOn(Flat(s.handed), Batch(s.loop), s.buffer);
    forall x
      ensures ConservedOf(s', x)
    {
      assert ConservedOf(s, x);
    }
  }

  lemma EvictedNothingKeeps(s: State, i: nat, e: Event)
    requires Events(s) && i < |s.callers| && s.callers[i] == Evicting(e)
    ensures Events(EvictedNothing(s, i, e))
  {
    var s' := EvictedNothing(s, i, e);
    OneCallerMoves(s.callers, i, CountingEvicted(e));
    assert Kept(s') == Kept(s);
    forall x
      ensures ConservedOf(s', x)
    {
      assert ConservedOf(s, x);
    }
  }

  lemma RefusedKeeps(s: State, i: nat, e: Event)
    requires Events(s) && i < |s.callers| && s.callers[i] == Retrying(e)
    ensures Events(Refused(s, i, e))
  {
    var s' := Refused(s, i, e);
    OneCallerMoves(s.callers, i, CountingRefused);
    assert Kept(s') == Kept(s);
    forall x
      ensures ConservedOf(s', x)
    {
      assert ConservedOf(s, x);
    }
  }

  lemma DropRecordedKeeps(s: State, i: nat, c: Caller)
    requires Events(s) && i < |s.callers|
    requires (s.callers[i].CountingEvicted? && c == Retrying(s.callers[i].event)) || (s.callers[i].CountingRefused? && c == Idle)
    ensures Events(DropRecorded(s, i, c))
  {
    var s' := DropRecorded(s, i, c);
    OneCallerMoves(s.callers, i, c);
    assert Kept(s') == Kept(s);
    forall x
      ensures ConservedOf(s', x)
    {
      assert ConservedOf(s, x);
    }
  }

  lemma AdvanceKeepsEvents(s: State, i: nat)
    requires Events(s) && Enabled(s, Advance(i))
    ensures Events(AdvanceCaller(s, i))
  {
    match s.callers[i]
    case Sending(e) =>
      if s.closed {
        MovedKeeps(s, i, Panicked(e));
      } else if |s.buffer| < s.cap {
        SentKeeps(s, i);
      } else {
        MovedKeeps(s, i, Evicting(e));
      }
    case Evicting(e) =>
      if s.buffer != [] {
        EvictedKeeps(s, i, e);
      } else if s.closed {
        EvictedNothingKeeps(s, i, e);
      } else {
        MovedKeeps(s, i, Retrying(e));
      }
    case CountingEvicted(e) => DropRecordedKeeps(s, i, Retrying(e));
    case Retrying(e) =>
      if s.closed {
        MovedKeeps(s, i, Panicked(e));
      } else if |s.buffer| < s.cap {
        SentKeeps(s, i);
      } else {
        RefusedKeeps(s, i, e);
      }
    case CountingRefused => DropRecordedKeeps(s, i, Idle);
  }

  /** The loop only passes events on. */
  lemma ConsumeMovesNothing(s: State)
    requires Enabled(s, Consume)
    ensures Kept(ConsumeStep(s)) == Kept(s)
  {
    match s.loop
    case Handing(batch) => DeliveringMovesNothing(s, batch);
    case Waiting =>
      if s.buffer != [] {
        ReceivingMovesNothing(s, []);
      }
    case Draining(batch) =>
      if s.buffer != [] {
        ReceivingMovesNothing(s, batch);
      }
  }

  lemma DeliveringMovesNothing(s: State, batch: seq<Event>)
    requires s.loop == Handing(batch)
    ensures Kept(Delivered(s, batch)) == Kept(s)
  {
    assert Delivered(s, batch).handed[..|s.handed|] == s.handed;
  }

  lemma ReceivingMovesNothing(s: State, batch: seq<Event>)
    requires s.buffer != [] && Batch(s.loop) == batch
    ensures Kept(Received(s, batch)) == Kept(s)
  {
    PassedOn(Flat(s.handed), batch, s.buffer);
  }

  lemma ConsumeTouchesLittle(s: State)
    requires Enabled(s, Consume)
    ensures var s' := ConsumeStep(s);
            && s'.begun == s.begun && s'.sent == s.sent && s'.lost == s.lost
            && s'.phantoms == s.phantoms && s'.dropped == s.dropped && s'.callers == s.callers
            && (s'.buffer == s.buffer || (s.buffer != [] && s'.buffer == s.buffer[1..]))
  {
  }

  lemma ConsumeKeepsEvents(s: State)
    requires Events(s) && Enabled(s, Consume)
    ensures Events(ConsumeStep(s))
  {
    ConsumeMovesNothing(s);
    ConsumeTouchesLittle(s);
    SameKept(s, ConsumeStep(s));
  }

  lemma BeginKeepsEvents(s: State, i: nat, e: Event)
    requires Events(s) && Enabled(s, Begin(i, e)) && s.on
    ensures Events(Next(s, Begin(i, e)))
  {
    var s' := Next(s, Begin(i, e));
    OneCallerMoves(s.callers, i, Sending(e));
    assert Kept(s') == Kept(s);
    forall x
      ensures ConservedOf(s', x)
    {
      assert ConservedOf(s, x);
    }
  }

  lemma AdvanceTouchesLittle(s: State, i: nat)
    requires Enabled(s, Advance(i)) && |s.buffer| <= s.cap
    ensures var s' := AdvanceCaller(s, i);
            && s'.cap == s.cap && |s'.buffer| <= s.cap && s'.handed == s.handed && s'.loop == s.loop
            && s'.closed == s.closed && s'.late == s.late && s'.callers == s.callers[i := s'.callers[i]]
            && (!s.closed ==> s'.phantoms == s.phantoms && !s'.callers[i].Panicked?)
  {
  }

  lemma AdvanceKeepsBounds(s: State, i: nat)
    requires Bounds(s) && Enabled(s, Advance(i))
    ensures Bounds(AdvanceCaller(s, i))
  {
    AdvanceTouchesLittle(s, i);
    assert !s.late ==> !s.closed;
  }

  lemma ConsumeKeepsBounds(s: State)
    requires Bounds(s) && Enabled(s, Consume)
    ensures Bounds(ConsumeStep(s))
  {
  }

  lemma BeginKeepsBounds(s: State, i: nat, e: Event)
    requires Bounds(s) && Enabled(s, Begin(i, e)) && s.on
    ensures Bounds(Next(s, Begin(i, e)))
  {
  }

  lemma CloseKeepsBounds(s: State)
    requires Bounds(s) && !s.closed
    ensures Bounds(Next(s, Close))
  {
  }

  /** Every step of every interleaving keeps the invariant. */
  lemma NextKeepsInv(s: State, l: Label)
    requires Inv(s) && Enabled(s, l)
    ensures Inv(Next(s, l))
  {
    match l
    case Advance(i) =>
      AdvanceKeepsEvents(s, i);
      AdvanceKeepsBounds(s, i);
    case Consume =>
      ConsumeKeepsEvents(s);
      ConsumeKeepsBounds(s);
    case Begin(i, e) =>
      if s.on {
        BeginKeepsEvents(s, i, e);
        BeginKeepsBounds(s, i, e);
      }
    case Close =>
      SameKept(s, Next(s, l));
      CloseKeepsBounds(s);
    case SetMode(_) =>
      SameKept(s, Next(s, l));
  }
}
