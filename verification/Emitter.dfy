/** The emitter's own operations on its channel and counter, as one goroutine at a time runs them. */
module Emitters {
  import opened Options
  import opened EmitterProtocol
  import opened EmitterRuns

  datatype Received = Nothing | Got(event: Event)

  class Emitter {
    const cap: nat
    var channel: seq<Event>
    var closed: bool
    var on: bool
    var dropped: nat
    ghost var handed: seq<seq<Event>>

    ghost predicate Valid()
      reads this
    {
      0 < cap && |channel| <= cap
    }

    constructor (bufferSize: int)
      ensures Valid() && cap == if bufferSize <= 0 then 1024 else bufferSize
      ensures channel == [] && !closed && on && dropped == 0 && handed == []
    {
      cap := if bufferSize <= 0 then 1024 else bufferSize;
      channel, closed, on, dropped, handed := [], false, true, 0, [];
    }

    method SetMode(mode: bool)
      modifies this`on
      ensures on == mode
    {
      on := mode;
    }

    /** Puts the event on the channel if there is room. */
    method TrySend(event: Event) returns (ok: bool)
      requires Valid() && !closed
      modifies this`channel
      ensures Valid() && ok == (|old(channel)| < cap)
      ensures channel == if ok then old(channel) + [event] else old(channel)
    {
      ok := |channel| < cap;
      if ok {
        channel := channel + [event];
      }
    }

    /** Takes the oldest event off the channel if there is one. */
    method TryReceive() returns (r: Received)
      requires Valid()
      modifies this`channel
      ensures Valid()
      ensures if old(channel) == [] then r == Nothing && channel == []
              else r == Got(old(channel)[0]) && channel == old(channel)[1..]
    {
      if channel == [] {
        return Nothing;
      }
      r := Got(channel[0]);
      channel := channel[1..];
    }

    method RecordDrop()
      modifies this`dropped
      ensures dropped == old(dropped) + 1
    {
      dropped := dropped + 1;
    }

    /** Never blocks: with the channel full, the oldest event makes room for the new one. */
    method Emit(event: Event)
      requires Valid() && !closed
      modifies this`channel, this`dropped
      ensures Valid()
      ensures channel == if on then LastOf(old(channel) + [event], cap) else old(channel)
      ensures dropped == old(dropped) + One(on && |old(channel)| == cap)
    {
      if !on {
        return;
      }
      var sent := TrySend(event);
      if !sent {
        var oldest := TryReceive();
        if oldest.Got? {
          RecordDrop();
        }
        sent := TrySend(event);
        if !sent {
          RecordDrop();
        }
      }
    }

    /** Emitting a series leaves the last cap events of it, and counts the rest as dropped. */
    method EmitSeries(events: seq<Event>)
      requires Valid() && !closed && on
      modifies this`channel, this`dropped
      ensures Valid() && channel == LastOf(old(channel) + events, cap)
      ensures dropped == old(dropped) + Max(0, |old(channel)| + |events| - cap)
    {
      for k := 0 to |events|
        invariant Valid()
        invariant channel == LastOf(old(channel) + events[..k], cap)
        invariant dropped == old(dropped) + Max(0, |old(channel)| + k - cap)
      {
        assert old(channel) + events[..k + 1] == old(channel) + events[..k] + [events[k]];
        Emit(events[k]);
      }
      assert events[..|events|] == events;
    }

    /** The background loop on a closed channel: batches of at most 64, until it is empty. */
    method Loop()
      requires Valid() && closed
      modifies this`channel, this`handed
      ensures channel == [] && |old(handed)| <= |handed| && handed[..|old(handed)|] == old(handed)
      ensures Flat(handed) == Flat(old(handed)) + old(channel)
      ensures forall k | |old(handed)| <= k < |handed| :: 1 <= |handed[k]| <= 64
      ensures forall k | |old(handed)| <= k < |handed| - 1 :: |handed[k]| == 64
    {
      while channel != []
        invariant Valid() && |old(handed)| <= |handed| && handed[..|old(handed)|] == old(handed)
        invariant Flat(handed) + channel == Flat(old(handed)) + old(channel)
        invariant forall k | |old(handed)| <= k < |handed| :: 1 <= |handed[k]| <= MaxBatchSize
        invariant channel != [] ==> forall k | |old(handed)| <= k < |handed| :: |handed[k]| == MaxBatchSize
        invariant forall k | |old(handed)| <= k < |handed| - 1 :: |handed[k]| == MaxBatchSize
        decreases |channel|
      {
        ghost var before := channel;
        ghost var given := handed;
        var batch := NextBatch();
        handed := handed + [batch];
        assert handed[..|given|] == given;
        assert Flat(given) + before == Flat(handed) + channel;
      }
    }

    /** Drains up to 64 events without blocking; there is at least one. */
    method NextBatch() returns (batch: seq<Event>)
      requires Valid() && channel != []
      modifies this`channel
      ensures Valid() && batch + channel == old(channel)
      ensures |batch| == Min(64, |old(channel)|)
    {
      var first := TryReceive();
      batch := [first.event];
      while |batch| < MaxBatchSize
        invariant Valid() && batch + channel == old(channel)
        invariant 1 <= |batch| <= MaxBatchSize
        decreases |channel|
      {
        var more := TryReceive();
        if more.Nothing? {
          break;
        }
        batch := batch + [more.event];
      }
    }
  }

}
