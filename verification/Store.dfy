/** The store as one thread sees it (`Store` in `ptraf/src/store.rs`): a bounded deque of segments,
    verified against the timeline of `StoreSpec`. */
module Store {
  import opened Types
  import opened Clock
  import opened Traffic
  import opened Segments
  import opened Timeline
  import opened StoreSpec

  datatype TimeSegment = TimeSegment(ts: nat, segment: Segment)

  class Store {
    const window: nat
    const capacity: nat
    var segments: seq<TimeSegment>

    /** Every window ever created, with what its segment held when it was last seen. */
    ghost var history: History
    /** The messages behind `history`. */
    ghost var logs: Logs
    /** What a reader sees: the windows still in the deque, and their data. */
    ghost var retained: History

    ghost function Repr(): set<Segment>
      reads this
    {
      set k | 0 <= k < |segments| :: segments[k].segment
    }

    ghost predicate Mirrors()
      reads this, Repr()
    {
      && |segments| == |retained|
      && (forall k | 0 <= k < |segments| ::
            segments[k].ts == retained[k].ts && segments[k].segment.Data() == retained[k].body)
      && (forall j, k | 0 <= j < k < |segments| :: segments[j].segment != segments[k].segment)
    }

    ghost predicate Valid()
      reads this, Repr()
    {
      Coherent(window, capacity, history, logs, retained) && Mirrors()
    }

    constructor (window: nat, capacity: nat)
      requires 0 < window < U64
      ensures Valid() && segments == [] && logs == [] && this.window == window && this.capacity == capacity
    {
      this.window := window;
      this.capacity := capacity;
      segments := [];
      history := [];
      logs := [];
      retained := [];
    }

    /** `Store::write_segment` without other threads: afterwards the newest window is the requested one
        or a later one, and the timeline is the filled one; eviction removes from the front only. */
    method WriteSegment(ts: nat)
      requires Valid()
      modifies this
      ensures Valid() && 0 < |segments| <= if capacity == 0 then 1 else capacity
      ensures history == Fill(old(history), Trunc(ts, window), window, EmptyData())
      ensures logs == Fill(old(logs), Trunc(ts, window), window, [])
      ensures forall s | s in Repr() :: s in old(Repr()) || fresh(s)
    {
      hide AgreeAll;
      var target := Trunc(ts, window);
      TruncInRange(ts, window);
      if segments != [] && segments[|segments| - 1].ts == target {
        CoherentNewest(window, capacity, history, logs, retained);
        DequeIsRecent(history, window, capacity);
        return;
      }
      Slow(target);
      DequeIsRecent(history, window, capacity);
    }

    /** The loop that creates the missing segments. */
    method Slow(target: nat)
      requires Valid() && target % window == 0
      modifies this
      ensures Valid() && segments != []
      ensures history == Fill(old(history), target, window, EmptyData())
      ensures logs == Fill(old(logs), target, window, [])
      ensures forall s | s in Repr() :: s in old(Repr()) || fresh(s)
    {
      hide Coherent;
      hide Mirrors;
      assert 0 < window by { CoherentWindow(window, capacity, history, logs, retained); }
      while segments == [] || segments[|segments| - 1].ts < target
        invariant Valid()
        invariant Fill(history, target, window, EmptyData()) == Fill(old(history), target, window, EmptyData())
        invariant Fill(logs, target, window, []) == Fill(old(logs), target, window, [])
        invariant forall s | s in Repr() :: s in old(Repr()) || fresh(s)
        decreases if segments == [] then target + 1 else target - segments[|segments| - 1].ts
      {
        Newest();
        var next := if segments == [] then target else segments[|segments| - 1].ts + window;
        Push(next);
      }
      Newest();
    }

    /** Ties the newest segment to the newest window of both timelines. */
    lemma Newest()
      requires Valid()
      ensures segments == [] <==> history == []
      ensures segments == [] <==> logs == []
      ensures segments != [] ==>
        && Timeline.Newest(history).ts == Timeline.Newest(logs).ts == segments[|segments| - 1].ts
        && (segments[|segments| - 1].ts + window) % window == 0
    {
      hide Agrees;
      if segments != [] {
        CoherentNewest(window, capacity, history, logs, retained);
        ModStep(segments[|segments| - 1].ts, window);
      }
    }

    /** One turn of the slow-path loop. */
    method Push(next: nat)
      requires Valid() && next % window == 0
      requires segments != [] ==> next == segments[|segments| - 1].ts + window
      modifies this
      ensures Valid() && segments != [] && segments[|segments| - 1].ts == next
      ensures history == old(history) + [Timed(next, EmptyData())]
      ensures logs == old(logs) + [Timed(next, [])]
      ensures forall s | s in Repr() :: s in old(Repr()) || fresh(s)
    {
      hide Coherent;
      var segment := new Segment();
      CoherentPush(window, capacity, history, logs, retained, next);
      if |segments| >= capacity && segments != [] {
        segments := segments[1..];
        retained := retained[1..];
      }
      segments := segments + [TimeSegment(next, segment)];
      retained := retained + [Timed(next, EmptyData())];
      history := history + [Timed(next, EmptyData())];
      logs := logs + [Timed(next, [])];
    }

    /** `Store::batch_update`. */
    method BatchUpdate(ts: nat, messages: seq<Msg>)
      requires Valid()
      modifies this, Repr()
      ensures Valid()
      ensures logs == SeqStep(window, old(logs), Op(ts, messages))
      ensures 0 < |segments| <= if capacity == 0 then 1 else capacity
      ensures Extends(old(history), history)
      ensures forall s | s in Repr() :: s in old(Repr()) || fresh(s)
    {
      hide Agrees;
      hide Mirrors;
      TruncInRange(ts, window);
      FillIsFilled(history, Trunc(ts, window), window, EmptyData());
      WriteSegment(ts);
      ghost var filled := history;
      UpdateNewest(messages);
      ExtendsTransitive(old(history), filled, history);
      DequeIsRecent(history, window, capacity);
    }

    method UpdateNewest(messages: seq<Msg>)
      requires Valid() && segments != []
      modifies Repr(), this`history, this`logs, this`retained
      ensures Valid() && old(logs) != []
      ensures logs == SetNewest(old(logs), Timeline.Newest(old(logs)).body + Accepted(messages))
      ensures Extends(old(history), history)
    {
      hide Coherent;
      hide Agrees;
      CoherentNewest(window, capacity, history, logs, retained);
      var segment := segments[|segments| - 1].segment;
      ghost var log := Timeline.Newest(logs).body;
      segment.BatchUpdate(messages, log);
      CoherentUpdate(window, capacity, history, logs, retained, segment.Data(), log + Accepted(messages));
      history := SetNewest(history, segment.Data());
      logs := SetNewest(logs, log + Accepted(messages));
      retained := SetNewest(retained, segment.Data());
    }

    /** `Store::oldest_timestamp`, which in spite of its name creates the missing windows and returns
        the newest timestamp. */
    method OldestTimestamp(ts: nat) returns (r: nat)
      requires Valid()
      modifies this
      ensures Valid() && logs != [] && r == Timeline.Newest(logs).ts
      ensures logs == SeqStep(window, old(logs), Op(ts, []))
      ensures Extends(old(history), history)
    {
      hide Mirrors;
      hide Agrees;
      TruncInRange(ts, window);
      FillIsFilled(history, Trunc(ts, window), window, EmptyData());
      WriteSegment(ts);
      Newest();
      RecordNothing(logs);
      r := segments[|segments| - 1].ts;
    }
  }

  lemma CoherentWindow(window: nat, capacity: nat, history: History, logs: Logs, retained: History)
    requires Coherent(window, capacity, history, logs, retained)
    ensures 0 < window < U64
  {}
}
