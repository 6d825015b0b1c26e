/** What the store means: an unbounded timeline of message logs, one per window, of which the deque
    keeps the last windows. Sequential runs have a closed description in terms of the requests alone. */
module StoreSpec {
  import opened Types
  import opened Clock
  import opened Traffic
  import opened Segments
  import opened Timeline

  type Logs = seq<Timed<seq<Msg>>>
  type History = seq<Timed<SegmentData>>

  /** One `batch_update`; `oldest_timestamp` is the case without messages. */
  datatype Op = Op(ts: nat, msgs: seq<Msg>)

  /** The window that a request reaches holds its accepted messages from then on. */
  function SeqStep(window: nat, logs: Logs, op: Op): Logs
    requires 0 < window < U64
  {
    var filled := Fill(logs, Trunc(op.ts, window), window, []);
    SetNewest(filled, Newest(filled).body + Accepted(op.msgs))
  }

  function SeqRun(window: nat, ops: seq<Op>): Logs
    requires 0 < window < U64
  {
    if ops == [] then [] else SeqStep(window, SeqRun(window, ops[..|ops| - 1]), ops[|ops| - 1])
  }

  function Max(a: nat, b: nat): nat {
    if a < b then b else a
  }

  lemma SeqStepShape(window: nat, logs: Logs, op: Op)
    requires 0 < window < U64 && Regular(logs, window)
    ensures var r := SeqStep(window, logs, op);
            && r != [] && Regular(r, window) && Extends(logs, r)
            && Newest(r).ts == (if logs == [] then Trunc(op.ts, window) else Max(Newest(logs).ts, Trunc(op.ts, window)))
            && r[0].ts == (if logs == [] then Trunc(op.ts, window) else logs[0].ts)
  {
    TruncInRange(op.ts, window);
    FillIsFilled(logs, Trunc(op.ts, window), window, []);
    var filled := Fill(logs, Trunc(op.ts, window), window, []);
    SetNewestShape(filled, Newest(filled).body + Accepted(op.msgs), window, 1);
  }

  // ---- Sequential runs, described by their requests ----

  /** The latest window requested so far. */
  function RunningMax(window: nat, ops: seq<Op>): nat
    requires 0 < window < U64
  {
    if ops == [] then 0
    else Max(RunningMax(window, ops[..|ops| - 1]), Trunc(ops[|ops| - 1].ts, window))
  }

  /** The accepted messages of the batches that were made while `w` was the latest window requested. */
  function Attributed(window: nat, ops: seq<Op>, w: nat): seq<Msg>
    requires 0 < window < U64
  {
    if ops == [] then []
    else Attributed(window, ops[..|ops| - 1], w)
         + if RunningMax(window, ops) == w then Accepted(ops[|ops| - 1].msgs) else []
  }

  lemma {:induction false} NothingBeyondMax(window: nat, ops: seq<Op>, w: nat)
    requires 0 < window < U64 && RunningMax(window, ops) < w
    ensures Attributed(window, ops, w) == []
  {
    if ops != [] {
      NothingBeyondMax(window, ops[..|ops| - 1], w);
    }
  }

  lemma {:induction false} SequentialShape(window: nat, ops: seq<Op>)
    requires 0 < window < U64
    ensures var r := SeqRun(window, ops);
            && Regular(r, window)
            && (ops == [] <==> r == [])
            && (ops != [] ==> Newest(r).ts == RunningMax(window, ops) && r[0].ts == Trunc(ops[0].ts, window))
  {
    if ops != [] {
      SequentialShape(window, ops[..|ops| - 1]);
      SeqStepShape(window, SeqRun(window, ops[..|ops| - 1]), ops[|ops| - 1]);
    }
  }

  /** Attribution: over every sequential run the windows go without a gap from the first window
      requested to the latest one, and each holds exactly the messages attributed to it. A batch with
      an old timestamp lands in the window of the running maximum. */
  lemma {:induction false} SequentialAttribution(window: nat, ops: seq<Op>)
    requires 0 < window < U64
    ensures forall k | 0 <= k < |SeqRun(window, ops)| ::
              SeqRun(window, ops)[k].body == Attributed(window, ops, SeqRun(window, ops)[k].ts)
  {
    if ops != [] {
      var init, op := ops[..|ops| - 1], ops[|ops| - 1];
      var logs, r := SeqRun(window, init), SeqRun(window, ops);
      var filled := Fill(logs, Trunc(op.ts, window), window, []);
      SequentialShape(window, init);
      SequentialShape(window, ops);
      SequentialAttribution(window, init);
      TruncInRange(op.ts, window);
      FillIsFilled(logs, Trunc(op.ts, window), window, []);
      forall k | 0 <= k < |r| ensures r[k].body == Attributed(window, ops, r[k].ts) {
        if k < |r| - 1 { RegularOrder(r, window, k, |r| - 1); }
        if k < |logs| {
          assert filled[k] == logs[k];
        } else {
          if logs != [] { RegularOrder(r, window, |logs| - 1, k); }
          NothingOlder(window, init, r[k].ts);
        }
      }
    }
  }

  /** A window that did not exist yet holds nothing. */
  lemma NothingOlder(window: nat, ops: seq<Op>, w: nat)
    requires 0 < window < U64 && (ops != [] ==> RunningMax(window, ops) < w)
    ensures Attributed(window, ops, w) == []
  {
    if ops != [] {
      NothingBeyondMax(window, ops, w);
    }
  }

  // ---- Conservation ----

  function Flatten(logs: Logs): seq<Msg> {
    if logs == [] then [] else Flatten(logs[..|logs| - 1]) + logs[|logs| - 1].body
  }

  lemma {:induction false} FlattenConcat(a: Logs, b: Logs)
    ensures Flatten(a + b) == Flatten(a) + Flatten(b)
  {
    if b == [] {
      assert a + b == a;
    } else {
      assert (a + b)[..|a + b| - 1] == a + b[..|b| - 1];
      FlattenConcat(a, b[..|b| - 1]);
    }
  }

  /** Recording messages in the newest window appends them to everything. */
  lemma FlattenRecord(logs: Logs, msgs: seq<Msg>)
    requires logs != []
    ensures Flatten(SetNewest(logs, Newest(logs).body + msgs)) == Flatten(logs) + msgs
  {
    var r := SetNewest(logs, Newest(logs).body + msgs);
    assert r[..|r| - 1] == logs[..|logs| - 1];
  }

  lemma RecordNothing(logs: Logs)
    requires logs != []
    ensures SetNewest(logs, Newest(logs).body + []) == logs
  {
    assert Newest(logs).body + [] == Newest(logs).body;
  }

  lemma {:induction false} FlattenEmpty(logs: Logs)
    requires forall k | 0 <= k < |logs| :: logs[k].body == []
    ensures Flatten(logs) == []
  {
    if logs != [] {
      FlattenEmpty(logs[..|logs| - 1]);
    }
  }

  lemma FlattenBlank(logs: Logs, r: Logs)
    requires logs <= r && forall k | |logs| <= k < |r| :: r[k].body == []
    ensures Flatten(r) == Flatten(logs)
  {
    var tail := r[|logs|..];
    assert r == logs + tail;
    FlattenConcat(logs, tail);
    FlattenEmpty(tail);
  }

  lemma FlattenFill(logs: Logs, ts: nat, window: nat)
    requires Regular(logs, window) && ts % window == 0
    ensures Flatten(Fill(logs, ts, window, [])) == Flatten(logs)
  {
    FillIsFilled(logs, ts, window, []);
    FlattenBlank(logs, Fill(logs, ts, window, []));
  }

  function AllAccepted(ops: seq<Op>): seq<Msg> {
    if ops == [] then [] else AllAccepted(ops[..|ops| - 1]) + Accepted(ops[|ops| - 1].msgs)
  }

  /** Over every sequential run, evicted or not, the timeline holds what was accepted, in order. */
  lemma {:induction false} NothingLost(window: nat, ops: seq<Op>)
    requires 0 < window < U64
    ensures Flatten(SeqRun(window, ops)) == AllAccepted(ops)
  {
    if ops != [] {
      var logs, op := SeqRun(window, ops[..|ops| - 1]), ops[|ops| - 1];
      NothingLost(window, ops[..|ops| - 1]);
      SequentialShape(window, ops[..|ops| - 1]);
      TruncInRange(op.ts, window);
      FlattenFill(logs, Trunc(op.ts, window), window);
      FlattenRecord(Fill(logs, Trunc(op.ts, window), window, []), Accepted(op.msgs));
    }
  }

  // ---- The sliding window ----

  /** The segments agree, window by window, with the message logs. */
  ghost predicate AgreeAll(history: History, logs: Logs) {
    && |history| == |logs|
    && forall k | 0 <= k < |logs| :: history[k].ts == logs[k].ts && Agrees(history[k].body, logs[k].body)
  }

  /** The part of the store invariant that does not look at the heap: a regular timeline of segments
      that agree with their logs, of which the deque retains the tail. */
  ghost predicate Coherent(window: nat, capacity: nat, history: History, logs: Logs, retained: History) {
    && 0 < window < U64
    && Regular(history, window)
    && AgreeAll(history, logs)
    && retained == LastN(MaxLen(capacity), history)
  }

  lemma CoherentPush(window: nat, capacity: nat, history: History, logs: Logs, retained: History, ts: nat)
    requires Coherent(window, capacity, history, logs, retained) && ts % window == 0
    requires retained != [] ==> ts == Newest(retained).ts + window
    ensures retained == [] <==> history == []
    ensures Coherent(window, capacity, history + [Timed(ts, EmptyData())], logs + [Timed(ts, [])],
                     (if |retained| >= capacity && retained != [] then retained[1..] else retained)
                     + [Timed(ts, EmptyData())])
  {
    PushKeepsLast(capacity, history, Timed(ts, EmptyData()));
    AgreePush(history, logs, ts);
    hide AgreeAll;
    if history != [] {
      PushRegular(history, window, EmptyData());
    }
  }

  lemma AgreePush(history: History, logs: Logs, ts: nat)
    requires AgreeAll(history, logs)
    ensures AgreeAll(history + [Timed(ts, EmptyData())], logs + [Timed(ts, [])])
  {
    EmptyAgrees();
    hide Agrees;
  }

  lemma CoherentUpdate(window: nat, capacity: nat, history: History, logs: Logs, retained: History,
                       data: SegmentData, log: seq<Msg>)
    requires Coherent(window, capacity, history, logs, retained) && retained != [] && Agrees(data, log)
    ensures history != [] && Coherent(window, capacity, SetNewest(history, data), SetNewest(logs, log),
                                      SetNewest(retained, data))
    ensures Extends(history, SetNewest(history, data))
  {
    hide Agrees;
    SetNewestShape(history, data, window, MaxLen(capacity));
  }

  lemma CoherentNewest(window: nat, capacity: nat, history: History, logs: Logs, retained: History)
    requires Coherent(window, capacity, history, logs, retained) && retained != []
    ensures history != [] && |logs| == |history|
    ensures Newest(retained) == Newest(history) && Newest(logs).ts == Newest(history).ts
    ensures Agrees(Newest(retained).body, Newest(logs).body)
    ensures Newest(retained).ts % window == 0
  {
    hide Agrees;
    RegularAligned(history, window, |history| - 1);
  }

  /** One counter of `stat_by_interest`, summed over some segments. */
  function SumStat(segments: History, i: Interest, f: Field): nat {
    if segments == [] then 0
    else SumStat(segments[..|segments| - 1], i, f) + Row(segments[|segments| - 1].body.index, i).Get(f)
  }

  lemma {:induction false} SumStatIsCount(segments: History, logs: Logs, i: Interest, f: Field)
    requires AgreeAll(segments, logs)
    ensures SumStat(segments, i, f) == Count(Flatten(logs), i, f)
  {
    if logs != [] {
      var k := |logs| - 1;
      SumStatIsCount(segments[..k], logs[..k], i, f);
      CountConcat(Flatten(logs[..k]), logs[k].body, i, f);
      FoldFields(logs[k].body, i, f);
    }
  }

  /** Sliding window: for every interest, the retained segments add up to the messages of the retained
      windows; with the messages of the evicted windows that is everything the timeline ever took. */
  lemma SlidingWindow(history: History, logs: Logs, n: nat, i: Interest, f: Field)
    requires AgreeAll(history, logs)
    ensures var evicted := logs[..|logs| - |LastN(n, logs)|];
            && SumStat(LastN(n, history), i, f) == Count(Flatten(LastN(n, logs)), i, f)
            && Count(Flatten(evicted), i, f) + SumStat(LastN(n, history), i, f) == Count(Flatten(logs), i, f)
  {
    var kept := LastN(n, logs);
    var evicted := logs[..|logs| - |kept|];
    SumStatIsCount(LastN(n, history), kept, i, f);
    assert logs == evicted + kept;
    FlattenConcat(evicted, kept);
    CountConcat(Flatten(evicted), Flatten(kept), i, f);
  }

  /** A window is retained exactly when it is less than `n` windows behind the newest one. */
  lemma RetainedIffRecent<T>(h: seq<Timed<T>>, window: nat, n: nat, k: nat)
    requires Regular(h, window) && k < |h|
    ensures h[k] in LastN(n, h) <==> Newest(h).ts < h[k].ts + n * window
  {
    var kept, behind := LastN(n, h), |h| - 1 - k;
    var first := |h| - |kept|;
    WindowsApart(h, window, k, |h| - 1);
    if behind < n {
      assert kept[k - first] == h[k];
      MulOrder(behind, n, window);
    } else {
      forall j | 0 <= j < |kept| ensures kept[j] != h[k] {
        RegularOrder(h, window, k, first + j);
      }
      if n < behind { MulOrder(n, behind, window); }
    }
  }

  /** What a deque of some capacity retains: never more windows than that, all of them while they fit, and a window
      exactly while it is less than `capacity` windows behind the newest. A capacity of zero retains the newest one. */
  lemma DequeIsRecent<T>(h: seq<Timed<T>>, window: nat, capacity: nat)
    requires Regular(h, window)
    ensures var kept := LastN(MaxLen(capacity), h);
            && |kept| == (if |h| <= capacity then |h| else if capacity == 0 then 1 else capacity)
            && (h != [] ==> kept != [] && Newest(kept) == Newest(h))
            && (0 < capacity ==>
                  forall k | 0 <= k < |h| :: h[k] in kept <==> Newest(h).ts < h[k].ts + capacity * window)
  {
    if 0 < capacity {
      forall k | 0 <= k < |h| ensures h[k] in LastN(capacity, h) <==> Newest(h).ts < h[k].ts + capacity * window {
        RetainedIffRecent(h, window, capacity, k);
      }
    }
    hide Regular;
  }

  lemma WindowsApart<T>(h: seq<Timed<T>>, window: nat, i: nat, j: nat)
    requires Regular(h, window) && i <= j < |h|
    ensures h[j].ts == h[i].ts + (j - i) * window
  {
    RegularAligned(h, window, i);
    RegularAligned(h, window, j);
    assert j * window == i * window + (j - i) * window;
  }

  /** Fewer than 2^33 accepted messages keep every merged statistic, of any of the segments, in range. */
  lemma MergedStatsFit(segments: History, logs: Logs, i: Interest)
    requires AgreeAll(segments, logs) && |Flatten(logs)| < MAX_MESSAGES
    ensures SumStat(segments, i, RxBytes) + SumStat(segments, i, TxBytes) < U64
    ensures SumStat(segments, i, RxPackets) < U64 && SumStat(segments, i, TxPackets) < U64
  {
    CountersDoNotOverflow(Flatten(logs), i);
    SumStatIsCount(segments, logs, i, RxBytes);
    SumStatIsCount(segments, logs, i, TxBytes);
    SumStatIsCount(segments, logs, i, RxPackets);
    SumStatIsCount(segments, logs, i, TxPackets);
  }
}
