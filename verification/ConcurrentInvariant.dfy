/** What every step of the concurrent store keeps. */
module ConcurrentInvariant {
  import opened Types
  import opened Clock
  import opened Traffic
  import opened Segments
  import opened Timeline
  import opened StoreSpec
  import opened ConcurrentModel

  /** The lock state is what the threads hold; a writer excludes all readers. */
  ghost predicate Locks(s: State) {
    && (forall t | t in s.readers :: t < |s.threads|)
    && (forall t | 0 <= t < |s.threads| ::
          && (t in s.readers <==> s.threads[t].HoldsRead())
          && (s.writer == Some(t) <==> s.threads[t].Filling?))
    && (s.writer.Some? ==> s.writer.value < |s.threads| && s.readers == {})
  }

  /** The deque is the tail of a regular timeline. */
  ghost predicate Times(c: Config, s: State) {
    && Regular(s.history, c.window)
    && s.segments == LastN(MaxLen(c.capacity), s.history)
    && |s.logs| == |s.history|
    && forall k | 0 <= k < |s.logs| :: s.logs[k].ts == s.history[k].ts
  }

  ghost predicate PhaseOk(c: Config, s: State, th: Thread)
    requires ValidConfig(c)
  {
    && (th.HasRequest() ==> th.ts % c.window == 0 && th.ts <= s.latest)
    && (th.WantReread? || th.Writing? ==> s.history != [] && th.ts <= Newest(s.history).ts)
    && (th.Writing? && th.current.Some? ==>
          th.done < 5 && th.current.value.ret >= 0 && th.current.value.local in Newest(s.history).body.socks)
  }

  /** Whoever may write reached a window that is not older than requested, nor newer than any request. */
  ghost predicate Phases(c: Config, s: State)
    requires ValidConfig(c)
  {
    && (forall t | 0 <= t < |s.threads| :: PhaseOk(c, s, s.threads[t]))
    && (s.history != [] ==> Newest(s.history).ts <= s.latest)
  }

  /** The windows that are not the newest agree with their logs. */
  ghost predicate Settled(history: History, logs: Logs) {
    && |history| == |logs|
    && forall k | 0 <= k < |logs| - 1 :: Agrees(history[k].body, logs[k].body)
  }

  /** The rows of the newest window lack exactly what the writing threads still owe. */
  ghost predicate Pays(threads: seq<Thread>, index: Index, log: seq<Msg>) {
    && (forall i, f :: Row(index, i).Get(f) + Sum(threads, Debt(i, f)) == Count(log, i, f))
    && RowsPositive(index)
  }

  /** The `LocalSocket` rows run ahead of the `All` row by what the threads between the two hold. */
  ghost predicate Covered(threads: seq<Thread>, d: SegmentData) {
    && (forall f :: SumRows(d.index, LocalKeys(d.socks.Keys), f) == Row(d.index, All).Get(f) + Sum(threads, Lag(f)))
    && (forall i | i in d.index && i.LocalSocket? :: i.local in d.socks)
  }

  ghost predicate Ledger(s: State) {
    && Settled(s.history, s.logs)
    && (s.history != [] ==>
          && Pays(s.threads, Newest(s.history).body.index, Newest(s.logs).body)
          && SocksAgree(Newest(s.history).body.socks, Newest(s.logs).body)
          && Covered(s.threads, Newest(s.history).body))
  }

  ghost function Taken(logs: Logs): multiset<Msg> {
    multiset(Flatten(logs))
  }

  /** No valid message is lost or counted twice. */
  ghost predicate Conserved(s: State) {
    Taken(s.logs) + Backlog(s.threads) == s.submitted
  }

  ghost predicate Inv(c: Config, s: State)
    requires ValidConfig(c)
  {
    Locks(s) && Times(c, s) && Phases(c, s) && Ledger(s) && Conserved(s)
  }

  // ---- Locks ----

  /** What the lock says about one thread is what the thread holds. */
  predicate LockAt(s: State, t: nat)
    requires t < |s.threads|
  {
    && (t in s.readers <==> s.threads[t].HoldsRead())
    && (s.writer == Some(t) <==> s.threads[t].Filling?)
    && (s.writer.Some? ==> s.readers == {})
  }

  /** A step changes one thread, and the lock by what that thread takes or gives back. */
  ghost predicate LockMoves(s: State, s': State, t: nat) {
    && t < |s.threads| == |s'.threads| && s'.threads == s.threads[t := s'.threads[t]]
    && (s'.readers == s.readers || s'.readers == s.readers + {t} || s'.readers == s.readers - {t})
    && (s'.writer == s.writer || (s.writer == None && s'.writer == Some(t)) || (s.writer == Some(t) && s'.writer == None))
    && LockAt(s', t)
  }

  lemma LockMove(c: Config, s: State, a: Action)
    requires ValidConfig(c) && Enabled(c, s, a) && LockAt(s, a.t)
    ensures LockMoves(s, Apply(c, s, a), a.t)
  {
    hide SetNewest;
    hide Trunc;
  }

  lemma LocksStep(c: Config, s: State, a: Action)
    requires ValidConfig(c) && Enabled(c, s, a) && Locks(s)
    ensures Locks(Apply(c, s, a))
  {
    assert LockAt(s, a.t);
    LockMove(c, s, a);
    hide Apply;
    hide Locks;
    LocksKept(s, Apply(c, s, a), a.t);
  }

  lemma LocksKept(s: State, s': State, x: nat)
    requires Locks(s) && LockMoves(s, s', x)
    ensures Locks(s')
  {
    forall t | 0 <= t < |s'.threads|
      ensures (t in s'.readers <==> s'.threads[t].HoldsRead()) && (s'.writer == Some(t) <==> s'.threads[t].Filling?)
    {
      assert LockAt(if t == x then s' else s, t);
    }
  }

  // ---- Times ----

  lemma NewestShared(c: Config, s: State)
    requires Times(c, s)
    ensures s.segments == [] <==> s.history == []
    ensures s.history == [] <==> s.logs == []
    ensures s.history != [] ==> Newest(s.segments) == Newest(s.history) && Newest(s.logs).ts == Newest(s.history).ts
  {
    hide Regular;
  }

  lemma TimesPush(c: Config, s: State, a: Action)
    requires ValidConfig(c) && Enabled(c, s, a) && Times(c, s) && Phases(c, s) && a.Push?
    ensures Times(c, Apply(c, s, a))
  {
    var s' := Apply(c, s, a);
    NewestShared(c, s);
    var ts := NextTs(c, s, s.threads[a.t].ts);
    PushKeepsLast(c.capacity, s.history, Timed(ts, EmptyData()));
    assert PhaseOk(c, s, s.threads[a.t]);
    if s.history != [] {
      PushRegular(s.history, c.window, EmptyData());
    }
  }

  lemma TimesData(c: Config, s: State, data: SegmentData, log: seq<Msg>)
    requires Times(c, s) && s.history != [] && s.segments != []
    ensures s.logs != []
    ensures Times(c, SetData(s, data).(logs := SetNewest(s.logs, log)))
    ensures Times(c, SetData(s, data))
  {
    SetNewestShape(s.history, data, c.window, MaxLen(c.capacity));
  }

  predicate Stores(a: Action) {
    a.Push? || a.InsertSocket? || a.Increment?
  }

  /** Every other action leaves the segments alone. */
  lemma StoreUntouched(c: Config, s: State, a: Action)
    requires ValidConfig(c) && Enabled(c, s, a) && !Stores(a)
    ensures var s' := Apply(c, s, a);
            s'.segments == s.segments && s'.history == s.history && s'.logs == s.logs
  {
    hide Trunc;
  }

  lemma TimesStep(c: Config, s: State, a: Action)
    requires ValidConfig(c) && Enabled(c, s, a) && Times(c, s) && Phases(c, s)
    ensures Times(c, Apply(c, s, a))
  {
    var th := s.threads[a.t];
    if !Stores(a) {
      hide Apply;
      hide Regular;
      StoreUntouched(c, s, a);
    } else if a.Push? {
      TimesPush(c, s, a);
    } else if a.InsertSocket? {
      hide Times;
      TimesData(c, s, WithSocket(Newest(s.segments).body, th.msgs[0], a.replace), Newest(s.logs).body + [th.msgs[0]]);
      TimesOnly(c, SetData(s, WithSocket(Newest(s.segments).body, th.msgs[0], a.replace))
                   .(logs := SetNewest(s.logs, Newest(s.logs).body + [th.msgs[0]])), Apply(c, s, a));
    } else {
      hide Times;
      TimesData(c, s, WithRow(Newest(s.segments).body, th.current.value, th.done), []);
      TimesOnly(c, SetData(s, WithRow(Newest(s.segments).body, th.current.value, th.done)), Apply(c, s, a));
    }
  }

  lemma TimesOnly(c: Config, s: State, s': State)
    requires Times(c, s) && s'.segments == s.segments && s'.history == s.history && s'.logs == s.logs
    ensures Times(c, s')
  {}

  // ---- Phases ----

  /** What the other threads rely on only grows. */
  ghost predicate Grows(s: State, s': State) {
    && s.latest <= s'.latest
    && (s.history != [] ==>
          && s'.history != []
          && Newest(s.history).ts <= Newest(s'.history).ts
          && (Newest(s.history).ts < Newest(s'.history).ts ==> s.readers == {})
          && (Newest(s.history).ts == Newest(s'.history).ts ==>
                Newest(s.history).body.socks.Keys <= Newest(s'.history).body.socks.Keys))
  }

  lemma StepGrows(c: Config, s: State, a: Action)
    requires ValidConfig(c) && Enabled(c, s, a) && Locks(s) && Times(c, s)
    ensures Grows(s, Apply(c, s, a))
  {
    NewestShared(c, s);
    if !Stores(a) {
      hide Times;
      hide Locks;
    } else if a.Push? {
      hide Times;
      assert s.writer == Some(a.t);
    } else {
      hide Times;
      hide Locks;
    }
  }

  lemma PhaseKept(c: Config, s: State, s': State, t: nat)
    requires ValidConfig(c) && Locks(s) && Grows(s, s') && t < |s.threads| && PhaseOk(c, s, s.threads[t])
    ensures PhaseOk(c, s', s.threads[t])
  {
    assert s.threads[t].HoldsRead() ==> t in s.readers;
  }

  /** The thread that steps is where the code says it is. */
  lemma PhaseMoved(c: Config, s: State, a: Action)
    requires ValidConfig(c) && Enabled(c, s, a) && Times(c, s) && Phases(c, s) && Grows(s, Apply(c, s, a))
    ensures PhaseOk(c, Apply(c, s, a), Apply(c, s, a).threads[a.t])
  {
    NewestShared(c, s);
    PhaseOf(c, s, a.t);
    hide Times;
    hide Phases;
    if a.Begin? {
      TruncInRange(a.at, c.window);
    } else if Stores(a) {
      PhaseStored(c, s, a);
    } else {
      StoreUntouched(c, s, a);
      hide Grows;
      hide SetNewest;
    }
  }

  lemma PhaseStored(c: Config, s: State, a: Action)
    requires ValidConfig(c) && Enabled(c, s, a) && Stores(a) && Grows(s, Apply(c, s, a))
    requires PhaseOk(c, s, s.threads[a.t])
    requires s.history != [] ==> s.segments != [] && Newest(s.segments) == Newest(s.history)
    ensures PhaseOk(c, Apply(c, s, a), Apply(c, s, a).threads[a.t])
  {
  }

  lemma PhaseOf(c: Config, s: State, t: nat)
    requires ValidConfig(c) && Phases(c, s) && t < |s.threads|
    ensures PhaseOk(c, s, s.threads[t])
  {}

  lemma NewestBounded(c: Config, s: State, a: Action)
    requires ValidConfig(c) && Enabled(c, s, a) && Times(c, s) && Phases(c, s)
    ensures var s' := Apply(c, s, a); s'.history != [] ==> Newest(s'.history).ts <= s'.latest
  {
    NewestShared(c, s);
    PhaseOf(c, s, a.t);
    if a.Push? && s.history != [] {
      RegularAligned(s.history, c.window, |s.history| - 1);
      AlignedGap(Newest(s.history).ts, s.threads[a.t].ts, c.window);
    }
  }

  lemma PhasesStep(c: Config, s: State, a: Action)
    requires ValidConfig(c) && Enabled(c, s, a) && Locks(s) && Times(c, s) && Phases(c, s)
    ensures Phases(c, Apply(c, s, a))
  {
    var s' := Apply(c, s, a);
    StepGrows(c, s, a);
    NewestBounded(c, s, a);
    forall t | 0 <= t < |s'.threads| ensures PhaseOk(c, s', s'.threads[t]) {
      if t == a.t {
        PhaseMoved(c, s, a);
      } else {
        PhaseOf(c, s, t);
        OthersStay(c, s, a, t);
        PhaseKept(c, s, s', t);
      }
    }
  }

  lemma OthersStay(c: Config, s: State, a: Action, t: nat)
    requires ValidConfig(c) && Enabled(c, s, a) && t < |s.threads| && t != a.t
    ensures |Apply(c, s, a).threads| == |s.threads| && Apply(c, s, a).threads[t] == s.threads[t]
  {
    hide Trunc;
    hide SetNewest;
  }
}
