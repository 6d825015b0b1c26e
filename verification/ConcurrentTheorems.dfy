/** What holds over every run of the concurrent store, for any number of threads. */
module ConcurrentTheorems {
  import opened Types
  import opened Clock
  import opened Traffic
  import opened Segments
  import opened Timeline
  import opened StoreSpec
  import opened ConcurrentModel
  import opened ConcurrentInvariant
  import opened ConcurrentLedger

  lemma InitInv(c: Config, n: nat)
    requires ValidConfig(c)
    ensures Inv(c, Init(n))
  {
    BacklogEmpty(Init(n).threads);
  }

  lemma {:induction false} RunInv(c: Config, s: State, acts: seq<Action>)
    requires ValidConfig(c) && Inv(c, s) && RunFrom(c, s, acts).Some?
    ensures Inv(c, RunFrom(c, s, acts).value)
  {
    hide Inv;
    hide Apply;
    if acts != [] {
      var init := acts[..|acts| - 1];
      RunInv(c, s, init);
      InvStep(c, RunFrom(c, s, init).value, acts[|acts| - 1]);
    }
  }

  /** Every reachable state satisfies the invariant. */
  lemma Reachable(c: Config, n: nat, acts: seq<Action>)
    requires ValidConfig(c) && Run(c, n, acts).Some?
    ensures Inv(c, Run(c, n, acts).value)
  {
    InitInv(c, n);
    RunInv(c, Init(n), acts);
  }

  // ---- Timestamps in range ----

  lemma TruncAligned(ts: nat, window: nat)
    requires 0 < window && ts < U64 && window < U64 && ts % window == 0
    ensures Trunc(ts, window) == ts
  {}

  /** Requests are truncated, so no window lies beyond 64 bits. */
  ghost predicate InRange(s: State) {
    s.latest < U64
  }

  lemma {:induction false} RunInRange(c: Config, n: nat, acts: seq<Action>)
    requires ValidConfig(c) && Run(c, n, acts).Some?
    ensures InRange(Run(c, n, acts).value)
  {
    if acts != [] {
      var init := acts[..|acts| - 1];
      RunInRange(c, n, init);
      LatestStep(c, Run(c, n, init).value, acts[|acts| - 1]);
    }
  }

  lemma LatestStep(c: Config, s: State, a: Action)
    requires ValidConfig(c) && Enabled(c, s, a) && InRange(s)
    ensures InRange(Apply(c, s, a))
  {
    if a.Begin? {
      TruncInRange(a.at, c.window);
    }
  }

  /** No thread is in the middle of a message. */
  ghost predicate Settling(s: State) {
    forall t | 0 <= t < |s.threads| :: Clear(s.threads[t])
  }

  lemma SettledAgrees(c: Config, s: State)
    requires ValidConfig(c) && Inv(c, s) && Settling(s)
    ensures AgreeAll(s.history, s.logs)
  {
    if s.history != [] {
      forall i, f ensures Sum(s.threads, Debt(i, f)) == 0 {
        AllClear(s.threads, i, f);
      }
      hide Sum;
      PaidAgrees(s.threads, Newest(s.history).body, Newest(s.logs).body);
    }
    hide Agrees;
    hide Pays;
  }

  /** When every thread is done, the timeline holds each valid message of each request exactly once. */
  lemma NothingLostConcurrently(c: Config, n: nat, acts: seq<Action>)
    requires ValidConfig(c) && Run(c, n, acts).Some?
    requires forall t | 0 <= t < |Run(c, n, acts).value.threads| :: Run(c, n, acts).value.threads[t].Idle?
    ensures multiset(Flatten(Run(c, n, acts).value.logs)) == Run(c, n, acts).value.submitted
  {
    var s := Run(c, n, acts).value;
    Reachable(c, n, acts);
    BacklogEmpty(s.threads);
    assert Taken(s.logs) + multiset{} == Taken(s.logs);
  }

  /** One counter over the deque, with the newest segment apart. */
  lemma SumStatNewest(segments: History, i: Interest, f: Field)
    requires segments != []
    ensures SumStat(segments, i, f)
         == SumStat(segments[..|segments| - 1], i, f) + Row(Newest(segments).body.index, i).Get(f)
  {
  }

  /** In a timeline whose newest window still lacks `owed`, the last `n` windows hold what their messages call
      for, less what is owed. */
  lemma RetainedPlusOwed(history: History, logs: Logs, n: nat, i: Interest, f: Field, owed: nat)
    requires Settled(history, logs) && history != [] && 0 < n
    requires Row(Newest(history).body.index, i).Get(f) + owed == Count(Newest(logs).body, i, f)
    ensures SumStat(LastN(n, history), i, f) + owed == Count(Flatten(LastN(n, logs)), i, f)
  {
    hide Agrees;
    var ws, ls := LastN(n, history), LastN(n, logs);
    SumStatNewest(ws, i, f);
    TimesIrrelevant(ws[..|ws| - 1], ls[..|ls| - 1], i, f);
    CountConcat(Flatten(ls[..|ls| - 1]), Newest(ls).body, i, f);
  }

  lemma {:induction false} TimesIrrelevant(segments: History, logs: Logs, i: Interest, f: Field)
    requires |segments| == |logs| && forall k | 0 <= k < |logs| :: Agrees(segments[k].body, logs[k].body)
    ensures SumStat(segments, i, f) == Count(Flatten(logs), i, f)
  {
    if logs != [] {
      var k := |logs| - 1;
      TimesIrrelevant(segments[..k], logs[..k], i, f);
      CountConcat(Flatten(logs[..k]), logs[k].body, i, f);
      FoldFields(logs[k].body, i, f);
    }
  }

  /** Sliding window, in every reachable state: the retained segments, plus the row increments that writing threads
      still owe, hold for every interest exactly the messages recorded in the retained windows. With the messages
      of the evicted windows and those not yet recorded, that is everything ever submitted. */
  lemma SlidingWindowInFlight(c: Config, n: nat, acts: seq<Action>, all: seq<Msg>, rest: seq<Msg>, i: Interest, f: Field)
    requires ValidConfig(c) && Run(c, n, acts).Some?
    requires multiset(all) == Run(c, n, acts).value.submitted
    requires multiset(rest) == Backlog(Run(c, n, acts).value.threads)
    ensures var s := Run(c, n, acts).value;
            var kept := LastN(MaxLen(c.capacity), s.logs);
            var evicted := s.logs[..|s.logs| - |kept|];
            var held := SumStat(s.segments, i, f) + Sum(s.threads, Debt(i, f));
            && held == Count(Flatten(kept), i, f)
            && Count(Flatten(evicted), i, f) + held + Count(rest, i, f) == Count(all, i, f)
            && (|all| < MAX_MESSAGES ==> SumStat(s.segments, i, f) < U64)
  {
    hide *;
    Reachable(c, n, acts);
    SlidingWindowAt(c, Run(c, n, acts).value, all, rest, i, f);
  }

  lemma SlidingWindowAt(c: Config, s: State, all: seq<Msg>, rest: seq<Msg>, i: Interest, f: Field)
    requires ValidConfig(c) && Inv(c, s) && multiset(all) == s.submitted && multiset(rest) == Backlog(s.threads)
    ensures var kept := LastN(MaxLen(c.capacity), s.logs);
            var evicted := s.logs[..|s.logs| - |kept|];
            var held := SumStat(s.segments, i, f) + Sum(s.threads, Debt(i, f));
            && held == Count(Flatten(kept), i, f)
            && Count(Flatten(evicted), i, f) + held + Count(rest, i, f) == Count(all, i, f)
            && (|all| < MAX_MESSAGES ==> SumStat(s.segments, i, f) < U64)
  {
    hide *;
    ConservedOf(c, s);
    RecordedPlusWaiting(s, all, rest);
    HeldIs(c, s, i, f);
    InFlightSums(s.logs, MaxLen(c.capacity), all, rest, i, f);
  }

  lemma ConservedOf(c: Config, s: State)
    requires ValidConfig(c) && Inv(c, s)
    ensures Conserved(s)
  {
  }

  lemma RecordedPlusWaiting(s: State, all: seq<Msg>, rest: seq<Msg>)
    requires Conserved(s) && multiset(all) == s.submitted && multiset(rest) == Backlog(s.threads)
    ensures multiset(Flatten(s.logs) + rest) == multiset(all)
  {
  }

  lemma HeldIs(c: Config, s: State, i: Interest, f: Field)
    requires ValidConfig(c) && Inv(c, s)
    ensures SumStat(s.segments, i, f) + Sum(s.threads, Debt(i, f)) == Count(Flatten(LastN(MaxLen(c.capacity), s.logs)), i, f)
  {
    if s.history == [] {
      forall t | 0 <= t < |s.threads| ensures Clear(s.threads[t]) {
        PhaseOf(c, s, t);
      }
      AllClear(s.threads, i, f);
      assert s.logs == [] && LastN(MaxLen(c.capacity), s.logs) == [];
    } else {
      RetainedPlusOwed(s.history, s.logs, MaxLen(c.capacity), i, f, Sum(s.threads, Debt(i, f)));
    }
  }

  lemma InFlightSums(logs: Logs, n: nat, all: seq<Msg>, rest: seq<Msg>, i: Interest, f: Field)
    requires multiset(Flatten(logs) + rest) == multiset(all)
    ensures var kept := LastN(n, logs);
            var evicted := logs[..|logs| - |kept|];
            && Count(Flatten(evicted), i, f) + Count(Flatten(kept), i, f) + Count(rest, i, f) == Count(all, i, f)
    ensures |all| < MAX_MESSAGES ==> Count(all, i, f) < U64
  {
    var kept := LastN(n, logs);
    var evicted := logs[..|logs| - |kept|];
    assert logs == evicted + kept;
    hide *;
    FlattenConcat(evicted, kept);
    CountPermutation(Flatten(logs) + rest, all, i, f);
    CountConcat(Flatten(logs), rest, i, f);
    CountConcat(Flatten(evicted), Flatten(kept), i, f);
    if |all| < MAX_MESSAGES {
      CountersDoNotOverflow(all, i);
      CountFits(all, i, f);
    }
  }

  /** When every thread is done nothing is owed and nothing waits: the retained segments hold what the requests
      submitted less what fell out of the window. */
  lemma SlidingWindowConcurrently(c: Config, n: nat, acts: seq<Action>, all: seq<Msg>, i: Interest, f: Field)
    requires ValidConfig(c) && Run(c, n, acts).Some? && multiset(all) == Run(c, n, acts).value.submitted
    requires forall t | 0 <= t < |Run(c, n, acts).value.threads| :: Run(c, n, acts).value.threads[t].Idle?
    ensures var s := Run(c, n, acts).value;
            var kept := LastN(MaxLen(c.capacity), s.logs);
            var evicted := s.logs[..|s.logs| - |kept|];
            && SumStat(s.segments, i, f) == Count(Flatten(kept), i, f)
            && Count(Flatten(evicted), i, f) + SumStat(s.segments, i, f) == Count(all, i, f)
  {
    var s := Run(c, n, acts).value;
    IdleOwesNothing(s.threads, i, f);
    hide *;
    SlidingWindowInFlight(c, n, acts, all, [], i, f);
  }

  lemma IdleOwesNothing(threads: seq<Thread>, i: Interest, f: Field)
    requires forall t | 0 <= t < |threads| :: threads[t].Idle?
    ensures Sum(threads, Debt(i, f)) == 0 && Backlog(threads) == multiset([]) && Count([], i, f) == 0
  {
    AllClear(threads, i, f);
    BacklogEmpty(threads);
  }

  lemma CountFits(log: seq<Msg>, i: Interest, f: Field)
    requires FitsU64(Fold(log, i))
    ensures Count(log, i, f) < U64
  {
    FoldFields(log, i, f);
  }

  // ---- In every intermediate state ----

  /** A reader that sums the `LocalSocket` rows never sees less than the `All` row, whatever is in
      flight, and every such row it finds has its socket in the set. */
  lemma LocalRowsLead(c: Config, n: nat, acts: seq<Action>, f: Field)
    requires ValidConfig(c) && Run(c, n, acts).Some?
    ensures var s := Run(c, n, acts).value;
            s.segments != [] ==>
              var d := Newest(s.segments).body;
              && Row(d.index, All).Get(f) <= SumRows(d.index, LocalKeys(d.socks.Keys), f)
              && forall a | LocalSocket(a) in d.index :: a in d.socks
  {
    var s := Run(c, n, acts).value;
    Reachable(c, n, acts);
    NewestShared(c, s);
    if s.segments != [] {
      var d := Newest(s.segments).body;
      assert Covered(s.threads, d);
      forall a | LocalSocket(a) in d.index ensures a in d.socks {
        assert LocalSocket(a).LocalSocket?;
      }
    }
  }

  /** In every reachable state the deque holds no more windows than its capacity, and exactly the recent ones. */
  lemma DequeHoldsRecent(c: Config, n: nat, acts: seq<Action>)
    requires ValidConfig(c) && Run(c, n, acts).Some?
    ensures var s := Run(c, n, acts).value;
            && |s.segments| == (if |s.history| <= c.capacity then |s.history| else if c.capacity == 0 then 1 else c.capacity)
            && (0 < c.capacity ==> forall k | 0 <= k < |s.history| ::
                  s.history[k] in s.segments <==> Newest(s.history).ts < s.history[k].ts + c.capacity * c.window)
  {
    var s := Run(c, n, acts).value;
    Reachable(c, n, acts);
    DequeIsRecent(s.history, c.window, c.capacity);
    hide Regular;
  }

  /** Attribution under the race: a thread that may write has a newest segment to write to, whose window
      is neither older than the thread asked for nor later than anyone asked for. */
  lemma TargetBetweenRequests(c: Config, n: nat, acts: seq<Action>, t: nat)
    requires ValidConfig(c) && Run(c, n, acts).Some?
    requires t < |Run(c, n, acts).value.threads| && Run(c, n, acts).value.threads[t].Writing?
    ensures var s := Run(c, n, acts).value;
            s.segments != [] && s.threads[t].ts <= Newest(s.segments).ts <= s.latest
  {
    var s := Run(c, n, acts).value;
    Reachable(c, n, acts);
    PhaseOf(c, s, t);
    NewestShared(c, s);
  }

  // ---- Frozen segments ----

  /** No step changes a window that is not the newest. */
  lemma StepExtends(c: Config, s: State, a: Action)
    requires ValidConfig(c) && Enabled(c, s, a) && Times(c, s)
    ensures Extends(s.history, Apply(c, s, a).history)
  {
    NewestShared(c, s);
    hide Regular;
    if !Stores(a) {
      StoreUntouched(c, s, a);
    }
  }

  /** Once a window stops being the newest it is frozen, through every later state of every run. */
  lemma {:induction false} RunExtends(c: Config, s: State, acts: seq<Action>)
    requires ValidConfig(c) && Inv(c, s) && RunFrom(c, s, acts).Some?
    ensures Extends(s.history, RunFrom(c, s, acts).value.history)
  {
    if acts != [] {
      var init, a := acts[..|acts| - 1], acts[|acts| - 1];
      var r := RunFrom(c, s, init).value;
      RunExtends(c, s, init);
      RunInv(c, s, init);
      StepExtends(c, r, a);
      hide Inv;
      hide Apply;
      ExtendsTransitive(s.history, r.history, Apply(c, r, a).history);
    }
  }

  /** The two deques differ at most in what the newest segment holds. */
  ghost predicate SameButNewest(a: History, b: History) {
    && |a| == |b|
    && (forall k | 0 <= k < |a| :: a[k].ts == b[k].ts)
    && (forall k | 0 <= k < |a| - 1 :: a[k] == b[k])
  }

  lemma GuardedStep(c: Config, s: State, a: Action)
    requires ValidConfig(c) && Enabled(c, s, a) && Locks(s) && s.readers != {}
    ensures SameButNewest(s.segments, Apply(c, s, a).segments)
  {
    assert !s.threads[a.t].Filling?;
    if !Stores(a) {
      StoreUntouched(c, s, a);
    }
  }

  /** A reader keeps its guard until it steps itself. */
  lemma GuardKept(c: Config, s: State, a: Action, v: nat)
    requires ValidConfig(c) && Enabled(c, s, a) && v in s.readers && a.t != v
    ensures v in Apply(c, s, a).readers
  {
    hide SetNewest;
    hide Trunc;
  }

  /** While a view is alive, however the other threads run, no segment is added or evicted and only the
      newest one changes. */
  lemma {:induction false} ViewIsStable(c: Config, s: State, acts: seq<Action>, v: nat)
    requires ValidConfig(c) && Inv(c, s) && v in s.readers && RunFrom(c, s, acts).Some?
    requires forall k | 0 <= k < |acts| :: acts[k].t != v
    ensures v in RunFrom(c, s, acts).value.readers
    ensures SameButNewest(s.segments, RunFrom(c, s, acts).value.segments)
  {
    if acts != [] {
      var init, a := acts[..|acts| - 1], acts[|acts| - 1];
      var r := RunFrom(c, s, init).value;
      ViewIsStable(c, s, init, v);
      RunInv(c, s, init);
      GuardedStep(c, r, a);
      GuardKept(c, r, a, v);
      hide Inv;
      hide Apply;
      hide Enabled;
    }
  }

  // ---- Progress ----

  predicate Starts(a: Action) {
    a.Begin? || a.BeginView?
  }

  predicate TakesRead(a: Action) {
    a.LockFast? || a.Relock? || a.LockView?
  }

  /** A lock that lets waiting writers go first admits a reader only when no writer waits. */
  predicate Polite(s: State, a: Action) {
    TakesRead(a) ==> forall t | 0 <= t < |s.threads| :: !s.threads[t].WantWrite?
  }

  /** What a thread that holds a guard does next: it never waits for the lock. */
  function NextOf(c: Config, s: State, t: nat): Action
    requires t < |s.threads|
  {
    match s.threads[t]
    case Checking(ts, _) => if s.segments != [] && Newest(s.segments).ts == ts then Hit(t) else Miss(t)
    case Filling(ts, _) => if Outdated(s.segments, ts) then Push(t) else UnlockSlow(t)
    case Writing(_, msgs, current, _) =>
      if current.Some? then Increment(t)
      else if msgs == [] then Finish(t)
      else if msgs[0].ret < 0 then Reject(t)
      else InsertSocket(t, false)
    case WantRead(_, _) => LockFast(t)
    case WantWrite(_, _) => LockSlow(t)
    case WantReread(_, _) => Relock(t)
    case WantView => LockView(t)
    case Viewing => EndView(t)
    case Idle => BeginView(t)
  }

  lemma HolderCanStep(c: Config, s: State, t: nat)
    requires ValidConfig(c) && Inv(c, s) && t < |s.threads|
    requires s.threads[t].HoldsRead() || s.threads[t].Filling?
    ensures Enabled(c, s, NextOf(c, s, t)) && !Starts(NextOf(c, s, t)) && !TakesRead(NextOf(c, s, t))
  {
    NewestShared(c, s);
    PhaseOf(c, s, t);
  }

  ghost predicate CanStep(c: Config, s: State, u: nat) {
    u < |s.threads| && Enabled(c, s, NextOf(c, s, u)) && !Starts(NextOf(c, s, u)) && Polite(s, NextOf(c, s, u))
  }

  lemma SomeoneCanStep(c: Config, s: State, t: nat) returns (u: nat)
    requires ValidConfig(c) && Inv(c, s) && t < |s.threads| && !s.threads[t].Idle?
    ensures CanStep(c, s, u)
  {
    if h :| 0 <= h < |s.threads| && (s.threads[h].HoldsRead() || s.threads[h].Filling?) {
      HolderCanStep(c, s, h);
      u := h;
    } else {
      LockIsFree(c, s);
      u := t;
      if w :| 0 <= w < |s.threads| && s.threads[w].WantWrite? {
        u := w;
      }
    }
  }

  /** Deadlock freedom: as long as some thread has not finished, some thread that has not finished can
      step, even if the lock makes readers wait for waiting writers. */
  lemma DeadlockFree(c: Config, n: nat, acts: seq<Action>, t: nat)
    requires ValidConfig(c) && Run(c, n, acts).Some?
    requires t < |Run(c, n, acts).value.threads| && !Run(c, n, acts).value.threads[t].Idle?
    ensures exists u :: CanStep(c, Run(c, n, acts).value, u)
  {
    Reachable(c, n, acts);
    var u := SomeoneCanStep(c, Run(c, n, acts).value, t);
  }

  lemma LockIsFree(c: Config, s: State)
    requires Locks(s)
    requires forall h | 0 <= h < |s.threads| :: !s.threads[h].HoldsRead() && !s.threads[h].Filling?
    ensures s.writer == None && s.readers == {}
  {
    assert forall t | 0 <= t < |s.threads| :: t !in s.readers && s.writer != Some(t);
  }

  function NewestTs(s: State): Option<nat> {
    if s.segments == [] then None else Some(Newest(s.segments).ts)
  }

  function Work(s: State): nat {
    Sum(s.threads, Rank(NewestTs(s)))
  }

  /** Where an action takes its thread. */
  function ThreadAfter(c: Config, s: State, a: Action): Thread
    requires Enabled(c, s, a) && !Starts(a)
  {
    var th := s.threads[a.t];
    match a
    case LockFast(_) => Checking(th.ts, th.msgs)
    case Miss(_) => WantWrite(th.ts, th.msgs)
    case LockSlow(_) => Filling(th.ts, th.msgs)
    case UnlockSlow(_) => WantReread(th.ts, th.msgs)
    case Hit(_) => Writing(th.ts, th.msgs, None, 0)
    case Relock(_) => Writing(th.ts, th.msgs, None, 0)
    case Reject(_) => th.(msgs := th.msgs[1..])
    case InsertSocket(_, _) => Writing(th.ts, th.msgs[1..], Some(th.msgs[0]), 0)
    case Increment(_) => NextRow(th)
    case LockView(_) => Viewing
    case Finish(_) => Idle
    case EndView(_) => Idle
    case _ => th
  }

  function NewestAfter(c: Config, s: State, a: Action): Option<nat>
    requires Enabled(c, s, a)
  {
    if a.Push? then Some(NextTs(c, s, s.threads[a.t].ts)) else NewestTs(s)
  }

  lemma StepAfter(c: Config, s: State, a: Action)
    requires ValidConfig(c) && Enabled(c, s, a) && !Starts(a)
    ensures var s' := Apply(c, s, a);
            && s'.threads == s.threads[a.t := ThreadAfter(c, s, a)]
            && NewestTs(s') == NewestAfter(c, s, a)
  {
    if !Stores(a) {
      StoreUntouched(c, s, a);
    }
    hide Trunc;
  }

  /** Nobody else's remaining work depends on what a step changes. */
  lemma OthersRank(c: Config, s: State, a: Action, t: nat)
    requires Enabled(c, s, a) && Locks(s) && t < |s.threads| && t != a.t
    ensures Value(s.threads[t], Rank(NewestAfter(c, s, a))) == Value(s.threads[t], Rank(NewestTs(s)))
  {
    if a.Push? {
      assert s.writer == Some(a.t);
      assert !s.threads[t].Filling?;
    }
  }

  lemma OwnRank(c: Config, s: State, a: Action)
    requires ValidConfig(c) && Enabled(c, s, a) && !Starts(a)
    ensures Value(ThreadAfter(c, s, a), Rank(NewestAfter(c, s, a))) < Value(s.threads[a.t], Rank(NewestTs(s)))
  {}

  /** Termination under every scheduler: each step that does not start a request uses up work, so
      finitely many requests take finitely many steps; the slow-path loop and the race included. */
  lemma StepsUseWork(c: Config, s: State, a: Action)
    requires ValidConfig(c) && Enabled(c, s, a) && Locks(s) && !Starts(a)
    ensures Work(Apply(c, s, a)) < Work(s)
  {
    var s', th' := Apply(c, s, a), ThreadAfter(c, s, a);
    var m, m' := Rank(NewestTs(s)), Rank(NewestAfter(c, s, a));
    StepAfter(c, s, a);
    OwnRank(c, s, a);
    forall t | 0 <= t < |s.threads| && t != a.t ensures Value(s.threads[t], m) == Value(s'.threads[t], m') {
      OthersRank(c, s, a, t);
    }
    hide Apply;
    hide Locks;
    hide Value;
    SumChange(s.threads, s'.threads, m, m', a.t);
  }

  /** So a run from any reachable state that starts nothing new is no longer than the work in it. */
  lemma {:induction false} RunsEnd(c: Config, s: State, acts: seq<Action>)
    requires ValidConfig(c) && Inv(c, s) && RunFrom(c, s, acts).Some?
    requires forall k | 0 <= k < |acts| :: !Starts(acts[k])
    ensures |acts| + Work(RunFrom(c, s, acts).value) <= Work(s)
  {
    hide Inv;
    hide Apply;
    if acts != [] {
      var init := acts[..|acts| - 1];
      RunsEnd(c, s, init);
      RunInv(c, s, init);
      InvLocks(c, RunFrom(c, s, init).value);
      StepsUseWork(c, RunFrom(c, s, init).value, acts[|acts| - 1]);
    }
  }

  lemma InvLocks(c: Config, s: State)
    requires ValidConfig(c) && Inv(c, s)
    ensures Locks(s)
  {}

  // ---- The states of a run ----

  lemma {:induction false} PrefixRuns(c: Config, s: State, acts: seq<Action>, p: nat)
    requires ValidConfig(c) && RunFrom(c, s, acts).Some? && p <= |acts|
    ensures RunFrom(c, s, acts[..p]).Some?
    ensures RunFrom(c, RunFrom(c, s, acts[..p]).value, acts[p..]) == RunFrom(c, s, acts)
    decreases |acts|
  {
    hide Apply;
    hide Enabled;
    if p == |acts| {
      assert acts[..p] == acts;
    } else {
      var init := acts[..|acts| - 1];
      PrefixRuns(c, s, init, p);
      assert init[..p] == acts[..p];
      assert acts[p..][..|acts[p..]| - 1] == init[p..];
    }
  }

  /** The state after the first `p` steps of a run. */
  function StateAt(c: Config, n: nat, acts: seq<Action>, p: nat): State
    requires ValidConfig(c) && Run(c, n, acts).Some? && p <= |acts|
  {
    PrefixRuns(c, Init(n), acts, p);
    Run(c, n, acts[..p]).value
  }

  lemma ViewAt(c: Config, n: nat, acts: seq<Action>, p: nat, q: nat, viewer: nat)
    requires ValidConfig(c) && Run(c, n, acts).Some? && p <= q <= |acts|
    requires viewer in StateAt(c, n, acts, p).readers && forall k | p <= k < q :: acts[k].t != viewer
    ensures SameButNewest(StateAt(c, n, acts, p).segments, StateAt(c, n, acts, q).segments)
  {
    PrefixRuns(c, Init(n), acts, q);
    assert acts[..q][..p] == acts[..p] && acts[..q][p..] == acts[p..q];
    PrefixRuns(c, Init(n), acts[..q], p);
    Reachable(c, n, acts[..p]);
    hide Inv;
    hide SameButNewest;
    ViewIsStable(c, StateAt(c, n, acts, p), acts[p..q], viewer);
  }

  // ---- Rows only grow under a view ----

  /** Every row of `d` is between its values in `low` and `high`, and so is the set of sockets. */
  ghost predicate Between(low: SegmentData, d: SegmentData, high: SegmentData) {
    && (forall i, f :: Row(low.index, i).Get(f) <= Row(d.index, i).Get(f) <= Row(high.index, i).Get(f))
    && low.socks.Keys <= d.socks.Keys <= high.socks.Keys
  }

  ghost predicate GrowsTo(d: SegmentData, d': SegmentData) {
    && (forall i, f :: Row(d.index, i).Get(f) <= Row(d'.index, i).Get(f))
    && d.socks.Keys <= d'.socks.Keys
  }

  lemma BumpGrows(d: SegmentData, i: Interest, amount: Stat)
    ensures GrowsTo(d, d.(index := Bump(d.index, i, amount)))
  {
    forall j, f ensures Row(d.index, j).Get(f) <= Row(Bump(d.index, i, amount), j).Get(f) {
      PlusFields(Row(d.index, i), amount, f);
    }
  }

  lemma NewestGrows(c: Config, s: State, a: Action)
    requires ValidConfig(c) && Enabled(c, s, a) && Locks(s) && s.readers != {} && s.segments != []
    ensures Apply(c, s, a).segments != [] && GrowsTo(Newest(s.segments).body, Newest(Apply(c, s, a).segments).body)
  {
    hide GrowsTo;
    var d := Newest(s.segments).body;
    if a.Increment? {
      var th := s.threads[a.t];
      BumpGrows(d, InterestsFromMsg(th.current.value)[th.done], MsgStat(th.current.value));
    } else if a.InsertSocket? {
      SocketGrows(d, s.threads[a.t].msgs[0], a.replace);
    } else {
      GrowsReflexive(d);
      assert !a.Push? by { assert LockAt(s, a.t); }
      StoreUntouched(c, s, a);
    }
  }

  lemma SocketGrows(d: SegmentData, m: Msg, replace: bool)
    ensures GrowsTo(d, WithSocket(d, m, replace))
  {
  }

  lemma GrowsReflexive(d: SegmentData)
    ensures GrowsTo(d, d)
  {
  }

  lemma GrowsTransitive(a: SegmentData, b: SegmentData, c: SegmentData)
    requires GrowsTo(a, b) && GrowsTo(b, c)
    ensures GrowsTo(a, c) && Between(a, b, c)
  {
    forall i, f ensures Row(a.index, i).Get(f) <= Row(b.index, i).Get(f) <= Row(c.index, i).Get(f) {
    }
  }

  /** While a view is alive the newest segment's rows and sockets only grow. */
  lemma {:induction false} RowsGrowUnderView(c: Config, s: State, acts: seq<Action>, v: nat)
    requires ValidConfig(c) && Inv(c, s) && v in s.readers && RunFrom(c, s, acts).Some? && s.segments != []
    requires forall k | 0 <= k < |acts| :: acts[k].t != v
    ensures RunFrom(c, s, acts).value.segments != []
    ensures GrowsTo(Newest(s.segments).body, Newest(RunFrom(c, s, acts).value.segments).body)
  {
    hide Inv;
    hide Apply;
    hide Enabled;
    hide GrowsTo;
    if acts == [] {
      GrowsReflexive(Newest(s.segments).body);
    } else {
      var init, a := acts[..|acts| - 1], acts[|acts| - 1];
      var r := RunFrom(c, s, init).value;
      RowsGrowUnderView(c, s, init, v);
      ViewIsStable(c, s, init, v);
      RunInv(c, s, init);
      InvLocks(c, r);
      NewestGrows(c, r, a);
      GrowsTransitive(Newest(s.segments).body, Newest(r.segments).body, Newest(Apply(c, r, a).segments).body);
    }
  }
}
