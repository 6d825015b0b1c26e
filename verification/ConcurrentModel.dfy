/** The store shared by any number of threads: one step per lock operation, per created segment, per
    inserted socket and per incremented row (`ptraf/src/store.rs`). Writers change the newest segment
    while they hold a read guard only. */
module ConcurrentModel {
  import opened Types
  import opened Clock
  import opened Traffic
  import opened Segments
  import opened Timeline
  import opened StoreSpec

  datatype Config = Config(window: nat, capacity: nat)

  predicate ValidConfig(c: Config) {
    0 < c.window < U64
  }

  /** Where a thread is. `ts` is the truncated timestamp of its request and `msgs` the messages it has
      not started on. A request without messages is `oldest_timestamp`. */
  datatype Thread =
    | Idle
    | WantRead(ts: nat, msgs: seq<Msg>)      // about to take the read guard of the fast path
    | Checking(ts: nat, msgs: seq<Msg>)      // read guard held
    | WantWrite(ts: nat, msgs: seq<Msg>)     // the read guard is dropped, the write guard not yet taken
    | Filling(ts: nat, msgs: seq<Msg>)       // write guard held, in the slow-path loop
    | WantReread(ts: nat, msgs: seq<Msg>)    // the write guard is dropped, the read guard not yet taken
    | Writing(ts: nat, msgs: seq<Msg>, current: Option<Msg>, done: nat)  // read guard held; `done` rows of `current`
    | WantView
    | Viewing                                // a `TimeSegmentsView` is alive
  {
    predicate HoldsRead() {
      Checking? || Writing? || Viewing?
    }

    predicate HasRequest() {
      WantRead? || Checking? || WantWrite? || Filling? || WantReread? || Writing?
    }
  }

  /** The shared state. The last four fields are history variables: they record what happened. Where a step is
      guarded by them, as writing is, the guard follows from the invariant. */
  datatype State = State(
    threads: seq<Thread>,
    readers: set<nat>,
    writer: Option<nat>,
    segments: History,
    history: History,             // every window ever created
    logs: Logs,                   // the messages whose socket was inserted, by window
    latest: nat,                  // the latest window requested
    submitted: multiset<Msg>)     // the valid messages of all requests

  datatype Action =
    | Begin(t: nat, at: nat, msgs: seq<Msg>)
    | LockFast(t: nat)
    | Hit(t: nat)
    | Miss(t: nat)
    | LockSlow(t: nat)
    | Push(t: nat)
    | UnlockSlow(t: nat)
    | Relock(t: nat)
    | Reject(t: nat)
    | InsertSocket(t: nat, replace: bool)
    | Increment(t: nat)
    | Finish(t: nat)
    | BeginView(t: nat)
    | LockView(t: nat)
    | EndView(t: nat)

  function Init(n: nat): State {
    State(seq(n, _ => Idle), {}, None, [], [], [], 0, multiset{})
  }

  predicate Outdated(segments: History, ts: nat) {
    segments == [] || Newest(segments).ts < ts
  }

  predicate Enabled(c: Config, s: State, a: Action) {
    a.t < |s.threads| &&
    var th := s.threads[a.t];
    match a
    case Begin(_, _, _) => th.Idle?
    case LockFast(_) => th.WantRead? && s.writer == None
    case Hit(_) => th.Checking? && s.segments != [] && Newest(s.segments).ts == th.ts
    case Miss(_) => th.Checking? && !(s.segments != [] && Newest(s.segments).ts == th.ts)
    case LockSlow(_) => th.WantWrite? && s.writer == None && s.readers == {}
    case Push(_) => th.Filling? && Outdated(s.segments, th.ts)
    case UnlockSlow(_) => th.Filling? && !Outdated(s.segments, th.ts)
    case Relock(_) => th.WantReread? && s.writer == None
    case Reject(_) => th.Writing? && th.current == None && th.msgs != [] && th.msgs[0].ret < 0
    case InsertSocket(_, _) =>
      th.Writing? && th.current == None && th.msgs != [] && th.msgs[0].ret >= 0
      && s.segments != [] && s.history != [] && s.logs != []
    case Increment(_) => th.Writing? && th.current.Some? && th.done < 5 && s.segments != [] && s.history != []
    case Finish(_) => th.Writing? && th.current == None && th.msgs == []
    case BeginView(_) => th.Idle?
    case LockView(_) => th.WantView? && s.writer == None
    case EndView(_) => th.Viewing?
  }

  function Move(s: State, t: nat, th: Thread): State
    requires t < |s.threads|
  {
    s.(threads := s.threads[t := th])
  }

  /** The timestamp of the next segment to create. */
  function NextTs(c: Config, s: State, ts: nat): nat {
    if s.segments == [] then ts else Newest(s.segments).ts + c.window
  }

  function PopPush(c: Config, segments: History, ts: nat): History {
    (if |segments| >= c.capacity && segments != [] then segments[1..] else segments) + [Timed(ts, EmptyData())]
  }

  function SetData(s: State, data: SegmentData): State
    requires s.segments != [] && s.history != []
  {
    s.(segments := SetNewest(s.segments, data), history := SetNewest(s.history, data))
  }

  function WithSocket(d: SegmentData, m: Msg, replace: bool): SegmentData {
    if replace || m.local !in d.socks then d.(socks := d.socks[m.local := SocketOf(m)]) else d
  }

  function WithRow(d: SegmentData, m: Msg, done: nat): SegmentData
    requires done < 5
  {
    d.(index := Bump(d.index, InterestsFromMsg(m)[done], MsgStat(m)))
  }

  function Apply(c: Config, s: State, a: Action): State
    requires ValidConfig(c) && Enabled(c, s, a)
  {
    var th := s.threads[a.t];
    match a
    case Begin(t, at, msgs) =>
      var ts := Trunc(at, c.window);
      Move(s, t, WantRead(ts, msgs))
        .(latest := Max(s.latest, ts), submitted := s.submitted + multiset(Accepted(msgs)))
    case LockFast(t) => Move(s, t, Checking(th.ts, th.msgs)).(readers := s.readers + {t})
    case Hit(t) => Move(s, t, Writing(th.ts, th.msgs, None, 0))
    case Miss(t) => Move(s, t, WantWrite(th.ts, th.msgs)).(readers := s.readers - {t})
    case LockSlow(t) => Move(s, t, Filling(th.ts, th.msgs)).(writer := Some(t))
    case Push(t) =>
      var ts := NextTs(c, s, th.ts);
      s.(segments := PopPush(c, s.segments, ts),
         history := s.history + [Timed(ts, EmptyData())],
         logs := s.logs + [Timed(ts, [])])
    case UnlockSlow(t) => Move(s, t, WantReread(th.ts, th.msgs)).(writer := None)
    case Relock(t) => Move(s, t, Writing(th.ts, th.msgs, None, 0)).(readers := s.readers + {t})
    case Reject(t) => Move(s, t, th.(msgs := th.msgs[1..]))
    case InsertSocket(t, replace) =>
      var m := th.msgs[0];
      Move(SetData(s, WithSocket(Newest(s.segments).body, m, replace)), t,
           Writing(th.ts, th.msgs[1..], Some(m), 0))
        .(logs := SetNewest(s.logs, Newest(s.logs).body + [m]))
    case Increment(t) =>
      Move(SetData(s, WithRow(Newest(s.segments).body, th.current.value, th.done)), t,
           if th.done == 4 then th.(current := None, done := 0) else th.(done := th.done + 1))
    case Finish(t) => Move(s, t, Idle).(readers := s.readers - {t})
    case BeginView(t) => Move(s, t, WantView)
    case LockView(t) => Move(s, t, Viewing).(readers := s.readers + {t})
    case EndView(t) => Move(s, t, Idle).(readers := s.readers - {t})
  }

  /** The state after a sequence of actions, if each is enabled in its turn. */
  function RunFrom(c: Config, s: State, acts: seq<Action>): Option<State>
    requires ValidConfig(c)
  {
    if acts == [] then Some(s)
    else
      match RunFrom(c, s, acts[..|acts| - 1])
      case None => None
      case Some(r) =>
        if Enabled(c, r, acts[|acts| - 1]) then Some(Apply(c, r, acts[|acts| - 1])) else None
  }

  /** The states that `n` threads can reach. */
  function Run(c: Config, n: nat, acts: seq<Action>): Option<State>
    requires ValidConfig(c)
  {
    RunFrom(c, Init(n), acts)
  }

  // ---- Sums over threads ----

  datatype Measure =
    | Debt(i: Interest, f: Field)              // what a thread still has to add to a row
    | Lag(f: Field)                            // what it added to a LocalSocket row but not yet to All
    | Rank(newest: Option<nat>)                // how many steps its request can still take

  function Value(th: Thread, m: Measure): nat {
    match m
    case Debt(i, f) =>
      if th.Writing? && th.current.Some? && th.done <= 5
      then Owed(InterestsFromMsg(th.current.value)[th.done..], MsgStat(th.current.value), i).Get(f) else 0
    case Lag(f) =>
      if th.Writing? && th.current.Some? && 2 <= th.done <= 4 then MsgStat(th.current.value).Get(f) else 0
    case Rank(newest) => Remaining(th, newest)
  }

  function Remaining(th: Thread, newest: Option<nat>): nat {
    match th
    case Idle => 0
    case Viewing => 1
    case WantView => 2
    case Writing(_, msgs, current, done) =>
      1 + 7 * |msgs| + (if current.Some? && done <= 5 then 6 - done else 0)
    case WantReread(_, msgs) => 2 + 7 * |msgs|
    case Filling(ts, msgs) => 3 + 7 * |msgs| + Missing(ts, newest)
    case WantWrite(ts, msgs) => 5 + 7 * |msgs| + ts
    case Checking(ts, msgs) => 6 + 7 * |msgs| + ts
    case WantRead(ts, msgs) => 7 + 7 * |msgs| + ts
  }

  function Missing(ts: nat, newest: Option<nat>): nat {
    if newest == None then ts + 1 else if newest.value < ts then ts - newest.value else 0
  }

  function Sum(threads: seq<Thread>, m: Measure): nat {
    if threads == [] then 0 else Sum(threads[..|threads| - 1], m) + Value(threads[|threads| - 1], m)
  }

  /** A step of one thread changes a sum by that thread's change. */
  lemma {:induction false} SumChange(a: seq<Thread>, b: seq<Thread>, m: Measure, m': Measure, x: nat)
    requires |a| == |b| && x < |a|
    requires forall t | 0 <= t < |a| && t != x :: Value(a[t], m) == Value(b[t], m')
    ensures Sum(b, m') + Value(a[x], m) == Sum(a, m) + Value(b[x], m')
  {
    hide Value;
    var n := |a| - 1;
    if x == n {
      SumSame(a[..n], b[..n], m, m');
    } else {
      SumChange(a[..n], b[..n], m, m', x);
      assert Value(a[n], m) == Value(b[n], m');
    }
  }

  lemma {:induction false} SumSame(a: seq<Thread>, b: seq<Thread>, m: Measure, m': Measure)
    requires |a| == |b| && forall t | 0 <= t < |a| :: Value(a[t], m) == Value(b[t], m')
    ensures Sum(b, m') == Sum(a, m)
  {
    if a != [] {
      SumSame(a[..|a| - 1], b[..|b| - 1], m, m');
    }
  }

  lemma {:induction false} SumZero(a: seq<Thread>, m: Measure)
    requires forall t | 0 <= t < |a| :: Value(a[t], m) == 0
    ensures Sum(a, m) == 0
  {
    if a != [] {
      SumZero(a[..|a| - 1], m);
    }
  }

  /** The valid messages that threads have accepted responsibility for but not recorded yet. */
  function Waiting(th: Thread): multiset<Msg> {
    multiset(Accepted(Pending(th)))
  }

  function Pending(th: Thread): seq<Msg> {
    if th.HasRequest() then th.msgs else []
  }

  function Backlog(threads: seq<Thread>): multiset<Msg> {
    if threads == [] then multiset{}
    else Backlog(threads[..|threads| - 1]) + Waiting(threads[|threads| - 1])
  }

  lemma {:induction false} BacklogChange(a: seq<Thread>, x: nat, th: Thread)
    requires x < |a|
    ensures Backlog(a[x := th]) + Waiting(a[x]) == Backlog(a) + Waiting(th)
  {
    hide Waiting;
    var n := |a| - 1;
    if x == n {
      assert a[x := th][..n] == a[..n];
    } else {
      assert a[x := th][..n] == a[..n][x := th];
      BacklogChange(a[..n], x, th);
      var w := Waiting(a[n]);
      calc {
        Backlog(a[x := th]) + Waiting(a[x]);
        Backlog(a[..n][x := th]) + w + Waiting(a[x]);
        Backlog(a[..n][x := th]) + Waiting(a[x]) + w;
        Backlog(a[..n]) + Waiting(th) + w;
        Backlog(a[..n]) + w + Waiting(th);
        Backlog(a) + Waiting(th);
      }
    }
  }

  lemma {:induction false} BacklogEmpty(a: seq<Thread>)
    requires forall t | 0 <= t < |a| :: Waiting(a[t]) == multiset{}
    ensures Backlog(a) == multiset{}
  {
    if a != [] {
      BacklogEmpty(a[..|a| - 1]);
    }
  }
}
