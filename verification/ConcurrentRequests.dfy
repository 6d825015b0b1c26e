/** Whole requests under concurrency: where each batch lands, and how the shared store relates to a sequential run
    of the requests. */
module ConcurrentRequests {
  import opened Types
  import opened Clock
  import opened Traffic
  import opened Segments
  import opened Timeline
  import opened StoreSpec
  import opened ConcurrentModel
  import opened ConcurrentInvariant
  import opened ConcurrentLedger
  import opened ConcurrentTheorems

  // ---- A batch lands whole ----

  lemma WriterStays(c: Config, s: State, a: Action, t: nat)
    requires ValidConfig(c) && Enabled(c, s, a) && Locks(s) && t < |s.threads| && s.threads[t].Writing? && a != Finish(t)
    ensures var s' := Apply(c, s, a);
            |s'.threads| == |s.threads| && s'.threads[t].Writing? && |s'.history| == |s.history|
  {
    assert t in s.readers;
    hide Trunc;
    hide SetNewest;
  }

  /** What the invariant says about a step. */
  lemma StepFacts(c: Config, s: State, a: Action)
    requires ValidConfig(c) && Enabled(c, s, a) && Inv(c, s)
    ensures a.t < |s.threads| && Locks(s) && Times(c, s) && LockAt(s, a.t)
    ensures s.segments == [] <==> s.logs == []
    ensures s.segments != [] ==> Newest(s.segments).ts == Newest(s.logs).ts
    ensures a.Relock? ==> s.segments != []
    ensures Lands(a) ==> s.segments != [] && s.threads[a.t].ts <= Newest(s.segments).ts
    ensures s.threads[a.t].HasRequest() ==> s.threads[a.t].ts % c.window == 0 && s.threads[a.t].ts <= s.latest
  {
    NewestShared(c, s);
    PhaseOf(c, s, a.t);
  }

  lemma WriterHasWindow(c: Config, s: State, t: nat)
    requires ValidConfig(c) && Inv(c, s) && t < |s.threads| && s.threads[t].Writing?
    ensures s.history != []
  {
    PhaseOf(c, s, t);
  }

  /** From the moment a thread may write until it finishes, whatever the others do, no window is created: all of
      its batch goes into the window it found. */
  lemma {:induction false} BatchLandsWhole(c: Config, s: State, acts: seq<Action>, t: nat)
    requires ValidConfig(c) && Inv(c, s) && t < |s.threads| && s.threads[t].Writing?
    requires RunFrom(c, s, acts).Some? && forall k | 0 <= k < |acts| :: acts[k] != Finish(t)
    ensures var s' := RunFrom(c, s, acts).value;
            && t < |s'.threads| && s'.threads[t].Writing?
            && s.history != [] && |s'.history| == |s.history| && Newest(s'.history).ts == Newest(s.history).ts
  {
    hide Inv;
    hide Apply;
    hide Enabled;
    WriterHasWindow(c, s, t);
    if acts != [] {
      var init, a := acts[..|acts| - 1], acts[|acts| - 1];
      BatchLandsWhole(c, s, init, t);
      var r := RunFrom(c, s, init).value;
      RunInv(c, s, init);
      InvLocks(c, r);
      WriterStays(c, r, a, t);
      RunExtends(c, s, acts);
    }
  }

  // ---- Tallies over threads ----

  ghost function Tally<T>(threads: seq<Thread>, f: Thread -> multiset<T>): multiset<T> {
    if threads == [] then multiset{} else Tally(threads[..|threads| - 1], f) + f(threads[|threads| - 1])
  }

  lemma {:induction false} TallyChange<T>(threads: seq<Thread>, x: nat, th: Thread, f: Thread -> multiset<T>)
    requires x < |threads|
    ensures Tally(threads[x := th], f) + f(threads[x]) == Tally(threads, f) + f(th)
  {
    var n := |threads| - 1;
    var updated := threads[x := th];
    if x == n {
      assert updated[..n] == threads[..n];
    } else {
      assert updated[..n] == threads[..n][x := th];
      TallyChange(threads[..n], x, th, f);
      Swap(Tally(updated[..n], f), f(threads[x]), Tally(threads[..n], f), f(th), f(threads[n]));
    }
  }

  lemma Swap<T>(a: multiset<T>, b: multiset<T>, c: multiset<T>, d: multiset<T>, e: multiset<T>)
    requires a + b == c + d
    ensures (a + e) + b == (c + e) + d
  {
    forall x ensures ((a + e) + b)[x] == ((c + e) + d)[x] {
      assert (a + b)[x] == (c + d)[x];
    }
  }

  lemma {:induction false} TallyEmpty<T>(threads: seq<Thread>, f: Thread -> multiset<T>)
    requires forall t | 0 <= t < |threads| :: f(threads[t]) == multiset{}
    ensures Tally(threads, f) == multiset{}
  {
    if threads != [] {
      TallyEmpty(threads[..|threads| - 1], f);
    }
  }

  /** The valid messages of a batch that is landing but not yet inserted. */
  function Carried(th: Thread): multiset<Msg> {
    if th.Writing? then multiset(Accepted(th.msgs)) else multiset{}
  }

  /** A request that has not landed. */
  function Queued(th: Thread): multiset<Op> {
    if th.HasRequest() && !th.Writing? then multiset{Op(th.ts, th.msgs)} else multiset{}
  }

  // ---- Requests and landings ----

  predicate Lands(a: Action) {
    a.Hit? || a.Relock?
  }

  /** A request for window `asked` whose whole batch goes to window `at`, the newest when it got its guard. */
  datatype Landing = Landing(asked: nat, msgs: seq<Msg>, at: nat)

  function LandingOf(c: Config, s: State, a: Action): seq<Landing>
    requires Enabled(c, s, a)
  {
    if Lands(a) && s.segments != [] then
      [Landing(s.threads[a.t].ts, s.threads[a.t].msgs, Newest(s.segments).ts)]
    else []
  }

  function Landings(c: Config, s: State, acts: seq<Action>): seq<Landing>
    requires ValidConfig(c) && RunFrom(c, s, acts).Some?
  {
    if acts == [] then []
    else
      var init := acts[..|acts| - 1];
      Landings(c, s, init) + LandingOf(c, RunFrom(c, s, init).value, acts[|acts| - 1])
  }

  /** What each request does to a sequential store: one that goes through the slow path first asks for its window,
      and every one then submits its whole batch, for the window it asked for. */
  function OpsAt(c: Config, s: State, a: Action): seq<Op>
    requires Enabled(c, s, a)
  {
    if a.UnlockSlow? then [Op(s.threads[a.t].ts, [])]
    else if Lands(a) then [Op(s.threads[a.t].ts, s.threads[a.t].msgs)]
    else []
  }

  function Requests(c: Config, s: State, acts: seq<Action>): seq<Op>
    requires ValidConfig(c) && RunFrom(c, s, acts).Some?
  {
    if acts == [] then []
    else
      var init := acts[..|acts| - 1];
      Requests(c, s, init) + OpsAt(c, RunFrom(c, s, init).value, acts[|acts| - 1])
  }

  /** The timeline with every batch recorded at once when it lands. */
  function WholeStep(c: Config, s: State, whole: Logs, a: Action): Logs
    requires Enabled(c, s, a)
  {
    if a.Push? then whole + [Timed(NextTs(c, s, s.threads[a.t].ts), [])]
    else if Lands(a) && s.segments != [] && whole != [] then
      SetNewest(whole, Newest(whole).body + Accepted(s.threads[a.t].msgs))
    else whole
  }

  function Whole(c: Config, s: State, acts: seq<Action>): Logs
    requires ValidConfig(c) && RunFrom(c, s, acts).Some?
  {
    if acts == [] then []
    else
      var init := acts[..|acts| - 1];
      WholeStep(c, RunFrom(c, s, init).value, Whole(c, s, init), acts[|acts| - 1])
  }

  // ---- Whole batches and messages ----

  /** The same windows, and in each the same messages, but for those in flight to the newest. */
  ghost predicate SameBut(whole: Logs, logs: Logs, flying: multiset<Msg>) {
    && |whole| == |logs|
    && (forall k | 0 <= k < |whole| :: whole[k].ts == logs[k].ts)
    && (forall k | 0 <= k < |whole| - 1 :: multiset(whole[k].body) == multiset(logs[k].body))
    && (whole != [] ==> multiset(Newest(whole).body) == multiset(Newest(logs).body) + flying)
  }

  /** Which steps start and end writing, and which take a message. */
  lemma WritingStep(c: Config, s: State, a: Action)
    requires ValidConfig(c) && Enabled(c, s, a)
    ensures var th, th' := s.threads[a.t], Apply(c, s, a).threads[a.t];
            && (Lands(a) ==> !th.Writing? && th.HasRequest() && th'.Writing? && th'.msgs == th.msgs && th'.ts == th.ts)
            && (a.InsertSocket? || a.Reject? ==> th.Writing? && th.msgs != [] && th'.Writing? && th'.msgs == th.msgs[1..])
            && (a.InsertSocket? ==> th.msgs[0].ret >= 0) && (a.Reject? ==> th.msgs[0].ret < 0)
            && (a.Increment? ==> th.Writing? && th'.Writing? && th'.msgs == th.msgs)
            && (a.Finish? ==> th.Writing? && th.msgs == [] && !th'.HasRequest())
            && (!Lands(a) && !a.InsertSocket? && !a.Reject? && !a.Increment? && !a.Finish? ==> !th.Writing? && !th'.Writing?)
  {
    hide Trunc;
    hide SetNewest;
  }

  /** How one step changes what its thread carries. */
  lemma CarriedStep(c: Config, s: State, a: Action)
    requires ValidConfig(c) && Enabled(c, s, a)
    ensures var th, th' := s.threads[a.t], Apply(c, s, a).threads[a.t];
            Carried(th) + Landed(s, a) == Carried(th') + Recorded(c, s, a)
  {
    WritingStep(c, s, a);
    hide Apply;
    hide Enabled;
    hide Accepted;
    var th := s.threads[a.t];
    if a.InsertSocket? || a.Reject? {
      FirstOut(th.msgs);
    } else if a.Finish? {
      NothingToAccept();
    }
  }

  /** The valid messages of the batch that a step lands. */
  function Landed(s: State, a: Action): multiset<Msg>
    requires a.t < |s.threads|
  {
    if Lands(a) && s.threads[a.t].HasRequest() then multiset(Accepted(s.threads[a.t].msgs)) else multiset{}
  }

  lemma FlyingStep(c: Config, s: State, a: Action)
    requires ValidConfig(c) && Enabled(c, s, a)
    ensures Tally(s.threads, Carried) + Landed(s, a) == Tally(Apply(c, s, a).threads, Carried) + Recorded(c, s, a)
  {
    CarriedStep(c, s, a);
    OneMoves(c, s, a);
    var s' := Apply(c, s, a);
    TallyChange(s.threads, a.t, s'.threads[a.t], Carried);
    hide *;
    Balance(Tally(s.threads, Carried), Tally(s'.threads, Carried), Carried(s.threads[a.t]), Carried(s'.threads[a.t]),
            Landed(s, a), Recorded(c, s, a));
  }

  lemma Balance<T>(a: multiset<T>, a': multiset<T>, x: multiset<T>, x': multiset<T>, p: multiset<T>, q: multiset<T>)
    requires a' + x == a + x' && x + p == x' + q
    ensures a + p == a' + q
  {
    forall y ensures (a + p)[y] == (a' + q)[y] {
      assert (a' + x)[y] == (a + x')[y] && (x + p)[y] == (x' + q)[y];
    }
  }

  lemma NobodyWrites(s: State)
    requires Locks(s) && s.writer.Some?
    ensures Tally(s.threads, Carried) == multiset{}
  {
    forall t | 0 <= t < |s.threads| ensures Carried(s.threads[t]) == multiset{} {
      assert t !in s.readers;
    }
    TallyEmpty(s.threads, Carried);
  }

  lemma SameButPush(whole: Logs, logs: Logs, ts: nat)
    requires SameBut(whole, logs, multiset{})
    ensures SameBut(whole + [Timed(ts, [])], logs + [Timed(ts, [])], multiset{})
  {
    forall k | 0 <= k < |whole| ensures multiset(whole[k].body) == multiset(logs[k].body) {
    }
  }

  lemma SameButLand(whole: Logs, logs: Logs, flying: multiset<Msg>, msgs: seq<Msg>)
    requires SameBut(whole, logs, flying) && whole != []
    ensures SameBut(SetNewest(whole, Newest(whole).body + msgs), logs, flying + multiset(msgs))
  {
  }

  lemma SameButInsert(whole: Logs, logs: Logs, flying: multiset<Msg>, m: Msg)
    requires SameBut(whole, logs, flying + multiset{m}) && whole != []
    ensures SameBut(whole, SetNewest(logs, Newest(logs).body + [m]), flying)
  {
    var body := Newest(logs).body;
    assert multiset(body + [m]) == multiset(body) + multiset{m};
    assert multiset(body) + (flying + multiset{m}) == (multiset(body) + multiset{m}) + flying;
  }

  lemma SameButStep(c: Config, s: State, a: Action, whole: Logs)
    requires ValidConfig(c) && Enabled(c, s, a) && Inv(c, s) && SameBut(whole, s.logs, Tally(s.threads, Carried))
    ensures SameBut(WholeStep(c, s, whole, a), Apply(c, s, a).logs, Tally(Apply(c, s, a).threads, Carried))
  {
    hide Inv;
    hide Tally;
    hide Carried;
    hide Apply;
    StepFacts(c, s, a);
    FlyingStep(c, s, a);
    hide Times;
    hide Locks;
    hide LockAt;
    if a.Push? {
      PushStep(c, s, a, whole);
    } else if Lands(a) {
      LandStep(c, s, a, whole, Tally(s.threads, Carried), Tally(Apply(c, s, a).threads, Carried));
    } else if a.InsertSocket? {
      InsertStep(c, s, a, whole, Tally(s.threads, Carried), Tally(Apply(c, s, a).threads, Carried));
    } else {
      StoreUntouchedOrRow(c, s, a);
      hide SameBut;
      SameTally(Tally(s.threads, Carried), Tally(Apply(c, s, a).threads, Carried));
    }
  }

  lemma SameTally<T>(a: multiset<T>, b: multiset<T>)
    requires a + multiset{} == b + multiset{}
    ensures a == b
  {
    assert a + multiset{} == a && b + multiset{} == b;
  }

  lemma LandStep(c: Config, s: State, a: Action, whole: Logs, flying: multiset<Msg>, flying': multiset<Msg>)
    requires ValidConfig(c) && Enabled(c, s, a) && Lands(a) && SameBut(whole, s.logs, flying)
    requires whole != [] && s.segments != [] && flying + Landed(s, a) == flying' + Recorded(c, s, a)
    ensures SameBut(WholeStep(c, s, whole, a), Apply(c, s, a).logs, flying')
  {
    StoreUntouched(c, s, a);
    WritingStep(c, s, a);
    hide Apply;
    SameTally(flying + Landed(s, a), flying');
    SameButLand(whole, s.logs, flying, Accepted(s.threads[a.t].msgs));
    hide SameBut;
  }

  lemma InsertStep(c: Config, s: State, a: Action, whole: Logs, flying: multiset<Msg>, flying': multiset<Msg>)
    requires ValidConfig(c) && Enabled(c, s, a) && a.InsertSocket? && SameBut(whole, s.logs, flying)
    requires flying + Landed(s, a) == flying' + Recorded(c, s, a)
    ensures SameBut(WholeStep(c, s, whole, a), Apply(c, s, a).logs, flying')
  {
    var m := s.threads[a.t].msgs[0];
    SameTally(flying, flying' + multiset{m});
    SameButInsert(whole, s.logs, flying', m);
    hide SameBut;
  }

  lemma PushStep(c: Config, s: State, a: Action, whole: Logs)
    requires ValidConfig(c) && Enabled(c, s, a) && a.Push? && Locks(s) && SameBut(whole, s.logs, Tally(s.threads, Carried))
    ensures SameBut(WholeStep(c, s, whole, a), Apply(c, s, a).logs, Tally(Apply(c, s, a).threads, Carried))
  {
    NobodyWrites(s);
    hide Tally;
    hide Carried;
    SameButPush(whole, s.logs, NextTs(c, s, s.threads[a.t].ts));
    hide SameBut;
  }

  // ---- Whole batches and the sequential store ----

  /** Outside the slow path the whole batches are a sequential run; inside it, they will be once it is over. */
  ghost predicate Follows(c: Config, s: State, whole: Logs, ops: seq<Op>)
    requires ValidConfig(c)
  {
    var run := SeqRun(c.window, ops);
    match s.writer
    case None => run == whole
    case Some(t) =>
      && t < |s.threads| && s.threads[t].Filling?
      && Fill(run, s.threads[t].ts, c.window, []) == Fill(whole, s.threads[t].ts, c.window, [])
  }

  lemma SeqRunSnoc(window: nat, ops: seq<Op>, op: Op)
    requires 0 < window < U64
    ensures SeqRun(window, ops + [op]) == SeqStep(window, SeqRun(window, ops), op)
  {
    assert (ops + [op])[..|ops|] == ops;
  }

  /** Asking for a window without messages fills the timeline. */
  lemma AskStep(window: nat, logs: Logs, ts: nat)
    requires 0 < window < U64 && ts < U64 && ts % window == 0
    ensures SeqStep(window, logs, Op(ts, [])) == Fill(logs, ts, window, [])
  {
    TruncAligned(ts, window);
    RecordNothing(Fill(logs, ts, window, []));
  }

  /** A batch for the newest window or an earlier one is recorded in the newest. */
  lemma RecordStep(window: nat, logs: Logs, ts: nat, msgs: seq<Msg>)
    requires 0 < window < U64 && logs != [] && ts <= Newest(logs).ts && ts < U64 && ts % window == 0
    ensures SeqStep(window, logs, Op(ts, msgs)) == SetNewest(logs, Newest(logs).body + Accepted(msgs))
  {
    TruncAligned(ts, window);
  }

  lemma FollowsStep(c: Config, s: State, a: Action, whole: Logs, ops: seq<Op>)
    requires ValidConfig(c) && Enabled(c, s, a) && Inv(c, s) && InRange(s)
    requires SameBut(whole, s.logs, Tally(s.threads, Carried)) && Follows(c, s, whole, ops)
    ensures Follows(c, Apply(c, s, a), WholeStep(c, s, whole, a), ops + OpsAt(c, s, a))
  {
    hide Inv;
    hide Apply;
    StepFacts(c, s, a);
    NewestAligned(c, s);
    hide Times;
    hide Locks;
    hide LockAt;
    assert |whole| == |s.logs| && (whole != [] ==> Newest(whole).ts == Newest(s.logs).ts);
    hide SameBut;
    hide Follows;
    if a.UnlockSlow? {
      UnlockFollows(c, s, a, whole, ops);
    } else if Lands(a) {
      LandFollows(c, s, a, whole, ops);
    } else {
      assert ops + OpsAt(c, s, a) == ops;
      QuietFollows(c, s, a, whole, ops);
    }
  }

  lemma UnlockFollows(c: Config, s: State, a: Action, whole: Logs, ops: seq<Op>)
    requires ValidConfig(c) && Enabled(c, s, a) && a.UnlockSlow? && LockAt(s, a.t) && Follows(c, s, whole, ops)
    requires whole != [] && Newest(whole).ts >= s.threads[a.t].ts
    requires s.threads[a.t].ts < U64 && s.threads[a.t].ts % c.window == 0
    ensures Follows(c, Apply(c, s, a), WholeStep(c, s, whole, a), ops + OpsAt(c, s, a))
  {
    var ts := s.threads[a.t].ts;
    SeqRunSnoc(c.window, ops, Op(ts, []));
    AskStep(c.window, SeqRun(c.window, ops), ts);
    UnlockedIs(c, s, a);
    hide Apply;
    hide SeqRun;
    hide SeqStep;
  }

  lemma LandFollows(c: Config, s: State, a: Action, whole: Logs, ops: seq<Op>)
    requires ValidConfig(c) && Enabled(c, s, a) && Lands(a) && LockAt(s, a.t) && Follows(c, s, whole, ops)
    requires whole != [] && s.segments != [] && Newest(whole).ts == Newest(s.segments).ts
    requires s.threads[a.t].ts <= Newest(whole).ts
    requires s.threads[a.t].ts < U64 && s.threads[a.t].ts % c.window == 0
    ensures Follows(c, Apply(c, s, a), WholeStep(c, s, whole, a), ops + OpsAt(c, s, a))
  {
    SeqRunSnoc(c.window, ops, Op(s.threads[a.t].ts, s.threads[a.t].msgs));
    RecordStep(c.window, whole, s.threads[a.t].ts, s.threads[a.t].msgs);
    LandedIs(c, s, a);
    hide Apply;
    hide SeqRun;
    hide SeqStep;
    hide Fill;
  }

  lemma NewestAligned(c: Config, s: State)
    requires ValidConfig(c) && Inv(c, s) && InRange(s)
    ensures s.history != [] ==> Newest(s.history).ts < U64 && Newest(s.history).ts % c.window == 0
    ensures s.segments != [] ==> s.history != [] && Newest(s.segments) == Newest(s.history)
  {
    NewestShared(c, s);
    if s.history != [] {
      RegularAligned(s.history, c.window, |s.history| - 1);
    }
  }

  lemma UnlockedIs(c: Config, s: State, a: Action)
    requires ValidConfig(c) && Enabled(c, s, a) && a.UnlockSlow?
    ensures Apply(c, s, a).writer == None
    ensures s.segments != [] && Newest(s.segments).ts >= s.threads[a.t].ts
  {
  }

  lemma LandedIs(c: Config, s: State, a: Action)
    requires ValidConfig(c) && Enabled(c, s, a) && Lands(a) && LockAt(s, a.t)
    ensures s.writer == None && Apply(c, s, a).writer == None
  {
  }

  lemma QuietFollows(c: Config, s: State, a: Action, whole: Logs, ops: seq<Op>)
    requires ValidConfig(c) && Enabled(c, s, a) && Locks(s) && !a.UnlockSlow? && !Lands(a)
    requires a.Push? ==> Times(c, s) && |whole| == |s.logs| && (whole != [] ==> Newest(whole).ts == Newest(s.logs).ts)
    requires Follows(c, s, whole, ops)
    ensures Follows(c, Apply(c, s, a), WholeStep(c, s, whole, a), ops)
  {
    hide SeqRun;
    if a.Push? {
      PushFollows(c, s, a, whole, ops);
    } else {
      WriterKept(c, s, a);
      hide Apply;
      hide Enabled;
    }
  }

  lemma WriterKept(c: Config, s: State, a: Action)
    requires ValidConfig(c) && Enabled(c, s, a) && Locks(s) && !a.UnlockSlow? && !Lands(a) && !a.Push?
    ensures var s' := Apply(c, s, a);
            if a.LockSlow? then s.writer == None && s'.writer == Some(a.t) && a.t < |s'.threads| && s'.threads[a.t].Filling?
            else s'.writer == s.writer && (s.writer.Some? ==>
              s.writer.value < |s.threads| == |s'.threads| && s'.threads[s.writer.value] == s.threads[s.writer.value])
  {
    OneMoves(c, s, a);
    assert LockAt(s, a.t);
    hide SetNewest;
    hide Trunc;
    hide Locks;
    assert s.writer.Some? ==> s.writer.value < |s.threads| by { assert Locks(s); WriterIsThread(s); }
  }

  lemma WriterIsThread(s: State)
    requires Locks(s)
    ensures s.writer.Some? ==> s.writer.value < |s.threads|
  {
  }

  lemma FillOnce(h: Logs, ts: nat, window: nat)
    requires 0 < window && (h == [] || Newest(h).ts < ts)
    ensures Fill(h + [Timed(if h == [] then ts else Newest(h).ts + window, [])], ts, window, []) == Fill(h, ts, window, [])
  {
  }

  lemma PushFollows(c: Config, s: State, a: Action, whole: Logs, ops: seq<Op>)
    requires ValidConfig(c) && Enabled(c, s, a) && Locks(s) && a.Push?
    requires Times(c, s) && |whole| == |s.logs| && (whole != [] ==> Newest(whole).ts == Newest(s.logs).ts)
    requires Follows(c, s, whole, ops)
    ensures Follows(c, Apply(c, s, a), WholeStep(c, s, whole, a), ops)
  {
    NewestShared(c, s);
    assert LockAt(s, a.t);
    FillOnce(whole, s.threads[a.t].ts, c.window);
    hide Fill;
    hide SeqRun;
    hide Locks;
    hide Times;
  }

  lemma {:induction false} WholeRun(c: Config, n: nat, acts: seq<Action>)
    requires ValidConfig(c) && Run(c, n, acts).Some?
    ensures var s, whole := Run(c, n, acts).value, Whole(c, Init(n), acts);
            && SameBut(whole, s.logs, Tally(s.threads, Carried))
            && Follows(c, s, whole, Requests(c, Init(n), acts))
  {
    hide Apply;
    hide Enabled;
    hide SameBut;
    hide Follows;
    if acts == [] {
      WholeStart(c, n);
    } else {
      var init, a := acts[..|acts| - 1], acts[|acts| - 1];
      var s, whole, ops := Run(c, n, init).value, Whole(c, Init(n), init), Requests(c, Init(n), init);
      WholeRun(c, n, init);
      Reachable(c, n, init);
      RunInRange(c, n, init);
      hide Inv;
      SameButStep(c, s, a, whole);
      FollowsStep(c, s, a, whole, ops);
    }
  }

  lemma WholeStart(c: Config, n: nat)
    requires ValidConfig(c)
    ensures SameBut([], Init(n).logs, Tally(Init(n).threads, Carried)) && Follows(c, Init(n), [], [])
  {
  }

  /** Requests take effect one by one: whenever nobody is in the slow path, the store has exactly the windows of a
      sequential run in which each slow request asks for its window when it lets go of the write guard, and each
      batch is recorded whole when it gets its read guard; and in every window the same messages, but for those of
      landed batches still to be inserted into the newest. */
  lemma RequestsLinearize(c: Config, n: nat, acts: seq<Action>)
    requires ValidConfig(c) && Run(c, n, acts).Some? && Run(c, n, acts).value.writer == None
    ensures var s := Run(c, n, acts).value;
            SameBut(SeqRun(c.window, Requests(c, Init(n), acts)), s.logs, Tally(s.threads, Carried))
  {
    WholeRun(c, n, acts);
  }

  ghost predicate AllIdle(s: State) {
    forall t | 0 <= t < |s.threads| :: s.threads[t].Idle?
  }

  /** The same windows with the same messages in each. */
  ghost predicate SameMessages(a: Logs, b: Logs) {
    && |a| == |b|
    && forall k | 0 <= k < |a| :: a[k].ts == b[k].ts && multiset(a[k].body) == multiset(b[k].body)
  }

  lemma IdleFacts(c: Config, s: State)
    requires ValidConfig(c) && Inv(c, s) && AllIdle(s)
    ensures s.writer == None && Tally(s.threads, Carried) == multiset{} && Tally(s.threads, Queued) == multiset{}
    ensures AgreeAll(s.history, s.logs)
  {
    LockIsFree(c, s);
    TallyEmpty(s.threads, Carried);
    TallyEmpty(s.threads, Queued);
    SettledAgrees(c, s);
  }

  lemma NothingFlies(a: Logs, b: Logs)
    requires SameBut(a, b, multiset{})
    ensures SameMessages(a, b)
  {
    forall k | 0 <= k < |a| ensures multiset(a[k].body) == multiset(b[k].body) {
    }
  }

  lemma QuiescentLinearize(c: Config, n: nat, acts: seq<Action>)
    requires ValidConfig(c) && Run(c, n, acts).Some? && AllIdle(Run(c, n, acts).value)
    ensures SameMessages(SeqRun(c.window, Requests(c, Init(n), acts)), Run(c, n, acts).value.logs)
    ensures AgreeAll(Run(c, n, acts).value.history, Run(c, n, acts).value.logs)
  {
    Reachable(c, n, acts);
    IdleFacts(c, Run(c, n, acts).value);
    RequestsLinearize(c, n, acts);
    hide *;
    NothingFlies(SeqRun(c.window, Requests(c, Init(n), acts)), Run(c, n, acts).value.logs);
  }

  /** Agreement with a log does not depend on the order of its messages. */
  lemma AgreesPermuted(d: SegmentData, log: seq<Msg>, log': seq<Msg>)
    requires Agrees(d, log) && multiset(log) == multiset(log')
    ensures Agrees(d, log')
  {
    forall i ensures Row(d.index, i) == Fold(log', i) {
      FoldPermutation(log, log', i);
    }
    SameMembers(log, log');
    hide Fold;
    assert Locals(log) == Locals(log');
    forall a | a in d.socks ensures Represents(d.socks[a], a, log') {
      assert Represents(d.socks[a], a, log);
      var m :| m in log && SocketOf(m) == d.socks[a];
      assert m in log';
    }
  }

  lemma SameMembers(log: seq<Msg>, log': seq<Msg>)
    requires multiset(log) == multiset(log')
    ensures forall m :: m in log <==> m in log'
  {
    forall m ensures m in log <==> m in log' {
      assert m in log <==> m in multiset(log);
      assert m in log' <==> m in multiset(log');
    }
  }

  /** Serial equivalence: when every thread is done, each window ever created has the index and the socket addresses
      that the sequential run of the requests gives it: the agreement with its log determines the index. */
  lemma SerialEquivalence(c: Config, n: nat, acts: seq<Action>)
    requires ValidConfig(c) && Run(c, n, acts).Some? && AllIdle(Run(c, n, acts).value)
    ensures var s, run := Run(c, n, acts).value, SeqRun(c.window, Requests(c, Init(n), acts));
            && AgreeAll(s.history, run)
            && (forall k, index | 0 <= k < |run| && RowsAgree(index, run[k].body) :: s.history[k].body.index == index)
  {
    var s, run := Run(c, n, acts).value, SeqRun(c.window, Requests(c, Init(n), acts));
    QuiescentLinearize(c, n, acts);
    hide *;
    SerialIndexes(s.history, s.logs, run);
  }

  lemma SerialIndexes(history: History, logs: Logs, run: Logs)
    requires AgreeAll(history, logs) && SameMessages(run, logs)
    ensures AgreeAll(history, run)
    ensures forall k, index | 0 <= k < |run| && RowsAgree(index, run[k].body) :: history[k].body.index == index
  {
    forall k | 0 <= k < |run| ensures Agrees(history[k].body, run[k].body) {
      hide Agrees;
      AgreesPermuted(history[k].body, logs[k].body, run[k].body);
    }
    forall k, index | 0 <= k < |run| && RowsAgree(index, run[k].body) ensures history[k].body.index == index {
      hide RowsAgree;
      hide SocksAgree;
      IndexDetermined(history[k].body.index, index, run[k].body, run[k].body);
    }
  }
}
