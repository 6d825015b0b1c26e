/** The race between dropping the write guard and taking the read guard, as a run. */
module ConcurrentRace {
  import opened Types
  import opened Clock
  import opened Traffic
  import opened Segments
  import opened Timeline
  import opened StoreSpec
  import opened ConcurrentModel
  import opened ConcurrentInvariant
  import opened ConcurrentLedger
  import opened ConcurrentTheorems
  import opened ConcurrentRequests
  import opened SerialOrder
  import opened ConcurrentSerial
  import opened ConcurrentContents

  // ---- Joining runs ----

  lemma {:induction false} RunConcat(c: Config, s: State, a: seq<Action>, b: seq<Action>)
    requires ValidConfig(c) && RunFrom(c, s, a).Some?
    ensures RunFrom(c, s, a + b) == RunFrom(c, RunFrom(c, s, a).value, b)
  {
    hide Apply;
    hide Enabled;
    if b == [] {
      assert a + b == a;
    } else {
      RunConcat(c, s, a, b[..|b| - 1]);
      assert (a + b)[..|a + b| - 1] == a + b[..|b| - 1];
    }
  }

  lemma RunOne(c: Config, s: State, a: Action)
    requires ValidConfig(c) && Enabled(c, s, a)
    ensures RunFrom(c, s, [a]) == Some(Apply(c, s, a))
    ensures Landings(c, s, [a]) == LandingOf(c, s, a)
  {
    assert [a][..|[a]| - 1] == [];
    assert RunFrom(c, s, []) == Some(s);
    assert Landings(c, s, []) == [];
  }

  lemma {:induction false} LandingsConcat(c: Config, s: State, a: seq<Action>, b: seq<Action>)
    requires ValidConfig(c) && RunFrom(c, s, a).Some? && RunFrom(c, RunFrom(c, s, a).value, b).Some?
    ensures RunFrom(c, s, a + b).Some?
    ensures Landings(c, s, a + b) == Landings(c, s, a) + Landings(c, RunFrom(c, s, a).value, b)
  {
    hide Apply;
    hide Enabled;
    hide LandingOf;
    RunConcat(c, s, a, b);
    if b == [] {
      assert a + b == a;
    } else {
      LandingsConcat(c, s, a, b[..|b| - 1]);
      RunConcat(c, s, a, b[..|b| - 1]);
      assert (a + b)[..|a + b| - 1] == a + b[..|b| - 1];
    }
  }

  // ---- Every run can finish ----

  /** From every state that satisfies the invariant some run that starts nothing new finishes all requests. */
  lemma {:induction false} Completion(c: Config, s: State) returns (acts: seq<Action>)
    requires ValidConfig(c) && Inv(c, s)
    ensures forall k | 0 <= k < |acts| :: !ConcurrentTheorems.Starts(acts[k])
    ensures RunFrom(c, s, acts).Some? && AllIdle(RunFrom(c, s, acts).value)
    decreases Work(s)
  {
    hide Apply;
    hide Enabled;
    hide Inv;
    acts := [];
    if t :| 0 <= t < |s.threads| && !s.threads[t].Idle? {
      var u := SomeoneCanStep(c, s, t);
      var a := NextOf(c, s, u);
      InvStep(c, s, a);
      InvLocks(c, s);
      StepsUseWork(c, s, a);
      var rest := Completion(c, Apply(c, s, a));
      RunOne(c, s, a);
      RunConcat(c, s, [a], rest);
      acts := [a] + rest;
    }
  }

  /** No thread is on its way to landing. */
  ghost predicate NoneOnItsWay(s: State) {
    forall t | 0 <= t < |s.threads| :: !OnItsWay(s.threads[t])
  }

  lemma NoneStarts(c: Config, s: State, a: Action)
    requires ValidConfig(c) && Enabled(c, s, a) && NoneOnItsWay(s) && !ConcurrentTheorems.Starts(a)
    ensures NoneOnItsWay(Apply(c, s, a)) && LandingOf(c, s, a) == []
  {
    RequestStep(c, s, a);
    OneMoves(c, s, a);
    hide Apply;
    hide Enabled;
  }

  lemma {:induction false} NoMoreLandings(c: Config, s: State, acts: seq<Action>)
    requires ValidConfig(c) && RunFrom(c, s, acts).Some? && NoneOnItsWay(s)
    requires forall k | 0 <= k < |acts| :: !ConcurrentTheorems.Starts(acts[k])
    ensures Landings(c, s, acts) == [] && NoneOnItsWay(RunFrom(c, s, acts).value)
  {
    hide Apply;
    hide Enabled;
    hide NoneOnItsWay;
    hide LandingOf;
    if acts != [] {
      var init := acts[..|acts| - 1];
      NoMoreLandings(c, s, init);
      NoneStarts(c, RunFrom(c, s, init).value, acts[|acts| - 1]);
    }
  }

  // ---- Two requests that race ----

  const RACE: Config := Config(100, 10)

  function Blank(ts: nat): Timed<SegmentData> {
    Timed(ts, EmptyData())
  }

  function BlankLog(ts: nat): Timed<seq<Msg>> {
    Timed(ts, [])
  }

  /** Two threads, nobody holding a guard. */
  function TwoThreads(a: Thread, b: Thread, starts: seq<nat>, submitted: multiset<Msg>): State {
    var windows := seq(|starts|, k requires 0 <= k < |starts| => Blank(starts[k]));
    State([a, b], {}, None, windows, windows, seq(|starts|, k requires 0 <= k < |starts| => BlankLog(starts[k])), 200, submitted)
  }

  /** A run that reaches `s` with these landings. */
  ghost predicate Reaches(acts: seq<Action>, s: State, ls: seq<Landing>) {
    Run(RACE, 2, acts) == Some(s) && Landings(RACE, Init(2), acts) == ls
  }

  lemma Extend(acts: seq<Action>, s: State, ls: seq<Landing>, a: Action)
    requires Reaches(acts, s, ls) && Enabled(RACE, s, a)
    ensures Reaches(acts + [a], Apply(RACE, s, a), ls + LandingOf(RACE, s, a))
  {
    assert (acts + [a])[..|acts + [a]| - 1] == acts;
    hide Apply;
    hide Enabled;
    hide LandingOf;
  }

  /** A step that lands nothing. */
  lemma Quietly(acts: seq<Action>, s: State, ls: seq<Landing>, a: Action, s': State)
    requires Reaches(acts, s, ls) && Enabled(RACE, s, a) && !Lands(a) && s' == Apply(RACE, s, a)
    ensures Reaches(acts + [a], s', ls)
  {
    Extend(acts, s, ls, a);
    assert ls + LandingOf(RACE, s, a) == ls;
  }

  lemma Truncs()
    ensures Trunc(100, 100) == 100 && Trunc(200, 100) == 200
  {
  }

  lemma BothBegin(m: Msg, k: Msg) returns (acts: seq<Action>, submitted: multiset<Msg>)
    ensures Reaches(acts, TwoThreads(WantRead(100, [m]), WantRead(200, [k]), [], submitted), [])
  {
    hide Accepted;
    hide Trunc;
    Truncs();
    assert RACE.window == 100;
    var s := Init(2);
    assert Reaches([], s, []);
    hide Reaches;
    var a, b := Begin(0, 100, [m]), Begin(1, 200, [k]);
    var s1 := Apply(RACE, s, a);
    Quietly([], s, [], a, s1);
    var s2 := Apply(RACE, s1, b);
    Quietly([] + [a], s1, [], b, s2);
    acts := [] + [a] + [b];
    submitted := s2.submitted;
    assert s2.threads == [WantRead(100, [m]), WantRead(200, [k])] && s2.latest == 200;
    assert s2 == TwoThreads(WantRead(100, [m]), WantRead(200, [k]), [], submitted);
  }

  /** Both requests begin and miss the fast path. */
  lemma BothMiss(m: Msg, k: Msg) returns (acts: seq<Action>, submitted: multiset<Msg>)
    ensures Reaches(acts, TwoThreads(WantWrite(100, [m]), WantWrite(200, [k]), [], submitted), [])
  {
    hide Reaches;
    acts, submitted := BothBegin(m, k);
    var s := TwoThreads(WantRead(100, [m]), WantRead(200, [k]), [], submitted);
    acts := Misses(acts, s, 0);
    var s1 := Move(s, 0, WantWrite(100, [m]));
    acts := Misses(acts, s1, 1);
    assert Move(s1, 1, WantWrite(200, [k])) == TwoThreads(WantWrite(100, [m]), WantWrite(200, [k]), [], submitted);
  }

  lemma Misses(acts: seq<Action>, s: State, t: nat) returns (acts': seq<Action>)
    requires Reaches(acts, s, []) && t < |s.threads| && s.threads[t].WantRead? && s.writer == None && s.segments == []
    requires t !in s.readers
    ensures Reaches(acts', Move(s, t, WantWrite(s.threads[t].ts, s.threads[t].msgs)), [])
  {
    hide Reaches;
    var th := s.threads[t];
    var s1 := Apply(RACE, s, LockFast(t));
    Quietly(acts, s, [], LockFast(t), s1);
    var s2 := Apply(RACE, s1, Miss(t));
    Quietly(acts + [LockFast(t)], s1, [], Miss(t), s2);
    acts' := acts + [LockFast(t)] + [Miss(t)];
    assert s2.readers == s.readers;
    assert s2 == Move(s, t, WantWrite(th.ts, th.msgs));
  }

  /** One thread goes through its slow path and lets go of the write guard. */
  lemma FillsOne(acts: seq<Action>, s: State, t: nat) returns (acts': seq<Action>, s': State)
    requires Reaches(acts, s, []) && t < |s.threads| && s.threads[t].WantWrite? && s.writer == None && s.readers == {}
    requires |s.segments| < 10 && Outdated(s.segments, s.threads[t].ts)
    requires NextTs(RACE, s, s.threads[t].ts) == s.threads[t].ts
    ensures Reaches(acts', s', [])
    ensures var th := s.threads[t];
            s' == Move(s, t, WantReread(th.ts, th.msgs))
                    .(segments := s.segments + [Blank(th.ts)], history := s.history + [Blank(th.ts)], logs := s.logs + [BlankLog(th.ts)])
  {
    hide Reaches;
    var th := s.threads[t];
    var s1 := Apply(RACE, s, LockSlow(t));
    Quietly(acts, s, [], LockSlow(t), s1);
    var s2 := Apply(RACE, s1, Push(t));
    Quietly(acts + [LockSlow(t)], s1, [], Push(t), s2);
    s' := Apply(RACE, s2, UnlockSlow(t));
    Quietly(acts + [LockSlow(t)] + [Push(t)], s2, [], UnlockSlow(t), s');
    acts' := acts + [LockSlow(t)] + [Push(t)] + [UnlockSlow(t)];
  }

  /** Both slow paths are over before either thread takes its read guard: both batches land in the later window. */
  lemma BothLandLate(m: Msg, k: Msg) returns (acts: seq<Action>, s: State)
    ensures Reaches(acts, s, [Landing(100, [m], 200), Landing(200, [k], 200)])
    ensures NoneOnItsWay(s) && s.history != [] && s.history[0].ts == 100
  {
    hide Reaches;
    var submitted;
    acts, submitted := BothMiss(m, k);
    var s0 := TwoThreads(WantWrite(100, [m]), WantWrite(200, [k]), [], submitted);
    var s1, s2;
    acts, s1 := FillsOne(acts, s0, 0);
    acts, s2 := FillsOne(acts, s1, 1);
    assert s2.threads == [WantReread(100, [m]), WantReread(200, [k])] && Newest(s2.segments).ts == 200;
    var ls: seq<Landing> := [];
    Extend(acts, s2, ls, Relock(0));
    var s3 := Apply(RACE, s2, Relock(0));
    assert ls + LandingOf(RACE, s2, Relock(0)) == [Landing(100, [m], 200)];
    Extend(acts + [Relock(0)], s3, [Landing(100, [m], 200)], Relock(1));
    assert [Landing(100, [m], 200)] + LandingOf(RACE, s3, Relock(1)) == [Landing(100, [m], 200), Landing(200, [k], 200)];
    s := Apply(RACE, s3, Relock(1));
    acts := acts + [Relock(0)] + [Relock(1)];
  }

  /** No order of the two requests gives what a finished run with these landings leaves behind. */
  lemma NoOrderExplains(m: Msg, k: Msg, logs: Logs)
    requires m.ret >= 0
    requires Finished(100, [Landing(100, [m], 200), Landing(200, [k], 200)], logs) && logs != [] && logs[0].ts == 100
    ensures !SameMessages(SeqRun(100, [Op(100, [m]), Op(200, [k])]), logs)
    ensures !SameMessages(SeqRun(100, [Op(200, [k]), Op(100, [m])]), logs)
  {
    var ops, back := [Op(100, [m]), Op(200, [k])], [Op(200, [k]), Op(100, [m])];
    SequentialShape(100, ops);
    SequentialShape(100, back);
    SequentialAttribution(100, ops);
    var ls := [Landing(100, [m], 200), Landing(200, [k], 200)];
    NothingAt100(m, k);
    AttributedTo100(m, k);
    hide SeqRun;
    hide Attributed;
    hide LandedAt;
    assert multiset(logs[0].body) == multiset{};
    assert m in multiset([m]);
  }

  lemma NotAnchored(m: Msg, k: Msg)
    ensures !Anchored(multiset([Landing(100, [m], 200), Landing(200, [k], 200)]), 100)
  {
  }

  lemma NothingAt100(m: Msg, k: Msg)
    ensures LandedAt([Landing(100, [m], 200), Landing(200, [k], 200)], 100) == multiset{}
  {
    var a, b := Landing(100, [m], 200), Landing(200, [k], 200);
    assert [a, b] == [a] + [b];
    LandedSnoc([a], b, 100);
    LandedOne(a, 100);
  }

  lemma AttributedSnoc(window: nat, ops: seq<Op>, op: Op, w: nat)
    requires 0 < window < U64
    ensures RunningMax(window, ops + [op]) == Max(RunningMax(window, ops), Trunc(op.ts, window))
    ensures Attributed(window, ops + [op], w)
         == Attributed(window, ops, w) + if RunningMax(window, ops + [op]) == w then Accepted(op.msgs) else []
  {
    assert (ops + [op])[..|ops + [op]| - 1] == ops;
  }

  lemma AttributedTo100(m: Msg, k: Msg)
    requires m.ret >= 0
    ensures Attributed(100, [Op(100, [m]), Op(200, [k])], 100) == [m]
    ensures Trunc(100, 100) == 100 && Trunc(200, 100) == 200
  {
    hide Trunc;
    Truncs();
    var a, b := Op(100, [m]), Op(200, [k]);
    assert [a, b] == [] + [a] + [b];
    AttributedSnoc(100, [], a, 100);
    AttributedSnoc(100, [] + [a], b, 100);
    NothingAttributed();
    AcceptedOne(m);
    hide *;
  }

  lemma AcceptedOne(m: Msg)
    requires m.ret >= 0
    ensures Accepted([m]) == [m]
  {
    assert [m][1..] == [];
  }

  lemma NothingAttributed()
    ensures Attributed(100, [], 100) == [] && RunningMax(100, []) == 0
  {
  }

  /** A finished run with these landings, in which window 100 was created first. */
  lemma RaceRun(m: Msg, k: Msg) returns (acts: seq<Action>)
    ensures Run(RACE, 2, acts).Some? && AllIdle(Run(RACE, 2, acts).value)
    ensures Landings(RACE, Init(2), acts) == [Landing(100, [m], 200), Landing(200, [k], 200)]
    ensures Run(RACE, 2, acts).value.logs != [] && Run(RACE, 2, acts).value.logs[0].ts == 100
  {
    var first, s := BothLandLate(m, k);
    var ls := [Landing(100, [m], 200), Landing(200, [k], 200)];
    Reachable(RACE, 2, first);
    var rest := Completion(RACE, s);
    NoMoreLandings(RACE, s, rest);
    LandingsConcat(RACE, Init(2), first, rest);
    RunConcat(RACE, Init(2), first, rest);
    acts := first + rest;
    assert ls + [] == ls;
    RunExtends(RACE, s, rest);
    Reachable(RACE, 2, acts);
    FirstOfLogs(RACE, Run(RACE, 2, acts).value);
    FirstStays(s.history, Run(RACE, 2, acts).value.history);
  }

  /** The property that fails: two requests, for windows 100 and 200, whose batches both land in window 200 of a
      finished run that also created window 100. Neither order of the two requests leaves these windows. */
  lemma RaceIsNotSequential(m: Msg, k: Msg) returns (acts: seq<Action>)
    requires m.ret >= 0
    ensures Run(RACE, 2, acts).Some? && AllIdle(Run(RACE, 2, acts).value)
    ensures Landings(RACE, Init(2), acts) == [Landing(100, [m], 200), Landing(200, [k], 200)]
    ensures var logs := Run(RACE, 2, acts).value.logs;
            && logs != [] && logs[0].ts == 100
            && !SameMessages(SeqRun(100, [Op(100, [m]), Op(200, [k])]), logs)
            && !SameMessages(SeqRun(100, [Op(200, [k]), Op(100, [m])]), logs)
            && !IsSequential(100, Landings(RACE, Init(2), acts), logs)
  {
    acts := RaceRun(m, k);
    FinishedRun(RACE, 2, acts);
    SequentialIff(RACE, 2, acts);
    NotAnchored(m, k);
    hide *;
    NoOrderExplains(m, k, Run(RACE, 2, acts).value.logs);
  }

  /** The same run with a batch of failed calls only: no order lands the requests where they landed, but the windows
      are those that some order leaves. */
  lemma RaceCanBeInvisible(m: Msg, k: Msg) returns (acts: seq<Action>)
    requires m.ret < 0
    ensures Run(RACE, 2, acts).Some? && AllIdle(Run(RACE, 2, acts).value)
    ensures var logs := Run(RACE, 2, acts).value.logs;
            !IsSequential(100, Landings(RACE, Init(2), acts), logs) && SomeOrderLeaves(100, Begun(RACE, acts), logs)
  {
    acts := RaceRun(m, k);
    FinishedRequests(RACE, 2, acts);
    SequentialIff(RACE, 2, acts);
    NotAnchored(m, k);
    ContentsIff(RACE, 2, acts);
    hide *;
    OtherLandings(m, k, Begun(RACE, acts), Run(RACE, 2, acts).value.logs);
  }

  lemma OtherLandings(m: Msg, k: Msg, begun: seq<Op>, logs: Logs)
    requires m.ret < 0 && logs != [] && logs[0].ts == 100
    requires Finished(100, [Landing(100, [m], 200), Landing(200, [k], 200)], logs)
    requires multiset(OpsOf([Landing(100, [m], 200), Landing(200, [k], 200)])) == multiset(begun)
    ensures Explains([Landing(100, [m], 100), Landing(200, [k], 200)], begun, logs)
  {
    var a, a', b := Landing(100, [m], 200), Landing(100, [m], 100), Landing(200, [k], 200);
    hide *;
    FinishedTakes([a, b], logs);
    forall w ensures LandedAt([a', b], w) == LandedAt([a, b], w) {
      BringsNothing(m, b, w);
    }
    TakesAlike([a, b], [a', b], logs);
    OpsAlike(a, a', b);
    OwnWindows(m, k);
    ExplainsIf([a', b], begun, logs);
  }

  lemma FinishedTakes(ls: seq<Landing>, logs: Logs)
    requires Finished(100, ls, logs)
    ensures Takes(logs, ls)
  {
  }

  lemma TakesAlike(ls: seq<Landing>, ls': seq<Landing>, logs: Logs)
    requires Takes(logs, ls) && forall w :: LandedAt(ls', w) == LandedAt(ls, w)
    ensures Takes(logs, ls')
  {
    hide LandedAt;
  }

  lemma OpsAlike(a: Landing, a': Landing, b: Landing)
    requires a.asked == a'.asked && a.msgs == a'.msgs
    ensures OpsOf([a', b]) == OpsOf([a, b])
  {
    assert [a, b] == [a] + [b] && [a', b] == [a'] + [b];
    OpsOfConcat([a], [b]);
    OpsOfConcat([a'], [b]);
    FirstOp([a]);
    FirstOp([a']);
    hide OpsOf;
  }

  lemma ExplainsIf(ls: seq<Landing>, begun: seq<Op>, logs: Logs)
    requires multiset(OpsOf(ls)) == multiset(begun) && logs != []
    requires Takes(logs, ls) && Forward(multiset(ls), logs[0].ts) && Anchored(multiset(ls), logs[0].ts)
    ensures Explains(ls, begun, logs)
  {
  }

  lemma BringsNothing(m: Msg, b: Landing, w: nat)
    requires m.ret < 0
    ensures LandedAt([Landing(100, [m], 100), b], w) == LandedAt([Landing(100, [m], 200), b], w)
  {
    var a, a' := Landing(100, [m], 200), Landing(100, [m], 100);
    assert [a, b] == [a] + [b] && [a', b] == [a'] + [b];
    assert [m][1..] == [] && Accepted([m]) == [];
    LandedSnoc([a], b, w);
    LandedSnoc([a'], b, w);
    LandedOne(a, w);
    LandedOne(a', w);
    hide LandedAt;
    hide Accepted;
  }

  lemma OwnWindows(m: Msg, k: Msg)
    ensures var ls := multiset([Landing(100, [m], 100), Landing(200, [k], 200)]); Forward(ls, 100) && Anchored(ls, 100)
  {
    var a, b := Landing(100, [m], 100), Landing(200, [k], 200);
    var ls := multiset([a, b]);
    assert a in ls && b in ls && Exact(a, 100) && Exact(b, 200);
  }

  lemma FirstOfLogs(c: Config, s: State)
    requires ValidConfig(c) && Inv(c, s)
    ensures s.history != [] ==> s.logs != [] && s.logs[0].ts == s.history[0].ts
  {
  }

  lemma FirstStays(h: History, h': History)
    requires Extends(h, h') && h != []
    ensures h' != [] && h'[0].ts == h[0].ts
  {
  }
}
