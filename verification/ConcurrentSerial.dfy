/** When a concurrent run is a sequential run of its whole requests, and when it is not. */
module ConcurrentSerial {
  import opened Types
  import opened Clock
  import opened Traffic
  import opened Segments
  import opened Timeline
  import opened StoreSpec
  import opened ConcurrentModel
  import opened ConcurrentInvariant
  import opened ConcurrentLedger
  import opened ConcurrentTheorems
  import opened ConcurrentRequests
  import opened SerialOrder

  // ---- Where batches land ----

  ghost predicate LandingOk(c: Config, l: Landing, history: History)
    requires ValidConfig(c)
  {
    && history != [] && history[0].ts <= l.at <= Newest(history).ts
    && l.asked <= l.at && l.asked < U64 && l.asked % c.window == 0
  }

  lemma LandingKept(c: Config, l: Landing, h: History, h': History)
    requires ValidConfig(c) && LandingOk(c, l, h) && Extends(h, h') && Regular(h', c.window)
    ensures LandingOk(c, l, h')
  {
    hide Regular;
    if |h| < |h'| {
      RegularOrder(h', c.window, |h| - 1, |h'| - 1);
    }
  }

  lemma NewLandingOk(c: Config, s: State, a: Action)
    requires ValidConfig(c) && Enabled(c, s, a) && Inv(c, s) && InRange(s) && Lands(a)
    ensures |LandingOf(c, s, a)| == 1 && LandingOk(c, LandingOf(c, s, a)[0], s.history)
    ensures s.segments != [] && LandingOf(c, s, a)[0].at == Newest(s.history).ts
  {
    NewestShared(c, s);
    PhaseOf(c, s, a.t);
    if |s.history| > 1 {
      RegularOrder(s.history, c.window, 0, |s.history| - 1);
    }
  }

  /** Every batch lands in an existing window, not before the one it asked for. */
  lemma {:induction false} LandingsOk(c: Config, n: nat, acts: seq<Action>)
    requires ValidConfig(c) && Run(c, n, acts).Some?
    ensures forall l | l in Landings(c, Init(n), acts) :: LandingOk(c, l, Run(c, n, acts).value.history)
  {
    hide Apply;
    hide Enabled;
    hide Inv;
    hide LandingOk;
    hide LandingOf;
    if acts != [] {
      var init, a := acts[..|acts| - 1], acts[|acts| - 1];
      var s, s' := Run(c, n, init).value, Run(c, n, acts).value;
      LandingsOk(c, n, init);
      Reachable(c, n, init);
      Reachable(c, n, acts);
      RunInRange(c, n, init);
      InvTimes(c, s);
      InvTimes(c, s');
      StepExtends(c, s, a);
      hide Times;
      forall l | l in Landings(c, Init(n), acts) ensures LandingOk(c, l, s'.history) {
        if l !in Landings(c, Init(n), init) {
          OnlyLands(c, s, a);
          NewLandingOk(c, s, a);
          assert l == LandingOf(c, s, a)[0];
        }
        LandingKept(c, l, s.history, s'.history);
      }
    }
  }

  lemma InvTimes(c: Config, s: State)
    requires ValidConfig(c) && Inv(c, s)
    ensures Times(c, s) && Regular(s.history, c.window)
  {
  }

  lemma OnlyLands(c: Config, s: State, a: Action)
    requires Enabled(c, s, a)
    ensures !Lands(a) ==> LandingOf(c, s, a) == []
  {
  }

  // ---- What each window takes ----

  /** Every window holds the batches that landed in it. */
  ghost predicate Takes(whole: Logs, ls: seq<Landing>) {
    forall k | 0 <= k < |whole| :: multiset(whole[k].body) == LandedAt(ls, whole[k].ts)
  }

  lemma {:induction false} NothingLater(ls: seq<Landing>, w: nat)
    requires forall l | l in ls :: l.at < w
    ensures LandedAt(ls, w) == multiset{}
  {
    if ls != [] {
      var init, last := ls[..|ls| - 1], ls[|ls| - 1];
      assert ls == init + [last];
      assert last in ls;
      NothingLater(init, w);
    }
  }

  lemma TakesPush(whole: Logs, ls: seq<Landing>, ts: nat)
    requires Takes(whole, ls) && forall l | l in ls :: l.at < ts
    ensures Takes(whole + [Timed(ts, [])], ls)
  {
    NothingLater(ls, ts);
    hide LandedAt;
  }

  lemma TakesLand(whole: Logs, ls: seq<Landing>, l: Landing)
    requires Takes(whole, ls) && whole != [] && l.at == Newest(whole).ts
    requires forall k | 0 <= k < |whole| - 1 :: whole[k].ts != l.at
    ensures Takes(SetNewest(whole, Newest(whole).body + Accepted(l.msgs)), ls + [l])
  {
    hide LandedAt;
    hide Accepted;
    var whole' := SetNewest(whole, Newest(whole).body + Accepted(l.msgs));
    forall k | 0 <= k < |whole| ensures multiset(whole'[k].body) == LandedAt(ls + [l], whole[k].ts) {
      LandedSnoc(ls, l, whole[k].ts);
      if k == |whole| - 1 {
        JoinBodies(whole[k].body, Accepted(l.msgs));
      }
    }
  }

  lemma LandedSnoc(ls: seq<Landing>, l: Landing, w: nat)
    ensures LandedAt(ls + [l], w) == if l.at == w then LandedAt(ls, w) + multiset(Accepted(l.msgs)) else LandedAt(ls, w)
  {
    assert (ls + [l])[..|ls + [l]| - 1] == ls;
    assert LandedAt(ls, w) + multiset{} == LandedAt(ls, w);
  }

  lemma JoinBodies(a: seq<Msg>, b: seq<Msg>)
    ensures multiset(a + b) == multiset(a) + multiset(b)
  {
  }

  lemma {:induction false} WindowsTake(c: Config, n: nat, acts: seq<Action>)
    requires ValidConfig(c) && Run(c, n, acts).Some?
    ensures Takes(Whole(c, Init(n), acts), Landings(c, Init(n), acts))
  {
    hide Apply;
    hide Enabled;
    hide Inv;
    hide Takes;
    hide SameBut;
    hide LandingOf;
    hide WholeStep;
    if acts == [] {
      NothingTaken();
    } else {
      var init, a := acts[..|acts| - 1], acts[|acts| - 1];
      var s := Run(c, n, init).value;
      WindowsTake(c, n, init);
      Reachable(c, n, init);
      RunInRange(c, n, init);
      WholeRun(c, n, init);
      LandingsOk(c, n, init);
      TakesStep(c, s, a, Whole(c, Init(n), init), Landings(c, Init(n), init));
    }
  }

  lemma NothingTaken()
    ensures Takes([], [])
  {
  }

  lemma TakesStep(c: Config, s: State, a: Action, whole: Logs, ls: seq<Landing>)
    requires ValidConfig(c) && Enabled(c, s, a) && Inv(c, s) && InRange(s)
    requires SameBut(whole, s.logs, Tally(s.threads, Carried)) && Takes(whole, ls)
    requires forall l | l in ls :: LandingOk(c, l, s.history)
    ensures Takes(WholeStep(c, s, whole, a), ls + LandingOf(c, s, a))
  {
    hide Apply;
    hide Takes;
    InvTimes(c, s);
    NewestShared(c, s);
    TimesOfWhole(c, s, whole);
    hide Inv;
    hide SameBut;
    if a.Push? {
      assert ls + LandingOf(c, s, a) == ls;
      NextIsLater(c, s, a, ls);
      TakesPush(whole, ls, NextTs(c, s, s.threads[a.t].ts));
    } else if Lands(a) {
      NewLandingOk(c, s, a);
      forall k | 0 <= k < |whole| - 1 ensures whole[k].ts != Newest(whole).ts {
        RegularOrder(whole, c.window, k, |whole| - 1);
      }
      hide Regular;
      TakesLand(whole, ls, LandingOf(c, s, a)[0]);
    } else {
      assert ls + LandingOf(c, s, a) == ls;
    }
  }

  lemma TimesOfWhole(c: Config, s: State, whole: Logs)
    requires Times(c, s) && SameBut(whole, s.logs, Tally(s.threads, Carried))
    ensures Regular(whole, c.window) && |whole| == |s.history|
    ensures whole != [] ==> Newest(whole).ts == Newest(s.history).ts
  {
    SameTimes(s.history, whole, c.window);
  }

  lemma NextIsLater(c: Config, s: State, a: Action, ls: seq<Landing>)
    requires ValidConfig(c) && Enabled(c, s, a) && a.Push? && Times(c, s)
    requires forall l | l in ls :: LandingOk(c, l, s.history)
    ensures forall l | l in ls :: l.at < NextTs(c, s, s.threads[a.t].ts)
  {
    NewestShared(c, s);
    forall l | l in ls ensures l.at < NextTs(c, s, s.threads[a.t].ts) {
      assert LandingOk(c, l, s.history);
    }
  }

  // ---- Landings are the requests ----

  /** The requests that a run begins, with the windows they ask for. */
  function Begun(c: Config, acts: seq<Action>): seq<Op>
    requires ValidConfig(c)
  {
    if acts == [] then []
    else Begun(c, acts[..|acts| - 1]) + BegunAt(c, acts[|acts| - 1])
  }

  function BegunAt(c: Config, a: Action): seq<Op>
    requires ValidConfig(c)
  {
    if a.Begin? then [Op(Trunc(a.at, c.window), a.msgs)] else []
  }

  predicate OnItsWay(th: Thread) {
    th.HasRequest() && !th.Writing?
  }

  /** A request is on its way from its beginning until it lands, and stays what it is. */
  lemma RequestStep(c: Config, s: State, a: Action)
    requires ValidConfig(c) && Enabled(c, s, a)
    ensures var th, th' := s.threads[a.t], Apply(c, s, a).threads[a.t];
            && (a.Begin? ==> !OnItsWay(th) && OnItsWay(th') && th'.ts == Trunc(a.at, c.window) && th'.msgs == a.msgs)
            && (Lands(a) ==> OnItsWay(th) && !OnItsWay(th'))
            && (!a.Begin? && !Lands(a) ==> (OnItsWay(th) <==> OnItsWay(th')))
            && (!a.Begin? && !Lands(a) && OnItsWay(th) ==> th'.ts == th.ts && th'.msgs == th.msgs)
  {
    hide SetNewest;
    hide Trunc;
  }

  lemma QueuedStep(c: Config, s: State, a: Action)
    requires ValidConfig(c) && Enabled(c, s, a) && (Lands(a) ==> s.segments != [])
    ensures Queued(s.threads[a.t]) + multiset(BegunAt(c, a))
         == Queued(Apply(c, s, a).threads[a.t]) + multiset(OpsOf(LandingOf(c, s, a)))
  {
    RequestStep(c, s, a);
    hide Apply;
    hide Enabled;
    if Lands(a) {
      FirstOp(LandingOf(c, s, a));
    }
    assert OpsOf([]) == [];
    hide OpsOf;
  }

  lemma {:induction false} OpsOfConcat(p: seq<Landing>, q: seq<Landing>)
    ensures OpsOf(p + q) == OpsOf(p) + OpsOf(q)
  {
    if q == [] {
      assert p + q == p;
    } else {
      assert (p + q)[..|p + q| - 1] == p + q[..|q| - 1];
      OpsOfConcat(p, q[..|q| - 1]);
    }
  }

  lemma Requeue(b: multiset<Op>, b': multiset<Op>, l: multiset<Op>, l': multiset<Op>, t: multiset<Op>, t': multiset<Op>,
                q: multiset<Op>, q': multiset<Op>, x: multiset<Op>, y: multiset<Op>)
    requires b == l + t && b' == b + x && l' == l + y && t' + q == t + q' && q + x == q' + y
    ensures b' == l' + t'
  {
    forall o ensures b'[o] == (l' + t')[o] {
      assert (t' + q)[o] == (t + q')[o] && (q + x)[o] == (q' + y)[o] && b[o] == (l + t)[o];
    }
  }

  /** Each request begun has landed or is still on its way, with the window and the batch it began with. */
  lemma {:induction false} RequestsLand(c: Config, n: nat, acts: seq<Action>)
    requires ValidConfig(c) && Run(c, n, acts).Some?
    ensures multiset(Begun(c, acts)) == multiset(OpsOf(Landings(c, Init(n), acts))) + Tally(Run(c, n, acts).value.threads, Queued)
  {
    hide Apply;
    hide Enabled;
    hide Inv;
    hide OpsOf;
    hide LandingOf;
    hide BegunAt;
    if acts == [] {
      NothingQueued(c, n);
    } else {
      var init, a := acts[..|acts| - 1], acts[|acts| - 1];
      var s, s' := Run(c, n, init).value, Run(c, n, acts).value;
      var ls := Landings(c, Init(n), init);
      RequestsLand(c, n, init);
      Reachable(c, n, init);
      StepFacts(c, s, a);
      LandsSomewhere(c, s, a);
      QueuedStep(c, s, a);
      OneMoves(c, s, a);
      TallyChange(s.threads, a.t, s'.threads[a.t], Queued);
      OpsOfConcat(ls, LandingOf(c, s, a));
      hide Tally;
      hide Queued;
      Requeue(multiset(Begun(c, init)), multiset(Begun(c, acts)), multiset(OpsOf(ls)), multiset(OpsOf(ls + LandingOf(c, s, a))),
              Tally(s.threads, Queued), Tally(s'.threads, Queued), Queued(s.threads[a.t]), Queued(s'.threads[a.t]),
              multiset(BegunAt(c, a)), multiset(OpsOf(LandingOf(c, s, a))));
    }
  }

  lemma LandsSomewhere(c: Config, s: State, a: Action)
    requires Enabled(c, s, a) && (a.Relock? ==> s.segments != [])
    ensures Lands(a) ==> s.segments != []
  {
  }

  lemma NothingQueued(c: Config, n: nat)
    requires ValidConfig(c)
    ensures multiset(Begun(c, [])) == multiset(OpsOf([])) + Tally(Init(n).threads, Queued)
  {
    TallyEmpty(Init(n).threads, Queued);
  }

  // ---- The newest window ----

  /** The latest window is one that some request begun asked for. */
  ghost predicate Asked(begun: seq<Op>, s: State) {
    if begun == [] then s.latest == 0 && s.history == [] else exists op | op in begun :: op.ts == s.latest
  }

  lemma {:induction false} LatestIsAsked(c: Config, n: nat, acts: seq<Action>)
    requires ValidConfig(c) && Run(c, n, acts).Some?
    ensures Asked(Begun(c, acts), Run(c, n, acts).value)
  {
    hide Apply;
    hide Enabled;
    hide Asked;
    hide Tally;
    hide OpsOf;
    hide BegunAt;
    if acts == [] {
      NothingAsked(n);
    } else {
      var init, a := acts[..|acts| - 1], acts[|acts| - 1];
      var s := Run(c, n, init).value;
      LatestIsAsked(c, n, init);
      RequestsLand(c, n, init);
      AskedStep(c, s, a, Begun(c, init), Landings(c, Init(n), init));
    }
  }

  lemma NothingAsked(n: nat)
    ensures Asked([], Init(n))
  {
  }

  lemma AskedStep(c: Config, s: State, a: Action, begun: seq<Op>, ls: seq<Landing>)
    requires ValidConfig(c) && Enabled(c, s, a) && Asked(begun, s)
    requires multiset(begun) == multiset(OpsOf(ls)) + Tally(s.threads, Queued)
    ensures Asked(begun + BegunAt(c, a), Apply(c, s, a))
  {
    hide Asked;
    hide OpsOf;
    LatestMoves(c, s, a);
    if a.Push? {
      TallyHas(s.threads, a.t, Queued);
      hide Tally;
      NobodyBegan(begun, ls, s.threads, a.t);
    }
    hide Tally;
    hide Apply;
    hide Enabled;
    hide BegunAt;
    AskedMoves(c, s, Apply(c, s, a), a, begun);
  }

  lemma AskedMoves(c: Config, s: State, s': State, a: Action, begun: seq<Op>)
    requires ValidConfig(c) && Asked(begun, s) && (a.Push? ==> begun != [])
    requires s'.latest == if a.Begin? then Max(s.latest, Trunc(a.at, c.window)) else s.latest
    requires !a.Push? && s.history == [] ==> s'.history == []
    ensures Asked(begun + BegunAt(c, a), s')
  {
    hide Trunc;
    var all := begun + BegunAt(c, a);
    if begun != [] {
      var op :| op in begun && op.ts == s.latest;
      assert op in all;
    }
    if a.Begin? {
      assert Op(Trunc(a.at, c.window), a.msgs) in all;
    } else {
      assert all == begun;
    }
  }

  lemma NobodyBegan(begun: seq<Op>, ls: seq<Landing>, threads: seq<Thread>, t: nat)
    requires t < |threads| && Queued(threads[t]) != multiset{} && Queued(threads[t]) <= Tally(threads, Queued)
    requires multiset(begun) == multiset(OpsOf(ls)) + Tally(threads, Queued)
    ensures begun != []
  {
    var op :| op in Queued(threads[t]);
    assert op in multiset(begun);
  }

  lemma {:induction false} TallyHas<T>(threads: seq<Thread>, t: nat, f: Thread -> multiset<T>)
    requires t < |threads|
    ensures f(threads[t]) <= Tally(threads, f)
  {
    if t < |threads| - 1 {
      TallyHas(threads[..|threads| - 1], t, f);
    }
  }

  lemma LatestMoves(c: Config, s: State, a: Action)
    requires ValidConfig(c) && Enabled(c, s, a)
    ensures var s' := Apply(c, s, a);
            && s'.latest == (if a.Begin? then Max(s.latest, Trunc(a.at, c.window)) else s.latest)
            && (!a.Push? && s.history == [] ==> s'.history == [])
            && (a.Push? ==> s.threads[a.t].Filling?)
  {
    hide Trunc;
    hide SetNewest;
  }

  // ---- The condition ----

  /** Some order of the requests, each with its whole batch, is a sequential run with the same windows in which each
      request lands where it landed. What `oldest_timestamp` returns is where it lands. */
  ghost predicate IsSequential(window: nat, ls: seq<Landing>, logs: Logs)
    requires 0 < window < U64
  {
    exists p: seq<Landing> :: multiset(p) == multiset(ls) && SequentialRun(window, p, logs)
  }

  /** What a finished run knows about its landings. */
  ghost predicate Finished(window: nat, ls: seq<Landing>, logs: Logs)
    requires 0 < window < U64
  {
    && Regular(logs, window) && (logs == [] <==> ls == [])
    && Takes(logs, ls)
    && StartsOfWindows(ls, window)
    && (logs != [] ==> Forward(multiset(ls), logs[0].ts) && Spans(ls, Newest(logs).ts))
  }

  /** Every request is for `newest` or an earlier window, and some request is for it. */
  ghost predicate Spans(ls: seq<Landing>, newest: nat) {
    && (forall l | l in ls :: l.asked <= newest)
    && (exists l | l in ls :: l.asked == newest)
  }

  lemma SpansPeak(p: seq<Landing>, ls: seq<Landing>, newest: nat)
    requires Spans(ls, newest) && multiset(p) == multiset(ls)
    ensures Peak(p) == newest
  {
    SameLandings(p, ls);
    PeakBound(p, newest);
    var l :| l in ls && l.asked == newest;
    assert l in p;
  }

  lemma SameLandings(p: seq<Landing>, ls: seq<Landing>)
    requires multiset(p) == multiset(ls)
    ensures forall l :: l in p <==> l in ls
    ensures p == [] <==> ls == []
  {
    forall l ensures l in p <==> l in ls {
      assert l in p <==> l in multiset(p);
      assert l in ls <==> l in multiset(ls);
    }
    if p != [] { assert p[0] in ls; }
    if ls != [] { assert ls[0] in p; }
  }

  lemma SequentialOrder(window: nat, p: seq<Landing>, ls: seq<Landing>, logs: Logs)
    requires 0 < window < U64 && Finished(window, ls, logs) && multiset(p) == multiset(ls) && logs != []
    ensures p != [] && (SequentialRun(window, p, logs) <==> InOrder(p) && p[0].asked == logs[0].ts)
    ensures SequentialRun(window, p, logs) ==> SameMessages(SeqRun(window, OpsOf(p)), logs)
  {
    SameLandings(p, ls);
    SpansPeak(p, ls, Newest(logs).ts);
    assert StartsOfWindows(p, window);
    SequentialRunIff(window, p, logs);
    if SequentialRun(window, p, logs) {
      SequentialRunTakes(window, p, ls, logs);
    }
  }

  lemma FinishedIff(window: nat, ls: seq<Landing>, logs: Logs)
    requires 0 < window < U64 && Finished(window, ls, logs)
    ensures IsSequential(window, ls, logs) <==> logs == [] || Anchored(multiset(ls), logs[0].ts)
  {
    if logs == [] {
      EmptyRun(window);
    } else {
      hide SequentialRun;
      hide Anchored;
      if Anchored(multiset(ls), logs[0].ts) {
        var p := AnchoredHasOrder(multiset(ls), logs[0].ts);
        SequentialOrder(window, p, ls, logs);
      }
      if p: seq<Landing> :| multiset(p) == multiset(ls) && SequentialRun(window, p, logs) {
        SequentialOrder(window, p, ls, logs);
        OrderedIsAnchored(p);
      }
    }
  }

  lemma EmptyRun(window: nat)
    requires 0 < window < U64
    ensures SequentialRun(window, [], [])
  {
  }

  lemma FinishedRun(c: Config, n: nat, acts: seq<Action>)
    requires ValidConfig(c) && Run(c, n, acts).Some? && AllIdle(Run(c, n, acts).value)
    ensures Finished(c.window, Landings(c, Init(n), acts), Run(c, n, acts).value.logs)
  {
    var s, ls := Run(c, n, acts).value, Landings(c, Init(n), acts);
    Reachable(c, n, acts);
    IdleFacts(c, s);
    LandingsOk(c, n, acts);
    WindowsTake(c, n, acts);
    WholeRun(c, n, acts);
    RequestsLand(c, n, acts);
    LatestIsAsked(c, n, acts);
    NewestIsLatest(c, s);
    hide *;
    FinishedFacts(c, s, Whole(c, Init(n), acts), ls, Begun(c, acts));
  }

  lemma NewestIsLatest(c: Config, s: State)
    requires ValidConfig(c) && Inv(c, s)
    ensures Times(c, s) && (s.history != [] ==> Newest(s.history).ts <= s.latest)
  {
  }

  lemma FinishedFacts(c: Config, s: State, whole: Logs, ls: seq<Landing>, begun: seq<Op>)
    requires ValidConfig(c) && Times(c, s) && (s.history != [] ==> Newest(s.history).ts <= s.latest)
    requires Tally(s.threads, Carried) == multiset{} && Tally(s.threads, Queued) == multiset{}
    requires SameBut(whole, s.logs, Tally(s.threads, Carried)) && Takes(whole, ls)
    requires multiset(begun) == multiset(OpsOf(ls)) + Tally(s.threads, Queued) && Asked(begun, s)
    requires forall l | l in ls :: LandingOk(c, l, s.history)
    ensures Finished(c.window, ls, s.logs)
  {
    NewestShared(c, s);
    SameTimes(s.history, s.logs, c.window);
    assert s.logs != [] ==> s.logs[0].ts == s.history[0].ts;
    hide Times;
    hide Regular;
    NothingFlies(whole, s.logs);
    hide SameBut;
    TakesSame(whole, s.logs, ls);
    hide Takes;
    assert multiset(OpsOf(ls)) + multiset{} == multiset(OpsOf(ls));
    AllAsked(c, s, ls, begun);
    LandingsForward(c, s.history, ls);
    hide OpsOf;
    hide Asked;
    hide LandingOk;
  }

  lemma TakesSame(whole: Logs, logs: Logs, ls: seq<Landing>)
    requires SameMessages(whole, logs) && Takes(whole, ls)
    ensures Takes(logs, ls)
  {
    hide LandedAt;
  }

  lemma LandingsForward(c: Config, history: History, ls: seq<Landing>)
    requires ValidConfig(c) && forall l | l in ls :: LandingOk(c, l, history)
    ensures StartsOfWindows(ls, c.window)
    ensures ls != [] ==> history != []
    ensures history != [] ==> Forward(multiset(ls), history[0].ts)
  {
    if ls != [] {
      assert LandingOk(c, ls[0], history);
    }
    forall l | l in multiset(ls) ensures l in ls {
    }
  }

  lemma AllAsked(c: Config, s: State, ls: seq<Landing>, begun: seq<Op>)
    requires ValidConfig(c) && multiset(begun) == multiset(OpsOf(ls)) && Asked(begun, s)
    requires s.history != [] ==> Newest(s.history).ts <= s.latest
    requires forall l | l in ls :: LandingOk(c, l, s.history)
    ensures s.history != [] ==> ls != [] && Spans(ls, Newest(s.history).ts)
  {
    if s.history != [] {
      var op :| op in begun && op.ts == s.latest;
      assert op in multiset(OpsOf(ls));
      var l := OpOfLanding(ls, op);
      assert LandingOk(c, l, s.history);
      forall x | x in ls ensures x.asked <= Newest(s.history).ts {
        assert LandingOk(c, x, s.history);
      }
    }
  }

  lemma {:induction false} OpOfLanding(ls: seq<Landing>, op: Op) returns (l: Landing)
    requires op in OpsOf(ls)
    ensures l in ls && op == Op(l.asked, l.msgs)
  {
    var init, last := ls[..|ls| - 1], ls[|ls| - 1];
    assert ls == init + [last];
    if op in OpsOf(init) {
      l := OpOfLanding(init, op);
    } else {
      l := last;
    }
  }

  /** Exactly when some order of the whole requests has the windows of a concurrent run and lands each request where it
      landed: the first window, and every window in which a batch landed, took a batch that was asked for it. The race
      breaks this when all the requests for a window land later. Such an order also leaves the same messages in every
      window; an order that leaves the same messages need not land the requests so. */
  lemma SequentialIff(c: Config, n: nat, acts: seq<Action>)
    requires ValidConfig(c) && Run(c, n, acts).Some? && AllIdle(Run(c, n, acts).value)
    ensures var s, ls := Run(c, n, acts).value, Landings(c, Init(n), acts);
            && (IsSequential(c.window, ls, s.logs) <==> s.logs == [] || Anchored(multiset(ls), s.logs[0].ts))
            && (forall p | multiset(p) == multiset(ls) && SequentialRun(c.window, p, s.logs) ::
                  SameMessages(SeqRun(c.window, OpsOf(p)), s.logs))
  {
    FinishedRun(c, n, acts);
    var logs, ls := Run(c, n, acts).value.logs, Landings(c, Init(n), acts);
    hide *;
    FinishedIff(c.window, ls, logs);
    forall p | multiset(p) == multiset(ls) && SequentialRun(c.window, p, logs)
      ensures SameMessages(SeqRun(c.window, OpsOf(p)), logs)
    {
      TakesTheSame(c.window, p, ls, logs);
    }
  }

  lemma TakesTheSame(window: nat, p: seq<Landing>, ls: seq<Landing>, logs: Logs)
    requires 0 < window < U64 && Finished(window, ls, logs) && multiset(p) == multiset(ls) && SequentialRun(window, p, logs)
    ensures SameMessages(SeqRun(window, OpsOf(p)), logs)
  {
    if logs != [] {
      SequentialOrder(window, p, ls, logs);
    }
  }
}
