/** Which concurrent runs are linearizable with each request as one operation: some order of the requests respects
    real time and is the run. */
module ConcurrentRealTime {
  import opened Types
  import opened Clock
  import opened Traffic
  import opened Timeline
  import opened StoreSpec
  import opened ConcurrentModel
  import opened ConcurrentInvariant
  import opened ConcurrentTheorems
  import opened ConcurrentRequests
  import opened SerialOrder
  import opened ConcurrentSerial
  import opened RealTime

  // ---- When a request begins and finishes ----

  /** The last step before `k` at which thread `t` begins a request. */
  function LastBegin(acts: seq<Action>, k: nat, t: nat): (r: nat)
    requires k <= |acts|
    ensures r <= k
  {
    if k == 0 then 0
    else if acts[k - 1].Begin? && acts[k - 1].t == t then k - 1
    else LastBegin(acts, k - 1, t)
  }

  /** The first step from `k` on at which thread `t` finishes. */
  function FirstFinish(acts: seq<Action>, k: nat, t: nat): (r: nat)
    requires k <= |acts|
    ensures k <= r <= |acts|
    ensures r < |acts| ==> acts[r] == Finish(t)
    ensures forall j | k <= j < r :: acts[j] != Finish(t)
    decreases |acts| - k
  {
    if k == |acts| || acts[k] == Finish(t) then k else FirstFinish(acts, k + 1, t)
  }

  lemma StateStep(c: Config, n: nat, acts: seq<Action>, k: nat)
    requires ValidConfig(c) && Run(c, n, acts).Some? && k < |acts|
    ensures Enabled(c, StateAt(c, n, acts, k), acts[k])
    ensures StateAt(c, n, acts, k + 1) == Apply(c, StateAt(c, n, acts, k), acts[k])
  {
    hide Apply;
    hide Enabled;
    PrefixRuns(c, Init(n), acts, k + 1);
    assert acts[..k + 1][..|acts[..k + 1]| - 1] == acts[..k];
  }

  /** The landings of the first `k` steps, with their times in the whole run. */
  function SpansUpTo(c: Config, n: nat, acts: seq<Action>, k: nat): seq<Span>
    requires ValidConfig(c) && Run(c, n, acts).Some? && k <= |acts|
  {
    if k == 0 then []
    else
      StateStep(c, n, acts, k - 1);
      SpansUpTo(c, n, acts, k - 1)
      + SpanOf(LandingOf(c, StateAt(c, n, acts, k - 1), acts[k - 1]), acts, k - 1)
  }

  function SpanOf(ls: seq<Landing>, acts: seq<Action>, k: nat): seq<Span>
    requires k < |acts|
  {
    if ls == [] then []
    else [Span(ls[0], LastBegin(acts, k, acts[k].t), k, FirstFinish(acts, k + 1, acts[k].t))]
  }

  lemma {:induction false} SpansLand(c: Config, n: nat, acts: seq<Action>, k: nat)
    requires ValidConfig(c) && Run(c, n, acts).Some? && k <= |acts|
    ensures RunFrom(c, Init(n), acts[..k]).Some?
    ensures LandingsIn(SpansUpTo(c, n, acts, k)) == Landings(c, Init(n), acts[..k])
  {
    hide Apply;
    hide Enabled;
    PrefixRuns(c, Init(n), acts, k);
    if k > 0 {
      SpansLand(c, n, acts, k - 1);
      StateStep(c, n, acts, k - 1);
      assert acts[..k][..|acts[..k]| - 1] == acts[..k - 1];
      var ls := LandingOf(c, StateAt(c, n, acts, k - 1), acts[k - 1]);
      var before := SpansUpTo(c, n, acts, k - 1);
      if ls == [] {
        assert before + [] == before;
        assert LandingsIn(before) + [] == LandingsIn(before);
      } else {
        LandingsInSnoc(before, SpanOf(ls, acts, k - 1)[0]);
      }
    }
  }

  // ---- A span is a request ----

  /** The request that thread `t` began last before step `k`. */
  predicate BeganLast(c: Config, acts: seq<Action>, k: nat, t: nat, ts: nat, msgs: seq<Msg>)
    requires ValidConfig(c) && k <= |acts|
  {
    var j := LastBegin(acts, k, t);
    j < k && acts[j].Begin? && acts[j].t == t && Trunc(acts[j].at, c.window) == ts && acts[j].msgs == msgs
  }

  /** A step keeps a request on its way what it is, or begins it. */
  lemma WayStep(c: Config, s: State, a: Action, t: nat)
    requires ValidConfig(c) && Enabled(c, s, a) && t < |Apply(c, s, a).threads| && OnItsWay(Apply(c, s, a).threads[t])
    ensures var th' := Apply(c, s, a).threads[t];
            if a.Begin? && a.t == t then th'.ts == Trunc(a.at, c.window) && th'.msgs == a.msgs
            else t < |s.threads| && OnItsWay(s.threads[t]) && s.threads[t].ts == th'.ts && s.threads[t].msgs == th'.msgs
  {
    if a.t == t {
      RequestStep(c, s, a);
    } else {
      OthersStayToo(c, s, a, t);
    }
    hide Apply;
    hide Trunc;
  }

  lemma NobodyAtStart(c: Config, n: nat, acts: seq<Action>, t: nat)
    requires ValidConfig(c) && Run(c, n, acts).Some? && t < |StateAt(c, n, acts, 0).threads|
    ensures !OnItsWay(StateAt(c, n, acts, 0).threads[t])
  {
    assert acts[..0] == [];
  }

  /** A request on its way is the one that its thread began last. */
  lemma {:induction false} OnItsWayBegan(c: Config, n: nat, acts: seq<Action>, k: nat, t: nat)
    requires ValidConfig(c) && Run(c, n, acts).Some? && k <= |acts|
    requires t < |StateAt(c, n, acts, k).threads| && OnItsWay(StateAt(c, n, acts, k).threads[t])
    ensures var th := StateAt(c, n, acts, k).threads[t]; BeganLast(c, acts, k, t, th.ts, th.msgs)
  {
    hide StateAt;
    hide Apply;
    hide Enabled;
    hide Trunc;
    hide OnItsWay;
    if k == 0 {
      NobodyAtStart(c, n, acts, t);
    } else {
      StateStep(c, n, acts, k - 1);
      WayStep(c, StateAt(c, n, acts, k - 1), acts[k - 1], t);
      if !(acts[k - 1].Begin? && acts[k - 1].t == t) {
        OnItsWayBegan(c, n, acts, k - 1, t);
      }
    }
  }

  lemma OthersStayToo(c: Config, s: State, a: Action, t: nat)
    requires ValidConfig(c) && Enabled(c, s, a) && a.t != t
    ensures |Apply(c, s, a).threads| == |s.threads|
    ensures t < |s.threads| ==> Apply(c, s, a).threads[t] == s.threads[t]
  {
    hide Trunc;
    hide SetNewest;
  }

  /** A landed request finishes, in a run that ends with every thread idle. */
  lemma LandedFinishes(c: Config, n: nat, acts: seq<Action>, k: nat, t: nat)
    requires ValidConfig(c) && Run(c, n, acts).Some? && AllIdle(Run(c, n, acts).value) && k <= |acts|
    requires t < |StateAt(c, n, acts, k).threads| && StateAt(c, n, acts, k).threads[t].Writing?
    ensures FirstFinish(acts, k, t) < |acts|
  {
    if FirstFinish(acts, k, t) == |acts| {
      var s, rest := StateAt(c, n, acts, k), acts[k..];
      PrefixRuns(c, Init(n), acts, k);
      Reachable(c, n, acts[..k]);
      assert forall j | 0 <= j < |rest| :: rest[j] == acts[k + j];
      BatchLandsWhole(c, s, rest, t);
    }
  }

  /** Each span of a finished run is a request: it begins with its window and its batch, lands and finishes. */
  lemma {:induction false} SpansAreRequests(c: Config, n: nat, acts: seq<Action>, k: nat, x: Span)
    requires ValidConfig(c) && Run(c, n, acts).Some? && AllIdle(Run(c, n, acts).value) && k <= |acts|
    requires x in SpansUpTo(c, n, acts, k)
    ensures x.from < x.mid < x.to < |acts| && x.mid < k
    ensures var begin := acts[x.from];
            && begin.Begin? && Trunc(begin.at, c.window) == x.landing.asked && begin.msgs == x.landing.msgs
            && Lands(acts[x.mid]) && acts[x.mid].t == begin.t && acts[x.to] == Finish(begin.t)
  {
    hide Trunc;
    var ls := StepLandings(c, n, acts, k - 1);
    if x in SpansUpTo(c, n, acts, k - 1) {
      SpansAreRequests(c, n, acts, k - 1, x);
    } else {
      assert ls != [] && x == SpanOf(ls, acts, k - 1)[0];
      LandingIsRequest(c, n, acts, k - 1);
    }
  }

  lemma StepLandings(c: Config, n: nat, acts: seq<Action>, k: nat) returns (ls: seq<Landing>)
    requires ValidConfig(c) && Run(c, n, acts).Some? && k < |acts|
    ensures Enabled(c, StateAt(c, n, acts, k), acts[k]) && ls == LandingOf(c, StateAt(c, n, acts, k), acts[k])
    ensures SpansUpTo(c, n, acts, k + 1) == SpansUpTo(c, n, acts, k) + SpanOf(ls, acts, k)
  {
    StateStep(c, n, acts, k);
    ls := LandingOf(c, StateAt(c, n, acts, k), acts[k]);
  }

  lemma LandingIsRequest(c: Config, n: nat, acts: seq<Action>, k: nat)
    requires ValidConfig(c) && Run(c, n, acts).Some? && AllIdle(Run(c, n, acts).value) && k < |acts|
    requires Enabled(c, StateAt(c, n, acts, k), acts[k]) && LandingOf(c, StateAt(c, n, acts, k), acts[k]) != []
    ensures var l, t := LandingOf(c, StateAt(c, n, acts, k), acts[k])[0], acts[k].t;
            var j := LastBegin(acts, k, t);
            && Lands(acts[k]) && FirstFinish(acts, k + 1, t) < |acts|
            && j < k && acts[j].Begin? && acts[j].t == t
            && Trunc(acts[j].at, c.window) == l.asked && acts[j].msgs == l.msgs
  {
    hide StateAt;
    hide RunFrom;
    var s, a := StateAt(c, n, acts, k), acts[k];
    StateStep(c, n, acts, k);
    LandingFacts(c, s, a);
    hide Apply;
    hide Enabled;
    hide LandingOf;
    hide Trunc;
    OnItsWayBegan(c, n, acts, k, a.t);
    LandedFinishes(c, n, acts, k + 1, a.t);
  }

  lemma LandingFacts(c: Config, s: State, a: Action)
    requires ValidConfig(c) && Enabled(c, s, a) && LandingOf(c, s, a) != []
    ensures Lands(a) && a.t < |s.threads| && OnItsWay(s.threads[a.t])
    ensures LandingOf(c, s, a)[0].asked == s.threads[a.t].ts && LandingOf(c, s, a)[0].msgs == s.threads[a.t].msgs
    ensures a.t < |Apply(c, s, a).threads| && Apply(c, s, a).threads[a.t].Writing?
  {
    RequestStep(c, s, a);
    WritingStep(c, s, a);
    OneMovesHere(c, s, a);
    hide Apply;
  }

  lemma OneMovesHere(c: Config, s: State, a: Action)
    requires ValidConfig(c) && Enabled(c, s, a)
    ensures a.t < |Apply(c, s, a).threads|
  {
    hide Trunc;
    hide SetNewest;
  }

  // ---- What runs give ----

  /** Spans of the first `k` steps, in proper order. */
  ghost predicate SpansOk(spans: seq<Span>, k: nat) {
    && (forall x | x in spans :: x.from <= x.mid < k && x.mid <= x.to)
    && Monotone(multiset(spans))
  }

  lemma {:induction false} SpansAreMonotone(c: Config, n: nat, acts: seq<Action>, k: nat)
    requires ValidConfig(c) && Run(c, n, acts).Some? && k <= |acts|
    ensures SpansOk(SpansUpTo(c, n, acts, k), k)
  {
    hide *;
    if k == 0 {
      NoSpans(c, n, acts);
    } else {
      SpansAreMonotone(c, n, acts, k - 1);
      var ls := StepLandings(c, n, acts, k - 1);
      if ls != [] {
        NewestLandsLast(c, n, acts, k - 1);
      }
      SpansSnoc(SpansUpTo(c, n, acts, k - 1), ls, acts, k - 1);
    }
  }

  lemma SpansSnoc(before: seq<Span>, ls: seq<Landing>, acts: seq<Action>, k: nat)
    requires k < |acts| && SpansOk(before, k)
    requires ls != [] ==> forall y | y in before :: y.landing.at <= ls[0].at
    ensures SpansOk(before + SpanOf(ls, acts, k), k + 1)
  {
    hide LastBegin;
    hide FirstFinish;
    hide Monotone;
    if ls == [] {
      assert before + [] == before;
    } else {
      MonotoneSnoc(before, SpanOf(ls, acts, k)[0]);
    }
  }

  lemma NoSpans(c: Config, n: nat, acts: seq<Action>)
    requires ValidConfig(c) && Run(c, n, acts).Some?
    ensures SpansOk(SpansUpTo(c, n, acts, 0), 0)
  {
  }

  lemma MonotoneSnoc(before: seq<Span>, x: Span)
    requires Monotone(multiset(before)) && forall y | y in before :: y.mid < x.mid && y.landing.at <= x.landing.at
    ensures Monotone(multiset(before + [x]))
  {
    forall y, z | y in multiset(before + [x]) && z in multiset(before + [x]) && y.mid < z.mid
      ensures y.landing.at <= z.landing.at
    {
      if z != x {
        assert y in multiset(before) && z in multiset(before);
      }
    }
  }

  /** A landing is not in an earlier window than those before it. */
  lemma NewestLandsLast(c: Config, n: nat, acts: seq<Action>, k: nat)
    requires ValidConfig(c) && Run(c, n, acts).Some? && k < |acts| && Enabled(c, StateAt(c, n, acts, k), acts[k])
    requires LandingOf(c, StateAt(c, n, acts, k), acts[k]) != []
    ensures forall y | y in SpansUpTo(c, n, acts, k) ::
              y.landing.at <= LandingOf(c, StateAt(c, n, acts, k), acts[k])[0].at
  {
    var s := StateAt(c, n, acts, k);
    SpansLand(c, n, acts, k);
    LandingsOk(c, n, acts[..k]);
    Reachable(c, n, acts[..k]);
    RunInRange(c, n, acts[..k]);
    NewLandingOk(c, s, acts[k]);
    hide Inv;
    forall y | y in SpansUpTo(c, n, acts, k) ensures y.landing.at <= Newest(s.history).ts {
      LandingIn(SpansUpTo(c, n, acts, k), y);
      assert LandingOk(c, y.landing, s.history);
    }
  }

  lemma LandingIn(p: seq<Span>, x: Span)
    requires x in p
    ensures x.landing in LandingsIn(p)
  {
    var k :| 0 <= k < |p| && p[k] == x;
    LandingsInAt(p, k);
  }

  lemma {:induction false} LandingsInPermuted(p: seq<Span>, q: seq<Span>)
    requires multiset(p) == multiset(q)
    ensures multiset(LandingsIn(p)) == multiset(LandingsIn(q))
    decreases |p|
  {
    hide LandingsIn;
    if p == [] {
      assert |multiset(q)| == |multiset(p)|;
    } else {
      var k := PullSpan(p, q);
      LandingsInPermuted(p[..|p| - 1], q[..k] + q[k + 1..]);
      PutBack(p[..|p| - 1], q[k], q[..k], q[k + 1..]);
      assert p == p[..|p| - 1] + [q[k]] && q == q[..k] + ([q[k]] + q[k + 1..]);
    }
  }

  lemma PutBack(init: seq<Span>, x: Span, before: seq<Span>, after: seq<Span>)
    requires multiset(LandingsIn(init)) == multiset(LandingsIn(before + after))
    ensures multiset(LandingsIn(init + [x])) == multiset(LandingsIn(before + ([x] + after)))
  {
    hide LandingsIn;
    LandingsInSnoc(init, x);
    LandingsAround(before, x, after);
    Regroup(LandingsIn(init), LandingsIn(before), x.landing, LandingsIn(after));
  }

  lemma LandingsAround(before: seq<Span>, x: Span, after: seq<Span>)
    ensures LandingsIn(before + ([x] + after)) == LandingsIn(before) + ([x.landing] + LandingsIn(after))
    ensures LandingsIn(before + after) == LandingsIn(before) + LandingsIn(after)
  {
    LandingsInConcat(before, [x] + after);
    LandingsInConcat([x], after);
    LandingsInConcat(before, after);
    LandingsInSnoc([], x);
    assert [] + [x] == [x] && LandingsIn([]) + [x.landing] == [x.landing];
    hide LandingsIn;
  }

  lemma Regroup(a: seq<Landing>, b: seq<Landing>, x: Landing, c: seq<Landing>)
    requires multiset(a) == multiset(b + c)
    ensures multiset(a + [x]) == multiset(b + ([x] + c))
  {
    assert multiset(b + ([x] + c)) == multiset(b) + multiset{x} + multiset(c);
  }

  lemma PullSpan(p: seq<Span>, q: seq<Span>) returns (k: nat)
    requires multiset(p) == multiset(q) && p != []
    ensures k < |q| && q[k] == p[|p| - 1] && multiset(p[..|p| - 1]) == multiset(q[..k] + q[k + 1..])
  {
    var init, x := p[..|p| - 1], p[|p| - 1];
    assert p == init + [x];
    assert x in multiset(q);
    k :| 0 <= k < |q| && q[k] == x;
    assert q == q[..k] + [x] + q[k + 1..];
    assert multiset(q) == multiset(q[..k]) + multiset{x} + multiset(q[k + 1..]);
    assert multiset(init) == multiset(p) - multiset{x};
    assert multiset(q[..k] + q[k + 1..]) == multiset(q) - multiset{x};
  }

  lemma {:induction false} LandingsInConcat(p: seq<Span>, q: seq<Span>)
    ensures LandingsIn(p + q) == LandingsIn(p) + LandingsIn(q)
  {
    if q == [] {
      assert p + q == p;
    } else {
      assert (p + q)[..|p + q| - 1] == p + q[..|q| - 1];
      LandingsInConcat(p, q[..|q| - 1]);
    }
  }

  // ---- The condition ----

  /** Some order of the requests respects real time and is a sequential run with the same windows in which each request
      lands where it landed. */
  ghost predicate IsLinearizable(window: nat, spans: seq<Span>, logs: Logs)
    requires 0 < window < U64
  {
    exists p: seq<Span> :: multiset(p) == multiset(spans) && RespectsTime(p) && SequentialRun(window, LandingsIn(p), logs)
  }

  lemma FinishedSpans(c: Config, n: nat, acts: seq<Action>)
    requires ValidConfig(c) && Run(c, n, acts).Some? && AllIdle(Run(c, n, acts).value)
    ensures var spans, logs := SpansUpTo(c, n, acts, |acts|), Run(c, n, acts).value.logs;
            && Finished(c.window, LandingsIn(spans), logs)
            && (logs != [] ==> Timely(multiset(spans), logs[0].ts))
  {
    var spans, logs := SpansUpTo(c, n, acts, |acts|), Run(c, n, acts).value.logs;
    assert acts[..|acts|] == acts;
    SpansLand(c, n, acts, |acts|);
    FinishedRun(c, n, acts);
    SpansAreMonotone(c, n, acts, |acts|);
    hide SpansUpTo;
    hide Run;
    hide AllIdle;
    hide Monotone;
    if logs != [] {
      forall x | x in multiset(spans) ensures Proper(x, logs[0].ts) {
        LandingIn(spans, x);
        assert x.landing in multiset(LandingsIn(spans));
      }
    }
  }

  lemma OrderedSpans(window: nat, p: seq<Span>, spans: seq<Span>, logs: Logs)
    requires 0 < window < U64 && Finished(window, LandingsIn(spans), logs) && logs != [] && multiset(p) == multiset(spans)
    ensures RespectsTime(p) && SequentialRun(window, LandingsIn(p), logs) <==> OrderInTime(p, multiset(spans), logs[0].ts)
  {
    LandingsInPermuted(p, spans);
    SequentialOrder(window, LandingsIn(p), LandingsIn(spans), logs);
    if p != [] {
      LandingsInAt(p, 0);
    }
    hide SequentialRun;
    hide InOrder;
    hide LandingsIn;
    hide Finished;
  }

  lemma SpansIff(window: nat, spans: seq<Span>, logs: Logs)
    requires 0 < window < U64 && Finished(window, LandingsIn(spans), logs) && (logs != [] ==> Timely(multiset(spans), logs[0].ts))
    ensures IsLinearizable(window, spans, logs) <==> logs == [] || InTime(multiset(spans), logs[0].ts)
  {
    if logs == [] {
      NothingToOrder(window, spans);
    } else {
      hide Finished;
      hide Timely;
      hide SequentialRun;
      hide OrderInTime;
      hide InTime;
      OrderInTimeIff(multiset(spans), logs[0].ts);
      if p: seq<Span> :| multiset(p) == multiset(spans) && RespectsTime(p) && SequentialRun(window, LandingsIn(p), logs) {
        OrderedSpans(window, p, spans, logs);
      }
      if p :| OrderInTime(p, multiset(spans), logs[0].ts) {
        OrderIsOf(p, multiset(spans), logs[0].ts);
        OrderedSpans(window, p, spans, logs);
      }
    }
  }

  lemma NothingToOrder(window: nat, spans: seq<Span>)
    requires 0 < window < U64 && LandingsIn(spans) == []
    ensures IsLinearizable(window, spans, [])
  {
    EmptyRun(window);
    assert RespectsTime(spans) && SequentialRun(window, LandingsIn(spans), []);
  }

  lemma OrderIsOf(p: seq<Span>, ss: multiset<Span>, first: nat)
    requires OrderInTime(p, ss, first)
    ensures multiset(p) == ss
  {
  }

  /** Exactly when a concurrent run is linearizable with each request as one operation: the first window took a batch
      asked for it, and every batch landed in a window that also took a batch asked for it whose request had begun
      before this one's finished. */
  lemma LinearizableIff(c: Config, n: nat, acts: seq<Action>)
    requires ValidConfig(c) && Run(c, n, acts).Some? && AllIdle(Run(c, n, acts).value)
    ensures var spans, logs := SpansUpTo(c, n, acts, |acts|), Run(c, n, acts).value.logs;
            IsLinearizable(c.window, spans, logs) <==> logs == [] || InTime(multiset(spans), logs[0].ts)
  {
    FinishedSpans(c, n, acts);
    hide *;
    SpansIff(c.window, SpansUpTo(c, n, acts, |acts|), Run(c, n, acts).value.logs);
  }
}
