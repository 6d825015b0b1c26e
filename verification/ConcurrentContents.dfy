/** Which finished runs leave what some order of their whole requests leaves, whether or not anybody can see where
    each request landed. */
module ConcurrentContents {
  import opened Types
  import opened Clock
  import opened Traffic
  import opened Segments
  import opened Timeline
  import opened StoreSpec
  import opened ConcurrentModel
  import opened ConcurrentInvariant
  import opened ConcurrentTheorems
  import opened ConcurrentRequests
  import opened SerialOrder
  import opened ConcurrentSerial

  /** Where a sequential run of `ops` lands each of them. */
  function LandingsOf(window: nat, ops: seq<Op>): (p: seq<Landing>)
    requires 0 < window < U64
    ensures |p| == |ops|
  {
    if ops == [] then []
    else
      var op := ops[|ops| - 1];
      LandingsOf(window, ops[..|ops| - 1]) + [Landing(op.ts, op.msgs, RunningMax(window, ops))]
  }

  /** Requests for window starts within 64 bits. */
  ghost predicate ForStarts(ops: seq<Op>, window: nat)
    requires 0 < window
  {
    forall op | op in ops :: op.ts < U64 && op.ts % window == 0
  }

  lemma {:induction false} LandingsOfOps(window: nat, ops: seq<Op>)
    requires 0 < window < U64 && ForStarts(ops, window)
    ensures var p := LandingsOf(window, ops);
            OpsOf(p) == ops && InOrder(p) && StartsOfWindows(p, window) && Peak(p) == RunningMax(window, ops)
  {
    var p := LandingsOf(window, ops);
    if ops != [] {
      var init, op := ops[..|ops| - 1], ops[|ops| - 1];
      assert ops == init + [op];
      assert op in ops;
      LandingsOfOps(window, init);
      TruncIs(op.ts, window);
      var l := Landing(op.ts, op.msgs, RunningMax(window, ops));
      assert p == LandingsOf(window, init) + [l];
      hide LandingsOf;
      PeakSnoc(LandingsOf(window, init), l);
      OpsOfConcat(LandingsOf(window, init), [l]);
      FirstOp([l]);
    }
  }

  lemma {:induction false} OpsPermuted(p: seq<Landing>, q: seq<Landing>)
    requires multiset(p) == multiset(q)
    ensures multiset(OpsOf(p)) == multiset(OpsOf(q))
    decreases |p|
  {
    if p == [] {
      assert |multiset(q)| == |multiset(p)|;
    } else {
      var k := PullLast(p, q);
      var before, l, after := q[..k], q[k], q[k + 1..];
      OpsPermuted(p[..|p| - 1], before + after);
      assert q == before + ([l] + after);
      OpsOfConcat(before, [l] + after);
      OpsOfConcat([l], after);
      OpsOfConcat(before, after);
      FirstOp([l]);
      OpsSnoc(p);
      var op := Op(l.asked, l.msgs);
      assert OpsOf([l]) == [op] && OpsOf(p) == OpsOf(p[..|p| - 1]) + [op];
      hide OpsOf;
      assert OpsOf(q) == OpsOf(before) + ([op] + OpsOf(after));
    }
  }

  // ---- The condition ----

  /** Some order of the requests, each with its whole batch, leaves these windows with these messages. */
  ghost predicate SomeOrderLeaves(window: nat, begun: seq<Op>, logs: Logs)
    requires 0 < window < U64
  {
    exists ops: seq<Op> :: multiset(ops) == multiset(begun) && SameMessages(SeqRun(window, ops), logs)
  }

  /** A way to land the requests that fills the windows as they are, never lands a request too early, and anchors the
      first window and every window it uses. */
  ghost predicate Explains(ls: seq<Landing>, begun: seq<Op>, logs: Logs) {
    && multiset(OpsOf(ls)) == multiset(begun)
    && (logs != [] ==>
          Takes(logs, ls) && Forward(multiset(ls), logs[0].ts) && Anchored(multiset(ls), logs[0].ts))
  }

  /** What the windows of a finished run say about its requests. */
  ghost predicate Fits(window: nat, begun: seq<Op>, logs: Logs)
    requires 0 < window < U64
  {
    && Regular(logs, window) && (logs == [] <==> begun == []) && ForStarts(begun, window)
    && (logs != [] ==> Reaches(begun, Newest(logs).ts))
  }

  ghost predicate Reaches(ops: seq<Op>, newest: nat) {
    (forall op | op in ops :: op.ts <= newest) && exists op | op in ops :: op.ts == newest
  }

  lemma SameOps(a: seq<Op>, b: seq<Op>)
    requires multiset(a) == multiset(b)
    ensures (forall op :: op in a <==> op in b) && (a == [] <==> b == [])
  {
    forall op ensures op in a <==> op in b {
      assert op in a <==> op in multiset(a);
      assert op in b <==> op in multiset(b);
    }
    if a != [] { assert a[0] in b; }
    if b != [] { assert b[0] in a; }
  }

  lemma {:induction false} LandingToOp(ls: seq<Landing>, l: Landing)
    requires l in ls
    ensures Op(l.asked, l.msgs) in OpsOf(ls)
  {
    var init, last := ls[..|ls| - 1], ls[|ls| - 1];
    assert ls == init + [last];
    OpsSnoc(ls);
    if l in init {
      LandingToOp(init, l);
    }
  }

  /** Landings of these requests reach as far as the requests do. */
  lemma LandingsReach(ls: seq<Landing>, begun: seq<Op>, newest: nat, window: nat)
    requires multiset(OpsOf(ls)) == multiset(begun) && Reaches(begun, newest) && 0 < window && ForStarts(begun, window)
    ensures Spans(ls, newest) && StartsOfWindows(ls, window)
  {
    SameOps(OpsOf(ls), begun);
    forall l | l in ls ensures l.asked <= newest && l.asked < U64 && l.asked % window == 0 {
      LandingToOp(ls, l);
      assert Op(l.asked, l.msgs) in begun;
    }
    var op :| op in begun && op.ts == newest;
    var l := OpOfLanding(ls, op);
  }

  /** An order that leaves these windows is a way to land the requests. */
  lemma OrderExplains(window: nat, ops: seq<Op>, begun: seq<Op>, logs: Logs)
    requires 0 < window < U64 && Fits(window, begun, logs) && multiset(ops) == multiset(begun)
    requires SameMessages(SeqRun(window, ops), logs)
    ensures Explains(LandingsOf(window, ops), begun, logs)
  {
    SameOps(ops, begun);
    assert ForStarts(ops, window);
    LandingsOfOps(window, ops);
    if logs != [] {
      var p := LandingsOf(window, ops);
      SequentialShape(window, ops);
      SequentialAttribution(window, ops);
      RunEnds(window, p);
      hide SeqRun;
      forall k | 0 <= k < |logs| ensures multiset(logs[k].body) == LandedAt(p, logs[k].ts) {
        AttributedIsLanded(window, p, logs[k].ts);
      }
      hide LandedAt;
      hide Attributed;
      OrderedIsAnchored(p);
      OrderedIsForward(p);
      hide Anchored;
      hide Forward;
    }
  }

  lemma {:induction false} OrderedIsForward(p: seq<Landing>)
    requires InOrder(p) && p != []
    ensures Forward(multiset(p), p[0].asked) && p[0].asked <= Peak(p)
  {
    var init, last := p[..|p| - 1], p[|p| - 1];
    assert p == init + [last];
    if init == [] {
      PeakOne(last);
    } else {
      OrderedIsForward(init);
    }
    forall l | l in multiset(p) ensures l.asked <= l.at && p[0].asked <= l.at {
      if l != last { assert l in multiset(init); }
    }
  }

  /** Such a way to land the requests can be put in an order that leaves these windows. */
  lemma ExplanationHasOrder(window: nat, ls: seq<Landing>, begun: seq<Op>, logs: Logs) returns (ops: seq<Op>)
    requires 0 < window < U64 && Fits(window, begun, logs) && Explains(ls, begun, logs)
    ensures multiset(ops) == multiset(begun) && SameMessages(SeqRun(window, ops), logs)
  {
    if logs == [] {
      ops := begun;
    } else {
      hide Anchored;
      hide Forward;
      hide Regular;
      LandingsReach(ls, begun, Newest(logs).ts, window);
      var p := AnchoredHasOrder(multiset(ls), logs[0].ts);
      ops := OpsOf(p);
      OpsPermuted(p, ls);
      SpansPeak(p, ls, Newest(logs).ts);
      SameLandings(p, ls);
      SequentialRunIff(window, p, logs);
      SequentialRunTakes(window, p, ls, logs);
    }
  }

  /** Exactly when some order of the requests leaves the windows of a finished run. */
  lemma OrderIffExplained(window: nat, begun: seq<Op>, logs: Logs)
    requires 0 < window < U64 && Fits(window, begun, logs)
    ensures SomeOrderLeaves(window, begun, logs) <==> exists ls :: Explains(ls, begun, logs)
  {
    hide Fits;
    hide Explains;
    hide SeqRun;
    hide SameMessages;
    if ops: seq<Op> :| multiset(ops) == multiset(begun) && SameMessages(SeqRun(window, ops), logs) {
      OrderExplains(window, ops, begun, logs);
    }
    if ls :| Explains(ls, begun, logs) {
      var ops := ExplanationHasOrder(window, ls, begun, logs);
    }
  }

  lemma FinishedFits(window: nat, ls: seq<Landing>, begun: seq<Op>, logs: Logs)
    requires 0 < window < U64 && Finished(window, ls, logs) && multiset(OpsOf(ls)) == multiset(begun)
    ensures Fits(window, begun, logs)
  {
    SameOps(OpsOf(ls), begun);
    forall op | op in begun
      ensures op.ts < U64 && op.ts % window == 0 && (logs != [] ==> op.ts <= Newest(logs).ts)
    {
      var l := OpOfLanding(ls, op);
    }
    if logs != [] {
      var l :| l in ls && l.asked == Newest(logs).ts;
      LandingToOp(ls, l);
      assert Op(l.asked, l.msgs) in begun;
    }
  }

  lemma FinishedRequests(c: Config, n: nat, acts: seq<Action>)
    requires ValidConfig(c) && Run(c, n, acts).Some? && AllIdle(Run(c, n, acts).value)
    ensures multiset(OpsOf(Landings(c, Init(n), acts))) == multiset(Begun(c, acts))
    ensures Finished(c.window, Landings(c, Init(n), acts), Run(c, n, acts).value.logs)
    ensures Fits(c.window, Begun(c, acts), Run(c, n, acts).value.logs)
  {
    var s, ls := Run(c, n, acts).value, Landings(c, Init(n), acts);
    Reachable(c, n, acts);
    IdleFacts(c, s);
    RequestsLand(c, n, acts);
    assert multiset(OpsOf(ls)) + multiset{} == multiset(OpsOf(ls));
    FinishedRun(c, n, acts);
    hide *;
    FinishedFits(c.window, ls, Begun(c, acts), s.logs);
  }

  /** Exactly when a concurrent run leaves what some order of its whole requests leaves: some way to land the requests
      fills the windows as they are and is anchored. It need not be the way they did land. */
  lemma ContentsIff(c: Config, n: nat, acts: seq<Action>)
    requires ValidConfig(c) && Run(c, n, acts).Some? && AllIdle(Run(c, n, acts).value)
    ensures var logs := Run(c, n, acts).value.logs;
            SomeOrderLeaves(c.window, Begun(c, acts), logs) <==> exists ls :: Explains(ls, Begun(c, acts), logs)
  {
    FinishedRequests(c, n, acts);
    hide *;
    OrderIffExplained(c.window, Begun(c, acts), Run(c, n, acts).value.logs);
  }

  // ---- Requests that can be told apart ----

  /** Every request has an accepted message that no other request has. */
  ghost predicate Marked(ls: seq<Landing>) {
    forall i | 0 <= i < |ls| :: HasMark(ls, i)
  }

  ghost predicate HasMark(ls: seq<Landing>, i: nat)
    requires i < |ls|
  {
    exists x :: Marks(ls, i, x)
  }

  ghost predicate Marks(ls: seq<Landing>, i: nat, x: Msg)
    requires i < |ls|
  {
    x in Accepted(ls[i].msgs) && forall j | 0 <= j < |ls| && j != i :: x !in Accepted(ls[j].msgs)
  }

  /** A message of a window was brought there. */
  lemma {:induction false} WhoBrought(ls: seq<Landing>, w: nat, x: Msg)
    ensures x in LandedAt(ls, w) <==> exists i | 0 <= i < |ls| :: ls[i].at == w && x in Accepted(ls[i].msgs)
  {
    hide Accepted;
    if ls != [] {
      var init, last := ls[..|ls| - 1], ls[|ls| - 1];
      WhoBrought(init, w, x);
      assert ls == init + [last];
      LandedSnoc(init, last, w);
      hide LandedAt;
      assert x in multiset(Accepted(last.msgs)) <==> x in Accepted(last.msgs);
      if i :| 0 <= i < |ls| && ls[i].at == w && x in Accepted(ls[i].msgs) {
        if i < |init| { assert init[i] == ls[i]; }
      }
    }
  }

  /** Every window that an anchored landing uses exists. */
  lemma WindowExists(window: nat, w: nat, logs: Logs) returns (k: nat)
    requires Regular(logs, window) && logs != [] && w % window == 0 && logs[0].ts <= w <= Newest(logs).ts
    ensures k < |logs| && logs[k].ts == w
  {
    k := (w - logs[0].ts) / window;
    RegularAligned(logs, window, 0);
    RegularAligned(logs, window, |logs| - 1);
    Steps(logs[0].ts, w, window);
    if k >= |logs| {
      MulOrder(|logs| - 1, k, window);
    }
    RegularAligned(logs, window, k);
  }

  lemma Steps(x: nat, y: nat, window: nat)
    requires 0 < window && x % window == 0 && y % window == 0 && x <= y
    ensures y == x + (y - x) / window * window
  {
    var q := y / window - x / window;
    assert x == x / window * window && y == y / window * window;
    assert y - x == q * window by { assert (y / window - x / window) * window == y / window * window - x / window * window; }
    if q < 0 { MulOrder(y / window, x / window, window); }
    DivUnique(y - x, q, 0, window);
  }

  /** A marked request lands in the same window in every explanation. */
  lemma MarkedLanding(window: nat, ls: seq<Landing>, other: seq<Landing>, begun: seq<Op>, logs: Logs, l: Landing)
    requires 0 < window < U64 && Finished(window, ls, logs) && Fits(window, begun, logs) && logs != []
    requires multiset(OpsOf(ls)) == multiset(begun) && Marked(ls) && Explains(other, begun, logs) && l in other
    ensures l in ls
  {
    LandingsReach(other, begun, Newest(logs).ts, window);
    var k := UsedWindow(window, other, logs, l);
    assert LandedAt(ls, l.at) == multiset(logs[k].body) == LandedAt(other, l.at);
    SameOps(OpsOf(ls), begun);
    SameOps(OpsOf(other), begun);
    LandingToOp(other, l);
    var l' := OpOfLanding(ls, Op(l.asked, l.msgs));
    hide *;
    SameWindow(ls, other, l', l);
  }

  /** Landings of one marked request, in two landings that put the same messages in its window, are the same. */
  lemma SameWindow(ls: seq<Landing>, other: seq<Landing>, l': Landing, l: Landing)
    requires Marked(ls) && l' in ls && l in other && l'.asked == l.asked && l'.msgs == l.msgs
    requires LandedAt(ls, l.at) == LandedAt(other, l.at)
    ensures l == l'
  {
    hide LandedAt;
    hide Accepted;
    var i :| 0 <= i < |ls| && ls[i] == l';
    var j :| 0 <= j < |other| && other[j] == l;
    assert HasMark(ls, i);
    var x :| Marks(ls, i, x);
    WhoBrought(other, l.at, x);
    WhoBrought(ls, l.at, x);
  }

  lemma UsedWindow(window: nat, ls: seq<Landing>, logs: Logs, l: Landing) returns (k: nat)
    requires 0 < window && Regular(logs, window) && logs != [] && l in ls
    requires Spans(ls, Newest(logs).ts) && StartsOfWindows(ls, window)
    requires Forward(multiset(ls), logs[0].ts) && Anchored(multiset(ls), logs[0].ts)
    ensures k < |logs| && logs[k].ts == l.at
  {
    assert l in multiset(ls);
    assert Anchors(multiset(ls), l.at);
    var x :| x in multiset(ls) && Exact(x, l.at);
    assert x in ls;
    k := WindowExists(window, l.at, logs);
  }

  /** If each request can be told apart by some accepted message, its own landings decide: some order of the requests
      leaves the windows exactly if the run is sequential in the stronger sense. */
  lemma MarkedIff(window: nat, ls: seq<Landing>, begun: seq<Op>, logs: Logs)
    requires 0 < window < U64 && Finished(window, ls, logs) && Fits(window, begun, logs)
    requires multiset(OpsOf(ls)) == multiset(begun) && Marked(ls)
    ensures SomeOrderLeaves(window, begun, logs) <==> IsSequential(window, ls, logs)
  {
    OrderIffExplained(window, begun, logs);
    FinishedIff(window, ls, logs);
    if logs != [] {
      if Anchored(multiset(ls), logs[0].ts) {
        assert Explains(ls, begun, logs);
      }
      if other :| Explains(other, begun, logs) {
        OwnAnchors(window, ls, other, begun, logs);
      }
    } else {
      assert Explains(ls, begun, logs);
    }
  }

  lemma OwnAnchors(window: nat, ls: seq<Landing>, other: seq<Landing>, begun: seq<Op>, logs: Logs)
    requires 0 < window < U64 && Finished(window, ls, logs) && Fits(window, begun, logs) && logs != []
    requires multiset(OpsOf(ls)) == multiset(begun) && Marked(ls) && Explains(other, begun, logs)
    ensures Anchored(multiset(ls), logs[0].ts)
  {
    var mine, theirs := multiset(ls), multiset(other);
    forall w | Anchors(theirs, w) ensures Anchors(mine, w) {
      var x :| x in theirs && Exact(x, w);
      assert x in other;
      MarkedLanding(window, ls, other, begun, logs, x);
      assert x in mine;
    }
    forall l | l in mine ensures Anchors(mine, l.at) {
      assert l in ls;
      LandingToOp(ls, l);
      SameOps(OpsOf(ls), begun);
      SameOps(OpsOf(other), begun);
      var y := OpOfLanding(other, Op(l.asked, l.msgs));
      MarkedLanding(window, ls, other, begun, logs, y);
      SameRequest(ls, l, y);
      assert y in theirs;
    }
  }

  /** Marked requests are different requests. */
  lemma SameRequest(ls: seq<Landing>, l: Landing, y: Landing)
    requires Marked(ls) && l in ls && y in ls && l.msgs == y.msgs
    ensures l == y
  {
    var i :| 0 <= i < |ls| && ls[i] == l;
    var j :| 0 <= j < |ls| && ls[j] == y;
    assert HasMark(ls, i);
    var x :| Marks(ls, i, x);
  }

  lemma MarkedContentsIff(c: Config, n: nat, acts: seq<Action>)
    requires ValidConfig(c) && Run(c, n, acts).Some? && AllIdle(Run(c, n, acts).value)
    requires Marked(Landings(c, Init(n), acts))
    ensures var logs, ls := Run(c, n, acts).value.logs, Landings(c, Init(n), acts);
            && (SomeOrderLeaves(c.window, Begun(c, acts), logs) <==> IsSequential(c.window, ls, logs))
            && (SomeOrderLeaves(c.window, Begun(c, acts), logs) <==> logs == [] || Anchored(multiset(ls), logs[0].ts))
  {
    FinishedRequests(c, n, acts);
    hide *;
    var logs, ls := Run(c, n, acts).value.logs, Landings(c, Init(n), acts);
    MarkedIff(c.window, ls, Begun(c, acts), logs);
    FinishedIff(c.window, ls, logs);
  }
}
