/** Which landings some order of whole requests explains. */
module SerialOrder {
  import opened Types
  import opened Clock
  import opened Traffic
  import opened Timeline
  import opened StoreSpec
  import opened ConcurrentRequests

  /** The latest window asked for. */
  function Peak(p: seq<Landing>): nat {
    if p == [] then 0 else Max(Peak(p[..|p| - 1]), p[|p| - 1].asked)
  }

  /** Each request lands in the latest window asked for so far: what a sequential store does. */
  predicate InOrder(p: seq<Landing>) {
    p == [] || (InOrder(p[..|p| - 1]) && p[|p| - 1].at == Peak(p))
  }

  predicate Exact(l: Landing, w: nat) {
    l.asked == w && l.at == w
  }

  /** Some request for window `w` landed in it. */
  ghost predicate Anchors(ls: multiset<Landing>, w: nat) {
    exists l | l in ls :: Exact(l, w)
  }

  /** The first window, and every window in which a batch landed, took a batch that was asked for it. */
  ghost predicate Anchored(ls: multiset<Landing>, first: nat) {
    Anchors(ls, first) && forall l | l in ls :: Anchors(ls, l.at)
  }

  /** What landings are like: never before the window asked for, and never before the first window. */
  ghost predicate Forward(ls: multiset<Landing>, first: nat) {
    forall l | l in ls :: l.asked <= l.at && first <= l.at
  }

  // ---- From an order to anchors ----

  lemma {:induction false} PeakLanded(p: seq<Landing>)
    requires InOrder(p) && p != []
    ensures exists l | l in p :: Exact(l, Peak(p))
  {
    var init, last := p[..|p| - 1], p[|p| - 1];
    assert p == init + [last];
    if last.asked >= Peak(init) {
      assert last in p && Exact(last, Peak(p));
    } else {
      PeakLanded(init);
      var l :| l in init && Exact(l, Peak(init));
      assert l in p;
    }
  }

  lemma {:induction false} OrderAnchors(p: seq<Landing>, l: Landing)
    requires InOrder(p) && l in p
    ensures exists x | x in p :: Exact(x, l.at)
  {
    var init, last := p[..|p| - 1], p[|p| - 1];
    assert p == init + [last];
    if l in init {
      OrderAnchors(init, l);
      var x :| x in init && Exact(x, l.at);
      assert x in p;
    } else {
      PeakLanded(p);
    }
  }

  lemma {:induction false} FirstIsExact(p: seq<Landing>)
    requires InOrder(p) && p != []
    ensures Exact(p[0], p[0].asked)
  {
    if |p| > 1 {
      FirstIsExact(p[..|p| - 1]);
    } else {
      PeakOne(p[0]);
      assert p == [p[0]];
    }
  }

  lemma PeakOne(l: Landing)
    ensures Peak([l]) == l.asked && (InOrder([l]) <==> l.at == l.asked)
  {
    assert [l][..|[l]| - 1] == [];
  }

  lemma PeakSnoc(p: seq<Landing>, l: Landing)
    ensures Peak(p + [l]) == Max(Peak(p), l.asked)
    ensures InOrder(p + [l]) <==> InOrder(p) && l.at == Max(Peak(p), l.asked)
  {
    assert (p + [l])[..|p + [l]| - 1] == p;
  }

  lemma OrderedIsAnchored(p: seq<Landing>)
    requires InOrder(p) && p != []
    ensures Anchored(multiset(p), p[0].asked)
  {
    FirstIsExact(p);
    assert p[0] in multiset(p);
    forall l | l in multiset(p) ensures Anchors(multiset(p), l.at) {
      OrderAnchors(p, l);
      var x :| x in p && Exact(x, l.at);
      assert x in multiset(p);
    }
  }

  // ---- From anchors to an order ----

  /** A landing in the latest window, exact only if all of them are. */
  lemma {:induction false} LastLanding(ls: multiset<Landing>) returns (x: Landing)
    requires ls != multiset{}
    ensures x in ls && forall l | l in ls :: l.at <= x.at
    ensures Exact(x, x.at) ==> forall l | l in ls && l.at == x.at :: Exact(l, x.at)
    decreases |ls|
  {
    var y :| y in ls;
    var rest := ls - multiset{y};
    assert forall l :: l in ls <==> l in rest || l == y;
    if rest == multiset{} {
      x := y;
    } else {
      var z := LastLanding(rest);
      x := if z.at < y.at || (z.at == y.at && Exact(z, z.at)) then y else z;
    }
  }

  lemma {:induction false} PeakBound(p: seq<Landing>, w: nat)
    requires forall l | l in p :: l.asked <= w
    ensures Peak(p) <= w
    ensures forall l | l in p :: l.asked <= Peak(p)
  {
    if p != [] {
      var init, last := p[..|p| - 1], p[|p| - 1];
      assert p == init + [last];
      PeakBound(init, w);
    }
  }

  /** Without its last landing, a set of landings is still anchored. */
  lemma StillAnchored(ls: multiset<Landing>, x: Landing, first: nat)
    requires Anchored(ls, first) && Forward(ls, first) && x in ls
    requires forall l | l in ls :: l.at <= x.at
    requires Exact(x, x.at) ==> forall l | l in ls && l.at == x.at :: Exact(l, x.at)
    requires ls - multiset{x} != multiset{}
    ensures Anchored(ls - multiset{x}, first) && Forward(ls - multiset{x}, first)
  {
    var rest := ls - multiset{x};
    assert forall l :: l in ls <==> l in rest || l == x;
    forall w | Anchors(ls, w) && (w == first || exists l | l in rest :: l.at == w) ensures Anchors(rest, w) {
      var y :| y in rest && (w == first || y.at == w);
      var l :| l in ls && Exact(l, w);
      if l !in rest {
        assert y.at == w;
        assert Exact(y, w);
      }
    }
    assert Anchors(rest, first);
    forall l | l in rest ensures Anchors(rest, l.at) {
      assert l in ls;
    }
  }

  /** Anchored landings have an order: by window, and in each window one that was asked for it first. */
  lemma {:induction false} AnchoredHasOrder(ls: multiset<Landing>, first: nat) returns (p: seq<Landing>)
    requires Anchored(ls, first) && Forward(ls, first)
    ensures multiset(p) == ls && p != [] && InOrder(p) && p[0].asked == first
    decreases |ls|
  {
    hide Anchored;
    hide Forward;
    hide InOrder;
    AnchorsFirst(ls, first);
    var x := LastLanding(ls);
    var rest := ls - multiset{x};
    assert ls == rest + multiset{x};
    if rest == multiset{} {
      OnlyLanding(ls, x, first);
      p := [x];
      PeakOne(x);
    } else {
      StillAnchored(ls, x, first);
      var q := AnchoredHasOrder(rest, first);
      p := q + [x];
      LastFits(q, x, ls, first);
      PeakSnoc(q, x);
    }
  }

  lemma AnchorsFirst(ls: multiset<Landing>, first: nat)
    requires Anchored(ls, first)
    ensures Anchors(ls, first) && ls != multiset{}
  {
  }

  lemma OnlyLanding(ls: multiset<Landing>, x: Landing, first: nat)
    requires Anchors(ls, first) && ls == multiset{x}
    ensures Exact(x, first)
  {
  }

  lemma LastFits(q: seq<Landing>, x: Landing, ls: multiset<Landing>, first: nat)
    requires ls == multiset(q) + multiset{x} && Anchored(ls, first) && Forward(ls, first)
    requires forall l | l in ls :: l.at <= x.at
    ensures Max(Peak(q), x.asked) == x.at
  {
    forall l | l in q ensures l.asked <= x.at {
      assert l in ls;
    }
    PeakBound(q, x.at);
    assert x in ls && Anchors(ls, x.at);
    var y :| y in ls && Exact(y, x.at);
    if y != x {
      assert y in multiset(q);
    }
  }

  // ---- The sequential store ----

  function OpsOf(p: seq<Landing>): (r: seq<Op>)
    ensures |r| == |p|
  {
    if p == [] then [] else OpsOf(p[..|p| - 1]) + [Op(p[|p| - 1].asked, p[|p| - 1].msgs)]
  }

  /** The windows asked for are window starts within 64 bits. */
  ghost predicate StartsOfWindows(p: seq<Landing>, window: nat)
    requires 0 < window
  {
    forall l | l in p :: l.asked < U64 && l.asked % window == 0
  }

  lemma OpsSnoc(p: seq<Landing>)
    requires p != []
    ensures var ops := OpsOf(p); ops[..|ops| - 1] == OpsOf(p[..|p| - 1]) && ops[|ops| - 1] == Op(p[|p| - 1].asked, p[|p| - 1].msgs)
  {
  }

  lemma InitStarts(p: seq<Landing>, window: nat)
    requires 0 < window && StartsOfWindows(p, window) && p != []
    ensures StartsOfWindows(p[..|p| - 1], window) && p[|p| - 1].asked < U64 && p[|p| - 1].asked % window == 0
  {
    var init, last := p[..|p| - 1], p[|p| - 1];
    assert p == init + [last];
    assert last in p;
  }

  lemma {:induction false} RunningMaxIsPeak(window: nat, p: seq<Landing>)
    requires 0 < window < U64 && StartsOfWindows(p, window)
    ensures RunningMax(window, OpsOf(p)) == Peak(p)
  {
    if p != [] {
      OpsSnoc(p);
      InitStarts(p, window);
      hide StartsOfWindows;
      RunningMaxIsPeak(window, p[..|p| - 1]);
      TruncIs(p[|p| - 1].asked, window);
    }
  }

  lemma TruncIs(ts: nat, window: nat)
    requires 0 < window < U64 && ts < U64 && ts % window == 0
    ensures Trunc(ts, window) == ts
  {
  }

  /** The valid messages of the batches that landed in `w`. */
  function LandedAt(p: seq<Landing>, w: nat): multiset<Msg> {
    if p == [] then multiset{} else LandedAt(p[..|p| - 1], w) + Brought(p[|p| - 1], w)
  }

  function Brought(l: Landing, w: nat): multiset<Msg> {
    if l.at == w then multiset(Accepted(l.msgs)) else multiset{}
  }

  lemma {:induction false} AttributedIsLanded(window: nat, p: seq<Landing>, w: nat)
    requires 0 < window < U64 && StartsOfWindows(p, window) && InOrder(p)
    ensures multiset(Attributed(window, OpsOf(p), w)) == LandedAt(p, w)
  {
    if p != [] {
      var init, last := p[..|p| - 1], p[|p| - 1];
      OpsSnoc(p);
      InitStarts(p, window);
      RunningMaxIsPeak(window, p);
      hide StartsOfWindows;
      hide RunningMax;
      hide OpsOf;
      AttributedIsLanded(window, init, w);
    }
  }

  lemma {:induction false} LandedConcat(p: seq<Landing>, q: seq<Landing>, w: nat)
    ensures LandedAt(p + q, w) == LandedAt(p, w) + LandedAt(q, w)
  {
    hide Brought;
    if q == [] {
      assert p + q == p;
    } else {
      assert (p + q)[..|p + q| - 1] == p + q[..|q| - 1];
      LandedConcat(p, q[..|q| - 1], w);
    }
  }

  lemma LandedOne(l: Landing, w: nat)
    ensures LandedAt([l], w) == Brought(l, w)
  {
    assert [l][..|[l]| - 1] == [];
  }

  lemma PullLast(p: seq<Landing>, q: seq<Landing>) returns (k: nat)
    requires multiset(p) == multiset(q) && p != []
    ensures k < |q| && q[k] == p[|p| - 1] && multiset(p[..|p| - 1]) == multiset(q[..k] + q[k + 1..])
  {
    var init, l := p[..|p| - 1], p[|p| - 1];
    assert p == init + [l];
    assert l in multiset(q);
    k :| 0 <= k < |q| && q[k] == l;
    assert q == q[..k] + [l] + q[k + 1..];
    assert multiset(q) == multiset(q[..k]) + multiset{l} + multiset(q[k + 1..]);
    assert multiset(init) == multiset(p) - multiset{l};
    assert multiset(q[..k] + q[k + 1..]) == multiset(q) - multiset{l};
  }

  /** The order of landings does not matter to what each window takes. */
  lemma {:induction false} LandedPermuted(p: seq<Landing>, q: seq<Landing>, w: nat)
    requires multiset(p) == multiset(q)
    ensures LandedAt(p, w) == LandedAt(q, w)
    decreases |p|
  {
    hide Brought;
    if p == [] {
      assert |multiset(q)| == |multiset(p)|;
    } else {
      var k := PullLast(p, q);
      var before, l, after := q[..k], q[k], q[k + 1..];
      LandedPermuted(p[..|p| - 1], before + after, w);
      assert q == (before + [l]) + after;
      LandedConcat(before + [l], after, w);
      LandedConcat(before, [l], w);
      LandedConcat(before, after, w);
      LandedOne(l, w);
      hide LandedAt;
      assert LandedAt(before, w) + Brought(l, w) + LandedAt(after, w)
          == LandedAt(before, w) + LandedAt(after, w) + Brought(l, w);
    }
  }

  /** The sequential run of the requests of `p` creates the same windows, and each request lands in it where it landed. */
  ghost predicate SequentialRun(window: nat, p: seq<Landing>, logs: Logs)
    requires 0 < window < U64
  {
    && SameStarts(SeqRun(window, OpsOf(p)), logs)
    && forall k | 0 < k <= |p| :: LandsAt(window, p[..k], p[k - 1].at)
  }

  ghost predicate SameStarts(a: Logs, b: Logs) {
    |a| == |b| && forall k | 0 <= k < |a| :: a[k].ts == b[k].ts
  }

  ghost predicate LandsAt(window: nat, p: seq<Landing>, w: nat)
    requires 0 < window < U64
  {
    var run := SeqRun(window, OpsOf(p));
    run != [] && Newest(run).ts == w
  }

  lemma PrefixStarts(p: seq<Landing>, k: nat, window: nat)
    requires 0 < window && StartsOfWindows(p, window) && k <= |p|
    ensures StartsOfWindows(p[..k], window)
  {
  }

  lemma LandsAtPeak(window: nat, p: seq<Landing>, w: nat)
    requires 0 < window < U64 && StartsOfWindows(p, window) && p != []
    ensures LandsAt(window, p, w) <==> Peak(p) == w
  {
    RunningMaxIsPeak(window, p);
    SequentialShape(window, OpsOf(p));
    hide SeqRun;
    hide RunningMax;
    hide OpsOf;
  }

  lemma {:induction false} InOrderIff(p: seq<Landing>)
    ensures InOrder(p) <==> forall k | 0 < k <= |p| :: Peak(p[..k]) == p[k - 1].at
  {
    hide Peak;
    if p != [] {
      var init := p[..|p| - 1];
      InOrderIff(init);
      assert p[..|p|] == p;
      assert forall k | 0 < k <= |init| :: init[..k] == p[..k] && init[k - 1] == p[k - 1];
    }
  }

  /** A sequential run is an order that starts with the first window and ends with the last. */
  lemma SequentialRunIff(window: nat, p: seq<Landing>, logs: Logs)
    requires 0 < window < U64 && StartsOfWindows(p, window) && p != [] && Regular(logs, window) && logs != []
    ensures SequentialRun(window, p, logs)
       <==> InOrder(p) && p[0].asked == logs[0].ts && Peak(p) == Newest(logs).ts
  {
    InOrderIff(p);
    forall k | 0 < k <= |p| ensures LandsAt(window, p[..k], p[k - 1].at) <==> Peak(p[..k]) == p[k - 1].at {
      PrefixStarts(p, k, window);
      LandsAtPeak(window, p[..k], p[k - 1].at);
    }
    RunEnds(window, p);
    hide Peak;
    hide LandsAt;
    hide InOrder;
    SameStartsIff(window, SeqRun(window, OpsOf(p)), logs);
  }

  lemma RunEnds(window: nat, p: seq<Landing>)
    requires 0 < window < U64 && StartsOfWindows(p, window) && p != []
    ensures var run := SeqRun(window, OpsOf(p));
            Regular(run, window) && run != [] && run[0].ts == p[0].asked && Newest(run).ts == Peak(p)
  {
    RunningMaxIsPeak(window, p);
    SequentialShape(window, OpsOf(p));
    FirstOp(p);
    assert p[0] in p;
    TruncIs(p[0].asked, window);
    hide SeqRun;
    hide RunningMax;
    hide OpsOf;
  }

  lemma {:induction false} FirstOp(p: seq<Landing>)
    requires p != []
    ensures OpsOf(p)[0] == Op(p[0].asked, p[0].msgs)
  {
    if |p| > 1 {
      FirstOp(p[..|p| - 1]);
    } else {
      assert OpsOf(p[..|p| - 1]) == [];
    }
  }

  lemma SameStartsIff(window: nat, a: Logs, b: Logs)
    requires Regular(a, window) && Regular(b, window) && a != [] && b != []
    ensures SameStarts(a, b) <==> a[0].ts == b[0].ts && Newest(a).ts == Newest(b).ts
  {
    hide Regular;
    if a[0].ts == b[0].ts && Newest(a).ts == Newest(b).ts {
      if |a| < |b| {
        SameStart(a, b, window, |a| - 1);
        RegularOrder(b, window, |a| - 1, |b| - 1);
      } else if |b| < |a| {
        SameStart(a, b, window, |b| - 1);
        RegularOrder(a, window, |b| - 1, |a| - 1);
      }
      forall k | 0 <= k < |a| ensures a[k].ts == b[k].ts {
        SameStart(a, b, window, k);
      }
    }
  }

  /** Such a run also has the same messages in every window. */
  lemma SequentialRunTakes(window: nat, p: seq<Landing>, ls: seq<Landing>, logs: Logs)
    requires 0 < window < U64 && StartsOfWindows(p, window) && InOrder(p) && SameStarts(SeqRun(window, OpsOf(p)), logs)
    requires multiset(p) == multiset(ls)
    requires forall k | 0 <= k < |logs| :: multiset(logs[k].body) == LandedAt(ls, logs[k].ts)
    ensures SameMessages(SeqRun(window, OpsOf(p)), logs)
  {
    var run := SeqRun(window, OpsOf(p));
    SequentialAttribution(window, OpsOf(p));
    forall k | 0 <= k < |run| ensures multiset(run[k].body) == multiset(logs[k].body) {
      AttributedIsLanded(window, p, run[k].ts);
      LandedPermuted(p, ls, run[k].ts);
    }
  }
}
