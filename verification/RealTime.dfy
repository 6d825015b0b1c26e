/** Orders of requests that also respect real time: which landings they explain. */
module RealTime {
  import opened Clock
  import opened StoreSpec
  import opened ConcurrentRequests
  import opened SerialOrder

  /** A landing with the steps at which its request began, landed and finished. */
  datatype Span = Span(landing: Landing, from: nat, mid: nat, to: nat)

  /** One request had finished before the other began. */
  predicate Precedes(x: Span, y: Span) {
    x.to < y.from
  }

  function LandingsIn(p: seq<Span>): (r: seq<Landing>)
    ensures |r| == |p|
  {
    if p == [] then [] else LandingsIn(p[..|p| - 1]) + [p[|p| - 1].landing]
  }

  lemma {:induction false} LandingsInAt(p: seq<Span>, k: nat)
    requires k < |p|
    ensures LandingsIn(p)[k] == p[k].landing
  {
    if k < |p| - 1 {
      LandingsInAt(p[..|p| - 1], k);
    }
  }

  lemma LandingsInSnoc(p: seq<Span>, x: Span)
    ensures LandingsIn(p + [x]) == LandingsIn(p) + [x.landing]
  {
    assert (p + [x])[..|p + [x]| - 1] == p;
  }

  ghost predicate RespectsTime(p: seq<Span>) {
    forall i, j | 0 <= i < j < |p| :: !Precedes(p[j], p[i])
  }

  /** What runs give: a request lands between its beginning and its end, never before the window it asked for or the
      first one, and later landings are not in earlier windows. */
  ghost predicate Timely(ss: multiset<Span>, first: nat) {
    (forall x | x in ss :: Proper(x, first)) && Monotone(ss)
  }

  predicate Proper(x: Span, first: nat) {
    x.from <= x.mid <= x.to && x.landing.asked <= x.landing.at && first <= x.landing.at
  }

  ghost predicate Monotone(ss: multiset<Span>) {
    forall x, y | x in ss && y in ss && x.mid < y.mid :: x.landing.at <= y.landing.at
  }

  /** Some request for window `w` landed in it and had begun when `x` finished. */
  ghost predicate AnchorsInTime(ss: multiset<Span>, w: nat, x: Span) {
    exists e | e in ss :: Exact(e.landing, w) && !Precedes(x, e)
  }

  ghost predicate HasExact(ss: multiset<Span>, w: nat) {
    exists e | e in ss :: Exact(e.landing, w)
  }

  /** The first window took a batch asked for it, and every batch landed in a window for which another request, not
      begun after it was over, was made and landed. */
  ghost predicate InTime(ss: multiset<Span>, first: nat) {
    && HasExact(ss, first)
    && (forall x | x in ss :: AnchorsInTime(ss, x.landing.at, x))
  }

  /** An order of the requests that respects real time and lands each where it landed. */
  ghost predicate OrderInTime(p: seq<Span>, ss: multiset<Span>, first: nat) {
    && multiset(p) == ss && p != [] && RespectsTime(p)
    && InOrder(LandingsIn(p)) && p[0].landing.asked == first
  }

  // ---- From an order to anchors ----

  lemma {:induction false} LandingsInPrefix(p: seq<Span>, k: nat)
    requires k <= |p|
    ensures LandingsIn(p[..k]) == LandingsIn(p)[..k]
    decreases |p|
  {
    if k == |p| {
      assert p[..k] == p;
    } else {
      LandingsInPrefix(p[..|p| - 1], k);
      assert p[..|p| - 1][..k] == p[..k];
    }
  }

  lemma {:induction false} PrefixInOrder(p: seq<Landing>, k: nat)
    requires InOrder(p) && k <= |p|
    ensures InOrder(p[..k])
    decreases |p|
  {
    if k == |p| {
      assert p[..k] == p;
    } else {
      PrefixInOrder(p[..|p| - 1], k);
      assert p[..|p| - 1][..k] == p[..k];
    }
  }

  lemma OrderIsInTime(p: seq<Span>, ss: multiset<Span>, first: nat)
    requires Timely(ss, first) && OrderInTime(p, ss, first)
    ensures InTime(ss, first)
  {
    hide InOrder;
    hide LandingsIn;
    hide Monotone;
    FirstIsExact(LandingsIn(p));
    LandingsInAt(p, 0);
    assert p[0] in multiset(p);
    assert HasExact(ss, first);
    forall x | x in ss ensures AnchorsInTime(ss, x.landing.at, x) {
      var i :| 0 <= i < |p| && p[i] == x;
      var j := AnchorBefore(p, i);
      assert p[j] in multiset(p);
      assert Proper(x, first);
      assert !Precedes(x, p[j]);
    }
  }

  /** At or before each request in the order there is one for its window. */
  lemma AnchorBefore(p: seq<Span>, i: nat) returns (j: nat)
    requires InOrder(LandingsIn(p)) && i < |p|
    ensures j <= i && Exact(p[j].landing, p[i].landing.at)
  {
    var ls := LandingsIn(p);
    PrefixInOrder(ls, i + 1);
    var pre := ls[..i + 1];
    LandingsInAt(p, i);
    LastIsPeak(pre);
    PeakLanded(pre);
    var l :| l in pre && Exact(l, Peak(pre));
    j :| 0 <= j < |pre| && pre[j] == l;
    LandingsInAt(p, j);
  }

  lemma LastIsPeak(p: seq<Landing>)
    requires InOrder(p) && p != []
    ensures p[|p| - 1].at == Peak(p)
  {
  }

  // ---- From anchors to an order ----

  ghost predicate InWindow(x: Span, w: nat) {
    x.landing.at == w
  }

  lemma {:induction false} LatestWindow(ss: multiset<Span>) returns (x: Span)
    requires ss != multiset{}
    ensures x in ss && forall y | y in ss :: y.landing.at <= x.landing.at
    decreases |ss|
  {
    x :| x in ss;
    var rest := ss - multiset{x};
    assert forall y :: y in ss <==> y in rest || y == x;
    if rest != multiset{} {
      var z := LatestWindow(rest);
      if x.landing.at < z.landing.at { x := z; }
    }
  }

  /** The request for `w` that landed in it and began first. */
  lemma {:induction false} FirstExact(ss: multiset<Span>, w: nat) returns (e: Span)
    requires exists x | x in ss :: Exact(x.landing, w)
    ensures e in ss && Exact(e.landing, w) && forall y | y in ss && Exact(y.landing, w) :: e.from <= y.from
    decreases |ss|
  {
    e :| e in ss && Exact(e.landing, w);
    var rest := ss - multiset{e};
    assert forall y :: y in ss <==> y in rest || y == e;
    if x :| x in rest && Exact(x.landing, w) {
      var z := FirstExact(rest, w);
      if z.from < e.from { e := z; }
    }
  }

  lemma {:induction false} LastBegun(ss: multiset<Span>, w: nat) returns (x: Span)
    requires exists y | y in ss :: InWindow(y, w)
    ensures x in ss && InWindow(x, w) && forall y | y in ss && InWindow(y, w) :: y.from <= x.from
    decreases |ss|
  {
    x :| x in ss && InWindow(x, w);
    var rest := ss - multiset{x};
    assert forall y :: y in ss <==> y in rest || y == x;
    if y :| y in rest && InWindow(y, w) {
      var z := LastBegun(rest, w);
      if x.from < z.from { x := z; }
    }
  }

  /** The window's first anchor comes after nobody in the window. */
  lemma AnchorIsFirst(ss: multiset<Span>, w: nat, e: Span, x: Span)
    requires AnchorsInTime(ss, w, x)
    requires forall y | y in ss && Exact(y.landing, w) :: e.from <= y.from
    ensures !Precedes(x, e)
  {
    var y :| y in ss && Exact(y.landing, w) && !Precedes(x, y);
  }

  ghost predicate HasOther(ss: multiset<Span>, e: Span, w: nat) {
    exists y | y in ss - multiset{e} :: InWindow(y, w)
  }

  /** Which request can come last, and the first anchor of its window. */
  ghost predicate ComesLast(ss: multiset<Span>, x: Span, e: Span) {
    var w := x.landing.at;
    && x in ss && e in ss && Exact(e.landing, w)
    && (forall y | y in ss :: y.landing.at <= w)
    && (forall y | y in ss && InWindow(y, w) :: !Precedes(y, e))
    && (forall y | y in ss - multiset{e} && InWindow(y, w) :: y.from <= x.from)
    && (if HasOther(ss, e, w) then x in ss - multiset{e} else x == e)
  }

  lemma Rest(ss: multiset<Span>, x: Span, y: Span)
    requires x in ss
    ensures y in ss <==> y in ss - multiset{x} || y == x
  {
  }

  lemma PickLast(ss: multiset<Span>, first: nat) returns (x: Span, e: Span)
    requires InTime(ss, first)
    ensures ComesLast(ss, x, e)
  {
    hide InTime;
    AnyInTime(ss, first);
    var z := LatestWindow(ss);
    var w := z.landing.at;
    AnchoredInTime(ss, first, z);
    e := FirstExact(ss, w);
    forall y | y in ss && InWindow(y, w) ensures !Precedes(y, e) {
      AnchoredInTime(ss, first, y);
      AnchorIsFirst(ss, w, e, y);
    }
    if HasOther(ss, e, w) {
      x := LastBegun(ss - multiset{e}, w);
      Rest(ss, e, x);
    } else {
      x := e;
    }
  }

  lemma AnyInTime(ss: multiset<Span>, first: nat)
    requires InTime(ss, first)
    ensures ss != multiset{}
  {
  }

  lemma AnchoredInTime(ss: multiset<Span>, first: nat, y: Span)
    requires InTime(ss, first) && y in ss
    ensures AnchorsInTime(ss, y.landing.at, y) && exists x | x in ss :: Exact(x.landing, y.landing.at)
  {
    assert AnchorsInTime(ss, y.landing.at, y);
  }

  lemma StayAnchored(ss: multiset<Span>, first: nat, x: Span, e: Span, y: Span)
    requires InTime(ss, first) && ComesLast(ss, x, e) && y in ss - multiset{x}
    ensures AnchorsInTime(ss - multiset{x}, y.landing.at, y)
  {
    hide InTime;
    hide ComesLast;
    var rest := ss - multiset{x};
    LastIsIn(ss, x, e);
    Rest(ss, x, y);
    if InWindow(y, x.landing.at) {
      OthersKeepAnchor(ss, x, e, y);
      AnchorOfLast(ss, x, e, y);
    } else {
      AnchoredInTime(ss, first, y);
      var a :| a in ss && Exact(a.landing, y.landing.at) && !Precedes(y, a);
      Rest(ss, x, a);
      assert a in rest;
    }
  }

  lemma AnchorOfLast(ss: multiset<Span>, x: Span, e: Span, y: Span)
    requires ComesLast(ss, x, e) && y in ss && InWindow(y, x.landing.at)
    ensures Exact(e.landing, y.landing.at) && !Precedes(y, e)
  {
  }

  lemma StayExact(ss: multiset<Span>, first: nat, x: Span, e: Span, y: Span)
    requires HasExact(ss, first) && (forall z | z in ss :: Proper(z, first)) && ComesLast(ss, x, e) && y in ss - multiset{x}
    ensures HasExact(ss - multiset{x}, first)
  {
    var rest := ss - multiset{x};
    var a :| a in ss && Exact(a.landing, first);
    Rest(ss, x, a);
    if a !in rest {
      assert y in ss && Proper(y, first);
      assert InWindow(y, x.landing.at);
      OthersKeepAnchor(ss, x, e, y);
      assert Exact(e.landing, first);
    }
  }

  lemma StayTimely(ss: multiset<Span>, first: nat, x: Span)
    requires Timely(ss, first)
    ensures Timely(ss - multiset{x}, first)
  {
    var rest := ss - multiset{x};
    forall y | y in rest ensures y in ss {
    }
  }

  lemma StaysInTime(ss: multiset<Span>, first: nat, x: Span, e: Span)
    requires InTime(ss, first) && Timely(ss, first) && ComesLast(ss, x, e) && ss - multiset{x} != multiset{}
    ensures InTime(ss - multiset{x}, first) && Timely(ss - multiset{x}, first)
  {
    hide ComesLast;
    hide Monotone;
    hide AnchorsInTime;
    hide HasExact;
    StayTimely(ss, first, x);
    var y :| y in ss - multiset{x};
    StayExact(ss, first, x, e, y);
    forall y | y in ss - multiset{x} ensures AnchorsInTime(ss - multiset{x}, y.landing.at, y) {
      StayAnchored(ss, first, x, e, y);
    }
  }

  /** While the window has other requests, its anchor is not the one that comes last. */
  lemma OthersKeepAnchor(ss: multiset<Span>, x: Span, e: Span, y: Span)
    requires ComesLast(ss, x, e) && y in ss - multiset{x} && InWindow(y, x.landing.at)
    ensures e in ss - multiset{x}
  {
    if x == e {
      assert HasOther(ss, e, x.landing.at);
    }
  }

  lemma LastIsLast(ss: multiset<Span>, first: nat, x: Span, e: Span, y: Span)
    requires Timely(ss, first) && ComesLast(ss, x, e) && y in ss - multiset{x}
    ensures !Precedes(x, y)
  {
    Rest(ss, x, y);
    Rest(ss, e, y);
    assert Proper(x, first) && Proper(y, first);
    if x.mid < y.mid {
      assert x.landing.at <= y.landing.at;
      assert InWindow(y, x.landing.at) && InWindow(x, x.landing.at);
    }
  }

  lemma LastLands(ss: multiset<Span>, first: nat, x: Span, e: Span, q: seq<Span>)
    requires Timely(ss, first) && ComesLast(ss, x, e) && multiset(q) == ss - multiset{x}
    ensures x.landing.at == Max(Peak(LandingsIn(q)), x.landing.asked)
  {
    var ls, w := LandingsIn(q), x.landing.at;
    forall l | l in ls ensures l.asked <= w {
      var k :| 0 <= k < |ls| && ls[k] == l;
      LandingsInAt(q, k);
      assert q[k] in multiset(q);
      Rest(ss, x, q[k]);
      assert Proper(q[k], first);
    }
    hide LandingsIn;
    PeakBound(ls, w);
    if x != e {
      Rest(ss, x, e);
      assert e in multiset(q);
      var k :| 0 <= k < |q| && q[k] == e;
      LandingsInAt(q, k);
      assert ls[k] in ls;
    }
  }

  lemma {:induction false} InTimeHasOrder(ss: multiset<Span>, first: nat) returns (p: seq<Span>)
    requires InTime(ss, first) && Timely(ss, first)
    ensures OrderInTime(p, ss, first)
    decreases |ss|
  {
    hide InTime;
    hide Timely;
    hide ComesLast;
    hide InOrder;
    hide Peak;
    var x, e := PickLast(ss, first);
    LastIsIn(ss, x, e);
    var rest := ss - multiset{x};
    assert ss == rest + multiset{x};
    if rest == multiset{} {
      p := [x];
      OnlyOne(ss, x, first);
    } else {
      StaysInTime(ss, first, x, e);
      var q := InTimeHasOrder(rest, first);
      p := q + [x];
      LandingsInSnoc(q, x);
      LastLands(ss, first, x, e, q);
      PeakSnoc(LandingsIn(q), x.landing);
      forall i, j | 0 <= i < j < |p| ensures !Precedes(p[j], p[i]) {
        if j == |q| {
          assert p[i] in multiset(q);
          LastIsLast(ss, first, x, e, p[i]);
        }
      }
    }
  }

  lemma LastIsIn(ss: multiset<Span>, x: Span, e: Span)
    requires ComesLast(ss, x, e)
    ensures x in ss
  {
  }

  lemma OnlyOne(ss: multiset<Span>, x: Span, first: nat)
    requires InTime(ss, first) && ss == multiset{x}
    ensures OrderInTime([x], ss, first)
  {
    LandingsInSnoc([], x);
    assert [] + [x] == [x] && LandingsIn([]) + [x.landing] == [x.landing];
    PeakOne(x.landing);
    OnlyExact(ss, x, first);
    hide LandingsIn;
    hide InOrder;
    hide InTime;
    assert multiset([x]) == multiset{x};
  }

  lemma OnlyExact(ss: multiset<Span>, x: Span, first: nat)
    requires InTime(ss, first) && ss == multiset{x}
    ensures Exact(x.landing, first)
  {
    assert HasExact(ss, first);
    hide InTime;
  }

  /** Exactly the requests that are anchored in time have an order that respects real time. */
  lemma OrderInTimeIff(ss: multiset<Span>, first: nat)
    requires Timely(ss, first)
    ensures (exists p :: OrderInTime(p, ss, first)) <==> InTime(ss, first)
  {
    hide InTime;
    hide Timely;
    hide OrderInTime;
    if InTime(ss, first) {
      var p := InTimeHasOrder(ss, first);
    }
    if p :| OrderInTime(p, ss, first) {
      OrderIsInTime(p, ss, first);
    }
  }
}
