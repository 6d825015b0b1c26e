/** What the traffic sparkline shows (`ptraf/src/ui/traffic_sparkline.rs`): one point per retained
    segment, except the newest and any at timestamp zero. The incremental `collect` gives the same
    points as computing them from scratch. */
module SparklineSpec {
  import opened Types
  import opened Clock
  import opened Traffic
  import opened Segments
  import opened Timeline
  import opened StoreSpec
  import opened FilterLang
  import opened ViewFilter
  import opened ConcurrentModel
  import opened ConcurrentInvariant
  import opened ConcurrentTheorems

  datatype DataPoint = DataPoint(ts: nat, rx: nat, tx: nat)

  /** What the points are computed with: the view's interest, or a custom filter that replaces it. */
  datatype Lens = Lens(interest: Interest, custom: Option<Expr>)

  /** The local addresses of the sockets that pass a filter. */
  function Passing(socks: map<SockAddr, Socket>, custom: Option<Expr>): set<SockAddr> {
    set a | a in socks && Passes(custom, socks[a])
  }

  ghost function Reading(d: SegmentData, lens: Lens, f: Field): nat {
    if lens.custom.Some? then SumRows(d.index, LocalKeys(Passing(d.socks, lens.custom)), f)
    else Row(d.index, lens.interest).Get(f)
  }

  ghost function Point(w: Timed<SegmentData>, lens: Lens): DataPoint {
    DataPoint(w.ts, Reading(w.body, lens, RxBytes), Reading(w.body, lens, TxBytes))
  }

  /** The lens with which each window is read, by its timestamp. */
  type Lenses = nat -> Lens

  function Fixed(lens: Lens): Lenses {
    _ => lens
  }

  /** The points of windows `lo..hi` later than `start`, in chronological order. */
  ghost function Points(h: History, lo: nat, hi: nat, start: nat, lens: Lenses): seq<DataPoint>
    requires lo <= hi <= |h|
  {
    if lo == hi then []
    else
      Points(h, lo, hi - 1, start, lens)
      + if start < h[hi - 1].ts then [Point(h[hi - 1], lens(h[hi - 1].ts))] else []
  }

  /** Every complete window of the deque, each through its own lens. */
  ghost function Mixed(deque: History, lens: Lenses): seq<DataPoint> {
    if deque == [] then [] else Points(deque, 0, |deque| - 1, 0, lens)
  }

  /** The specification for one filter: every complete window of the deque, from scratch. */
  ghost function Expected(deque: History, lens: Lens): seq<DataPoint> {
    Mixed(deque, Fixed(lens))
  }

  /** The `pop_front` loop. */
  function DropOld(dataset: seq<DataPoint>, oldest: nat): seq<DataPoint> {
    if dataset != [] && dataset[0].ts < oldest then DropOld(dataset[1..], oldest) else dataset
  }

  function Start(dataset: seq<DataPoint>): nat {
    if dataset == [] then 0 else dataset[|dataset| - 1].ts
  }

  /** What `collect` computes from the previous dataset and the deque. */
  ghost function Collect(dataset: seq<DataPoint>, deque: History, lens: Lens): seq<DataPoint> {
    if deque == [] then dataset
    else DropOld(dataset, deque[0].ts) + Points(deque, 0, |deque| - 1, Start(dataset), Fixed(lens))
  }

  // ---- Points of a stretch of windows ----

  lemma {:induction false} PointsConcat(h: History, lo: nat, mid: nat, hi: nat, start: nat, lens: Lenses)
    requires lo <= mid <= hi <= |h|
    ensures Points(h, lo, hi, start, lens) == Points(h, lo, mid, start, lens) + Points(h, mid, hi, start, lens)
  {
    hide Point;
    if mid < hi {
      PointsConcat(h, lo, mid, hi - 1, start, lens);
    }
  }

  lemma {:induction false} PointsBelow(h: History, lo: nat, hi: nat, start: nat, lens: Lenses)
    requires lo <= hi <= |h| && forall k | lo <= k < hi :: h[k].ts <= start
    ensures Points(h, lo, hi, start, lens) == []
  {
    hide Point;
    if lo < hi {
      PointsBelow(h, lo, hi - 1, start, lens);
    }
  }

  lemma {:induction false} PointsAbove(h: History, lo: nat, hi: nat, start: nat, lens: Lenses)
    requires lo <= hi <= |h| && forall k | lo <= k < hi :: start < h[k].ts
    ensures Points(h, lo, hi, start, lens) == Points(h, lo, hi, 0, lens)
  {
    hide Point;
    if lo < hi {
      PointsAbove(h, lo, hi - 1, start, lens);
    }
  }

  /** The same windows elsewhere give the same points. */
  lemma {:induction false} PointsSame(h: History, h': History, lo: nat, lo': nat, n: nat, start: nat, lens: Lenses)
    requires lo + n <= |h| && lo' + n <= |h'| && h[lo..lo + n] == h'[lo'..lo' + n]
    ensures Points(h, lo, lo + n, start, lens) == Points(h', lo', lo' + n, start, lens)
    decreases n
  {
    hide Point;
    if n > 0 {
      assert h[lo..lo + n][..n - 1] == h[lo..lo + (n - 1)] && h[lo..lo + n][n - 1] == h[lo + n - 1];
      assert h'[lo'..lo' + n][..n - 1] == h'[lo'..lo' + (n - 1)] && h'[lo'..lo' + n][n - 1] == h'[lo' + n - 1];
      PointsSame(h, h', lo, lo', n - 1, start, lens);
    }
  }

  lemma PointTs(w: Timed<SegmentData>, lens: Lens)
    ensures Point(w, lens).ts == w.ts
  {}

  ghost predicate Ascending(ps: seq<DataPoint>) {
    forall j, k | 0 <= j < k < |ps| :: ps[j].ts < ps[k].ts
  }

  ghost predicate Within(ps: seq<DataPoint>, first: nat, last: nat) {
    forall j | 0 <= j < |ps| :: 0 < ps[j].ts && first <= ps[j].ts <= last
  }

  /** All points lie within the times of their windows, in strict order, none at zero. */
  lemma {:induction false} PointsOrder(h: History, window: nat, lo: nat, hi: nat, lens: Lenses)
    requires Regular(h, window) && lo <= hi <= |h|
    ensures var ps := Points(h, lo, hi, 0, lens);
            && |ps| <= hi - lo
            && Ascending(ps)
            && (ps != [] ==> Within(ps, h[lo].ts, h[hi - 1].ts) && 0 < h[hi - 1].ts && Start(ps) == h[hi - 1].ts)
  {
    hide Regular;
    hide Point;
    if lo < hi {
      var init, ps := Points(h, lo, hi - 1, 0, lens), Points(h, lo, hi, 0, lens);
      PointsOrder(h, window, lo, hi - 1, lens);
      PointTs(h[hi - 1], lens(h[hi - 1].ts));
      if lo < hi - 1 {
        RegularOrder(h, window, lo, hi - 1);
        RegularOrder(h, window, hi - 2, hi - 1);
      }
      hide Points;
      if 0 < h[hi - 1].ts {
        assert ps == init + [Point(h[hi - 1], lens(h[hi - 1].ts))];
      } else {
        assert ps == init;
      }
    }
  }

  lemma {:induction false} DropPrefix(x: seq<DataPoint>, y: seq<DataPoint>, oldest: nat)
    requires forall k | 0 <= k < |x| :: x[k].ts < oldest
    requires y != [] ==> oldest <= y[0].ts
    ensures DropOld(x + y, oldest) == y
  {
    if x == [] {
      assert x + y == y;
    } else {
      assert (x + y)[1..] == x[1..] + y;
      DropPrefix(x[1..], y, oldest);
    }
  }

  /** Dropping what is older than window `cut` of a stretch leaves the stretch from `cut` on. */
  lemma DropStretch(h: History, window: nat, lo: nat, cut: nat, hi: nat, lens: Lenses)
    requires Regular(h, window) && lo <= cut < |h| && lo <= hi <= |h|
    ensures DropOld(Points(h, lo, hi, 0, lens), h[cut].ts)
         == if cut <= hi then Points(h, cut, hi, 0, lens) else []
  {
    hide Regular;
    hide Points;
    hide DropOld;
    hide Ascending;
    var mid := if cut <= hi then cut else hi;
    PointsConcat(h, lo, mid, hi, 0, lens);
    PointsOrder(h, window, lo, mid, lens);
    PointsOrder(h, window, mid, hi, lens);
    NoWindows(h, hi, 0, lens);
    NoWindows(h, lo, 0, lens);
    if lo < mid {
      RegularOrder(h, window, mid - 1, cut);
    }
    DropPrefix(Points(h, lo, mid, 0, lens), Points(h, mid, hi, 0, lens), h[cut].ts);
  }

  /** Collecting what is later than window `last` collects from the next one on. */
  lemma NewStretch(h: History, window: nat, lo: nat, last: nat, hi: nat, lens: Lenses)
    requires Regular(h, window) && lo <= hi <= |h| && last < hi
    ensures Points(h, lo, hi, h[last].ts, lens) == Points(h, if lo <= last then last + 1 else lo, hi, 0, lens)
  {
    hide Regular;
    hide Points;
    var mid := if lo <= last then last + 1 else lo;
    PointsConcat(h, lo, mid, hi, h[last].ts, lens);
    forall k | lo <= k < mid ensures h[k].ts <= h[last].ts {
      if k < last { RegularOrder(h, window, k, last); }
    }
    forall k | mid <= k < hi ensures h[last].ts < h[k].ts {
      RegularOrder(h, window, last, k);
    }
    PointsBelow(h, lo, mid, h[last].ts, lens);
    PointsAbove(h, mid, hi, h[last].ts, lens);
  }

  // ---- Incremental equals from scratch ----

  /** A retained deque without its newest segment, as a stretch of the history. */
  lemma DequeStretch(h: History, n: nat, start: nat, lens: Lenses)
    requires h != [] && 0 < n
    ensures var d := LastN(n, h);
            Points(d, 0, |d| - 1, start, lens) == Points(h, |h| - |d|, |h| - 1, start, lens)
  {
    var d := LastN(n, h);
    PointsSame(d, h, 0, |h| - |d|, |d| - 1, start, lens);
  }

  lemma MixedIs(h: History, n: nat, lens: Lenses)
    requires h != [] && 0 < n
    ensures Mixed(LastN(n, h), lens) == Points(h, |h| - |LastN(n, h)|, |h| - 1, 0, lens)
  {
    DequeStretch(h, n, 0, lens);
  }

  lemma CollectIs(dataset: seq<DataPoint>, h: History, n: nat, lens: Lens)
    requires h != [] && 0 < n
    ensures var lo := |h| - |LastN(n, h)|;
            Collect(dataset, LastN(n, h), lens)
            == DropOld(dataset, h[lo].ts) + Points(h, lo, |h| - 1, Start(dataset), Fixed(lens))
  {
    DequeStretch(h, n, Start(dataset), Fixed(lens));
  }

  /** The same lenses on a stretch give the same points. */
  lemma {:induction false} PointsAgree(h: History, lo: nat, hi: nat, start: nat, lens: Lenses, lens': Lenses)
    requires lo <= hi <= |h| && forall k | lo <= k < hi :: lens(h[k].ts) == lens'(h[k].ts)
    ensures Points(h, lo, hi, start, lens) == Points(h, lo, hi, start, lens')
  {
    hide Point;
    if lo < hi {
      PointsAgree(h, lo, hi - 1, start, lens, lens');
    }
  }

  /** A later collection through `now`: the windows that were complete at `h` keep their lenses. */
  function Keep(h: History, lens: Lenses, now: Lens): Lenses {
    (ts: nat) => if h != [] && ts < Newest(h).ts then lens(ts) else now
  }

  /** One step, whatever the filters: if the dataset showed the windows of an earlier state of the timeline
      through some lenses, collecting shows the present ones, the known ones through the old lenses and
      the new ones through the present lens, however far the store has moved on. */
  lemma CollectStep(h: History, h': History, window: nat, n: nat, lens: Lenses, now: Lens)
    requires Regular(h, window) && Regular(h', window) && Extends(h, h') && 0 < n
    ensures Collect(Mixed(LastN(n, h), lens), LastN(n, h'), now) == Mixed(LastN(n, h'), Keep(h, lens, now))
  {
    hide Regular;
    hide Collect;
    hide Mixed;
    if h' == [] {
      NothingYet(n, lens, Keep(h, lens, now), now);
    } else if h == [] {
      NothingYet(n, lens, lens, now);
      MixedIs(h', n, Keep(h, lens, now));
      CollectIs([], h', n, now);
      PointsAgree(h', |h'| - |LastN(n, h')|, |h'| - 1, 0, Fixed(now), Keep(h, lens, now));
    } else {
      CollectMore(h, h', window, n, lens, now);
    }
  }

  lemma NothingYet(n: nat, lens: Lenses, lens': Lenses, now: Lens)
    ensures var none: History := [];
            && Mixed(LastN(n, none), lens) == [] == Mixed(LastN(n, none), lens')
            && Collect([], LastN(n, none), now) == []
  {
    var none: History := [];
    assert LastN(n, none) == [];
  }

  lemma CollectMore(h: History, h': History, window: nat, n: nat, lens: Lenses, now: Lens)
    requires Regular(h, window) && Regular(h', window) && Extends(h, h') && 0 < n && h != []
    ensures Collect(Mixed(LastN(n, h), lens), LastN(n, h'), now) == Mixed(LastN(n, h'), Keep(h, lens, now))
  {
    hide Regular;
    hide Points;
    hide Collect;
    hide Mixed;
    hide DropOld;
    hide Start;
    hide Keep;
    var a, b := |h| - |LastN(n, h)|, |h| - 1;
    var a', b' := |h'| - |LastN(n, h')|, |h'| - 1;
    MixedIs(h', n, Keep(h, lens, now));
    MixedIs(h, n, lens);
    CollectIs(Mixed(LastN(n, h), lens), h', n, now);
    FrozenPoints(h, h', a, b, lens);
    StretchStep(h', window, a, b, a', b', lens, now);
    SplitLenses(h, h', window, a', b', lens, now);
  }

  lemma FrozenPoints(h: History, h': History, a: nat, b: nat, lens: Lenses)
    requires Extends(h, h') && a <= b < |h|
    ensures Points(h, a, b, 0, lens) == Points(h', a, b, 0, lens)
  {
    PointsSame(h, h', a, a, b - a, 0, lens);
  }

  /** The lenses of `Keep`, on the two sides of the newest window of `h`. */
  lemma SplitLenses(h: History, h': History, window: nat, lo: nat, hi: nat, lens: Lenses, now: Lens)
    requires Regular(h', window) && Extends(h, h') && h != [] && lo <= hi < |h'| && |h| - 1 <= hi
    ensures var mid := if lo <= |h| - 1 then |h| - 1 else lo;
            Points(h', lo, hi, 0, Keep(h, lens, now)) == Points(h', lo, mid, 0, lens) + Points(h', mid, hi, 0, Fixed(now))
  {
    hide Regular;
    hide Points;
    var b := |h| - 1;
    var mid := if lo <= b then b else lo;
    PointsConcat(h', lo, mid, hi, 0, Keep(h, lens, now));
    forall k | lo <= k < mid ensures h'[k].ts < Newest(h).ts {
      RegularOrder(h', window, k, b);
    }
    forall k | mid <= k < hi ensures Newest(h).ts <= h'[k].ts {
      if b < k { RegularOrder(h', window, b, k); }
    }
    PointsAgree(h', lo, mid, 0, Keep(h, lens, now), lens);
    PointsAgree(h', mid, hi, 0, Keep(h, lens, now), Fixed(now));
  }

  lemma StretchStep(h: History, window: nat, a: nat, b: nat, a': nat, b': nat, lens: Lenses, now: Lens)
    requires Regular(h, window) && a <= b <= b' < |h| && a <= a' <= b'
    ensures var ds := Points(h, a, b, 0, lens);
            var mid := if a' <= b then b else a';
            DropOld(ds, h[a'].ts) + Points(h, a', b', Start(ds), Fixed(now))
            == Points(h, a', mid, 0, lens) + Points(h, mid, b', 0, Fixed(now))
  {
    hide Regular;
    hide Points;
    var ds := Points(h, a, b, 0, lens);
    var mid := if a' <= b then b else a';
    DropStretch(h, window, a, a', b, lens);
    PointsOrder(h, window, a, b, lens);
    NoWindows(h, a', 0, lens);
    NoWindows(h, b', 0, Fixed(now));
    if ds == [] {
      if a' <= b {
        assert Points(h, a', b, 0, lens) == [];
        EmptyStretch(h, a', b, lens, Fixed(now));
        PointsConcat(h, a', b, b', 0, Fixed(now));
      }
    } else {
      NoWindows(h, a, 0, lens);
      hide DropOld;
      if b < b' {
        NewStretch(h, window, a', b - 1, b', Fixed(now));
      } else {
        NothingNew(h, window, a', b - 1, b, Fixed(now));
      }
    }
  }

  lemma NoWindows(h: History, lo: nat, start: nat, lens: Lenses)
    requires lo <= |h|
    ensures Points(h, lo, lo, start, lens) == []
  {
  }

  lemma NothingNew(h: History, window: nat, lo: nat, last: nat, hi: nat, lens: Lenses)
    requires Regular(h, window) && lo <= hi <= |h| && hi == last + 1
    ensures Points(h, lo, hi, h[last].ts, lens) == []
  {
    hide Regular;
    forall k | lo <= k < hi ensures h[k].ts <= h[last].ts {
      if k < last { RegularOrder(h, window, k, last); }
    }
    PointsBelow(h, lo, hi, h[last].ts, lens);
  }

  /** Whether a stretch has points does not depend on the lenses. */
  lemma {:induction false} EmptyStretch(h: History, lo: nat, hi: nat, lens: Lenses, lens': Lenses)
    requires lo <= hi <= |h| && Points(h, lo, hi, 0, lens) == []
    ensures Points(h, lo, hi, 0, lens') == []
  {
    hide Point;
    if lo < hi {
      assert h[hi - 1].ts == 0;
      EmptyStretch(h, lo, hi - 1, lens, lens');
    }
  }

  /** With the same filter throughout, a step keeps the dataset exact. */
  lemma IncrementalStep(h: History, h': History, window: nat, n: nat, lens: Lens)
    requires Regular(h, window) && Regular(h', window) && Extends(h, h') && 0 < n
    ensures Collect(Expected(LastN(n, h), lens), LastN(n, h'), lens) == Expected(LastN(n, h'), lens)
  {
    CollectStep(h, h', window, n, Fixed(lens), lens);
    hide Collect;
    hide Regular;
    SameLenses(LastN(n, h'), Keep(h, Fixed(lens), lens), Fixed(lens));
  }

  // ---- Whole runs ----

  /** A collection: the state of the timeline, and the filter at that time. */
  datatype Collection = Collection(seen: History, lens: Lens)

  /** The dataset after some collections. */
  ghost function CollectAll(cs: seq<Collection>, n: nat): seq<DataPoint> {
    if cs == [] then []
    else Collect(CollectAll(cs[..|cs| - 1], n), LastN(n, cs[|cs| - 1].seen), cs[|cs| - 1].lens)
  }

  /** The collections are of one timeline, in order. */
  ghost predicate OneTimeline(cs: seq<Collection>, window: nat) {
    && (forall k | 0 <= k < |cs| :: Regular(cs[k].seen, window))
    && (forall j, k | 0 <= j < k < |cs| :: Extends(cs[j].seen, cs[k].seen))
  }

  predicate Complete(h: History, ts: nat) {
    h != [] && ts < Newest(h).ts
  }

  /** The filter of the first collection that found the window at `ts` complete, else of the last one. */
  function FirstLens(cs: seq<Collection>, ts: nat): Lens
    requires cs != []
  {
    if |cs| == 1 || Complete(cs[0].seen, ts) then cs[0].lens else FirstLens(cs[1..], ts)
  }

  function FirstLenses(cs: seq<Collection>): Lenses
    requires cs != []
  {
    (ts: nat) => FirstLens(cs, ts)
  }

  lemma {:induction false} FirstLensSnoc(cs: seq<Collection>, window: nat, ts: nat)
    requires |cs| > 1 && OneTimeline(cs, window)
    ensures var init, last := cs[..|cs| - 1], cs[|cs| - 1];
            FirstLens(cs, ts) == if Complete(init[|init| - 1].seen, ts) then FirstLens(init, ts) else last.lens
  {
    hide Regular;
    var init := cs[..|cs| - 1];
    if |cs| == 2 || Complete(cs[0].seen, ts) {
      StaysComplete(cs[0].seen, init[|init| - 1].seen, window, ts, |cs| == 2);
    } else {
      assert cs[1..][..|cs| - 2] == init[1..];
      FirstLensSnoc(cs[1..], window, ts);
    }
  }

  lemma StaysComplete(h: History, h': History, window: nat, ts: nat, same: bool)
    requires Regular(h', window) && if same then h == h' else Complete(h, ts) && Extends(h, h')
    ensures Complete(h, ts) ==> Complete(h', ts)
  {
    hide Regular;
    if h != [] && !same && |h| < |h'| {
      RegularOrder(h', window, |h| - 1, |h'| - 1);
    }
  }

  /** Over every sequence of store updates, filter changes and collections: the dataset has one point per
      complete retained window, read through the filter of the first collection that found it complete.
      A later filter is not applied to windows already plotted. */
  lemma {:induction false} EachWindowKeepsItsFilter(cs: seq<Collection>, window: nat, n: nat)
    requires cs != [] && OneTimeline(cs, window) && 0 < n
    ensures CollectAll(cs, n) == Mixed(LastN(n, cs[|cs| - 1].seen), FirstLenses(cs))
  {
    hide Regular;
    hide Extends;
    hide Collect;
    var init, last := cs[..|cs| - 1], cs[|cs| - 1];
    if init == [] {
      FirstCollect(last.seen, window, n, last.lens);
      SameLenses(LastN(n, last.seen), Fixed(last.lens), FirstLenses(cs));
    } else {
      var h := init[|init| - 1].seen;
      EachWindowKeepsItsFilter(init, window, n);
      CollectStep(h, last.seen, window, n, FirstLenses(init), last.lens);
      forall ts ensures FirstLenses(cs)(ts) == Keep(h, FirstLenses(init), last.lens)(ts) {
        FirstLensSnoc(cs, window, ts);
      }
      hide Keep;
      SameLenses(LastN(n, last.seen), Keep(h, FirstLenses(init), last.lens), FirstLenses(cs));
    }
  }

  lemma SameLenses(deque: History, lens: Lenses, lens': Lenses)
    requires forall ts :: lens(ts) == lens'(ts)
    ensures Mixed(deque, lens) == Mixed(deque, lens')
  {
    if deque != [] {
      PointsAgree(deque, 0, |deque| - 1, 0, lens, lens');
    }
  }

  lemma FirstCollect(h: History, window: nat, n: nat, lens: Lens)
    requires Regular(h, window) && 0 < n
    ensures Collect([], LastN(n, h), lens) == Expected(LastN(n, h), lens)
  {
    var empty: History := [];
    assert LastN(n, empty) == [];
    IncrementalStep(empty, h, window, n, lens);
  }

  /** Incremental equals from scratch: with a fixed filter, after any sequence of store updates and
      collections, the dataset is what the present deque alone determines. */
  lemma IncrementalIsExact(cs: seq<Collection>, window: nat, n: nat, lens: Lens)
    requires cs != [] && OneTimeline(cs, window) && 0 < n
    requires forall k | 0 <= k < |cs| :: cs[k].lens == lens
    ensures CollectAll(cs, n) == Expected(LastN(n, cs[|cs| - 1].seen), lens)
  {
    EachWindowKeepsItsFilter(cs, window, n);
    hide Regular;
    hide Extends;
    hide CollectAll;
    hide LastN;
    forall ts ensures FirstLenses(cs)(ts) == lens {
      OneLens(cs, ts, lens);
    }
    SameLenses(LastN(n, cs[|cs| - 1].seen), FirstLenses(cs), Fixed(lens));
    hide FirstLens;
    hide Mixed;
  }

  lemma {:induction false} OneLens(cs: seq<Collection>, ts: nat, lens: Lens)
    requires cs != [] && forall k | 0 <= k < |cs| :: cs[k].lens == lens
    ensures FirstLens(cs, ts) == lens
  {
    if |cs| > 1 && !Complete(cs[0].seen, ts) {
      OneLens(cs[1..], ts, lens);
    }
  }

  /** A window is not plotted, or reads the same through either. */
  ghost predicate Alike(w: Timed<SegmentData>, lens: Lenses, lens': Lenses) {
    0 < w.ts ==> Point(w, lens(w.ts)) == Point(w, lens'(w.ts))
  }

  lemma {:induction false} PointsEqualIff(h: History, n: nat, lens: Lenses, lens': Lenses)
    requires n <= |h|
    ensures Points(h, 0, n, 0, lens) == Points(h, 0, n, 0, lens') <==> forall k | 0 <= k < n :: Alike(h[k], lens, lens')
    ensures |Points(h, 0, n, 0, lens)| == |Points(h, 0, n, 0, lens')|
  {
    hide Point;
    if n > 0 {
      PointsEqualIff(h, n - 1, lens, lens');
      var w := h[n - 1];
      var x, x' := Points(h, 0, n - 1, 0, lens), Points(h, 0, n - 1, 0, lens');
      assert Points(h, 0, n, 0, lens) == if 0 < w.ts then x + [Point(w, lens(w.ts))] else x;
      assert Points(h, 0, n, 0, lens') == if 0 < w.ts then x' + [Point(w, lens'(w.ts))] else x';
      SnocEqualIff(x, x', Point(w, lens(w.ts)), Point(w, lens'(w.ts)));
      assert (forall k | 0 <= k < n :: Alike(h[k], lens, lens'))
        <==> Alike(w, lens, lens') && forall k | 0 <= k < n - 1 :: Alike(h[k], lens, lens');
      hide Points;
    }
  }

  lemma SnocEqualIff(x: seq<DataPoint>, x': seq<DataPoint>, p: DataPoint, p': DataPoint)
    requires |x| == |x'|
    ensures x + [p] == x' + [p'] <==> x == x' && p == p'
  {
    if x + [p] == x' + [p'] {
      assert (x + [p])[..|x|] == x && (x' + [p'])[..|x|] == x';
      assert (x + [p])[|x|] == p && (x' + [p'])[|x|] == p';
    }
  }

  // ---- When two filters read the same ----

  /** Whether a lens shows a message of a window: by its interest, or by the socket that represents the
      message's local address. */
  predicate Shows(d: SegmentData, lens: Lens, m: Msg) {
    if lens.custom == None then Touches(m, lens.interest)
    else m.local in d.socks && Passes(lens.custom, d.socks[m.local])
  }

  /** The traffic of a log that a lens shows. */
  function Shown(log: seq<Msg>, d: SegmentData, lens: Lens, f: Field): nat {
    if log == [] then 0
    else
      var m := log[|log| - 1];
      Shown(log[..|log| - 1], d, lens, f) + if Shows(d, lens, m) then MsgStat(m).Get(f) else 0
  }

  /** The traffic that `lens` shows and `other` does not. */
  function ShownOnly(log: seq<Msg>, d: SegmentData, lens: Lens, other: Lens, f: Field): nat {
    if log == [] then 0
    else
      var m := log[|log| - 1];
      ShownOnly(log[..|log| - 1], d, lens, other, f)
      + if Shows(d, lens, m) && !Shows(d, other, m) then MsgStat(m).Get(f) else 0
  }

  lemma {:induction false} ShownOfInterest(log: seq<Msg>, d: SegmentData, lens: Lens, f: Field)
    requires lens.custom == None
    ensures Shown(log, d, lens, f) == Count(log, lens.interest, f)
  {
    if log != [] {
      ShownOfInterest(log[..|log| - 1], d, lens, f);
    }
  }

  lemma {:induction false} ShownOfSockets(log: seq<Msg>, d: SegmentData, lens: Lens, f: Field)
    requires lens.custom.Some?
    ensures Shown(log, d, lens, f) == SumRows(IndexOf(log), LocalKeys(Passing(d.socks, lens.custom)), f)
  {
    var keys := LocalKeys(Passing(d.socks, lens.custom));
    if log == [] {
      SumOfAbsent(IndexOf(log), keys, f);
    } else {
      var init, m := log[..|log| - 1], log[|log| - 1];
      assert log == init + [m];
      ShownOfSockets(init, d, lens, f);
      SumRowsMsg(init, m, keys, ByLocal, f);
      assert LocalSocket(m.local) in keys <==> m.local in Passing(d.socks, lens.custom);
    }
  }

  /** A point shows the traffic of the messages that its lens shows. */
  lemma ReadingIsShown(d: SegmentData, log: seq<Msg>, lens: Lens, f: Field)
    requires Agrees(d, log)
    ensures Reading(d, lens, f) == Shown(log, d, lens, f)
  {
    if lens.custom == None {
      ShownOfInterest(log, d, lens, f);
      FoldFields(log, lens.interest, f);
    } else {
      ShownOfSockets(log, d, lens, f);
      RowsOfLog(d.index, log, LocalKeys(Passing(d.socks, lens.custom)), f);
    }
  }

  lemma {:induction false} ShownBalance(log: seq<Msg>, d: SegmentData, lens: Lens, other: Lens, f: Field)
    ensures Shown(log, d, lens, f) + ShownOnly(log, d, other, lens, f)
         == Shown(log, d, other, f) + ShownOnly(log, d, lens, other, f)
  {
    hide Shows;
    if log != [] {
      ShownBalance(log[..|log| - 1], d, lens, other, f);
    }
  }

  /** In both directions, what only one lens shows weighs as much as what only the other shows. */
  predicate Balanced(log: seq<Msg>, d: SegmentData, lens: Lens, other: Lens) {
    && ShownOnly(log, d, lens, other, RxBytes) == ShownOnly(log, d, other, lens, RxBytes)
    && ShownOnly(log, d, lens, other, TxBytes) == ShownOnly(log, d, other, lens, TxBytes)
  }

  /** Two filters give a window the same point exactly if the traffic of the messages that only the first
      selects equals that of the messages that only the second selects. */
  lemma SamePointIff(w: Timed<SegmentData>, log: seq<Msg>, lens: Lens, other: Lens)
    requires Agrees(w.body, log)
    ensures Point(w, lens) == Point(w, other) <==> Balanced(log, w.body, lens, other)
  {
    ReadingIsShown(w.body, log, lens, RxBytes);
    ReadingIsShown(w.body, log, lens, TxBytes);
    ReadingIsShown(w.body, log, other, RxBytes);
    ReadingIsShown(w.body, log, other, TxBytes);
    ShownBalance(log, w.body, lens, other, RxBytes);
    ShownBalance(log, w.body, lens, other, TxBytes);
    hide *;
    PointIs(w, lens);
    PointIs(w, other);
  }

  lemma PointIs(w: Timed<SegmentData>, lens: Lens)
    ensures Point(w, lens) == DataPoint(w.ts, Reading(w.body, lens, RxBytes), Reading(w.body, lens, TxBytes))
  {
  }

  /** The dataset agrees with the present filter exactly if, in every plotted window, the traffic that only the
      window's first filter selects equals the traffic that only the present one selects. */
  lemma ShowsPresentFilterIff(deque: History, logs: Logs, lens: Lenses, now: Lens)
    requires AgreeAll(deque, logs)
    ensures Mixed(deque, lens) == Expected(deque, now) <==>
      forall k | 0 <= k < |deque| - 1 && 0 < deque[k].ts :: Balanced(logs[k].body, deque[k].body, lens(deque[k].ts), now)
  {
    hide Point;
    hide Agrees;
    hide Balanced;
    if deque != [] {
      PointsEqualIff(deque, |deque| - 1, lens, Fixed(now));
      forall k | 0 <= k < |deque| - 1
        ensures Alike(deque[k], lens, Fixed(now)) <==>
          (0 < deque[k].ts ==> Balanced(logs[k].body, deque[k].body, lens(deque[k].ts), now))
      {
        SamePointIff(deque[k], logs[k].body, lens(deque[k].ts), now);
      }
    }
  }

  /** Over every sequence of store updates, filter changes and collections: the display is right for the filter of
      the last collection exactly if that filter and each plotted window's first one balance on the window. */
  lemma DisplayIsRightIff(cs: seq<Collection>, window: nat, n: nat, logs: Logs)
    requires cs != [] && OneTimeline(cs, window) && 0 < n && AgreeAll(cs[|cs| - 1].seen, logs)
    ensures var deque, kept, now := LastN(n, cs[|cs| - 1].seen), LastN(n, logs), cs[|cs| - 1].lens;
            CollectAll(cs, n) == Expected(deque, now) <==>
              forall k | 0 <= k < |deque| - 1 && 0 < deque[k].ts ::
                Balanced(kept[k].body, deque[k].body, FirstLens(cs, deque[k].ts), now)
  {
    hide Agrees;
    hide Regular;
    hide Extends;
    EachWindowKeepsItsFilter(cs, window, n);
    var deque, kept := LastN(n, cs[|cs| - 1].seen), LastN(n, logs);
    assert AgreeAll(deque, kept);
    ShowsPresentFilterIff(deque, kept, FirstLenses(cs), cs[|cs| - 1].lens);
    hide CollectAll;
    hide Mixed;
    hide Balanced;
    hide FirstLens;
  }

  // ---- What a point shows, in terms of calls ----

  /** The traffic of the calls selected, at a window's timestamp. */
  ghost function TrafficPoint(ts: nat, log: seq<Msg>, sel: Msg -> bool): DataPoint {
    DataPoint(ts, Bytes(log, sel, Rx), Bytes(log, sel, Tx))
  }

  /** Without a custom filter, the main view's points are all the traffic of their windows, a process view's points are
      that process's, and a remote address view's are those with that address. */
  lemma ViewPoints(w: Timed<SegmentData>, log: seq<Msg>, pid: u32, ip: StdIp)
    requires Agrees(w.body, log)
    ensures Point(w, Lens(InterestOf(NoFilter), None)) == TrafficPoint(w.ts, log, (m: Msg) => true)
    ensures Point(w, Lens(InterestOf(Process(pid)), None)) == TrafficPoint(w.ts, log, (m: Msg) => m.pid == pid)
    ensures Point(w, Lens(InterestOf(RemoteAddress(ip)), None)) == TrafficPoint(w.ts, log, (m: Msg) => m.remote.ip == ip)
  {
    forall m ensures Touches(m, InterestOf(NoFilter))
      && (Touches(m, InterestOf(Process(pid))) <==> m.pid == pid)
      && (Touches(m, InterestOf(RemoteAddress(ip))) <==> m.remote.ip == ip)
    {
      ViewsAreAbout(m, pid, ip);
    }
    InterestPoint(w, log, InterestOf(NoFilter), (m: Msg) => true);
    InterestPoint(w, log, InterestOf(Process(pid)), (m: Msg) => m.pid == pid);
    InterestPoint(w, log, InterestOf(RemoteAddress(ip)), (m: Msg) => m.remote.ip == ip);
  }

  lemma InterestPoint(w: Timed<SegmentData>, log: seq<Msg>, i: Interest, sel: Msg -> bool)
    requires Agrees(w.body, log) && forall m :: Touches(m, i) <==> sel(m)
    ensures Point(w, Lens(i, None)) == TrafficPoint(w.ts, log, sel)
  {
    assert Row(w.body.index, i) == Fold(log, i);
    RowCounts(log, i);
    CountsSame(Fold(log, i), log, m => Touches(m, i), sel);
    PointIs(w, Lens(i, None));
    hide Fold;
    hide Agrees;
  }

  /** With a custom filter, the points of every view are the traffic of the calls whose socket passes the filter. */
  lemma FilteredPoint(w: Timed<SegmentData>, log: seq<Msg>, i: Interest, e: Expr)
    requires Agrees(w.body, log)
    ensures var socks := w.body.socks;
            Point(w, Lens(i, Some(e)))
            == TrafficPoint(w.ts, log, (m: Msg) => m.local in socks && Eval(PacketOf(socks[m.local]), e))
  {
    var socks, lens := w.body.socks, Lens(i, Some(e));
    ReadingIsShown(w.body, log, lens, RxBytes);
    ReadingIsShown(w.body, log, lens, TxBytes);
    ShownBytes(log, w.body, lens);
    var sel := (m: Msg) => m.local in socks && Eval(PacketOf(socks[m.local]), e);
    forall m ensures Shows(w.body, lens, m) == sel(m) {
    }
    SameSelection(log, m => Shows(w.body, lens, m), sel, Rx);
    SameSelection(log, m => Shows(w.body, lens, m), sel, Tx);
    PointIs(w, lens);
    hide Shown;
    hide Agrees;
    hide Eval;
  }

  lemma {:induction false} ShownBytes(log: seq<Msg>, d: SegmentData, lens: Lens)
    ensures Shown(log, d, lens, RxBytes) == Bytes(log, m => Shows(d, lens, m), Rx)
    ensures Shown(log, d, lens, TxBytes) == Bytes(log, m => Shows(d, lens, m), Tx)
  {
    hide Shows;
    if log != [] {
      ShownBytes(log[..|log| - 1], d, lens);
    }
  }

  // ---- Operators on filters ----

  /** The operators are set operations on the sockets that pass. */
  lemma OperatorsOnSockets(socks: map<SockAddr, Socket>, a: Expr, b: Expr)
    ensures Passing(socks, Some(Not(a))) == socks.Keys - Passing(socks, Some(a))
    ensures Passing(socks, Some(And(a, b))) == Passing(socks, Some(a)) * Passing(socks, Some(b))
    ensures Passing(socks, Some(Or(a, b))) == Passing(socks, Some(a)) + Passing(socks, Some(b))
  {
  }

  /** What a filter and its negation show of a window is the whole window. */
  lemma NegationShowsTheRest(d: SegmentData, log: seq<Msg>, i: Interest, e: Expr, f: Field)
    requires Agrees(d, log)
    ensures Reading(d, Lens(i, Some(e)), f) + Reading(d, Lens(i, Some(Not(e))), f) == Row(d.index, All).Get(f)
  {
    var p, q := Passing(d.socks, Some(e)), Passing(d.socks, Some(Not(e)));
    OperatorsOnSockets(d.socks, e, e);
    SumRowsUnion(d.index, LocalKeys(p), LocalKeys(q), f);
    assert LocalKeys(p) + LocalKeys(q) == LocalKeys(d.socks.Keys);
    SocketsCoverAll(d, log, f);
  }

  // ---- A view with its own interest ----

  /** The traffic that both lenses show. */
  function ShownByBoth(log: seq<Msg>, d: SegmentData, lens: Lens, other: Lens, f: Field): nat {
    if log == [] then 0
    else
      var m := log[|log| - 1];
      ShownByBoth(log[..|log| - 1], d, lens, other, f)
      + if Shows(d, lens, m) && Shows(d, other, m) then MsgStat(m).Get(f) else 0
  }

  lemma {:induction false} ShownSplits(log: seq<Msg>, d: SegmentData, lens: Lens, other: Lens, f: Field)
    ensures Shown(log, d, lens, f) == ShownByBoth(log, d, lens, other, f) + ShownOnly(log, d, lens, other, f)
  {
    hide Shows;
    if log != [] {
      ShownSplits(log[..|log| - 1], d, lens, other, f);
    }
  }

  lemma {:induction false} OnlyIsZeroIff(log: seq<Msg>, d: SegmentData, lens: Lens, other: Lens, f: Field)
    ensures ShownOnly(log, d, lens, other, f) == 0 <==>
      forall m | m in log && Shows(d, lens, m) && !Shows(d, other, m) :: MsgStat(m).Get(f) == 0
  {
    hide Shows;
    if log != [] {
      var init, last := log[..|log| - 1], log[|log| - 1];
      assert log == init + [last];
      OnlyIsZeroIff(init, d, lens, other, f);
    }
  }

  /** With a custom filter the view's interest is ignored: the point is the traffic that passes both exactly if every
      message that the filter selects outside the view's interest is empty. */
  lemma InterestIgnoredIff(w: Timed<SegmentData>, log: seq<Msg>, i: Interest, e: Expr)
    requires Agrees(w.body, log)
    ensures var filtered, view := Lens(i, Some(e)), Lens(i, None);
            Point(w, filtered) == DataPoint(w.ts, ShownByBoth(log, w.body, filtered, view, RxBytes),
                                            ShownByBoth(log, w.body, filtered, view, TxBytes))
            <==> forall m | m in log && Shows(w.body, filtered, m) && !Touches(m, i) :: m.ret == 0
  {
    var d, filtered, view := w.body, Lens(i, Some(e)), Lens(i, None);
    ReadingIsShown(d, log, filtered, RxBytes);
    ReadingIsShown(d, log, filtered, TxBytes);
    ShownSplits(log, d, filtered, view, RxBytes);
    ShownSplits(log, d, filtered, view, TxBytes);
    OnlyIsZeroIff(log, d, filtered, view, RxBytes);
    OnlyIsZeroIff(log, d, filtered, view, TxBytes);
    PointIs(w, filtered);
    forall m | m in log ensures m.ret == 0 <==> MsgStat(m).Get(RxBytes) == 0 && MsgStat(m).Get(TxBytes) == 0 {
    }
    assert forall m :: Shows(d, view, m) <==> Touches(m, i);
    hide Shown;
    hide ShownOnly;
    hide ShownByBoth;
    hide Point;
    hide Reading;
    hide MsgStat;
    hide Passes;
  }

  // ---- The same by sockets ----

  lemma {:induction false} SumRowsUnion(index: Index, s: set<Interest>, t: set<Interest>, f: Field)
    requires s !! t
    ensures SumRows(index, s + t, f) == SumRows(index, s, f) + SumRows(index, t, f)
    decreases |t|
  {
    if t == {} {
      assert s + t == s;
    } else {
      var x :| x in t;
      SumRowsPick(index, t, x, f);
      SumRowsPick(index, s + t, x, f);
      assert s + t - {x} == s + (t - {x});
      SumRowsUnion(index, s, t - {x}, f);
    }
  }

  lemma SumRowsApart(index: Index, s: set<SockAddr>, t: set<SockAddr>, f: Field)
    ensures SumRows(index, LocalKeys(s), f) + SumRows(index, LocalKeys(t - s), f)
         == SumRows(index, LocalKeys(t), f) + SumRows(index, LocalKeys(s - t), f)
  {
    SumRowsUnion(index, LocalKeys(s), LocalKeys(t - s), f);
    SumRowsUnion(index, LocalKeys(t), LocalKeys(s - t), f);
    assert LocalKeys(s) + LocalKeys(t - s) == LocalKeys(t) + LocalKeys(s - t);
  }

  /** Two custom filters show a window alike exactly if, in both directions, the sockets that pass only the one
      have the traffic of the sockets that pass only the other. No log is needed. */
  lemma SameFilteredPointIff(w: Timed<SegmentData>, i: Interest, e: Expr, e': Expr)
    ensures var p, p' := Passing(w.body.socks, Some(e)), Passing(w.body.socks, Some(e'));
            Point(w, Lens(i, Some(e))) == Point(w, Lens(i, Some(e'))) <==>
              && SumRows(w.body.index, LocalKeys(p - p'), RxBytes) == SumRows(w.body.index, LocalKeys(p' - p), RxBytes)
              && SumRows(w.body.index, LocalKeys(p - p'), TxBytes) == SumRows(w.body.index, LocalKeys(p' - p), TxBytes)
  {
    var p, p' := Passing(w.body.socks, Some(e)), Passing(w.body.socks, Some(e'));
    PointIs(w, Lens(i, Some(e)));
    PointIs(w, Lens(i, Some(e')));
    SumRowsApart(w.body.index, p, p', RxBytes);
    SumRowsApart(w.body.index, p, p', TxBytes);
    hide SumRows;
    hide LocalKeys;
    hide Passing;
  }

  /** A socket of the window that a filter hides has no traffic. */
  ghost predicate HidesNothing(d: SegmentData, e: Expr) {
    forall a | a in d.socks && !Passes(Some(e), d.socks[a]) :: Quiet(d, a)
  }

  predicate Quiet(d: SegmentData, a: SockAddr) {
    Row(d.index, LocalSocket(a)).rx == 0 && Row(d.index, LocalSocket(a)).tx == 0
  }

  lemma {:induction false} SumRowsZeroIff(index: Index, s: set<Interest>, f: Field)
    ensures SumRows(index, s, f) == 0 <==> forall i | i in s :: Row(index, i).Get(f) == 0
    decreases |s|
  {
    if s != {} {
      var x :| x in s;
      SumRowsPick(index, s, x, f);
      SumRowsZeroIff(index, s - {x}, f);
      assert s == s - {x} + {x};
    }
  }

  /** A custom filter shows what no filter shows exactly if every socket that it hides is quiet. */
  lemma UnfilteredPointIff(w: Timed<SegmentData>, log: seq<Msg>, e: Expr)
    requires Agrees(w.body, log)
    ensures Point(w, Lens(All, None)) == Point(w, Lens(All, Some(e))) <==> HidesNothing(w.body, e)
  {
    var d := w.body;
    var p, all := Passing(d.socks, Some(e)), d.socks.Keys;
    var hidden := LocalKeys(all - p);
    forall f ensures Reading(d, Lens(All, None), f) == Reading(d, Lens(All, Some(e)), f) + SumRows(d.index, hidden, f) {
      SocketsCoverAll(d, log, f);
      SumRowsUnion(d.index, LocalKeys(p), hidden, f);
      assert LocalKeys(p) + hidden == LocalKeys(all);
    }
    PointIs(w, Lens(All, None));
    PointIs(w, Lens(All, Some(e)));
    SumRowsZeroIff(d.index, hidden, RxBytes);
    SumRowsZeroIff(d.index, hidden, TxBytes);
    HiddenAreQuiet(d, e);
    hide *;
  }

  lemma HiddenAreQuiet(d: SegmentData, e: Expr)
    ensures var hidden := LocalKeys(d.socks.Keys - Passing(d.socks, Some(e)));
            HidesNothing(d, e) <==>
              && (forall i | i in hidden :: Row(d.index, i).Get(RxBytes) == 0)
              && (forall i | i in hidden :: Row(d.index, i).Get(TxBytes) == 0)
  {
    hide Passes;
    var hidden := LocalKeys(d.socks.Keys - Passing(d.socks, Some(e)));
    forall a ensures a in d.socks && !Passes(Some(e), d.socks[a]) <==> LocalSocket(a) in hidden {
    }
    forall i | i in hidden ensures i.LocalSocket? && i.local in d.socks && !Passes(Some(e), d.socks[i.local]) {
    }
    if forall i | i in hidden :: Row(d.index, i).Get(RxBytes) == 0 && Row(d.index, i).Get(TxBytes) == 0 {
      forall a | a in d.socks && !Passes(Some(e), d.socks[a]) ensures Quiet(d, a) {
        assert Row(d.index, LocalSocket(a)).Get(RxBytes) == 0 && Row(d.index, LocalSocket(a)).Get(TxBytes) == 0;
      }
    }
    if HidesNothing(d, e) {
      forall i | i in hidden ensures Row(d.index, i).Get(RxBytes) == 0 && Row(d.index, i).Get(TxBytes) == 0 {
        assert Quiet(d, i.local);
      }
    }
  }

  /** So setting a filter on a plotted window leaves its point right exactly if the filter hides no traffic. */
  lemma FilterChangeLeavesPoint(d: SegmentData, log: seq<Msg>, e: Expr)
    requires Agrees(d, log)
    ensures var h := [Timed(1, d), Timed(2, EmptyData())];
            var cs := [Collection(h, Lens(All, None)), Collection(h, Lens(All, Some(e)))];
            CollectAll(cs, 2) == Expected(h, Lens(All, Some(e))) <==> HidesNothing(d, e)
  {
    var h := [Timed(1, d), Timed(2, EmptyData())];
    var lens, now := Lens(All, None), Lens(All, Some(e));
    var cs := [Collection(h, lens), Collection(h, now)];
    assert h[..1] == [Timed(1, d)];
    assert Regular(h[..1], 1) && Regular(h, 1);
    EachWindowKeepsItsFilter(cs, 1, 2);
    assert LastN(2, h) == h;
    assert FirstLenses(cs)(1) == lens;
    UnfilteredPointIff(h[0], log, e);
    PointsEqualIff(h, 1, FirstLenses(cs), Fixed(now));
    hide Point;
    hide HidesNothing;
    hide CollectAll;
    assert Alike(h[0], FirstLenses(cs), Fixed(now)) <==> Point(h[0], lens) == Point(h[0], now);
  }

  /** The points are in strict chronological order, at most one fewer than the capacity, and none is at
      timestamp zero. */
  lemma PlottedShape(deque: History, window: nat, lens: Lenses)
    requires Regular(deque, window)
    ensures var ps := Mixed(deque, lens);
            && (deque != [] ==> |ps| <= |deque| - 1)
            && (forall j | 0 <= j < |ps| :: 0 < ps[j].ts)
            && Ascending(ps)
            && (forall k | 0 <= k < |deque| - 1 && 0 < deque[k].ts :: Point(deque[k], lens(deque[k].ts)) in ps)
            && (forall p | p in ps :: PlotsOne(p, deque, lens))
  {
    if deque != [] {
      PointsOrder(deque, window, 0, |deque| - 1, lens);
      PointsMembers(deque, |deque| - 1, lens);
    }
  }

  /** The point is that of a complete window of the deque. */
  ghost predicate PlotsOne(p: DataPoint, deque: History, lens: Lenses) {
    exists k | 0 <= k < |deque| - 1 :: 0 < deque[k].ts && p == Point(deque[k], lens(deque[k].ts))
  }

  lemma {:induction false} PointsMembers(h: History, n: nat, lens: Lenses)
    requires n < |h|
    ensures forall k | 0 <= k < n && 0 < h[k].ts :: Point(h[k], lens(h[k].ts)) in Points(h, 0, n, 0, lens)
    ensures forall p | p in Points(h, 0, n, 0, lens) :: PlotsOne(p, h, lens)
  {
    hide Point;
    if n > 0 {
      PointsMembers(h, n - 1, lens);
    }
  }

  // ---- Under concurrent writers ----

  /** What a collection gives depends on the frozen segments only, so it does not matter when, during
      the life of its view, each segment is read. */
  lemma CollectIgnoresNewest(dataset: seq<DataPoint>, a: History, b: History, lens: Lens)
    requires SameButNewest(a, b)
    ensures Collect(dataset, a, lens) == Collect(dataset, b, lens)
  {
    if a != [] {
      PointsSame(a, b, 0, 0, |a| - 1, Start(dataset), Fixed(lens));
    }
  }

  /** One collection in a run: thread `viewer` holds a view from step `at` to step `until`, reads segment `k` after
      `steps[k]` steps and finds `found[k]`; `lens` is the filter of that moment. */
  datatype Moment = Moment(at: nat, until: nat, viewer: nat, steps: seq<nat>, found: History, lens: Lens)

  ghost predicate Views(c: Config, n: nat, acts: seq<Action>, m: Moment)
    requires ValidConfig(c) && Run(c, n, acts).Some?
  {
    && m.at <= m.until <= |acts|
    && m.viewer in StateAt(c, n, acts, m.at).readers
    && (forall k | m.at <= k < m.until :: acts[k].t != m.viewer)
    && |m.steps| == |m.found| == |StateAt(c, n, acts, m.at).segments|
    && (forall k | 0 <= k < |m.steps| :: m.at <= m.steps[k] <= m.until && Finds(StateAt(c, n, acts, m.steps[k]), k, m.found[k]))
  }

  ghost predicate Finds(s: State, k: nat, w: Timed<SegmentData>) {
    k < |s.segments| && s.segments[k] == w
  }

  ghost predicate Moments(c: Config, n: nat, acts: seq<Action>, ms: seq<Moment>)
    requires ValidConfig(c) && Run(c, n, acts).Some?
  {
    && (forall k | 0 <= k < |ms| :: Views(c, n, acts, ms[k]))
    && (forall j, k | 0 <= j < k < |ms| :: ms[j].at <= ms[k].at)
  }

  /** The dataset after some collections, each from what its reads found. */
  ghost function CollectFound(ms: seq<Moment>): seq<DataPoint> {
    if ms == [] then [] else Collect(CollectFound(ms[..|ms| - 1]), ms[|ms| - 1].found, ms[|ms| - 1].lens)
  }

  ghost function Snapshots(c: Config, n: nat, acts: seq<Action>, ms: seq<Moment>): seq<Collection>
    requires ValidConfig(c) && Run(c, n, acts).Some? && Moments(c, n, acts, ms)
  {
    seq(|ms|, k requires 0 <= k < |ms| => Collection(HistoryAt(c, n, acts, ms[k].at), ms[k].lens))
  }

  function HistoryAt(c: Config, n: nat, acts: seq<Action>, p: nat): History
    requires ValidConfig(c) && Run(c, n, acts).Some?
  {
    if p <= |acts| then StateAt(c, n, acts, p).history else []
  }

  /** What one reader finds is the deque of the moment its view began, but for the newest segment. */
  lemma FoundIsStable(c: Config, n: nat, acts: seq<Action>, m: Moment)
    requires ValidConfig(c) && Run(c, n, acts).Some? && Views(c, n, acts, m)
    ensures SameButNewest(StateAt(c, n, acts, m.at).segments, m.found)
  {
    var s := StateAt(c, n, acts, m.at);
    forall k | 0 <= k < |m.found|
      ensures m.found[k].ts == s.segments[k].ts && (k < |m.found| - 1 ==> m.found[k] == s.segments[k])
    {
      ViewAt(c, n, acts, m.at, m.steps[k], m.viewer);
      assert Finds(StateAt(c, n, acts, m.steps[k]), k, m.found[k]);
      hide StateAt;
    }
  }

  /** Reading segment by segment under a view gives what an atomic snapshot gives. */
  lemma {:induction false} FoundIsCollected(c: Config, n: nat, acts: seq<Action>, ms: seq<Moment>)
    requires ValidConfig(c) && Run(c, n, acts).Some? && Moments(c, n, acts, ms)
    ensures CollectFound(ms) == CollectAll(Snapshots(c, n, acts, ms), MaxLen(c.capacity))
  {
    hide Collect;
    hide SameButNewest;
    hide StateAt;
    hide Views;
    if ms != [] {
      var init, m := ms[..|ms| - 1], ms[|ms| - 1];
      FoundIsCollected(c, n, acts, init);
      FoundIsStable(c, n, acts, m);
      var cs := Snapshots(c, n, acts, ms);
      assert cs[..|cs| - 1] == Snapshots(c, n, acts, init);
      SnapshotIs(c, n, acts, ms, |ms| - 1);
      CollectIgnoresNewest(CollectFound(init), StateAt(c, n, acts, m.at).segments, m.found, m.lens);
      hide LastN;
    }
  }

  /** Over every run of any number of concurrent writers: a sparkline that collects any number of times, each time
      under a view and reading the segments at any steps while it holds the view, shows after the last collection
      the points of the segments then retained, each through the filter of the first collection that found it
      complete; with a fixed filter that is the recomputation. */
  lemma SparklineUnderWriters(c: Config, n: nat, acts: seq<Action>, ms: seq<Moment>)
    requires ValidConfig(c) && Run(c, n, acts).Some? && ms != [] && Moments(c, n, acts, ms)
    ensures ms[|ms| - 1].at <= |acts|
    ensures var deque := StateAt(c, n, acts, ms[|ms| - 1].at).segments;
            && CollectFound(ms) == Mixed(deque, FirstLenses(Snapshots(c, n, acts, ms)))
            && ((forall k | 0 <= k < |ms| :: ms[k].lens == ms[0].lens) ==> CollectFound(ms) == Expected(deque, ms[0].lens))
  {
    SnapshotsOrdered(c, n, acts, ms);
    SnapshotIs(c, n, acts, ms, |ms| - 1);
    SnapshotLenses(c, n, acts, ms);
    FoundIsCollected(c, n, acts, ms);
    hide *;
    ShownIs(Snapshots(c, n, acts, ms), c.window, MaxLen(c.capacity));
  }

  lemma ShownIs(cs: seq<Collection>, window: nat, n: nat)
    requires cs != [] && OneTimeline(cs, window) && 0 < n
    ensures var deque := LastN(n, cs[|cs| - 1].seen);
            && CollectAll(cs, n) == Mixed(deque, FirstLenses(cs))
            && ((forall k | 0 <= k < |cs| :: cs[k].lens == cs[0].lens) ==> CollectAll(cs, n) == Expected(deque, cs[0].lens))
  {
    hide *;
    EachWindowKeepsItsFilter(cs, window, n);
    if forall k | 0 <= k < |cs| :: cs[k].lens == cs[0].lens {
      IncrementalIsExact(cs, window, n, cs[0].lens);
    }
  }

  lemma SnapshotLenses(c: Config, n: nat, acts: seq<Action>, ms: seq<Moment>)
    requires ValidConfig(c) && Run(c, n, acts).Some? && Moments(c, n, acts, ms)
    ensures var cs := Snapshots(c, n, acts, ms); |cs| == |ms| && forall k | 0 <= k < |ms| :: cs[k].lens == ms[k].lens
    ensures MaxLen(c.capacity) > 0
  {
  }

  lemma SnapshotIs(c: Config, n: nat, acts: seq<Action>, ms: seq<Moment>, k: nat)
    requires ValidConfig(c) && Run(c, n, acts).Some? && Moments(c, n, acts, ms) && k < |ms|
    ensures ms[k].at <= |acts|
    ensures var s, seen := StateAt(c, n, acts, ms[k].at), Snapshots(c, n, acts, ms)[k].seen;
            seen == s.history && Regular(seen, c.window) && s.segments == LastN(MaxLen(c.capacity), seen)
  {
    hide Inv;
    hide Regular;
    hide LastN;
    assert Views(c, n, acts, ms[k]);
    PrefixRuns(c, Init(n), acts, ms[k].at);
    Reachable(c, n, acts[..ms[k].at]);
    InvShape(c, StateAt(c, n, acts, ms[k].at));
  }

  lemma SnapshotsOrdered(c: Config, n: nat, acts: seq<Action>, ms: seq<Moment>)
    requires ValidConfig(c) && Run(c, n, acts).Some? && Moments(c, n, acts, ms)
    ensures OneTimeline(Snapshots(c, n, acts, ms), c.window)
  {
    hide Regular;
    hide Extends;
    hide Inv;
    hide LastN;
    hide RunFrom;
    hide Views;
    var cs := Snapshots(c, n, acts, ms);
    forall k | 0 <= k < |ms| ensures Regular(cs[k].seen, c.window) {
      SnapshotIs(c, n, acts, ms, k);
    }
    forall j, k | 0 <= j < k < |ms| ensures Extends(cs[j].seen, cs[k].seen) {
      SnapshotIs(c, n, acts, ms, j);
      SnapshotIs(c, n, acts, ms, k);
      SnapshotOrder(c, n, acts, ms[j].at, ms[k].at);
    }
  }

  lemma InvShape(c: Config, s: State)
    requires ValidConfig(c) && Inv(c, s)
    ensures Regular(s.history, c.window) && s.segments == LastN(MaxLen(c.capacity), s.history)
  {
  }

  lemma SnapshotOrder(c: Config, n: nat, acts: seq<Action>, p: nat, q: nat)
    requires ValidConfig(c) && Run(c, n, acts).Some? && p <= q <= |acts|
    ensures Run(c, n, acts[..p]).Some? && Run(c, n, acts[..q]).Some?
    ensures Extends(Run(c, n, acts[..p]).value.history, Run(c, n, acts[..q]).value.history)
  {
    hide Inv;
    hide Extends;
    PrefixRuns(c, Init(n), acts, q);
    assert acts[..q][..p] == acts[..p];
    PrefixRuns(c, Init(n), acts[..q], p);
    Reachable(c, n, acts[..p]);
    RunExtends(c, Run(c, n, acts[..p]).value, acts[..q][p..]);
  }

  // ---- Filters and totals ----

  /** A filter that every socket passes shows the same as no filter. */
  lemma TrivialFilterShowsAll(w: Timed<SegmentData>, log: seq<Msg>, e: Expr)
    requires Agrees(w.body, log) && forall a | a in w.body.socks :: Passes(Some(e), w.body.socks[a])
    ensures Point(w, Lens(All, Some(e))) == Point(w, Lens(All, None))
  {
    assert Passing(w.body.socks, Some(e)) == w.body.socks.Keys;
    SocketsCoverAll(w.body, log, RxBytes);
    SocketsCoverAll(w.body, log, TxBytes);
  }

  lemma {:induction false} SumRowsMonotone(index: Index, s: set<Interest>, t: set<Interest>, f: Field)
    requires s <= t
    ensures SumRows(index, s, f) <= SumRows(index, t, f)
    decreases |t|
  {
    if t != s {
      var x :| x in t && x !in s;
      SumRowsPick(index, t, x, f);
      SumRowsMonotone(index, s, t - {x}, f);
    }
  }

  /** Whatever the filter, a point shows no more than the whole segment holds, so with fewer than 2^33
      messages neither its fields nor their sum overflow. */
  lemma PointFits(w: Timed<SegmentData>, log: seq<Msg>, e: Expr)
    requires Agrees(w.body, log) && |log| < MAX_MESSAGES
    ensures var p := Point(w, Lens(All, Some(e)));
            && p.rx <= Row(w.body.index, All).rx && p.tx <= Row(w.body.index, All).tx
            && p.rx + p.tx < U64
  {
    var part, whole := LocalKeys(Passing(w.body.socks, Some(e))), LocalKeys(w.body.socks.Keys);
    SumRowsMonotone(w.body.index, part, whole, RxBytes);
    SumRowsMonotone(w.body.index, part, whole, TxBytes);
    SocketsCoverAll(w.body, log, RxBytes);
    SocketsCoverAll(w.body, log, TxBytes);
    CountersDoNotOverflow(log, All);
    assert Row(w.body.index, All) == Fold(log, All);
  }
}
