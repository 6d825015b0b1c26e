/** `TrafficSparkline` (`ptraf/src/ui/traffic_sparkline.rs`), verified against `SparklineSpec`. */
module Sparkline {
  import opened Types
  import opened Traffic
  import opened Segments
  import opened Timeline
  import opened StoreSpec
  import opened Store
  import opened FilterLang
  import opened ViewFilter
  import opened SparklineSpec

  class TrafficSparkline {
    var filter: Filter
    var dataset: seq<DataPoint>
    var reverseBuffer: seq<DataPoint>

    constructor (filter: Filter)
      ensures this.filter == filter && dataset == [] && reverseBuffer == []
    {
      this.filter := filter;
      dataset := [];
      reverseBuffer := [];
    }

    ghost function TheLens(custom: Option<Expr>): Lens
      reads this`filter
    {
      Lens(InterestOf(filter), custom)
    }

    /** `TrafficSparkline::collect`: if the dataset showed an earlier state `seen` of the store's timeline,
        each window through the filter it was first plotted with, it comes to show the present one so; if
        the filter never changed, it is the recomputation from the retained segments. */
    method Collect(store: Store, custom: Option<Expr>, ghost seen: History, ghost lens: Lenses)
      requires store.Valid() && reverseBuffer == []
      requires Regular(seen, store.window) && Extends(seen, store.history)
      requires dataset == Mixed(LastN(MaxLen(store.capacity), seen), lens)
      modifies this`dataset, this`reverseBuffer
      ensures dataset == Mixed(store.retained, Keep(seen, lens, TheLens(custom))) && reverseBuffer == []
      ensures (forall ts :: lens(ts) == TheLens(custom)) ==> dataset == Expected(store.retained, TheLens(custom))
    {
      hide *;
      CollectIsExact(store, seen, lens, TheLens(custom));
      Gather(store, custom);
    }

    /** The body, for any previous dataset. */
    method Gather(store: Store, custom: Option<Expr>)
      requires store.Valid() && reverseBuffer == [] && Regular(store.retained, store.window)
      modifies this`dataset, this`reverseBuffer
      ensures dataset == SparklineSpec.Collect(old(dataset), store.retained, TheLens(custom)) && reverseBuffer == []
    {
      hide Coherent;
      hide Regular;
      hide Points;
      hide Point;
      var start := if dataset == [] then 0 else dataset[|dataset| - 1].ts;
      if store.segments != [] {
        DiscardOld(store.segments[0].ts);
      }
      ghost var k := FillBuffer(store, custom, start);
      Drain(store.retained, k, TheLens(custom));
      if store.segments != [] {
        LaterThan(store.retained, store.window, k, start, TheLens(custom));
      }
    }

    method DiscardOld(oldest: nat)
      modifies this`dataset
      ensures dataset == DropOld(old(dataset), oldest)
    {
      while dataset != [] && dataset[0].ts < oldest
        invariant DropOld(dataset, oldest) == DropOld(old(dataset), oldest)
        decreases |dataset|
      {
        dataset := dataset[1..];
      }
    }

    /** `drain(..).skip(1).rev()`: everything but the newest point, oldest first. */
    method Drain(ghost deque: History, ghost k: nat, ghost lens: Lens)
      requires IsReversed(reverseBuffer, deque, k, lens)
      modifies this`dataset, this`reverseBuffer
      ensures reverseBuffer == []
      ensures dataset == old(dataset) + if k == |deque| then [] else Stretch(deque, k, |deque| - 1, lens)
    {
      hide Point;
      ghost var n := |deque|;
      var j := |reverseBuffer|;
      while j > 1
        invariant reverseBuffer == old(reverseBuffer) && 0 <= j <= n - k && (k < n ==> 1 <= j)
        invariant dataset == old(dataset) + Stretch(deque, k, n - j, lens)
      {
        j := j - 1;
        dataset := dataset + [reverseBuffer[j]];
      }
      reverseBuffer := [];
    }

    /** Newest to oldest, while later than `start`; `k` is the oldest window taken. */
    method FillBuffer(store: Store, custom: Option<Expr>, start: nat) returns (k: nat)
      requires store.Valid() && reverseBuffer == []
      modifies this`reverseBuffer
      ensures k <= |store.retained| && IsReversed(reverseBuffer, store.retained, k, TheLens(custom))
      ensures forall i | k <= i < |store.retained| :: start < store.retained[i].ts
      ensures k > 0 ==> store.retained[k - 1].ts <= start
    {
      hide Coherent;
      hide Point;
      k := |store.segments|;
      while k > 0 && store.segments[k - 1].ts > start
        invariant k <= |store.segments|
        invariant IsReversed(reverseBuffer, store.retained, k, TheLens(custom))
        invariant forall i | k <= i < |store.retained| :: start < store.retained[i].ts
      {
        k := k - 1;
        var p := PointOf(store.segments[k].ts, store.segments[k].segment, InterestOf(filter), custom);
        assert p == Point(store.retained[k], TheLens(custom));
        reverseBuffer := reverseBuffer + [p];
      }
    }
  }

  lemma CollectIsExact(store: Store, seen: History, lens: Lenses, now: Lens)
    requires store.Valid() && Regular(seen, store.window) && Extends(seen, store.history)
    ensures Regular(store.retained, store.window)
    ensures SparklineSpec.Collect(Mixed(LastN(MaxLen(store.capacity), seen), lens), store.retained, now)
         == Mixed(store.retained, Keep(seen, lens, now))
    ensures (forall ts :: lens(ts) == now) ==>
      Mixed(store.retained, Keep(seen, lens, now)) == Expected(store.retained, now)
  {
    hide Agrees;
    LastNRegular(MaxLen(store.capacity), store.history, store.window);
    CollectStep(seen, store.history, store.window, MaxLen(store.capacity), lens, now);
    hide SparklineSpec.Collect;
    hide Mixed;
    hide Regular;
    if forall ts :: lens(ts) == now {
      SameLenses(store.retained, Keep(seen, lens, now), Fixed(now));
    }
  }

  /** The points of windows `k..` of the deque, newest first. */
  ghost predicate IsReversed(buffer: seq<DataPoint>, deque: History, k: nat, lens: Lens) {
    && k <= |deque| && |buffer| == |deque| - k
    && forall j | 0 <= j < |buffer| :: buffer[j] == Point(deque[|deque| - 1 - j], lens)
  }

  ghost function Stretch(deque: History, lo: nat, hi: nat, lens: Lens): seq<DataPoint>
    requires lo <= hi <= |deque|
  {
    if lo == hi then [] else Stretch(deque, lo, hi - 1, lens) + [Point(deque[hi - 1], lens)]
  }

  /** `take_while` from the newest end takes the windows later than `start`, since times increase. */
  lemma LaterThan(deque: History, window: nat, k: nat, start: nat, lens: Lens)
    requires Regular(deque, window) && deque != [] && k <= |deque|
    requires forall i | k <= i < |deque| :: start < deque[i].ts
    requires k > 0 ==> deque[k - 1].ts <= start
    ensures k == |deque| ==> Points(deque, 0, |deque| - 1, start, Fixed(lens)) == []
    ensures k < |deque| ==> Points(deque, 0, |deque| - 1, start, Fixed(lens)) == Stretch(deque, k, |deque| - 1, lens)
  {
    hide Regular;
    hide Point;
    hide Points;
    hide Stretch;
    hide Fixed;
    NoWindows(deque, |deque| - 1, start, Fixed(lens));
    var n := |deque|;
    var mid := if k == n then n - 1 else k;
    forall i | 0 <= i < mid ensures deque[i].ts <= start {
      if i < k - 1 { RegularOrder(deque, window, i, k - 1); }
    }
    PointsConcat(deque, 0, mid, n - 1, start, Fixed(lens));
    PointsBelow(deque, 0, mid, start, Fixed(lens));
    PointsAreStretch(deque, mid, n - 1, start, lens);
  }

  lemma {:induction false} PointsAreStretch(deque: History, lo: nat, hi: nat, start: nat, lens: Lens)
    requires lo <= hi <= |deque| && forall i | lo <= i < hi :: start < deque[i].ts
    ensures Points(deque, lo, hi, start, Fixed(lens)) == Stretch(deque, lo, hi, lens)
  {
    hide Point;
    if lo < hi {
      PointsAreStretch(deque, lo, hi - 1, start, lens);
    }
  }

  /** The point of one segment; the sockets are visited in no particular order. */
  method PointOf(ts: nat, segment: Segment, interest: Interest, custom: Option<Expr>) returns (p: DataPoint)
    ensures p == Point(Timed(ts, segment.Data()), Lens(interest, custom))
  {
    if custom == None {
      var stat := Row(segment.index, interest);
      return DataPoint(ts, stat.rx, stat.tx);
    }
    var rx, tx := 0, 0;
    var todo := segment.socks.Keys;
    ghost var passing := Passing(segment.socks, custom);
    assert LocalKeys(passing - todo) == {};
    while todo != {}
      invariant todo <= segment.socks.Keys
      invariant rx == SumRows(segment.index, LocalKeys(passing - todo), RxBytes)
      invariant tx == SumRows(segment.index, LocalKeys(passing - todo), TxBytes)
      decreases |todo|
    {
      var a :| a in todo;
      if Passes(custom, segment.socks[a]) {
        var stat := Row(segment.index, LocalSocket(a));
        AddKey(segment.index, passing - todo, a);
        rx := rx + stat.rx;
        tx := tx + stat.tx;
        assert passing - todo + {a} == passing - (todo - {a});
      } else {
        assert passing - todo == passing - (todo - {a});
      }
      todo := todo - {a};
    }
    assert passing - {} == passing;
    p := DataPoint(ts, rx, tx);
  }

  lemma AddKey(index: Index, addrs: set<SockAddr>, a: SockAddr)
    requires a !in addrs
    ensures forall f ::
      SumRows(index, LocalKeys(addrs + {a}), f) == SumRows(index, LocalKeys(addrs), f) + Row(index, LocalSocket(a)).Get(f)
  {
    forall f ensures
      SumRows(index, LocalKeys(addrs + {a}), f) == SumRows(index, LocalKeys(addrs), f) + Row(index, LocalSocket(a)).Get(f)
    {
      var keys := LocalKeys(addrs + {a});
      assert LocalSocket(a) in keys;
      assert keys - {LocalSocket(a)} == LocalKeys(addrs);
      SumRowsPick(index, keys, LocalSocket(a), f);
    }
  }
}
