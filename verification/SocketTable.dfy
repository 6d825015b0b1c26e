/** `SocketTable` and its collector (`ptraf/src/ui/socktable.rs`), verified against `SocketTableSpec`. */
module SocketTable {
  import opened Types
  import opened Clock
  import opened Traffic
  import opened Segments
  import opened Timeline
  import opened StoreSpec
  import opened Store
  import opened FilterLang
  import opened ViewFilter
  import opened SocketTableSpec

  class Collector {
    const query: Query
    var socketCache: Cache
    var oldestSegmentTs: Option<nat>
    var oldestRateSegmentTs: Option<nat>

    constructor (query: Query)
      ensures this.query == query && socketCache == map[]
      ensures oldestSegmentTs == None && oldestRateSegmentTs == None
    {
      this.query := query;
      socketCache := map[];
      oldestSegmentTs := None;
      oldestRateSegmentTs := None;
    }

    /** `SocketTableCollector::collect`: one window further back, the sockets in any order. */
    method Collect(ts: nat, segment: Segment, ghost ws: History, ghost lo: nat, ghost hi: nat)
      requires lo < hi <= |ws| && ws[lo] == Timed(ts, segment.Data()) && KeyedByLocal(segment.Data())
      requires CacheFor(socketCache, ws, lo + 1, hi, query)
      modifies this
      ensures CacheFor(socketCache, ws, lo, hi, query)
      ensures oldestSegmentTs == Some(ts)
      ensures oldestRateSegmentTs == if query.rateUntil <= ts then Some(ts) else old(oldestRateSegmentTs)
    {
      oldestSegmentTs := Some(ts);
      var eligible := query.rateUntil <= ts;
      if eligible {
        oldestRateSegmentTs := Some(ts);
      }
      hide CacheAt;
      var todo := segment.socks.Keys;
      Absent(socketCache, ws, lo, hi, query);
      while todo != {}
        invariant todo <= segment.socks.Keys
        invariant Partial(socketCache, ws, lo, hi, query, todo)
        invariant oldestSegmentTs == Some(ts)
        invariant oldestRateSegmentTs == if eligible then Some(ts) else old(oldestRateSegmentTs)
        decreases |todo|
      {
        var a :| a in todo;
        var socket := segment.socks[a];
        if socket.MatchInterest(InterestOf(query.filter)) && Passes(query.custom, socket) {
          MergeStep(socketCache, ws, lo, hi, query, todo, a);
          var stat := Row(segment.index, LocalSocket(socket.local));
          if socket.local in socketCache {
            var e := socketCache[socket.local];
            socketCache := socketCache[socket.local :=
              e.(stat := e.stat.Plus(stat), rateStat := if eligible then e.rateStat.Plus(stat) else e.rateStat)];
          } else {
            socketCache := socketCache[socket.local :=
              Entry(socket, stat, ts, if eligible then stat else Zero(), socket.pid)];
          }
        } else {
          SkipStep(socketCache, ws, lo, hi, query, todo, a);
        }
        todo := todo - {a};
      }
      assert CacheFor(socketCache, ws, lo, hi, query) by {
        forall a ensures CacheAt(socketCache, ws, lo, hi, query, a) {
          assert PartialAt(socketCache, ws, lo, hi, query, todo, a);
        }
      }
    }
  }

  /** In the middle of a segment: the addresses still to visit are one window behind. */
  ghost predicate PartialAt(cache: Cache, ws: History, lo: nat, hi: nat, q: Query, todo: set<SockAddr>, a: SockAddr)
    requires lo < hi <= |ws|
  {
    if a in todo then CacheAt(cache, ws, lo + 1, hi, q, a) else CacheAt(cache, ws, lo, hi, q, a)
  }

  ghost predicate Partial(cache: Cache, ws: History, lo: nat, hi: nat, q: Query, todo: set<SockAddr>)
    requires lo < hi <= |ws|
  {
    forall a :: PartialAt(cache, ws, lo, hi, q, todo, a)
  }

  lemma Absent(cache: Cache, ws: History, lo: nat, hi: nat, q: Query)
    requires lo < hi <= |ws| && CacheFor(cache, ws, lo + 1, hi, q)
    ensures Partial(cache, ws, lo, hi, q, ws[lo].body.socks.Keys)
  {
    hide CacheAt;
    forall a ensures PartialAt(cache, ws, lo, hi, q, ws[lo].body.socks.Keys, a) {
      assert CacheAt(cache, ws, lo + 1, hi, q, a);
      if a !in ws[lo].body.socks {
        SkipExtends(cache, ws, lo, hi, q, a);
      }
    }
  }

  lemma MergeStep(cache: Cache, ws: History, lo: nat, hi: nat, q: Query, todo: set<SockAddr>, a: SockAddr)
    requires lo < hi <= |ws| && Partial(cache, ws, lo, hi, q, todo) && a in todo && Visible(ws[lo].body, a, q)
    ensures Partial(cache[a := Merged(Lookup(cache, a), ws[lo], a, q)], ws, lo, hi, q, todo - {a})
  {
    var cache' := cache[a := Merged(Lookup(cache, a), ws[lo], a, q)];
    assert PartialAt(cache, ws, lo, hi, q, todo, a);
    MergeExtends(cache, ws, lo, hi, q, a);
    hide Merged;
    forall b ensures PartialAt(cache', ws, lo, hi, q, todo - {a}, b) {
      assert PartialAt(cache, ws, lo, hi, q, todo, b);
    }
  }

  lemma SkipStep(cache: Cache, ws: History, lo: nat, hi: nat, q: Query, todo: set<SockAddr>, a: SockAddr)
    requires lo < hi <= |ws| && Partial(cache, ws, lo, hi, q, todo) && a in todo && !Visible(ws[lo].body, a, q)
    ensures Partial(cache, ws, lo, hi, q, todo - {a})
  {
    hide CacheAt;
    assert PartialAt(cache, ws, lo, hi, q, todo, a);
    SkipExtends(cache, ws, lo, hi, q, a);
    forall b ensures PartialAt(cache, ws, lo, hi, q, todo - {a}, b) {
      assert PartialAt(cache, ws, lo, hi, q, todo, b);
    }
  }

  /** The rows of the table are the cached entries, each once, in some order. */
  ghost predicate Lists(dataset: seq<Entry>, cache: Cache) {
    && (forall i | 0 <= i < |dataset| ::
          dataset[i].socket.local in cache && cache[dataset[i].socket.local] == dataset[i])
    && (forall a | a in cache :: cache[a] in dataset)
    && (forall i, j | 0 <= i < j < |dataset| :: dataset[i].socket.local != dataset[j].socket.local)
  }

  ghost predicate CacheKeyed(cache: Cache) {
    forall a | a in cache :: cache[a].socket.local == a
  }

  /** `into_dataset`: the values of the map in no particular order. */
  method IntoDataset(cache: Cache) returns (dataset: seq<Entry>)
    requires CacheKeyed(cache)
    ensures Lists(dataset, cache)
  {
    dataset := [];
    var todo := cache.Keys;
    while todo != {}
      invariant todo <= cache.Keys
      invariant forall i | 0 <= i < |dataset| ::
        dataset[i].socket.local in cache && dataset[i].socket.local !in todo && cache[dataset[i].socket.local] == dataset[i]
      invariant forall a | a in cache && a !in todo :: cache[a] in dataset
      invariant forall i, j | 0 <= i < j < |dataset| :: dataset[i].socket.local != dataset[j].socket.local
      decreases |todo|
    {
      var a :| a in todo;
      dataset := dataset + [cache[a]];
      todo := todo - {a};
    }
  }

  lemma KeysAreLocal(cache: Cache, ws: History, lo: nat, hi: nat, q: Query)
    requires lo <= hi <= |ws| && CacheFor(cache, ws, lo, hi, q)
    requires forall k | lo <= k < hi :: KeyedByLocal(ws[k].body)
    ensures CacheKeyed(cache)
  {
    forall a | a in cache ensures cache[a].socket.local == a {
      assert CacheAt(cache, ws, lo, hi, q, a);
    }
  }

  class Table {
    const filter: Filter
    const collectionWindow: nat
    const rateWindow: nat
    var dataset: seq<Entry>
    var rateRange: Option<(nat, nat)>

    constructor (filter: Filter, collectionWindow: nat, rateWindow: nat)
      ensures this.filter == filter && this.collectionWindow == collectionWindow && this.rateWindow == rateWindow
      ensures dataset == [] && rateRange == None
    {
      this.filter := filter;
      this.collectionWindow := collectionWindow;
      this.rateWindow := rateWindow;
      dataset := [];
      rateRange := None;
    }

    /** `SocketTable::collect`: the table lists, once each, the sockets visible in the windows within the
        collection window, with their sums; `k` is the oldest window collected. The rate range starts at
        the oldest rate-eligible window collected, if there is one. */
    method Collect(at: nat, store: Store, custom: Option<Expr>) returns (ghost k: nat, ghost cache: Cache)
      requires store.Valid()
      modifies this
      ensures k <= |store.retained|
      ensures var ts := Trunc(at, store.window);
              var q := Query(filter, custom, RateUntil(ts, rateWindow, store.window));
              && CacheFor(cache, store.retained, k, |store.retained|, q)
              && Lists(dataset, cache)
              && (forall j | 0 <= j < |store.retained| ::
                    k <= j <==> ts <= store.retained[j].ts + collectionWindow)
              && rateRange.Some? && rateRange.value.1 == ts
              && RateStart(rateRange.value.0, store.retained, k, ts, q.rateUntil)
    {
      hide Coherent;
      assert 0 < store.window < U64 by { CoherentWindow(store.window, store.capacity, store.history, store.logs, store.retained); }
      var ts := Trunc(at, store.window);
      var rateUntil := RateUntil(ts, rateWindow, store.window);
      var collector := new Collector(Query(filter, custom, rateUntil));
      k := Walk(collector, store, ts, collectionWindow);
      assert Regular(store.retained, store.window) && forall j | k <= j < |store.retained| :: KeyedByLocal(store.retained[j].body) by {
        RetainedIsKeyed(store);
      }
      EarlyStopIsExact(store.retained, store.window, ts, collectionWindow, k, rateUntil);
      cache := collector.socketCache;
      KeysAreLocal(cache, store.retained, k, |store.retained|, collector.query);
      rateRange := Some((match collector.oldestRateSegmentTs case Some(t) => t case None => ts, ts));
      dataset := IntoDataset(collector.socketCache);
    }
  }

  /** The oldest rate-eligible window among those from `k` on, or `ts` if there is none. */
  ghost predicate RateStart(start: nat, deque: History, k: nat, ts: nat, rateUntil: nat)
    requires k <= |deque|
  {
    || (start == ts && forall j | k <= j < |deque| :: deque[j].ts < rateUntil)
    || (exists j | k <= j < |deque| :: deque[j].ts == start && rateUntil <= start
          && forall i | k <= i < j :: deque[i].ts < rateUntil)
  }

  /** So the range that `collect` reports is shorter than the rate window and one segment together. */
  lemma RateRangeIsShort(start: nat, deque: History, k: nat, at: nat, rateWindow: nat, window: nat)
    requires k <= |deque| && 0 < window < U64
    requires RateStart(start, deque, k, Trunc(at, window), RateUntil(Trunc(at, window), rateWindow, window))
    ensures Trunc(at, window) < start + rateWindow + window
  {
    var ts := Trunc(at, window);
    TruncInRange(at, window);
    hide Trunc;
    if start != ts {
      RateRangeIsBounded(ts, rateWindow, window, start);
    }
  }

  ghost predicate OldestRate(oldest: Option<nat>, deque: History, k: nat, rateUntil: nat)
    requires k <= |deque|
  {
    match oldest
    case None => forall j | k <= j < |deque| :: deque[j].ts < rateUntil
    case Some(t) => exists j | k <= j < |deque| :: deque[j].ts == t && rateUntil <= t
                      && forall i | k <= i < j :: deque[i].ts < rateUntil
  }

  lemma RetainedIsKeyed(store: Store)
    requires store.Valid()
    ensures Regular(store.retained, store.window)
    ensures forall j | 0 <= j < |store.retained| :: KeyedByLocal(store.retained[j].body)
  {
    LastNRegular(MaxLen(store.capacity), store.history, store.window);
    forall j | 0 <= j < |store.retained| ensures KeyedByLocal(store.retained[j].body) {
      var i := |store.history| - |store.retained| + j;
      assert store.retained[j] == store.history[i];
      AgreeKeyed(store.history[i].body, store.logs[i].body);
    }
  }

  lemma AgreeKeyed(d: SegmentData, log: seq<Msg>)
    requires Agrees(d, log)
    ensures KeyedByLocal(d)
  {
    forall a | a in d.socks ensures d.socks[a].local == a {
      assert Represents(d.socks[a], a, log);
    }
  }

  /** `segments_view().iter().rev().take_while(..).for_each(..)` */
  method Walk(collector: Collector, store: Store, ts: nat, collectionWindow: nat) returns (k: nat)
    requires store.Valid() && collector.socketCache == map[] && collector.oldestRateSegmentTs == None
    modifies collector
    ensures k <= |store.retained| && CacheFor(collector.socketCache, store.retained, k, |store.retained|, collector.query)
    ensures forall j | k <= j < |store.retained| :: ts <= store.retained[j].ts + collectionWindow
    ensures k > 0 ==> ts > store.retained[k - 1].ts + collectionWindow
    ensures OldestRate(collector.oldestRateSegmentTs, store.retained, k, collector.query.rateUntil)
  {
    hide Coherent;
    hide CacheFor;
    k := |store.segments|;
    EmptyCache(store.retained, collector.query);
    assert OldestRate(None, store.retained, k, collector.query.rateUntil);
    hide OldestRate;
    while k > 0 && SaturatingElapsedSince(store.segments[k - 1].ts, ts) <= collectionWindow
      invariant k <= |store.segments|
      invariant CacheFor(collector.socketCache, store.retained, k, |store.retained|, collector.query)
      invariant forall j | k <= j < |store.retained| :: ts <= store.retained[j].ts + collectionWindow
      invariant OldestRate(collector.oldestRateSegmentTs, store.retained, k, collector.query.rateUntil)
    {
      k := k - 1;
      Visit(collector, store, k);
    }
  }

  method Visit(collector: Collector, store: Store, k: nat)
    requires store.Valid() && k < |store.segments|
    requires CacheFor(collector.socketCache, store.retained, k + 1, |store.retained|, collector.query)
    requires OldestRate(collector.oldestRateSegmentTs, store.retained, k + 1, collector.query.rateUntil)
    modifies collector
    ensures CacheFor(collector.socketCache, store.retained, k, |store.retained|, collector.query)
    ensures OldestRate(collector.oldestRateSegmentTs, store.retained, k, collector.query.rateUntil)
  {
    RetainedIsKeyed(store);
    OldestRateStep(collector.oldestRateSegmentTs, store.retained, k, collector.query.rateUntil);
    hide Coherent;
    hide Regular;
    hide CacheFor;
    hide OldestRate;
    collector.Collect(store.segments[k].ts, store.segments[k].segment, store.retained, k, |store.retained|);
  }

  lemma EmptyCache(ws: History, q: Query)
    ensures CacheFor(map[], ws, |ws|, |ws|, q)
  {
    forall a ensures CacheAt(map[], ws, |ws|, |ws|, q, a) {
    }
  }

  lemma OldestRateStep(oldest: Option<nat>, deque: History, k: nat, rateUntil: nat)
    requires k < |deque| && OldestRate(oldest, deque, k + 1, rateUntil)
    ensures OldestRate(if rateUntil <= deque[k].ts then Some(deque[k].ts) else oldest, deque, k, rateUntil)
  {
    if rateUntil > deque[k].ts && oldest.Some? {
      var j :| k + 1 <= j < |deque| && deque[j].ts == oldest.value && rateUntil <= oldest.value
        && forall i | k + 1 <= i < j :: deque[i].ts < rateUntil;
      assert forall i | k <= i < j :: deque[i].ts < rateUntil;
    }
  }
}
