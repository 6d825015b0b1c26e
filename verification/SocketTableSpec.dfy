/** What the socket table shows (`ptraf/src/ui/socktable.rs`), as sums over the collected windows. */
module SocketTableSpec {
  import opened Types
  import opened Clock
  import opened Traffic
  import opened Segments
  import opened Timeline
  import opened StoreSpec
  import opened FilterLang
  import opened ViewFilter

  /** `Entry`; the activity time is kept as the timestamp of its segment. */
  datatype Entry = Entry(socket: Socket, stat: Stat, lastActivity: nat, rateStat: Stat, pid: u32)

  type Cache = map<SockAddr, Entry>

  datatype Query = Query(filter: Filter, custom: Option<Expr>, rateUntil: nat)

  /** The representative socket of `a` in a segment passes both filters. */
  predicate Visible(d: SegmentData, a: SockAddr, q: Query) {
    a in d.socks && d.socks[a].MatchInterest(InterestOf(q.filter)) && Passes(q.custom, d.socks[a])
  }

  ghost predicate KeyedByLocal(d: SegmentData) {
    forall a | a in d.socks :: d.socks[a].local == a
  }

  /** What one window contributes to a counter of `a`, if it is not older than `from`. */
  function Contribution(w: Timed<SegmentData>, a: SockAddr, from: nat, q: Query, f: Field): nat {
    if from <= w.ts && Visible(w.body, a, q) then Row(w.body.index, LocalSocket(a)).Get(f) else 0
  }

  /** The sum over windows `lo..hi`. */
  function Total(ws: History, lo: nat, hi: nat, a: SockAddr, from: nat, q: Query, f: Field): nat
    requires lo <= hi <= |ws|
    decreases hi - lo
  {
    if lo == hi then 0 else Contribution(ws[lo], a, from, q, f) + Total(ws, lo + 1, hi, a, from, q, f)
  }

  /** The newest of the windows `lo..hi` in which `a` is visible. */
  function Latest(ws: History, lo: nat, hi: nat, a: SockAddr, q: Query): (r: Option<nat>)
    requires lo <= hi <= |ws|
    ensures r.Some? ==> lo <= r.value < hi && Visible(ws[r.value].body, a, q)
    ensures forall k | lo <= k < hi && Visible(ws[k].body, a, q) :: r.Some? && k <= r.value
    decreases hi - lo
  {
    if lo == hi then None
    else
      var later := Latest(ws, lo + 1, hi, a, q);
      if later.Some? then later else if Visible(ws[lo].body, a, q) then Some(lo) else None
  }

  /** The entry of `a` after collecting windows `lo..hi`: present exactly if visible in one of them, with
      the sums over those in which it is visible, and the identity of the newest of them. */
  ghost predicate CacheAt(cache: Cache, ws: History, lo: nat, hi: nat, q: Query, a: SockAddr)
    requires lo <= hi <= |ws|
  {
    var latest := Latest(ws, lo, hi, a, q);
    && (a in cache <==> latest.Some?)
    && (a in cache ==>
          && (forall f :: cache[a].stat.Get(f) == Total(ws, lo, hi, a, 0, q, f))
          && (forall f :: cache[a].rateStat.Get(f) == Total(ws, lo, hi, a, q.rateUntil, q, f))
          && cache[a].socket == ws[latest.value].body.socks[a]
          && cache[a].pid == cache[a].socket.pid
          && cache[a].lastActivity == ws[latest.value].ts)
  }

  ghost predicate CacheFor(cache: Cache, ws: History, lo: nat, hi: nat, q: Query)
    requires lo <= hi <= |ws|
  {
    forall a :: CacheAt(cache, ws, lo, hi, q, a)
  }

  lemma {:induction false} NeverVisible(ws: History, lo: nat, hi: nat, a: SockAddr, from: nat, q: Query, f: Field)
    requires lo <= hi <= |ws| && Latest(ws, lo, hi, a, q) == None
    ensures Total(ws, lo, hi, a, from, q, f) == 0
    decreases hi - lo
  {
    if lo < hi {
      NeverVisible(ws, lo + 1, hi, a, from, q, f);
    }
  }

  /** The rate never exceeds the whole, counter by counter. */
  lemma {:induction false} RateAtMostTotal(ws: History, lo: nat, hi: nat, a: SockAddr, from: nat, q: Query, f: Field)
    requires lo <= hi <= |ws|
    ensures Total(ws, lo, hi, a, from, q, f) <= Total(ws, lo, hi, a, 0, q, f)
    decreases hi - lo
  {
    if lo < hi {
      RateAtMostTotal(ws, lo + 1, hi, a, from, q, f);
    }
  }

  lemma EntryRateAtMostStat(cache: Cache, ws: History, lo: nat, hi: nat, q: Query, a: SockAddr, f: Field)
    requires lo <= hi <= |ws| && CacheFor(cache, ws, lo, hi, q) && a in cache
    ensures cache[a].rateStat.Get(f) <= cache[a].stat.Get(f)
  {
    assert CacheAt(cache, ws, lo, hi, q, a);
    RateAtMostTotal(ws, lo, hi, a, q.rateUntil, q, f);
  }

  /** Which sockets of a window the table shows: in the main view all, in a process or remote address view those of
      the process or the address, and of them those that pass the custom filter. */
  lemma VisibleIff(d: SegmentData, a: SockAddr, q: Query)
    ensures Visible(d, a, q) <==>
      && a in d.socks
      && (q.filter.Process? ==> d.socks[a].pid == q.filter.pid)
      && (q.filter.RemoteAddress? ==> d.socks[a].remote.ip == q.filter.ip)
      && (q.custom.Some? ==> Eval(PacketOf(d.socks[a]), q.custom.value))
  {
  }

  /** Every socket listed is of the view, and every socket of the view in a collected window is listed. */
  lemma ListedAreOfTheView(cache: Cache, ws: History, lo: nat, hi: nat, q: Query, a: SockAddr)
    requires lo <= hi <= |ws| && CacheFor(cache, ws, lo, hi, q)
    ensures a in cache && q.filter.Process? ==> cache[a].pid == cache[a].socket.pid == q.filter.pid
    ensures a in cache && q.filter.RemoteAddress? ==> cache[a].socket.remote.ip == q.filter.ip
    ensures a in cache && q.custom.Some? ==> Eval(PacketOf(cache[a].socket), q.custom.value)
    ensures forall k |
      && lo <= k < hi && a in ws[k].body.socks
      && (q.filter.Process? ==> ws[k].body.socks[a].pid == q.filter.pid)
      && (q.filter.RemoteAddress? ==> ws[k].body.socks[a].remote.ip == q.filter.ip)
      && (q.custom.Some? ==> Eval(PacketOf(ws[k].body.socks[a]), q.custom.value))
      :: a in cache
  {
    hide Visible;
    assert CacheAt(cache, ws, lo, hi, q, a);
    forall k | lo <= k < hi ensures Visible(ws[k].body, a, q) <==>
      && a in ws[k].body.socks
      && (q.filter.Process? ==> ws[k].body.socks[a].pid == q.filter.pid)
      && (q.filter.RemoteAddress? ==> ws[k].body.socks[a].remote.ip == q.filter.ip)
      && (q.custom.Some? ==> Eval(PacketOf(ws[k].body.socks[a]), q.custom.value))
    {
      VisibleIff(ws[k].body, a, q);
    }
  }

  // ---- One entry, one window further back ----

  function Merged(e: Option<Entry>, w: Timed<SegmentData>, a: SockAddr, q: Query): Entry
    requires a in w.body.socks
  {
    var stat, socket := Row(w.body.index, LocalSocket(a)), w.body.socks[a];
    var eligible := q.rateUntil <= w.ts;
    if e.Some? then
      e.value.(stat := e.value.stat.Plus(stat), rateStat := if eligible then e.value.rateStat.Plus(stat) else e.value.rateStat)
    else
      Entry(socket, stat, w.ts, if eligible then stat else Zero(), socket.pid)
  }

  function Lookup(cache: Cache, a: SockAddr): Option<Entry> {
    if a in cache then Some(cache[a]) else None
  }

  lemma MergeExtends(cache: Cache, ws: History, lo: nat, hi: nat, q: Query, a: SockAddr)
    requires lo < hi <= |ws| && CacheAt(cache, ws, lo + 1, hi, q, a) && Visible(ws[lo].body, a, q)
    ensures CacheAt(cache[a := Merged(Lookup(cache, a), ws[lo], a, q)], ws, lo, hi, q, a)
  {
    var stat := Row(ws[lo].body.index, LocalSocket(a));
    var cache' := cache[a := Merged(Lookup(cache, a), ws[lo], a, q)];
    forall f ensures cache'[a].stat.Get(f) == Total(ws, lo, hi, a, 0, q, f)
             ensures cache'[a].rateStat.Get(f) == Total(ws, lo, hi, a, q.rateUntil, q, f)
    {
      if a in cache {
        PlusFields(cache[a].stat, stat, f);
        PlusFields(cache[a].rateStat, stat, f);
      } else {
        NeverVisible(ws, lo + 1, hi, a, 0, q, f);
        NeverVisible(ws, lo + 1, hi, a, q.rateUntil, q, f);
      }
    }
  }

  lemma SkipExtends(cache: Cache, ws: History, lo: nat, hi: nat, q: Query, a: SockAddr)
    requires lo < hi <= |ws| && CacheAt(cache, ws, lo + 1, hi, q, a) && !Visible(ws[lo].body, a, q)
    ensures CacheAt(cache, ws, lo, hi, q, a)
  {
    hide Visible;
    forall f ensures Total(ws, lo, hi, a, 0, q, f) == Total(ws, lo + 1, hi, a, 0, q, f)
             ensures Total(ws, lo, hi, a, q.rateUntil, q, f) == Total(ws, lo + 1, hi, a, q.rateUntil, q, f) {
    }
  }

  // ---- The two windows ----

  /** `take_while` from the newest end is exact: it takes the windows within the collection window of
      the whole deque, and the rate-eligible ones among them are the newest ones. */
  lemma EarlyStopIsExact(deque: History, window: nat, ts: nat, collection: nat, k: nat, rateUntil: nat)
    requires Regular(deque, window) && k <= |deque|
    requires forall j | k <= j < |deque| :: ts <= deque[j].ts + collection
    requires k > 0 ==> ts > deque[k - 1].ts + collection
    ensures forall j | 0 <= j < |deque| :: k <= j <==> ts <= deque[j].ts + collection
    ensures forall i, j | 0 <= i < j < |deque| :: rateUntil <= deque[i].ts ==> rateUntil <= deque[j].ts
  {
    hide Regular;
    forall j | 0 <= j < k ensures ts > deque[j].ts + collection {
      if j < k - 1 { RegularOrder(deque, window, j, k - 1); }
    }
    forall i, j | 0 <= i < j < |deque| ensures deque[i].ts <= deque[j].ts {
      RegularOrder(deque, window, i, j);
    }
  }

  /** `rate_until` */
  function RateUntil(ts: nat, rateWindow: nat, window: nat): nat
    requires 0 < window < U64
  {
    var back := if rateWindow < ts then ts - rateWindow else 0;
    Trunc(if back < window then window else back, window)
  }

  /** Exactly which windows count for the rate: those that end after the rate window begins, except the one
      at timestamp zero. */
  lemma RateEligibleIff(ts: nat, rateWindow: nat, window: nat, w: nat)
    requires 0 < window < U64 && ts < U64 && w % window == 0
    ensures RateUntil(ts, rateWindow, window) <= w <==> 0 < w && ts < w + window + rateWindow
  {
    var back := if rateWindow < ts then ts - rateWindow else 0;
    TruncAtMost(if back < window then window else back, window, w);
    hide Trunc;
    if 0 < w { AlignedGap(0, w, window); }
  }

  /** What a window adds to an entry: to its sum, its row if the socket is visible; to its rate, the same if the window
      ends after the rate window begins and is not at timestamp zero. */
  lemma WindowAdds(w: Timed<SegmentData>, a: SockAddr, ts: nat, rateWindow: nat, window: nat, q: Query, f: Field)
    requires 0 < window < U64 && ts < U64 && w.ts % window == 0
    ensures var row := if Visible(w.body, a, q) then Row(w.body.index, LocalSocket(a)).Get(f) else 0;
            && Contribution(w, a, 0, q, f) == row
            && Contribution(w, a, RateUntil(ts, rateWindow, window), q, f)
               == if 0 < w.ts && ts < w.ts + window + rateWindow then row else 0
  {
    RateEligibleIff(ts, rateWindow, window, w.ts);
    hide RateUntil;
    hide Visible;
  }

  lemma TruncAtMost(x: nat, window: nat, w: nat)
    requires 0 < window < U64 && x < U64 && w % window == 0
    ensures Trunc(x, window) <= w <==> x < w + window
  {
    TruncInRange(x, window);
    hide Trunc;
    var r := Trunc(x, window);
    assert r <= x < r + window && r % window == 0;
    if w < r { AlignedGap(w, r, window); }
  }

  /** The reported rate range is shorter than the rate window and one segment together. */
  lemma RateRangeIsBounded(ts: nat, rateWindow: nat, window: nat, oldest: nat)
    requires 0 < window < U64 && ts < U64 && RateUntil(ts, rateWindow, window) <= oldest
    ensures ts < oldest + rateWindow + window
  {
    var back := if rateWindow < ts then ts - rateWindow else 0;
    TruncInRange(if back < window then window else back, window);
  }

  // ---- Machine width ----

  /** What the table merges for one socket is part of what its row holds over the same windows. */
  lemma {:induction false} TotalAtMostRows(ws: History, lo: nat, hi: nat, a: SockAddr, from: nat, q: Query, f: Field)
    requires lo <= hi <= |ws|
    ensures Total(ws, lo, hi, a, from, q, f) <= SumStat(ws[lo..hi], LocalSocket(a), f)
    decreases hi - lo
  {
    if lo < hi {
      TotalAtMostRows(ws, lo + 1, hi, a, from, q, f);
      SumStatFirst(ws, lo, hi, LocalSocket(a), f);
    }
  }

  lemma SumStatPart(ws: History, logs: Logs, lo: nat, hi: nat, i: Interest, f: Field)
    requires lo <= hi <= |ws| && AgreeAll(ws, logs)
    ensures SumStat(ws[lo..hi], i, f) <= Count(Flatten(logs), i, f)
  {
    hide Agrees;
    SumStatIsCount(ws[lo..hi], logs[lo..hi], i, f);
    assert logs == logs[..lo] + logs[lo..hi] + logs[hi..];
    FlattenConcat(logs[..lo] + logs[lo..hi], logs[hi..]);
    FlattenConcat(logs[..lo], logs[lo..hi]);
    CountConcat(Flatten(logs[..lo]) + Flatten(logs[lo..hi]), Flatten(logs[hi..]), i, f);
    CountConcat(Flatten(logs[..lo]), Flatten(logs[lo..hi]), i, f);
  }

  /** Fewer than 2^33 accepted messages: no counter of any entry overflows while the table merges it, and
      neither does the sum of the two directions. */
  lemma EntriesFit(cache: Cache, ws: History, logs: Logs, lo: nat, hi: nat, q: Query, a: SockAddr)
    requires lo <= hi <= |ws| && CacheFor(cache, ws, lo, hi, q) && a in cache
    requires AgreeAll(ws, logs) && |Flatten(logs)| < MAX_MESSAGES
    ensures FitsU64(cache[a].stat) && FitsU64(cache[a].rateStat)
  {
    assert CacheAt(cache, ws, lo, hi, q, a);
    forall f ensures cache[a].stat.Get(f) <= Count(Flatten(logs), LocalSocket(a), f)
             ensures cache[a].rateStat.Get(f) <= Count(Flatten(logs), LocalSocket(a), f)
    {
      TotalAtMostRows(ws, lo, hi, a, 0, q, f);
      TotalAtMostRows(ws, lo, hi, a, q.rateUntil, q, f);
      SumStatPart(ws, logs, lo, hi, LocalSocket(a), f);
    }
    CountersDoNotOverflow(Flatten(logs), LocalSocket(a));
    hide *;
    FitsBelow(cache[a].stat, Flatten(logs), LocalSocket(a));
    FitsBelow(cache[a].rateStat, Flatten(logs), LocalSocket(a));
  }

  lemma FitsBelow(s: Stat, log: seq<Msg>, i: Interest)
    requires FitsU64(Fold(log, i)) && forall f :: s.Get(f) <= Count(log, i, f)
    ensures FitsU64(s)
  {
    hide Count;
    assert s.Get(RxBytes) <= Count(log, i, RxBytes) && s.Get(TxBytes) <= Count(log, i, TxBytes);
    assert s.Get(RxPackets) <= Count(log, i, RxPackets) && s.Get(TxPackets) <= Count(log, i, TxPackets);
  }

  // ---- The table accounts for all the traffic ----

  /** The statistics of the table as rows of an index. */
  ghost function TableIndex(cache: Cache): Index {
    map i | i in LocalKeys(cache.Keys) :: cache[i.local].stat
  }

  ghost function TotalsIndex(ws: History, lo: nat, hi: nat, s: set<SockAddr>, q: Query): Index
    requires lo <= hi <= |ws|
  {
    map i | i in LocalKeys(s) :: Stat(
      Total(ws, lo, hi, i.local, 0, q, RxBytes), Total(ws, lo, hi, i.local, 0, q, RxPackets),
      Total(ws, lo, hi, i.local, 0, q, TxBytes), Total(ws, lo, hi, i.local, 0, q, TxPackets))
  }

  lemma {:induction false} SumRowsPlus(a: Index, b: Index, c: Index, s: set<Interest>, f: Field)
    requires forall i | i in s :: Row(c, i).Get(f) == Row(a, i).Get(f) + Row(b, i).Get(f)
    ensures SumRows(c, s, f) == SumRows(a, s, f) + SumRows(b, s, f)
    decreases |s|
  {
    if s != {} {
      var x :| x in s;
      SumRowsPick(a, s, x, f);
      SumRowsPick(b, s, x, f);
      SumRowsPick(c, s, x, f);
      SumRowsPlus(a, b, c, s - {x}, f);
    }
  }

  lemma {:induction false} SumRowsExtra(index: Index, s: set<Interest>, t: set<Interest>, f: Field)
    requires s <= t && forall i | i in t && i !in s :: i !in index
    ensures SumRows(index, t, f) == SumRows(index, s, f)
    decreases |t|
  {
    if t != s {
      var x :| x in t && x !in s;
      SumRowsPick(index, t, x, f);
      SumRowsExtra(index, s, t - {x}, f);
    }
  }

  predicate Unfiltered(q: Query) {
    q.filter == NoFilter && q.custom == None
  }

  /** Without filters, a segment's rows over any set that covers its sockets make up its `All` row. */
  lemma SegmentCovered(d: SegmentData, log: seq<Msg>, s: set<SockAddr>, f: Field)
    requires Agrees(d, log) && d.socks.Keys <= s
    ensures SumRows(d.index, LocalKeys(s), f) == Row(d.index, All).Get(f)
  {
    assert forall m | m in log :: m.local in d.socks && LocalSocket(m.local) in LocalKeys(d.socks.Keys);
    forall i | i in LocalKeys(s) && i !in LocalKeys(d.socks.Keys) ensures i !in d.index {
      RowPresent(d.index, log, i);
    }
    SumRowsExtra(d.index, LocalKeys(d.socks.Keys), LocalKeys(s), f);
    SocketsCoverAll(d, log, f);
  }

  lemma {:induction false} TotalsAddUp(ws: History, logs: Logs, lo: nat, hi: nat, s: set<SockAddr>, q: Query, f: Field)
    requires lo <= hi <= |ws| && AgreeAll(ws, logs) && Unfiltered(q)
    requires forall k | lo <= k < hi :: ws[k].body.socks.Keys <= s
    ensures SumRows(TotalsIndex(ws, lo, hi, s, q), LocalKeys(s), f) == SumStat(ws[lo..hi], All, f)
    decreases hi - lo
  {
    hide Agrees;
    hide SumRows;
    var keys := LocalKeys(s);
    if lo == hi {
      assert ws[lo..hi] == [];
      forall i | i in keys ensures Row(TotalsIndex(ws, lo, hi, s, q), i).Get(f) == Row(map[], i).Get(f) {
      }
      SumRowsAgree(TotalsIndex(ws, lo, hi, s, q), map[], keys, f);
      SumOfAbsent(map[], keys, f);
    } else {
      TotalsAddUp(ws, logs, lo + 1, hi, s, q, f);
      var d := ws[lo].body;
      forall i | i in keys
        ensures Row(TotalsIndex(ws, lo, hi, s, q), i).Get(f)
             == Row(d.index, i).Get(f) + Row(TotalsIndex(ws, lo + 1, hi, s, q), i).Get(f)
      {
        TotalsStep(ws, logs[lo].body, lo, hi, i.local, q, f);
      }
      SumRowsPlus(d.index, TotalsIndex(ws, lo + 1, hi, s, q), TotalsIndex(ws, lo, hi, s, q), keys, f);
      SegmentCovered(d, logs[lo].body, s, f);
      SumStatFirst(ws, lo, hi, All, f);
    }
  }

  lemma TotalsStep(ws: History, log: seq<Msg>, lo: nat, hi: nat, a: SockAddr, q: Query, f: Field)
    requires lo < hi <= |ws| && Agrees(ws[lo].body, log) && Unfiltered(q)
    ensures Total(ws, lo, hi, a, 0, q, f)
         == Row(ws[lo].body.index, LocalSocket(a)).Get(f) + Total(ws, lo + 1, hi, a, 0, q, f)
  {
    RowPresent(ws[lo].body.index, log, LocalSocket(a));
    if m :| m in log && Touches(m, LocalSocket(a)) {
      assert m.local in Locals(log);
    }
  }

  lemma {:induction false} SumStatFirst(ws: History, lo: nat, hi: nat, i: Interest, f: Field)
    requires lo < hi <= |ws|
    ensures SumStat(ws[lo..hi], i, f) == Row(ws[lo].body.index, i).Get(f) + SumStat(ws[lo + 1..hi], i, f)
    decreases hi - lo
  {
    assert ws[lo..hi][..hi - lo - 1] == ws[lo..hi - 1];
    if lo + 1 < hi {
      assert ws[lo + 1..hi][..hi - lo - 2] == ws[lo + 1..hi - 1];
      SumStatFirst(ws, lo, hi - 1, i, f);
    }
  }

  /** With no filters the entries add up to the `All` rows of the collected segments. */
  lemma TableTotal(cache: Cache, ws: History, logs: Logs, lo: nat, hi: nat, q: Query, f: Field)
    requires lo <= hi <= |ws| && AgreeAll(ws, logs) && Unfiltered(q) && CacheFor(cache, ws, lo, hi, q)
    ensures SumRows(TableIndex(cache), LocalKeys(cache.Keys), f) == SumStat(ws[lo..hi], All, f)
  {
    hide Agrees;
    hide SumRows;
    var s := cache.Keys;
    forall k | lo <= k < hi ensures ws[k].body.socks.Keys <= s {
      forall a | a in ws[k].body.socks ensures a in s {
        assert CacheAt(cache, ws, lo, hi, q, a);
        assert Visible(ws[k].body, a, q);
      }
    }
    forall i | i in LocalKeys(s)
      ensures Row(TableIndex(cache), i).Get(f) == Row(TotalsIndex(ws, lo, hi, s, q), i).Get(f)
    {
      assert CacheAt(cache, ws, lo, hi, q, i.local);
    }
    SumRowsAgree(TableIndex(cache), TotalsIndex(ws, lo, hi, s, q), LocalKeys(s), f);
    TotalsAddUp(ws, logs, lo, hi, s, q, f);
  }
}
