/** The socket table while writers run: it reads the deque under a view, one segment after the other and, in the
    newest one, one row after the other. */
module TableUnderWriters {
  import opened Types
  import opened Traffic
  import opened Segments
  import opened Timeline
  import opened StoreSpec
  import opened FilterLang
  import opened ViewFilter
  import opened SocketTableSpec
  import opened ConcurrentModel
  import opened ConcurrentInvariant
  import opened ConcurrentTheorems

  /** What a reader may find between two states of the deque: the frozen segments as they are, and in the newest one
      each row and the set of sockets at any moment in between. */
  ghost predicate FoundBetween(before: History, found: History, after: History) {
    && SameButNewest(before, found) && SameButNewest(before, after)
    && (before != [] ==> Between(Newest(before).body, Newest(found).body, Newest(after).body))
  }

  /** Under a view held from step `p` to step `q`, whatever the deque is at a step in between is such a finding. */
  lemma ViewFinds(c: Config, n: nat, acts: seq<Action>, p: nat, r: nat, q: nat, viewer: nat)
    requires ValidConfig(c) && Run(c, n, acts).Some? && p <= r <= q <= |acts|
    requires viewer in StateAt(c, n, acts, p).readers && forall k | p <= k < q :: acts[k].t != viewer
    ensures FoundBetween(StateAt(c, n, acts, p).segments, StateAt(c, n, acts, r).segments, StateAt(c, n, acts, q).segments)
  {
    ViewAt(c, n, acts, p, r, viewer);
    ViewAt(c, n, acts, p, q, viewer);
    if StateAt(c, n, acts, p).segments != [] {
      GrowsBetween(c, n, acts, p, r, viewer);
      StillViewed(c, n, acts, p, r, viewer);
      GrowsBetween(c, n, acts, r, q, viewer);
      hide StateAt;
      GrowsTransitive(Newest(StateAt(c, n, acts, p).segments).body, Newest(StateAt(c, n, acts, r).segments).body,
                      Newest(StateAt(c, n, acts, q).segments).body);
    }
  }

  /** A reader that reads each row of the newest segment, and each socket, at a step of its own finds no more. */
  lemma ViewFindsRows(c: Config, n: nat, acts: seq<Action>, p: nat, q: nat, viewer: nat, found: History)
    requires ValidConfig(c) && Run(c, n, acts).Some? && p <= q <= |acts|
    requires viewer in StateAt(c, n, acts, p).readers && forall k | p <= k < q :: acts[k].t != viewer
    requires SameButNewest(StateAt(c, n, acts, p).segments, found)
    requires found != [] ==> forall i :: RowWithin(c, n, acts, p, q, i, Newest(found).body)
    requires found != [] ==> forall a :: SocketWithin(c, n, acts, p, q, a, Newest(found).body)
    ensures FoundBetween(StateAt(c, n, acts, p).segments, found, StateAt(c, n, acts, q).segments)
  {
    ViewAt(c, n, acts, p, q, viewer);
    var before, after := StateAt(c, n, acts, p).segments, StateAt(c, n, acts, q).segments;
    if found != [] {
      var low, d, high := Newest(before).body, Newest(found).body, Newest(after).body;
      forall i, f ensures Row(low.index, i).Get(f) <= Row(d.index, i).Get(f) <= Row(high.index, i).Get(f) {
        assert RowWithin(c, n, acts, p, q, i, d);
        var r :| p <= r <= q && ReadsRow(StateAt(c, n, acts, r), i, d);
        ViewFinds(c, n, acts, p, r, q, viewer);
        hide StateAt;
      }
      forall a ensures (a in low.socks ==> a in d.socks) && (a in d.socks ==> a in high.socks) {
        assert SocketWithin(c, n, acts, p, q, a, d);
        var r :| p <= r <= q && ReadsSocket(StateAt(c, n, acts, r), a, d);
        ViewFinds(c, n, acts, p, r, q, viewer);
        hide StateAt;
      }
    }
  }

  /** The row of `i` is what it was after some step between `p` and `q`. */
  ghost predicate RowWithin(c: Config, n: nat, acts: seq<Action>, p: nat, q: nat, i: Interest, d: SegmentData)
    requires ValidConfig(c) && Run(c, n, acts).Some? && p <= q <= |acts|
  {
    exists r | p <= r <= q :: ReadsRow(StateAt(c, n, acts, r), i, d)
  }

  ghost predicate SocketWithin(c: Config, n: nat, acts: seq<Action>, p: nat, q: nat, a: SockAddr, d: SegmentData)
    requires ValidConfig(c) && Run(c, n, acts).Some? && p <= q <= |acts|
  {
    exists r | p <= r <= q :: ReadsSocket(StateAt(c, n, acts, r), a, d)
  }

  predicate ReadsRow(s: State, i: Interest, d: SegmentData) {
    s.segments != [] && Row(d.index, i) == Row(Newest(s.segments).body.index, i)
  }

  predicate ReadsSocket(s: State, a: SockAddr, d: SegmentData) {
    s.segments != [] && (a in d.socks <==> a in Newest(s.segments).body.socks)
  }

  lemma StillViewed(c: Config, n: nat, acts: seq<Action>, p: nat, q: nat, viewer: nat)
    requires ValidConfig(c) && Run(c, n, acts).Some? && p <= q <= |acts|
    requires viewer in StateAt(c, n, acts, p).readers && forall k | p <= k < q :: acts[k].t != viewer
    ensures viewer in StateAt(c, n, acts, q).readers
  {
    PrefixRuns(c, Init(n), acts, q);
    assert acts[..q][..p] == acts[..p] && acts[..q][p..] == acts[p..q];
    PrefixRuns(c, Init(n), acts[..q], p);
    Reachable(c, n, acts[..p]);
    hide Inv;
    ViewIsStable(c, StateAt(c, n, acts, p), acts[p..q], viewer);
  }

  lemma GrowsBetween(c: Config, n: nat, acts: seq<Action>, p: nat, q: nat, viewer: nat)
    requires ValidConfig(c) && Run(c, n, acts).Some? && p <= q <= |acts| && StateAt(c, n, acts, p).segments != []
    requires viewer in StateAt(c, n, acts, p).readers && forall k | p <= k < q :: acts[k].t != viewer
    ensures StateAt(c, n, acts, q).segments != []
    ensures GrowsTo(Newest(StateAt(c, n, acts, p).segments).body, Newest(StateAt(c, n, acts, q).segments).body)
  {
    PrefixRuns(c, Init(n), acts, q);
    assert acts[..q][..p] == acts[..p] && acts[..q][p..] == acts[p..q];
    PrefixRuns(c, Init(n), acts[..q], p);
    Reachable(c, n, acts[..p]);
    hide Inv;
    hide GrowsTo;
    RowsGrowUnderView(c, StateAt(c, n, acts, p), acts[p..q], viewer);
  }

  // ---- The sums ----

  lemma {:induction false} TotalSame(a: History, b: History, lo: nat, hi: nat, addr: SockAddr, from: nat, q: Query, f: Field)
    requires lo <= hi <= |a| && hi <= |b| && forall k | lo <= k < hi :: a[k] == b[k]
    ensures Total(a, lo, hi, addr, from, q, f) == Total(b, lo, hi, addr, from, q, f)
    decreases hi - lo
  {
    hide Contribution;
    if lo < hi {
      TotalSame(a, b, lo + 1, hi, addr, from, q, f);
    }
  }

  lemma {:induction false} TotalSnoc(ws: History, lo: nat, hi: nat, addr: SockAddr, from: nat, q: Query, f: Field)
    requires lo < hi <= |ws|
    ensures Total(ws, lo, hi, addr, from, q, f)
         == Total(ws, lo, hi - 1, addr, from, q, f) + Contribution(ws[hi - 1], addr, from, q, f)
    decreases hi - lo
  {
    hide Contribution;
    if lo < hi - 1 {
      TotalSnoc(ws, lo + 1, hi, addr, from, q, f);
    }
  }

  /** The table's sums under writers. Whatever the filters, the frozen windows contribute exactly, and the newest one
      adds nothing or a value between those of its row when the view began and when it ended. */
  lemma FrozenSumsAreExact(before: History, found: History, after: History, lo: nat, a: SockAddr, from: nat, q: Query, f: Field)
    requires FoundBetween(before, found, after) && lo < |before|
    ensures var n, i := |before| - 1, LocalSocket(a);
            var x := Contribution(Newest(found), a, from, q, f);
            && Total(found, lo, |found|, a, from, q, f) == Total(before, lo, n, a, from, q, f) + x
            && (x == 0 || Row(Newest(before).body.index, i).Get(f) <= x <= Row(Newest(after).body.index, i).Get(f))
  {
    var n := |before| - 1;
    TotalSnoc(found, lo, |found|, a, from, q, f);
    TotalSame(before, found, lo, n, a, from, q, f);
    hide Total;
  }

  /** Without filters the sums lie between those of the two ends of the view. */
  lemma SumsLieBetween(before: History, found: History, after: History, lo: nat, a: SockAddr, from: nat, q: Query, f: Field)
    requires FoundBetween(before, found, after) && lo <= |before| && Unfiltered(q)
    ensures Total(before, lo, |before|, a, from, q, f)
         <= Total(found, lo, |found|, a, from, q, f)
         <= Total(after, lo, |after|, a, from, q, f)
  {
    hide Total;
    hide Contribution;
    if lo < |before| {
      var n := |before| - 1;
      TotalSnoc(before, lo, |before|, a, from, q, f);
      TotalSnoc(found, lo, |found|, a, from, q, f);
      TotalSnoc(after, lo, |after|, a, from, q, f);
      TotalSame(before, found, lo, n, a, from, q, f);
      TotalSame(before, after, lo, n, a, from, q, f);
      ContributionGrows(Newest(before), Newest(found), Newest(after), a, from, q, f);
    } else {
      NoTotal(before, a, from, q, f);
      NoTotal(found, a, from, q, f);
    }
  }

  lemma NoTotal(ws: History, a: SockAddr, from: nat, q: Query, f: Field)
    ensures Total(ws, |ws|, |ws|, a, from, q, f) == 0
  {
  }

  lemma ContributionGrows(w: Timed<SegmentData>, w': Timed<SegmentData>, w'': Timed<SegmentData>, a: SockAddr, from: nat,
                          q: Query, f: Field)
    requires Between(w.body, w'.body, w''.body) && w.ts == w'.ts == w''.ts && Unfiltered(q)
    ensures Contribution(w, a, from, q, f) <= Contribution(w', a, from, q, f) <= Contribution(w'', a, from, q, f)
  {
    assert Visible(w.body, a, q) <==> a in w.body.socks;
    assert Visible(w'.body, a, q) <==> a in w'.body.socks;
    assert Visible(w''.body, a, q) <==> a in w''.body.socks;
  }

  // ---- The table over a run ----

  /** A view that thread `viewer` holds from step `p` to step `q`, and what it finds: the segments of the deque, and in
      the newest each row and each socket after some step of its own. */
  ghost predicate FindsInView(c: Config, n: nat, acts: seq<Action>, p: nat, q: nat, viewer: nat, found: History)
    requires ValidConfig(c) && Run(c, n, acts).Some?
  {
    && p <= q <= |acts|
    && viewer in StateAt(c, n, acts, p).readers && (forall k | p <= k < q :: acts[k].t != viewer)
    && SameButNewest(StateAt(c, n, acts, p).segments, found)
    && (found != [] ==> forall i :: RowWithin(c, n, acts, p, q, i, Newest(found).body))
    && (found != [] ==> forall a :: SocketWithin(c, n, acts, p, q, a, Newest(found).body))
  }

  /** Visible in one of the windows from `lo` on. */
  ghost predicate VisibleFrom(ws: History, lo: nat, a: SockAddr, query: Query) {
    exists k | lo <= k < |ws| :: Visible(ws[k].body, a, query)
  }

  /** The socket table over every run of concurrent writers. Its entries are those of what its view finds. Whatever the
      filters, each sum is exact over the frozen windows, and the newest adds nothing or a value between those of its
      row at the two ends of the view. Without filters, the sockets listed and all their sums lie between those of the
      two ends. */
  lemma TableUnderView(c: Config, n: nat, acts: seq<Action>, p: nat, q: nat, viewer: nat, found: History,
                       cache: Cache, lo: nat, query: Query, a: SockAddr, f: Field)
    requires ValidConfig(c) && Run(c, n, acts).Some? && FindsInView(c, n, acts, p, q, viewer, found)
    requires lo <= |found| && CacheFor(cache, found, lo, |found|, query)
    ensures var before, after := StateAt(c, n, acts, p).segments, StateAt(c, n, acts, q).segments;
            && |before| == |found| == |after|
            && (a in cache && lo < |found| ==>
                  && SumIsExact(before, after, lo, a, 0, query, f, cache[a].stat.Get(f))
                  && SumIsExact(before, after, lo, a, query.rateUntil, query, f, cache[a].rateStat.Get(f)))
            && (Unfiltered(query) ==>
                  && (VisibleFrom(before, lo, a, query) ==> a in cache)
                  && (a in cache ==> VisibleFrom(after, lo, a, query))
                  && (a in cache ==> SumLiesBetween(before, after, lo, a, 0, query, f, cache[a].stat.Get(f)))
                  && (a in cache ==> SumLiesBetween(before, after, lo, a, query.rateUntil, query, f, cache[a].rateStat.Get(f))))
  {
    var before, after := StateAt(c, n, acts, p).segments, StateAt(c, n, acts, q).segments;
    ViewFindsRows(c, n, acts, p, q, viewer, found);
    hide StateAt;
    hide FindsInView;
    hide CacheFor;
    EntryUnderView(before, found, after, cache, lo, query, a, f);
  }

  /** The windows but the newest, and a value that is nothing or between two values of the row. */
  ghost predicate SumIsExact(before: History, after: History, lo: nat, a: SockAddr, from: nat, query: Query, f: Field, sum: nat)
    requires lo < |before| == |after|
  {
    var i, rest := LocalSocket(a), Total(before, lo, |before| - 1, a, from, query, f);
    || sum == rest
    || rest + Row(Newest(before).body.index, i).Get(f) <= sum <= rest + Row(Newest(after).body.index, i).Get(f)
  }

  ghost predicate SumLiesBetween(before: History, after: History, lo: nat, a: SockAddr, from: nat, query: Query, f: Field, sum: nat)
    requires lo <= |before| == |after|
  {
    Total(before, lo, |before|, a, from, query, f) <= sum <= Total(after, lo, |after|, a, from, query, f)
  }

  lemma EntryUnderView(before: History, found: History, after: History, cache: Cache, lo: nat, query: Query, a: SockAddr, f: Field)
    requires FoundBetween(before, found, after) && lo <= |found| && CacheFor(cache, found, lo, |found|, query)
    ensures |before| == |found| == |after|
    ensures a in cache && lo < |found| ==>
      && SumIsExact(before, after, lo, a, 0, query, f, cache[a].stat.Get(f))
      && SumIsExact(before, after, lo, a, query.rateUntil, query, f, cache[a].rateStat.Get(f))
    ensures Unfiltered(query) ==>
      && (VisibleFrom(before, lo, a, query) ==> a in cache)
      && (a in cache ==> VisibleFrom(after, lo, a, query))
      && (a in cache ==> SumLiesBetween(before, after, lo, a, 0, query, f, cache[a].stat.Get(f)))
      && (a in cache ==> SumLiesBetween(before, after, lo, a, query.rateUntil, query, f, cache[a].rateStat.Get(f)))
  {
    assert CacheAt(cache, found, lo, |found|, query, a);
    if a in cache && lo < |found| {
      FrozenSumsAreExact(before, found, after, lo, a, 0, query, f);
      FrozenSumsAreExact(before, found, after, lo, a, query.rateUntil, query, f);
    }
    if Unfiltered(query) {
      SumsLieBetween(before, found, after, lo, a, 0, query, f);
      SumsLieBetween(before, found, after, lo, a, query.rateUntil, query, f);
      ListedBetween(before, found, after, lo, a, query);
      LatestIffVisible(found, lo, a, query);
    }
    hide FoundBetween;
    hide Total;
    hide Latest;
    hide VisibleFrom;
  }

  lemma LatestIffVisible(ws: History, lo: nat, a: SockAddr, query: Query)
    requires lo <= |ws|
    ensures Latest(ws, lo, |ws|, a, query).Some? <==> VisibleFrom(ws, lo, a, query)
  {
  }

  lemma ListedBetween(before: History, found: History, after: History, lo: nat, a: SockAddr, query: Query)
    requires FoundBetween(before, found, after) && Unfiltered(query)
    ensures VisibleFrom(before, lo, a, query) ==> VisibleFrom(found, lo, a, query)
    ensures VisibleFrom(found, lo, a, query) ==> VisibleFrom(after, lo, a, query)
  {
    forall k | 0 <= k < |before|
      ensures Visible(before[k].body, a, query) ==> Visible(found[k].body, a, query)
      ensures Visible(found[k].body, a, query) ==> Visible(after[k].body, a, query)
    {
      assert Visible(before[k].body, a, query) <==> a in before[k].body.socks;
      assert Visible(found[k].body, a, query) <==> a in found[k].body.socks;
      assert Visible(after[k].body, a, query) <==> a in after[k].body.socks;
    }
  }
}
