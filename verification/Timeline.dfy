/** Sequences of timestamped windows, generic in what a window holds. The store, its message log and
    the concurrent model all grow such a timeline in the same way. */
module Timeline {
  import opened Clock

  datatype Timed<T> = Timed(ts: nat, body: T)

  function Newest<T>(h: seq<Timed<T>>): Timed<T>
    requires h != []
  {
    h[|h| - 1]
  }

  /** The slow-path loop without eviction: an empty timeline starts at `ts`, otherwise one window is
      appended at a time until the newest one is not older than `ts`. */
  function Fill<T>(h: seq<Timed<T>>, ts: nat, window: nat, blank: T): (r: seq<Timed<T>>)
    requires 0 < window
    ensures h <= r && r != []
    decreases if h == [] then 1 + ts else if Newest(h).ts < ts then ts - Newest(h).ts else 0
  {
    if h == [] then [Timed(ts, blank)]
    else if Newest(h).ts >= ts then h
    else Fill(h + [Timed(Newest(h).ts + window, blank)], ts, window, blank)
  }

  /** A gap-free progression of window-aligned timestamps. */
  ghost predicate Regular<T>(h: seq<Timed<T>>, window: nat)
    decreases |h|
  {
    && 0 < window
    && (|h| == 1 ==> h[0].ts % window == 0)
    && (|h| > 1 ==> Regular(h[..|h| - 1], window) && Newest(h).ts == h[|h| - 2].ts + window)
  }

  /** The closed form of a regular timeline. */
  lemma {:induction false} RegularAligned<T>(h: seq<Timed<T>>, window: nat, k: nat)
    requires Regular(h, window) && k < |h|
    ensures h[k].ts % window == 0
    ensures h[k].ts == h[0].ts + k * window
    decreases |h|
  {
    if k < |h| - 1 {
      RegularAligned(h[..|h| - 1], window, k);
    } else if k > 0 {
      RegularAligned(h[..|h| - 1], window, k - 1);
      ModStep(h[k - 1].ts, window);
      assert k * window == (k - 1) * window + window;
    }
  }

  lemma RegularOrder<T>(h: seq<Timed<T>>, window: nat, i: nat, j: nat)
    requires Regular(h, window) && i < j < |h|
    ensures h[i].ts + window <= h[j].ts && h[i].ts < h[j].ts
  {
    RegularAligned(h, window, i);
    RegularAligned(h, window, j);
    MulOrder(i, j, window);
  }

  lemma PushRegular<T>(h: seq<Timed<T>>, window: nat, body: T)
    requires Regular(h, window) && h != []
    ensures Regular(h + [Timed(Newest(h).ts + window, body)], window)
  {
    var r := h + [Timed(Newest(h).ts + window, body)];
    assert r[..|r| - 1] == h;
  }

  lemma {:induction false} SameTimes<T, U>(h: seq<Timed<T>>, g: seq<Timed<U>>, window: nat)
    requires Regular(h, window) && |h| == |g| && forall k | 0 <= k < |h| :: h[k].ts == g[k].ts
    ensures Regular(g, window)
    decreases |h|
  {
    if |h| > 1 {
      SameTimes(h[..|h| - 1], g[..|g| - 1], window);
    }
  }

  ghost predicate IsFilled<T>(h: seq<Timed<T>>, ts: nat, window: nat, blank: T, r: seq<Timed<T>>) {
    && h <= r && r != []
    && Regular(r, window)
    && (forall k | |h| <= k < |r| :: r[k].body == blank)
    && Newest(r).ts == (if h == [] || Newest(h).ts < ts then ts else Newest(h).ts)
    && (h == [] ==> |r| == 1)
  }

  /** `Fill` appends empty windows without a gap and stops exactly at the requested window. */
  lemma {:induction false} FillIsFilled<T>(h: seq<Timed<T>>, ts: nat, window: nat, blank: T)
    requires Regular(h, window) && ts % window == 0
    ensures IsFilled(h, ts, window, blank, Fill(h, ts, window, blank))
    decreases if h == [] then 1 + ts else if Newest(h).ts < ts then ts - Newest(h).ts else 0
  {
    if h != [] && Newest(h).ts < ts {
      var next := h + [Timed(Newest(h).ts + window, blank)];
      PushRegular(h, window, blank);
      RegularAligned(h, window, |h| - 1);
      AlignedGap(Newest(h).ts, ts, window);
      FillIsFilled(next, ts, window, blank);
      var r := Fill(next, ts, window, blank);
      assert h <= next <= r;
      assert r[|h|] == next[|h|];
    }
  }

  /** Nothing else satisfies that description. */
  lemma FillUnique<T>(h: seq<Timed<T>>, ts: nat, window: nat, blank: T, r: seq<Timed<T>>, r': seq<Timed<T>>)
    requires IsFilled(h, ts, window, blank, r) && IsFilled(h, ts, window, blank, r')
    ensures r == r'
  {
    if |r| < |r'| {
      SameStart(r, r', window, |r| - 1);
      RegularOrder(r', window, |r| - 1, |r'| - 1);
    } else if |r'| < |r| {
      SameStart(r', r, window, |r'| - 1);
      RegularOrder(r, window, |r'| - 1, |r| - 1);
    }
    forall k | 0 <= k < |r| && k < |r'| ensures r[k] == r'[k] {
      if h == [] {
      } else if k < |h| {
        assert r[k] == h[k] == r'[k];
      } else {
        SameStart(r, r', window, k);
      }
    }
  }

  lemma SameStart<T>(r: seq<Timed<T>>, r': seq<Timed<T>>, window: nat, k: nat)
    requires Regular(r, window) && Regular(r', window) && k < |r| && k < |r'| && r[0].ts == r'[0].ts
    ensures r[k].ts == r'[k].ts
  {
    RegularAligned(r, window, k);
    RegularAligned(r', window, k);
  }

  /** The last `n` items: what a bounded deque keeps. */
  function LastN<T>(n: nat, s: seq<T>): (r: seq<T>)
    ensures |r| == if |s| <= n then |s| else n
  {
    if |s| <= n then s else s[|s| - n..]
  }

  /** `if len >= capacity { pop_front() }; push_back(x)` keeps the last items of the whole history;
      a capacity of zero behaves as one. */
  lemma PushKeepsLast<T>(capacity: nat, s: seq<T>, x: T)
    ensures var kept := LastN(MaxLen(capacity), s);
            var popped := if |kept| >= capacity && kept != [] then kept[1..] else kept;
            popped + [x] == LastN(MaxLen(capacity), s + [x])
  {}

  function MaxLen(capacity: nat): nat {
    if capacity == 0 then 1 else capacity
  }

  /** `b` continues `a`: every window but the newest of `a` is frozen, and the newest one keeps its place. */
  ghost predicate Extends<T>(a: seq<Timed<T>>, b: seq<Timed<T>>) {
    && |a| <= |b|
    && (forall k | 0 <= k < |a| - 1 :: b[k] == a[k])
    && (a != [] ==> b[|a| - 1].ts == a[|a| - 1].ts)
  }

  lemma ExtendsTransitive<T>(a: seq<Timed<T>>, b: seq<Timed<T>>, c: seq<Timed<T>>)
    requires Extends(a, b) && Extends(b, c)
    ensures Extends(a, c)
  {
    if a != [] {
      assert |a| - 1 < |b| - 1 || |a| == |b|;
    }
  }

  /** Replacing what the newest window holds. */
  function SetNewest<T>(h: seq<Timed<T>>, body: T): seq<Timed<T>>
    requires h != []
  {
    h[|h| - 1 := Timed(Newest(h).ts, body)]
  }

  lemma SetNewestShape<T>(h: seq<Timed<T>>, body: T, window: nat, n: nat)
    requires h != [] && 0 < n
    ensures Extends(h, SetNewest(h, body))
    ensures Regular(h, window) ==> Regular(SetNewest(h, body), window)
    ensures LastN(n, SetNewest(h, body)) == SetNewest(LastN(n, h), body)
  {
    if Regular(h, window) {
      SameTimes(h, SetNewest(h, body), window);
    }
  }

  lemma {:induction false} LastNRegular<T>(n: nat, h: seq<Timed<T>>, window: nat)
    requires Regular(h, window)
    ensures Regular(LastN(n, h), window)
    decreases |h|, n
  {
    var r := LastN(n, h);
    if |r| == 1 {
      RegularAligned(h, window, |h| - 1);
    } else if |r| > 1 {
      LastNRegular(|r| - 1, h[..|h| - 1], window);
      assert r[..|r| - 1] == LastN(|r| - 1, h[..|h| - 1]);
    }
  }
}
