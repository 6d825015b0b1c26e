/** Counters, interests and sockets (`ptraf/src/store.rs`), and the plain-log meaning of an index:
    the row of an interest is the sum over the accepted messages that touch it. */
module Traffic {
  import opened Types
  import opened Clock

  /** `Interest`: the key of an index row. */
  datatype Interest =
    | RemoteIp(ip: StdIp)
    | RemoteSocket(remote: SockAddr)
    | LocalSocket(local: SockAddr)
    | Pid(pid: u32)
    | All

  /** `Interest::interests_from_msg`, in the order in which the rows are incremented. */
  function InterestsFromMsg(msg: Msg): seq<Interest> {
    [Pid(msg.pid),
     LocalSocket(msg.local),
     RemoteSocket(msg.remote),
     RemoteIp(msg.remote.ip),
     All]
  }

  /** The four counters of a row. */
  datatype Field = RxBytes | RxPackets | TxBytes | TxPackets

  datatype Stat = Stat(rx: nat, rxPackets: nat, tx: nat, txPackets: nat) {
    function Get(f: Field): nat {
      match f
      case RxBytes => rx
      case RxPackets => rxPackets
      case TxBytes => tx
      case TxPackets => txPackets
    }

    /** `Stat::merge` */
    function Plus(other: Stat): Stat {
      Stat(rx + other.rx, rxPackets + other.rxPackets, tx + other.tx, txPackets + other.txPackets)
    }

    function Packets(): nat {
      rxPackets + txPackets
    }
  }

  function Zero(): Stat {
    Stat(0, 0, 0, 0)
  }

  lemma StatExtensional(a: Stat, b: Stat)
    requires forall f :: a.Get(f) == b.Get(f)
    ensures a == b
  {
    assert a.Get(RxBytes) == b.Get(RxBytes) && a.Get(RxPackets) == b.Get(RxPackets);
    assert a.Get(TxBytes) == b.Get(TxBytes) && a.Get(TxPackets) == b.Get(TxPackets);
  }

  lemma PlusFields(a: Stat, b: Stat, f: Field)
    ensures a.Plus(b).Get(f) == a.Get(f) + b.Get(f)
  {}

  type Index = map<Interest, Stat>

  /** `Metrics::increment(channel, len, 1)` on a fresh row. */
  function Unit(channel: Channel, len: nat): Stat {
    match channel
    case Rx => Stat(len, 1, 0, 0)
    case Tx => Stat(0, 0, len, 1)
  }

  function MsgStat(msg: Msg): Stat {
    if msg.ret < 0 then Zero() else Unit(msg.channel, msg.ret)
  }

  /** `stat_by_interest(..).unwrap_or_default()` */
  function Row(index: Index, i: Interest): Stat {
    if i in index then index[i] else Zero()
  }

  /** One `entry(..).and_modify(..).or_insert_with(..)`. */
  function Bump(index: Index, i: Interest, amount: Stat): Index {
    index[i := Row(index, i).Plus(amount)]
  }

  /** The messages `batch_update` does not skip. */
  function Accepted(msgs: seq<Msg>): seq<Msg> {
    if msgs == [] then []
    else (if msgs[0].ret < 0 then [] else [msgs[0]]) + Accepted(msgs[1..])
  }

  /** Which messages an interest is about, without reference to how rows are filled. */
  predicate Touches(msg: Msg, i: Interest) {
    match i
    case Pid(pid) => msg.pid == pid
    case LocalSocket(addr) => msg.local == addr
    case RemoteSocket(addr) => msg.remote == addr
    case RemoteIp(ip) => msg.remote.ip == ip
    case All => true
  }

  lemma TouchesIffListed(msg: Msg, i: Interest)
    ensures Touches(msg, i) <==> i in InterestsFromMsg(msg)
  {
    var l := InterestsFromMsg(msg);
    assert l[0] in l && l[1] in l && l[2] in l && l[3] in l && l[4] in l;
  }

  /** What one message adds to one counter of the row of an interest. */
  function Share(msg: Msg, i: Interest, f: Field): nat {
    if Touches(msg, i) then MsgStat(msg).Get(f) else 0
  }

  /** The reference meaning of a counter: the sum over the messages of the log. */
  function Count(log: seq<Msg>, i: Interest, f: Field): nat {
    if log == [] then 0 else Count(log[..|log| - 1], i, f) + Share(log[|log| - 1], i, f)
  }

  /** The reference meaning of a row. */
  function Fold(log: seq<Msg>, i: Interest): Stat {
    Stat(Count(log, i, RxBytes), Count(log, i, RxPackets), Count(log, i, TxBytes), Count(log, i, TxPackets))
  }

  // ---- What the counters are, without reference to how a row is filled ----

  /** The bytes that the successful calls of one direction carried, among the messages selected. */
  ghost function Bytes(log: seq<Msg>, sel: Msg -> bool, c: Channel): nat {
    if log == [] then 0
    else
      var m := log[|log| - 1];
      Bytes(log[..|log| - 1], sel, c) + if m.channel == c && m.ret >= 0 && sel(m) then m.ret else 0
  }

  /** The number of those calls. */
  ghost function Calls(log: seq<Msg>, sel: Msg -> bool, c: Channel): nat {
    if log == [] then 0
    else
      var m := log[|log| - 1];
      Calls(log[..|log| - 1], sel, c) + if m.channel == c && m.ret >= 0 && sel(m) then 1 else 0
  }

  /** Received calls are counted in `rx` and sent calls in `tx`. */
  ghost predicate Counts(s: Stat, log: seq<Msg>, sel: Msg -> bool) {
    && s.rx == Bytes(log, sel, Rx) && s.rxPackets == Calls(log, sel, Rx)
    && s.tx == Bytes(log, sel, Tx) && s.txPackets == Calls(log, sel, Tx)
  }

  /** The row of an interest counts, by direction, the successful calls that touch it. */
  lemma {:induction false} RowCounts(log: seq<Msg>, i: Interest)
    ensures Counts(Fold(log, i), log, m => Touches(m, i))
  {
    if log != [] {
      RowCounts(log[..|log| - 1], i);
    }
  }

  lemma {:induction false} CountsSame(s: Stat, log: seq<Msg>, sel: Msg -> bool, sel': Msg -> bool)
    requires Counts(s, log, sel) && forall m | m in log :: sel(m) == sel'(m)
    ensures Counts(s, log, sel')
  {
    SameSelection(log, sel, sel', Rx);
    SameSelection(log, sel, sel', Tx);
  }

  lemma {:induction false} SameSelection(log: seq<Msg>, sel: Msg -> bool, sel': Msg -> bool, c: Channel)
    requires forall m | m in log :: sel(m) == sel'(m)
    ensures Bytes(log, sel, c) == Bytes(log, sel', c) && Calls(log, sel, c) == Calls(log, sel', c)
  {
    if log != [] {
      SameSelection(log[..|log| - 1], sel, sel', c);
    }
  }

  lemma FoldFields(log: seq<Msg>, i: Interest, f: Field)
    ensures Fold(log, i).Get(f) == Count(log, i, f)
  {}

  lemma CountSnoc(log: seq<Msg>, msg: Msg, i: Interest, f: Field)
    ensures Count(log + [msg], i, f) == Count(log, i, f) + Share(msg, i, f)
  {
    assert (log + [msg])[..|log|] == log;
  }

  lemma {:induction false} CountConcat(a: seq<Msg>, b: seq<Msg>, i: Interest, f: Field)
    ensures Count(a + b, i, f) == Count(a, i, f) + Count(b, i, f)
  {
    if b == [] {
      assert a + b == a;
    } else {
      assert (a + b)[..|a + b| - 1] == a + b[..|b| - 1];
      CountConcat(a, b[..|b| - 1], i, f);
    }
  }

  /** Taking one message out of a log takes its share out of every counter. */
  lemma CountPull(b: seq<Msg>, k: nat, i: Interest, f: Field)
    requires k < |b|
    ensures Count(b, i, f) == Share(b[k], i, f) + Count(b[..k] + b[k + 1..], i, f)
  {
    var pre, m, post := b[..k], b[k], b[k + 1..];
    assert b == pre + [m] + post;
    CountConcat(pre + [m], post, i, f);
    CountSnoc(pre, m, i, f);
    CountConcat(pre, post, i, f);
  }

  /** A log with the same messages as `a` holds the last message of `a`, and the rest elsewhere. */
  lemma FindLast(a: seq<Msg>, b: seq<Msg>) returns (k: nat)
    requires multiset(a) == multiset(b) && a != []
    ensures k < |b| && b[k] == a[|a| - 1]
    ensures multiset(a[..|a| - 1]) == multiset(b[..k] + b[k + 1..])
  {
    var init, m := a[..|a| - 1], a[|a| - 1];
    assert a == init + [m];
    assert m in multiset(b);
    k :| 0 <= k < |b| && b[k] == m;
    assert b == b[..k] + [m] + b[k + 1..];
    assert multiset(b) == multiset(b[..k]) + multiset{m} + multiset(b[k + 1..]);
    assert multiset(init) == multiset(a) - multiset{m};
    assert multiset(b[..k] + b[k + 1..]) == multiset(b) - multiset{m};
  }

  /** The order of messages does not matter: permuted logs have the same counters. */
  lemma {:induction false} CountPermutation(a: seq<Msg>, b: seq<Msg>, i: Interest, f: Field)
    requires multiset(a) == multiset(b)
    ensures Count(a, i, f) == Count(b, i, f)
    decreases |a|
  {
    if a == [] {
      assert |multiset(b)| == |multiset(a)|;
    } else {
      var k := FindLast(a, b);
      CountPermutation(a[..|a| - 1], b[..k] + b[k + 1..], i, f);
      CountPull(b, k, i, f);
    }
  }

  lemma FoldPermutation(a: seq<Msg>, b: seq<Msg>, i: Interest)
    requires multiset(a) == multiset(b)
    ensures Fold(a, i) == Fold(b, i)
  {
    forall f ensures Count(a, i, f) == Count(b, i, f) {
      CountPermutation(a, b, i, f);
    }
  }

  lemma {:induction false} AcceptedConcat(a: seq<Msg>, b: seq<Msg>)
    ensures Accepted(a + b) == Accepted(a) + Accepted(b)
  {
    if a == [] {
      assert a + b == b;
    } else {
      var first, rest := (if a[0].ret < 0 then [] else [a[0]]), Accepted(a[1..]);
      calc {
        Accepted(a + b);
        { assert (a + b)[0] == a[0] && (a + b)[1..] == a[1..] + b; }
        first + Accepted(a[1..] + b);
        { AcceptedConcat(a[1..], b); }
        first + (rest + Accepted(b));
        (first + rest) + Accepted(b);
        Accepted(a) + Accepted(b);
      }
    }
  }

  /** Exactly the successful calls are accepted, each as often as it occurs. */
  lemma {:induction false} AcceptedAre(msgs: seq<Msg>, m: Msg)
    ensures multiset(Accepted(msgs))[m] == if m.ret >= 0 then multiset(msgs)[m] else 0
  {
    if msgs != [] {
      var first, rest := if msgs[0].ret < 0 then [] else [msgs[0]], msgs[1..];
      AcceptedAre(rest, m);
      assert msgs == [msgs[0]] + rest;
      assert Accepted(msgs) == first + Accepted(rest);
    }
  }

  /** Two sockets share a `LocalSocket` row exactly when their local kernel endpoints are the same, and
      likewise for the remote rows: conversion never merges or splits a row. */
  lemma RowsFollowKernelEndpoints(l: Endpoint, r: Endpoint, l': Endpoint, r': Endpoint, t: SockType, t': SockType,
                                  ret: i32, ret': i32, pid: u32, pid': u32, c: Channel, c': Channel)
    ensures var m, m' := Received(EventFor(l, r, t, ret, pid, c)), Received(EventFor(l', r', t', ret', pid', c'));
            && (Touches(m', LocalSocket(m.local)) <==> l == l')
            && (Touches(m', RemoteSocket(m.remote)) <==> r == r')
            && (Touches(m', RemoteIp(m.remote.ip)) <==> r.addr == r'.addr)
            && (Touches(m', Pid(m.pid)) <==> pid == pid')
  {
    EndpointsDoNotCollide(l, l');
    EndpointsDoNotCollide(r, r');
    AddressRoundTrip(r.addr, EndpointAddr(r).ip);
    AddressRoundTrip(r'.addr, EndpointAddr(r').ip);
  }

  // ---- Machine width ----

  const MAX_MESSAGES: nat := 0x2_0000_0000

  /** Every counter, and the `rx + tx` the sparkline divides, fits in 64 bits. */
  predicate FitsU64(s: Stat) {
    s.rxPackets < U64 && s.txPackets < U64 && s.rx + s.tx < U64
  }

  lemma {:induction false} CountBound(log: seq<Msg>, i: Interest)
    ensures Count(log, i, RxBytes) + Count(log, i, TxBytes) <= |log| * 0x7FFF_FFFF
    ensures Count(log, i, RxPackets) + Count(log, i, TxPackets) <= |log|
  {
    if log != [] {
      CountBound(log[..|log| - 1], i);
    }
  }

  /** A counter as `fetch_add` really computes it, modulo 2^64. */
  function WrappingCount(log: seq<Msg>, i: Interest, f: Field): nat {
    if log == [] then 0
    else (WrappingCount(log[..|log| - 1], i, f) + Share(log[|log| - 1], i, f)) % U64
  }

  lemma ModPlus(a: nat, b: nat)
    ensures (a % U64 + b) % U64 == (a + b) % U64
  {
    var r := a % U64 + b;
    assert a + b == (a / U64 + r / U64) * U64 + r % U64;
    DivUnique(a + b, a / U64 + r / U64, r % U64, U64);
  }

  /** The machine counters are the true sums modulo 2^64, for every log. */
  lemma {:induction false} WrappingCountIsModular(log: seq<Msg>, i: Interest, f: Field)
    ensures WrappingCount(log, i, f) == Count(log, i, f) % U64
  {
    hide Share;
    if log != [] {
      var init, m := log[..|log| - 1], log[|log| - 1];
      WrappingCountIsModular(init, i, f);
      ModPlus(Count(init, i, f), Share(m, i, f));
    }
  }

  /** Fewer than 2^33 messages cannot overflow any counter: an `i32` payload is below 2^31. The
      wrapping counters then hold the true sums. */
  lemma CountersDoNotOverflow(log: seq<Msg>, i: Interest)
    requires |log| < MAX_MESSAGES
    ensures FitsU64(Fold(log, i))
    ensures forall f :: WrappingCount(log, i, f) == Count(log, i, f)
  {
    CountBound(log, i);
    forall f ensures WrappingCount(log, i, f) == Count(log, i, f) {
      WrappingCountIsModular(log, i, f);
      FoldFields(log, i, f);
    }
  }

  // ---- Sockets ----

  /** `Socket`; the store compares sockets by `local` alone, so sets of sockets are maps keyed by it. */
  datatype Socket = Socket(pid: u32, local: SockAddr, remote: SockAddr, sockType: SockType) {
    /** `Socket::match_interest`, including the `LocalSocket` case that looks at the remote side. */
    predicate MatchInterest(i: Interest) {
      match i
      case RemoteIp(ip) => ip == remote.ip
      case RemoteSocket(sock) => sock == remote
      case LocalSocket(sock) => sock == remote
      case Pid(p) => p == pid
      case All => true
    }
  }

  function SocketOf(msg: Msg): Socket {
    Socket(msg.pid, msg.local, msg.remote, msg.sockType)
  }
}
