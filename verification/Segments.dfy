/** One time segment (`Segment` in `ptraf/src/store.rs`): a multi-key index and a set of sockets that
    must agree with the plain log of accepted messages. */
module Segments {
  import opened Types
  import opened Traffic

  /** The value of a segment. Sockets are equal when their local addresses are, so the set keeps one
      representative per local address. */
  datatype SegmentData = SegmentData(index: Index, socks: map<SockAddr, Socket>)

  function EmptyData(): SegmentData {
    SegmentData(map[], map[])
  }

  function Locals(log: seq<Msg>): set<SockAddr> {
    set m | m in log :: m.local
  }

  /** Every row is the fold of the log, and a row exists only once a message reached it. */
  ghost predicate RowsAgree(index: Index, log: seq<Msg>) {
    && (forall i :: Row(index, i) == Fold(log, i))
    && RowsPositive(index)
  }

  ghost predicate RowsPositive(index: Index) {
    forall i | i in index :: index[i].Packets() > 0
  }

  /** The log holds successful calls only, and there is one representative per local address seen in
      it, drawn from its messages. */
  ghost predicate SocksAgree(socks: map<SockAddr, Socket>, log: seq<Msg>) {
    && (forall m | m in log :: m.ret >= 0)
    && socks.Keys == Locals(log)
    && forall a | a in socks :: Represents(socks[a], a, log)
  }

  ghost predicate Represents(s: Socket, a: SockAddr, log: seq<Msg>) {
    s.local == a && exists m | m in log :: SocketOf(m) == s
  }

  ghost predicate Agrees(d: SegmentData, log: seq<Msg>) {
    RowsAgree(d.index, log) && SocksAgree(d.socks, log)
  }

  lemma EmptyAgrees()
    ensures Agrees(EmptyData(), [])
  {}

  /** Agreement leaves no freedom in the index: any two executions that took the same messages, in
      whatever order, hold the same rows. */
  lemma IndexDetermined(a: Index, b: Index, log: seq<Msg>, log': seq<Msg>)
    requires RowsAgree(a, log) && RowsAgree(b, log') && multiset(log) == multiset(log')
    ensures a == b
  {
    forall i ensures i in a <==> i in b
      ensures i in a ==> a[i] == b[i]
    {
      FoldPermutation(log, log', i);
      assert Row(a, i) == Row(b, i);
    }
  }

  /** A row is present exactly when some accepted message touches its interest. */
  lemma {:induction false} PresentIffTouched(log: seq<Msg>, i: Interest)
    requires forall m | m in log :: m.ret >= 0
    ensures Count(log, i, RxPackets) + Count(log, i, TxPackets) > 0 <==> exists m | m in log :: Touches(m, i)
  {
    if log != [] {
      var init, last := log[..|log| - 1], log[|log| - 1];
      assert log == init + [last];
      PresentIffTouched(init, i);
    }
  }

  lemma RowPresent(index: Index, log: seq<Msg>, i: Interest)
    requires RowsAgree(index, log) && forall m | m in log :: m.ret >= 0
    ensures i in index <==> exists m | m in log :: Touches(m, i)
    ensures i in index ==> index[i] == Fold(log, i)
  {
    PresentIffTouched(log, i);
    assert Row(index, i) == Fold(log, i);
  }

  // ---- Paying a message's share, one row at a time ----

  /** What a message still has to add to the row of `i`, with `todo` the rows not yet incremented. */
  function Owed(todo: seq<Interest>, amount: Stat, i: Interest): Stat {
    if i in todo then amount else Zero()
  }

  ghost predicate NoDuplicates(todo: seq<Interest>) {
    forall j, k | 0 <= j < k < |todo| :: todo[j] != todo[k]
  }

  lemma OwedAtStart(m: Msg, i: Interest)
    ensures NoDuplicates(InterestsFromMsg(m))
    ensures forall f :: Owed(InterestsFromMsg(m), MsgStat(m), i).Get(f) == Share(m, i, f)
  {
    TouchesIffListed(m, i);
  }

  /** One increment moves an amount from what is owed to the row, and leaves other rows alone. */
  lemma BumpPays(index: Index, todo: seq<Interest>, amount: Stat, i: Interest, f: Field)
    requires todo != [] && NoDuplicates(todo)
    ensures Row(Bump(index, todo[0], amount), i).Get(f) + Owed(todo[1..], amount, i).Get(f)
         == Row(index, i).Get(f) + Owed(todo, amount, i).Get(f)
  {
    assert todo == [todo[0]] + todo[1..];
    PlusFields(Row(index, todo[0]), amount, f);
  }

  /** The index lacks exactly the `todo` part of the last message of the log. */
  ghost predicate RowsOwe(index: Index, todo: seq<Interest>, amount: Stat, log: seq<Msg>) {
    && (forall i, f :: Row(index, i).Get(f) + Owed(todo, amount, i).Get(f) == Count(log, i, f))
    && RowsPositive(index)
  }

  lemma OweStart(index: Index, log: seq<Msg>, m: Msg)
    requires RowsAgree(index, log)
    ensures RowsOwe(index, InterestsFromMsg(m), MsgStat(m), log + [m])
  {
    forall i, f
      ensures Row(index, i).Get(f) + Owed(InterestsFromMsg(m), MsgStat(m), i).Get(f) == Count(log + [m], i, f)
    {
      CountSnoc(log, m, i, f);
      OwedAtStart(m, i);
      FoldFields(log, i, f);
    }
  }

  lemma OweStep(index: Index, todo: seq<Interest>, amount: Stat, log: seq<Msg>)
    requires RowsOwe(index, todo, amount, log) && todo != [] && NoDuplicates(todo) && amount.Packets() > 0
    ensures RowsOwe(Bump(index, todo[0], amount), todo[1..], amount, log)
  {
    forall i, f
      ensures Row(Bump(index, todo[0], amount), i).Get(f) + Owed(todo[1..], amount, i).Get(f) == Count(log, i, f)
    {
      BumpPays(index, todo, amount, i, f);
    }
  }

  lemma OweNothing(index: Index, amount: Stat, log: seq<Msg>)
    requires RowsOwe(index, [], amount, log)
    ensures RowsAgree(index, log)
  {
    forall i ensures Row(index, i) == Fold(log, i) {
      forall f ensures Row(index, i).Get(f) == Fold(log, i).Get(f) {
        FoldFields(log, i, f);
      }
      StatExtensional(Row(index, i), Fold(log, i));
    }
  }

  lemma SocksInsert(socks: map<SockAddr, Socket>, log: seq<Msg>, m: Msg)
    requires SocksAgree(socks, log) && m.ret >= 0
    ensures SocksAgree(socks[m.local := SocketOf(m)], log + [m])
    ensures m.local in socks ==> SocksAgree(socks, log + [m])
  {
    assert forall x :: x in log + [m] <==> x in log || x == m;
    assert Locals(log + [m]) == Locals(log) + {m.local};
    forall a | a in socks ensures Represents(socks[a], a, log + [m]) {
      assert Represents(socks[a], a, log);
    }
    assert m in log + [m];
    assert Represents(SocketOf(m), m.local, log + [m]);
  }

  /** `Segment`: shared by writers through interior mutability; here its two fields. */
  class Segment {
    var index: Index
    var socks: map<SockAddr, Socket>

    constructor ()
      ensures Data() == EmptyData()
    {
      index := map[];
      socks := map[];
    }

    function Data(): SegmentData
      reads this
    {
      SegmentData(index, socks)
    }

    /** `Segment::batch_update`: the failed calls are skipped, and the index and the socket set end in
        agreement with the log extended by the rest. */
    method BatchUpdate(messages: seq<Msg>, ghost log: seq<Msg>)
      requires Agrees(Data(), log)
      modifies this
      ensures Agrees(Data(), log + Accepted(messages))
      ensures forall i :: Counts(Row(index, i), log + Accepted(messages), m => Touches(m, i))
    {
      ghost var done := log;
      for n := 0 to |messages|
        invariant done == log + Accepted(messages[..n])
        invariant Agrees(Data(), done)
      {
        var msg := messages[n];
        assert messages[..n + 1] == messages[..n] + [msg];
        AcceptedConcat(messages[..n], [msg]);
        if msg.ret >= 0 {
          UpdateOne(msg, done);
          done := done + [msg];
        }
      }
      assert messages[..|messages|] == messages;
      forall i ensures Counts(Row(index, i), done, m => Touches(m, i)) {
        RowCounts(done, i);
      }
    }

    /** The body of the loop: insert the socket, then increment the five rows in order. */
    method UpdateOne(msg: Msg, ghost log: seq<Msg>)
      requires Agrees(Data(), log) && msg.ret >= 0
      modifies this
      ensures Agrees(Data(), log + [msg])
    {
      SocksInsert(socks, log, msg);
      var replace: bool := *;
      if replace || msg.local !in socks {
        socks := socks[msg.local := SocketOf(msg)];
      }
      IncrementRows(msg, log);
    }

    method IncrementRows(msg: Msg, ghost log: seq<Msg>)
      requires RowsAgree(index, log) && msg.ret >= 0
      modifies this`index
      ensures RowsAgree(index, log + [msg])
    {
      var interests := InterestsFromMsg(msg);
      OweStart(index, log, msg);
      OwedAtStart(msg, All);
      for k := 0 to |interests|
        invariant RowsOwe(index, interests[k..], MsgStat(msg), log + [msg])
      {
        OweStep(index, interests[k..], MsgStat(msg), log + [msg]);
        index := Bump(index, interests[k], Unit(msg.channel, msg.ret));
        assert interests[k..][1..] == interests[k + 1..];
      }
      OweNothing(index, MsgStat(msg), log + [msg]);
    }

    /** `Segment::stat_by_interest`: absent exactly when no accepted message touched the interest. */
    method StatByInterest(i: Interest, ghost log: seq<Msg>) returns (r: Option<Stat>)
      requires Agrees(Data(), log)
      ensures r.Some? <==> exists m | m in log :: Touches(m, i)
      ensures r.Some? ==> r.value == Fold(log, i) && Counts(r.value, log, m => Touches(m, i))
    {
      RowPresent(index, log, i);
      RowCounts(log, i);
      r := if i in index then Some(index[i]) else None;
    }
  }

  // ---- Partition ----

  /** One counter summed over a set of rows; the set has no order, and none matters. */
  ghost function SumRows(index: Index, s: set<Interest>, f: Field): nat {
    if s == {} then 0 else
      var i :| i in s;
      SumRows(index, s - {i}, f) + Row(index, i).Get(f)
  }

  lemma {:induction false} SumRowsPick(index: Index, s: set<Interest>, x: Interest, f: Field)
    requires x in s
    ensures SumRows(index, s, f) == SumRows(index, s - {x}, f) + Row(index, x).Get(f)
    decreases |s|
  {
    var i :| i in s && SumRows(index, s, f) == SumRows(index, s - {i}, f) + Row(index, i).Get(f);
    if i != x {
      assert s - {i} - {x} == s - {x} - {i};
      SumRowsPick(index, s - {i}, x, f);
      SumRowsPick(index, s - {x}, i, f);
    }
  }

  lemma {:induction false} SumRowsAgree(a: Index, b: Index, s: set<Interest>, f: Field)
    requires forall i | i in s :: Row(a, i).Get(f) == Row(b, i).Get(f)
    ensures SumRows(a, s, f) == SumRows(b, s, f)
    decreases |s|
  {
    if s != {} {
      var x :| x in s;
      SumRowsPick(a, s, x, f);
      SumRowsPick(b, s, x, f);
      SumRowsAgree(a, b, s - {x}, f);
    }
  }

  /** Changing one row by some amount changes the sums it is part of by that amount. */
  lemma SumRowsOneKey(a: Index, b: Index, key: Interest, amount: nat, s: set<Interest>, f: Field)
    requires forall i | i in s :: Row(b, i).Get(f) == Row(a, i).Get(f) + if i == key then amount else 0
    ensures SumRows(b, s, f) == SumRows(a, s, f) + if key in s then amount else 0
  {
    SumRowsAgree(a, b, s - {key}, f);
    if key in s {
      SumRowsPick(a, s, key, f);
      SumRowsPick(b, s, key, f);
    } else {
      assert s - {key} == s;
    }
  }

  lemma SumRowsBump(index: Index, i: Interest, amount: Stat, s: set<Interest>, f: Field)
    ensures SumRows(Bump(index, i, amount), s, f)
         == SumRows(index, s, f) + if i in s then amount.Get(f) else 0
  {
    PlusFields(Row(index, i), amount, f);
    SumRowsOneKey(index, Bump(index, i, amount), i, amount.Get(f), s, f);
  }

  /** The four ways in which a segment's traffic is divided. */
  datatype Dimension = ByPid | ByLocal | ByRemote | ByRemoteIp

  function KeyOf(d: Dimension, m: Msg): Interest {
    match d
    case ByPid => Pid(m.pid)
    case ByLocal => LocalSocket(m.local)
    case ByRemote => RemoteSocket(m.remote)
    case ByRemoteIp => RemoteIp(m.remote.ip)
  }

  predicate InDimension(i: Interest, d: Dimension) {
    match d
    case ByPid => i.Pid?
    case ByLocal => i.LocalSocket?
    case ByRemote => i.RemoteSocket?
    case ByRemoteIp => i.RemoteIp?
  }

  /** The index that a log produces, row by row: a witness for `RowsAgree`. */
  function IndexOf(log: seq<Msg>): Index {
    if log == [] then map[]
    else
      var m := log[|log| - 1];
      BumpAll(IndexOf(log[..|log| - 1]), InterestsFromMsg(m), MsgStat(m))
  }

  function BumpAll(index: Index, todo: seq<Interest>, amount: Stat): Index
    decreases |todo|
  {
    if todo == [] then index else BumpAll(Bump(index, todo[0], amount), todo[1..], amount)
  }

  lemma {:induction false} BumpAllRow(index: Index, todo: seq<Interest>, amount: Stat, i: Interest, f: Field)
    requires NoDuplicates(todo)
    ensures Row(BumpAll(index, todo, amount), i).Get(f) == Row(index, i).Get(f) + Owed(todo, amount, i).Get(f)
    decreases |todo|
  {
    if todo != [] {
      BumpPays(index, todo, amount, i, f);
      BumpAllRow(Bump(index, todo[0], amount), todo[1..], amount, i, f);
    }
  }

  lemma {:induction false} IndexOfRow(log: seq<Msg>, i: Interest, f: Field)
    ensures Row(IndexOf(log), i).Get(f) == Count(log, i, f)
  {
    if log != [] {
      var init, m := log[..|log| - 1], log[|log| - 1];
      IndexOfRow(init, i, f);
      OwedAtStart(m, i);
      BumpAllRow(IndexOf(init), InterestsFromMsg(m), MsgStat(m), i, f);
    }
  }

  /** Rows of one dimension that split the messages of interest `i` add up to the row of `i`. */
  lemma {:induction false} RowsSplit(log: seq<Msg>, s: set<Interest>, d: Dimension, i: Interest, f: Field)
    requires forall k | k in s :: InDimension(k, d)
    requires forall m | m in log :: KeyOf(d, m) in s <==> Touches(m, i)
    ensures SumRows(IndexOf(log), s, f) == Count(log, i, f)
  {
    if log == [] {
      SumOfAbsent(IndexOf(log), s, f);
    } else {
      var init, m := log[..|log| - 1], log[|log| - 1];
      assert log == init + [m];
      RowsSplit(init, s, d, i, f);
      SumRowsMsg(init, m, s, d, f);
    }
  }

  lemma {:induction false} SumOfAbsent(index: Index, s: set<Interest>, f: Field)
    requires forall i | i in s :: i !in index
    ensures SumRows(index, s, f) == 0
    decreases |s|
  {
    if s != {} {
      var x :| x in s;
      SumRowsPick(index, s, x, f);
      SumOfAbsent(index, s - {x}, f);
    }
  }

  /** Within one dimension, a message touches its own key and nothing else. */
  lemma RowAfterMsg(init: seq<Msg>, m: Msg, d: Dimension, i: Interest, f: Field)
    requires InDimension(i, d)
    ensures Row(IndexOf(init + [m]), i).Get(f)
         == Row(IndexOf(init), i).Get(f) + if i == KeyOf(d, m) then MsgStat(m).Get(f) else 0
  {
    IndexOfRow(init + [m], i, f);
    IndexOfRow(init, i, f);
    CountSnoc(init, m, i, f);
    assert Touches(m, i) <==> i == KeyOf(d, m);
  }

  /** One message changes exactly one row of a dimension. */
  lemma SumRowsMsg(init: seq<Msg>, m: Msg, s: set<Interest>, d: Dimension, f: Field)
    requires forall k | k in s :: InDimension(k, d)
    ensures SumRows(IndexOf(init + [m]), s, f)
         == SumRows(IndexOf(init), s, f) + if KeyOf(d, m) in s then MsgStat(m).Get(f) else 0
  {
    forall i | i in s
      ensures Row(IndexOf(init + [m]), i).Get(f)
           == Row(IndexOf(init), i).Get(f) + if i == KeyOf(d, m) then MsgStat(m).Get(f) else 0
    {
      RowAfterMsg(init, m, d, i, f);
    }
    SumRowsOneKey(IndexOf(init), IndexOf(init + [m]), KeyOf(d, m), MsgStat(m).Get(f), s, f);
  }

  ghost function Keys(d: Dimension, log: seq<Msg>): set<Interest> {
    set m | m in log :: KeyOf(d, m)
  }

  /** Partition: whichever way a segment is divided, its parts add up to the `All` row. */
  lemma Partition(data: SegmentData, log: seq<Msg>, d: Dimension, f: Field)
    requires Agrees(data, log)
    ensures SumRows(data.index, Keys(d, log), f) == Row(data.index, All).Get(f)
  {
    RowsSplit(log, Keys(d, log), d, All, f);
    RowsOfLog(data.index, log, Keys(d, log), f);
    FoldFields(log, All, f);
  }

  lemma RowsOfLog(index: Index, log: seq<Msg>, s: set<Interest>, f: Field)
    requires RowsAgree(index, log)
    ensures SumRows(index, s, f) == SumRows(IndexOf(log), s, f)
  {
    forall i | i in s ensures Row(index, i).Get(f) == Row(IndexOf(log), i).Get(f) {
      IndexOfRow(log, i, f);
      FoldFields(log, i, f);
    }
    SumRowsAgree(index, IndexOf(log), s, f);
  }

  /** A remote address's row is the sum of its remote sockets' rows. */
  lemma RemoteIpSplitsByPort(data: SegmentData, log: seq<Msg>, ip: StdIp, f: Field)
    requires Agrees(data, log)
    ensures SumRows(data.index, set m | m in log && m.remote.ip == ip :: RemoteSocket(m.remote), f)
         == Row(data.index, RemoteIp(ip)).Get(f)
  {
    var s := set m | m in log && m.remote.ip == ip :: RemoteSocket(m.remote);
    RowsSplit(log, s, ByRemote, RemoteIp(ip), f);
    RowsOfLog(data.index, log, s, f);
    FoldFields(log, RemoteIp(ip), f);
  }

  function LocalKeys(addrs: set<SockAddr>): set<Interest> {
    set a | a in addrs :: LocalSocket(a)
  }

  /** The rows reached through the socket set add up to everything in the segment. */
  lemma SocketsCoverAll(data: SegmentData, log: seq<Msg>, f: Field)
    requires Agrees(data, log)
    ensures SumRows(data.index, LocalKeys(data.socks.Keys), f) == Row(data.index, All).Get(f)
  {
    assert LocalKeys(data.socks.Keys) == Keys(ByLocal, log);
    Partition(data, log, ByLocal, f);
  }
}
