/** The accounting of the concurrent store: rows, sockets and messages add up after every step. */
module ConcurrentLedger {
  import opened Types
  import opened Clock
  import opened Traffic
  import opened Segments
  import opened Timeline
  import opened StoreSpec
  import opened ConcurrentModel
  import opened ConcurrentInvariant

  lemma SumUpdate(threads: seq<Thread>, t: nat, th: Thread, m: Measure)
    requires t < |threads|
    ensures Sum(threads[t := th], m) + Value(threads[t], m) == Sum(threads, m) + Value(th, m)
  {
    hide Value;
    SumChange(threads, threads[t := th], m, m, t);
  }

  /** A thread without a message in hand owes nothing. */
  predicate Clear(th: Thread) {
    th.Writing? ==> th.current == None
  }

  lemma ClearOwesNothing(th: Thread, i: Interest, f: Field)
    requires Clear(th)
    ensures Value(th, Debt(i, f)) == 0 && Value(th, Lag(f)) == 0
  {}

  // ---- Steps that leave the segments alone ----

  lemma QuietSums(threads: seq<Thread>, t: nat, th: Thread, i: Interest, f: Field)
    requires t < |threads| && Clear(threads[t]) && Clear(th)
    ensures Sum(threads[t := th], Debt(i, f)) == Sum(threads, Debt(i, f))
    ensures Sum(threads[t := th], Lag(f)) == Sum(threads, Lag(f))
  {
    ClearOwesNothing(threads[t], i, f);
    ClearOwesNothing(th, i, f);
    SumUpdate(threads, t, th, Debt(i, f));
    SumUpdate(threads, t, th, Lag(f));
  }

  lemma QuietPays(threads: seq<Thread>, t: nat, th: Thread, d: SegmentData, log: seq<Msg>)
    requires t < |threads| && Clear(threads[t]) && Clear(th)
    requires Pays(threads, d.index, log) && Covered(threads, d)
    ensures Pays(threads[t := th], d.index, log) && Covered(threads[t := th], d)
  {
    hide Value;
    forall i, f ensures Sum(threads[t := th], Debt(i, f)) == Sum(threads, Debt(i, f)) {
      QuietSums(threads, t, th, i, f);
    }
    forall f ensures Sum(threads[t := th], Lag(f)) == Sum(threads, Lag(f)) {
      QuietSums(threads, t, th, All, f);
    }
  }

  lemma QuietStep(c: Config, s: State, a: Action)
    requires ValidConfig(c) && Enabled(c, s, a) && !Stores(a)
    ensures var s' := Apply(c, s, a);
            Clear(s.threads[a.t]) && Clear(s'.threads[a.t]) && s'.threads == s.threads[a.t := s'.threads[a.t]]
  {
    hide Trunc;
  }

  lemma LedgerQuiet(c: Config, s: State, a: Action)
    requires ValidConfig(c) && Enabled(c, s, a) && !Stores(a) && Ledger(s)
    ensures Ledger(Apply(c, s, a))
  {
    var s' := Apply(c, s, a);
    StoreUntouched(c, s, a);
    QuietStep(c, s, a);
    hide Apply;
    hide Enabled;
    hide Pays;
    hide Covered;
    hide SocksAgree;
    hide Agrees;
    if s.history != [] {
      QuietPays(s.threads, a.t, s'.threads[a.t], Newest(s.history).body, Newest(s.logs).body);
    }
  }

  // ---- Creating a segment ----

  /** Under the write guard nobody writes, so nobody owes anything. */
  lemma WriterAlone(s: State, i: Interest, f: Field)
    requires Locks(s) && s.writer.Some?
    ensures Sum(s.threads, Debt(i, f)) == 0 && Sum(s.threads, Lag(f)) == 0
  {
    forall t | 0 <= t < |s.threads| ensures Clear(s.threads[t]) {
      assert t !in s.readers;
    }
    AllClear(s.threads, i, f);
  }

  lemma AllClear(threads: seq<Thread>, i: Interest, f: Field)
    requires forall t | 0 <= t < |threads| :: Clear(threads[t])
    ensures Sum(threads, Debt(i, f)) == 0 && Sum(threads, Lag(f)) == 0
  {
    forall t | 0 <= t < |threads| ensures Value(threads[t], Debt(i, f)) == 0 && Value(threads[t], Lag(f)) == 0 {
      ClearOwesNothing(threads[t], i, f);
    }
    SumZero(threads, Debt(i, f));
    SumZero(threads, Lag(f));
  }

  /** With nothing owed, the newest window agrees with its log like the older ones. */
  lemma PaidAgrees(threads: seq<Thread>, d: SegmentData, log: seq<Msg>)
    requires Pays(threads, d.index, log) && SocksAgree(d.socks, log)
    requires forall i, f :: Sum(threads, Debt(i, f)) == 0
    ensures Agrees(d, log)
  {
    forall i ensures Row(d.index, i) == Fold(log, i) {
      forall f ensures Row(d.index, i).Get(f) == Fold(log, i).Get(f) {
        assert Sum(threads, Debt(i, f)) == 0;
        FoldFields(log, i, f);
      }
      StatExtensional(Row(d.index, i), Fold(log, i));
    }
  }

  lemma EmptyPays(threads: seq<Thread>)
    requires (forall i, f :: Sum(threads, Debt(i, f)) == 0) && forall f :: Sum(threads, Lag(f)) == 0
    ensures Pays(threads, map[], []) && Covered(threads, EmptyData())
  {
    assert LocalKeys({}) == {};
    forall i, f ensures Row(map[], i).Get(f) + Sum(threads, Debt(i, f)) == Count([], i, f) {
    }
  }

  lemma LedgerPush(c: Config, s: State, a: Action)
    requires ValidConfig(c) && Enabled(c, s, a) && a.Push? && Locks(s) && Times(c, s) && Ledger(s)
    ensures Ledger(Apply(c, s, a))
  {
    var s' := Apply(c, s, a);
    assert s.writer == Some(a.t);
    forall i, f ensures Sum(s.threads, Debt(i, f)) == 0 {
      WriterAlone(s, i, f);
    }
    forall f ensures Sum(s.threads, Lag(f)) == 0 {
      WriterAlone(s, All, f);
    }
    hide Locks;
    hide Times;
    hide Enabled;
    hide Sum;
    hide Value;
    if s.history != [] {
      PaidAgrees(s.threads, Newest(s.history).body, Newest(s.logs).body);
    }
    EmptyPays(s.threads);
    EmptyAgrees();
    hide Agrees;
    hide Pays;
    hide Covered;
    hide SocksAgree;
    assert SocksAgree(EmptyData().socks, []) by { EmptySocks(); }
    PushSettled(s.history, s.logs, Newest(s'.history), Newest(s'.logs));
  }

  lemma EmptySocks()
    ensures SocksAgree(EmptyData().socks, [])
  {}

  lemma PushSettled(history: History, logs: Logs, w: Timed<SegmentData>, l: Timed<seq<Msg>>)
    requires Settled(history, logs) && (history != [] ==> Agrees(Newest(history).body, Newest(logs).body))
    ensures Settled(history + [w], logs + [l])
  {
    hide Agrees;
  }

  lemma SetSettled(history: History, logs: Logs, d: SegmentData, log: seq<Msg>)
    requires Settled(history, logs) && history != []
    ensures Settled(SetNewest(history, d), SetNewest(logs, log)) && Settled(SetNewest(history, d), logs)
  {
    hide Agrees;
  }

  // ---- Inserting a socket ----

  lemma InsertPays(threads: seq<Thread>, t: nat, th: Thread, index: Index, log: seq<Msg>, m: Msg)
    requires t < |threads| && Clear(threads[t]) && Pays(threads, index, log)
    requires th.Writing? && th.current == Some(m) && th.done == 0
    ensures Pays(threads[t := th], index, log + [m])
  {
    forall i, f ensures Row(index, i).Get(f) + Sum(threads[t := th], Debt(i, f)) == Count(log + [m], i, f) {
      ClearOwesNothing(threads[t], i, f);
      SumUpdate(threads, t, th, Debt(i, f));
      assert InterestsFromMsg(m)[0..] == InterestsFromMsg(m);
      OwedAtStart(m, i);
      CountSnoc(log, m, i, f);
    }
  }

  lemma InsertCovered(threads: seq<Thread>, t: nat, th: Thread, d: SegmentData, m: Msg, replace: bool)
    requires t < |threads| && Clear(threads[t]) && Covered(threads, d)
    requires th.Writing? && th.current == Some(m) && th.done == 0
    ensures Covered(threads[t := th], WithSocket(d, m, replace))
  {
    var d' := WithSocket(d, m, replace);
    var keys, keys' := LocalKeys(d.socks.Keys), LocalKeys(d'.socks.Keys);
    assert d'.index == d.index && d'.socks.Keys == d.socks.Keys + {m.local};
    forall f ensures SumRows(d.index, keys', f) == Row(d.index, All).Get(f) + Sum(threads[t := th], Lag(f)) {
      ClearOwesNothing(threads[t], All, f);
      SumUpdate(threads, t, th, Lag(f));
      NewKeyIsEmpty(d.index, d.socks.Keys, m.local, f);
      assert d.socks.Keys + {m.local} == d'.socks.Keys;
    }
  }

  lemma NewKeyIsEmpty(index: Index, addrs: set<SockAddr>, a: SockAddr, f: Field)
    requires forall i | i in index && i.LocalSocket? :: i.local in addrs
    ensures SumRows(index, LocalKeys(addrs + {a}), f) == SumRows(index, LocalKeys(addrs), f)
  {
    var key := LocalSocket(a);
    if a in addrs {
      assert addrs + {a} == addrs;
    } else {
      assert LocalKeys(addrs + {a}) - {key} == LocalKeys(addrs);
      assert key in LocalKeys(addrs + {a}) && key !in index;
      SumRowsPick(index, LocalKeys(addrs + {a}), key, f);
    }
  }

  lemma LedgerInsert(c: Config, s: State, a: Action)
    requires ValidConfig(c) && Enabled(c, s, a) && a.InsertSocket? && Times(c, s) && Ledger(s)
    ensures Ledger(Apply(c, s, a))
  {
    NewestShared(c, s);
    var th := s.threads[a.t];
    var m, d, log := th.msgs[0], Newest(s.history).body, Newest(s.logs).body;
    var th' := Writing(th.ts, th.msgs[1..], Some(m), 0);
    InsertPays(s.threads, a.t, th', d.index, log, m);
    InsertCovered(s.threads, a.t, th', d, m, a.replace);
    SocksInsert(d.socks, log, m);
    hide Times;
    hide Pays;
    hide Covered;
    hide SocksAgree;
    hide Agrees;
    SetSettled(s.history, s.logs, WithSocket(d, m, a.replace), log + [m]);
  }

  // ---- Incrementing a row ----

  lemma IncrementPays(threads: seq<Thread>, t: nat, th: Thread, index: Index, log: seq<Msg>)
    requires t < |threads| && threads[t].Writing? && threads[t].current.Some? && threads[t].done < 5
    requires threads[t].current.value.ret >= 0 && th == NextRow(threads[t])
    requires Pays(threads, index, log)
    ensures var m := threads[t].current.value;
            Pays(threads[t := th], Bump(index, InterestsFromMsg(m)[threads[t].done], MsgStat(m)), log)
  {
    var m, done := threads[t].current.value, threads[t].done;
    var todo := InterestsFromMsg(m)[done..];
    var index' := Bump(index, todo[0], MsgStat(m));
    forall i, f ensures Row(index', i).Get(f) + Sum(threads[t := th], Debt(i, f)) == Count(log, i, f) {
      OwedAtStart(m, i);
      BumpPays(index, todo, MsgStat(m), i, f);
      DebtOfNext(threads[t], i, f);
      SumUpdate(threads, t, th, Debt(i, f));
    }
  }

  function NextRow(th: Thread): Thread
    requires th.Writing?
  {
    if th.done == 4 then th.(current := None, done := 0) else th.(done := th.done + 1)
  }

  lemma DebtOfNext(th: Thread, i: Interest, f: Field)
    requires th.Writing? && th.current.Some? && th.done < 5
    ensures var m, todo := th.current.value, InterestsFromMsg(th.current.value)[th.done..];
            Value(NextRow(th), Debt(i, f)) == Owed(todo[1..], MsgStat(m), i).Get(f)
  {
    var l := InterestsFromMsg(th.current.value);
    assert l[th.done..][1..] == l[th.done + 1..];
  }

  lemma IncrementCovered(threads: seq<Thread>, t: nat, th: Thread, d: SegmentData)
    requires t < |threads| && threads[t].Writing? && threads[t].current.Some? && threads[t].done < 5
    requires threads[t].current.value.local in d.socks && th == NextRow(threads[t])
    requires Covered(threads, d)
    ensures Covered(threads[t := th], WithRow(d, threads[t].current.value, threads[t].done))
  {
    hide Value;
    hide SumRows;
    hide Sum;
    var m, done := threads[t].current.value, threads[t].done;
    var i, amount := InterestsFromMsg(m)[done], MsgStat(m);
    var keys := LocalKeys(d.socks.Keys);
    assert LocalSocket(m.local) in keys;
    assert (i in keys <==> done == 1) && (i == All <==> done == 4);
    forall f ensures SumRows(Bump(d.index, i, amount), keys, f)
                  == Row(Bump(d.index, i, amount), All).Get(f) + Sum(threads[t := th], Lag(f)) {
      LagOfNext(threads[t], f);
      SumUpdate(threads, t, th, Lag(f));
      SumRowsBump(d.index, i, amount, keys, f);
      PlusFields(Row(d.index, All), amount, f);
    }
  }

  /** The lag of a thread starts with its `LocalSocket` row and ends with its `All` row. */
  lemma LagOfNext(th: Thread, f: Field)
    requires th.Writing? && th.current.Some? && th.done < 5
    ensures var amount := MsgStat(th.current.value).Get(f);
            Value(NextRow(th), Lag(f)) + (if th.done == 4 then amount else 0)
            == Value(th, Lag(f)) + (if th.done == 1 then amount else 0)
  {}

  lemma LedgerIncrement(c: Config, s: State, a: Action)
    requires ValidConfig(c) && Enabled(c, s, a) && a.Increment? && Times(c, s) && Phases(c, s) && Ledger(s)
    ensures Ledger(Apply(c, s, a))
  {
    NewestShared(c, s);
    PhaseOf(c, s, a.t);
    var th := s.threads[a.t];
    var m, d, log := th.current.value, Newest(s.history).body, Newest(s.logs).body;
    IncrementPays(s.threads, a.t, NextRow(th), d.index, log);
    IncrementCovered(s.threads, a.t, NextRow(th), d);
    hide Times;
    hide Phases;
    hide Pays;
    hide Covered;
    hide SocksAgree;
    hide Agrees;
    SetSettled(s.history, s.logs, WithRow(d, m, th.done), log);
  }

  lemma LedgerStep(c: Config, s: State, a: Action)
    requires ValidConfig(c) && Enabled(c, s, a) && Inv(c, s)
    ensures Ledger(Apply(c, s, a))
  {
    hide Locks;
    hide Times;
    hide Phases;
    hide Ledger;
    hide Conserved;
    match a {
      case Push(_) => LedgerPush(c, s, a);
      case InsertSocket(_, _) => LedgerInsert(c, s, a);
      case Increment(_) => LedgerIncrement(c, s, a);
      case _ => LedgerQuiet(c, s, a);
    }
  }

  // ---- Conservation of messages ----

  lemma SplitFirst(msgs: seq<Msg>)
    requires msgs != []
    ensures Accepted(msgs) == (if msgs[0].ret < 0 then [] else [msgs[0]]) + Accepted(msgs[1..])
  {}

  lemma FirstOut(msgs: seq<Msg>)
    requires msgs != []
    ensures multiset(Accepted(msgs))
         == multiset(Accepted(msgs[1..])) + if msgs[0].ret < 0 then multiset{} else multiset{msgs[0]}
  {
    SplitFirst(msgs);
    hide Accepted;
    if msgs[0].ret < 0 {
      assert [] + Accepted(msgs[1..]) == Accepted(msgs[1..]);
    }
  }

  /** How a step moves messages between the requests, the threads and the logs. */
  lemma PendingStep(c: Config, s: State, a: Action)
    requires ValidConfig(c) && Enabled(c, s, a)
    ensures var th, s' := s.threads[a.t], Apply(c, s, a);
            && s'.threads == s.threads[a.t := s'.threads[a.t]]
            && (a.Begin? ==> Pending(th) == [] && Pending(s'.threads[a.t]) == a.msgs)
            && (a.InsertSocket? || a.Reject? ==> Pending(th) == th.msgs && Pending(s'.threads[a.t]) == th.msgs[1..])
            && (!a.Begin? && !a.InsertSocket? && !a.Reject? ==> Pending(s'.threads[a.t]) == Pending(th))
  {
    hide Trunc;
    hide SetNewest;
  }

  function Requested(a: Action): multiset<Msg> {
    if a.Begin? then multiset(Accepted(a.msgs)) else multiset{}
  }

  function Recorded(c: Config, s: State, a: Action): multiset<Msg>
    requires Enabled(c, s, a)
  {
    if a.InsertSocket? then multiset{s.threads[a.t].msgs[0]} else multiset{}
  }

  lemma WaitingStep(c: Config, s: State, a: Action)
    requires ValidConfig(c) && Enabled(c, s, a)
    ensures Waiting(s.threads[a.t]) + Requested(a) == Waiting(Apply(c, s, a).threads[a.t]) + Recorded(c, s, a)
  {
    PendingStep(c, s, a);
    hide Apply;
    hide Enabled;
    hide Pending;
    hide Accepted;
    if a.InsertSocket? || a.Reject? {
      FirstOut(s.threads[a.t].msgs);
    } else if a.Begin? {
      assert Accepted([]) == [] by { NothingToAccept(); }
    }
  }

  lemma NothingToAccept()
    ensures Accepted([]) == []
  {
  }

  lemma FlattenPush(logs: Logs, ts: nat)
    ensures Flatten(logs + [Timed(ts, [])]) == Flatten(logs)
  {
    assert (logs + [Timed(ts, [])])[..|logs|] == logs;
  }

  /** The books in terms of multisets alone. */
  lemma Rebook(logs: multiset<Msg>, logs': multiset<Msg>, backlog: multiset<Msg>, backlog': multiset<Msg>,
               w: multiset<Msg>, w': multiset<Msg>, m: multiset<Msg>, r: multiset<Msg>)
    requires backlog' + w == backlog + w'
    requires logs' == logs + m && w + r == w' + m
    ensures logs' + backlog' == logs + backlog + r
  {
    forall x ensures (logs' + backlog')[x] == (logs + backlog + r)[x] {
      assert (backlog' + w)[x] == (backlog + w')[x] && (w + r)[x] == (w' + m)[x];
    }
  }

  lemma ConservedStep(c: Config, s: State, a: Action)
    requires ValidConfig(c) && Enabled(c, s, a) && Conserved(s)
    ensures Conserved(Apply(c, s, a))
  {
    var s', th := Apply(c, s, a), s.threads[a.t];
    hide Apply;
    hide Enabled;
    hide Taken;
    hide Waiting;
    hide Backlog;
    hide Requested;
    hide Recorded;
    OneMoves(c, s, a);
    WaitingStep(c, s, a);
    BacklogChange(s.threads, a.t, s'.threads[a.t]);
    LogsStep(c, s, a);
    Rebook(Taken(s.logs), Taken(s'.logs), Backlog(s.threads), Backlog(s'.threads),
           Waiting(th), Waiting(s'.threads[a.t]), Recorded(c, s, a), Requested(a));
  }

  lemma OneMoves(c: Config, s: State, a: Action)
    requires ValidConfig(c) && Enabled(c, s, a)
    ensures |Apply(c, s, a).threads| == |s.threads|
    ensures Apply(c, s, a).threads == s.threads[a.t := Apply(c, s, a).threads[a.t]]
  {
    PendingStep(c, s, a);
  }

  lemma LogsStep(c: Config, s: State, a: Action)
    requires ValidConfig(c) && Enabled(c, s, a)
    ensures Taken(Apply(c, s, a).logs) == Taken(s.logs) + Recorded(c, s, a)
    ensures Apply(c, s, a).submitted == s.submitted + Requested(a)
  {
    if a.InsertSocket? {
      FlattenRecord(s.logs, [s.threads[a.t].msgs[0]]);
    } else if a.Push? {
      FlattenPush(s.logs, NextTs(c, s, s.threads[a.t].ts));
    } else {
      StoreUntouchedOrRow(c, s, a);
    }
    hide Flatten;
  }

  lemma StoreUntouchedOrRow(c: Config, s: State, a: Action)
    requires ValidConfig(c) && Enabled(c, s, a) && !a.InsertSocket? && !a.Push?
    ensures Apply(c, s, a).logs == s.logs
  {
    hide Trunc;
  }

  lemma InvStep(c: Config, s: State, a: Action)
    requires ValidConfig(c) && Enabled(c, s, a) && Inv(c, s)
    ensures Inv(c, Apply(c, s, a))
  {
    hide Apply;
    hide Enabled;
    LedgerStep(c, s, a);
    hide Ledger;
    ConservedStep(c, s, a);
    LocksStep(c, s, a);
    TimesStep(c, s, a);
    PhasesStep(c, s, a);
    hide Locks;
    hide Times;
    hide Phases;
    hide Conserved;
  }
}
