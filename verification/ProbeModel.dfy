/** The entry and return probes (`ptraf-ebpf/src/ptraf-ebpf.rs`): a bounded map keyed by thread carries a
    call's socket from its entry to its return. Reads of kernel memory are parameters of each step. */
module ProbeModel {
  import opened Types

  const CAPACITY: nat := 16384
  const AF_INET: u16 := 2
  const AF_INET6: u16 := 10

  type KernelPtr = nat
  type Thread = nat

  /** `sock_common`: both address families are there, the family says which is meant. */
  datatype SockCommon = SockCommon(
    family: u16,
    portpair: u32,
    local4: u32,
    remote4: u32,
    local6: Words,
    remote6: Words)

  /** What a probe can read: a missing pointer is a read that fails. */
  datatype Memory = Memory(sk: map<KernelPtr, KernelPtr>, common: map<KernelPtr, SockCommon>, kind: map<KernelPtr, u16>)

  predicate IsInet(family: u16) {
    family == AF_INET || family == AF_INET6
  }

  /** What happens in the kernel. A call's `fired` says whether its probe runs: entry and return probes
      can each be missed. `arg` and `ret` are missing if the context does not give them. */
  datatype Step =
    | Begin(thread: Thread, fired: bool, arg: Option<KernelPtr>, mem: Memory)
    | End(thread: Thread, fired: bool, ret: Option<i32>, pid: u32, channel: Channel, mem: Memory)
    | StateChange(sk: KernelPtr, family: u16, pid: u32, mem: Memory)

  datatype Maps = Maps(cache: map<Thread, KernelPtr>, events: seq<SockMsgEvent>)

  // ---- What one probe does ----

  /** The address behind a `struct socket` pointer, if all its reads succeed. */
  function FamilyOf(mem: Memory, socket: KernelPtr): Option<u16> {
    if socket in mem.sk && mem.sk[socket] in mem.common then Some(mem.common[mem.sk[socket]].family) else None
  }

  /** An entry probe that fires on an inet socket whose memory it can read. */
  predicate Wanted(s: Step) {
    && s.Begin? && s.fired && s.arg.Some?
    && FamilyOf(s.mem, s.arg.value).Some?
    && IsInet(FamilyOf(s.mem, s.arg.value).value)
  }

  predicate Room(cache: map<Thread, KernelPtr>, t: Thread) {
    t in cache || |cache| < CAPACITY
  }

  /** The event for a `struct sock`: none if a read fails or the socket is not an inet one. */
  function Notify(mem: Memory, sk: KernelPtr, ret: i32, pid: u32, channel: Channel): (r: seq<SockMsgEvent>)
    ensures |r| <= 1
  {
    if sk !in mem.common || sk !in mem.kind then []
    else
      var c := mem.common[sk];
      var local, remote := c.portpair / 0x1_0000, c.portpair % 0x1_0000;
      if c.family == AF_INET then
        [EventFor(Endpoint(Inet(c.local4), local), Endpoint(Inet(c.remote4), remote), SockTypeOf(mem.kind[sk]), ret, pid, channel)]
      else if c.family == AF_INET6 then
        [EventFor(Endpoint(Inet6(c.local6), local), Endpoint(Inet6(c.remote6), remote), SockTypeOf(mem.kind[sk]), ret, pid, channel)]
      else []
  }

  // ---- What an event says ----

  /** The kernel's socket has these two endpoints; the ports are packed into one word, the local one in the upper half. */
  predicate HasEndpoints(c: SockCommon, local: Endpoint, remote: Endpoint) {
    && c.portpair == local.port * 0x1_0000 + remote.port
    && match local.addr
       case Inet(a) => c.family == 2 && a == c.local4 && remote.addr == Inet(c.remote4)
       case Inet6(w) => c.family == 10 && w == c.local6 && remote.addr == Inet6(c.remote6)
  }

  /** What the store receives is the call: its two endpoints, its result, its process, its direction and the type of its
      socket. */
  ghost predicate Tells(e: SockMsgEvent, local: Endpoint, remote: Endpoint, kind: u16, ret: i32, pid: u32, channel: Channel) {
    var m := Received(e);
    && m.local == EndpointAddr(local) && m.remote == EndpointAddr(remote)
    && m.ret == ret && m.pid == pid && m.channel == channel
    && (m.sockType == Stream <==> kind == 1) && (m.sockType == Dgram <==> kind == 2)
  }

  /** The events are the old ones and one that tells of a call on this socket. */
  ghost predicate AddsReport(before: seq<SockMsgEvent>, after: seq<SockMsgEvent>, mem: Memory, sk: KernelPtr,
                             local: Endpoint, remote: Endpoint, ret: i32, pid: u32, channel: Channel)
    requires sk in mem.kind
  {
    && |after| == |before| + 1 && before <= after
    && Tells(after[|before|], local, remote, mem.kind[sk], ret, pid, channel)
  }

  lemma PortsSplit(local: u16, remote: u16, pair: u32)
    requires pair == local * 0x1_0000 + remote
    ensures pair / 0x1_0000 == local && pair % 0x1_0000 == remote
  {
  }

  /** Whoever the two endpoints of a readable inet socket are, it is reported with them, once; a socket of another
      family is not reported. */
  lemma NotifyTells(before: seq<SockMsgEvent>, mem: Memory, sk: KernelPtr, local: Endpoint, remote: Endpoint, ret: i32,
                    pid: u32, channel: Channel)
    requires sk in mem.common && sk in mem.kind
    ensures HasEndpoints(mem.common[sk], local, remote) ==>
      AddsReport(before, before + Notify(mem, sk, ret, pid, channel), mem, sk, local, remote, ret, pid, channel)
    ensures mem.common[sk].family != 2 && mem.common[sk].family != 10 ==> Notify(mem, sk, ret, pid, channel) == []
  {
    var c := mem.common[sk];
    if HasEndpoints(c, local, remote) {
      PortsSplit(local.port, remote.port, c.portpair);
      hide FromBe16;
      hide ToStd;
    }
  }

  /** A return that takes a call's socket adds one event, which tells of that socket. */
  lemma ReturnTells(m: Maps, t: Thread, ret: i32, pid: u32, channel: Channel, mem: Memory, local: Endpoint, remote: Endpoint)
    requires t in m.cache && m.cache[t] in mem.sk && mem.sk[m.cache[t]] in mem.common && mem.sk[m.cache[t]] in mem.kind
    requires HasEndpoints(mem.common[mem.sk[m.cache[t]]], local, remote)
    ensures AddsReport(m.events, Do(m, End(t, true, Some(ret), pid, channel, mem)).events, mem, mem.sk[m.cache[t]],
                       local, remote, ret, pid, channel)
  {
    NotifyTells(m.events, mem, mem.sk[m.cache[t]], local, remote, ret, pid, channel);
    hide Notify;
    hide AddsReport;
    hide HasEndpoints;
  }

  /** A wanted call is entered if its thread has an entry already, which is then replaced even in a full map, or if fewer
      than 16384 threads have one; any other call leaves the maps as they are. */
  lemma EntryIs(m: Maps, s: Step)
    requires s.Begin?
    ensures Do(m, s) ==
      if Wanted(s) && (s.thread in m.cache || |m.cache| < 16384) then m.(cache := m.cache[s.thread := s.arg.value]) else m
  {
  }

  /** A return adds no event if its thread has no entry, if the call's result is missing, or if a read fails; the entry
      is gone all the same. */
  lemma ReturnSilent(m: Maps, t: Thread, ret: Option<i32>, pid: u32, channel: Channel, mem: Memory)
    requires t !in m.cache || ret == None || m.cache[t] !in mem.sk
          || mem.sk[m.cache[t]] !in mem.common || mem.sk[m.cache[t]] !in mem.kind
    ensures var m' := Do(m, End(t, true, ret, pid, channel, mem)); m'.events == m.events && m'.cache == m.cache - {t}
  {
  }

  /** A state change of an inet socket adds one event: an empty call to send. */
  lemma StateChangeTells(m: Maps, sk: KernelPtr, pid: u32, mem: Memory, local: Endpoint, remote: Endpoint)
    requires sk in mem.common && sk in mem.kind && HasEndpoints(mem.common[sk], local, remote)
    ensures AddsReport(m.events, Do(m, StateChange(sk, mem.common[sk].family, pid, mem)).events, mem, sk, local, remote, 0, pid, Tx)
  {
    NotifyTells(m.events, mem, sk, local, remote, 0, pid, Tx);
    hide Notify;
    hide AddsReport;
  }

  /** Which calls an entry probe wants: those on a socket it can read, of one of the two inet families. */
  lemma WantedIff(s: Step)
    ensures Wanted(s) <==>
      && s.Begin? && s.fired && s.arg.Some? && s.arg.value in s.mem.sk && s.mem.sk[s.arg.value] in s.mem.common
      && (s.mem.common[s.mem.sk[s.arg.value]].family == 2 || s.mem.common[s.mem.sk[s.arg.value]].family == 10)
  {
  }

  /** What a return probe emits for the socket it took. */
  function Report(end: Step, socket: Option<KernelPtr>): (r: seq<SockMsgEvent>)
    requires end.End?
    ensures |r| <= 1
    ensures socket == None ==> r == []
  {
    if socket == None || end.ret == None || socket.value !in end.mem.sk then []
    else Notify(end.mem, end.mem.sk[socket.value], end.ret.value, end.pid, end.channel)
  }

  function Lookup(cache: map<Thread, KernelPtr>, t: Thread): Option<KernelPtr> {
    if t in cache then Some(cache[t]) else None
  }

  function Do(m: Maps, s: Step): Maps {
    match s
    case Begin(t, _, arg, _) =>
      if Wanted(s) && Room(m.cache, t) then m.(cache := m.cache[t := arg.value]) else m
    case End(t, fired, _, _, _, _) =>
      if fired then Maps(m.cache - {t}, m.events + Report(s, Lookup(m.cache, t))) else m
    case StateChange(sk, family, pid, mem) =>
      if IsInet(family) then m.(events := m.events + Notify(mem, sk, 0, pid, Tx)) else m
  }

  /** The maps after the first `n` steps. */
  function Run(h: seq<Step>, n: nat): Maps
    requires n <= |h|
  {
    if n == 0 then Maps(map[], []) else Do(Run(h, n - 1), h[n - 1])
  }

  // ---- The same, said of the history ----

  predicate IsReturn(s: Step, t: Thread) {
    s.End? && s.fired && s.thread == t
  }

  predicate IsBegin(s: Step, t: Thread) {
    s.Begin? && s.thread == t
  }

  /** A return probe of `t` fired between `i` and `n`. */
  ghost predicate Closed(h: seq<Step>, i: nat, n: nat, t: Thread)
    requires n <= |h|
  {
    exists j | i < j < n :: IsReturn(h[j], t)
  }

  /** The call that begins at `i` is entered in the map: its thread has an entry already, or fewer than
      `CAPACITY` threads wait for a return. */
  ghost predicate Admitted(h: seq<Step>, i: nat)
    requires i < |h|
    decreases i, 1
  {
    Wanted(h[i]) && (h[i].thread in Waiting(h, i) || |Waiting(h, i)| < CAPACITY)
  }

  ghost predicate Opens(h: seq<Step>, i: nat, t: Thread)
    requires i < |h|
    decreases i, 2
  {
    IsBegin(h[i], t) && Admitted(h, i)
  }

  /** The threads with an admitted call after which no return of theirs has fired. */
  ghost function Waiting(h: seq<Step>, n: nat): set<Thread>
    requires n <= |h|
    decreases n, 0
  {
    set i | 0 <= i < n && h[i].Begin? && Opens(h, i, h[i].thread) && !Closed(h, i, n, h[i].thread) :: h[i].thread
  }

  /** The last admitted call of `t`, unless a return of `t` fired after it. */
  ghost function Source(h: seq<Step>, n: nat, t: Thread): (r: Option<nat>)
    requires n <= |h|
    ensures r.Some? ==> r.value < n && Opens(h, r.value, t) && !Closed(h, r.value, n, t)
    ensures r.Some? ==> forall k | r.value < k < n :: !Opens(h, k, t)
    ensures r == None ==> forall k | 0 <= k < n && Opens(h, k, t) :: Closed(h, k, n, t)
  {
    if n == 0 then None
    else if IsReturn(h[n - 1], t) then
      assert forall k | 0 <= k < n - 1 :: Closed(h, k, n, t);
      None
    else if Opens(h, n - 1, t) then Some(n - 1)
    else
      var r := Source(h, n - 1, t);
      assert forall k: nat | k < n :: Closed(h, k, n, t) <==> Closed(h, k, n - 1, t);
      r
  }

  /** The socket that `t` waits with, as the history tells it. */
  ghost function Held(h: seq<Step>, n: nat, t: Thread): Option<KernelPtr>
    requires n <= |h|
  {
    var r := Source(h, n, t);
    if r == None then None else h[r.value].arg
  }

  lemma WaitingIffHeld(h: seq<Step>, n: nat, t: Thread)
    requires n <= |h|
    ensures t in Waiting(h, n) <==> Held(h, n, t).Some?
  {
    var r := Source(h, n, t);
    if r.Some? {
      assert h[r.value].thread == t && Admitted(h, r.value) && Wanted(h[r.value]);
    }
  }

  /** Whatever probes fire, in any order: the map never outgrows its capacity, its keys are the waiting
      threads, and each holds the socket of its thread's last admitted call. */
  lemma {:induction false} MapIsWaiting(h: seq<Step>, n: nat)
    requires n <= |h|
    ensures |Run(h, n).cache| <= 16384
    ensures Run(h, n).cache.Keys == Waiting(h, n)
    ensures forall t :: Lookup(Run(h, n).cache, t) == Held(h, n, t)
  {
    hide Waiting;
    hide Source;
    hide Held;
    hide Wanted;
    if n > 0 {
      MapIsWaiting(h, n - 1);
      CapacityKept(Run(h, n - 1), h[n - 1]);
    }
    forall t ensures Lookup(Run(h, n).cache, t) == Held(h, n, t) {
      hide Do;
      if n == 0 { NothingHeld(h, t); } else { HeldStep(h, n, t); }
    }
    forall t ensures t in Run(h, n).cache <==> t in Waiting(h, n) {
      hide Run;
      WaitingIffHeld(h, n, t);
      assert Held(h, n, t).Some? <==> Lookup(Run(h, n).cache, t).Some?;
    }
  }

  lemma NothingHeld(h: seq<Step>, t: Thread)
    ensures Held(h, 0, t) == None
  {
  }

  lemma HeldStep(h: seq<Step>, n: nat, t: Thread)
    requires 0 < n <= |h|
    requires Run(h, n - 1).cache.Keys == Waiting(h, n - 1)
    requires Lookup(Run(h, n - 1).cache, t) == Held(h, n - 1, t)
    ensures Lookup(Run(h, n).cache, t) == Held(h, n, t)
  {
    hide Waiting;
    hide FamilyOf;
    hide Report;
    hide Notify;
    hide Closed;
    var m, s := Run(h, n - 1), h[n - 1];
    assert |m.cache.Keys| == |m.cache|;
    assert Run(h, n) == Do(m, s);
    if s.Begin? && s.thread == t {
      assert Admitted(h, n - 1) <==> Wanted(s) && Room(m.cache, t);
      if Admitted(h, n - 1) {
        assert Source(h, n, t) == Some(n - 1);
      } else {
        assert Source(h, n, t) == Source(h, n - 1, t);
      }
    } else if IsReturn(s, t) {
      assert Source(h, n, t) == None;
    } else {
      assert Source(h, n, t) == Source(h, n - 1, t);
    }
  }

  lemma CapacityKept(m: Maps, s: Step)
    requires |m.cache| <= CAPACITY
    ensures |Do(m, s).cache| <= CAPACITY
  {
    hide Wanted;
    hide Report;
    hide Notify;
    if s.Begin? {
      InsertSize(m.cache, s.thread, if s.arg.Some? then s.arg.value else 0);
    } else if s.End? {
      RemoveSize(m.cache, s.thread);
    }
  }

  lemma InsertSize(cache: map<Thread, KernelPtr>, t: Thread, p: KernelPtr)
    ensures |cache[t := p]| == if t in cache then |cache| else |cache| + 1
  {
    assert cache[t := p].Keys == cache.Keys + {t};
    assert |cache[t := p]| == |cache[t := p].Keys| && |cache| == |cache.Keys|;
  }

  lemma RemoveSize(cache: map<Thread, KernelPtr>, t: Thread)
    ensures |cache - {t}| <= |cache|
  {
    assert (cache - {t}).Keys == cache.Keys - {t};
    assert |cache - {t}| == |(cache - {t}).Keys| && |cache| == |cache.Keys|;
  }

  // ---- Calls that do not nest ----

  /** The call that thread `t` is in after `n` steps. */
  function InCall(h: seq<Step>, n: nat, t: Thread): (r: Option<nat>)
    requires n <= |h|
    ensures r.Some? ==> r.value < n && IsBegin(h[r.value], t)
    ensures r.Some? ==> forall k | r.value < k < n :: h[k].StateChange? || h[k].thread != t
  {
    if n == 0 then None
    else if h[n - 1].StateChange? || h[n - 1].thread != t then InCall(h, n - 1, t)
    else if h[n - 1].Begin? then Some(n - 1)
    else None
  }

  ghost predicate StepNests(h: seq<Step>, n: nat)
    requires n < |h|
  {
    match h[n]
    case Begin(t, _, _, _) => InCall(h, n, t).Some?
    case End(t, _, _, _, _, _) => InCall(h, n, t) == None
    case StateChange(_, _, _, _) => false
  }

  /** Each thread's calls begin and end in turn. */
  ghost predicate NonNested(h: seq<Step>) {
    forall n | 0 <= n < |h| :: !StepNests(h, n)
  }

  /** A call of `t` before step `n` was admitted and no return of `t` has fired since. */
  ghost predicate Stale(h: seq<Step>, n: nat, t: Thread)
    requires n <= |h|
  {
    exists i | 0 <= i < n :: Opens(h, i, t) && !Closed(h, i, n, t)
  }

  /** What the return of a call should take: its own socket if the call was admitted, else nothing. */
  ghost function Own(h: seq<Step>, n: nat, t: Thread): Option<KernelPtr>
    requires n <= |h|
  {
    match InCall(h, n, t)
    case None => None
    case Some(b) => if Admitted(h, b) then h[b].arg else None
  }

  lemma {:induction false} SourceOfCall(h: seq<Step>, n: nat, t: Thread, b: nat)
    requires b < n <= |h| && InCall(h, n, t) == Some(b)
    ensures Source(h, n, t) == if Admitted(h, b) then Some(b) else Source(h, b, t)
  {
    if n - 1 > b {
      SourceOfCall(h, n - 1, t, b);
    }
  }

  /** Exactly when a thread inside a call will take what belongs to that call: the call was admitted, or
      no earlier admitted call of the thread is still waiting. Entry and return probes may be missed. */
  lemma TakesOwnIff(h: seq<Step>, n: nat, t: Thread)
    requires n <= |h| && InCall(h, n, t).Some?
    ensures var b := InCall(h, n, t).value;
            Lookup(Run(h, n).cache, t) == Own(h, n, t) <==> Admitted(h, b) || !Stale(h, b, t)
  {
    var b := InCall(h, n, t).value;
    MapIsWaiting(h, n);
    SourceOfCall(h, n, t, b);
  }

  // ---- Returns that all fire ----

  ghost predicate ReturnsFire(h: seq<Step>) {
    forall n | 0 <= n < |h| && h[n].End? :: h[n].fired
  }

  lemma {:induction false} NothingWaitsOutside(h: seq<Step>, n: nat, t: Thread)
    requires n <= |h| && NonNested(h) && ReturnsFire(h) && InCall(h, n, t) == None
    ensures Source(h, n, t) == None
  {
    if n > 0 && (h[n - 1].StateChange? || h[n - 1].thread != t) {
      NothingWaitsOutside(h, n - 1, t);
    }
  }

  ghost predicate InsideAdmitted(h: seq<Step>, n: nat, t: Thread)
    requires n <= |h|
  {
    InCall(h, n, t).Some? && Admitted(h, InCall(h, n, t).value)
  }

  /** With no return missed, the map holds exactly the threads inside admitted calls, each with the
      socket of the call it is in. */
  lemma MapIsCalls(h: seq<Step>, n: nat)
    requires n <= |h| && NonNested(h) && ReturnsFire(h)
    ensures |Run(h, n).cache| <= 16384
    ensures forall t :: Lookup(Run(h, n).cache, t) == Own(h, n, t)
    ensures forall t :: t in Run(h, n).cache <==> InsideAdmitted(h, n, t)
  {
    MapIsWaiting(h, n);
    forall t ensures Lookup(Run(h, n).cache, t) == Own(h, n, t) {
      OwnIsTaken(h, n, t);
    }
    forall t ensures t in Run(h, n).cache <==> InsideAdmitted(h, n, t) {
      assert t in Run(h, n).cache <==> Lookup(Run(h, n).cache, t).Some?;
    }
  }

  /** With no return missed, a readable inet call goes unseen only while `CAPACITY` other threads are inside
      admitted calls. */
  lemma RefusedOnlyWhenFull(h: seq<Step>, b: nat)
    requires b < |h| && NonNested(h) && ReturnsFire(h) && Wanted(h[b])
    ensures Admitted(h, b) <==> |Run(h, b).cache| < 16384
    ensures h[b].thread !in Run(h, b).cache
  {
    MapIsWaiting(h, b);
    assert !StepNests(h, b);
    OwnIsTaken(h, b, h[b].thread);
    var m := Run(h, b);
    assert |m.cache.Keys| == |m.cache|;
  }

  lemma OwnIsTaken(h: seq<Step>, n: nat, t: Thread)
    requires n <= |h| && NonNested(h) && ReturnsFire(h)
    ensures Lookup(Run(h, n).cache, t) == Own(h, n, t)
  {
    match InCall(h, n, t) {
      case None =>
        NothingWaitsOutside(h, n, t);
        MapIsWaiting(h, n);
      case Some(b) =>
        TakesOwnIff(h, n, t);
        assert !StepNests(h, b);
        NothingWaitsOutside(h, b, t);
    }
  }

  /** The events that the calls themselves call for: one report per call's return, of its own socket. */
  ghost function Expected(h: seq<Step>, n: nat): seq<SockMsgEvent>
    requires n <= |h|
  {
    if n == 0 then []
    else Expected(h, n - 1) + ExpectedAt(h, n - 1)
  }

  ghost function ExpectedAt(h: seq<Step>, n: nat): (r: seq<SockMsgEvent>)
    requires n < |h|
    ensures |r| <= 1
  {
    match h[n]
    case Begin(_, _, _, _) => []
    case End(t, fired, _, _, _, _) => if fired then Report(h[n], Own(h, n, t)) else []
    case StateChange(sk, family, pid, mem) => if IsInet(family) then Notify(mem, sk, 0, pid, Tx) else []
  }

  /** Over every interleaving of calls that do not nest, and even if entry probes are missed: the events
      are those of the calls' own sockets, in order, and each return leaves its thread absent. */
  lemma {:induction false} EventsAreTheCalls(h: seq<Step>, n: nat)
    requires n <= |h| && NonNested(h) && ReturnsFire(h)
    ensures Run(h, n).events == Expected(h, n)
    ensures n > 0 && h[n - 1].End? ==> h[n - 1].thread !in Run(h, n).cache
  {
    hide Report;
    hide Notify;
    hide Wanted;
    hide Own;
    if n > 0 {
      EventsAreTheCalls(h, n - 1);
      if h[n - 1].End? {
        OwnIsTaken(h, n - 1, h[n - 1].thread);
      }
    }
  }

  // ---- Returns that are missed ----

  /** Two calls of one thread: on an inet socket, whose return is missed, and on another socket. */
  function TwoCalls(mem: Memory): seq<Step> {
    [Begin(1, true, Some(10), mem), End(1, false, Some(0), 1, Tx, mem),
     Begin(1, true, Some(20), mem), End(1, true, Some(5), 1, Tx, mem)]
  }

  function TwoSockets(inet: SockCommon, other: SockCommon): Memory {
    Memory(map[10 := 11, 20 := 21], map[11 := inet, 21 := other], map[11 := 1, 21 := 1])
  }

  /** If a return is missed, the next call of its thread can report the earlier call's socket. */
  lemma MissedReturnMisattributes(inet: SockCommon, other: SockCommon)
    requires inet.family == AF_INET && !IsInet(other.family)
    ensures var mem := TwoSockets(inet, other);
            var h := TwoCalls(mem);
            && NonNested(h)
            && Run(h, 4).events == Notify(mem, 11, 5, 1, Tx) && |Run(h, 4).events| == 1
            && Expected(h, 4) == []
  {
    var mem := TwoSockets(inet, other);
    var h := TwoCalls(mem);
    assert InCall(h, 1, 1) == Some(0);
    assert InCall(h, 2, 1) == None;
    assert InCall(h, 3, 1) == Some(2);
    assert !Wanted(h[2]);
    assert Expected(h, 4) == [] by {
      assert Own(h, 3, 1) == None;
      assert Expected(h, 1) == [] && Expected(h, 2) == [] && Expected(h, 3) == [];
    }
    TakenInTwoCalls(mem);
  }

  lemma TakenInTwoCalls(mem: Memory)
    requires var h := TwoCalls(mem); Wanted(h[0]) && !Wanted(h[2]) && 10 in mem.sk
    ensures Run(TwoCalls(mem), 4).events == Notify(mem, mem.sk[10], 5, 1, Tx)
  {
    hide Wanted;
    hide Notify;
    var h := TwoCalls(mem);
    assert Run(h, 0).cache == map[];
    assert Run(h, 1) == Maps(map[1 := 10], []);
    assert Run(h, 2) == Run(h, 1);
    assert Run(h, 3) == Run(h, 1);
    assert Run(h, 4) == Do(Run(h, 3), h[3]);
    assert Lookup(Run(h, 3).cache, 1) == Some(10);
  }
}
