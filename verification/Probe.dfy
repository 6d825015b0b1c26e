/** The probes as they run: each changes the two maps in place. */
module Probe {
  import opened Types
  import opened ProbeModel

  class Probe {
    var cache: map<Thread, KernelPtr>
    var events: seq<SockMsgEvent>

    ghost function Contents(): Maps
      reads this
    {
      Maps(cache, events)
    }

    constructor ()
      ensures Contents() == Run([], 0)
    {
      cache := map[];
      events := [];
    }

    /** `CACHE.insert`: replaces an entry, or adds one if there is room. */
    method Insert(t: Thread, socket: KernelPtr) returns (ok: bool)
      modifies this
      ensures ok == (t in old(cache) || |old(cache)| < CAPACITY)
      ensures cache == if ok then old(cache)[t := socket] else old(cache)
      ensures events == old(events)
    {
      ok := t in cache || |cache| < CAPACITY;
      if ok {
        cache := cache[t := socket];
      }
    }

    /** `try_msg`. It fails if a read fails, or if the map is full. */
    method TryMsg(t: Thread, arg: Option<KernelPtr>, mem: Memory) returns (ok: bool)
      modifies this
      ensures Contents() == Do(old(Contents()), Begin(t, true, arg, mem))
      ensures ok <==> && arg.Some? && FamilyOf(mem, arg.value).Some?
                      && (IsInet(FamilyOf(mem, arg.value).value) ==> Room(old(cache), t))
    {
      if arg == None { return false; }
      var socket := arg.value;
      if socket !in mem.sk { return false; }
      var sk := mem.sk[socket];
      if sk !in mem.common { return false; }
      ok := true;
      var family := mem.common[sk].family;
      if family == AF_INET || family == AF_INET6 {
        ok := Insert(t, socket);
      }
    }

    /** `notify` */
    method Emit(mem: Memory, sk: KernelPtr, ret: i32, pid: u32, channel: Channel) returns (ok: bool)
      modifies this
      ensures Contents() == old(Contents()).(events := old(events) + Notify(mem, sk, ret, pid, channel))
      ensures ok <==> sk in mem.common && sk in mem.kind
      ensures ok ==> forall local, remote | HasEndpoints(mem.common[sk], local, remote) ::
        AddsReport(old(events), events, mem, sk, local, remote, ret, pid, channel)
    {
      ghost var before := events;
      if sk in mem.common && sk in mem.kind {
        forall local, remote | HasEndpoints(mem.common[sk], local, remote)
          ensures AddsReport(before, before + Notify(mem, sk, ret, pid, channel), mem, sk, local, remote, ret, pid, channel)
        {
          NotifyTells(before, mem, sk, local, remote, ret, pid, channel);
        }
      }
      hide AddsReport;
      hide HasEndpoints;
      if sk !in mem.common || sk !in mem.kind { return false; }
      ok := true;
      var c := mem.common[sk];
      var localPort, remotePort := c.portpair / 0x1_0000, c.portpair % 0x1_0000;
      var local, remote;
      if c.family == AF_INET {
        local, remote := MakeV4(c.local4), MakeV4(c.remote4);
      } else if c.family == AF_INET6 {
        local, remote := MakeV6(c.local6), MakeV6(c.remote6);
      } else {
        return;
      }
      var event := SockMsgEvent(SockTypeOf(mem.kind[sk]), local, remote, localPort, remotePort, ret, pid, channel);
      events := events + [event];
    }

    /** `try_msg_ret`: the entry is taken before anything can fail. */
    method TryMsgRet(t: Thread, ret: Option<i32>, pid: u32, channel: Channel, mem: Memory) returns (ok: bool)
      modifies this
      ensures Contents() == Do(old(Contents()), End(t, true, ret, pid, channel, mem))
      ensures t !in cache
      ensures t !in old(cache) ==> ok && events == old(events)
    {
      if t !in cache {
        assert cache - {t} == cache;
        return true;
      }
      var socket := cache[t];
      cache := cache - {t};
      if ret == None || socket !in mem.sk { return false; }
      ok := Emit(mem, mem.sk[socket], ret.value, pid, channel);
    }

    /** `inet_sock_set_state` */
    method SockSetState(sk: KernelPtr, family: u16, pid: u32, mem: Memory)
      modifies this
      ensures Contents() == Do(old(Contents()), StateChange(sk, family, pid, mem))
    {
      if family == AF_INET || family == AF_INET6 {
        var _ := Emit(mem, sk, 0, pid, Tx);
      }
    }
  }
}
