/** The view's own filter (`Filter` in `ptraf/src/ui.rs`). */
module ViewFilter {
  import opened Types
  import opened Traffic
  import opened FilterLang

  datatype Filter = NoFilter | Process(pid: u32) | RemoteAddress(ip: StdIp)

  /** `Filter::interest`: never a `LocalSocket`, so the odd case of `match_interest` is not reached. */
  function InterestOf(filter: Filter): Interest {
    match filter
    case NoFilter => All
    case Process(pid) => Pid(pid)
    case RemoteAddress(ip) => RemoteIp(ip)
  }

  /** For the interests that views use, matching a message's socket is touching the interest. */
  lemma MatchesIffTouches(filter: Filter, m: Msg)
    ensures SocketOf(m).MatchInterest(InterestOf(filter)) <==> Touches(m, InterestOf(filter))
  {}

  /** What each view is about: everything, the calls of one process, or those with one remote address. */
  lemma ViewsAreAbout(m: Msg, pid: u32, ip: StdIp)
    ensures Touches(m, InterestOf(NoFilter))
    ensures Touches(m, InterestOf(Process(pid))) <==> m.pid == pid
    ensures Touches(m, InterestOf(RemoteAddress(ip))) <==> m.remote.ip == ip
  {
  }

  /** The kernel's socket types 1 and 2 are what `tcp` and `udp` select; other types are selected by neither. */
  lemma KernelTypesSelected(m: Msg, kind: u16)
    requires m.sockType == SockTypeOf(kind)
    ensures Eval(PacketOf(SocketOf(m)), ExprProtocol(Tcp)) <==> kind == 1
    ensures Eval(PacketOf(SocketOf(m)), ExprProtocol(Udp)) <==> kind == 2
  {
  }

  /** Over all interests, matching a message's socket is touching the interest exactly if, for a local socket,
      the message has that address at both ends or at neither: the source compares the remote end. */
  lemma MatchesIffTouchesIff(m: Msg, i: Interest)
    ensures (SocketOf(m).MatchInterest(i) <==> Touches(m, i))
       <==> (i.LocalSocket? ==> (m.remote == i.local <==> m.local == i.local))
  {
    match i {
      case LocalSocket(a) => assert Touches(m, i) <==> m.local == a;
      case _ =>
    }
  }

  /** So every message between two different addresses is not found under its own local socket. */
  lemma OwnLocalSocketMissed(m: Msg)
    ensures !SocketOf(m).MatchInterest(LocalSocket(m.local)) <==> m.remote != m.local
    ensures m.remote != m.local ==> SocketOf(m).MatchInterest(LocalSocket(m.remote)) && !Touches(m, LocalSocket(m.remote))
  {
    MatchesIffTouchesIff(m, LocalSocket(m.local));
    MatchesIffTouchesIff(m, LocalSocket(m.remote));
  }

  /** What the operands of the filter language select, in terms of the rows that a message's socket feeds. */
  lemma FiltersSelectRows(m: Msg, pid: u32, a: SockAddr)
    ensures var p := PacketOf(SocketOf(m));
            && (Eval(p, ExprPid(pid)) <==> Touches(m, Pid(pid)))
            && (Eval(p, ExprRemoteAddr(a.ip)) <==> Touches(m, RemoteIp(a.ip)))
            && (Eval(p, And(ExprRemoteAddr(a.ip), ExprRemotePort(a.port))) <==> Touches(m, RemoteSocket(a)))
            && (Eval(p, And(ExprLocalAddr(a.ip), ExprLocalPort(a.port))) <==> Touches(m, LocalSocket(a)))
            && (Eval(p, ExprAddr(a.ip)) <==> Eval(p, Or(ExprLocalAddr(a.ip), ExprRemoteAddr(a.ip))))
            && (Eval(p, ExprPort(a.port)) <==> Eval(p, Or(ExprLocalPort(a.port), ExprRemotePort(a.port))))
            && (Eval(p, ExprProtocol(Tcp)) <==> m.sockType == Stream)
            && (Eval(p, ExprProtocol(Udp)) <==> m.sockType == Dgram)
            && (Eval(p, ExprIpVersion(IpV4)) <==> m.local.ip.StdV4?)
            && (Eval(p, ExprIpVersion(IpV6)) <==> m.local.ip.StdV6?)
            && (Eval(p, Not(ExprPid(pid))) <==> m.pid != pid)
            && (Eval(p, Not(ExprProtocol(Tcp))) <==> m.sockType != Stream)
            && (Eval(p, Not(ExprProtocol(Udp))) <==> m.sockType != Dgram)
            && (Eval(p, Not(ExprIpVersion(IpV4))) <==> m.local.ip.StdV6?)
  {
    OperandsSelect(m, pid, a);
    EndpointsSelect(m, a);
    NegationSelects(PacketOf(SocketOf(m)), ExprPid(pid));
    NegationSelects(PacketOf(SocketOf(m)), ExprProtocol(Tcp));
    NegationSelects(PacketOf(SocketOf(m)), ExprProtocol(Udp));
    NegationSelects(PacketOf(SocketOf(m)), ExprIpVersion(IpV4));
    hide Eval;
    hide PacketOf;
  }

  lemma OperandsSelect(m: Msg, pid: u32, a: SockAddr)
    ensures var p := PacketOf(SocketOf(m));
            && (Eval(p, ExprPid(pid)) <==> Touches(m, Pid(pid)))
            && (Eval(p, ExprRemoteAddr(a.ip)) <==> Touches(m, RemoteIp(a.ip)))
            && (Eval(p, ExprProtocol(Tcp)) <==> m.sockType == Stream)
            && (Eval(p, ExprProtocol(Udp)) <==> m.sockType == Dgram)
            && (Eval(p, ExprIpVersion(IpV4)) <==> m.local.ip.StdV4?)
            && (Eval(p, ExprIpVersion(IpV6)) <==> m.local.ip.StdV6?)
  {
  }

  lemma EndpointsSelect(m: Msg, a: SockAddr)
    ensures var p := PacketOf(SocketOf(m));
            && (Eval(p, And(ExprRemoteAddr(a.ip), ExprRemotePort(a.port))) <==> Touches(m, RemoteSocket(a)))
            && (Eval(p, And(ExprLocalAddr(a.ip), ExprLocalPort(a.port))) <==> Touches(m, LocalSocket(a)))
            && (Eval(p, ExprAddr(a.ip)) <==> Eval(p, Or(ExprLocalAddr(a.ip), ExprRemoteAddr(a.ip))))
            && (Eval(p, ExprPort(a.port)) <==> Eval(p, Or(ExprLocalPort(a.port), ExprRemotePort(a.port))))
  {
    var p, s := PacketOf(SocketOf(m)), SocketOf(m);
    assert p.local == s.local == m.local && p.remote == s.remote == m.remote;
  }

  lemma NegationSelects(p: Packet, e: Expr)
    ensures Eval(p, Not(e)) <==> !Eval(p, e)
  {
  }
}
