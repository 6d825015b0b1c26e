/** The filter language: expressions (`ptraf-filter/src/frontend.rs`) and their evaluation
    (`ptraf-filter/src/interpretor.rs`). */
module FilterLang {
  import opened Types
  import opened Traffic

  datatype Protocol = Tcp | Udp

  datatype Version = IpV4 | IpV6

  datatype Expr =
    | ExprPid(pid: u32)
    | ExprProtocol(protocol: Protocol)
    | ExprIpVersion(version: Version)
    | ExprAddr(addr: StdIp)
    | ExprLocalAddr(addr: StdIp)
    | ExprRemoteAddr(addr: StdIp)
    | ExprPort(port: u16)
    | ExprLocalPort(port: u16)
    | ExprRemotePort(port: u16)
    | And(a: Expr, b: Expr)
    | Or(a: Expr, b: Expr)
    | Not(a: Expr)

  /** What a `Filterable` exposes. */
  datatype Packet = PacketView(
    pid: u32,
    protocol: Option<Protocol>,
    version: Version,
    local: SockAddr,
    remote: SockAddr)

  /** `Filterable for Socket`: only stream and datagram sockets have a protocol. */
  function PacketOf(s: Socket): Packet {
    PacketView(
      s.pid,
      (match s.sockType case Stream => Some(Tcp) case Dgram => Some(Udp) case _ => None),
      (if s.local.ip.StdV4? then IpV4 else IpV6),
      s.local, s.remote)
  }

  /** `Interpretor::eval` */
  predicate Eval(p: Packet, e: Expr) {
    match e
    case ExprPid(pid) => p.pid == pid
    case ExprProtocol(protocol) => p.protocol == Some(protocol)
    case ExprIpVersion(version) => p.version == version
    case ExprAddr(addr) => p.local.ip == addr || p.remote.ip == addr
    case ExprLocalAddr(addr) => p.local.ip == addr
    case ExprRemoteAddr(addr) => p.remote.ip == addr
    case ExprPort(port) => p.local.port == port || p.remote.port == port
    case ExprLocalPort(port) => p.local.port == port
    case ExprRemotePort(port) => p.remote.port == port
    case And(a, b) => Eval(p, a) && Eval(p, b)
    case Or(a, b) => Eval(p, a) || Eval(p, b)
    case Not(a) => !Eval(p, a)
  }

  /** `Interpretor::filter` on a socket. */
  predicate Passes(custom: Option<Expr>, s: Socket) {
    custom == None || Eval(PacketOf(s), custom.value)
  }
}
