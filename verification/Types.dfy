/** Kernel-side event types and their conversion to the addresses the store indexes by
    (`ptraf-common/src/types.rs`). Machine integers are subset types of `int`; the host is
    little-endian, so `from_be` reverses bytes. */
module Types {

  type u8 = x: int | 0 <= x < 0x100
  type u16 = x: int | 0 <= x < 0x1_0000
  type u32 = x: int | 0 <= x < 0x1_0000_0000
  type i32 = x: int | -0x8000_0000 <= x < 0x8000_0000
  type Words = s: seq<u16> | |s| == 8 witness [0, 0, 0, 0, 0, 0, 0, 0]

  datatype Option<+T> = None | Some(value: T)

  datatype Channel = Tx | Rx

  datatype SockType = Unknown | Stream | Dgram | Raw | Rdm | Seqpacket | Dccp | Packet

  /** `From<u16> for SockType` */
  function SockTypeOf(val: u16): SockType {
    match val
    case 1 => Stream
    case 2 => Dgram
    case 3 => Raw
    case 4 => Rdm
    case 5 => Seqpacket
    case 6 => Dccp
    case 10 => Packet
    case _ => Unknown
  }

  datatype IpVersion = V4 | V6

  /** The BPF representation: eight words and a version tag. */
  datatype IpAddr = IpAddr(words: Words, version: IpVersion)

  /** `std::net::IpAddr`: a host-order v4 integer or eight host-order segments. */
  datatype StdIp = StdV4(bits: u32) | StdV6(segments: Words)

  datatype SockAddr = SockAddr(ip: StdIp, port: u16)

  datatype SockMsgEvent = SockMsgEvent(
    sockType: SockType,
    localAddr: IpAddr,
    remoteAddr: IpAddr,
    localPort: u16,
    remotePort: u16,
    ret: i32,
    pid: u32,
    channel: Channel)

  /** A `SockMsgEvent` as the store reads it, through `local_sock_addr` and `remote_sock_addr`. */
  datatype Msg = Msg(pid: u32, local: SockAddr, remote: SockAddr, sockType: SockType, channel: Channel, ret: i32)

  function Received(e: SockMsgEvent): Msg {
    Msg(e.pid,
        SockAddr(ToStd(e.localAddr), FromBe16(e.localPort)),
        SockAddr(ToStd(e.remoteAddr), FromBe16(e.remotePort)),
        e.sockType, e.channel, e.ret)
  }

  function FromBe16(x: u16): u16 {
    x % 0x100 * 0x100 + x / 0x100
  }

  /** `(hi << 16) | lo` */
  function Join(hi: u16, lo: u16): u32 {
    var h: int := hi;
    h * 0x1_0000 + lo
  }

  function FromBe32(x: u32): u32 {
    Join(FromBe16(x % 0x1_0000), FromBe16(x / 0x1_0000))
  }

  /** `IpAddr::v4`: the network-order integer is split into two words. */
  function MakeV4(addr: u32): IpAddr {
    IpAddr([0, 0, 0, 0, 0, 0, addr / 0x1_0000, addr % 0x1_0000], V4)
  }

  /** `IpAddr::v6`: the words are stored as they come. */
  function MakeV6(words: Words): IpAddr {
    IpAddr(words, V6)
  }

  function ToStd(ip: IpAddr): StdIp {
    match ip.version
    case V4 => StdV4(FromBe32(Join(ip.words[6], ip.words[7])))
    case V6 => StdV6(SwapWords(ip.words))
  }

  function SwapWords(words: Words): Words {
    seq(8, i requires 0 <= i < 8 => FromBe16(words[i]))
  }

  /** What the kernel hands to `notify`: an IPv4 integer or eight IPv6 words, in network order. */
  datatype KernelAddr = Inet(addr: u32) | Inet6(words: Words)

  datatype Endpoint = Endpoint(addr: KernelAddr, port: u16)

  function Encode(k: KernelAddr): IpAddr {
    match k
    case Inet(addr) => MakeV4(addr)
    case Inet6(words) => MakeV6(words)
  }

  function EndpointAddr(e: Endpoint): SockAddr {
    SockAddr(ToStd(Encode(e.addr)), FromBe16(e.port))
  }

  /** The kernel address behind a standard one: inverse of `ToStd` after `Encode`. */
  function Decode(ip: StdIp): KernelAddr {
    match ip
    case StdV4(bits) => Inet(FromBe32(bits))
    case StdV6(segments) => Inet6(SwapWords(segments))
  }

  /** The event `notify` builds from a socket's two endpoints. */
  function EventFor(local: Endpoint, remote: Endpoint, sockType: SockType, ret: i32, pid: u32, channel: Channel)
    : SockMsgEvent
  {
    SockMsgEvent(sockType, Encode(local.addr), Encode(remote.addr), local.port, remote.port, ret, pid, channel)
  }

  lemma FromBe16Involutive(x: u16)
    ensures FromBe16(FromBe16(x)) == x
  {
    var hi, lo := x / 0x100, x % 0x100;
    var y: int := lo * 0x100 + hi;
    assert y / 0x100 == lo && y % 0x100 == hi;
  }

  /** A number of two bytes, the first one most significant. */
  function Big16(b0: u8, b1: u8): u16 {
    b0 * 0x100 + b1
  }

  /** How a little-endian host reads the same two bytes in memory. */
  function Little16(b0: u8, b1: u8): u16 {
    b1 * 0x100 + b0
  }

  function Big32(b0: u8, b1: u8, b2: u8, b3: u8): u32 {
    b0 * 0x100_0000 + b1 * 0x1_0000 + b2 * 0x100 + b3
  }

  function Little32(b0: u8, b1: u8, b2: u8, b3: u8): u32 {
    b3 * 0x100_0000 + b2 * 0x1_0000 + b1 * 0x100 + b0
  }

  /** Ports are read in network order: the bytes in memory, first byte most significant. */
  lemma PortIsBigEndian(b0: u8, b1: u8)
    ensures FromBe16(Little16(b0, b1)) == Big16(b0, b1)
    ensures FromBe16(Little16(0x01, 0xBB)) == 443
  {
  }

  /** So are addresses: a v4 address from its four bytes, a v6 address from eight pairs of bytes. */
  lemma EndpointIsBigEndian(b0: u8, b1: u8, b2: u8, b3: u8, words: Words, first: seq<u8>, second: seq<u8>, p0: u8, p1: u8)
    requires |first| == 8 && |second| == 8 && forall k | 0 <= k < 8 :: words[k] == Little16(first[k], second[k])
    ensures EndpointAddr(Endpoint(Inet(Little32(b0, b1, b2, b3)), Little16(p0, p1)))
         == SockAddr(StdV4(Big32(b0, b1, b2, b3)), Big16(p0, p1))
    ensures var e := EndpointAddr(Endpoint(Inet6(words), Little16(p0, p1)));
            && e.port == Big16(p0, p1) && e.ip.StdV6?
            && forall k | 0 <= k < 8 :: e.ip.segments[k] == Big16(first[k], second[k])
  {
    var x := Little32(b0, b1, b2, b3);
    var hi, lo := Little16(b2, b3), Little16(b0, b1);
    assert x == Join(hi, lo);
    SplitJoin(hi, lo, x);
    PortIsBigEndian(b0, b1);
    PortIsBigEndian(b2, b3);
    PortIsBigEndian(p0, p1);
    forall k | 0 <= k < 8 ensures FromBe16(words[k]) == Big16(first[k], second[k]) {
      PortIsBigEndian(first[k], second[k]);
    }
  }

  lemma SplitJoin(hi: u16, lo: u16, x: u32)
    ensures Join(hi, lo) / 0x1_0000 == hi && Join(hi, lo) % 0x1_0000 == lo
    ensures Join(x / 0x1_0000, x % 0x1_0000) == x
  {}

  lemma FromBe32Involutive(x: u32)
    ensures FromBe32(FromBe32(x)) == x
  {
    var hi, lo := x / 0x1_0000, x % 0x1_0000;
    SplitJoin(FromBe16(lo), FromBe16(hi), x);
    FromBe16Involutive(lo);
    FromBe16Involutive(hi);
  }

  lemma SwapWordsInvolutive(words: Words)
    ensures SwapWords(SwapWords(words)) == words
  {
    forall i | 0 <= i < 8 ensures SwapWords(SwapWords(words))[i] == words[i] {
      FromBe16Involutive(words[i]);
    }
  }

  /** Both conversions are lossless, in both directions. */
  lemma AddressRoundTrip(k: KernelAddr, ip: StdIp)
    ensures Decode(ToStd(Encode(k))) == k
    ensures ToStd(Encode(Decode(ip))) == ip
  {
    match k {
      case Inet(addr) =>
        SplitJoin(0, 0, addr);
        FromBe32Involutive(addr);
      case Inet6(words) =>
        SwapWordsInvolutive(words);
    }
    match ip {
      case StdV4(bits) =>
        SplitJoin(0, 0, FromBe32(bits));
        FromBe32Involutive(bits);
      case StdV6(segments) =>
        SwapWordsInvolutive(segments);
    }
  }

  /** Distinct kernel endpoints never share an index key, and no v4 key is a v6 key. */
  lemma EndpointsDoNotCollide(a: Endpoint, b: Endpoint)
    ensures EndpointAddr(a) == EndpointAddr(b) <==> a == b
    ensures a.addr.Inet? != b.addr.Inet? ==> EndpointAddr(a).ip != EndpointAddr(b).ip
  {
    AddressRoundTrip(a.addr, EndpointAddr(a).ip);
    AddressRoundTrip(b.addr, EndpointAddr(b).ip);
    FromBe16Involutive(a.port);
    FromBe16Involutive(b.port);
  }
}
