/**
 The XDP program on the loopback interface (client/internal/ebpf/ebpf/src): the DNS forwarder and the
 WireGuard proxy rewrite the ports of UDP packets.  Header fields are in network byte order and are
 read on a little-endian machine, so a 16-bit field holds `Htons` of its value.
 */
module Xdp {

  type U16 = n: int | 0 <= n < 0x1_0000
  type U32 = n: int | 0 <= n < 0x1_0000_0000

  const ETH_P_IP: U16 := 0x0800
  const IPPROTO_UDP := 17
  const LOCALHOST: U32 := 2130706433
  const GENERAL_DNS_PORT: U16 := 13568
  const HEADERS_SIZE := 14 + 20 + 8

  /** The bits of the feature word, 0b01 and 0b10; a word is the set of its bits. */
  datatype Feature = WgProxy | DnsFwd

  // ---------------------------------------------------------------- byte order

  /** Swap the two bytes; the inverse is the same function. */
  function Htons(n: U16): U16 {
    n % 256 * 256 + n / 256
  }

  function Htonl(n: U32): U32 {
    n % 256 * 0x100_0000 + n / 256 % 256 * 0x1_0000 + n / 0x1_0000 % 256 * 256 + n / 0x100_0000
  }

  lemma ByteOf(n: int, q: int, r: int)
    requires n == 256 * q + r && 0 <= r < 256
    ensures n / 256 == q && n % 256 == r
  {}

  lemma HtonsInvolution(n: U16)
    ensures Htons(Htons(n)) == n
  {
    ByteOf(n, n / 256, n % 256);
    ByteOf(Htons(n), n % 256, n / 256);
  }

  /** The two bytes of a 16-bit number and the four of an address are reversed. */
  lemma BytesReversed(a: int, b: int)
    requires 0 <= a < 256 && 0 <= b < 256
    ensures Htons(a * 256 + b) == b * 256 + a
  {
    ByteOf(a * 256 + b, a, b);
  }

  lemma HtonsInjective(m: U16, n: U16)
    ensures Htons(m) == Htons(n) <==> m == n
  {
    HtonsInvolution(m);
    HtonsInvolution(n);
  }

  /** `ip2int`: the four bytes of an address as a big-endian number. */
  function Ip2Int(a: int, b: int, c: int, d: int): U32
    requires 0 <= a < 256 && 0 <= b < 256 && 0 <= c < 256 && 0 <= d < 256
  {
    a * 0x100_0000 + b * 0x1_0000 + c * 256 + d
  }

  /** The constants of the program: 127.0.0.1, port 53, IPv4 (section 3 of RFC 894), UDP, and the three headers. */
  lemma ConstantsSpelled()
    ensures LOCALHOST == Ip2Int(127, 0, 0, 1)
    ensures GENERAL_DNS_PORT == Htons(53) == 0x3500
    ensures ETH_P_IP == 0x0800 && IPPROTO_UDP == 17 && HEADERS_SIZE == 42
  {
    BytesReversed(0, 53);
  }

  lemma HtonlByBytes(n: U32)
    ensures Htonl(n) == n % 256 * 0x100_0000 + n / 256 % 256 * 0x1_0000 + n / 256 / 256 % 256 * 256 + n / 256 / 256 / 256
  {}

  /** Writing the number of an address to the settings map and converting it with `htonl` gives what
      the program reads from a packet that carries the four bytes. */
  lemma Ip2IntOnTheWire(a: int, b: int, c: int, d: int)
    requires 0 <= a < 256 && 0 <= b < 256 && 0 <= c < 256 && 0 <= d < 256
    ensures Htonl(Ip2Int(a, b, c, d)) == a + b * 256 + c * 0x1_0000 + d * 0x100_0000
  {
    var n := Ip2Int(a, b, c, d);
    HtonlByBytes(n);
    ByteOf(n, a * 0x1_0000 + b * 256 + c, d);
    ByteOf(a * 0x1_0000 + b * 256 + c, a * 256 + b, c);
    ByteOf(a * 256 + b, a, b);
  }

  lemma Ip2IntBytes(n: U32) returns (a: int, b: int, c: int, d: int)
    ensures 0 <= a < 256 && 0 <= b < 256 && 0 <= c < 256 && 0 <= d < 256 && n == Ip2Int(a, b, c, d)
  {
    var q := n / 256;
    var r := q / 256;
    a, b, c, d := r / 256, r % 256, q % 256, n % 256;
    assert n == 256 * q + d;
    assert q == 256 * r + c;
    assert r == 256 * a + b;
  }

  lemma DigitsUnique(a: int, b: int, c: int, d: int, a': int, b': int, c': int, d': int)
    requires 0 <= a < 256 && 0 <= b < 256 && 0 <= c < 256 && 0 <= d < 256
    requires 0 <= a' < 256 && 0 <= b' < 256 && 0 <= c' < 256 && 0 <= d' < 256
    requires a + b * 256 + c * 0x1_0000 + d * 0x100_0000 == a' + b' * 256 + c' * 0x1_0000 + d' * 0x100_0000
    ensures a == a' && b == b' && c == c' && d == d'
  {}

  lemma HtonlInjective(m: U32, n: U32)
    ensures Htonl(m) == Htonl(n) <==> m == n
  {
    var a, b, c, d := Ip2IntBytes(m);
    var a', b', c', d' := Ip2IntBytes(n);
    Ip2IntOnTheWire(a, b, c, d);
    Ip2IntOnTheWire(a', b', c', d');
    if Htonl(m) == Htonl(n) {
      DigitsUnique(a, b, c, d, a', b', c', d');
    }
  }

  // ---------------------------------------------------------------- the program

  /** What the user-space side has put into the maps. */
  datatype Settings = Settings(features: set<Feature>, proxyPort: U16, wgPort: U16, dnsIp: U32, dnsPort: U16)

  /** The C globals, 0 until first read. */
  datatype Globals = Globals(proxyPort: U16, wgPort: U16, dnsIp: U32, dnsPort: U16)

  /** The parts of an Ethernet frame that the program looks at, as it reads them. */
  datatype Headers = Headers(size: nat, ethProto: U16, ipProto: int, saddr: U32, daddr: U32)

  datatype Packet = Packet(headers: Headers, source: U16, dest: U16)

  class UdpHeader {
    var source: U16
    var dest: U16

    constructor (source: U16, dest: U16)
      ensures this.source == source && this.dest == dest
    {
      this.source, this.dest := source, dest;
    }
  }

  ghost function CacheDns(cfg: Settings, g: Globals): Globals {
    if g.dnsPort == 0 then g.(dnsIp := Htonl(cfg.dnsIp), dnsPort := Htons(cfg.dnsPort)) else g
  }

  ghost function CacheWg(cfg: Settings, g: Globals): Globals {
    if g.proxyPort == 0 || g.wgPort == 0 then g.(proxyPort := cfg.proxyPort, wgPort := Htons(cfg.wgPort)) else g
  }

  ghost function DnsPorts(g: Globals, p: Packet): Packet {
    if p.dest == GENERAL_DNS_PORT && p.headers.daddr == g.dnsIp then p.(dest := g.dnsPort)
    else if p.source == g.dnsPort && p.headers.saddr == g.dnsIp then p.(source := GENERAL_DNS_PORT)
    else p
  }

  ghost function WgPorts(g: Globals, p: Packet): Packet {
    if p.headers.daddr == Htonl(LOCALHOST) && p.source == g.wgPort then p.(source := p.dest, dest := Htons(g.proxyPort))
    else p
  }

  ghost predicate IsUdp4(h: Headers) {
    h.size >= HEADERS_SIZE && h.ethProto == Htons(ETH_P_IP) && h.ipProto == IPPROTO_UDP
  }

  ghost function DnsStep(cfg: Settings, g: Globals, p: Packet): (Globals, Packet) {
    if DnsFwd !in cfg.features then (g, p)
    else (CacheDns(cfg, g), DnsPorts(CacheDns(cfg, g), p))
  }

  ghost function WgStep(cfg: Settings, g: Globals, p: Packet): (Globals, Packet) {
    if WgProxy !in cfg.features then (g, p)
    else (CacheWg(cfg, g), WgPorts(CacheWg(cfg, g), p))
  }

  /** One run of the program: the globals and the packet it leaves. */
  ghost function Program(cfg: Settings, g: Globals, p: Packet): (Globals, Packet) {
    if !IsUdp4(p.headers) then (g, p)
    else
      var (g', p') := DnsStep(cfg, g, p);
      WgStep(cfg, g', p')
  }

  /** The program with its globals; lookups in array maps cannot fail for the keys it uses. */
  class XdpProgram {
    var settings: Settings
    var proxyPort: U16
    var wgPort: U16
    var dnsIp: U32
    var dnsPort: U16

    ghost function Cached(): Globals
      reads this
    {
      Globals(proxyPort, wgPort, dnsIp, dnsPort)
    }

    constructor (settings: Settings)
      ensures this.settings == settings && Cached() == Globals(0, 0, 0, 0)
    {
      this.settings := settings;
      proxyPort, wgPort, dnsIp, dnsPort := 0, 0, 0, 0;
    }

    method ReadPortSettings()
      modifies this`proxyPort, this`wgPort
      ensures proxyPort == settings.proxyPort && wgPort == Htons(settings.wgPort)
    {
      proxyPort := settings.proxyPort;
      wgPort := Htons(settings.wgPort);
    }

    method ReadDnsSettings()
      modifies this`dnsIp, this`dnsPort
      ensures dnsIp == Htonl(settings.dnsIp) && dnsPort == Htons(settings.dnsPort)
    {
      dnsIp := Htonl(settings.dnsIp);
      dnsPort := Htons(settings.dnsPort);
    }

    method XdpWgProxy(h: Headers, udp: UdpHeader)
      modifies this`proxyPort, this`wgPort, udp
      ensures Cached() == CacheWg(settings, old(Cached()))
      ensures Packet(h, udp.source, udp.dest) == WgPorts(Cached(), Packet(h, old(udp.source), old(udp.dest)))
    {
      if proxyPort == 0 || wgPort == 0 {
        ReadPortSettings();
      }
      if h.daddr != Htonl(LOCALHOST) {
        return;
      }
      if udp.source != wgPort {
        return;
      }
      var newSource := udp.dest;
      var newDest := Htons(proxyPort);
      udp.dest := newDest;
      udp.source := newSource;
    }

    method XdpDnsFwd(h: Headers, udp: UdpHeader)
      modifies this`dnsIp, this`dnsPort, udp
      ensures Cached() == CacheDns(settings, old(Cached()))
      ensures Packet(h, udp.source, udp.dest) == DnsPorts(Cached(), Packet(h, old(udp.source), old(udp.dest)))
    {
      if dnsPort == 0 {
        ReadDnsSettings();
      }
      if udp.dest == GENERAL_DNS_PORT && h.daddr == dnsIp {
        udp.dest := dnsPort;
        return;
      }
      if udp.source == dnsPort && h.saddr == dnsIp {
        udp.source := GENERAL_DNS_PORT;
        return;
      }
    }

    method NbXdpProg(h: Headers, udp: UdpHeader)
      modifies this`proxyPort, this`wgPort, this`dnsIp, this`dnsPort, udp
      ensures (Cached(), Packet(h, udp.source, udp.dest)) ==
              Program(settings, old(Cached()), Packet(h, old(udp.source), old(udp.dest)))
    {
      if h.size < HEADERS_SIZE {
        return;
      }
      if h.ethProto != Htons(ETH_P_IP) {
        return;
      }
      if h.ipProto != IPPROTO_UDP {
        return;
      }
      if DnsFwd in settings.features {
        XdpDnsFwd(h, udp);
      }
      if WgProxy in settings.features {
        XdpWgProxy(h, udp);
      }
    }
  }

  // ---------------------------------------------------------------- the rewriting in host terms

  /** A UDP packet over IPv4 with addresses and ports as numbers. */
  datatype Datagram = Datagram(src: U32, sport: U16, dst: U32, dport: U16)

  function Swap(d: Datagram): Datagram {
    Datagram(d.dst, d.dport, d.src, d.sport)
  }

  /** The datagram as the program reads it; `size` is the size of its frame. */
  ghost function Wire(d: Datagram, size: nat): Packet {
    Packet(Headers(size, Htons(ETH_P_IP), IPPROTO_UDP, Htonl(d.src), Htonl(d.dst)), Htons(d.sport), Htons(d.dport))
  }

  predicate DnsOn(cfg: Settings) {
    DnsFwd in cfg.features
  }

  predicate WgOn(cfg: Settings) {
    WgProxy in cfg.features
  }

  /** What the forwarder is for: queries to the DNS address go to the custom port, answers seem to come from 53. */
  ghost function ForwardDns(cfg: Settings, d: Datagram): Datagram {
    if !DnsOn(cfg) then d
    else if d.dport == 53 && d.dst == cfg.dnsIp then d.(dport := cfg.dnsPort)
    else if d.sport == cfg.dnsPort && d.src == cfg.dnsIp then d.(sport := 53)
    else d
  }

  /** What the proxy is for: WireGuard's packets go to the proxy, which sees the port they were meant for. */
  ghost function ForwardWg(cfg: Settings, d: Datagram): Datagram {
    if WgOn(cfg) && d.dst == LOCALHOST && d.sport == cfg.wgPort then d.(sport := d.dport, dport := cfg.proxyPort) else d
  }

  ghost function Forward(cfg: Settings, d: Datagram): Datagram {
    ForwardWg(cfg, ForwardDns(cfg, d))
  }

  /** The globals hold the settings or have not been read yet. */
  ghost predicate Fresh(cfg: Settings, g: Globals) {
    && ((g.proxyPort == 0 && g.wgPort == 0) || (g.proxyPort == cfg.proxyPort && g.wgPort == Htons(cfg.wgPort)))
    && ((g.dnsIp == 0 && g.dnsPort == 0) || (g.dnsIp == Htonl(cfg.dnsIp) && g.dnsPort == Htons(cfg.dnsPort)))
  }

  lemma DnsStepRefines(cfg: Settings, g: Globals, d: Datagram, size: nat)
    requires Fresh(cfg, g)
    ensures DnsStep(cfg, g, Wire(d, size)).1 == Wire(ForwardDns(cfg, d), size)
    ensures Fresh(cfg, DnsStep(cfg, g, Wire(d, size)).0)
  {
    assert Htons(53) == GENERAL_DNS_PORT;
    HtonsInjective(d.dport, 53);
    HtonsInjective(d.sport, cfg.dnsPort);
    HtonlInjective(d.dst, cfg.dnsIp);
    HtonlInjective(d.src, cfg.dnsIp);
  }

  lemma WgStepRefines(cfg: Settings, g: Globals, d: Datagram, size: nat)
    requires Fresh(cfg, g)
    ensures WgStep(cfg, g, Wire(d, size)).1 == Wire(ForwardWg(cfg, d), size)
    ensures Fresh(cfg, WgStep(cfg, g, Wire(d, size)).0)
  {
    HtonsInjective(d.sport, cfg.wgPort);
    HtonlInjective(d.dst, LOCALHOST);
  }

  /** The program does on the wire what the forwarding rules say about addresses and ports. */
  lemma ProgramRefines(cfg: Settings, g: Globals, d: Datagram, size: nat)
    requires Fresh(cfg, g) && size >= HEADERS_SIZE
    ensures Program(cfg, g, Wire(d, size)).1 == Wire(Forward(cfg, d), size)
    ensures Fresh(cfg, Program(cfg, g, Wire(d, size)).0)
  {
    DnsStepRefines(cfg, g, d, size);
    WgStepRefines(cfg, DnsStep(cfg, g, Wire(d, size)).0, ForwardDns(cfg, d), size);
  }

  /** The globals after a sequence of packets, while features come and go but the ports stay. */
  ghost function After(cfg: Settings, g: Globals, inputs: seq<(set<Feature>, Packet)>): Globals
    decreases |inputs|
  {
    if inputs == [] then g
    else After(cfg, Program(cfg.(features := inputs[0].0), g, inputs[0].1).0, inputs[1..])
  }

  /** Caching the ports never shows: after any packets the program still does what the rules say. */
  lemma {:induction false} CachingIsTransparent(cfg: Settings, g: Globals, inputs: seq<(set<Feature>, Packet)>, d: Datagram, size: nat)
    requires Fresh(cfg, g) && size >= HEADERS_SIZE
    ensures Program(cfg, After(cfg, g, inputs), Wire(d, size)).1 == Wire(Forward(cfg, d), size)
    decreases |inputs|
  {
    if inputs == [] {
      ProgramRefines(cfg, g, d, size);
    } else {
      CachingIsTransparent(cfg, Program(cfg.(features := inputs[0].0), g, inputs[0].1).0, inputs[1..], d, size);
    }
  }

  /** Distinct datagrams look distinct on the wire. */
  lemma WireInjective(d: Datagram, e: Datagram, size: nat)
    ensures Wire(d, size) == Wire(e, size) <==> d == e
  {
    HtonsInjective(d.sport, e.sport);
    HtonsInjective(d.dport, e.dport);
    HtonlInjective(d.src, e.src);
    HtonlInjective(d.dst, e.dst);
  }

  // ---------------------------------------------------------------- the DNS round trip

  /** The proxy's rewriting takes hold of the query, sent from WireGuard's port to a DNS address on the loopback
      interface, or of the answer, which seems to come from port 53 when that is WireGuard's. */
  predicate WgClash(cfg: Settings, q: Datagram) {
    WgOn(cfg) && ((q.dst == LOCALHOST && q.sport == cfg.wgPort) || (q.src == LOCALHOST && cfg.wgPort == 53))
  }

  /** Exactly when a query comes back as if port 53 had answered it: it was not itself sent from port 53 of
      the DNS address, or the custom port is 53; and the proxy keeps out of it. */
  lemma DnsRoundTripIff(cfg: Settings, q: Datagram)
    requires DnsOn(cfg) && q.dst == cfg.dnsIp && q.dport == 53
    requires WgOn(cfg) ==> cfg.proxyPort != cfg.wgPort && cfg.proxyPort != 53
    ensures Forward(cfg, Swap(Forward(cfg, q))) == Swap(q) <==>
            !WgClash(cfg, q) && (!(q.src == cfg.dnsIp && q.sport == 53) || cfg.dnsPort == 53)
    ensures !WgClash(cfg, q) ==> Forward(cfg, q) == q.(dport := cfg.dnsPort)
  {}

  /** The same through the program itself, whatever it has cached. */
  lemma DnsRoundTripOnTheWire(cfg: Settings, g: Globals, g': Globals, q: Datagram, size: nat)
    requires Fresh(cfg, g) && Fresh(cfg, g') && size >= HEADERS_SIZE
    requires DnsOn(cfg) && q.dst == cfg.dnsIp && q.dport == 53
    requires WgOn(cfg) ==> cfg.proxyPort != cfg.wgPort && cfg.proxyPort != 53
    ensures var there := Forward(cfg, q);
            && Program(cfg, g, Wire(q, size)).1 == Wire(there, size)
            && (!WgClash(cfg, q) ==> there == q.(dport := cfg.dnsPort))
            && (Program(cfg, g', Wire(Swap(there), size)).1 == Wire(Swap(q), size) <==>
                !WgClash(cfg, q) && (!(q.src == cfg.dnsIp && q.sport == 53) || cfg.dnsPort == 53))
  {
    ProgramRefines(cfg, g, q, size);
    var answer := Swap(Forward(cfg, q));
    ProgramRefines(cfg, g', answer, size);
    DnsRoundTripIff(cfg, q);
    WireInjective(Forward(cfg, answer), Swap(q), size);
  }

  /** Packets that neither rule matches, and all that is not UDP over IPv4, pass unchanged. */
  lemma OthersUntouched(cfg: Settings, g: Globals, p: Packet)
    requires Fresh(cfg, g)
    requires !IsUdp4(p.headers)
             || (&& !(DnsOn(cfg) && p.dest == Htons(53) && p.headers.daddr == Htonl(cfg.dnsIp))
                 && !(DnsOn(cfg) && p.source == Htons(cfg.dnsPort) && p.headers.saddr == Htonl(cfg.dnsIp))
                 && !(WgOn(cfg) && p.source == Htons(cfg.wgPort) && p.headers.daddr == Htonl(LOCALHOST)))
    ensures Program(cfg, g, p).1 == p
  {
    assert Htons(53) == GENERAL_DNS_PORT;
  }
}
