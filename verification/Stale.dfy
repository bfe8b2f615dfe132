/**
 The XDP program caches its ports for as long as it stays attached (client/internal/ebpf/ebpf/src).  Exactly which stale
 values show.
 */
module Stale {
  import opened Xdp

  lemma HtonlInvolution(n: U32)
    ensures Htonl(Htonl(n)) == n
  {
    var a, b, c, d := Ip2IntBytes(n);
    Ip2IntOnTheWire(a, b, c, d);
    Ip2IntOnTheWire(d, c, b, a);
  }

  /** The globals after the program has made sure that it has read the settings of its features. */
  ghost function Cache(cfg: Settings, g: Globals): Globals {
    CacheWg(cfg, CacheDns(cfg, g))
  }

  /** The settings by which the program acts: what it has cached, or reads now. */
  ghost function Effective(cfg: Settings, g: Globals): Settings {
    var h := Cache(cfg, g);
    Settings(cfg.features, h.proxyPort, Htons(h.wgPort), Htonl(h.dnsIp), Htons(h.dnsPort))
  }

  /** Reading the effective settings again changes nothing. */
  lemma Recached(cfg: Settings, g: Globals)
    ensures var eff, h := Effective(cfg, g), Cache(cfg, g);
            Fresh(eff, h) && CacheDns(eff, h) == h && CacheWg(eff, h) == h
  {
    var h := Cache(cfg, g);
    HtonsInvolution(h.wgPort);
    HtonsInvolution(h.dnsPort);
    HtonlInvolution(h.dnsIp);
  }

  lemma SameDnsStep(cfg: Settings, g: Globals, eff: Settings, h: Globals, p: Packet)
    requires eff.features == cfg.features && CacheDns(eff, h) == h && h == Cache(cfg, g)
    ensures DnsStep(cfg, g, p).1 == DnsStep(eff, h, p).1
  {
    var k := CacheDns(cfg, g);
    assert h.dnsIp == k.dnsIp && h.dnsPort == k.dnsPort;
  }

  lemma SameWgStep(cfg: Settings, g: Globals, eff: Settings, h: Globals, g': Globals, h': Globals, q: Packet)
    requires eff.features == cfg.features && CacheWg(eff, h) == h && h == Cache(cfg, g)
    requires g' == g || g' == CacheDns(cfg, g)
    requires h' == h
    ensures WgStep(cfg, g', q).1 == WgStep(eff, h', q).1
  {
    var k := CacheWg(cfg, g');
    assert h.proxyPort == k.proxyPort && h.wgPort == k.wgPort;
  }

  /** Whatever it has cached, the program does what the rules say of its effective settings. */
  lemma ActsByEffective(cfg: Settings, g: Globals, d: Datagram, size: nat)
    requires size >= HEADERS_SIZE
    ensures Program(cfg, g, Wire(d, size)).1 == Wire(Forward(Effective(cfg, g), d), size)
  {
    var eff, h := Effective(cfg, g), Cache(cfg, g);
    Recached(cfg, g);
    SameProgram(cfg, g, eff, h, Wire(d, size));
    ProgramRefines(eff, h, d, size);
  }

  lemma SameProgram(cfg: Settings, g: Globals, eff: Settings, h: Globals, p: Packet)
    requires eff.features == cfg.features && h == Cache(cfg, g) && CacheDns(eff, h) == h && CacheWg(eff, h) == h
    ensures Program(cfg, g, p).1 == Program(eff, h, p).1
  {
    SameDnsStep(cfg, g, eff, h, p);
    SameWgStep(cfg, g, eff, h, DnsStep(cfg, g, p).0, DnsStep(eff, h, p).0, DnsStep(cfg, g, p).1);
  }

  // ---------------------------------------------------------------- settings that act alike

  predicate WgAlike(c: Settings, e: Settings) {
    WgOn(c) ==> c.proxyPort == e.proxyPort && c.wgPort == e.wgPort
  }

  /** The same address and port, or port 53 both times, with which the forwarder changes nothing. */
  predicate DnsAlike(c: Settings, e: Settings) {
    DnsOn(c) ==> (c.dnsIp == e.dnsIp && c.dnsPort == e.dnsPort) || (c.dnsPort == 53 && e.dnsPort == 53)
  }

  /** A number that is none of the given ones. */
  lemma Unused(a: int, b: int, c: int, d: int, e: int) returns (x: U16)
    ensures x != a && x != b && x != c && x != d && x != e && x < 106
  {
    x := if 100 !in {a, b, c, d, e} then 100 else if 101 !in {a, b, c, d, e} then 101
         else if 102 !in {a, b, c, d, e} then 102 else if 103 !in {a, b, c, d, e} then 103
         else if 104 !in {a, b, c, d, e} then 104 else 105;
  }

  /** A packet of WireGuard's to an address that the DNS forwarder has nothing to do with tells proxy settings apart. */
  lemma TellsProxies(c: Settings, e: Settings) returns (d: Datagram)
    requires c.features == e.features && !WgAlike(c, e)
    ensures Forward(c, d) != Forward(e, d)
  {
    var src := Unused(c.dnsIp, e.dnsIp, LOCALHOST, 0, 0);
    var port := Unused(c.wgPort, e.wgPort, 53, c.dnsPort, e.dnsPort);
    d := Datagram(src, c.wgPort, LOCALHOST, port);
  }

  /** A query or, if only port 53 is in question, its place tells DNS settings apart. */
  lemma TellsForwarders(c: Settings, e: Settings) returns (d: Datagram)
    requires c.features == e.features && WgAlike(c, e) && !DnsAlike(c, e)
    ensures Forward(c, d) != Forward(e, d)
  {
    var src := Unused(c.dnsIp, e.dnsIp, LOCALHOST, 0, 0);
    var port := Unused(c.wgPort, e.wgPort, 53, c.dnsPort, e.dnsPort);
    d := Datagram(src, port, if c.dnsPort != 53 then c.dnsIp else e.dnsIp, 53);
  }

  /** Exactly when the program, with whatever it has cached, rewrites every datagram as the settings call for: what it
      acts by agrees with them for each feature that is on. */
  lemma RewritesIff(cfg: Settings, g: Globals)
    ensures (forall d, size | size >= HEADERS_SIZE :: Program(cfg, g, Wire(d, size)).1 == Wire(Forward(cfg, d), size)) <==>
            WgAlike(cfg, Effective(cfg, g)) && DnsAlike(cfg, Effective(cfg, g))
  {
    var eff := Effective(cfg, g);
    forall d, size | size >= HEADERS_SIZE
      ensures Program(cfg, g, Wire(d, size)).1 == Wire(Forward(cfg, d), size) <==> Forward(eff, d) == Forward(cfg, d)
    {
      ActsByEffective(cfg, g, d, size);
      WireInjective(Forward(eff, d), Forward(cfg, d), size);
    }
    if WgAlike(cfg, eff) && DnsAlike(cfg, eff) {
      AlikeForwards(cfg, eff);
    } else {
      var d := Differing(cfg, eff);
      assert Program(cfg, g, Wire(d, HEADERS_SIZE)).1 != Wire(Forward(cfg, d), HEADERS_SIZE);
    }
  }

  lemma Differing(c: Settings, e: Settings) returns (d: Datagram)
    requires c.features == e.features && !(WgAlike(c, e) && DnsAlike(c, e))
    ensures Forward(c, d) != Forward(e, d)
  {
    if WgAlike(c, e) {
      d := TellsForwarders(c, e);
    } else {
      d := TellsProxies(c, e);
    }
  }

  lemma AlikeForwards(c: Settings, e: Settings)
    requires c.features == e.features && WgAlike(c, e) && DnsAlike(c, e)
    ensures forall d :: Forward(c, d) == Forward(e, d)
  {}
}
