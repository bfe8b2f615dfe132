/**
 The eBPF proxy end to end: the kernel rewrites WireGuard's packets to the proxy's port, and the proxy
 finds the relayed connection by the port the packet was meant for
 (client/internal/wgproxy/proxy_ebpf.go and client/internal/ebpf/ebpf/src).
 */
module Delivery {
  import opened Ports
  import opened Xdp

  /** A packet WireGuard sends to the endpoint it was given for a relayed connection. */
  function FromWireGuard(cfg: Settings, port: U16): (d: Datagram)
    ensures d.src == d.dst == Ip2Int(127, 0, 0, 1) && d.sport == cfg.wgPort && d.dport == port
  {
    Datagram(LOCALHOST, cfg.wgPort, LOCALHOST, port)
  }

  /** The packet `sendPkg` injects for WireGuard on behalf of a relayed connection. */
  function ToWireGuard(cfg: Settings, port: U16): (d: Datagram)
    ensures d.src == d.dst == Ip2Int(127, 0, 0, 1) && d.sport == port && d.dport == cfg.wgPort
  {
    Datagram(LOCALHOST, port, LOCALHOST, cfg.wgPort)
  }

  /** The packet that reaches the proxy's socket if all goes well. */
  function AtProxy(cfg: Settings, port: U16): (d: Datagram)
    ensures d.src == d.dst == Ip2Int(127, 0, 0, 1) && d.sport == port && d.dport == cfg.proxyPort
  {
    Datagram(LOCALHOST, port, LOCALHOST, cfg.proxyPort)
  }

  /** The DNS forwarder on the loopback address itself can take hold of a proxied packet: one for
      endpoint port 53, or any packet if WireGuard listens on the forwarder's port. */
  predicate DnsClash(cfg: Settings, port: U16) {
    && DnsOn(cfg) && cfg.dnsIp == LOCALHOST
    && if port == 53 then cfg.dnsPort != 53 else cfg.wgPort == cfg.dnsPort && cfg.wgPort != 53
  }

  /** End to end, in every run of the proxy, for every connection still served, and whatever packets the
      program has seen: the packet arrives at the proxy under the connection's port, where the lookup finds
      that very connection, exactly when the DNS forwarder does not clash. */
  lemma DeliveredIff<Conn(!new)>(steps: seq<Ports.Step<Conn>>, port: int, conn: Conn,
                                 cfg: Settings, seen: seq<(set<Feature>, Packet)>, size: nat)
    requires Worker(port, conn) in Ports.Run(Ports.Init<Conn>(), steps).workers
    requires WgOn(cfg) && size >= HEADERS_SIZE
    ensures 1 <= port <= MAX_PORT
    ensures var s := Ports.Run(Ports.Init<Conn>(), steps);
            var out := Program(cfg, After(cfg, Globals(0, 0, 0, 0), seen), Wire(FromWireGuard(cfg, port), size)).1;
            && (out == Wire(AtProxy(cfg, port), size) <==> !DnsClash(cfg, port))
            && (out == Wire(AtProxy(cfg, port), size) ==>
                  Htons(out.dest) == cfg.proxyPort && Htons(out.source) in s.store && s.store[Htons(out.source)] == conn)
  {
    LiveConnIsStored(steps, port, conn);
    var d := FromWireGuard(cfg, port);
    CachingIsTransparent(cfg, Globals(0, 0, 0, 0), seen, d, size);
    WireInjective(Forward(cfg, d), AtProxy(cfg, port), size);
    HtonsInvolution(port);
    HtonsInvolution(cfg.proxyPort);
    ForwardToProxyIff(cfg, port);
  }

  lemma ForwardToProxyIff(cfg: Settings, port: U16)
    requires WgOn(cfg)
    ensures Forward(cfg, FromWireGuard(cfg, port)) == AtProxy(cfg, port) <==> !DnsClash(cfg, port)
  {}

  /** The forwarder on the loopback address takes hold of an injected packet and changes it. */
  predicate DnsTakesInjected(cfg: Settings, port: U16) {
    DnsOn(cfg) && cfg.dnsIp == LOCALHOST && cfg.dnsPort != 53 && (cfg.wgPort == 53 || port == cfg.dnsPort)
  }

  /** Exactly when an injected packet reaches WireGuard unchanged: the connection's port is not WireGuard's own
      (or the rewriting changes nothing), and the DNS forwarder keeps out of it. */
  lemma InjectedIff(cfg: Settings, port: U16, seen: seq<(set<Feature>, Packet)>, size: nat)
    requires WgOn(cfg) && size >= HEADERS_SIZE
    ensures var p := Wire(ToWireGuard(cfg, port), size);
            Program(cfg, After(cfg, Globals(0, 0, 0, 0), seen), p).1 == p <==>
            (port != cfg.wgPort || cfg.proxyPort == cfg.wgPort) && !DnsTakesInjected(cfg, port)
  {
    var d := ToWireGuard(cfg, port);
    CachingIsTransparent(cfg, Globals(0, 0, 0, 0), seen, d, size);
    WireInjective(Forward(cfg, d), d, size);
  }

  /** The two directions are inverse in what they tell WireGuard: an answer to a delivered packet comes
      back from the endpoint that packet was sent to. */
  lemma AnswerComesFromEndpoint(cfg: Settings, port: U16)
    requires WgOn(cfg) && port != cfg.wgPort && !DnsTakesInjected(cfg, port)
    ensures Forward(cfg, ToWireGuard(cfg, port)) == Swap(FromWireGuard(cfg, port))
  {}

  /** The allocator does hand out WireGuard's own port, as any other, so the condition of `InjectedIff` can
      fail in a run. */
  lemma EveryPortIsGranted<Conn(!new)>(port: int, conn: Conn) returns (steps: seq<Ports.Step<Conn>>)
    requires 1 <= port <= MAX_PORT
    ensures Worker(port, conn) in Ports.Run(Ports.Init<Conn>(), steps).workers
  {
    steps := AddUpTo(Ports.Init<Conn>(), 0, port, conn);
  }

  /** One more grant to a proxy that has granted the ports 1 to `n` and lost none. */
  lemma AddOne<Conn(!new)>(s: Ports.State<Conn>, n: nat, conn: Conn)
    requires n < MAX_PORT && s.cursor == n && s.store.Keys == AllPorts(n)
    ensures StoreOk(s)
    ensures var t := AddNext(s, conn);
            t.cursor == n + 1 && t.store.Keys == AllPorts(n + 1) && Worker(n + 1, conn) in t.workers
  {
    StoreSize(s.store);
    assert |s.store.Keys| == n;
    assert Walk(n, 1) == n + 1;
    FirstFreeIsUnique(n, s.store.Keys, 1, Search(n, s.store.Keys, 1));
    assert AddNext(s, conn).store.Keys == s.store.Keys + {n + 1};
    assert AllPorts(n + 1) == AllPorts(n) + {n + 1};
  }

  lemma {:induction false} AddUpTo<Conn(!new)>(s: Ports.State<Conn>, n: nat, port: int, conn: Conn)
      returns (steps: seq<Ports.Step<Conn>>)
    requires n < port <= MAX_PORT && s.cursor == n && s.store.Keys == AllPorts(n)
    ensures StoreOk(s) && Worker(port, conn) in Ports.Run(s, steps).workers
    decreases port - n
  {
    AddOne(s, n, conn);
    var t := AddNext(s, conn);
    if n + 1 == port {
      steps := [Add(conn)];
      assert Ports.Run(s, steps) == Ports.Run(t, []);
    } else {
      var rest := AddUpTo(t, n + 1, port, conn);
      steps := [Add(conn)] + rest;
      assert steps[1..] == rest;
    }
  }
}
