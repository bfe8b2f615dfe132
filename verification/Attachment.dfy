/**
 The manager and the XDP program together (client/internal/ebpf/ebpf): the program sees the maps that the manager's calls
 have written, and keeps its cached globals for as long as it stays attached.
 */
module Attachment {
  import opened Wrappers
  import opened Xdp
  import opened Manager
  import opened Stale

  const UNREAD: Globals := Globals(0, 0, 0, 0)

  /** The program's globals matter only while it is attached; a load starts with fresh ones. */
  datatype System = System(manager: Manager.State, globals: Globals)

  datatype Event = Operation(step: Manager.Step) | Arrival(packet: Packet)

  /** What the program reads from the maps; an entry of an array map that was never written reads as zero. */
  ghost function SettingsOf(m: Maps): Settings {
    Settings(m.features,
             if m.proxyPort.None? then 0 else m.proxyPort.value, if m.wgPort.None? then 0 else m.wgPort.value,
             if m.dnsIp.None? then 0 else m.dnsIp.value, if m.dnsPort.None? then 0 else m.dnsPort.value)
  }

  ghost function Begin(): System {
    System(Manager.Init(), UNREAD)
  }

  ghost function After(s: System, event: Event): System {
    match event
    case Operation(step) => System(Manager.Next(s.manager, step), if s.manager.attached then s.globals else UNREAD)
    case Arrival(p) =>
      if s.manager.attached then s.(globals := Program(SettingsOf(s.manager.maps), s.globals, p).0) else s
  }

  ghost function History(s: System, events: seq<Event>): System
    decreases |events|
  {
    if events == [] then s else History(After(s, events[0]), events[1..])
  }

  predicate Stays<T(==)>(before: Option<T>, after: Option<T>) {
    before.Some? ==> after == before
  }

  /** While the program is attached, a setting once written keeps its value. */
  ghost predicate Keeps(s: Manager.State, step: Manager.Step) {
    s.attached ==>
      var m, n := s.maps, Manager.Next(s, step).maps;
      Stays(m.proxyPort, n.proxyPort) && Stays(m.wgPort, n.wgPort) && Stays(m.dnsIp, n.dnsIp) && Stays(m.dnsPort, n.dnsPort)
  }

  /** The ports are fixed for each attachment. */
  ghost predicate Steady(s: System, events: seq<Event>)
    decreases |events|
  {
    events != [] ==>
      && (events[0].Operation? ==> Keeps(s.manager, events[0].step))
      && Steady(After(s, events[0]), events[1..])
  }

  ghost predicate WgCached(m: Maps, g: Globals) {
    || (g.proxyPort == 0 && g.wgPort == 0)
    || (WgWritten(m) && g.proxyPort == m.proxyPort.value && g.wgPort == Htons(m.wgPort.value))
  }

  ghost predicate DnsCached(m: Maps, g: Globals) {
    || (g.dnsIp == 0 && g.dnsPort == 0)
    || (DnsWritten(m) && g.dnsIp == Htonl(m.dnsIp.value) && g.dnsPort == Htons(m.dnsPort.value))
  }

  /** What the program has cached are the settings in the maps, or nothing. */
  ghost predicate InStepWithMaps(s: System) {
    && Manager.Inv(s.manager)
    && (s.manager.attached ==> WgCached(s.manager.maps, s.globals) && DnsCached(s.manager.maps, s.globals))
  }

  lemma OperationKeepsCache(s: System, step: Manager.Step)
    requires InStepWithMaps(s) && Keeps(s.manager, step)
    ensures InStepWithMaps(After(s, Operation(step)))
  {
    NextInv(s.manager, step);
  }

  lemma ArrivalKeepsCache(s: System, p: Packet)
    requires InStepWithMaps(s)
    ensures InStepWithMaps(After(s, Arrival(p)))
  {}

  lemma {:induction false} HistoryKeepsCache(s: System, events: seq<Event>)
    requires InStepWithMaps(s) && Steady(s, events)
    ensures InStepWithMaps(History(s, events))
    decreases |events|
  {
    if events != [] {
      match events[0] {
        case Operation(step) => OperationKeepsCache(s, step);
        case Arrival(p) => ArrivalKeepsCache(s, p);
      }
      HistoryKeepsCache(After(s, events[0]), events[1..]);
    }
  }

  /** In every run of loads and frees, failing calls and packets in between included, with the ports fixed for each
      attachment: while the program is attached it rewrites every datagram as the settings last written call for, and
      each feature it acts on has all its settings written. */
  lemma RewritesAsWritten(events: seq<Event>, d: Datagram, size: nat)
    requires Steady(Begin(), events) && size >= HEADERS_SIZE
    ensures var s := History(Begin(), events);
            var m := s.manager.maps;
            s.manager.attached ==>
              && Program(SettingsOf(m), s.globals, Wire(d, size)).1 == Wire(Forward(SettingsOf(m), d), size)
              && (WgProxy in m.features ==> WgWritten(m)) && (DnsFwd in m.features ==> DnsWritten(m))
  {
    HistoryKeepsCache(Begin(), events);
    var s := History(Begin(), events);
    if s.manager.attached {
      assert Fresh(SettingsOf(s.manager.maps), s.globals);
      ProgramRefines(SettingsOf(s.manager.maps), s.globals, d, size);
    }
  }

  /** Ports that change while the program stays attached: it rewrites every datagram as the settings last written call
      for if and only if what it acts by, cached or read now, agrees with them for each feature that is on. */
  lemma RewritesAsWrittenIff(events: seq<Event>)
    ensures var s := History(Begin(), events);
            var cfg := SettingsOf(s.manager.maps);
            (forall d, size | size >= HEADERS_SIZE :: Program(cfg, s.globals, Wire(d, size)).1 == Wire(Forward(cfg, d), size)) <==>
            WgAlike(cfg, Effective(cfg, s.globals)) && DnsAlike(cfg, Effective(cfg, s.globals))
  {
    var s := History(Begin(), events);
    RewritesIff(SettingsOf(s.manager.maps), s.globals);
  }

  /** A run in which it does not: a second load with another proxy port goes unnoticed once a packet has been seen. */
  lemma ChangedPortUnnoticed(c: Calls, old': U16, new': U16, wgPort: U16, port: U16, size: nat) returns (events: seq<Event>)
    requires c.AllGood() && old' != new' && old' != 0 && wgPort != 0 && size >= HEADERS_SIZE
    ensures var s := History(Begin(), events);
            var d := Datagram(LOCALHOST, wgPort, LOCALHOST, port);
            && s.manager.attached && s.manager.maps.proxyPort == Some(new')
            && Program(SettingsOf(s.manager.maps), s.globals, Wire(d, size)).1 ==
               Wire(Datagram(LOCALHOST, port, LOCALHOST, old'), size)
            && Program(SettingsOf(s.manager.maps), s.globals, Wire(d, size)).1 != Wire(Forward(SettingsOf(s.manager.maps), d), size)
  {
    var d := Datagram(LOCALHOST, wgPort, LOCALHOST, port);
    var first, seen := Operation(LoadWgProxy(old', wgPort, c)), Arrival(Wire(d, size));
    var second := Operation(LoadWgProxy(new', wgPort, c));
    events := [first, seen, second];
    HistoryThree(Begin(), first, seen, second);
    LoadedWith(Begin(), old', wgPort, c);
    var s1 := After(Begin(), first);
    assert IsUdp4(Wire(d, size).headers);
    var s2 := After(s1, seen);
    assert s2.manager == s1.manager && s2.globals == Globals(old', Htons(wgPort), 0, 0);
    LoadedWith(s2, new', wgPort, c);
    StaleProgram(SettingsOf(After(s2, second).manager.maps), s2.globals, old', d, size);
  }

  /** A proxy load that succeeds while no other feature is in use. */
  lemma LoadedWith(s: System, proxyPort: U16, wgPort: U16, c: Calls)
    requires c.AllGood() && (s == Begin() || (s.manager.attached && s.manager.flags == {WgProxy}
                                              && s.manager.maps.dnsIp.None? && s.manager.maps.dnsPort.None?))
    ensures var t := After(s, Operation(LoadWgProxy(proxyPort, wgPort, c)));
            && t.manager == Manager.State({WgProxy}, true, Maps({WgProxy}, Some(proxyPort), Some(wgPort), None, None))
            && t.globals == s.globals
  {
    assert {} + {WgProxy} == {WgProxy};
  }

  /** The program with a proxy port cached that is not the present one. */
  lemma StaleProgram(cfg: Settings, g: Globals, stale: U16, d: Datagram, size: nat)
    requires cfg.features == {WgProxy} && cfg.proxyPort != stale && stale != 0 && cfg.wgPort != 0 && size >= HEADERS_SIZE
    requires g.proxyPort == stale && g.wgPort == Htons(cfg.wgPort) && d.dst == LOCALHOST && d.sport == cfg.wgPort
    ensures var out := d.(sport := d.dport, dport := stale);
            Program(cfg, g, Wire(d, size)).1 == Wire(out, size) != Wire(Forward(cfg, d), size)
  {
    HtonsInvolution(cfg.wgPort);
    WireInjective(d.(sport := d.dport, dport := stale), Forward(cfg, d), size);
  }

  lemma HistoryThree(s: System, a: Event, b: Event, c: Event)
    ensures History(s, [a, b, c]) == After(After(After(s, a), b), c)
  {
    assert [a, b, c][1..] == [b, c] && [b, c][1..] == [c] && [c][1..] == [];
    HistoryOne(After(After(s, a), b), c);
    assert History(After(s, a), [b, c]) == History(After(After(s, a), b), [c]);
  }

  lemma HistoryOne(s: System, a: Event)
    ensures History(s, [a]) == After(s, a)
  {
    assert [a][1..] == [];
  }
}
