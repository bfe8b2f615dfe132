/**
 The multiplexer itself: `UDPMuxDefault` and `udpMuxedConn` as classes.  Each method that is one lock
 section is proved to take the corresponding step of `MuxModel`; the methods that callers use run
 their sections in the order of the source.
 */
module Mux {
  import opened Bytes
  import opened Wrappers
  import opened MuxModel
  import opened MuxDispatch
  import opened MuxTheorems
  import opened MuxWatchers

  datatype Datagram = Datagram(raw: seq<Byte>, from: string)

  datatype Outcome<T> = Ok(value: T) | InvalidAddress | ClosedPipe | NotUdp | WriteFailed

  class MuxedConn {
    const key: string
    var addresses: seq<string>
    var closed: bool
    /** packets waiting to be read, oldest first */
    var inbox: seq<Datagram>

    constructor (key: string)
      ensures this.key == key && addresses == [] && !closed && inbox == []
    {
      this.key := key;
      addresses := [];
      closed := false;
      inbox := [];
    }

    method ContainsAddress(addr: string) returns (found: bool)
      ensures found <==> addr in addresses
    {
      for i := 0 to |addresses|
        invariant addr !in addresses[..i]
      {
        if addresses[i] == addr {
          return true;
        }
      }
      return false;
    }

    /** A packet is refused if it has no frame, if the connection is closed, or if its buffer is full. */
    method WritePacket(packet: Datagram, framed: bool, full: bool) returns (ok: bool)
      modifies this`inbox
      ensures ok == (framed && !closed && !full)
      ensures inbox == old(inbox) + (if ok then [packet] else [])
    {
      ok := framed && !closed && !full;
      if ok {
        inbox := inbox + [packet];
      }
    }
  }

  function Copies(n: nat, packet: Datagram): (s: seq<Datagram>)
    ensures |s| == n && forall i | 0 <= i < n :: s[i] == packet
  {
    seq(n, i => packet)
  }

  /** How many of `n` copies a connection takes, if its buffer has room for `room` more. */
  function Accepted(n: nat, framed: bool, closed: bool, room: nat): (k: nat)
    ensures k <= n && k <= room && (framed && !closed ==> k == n || k == room)
    ensures !framed || closed ==> k == 0
  {
    if !framed || closed then 0 else if n <= room then n else room
  }

  class UdpMux {
    const localAddr: string
    /** whether the socket listens on an unspecified address, so that any local address is accepted */
    const unspecified: bool
    var connsIPv4: map<string, MuxedConn>
    var connsIPv6: map<string, MuxedConn>
    var addressMap: map<string, seq<MuxedConn>>
    var closed: bool

    ghost var created: set<MuxedConn>
    ghost var writers: multiset<Writer<MuxedConn>>
    ghost var removers: multiset<seq<MuxedConn>>
    /** the connections whose watcher goroutine has not run yet */
    ghost var watchers: set<MuxedConn>

    static ghost function Table(conns: set<MuxedConn>): map<MuxedConn, Conn>
      reads conns`addresses, conns`closed
    {
      map c | c in conns :: Conn(c.key, c.addresses, c.closed)
    }

    ghost function Abs(): State<MuxedConn>
      reads this, created`addresses, created`closed
    {
      State(Table(created), connsIPv4, connsIPv6, addressMap, closed, writers, removers)
    }

    ghost predicate AllWatched()
      reads this`connsIPv4, this`connsIPv6, this`watchers
    {
      && (forall u | u in connsIPv4 :: connsIPv4[u] in watchers)
      && (forall u | u in connsIPv6 :: connsIPv6[u] in watchers)
    }

    ghost predicate Valid()
      reads this, created`addresses, created`closed
    {
      Inv(Abs()) && AllWatched() && (closed ==> connsIPv4 == map[] && connsIPv6 == map[])
    }

    constructor (localAddr: string, unspecified: bool)
      ensures this.localAddr == localAddr && this.unspecified == unspecified
      ensures created == {} && watchers == {} && Abs() == Init<MuxedConn>() && Valid()
    {
      this.localAddr := localAddr;
      this.unspecified := unspecified;
      connsIPv4, connsIPv6, addressMap := map[], map[], map[];
      closed := false;
      created, writers, removers, watchers := {}, multiset{}, multiset{}, {};
      new;
      assert Abs() == Init<MuxedConn>();
    }

    /** `createMuxedConn`, which leaves the mux alone. */
    method NewConn(ufrag: string) returns (c: MuxedConn)
      ensures fresh(c) && c.key == ufrag && c.inbox == [] && Conn(c.key, c.addresses, c.closed) == Conn(ufrag, [], false)
      ensures Abs() == old(Abs())
    {
      c := new MuxedConn(ufrag);
    }

    /** The creating branch of `GetConn`. */
    method CreateConn(ufrag: string, isIPv6: bool) returns (c: MuxedConn)
      requires !closed
      requires ufrag !in (if isIPv6 then connsIPv6 else connsIPv4)
      modifies this`connsIPv4, this`connsIPv6, this`created
      ensures fresh(c) && c.key == ufrag && c.inbox == []
      ensures created == old(created) + {c}
      ensures Abs() == GetConnNext(old(Abs()), ufrag, isIPv6, c)
    {
      ghost var s := Abs();
      c := NewConn(ufrag);
      if isIPv6 {
        connsIPv6 := connsIPv6[ufrag := c];
      } else {
        connsIPv4 := connsIPv4[ufrag := c];
      }
      TableAdd(created, c);
      assert Table(created) == s.conns;
      created := created + {c};
    }

    static lemma TableAdd(conns: set<MuxedConn>, c: MuxedConn)
      requires c !in conns
      ensures Table(conns + {c}) == Table(conns)[c := Conn(c.key, c.addresses, c.closed)]
    {}

    method GetConn(ufrag: string, addr: string, isIPv6: bool) returns (r: Outcome<MuxedConn>)
      requires Valid()
      modifies this`connsIPv4, this`connsIPv6, this`created, this`watchers
      ensures Valid()
      ensures r.InvalidAddress? <==> !unspecified && addr != localAddr
      ensures r.ClosedPipe? <==> (unspecified || addr == localAddr) && closed
      ensures !r.NotUdp? && !r.WriteFailed?
      ensures r.Ok? ==> r.value in created && r.value.key == ufrag
      ensures r.Ok? ==> ufrag in (if isIPv6 then connsIPv6 else connsIPv4)
                        && (if isIPv6 then connsIPv6 else connsIPv4)[ufrag] == r.value
      ensures if r.Ok? && ufrag !in old(if isIPv6 then connsIPv6 else connsIPv4)
              then && fresh(r.value) && Abs() == GetConnNext(old(Abs()), ufrag, isIPv6, r.value)
                   && watchers == old(watchers) + {r.value}
                   && connsIPv4 == (if isIPv6 then old(connsIPv4) else old(connsIPv4)[ufrag := r.value])
                   && connsIPv6 == (if isIPv6 then old(connsIPv6)[ufrag := r.value] else old(connsIPv6))
                   && Abs().conns[r.value] == Conn(ufrag, [], false)
              else Abs() == old(Abs()) && watchers == old(watchers)
    {
      if !unspecified && addr != localAddr {
        return InvalidAddress;
      }
      if closed {
        return ClosedPipe;
      }
      var conns := if isIPv6 then connsIPv6 else connsIPv4;
      if ufrag in conns {
        assert Abs().conns[conns[ufrag]].key == ufrag;
        return Ok(conns[ufrag]);
      }
      ghost var s := Abs();
      var c := CreateConn(ufrag, isIPv6);
      GetConnInv(s, ufrag, isIPv6, c);
      watchers := watchers + {c};
      return Ok(c);
    }

    // -------------------------------------------------------------- RemoveConnByUfrag

    /** The section under the mux lock. */
    method Detach(ufrag: string) returns (removed: seq<MuxedConn>)
      modifies this`connsIPv4, this`connsIPv6, this`removers
      ensures removed == Removed(old(Abs()), ufrag)
      ensures removed == (if ufrag in old(connsIPv4) then [old(connsIPv4)[ufrag]] else []) +
                         (if ufrag in old(connsIPv6) then [old(connsIPv6)[ufrag]] else [])
      ensures connsIPv4 == old(connsIPv4) - {ufrag} && connsIPv6 == old(connsIPv6) - {ufrag}
      ensures Abs() == DetachNext(old(Abs()), ufrag)
    {
      removed := [];
      if ufrag in connsIPv4 {
        removed := removed + [connsIPv4[ufrag]];
        connsIPv4 := connsIPv4 - {ufrag};
      }
      if ufrag in connsIPv6 {
        removed := removed + [connsIPv6[ufrag]];
        connsIPv6 := connsIPv6 - {ufrag};
      }
      if removed != [] {
        removers := removers + multiset{removed};
      }
    }

    /** The section under the address-map lock. */
    method Purge(removed: seq<MuxedConn>)
      requires removed in removers && forall c | c in removed :: c in created
      modifies this`addressMap, this`removers
      ensures Abs() == PurgeNext(old(Abs()), removed)
    {
      DeleteUsed(removed);
      removers := removers - multiset{removed};
    }

    /** Its loop over the removed connections. */
    method DeleteUsed(removed: seq<MuxedConn>)
      requires forall c | c in removed :: c in created
      modifies this`addressMap
      ensures addressMap == old(addressMap) - Used(Table(created), removed)
    {
      ghost var conns := Table(created);
      for i := 0 to |removed|
        invariant Table(created) == conns
        invariant addressMap == old(addressMap) - Used(conns, removed[..i])
      {
        ghost var before := addressMap;
        UsedGrows(conns, removed, i);
        DeleteEntries(removed[i].addresses);
        assert addressMap == before - (set a | a in conns[removed[i]].addresses);
      }
      assert removed[..|removed|] == removed;
    }

    static lemma UsedGrows(conns: map<MuxedConn, Conn>, removed: seq<MuxedConn>, i: nat)
      requires i < |removed| && removed[i] in conns
      ensures Used(conns, removed[..i + 1]) == Used(conns, removed[..i]) + (set a | a in conns[removed[i]].addresses)
    {
      var next := removed[..i + 1];
      assert next == removed[..i] + [removed[i]];
      forall a | a in Used(conns, removed[..i]) || a in conns[removed[i]].addresses
        ensures a in Used(conns, next)
      {
        if a in conns[removed[i]].addresses {
          assert next[i] == removed[i];
        } else {
          var k :| 0 <= k < i && removed[..i][k] in conns && a in conns[removed[..i][k]].addresses;
          assert next[k] == removed[..i][k];
        }
      }
    }

    method DeleteEntries(addresses: seq<string>)
      modifies this`addressMap
      ensures addressMap.Keys == old(addressMap).Keys - (set a | a in addresses)
      ensures forall a | a in addressMap :: addressMap[a] == old(addressMap)[a]
    {
      for j := 0 to |addresses|
        invariant addressMap.Keys == old(addressMap).Keys - (set a | a in addresses[..j])
        invariant forall a | a in addressMap :: addressMap[a] == old(addressMap)[a]
      {
        assert addresses[..j + 1] == addresses[..j] + [addresses[j]];
        addressMap := addressMap - {addresses[j]};
      }
      assert addresses[..|addresses|] == addresses;
    }

    /** Both sections without anything in between. */
    ghost static function RemoveNext(s: State<MuxedConn>, ufrag: string): State<MuxedConn> {
      var removed := Removed(s, ufrag);
      if removed == [] then s else PurgeNext(DetachNext(s, ufrag), removed)
    }

    static lemma RemoveInv(s: State<MuxedConn>, ufrag: string)
      requires Inv(s)
      ensures Inv(RemoveNext(s, ufrag))
    {
      DetachInv(s, ufrag);
      PurgeInv(DetachNext(s, ufrag), Removed(s, ufrag));
    }

    static lemma RemoveEffect(s: State<MuxedConn>, ufrag: string)
      ensures RemoveNext(s, ufrag) ==
              s.(v4 := s.v4 - {ufrag}, v6 := s.v6 - {ufrag},
                 addressMap := s.addressMap - Used(s.conns, Removed(s, ufrag)))
    {
      var removed := Removed(s, ufrag);
      if removed == [] {
        assert s.v4 - {ufrag} == s.v4 && s.v6 - {ufrag} == s.v6;
        assert Used(s.conns, removed) == {};
      } else {
        assert s.removers + multiset{removed} - multiset{removed} == s.removers;
      }
    }

    static lemma RemovedKnown(s: State<MuxedConn>, ufrag: string)
      requires Inv(s)
      ensures forall c | c in Removed(s, ufrag) :: c in s.conns
    {}

    lemma RemovedUse(ufrag: string)
      requires Valid()
      ensures forall a :: a in Used(Abs().conns, Removed(Abs(), ufrag)) <==>
                (ufrag in connsIPv4 && a in connsIPv4[ufrag].addresses) || (ufrag in connsIPv6 && a in connsIPv6[ufrag].addresses)
    {
      var s := Abs();
      forall a
        ensures a in Used(s.conns, Removed(s, ufrag)) <==>
                (ufrag in connsIPv4 && a in connsIPv4[ufrag].addresses) || (ufrag in connsIPv6 && a in connsIPv6[ufrag].addresses)
      {
        UsedIff(s.conns, Removed(s, ufrag), a);
      }
    }

    method RemoveConnByUfrag(ufrag: string)
      requires Valid()
      modifies this`connsIPv4, this`connsIPv6, this`addressMap, this`removers
      ensures Valid()
      ensures Abs() == old(Abs()).(v4 := old(connsIPv4) - {ufrag}, v6 := old(connsIPv6) - {ufrag},
                                   addressMap := old(addressMap) - Used(old(Abs()).conns, Removed(old(Abs()), ufrag)))
      ensures forall a :: a in addressMap <==>
                && a in old(addressMap)
                && !(ufrag in old(connsIPv4) && a in old(connsIPv4)[ufrag].addresses)
                && !(ufrag in old(connsIPv6) && a in old(connsIPv6)[ufrag].addresses)
      ensures forall a | a in addressMap :: addressMap[a] == old(addressMap)[a]
    {
      RemovedUse(ufrag);
      RemoveInv(Abs(), ufrag);
      RemoveEffect(Abs(), ufrag);
      RemovedKnown(Abs(), ufrag);
      var removed := Detach(ufrag);
      if |removed| != 0 {
        Purge(removed);
      }
    }

    /** The watcher of a connection, after the connection was closed. */
    method RunWatcher(c: MuxedConn)
      requires Valid() && c in watchers && c in created && c.closed
      modifies this`connsIPv4, this`connsIPv6, this`addressMap, this`removers, this`watchers
      ensures Valid() && watchers == old(watchers) - {c}
      ensures Abs() == RemoveNext(old(Abs()), c.key)
      ensures connsIPv4 == old(connsIPv4) - {c.key} && connsIPv6 == old(connsIPv6) - {c.key}
    {
      WakeWatched(Watched(Abs(), watchers), c);
      RemoveEffect(Abs(), c.key);
      RemoveConnByUfrag(c.key);
      watchers := watchers - {c};
    }

    // -------------------------------------------------------------- Close

    method CloseAll(conns: set<MuxedConn>)
      modifies conns`closed
      ensures forall c | c in conns :: c.closed
    {
      var todo := conns;
      while todo != {}
        invariant todo <= conns
        invariant forall c | c in conns && c !in todo :: c.closed
      {
        var c :| c in todo;
        c.closed := true;
        todo := todo - {c};
      }
    }

    method Close()
      requires Valid()
      modifies this`connsIPv4, this`connsIPv6, this`closed, connsIPv4.Values`closed, connsIPv6.Values`closed
      ensures Valid() && Abs() == CloseMuxNext(old(Abs()))
      ensures closed && connsIPv4 == map[] && connsIPv6 == map[] && addressMap == old(addressMap)
      ensures forall c | c in created ::
                c.closed == (old(c.closed) || (!old(closed) && (c in old(connsIPv4).Values || c in old(connsIPv6).Values)))
    {
      CloseMuxInv(Abs());
      if !closed {
        CloseOpen();
      }
    }

    /** The two loops of `Close`. */
    method CloseRegistered()
      modifies connsIPv4.Values`closed, connsIPv6.Values`closed
      ensures Table(created) == ClosedTable(old(Table(created)), connsIPv4, connsIPv6)
      ensures forall c | c in connsIPv4.Values || c in connsIPv6.Values :: c.closed
    {
      ghost var table := Table(created);
      CloseAll(connsIPv4.Values);
      CloseAll(connsIPv6.Values);
      ghost var table' := ClosedTable(table, connsIPv4, connsIPv6);
      assert Table(created).Keys == table'.Keys;
      assert forall c | c in created :: Table(created)[c] == table'[c];
    }

    /** The body that `closeOnce` runs the first time. */
    method CloseOpen()
      requires !closed
      modifies this`connsIPv4, this`connsIPv6, this`closed, connsIPv4.Values`closed, connsIPv6.Values`closed
      ensures Abs() == CloseMuxNext(old(Abs()))
      ensures closed && connsIPv4 == map[] && connsIPv6 == map[]
      ensures forall c | c in old(connsIPv4).Values || c in old(connsIPv6).Values :: c.closed
    {
      CloseRegistered();
      ghost var table := Table(created);
      connsIPv4, connsIPv6 := map[], map[];
      closed := true;
      assert Table(created) == table;
    }

    method CloseConn(c: MuxedConn)
      requires Valid() && c in created
      modifies c`closed
      ensures Valid() && Abs() == CloseConnNext(old(Abs()), c) && c.closed
    {
      ghost var s := Abs();
      CloseConnInv(s, c);
      c.closed := true;
      assert Abs().conns == s.conns[c := s.conns[c].(closed := true)];
    }

    // -------------------------------------------------------------- WriteTo

    method BeginWrite(c: MuxedConn, addr: string) returns (open: bool)
      requires c in created
      modifies this`writers
      ensures open == !c.closed
      ensures Abs() == BeginWriteNext(old(Abs()), c, addr)
    {
      open := !c.closed;
      if open {
        writers := Join(writers, Opened(c, addr));
      }
    }

    method CheckAddr(c: MuxedConn, addr: string) returns (found: bool)
      requires c in created && Opened(c, addr) in writers
      modifies this`writers
      ensures found == (addr in c.addresses)
      ensures Abs() == CheckAddrNext(old(Abs()), c, addr)
    {
      found := c.ContainsAddress(addr);
      writers := Leave(writers, Opened(c, addr));
      if !found {
        writers := Join(writers, Missing(c, addr));
      }
    }

    /** The first half of `addAddress`, under the connection's lock. */
    method Append(c: MuxedConn, addr: string)
      requires c in created && Missing(c, addr) in writers
      modifies this`writers, c`addresses
      ensures Abs() == AppendNext(old(Abs()), c, addr)
      ensures c.addresses == old(c.addresses) + [addr]
    {
      ghost var table := Table(created);
      c.addresses := c.addresses + [addr];
      writers := Join(Leave(writers, Missing(c, addr)), Added(c, addr));
      assert Table(created) == table[c := table[c].(addresses := c.addresses)];
    }

    /** The `IsClosed` test of `registerConnForAddress`. */
    method CheckMux(c: MuxedConn, addr: string) returns (open: bool)
      requires Added(c, addr) in writers
      modifies this`writers
      ensures open == !closed
      ensures Abs() == CheckMuxNext(old(Abs()), c, addr)
    {
      open := !closed;
      writers := Leave(writers, Added(c, addr));
      if open {
        writers := Join(writers, Registering(c, addr));
      }
    }

    /** The section of `registerConnForAddress` under the address-map lock. */
    method Register(c: MuxedConn, addr: string)
      requires Registering(c, addr) in writers
      modifies this`writers, this`addressMap
      ensures Abs() == RegisterNext(old(Abs()), c, addr)
      ensures addressMap == old(addressMap)[addr := (if addr in old(addressMap) then old(addressMap)[addr] else []) + [c]]
    {
      var existing := if addr in addressMap then addressMap[addr] else [];
      addressMap := addressMap[addr := existing + [c]];
      writers := Leave(writers, Registering(c, addr));
    }

    /** `socket` is what the socket makes of the datagram: the address is registered before that is known. */
    method WriteTo(c: MuxedConn, addr: string, socket: Outcome<nat>) returns (r: Outcome<nat>)
      requires Valid() && c in created
      modifies this`writers, this`addressMap, c`addresses
      ensures Valid() && Abs() == Written(old(Abs()), c, addr)
      ensures c.addresses == old(c.addresses) + if !c.closed && addr !in old(c.addresses) then [addr] else []
      ensures addressMap ==
              if !c.closed && !closed && addr !in old(c.addresses)
              then old(addressMap)[addr := (if addr in old(addressMap) then old(addressMap)[addr] else []) + [c]]
              else old(addressMap)
      ensures r == if c.closed then ClosedPipe else socket
    {
      WrittenInv(Abs(), c, addr);
      r := WriteSections(c, addr, socket);
    }

    /** The sections of `WriteTo`, one after the other. */
    method WriteSections(c: MuxedConn, addr: string, socket: Outcome<nat>) returns (r: Outcome<nat>)
      requires c in created
      modifies this`writers, this`addressMap, c`addresses
      ensures Abs() == Written(old(Abs()), c, addr)
      ensures c.addresses == old(c.addresses) + if !c.closed && addr !in old(c.addresses) then [addr] else []
      ensures addressMap ==
              if !c.closed && !closed && addr !in old(c.addresses)
              then old(addressMap)[addr := (if addr in old(addressMap) then old(addressMap)[addr] else []) + [c]]
              else old(addressMap)
      ensures r == if c.closed then ClosedPipe else socket
    {
      ghost var ws := writers;
      var open := BeginWrite(c, addr);
      if !open {
        return ClosedPipe;
      }
      JoinThenLeave(ws, Opened(c, addr));
      var found := CheckAddr(c, addr);
      if !found {
        AddAddress(c, addr, ws);
      }
      return socket;
    }

    /** `addAddress`: list the address, then tell the mux. */
    method AddAddress(c: MuxedConn, addr: string, ghost ws: multiset<Writer<MuxedConn>>)
      requires c in created && writers == Join(ws, Missing(c, addr))
      requires !c.closed && addr !in c.addresses
      modifies this`writers, this`addressMap, c`addresses
      ensures Abs() == Written(old(Abs()).(writers := ws), c, addr)
      ensures c.addresses == old(c.addresses) + [addr]
      ensures addressMap == if closed then old(addressMap)
                            else old(addressMap)[addr := (if addr in old(addressMap) then old(addressMap)[addr] else []) + [c]]
    {
      JoinThenLeave(ws, Missing(c, addr));
      Append(c, addr);
      JoinThenLeave(ws, Added(c, addr));
      var muxOpen := CheckMux(c, addr);
      if muxOpen {
        JoinThenLeave(ws, Registering(c, addr));
        Register(c, addr);
      }
    }

    // -------------------------------------------------------------- HandleSTUNMessage

    /** The connections stored for an address. */
    function Entry(addr: string): (entry: seq<MuxedConn>)
      reads this`addressMap
      ensures addr in addressMap ==> entry == addressMap[addr]
      ensures addr !in addressMap ==> entry == []
    {
      if addr in addressMap then addressMap[addr] else []
    }

    /** The registered connection that USERNAME names, unless one that is stored for the source has its key. */
    ghost function Named(addr: string, isIPv6: bool, username: Option<string>): (own: Option<MuxedConn>)
      reads this`connsIPv4, this`connsIPv6, this`addressMap
      ensures own.Some? <==>
              && username.Some? && UfragOf(username.value) in (if isIPv6 then connsIPv6 else connsIPv4)
              && forall d | d in Entry(addr) :: d.key != UfragOf(username.value)
      ensures own.Some? ==> own.value == (if isIPv6 then connsIPv6 else connsIPv4)[UfragOf(username.value)]
    {
      if username.None? then None
      else
        var u, conns := UfragOf(username.value), if isIPv6 then connsIPv6 else connsIPv4;
        if u in conns && forall d | d in Entry(addr) :: d.key != u then Some(conns[u]) else None
    }

    method FindDestinations(addr: string, isIPv6: bool, username: Option<string>) returns (dest: seq<MuxedConn>)
      requires Valid()
      ensures dest == Destinations(Abs(), Abs(), addr, isIPv6, username)
      ensures dest == Entry(addr) + if Named(addr, isIPv6, username).Some? then [Named(addr, isIPv6, username).value] else []
      ensures forall c | c in dest :: c in created
    {
      dest := if addr in addressMap then addressMap[addr] else [];
      StoredKnown(Abs(), addr);
      assert dest == Stored(Abs(), addr);
      if username.Some? {
        var ufrag := UfragOf(username.value);
        var conns := if isIPv6 then connsIPv6 else connsIPv4;
        if ufrag in conns {
          var own := conns[ufrag];
          assert own in created && Abs().conns[own].key == own.key;
          var found := false;
          for i := 0 to |dest|
            invariant !found <==> forall k | 0 <= k < i :: dest[k].key != own.key
          {
            found := found || dest[i].key == own.key;
          }
          forall k | 0 <= k < |dest|
            ensures SameKey(Abs(), dest[k], own) <==> dest[k].key == own.key
          {
            assert dest[k] in Abs().conns;
          }
          if !found {
            assert forall d | d in dest :: !SameKey(Abs(), d, own);
            dest := dest + [own];
          } else {
            ghost var k :| 0 <= k < |dest| && dest[k].key == own.key;
            assert dest[k] in dest && SameKey(Abs(), dest[k], own);
          }
        }
      }
    }

    /** `framed` says whether the message fits a pool buffer, `room` how many copies a connection's buffer still takes.
        A connection gains one copy for each time it is stored for the source, and one if it is the one that is named,
        behind what it had and as far as there is room; so everybody stored for the source gets the message, and so does
        the named connection, in whose place one with its key may stand. */
    method HandleSTUNMessage(raw: seq<Byte>, addr: string, isUdp: bool, isIPv6: bool, username: Option<string>,
                             framed: bool, room: MuxedConn -> nat)
      returns (r: Outcome<()>)
      requires Valid()
      modifies created`inbox
      ensures Valid() && Abs() == old(Abs())
      ensures r == (if isUdp then Ok(()) else NotUdp)
      ensures forall c | c in created ::
                var copies := multiset(Entry(addr))[c] + if Named(addr, isIPv6, username) == Some(c) then 1 else 0;
                && old(c.inbox) <= c.inbox
                && (forall i | |old(c.inbox)| <= i < |c.inbox| :: c.inbox[i] == Datagram(raw, addr))
                && |c.inbox| - |old(c.inbox)| ==
                   if !isUdp || !framed || c.closed then 0 else if copies <= room(c) then copies else room(c)
      ensures isUdp && framed ==> forall c | c in Entry(addr) && !c.closed && room(c) > 0 :: Datagram(raw, addr) in c.inbox
      ensures isUdp && framed && Named(addr, isIPv6, username).Some? ==>
                var own := Named(addr, isIPv6, username).value;
                !own.closed && room(own) > 0 ==> Datagram(raw, addr) in own.inbox
    {
      if !isUdp {
        return NotUdp;
      }
      var dest := FindDestinations(addr, isIPv6, username);
      Deliver(dest, Datagram(raw, addr), framed, room);
      return Ok(());
    }

    static lemma NoCopies(packet: Datagram)
      ensures forall inbox: seq<Datagram> :: inbox + Copies(0, packet) == inbox
    {
      forall inbox: seq<Datagram>
        ensures inbox + Copies(0, packet) == inbox
      {
        assert Copies(0, packet) == [];
      }
    }

    /** The forwarding loop, and what it leaves alone. */
    method Deliver(dest: seq<MuxedConn>, packet: Datagram, framed: bool, room: MuxedConn -> nat)
      requires forall c | c in dest :: c in created
      modifies created`inbox
      ensures Abs() == old(Abs())
      ensures forall c | c in created ::
                && old(c.inbox) <= c.inbox
                && (forall i | |old(c.inbox)| <= i < |c.inbox| :: c.inbox[i] == packet)
                && |c.inbox| - |old(c.inbox)| ==
                   if !framed || c.closed then 0 else if multiset(dest)[c] <= room(c) then multiset(dest)[c] else room(c)
      ensures forall c | c in dest && framed && !c.closed && room(c) > 0 :: packet in c.inbox
    {
      NoCopies(packet);
      Forward(dest, packet, framed, room);
      forall c | c in dest && framed && !c.closed && room(c) > 0
        ensures packet in c.inbox
      {
        assert multiset(dest)[c] > 0;
        assert c.inbox[|c.inbox| - 1] == packet;
      }
    }

    /** The forwarding loop. */
    method Forward(dest: seq<MuxedConn>, packet: Datagram, framed: bool, room: MuxedConn -> nat)
      modifies (set c | c in dest)`inbox
      ensures forall c | c in dest ::
                c.inbox == old(c.inbox) + Copies(Accepted(multiset(dest)[c], framed, c.closed, room(c)), packet)
    {
      for i := 0 to |dest|
        invariant forall c | c in dest ::
                    c.inbox == old(c.inbox) + Copies(Accepted(multiset(dest[..i])[c], framed, c.closed, room(c)), packet)
      {
        assert dest[..i + 1] == dest[..i] + [dest[i]];
        label before:
        var full := multiset(dest[..i])[dest[i]] >= room(dest[i]);
        var ok := dest[i].WritePacket(packet, framed, full);
        forall c | c in dest
          ensures c.inbox == old(c.inbox) + Copies(Accepted(multiset(dest[..i + 1])[c], framed, c.closed, room(c)), packet)
        {
          if c == dest[i] && ok {
            var n := multiset(dest[..i])[c];
            assert Copies(n, packet) + [packet] == Copies(n + 1, packet);
            assert c.inbox == old@before(c.inbox) + [packet];
          } else {
            assert c.inbox == old@before(c.inbox);
          }
        }
      }
      assert dest[..|dest|] == dest;
    }
  }
}
