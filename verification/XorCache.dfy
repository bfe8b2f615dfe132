/**
 The address cache as classes: `xorMapped` and the part of `UniversalUDPMuxDefault` that uses it.
 Each method is one section under the mux lock and takes the corresponding step of `XorModel`.  The
 clock reading of a section is its parameter `now`.
 */
module XorCache {
  import opened Wrappers
  import opened XorModel

  class XorMapped {
    var addr: Option<string>
    var waitersClosed: bool
    const expiresAt: int
    ghost const server: string
    ghost const createdAt: int
    ghost var addrAt: int
    ghost var closes: nat

    constructor (server: string, now: int, ttl: int)
      ensures addr == None && !waitersClosed && closes == 0 && addrAt == createdAt == now
      ensures this.server == server && expiresAt == now + ttl
    {
      this.server := server;
      createdAt := now;
      addrAt := now;
      expiresAt := now + ttl;
      addr := None;
      waitersClosed := false;
      closes := 0;
    }

    ghost function Value(): Entry
      reads this
    {
      Entry(server, addr, addrAt, waitersClosed, closes, createdAt, expiresAt)
    }

    /** Closing a closed channel panics, hence the precondition. */
    method CloseChannel()
      requires !waitersClosed
      modifies this`waitersClosed, this`closes
      ensures waitersClosed && closes == old(closes) + 1
    {
      waitersClosed := true;
      closes := closes + 1;
    }

    method CloseWaiters()
      modifies this`waitersClosed, this`closes
      ensures Value() == XorModel.CloseWaiters(old(Value()))
      ensures waitersClosed && closes == old(closes) + if old(waitersClosed) then 0 else 1
    {
      if !waitersClosed {
        CloseChannel();
      }
    }

    method SetAddr(a: string, ghost now: int)
      modifies this`addr, this`addrAt, this`waitersClosed, this`closes
      ensures Value() == XorModel.CloseWaiters(old(Value()).(addr := Some(a), addrAt := now))
      ensures addr == Some(a) && addrAt == now && waitersClosed
    {
      addr := Some(a);
      addrAt := now;
      CloseWaiters();
    }
  }

  class Cache {
    const ttl: int
    var xorMappedMap: map<string, XorMapped>
    ghost var now: int
    ghost var created: set<XorMapped>
    ghost var callers: multiset<Caller<XorMapped>>
    ghost var log: set<Response>
    ghost var answers: set<Answer>

    static ghost function Table(created: set<XorMapped>): map<XorMapped, Entry>
      reads created
    {
      map e | e in created :: e.Value()
    }

    ghost function Abs(): State<XorMapped>
      reads this, created
    {
      State(ttl, now, Table(created), xorMappedMap, callers, log, answers)
    }

    ghost predicate Valid()
      reads this, created
    {
      Inv(Abs())
    }

    constructor (ttl: int, ghost now: int)
      ensures Abs() == Init<XorMapped>(if ttl == 0 then 25_000_000_000 else ttl, now) && Valid()
    {
      // nanoseconds; a zero time to live stands for 25 seconds
      this.ttl := if ttl == 0 then 25_000_000_000 else ttl;
      xorMappedMap := map[];
      this.now := now;
      created, callers, log, answers := {}, multiset{}, {}, {};
      new;
      assert Abs() == Init<XorMapped>(this.ttl, now);
    }

    /** The clock only moves on. */
    static lemma TickInv(s: State<XorMapped>, now: int)
      requires Inv(s) && s.now <= now
      ensures Inv(s.(now := now))
    {
      NextInv(s, Tick(now - s.now));
    }

    /** The first section of `GetXORMappedAddr`: the entry to answer from, or nothing if a request is due. */
    method LookUp(server: string, now: int) returns (hit: Option<XorMapped>)
      requires Valid() && this.now <= now
      modifies this`now, this`xorMappedMap, this`callers, created`waitersClosed, created`closes
      ensures Valid() && Abs() == LookupNext(old(Abs()).(now := now), server)
      ensures hit.Some? ==> Hit(server, hit.value, now) in callers
      ensures hit.Some? <==> server in old(xorMappedMap) && now <= old(xorMappedMap)[server].expiresAt
                             && old(xorMappedMap)[server].addr.Some?
      ensures hit.Some? ==> hit.value == old(xorMappedMap)[server]
      ensures if server in old(xorMappedMap) && old(xorMappedMap)[server].expiresAt < now
              then xorMappedMap == old(xorMappedMap) - {server} && old(xorMappedMap)[server].waitersClosed
              else xorMappedMap == old(xorMappedMap)
    {
      TickInv(Abs(), now);
      LookupInv(Abs().(now := now), server);
      this.now := now;
      hit := LookUpLocked(server, now);
    }

    method LookUpLocked(server: string, now: int) returns (hit: Option<XorMapped>)
      requires now == this.now && (server in xorMappedMap ==> xorMappedMap[server] in created)
      modifies this`xorMappedMap, this`callers, created`waitersClosed, created`closes
      ensures Abs() == LookupNext(old(Abs()), server)
      ensures hit.Some? ==> Hit(server, hit.value, now) in callers
      ensures hit.Some? <==> server in old(xorMappedMap) && now <= old(xorMappedMap)[server].expiresAt
                             && old(xorMappedMap)[server].addr.Some?
      ensures hit.Some? ==> hit.value == old(xorMappedMap)[server]
      ensures if server in old(xorMappedMap) && old(xorMappedMap)[server].expiresAt < now
              then xorMappedMap == old(xorMappedMap) - {server} && old(xorMappedMap)[server].waitersClosed
              else xorMappedMap == old(xorMappedMap)
    {
      if server !in xorMappedMap {
        callers := callers + multiset{Missed(server)};
        return None;
      }
      var e := xorMappedMap[server];
      if e.expiresAt < now {
        DropExpired(server);
        callers := callers + multiset{Missed(server)};
        return None;
      } else if e.addr.None? {
        callers := callers + multiset{Missed(server)};
        return None;
      }
      callers := callers + multiset{Hit(server, e, now)};
      return Some(e);
    }

    /** Wake the waiters of an expired entry and drop it. */
    method DropExpired(server: string)
      requires server in xorMappedMap && xorMappedMap[server] in created
      modifies this`xorMappedMap, created`waitersClosed, created`closes
      ensures Abs() == Expire(old(Abs()), server)
      ensures xorMappedMap == old(xorMappedMap) - {server} && old(xorMappedMap)[server].waitersClosed
    {
      ghost var table := Table(created);
      var e := xorMappedMap[server];
      e.CloseWaiters();
      xorMappedMap := xorMappedMap - {server};
      assert Table(created) == table[e := XorModel.CloseWaiters(table[e])];
    }

    /** The read of the address after the lock was released. */
    method ReadHit(server: string, e: XorMapped, ghost at: int) returns (addr: string)
      requires Valid() && Hit(server, e, at) in callers
      modifies this`callers, this`answers
      ensures Valid() && Abs() == ReadHitNext(old(Abs()), server, e, at)
      ensures e.addr == Some(addr) && Answer(server, addr, e.addrAt, Some(at)) in answers
    {
      ReadHitInv(Abs(), server, e, at);
      assert CallerOk(Abs(), Hit(server, e, at));
      addr := e.addr.value;
      callers := callers - multiset{Hit(server, e, at)};
      answers := answers + {Answer(server, addr, e.addrAt, Some(at))};
    }

    /** The entry of the server, created if there is none. */
    method EnsureEntry(server: string, now: int) returns (e: XorMapped)
      requires now == this.now
      modifies this`xorMappedMap, this`created
      ensures server in xorMappedMap && xorMappedMap[server] == e
      ensures if server in old(xorMappedMap) then e == old(xorMappedMap)[server]
              else fresh(e) && e.addr.None? && !e.waitersClosed && e.expiresAt == now + ttl
      ensures xorMappedMap == old(xorMappedMap)[server := e]
      ensures Abs() == XorModel.EnsureEntry(old(Abs()), server, e)
    {
      if server in xorMappedMap {
        return xorMappedMap[server];
      }
      ghost var table := Table(created);
      e := new XorMapped(server, now, ttl);
      xorMappedMap := xorMappedMap[server := e];
      created := created + {e};
      assert Table(created) == table[e := Entry(server, None, now, false, 0, now, now + ttl)];
    }

    /** `sendSTUN`; `sent` says whether the request went out.  The result is the entry to wait on. */
    method SendSTUN(server: string, now: int, sent: bool) returns (wait: Option<XorMapped>)
      requires Valid() && this.now <= now && Missed(server) in callers
      modifies this`now, this`xorMappedMap, this`callers, this`created
      ensures Valid() && server in xorMappedMap
      ensures server in old(xorMappedMap) ==> xorMappedMap == old(xorMappedMap)
      ensures server !in old(xorMappedMap) ==>
                var e := xorMappedMap[server];
                && xorMappedMap == old(xorMappedMap)[server := e] && fresh(e)
                && e.addr.None? && !e.waitersClosed && e.expiresAt == now + ttl
      ensures Abs() == SendNext(old(Abs()).(now := now), server, xorMappedMap[server], sent)
      ensures wait == (if sent then Some(xorMappedMap[server]) else None)
    {
      ghost var s := Abs().(now := now);
      TickInv(Abs(), now);
      wait := SendLocked(server, now, sent);
      SendInv(s, server, xorMappedMap[server], sent);
    }

    static lemma SendShape(s: State<XorMapped>, server: string, e: XorMapped, sent: bool)
      requires Missed(server) in s.callers
      requires if server in s.table then s.table[server] == e else e !in s.entries
      ensures SendNext(s, server, e, sent) ==
              XorModel.EnsureEntry(s, server, e).(callers :=
                s.callers - multiset{Missed(server)} + (if sent then multiset{Waiting(server, e)} else multiset{}))
    {}

    method SendLocked(server: string, now: int, sent: bool) returns (wait: Option<XorMapped>)
      requires Missed(server) in callers
      modifies this`now, this`xorMappedMap, this`callers, this`created
      ensures server in xorMappedMap
      ensures server in old(xorMappedMap) ==> xorMappedMap == old(xorMappedMap)
      ensures server !in old(xorMappedMap) ==>
                var e := xorMappedMap[server];
                && xorMappedMap == old(xorMappedMap)[server := e] && fresh(e)
                && e.addr.None? && !e.waitersClosed && e.expiresAt == now + ttl
      ensures Abs() == SendNext(old(Abs()).(now := now), server, xorMappedMap[server], sent)
      ensures wait == (if sent then Some(xorMappedMap[server]) else None)
    {
      this.now := now;
      ghost var s := Abs();
      var e := EnsureEntry(server, now);
      SendShape(s, server, e, sent);
      callers := callers - multiset{Missed(server)} + (if sent then multiset{Waiting(server, e)} else multiset{});
      wait := if sent then Some(e) else None;
    }

    /** `handleXORMappedResponse`; `addr` is None if the attribute cannot be read. */
    method HandleXORMappedResponse(server: string, addr: Option<string>, now: int) returns (ok: bool)
      requires Valid() && this.now <= now
      modifies this`now, this`log, created
      ensures Valid() && Abs() == RespondNext(old(Abs()).(now := now), server, addr)
      ensures ok == (server in xorMappedMap && addr.Some?)
      ensures ok ==> var e := xorMappedMap[server]; e.addr == addr && e.addrAt == now && e.waitersClosed
      ensures forall e | e in created && !(ok && e == xorMappedMap[server]) :: e.addr == old(e.addr)
    {
      TickInv(Abs(), now);
      RespondInv(Abs().(now := now), server, addr);
      ok := server in xorMappedMap && addr.Some?;
      if ok {
        Store(server, addr.value, now);
      }
      this.now := now;
    }

    method Store(server: string, addr: string, ghost now: int)
      requires server in xorMappedMap && xorMappedMap[server] in created
      modifies this`now, this`log, created
      ensures Abs() == RespondNext(old(Abs()).(now := now), server, Some(addr))
      ensures var e := xorMappedMap[server]; e.addr == Some(addr) && e.addrAt == now && e.waitersClosed
      ensures forall e | e in created && e != xorMappedMap[server] :: e.addr == old(e.addr)
    {
      ghost var table := Table(created);
      var e := xorMappedMap[server];
      e.SetAddr(addr, now);
      this.now := now;
      log := log + {Response(server, addr, now)};
      assert Table(created) == table[e := XorModel.CloseWaiters(table[e].(addr := Some(addr), addrAt := now))];
    }

    /** The section of `GetXORMappedAddr` after its channel was closed. */
    method ReadWoken(server: string, e: XorMapped) returns (addr: Option<string>)
      requires Valid() && Waiting(server, e) in callers && e.waitersClosed
      modifies this`callers, this`answers
      ensures Valid() && Abs() == WakeNext(old(Abs()), server, e)
      ensures addr == if server in xorMappedMap then xorMappedMap[server].addr else None
      ensures addr.Some? <==> Current(old(Abs()), server).Some?
      ensures addr.Some? ==> Answer(server, addr.value, xorMappedMap[server].addrAt, None) in answers
    {
      WakeInv(Abs(), server, e);
      callers := callers - multiset{Waiting(server, e)};
      addr := None;
      if server in xorMappedMap {
        addr := xorMappedMap[server].addr;
      }
      if addr.Some? {
        answers := answers + {Answer(server, addr.value, xorMappedMap[server].addrAt, None)};
      }
    }
  }
}
