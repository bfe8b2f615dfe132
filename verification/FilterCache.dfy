/**
 The socket wrapper `udpConn` (iface/bind/udp_mux_universal.go) as a class.  Its methods `Load`, `Ask` and `Store` are
 the steps of `FilterModel`; `WriteTo` takes them one after the other.
 */
module FilterCache {
  import opened Wrappers
  import opened FilterModel

  class UdpConn {
    const parser: Parser
    /** None without a filter; otherwise what the filter says at the moment. */
    var filter: Option<Filter>
    var addrCache: map<string, bool>
    ghost var writers: multiset<Writer>
    ghost var stores: seq<Stored>
    ghost var decisions: seq<Decision>

    ghost function Abs(): State
      reads this
    {
      State(parser, filter, addrCache, writers, stores, decisions)
    }

    ghost predicate Valid()
      reads this
    {
      Inv(Abs())
    }

    constructor (parser: Parser, filter: Option<Filter>)
      ensures Valid() && Abs() == Init(parser, filter)
    {
      this.parser, this.filter := parser, filter;
      addrCache, writers, stores, decisions := map[], multiset{}, [], [];
    }

    /** The routes change outside this type, and the cache is not reset. */
    method ChangeRoutes(f: Filter)
      modifies this`filter
      ensures Abs() == RoutesNext(old(Abs()), f)
    {
      if filter.Some? {
        filter := Some(f);
      }
    }

    /** The look into the cache: whether the write is passed on, or None if the filter has to be asked. */
    method Load(addr: string) returns (passed: Option<bool>)
      modifies this`writers, this`decisions
      ensures Abs() == LoadNext(old(Abs()), addr)
      ensures passed.None? ==> Missed(addr) in writers
      ensures passed == if filter.None? then Some(true)
                        else if addr in addrCache then Some(!addrCache[addr]) else None
    {
      if filter.None? {
        passed := Some(true);
      } else if addr in addrCache {
        passed := Some(!addrCache[addr]);
      } else {
        passed := None;
        writers := writers + multiset{Missed(addr)};
      }
      if passed.Some? {
        decisions := decisions + [Decision(addr, passed.value)];
      }
    }

    /** The call of the filter.  An address that does not parse, or on which the filter fails, is passed on and not
        cached. */
    method Ask(addr: string) returns (routed: Option<bool>)
      requires filter.Some? && Missed(addr) in writers
      modifies this`writers, this`decisions
      ensures Abs() == AskNext(old(Abs()), addr)
      ensures routed == Answer(parser, filter.value, addr)
      ensures routed == match parser.hostOf(addr)
                        case None => None
                        case Some(host) =>
                          match parser.parse(host)
                          case None => None
                          case Some(parsed) => filter.value(parsed)
      ensures routed.Some? ==> Answered(addr, routed.value) in writers
    {
      writers := writers - multiset{Missed(addr)};
      routed := None;
      var host := parser.hostOf(addr);
      if host.Some? {
        var parsed := parser.parse(host.value);
        if parsed.Some? {
          routed := filter.value(parsed.value);
        }
      }
      if routed.Some? {
        writers := writers + multiset{Answered(addr, routed.value)};
      } else {
        decisions := decisions + [Decision(addr, true)];
      }
    }

    method Store(addr: string, routed: bool) returns (passed: bool)
      requires Answered(addr, routed) in writers
      modifies this`addrCache, this`writers, this`stores, this`decisions
      ensures Abs() == StoreNext(old(Abs()), addr, routed)
      ensures passed == !routed && addrCache == old(addrCache)[addr := routed]
    {
      addrCache := addrCache[addr := routed];
      writers := writers - multiset{Answered(addr, routed)};
      stores := stores + [Stored(addr, routed)];
      decisions := decisions + [Decision(addr, !routed)];
      passed := !routed;
    }

    /** A write that nothing interrupts; `passed` says whether it reaches the socket. */
    method WriteTo(addr: string) returns (passed: bool)
      requires Valid()
      modifies this`addrCache, this`writers, this`stores, this`decisions
      ensures Valid() && Abs() == Written(old(Abs()), addr)
      ensures passed == Passes(old(Abs()), addr)
      ensures decisions == old(decisions) + [Decision(addr, passed)]
      ensures filter.None? ==> passed && addrCache == old(addrCache)
      ensures filter.Some? && addr in old(addrCache) ==> passed == !old(addrCache)[addr] && addrCache == old(addrCache)
      ensures filter.Some? && addr !in old(addrCache) ==>
                var answer := Answer(parser, filter.value, addr);
                && passed == (answer != Some(true))
                && addrCache == if answer.None? then old(addrCache) else old(addrCache)[addr := answer.value]
    {
      WrittenInv(Abs(), addr);
      passed := WriteSections(addr);
    }

    method WriteSections(addr: string) returns (passed: bool)
      modifies this`addrCache, this`writers, this`stores, this`decisions
      ensures Abs() == Written(old(Abs()), addr)
      ensures passed == Passes(old(Abs()), addr)
    {
      ghost var ws := writers;
      var found := Load(addr);
      if found.Some? {
        return found.value;
      }
      assert writers - multiset{Missed(addr)} == ws;
      var routed := Ask(addr);
      if routed.None? {
        return true;
      }
      assert writers - multiset{Answered(addr, routed.value)} == ws;
      passed := Store(addr, routed.value);
    }
  }

  lemma WrittenInv(s: State, a: string)
    requires Inv(s)
    ensures Inv(Written(s, a))
  {
    forall b, x
      ensures LastStored(s.stores + [Stored(a, x)], b) == if b == a then Some(x) else LastStored(s.stores, b)
    {
      LastStoredNext(s.stores, b, Stored(a, x));
    }
  }
}
