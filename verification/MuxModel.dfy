/**
 The ICE UDP multiplexer as a state machine over its lock sections.

 `UDPMuxDefault` (iface/bind/udp_mux.go) and `udpMuxedConn` (iface/bind/udp_muxed_conn.go)
 take three kinds of lock: the mux lock over the two ufrag maps, the address-map lock, and one
 lock per connection.  No operation holds its locks throughout, so a run is a sequence of lock
 sections of different goroutines in any order.  Every `Step` below is one such section; a
 `WriteTo` or a `RemoveConnByUfrag` that has finished some but not all of its sections is kept
 in `writers` or `removers`.

 `C` is the identity of a connection (a reference in the source).
 */
module MuxModel {

  datatype Conn = Conn(key: string, addresses: seq<string>, closed: bool)

  /** A `WriteTo` in flight, named after the last section it completed. */
  datatype Writer<C> =
    | Opened(conn: C, addr: string)       // isClosed() was false
    | Missing(conn: C, addr: string)      // containsAddress() was false
    | Added(conn: C, addr: string)        // appended to the connection's list
    | Registering(conn: C, addr: string)  // the mux was not closed; about to take the address-map lock

  datatype State<C> = State(
    conns: map<C, Conn>,
    v4: map<string, C>,
    v6: map<string, C>,
    addressMap: map<string, seq<C>>,
    muxClosed: bool,
    writers: multiset<Writer<C>>,
    removers: multiset<seq<C>>)

  datatype Step<C> =
    | GetConn(ufrag: string, isIPv6: bool, conn: C)
    | Detach(ufrag: string)
    | Purge(removed: seq<C>)
    | CloseConn(conn: C)
    | CloseMux
    | BeginWrite(conn: C, addr: string)
    | CheckAddr(conn: C, addr: string)
    | Append(conn: C, addr: string)
    | CheckMux(conn: C, addr: string)
    | Register(conn: C, addr: string)

  ghost function Init<C>(): State<C> {
    State(map[], map[], map[], map[], false, multiset{}, multiset{})
  }

  // ---------------------------------------------------------------- the sections

  /** One occurrence of `w` leaves the writers in flight. */
  ghost function Leave<C>(ws: multiset<Writer<C>>, w: Writer<C>): multiset<Writer<C>>
    requires w in ws
  {
    ws[w := ws[w] - 1]
  }

  /** One occurrence of `w` joins the writers in flight. */
  ghost function Join<C>(ws: multiset<Writer<C>>, w: Writer<C>): multiset<Writer<C>> {
    ws[w := ws[w] + 1]
  }

  ghost function GetConnNext<C>(s: State<C>, u: string, isIPv6: bool, c: C): State<C> {
    if s.muxClosed || c in s.conns || u in (if isIPv6 then s.v6 else s.v4) then s
    else if isIPv6 then s.(conns := s.conns[c := Conn(u, [], false)], v6 := s.v6[u := c])
    else s.(conns := s.conns[c := Conn(u, [], false)], v4 := s.v4[u := c])
  }

  /** The connections the first section of `RemoveConnByUfrag` takes out, IPv4 before IPv6. */
  ghost function Removed<C>(s: State<C>, u: string): seq<C> {
    (if u in s.v4 then [s.v4[u]] else []) + (if u in s.v6 then [s.v6[u]] else [])
  }

  ghost function DetachNext<C>(s: State<C>, u: string): State<C> {
    var removed := Removed(s, u);
    if removed == [] then s
    else s.(v4 := s.v4 - {u}, v6 := s.v6 - {u}, removers := s.removers + multiset{removed})
  }

  /** Every address that some connection in `cs` has sent to. */
  ghost function Used<C>(conns: map<C, Conn>, cs: seq<C>): set<string> {
    set i, a | 0 <= i < |cs| && cs[i] in conns && a in conns[cs[i]].addresses :: a
  }

  ghost function PurgeNext<C>(s: State<C>, removed: seq<C>): State<C> {
    if removed !in s.removers then s
    else s.(addressMap := s.addressMap - Used(s.conns, removed), removers := s.removers - multiset{removed})
  }

  ghost function CloseConnNext<C>(s: State<C>, c: C): State<C> {
    if c !in s.conns then s
    else s.(conns := s.conns[c := s.conns[c].(closed := true)])
  }

  ghost predicate Registered<C>(s: State<C>, c: C) {
    c in s.v4.Values || c in s.v6.Values
  }

  ghost function ClosedTable<C>(conns: map<C, Conn>, v4: map<string, C>, v6: map<string, C>): map<C, Conn> {
    map c | c in conns :: if c in v4.Values || c in v6.Values then conns[c].(closed := true) else conns[c]
  }

  ghost function CloseMuxNext<C>(s: State<C>): State<C> {
    if s.muxClosed then s
    else s.(conns := ClosedTable(s.conns, s.v4, s.v6), v4 := map[], v6 := map[], muxClosed := true)
  }

  ghost function BeginWriteNext<C>(s: State<C>, c: C, a: string): State<C> {
    if c !in s.conns || s.conns[c].closed then s
    else s.(writers := Join(s.writers, Opened(c, a)))
  }

  ghost function CheckAddrNext<C>(s: State<C>, c: C, a: string): State<C> {
    if Opened(c, a) !in s.writers || c !in s.conns then s
    else if a in s.conns[c].addresses then s.(writers := Leave(s.writers, Opened(c, a)))
    else s.(writers := Join(Leave(s.writers, Opened(c, a)), Missing(c, a)))
  }

  ghost function AppendNext<C>(s: State<C>, c: C, a: string): State<C> {
    if Missing(c, a) !in s.writers || c !in s.conns then s
    else s.(conns := s.conns[c := s.conns[c].(addresses := s.conns[c].addresses + [a])],
            writers := Join(Leave(s.writers, Missing(c, a)), Added(c, a)))
  }

  ghost function CheckMuxNext<C>(s: State<C>, c: C, a: string): State<C> {
    if Added(c, a) !in s.writers then s
    else if s.muxClosed then s.(writers := Leave(s.writers, Added(c, a)))
    else s.(writers := Join(Leave(s.writers, Added(c, a)), Registering(c, a)))
  }

  /** The connections stored for an address, none if it has no entry. */
  ghost function Stored<C>(s: State<C>, a: string): seq<C> {
    if a in s.addressMap then s.addressMap[a] else []
  }

  ghost function RegisterNext<C>(s: State<C>, c: C, a: string): State<C> {
    if Registering(c, a) !in s.writers then s
    else s.(addressMap := s.addressMap[a := Stored(s, a) + [c]],
            writers := Leave(s.writers, Registering(c, a)))
  }

  /** One section; a section that is not enabled leaves the state as it is. */
  ghost function Next<C>(s: State<C>, step: Step<C>): State<C> {
    match step
    case GetConn(u, isIPv6, c) => GetConnNext(s, u, isIPv6, c)
    case Detach(u) => DetachNext(s, u)
    case Purge(removed) => PurgeNext(s, removed)
    case CloseConn(c) => CloseConnNext(s, c)
    case CloseMux => CloseMuxNext(s)
    case BeginWrite(c, a) => BeginWriteNext(s, c, a)
    case CheckAddr(c, a) => CheckAddrNext(s, c, a)
    case Append(c, a) => AppendNext(s, c, a)
    case CheckMux(c, a) => CheckMuxNext(s, c, a)
    case Register(c, a) => RegisterNext(s, c, a)
  }

  ghost function Run<C>(s: State<C>, steps: seq<Step<C>>): State<C>
    decreases |steps|
  {
    if steps == [] then s else Run(Next(s, steps[0]), steps[1..])
  }

  // ---------------------------------------------------------------- the invariant

  ghost predicate KeysMatch<C>(s: State<C>) {
    && (forall u | u in s.v4 :: s.v4[u] in s.conns && s.conns[s.v4[u]].key == u)
    && (forall u | u in s.v6 :: s.v6[u] in s.conns && s.conns[s.v6[u]].key == u)
    && (forall u | u in s.v4 && u in s.v6 :: s.v4[u] != s.v6[u])
  }

  ghost predicate Known<C>(s: State<C>) {
    && (forall a, c | a in s.addressMap && c in s.addressMap[a] :: c in s.conns)
    && (forall w | w in s.writers :: w.conn in s.conns)
  }

  /** Every removal in flight holds connections that are in neither ufrag map any more. */
  ghost predicate Detached<C>(s: State<C>) {
    forall r, c | r in s.removers && c in r :: c in s.conns && !Registered(s, c)
  }

  /** How often `c` is stored for `a`. */
  ghost function Listed<C>(s: State<C>, a: string, c: C): nat {
    multiset(Stored(s, a))[c]
  }

  /** How many writes of `c` to `a` have appended `a` and not yet told the mux. */
  ghost function Owed<C>(s: State<C>, a: string, c: C): nat {
    s.writers[Added(c, a)] + s.writers[Registering(c, a)]
  }

  ghost function Sent<C>(s: State<C>, a: string, c: C): nat
    requires c in s.conns
  {
    multiset(s.conns[c].addresses)[a]
  }

  /** Each stored copy of a connection, and each one still to be stored, is paid for by one
      occurrence of the address in the connection's own list. */
  ghost predicate BalancedAt<C>(s: State<C>, c: C, a: string)
    requires c in s.conns
  {
    Listed(s, a, c) + Owed(s, a, c) <= Sent(s, a, c)
  }

  ghost predicate Balanced<C>(s: State<C>) {
    forall c, a | c in s.conns :: BalancedAt(s, c, a)
  }

  ghost predicate Inv<C>(s: State<C>) {
    KeysMatch(s) && Known(s) && Detached(s) && Balanced(s)
  }

  lemma GetConnInv<C>(s: State<C>, u: string, isIPv6: bool, c: C)
    requires Inv(s)
    ensures Inv(GetConnNext(s, u, isIPv6, c))
  {
    var t := GetConnNext(s, u, isIPv6, c);
    assert KeysMatch(t) && Known(t) && Detached(t);
    forall d, b | d in t.conns
      ensures BalancedAt(t, d, b)
    {
      if d in s.conns {
        assert BalancedAt(s, d, b);
      } else {
        assert d !in Stored(s, b);
        assert Added(d, b) !in s.writers && Registering(d, b) !in s.writers;
      }
    }
  }

  lemma DetachShape<C>(s: State<C>, u: string)
    requires Inv(s)
    ensures KeysMatch(DetachNext(s, u)) && Known(DetachNext(s, u)) && Detached(DetachNext(s, u))
  {}

  lemma DetachBalanced<C>(s: State<C>, u: string, d: C, b: string)
    requires d in DetachNext(s, u).conns && d in s.conns && BalancedAt(s, d, b)
    ensures BalancedAt(DetachNext(s, u), d, b)
  {}

  lemma DetachInv<C>(s: State<C>, u: string)
    requires Inv(s)
    ensures Inv(DetachNext(s, u))
  {
    DetachShape(s, u);
    forall d, b | d in DetachNext(s, u).conns
      ensures BalancedAt(DetachNext(s, u), d, b)
    {
      assert d in s.conns && BalancedAt(s, d, b);
      DetachBalanced(s, u, d, b);
    }
  }

  lemma PurgeInv<C>(s: State<C>, removed: seq<C>)
    requires Inv(s)
    ensures Inv(PurgeNext(s, removed))
  {
    var t := PurgeNext(s, removed);
    assert KeysMatch(t) && Known(t) && Detached(t);
    forall d, b | d in t.conns
      ensures BalancedAt(t, d, b)
    {
      assert BalancedAt(s, d, b);
    }
  }

  lemma CloseConnInv<C>(s: State<C>, c: C)
    requires Inv(s)
    ensures Inv(CloseConnNext(s, c))
  {
    var t := CloseConnNext(s, c);
    assert KeysMatch(t) && Known(t) && Detached(t);
    forall d, b | d in t.conns
      ensures BalancedAt(t, d, b)
    {
      assert BalancedAt(s, d, b);
    }
  }

  lemma CloseMuxInv<C>(s: State<C>)
    requires Inv(s)
    ensures Inv(CloseMuxNext(s))
  {
    var t := CloseMuxNext(s);
    assert KeysMatch(t) && Known(t) && Detached(t);
    forall d, b | d in t.conns
      ensures BalancedAt(t, d, b)
    {
      assert BalancedAt(s, d, b);
    }
  }

  /** A section that only moves writers, and owes no more than before, keeps the invariant. */
  lemma WritersInv<C>(s: State<C>, ws: multiset<Writer<C>>)
    requires Inv(s)
    requires forall w | w in ws :: w in s.writers || w.conn in s.conns
    requires forall c, a | c in s.conns :: ws[Added(c, a)] + ws[Registering(c, a)] <= Owed(s, a, c)
    ensures Inv(s.(writers := ws))
  {
    var t := s.(writers := ws);
    forall d, b | d in t.conns
      ensures BalancedAt(t, d, b)
    {
      assert BalancedAt(s, d, b);
    }
  }

  lemma BeginWriteInv<C>(s: State<C>, c: C, a: string)
    requires Inv(s)
    ensures Inv(BeginWriteNext(s, c, a))
  {
    WritersInv(s, BeginWriteNext(s, c, a).writers);
  }

  lemma CheckAddrInv<C>(s: State<C>, c: C, a: string)
    requires Inv(s)
    ensures Inv(CheckAddrNext(s, c, a))
  {
    if Opened(c, a) in s.writers && c in s.conns {
      var rest := Leave(s.writers, Opened(c, a));
      if a in s.conns[c].addresses {
        WritersInv(s, rest);
      } else {
        WritersInv(s, Join(rest, Missing(c, a)));
      }
    }
  }

  lemma AppendShape<C>(s: State<C>, c: C, a: string)
    requires Inv(s)
    ensures KeysMatch(AppendNext(s, c, a)) && Known(AppendNext(s, c, a)) && Detached(AppendNext(s, c, a))
  {}

  lemma AppendBalanced<C>(s: State<C>, c: C, a: string, d: C, b: string)
    requires d in AppendNext(s, c, a).conns && d in s.conns && BalancedAt(s, d, b)
    ensures BalancedAt(AppendNext(s, c, a), d, b)
  {}

  lemma AppendInv<C>(s: State<C>, c: C, a: string)
    requires Inv(s)
    ensures Inv(AppendNext(s, c, a))
  {
    AppendShape(s, c, a);
    forall d, b | d in AppendNext(s, c, a).conns
      ensures BalancedAt(AppendNext(s, c, a), d, b)
    {
      assert d in s.conns && BalancedAt(s, d, b);
      AppendBalanced(s, c, a, d, b);
    }
  }

  lemma CheckMuxInv<C>(s: State<C>, c: C, a: string)
    requires Inv(s)
    ensures Inv(CheckMuxNext(s, c, a))
  {
    WritersInv(s, CheckMuxNext(s, c, a).writers);
  }

  lemma RegisterShape<C>(s: State<C>, c: C, a: string)
    requires Inv(s)
    ensures KeysMatch(RegisterNext(s, c, a)) && Known(RegisterNext(s, c, a)) && Detached(RegisterNext(s, c, a))
  {}

  lemma RegisterBalanced<C>(s: State<C>, c: C, a: string, d: C, b: string)
    requires d in RegisterNext(s, c, a).conns && d in s.conns && BalancedAt(s, d, b)
    ensures BalancedAt(RegisterNext(s, c, a), d, b)
  {}

  lemma RegisterInv<C>(s: State<C>, c: C, a: string)
    requires Inv(s)
    ensures Inv(RegisterNext(s, c, a))
  {
    RegisterShape(s, c, a);
    forall d, b | d in RegisterNext(s, c, a).conns
      ensures BalancedAt(RegisterNext(s, c, a), d, b)
    {
      assert d in s.conns && BalancedAt(s, d, b);
      RegisterBalanced(s, c, a, d, b);
    }
  }

  lemma NextInv<C>(s: State<C>, step: Step<C>)
    requires Inv(s)
    ensures Inv(Next(s, step))
  {
    match step
    case GetConn(u, isIPv6, c) => GetConnInv(s, u, isIPv6, c);
    case Detach(u) => DetachInv(s, u);
    case Purge(removed) => PurgeInv(s, removed);
    case CloseConn(c) => CloseConnInv(s, c);
    case CloseMux => CloseMuxInv(s);
    case BeginWrite(c, a) => BeginWriteInv(s, c, a);
    case CheckAddr(c, a) => CheckAddrInv(s, c, a);
    case Append(c, a) => AppendInv(s, c, a);
    case CheckMux(c, a) => CheckMuxInv(s, c, a);
    case Register(c, a) => RegisterInv(s, c, a);
  }

  /** The invariant holds after every run, whatever the interleaving. */
  lemma {:induction false} RunInv<C>(s: State<C>, steps: seq<Step<C>>)
    requires Inv(s)
    ensures Inv(Run(s, steps))
    decreases |steps|
  {
    if steps != [] {
      NextInv(s, steps[0]);
      RunInv(Next(s, steps[0]), steps[1..]);
    }
  }
}
