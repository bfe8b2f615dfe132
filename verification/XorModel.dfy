/**
 The cache of server-reflexive addresses (`xorMappedMap` in iface/bind/udp_mux_universal.go) as a
 state machine over its sections under the mux lock.

 `GetXORMappedAddr` looks the server up, sends a binding request if it has no fresh address, and
 waits on the channel of the entry; `handleXORMappedResponse` stores the address of a response
 (XOR-MAPPED-ADDRESS, section 14.2 of RFC 8489) and closes the channel.  `E` is the identity of an
 entry (a reference in the source).  Calls between two of their sections are kept in `callers`; `log`
 and `answers` record the responses handled and the addresses returned.
 */
module XorModel {
  import opened Wrappers

  /** `closes` counts how often the channel was closed; closing twice would panic. */
  datatype Entry = Entry(server: string, addr: Option<string>, addrAt: int, closed: bool, closes: nat,
                         createdAt: int, expiresAt: int)

  datatype Response = Response(server: string, addr: string, at: int)

  datatype Caller<E> =
    | Missed(server: string)                      // must send a request
    | Hit(server: string, entry: E, at: int)      // found a fresh address at time `at`, about to read it
    | Waiting(server: string, entry: E)           // blocked on the entry's channel

  /** A returned address, the time its response came, and the time of the lookup on the hit path. */
  datatype Answer = Answer(server: string, addr: string, at: int, hitAt: Option<int>)

  datatype State<E> = State(
    ttl: int, now: int,
    entries: map<E, Entry>,
    table: map<string, E>,
    callers: multiset<Caller<E>>,
    log: set<Response>,
    answers: set<Answer>)

  datatype Step<E> =
    | Tick(delta: nat)
    | Lookup(server: string)
    | ReadHit(server: string, entry: E, at: int)
    | Send(server: string, entry: E, sent: bool)
    | Respond(server: string, addr: Option<string>)
    | Wake(server: string, entry: E)
    | TimeOut(server: string, entry: E)

  ghost function Init<E>(ttl: int, now: int): State<E> {
    State(ttl, now, map[], map[], multiset{}, {}, {})
  }

  function CloseWaiters(x: Entry): Entry {
    if x.closed then x else x.(closed := true, closes := x.closes + 1)
  }

  /** The entry of the server is dropped from the table, after waking whoever waits on it. */
  ghost function Expire<E>(s: State<E>, server: string): State<E>
    requires server in s.table && s.table[server] in s.entries
  {
    var e := s.table[server];
    s.(entries := s.entries[e := CloseWaiters(s.entries[e])], table := s.table - {server})
  }

  ghost function LookupNext<E>(s: State<E>, server: string): State<E> {
    if server !in s.table || s.table[server] !in s.entries then s.(callers := s.callers + multiset{Missed(server)})
    else
      var e := s.table[server];
      var x := s.entries[e];
      if x.expiresAt < s.now then
        Expire(s, server).(callers := s.callers + multiset{Missed(server)})
      else if x.addr.None? then s.(callers := s.callers + multiset{Missed(server)})
      else s.(callers := s.callers + multiset{Hit(server, e, s.now)})
  }

  ghost function ReadHitNext<E>(s: State<E>, server: string, e: E, at: int): State<E> {
    if Hit(server, e, at) !in s.callers || e !in s.entries || s.entries[e].addr.None? then s
    else s.(callers := s.callers - multiset{Hit(server, e, at)},
            answers := s.answers + {Answer(server, s.entries[e].addr.value, s.entries[e].addrAt, Some(at))})
  }

  /** The entry of the server if it has one, `e` otherwise. */
  ghost function Target<E>(s: State<E>, server: string, e: E): E {
    if server in s.table then s.table[server] else e
  }

  ghost function EnsureEntry<E>(s: State<E>, server: string, e: E): State<E> {
    if server in s.table then s
    else s.(entries := s.entries[e := Entry(server, None, s.now, false, 0, s.now, s.now + s.ttl)],
            table := s.table[server := e])
  }

  ghost function SendNext<E>(s: State<E>, server: string, e: E, sent: bool): State<E> {
    if Missed(server) !in s.callers || (server !in s.table && e in s.entries) then s
    else
      var callers := s.callers - multiset{Missed(server)};
      EnsureEntry(s, server, e).(callers := if sent then callers + multiset{Waiting(server, Target(s, server, e))} else callers)
  }

  ghost function RespondNext<E>(s: State<E>, server: string, addr: Option<string>): State<E> {
    if server !in s.table || addr.None? || s.table[server] !in s.entries then s
    else
      var e := s.table[server];
      s.(entries := s.entries[e := CloseWaiters(s.entries[e].(addr := addr, addrAt := s.now))],
         log := s.log + {Response(server, addr.value, s.now)})
  }

  /** What a woken caller reads, if anything. */
  ghost function Current<E>(s: State<E>, server: string): Option<Entry> {
    if server in s.table && s.table[server] in s.entries && s.entries[s.table[server]].addr.Some?
    then Some(s.entries[s.table[server]]) else None
  }

  ghost function WakeNext<E>(s: State<E>, server: string, e: E): State<E> {
    if Waiting(server, e) !in s.callers || e !in s.entries || !s.entries[e].closed then s
    else
      var x := Current(s, server);
      s.(callers := s.callers - multiset{Waiting(server, e)},
         answers := if x.None? then s.answers
                    else s.answers + {Answer(server, x.value.addr.value, x.value.addrAt, None)})
  }

  ghost function Next<E>(s: State<E>, step: Step<E>): State<E> {
    match step
    case Tick(d) => s.(now := s.now + d)
    case Lookup(server) => LookupNext(s, server)
    case ReadHit(server, e, at) => ReadHitNext(s, server, e, at)
    case Send(server, e, sent) => SendNext(s, server, e, sent)
    case Respond(server, addr) => RespondNext(s, server, addr)
    case Wake(server, e) => WakeNext(s, server, e)
    case TimeOut(server, e) => s.(callers := s.callers - multiset{Waiting(server, e)})
  }

  ghost function Run<E>(s: State<E>, steps: seq<Step<E>>): State<E>
    decreases |steps|
  {
    if steps == [] then s else Run(Next(s, steps[0]), steps[1..])
  }

  // ---------------------------------------------------------------- the invariant

  ghost predicate InTable<E>(s: State<E>, e: E)
    requires e in s.entries
  {
    s.entries[e].server in s.table && s.table[s.entries[e].server] == e
  }

  ghost predicate EntryOk<E>(s: State<E>, e: E)
    requires e in s.entries
  {
    var x := s.entries[e];
    && x.closes == (if x.closed then 1 else 0)
    && x.createdAt <= s.now && x.expiresAt == x.createdAt + s.ttl
    && (InTable(s, e) ==> (x.closed <==> x.addr.Some?))
    && (!InTable(s, e) ==> x.closed)
    && (x.addr.Some? ==> x.createdAt <= x.addrAt <= s.now && Response(x.server, x.addr.value, x.addrAt) in s.log)
    && (x.closed && x.addr.None? ==> x.expiresAt < s.now)
  }

  ghost predicate CallerOk<E>(s: State<E>, c: Caller<E>) {
    match c
    case Missed(_) => true
    case Hit(server, e, at) =>
      e in s.entries && s.entries[e].server == server && s.entries[e].addr.Some? &&
      at <= s.entries[e].addrAt + s.ttl && at <= s.now
    case Waiting(server, e) => e in s.entries && s.entries[e].server == server
  }

  ghost predicate AnswerOk<E>(s: State<E>, a: Answer) {
    && Response(a.server, a.addr, a.at) in s.log && a.at <= s.now
    && (a.hitAt.Some? ==> a.hitAt.value <= a.at + s.ttl)
  }

  ghost predicate Inv<E>(s: State<E>) {
    && (forall server | server in s.table :: s.table[server] in s.entries && s.entries[s.table[server]].server == server)
    && (forall e | e in s.entries :: EntryOk(s, e))
    && (forall c | c in s.callers :: CallerOk(s, c))
    && (forall a | a in s.answers :: AnswerOk(s, a))
  }

  lemma ExpireInv<E>(s: State<E>, server: string)
    requires Inv(s) && server in s.table && s.entries[s.table[server]].expiresAt < s.now
    ensures Inv(Expire(s, server))
  {}

  lemma AddCallerInv<E>(s: State<E>, c: Caller<E>)
    requires Inv(s) && CallerOk(s, c)
    ensures Inv(s.(callers := s.callers + multiset{c}))
  {
    var t := s.(callers := s.callers + multiset{c});
    assert forall e | e in s.entries :: EntryOk(s, e) ==> EntryOk(t, e);
  }

  lemma LookupInv<E>(s: State<E>, server: string)
    requires Inv(s)
    ensures Inv(LookupNext(s, server))
  {
    if server !in s.table {
      AddCallerInv(s, Missed(server));
    } else {
      var x := s.entries[s.table[server]];
      if x.expiresAt < s.now {
        ExpireInv(s, server);
        AddCallerInv(Expire(s, server), Missed(server));
      } else if x.addr.None? {
        AddCallerInv(s, Missed(server));
      } else {
        assert EntryOk(s, s.table[server]);
        AddCallerInv(s, Hit(server, s.table[server], s.now));
      }
    }
  }

  lemma ReadHitInv<E>(s: State<E>, server: string, e: E, at: int)
    requires Inv(s)
    ensures Inv(ReadHitNext(s, server, e, at))
  {}

  lemma EnsureEntryInv<E>(s: State<E>, server: string, e: E)
    requires Inv(s) && (server !in s.table ==> e !in s.entries)
    ensures Inv(EnsureEntry(s, server, e))
  {}

  lemma RemoveCallerInv<E>(s: State<E>, c: Caller<E>)
    requires Inv(s)
    ensures Inv(s.(callers := s.callers - multiset{c}))
  {
    var t := s.(callers := s.callers - multiset{c});
    assert forall e | e in s.entries :: EntryOk(s, e) ==> EntryOk(t, e);
  }

  lemma SendInv<E>(s: State<E>, server: string, e: E, sent: bool)
    requires Inv(s)
    ensures Inv(SendNext(s, server, e, sent))
  {
    if Missed(server) in s.callers && (server in s.table || e !in s.entries) {
      EnsureEntryInv(s, server, e);
      var t := EnsureEntry(s, server, e);
      RemoveCallerInv(t, Missed(server));
      if sent {
        AddCallerInv(t.(callers := t.callers - multiset{Missed(server)}), Waiting(server, Target(s, server, e)));
      }
    }
  }

  lemma RespondInv<E>(s: State<E>, server: string, addr: Option<string>)
    requires Inv(s)
    ensures Inv(RespondNext(s, server, addr))
  {}

  lemma WakeInv<E>(s: State<E>, server: string, e: E)
    requires Inv(s)
    ensures Inv(WakeNext(s, server, e))
  {}

  lemma NextInv<E>(s: State<E>, step: Step<E>)
    requires Inv(s)
    ensures Inv(Next(s, step))
  {
    match step
    case Tick(_) =>
    case Lookup(server) => LookupInv(s, server);
    case ReadHit(server, e, at) => ReadHitInv(s, server, e, at);
    case Send(server, e, sent) => SendInv(s, server, e, sent);
    case Respond(server, addr) => RespondInv(s, server, addr);
    case Wake(server, e) => WakeInv(s, server, e);
    case TimeOut(server, e) => RemoveCallerInv(s, Waiting(server, e));
  }

  /** The invariant holds after every run, whatever the interleaving. */
  lemma {:induction false} RunInv<E>(s: State<E>, steps: seq<Step<E>>)
    requires Inv(s)
    ensures Inv(Run(s, steps))
    decreases |steps|
  {
    if steps != [] {
      NextInv(s, steps[0]);
      RunInv(Next(s, steps[0]), steps[1..]);
    }
  }

  // ---------------------------------------------------------------- what every run guarantees

  /** No lost waiter: the channel a caller waits on has been closed, or it belongs to the entry the
      table now holds for that server, so that the next response or expiry closes it. */
  lemma NoLostWaiter<E>(ttl: int, now: int, steps: seq<Step<E>>, server: string, e: E)
    requires Waiting(server, e) in Run(Init<E>(ttl, now), steps).callers
    ensures var s := Run(Init<E>(ttl, now), steps);
            e in s.entries && (s.entries[e].closed || (server in s.table && s.table[server] == e))
  {
    RunInv(Init<E>(ttl, now), steps);
    var s := Run(Init<E>(ttl, now), steps);
    assert CallerOk(s, Waiting(server, e));
    assert EntryOk(s, e);
  }

  /** A response from the server, or a lookup after the entry's time, wakes every caller of the server. */
  lemma WaitersWake<E>(ttl: int, now: int, steps: seq<Step<E>>, server: string, e: E, step: Step<E>)
    requires Waiting(server, e) in Run(Init<E>(ttl, now), steps).callers
    requires || (step.Respond? && step.server == server && step.addr.Some?)
             || (step == Lookup(server) &&
                 var s := Run(Init<E>(ttl, now), steps); e in s.entries && s.entries[e].expiresAt < s.now)
    ensures var t := Next(Run(Init<E>(ttl, now), steps), step);
            e in t.entries && t.entries[e].closed
  {
    RunInv(Init<E>(ttl, now), steps);
    NoLostWaiter(ttl, now, steps, server, e);
  }

  /** No double close, and in the table a channel is closed exactly when its address is known. */
  lemma ClosedOnce<E>(ttl: int, now: int, steps: seq<Step<E>>, e: E)
    requires e in Run(Init<E>(ttl, now), steps).entries
    ensures var s := Run(Init<E>(ttl, now), steps);
            var x := s.entries[e];
            && x.closes <= 1 && (x.closed <==> x.closes == 1)
            && (InTable(s, e) ==> (x.closed <==> x.addr.Some?))
            && (x.closed && x.addr.None? ==> !InTable(s, e) && x.expiresAt < s.now)
  {
    RunInv(Init<E>(ttl, now), steps);
    assert EntryOk(Run(Init<E>(ttl, now), steps), e);
  }

  /** Every returned address came in a response from the server asked, and on the cache-hit path that
      response was at most the time to live old when the cache was looked up. */
  lemma AnswersAreGenuine<E>(ttl: int, now: int, steps: seq<Step<E>>, a: Answer)
    requires a in Run(Init<E>(ttl, now), steps).answers
    ensures var s := Run(Init<E>(ttl, now), steps);
            && Response(a.server, a.addr, a.at) in s.log && a.at <= s.now
            && (a.hitAt.Some? ==> a.hitAt.value - a.at <= ttl)
  {
    RunInv(Init<E>(ttl, now), steps);
    var s := Run(Init<E>(ttl, now), steps);
    assert AnswerOk(s, a);
    RunKeepsTtl(Init<E>(ttl, now), steps);
  }

  lemma {:induction false} RunKeepsTtl<E>(s: State<E>, steps: seq<Step<E>>)
    ensures Run(s, steps).ttl == s.ttl
    decreases |steps|
  {
    if steps != [] {
      RunKeepsTtl(Next(s, steps[0]), steps[1..]);
    }
  }

  /** A closed channel does not promise an address: if no response comes within the time to live, the
      next lookup wakes the first caller, who finds nothing. */
  lemma ExpiryWakesEmptyHanded(ttl: nat, server: string) returns (steps: seq<Step<nat>>)
    ensures var s := Run(Init<nat>(ttl, 0), steps);
            Waiting(server, 0) in s.callers && 0 in s.entries && s.entries[0].closed && Current(s, server).None?
  {
    var s0 := Init<nat>(ttl, 0);
    var s1 := Next(s0, Lookup(server));
    var s2 := Next(s1, Send(server, 0, true));
    assert s2.callers == multiset{Waiting(server, 0)};
    var s3 := Next(s2, Tick(ttl + 1));
    var s4 := Next(s3, Lookup(server));
    assert s4.entries == map[0 := Entry(server, None, 0, true, 1, 0, ttl)];
    steps := [Lookup(server), Send(server, 0, true), Tick(ttl + 1), Lookup(server)];
    assert Run(s3, steps[3..]) == s4;
    assert Run(s2, steps[2..]) == Run(s3, steps[2..][1..]);
    assert steps[2..][1..] == steps[3..];
    assert Run(s1, steps[1..]) == Run(s2, steps[1..][1..]);
    assert steps[1..][1..] == steps[2..];
  }
}
