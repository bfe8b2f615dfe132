/**
 The port allocator and connection store of the eBPF proxy (client/internal/wgproxy/proxy_ebpf.go).
 Every relayed connection is given a port of the loopback interface, found by a cursor that walks
 1, 2, ..., 65535, 1, ... past the ports in use.
 */
module Ports {
  import opened Wrappers

  const MAX_PORT := 65535

  /** The port the cursor reaches after `k` steps from `cursor`; a new proxy's cursor is 0. */
  function Walk(cursor: int, k: nat): (p: int)
    requires 0 <= cursor <= MAX_PORT
    ensures k > 0 ==> 1 <= p <= MAX_PORT
  {
    if k == 0 then cursor else (cursor + k - 1) % MAX_PORT + 1
  }

  /** Walking is what the two branches of `nextFreePort` do one step at a time. */
  lemma WalkStep(cursor: int, k: nat)
    requires 0 <= cursor <= MAX_PORT
    ensures Walk(cursor, k + 1) == if Walk(cursor, k) == MAX_PORT then 1 else Walk(cursor, k) + 1
  {
    if k > 0 {
      var n := cursor + k - 1;
      assert n == MAX_PORT * (n / MAX_PORT) + n % MAX_PORT;
      if n % MAX_PORT == MAX_PORT - 1 {
        assert n + 1 == MAX_PORT * (n / MAX_PORT + 1);
      } else {
        assert n + 1 == MAX_PORT * (n / MAX_PORT) + (n % MAX_PORT + 1);
      }
    } else if cursor == MAX_PORT {
      assert Walk(cursor, 1) == 1;
    } else {
      assert Walk(cursor, 1) == cursor + 1;
    }
  }

  /** How many steps after `cursor` the walk first reaches `p`. */
  function StepsTo(cursor: int, p: int): (k: nat)
    requires 0 <= cursor <= MAX_PORT && 1 <= p <= MAX_PORT
    ensures 1 <= k <= MAX_PORT && Walk(cursor, k) == p
  {
    if p > cursor then p - cursor
    else
      var k := p + MAX_PORT - cursor;
      assert cursor + k - 1 == MAX_PORT + (p - 1);
      k
  }

  /** Two visits of one port are a whole number of rounds apart. */
  lemma SamePortSameRound(cursor: int, i: nat, j: nat)
    requires 0 <= cursor <= MAX_PORT && 1 <= i < j && Walk(cursor, i) == Walk(cursor, j)
    ensures j - i >= MAX_PORT
  {
    var a, b := cursor + i - 1, cursor + j - 1;
    assert a == MAX_PORT * (a / MAX_PORT) + a % MAX_PORT;
    assert b == MAX_PORT * (b / MAX_PORT) + b % MAX_PORT;
    assert j - i == MAX_PORT * (b / MAX_PORT - a / MAX_PORT);
  }

  /** Between two visits of one port the cursor passes every other port. */
  lemma RoundPassesEveryPort(cursor: int, i: nat, j: nat, q: int)
    requires 0 <= cursor <= MAX_PORT && 1 <= i < j && Walk(cursor, i) == Walk(cursor, j)
    requires 1 <= q <= MAX_PORT
    ensures exists k :: i < k <= j && Walk(cursor, k) == q
  {
    SamePortSameRound(cursor, i, j);
    var k := StepsTo(Walk(cursor, i), q);
    WalkWalk(cursor, i, k);
    assert i < i + k <= j && Walk(cursor, i + k) == q;
  }

  lemma WalkWalk(cursor: int, i: nat, k: nat)
    requires 0 <= cursor <= MAX_PORT && 1 <= i
    ensures Walk(Walk(cursor, i), k) == Walk(cursor, i + k)
    decreases k
  {
    if k > 0 {
      WalkWalk(cursor, i, k - 1);
      WalkStep(Walk(cursor, i), k - 1);
      WalkStep(cursor, i + k - 1);
    }
  }

  // ---------------------------------------------------------------- the pigeonhole argument

  function AllPorts(n: nat): (s: set<int>)
    ensures |s| == n && forall p :: p in s <==> 1 <= p <= n
  {
    if n == 0 then {} else AllPorts(n - 1) + {n}
  }

  /** If every port of one round of the walk is taken then all ports are. */
  lemma WalkedPortsTaken(cursor: int, taken: set<int>)
    requires 0 <= cursor <= MAX_PORT
    requires forall k | 1 <= k <= MAX_PORT :: Walk(cursor, k) in taken
    ensures |taken| >= MAX_PORT
  {
    var ports := AllPorts(MAX_PORT);
    forall p | p in ports
      ensures p in taken
    {
      var k := StepsTo(cursor, p);
      assert Walk(cursor, k) in taken;
    }
    SubsetSize(ports, taken);
  }

  lemma SubsetSize(a: set<int>, b: set<int>)
    requires a <= b
    ensures |a| <= |b|
  {
    assert b == a + (b - a);
  }

  /** `k` is the number of steps to the first port after `cursor` that is not taken. */
  ghost predicate FirstFree(cursor: int, taken: set<int>, k: nat)
    requires 0 <= cursor <= MAX_PORT
  {
    && 1 <= k <= MAX_PORT && Walk(cursor, k) !in taken
    && (forall i | 1 <= i < k :: Walk(cursor, i) in taken)
  }

  /** Some port within one round is free if not all ports are taken. */
  ghost function Search(cursor: int, taken: set<int>, k: nat): (r: nat)
    requires 0 <= cursor <= MAX_PORT && |taken| < MAX_PORT && 1 <= k <= MAX_PORT + 1
    requires forall i | 1 <= i < k :: Walk(cursor, i) in taken
    ensures FirstFree(cursor, taken, r)
    decreases MAX_PORT + 1 - k
  {
    if k == MAX_PORT + 1 then
      WalkedPortsTaken(cursor, taken);
      assert false; k
    else if Walk(cursor, k) !in taken then k
    else Search(cursor, taken, k + 1)
  }

  // ---------------------------------------------------------------- runs

  /** A grant: the port, the connection, and how many steps the cursor had made since the start. */
  datatype Grant<Conn> = Grant(port: int, conn: Conn, at: nat)

  /** The goroutine that relays for `conn`. */
  datatype Worker<Conn> = Worker(port: int, conn: Conn)

  /** The proxy's store, its worker goroutines (one per relayed connection, started by `AddTurnConn`,
      removing its port when it ends), and the history of grants and cursor steps. */
  datatype State<Conn(==)> = State(cursor: int, store: map<int, Conn>, workers: multiset<Worker<Conn>>,
                               walked: nat, grants: seq<Grant<Conn>>)

  datatype Step<Conn> = Add(conn: Conn) | Exit(port: int, conn: Conn)

  ghost function Init<Conn>(): State<Conn> {
    State(0, map[], multiset{}, 0, [])
  }

  ghost predicate StoreOk<Conn>(s: State<Conn>) {
    && 0 <= s.cursor <= MAX_PORT
    && (forall p | p in s.store :: 1 <= p <= MAX_PORT)
  }

  lemma StoreSize<Conn>(store: map<int, Conn>)
    requires forall p | p in store :: 1 <= p <= MAX_PORT
    ensures |store.Keys| == |store| <= MAX_PORT
  {
    SubsetSize(store.Keys, AllPorts(MAX_PORT));
  }

  ghost function AddNext<Conn>(s: State<Conn>, conn: Conn): State<Conn>
    requires StoreOk(s)
  {
    StoreSize(s.store);
    if |s.store| == MAX_PORT then s
    else
      var k := Search(s.cursor, s.store.Keys, 1);
      var port := Walk(s.cursor, k);
      State(port, s.store[port := conn], s.workers + multiset{Worker(port, conn)},
            s.walked + k, s.grants + [Grant(port, conn, s.walked + k)])
  }

  ghost function ExitNext<Conn>(s: State<Conn>, port: int, conn: Conn): State<Conn> {
    if Worker(port, conn) !in s.workers then s
    else s.(store := s.store - {port}, workers := s.workers - multiset{Worker(port, conn)})
  }

  ghost function Next<Conn>(s: State<Conn>, step: Step<Conn>): (t: State<Conn>)
    requires StoreOk(s)
    ensures StoreOk(t)
  {
    match step
    case Add(conn) => AddNext(s, conn)
    case Exit(port, conn) => ExitNext(s, port, conn)
  }

  ghost function Run<Conn>(s: State<Conn>, steps: seq<Step<Conn>>): (t: State<Conn>)
    requires StoreOk(s)
    ensures StoreOk(t)
    decreases |steps|
  {
    if steps == [] then s else Run(Next(s, steps[0]), steps[1..])
  }

  /** The worker of a stored connection is the only one with its port, and there is no other worker. */
  ghost predicate WorkersMatch<Conn(!new)>(s: State<Conn>) {
    forall p, c :: s.workers[Worker(p, c)] == if p in s.store && s.store[p] == c then 1 else 0
  }

  ghost predicate GrantsMatch<Conn>(s: State<Conn>) {
    && s.cursor == Walk(0, s.walked)
    && (forall g | g in s.grants :: 1 <= g.at <= s.walked && g.port == Walk(0, g.at))
    && (forall i, j | 0 <= i < j < |s.grants| :: s.grants[i].at < s.grants[j].at)
  }

  lemma AddWorkersMatch<Conn(!new)>(s: State<Conn>, conn: Conn)
    requires StoreOk(s) && WorkersMatch(s)
    ensures WorkersMatch(AddNext(s, conn))
  {
    StoreSize(s.store);
  }

  lemma AddGrantsMatch<Conn>(s: State<Conn>, conn: Conn)
    requires StoreOk(s) && GrantsMatch(s)
    ensures GrantsMatch(AddNext(s, conn))
  {
    StoreSize(s.store);
    if |s.store| != MAX_PORT {
      var k := Search(s.cursor, s.store.Keys, 1);
      WalkOn(s, k);
      var t := AddNext(s, conn);
      OneMoreGrant(s, t, Grant(Walk(s.cursor, k), conn, s.walked + k));
    }
  }

  lemma WalkOn<Conn>(s: State<Conn>, k: nat)
    requires StoreOk(s) && s.cursor == Walk(0, s.walked)
    ensures Walk(s.cursor, k) == Walk(0, s.walked + k)
  {
    if s.walked > 0 {
      WalkWalk(0, s.walked, k);
    }
  }

  lemma OneMoreGrant<Conn>(s: State<Conn>, t: State<Conn>, g: Grant<Conn>)
    requires GrantsMatch(s) && t.grants == s.grants + [g] && t.walked == g.at > s.walked
    requires t.cursor == g.port == Walk(0, g.at)
    ensures GrantsMatch(t)
  {
    assert forall h | h in s.grants :: h.at <= s.walked;
    assert forall i | 0 <= i < |s.grants| :: s.grants[i] in s.grants;
  }

  lemma ExitWorkersMatch<Conn(!new)>(s: State<Conn>, port: int, conn: Conn)
    requires WorkersMatch(s)
    ensures WorkersMatch(ExitNext(s, port, conn))
  {}

  lemma NextMatches<Conn(!new)>(s: State<Conn>, step: Step<Conn>)
    requires StoreOk(s) && WorkersMatch(s) && GrantsMatch(s)
    ensures WorkersMatch(Next(s, step)) && GrantsMatch(Next(s, step))
  {
    match step
    case Add(conn) =>
      AddWorkersMatch(s, conn);
      AddGrantsMatch(s, conn);
    case Exit(port, conn) =>
      ExitWorkersMatch(s, port, conn);
  }

  lemma {:induction false} RunMatches<Conn(!new)>(s: State<Conn>, steps: seq<Step<Conn>>)
    requires StoreOk(s) && WorkersMatch(s) && GrantsMatch(s)
    ensures WorkersMatch(Run(s, steps)) && GrantsMatch(Run(s, steps))
    decreases |steps|
  {
    if steps != [] {
      NextMatches(s, steps[0]);
      RunMatches(Next(s, steps[0]), steps[1..]);
    }
  }

  /** In every run of adds and exits, a connection whose worker still runs is the one stored for its port. */
  lemma LiveConnIsStored<Conn(!new)>(steps: seq<Step<Conn>>, port: int, conn: Conn)
    requires Worker(port, conn) in Run(Init<Conn>(), steps).workers
    ensures var s := Run(Init<Conn>(), steps);
            port in s.store && s.store[port] == conn && 1 <= port <= MAX_PORT
  {
    RunMatches(Init<Conn>(), steps);
  }

  /** Between two grants of one port the cursor has passed every other port, so a port is reused as late
      as possible; port 0 is never granted. */
  lemma PortsAreReusedLate<Conn(!new)>(steps: seq<Step<Conn>>, i: nat, j: nat, q: int)
    requires var grants := Run(Init<Conn>(), steps).grants; i < j < |grants| && grants[i].port == grants[j].port
    requires 1 <= q <= MAX_PORT
    ensures var grants := Run(Init<Conn>(), steps).grants;
            && 1 <= grants[i].port <= MAX_PORT
            && exists k :: grants[i].at < k <= grants[j].at && Walk(0, k) == q
  {
    RunMatches(Init<Conn>(), steps);
    var grants := Run(Init<Conn>(), steps).grants;
    assert grants[i] in grants && grants[j] in grants;
    RoundPassesEveryPort(0, grants[i].at, grants[j].at, q);
  }

  lemma FirstFreeIsUnique(cursor: int, taken: set<int>, k: nat, l: nat)
    requires 0 <= cursor <= MAX_PORT && FirstFree(cursor, taken, k) && FirstFree(cursor, taken, l)
    ensures k == l
  {}

  /** The part of `WGEBPFProxy` that hands out and looks up ports. */
  class PortStore<Conn(==,!new)> {
    var lastUsedPort: int
    var turnConnStore: map<int, Conn>
    ghost var workers: multiset<Worker<Conn>>
    ghost var walked: nat
    ghost var grants: seq<Grant<Conn>>

    ghost function Abs(): State<Conn>
      reads this
    {
      State(lastUsedPort, turnConnStore, workers, walked, grants)
    }

    ghost predicate Valid()
      reads this
    {
      StoreOk(Abs()) && WorkersMatch(Abs())
    }

    constructor ()
      ensures Valid() && Abs() == Init<Conn>()
    {
      lastUsedPort, turnConnStore := 0, map[];
      workers, walked, grants := multiset{}, 0, [];
    }

    /** `nextFreePort`: it fails exactly when every port is taken, and otherwise stops within one round
        at the first free port after the cursor. */
    method NextFreePort() returns (port: Option<int>, ghost steps: nat)
      requires StoreOk(Abs())
      modifies this`lastUsedPort
      ensures StoreOk(Abs())
      ensures port.None? <==> |turnConnStore| == MAX_PORT
      ensures port.None? ==> lastUsedPort == old(lastUsedPort)
      ensures port.Some? ==> FirstFree(old(lastUsedPort), turnConnStore.Keys, steps)
                             && port.value == lastUsedPort == Walk(old(lastUsedPort), steps)
    {
      if |turnConnStore| == MAX_PORT {
        return None, 0;
      }
      ghost var cursor := lastUsedPort;
      steps := 0;
      StoreSize(turnConnStore);
      while true
        invariant 0 <= steps < MAX_PORT && 0 <= lastUsedPort <= MAX_PORT
        invariant lastUsedPort == Walk(cursor, steps)
        invariant forall i | 1 <= i <= steps :: Walk(cursor, i) in turnConnStore
        decreases MAX_PORT - steps
      {
        WalkStep(cursor, steps);
        if lastUsedPort == 65535 {
          lastUsedPort := 1;
        } else {
          lastUsedPort := lastUsedPort + 1;
        }
        steps := steps + 1;
        if lastUsedPort !in turnConnStore {
          return Some(lastUsedPort), steps;
        }
        if steps == MAX_PORT {
          WalkedPortsTaken(cursor, turnConnStore.Keys);
          assert false;
        }
      }
    }

    /** `AddTurnConn`: the port granted, none if all are taken. */
    method AddTurnConn(conn: Conn) returns (port: Option<int>)
      requires Valid()
      modifies this
      ensures Valid() && Abs() == AddNext(old(Abs()), conn)
      ensures port.None? <==> |old(turnConnStore)| == MAX_PORT
      ensures port.Some? ==> port.value !in old(turnConnStore) && turnConnStore == old(turnConnStore)[port.value := conn]
                             && workers == old(workers) + multiset{Worker(port.value, conn)}
      ensures port.Some? ==> lastUsedPort == port.value
                             && exists k :: FirstFree(old(lastUsedPort), old(turnConnStore).Keys, k)
                                          && port.value == Walk(old(lastUsedPort), k)
      ensures port.None? ==> turnConnStore == old(turnConnStore) && workers == old(workers)
    {
      AddWorkersMatch(Abs(), conn);
      port := GrantPort(conn);
    }

    method GrantPort(conn: Conn) returns (port: Option<int>)
      requires StoreOk(Abs())
      modifies this
      ensures Abs() == AddNext(old(Abs()), conn)
      ensures port.None? <==> |old(turnConnStore)| == MAX_PORT
      ensures port.Some? ==> port.value !in old(turnConnStore) && turnConnStore == old(turnConnStore)[port.value := conn]
                             && workers == old(workers) + multiset{Worker(port.value, conn)}
      ensures port.Some? ==> lastUsedPort == port.value
                             && exists k :: FirstFree(old(lastUsedPort), old(turnConnStore).Keys, k)
                                          && port.value == Walk(old(lastUsedPort), k)
      ensures port.None? ==> turnConnStore == old(turnConnStore) && workers == old(workers)
    {
      ghost var steps;
      ghost var cursor := lastUsedPort;
      port, steps := NextFreePort();
      if port.Some? {
        StoreSize(turnConnStore);
        FirstFreeIsUnique(cursor, turnConnStore.Keys, steps, Search(cursor, turnConnStore.Keys, 1));
        assert AddNext(old(Abs()), conn).cursor == port.value;
        turnConnStore := turnConnStore[port.value := conn];
        workers := workers + multiset{Worker(port.value, conn)};
        walked := walked + steps;
        grants := grants + [Grant(port.value, conn, walked)];
      }
    }

    /** The end of the worker of a relayed connection (`removeTurnConn`). */
    method RemoveTurnConn(port: int, ghost conn: Conn)
      requires Valid() && Worker(port, conn) in workers
      modifies this
      ensures Valid() && Abs() == ExitNext(old(Abs()), port, conn)
      ensures turnConnStore == old(turnConnStore) - {port} && workers == old(workers) - multiset{Worker(port, conn)}
      ensures Worker(port, conn) !in workers
    {
      assert workers[Worker(port, conn)] == if port in turnConnStore && turnConnStore[port] == conn then 1 else 0;
      ExitWorkersMatch(Abs(), port, conn);
      turnConnStore := turnConnStore - {port};
      workers := workers - multiset{Worker(port, conn)};
    }

    /** The lookup of `proxyToRemote`: the connection whose worker serves the port, and none if no worker does. */
    method Lookup(port: int) returns (conn: Option<Conn>)
      requires Valid()
      ensures forall c :: conn == Some(c) <==> Worker(port, c) in workers
    {
      assert forall c :: workers[Worker(port, c)] == if port in turnConnStore && turnConnStore[port] == c then 1 else 0;
      conn := if port in turnConnStore then Some(turnConnStore[port]) else None;
    }
  }
}
