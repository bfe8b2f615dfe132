/**
 Runs of the multiplexer in which the guarantees of `MuxTheorems` and `MuxDispatch` end, and the watcher goroutines.
 */
module MuxWitness {
  import opened Wrappers
  import opened MuxModel
  import opened MuxDispatch
  import opened MuxTheorems

  lemma {:induction false} RunOneMore<C>(s: State<C>, steps: seq<Step<C>>, step: Step<C>)
    ensures Run(s, steps + [step]) == Next(Run(s, steps), step)
    decreases |steps|
  {
    if steps == [] {
      assert [step][1..] == [];
      assert steps + [step] == [step];
    } else {
      assert (steps + [step])[1..] == steps[1..] + [step];
      RunOneMore(Next(s, steps[0]), steps[1..], step);
    }
  }

  /** A run that is extended step by step. */
  lemma Extend<C>(steps: seq<Step<C>>, s: State<C>, step: Step<C>, t: State<C>) returns (more: seq<Step<C>>)
    requires Run(Init<C>(), steps) == s && Next(s, step) == t
    ensures Run(Init<C>(), more) == t
  {
    RunOneMore(Init<C>(), steps, step);
    more := steps + [step];
  }

  /** A mux with one connection, registered or not, that has at most one write in flight. */
  ghost function One(c: Conn, registered: bool, writers: multiset<Writer<nat>>, removers: multiset<seq<nat>>): State<nat> {
    State(map[0 := c], if registered then map[c.key := 0] else map[], map[], map[], false, writers, removers)
  }

  lemma WriteBegins(u: string, a: string) returns (steps: seq<Step<nat>>)
    ensures Run(Init<nat>(), steps) == One(Conn(u, [], false), true, multiset{Missing(0, a)}, multiset{})
  {
    var c := Conn(u, [], false);
    steps := Extend<nat>([], Init<nat>(), GetConn(u, false, 0), One(c, true, multiset{}, multiset{}));
    steps := Extend(steps, Run(Init<nat>(), steps), BeginWrite(0, a), One(c, true, multiset{Opened(0, a)}, multiset{}));
    steps := Extend(steps, Run(Init<nat>(), steps), CheckAddr(0, a), One(c, true, multiset{Missing(0, a)}, multiset{}));
  }

  lemma AppendOne(u: string, a: string)
    ensures AppendNext(One(Conn(u, [], false), true, multiset{Missing(0, a)}, multiset{}), 0, a) ==
            One(Conn(u, [a], false), true, multiset{Added(0, a)}, multiset{})
  {
    var s := One(Conn(u, [], false), true, multiset{Missing(0, a)}, multiset{});
    assert [] + [a] == [a];
    assert s.conns[0 := Conn(u, [a], false)] == map[0 := Conn(u, [a], false)];
    assert Join(Leave(s.writers, Missing(0, a)), Added(0, a)) == multiset{Added(0, a)};
  }

  lemma CheckMuxOne(u: string, a: string)
    ensures CheckMuxNext(One(Conn(u, [a], false), true, multiset{Added(0, a)}, multiset{}), 0, a) ==
            One(Conn(u, [a], false), true, multiset{Registering(0, a)}, multiset{})
  {
    assert Join(Leave(multiset{Added(0, a)}, Added(0, a)), Registering(0, a)) == multiset{Registering(0, a)};
  }

  /** A write of a connection to a new address that is about to take the address-map lock. */
  lemma WriteGetsReady(u: string, a: string) returns (steps: seq<Step<nat>>)
    ensures Run(Init<nat>(), steps) == One(Conn(u, [a], false), true, multiset{Registering(0, a)}, multiset{})
  {
    steps := WriteBegins(u, a);
    AppendOne(u, a);
    steps := Extend(steps, Run(Init<nat>(), steps), Append(0, a),
                    One(Conn(u, [a], false), true, multiset{Added(0, a)}, multiset{}));
    CheckMuxOne(u, a);
    steps := Extend(steps, Run(Init<nat>(), steps), CheckMux(0, a),
                    One(Conn(u, [a], false), true, multiset{Registering(0, a)}, multiset{}));
  }

  lemma CloseOne(u: string, a: string, ws: multiset<Writer<nat>>)
    ensures CloseConnNext(One(Conn(u, [a], false), true, ws, multiset{}), 0) == One(Conn(u, [a], true), true, ws, multiset{})
  {}

  lemma DetachOne(c: Conn, ws: multiset<Writer<nat>>)
    ensures DetachNext(One(c, true, ws, multiset{}), c.key) == One(c, false, ws, multiset{[0]})
  {
    var s := One(c, true, ws, multiset{});
    assert Removed(s, c.key) == [0];
    assert s.v4 - {c.key} == map[] && s.v6 - {c.key} == map[];
    assert s.removers + multiset{[0]} == multiset{[0]};
  }

  lemma PurgeOne(c: Conn, ws: multiset<Writer<nat>>)
    ensures PurgeNext(One(c, false, ws, multiset{[0]}), [0]) == One(c, false, ws, multiset{})
  {
    var s := One(c, false, ws, multiset{[0]});
    assert s.addressMap - Used(s.conns, [0]) == map[];
    assert s.removers - multiset{[0]} == multiset{};
  }

  /** A connection that is closed and has been removed completely comes back: the write in flight stores it. */
  lemma ClosedConnReappears(u: string, a: string) returns (steps: seq<Step<nat>>)
    ensures var s := Run(Init<nat>(), steps);
            && 0 in s.conns && s.conns[0].closed && !Registered(s, 0) && s.removers == multiset{} && Unindexed(s, 0)
            && Stored(Next(s, Register(0, a)), a) == [0]
  {
    var ws := multiset{Registering(0, a)};
    var c := Conn(u, [a], true);
    steps := WriteGetsReady(u, a);
    CloseOne(u, a, ws);
    steps := Extend(steps, Run(Init<nat>(), steps), CloseConn(0), One(c, true, ws, multiset{}));
    DetachOne(c, ws);
    steps := Extend(steps, Run(Init<nat>(), steps), Detach(u), One(c, false, ws, multiset{[0]}));
    PurgeOne(c, ws);
    steps := Extend(steps, Run(Init<nat>(), steps), Purge([0]), One(c, false, ws, multiset{}));
    LastRegister(c, a);
  }

  lemma LastRegister(c: Conn, a: string)
    ensures var s := One(c, false, multiset{Registering(0, a)}, multiset{});
            !Registered(s, 0) && Unindexed(s, 0) && Stored(RegisterNext(s, 0, a), a) == [0]
  {}

  /** A message from `a` that names the IPv6 connection goes to the IPv4 one with the same ufrag, and only there. */
  lemma OtherFamilyGetsIt(username: string, a: string) returns (steps: seq<Step<nat>>)
    ensures var s := Run(Init<nat>(), steps);
            var u := UfragOf(username);
            u in s.v4 && s.v4[u] == 0 && u in s.v6 && s.v6[u] == 1 && Destinations(s, s, a, true, Some(username)) == [0]
  {
    var u := UfragOf(username);
    steps := WriteGetsReady(u, a);
    RegisterOne(u, a);
    var stored := One(Conn(u, [a], false), true, multiset{}, multiset{}).(addressMap := map[a := [0]]);
    steps := Extend(steps, Run(Init<nat>(), steps), Register(0, a), stored);
    var both := stored.(conns := stored.conns[1 := Conn(u, [], false)], v6 := map[u := 1]);
    SecondConn(stored, u);
    steps := Extend(steps, stored, GetConn(u, true, 1), both);
    SameKeySkips(both, username, a);
  }

  lemma SameKeySkips(s: State<nat>, username: string, a: string)
    requires var u := UfragOf(username); u in s.v6 && SameKey(s, 0, s.v6[u]) && Stored(s, a) == [0]
    ensures Destinations(s, s, a, true, Some(username)) == [0]
  {
    assert 0 in Stored(s, a);
  }

  lemma RegisterOne(u: string, a: string)
    ensures RegisterNext(One(Conn(u, [a], false), true, multiset{Registering(0, a)}, multiset{}), 0, a) ==
            One(Conn(u, [a], false), true, multiset{}, multiset{}).(addressMap := map[a := [0]])
  {
    assert [] + [0] == [0];
    assert Leave(multiset{Registering(0, a)}, Registering(0, a)) == multiset{};
  }

  lemma SecondConn(s: State<nat>, u: string)
    requires !s.muxClosed && 1 !in s.conns && s.v6 == map[]
    ensures GetConnNext(s, u, true, 1) == s.(conns := s.conns[1 := Conn(u, [], false)], v6 := map[u := 1])
  {}
}
