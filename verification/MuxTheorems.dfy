/**
 What every interleaving of the multiplexer's lock sections guarantees, and where the guarantees end.
 */
module MuxTheorems {
  import opened MuxModel

  /** `c` is in no entry of the address map. */
  ghost predicate Unindexed<C>(s: State<C>, c: C) {
    forall a | a in s.addressMap :: c !in s.addressMap[a]
  }

  /** In every run, a connection stored for an address has that address in its own list. */
  lemma IndexedAddressIsOwn<C>(steps: seq<Step<C>>, a: string, c: C)
    ensures var s := Run(Init<C>(), steps);
            a in s.addressMap && c in s.addressMap[a] ==> c in s.conns && a in s.conns[c].addresses
  {
    RunInv(Init<C>(), steps);
    var s := Run(Init<C>(), steps);
    if a in s.addressMap && c in s.addressMap[a] {
      assert BalancedAt(s, c, a);
      assert Listed(s, a, c) > 0;
    }
  }

  // ---------------------------------------------------------------- removal

  lemma UsedIff<C>(conns: map<C, Conn>, cs: seq<C>, a: string)
    ensures a in Used(conns, cs) <==> exists c :: c in cs && c in conns && a in conns[c].addresses
  {
    if c :| c in cs && c in conns && a in conns[c].addresses {
      var i :| 0 <= i < |cs| && cs[i] == c;
    }
  }

  /** What the two sections of `RemoveConnByUfrag` have achieved when the second one ends: the
      removed connections are in no map, exactly the addresses they used have lost their entry, and
      every other entry is untouched. */
  lemma PurgeClears<C>(steps: seq<Step<C>>, removed: seq<C>)
    requires removed in Run(Init<C>(), steps).removers
    ensures var s := Run(Init<C>(), steps);
            var t := Next(s, Purge(removed));
            && (forall c | c in removed :: Unindexed(t, c) && !Registered(t, c))
            && (forall c | c in removed :: c in s.conns)
            && (forall a :: a in t.addressMap <==>
                            a in s.addressMap && forall c | c in removed :: a !in s.conns[c].addresses)
            && (forall a | a in t.addressMap :: t.addressMap[a] == s.addressMap[a])
            && t.v4 == s.v4 && t.v6 == s.v6 && t.conns == s.conns
  {
    var s := Run(Init<C>(), steps);
    RunInv(Init<C>(), steps);
    var t := Next(s, Purge(removed));
    forall a
      ensures a in Used(s.conns, removed) <==> exists c :: c in removed && a in s.conns[c].addresses
    {
      UsedIff(s.conns, removed, a);
    }
    forall c, a | c in removed && a in s.addressMap && c in s.addressMap[a]
      ensures a in Used(s.conns, removed)
    {
      IndexedAddressIsOwn(steps, a, c);
      var i :| 0 <= i < |removed| && removed[i] == c;
    }
  }

  lemma DetachTakesOutNamed<C>(s: State<C>, u: string, c: C)
    requires Inv(s) && c in Removed(s, u)
    ensures c in s.conns && s.conns[c].key == u && !Registered(DetachNext(s, u), c)
  {
    var t := DetachNext(s, u);
    DetachInv(s, u);
    var r := Removed(s, u);
    assert r in t.removers;
  }

  lemma DetachKeepsOthers<C>(s: State<C>, u: string, c: C)
    requires Registered(s, c) && c !in Removed(s, u)
    ensures Registered(DetachNext(s, u), c)
  {
    var t := DetachNext(s, u);
    if c in s.v4.Values {
      var k :| k in s.v4 && s.v4[k] == c;
      assert k in t.v4 && t.v4[k] == c;
    } else {
      var k :| k in s.v6 && s.v6[k] == c;
      assert k in t.v6 && t.v6[k] == c;
    }
  }

  /** The first section takes out exactly the connections named by the ufrag, and leaves them to
      the second section. */
  lemma DetachTakesOut<C>(steps: seq<Step<C>>, u: string)
    ensures var s := Run(Init<C>(), steps);
            var t := Next(s, Detach(u));
            && (forall c | c in Removed(s, u) :: c in s.conns && s.conns[c].key == u && !Registered(t, c))
            && (forall c | Registered(s, c) && c !in Removed(s, u) :: Registered(t, c))
            && (Removed(s, u) != [] ==> Removed(s, u) in t.removers)
  {
    var s := Run(Init<C>(), steps);
    RunInv(Init<C>(), steps);
    forall c | c in Removed(s, u)
      ensures c in s.conns && s.conns[c].key == u && !Registered(DetachNext(s, u), c)
    {
      DetachTakesOutNamed(s, u, c);
    }
    forall c | Registered(s, c) && c !in Removed(s, u)
      ensures Registered(DetachNext(s, u), c)
    {
      DetachKeepsOthers(s, u, c);
    }
  }

  lemma NextStaysUnregistered<C>(s: State<C>, step: Step<C>, c: C)
    requires c in s.conns && !Registered(s, c)
    ensures c in Next(s, step).conns && !Registered(Next(s, step), c)
  {}

  /** A connection that has left the ufrag maps never returns to them. */
  lemma {:induction false} StaysUnregistered<C>(s: State<C>, steps: seq<Step<C>>, c: C)
    requires c in s.conns && !Registered(s, c)
    ensures c in Run(s, steps).conns && !Registered(Run(s, steps), c)
    decreases |steps|
  {
    if steps != [] {
      NextStaysUnregistered(s, steps[0], c);
      StaysUnregistered(Next(s, steps[0]), steps[1..], c);
    }
  }

  // ---------------------------------------------------------------- reappearance

  /** `w` can still put its connection into the address map. */
  ghost predicate Threat<C>(s: State<C>, w: Writer<C>) {
    || w.Registering?
    || (!s.muxClosed && (w.Added? || w.Missing?))
    || (!s.muxClosed && w.Opened? && !(w.conn in s.conns && w.addr in s.conns[w.conn].addresses))
  }

  /** `c` cannot be written to any more, and no write of `c` in flight is a threat. */
  ghost predicate Quiet<C>(s: State<C>, c: C) {
    && c in s.conns
    && (s.muxClosed || s.conns[c].closed)
    && (forall w | w in s.writers && w.conn == c :: !Threat(s, w))
  }

  lemma NextUnindexed<C>(s: State<C>, step: Step<C>, c: C)
    requires Quiet(s, c) && Unindexed(s, c)
    ensures Unindexed(Next(s, step), c)
  {
    if step.Register? {
      assert Registering(c, step.addr) !in s.writers by {
        assert Threat(s, Registering(c, step.addr));
      }
    }
  }

  /** A section after which `c` is as closed as before, has kept its addresses, and has gained no
      writer that is a threat. */
  lemma QuietFrame<C>(s: State<C>, t: State<C>, c: C)
    requires Quiet(s, c) && c in t.conns
    requires s.muxClosed ==> t.muxClosed
    requires s.conns[c].closed ==> t.conns[c].closed
    requires forall a | a in s.conns[c].addresses :: a in t.conns[c].addresses
    requires forall w | w in t.writers && w.conn == c :: w in s.writers
    ensures Quiet(t, c)
  {
    forall w | w in t.writers && w.conn == c
      ensures !Threat(t, w)
    {
      assert !Threat(s, w);
    }
  }

  lemma NextQuiet<C>(s: State<C>, step: Step<C>, c: C)
    requires Quiet(s, c)
    ensures Quiet(Next(s, step), c)
  {
    match step
    case BeginWrite(d, a) => QuietBeginWrite(s, d, a, c);
    case CheckAddr(d, a) => QuietCheckAddr(s, d, a, c);
    case Append(d, a) => QuietAppend(s, d, a, c);
    case CheckMux(d, a) => QuietCheckMux(s, d, a, c);
    case _ => QuietOther(s, step, c);
  }

  lemma QuietOther<C>(s: State<C>, step: Step<C>, c: C)
    requires Quiet(s, c) && !step.BeginWrite? && !step.CheckAddr? && !step.Append? && !step.CheckMux?
    ensures Quiet(Next(s, step), c)
  {
    QuietFrame(s, Next(s, step), c);
  }

  lemma QuietBeginWrite<C>(s: State<C>, d: C, a: string, c: C)
    requires Quiet(s, c)
    ensures Quiet(BeginWriteNext(s, d, a), c)
  {}

  lemma QuietCheckAddr<C>(s: State<C>, d: C, a: string, c: C)
    requires Quiet(s, c)
    ensures Quiet(CheckAddrNext(s, d, a), c)
  {
    if Opened(c, a) in s.writers {
      assert !Threat(s, Opened(c, a));
    }
  }

  lemma QuietAppend<C>(s: State<C>, d: C, a: string, c: C)
    requires Quiet(s, c)
    ensures Quiet(AppendNext(s, d, a), c)
  {
    if Missing(c, a) in s.writers {
      assert !Threat(s, Missing(c, a));
    }
  }

  lemma QuietCheckMux<C>(s: State<C>, d: C, a: string, c: C)
    requires Quiet(s, c)
    ensures Quiet(CheckMuxNext(s, d, a), c)
  {
    if Added(c, a) in s.writers {
      assert !Threat(s, Added(c, a));
    }
  }

  lemma {:induction false} QuietStaysOut<C>(s: State<C>, steps: seq<Step<C>>, c: C)
    requires Quiet(s, c) && Unindexed(s, c)
    ensures Unindexed(Run(s, steps), c)
    decreases |steps|
  {
    if steps != [] {
      NextUnindexed(s, steps[0], c);
      NextQuiet(s, steps[0], c);
      QuietStaysOut(Next(s, steps[0]), steps[1..], c);
    }
  }

  /** An address longer than every address in the list. */
  ghost function FreshAddress(addresses: seq<string>): (a: string)
    ensures a !in addresses
    ensures forall b | b in addresses :: |b| < |a|
  {
    if addresses == [] then "0"
    else
      var a := FreshAddress(addresses[1..]);
      assert forall b | b in addresses :: b == addresses[0] || b in addresses[1..];
      a + addresses[0] + "0"
  }

  /** The sections `w` has still to go through. */
  ghost function Remaining<C>(w: Writer<C>): seq<Step<C>> {
    match w
    case Registering(c, a) => [Register(c, a)]
    case Added(c, a) => [CheckMux(c, a), Register(c, a)]
    case Missing(c, a) => [Append(c, a), CheckMux(c, a), Register(c, a)]
    case Opened(c, a) => [CheckAddr(c, a), Append(c, a), CheckMux(c, a), Register(c, a)]
  }

  lemma {:induction false} ThreatReappears<C>(s: State<C>, w: Writer<C>)
    requires w in s.writers && Threat(s, w) && w.conn in s.conns
    ensures !Unindexed(Run(s, Remaining(w)), w.conn)
    decreases |Remaining(w)|
  {
    var c, a := w.conn, w.addr;
    var steps := Remaining(w);
    var t := Next(s, steps[0]);
    if w.Registering? {
      assert c in t.addressMap[a];
      assert Run(s, steps) == Run(t, []);
    } else {
      var w' := if w.Added? then Registering(c, a) else if w.Missing? then Added(c, a) else Missing(c, a);
      assert steps[1..] == Remaining(w');
      ThreatReappears(t, w');
    }
  }

  lemma OpenReappears<C>(s: State<C>, c: C)
    requires c in s.conns && !s.muxClosed && !s.conns[c].closed
    ensures exists steps :: !Unindexed(Run(s, steps), c)
  {
    var a := FreshAddress(s.conns[c].addresses);
    var t := Next(s, BeginWrite(c, a));
    var rest := Remaining(Opened(c, a));
    ThreatReappears(t, Opened(c, a));
    var steps := [BeginWrite(c, a)] + rest;
    assert steps[1..] == rest;
    assert Run(s, steps) == Run(t, rest);
  }

  lemma WriterReappears<C>(s: State<C>, c: C)
    requires c in s.conns && (s.muxClosed || s.conns[c].closed) && !Quiet(s, c)
    ensures exists steps :: !Unindexed(Run(s, steps), c)
  {
    var w :| w in s.writers && w.conn == c && Threat(s, w);
    ThreatReappears(s, w);
  }

  /** Exactly when a connection that is in no address entry stays out of the address map for good:
      it is closed or the mux is, and no `WriteTo` of it is left in flight that could still register
      it.  The condition is about the moment of the call only. */
  lemma StaysOutIff<C>(s: State<C>, c: C)
    requires Inv(s) && c in s.conns && Unindexed(s, c)
    ensures Quiet(s, c) <==> forall steps :: Unindexed(Run(s, steps), c)
  {
    if Quiet(s, c) {
      forall steps
        ensures Unindexed(Run(s, steps), c)
      {
        QuietStaysOut(s, steps, c);
      }
    } else if !s.muxClosed && !s.conns[c].closed {
      OpenReappears(s, c);
    } else {
      WriterReappears(s, c);
    }
  }

  // ---------------------------------------------------------------- after Close

  ghost predicate ClosedIsEmpty<C>(s: State<C>) {
    s.muxClosed ==> s.v4 == map[] && s.v6 == map[]
  }

  lemma NextClosedIsEmpty<C>(s: State<C>, step: Step<C>)
    requires ClosedIsEmpty(s)
    ensures ClosedIsEmpty(Next(s, step))
  {}

  lemma {:induction false} RunClosedIsEmpty<C>(s: State<C>, steps: seq<Step<C>>)
    requires ClosedIsEmpty(s)
    ensures ClosedIsEmpty(Run(s, steps))
    decreases |steps|
  {
    if steps != [] {
      NextClosedIsEmpty(s, steps[0]);
      RunClosedIsEmpty(Next(s, steps[0]), steps[1..]);
    }
  }

  /** The mux is closed, and no removal and no registration is in flight. */
  ghost predicate Settled<C>(s: State<C>) {
    && s.muxClosed && ClosedIsEmpty(s) && s.removers == multiset{}
    && (forall w | w in s.writers :: !w.Registering?)
  }

  lemma NextSettled<C>(s: State<C>, step: Step<C>)
    requires Settled(s)
    ensures Settled(Next(s, step)) && Next(s, step).addressMap == s.addressMap
  {
    match step
    case CheckMux(c, a) => SettledCheckMux(s, c, a);
    case CheckAddr(c, a) => SettledCheckAddr(s, c, a);
    case Append(c, a) => SettledAppend(s, c, a);
    case BeginWrite(c, a) => SettledBeginWrite(s, c, a);
    case _ => SettledOther(s, step);
  }

  lemma SettledOther<C>(s: State<C>, step: Step<C>)
    requires Settled(s) && !step.BeginWrite? && !step.CheckAddr? && !step.Append? && !step.CheckMux?
    ensures Settled(Next(s, step)) && Next(s, step).addressMap == s.addressMap
  {
    if step.Detach? {
      SettledDetach(s, step.ufrag);
    }
  }

  lemma SettledBeginWrite<C>(s: State<C>, c: C, a: string)
    requires Settled(s)
    ensures Settled(BeginWriteNext(s, c, a))
  {}

  lemma SettledDetach<C>(s: State<C>, u: string)
    requires Settled(s)
    ensures DetachNext(s, u) == s
  {}

  lemma SettledCheckMux<C>(s: State<C>, c: C, a: string)
    requires Settled(s)
    ensures Settled(CheckMuxNext(s, c, a))
  {}

  lemma SettledCheckAddr<C>(s: State<C>, c: C, a: string)
    requires Settled(s)
    ensures Settled(CheckAddrNext(s, c, a))
  {}

  lemma SettledAppend<C>(s: State<C>, c: C, a: string)
    requires Settled(s)
    ensures Settled(AppendNext(s, c, a))
  {}

  lemma {:induction false} SettledStays<C>(s: State<C>, steps: seq<Step<C>>)
    requires Settled(s)
    ensures Settled(Run(s, steps)) && Run(s, steps).addressMap == s.addressMap
    decreases |steps|
  {
    if steps != [] {
      NextSettled(s, steps[0]);
      SettledStays(Next(s, steps[0]), steps[1..]);
    }
  }

  /** In every run: once the mux is closed and the removals and registrations in flight are over, the ufrag maps are
      empty and the address map is frozen.  Nothing, watcher goroutines included, cleans it up. */
  lemma SettledIsFrozen<C>(steps: seq<Step<C>>, later: seq<Step<C>>)
    requires var s := Run(Init<C>(), steps);
             s.muxClosed && s.removers == multiset{} && forall w | w in s.writers :: !w.Registering?
    ensures var s := Run(Init<C>(), steps);
            var t := Run(s, later);
            t.addressMap == s.addressMap && t.v4 == map[] && t.v6 == map[] && t.removers == multiset{}
  {
    RunClosedIsEmpty(Init<C>(), steps);
    SettledStays(Run(Init<C>(), steps), later);
  }

  // ---------------------------------------------------------------- uninterrupted operations

  /** What one `WriteTo` changes when nothing runs in between: an open connection that writes to a new
      address lists it, and the mux, if open, stores the connection for it. */
  ghost function Written<C>(s: State<C>, c: C, a: string): State<C>
    requires c in s.conns
  {
    if s.conns[c].closed || a in s.conns[c].addresses then s
    else s.(conns := s.conns[c := s.conns[c].(addresses := s.conns[c].addresses + [a])],
            addressMap := if s.muxClosed then s.addressMap else s.addressMap[a := Stored(s, a) + [c]])
  }

  lemma JoinThenLeave<C>(ws: multiset<Writer<C>>, w: Writer<C>)
    ensures Leave(Join(ws, w), w) == ws
  {}

  /** The sections of one `WriteTo`, in order; those that are not enabled change nothing. */
  ghost function WriteSections<C>(c: C, a: string): seq<Step<C>> {
    [BeginWrite(c, a), CheckAddr(c, a), Append(c, a), CheckMux(c, a), Register(c, a)]
  }

  /** No write of `c` to `a` is in flight. */
  ghost predicate Idle<C>(s: State<C>, c: C, a: string) {
    Opened(c, a) !in s.writers && Missing(c, a) !in s.writers && Added(c, a) !in s.writers && Registering(c, a) !in s.writers
  }

  lemma RunFive<C>(s: State<C>, a: Step<C>, b: Step<C>, c: Step<C>, d: Step<C>, e: Step<C>)
    ensures Run(s, [a, b, c, d, e]) == Next(Next(Next(Next(Next(s, a), b), c), d), e)
  {
    assert [a, b, c, d, e][1..] == [b, c, d, e] && [b, c, d, e][1..] == [c, d, e];
    assert [c, d, e][1..] == [d, e] && [d, e][1..] == [e] && [e][1..] == [];
    RunTwo(Next(Next(Next(s, a), b), c), d, e);
    assert Run(Next(Next(s, a), b), [c, d, e]) == Run(Next(Next(Next(s, a), b), c), [d, e]);
    assert Run(Next(s, a), [b, c, d, e]) == Run(Next(Next(s, a), b), [c, d, e]);
  }

  lemma RunTwo<C>(s: State<C>, a: Step<C>, b: Step<C>)
    ensures Run(s, [a, b]) == Next(Next(s, a), b)
  {
    assert [a, b][1..] == [b] && [b][1..] == [];
    assert Run(Next(s, a), [b]) == Run(Next(Next(s, a), b), []);
  }

  /** From a write that has missed the address to its end. */
  lemma MissingToEnd<C>(s: State<C>, ws: multiset<Writer<C>>, c: C, a: string)
    requires c in s.conns && s.writers == Join(ws, Missing(c, a))
    ensures RegisterNext(CheckMuxNext(AppendNext(s, c, a), c, a), c, a) ==
            s.(writers := ws,
               conns := s.conns[c := s.conns[c].(addresses := s.conns[c].addresses + [a])],
               addressMap := if s.muxClosed then s.addressMap else s.addressMap[a := Stored(s, a) + [c]])
    requires Added(c, a) !in ws && Registering(c, a) !in ws
  {
    JoinThenLeave(ws, Missing(c, a));
    JoinThenLeave(ws, Added(c, a));
    JoinThenLeave(ws, Registering(c, a));
    var t := AppendNext(s, c, a);
    assert t.writers == Join(ws, Added(c, a));
    var u := CheckMuxNext(t, c, a);
    assert u.writers == if s.muxClosed then ws else Join(ws, Registering(c, a));
  }

  lemma FirstSections<C>(s: State<C>, c: C, a: string)
    requires c in s.conns && Idle(s, c, a)
    ensures CheckAddrNext(BeginWriteNext(s, c, a), c, a) ==
            if s.conns[c].closed || a in s.conns[c].addresses then s else s.(writers := Join(s.writers, Missing(c, a)))
  {
    JoinThenLeave(s.writers, Opened(c, a));
  }

  lemma NothingToDo<C>(s: State<C>, c: C, a: string)
    requires Idle(s, c, a)
    ensures RegisterNext(CheckMuxNext(AppendNext(s, c, a), c, a), c, a) == s
  {}

  lemma SectionsAreWritten<C>(s: State<C>, c: C, a: string)
    requires c in s.conns && Idle(s, c, a)
    ensures RegisterNext(CheckMuxNext(AppendNext(CheckAddrNext(BeginWriteNext(s, c, a), c, a), c, a), c, a), c, a) ==
            Written(s, c, a)
  {
    FirstSections(s, c, a);
    if s.conns[c].closed || a in s.conns[c].addresses {
      NothingToDo(s, c, a);
    } else {
      MissingToEnd(s.(writers := Join(s.writers, Missing(c, a))), s.writers, c, a);
    }
  }

  /** One `WriteTo` that nothing interrupts is the run of its sections. */
  lemma WrittenIsRun<C>(s: State<C>, c: C, a: string)
    requires c in s.conns && Idle(s, c, a)
    ensures Run(s, WriteSections(c, a)) == Written(s, c, a)
  {
    RunFive(s, BeginWrite(c, a), CheckAddr(c, a), Append(c, a), CheckMux(c, a), Register(c, a));
    SectionsAreWritten(s, c, a);
  }

  lemma WrittenKeepsShape<C>(s: State<C>, c: C, a: string)
    requires Inv(s) && c in s.conns
    ensures KeysMatch(Written(s, c, a)) && Known(Written(s, c, a)) && Detached(Written(s, c, a))
  {}

  lemma WrittenBalanced<C>(s: State<C>, c: C, a: string, d: C, b: string)
    requires c in s.conns && d in s.conns && BalancedAt(s, d, b)
    ensures d in Written(s, c, a).conns && BalancedAt(Written(s, c, a), d, b)
  {}

  lemma WrittenInv<C>(s: State<C>, c: C, a: string)
    requires Inv(s) && c in s.conns
    ensures Inv(Written(s, c, a))
  {
    WrittenKeepsShape(s, c, a);
    forall d, b | d in s.conns
      ensures BalancedAt(Written(s, c, a), d, b)
    {
      assert BalancedAt(s, d, b);
      WrittenBalanced(s, c, a, d, b);
    }
  }

  lemma StoredKnown<C>(s: State<C>, a: string)
    requires Inv(s)
    ensures forall c | c in Stored(s, a) :: c in s.conns
  {}
}
