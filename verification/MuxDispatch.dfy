/**
 Dispatch of STUN messages to logical connections (`HandleSTUNMessage`), and how many copies of a
 message one connection can get.
 */
module MuxDispatch {
  import opened Wrappers
  import opened MuxModel

  /** The text before the first colon: USERNAME is "ufrag:ufrag" (section 7.2.2 of RFC 8445). */
  function UfragOf(username: string): (u: string)
    ensures u <= username && ':' !in u
    ensures u == username || username[|u|] == ':'
  {
    if username == "" || username[0] == ':' then "" else [username[0]] + UfragOf(username[1..])
  }

  ghost predicate SameKey<C>(s: State<C>, c: C, d: C) {
    c in s.conns && d in s.conns && s.conns[c].key == s.conns[d].key
  }

  /** The connections a message from `a` goes to.  The address map is read in state `s`, the ufrag
      maps in a later state `t`: the two reads are different lock sections. */
  ghost function Destinations<C>(s: State<C>, t: State<C>, a: string, isIPv6: bool, username: Option<string>): seq<C> {
    var stored := Stored(s, a);
    if username.None? then stored
    else
      var u := UfragOf(username.value);
      var conns := if isIPv6 then t.v6 else t.v4;
      if u in conns && forall d | d in stored :: !SameKey(t, d, conns[u]) then stored + [conns[u]] else stored
  }

  lemma NextKeepsConns<C>(s: State<C>, step: Step<C>, c: C)
    requires c in s.conns
    ensures c in Next(s, step).conns && Next(s, step).conns[c].key == s.conns[c].key
  {}

  lemma {:induction false} RunKeepsConns<C>(s: State<C>, steps: seq<Step<C>>, c: C)
    requires c in s.conns
    ensures c in Run(s, steps).conns && Run(s, steps).conns[c].key == s.conns[c].key
    decreases |steps|
  {
    if steps != [] {
      NextKeepsConns(s, steps[0], c);
      RunKeepsConns(Next(s, steps[0]), steps[1..], c);
    }
  }

  /** The destinations are the stored connections and at most one more; the extra one was not stored,
      so nobody gets more copies than it is stored times, and one that is not stored gets at most one. */
  lemma DispatchCopies<C>(steps: seq<Step<C>>, later: seq<Step<C>>, a: string, isIPv6: bool, username: Option<string>, c: C)
    ensures var s := Run(Init<C>(), steps);
            var dest := Destinations(s, Run(s, later), a, isIPv6, username);
            && Stored(s, a) <= dest && |dest| <= |Stored(s, a)| + 1
            && (username.None? ==> dest == Stored(s, a))
            && (username.Some? ==>
                  var u, conns := UfragOf(username.value), if isIPv6 then Run(s, later).v6 else Run(s, later).v4;
                  forall d | d in dest :: d in Stored(s, a) || (u in conns && d == conns[u]))
            && (c in Stored(s, a) ==> multiset(dest)[c] == Listed(s, a, c))
            && (c !in Stored(s, a) ==> multiset(dest)[c] <= 1)
  {
    var s := Run(Init<C>(), steps);
    RunInv(Init<C>(), steps);
    if c in Stored(s, a) {
      RunKeepsConns(s, later, c);
    }
  }

  /** If USERNAME names a registered connection of the source's family then some connection with
      that key gets the message. */
  lemma DispatchReaches<C>(steps: seq<Step<C>>, later: seq<Step<C>>, a: string, isIPv6: bool, username: string)
    requires var t := Run(Run(Init<C>(), steps), later);
             UfragOf(username) in (if isIPv6 then t.v6 else t.v4)
    ensures var s := Run(Init<C>(), steps);
            var t := Run(s, later);
            exists d | d in Destinations(s, t, a, isIPv6, Some(username)) :: d in t.conns && t.conns[d].key == UfragOf(username)
  {
    var s := Run(Init<C>(), steps);
    var t := Run(s, later);
    RunInv(Init<C>(), steps);
    RunInv(s, later);
    var dest := Destinations(s, t, a, isIPv6, Some(username));
    var own := (if isIPv6 then t.v6 else t.v4)[UfragOf(username)];
    if own in dest {
    } else {
      var d :| d in Stored(s, a) && SameKey(t, d, own);
      assert d in dest;
    }
  }

  /** Exactly when the registered connection itself gets the message: it is stored for the source, or
      no stored connection has its key.  The connection of the other address family has the same key,
      so it can stand in the way. */
  lemma RegisteredGetsItIff<C>(steps: seq<Step<C>>, later: seq<Step<C>>, a: string, isIPv6: bool, username: string)
    requires var t := Run(Run(Init<C>(), steps), later);
             UfragOf(username) in (if isIPv6 then t.v6 else t.v4)
    ensures var s := Run(Init<C>(), steps);
            var t := Run(s, later);
            var u := UfragOf(username);
            var own := (if isIPv6 then t.v6 else t.v4)[u];
            own in Destinations(s, t, a, isIPv6, Some(username)) <==>
            own in Stored(s, a) || forall d | d in Stored(s, a) :: !(d in s.conns && s.conns[d].key == u)
  {
    var s := Run(Init<C>(), steps);
    var t := Run(s, later);
    RunInv(Init<C>(), steps);
    RunInv(s, later);
    forall d | d in Stored(s, a)
      ensures d in s.conns && d in t.conns && t.conns[d].key == s.conns[d].key
    {
      RunKeepsConns(s, later, d);
    }
  }

  // ---------------------------------------------------------------- copies

  /** What a state says about one connection `c` and one address `a`. */
  datatype View = View(muxClosed: bool, closed: bool, sent: nat, listed: nat,
                       begun: nat, missing: nat, added: nat, registering: nat)

  ghost function ViewOf<C>(s: State<C>, a: string, c: C): View
    requires c in s.conns
  {
    View(s.muxClosed, s.conns[c].closed, Sent(s, a, c), Listed(s, a, c), s.writers[Opened(c, a)],
         s.writers[Missing(c, a)], s.writers[Added(c, a)], s.writers[Registering(c, a)])
  }

  /** What one section can do to the view of `c` and `a`. */
  ghost predicate ViewStep(v: View, w: View) {
    || w == v
    || w == v.(closed := true)
    || w == v.(muxClosed := true)
    || w == v.(muxClosed := true, closed := true)
    || w == v.(listed := 0)
    || (!v.closed && w == v.(begun := v.begun + 1))
    || (v.begun > 0 && v.sent > 0 && w == v.(begun := v.begun - 1))
    || (v.begun > 0 && v.sent == 0 && w == v.(begun := v.begun - 1, missing := v.missing + 1))
    || (v.missing > 0 && w == v.(missing := v.missing - 1, sent := v.sent + 1, added := v.added + 1))
    || (v.added > 0 && v.muxClosed && w == v.(added := v.added - 1))
    || (v.added > 0 && !v.muxClosed && w == v.(added := v.added - 1, registering := v.registering + 1))
    || (v.registering > 0 && w == v.(registering := v.registering - 1, listed := v.listed + 1))
  }

  lemma ViewBeginWrite<C>(s: State<C>, d: C, b: string, a: string, c: C)
    requires c in s.conns
    ensures c in BeginWriteNext(s, d, b).conns
    ensures var v := ViewOf(s, a, c);
            ViewOf(BeginWriteNext(s, d, b), a, c) ==
            if (c, a) != (d, b) then v
            else if !v.closed then v.(begun := v.begun + 1)
            else v
  {}

  lemma ViewCheckAddr<C>(s: State<C>, d: C, b: string, a: string, c: C)
    requires c in s.conns
    ensures c in CheckAddrNext(s, d, b).conns
    ensures var v := ViewOf(s, a, c);
            ViewOf(CheckAddrNext(s, d, b), a, c) ==
            if (c, a) != (d, b) then v
            else if v.begun == 0 then v
            else if v.sent > 0 then v.(begun := v.begun - 1)
            else v.(begun := v.begun - 1, missing := v.missing + 1)
  {
    var w := Opened(d, b);
    if w in s.writers && d in s.conns {
      var ws := Leave(s.writers, w);
      assert forall x :: x != w ==> ws[x] == s.writers[x];
      if b in s.conns[d].addresses {
        assert CheckAddrNext(s, d, b) == s.(writers := ws);
      } else {
        assert CheckAddrNext(s, d, b) == s.(writers := Join(ws, Missing(d, b)));
      }
    }
  }

  lemma ViewAppend<C>(s: State<C>, d: C, b: string, a: string, c: C)
    requires c in s.conns
    ensures c in AppendNext(s, d, b).conns
    ensures var v := ViewOf(s, a, c);
            ViewOf(AppendNext(s, d, b), a, c) ==
            if (c, a) != (d, b) then v
            else if v.missing == 0 then v
            else v.(missing := v.missing - 1, sent := v.sent + 1, added := v.added + 1)
  {
    var w := Missing(d, b);
    if w in s.writers && d in s.conns {
      var ws := Leave(s.writers, w);
      assert forall x :: x != w ==> ws[x] == s.writers[x];
      var t := AppendNext(s, d, b);
      assert t.writers == Join(ws, Added(d, b));
      assert multiset(t.conns[d].addresses) == multiset(s.conns[d].addresses) + multiset{b};
      assert d != c ==> t.conns[c] == s.conns[c];
    }
  }

  lemma ViewCheckMux<C>(s: State<C>, d: C, b: string, a: string, c: C)
    requires c in s.conns
    ensures c in CheckMuxNext(s, d, b).conns
    ensures var v := ViewOf(s, a, c);
            ViewOf(CheckMuxNext(s, d, b), a, c) ==
            if (c, a) != (d, b) then v
            else if v.added == 0 then v
            else if v.muxClosed then v.(added := v.added - 1)
            else v.(added := v.added - 1, registering := v.registering + 1)
  {}

  lemma ViewRegister<C>(s: State<C>, d: C, b: string, a: string, c: C)
    requires c in s.conns
    ensures c in RegisterNext(s, d, b).conns
    ensures var v := ViewOf(s, a, c);
            ViewOf(RegisterNext(s, d, b), a, c) ==
            if (c, a) != (d, b) then v
            else if v.registering == 0 then v
            else v.(registering := v.registering - 1, listed := v.listed + 1)
  {}

  lemma ViewPurge<C>(s: State<C>, removed: seq<C>, a: string, c: C)
    requires c in s.conns
    ensures var v := ViewOf(s, a, c);
            var w := ViewOf(PurgeNext(s, removed), a, c);
            w == v || w == v.(listed := 0)
  {}

  lemma ViewCloseMux<C>(s: State<C>, a: string, c: C)
    requires c in s.conns
    ensures var v := ViewOf(s, a, c);
            var w := ViewOf(CloseMuxNext(s), a, c);
            w == v || w == v.(muxClosed := true) || w == v.(muxClosed := true, closed := true)
  {}

  lemma ViewGetConn<C>(s: State<C>, u: string, isIPv6: bool, d: C, a: string, c: C)
    requires c in s.conns
    ensures c in GetConnNext(s, u, isIPv6, d).conns
    ensures ViewOf(GetConnNext(s, u, isIPv6, d), a, c) == ViewOf(s, a, c)
  {}

  lemma ViewDetach<C>(s: State<C>, u: string, a: string, c: C)
    requires c in s.conns
    ensures ViewOf(DetachNext(s, u), a, c) == ViewOf(s, a, c)
  {}

  lemma ViewCloseConn<C>(s: State<C>, d: C, a: string, c: C)
    requires c in s.conns
    ensures c in CloseConnNext(s, d).conns
    ensures var v := ViewOf(s, a, c);
            ViewOf(CloseConnNext(s, d), a, c) == if c == d then v.(closed := true) else v
  {}

  lemma ViewNext<C>(s: State<C>, step: Step<C>, a: string, c: C)
    requires c in s.conns
    ensures c in Next(s, step).conns
    ensures ViewStep(ViewOf(s, a, c), ViewOf(Next(s, step), a, c))
  {
    match step
    case BeginWrite(d, b) => ViewBeginWrite(s, d, b, a, c);
    case CheckAddr(d, b) => ViewCheckAddr(s, d, b, a, c);
    case Append(d, b) => ViewAppend(s, d, b, a, c);
    case CheckMux(d, b) => ViewCheckMux(s, d, b, a, c);
    case Register(d, b) => ViewRegister(s, d, b, a, c);
    case Purge(removed) => ViewPurge(s, removed, a, c);
    case CloseMux => ViewCloseMux(s, a, c);
    case GetConn(u, isIPv6, d) => ViewGetConn(s, u, isIPv6, d, a, c);
    case Detach(u) => ViewDetach(s, u, a, c);
    case CloseConn(d) => ViewCloseConn(s, d, a, c);
  }

  /** At most one copy is stored, and at most one ever will be: the copies stored and those that
      writes in flight can still add number at most one, and no two new writes can race. */
  ghost predicate AtMostOne(v: View) {
    if v.muxClosed then v.listed + v.registering <= 1
    else if v.sent > 0 then v.listed + v.added + v.registering + v.missing <= 1
    else v.closed && v.missing + v.begun <= 1
  }

  lemma {:induction false} RunAtMostOne<C>(s: State<C>, steps: seq<Step<C>>, a: string, c: C)
    requires Inv(s) && c in s.conns && AtMostOne(ViewOf(s, a, c))
    ensures c in Run(s, steps).conns && Listed(Run(s, steps), a, c) <= 1
    decreases |steps|
  {
    assert BalancedAt(s, c, a);
    if steps != [] {
      NextInv(s, steps[0]);
      ViewNext(s, steps[0], a, c);
      RunAtMostOne(Next(s, steps[0]), steps[1..], a, c);
    }
  }

  /** The section that brings one write of `c` to `a` in flight nearer to its end, the ones that have
      come least far first. */
  ghost function Push<C>(v: View, a: string, c: C): Step<C> {
    if !v.muxClosed && v.sent == 0 && v.begun > 0 then CheckAddr(c, a)
    else if !v.muxClosed && v.missing > 0 then Append(c, a)
    else if !v.muxClosed && v.added > 0 then CheckMux(c, a)
    else Register(c, a)
  }

  ghost function Work(v: View): nat {
    if v.muxClosed then v.registering
    else (if v.sent == 0 then 4 * v.begun else 0) + 3 * v.missing + 2 * v.added + v.registering
  }

  /** Copies that can still be reached without starting a new write. */
  ghost function Potential(v: View): nat {
    if v.muxClosed then v.listed + v.registering
    else v.listed + v.added + v.registering + v.missing + (if v.sent == 0 then v.begun else 0)
  }

  ghost function Pushed(v: View): View
    requires Work(v) > 0
  {
    if !v.muxClosed && v.sent == 0 && v.begun > 0 then v.(begun := v.begun - 1, missing := v.missing + 1)
    else if !v.muxClosed && v.missing > 0 then v.(missing := v.missing - 1, sent := v.sent + 1, added := v.added + 1)
    else if !v.muxClosed && v.added > 0 then v.(added := v.added - 1, registering := v.registering + 1)
    else v.(registering := v.registering - 1, listed := v.listed + 1)
  }

  lemma PushedView<C>(s: State<C>, step: Step<C>, a: string, c: C)
    requires c in s.conns && Work(ViewOf(s, a, c)) > 0 && step == Push(ViewOf(s, a, c), a, c)
    ensures c in Next(s, step).conns && ViewOf(Next(s, step), a, c) == Pushed(ViewOf(s, a, c))
  {
    if step.CheckAddr? {
      ViewCheckAddr(s, c, a, a, c);
    } else if step.Append? {
      ViewAppend(s, c, a, a, c);
    } else if step.CheckMux? {
      ViewCheckMux(s, c, a, a, c);
    } else {
      ViewRegister(s, c, a, a, c);
    }
  }

  lemma PushedWorks(v: View)
    requires Work(v) > 0
    ensures Work(Pushed(v)) < Work(v) && Potential(Pushed(v)) == Potential(v)
  {}

  /** Pushing every write in flight to its end stores all the copies they can store. */
  lemma {:induction false} PushAll<C>(s: State<C>, a: string, c: C) returns (steps: seq<Step<C>>)
    requires c in s.conns
    ensures c in Run(s, steps).conns && Listed(Run(s, steps), a, c) == Potential(ViewOf(s, a, c))
    decreases Work(ViewOf(s, a, c))
  {
    var v := ViewOf(s, a, c);
    if Work(v) == 0 {
      steps := [];
    } else {
      var step := Push<C>(v, a, c);
      PushedView(s, step, a, c);
      PushedWorks(v);
      var rest := PushAll(Next(s, step), a, c);
      steps := [step] + rest;
      assert steps[1..] == rest;
    }
  }

  /** Two new writes of an open connection to a new address can both miss the address. */
  lemma RaceTwo<C>(s: State<C>, a: string, c: C) returns (steps: seq<Step<C>>)
    requires c in s.conns && var v := ViewOf(s, a, c); !v.muxClosed && v.sent == 0 && !v.closed
    ensures Listed(Run(s, steps), a, c) >= 2
  {
    var begin := BeginWrite(c, a);
    var t := Next(s, begin);
    ViewBeginWrite(s, c, a, a, c);
    var t' := Next(t, begin);
    ViewBeginWrite(t, c, a, a, c);
    var rest := PushAll(t', a, c);
    assert ([begin] + rest)[1..] == rest;
    steps := [begin] + ([begin] + rest);
    assert steps[1..] == [begin] + rest;
  }

  /** Exactly when no continuation can ever store `c` twice for `a`, and so no message from `a` can
      reach `c` twice. */
  lemma CopiesIff<C>(s: State<C>, a: string, c: C)
    requires Inv(s) && c in s.conns
    ensures AtMostOne(ViewOf(s, a, c)) <==> forall steps :: Listed(Run(s, steps), a, c) <= 1
  {
    var v := ViewOf(s, a, c);
    assert BalancedAt(s, c, a);
    if AtMostOne(v) {
      forall steps
        ensures Listed(Run(s, steps), a, c) <= 1
      {
        RunAtMostOne(s, steps, a, c);
      }
    } else if !v.muxClosed && v.sent == 0 && !v.closed {
      var steps := RaceTwo(s, a, c);
    } else {
      var steps := PushAll(s, a, c);
    }
  }

  /** The condition of `CopiesIff` can fail in a run: a fresh connection's first two writes to one
      address can race, and then every message from that address reaches it twice. */
  lemma RacingWritesDuplicate(a: string) returns (steps: seq<Step<nat>>)
    ensures Listed(Run(Init<nat>(), steps), a, 0) >= 2
  {
    var create: Step<nat> := GetConn("ufrag", false, 0);
    var s := Next(Init<nat>(), create);
    var rest := RaceTwo(s, a, 0);
    steps := [create] + rest;
    assert steps[1..] == rest;
  }

  // ---------------------------------------------------------------- writes one at a time

  /** In every state of the run, at most one write of `c` to `a` is in flight. */
  ghost predicate SerialRun<C>(s: State<C>, steps: seq<Step<C>>, a: string, c: C)
    decreases |steps|
  {
    && (c in s.conns ==> var v := ViewOf(s, a, c); v.begun + v.missing + v.added + v.registering <= 1)
    && (steps != [] ==> SerialRun(Next(s, steps[0]), steps[1..], a, c))
  }

  lemma CreatedFresh<C>(s: State<C>, u: string, isIPv6: bool, a: string, c: C)
    requires Known(s) && c !in s.conns && c in GetConnNext(s, u, isIPv6, c).conns
    ensures var v := ViewOf(GetConnNext(s, u, isIPv6, c), a, c); v.sent == v.missing == 0
  {
    assert Missing(c, a) !in s.writers;
  }

  lemma SerialNext<C>(s: State<C>, step: Step<C>, a: string, c: C)
    requires Inv(s)
    requires c in s.conns ==> var v := ViewOf(s, a, c); v.begun + v.missing + v.added + v.registering <= 1
    requires c in s.conns ==> var v := ViewOf(s, a, c); v.sent + v.missing <= 1
    ensures c in Next(s, step).conns ==> var v := ViewOf(Next(s, step), a, c); v.sent + v.missing <= 1
  {
    if c in s.conns {
      ViewNext(s, step, a, c);
    } else if c in Next(s, step).conns {
      assert step.GetConn? && step.conn == c;
      CreatedFresh(s, step.ufrag, step.isIPv6, a, c);
    }
  }

  lemma {:induction false} SerialSentOnce<C>(s: State<C>, steps: seq<Step<C>>, a: string, c: C)
    requires Inv(s) && SerialRun(s, steps, a, c)
    requires c in s.conns ==> var v := ViewOf(s, a, c); v.sent + v.missing <= 1
    ensures c in Run(s, steps).conns ==> Listed(Run(s, steps), a, c) <= 1
    decreases |steps|
  {
    if steps == [] {
      if c in s.conns {
        assert BalancedAt(s, c, a);
      }
    } else {
      NextInv(s, steps[0]);
      SerialNext(s, steps[0], a, c);
      SerialSentOnce(Next(s, steps[0]), steps[1..], a, c);
    }
  }

  /** If writes of a connection to one address never overlap, no message from that address reaches it
      twice, whatever else runs in parallel. */
  lemma SerialWritesDispatchOnce<C>(steps: seq<Step<C>>, later: seq<Step<C>>, a: string, isIPv6: bool,
                                    username: Option<string>, c: C)
    requires SerialRun(Init<C>(), steps, a, c)
    ensures var s := Run(Init<C>(), steps);
            multiset(Destinations(s, Run(s, later), a, isIPv6, username))[c] <= 1
  {
    var s := Run(Init<C>(), steps);
    RunInv(Init<C>(), steps);
    SerialSentOnce(Init<C>(), steps, a, c);
    DispatchCopies(steps, later, a, isIPv6, username, c);
  }
}
