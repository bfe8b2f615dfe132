/**
 When a caller whose channel was closed finds an address: what the history of a run says about it.
 */
module XorHistory {
  import opened Wrappers
  import opened Histories
  import opened XorModel

  /** The step is a response that is handled: the server has an entry and the attribute can be read. */
  ghost predicate Handles<E>(s: State<E>, step: Step<E>, server: string) {
    step.Respond? && step.server == server && step.addr.Some? && server in s.table
  }

  /** The step is a lookup that finds the server's entry expired and drops it. */
  ghost predicate Drops<E>(s: State<E>, step: Step<E>, server: string) {
    && step == Lookup(server)
    && server in s.table && s.table[server] in s.entries && s.entries[s.table[server]].expiresAt < s.now
  }

  lemma NextCurrent<E>(s: State<E>, step: Step<E>, server: string)
    requires Inv(s)
    ensures Current(Next(s, step), server).Some? <==>
            Handles(s, step, server) || (!Drops(s, step, server) && Current(s, server).Some?)
  {
    match step
    case Lookup(other) => LookupCurrent(s, other, server);
    case Send(other, e, sent) => SendCurrent(s, other, e, sent, server);
    case Respond(other, addr) => RespondCurrent(s, other, addr, server);
    case _ =>
  }

  lemma LookupCurrent<E>(s: State<E>, other: string, server: string)
    requires Inv(s)
    ensures Current(LookupNext(s, other), server).Some? <==> !Drops(s, Lookup(other), server) && Current(s, server).Some?
  {}

  lemma SendCurrent<E>(s: State<E>, other: string, e: E, sent: bool, server: string)
    requires Inv(s)
    ensures Current(SendNext(s, other, e, sent), server) == Current(s, server)
  {}

  lemma RespondCurrent<E>(s: State<E>, other: string, addr: Option<string>, server: string)
    requires Inv(s)
    ensures Current(RespondNext(s, other, addr), server).Some? <==>
            Handles<E>(s, Respond(other, addr), server) || Current(s, server).Some?
  {}

  ghost function Before<E>(s: State<E>, steps: seq<Step<E>>, i: nat): State<E>
    requires i <= |steps|
  {
    Run(s, steps[..i])
  }

  lemma {:induction false} RunOneMore<E>(s: State<E>, steps: seq<Step<E>>, step: Step<E>)
    ensures Run(s, steps + [step]) == Next(Run(s, steps), step)
    decreases |steps|
  {
    if steps == [] {
      assert [step][1..] == [];
      assert steps + [step] == [step];
    } else {
      assert (steps + [step])[1..] == steps[1..] + [step];
      RunOneMore(Next(s, steps[0]), steps[1..], step);
    }
  }

  /** A response was handled, and since then no lookup has found the server's entry expired. */
  ghost predicate Answered<E>(s: State<E>, steps: seq<Step<E>>, server: string) {
    exists i :: 0 <= i < |steps| && Handles(Before(s, steps, i), steps[i], server) && NotDropped(s, steps, server, i + 1)
  }

  ghost predicate NotDropped<E>(s: State<E>, steps: seq<Step<E>>, server: string, from: int)
    requires 0 <= from
  {
    forall j | from <= j < |steps| :: !Drops(Before(s, steps, j), steps[j], server)
  }

  lemma StepCurrent<E>(ttl: int, now: int, steps: seq<Step<E>>, server: string, k: nat)
    requires k < |steps|
    ensures var s := Init<E>(ttl, now);
            Current(Before(s, steps, k + 1), server).Some? <==>
            Handles(Before(s, steps, k), steps[k], server)
            || (!Drops(Before(s, steps, k), steps[k], server) && Current(Before(s, steps, k), server).Some?)
  {
    var s := Init<E>(ttl, now);
    RunInv(s, steps[..k]);
    assert steps[..k + 1] == steps[..k] + [steps[k]];
    RunOneMore(s, steps[..k], steps[k]);
    NextCurrent(Before(s, steps, k), steps[k], server);
  }

  /** After every run the table holds an address for a server if and only if that is its history. */
  lemma CurrentIffAnswered<E>(ttl: int, now: int, steps: seq<Step<E>>, server: string)
    ensures Current(Run(Init<E>(ttl, now), steps), server).Some? <==> Answered(Init<E>(ttl, now), steps, server)
  {
    var s := Init<E>(ttl, now);
    var starts := (k: int) => 0 <= k < |steps| && Handles(Before(s, steps, k), steps[k], server);
    var ends := (k: int) => 0 <= k < |steps| && Drops(Before(s, steps, k), steps[k], server);
    var holds := (k: int) => 0 <= k <= |steps| && Current(Before(s, steps, k), server).Some?;
    forall k | 0 <= k < |steps|
      ensures holds(k + 1) <==> starts(k) || (!ends(k) && holds(k))
    {
      StepCurrent(ttl, now, steps, server, k);
    }
    HoldsIffLasts(starts, ends, holds, |steps|);
    assert steps[..|steps|] == steps;
    AnsweredSince(s, steps, server, starts, ends);
  }

  lemma AnsweredSince<E>(s: State<E>, steps: seq<Step<E>>, server: string, starts: int -> bool, ends: int -> bool)
    requires forall k :: starts(k) <==> 0 <= k < |steps| && Handles(Before(s, steps, k), steps[k], server)
    requires forall k :: ends(k) <==> 0 <= k < |steps| && Drops(Before(s, steps, k), steps[k], server)
    ensures Lasts(starts, ends, |steps|) <==> Answered(s, steps, server)
  {
    if Lasts(starts, ends, |steps|) {
      var i :| 0 <= i < |steps| && LastsFrom(starts, ends, i, |steps|);
      assert forall j | i < j < |steps| :: !ends(j);
      assert NotDropped(s, steps, server, i + 1);
    }
    if Answered(s, steps, server) {
      var i :| 0 <= i < |steps| && Handles(Before(s, steps, i), steps[i], server) && NotDropped(s, steps, server, i + 1);
      assert LastsFrom(starts, ends, i, |steps|);
    }
  }

  // ---------------------------------------------------------------- where answers come from

  /** The response is one of the first `n` steps, handled at its time while the server had an entry. */
  ghost predicate Came<E>(s: State<E>, steps: seq<Step<E>>, r: Response, n: nat)
    requires n <= |steps|
  {
    exists i :: 0 <= i < n && CameAt(Before(s, steps, i), steps[i], r)
  }

  ghost predicate CameAt<E>(s: State<E>, step: Step<E>, r: Response) {
    step == Respond(r.server, Some(r.addr)) && s.now == r.at && r.server in s.table
  }

  lemma NextLog<E>(s: State<E>, step: Step<E>, r: Response)
    requires Inv(s)
    ensures r in Next(s, step).log <==> r in s.log || CameAt(s, step, r)
  {}

  lemma CameNext<E>(s: State<E>, steps: seq<Step<E>>, r: Response, n: nat)
    requires n < |steps|
    ensures Came(s, steps, r, n + 1) <==> Came(s, steps, r, n) || CameAt(Before(s, steps, n), steps[n], r)
  {}

  /** The log of responses holds exactly those that the steps of the run have brought. */
  lemma {:induction false} LogIff<E>(ttl: int, now: int, steps: seq<Step<E>>, r: Response, n: nat)
    requires n <= |steps|
    ensures r in Before(Init<E>(ttl, now), steps, n).log <==> Came(Init<E>(ttl, now), steps, r, n)
  {
    var init := Init<E>(ttl, now);
    if n > 0 {
      LogIff(ttl, now, steps, r, n - 1);
      CameNext(init, steps, r, n - 1);
      RunInv(init, steps[..n - 1]);
      assert steps[..n] == steps[..n - 1] + [steps[n - 1]];
      RunOneMore(init, steps[..n - 1], steps[n - 1]);
      NextLog(Before(init, steps, n - 1), steps[n - 1], r);
    }
  }

  /** Every returned address is, unchanged, that of a response in the run whose source was the server asked, handled at
      the recorded time while the server had an entry; on the cache-hit path that was at most the time to live before
      the lookup. */
  lemma AnswersCame<E>(ttl: int, now: int, steps: seq<Step<E>>, a: Answer)
    requires a in Run(Init<E>(ttl, now), steps).answers
    ensures var init := Init<E>(ttl, now);
            && (exists i :: 0 <= i < |steps| && steps[i] == Respond(a.server, Some(a.addr))
                            && Before(init, steps, i).now == a.at && a.server in Before(init, steps, i).table)
            && (a.hitAt.Some? ==> a.hitAt.value - a.at <= ttl)
  {
    AnswersAreGenuine(ttl, now, steps, a);
    assert steps[..|steps|] == steps;
    var r := Response(a.server, a.addr, a.at);
    LogIff(ttl, now, steps, r, |steps|);
    var i :| 0 <= i < |steps| && CameAt(Before(Init<E>(ttl, now), steps, i), steps[i], r);
    assert steps[i] == Respond(a.server, Some(a.addr));
  }

  // ---------------------------------------------------------------- what a woken caller finds

  /** Exactly when a caller whose channel is closed finds an address, in every run: the channel of the entry the
      table now holds for the server is closed; in terms of the history, a response was handled and no lookup has
      dropped an expired entry of the server since. */
  lemma WokenFindsIff<E>(ttl: int, now: int, steps: seq<Step<E>>, server: string, e: E)
    requires var s := Run(Init<E>(ttl, now), steps);
             Waiting(server, e) in s.callers && e in s.entries && s.entries[e].closed
    ensures var s := Run(Init<E>(ttl, now), steps);
            && (Current(s, server).Some? <==>
                server in s.table && s.table[server] in s.entries && s.entries[s.table[server]].closed)
            && (Current(s, server).Some? <==> Answered(Init<E>(ttl, now), steps, server))
  {
    var s := Run(Init<E>(ttl, now), steps);
    RunInv(Init<E>(ttl, now), steps);
    CurrentIffAnswered(ttl, now, steps, server);
    assert steps[..|steps|] == steps;
  }

  /** A caller can be woken by a response and still find nothing: if another caller's lookup comes first, after the
      entry's time, it drops the entry with the answer. */
  lemma AnswerDroppedBeforeWake(ttl: nat, server: string, addr: string) returns (steps: seq<Step<nat>>)
    ensures var s := Run(Init<nat>(ttl, 0), steps);
            && Waiting(server, 0) in s.callers && 0 in s.entries && s.entries[0].closed
            && Response(server, addr, 0) in s.log && s.entries[0].addr == Some(addr)
            && Current(s, server).None?
  {
    var init := Init<nat>(ttl, 0);
    steps := [Lookup(server)];
    RunOneMore(init, [], Lookup(server));
    assert [] + [Lookup(server)] == steps;
    var asked := steps + [Send(server, 0, true)];
    RunOneMore(init, steps, Send(server, 0, true));
    var answered := asked + [Respond(server, Some(addr))];
    RunOneMore(init, asked, Respond(server, Some(addr)));
    var late := answered + [Tick(ttl + 1)];
    RunOneMore(init, answered, Tick(ttl + 1));
    RunOneMore(init, late, Lookup(server));
    var s := Run(init, late);
    assert s.entries == map[0 := Entry(server, Some(addr), 0, true, 1, 0, ttl)];
    steps := late + [Lookup(server)];
  }
}
