/**
 The watcher goroutines: `GetConn` (iface/bind/udp_mux.go) starts one for every connection it creates, which waits for
 the connection to close and then removes whatever is registered under its ufrag.
 */
module MuxWatchers {
  import opened MuxModel
  import opened MuxTheorems
  import opened MuxWitness

  /** The mux, and the connections whose watcher has not run yet. */
  datatype Watched<C> = Watched(mux: State<C>, watchers: set<C>)

  datatype Event<C> =
    | Section(step: Step<C>)
    | Wake(conn: C)      // the watcher of a closed connection enters `RemoveConnByUfrag`

  ghost function Start<C>(): Watched<C> {
    Watched(Init<C>(), {})
  }

  ghost function SectionNext<C>(w: Watched<C>, step: Step<C>): Watched<C> {
    var t := Next(w.mux, step);
    Watched(t, if step.GetConn? && step.conn !in w.mux.conns && step.conn in t.conns then w.watchers + {step.conn} else w.watchers)
  }

  /** The watcher of `c` can run: it has not yet, and the connection is closed. */
  ghost predicate Due<C>(w: Watched<C>, c: C) {
    c in w.watchers && c in w.mux.conns && w.mux.conns[c].closed
  }

  ghost function WakeNext<C>(w: Watched<C>, c: C): Watched<C> {
    if !Due(w, c) then w
    else Watched(DetachNext(w.mux, w.mux.conns[c].key), w.watchers - {c})
  }

  ghost function After<C>(w: Watched<C>, event: Event<C>): Watched<C> {
    match event
    case Section(step) => SectionNext(w, step)
    case Wake(c) => WakeNext(w, c)
  }

  ghost function History<C>(w: Watched<C>, events: seq<Event<C>>): Watched<C>
    decreases |events|
  {
    if events == [] then w else History(After(w, events[0]), events[1..])
  }

  // ---------------------------------------------------------------- the watcher of a registered connection

  /** Every registered connection still has its watcher. */
  ghost predicate AllWatched<C>(w: Watched<C>) {
    && (forall u | u in w.mux.v4 :: w.mux.v4[u] in w.watchers)
    && (forall u | u in w.mux.v6 :: w.mux.v6[u] in w.watchers)
  }

  lemma SectionWatched<C>(w: Watched<C>, step: Step<C>)
    requires AllWatched(w)
    ensures AllWatched(SectionNext(w, step))
  {}

  lemma WakeWatched<C>(w: Watched<C>, c: C)
    requires KeysMatch(w.mux) && AllWatched(w)
    ensures AllWatched(WakeNext(w, c))
  {}

  lemma AfterInv<C>(w: Watched<C>, event: Event<C>)
    requires Inv(w.mux) && AllWatched(w)
    ensures Inv(After(w, event).mux) && AllWatched(After(w, event))
  {
    match event
    case Section(step) =>
      NextInv(w.mux, step);
      SectionWatched(w, step);
    case Wake(c) =>
      WakeWatched(w, c);
      if Due(w, c) {
        DetachInv(w.mux, w.mux.conns[c].key);
      }
  }

  lemma {:induction false} HistoryInv<C>(w: Watched<C>, events: seq<Event<C>>)
    requires Inv(w.mux) && AllWatched(w)
    ensures Inv(History(w, events).mux) && AllWatched(History(w, events))
    decreases |events|
  {
    if events != [] {
      AfterInv(w, events[0]);
      HistoryInv(After(w, events[0]), events[1..]);
    }
  }

  /** In every run the watcher of a registered connection has not run yet: no closed connection stays registered
      unnoticed. */
  lemma RegisteredIsWatched<C>(events: seq<Event<C>>, c: C)
    ensures var w := History(Start<C>(), events);
            Registered(w.mux, c) ==> c in w.watchers
  {
    HistoryInv(Start<C>(), events);
  }

  /** The mux part of every run with watchers is a run of lock sections, so that everything proved about those holds. */
  lemma {:induction false} Projects<C>(w: Watched<C>, events: seq<Event<C>>) returns (steps: seq<Step<C>>)
    ensures Run(w.mux, steps) == History(w, events).mux
    decreases |events|
  {
    if events == [] {
      steps := [];
    } else {
      var rest := Projects(After(w, events[0]), events[1..]);
      if events[0].Wake? && !Due(w, events[0].conn) {
        steps := rest;
      } else {
        var step := if events[0].Section? then events[0].step else Detach(w.mux.conns[events[0].conn].key);
        steps := [step] + rest;
        assert steps[1..] == rest;
      }
    }
  }

  // ---------------------------------------------------------------- when the watchers have run

  /** One of the connections is due and carries the ufrag. */
  ghost predicate SomeDue<C>(w: Watched<C>, woken: seq<C>, key: string) {
    exists i :: 0 <= i < |woken| && Due(w, woken[i]) && w.mux.conns[woken[i]].key == key
  }

  ghost function Wakes<C>(woken: seq<C>): seq<Event<C>> {
    if woken == [] then [] else [Wake(woken[0])] + Wakes(woken[1..])
  }

  lemma WakesFirst<C>(w: Watched<C>, woken: seq<C>)
    requires woken != []
    ensures History(w, Wakes(woken)) == History(WakeNext(w, woken[0]), Wakes(woken[1..]))
  {
    assert Wakes(woken)[1..] == Wakes(woken[1..]);
  }

  lemma WakeIff<C>(w: Watched<C>, d: C, c: C)
    requires Inv(w.mux) && c in w.mux.conns
    ensures var t := WakeNext(w, d);
            && t.mux.conns == w.mux.conns
            && (Registered(t.mux, c) <==> Registered(w.mux, c) && !(Due(w, d) && w.mux.conns[d].key == w.mux.conns[c].key))
            && (forall e :: Due(t, e) <==> Due(w, e) && e != d)
  {
    if Due(w, d) {
      var u := w.mux.conns[d].key;
      if c in Removed(w.mux, u) {
        DetachTakesOutNamed(w.mux, u, c);
      } else if Registered(w.mux, c) {
        DetachKeepsOthers(w.mux, u, c);
      }
    }
  }

  lemma SomeDueFirst<C>(w: Watched<C>, t: Watched<C>, woken: seq<C>, key: string)
    requires woken != [] && t.mux.conns == w.mux.conns
    requires forall e :: Due(t, e) <==> Due(w, e) && e != woken[0]
    ensures SomeDue(w, woken, key) <==>
            (Due(w, woken[0]) && w.mux.conns[woken[0]].key == key) || SomeDue(t, woken[1..], key)
  {
    if SomeDue(t, woken[1..], key) {
      var i :| 0 <= i < |woken[1..]| && Due(t, woken[1..][i]) && t.mux.conns[woken[1..][i]].key == key;
      assert woken[i + 1] == woken[1..][i];
    }
    if SomeDue(w, woken, key) && !(Due(w, woken[0]) && w.mux.conns[woken[0]].key == key) {
      var i :| 0 <= i < |woken| && Due(w, woken[i]) && w.mux.conns[woken[i]].key == key;
      assert woken[1..][i - 1] == woken[i];
    }
  }

  /** What any watchers do, in any order: exactly the connections stay registered whose ufrag is none of those of the
      closed connections whose watcher was among them. */
  lemma {:induction false} WokenIff<C>(w: Watched<C>, woken: seq<C>, c: C)
    requires Inv(w.mux) && AllWatched(w) && c in w.mux.conns
    ensures var t := History(w, Wakes(woken));
            && t.mux.conns == w.mux.conns
            && (Registered(t.mux, c) <==> Registered(w.mux, c) && !SomeDue(w, woken, w.mux.conns[c].key))
    decreases |woken|
  {
    if woken != [] {
      var t := WakeNext(w, woken[0]);
      AfterInv(w, Wake(woken[0]));
      WakeIff(w, woken[0], c);
      WakesFirst(w, woken);
      WokenIff(t, woken[1..], c);
      SomeDueFirst(w, t, woken, w.mux.conns[c].key);
    }
  }

  /** No connection is both closed and registered, so that `GetConn` returns open ones only. */
  ghost predicate OnlyOpen<C>(s: State<C>) {
    forall c | c in s.conns && Registered(s, c) :: !s.conns[c].closed
  }

  /** Exactly when the watchers that have run leave only open connections registered, in every run: for each closed and
      registered connection one of them was due under its ufrag. */
  lemma OnlyOpenIff<C>(events: seq<Event<C>>, woken: seq<C>)
    ensures var w := History(Start<C>(), events);
            var t := History(w, Wakes(woken));
            OnlyOpen(t.mux) <==>
            forall c | c in w.mux.conns && Registered(w.mux, c) && w.mux.conns[c].closed :: SomeDue(w, woken, w.mux.conns[c].key)
  {
    var w := History(Start<C>(), events);
    HistoryInv(Start<C>(), events);
    var t := History(w, Wakes(woken));
    WakesKeepConns(w, woken);
    forall c | c in w.mux.conns
      ensures Registered(t.mux, c) <==> Registered(w.mux, c) && !SomeDue(w, woken, w.mux.conns[c].key)
    {
      WokenIff(w, woken, c);
    }
  }

  lemma {:induction false} WakesKeepConns<C>(w: Watched<C>, woken: seq<C>)
    ensures History(w, Wakes(woken)).mux.conns == w.mux.conns
    decreases |woken|
  {
    if woken != [] {
      WakesFirst(w, woken);
      WakesKeepConns(WakeNext(w, woken[0]), woken[1..]);
    }
  }

  /** Once the watcher of every closed connection has run, in whatever order, only open connections are registered. */
  lemma AllWatchersClean<C>(events: seq<Event<C>>, woken: seq<C>)
    requires var w := History(Start<C>(), events); forall c | Due(w, c) :: c in woken
    ensures OnlyOpen(History(History(Start<C>(), events), Wakes(woken)).mux)
  {
    var w := History(Start<C>(), events);
    OnlyOpenIff(events, woken);
    forall c | c in w.mux.conns && Registered(w.mux, c) && w.mux.conns[c].closed
      ensures SomeDue(w, woken, w.mux.conns[c].key)
    {
      RegisteredIsWatched(events, c);
      assert Due(w, c);
      var i :| 0 <= i < |woken| && woken[i] == c;
    }
  }

  /** A late watcher takes out a newer connection that is open: the ufrag was removed and used again before it ran. */
  lemma LateWatcherRemovesNewer(u: string) returns (events: seq<Event<nat>>)
    ensures var w := History(Start<nat>(), events);
            && u in w.mux.v4 && w.mux.v4[u] == 1 && 1 in w.mux.conns && !w.mux.conns[1].closed
            && Due(w, 0) && !Registered(WakeNext(w, 0).mux, 1)
  {
    var get: Event<nat>, get': Event<nat> := Section(GetConn(u, false, 0)), Section(GetConn(u, false, 1));
    var close: Event<nat>, detach: Event<nat> := Section(CloseConn(0)), Section(Detach(u));
    events := [get, close, detach, get'];
    var open, closed := Conn(u, [], false), Conn(u, [], true);
    var w1 := After(Start<nat>(), get);
    assert w1 == Watched(One(open, true, multiset{}, multiset{}), {0});
    var w2 := After(w1, close);
    assert w2 == Watched(One(closed, true, multiset{}, multiset{}), {0});
    DetachOne(closed, multiset{});
    var w3 := After(w2, detach);
    assert w3 == Watched(One(closed, false, multiset{}, multiset{[0]}), {0});
    var w4 := After(w3, get');
    assert w4.mux.v4 == map[u := 1] && w4.watchers == {0, 1};
    assert w4.mux.conns == map[0 := closed, 1 := open];
    HistoryFour(Start<nat>(), get, close, detach, get');
    assert Due(w4, 0);
    assert WakeNext(w4, 0).mux.v4 == w4.mux.v4 - {u};
  }

  lemma HistoryFour<C>(w: Watched<C>, a: Event<C>, b: Event<C>, c: Event<C>, d: Event<C>)
    ensures History(w, [a, b, c, d]) == After(After(After(After(w, a), b), c), d)
  {
    var events := [a, b, c, d];
    assert events[1..] == [b, c, d] && events[1..][1..] == [c, d] && events[1..][1..][1..] == [d];
    assert History(After(w, a), [b, c, d]) == History(After(After(w, a), b), [b, c, d][1..]);
    assert History(After(After(w, a), b), [c, d]) == History(After(After(After(w, a), b), c), [c, d][1..]);
    assert [d][1..] == [];
  }
}
