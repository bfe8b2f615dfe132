/**
 The write filter of the shared UDP socket and its cache (`udpConn` in iface/bind/udp_mux_universal.go) as a state
 machine.  A write looks into the cache, asks the filter if it finds nothing, and stores an answer; the cache is a
 `sync.Map` that all writers share without a lock, so these are three steps and any number of writes overlap.
 */
module FilterModel {
  import opened Wrappers

  /** Whether a parsed host is in a routed network, or None for an error. */
  type Filter = string -> Option<bool>

  /** Splitting the host off an address and parsing it. */
  datatype Parser = Parser(hostOf: string -> Option<string>, parse: string -> Option<string>)

  function Parsed(p: Parser, addr: string): (parsed: Option<string>)
    ensures p.hostOf(addr).None? ==> parsed.None?
    ensures p.hostOf(addr).Some? ==> parsed == p.parse(p.hostOf(addr).value)
  {
    var host := p.hostOf(addr);
    if host.None? then None else p.parse(host.value)
  }

  /** What the filter says of an address; None if it does not parse or the filter fails. */
  function Answer(p: Parser, f: Filter, addr: string): (answer: Option<bool>)
    ensures answer.Some? <==>
            p.hostOf(addr).Some? && p.parse(p.hostOf(addr).value).Some? && f(p.parse(p.hostOf(addr).value).value).Some?
    ensures answer.Some? ==> answer == f(p.parse(p.hostOf(addr).value).value)
  {
    var parsed := Parsed(p, addr);
    if parsed.None? then None else f(parsed.value)
  }

  /** What a check without a cache does: only an address that is known to be routed is refused. */
  predicate Refused(p: Parser, f: Filter, addr: string) {
    Answer(p, f, addr) == Some(true)
  }

  /** A write in flight. */
  datatype Writer =
    | Missed(addr: string)                    // found nothing in the cache, about to ask the filter
    | Answered(addr: string, routed: bool)    // has its answer, about to store it

  datatype Stored = Stored(addr: string, routed: bool)

  datatype Decision = Decision(addr: string, passed: bool)

  /** `filter` is None if the socket has no filter; otherwise it is what the routes make it at the moment. */
  datatype State = State(
    parser: Parser,
    filter: Option<Filter>,
    cache: map<string, bool>,
    writers: multiset<Writer>,
    stores: seq<Stored>,
    decisions: seq<Decision>)

  datatype Step =
    | Routes(filter: Filter)
    | Load(addr: string)
    | Ask(addr: string)
    | Store(addr: string, routed: bool)

  ghost function Init(parser: Parser, filter: Option<Filter>): State {
    State(parser, filter, map[], multiset{}, [], [])
  }

  ghost function Decide(s: State, addr: string, passed: bool): State {
    s.(decisions := s.decisions + [Decision(addr, passed)])
  }

  ghost function RoutesNext(s: State, f: Filter): State {
    if s.filter.None? then s else s.(filter := Some(f))
  }

  ghost function LoadNext(s: State, a: string): State {
    if s.filter.None? then Decide(s, a, true)
    else if a in s.cache then Decide(s, a, !s.cache[a])
    else s.(writers := s.writers + multiset{Missed(a)})
  }

  ghost function AskNext(s: State, a: string): State {
    if Missed(a) !in s.writers || s.filter.None? then s
    else
      var left := s.(writers := s.writers - multiset{Missed(a)});
      var answer := Answer(s.parser, s.filter.value, a);
      if answer.None? then Decide(left, a, true)
      else left.(writers := left.writers + multiset{Answered(a, answer.value)})
  }

  ghost function StoreNext(s: State, a: string, routed: bool): State {
    if Answered(a, routed) !in s.writers then s
    else Decide(s.(cache := s.cache[a := routed],
                   writers := s.writers - multiset{Answered(a, routed)},
                   stores := s.stores + [Stored(a, routed)]), a, !routed)
  }

  ghost function Next(s: State, step: Step): State {
    match step
    case Routes(f) => RoutesNext(s, f)
    case Load(a) => LoadNext(s, a)
    case Ask(a) => AskNext(s, a)
    case Store(a, routed) => StoreNext(s, a, routed)
  }

  ghost function Run(s: State, steps: seq<Step>): State
    decreases |steps|
  {
    if steps == [] then s else Run(Next(s, steps[0]), steps[1..])
  }

  // ---------------------------------------------------------------- the cache is the last answer stored

  /** The last answer stored for an address. */
  ghost function LastStored(stores: seq<Stored>, addr: string): Option<bool> {
    if stores == [] then None
    else
      var last := stores[|stores| - 1];
      if last.addr == addr then Some(last.routed) else LastStored(stores[..|stores| - 1], addr)
  }

  lemma LastStoredNext(stores: seq<Stored>, addr: string, x: Stored)
    ensures LastStored(stores + [x], addr) == if x.addr == addr then Some(x.routed) else LastStored(stores, addr)
  {
    assert (stores + [x])[..|stores|] == stores;
  }

  ghost predicate CacheIsLast(s: State) {
    forall a :: LastStored(s.stores, a) == if a in s.cache then Some(s.cache[a]) else None
  }

  /** Only addresses that parse get an answer. */
  ghost predicate AnswersParse(s: State) {
    && (forall w | w in s.writers && w.Answered? :: Parsed(s.parser, w.addr).Some?)
    && (forall a | a in s.cache :: Parsed(s.parser, a).Some?)
    && (s.writers != multiset{} ==> s.filter.Some?)
  }

  ghost predicate Inv(s: State) {
    CacheIsLast(s) && AnswersParse(s)
  }

  lemma NextInv(s: State, step: Step)
    requires Inv(s)
    ensures Inv(Next(s, step))
  {
    NextCacheIsLast(s, step);
    NextAnswersParse(s, step);
  }

  lemma NextCacheIsLast(s: State, step: Step)
    requires CacheIsLast(s)
    ensures CacheIsLast(Next(s, step))
  {
    if step.Store? {
      forall a
        ensures LastStored(s.stores + [Stored(step.addr, step.routed)], a) ==
                if a == step.addr then Some(step.routed) else LastStored(s.stores, a)
      {
        LastStoredNext(s.stores, a, Stored(step.addr, step.routed));
      }
    }
  }

  lemma NextAnswersParse(s: State, step: Step)
    requires AnswersParse(s)
    ensures AnswersParse(Next(s, step))
  {
    match step
    case Routes(f) =>
    case Load(a) => LoadAnswersParse(s, a);
    case Ask(a) => AskAnswersParse(s, a);
    case Store(a, routed) => StoreAnswersParse(s, a, routed);
  }

  lemma LoadAnswersParse(s: State, a: string)
    requires AnswersParse(s)
    ensures AnswersParse(LoadNext(s, a))
  {}

  lemma AskAnswersParse(s: State, a: string)
    requires AnswersParse(s)
    ensures AnswersParse(AskNext(s, a))
  {}

  lemma StoreAnswersParse(s: State, a: string, routed: bool)
    requires AnswersParse(s)
    ensures AnswersParse(StoreNext(s, a, routed))
  {}

  /** In every interleaving the cache holds, for each address, the answer stored last. */
  lemma {:induction false} RunInv(s: State, steps: seq<Step>)
    requires Inv(s)
    ensures Inv(Run(s, steps))
    decreases |steps|
  {
    if steps != [] {
      NextInv(s, steps[0]);
      RunInv(Next(s, steps[0]), steps[1..]);
    }
  }

  // ---------------------------------------------------------------- routes that do not change

  /** What an uncached check does with an address. */
  ghost predicate Uncached(s: State, addr: string) {
    s.filter.None? || !Refused(s.parser, s.filter.value, addr)
  }

  ghost predicate Agrees(s: State) {
    && (s.filter.None? ==> s.cache == map[] && s.writers == multiset{})
    && (s.filter.Some? ==> forall a | a in s.cache :: Answer(s.parser, s.filter.value, a) == Some(s.cache[a]))
    && (s.filter.Some? ==> forall w | w in s.writers && w.Answered? :: Answer(s.parser, s.filter.value, w.addr) == Some(w.routed))
    && (forall d | d in s.decisions :: d.passed <==> Uncached(s, d.addr))
  }

  lemma NextAgrees(s: State, step: Step)
    requires Agrees(s) && !step.Routes?
    ensures Agrees(Next(s, step)) && Next(s, step).parser == s.parser && Next(s, step).filter == s.filter
  {
    match step
    case Load(a) => LoadAgrees(s, a);
    case Ask(a) => AskAgrees(s, a);
    case Store(a, routed) => StoreAgrees(s, a, routed);
  }

  lemma LoadAgrees(s: State, a: string)
    requires Agrees(s)
    ensures Agrees(LoadNext(s, a))
  {}

  lemma AskAgrees(s: State, a: string)
    requires Agrees(s)
    ensures Agrees(AskNext(s, a))
  {}

  lemma StoreAgrees(s: State, a: string, routed: bool)
    requires Agrees(s)
    ensures Agrees(StoreNext(s, a, routed))
  {}

  lemma {:induction false} RunAgrees(s: State, steps: seq<Step>)
    requires Agrees(s) && forall step | step in steps :: !step.Routes?
    ensures Agrees(Run(s, steps)) && Run(s, steps).parser == s.parser && Run(s, steps).filter == s.filter
    decreases |steps|
  {
    if steps != [] {
      NextAgrees(s, steps[0]);
      RunAgrees(Next(s, steps[0]), steps[1..]);
    }
  }

  /** While the routes stay, the cache is not observable: in every interleaving of any number of writes, each is
      passed on exactly if an uncached check passes it on. */
  lemma CacheIsTransparent(parser: Parser, filter: Option<Filter>, steps: seq<Step>, d: Decision)
    requires forall step | step in steps :: !step.Routes?
    requires d in Run(Init(parser, filter), steps).decisions
    ensures d.passed <==> filter.None? || !Refused(parser, filter.value, d.addr)
  {
    RunAgrees(Init(parser, filter), steps);
  }

  // ---------------------------------------------------------------- routes that change

  /** The decision a step makes about a write, if it makes one. */
  ghost function DecisionOf(s: State, step: Step): Option<Decision> {
    var t := Next(s, step);
    if |t.decisions| > |s.decisions| then Some(t.decisions[|s.decisions|]) else None
  }

  /** Exactly when a decision is the one the present routes call for, in every run.  A write that finds an entry:
      the answer stored last for the address is the present one.  A write that stores its own answer: that
      answer still stands.  A write that gets no answer: always. */
  lemma FollowsRoutesIff(parser: Parser, filter: Filter, steps: seq<Step>, step: Step)
    requires var s := Run(Init(parser, Some(filter)), steps); s.filter.Some? && DecisionOf(s, step).Some?
    ensures var s := Run(Init(parser, Some(filter)), steps);
            var d := DecisionOf(s, step).value;
            var refused := Refused(s.parser, s.filter.value, d.addr);
            match step
            case Load(a) => d.addr == a && (d.passed == !refused <==> LastStored(s.stores, a) == Some(refused))
            case Ask(a) => d.addr == a && d.passed == !refused
            case Store(a, routed) => d.addr == a && (d.passed == !refused <==> routed == refused)
            case Routes(_) => false
  {
    RunInv(Init(parser, Some(filter)), steps);
  }

  /** Whether a write that nothing interrupts is passed on, and what it changes. */
  ghost predicate Passes(s: State, a: string) {
    s.filter.None? || if a in s.cache then !s.cache[a] else !Refused(s.parser, s.filter.value, a)
  }

  ghost function Written(s: State, a: string): State {
    var answer := if s.filter.None? || a in s.cache then None else Answer(s.parser, s.filter.value, a);
    var t := if answer.None? then s
             else s.(cache := s.cache[a := answer.value], stores := s.stores + [Stored(a, answer.value)]);
    Decide(t, a, Passes(s, a))
  }

  /** Exactly when a write that nothing interrupts goes by the present routes, whatever else is in flight: no answer
      has been stored for the address, or the one stored last is the present one. */
  lemma CurrentFilterIff(parser: Parser, filter: Filter, steps: seq<Step>, a: string)
    requires Run(Init(parser, Some(filter)), steps).filter.Some?
    ensures var s := Run(Init(parser, Some(filter)), steps);
            var refused := Refused(s.parser, s.filter.value, a);
            Passes(s, a) == !refused <==> LastStored(s.stores, a).None? || LastStored(s.stores, a) == Some(refused)
  {
    RunInv(Init(parser, Some(filter)), steps);
  }

  // ---------------------------------------------------------------- the first answer

  /** `r` is cached, and no write in flight can store anything else. */
  ghost predicate Final(s: State, a: string, r: bool) {
    a in s.cache && s.cache[a] == r && Missed(a) !in s.writers && Answered(a, !r) !in s.writers
  }

  lemma {:induction false} FinalStays(s: State, steps: seq<Step>, a: string, r: bool)
    requires Final(s, a, r)
    ensures Final(Run(s, steps), a, r)
    decreases |steps|
  {
    if steps != [] {
      NextFinal(s, steps[0], a, r);
      FinalStays(Next(s, steps[0]), steps[1..], a, r);
    }
  }

  lemma NextFinal(s: State, step: Step, a: string, r: bool)
    requires Final(s, a, r)
    ensures Final(Next(s, step), a, r)
  {
    match step
    case Routes(_) =>
    case Load(_) =>
    case Ask(b) => AskFinal(s, b, a, r);
    case Store(b, routed) => StoreFinal(s, b, routed, a, r);
  }

  lemma AskFinal(s: State, b: string, a: string, r: bool)
    requires Final(s, a, r)
    ensures Final(AskNext(s, b), a, r)
  {}

  lemma StoreFinal(s: State, b: string, routed: bool, a: string, r: bool)
    requires Final(s, a, r)
    ensures Final(StoreNext(s, b, routed), a, r)
  {}

  /** A write in flight stores the opposite, after a change of routes if it has no answer yet. */
  lemma Overwrites(s: State, a: string) returns (steps: seq<Step>)
    requires Inv(s) && a in s.cache && !Final(s, a, s.cache[a])
    ensures a in Run(s, steps).cache && Run(s, steps).cache[a] != s.cache[a]
  {
    var other := !s.cache[a];
    var store := Store(a, other);
    if Answered(a, other) in s.writers {
      RunOne(s, store);
      steps := [store];
    } else {
      var routes := Routes(_ => Some(other));
      var t := Next(s, routes);
      var u := Next(t, Ask(a));
      assert Answer(t.parser, t.filter.value, a) == Some(other);
      assert Answered(a, other) in u.writers;
      RunOne(u, store);
      steps := [routes, Ask(a), store];
      assert Run(s, steps) == Run(t, steps[1..]);
      assert steps[1..][1..] == [store];
      assert Run(t, steps[1..]) == Run(u, [store]);
    }
  }

  lemma RunOne(s: State, step: Step)
    ensures Run(s, [step]) == Next(s, step)
  {
    assert [step][1..] == [];
  }

  /** Exactly when a cached answer is never replaced, in any continuation: no write to the address is in flight that
      has yet to ask, or that has the other answer. */
  lemma EntryIsFinalIff(s: State, a: string)
    requires Inv(s) && a in s.cache
    ensures (forall steps :: a in Run(s, steps).cache && Run(s, steps).cache[a] == s.cache[a]) <==>
            Missed(a) !in s.writers && Answered(a, !s.cache[a]) !in s.writers
  {
    if Final(s, a, s.cache[a]) {
      forall steps
        ensures a in Run(s, steps).cache && Run(s, steps).cache[a] == s.cache[a]
      {
        FinalStays(s, steps, a, s.cache[a]);
      }
    } else {
      var steps := Overwrites(s, a);
    }
  }

  /** Exactly when the first answer stored for an address stays in every continuation: no other write to it is in
      flight at that moment that has yet to ask, or that has the other answer. */
  lemma FirstAnswerStaysIff(parser: Parser, filter: Filter, steps: seq<Step>, a: string, r: bool)
    requires var s := Run(Init(parser, Some(filter)), steps); LastStored(s.stores, a).None? && Answered(a, r) in s.writers
    ensures var s := Run(Init(parser, Some(filter)), steps);
            var t := Next(s, Store(a, r));
            (forall later :: LastStored(Run(t, later).stores, a) == Some(r)) <==>
            Missed(a) !in s.writers && Answered(a, !r) !in s.writers
  {
    var s := Run(Init(parser, Some(filter)), steps);
    RunInv(Init(parser, Some(filter)), steps);
    FirstStoreStaysIff(s, a, r);
  }

  lemma FirstStoreStaysIff(s: State, a: string, r: bool)
    requires Inv(s) && Answered(a, r) in s.writers
    ensures var t := Next(s, Store(a, r));
            (forall later :: LastStored(Run(t, later).stores, a) == Some(r)) <==>
            Missed(a) !in s.writers && Answered(a, !r) !in s.writers
  {
    var t := Next(s, Store(a, r));
    NextInv(s, Store(a, r));
    EntryIsFinalIff(t, a);
    forall later
      ensures LastStored(Run(t, later).stores, a) == Some(r) <==> a in Run(t, later).cache && Run(t, later).cache[a] == r
    {
      RunInv(t, later);
    }
  }

  /** Two first writes to an address overlap, the second answer overwrites the first, and a later write is passed on
      although the present routes and the first answer both call for a refusal. */
  lemma RacingAnswersOverwrite(a: string) returns (parser: Parser, filter: Filter, steps: seq<Step>)
    ensures var s := Run(Init(parser, Some(filter)), steps);
            && s.stores == [Stored(a, true), Stored(a, false)]
            && s.filter.Some? && Refused(s.parser, s.filter.value, a)
            && DecisionOf(s, Load(a)) == Some(Decision(a, true))
  {
    parser := Parser(x => Some(x), x => Some(x));
    filter := _ => Some(true);
    var free: Filter := _ => Some(false);
    var s0 := Init(parser, Some(filter));
    var s2 := Next(Next(s0, Load(a)), Load(a));
    var s3 := Next(s2, Ask(a));
    assert s3.writers == multiset{Missed(a), Answered(a, true)};
    var s5 := Next(Next(s3, Routes(free)), Ask(a));
    assert s5.writers == multiset{Answered(a, false), Answered(a, true)};
    StoreBoth(s5, a);
    RunFour(s0, Load(a), Load(a), Ask(a), Routes(free));
    var first, second := [Load(a), Load(a), Ask(a), Routes(free)], [Ask(a), Store(a, true), Store(a, false), Routes(filter)];
    RunFour(Run(s0, first), Ask(a), Store(a, true), Store(a, false), Routes(filter));
    RunBoth(s0, first, second);
    steps := first + second;
  }

  lemma StoreBoth(s: State, a: string)
    requires s.writers == multiset{Answered(a, false), Answered(a, true)} && s.stores == []
    ensures var t := Next(Next(s, Store(a, true)), Store(a, false));
            && t.stores == [Stored(a, true), Stored(a, false)] && t.cache == s.cache[a := false]
            && t.parser == s.parser && t.filter == s.filter
  {
    var t := Next(s, Store(a, true));
    assert t.stores == [Stored(a, true)] && Answered(a, false) in t.writers;
    assert s.cache[a := true][a := false] == s.cache[a := false];
  }

  /** Without any overlap: once an answer is stored, a change of routes goes unnoticed. */
  lemma StaleAnswerPasses(a: string) returns (parser: Parser, filter: Filter, steps: seq<Step>)
    ensures var s := Run(Init(parser, Some(filter)), steps);
            && s.filter.Some? && Refused(s.parser, s.filter.value, a)
            && DecisionOf(s, Load(a)) == Some(Decision(a, true))
  {
    parser := Parser(x => Some(x), x => Some(x));
    filter := _ => Some(false);
    var routed: Filter := _ => Some(true);
    steps := [Load(a), Ask(a), Store(a, false), Routes(routed)];
    RunFour(Init(parser, Some(filter)), Load(a), Ask(a), Store(a, false), Routes(routed));
  }

  lemma RunFour(s: State, a: Step, b: Step, c: Step, d: Step)
    ensures Run(s, [a, b, c, d]) == Next(Next(Next(Next(s, a), b), c), d)
  {
    var steps := [a, b, c, d];
    assert steps[1..] == [b, c, d] && steps[1..][1..] == [c, d] && steps[1..][1..][1..] == [d];
    RunOne(Next(Next(Next(s, a), b), c), d);
    assert Run(Next(Next(s, a), b), [c, d]) == Run(Next(Next(Next(s, a), b), c), [c, d][1..]);
    assert Run(Next(s, a), [b, c, d]) == Run(Next(Next(s, a), b), [b, c, d][1..]);
  }

  lemma {:induction false} RunBoth(s: State, a: seq<Step>, b: seq<Step>)
    ensures Run(s, a + b) == Run(Run(s, a), b)
    decreases |a|
  {
    if a == [] {
      assert a + b == b;
    } else {
      assert (a + b)[1..] == a[1..] + b;
      RunBoth(Next(s, a[0]), a[1..], b);
    }
  }

  // ---------------------------------------------------------------- writes one at a time

  ghost function InFlight(s: State, a: string): nat {
    s.writers[Missed(a)] + s.writers[Answered(a, true)] + s.writers[Answered(a, false)]
  }

  ghost function TimesStored(stores: seq<Stored>, a: string): nat {
    multiset(stores)[Stored(a, true)] + multiset(stores)[Stored(a, false)]
  }

  /** In every state of the run, at most one write to `a` is in flight. */
  ghost predicate SerialRun(s: State, steps: seq<Step>, a: string)
    decreases |steps|
  {
    InFlight(s, a) <= 1 && (steps != [] ==> SerialRun(Next(s, steps[0]), steps[1..], a))
  }

  lemma NextStoresOnce(s: State, step: Step, a: string)
    requires TimesStored(s.stores, a) + InFlight(s, a) <= 1 && (TimesStored(s.stores, a) > 0 ==> a in s.cache)
    requires InFlight(Next(s, step), a) <= 1
    ensures var t := Next(s, step);
            TimesStored(t.stores, a) + InFlight(t, a) <= 1 && (TimesStored(t.stores, a) > 0 ==> a in t.cache)
  {
    if step.Store? {
      StoreOnce(s, step.addr, step.routed, a);
    }
  }

  lemma StoreOnce(s: State, b: string, routed: bool, a: string)
    requires TimesStored(s.stores, a) > 0 ==> a in s.cache
    ensures var t := StoreNext(s, b, routed);
            && TimesStored(t.stores, a) + InFlight(t, a) == TimesStored(s.stores, a) + InFlight(s, a)
            && (TimesStored(t.stores, a) > 0 ==> a in t.cache)
  {}

  lemma {:induction false} SerialStoresOnce(s: State, steps: seq<Step>, a: string)
    requires SerialRun(s, steps, a)
    requires TimesStored(s.stores, a) + InFlight(s, a) <= 1 && (TimesStored(s.stores, a) > 0 ==> a in s.cache)
    ensures TimesStored(Run(s, steps).stores, a) <= 1
    decreases |steps|
  {
    if steps != [] {
      NextStoresOnce(s, steps[0], a);
      SerialStoresOnce(Next(s, steps[0]), steps[1..], a);
    }
  }

  /** If writes to an address never overlap, at most one answer is ever stored for it: the first is the last. */
  lemma SerialWritesStoreOnce(parser: Parser, filter: Option<Filter>, steps: seq<Step>, a: string)
    requires SerialRun(Init(parser, filter), steps, a)
    ensures TimesStored(Run(Init(parser, filter), steps).stores, a) <= 1
  {
    SerialStoresOnce(Init(parser, filter), steps, a);
  }
}
