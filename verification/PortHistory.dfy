/**
 What the store of the eBPF proxy holds, said in terms of the adds and exits of a run alone
 (client/internal/wgproxy/proxy_ebpf.go).
 */
module PortHistory {
  import opened Histories
  import opened Ports

  ghost function Before<Conn>(steps: seq<Step<Conn>>, i: nat): State<Conn>
    requires i <= |steps|
  {
    Run(Init<Conn>(), steps[..i])
  }

  /** The step gives the port to the connection. */
  ghost predicate Grants<Conn>(s: State<Conn>, step: Step<Conn>, port: int, conn: Conn)
    requires StoreOk(s)
  {
    && step == Add(conn) && |s.store| != MAX_PORT
    && |Next(s, step).grants| == |s.grants| + 1 && Next(s, step).grants[|s.grants|].port == port
  }

  lemma {:induction false} RunOneMore<Conn>(s: State<Conn>, steps: seq<Step<Conn>>, step: Step<Conn>)
    requires StoreOk(s)
    ensures Run(s, steps + [step]) == Next(Run(s, steps), step)
    decreases |steps|
  {
    if steps == [] {
      assert [step][1..] == [];
      assert steps + [step] == [step];
    } else {
      assert (steps + [step])[1..] == steps[1..] + [step];
      RunOneMore(Next(s, steps[0]), steps[1..], step);
    }
  }

  ghost predicate Serves<Conn>(s: State<Conn>, port: int, conn: Conn) {
    port in s.store && s.store[port] == conn
  }

  /** One step: a port is given out while it is free, and taken back by the exit of its own worker only. */
  lemma NextServes<Conn(!new)>(s: State<Conn>, step: Step<Conn>, port: int, conn: Conn)
    requires StoreOk(s) && WorkersMatch(s)
    ensures Serves(Next(s, step), port, conn) <==>
            Grants(s, step, port, conn) || (Serves(s, port, conn) && step != Exit(port, conn))
    ensures Grants(s, step, port, conn) ==> port !in s.store
  {
    match step
    case Add(c) => AddServes(s, c, port, conn);
    case Exit(p, c) => assert s.workers[Worker(p, c)] == if p in s.store && s.store[p] == c then 1 else 0;
  }

  lemma AddServes<Conn>(s: State<Conn>, c: Conn, port: int, conn: Conn)
    requires StoreOk(s)
    ensures Serves(AddNext(s, c), port, conn) <==> Grants(s, Add(c), port, conn) || Serves(s, port, conn)
    ensures Grants(s, Add(c), port, conn) ==> port !in s.store
  {
    StoreSize(s.store);
  }

  lemma StepServes<Conn(!new)>(steps: seq<Step<Conn>>, k: nat, port: int, conn: Conn)
    requires k < |steps|
    ensures Serves(Before(steps, k + 1), port, conn) <==>
            Grants(Before(steps, k), steps[k], port, conn) || (steps[k] != Exit(port, conn) && Serves(Before(steps, k), port, conn))
  {
    RunMatches(Init<Conn>(), steps[..k]);
    assert steps[..k + 1] == steps[..k] + [steps[k]];
    RunOneMore(Init<Conn>(), steps[..k], steps[k]);
    NextServes(Before(steps, k), steps[k], port, conn);
  }

  /** The port was granted to the connection, and the worker of that grant has not ended since. */
  ghost predicate Granted<Conn>(steps: seq<Step<Conn>>, port: int, conn: Conn) {
    exists i :: 0 <= i < |steps| && Grants(Before(steps, i), steps[i], port, conn) && NoExit(steps, i + 1, port, conn)
  }

  ghost predicate NoExit<Conn>(steps: seq<Step<Conn>>, from: int, port: int, conn: Conn)
    requires 0 <= from
  {
    forall j | from <= j < |steps| :: steps[j] != Exit(port, conn)
  }

  /** In every run: the store holds a connection under a port if and only if the port was granted to it and the worker
      of that grant has not ended since. */
  lemma StoredIffGranted<Conn(!new)>(steps: seq<Step<Conn>>, port: int, conn: Conn)
    ensures Serves(Run(Init<Conn>(), steps), port, conn) <==> Granted(steps, port, conn)
  {
    var starts := (k: int) => 0 <= k < |steps| && Grants(Before(steps, k), steps[k], port, conn);
    var ends := (k: int) => 0 <= k < |steps| && steps[k] == Exit(port, conn);
    var holds := (k: int) => 0 <= k <= |steps| && Serves(Before(steps, k), port, conn);
    NoneServed(steps, port, conn);
    StepsServe(steps, port, conn, starts, ends, holds);
    HoldsIffLasts(starts, ends, holds, |steps|);
    assert steps[..|steps|] == steps;
    GrantedSince(steps, port, conn, starts, ends);
  }

  lemma NoneServed<Conn>(steps: seq<Step<Conn>>, port: int, conn: Conn)
    ensures !Serves(Before(steps, 0), port, conn)
  {
    assert steps[..0] == [];
  }

  lemma StepsServe<Conn(!new)>(steps: seq<Step<Conn>>, port: int, conn: Conn,
                               starts: int -> bool, ends: int -> bool, holds: int -> bool)
    requires forall k :: starts(k) <==> 0 <= k < |steps| && Grants(Before(steps, k), steps[k], port, conn)
    requires forall k :: ends(k) <==> 0 <= k < |steps| && steps[k] == Exit(port, conn)
    requires forall k :: holds(k) <==> 0 <= k <= |steps| && Serves(Before(steps, k), port, conn)
    ensures forall k | 0 <= k < |steps| :: holds(k + 1) <==> starts(k) || (!ends(k) && holds(k))
  {
    forall k | 0 <= k < |steps|
      ensures holds(k + 1) <==> starts(k) || (!ends(k) && holds(k))
    {
      StepServes(steps, k, port, conn);
    }
  }

  lemma GrantedSince<Conn>(steps: seq<Step<Conn>>, port: int, conn: Conn, starts: int -> bool, ends: int -> bool)
    requires forall k :: starts(k) <==> 0 <= k < |steps| && Grants(Before(steps, k), steps[k], port, conn)
    requires forall k :: ends(k) <==> 0 <= k < |steps| && steps[k] == Exit(port, conn)
    ensures Lasts(starts, ends, |steps|) <==> Granted(steps, port, conn)
  {
    if Lasts(starts, ends, |steps|) {
      var i :| 0 <= i < |steps| && LastsFrom(starts, ends, i, |steps|);
      assert forall j | i < j < |steps| :: !ends(j);
      assert NoExit(steps, i + 1, port, conn);
    }
    if Granted(steps, port, conn) {
      var i :| 0 <= i < |steps| && Grants(Before(steps, i), steps[i], port, conn) && NoExit(steps, i + 1, port, conn);
      assert LastsFrom(starts, ends, i, |steps|);
    }
  }

  /** A port whose worker has ended is free again. */
  lemma FreedIsFree<Conn(!new)>(steps: seq<Step<Conn>>, port: int, conn: Conn)
    requires Worker(port, conn) in Run(Init<Conn>(), steps).workers
    ensures port !in Next(Run(Init<Conn>(), steps), Exit(port, conn)).store
    ensures Worker(port, conn) !in Next(Run(Init<Conn>(), steps), Exit(port, conn)).workers
  {
    RunMatches(Init<Conn>(), steps);
    var s := Run(Init<Conn>(), steps);
    assert s.workers[Worker(port, conn)] == 1;
  }
}
