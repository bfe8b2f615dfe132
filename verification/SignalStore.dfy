/**
 The signalling server's peer table (signal/store/peer.go): logins create and update rows, queries read them.
 The table is proved to be a function of the history of logins alone.
 */
module SignalStore {

  datatype Login = Login(ip: string, port: int, clientId: string, wgPubKey: string, token: string, allowedIp: string)
  datatype Peer = Peer(clientId: string, ip: string, port: int, wgPubKey: string, token: string, allowedIp: string)

  datatype Key = Key(token: string, client: string)

  function LoginKey(l: Login): Key { Key(l.token, l.clientId) }

  function PeerKey(p: Peer): Key { Key(p.token, p.clientId) }

  // ---- what a history of logins means ----

  /** The logins of one client, oldest first. */
  function LoginsOf(log: seq<Login>, k: Key): (r: seq<Login>)
    ensures forall l | l in r :: LoginKey(l) == k
  {
    if log == [] then []
    else
      var last := log[|log| - 1];
      LoginsOf(log[..|log| - 1], k) + if LoginKey(last) == k then [last] else []
  }

  /** Those with the token and the client, as often as they occurred. */
  lemma {:induction false} LoginsCount(log: seq<Login>, token: string, client: string, l: Login)
    ensures multiset(LoginsOf(log, Key(token, client)))[l] ==
            if l.token == token && l.clientId == client then multiset(log)[l] else 0
  {
    if log != [] {
      LoginsCount(log[..|log| - 1], token, client, l);
      assert log == log[..|log| - 1] + [log[|log| - 1]];
    }
  }

  /** The clients that have logged in, by first login. */
  function Clients(log: seq<Login>): seq<Key> {
    if log == [] then []
    else
      var before, k := Clients(log[..|log| - 1]), LoginKey(log[|log| - 1]);
      if k in before then before else before + [k]
  }

  function Ip(l: Login): string { l.ip }

  function Port(l: Login): int { l.port }

  function PubKey(l: Login): string { l.wgPubKey }

  /** The most recent value that is not the zero value. */
  function Latest<T(==)>(logins: seq<Login>, field: Login -> T, zero: T): T {
    if logins == [] then zero
    else
      var last := field(logins[|logins| - 1]);
      if last != zero then last else Latest(logins[..|logins| - 1], field, zero)
  }

  /** A client as its history describes it: its allowed address is that of its first login. */
  function Known(logins: seq<Login>): Peer
    requires logins != []
  {
    Peer(logins[0].clientId, Latest(logins, Ip, ""), Latest(logins, Port, 0),
         Latest(logins, PubKey, ""), logins[0].token, logins[0].allowedIp)
  }

  lemma {:induction false} ClientsHaveLogins(log: seq<Login>)
    ensures forall k :: k in Clients(log) <==> LoginsOf(log, k) != []
    ensures forall i, j | 0 <= i < j < |Clients(log)| :: Clients(log)[i] != Clients(log)[j]
  {
    if log != [] {
      ClientsHaveLogins(log[..|log| - 1]);
    }
  }

  function Table(log: seq<Login>): (r: seq<Peer>)
    ensures |r| == |Clients(log)|
    ensures forall i | 0 <= i < |r| :: LoginsOf(log, Clients(log)[i]) != [] && r[i] == Known(LoginsOf(log, Clients(log)[i]))
  {
    ClientsHaveLogins(log);
    seq(|Clients(log)|, i requires 0 <= i < |Clients(log)| =>
      assert Clients(log)[i] in Clients(log);
      Known(LoginsOf(log, Clients(log)[i])))
  }

  // ---- the statements run on the database ----

  /** `Where("token = ?").Find`. */
  function WithToken(rows: seq<Peer>, token: string): (r: seq<Peer>)
    ensures forall p :: p in r <==> p in rows && p.token == token
  {
    if rows == [] then []
    else (if rows[0].token == token then [rows[0]] else []) + WithToken(rows[1..], token)
  }

  /** `Updates` with a struct: fields with the zero value are left alone. */
  function Refreshed(p: Peer, l: Login): Peer {
    p.(wgPubKey := if l.wgPubKey != "" then l.wgPubKey else p.wgPubKey,
       ip := if l.ip != "" then l.ip else p.ip,
       port := if l.port != 0 then l.port else p.port)
  }

  function Updated(rows: seq<Peer>, l: Login): (r: seq<Peer>)
    ensures |r| == |rows|
    ensures forall i | 0 <= i < |rows| :: r[i] == if PeerKey(rows[i]) == LoginKey(l) then Refreshed(rows[i], l) else rows[i]
  {
    seq(|rows|, i requires 0 <= i < |rows| =>
      if PeerKey(rows[i]) == LoginKey(l) then Refreshed(rows[i], l) else rows[i])
  }

  function NewPeer(l: Login): Peer {
    Peer(l.clientId, l.ip, l.port, l.wgPubKey, l.token, l.allowedIp)
  }

  // ---- one more login ----

  lemma LatestNext<T>(logins: seq<Login>, l: Login, field: Login -> T, zero: T)
    ensures Latest(logins + [l], field, zero) == if field(l) != zero then field(l) else Latest(logins, field, zero)
  {
    assert (logins + [l])[..|logins|] == logins;
  }

  lemma KnownNext(logins: seq<Login>, l: Login)
    requires logins != []
    ensures Known(logins + [l]) == Refreshed(Known(logins), l)
  {
    LatestNext(logins, l, Ip, "");
    LatestNext(logins, l, Port, 0);
    LatestNext(logins, l, PubKey, "");
  }

  lemma KnownFirst(l: Login)
    ensures Known([l]) == NewPeer(l)
  {
    assert [] + [l] == [l];
    LatestNext([], l, Ip, "");
    LatestNext([], l, Port, 0);
    LatestNext([], l, PubKey, "");
  }

  lemma LogNext(log: seq<Login>, l: Login)
    ensures forall k :: LoginsOf(log + [l], k) == LoginsOf(log, k) + if LoginKey(l) == k then [l] else []
    ensures Clients(log + [l]) == Clients(log) + if LoginKey(l) in Clients(log) then [] else [LoginKey(l)]
  {
    assert (log + [l])[..|log|] == log;
  }

  lemma TableKeys(log: seq<Login>, i: nat)
    requires i < |Clients(log)|
    ensures PeerKey(Table(log)[i]) == Clients(log)[i]
  {
    var logins := LoginsOf(log, Clients(log)[i]);
    assert logins[0] in logins;
  }

  lemma KnownAt(log: seq<Login>, i: nat)
    requires i < |Clients(log)|
    ensures LoginsOf(log, Clients(log)[i]) != [] && Table(log)[i] == Known(LoginsOf(log, Clients(log)[i]))
    ensures PeerKey(Table(log)[i]) == Clients(log)[i]
  {
    TableKeys(log, i);
  }

  lemma RowNext(log: seq<Login>, l: Login, i: nat)
    requires i < |Clients(log)| && LoginsOf(log, Clients(log)[i]) != []
    ensures var k := Clients(log)[i];
            var before := Known(LoginsOf(log, k));
            Known(LoginsOf(log + [l], k)) == if k == LoginKey(l) then Refreshed(before, l) else before
  {
    LogNext(log, l);
    var k := Clients(log)[i];
    if k == LoginKey(l) {
      KnownNext(LoginsOf(log, k), l);
    } else {
      assert LoginsOf(log + [l], k) == LoginsOf(log, k);
    }
  }

  lemma TableNextAt(log: seq<Login>, l: Login, i: nat)
    requires i < |Clients(log)|
    ensures i < |Clients(log + [l])|
    ensures Table(log + [l])[i] == Updated(Table(log), l)[i]
  {
    KnownAt(log, i);
    LogNext(log, l);
    assert Clients(log + [l])[i] == Clients(log)[i];
    KnownAt(log + [l], i);
    RowNext(log, l, i);
  }

  /** A login by a known client refreshes its row. */
  lemma TableUpdated(log: seq<Login>, l: Login)
    requires LoginKey(l) in Clients(log)
    ensures Table(log + [l]) == Updated(Table(log), l)
  {
    LogNext(log, l);
    var now, next := Table(log + [l]), Updated(Table(log), l);
    forall i: nat | i < |now|
      ensures now[i] == next[i]
    {
      TableNextAt(log, l, i);
    }
  }

  lemma UnknownUnchanged(log: seq<Login>, l: Login)
    requires LoginKey(l) !in Clients(log)
    ensures Updated(Table(log), l) == Table(log)
  {
    forall i: nat | i < |Table(log)|
      ensures Updated(Table(log), l)[i] == Table(log)[i]
    {
      KnownAt(log, i);
    }
  }

  lemma NewRow(log: seq<Login>, l: Login)
    requires LoginKey(l) !in Clients(log)
    ensures var n := |Clients(log)|;
            Clients(log + [l]) == Clients(log) + [LoginKey(l)] && Table(log + [l])[n] == NewPeer(l)
  {
    LogNext(log, l);
    ClientsHaveLogins(log);
    KnownFirst(l);
    assert LoginsOf(log + [l], LoginKey(l)) == [l];
    KnownAt(log + [l], |Clients(log)|);
  }

  /** A login by a new client adds a row. */
  lemma TableCreated(log: seq<Login>, l: Login)
    requires LoginKey(l) !in Clients(log)
    ensures Table(log + [l]) == Table(log) + [NewPeer(l)]
  {
    NewRow(log, l);
    UnknownUnchanged(log, l);
    var now, next := Table(log + [l]), Table(log) + [NewPeer(l)];
    forall i: nat | i < |now|
      ensures now[i] == next[i]
    {
      if i < |Table(log)| {
        TableNextAt(log, l, i);
      }
    }
  }

  /** A client of a token has a row under that token exactly if it has logged in. */
  lemma RowIffLogin(log: seq<Login>, l: Login)
    ensures (exists p :: p in WithToken(Table(log), l.token) && p.clientId == l.clientId) <==> LoginsOf(log, LoginKey(l)) != []
  {
    ClientsHaveLogins(log);
    forall i: nat | i < |Clients(log)|
      ensures PeerKey(Table(log)[i]) == Clients(log)[i]
    {
      TableKeys(log, i);
    }
    if LoginKey(l) in Clients(log) {
      var i :| 0 <= i < |Clients(log)| && Clients(log)[i] == LoginKey(l);
      assert Table(log)[i] in WithToken(Table(log), l.token);
    }
  }

  ghost function Saved(rows: seq<Peer>, l: Login): seq<Peer> {
    if exists p :: p in rows && p.token == l.token && p.clientId == l.clientId then Updated(rows, l) else rows + [NewPeer(l)]
  }

  lemma LoginKeepsTable(log: seq<Login>, l: Login)
    ensures Table(log + [l]) == Saved(Table(log), l)
  {
    RowIffLogin(log, l);
    ClientsHaveLogins(log);
    if LoginKey(l) in Clients(log) {
      TableUpdated(log, l);
    } else {
      TableCreated(log, l);
    }
  }

  /** What a query returns for rows: everybody else under the token. */
  function Others(rows: seq<Peer>, clientId: string): (r: seq<Peer>)
    ensures forall p :: p in r <==> p in rows && p.clientId != clientId
  {
    if rows == [] then []
    else
      var last := rows[|rows| - 1];
      Others(rows[..|rows| - 1], clientId) + if last.clientId != clientId then [last] else []
  }

  class Store {
    var rows: seq<Peer>
    /** Every login so far. */
    ghost var log: seq<Login>

    ghost predicate Valid()
      reads this
    {
      rows == Table(log)
    }

    constructor ()
      ensures Valid() && log == []
    {
      rows, log := [], [];
    }

    /** The loop of `Register`: has this client a row under its token? */
    method Search(l: Login) returns (found: bool)
      ensures found <==> exists p :: p in WithToken(rows, l.token) && p.clientId == l.clientId
    {
      var peers := WithToken(rows, l.token);
      for i := 0 to |peers|
        invariant forall k | 0 <= k < i :: peers[k].clientId != l.clientId
      {
        if peers[i].clientId == l.clientId {
          assert peers[i] in peers;
          return true;
        }
      }
      return false;
    }

    /** The row of the client is refreshed, a zero value leaving what was there, or created. */
    method Register(l: Login)
      requires Valid()
      modifies this
      ensures Valid() && log == old(log) + [l]
      ensures if exists p :: p in old(rows) && p.token == l.token && p.clientId == l.clientId
              then && |rows| == |old(rows)|
                   && forall i | 0 <= i < |rows| ::
                        var p := old(rows)[i];
                        rows[i] == if p.token != l.token || p.clientId != l.clientId then p
                                   else Peer(p.clientId, if l.ip != "" then l.ip else p.ip,
                                             if l.port != 0 then l.port else p.port,
                                             if l.wgPubKey != "" then l.wgPubKey else p.wgPubKey, p.token, p.allowedIp)
              else rows == old(rows) + [Peer(l.clientId, l.ip, l.port, l.wgPubKey, l.token, l.allowedIp)]
    {
      LoginKeepsTable(log, l);
      Save(l);
      log := log + [l];
    }

    method Save(l: Login)
      modifies this`rows
      ensures rows == Saved(old(rows), l)
      ensures if exists p :: p in old(rows) && p.token == l.token && p.clientId == l.clientId
              then && |rows| == |old(rows)|
                   && forall i | 0 <= i < |rows| ::
                        var p := old(rows)[i];
                        rows[i] == if p.token != l.token || p.clientId != l.clientId then p
                                   else Peer(p.clientId, if l.ip != "" then l.ip else p.ip,
                                             if l.port != 0 then l.port else p.port,
                                             if l.wgPubKey != "" then l.wgPubKey else p.wgPubKey, p.token, p.allowedIp)
              else rows == old(rows) + [Peer(l.clientId, l.ip, l.port, l.wgPubKey, l.token, l.allowedIp)]
    {
      var found := Search(l);
      if found {
        rows := Updated(rows, l);
      } else {
        rows := rows + [NewPeer(l)];
      }
    }

    /** Every other client that has logged in under the token, exactly once, as its history describes it. */
    method GetClients(clientId: string, token: string) returns (configs: seq<Peer>)
      requires Valid()
      ensures forall c :: (exists p :: p in configs && p.clientId == c) <==>
                          c != clientId && LoginsOf(log, Key(token, c)) != []
      ensures forall p | p in configs :: LoginsOf(log, Key(token, p.clientId)) != [] &&
                                         p == Known(LoginsOf(log, Key(token, p.clientId)))
      ensures forall i, j | 0 <= i < j < |configs| :: configs[i].clientId != configs[j].clientId
    {
      configs := [];
      var peers := WithToken(rows, token);
      for i := 0 to |peers|
        invariant configs == Others(peers[..i], clientId)
      {
        assert peers[..i + 1][..i] == peers[..i];
        if peers[i].clientId != clientId {
          configs := configs + [peers[i]];
        }
      }
      assert peers[..|peers|] == peers;
      ClientsExactlyOnce(log, clientId, token);
    }
  }

  // ---- what a query shows ----

  predicate Distinct(rows: seq<Peer>) {
    forall i, j | 0 <= i < j < |rows| :: PeerKey(rows[i]) != PeerKey(rows[j])
  }

  lemma OneRowPerClient(log: seq<Login>)
    ensures Distinct(Table(log))
  {
    ClientsHaveLogins(log);
    forall i: nat | i < |Clients(log)|
      ensures PeerKey(Table(log)[i]) == Clients(log)[i]
    {
      TableKeys(log, i);
    }
  }

  lemma {:induction false} WithTokenDistinct(rows: seq<Peer>, token: string)
    requires Distinct(rows)
    ensures Distinct(WithToken(rows, token))
  {
    if rows != [] {
      WithTokenDistinct(rows[1..], token);
      assert forall p | p in rows[1..] :: PeerKey(p) != PeerKey(rows[0]);
    }
  }

  lemma {:induction false} OthersDistinct(rows: seq<Peer>, clientId: string)
    requires Distinct(rows)
    ensures Distinct(Others(rows, clientId))
  {
    if rows != [] {
      var init := rows[..|rows| - 1];
      OthersDistinct(init, clientId);
      assert forall p | p in init :: PeerKey(p) != PeerKey(rows[|rows| - 1]);
    }
  }

  /** A row is in the table exactly if it is what the history of its client says. */
  lemma RowIff(log: seq<Login>, p: Peer)
    ensures p in Table(log) <==> LoginsOf(log, PeerKey(p)) != [] && p == Known(LoginsOf(log, PeerKey(p)))
  {
    ClientsHaveLogins(log);
    if p in Table(log) {
      var i :| 0 <= i < |Clients(log)| && Table(log)[i] == p;
      TableKeys(log, i);
    }
    if LoginsOf(log, PeerKey(p)) != [] {
      var i :| 0 <= i < |Clients(log)| && Clients(log)[i] == PeerKey(p);
      assert Table(log)[i] == Known(LoginsOf(log, PeerKey(p)));
    }
  }

  lemma KnownKey(log: seq<Login>, k: Key)
    requires LoginsOf(log, k) != []
    ensures PeerKey(Known(LoginsOf(log, k))) == k
  {
    assert LoginsOf(log, k)[0] in LoginsOf(log, k);
  }

  lemma ClientsExactlyOnce(log: seq<Login>, clientId: string, token: string)
    ensures var shown := Others(WithToken(Table(log), token), clientId);
            && (forall c :: (exists p :: p in shown && p.clientId == c) <==> c != clientId && LoginsOf(log, Key(token, c)) != [])
            && (forall p | p in shown :: LoginsOf(log, Key(token, p.clientId)) != [] &&
                                         p == Known(LoginsOf(log, Key(token, p.clientId))))
            && (forall i, j | 0 <= i < j < |shown| :: shown[i].clientId != shown[j].clientId)
  {
    var shown := Others(WithToken(Table(log), token), clientId);
    OneRowPerClient(log);
    WithTokenDistinct(Table(log), token);
    OthersDistinct(WithToken(Table(log), token), clientId);
    forall p: Peer
      ensures p in Table(log) <==> LoginsOf(log, PeerKey(p)) != [] && p == Known(LoginsOf(log, PeerKey(p)))
    {
      RowIff(log, p);
    }
    forall c | c != clientId && LoginsOf(log, Key(token, c)) != []
      ensures exists p :: p in shown && p.clientId == c
    {
      KnownKey(log, Key(token, c));
      assert Known(LoginsOf(log, Key(token, c))) in shown;
    }
    forall i, j | 0 <= i < j < |shown|
      ensures shown[i].clientId != shown[j].clientId
    {
      assert shown[i] in shown && shown[j] in shown;
    }
  }

  /** A row shows a client's latest login exactly when that login carried no zero value that an older one
      overrides, and its allowed address is the one it first registered. */
  lemma LatestShownIff(logins: seq<Login>, l: Login)
    ensures var p := Known(logins + [l]);
            && (p == NewPeer(l).(clientId := p.clientId, token := p.token, allowedIp := p.allowedIp) <==>
                && (l.ip != "" || forall x | x in logins :: x.ip == "")
                && (l.port != 0 || forall x | x in logins :: x.port == 0)
                && (l.wgPubKey != "" || forall x | x in logins :: x.wgPubKey == ""))
            && p.allowedIp == (logins + [l])[0].allowedIp
  {
    LatestNext(logins, l, Ip, "");
    LatestNext(logins, l, Port, 0);
    LatestNext(logins, l, PubKey, "");
    LatestZeroIff(logins, Ip, "");
    LatestZeroIff(logins, Port, 0);
    LatestZeroIff(logins, PubKey, "");
  }

  lemma {:induction false} LatestZeroIff<T>(logins: seq<Login>, field: Login -> T, zero: T)
    ensures Latest(logins, field, zero) == zero <==> forall x | x in logins :: field(x) == zero
  {
    if logins != [] {
      var init, last := logins[..|logins| - 1], logins[|logins| - 1];
      LatestZeroIff(init, field, zero);
      assert logins == init + [last];
    }
  }
}
