/**
 The device's reading of the configuration text, and when it reads back what was printed.
 */
module UapiParse {
  import opened Wrappers
  import opened Bytes
  import opened Text
  import opened Uapi
  import opened Folds

  // ---------------------------------------------------------------- the parser

  /** The text before and after the first "=". */
  function KeyAndValue(line: string): Option<(string, string)> {
    if line == "" then None
    else if line[0] == '=' then Some(("", line[1..]))
    else
      var r := KeyAndValue(line[1..]);
      if r.None? then None else Some(([line[0]] + r.value.0, r.value.1))
  }

  function FieldOf(name: string): Option<Field> {
    if name == Name(PrivateKey) then Some(PrivateKey)
    else if name == Name(ListenPort) then Some(ListenPort)
    else if name == Name(ReplacePeers) then Some(ReplacePeers)
    else if name == Name(Fwmark) then Some(Fwmark)
    else if name == Name(PublicKey) then Some(PublicKey)
    else if name == Name(PresharedKey) then Some(PresharedKey)
    else if name == Name(Remove) then Some(Remove)
    else if name == Name(UpdateOnly) then Some(UpdateOnly)
    else if name == Name(ReplaceAllowedIPs) then Some(ReplaceAllowedIPs)
    else if name == Name(AllowedIP) then Some(AllowedIP)
    else if name == Name(Endpoint) then Some(Endpoint)
    else if name == Name(Keepalive) then Some(Keepalive)
    else None
  }

  function ParseKey(v: string): Option<Key> {
    var b := HexDecode(v);
    if b.Some? && |b.value| == 32 then Some(b.value) else None
  }

  function ParseDevice(c: Config, f: Field, v: string): Option<Config> {
    match f
    case PrivateKey => var k := ParseKey(v); if k.None? then None else Some(c.(privateKey := k))
    case ListenPort => var n := ParseInt(v); if n.None? then None else Some(c.(listenPort := n))
    case Fwmark => var n := ParseInt(v); if n.None? then None else Some(c.(fwmark := n))
    case ReplacePeers => if v == "true" then Some(c.(replacePeers := true)) else None
    case _ => None
  }

  function ParsePeer(p: PeerConfig, f: Field, v: string): Option<PeerConfig> {
    match f
    case PresharedKey => var k := ParseKey(v); if k.None? then None else Some(p.(presharedKey := k))
    case Remove => if v == "true" then Some(p.(remove := true)) else None
    case UpdateOnly => if v == "true" then Some(p.(updateOnly := true)) else None
    case ReplaceAllowedIPs => if v == "true" then Some(p.(replaceAllowedIPs := true)) else None
    case AllowedIP => if OneLine(v) && v != "" then Some(p.(allowedIPs := p.allowedIPs + [v])) else None
    case Endpoint => if OneLine(v) && v != "" then Some(p.(endpoint := Some(v))) else None
    case Keepalive =>
      var n := ParseInt(v);
      if n.None? then None else Some(p.(keepalive := Some(n.value * NANOSECONDS)))
    case _ => None
  }

  /** A public key starts a peer; before the first one lines are about the device, after it about the last peer. */
  function ParseField(c: Config, f: Field, v: string): Option<Config> {
    if f.PublicKey? then
      var k := ParseKey(v);
      if k.None? then None else Some(c.(peers := c.peers + [NewPeer(k.value)]))
    else if c.peers == [] then ParseDevice(c, f, v)
    else
      var last := |c.peers| - 1;
      var p := ParsePeer(c.peers[last], f, v);
      if p.None? then None else Some(c.(peers := c.peers[..last] + [p.value]))
  }

  function ParseLine(c: Config, line: string): Option<Config> {
    var kv := KeyAndValue(line);
    if kv.None? then None
    else
      var f := FieldOf(kv.value.0);
      if f.None? then None else ParseField(c, f.value, kv.value.1)
  }

  function ParseLines(c: Config, lines: seq<string>): Option<Config> {
    Fold(ParseLine, c, lines)
  }

  function Parse(text: string): Option<Config> {
    ParseLines(EMPTY, Lines(text))
  }

  // ---------------------------------------------------------------- reading one line

  lemma {:induction false} KeyValueSplits(k: string, v: string)
    requires '=' !in k
    ensures KeyAndValue(k + "=" + v) == Some((k, v))
  {
    var line := k + "=" + v;
    if k == "" {
      assert line[0] == '=' && line[1..] == v;
    } else {
      KeyValueSplits(k[1..], v);
      assert line[0] == k[0] && line[1..] == k[1..] + "=" + v;
      assert [k[0]] + k[1..] == k;
    }
  }

  /** Names are told apart by length and first letter. */
  lemma NamesDistinct()
    ensures |Name(PrivateKey)| == |Name(ListenPort)| == |Name(UpdateOnly)| == 11
    ensures Name(PrivateKey)[0] == 'p' && Name(ListenPort)[0] == 'l' && Name(UpdateOnly)[0] == 'u'
    ensures |Name(ReplacePeers)| == |Name(PresharedKey)| == 13
    ensures Name(ReplacePeers)[0] == 'r' && Name(PresharedKey)[0] == 'p'
    ensures |Name(Fwmark)| == |Name(Remove)| == 6
    ensures Name(Fwmark)[0] == 'f' && Name(Remove)[0] == 'r'
    ensures |Name(PublicKey)| == |Name(AllowedIP)| == 10
    ensures Name(PublicKey)[0] == 'p' && Name(AllowedIP)[0] == 'a'
    ensures |Name(ReplaceAllowedIPs)| == 19 && |Name(Endpoint)| == 8 && |Name(Keepalive)| == 29
  {}

  lemma FieldOfName(f: Field)
    ensures FieldOf(Name(f)) == Some(f)
  {
    NamesDistinct();
  }

  lemma NameIsPlain(f: Field)
    ensures '=' !in Name(f) && OneLine(Name(f))
  {}

  lemma ParseKeyLine(c: Config, f: Field, v: string)
    ensures ParseLine(c, KeyLine(f, v)) == ParseField(c, f, v)
  {
    NameIsPlain(f);
    KeyValueSplits(Name(f), v);
    FieldOfName(f);
  }

  lemma ParseKeyRoundTrip(k: Key)
    ensures ParseKey(HexEncode(k)) == Some(k)
  {
    HexRoundTrip(k);
  }

  // ---------------------------------------------------------------- reading a section

  /** A line parser; the proofs below only use what it does to lines that were printed. */
  type LineParser = (Config, string) -> Option<Config>

  ghost predicate Lawful(parse: LineParser) {
    forall c, f, v :: parse(c, KeyLine(f, v)) == ParseField(c, f, v)
  }

  /** Reading `lines` takes the configuration from `c` to `d`. */
  ghost predicate Reads(parse: LineParser, c: Config, lines: seq<string>, d: Config) {
    Fold(parse, c, lines) == Some(d)
  }

  lemma ReadsNothing(parse: LineParser, c: Config)
    ensures Reads(parse, c, [], c)
  {}

  lemma ReadsOne(parse: LineParser, c: Config, f: Field, v: string, d: Config)
    requires Lawful(parse) && ParseField(c, f, v) == Some(d)
    ensures Reads(parse, c, [KeyLine(f, v)], d)
  {
    var lines := [KeyLine(f, v)];
    assert lines[1..] == [];
    assert parse(c, KeyLine(f, v)) == Some(d);
  }

  lemma ReadsBoth(parse: LineParser, c: Config, a: seq<string>, d: Config, b: seq<string>, e: Config)
    requires Reads(parse, c, a, d) && Reads(parse, d, b, e)
    ensures Reads(parse, c, a + b, e)
  {
    FoldAppend(parse, c, a, b);
  }

  /** The configuration `c` with one more peer. */
  function With(c: Config, p: PeerConfig): Config {
    c.(peers := c.peers + [p])
  }

  lemma ReadsPeerLine(parse: LineParser, c: Config, p: PeerConfig, f: Field, v: string, q: PeerConfig)
    requires Lawful(parse)
    requires !f.PublicKey? && ParsePeer(p, f, v) == Some(q)
    ensures Reads(parse, With(c, p), [KeyLine(f, v)], With(c, q))
  {
    var d := With(c, p);
    var last := |d.peers| - 1;
    assert d.peers[last] == p && d.peers[..last] == c.peers;
    ReadsOne(parse, d, f, v, With(c, q));
  }

  /** A peer as the device ends up seeing it: `UpdateOnly` is not printed, and the keepalive is in whole seconds. */
  function Seen(p: PeerConfig): PeerConfig {
    p.(updateOnly := false, keepalive := if p.keepalive.None? then None else Some(Seconds(p.keepalive.value) * NANOSECONDS))
  }

  function RemoveLines(p: PeerConfig): seq<string> {
    if p.remove then [KeyLine(Remove, "true")] else []
  }

  lemma PresharedReads(parse: LineParser, c: Config, p: PeerConfig, from: PeerConfig)
    requires Lawful(parse)
    requires p.presharedKey.None?
    ensures Reads(parse, With(c, p), PresharedLines(from), With(c, p.(presharedKey := from.presharedKey)))
  {
    var q := p.(presharedKey := from.presharedKey);
    if from.presharedKey.Some? {
      ParseKeyRoundTrip(from.presharedKey.value);
      ReadsPeerLine(parse, c, p, PresharedKey, HexEncode(from.presharedKey.value), q);
    } else {
      ReadsNothing(parse, With(c, p));
    }
  }

  lemma RemoveReads(parse: LineParser, c: Config, p: PeerConfig, from: PeerConfig)
    requires Lawful(parse)
    requires !p.remove
    ensures Reads(parse, With(c, p), RemoveLines(from), With(c, p.(remove := from.remove)))
  {
    if from.remove {
      ReadsPeerLine(parse, c, p, Remove, "true", p.(remove := true));
    } else {
      ReadsNothing(parse, With(c, p));
    }
  }

  lemma ReplaceReads(parse: LineParser, c: Config, p: PeerConfig, from: PeerConfig)
    requires Lawful(parse)
    requires !p.replaceAllowedIPs
    ensures Reads(parse, With(c, p), ReplaceLines(from), With(c, p.(replaceAllowedIPs := from.replaceAllowedIPs)))
  {
    if from.replaceAllowedIPs {
      ReadsPeerLine(parse, c, p, ReplaceAllowedIPs, "true", p.(replaceAllowedIPs := true));
    } else {
      ReadsNothing(parse, With(c, p));
    }
  }

  lemma {:induction false} AllowedReads(parse: LineParser, c: Config, p: PeerConfig, ips: seq<Token>)
    requires Lawful(parse)
    ensures Reads(parse, With(c, p), AllowedLines(ips), With(c, p.(allowedIPs := p.allowedIPs + ips)))
    decreases |ips|
  {
    if ips == [] {
      assert p.allowedIPs + ips == p.allowedIPs;
      ReadsNothing(parse, With(c, p));
    } else {
      var q := p.(allowedIPs := p.allowedIPs + [ips[0]]);
      var r := q.(allowedIPs := q.allowedIPs + ips[1..]);
      ReadsPeerLine(parse, c, p, AllowedIP, ips[0], q);
      AllowedReads(parse, c, q, ips[1..]);
      ReadsBoth(parse, With(c, p), [AllowedLine(ips[0])], With(c, q), AllowedLines(ips[1..]), With(c, r));
      assert r.allowedIPs == p.allowedIPs + ips;
    }
  }

  lemma EndpointReads(parse: LineParser, c: Config, p: PeerConfig, from: PeerConfig)
    requires Lawful(parse)
    requires p.endpoint.None?
    ensures Reads(parse, With(c, p), EndpointLines(from), With(c, p.(endpoint := from.endpoint)))
  {
    if from.endpoint.Some? {
      ReadsPeerLine(parse, c, p, Endpoint, from.endpoint.value, p.(endpoint := from.endpoint));
    } else {
      ReadsNothing(parse, With(c, p));
    }
  }

  lemma KeepaliveReads(parse: LineParser, c: Config, p: PeerConfig, from: PeerConfig)
    requires Lawful(parse)
    requires p.keepalive.None?
    ensures Reads(parse, With(c, p), KeepaliveLines(from), With(c, p.(keepalive := Seen(from).keepalive)))
  {
    if from.keepalive.Some? {
      IntRoundTrip(Seconds(from.keepalive.value));
      ReadsPeerLine(parse, c, p, Keepalive, IntText(Seconds(from.keepalive.value)), p.(keepalive := Seen(from).keepalive));
    } else {
      ReadsNothing(parse, With(c, p));
    }
  }

  lemma HeadReads(parse: LineParser, c: Config, p: PeerConfig)
    requires Lawful(parse)
    ensures Reads(parse, c, PeerHead(p), With(c, NewPeer(p.publicKey).(presharedKey := p.presharedKey)))
  {
    ParseKeyRoundTrip(p.publicKey);
    var p0 := NewPeer(p.publicKey);
    ReadsOne(parse, c, PublicKey, HexEncode(p.publicKey), With(c, p0));
    PresharedReads(parse, c, p0, p);
    ReadsBoth(parse, c, [KeyLine(PublicKey, HexEncode(p.publicKey))], With(c, p0),
              PresharedLines(p), With(c, p0.(presharedKey := p.presharedKey)));
  }

  lemma TailReads(parse: LineParser, c: Config, p: PeerConfig, from: PeerConfig)
    requires Lawful(parse)
    requires !p.replaceAllowedIPs && p.allowedIPs == [] && p.endpoint.None? && p.keepalive.None?
    ensures Reads(parse, With(c, p), PeerTail(from),
                  With(c, p.(replaceAllowedIPs := from.replaceAllowedIPs, allowedIPs := from.allowedIPs,
                             endpoint := from.endpoint, keepalive := Seen(from).keepalive)))
  {
    var q := p.(replaceAllowedIPs := from.replaceAllowedIPs);
    var r := q.(allowedIPs := from.allowedIPs);
    var t := r.(endpoint := from.endpoint);
    var u := t.(keepalive := Seen(from).keepalive);
    ReplaceReads(parse, c, p, from);
    AllowedReads(parse, c, q, from.allowedIPs);
    assert q.allowedIPs + from.allowedIPs == from.allowedIPs;
    EndpointReads(parse, c, r, from);
    KeepaliveReads(parse, c, t, from);
    ReadsBoth(parse, With(c, p), ReplaceLines(from), With(c, q), AllowedLines(from.allowedIPs), With(c, r));
    ReadsBoth(parse, With(c, p), ReplaceLines(from) + AllowedLines(from.allowedIPs), With(c, r), EndpointLines(from), With(c, t));
    ReadsBoth(parse, With(c, p), ReplaceLines(from) + AllowedLines(from.allowedIPs) + EndpointLines(from), With(c, t),
              KeepaliveLines(from), With(c, u));
  }

  /** The lines of a peer, `remove` on a line of its own. */
  function PeerLines(p: PeerConfig): seq<string> {
    PeerHead(p) + RemoveLines(p) + PeerTail(p)
  }

  lemma PeerReads(parse: LineParser, c: Config, p: PeerConfig)
    requires Lawful(parse)
    ensures Reads(parse, c, PeerLines(p), With(c, Seen(p)))
  {
    var q := NewPeer(p.publicKey).(presharedKey := p.presharedKey);
    HeadReads(parse, c, p);
    RemoveReads(parse, c, q, p);
    TailReads(parse, c, q.(remove := p.remove), p);
    ReadsBoth(parse, c, PeerHead(p), With(c, q), RemoveLines(p), With(c, q.(remove := p.remove)));
    ReadsBoth(parse, c, PeerHead(p) + RemoveLines(p), With(c, q.(remove := p.remove)), PeerTail(p), With(c, Seen(p)));
  }

  /** The lines `f` gives for each element. */
  function AllLines<T>(f: T -> seq<string>, s: seq<T>): seq<string> {
    if s == [] then [] else f(s[0]) + AllLines(f, s[1..])
  }

  function SeenAll(ps: seq<PeerConfig>): seq<PeerConfig> {
    if ps == [] then [] else [Seen(ps[0])] + SeenAll(ps[1..])
  }

  lemma {:induction false} EachReads(parse: LineParser, f: PeerConfig -> seq<string>, c: Config, ps: seq<PeerConfig>)
    requires forall c, p :: Reads(parse, c, f(p), With(c, Seen(p)))
    ensures Reads(parse, c, AllLines(f, ps), c.(peers := c.peers + SeenAll(ps)))
    decreases |ps|
  {
    if ps == [] {
      assert c.peers + SeenAll(ps) == c.peers;
      ReadsNothing(parse, c);
    } else {
      var d := With(c, Seen(ps[0]));
      var e := d.(peers := d.peers + SeenAll(ps[1..]));
      EachReads(parse, f, d, ps[1..]);
      ReadsBoth(parse, c, f(ps[0]), d, AllLines(f, ps[1..]), e);
      assert e.peers == c.peers + SeenAll(ps);
    }
  }

  function PeersLines(ps: seq<PeerConfig>): seq<string> {
    AllLines(PeerLines, ps)
  }

  lemma PeersRead(parse: LineParser, c: Config, ps: seq<PeerConfig>)
    requires Lawful(parse)
    ensures Reads(parse, c, PeersLines(ps), c.(peers := c.peers + SeenAll(ps)))
  {
    var f := PeerLines;
    forall c, p
      ensures Reads(parse, c, f(p), With(c, Seen(p)))
    {
      PeerReads(parse, c, p);
    }
    EachReads(parse, f, c, ps);
  }

  lemma DeviceReads(parse: LineParser, c: Config)
    requires Lawful(parse)
    ensures Reads(parse, EMPTY, DeviceLines(c), c.(peers := []))
  {
    var c1 := EMPTY.(privateKey := c.privateKey);
    var c2 := c1.(listenPort := c.listenPort);
    var c3 := c2.(replacePeers := c.replacePeers);
    ReadsNothing(parse, EMPTY);
    ReadsNothing(parse, c1);
    ReadsNothing(parse, c2);
    ReadsNothing(parse, c3);
    if c.privateKey.Some? {
      ParseKeyRoundTrip(c.privateKey.value);
      ReadsOne(parse, EMPTY, PrivateKey, HexEncode(c.privateKey.value), c1);
    }
    if c.listenPort.Some? {
      IntRoundTrip(c.listenPort.value);
      ReadsOne(parse, c1, ListenPort, IntText(c.listenPort.value), c2);
    }
    if c.replacePeers {
      ReadsOne(parse, c2, ReplacePeers, "true", c3);
    }
    if c.fwmark.Some? {
      IntRoundTrip(c.fwmark.value);
      ReadsOne(parse, c3, Fwmark, IntText(c.fwmark.value), c.(peers := []));
    }
    DeviceReadsInOrder(parse, c, c1, c2, c3);
  }

  lemma DeviceReadsInOrder(parse: LineParser, c: Config, c1: Config, c2: Config, c3: Config)
    requires Reads(parse, EMPTY, PrivateKeyLines(c), c1) && Reads(parse, c1, ListenPortLines(c), c2)
    requires Reads(parse, c2, ReplacePeersLines(c), c3) && Reads(parse, c3, FwmarkLines(c), c.(peers := []))
    ensures Reads(parse, EMPTY, DeviceLines(c), c.(peers := []))
  {
    var a, b, d, e := PrivateKeyLines(c), ListenPortLines(c), ReplacePeersLines(c), FwmarkLines(c);
    ReadsBoth(parse, EMPTY, a, c1, b, c2);
    ReadsBoth(parse, EMPTY, a + b, c2, d, c3);
    ReadsBoth(parse, EMPTY, a + b + d, c3, e, c.(peers := []));
  }
}
