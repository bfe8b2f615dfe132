/**
 The configuration text of a user-space WireGuard device (the set operation of the WireGuard
 cross-platform configuration protocol): `toWgUserspaceString` in iface/wg_configurer_usp.go prints it,
 the device parses it.
 */
module Uapi {
  import opened Wrappers
  import opened Bytes
  import opened Text

  type Key = k: seq<Byte> | |k| == 32 witness seq(32, i => 0)

  /** The text of an address or a prefix. */
  type Token = s: string | OneLine(s) && s != ""  witness "0"

  const NANOSECONDS := 1_000_000_000

  datatype PeerConfig = PeerConfig(
    publicKey: Key,
    updateOnly: bool,
    remove: bool,
    presharedKey: Option<Key>,
    replaceAllowedIPs: bool,
    allowedIPs: seq<Token>,
    endpoint: Option<Token>,
    keepalive: Option<int>)     // nanoseconds

  datatype Config = Config(
    privateKey: Option<Key>,
    listenPort: Option<int>,
    replacePeers: bool,
    fwmark: Option<int>,
    peers: seq<PeerConfig>)

  const EMPTY := Config(None, None, false, None, [])

  function NewPeer(key: Key): PeerConfig {
    PeerConfig(key, false, false, None, false, [], None, None)
  }

  // ---------------------------------------------------------------- printing

  /** The keys of the protocol that the printer or the parser knows. */
  datatype Field = PrivateKey | ListenPort | ReplacePeers | Fwmark | PublicKey | PresharedKey | Remove
                 | UpdateOnly | ReplaceAllowedIPs | AllowedIP | Endpoint | Keepalive

  const PRIVATE_KEY: string := "private_key"
  const LISTEN_PORT: string := "listen_port"
  const REPLACE_PEERS: string := "replace_peers"
  const FWMARK: string := "fwmark"
  const PUBLIC_KEY: string := "public_key"
  const PRESHARED_KEY: string := "preshared_key"
  const REMOVE: string := "remove"
  const UPDATE_ONLY: string := "update_only"
  const REPLACE_ALLOWED_IPS: string := "replace_allowed_ips"
  const ALLOWED_IP: string := "allowed_ip"
  const ENDPOINT: string := "endpoint"
  const PERSISTENT_KEEPALIVE_INTERVAL: string := "persistent_keepalive_interval"

  function Name(f: Field): string {
    match f
    case PrivateKey => PRIVATE_KEY
    case ListenPort => LISTEN_PORT
    case ReplacePeers => REPLACE_PEERS
    case Fwmark => FWMARK
    case PublicKey => PUBLIC_KEY
    case PresharedKey => PRESHARED_KEY
    case Remove => REMOVE
    case UpdateOnly => UPDATE_ONLY
    case ReplaceAllowedIPs => REPLACE_ALLOWED_IPS
    case AllowedIP => ALLOWED_IP
    case Endpoint => ENDPOINT
    case Keepalive => PERSISTENT_KEEPALIVE_INTERVAL
  }

  function KeyLine(f: Field, value: string): string {
    Name(f) + "=" + value
  }

  /** `int(d.Seconds())`: whole seconds, cut off towards zero. */
  function Seconds(d: int): int {
    if d >= 0 then d / NANOSECONDS else -(-d / NANOSECONDS)
  }

  function PrivateKeyLines(c: Config): seq<string> {
    if c.privateKey.Some? then [KeyLine(PrivateKey, HexEncode(c.privateKey.value))] else []
  }

  function ListenPortLines(c: Config): seq<string> {
    if c.listenPort.Some? then [KeyLine(ListenPort, IntText(c.listenPort.value))] else []
  }

  function ReplacePeersLines(c: Config): seq<string> {
    if c.replacePeers then [KeyLine(ReplacePeers, "true")] else []
  }

  function FwmarkLines(c: Config): seq<string> {
    if c.fwmark.Some? then [KeyLine(Fwmark, IntText(c.fwmark.value))] else []
  }

  function DeviceLines(c: Config): seq<string> {
    PrivateKeyLines(c) + ListenPortLines(c) + ReplacePeersLines(c) + FwmarkLines(c)
  }

  function PresharedLines(p: PeerConfig): seq<string> {
    if p.presharedKey.Some? then [KeyLine(PresharedKey, HexEncode(p.presharedKey.value))] else []
  }

  function ReplaceLines(p: PeerConfig): seq<string> {
    if p.replaceAllowedIPs then [KeyLine(ReplaceAllowedIPs, "true")] else []
  }

  function AllowedLine(ip: Token): string {
    KeyLine(AllowedIP, ip)
  }

  function AllowedLines(ips: seq<Token>): (lines: seq<string>)
    ensures |lines| == |ips|
  {
    if ips == [] then [] else [AllowedLine(ips[0])] + AllowedLines(ips[1..])
  }

  function EndpointLines(p: PeerConfig): seq<string> {
    if p.endpoint.Some? then [KeyLine(Endpoint, p.endpoint.value)] else []
  }

  function KeepaliveLines(p: PeerConfig): seq<string> {
    if p.keepalive.Some? then [KeyLine(Keepalive, IntText(Seconds(p.keepalive.value)))] else []
  }

  /** The lines of a peer before the place of `remove`. */
  function PeerHead(p: PeerConfig): seq<string> {
    [KeyLine(PublicKey, HexEncode(p.publicKey))] + PresharedLines(p)
  }

  /** The lines of a peer after it. */
  function PeerTail(p: PeerConfig): seq<string> {
    ReplaceLines(p) + AllowedLines(p.allowedIPs) + EndpointLines(p) + KeepaliveLines(p)
  }

  const REMOVE_LINE := "remove=true"

  /** `remove=true` is written without a newline. */
  function PeerText(p: PeerConfig): string {
    Terminated(PeerHead(p)) + (if p.remove then REMOVE_LINE else "") + Terminated(PeerTail(p))
  }

  function PeersText(ps: seq<PeerConfig>): string {
    Concat(PeerText, ps)
  }

  function ConfigText(c: Config): string {
    Terminated(DeviceLines(c)) + PeersText(c.peers)
  }

  /** `toWgUserspaceString`. */
  method ToWgUserspaceString(c: Config) returns (sb: string)
    ensures sb == ConfigText(c)
  {
    sb := PrintDevice(c);
    var peers := PrintPeers(c.peers);
    sb := sb + peers;
  }

  /** The loop over the peers. */
  method PrintPeers(ps: seq<PeerConfig>) returns (sb: string)
    ensures sb == PeersText(ps)
  {
    sb := "";
    ghost var f := PeerText;
    for i := 0 to |ps|
      invariant sb == ConcatFirst(f, ps, i)
    {
      var text := PrintPeer(ps[i], f);
      sb := sb + text;
    }
    ConcatFirstAll(f, ps);
  }

  method PrintDevice(c: Config) returns (sb: string)
    ensures sb == Terminated(DeviceLines(c))
  {
    sb := "";
    ghost var lines := [];
    if c.privateKey.Some? {
      sb, lines := WriteLine(sb, lines, KeyLine(PrivateKey, HexEncode(c.privateKey.value)));
    }
    if c.listenPort.Some? {
      sb, lines := WriteLine(sb, lines, KeyLine(ListenPort, IntText(c.listenPort.value)));
    }
    if c.replacePeers {
      sb, lines := WriteLine(sb, lines, KeyLine(ReplacePeers, "true"));
    }
    if c.fwmark.Some? {
      sb, lines := WriteLine(sb, lines, KeyLine(Fwmark, IntText(c.fwmark.value)));
    }
    assert lines == DeviceLines(c);
  }

  method PrintPeer(p: PeerConfig, ghost text: PeerConfig -> string) returns (sb: string)
    requires text == PeerText
    ensures sb == text(p)
  {
    sb := PrintPeerHead(p);
    if p.remove {
      sb := sb + "remove=true";
    }
    var tail := PrintPeerTail(p);
    sb := sb + tail;
  }

  method PrintPeerHead(p: PeerConfig) returns (sb: string)
    ensures sb == Terminated(PeerHead(p))
  {
    ghost var lines: seq<string>;
    sb, lines := WriteLine("", [], KeyLine(PublicKey, HexEncode(p.publicKey)));
    if p.presharedKey.Some? {
      sb, lines := WriteLine(sb, lines, KeyLine(PresharedKey, HexEncode(p.presharedKey.value)));
    }
    assert lines == PeerHead(p);
  }

  method PrintPeerTail(p: PeerConfig) returns (sb: string)
    ensures sb == Terminated(PeerTail(p))
  {
    sb := "";
    ghost var lines := [];
    if p.replaceAllowedIPs {
      sb, lines := WriteLine(sb, lines, KeyLine(ReplaceAllowedIPs, "true"));
    }
    assert lines == ReplaceLines(p);
    sb, lines := PrintAllowed(sb, lines, p.allowedIPs);
    if p.endpoint.Some? {
      sb, lines := WriteLine(sb, lines, KeyLine(Endpoint, p.endpoint.value));
    }
    assert lines == ReplaceLines(p) + AllowedLines(p.allowedIPs) + EndpointLines(p);
    if p.keepalive.Some? {
      sb, lines := WriteLine(sb, lines, KeyLine(Keepalive, IntText(Seconds(p.keepalive.value))));
    }
    assert lines == PeerTail(p);
  }

  /** The loop over the allowed IPs. */
  method PrintAllowed(text: string, ghost before: seq<string>, ips: seq<Token>)
    returns (sb: string, ghost lines: seq<string>)
    requires text == Terminated(before)
    ensures lines == before + AllowedLines(ips) && sb == Terminated(lines)
  {
    sb, lines := text, before;
    for i := 0 to |ips|
      invariant sb == Terminated(lines) && lines == before + AllowedLines(ips[..i])
    {
      AllowedSnoc(ips[..i], ips[i]);
      assert ips[..i + 1] == ips[..i] + [ips[i]];
      sb, lines := WriteLine(sb, lines, AllowedLine(ips[i]));
    }
    assert ips[..|ips|] == ips;
  }

  lemma {:induction false} AllowedSnoc(ips: seq<Token>, ip: Token)
    ensures AllowedLines(ips + [ip]) == AllowedLines(ips) + [AllowedLine(ip)]
  {
    if ips == [] {
      assert ips + [ip] == [ip];
    } else {
      AllowedSnoc(ips[1..], ip);
      assert (ips + [ip])[1..] == ips[1..] + [ip];
    }
  }
}
