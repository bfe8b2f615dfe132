/** What the configuration text looks like, with every name and number spelled out. */
module UapiSpelled {
  import opened Wrappers
  import opened Bytes
  import opened Text
  import opened Uapi

  /** Lines end with a newline. */
  lemma TerminatedSpelled(line: string, rest: seq<string>)
    ensures Terminated([]) == "" && Terminated([line] + rest) == line + "\n" + Terminated(rest)
  {
    assert ([line] + rest)[1..] == rest;
  }

  /** Numbers are decimal, keys are lower-case hexadecimal, durations are whole seconds cut off towards zero. */
  lemma NumbersSpelled(d: int)
    ensures IntText(51820) == "51820" && IntText(-7) == "-7" && IntText(0) == "0"
    ensures Seconds(25_000_000_000) == 25 && Seconds(1_999_999_999) == 1 && Seconds(-1_500_000_000) == -1
    ensures d >= 0 ==> Seconds(d) == d / 1_000_000_000
  {
    assert NatText(5) == "5" && NatText(7) == "7" && NatText(0) == "0";
    assert NatText(51) == "5" + "1";
    assert NatText(518) == NatText(51) + "8";
    assert NatText(5182) == NatText(518) + "2";
    assert NatText(51820) == NatText(5182) + "0";
  }

  lemma HexSpelled(b: Byte, rest: seq<Byte>)
    ensures HexEncode([]) == ""
    ensures HexEncode([b] + rest) == ["0123456789abcdef"[b / 16], "0123456789abcdef"[b % 16]] + HexEncode(rest)
  {
    DigitsSpelled(b / 16);
    DigitsSpelled(b % 16);
    assert ([b] + rest)[1..] == rest;
  }

  lemma DigitsSpelled(n: nat)
    requires n < 16
    ensures HexDigit(n) == "0123456789abcdef"[n]
  {}

  // ---------------------------------------------------------------- names

  lemma DeviceNames()
    ensures Name(PrivateKey) + "=" == "private_key=" && Name(ListenPort) + "=" == "listen_port="
    ensures Name(ReplacePeers) + "=" == "replace_peers=" && Name(Fwmark) + "=" == "fwmark="
  {}

  lemma PeerNames()
    ensures Name(PublicKey) + "=" == "public_key=" && Name(PresharedKey) + "=" == "preshared_key="
    ensures Name(ReplaceAllowedIPs) + "=" == "replace_allowed_ips=" && Name(AllowedIP) + "=" == "allowed_ip="
    ensures Name(Endpoint) + "=" == "endpoint=" && Name(Keepalive) + "=" == "persistent_keepalive_interval="
  {}

  // ---------------------------------------------------------------- lines

  /** The lines about the device. */
  lemma DeviceSpelled(c: Config)
    ensures PrivateKeyLines(c) == if c.privateKey.Some? then ["private_key=" + HexEncode(c.privateKey.value)] else []
    ensures ListenPortLines(c) == if c.listenPort.Some? then ["listen_port=" + IntText(c.listenPort.value)] else []
    ensures ReplacePeersLines(c) == if c.replacePeers then ["replace_peers=" + "true"] else []
    ensures FwmarkLines(c) == if c.fwmark.Some? then ["fwmark=" + IntText(c.fwmark.value)] else []
    ensures DeviceLines(c) == PrivateKeyLines(c) + ListenPortLines(c) + ReplacePeersLines(c) + FwmarkLines(c)
  {
    DeviceNames();
  }

  lemma HeadSpelled(p: PeerConfig)
    ensures PeerHead(p) ==
            ["public_key=" + HexEncode(p.publicKey)] +
            (if p.presharedKey.Some? then ["preshared_key=" + HexEncode(p.presharedKey.value)] else [])
  {
    PeerNames();
  }

  lemma {:induction false} AllowedSpelled(ips: seq<Token>)
    ensures |AllowedLines(ips)| == |ips| && forall i | 0 <= i < |ips| :: AllowedLines(ips)[i] == "allowed_ip=" + ips[i]
  {
    PeerNames();
    if ips != [] {
      AllowedSpelled(ips[1..]);
    }
  }

  lemma TailSpelled(p: PeerConfig)
    ensures ReplaceLines(p) == if p.replaceAllowedIPs then ["replace_allowed_ips=" + "true"] else []
    ensures EndpointLines(p) == if p.endpoint.Some? then ["endpoint=" + p.endpoint.value] else []
    ensures KeepaliveLines(p) ==
            if p.keepalive.Some? then ["persistent_keepalive_interval=" + IntText(Seconds(p.keepalive.value))] else []
    ensures PeerTail(p) == ReplaceLines(p) + AllowedLines(p.allowedIPs) + EndpointLines(p) + KeepaliveLines(p)
  {
    PeerNames();
  }

  // ---------------------------------------------------------------- two requests

  lemma ThreeLines(a: string, b: string, c: string)
    ensures Terminated([a, b, c]) == a + "\n" + (b + "\n" + (c + "\n"))
  {
    assert [a, b, c][1..] == [b, c] && [b, c][1..] == [c] && [c][1..] == [];
    assert Terminated([c]) == c + "\n" + "" == c + "\n";
  }

  /** The text of a peer with one allowed prefix and an endpoint, without a preshared key and with a keepalive of 25
      seconds. */
  lemma UpdateSpelled(p: PeerConfig)
    requires !p.remove && p.presharedKey.None? && !p.replaceAllowedIPs && |p.allowedIPs| == 1
    requires p.endpoint.Some? && p.keepalive == Some(25_000_000_000)
    ensures PeerText(p) ==
            "public_key=" + HexEncode(p.publicKey) + "\n" +
            ("allowed_ip=" + p.allowedIPs[0] + "\n" +
             ("endpoint=" + p.endpoint.value + "\n" + ("persistent_keepalive_interval=" + "25" + "\n")))
  {
    HeadSpelled(p);
    TailSpelled(p);
    AllowedSpelled(p.allowedIPs);
    TwentyFive();
    var head, ip := "public_key=" + HexEncode(p.publicKey), "allowed_ip=" + p.allowedIPs[0];
    var endpoint := "endpoint=" + p.endpoint.value;
    var keepalive := "persistent_keepalive_interval=" + "25";
    assert PeerHead(p) == [head];
    assert PeerTail(p) == [ip, endpoint, keepalive];
    TerminatedSpelled(head, []);
    ThreeLines(ip, endpoint, keepalive);
    OneThenThree(head, Terminated([ip, endpoint, keepalive]));
  }

  lemma TwentyFive()
    ensures IntText(Seconds(25_000_000_000)) == "25"
  {
    assert NatText(2) == "2";
    assert NatText(25) == "2" + "5";
  }

  lemma OneThenThree(head: string, rest: string)
    ensures Terminated([head]) + "" + rest == head + "\n" + rest
  {
    TerminatedSpelled(head, []);
    assert [head] + [] == [head];
    assert head + "\n" + "" == head + "\n";
  }

  /** The text of a peer that is removed: there is no newline at the end. */
  lemma RemovalSpelled(p: PeerConfig)
    requires p == NewPeer(p.publicKey).(remove := true)
    ensures PeerText(p) == "public_key=" + HexEncode(p.publicKey) + "\n" + "remove=true"
  {
    HeadSpelled(p);
    TailSpelled(p);
    var head := "public_key=" + HexEncode(p.publicKey);
    assert PeerHead(p) == [head] && PeerTail(p) == [];
    OneThenThree(head, "remove=true");
    var lines := Terminated([head]);
    assert lines + "" == lines;
    assert lines + "remove=true" + "" == lines + "remove=true";
  }
}
