/**
 Printing a configuration and reading it back.
 */
module UapiRoundTrip {
  import opened Wrappers
  import opened Bytes
  import opened Text
  import opened Uapi
  import opened UapiParse
  import opened Folds

  /** Something is printed for the peer after the place of `remove`. */
  predicate HasTail(p: PeerConfig) {
    p.replaceAllowedIPs || p.allowedIPs != [] || p.endpoint.Some? || p.keepalive.Some?
  }

  lemma HasTailIff(p: PeerConfig)
    ensures HasTail(p) <==> PeerTail(p) != []
  {}

  /** `Remove` is set on the last peer at most, and nothing is printed after it. */
  predicate RemoveIsLast(ps: seq<PeerConfig>) {
    forall i | 0 <= i < |ps| && ps[i].remove :: i == |ps| - 1 && !HasTail(ps[i])
  }

  predicate AllPlain(lines: seq<string>) {
    forall l | l in lines :: OneLine(l) && l != ""
  }

  // ---------------------------------------------------------------- every printed line is one line

  lemma KeyLineIsPlain(f: Field, v: string)
    requires OneLine(v)
    ensures AllPlain([KeyLine(f, v)])
  {
    NameIsPlain(f);
  }

  lemma {:induction false} AllowedArePlain(ips: seq<Token>)
    ensures AllPlain(AllowedLines(ips))
  {
    if ips != [] {
      AllowedArePlain(ips[1..]);
      KeyLineIsPlain(AllowedIP, ips[0]);
    }
  }

  lemma PlainBoth(a: seq<string>, b: seq<string>)
    requires AllPlain(a) && AllPlain(b)
    ensures AllPlain(a + b)
  {}

  lemma HeadIsPlain(p: PeerConfig)
    ensures AllPlain(PeerHead(p))
  {
    HexRoundTrip(p.publicKey);
    KeyLineIsPlain(PublicKey, HexEncode(p.publicKey));
    if p.presharedKey.Some? {
      HexRoundTrip(p.presharedKey.value);
      KeyLineIsPlain(PresharedKey, HexEncode(p.presharedKey.value));
    }
    PlainBoth([KeyLine(PublicKey, HexEncode(p.publicKey))], PresharedLines(p));
  }

  lemma TailIsPlain(p: PeerConfig)
    ensures AllPlain(PeerTail(p))
  {
    KeyLineIsPlain(ReplaceAllowedIPs, "true");
    AllowedArePlain(p.allowedIPs);
    if p.endpoint.Some? {
      KeyLineIsPlain(Endpoint, p.endpoint.value);
    }
    if p.keepalive.Some? {
      KeyLineIsPlain(Keepalive, IntText(Seconds(p.keepalive.value)));
    }
    PlainBoth(ReplaceLines(p), AllowedLines(p.allowedIPs));
    PlainBoth(ReplaceLines(p) + AllowedLines(p.allowedIPs), EndpointLines(p));
    PlainBoth(ReplaceLines(p) + AllowedLines(p.allowedIPs) + EndpointLines(p), KeepaliveLines(p));
  }

  lemma DeviceIsPlain(c: Config)
    ensures AllPlain(DeviceLines(c))
  {
    if c.privateKey.Some? {
      HexRoundTrip(c.privateKey.value);
      KeyLineIsPlain(PrivateKey, HexEncode(c.privateKey.value));
    }
    if c.listenPort.Some? {
      KeyLineIsPlain(ListenPort, IntText(c.listenPort.value));
    }
    KeyLineIsPlain(ReplacePeers, "true");
    if c.fwmark.Some? {
      KeyLineIsPlain(Fwmark, IntText(c.fwmark.value));
    }
    PlainBoth(PrivateKeyLines(c), ListenPortLines(c));
    PlainBoth(PrivateKeyLines(c) + ListenPortLines(c), ReplacePeersLines(c));
    PlainBoth(PrivateKeyLines(c) + ListenPortLines(c) + ReplacePeersLines(c), FwmarkLines(c));
  }

  // ---------------------------------------------------------------- the lines of the text

  lemma LinesPlain(lines: seq<string>, rest: string)
    requires AllPlain(lines)
    ensures Lines(Terminated(lines) + rest) == lines + Lines(rest)
  {
    LinesTerminated(lines, rest);
  }

  lemma AssocLines(a: seq<string>, b: seq<string>, c: seq<string>)
    ensures (a + b) + c == a + (b + c)
  {}

  /** `x` prints as its lines, each with a newline. */
  ghost predicate PrintsAs<T>(text: T -> string, lines: T -> seq<string>, x: T) {
    text(x) == Terminated(lines(x)) && AllPlain(lines(x))
  }

  /** A text whose elements print as terminated lines has those lines. */
  lemma {:induction false} LinesOfAll<T>(text: T -> string, lines: T -> seq<string>, s: seq<T>, rest: string)
    requires forall i | 0 <= i < |s| :: PrintsAs(text, lines, s[i])
    ensures Lines(Concat(text, s) + rest) == AllLines(lines, s) + Lines(rest)
    decreases |s|
  {
    if s == [] {
      assert Concat(text, s) + rest == rest;
    } else {
      LinesOfAll(text, lines, s[1..], rest);
      var tail := Concat(text, s[1..]);
      var first, others := lines(s[0]), AllLines(lines, s[1..]);
      Assoc(text(s[0]), tail, rest);
      LinesPlain(first, tail + rest);
      AssocLines(first, others, Lines(rest));
    }
  }

  lemma TwoParts(a: seq<string>, b: seq<string>)
    ensures Terminated(a) + "" + Terminated(b) == Terminated(a + [] + b)
  {
    TerminatedConcat(a, b);
    var x := Terminated(a);
    assert a + [] == a;
    assert x + "" == x;
  }

  lemma KeptPeerText(p: PeerConfig)
    requires !p.remove
    ensures PeerText(p) == Terminated(PeerLines(p)) && AllPlain(PeerLines(p))
  {
    HeadIsPlain(p);
    TailIsPlain(p);
    TwoParts(PeerHead(p), PeerTail(p));
    PlainBoth(PeerHead(p), []);
    PlainBoth(PeerHead(p) + [], PeerTail(p));
  }

  /** The peers before index `n` print as their lines if none of them is removed. */
  lemma KeptPeersLines(ps: seq<PeerConfig>, rest: string)
    requires forall i | 0 <= i < |ps| :: !ps[i].remove
    ensures Lines(PeersText(ps) + rest) == PeersLines(ps) + Lines(rest)
  {
    var text, lines := PeerText, PeerLines;
    forall i | 0 <= i < |ps|
      ensures PrintsAs(text, lines, ps[i])
    {
      KeptPeerText(ps[i]);
    }
    LinesOfAll(text, lines, ps, rest);
  }

  lemma {:induction false} ConcatBoth<T>(f: T -> string, a: seq<T>, b: seq<T>)
    ensures Concat(f, a + b) == Concat(f, a) + Concat(f, b)
    decreases |a|
  {
    if a == [] {
      assert a + b == b;
    } else {
      assert (a + b)[1..] == a[1..] + b;
      ConcatBoth(f, a[1..], b);
      Assoc(f(a[0]), Concat(f, a[1..]), Concat(f, b));
    }
  }

  lemma {:induction false} AllLinesBoth<T>(f: T -> seq<string>, a: seq<T>, b: seq<T>)
    ensures AllLines(f, a + b) == AllLines(f, a) + AllLines(f, b)
    decreases |a|
  {
    if a == [] {
      assert a + b == b;
    } else {
      assert (a + b)[1..] == a[1..] + b;
      AllLinesBoth(f, a[1..], b);
      assert f(a[0]) + (AllLines(f, a[1..]) + AllLines(f, b)) == (f(a[0]) + AllLines(f, a[1..])) + AllLines(f, b);
    }
  }

  lemma OneOfAll<T>(f: T -> string, g: T -> seq<string>, x: T)
    ensures Concat(f, [x]) == f(x) && AllLines(g, [x]) == g(x)
  {
    assert [x][1..] == [];
    assert f(x) + "" == f(x) && g(x) + [] == g(x);
  }

  lemma OneLineLines(s: string)
    requires OneLine(s) && s != ""
    ensures Lines(s) == [s]
  {
    SplitPrefix(s, "");
    assert s + "" == s;
  }

  lemma RemoveLineIsKeyLine()
    ensures REMOVE_LINE == KeyLine(Remove, "true") && OneLine(REMOVE_LINE)
  {}

  lemma RemovedPeerLines(p: PeerConfig)
    requires p.remove && !HasTail(p)
    ensures Lines(PeerText(p)) == PeerLines(p)
  {
    HasTailIff(p);
    HeadIsPlain(p);
    RemoveLineIsKeyLine();
    OneLineLines(REMOVE_LINE);
    LinesPlain(PeerHead(p), REMOVE_LINE);
    assert PeerText(p) == Terminated(PeerHead(p)) + REMOVE_LINE;
  }

  lemma LinesOfAllButLast<T>(text: T -> string, lines: T -> seq<string>, s: seq<T>)
    requires s != []
    requires forall i | 0 <= i < |s| - 1 :: PrintsAs(text, lines, s[i])
    requires Lines(text(s[|s| - 1])) == lines(s[|s| - 1])
    ensures Lines(Concat(text, s)) == AllLines(lines, s)
  {
    var init, last := s[..|s| - 1], s[|s| - 1];
    assert s == init + [last];
    assert Concat(text, s) == Concat(text, init) + text(last) && AllLines(lines, s) == AllLines(lines, init) + lines(last) by {
      ConcatBoth(text, init, [last]);
      AllLinesBoth(lines, init, [last]);
      OneOfAll(text, lines, last);
    }
    forall i | 0 <= i < |init|
      ensures PrintsAs(text, lines, init[i])
    {
      assert init[i] == s[i];
    }
    LinesOfAll(text, lines, init, text(last));
  }

  lemma KeptPeerLines(p: PeerConfig)
    requires !p.remove
    ensures Lines(PeerText(p)) == PeerLines(p)
  {
    KeptPeerText(p);
    var lines := PeerLines(p);
    LinesPlain(lines, "");
    assert Terminated(lines) + "" == Terminated(lines) && lines + [] == lines;
  }

  lemma PeersTextLines(ps: seq<PeerConfig>)
    requires RemoveIsLast(ps)
    ensures Lines(PeersText(ps)) == PeersLines(ps)
  {
    var text, lines := PeerText, PeerLines;
    if ps != [] {
      forall i | 0 <= i < |ps| - 1
        ensures PrintsAs(text, lines, ps[i])
      {
        KeptPeerText(ps[i]);
      }
      LastPeerLines(ps[|ps| - 1]);
      LinesOfAllButLast(text, lines, ps);
    }
  }

  lemma LastPeerLines(p: PeerConfig)
    requires p.remove ==> !HasTail(p)
    ensures Lines(PeerText(p)) == PeerLines(p)
  {
    if p.remove {
      RemovedPeerLines(p);
    } else {
      KeptPeerLines(p);
    }
  }

  // ---------------------------------------------------------------- the two directions

  lemma ParseLineIsLawful()
    ensures Lawful(ParseLine)
  {
    var parse := ParseLine;
    forall c, f, v
      ensures parse(c, KeyLine(f, v)) == ParseField(c, f, v)
    {
      ParseKeyLine(c, f, v);
    }
  }

  lemma ReadsBack(c: Config)
    requires RemoveIsLast(c.peers)
    ensures Parse(ConfigText(c)) == Some(c.(peers := SeenAll(c.peers)))
  {
    var parse := ParseLine;
    ParseLineIsLawful();
    DeviceIsPlain(c);
    LinesPlain(DeviceLines(c), PeersText(c.peers));
    PeersTextLines(c.peers);
    DeviceReads(parse, c);
    PeersRead(parse, c.(peers := []), c.peers);
    assert [] + SeenAll(c.peers) == SeenAll(c.peers);
    ReadsBoth(parse, EMPTY, DeviceLines(c), c.(peers := []), PeersLines(c.peers), c.(peers := SeenAll(c.peers)));
  }

  /** A `remove=true` with something behind it on the same line is rejected, wherever it stands. */
  lemma GluedRemoveRejected(c: Config, x: string)
    requires x != ""
    ensures ParseLine(c, REMOVE_LINE + x).None?
  {
    RemoveLineIsKeyLine();
    assert REMOVE_LINE + x == KeyLine(Remove, "true" + x);
    ParseKeyLine(c, Remove, "true" + x);
    assert "true" + x != "true";
  }

  lemma RejectedWithin(parse: LineParser, c: Config, before: seq<string>, bad: string, after: seq<string>)
    requires forall d :: parse(d, bad).None?
    ensures Fold(parse, c, before + [bad] + after).None?
  {
    FoldAppend(parse, c, before + [bad], after);
    FoldAppend(parse, c, before, [bad]);
    if Fold(parse, c, before).Some? {
      assert parse(Fold(parse, c, before).value, bad).None?;
    }
  }

  /** Something printed after `remove=true` lands on its line. */
  lemma GluedLines(before: seq<string>, x: string, rest: string)
    requires AllPlain(before) && OneLine(x) && x != ""
    ensures exists after :: Lines(Terminated(before) + (REMOVE_LINE + (x + "\n" + rest))) == before + [REMOVE_LINE + x] + after
  {
    RemoveLineIsKeyLine();
    var glued := REMOVE_LINE + x;
    Assoc(REMOVE_LINE, x + "\n", rest);
    Assoc(REMOVE_LINE, x, "\n");
    assert REMOVE_LINE + (x + "\n" + rest) == glued + "\n" + rest;
    assert Terminated([glued]) == glued + "\n";
    LinesTerminated([glued], rest);
    LinesPlain(before, glued + "\n" + rest);
    assert before + ([glued] + Lines(rest)) == before + [glued] + Lines(rest);
  }

  /** A text that starts with a non-empty line and its newline. */
  ghost predicate StartsWithLine(s: string) {
    exists x, rest :: OneLine(x) && x != "" && s == x + "\n" + rest
  }

  lemma TerminatedStartsWithLine(lines: seq<string>, rest: string)
    requires AllPlain(lines) && lines != []
    ensures StartsWithLine(Terminated(lines) + rest)
  {
    Assoc(lines[0] + "\n", Terminated(lines[1..]), rest);
    assert OneLine(lines[0]) && lines[0] != "";
  }

  /** What is printed after the `remove` of a peer that is not the last or has more lines. */
  lemma RestStartsWithLine(p: PeerConfig, after: seq<PeerConfig>)
    requires HasTail(p) || after != []
    ensures StartsWithLine(Terminated(PeerTail(p)) + PeersText(after))
  {
    HasTailIff(p);
    TailIsPlain(p);
    if HasTail(p) {
      TerminatedStartsWithLine(PeerTail(p), PeersText(after));
    } else {
      NextPeerStartsWithLine(after);
      assert Terminated([]) + PeersText(after) == PeersText(after);
    }
  }

  lemma NextPeerStartsWithLine(ps: seq<PeerConfig>)
    requires ps != []
    ensures StartsWithLine(PeersText(ps))
  {
    var p := ps[0];
    HeadIsPlain(p);
    var head := Terminated(PeerHead(p));
    var remove := if p.remove then REMOVE_LINE else "";
    var tail := Terminated(PeerTail(p));
    var others := PeersText(ps[1..]);
    assert PeersText(ps) == (head + remove + tail) + others;
    Assoc(head, remove, tail);
    Assoc(head, remove + tail, others);
    TerminatedStartsWithLine(PeerHead(p), (remove + tail) + others);
  }

  /** The text around a peer that is removed: everything before it ends with a newline. */
  lemma TextAround(c: Config, i: nat)
    requires i < |c.peers| && c.peers[i].remove
    ensures var p := c.peers[i];
            ConfigText(c) == Terminated(DeviceLines(c)) + (PeersText(c.peers[..i]) +
              (Terminated(PeerHead(p)) + (REMOVE_LINE + (Terminated(PeerTail(p)) + PeersText(c.peers[i + 1..])))))
  {
    var text := PeerText;
    var p := c.peers[i];
    assert c.peers == c.peers[..i] + (c.peers[i..]);
    ConcatBoth(text, c.peers[..i], c.peers[i..]);
    assert c.peers[i..][1..] == c.peers[i + 1..];
    var head, tail, others := Terminated(PeerHead(p)), Terminated(PeerTail(p)), Concat(text, c.peers[i + 1..]);
    assert Concat(text, c.peers[i..]) == (head + REMOVE_LINE + tail) + others;
    Assoc(head + REMOVE_LINE, tail, others);
    Assoc(head, REMOVE_LINE, tail + others);
  }

  /** The glued line among the lines of the text. */
  lemma GluedAt(c: Config, i: nat) returns (before: seq<string>, x: string, after: seq<string>)
    requires i < |c.peers| && c.peers[i].remove && (i + 1 < |c.peers| || HasTail(c.peers[i]))
    requires forall j | 0 <= j < i :: !c.peers[j].remove
    ensures x != "" && Lines(ConfigText(c)) == before + [REMOVE_LINE + x] + after
  {
    var p := c.peers[i];
    TextAround(c, i);
    RestStartsWithLine(p, c.peers[i + 1..]);
    HeadIsPlain(p);
    DeviceIsPlain(c);
    var s := Terminated(PeerTail(p)) + PeersText(c.peers[i + 1..]);
    KeptPeersLines(c.peers[..i], Terminated(PeerHead(p)) + (REMOVE_LINE + s));
    before, x, after := GluedText(DeviceLines(c), PeersText(c.peers[..i]), PeersLines(c.peers[..i]), PeerHead(p), s);
  }

  lemma GluedText(device: seq<string>, peers: string, peersLines: seq<string>, head: seq<string>, s: string)
      returns (before: seq<string>, x: string, after: seq<string>)
    requires AllPlain(device) && AllPlain(head) && StartsWithLine(s)
    requires var rest := Terminated(head) + (REMOVE_LINE + s); Lines(peers + rest) == peersLines + Lines(rest)
    ensures x != ""
    ensures Lines(Terminated(device) + (peers + (Terminated(head) + (REMOVE_LINE + s)))) == before + [REMOVE_LINE + x] + after
  {
    var rest;
    x, rest :| OneLine(x) && x != "" && s == x + "\n" + rest;
    GluedLines(head, x, rest);
    var text := Terminated(head) + (REMOVE_LINE + s);
    var bad := REMOVE_LINE + x;
    after :| Lines(text) == head + [bad] + after;
    LinesPlain(device, peers + text);
    before := device + peersLines + head;
    AssocFour(device, peersLines, head, [bad], after);
  }

  lemma AssocFour(a: seq<string>, b: seq<string>, c: seq<string>, d: seq<string>, e: seq<string>)
    ensures a + (b + (c + d + e)) == a + b + c + d + e
  {}

  lemma RejectedAt(c: Config, i: nat)
    requires i < |c.peers| && c.peers[i].remove && (i + 1 < |c.peers| || HasTail(c.peers[i]))
    requires forall j | 0 <= j < i :: !c.peers[j].remove
    ensures Parse(ConfigText(c)).None?
  {
    var before, x, after := GluedAt(c, i);
    RejectedLines(before, x, after);
  }

  lemma RejectedLines(before: seq<string>, x: string, after: seq<string>)
    requires x != ""
    ensures ParseLines(EMPTY, before + [REMOVE_LINE + x] + after).None?
  {
    var parse, bad := ParseLine, REMOVE_LINE + x;
    forall d
      ensures parse(d, bad).None?
    {
      GluedRemoveRejected(d, x);
    }
    RejectedWithin(parse, EMPTY, before, bad, after);
  }

  lemma FirstGlued(ps: seq<PeerConfig>) returns (i: nat)
    requires !RemoveIsLast(ps)
    ensures i < |ps| && ps[i].remove && (i + 1 < |ps| || HasTail(ps[i]))
    ensures forall j | 0 <= j < i :: !ps[j].remove
  {
    var k :| 0 <= k < |ps| && ps[k].remove && !(k == |ps| - 1 && !HasTail(ps[k]));
    i := 0;
    while i < k && !ps[i].remove
      invariant i <= k && forall j | 0 <= j < i :: !ps[j].remove
    {
      i := i + 1;
    }
  }

  /** Exactly the configurations that come back: those in which `Remove` is on the last peer only, with nothing
      printed after it.  `UpdateOnly` is lost and the keepalive is cut to whole seconds; all others are rejected. */
  lemma RoundTripIff(c: Config)
    ensures Parse(ConfigText(c)) == Some(c.(peers := SeenAll(c.peers))) <==> RemoveIsLast(c.peers)
    ensures Parse(ConfigText(c)).None? <==> !RemoveIsLast(c.peers)
  {
    if RemoveIsLast(c.peers) {
      ReadsBack(c);
    } else {
      var i := FirstGlued(c.peers);
      RejectedAt(c, i);
    }
  }

  /** Every request about one peer, which is all that the configurer makes: it is read as that peer unless it asks
      for a removal and something else at once. */
  lemma OnePeerReadsBackIff(c: Config, p: PeerConfig)
    requires c.peers == [p]
    ensures Parse(ConfigText(c)) == Some(c.(peers := [Seen(p)])) <==> !(p.remove && HasTail(p))
  {
    RoundTripIff(c);
    assert SeenAll(c.peers) == [Seen(p)] by {
      assert [p][1..] == [];
    }
    assert c.peers[0] == p;
  }
}
