/**
 The two scans of a device's state dump in iface/wg_configurer_usp.go: `removeAllowedIP` and
 `findPeerInfo` walk over the lines with flags; here they are proved to do what the dump's structure,
 a list of peers with their own lines, calls for.
 */
module UapiScan {
  import opened Wrappers
  import opened Bytes
  import opened Text
  import opened Uapi
  import opened Folds

  // ---------------------------------------------------------------- the dump

  /** A peer in the dump: the lines after its public key. */
  datatype Section = Section(key: Key, details: seq<string>)

  datatype Dump = Dump(header: seq<string>, peers: seq<Section>)

  const PEER_PREFIX: string := "public_key="
  const IP_PREFIX: string := "allowed_ip="

  predicate IsSpace(c: char) {
    c == ' ' || c == '\t' || c == '\n' || c == '\r' || c == 0x0B as char || c == 0x0C as char
    || c == 0x85 as char || c == 0xA0 as char
  }

  function TrimLeft(s: string): string {
    if s != "" && IsSpace(s[0]) then TrimLeft(s[1..]) else s
  }

  function TrimRight(s: string): string {
    if s != "" && IsSpace(s[|s| - 1]) then TrimRight(s[..|s| - 1]) else s
  }

  /** `strings.TrimSpace`. */
  function TrimSpace(s: string): string {
    TrimRight(TrimLeft(s))
  }

  function TrimAll(lines: seq<string>): (r: seq<string>)
    ensures |r| == |lines| && forall i | 0 <= i < |lines| :: r[i] == TrimSpace(lines[i])
  {
    seq(|lines|, i requires 0 <= i < |lines| => TrimSpace(lines[i]))
  }

  predicate CleanLine(l: string) {
    OneLine(l) && (l != "" ==> !IsSpace(l[0]) && !IsSpace(l[|l| - 1]))
  }

  /** A line that is not the start of a peer. */
  predicate DetailLine(l: string) {
    CleanLine(l) && !(PEER_PREFIX <= l)
  }

  predicate WellFormed(d: Dump) {
    && (forall l | l in d.header :: DetailLine(l))
    && (forall s | s in d.peers :: forall l | l in s.details :: DetailLine(l))
  }

  function PeerLine(key: Key): string {
    PEER_PREFIX + HexEncode(key)
  }

  function SectionLines(s: Section): seq<string> {
    [PeerLine(s.key)] + s.details
  }

  function SectionsLines(ss: seq<Section>): seq<string> {
    if ss == [] then [] else SectionLines(ss[0]) + SectionsLines(ss[1..])
  }

  function DumpLines(d: Dump): seq<string> {
    d.header + SectionsLines(d.peers)
  }

  function DumpText(d: Dump): string {
    Terminated(DumpLines(d))
  }

  /** The names in a dump. */
  lemma DumpSpelled(s: Section, ip: string)
    ensures SectionLines(s) == ["public_key=" + HexEncode(s.key)] + s.details
    ensures IP_PREFIX + ip == "allowed_ip=" + ip
  {}

  lemma {:induction false} HexIsClean(b: seq<Byte>)
    ensures forall c | c in HexEncode(b) :: !IsSpace(c)
  {
    if b != [] {
      HexIsClean(b[1..]);
    }
  }

  lemma PeerLineIsClean(key: Key)
    ensures CleanLine(PeerLine(key))
  {
    HexIsClean(key);
    HexRoundTrip(key);
    var h := HexEncode(key);
    assert h[|h| - 1] in h;
    assert PEER_PREFIX[0] == 'p';
    assert PeerLine(key)[|PeerLine(key)| - 1] == h[|h| - 1];
  }

  lemma {:induction false} SectionsAreClean(ss: seq<Section>)
    requires forall s | s in ss :: forall l | l in s.details :: DetailLine(l)
    ensures forall l | l in SectionsLines(ss) :: CleanLine(l)
  {
    if ss != [] {
      SectionsAreClean(ss[1..]);
      PeerLineIsClean(ss[0].key);
    }
  }

  /** The lines both scans see: those of the dump and an empty one. */
  lemma ScannedLines(d: Dump)
    requires WellFormed(d)
    ensures TrimAll(Split(DumpText(d))) == DumpLines(d) + [""]
  {
    SectionsAreClean(d.peers);
    var lines := DumpLines(d);
    SplitTerminated(lines, "");
    assert Terminated(lines) + "" == Terminated(lines);
    assert Split(DumpText(d)) == lines + [""];
    forall i | 0 <= i < |lines|
      ensures TrimSpace(lines[i]) == lines[i]
    {
      assert lines[i] in lines;
    }
  }

  // ---------------------------------------------------------------- removeAllowedIP

  /** The variables of the loop: whether it is inside the peer, whether it met the prefix, the other prefixes. */
  datatype Scan = Scan(foundPeer: bool, removed: bool, kept: seq<string>)

  datatype Removal = BadPrefix | NotFound | Update(allowed: seq<string>)

  /** `net.ParseCIDR`: the prefix in its canonical form, if it is one. */
  type ParseCidr = string -> Option<string>

  /** One pass of the loop body; None if a prefix cannot be read. */
  function ScanLine(key: Key, ip: string, parse: ParseCidr, st: Scan, line: string): Option<Scan> {
    var inside := if PEER_PREFIX <= line && st.foundPeer then false else st.foundPeer;
    var found := inside || line == PeerLine(key);
    if found && line == IP_PREFIX + ip then Some(st.(foundPeer := found, removed := true))
    else if found && IP_PREFIX <= line then
      var n := parse(line[|IP_PREFIX|..]);
      if n.None? then None else Some(st.(foundPeer := found, kept := st.kept + [n.value]))
    else Some(st.(foundPeer := found))
  }

  function Scanner(key: Key, ip: string, parse: ParseCidr): (Scan, string) -> Option<Scan> {
    (st, line) => ScanLine(key, ip, parse, st, line)
  }

  const START := Scan(false, false, [])

  function Outcome(st: Option<Scan>): Removal {
    if st.None? then BadPrefix
    else if !st.value.removed then NotFound
    else Update(st.value.kept)
  }

  /** `removeAllowedIP` up to the call that replaces the peer's allowed IPs. */
  method RemoveAllowedIP(ipc: string, key: Key, ip: string, parse: ParseCidr) returns (r: Removal)
    ensures r == Outcome(Fold(Scanner(key, ip, parse), START, TrimAll(Split(ipc))))
  {
    var lines := Split(ipc);
    var st := START;
    ghost var trimmed := TrimAll(lines);
    ghost var step := Scanner(key, ip, parse);
    for i := 0 to |lines|
      invariant Fold(step, START, trimmed[..i]) == Some(st)
    {
      var line := TrimSpace(lines[i]);
      var next := ScanLine(key, ip, parse, st, line);
      FoldPrefix(step, START, trimmed, i);
      if next.None? {
        FoldFails(step, START, trimmed, i + 1);
        return BadPrefix;
      }
      st := next.value;
    }
    assert trimmed[..|lines|] == trimmed;
    if !st.removed {
      return NotFound;
    }
    return Update(st.kept);
  }

  // ---------------------------------------------------------------- what it computes

  /** The allowed IPs among the lines, in order. */
  function Prefixes(lines: seq<string>): seq<string> {
    if lines == [] then []
    else (if IP_PREFIX <= lines[0] then [lines[0][|IP_PREFIX|..]] else []) + Prefixes(lines[1..])
  }

  /** The allowed IPs the dump lists for a peer. */
  function PeerPrefixes(key: Key, peers: seq<Section>): seq<string> {
    if peers == [] then []
    else (if peers[0].key == key then Prefixes(peers[0].details) else []) + PeerPrefixes(key, peers[1..])
  }

  function Without(xs: seq<string>, x: string): seq<string> {
    if xs == [] then [] else (if xs[0] == x then [] else [xs[0]]) + Without(xs[1..], x)
  }

  /** The allowed IPs of lines, line by line. */
  lemma {:induction false} PrefixesSpelled(a: seq<string>, b: seq<string>, line: string)
    ensures Prefixes([]) == [] && Prefixes([line]) == if "allowed_ip=" <= line then [line[11..]] else []
    ensures Prefixes(a + b) == Prefixes(a) + Prefixes(b)
  {
    assert [line][1..] == [];
    if a == [] {
      assert a + b == b;
    } else {
      PrefixesSpelled(a[1..], b, line);
      assert (a + b)[1..] == a[1..] + b;
      var head := if IP_PREFIX <= a[0] then [a[0][|IP_PREFIX|..]] else [];
      assert head + (Prefixes(a[1..]) + Prefixes(b)) == (head + Prefixes(a[1..])) + Prefixes(b);
    }
  }

  /** Those of a peer are the ones in its sections. */
  lemma {:induction false} PeerPrefixesSpelled(key: Key, a: seq<Section>, b: seq<Section>, s: Section)
    ensures PeerPrefixes(key, []) == [] && PeerPrefixes(key, [s]) == if s.key == key then Prefixes(s.details) else []
    ensures PeerPrefixes(key, a + b) == PeerPrefixes(key, a) + PeerPrefixes(key, b)
  {
    assert [s][1..] == [];
    if a == [] {
      assert a + b == b;
    } else {
      PeerPrefixesSpelled(key, a[1..], b, s);
      assert (a + b)[1..] == a[1..] + b;
      var head := if a[0].key == key then Prefixes(a[0].details) else [];
      assert head + (PeerPrefixes(key, a[1..]) + PeerPrefixes(key, b)) == (head + PeerPrefixes(key, a[1..])) + PeerPrefixes(key, b);
    }
  }

  function ParseAll(parse: ParseCidr, xs: seq<string>): Option<seq<string>> {
    if xs == [] then Some([])
    else
      var n := parse(xs[0]);
      var rest := ParseAll(parse, xs[1..]);
      if n.None? || rest.None? then None else Some([n.value] + rest.value)
  }

  /** The four kinds of line the loop tells apart. */
  datatype Kind = TargetStart | OtherStart | Prefix(value: string) | Other

  function KindOf(key: Key, line: string): Kind {
    if line == PeerLine(key) then TargetStart
    else if PEER_PREFIX <= line then OtherStart
    else if IP_PREFIX <= line then Prefix(line[|IP_PREFIX|..])
    else Other
  }

  function ScanKind(ip: string, parse: ParseCidr, st: Scan, kind: Kind): Option<Scan> {
    match kind
    case TargetStart => Some(st.(foundPeer := true))
    case OtherStart => Some(st.(foundPeer := false))
    case Other => Some(st)
    case Prefix(v) =>
      if !st.foundPeer then Some(st)
      else if v == ip then Some(st.(removed := true))
      else
        var n := parse(v);
        if n.None? then None else Some(st.(kept := st.kept + [n.value]))
  }

  lemma ScanLineByKind(key: Key, ip: string, parse: ParseCidr, st: Scan, line: string)
    ensures ScanLine(key, ip, parse, st, line) == ScanKind(ip, parse, st, KindOf(key, line))
  {
    assert PEER_PREFIX[0] == 'p' && IP_PREFIX[0] == 'a';
    assert PeerLine(key)[0] == 'p';
    if IP_PREFIX <= line {
      assert line[0] == 'a';
      assert line == IP_PREFIX + line[|IP_PREFIX|..];
    }
  }

  /** A scanner that looks at the kind of a line only. */
  ghost predicate ByKind(step: (Scan, string) -> Option<Scan>, key: Key, ip: string, parse: ParseCidr) {
    forall st, line :: step(st, line) == ScanKind(ip, parse, st, KindOf(key, line))
  }

  lemma ScannerByKind(key: Key, ip: string, parse: ParseCidr)
    ensures ByKind(Scanner(key, ip, parse), key, ip, parse)
  {
    var step := Scanner(key, ip, parse);
    forall st, line
      ensures step(st, line) == ScanKind(ip, parse, st, KindOf(key, line))
    {
      ScanLineByKind(key, ip, parse, st, line);
    }
  }

  /** What the scan has found after lines with the given allowed IPs of the peer. */
  ghost function Found(ip: string, parse: ParseCidr, st: Scan, xs: seq<string>): Option<Scan> {
    var kept := ParseAll(parse, Without(xs, ip));
    if kept.None? then None else Some(st.(removed := st.removed || ip in xs, kept := st.kept + kept.value))
  }

  lemma FoundMore(ip: string, parse: ParseCidr, st: Scan, xs: seq<string>, ys: seq<string>)
    ensures Found(ip, parse, st, xs + ys) ==
            if Found(ip, parse, st, xs).None? then None else Found(ip, parse, Found(ip, parse, st, xs).value, ys)
  {
    WithoutBoth(xs, ys, ip);
    ParseAllBoth(parse, Without(xs, ip), Without(ys, ip));
    var a, b := ParseAll(parse, Without(xs, ip)), ParseAll(parse, Without(ys, ip));
    if a.Some? && b.Some? {
      assert st.kept + (a.value + b.value) == (st.kept + a.value) + b.value;
    }
  }

  lemma {:induction false} WithoutBoth(xs: seq<string>, ys: seq<string>, x: string)
    ensures Without(xs + ys, x) == Without(xs, x) + Without(ys, x)
  {
    if xs == [] {
      assert xs + ys == ys;
    } else {
      assert (xs + ys)[1..] == xs[1..] + ys;
      WithoutBoth(xs[1..], ys, x);
      var head := if xs[0] == x then [] else [xs[0]];
      assert head + (Without(xs[1..], x) + Without(ys, x)) == (head + Without(xs[1..], x)) + Without(ys, x);
    }
  }

  lemma {:induction false} ParseAllBoth(parse: ParseCidr, xs: seq<string>, ys: seq<string>)
    ensures ParseAll(parse, xs + ys) ==
            if ParseAll(parse, xs).None? || ParseAll(parse, ys).None? then None
            else Some(ParseAll(parse, xs).value + ParseAll(parse, ys).value)
  {
    if xs == [] {
      assert xs + ys == ys;
      var b := ParseAll(parse, ys);
      assert b.Some? ==> [] + b.value == b.value;
    } else {
      assert (xs + ys)[1..] == xs[1..] + ys;
      ParseAllBoth(parse, xs[1..], ys);
      var n, a, b := parse(xs[0]), ParseAll(parse, xs[1..]), ParseAll(parse, ys);
      if n.Some? && a.Some? && b.Some? {
        assert [n.value] + (a.value + b.value) == ([n.value] + a.value) + b.value;
      }
    }
  }

  predicate NoStart(lines: seq<string>) {
    forall i | 0 <= i < |lines| :: !(PEER_PREFIX <= lines[i])
  }

  lemma FoundNothing(ip: string, parse: ParseCidr, st: Scan)
    ensures Found(ip, parse, st, []) == Some(st)
  {
    assert st.kept + [] == st.kept;
  }

  /** The lines of a peer that is not the target, and the header, change nothing. */
  lemma {:induction false} OutsideScan(step: (Scan, string) -> Option<Scan>, key: Key, ip: string, parse: ParseCidr,
                                       st: Scan, lines: seq<string>)
    requires ByKind(step, key, ip, parse) && !st.foundPeer && NoStart(lines)
    ensures Fold(step, st, lines) == Some(st)
    decreases |lines|
  {
    if lines != [] {
      NotAStart(key, lines[0]);
      OutsideScan(step, key, ip, parse, st, lines[1..]);
    }
  }

  lemma NotAStart(key: Key, line: string)
    requires !(PEER_PREFIX <= line)
    ensures KindOf(key, line) == if IP_PREFIX <= line then Prefix(line[|IP_PREFIX|..]) else Other
  {
    assert PEER_PREFIX <= PeerLine(key);
  }

  lemma {:induction false} InsideScan(step: (Scan, string) -> Option<Scan>, key: Key, ip: string, parse: ParseCidr,
                                      st: Scan, lines: seq<string>)
    requires ByKind(step, key, ip, parse) && st.foundPeer && NoStart(lines)
    ensures Fold(step, st, lines) == Found(ip, parse, st, Prefixes(lines))
    decreases |lines|
  {
    if lines == [] {
      FoundNothing(ip, parse, st);
    } else {
      NotAStart(key, lines[0]);
      var head := if IP_PREFIX <= lines[0] then [lines[0][|IP_PREFIX|..]] else [];
      FoundMore(ip, parse, st, head, Prefixes(lines[1..]));
      FoundOne(ip, parse, st, lines[0]);
      var next := step(st, lines[0]);
      if next.Some? {
        InsideScan(step, key, ip, parse, next.value, lines[1..]);
      }
    }
  }

  lemma FoundOne(ip: string, parse: ParseCidr, st: Scan, line: string)
    requires st.foundPeer
    ensures Found(ip, parse, st, if IP_PREFIX <= line then [line[|IP_PREFIX|..]] else []) ==
            ScanKind(ip, parse, st, if IP_PREFIX <= line then Prefix(line[|IP_PREFIX|..]) else Other)
  {
    FoundNothing(ip, parse, st);
    if IP_PREFIX <= line {
      var v := line[|IP_PREFIX|..];
      assert [v][1..] == [];
      assert Without([v], ip) == if v == ip then [] else [v];
      if v == ip {
        assert st.kept + [] == st.kept;
      } else {
        ParseAllOne(parse, v);
      }
    }
  }

  lemma ParseAllOne(parse: ParseCidr, v: string)
    ensures ParseAll(parse, [v]) == if parse(v).None? then None else Some([parse(v).value])
  {
    assert [v][1..] == [];
    assert ParseAll(parse, [v][1..]) == Some([]);
    if parse(v).Some? {
      assert [parse(v).value] + [] == [parse(v).value];
    }
  }

  /** Whether the scan is inside the target after the peers, having been so before or not. */
  function EndsInside(key: Key, peers: seq<Section>, before: bool): bool {
    if peers == [] then before else peers[|peers| - 1].key == key
  }

  /** The flag plays no part in what has been found. */
  lemma FoundFlag(ip: string, parse: ParseCidr, st: Scan, b: bool, xs: seq<string>)
    ensures Found(ip, parse, st.(foundPeer := b), xs) ==
            if Found(ip, parse, st, xs).None? then None else Some(Found(ip, parse, st, xs).value.(foundPeer := b))
  {}

  lemma FoundInTurn(ip: string, parse: ParseCidr, st: Scan, b: bool, end: bool, xs: seq<string>, ys: seq<string>)
    ensures var mid := Found(ip, parse, st.(foundPeer := b), xs);
            Found(ip, parse, st.(foundPeer := end), xs + ys) ==
            if mid.None? then None else Found(ip, parse, mid.value.(foundPeer := end), ys)
  {
    FoundFlag(ip, parse, st, b, xs);
    FoundFlag(ip, parse, st, end, xs);
    FoundMore(ip, parse, st.(foundPeer := end), xs, ys);
  }

  lemma SectionScan(step: (Scan, string) -> Option<Scan>, key: Key, ip: string, parse: ParseCidr, st: Scan, s: Section)
    requires ByKind(step, key, ip, parse) && NoStart(s.details)
    ensures Fold(step, st, SectionLines(s)) ==
            Found(ip, parse, st.(foundPeer := s.key == key), if s.key == key then Prefixes(s.details) else [])
  {
    var next := st.(foundPeer := s.key == key);
    StartKind(key, s.key);
    assert step(st, PeerLine(s.key)) == Some(next);
    FoldOne(step, st, PeerLine(s.key));
    FoldAppend(step, st, [PeerLine(s.key)], s.details);
    if s.key == key {
      InsideScan(step, key, ip, parse, next, s.details);
    } else {
      OutsideScan(step, key, ip, parse, next, s.details);
      FoundNothing(ip, parse, next);
    }
  }

  lemma StartKind(key: Key, other: Key)
    ensures KindOf(key, PeerLine(other)) == if other == key then TargetStart else OtherStart
  {
    HexInjective(key, other);
    var a, b := PeerLine(key), PeerLine(other);
    assert a[|PEER_PREFIX|..] == HexEncode(key) && b[|PEER_PREFIX|..] == HexEncode(other);
    assert PEER_PREFIX <= b;
  }

  ghost predicate SectionsPlain(peers: seq<Section>) {
    forall i | 0 <= i < |peers| :: NoStart(peers[i].details)
  }

  lemma {:induction false} SectionsScan(step: (Scan, string) -> Option<Scan>, key: Key, ip: string, parse: ParseCidr,
                                        st: Scan, peers: seq<Section>)
    requires ByKind(step, key, ip, parse) && SectionsPlain(peers)
    ensures Fold(step, st, SectionsLines(peers)) ==
            Found(ip, parse, st.(foundPeer := EndsInside(key, peers, st.foundPeer)), PeerPrefixes(key, peers))
    decreases |peers|
  {
    if peers == [] {
      FoundNothing(ip, parse, st);
    } else {
      var first := if peers[0].key == key then Prefixes(peers[0].details) else [];
      var rest := PeerPrefixes(key, peers[1..]);
      SectionScan(step, key, ip, parse, st, peers[0]);
      FoldAppend(step, st, SectionLines(peers[0]), SectionsLines(peers[1..]));
      var mid := Found(ip, parse, st.(foundPeer := peers[0].key == key), first);
      if mid.Some? {
        SectionsScan(step, key, ip, parse, mid.value, peers[1..]);
      }
      var end := EndsInside(key, peers, st.foundPeer);
      assert end == EndsInside(key, peers[1..], peers[0].key == key);
      FoundInTurn(ip, parse, st, peers[0].key == key, end, first, rest);
    }
  }

  /** For every dump: the call is made with exactly the peer's prefixes other than the given one, in order;
      "not found" is reported exactly when the peer does not have it, unless one of the others cannot be read. */
  lemma RemovalIsExact(d: Dump, key: Key, ip: string, parse: ParseCidr)
    requires WellFormed(d)
    ensures var prefixes := PeerPrefixes(key, d.peers);
            var others := ParseAll(parse, Without(prefixes, ip));
            Outcome(Fold(Scanner(key, ip, parse), START, TrimAll(Split(DumpText(d))))) ==
            if others.None? then BadPrefix else if ip !in prefixes then NotFound else Update(others.value)
  {
    ScannedLines(d);
    var step := Scanner(key, ip, parse);
    ScannerByKind(key, ip, parse);
    DumpScan(step, key, ip, parse, d);
  }

  lemma DumpScan(step: (Scan, string) -> Option<Scan>, key: Key, ip: string, parse: ParseCidr, d: Dump)
    requires ByKind(step, key, ip, parse) && WellFormed(d)
    ensures var st := Found(ip, parse, START, PeerPrefixes(key, d.peers));
            Outcome(Fold(step, START, DumpLines(d) + [""])) == Outcome(st)
  {
    DetailsPlain(d);
    OutsideScan(step, key, ip, parse, START, d.header);
    SectionsScan(step, key, ip, parse, START, d.peers);
    FoldAppend(step, START, d.header, SectionsLines(d.peers));
    FoldAppend(step, START, DumpLines(d), [""]);
    var end := Fold(step, START, DumpLines(d));
    if end.Some? {
      NotAStart(key, "");
      FoldOne(step, end.value, "");
      assert step(end.value, "") == Some(end.value);
    }
  }

  lemma DetailsPlain(d: Dump)
    requires WellFormed(d)
    ensures NoStart(d.header) && SectionsPlain(d.peers)
  {
    forall i | 0 <= i < |d.header|
      ensures !(PEER_PREFIX <= d.header[i])
    {
      assert d.header[i] in d.header;
    }
    forall i, j | 0 <= i < |d.peers| && 0 <= j < |d.peers[i].details|
      ensures !(PEER_PREFIX <= d.peers[i].details[j])
    {
      assert d.peers[i] in d.peers && d.peers[i].details[j] in d.peers[i].details;
    }
  }

  // ---------------------------------------------------------------- findPeerInfo

  datatype Search = Search(foundPeer: bool, done: bool, config: map<string, string>)

  datatype Info = KeyNotFound(config: map<string, string>) | PeerNotFound | Info(config: map<string, string>)

  /** The inner loop over the search keys: a line that starts with one of them and "=" is recorded under the
      text before its first "=". */
  function Record(keys: seq<string>, line: string, config: map<string, string>): map<string, string> {
    if keys == [] then config
    else Record(keys[1..], line, if keys[0] + "=" <= line then config[BeforeEq(line) := AfterEq(line)] else config)
  }

  function BeforeEq(line: string): string {
    if line == "" || line[0] == '=' then "" else [line[0]] + BeforeEq(line[1..])
  }

  function AfterEq(line: string): string {
    if line == "" then "" else if line[0] == '=' then line[1..] else AfterEq(line[1..])
  }

  /** One pass of the loop body; `done` once it has left the loop. */
  function SearchLine(key: Key, keys: seq<string>, st: Search, line: string): Search {
    if st.done || (PEER_PREFIX <= line && st.foundPeer) then st.(done := true)
    else
      var found := st.foundPeer || line == PeerLine(key);
      st.(foundPeer := found, config := if found then Record(keys, line, st.config) else st.config)
  }

  function SearchLines(key: Key, keys: seq<string>, st: Search, lines: seq<string>): Search
    decreases |lines|
  {
    if lines == [] then st else SearchLines(key, keys, SearchLine(key, keys, st, lines[0]), lines[1..])
  }

  const SEARCH_START := Search(false, false, map[])

  function SearchOutcome(keys: seq<string>, st: Search): Info {
    if exists k | k in keys :: k !in st.config then KeyNotFound(st.config)
    else if !st.foundPeer then PeerNotFound
    else Info(st.config)
  }

  lemma {:induction false} SearchAppend(key: Key, keys: seq<string>, st: Search, a: seq<string>, b: seq<string>)
    ensures SearchLines(key, keys, st, a + b) == SearchLines(key, keys, SearchLines(key, keys, st, a), b)
    decreases |a|
  {
    if a == [] {
      assert a + b == b;
    } else {
      assert (a + b)[0] == a[0] && (a + b)[1..] == a[1..] + b;
      SearchAppend(key, keys, SearchLine(key, keys, st, a[0]), a[1..], b);
    }
  }

  method FindPeerInfo(ipc: string, key: Key, keys: seq<string>) returns (r: Info)
    ensures r == SearchOutcome(keys, SearchLines(key, keys, SEARCH_START, TrimAll(Split(ipc))))
  {
    var lines := Split(ipc);
    ghost var trimmed := TrimAll(lines);
    ghost var result := SearchLines(key, keys, SEARCH_START, trimmed);
    var config: map<string, string> := map[];
    var foundPeer := false;
    var i := 0;
    while i < |lines|
      invariant i <= |lines|
      invariant SearchLines(key, keys, Search(foundPeer, false, config), trimmed[i..]) == result
    {
      var line := TrimSpace(lines[i]);
      assert trimmed[i..][0] == line && trimmed[i..][1..] == trimmed[i + 1..];
      if PEER_PREFIX <= line && foundPeer {
        SearchDone(key, keys, Search(foundPeer, true, config), trimmed[i + 1..]);
        break;
      }
      if line == PeerLine(key) {
        foundPeer := true;
      }
      if foundPeer {
        config := RecordKeys(keys, line, config);
      }
      i := i + 1;
    }
    assert result.foundPeer == foundPeer && result.config == config;
    for j := 0 to |keys|
      invariant forall k | 0 <= k < j :: keys[k] in config
    {
      if keys[j] !in config {
        assert keys[j] in keys;
        return KeyNotFound(config);
      }
    }
    if !foundPeer {
      return PeerNotFound;
    }
    return Info(config);
  }

  method RecordKeys(keys: seq<string>, line: string, before: map<string, string>) returns (config: map<string, string>)
    ensures config == Record(keys, line, before)
  {
    config := before;
    for j := 0 to |keys|
      invariant Record(keys[j..], line, config) == Record(keys, line, before)
    {
      assert keys[j..][0] == keys[j] && keys[j..][1..] == keys[j + 1..];
      if keys[j] + "=" <= line {
        config := config[BeforeEq(line) := AfterEq(line)];
      }
    }
  }

  lemma {:induction false} SearchDone(key: Key, keys: seq<string>, st: Search, lines: seq<string>)
    requires st.done
    ensures SearchLines(key, keys, st, lines) == st
    decreases |lines|
  {
    if lines != [] {
      SearchDone(key, keys, st, lines[1..]);
    }
  }

  // ---------------------------------------------------------------- what it finds

  /** The value on the last line for `k` among the lines. */
  function LastValue(lines: seq<string>, k: string): Option<string> {
    if lines == [] then None
    else
      var later := LastValue(lines[1..], k);
      if later.Some? then later
      else if k + "=" <= lines[0] then Some(lines[0][|k| + 1..]) else None
  }

  lemma {:induction false} LastValueSpelled(lines: seq<string>, k: string, line: string)
    ensures LastValue([], k) == None
    ensures LastValue(lines + [line], k) == if k + "=" <= line then Some(line[|k| + 1..]) else LastValue(lines, k)
  {
    if lines == [] {
      assert lines + [line] == [line] && [line][1..] == [];
    } else {
      assert (lines + [line])[1..] == lines[1..] + [line];
      LastValueSpelled(lines[1..], k, line);
    }
  }

  /** The lines of the first peer with the key, its public key line included; none if there is no such peer. */
  function PeerSection(key: Key, peers: seq<Section>): (section: Option<seq<string>>)
    ensures section.None? <==> forall s | s in peers :: s.key != key
    ensures section.Some? ==> exists i :: 0 <= i < |peers| && peers[i].key == key && section.value == SectionLines(peers[i])
                                          && forall j | 0 <= j < i :: peers[j].key != key
  {
    if peers == [] then None
    else if peers[0].key == key then Some(SectionLines(peers[0]))
    else PeerSection(key, peers[1..])
  }

  /** Search keys as the callers give them: no "=" inside. */
  predicate PlainKeys(keys: seq<string>) {
    forall k | k in keys :: '=' !in k
  }

  lemma {:induction false} EqSplits(k: string, line: string)
    requires '=' !in k && k + "=" <= line
    ensures BeforeEq(line) == k && AfterEq(line) == line[|k| + 1..]
  {
    if k == "" {
      assert line[0] == '=';
    } else {
      assert line[0] == k[0];
      EqSplits(k[1..], line[1..]);
      assert [k[0]] + k[1..] == k;
    }
  }

  lemma RecordIsExact(keys: seq<string>, line: string, config: map<string, string>, k: string)
    requires PlainKeys(keys) && k in keys
    ensures var r := Record(keys, line, config);
            if k + "=" <= line then k in r && r[k] == line[|k| + 1..]
            else (k in r <==> k in config) && (k in r ==> r[k] == config[k])
  {
    RecordFrame(keys, line, config, k);
    if k + "=" <= line {
      EqSplits(k, line);
      RecordHits(keys, line, config, k);
    }
  }

  lemma {:induction false} RecordHits(keys: seq<string>, line: string, config: map<string, string>, k: string)
    requires PlainKeys(keys) && k in keys && k + "=" <= line && BeforeEq(line) == k
    ensures var r := Record(keys, line, config); k in r && r[k] == AfterEq(line)
  {
    var next := if keys[0] + "=" <= line then config[BeforeEq(line) := AfterEq(line)] else config;
    if k in keys[1..] {
      RecordHits(keys[1..], line, next, k);
    } else {
      assert keys[0] == k;
      RecordKeeps(keys[1..], line, next, k);
    }
  }

  lemma {:induction false} RecordKeeps(keys: seq<string>, line: string, config: map<string, string>, k: string)
    requires k in config && config[k] == AfterEq(line) && BeforeEq(line) == k
    ensures var r := Record(keys, line, config); k in r && r[k] == AfterEq(line)
  {
    if keys != [] {
      RecordKeeps(keys[1..], line, if keys[0] + "=" <= line then config[BeforeEq(line) := AfterEq(line)] else config, k);
    }
  }

  lemma {:induction false} RecordFrame(keys: seq<string>, line: string, config: map<string, string>, k: string)
    requires PlainKeys(keys) && '=' !in k
    ensures !(k + "=" <= line) ==> var r := Record(keys, line, config); (k in r <==> k in config) && (k in r ==> r[k] == config[k])
  {
    if keys != [] && !(k + "=" <= line) {
      assert keys[0] in keys;
      if keys[0] + "=" <= line {
        EqSplits(keys[0], line);
      }
      RecordFrame(keys[1..], line, if keys[0] + "=" <= line then config[BeforeEq(line) := AfterEq(line)] else config, k);
    }
  }

  lemma {:induction false} RecordWithin(keys: seq<string>, all: seq<string>, line: string, config: map<string, string>)
    requires PlainKeys(all) && (forall k | k in keys :: k in all) && (forall k | k in config :: k in all)
    ensures forall k | k in Record(keys, line, config) :: k in all
  {
    if keys != [] {
      assert keys[0] in keys;
      if keys[0] + "=" <= line {
        EqSplits(keys[0], line);
      }
      RecordWithin(keys[1..], all, line, if keys[0] + "=" <= line then config[BeforeEq(line) := AfterEq(line)] else config);
    }
  }

  function RecordAll(keys: seq<string>, lines: seq<string>, config: map<string, string>): map<string, string>
    decreases |lines|
  {
    if lines == [] then config else RecordAll(keys, lines[1..], Record(keys, lines[0], config))
  }

  lemma {:induction false} RecordAllIsExact(keys: seq<string>, lines: seq<string>, config: map<string, string>, k: string)
    requires PlainKeys(keys) && k in keys
    ensures var r := RecordAll(keys, lines, config);
            if LastValue(lines, k).Some? then k in r && r[k] == LastValue(lines, k).value
            else (k in r <==> k in config) && (k in r ==> r[k] == config[k])
    decreases |lines|
  {
    if lines != [] {
      RecordIsExact(keys, lines[0], config, k);
      RecordAllIsExact(keys, lines[1..], Record(keys, lines[0], config), k);
    }
  }

  lemma {:induction false} RecordAllWithin(keys: seq<string>, lines: seq<string>, config: map<string, string>)
    requires PlainKeys(keys) && forall k | k in config :: k in keys
    ensures forall k | k in RecordAll(keys, lines, config) :: k in keys
    decreases |lines|
  {
    if lines != [] {
      RecordWithin(keys, keys, lines[0], config);
      RecordAllWithin(keys, lines[1..], Record(keys, lines[0], config));
    }
  }

  /** Before the target, lines that do not start it change nothing. */
  lemma {:induction false} OutsideSearch(key: Key, keys: seq<string>, lines: seq<string>)
    requires forall i | 0 <= i < |lines| :: lines[i] != PeerLine(key)
    ensures SearchLines(key, keys, SEARCH_START, lines) == SEARCH_START
    decreases |lines|
  {
    if lines != [] {
      assert lines[0] != PeerLine(key);
      OutsideSearch(key, keys, lines[1..]);
    }
  }

  lemma {:induction false} InsideSearch(key: Key, keys: seq<string>, st: Search, lines: seq<string>)
    requires st.foundPeer && !st.done && NoStart(lines)
    ensures SearchLines(key, keys, st, lines) == st.(config := RecordAll(keys, lines, st.config))
    decreases |lines|
  {
    if lines != [] {
      InsideSearch(key, keys, st.(config := Record(keys, lines[0], st.config)), lines[1..]);
    }
  }

  lemma {:induction false} RecordNothing(keys: seq<string>, config: map<string, string>)
    ensures Record(keys, "", config) == config
  {
    if keys != [] {
      RecordNothing(keys[1..], config);
    }
  }

  /** Everything after the target's section is ignored. */
  lemma AfterSearch(key: Key, keys: seq<string>, st: Search, peers: seq<Section>)
    requires st.foundPeer && !st.done
    ensures var r := SearchLines(key, keys, st, SectionsLines(peers) + [""]); r.foundPeer && r.config == st.config
  {
    var lines := SectionsLines(peers) + [""];
    if peers == [] {
      assert lines == [""] && lines[1..] == [];
      RecordNothing(keys, st.config);
    } else {
      assert lines[0] == PeerLine(peers[0].key);
      assert PEER_PREFIX <= lines[0];
      SearchDone(key, keys, st.(done := true), lines[1..]);
    }
  }

  /** What the search has when it ends: the target's lines recorded, or nothing. */
  ghost predicate EndsWith(key: Key, keys: seq<string>, peers: seq<Section>, r: Search) {
    match PeerSection(key, peers)
    case None => !r.foundPeer && r.config == map[]
    case Some(section) => r.foundPeer && r.config == RecordAll(keys, section, map[])
  }

  lemma OtherSectionSearch(key: Key, keys: seq<string>, s: Section)
    requires s.key != key && NoStart(s.details)
    ensures SearchLines(key, keys, SEARCH_START, SectionLines(s)) == SEARCH_START
  {
    StartKind(key, s.key);
    assert PEER_PREFIX <= PeerLine(key);
    forall i | 0 <= i < |SectionLines(s)|
      ensures SectionLines(s)[i] != PeerLine(key)
    {
      if i > 0 {
        assert SectionLines(s)[i] == s.details[i - 1];
      }
    }
    OutsideSearch(key, keys, SectionLines(s));
  }

  lemma TargetSectionSearch(key: Key, keys: seq<string>, s: Section)
    requires s.key == key && NoStart(s.details)
    ensures SearchLines(key, keys, SEARCH_START, SectionLines(s)) == Search(true, false, RecordAll(keys, SectionLines(s), map[]))
  {
    var lines := SectionLines(s);
    assert lines[0] == PeerLine(key) && lines[1..] == s.details;
    InsideSearch(key, keys, Search(true, false, Record(keys, lines[0], map[])), s.details);
  }

  lemma {:induction false} SectionsSearch(key: Key, keys: seq<string>, peers: seq<Section>)
    requires SectionsPlain(peers)
    ensures EndsWith(key, keys, peers, SearchLines(key, keys, SEARCH_START, SectionsLines(peers) + [""]))
    decreases |peers|
  {
    if peers == [] {
      assert SectionsLines(peers) + [""] == [""];
      assert PEER_PREFIX <= PeerLine(key);
      OutsideSearch(key, keys, [""]);
    } else {
      var first, rest := SectionLines(peers[0]), SectionsLines(peers[1..]) + [""];
      assert SectionsLines(peers) + [""] == first + rest;
      SearchAppend(key, keys, SEARCH_START, first, rest);
      if peers[0].key == key {
        TargetSectionSearch(key, keys, peers[0]);
        AfterSearch(key, keys, Search(true, false, RecordAll(keys, first, map[])), peers[1..]);
      } else {
        OtherSectionSearch(key, keys, peers[0]);
        SectionsSearch(key, keys, peers[1..]);
      }
    }
  }

  lemma DumpSearch(d: Dump, key: Key, keys: seq<string>)
    requires WellFormed(d)
    ensures EndsWith(key, keys, d.peers, SearchLines(key, keys, SEARCH_START, TrimAll(Split(DumpText(d)))))
  {
    ScannedLines(d);
    DetailsPlain(d);
    var rest := SectionsLines(d.peers) + [""];
    assert DumpLines(d) + [""] == d.header + rest;
    SearchAppend(key, keys, SEARCH_START, d.header, rest);
    assert PEER_PREFIX <= PeerLine(key);
    OutsideSearch(key, keys, d.header);
    SectionsSearch(key, keys, d.peers);
  }

  /** What the caller gets for a search key: the last value in the section of the first peer with the key. */
  ghost function Wanted(key: Key, peers: seq<Section>, k: string): Option<string> {
    match PeerSection(key, peers)
    case None => None
    case Some(section) => LastValue(section, k)
  }

  /** For every dump: the values reported are those of the peer's own section, for exactly the search keys it has;
      it succeeds exactly if the peer is there with all of them; and a missing peer is reported as a missing key
      unless no key was asked for. */
  lemma InfoIsExact(d: Dump, key: Key, keys: seq<string>)
    requires WellFormed(d) && PlainKeys(keys)
    ensures var r := SearchOutcome(keys, SearchLines(key, keys, SEARCH_START, TrimAll(Split(DumpText(d)))));
            && (r.PeerNotFound? <==> PeerSection(key, d.peers).None? && keys == [])
            && (r.Info? <==> PeerSection(key, d.peers).Some? && forall k | k in keys :: Wanted(key, d.peers, k).Some?)
            && (!r.PeerNotFound? ==>
                  (forall k | k in r.config :: k in keys && Wanted(key, d.peers, k) == Some(r.config[k]))
                  && (forall k | k in keys && Wanted(key, d.peers, k).Some? :: k in r.config))
  {
    DumpSearch(d, key, keys);
    var st := SearchLines(key, keys, SEARCH_START, TrimAll(Split(DumpText(d))));
    ConfigIsExact(d, key, keys, st);
    if keys != [] {
      assert keys[0] in keys;
    }
  }

  lemma ConfigIsExact(d: Dump, key: Key, keys: seq<string>, st: Search)
    requires PlainKeys(keys) && EndsWith(key, keys, d.peers, st)
    ensures forall k | k in st.config :: k in keys
    ensures forall k | k in keys :: Wanted(key, d.peers, k) == if k in st.config then Some(st.config[k]) else None
  {
    if PeerSection(key, d.peers).Some? {
      var section := PeerSection(key, d.peers).value;
      RecordAllWithin(keys, section, map[]);
      forall k | k in keys
        ensures Wanted(key, d.peers, k) == if k in st.config then Some(st.config[k]) else None
      {
        RecordAllIsExact(keys, section, map[], k);
      }
    }
  }
}
