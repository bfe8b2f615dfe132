/** Lines, decimal numbers and hexadecimal keys as text. */
module Text {
  import opened Wrappers
  import opened Bytes

  // ---------------------------------------------------------------- lines

  predicate OneLine(s: string) {
    '\n' !in s
  }

  /** `strings.Split(s, "\n")`. */
  function Split(s: string): (r: seq<string>)
    ensures |r| >= 1
  {
    if s == "" then [""]
    else
      var r := Split(s[1..]);
      if s[0] == '\n' then [""] + r else [[s[0]] + r[0]] + r[1..]
  }

  /** Every line followed by a newline. */
  function Terminated(lines: seq<string>): string {
    if lines == [] then "" else lines[0] + "\n" + Terminated(lines[1..])
  }

  lemma {:induction false} SplitLine(line: string, rest: string)
    requires OneLine(line)
    ensures Split(line + "\n" + rest) == [line] + Split(rest)
  {
    var s := line + "\n" + rest;
    if line == "" {
      assert s[0] == '\n' && s[1..] == rest;
    } else {
      SplitLine(line[1..], rest);
      assert s[1..] == line[1..] + "\n" + rest;
      assert s[0] == line[0] && s[0] != '\n';
      assert [line[0]] + line[1..] == line;
      assert Split(s[1..])[1..] == Split(rest);
    }
  }

  /** A prefix without newline is part of the first line. */
  lemma {:induction false} SplitPrefix(prefix: string, rest: string)
    requires OneLine(prefix)
    ensures Split(prefix + rest) == [prefix + Split(rest)[0]] + Split(rest)[1..]
  {
    if prefix == "" {
      assert prefix + rest == rest;
      assert prefix + Split(rest)[0] == Split(rest)[0];
    } else {
      SplitPrefix(prefix[1..], rest);
      assert (prefix + rest)[1..] == prefix[1..] + rest;
      assert [prefix[0]] + (prefix[1..] + Split(rest)[0]) == prefix + Split(rest)[0];
    }
  }

  lemma {:induction false} SplitTerminated(lines: seq<string>, rest: string)
    requires forall l | l in lines :: OneLine(l)
    ensures Split(Terminated(lines) + rest) == lines + Split(rest)
  {
    if lines == [] {
      assert Terminated(lines) + rest == rest;
    } else {
      var tail := Terminated(lines[1..]);
      SplitTerminated(lines[1..], rest);
      Assoc(lines[0] + "\n", tail, rest);
      SplitLine(lines[0], tail + rest);
      assert lines + Split(rest) == [lines[0]] + (lines[1..] + Split(rest));
    }
  }

  lemma {:induction false} TerminatedConcat(a: seq<string>, b: seq<string>)
    ensures Terminated(a + b) == Terminated(a) + Terminated(b)
  {
    if a == [] {
      assert a + b == b;
    } else {
      TerminatedConcat(a[1..], b);
      assert (a + b)[1..] == a[1..] + b;
    }
  }

  lemma TerminatedSnoc(lines: seq<string>, line: string)
    ensures Terminated(lines + [line]) == Terminated(lines) + line + "\n"
  {
    TerminatedConcat(lines, [line]);
    assert [line][1..] == [];
    assert Terminated([line]) == line + "\n";
    assert Terminated(lines) + (line + "\n") == Terminated(lines) + line + "\n";
  }

  lemma Assoc(a: string, b: string, c: string)
    ensures (a + b) + c == a + (b + c)
  {}

  /** The texts of all elements, one after the other. */
  function Concat<T>(f: T -> string, s: seq<T>): string {
    if s == [] then "" else f(s[0]) + Concat(f, s[1..])
  }

  lemma {:induction false} ConcatSnoc<T>(f: T -> string, s: seq<T>, x: T)
    ensures Concat(f, s + [x]) == Concat(f, s) + f(x)
  {
    if s == [] {
      assert s + [x] == [x] && [x][1..] == [];
      assert Concat(f, [x]) == f(x);
    } else {
      ConcatSnoc(f, s[1..], x);
      assert (s + [x])[1..] == s[1..] + [x];
      assert f(s[0]) + (Concat(f, s[1..]) + f(x)) == (f(s[0]) + Concat(f, s[1..])) + f(x);
    }
  }

  /** The texts of the first `n` elements. */
  function ConcatFirst<T>(f: T -> string, s: seq<T>, n: nat): string
    requires n <= |s|
  {
    if n == 0 then "" else ConcatFirst(f, s, n - 1) + f(s[n - 1])
  }

  lemma {:induction false} ConcatFirstIsPrefix<T>(f: T -> string, s: seq<T>, n: nat)
    requires n <= |s|
    ensures ConcatFirst(f, s, n) == Concat(f, s[..n])
  {
    if n > 0 {
      ConcatFirstIsPrefix(f, s, n - 1);
      ConcatSnoc(f, s[..n - 1], s[n - 1]);
      assert s[..n] == s[..n - 1] + [s[n - 1]];
    }
  }

  lemma ConcatFirstAll<T>(f: T -> string, s: seq<T>)
    ensures ConcatFirst(f, s, |s|) == Concat(f, s)
  {
    ConcatFirstIsPrefix(f, s, |s|);
    assert s[..|s|] == s;
  }

  /** Append a line to a text under construction. */
  method WriteLine(sb: string, ghost lines: seq<string>, line: string) returns (sb': string, ghost lines': seq<string>)
    requires sb == Terminated(lines)
    ensures lines' == lines + [line] && sb' == Terminated(lines')
  {
    TerminatedSnoc(lines, line);
    sb' := sb + line + "\n";
    lines' := lines + [line];
  }

  /** The lines of a text; a newline at the very end starts no further line. */
  function Lines(s: string): seq<string> {
    var r := Split(s);
    if r[|r| - 1] == "" then r[..|r| - 1] else r
  }

  lemma LinesTerminated(lines: seq<string>, rest: string)
    requires forall l | l in lines :: OneLine(l)
    ensures Lines(Terminated(lines) + rest) == lines + Lines(rest)
  {
    SplitTerminated(lines, rest);
  }

  // ---------------------------------------------------------------- decimal numbers

  function Digit(n: nat): char
    requires n < 10
  {
    ['0', '1', '2', '3', '4', '5', '6', '7', '8', '9'][n]
  }

  function DigitValue(c: char): Option<nat> {
    if '0' <= c <= '9' then Some(c as int - '0' as int) else None
  }

  function NatText(n: nat): (s: string)
    ensures s != "" && forall c | c in s :: '0' <= c <= '9'
  {
    if n < 10 then [Digit(n)] else NatText(n / 10) + [Digit(n % 10)]
  }

  function ParseNat(s: string): Option<nat> {
    if s == "" then None
    else
      var last := DigitValue(s[|s| - 1]);
      if last.None? then None
      else if |s| == 1 then last
      else
        var high := ParseNat(s[..|s| - 1]);
        if high.None? then None else Some(10 * high.value + last.value)
  }

  /** `%d`. */
  function IntText(n: int): (s: string)
    ensures OneLine(s)
  {
    if n < 0 then "-" + NatText(-n) else NatText(n)
  }

  function ParseInt(s: string): Option<int> {
    if s != "" && s[0] == '-' then
      var n := ParseNat(s[1..]);
      if n.None? then None else Some(-(n.value as int))
    else ParseNat(s)
  }

  lemma {:induction false} NatRoundTrip(n: nat)
    ensures ParseNat(NatText(n)) == Some(n)
  {
    var s := NatText(n);
    assert DigitValue(Digit(n % 10)) == Some(n % 10);
    if n >= 10 {
      NatRoundTrip(n / 10);
      assert s[..|s| - 1] == NatText(n / 10);
    } else {
      assert s == [Digit(n % 10)];
    }
  }

  lemma NatTextIsUnsigned(n: nat)
    ensures NatText(n)[0] != '-'
  {
    assert NatText(n)[0] in NatText(n);
  }

  lemma IntRoundTrip(n: int)
    ensures ParseInt(IntText(n)) == Some(n)
  {
    if n < 0 {
      var s := NatText(-n);
      NatRoundTrip(-n);
      assert ("-" + s)[1..] == s;
    } else {
      NatRoundTrip(n);
      NatTextIsUnsigned(n);
    }
  }

  // ---------------------------------------------------------------- hexadecimal

  function HexDigit(n: nat): char
    requires n < 16
  {
    ['0', '1', '2', '3', '4', '5', '6', '7', '8', '9', 'a', 'b', 'c', 'd', 'e', 'f'][n]
  }

  function HexValue(c: char): Option<nat> {
    if '0' <= c <= '9' then Some(c as int - '0' as int)
    else if 'a' <= c <= 'f' then Some(c as int - 'a' as int + 10)
    else None
  }

  lemma HexDigitRoundTrip(n: nat)
    requires n < 16
    ensures HexValue(HexDigit(n)) == Some(n) && HexDigit(n) != '\n'
  {}

  /** `hex.EncodeToString`. */
  function HexEncode(b: seq<Byte>): string {
    if b == [] then "" else [HexDigit(b[0] / 16), HexDigit(b[0] % 16)] + HexEncode(b[1..])
  }

  function HexDecode(s: string): Option<seq<Byte>> {
    if s == "" then Some([])
    else if |s| == 1 then None
    else
      var hi, lo := HexValue(s[0]), HexValue(s[1]);
      if hi.None? || lo.None? then None
      else
        var rest := HexDecode(s[2..]);
        var b := 16 * hi.value + lo.value;
        if rest.None? || b >= 256 then None else Some([b] + rest.value)
  }

  lemma {:induction false} HexRoundTrip(b: seq<Byte>)
    ensures HexDecode(HexEncode(b)) == Some(b) && OneLine(HexEncode(b)) && |HexEncode(b)| == 2 * |b|
  {
    if b != [] {
      HexRoundTrip(b[1..]);
      HexDigitRoundTrip(b[0] / 16);
      HexDigitRoundTrip(b[0] % 16);
      var s := HexEncode(b);
      assert s[2..] == HexEncode(b[1..]);
      assert b == [b[0]] + b[1..];
    }
  }

  lemma HexInjective(a: seq<Byte>, b: seq<Byte>)
    ensures HexEncode(a) == HexEncode(b) <==> a == b
  {
    HexRoundTrip(a);
    HexRoundTrip(b);
  }
}
